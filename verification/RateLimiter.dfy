/**
 The per-tenant sliding window of `crates/executionhandler/src/multi_tenant.rs`: a deque of
 accepted timestamps trimmed from the front.  The reference is the naive rule that counts
 accepted timestamps in the closed window ending now.
 */
module RateLimiter {
  import opened Tiers

  const SECONDS_PER_MINUTE: nat := 60
  const MS_PER_SECOND: nat := 1_000

  /** The limit is per minute. */
  const WINDOW_MS: nat := SECONDS_PER_MINUTE * MS_PER_SECOND

  function WindowStart(now: nat): nat {
    if now < WINDOW_MS then 0 else now - WINDOW_MS
  }

  function DropExpired(ts: seq<nat>, start: nat): seq<nat> {
    if ts != [] && ts[0] < start then DropExpired(ts[1..], start) else ts
  }

  /** One `check_and_record`: the verdict and the new deque. */
  function Check(ts: seq<nat>, limit: nat, now: nat): (bool, seq<nat>) {
    var kept := DropExpired(ts, WindowStart(now));
    if |kept| >= limit then (false, kept) else (true, kept + [now])
  }

  class TenantRateLimiter {
    var timestamps: seq<nat>
    var limit: nat

    constructor (tier: Tier)
      ensures timestamps == [] && limit == tier.OrdersPerMinute()
    {
      timestamps, limit := [], tier.OrdersPerMinute();
    }

    method CheckAndRecord(now: nat) returns (ok: bool)
      modifies this`timestamps
      ensures (ok, timestamps) == Check(old(timestamps), limit, now)
    {
      ok, timestamps := Decide(timestamps, limit, now);
    }
  }

  /** The trimming loop and the verdict, on one deque. */
  method Decide(ts: seq<nat>, limit: nat, now: nat) returns (ok: bool, kept: seq<nat>)
    ensures (ok, kept) == Check(ts, limit, now)
  {
    var start := WindowStart(now);
    kept := ts;
    while kept != [] && kept[0] < start
      invariant DropExpired(kept, start) == DropExpired(ts, start)
      decreases |kept|
    {
      kept := kept[1..];
    }
    if |kept| >= limit {
      return false, kept;
    }
    return true, kept + [now];
  }

  // ---------------------------------------------------------------- runs

  /** The deque and the accepted timestamps after calls at the times `nows`. */
  datatype History = History(deque: seq<nat>, accepted: seq<nat>)

  function Run(limit: nat, nows: seq<nat>): History {
    if nows == [] then History([], [])
    else
      var before, now := Run(limit, nows[..|nows| - 1]), nows[|nows| - 1];
      var (ok, deque) := Check(before.deque, limit, now);
      History(deque, if ok then before.accepted + [now] else before.accepted)
  }

  /** The verdict of the last call of a run. */
  function LastVerdict(limit: nat, nows: seq<nat>): bool
    requires nows != []
  {
    Check(Run(limit, nows[..|nows| - 1]).deque, limit, nows[|nows| - 1]).0
  }

  ghost predicate Sorted(s: seq<nat>) {
    forall i, j :: 0 <= i < j < |s| ==> s[i] <= s[j]
  }

  /** How many elements of `s` lie in the closed interval from `lo` to `hi`. */
  function CountIn(s: seq<nat>, lo: nat, hi: nat): nat {
    if s == [] then 0
    else
      var n := |s| - 1;
      CountIn(s[..n], lo, hi) + if lo <= s[n] <= hi then 1 else 0
  }

  lemma {:induction false} CountAfterPrefix(s: seq<nat>, k: nat, lo: nat, hi: nat)
    requires k <= |s| && forall i :: 0 <= i < k ==> s[i] < lo
    ensures CountIn(s, lo, hi) <= |s| - k
    ensures (forall i :: k <= i < |s| ==> lo <= s[i] <= hi) ==> CountIn(s, lo, hi) == |s| - k
  {
    if s != [] {
      var n := |s| - 1;
      CountAfterPrefix(s[..n], if k <= n then k else n, lo, hi);
    }
  }

  /** Trimming a sorted deque removes exactly the expired prefix. */
  lemma {:induction false} DropExpiredIsSuffix(ts: seq<nat>, start: nat) returns (k: nat)
    requires Sorted(ts)
    ensures k <= |ts| && DropExpired(ts, start) == ts[k..]
    ensures forall i :: 0 <= i < k ==> ts[i] < start
    ensures forall i :: k <= i < |ts| ==> start <= ts[i]
  {
    if ts != [] && ts[0] < start {
      k := DropExpiredIsSuffix(ts[1..], start);
      k := k + 1;
    } else {
      k := 0;
    }
  }

  /** Any `limit + 1` consecutive timestamps span more than a window. */
  ghost predicate Spaced(s: seq<nat>, limit: nat) {
    forall i, j :: 0 <= i < |s| && 0 <= j < |s| && j == i + limit ==> s[i] + WINDOW_MS < s[j]
  }

  /**
   The deque is the suffix of the accepted timestamps that a window ending at `last` can
   still see, and any `limit + 1` accepted timestamps span more than a window.
   */
  ghost predicate Inv(h: History, limit: nat, last: nat) {
    var dropped := |h.accepted| - |h.deque|;
    && 0 <= dropped
    && h.deque == h.accepted[dropped..]
    && Sorted(h.accepted)
    && (forall i :: 0 <= i < |h.accepted| ==> h.accepted[i] <= last)
    && (forall i :: 0 <= i < dropped ==> h.accepted[i] + WINDOW_MS < last)
    && Spaced(h.accepted, limit)
  }

  /** Where the window ending at `now` cuts the accepted timestamps. */
  lemma CutPoint(h: History, limit: nat, last: nat, now: nat) returns (cut: nat)
    requires Inv(h, limit, last) && last <= now
    ensures cut <= |h.accepted| && DropExpired(h.deque, WindowStart(now)) == h.accepted[cut..]
    ensures forall i :: 0 <= i < cut ==> h.accepted[i] < WindowStart(now)
    ensures forall i :: cut <= i < |h.accepted| ==> WindowStart(now) <= h.accepted[i] <= now
  {
    var d, start := |h.accepted| - |h.deque|, WindowStart(now);
    SuffixSorted(h.accepted, d);
    var k := DropExpiredIsSuffix(h.deque, start);
    cut := d + k;
    CutAt(h.accepted, d, k, start);
  }

  lemma SuffixSorted(s: seq<nat>, d: nat)
    requires Sorted(s) && d <= |s|
    ensures Sorted(s[d..])
  {
  }

  lemma CutAt(s: seq<nat>, d: nat, k: nat, start: nat)
    requires d + k <= |s|
    requires forall i :: 0 <= i < d ==> s[i] < start
    requires forall i :: 0 <= i < k ==> s[d..][i] < start
    requires forall i :: k <= i < |s[d..]| ==> start <= s[d..][i]
    ensures s[d..][k..] == s[d + k..]
    ensures forall i :: 0 <= i < d + k ==> s[i] < start
    ensures forall i :: d + k <= i < |s| ==> start <= s[i]
  {
    forall i | d <= i < |s| ensures s[i] == s[d..][i - d] {}
  }

  lemma RecordKeepsInv(accepted: seq<nat>, cut: nat, limit: nat, now: nat)
    requires cut <= |accepted| && Sorted(accepted)
    requires forall i :: 0 <= i < |accepted| ==> accepted[i] <= now
    requires forall i :: 0 <= i < cut ==> accepted[i] + WINDOW_MS < now
    requires Spaced(accepted, limit)
    ensures Inv(History(accepted[cut..], accepted), limit, now)
    ensures |accepted| - cut < limit ==> Inv(History(accepted[cut..] + [now], accepted + [now]), limit, now)
  {
    var longer := accepted + [now];
    assert longer[cut..] == accepted[cut..] + [now];
    if |accepted| - cut < limit {
      forall i, j | 0 <= i < |longer| && 0 <= j < |longer| && j == i + limit
        ensures longer[i] + WINDOW_MS < longer[j]
      {
        if j < |accepted| { assert accepted[i] + WINDOW_MS < accepted[j]; }
      }
    }
  }

  /** One call at a later time: it agrees with the naive rule and keeps the invariant. */
  lemma CheckRefinesNaive(h: History, limit: nat, last: nat, now: nat)
    requires Inv(h, limit, last) && last <= now
    ensures var (ok, deque) := Check(h.deque, limit, now);
            && (ok <==> CountIn(h.accepted, WindowStart(now), now) < limit)
            && Inv(History(deque, if ok then h.accepted + [now] else h.accepted), limit, now)
  {
    var cut := CutPoint(h, limit, last, now);
    CountAfterPrefix(h.accepted, cut, WindowStart(now), now);
    RecordKeepsInv(h.accepted, cut, limit, now);
  }

  ghost predicate Clock(nows: seq<nat>) { Sorted(nows) }

  lemma {:induction false} RunInv(limit: nat, nows: seq<nat>)
    requires Clock(nows)
    ensures Inv(Run(limit, nows), limit, if nows == [] then 0 else nows[|nows| - 1])
  {
    if nows != [] {
      var n := |nows| - 1;
      RunInv(limit, nows[..n]);
      CheckRefinesNaive(Run(limit, nows[..n]), limit, if n == 0 then 0 else nows[n - 1], nows[n]);
    }
  }

  /**
   With a non-decreasing clock the limiter is the naive rule: the last call is accepted
   exactly when fewer than `limit` accepted timestamps lie in the window ending at it.
   */
  lemma LimiterIsNaive(limit: nat, nows: seq<nat>)
    requires Clock(nows) && nows != []
    ensures var now := nows[|nows| - 1];
            LastVerdict(limit, nows) <==>
            CountIn(Run(limit, nows[..|nows| - 1]).accepted, WindowStart(now), now) < limit
  {
    var n := |nows| - 1;
    RunInv(limit, nows[..n]);
    CheckRefinesNaive(Run(limit, nows[..n]), limit, if n == 0 then 0 else nows[n - 1], nows[n]);
  }

  lemma NoneSpacedByZero(s: seq<nat>)
    requires Spaced(s, 0)
    ensures s == []
  {
    SpacedAt(s, 0, 0, 0);
  }

  lemma SpacedAt(s: seq<nat>, limit: nat, i: nat, j: nat)
    requires Spaced(s, limit) && j == i + limit
    ensures i < |s| && j < |s| ==> s[i] + WINDOW_MS < s[j]
  {
  }

  /** Before the last timestamp of a window there are fewer than `limit` others in it. */
  lemma EarlierCount(s: seq<nat>, limit: nat, lo: nat, n: nat)
    requires Sorted(s) && Spaced(s, limit) && n + 1 == |s| && 0 < limit && s[n] <= lo + WINDOW_MS
    ensures CountIn(s[..n], lo, lo + WINDOW_MS) < limit
  {
    if limit <= n {
      var k := n - limit;
      SpacedAt(s, limit, k, n);
      CountAfterPrefix(s[..n], k + 1, lo, lo + WINDOW_MS);
    } else {
      CountAfterPrefix(s[..n], 0, lo, lo + WINDOW_MS);
    }
  }

  lemma {:induction false} SpacedCountBounded(s: seq<nat>, limit: nat, lo: nat)
    requires Sorted(s) && Spaced(s, limit)
    ensures CountIn(s, lo, lo + WINDOW_MS) <= limit
  {
    if limit == 0 {
      NoneSpacedByZero(s);
    } else if s != [] {
      var n := |s| - 1;
      SpacedCountBounded(s[..n], limit, lo);
      if s[n] <= lo + WINDOW_MS { EarlierCount(s, limit, lo, n); }
    }
  }

  /** No closed window of 60000 ms, wherever it starts, ever holds more than `limit` accepted orders. */
  lemma NoWindowOverLimit(limit: nat, nows: seq<nat>, lo: nat)
    requires Clock(nows)
    ensures CountIn(Run(limit, nows).accepted, lo, lo + WINDOW_MS) <= limit
  {
    RunInv(limit, nows);
    SpacedCountBounded(Run(limit, nows).accepted, limit, lo);
  }
}
