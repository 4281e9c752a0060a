/**
 The circuit breaker of `crates/executionhandler/src/circuit_breaker_v2.rs`.  Each public call
 is atomic, counters are 32-bit and wrap, and the clock is an argument.
 */
module CircuitBreaker {
  import opened Wrappers
  import opened Arithmetic

  const U32_SPAN: nat := 0x1_0000_0000
  const U64_SPAN: nat := 0x1_0000_0000_0000_0000

  datatype CircuitState = Closed | Open | HalfOpen

  datatype Config = Config(failureThreshold: nat, recoveryNanos: nat, successThreshold: nat, halfOpenPct: nat) {
    ghost predicate Valid() {
      1 <= failureThreshold < U32_SPAN && 1 <= successThreshold < U32_SPAN
    }

    /** `as_nanos() as u64`: a 128-bit duration cut to 64 bits. */
    function RecoveryNs(): nat { recoveryNanos % U64_SPAN }
  }

  datatype Breaker = Breaker(
    state: CircuitState,
    failureCount: nat,
    lastFailureNs: nat,
    halfOpenSuccesses: nat,
    halfOpenRequests: nat,
    consecutiveSuccesses: nat)

  datatype Event = CanExecute(now: nat) | RecordSuccess | RecordFailure(now: nat) | Reset

  const Fresh: Breaker := Breaker(Closed, 0, 0, 0, 0, 0)

  function Inc(x: nat): nat { (x + 1) % U32_SPAN }

  /** Saturating subtraction, as the source measures elapsed time. */
  function Elapsed(now: nat, since: nat): nat { if now < since then 0 else now - since }

  /** A clock that runs backwards has not moved at all. */
  lemma ElapsedMeaning(now: nat, since: nat, d: nat)
    ensures Elapsed(now, since) >= d <==> d == 0 || now >= since + d
  {
  }

  function ToOpen(b: Breaker): Breaker { b.(state := Open, halfOpenSuccesses := 0) }

  function ToClosed(b: Breaker): Breaker {
    b.(state := Closed, failureCount := 0, halfOpenSuccesses := 0, halfOpenRequests := 0)
  }

  /** The new state and, for `CanExecute`, whether the request is admitted. */
  function Step(cfg: Config, b: Breaker, e: Event): (Breaker, bool) {
    match e
    case CanExecute(now) =>
      (match b.state
       case Closed => (b, true)
       case Open =>
         if Elapsed(now, b.lastFailureNs) >= cfg.RecoveryNs()
         then (b.(state := HalfOpen, halfOpenSuccesses := 0, halfOpenRequests := 0), true)
         else (b, false)
       case HalfOpen =>
         if cfg.halfOpenPct >= 100 then (b, true)
         else (b.(halfOpenRequests := Inc(b.halfOpenRequests)), b.halfOpenRequests % 100 < cfg.halfOpenPct))
    case RecordSuccess =>
      (match b.state
       case Closed => (b.(failureCount := 0, consecutiveSuccesses := Inc(b.consecutiveSuccesses)), false)
       case HalfOpen =>
         var counted := b.(halfOpenSuccesses := Inc(b.halfOpenSuccesses));
         (if Inc(b.halfOpenSuccesses) >= cfg.successThreshold then ToClosed(counted) else counted, false)
       case Open => (b, false))
    case RecordFailure(now) =>
      var noted := b.(lastFailureNs := now, consecutiveSuccesses := 0);
      (match b.state
       case Closed =>
         var counted := noted.(failureCount := Inc(b.failureCount));
         (if Inc(b.failureCount) >= cfg.failureThreshold then ToOpen(counted) else counted, false)
       case HalfOpen => (ToOpen(noted), false)
       case Open => (noted.(failureCount := Inc(b.failureCount)), false))
    case Reset => (ToClosed(b).(failureCount := 0, lastFailureNs := 0), false)
  }

  function Run(cfg: Config, events: seq<Event>): Breaker {
    if events == [] then Fresh else Step(cfg, Run(cfg, events[..|events| - 1]), events[|events| - 1]).0
  }

  // ---------------------------------------------------------------- what a history says

  function Failures(events: seq<Event>): nat {
    if events == [] then 0
    else Failures(events[..|events| - 1]) + if events[|events| - 1].RecordFailure? then 1 else 0
  }

  function Successes(events: seq<Event>): nat {
    if events == [] then 0
    else Successes(events[..|events| - 1]) + if events[|events| - 1].RecordSuccess? then 1 else 0
  }

  function Requests(events: seq<Event>): nat {
    if events == [] then 0
    else Requests(events[..|events| - 1]) + if events[|events| - 1].CanExecute? then 1 else 0
  }

  /** The time of the latest recorded failure. */
  function LastFailure(events: seq<Event>): Option<nat> {
    if events == [] then None
    else if events[|events| - 1].RecordFailure? then Some(events[|events| - 1].now)
    else LastFailure(events[..|events| - 1])
  }

  /** From event `k` on the breaker has stayed in state `st`. */
  ghost predicate StaysIn(cfg: Config, events: seq<Event>, k: nat, st: CircuitState) {
    k <= |events| && forall i :: k <= i <= |events| ==> Run(cfg, events[..i]).state == st
  }

  lemma StaysExtends(cfg: Config, events: seq<Event>, k: nat, st: CircuitState)
    requires events != [] && StaysIn(cfg, events[..|events| - 1], k, st) && Run(cfg, events).state == st
    ensures StaysIn(cfg, events, k, st)
  {
    var init := events[..|events| - 1];
    forall i | k <= i <= |events| ensures Run(cfg, events[..i]).state == st {
      if i < |events| { assert events[..i] == init[..i]; } else { assert events[..i] == events; }
    }
  }

  lemma StaysHere(cfg: Config, events: seq<Event>)
    ensures StaysIn(cfg, events, |events|, Run(cfg, events).state)
  {
    assert events[..|events|] == events;
  }

  lemma FailuresAfter(events: seq<Event>, k: nat)
    requires k < |events|
    ensures var n := |events| - 1;
            Failures(events[k..]) == Failures(events[..n][k..]) + if events[n].RecordFailure? then 1 else 0
  {
    assert events[k..][..|events[k..]| - 1] == events[..|events| - 1][k..];
  }

  lemma SuccessesAfter(events: seq<Event>, k: nat)
    requires k < |events|
    ensures var n := |events| - 1;
            Successes(events[k..]) == Successes(events[..n][k..]) + if events[n].RecordSuccess? then 1 else 0
  {
    assert events[k..][..|events[k..]| - 1] == events[..|events| - 1][k..];
  }

  lemma RequestsAfter(events: seq<Event>, k: nat)
    requires k < |events|
    ensures var n := |events| - 1;
            Requests(events[k..]) == Requests(events[..n][k..]) + if events[n].CanExecute? then 1 else 0
  {
    assert events[k..][..|events[k..]| - 1] == events[..|events| - 1][k..];
  }

  lemma IncExact(x: nat)
    requires x + 1 < U32_SPAN
    ensures Inc(x) == x + 1
  {
  }

  /** Whether event `e` in state Closed starts the failure count afresh. */
  predicate Clears(e: Event) { e.RecordSuccess? || e.Reset? }

  /**
   Closed: the counter is the number of failures since the last success or close, and it is
   below the threshold.
   */
  lemma {:induction false} ClosedCounts(cfg: Config, events: seq<Event>) returns (k: nat)
    requires cfg.Valid() && Run(cfg, events).state.Closed?
    ensures ClosedSince(cfg, events, k)
  {
    if events == [] || Clears(events[|events| - 1]) || !Run(cfg, events[..|events| - 1]).state.Closed? {
      k := |events|;
      ClosedHere(cfg, events);
    } else {
      k := ClosedCounts(cfg, events[..|events| - 1]);
      StillClosed(cfg, events, k);
    }
  }

  /**
   Closed from event `k` on, where the count was last cleared; since then it counts the failures, which are
   fewer than the threshold.
   */
  ghost predicate ClosedSince(cfg: Config, events: seq<Event>, k: nat) {
    && StaysIn(cfg, events, k, Closed)
    && ClearedAt(events, k)
    && Run(cfg, events).failureCount == Failures(events[k..]) < cfg.failureThreshold
  }

  /** Event `k` comes right after the last one that clears the count, if any does. */
  ghost predicate ClearedAt(events: seq<Event>, k: nat) {
    && k <= |events|
    && (forall i :: k <= i < |events| ==> !Clears(events[i]))
    && (k > 0 ==> Clears(events[k - 1]))
  }

  lemma ClearedAtExtends(events: seq<Event>, k: nat)
    requires events != [] && ClearedAt(events[..|events| - 1], k) && !Clears(events[|events| - 1])
    ensures ClearedAt(events, k)
  {
    var init := events[..|events| - 1];
    forall i | k <= i < |events| ensures !Clears(events[i]) {
      if i < |init| { assert events[i] == init[i]; }
    }
    assert k > 0 ==> events[k - 1] == init[k - 1];
  }

  lemma ClosedHere(cfg: Config, events: seq<Event>)
    requires cfg.Valid() && Run(cfg, events).state.Closed?
    requires events == [] || Clears(events[|events| - 1]) || !Run(cfg, events[..|events| - 1]).state.Closed?
    ensures ClosedSince(cfg, events, |events|)
  {
    StaysHere(cfg, events);
    assert events[|events|..] == [];
  }

  lemma StillClosed(cfg: Config, events: seq<Event>, k: nat)
    requires cfg.Valid() && events != [] && Run(cfg, events).state.Closed? && !Clears(events[|events| - 1])
    requires ClosedSince(cfg, events[..|events| - 1], k)
    ensures ClosedSince(cfg, events, k)
  {
    var init, last := events[..|events| - 1], events[|events| - 1];
    StaysExtends(cfg, events, k, Closed);
    ClearedAtExtends(events, k);
    FailuresAfter(events, k);
    ClosedStep(cfg, Run(cfg, init), last);
  }

  lemma ClosedStep(cfg: Config, b: Breaker, e: Event)
    requires cfg.Valid() && b.state.Closed? && b.failureCount < cfg.failureThreshold && !Clears(e)
    requires Step(cfg, b, e).0.state.Closed?
    ensures Step(cfg, b, e).0.failureCount == b.failureCount + if e.RecordFailure? then 1 else 0
    ensures Step(cfg, b, e).0.failureCount < cfg.failureThreshold
  {
    IncExact(b.failureCount);
  }

  /**
   Half-open: the breaker entered on one `CanExecute` while open, and since then it has seen
   no failure and no reset, and as many successes as the counter says, below the threshold.
   */
  lemma {:induction false} HalfOpenCounts(cfg: Config, events: seq<Event>) returns (k: nat)
    requires cfg.Valid() && Run(cfg, events).state.HalfOpen?
    ensures HalfOpenSince(cfg, events, k)
  {
    if Run(cfg, events[..|events| - 1]).state.HalfOpen? {
      k := HalfOpenCounts(cfg, events[..|events| - 1]);
      StillHalfOpen(cfg, events, k);
    } else {
      k := |events|;
      StaysHere(cfg, events);
      assert events[k..] == [];
    }
  }

  /**
   Half-open since event `k - 1`, a request that found the breaker open: no failure and no reset since, the
   successes counted and too few to close, and below 100 percent the requests counted too.
   */
  ghost predicate HalfOpenSince(cfg: Config, events: seq<Event>, k: nat) {
    && EnteredAt(cfg, events, k)
    && Untroubled(events, k)
    && Run(cfg, events).halfOpenSuccesses == Successes(events[k..]) < cfg.successThreshold
    && (cfg.halfOpenPct < 100 ==> Run(cfg, events).halfOpenRequests == Requests(events[k..]) % U32_SPAN)
  }

  ghost predicate Untroubled(events: seq<Event>, k: nat) {
    && 0 < k <= |events| && events[k - 1].CanExecute?
    && forall i :: k <= i < |events| ==> !events[i].RecordFailure? && !events[i].Reset?
  }

  lemma UntroubledExtends(events: seq<Event>, k: nat)
    requires events != [] && Untroubled(events[..|events| - 1], k)
    requires !events[|events| - 1].RecordFailure? && !events[|events| - 1].Reset?
    ensures Untroubled(events, k)
  {
    var init := events[..|events| - 1];
    forall i | k <= i < |events| ensures !events[i].RecordFailure? && !events[i].Reset? {
      if i < |init| { assert events[i] == init[i]; }
    }
    assert events[k - 1] == init[k - 1];
  }

  lemma StillHalfOpen(cfg: Config, events: seq<Event>, k: nat)
    requires cfg.Valid() && events != [] && Run(cfg, events).state.HalfOpen?
    requires HalfOpenSince(cfg, events[..|events| - 1], k)
    ensures HalfOpenSince(cfg, events, k)
  {
    var init, last := events[..|events| - 1], events[|events| - 1];
    StaysExtends(cfg, events, k, HalfOpen);
    UntroubledExtends(events, k);
    SuccessesAfter(events, k);
    RequestsAfter(events, k);
    assert events[..k - 1] == init[..k - 1];
    StaysAt(cfg, init, k, HalfOpen, |init|);
    assert init[..|init|] == init;
    HalfOpenStep(cfg, Run(cfg, init), last, Requests(init[k..]));
  }

  /** Event `k - 1` took the breaker from Open to HalfOpen, where it has stayed. */
  ghost predicate EnteredAt(cfg: Config, events: seq<Event>, k: nat) {
    0 < k && StaysIn(cfg, events, k, HalfOpen) && Run(cfg, events[..k - 1]).state.Open?
  }

  lemma EnteredOnce(cfg: Config, events: seq<Event>, j: nat, k: nat)
    requires EnteredAt(cfg, events, j) && EnteredAt(cfg, events, k)
    ensures j == k
  {
    StaysAt(cfg, events, j, HalfOpen, k - 1);
    StaysAt(cfg, events, k, HalfOpen, j - 1);
  }

  lemma StaysAt(cfg: Config, events: seq<Event>, k: nat, st: CircuitState, i: nat)
    requires StaysIn(cfg, events, k, st)
    ensures k <= i <= |events| ==> Run(cfg, events[..i]).state == st
  {
  }

  lemma HalfOpenStep(cfg: Config, b: Breaker, e: Event, requests: nat)
    requires cfg.Valid() && b.state.HalfOpen? && b.halfOpenSuccesses < cfg.successThreshold
    requires cfg.halfOpenPct < 100 ==> b.halfOpenRequests == requests % U32_SPAN
    requires Step(cfg, b, e).0.state.HalfOpen?
    ensures var b' := Step(cfg, b, e).0;
            && b'.halfOpenSuccesses == b.halfOpenSuccesses + (if e.RecordSuccess? then 1 else 0)
            && b'.halfOpenSuccesses < cfg.successThreshold
            && (cfg.halfOpenPct < 100 ==>
                  b'.halfOpenRequests == (requests + if e.CanExecute? then 1 else 0) % U32_SPAN)
  {
    IncExact(b.halfOpenSuccesses);
    ModSuccessor(requests, U32_SPAN);
  }

  /** Away from Closed, the recorded failure time is that of the latest failure. */
  lemma {:induction false} FailureTimeKnown(cfg: Config, events: seq<Event>)
    requires !Run(cfg, events).state.Closed?
    ensures LastFailure(events) == Some(Run(cfg, events).lastFailureNs)
  {
    var init := events[..|events| - 1];
    if !Run(cfg, init).state.Closed? { FailureTimeKnown(cfg, init); }
  }

  /**
   The state after every event in every run, each change with its exact cause:
   Closed opens exactly on the failure that completes a run of `failureThreshold`;
   Open is left only by `reset`, or into HalfOpen by an admitted request made at least the
   recovery time after the latest failure;
   HalfOpen reopens on a failure, and closes by `reset` or on the success that completes
   `successThreshold` successes since it was entered with no failure in between.
   */
  lemma Transitions(cfg: Config, events: seq<Event>)
    requires cfg.Valid() && events != []
    ensures var init, last := events[..|events| - 1], events[|events| - 1];
            var before, after := Run(cfg, init), Run(cfg, events);
            && (before.state.Closed? ==>
                  if last.RecordFailure? && before.failureCount + 1 == cfg.failureThreshold
                  then after.state.Open? else after.state.Closed?)
            && (before.state.Open? ==>
                  && LastFailure(init).Some?
                  && if last.Reset? then after.state.Closed?
                     else if last.CanExecute? && Elapsed(last.now, LastFailure(init).value) >= cfg.RecoveryNs()
                     then after.state.HalfOpen? else after.state.Open?)
            && (before.state.HalfOpen? ==>
                  if last.RecordFailure? then after.state.Open?
                  else if last.Reset? || (last.RecordSuccess? && before.halfOpenSuccesses + 1 == cfg.successThreshold)
                  then after.state.Closed? else after.state.HalfOpen?)
  {
    var init := events[..|events| - 1];
    var before := Run(cfg, init);
    match before.state {
      case Closed =>
        var k := ClosedCounts(cfg, init);
        IncExact(before.failureCount);
      case Open => FailureTimeKnown(cfg, init);
      case HalfOpen =>
        var k := HalfOpenCounts(cfg, init);
        IncExact(before.halfOpenSuccesses);
    }
  }

  /** Successes recorded while closed since the last failure. */
  function ClosedSuccesses(cfg: Config, events: seq<Event>): nat {
    if events == [] then 0
    else
      var n := |events| - 1;
      if events[n].RecordFailure? then 0
      else ClosedSuccesses(cfg, events[..n])
           + if events[n].RecordSuccess? && Run(cfg, events[..n]).state.Closed? then 1 else 0
  }

  /** The success streak is counted in 32 bits. */
  lemma {:induction false} StreakCounts(cfg: Config, events: seq<Event>)
    ensures Run(cfg, events).consecutiveSuccesses == ClosedSuccesses(cfg, events) % U32_SPAN
  {
    if events != [] {
      var n := |events| - 1;
      StreakCounts(cfg, events[..n]);
      ModSuccessor(ClosedSuccesses(cfg, events[..n]), U32_SPAN);
    }
  }

  // ---------------------------------------------------------------- admission

  /**
   Who is admitted, after any history: everybody while Closed; while Open exactly those that come at least
   the recovery time after the latest failure; while HalfOpen everybody at 100 percent, and below that
   those whose place among the requests since it was entered, modulo 100, is under the percentage (the
   place is a 32-bit count).
   */
  lemma AdmissionLaw(cfg: Config, events: seq<Event>, now: nat)
    requires cfg.Valid()
    ensures var b := Run(cfg, events); var admitted := Step(cfg, b, CanExecute(now)).1;
            && (b.state.Closed? ==> admitted)
            && (b.state.Open? ==>
                  && LastFailure(events).Some?
                  && (admitted <==> Elapsed(now, LastFailure(events).value) >= cfg.RecoveryNs()))
            && (b.state.HalfOpen? ==> exists k: nat :: EnteredAt(cfg, events, k))
            && (b.state.HalfOpen? ==> forall k: nat :: EnteredAt(cfg, events, k) ==>
                  (admitted <==> cfg.halfOpenPct >= 100
                                 || Requests(events[k..]) % U32_SPAN % 100 < cfg.halfOpenPct))
  {
    var b := Run(cfg, events);
    if b.state.Open? {
      FailureTimeKnown(cfg, events);
    } else if b.state.HalfOpen? {
      var entered := HalfOpenCounts(cfg, events);
      forall k: nat | EnteredAt(cfg, events, k) ensures k == entered {
        EnteredOnce(cfg, events, k, entered);
      }
    }
  }

  /** Nothing resets the breaker, requests come before the recovery time is over, failures not before `since`. */
  ghost predicate BeforeRecovery(cfg: Config, since: nat, later: seq<Event>) {
    forall e :: e in later ==>
      && !e.Reset?
      && (e.CanExecute? ==> Elapsed(e.now, since) < cfg.RecoveryNs())
      && (e.RecordFailure? ==> since <= e.now)
  }

  /**
   An open breaker protects: from the opening failure until the recovery time is over, without a reset it
   stays open and refuses every request, whatever else is recorded meanwhile.
   */
  lemma {:induction false} OpenRefuses(cfg: Config, events: seq<Event>, since: nat, later: seq<Event>, now: nat)
    requires cfg.Valid() && Run(cfg, events).state.Open? && LastFailure(events) == Some(since)
    requires BeforeRecovery(cfg, since, later) && Elapsed(now, since) < cfg.RecoveryNs()
    ensures Run(cfg, events + later).state.Open?
    ensures LastFailure(events + later).Some? && since <= LastFailure(events + later).value
    ensures !Step(cfg, Run(cfg, events + later), CanExecute(now)).1
    decreases |later|
  {
    if later == [] {
      assert events + later == events;
    } else {
      var n := |later| - 1;
      var init, e := events + later[..n], later[n];
      assert events + later == init + [e];
      assert later[n] in later;
      OpenRefuses(cfg, events, since, later[..n], if e.CanExecute? then e.now else now);
      RunAppend(cfg, init, e);
    }
    AdmissionLaw(cfg, events + later, now);
  }

  // ---------------------------------------------------------------- the recovery timeout

  /** If the last event moves the breaker from Open to HalfOpen, the whole timeout has passed. */
  ghost predicate TimeoutHonoured(cfg: Config, events: seq<Event>) {
    events != [] ==>
      var init, last := events[..|events| - 1], events[|events| - 1];
      Run(cfg, init).state.Open? && Run(cfg, events).state.HalfOpen? ==>
        && last.CanExecute? && LastFailure(init).Some?
        && Elapsed(last.now, LastFailure(init).value) >= cfg.recoveryNanos
  }

  function Repeat(n: nat): (r: seq<Event>)
    ensures |r| == n
  {
    if n == 0 then [] else Repeat(n - 1) + [RecordFailure(0)]
  }

  lemma OneMoreFailure(cfg: Config, b: Breaker, n: nat)
    requires cfg.Valid() && 0 < n <= cfg.failureThreshold && b.state == Closed && b.failureCount == n - 1
    ensures FailedTimes(cfg, Step(cfg, b, RecordFailure(0)).0, n)
  {
    IncExact(n - 1);
  }

  lemma RunAppend(cfg: Config, events: seq<Event>, e: Event)
    ensures Run(cfg, events + [e]) == Step(cfg, Run(cfg, events), e).0
    ensures LastFailure(events + [e]) == if e.RecordFailure? then Some(e.now) else LastFailure(events)
  {
    assert (events + [e])[..|events|] == events;
  }

  /** The breaker after `n` failures at time 0. */
  ghost predicate FailedTimes(cfg: Config, b: Breaker, n: nat) {
    b.lastFailureNs == 0 && b.failureCount == n && b.state == if n < cfg.failureThreshold then Closed else Open
  }

  lemma {:induction false} RepeatedFailures(cfg: Config, n: nat)
    requires cfg.Valid() && n <= cfg.failureThreshold
    ensures FailedTimes(cfg, Run(cfg, Repeat(n)), n)
    ensures n > 0 ==> LastFailure(Repeat(n)) == Some(0)
  {
    if n > 0 {
      RepeatedFailures(cfg, n - 1);
      RunAppend(cfg, Repeat(n - 1), RecordFailure(0));
      OneMoreFailure(cfg, Run(cfg, Repeat(n - 1)), n);
    }
  }

  /** The configured timeout is honoured in every run exactly when it fits in 64 bits of nanoseconds. */
  lemma TimeoutHonouredIff(cfg: Config)
    requires cfg.Valid()
    ensures (forall events :: TimeoutHonoured(cfg, events)) <==> cfg.recoveryNanos < U64_SPAN
  {
    if cfg.recoveryNanos < U64_SPAN {
      DivModUnique(cfg.recoveryNanos, U64_SPAN, 0, cfg.recoveryNanos);
      forall events ensures TimeoutHonoured(cfg, events) {
        if events != [] { Transitions(cfg, events); }
      }
    } else {
      var t := cfg.RecoveryNs();
      var init := Repeat(cfg.failureThreshold);
      var events := init + [CanExecute(t)];
      RepeatedFailures(cfg, cfg.failureThreshold);
      assert events[..|events| - 1] == init;
      assert !TimeoutHonoured(cfg, events);
    }
  }

  // ---------------------------------------------------------------- recovery terminates

  /** A request through the breaker whose service succeeds. */
  function SuccessfulCall(cfg: Config, b: Breaker, now: nat): Breaker {
    var (b', admitted) := Step(cfg, b, CanExecute(now));
    if admitted then Step(cfg, b', RecordSuccess).0 else b'
  }

  function Calls(cfg: Config, b: Breaker, nows: seq<nat>): Breaker
    decreases |nows|
  {
    if nows == [] then b else Calls(cfg, SuccessfulCall(cfg, b, nows[0]), nows[1..])
  }

  /** Requests still to be refused before the next one that the percentage admits. */
  function Gap(counter: nat): (g: nat)
    ensures g < 100
  {
    if counter % 100 == 0 then 0 else 100 - counter % 100
  }

  lemma GapShrinks(counter: nat)
    requires counter < U32_SPAN && counter % 100 != 0
    ensures Gap(Inc(counter)) < Gap(counter)
  {
    ModSuccessor(counter, 100);
    ModSuccessor(counter % 100, 100);
    if counter + 1 < U32_SPAN {
      IncExact(counter);
    } else {
      assert Inc(counter) == 0;
    }
  }

  /** Calls left before a half-open breaker closes. */
  ghost function Rank(cfg: Config, b: Breaker): nat
    requires b.halfOpenSuccesses < cfg.successThreshold
  {
    100 * (cfg.successThreshold - b.halfOpenSuccesses) + if cfg.halfOpenPct >= 100 then 0 else Gap(b.halfOpenRequests)
  }

  ghost predicate Recovering(cfg: Config, b: Breaker) {
    b.state.HalfOpen? && b.halfOpenSuccesses < cfg.successThreshold && b.halfOpenRequests < U32_SPAN
  }

  lemma CallLowersRank(cfg: Config, b: Breaker, now: nat)
    requires cfg.Valid() && 1 <= cfg.halfOpenPct && Recovering(cfg, b)
    ensures var b' := SuccessfulCall(cfg, b, now);
            b'.state.Closed? || (Recovering(cfg, b') && Rank(cfg, b') < Rank(cfg, b))
  {
    IncExact(b.halfOpenSuccesses);
    if b.halfOpenRequests % 100 != 0 { GapShrinks(b.halfOpenRequests); }
  }

  /** With every admitted call succeeding, a half-open breaker closes after finitely many calls. */
  lemma {:induction false} HalfOpenCloses(cfg: Config, b: Breaker, nows: seq<nat>) returns (n: nat)
    requires cfg.Valid() && 1 <= cfg.halfOpenPct && Recovering(cfg, b)
    requires |nows| >= Rank(cfg, b)
    ensures 0 < n <= Rank(cfg, b) && Calls(cfg, b, nows[..n]).state.Closed?
    decreases |nows|
  {
    var b' := SuccessfulCall(cfg, b, nows[0]);
    CallLowersRank(cfg, b, nows[0]);
    if b'.state.Closed? {
      n := 1;
      assert nows[..1][1..] == [];
    } else {
      n := HalfOpenCloses(cfg, b', nows[1..]);
      assert nows[..n + 1][1..] == nows[1..][..n];
      n := n + 1;
    }
  }

  /** From Open, once the recovery time is over, at most 100 calls per required success close it. */
  lemma OpenCloses(cfg: Config, b: Breaker, nows: seq<nat>) returns (n: nat)
    requires cfg.Valid() && 1 <= cfg.halfOpenPct && b.state.Open?
    requires |nows| >= 100 * cfg.successThreshold
    requires Elapsed(nows[0], b.lastFailureNs) >= cfg.RecoveryNs()
    ensures n <= 100 * cfg.successThreshold && Calls(cfg, b, nows[..n]).state.Closed?
  {
    var b' := SuccessfulCall(cfg, b, nows[0]);
    IncExact(0);
    if cfg.successThreshold == 1 {
      n := 1;
      assert nows[..1][1..] == [];
    } else {
      n := HalfOpenCloses(cfg, b', nows[1..]);
      assert nows[..n + 1][1..] == nows[1..][..n];
      n := n + 1;
    }
  }

  // ---------------------------------------------------------------- the breaker object

  class AtomicCircuitBreaker {
    const config: Config
    var state: CircuitState
    var failureCount: nat
    var lastFailureNs: nat
    var halfOpenSuccesses: nat
    var halfOpenRequests: nat
    var consecutiveSuccesses: nat

    ghost function View(): Breaker
      reads this
    {
      Breaker(state, failureCount, lastFailureNs, halfOpenSuccesses, halfOpenRequests, consecutiveSuccesses)
    }

    constructor (config: Config)
      ensures this.config == config && View() == Fresh
    {
      this.config := config;
      state, failureCount, lastFailureNs := Closed, 0, 0;
      halfOpenSuccesses, halfOpenRequests, consecutiveSuccesses := 0, 0, 0;
    }

    method CanExecute(now: nat) returns (admitted: bool)
      modifies this
      ensures (View(), admitted) == Step(config, old(View()), Event.CanExecute(now))
    {
      match state
      case Closed => admitted := true;
      case Open => admitted := TryHalfOpen(now);
      case HalfOpen => admitted := AllowHalfOpen();
    }

    method TryHalfOpen(now: nat) returns (moved: bool)
      requires state.Open?
      modifies this
      ensures (View(), moved) == Step(config, old(View()), Event.CanExecute(now))
    {
      if Elapsed(now, lastFailureNs) >= config.RecoveryNs() {
        state := HalfOpen;
        halfOpenSuccesses := 0;
        halfOpenRequests := 0;
        return true;
      }
      moved := false;
    }

    method AllowHalfOpen() returns (admitted: bool)
      requires state.HalfOpen?
      modifies this
      ensures forall now :: (View(), admitted) == Step(config, old(View()), Event.CanExecute(now))
    {
      if config.halfOpenPct >= 100 {
        return true;
      }
      var counter := halfOpenRequests;
      halfOpenRequests := Inc(counter);
      admitted := counter % 100 < config.halfOpenPct;
    }

    method RecordSuccess()
      modifies this
      ensures View() == Step(config, old(View()), Event.RecordSuccess).0
    {
      match state
      case Closed =>
        failureCount := 0;
        consecutiveSuccesses := Inc(consecutiveSuccesses);
      case HalfOpen =>
        halfOpenSuccesses := Inc(halfOpenSuccesses);
        if halfOpenSuccesses >= config.successThreshold {
          TransitionToClosed();
        }
      case Open =>
    }

    method RecordFailure(now: nat)
      modifies this
      ensures View() == Step(config, old(View()), Event.RecordFailure(now)).0
    {
      lastFailureNs := now;
      consecutiveSuccesses := 0;
      match state
      case Closed =>
        failureCount := Inc(failureCount);
        if failureCount >= config.failureThreshold {
          TransitionToOpen();
        }
      case HalfOpen => TransitionToOpen();
      case Open => failureCount := Inc(failureCount);
    }

    method Reset()
      modifies this
      ensures View() == Step(config, old(View()), Event.Reset).0
    {
      TransitionToClosed();
      failureCount := 0;
      lastFailureNs := 0;
    }

    method TransitionToOpen()
      modifies this
      ensures View() == ToOpen(old(View()))
    {
      state := Open;
      halfOpenSuccesses := 0;
    }

    method TransitionToClosed()
      modifies this
      ensures View() == ToClosed(old(View()))
    {
      state := Closed;
      failureCount := 0;
      halfOpenSuccesses := 0;
      halfOpenRequests := 0;
    }
  }
}
