/**
 The weighted credit scheduler of `crates/executionhandler/src/multi_tenant.rs`.
 Calls are atomic; the lists passed to `select_next` may change arbitrarily between calls.
 */
module FairScheduler {
  import opened Wrappers
  import opened MapSums
  import opened Tiers

  datatype Ledger = Ledger(weights: map<TenantId, nat>, credits: map<TenantId, nat>)

  /** What registration keeps: every registered tenant has credits and a positive weight. */
  ghost predicate Registered(s: Ledger) {
    s.weights.Keys == s.credits.Keys && forall t :: t in s.weights ==> 1 <= s.weights[t]
  }

  // ---------------------------------------------------------------- selection

  function Score(credits: map<TenantId, nat>, best: Option<TenantId>): nat
    requires best.Some? ==> best.value in credits
  {
    if best.Some? then credits[best.value] else 0
  }

  /** The scan of `select_next`: the first listed tenant of greatest positive credit. */
  function Best(credits: map<TenantId, nat>, list: seq<TenantId>): (r: Option<TenantId>)
    ensures r.Some? ==> r.value in credits && 0 < credits[r.value] && r.value in list
  {
    if list == [] then None
    else
      var best, last := Best(credits, list[..|list| - 1]), list[|list| - 1];
      if last in credits && credits[last] > Score(credits, best) then Some(last) else best
  }

  /** Nobody listed has more credit than the choice. */
  lemma {:induction false} BestIsMaximum(credits: map<TenantId, nat>, list: seq<TenantId>)
    ensures forall t :: t in list && t in credits ==> credits[t] <= Score(credits, Best(credits, list))
  {
    if list != [] {
      var init := list[..|list| - 1];
      BestIsMaximum(credits, init);
      assert list == init + [list[|list| - 1]];
    }
  }

  /** Nobody listed before the choice has as much credit. */
  lemma {:induction false} BestIsFirst(credits: map<TenantId, nat>, list: seq<TenantId>) returns (i: nat)
    requires Best(credits, list).Some?
    ensures i < |list| && list[i] == Best(credits, list).value
    ensures forall j :: 0 <= j < i && list[j] in credits ==> credits[list[j]] < credits[list[i]]
  {
    var n := |list| - 1;
    var init := list[..n];
    BestIsMaximum(credits, init);
    assert forall j :: 0 <= j < n ==> list[j] == init[j] && list[j] in init;
    if Best(credits, list) == Best(credits, init) {
      i := BestIsFirst(credits, init);
    } else {
      i := n;
    }
  }

  function Replenish(s: Ledger): Ledger {
    s.(credits := s.credits + s.weights)
  }

  function Consume(s: Ledger, choice: Option<TenantId>): Ledger {
    if choice.Some? && choice.value in s.credits && 0 < s.credits[choice.value]
    then s.(credits := s.credits[choice.value := s.credits[choice.value] - 1])
    else s
  }

  function Select(s: Ledger, list: seq<TenantId>): (Option<TenantId>, Ledger) {
    if list == [] then (None, s)
    else
      var choice := Best(s.credits, list);
      if choice.Some? then (choice, Consume(s, choice))
      else
        var full := Replenish(s);
        var again := Best(full.credits, list);
        (again, Consume(full, again))
  }

  /** Successive calls with the given lists. */
  function Picks(s: Ledger, lists: seq<seq<TenantId>>): (r: seq<Option<TenantId>>)
    ensures |r| == |lists|
    decreases |lists|
  {
    if lists == [] then [] else [Select(s, lists[0]).0] + Picks(Select(s, lists[0]).1, lists[1..])
  }

  function After(s: Ledger, lists: seq<seq<TenantId>>): Ledger
    decreases |lists|
  {
    if lists == [] then s else After(Select(s, lists[0]).1, lists[1..])
  }

  lemma SelectKeepsRegistered(s: Ledger, list: seq<TenantId>)
    requires Registered(s)
    ensures Registered(Select(s, list).1) && Select(s, list).1.weights == s.weights
  {
  }

  // ---------------------------------------------------------------- no starvation

  ghost function OthersCredit(s: Ledger, t: TenantId): nat { Sum(s.credits - {t}) }

  ghost function OthersWeight(s: Ledger, t: TenantId): nat { Sum(s.weights - {t}) }

  /** How many more calls can pass tenant `t` over. */
  ghost function Rank(s: Ledger, t: TenantId): nat
    requires t in s.credits
  {
    if s.credits[t] > 0 then OthersCredit(s, t) else OthersCredit(s, t) + OthersWeight(s, t)
  }

  lemma SpendOther(credits: map<TenantId, nat>, u: TenantId, t: TenantId)
    requires u in credits && u != t && 0 < credits[u]
    ensures Sum(credits[u := credits[u] - 1] - {t}) == Sum(credits - {t}) - 1
  {
    assert credits[u := credits[u] - 1] - {t} == (credits - {t})[u := credits[u] - 1];
    SumUpdate(credits - {t}, u, credits[u] - 1);
  }

  /** A call that lists `t` either picks it or lowers its rank. */
  lemma SelectLowersRank(s: Ledger, t: TenantId, list: seq<TenantId>)
    requires Registered(s) && t in s.weights && t in list
    ensures t in Select(s, list).1.credits
    ensures Select(s, list).0 == Some(t) || Rank(Select(s, list).1, t) < Rank(s, t)
  {
    BestIsMaximum(s.credits, list);
    var choice := Best(s.credits, list);
    if choice.Some? {
      if choice.value != t { SpendOther(s.credits, choice.value, t); }
    } else {
      var full := Replenish(s);
      assert full.credits == s.weights;
      BestIsMaximum(full.credits, list);
      var again := Best(full.credits, list);
      if again.value != t { SpendOther(s.weights, again.value, t); }
    }
  }

  /** Within `Rank` calls that pass it over, a tenant is picked or some call does not list it. */
  lemma {:induction false} PickedOrUnlisted(s: Ledger, t: TenantId, lists: seq<seq<TenantId>>) returns (i: nat)
    requires Registered(s) && t in s.weights && |lists| > Rank(s, t)
    ensures i <= Rank(s, t) && (Picks(s, lists)[i] == Some(t) || t !in lists[i])
    decreases |lists|
  {
    if t !in lists[0] || Select(s, lists[0]).0 == Some(t) {
      i := 0;
    } else {
      SelectLowersRank(s, t, lists[0]);
      SelectKeepsRegistered(s, lists[0]);
      i := PickedOrUnlisted(Select(s, lists[0]).1, t, lists[1..]);
      i := i + 1;
    }
  }

  /** A tenant listed in every call is picked after at most `Rank` calls that pass it over. */
  lemma PickedWithinRank(s: Ledger, t: TenantId, lists: seq<seq<TenantId>>) returns (i: nat)
    requires Registered(s) && t in s.weights && |lists| > Rank(s, t)
    requires forall k :: 0 <= k < |lists| ==> t in lists[k]
    ensures i <= Rank(s, t) && Picks(s, lists)[i] == Some(t)
  {
    i := PickedOrUnlisted(s, t, lists);
  }

  /** Every call that lists a tenant and passes it over costs one of its rank. */
  lemma {:induction false} PassingLowersRank(s: Ledger, t: TenantId, lists: seq<seq<TenantId>>)
    requires Registered(s) && t in s.weights
    requires forall k :: 0 <= k < |lists| ==> t in lists[k] && Picks(s, lists)[k] != Some(t)
    ensures Registered(After(s, lists)) && After(s, lists).weights == s.weights
    ensures Rank(After(s, lists), t) + |lists| <= Rank(s, t)
    decreases |lists|
  {
    if lists != [] {
      var s' := Select(s, lists[0]).1;
      SelectLowersRank(s, t, lists[0]);
      SelectKeepsRegistered(s, lists[0]);
      assert Picks(s, lists)[0] != Some(t);
      forall k | 0 <= k < |lists| - 1 ensures t in lists[1..][k] && Picks(s', lists[1..])[k] != Some(t) {
        assert Picks(s, lists)[k + 1] == Picks(s', lists[1..])[k];
      }
      PassingLowersRank(s', t, lists[1..]);
    }
  }

  lemma RankBounded(s: Ledger, t: TenantId)
    requires Bounded(s) && t in s.weights
    ensures Rank(s, t) <= 2 * OthersWeight(s, t)
  {
    SumMono(s.credits - {t}, s.weights - {t});
  }

  /** No credit above the weight: true on registration, and selections keep it. */
  ghost predicate Bounded(s: Ledger) {
    Registered(s) && forall u :: u in s.weights ==> s.credits[u] <= s.weights[u]
  }

  lemma {:induction false} AfterKeepsBounded(s: Ledger, lists: seq<seq<TenantId>>)
    requires Bounded(s)
    ensures Bounded(After(s, lists)) && After(s, lists).weights == s.weights
    decreases |lists|
  {
    if lists != [] {
      assert Bounded(Select(s, lists[0]).1);
      AfterKeepsBounded(Select(s, lists[0]).1, lists[1..]);
    }
  }

  /**
   No starvation: whatever calls came before, a tenant listed in every one of the next 2W + 1
   calls is picked by one of them, W being the total weight of the others.
   */
  lemma NoStarvation(start: Ledger, before: seq<seq<TenantId>>, t: TenantId, lists: seq<seq<TenantId>>)
    requires Bounded(start) && t in start.weights
    requires |lists| >= 2 * OthersWeight(start, t) + 1
    requires forall k :: 0 <= k < |lists| ==> t in lists[k]
    ensures exists i :: 0 <= i < 2 * OthersWeight(start, t) + 1 && Picks(After(start, before), lists)[i] == Some(t)
  {
    AfterKeepsBounded(start, before);
    var s := After(start, before);
    RankBounded(s, t);
    var i := PickedWithinRank(s, t, lists);
  }

  lemma BestOfTwo(credits: map<TenantId, nat>, a: TenantId, b: TenantId)
    requires a in credits && b in credits
    ensures Best(credits, [a, b]) ==
            if credits[a] == 0 && credits[b] == 0 then None
            else if credits[b] > credits[a] then Some(b) else Some(a)
  {
    assert [a, b][..1] == [a];
    assert [a][..0] == [];
  }

  // ---------------------------------------------------------------- exact shares

  function Count(picks: seq<Option<TenantId>>, u: TenantId): nat {
    if picks == [] then 0 else (if picks[0] == Some(u) then 1 else 0) + Count(picks[1..], u)
  }

  ghost predicate ListsExactly(lists: seq<seq<TenantId>>, members: set<TenantId>) {
    forall i :: 0 <= i < |lists| ==> forall t :: t in lists[i] <==> t in members
  }

  function Restrict(m: map<TenantId, nat>, members: set<TenantId>): map<TenantId, nat> {
    map t | t in m && t in members :: m[t]
  }

  ghost function TotalOver(m: map<TenantId, nat>, members: set<TenantId>): nat {
    Sum(Restrict(m, members))
  }

  ghost predicate FullOn(s: Ledger, members: set<TenantId>) {
    forall t :: t in members && t in s.weights && t in s.credits ==> s.credits[t] == s.weights[t]
  }

  ghost predicate DrainedOn(s: Ledger, members: set<TenantId>) {
    forall t :: t in members && t in s.credits ==> s.credits[t] == 0
  }

  /** While the members have credit, a call spends exactly one unit of one member. */
  lemma SelectSpendsOne(s: Ledger, members: set<TenantId>, list: seq<TenantId>)
    requires Registered(s) && members <= s.weights.Keys
    requires forall t :: t in list <==> t in members
    requires 0 < TotalOver(s.credits, members)
    ensures var (choice, s') := Select(s, list);
            && choice.Some? && choice.value in members && 0 < s.credits[choice.value]
            && s'.weights == s.weights
            && s'.credits == s.credits[choice.value := s.credits[choice.value] - 1]
            && TotalOver(s'.credits, members) == TotalOver(s.credits, members) - 1
  {
    SumZero(Restrict(s.credits, members));
    var u :| u in Restrict(s.credits, members) && Restrict(s.credits, members)[u] != 0;
    BestIsMaximum(s.credits, list);
    var c := Select(s, list).0.value;
    var s' := Select(s, list).1;
    assert Restrict(s'.credits, members) == Restrict(s.credits, members)[c := s.credits[c] - 1];
    SumUpdate(Restrict(s.credits, members), c, s.credits[c] - 1);
  }

  /** Over any stretch no longer than the members' credit, picks are exactly credit spent. */
  lemma {:induction false} PicksAreCreditSpent(s: Ledger, members: set<TenantId>, lists: seq<seq<TenantId>>, u: TenantId)
    requires Registered(s) && members <= s.weights.Keys && u in members
    requires ListsExactly(lists, members) && |lists| <= TotalOver(s.credits, members)
    ensures Registered(After(s, lists)) && After(s, lists).weights == s.weights
    ensures TotalOver(After(s, lists).credits, members) == TotalOver(s.credits, members) - |lists|
    ensures Count(Picks(s, lists), u) + After(s, lists).credits[u] == s.credits[u]
    decreases |lists|
  {
    if lists != [] {
      SelectKeepsRegistered(s, lists[0]);
      SelectSpendsOne(s, members, lists[0]);
      PicksAreCreditSpent(Select(s, lists[0]).1, members, lists[1..], u);
    }
  }

  /** One round from full credit: everybody is picked weight times and the credit is gone. */
  lemma RoundFromFull(s: Ledger, members: set<TenantId>, lists: seq<seq<TenantId>>, u: TenantId)
    requires Registered(s) && members <= s.weights.Keys && u in members && FullOn(s, members)
    requires ListsExactly(lists, members) && |lists| == TotalOver(s.weights, members)
    ensures Registered(After(s, lists)) && After(s, lists).weights == s.weights
    ensures Count(Picks(s, lists), u) == s.weights[u]
    ensures DrainedOn(After(s, lists), members)
  {
    assert Restrict(s.credits, members) == Restrict(s.weights, members);
    PicksAreCreditSpent(s, members, lists, u);
    var end := After(s, lists);
    SumZero(Restrict(end.credits, members));
    forall t | t in members && t in end.credits ensures end.credits[t] == 0 {
      assert t in Restrict(end.credits, members);
    }
  }

  /** With every listed tenant drained, a call behaves as if the credits were full. */
  lemma DrainedSelectsAsFull(s: Ledger, members: set<TenantId>, list: seq<TenantId>)
    requires Registered(s) && members <= s.weights.Keys && members != {} && DrainedOn(s, members)
    requires forall t :: t in list <==> t in members
    ensures Select(s, list) == Select(Replenish(s), list)
  {
    var m :| m in members;
    assert m in list;
    BestIsMaximum(s.credits, list);
    BestIsMaximum(Replenish(s).credits, list);
    assert Best(s.credits, list).None?;
  }

  lemma Round(s: Ledger, members: set<TenantId>, lists: seq<seq<TenantId>>, u: TenantId)
    requires Registered(s) && members <= s.weights.Keys && u in members
    requires FullOn(s, members) || DrainedOn(s, members)
    requires ListsExactly(lists, members) && |lists| == TotalOver(s.weights, members)
    ensures Registered(After(s, lists)) && After(s, lists).weights == s.weights
    ensures Count(Picks(s, lists), u) == s.weights[u]
    ensures DrainedOn(After(s, lists), members)
  {
    if FullOn(s, members) {
      RoundFromFull(s, members, lists, u);
    } else {
      assert 0 < |lists| by {
        SumZero(Restrict(s.weights, members));
        assert u in Restrict(s.weights, members);
      }
      DrainedSelectsAsFull(s, members, lists[0]);
      RoundFromFull(Replenish(s), members, lists, u);
    }
  }

  lemma {:induction false} AfterConcat(s: Ledger, a: seq<seq<TenantId>>, b: seq<seq<TenantId>>)
    ensures After(s, a + b) == After(After(s, a), b)
    decreases |a|
  {
    if a == [] {
      assert a + b == b;
    } else {
      assert (a + b)[1..] == a[1..] + b;
      AfterConcat(Select(s, a[0]).1, a[1..], b);
    }
  }

  lemma ListsExactlySplit(lists: seq<seq<TenantId>>, n: nat, members: set<TenantId>)
    requires ListsExactly(lists, members) && n <= |lists|
    ensures ListsExactly(lists[..n], members) && ListsExactly(lists[n..], members)
  {
  }

  lemma {:induction false} AfterRounds(s: Ledger, members: set<TenantId>, n: nat, rounds: nat,
                                       lists: seq<seq<TenantId>>, u: TenantId)
    requires Registered(s) && members <= s.weights.Keys && u in members
    requires FullOn(s, members) || DrainedOn(s, members)
    requires ListsExactly(lists, members)
    requires n == TotalOver(s.weights, members) && |lists| == rounds * n
    ensures Registered(After(s, lists)) && After(s, lists).weights == s.weights
    ensures FullOn(After(s, lists), members) || DrainedOn(After(s, lists), members)
    decreases rounds
  {
    if rounds > 0 {
      OneRoundLess(rounds, n);
      var first, rest := lists[..n], lists[n..];
      ListsExactlySplit(lists, n, members);
      assert After(s, lists) == After(After(s, first), rest) by {
        AfterConcat(s, first, rest);
        assert lists == first + rest;
      }
      Round(s, members, first, u);
      AfterRounds(After(s, first), members, n, rounds - 1, rest, u);
    }
  }

  lemma OneRoundLess(rounds: nat, n: nat)
    requires 0 < rounds
    ensures n <= rounds * n && rounds * n - n == (rounds - 1) * n
  {
    assert rounds * n == (rounds - 1) * n + n;
  }

  /**
   Exact weighted shares: starting from full credit, after any number of whole rounds, the
   next round picks each member exactly weight many times, whatever the order of each list.
   */
  lemma ExactShares(s: Ledger, members: set<TenantId>, rounds: nat,
                    before: seq<seq<TenantId>>, block: seq<seq<TenantId>>, u: TenantId)
    requires Registered(s) && members <= s.weights.Keys && u in members && FullOn(s, members)
    requires ListsExactly(before, members) && ListsExactly(block, members)
    requires |before| == rounds * TotalOver(s.weights, members)
    requires |block| == TotalOver(s.weights, members)
    ensures Count(Picks(After(s, before), block), u) == s.weights[u]
  {
    AfterRounds(s, members, |block|, rounds, before, u);
    Round(After(s, before), members, block, u);
  }

  // ---------------------------------------------------------------- every block of a fixed list

  /** The same list, k times over. */
  function Times(list: seq<TenantId>, k: nat): (r: seq<seq<TenantId>>)
    ensures |r| == k && forall i :: 0 <= i < k ==> r[i] == list
  {
    seq(k, _ => list)
  }

  /** The same weights, and the same credits for the members. */
  ghost predicate Alike(s: Ledger, s2: Ledger, members: set<TenantId>) {
    && Registered(s) && Registered(s2) && s.weights == s2.weights && members <= s.weights.Keys
    && forall t :: t in members ==> s.credits[t] == s2.credits[t]
  }

  lemma {:induction false} BestAlike(c: map<TenantId, nat>, c2: map<TenantId, nat>, list: seq<TenantId>)
    requires forall t :: t in list ==> t in c && t in c2 && c[t] == c2[t]
    ensures Best(c, list) == Best(c2, list)
  {
    if list != [] {
      BestAlike(c, c2, list[..|list| - 1]);
    }
  }

  lemma SelectAlike(s: Ledger, s2: Ledger, members: set<TenantId>, list: seq<TenantId>)
    requires Alike(s, s2, members) && forall t :: t in list ==> t in members
    ensures Select(s, list).0 == Select(s2, list).0
    ensures Alike(Select(s, list).1, Select(s2, list).1, members)
  {
    BestAlike(s.credits, s2.credits, list);
    BestAlike(Replenish(s).credits, Replenish(s2).credits, list);
  }

  lemma {:induction false} PicksAlike(s: Ledger, s2: Ledger, members: set<TenantId>, lists: seq<seq<TenantId>>)
    requires Alike(s, s2, members) && ListsExactly(lists, members)
    ensures Picks(s, lists) == Picks(s2, lists)
    decreases |lists|
  {
    if lists != [] {
      SelectAlike(s, s2, members, lists[0]);
      PicksAlike(Select(s, lists[0]).1, Select(s2, lists[0]).1, members, lists[1..]);
    }
  }

  /** A state between rounds picks as a freshly replenished one does. */
  lemma BetweenRounds(s: Ledger, members: set<TenantId>, lists: seq<seq<TenantId>>)
    requires Registered(s) && members <= s.weights.Keys && members != {}
    requires FullOn(s, members) || DrainedOn(s, members)
    requires ListsExactly(lists, members)
    ensures Picks(s, lists) == Picks(Replenish(s), lists)
  {
    if FullOn(s, members) {
      PicksAlike(s, Replenish(s), members, lists);
    } else if lists != [] {
      DrainedSelectsAsFull(s, members, lists[0]);
    }
  }

  lemma {:induction false} PicksConcat(s: Ledger, a: seq<seq<TenantId>>, b: seq<seq<TenantId>>)
    ensures Picks(s, a + b) == Picks(s, a) + Picks(After(s, a), b)
    decreases |a|
  {
    if a == [] {
      assert a + b == b;
    } else {
      assert (a + b)[1..] == a[1..] + b;
      PicksConcat(Select(s, a[0]).1, a[1..], b);
    }
  }

  lemma {:induction false} CountConcat(a: seq<Option<TenantId>>, b: seq<Option<TenantId>>, u: TenantId)
    ensures Count(a + b, u) == Count(a, u) + Count(b, u)
  {
    if a == [] {
      assert a + b == b;
    } else {
      assert (a + b)[1..] == a[1..] + b;
      CountConcat(a[1..], b, u);
    }
  }

  /** A block starting `r` calls after a round boundary. */
  lemma ShiftedBlock(s: Ledger, members: set<TenantId>, list: seq<TenantId>, n: nat, r: nat, u: TenantId)
    requires Registered(s) && members <= s.weights.Keys && u in members
    requires FullOn(s, members) || DrainedOn(s, members)
    requires (forall t :: t in list <==> t in members) && n == TotalOver(s.weights, members)
    ensures Count(Picks(After(s, Times(list, r)), Times(list, n)), u) == s.weights[u]
  {
    var first, block := Times(list, r), Times(list, n);
    Round(s, members, block, u);
    var next := After(s, block);
    assert first + block == block + first;
    PicksConcat(s, first, block);
    PicksConcat(s, block, first);
    CountConcat(Picks(s, first), Picks(After(s, first), block), u);
    CountConcat(Picks(s, block), Picks(next, first), u);
    assert Picks(s, first) == Picks(next, first) by {
      BetweenRounds(s, members, first);
      BetweenRounds(next, members, first);
      PicksAlike(Replenish(s), Replenish(next), members, first);
    }
  }

  lemma BlockAfterRounds(s: Ledger, members: set<TenantId>, list: seq<TenantId>,
                         n: nat, rounds: nat, done: nat, r: nat, u: TenantId)
    requires Registered(s) && members <= s.weights.Keys && u in members && FullOn(s, members)
    requires (forall t :: t in list <==> t in members) && n == TotalOver(s.weights, members) && done == rounds * n
    ensures Count(Picks(After(s, Times(list, done + r)), Times(list, n)), u) == s.weights[u]
  {
    var whole := Times(list, done);
    assert Times(list, done + r) == whole + Times(list, r);
    AfterConcat(s, whole, Times(list, r));
    AfterRounds(s, members, n, rounds, whole, u);
    ShiftedBlock(After(s, whole), members, list, n, r, u);
  }

  /**
   For a fixed list of registered tenants starting from full credit, every block of as many
   consecutive calls as their total weight, wherever it starts, picks each exactly weight times.
   */
  lemma EveryBlock(s: Ledger, members: set<TenantId>, list: seq<TenantId>, k: nat, u: TenantId)
    requires Registered(s) && members <= s.weights.Keys && u in members && FullOn(s, members)
    requires forall t :: t in list <==> t in members
    ensures Count(Picks(After(s, Times(list, k)), Times(list, TotalOver(s.weights, members))), u) == s.weights[u]
  {
    var n := TotalOver(s.weights, members);
    assert 0 < n by {
      SumZero(Restrict(s.weights, members));
      assert u in Restrict(s.weights, members);
    }
    var rounds, done, r := WholeRounds(k, n);
    BlockAfterRounds(s, members, list, n, rounds, done, r, u);
  }

  lemma WholeRounds(k: nat, n: nat) returns (rounds: nat, done: nat, r: nat)
    requires 0 < n
    ensures done == rounds * n && k == done + r
  {
    rounds, r := k / n, k % n;
    done := k - r;
  }

  // ---------------------------------------------------------------- the bound cannot be improved

  /** Tenant 0 of weight 1 and tenant 1 of weight `w`, with the given credits. */
  function Pair(w: nat, c0: nat, c1: nat): Ledger {
    Ledger(map[0 := 1, 1 := w], map[0 := c0, 1 := c1])
  }

  function Always(t: TenantId, n: nat): (r: seq<Option<TenantId>>)
    ensures |r| == n && forall i :: 0 <= i < n ==> r[i] == Some(t)
  {
    seq(n, _ => Some(t))
  }

  /** Listed first, tenant 1 is picked as long as its credit is positive and not below tenant 0's. */
  lemma {:induction false} Favoured(w: nat, c0: nat, c1: nat, n: nat)
    requires n <= c1 && c0 <= c1 - n + 1
    ensures Picks(Pair(w, c0, c1), Times([1, 0], n)) == Always(1, n)
    ensures After(Pair(w, c0, c1), Times([1, 0], n)) == Pair(w, c0, c1 - n)
    decreases n
  {
    if n > 0 {
      var s, lists := Pair(w, c0, c1), Times([1, 0], n);
      BestOfTwo(s.credits, 1, 0);
      assert s.credits[1 := c1 - 1] == map[0 := c0, 1 := c1 - 1];
      assert Select(s, [1, 0]) == (Some(1), Pair(w, c0, c1 - 1));
      assert lists[0] == [1, 0] && lists[1..] == Times([1, 0], n - 1);
      Favoured(w, c0, c1 - 1, n - 1);
    }
  }

  /** From drained credits tenant 1 gets another whole round first. */
  lemma SecondRound(w: nat)
    requires 1 <= w
    ensures Picks(Pair(w, 0, 0), Times([1, 0], w)) == Always(1, w)
  {
    var s, lists := Pair(w, 0, 0), Times([1, 0], w);
    assert Replenish(s) == Pair(w, 1, w);
    BetweenRounds(s, {0, 1}, lists);
    Favoured(w, 1, w, w);
  }

  lemma PairOthers(w: nat)
    ensures OthersWeight(Pair(w, 1, w), 0) == w
  {
    var others := Pair(w, 1, w).weights - {0};
    assert others.Keys == {1} && others[1] == w;
    SumSplit(others, 1);
    assert (others - {1}).Keys == {};
  }

  /**
   The bound is reached for every W: one call that lists only tenant 0 leads to a state in which the next
   2W calls, though they all list it, pass it over; the call after those must pick it.
   */
  lemma BoundIsTight(w: nat)
    requires 1 <= w
    ensures var s := After(Pair(w, 1, w), [[0]]);
            && Bounded(Pair(w, 1, w)) && OthersWeight(Pair(w, 1, w), 0) == w
            && Picks(s, Times([1, 0], 2 * w)) == Always(1, 2 * w)
  {
    var full, s := Pair(w, 1, w), Pair(w, 0, w);
    assert After(full, [[0]]) == s by {
      assert [0][..0] == [];
      assert full.credits[0 := 0] == s.credits;
      assert [[0]][1..] == [];
    }
    PairOthers(w);
    var half := Times([1, 0], w);
    Favoured(w, 0, w, w);
    SecondRound(w);
    PicksConcat(s, half, half);
    assert Times([1, 0], 2 * w) == half + half;
    assert Always(1, w) + Always(1, w) == Always(1, 2 * w);
  }

  // ---------------------------------------------------------------- the scheduler object

  /** Credits once every weight outside `todo` has been copied over. */
  ghost function Refilled(credits: map<TenantId, nat>, weights: map<TenantId, nat>, todo: set<TenantId>): map<TenantId, nat> {
    credits + (weights - todo)
  }

  lemma RefillEnds(credits: map<TenantId, nat>, weights: map<TenantId, nat>)
    ensures Refilled(credits, weights, weights.Keys) == credits
    ensures Refilled(credits, weights, {}) == credits + weights
  {
    assert weights - weights.Keys == map[];
    assert weights - {} == weights;
  }

  lemma RefillOne(credits: map<TenantId, nat>, weights: map<TenantId, nat>, todo: set<TenantId>, t: TenantId)
    requires t in todo && t in weights
    ensures Refilled(credits, weights, todo - {t}) == Refilled(credits, weights, todo)[t := weights[t]]
  {
  }

  class FairScheduler {
    var weights: map<TenantId, nat>
    var credits: map<TenantId, nat>

    ghost function View(): Ledger
      reads this
    {
      Ledger(weights, credits)
    }

    constructor ()
      ensures View() == Ledger(map[], map[]) && Bounded(View())
    {
      weights, credits := map[], map[];
    }

    method RegisterTenant(t: TenantId, tier: Tier)
      modifies this
      ensures weights == old(weights)[t := tier.SchedulerWeight()]
      ensures credits == old(credits)[t := tier.SchedulerWeight()]
      ensures old(Registered(View())) ==> Registered(View())
      ensures old(Bounded(View())) ==> Bounded(View())
    {
      weights := weights[t := tier.SchedulerWeight()];
      credits := credits[t := tier.SchedulerWeight()];
    }

    method UnregisterTenant(t: TenantId)
      modifies this
      ensures weights == old(weights) - {t} && credits == old(credits) - {t}
      ensures old(Registered(View())) ==> Registered(View())
      ensures old(Bounded(View())) ==> Bounded(View())
    {
      weights := weights - {t};
      credits := credits - {t};
    }

    /** Changes the weight only: credits already granted stay. */
    method UpdateTenantTier(t: TenantId, tier: Tier)
      modifies this
      ensures weights == old(weights)[t := tier.SchedulerWeight()] && credits == old(credits)
      ensures old(Registered(View())) && t in old(weights) ==> Registered(View())
    {
      weights := weights[t := tier.SchedulerWeight()];
    }

    method Scan(list: seq<TenantId>) returns (best: Option<TenantId>, bestCredits: nat)
      ensures best == Best(credits, list) && bestCredits == Score(credits, best)
    {
      best, bestCredits := None, 0;
      for i := 0 to |list|
        invariant best == Best(credits, list[..i]) && bestCredits == Score(credits, best)
      {
        assert list[..i + 1][..i] == list[..i];
        if list[i] in credits && credits[list[i]] > bestCredits {
          best, bestCredits := Some(list[i]), credits[list[i]];
        }
      }
      assert list[..|list|] == list;
    }

    method ReplenishCredits()
      modifies this
      ensures View() == Replenish(old(View()))
    {
      var todo := weights.Keys;
      RefillEnds(credits, weights);
      while todo != {}
        invariant weights == old(weights) && todo <= weights.Keys
        invariant credits == Refilled(old(credits), weights, todo)
        decreases todo
      {
        var t :| t in todo;
        RefillOne(old(credits), weights, todo, t);
        todo := todo - {t};
        credits := credits[t := weights[t]];
      }
    }

    method SelectNext(list: seq<TenantId>) returns (choice: Option<TenantId>)
      modifies this
      ensures (choice, View()) == Select(old(View()), list)
      ensures old(Registered(View())) ==> Registered(View())
      ensures old(Bounded(View())) ==> Bounded(View())
    {
      if list == [] {
        return None;
      }
      var bestCredits;
      choice, bestCredits := Scan(list);
      if choice.None? || bestCredits == 0 {
        ReplenishCredits();
        choice, bestCredits := Scan(list);
      }
      if choice.Some? && choice.value in credits {
        var left := credits[choice.value];
        credits := credits[choice.value := if left == 0 then 0 else left - 1];
      }
    }
  }
}
