/**
 The bounded dead letter queue of `crates/executionhandler/src/bounded_dlq.rs`: a memory
 deque with an overflow policy, an overflow list and recovery from it.
 */
module BoundedDlq {
  import opened DeadLetters

  datatype Policy = DropOldest | DropNewest | DropLowestPriority | Block | PersistAndEvict

  datatype Config = Config(maxEntries: nat, policy: Policy) {
    function Room(): nat { if maxEntries == 0 then 1 else maxEntries }
  }

  function Priority(e: Entry): nat {
    (match e.status
     case RequiresManualReview => 100
     case Pending => 80
     case Retrying => 70
     case PermanentFailure => 50
     case Resolved => 10
     case Dismissed => 5)
    + if e.retryCount == 0 then 10 else 0
  }

  /** How important a status is to keep, least first. */
  function Importance(status: Status): nat {
    match status
    case Dismissed => 0
    case Resolved => 1
    case PermanentFailure => 2
    case Retrying => 3
    case Pending => 4
    case RequiresManualReview => 5
  }

  /** The two steps of importance that an untried entry makes up for. */
  predicate SmallStep(higher: Status, lower: Status) {
    (higher.Pending? && lower.Retrying?) || (higher.Resolved? && lower.Dismissed?)
  }

  /**
   The order of priorities: of two entries of the same status the untried one counts more, else of different
   statuses the more important one, except that being untried makes up for a small step: an untried retrying
   entry ties with a tried pending one, and an untried dismissed one beats a tried resolved one.
   */
  lemma PriorityOrder(a: Entry, b: Entry)
    ensures a.status == b.status ==> (Priority(a) > Priority(b) <==> a.retryCount == 0 && b.retryCount > 0)
    ensures Importance(a.status) > Importance(b.status) ==>
              (Priority(a) > Priority(b) <==> !(SmallStep(a.status, b.status) && a.retryCount > 0 && b.retryCount == 0))
    ensures SmallStep(a.status, b.status) && a.retryCount > 0 && b.retryCount == 0 ==>
              if a.status.Pending? then Priority(a) == Priority(b) else Priority(a) < Priority(b)
  {
  }

  /** `arrivals` are the ids of all enqueue calls in order; `lost` the entries dropped so far. */
  datatype Store = Store(entries: seq<Entry>, overflow: seq<Entry>, lost: seq<Entry>, arrivals: seq<EntryId>)

  /** The position `min_by_key` picks: the first of minimal priority. */
  function Victim(entries: seq<Entry>): (v: nat)
    requires entries != []
    ensures v < |entries|
  {
    var n := |entries| - 1;
    if n == 0 then 0
    else
      var v := Victim(entries[..n]);
      if Priority(entries[n]) < Priority(entries[v]) then n else v
  }

  /** The victim has the least priority of all stored entries, and is the oldest such. */
  lemma {:induction false} VictimIsOldestLowest(entries: seq<Entry>)
    requires entries != []
    ensures var v := Victim(entries);
            && (forall i :: 0 <= i < |entries| ==> Priority(entries[v]) <= Priority(entries[i]))
            && (forall i :: 0 <= i < v ==> Priority(entries[v]) < Priority(entries[i]))
  {
    var n := |entries| - 1;
    if n > 0 {
      var init := entries[..n];
      VictimIsOldestLowest(init);
      assert forall i :: 0 <= i < n ==> init[i] == entries[i];
    }
  }

  function Without(entries: seq<Entry>, i: nat): seq<Entry>
    requires i < |entries|
  {
    entries[..i] + entries[i + 1..]
  }

  /** `Block` at capacity waits, so it has no step here. */
  ghost predicate CanAdmit(cfg: Config, s: Store) {
    cfg.policy.Block? ==> |s.entries| < cfg.maxEntries
  }

  /** What `enqueue` does to make room. */
  function MakeRoom(cfg: Config, s: Store): Store {
    if |s.entries| < cfg.maxEntries || s.entries == [] then s
    else match cfg.policy
      case DropOldest => s.(entries := s.entries[1..], lost := s.lost + [s.entries[0]])
      case DropNewest => s
      case DropLowestPriority =>
        var v := Victim(s.entries);
        s.(entries := Without(s.entries, v), lost := s.lost + [s.entries[v]])
      case Block => s
      case PersistAndEvict => s.(entries := s.entries[1..], overflow := s.overflow + [s.entries[0]])
  }

  function Admit(cfg: Config, s: Store, e: Entry): (Store, bool) {
    if |s.entries| >= cfg.maxEntries && cfg.policy.DropNewest? then
      (s.(lost := s.lost + [e], arrivals := s.arrivals + [e.id]), false)
    else
      var roomy := MakeRoom(cfg, s);
      (roomy.(entries := roomy.entries + [e], arrivals := s.arrivals + [e.id]), true)
  }

  function Recover(s: Store, n: nat): Store
    requires n <= |s.overflow|
    decreases n
  {
    if n == 0 then s
    else Recover(RecoverOne(s), n - 1)
  }

  function Min(a: nat, b: nat): nat { if a <= b then a else b }

  function Recoverable(cfg: Config, s: Store, wanted: nat): nat {
    Min(Min(wanted, if cfg.maxEntries <= |s.entries| then 0 else cfg.maxEntries - |s.entries|), |s.overflow|)
  }

  // ---------------------------------------------------------------- conservation

  function Ids(entries: seq<Entry>): (r: seq<EntryId>)
    ensures |r| == |entries|
  {
    seq(|entries|, i requires 0 <= i < |entries| => entries[i].id)
  }

  lemma IdsConcat(a: seq<Entry>, b: seq<Entry>)
    ensures Ids(a + b) == Ids(a) + Ids(b)
  {
  }

  /** Every enqueued id is in memory, in overflow or among the lost, as often as it was enqueued. */
  ghost predicate Conserved(s: Store) {
    multiset(Ids(s.entries)) + multiset(Ids(s.overflow)) + multiset(Ids(s.lost)) == multiset(s.arrivals)
  }

  lemma SplitAt(entries: seq<Entry>, i: nat)
    requires i < |entries|
    ensures multiset(Ids(entries)) == multiset(Ids(Without(entries, i))) + multiset{entries[i].id}
  {
    assert entries == entries[..i] + ([entries[i]] + entries[i + 1..]);
    IdsConcat(entries[..i], [entries[i]] + entries[i + 1..]);
    IdsConcat([entries[i]], entries[i + 1..]);
    IdsConcat(entries[..i], entries[i + 1..]);
    assert Ids([entries[i]]) == [entries[i].id];
  }

  lemma AppendId(entries: seq<Entry>, e: Entry)
    ensures multiset(Ids(entries + [e])) == multiset(Ids(entries)) + multiset{e.id}
  {
    IdsConcat(entries, [e]);
    assert Ids([e]) == [e.id];
  }

  /** Taking the i-th entry out of memory and filing it elsewhere keeps the books. */
  lemma EvictConserves(s: Store, i: nat)
    requires Conserved(s) && i < |s.entries|
    ensures Conserved(s.(entries := Without(s.entries, i), lost := s.lost + [s.entries[i]]))
    ensures Conserved(s.(entries := Without(s.entries, i), overflow := s.overflow + [s.entries[i]]))
  {
    SplitAt(s.entries, i);
    AppendId(s.lost, s.entries[i]);
    AppendId(s.overflow, s.entries[i]);
  }

  lemma MakeRoomConserves(cfg: Config, s: Store)
    requires Conserved(s) && CanAdmit(cfg, s) && |s.entries| <= cfg.Room()
    ensures Conserved(MakeRoom(cfg, s)) && MakeRoom(cfg, s).arrivals == s.arrivals
    ensures (cfg.policy.DropNewest? && |s.entries| >= cfg.maxEntries) || |MakeRoom(cfg, s).entries| < cfg.Room()
  {
    if |s.entries| >= cfg.maxEntries && s.entries != [] {
      if cfg.policy.DropLowestPriority? {
        EvictConserves(s, Victim(s.entries));
      } else if cfg.policy.DropOldest? || cfg.policy.PersistAndEvict? {
        EvictConserves(s, 0);
        assert Without(s.entries, 0) == s.entries[1..];
      }
    }
  }

  lemma AppendConserves(s: Store, e: Entry)
    requires Conserved(s)
    ensures Conserved(s.(entries := s.entries + [e], arrivals := s.arrivals + [e.id]))
    ensures Conserved(s.(lost := s.lost + [e], arrivals := s.arrivals + [e.id]))
  {
    AppendId(s.entries, e);
    AppendId(s.lost, e);
    assert multiset(s.arrivals + [e.id]) == multiset(s.arrivals) + multiset{e.id};
  }

  /** Under every policy an enqueue keeps the length bound, loses nothing silently and counts its drops. */
  lemma EnqueueConserves(cfg: Config, s: Store, e: Entry)
    requires CanAdmit(cfg, s) && Conserved(s) && |s.entries| <= cfg.Room()
    ensures var (s', kept) := Admit(cfg, s, e);
            && Conserved(s') && |s'.entries| <= cfg.Room()
            && |s'.arrivals| == |s.arrivals| + 1
            && (kept ==> s'.entries != [] && s'.entries[|s'.entries| - 1] == e)
            && (!kept ==> s'.entries == s.entries && cfg.policy.DropNewest?)
  {
    MakeRoomConserves(cfg, s);
    AppendConserves(MakeRoom(cfg, s), e);
    AppendConserves(s, e);
  }

  /** The newest overflow entry, back at the end of memory. */
  function RecoverOne(s: Store): Store
    requires s.overflow != []
  {
    var last := |s.overflow| - 1;
    s.(entries := s.entries + [s.overflow[last]], overflow := s.overflow[..last])
  }

  lemma RecoverOneConserves(s: Store)
    requires s.overflow != [] && Conserved(s)
    ensures Conserved(RecoverOne(s))
  {
    var last := |s.overflow| - 1;
    SplitAt(s.overflow, last);
    AppendId(s.entries, s.overflow[last]);
    assert Without(s.overflow, last) == s.overflow[..last];
  }

  lemma {:induction false} RecoverShape(s: Store, n: nat)
    requires n <= |s.overflow|
    ensures |Recover(s, n).entries| == |s.entries| + n && Recover(s, n).lost == s.lost
    ensures Recover(s, n).arrivals == s.arrivals && Recover(s, n).overflow == s.overflow[..|s.overflow| - n]
    decreases n
  {
    if n > 0 { RecoverShape(RecoverOne(s), n - 1); }
  }

  /** The newest `n` entries, the newest first. */
  function NewestFirst(overflow: seq<Entry>, n: nat): (r: seq<Entry>)
    requires n <= |overflow|
    ensures |r| == n && forall i :: 0 <= i < n ==> r[i] == overflow[|overflow| - 1 - i]
  {
    if n == 0 then [] else [overflow[|overflow| - 1]] + NewestFirst(overflow[..|overflow| - 1], n - 1)
  }

  /** Recovery puts the newest overflow entries behind those in memory, the newest first. */
  lemma {:induction false} RecoverOrder(s: Store, n: nat)
    requires n <= |s.overflow|
    ensures Recover(s, n).entries == s.entries + NewestFirst(s.overflow, n)
    decreases n
  {
    if n > 0 { RecoverOrder(RecoverOne(s), n - 1); }
  }

  /** As many as are wanted, present and have room, and no fewer. */
  lemma RecoverableIsGreatest(cfg: Config, s: Store, wanted: nat, k: nat)
    ensures k <= Recoverable(cfg, s, wanted) <==>
              k == 0 || (k <= wanted && k <= |s.overflow| && |s.entries| + k <= cfg.maxEntries)
  {
  }

  lemma {:induction false} RecoverConserves(s: Store, n: nat)
    requires n <= |s.overflow| && Conserved(s)
    ensures Conserved(Recover(s, n))
    ensures |Recover(s, n).entries| == |s.entries| + n && Recover(s, n).lost == s.lost
    ensures Recover(s, n).arrivals == s.arrivals && Recover(s, n).overflow == s.overflow[..|s.overflow| - n]
    decreases n
  {
    RecoverShape(s, n);
    if n > 0 {
      RecoverOneConserves(s);
      RecoverConserves(RecoverOne(s), n - 1);
    }
  }

  /** The oldest of the entries of least priority. */
  ghost predicate OldestLowest(entries: seq<Entry>, v: nat) {
    && v < |entries|
    && (forall i :: 0 <= i < |entries| ==> Priority(entries[v]) <= Priority(entries[i]))
    && (forall i :: 0 <= i < v ==> Priority(entries[v]) < Priority(entries[i]))
  }

  /** All of `before` but the entry at `gone`, in order, and then the new one. */
  ghost predicate Replaces(before: seq<Entry>, gone: nat, e: Entry, after: seq<Entry>) {
    && gone < |before| == |after| && after[|after| - 1] == e
    && (forall i :: 0 <= i < gone ==> after[i] == before[i])
    && (forall i :: gone < i < |before| ==> after[i - 1] == before[i])
  }

  /** What one enqueue did, by policy: what stays, what is dropped and what goes to overflow. */
  ghost predicate Enqueued(cfg: Config, s: Store, e: Entry, s': Store, kept: bool) {
    s'.arrivals == s.arrivals + [e.id] &&
    if |s.entries| < cfg.maxEntries || (s.entries == [] && !cfg.policy.DropNewest?) then
      kept && s'.entries == s.entries + [e] && s'.lost == s.lost && s'.overflow == s.overflow
    else match cfg.policy
      case DropNewest => !kept && s'.entries == s.entries && s'.lost == s.lost + [e] && s'.overflow == s.overflow
      case DropOldest =>
        && kept && Replaces(s.entries, 0, e, s'.entries)
        && s'.lost == s.lost + [s.entries[0]] && s'.overflow == s.overflow
      case PersistAndEvict =>
        && kept && Replaces(s.entries, 0, e, s'.entries)
        && s'.lost == s.lost && s'.overflow == s.overflow + [s.entries[0]]
      case DropLowestPriority =>
        && kept && s'.overflow == s.overflow
        && exists v: nat :: OldestLowest(s.entries, v) && Replaces(s.entries, v, e, s'.entries)
                       && s'.lost == s.lost + [s.entries[v]]
      case Block => false
  }

  lemma AdmitByPolicy(cfg: Config, s: Store, e: Entry)
    requires CanAdmit(cfg, s)
    ensures Enqueued(cfg, s, e, Admit(cfg, s, e).0, Admit(cfg, s, e).1)
  {
    var s' := Admit(cfg, s, e).0;
    if |s.entries| >= cfg.maxEntries && s.entries != [] {
      if cfg.policy.DropLowestPriority? {
        var v := Victim(s.entries);
        VictimIsOldestLowest(s.entries);
        WithoutReplaces(s.entries, v, e);
        assert OldestLowest(s.entries, v);
      } else if cfg.policy.DropOldest? || cfg.policy.PersistAndEvict? {
        WithoutReplaces(s.entries, 0, e);
        assert Without(s.entries, 0) == s.entries[1..];
      }
    }
  }

  lemma WithoutReplaces(entries: seq<Entry>, v: nat, e: Entry)
    requires v < |entries|
    ensures Replaces(entries, v, e, Without(entries, v) + [e])
  {
  }

  /** The equation between the counters. */
  lemma CountsBalance(s: Store)
    requires Conserved(s)
    ensures |s.arrivals| == |s.entries| + |s.overflow| + |s.lost|
  {
    assert |multiset(s.arrivals)| == |s.arrivals|;
    assert |multiset(Ids(s.entries)) + multiset(Ids(s.overflow)) + multiset(Ids(s.lost))| ==
           |s.entries| + |s.overflow| + |s.lost|;
  }

  /** Overflow followed by memory is the exact arrival order. */
  ghost predicate InArrivalOrder(s: Store) {
    Ids(s.overflow) + Ids(s.entries) == s.arrivals
  }

  lemma EvictionKeepsOrder(cfg: Config, s: Store, e: Entry)
    requires cfg.policy.PersistAndEvict? && InArrivalOrder(s)
    ensures InArrivalOrder(Admit(cfg, s, e).0)
  {
    var roomy := MakeRoom(cfg, s);
    IdsConcat(roomy.entries, [e]);
    if s.entries != [] {
      IdsConcat(s.overflow, [s.entries[0]]);
      IdsConcat([s.entries[0]], s.entries[1..]);
      assert s.entries == [s.entries[0]] + s.entries[1..];
    }
    assert Ids([e]) == [e.id];
  }

  // ---------------------------------------------------------------- runs

  datatype Call = Put(entry: Entry) | Fetch(wanted: nat) | Mark(id: EntryId, change: Entry -> Entry)

  function Apply(cfg: Config, s: Store, call: Call): Store {
    match call
    case Put(e) => Admit(cfg, s, e).0
    case Fetch(wanted) => Recover(s, Recoverable(cfg, s, wanted))
    case Mark(id, change) => s.(entries := Update(s.entries, id, change))
  }

  function Run(cfg: Config, s: Store, calls: seq<Call>): Store
    decreases |calls|
  {
    if calls == [] then s else Run(cfg, Apply(cfg, s, calls[0]), calls[1..])
  }

  const Empty: Store := Store([], [], [], [])

  /** The `mark_*` calls change an entry's status and counters, never its id. */
  ghost predicate KeepsId(call: Call) {
    call.Mark? ==> forall e :: call.change(e).id == e.id
  }

  lemma {:induction false} UpdateKeepsIds(entries: seq<Entry>, id: EntryId, f: Entry -> Entry)
    requires forall e :: f(e).id == e.id
    ensures Ids(Update(entries, id, f)) == Ids(entries)
  {
    if entries != [] {
      UpdateKeepsIds(entries[1..], id, f);
      IdsConcat([entries[0]], entries[1..]);
      assert entries == [entries[0]] + entries[1..];
      if entries[0].id == id {
        IdsConcat([f(entries[0])], entries[1..]);
      } else {
        IdsConcat([entries[0]], Update(entries[1..], id, f));
      }
    }
  }

  lemma ApplyConserves(cfg: Config, s: Store, call: Call)
    requires !cfg.policy.Block? && KeepsId(call) && Conserved(s) && |s.entries| <= cfg.Room()
    ensures Conserved(Apply(cfg, s, call)) && |Apply(cfg, s, call).entries| <= cfg.Room()
    ensures |Apply(cfg, s, call).arrivals| == |s.arrivals| + if call.Put? then 1 else 0
  {
    match call
    case Put(e) => EnqueueConserves(cfg, s, e);
    case Fetch(wanted) => RecoverConserves(s, Recoverable(cfg, s, wanted));
    case Mark(id, change) => UpdateKeepsIds(s.entries, id, change);
  }

  function Puts(calls: seq<Call>): nat
    decreases |calls|
  {
    if calls == [] then 0 else (if calls[0].Put? then 1 else 0) + Puts(calls[1..])
  }

  /**
   Conservation over any mix of enqueues, recoveries and status changes, for every policy but
   Block: memory stays within bounds, and enqueue calls are exactly the entries in memory, in
   overflow and dropped.
   */
  lemma {:induction false} QueueConserves(cfg: Config, s: Store, calls: seq<Call>)
    requires !cfg.policy.Block? && Conserved(s) && |s.entries| <= cfg.Room()
    requires forall i :: 0 <= i < |calls| ==> KeepsId(calls[i])
    ensures var s' := Run(cfg, s, calls);
            && Conserved(s') && |s'.entries| <= cfg.Room()
            && |s.arrivals| + Puts(calls) == |s'.entries| + |s'.overflow| + |s'.lost|
    decreases |calls|
  {
    if calls == [] {
      CountsBalance(s);
    } else {
      ApplyConserves(cfg, s, calls[0]);
      QueueConserves(cfg, Apply(cfg, s, calls[0]), calls[1..]);
    }
  }

  /** Entries are in overflow only while memory is full: nothing but an enqueue into a full queue puts them there. */
  ghost predicate Settled(cfg: Config, s: Store) {
    s.overflow != [] ==> |s.entries| >= cfg.maxEntries
  }

  lemma ApplyKeepsSettled(cfg: Config, s: Store, call: Call)
    requires Settled(cfg, s)
    ensures Settled(cfg, Apply(cfg, s, call))
    ensures call.Fetch? ==> Recoverable(cfg, s, call.wanted) == 0 && Apply(cfg, s, call) == s
  {
  }

  /**
   As long as nothing is loaded from disk, recovery moves nothing: in every run, whatever the policy,
   every recovery finds memory full or overflow empty and leaves the queue as it was.
   */
  lemma {:induction false} RecoveryMovesNothing(cfg: Config, s: Store, calls: seq<Call>, wanted: nat)
    requires Settled(cfg, s)
    ensures Settled(cfg, Run(cfg, s, calls))
    ensures Recoverable(cfg, Run(cfg, s, calls), wanted) == 0
    ensures Apply(cfg, Run(cfg, s, calls), Fetch(wanted)) == Run(cfg, s, calls)
    decreases |calls|
  {
    if calls == [] {
      ApplyKeepsSettled(cfg, s, Fetch(wanted));
    } else {
      ApplyKeepsSettled(cfg, s, calls[0]);
      RecoveryMovesNothing(cfg, Apply(cfg, s, calls[0]), calls[1..], wanted);
    }
  }

  lemma ApplyKeepsOrder(cfg: Config, s: Store, call: Call)
    requires cfg.policy.PersistAndEvict? && InArrivalOrder(s) && KeepsId(call)
    requires call.Fetch? ==> Settled(cfg, s)
    ensures InArrivalOrder(Apply(cfg, s, call))
  {
    match call
    case Put(e) => EvictionKeepsOrder(cfg, s, e);
    case Mark(id, change) => UpdateKeepsIds(s.entries, id, change);
    case Fetch(wanted) => ApplyKeepsSettled(cfg, s, call);
  }

  lemma {:induction false} OrderKept(cfg: Config, s: Store, calls: seq<Call>)
    requires cfg.policy.PersistAndEvict? && InArrivalOrder(s)
    requires forall i :: 0 <= i < |calls| ==> KeepsId(calls[i])
    requires Settled(cfg, s) || forall i :: 0 <= i < |calls| ==> !calls[i].Fetch?
    ensures InArrivalOrder(Run(cfg, s, calls))
    decreases |calls|
  {
    if calls != [] {
      ApplyKeepsOrder(cfg, s, calls[0]);
      if Settled(cfg, s) { ApplyKeepsSettled(cfg, s, calls[0]); }
      OrderKept(cfg, Apply(cfg, s, calls[0]), calls[1..]);
    }
  }

  /**
   Under PersistAndEvict, overflow followed by memory is the exact arrival order through any mix of
   enqueues, recoveries and status changes of a queue that starts empty.
   */
  lemma EvictionIsFifo(cfg: Config, calls: seq<Call>)
    requires cfg.policy.PersistAndEvict?
    requires forall i :: 0 <= i < |calls| ==> KeepsId(calls[i])
    ensures InArrivalOrder(Run(cfg, Empty, calls))
  {
    assert Ids([]) == [];
    OrderKept(cfg, Empty, calls);
  }

  // ---------------------------------------------------------------- the queue object

  class BoundedDeadLetterQueue {
    const config: Config
    var entries: seq<Entry>
    var overflow: seq<Entry>
    var dropped: nat
    var evicted: nat
    ghost var lost: seq<Entry>
    ghost var arrivals: seq<EntryId>

    ghost function View(): Store
      reads this
    {
      Store(entries, overflow, lost, arrivals)
    }

    ghost predicate Valid()
      reads this
    {
      Conserved(View()) && |entries| <= config.Room() && dropped == |lost|
    }

    constructor (config: Config)
      ensures this.config == config && View() == Empty && Valid()
    {
      this.config, entries, overflow, dropped, evicted := config, [], [], 0, 0;
      lost, arrivals := [], [];
    }

    /** The overflow branch of `enqueue`, apart from `DropNewest`. */
    method Evict()
      requires entries != [] && |entries| >= config.maxEntries && dropped == |lost|
      modifies this
      ensures View() == MakeRoom(config, old(View())) && dropped == |lost|
    {
      match config.policy
      case DropOldest =>
        lost, dropped := lost + [entries[0]], dropped + 1;
        entries := entries[1..];
      case DropLowestPriority =>
        var v := Victim(entries);
        lost, dropped := lost + [entries[v]], dropped + 1;
        entries := entries[..v] + entries[v + 1..];
      case PersistAndEvict =>
        overflow, evicted := overflow + [entries[0]], evicted + 1;
        entries := entries[1..];
      case DropNewest =>
      case Block =>
    }

    method Place(e: Entry) returns (kept: bool)
      requires dropped == |lost|
      modifies this
      ensures (View(), kept) == Admit(config, old(View()), e) && dropped == |lost|
    {
      arrivals := arrivals + [e.id];
      if |entries| >= config.maxEntries && config.policy.DropNewest? {
        lost, dropped := lost + [e], dropped + 1;
        return false;
      }
      if |entries| >= config.maxEntries && entries != [] {
        Evict();
      }
      entries := entries + [e];
      kept := true;
    }

    method Enqueue(e: Entry) returns (kept: bool)
      requires Valid() && CanAdmit(config, View())
      modifies this
      ensures Valid()
      ensures (View(), kept) == Admit(config, old(View()), e)
      ensures Enqueued(config, old(View()), e, View(), kept)
      ensures |arrivals| == |entries| + |overflow| + dropped
    {
      AdmitByPolicy(config, View(), e);
      EnqueueConserves(config, View(), e);
      kept := Place(e);
      CountsBalance(View());
    }

    /** Moves the newest overflow entries back, last in first out, as far as there is room. */
    method RecoverFromOverflow(wanted: nat) returns (n: nat)
      requires Valid()
      modifies this
      ensures Valid()
      ensures n == Recoverable(config, old(View()), wanted)
      ensures View() == Recover(old(View()), n)
    {
      var space := if config.maxEntries <= |entries| then 0 else config.maxEntries - |entries|;
      n := Min(Min(wanted, space), |overflow|);
      RecoverConserves(View(), n);
      entries, overflow := MoveBack(entries, overflow, n, lost, arrivals);
    }
  }

  /** The recovery loop: pop from overflow, push at the back of memory. */
  method MoveBack(entries: seq<Entry>, overflow: seq<Entry>, n: nat, ghost lost: seq<Entry>, ghost arrivals: seq<EntryId>)
    returns (e: seq<Entry>, o: seq<Entry>)
    requires n <= |overflow|
    ensures Store(e, o, lost, arrivals) == Recover(Store(entries, overflow, lost, arrivals), n)
  {
    e, o := entries, overflow;
    for i := 0 to n
      invariant n - i <= |o|
      invariant Recover(Store(e, o, lost, arrivals), n - i) == Recover(Store(entries, overflow, lost, arrivals), n)
    {
      var last := |o| - 1;
      e, o := e + [o[last]], o[..last];
    }
  }
}
