/** Dead letter entries and the queue operations both queues share. */
module DeadLetters {
  import opened Wrappers

  type EntryId = nat

  datatype Status = Pending | Retrying | Resolved | RequiresManualReview | Dismissed | PermanentFailure

  datatype Category = Network | RateLimit | InsufficientFunds | InvalidOrder | ExchangeError | InternalError | Unknown {
    predicate ShouldRetry() {
      Network? || RateLimit? || ExchangeError? || InternalError?
    }
  }

  datatype Entry = Entry(
    id: EntryId,
    category: Category,
    retryCount: nat,
    maxRetries: nat,
    lastRetry: Option<nat>,
    status: Status)

  function NewEntry(id: EntryId, category: Category, maxRetries: nat): Entry {
    Entry(id, category, 0, maxRetries, None, if category.ShouldRetry() then Pending else PermanentFailure)
  }

  /** Apply `f` to the first entry with the given id; nothing happens if there is none. */
  function Update(entries: seq<Entry>, id: EntryId, f: Entry -> Entry): (r: seq<Entry>)
    ensures |r| == |entries|
  {
    if entries == [] then []
    else if entries[0].id == id then [f(entries[0])] + entries[1..]
    else [entries[0]] + Update(entries[1..], id, f)
  }

  /** The method form: find, then change in place. */
  method FindAndUpdate(entries: seq<Entry>, id: EntryId, f: Entry -> Entry) returns (r: seq<Entry>)
    ensures r == Update(entries, id, f)
  {
    for i := 0 to |entries|
      invariant forall j :: 0 <= j < i ==> entries[j].id != id
    {
      if entries[i].id == id {
        UpdateAtFirst(entries, id, f, i);
        return entries[i := f(entries[i])];
      }
    }
    UpdateAtFirst(entries, id, f, |entries|);
    r := entries;
  }

  /** The entry changed is the first of that id; with none, nothing changes. */
  lemma {:induction false} UpdateAtFirst(entries: seq<Entry>, id: EntryId, f: Entry -> Entry, i: nat)
    requires i <= |entries| && forall j :: 0 <= j < i ==> entries[j].id != id
    requires i < |entries| ==> entries[i].id == id
    ensures Update(entries, id, f) == if i < |entries| then entries[i := f(entries[i])] else entries
  {
    if i > 0 {
      var rest := entries[1..];
      UpdateAtFirst(rest, id, f, i - 1);
      assert entries == [entries[0]] + rest;
    }
  }

  function Retried(now: nat): Entry -> Entry {
    (e: Entry) => e.(status := Retrying, lastRetry := Some(now), retryCount := e.retryCount + 1)
  }

  function Succeeded(): Entry -> Entry {
    (e: Entry) => e.(status := Resolved)
  }

  function Failed(): Entry -> Entry {
    (e: Entry) => e.(status := if e.retryCount >= e.maxRetries then RequiresManualReview else Pending)
  }

  function Waived(): Entry -> Entry {
    (e: Entry) => e.(status := Dismissed)
  }

  function PendingOf(entries: seq<Entry>): seq<Entry> {
    if entries == [] then []
    else (if entries[0].status.Pending? then [entries[0]] else []) + PendingOf(entries[1..])
  }
}

/**
 The dead letter queue of `crates/executionhandler/src/dead_letter_queue.rs` and its retry
 worker.  The worker works through a snapshot of the pending entries; arrivals, evictions,
 dismissals and clean-ups interleave between any two of its steps.
 */
module DeadLetterQueue {
  import opened Wrappers
  import opened DeadLetters

  datatype Config = Config(maxEntries: nat, maxRetries: nat) {
    /** With no room at all the eviction loop of `enqueue` does not end. */
    ghost predicate Valid() { 1 <= maxEntries }

    /** Even with no retries allowed, a pending entry is tried once. */
    function Bound(): nat { if maxRetries == 0 then 1 else maxRetries }
  }

  /** `enqueue`: evict from the front until there is room, then append. */
  function Enqueue(cfg: Config, entries: seq<Entry>, e: Entry): seq<Entry>
    requires cfg.Valid()
  {
    (if |entries| >= cfg.maxEntries then entries[|entries| - cfg.maxEntries + 1..] else entries) + [e]
  }

  class DeadLetterQueue {
    const config: Config
    var entries: seq<Entry>
    var nextId: EntryId

    constructor (config: Config)
      ensures this.config == config && entries == [] && nextId == 0
    {
      this.config, entries, nextId := config, [], 0;
    }

    method AddFailedOrder(category: Category) returns (id: EntryId)
      requires config.Valid()
      modifies this
      ensures id == old(nextId) && nextId == id + 1
      ensures entries == Enqueue(config, old(entries), NewEntry(id, category, config.maxRetries))
      ensures |entries| <= config.maxEntries || |entries| <= |old(entries)|
    {
      id, nextId := nextId, nextId + 1;
      while |entries| >= config.maxEntries
        invariant id == old(nextId) && nextId == id + 1
        invariant |entries| <= |old(entries)| && entries == old(entries)[|old(entries)| - |entries|..]
        invariant |entries| >= config.maxEntries - 1 || entries == old(entries)
        decreases |entries|
      {
        entries := entries[1..];
      }
      entries := entries + [NewEntry(id, category, config.maxRetries)];
    }

    method GetPending() returns (pending: seq<Entry>)
      ensures pending == PendingOf(entries)
    {
      pending := [];
      for i := 0 to |entries|
        invariant PendingOf(entries) == pending + PendingOf(entries[i..])
      {
        if entries[i].status.Pending? {
          pending := pending + [entries[i]];
        }
      }
    }

    method MarkRetrying(id: EntryId, now: nat)
      modifies this`entries
      ensures entries == Update(old(entries), id, Retried(now))
    {
      entries := FindAndUpdate(entries, id, Retried(now));
    }

    method MarkResolved(id: EntryId)
      modifies this`entries
      ensures entries == Update(old(entries), id, Succeeded())
    {
      entries := FindAndUpdate(entries, id, Succeeded());
    }

    method MarkRetryFailed(id: EntryId)
      modifies this`entries
      ensures entries == Update(old(entries), id, Failed())
    {
      entries := FindAndUpdate(entries, id, Failed());
    }

    method Dismiss(id: EntryId)
      modifies this`entries
      ensures entries == Update(old(entries), id, Waived())
    {
      entries := FindAndUpdate(entries, id, Waived());
    }
  }

  // ---------------------------------------------------------------- the worker

  datatype Worker =
    | Resting
    | Scanning(rest: seq<Entry>)
    | Trying(entry: Entry, rest: seq<Entry>)

  /** `arrivals[i]` is the category entry i arrived with; `attempts` logs every retry made. */
  datatype State = State(
    entries: seq<Entry>,
    worker: Worker,
    arrivals: seq<Category>,
    attempts: seq<EntryId>)

  datatype Step =
    | Arrive(category: Category)
    | Waive(id: EntryId)
    | CleanUp(doomed: set<EntryId>)
    | Snapshot
    | Advance(due: bool, now: nat)  // the worker looks at its next snapshot entry
    | Finish(ok: bool)              // the retry in progress returns
    | Stop

  function Removable(e: Entry, doomed: set<EntryId>): bool {
    (e.status.Resolved? || e.status.Dismissed? || e.status.PermanentFailure?) && e.id in doomed
  }

  function Retain(entries: seq<Entry>, doomed: set<EntryId>): seq<Entry> {
    if entries == [] then []
    else (if Removable(entries[0], doomed) then [] else [entries[0]]) + Retain(entries[1..], doomed)
  }

  function Next(cfg: Config, s: State, step: Step): State
    requires cfg.Valid()
  {
    match step
    case Arrive(category) =>
      s.(entries := Enqueue(cfg, s.entries, NewEntry(|s.arrivals|, category, cfg.maxRetries)),
         arrivals := s.arrivals + [category])
    case Waive(id) => s.(entries := Update(s.entries, id, Waived()))
    case CleanUp(doomed) => s.(entries := Retain(s.entries, doomed))
    case Snapshot => if s.worker.Resting? then s.(worker := Scanning(PendingOf(s.entries))) else s
    case Advance(due, now) =>
      if !s.worker.Scanning? then s
      else if s.worker.rest == [] then s.(worker := Resting)
      else
        var e, rest := s.worker.rest[0], s.worker.rest[1..];
        if e.lastRetry.Some? && !due then s.(worker := Scanning(rest))
        else s.(entries := Update(s.entries, e.id, Retried(now)), worker := Trying(e, rest),
                attempts := s.attempts + [e.id])
    case Finish(ok) =>
      if !s.worker.Trying? then s
      else s.(entries := Update(s.entries, s.worker.entry.id, if ok then Succeeded() else Failed()),
              worker := Scanning(s.worker.rest))
    case Stop => if s.worker.Scanning? then s.(worker := Resting) else s
  }

  const Empty: State := State([], Resting, [], [])

  function Count(log: seq<EntryId>, id: EntryId): nat {
    if log == [] then 0 else Count(log[..|log| - 1], id) + if log[|log| - 1] == id then 1 else 0
  }

  lemma CountAppend(log: seq<EntryId>, x: EntryId)
    ensures forall id {:trigger Count(log + [x], id)} :: Count(log + [x], id) == Count(log, id) + if x == id then 1 else 0
  {
    assert (log + [x])[..|log|] == log;
  }

  // ---------------------------------------------------------------- the invariant

  /** Ids grow along a sequence, so no id occurs twice. */
  ghost predicate Ordered(entries: seq<Entry>) {
    forall i, j :: 0 <= i < j < |entries| ==> entries[i].id < entries[j].id
  }

  ghost predicate EntryOk(cfg: Config, s: State, e: Entry) {
    && e.id < |s.arrivals| && e.category == s.arrivals[e.id] && e.maxRetries == cfg.maxRetries
    && e.retryCount == Count(s.attempts, e.id)
    && (e.status.Pending? ==> e.retryCount < cfg.Bound() && e.category.ShouldRetry())
    && (!e.category.ShouldRetry() ==> e.status.PermanentFailure? || e.status.Dismissed?)
  }

  /** A snapshot entry still to be tried: retryable, not over its bound, its count still current. */
  ghost predicate DueOk(cfg: Config, s: State, e: Entry) {
    && e.id < |s.arrivals| && s.arrivals[e.id].ShouldRetry()
    && e.retryCount == Count(s.attempts, e.id) < cfg.Bound()
  }

  ghost predicate WorkerOk(cfg: Config, s: State) {
    match s.worker
    case Resting => true
    case Scanning(rest) => Ordered(rest) && forall i :: 0 <= i < |rest| ==> DueOk(cfg, s, rest[i])
    case Trying(e, rest) =>
      && Ordered([e] + rest) && (forall i :: 0 <= i < |rest| ==> DueOk(cfg, s, rest[i]))
      && e.id < |s.arrivals| && s.arrivals[e.id].ShouldRetry()
      && 1 <= Count(s.attempts, e.id)
  }

  ghost predicate Inv(cfg: Config, s: State) {
    && Ordered(s.entries)
    && (forall i :: 0 <= i < |s.entries| ==> EntryOk(cfg, s, s.entries[i]))
    && (forall id: EntryId :: Count(s.attempts, id) <= cfg.Bound())
    && (forall id: EntryId :: 0 < Count(s.attempts, id) ==> id < |s.arrivals| && s.arrivals[id].ShouldRetry())
    && WorkerOk(cfg, s)
  }

  lemma {:induction false} UpdateAt(entries: seq<Entry>, id: EntryId, f: Entry -> Entry)
    requires Ordered(entries)
    ensures forall i :: 0 <= i < |entries| ==>
              Update(entries, id, f)[i] == if entries[i].id == id then f(entries[i]) else entries[i]
  {
    if entries != [] {
      if entries[0].id == id {
        assert forall i :: 0 < i < |entries| ==> entries[i].id > id;
      } else {
        UpdateAt(entries[1..], id, f);
      }
    }
  }

  /** The first entry stays in front of any selection of the later ones. */
  lemma PrependOrdered(entries: seq<Entry>, rest: seq<Entry>)
    requires entries != [] && Ordered(entries) && Ordered(rest) && forall e :: e in rest ==> e in entries[1..]
    ensures Ordered([entries[0]] + rest)
  {
    assert forall i :: 0 <= i < |rest| ==> rest[i] in entries[1..];
  }

  lemma {:induction false} RetainSubset(entries: seq<Entry>, doomed: set<EntryId>)
    requires Ordered(entries)
    ensures Ordered(Retain(entries, doomed))
    ensures forall e :: e in Retain(entries, doomed) ==> e in entries
  {
    if entries != [] {
      RetainSubset(entries[1..], doomed);
      PrependOrdered(entries, Retain(entries[1..], doomed));
    }
  }

  lemma {:induction false} PendingSubset(entries: seq<Entry>)
    requires Ordered(entries)
    ensures Ordered(PendingOf(entries))
    ensures forall e :: e in PendingOf(entries) ==> e in entries && e.status.Pending?
  {
    if entries != [] {
      PendingSubset(entries[1..]);
      PrependOrdered(entries, PendingOf(entries[1..]));
    }
  }

  lemma ArriveKeepsInv(cfg: Config, s: State, category: Category)
    requires cfg.Valid() && Inv(cfg, s)
    ensures Inv(cfg, Next(cfg, s, Arrive(category)))
  {
    var s' := Next(cfg, s, Arrive(category));
    assert Count(s.attempts, |s.arrivals|) == 0;
    forall i | 0 <= i < |s'.entries| ensures EntryOk(cfg, s', s'.entries[i]) {
      if i < |s'.entries| - 1 { assert s'.entries[i] in s.entries; }
    }
    assert WorkerOk(cfg, s');
  }

  lemma StatusKeepsInv(cfg: Config, s: State, id: EntryId, f: Entry -> Entry)
    requires cfg.Valid() && Inv(cfg, s)
    requires forall e :: EntryOk(cfg, s, e) && e.id == id ==> EntryOk(cfg, s, f(e)) && f(e).id == id
    ensures Inv(cfg, s.(entries := Update(s.entries, id, f)))
  {
    UpdateAt(s.entries, id, f);
  }

  lemma AttemptKeepsInv(cfg: Config, s: State, now: nat)
    requires cfg.Valid() && Inv(cfg, s) && s.worker.Scanning? && s.worker.rest != []
    ensures var e, rest := s.worker.rest[0], s.worker.rest[1..];
            Inv(cfg, s.(entries := Update(s.entries, e.id, Retried(now)), worker := Trying(e, rest),
                        attempts := s.attempts + [e.id]))
  {
    var e, rest := s.worker.rest[0], s.worker.rest[1..];
    var s' := s.(entries := Update(s.entries, e.id, Retried(now)), worker := Trying(e, rest),
                 attempts := s.attempts + [e.id]);
    UpdateAt(s.entries, e.id, Retried(now));
    CountAppend(s.attempts, e.id);
    assert DueOk(cfg, s, e);
    assert [e] + rest == s.worker.rest;
    forall i | 0 <= i < |s'.entries| ensures EntryOk(cfg, s', s'.entries[i]) {
      assert EntryOk(cfg, s, s.entries[i]);
    }
    forall i | 0 <= i < |rest| ensures DueOk(cfg, s', rest[i]) {
      assert DueOk(cfg, s, s.worker.rest[i + 1]);
    }
  }

  lemma VerdictOk(cfg: Config, s: State, e: Entry, ok: bool)
    requires EntryOk(cfg, s, e) && s.arrivals[e.id].ShouldRetry() && 1 <= Count(s.attempts, e.id)
    ensures EntryOk(cfg, s, (if ok then Succeeded() else Failed())(e))
  {
  }

  lemma TailOrdered(e: Entry, rest: seq<Entry>)
    requires Ordered([e] + rest)
    ensures Ordered(rest)
  {
    forall i, j | 0 <= i < j < |rest| ensures rest[i].id < rest[j].id {
      assert ([e] + rest)[i + 1].id < ([e] + rest)[j + 1].id;
    }
  }

  lemma FinishKeepsInv(cfg: Config, s: State, ok: bool)
    requires cfg.Valid() && Inv(cfg, s) && s.worker.Trying?
    ensures Inv(cfg, Next(cfg, s, Finish(ok)))
  {
    var e, rest := s.worker.entry, s.worker.rest;
    var f := if ok then Succeeded() else Failed();
    var s' := Next(cfg, s, Finish(ok));
    UpdateAt(s.entries, e.id, f);
    TailOrdered(e, rest);
    forall i | 0 <= i < |s'.entries| ensures EntryOk(cfg, s', s'.entries[i]) {
      assert EntryOk(cfg, s, s.entries[i]);
      if s.entries[i].id == e.id { VerdictOk(cfg, s, s.entries[i], ok); }
    }
    assert WorkerOk(cfg, s') by {
      forall i | 0 <= i < |rest| ensures DueOk(cfg, s', rest[i]) { assert DueOk(cfg, s, rest[i]); }
    }
  }

  lemma CleanUpKeepsInv(cfg: Config, s: State, doomed: set<EntryId>)
    requires cfg.Valid() && Inv(cfg, s)
    ensures Inv(cfg, Next(cfg, s, CleanUp(doomed)))
  {
    RetainSubset(s.entries, doomed);
    var kept := Retain(s.entries, doomed);
    assert forall i :: 0 <= i < |kept| ==> kept[i] in s.entries;
  }

  lemma SnapshotKeepsInv(cfg: Config, s: State)
    requires cfg.Valid() && Inv(cfg, s)
    ensures Inv(cfg, Next(cfg, s, Snapshot))
  {
    PendingSubset(s.entries);
    var pending := PendingOf(s.entries);
    assert forall i :: 0 <= i < |pending| ==> pending[i] in s.entries;
  }

  lemma NextKeepsInv(cfg: Config, s: State, step: Step)
    requires cfg.Valid() && Inv(cfg, s)
    ensures Inv(cfg, Next(cfg, s, step))
  {
    match step
    case Arrive(category) => ArriveKeepsInv(cfg, s, category);
    case Waive(id) => StatusKeepsInv(cfg, s, id, Waived());
    case CleanUp(doomed) => CleanUpKeepsInv(cfg, s, doomed);
    case Snapshot => SnapshotKeepsInv(cfg, s);
    case Advance(due, now) =>
      if s.worker.Scanning? && s.worker.rest != [] { AttemptKeepsInv(cfg, s, now); }
    case Finish(ok) => if s.worker.Trying? { FinishKeepsInv(cfg, s, ok); }
    case Stop =>
  }

  function Run(cfg: Config, s: State, steps: seq<Step>): (r: State)
    requires cfg.Valid() && Inv(cfg, s)
    ensures Inv(cfg, r)
    decreases |steps|
  {
    if steps == [] then s
    else
      NextKeepsInv(cfg, s, steps[0]);
      Run(cfg, Next(cfg, s, steps[0]), steps[1..])
  }

  /**
   In every run: a pending entry has retries left, no entry is ever retried more than
   max(1, max_retries) times, evicted or not, and a non-retryable one is never retried.
   */
  lemma RetryBound(cfg: Config, steps: seq<Step>)
    requires cfg.Valid()
    ensures Inv(cfg, Empty)
    ensures var s := Run(cfg, Empty, steps);
            && (forall i :: 0 <= i < |s.entries| && s.entries[i].status.Pending? ==> s.entries[i].retryCount < cfg.Bound())
            && (forall i :: 0 <= i < |s.entries| ==> s.entries[i].retryCount == Count(s.attempts, s.entries[i].id))
            && (forall id: EntryId :: Count(s.attempts, id) <= cfg.Bound())
            && (forall id :: 0 <= id < |s.arrivals| && !s.arrivals[id].ShouldRetry() ==> Count(s.attempts, id) == 0)
  {
    var s := Run(cfg, Empty, steps);
    forall i | 0 <= i < |s.entries|
      ensures s.entries[i].status.Pending? ==> s.entries[i].retryCount < cfg.Bound()
      ensures s.entries[i].retryCount == Count(s.attempts, s.entries[i].id)
    {
      assert EntryOk(cfg, s, s.entries[i]);
    }
  }

  // ---------------------------------------------------------------- what each step does to an entry

  /** An order the exchange may still take is queued for retry, any other is a permanent failure. */
  lemma ArrivalStatus(cfg: Config, s: State, category: Category)
    requires cfg.Valid()
    ensures var s' := Next(cfg, s, Arrive(category)); var e := s'.entries[|s'.entries| - 1];
            && e.id == |s.arrivals| && e.category == category && e.retryCount == 0 && e.lastRetry.None?
            && (e.status.PermanentFailure? <==> category.InsufficientFunds? || category.InvalidOrder? || category.Unknown?)
            && (e.status.PermanentFailure? || e.status.Pending?)
            && KeepsNewest(s.entries, s'.entries[..|s'.entries| - 1], cfg.maxEntries - 1)
  {
  }

  /** `after` is the newest entries of `before`, as many as there are places for. */
  ghost predicate KeepsNewest(before: seq<Entry>, after: seq<Entry>, places: nat) {
    && |after| == (if |before| <= places then |before| else places)
    && forall i :: 0 <= i < |after| ==> after[i] == before[|before| - |after| + i]
  }

  /** Only the status of the entries of the given id has changed. */
  ghost predicate OnlyStatus(before: seq<Entry>, id: EntryId, after: seq<Entry>, status: Status) {
    && |after| == |before|
    && forall i :: 0 <= i < |before| ==>
         after[i] == if before[i].id == id then before[i].(status := status) else before[i]
  }

  /**
   The end of a retry: a success resolves the entry; a failure puts it back for another retry as long as
   fewer than `max_retries` have been made, and after that hands it to manual review.
   */
  lemma FinishOutcome(cfg: Config, s: State, ok: bool)
    requires cfg.Valid() && Inv(cfg, s) && s.worker.Trying?
    ensures var s', e := Next(cfg, s, Finish(ok)), s.worker.entry;
            && s'.worker == Scanning(s.worker.rest) && s'.attempts == s.attempts
            && OnlyStatus(s.entries, e.id, s'.entries,
                          if ok then Resolved
                          else if Count(s.attempts, e.id) < cfg.maxRetries then Pending else RequiresManualReview)
  {
    UpdateAt(s.entries, s.worker.entry.id, if ok then Succeeded() else Failed());
    assert forall i :: 0 <= i < |s.entries| ==> EntryOk(cfg, s, s.entries[i]);
  }

  /**
   The start of a retry: the next entry of the snapshot is tried, and counted, if it was never tried or its
   delay is over; otherwise it is passed over and nothing else happens.
   */
  lemma AdvanceOutcome(cfg: Config, s: State, due: bool, now: nat)
    requires cfg.Valid() && Inv(cfg, s) && s.worker.Scanning? && s.worker.rest != []
    ensures var s', e, rest := Next(cfg, s, Advance(due, now)), s.worker.rest[0], s.worker.rest[1..];
            if e.lastRetry.None? || due
            then s'.worker == Trying(e, rest) && s'.attempts == s.attempts + [e.id]
                 && |s'.entries| == |s.entries|
                 && forall i :: 0 <= i < |s.entries| ==>
                      if s.entries[i].id != e.id then s'.entries[i] == s.entries[i]
                      else s'.entries[i].status.Retrying? && s'.entries[i].lastRetry == Some(now)
                           && s'.entries[i].retryCount == Count(s'.attempts, e.id)
            else s' == s.(worker := Scanning(rest))
  {
    UpdateAt(s.entries, s.worker.rest[0].id, Retried(now));
    CountAppend(s.attempts, s.worker.rest[0].id);
    assert forall i :: 0 <= i < |s.entries| ==> EntryOk(cfg, s, s.entries[i]);
  }

  /** A dismissal changes the status of one entry and nothing else. */
  lemma WaiveOutcome(cfg: Config, s: State, id: EntryId)
    requires cfg.Valid() && Inv(cfg, s)
    ensures var s' := Next(cfg, s, Waive(id));
            OnlyStatus(s.entries, id, s'.entries, Dismissed) && s' == s.(entries := s'.entries)
  {
    UpdateAt(s.entries, id, Waived());
  }

  /** A snapshot is all the pending entries, in queue order. */
  lemma SnapshotOutcome(cfg: Config, s: State)
    requires cfg.Valid() && Inv(cfg, s) && s.worker.Resting?
    ensures var s' := Next(cfg, s, Snapshot);
            && s'.worker.Scanning? && Ordered(s'.worker.rest) && s'.entries == s.entries
            && forall e :: e in s'.worker.rest <==> e in s.entries && e.status.Pending?
  {
    PendingSubset(s.entries);
    PendingComplete(s.entries);
  }

  lemma {:induction false} PendingComplete(entries: seq<Entry>)
    ensures forall e :: e in entries && e.status.Pending? ==> e in PendingOf(entries)
  {
    if entries != [] {
      PendingComplete(entries[1..]);
      assert entries == [entries[0]] + entries[1..];
    }
  }

  /** A clean-up removes exactly the finished entries it is told to, and keeps the order of the rest. */
  lemma CleanUpOutcome(cfg: Config, s: State, doomed: set<EntryId>)
    requires cfg.Valid() && Inv(cfg, s)
    ensures var s' := Next(cfg, s, CleanUp(doomed));
            && Ordered(s'.entries)
            && forall e :: e in s'.entries <==>
                 e in s.entries && !(e.id in doomed && e.status in {Resolved, Dismissed, PermanentFailure})
  {
    RetainSubset(s.entries, doomed);
    RetainExact(s.entries, doomed);
  }

  lemma {:induction false} RetainExact(entries: seq<Entry>, doomed: set<EntryId>)
    ensures forall e :: e in Retain(entries, doomed) <==> e in entries && !Removable(e, doomed)
  {
    if entries != [] {
      RetainExact(entries[1..], doomed);
      assert entries == [entries[0]] + entries[1..];
    }
  }

  // ---------------------------------------------------------------- the measure

  /** Retries the first `n` arrivals have left. */
  ghost function Remaining(cfg: Config, s: State, n: nat): int
    requires n <= |s.arrivals|
  {
    if n == 0 then 0
    else Remaining(cfg, s, n - 1) + if s.arrivals[n - 1].ShouldRetry() then cfg.Bound() - Count(s.attempts, n - 1) else 0
  }

  lemma {:induction false} RemainingFrame(cfg: Config, s: State, s': State, n: nat)
    requires n <= |s.arrivals| <= |s'.arrivals| && s'.arrivals[..n] == s.arrivals[..n]
    requires forall id :: 0 <= id < n ==> Count(s'.attempts, id) == Count(s.attempts, id)
    ensures Remaining(cfg, s', n) == Remaining(cfg, s, n)
  {
    if n > 0 {
      assert s'.arrivals[..n - 1] == s'.arrivals[..n][..n - 1] && s.arrivals[..n - 1] == s.arrivals[..n][..n - 1];
      assert s'.arrivals[n - 1] == s'.arrivals[..n][n - 1];
      RemainingFrame(cfg, s, s', n - 1);
    }
  }

  lemma {:induction false} RemainingNonNegative(cfg: Config, s: State, n: nat)
    requires Inv(cfg, s) && n <= |s.arrivals|
    ensures 0 <= Remaining(cfg, s, n)
  {
    if n > 0 { RemainingNonNegative(cfg, s, n - 1); }
  }

  lemma {:induction false} RemainingAfterAttempt(cfg: Config, s: State, s': State, id: EntryId, n: nat)
    requires s'.arrivals == s.arrivals && s'.attempts == s.attempts + [id]
    requires id < |s.arrivals| && s.arrivals[id].ShouldRetry() && id < n <= |s.arrivals|
    ensures Remaining(cfg, s', n) == Remaining(cfg, s, n) - 1
  {
    CountAppend(s.attempts, id);
    if n - 1 == id { RemainingFrame(cfg, s, s', n - 1); }
    else { RemainingAfterAttempt(cfg, s, s', id, n - 1); }
  }

  ghost function Measure(cfg: Config, s: State): int { Remaining(cfg, s, |s.arrivals|) }

  /** Retries a step adds to the budget. */
  function Granted(cfg: Config, step: Step): nat {
    if step.Arrive? && step.category.ShouldRetry() then cfg.Bound() else 0
  }

  /**
   The measure: never negative, down by one with every retry, unchanged by every other step
   but an arrival, which adds at most max(1, max_retries).
   */
  lemma MeasureDecreases(cfg: Config, s: State, step: Step)
    requires cfg.Valid() && Inv(cfg, s)
    ensures var s' := Next(cfg, s, step);
            && 0 <= Measure(cfg, s)
            && (s'.attempts != s.attempts ==> Measure(cfg, s') == Measure(cfg, s) - 1)
            && (s'.attempts == s.attempts && !step.Arrive? ==> Measure(cfg, s') == Measure(cfg, s))
            && (step.Arrive? ==> Measure(cfg, s') == Measure(cfg, s) + Granted(cfg, step))
  {
    var s' := Next(cfg, s, step);
    var n := |s.arrivals|;
    RemainingNonNegative(cfg, s, n);
    if step.Advance? && s'.worker.Trying? && s.worker.Scanning? {
      assert DueOk(cfg, s, s.worker.rest[0]);
      RemainingAfterAttempt(cfg, s, s', s.worker.rest[0].id, n);
    } else {
      RemainingFrame(cfg, s, s', n);
      assert Count(s.attempts, n) == 0;
    }
  }

  function TotalGranted(cfg: Config, steps: seq<Step>): nat
    decreases |steps|
  {
    if steps == [] then 0 else Granted(cfg, steps[0]) + TotalGranted(cfg, steps[1..])
  }

  lemma MeasureStep(cfg: Config, s: State, step: Step)
    requires cfg.Valid() && Inv(cfg, s)
    ensures var s' := Next(cfg, s, step);
            |s'.attempts| - |s.attempts| == Measure(cfg, s) + Granted(cfg, step) - Measure(cfg, s')
  {
    MeasureDecreases(cfg, s, step);
  }

  /** Over any run, retries made plus retries left are exactly the retries granted. */
  lemma {:induction false} AttemptsBounded(cfg: Config, s: State, steps: seq<Step>)
    requires cfg.Valid() && Inv(cfg, s)
    ensures |Run(cfg, s, steps).attempts| + Measure(cfg, Run(cfg, s, steps)) ==
            |s.attempts| + Measure(cfg, s) + TotalGranted(cfg, steps)
    ensures |Run(cfg, s, steps).attempts| - |s.attempts| <= Measure(cfg, s) + TotalGranted(cfg, steps)
    decreases |steps|
  {
    if steps != [] {
      MeasureStep(cfg, s, steps[0]);
      NextKeepsInv(cfg, s, steps[0]);
      AttemptsBounded(cfg, Next(cfg, s, steps[0]), steps[1..]);
    }
    var end := Run(cfg, s, steps);
    RemainingNonNegative(cfg, end, |end.arrivals|);
  }
}
