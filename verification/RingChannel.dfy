/**
 The single-producer/single-consumer ring of `crates/core/zero_copy.rs`.

 `send` and `recv` are split at every shared access: one load, one slot access or one store
 is one step, and an interleaving is an arbitrary sequence of producer and consumer steps
 under sequential consistency.  `sent` and `received` are history: a value is sent when its
 tail store is done and received when its head store is done.
 */
module RingChannel {
  import opened Wrappers
  import opened Arithmetic

  datatype Producer<T> =
    | PIdle
    | PLoaded(value: T, tail: nat)   // tail loaded, head not yet compared
    | PWriting(value: T, tail: nat)  // not full: about to write the slot
    | PStoring(value: T, next: nat)  // slot written: about to publish

  datatype Consumer<T> =
    | CIdle
    | CLoaded(head: nat)
    | CTaking(head: nat)                   // not empty: about to take the slot
    | CStoring(value: Option<T>, next: nat)

  datatype State<T> = State(
    slots: seq<Option<T>>,
    head: nat,
    tail: nat,
    producer: Producer<T>,
    consumer: Consumer<T>,
    sent: seq<T>,
    received: seq<T>)

  /** `Produce(v)` advances the running `send`, or starts `send(v)`; `Consume` likewise. */
  datatype Step<T> = Produce(value: T) | Consume

  /** What a step makes visible to a caller. */
  datatype Event<T> =
    | Silent
    | SendOk(sent: T)
    | SendFull
    | RecvReturns(result: Option<T>)
    | RecvEmpty

  /** The slot of the k-th message. */
  function Slot(k: nat, cap: nat): (r: nat)
    requires 0 < cap
    ensures r < cap
  {
    k % cap
  }

  ghost predicate Shape<T>(s: State<T>) {
    && 0 < |s.slots|
    && (s.producer.PWriting? ==> s.producer.tail < |s.slots|)
    && (s.consumer.CTaking? ==> s.consumer.head < |s.slots|)
  }

  function StepProducer<T>(s: State<T>, v: T): (r: (State<T>, Event<T>))
    requires Shape(s)
  {
    match s.producer
    case PIdle => (s.(producer := PLoaded(v, s.tail)), Silent)
    case PLoaded(value, tail) =>
      if (tail + 1) % |s.slots| == s.head then (s.(producer := PIdle), SendFull)
      else if tail < |s.slots| then (s.(producer := PWriting(value, tail)), Silent)
      else (s, Silent)  // no tail that was ever stored is out of range
    case PWriting(value, tail) =>
      (s.(slots := s.slots[tail := Some(value)],
          producer := PStoring(value, (tail + 1) % |s.slots|)), Silent)
    case PStoring(value, next) =>
      (s.(tail := next, producer := PIdle, sent := s.sent + [value]), SendOk(value))
  }

  function StepConsumer<T>(s: State<T>): (r: (State<T>, Event<T>))
    requires Shape(s)
  {
    match s.consumer
    case CIdle => (s.(consumer := CLoaded(s.head)), Silent)
    case CLoaded(head) =>
      if head == s.tail then (s.(consumer := CIdle), RecvEmpty)
      else if head < |s.slots| then (s.(consumer := CTaking(head)), Silent)
      else (s, Silent)
    case CTaking(head) =>
      (s.(slots := s.slots[head := None],
          consumer := CStoring(s.slots[head], (head + 1) % |s.slots|)), Silent)
    case CStoring(value, next) =>
      (s.(head := next, consumer := CIdle,
          received := if value.Some? then s.received + [value.value] else s.received),
       RecvReturns(value))
  }

  function Next<T>(s: State<T>, step: Step<T>): (r: (State<T>, Event<T>))
    requires Shape(s)
  {
    match step
    case Produce(v) => StepProducer(s, v)
    case Consume => StepConsumer(s)
  }

  function Initial<T>(cap: nat): State<T> {
    State(seq(cap, _ => None), 0, 0, PIdle, CIdle, [], [])
  }

  // ---------------------------------------------------------------- the invariant

  ghost predicate Counters<T>(s: State<T>) {
    var cap, n, m := |s.slots|, |s.received|, |s.sent|;
    && 1 <= cap
    && n <= m < n + cap
    && s.head == Slot(n, cap)
    && s.tail == Slot(m, cap)
    && s.received == s.sent[..n]
  }

  ghost predicate ProducerOk<T>(s: State<T>)
    requires Counters(s)
  {
    var cap, n, m := |s.slots|, |s.received|, |s.sent|;
    match s.producer
    case PIdle => true
    case PLoaded(_, tail) => tail == s.tail
    case PWriting(_, tail) => tail == s.tail && m + 1 < n + cap
    case PStoring(value, next) =>
      next == Slot(m + 1, cap) && m + 1 < n + cap && s.slots[Slot(m, cap)] == Some(value)
  }

  ghost predicate ConsumerOk<T>(s: State<T>)
    requires Counters(s)
  {
    var cap, n, m := |s.slots|, |s.received|, |s.sent|;
    match s.consumer
    case CIdle => true
    case CLoaded(head) => head == s.head
    case CTaking(head) => head == s.head && n < m
    case CStoring(value, next) =>
      next == Slot(n + 1, cap) && n < m && value == Some(s.sent[n]) && s.slots[Slot(n, cap)] == None
  }

  ghost predicate SlotsOk<T>(s: State<T>)
    requires Counters(s)
  {
    var cap, n, m := |s.slots|, |s.received|, |s.sent|;
    && (forall k :: n <= k < m && !(k == n && s.consumer.CStoring?) ==>
          s.slots[Slot(k, cap)] == Some(s.sent[k]))
    && (forall k :: m <= k < n + cap && !(k == m && s.producer.PStoring?) ==>
          s.slots[Slot(k, cap)] == None)
  }

  ghost predicate Inv<T>(s: State<T>) {
    Counters(s) && ProducerOk(s) && ConsumerOk(s) && SlotsOk(s)
  }

  lemma SlotSuccessor(k: nat, cap: nat)
    requires 0 < cap
    ensures (Slot(k, cap) + 1) % cap == Slot(k + 1, cap)
  {
    ModSuccessor(k, cap);
  }

  /** Messages less than a lap apart never share a slot. */
  lemma SlotsDistinct(at: nat, lo: nat, cap: nat)
    requires 0 < cap && lo <= at < lo + cap
    ensures forall k {:trigger Slot(k, cap)} :: lo <= k < lo + cap && k != at ==> Slot(k, cap) != Slot(at, cap)
  {
    forall k {:trigger Slot(k, cap)} | lo <= k < lo + cap && k != at
      ensures Slot(k, cap) != Slot(at, cap)
    {
      if k < at { ModInjective(k, at, cap); } else { ModInjective(at, k, cap); }
    }
  }

  lemma InitialInv<T>(cap: nat)
    requires 1 <= cap
    ensures Inv(Initial<T>(cap))
  {
  }

  lemma ProducerKeepsInv<T>(s: State<T>, v: T)
    requires Inv(s)
    ensures Inv(StepProducer(s, v).0)
  {
    var cap, n, m := |s.slots|, |s.received|, |s.sent|;
    var s' := StepProducer(s, v).0;
    SlotSuccessor(m, cap);
    match s.producer {
      case PIdle =>
      case PLoaded(_, _) =>
        if m + 1 == n + cap { LapMeetsHead(n, cap); }
      case PWriting(value, tail) =>
        SlotsDistinct(m, n, cap);
      case PStoring(value, next) =>
        assert forall k :: n <= k < m ==> s'.sent[k] == s.sent[k];
        assert s'.received == s'.sent[..n];
    }
  }

  lemma LapMeetsHead(n: nat, cap: nat)
    requires 0 < cap
    ensures Slot(n + cap, cap) == Slot(n, cap)
  {
    ModPlusPeriod(n, cap);
  }

  lemma ConsumerKeepsInv<T>(s: State<T>)
    requires Inv(s)
    ensures Inv(StepConsumer(s).0)
  {
    if s.consumer.CStoring? {
      ReceiveKeepsInv(s);
    } else {
      var cap, n := |s.slots|, |s.received|;
      SlotSuccessor(n, cap);
      SlotsDistinct(n, n, cap);
    }
  }

  lemma ReceiveKeepsInv<T>(s: State<T>)
    requires Inv(s) && s.consumer.CStoring?
    ensures Inv(StepConsumer(s).0)
  {
    var cap, n, m := |s.slots|, |s.received|, |s.sent|;
    var s' := StepConsumer(s).0;
    LapMeetsHead(n, cap);
    assert s'.received == s'.sent[..n + 1];
    assert Counters(s');
    assert ProducerOk(s');
    assert SlotsOk(s') by {
      forall k | m <= k < n + 1 + cap && !(k == m && s'.producer.PStoring?)
        ensures s'.slots[Slot(k, cap)] == None
      {
        if k == n + cap { assert s.slots[Slot(n, cap)] == None; }
      }
    }
  }

  lemma NextKeepsInv<T>(s: State<T>, step: Step<T>)
    requires Inv(s)
    ensures Inv(Next(s, step).0)
  {
    match step
    case Produce(v) => ProducerKeepsInv(s, v);
    case Consume => ConsumerKeepsInv(s);
  }

  // ---------------------------------------------------------------- runs and refinement

  function Run<T>(s: State<T>, steps: seq<Step<T>>): (r: State<T>)
    requires Inv(s)
    ensures Inv(r) && |r.slots| == |s.slots|
    decreases |steps|
  {
    if steps == [] then s
    else
      NextKeepsInv(s, steps[0]);
      Run(Next(s, steps[0]).0, steps[1..])
  }

  function Trace<T>(s: State<T>, steps: seq<Step<T>>): seq<Event<T>>
    requires Inv(s)
    decreases |steps|
  {
    if steps == [] then []
    else
      NextKeepsInv(s, steps[0]);
      [Next(s, steps[0]).1] + Trace(Next(s, steps[0]).0, steps[1..])
  }

  /** The messages in the ring. */
  function Queue<T>(s: State<T>): seq<T>
    requires |s.received| <= |s.sent|
  {
    s.sent[|s.received|..]
  }

  /** The specification: a sequential FIFO holding at most `bound` messages.  `None` rejects. */
  function FifoAccepts<T(==)>(bound: nat, q: seq<T>, e: Event<T>): Option<seq<T>> {
    match e
    case Silent => Some(q)
    case SendOk(v) => if |q| < bound then Some(q + [v]) else None
    case SendFull => if |q| == bound then Some(q) else None
    case RecvReturns(r) => if q != [] && r == Some(q[0]) then Some(q[1..]) else None
    case RecvEmpty => if q == [] then Some(q) else None
  }

  function FifoRun<T(==)>(bound: nat, q: seq<T>, events: seq<Event<T>>): Option<seq<T>>
    decreases |events|
  {
    if events == [] then Some(q)
    else match FifoAccepts(bound, q, events[0])
      case None => None
      case Some(q') => FifoRun(bound, q', events[1..])
  }

  lemma ProducerRefinesFifo<T>(s: State<T>, v: T)
    requires Counters(s) && ProducerOk(s) && Shape(s)
    ensures FifoAccepts(|s.slots| - 1, Queue(s), StepProducer(s, v).1) == Some(Queue(StepProducer(s, v).0))
  {
    var cap, n, m := |s.slots|, |s.received|, |s.sent|;
    if s.producer.PLoaded? {
      SlotSuccessor(m, cap);
      LapMeetsHead(n, cap);
      ModInjective(m + 1, n + cap, cap);
    } else if s.producer.PStoring? {
      assert (s.sent + [s.producer.value])[n..] == s.sent[n..] + [s.producer.value];
    }
  }

  lemma ConsumerRefinesFifo<T>(s: State<T>)
    requires Counters(s) && ConsumerOk(s) && Shape(s)
    ensures |StepConsumer(s).0.received| <= |s.sent|
    ensures FifoAccepts(|s.slots| - 1, Queue(s), StepConsumer(s).1) == Some(Queue(StepConsumer(s).0))
  {
    ModInjective(|s.received|, |s.sent|, |s.slots|);
  }

  /** Each atomic step of either thread is a step of the bounded FIFO. */
  lemma StepRefinesFifo<T>(s: State<T>, step: Step<T>)
    requires Inv(s)
    ensures Inv(Next(s, step).0) && |Next(s, step).0.slots| == |s.slots|
    ensures FifoAccepts(|s.slots| - 1, Queue(s), Next(s, step).1) == Some(Queue(Next(s, step).0))
  {
    NextKeepsInv(s, step);
    match step
    case Produce(v) => ProducerRefinesFifo(s, v);
    case Consume => ConsumerRefinesFifo(s);
  }

  /** The run's events are accepted by a FIFO of at most capacity - 1 messages, which ends with the ring's. */
  ghost predicate Refined<T>(s: State<T>, steps: seq<Step<T>>)
    requires Inv(s)
  {
    FifoRun(|s.slots| - 1, Queue(s), Trace(s, steps)) == Some(Queue(Run(s, steps)))
  }

  /** In every interleaving the ring behaves as a FIFO of at most capacity - 1 messages. */
  lemma {:induction false} RunRefinesFifo<T>(s: State<T>, steps: seq<Step<T>>)
    requires Inv(s)
    ensures Refined(s, steps)
    decreases |steps|
  {
    if steps != [] {
      StepRefinesFifo(s, steps[0]);
      RunRefinesFifo(Next(s, steps[0]).0, steps[1..]);
      PrependStep(s, steps[0], steps[1..]);
      assert steps == [steps[0]] + steps[1..];
    }
  }

  /** One refined step in front of a refined run. */
  lemma PrependStep<T>(s: State<T>, step: Step<T>, rest: seq<Step<T>>)
    requires Inv(s) && Inv(Next(s, step).0) && |Next(s, step).0.slots| == |s.slots|
    requires FifoAccepts(|s.slots| - 1, Queue(s), Next(s, step).1) == Some(Queue(Next(s, step).0))
    requires Refined(Next(s, step).0, rest)
    ensures Refined(s, [step] + rest)
  {
    assert ([step] + rest)[1..] == rest;
    FifoCons(|s.slots| - 1, Queue(s), Next(s, step).1, Queue(Next(s, step).0), Trace(Next(s, step).0, rest));
  }

  lemma FifoCons<T>(bound: nat, q: seq<T>, e: Event<T>, q': seq<T>, rest: seq<Event<T>>)
    requires FifoAccepts(bound, q, e) == Some(q')
    ensures FifoRun(bound, q, [e] + rest) == FifoRun(bound, q', rest)
  {
    var events := [e] + rest;
    assert events[0] == e && events[1..] == rest;
  }

  /** Safety of every interleaving from an empty ring; one of capacity 1 is always full and always empty. */
  lemma RingSafety<T>(cap: nat, steps: seq<Step<T>>)
    requires 1 <= cap
    ensures Inv(Initial<T>(cap))
    ensures var s := Run(Initial<T>(cap), steps);
            // received values are a prefix of the sent values, at most cap - 1 are held
            && s.received <= s.sent
            && |Queue(s)| <= cap - 1
            // the two slot accesses never meet, and each finds what it expects
            && (s.producer.PWriting? && s.consumer.CTaking? ==> s.producer.tail != s.consumer.head)
            && (s.producer.PWriting? ==> s.producer.tail < cap && s.slots[s.producer.tail] == None)
            && (s.consumer.CTaking? ==> s.consumer.head < cap && s.slots[s.consumer.head].Some?)
    ensures FifoRun(cap - 1, [], Trace(Initial<T>(cap), steps)) == Some(Queue(Run(Initial<T>(cap), steps)))
  {
    InitialInv<T>(cap);
    RunRefinesFifo(Initial<T>(cap), steps);
    var s := Run(Initial<T>(cap), steps);
    ModInjective(|s.received|, |s.sent|, cap);
  }

  // ---------------------------------------------------------------- the channel object

  /** The channel as written: a fixed buffer whose slots are overwritten in place. */
  class ZeroCopyChannel<T> {
    const buffer: array<Option<T>>
    var head: nat
    var tail: nat
    ghost var sent: seq<T>
    ghost var received: seq<T>

    ghost function View(): State<T>
      reads this, buffer
    {
      State(buffer[..], head, tail, PIdle, CIdle, sent, received)
    }

    ghost predicate Valid()
      reads this, buffer
    {
      Inv(View())
    }

    constructor (capacity: nat)
      requires 1 <= capacity
      ensures Valid() && fresh(buffer) && View() == Initial(capacity)
    {
      buffer := new Option<T>[capacity](_ => None);
      head, tail, sent, received := 0, 0, [], [];
      new;
      assert View().slots == Initial<T>(capacity).slots;
      InitialInv<T>(capacity);
    }

    /** An undisturbed `send` is the machine's four producer steps, or two when full. */
    method Send(value: T) returns (ok: bool)
      requires Valid()
      modifies this, buffer
      ensures Valid()
      ensures ok <==> |old(Queue(View()))| < buffer.Length - 1
      ensures Queue(View()) == if ok then old(Queue(View())) + [value] else old(Queue(View()))
      ensures View() == Run(old(View()), seq(if ok then 4 else 2, _ => Produce(value)))
    {
      ghost var s0 := View();
      SendSteps(s0, value);
      var next := (tail + 1) % buffer.Length;
      if next == head {
        return false;
      }
      buffer[tail] := Some(value);
      tail := next;
      sent := sent + [value];
      ok := true;
    }

    /** An undisturbed `recv` is the machine's four consumer steps, or two when empty. */
    method Recv() returns (r: Option<T>)
      requires Valid()
      modifies this, buffer
      ensures Valid()
      ensures r.Some? <==> old(Queue(View())) != []
      ensures r.Some? ==> old(Queue(View())) == [r.value] + Queue(View())
      ensures r.None? ==> View() == old(View())
      ensures View() == Run(old(View()), seq(if r.Some? then 4 else 2, _ => Consume))
    {
      RecvSteps(View());
      if head == tail {
        return None;
      }
      r := buffer[head];
      buffer[head] := None;
      head := (head + 1) % buffer.Length;
      received := received + [r.value];
    }

    /** With no call in flight, `len` is exact, wrapped or not. */
    method Len() returns (n: nat)
      requires Valid()
      ensures n == |Queue(View())|
    {
      LenWraps(|received|, |sent|, buffer.Length);
      n := if tail >= head then tail - head else buffer.Length - head + tail;
    }
  }

  lemma LenWraps(n: nat, m: nat, cap: nat)
    requires 0 < cap && n <= m < n + cap
    ensures m - n == if Slot(m, cap) >= Slot(n, cap) then Slot(m, cap) - Slot(n, cap)
                     else cap - Slot(n, cap) + Slot(m, cap)
  {
    LengthModulo(n, m, cap);
  }

  /** `len` from a head and a tail. */
  function Length(head: nat, tail: nat, cap: nat): int {
    if tail >= head then tail - head else cap - head + tail
  }

  /**
   A `len` racing both threads: it reads the head in one state and the tail after any further steps. It
   answers the messages sent by the second moment and not received by the first, modulo the capacity; so it
   is below the capacity, and exact for those two moments if and only if there are fewer than that.
   */
  lemma RacingLen<T>(s: State<T>, steps: seq<Step<T>>)
    requires Inv(s)
    ensures var s' := Run(s, steps); var cap := |s.slots|;
            var len, gap := Length(s.head, s'.tail, cap), |s'.sent| - |s.received|;
            0 <= gap && len == gap % cap && (len == gap <==> gap < cap)
  {
    var s', cap := Run(s, steps), |s.slots|;
    SentGrows(s, steps);
    LengthModulo(|s.received|, |s'.sent|, cap);
  }

  lemma {:induction false} SentGrows<T>(s: State<T>, steps: seq<Step<T>>)
    requires Inv(s)
    ensures |s.sent| <= |Run(s, steps).sent|
    decreases |steps|
  {
    if steps != [] {
      NextKeepsInv(s, steps[0]);
      SentGrows(Next(s, steps[0]).0, steps[1..]);
    }
  }

  lemma LengthModulo(n: nat, m: nat, cap: nat)
    requires 0 < cap && n <= m
    ensures Length(Slot(n, cap), Slot(m, cap), cap) == (m - n) % cap
    ensures (m - n) % cap == m - n <==> m - n < cap
  {
    var len, x, y, d := Length(Slot(n, cap), Slot(m, cap), cap), Slot(n, cap), Slot(m, cap), m / cap - n / cap;
    assert n == (n / cap) * cap + x && m == (m / cap) * cap + y;
    assert d * cap == (m / cap) * cap - (n / cap) * cap;
    assert (d - 1) * cap == d * cap - cap;
    DivModUnique(m - n, cap, if y >= x then d else d - 1, len);
    if m - n < cap { DivModUnique(m - n, cap, 0, m - n); }
  }

  lemma SendSteps<T>(s: State<T>, value: T)
    requires Inv(s) && s.producer.PIdle?
    ensures |Queue(s)| == |s.slots| - 1 <==> (s.tail + 1) % |s.slots| == s.head
    ensures |Queue(s)| == |s.slots| - 1 ==> Run(s, seq(2, _ => Produce(value))) == s
    ensures |Queue(s)| < |s.slots| - 1 ==>
              Run(s, seq(4, _ => Produce(value))) ==
              s.(slots := s.slots[s.tail := Some(value)], tail := (s.tail + 1) % |s.slots|, sent := s.sent + [value])
  {
    FourSteps(s, Produce(value));
    FullTest(s);
    if (s.tail + 1) % |s.slots| != s.head {
      PublishSteps(s, value);
    }
  }

  /** The producer's test for a full ring is exact while no step is under way. */
  lemma FullTest<T>(s: State<T>)
    requires Inv(s)
    ensures |Queue(s)| <= |s.slots| - 1
    ensures |Queue(s)| == |s.slots| - 1 <==> (s.tail + 1) % |s.slots| == s.head
  {
    var cap := |s.slots|;
    SlotSuccessor(|s.sent|, cap);
    LapMeetsHead(|s.received|, cap);
    ModInjective(|s.sent| + 1, |s.received| + cap, cap);
  }

  lemma RecvSteps<T>(s: State<T>)
    requires Inv(s) && s.consumer.CIdle?
    ensures Queue(s) == [] <==> s.head == s.tail
    ensures Queue(s) == [] ==> Run(s, seq(2, _ => Consume)) == s
    ensures Queue(s) != [] ==>
              && s.slots[s.head] == Some(s.sent[|s.received|])
              && Run(s, seq(4, _ => Consume)) ==
                 s.(slots := s.slots[s.head := None], head := (s.head + 1) % |s.slots|,
                    received := s.received + [s.sent[|s.received|]])
  {
    var n, cap := |s.received|, |s.slots|;
    FourSteps(s, Consume);
    ModInjective(n, |s.sent|, cap);
    if s.head != s.tail {
      assert s.slots[Slot(n, cap)] == Some(s.sent[n]);
      TakeSteps(s);
    }
  }

  lemma PublishSteps<T>(s: State<T>, value: T)
    requires Inv(s) && s.producer.PIdle? && (s.tail + 1) % |s.slots| != s.head
    ensures Twice(s, Produce(value)) == s.(producer := PWriting(value, s.tail)) && Inv(Twice(s, Produce(value)))
    ensures Twice(Twice(s, Produce(value)), Produce(value)) ==
            s.(slots := s.slots[s.tail := Some(value)], tail := (s.tail + 1) % |s.slots|, sent := s.sent + [value])
  {
    NextKeepsInv(s, Produce(value));
    NextKeepsInv(Next(s, Produce(value)).0, Produce(value));
    WriteSteps(s, value, s.(producer := PWriting(value, s.tail)));
  }

  lemma WriteSteps<T>(s: State<T>, value: T, s2: State<T>)
    requires s.producer.PIdle? && Inv(s2) && s2 == s.(producer := PWriting(value, s.tail)) && s.tail < |s.slots|
    ensures Twice(s2, Produce(value)) ==
            s.(slots := s.slots[s.tail := Some(value)], tail := (s.tail + 1) % |s.slots|, sent := s.sent + [value])
  {
    NextKeepsInv(s2, Produce(value));
  }

  lemma TakeSteps<T>(s: State<T>)
    requires Inv(s) && s.consumer.CIdle? && s.head != s.tail
    ensures Twice(s, Consume) == s.(consumer := CTaking(s.head)) && Inv(Twice(s, Consume))
    ensures var v := s.slots[s.head];
            v.Some? ==> Twice(Twice(s, Consume), Consume) ==
                        s.(slots := s.slots[s.head := None], head := (s.head + 1) % |s.slots|,
                           received := s.received + [v.value])
  {
    NextKeepsInv(s, Consume);
    NextKeepsInv(Next(s, Consume).0, Consume);
  }

  /** Repeating one thread's step twice or four times, unfolded. */
  lemma FourSteps<T>(s: State<T>, p: Step<T>)
    requires Inv(s)
    ensures Shape(s) && Shape(Twice(s, p))
    ensures Run(s, seq(2, _ => p)) == Twice(s, p)
    ensures Run(s, seq(4, _ => p)) == Twice(Twice(s, p), p)
  {
    RunTwice(s, p, []);
    RunTwice(s, p, [p, p]);
    var s2 := Twice(s, p);
    RunTwice(s2, p, []);
    assert seq(2, _ => p) == [p, p] + [];
    assert seq(4, _ => p) == [p, p] + [p, p];
  }

  function Twice<T>(s: State<T>, p: Step<T>): State<T>
    requires Inv(s)
  {
    NextKeepsInv(s, p);
    Next(Next(s, p).0, p).0
  }

  lemma RunTwice<T>(s: State<T>, p: Step<T>, rest: seq<Step<T>>)
    requires Inv(s)
    ensures Inv(Twice(s, p))
    ensures Run(s, [p, p] + rest) == Run(Twice(s, p), rest)
  {
    RunOne(s, p, [p] + rest);
    RunOne(Next(s, p).0, p, rest);
    assert [p, p] + rest == [p] + ([p] + rest);
  }

  lemma RunOne<T>(s: State<T>, p: Step<T>, rest: seq<Step<T>>)
    requires Inv(s)
    ensures Inv(Next(s, p).0)
    ensures Run(s, [p] + rest) == Run(Next(s, p).0, rest)
  {
    NextKeepsInv(s, p);
    assert ([p] + rest)[1..] == rest;
  }
}
