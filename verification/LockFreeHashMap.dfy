/**
 The insert-only hash map of `crates/core/lock_free.rs` under any interleaving of any number
 of inserting and reading threads.  Each bucket load, node visit, link store, compare-exchange
 and counter increment is one atomic step.  `insert` keeps an existing key's value.

 Addresses come from an allocator that may reuse any address not currently live; dereferencing
 an address that is not live is the event `Fault`.
 */
module LockFreeHashMap {
  import opened Wrappers

  type ThreadId = nat
  type Address = nat

  datatype Config<!K> = Config(capacity: nat, hash: K -> nat) {
    ghost predicate Valid() { 0 < capacity }

    function Bucket(key: K): (b: nat)
      requires Valid()
      ensures b < capacity
    {
      hash(key) % capacity
    }
  }

  datatype Node<K, V> = Node(key: K, value: V, hash: nat, next: Option<Address>)

  /** History: who may still write a live node. */
  datatype Owner = Private(thread: ThreadId) | Public

  /**
   Shared memory, plus three history maps: `published` lists each bucket's nodes in the order
   of their compare-exchanges, `contents` is the map they denote, `place` each key's position.
   */
  datatype Memory<K, V> = Memory(
    buckets: seq<Option<Address>>,
    heap: map<Address, Node<K, V>>,
    owner: map<Address, Owner>,
    published: seq<seq<Address>>,
    contents: map<K, V>,
    place: map<K, nat>)

  /** `seen` and `at` are history: publication counts behind the pointers held in locals. */
  datatype Thread<K, V> =
    | Idle
    | InsLoad(key: K, value: V, node: Address)
    | InsWalk(key: K, value: V, node: Address, head: Option<Address>, seen: nat, current: Option<Address>, at: nat)
    | InsLink(key: K, value: V, node: Address, head: Option<Address>, seen: nat)
    | InsCas(key: K, value: V, node: Address, head: Option<Address>, seen: nat)
    | InsCount(key: K)
    | GetLoad(key: K)
    | GetWalk(key: K, seen: nat, current: Option<Address>, at: nat, answer: Option<V>)

  datatype State<K, V> = State(mem: Memory<K, V>, size: nat, threads: map<ThreadId, Thread<K, V>>)

  datatype Call<K, V> = Insert(key: K, value: V) | Get(key: K)

  /** `thread` takes its next step; when idle it starts `call`, allocating at `spare`. */
  datatype Step<K, V> = Step(thread: ThreadId, call: Call<K, V>, spare: Address)

  datatype Event<K, V> =
    | Silent
    | InsertReturns(key: K, result: Option<V>)
    | GetReturns(key: K, result: Option<V>)
    | Fault

  function Lookup<K, V>(m: map<K, V>, k: K): Option<V> {
    if k in m then Some(m[k]) else None
  }

  function ThreadOf<K, V>(s: State<K, V>, t: ThreadId): Thread<K, V> {
    if t in s.threads then s.threads[t] else Idle
  }

  function Goto<K, V>(s: State<K, V>, t: ThreadId, th: Thread<K, V>): State<K, V> {
    s.(threads := s.threads[t := th])
  }

  function Begin<K, V>(cfg: Config<K>, s: State<K, V>, t: ThreadId, call: Call<K, V>, spare: Address): State<K, V> {
    match call
    case Get(key) => Goto(s, t, GetLoad(key))
    case Insert(key, value) =>
      if spare in s.mem.heap then s
      else
        var mem := s.mem.(heap := s.mem.heap[spare := Node(key, value, cfg.hash(key), None)],
                          owner := s.mem.owner[spare := Private(t)]);
        Goto(s.(mem := mem), t, InsLoad(key, value, spare))
  }

  /** Publication by a successful compare-exchange on bucket `b`. */
  function Publish<K, V>(mem: Memory<K, V>, b: nat, node: Address, key: K, value: V): Memory<K, V>
    requires b < |mem.buckets| && b < |mem.published|
  {
    mem.(buckets := mem.buckets[b := Some(node)],
         owner := mem.owner[node := Public],
         published := mem.published[b := mem.published[b] + [node]],
         contents := mem.contents[key := value],
         place := mem.place[key := |mem.published[b]|])
  }

  function Next<K(==), V>(cfg: Config<K>, s: State<K, V>, step: Step<K, V>): (State<K, V>, Event<K, V>)
    requires cfg.Valid() && |s.mem.buckets| == cfg.capacity == |s.mem.published|
  {
    var t, mem := step.thread, s.mem;
    match ThreadOf(s, t)
    case Idle => (Begin(cfg, s, t, step.call, step.spare), Silent)
    case InsLoad(key, value, node) =>
      var b := cfg.Bucket(key);
      var n := |mem.published[b]|;
      (Goto(s, t, InsWalk(key, value, node, mem.buckets[b], n, mem.buckets[b], n)), Silent)
    case InsWalk(key, value, node, head, seen, current, at) =>
      if current.None? then (Goto(s, t, InsLink(key, value, node, head, seen)), Silent)
      else if current.value !in mem.heap then (s, Fault)
      else
        var entry := mem.heap[current.value];
        if entry.hash == cfg.hash(key) && entry.key == key then
          (Goto(s.(mem := mem.(heap := mem.heap - {node}, owner := mem.owner - {node})), t, Idle),
           InsertReturns(key, Some(entry.value)))
        else
          (Goto(s, t, InsWalk(key, value, node, head, seen, entry.next, if at == 0 then 0 else at - 1)), Silent)
    case InsLink(key, value, node, head, seen) =>
      if node !in mem.heap then (s, Fault)
      else
        (Goto(s.(mem := mem.(heap := mem.heap[node := mem.heap[node].(next := head)])), t,
              InsCas(key, value, node, head, seen)), Silent)
    case InsCas(key, value, node, head, seen) =>
      var b := cfg.Bucket(key);
      if mem.buckets[b] == head then
        (Goto(s.(mem := Publish(mem, b, node, key, value)), t, InsCount(key)), Silent)
      else (Goto(s, t, InsLoad(key, value, node)), Silent)
    case InsCount(key) =>
      (Goto(s.(size := s.size + 1), t, Idle), InsertReturns(key, None))
    case GetLoad(key) =>
      var b := cfg.Bucket(key);
      var n := |mem.published[b]|;
      (Goto(s, t, GetWalk(key, n, mem.buckets[b], n, Lookup(mem.contents, key))), Silent)
    case GetWalk(key, seen, current, at, answer) =>
      if current.None? then (Goto(s, t, Idle), GetReturns(key, None))
      else if current.value !in mem.heap then (s, Fault)
      else
        var entry := mem.heap[current.value];
        if entry.hash == cfg.hash(key) && entry.key == key then
          (Goto(s, t, Idle), GetReturns(key, Some(entry.value)))
        else
          (Goto(s, t, GetWalk(key, seen, entry.next, if at == 0 then 0 else at - 1, answer)), Silent)
  }

  function Initial<K, V>(capacity: nat): State<K, V> {
    State(Memory(seq(capacity, _ => None), map[], map[], seq(capacity, _ => []), map[], map[]), 0, map[])
  }

  // ---------------------------------------------------------------- the invariant

  /** The pointer a walk holds when `n` nodes of the bucket remain to be visited. */
  ghost function PointerAt(chain: seq<Address>, n: nat): Option<Address>
    requires n <= |chain|
  {
    if n == 0 then None else Some(chain[n - 1])
  }

  ghost predicate NodeOk<K(!new), V(!new)>(cfg: Config<K>, m: Memory<K, V>, b: nat, i: nat)
    requires cfg.Valid() && b < |m.published| && i < |m.published[b]|
  {
    var a := m.published[b][i];
    && a in m.heap && a in m.owner && m.owner[a] == Public
    && var node := m.heap[a];
    && cfg.Bucket(node.key) == b
    && node.hash == cfg.hash(node.key)
    && node.next == PointerAt(m.published[b], i)
    && node.key in m.place && m.place[node.key] == i
    && Lookup(m.contents, node.key) == Some(node.value)
  }

  ghost predicate KeyOk<K(!new), V(!new)>(cfg: Config<K>, m: Memory<K, V>, k: K)
    requires cfg.Valid() && |m.published| == cfg.capacity && k in m.place
  {
    var chain, i := m.published[cfg.Bucket(k)], m.place[k];
    i < |chain| && chain[i] in m.heap && m.heap[chain[i]].key == k
  }

  ghost predicate MemInv<K(!new), V(!new)>(cfg: Config<K>, m: Memory<K, V>) {
    && cfg.Valid()
    && |m.buckets| == |m.published| == cfg.capacity
    && m.owner.Keys == m.heap.Keys
    && m.contents.Keys == m.place.Keys
    && HeadsOk(m)
    && NodesOk(cfg, m)
    && KeysOk(cfg, m)
  }

  ghost predicate HeadsOk<K(!new), V(!new)>(m: Memory<K, V>)
    requires |m.buckets| == |m.published|
  {
    forall b :: 0 <= b < |m.buckets| ==> m.buckets[b] == PointerAt(m.published[b], |m.published[b]|)
  }

  ghost predicate NodesOk<K(!new), V(!new)>(cfg: Config<K>, m: Memory<K, V>)
    requires cfg.Valid() && |m.published| == cfg.capacity
  {
    forall b, i :: 0 <= b < cfg.capacity && 0 <= i < |m.published[b]| ==> NodeOk(cfg, m, b, i)
  }

  ghost predicate KeysOk<K(!new), V(!new)>(cfg: Config<K>, m: Memory<K, V>)
    requires cfg.Valid() && |m.published| == cfg.capacity
  {
    forall k :: k in m.place ==> KeyOk(cfg, m, k)
  }

  ghost predicate Owns<K(!new), V(!new)>(cfg: Config<K>, m: Memory<K, V>, t: ThreadId, a: Address, k: K, v: V) {
    && a in m.heap && a in m.owner && m.owner[a] == Private(t)
    && m.heap[a].key == k && m.heap[a].value == v && m.heap[a].hash == cfg.hash(k)
  }

  /** No node among the first `n` of the bucket at or beyond position `from` has key `k`. */
  ghost predicate Ruled<K(!new), V(!new)>(m: Memory<K, V>, k: K, from: nat, n: nat) {
    k in m.place ==> m.place[k] < from || n <= m.place[k]
  }

  ghost predicate CursorOk<K(!new), V(!new)>(cfg: Config<K>, m: Memory<K, V>, k: K, seen: nat, current: Option<Address>, at: nat)
    requires cfg.Valid() && |m.published| == cfg.capacity
  {
    var chain := m.published[cfg.Bucket(k)];
    at <= seen <= |chain| && current == PointerAt(chain, at) && Ruled(m, k, at, seen)
  }

  ghost predicate ThreadOk<K(!new), V(!new)>(cfg: Config<K>, m: Memory<K, V>, t: ThreadId, th: Thread<K, V>)
    requires cfg.Valid() && |m.published| == cfg.capacity
  {
    match th
    case Idle => true
    case InsLoad(k, v, node) => Owns(cfg, m, t, node, k, v)
    case InsWalk(k, v, node, head, seen, current, at) =>
      Owns(cfg, m, t, node, k, v) && CursorOk(cfg, m, k, seen, head, seen) && CursorOk(cfg, m, k, seen, current, at)
    case InsLink(k, v, node, head, seen) =>
      Owns(cfg, m, t, node, k, v) && CursorOk(cfg, m, k, seen, head, seen) && Ruled(m, k, 0, seen)
    case InsCas(k, v, node, head, seen) =>
      && Owns(cfg, m, t, node, k, v) && m.heap[node].next == head
      && CursorOk(cfg, m, k, seen, head, seen) && Ruled(m, k, 0, seen)
    case InsCount(k) => k in m.contents
    case GetLoad(_) => true
    case GetWalk(k, seen, current, at, answer) =>
      && CursorOk(cfg, m, k, seen, current, at)
      && answer == (if k in m.place && m.place[k] < seen then Lookup(m.contents, k) else None)
  }

  /** The threads between their compare-exchange and their counter increment. */
  ghost function Counting<K, V>(threads: map<ThreadId, Thread<K, V>>): set<ThreadId> {
    set t | t in threads && threads[t].InsCount?
  }

  ghost predicate Inv<K(!new), V(!new)>(cfg: Config<K>, s: State<K, V>) {
    && MemInv(cfg, s.mem)
    && (forall t :: t in s.threads ==> ThreadOk(cfg, s.mem, t, s.threads[t]))
    && s.size + |Counting(s.threads)| == |s.mem.contents|
  }

  // ---------------------------------------------------------------- preservation

  /** What a step of thread `t` leaves alone: public nodes, other threads' nodes, all history. */
  ghost predicate Stable<K(!new), V(!new)>(m: Memory<K, V>, m': Memory<K, V>, t: ThreadId) {
    && |m'.published| == |m.published|
    && (forall b :: 0 <= b < |m.published| ==> m.published[b] <= m'.published[b])
    && (forall k :: k in m.place ==> k in m'.place && m'.place[k] == m.place[k])
    && (forall k :: k in m.contents ==> k in m'.contents && m'.contents[k] == m.contents[k])
    && (forall a :: a in m.heap && a in m.owner && m.owner[a] != Private(t) ==>
          a in m'.heap && a in m'.owner && m'.heap[a] == m.heap[a] && m'.owner[a] == m.owner[a])
  }

  /** New keys are placed after everything already published in their bucket. */
  ghost predicate Appends<K(!new), V(!new)>(cfg: Config<K>, m: Memory<K, V>, m': Memory<K, V>)
    requires cfg.Valid() && |m.published| == cfg.capacity
  {
    forall k :: k in m'.place && k !in m.place ==> |m.published[cfg.Bucket(k)]| <= m'.place[k]
  }

  lemma OthersStable<K(!new), V(!new)>(cfg: Config<K>, m: Memory<K, V>, m': Memory<K, V>, t: ThreadId, u: ThreadId, th: Thread<K, V>)
    requires MemInv(cfg, m) && |m'.published| == cfg.capacity
    requires Stable(m, m', t) && Appends(cfg, m, m')
    requires ThreadOk(cfg, m, u, th) && (u != t || th.GetWalk?)
    ensures ThreadOk(cfg, m', u, th)
  {
  }

  lemma AllocateKeeps<K(!new), V(!new)>(cfg: Config<K>, m: Memory<K, V>, t: ThreadId, a: Address, node: Node<K, V>)
    requires MemInv(cfg, m) && a !in m.heap
    ensures var m' := m.(heap := m.heap[a := node], owner := m.owner[a := Private(t)]);
            MemInv(cfg, m') && Stable(m, m', t) && Appends(cfg, m, m')
  {
    var m' := m.(heap := m.heap[a := node], owner := m.owner[a := Private(t)]);
    forall b, i | 0 <= b < cfg.capacity && 0 <= i < |m'.published[b]|
      ensures NodeOk(cfg, m', b, i)
    {
      assert NodeOk(cfg, m, b, i);
    }
    forall k | k in m'.place ensures KeyOk(cfg, m', k) { assert KeyOk(cfg, m, k); }
  }

  lemma FreeKeeps<K(!new), V(!new)>(cfg: Config<K>, m: Memory<K, V>, t: ThreadId, a: Address)
    requires MemInv(cfg, m) && a in m.owner && m.owner[a] == Private(t)
    ensures var m' := m.(heap := m.heap - {a}, owner := m.owner - {a});
            MemInv(cfg, m') && Stable(m, m', t) && Appends(cfg, m, m')
  {
    var m' := m.(heap := m.heap - {a}, owner := m.owner - {a});
    forall b, i | 0 <= b < cfg.capacity && 0 <= i < |m'.published[b]|
      ensures NodeOk(cfg, m', b, i)
    {
      assert NodeOk(cfg, m, b, i);
    }
    forall k | k in m'.place ensures KeyOk(cfg, m', k) {
      assert KeyOk(cfg, m, k);
      assert NodeOk(cfg, m, cfg.Bucket(k), m.place[k]);
    }
  }

  lemma LinkKeeps<K(!new), V(!new)>(cfg: Config<K>, m: Memory<K, V>, t: ThreadId, a: Address, head: Option<Address>)
    requires MemInv(cfg, m) && a in m.heap && a in m.owner && m.owner[a] == Private(t)
    ensures var m' := m.(heap := m.heap[a := m.heap[a].(next := head)]);
            MemInv(cfg, m') && Stable(m, m', t) && Appends(cfg, m, m')
  {
    var m' := m.(heap := m.heap[a := m.heap[a].(next := head)]);
    assert m'.heap.Keys == m.heap.Keys;
    forall b, i | 0 <= b < cfg.capacity && 0 <= i < |m'.published[b]|
      ensures NodeOk(cfg, m', b, i)
    {
      assert NodeOk(cfg, m, b, i);
    }
    forall k | k in m'.place ensures KeyOk(cfg, m', k) { assert KeyOk(cfg, m, k); }
  }

  /** A compare-exchange that succeeds saw the whole bucket, so its key is new. */
  lemma CasSawEverything<K(!new), V(!new)>(cfg: Config<K>, m: Memory<K, V>, t: ThreadId, th: Thread<K, V>)
    requires MemInv(cfg, m) && ThreadOk(cfg, m, t, th) && th.InsCas?
    ensures m.buckets[cfg.Bucket(th.key)] == th.head <==> th.seen == |m.published[cfg.Bucket(th.key)]|
    ensures m.buckets[cfg.Bucket(th.key)] == th.head ==> th.key !in m.contents
  {
    var b := cfg.Bucket(th.key);
    var chain := m.published[b];
    if m.buckets[b] == th.head && chain != [] {
      assert NodeOk(cfg, m, b, |chain| - 1);
      assert NodeOk(cfg, m, b, th.seen - 1);
    }
    if th.key in m.place { assert KeyOk(cfg, m, th.key); }
  }

  lemma PublishedNodes<K(!new), V(!new)>(cfg: Config<K>, m: Memory<K, V>, t: ThreadId, th: Thread<K, V>)
    requires MemInv(cfg, m) && ThreadOk(cfg, m, t, th) && th.InsCas?
    requires th.key !in m.contents && th.seen == |m.published[cfg.Bucket(th.key)]|
    ensures NodesOk(cfg, Publish(m, cfg.Bucket(th.key), th.node, th.key, th.value))
  {
    var b := cfg.Bucket(th.key);
    var m' := Publish(m, b, th.node, th.key, th.value);
    forall c, i | 0 <= c < cfg.capacity && 0 <= i < |m'.published[c]|
      ensures NodeOk(cfg, m', c, i)
    {
      if c == b && i == |m.published[b]| {
        assert m'.published[c][i] == th.node;
        assert m'.heap[th.node].next == PointerAt(m'.published[b], i);
      } else {
        assert m'.published[c][i] == m.published[c][i];
        assert NodeOk(cfg, m, c, i);
        assert PointerAt(m'.published[c], i) == PointerAt(m.published[c], i);
      }
    }
  }

  lemma PublishedKeys<K(!new), V(!new)>(cfg: Config<K>, m: Memory<K, V>, t: ThreadId, th: Thread<K, V>)
    requires MemInv(cfg, m) && ThreadOk(cfg, m, t, th) && th.InsCas? && th.key !in m.contents
    ensures KeysOk(cfg, Publish(m, cfg.Bucket(th.key), th.node, th.key, th.value))
  {
    var m' := Publish(m, cfg.Bucket(th.key), th.node, th.key, th.value);
    forall k | k in m'.place ensures KeyOk(cfg, m', k) {
      if k != th.key { assert KeyOk(cfg, m, k); }
    }
  }

  lemma PublishStable<K(!new), V(!new)>(cfg: Config<K>, m: Memory<K, V>, t: ThreadId, th: Thread<K, V>)
    requires cfg.Valid() && |m.published| == |m.buckets| == cfg.capacity && m.contents.Keys == m.place.Keys
    requires ThreadOk(cfg, m, t, th) && th.InsCas? && th.key !in m.contents
    ensures var m' := Publish(m, cfg.Bucket(th.key), th.node, th.key, th.value);
            Stable(m, m', t) && Appends(cfg, m, m') && |m'.contents| == |m.contents| + 1
  {
    var m' := Publish(m, cfg.Bucket(th.key), th.node, th.key, th.value);
    assert m'.contents.Keys == m.contents.Keys + {th.key};
  }

  lemma PublishKeeps<K(!new), V(!new)>(cfg: Config<K>, m: Memory<K, V>, t: ThreadId, th: Thread<K, V>)
    requires MemInv(cfg, m) && ThreadOk(cfg, m, t, th) && th.InsCas?
    requires m.buckets[cfg.Bucket(th.key)] == th.head
    ensures var m' := Publish(m, cfg.Bucket(th.key), th.node, th.key, th.value);
            MemInv(cfg, m') && Stable(m, m', t) && Appends(cfg, m, m') && |m'.contents| == |m.contents| + 1
  {
    CasSawEverything(cfg, m, t, th);
    PublishStable(cfg, m, t, th);
    PublishedNodes(cfg, m, t, th);
    PublishedKeys(cfg, m, t, th);
    PublishedHeads(cfg, m, t, th);
  }

  lemma PublishedHeads<K(!new), V(!new)>(cfg: Config<K>, m: Memory<K, V>, t: ThreadId, th: Thread<K, V>)
    requires MemInv(cfg, m) && ThreadOk(cfg, m, t, th) && th.InsCas?
    ensures var m' := Publish(m, cfg.Bucket(th.key), th.node, th.key, th.value);
            m'.owner.Keys == m'.heap.Keys && m'.contents.Keys == m'.place.Keys && HeadsOk(m')
  {
    assert th.node in m.heap;
  }

  /** One node visit: the entry is live, and it is the key's entry exactly when the keys agree. */
  lemma VisitOk<K(!new), V(!new)>(cfg: Config<K>, m: Memory<K, V>, k: K, seen: nat, current: Option<Address>, at: nat)
    requires MemInv(cfg, m) && CursorOk(cfg, m, k, seen, current, at)
    ensures current.None? ==> at == 0
    ensures current.Some? ==>
              && current.value in m.heap
              && var entry := m.heap[current.value];
              && (entry.key == k ==> entry.hash == cfg.hash(k) && k in m.place && m.place[k] < seen
                                     && Lookup(m.contents, k) == Some(entry.value))
              && (entry.key != k ==> 0 < at && CursorOk(cfg, m, k, seen, entry.next, at - 1))
  {
    if current.Some? {
      assert NodeOk(cfg, m, cfg.Bucket(k), at - 1);
    }
  }

  lemma CountingUpdate<K, V>(threads: map<ThreadId, Thread<K, V>>, t: ThreadId, th: Thread<K, V>)
    ensures Counting(threads[t := th]) ==
            if th.InsCount? then Counting(threads) + {t} else Counting(threads) - {t}
  {
  }

  lemma OtherThreads<K(!new), V(!new)>(cfg: Config<K>, threads: map<ThreadId, Thread<K, V>>, m: Memory<K, V>, m': Memory<K, V>, t: ThreadId, th: Thread<K, V>)
    requires MemInv(cfg, m) && |m'.published| == cfg.capacity && Stable(m, m', t) && Appends(cfg, m, m')
    requires forall u :: u in threads ==> ThreadOk(cfg, m, u, threads[u])
    requires ThreadOk(cfg, m', t, th)
    ensures var threads' := threads[t := th];
            forall u :: u in threads' ==> ThreadOk(cfg, m', u, threads'[u])
  {
    var threads' := threads[t := th];
    forall u | u in threads'
      ensures ThreadOk(cfg, m', u, threads'[u])
    {
      if u != t { OthersStable(cfg, m, m', t, u, threads[u]); }
    }
  }

  lemma OneMember<X>(xs: set<X>, x: X)
    ensures |xs + {x}| == |xs| + if x in xs then 0 else 1
    ensures |xs - {x}| == |xs| - if x in xs then 1 else 0
  {
    if x in xs {
      assert xs + {x} == xs;
    } else {
      assert xs - {x} == xs;
    }
  }

  lemma CountAfter<K, V>(s: State<K, V>, t: ThreadId, th: Thread<K, V>)
    ensures |Counting(s.threads[t := th])| ==
            |Counting(s.threads)| + (if th.InsCount? then 1 else 0) - (if ThreadOf(s, t).InsCount? then 1 else 0)
  {
    CountingUpdate(s.threads, t, th);
    assert t in Counting(s.threads) <==> ThreadOf(s, t).InsCount?;
    OneMember(Counting(s.threads), t);
  }

  /** Thread `t` moves to `th` while memory moves from `s.mem` to `m'`. */
  lemma MoveKeepsInv<K(!new), V(!new)>(cfg: Config<K>, s: State<K, V>, t: ThreadId, m': Memory<K, V>, size': nat, th: Thread<K, V>)
    requires Inv(cfg, s) && MemInv(cfg, m') && Stable(s.mem, m', t) && Appends(cfg, s.mem, m')
    requires ThreadOk(cfg, m', t, th)
    requires size' - s.size + (if th.InsCount? then 1 else 0) - (if ThreadOf(s, t).InsCount? then 1 else 0)
             == |m'.contents| - |s.mem.contents|
    ensures Inv(cfg, Goto(State(m', size', s.threads), t, th))
  {
    OtherThreads(cfg, s.threads, s.mem, m', t, th);
    CountAfter(s, t, th);
  }

  /** Thread `t` moves to `th` without touching memory or the counter. */
  lemma LocalMove<K(!new), V(!new)>(cfg: Config<K>, s: State<K, V>, t: ThreadId, th: Thread<K, V>)
    requires Inv(cfg, s) && ThreadOk(cfg, s.mem, t, th)
    requires th.InsCount? == ThreadOf(s, t).InsCount?
    ensures Inv(cfg, Goto(s, t, th))
  {
    MoveKeepsInv(cfg, s, t, s.mem, s.size, th);
  }

  lemma InitialInv<K(!new), V(!new)>(cfg: Config<K>)
    requires cfg.Valid()
    ensures Inv(cfg, Initial<K, V>(cfg.capacity))
  {
  }

  lemma BeginKeepsInv<K(!new), V(!new)>(cfg: Config<K>, s: State<K, V>, step: Step<K, V>)
    requires Inv(cfg, s) && ThreadOf(s, step.thread).Idle?
    ensures Inv(cfg, Next(cfg, s, step).0)
  {
    var t := step.thread;
    match step.call
    case Get(key) => LocalMove(cfg, s, t, GetLoad(key));
    case Insert(key, value) =>
      if step.spare !in s.mem.heap {
        var node := Node(key, value, cfg.hash(key), None);
        AllocateKeeps(cfg, s.mem, t, step.spare, node);
        var m' := s.mem.(heap := s.mem.heap[step.spare := node], owner := s.mem.owner[step.spare := Private(t)]);
        MoveKeepsInv(cfg, s, t, m', s.size, InsLoad(key, value, step.spare));
      }
  }

  lemma LoadKeepsInv<K(!new), V(!new)>(cfg: Config<K>, s: State<K, V>, step: Step<K, V>)
    requires Inv(cfg, s)
    requires ThreadOf(s, step.thread).InsLoad? || ThreadOf(s, step.thread).GetLoad?
    ensures Inv(cfg, Next(cfg, s, step).0) && !Next(cfg, s, step).1.Fault?
  {
    var t, m := step.thread, s.mem;
    var th := ThreadOf(s, t);
    var b := cfg.Bucket(th.key);
    var n := |m.published[b]|;
    if th.key in m.place { assert KeyOk(cfg, m, th.key); }
    if th.InsLoad? {
      LocalMove(cfg, s, t, InsWalk(th.key, th.value, th.node, m.buckets[b], n, m.buckets[b], n));
    } else {
      LocalMove(cfg, s, t, GetWalk(th.key, n, m.buckets[b], n, Lookup(m.contents, th.key)));
    }
  }

  lemma InsertWalkKeepsInv<K(!new), V(!new)>(cfg: Config<K>, s: State<K, V>, step: Step<K, V>)
    requires Inv(cfg, s) && ThreadOf(s, step.thread).InsWalk?
    ensures Inv(cfg, Next(cfg, s, step).0) && !Next(cfg, s, step).1.Fault?
  {
    var t, m := step.thread, s.mem;
    var InsWalk(key, value, node, head, seen, current, at) := ThreadOf(s, t);
    VisitOk(cfg, m, key, seen, current, at);
    if current.None? {
      LocalMove(cfg, s, t, InsLink(key, value, node, head, seen));
    } else if m.heap[current.value].key == key {
      FreeKeeps(cfg, m, t, node);
      MoveKeepsInv(cfg, s, t, m.(heap := m.heap - {node}, owner := m.owner - {node}), s.size, Idle);
    } else {
      LocalMove(cfg, s, t, InsWalk(key, value, node, head, seen, m.heap[current.value].next, at - 1));
    }
  }

  lemma LinkStepKeepsInv<K(!new), V(!new)>(cfg: Config<K>, s: State<K, V>, step: Step<K, V>)
    requires Inv(cfg, s) && ThreadOf(s, step.thread).InsLink?
    ensures Inv(cfg, Next(cfg, s, step).0) && !Next(cfg, s, step).1.Fault?
  {
    var t, m := step.thread, s.mem;
    var InsLink(key, value, node, head, seen) := ThreadOf(s, t);
    LinkKeeps(cfg, m, t, node, head);
    var m' := m.(heap := m.heap[node := m.heap[node].(next := head)]);
    MoveKeepsInv(cfg, s, t, m', s.size, InsCas(key, value, node, head, seen));
  }

  lemma CommitKeepsInv<K(!new), V(!new)>(cfg: Config<K>, s: State<K, V>, step: Step<K, V>)
    requires Inv(cfg, s)
    requires var th := ThreadOf(s, step.thread); th.InsCas? || th.InsCount?
    ensures Inv(cfg, Next(cfg, s, step).0) && !Next(cfg, s, step).1.Fault?
  {
    var t, m := step.thread, s.mem;
    var th := ThreadOf(s, t);
    if th.InsCount? {
      MoveKeepsInv(cfg, s, t, m, s.size + 1, Idle);
    } else if m.buckets[cfg.Bucket(th.key)] == th.head {
      PublishKeeps(cfg, m, t, th);
      MoveKeepsInv(cfg, s, t, Publish(m, cfg.Bucket(th.key), th.node, th.key, th.value), s.size, InsCount(th.key));
    } else {
      LocalMove(cfg, s, t, InsLoad(th.key, th.value, th.node));
    }
  }

  lemma GetWalkKeepsInv<K(!new), V(!new)>(cfg: Config<K>, s: State<K, V>, step: Step<K, V>)
    requires Inv(cfg, s) && ThreadOf(s, step.thread).GetWalk?
    ensures Inv(cfg, Next(cfg, s, step).0) && !Next(cfg, s, step).1.Fault?
  {
    var t, m := step.thread, s.mem;
    var GetWalk(key, seen, current, at, answer) := ThreadOf(s, t);
    VisitOk(cfg, m, key, seen, current, at);
    if current.Some? && m.heap[current.value].key != key {
      LocalMove(cfg, s, t, GetWalk(key, seen, m.heap[current.value].next, at - 1, answer));
    } else {
      LocalMove(cfg, s, t, Idle);
    }
  }

  /** Every atomic step keeps the invariant and dereferences only live nodes. */
  lemma NextKeepsInv<K(!new), V(!new)>(cfg: Config<K>, s: State<K, V>, step: Step<K, V>)
    requires Inv(cfg, s)
    ensures Inv(cfg, Next(cfg, s, step).0) && !Next(cfg, s, step).1.Fault?
  {
    match ThreadOf(s, step.thread)
    case Idle => BeginKeepsInv(cfg, s, step);
    case InsLoad(_, _, _) => LoadKeepsInv(cfg, s, step);
    case InsWalk(_, _, _, _, _, _, _) => InsertWalkKeepsInv(cfg, s, step);
    case InsLink(_, _, _, _, _) => LinkStepKeepsInv(cfg, s, step);
    case InsCas(_, _, _, _, _) => CommitKeepsInv(cfg, s, step);
    case InsCount(_) => CommitKeepsInv(cfg, s, step);
    case GetLoad(_) => LoadKeepsInv(cfg, s, step);
    case GetWalk(_, _, _, _, _) => GetWalkKeepsInv(cfg, s, step);
  }

  // ---------------------------------------------------------------- what callers observe

  function KeyOf<K(!new), V(!new)>(th: Thread<K, V>): K
    requires th != Idle
  {
    th.key
  }

  /** The map only ever grows: a published value is never replaced. */
  lemma ContentsGrow<K(!new), V(!new)>(cfg: Config<K>, s: State<K, V>, step: Step<K, V>)
    requires Inv(cfg, s)
    ensures var s' := Next(cfg, s, step).0;
            forall k :: k in s.mem.contents ==> k in s'.mem.contents && s'.mem.contents[k] == s.mem.contents[k]
  {
    StepMeaning(cfg, s, step);
  }

  /**
   Linearization.  A `get` answers what the map held when it loaded the bucket.  An `insert`
   that publishes does so on a key the map did not hold; one that returns a value returns
   the map's; and a compare-exchange fails only if another insert into the bucket won.
   */
  lemma StepMeaning<K(!new), V(!new)>(cfg: Config<K>, s: State<K, V>, step: Step<K, V>)
    requires Inv(cfg, s)
    ensures var (s', e) := Next(cfg, s, step); var th := ThreadOf(s, step.thread); var c := s.mem.contents;
            && (e.GetReturns? ==> th.GetWalk? && e.key == th.key && e.result == th.answer)
            && (e.GetReturns? && e.result.Some? ==> Lookup(c, e.key) == e.result)
            && (e.InsertReturns? && e.result.Some? ==> Lookup(c, e.key) == e.result)
            && (e.InsertReturns? && e.result.None? ==> th == InsCount(e.key) && e.key in c)
            && (th.GetLoad? ==> ThreadOf(s', step.thread).answer == Lookup(c, th.key))
            && (s'.mem.contents != c ==>
                  th.InsCas? && th.key !in c && s'.mem.contents == c[th.key := th.value]
                  && ThreadOf(s', step.thread) == InsCount(th.key))
            && (th.InsCas? && ThreadOf(s', step.thread).InsLoad? ==> th.seen < |s.mem.published[cfg.Bucket(th.key)]|)
            // a call ends exactly with its return
            && (th != Idle && ThreadOf(s', step.thread) == Idle ==> e.GetReturns? || e.InsertReturns?)
            && (e.GetReturns? || e.InsertReturns? ==> ThreadOf(s', step.thread) == Idle && th != Idle && e.key == KeyOf(th))
  {
    var th := ThreadOf(s, step.thread);
    if th.InsCas? { CasSawEverything(cfg, s.mem, step.thread, th); }
    if th.GetWalk? { VisitOk(cfg, s.mem, th.key, th.seen, th.current, th.at); }
    if th.InsWalk? { VisitOk(cfg, s.mem, th.key, th.seen, th.current, th.at); }
  }

  // ---------------------------------------------------------------- runs

  function Run<K(!new, ==), V(!new)>(cfg: Config<K>, s: State<K, V>, steps: seq<Step<K, V>>): (r: State<K, V>)
    requires Inv(cfg, s)
    ensures Inv(cfg, r)
    decreases |steps|
  {
    if steps == [] then s
    else
      NextKeepsInv(cfg, s, steps[0]);
      Run(cfg, Next(cfg, s, steps[0]).0, steps[1..])
  }

  function Trace<K(!new, ==), V(!new)>(cfg: Config<K>, s: State<K, V>, steps: seq<Step<K, V>>): (r: seq<Event<K, V>>)
    requires Inv(cfg, s)
    ensures |r| == |steps|
    decreases |steps|
  {
    if steps == [] then []
    else
      NextKeepsInv(cfg, s, steps[0]);
      [Next(cfg, s, steps[0]).1] + Trace(cfg, Next(cfg, s, steps[0]).0, steps[1..])
  }

  /** The thread is not about to report key `k` absent on the strength of an older view of the map. */
  ghost predicate Current<K(!new), V(!new)>(th: Thread<K, V>, k: K) {
    th != InsCount(k) && (th.GetWalk? && th.key == k ==> th.answer != None)
  }

  lemma OneThreadMoves<K(!new), V(!new)>(cfg: Config<K>, s: State<K, V>, step: Step<K, V>)
    requires cfg.Valid() && |s.mem.buckets| == cfg.capacity == |s.mem.published|
    ensures var s' := Next(cfg, s, step).0;
            s' == s || s'.threads == s.threads[step.thread := ThreadOf(s', step.thread)]
  {
  }

  /** A return for key `k`, if `e` is one, carries `v`. */
  ghost predicate Reports<K, V>(e: Event<K, V>, k: K, v: V) {
    (e.GetReturns? || e.InsertReturns?) && e.key == k ==> e.result == Some(v)
  }

  /** A return for key `k`, if `e` is one, carries no other value than `v`. */
  ghost predicate Agrees<K, V>(e: Event<K, V>, k: K, v: V) {
    (e.GetReturns? || e.InsertReturns?) && e.key == k && e.result.Some? ==> e.result == Some(v)
  }

  ghost predicate AllAgree<K(!new), V(!new)>(trace: seq<Event<K, V>>, k: K, v: V) {
    forall i :: 0 <= i < |trace| ==> Agrees(trace[i], k, v)
  }

  /** Every return of thread `t` on key `k` carries `v`. */
  ghost predicate OwnReports<K(!new), V(!new)>(
      steps: seq<Step<K, V>>, trace: seq<Event<K, V>>, k: K, v: V, t: ThreadId)
  {
    |trace| == |steps| && forall i :: 0 <= i < |steps| && steps[i].thread == t ==> Reports(trace[i], k, v)
  }

  /** One event put in front of a trace. */
  lemma ReportsCons<K(!new), V(!new)>(
      steps: seq<Step<K, V>>, e: Event<K, V>, rest: seq<Event<K, V>>, k: K, v: V, t: ThreadId)
    requires steps != []
    ensures OwnReports(steps[1..], rest, k, v, t) && (steps[0].thread == t ==> Reports(e, k, v)) ==>
              OwnReports(steps, [e] + rest, k, v, t)
    ensures Agrees(e, k, v) && AllAgree(rest, k, v) ==> AllAgree([e] + rest, k, v)
  {
    forall i | 0 < i < |steps| ensures steps[i] == steps[1..][i - 1] {}
  }

  lemma StepRespects<K(!new), V(!new)>(cfg: Config<K>, s: State<K, V>, step: Step<K, V>, k: K)
    requires Inv(cfg, s) && k in s.mem.contents && Current(ThreadOf(s, step.thread), k)
    ensures Current(ThreadOf(Next(cfg, s, step).0, step.thread), k)
  {
    var th := ThreadOf(s, step.thread);
    if th.InsCas? { CasSawEverything(cfg, s.mem, step.thread, th); }
  }

  lemma StepKeepsValue<K(!new), V(!new)>(cfg: Config<K>, s: State<K, V>, step: Step<K, V>, k: K, v: V)
    requires Inv(cfg, s) && Lookup(s.mem.contents, k) == Some(v)
    ensures Inv(cfg, Next(cfg, s, step).0) && Lookup(Next(cfg, s, step).0.mem.contents, k) == Some(v)
  {
    NextKeepsInv(cfg, s, step);
    ContentsGrow(cfg, s, step);
  }

  /** One step, seen by thread `t`: once current it stays so, and a current thread's returns carry `v`. */
  lemma StepReports<K(!new), V(!new)>(cfg: Config<K>, s: State<K, V>, step: Step<K, V>, k: K, v: V, t: ThreadId)
    requires Inv(cfg, s) && Lookup(s.mem.contents, k) == Some(v)
    ensures var (s', e) := Next(cfg, s, step);
            && Agrees(e, k, v)
            && (Current(ThreadOf(s, t), k) ==> Current(ThreadOf(s', t), k) && (step.thread == t ==> Reports(e, k, v)))
            && (step.thread == t && e != Silent && e != Fault ==> Current(ThreadOf(s', t), k))
  {
    OneThreadMoves(cfg, s, step);
    StepMeaning(cfg, s, step);
    if step.thread == t && Current(ThreadOf(s, t), k) { StepRespects(cfg, s, step, k); }
  }

  /**
   The first published value wins.  From any moment at which `k` holds `v`, in any interleaving: no
   return of anybody carries another value, and every return on `k` of a thread that was not already
   answering from before the publication carries `v`, whoever else is still in flight.
   */
  lemma {:induction false} FirstValueWins<K(!new), V(!new)>(
      cfg: Config<K>, s: State<K, V>, steps: seq<Step<K, V>>, k: K, v: V, t: ThreadId)
    requires Inv(cfg, s) && Lookup(s.mem.contents, k) == Some(v)
    ensures Lookup(Run(cfg, s, steps).mem.contents, k) == Some(v)
    ensures AllAgree(Trace(cfg, s, steps), k, v)
    ensures Current(ThreadOf(s, t), k) ==> OwnReports(steps, Trace(cfg, s, steps), k, v, t)
    decreases |steps|
  {
    if steps != [] {
      StepKeepsValue(cfg, s, steps[0], k, v);
      StepReports(cfg, s, steps[0], k, v, t);
      var (s', e) := Next(cfg, s, steps[0]);
      FirstValueWins(cfg, s', steps[1..], k, v, t);
      ReportsCons(steps, e, Trace(cfg, s', steps[1..]), k, v, t);
    }
  }

  /**
   With no hypothesis on any thread: after a moment at which `k` holds `v`, only a call already under
   way can miss it. Once a thread has returned from a call, by `step` here, all its later returns on
   `k` carry `v`, in every continuation.
   */
  lemma LaterCallsAgree<K(!new), V(!new)>(
      cfg: Config<K>, s: State<K, V>, before: seq<Step<K, V>>, step: Step<K, V>, rest: seq<Step<K, V>>, k: K, v: V)
    requires Inv(cfg, s) && Lookup(s.mem.contents, k) == Some(v)
    ensures var (s', e) := Next(cfg, Run(cfg, s, before), step);
            Inv(cfg, s') && (e != Silent ==> OwnReports(rest, Trace(cfg, s', rest), k, v, step.thread))
  {
    var middle := Run(cfg, s, before);
    FirstValueWins(cfg, s, before, k, v, step.thread);
    AfterReturn(cfg, middle, step, rest, k, v);
  }

  lemma AfterReturn<K(!new), V(!new)>(
      cfg: Config<K>, s: State<K, V>, step: Step<K, V>, rest: seq<Step<K, V>>, k: K, v: V)
    requires Inv(cfg, s) && Lookup(s.mem.contents, k) == Some(v)
    ensures var (s', e) := Next(cfg, s, step);
            Inv(cfg, s') && (e != Silent ==> OwnReports(rest, Trace(cfg, s', rest), k, v, step.thread))
  {
    NextKeepsInv(cfg, s, step);
    StepKeepsValue(cfg, s, step, k, v);
    StepReports(cfg, s, step, k, v, step.thread);
    FirstValueWins(cfg, Next(cfg, s, step).0, rest, k, v, step.thread);
  }

  /** Once no older answer is in flight at all, every return on `k` carries `v`. */
  lemma EveryReturnAgrees<K(!new), V(!new)>(cfg: Config<K>, s: State<K, V>, steps: seq<Step<K, V>>, k: K, v: V)
    requires Inv(cfg, s) && Lookup(s.mem.contents, k) == Some(v)
    requires forall t :: t in s.threads ==> Current(s.threads[t], k)
    ensures forall e :: e in Trace(cfg, s, steps) ==> Reports(e, k, v)
  {
    forall t ensures OwnReports(steps, Trace(cfg, s, steps), k, v, t) {
      assert Current(ThreadOf(s, t), k);
      FirstValueWins(cfg, s, steps, k, v, t);
    }
    AllThreadsReport(steps, Trace(cfg, s, steps), k, v);
  }

  lemma AllThreadsReport<K(!new), V(!new)>(steps: seq<Step<K, V>>, trace: seq<Event<K, V>>, k: K, v: V)
    requires |trace| == |steps| && forall t :: OwnReports(steps, trace, k, v, t)
    ensures forall e :: e in trace ==> Reports(e, k, v)
  {
    forall i | 0 <= i < |trace| ensures Reports(trace[i], k, v) {
      assert OwnReports(steps, trace, k, v, steps[i].thread);
    }
  }

  /** The i-th entry published in bucket `b`. */
  ghost predicate IsEntry<K, V>(m: Memory<K, V>, b: int, i: int) {
    0 <= b < |m.published| && 0 <= i < |m.published[b]| && m.published[b][i] in m.heap
  }

  ghost function EntryKey<K, V>(m: Memory<K, V>, b: int, i: int): K
    requires IsEntry(m, b, i)
  {
    m.heap[m.published[b][i]].key
  }

  /**
   In every interleaving from the empty map: no dead node is dereferenced, no key has two
   entries, and `len` is the number of keys unless an insert is between its compare-exchange
   and its increment, when it is smaller by the number of such inserts.
   */
  lemma {:induction false} MapSafety<K(!new), V(!new)>(cfg: Config<K>, steps: seq<Step<K, V>>)
    requires cfg.Valid()
    ensures Inv(cfg, Initial<K, V>(cfg.capacity))
    ensures Event.Fault !in Trace(cfg, Initial<K, V>(cfg.capacity), steps)
    ensures var s := Run(cfg, Initial<K, V>(cfg.capacity), steps); var m := s.mem;
            && s.size + |Counting(s.threads)| == |m.contents|
            && (Counting(s.threads) == {} ==> s.size == |m.contents|)
            && (forall b, i, c, j :: IsEntry(m, b, i) && IsEntry(m, c, j) && EntryKey(m, b, i) == EntryKey(m, c, j)
                                     ==> b == c && i == j)
  {
    InitialInv<K, V>(cfg);
    NeverFaults(cfg, Initial<K, V>(cfg.capacity), steps);
    var m := Run(cfg, Initial<K, V>(cfg.capacity), steps).mem;
    forall b, i, c, j | IsEntry(m, b, i) && IsEntry(m, c, j) && EntryKey(m, b, i) == EntryKey(m, c, j)
      ensures b == c && i == j
    {
      assert NodeOk(cfg, m, b, i) && NodeOk(cfg, m, c, j);
    }
  }

  lemma {:induction false} NeverFaults<K(!new), V(!new)>(cfg: Config<K>, s: State<K, V>, steps: seq<Step<K, V>>)
    requires Inv(cfg, s)
    ensures Event.Fault !in Trace(cfg, s, steps)
    decreases |steps|
  {
    if steps != [] {
      NextKeepsInv(cfg, s, steps[0]);
      NeverFaults(cfg, Next(cfg, s, steps[0]).0, steps[1..]);
    }
  }

  // ---------------------------------------------------------------- the map object

  /**
   The map as one caller uses it; with nobody else about, the compare-exchange succeeds at once.
   `mem` is the memory of the protocol above, kept in step with the real fields.
   */
  class LockFreeHashMap<K(!new, ==), V(!new)> {
    const config: Config<K>
    const buckets: array<Option<Address>>
    var heap: map<Address, Node<K, V>>
    var size: nat
    ghost var mem: Memory<K, V>

    ghost predicate Valid()
      reads this, buckets
    {
      MemInv(config, mem) && mem.buckets == buckets[..] && mem.heap == heap && size == |mem.contents|
    }

    constructor (config: Config<K>)
      requires config.Valid()
      ensures Valid() && fresh(buckets) && this.config == config && mem.contents == map[] && heap == map[]
    {
      this.config := config;
      buckets := new Option<Address>[config.capacity](_ => None);
      heap, size := map[], 0;
      mem := Initial<K, V>(config.capacity).mem;
      new;
      assert mem.buckets == buckets[..];
      InitialInv<K, V>(config);
    }

    /** The chain walk shared by `insert` and `get`. */
    method Find(key: K) returns (found: Option<V>)
      requires Valid()
      ensures found == Lookup(mem.contents, key)
    {
      var hash, b := config.hash(key), config.Bucket(key);
      var current := buckets[b];
      ghost var seen: nat := |mem.published[b]|;
      ghost var at: nat := seen;
      if key in mem.place { assert KeyOk(config, mem, key); }
      while current.Some?
        invariant CursorOk(config, mem, key, seen, current, at)
        decreases at
      {
        VisitOk(config, mem, key, seen, current, at);
        var entry := heap[current.value];
        if entry.hash == hash && entry.key == key {
          return Some(entry.value);
        }
        current, at := entry.next, at - 1;
      }
      found := None;
      VisitOk(config, mem, key, seen, current, at);
    }

    method Get(key: K) returns (r: Option<V>)
      requires Valid()
      ensures r == Lookup(mem.contents, key)
    {
      r := Find(key);
    }

    /** Put-if-absent: an existing key keeps its value, and the node made for it is freed again. */
    method Insert(key: K, value: V, spare: Address) returns (r: Option<V>)
      requires Valid() && spare !in heap
      modifies this, buckets
      ensures Valid()
      ensures r == Lookup(old(mem.contents), key)
      ensures mem.contents == if r.Some? then old(mem.contents) else old(mem.contents)[key := value]
    {
      Allocate(key, value, spare);
      r := Find(key);
      if r.Some? {
        Free(spare);
      } else {
        Link(key, value, spare);
        Exchange(key, value, spare);
      }
    }

    method Allocate(key: K, value: V, spare: Address)
      requires Valid() && spare !in heap
      modifies this`heap, this`mem
      ensures Valid() && mem.contents == old(mem.contents) && Owns(config, mem, 0, spare, key, value)
    {
      var node := Node(key, value, config.hash(key), None);
      AllocateKeeps(config, mem, 0, spare, node);
      mem := mem.(heap := mem.heap[spare := node], owner := mem.owner[spare := Private(0)]);
      heap := heap[spare := node];
    }

    method Free(node: Address)
      requires Valid() && node in mem.owner && mem.owner[node] == Private(0)
      modifies this`heap, this`mem
      ensures Valid() && mem.contents == old(mem.contents) && heap == old(heap) - {node}
    {
      FreeKeeps(config, mem, 0, node);
      heap := heap - {node};
      mem := mem.(heap := heap, owner := mem.owner - {node});
    }

    /** The new node's link store, before it is published. */
    method Link(key: K, value: V, node: Address)
      requires Valid() && Owns(config, mem, 0, node, key, value)
      modifies this`heap, this`mem
      ensures Valid() && mem.contents == old(mem.contents) && Owns(config, mem, 0, node, key, value)
      ensures heap[node].next == buckets[config.Bucket(key)]
    {
      var head := buckets[config.Bucket(key)];
      LinkKeeps(config, mem, 0, node, head);
      mem := mem.(heap := mem.heap[node := mem.heap[node].(next := head)]);
      heap := heap[node := heap[node].(next := head)];
    }

    /** The compare-exchange that publishes the node at the head of its bucket, then the count. */
    method Exchange(key: K, value: V, node: Address)
      requires Valid() && Owns(config, mem, 0, node, key, value)
      requires heap[node].next == buckets[config.Bucket(key)] && key !in mem.contents
      modifies this`mem, this`size, buckets
      ensures Valid() && mem.contents == old(mem.contents)[key := value]
    {
      var b := config.Bucket(key);
      PublishKeeps(config, mem, 0, InsCas(key, value, node, buckets[b], |mem.published[b]|));
      mem := Publish(mem, b, node, key, value);
      buckets[b] := Some(node);
      assert mem.buckets == buckets[..];
      size := size + 1;
    }

    method Len() returns (n: nat)
      requires Valid()
      ensures n == |mem.contents|
    {
      n := size;
    }
  }
}
