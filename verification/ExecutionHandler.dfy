/**
 The multi-tenant handler of `crates/executionhandler/src/multi_tenant.rs`: registration,
 credential loading, submission and the batch loop.  Calls are sequential.  The exchange's
 answers, the credential provider, the connector builder and the clock are parameters, and
 the tenant map is enumerated in any order.
 */
module ExecutionHandler {
  import opened Wrappers
  import opened MapSums
  import opened Tiers
  import Scheduling = FairScheduler
  import Limiting = RateLimiter

  datatype Credential = Credential(id: nat, exchange: string, enabled: bool)

  datatype Connector = Connector(credential: Credential)

  datatype Order = Order(id: nat, exchange: string, priority: nat)

  datatype Error = NotRegistered | NotActive | RateLimited | NoProvider | ProviderFailed

  type Response = Result<seq<Credential>, Error>

  datatype Context = Context(
    tier: Tier,
    connectors: map<string, Connector>,
    queue: seq<Order>,
    timestamps: seq<nat>,
    active: bool,
    totalOrders: nat,
    rejectedOrders: nat)

  /** An order taken from a queue, the connector found for it and the exchange's answer. */
  datatype Taken = Taken(tenant: TenantId, order: Order, connector: Option<Connector>, filled: bool)

  datatype Execution = Execution(tenant: TenantId, order: Order)

  function NewContext(tier: Tier): Context {
    Context(tier, map[], [], [], true, 0, 0)
  }

  function QueueLengths(tenants: map<TenantId, Context>): map<TenantId, nat> {
    map t | t in tenants :: |tenants[t].queue|
  }

  ghost function Pending(tenants: map<TenantId, Context>): nat {
    Sum(QueueLengths(tenants))
  }

  /** The orders of tenant `t` in the order they were taken. */
  function OrdersOf(log: seq<Taken>, t: TenantId): seq<Order> {
    if log == [] then []
    else
      var n := |log| - 1;
      OrdersOf(log[..n], t) + if log[n].tenant == t then [log[n].order] else []
  }

  /** How many orders of tenant `t` were executed. */
  function ExecutedFor(log: seq<Taken>, t: TenantId): nat {
    if log == [] then 0
    else
      var n := |log| - 1;
      ExecutedFor(log[..n], t) + if log[n].tenant == t && log[n].filled then 1 else 0
  }

  function Executions(log: seq<Taken>): seq<Execution> {
    if log == [] then []
    else
      var n := |log| - 1;
      Executions(log[..n]) + if log[n].filled then [Execution(log[n].tenant, log[n].order)] else []
  }

  // ---------------------------------------------------------------- connectors

  /** `add_exchange_with`: refused at the tier's limit or when the build fails. */
  function AddExchange(ctx: Context, c: Credential, builds: Credential -> bool): (Context, bool) {
    if |ctx.connectors| >= ctx.tier.MaxExchanges() || !builds(c) then (ctx, false)
    else (ctx.(connectors := ctx.connectors[c.exchange := Connector(c)]), true)
  }

  function AddAll(ctx: Context, creds: seq<Credential>, builds: Credential -> bool): (Context, nat) {
    if creds == [] then (ctx, 0)
    else
      var n := |creds| - 1;
      var (before, loaded) := AddAll(ctx, creds[..n], builds);
      var (after, ok) := AddExchange(before, creds[n], builds);
      (after, if ok then loaded + 1 else loaded)
  }

  /** `resolve_all_credentials`: one disabled credential refuses the whole answer. */
  function Resolve(answer: Response): (r: Response)
    ensures r.Ok? <==> answer.Ok? && forall c :: c in answer.value ==> c.enabled
    ensures r.Ok? ==> r == answer
  {
    if answer.Ok? && exists c :: c in answer.value && !c.enabled then Err(ProviderFailed) else answer
  }

  /** With room for all of them, every credential that builds is counted. */
  lemma {:induction false} LoadsCount(ctx: Context, creds: seq<Credential>, builds: Credential -> bool)
    requires |ctx.connectors| + |creds| <= ctx.tier.MaxExchanges()
    ensures var (after, loaded) := AddAll(ctx, creds, builds);
            && loaded == Buildable(creds, builds) && |after.connectors| <= |ctx.connectors| + |creds|
            && after.tier == ctx.tier
  {
    if creds != [] {
      var n := |creds| - 1;
      LoadsCount(ctx, creds[..n], builds);
      var before, after := AddAll(ctx, creds[..n], builds).0, AddAll(ctx, creds, builds).0;
      assert after.connectors.Keys <= before.connectors.Keys + {creds[n].exchange};
    }
  }

  /** The last credential for an exchange that builds is the one in use. */
  lemma {:induction false} LoadsLast(ctx: Context, creds: seq<Credential>, builds: Credential -> bool, i: nat)
    requires |ctx.connectors| + |creds| <= ctx.tier.MaxExchanges() && i < |creds| && LastFor(creds, builds, i)
    ensures var after := AddAll(ctx, creds, builds).0; var ex := creds[i].exchange;
            ex in after.connectors && after.connectors[ex] == Connector(creds[i])
  {
    var n := |creds| - 1;
    var init := creds[..n];
    LoadsCount(ctx, init, builds);
    if i < n {
      assert forall j :: i < j < n ==> init[j] == creds[j];
      LoadsLast(ctx, init, builds, i);
    }
  }

  /** With room for all of them, every credential that builds is loaded, a later one for the same exchange winning. */
  lemma AddAllLoads(ctx: Context, creds: seq<Credential>, builds: Credential -> bool)
    requires |ctx.connectors| + |creds| <= ctx.tier.MaxExchanges()
    ensures AddAll(ctx, creds, builds).1 == Buildable(creds, builds)
    ensures var after := AddAll(ctx, creds, builds).0;
            forall i :: 0 <= i < |creds| && LastFor(creds, builds, i) ==>
              creds[i].exchange in after.connectors && after.connectors[creds[i].exchange] == Connector(creds[i])
  {
    LoadsCount(ctx, creds, builds);
    forall i | 0 <= i < |creds| && LastFor(creds, builds, i)
      ensures var after := AddAll(ctx, creds, builds).0;
              creds[i].exchange in after.connectors && after.connectors[creds[i].exchange] == Connector(creds[i])
    {
      LoadsLast(ctx, creds, builds, i);
    }
  }

  /** Credential `i` builds and no later one for its exchange does. */
  ghost predicate LastFor(creds: seq<Credential>, builds: Credential -> bool, i: nat)
    requires i < |creds|
  {
    builds(creds[i]) && forall j :: i < j < |creds| && creds[j].exchange == creds[i].exchange ==> !builds(creds[j])
  }

  function Buildable(creds: seq<Credential>, builds: Credential -> bool): nat {
    if creds == [] then 0 else Buildable(creds[..|creds| - 1], builds) + if builds(creds[|creds| - 1]) then 1 else 0
  }

  /** At the tier's limit nothing is loaded, whatever is already there. */
  lemma {:induction false} FullLoadsNothing(ctx: Context, creds: seq<Credential>, builds: Credential -> bool)
    requires |ctx.connectors| >= ctx.tier.MaxExchanges()
    ensures AddAll(ctx, creds, builds) == (ctx, 0)
  {
    if creds != [] { FullLoadsNothing(ctx, creds[..|creds| - 1], builds); }
  }

  /** Every connector is filed under its exchange and comes from the old map or from `creds`. */
  lemma {:induction false} AddAllProvenance(ctx: Context, creds: seq<Credential>, builds: Credential -> bool)
    ensures var after := AddAll(ctx, creds, builds).0;
            && after == ctx.(connectors := after.connectors)
            && (|ctx.connectors| <= ctx.tier.MaxExchanges() ==> |after.connectors| <= ctx.tier.MaxExchanges())
            && forall ex :: ex in after.connectors ==>
                 || (ex in ctx.connectors && after.connectors[ex] == ctx.connectors[ex])
                 || (after.connectors[ex].credential in creds && after.connectors[ex].credential.exchange == ex)
  {
    if creds != [] {
      var n := |creds| - 1;
      AddAllProvenance(ctx, creds[..n], builds);
      var before := AddAll(ctx, creds[..n], builds).0;
      var after := AddAll(ctx, creds, builds).0;
      assert after.connectors.Keys <= before.connectors.Keys + {creds[n].exchange};
      assert forall c :: c in creds[..n] ==> c in creds;
    }
  }

  // ---------------------------------------------------------------- accounting lemmas

  lemma PendingUpdate(tenants: map<TenantId, Context>, t: TenantId, ctx: Context)
    ensures Pending(tenants[t := ctx]) ==
            Pending(tenants) - (if t in tenants then |tenants[t].queue| else 0) + |ctx.queue|
  {
    assert QueueLengths(tenants[t := ctx]) == QueueLengths(tenants)[t := |ctx.queue|];
    SumUpdate(QueueLengths(tenants), t, |ctx.queue|);
    if t !in tenants { assert QueueLengths(tenants) - {t} == QueueLengths(tenants); }
  }

  lemma PendingRemove(tenants: map<TenantId, Context>, t: TenantId)
    ensures Pending(tenants - {t}) == Pending(tenants) - if t in tenants then |tenants[t].queue| else 0
  {
    assert QueueLengths(tenants - {t}) == QueueLengths(tenants) - {t};
    if t in tenants { SumSplit(QueueLengths(tenants), t); }
    else { assert QueueLengths(tenants) - {t} == QueueLengths(tenants); }
  }

  lemma PendingZero(tenants: map<TenantId, Context>)
    ensures Pending(tenants) == 0 <==> forall t :: t in tenants ==> tenants[t].queue == []
  {
    SumZero(QueueLengths(tenants));
    assert forall t :: t in tenants ==> t in QueueLengths(tenants);
  }

  /** A non-empty list of registered tenants is always served, and by one of them. */
  lemma SelectServes(s: Scheduling.Ledger, list: seq<TenantId>)
    requires Scheduling.Registered(s) && list != []
    requires forall t :: t in list ==> t in s.weights
    ensures Scheduling.Select(s, list).0.Some? && Scheduling.Select(s, list).0.value in list
  {
    Scheduling.BestIsMaximum(s.credits, list);
    Scheduling.BestIsMaximum(Scheduling.Replenish(s).credits, list);
    assert list[0] in list;
  }

  // ---------------------------------------------------------------- isolation

  /** Tenant `t`'s connectors all come from credentials resolved for `t`. */
  ghost predicate Isolated(tenants: map<TenantId, Context>, resolved: set<(TenantId, Credential)>) {
    forall t, ex :: t in tenants && ex in tenants[t].connectors ==>
      && (t, tenants[t].connectors[ex].credential) in resolved
      && tenants[t].connectors[ex].credential.enabled
      && tenants[t].connectors[ex].credential.exchange == ex
  }

  /** Whatever a provider answers for tenant `t`, loading what is resolved from it keeps the tenants apart. */
  lemma LoadKeepsIsolated(tenants: map<TenantId, Context>, t: TenantId, answer: Response,
                          builds: Credential -> bool, resolved: set<(TenantId, Credential)>)
    requires t in tenants && Isolated(tenants, resolved) && Resolve(answer).Ok?
    ensures var creds := Resolve(answer).value;
            var tenants' := tenants[t := AddAll(tenants[t], creds, builds).0];
            Isolated(tenants', resolved + set c | c in creds :: (t, c)) && Pending(tenants') == Pending(tenants)
  {
    var creds := Resolve(answer).value;
    AddAllProvenance(tenants[t], creds, builds);
    PendingUpdate(tenants, t, AddAll(tenants[t], creds, builds).0);
  }

  // ---------------------------------------------------------------- rate limits over whole runs

  /**
   Each context's deque is what the limiter has made of all submissions to it, and the accepted times
   on record are those it accepted.
   */
  ghost predicate Limited(
      tenants: map<TenantId, Context>, submissions: map<TenantId, seq<nat>>, times: map<TenantId, seq<nat>>)
  {
    && tenants.Keys == submissions.Keys == times.Keys
    && forall t :: t in tenants ==> ContextLimited(tenants[t], submissions[t], times[t])
  }

  ghost predicate ContextLimited(ctx: Context, nows: seq<nat>, times: seq<nat>) {
    Limiting.Run(ctx.tier.OrdersPerMinute(), nows) == Limiting.History(ctx.timestamps, times)
  }

  /** One more submission: the limiter's verdict, the deque and the accepted times go together. */
  lemma SubmissionLimited(ctx: Context, nows: seq<nat>, times: seq<nat>, now: nat)
    requires ContextLimited(ctx, nows, times)
    ensures var (ok, timestamps) := Limiting.Check(ctx.timestamps, ctx.tier.OrdersPerMinute(), now);
            ContextLimited(ctx.(timestamps := timestamps), nows + [now], if ok then times + [now] else times)
  {
    assert (nows + [now])[..|nows|] == nows;
  }

  // ---------------------------------------------------------------- the books

  /**
   Everything the handler answers for: `accepted` counts queued submissions, `discarded` the orders
   dropped with their context, `resolved` the credentials handed out for each tenant, `submissions`
   when orders were submitted to each context and `times` when they were accepted; `queued` are the
   orders accepted for each context and `taken` those taken from its queue, in order.
   */
  datatype Books = Books(
    tenants: map<TenantId, Context>, processed: nat, rejected: nat, accepted: nat, discarded: nat,
    resolved: set<(TenantId, Credential)>, submissions: map<TenantId, seq<nat>>, times: map<TenantId, seq<nat>>,
    queued: map<TenantId, seq<Order>>, taken: map<TenantId, seq<Order>>)

  /** First in, first out: what was accepted is what was taken followed by what still waits. */
  ghost predicate Fifo(b: Books) {
    && b.tenants.Keys == b.queued.Keys == b.taken.Keys
    && forall t :: t in b.tenants ==> b.queued[t] == b.taken[t] + b.tenants[t].queue
  }

  /** Conservation of orders, isolation of credentials, and what the limiters know. */
  ghost predicate Balanced(b: Books) {
    && b.processed + b.rejected + Pending(b.tenants) + b.discarded == b.accepted
    && Isolated(b.tenants, b.resolved)
    && Limited(b.tenants, b.submissions, b.times)
    && Fifo(b)
  }

  /**
   The rate limit, whatever calls led to these books: with a non-decreasing clock no closed interval of
   60000 ms, wherever it starts, holds more orders accepted for a tenant than its tier allows.
   */
  lemma TenantWindowBounded(b: Books, t: TenantId, lo: nat)
    requires Balanced(b) && t in b.tenants && Limiting.Clock(b.submissions[t])
    ensures Limiting.CountIn(b.times[t], lo, lo + Limiting.WINDOW_MS) <= b.tenants[t].tier.OrdersPerMinute()
  {
    assert ContextLimited(b.tenants[t], b.submissions[t], b.times[t]);
    Limiting.NoWindowOverLimit(b.tenants[t].tier.OrdersPerMinute(), b.submissions[t], lo);
  }

  /** Books with nothing in them. */
  ghost predicate Blank(b: Books) {
    && b.tenants.Keys == {} && b.submissions.Keys == {} && b.times.Keys == {}
    && b.queued.Keys == {} && b.taken.Keys == {}
    && b.processed == 0 && b.rejected == 0 && b.accepted == 0 && b.discarded == 0
  }

  lemma BlankBalanced(b: Books)
    requires Blank(b)
    ensures Balanced(b)
  {
    PendingZero(b.tenants);
  }

  function Waiting(tenants: map<TenantId, Context>, t: TenantId): nat {
    if t in tenants then |tenants[t].queue| else 0
  }

  function Registered(b: Books, t: TenantId, tier: Tier): Books {
    b.(tenants := b.tenants[t := NewContext(tier)], discarded := b.discarded + Waiting(b.tenants, t),
       submissions := b.submissions[t := []], times := b.times[t := []],
       queued := b.queued[t := []], taken := b.taken[t := []])
  }

  lemma RegisterBalanced(b: Books, t: TenantId, tier: Tier)
    requires Balanced(b)
    ensures Balanced(Registered(b, t, tier))
  {
    PendingUpdate(b.tenants, t, NewContext(tier));
  }

  function Unregistered(b: Books, t: TenantId): Books {
    b.(tenants := b.tenants - {t}, discarded := b.discarded + Waiting(b.tenants, t),
       submissions := b.submissions - {t}, times := b.times - {t},
       queued := b.queued - {t}, taken := b.taken - {t})
  }

  lemma UnregisterBalanced(b: Books, t: TenantId)
    requires Balanced(b)
    ensures Balanced(Unregistered(b, t))
  {
    PendingRemove(b.tenants, t);
  }

  function Loaded(b: Books, t: TenantId, creds: seq<Credential>, builds: Credential -> bool): Books
    requires t in b.tenants
  {
    b.(tenants := b.tenants[t := AddAll(b.tenants[t], creds, builds).0],
       resolved := b.resolved + set c | c in creds :: (t, c))
  }

  lemma LoadBalanced(b: Books, t: TenantId, answer: Response, builds: Credential -> bool)
    requires Balanced(b) && t in b.tenants && Resolve(answer).Ok?
    ensures Balanced(Loaded(b, t, Resolve(answer).value, builds))
  {
    LoadKeepsIsolated(b.tenants, t, answer, builds, b.resolved);
    AddAllProvenance(b.tenants[t], Resolve(answer).value, builds);
  }

  /** A submission to an active context: the limiter's verdict and the context after it. */
  function Submit(ctx: Context, order: Order, now: nat): (bool, Context) {
    var (ok, timestamps) := Limiting.Check(ctx.timestamps, ctx.tier.OrdersPerMinute(), now);
    (ok, if ok then ctx.(timestamps := timestamps, queue := ctx.queue + [order])
         else ctx.(timestamps := timestamps, rejectedOrders := ctx.rejectedOrders + 1))
  }

  function Submitted(b: Books, t: TenantId, order: Order, now: nat): Books
    requires t in b.tenants && t in b.submissions && t in b.times && t in b.queued
  {
    var (ok, ctx) := Submit(b.tenants[t], order, now);
    b.(tenants := b.tenants[t := ctx], accepted := if ok then b.accepted + 1 else b.accepted,
       submissions := b.submissions[t := b.submissions[t] + [now]],
       times := if ok then b.times[t := b.times[t] + [now]] else b.times,
       queued := if ok then b.queued[t := b.queued[t] + [order]] else b.queued)
  }

  lemma SubmitKeepsFifo(b: Books, t: TenantId, order: Order, now: nat)
    requires Fifo(b) && t in b.tenants && t in b.submissions && t in b.times
    ensures Fifo(Submitted(b, t, order, now))
  {
    var (ok, ctx) := Submit(b.tenants[t], order, now);
    if ok { assert b.taken[t] + (b.tenants[t].queue + [order]) == (b.taken[t] + b.tenants[t].queue) + [order]; }
  }

  lemma SubmitBalanced(b: Books, t: TenantId, order: Order, now: nat)
    requires Balanced(b) && t in b.tenants
    ensures t in b.submissions && t in b.times && t in b.queued && Balanced(Submitted(b, t, order, now))
  {
    SubmitKeepsFifo(b, t, order, now);
    SubmitKeepsLimits(b, t, order, now);
    SubmitKeepsCounts(b, t, order, now);
  }

  lemma SubmitKeepsLimits(b: Books, t: TenantId, order: Order, now: nat)
    requires Limited(b.tenants, b.submissions, b.times) && t in b.tenants && t in b.queued
    ensures var b' := Submitted(b, t, order, now); Limited(b'.tenants, b'.submissions, b'.times)
  {
    SubmissionLimited(b.tenants[t], b.submissions[t], b.times[t], now);
  }

  lemma SubmitKeepsCounts(b: Books, t: TenantId, order: Order, now: nat)
    requires t in b.tenants && t in b.submissions && t in b.times && t in b.queued
    requires Isolated(b.tenants, b.resolved)
    ensures var b' := Submitted(b, t, order, now);
            && Isolated(b'.tenants, b'.resolved)
            && Pending(b'.tenants) - Pending(b.tenants) == b'.accepted - b.accepted
  {
    var ctx := Submit(b.tenants[t], order, now).1;
    PendingUpdate(b.tenants, t, ctx);
    assert ctx.connectors == b.tenants[t].connectors;
  }

  /** With a non-decreasing clock a submission is accepted exactly while the tenant's window has room. */
  lemma AcceptedIff(b: Books, t: TenantId, order: Order, now: nat)
    requires Balanced(b) && t in b.tenants && Limiting.Clock(b.submissions[t] + [now])
    ensures Submit(b.tenants[t], order, now).0 <==>
            Limiting.CountIn(b.times[t], Limiting.WindowStart(now), now) < b.tenants[t].tier.OrdersPerMinute()
  {
    var nows := b.submissions[t] + [now];
    assert ContextLimited(b.tenants[t], b.submissions[t], b.times[t]);
    assert nows[..|nows| - 1] == b.submissions[t];
    Limiting.LimiterIsNaive(b.tenants[t].tier.OrdersPerMinute(), nows);
  }

  /** A tenant just registered gets its first order queued, and nothing else is in the queue. */
  lemma NewTenantServed(b: Books, t: TenantId, tier: Tier, order: Order, now: nat)
    ensures var ctx := Registered(b, t, tier).tenants[t];
            && ctx.active && ctx.tier == tier && ctx.connectors == map[]
            && Submit(ctx, order, now).0 && Submit(ctx, order, now).1.queue == [order]
  {
  }

  /** An order has left its queue and been counted. */
  function Counted(b: Books, after: map<TenantId, Context>, e: Taken): Books {
    b.(tenants := after, processed := if e.filled then b.processed + 1 else b.processed,
       rejected := if e.filled then b.rejected else b.rejected + 1,
       taken := if e.tenant in b.taken then b.taken[e.tenant := b.taken[e.tenant] + [e.order]] else b.taken)
  }

  lemma CountKeepsFifo(b: Books, after: map<TenantId, Context>, e: Taken)
    requires Fifo(b) && TakenFrom(b.tenants, after, e)
    ensures Fifo(Counted(b, after, e))
  {
    MoveOver(b.taken[e.tenant], e.order, after[e.tenant].queue);
  }

  lemma CountBalanced(b: Books, after: map<TenantId, Context>, e: Taken)
    requires Balanced(b) && TakenFrom(b.tenants, after, e)
    ensures Balanced(Counted(b, after, e))
  {
    CountKeepsFifo(b, after, e);
    assert forall t :: t in after ==> SameBut(b.tenants[t], after[t]);
  }

  // ---------------------------------------------------------------- the handler object

  /** What a batch never changes about a tenant. */
  ghost predicate SameBut(ctx: Context, ctx': Context) {
    ctx' == ctx.(queue := ctx'.queue, totalOrders := ctx'.totalOrders)
  }

  /** An entry of the batch log is served by its own tenant's connector for its exchange, or by none. */
  ghost predicate ServedBy(e: Taken, tenants: map<TenantId, Context>) {
    && e.tenant in tenants
    && e.connector == (if e.order.exchange in tenants[e.tenant].connectors
                       then Some(tenants[e.tenant].connectors[e.order.exchange]) else None)
    && (e.filled ==> e.connector.Some?)
  }

  /** An order counts as executed exactly when its connector was found and the exchange executed it. */
  ghost predicate Answered(e: Taken, fills: (Connector, Order) -> bool) {
    e.filled <==> e.connector.Some? && fills(e.connector.value, e.order)
  }

  class ExecutionHandler {
    var tenants: map<TenantId, Context>
    const scheduler: Scheduling.FairScheduler
    var processed: nat
    var rejected: nat
    ghost var books: Books

    ghost predicate Valid()
      reads this, scheduler
    {
      && Scheduling.Bounded(scheduler.View())
      && tenants.Keys == scheduler.weights.Keys
      && Kept()
    }

    /** The books are balanced and agree with the real fields. */
    ghost predicate Kept()
      reads this
    {
      books.tenants == tenants && books.processed == processed && books.rejected == rejected && Balanced(books)
    }

    constructor ()
      ensures Valid() && fresh(scheduler) && Blank(books)
    {
      tenants, processed, rejected := map[], 0, 0;
      books := Books(map[], 0, 0, 0, 0, {}, map[], map[], map[], map[]);
      scheduler := new Scheduling.FairScheduler();
      new;
      BlankBalanced(books);
    }

    /** Put the changed tenants in place, with the books that go with them. */
    method Store(after: map<TenantId, Context>, ghost b: Books)
      requires b.tenants == after && b.processed == processed && b.rejected == rejected && Balanced(b)
      modifies this`tenants, this`books
      ensures Kept() && tenants == after && books == b
    {
      tenants, books := after, b;
    }

    /** Registering again replaces the context, and with it any orders still queued. */
    method RegisterTenant(t: TenantId, tier: Tier)
      requires Valid()
      modifies this, scheduler
      ensures Valid()
      ensures books == Registered(old(books), t, tier)
    {
      RegisterBalanced(books, t, tier);
      Store(tenants[t := NewContext(tier)], Registered(books, t, tier));
      scheduler.RegisterTenant(t, tier);
    }

    method UnregisterTenant(t: TenantId)
      requires Valid()
      modifies this, scheduler
      ensures Valid()
      ensures books == Unregistered(old(books), t)
    {
      UnregisterBalanced(books, t);
      scheduler.UnregisterTenant(t);
      Store(tenants - {t}, Unregistered(books, t));
    }

    /** Fails closed: on any error nothing is loaded. */
    method LoadTenantCredentials(t: TenantId, provider: Option<TenantId -> Response>, builds: Credential -> bool)
      returns (r: Result<nat, Error>)
      requires Valid()
      modifies this
      ensures Valid()
      ensures r.Ok? <==> provider.Some? && Resolve(provider.value(t)).Ok? && t in old(tenants)
      ensures r.Err? ==> books == old(books)
      ensures r.Ok? ==>
                && r.value == AddAll(old(tenants)[t], provider.value(t).value, builds).1
                && books == Loaded(old(books), t, provider.value(t).value, builds)
    {
      if provider.None? {
        return Err(NoProvider);
      }
      var answer := Resolve(provider.value(t));
      if answer.Err? {
        return Err(ProviderFailed);
      }
      if t !in tenants {
        return Err(NotRegistered);
      }
      LoadBalanced(books, t, provider.value(t), builds);
      var ctx, loaded := Connect(tenants[t], answer.value, builds);
      Store(tenants[t := ctx], Loaded(books, t, answer.value, builds));
      r := Ok(loaded);
    }

    /** Queued exactly when the tenant is known, active and under its rate limit. */
    method SubmitOrder(t: TenantId, order: Order, now: nat) returns (r: Result<(), Error>)
      requires Valid()
      modifies this
      ensures Valid()
      ensures t !in old(tenants) ==> r == Err(NotRegistered) && books == old(books)
      ensures t in old(tenants) && !old(tenants)[t].active ==> r == Err(NotActive) && books == old(books)
      ensures t in old(tenants) && old(tenants)[t].active ==>
                && (r == if Submit(old(tenants)[t], order, now).0 then Ok(()) else Err(RateLimited))
                && books == Submitted(old(books), t, order, now)
                && tenants[t].queue == old(tenants)[t].queue + (if r.Ok? then [order] else [])
                && tenants[t].rejectedOrders == old(tenants)[t].rejectedOrders + (if r.Ok? then 0 else 1)
                && tenants == old(tenants)[t := tenants[t]]
    {
      if t !in tenants {
        return Err(NotRegistered);
      }
      if !tenants[t].active {
        return Err(NotActive);
      }
      var ok := QueueOrder(t, order, now);
      r := if ok then Ok(()) else Err(RateLimited);
    }

    /** The limiter's verdict, and the order at the back of the queue if it is favourable. */
    method QueueOrder(t: TenantId, order: Order, now: nat) returns (ok: bool)
      requires Kept() && t in tenants
      modifies this`tenants, this`books
      ensures Kept() && tenants.Keys == old(tenants).Keys
      ensures ok == Submit(old(tenants)[t], order, now).0 && books == Submitted(old(books), t, order, now)
      ensures tenants[t].queue == old(tenants)[t].queue + (if ok then [order] else [])
      ensures tenants[t].rejectedOrders == old(tenants)[t].rejectedOrders + (if ok then 0 else 1)
      ensures tenants == old(tenants)[t := tenants[t]]
    {
      SubmitBalanced(books, t, order, now);
      var ctx;
      ok, ctx := QueueIn(tenants[t], order, now);
      Store(tenants[t := ctx], Submitted(books, t, order, now));
    }

    /** The tenants with orders, in whatever order the map is enumerated. */
    method TenantsWithOrders() returns (list: seq<TenantId>)
      ensures forall t :: t in list <==> t in tenants && tenants[t].queue != []
    {
      list := [];
      var todo := tenants.Keys;
      while todo != {}
        invariant todo <= tenants.Keys
        invariant forall t :: t in list <==> t in tenants && t !in todo && tenants[t].queue != []
        decreases todo
      {
        var t :| t in todo;
        todo := todo - {t};
        if tenants[t].queue != [] {
          list := list + [t];
        }
      }
    }

    /** Dequeue the front order of tenant `t` and execute it through its connector. */
    method ExecuteFront(t: TenantId, fills: (Connector, Order) -> bool) returns (e: Taken)
      requires Kept() && t in tenants && tenants[t].queue != []
      modifies this
      ensures Kept()
      ensures e.tenant == t && TakenFrom(old(tenants), tenants, e) && books == Counted(old(books), tenants, e)
      ensures Answered(e, fills)
    {
      var ctx := tenants[t];
      var order := ctx.queue[0];
      ctx := ctx.(queue := ctx.queue[1..]);
      var connector := if order.exchange in ctx.connectors then Some(ctx.connectors[order.exchange]) else None;
      var filled := connector.Some? && fills(connector.value, order);
      e := Taken(t, order, connector, filled);
      if filled {
        ctx := ctx.(totalOrders := ctx.totalOrders + 1);
      }
      TakeFront(tenants, t, ctx, e);
      CountBalanced(books, tenants[t := ctx], e);
      Commit(tenants[t := ctx], filled, Counted(books, tenants[t := ctx], e));
    }

    /** Put the changed tenants in place and count the order. */
    method Commit(after: map<TenantId, Context>, filled: bool, ghost b: Books)
      requires b.tenants == after && Balanced(b)
      requires b.processed == processed + (if filled then 1 else 0) && b.rejected == rejected + (if filled then 0 else 1)
      modifies this`tenants, this`books, this`processed, this`rejected
      ensures Kept() && tenants == after && books == b
    {
      books := b;
      tenants := after;
      if filled {
        processed := processed + 1;
      } else {
        rejected := rejected + 1;
      }
    }

    /** One turn of the batch loop. */
    method ProcessOne(fills: (Connector, Order) -> bool) returns (entry: Option<Taken>, ghost list: seq<TenantId>)
      requires Valid()
      modifies this, scheduler
      ensures Valid()
      ensures entry.None? ==> Pending(tenants) == 0 && books == old(books) && scheduler.View() == old(scheduler.View())
      ensures entry.Some? ==>
                var e := entry.value;
                && TakenFrom(old(tenants), tenants, e) && books == Counted(old(books), tenants, e)
                && Answered(e, fills)
                && (Some(e.tenant), scheduler.View()) == Scheduling.Select(old(scheduler.View()), list)
      ensures forall t :: t in list <==> t in old(tenants) && old(tenants)[t].queue != []
    {
      var waiting := TenantsWithOrders();
      list := waiting;
      if waiting == [] {
        PendingZero(tenants);
        return None, list;
      }
      SelectServes(scheduler.View(), waiting);
      Scheduling.SelectKeepsRegistered(scheduler.View(), waiting);
      var choice := scheduler.SelectNext(waiting);
      var e := ExecuteFront(choice.value, fills);
      entry := Some(e);
    }

    /**
     The batch: exactly min(maxBatch, pending) orders leave, each tenant's from the front of
     its own queue, each through its own tenant's connector, and every one is counted once.
     */
    method ProcessOrders(maxBatch: nat, fills: (nat, Connector, Order) -> bool)
      returns (results: seq<Execution>, ghost log: seq<Taken>, ghost lists: seq<seq<TenantId>>)
      requires Valid()
      modifies this, scheduler
      ensures Valid()
      ensures |log| == if maxBatch <= Pending(old(tenants)) then maxBatch else Pending(old(tenants))
      ensures InBatch(old(books), old(scheduler.View()), books, scheduler.View(), log, lists, results)
      ensures forall e :: e in log && e.connector.Some? ==>
                (e.tenant, e.connector.value.credential) in old(books).resolved
      // the results are exactly the orders the exchanges executed, in turn order
      ensures AllAnswered(log, fills) && results == Executions(log)
    {
      ghost var b0, s0 := books, scheduler.View();
      results, log, lists := TakeTurns(maxBatch, fills);
      BatchEnds(b0, s0, books, scheduler.View(), log, lists, results);
    }

    /** The batch loop itself. */
    method TakeTurns(maxBatch: nat, fills: (nat, Connector, Order) -> bool)
      returns (results: seq<Execution>, ghost log: seq<Taken>, ghost lists: seq<seq<TenantId>>)
      requires Valid()
      modifies this, scheduler
      ensures Valid()
      ensures |log| == maxBatch || (|log| < maxBatch && Pending(tenants) == 0)
      ensures InBatch(old(books), old(scheduler.View()), books, scheduler.View(), log, lists, results)
      ensures AllAnswered(log, fills)
    {
      results, log, lists := [], [], [];
      ghost var b0, s0 := books, scheduler.View();
      BatchStarts(b0, s0);
      for i := 0 to maxBatch
        invariant Valid() && |log| == i
        invariant InBatch(b0, s0, books, scheduler.View(), log, lists, results)
        invariant AllAnswered(log, fills)
      {
        ghost var before := log;
        var entry;
        entry, log, lists := NextTurn((c, o) => fills(i, c, o), b0, s0, log, lists, results);
        if entry.None? {
          break;
        }
        AnsweredGrows(before, fills, entry.value);
        if entry.value.filled {
          results := results + [Execution(entry.value.tenant, entry.value.order)];
        }
      }
    }

    /** A turn of the loop, and what it adds to the batch. */
    method NextTurn(fills: (Connector, Order) -> bool, ghost b0: Books, ghost s0: Scheduling.Ledger,
                    ghost log: seq<Taken>, ghost lists: seq<seq<TenantId>>, ghost results: seq<Execution>)
      returns (entry: Option<Taken>, ghost log': seq<Taken>, ghost lists': seq<seq<TenantId>>)
      requires Valid() && InBatch(b0, s0, books, scheduler.View(), log, lists, results)
      modifies this, scheduler
      ensures Valid()
      ensures entry.None? ==> Pending(tenants) == 0 && log' == log && lists' == lists
      ensures entry.Some? ==> log' == log + [entry.value] && Answered(entry.value, fills)
      ensures InBatch(b0, s0, books, scheduler.View(), log', lists',
                      if entry.Some? && entry.value.filled
                      then results + [Execution(entry.value.tenant, entry.value.order)] else results)
    {
      ghost var before, ledger := books, scheduler.View();
      ghost var list;
      log', lists' := log, lists;
      entry, list := ProcessOne(fills);
      if entry.Some? {
        BatchContinues(b0, s0, before, ledger, log, lists, results, tenants, entry.value, list);
        log', lists' := log + [entry.value], lists + [list];
      }
    }
  }

  /** Turn by turn, the exchanges' own answers. */
  ghost predicate AllAnswered(log: seq<Taken>, fills: (nat, Connector, Order) -> bool) {
    forall i :: 0 <= i < |log| ==>
      (log[i].filled <==> log[i].connector.Some? && fills(i, log[i].connector.value, log[i].order))
  }

  lemma AnsweredGrows(log: seq<Taken>, fills: (nat, Connector, Order) -> bool, e: Taken)
    requires AllAnswered(log, fills) && (e.filled <==> e.connector.Some? && fills(|log|, e.connector.value, e.order))
    ensures AllAnswered(log + [e], fills)
  {
  }

  /** One context's limiter and queue: the order goes to the back, or the refusal is counted. */
  method QueueIn(start: Context, order: Order, now: nat) returns (ok: bool, ctx: Context)
    ensures (ok, ctx) == Submit(start, order, now)
    ensures ctx.queue == start.queue + if ok then [order] else []
    ensures ctx.rejectedOrders == start.rejectedOrders + if ok then 0 else 1
  {
    var timestamps;
    ok, timestamps := Limiting.Decide(start.timestamps, start.tier.OrdersPerMinute(), now);
    ctx := start.(timestamps := timestamps);
    if !ok {
      ctx := ctx.(rejectedOrders := ctx.rejectedOrders + 1);
      return;
    }
    ctx := ctx.(queue := ctx.queue + [order]);
  }

  /** The loading loop: one connector after another, within the tier's limit. */
  method Connect(start: Context, creds: seq<Credential>, builds: Credential -> bool) returns (ctx: Context, loaded: nat)
    ensures (ctx, loaded) == AddAll(start, creds, builds)
  {
    ctx, loaded := start, 0;
    for i := 0 to |creds|
      invariant (ctx, loaded) == AddAll(start, creds[..i], builds)
    {
      assert creds[..i + 1][..i] == creds[..i];
      var (next, ok) := AddExchange(ctx, creds[i], builds);
      ctx, loaded := next, if ok then loaded + 1 else loaded;
    }
    assert creds[..|creds|] == creds;
  }

  /** One order has left the front of its tenant's queue and nothing else has changed. */
  ghost predicate TakenFrom(before: map<TenantId, Context>, after: map<TenantId, Context>, e: Taken) {
    && ServedBy(e, before)
    && after.Keys == before.Keys
    && before[e.tenant].queue == [e.order] + after[e.tenant].queue
    && SameBut(before[e.tenant], after[e.tenant])
    && after[e.tenant].totalOrders == before[e.tenant].totalOrders + (if e.filled then 1 else 0)
    && (forall t :: t in after && t != e.tenant ==> after[t] == before[t])
    && Pending(after) == Pending(before) - 1
  }

  lemma TakeFront(tenants: map<TenantId, Context>, t: TenantId, ctx: Context, e: Taken)
    requires t in tenants && e.tenant == t && ServedBy(e, tenants)
    requires tenants[t].queue == [e.order] + ctx.queue && SameBut(tenants[t], ctx)
    requires ctx.totalOrders == tenants[t].totalOrders + if e.filled then 1 else 0
    ensures TakenFrom(tenants, tenants[t := ctx], e)
  {
    PendingUpdate(tenants, t, ctx);
    assert |tenants[t].queue| == 1 + |ctx.queue|;
  }

  /** A whole batch: each tenant's queue loses exactly its logged orders, in order, from the front. */
  ghost predicate Batch(start: map<TenantId, Context>, end: map<TenantId, Context>, log: seq<Taken>) {
    && start.Keys == end.Keys
    && (forall t :: t in end ==> SameBut(start[t], end[t]) && start[t].queue == OrdersOf(log, t) + end[t].queue)
    && (forall t :: t in end ==> end[t].totalOrders == start[t].totalOrders + ExecutedFor(log, t))
    && (forall e :: e in log ==> ServedBy(e, start))
  }

  /**
   What a batch has done so far, from books `b0` and ledger `s0` to `b` and `s`: every logged order has
   left and been counted once; each queue has lost its own orders from the front; the tenants are those
   the fair scheduler picks, offered exactly the tenants with orders left; nothing else has changed.
   */
  ghost predicate InBatch(b0: Books, s0: Scheduling.Ledger, b: Books, s: Scheduling.Ledger,
                          log: seq<Taken>, lists: seq<seq<TenantId>>, results: seq<Execution>)
  {
    && Pending(b.tenants) == Pending(b0.tenants) - |log|
    && b.processed + b.rejected == b0.processed + b0.rejected + |log|
    && results == Executions(log) && b.processed == b0.processed + |results|
    && Batch(b0.tenants, b.tenants, log)
    && Turns(b0.tenants, log, lists) && Served(log) == Scheduling.Picks(s0, lists)
    && s == Scheduling.After(s0, lists)
    && b == b0.(tenants := b.tenants, processed := b.processed, rejected := b.rejected, taken := b.taken)
    && TakenSince(b0.taken, b.taken, log)
  }

  /** Each tenant's record of taken orders has grown by its own logged orders. */
  ghost predicate TakenSince(before: map<TenantId, seq<Order>>, after: map<TenantId, seq<Order>>, log: seq<Taken>) {
    before.Keys == after.Keys && forall t :: t in after ==> after[t] == before[t] + OrdersOf(log, t)
  }

  lemma TakenGrows(start: map<TenantId, seq<Order>>, before: map<TenantId, seq<Order>>, log: seq<Taken>, e: Taken)
    requires TakenSince(start, before, log)
    ensures TakenSince(start, if e.tenant in before then before[e.tenant := before[e.tenant] + [e.order]] else before,
                       log + [e])
  {
    forall t | t in before
      ensures OrdersOf(log + [e], t) == OrdersOf(log, t) + (if e.tenant == t then [e.order] else [])
    {
      OrdersOfGrow(log, e, t);
    }
  }

  lemma BatchStarts(b: Books, s: Scheduling.Ledger)
    ensures InBatch(b, s, b, s, [], [], [])
  {
    forall t | t in b.tenants ensures b.tenants[t].queue == OrdersOf([], t) + b.tenants[t].queue {}
  }

  lemma BatchEnds(b0: Books, s0: Scheduling.Ledger, b: Books, s: Scheduling.Ledger,
                  log: seq<Taken>, lists: seq<seq<TenantId>>, results: seq<Execution>)
    requires Balanced(b0) && InBatch(b0, s0, b, s, log, lists, results)
    ensures |log| <= Pending(b0.tenants)
    ensures forall e :: e in log && e.connector.Some? ==> (e.tenant, e.connector.value.credential) in b0.resolved
  {
    BatchIsolated(b0.tenants, b.tenants, log, b0.resolved);
  }

  lemma BatchContinues(b0: Books, s0: Scheduling.Ledger, b: Books, s: Scheduling.Ledger,
                       log: seq<Taken>, lists: seq<seq<TenantId>>, results: seq<Execution>,
                       after: map<TenantId, Context>, e: Taken, list: seq<TenantId>)
    requires InBatch(b0, s0, b, s, log, lists, results) && TakenFrom(b.tenants, after, e)
    requires forall t :: t in list <==> t in b.tenants && b.tenants[t].queue != []
    requires Scheduling.Select(s, list).0 == Some(e.tenant)
    ensures InBatch(b0, s0, Counted(b, after, e), Scheduling.Select(s, list).1, log + [e], lists + [list],
                    if e.filled then results + [Execution(e.tenant, e.order)] else results)
  {
    ExecutionsGrow(log, e);
    TakenGrows(b0.taken, b.taken, log, e);
    BatchStep(b0.tenants, b.tenants, after, log, e);
    TurnStep(b0.tenants, b.tenants, log, lists, e, list);
    ScheduleStep(s0, log, lists, e, list);
  }

  lemma QueueStep(start: map<TenantId, Context>, before: map<TenantId, Context>, after: map<TenantId, Context>,
                  log: seq<Taken>, e: Taken, t: TenantId)
    requires Batch(start, before, log) && TakenFrom(before, after, e) && t in after
    ensures SameBut(start[t], after[t]) && start[t].queue == OrdersOf(log + [e], t) + after[t].queue
  {
    OrdersOfGrow(log, e, t);
    assert start[t].queue == OrdersOf(log, t) + before[t].queue && SameBut(start[t], before[t]);
    if t == e.tenant {
      MoveOver(OrdersOf(log, t), e.order, after[t].queue);
    } else {
      assert after[t] == before[t];
      assert OrdersOf(log, t) + [] == OrdersOf(log, t);
    }
  }

  lemma MoveOver(taken: seq<Order>, order: Order, left: seq<Order>)
    ensures taken + ([order] + left) == (taken + [order]) + left
  {
  }

  lemma BatchStep(start: map<TenantId, Context>, before: map<TenantId, Context>, after: map<TenantId, Context>,
                  log: seq<Taken>, e: Taken)
    requires Batch(start, before, log) && TakenFrom(before, after, e)
    ensures Batch(start, after, log + [e])
  {
    assert ServedBy(e, start) by { assert SameBut(start[e.tenant], before[e.tenant]); }
    forall t | t in after ensures after[t].totalOrders == start[t].totalOrders + ExecutedFor(log + [e], t) {
      assert (log + [e])[..|log|] == log;
      assert before[t].totalOrders == start[t].totalOrders + ExecutedFor(log, t);
    }
    assert forall x :: x in log + [e] ==> ServedBy(x, start);
    assert forall t :: t in after ==> SameBut(start[t], after[t])
                                      && start[t].queue == OrdersOf(log + [e], t) + after[t].queue by {
      forall t | t in after
        ensures SameBut(start[t], after[t]) && start[t].queue == OrdersOf(log + [e], t) + after[t].queue
      {
        QueueStep(start, before, after, log, e, t);
      }
    }
  }

  /** Every connector a batch used was built from a credential resolved for the order's own tenant. */
  lemma BatchIsolated(start: map<TenantId, Context>, end: map<TenantId, Context>, log: seq<Taken>,
                      resolved: set<(TenantId, Credential)>)
    requires Batch(start, end, log) && Isolated(start, resolved)
    ensures forall e :: e in log && e.connector.Some? ==>
              && (e.tenant, e.connector.value.credential) in resolved
              && e.connector.value.credential.exchange == e.order.exchange
  {
    forall e | e in log && e.connector.Some?
      ensures (e.tenant, e.connector.value.credential) in resolved
              && e.connector.value.credential.exchange == e.order.exchange
    {
      assert ServedBy(e, start);
    }
  }

  lemma ExecutionsGrow(log: seq<Taken>, e: Taken)
    ensures Executions(log + [e]) == Executions(log) + (if e.filled then [Execution(e.tenant, e.order)] else [])
  {
    assert (log + [e])[..|log|] == log;
  }

  lemma OrdersOfGrow(log: seq<Taken>, e: Taken, t: TenantId)
    ensures OrdersOf(log + [e], t) == OrdersOf(log, t) + (if e.tenant == t then [e.order] else [])
  {
    assert (log + [e])[..|log|] == log;
  }

  // ---------------------------------------------------------------- fairness of the batch

  /** Turn by turn, the scheduler is offered exactly the tenants that still have orders. */
  ghost predicate Turns(start: map<TenantId, Context>, log: seq<Taken>, lists: seq<seq<TenantId>>) {
    |lists| == |log| && forall i :: 0 <= i < |log| ==> Offers(start, log[..i], lists[i])
  }

  ghost predicate Offers(start: map<TenantId, Context>, done: seq<Taken>, list: seq<TenantId>) {
    forall t :: t in list <==> t in start && |OrdersOf(done, t)| < |start[t].queue|
  }

  /** Whose turn each logged order was. */
  function Served(log: seq<Taken>): (r: seq<Option<TenantId>>)
    ensures |r| == |log|
  {
    seq(|log|, i requires 0 <= i < |log| => Some(log[i].tenant))
  }

  lemma TurnStep(start: map<TenantId, Context>, before: map<TenantId, Context>, log: seq<Taken>,
                 lists: seq<seq<TenantId>>, e: Taken, list: seq<TenantId>)
    requires Batch(start, before, log) && Turns(start, log, lists)
    requires forall t :: t in list <==> t in before && before[t].queue != []
    ensures Turns(start, log + [e], lists + [list])
  {
    forall t ensures t in list <==> t in start && |OrdersOf(log, t)| < |start[t].queue| {
      if t in start { assert start[t].queue == OrdersOf(log, t) + before[t].queue; }
    }
    assert Offers(start, log, list);
    forall i | 0 <= i <= |log| ensures Offers(start, (log + [e])[..i], (lists + [list])[i]) {
      if i < |log| { assert (log + [e])[..i] == log[..i]; } else { assert (log + [e])[..i] == log; }
    }
  }

  lemma ScheduleStep(s: Scheduling.Ledger, log: seq<Taken>, lists: seq<seq<TenantId>>, e: Taken, list: seq<TenantId>)
    requires Served(log) == Scheduling.Picks(s, lists)
    requires Scheduling.Select(Scheduling.After(s, lists), list).0 == Some(e.tenant)
    ensures Served(log + [e]) == Scheduling.Picks(s, lists + [list])
    ensures Scheduling.After(s, lists + [list]) == Scheduling.Select(Scheduling.After(s, lists), list).1
  {
    Scheduling.PicksConcat(s, lists, [list]);
    Scheduling.AfterConcat(s, lists, [list]);
    assert Scheduling.Picks(Scheduling.After(s, lists), [list]) == [Some(e.tenant)];
    assert Served(log + [e]) == Served(log) + [Some(e.tenant)];
  }

  /** Orders taken from a tenant mean a turn it was served. */
  lemma {:induction false} OrdersMeanTurn(log: seq<Taken>, t: TenantId) returns (i: nat)
    requires OrdersOf(log, t) != []
    ensures i < |log| && log[i].tenant == t
  {
    i := |log| - 1;
    if log[i].tenant != t {
      assert OrdersOf(log, t) == OrdersOf(log[..i], t);
      i := OrdersMeanTurn(log[..i], t);
    }
  }

  /** A tenant waiting at the start of a batch is served, if the batch is long enough, within its rank. */
  lemma ServedWithinRank(s: Scheduling.Ledger, start: map<TenantId, Context>, log: seq<Taken>,
                         lists: seq<seq<TenantId>>, t: TenantId) returns (i: nat)
    requires Scheduling.Registered(s) && t in s.weights
    requires Turns(start, log, lists) && Served(log) == Scheduling.Picks(s, lists)
    requires t in start && start[t].queue != []
    requires |log| > Scheduling.Rank(s, t)
    ensures i <= Scheduling.Rank(s, t) && log[i].tenant == t
  {
    i := Scheduling.PickedOrUnlisted(s, t, lists);
    if t in lists[i] {
      assert Served(log)[i] == Some(t);
    } else {
      assert Offers(start, log[..i], lists[i]);
      i := OrdersMeanTurn(log[..i], t);
    }
  }

  /** A tenant passed over by a whole batch keeps its queue, and every turn cost one of its rank. */
  lemma UnservedLowersRank(s: Scheduling.Ledger, start: map<TenantId, Context>, log: seq<Taken>,
                           lists: seq<seq<TenantId>>, t: TenantId)
    requires Scheduling.Registered(s) && t in s.weights
    requires Turns(start, log, lists) && Served(log) == Scheduling.Picks(s, lists)
    requires t in start && start[t].queue != [] && OrdersOf(log, t) == []
    ensures Scheduling.Registered(Scheduling.After(s, lists)) && Scheduling.After(s, lists).weights == s.weights
    ensures Scheduling.Rank(Scheduling.After(s, lists), t) + |log| <= Scheduling.Rank(s, t)
  {
    forall k | 0 <= k < |lists| ensures t in lists[k] && Scheduling.Picks(s, lists)[k] != Some(t) {
      NoOrdersNoTurn(log, t, k);
      assert Offers(start, log[..k], lists[k]);
      assert Served(log)[k] == Some(log[k].tenant);
    }
    Scheduling.PassingLowersRank(s, t, lists);
  }

  lemma {:induction false} NoOrdersNoTurn(log: seq<Taken>, t: TenantId, k: nat)
    requires OrdersOf(log, t) == [] && k < |log|
    ensures OrdersOf(log[..k], t) == [] && log[k].tenant != t
  {
    var n := |log| - 1;
    if k < n {
      NoOrdersNoTurn(log[..n], t, k);
      assert log[..n][..k] == log[..k];
    }
  }

  // ---------------------------------------------------------------- fairness over runs of the handler

  /** The handler between two calls. */
  datatype Moment = Moment(books: Books, ledger: Scheduling.Ledger)

  /** A call, by what its contract says it did: a batch, a submission, a load of credentials, or a refusal. */
  datatype Move =
    | Batched(log: seq<Taken>, lists: seq<seq<TenantId>>, results: seq<Execution>)
    | Submission(tenant: TenantId, order: Order, now: nat)
    | Loading(tenant: TenantId, creds: seq<Credential>, builds: Credential -> bool)
    | Refused

  ghost predicate Follows(x: Moment, m: Move, y: Moment) {
    match m
    case Batched(log, lists, results) => InBatch(x.books, x.ledger, y.books, y.ledger, log, lists, results)
    case Submission(t, order, now) =>
      && t in x.books.tenants && t in x.books.submissions && t in x.books.times && t in x.books.queued
      && y == Moment(Submitted(x.books, t, order, now), x.ledger)
    case Loading(t, creds, builds) =>
      t in x.books.tenants && y == Moment(Loaded(x.books, t, creds, builds), x.ledger)
    case Refused => y == x
  }

  ghost predicate IsRun(run: seq<Moment>, moves: seq<Move>) {
    |run| == |moves| + 1 && forall i :: 0 <= i < |moves| ==> Follows(run[i], moves[i], run[i + 1])
  }

  function TurnsOf(m: Move): nat { if m.Batched? then |m.log| else 0 }

  /** The turns taken by all batches together. */
  function TotalTurns(moves: seq<Move>): nat {
    if moves == [] then 0 else TurnsOf(moves[0]) + TotalTurns(moves[1..])
  }

  ghost predicate IsWaiting(x: Moment, t: TenantId) {
    t in x.ledger.weights && t in x.books.tenants && x.books.tenants[t].queue != []
  }

  /** The tenant of turn `j` of move `i` is `t`. */
  ghost predicate ServedAt(moves: seq<Move>, i: nat, j: nat, t: TenantId) {
    i < |moves| && moves[i].Batched? && j < |moves[i].log| && moves[i].log[j].tenant == t
  }

  /** The orders of tenant `t` that the batches took, in order. */
  function LoggedOrders(moves: seq<Move>, t: TenantId): seq<Order> {
    if moves == [] then []
    else (if moves[0].Batched? then OrdersOf(moves[0].log, t) else []) + LoggedOrders(moves[1..], t)
  }

  /** The orders of tenant `t` whose submissions were accepted, in order. */
  function AcceptedOrders(run: seq<Moment>, moves: seq<Move>, t: TenantId): seq<Order>
    requires |run| == |moves| + 1
  {
    if moves == [] then [] else AcceptedBy(run[0], moves[0], t) + AcceptedOrders(run[1..], moves[1..], t)
  }

  function AcceptedBy(x: Moment, m: Move, t: TenantId): seq<Order> {
    if m.Submission? && m.tenant == t && t in x.books.tenants && Submit(x.books.tenants[t], m.order, m.now).0
    then [m.order] else []
  }

  /** One call: what waited and what it accepts are what it takes and what waits after it. */
  lemma MoveIsFifo(x: Moment, m: Move, y: Moment, t: TenantId)
    requires Follows(x, m, y) && t in x.books.tenants
    ensures t in y.books.tenants
    ensures x.books.tenants[t].queue + AcceptedBy(x, m, t) ==
            (if m.Batched? then OrdersOf(m.log, t) else []) + y.books.tenants[t].queue
  {
    match m
    case Batched(log, _, _) => assert x.books.tenants[t].queue == OrdersOf(log, t) + y.books.tenants[t].queue;
    case Submission(_, _, _) =>
    case Loading(u, creds, builds) => AddAllProvenance(x.books.tenants[u], creds, builds);
    case Refused =>
  }

  /**
   First in, first out, from submission to execution: over any sequence of calls, the orders of a tenant
   that waited at the start, followed by those accepted since, are the orders taken, in that order,
   followed by those still waiting.
   */
  lemma {:induction false} RunIsFifo(run: seq<Moment>, moves: seq<Move>, t: TenantId)
    requires IsRun(run, moves) && t in run[0].books.tenants
    ensures t in run[|moves|].books.tenants
    ensures run[0].books.tenants[t].queue + AcceptedOrders(run, moves, t) ==
            LoggedOrders(moves, t) + run[|moves|].books.tenants[t].queue
    decreases |moves|
  {
    if moves != [] {
      assert Follows(run[0], moves[0], run[1]);
      MoveIsFifo(run[0], moves[0], run[1], t);
      RunTail(run, moves);
      RunIsFifo(run[1..], moves[1..], t);
      Splice(run[0].books.tenants[t].queue, AcceptedBy(run[0], moves[0], t),
             AcceptedOrders(run[1..], moves[1..], t),
             if moves[0].Batched? then OrdersOf(moves[0].log, t) else [],
             run[1].books.tenants[t].queue, LoggedOrders(moves[1..], t), run[|moves|].books.tenants[t].queue);
    }
  }

  lemma Splice(q: seq<Order>, a: seq<Order>, more: seq<Order>, out: seq<Order>, q1: seq<Order>,
               later: seq<Order>, q2: seq<Order>)
    requires q + a == out + q1 && q1 + more == later + q2
    ensures q + (a + more) == (out + later) + q2
  {
    assert q + (a + more) == (q + a) + more;
    assert (out + q1) + more == out + (q1 + more);
    assert out + (later + q2) == (out + later) + q2;
  }

  /** A move that does not serve a waiting tenant leaves it waiting, and its turns cost as much rank. */
  lemma MoveLowersRank(x: Moment, m: Move, y: Moment, t: TenantId)
    requires Scheduling.Registered(x.ledger) && IsWaiting(x, t) && Follows(x, m, y)
    requires m.Batched? ==> OrdersOf(m.log, t) == []
    ensures Scheduling.Registered(y.ledger) && IsWaiting(y, t)
    ensures Scheduling.Rank(y.ledger, t) + TurnsOf(m) <= Scheduling.Rank(x.ledger, t)
  {
    match m
    case Batched(log, lists, _) =>
      UnservedLowersRank(x.ledger, x.books.tenants, log, lists, t);
      assert x.books.tenants[t].queue == OrdersOf(log, t) + y.books.tenants[t].queue;
    case Submission(_, _, _) =>
    case Loading(u, creds, builds) => AddAllProvenance(x.books.tenants[u], creds, builds);
    case Refused =>
  }

  lemma {:induction false} ServedWithinTotalRank(run: seq<Moment>, moves: seq<Move>, t: TenantId)
    returns (i: nat, j: nat)
    requires IsRun(run, moves) && Scheduling.Registered(run[0].ledger) && IsWaiting(run[0], t)
    requires TotalTurns(moves) > Scheduling.Rank(run[0].ledger, t)
    ensures ServedAt(moves, i, j, t) && TotalTurns(moves[..i]) + j <= Scheduling.Rank(run[0].ledger, t)
    decreases |moves|
  {
    var x, m := run[0], moves[0];
    assert Follows(x, m, run[1]);
    if m.Batched? && OrdersOf(m.log, t) != [] {
      i := 0;
      if |m.log| > Scheduling.Rank(x.ledger, t) {
        j := ServedWithinRank(x.ledger, x.books.tenants, m.log, m.lists, t);
      } else {
        j := OrdersMeanTurn(m.log, t);
      }
    } else {
      MoveLowersRank(x, m, run[1], t);
      RunTail(run, moves);
      i, j := ServedWithinTotalRank(run[1..], moves[1..], t);
      assert moves[..i + 1][0] == m && moves[..i + 1][1..] == moves[1..][..i];
      i := i + 1;
    }
  }

  lemma RunTail(run: seq<Moment>, moves: seq<Move>)
    requires IsRun(run, moves) && moves != []
    ensures IsRun(run[1..], moves[1..])
  {
    forall i | 0 <= i < |moves| - 1 ensures Follows(run[1..][i], moves[1..][i], run[1..][i + 1]) {
      assert Follows(run[i + 1], moves[i + 1], run[i + 2]);
    }
  }

  /**
   No starvation in the handler: with registrations fixed, over any sequence of batches of any size,
   submissions, loads and refused calls, a tenant with an order waiting is served within the first
   2W + 1 turns that the batches take together, W being the total weight of the other tenants.
   */
  lemma NoTenantStarves(run: seq<Moment>, moves: seq<Move>, t: TenantId) returns (i: nat, j: nat)
    requires IsRun(run, moves) && Scheduling.Bounded(run[0].ledger) && IsWaiting(run[0], t)
    requires TotalTurns(moves) > 2 * Scheduling.OthersWeight(run[0].ledger, t)
    ensures ServedAt(moves, i, j, t)
    ensures TotalTurns(moves[..i]) + j <= 2 * Scheduling.OthersWeight(run[0].ledger, t)
  {
    Scheduling.RankBounded(run[0].ledger, t);
    i, j := ServedWithinTotalRank(run, moves, t);
  }

  /** The same for a single batch that is long enough. */
  lemma WaitingTenantServed(s: Scheduling.Ledger, start: map<TenantId, Context>, log: seq<Taken>,
                            lists: seq<seq<TenantId>>, t: TenantId) returns (i: nat)
    requires Scheduling.Bounded(s) && t in s.weights
    requires Turns(start, log, lists) && Served(log) == Scheduling.Picks(s, lists)
    requires t in start && start[t].queue != []
    requires |log| > 2 * Scheduling.OthersWeight(s, t)
    ensures i <= 2 * Scheduling.OthersWeight(s, t) && log[i].tenant == t
  {
    Scheduling.RankBounded(s, t);
    i := ServedWithinRank(s, start, log, lists, t);
  }
}
