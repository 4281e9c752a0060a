/**
 The order book of `crates/executionhandler/src/fill_probability.rs`: depth, imbalance and the
 walk that prices an order against one side. Floating-point numbers are reals.
 */
module OrderBook {
  import opened Reals

  datatype Level = Level(price: real, qty: real)

  datatype Book = Book(bestBid: real, bestAsk: real, bids: seq<Level>, asks: seq<Level>)

  /** 2^64, and from it the largest finite 64-bit float, (2^53 - 1) * 2^971. */
  const WORD: int := 0x1_0000_0000_0000_0000
  const F64_MAX: real :=
    (0x1F_FFFF_FFFF_FFFF * 2048 * WORD * WORD * WORD * WORD * WORD * WORD * WORD * WORD
     * WORD * WORD * WORD * WORD * WORD * WORD * WORD) as real

  function Min(x: real, y: real): real { if x <= y then x else y }
  function Max(x: real, y: real): real { if x <= y then y else x }

  function SpreadBps(book: Book): real {
    if book.bestBid > 0.0 then ((book.bestAsk - book.bestBid) / book.bestBid) * 10000.0 else F64_MAX
  }

  function Volume(levels: seq<Level>): real {
    if levels == [] then 0.0 else levels[0].qty + Volume(levels[1..])
  }

  /** Quantity on one side at prices no worse than the limit. */
  function Depth(levels: seq<Level>, isBuy: bool, limit: real): real {
    if levels == [] then 0.0
    else
      (if (if isBuy then levels[0].price <= limit else levels[0].price >= limit) then levels[0].qty else 0.0)
      + Depth(levels[1..], isBuy, limit)
  }

  function Imbalance(book: Book, depthLevels: nat): real {
    var bid := Volume(if |book.bids| <= depthLevels then book.bids else book.bids[..depthLevels]);
    var ask := Volume(if |book.asks| <= depthLevels then book.asks else book.asks[..depthLevels]);
    if bid + ask > 0.0 then (bid - ask) / (bid + ask) else 0.0
  }

  ghost predicate NonNegative(levels: seq<Level>) {
    forall i :: 0 <= i < |levels| ==> 0.0 <= levels[i].qty
  }

  ghost predicate Ascending(levels: seq<Level>) {
    forall i, j :: 0 <= i < j < |levels| ==> levels[i].price <= levels[j].price
  }

  ghost predicate Descending(levels: seq<Level>) {
    forall i, j :: 0 <= i < j < |levels| ==> levels[j].price <= levels[i].price
  }

  /** Best price first on either side, and no negative quantity. */
  ghost predicate WellFormed(book: Book) {
    NonNegative(book.bids) && NonNegative(book.asks) && Descending(book.bids) && Ascending(book.asks)
  }

  lemma {:induction false} VolumeNonNegative(levels: seq<Level>)
    requires NonNegative(levels)
    ensures 0.0 <= Volume(levels)
  {
    if levels != [] {
      VolumeNonNegative(levels[1..]);
    }
  }

  lemma ImbalanceBounds(book: Book, n: nat)
    requires NonNegative(book.bids) && NonNegative(book.asks)
    ensures -1.0 <= Imbalance(book, n) <= 1.0
  {
    var bids := if |book.bids| <= n then book.bids else book.bids[..n];
    var asks := if |book.asks| <= n then book.asks else book.asks[..n];
    VolumeNonNegative(bids);
    VolumeNonNegative(asks);
    var bid, ask := Volume(bids), Volume(asks);
    if bid + ask > 0.0 {
      QuotientWithin(bid - ask, bid + ask);
    }
  }

  // ---------------------------------------------------------------- what the figures mean

  /** The price is no worse than the limit. */
  predicate Within(price: real, isBuy: bool, limit: real) {
    if isBuy then price <= limit else limit <= price
  }

  /** Depth counts every level within the limit in full, and no other; levels add up. */
  lemma {:induction false} DepthCounts(levels: seq<Level>, isBuy: bool, limit: real)
    ensures (forall i :: 0 <= i < |levels| ==> Within(levels[i].price, isBuy, limit)) ==>
              Depth(levels, isBuy, limit) == Volume(levels)
    ensures (forall i :: 0 <= i < |levels| ==> !Within(levels[i].price, isBuy, limit)) ==>
              Depth(levels, isBuy, limit) == 0.0
  {
    if levels != [] { DepthCounts(levels[1..], isBuy, limit); }
  }

  lemma {:induction false} DepthAdds(a: seq<Level>, b: seq<Level>, isBuy: bool, limit: real)
    ensures Depth(a + b, isBuy, limit) == Depth(a, isBuy, limit) + Depth(b, isBuy, limit)
  {
    if a == [] {
      assert a + b == b;
    } else {
      assert (a + b)[1..] == a[1..] + b;
      DepthAdds(a[1..], b, isBuy, limit);
    }
  }

  /** The spread takes the bid to the ask: 10000 basis points are the whole bid. */
  lemma SpreadMeaning(book: Book)
    requires book.bestBid > 0.0
    ensures book.bestBid * (1.0 + SpreadBps(book) / 10000.0) == book.bestAsk
  {
    var q := (book.bestAsk - book.bestBid) / book.bestBid;
    QuotientTimes(book.bestAsk - book.bestBid, book.bestBid);
    assert (q * 10000.0) / 10000.0 == q;
    assert book.bestBid * (1.0 + q) == book.bestBid + q * book.bestBid;
  }

  /** The quantity on the best levels that imbalance looks at. */
  function TopVolume(levels: seq<Level>, n: nat): real {
    Volume(if |levels| <= n then levels else levels[..n])
  }

  /** Imbalance has the sign of the difference in volume, and is extreme exactly when one side is empty. */
  lemma ImbalanceSign(book: Book, n: nat)
    requires NonNegative(book.bids) && NonNegative(book.asks)
    ensures var bid, ask, im := TopVolume(book.bids, n), TopVolume(book.asks, n), Imbalance(book, n);
            && (im > 0.0 <==> bid > ask) && (im < 0.0 <==> bid < ask)
            && (im == 1.0 <==> bid > 0.0 && ask == 0.0) && (im == -1.0 <==> ask > 0.0 && bid == 0.0)
  {
    var bid, ask := TopVolume(book.bids, n), TopVolume(book.asks, n);
    VolumeNonNegative(if |book.bids| <= n then book.bids else book.bids[..n]);
    VolumeNonNegative(if |book.asks| <= n then book.asks else book.asks[..n]);
    if bid + ask > 0.0 { RatioSign(bid, ask, bid + ask, (bid - ask) / (bid + ask)); }
  }

  lemma RatioSign(bid: real, ask: real, total: real, q: real)
    requires 0.0 <= bid && 0.0 <= ask && total == bid + ask && total > 0.0 && q == (bid - ask) / total
    ensures (q > 0.0 <==> bid > ask) && (q < 0.0 <==> bid < ask)
    ensures (q == 1.0 <==> ask == 0.0) && (q == -1.0 <==> bid == 0.0)
  {
    QuotientTimes(bid - ask, total);
    assert q * total == bid - ask;
    ScaleStrict(0.0, q, total);
    ScaleStrict(q, 0.0, total);
    ScaleStrict(1.0, q, total);
    ScaleStrict(q, 1.0, total);
    ScaleStrict(-1.0, q, total);
    ScaleStrict(q, -1.0, total);
    assert q == 1.0 ==> q * total == total;
    assert q == -1.0 ==> q * total == -total;
  }

  // ---------------------------------------------------------------- the walk

  datatype Fill = Fill(cost: real, filled: real)

  /** What an order of the given size pays and gets, taking the levels in order. */
  function Walk(levels: seq<Level>, size: real): Fill {
    if levels == [] then Fill(0.0, 0.0)
    else
      var fill := Min(size, levels[0].qty);
      var left := size - fill;
      if left <= 0.0 then Fill(levels[0].price * fill, fill)
      else
        var rest := Walk(levels[1..], left);
        Fill(levels[0].price * fill + rest.cost, fill + rest.filled)
  }

  /** The source's loop, with its early exit. */
  method WalkBook(levels: seq<Level>, size: real) returns (cost: real, filled: real)
    ensures Fill(cost, filled) == Walk(levels, size)
  {
    var remaining := size;
    cost, filled := 0.0, 0.0;
    var i := 0;
    while i < |levels|
      invariant 0 <= i <= |levels|
      invariant Walk(levels, size) == Fill(cost + Walk(levels[i..], remaining).cost,
                                           filled + Walk(levels[i..], remaining).filled)
    {
      var fill := Min(remaining, levels[i].qty);
      assert levels[i..][1..] == levels[i + 1..];
      cost := cost + levels[i].price * fill;
      filled := filled + fill;
      remaining := remaining - fill;
      if remaining <= 0.0 {
        return;
      }
      i := i + 1;
    }
  }

  lemma NothingCostsNothing(levels: seq<Level>)
    requires NonNegative(levels)
    ensures Walk(levels, 0.0) == Fill(0.0, 0.0)
  {
  }

  /** A fill of one level at price c, followed by the fill of the rest. */
  function Plus(c: real, fill: real, rest: Fill): Fill {
    Fill(c * fill + rest.cost, fill + rest.filled)
  }

  /** One level, then the rest of the book for what is left: the early exit makes no difference. */
  lemma WalkStep(levels: seq<Level>, size: real, fill: real)
    requires levels != [] && NonNegative(levels) && 0.0 <= size && fill == Min(size, levels[0].qty)
    ensures Walk(levels, size) == Plus(levels[0].price, fill, Walk(levels[1..], size - fill))
    ensures size <= levels[0].qty ==> Walk(levels[1..], size - fill) == Fill(0.0, 0.0)
  {
    NothingCostsNothing(levels[1..]);
  }

  /** The walk fills all it can: the order, or the whole side. */
  lemma {:induction false} WalkFills(levels: seq<Level>, size: real)
    requires NonNegative(levels) && 0.0 <= size
    ensures 0.0 <= Walk(levels, size).filled == Min(size, Volume(levels))
  {
    VolumeNonNegative(levels);
    if levels != [] {
      VolumeNonNegative(levels[1..]);
      if size > levels[0].qty {
        WalkFills(levels[1..], size - levels[0].qty);
      }
    }
  }

  /** Between two fills, every extra unit costs at least p. */
  ghost predicate Marginal(p: real, a: Fill, b: Fill) {
    a.filled <= b.filled && p * (b.filled - a.filled) <= b.cost - a.cost
  }

  lemma SumMarginal(p: real, c: real, first: real, later: real, cost: real, extra: real)
    requires p <= c && 0.0 <= first && p * later <= cost && extra == first + later
    ensures p * extra <= c * first + cost
  {
    assert p * extra == p * first + p * later;
    assert p * first <= c * first by { ScaleMono(p, c, first); }
  }

  lemma AddMarginal(p: real, c: real, fx: real, fy: real, rx: Fill, ry: Fill)
    requires p <= c && fx <= fy && Marginal(p, rx, ry)
    ensures Marginal(p, Plus(c, fx, rx), Plus(c, fy, ry))
  {
    var a, b := Plus(c, fx, rx), Plus(c, fy, ry);
    assert c * fy - c * fx == c * (fy - fx);
    SumMarginal(p, c, fy - fx, ry.filled - rx.filled, ry.cost - rx.cost, b.filled - a.filled);
  }

  ghost predicate PricesFrom(levels: seq<Level>, p: real) {
    forall i :: 0 <= i < |levels| ==> p <= levels[i].price
  }

  /** A bigger order pays at least p for every extra unit, p being no more than any price. */
  lemma {:induction false} MarginalCost(levels: seq<Level>, x: real, y: real, p: real)
    requires NonNegative(levels) && PricesFrom(levels, p) && 0.0 <= x <= y
    ensures Marginal(p, Walk(levels, x), Walk(levels, y))
  {
    if levels != [] {
      var fx, fy, rest := Min(x, levels[0].qty), Min(y, levels[0].qty), levels[1..];
      WalkStep(levels, x, fx);
      WalkStep(levels, y, fy);
      MarginalCost(rest, x - fx, y - fy, p);
      AddMarginal(p, levels[0].price, fx, fy, Walk(rest, x - fx), Walk(rest, y - fy));
    }
  }

  /** The average price of `a` is no higher than that of `b`, cross-multiplied. */
  ghost predicate NoDearer(a: Fill, b: Fill) {
    a.cost * b.filled <= b.cost * a.filled
  }

  function Average(f: Fill): real
    requires f.filled > 0.0
  {
    f.cost / f.filled
  }

  lemma AveragesOrdered(a: Fill, b: Fill)
    requires a.filled > 0.0 && b.filled > 0.0 && NoDearer(a, b)
    ensures Average(a) <= Average(b)
  {
    CrossMultiply(a.cost, a.filled, b.cost, b.filled);
  }

  /** The same first level put in front of both fills keeps the comparison. */
  lemma AddAverage(c: real, fx: real, fy: real, rx: Fill, ry: Fill)
    requires NoDearer(rx, ry) && Marginal(c, rx, ry) && 0.0 <= fx
    requires fx == fy || rx == Fill(0.0, 0.0)
    ensures NoDearer(Plus(c, fx, rx), Plus(c, fy, ry))
  {
    var gx, gy, wx, wy := rx.filled, ry.filled, rx.cost, ry.cost;
    ScaleMono(c * (gy - gx), wy - wx, fx);
    assert fx * (c * (gy - gx)) == c * fx * gy - c * fx * gx;
    assert fx * (wy - wx) == wy * fx - wx * fx;
    assert (c * fx + wx) * (fy + gy) == c * fx * fy + c * fx * gy + wx * fy + wx * gy;
    assert (c * fy + wy) * (fx + gx) == c * fx * fy + c * fy * gx + wy * fx + wy * gx;
  }

  /** A bigger order pays no better an average price. */
  lemma {:induction false} AverageCostRises(levels: seq<Level>, x: real, y: real)
    requires NonNegative(levels) && Ascending(levels) && 0.0 <= x <= y
    ensures NoDearer(Walk(levels, x), Walk(levels, y))
  {
    if levels != [] {
      var fx, fy, rest := Min(x, levels[0].qty), Min(y, levels[0].qty), levels[1..];
      WalkStep(levels, x, fx);
      WalkStep(levels, y, fy);
      AverageCostRises(rest, x - fx, y - fy);
      MarginalCost(rest, x - fx, y - fy, levels[0].price);
      AddAverage(levels[0].price, fx, fy, Walk(rest, x - fx), Walk(rest, y - fy));
    }
  }

  // ---------------------------------------------------------------- depth and the walk

  /** Filled in full, for no more than `limit` each. */
  ghost predicate BoughtWithin(f: Fill, limit: real, size: real) {
    f.filled == size && f.cost <= limit * size
  }

  lemma PlusBought(c: real, limit: real, fill: real, rest: Fill, left: real, size: real)
    requires c <= limit && 0.0 <= fill && BoughtWithin(rest, limit, left) && size == fill + left
    ensures BoughtWithin(Plus(c, fill, rest), limit, size)
  {
    ScaleMono(c, limit, fill);
    assert limit * size == limit * fill + limit * left;
  }

  /** A purchase within the depth at its limit is filled in full, at no more than the limit on average. */
  lemma {:induction false} DepthBuys(levels: seq<Level>, limit: real, size: real)
    requires NonNegative(levels) && Ascending(levels) && 0.0 <= size <= Depth(levels, true, limit)
    ensures BoughtWithin(Walk(levels, size), limit, size)
  {
    if levels != [] && levels[0].price <= limit {
      var fill := Min(size, levels[0].qty);
      DepthNonNegative(levels[1..], true, limit);
      DepthBuys(levels[1..], limit, size - fill);
      WalkStep(levels, size, fill);
      PlusBought(levels[0].price, limit, fill, Walk(levels[1..], size - fill), size - fill, size);
    } else {
      DepthCounts(levels, true, limit);
      NothingCostsNothing(levels);
    }
  }

  /** Filled in full, for no less than `limit` each. */
  ghost predicate SoldWithin(f: Fill, limit: real, size: real) {
    f.filled == size && limit * size <= f.cost
  }

  lemma PlusSold(c: real, limit: real, fill: real, rest: Fill, left: real, size: real)
    requires limit <= c && 0.0 <= fill && SoldWithin(rest, limit, left) && size == fill + left
    ensures SoldWithin(Plus(c, fill, rest), limit, size)
  {
    ScaleMono(limit, c, fill);
    assert limit * size == limit * fill + limit * left;
  }

  /** A sale within the depth at its limit is filled in full, at no less than the limit on average. */
  lemma {:induction false} DepthSells(levels: seq<Level>, limit: real, size: real)
    requires NonNegative(levels) && Descending(levels) && 0.0 <= size <= Depth(levels, false, limit)
    ensures SoldWithin(Walk(levels, size), limit, size)
  {
    if levels != [] && limit <= levels[0].price {
      var fill := Min(size, levels[0].qty);
      DepthNonNegative(levels[1..], false, limit);
      DepthSells(levels[1..], limit, size - fill);
      WalkStep(levels, size, fill);
      PlusSold(levels[0].price, limit, fill, Walk(levels[1..], size - fill), size - fill, size);
    } else {
      DepthCounts(levels, false, limit);
      NothingCostsNothing(levels);
    }
  }

  lemma {:induction false} DepthNonNegative(levels: seq<Level>, isBuy: bool, limit: real)
    requires NonNegative(levels)
    ensures 0.0 <= Depth(levels, isBuy, limit)
  {
    if levels != [] { DepthNonNegative(levels[1..], isBuy, limit); }
  }

  // ---------------------------------------------------------------- the walk is the cheapest fill

  /** Any way of taking some quantity from each level. */
  ghost predicate Allocation(levels: seq<Level>, take: seq<real>) {
    |take| == |levels| && forall i :: 0 <= i < |take| ==> 0.0 <= take[i] <= levels[i].qty
  }

  function Taking(levels: seq<Level>, take: seq<real>): Fill
    requires |take| == |levels|
  {
    if take == [] then Fill(0.0, 0.0) else Plus(levels[0].price, take[0], Taking(levels[1..], take[1..]))
  }

  ghost predicate Cheapest(a: Fill, b: Fill) {
    a.filled == b.filled && a.cost <= b.cost
  }

  lemma {:induction false} TakingBounds(levels: seq<Level>, take: seq<real>)
    requires Allocation(levels, take)
    ensures 0.0 <= Taking(levels, take).filled <= Volume(levels)
  {
    if take != [] {
      TakingBounds(levels[1..], take[1..]);
    }
  }

  /** Taking less at the first level than the walk does, and more later, costs no less. */
  lemma FirstLevelFirst(c: real, taken: real, fill: real, less: Fill, more: Fill, other: Fill)
    requires Marginal(c, less, more) && Cheapest(more, other) && taken + other.filled == fill + less.filled
    ensures Cheapest(Plus(c, fill, less), Plus(c, taken, other))
  {
    var d := more.filled - less.filled;
    assert d == fill - taken;
    assert c * d == c * fill - c * taken;
  }

  /** No other way of filling the same quantity from a sorted book costs less than the walk. */
  lemma {:induction false} WalkIsCheapest(levels: seq<Level>, take: seq<real>, total: real)
    requires NonNegative(levels) && Ascending(levels) && Allocation(levels, take)
    requires total == Taking(levels, take).filled
    ensures Cheapest(Walk(levels, total), Taking(levels, take))
  {
    TakingBounds(levels, take);
    if take != [] {
      var rest, fill := levels[1..], Min(total, levels[0].qty);
      var more, less := total - take[0], total - fill;
      TakingBounds(rest, take[1..]);
      WalkIsCheapest(rest, take[1..], more);
      assert Walk(rest, less).filled == less by { WalkFills(rest, less); }
      MarginalCost(rest, less, more, levels[0].price);
      WalkStep(levels, total, fill);
      FirstLevelFirst(levels[0].price, take[0], fill, Walk(rest, less), Walk(rest, more), Taking(rest, take[1..]));
    }
  }

  // ---------------------------------------------------------------- selling

  function Negated(levels: seq<Level>): (r: seq<Level>)
    ensures |r| == |levels|
    ensures forall i :: 0 <= i < |r| ==> r[i] == Level(-levels[i].price, levels[i].qty)
  {
    seq(|levels|, i requires 0 <= i < |levels| => Level(-levels[i].price, levels[i].qty))
  }

  lemma NegatedProduct(c: real, f: real)
    ensures (-c) * f == -(c * f)
  {
  }

  /** Selling into bids is buying from the mirrored book. */
  lemma {:induction false} WalkNegated(levels: seq<Level>, size: real)
    ensures Walk(Negated(levels), size) == Fill(-Walk(levels, size).cost, Walk(levels, size).filled)
  {
    if levels != [] {
      var fill := Min(size, levels[0].qty);
      assert Negated(levels)[0] == Level(-levels[0].price, levels[0].qty);
      assert Negated(levels)[1..] == Negated(levels[1..]);
      var left := size - fill;
      WalkNegated(levels[1..], left);
      var paid, mirrored := levels[0].price * fill, -levels[0].price * fill;
      assert mirrored == -paid by { NegatedProduct(levels[0].price, fill); }
      if left <= 0.0 {
        assert Walk(levels, size) == Fill(paid, fill);
        assert Walk(Negated(levels), size) == Fill(mirrored, fill);
      }
    }
  }

  lemma MirrorNoDearer(a: Fill, b: Fill)
    requires NoDearer(Fill(-a.cost, a.filled), Fill(-b.cost, b.filled))
    ensures NoDearer(b, a)
  {
    assert (-a.cost) * b.filled == -(a.cost * b.filled);
    assert (-b.cost) * a.filled == -(b.cost * a.filled);
  }

  /** A bigger sale earns no better an average price. */
  lemma AverageProceedsFall(levels: seq<Level>, x: real, y: real)
    requires NonNegative(levels) && Descending(levels) && 0.0 <= x <= y
    ensures NoDearer(Walk(levels, y), Walk(levels, x))
  {
    AverageCostRises(Negated(levels), x, y);
    WalkNegated(levels, x);
    WalkNegated(levels, y);
    MirrorNoDearer(Walk(levels, x), Walk(levels, y));
  }
}
