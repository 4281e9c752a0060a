/**
 The running latency statistics of `crates/executionhandler/src/latency_optimizer.rs`.
 Sums are 64-bit and wrap; the reference is exact arithmetic over the whole history.
 */
module LatencyStats {
  import opened Arithmetic

  const U64_SPAN: nat := 0x1_0000_0000_0000_0000
  const TREND_LENGTH: nat := 10

  function Wrap(x: int): (r: nat)
    ensures r < U64_SPAN
  {
    x % U64_SPAN
  }

  function Sum(h: seq<nat>): nat {
    if h == [] then 0 else Sum(h[..|h| - 1]) + h[|h| - 1]
  }

  function SumSquares(h: seq<nat>): nat {
    if h == [] then 0 else SumSquares(h[..|h| - 1]) + h[|h| - 1] * h[|h| - 1]
  }

  function Suffix(h: seq<nat>, n: nat): seq<nat> {
    if |h| <= n then h else h[|h| - n..]
  }

  /** The latest `n` samples, or all while there are fewer, in order. */
  lemma SuffixMeaning(h: seq<nat>, n: nat)
    ensures |Suffix(h, n)| == if |h| < n then |h| else n
    ensures forall i :: 0 <= i < |Suffix(h, n)| ==> Suffix(h, n)[i] == h[|h| - |Suffix(h, n)| + i]
  {
  }

  /** The reference: both divisions floored, over unbounded integers. */
  function IntegerVariance(h: seq<nat>): int {
    FlooredVariance(|h|, Sum(h), SumSquares(h))
  }

  function FlooredVariance(count: nat, sum: nat, squares: nat): int {
    if count > 1 then squares / count - (sum / count) * (sum / count) else 0
  }

  /** The source's expression, in wrapping 64-bit arithmetic. */
  function WrappedVariance(count: nat, sum: nat, sumSquared: nat): nat {
    if count > 1 then Wrap(sumSquared / count - Wrap((sum / count) * (sum / count))) else 0
  }

  // ---------------------------------------------------------------- Cauchy-Schwarz

  /** One step: from (sum)^2 <= n * squares to the same with one more sample. */
  lemma CauchyStep(s: nat, q: nat, n: nat, x: nat)
    requires s * s <= n * q
    ensures (s + x) * (s + x) <= (n + 1) * (q + x * x)
  {
    if n == 0 {
      assert s == 0;
    } else {
      var gap := q + n * (x * x) - 2 * (s * x);
      assert n * gap >= 0 by {
        var d := s - n * x;
        assert d * d >= 0;
        assert d * d == s * s - 2 * (n * (s * x)) + n * (n * (x * x));
        assert n * gap == n * q + n * (n * (x * x)) - 2 * (n * (s * x));
      }
      assert gap >= 0;
      assert (s + x) * (s + x) == s * s + 2 * (s * x) + x * x;
      assert (n + 1) * (q + x * x) == n * q + n * (x * x) + q + x * x;
    }
  }

  lemma {:induction false} CauchySchwarz(h: seq<nat>)
    ensures Sum(h) * Sum(h) <= |h| * SumSquares(h)
  {
    if h != [] {
      var n := |h| - 1;
      CauchySchwarz(h[..n]);
      CauchyStep(Sum(h[..n]), SumSquares(h[..n]), n, h[n]);
    }
  }

  /** The floor of the mean, squared, is at most the floor of the mean square. */
  lemma FloorsOrdered(s: nat, q: nat, n: nat)
    requires 0 < n && s * s <= n * q
    ensures (s / n) * (s / n) <= q / n
  {
    var a := s / n;
    var an := a * n;
    assert an <= s by { assert s == (s / n) * n + s % n; }
    SquareMono(an, s);
    assert an * an == n * (n * (a * a)) by { Regroup(a, n); }
    MulStep(q, n * (a * a), n);
    BelowQuotient(a * a, n, q);
  }

  lemma Regroup(a: nat, n: nat)
    ensures (a * n) * (a * n) == n * (n * (a * a))
  {
    MulAssociates(a, n, a * n);
    MulAssociates(n, a, n);
    MulAssociates(a, n, a);
    var aa := a * a;
    assert n * (a * n) == n * n * a;
    assert a * (n * n * a) == n * n * aa;
    assert n * n * aa == n * (n * aa);
  }

  lemma BelowQuotient(x: nat, n: nat, q: nat)
    requires 0 < n && n * x <= q
    ensures x <= q / n
  {
    assert q == (q / n) * n + q % n;
    MulStep(q / n, x, n);
  }

  lemma VarianceNonNegative(h: seq<nat>)
    ensures 0 <= IntegerVariance(h)
  {
    if |h| > 1 {
      CauchySchwarz(h);
      FloorsOrdered(Sum(h), SumSquares(h), |h|);
    }
  }

  lemma {:induction false} SumBelowSquares(h: seq<nat>)
    ensures Sum(h) <= SumSquares(h)
  {
    if h != [] {
      SumBelowSquares(h[..|h| - 1]);
      var x := h[|h| - 1];
      if x > 0 { MulMono(1, x, x); }
    }
  }

  /**
   The source's variance never underflows: for every history whose sum of squares fits in
   64 bits, the wrapping expression is the exact integer variance.
   */
  lemma VarianceNeverUnderflows(h: seq<nat>)
    requires SumSquares(h) < U64_SPAN && |h| < U64_SPAN
    ensures Sum(h) < U64_SPAN && 0 <= IntegerVariance(h) < U64_SPAN
    ensures WrappedVariance(|h|, Wrap(Sum(h)), Wrap(SumSquares(h))) == IntegerVariance(h)
  {
    SumBelowSquares(h);
    CauchySchwarz(h);
    FitsIsExact(|h|, Sum(h), SumSquares(h));
  }

  lemma FitsIsExact(n: nat, s: nat, q: nat)
    requires s < U64_SPAN && q < U64_SPAN && s * s <= n * q
    ensures 0 <= FlooredVariance(n, s, q) < U64_SPAN
    ensures WrappedVariance(n, Wrap(s), Wrap(q)) == FlooredVariance(n, s, q)
  {
    if n > 1 {
      FloorsOrdered(s, q, n);
      RightWhenFits(n, s, q, s / n, (s / n) * (s / n), q / n);
    }
  }

  lemma QuotientSmaller(x: nat, n: nat)
    requires 0 < n
    ensures 0 <= x / n <= x
  {
    assert x == (x / n) * n + x % n;
    MulMono(1, n, x / n);
  }

  // ---------------------------------------------------------------- when the sum of squares overflows

  lemma SquareMono(x: nat, b: nat)
    requires x <= b
    ensures x * x <= b * b
  {
    MulMono(x, b, x);
    MulMono(x, b, b);
  }

  lemma {:induction false} SumBounded(h: seq<nat>, b: nat, square: nat)
    requires square == b * b && forall i :: 0 <= i < |h| ==> h[i] <= b
    ensures Sum(h) <= |h| * b && SumSquares(h) <= |h| * square
  {
    if h != [] {
      var n := |h| - 1;
      SumBounded(h[..n], b, square);
      SquareMono(h[n], b);
      assert (n + 1) * b == n * b + b;
      assert (n + 1) * square == n * square + square;
    }
  }

  lemma MeanBelow(x: nat, n: nat, b: nat)
    requires 0 < n && x <= n * b
    ensures x / n <= b
  {
    assert x == (x / n) * n + x % n;
    MulStep(b, x / n, n);
  }

  /** Losing a multiple of 2^64 from the dividend changes the quotient. */
  lemma QuotientsDiffer(q: nat, w: nat, n: nat)
    requires 0 < n <= U64_SPAN && w + U64_SPAN <= q
    ensures w / n < q / n
  {
    assert q == (q / n) * n + q % n && w == (w / n) * n + w % n;
    MulStep(q / n, w / n, n);
  }

  lemma WrapLoses(q: nat)
    requires U64_SPAN <= q
    ensures Wrap(q) + U64_SPAN <= q
  {
    var k := q / U64_SPAN;
    assert q == k * U64_SPAN + Wrap(q);
    MulStep(k, 1, U64_SPAN);
  }

  lemma VarianceWrongWhenOver(n: nat, s: nat, q: nat, mean: nat, aa: nat, m: nat)
    requires 1 < n <= U64_SPAN && s < U64_SPAN <= q
    requires mean == s / n && aa == mean * mean && m == q / n && aa <= m < U64_SPAN
    ensures WrappedVariance(n, Wrap(s), Wrap(q)) != m - aa
  {
    var w := Wrap(q);
    DivModUnique(s, U64_SPAN, 0, s);
    DivModUnique(aa, U64_SPAN, 0, aa);
    WrapLoses(q);
    QuotientsDiffer(q, w, n);
    QuotientSmaller(w, n);
    WrongWhenShort(w / n, m, aa);
  }

  /**
   Exactly when it is right: as long as the sum and the mean square fit in 64 bits, the wrapping
   variance is the integer variance if and only if the sum of squares fits too.
   */
  lemma VarianceCorrectIff(h: seq<nat>)
    requires 1 < |h| < U64_SPAN && Sum(h) < U64_SPAN && SumSquares(h) / |h| < U64_SPAN
    ensures WrappedVariance(|h|, Wrap(Sum(h)), Wrap(SumSquares(h))) == IntegerVariance(h)
            <==> SumSquares(h) < U64_SPAN
  {
    CauchySchwarz(h);
    CorrectIff(|h|, Sum(h), SumSquares(h));
  }

  lemma CorrectIff(n: nat, s: nat, q: nat)
    requires 1 < n < U64_SPAN && s < U64_SPAN && q / n < U64_SPAN && s * s <= n * q
    ensures WrappedVariance(n, Wrap(s), Wrap(q)) == FlooredVariance(n, s, q) <==> q < U64_SPAN
  {
    var mean, m := s / n, q / n;
    FloorsOrdered(s, q, n);
    if q < U64_SPAN {
      RightWhenFits(n, s, q, mean, mean * mean, m);
    } else {
      VarianceWrongWhenOver(n, s, q, mean, mean * mean, m);
    }
  }

  lemma RightWhenFits(n: nat, s: nat, q: nat, mean: nat, aa: nat, m: nat)
    requires 1 < n && s < U64_SPAN && q < U64_SPAN
    requires mean == s / n && aa == mean * mean && m == q / n && aa <= m
    ensures WrappedVariance(n, Wrap(s), Wrap(q)) == m - aa < U64_SPAN
  {
    QuotientSmaller(q, n);
    DivModUnique(s, U64_SPAN, 0, s);
    DivModUnique(q, U64_SPAN, 0, q);
    DivModUnique(aa, U64_SPAN, 0, aa);
    DivModUnique(m - aa, U64_SPAN, 0, m - aa);
  }

  /** That covers every history of at most b samples of at most b, where b * b fits: up to 2^32 - 1. */
  lemma SmallSamplesFit(h: seq<nat>, b: nat, square: nat)
    requires 0 < |h| <= b && square == b * b < U64_SPAN && forall i :: 0 <= i < |h| ==> h[i] <= b
    ensures Sum(h) < U64_SPAN && SumSquares(h) / |h| < U64_SPAN
  {
    SumBounded(h, b, square);
    MulMono(|h|, b, b);
    MeanBelow(SumSquares(h), |h|, square);
  }

  /** Beyond, two wraps can cancel: the sum of squares of two samples of 2^32 overflows, yet the answer is right. */
  lemma WrapsCanCancel()
    ensures var h := [0x1_0000_0000, 0x1_0000_0000];
            && SumSquares(h) >= U64_SPAN && SumSquares(h) / |h| >= U64_SPAN
            && WrappedVariance(|h|, Wrap(Sum(h)), Wrap(SumSquares(h))) == IntegerVariance(h) == 0
  {
    var x: nat := 0x1_0000_0000;
    PairSums(x, x * x);
    DivModUnique(2 * U64_SPAN, U64_SPAN, 2, 0);
    DivModUnique(U64_SPAN, U64_SPAN, 1, 0);
  }

  lemma PairSums(x: nat, square: nat)
    requires square == x * x
    ensures Sum([x, x]) == 2 * x && SumSquares([x, x]) == 2 * square
  {
    assert [x, x][..1] == [x];
    assert [x][..0] == [];
    assert Sum([x]) == x && SumSquares([x]) == square;
  }

  lemma WrongWhenShort(low: int, m: int, aa: int)
    requires 0 <= low < m < U64_SPAN && 0 <= aa <= m
    ensures Wrap(low - aa) != m - aa
  {
    if low >= aa {
      DivModUnique(low - aa, U64_SPAN, 0, low - aa);
    } else {
      DivModUnique(low - aa, U64_SPAN, -1, low - aa + U64_SPAN);
    }
  }

  function Repeat(x: nat, n: nat): (r: seq<nat>)
    ensures |r| == n
  {
    if n == 0 then [] else Repeat(x, n - 1) + [x]
  }

  lemma {:induction false} RepeatSums(x: nat, n: nat, square: nat)
    requires square == x * x
    ensures Sum(Repeat(x, n)) == n * x && SumSquares(Repeat(x, n)) == n * square
    ensures forall i :: 0 <= i < n ==> Repeat(x, n)[i] == x
  {
    if n > 0 {
      RepeatSums(x, n - 1, square);
      assert Repeat(x, n)[..n - 1] == Repeat(x, n - 1);
      assert (n - 1) * x + x == n * x;
      assert (n - 1) * square + square == n * square;
    }
  }

  /** What `record_error` records under the default 500 ms threshold. */
  const ERROR_SAMPLE_NS: nat := 500_000_000

  /** Seventy-three errors in a row are handled; the seventy-fourth breaks the variance. */
  lemma ErrorStreak(n: nat)
    requires 1 < n && n * ERROR_SAMPLE_NS < U64_SPAN
    ensures var h := Repeat(ERROR_SAMPLE_NS, n);
            WrappedVariance(n, Wrap(Sum(h)), Wrap(SumSquares(h))) == IntegerVariance(h) <==> n <= 73
  {
    var square := ERROR_SAMPLE_NS * ERROR_SAMPLE_NS;
    RepeatSums(ERROR_SAMPLE_NS, n, square);
    DivModUnique(n * square, n, square, 0);
    VarianceCorrectIff(Repeat(ERROR_SAMPLE_NS, n));
  }

  // ---------------------------------------------------------------- the accumulator object

  lemma WrapAdd(a: int, x: int)
    ensures Wrap(Wrap(a) + x) == Wrap(a + x)
    ensures Wrap(Wrap(a) + Wrap(x)) == Wrap(a + x)
  {
    var qa, qx := a / U64_SPAN, x / U64_SPAN;
    assert a == qa * U64_SPAN + Wrap(a) && x == qx * U64_SPAN + Wrap(x);
    WrapShift(Wrap(a) + x, qa);
    WrapShift(Wrap(a) + Wrap(x), qa + qx);
  }

  lemma WrapShift(x: int, k: int)
    ensures Wrap(x + k * U64_SPAN) == Wrap(x)
  {
    var q := x / U64_SPAN;
    assert x == q * U64_SPAN + Wrap(x);
    DivModUnique(x + k * U64_SPAN, U64_SPAN, q + k, Wrap(x));
  }

  /** The three accumulators hold the history's exact sums modulo 2^64. */
  ghost predicate Tracks(h: seq<nat>, count: nat, sum: nat, sumSquared: nat) {
    count == Wrap(|h|) && sum == Wrap(Sum(h)) && sumSquared == Wrap(SumSquares(h))
  }

  lemma TracksGrow(h: seq<nat>, count: nat, sum: nat, sumSquared: nat, x: nat)
    requires Tracks(h, count, sum, sumSquared)
    ensures Tracks(h + [x], Wrap(count + 1), Wrap(sum + x), Wrap(sumSquared + Wrap(x * x)))
  {
    assert (h + [x])[..|h|] == h;
    WrapAdd(|h|, 1);
    WrapAdd(Sum(h), x);
    WrapAdd(SumSquares(h), x * x);
  }

  /** The least and greatest of a history; the source's sentinels before the first sample. */
  ghost predicate Extremes(h: seq<nat>, min: nat, max: nat) {
    && (forall i :: 0 <= i < |h| ==> min <= h[i] <= max)
    && (if h == [] then min == U64_SPAN - 1 && max == 0 else min in h && max in h)
  }

  lemma ExtremesGrow(h: seq<nat>, min: nat, max: nat, x: nat)
    requires Extremes(h, min, max) && x < U64_SPAN
    ensures Extremes(h + [x], if x < min then x else min, if x > max then x else max)
  {
    var g := h + [x];
    assert g[|h|] == x;
    if h != [] {
      assert min in g && max in g;
    }
  }

  class LatencySamples {
    var samples: seq<nat>
    var recentTrend: seq<nat>
    var count: nat
    var sum: nat
    var sumSquared: nat
    var min: nat
    var max: nat
    const window: nat
    ghost var history: seq<nat>

    ghost predicate Valid()
      reads this
    {
      && Tracks(history, count, sum, sumSquared)
      && samples == Suffix(history, window) && recentTrend == Suffix(history, TREND_LENGTH)
      && Extremes(history, min, max)
    }

    constructor (window: nat)
      ensures Valid() && history == [] && this.window == window
    {
      this.window := window;
      samples, recentTrend, count, sum, sumSquared := [], [], 0, 0, 0;
      min, max, history := U64_SPAN - 1, 0, [];
    }

    method RecordLatency(latency: nat)
      requires Valid() && latency < U64_SPAN
      modifies this
      ensures Valid() && history == old(history) + [latency]
    {
      ExtremesGrow(history, min, max, latency);
      var c, s, q := Accumulate(count, sum, sumSquared, latency, history);
      var kept := Push(samples, latency, window, history);
      var trend := Push(recentTrend, latency, TREND_LENGTH, history);
      count, sum, sumSquared, samples, recentTrend := c, s, q, kept, trend;
      min := if latency < min then latency else min;
      max := if latency > max then latency else max;
      history := history + [latency];
    }

    /** The variance of `get_stats` and `calculate_score`. */
    method Variance() returns (v: nat)
      requires Valid()
      ensures v == WrappedVariance(count, sum, sumSquared)
      ensures SumSquares(history) < U64_SPAN && |history| < U64_SPAN ==> v == IntegerVariance(history)
    {
      if count > 1 {
        var avg := sum / count;
        v := Wrap(sumSquared / count - Wrap(avg * avg));
      } else {
        v := 0;
      }
      if SumSquares(history) < U64_SPAN && |history| < U64_SPAN {
        VarianceNeverUnderflows(history);
        DivModUnique(|history|, U64_SPAN, 0, |history|);
      }
    }
  }

  method Accumulate(count: nat, sum: nat, sumSquared: nat, x: nat, ghost h: seq<nat>)
    returns (c: nat, s: nat, q: nat)
    requires Tracks(h, count, sum, sumSquared)
    ensures Tracks(h + [x], c, s, q)
  {
    TracksGrow(h, count, sum, sumSquared, x);
    c := Wrap(count + 1);
    s := Wrap(sum + x);
    q := Wrap(sumSquared + Wrap(x * x));
  }

  /** Push at the back, drop one from the front if over the window. */
  method Push(kept: seq<nat>, x: nat, window: nat, ghost h: seq<nat>) returns (r: seq<nat>)
    requires kept == Suffix(h, window)
    ensures r == Suffix(h + [x], window)
  {
    r := kept + [x];
    if |r| > window {
      r := r[1..];
    }
  }
}
