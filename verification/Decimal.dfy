/** Powers of ten. */
module PowersOfTen {
  function Pow10(n: nat): (r: nat)
    ensures 0 < r
  {
    if n == 0 then 1 else 10 * Pow10(n - 1)
  }

  lemma {:induction false} Pow10Add(a: nat, b: nat)
    ensures Pow10(a + b) == Pow10(a) * Pow10(b)
  {
    if a > 0 {
      Pow10Add(a - 1, b);
      assert Pow10(a) * Pow10(b) == 10 * (Pow10(a - 1) * Pow10(b));
    }
  }

  lemma {:induction false} Pow10Mono(a: nat, b: nat)
    requires a <= b
    ensures Pow10(a) <= Pow10(b)
  {
    if a < b { Pow10Mono(a, b - 1); }
  }
}

/**
 The exact decimal of `crates/broker-adapters/src/decimal.rs`: units / 10^scale with 128-bit
 units and a scale of at most 18.  Arithmetic the source leaves unchecked wraps, as it does
 in a build without overflow checks.
 */
module Decimal {
  import opened Wrappers
  import opened Arithmetic
  import opened PowersOfTen

  const MAX_SCALE: nat := 18
  const I128_MAX: int := 0x7FFF_FFFF_FFFF_FFFF_FFFF_FFFF_FFFF_FFFF
  const I128_MIN: int := -0x8000_0000_0000_0000_0000_0000_0000_0000
  const I128_SPAN: int := 0x1_0000_0000_0000_0000_0000_0000_0000_0000

  predicate InRange(x: int) { I128_MIN <= x <= I128_MAX }

  function Wrap(x: int): (r: int)
    ensures InRange(r)
  {
    (x - I128_MIN) % I128_SPAN + I128_MIN
  }

  lemma WrapExact(x: int)
    ensures Wrap(x) == x <==> InRange(x)
  {
    if InRange(x) { DivModUnique(x - I128_MIN, I128_SPAN, 0, x - I128_MIN); }
  }

  datatype Dec = Dec(units: int, scale: nat)

  ghost predicate Valid(d: Dec) { InRange(d.units) && d.scale <= MAX_SCALE }

  datatype Error = Invalid | TooPrecise | Overflow | ScaleTooLarge | BadStep

  datatype Rounding = Floor | Ceil | HalfUp

  datatype Ordering = Less | Equal | Greater

  function CompareInt(x: int, y: int): Ordering {
    if x < y then Less else if x == y then Equal else Greater
  }

  /** The rational a decimal denotes. */
  function Value(d: Dec): real {
    d.units as real / Pow10(d.scale) as real
  }

  /** Comparison of the denoted rationals by cross-multiplication. */
  function CompareExact(a: Dec, b: Dec): Ordering {
    CompareInt(a.units * Pow10(b.scale), b.units * Pow10(a.scale))
  }

  lemma CompareExactIsByValue(a: Dec, b: Dec)
    ensures CompareExact(a, b) == if Value(a) < Value(b) then Less else if Value(a) == Value(b) then Equal else Greater
  {
    CrossMultiply(a.units, Pow10(a.scale), b.units, Pow10(b.scale));
  }

  lemma CrossMultiply(x: int, p: nat, y: int, q: nat)
    requires 0 < p && 0 < q
    ensures x as real / p as real < y as real / q as real <==> x * q < y * p
    ensures x as real / p as real == y as real / q as real <==> x * q == y * p
  {
    var u, v, rp, rq := x as real / p as real, y as real / q as real, p as real, q as real;
    assert u * rp == x as real && v * rq == y as real;
    assert (x * q) as real == (u * rp) * rq == u * (rp * rq);
    assert (y * p) as real == (v * rq) * rp == v * (rp * rq);
    var w := rp * rq;
    assert w > 0.0;
    if u < v { assert u * w < v * w; } else if v < u { assert v * w < u * w; }
  }

  // ---------------------------------------------------------------- comparison

  function IntFrac(d: Dec): (r: (int, int))
    ensures 0 <= r.1 < Pow10(d.scale) && d.units == r.0 * Pow10(d.scale) + r.1
  {
    var p := Pow10(d.scale);
    (d.units / p, d.units % p)
  }

  function Max(a: nat, b: nat): nat { if a >= b then a else b }

  /** `Ord::cmp`: integer parts first, then fractions rescaled to the larger scale. */
  function Compare(a: Dec, b: Dec): Ordering {
    var (ai, af) := IntFrac(a);
    var (bi, bf) := IntFrac(b);
    if ai != bi then CompareInt(ai, bi)
    else
      var s := Max(a.scale, b.scale);
      CompareInt(af * Pow10(s - a.scale), bf * Pow10(s - b.scale))
  }

  lemma CompareScaled(x: int, y: int, p: nat)
    requires 0 < p
    ensures CompareInt(x * p, y * p) == CompareInt(x, y)
  {
    MulStep(x, y, p);
  }

  lemma RescaleFraction(f: int, from: nat, to: nat)
    requires from <= to && 0 <= f < Pow10(from)
    ensures 0 <= f * Pow10(to - from) < Pow10(to)
    ensures Pow10(from) * Pow10(to - from) == Pow10(to)
  {
    Pow10Add(from, to - from);
    MulStep(f, Pow10(from), Pow10(to - from));
  }

  lemma FractionsCompare(af: int, sa: nat, bf: int, sb: nat)
    requires 0 <= af < Pow10(sa) && 0 <= bf < Pow10(sb)
    ensures var s := Max(sa, sb);
            CompareInt(af * Pow10(s - sa), bf * Pow10(s - sb)) == CompareInt(af * Pow10(sb), bf * Pow10(sa))
  {
    // the smaller scale's power is the common factor of both sides
    if sa <= sb {
      CommonFactor(af, sa, sb);
      CompareScaled(af * Pow10(sb - sa), bf, Pow10(sa));
    } else {
      CommonFactor(bf, sb, sa);
      CompareScaled(af, bf * Pow10(sa - sb), Pow10(sb));
    }
  }

  lemma CommonFactor(x: int, from: nat, to: nat)
    requires from <= to
    ensures (x * Pow10(to - from)) * Pow10(from) == x * Pow10(to)
  {
    Pow10Add(to - from, from);
    MulAssociates(x, Pow10(to - from), Pow10(from));
  }

  lemma IntegerPartsDecide(ai: int, af: int, p: nat, bi: int, bf: int, q: nat)
    requires 0 <= af < p && 0 <= bf < q
    ensures ai < bi ==> (ai * p + af) * q < (bi * q + bf) * p
    ensures ai == bi ==> CompareInt((ai * p + af) * q, (bi * q + bf) * p) == CompareInt(af * q, bf * p)
  {
    var w := p * q;
    SplitProduct(ai, af, p, q, w);
    SplitProduct(bi, bf, q, p, w);
    MulStep(af, p, q);
    MulStep(0, p, q);
    MulMono(0, bf, p);
    MulStep(ai, bi, w);
  }

  lemma SplitProduct(i: int, f: int, p: nat, q: nat, w: nat)
    requires w == p * q || w == q * p
    ensures (i * p + f) * q == i * w + f * q
  {
    MulAssociates(i, p, q);
    assert p * q == q * p;
    assert (i * p + f) * q == (i * p) * q + f * q;
  }

  /** `cmp` is comparison of the exact rationals, for all scales. */
  lemma CompareIsExact(a: Dec, b: Dec)
    ensures Compare(a, b) == CompareExact(a, b)
  {
    var (ai, af) := IntFrac(a);
    var (bi, bf) := IntFrac(b);
    var p, q := Pow10(a.scale), Pow10(b.scale);
    IntegerPartsDecide(ai, af, p, bi, bf, q);
    IntegerPartsDecide(bi, bf, q, ai, af, p);
    FractionsCompare(af, a.scale, bf, b.scale);
  }

  lemma Pow10Bounds()
    ensures Pow10(18) == 1_000_000_000_000_000_000
    ensures Pow10(38) == 100_000_000_000_000_000_000_000_000_000_000_000_000 <= I128_MAX
  {
    assert Pow10(9) == 1_000_000_000;
    Pow10Add(9, 9);
    Pow10Add(18, 18);
    Pow10Add(36, 2);
    assert Pow10(2) == 100;
  }

  /** Every intermediate of `cmp` fits in 128 bits. */
  lemma CompareStaysInRange(a: Dec, b: Dec)
    requires Valid(a) && Valid(b)
    ensures var s := Max(a.scale, b.scale);
            && InRange(Pow10(s)) && InRange(IntFrac(a).0) && InRange(IntFrac(a).1)
            && InRange(IntFrac(a).1 * Pow10(s - a.scale)) && InRange(IntFrac(b).1 * Pow10(s - b.scale))
  {
    var s := Max(a.scale, b.scale);
    PartsFit(a, s);
    PartsFit(b, s);
  }

  /** Both parts of a decimal, and its fraction brought to scale s, fit in 128 bits. */
  lemma PartsFit(d: Dec, s: nat)
    requires Valid(d) && d.scale <= s <= MAX_SCALE
    ensures InRange(Pow10(s)) && InRange(IntFrac(d).0)
    ensures InRange(IntFrac(d).1) && InRange(IntFrac(d).1 * Pow10(s - d.scale))
  {
    var f := IntFrac(d).1;
    assert Pow10(s) <= I128_MAX by { Pow10Bounds(); Pow10Mono(s, 18); }
    Pow10Mono(d.scale, s);
    RescaleFraction(f, d.scale, s);
    QuotientFits(d.units, Pow10(d.scale));
  }

  lemma QuotientFits(units: int, p: nat)
    requires InRange(units) && 0 < p
    ensures InRange(units / p)
  {
    var i := units / p;
    assert units == i * p + units % p;
    MulStep(i, I128_MAX + 1, p);
    MulStep(i, I128_MIN, p);
    MulMono(1, p, I128_MAX + 1);
  }

  // ---------------------------------------------------------------- normalization

  /** The loop of `normalized`. */
  function StripZeros(d: Dec): Dec
    decreases d.scale
  {
    if d.scale > 0 && d.units % 10 == 0 then StripZeros(Dec(d.units / 10, d.scale - 1)) else d
  }

  function Normalized(d: Dec): Dec {
    var n := StripZeros(d);
    if n.units == 0 then n.(scale := 0) else n
  }

  method Normalize(d: Dec) returns (n: Dec)
    ensures n == Normalized(d)
  {
    n := d;
    while n.scale > 0 && n.units % 10 == 0
      invariant StripZeros(n) == StripZeros(d)
      decreases n.scale
    {
      n := Dec(n.units / 10, n.scale - 1);
    }
    if n.units == 0 {
      n := n.(scale := 0);
    }
  }

  ghost predicate Canonical(d: Dec) {
    d.scale == 0 || d.units % 10 != 0
  }

  lemma {:induction false} StripZerosKeepsValue(d: Dec)
    ensures var n := StripZeros(d);
            && n.scale <= d.scale && Canonical(n)
            && d.units == n.units * Pow10(d.scale - n.scale)
            && (InRange(d.units) ==> InRange(n.units))
    decreases d.scale
  {
    if d.scale > 0 && d.units % 10 == 0 {
      var next := Dec(d.units / 10, d.scale - 1);
      StripZerosKeepsValue(next);
      var n := StripZeros(d);
      assert d.units == 10 * next.units;
      assert Pow10(d.scale - n.scale) == 10 * Pow10(next.scale - n.scale);
      MulAssociates(n.units, Pow10(next.scale - n.scale), 10);
    }
  }

  /** Normalization keeps the value, shortens the scale and ends in canonical form. */
  lemma NormalizedIsCanonical(d: Dec)
    ensures var n := Normalized(d);
            && Canonical(n) && n.scale <= d.scale
            && CompareExact(n, d) == Equal
            && (Valid(d) ==> Valid(n))
            && Normalized(n) == n
  {
    StripZerosKeepsValue(d);
    var n := StripZeros(d);
    Pow10Add(d.scale - n.scale, n.scale);
    MulAssociates(n.units, Pow10(d.scale - n.scale), Pow10(n.scale));
  }

  lemma CanonicalUnique(a: Dec, b: Dec)
    requires Canonical(a) && Canonical(b) && CompareExact(a, b) == Equal && a.scale <= b.scale
    ensures a == b
  {
    var k := b.scale - a.scale;
    Pow10Add(k, a.scale);
    MulAssociates(a.units, Pow10(k), Pow10(a.scale));
    CompareScaled(a.units * Pow10(k), b.units, Pow10(a.scale));
    assert a.units * Pow10(k) == b.units;
    if k > 0 {
      MulAssociates(a.units, Pow10(k - 1), 10);
      DivModUnique(b.units, 10, a.units * Pow10(k - 1), 0);
    }
  }

  /** Two decimals compare equal exactly when they normalize to the same units and scale. */
  lemma EqualIffSameNormalForm(a: Dec, b: Dec)
    ensures Compare(a, b) == Equal <==> Normalized(a) == Normalized(b)
  {
    var na, nb := Normalized(a), Normalized(b);
    CompareIsExact(a, b);
    NormalizedIsCanonical(a);
    NormalizedIsCanonical(b);
    CompareExactIsByValue(na, a);
    CompareExactIsByValue(nb, b);
    CompareExactIsByValue(a, b);
    CompareExactIsByValue(na, nb);
    CompareExactIsByValue(nb, na);
    if Compare(a, b) == Equal {
      if na.scale <= nb.scale { CanonicalUnique(na, nb); } else { CanonicalUnique(nb, na); }
    }
  }

  // ---------------------------------------------------------------- rounding

  function Bump(mode: Rounding, r: int, b: int): int {
    match mode
    case Floor => 0
    case Ceil => if r != 0 then 1 else 0
    case HalfUp => if Wrap(r * 2) >= b then 1 else 0
  }

  function RoundDp(d: Dec, dp: nat, mode: Rounding): Result<Dec, Error> {
    if dp > MAX_SCALE then Err(ScaleTooLarge)
    else if d.scale <= dp then Ok(Dec(Wrap(d.units * Pow10(dp - d.scale)), dp))
    else
      var div := Pow10(d.scale - dp);
      Ok(Dec(d.units / div + Bump(mode, d.units % div, div), dp))
  }

  function RoundToMultiple(d: Dec, step: Dec, mode: Rounding): Result<Dec, Error> {
    if step.units <= 0 then Err(BadStep)
    else
      var s := Max(d.scale, step.scale);
      RoundUnits(d.units * Pow10(s - d.scale), step.units * Pow10(s - step.scale), s, mode)
  }

  /** The rounding itself, both operands at scale `s`. */
  function RoundUnits(a: int, b: int, s: nat, mode: Rounding): Result<Dec, Error>
    requires 0 < b
  {
    if !InRange(a) || !InRange(b) then Err(Overflow)
    else
      var n := a / b + Bump(mode, a % b, b);
      if !InRange(n * b) then Err(Overflow) else Ok(Dec(n * b, s))
  }

  function Multiple(k: int, b: int): int { k * b }

  function Distance(a: int, k: int, b: int): nat {
    if a >= Multiple(k, b) then a - Multiple(k, b) else Multiple(k, b) - a
  }

  /** The specification: the n-th multiple of `b` is `a` rounded in the given direction. */
  ghost predicate IsRounding(mode: Rounding, a: int, b: int, n: int) {
    match mode
    case Floor => Multiple(n, b) <= a && forall k :: Multiple(k, b) <= a ==> k <= n
    case Ceil => a <= Multiple(n, b) && forall k :: a <= Multiple(k, b) ==> n <= k
    case HalfUp =>
      forall k :: Distance(a, n, b) <= Distance(a, k, b) && (Distance(a, n, b) == Distance(a, k, b) ==> k <= n)
  }

  lemma FloorIsGreatest(a: int, b: int)
    requires 0 < b
    ensures IsRounding(Floor, a, b, a / b)
  {
    assert a == (a / b) * b + a % b;
    forall k | Multiple(k, b) <= a ensures k <= a / b { MulStep(a / b, k, b); }
  }

  lemma CeilIsLeast(a: int, b: int)
    requires 0 < b
    ensures IsRounding(Ceil, a, b, a / b + if a % b != 0 then 1 else 0)
  {
    assert a == (a / b) * b + a % b;
    var n := a / b + if a % b != 0 then 1 else 0;
    assert (a / b + 1) * b == (a / b) * b + b;
    forall k | a <= Multiple(k, b) ensures n <= k {
      MulStep(k, a / b, b);
      MulStep(k, a / b + 1, b);
    }
  }

  /** The nearest multiple, ties up, is one up exactly from the half onwards. */
  lemma HalfUpIsNearest(a: int, b: int, n: int)
    requires 0 < b
    ensures IsRounding(HalfUp, a, b, n) <==> n == a / b + if 2 * (a % b) >= b then 1 else 0
  {
    var q, r := a / b, a % b;
    assert a == q * b + r;
    var best := q + if 2 * r >= b then 1 else 0;
    assert (q + 1) * b == q * b + b;
    forall k
      ensures Distance(a, best, b) <= Distance(a, k, b)
      ensures Distance(a, best, b) == Distance(a, k, b) ==> k <= best
    {
      MulStep(k, q, b);
      MulStep(k, q + 1, b);
    }
    if IsRounding(HalfUp, a, b, n) {
      assert Distance(a, n, b) <= Distance(a, best, b);
    }
  }

  /** The source's doubled remainder is exact up to half the range; beyond, the tie test fails. */
  lemma BumpMeaning(mode: Rounding, a: int, b: int)
    requires 0 < b <= I128_MAX
    ensures IsRounding(mode, a, b, a / b + Bump(mode, a % b, b)) <==> (mode == HalfUp ==> 2 * (a % b) <= I128_MAX)
  {
    FloorIsGreatest(a, b);
    CeilIsLeast(a, b);
    var r := a % b;
    HalfUpIsNearest(a, b, a / b + Bump(HalfUp, r, b));
    if 2 * r <= I128_MAX {
      WrapExact(2 * r);
    } else {
      DivModUnique(2 * r - I128_MIN, I128_SPAN, 1, 2 * r - I128_MIN - I128_SPAN);
    }
  }

  /** The bumped quotient itself never leaves the range. */
  lemma QuotientInRange(mode: Rounding, a: int, b: int)
    requires 0 < b && InRange(a)
    ensures InRange(a / b) && InRange(a / b + Bump(mode, a % b, b))
  {
    var q := a / b;
    assert a == q * b + a % b;
    MulStep(q, I128_MIN, b);
    MulStep(q, I128_MAX + 1, b);
    MulMono(1, b, I128_MAX + 1);
    MulMono(1, b, -I128_MIN);
    if b == 1 {
      WrapExact(0);
    } else {
      MulMono(2, b, I128_MAX);
      MulStep(q, I128_MAX, b);
    }
  }

  /**
   `round_to_multiple`, on every input: the errors are exactly a non-positive step and a
   result or operand outside 128 bits; otherwise the result is a multiple of the step, and
   it is the right one except for `HalfUp` with a remainder above half the 128-bit range.
   */
  lemma RoundToMultipleCorrect(d: Dec, step: Dec, mode: Rounding)
    requires Valid(d) && Valid(step)
    ensures RoundToMultiple(d, step, mode) == Err(BadStep) <==> step.units <= 0
    ensures 0 < step.units ==>
              var s := Max(d.scale, step.scale);
              var a, b := d.units * Pow10(s - d.scale), step.units * Pow10(s - step.scale);
              && CompareExact(Dec(a, s), d) == Equal && CompareExact(Dec(b, s), step) == Equal
              && RoundedOrOverflow(a, b, s, mode, RoundToMultiple(d, step, mode))
  {
    if 0 < step.units {
      var s := Max(d.scale, step.scale);
      var a, b := d.units * Pow10(s - d.scale), step.units * Pow10(s - step.scale);
      CommonFactor(d.units, d.scale, s);
      CommonFactor(step.units, step.scale, s);
      RoundUnitsCorrect(a, b, s, mode);
    }
  }

  /**
   `out` is a / b rounded, times b: an overflow exactly when an operand or the result does not fit, and
   the right multiple if and only if half-up does not have to double a remainder above half the range.
   */
  ghost predicate RoundedOrOverflow(a: int, b: int, s: nat, mode: Rounding, out: Result<Dec, Error>) {
    0 < b &&
    var n := a / b + Bump(mode, a % b, b);
    && out == (if InRange(a) && InRange(b) && InRange(n * b) then Ok(Dec(n * b, s)) else Err(Overflow))
    && (InRange(b) ==> (IsRounding(mode, a, b, n) <==> (mode == HalfUp ==> 2 * (a % b) <= I128_MAX)))
  }

  lemma RoundUnitsCorrect(a: int, b: int, s: nat, mode: Rounding)
    requires 0 < b
    ensures RoundedOrOverflow(a, b, s, mode, RoundUnits(a, b, s, mode))
    ensures RoundUnits(a, b, s, mode) != Err(BadStep)
  {
    if InRange(b) { BumpMeaning(mode, a, b); }
  }

  /** The exception is real: rounding i128::MAX - 1 half-up to a multiple of i128::MAX gives zero. */
  lemma HalfUpCanMiss()
    ensures RoundToMultiple(Dec(I128_MAX - 1, 0), Dec(I128_MAX, 0), HalfUp) == Ok(Dec(0, 0))
    ensures !IsRounding(HalfUp, I128_MAX - 1, I128_MAX, 0)
    ensures IsRounding(HalfUp, I128_MAX - 1, I128_MAX, 1)
  {
    DivModUnique(I128_MAX - 1, I128_MAX, 0, I128_MAX - 1);
    BumpMeaning(HalfUp, I128_MAX - 1, I128_MAX);
    HalfUpIsNearest(I128_MAX - 1, I128_MAX, 1);
    HalfUpIsNearest(I128_MAX - 1, I128_MAX, 0);
    DivModUnique(2 * (I128_MAX - 1) - I128_MIN, I128_SPAN, 1, 2 * (I128_MAX - 1) - I128_MIN - I128_SPAN);
  }

  /**
   `round_dp`: narrowing rounds correctly in every direction; widening is exact precisely
   when the widened units fit in 128 bits.
   */
  lemma RoundDpCorrect(d: Dec, dp: nat, mode: Rounding)
    requires Valid(d)
    ensures RoundDp(d, dp, mode).Err? <==> dp > MAX_SCALE
    ensures dp <= MAX_SCALE ==> Valid(RoundDp(d, dp, mode).value) && RoundDp(d, dp, mode).value.scale == dp
    ensures dp <= MAX_SCALE && dp < d.scale ==>
              IsRounding(mode, d.units, Pow10(d.scale - dp), RoundDp(d, dp, mode).value.units)
    ensures d.scale <= dp <= MAX_SCALE ==>
              (CompareExact(RoundDp(d, dp, mode).value, d) == Equal <==> InRange(d.units * Pow10(dp - d.scale)))
  {
    if d.scale <= dp <= MAX_SCALE {
      var wide := d.units * Pow10(dp - d.scale);
      WrapExact(wide);
      CommonFactor(d.units, d.scale, dp);
      CompareScaled(Wrap(wide), wide, Pow10(d.scale));
    } else if dp <= MAX_SCALE {
      var div := Pow10(d.scale - dp);
      Pow10Bounds();
      Pow10Mono(d.scale - dp, 18);
      BumpMeaning(mode, d.units, div);
      QuotientInRange(mode, d.units, div);
    }
  }

  /** Widening can change the value: i128::MAX to one place wraps to -1.0. */
  lemma WideningCanWrap()
    ensures RoundDp(Dec(I128_MAX, 0), 1, Floor) == Ok(Dec(-10, 1))
    ensures CompareExact(Dec(-10, 1), Dec(I128_MAX, 0)) != Equal
  {
    assert Pow10(1) == 10 && Pow10(0) == 1;
    DivModUnique(I128_MAX * 10 - I128_MIN, I128_SPAN, 5, -10 - I128_MIN);
  }

  /** Whenever rounding to the step 10^-dp succeeds, `round_dp` gives the same value. */
  lemma RoundDpIsRoundToUnit(d: Dec, dp: nat, mode: Rounding)
    requires Valid(d) && dp <= MAX_SCALE
    requires RoundToMultiple(d, Dec(1, dp), mode).Ok?
    ensures CompareExact(RoundDp(d, dp, mode).value, RoundToMultiple(d, Dec(1, dp), mode).value) == Equal
  {
    if d.scale <= dp {
      var a := d.units * Pow10(dp - d.scale);
      DivModUnique(a, 1, a, 0);
      WrapExact(a);
      WrapExact(0);
    } else {
      var b := Pow10(d.scale - dp);
      var n := d.units / b + Bump(mode, d.units % b, b);
      CommonFactor(n, dp, d.scale);
    }
  }

  /** Rounding again, in any direction, changes nothing. */
  lemma RoundDpIsIdempotent(d: Dec, dp: nat, mode: Rounding, again: Rounding)
    requires Valid(d) && RoundDp(d, dp, mode).Ok?
    ensures RoundDp(RoundDp(d, dp, mode).value, dp, again) == RoundDp(d, dp, mode)
  {
    RoundDpCorrect(d, dp, mode);
    WrapExact(RoundDp(d, dp, mode).value.units);
  }

  lemma RoundToMultipleIsIdempotent(d: Dec, step: Dec, mode: Rounding, again: Rounding)
    requires Valid(d) && Valid(step) && RoundToMultiple(d, step, mode).Ok?
    ensures RoundToMultiple(RoundToMultiple(d, step, mode).value, step, again) == RoundToMultiple(d, step, mode)
  {
    var s := Max(d.scale, step.scale);
    var a, b := d.units * Pow10(s - d.scale), step.units * Pow10(s - step.scale);
    var n := a / b + Bump(mode, a % b, b);
    MulStep(0, step.units, Pow10(s - step.scale));
    DivModUnique(n * b, b, n, 0);
    assert Bump(again, 0, b) == 0 by { WrapExact(0); }
  }

  // ---------------------------------------------------------------- multiplication and addition

  function CheckedMul(x: Dec, y: Dec): Option<Dec> {
    var units, scale := x.units * y.units, x.scale + y.scale;
    if !InRange(units) then None
    else if scale <= MAX_SCALE then Some(Dec(units, scale))
    else if scale - MAX_SCALE > 38 then None
    else Some(Dec(units / Pow10(scale - MAX_SCALE), MAX_SCALE))
  }

  function CheckedAdd(x: Dec, y: Dec): Option<Dec> {
    var s := Max(x.scale, y.scale);
    var a, b := x.units * Pow10(s - x.scale), y.units * Pow10(s - y.scale);
    if !InRange(a) || !InRange(b) || !InRange(a + b) then None else Some(Dec(a + b, s))
  }

  /** The product is exact up to 18 places and otherwise floored there; it fails only on overflow. */
  lemma CheckedMulCorrect(x: Dec, y: Dec)
    requires Valid(x) && Valid(y)
    ensures CheckedMul(x, y).None? <==> !InRange(x.units * y.units)
    ensures CheckedMul(x, y).Some? ==>
              var p := CheckedMul(x, y).value;
              && Valid(p)
              && (x.scale + y.scale <= MAX_SCALE ==> Value(p) == Value(x) * Value(y))
              && (x.scale + y.scale > MAX_SCALE ==>
                    && p.scale == MAX_SCALE
                    && IsRounding(Floor, x.units * y.units, Pow10(x.scale + y.scale - MAX_SCALE), p.units))
  {
    var units := x.units * y.units;
    if InRange(units) {
      if x.scale + y.scale <= MAX_SCALE {
        ProductValue(x, y);
      } else {
        var div := Pow10(x.scale + y.scale - MAX_SCALE);
        FloorIsGreatest(units, div);
        QuotientInRange(Floor, units, div);
      }
    }
  }

  lemma ProductValue(x: Dec, y: Dec)
    ensures Value(Dec(x.units * y.units, x.scale + y.scale)) == Value(x) * Value(y)
  {
    Pow10Add(x.scale, y.scale);
    ProductOfQuotients(x.units, Pow10(x.scale), y.units, Pow10(y.scale));
  }

  lemma ProductOfQuotients(x: int, p: nat, y: int, q: nat)
    requires 0 < p && 0 < q
    ensures (x as real / p as real) * (y as real / q as real) == (x * y) as real / (p * q) as real
  {
    var u, v, rp, rq := x as real / p as real, y as real / q as real, p as real, q as real;
    assert u * rp == x as real && v * rq == y as real;
    assert (x * y) as real == (u * rp) * (v * rq) == (u * v) * (rp * rq);
    assert (p * q) as real == rp * rq;
  }

  lemma SumOfQuotients(x: int, y: int, p: nat)
    requires 0 < p
    ensures x as real / p as real + y as real / p as real == (x + y) as real / p as real
  {
  }

  /** A sum that is returned is exact. */
  lemma CheckedAddExact(x: Dec, y: Dec)
    requires Valid(x) && Valid(y)
    ensures CheckedAdd(x, y).Some? ==> Valid(CheckedAdd(x, y).value)
    ensures CheckedAdd(x, y).Some? ==> Value(CheckedAdd(x, y).value) == Value(x) + Value(y)
  {
    var s := Max(x.scale, y.scale);
    ValueScaled(x, s);
    ValueScaled(y, s);
    SumOfQuotients(x.units * Pow10(s - x.scale), y.units * Pow10(s - y.scale), Pow10(s));
  }

  /** A sum is returned exactly when both terms can be written at the common scale and their sum fits. */
  lemma CheckedAddIff(x: Dec, y: Dec, s: nat)
    requires s == Max(x.scale, y.scale)
    ensures CheckedAdd(x, y).Some? <==>
              exists a, b :: UnitsAt(a, s, x) && UnitsAt(b, s, y) && InRange(a) && InRange(b) && InRange(a + b)
  {
    var p, q := x.units * Pow10(s - x.scale), y.units * Pow10(s - y.scale);
    assert UnitsAt(p, s, x) by { ValueScaled(x, s); }
    assert UnitsAt(q, s, y) by { ValueScaled(y, s); }
    forall a, b | UnitsAt(a, s, x) && UnitsAt(b, s, y) ensures a == p && b == q {
      UnitsUnique(a, s, x);
      UnitsUnique(b, s, y);
    }
  }

  /** `a` units at scale `s` have the value of `d`. */
  ghost predicate UnitsAt(a: int, s: nat, d: Dec) {
    Value(Dec(a, s)) == Value(d)
  }

  lemma UnitsUnique(a: int, s: nat, d: Dec)
    requires d.scale <= s && UnitsAt(a, s, d)
    ensures a == d.units * Pow10(s - d.scale)
  {
    var p := d.units * Pow10(s - d.scale);
    ValueScaled(d, s);
    CompareExactIsByValue(Dec(a, s), Dec(p, s));
    CompareScaled(a, p, Pow10(s));
  }

  lemma ValueScaled(d: Dec, s: nat)
    requires d.scale <= s
    ensures Value(Dec(d.units * Pow10(s - d.scale), s)) == Value(d)
  {
    CommonFactor(d.units, d.scale, s);
    CompareExactIsByValue(Dec(d.units * Pow10(s - d.scale), s), d);
  }
}
