/** Decimal digit strings, shared by the decimal parser and the nonce file. */
module Digits {
  import opened Arithmetic
  import opened PowersOfTen

  predicate IsDigit(c: char) { '0' <= c <= '9' }

  predicate AllDigits(s: string) { forall i :: 0 <= i < |s| ==> IsDigit(s[i]) }

  function DigitOf(c: char): (d: nat)
    requires IsDigit(c)
    ensures d < 10
  {
    c as int - '0' as int
  }

  function CharOf(d: nat): (c: char)
    requires d < 10
    ensures IsDigit(c) && DigitOf(c) == d
  {
    ('0' as int + d) as char
  }

  /** The number a digit string denotes. */
  function ValueOf(s: string): nat
    requires AllDigits(s)
  {
    if s == [] then 0 else 10 * ValueOf(s[..|s| - 1]) + DigitOf(s[|s| - 1])
  }

  /** Plain decimal notation without leading zeros. */
  function ToDigits(n: nat): (s: string)
    ensures s != [] && AllDigits(s)
  {
    if n < 10 then [CharOf(n)] else ToDigits(n / 10) + [CharOf(n % 10)]
  }

  function Zeros(n: nat): (s: string)
    ensures |s| == n && AllDigits(s)
  {
    seq(n, _ => '0')
  }

  function PadZeros(s: string, width: nat): string {
    if |s| >= width then s else Zeros(width - |s|) + s
  }

  lemma {:induction false} ToDigitsValue(n: nat)
    ensures ValueOf(ToDigits(n)) == n
  {
    if n < 10 {
      assert ToDigits(n)[..0] == [];
    } else {
      ToDigitsValue(n / 10);
      assert ToDigits(n)[..|ToDigits(n)| - 1] == ToDigits(n / 10);
    }
  }

  lemma {:induction false} NoLeadingZero(n: nat)
    ensures ToDigits(n)[0] == '0' <==> n == 0
    ensures n == 0 ==> |ToDigits(n)| == 1
  {
    if n >= 10 { NoLeadingZero(n / 10); }
  }

  lemma {:induction false} ToDigitsLength(n: nat, width: nat)
    requires 0 < width && n < Pow10(width)
    ensures |ToDigits(n)| <= width
  {
    if n >= 10 {
      assert width > 1 by { assert Pow10(1) == 10; }
      ToDigitsLength(n / 10, width - 1);
    }
  }

  lemma {:induction false} ValueOfConcat(a: string, b: string)
    requires AllDigits(a) && AllDigits(b)
    ensures AllDigits(a + b) && ValueOf(a + b) == ValueOf(a) * Pow10(|b|) + ValueOf(b)
    decreases |b|
  {
    if b == [] {
      assert a + b == a;
    } else {
      var init := b[..|b| - 1];
      ValueOfConcat(a, init);
      assert (a + b)[..|a + b| - 1] == a + init;
      MulAssociates(ValueOf(a), Pow10(|init|), 10);
    }
  }

  lemma {:induction false} ZerosValue(n: nat)
    ensures ValueOf(Zeros(n)) == 0
  {
    if n > 0 {
      assert Zeros(n)[..n - 1] == Zeros(n - 1);
      ZerosValue(n - 1);
    }
  }

  /** A fraction below 10^width, padded, has exactly `width` digits and the same value. */
  lemma PaddedFraction(n: nat, width: nat)
    requires 0 < width && n < Pow10(width)
    ensures var s := PadZeros(ToDigits(n), width);
            |s| == width && AllDigits(s) && ValueOf(s) == n
  {
    ToDigitsLength(n, width);
    ToDigitsValue(n);
    var k := width - |ToDigits(n)|;
    ZerosValue(k);
    ValueOfConcat(Zeros(k), ToDigits(n));
  }

  /** Unicode White_Space, the class `str::trim` removes. */
  predicate IsWhitespace(c: char) {
    var x := c as int;
    || 0x09 <= x <= 0x0D || x == 0x20 || x == 0x85 || x == 0xA0 || x == 0x1680
    || 0x2000 <= x <= 0x200A || x == 0x2028 || x == 0x2029 || x == 0x202F || x == 0x205F || x == 0x3000
  }

  function TrimStart(s: string): string {
    if s != [] && IsWhitespace(s[0]) then TrimStart(s[1..]) else s
  }

  function TrimEnd(s: string): string {
    if s != [] && IsWhitespace(s[|s| - 1]) then TrimEnd(s[..|s| - 1]) else s
  }

  function Trim(s: string): string { TrimEnd(TrimStart(s)) }

  ghost predicate AllWhitespace(s: string) { forall i :: 0 <= i < |s| ==> IsWhitespace(s[i]) }

  /** Trimming removes white space from both ends, all of it, and nothing else. */
  lemma TrimMeaning(s: string) returns (before: string, after: string)
    ensures s == before + Trim(s) + after && AllWhitespace(before) && AllWhitespace(after)
    ensures var t := Trim(s); t != [] ==> !IsWhitespace(t[0]) && !IsWhitespace(t[|t| - 1])
  {
    before := TrimStartMeaning(s);
    after := TrimEndMeaning(TrimStart(s));
    assert before + (Trim(s) + after) == before + Trim(s) + after;
  }

  lemma {:induction false} TrimStartMeaning(s: string) returns (before: string)
    ensures s == before + TrimStart(s) && AllWhitespace(before)
    ensures TrimStart(s) != [] ==> !IsWhitespace(TrimStart(s)[0])
  {
    before := [];
    if s != [] && IsWhitespace(s[0]) {
      before := TrimStartMeaning(s[1..]);
      assert s == [s[0]] + s[1..];
      before := [s[0]] + before;
    }
  }

  lemma {:induction false} TrimEndMeaning(s: string) returns (after: string)
    ensures s == TrimEnd(s) + after && AllWhitespace(after)
    ensures var t := TrimEnd(s); t != [] ==> !IsWhitespace(t[|t| - 1]) && t[0] == s[0]
    decreases |s|
  {
    after := [];
    if s != [] && IsWhitespace(s[|s| - 1]) {
      var n := |s| - 1;
      after := TrimEndMeaning(s[..n]);
      assert s == s[..n] + [s[n]];
      after := after + [s[n]];
    }
  }

  /** The first position holding `a` or `b`, or the length if neither occurs. */
  function FindAny(s: string, a: char, b: char): (i: nat)
    ensures i <= |s|
  {
    if s == [] || s[0] == a || s[0] == b then 0 else 1 + FindAny(s[1..], a, b)
  }

  lemma {:induction false} FindAnyAfter(prefix: string, rest: string, a: char, b: char)
    requires a !in prefix && b !in prefix
    requires rest == [] || rest[0] == a || rest[0] == b
    ensures FindAny(prefix + rest, a, b) == |prefix|
  {
    if prefix == [] {
      assert prefix + rest == rest;
    } else {
      assert (prefix + rest)[1..] == prefix[1..] + rest;
      FindAnyAfter(prefix[1..], rest, a, b);
    }
  }

  lemma {:induction false} FindAnyHits(s: string, a: char, b: char)
    ensures var i := FindAny(s, a, b);
            i < |s| ==> s[i] == a || s[i] == b
  {
    if s != [] && s[0] != a && s[0] != b {
      FindAnyHits(s[1..], a, b);
    }
  }

  lemma DigitsAreNot(s: string, c: char)
    requires AllDigits(s) && !IsDigit(c)
    ensures c !in s
  {
  }
}

/** Parsing and printing of decimals (`crates/broker-adapters/src/decimal.rs`). */
module DecimalText {
  import opened Wrappers
  import opened Arithmetic
  import opened PowersOfTen
  import opened Digits
  import opened Decimal

  const U32_SPAN: nat := 0x1_0000_0000
  const I32_MAX: int := 0x7FFF_FFFF

  // ---------------------------------------------------------------- parsing

  /** `str::parse::<i32>`: an optional sign, at least one digit, in range. */
  function ParseI32(s: string): Option<int> {
    var signed := s != [] && (s[0] == '-' || s[0] == '+');
    var digits := if signed then s[1..] else s;
    if digits == [] || !AllDigits(digits) then None
    else
      var v := if signed && s[0] == '-' then -(ValueOf(digits) as int) else ValueOf(digits);
      if -I32_MAX - 1 <= v <= I32_MAX then Some(v) else None
  }

  /** `s` is a sign or none, and digits, spelling `v`. */
  ghost predicate SpellsInt(s: string, sign: string, digits: string, v: int) {
    && s == sign + digits && (sign == [] || sign == ['-'] || sign == ['+'])
    && digits != [] && AllDigits(digits)
    && v == if sign == ['-'] then -(ValueOf(digits) as int) else ValueOf(digits)
  }

  /** An exponent is accepted exactly when it spells a 32-bit number, and then as that number. */
  lemma ParseI32Outcome(s: string, v: int)
    ensures ParseI32(s) == Some(v) <==>
              -I32_MAX - 1 <= v <= I32_MAX && exists sign, digits :: SpellsInt(s, sign, digits, v)
  {
    var signed := s != [] && (s[0] == '-' || s[0] == '+');
    var mine, digits := if signed then s[..1] else [], if signed then s[1..] else s;
    assert s == mine + digits;
    if ParseI32(s) == Some(v) { assert SpellsInt(s, mine, digits, v); }
    forall sign, other | SpellsInt(s, sign, other, v) ensures sign == mine && other == digits {
      assert s[0] == if sign == [] then other[0] else sign[0];
      assert s[|sign|..] == other;
    }
  }

  /** The checked digit loop of `parse`. */
  function Accumulate(digits: string): (r: Option<nat>)
    requires AllDigits(digits)
    ensures r.Some? ==> r.value <= I128_MAX
  {
    if digits == [] then Some(0)
    else match Accumulate(digits[..|digits| - 1])
      case None => None
      case Some(u) =>
        var d := DigitOf(digits[|digits| - 1]);
        if !InRange(u * 10) || !InRange(u * 10 + d) then None else Some(u * 10 + d)
  }

  /** Scales beyond the cap are kept only if trailing zeros account for the excess. */
  function Finish(d: Dec): Result<Dec, Error> {
    if d.scale <= MAX_SCALE then Ok(d)
    else
      var n := Normalized(d);
      if n.scale > MAX_SCALE then Err(TooPrecise) else Ok(n)
  }

  function Signed(neg: bool, units: int): int { if neg then -units else units }

  function Rescale(neg: bool, units: nat, fracLen: nat, exp: int): Result<Dec, Error> {
    var net := fracLen - exp;
    if net < 0 then
      if -net > 38 || !InRange(units * Pow10(-net)) then Err(Overflow)
      else Finish(Dec(Signed(neg, units * Pow10(-net)), 0))
    else if net >= U32_SPAN then Err(Overflow)
    else Finish(Dec(Signed(neg, units), net))
  }

  function ParseMantissa(mant: string, exp: int): Result<Dec, Error> {
    var neg := mant != [] && mant[0] == '-';
    ParseBody(neg, if neg || (mant != [] && mant[0] == '+') then mant[1..] else mant, exp)
  }

  /** The unsigned part: digits around at most one point. */
  function ParseBody(neg: bool, body: string, exp: int): Result<Dec, Error> {
    var dot := FindAny(body, '.', '.');
    var whole, frac := body[..dot], if dot < |body| then body[dot + 1..] else [];
    if whole == [] && frac == [] then Err(Invalid)
    else if !AllDigits(whole) || !AllDigits(frac) then Err(Invalid)
    else match Accumulate(whole + frac)
      case None => Err(Overflow)
      case Some(units) => Rescale(neg, units, |frac| % U32_SPAN, exp)
  }

  function Parse(s: string): Result<Dec, Error> {
    var t := Trim(s);
    if t == [] then Err(Invalid)
    else
      var e := FindAny(t, 'e', 'E');
      if e == |t| then ParseMantissa(t, 0)
      else match ParseI32(t[e + 1..])
        case None => Err(Invalid)
        case Some(exp) => ParseMantissa(t[..e], exp)
  }

  method ParseDigits(digits: string) returns (r: Option<nat>)
    requires AllDigits(digits)
    ensures r == Accumulate(digits)
    ensures r == if ValueOf(digits) <= I128_MAX then Some(ValueOf(digits)) else None
  {
    AccumulateIsValue(digits);
    var units: nat := 0;
    for i := 0 to |digits|
      invariant Accumulate(digits[..i]) == Some(units)
    {
      var d := DigitOf(digits[i]);
      assert digits[..i + 1][..i] == digits[..i];
      if !InRange(units * 10) || !InRange(units * 10 + d) {
        AccumulateIsValue(digits[..i + 1]);
        PrefixValue(digits, i + 1);
        return None;
      }
      units := units * 10 + d;
    }
    assert digits[..|digits|] == digits;
    r := Some(units);
  }

  lemma {:induction false} PrefixValue(s: string, n: nat)
    requires AllDigits(s) && n <= |s|
    ensures ValueOf(s[..n]) <= ValueOf(s)
    decreases |s| - n
  {
    if n == |s| {
      assert s[..n] == s;
    } else {
      PrefixValue(s, n + 1);
      assert s[..n + 1][..n] == s[..n];
    }
  }

  /** Checking every step of the loop is checking the final value. */
  lemma {:induction false} AccumulateIsValue(s: string)
    requires AllDigits(s)
    ensures Accumulate(s) == if ValueOf(s) <= I128_MAX then Some(ValueOf(s)) else None
  {
    if s != [] { AccumulateIsValue(s[..|s| - 1]); }
  }

  /** Rescaling keeps the value sign * units * 10^(exp - fracLen) exactly. */
  lemma RescaleExact(neg: bool, units: nat, fracLen: nat, exp: int)
    requires units <= I128_MAX && Rescale(neg, units, fracLen, exp).Ok?
    ensures var d, net := Rescale(neg, units, fracLen, exp).value, fracLen - exp;
            && Valid(d) && d.units != I128_MIN
            && (net >= 0 ==> CompareExact(d, Dec(Signed(neg, units), net)) == Equal)
            && (net < 0 ==> d == Dec(Signed(neg, units * Pow10(-net)), 0))
  {
    var net := fracLen - exp;
    if net >= 0 {
      var raw := Dec(Signed(neg, units), net);
      NormalizedIsCanonical(raw);
      StripZerosKeepsValue(raw);
      var n := StripZeros(raw);
      MulMono(1, Pow10(raw.scale - n.scale), I128_MAX);
    } else {
      assert 0 <= units * Pow10(-net);
    }
  }

  // ---------------------------------------------------------------- printing

  function Magnitude(units: int): nat { if units < 0 then -units else units }

  function SplitAt(m: nat, p: nat): (r: (nat, nat))
    requires 0 < p
    ensures r.1 < p && m == r.0 * p + r.1
  {
    (m / p, m % p)
  }

  function DisplayBody(whole: nat, frac: nat, scale: nat): string {
    if scale == 0 then ToDigits(whole) else ToDigits(whole) + ['.'] + PadZeros(ToDigits(frac), scale)
  }

  function Display(d: Dec): string {
    var (whole, frac) := SplitAt(Magnitude(d.units), Pow10(d.scale));
    if d.units < 0 then ['-'] + DisplayBody(whole, frac, d.scale) else DisplayBody(whole, frac, d.scale)
  }

  lemma TrimNothing(s: string)
    requires s != [] && !IsWhitespace(s[0]) && !IsWhitespace(s[|s| - 1])
    ensures Trim(s) == s
  {
  }

  /** The unsigned text splits back into its parts. */
  lemma BodySplits(whole: string, frac: string)
    requires whole != [] && AllDigits(whole) && AllDigits(frac)
    ensures FindAny(whole, '.', '.') == |whole|
    ensures FindAny(whole + ['.'] + frac, '.', '.') == |whole|
  {
    DigitsAreNot(whole, '.');
    FindAnyAfter(whole, [], '.', '.');
    assert whole + [] == whole;
    FindAnyAfter(whole, ['.'] + frac, '.', '.');
    assert whole + ['.'] + frac == whole + (['.'] + frac);
  }

  /** The printed form: a sign, then digits around at most one point, carrying the magnitude. */
  lemma DisplayParts(d: Dec) returns (whole: string, frac: string)
    ensures whole != [] && AllDigits(whole) && AllDigits(frac) && |frac| == d.scale
    ensures ValueOf(whole + frac) == Magnitude(d.units)
    ensures whole[0] == '0' ==> |whole| == 1
    ensures var body := if d.scale == 0 then whole else whole + ['.'] + frac;
            Display(d) == if d.units < 0 then ['-'] + body else body
  {
    var (w, f) := SplitAt(Magnitude(d.units), Pow10(d.scale));
    whole := ToDigits(w);
    ToDigitsValue(w);
    NoLeadingZero(w);
    if d.scale == 0 {
      frac := [];
      assert whole + frac == whole;
    } else {
      frac := PadZeros(ToDigits(f), d.scale);
      PaddedFraction(f, d.scale);
      ValueOfConcat(whole, frac);
    }
  }

  lemma MantissaOfParts(whole: string, frac: string, scale: nat, neg: bool)
    requires whole != [] && AllDigits(whole) && AllDigits(frac) && |frac| == scale <= MAX_SCALE
    ensures var body := if scale == 0 then whole else whole + ['.'] + frac;
            ParseMantissa(if neg then ['-'] + body else body, 0) ==
            if ValueOf(whole + frac) > I128_MAX then Err(Overflow)
            else Ok(Dec(Signed(neg, ValueOf(whole + frac)), scale))
  {
    var body := if scale == 0 then whole else whole + ['.'] + frac;
    var mant := if neg then ['-'] + body else body;
    assert body[0] == whole[0];
    assert neg ==> mant[1..] == body;
    BodyOfParts(whole, frac, scale, neg, body);
  }

  lemma BodyOfParts(whole: string, frac: string, scale: nat, neg: bool, body: string)
    requires whole != [] && AllDigits(whole) && AllDigits(frac) && |frac| == scale <= MAX_SCALE
    requires body == if scale == 0 then whole else whole + ['.'] + frac
    ensures ParseBody(neg, body, 0) ==
            if ValueOf(whole + frac) > I128_MAX then Err(Overflow)
            else Ok(Dec(Signed(neg, ValueOf(whole + frac)), scale))
  {
    BodyParts(whole, frac);
    AccumulateIsValue(whole + frac);
    SmallScale(scale);
    assert scale == 0 ==> whole + frac == whole;
  }

  lemma SmallScale(scale: nat)
    requires scale <= MAX_SCALE
    ensures scale % U32_SPAN == scale
  {
  }

  /** Cutting the printed body at its point gives back the two digit strings. */
  lemma BodyParts(whole: string, frac: string)
    requires whole != [] && AllDigits(whole) && AllDigits(frac)
    ensures FindAny(whole, '.', '.') == |whole| && whole[..|whole|] == whole
    ensures var body := whole + ['.'] + frac;
            FindAny(body, '.', '.') == |whole| && body[..|whole|] == whole && body[|whole| + 1..] == frac
  {
    BodySplits(whole, frac);
  }

  /** What is printed is neither trimmed nor taken for an exponent form. */
  lemma DisplayIsPlain(d: Dec)
    ensures Trim(Display(d)) == Display(d) && Display(d) != []
    ensures FindAny(Display(d), 'e', 'E') == |Display(d)|
  {
    var whole, frac := DisplayParts(d);
    PlainText(whole, frac, d.units < 0, d.scale == 0);
  }

  lemma PlainText(whole: string, frac: string, neg: bool, bare: bool)
    requires whole != [] && AllDigits(whole) && AllDigits(frac) && (bare || frac != [])
    ensures var body := if bare then whole else whole + ['.'] + frac;
            var s := if neg then ['-'] + body else body;
            && s != [] && Trim(s) == s
            && FindAny(s, 'e', 'E') == |s|
  {
    var body := if bare then whole else whole + ['.'] + frac;
    var s := if neg then ['-'] + body else body;
    forall i | 0 <= i < |s| ensures IsDigit(s[i]) || s[i] == '-' || s[i] == '.' {}
    assert IsDigit(s[|s| - 1]) && (IsDigit(s[0]) || s[0] == '-');
    TrimNothing(s);
    FindAnyAfter(s, [], 'e', 'E');
    assert s + [] == s;
  }

  /** Printing then parsing returns the same units and scale, except for i128::MIN, which overflows. */
  lemma PrintThenParse(d: Dec)
    requires Valid(d)
    ensures Parse(Display(d)) == if d.units == I128_MIN then Err(Overflow) else Ok(d)
  {
    DisplayIsPlain(d);
    ParsePlain(Display(d));
    DisplayMantissa(d);
    SignedMagnitude(d.units);
  }

  lemma DisplayMantissa(d: Dec)
    requires d.scale <= MAX_SCALE
    ensures ParseMantissa(Display(d), 0) ==
            if Magnitude(d.units) > I128_MAX then Err(Overflow)
            else Ok(Dec(Signed(d.units < 0, Magnitude(d.units)), d.scale))
  {
    var whole, frac := DisplayParts(d);
    MantissaOfParts(whole, frac, d.scale, d.units < 0);
  }

  lemma SignedMagnitude(units: int)
    requires InRange(units)
    ensures Signed(units < 0, Magnitude(units)) == units
    ensures Magnitude(units) > I128_MAX <==> units == I128_MIN
  {
  }

  lemma ParsePlain(s: string)
    requires Trim(s) == s && s != [] && FindAny(s, 'e', 'E') == |s|
    ensures Parse(s) == ParseMantissa(s, 0)
  {
  }

  // ---------------------------------------------------------------- what a text means

  /** The parts of a number as written; `exp` is the number that `tail` spells. */
  datatype Numeral = Numeral(sign: string, whole: string, point: string, frac: string, tail: string, exp: int)

  function Spelled(r: Numeral): string {
    r.sign + r.whole + r.point + r.frac + r.tail
  }

  /** An optional sign, digits around at most one point, and an optional exponent. */
  ghost predicate WellSpelled(r: Numeral) {
    Body(r) && Tail(r.tail, r.exp)
  }

  ghost predicate Tail(tail: string, exp: int) {
    if tail == [] then exp == 0 else (tail[0] == 'e' || tail[0] == 'E') && ParseI32(tail[1..]) == Some(exp)
  }

  ghost predicate Body(r: Numeral) {
    && (r.sign == [] || r.sign == ['-'] || r.sign == ['+'])
    && AllDigits(r.whole) && AllDigits(r.frac) && (r.whole != [] || r.frac != [])
    && (r.point == ['.'] || (r.point == [] && r.frac == []))
  }

  /** The integer written by the digits and the sign, the point left out. */
  ghost function Written(r: Numeral): int
    requires AllDigits(r.whole) && AllDigits(r.frac)
  {
    Signed(r.sign == ['-'], ValueOf(r.whole + r.frac))
  }

  /** `d` is exactly units * 10^-net, cross-multiplied. */
  ghost predicate Denotes(d: Dec, units: int, net: int) {
    d.units * Pow10(Plus(net)) == units * (Pow10(Plus(-net)) * Pow10(d.scale))
  }

  function Plus(x: int): nat { if x > 0 then x else 0 }

  lemma RescaleDenotes(neg: bool, units: nat, fracLen: nat, exp: int)
    requires units <= I128_MAX && Rescale(neg, units, fracLen, exp).Ok?
    ensures Denotes(Rescale(neg, units, fracLen, exp).value, Signed(neg, units), fracLen - exp)
  {
    var d, net := Rescale(neg, units, fracLen, exp).value, fracLen - exp;
    RescaleExact(neg, units, fracLen, exp);
    assert Pow10(0) == 1;
    if net < 0 { SignedProduct(neg, units, Pow10(-net)); }
  }

  lemma SignedProduct(neg: bool, units: nat, p: nat)
    ensures Signed(neg, units * p) == Signed(neg, units) * p
  {
  }

  /** A value other than zero is written with one exponent only. */
  lemma DenotesUnique(d: Dec, units: int, n: int, m: int)
    requires units != 0 && Denotes(d, units, n) && n < m
    ensures !Denotes(d, units, m)
  {
    var s := Pow10(d.scale);
    Pow10Strict(Plus(n), Plus(m));
    Pow10Strict(Plus(-m), Plus(-n));
    MulStep(Pow10(Plus(-m)), Pow10(Plus(-n)), s);
    MulStep(0, Pow10(Plus(-m)), s);
    ScalesApart(d.units, units, Pow10(Plus(n)), Pow10(Plus(m)), Pow10(Plus(-n)) * s, Pow10(Plus(-m)) * s);
  }

  lemma Pow10Strict(a: nat, b: nat)
    requires a <= b
    ensures Pow10(a) <= Pow10(b) && (a < b ==> Pow10(a) < Pow10(b))
  {
    Pow10Mono(a, b);
    if a < b { Pow10Mono(a, b - 1); }
  }

  lemma ScalesApart(d: int, u: int, p: nat, p2: nat, q: nat, q2: nat)
    requires u != 0 && 0 < p <= p2 && 0 < q2 <= q && (p < p2 || q2 < q) && d * p == u * q
    ensures d * p2 != u * q2
  {
    if u > 0 {
      SmallerLater(d, u, p, p2, q, q2);
    } else {
      SmallerLater(-d, -u, p, p2, q, q2);
    }
  }

  lemma SmallerLater(d: int, u: int, p: nat, p2: nat, q: nat, q2: nat)
    requires 0 < u && 0 < p <= p2 && 0 < q2 <= q && (p < p2 || q2 < q) && d * p == u * q
    ensures u * q2 < d * p2
  {
    assert 0 < u * q by { MulStep(0, q, u); }
    MulStep(d, 0, p);
    MulMono(p, p2, d);
    MulMono(q2, q, u);
    MulStep(p, p2, d);
    MulStep(q2, q, u);
  }

  lemma Flatten(sign: string, whole: string, point: string, frac: string, tail: string)
    ensures (sign + (whole + point + frac)) + tail == sign + whole + point + frac + tail
  {
  }

  lemma SignSplits(mant: string, exp: int) returns (sign: string, body: string)
    ensures mant == sign + body && (sign == [] || sign == ['-'] || sign == ['+'])
    ensures ParseMantissa(mant, exp) == ParseBody(sign == ['-'], body, exp)
  {
    if mant != [] && (mant[0] == '-' || mant[0] == '+') {
      sign, body := [mant[0]], mant[1..];
    } else {
      sign, body := [], mant;
    }
  }

  lemma BodyReads(neg: bool, body: string, exp: int) returns (whole: string, point: string, frac: string)
    requires ParseBody(neg, body, exp) != Err(Invalid)
    ensures body == whole + point + frac && AllDigits(whole) && AllDigits(frac) && (whole != [] || frac != [])
    ensures point == ['.'] || (point == [] && frac == [])
    ensures ParseBody(neg, body, exp).Ok? ==> ValueOf(whole + frac) <= I128_MAX
    ensures ParseBody(neg, body, exp).Ok? ==>
              ParseBody(neg, body, exp) == Rescale(neg, ValueOf(whole + frac), |frac| % U32_SPAN, exp)
  {
    whole, point, frac := BodyCut(body);
    AccumulateIsValue(whole + frac);
  }

  lemma BodyCut(body: string) returns (whole: string, point: string, frac: string)
    ensures body == whole + point + frac && (point == ['.'] || (point == [] && frac == []))
    ensures var dot := FindAny(body, '.', '.');
            whole == body[..dot] && frac == if dot < |body| then body[dot + 1..] else []
  {
    var dot := FindAny(body, '.', '.');
    FindAnyHits(body, '.', '.');
    if dot < |body| {
      whole, point, frac := body[..dot], ['.'], body[dot + 1..];
    } else {
      whole, point, frac := body, [], [];
    }
  }

  /** The result has the value written, exactly when the fraction is short enough or there is nothing to lose. */
  ghost predicate ExactWhenShort(d: Dec, r: Numeral)
    requires AllDigits(r.whole) && AllDigits(r.frac)
  {
    Denotes(d, Written(r), |r.frac| - r.exp) <==> |r.frac| < U32_SPAN || Written(r) == 0
  }

  /** The parts of an accepted mantissa. */
  lemma MantissaReads(mant: string, tail: string, exp: int) returns (r: Numeral)
    requires ParseMantissa(mant, exp) != Err(Invalid)
    ensures Body(r) && mant + tail == Spelled(r) && r.tail == tail && r.exp == exp
    ensures ParseMantissa(mant, exp).Ok? ==>
              && ValueOf(r.whole + r.frac) <= I128_MAX
              && ParseMantissa(mant, exp) ==
                 Rescale(r.sign == ['-'], ValueOf(r.whole + r.frac), |r.frac| % U32_SPAN, exp)
  {
    var sign, body := SignSplits(mant, exp);
    var whole, point, frac := BodyReads(sign == ['-'], body, exp);
    r := Numeral(sign, whole, point, frac, tail, exp);
    Flatten(sign, whole, point, frac, tail);
  }

  lemma NumeralExactIff(r: Numeral)
    requires Body(r) && ValueOf(r.whole + r.frac) <= I128_MAX
    requires Rescale(r.sign == ['-'], ValueOf(r.whole + r.frac), |r.frac| % U32_SPAN, r.exp).Ok?
    ensures var d := Rescale(r.sign == ['-'], ValueOf(r.whole + r.frac), |r.frac| % U32_SPAN, r.exp).value;
            Valid(d) && d.units != I128_MIN && ExactWhenShort(d, r)
  {
    RescaleExactIff(r.sign == ['-'], ValueOf(r.whole + r.frac), |r.frac|, r.exp);
  }

  lemma RescaleExactIff(neg: bool, units: nat, len: nat, exp: int)
    requires units <= I128_MAX && Rescale(neg, units, len % U32_SPAN, exp).Ok?
    ensures var d := Rescale(neg, units, len % U32_SPAN, exp).value;
            && Valid(d) && d.units != I128_MIN
            && (Denotes(d, Signed(neg, units), len - exp) <==> len < U32_SPAN || Signed(neg, units) == 0)
  {
    RescaleExact(neg, units, len % U32_SPAN, exp);
    RescaleDenotes(neg, units, len % U32_SPAN, exp);
    ExactIff(Rescale(neg, units, len % U32_SPAN, exp).value, Signed(neg, units), len, exp);
  }

  /**
   Exactly when parsing is exact: an accepted text is a numeral, and the result has the value it
   writes if and only if its fraction is shorter than 2^32 digits or all its digits are zero.
   */
  lemma ParseExactIff(s: string) returns (r: Numeral)
    requires Parse(s).Ok?
    ensures WellSpelled(r) && Trim(s) == Spelled(r)
    ensures Valid(Parse(s).value) && Parse(s).value.units != I128_MIN && ExactWhenShort(Parse(s).value, r)
  {
    var mant, tail, exp := ParseForm(s);
    r := MantissaReads(mant, tail, exp);
    NumeralExactIff(r);
  }

  lemma ExactIff(d: Dec, units: int, len: nat, exp: int)
    requires Denotes(d, units, len % U32_SPAN - exp)
    ensures Denotes(d, units, len - exp) <==> len < U32_SPAN || units == 0
  {
    if units == 0 {
      DenotesZero(d, len % U32_SPAN - exp, len - exp);
    } else if len >= U32_SPAN {
      DenotesUnique(d, units, len % U32_SPAN - exp, len - exp);
    } else {
      DivModUnique(len, U32_SPAN, 0, len);
    }
  }

  lemma DenotesZero(d: Dec, n: int, m: int)
    requires Denotes(d, 0, n)
    ensures Denotes(d, 0, m)
  {
    MulStep(d.units, 0, Pow10(Plus(n)));
  }

  // ---------------------------------------------------------------- which texts are accepted

  function Mantissa(r: Numeral): string {
    r.sign + r.whole + r.point + r.frac
  }

  lemma NoExponentInMantissa(r: Numeral)
    requires Body(r)
    ensures 'e' !in Mantissa(r) && 'E' !in Mantissa(r) && Mantissa(r) != []
  {
    DigitsAreNot(r.whole, 'e');
    DigitsAreNot(r.whole, 'E');
    DigitsAreNot(r.frac, 'e');
    DigitsAreNot(r.frac, 'E');
  }

  /** The first 'e' of a numeral is where its exponent starts. */
  lemma ParseSpelled(s: string, mant: string, tail: string, exp: int)
    requires Trim(s) == mant + tail && mant != [] && 'e' !in mant && 'E' !in mant && Tail(tail, exp)
    ensures Parse(s) == ParseMantissa(mant, exp)
  {
    FindAnyAfter(mant, tail, 'e', 'E');
    var m, t := CutAt(mant + tail, |mant|);
    assert m == mant && t == tail;
  }

  lemma StripSign(sign: string, body: string, exp: int)
    requires sign == ['-'] || sign == ['+'] || (sign == [] && body != [] && body[0] != '-' && body[0] != '+')
    ensures ParseMantissa(sign + body, exp) == ParseBody(sign == ['-'], body, exp)
  {
    if sign == [] {
      assert sign + body == body;
    } else {
      assert (sign + body)[0] == sign[0] && (sign + body)[1..] == body;
    }
  }

  lemma MantissaSpelled(r: Numeral)
    requires Body(r)
    ensures ParseMantissa(Mantissa(r), r.exp) == ParseBody(r.sign == ['-'], r.whole + r.point + r.frac, r.exp)
  {
    var body := r.whole + r.point + r.frac;
    assert Mantissa(r) == r.sign + body;
    assert body[0] == if r.whole != [] then r.whole[0] else '.';
    StripSign(r.sign, body, r.exp);
  }

  /** What becomes of the digits, the length of the fraction and the exponent. */
  function Judge(neg: bool, units: nat, len: nat, exp: int): Result<Dec, Error> {
    if units > I128_MAX then Err(Overflow) else Rescale(neg, units, len % U32_SPAN, exp)
  }

  lemma BodySpelled(r: Numeral, neg: bool)
    requires Body(r)
    ensures ParseBody(neg, r.whole + r.point + r.frac, r.exp) ==
            Judge(neg, ValueOf(r.whole + r.frac), |r.frac|, r.exp)
  {
    var body, rest := r.whole + r.point + r.frac, r.point + r.frac;
    DigitsAreNot(r.whole, '.');
    FindAnyAfter(r.whole, rest, '.', '.');
    assert body == r.whole + rest;
    var whole, tail := CutAt(body, |r.whole|);
    assert whole == r.whole && tail == rest;
    assert r.point != [] ==> rest[1..] == r.frac;
    AccumulateIsValue(r.whole + r.frac);
  }

  lemma ParseJudges(s: string, r: Numeral)
    requires WellSpelled(r) && Trim(s) == Spelled(r)
    ensures Parse(s) == Judge(r.sign == ['-'], ValueOf(r.whole + r.frac), |r.frac|, r.exp)
  {
    NoExponentInMantissa(r);
    ParseSpelled(s, Mantissa(r), r.tail, r.exp);
    MantissaSpelled(r);
    BodySpelled(r, r.sign == ['-']);
  }

  /** Some decimal has the value units * 10^-net. */
  ghost predicate Representable(units: int, net: int) {
    exists d :: Valid(d) && Denotes(d, units, net)
  }

  lemma AbsProduct(a: int, p: nat)
    ensures Magnitude(a * p) == Magnitude(a) * p
  {
    if a < 0 {
      MulStep(a, 0, p + 1);
      assert (-a) * p == -(a * p);
      MulMono(a, 0, p);
    } else {
      MulMono(0, a, p);
    }
  }

  lemma AbsDenotes(d: Dec, units: int, net: int)
    requires Denotes(d, units, net)
    ensures Magnitude(d.units) * Pow10(Plus(net)) == Magnitude(units) * (Pow10(Plus(-net)) * Pow10(d.scale))
  {
    MulMono(0, Pow10(Plus(-net)), Pow10(d.scale));
    AbsProduct(d.units, Pow10(Plus(net)));
    AbsProduct(units, Pow10(Plus(-net)) * Pow10(d.scale));
  }

  lemma FactorBelow(u: nat, p: nat, q: nat)
    requires 0 < q
    ensures u * p <= u * (p * q)
  {
    MulMono(0, u, p);
    MulMono(1, q, u * p);
    MulAssociates(u, p, q);
  }

  lemma PowBelow(k: nat, n: nat)
    requires Pow10(k) < Pow10(n)
    ensures k < n
  {
    if n <= k { Pow10Mono(n, k); }
  }

  /** Whole numbers with k zeros appended: a multiple of ten up to 2^127 is below it, and 10^39 is above it. */
  lemma ShiftFits(units: int, k: nat, d: Dec)
    requires units != 0 && 0 < k && Valid(d) && Denotes(d, units, 0 - k)
    ensures k <= 38 && InRange(Magnitude(units) * Pow10(k))
  {
    var u, p, q := Magnitude(units), Pow10(k), Pow10(d.scale);
    AbsDenotes(d, units, 0 - k);
    assert Pow10(0) == 1;
    FactorBelow(u, p, q);
    TenDivides(u, k);
    ShiftBelow(u * p);
    MulMono(1, u, p);
    TenToThe39();
    PowBelow(k, 39);
  }

  lemma ShiftBelow(x: nat)
    requires x <= -I128_MIN && x % 10 == 0
    ensures InRange(x)
  {
  }

  lemma TenDivides(u: nat, k: nat)
    requires 0 < k
    ensures (u * Pow10(k)) % 10 == 0
  {
    MulAssociates(u, Pow10(k - 1), 10);
    DivModUnique(u * Pow10(k), 10, u * Pow10(k - 1), 0);
  }

  lemma TenToThe39()
    ensures Pow10(39) > -I128_MIN
  {
    Pow10Bounds();
    assert Pow10(39) == 10 * Pow10(38);
  }

  /** A fraction with a value other than zero has at most 57 places. */
  lemma FractionShort(units: int, net: nat, d: Dec)
    requires units != 0 && Magnitude(units) <= I128_MAX && Valid(d) && Denotes(d, units, net)
    ensures net < U32_SPAN
  {
    var u, m, p, q := Magnitude(units), Magnitude(d.units), Pow10(net), Pow10(d.scale);
    AbsDenotes(d, units, net);
    assert Pow10(0) == 1;
    assert m * p == u * q;
    TenToThe39();
    Pow10Mono(d.scale, 18);
    Pow10Add(39, 18);
    SmallPower(m, p, u, q, Pow10(39), Pow10(18));
    PowBelow(net, 57);
  }

  lemma SmallPower(m: nat, p: nat, u: nat, q: nat, a: nat, b: nat)
    requires m * p == u * q && 0 < u < a && 0 < q <= b
    ensures p < a * b
  {
    MulStep(0, u, q);
    assert m * p > 0;
    assert m > 0;
    MulMono(1, m, p);
    MulStep(u, a, q);
    MulMono(q, b, a);
  }

  lemma LongFractionNormal(su: int, net: nat, d: Dec)
    requires Valid(d) && Denotes(d, su, net)
    ensures Normalized(Dec(su, net)).scale <= MAX_SCALE
  {
    assert Pow10(0) == 1;
    CompareIsExact(d, Dec(su, net));
    EqualIffSameNormalForm(d, Dec(su, net));
    NormalizedIsCanonical(d);
  }

  lemma ZeroNormal(net: nat)
    ensures Normalized(Dec(0, net)).scale == 0
  {
    StripZerosKeepsValue(Dec(0, net));
    var n := StripZeros(Dec(0, net));
    MulStep(n.units, 0, Pow10(net - n.scale));
  }

  /**
   Accepted exactly when the digits `u` fit in 128 bits and the number `units` * 10^-net is one a decimal
   can hold (zero: when the exponent is within limits); refused as too precise if the digits fit and there
   are more than 18 places, and as an overflow otherwise.
   */
  ghost predicate Outcome(out: Result<Dec, Error>, u: nat, units: int, net: int) {
    && (out.Ok? <==> u <= I128_MAX && if u == 0 then -38 <= net < U32_SPAN else Representable(units, net))
    && (out.Err? ==> out.error == if u <= I128_MAX && MAX_SCALE < net < U32_SPAN then TooPrecise else Overflow)
  }

  lemma RescaleOfRepresentable(neg: bool, u: nat, len: nat, exp: int, d: Dec)
    requires 0 < u <= I128_MAX && Valid(d) && Denotes(d, Signed(neg, u), len - exp)
    ensures Rescale(neg, u, len, exp).Ok?
  {
    var net, su := len - exp, Signed(neg, u);
    if net < 0 {
      ShiftFits(su, -net, d);
    } else {
      FractionShort(su, net, d);
      LongFractionNormal(su, net, d);
    }
  }

  lemma RescaleErrors(neg: bool, u: nat, len: nat, exp: int)
    requires u <= I128_MAX && Rescale(neg, u, len, exp).Err?
    ensures Rescale(neg, u, len, exp).error == if MAX_SCALE < len - exp < U32_SPAN then TooPrecise else Overflow
  {
  }

  lemma RescaleOfZero(neg: bool, len: nat, exp: int)
    ensures Rescale(neg, 0, len, exp).Ok? <==> -38 <= len - exp < U32_SPAN
  {
    if len > exp { ZeroNormal(len - exp); }
  }

  lemma RescaleOutcome(neg: bool, u: nat, len: nat, exp: int)
    requires u <= I128_MAX
    ensures Outcome(Rescale(neg, u, len, exp), u, Signed(neg, u), len - exp)
  {
    if Rescale(neg, u, len, exp).Ok? {
      RescaleExact(neg, u, len, exp);
      RescaleDenotes(neg, u, len, exp);
    } else {
      RescaleErrors(neg, u, len, exp);
    }
    if u == 0 {
      RescaleOfZero(neg, len, exp);
    } else if Representable(Signed(neg, u), len - exp) {
      var d :| Valid(d) && Denotes(d, Signed(neg, u), len - exp);
      RescaleOfRepresentable(neg, u, len, exp, d);
    }
  }

  lemma JudgeOutcome(neg: bool, u: nat, len: nat, exp: int)
    ensures Outcome(Judge(neg, u, len, exp), u, Signed(neg, u), len % U32_SPAN - exp)
  {
    if u <= I128_MAX { RescaleOutcome(neg, u, len % U32_SPAN, exp); }
  }

  lemma NumeralOutcome(r: Numeral, out: Result<Dec, Error>)
    requires Body(r) && out == Judge(r.sign == ['-'], ValueOf(r.whole + r.frac), |r.frac|, r.exp)
    ensures Outcome(out, ValueOf(r.whole + r.frac), Written(r), |r.frac| % U32_SPAN - r.exp)
  {
    JudgeOutcome(r.sign == ['-'], ValueOf(r.whole + r.frac), |r.frac|, r.exp);
  }

  /** Every well-spelled text, with its outcome; the length of the fraction is cut to 32 bits. */
  lemma ParseOutcome(s: string, r: Numeral)
    requires WellSpelled(r) && Trim(s) == Spelled(r)
    ensures Outcome(Parse(s), ValueOf(r.whole + r.frac), Written(r), |r.frac| % U32_SPAN - r.exp)
  {
    ParseJudges(s, r);
    NumeralOutcome(r, Parse(s));
  }

  /** A text is called invalid exactly when it is no numeral at all. */
  lemma InvalidIff(s: string)
    ensures Parse(s) == Err(Invalid) <==> forall r :: WellSpelled(r) ==> Trim(s) != Spelled(r)
  {
    if Parse(s) != Err(Invalid) {
      var r := NumeralOf(s);
      assert WellSpelled(r) && Trim(s) == Spelled(r);
    } else {
      forall r | WellSpelled(r) ensures Trim(s) != Spelled(r) {
        if Trim(s) == Spelled(r) { ParseOutcome(s, r); }
      }
    }
  }

  /** The exception is real: nought point 2^32 zeros and a one is read as 0.1. */
  lemma ParseCanMisread(n: nat)
    requires n == U32_SPAN
    ensures Parse(['0', '.'] + Zeros(n) + ['1']) == Ok(Dec(1, 1))
  {
    var whole, frac := ['0'], Zeros(n) + ['1'];
    var text := whole + ['.'] + frac;
    assert ['0', '.'] + Zeros(n) + ['1'] == text;
    PlainText(whole, frac, false, false);
    ParsePlain(text);
    BodyParts(whole, frac);
    LeadingZeros(n);
    AccumulateIsValue(whole + frac);
    DivModUnique(n + 1, U32_SPAN, 1, 1);
  }

  lemma LeadingZeros(n: nat)
    ensures ValueOf(['0'] + (Zeros(n) + ['1'])) == 1
  {
    var digits := ['0'] + (Zeros(n) + ['1']);
    assert digits == Zeros(n + 1) + ['1'];
    assert digits[..n + 1] == Zeros(n + 1);
    ZerosValue(n + 1);
  }

  lemma ParseIsPrintable(s: string)
    requires Parse(s).Ok?
    ensures Valid(Parse(s).value) && Parse(s).value.units != I128_MIN
  {
    var r := ParseExactIff(s);
  }

  lemma NumeralOf(s: string) returns (r: Numeral)
    requires Parse(s) != Err(Invalid)
    ensures WellSpelled(r) && Trim(s) == Spelled(r)
  {
    var mant, tail, exp := ParseForm(s);
    r := MantissaReads(mant, tail, exp);
  }

  /** A text that is not invalid is a mantissa and an exponent, the latter 0 where none is written. */
  lemma ParseForm(s: string) returns (mant: string, tail: string, exp: int)
    requires Parse(s) != Err(Invalid)
    ensures Parse(s) == ParseMantissa(mant, exp) && Trim(s) == mant + tail && Tail(tail, exp)
  {
    var e := FindAny(Trim(s), 'e', 'E');
    mant, tail := CutAt(Trim(s), e);
    exp := if tail == [] then 0 else ParseI32(tail[1..]).value;
    FindAnyHits(Trim(s), 'e', 'E');
  }

  lemma CutAt(t: string, e: nat) returns (mant: string, tail: string)
    requires e <= |t|
    ensures mant == t[..e] && tail == t[e..] && t == mant + tail
    ensures e == |t| ==> mant == t && tail == []
    ensures e < |t| ==> tail != [] && tail[0] == t[e] && tail[1..] == t[e + 1..]
  {
    mant, tail := t[..e], t[e..];
  }

  /** Whatever text was accepted, its printed form is accepted again with the same result. */
  lemma ReparseIsStable(s: string)
    requires Parse(s).Ok?
    ensures Parse(Display(Parse(s).value)) == Parse(s)
  {
    ParseIsPrintable(s);
    PrintThenParse(Parse(s).value);
  }

  // ---------------------------------------------------------------- fixed-point text

  function ToFixed(d: Dec, dp: nat): Result<string, Error> {
    match RoundDp(d, dp, Floor)
    case Err(e) => Err(e)
    case Ok(r) => if Compare(r, d) != Equal then Err(TooPrecise) else Ok(Display(r))
  }

  /** The value can be written with `dp` fractional digits and 128-bit units. */
  ghost predicate FitsPlaces(d: Dec, dp: nat) {
    if d.scale <= dp then InRange(d.units * Pow10(dp - d.scale)) else d.units % Pow10(d.scale - dp) == 0
  }

  /**
   `to_fixed` answers exactly when `dp` places can hold the value, wrapped widening included;
   the text has `dp` places and reads back as the same number.
   */
  lemma ToFixedIsExact(d: Dec, dp: nat)
    requires Valid(d)
    ensures ToFixed(d, dp).Ok? <==> dp <= MAX_SCALE && FitsPlaces(d, dp)
    ensures ToFixed(d, dp).Ok? ==>
              var r := RoundDp(d, dp, Floor).value;
              && r.scale == dp && Compare(r, d) == Equal && ToFixed(d, dp) == Ok(Display(r))
              && (r.units != I128_MIN ==> Parse(ToFixed(d, dp).value) == Ok(r))
  {
    RoundDpCorrect(d, dp, Floor);
    if dp <= MAX_SCALE {
      FloorIsExactIff(d, dp);
      PrintThenParse(RoundDp(d, dp, Floor).value);
    }
  }

  lemma FloorIsExactIff(d: Dec, dp: nat)
    requires Valid(d) && dp <= MAX_SCALE
    ensures Compare(RoundDp(d, dp, Floor).value, d) == Equal <==> FitsPlaces(d, dp)
  {
    CompareIsExact(RoundDp(d, dp, Floor).value, d);
    if dp < d.scale { FloorLosesNothing(d, dp); } else { RoundDpCorrect(d, dp, Floor); }
  }

  lemma FloorLosesNothing(d: Dec, dp: nat)
    requires Valid(d) && dp < d.scale
    ensures CompareExact(RoundDp(d, dp, Floor).value, d) == Equal <==> d.units % Pow10(d.scale - dp) == 0
  {
    var div := Pow10(d.scale - dp);
    var q := d.units / div;
    assert d.units == q * div + d.units % div;
    CommonFactor(q, dp, d.scale);
    CompareScaled(q * div, d.units, Pow10(dp));
  }
}
