/** Bitwise arithmetic on machine words, by bits. */
module Words {
  import opened Arithmetic

  function Pow2(n: nat): (r: nat)
    ensures 0 < r
  {
    if n == 0 then 1 else 2 * Pow2(n - 1)
  }

  function And(x: nat, y: nat): nat {
    if x == 0 || y == 0 then 0 else (x % 2) * (y % 2) + 2 * And(x / 2, y / 2)
  }

  /** Bitwise complement in a word of `width` bits. */
  function Not(x: nat, width: nat): nat
    requires x < Pow2(width)
  {
    Pow2(width) - 1 - x
  }

  function Wrap(x: nat, width: nat): nat {
    x % Pow2(width)
  }

  const WORD: nat := 64

  lemma {:induction false} Pow2Mono(a: nat, b: nat)
    requires a <= b
    ensures Pow2(a) <= Pow2(b)
  {
    if a < b { Pow2Mono(a, b - 1); }
  }

  lemma {:induction false} Pow2Divides(a: nat, b: nat)
    requires a <= b
    ensures Pow2(b) % Pow2(a) == 0
  {
    if a == b {
      DivModUnique(Pow2(b), Pow2(a), 1, 0);
    } else {
      Pow2Divides(a, b - 1);
      var q := Pow2(b - 1) / Pow2(a);
      assert Pow2(b) == (2 * q) * Pow2(a);
      DivModUnique(Pow2(b), Pow2(a), 2 * q, 0);
    }
  }

  lemma HalveMod(x: nat, p: nat)
    requires 0 < p
    ensures x % (2 * p) == 2 * ((x / 2) % p) + x % 2
  {
    var h := x / 2;
    assert h == (h / p) * p + h % p;
    assert x == (h / p) * (2 * p) + (2 * (h % p) + x % 2);
    DivModUnique(x, 2 * p, h / p, 2 * (h % p) + x % 2);
  }

  /** `x & !(2^k - 1)` clears the remainder modulo 2^k. */
  lemma {:induction false} MaskClears(x: nat, k: nat, width: nat)
    requires k <= width && x < Pow2(width)
    ensures Pow2(k) - 1 < Pow2(width)
    ensures And(x, Not(Pow2(k) - 1, width)) == x - x % Pow2(k)
  {
    Pow2Mono(k, width);
    var mask := Not(Pow2(k) - 1, width);
    if width == 0 {
      DivModUnique(x, 1, x, 0);
    } else if k == 0 {
      AllOnes(x, width);
      DivModUnique(x, 1, x, 0);
    } else {
      MaskClears(x / 2, k - 1, width - 1);
      HalveMod(x, Pow2(k - 1));
      var half := Not(Pow2(k - 1) - 1, width - 1);
      assert mask == 2 * half;
      assert mask % 2 == 0 && mask / 2 == half;
      assert And(x, mask) == 2 * And(x / 2, half);
    }
  }

  lemma {:induction false} AllOnes(x: nat, width: nat)
    requires x < Pow2(width)
    ensures And(x, Pow2(width) - 1) == x
  {
    if width > 0 {
      AllOnes(x / 2, width - 1);
      var ones := Pow2(width) - 1;
      assert ones % 2 == 1 && ones / 2 == Pow2(width - 1) - 1;
    }
  }
}

/**
 The bump arena of `crates/core/zero_copy.rs`: `allocate` loads the offset, then repeats
 "align, bound check, weak compare-exchange" until it returns.  The load and each attempt
 are atomic steps; threads and resets interleave arbitrarily and a weak compare-exchange
 may fail for no reason.  Offsets are 64-bit words with wrap-around.
 */
module SignalArena {
  import opened Wrappers
  import opened Arithmetic
  import opened Words

  type ThreadId = nat

  /** `size_of` and `align_of` of the allocated type; the alignment is 2^log2. */
  datatype Layout = Layout(size: nat, log2: nat) {
    function Align(): (a: nat)
      ensures 0 < a
    {
      Pow2(log2)
    }

    /** The language's rules for a sized type. */
    ghost predicate Valid() {
      log2 <= 62 && size < Pow2(63) && size % Align() == 0
    }
  }

  datatype Thread = Idle | Trying(layout: Layout, offset: nat, epoch: nat)

  datatype Region = Region(start: nat, layout: Layout) {
    function End(): nat { start + layout.size }
  }

  /** `regions` are the allocations since the last reset; `epoch` counts resets. */
  datatype State = State(
    capacity: nat,
    offset: nat,
    threads: map<ThreadId, Thread>,
    regions: seq<Region>,
    epoch: nat)

  datatype Step =
    | Advance(thread: ThreadId, layout: Layout, spurious: bool)
    | Reset

  datatype Event = Silent | Full(wanted: Layout) | Allocated(region: Region)

  /** The source's mask expression, in wrapping 64-bit arithmetic. */
  function MaskExpression(offset: nat, log2: nat, width: nat): nat
    requires log2 <= width
  {
    Pow2Mono(log2, width);
    And(Wrap(Wrap(offset + Pow2(log2), width) + Pow2(width) - 1, width), Not(Pow2(log2) - 1, width))
  }

  function Aligned(offset: nat, layout: Layout): nat
    requires layout.log2 < 64
  {
    MaskExpression(offset, layout.log2, WORD)
  }

  function NewOffset(offset: nat, layout: Layout): nat
    requires layout.log2 < 64
  {
    Wrap(Aligned(offset, layout) + layout.size, WORD)
  }

  function ThreadOf(s: State, t: ThreadId): Thread {
    if t in s.threads then s.threads[t] else Idle
  }

  function Attempt(s: State, t: ThreadId, layout: Layout, local: nat, spurious: bool): (State, Event)
    requires layout.log2 < 64
  {
    var start, next := Aligned(local, layout), NewOffset(local, layout);
    if next > s.capacity then
      (s.(threads := s.threads[t := Idle]), Full(layout))
    else if s.offset == local && !spurious then
      var region := Region(start, layout);
      (s.(offset := next, threads := s.threads[t := Idle], regions := s.regions + [region]), Allocated(region))
    else
      (s.(threads := s.threads[t := Trying(layout, s.offset, s.epoch)]), Silent)
  }

  function Next(s: State, step: Step): (State, Event)
    requires step.Advance? ==> step.layout.log2 < 64
    requires step.Advance? && ThreadOf(s, step.thread).Trying? ==> ThreadOf(s, step.thread).layout.log2 < 64
  {
    match step
    case Advance(t, layout, spurious) =>
      (match ThreadOf(s, t)
       case Idle => (s.(threads := s.threads[t := Trying(layout, s.offset, s.epoch)]), Silent)
       case Trying(l, local, _) => Attempt(s, t, l, local, spurious))
    case Reset => (s.(offset := 0, regions := [], epoch := s.epoch + 1), Silent)
  }

  function Initial(capacity: nat): State {
    State(capacity, 0, map[], [], 0)
  }

  // ---------------------------------------------------------------- alignment

  /** The specification of alignment: the least multiple of `a` that is not below `x`. */
  ghost predicate IsAlignUp(x: nat, a: nat, r: nat)
    requires 0 < a
  {
    && x <= r && r % a == 0
    && forall m: nat :: m % a == 0 && x <= m ==> r <= m
  }

  lemma MultipleGap(m: nat, r: nat, a: nat)
    requires 0 < a && m % a == 0 && r % a == 0 && m < r
    ensures m + a <= r
  {
    assert m == (m / a) * a && r == (r / a) * a;
    MulStep(m / a, r / a, a);
  }

  /** Rounding down after adding a - 1 is rounding up. */
  lemma RoundUp(x: nat, a: nat)
    requires 0 < a
    ensures IsAlignUp(x, a, (x + a - 1) - (x + a - 1) % a)
    ensures (x + a - 1) - (x + a - 1) % a < x + a
  {
    var y := x + a - 1;
    var r := y - y % a;
    assert y == (y / a) * a + y % a;
    DivModUnique(r, a, y / a, 0);
    forall m: nat | m % a == 0 && x <= m
      ensures r <= m
    {
      if m < r { MultipleGap(m, r, a); }
    }
  }

  /** Adding the alignment and subtracting one, in wrapping arithmetic of modulus `word`. */
  lemma BiasDoesNotWrap(offset: nat, a: nat, word: nat)
    requires 0 < a && offset + a < word
    ensures ((offset + a) % word + word - 1) % word == offset + a - 1
  {
    DivModUnique(offset + a, word, 0, offset + a);
    DivModUnique(offset + a + word - 1, word, 1, offset + a - 1);
  }

  lemma MaskAligns(offset: nat, log2: nat, width: nat)
    requires log2 <= width && offset + Pow2(log2) < Pow2(width)
    ensures IsAlignUp(offset, Pow2(log2), MaskExpression(offset, log2, width))
    ensures MaskExpression(offset, log2, width) < offset + Pow2(log2)
  {
    MaskIsRounding(offset, log2, width, Pow2(log2));
    RoundUp(offset, Pow2(log2));
  }

  lemma MaskIsRounding(offset: nat, log2: nat, width: nat, a: nat)
    requires log2 <= width && a == Pow2(log2) && offset + a < Pow2(width)
    ensures MaskExpression(offset, log2, width) == (offset + a - 1) - (offset + a - 1) % a
  {
    BiasDoesNotWrap(offset, a, Pow2(width));
    MaskClears(offset + a - 1, log2, width);
  }

  /** A multiple of `a` up to `half` plus a smaller multiple stays below twice `half`. */
  lemma SumDoesNotWrap(start: nat, size: nat, a: nat, half: nat)
    requires 0 < a && half % a == 0 && size % a == 0
    requires start <= half && size < half
    ensures (start + size) % (2 * half) == start + size
  {
    MultipleGap(size, half, a);
    DivModUnique(start + size, 2 * half, 0, start + size);
  }

  /**
   For every type the language admits and every offset inside a valid arena, the mask
   expression is exact alignment and no 64-bit operation wraps.
   */
  lemma AlignmentExact(offset: nat, layout: Layout)
    requires layout.Valid() && offset + 63 < Pow2(63)
    ensures IsAlignUp(offset, layout.Align(), Aligned(offset, layout))
    ensures Aligned(offset, layout) < offset + layout.Align()
    ensures NewOffset(offset, layout) == Aligned(offset, layout) + layout.size
  {
    var a, half := layout.Align(), Pow2(63);
    assert offset + a < Pow2(WORD) by { Pow2Mono(layout.log2, 62); }
    MaskAligns(offset, layout.log2, WORD);
    Pow2Divides(layout.log2, 63);
    assert Aligned(offset, layout) <= half;
    SumDoesNotWrap(Aligned(offset, layout), layout.size, a, half);
  }

  /** The pointer handed out is aligned exactly when the arena's base address is. */
  lemma PointerAlignment(base: nat, start: nat, a: nat)
    requires 0 < a && start % a == 0
    ensures (base + start) % a == 0 <==> base % a == 0
  {
    var q := start / a;
    assert start == q * a;
    assert base == (base / a) * a + base % a;
    assert base + start == (base / a + q) * a + base % a;
    DivModUnique(base + start, a, base / a + q, base % a);
  }

  /** Where the allocator may put the buffer: the arena asks for 64-byte alignment. */
  predicate BufferAt(base: nat) { base % 64 == 0 }

  /** The buffer is 64-byte aligned, so every alignment up to 64 is honoured. */
  lemma SmallAlignmentsHonoured(base: nat, start: nat, layout: Layout)
    requires BufferAt(base) && layout.log2 <= 6 && start % layout.Align() == 0
    ensures (base + start) % layout.Align() == 0
  {
    var a := layout.Align();
    PointerAlignment(base, start, a);
    assert Pow2(6) == 64;
    Pow2Divides(layout.log2, 6);
    var k := 64 / a;
    assert 64 == k * a;
    assert base == (base / 64) * 64;
    assert base == ((base / 64) * k) * a;
    DivModUnique(base, a, (base / 64) * k, 0);
  }

  /** Whatever address the buffer got, a region's address is aligned exactly for alignments up to 64. */
  lemma AlignmentHonouredIff(start: nat, layout: Layout)
    requires start % layout.Align() == 0
    ensures (forall base: nat :: BufferAt(base) ==> (base + start) % layout.Align() == 0) <==> layout.log2 <= 6
  {
    if layout.log2 <= 6 {
      forall base: nat | BufferAt(base) ensures (base + start) % layout.Align() == 0 {
        SmallAlignmentsHonoured(base, start, layout);
      }
    } else {
      CoarseMisses(start, layout.Align(), layout.log2);
      assert BufferAt(64);
    }
  }

  lemma CoarseMisses(start: nat, a: nat, log2: nat)
    requires 6 < log2 && a == Pow2(log2) && start % a == 0
    ensures (64 + start) % a != 0
  {
    assert Pow2(7) == 128;
    Pow2Mono(7, log2);
    PointerAlignment(64, start, a);
    DivModUnique(64, a, 0, 64);
  }

  lemma ZeroAligns(layout: Layout)
    requires layout.Valid() && 63 < Pow2(63)
    ensures Aligned(0, layout) == 0
  {
    AlignmentExact(0, layout);
    DivModUnique(0, layout.Align(), 0, 0);
  }

  /** A buffer at address 64 and a type of alignment 128: the first region is misaligned. */
  lemma CoarseAlignmentCanMiss()
    ensures var layout := Layout(128, 7);
            && layout.Valid() && layout.Align() == 128 && BufferAt(64)
            && Aligned(0, layout) == 0 && (64 + Aligned(0, layout)) % layout.Align() != 0
  {
    var layout := Layout(128, 7);
    assert Pow2(7) == 128;
    assert 128 < Pow2(63) by { Pow2Mono(8, 63); assert Pow2(8) == 256; }
    ZeroAligns(layout);
  }

  // ---------------------------------------------------------------- the invariant

  ghost predicate RegionsOk(regions: seq<Region>, offset: nat) {
    && (forall i :: 0 <= i < |regions| ==>
          && regions[i].layout.log2 <= 62
          && regions[i].start % regions[i].layout.Align() == 0
          && regions[i].End() <= offset)
    && (forall i, j :: 0 <= i < j < |regions| ==> regions[i].End() <= regions[j].start)
  }

  ghost predicate ThreadOk(s: State, th: Thread) {
    th.Trying? ==>
      && th.layout.Valid()
      && th.offset <= s.capacity
      && th.epoch <= s.epoch
      && (th.epoch == s.epoch ==> th.offset <= s.offset)
  }

  ghost predicate Inv(s: State) {
    && s.capacity + 63 < Pow2(63)
    && s.offset <= s.capacity
    && RegionsOk(s.regions, s.offset)
    && forall t :: t in s.threads ==> ThreadOk(s, s.threads[t])
  }

  ghost predicate Admissible(step: Step) {
    step.Advance? ==> step.layout.Valid()
  }

  lemma NextKeepsInv(s: State, step: Step)
    requires Inv(s) && Admissible(step)
    ensures Inv(Next(s, step).0)
    ensures step.Advance? ==> s.offset <= Next(s, step).0.offset
  {
    if step.Advance? && ThreadOf(s, step.thread).Trying? {
      AttemptKeepsInv(s, step.thread, step.spurious);
    }
  }

  lemma AttemptKeepsInv(s: State, t: ThreadId, spurious: bool)
    requires Inv(s) && ThreadOf(s, t).Trying?
    ensures var th := ThreadOf(s, t); var s' := Attempt(s, t, th.layout, th.offset, spurious).0;
            Inv(s') && s.offset <= s'.offset
  {
    var th := ThreadOf(s, t);
    AlignmentExact(th.offset, th.layout);
    var start, next := Aligned(th.offset, th.layout), NewOffset(th.offset, th.layout);
    if next <= s.capacity && s.offset == th.offset && !spurious {
      AppendRegion(s.regions, s.offset, Region(start, th.layout), next);
    }
  }

  lemma AppendRegion(regions: seq<Region>, offset: nat, region: Region, next: nat)
    requires RegionsOk(regions, offset)
    requires region.layout.log2 <= 62 && region.start % region.layout.Align() == 0
    requires offset <= region.start && region.End() == next
    ensures RegionsOk(regions + [region], next)
  {
  }

  function Run(s: State, steps: seq<Step>): (r: State)
    requires Inv(s) && forall i :: 0 <= i < |steps| ==> Admissible(steps[i])
    ensures Inv(r) && r.capacity == s.capacity
    decreases |steps|
  {
    if steps == [] then s
    else
      NextKeepsInv(s, steps[0]);
      Run(Next(s, steps[0]).0, steps[1..])
  }

  /**
   In every interleaving of allocators and resets, the regions handed out since the last
   reset lie inside the arena, start at multiples of their alignment and are pairwise
   disjoint, and `used` covers them all.
   */
  lemma ArenaSafety(capacity: nat, steps: seq<Step>)
    requires capacity + 63 < Pow2(63)
    requires forall i :: 0 <= i < |steps| ==> Admissible(steps[i])
    ensures Inv(Initial(capacity))
    ensures var s := Run(Initial(capacity), steps);
            && (forall i :: 0 <= i < |s.regions| ==>
                  && s.regions[i].End() <= s.offset <= capacity
                  && s.regions[i].start % s.regions[i].layout.Align() == 0)
            && (forall i, j :: 0 <= i < |s.regions| && 0 <= j < |s.regions| && i != j ==>
                  s.regions[i].End() <= s.regions[j].start || s.regions[j].End() <= s.regions[i].start)
  {
    assert Inv(Initial(capacity));
    var s := Run(Initial(capacity), steps);
    forall i, j | 0 <= i < |s.regions| && 0 <= j < |s.regions| && i != j
      ensures s.regions[i].End() <= s.regions[j].start || s.regions[j].End() <= s.regions[i].start
    {
      if i < j { assert s.regions[i].End() <= s.regions[j].start; }
      else { assert s.regions[j].End() <= s.regions[i].start; }
    }
  }

  /**
   A thread is told "full" only when its request does not fit after the offset it read, and
   unless a reset intervened it still does not fit at the moment of the answer.
   */
  lemma FullIsGenuine(s: State, t: ThreadId, layout: Layout, spurious: bool)
    requires Inv(s) && Admissible(Advance(t, layout, spurious))
    requires Next(s, Advance(t, layout, spurious)).1.Full?
    ensures var th := ThreadOf(s, t);
            && th.Trying?
            && (th.epoch == s.epoch ==> forall r: nat :: IsAlignUp(s.offset, th.layout.Align(), r) ==>
                  r + th.layout.size > s.capacity)
  {
    var th := ThreadOf(s, t);
    AlignmentExact(th.offset, th.layout);
    var start := Aligned(th.offset, th.layout);
    forall r: nat | th.epoch == s.epoch && IsAlignUp(s.offset, th.layout.Align(), r)
      ensures r + th.layout.size > s.capacity
    {
      assert th.offset <= r && r % th.layout.Align() == 0;
      assert start <= r;
    }
  }

  /** What a thread is told: of a region exactly when one is handed out, and a call ends exactly with its answer. */
  lemma AnswersTell(s: State, t: ThreadId, layout: Layout, spurious: bool)
    requires Inv(s) && Admissible(Advance(t, layout, spurious))
    ensures var (s', e) := Next(s, Advance(t, layout, spurious));
            && s'.regions == (if e.Allocated? then s.regions + [e.region] else s.regions)
            && (ThreadOf(s, t).Trying? ==> (ThreadOf(s', t).Idle? <==> e.Allocated? || e.Full?))
            && (ThreadOf(s, t).Idle? ==> e == Silent && ThreadOf(s', t).Trying? && ThreadOf(s', t).layout == layout)
  {
  }

  /** A successful attempt returns the tightest aligned region after the current offset. */
  lemma AllocationIsTight(s: State, t: ThreadId, layout: Layout, spurious: bool)
    requires Inv(s) && Admissible(Advance(t, layout, spurious))
    requires Next(s, Advance(t, layout, spurious)).1.Allocated?
    ensures var region := Next(s, Advance(t, layout, spurious)).1.region;
            && IsAlignUp(s.offset, region.layout.Align(), region.start)
            && region.End() == Next(s, Advance(t, layout, spurious)).0.offset
            && region.layout == ThreadOf(s, t).layout
  {
    var th := ThreadOf(s, t);
    AlignmentExact(th.offset, th.layout);
  }

  // ---------------------------------------------------------------- the arena object

  /** The arena as one caller uses it; `spurious` is how often the weak compare-exchange fails. */
  class SignalArena {
    const capacity: nat
    var offset: nat
    ghost var regions: seq<Region>

    ghost predicate Valid()
      reads this
    {
      capacity + 63 < Pow2(63) && offset <= capacity && RegionsOk(regions, offset)
    }

    constructor (capacity: nat)
      requires capacity + 63 < Pow2(63)
      ensures Valid() && this.capacity == capacity && offset == 0 && regions == []
    {
      this.capacity, offset, regions := capacity, 0, [];
    }

    method Allocate(layout: Layout, spurious: nat) returns (r: Option<nat>)
      requires Valid() && layout.Valid()
      modifies this
      ensures Valid()
      ensures r.Some? ==>
                && IsAlignUp(old(offset), layout.Align(), r.value)
                && offset == r.value + layout.size && regions == old(regions) + [Region(r.value, layout)]
      ensures r.None? ==>
                && offset == old(offset) && regions == old(regions)
                && forall q: nat :: IsAlignUp(offset, layout.Align(), q) ==> q + layout.size > capacity
    {
      var local, failures := offset, spurious;
      AlignmentExact(offset, layout);
      while true
        invariant local == offset == old(offset) && regions == old(regions)
        decreases failures
      {
        var aligned, next := Aligned(local, layout), NewOffset(local, layout);
        if next > capacity {
          return None;
        }
        if failures == 0 {
          AppendRegion(regions, offset, Region(aligned, layout), next);
          offset, regions := next, regions + [Region(aligned, layout)];
          return Some(aligned);
        }
        local, failures := offset, failures - 1;
      }
    }

    method Reset()
      requires Valid()
      modifies this
      ensures Valid() && offset == 0 && regions == []
    {
      offset, regions := 0, [];
    }

    /** Every byte handed out since the last reset lies below `used`. */
    method Used() returns (n: nat)
      requires Valid()
      ensures n <= capacity && forall i :: 0 <= i < |regions| ==> regions[i].End() <= n
    {
      n := offset;
    }
  }
}
