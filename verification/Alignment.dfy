/** Alignment to powers of two, as the allocator computes it. `x & (align - 1)` is written
    `x % align`. */
module Alignment {
  import opened Arith
  import opened Ranges

  const TOP: nat := MAX + 1

  /** `count_ones` of a number. */
  function Ones(n: nat): nat { if n == 0 then 0 else n % 2 + Ones(n / 2) }

  function Pow2(k: nat): nat { if k == 0 then 1 else 2 * Pow2(k - 1) }

  /** A number with one bit set divides every power of two above it. */
  lemma {:induction false} OneBitDivides(a: nat, k: nat) returns (m: nat)
    requires Ones(a) == 1 && a <= Pow2(k)
    ensures a > 0 && a * m == Pow2(k)
    decreases k
  {
    if a % 2 == 1 {
      NoBits(a / 2);
      m := Pow2(k);
    } else {
      m := OneBitDivides(a / 2, k - 1);
      Associate(2, a / 2, m);
    }
  }

  lemma NoBits(n: nat)
    requires Ones(n) == 0
    ensures n == 0
  {
    if n > 0 { NoBits(n / 2); }
  }

  lemma Pow2Byte(k: nat)
    ensures Pow2(k + 8) == 256 * Pow2(k)
  {
    assert Pow2(k + 2) == 4 * Pow2(k);
    assert Pow2(k + 4) == 4 * Pow2(k + 2);
    assert Pow2(k + 6) == 4 * Pow2(k + 4);
  }

  lemma Pow2Top()
    ensures Pow2(64) == TOP
  {
    Pow2Byte(0);
    Pow2Byte(8);
    Pow2Byte(16);
    Pow2Byte(24);
    Pow2Byte(32);
    Pow2Byte(40);
    Pow2Byte(48);
    Pow2Byte(56);
  }

  /** The whole address space is a whole number of aligned steps. */
  lemma AlignDividesTop(a: nat)
    requires Ones(a) == 1 && a <= MAX
    ensures a > 0 && TOP % a == 0
  {
    Pow2Top();
    var m := OneBitDivides(a, 64);
    Digit(TOP, 0, a, m);
  }

  /** Bytes of front padding before the next aligned address,
      `(align - (start & mask)) & mask`. */
  function Fix(start: nat, align: nat): nat
    requires align > 0
  {
    (align - start % align) % align
  }

  lemma FixValue(start: nat, align: nat)
    requires align > 0
    ensures Fix(start, align) == if start % align == 0 then 0 else align - start % align
  {
    var r := start % align;
    if r == 0 {
      Digit(align, 0, align, 1);
    } else {
      Digit(align - r, align - r, align, 0);
    }
  }

  /** The padded address is aligned, and no aligned address lies in between. */
  lemma FixMeaning(start: nat, align: nat)
    requires align > 0
    ensures (start + Fix(start, align)) % align == 0 && Fix(start, align) < align
  {
    FixValue(start, align);
    var q, r := start / align, start % align;
    if r == 0 {
    } else {
      Spread(align, q, 1);
      Digit(start + Fix(start, align), 0, align, q + 1);
    }
  }

  lemma NextAligned(start: nat, align: nat, q: nat)
    requires align > 0 && q >= start && q % align == 0
    ensures q >= start + Fix(start, align)
  {
    FixMeaning(start, align);
    var p := start + Fix(start, align);
    if q < p { Gap(align, q, p); }
  }

  /** Two different multiples are at least one step apart. */
  lemma Gap(align: nat, q: nat, p: nat)
    requires align > 0 && q % align == 0 && p % align == 0 && q < p
    ensures q + align <= p
  {
    var i, j := q / align, p / align;
    assert q == align * i && p == align * j;
    if i >= j { Monotone(align, j, i); }
    Monotone(align, i + 1, j);
    Spread(align, i, 1);
  }

  /** `start.wrapping_add(mask) & !mask`. */
  function AlignUp(start: nat, align: nat): nat
    requires align > 0
  {
    var w := (start + (align - 1)) % TOP;
    w - w % align
  }

  /** Rounding up either gives the next aligned address or, if that would leave the 64-bit
      range, wraps to an address below `start`. */
  lemma AlignUpMeaning(start: nat, align: nat)
    requires Ones(align) == 1 && align <= MAX && start <= MAX
    ensures align > 0
    ensures AlignUp(start, align) >= start <==> start + Fix(start, align) <= MAX
    ensures AlignUp(start, align) >= start ==> AlignUp(start, align) == start + Fix(start, align)
  {
    AlignDividesTop(align);
    FixMeaning(start, align);
    var p := start + Fix(start, align);
    if start + (align - 1) < TOP {
      RoundDownIs(start, align);
    } else {
      Wrapped(start, align);
      if p < TOP { Gap(align, p, TOP); }
    }
  }

  lemma RoundDownIs(start: nat, align: nat)
    requires align > 0 && start + (align - 1) < TOP
    ensures AlignUp(start, align) == start + Fix(start, align)
  {
    var w := start + (align - 1);
    assert w % TOP == w;
    FixMeaning(start, align);
    var p := start + Fix(start, align);
    Digit(w, w - p, align, p / align);
  }

  lemma Wrapped(start: nat, align: nat)
    requires 0 < align <= MAX && start <= MAX && start + (align - 1) >= TOP
    ensures AlignUp(start, align) < start
  {
    var w := start + (align - 1);
    assert w % TOP == w - TOP;
  }
}
