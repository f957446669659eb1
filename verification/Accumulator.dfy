/**
 * The 56-bit arithmetic of the DSP56001 data ALU (src/dsp_cpu.c).
 *
 * An accumulator is an array of three limbs, as in the emulator: d[0] holds bits 55..48,
 * d[1] bits 47..24 and d[2] bits 23..0.  Each routine changes the limbs in place and is
 * specified by what it does to the integer that the limbs stand for.
 */
module Accumulator {
  import opened Arith

  const W12 := 0x1000
  const W22 := 0x40_0000
  const W23 := 0x80_0000
  const W24 := 0x100_0000
  const W25 := 0x200_0000
  const W32 := 0x1_0000_0000
  const W48 := 0x1_0000_0000_0000
  const W55 := 0x80_0000_0000_0000
  const W56 := 0x100_0000_0000_0000

  // ---------------------------------------------------------------- values of limbs

  datatype Limbs = Limbs(hi: int, mid: int, lo: int) {
    ghost predicate Valid() {
      0 <= hi < 256 && 0 <= mid < W24 && 0 <= lo < W24
    }

    /** The limbs read as an unsigned 56-bit number. */
    ghost function Unsigned(): int {
      hi * W48 + mid * W24 + lo
    }

    /** The limbs read as a two's complement 56-bit number. */
    ghost function Signed(): int {
      if hi < 128 then Unsigned() else Unsigned() - W56
    }
  }

  ghost function View(d: array<int>): Limbs
    requires d.Length == 3
    reads d
  {
    Limbs(d[0], d[1], d[2])
  }

  ghost predicate IsLimbs(d: array<int>)
    reads d
  {
    d.Length == 3 && View(d).Valid()
  }

  ghost predicate InRange(x: int) {
    -W55 <= x < W55
  }

  /** The representative of x modulo 2^56 in the signed 56-bit range. */
  ghost function Wrap(x: int): int
    decreases if x < 0 then -2 * x else 2 * x + 1
  {
    if x < -W55 then Wrap(x + W56) else if x >= W55 then Wrap(x - W56) else x
  }

  lemma {:induction false} WrapCongruent(x: int) returns (k: int)
    ensures InRange(Wrap(x)) && x == Wrap(x) + k * W56
    decreases if x < 0 then -2 * x else 2 * x + 1
  {
    if x < -W55 {
      k := WrapCongruent(x + W56);
      k := k - 1;
    } else if x >= W55 {
      k := WrapCongruent(x - W56);
      k := k + 1;
    } else {
      k := 0;
    }
  }

  /** Wrap is pinned down by its range and its residue. */
  lemma WrapIs(x: int, r: int, k: int)
    requires InRange(r) && x == r + k * W56
    ensures Wrap(x) == r
  {
    var k' := WrapCongruent(x);
  }

  // ---------------------------------------------------------------- bits of C words

  /** The part of the status word that the arithmetic routines return. */
  datatype NewSr = NewSr(l: bool, v: bool, c: bool)

  /** Truncation to Uint32. */
  function U32(x: int): (r: int)
    ensures 0 <= x < W32 ==> r == x
    ensures -W32 <= x < 0 ==> r == x + W32
  {
    x % W32
  }

  /** (x >> 24) & 1: the carry or borrow that a limb operation leaves above its 24 bits. */
  function Bit24(x: int): (b: int)
    requires 0 <= x < W32
    ensures x < W24 ==> b == 0
    ensures W24 <= x < 2 * W24 ==> b == 1
    ensures x >= W32 - W24 ==> b == 1
  {
    x / W24 % 2
  }

  /** x & BITMASK(24) */
  function Mask24(x: int): (r: int)
    requires 0 <= x < W32
    ensures x < W24 ==> r == x
    ensures W24 <= x < 2 * W24 ==> r == x - W24
    ensures x >= W32 - W24 ==> r == x - (W32 - W24)
  {
    x % W24
  }

  /** x & BITMASK(8) */
  function Mask8(x: int): (r: int)
    requires 0 <= x < W32
    ensures x < 256 ==> r == x
    ensures 256 <= x < 512 ==> r == x - 256
    ensures x >= W32 - 256 ==> r == x - (W32 - 256)
  {
    x % 256
  }

  /** (x >> 7) & 1, the sign bit of the top limb */
  predicate Bit7(x: int)
    requires 0 <= x < 256
    ensures Bit7(x) == (x >= 128)
  {
    x / 128 % 2 == 1
  }

  /** (x >> 23) & 1, the top bit of a 24-bit word */
  predicate Bit23(x: int)
    requires 0 <= x < W24
    ensures Bit23(x) == (x >= W23)
  {
    x / W23 % 2 == 1
  }

  /** Comparison limb by limb, the way the carry of an addition or subtraction is found. */
  predicate LimbsLess(x: Limbs, y: Limbs) {
    x.hi < y.hi || (x.hi == y.hi && (x.mid < y.mid || (x.mid == y.mid && x.lo < y.lo)))
  }

  // ---------------------------------------------------------------- addition and subtraction

  /** The three limb additions with their carries. */
  method AddLimbs(source: array<int>, dest: array<int>)
    requires source != dest && IsLimbs(source) && IsLimbs(dest)
    modifies dest
    ensures IsLimbs(dest)
    ensures View(dest).Unsigned() == old(View(dest).Unsigned()) + View(source).Unsigned() ||
            View(dest).Unsigned() == old(View(dest).Unsigned()) + View(source).Unsigned() - W56
  {
    dest[2] := U32(dest[2] + source[2]);
    dest[1] := U32(dest[1] + source[1] + Bit24(dest[2]));
    dest[0] := U32(dest[0] + source[0] + Bit24(dest[1]));

    dest[2] := Mask24(dest[2]);
    dest[1] := Mask24(dest[1]);
    dest[0] := Mask8(dest[0]);
  }

  lemma AddFlags(s: Limbs, d: Limbs, r: Limbs)
    requires s.Valid() && d.Valid() && r.Valid()
    requires r.Unsigned() == d.Unsigned() + s.Unsigned() || r.Unsigned() == d.Unsigned() + s.Unsigned() - W56
    ensures r.Signed() == Wrap(d.Signed() + s.Signed())
    ensures (s.hi >= 128) != (r.hi >= 128) && (d.hi >= 128) != (r.hi >= 128) <==> !InRange(d.Signed() + s.Signed())
    ensures LimbsLess(Limbs(255 - d.hi, W24 - 1 - d.mid, W24 - 1 - d.lo), s) == (d.Unsigned() + s.Unsigned() >= W56)
  {
  }

  /** D := D + S modulo 2^56; C is the unsigned carry out, V and L the signed overflow. */
  method Add56(source: array<int>, dest: array<int>) returns (sr: NewSr)
    requires source != dest && IsLimbs(source) && IsLimbs(dest)
    modifies dest
    ensures IsLimbs(dest)
    ensures View(dest).Signed() == Wrap(old(View(dest).Signed()) + View(source).Signed())
    ensures sr.l == sr.v == !InRange(old(View(dest).Signed()) + View(source).Signed())
    ensures sr.c == (old(View(dest).Unsigned()) + View(source).Unsigned() >= W56)
  {
    var flgS := Bit7(source[0]);
    var flgD := Bit7(dest[0]);
    var notDest := Limbs(255 - dest[0], W24 - 1 - dest[1], W24 - 1 - dest[2]);

    AddLimbs(source, dest);

    var flgR := Bit7(dest[0]);
    var overflow := flgS != flgR && flgD != flgR;
    var carry := LimbsLess(notDest, Limbs(source[0], source[1], source[2]));
    sr := NewSr(overflow, overflow, carry);
    AddFlags(View(source), old(View(dest)), View(dest));
  }

  /** The three limb subtractions; an unsigned 32-bit difference keeps the borrow in bit 24. */
  method SubLimbs(source: array<int>, dest: array<int>)
    requires source != dest && IsLimbs(source) && IsLimbs(dest)
    modifies dest
    ensures IsLimbs(dest)
    ensures View(dest).Unsigned() == old(View(dest).Unsigned()) - View(source).Unsigned() ||
            View(dest).Unsigned() == old(View(dest).Unsigned()) - View(source).Unsigned() + W56
  {
    dest[2] := U32(dest[2] - source[2]);
    dest[1] := U32(dest[1] - (source[1] + Bit24(dest[2])));
    dest[0] := U32(dest[0] - (source[0] + Bit24(dest[1])));

    dest[2] := Mask24(dest[2]);
    dest[1] := Mask24(dest[1]);
    dest[0] := Mask8(dest[0]);
  }

  lemma SubFlags(s: Limbs, d: Limbs, r: Limbs)
    requires s.Valid() && d.Valid() && r.Valid()
    requires r.Unsigned() == d.Unsigned() - s.Unsigned() || r.Unsigned() == d.Unsigned() - s.Unsigned() + W56
    ensures r.Signed() == Wrap(d.Signed() - s.Signed())
    ensures (s.hi >= 128) != (d.hi >= 128) && (r.hi >= 128) != (d.hi >= 128) <==> !InRange(d.Signed() - s.Signed())
    ensures LimbsLess(d, s) == (d.Unsigned() < s.Unsigned())
  {
  }

  /** D := D - S modulo 2^56; C is the unsigned borrow, V and L the signed overflow. */
  method Sub56(source: array<int>, dest: array<int>) returns (sr: NewSr)
    requires source != dest && IsLimbs(source) && IsLimbs(dest)
    modifies dest
    ensures IsLimbs(dest)
    ensures View(dest).Signed() == Wrap(old(View(dest).Signed()) - View(source).Signed())
    ensures sr.l == sr.v == !InRange(old(View(dest).Signed()) - View(source).Signed())
    ensures sr.c == (old(View(dest).Unsigned()) < View(source).Unsigned())
  {
    var destSave := Limbs(dest[0], dest[1], dest[2]);

    SubLimbs(source, dest);

    var flgS := Bit7(source[0]);
    var flgD := Bit7(destSave.hi);
    var flgR := Bit7(dest[0]);
    var overflow := flgS != flgD && flgR != flgD;
    var carry := LimbsLess(destSave, Limbs(source[0], source[1], source[2]));
    sr := NewSr(overflow, overflow, carry);
    SubFlags(View(source), old(View(dest)), View(dest));
  }

  // ---------------------------------------------------------------- shifts

  method ShiftLeftLimbs(dest: array<int>)
    requires IsLimbs(dest)
    modifies dest
    ensures IsLimbs(dest)
    ensures dest[2] % 2 == 0
    ensures View(dest).Unsigned() == 2 * old(View(dest).Unsigned()) - (if old(dest[0]) >= 128 then W56 else 0)
  {
    dest[0] := Mask8(2 * dest[0] + (if Bit23(dest[1]) then 1 else 0));
    dest[1] := Mask24(2 * dest[1] + (if Bit23(dest[2]) then 1 else 0));
    dest[2] := Mask24(2 * dest[2]);
  }

  /** Left shift: the value doubles modulo 2^56; V and L say that the exact double does not fit. */
  method Asl56(dest: array<int>) returns (sr: NewSr)
    requires IsLimbs(dest)
    modifies dest
    ensures IsLimbs(dest)
    ensures View(dest).Signed() == Wrap(2 * old(View(dest).Signed()))
    ensures dest[2] % 2 == 0
    ensures sr.l == sr.v == !InRange(2 * old(View(dest).Signed()))
    ensures sr.c == (old(View(dest).Signed()) < 0)
  {
    var carry := Bit7(dest[0]);
    ShiftLeftLimbs(dest);
    var overflow := carry != Bit7(dest[0]);
    sr := NewSr(overflow, overflow, carry);
  }

  /** Right shift: the value is halved, rounding down; C is the bit shifted out. */
  method Asr56(dest: array<int>) returns (sr: NewSr)
    requires IsLimbs(dest)
    modifies dest
    ensures IsLimbs(dest)
    ensures View(dest).Signed() == old(View(dest).Signed()) / 2
    ensures sr == NewSr(false, false, old(View(dest).Signed()) % 2 == 1)
  {
    var carry := dest[2] % 2 == 1;
    dest[2] := dest[2] / 2 + dest[1] % 2 * W23;
    dest[1] := dest[1] / 2 + dest[0] % 2 * W23;
    dest[0] := dest[0] / 2;
    dest[0] := dest[0] + (if dest[0] >= 64 then 128 else 0);
    sr := NewSr(false, false, carry);
  }

  // ---------------------------------------------------------------- multiplication

  /** A 24-bit word read as a two's complement number. */
  ghost function Signed24(w: int): int {
    if w < W23 then w else w - W24
  }

  lemma PartialProducts(x: int, y: int, xh: int, xl: int, yh: int, yl: int)
    requires x == xh * W12 + xl && y == yh * W12 + yl
    ensures x * y == xl * yl + (xh * yl + xl * yh) * W12 + (xh * yh) * W24
  {
    calc {
      x * y;
      (xh * W12 + xl) * (yh * W12 + yl);
      (xh * W12) * (yh * W12) + (xh * W12) * yl + xl * (yh * W12) + xl * yl;
      (xh * yh) * W24 + (xh * yl) * W12 + (xl * yh) * W12 + xl * yl;
    }
  }

  /** The limb sums of the four partial products, before carries are moved up. */
  lemma ProductLimbs(x: int, y: int, xh: int, xl: int, yh: int, yl: int)
    requires 0 <= x <= W23 && 0 <= y <= W23
    requires xl == x % W12 && xh == x / W12 && yl == y % W12 && yh == y / W12
    ensures 0 <= xl * yl < W24 && 0 <= xh * yl < W24 && 0 <= xl * yh < W24 && 0 <= xh * yh < W23
    ensures var lo := xl * yl + xh * yl % W12 * W12 + xl * yh % W12 * W12;
            var mid := xh * yl / W12 + xl * yh / W12 + xh * yh;
            mid * W24 + lo == x * y
  {
    PartialProducts(x, y, xh, xl, yh, yl);
    ProductBound(xl, yl, 4095, 4095);
    ProductBound(xh, yl, 2048, 4095);
    ProductBound(xl, yh, 4095, 2048);
    ProductBound(xh, yh, 2048, 2048);
  }

  method PropagateCarries(dest: array<int>)
    requires dest.Length == 3 && dest[0] == 0 && 0 <= dest[1] < 2 * W24 && 0 <= dest[2] < 3 * W24
    modifies dest
    ensures IsLimbs(dest) && View(dest).Unsigned() == old(dest[1]) * W24 + old(dest[2])
  {
    var value := dest[2] / W24 % 256;
    if value != 0 {
      dest[1] := U32(dest[1] + value);
      dest[2] := dest[2] % W24;
    }
    value := dest[1] / W24 % 256;
    if value != 0 {
      dest[0] := U32(dest[0] + value);
      dest[1] := dest[1] % W24;
    }
  }

  /** The product of two magnitudes from four 12-bit partial products, then the carries. */
  method MulLimbs(x: int, y: int, dest: array<int>)
    requires 0 <= x <= W23 && 0 <= y <= W23 && dest.Length == 3
    modifies dest
    ensures IsLimbs(dest) && View(dest).Unsigned() == x * y
  {
    var xl, xh, yl, yh := x % W12, x / W12, y % W12, y / W12;
    var part0, part1, part2, part3 := xl * yl, xh * yl, xl * yh, xh * yh;
    ProductLimbs(x, y, xh, xl, yh, yl);

    dest[2] := U32(part0 + part1 % W12 * W12 + part2 % W12 * W12);
    dest[1] := U32(part1 / W12 + part2 / W12 + part3);
    dest[0] := 0;
    PropagateCarries(dest);
  }

  lemma SignedProduct(x: int, y: int, nx: bool, ny: bool)
    requires 0 <= x <= W23 && 0 <= y <= W23
    ensures var p := (if nx then -x else x) * (if ny then -y else y);
            p == (if nx != ny then -(x * y) else x * y) && -(W23 * W23) <= p <= W23 * W23
  {
    ProductBound(x, y, W23, W23);
    assert (-x) * (-y) == x * y && (-x) * y == -(x * y) && x * (-y) == -(x * y);
  }

  /** D := 0 - D modulo 2^56, through a zero accumulator. */
  method Negate(dest: array<int>)
    requires IsLimbs(dest)
    modifies dest
    ensures IsLimbs(dest)
    ensures View(dest).Signed() == Wrap(0 - old(View(dest).Signed()))
  {
    var zeroDest := new int[3];
    zeroDest[0], zeroDest[1], zeroDest[2] := 0, 0, 0;
    var _ := Sub56(dest, zeroDest);
    dest[0], dest[1], dest[2] := zeroDest[0], zeroDest[1], zeroDest[2];
  }

  method MulMagnitudes(x: int, y: int, dest: array<int>)
    requires 0 <= x <= W23 && 0 <= y <= W23 && dest.Length == 3
    modifies dest
    ensures IsLimbs(dest) && View(dest).Signed() == 2 * (x * y)
  {
    MulLimbs(x, y, dest);
    ProductBound(x, y, W23, W23);
    var _ := Asl56(dest);  // from integers to fractions
  }

  /** D := S1 * S2 for signed 24-bit fractions, that is, twice the integer product; it is always exact. */
  method Mul56(source1: int, source2: int, dest: array<int>)
    requires 0 <= source1 < W24 && 0 <= source2 < W24 && dest.Length == 3
    modifies dest
    ensures IsLimbs(dest)
    ensures View(dest).Signed() == 2 * (Signed24(source1) * Signed24(source2))
  {
    var negResult, x, y := false, source1, source2;
    if Bit23(source1) {
      negResult := !negResult;
      x := W24 - source1;
    }
    if Bit23(source2) {
      negResult := !negResult;
      y := W24 - source2;
    }
    SignedProduct(x, y, source1 >= W23, source2 >= W23);
    MulMagnitudes(x, y, dest);
    if negResult {
      Negate(dest);
    }
  }

  // ---------------------------------------------------------------- rounding

  /** r is a multiple of unit nearest to x, and of two equally near ones the even multiple. */
  ghost predicate IsRoundHalfEven(x: int, unit: int, r: int)
    requires unit > 0
  {
    && r % unit == 0
    && -unit <= 2 * (x - r) <= unit
    && (2 * (x - r) == unit || 2 * (x - r) == -unit ==> r / unit % 2 == 0)
  }

  datatype Scaling = NoScaling | ScaleDown | ScaleUp  // S0 and S1 clear; S0 set; only S1 set

  /** The weight of the last bit that rounding keeps. */
  ghost function RoundingUnit(scaling: Scaling): int {
    match scaling
    case NoScaling => W24
    case ScaleDown => W25
    case ScaleUp => W23
  }

  /** Down to a multiple of the unit, and from an odd multiple to the even one below it. */
  ghost function Truncated(y: int, unit: int): int
    requires unit > 0
  {
    if y % unit == 0 && y / unit % 2 == 1 then y - unit else y - y % unit
  }

  ghost function RoundHalfEven(x: int, unit: int): int
    requires unit > 0
  {
    Truncated(x + unit / 2, unit)
  }

  lemma Differences(y: int, r: int, q: int, t: int, m: int, unit: int)
    requires y == q * unit + t && r == m * unit
    ensures y - r == (q - m) * unit + t
  {
  }

  lemma RoundedIsMultiple(x: int, unit: int)
    requires unit > 0
    ensures RoundHalfEven(x, unit) % unit == 0
  {
    var y := x + unit / 2;
    var q := y / unit;
    if y % unit == 0 && q % 2 == 1 {
      Differences(y, unit, q, 0, 1, unit);
      DivModIs(y - unit, unit, q - 1, 0);
    } else {
      DivModIs(y - y % unit, unit, q, 0);
    }
  }

  /** The same for a known multiple r, the products of the unit being given as D and y - t. */
  lemma NearestMultiples(x: int, half: int, r: int, q: int, t: int, d: int, D: int)
    requires half > 0 && 0 <= t < 2 * half && r % (2 * half) == 0 && r / (2 * half) == q - d
    requires x + half - r == D + t && (x + half) / (2 * half) == q && (x + half) % (2 * half) == t
    requires d >= 2 ==> D >= 4 * half
    requires d == 1 ==> D == 2 * half
    requires d == 0 ==> D == 0
    requires d <= -1 ==> D <= -2 * half
    ensures IsRoundHalfEven(x, 2 * half, r) <==> r == RoundHalfEven(x, 2 * half)
  {
    assert RoundHalfEven(x, 2 * half) == if t == 0 && q % 2 == 1 then x + half - 2 * half else x + half - t;
    assert IsRoundHalfEven(x, 2 * half, r) <==>
      0 <= D + t <= 2 * half && (D + t == 0 || D + t == 2 * half ==> (q - d) % 2 == 0);
  }

  /** RoundHalfEven is the one half-even rounding. */
  lemma RoundHalfEvenUnique(x: int, half: int, r: int)
    requires half > 0
    ensures IsRoundHalfEven(x, 2 * half, r) <==> r == RoundHalfEven(x, 2 * half)
  {
    var unit, y := 2 * half, x + half;
    var q, t, m := y / unit, y % unit, r / unit;
    if r % unit == 0 {
      Differences(y, r, q, t, m, unit);
      Multiple(q - m, unit);
      NearestMultiples(x, half, r, q, t, q - m, (q - m) * unit);
    } else {
      RoundedIsMultiple(x, unit);
    }
  }

  lemma TruncatedInRange(y: int, unit: int, e: int)
    requires unit > 0 && 2 * (e * unit) == W55 && InRange(y)
    ensures InRange(Truncated(y, unit))
  {
    var q, t := y / unit, y % unit;
    var d := q + 2 * e;
    assert y + W55 == d * unit + t by {
      assert y == q * unit + t;
      assert d * unit == q * unit + 2 * (e * unit);
    }
    Multiple(d, unit);
  }

  /** A shift by a multiple of 2^56 moves the quotient by an even amount. */
  lemma SplitShifted(y: int, unit: int, e: int, k: int)
    requires unit > 0 && 2 * (e * unit) == W55
    ensures (y + k * W56) / unit == y / unit + 4 * (k * e) && (y + k * W56) % unit == y % unit
  {
    var q, t := y / unit, y % unit;
    var p := q + 4 * (k * e);
    assert y + k * W56 == p * unit + t by {
      assert y == q * unit + t;
      assert p * unit == q * unit + (4 * (k * e)) * unit;
      assert (4 * (k * e)) * unit == k * (4 * (e * unit));
    }
    DivModIs(y + k * W56, unit, p, t);
  }

  lemma EvenShift(q: int, n: int)
    ensures (q + 4 * n) % 2 == q % 2
  {
    DivModIs(q + 4 * n, 2, q / 2 + 2 * n, q % 2);
  }

  /** Rounding commutes with reduction modulo 2^56, because 2^56 is an even multiple of the unit. */
  lemma RoundWrapped(x: int, unit: int, e: int, y: int)
    requires unit > 0 && 2 * (e * unit) == W55
    requires y == Wrap(x + unit / 2)
    ensures Wrap(RoundHalfEven(x, unit)) == Truncated(y, unit)
  {
    var k := WrapCongruent(x + unit / 2);
    var z, f := y + k * W56, Truncated(y, unit);
    assert x + unit / 2 == z;
    SplitShifted(y, unit, e, k);
    EvenShift(y / unit, k * e);
    TruncatedInRange(y, unit, e);
    assert Truncated(z, unit) == f + k * W56;
    WrapIs(RoundHalfEven(x, unit), f, k);
  }

  /** The limbs with the bits below the unit cleared, and the unit bit too on a tie. */
  ghost function Kept(l: Limbs, scaling: Scaling): Limbs {
    match scaling
    case NoScaling => Limbs(l.hi, if l.lo == 0 then l.mid - l.mid % 2 else l.mid, 0)
    case ScaleDown => Limbs(l.hi, if l.lo == 0 && l.mid % 2 == 0 then l.mid - l.mid % 4 else l.mid - l.mid % 2, 0)
    case ScaleUp => Limbs(l.hi, l.mid, if l.lo % W23 == 0 then 0 else l.lo / W23 * W23)
  }

  /** Truncated, from the quotient and the rest. */
  lemma TruncatedIs(y: int, unit: int, q: int, t: int)
    requires unit > 0 && 0 <= t < unit && y == q * unit + t
    ensures Truncated(y, unit) == if t == 0 && q % 2 == 1 then y - unit else y - t
  {
    DivModIs(y, unit, q, t);
  }

  lemma KeptWhole(l: Limbs, top: int)
    requires l.Valid() && top == if l.hi < 128 then l.hi else l.hi - 256
    ensures Kept(l, NoScaling).Valid()
    ensures Kept(l, NoScaling).Signed() == Truncated(l.Signed(), W24)
  {
    TruncatedIs(l.Signed(), W24, top * W24 + l.mid, l.lo);
    assert (top * W24 + l.mid) % 2 == l.mid % 2;
  }

  lemma KeptDown(l: Limbs, top: int)
    requires l.Valid() && top == if l.hi < 128 then l.hi else l.hi - 256
    ensures Kept(l, ScaleDown).Valid()
    ensures Kept(l, ScaleDown).Signed() == Truncated(l.Signed(), W25)
  {
    var m, b := l.mid / 2, l.mid % 2;
    TruncatedIs(l.Signed(), W25, top * W23 + m, b * W24 + l.lo);
    assert (top * W23 + m) % 2 == m % 2;
    assert l.mid % 4 == 2 * (m % 2) + b;
  }

  lemma KeptUp(l: Limbs, top: int)
    requires l.Valid() && top == if l.hi < 128 then l.hi else l.hi - 256
    ensures Kept(l, ScaleUp).Valid()
    ensures Kept(l, ScaleUp).Signed() == Truncated(l.Signed(), W23)
  {
    var b, t := l.lo / W23, l.lo % W23;
    TruncatedIs(l.Signed(), W23, top * W25 + l.mid * 2 + b, t);
    assert (top * W25 + l.mid * 2 + b) % 2 == b;
  }

  lemma KeptIsTruncated(l: Limbs, scaling: Scaling)
    requires l.Valid()
    ensures Kept(l, scaling).Valid()
    ensures Kept(l, scaling).Signed() == Truncated(l.Signed(), RoundingUnit(scaling))
  {
    var top := if l.hi < 128 then l.hi else l.hi - 256;
    match scaling {
      case NoScaling => KeptWhole(l, top);
      case ScaleDown => KeptDown(l, top);
      case ScaleUp => KeptUp(l, top);
    }
  }

  /** Clears the bits below the rounding unit, and the unit bit too when they are all zero. */
  method Truncate(scaling: Scaling, dest: array<int>)
    requires IsLimbs(dest)
    modifies dest
    ensures View(dest) == Kept(old(View(dest)), scaling)
  {
    match scaling {
      case ScaleDown =>
        if dest[2] == 0 && dest[1] % 2 == 0 {
          dest[1] := dest[1] - dest[1] % 4;
        }
        dest[1] := dest[1] - dest[1] % 2;
        dest[2] := 0;
      case ScaleUp =>
        if dest[2] % W23 == 0 {
          dest[2] := 0;
        }
        dest[2] := dest[2] / W23 * W23;
      case NoScaling =>
        if dest[2] == 0 {
          dest[1] := dest[1] - dest[1] % 2;
        }
        dest[2] := 0;
    }
  }

  /** Convergent rounding: the result is the half-even rounding of the value, modulo 2^56. */
  method Rnd56(scaling: Scaling, dest: array<int>)
    requires IsLimbs(dest)
    modifies dest
    ensures IsLimbs(dest)
    ensures View(dest).Signed() == Wrap(RoundHalfEven(old(View(dest).Signed()), RoundingUnit(scaling)))
  {
    var rndConst := new int[3];
    rndConst[0], rndConst[1], rndConst[2] := 0, 0, 0;
    match scaling {
      case ScaleDown => rndConst[1] := 1;
      case ScaleUp => rndConst[2] := W22;
      case NoScaling => rndConst[2] := W23;
    }
    ghost var x, unit := View(dest).Signed(), RoundingUnit(scaling);
    assert View(rndConst).Signed() == unit / 2;
    var _ := Add56(rndConst, dest);
    var multiple := if scaling.ScaleDown? then 0x2000_0000 else if scaling.ScaleUp? then 0x8000_0000 else 0x4000_0000;
    RoundWrapped(x, unit, multiple, View(dest).Signed());
    KeptIsTruncated(View(dest), scaling);
    Truncate(scaling, dest);
  }
}
