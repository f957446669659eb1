/** The condition codes of the DSP56001 status register and what they say about an accumulator (src/dsp_cpu.c). */
module ConditionCodes {
  import opened Arith
  import opened Accumulator

  const W21 := 0x20_0000
  const W45 := 0x2000_0000_0000
  const W46 := 0x4000_0000_0000
  const W47 := 0x8000_0000_0000

  datatype StatusBits = StatusBits(c: bool, v: bool, z: bool, n: bool, u: bool, e: bool, l: bool, s0: bool, s1: bool)

  /** E: the bits above the fraction, as placed by the scaling mode, are not all equal. */
  ghost function ExtensionInUse(a: int, s0: bool, s1: bool): bool {
    var half := if s0 then W48 else if s1 then W46 else W47;
    !(-half <= a < half)
  }

  /** U: the two leading fraction bits are equal. */
  ghost function Unnormalized(a: int, s0: bool, s1: bool): bool {
    var weight := if s0 then W47 else if s1 then W45 else W46;
    a / weight % 4 == 0 || a / weight % 4 == 3
  }

  /** The condition codes that describe an accumulator; E and U are left alone in the reserved scaling mode. */
  ghost function Described(sr: StatusBits, a: int): StatusBits {
    var sr' := sr.(n := a < 0, z := a == 0);
    if sr.s0 && sr.s1 then sr'
    else sr'.(e := ExtensionInUse(a, sr.s0, sr.s1), u := Unnormalized(a, sr.s0, sr.s1))
  }

  /** The bits that dsp_ccr_extension looks at are neither all clear nor all set. */
  predicate ExtensionBits(reg0: int, reg1: int, s0: bool, s1: bool) {
    var value := if s0 then reg0 else if s1 then reg0 * 4 + reg1 / W22 % 4 else reg0 * 2 + reg1 / W23 % 2;
    var all := if s0 then 255 else if s1 then 1023 else 511;
    !(value == 0 || value == all)
  }

  lemma ExtensionBitsMean(l: Limbs, s0: bool, s1: bool)
    requires l.Valid()
    ensures ExtensionBits(l.hi, l.mid, s0, s1) == ExtensionInUse(l.Signed(), s0, s1)
  {
  }

  /** The two bits that dsp_ccr_unnormalized looks at are equal. */
  predicate LeadingBitsEqual(reg0: int, reg1: int, s0: bool, s1: bool) {
    var value := if s0 then reg0 % 2 * 2 + reg1 / W23 else if s1 then reg1 / W21 % 4 else reg1 / W22 % 4;
    value == 0 || value == 3
  }

  lemma LeadingPair(a: int, weight: int, q: int, t: int, q': int, t': int)
    requires weight > 0 && 0 <= t < weight && a == q * weight + t && 0 <= t' < 4 && q == q' * 4 + t'
    ensures a / weight % 4 == t'
  {
    DivModIs(a, weight, q, t);
    DivModIs(q, 4, q', t');
  }

  lemma EqualPair(a: int, w: int)
    requires w > 0 && -2 * w <= a < 2 * w
    ensures a / w % 4 == 0 || a / w % 4 == 3 <==> -w <= a < w
  {
    var q := if a < -w then -2 else if a < 0 then -1 else if a < w then 0 else 1;
    LeadingPair(a, w, q, a - q * w, if q < 0 then -1 else 0, if q < 0 then q + 4 else q);
  }

  /**
   * What E and U say: the value does not fit the 48-bit fraction, or fits and could be doubled; with scaling down the
   * fraction has one bit more, with scaling up one less.
   */
  lemma FlagsMean(sr: StatusBits, a: int, half: int)
    requires !(sr.s0 && sr.s1)
    requires half == if sr.s0 then 0x1_0000_0000_0000 else if sr.s1 then 0x4000_0000_0000 else 0x8000_0000_0000
    ensures var r := Described(sr, a);
      && (r.e <==> a < -half || a >= half) && (!r.e ==> (r.u <==> -half <= 2 * a < half))
      && (r.n <==> a < 0) && (r.z <==> a == 0)
      && r == sr.(e := r.e, u := r.u, n := r.n, z := r.z)
  {
    if -half <= a < half {
      EqualPair(a, if sr.s0 then W47 else if sr.s1 then W45 else W46);
    }
  }

  lemma LeadingDown(l: Limbs, top: int)
    requires l.Valid() && top == if l.hi < 128 then l.hi else l.hi - 256
    ensures LeadingBitsEqual(l.hi, l.mid, true, false) == Unnormalized(l.Signed(), true, false)
  {
    LeadingPair(l.Signed(), W47, top * 2 + l.mid / W23, l.mid % W23 * W24 + l.lo, top / 2, l.hi % 2 * 2 + l.mid / W23);
  }

  lemma LeadingUp(l: Limbs, top: int)
    requires l.Valid() && top == if l.hi < 128 then l.hi else l.hi - 256
    ensures LeadingBitsEqual(l.hi, l.mid, false, true) == Unnormalized(l.Signed(), false, true)
  {
    LeadingPair(l.Signed(), W45, top * 8 + l.mid / W21, l.mid % W21 * W24 + l.lo,
                top * 2 + l.mid / W23, l.mid / W21 % 4);
  }

  lemma LeadingBitsMean(l: Limbs, s0: bool, s1: bool)
    requires l.Valid()
    ensures LeadingBitsEqual(l.hi, l.mid, s0, s1) == Unnormalized(l.Signed(), s0, s1)
  {
    var top := if l.hi < 128 then l.hi else l.hi - 256;
    if s0 {
      LeadingDown(l, top);
    } else if s1 {
      LeadingUp(l, top);
    } else {
      LeadingPair(l.Signed(), W46, top * 4 + l.mid / W22, l.mid % W22 * W24 + l.lo, top, l.mid / W22);
    }
  }

  lemma SignAndZero(l: Limbs)
    requires l.Valid()
    ensures l.Signed() < 0 <==> l.hi >= 128
    ensures l.Signed() == 0 <==> l == Limbs(0, 0, 0)
  {
  }
}
