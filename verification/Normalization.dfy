/**
 * Runs of the DSP56001 NORM instruction.  One NORM shifts the accumulator by one place, guided by the
 * flags E, U and Z that the previous result left, and counts the shift in an address register.
 */
module Normalization {
  import opened Arith
  import opened Accumulator
  import opened ConditionCodes

  const W16 := 0x1_0000

  /** The accumulator, the address register and the status bits that one NORM reads and writes. */
  datatype NormState = NormState(a: int, rn: int, sr: StatusBits)

  ghost function NormStep(st: NormState): NormState {
    var a, sr := st.a, st.sr;
    if !sr.e && sr.u && !sr.z then
      var a' := Wrap(2 * a);
      var v := !InRange(2 * a);
      NormState(a', (st.rn - 1) % W16, Described(sr, a').(v := v, c := a < 0, l := sr.l || v))
    else if sr.e then
      NormState(a / 2, (st.rn + 1) % W16, Described(sr, a / 2).(v := false, c := a % 2 == 1))
    else
      NormState(a, st.rn, Described(sr, a).(v := false, c := false))
  }

  ghost function NormRun(st: NormState, n: nat): NormState
    decreases n
  {
    if n == 0 then st else NormRun(NormStep(st), n - 1)
  }

  /** The exponent of the leading fraction bit, as placed by the scaling mode. */
  ghost function Exponent(sr: StatusBits): nat {
    if sr.s0 then 47 else if sr.s1 then 45 else 46
  }

  /** The weight of the leading fraction bit. */
  ghost function Weight(sr: StatusBits): int {
    if sr.s0 then W47 else if sr.s1 then W45 else W46
  }

  lemma WeightIs(sr: StatusBits)
    ensures Weight(sr) == Pow2(Exponent(sr))
  {
    assert Pow2(1) == 2 * Pow2(0) == 2;
    Pow2At24();
    Pow2At15();
    Pow2Add(24, 15);
    assert Pow2(6) == 64;
    Pow2Add(39, 6);
    Pow2Add(45, 1);
    Pow2Add(46, 1);
  }

  /** A scaling mode that is not the reserved one, and flags that describe the accumulator. */
  ghost predicate Agrees(st: NormState) {
    !(st.sr.s0 && st.sr.s1) && InRange(st.a) && 0 <= st.rn < W16 && st.sr == Described(st.sr, st.a)
  }

  /** E and U clear: the sign bit and the leading fraction bit differ and nothing is above them. */
  ghost predicate Normalized(a: int, sr: StatusBits) {
    !ExtensionInUse(a, sr.s0, sr.s1) && !Unnormalized(a, sr.s0, sr.s1)
  }

  /** A value with two equal leading bits at weight w, and one that fits the fraction. */
  ghost predicate Small(a: int, w: int) {
    -w <= a < w
  }

  ghost predicate Fits(a: int, w: int) {
    -2 * w <= a < 2 * w
  }

  lemma FitsRange(a: int, sr: StatusBits)
    ensures ExtensionInUse(a, sr.s0, sr.s1) <==> !Fits(a, Weight(sr))
  {
  }

  lemma UnnormalizedRange(a: int, sr: StatusBits)
    requires Fits(a, Weight(sr))
    ensures Unnormalized(a, sr.s0, sr.s1) <==> Small(a, Weight(sr))
  {
    var w := Weight(sr);
    var q := if a < -w then -2 else if a < 0 then -1 else if a < w then 0 else 1;
    LeadingPair(a, w, q, a - q * w, if q < 0 then -1 else 0, if q < 0 then q + 4 else q);
  }

  // ---------------------------------------------------------------- the numbers alone

  lemma NormalizedIs(a: int, sr: StatusBits)
    ensures Normalized(a, sr) <==> Fits(a, Weight(sr)) && !Small(a, Weight(sr))
  {
    FitsRange(a, sr);
    if Fits(a, Weight(sr)) {
      UnnormalizedRange(a, sr);
    }
  }

  /** How often a nonzero small value must be doubled, and a large one halved, to be normalized. */
  ghost function LeftShifts(a: int, w: int): nat
    requires a != 0
    decreases if a < 0 then 2 * w + a else 2 * w - a
  {
    if Small(a, w) then 1 + LeftShifts(2 * a, w) else 0
  }

  ghost function RightShifts(a: int, w: int): nat
    requires w > 0
    decreases if a < 0 then -a else a
  {
    if Fits(a, w) then 0 else 1 + RightShifts(a / 2, w)
  }

  lemma {:induction false} LeftShiftsBound(a: int, w: int, e: nat, j: nat)
    requires w == Pow2(e) && j <= e + 1 && (a >= Pow2(j) || a <= -Pow2(j)) && Fits(a, w)
    ensures LeftShifts(a, w) <= e + 1 - j
    decreases e + 1 - j
  {
    if j <= e && Small(a, w) {
      LeftShiftsBound(2 * a, w, e, j + 1);
    } else {
      assert Pow2(e + 1) == 2 * w;
    }
  }

  lemma {:induction false} RightShiftsBound(a: int, w: int, j: nat)
    requires w > 0 && -(2 * w * Pow2(j)) <= a < 2 * w * Pow2(j)
    ensures RightShifts(a, w) <= j
    decreases j
  {
    if !Fits(a, w) {
      assert Pow2(0) == 1;
      MulAssoc(2 * w, 2, Pow2(j - 1));
      assert 2 * w * 2 * Pow2(j - 1) == 2 * (2 * w * Pow2(j - 1));
      RightShiftsBound(a / 2, w, j - 1);
    }
  }

  /** One NORM on the accumulator value alone, and what it adds to the address register. */
  ghost function Shifted(a: int, w: int): int {
    if Small(a, w) then 2 * a else if Fits(a, w) then a else a / 2
  }

  ghost function Count(a: int, w: int): int {
    if Small(a, w) then -1 else if Fits(a, w) then 0 else 1
  }

  ghost function ShiftedRun(a: int, w: int, n: nat): int
    decreases n
  {
    if n == 0 then a else ShiftedRun(Shifted(a, w), w, n - 1)
  }

  ghost function CountRun(a: int, w: int, n: nat): int
    decreases n
  {
    if n == 0 then 0 else Count(a, w) + CountRun(Shifted(a, w), w, n - 1)
  }

  lemma DoubledFirst(a: int, k: nat)
    requires k > 0
    ensures (2 * a) * Pow2(k - 1) == a * Pow2(k)
  {
    MulAssoc(a, 2, Pow2(k - 1));
  }

  /** Small values are doubled exactly until they are normalized, and then left alone. */
  lemma {:induction false} LeftRun(a: int, w: int, n: nat)
    requires a != 0 && Fits(a, w)
    ensures var k := Min(n, LeftShifts(a, w)); ShiftedRun(a, w, n) == a * Pow2(k) && CountRun(a, w, n) == 0 - k
    ensures var r := ShiftedRun(a, w, n); Fits(r, w) && (Small(r, w) <==> n < LeftShifts(a, w))
    decreases n
  {
    if n == 0 {
      assert Pow2(0) == 1;
    } else {
      LeftRun(Shifted(a, w), w, n - 1);
      if Small(a, w) {
        DoubledFirst(a, Min(n, LeftShifts(a, w)));
      }
    }
  }

  lemma HalvedFirst(a: int, p: int)
    requires p > 0
    ensures a / 2 / p == a / (2 * p)
  {
    var h, b := a / 2, a % 2;
    var q, t := h / p, h % p;
    assert a == q * (2 * p) + (2 * t + b) by {
      assert h == q * p + t;
      assert q * (2 * p) == 2 * (q * p);
    }
    DivModIs(a, 2 * p, q, 2 * t + b);
  }

  /** Large values are halved, rounding down, until they are normalized, and then left alone. */
  lemma {:induction false} RightRun(a: int, w: int, n: nat)
    requires w > 0 && !Small(a, w)
    ensures var k := Min(n, RightShifts(a, w)); ShiftedRun(a, w, n) == a / Pow2(k) && CountRun(a, w, n) == k
    ensures var r := ShiftedRun(a, w, n); !Small(r, w) && (!Fits(r, w) <==> n < RightShifts(a, w))
    decreases n
  {
    if n == 0 {
      assert Pow2(0) == 1;
    } else {
      RightRun(Shifted(a, w), w, n - 1);
      if !Fits(a, w) {
        HalvedFirst(a, Pow2(Min(n, RightShifts(a, w)) - 1));
      }
    }
  }

  // ---------------------------------------------------------------- with the flags

  /** With flags that agree, NORM does the numeric step, and the flags agree again; nothing overflows. */
  lemma AgreeingStep(st: NormState)
    requires Agrees(st) && st.a != 0
    ensures var r, w := NormStep(st), Weight(st.sr);
            && r.a == Shifted(st.a, w) && r.rn == (st.rn + Count(st.a, w)) % W16
            && Agrees(r) && Weight(r.sr) == w && !r.sr.v && r.sr.l == st.sr.l && r.a != 0
  {
    FitsRange(st.a, st.sr);
    if Fits(st.a, Weight(st.sr)) {
      UnnormalizedRange(st.a, st.sr);
    }
  }

  lemma {:induction false} AgreeingRun(st: NormState, n: nat)
    requires Agrees(st) && st.a != 0
    ensures var r, w := NormRun(st, n), Weight(st.sr);
            && r.a == ShiftedRun(st.a, w, n) && r.rn == (st.rn + CountRun(st.a, w, n)) % W16
            && Agrees(r) && r.sr.s0 == st.sr.s0 && r.sr.s1 == st.sr.s1 && r.sr.l == st.sr.l && (n > 0 ==> !r.sr.v)
    decreases n
  {
    if n > 0 {
      var w := Weight(st.sr);
      AgreeingStep(st);
      AgreeingRun(NormStep(st), n - 1);
      AddMod(st.rn + Count(st.a, w), CountRun(Shifted(st.a, w), w, n - 1), W16);
    }
  }

  lemma {:induction false} NormRunOneMore(st: NormState, n: nat)
    ensures NormRun(st, n + 1) == NormStep(NormRun(st, n))
    decreases n
  {
    if n == 0 {
      assert NormRun(st, 1) == NormRun(NormStep(st), 0);
    } else {
      NormRunOneMore(NormStep(st), n - 1);
    }
  }

  /** A state n steps later: exact doublings, at most a number of them, and normalized from exactly then on. */
  ghost predicate Doubled(st: NormState, n: nat, r: NormState)
    requires st.a != 0
  {
    var shifts := LeftShifts(st.a, Weight(st.sr));
    && shifts <= Exponent(st.sr) + 1
    && r.a == st.a * Pow2(Min(n, shifts)) && r.rn == (st.rn - Min(n, shifts)) % W16
    && (Normalized(r.a, st.sr) <==> n >= shifts)
  }

  /** The same with halvings, rounding down. */
  ghost predicate Halved(st: NormState, n: nat, r: NormState) {
    var shifts := RightShifts(st.a, Weight(st.sr));
    && shifts <= 54 - Exponent(st.sr)
    && r.a == st.a / Pow2(Min(n, shifts)) && r.rn == (st.rn + Min(n, shifts)) % W16
    && (Normalized(r.a, st.sr) <==> n >= shifts)
  }

  /** A value that fits the fraction. */
  lemma RepeatedNormDoubles(st: NormState, n: nat)
    requires Agrees(st) && st.a != 0 && !ExtensionInUse(st.a, st.sr.s0, st.sr.s1)
    ensures Doubled(st, n, NormRun(st, n))
  {
    var w := Weight(st.sr);
    AgreeingRun(st, n);
    FitsRange(st.a, st.sr);
    LeftRun(st.a, w, n);
    WeightIs(st.sr);
    assert Pow2(0) == 1;
    LeftShiftsBound(st.a, w, Exponent(st.sr), 0);
    NormalizedIs(NormRun(st, n).a, st.sr);
  }

  lemma HalvingsInRange(a: int, sr: StatusBits)
    requires InRange(a)
    ensures Weight(sr) > 0 && RightShifts(a, Weight(sr)) <= 54 - Exponent(sr)
  {
    assert Pow2(7) == 128 && Pow2(8) == 256 && Pow2(9) == 512;
    RightShiftsBound(a, Weight(sr), 54 - Exponent(sr));
  }

  /** A value that does not fit. */
  lemma LargeNormalized(st: NormState, n: nat)
    requires Agrees(st) && st.a != 0 && !Fits(st.a, Weight(st.sr))
    ensures Weight(st.sr) > 0
    ensures Normalized(NormRun(st, n).a, st.sr) <==> n >= RightShifts(st.a, Weight(st.sr))
  {
    AgreeingRun(st, n);
    RightRun(st.a, Weight(st.sr), n);
    NormalizedIs(NormRun(st, n).a, st.sr);
  }

  lemma LargeHalved(st: NormState, n: nat)
    requires Agrees(st) && st.a != 0 && !Fits(st.a, Weight(st.sr))
    ensures Weight(st.sr) > 0
    ensures var r, k := NormRun(st, n), Min(n, RightShifts(st.a, Weight(st.sr)));
            r.a == st.a / Pow2(k) && r.rn == (st.rn + k) % W16
  {
    AgreeingRun(st, n);
    RightRun(st.a, Weight(st.sr), n);
  }

  lemma RepeatedNormHalves(st: NormState, n: nat)
    requires Agrees(st) && st.a != 0 && ExtensionInUse(st.a, st.sr.s0, st.sr.s1)
    ensures Halved(st, n, NormRun(st, n))
  {
    FitsRange(st.a, st.sr);
    HalvingsInRange(st.a, st.sr);
    LargeHalved(st, n);
    LargeNormalized(st, n);
  }

  /** The flags agree with the accumulator, the value has been doubled or halved, and V has not been set. */
  ghost predicate Normalizing(st: NormState, n: nat, r: NormState)
    requires st.a != 0
  {
    && Agrees(r) && r.sr.s0 == st.sr.s0 && r.sr.s1 == st.sr.s1 && r.sr.l == st.sr.l && (n > 0 ==> !r.sr.v)
    && if ExtensionInUse(st.a, st.sr.s0, st.sr.s1) then Halved(st, n, r) else Doubled(st, n, r)
  }

  /**
   * Repeated NORM normalizes any nonzero accumulator whose flags agree with it, in each scaling mode.  A value that
   * fits the fraction is doubled exactly, at most 47 times without scaling, 48 or 46 times with it, while Rn falls
   * modulo 2^16, so that a times 2^Rn is kept; a value that does not fit is halved, rounding down, at most 8, 7 or 9
   * times, while Rn rises.  From then on E and U are clear and nothing changes; V is never set.
   */
  lemma RepeatedNormNormalizes(st: NormState, n: nat)
    requires Agrees(st) && st.a != 0
    ensures Normalizing(st, n, NormRun(st, n))
  {
    AgreeingRun(st, n);
    if !ExtensionInUse(st.a, st.sr.s0, st.sr.s1) {
      RepeatedNormDoubles(st, n);
    } else {
      RepeatedNormHalves(st, n);
    }
  }

  /** A zero accumulator stays, and so does Rn. */
  lemma {:induction false} RepeatedNormOfZero(st: NormState, n: nat)
    requires Agrees(st) && st.a == 0
    ensures var r := NormRun(st, n); r.a == 0 && r.rn == st.rn && Agrees(r) && r.sr.l == st.sr.l
    decreases n
  {
    if n > 0 {
      RepeatedNormOfZero(NormStep(st), n - 1);
    }
  }

  lemma StepAgrees(st: NormState)
    requires !(st.sr.s0 && st.sr.s1) && InRange(st.a) && 0 <= st.rn < W16
    ensures Agrees(NormStep(st))
  {
    var _ := WrapCongruent(2 * st.a);
  }

  /** From any flags: after one NORM they agree with what it has left, and the rest of a run normalizes that. */
  lemma NormalizesAfterOne(st: NormState, n: nat)
    requires !(st.sr.s0 && st.sr.s1) && InRange(st.a) && 0 <= st.rn < W16 && NormStep(st).a != 0
    ensures Normalizing(NormStep(st), n, NormRun(st, n + 1))
  {
    StepAgrees(st);
    RepeatedNormNormalizes(NormStep(st), n);
  }
}
