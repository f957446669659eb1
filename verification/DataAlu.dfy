/**
 * The data ALU instructions that programs iterate: DIV, NORM and MAC (src/dsp_cpu.c), and DIV and NORM repeated.
 *
 * The status register is kept as its condition bits and scaling bits; the other registers are the
 * emulator's array, indexed by its register numbers.
 */
module DataAlu {
  import Arith
  import opened Accumulator
  import opened ConditionCodes
  import opened Division
  import opened Normalization

  const REG_X0 := 0x04
  const REG_X1 := 0x05
  const REG_Y0 := 0x06
  const REG_Y1 := 0x07
  const REG_A0 := 0x08
  const REG_A2 := 0x0a
  const REG_A1 := 0x0c
  const REG_R0 := 0x10

  /** A product of two 24-bit numbers is far inside the 56-bit range. */
  lemma ProductInRange(x: int, y: int)
    requires -W23 <= x < W23 && -W23 <= y < W23
    ensures InRange(-2 * (x * y)) && InRange(2 * (x * y))
  {
    SignedProduct(if x < 0 then -x else x, if y < 0 then -y else y, x < 0, y < 0);
  }

  lemma WrapTwice(x: int, y: int)
    ensures Wrap(Wrap(x) + y) == Wrap(x + y)
  {
    var k := WrapCongruent(x);
    var k' := WrapCongruent(x + y);
    WrapIs(Wrap(x) + y, Wrap(x + y), k' - k);
  }

  /** An even value, wrapped, has an even low limb. */
  lemma LowestBitClear(l: Limbs, h: int)
    requires l.Valid() && l.Signed() == Wrap(2 * h)
    ensures l.lo % 2 == 0
  {
    var k := WrapCongruent(2 * h);
    assert l.lo == 2 * (h - k * W55 - (if l.hi < 128 then l.hi else l.hi - 256) * (W48 / 2) - l.mid * W23);
  }

  class Alu {
    const registers: array<int>
    var sr: StatusBits

    /** Accumulator A (k = 0) or B (k = 1). */
    ghost function Acc(k: nat): Limbs
      requires registers.Length == 64 && k < 2
      reads this, registers
    {
      Limbs(registers[REG_A2 + k], registers[REG_A1 + k], registers[REG_A0 + k])
    }

    /** The registers A2, A1 and A0 of the one, B2, B1 and B0 of the other. */
    lemma AccumulatorsAre()
      requires registers.Length == 64
      ensures Acc(0) == Limbs(registers[0x0a], registers[0x0c], registers[0x08])
      ensures Acc(1) == Limbs(registers[0x0b], registers[0x0d], registers[0x09])
    {
    }

    ghost predicate Valid()
      reads this, registers
    {
      && registers.Length == 64
      && Acc(0).Valid() && Acc(1).Valid()
      && (forall i :: REG_X0 <= i <= REG_Y1 ==> 0 <= registers[i] < W24)
      && (forall i :: REG_R0 <= i < REG_R0 + 8 ==> 0 <= registers[i] < W16)
    }

    ghost predicate InAcc(i: nat, k: nat) {
      i == REG_A0 + k || i == REG_A1 + k || i == REG_A2 + k
    }

    constructor ()
      ensures Valid() && fresh(registers)
    {
      registers := new int[64](_ => 0);
      sr := StatusBits(false, false, false, false, false, false, false, false, false);
    }

    method LoadAcc(k: nat) returns (dest: array<int>)
      requires Valid() && k < 2
      ensures fresh(dest) && IsLimbs(dest) && View(dest) == Acc(k)
    {
      dest := new int[3];
      dest[0] := registers[REG_A2 + k];
      dest[1] := registers[REG_A1 + k];
      dest[2] := registers[REG_A0 + k];
    }

    method StoreAcc(k: nat, dest: array<int>)
      requires Valid() && k < 2 && dest != registers && IsLimbs(dest)
      modifies registers
      ensures Valid() && Acc(k) == View(dest)
      ensures forall i :: 0 <= i < 64 && !InAcc(i, k) ==> registers[i] == old(registers[i])
    {
      registers[REG_A2 + k] := dest[0];
      registers[REG_A1 + k] := dest[1];
      registers[REG_A0 + k] := dest[2];
    }

    method CcrExtension(dest: array<int>)
      requires IsLimbs(dest)
      modifies `sr
      ensures sr == if old(sr.s0 && sr.s1) then old(sr)
                    else old(sr).(e := ExtensionInUse(View(dest).Signed(), sr.s0, sr.s1))
    {
      ExtensionBitsMean(View(dest), sr.s0, sr.s1);
      if !(sr.s0 && sr.s1) {
        sr := sr.(e := ExtensionBits(dest[0], dest[1], sr.s0, sr.s1));
      }
    }

    method CcrUnnormalized(dest: array<int>)
      requires IsLimbs(dest)
      modifies `sr
      ensures sr == if old(sr.s0 && sr.s1) then old(sr)
                    else old(sr).(u := Unnormalized(View(dest).Signed(), sr.s0, sr.s1))
    {
      LeadingBitsMean(View(dest), sr.s0, sr.s1);
      if !(sr.s0 && sr.s1) {
        sr := sr.(u := LeadingBitsEqual(dest[0], dest[1], sr.s0, sr.s1));
      }
    }

    method CcrNegativeAndZero(dest: array<int>)
      requires IsLimbs(dest)
      modifies `sr
      ensures sr == old(sr).(n := View(dest).Signed() < 0, z := View(dest).Signed() == 0)
    {
      SignAndZero(View(dest));
      sr := sr.(n := Bit7(dest[0]));
      sr := sr.(z := dest[0] == 0 && dest[1] == 0 && dest[2] == 0);
    }

    /** The four condition code updates that follow an accumulator result. */
    method CcrUpdate(dest: array<int>)
      requires IsLimbs(dest)
      modifies `sr
      ensures sr == Described(old(sr), View(dest).Signed())
    {
      CcrExtension(dest);
      CcrUnnormalized(dest);
      CcrNegativeAndZero(dest);
    }

    /** Writes a result back to its accumulator and sets E, U, N and Z from it. */
    method StoreResult(k: nat, dest: array<int>)
      requires Valid() && k < 2 && dest != registers && IsLimbs(dest)
      modifies `sr, registers
      ensures Valid() && Acc(k) == View(dest)
      ensures sr == Described(old(sr), View(dest).Signed())
      ensures forall i :: 0 <= i < 64 && !InAcc(i, k) ==> registers[i] == old(registers[i])
    {
      StoreAcc(k, dest);
      CcrUpdate(dest);
    }

    // -------------------------------------------------------------- instructions

    static function DivSource(curInst: int): nat {
      match curInst / 16 % 4
      case 0 => REG_X0
      case 1 => REG_Y0
      case 2 => REG_X1
      case _ => REG_Y1
    }

    /** The divisor: X0, Y0, X1 or Y1 by bits 5 and 4 of the instruction. */
    ghost function Divisor(curInst: int): (s: int)
      requires Valid()
      reads this, registers
      ensures var code := curInst / 16 % 4;
              && (code == 0 ==> s == Signed24(registers[REG_X0])) && (code == 1 ==> s == Signed24(registers[REG_Y0]))
              && (code == 2 ==> s == Signed24(registers[REG_X1])) && (code == 3 ==> s == Signed24(registers[REG_Y1]))
              && -W23 <= s < W23
    {
      Signed24(registers[DivSource(curInst)])
    }

    /** A 24-bit operand placed in bits 47..24 and sign extended. */
    static method Extend(operand: int) returns (source: array<int>)
      requires 0 <= operand < W24
      ensures fresh(source) && IsLimbs(source) && View(source).Signed() == Signed24(operand) * W24
    {
      source := new int[3];
      source[0] := 0;
      source[1] := operand;
      if Bit23(operand) {
        source[0] := 0xff;
      }
      source[2] := 0;
    }

    /** dest[2] |= carry, where bit 0 is clear */
    static method OrCarry(carry: bool, dest: array<int>)
      requires IsLimbs(dest) && dest[2] % 2 == 0
      modifies dest
      ensures IsLimbs(dest) && View(dest).Signed() == old(View(dest).Signed()) + if carry then 1 else 0
    {
      if carry && dest[2] % 2 == 0 {
        dest[2] := dest[2] + 1;
      }
    }

    /** Shift left, then add the divisor if the signs differ and subtract it if they agree. */
    static method ShiftAndCombine(source: array<int>, dest: array<int>) returns (newSr: NewSr)
      requires IsLimbs(source) && IsLimbs(dest) && source != dest
      modifies dest
      ensures IsLimbs(dest)
      ensures var a, m := old(View(dest).Signed()), View(source).Signed();
              && View(dest).Signed() == Wrap(if (a < 0) != (m < 0) then 2 * a + m else 2 * a - m)
              && newSr.l == newSr.v == !InRange(2 * a)
    {
      ghost var a, m := View(dest).Signed(), View(source).Signed();
      SignAndZero(View(dest));
      SignAndZero(View(source));
      if Bit7(dest[0]) != Bit7(source[0]) {
        newSr := Asl56(dest);
        var _ := Add56(source, dest);
        WrapTwice(2 * a, m);
      } else {
        newSr := Asl56(dest);
        var _ := Sub56(source, dest);
        WrapTwice(2 * a, -m);
      }
    }

    static method DivLimbs(divisor: int, carry: bool, dest: array<int>) returns (newSr: NewSr)
      requires 0 <= divisor < W24 && IsLimbs(dest)
      modifies dest
      ensures IsLimbs(dest)
      ensures View(dest).Signed() == DivStep(old(View(dest).Signed()), Signed24(divisor), carry)
      ensures newSr.l == newSr.v == !InRange(2 * old(View(dest).Signed()))
    {
      var source := Extend(divisor);
      ghost var a, s := View(dest).Signed(), Signed24(divisor);
      newSr := ShiftAndCombine(source, dest);
      LowestBitClear(View(dest), if (a < 0) != (s < 0) then a + s * W23 else a - s * W23);
      OrCarry(carry, dest);
    }

    /** DIV S,D: one step of Division.DivStep; the carry becomes the complement of the result's sign. */
    method Div(curInst: int)
      requires Valid()
      modifies `sr, registers
      ensures Valid()
      ensures var k := curInst / 8 % 2; var s := old(Divisor(curInst));
              var a := old(Acc(k).Signed()); var v := !InRange(2 * a);
              && Acc(k).Signed() == DivStep(a, s, old(sr.c))
              && sr == old(sr).(c := Acc(k).Signed() >= 0, v := v, l := old(sr.l) || v)
              && forall i :: 0 <= i < 64 && !InAcc(i, k) ==> registers[i] == old(registers[i])
    {
      var k := curInst / 8 % 2;
      var dest := LoadAcc(k);
      var newSr := DivLimbs(registers[DivSource(curInst)], sr.c, dest);
      StoreAcc(k, dest);
      SignAndZero(View(dest));
      sr := sr.(c := !Bit7(dest[0]), v := newSr.v, l := sr.l || newSr.l);
    }

    static method NormLimbs(sr: StatusBits, rn: int, dest: array<int>) returns (newSr: NewSr, rn': int)
      requires IsLimbs(dest) && 0 <= rn < W16
      modifies dest
      ensures IsLimbs(dest)
      ensures var a := View(dest).Signed();
              NormState(a, rn', Described(sr, a).(v := newSr.v, c := newSr.c, l := sr.l || newSr.l))
                == NormStep(NormState(old(View(dest).Signed()), rn, sr))
      ensures 0 <= rn' < W16
    {
      var curE := sr.e;
      var curEuz := !curE && sr.u && !sr.z;
      newSr, rn' := NewSr(false, false, false), rn;
      if curEuz {
        newSr := Asl56(dest);
        rn' := (rn - 1) % W16;
      } else if curE {
        newSr := Asr56(dest);
        rn' := (rn + 1) % W16;
      }
    }

    /** Writes a shifted value back, with the flags that the shift left. */
    method StoreShifted(k: nat, dest: array<int>, newSr: NewSr)
      requires Valid() && k < 2 && dest != registers && IsLimbs(dest)
      modifies `sr, registers
      ensures Valid() && Acc(k) == View(dest)
      ensures sr == Described(old(sr), View(dest).Signed()).(v := newSr.v, c := newSr.c, l := old(sr.l) || newSr.l)
      ensures forall i :: 0 <= i < 64 && !InAcc(i, k) ==> registers[i] == old(registers[i])
    {
      StoreResult(k, dest);
      sr := sr.(v := newSr.v, c := newSr.c, l := sr.l || newSr.l);
    }

    method NormRegisters(k: nat, rreg: nat)
      requires Valid() && k < 2 && REG_R0 <= rreg < REG_R0 + 8
      modifies `sr, registers
      ensures Valid()
      ensures NormState(Acc(k).Signed(), registers[rreg], sr)
              == NormStep(old(NormState(Acc(k).Signed(), registers[rreg], sr)))
      ensures forall i :: 0 <= i < 64 && !InAcc(i, k) && i != rreg ==> registers[i] == old(registers[i])
    {
      var dest := LoadAcc(k);
      var newSr, rn := NormLimbs(sr, registers[rreg], dest);
      registers[rreg] := rn;
      StoreShifted(k, dest, newSr);
    }

    /** NORM Rn,D: one step of Normalization.NormStep on the accumulator, Rn and the status bits. */
    method Norm(curInst: int)
      requires Valid()
      modifies `sr, registers
      ensures Valid()
      ensures var k := curInst / 8 % 2; var r := REG_R0 + curInst / 256 % 8;
              && NormState(Acc(k).Signed(), registers[r], sr)
                 == NormStep(old(NormState(Acc(k).Signed(), registers[r], sr)))
              && forall i :: 0 <= i < 64 && !InAcc(i, k) && i != r ==> registers[i] == old(registers[i])
      ensures var a := old(Acc(curInst / 8 % 2).Signed());
              sr.c == old(if sr.e then a % 2 == 1 else sr.u && !sr.z && a < 0)
    {
      NormRegisters(curInst / 8 % 2, REG_R0 + curInst / 256 % 8);
    }

    /** What repeated DIV sees: the dividend, the divisor, and accumulator and carry so far. */
    ghost predicate Dividing(curInst: int, d: int, s: int, i: nat)
      requires Valid()
      reads this, registers
    {
      && Divisor(curInst) == s
      && DivState(Acc(curInst / 8 % 2).Signed(), sr.c) == DivRun(d, s, i)
    }

    method DivNext(curInst: int, ghost d: int, ghost s: int, ghost i: nat)
      requires Valid() && Dividing(curInst, d, s, i)
      modifies `sr, registers
      ensures Valid() && Dividing(curInst, d, s, i + 1)
      ensures forall j :: 0 <= j < 64 && !InAcc(j, curInst / 8 % 2) ==> registers[j] == old(registers[j])
    {
      Div(curInst);
    }

    /** n DIV instructions from a clear carry, as REP performs them, divide. */
    method RepeatDiv(curInst: int, n: nat)
      requires Valid() && !sr.c && 1 <= n <= 24
      requires var m := Arith.Abs(Divisor(curInst)) * W24;
               m != 0 && -m <= Acc(curInst / 8 % 2).Signed() < m
      modifies `sr, registers
      ensures Valid()
      ensures var k, m := curInst / 8 % 2, old(Arith.Abs(Divisor(curInst)) * W24);
              && IsDivision(old(Acc(k).Signed()), m, n, DivState(Acc(k).Signed(), sr.c))
              && forall j :: 0 <= j < 64 && !InAcc(j, k) ==> registers[j] == old(registers[j])
    {
      ghost var d, s := Acc(curInst / 8 % 2).Signed(), Divisor(curInst);
      for i := 0 to n
        invariant Valid() && Dividing(curInst, d, s, i)
        invariant forall j :: 0 <= j < 64 && !InAcc(j, curInst / 8 % 2) ==> registers[j] == old(registers[j])
      {
        DivNext(curInst, d, s, i);
      }
      RepeatedDivDivides(d, s, n);
    }

    /** What NORM sees. */
    ghost function NormView(curInst: int): NormState
      requires Valid()
      reads this, registers
    {
      NormState(Acc(curInst / 8 % 2).Signed(), registers[REG_R0 + curInst / 256 % 8], sr)
    }

    /** n NORM instructions, as REP performs them, normalize. */
    method RepeatNorm(curInst: int, n: nat)
      requires Valid() && Agrees(NormView(curInst)) && Acc(curInst / 8 % 2).Signed() != 0
      modifies `sr, registers
      ensures Valid() && Normalizing(old(NormView(curInst)), n, NormView(curInst))
      ensures forall j :: 0 <= j < 64 && !InAcc(j, curInst / 8 % 2) && j != REG_R0 + curInst / 256 % 8 ==>
                registers[j] == old(registers[j])
    {
      ghost var st := NormView(curInst);
      for i := 0 to n
        invariant Valid() && NormView(curInst) == NormRun(st, i)
        invariant forall j :: 0 <= j < 64 && !InAcc(j, curInst / 8 % 2) && j != REG_R0 + curInst / 256 % 8 ==>
          registers[j] == old(registers[j])
      {
        NormRunOneMore(st, i);
        Norm(curInst);
      }
      RepeatedNormNormalizes(st, n);
    }

    /** The operand pairs of the multiply instructions. */
    static function MpyRegisters(curInst: int): (nat, nat) {
      match curInst / 16 % 8
      case 0 => (REG_X0, REG_X0)
      case 1 => (REG_Y0, REG_Y0)
      case 2 => (REG_X1, REG_X0)
      case 3 => (REG_Y1, REG_Y0)
      case 4 => (REG_X0, REG_Y1)
      case 5 => (REG_Y0, REG_X0)
      case 6 => (REG_X1, REG_Y0)
      case _ => (REG_Y1, REG_X1)
    }

    /**
     * The exact signed product that MAC adds: twice the integer product of the two registers that bits 6 to 4 name,
     * negated if bit 2 is set.
     */
    ghost function Product(curInst: int): (product: int)
      requires Valid()
      reads this, registers
      ensures var x0, x1 := Signed24(registers[REG_X0]), Signed24(registers[REG_X1]);
              var y0, y1 := Signed24(registers[REG_Y0]), Signed24(registers[REG_Y1]);
              var code, p := curInst / 16 % 8, if curInst / 4 % 2 == 1 then -product else product;
              && (code == 0 ==> p == 2 * (x0 * x0)) && (code == 1 ==> p == 2 * (y0 * y0))
              && (code == 2 ==> p == 2 * (x1 * x0)) && (code == 3 ==> p == 2 * (y1 * y0))
              && (code == 4 ==> p == 2 * (x0 * y1)) && (code == 5 ==> p == 2 * (y0 * x0))
              && (code == 6 ==> p == 2 * (x1 * y0)) && (code == 7 ==> p == 2 * (y1 * x1))
    {
      var (r1, r2) := MpyRegisters(curInst);
      var p := 2 * (Signed24(registers[r1]) * Signed24(registers[r2]));
      if curInst / 4 % 2 == 1 then -p else p
    }

    method LoadProduct(curInst: int) returns (source: array<int>)
      requires Valid()
      ensures fresh(source) && IsLimbs(source) && View(source).Signed() == Product(curInst)
    {
      var (r1, r2) := MpyRegisters(curInst);
      source := new int[3];
      Mul56(registers[r1], registers[r2], source);
      if curInst / 4 % 2 == 1 {
        ProductInRange(Signed24(registers[r1]), Signed24(registers[r2]));
        Negate(source);
      }
    }

    /**
     * What MAC and MACR leave: the exact sum modulo 2^56, and for MACR its half-even rounding; V says that the exact
     * sum does not fit 56 bits, L remembers it, C is left alone.
     */
    ghost predicate Summed(k: nat, sum: int, rounded: bool, was: StatusBits)
      requires Valid() && k < 2
      reads this, registers
    {
      var unit := RoundingUnit(if was.s0 then ScaleDown else if was.s1 then ScaleUp else NoScaling);
      && Acc(k).Signed() == (if rounded then Wrap(RoundHalfEven(Wrap(sum), unit)) else Wrap(sum))
      && sr == Described(was, Acc(k).Signed()).(v := !InRange(sum), l := was.l || !InRange(sum))
    }

    static method MacLimbs(source: array<int>, rounded: bool, scaling: Scaling, dest: array<int>) returns (newSr: NewSr)
      requires IsLimbs(source) && IsLimbs(dest) && source != dest
      modifies dest
      ensures IsLimbs(dest)
      ensures var sum := old(View(dest).Signed()) + View(source).Signed();
              && View(dest).Signed()
                 == (if rounded then Wrap(RoundHalfEven(Wrap(sum), RoundingUnit(scaling))) else Wrap(sum))
              && newSr.l == newSr.v == !InRange(sum)
    {
      newSr := Add56(source, dest);
      if rounded {
        Rnd56(scaling, dest);
      }
    }

    /** Writes a sum back, with the overflow that it left. */
    method StoreSum(k: nat, dest: array<int>, newSr: NewSr)
      requires Valid() && k < 2 && dest != registers && IsLimbs(dest)
      modifies `sr, registers
      ensures Valid() && Acc(k) == View(dest)
      ensures sr == Described(old(sr), View(dest).Signed()).(v := newSr.v, l := old(sr.l) || newSr.l)
      ensures forall i :: 0 <= i < 64 && !InAcc(i, k) ==> registers[i] == old(registers[i])
    {
      StoreResult(k, dest);
      sr := sr.(v := newSr.v, l := sr.l || newSr.l);
    }

    method Accumulate(k: nat, source: array<int>, rounded: bool, ghost p: int)
      requires Valid() && k < 2 && source != registers && IsLimbs(source) && View(source).Signed() == p
      modifies `sr, registers
      ensures Valid() && Summed(k, old(Acc(k).Signed()) + p, rounded, old(sr))
      ensures forall i :: 0 <= i < 64 && !InAcc(i, k) ==> registers[i] == old(registers[i])
    {
      var dest := LoadAcc(k);
      var newSr := MacLimbs(source, rounded, if sr.s0 then ScaleDown else if sr.s1 then ScaleUp else NoScaling, dest);
      StoreSum(k, dest, newSr);
    }

    /**
     * MAC and MACR: accumulator and product are added modulo 2^56, and for MACR rounded to the nearest multiple of
     * 2^24, 2^25 with S0, 2^23 with S1 alone, of two the even one; the other registers stay.
     */
    method Mac(curInst: int, rounded: bool)
      requires Valid()
      modifies `sr, registers
      ensures var k := curInst / 8 % 2;
              Valid() && Summed(k, old(Acc(k).Signed() + Product(curInst)), rounded, old(sr))
      ensures var k, was := curInst / 8 % 2, old(sr);
              var sum, unit := Wrap(old(Acc(k).Signed() + Product(curInst))),
                               if was.s0 then 0x200_0000 else if was.s1 then 0x80_0000 else 0x100_0000;
              if rounded then exists r :: IsRoundHalfEven(sum, unit, r) && Acc(k).Signed() == Wrap(r)
              else Acc(k).Signed() == sum
      ensures forall i :: 0 <= i < 64 && !InAcc(i, curInst / 8 % 2) ==> registers[i] == old(registers[i])
    {
      ghost var k, p := curInst / 8 % 2, Product(curInst);
      ghost var sum := Wrap(Acc(k).Signed() + p);
      ghost var half := if sr.s0 then 0x100_0000 else if sr.s1 then 0x40_0000 else 0x80_0000;
      RoundHalfEvenUnique(sum, half, RoundHalfEven(sum, 2 * half));
      var source := LoadProduct(curInst);
      Accumulate(curInst / 8 % 2, source, rounded, p);
    }
  }
}
