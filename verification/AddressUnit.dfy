/**
 * The address register updates of the DSP56001 (src/dsp_cpu.c): linear, bit-reversed and modulo, and
 * exactly when the emulated modulo update is a circular buffer step.
 */
module AddressUnit {
  import opened Arith
  import opened BitReverse

  const W15 := 0x8000
  const W16 := 0x1_0000

  /** Conversion to Sint16. */
  function S16(x: int): (r: int)
    ensures -W15 <= r < W15
    ensures -W15 <= x < W15 ==> r == x
    ensures W15 <= x < W15 + W16 ==> r == x - W16
    ensures -W15 - W16 <= x < -W15 ==> r == x + W16
  {
    (x + W15) % W16 - W15
  }

  lemma S16Twice(x: int, d: int)
    ensures S16(S16(x) + d) == S16(x + d)
  {
    AddMod(x + W15, d, W16);
  }

  lemma S16Mod(x: int)
    ensures S16(x) % W16 == x % W16
  {
    AddMod(x + W15, -W15, W16);
  }

  // ---------------------------------------------------------------- modulo addressing

  /** The smallest power of two, from b up, that holds a buffer of m words. */
  ghost function BufSize(b: int, m: int): (s: int)
    requires b > 0
    ensures s > 0
    decreases m - b
  {
    if b < m then BufSize(2 * b, m) else b
  }

  lemma {:induction false} BufSizeOf(e: nat, m: int) returns (f: nat)
    requires e <= 15 && m <= Pow2(15)
    ensures e <= f <= 15 && BufSize(Pow2(e), m) == Pow2(f) && m <= Pow2(f) && (f == e || Pow2(f) < 2 * m)
    decreases 15 - e
  {
    if Pow2(e) < m {
      assert e < 15;
      f := BufSizeOf(e + 1, m);
    } else {
      f := e;
    }
  }

  /** A multiple of p below a multiple of p leaves room for p more. */
  lemma RoomForOne(a: int, t: int, p: int)
    requires p > 0 && a * p < t * p
    ensures a * p + p <= t * p
  {
    assert (t - a) * p == t * p - a * p;
    Multiple(t - a, p);
  }

  /** The lower bound of the buffer that holds address r: r with the bits below the buffer size cleared. */
  ghost function LowerBound(r: int, m: int): int {
    var size := BufSize(1, m);
    r - r % size
  }

  /** The block of a buffer is the least power of two that holds it, and so does not cross 0x8000. */
  lemma Aligned(r: int, m: int)
    requires 0 <= r < W16 && 1 <= m <= W15
    ensures var lo := LowerBound(r, m); var size := BufSize(1, m);
            && m <= size < 2 * m && (exists e: nat :: size == Pow2(e)) && 0 <= lo <= r < lo + size && lo % size == 0
            && (lo < W15 ==> lo + size <= W15) && lo + size <= W16
  {
    Pow2At15();
    var f := BufSizeOf(0, m);
    var p, t := Pow2(f), Pow2(15 - f);
    Pow2Add(15 - f, f);
    var a := r / p;
    DivMod(r, p);
    DivModIs(a * p, p, a, 0);
    ProductBound(a, p, a, p);
    MulAssoc(2, t, p);
    if a * p < W15 {
      RoomForOne(a, t, p);
    }
    RoomForOne(a, 2 * t, p);
  }

  ghost function Corrected(t: int, lo: int, m: int, modifier: int): int {
    if modifier == m then t else if t > lo + m - 1 then S16(t - m) else if t < lo then S16(t + m) else t
  }

  /** What the emulator leaves in Rn: compare and correct in signed 16-bit arithmetic. */
  ghost function ModuloUpdated(r: int, m: int, modifier: int): int {
    Corrected(S16(r + modifier), LowerBound(r, m), m, modifier) % W16
  }

  /** A step in a circular buffer of m words at the lower bound. */
  ghost function CircularStep(r: int, m: int, modifier: int): int
    requires m > 0
  {
    var lo := LowerBound(r, m);
    lo + (r - lo + modifier) % m
  }

  lemma CircularIs(x: int, m: int)
    requires m > 0 && -m <= x < 2 * m
    ensures x % m == if x < 0 then x + m else if x < m then x else x - m
  {
    DivModIs(x, m, if x < 0 then -1 else if x < m then 0 else 1, if x < 0 then x + m else if x < m then x else x - m);
  }

  lemma CorrectedBelow(lo: int, m: int, modifier: int, x: int)
    requires 0 <= lo < W15 && 2 <= m && lo + m <= W15 && lo - m <= x < lo + 2 * m && modifier != m
    ensures var target := if x < lo then x + m else if x < lo + m then x else x - m;
            Corrected(S16(x), lo, m, modifier) % W16 == target <==> x < W15 || m == W15
  {
  }

  lemma CorrectedAbove(lo: int, m: int, modifier: int, x: int)
    requires W15 <= lo && 2 <= m && lo + m <= W16 && lo - m <= x < lo + 2 * m && modifier != m
    ensures var target := if x < lo then x + m else if x < lo + m then x else x - m;
            Corrected(S16(x), lo, m, modifier) % W16 == target <==> x < lo || (x > lo + m - 1 && m == W15)
  {
  }

  /** The signed comparisons see true addresses. */
  ghost predicate StepRight(r: int, m: int, modifier: int) {
    var lo, x := LowerBound(r, m), r + modifier;
    modifier != m && if lo < W15 then x < W15 || m == W15 else x < lo || (x > lo + m - 1 && m == W15)
  }

  lemma NotCorrected(r: int, m: int)
    requires 0 <= r < W16 && 2 <= m <= W15
    ensures ModuloUpdated(r, m, m) != r
  {
  }

  /**
   * From inside its buffer and with a modifier of at most one buffer length, the emulated update is the
   * circular step exactly when the signed comparisons see true addresses: below 0x8000 the moved address
   * must stay below 0x8000, above it the move must run off the lower end; a buffer of 32768 words is also
   * right when the move runs off the upper end, because there adding and subtracting the length agree.  A
   * modifier of exactly the length is never right: it is not corrected at all.
   */
  lemma ModuloExact(r: int, m: int, modifier: int)
    requires 0 <= r < W16 && 2 <= m <= W15 && -m <= modifier <= m
    requires r - LowerBound(r, m) < m
    ensures ModuloUpdated(r, m, modifier) == CircularStep(r, m, modifier) <==> StepRight(r, m, modifier)
  {
    var lo, x := LowerBound(r, m), r + modifier;
    Aligned(r, m);
    CircularIs(r - lo + if modifier == m then 0 else modifier, m);
    if modifier == m {
      NotCorrected(r, m);
      DivModIs(r - lo + m, m, 1, r - lo);
    } else if lo < W15 {
      CorrectedBelow(lo, m, modifier, x);
    } else {
      CorrectedAbove(lo, m, modifier, x);
    }
  }

  lemma CorrectionMoves(t: int, m: int)
    requires -W15 <= t < W15 && 2 <= m <= W15
    ensures S16(t - m) % W16 != t % W16 && S16(t + m) % W16 != t % W16
  {
    S16Mod(t - m);
    S16Mod(t + m);
  }

  /** The update only adds the modifier exactly when that leads into the buffer, or the modifier is its length. */
  lemma UncorrectedExact(r: int, m: int, modifier: int)
    requires 0 <= r < W16 && 2 <= m <= W15 && -W15 <= modifier < W15
    ensures var lo := LowerBound(r, m);
      ModuloUpdated(r, m, modifier) == (r + modifier) % W16 <==>
      modifier == m || lo <= S16(r + modifier) < lo + m
  {
    S16Mod(r + modifier);
    CorrectionMoves(S16(r + modifier), m);
  }

  /** A jump by whole buffer blocks leads to another block. */
  lemma OtherBlock(r: int, k: int, size: int, lo: int)
    requires 0 < size <= W15 && 0 <= lo <= r < lo + size && (lo < W15 ==> lo + size <= W15) && lo + size <= W16
    requires k != 0 && -W15 <= k * size < W15
    ensures !(lo <= S16(r + k * size) < lo + size)
  {
    Multiple(k, size);
    Multiple(-k, size);
  }

  /**
   * A jump by a multiple of the buffer's block, which the loops of the update are written for, lands at the same
   * place of another block exactly when it is as long as the buffer; any other is corrected by one length.
   */
  lemma BlockJumpExact(r: int, m: int, k: int)
    requires 0 <= r < W16 && 2 <= m <= W15 && k != 0 && -W15 <= k * BufSize(1, m) < W15
    ensures var modifier := k * BufSize(1, m);
      ModuloUpdated(r, m, modifier) == (r + modifier) % W16 <==> modifier == m
  {
    Aligned(r, m);
    UncorrectedExact(r, m, k * BufSize(1, m));
    OtherBlock(r, k, BufSize(1, m), LowerBound(r, m));
  }

  /** From 0, in a buffer of three words and so a block of four, a jump by four leads to 1. */
  lemma BlockJumpIsCorrected()
    ensures BufSize(1, 3) == 4 && ModuloUpdated(0, 3, 4) == 1
  {
    assert BufSize(1, 3) == BufSize(2, 3) == BufSize(4, 3) == 4;
  }

  /** A buffer of two words at 0x8000 is left at once. */
  lemma HighBufferIsLeft()
    ensures ModuloUpdated(0x8000, 2, 1) != CircularStep(0x8000, 2, 1)
  {
    assert BufSize(1, 2) == BufSize(2, 2) == 2;
  }

  ghost function Sum(ds: seq<int>): int {
    if |ds| == 0 then 0 else Sum(ds[..|ds| - 1]) + ds[|ds| - 1]
  }

  ghost function ModuloRun(r: int, m: int, ds: seq<int>): int {
    if |ds| == 0 then r else ModuloUpdated(ModuloRun(r, m, ds[..|ds| - 1]), m, ds[|ds| - 1])
  }

  lemma SameBuffer(r: int, m: int, x: int)
    requires 0 <= r < W16 && 1 <= m <= W15 && LowerBound(r, m) <= x < LowerBound(r, m) + m
    ensures LowerBound(x, m) == LowerBound(r, m) && 0 <= x < W16
  {
    Aligned(r, m);
    var lo, size := LowerBound(r, m), BufSize(1, m);
    DivMod(lo, size);
    DivModIs(x, size, lo / size, x - lo);
  }

  /** Where t steps from the lower bound lead in a circular buffer. */
  ghost function Place(lo: int, t: int, m: int): int
    requires m > 0
  {
    lo + t % m
  }

  /** An update leads from the place of t steps to that of t + d exactly when it is right. */
  lemma StepExact(x: int, m: int, d: int, lo: int, t: int, x': int, t': int)
    requires 0 <= x < W16 && 2 <= m <= W15 && -m <= d <= m && lo == LowerBound(x, m) && x == Place(lo, t, m)
    requires x' == ModuloUpdated(x, m, d) && t' == t + d
    ensures x' == Place(lo, t', m) <==> StepRight(x, m, d)
    ensures StepRight(x, m, d) ==> 0 <= x' < W16 && lo <= x' < lo + m && LowerBound(x', m) == lo
  {
    DivMod(t, m);
    ModuloExact(x, m, d);
    AddMod(t, d, m);
    if StepRight(x, m, d) {
      DivMod(t + d, m);
      SameBuffer(x, m, x');
    }
  }

  /** Every step is right from where the sum of the modifiers before it leads. */
  ghost predicate StepsRight(r: int, m: int, ds: seq<int>)
    requires m > 0
  {
    |ds| == 0 ||
    (var lo, rest := LowerBound(r, m), ds[..|ds| - 1];
     StepsRight(r, m, rest) && StepRight(Place(lo, r - lo + Sum(rest), m), m, ds[|ds| - 1]))
  }

  /** Every state of a run is where the sum of the modifiers so far takes it, modulo the length of the buffer. */
  ghost predicate OnCourse(r: int, m: int, ds: seq<int>)
    requires m > 0
  {
    |ds| == 0 ||
    (var lo := LowerBound(r, m);
     OnCourse(r, m, ds[..|ds| - 1]) && ModuloRun(r, m, ds) == Place(lo, r - lo + Sum(ds), m))
  }

  lemma StartsAtPlace(r: int, m: int, lo: int)
    requires 0 <= r < W16 && 2 <= m <= W15 && lo == LowerBound(r, m) && r - lo < m
    ensures lo <= r && r == Place(lo, r - lo, m)
  {
    Aligned(r, m);
    CircularIs(r - lo, m);
  }

  lemma RightStep(x: int, m: int, d: int, lo: int, t: int, x': int, t': int)
    requires 0 <= x < W16 && 2 <= m <= W15 && -m <= d <= m && lo == LowerBound(x, m) && x == Place(lo, t, m)
    requires x' == ModuloUpdated(x, m, d) && t' == t + d && StepRight(x, m, d)
    ensures 0 <= x' < W16 && lo <= x' < lo + m && LowerBound(x', m) == lo && x' == Place(lo, t', m)
  {
    StepExact(x, m, d, lo, t, x', t');
  }

  /** A run of right steps from inside its buffer stays in it and ends where the sum of the modifiers takes it. */
  lemma {:induction false} RightRun(r: int, m: int, ds: seq<int>, lo: int)
    requires 0 <= r < W16 && 2 <= m <= W15 && lo == LowerBound(r, m) && r - lo < m
    requires (forall i :: 0 <= i < |ds| ==> -m <= ds[i] <= m) && StepsRight(r, m, ds)
    ensures var x := ModuloRun(r, m, ds);
            0 <= x < W16 && lo <= x < lo + m && LowerBound(x, m) == lo && x == Place(lo, r - lo + Sum(ds), m)
  {
    if |ds| == 0 {
      StartsAtPlace(r, m, lo);
    } else {
      var rest, d := ds[..|ds| - 1], ds[|ds| - 1];
      RightRun(r, m, rest, lo);
      RightStep(ModuloRun(r, m, rest), m, d, lo, r - lo + Sum(rest), ModuloRun(r, m, ds), r - lo + Sum(ds));
    }
  }

  /** One more step stays on course exactly when it is right. */
  lemma OneMoreStep(r: int, m: int, rest: seq<int>, d: int, lo: int, x': int, t': int)
    requires 0 <= r < W16 && 2 <= m <= W15 && lo == LowerBound(r, m) && r - lo < m && -m <= d <= m
    requires (forall i :: 0 <= i < |rest| ==> -m <= rest[i] <= m) && StepsRight(r, m, rest)
    requires x' == ModuloUpdated(ModuloRun(r, m, rest), m, d) && t' == r - lo + Sum(rest) + d
    ensures x' == Place(lo, t', m) <==> StepRight(Place(lo, r - lo + Sum(rest), m), m, d)
  {
    RightRun(r, m, rest, lo);
    StepExact(ModuloRun(r, m, rest), m, d, lo, r - lo + Sum(rest), x', t');
  }

  /** A run that starts in its buffer stays on course exactly when every step is right. */
  lemma {:induction false} ModuloRunExact(r: int, m: int, ds: seq<int>)
    requires 0 <= r < W16 && 2 <= m <= W15 && r - LowerBound(r, m) < m
    requires forall i :: 0 <= i < |ds| ==> -m <= ds[i] <= m
    ensures OnCourse(r, m, ds) <==> StepsRight(r, m, ds)
  {
    if |ds| > 0 {
      var lo, rest, d := LowerBound(r, m), ds[..|ds| - 1], ds[|ds| - 1];
      ModuloRunExact(r, m, rest);
      assert OnCourse(r, m, ds) <==> OnCourse(r, m, rest) && ModuloRun(r, m, ds) == Place(lo, r - lo + Sum(ds), m);
      assert StepsRight(r, m, ds) <==> StepsRight(r, m, rest) && StepRight(Place(lo, r - lo + Sum(rest), m), m, d);
      if StepsRight(r, m, rest) {
        OneMoreStep(r, m, rest, d, lo, ModuloRun(r, m, ds), r - lo + Sum(ds));
      }
    }
  }

  /** In a buffer that ends at least its own length below 0x8000 every step is right. */
  lemma {:induction false} LowBufferRuns(r: int, m: int, ds: seq<int>)
    requires 0 <= r < W16 && 2 <= m <= W15 && r - LowerBound(r, m) < m && LowerBound(r, m) + 2 * m <= W15
    requires forall i :: 0 <= i < |ds| ==> -m <= ds[i] < m
    ensures StepsRight(r, m, ds)
  {
    if |ds| > 0 {
      LowBufferRuns(r, m, ds[..|ds| - 1]);
      RightRun(r, m, ds[..|ds| - 1], LowerBound(r, m));
    }
  }

  /** Any run of updates in such a buffer stays in it and is where the sum of the modifiers takes it. */
  lemma ModuloRunIsCircular(r: int, m: int, ds: seq<int>)
    requires 0 <= r < W16 && 2 <= m <= W15 && r - LowerBound(r, m) < m && LowerBound(r, m) + 2 * m <= W15
    requires forall i :: 0 <= i < |ds| ==> -m <= ds[i] < m
    ensures var lo, x := LowerBound(r, m), ModuloRun(r, m, ds);
            lo <= x < lo + m && x == Place(lo, r - lo + Sum(ds), m)
  {
    LowBufferRuns(r, m, ds);
    RightRun(r, m, ds, LowerBound(r, m));
  }

  // ---------------------------------------------------------------- the register updates

  lemma ClearHigh(x: int, p: int, y: int)
    requires p > 0
    ensures (x - x % p + y) % p == y % p
  {
    DivMod(x, p);
    DivMod(y, p);
    assert (x / p + y / p) * p == x / p * p + y / p * p;
    DivModIs(x - x % p + y, p, x / p + y / p, y % p);
  }

  lemma LowFieldOf(x: int, p: int, y: int)
    requires x >= 0 && 0 <= y < p
    ensures x - x % p + y >= 0 && (x - x % p + y) % p == y && x - x % p + y - y == x - x % p
  {
    DivMod(x, p);
    ProductBound(x / p, p, x / p, p);
    DivModIs(x - x % p + y, p, x / p, y);
  }

  class AddressRegisters {
    const r: array<int>
    const n: array<int>
    const m: array<int>

    ghost predicate Valid()
      reads this, r, n, m
    {
      && r.Length == n.Length == m.Length == 8 && r != n && r != m
      && forall i :: 0 <= i < 8 ==> 0 <= n[i] < W16 && 0 <= m[i] < W16
    }

    constructor ()
      ensures Valid() && fresh(r) && fresh(n) && fresh(m)
    {
      r, n, m := new int[8](_ => 0), new int[8](_ => 0), new int[8](_ => 0xffff);
    }

    /** The bits of value below revbits in reverse order, and the bits above as they are. */
    method ReverseLow(source: int, revbits: nat) returns (value: int)
      requires source >= 0
      ensures value == source - source % Pow2(revbits) + Rev(revbits, source)
    {
      value := source - source % Pow2(revbits);
      ghost var base := value;
      assert Pow2(0) == 1;
      for i := 0 to revbits
        invariant source / Pow2(i) >= 0
        invariant value + Rev(revbits - i, source / Pow2(i)) == base + Rev(revbits, source)
      {
        HalfOfQuotient(source, Pow2(i));
        DivMod(source, Pow2(i + 1));
        if source / Pow2(i) % 2 == 1 {
          value := value + Pow2(revbits - i - 1);  // the bit was clear
        }
      }
    }

    /** How many low bits to reverse: one more than the number of trailing zeros. */
    method CountRevBits(value: int) returns (revbits: nat)
      requires value >= 0
      ensures revbits == TrailingZeros(value, 16) + 1
    {
      revbits := 0;
      assert Pow2(0) == 1;
      while revbits < 16 && value / Pow2(revbits) % 2 == 0
        invariant revbits <= 16 && value / Pow2(revbits) >= 0
        invariant revbits + TrailingZeros(value / Pow2(revbits), 16 - revbits) == TrailingZeros(value, 16)
      {
        HalfOfQuotient(value, Pow2(revbits));
        revbits := revbits + 1;
        DivMod(value, Pow2(revbits));
      }
      revbits := revbits + 1;
    }

    /** Reverse, increment, mask, put below the high bits, and reverse again. */
    method ReverseIncrement(source: int, revbits: nat) returns (value: int)
      requires source >= 0
      ensures value == BitReversed(source, revbits)
    {
      ghost var p := Pow2(revbits);
      ghost var next := (Rev(revbits, source) + 1) % p;
      value := ReverseLow(source, revbits);
      ClearHigh(source, p, Rev(revbits, source) + 1);
      value := (value + 1) % Pow2(revbits);
      assert value == next;
      var rReg := source - source % Pow2(revbits) + value;
      LowFieldOf(source, p, next);
      RevOfLowBits(revbits, rReg);
      value := ReverseLow(rReg, revbits);
    }

    /** Bit-reversed update: Rn becomes BitReverse.BitReversed on one bit more than Nn has trailing zeros. */
    method UpdateRnBitReverse(numreg: nat)
      requires Valid() && numreg < 8 && 0 <= r[numreg] < W16
      modifies r
      ensures r[numreg] == BitReversed(old(r[numreg]), TrailingZeros(n[numreg], 16) + 1)
      ensures forall i :: 0 <= i < 8 && i != numreg ==> r[i] == old(r[i])
    {
      var revbits := CountRevBits(n[numreg]);
      r[numreg] := ReverseIncrement(r[numreg], revbits);
    }

    method BufferSize(modulo: int) returns (bufsize: int)
      ensures bufsize == BufSize(1, modulo)
    {
      bufsize := 1;
      while bufsize < modulo
        invariant 0 < bufsize && BufSize(bufsize, modulo) == BufSize(1, modulo)
        decreases modulo - bufsize
      {
        bufsize := 2 * bufsize;
      }
    }

    /** The moved address: the two loops only shift whole buffer sizes from the modifier to the address. */
    method Move(address: int, modifier: int, modulo: int, bufsize: int) returns (rReg: int)
      requires bufsize > 0
      ensures rReg == S16(address + modifier)
    {
      var rest := modifier;
      rReg := S16(address);
      S16Twice(address, modifier);
      if modifier > modulo {
        while rest > bufsize
          invariant S16(rReg + rest) == S16(address + modifier)
          decreases rest
        {
          S16Twice(rReg + bufsize, rest - bufsize);
          rReg := S16(rReg + bufsize);
          rest := rest - bufsize;
        }
        while rest < -bufsize
          invariant S16(rReg + rest) == S16(address + modifier)
          decreases -rest
        {
          S16Twice(rReg - bufsize, rest + bufsize);
          rReg := S16(rReg - bufsize);
          rest := rest + bufsize;
        }
      }
      rReg := S16(rReg + rest);
    }

    /** Modulo update: Rn becomes ModuloUpdated for a buffer of Mn + 1 words. */
    method UpdateRnModulo(numreg: nat, modifier: int)
      requires Valid() && numreg < 8 && 0 <= r[numreg] < W16 && 1 <= m[numreg] < W15 && -W15 <= modifier < W15
      modifies r
      ensures r[numreg] == ModuloUpdated(old(r[numreg]), m[numreg] + 1, modifier)
      ensures forall i :: 0 <= i < 8 && i != numreg ==> r[i] == old(r[i])
    {
      var modulo := m[numreg] + 1;
      var bufsize := BufferSize(modulo);
      var lobound := r[numreg] - r[numreg] % bufsize;
      var hibound := lobound + modulo - 1;
      var rReg := Move(r[numreg], modifier, modulo, bufsize);

      if modifier != modulo {
        if rReg > hibound {
          rReg := S16(rReg - modulo);
        } else if rReg < lobound {
          rReg := S16(rReg + modulo);
        }
      }
      r[numreg] := rReg % W16;
    }

    method UpdateRnLinear(numreg: nat, modifier: int)
      requires Valid() && numreg < 8 && 0 <= r[numreg] < W16 && -W15 <= modifier < W15
      modifies r
      ensures r[numreg] == (old(r[numreg]) + modifier) % W16
      ensures forall i :: 0 <= i < 8 && i != numreg ==> r[i] == old(r[i])
    {
      var value := S16(r[numreg]);
      S16Twice(r[numreg], modifier);
      value := S16(value + modifier);
      r[numreg] := value % W16;
    }

    /** The update selected by Mn; the other values of Mn leave Rn alone. */
    method UpdateRn(numreg: nat, modifier: int)
      requires Valid() && numreg < 8 && 0 <= r[numreg] < W16 && -W15 <= modifier < W15
      modifies r
      ensures var x, k := old(r[numreg]), m[numreg];
              r[numreg] == if k == 0 then BitReversed(x, TrailingZeros(n[numreg], 16) + 1)
                           else if k < W15 then ModuloUpdated(x, k + 1, modifier)
                           else if k == 0xffff then (x + modifier) % W16
                           else x
      ensures forall i :: 0 <= i < 8 && i != numreg ==> r[i] == old(r[i])
    {
      var mReg := m[numreg];
      if mReg == 0 {
        UpdateRnBitReverse(numreg);
      } else if 1 <= mReg <= 32767 {
        UpdateRnModulo(numreg, modifier);
      } else if mReg == 65535 {
        UpdateRnLinear(numreg, modifier);
      }
    }
  }
}
