/**
 * Words seen as rows of pixels, the highest bit leftmost, and what shifts do to them. Shared by the screen conversion
 * and the blitter.
 */
module Pixels {

  /** Pixel i of a word, counted from the left. */
  predicate Pixel(w: bv16, i: nat)
    decreases i, w
  {
    if i == 0 then w & 0x8000 != 0 else Pixel(w << 1, i - 1)
  }

  /** Pixel i of two adjacent words. */
  predicate WidePixel(x: bv32, i: nat)
    decreases i, x
  {
    if i == 0 then x & 0x8000_0000 != 0 else WidePixel(x << 1, i - 1)
  }

  /** A mask of one bit, i places below the highest. */
  predicate Single(m: bv16, i: nat)
    decreases i
  {
    if i == 0 then m == 0x8000 else m & 0x8000 == 0 && Single(m << 1, i - 1)
  }

  lemma {:induction false} PixelMask(w: bv16, i: nat, m: bv16)
    requires Single(m, i)
    ensures Pixel(w, i) == (w & m != 0)
    decreases i, w
  {
    if i > 0 {
      PixelMask(w << 1, i - 1, m << 1);
    }
  }

  lemma AllPixels(w: bv16)
    ensures Pixel(w, 0) == (w & 0x8000 != 0) && Pixel(w, 1) == (w & 0x4000 != 0)
    ensures Pixel(w, 2) == (w & 0x2000 != 0) && Pixel(w, 3) == (w & 0x1000 != 0)
    ensures Pixel(w, 4) == (w & 0x800 != 0) && Pixel(w, 5) == (w & 0x400 != 0)
    ensures Pixel(w, 6) == (w & 0x200 != 0) && Pixel(w, 7) == (w & 0x100 != 0)
    ensures Pixel(w, 8) == (w & 0x80 != 0) && Pixel(w, 9) == (w & 0x40 != 0)
    ensures Pixel(w, 10) == (w & 0x20 != 0) && Pixel(w, 11) == (w & 0x10 != 0)
    ensures Pixel(w, 12) == (w & 0x8 != 0) && Pixel(w, 13) == (w & 0x4 != 0)
    ensures Pixel(w, 14) == (w & 0x2 != 0) && Pixel(w, 15) == (w & 0x1 != 0)
  {
    PixelMask(w, 0, 0x8000); PixelMask(w, 1, 0x4000); PixelMask(w, 2, 0x2000); PixelMask(w, 3, 0x1000);
    PixelMask(w, 4, 0x800); PixelMask(w, 5, 0x400); PixelMask(w, 6, 0x200); PixelMask(w, 7, 0x100);
    PixelMask(w, 8, 0x80); PixelMask(w, 9, 0x40); PixelMask(w, 10, 0x20); PixelMask(w, 11, 0x10);
    PixelMask(w, 12, 0x8); PixelMask(w, 13, 0x4); PixelMask(w, 14, 0x2); PixelMask(w, 15, 0x1);
  }

  /** A mask of one bit in a double word, i places below the highest. */
  predicate WideSingle(m: bv32, i: nat)
    decreases i
  {
    if i == 0 then m == 0x8000_0000 else m & 0x8000_0000 == 0 && WideSingle(m << 1, i - 1)
  }

  lemma {:induction false} WidePixelMask(x: bv32, i: nat, m: bv32)
    requires WideSingle(m, i)
    ensures WidePixel(x, i) == (x & m != 0)
    decreases i
  {
    if i > 0 {
      WidePixelMask(x << 1, i - 1, m << 1);
    }
  }

  lemma MaskOf(i: nat) returns (m: bv16)
    requires i < 16
    ensures Single(m, i)
    ensures m != 0 && m & (m - 1) == 0
    ensures i < 15 ==> m & 1 == 0
  {
    match i
    case 0 => m := 0x8000; assert Single(0x8000, 0);
    case 1 => m := 0x4000; assert Single(0x4000, 1);
    case 2 => m := 0x2000; assert Single(0x2000, 2);
    case 3 => m := 0x1000; assert Single(0x1000, 3);
    case 4 => m := 0x800; assert Single(0x800, 4);
    case 5 => m := 0x400; assert Single(0x400, 5);
    case 6 => m := 0x200; assert Single(0x200, 6);
    case 7 => m := 0x100; assert Single(0x100, 7);
    case 8 => m := 0x80; assert Single(0x80, 8);
    case 9 => m := 0x40; assert Single(0x40, 9);
    case 10 => m := 0x20; assert Single(0x20, 10);
    case 11 => m := 0x10; assert Single(0x10, 11);
    case 12 => m := 0x8; assert Single(0x8, 12);
    case 13 => m := 0x4; assert Single(0x4, 13);
    case 14 => m := 0x2; assert Single(0x2, 14);
    case _ => m := 0x1; assert Single(0x1, 15);
  }

  lemma {:induction false} MaskInHigh(m: bv16, i: nat)
    requires Single(m, i)
    ensures WideSingle((m as bv32) << 16, i)
    decreases i
  {
    if i > 0 {
      MaskInHigh(m << 1, i - 1);
      assert ((m << 1) as bv32) << 16 == ((m as bv32) << 16) << 1;
    }
  }

  lemma {:induction false} MaskInLow(m: bv16, i: nat)
    requires Single(m, i)
    ensures WideSingle(m as bv32, i + 16)
    decreases i
  {
    if i > 0 {
      MaskInLow(m << 1, i - 1);
      assert (m << 1) as bv32 == (m as bv32) << 1;
    } else {
      assert WideSingle(0x0400_0000, 5) && WideSingle(0x0020_0000, 10) && WideSingle(0x0001_0000, 15);
    }
  }

  /** Two words side by side. */
  function Join(first: bv16, second: bv16): bv32 {
    ((first as bv32) << 16) | (second as bv32)
  }

  lemma JoinPixel(first: bv16, second: bv16, i: nat)
    requires i < 32
    ensures WidePixel(Join(first, second), i) == if i < 16 then Pixel(first, i) else Pixel(second, i - 16)
  {
    if i < 16 {
      var m := MaskOf(i);
      MaskInHigh(m, i);
      WidePixelMask(Join(first, second), i, (m as bv32) << 16);
      PixelMask(first, i, m);
      assert (Join(first, second) & ((m as bv32) << 16) != 0) == (first & m != 0);
    } else {
      var m := MaskOf(i - 16);
      MaskInLow(m, i - 16);
      WidePixelMask(Join(first, second), i, m as bv32);
      PixelMask(second, i - 16, m);
      assert (Join(first, second) & (m as bv32) != 0) == (second & m != 0);
    }
  }

  function HighWord(x: bv32): bv16 {
    (x >> 16) as bv16
  }

  function LowWord(x: bv32): bv16 {
    (x & 0xffff) as bv16
  }

  /** A left shift, one place at a time. */
  function ShiftLeft(x: bv32, s: nat): bv32
    decreases s
  {
    if s == 0 then x else ShiftLeft(x << 1, s - 1)
  }

  lemma {:induction false} ShiftedPixel(x: bv32, s: nat, i: nat)
    ensures WidePixel(ShiftLeft(x, s), i) == WidePixel(x, i + s)
    decreases s
  {
    if s > 0 {
      ShiftedPixel(x << 1, s - 1, i);
    }
  }

  lemma JoinedHalves(y: bv32)
    ensures Join(HighWord(y), LowWord(y)) == y
  {
  }

  /** A right shift, one place at a time. */
  function ShiftRight(x: bv32, s: nat): bv32
    decreases s
  {
    if s == 0 then x else ShiftRight(x >> 1, s - 1)
  }

  lemma WideMaskOf(i: nat) returns (m: bv32)
    requires i < 31
    ensures WideSingle(m, i) && m & 1 == 0
  {
    if i < 16 {
      var w := MaskOf(i);
      MaskInHigh(w, i);
      m := (w as bv32) << 16;
    } else {
      var w := MaskOf(i - 16);
      MaskInLow(w, i - 16);
      m := w as bv32;
    }
  }

  lemma LowestBitDropped(x: bv32, m: bv32)
    requires m & 1 == 0
    ensures ((x >> 1) << 1) & m == x & m
  {
  }

  lemma ShiftedRightOnce(x: bv32, i: nat)
    requires i < 31
    ensures WidePixel(x >> 1, i + 1) == WidePixel(x, i)
  {
    var m := WideMaskOf(i);
    WidePixelMask(x, i, m);
    WidePixelMask((x >> 1) << 1, i, m);
    LowestBitDropped(x, m);
  }

  lemma {:induction false} ShiftedRightPixel(x: bv32, s: nat, i: nat)
    requires i + s < 32
    ensures WidePixel(ShiftRight(x, s), i + s) == WidePixel(x, i)
    decreases s
  {
    if s > 0 {
      ShiftedRightPixel(x >> 1, s - 1, i + 1);
      ShiftedRightOnce(x, i);
    }
  }

  lemma LowPixel(y: bv32, i: nat)
    requires i < 16
    ensures Pixel(LowWord(y), i) == WidePixel(y, 16 + i)
  {
    JoinedHalves(y);
    JoinPixel(HighWord(y), LowWord(y), 16 + i);
  }

  /** Two words moved right by s pixels: the first pixels of the second word come from the first one. */
  lemma MovedRight(left: bv16, right: bv16, s: nat, i: nat)
    requires s < 16 && i < 16
    ensures Pixel(LowWord(ShiftRight(Join(left, right), s)), i) ==
            if i < s then Pixel(left, 16 + i - s) else Pixel(right, i - s)
  {
    LowPixel(ShiftRight(Join(left, right), s), i);
    ShiftedRightPixel(Join(left, right), s, 16 + i - s);
    JoinPixel(left, right, 16 + i - s);
  }

  // Bitwise operations under a mask of one bit.

  lemma NotMasked(a: bv16, m: bv16)
    requires m != 0 && m & (m - 1) == 0
    ensures (!a & m != 0) == (a & m == 0)
  {
  }

  lemma AndMasked(a: bv16, b: bv16, m: bv16)
    requires m & (m - 1) == 0
    ensures ((a & b) & m != 0) == (a & m != 0 && b & m != 0)
  {
  }

  lemma OrMasked(a: bv16, b: bv16, m: bv16)
    ensures ((a | b) & m != 0) == (a & m != 0 || b & m != 0)
  {
  }

  lemma XorMasked(a: bv16, b: bv16, m: bv16)
    requires m & (m - 1) == 0
    ensures ((a ^ b) & m != 0) == ((a & m != 0) != (b & m != 0))
  {
  }

  lemma AndPixel(a: bv16, b: bv16, i: nat)
    requires i < 16
    ensures Pixel(a & b, i) == (Pixel(a, i) && Pixel(b, i))
  {
    var m := MaskOf(i);
    PixelMask(a, i, m);
    PixelMask(b, i, m);
    PixelMask(a & b, i, m);
    AndMasked(a, b, m);
  }

  lemma OnesPixel(i: nat)
    requires i < 16
    ensures Pixel(0xffff, i)
  {
    AllPixels(0xffff);
  }
}
