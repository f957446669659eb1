/**
 * Bitplanes to chunky pixels (src/hostscreen.cpp, bitplaneToChunky, little-endian host): sixteen pixels whose
 * colour bits lie in up to eight 16-bit planes become sixteen colour indices, by a network of masks and shifts.
 */
module Chunky {
  import opened Pixels

  /** Bit p of a colour index. */
  predicate ColourBit(c: bv8, p: nat)
    decreases p, c
  {
    if p == 0 then c & 1 != 0 else ColourBit(c >> 1, p - 1)
  }

  /** SDL_SwapBE16 on a little-endian host. */
  function Swap(w: bv16): bv16 {
    (w << 8) | (w >> 8)
  }

  lemma ColourBits(c: bv8)
    ensures ColourBit(c, 0) == (c & 0x1 != 0) && ColourBit(c, 1) == (c & 0x2 != 0)
    ensures ColourBit(c, 2) == (c & 0x4 != 0) && ColourBit(c, 3) == (c & 0x8 != 0)
    ensures ColourBit(c, 4) == (c & 0x10 != 0) && ColourBit(c, 5) == (c & 0x20 != 0)
    ensures ColourBit(c, 6) == (c & 0x40 != 0) && ColourBit(c, 7) == (c & 0x80 != 0)
  {
    assert ColourBit(c, 7) == ColourBit(c >> 1, 6) == ColourBit(c >> 2, 5) == ColourBit(c >> 3, 4)
        == ColourBit(c >> 4, 3) == ColourBit(c >> 5, 2) == ColourBit(c >> 6, 1);
    assert ColourBit(c, 6) == ColourBit(c >> 1, 5) == ColourBit(c >> 2, 4) == ColourBit(c >> 3, 3)
        == ColourBit(c >> 4, 2) == ColourBit(c >> 5, 1);
  }

  /** The words of the eight planes, leftmost pixel in the highest bit. */
  datatype Planes = Planes(w0: bv16, w1: bv16, w2: bv16, w3: bv16, w4: bv16, w5: bv16, w6: bv16, w7: bv16)

  /** A colour whose bits are spelled by pixel i of the planes. */
  predicate Spelled(c: bv8, planes: Planes, i: nat) {
    && ColourBit(c, 0) == Pixel(planes.w0, i) && ColourBit(c, 1) == Pixel(planes.w1, i)
    && ColourBit(c, 2) == Pixel(planes.w2, i) && ColourBit(c, 3) == Pixel(planes.w3, i)
    && ColourBit(c, 4) == Pixel(planes.w4, i) && ColourBit(c, 5) == Pixel(planes.w5, i)
    && ColourBit(c, 6) == Pixel(planes.w6, i) && ColourBit(c, 7) == Pixel(planes.w7, i)
  }

  /**
   * The exchange network on the four registers and the bytes they leave: a, b, c and d hold the planes in the byte
   * order of the screen memory, and every pixel gets the colour that its plane bits spell.
   */
  method Transpose(a0: bv32, b0: bv32, c0: bv32, d0: bv32, ghost planes: Planes)
    returns (p0: bv8, p1: bv8, p2: bv8, p3: bv8, p4: bv8, p5: bv8, p6: bv8, p7: bv8,
             p8: bv8, p9: bv8, p10: bv8, p11: bv8, p12: bv8, p13: bv8, p14: bv8, p15: bv8)
    requires a0 == (((planes.w6 << 8) | (planes.w6 >> 8)) as bv32)
              | ((((planes.w7 << 8) | (planes.w7 >> 8)) as bv32) << 16)
    requires b0 == (((planes.w4 << 8) | (planes.w4 >> 8)) as bv32)
              | ((((planes.w5 << 8) | (planes.w5 >> 8)) as bv32) << 16)
    requires c0 == (((planes.w2 << 8) | (planes.w2 >> 8)) as bv32)
              | ((((planes.w3 << 8) | (planes.w3 >> 8)) as bv32) << 16)
    requires d0 == (((planes.w0 << 8) | (planes.w0 >> 8)) as bv32)
              | ((((planes.w1 << 8) | (planes.w1 >> 8)) as bv32) << 16)
    ensures Spelled(p0, planes, 0) && Spelled(p1, planes, 1) && Spelled(p2, planes, 2) && Spelled(p3, planes, 3)
    ensures Spelled(p4, planes, 4) && Spelled(p5, planes, 5) && Spelled(p6, planes, 6) && Spelled(p7, planes, 7)
    ensures Spelled(p8, planes, 8) && Spelled(p9, planes, 9) && Spelled(p10, planes, 10) && Spelled(p11, planes, 11)
    ensures Spelled(p12, planes, 12) && Spelled(p13, planes, 13) && Spelled(p14, planes, 14) && Spelled(p15, planes, 15)
  {
    var a, b, c, d := a0, b0, c0, d0;
    var x := a;
    a := (a & 0xf0f0f0f0) | ((c & 0xf0f0f0f0) >> 4);
    c := ((x & 0x0f0f0f0f) << 4) | (c & 0x0f0f0f0f);
    x := b;
    b := (b & 0xf0f0f0f0) | ((d & 0xf0f0f0f0) >> 4);
    d := ((x & 0x0f0f0f0f) << 4) | (d & 0x0f0f0f0f);

    x := a;
    a := (a & 0xcccccccc) | ((b & 0xcccccccc) >> 2);
    b := ((x & 0x33333333) << 2) | (b & 0x33333333);
    x := c;
    c := (c & 0xcccccccc) | ((d & 0xcccccccc) >> 2);
    d := ((x & 0x33333333) << 2) | (d & 0x33333333);

    a := (a & 0xaaaa5555) | ((a & 0x0000aaaa) << 15) | ((a & 0x55550000) >> 15);
    b := (b & 0xaaaa5555) | ((b & 0x0000aaaa) << 15) | ((b & 0x55550000) >> 15);
    c := (c & 0xaaaa5555) | ((c & 0x0000aaaa) << 15) | ((c & 0x55550000) >> 15);
    d := (d & 0xaaaa5555) | ((d & 0x0000aaaa) << 15) | ((d & 0x55550000) >> 15);

    p1, p9 := (a & 0xff) as bv8, ((a >> 8) & 0xff) as bv8;
    p0, p8 := ((a >> 16) & 0xff) as bv8, ((a >> 24) & 0xff) as bv8;
    p3, p11 := (b & 0xff) as bv8, ((b >> 8) & 0xff) as bv8;
    p2, p10 := ((b >> 16) & 0xff) as bv8, ((b >> 24) & 0xff) as bv8;
    p5, p13 := (c & 0xff) as bv8, ((c >> 8) & 0xff) as bv8;
    p4, p12 := ((c >> 16) & 0xff) as bv8, ((c >> 24) & 0xff) as bv8;
    p7, p15 := (d & 0xff) as bv8, ((d >> 8) & 0xff) as bv8;
    p6, p14 := ((d >> 16) & 0xff) as bv8, ((d >> 24) & 0xff) as bv8;

    AllPixels(planes.w0); AllPixels(planes.w1); AllPixels(planes.w2); AllPixels(planes.w3);
    AllPixels(planes.w4); AllPixels(planes.w5); AllPixels(planes.w6); AllPixels(planes.w7);
    ColourBits(p0); ColourBits(p1); ColourBits(p2); ColourBits(p3);
    ColourBits(p4); ColourBits(p5); ColourBits(p6); ColourBits(p7);
    ColourBits(p8); ColourBits(p9); ColourBits(p10); ColourBits(p11);
    ColourBits(p12); ColourBits(p13); ColourBits(p14); ColourBits(p15);
  }

  lemma SwapTwice(w: bv16)
    ensures Swap(Swap(w)) == w
  {
  }

  /** Pixel j of two words of a plane as the host finds them in the screen memory. */
  predicate RowPixel(first: bv16, second: bv16, j: nat) {
    if j < 16 then Pixel(Swap(first), j) else Pixel(Swap(second), j - 16)
  }

  /** A word of a plane moved left by a number of pixels and filled from the plane's next word. */
  ghost predicate Scrolled(r: bv16, first: bv16, second: bv16, shift: nat) {
    forall i | 0 <= i < 16 :: Pixel(Swap(r), i) == RowPixel(first, second, i + shift)
  }

  lemma ScrolledPixel(first: bv16, second: bv16, shift: nat, i: nat)
    requires shift < 16 && i < 16
    ensures Pixel(HighWord(ShiftLeft(Join(first, second), shift)), i) ==
            if i + shift < 16 then Pixel(first, i + shift) else Pixel(second, i + shift - 16)
  {
    var x := Join(first, second);
    var y := ShiftLeft(x, shift);
    JoinedHalves(y);
    JoinPixel(HighWord(y), LowWord(y), i);
    ShiftedPixel(x, shift, i);
    JoinPixel(first, second, i + shift);
  }

  method ScrollWord(first: bv16, second: bv16, shift: nat) returns (r: bv16)
    requires shift < 16
    ensures Scrolled(r, first, second, shift)
  {
    var high := HighWord(ShiftLeft(Join(Swap(first), Swap(second)), shift));
    r := Swap(high);
    SwapTwice(high);
    forall i | 0 <= i < 16
      ensures Pixel(high, i) == RowPixel(first, second, i + shift)
    {
      ScrolledPixel(Swap(first), Swap(second), shift, i);
    }
  }

  method Scroll(data: array<bv16>, bpp: nat, shift: nat, scrolled: array<bv16>)
    requires shift < 16 && bpp <= 8 && scrolled.Length == 8 && data.Length >= 2 * bpp && data != scrolled
    modifies scrolled
    ensures forall p | 0 <= p < bpp :: Scrolled(scrolled[p], data[p], data[p + bpp], shift)
  {
    for k := 0 to bpp
      invariant forall p | 0 <= p < k :: Scrolled(scrolled[p], data[p], data[p + bpp], shift)
    {
      scrolled[k] := ScrollWord(data[k], data[k + bpp], shift);
    }
  }

  /** The number of planes the conversion reads: 8, 4 or 2, and otherwise 1. */
  function UsedPlanes(bpp: nat): nat {
    if bpp == 8 || bpp == 4 || bpp == 2 then bpp else 1
  }

  /** Word p of the source, zero beyond the used planes. */
  function Word(source: seq<bv16>, bpp: nat, p: nat): bv16
    requires |source| >= UsedPlanes(bpp)
  {
    if p < UsedPlanes(bpp) then source[p] else 0
  }

  function PlanesOf(source: seq<bv16>, bpp: nat): Planes
    requires |source| >= UsedPlanes(bpp)
  {
    Planes(Swap(Word(source, bpp, 0)), Swap(Word(source, bpp, 1)), Swap(Word(source, bpp, 2)),
           Swap(Word(source, bpp, 3)), Swap(Word(source, bpp, 4)), Swap(Word(source, bpp, 5)),
           Swap(Word(source, bpp, 6)), Swap(Word(source, bpp, 7)))
  }

  /** Two words as a little-endian host reads them in one access. */
  function Pair(low: bv16, high: bv16): bv32 {
    (low as bv32) | ((high as bv32) << 16)
  }

  lemma PairOfPlanes(low: bv16, high: bv16)
    ensures var l, h := Swap(low), Swap(high);
      Pair(low, high) == (((l << 8) | (l >> 8)) as bv32) | ((((h << 8) | (h >> 8)) as bv32) << 16)
  {
  }

  method Load(source: seq<bv16>, bpp: nat) returns (a: bv32, b: bv32, c: bv32, d: bv32)
    requires |source| >= UsedPlanes(bpp)
    ensures a == Pair(Word(source, bpp, 6), Word(source, bpp, 7))
    ensures b == Pair(Word(source, bpp, 4), Word(source, bpp, 5))
    ensures c == Pair(Word(source, bpp, 2), Word(source, bpp, 3))
    ensures d == Pair(Word(source, bpp, 0), Word(source, bpp, 1))
  {
    a, b, c, d := 0, 0, 0, 0;
    match bpp
    case 8 =>
      d := Pair(source[0], source[1]);
      c := Pair(source[2], source[3]);
      b := Pair(source[4], source[5]);
      a := Pair(source[6], source[7]);
    case 4 =>
      d := Pair(source[0], source[1]);
      c := Pair(source[2], source[3]);
    case 2 =>
      d := Pair(source[0], source[1]);
    case _ =>
      d := source[0] as bv32;
  }

  /** Eight neighbouring colours are written. */
  method Store(colours: array<bv8>, k: nat, p0: bv8, p1: bv8, p2: bv8, p3: bv8, p4: bv8, p5: bv8, p6: bv8, p7: bv8,
               ghost planes: Planes)
    requires k + 8 <= colours.Length
    requires Spelled(p0, planes, k) && Spelled(p1, planes, k + 1) && Spelled(p2, planes, k + 2)
    requires Spelled(p3, planes, k + 3) && Spelled(p4, planes, k + 4) && Spelled(p5, planes, k + 5)
    requires Spelled(p6, planes, k + 6) && Spelled(p7, planes, k + 7)
    modifies colours
    ensures forall i | k <= i < k + 8 :: Spelled(colours[i], planes, i)
    ensures forall i | 0 <= i < k :: colours[i] == old(colours[i])
  {
    colours[k], colours[k + 1], colours[k + 2], colours[k + 3] := p0, p1, p2, p3;
    colours[k + 4], colours[k + 5], colours[k + 6], colours[k + 7] := p4, p5, p6, p7;
  }

  /** The network applied to the plane words of the source. */
  method Convert(source: seq<bv16>, bpp: nat, colours: array<bv8>)
    requires |source| >= UsedPlanes(bpp) && colours.Length == 16
    modifies colours
    ensures forall i | 0 <= i < 16 :: Spelled(colours[i], PlanesOf(source, bpp), i)
  {
    var a, b, c, d := Load(source, bpp);
    ghost var planes := PlanesOf(source, bpp);
    PairOfPlanes(Word(source, bpp, 0), Word(source, bpp, 1));
    PairOfPlanes(Word(source, bpp, 2), Word(source, bpp, 3));
    PairOfPlanes(Word(source, bpp, 4), Word(source, bpp, 5));
    PairOfPlanes(Word(source, bpp, 6), Word(source, bpp, 7));
    var p0, p1, p2, p3, p4, p5, p6, p7,
        p8, p9, p10, p11, p12, p13, p14, p15 := Transpose(a, b, c, d, planes);
    Store(colours, 0, p0, p1, p2, p3, p4, p5, p6, p7, planes);
    Store(colours, 8, p8, p9, p10, p11, p12, p13, p14, p15, planes);
  }

  lemma {:induction false} NoPixel(i: nat)
    ensures !Pixel(0, i)
  {
    if i > 0 {
      NoPixel(i - 1);
    }
  }

  /** A colour spelled by the planes of the source, read plane by plane. */
  lemma SpelledByPlane(colour: bv8, source: seq<bv16>, bpp: nat, i: nat, p: nat)
    requires |source| >= UsedPlanes(bpp) && p < 8 && Spelled(colour, PlanesOf(source, bpp), i)
    ensures ColourBit(colour, p) == (p < UsedPlanes(bpp) && Pixel(Swap(source[p]), i))
  {
    NoPixel(i);
  }

  /** Pixel j of plane p in the screen words, from the left of the plane's first word: its words lie bpp apart. */
  predicate ScreenPixel(data: seq<bv16>, bpp: nat, p: nat, j: nat)
    requires p < |data| && (j < 16 || p + bpp < |data|)
    ensures ScreenPixel(data, bpp, p, j) <==>
            if j < 16 then Pixel(Swap(data[p]), j) else Pixel(Swap(data[p + bpp]), j - 16)
  {
    RowPixel(data[p], if j < 16 then 0 else data[p + bpp], j)
  }

  /**
   * bitplaneToChunky: bit p of the colour of pixel i is the bit of plane p that lies shift pixels to its right, and
   * zero in the planes beyond those of the mode, which are 8, 4, 2 or 1.
   */
  method BitplaneToChunky(data: array<bv16>, bpp: nat, colours: array<bv8>, shift: nat)
    requires 1 <= bpp <= 8 && shift < 16 && colours.Length == 16
    requires data.Length >= if shift == 0 then bpp else 2 * bpp
    modifies colours
    ensures forall i, p | 0 <= i < 16 && 0 <= p < 8 ::
      ColourBit(colours[i], p) ==
      ((p == 0 || (p < bpp && (bpp == 8 || bpp == 4 || bpp == 2))) && ScreenPixel(data[..], bpp, p, i + shift))
  {
    var source := data;
    if shift != 0 {
      source := new bv16[8];
      Scroll(data, bpp, shift, source);
    }
    Convert(source[..], bpp, colours);
    forall i, p | 0 <= i < 16 && 0 <= p < 8
      ensures ColourBit(colours[i], p) == (p < UsedPlanes(bpp) && ScreenPixel(data[..], bpp, p, i + shift))
    {
      SpelledByPlane(colours[i], source[..], bpp, i, p);
      if p < UsedPlanes(bpp) {
        if shift == 0 {
          assert Pixel(Swap(source[p]), i) == ScreenPixel(data[..], bpp, p, i);
        } else {
          assert Scrolled(source[p], data[p], data[p + bpp], shift);
          assert Pixel(Swap(source[p]), i) == RowPixel(data[p], data[p + bpp], i + shift);
        }
      }
    }
  }
}
