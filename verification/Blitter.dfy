/**
 * The blitter (src/blitter.cpp): the row routine behind all 128 combinations of half-tone operation, logic operation
 * and direction, with skew, end masks and the extra and missing source reads. Addresses and increments are in words.
 */
module Blitter {
  import opened Arith
  import opened Pixels

  /** The words of a line: a count of 0 acts like 1. */
  function Columns(xCount: nat): (n: nat)
    ensures n == Max(1, xCount)
  {
    if xCount < 2 then 1 else xCount
  }

  /** The registers that a program sets up and a blit leaves as they are. */
  datatype Registers = Registers(
    halftone: seq<bv16>, sourceX: int, sourceY: int, destX: int, destY: int, mask1: bv16, mask2: bv16, mask3: bv16,
    xCount: nat, hop: nat, op: nat, lineNumber: nat, skew: nat, fxsr: bool, nfsr: bool)
  {
    predicate Valid() {
      |halftone| == 16 && hop < 4 && op < 16 && lineNumber < 64 && skew < 16
    }

    /** The end mask for word k of a line. */
    function Mask(k: nat): bv16 {
      if k == 0 then mask1 else if k + 1 == Columns(xCount) then mask3 else mask2
    }
  }

  /** What word k of a line becomes, given the half-tone line, the last two source words and what was there. */
  type Draw = (nat, nat, bv16, bv16, bv16) -> bv16

  /** Where words are drawn: the registers that lead through the memory. */
  datatype Config = Config(sourceX: int, sourceY: int, destX: int, destY: int, xCount: nat, fxsr: bool, nfsr: bool,
                           fetches: bool, patterned: bool, draw: Draw)
  {
    /** The last word of a line of several is not read from the source. */
    predicate Skips(k: nat) {
      nfsr && k >= 1 && k + 1 == Width()
    }

    function Width(): nat {
      Columns(xCount)
    }
  }

  /** Memory, the moving registers, and the two source words in the source buffer, the older one first. */
  datatype State = State(mem: seq<bv16>, source: int, dest: int, prev: bv16, cur: bv16, offset: nat)

  const ADDRESSES := 0x8000_0000

  /** A 32-bit address register, counted in words, after an increment. */
  function Plus(a: int, inc: int): int {
    (a + inc) % ADDRESSES
  }

  /** Nothing answers outside the memory. */
  function Read(mem: seq<bv16>, a: int): bv16 {
    if 0 <= a < |mem| then mem[a] else 0
  }

  /** The word addresses the blitter may write: not the lowest 2 KiB, not the ROM and I/O area. */
  predicate Writable(a: int) {
    a > 0x400 && !(0x700000 <= a < 0x800000)
  }

  function Write(mem: seq<bv16>, a: int, v: bv16): (r: seq<bv16>)
    ensures |r| == |mem|
  {
    if Writable(a) && 0 <= a < |mem| then mem[a := v] else mem
  }

  /** The first eight logic operations: those that give 0 where both bits are 0. */
  function LowLogic(op: nat, s: bv16, d: bv16): bv16 {
    match op
    case 0 => 0
    case 1 => s & d
    case 2 => s & !d
    case 3 => s
    case 4 => !s & d
    case 5 => d
    case 6 => s ^ d
    case _ => s | d
  }

  function HighLogic(op: nat, s: bv16, d: bv16): bv16 {
    match op
    case 8 => !s & !d
    case 9 => !s ^ d
    case 10 => !d
    case 11 => s | !d
    case 12 => !s
    case 13 => !s | d
    case 14 => !s | !d
    case _ => 0xffff
  }

  function Logic(op: nat, s: bv16, d: bv16): bv16 {
    if op < 8 then LowLogic(op, s, d) else HighLogic(op, s, d)
  }

  predicate Bit(n: nat, k: nat) {
    if k == 0 then n % 2 == 1 else Bit(n / 2, k - 1)
  }

  /** The operation number is its own truth table. */
  predicate Truth(op: nat, s: bool, d: bool) {
    Bit(op, if s then if d then 0 else 1 else if d then 2 else 3)
  }

  lemma TruthTable(op: nat)
    requires op < 16
    ensures Truth(op, true, true) == (op % 2 == 1) && Truth(op, true, false) == (op / 2 % 2 == 1)
    ensures Truth(op, false, true) == (op / 4 % 2 == 1) && Truth(op, false, false) == (op >= 8)
  {
    assert Bit(op, 1) == Bit(op / 2, 0);
    assert Bit(op, 2) == Bit(op / 2, 1) == Bit(op / 2 / 2, 0);
    assert Bit(op, 3) == Bit(op / 2, 2) == Bit(op / 2 / 2, 1) == Bit(op / 2 / 2 / 2, 0);
  }

  lemma TruthIs(op: nat, s: bool, d: bool)
    requires op < 16
    ensures Truth(op, s, d) ==
      if s then (if d then op % 2 == 1 else op / 2 % 2 == 1) else if d then op / 4 % 2 == 1 else op / 8 % 2 == 1
  {
    TruthTable(op);
  }

  lemma LowLogicMasked(op: nat, s: bv16, d: bv16, m: bv16)
    requires op < 8 && m & (m - 1) == 0 && m != 0
    ensures (LowLogic(op, s, d) & m != 0) == Truth(op, s & m != 0, d & m != 0)
  {
    TruthTable(op);
    NotMasked(s, m);
    NotMasked(d, m);
    match op
    case 0 =>
    case 1 => AndMasked(s, d, m);
    case 2 => AndMasked(s, !d, m);
    case 3 =>
    case 4 => AndMasked(!s, d, m);
    case 5 =>
    case 6 => XorMasked(s, d, m);
    case _ => OrMasked(s, d, m);
  }

  lemma HighLogicMasked(op: nat, s: bv16, d: bv16, m: bv16)
    requires 8 <= op < 16 && m & (m - 1) == 0 && m != 0
    ensures (HighLogic(op, s, d) & m != 0) == Truth(op, s & m != 0, d & m != 0)
  {
    TruthTable(op);
    NotMasked(s, m);
    NotMasked(d, m);
    match op
    case 8 => AndMasked(!s, !d, m);
    case 9 => XorMasked(!s, d, m);
    case 10 =>
    case 11 => OrMasked(s, !d, m);
    case 12 =>
    case 13 => OrMasked(!s, d, m);
    case 14 => OrMasked(!s, !d, m);
    case _ =>
  }

  lemma LogicPixel(op: nat, s: bv16, d: bv16, i: nat)
    requires op < 16 && i < 16
    ensures Pixel(Logic(op, s, d), i) == Truth(op, Pixel(s, i), Pixel(d, i))
  {
    var m := MaskOf(i);
    PixelMask(s, i, m);
    PixelMask(d, i, m);
    PixelMask(Logic(op, s, d), i, m);
    if op < 8 {
      LowLogicMasked(op, s, d, m);
    } else {
      HighLogicMasked(op, s, d, m);
    }
  }

  /** New bits where the mask has ones, old bits elsewhere. */
  function Blend(was: bv16, drawn: bv16, mask: bv16): bv16 {
    (was & !mask) | (drawn & mask)
  }

  lemma BlendMasked(was: bv16, drawn: bv16, mask: bv16, m: bv16)
    requires m != 0 && m & (m - 1) == 0
    ensures (Blend(was, drawn, mask) & m != 0) == if mask & m != 0 then drawn & m != 0 else was & m != 0
  {
    OrMasked(was & !mask, drawn & mask, m);
    AndMasked(was, !mask, m);
    AndMasked(drawn, mask, m);
    NotMasked(mask, m);
  }

  lemma BlendPixel(was: bv16, drawn: bv16, mask: bv16, i: nat)
    requires i < 16
    ensures Pixel(Blend(was, drawn, mask), i) == if Pixel(mask, i) then Pixel(drawn, i) else Pixel(was, i)
  {
    var m := MaskOf(i);
    PixelMask(was, i, m);
    PixelMask(drawn, i, m);
    PixelMask(mask, i, m);
    PixelMask(Blend(was, drawn, mask), i, m);
    BlendMasked(was, drawn, mask, m);
  }

  /** The source words side by side in the order of the screen, moved right by the skew. */
  function Skewed(o: Registers, prev: bv16, cur: bv16): bv16 {
    LowWord(ShiftRight(if o.sourceX < 0 then Join(cur, prev) else Join(prev, cur), o.skew))
  }

  /** The row of source pixels, shifted right by the skew: its first pixels come from the neighbouring word. */
  lemma SkewedPixel(o: Registers, prev: bv16, cur: bv16, i: nat)
    requires o.skew < 16 && i < 16
    ensures var left, right := if o.sourceX < 0 then cur else prev, if o.sourceX < 0 then prev else cur;
      Pixel(Skewed(o, prev, cur), i) ==
      if i < o.skew then Pixel(left, 16 + i - o.skew) else Pixel(right, i - o.skew)
  {
    if o.sourceX < 0 {
      MovedRight(cur, prev, o.skew, i);
    } else {
      MovedRight(prev, cur, o.skew, i);
    }
  }

  /** The word a blit combines with the destination. */
  function Operand(o: Registers, offset: nat, skewed: bv16): bv16
    requires o.Valid()
  {
    match o.hop
    case 0 => 0xffff
    case 1 => o.halftone[offset % 16]
    case 2 => skewed
    case _ => skewed & o.halftone[offset % 16]
  }

  /** What word k of a line becomes. */
  function Drawn(o: Registers, k: nat, offset: nat, prev: bv16, cur: bv16, was: bv16): bv16
    requires o.Valid()
  {
    Blend(was, Logic(o.op, Operand(o, offset, Skewed(o, prev, cur)), was), o.Mask(k))
  }

  /** The source buffer takes in a word; the first two half-tone operations read nothing. */
  function Fetch(c: Config, s: State): State {
    s.(prev := s.cur, cur := if c.fetches then Read(s.mem, s.source) else 0)
  }

  function Put(c: Config, s: State, k: nat): State
  {
    s.(mem := Write(s.mem, s.dest, c.draw(k, s.offset, s.prev, s.cur, Read(s.mem, s.dest))))
  }

  function Extra(c: Config, s: State): State {
    if c.fxsr then var f := Fetch(c, s); f.(source := Plus(f.source, c.sourceX)) else s
  }

  /** The first word of a line. */
  function First(c: Config, s: State): State
  {
    Put(c, Fetch(c, Extra(c, s)), 0)
  }

  /** Word k of a line, k > 0. */
  function Next(c: Config, s: State, k: nat): State
  {
    var moved := s.(dest := Plus(s.dest, c.destX));
    Put(c, if c.Skips(k) then moved.(prev := s.cur, cur := 0)
           else Fetch(c, moved.(source := Plus(s.source, c.sourceX))), k)
  }

  /** The line after its first k words. */
  function Words(c: Config, s: State, k: nat): State
    requires k >= 1
  {
    if k == 1 then First(c, s) else Next(c, Words(c, s, k - 1), k - 1)
  }

  function NextOffset(c: Config, offset: nat): nat {
    if c.patterned then (offset + if c.destY >= 0 then 1 else 15) % 16 else offset
  }

  function EndLine(c: Config, s: State): State {
    s.(source := Plus(s.source, c.sourceY), dest := Plus(s.dest, c.destY), offset := NextOffset(c, s.offset))
  }

  function Line(c: Config, s: State): State
  {
    EndLine(c, Words(c, s, c.Width()))
  }

  function Lines(c: Config, s: State, n: nat): State
  {
    if n == 0 then s else Line(c, Lines(c, s, n - 1))
  }

  // What a line draws, word by word.

  /** A register after n increments. */
  function Advanced(a: int, n: nat, inc: int): int {
    if n == 0 then a else Plus(Advanced(a, n - 1, inc), inc)
  }

  /** Increments add up modulo the address range. */
  lemma PlusIs(a: int, b: int, inc: int)
    requires a % ADDRESSES == b % ADDRESSES
    ensures 0 <= Plus(a, inc) == (b + inc) % ADDRESSES == Plus(a, inc) % ADDRESSES
  {
    AddMod(a, inc, ADDRESSES);
    AddMod(b, inc, ADDRESSES);
    AddMod(b + inc, 0, ADDRESSES);
  }

  lemma {:induction false} AdvancedIs(a: int, n: nat, inc: int)
    ensures Advanced(a, n, inc) % ADDRESSES == (a + n * inc) % ADDRESSES
  {
    if n > 0 {
      AdvancedIs(a, n - 1, inc);
      Distribute(n - 1, inc);
      PlusIs(Advanced(a, n - 1, inc), a + (n - 1) * inc, inc);
    }
  }

  /** The address of word k of a line. */
  function Dest(c: Config, d: int, k: nat): int {
    Advanced(d, k, c.destX)
  }

  /** The address of the i-th source word of a line, the extra one included. */
  function Source(c: Config, a: int, i: nat): int {
    Advanced(a, i, c.sourceX)
  }

  function Extras(c: Config): nat {
    if c.fxsr then 1 else 0
  }

  /** The source word that goes with word k of a line that starts at a. */
  function Current(c: Config, mem: seq<bv16>, a: int, k: nat): bv16 {
    if !c.fetches || c.Skips(k) then 0 else Read(mem, Source(c, a, Extras(c) + k))
  }

  /** The source word before it: from the line, from the extra read, or what the last line left. */
  function Previous(c: Config, mem: seq<bv16>, a: int, carried: bv16, k: nat): bv16 {
    if k > 0 then Current(c, mem, a, k - 1)
    else if !c.fxsr then carried
    else if !c.fetches then 0 else Read(mem, a)
  }

  /** What a write of v at a leaves there. */
  function Written(mem: seq<bv16>, a: int, v: bv16): bv16 {
    if Writable(a) && 0 <= a < |mem| then v else Read(mem, a)
  }

  /** The second memory holds the values at the addresses and is otherwise the first. */
  ghost predicate Painted(was: seq<bv16>, dests: seq<int>, values: seq<bv16>, mem: seq<bv16>) {
    && |mem| == |was| && |values| == |dests|
    && (forall j | 0 <= j < |dests| :: Read(mem, dests[j]) == values[j])
    && (forall a | a !in dests :: Read(mem, a) == Read(was, a))
  }

  lemma PaintOne(was: seq<bv16>, dests: seq<int>, values: seq<bv16>, mem: seq<bv16>, d: int, v: bv16)
    requires Painted(was, dests, values, mem) && d !in dests
    ensures Painted(was, dests + [d], values + [Written(was, d, v)], Write(mem, d, v))
  {
  }

  /** What word k of a line becomes, by the state at the start of the line. */
  function Result(c: Config, s: State, k: nat): bv16
  {
    var d := Dest(c, s.dest, k);
    Written(s.mem, d, c.draw(k, s.offset, Previous(c, s.mem, s.source, s.cur, k),
                            Current(c, s.mem, s.source, k), Read(s.mem, d)))
  }

  function LineDests(c: Config, d: int, k: nat): seq<int> {
    if k == 0 then [] else LineDests(c, d, k - 1) + [Dest(c, d, k - 1)]
  }

  function LineResults(c: Config, s: State, k: nat): seq<bv16>
  {
    if k == 0 then [] else LineResults(c, s, k - 1) + [Result(c, s, k - 1)]
  }

  /** The source words a line passes over after its first. */
  function Passed(c: Config): nat {
    Extras(c) + c.Width() - 1 - if c.Skips(c.Width() - 1) then 1 else 0
  }

  /** The words of a line are apart from each other, and none is drawn before it is read as a source word. */
  ghost predicate LineApart(c: Config, s: State) {
    && (forall j, k | 0 <= j < k < c.Width() :: Dest(c, s.dest, j) != Dest(c, s.dest, k))
    && (c.fetches ==>
          forall i, k | 0 <= k && k + Extras(c) < i <= Passed(c) :: Source(c, s.source, i) != Dest(c, s.dest, k))
  }

  lemma {:induction false} NotADest(c: Config, d: int, k: nat, a: int)
    requires forall j | 0 <= j < k :: Dest(c, d, j) != a
    ensures a !in LineDests(c, d, k)
  {
    if k > 0 {
      NotADest(c, d, k - 1, a);
    }
  }

  lemma FirstRegisters(c: Config, s: State)
    ensures var t := First(c, s);
      && |t.mem| == |s.mem| && t.dest == s.dest && t.offset == s.offset && t.source == Source(c, s.source, Extras(c))
  {
    assert Source(c, s.source, 1) == Plus(Source(c, s.source, 0), c.sourceX);
  }

  lemma NextRegisters(c: Config, s: State, k: nat)
    ensures var t := Next(c, s, k);
      && |t.mem| == |s.mem| && t.dest == Plus(s.dest, c.destX) && t.offset == s.offset
      && t.source == if c.Skips(k) then s.source else Plus(s.source, c.sourceX)
  {
  }

  lemma {:induction false} WordRegisters(c: Config, s: State, k: nat)
    requires 1 <= k <= c.Width()
    ensures var t := Words(c, s, k);
      && |t.mem| == |s.mem| && t.dest == Dest(c, s.dest, k - 1) && t.offset == s.offset
      && t.source == Source(c, s.source, Extras(c) + k - 1 - if c.Skips(k - 1) then 1 else 0)
    decreases k
  {
    if k == 1 {
      FirstRegisters(c, s);
    } else {
      WordRegisters(c, s, k - 1);
      NextRegisters(c, Words(c, s, k - 1), k - 1);
    }
  }

  /** The state after k words of a line. */
  ghost predicate After(c: Config, s: State, k: nat, t: State)
    requires k >= 1
  {
    && t.dest == Dest(c, s.dest, k - 1) && t.offset == s.offset
    && t.source == Source(c, s.source, Extras(c) + k - 1 - if c.Skips(k - 1) then 1 else 0)
    && t.prev == Previous(c, s.mem, s.source, s.cur, k - 1) && t.cur == Current(c, s.mem, s.source, k - 1)
    && Painted(s.mem, LineDests(c, s.dest, k), LineResults(c, s, k), t.mem)
  }

  lemma FirstBuffer(c: Config, s: State)
    ensures var u := First(c, s);
      && u.prev == Previous(c, s.mem, s.source, s.cur, 0) && u.cur == Current(c, s.mem, s.source, 0)
      && u.mem == Write(s.mem, s.dest, c.draw(0, s.offset, u.prev, u.cur, Read(s.mem, s.dest)))
  {
    assert Source(c, s.source, 0) == s.source;
    assert Source(c, s.source, 1) == Plus(s.source, c.sourceX);
    assert !c.Skips(0);
  }

  lemma FirstAfter(c: Config, s: State, u: State)
    requires u.dest == s.dest && u.offset == s.offset && u.source == Source(c, s.source, Extras(c))
    requires u.prev == Previous(c, s.mem, s.source, s.cur, 0) && u.cur == Current(c, s.mem, s.source, 0)
    requires u.mem == Write(s.mem, s.dest, c.draw(0, s.offset, u.prev, u.cur, Read(s.mem, s.dest)))
    ensures After(c, s, 1, u)
  {
    var v := c.draw(0, s.offset, u.prev, u.cur, Read(s.mem, s.dest));
    PaintOne(s.mem, [], [], s.mem, s.dest, v);
    assert LineDests(c, s.dest, 1) == LineDests(c, s.dest, 0) + [Dest(c, s.dest, 0)] == [] + [s.dest];
    assert Result(c, s, 0) == Written(s.mem, s.dest, v);
    assert LineResults(c, s, 1) == LineResults(c, s, 0) + [Result(c, s, 0)] == [] + [Written(s.mem, s.dest, v)];
  }

  lemma FirstDraws(c: Config, s: State)
    ensures After(c, s, 1, First(c, s))
  {
    FirstRegisters(c, s);
    FirstBuffer(c, s);
    FirstAfter(c, s, First(c, s));
  }

  /** Words not yet drawn, and all source words, still read as at the start of the line. */
  lemma StillThere(c: Config, s: State, k: nat, t: State)
    requires 1 <= k < c.Width() && LineApart(c, s) && After(c, s, k, t)
    ensures Dest(c, s.dest, k) !in LineDests(c, s.dest, k)
    ensures Read(t.mem, Dest(c, s.dest, k)) == Read(s.mem, Dest(c, s.dest, k))
    ensures c.fetches && !c.Skips(k) ==>
      Read(t.mem, Source(c, s.source, Extras(c) + k)) == Read(s.mem, Source(c, s.source, Extras(c) + k))
  {
    NotADest(c, s.dest, k, Dest(c, s.dest, k));
    if c.fetches && !c.Skips(k) {
      NotADest(c, s.dest, k, Source(c, s.source, Extras(c) + k));
    }
  }

  /** The source words in the buffer for word k. */
  lemma NextBuffer(c: Config, s: State, k: nat, t: State)
    requires 1 <= k < c.Width() && LineApart(c, s) && After(c, s, k, t)
    ensures var u := Next(c, t, k);
      u.prev == Previous(c, s.mem, s.source, s.cur, k) && u.cur == Current(c, s.mem, s.source, k)
  {
    StillThere(c, s, k, t);
    assert !c.Skips(k - 1);
    assert Source(c, s.source, Extras(c) + k) == Plus(t.source, c.sourceX);
  }

  lemma NextWrites(c: Config, s: State, k: nat)
    ensures var u, d := Next(c, s, k), Plus(s.dest, c.destX);
      u.mem == Write(s.mem, d, c.draw(k, s.offset, u.prev, u.cur, Read(s.mem, d)))
  {
  }

  lemma NextPaints(c: Config, s: State, k: nat, t: State, mem: seq<bv16>)
    requires 1 <= k < c.Width() && LineApart(c, s) && After(c, s, k, t)
    requires var d := Dest(c, s.dest, k);
      mem == Write(t.mem, d, c.draw(k, s.offset, Previous(c, s.mem, s.source, s.cur, k),
                                   Current(c, s.mem, s.source, k), Read(s.mem, d)))
    ensures Painted(s.mem, LineDests(c, s.dest, k + 1), LineResults(c, s, k + 1), mem)
  {
    StillThere(c, s, k, t);
    var d := Dest(c, s.dest, k);
    var v := c.draw(k, s.offset, Previous(c, s.mem, s.source, s.cur, k), Current(c, s.mem, s.source, k),
                   Read(s.mem, d));
    PaintOne(s.mem, LineDests(c, s.dest, k), LineResults(c, s, k), t.mem, d, v);
  }

  lemma NextAfter(c: Config, s: State, k: nat, t: State, u: State)
    requires 1 <= k < c.Width() && LineApart(c, s) && After(c, s, k, t)
    requires u.dest == Plus(t.dest, c.destX) && u.offset == t.offset
    requires u.source == if c.Skips(k) then t.source else Plus(t.source, c.sourceX)
    requires u.prev == Previous(c, s.mem, s.source, s.cur, k) && u.cur == Current(c, s.mem, s.source, k)
    requires u.mem == Write(t.mem, u.dest, c.draw(k, t.offset, u.prev, u.cur, Read(t.mem, u.dest)))
    ensures After(c, s, k + 1, u)
  {
    StillThere(c, s, k, t);
    assert u.dest == Dest(c, s.dest, k);
    NextPaints(c, s, k, t, u.mem);
  }

  lemma NextDraws(c: Config, s: State, k: nat, t: State)
    requires 2 <= k <= c.Width() && LineApart(c, s) && After(c, s, k - 1, t)
    ensures After(c, s, k, Next(c, t, k - 1))
  {
    NextRegisters(c, t, k - 1);
    NextBuffer(c, s, k - 1, t);
    NextWrites(c, t, k - 1);
    NextAfter(c, s, k - 1, t, Next(c, t, k - 1));
  }

  lemma {:induction false} WordsDraw(c: Config, s: State, k: nat)
    requires 1 <= k <= c.Width() && LineApart(c, s)
    ensures After(c, s, k, Words(c, s, k))
    decreases k
  {
    if k == 1 {
      FirstDraws(c, s);
    } else {
      WordsDraw(c, s, k - 1);
      NextDraws(c, s, k, Words(c, s, k - 1));
    }
  }

  // A whole blit.

  function LineSource(c: Config, a: int, y: nat): int {
    if y == 0 then a else Plus(Source(c, LineSource(c, a, y - 1), Passed(c)), c.sourceY)
  }

  function LineDest(c: Config, d: int, y: nat): int {
    if y == 0 then d else Plus(Dest(c, LineDest(c, d, y - 1), c.Width() - 1), c.destY)
  }

  /** A line further: n increments along it and one to the next. */
  lemma OneLine(a: int, b: int, n: nat, inc: int, step: int)
    requires a % ADDRESSES == b % ADDRESSES
    ensures Plus(Advanced(a, n, inc), step) == (b + (n * inc + step)) % ADDRESSES
  {
    AdvancedIs(a, n, inc);
    AddMod(a, n * inc, ADDRESSES);
    AddMod(b, n * inc, ADDRESSES);
    PlusIs(Advanced(a, n, inc), b + n * inc, step);
  }

  lemma {:induction false} LineAddresses(c: Config, a: int, d: int, y: nat)
    ensures LineSource(c, a, y) % ADDRESSES == (a + y * (Passed(c) * c.sourceX + c.sourceY)) % ADDRESSES
    ensures LineDest(c, d, y) % ADDRESSES == (d + y * ((c.Width() - 1) * c.destX + c.destY)) % ADDRESSES
  {
    if y > 0 {
      var source, dest := Passed(c) * c.sourceX + c.sourceY, (c.Width() - 1) * c.destX + c.destY;
      LineAddresses(c, a, d, y - 1);
      OneLine(LineSource(c, a, y - 1), a + (y - 1) * source, Passed(c), c.sourceX, c.sourceY);
      OneLine(LineDest(c, d, y - 1), d + (y - 1) * dest, c.Width() - 1, c.destX, c.destY);
      Distribute(y - 1, source);
      Distribute(y - 1, dest);
      assert LineSource(c, a, y) == (a + y * source) % ADDRESSES && LineDest(c, d, y) == (d + y * dest) % ADDRESSES;
      AddMod(a + y * source, 0, ADDRESSES);
      AddMod(d + y * dest, 0, ADDRESSES);
    }
  }

  function OffsetAt(c: Config, offset: nat, y: nat): nat {
    if y == 0 then offset else NextOffset(c, OffsetAt(c, offset, y - 1))
  }

  /** The source word that line y finds in the buffer: the last one of the line before. */
  function Carried(c: Config, s: State, y: nat): bv16 {
    if y == 0 then s.cur else Current(c, s.mem, LineSource(c, s.source, y - 1), c.Width() - 1)
  }

  /** Line y on the memory before the blit. */
  function Start(c: Config, s: State, y: nat): State {
    State(s.mem, LineSource(c, s.source, y), LineDest(c, s.dest, y), 0, Carried(c, s, y), OffsetAt(c, s.offset, y))
  }

  /** The address of word k of line y. */
  function At(c: Config, s: State, y: nat, k: nat): int {
    Dest(c, LineDest(c, s.dest, y), k)
  }

  /** No destination word is drawn twice, and none is drawn before it is read as a source. */
  ghost predicate Apart(c: Config, s: State, n: nat) {
    && (forall y | 0 <= y < n :: LineApart(c, Start(c, s, y)))
    && (forall y, z, j, k | 0 <= y < z < n && 0 <= j < c.Width() && 0 <= k < c.Width() ::
          At(c, s, y, j) != At(c, s, z, k))
    && (c.fetches ==>
          forall y, z, j, i | 0 <= y < z < n && 0 <= j < c.Width() && 0 <= i <= Passed(c) ::
            At(c, s, y, j) != Source(c, LineSource(c, s.source, z), i))
  }

  ghost predicate Outside(c: Config, s: State, n: nat, a: int) {
    forall y, k | 0 <= y < n && 0 <= k < c.Width() :: At(c, s, y, k) != a
  }

  ghost predicate Blitted(c: Config, s: State, n: nat, mem: seq<bv16>)
  {
    && |mem| == |s.mem|
    && (forall y, k | 0 <= y < n && 0 <= k < c.Width() :: Read(mem, At(c, s, y, k)) == Result(c, Start(c, s, y), k))
    && (forall a | Outside(c, s, n, a) :: Read(mem, a) == Read(s.mem, a))
  }

  lemma {:induction false} LineEntries(c: Config, s: State, k: nat, j: nat)
    requires j < k
    ensures |LineDests(c, s.dest, k)| == |LineResults(c, s, k)| == k
    ensures LineDests(c, s.dest, k)[j] == Dest(c, s.dest, j) && LineResults(c, s, k)[j] == Result(c, s, j)
    decreases k
  {
    if j < k - 1 {
      LineEntries(c, s, k - 1, j);
    } else if k > 1 {
      LineEntries(c, s, k - 1, 0);
    }
  }

  /** Two lines that read the same words draw the same. */
  lemma SameResult(c: Config, s: State, t: State, k: nat)
    requires k < c.Width()
    requires s.source == t.source && s.dest == t.dest && s.cur == t.cur && s.offset == t.offset && |s.mem| == |t.mem|
    requires Read(s.mem, Dest(c, s.dest, k)) == Read(t.mem, Dest(c, s.dest, k))
    requires c.fetches ==>
      forall i | 0 <= i <= Passed(c) :: Read(s.mem, Source(c, s.source, i)) == Read(t.mem, Source(c, s.source, i))
    ensures Result(c, s, k) == Result(c, t, k)
  {
    assert Source(c, s.source, 0) == s.source;
    assert Current(c, s.mem, s.source, k) == Current(c, t.mem, s.source, k);
    assert Previous(c, s.mem, s.source, s.cur, k) == Previous(c, t.mem, s.source, s.cur, k);
  }

  /** A drawn line, word by word. */
  lemma LineWords(c: Config, s: State, t: State)
    requires Painted(s.mem, LineDests(c, s.dest, c.Width()), LineResults(c, s, c.Width()), t.mem)
    ensures forall k | 0 <= k < c.Width() :: Read(t.mem, Dest(c, s.dest, k)) == Result(c, s, k)
    ensures forall a | (forall k | 0 <= k < c.Width() :: Dest(c, s.dest, k) != a) :: Read(t.mem, a) == Read(s.mem, a)
  {
    forall k | 0 <= k < c.Width()
      ensures Read(t.mem, Dest(c, s.dest, k)) == Result(c, s, k)
    {
      LineEntries(c, s, c.Width(), k);
    }
    forall a | forall k | 0 <= k < c.Width() :: Dest(c, s.dest, k) != a
      ensures Read(t.mem, a) == Read(s.mem, a)
    {
      NotADest(c, s.dest, c.Width(), a);
    }
  }

  /** The state between two lines: the registers of line n, over a memory in which the lines before are drawn. */
  ghost predicate Between(c: Config, s: State, n: nat, t: State)
  {
    && t.source == LineSource(c, s.source, n) && t.dest == LineDest(c, s.dest, n)
    && t.cur == Carried(c, s, n) && t.offset == OffsetAt(c, s.offset, n)
    && Blitted(c, s, n, t.mem)
  }

  /** Line n reads what the memory held before the blit. */
  lemma LineReads(c: Config, s: State, n: nat, t: State)
    requires Apart(c, s, n + 1) && Between(c, s, n, t)
    ensures LineApart(c, t)
    ensures forall k | 0 <= k < c.Width() :: Read(t.mem, Dest(c, t.dest, k)) == Read(s.mem, Dest(c, t.dest, k))
    ensures c.fetches ==>
      forall i | 0 <= i <= Passed(c) :: Read(t.mem, Source(c, t.source, i)) == Read(s.mem, Source(c, t.source, i))
  {
    assert LineApart(c, Start(c, s, n));
    forall k | 0 <= k < c.Width()
      ensures Read(t.mem, Dest(c, t.dest, k)) == Read(s.mem, Dest(c, t.dest, k))
    {
      assert At(c, s, n, k) == Dest(c, t.dest, k);
      assert Outside(c, s, n, Dest(c, t.dest, k));
    }
    if c.fetches {
      forall i | 0 <= i <= Passed(c)
        ensures Read(t.mem, Source(c, t.source, i)) == Read(s.mem, Source(c, t.source, i))
      {
        assert Outside(c, s, n, Source(c, t.source, i));
      }
    }
  }

  lemma LineResultsFromStart(c: Config, s: State, n: nat, t: State, k: nat)
    requires Apart(c, s, n + 1) && Between(c, s, n, t) && k < c.Width()
    ensures Result(c, t, k) == Result(c, Start(c, s, n), k)
  {
    LineReads(c, s, n, t);
    SameResult(c, t, Start(c, s, n), k);
  }

  lemma LineCarries(c: Config, s: State, n: nat, t: State)
    requires Apart(c, s, n + 1) && Between(c, s, n, t)
    ensures Current(c, t.mem, t.source, c.Width() - 1) == Current(c, s.mem, t.source, c.Width() - 1)
  {
    if c.fetches && !c.Skips(c.Width() - 1) {
      LineReads(c, s, n, t);
      var i := Extras(c) + c.Width() - 1;
      assert Read(t.mem, Source(c, t.source, i)) == Read(s.mem, Source(c, t.source, i));
    }
  }

  lemma LineBlits(c: Config, s: State, n: nat, t: State, u: State)
    requires Apart(c, s, n + 1) && Between(c, s, n, t)
    requires forall k | 0 <= k < c.Width() :: Read(u.mem, Dest(c, t.dest, k)) == Result(c, t, k)
    requires forall a | (forall k | 0 <= k < c.Width() :: Dest(c, t.dest, k) != a) :: Read(u.mem, a) == Read(t.mem, a)
    requires |u.mem| == |t.mem|
    ensures Blitted(c, s, n + 1, u.mem)
  {
    forall y, k | 0 <= y < n + 1 && 0 <= k < c.Width()
      ensures Read(u.mem, At(c, s, y, k)) == Result(c, Start(c, s, y), k)
    {
      if y == n {
        LineResultsFromStart(c, s, n, t, k);
        assert At(c, s, n, k) == Dest(c, t.dest, k);
      } else {
        forall j | 0 <= j < c.Width() ensures Dest(c, t.dest, j) != At(c, s, y, k) {
          assert At(c, s, n, j) == Dest(c, t.dest, j);
        }
      }
    }
    forall a | Outside(c, s, n + 1, a)
      ensures Read(u.mem, a) == Read(s.mem, a)
    {
      assert Outside(c, s, n, a);
      forall j | 0 <= j < c.Width() ensures Dest(c, t.dest, j) != a {
        assert At(c, s, n, j) == Dest(c, t.dest, j);
      }
    }
  }

  lemma LineRegisters(c: Config, s: State, n: nat, t: State, u: State)
    requires Apart(c, s, n + 1) && Between(c, s, n, t) && After(c, t, c.Width(), u)
    ensures var v := EndLine(c, u);
      && v.source == LineSource(c, s.source, n + 1) && v.dest == LineDest(c, s.dest, n + 1)
      && v.cur == Carried(c, s, n + 1) && v.offset == OffsetAt(c, s.offset, n + 1)
  {
    LineCarries(c, s, n, t);
  }

  lemma LineMemory(c: Config, s: State, n: nat, t: State, u: State)
    requires Apart(c, s, n + 1) && Between(c, s, n, t) && After(c, t, c.Width(), u)
    ensures Blitted(c, s, n + 1, u.mem)
  {
    LineWords(c, t, u);
    LineBlits(c, s, n, t, u);
  }

  lemma LineBetween(c: Config, s: State, n: nat, t: State, u: State)
    requires Apart(c, s, n + 1) && Between(c, s, n, t) && After(c, t, c.Width(), u)
    ensures Between(c, s, n + 1, EndLine(c, u))
  {
    LineRegisters(c, s, n, t, u);
    LineMemory(c, s, n, t, u);
  }

  lemma LineDraws(c: Config, s: State, n: nat, t: State)
    requires Apart(c, s, n + 1) && Between(c, s, n, t)
    ensures Between(c, s, n + 1, Line(c, t))
  {
    LineReads(c, s, n, t);
    WordsDraw(c, t, c.Width());
    LineBetween(c, s, n, t, Words(c, t, c.Width()));
  }

  /** On words that are apart, a blit draws every word of every line from the memory before the blit. */
  lemma {:induction false} BlitDraws(c: Config, s: State, n: nat)
    requires Apart(c, s, n)
    ensures Between(c, s, n, Lines(c, s, n))
  {
    if n > 0 {
      BlitDraws(c, s, n - 1);
      LineDraws(c, s, n - 1, Lines(c, s, n - 1));
    }
  }

  lemma {:induction false} LinesRegisters(c: Config, s: State, n: nat)
    ensures var t := Lines(c, s, n);
      t.source == LineSource(c, s.source, n) && t.dest == LineDest(c, s.dest, n)
  {
    if n > 0 {
      LinesRegisters(c, s, n - 1);
      WordRegisters(c, Lines(c, s, n - 1), c.Width());
    }
  }

  lemma InRange(c: Config, a: int, d: int, n: nat)
    requires n >= 1
    ensures LineSource(c, a, n) % ADDRESSES == LineSource(c, a, n)
    ensures LineDest(c, d, n) % ADDRESSES == LineDest(c, d, n)
  {
    PlusIs(Source(c, LineSource(c, a, n - 1), Passed(c)), Source(c, LineSource(c, a, n - 1), Passed(c)), c.sourceY);
    PlusIs(Dest(c, LineDest(c, d, n - 1), c.Width() - 1), Dest(c, LineDest(c, d, n - 1), c.Width() - 1), c.destY);
  }

  /** Where the address registers stand after n lines, whatever they drew. */
  lemma LinesAddresses(c: Config, s: State, n: nat)
    requires n >= 1
    ensures var t := Lines(c, s, n);
      && t.source == (s.source + n * (Passed(c) * c.sourceX + c.sourceY)) % ADDRESSES
      && t.dest == (s.dest + n * ((c.Width() - 1) * c.destX + c.destY)) % ADDRESSES
  {
    LinesRegisters(c, s, n);
    LineAddresses(c, s.source, s.dest, n);
    InRange(c, s.source, s.dest, n);
  }

  // The same, pixel by pixel.

  /** A drawing function in question at some arguments. */
  predicate Asked(k: nat, offset: nat, prev: bv16, cur: bv16, was: bv16) {
    true
  }

  /** The drawing function does what the operation says. */
  ghost predicate Faithful(o: Registers, draw: Draw)
    requires o.Valid()
  {
    forall k: nat, offset: nat, prev: bv16, cur: bv16, was: bv16 {:trigger Asked(k, offset, prev, cur, was)} ::
      Asked(k, offset, prev, cur, was) && draw(k, offset, prev, cur, was) == Drawn(o, k, offset, prev, cur, was)
  }

  /** A configuration made from the registers. */
  ghost predicate Configured(o: Registers, c: Config) {
    && o.Valid()
    && c.sourceX == o.sourceX && c.sourceY == o.sourceY && c.destX == o.destX && c.destY == o.destY
    && c.xCount == o.xCount && c.fxsr == o.fxsr && c.nfsr == o.nfsr
    && c.fetches == (o.hop >= 2) && c.patterned == (o.hop % 2 == 1) && Faithful(o, c.draw)
  }

  /** The configuration that the registers stand for. */
  function ConfigOf(o: Registers): Config
    requires o.Valid()
  {
    Config(o.sourceX, o.sourceY, o.destX, o.destY, o.xCount, o.fxsr, o.nfsr, o.hop >= 2, o.hop % 2 == 1,
           (k: nat, offset: nat, prev, cur, was) => Drawn(o, k, offset, prev, cur, was))
  }

  lemma ConfigOfConfigured(o: Registers)
    requires o.Valid()
    ensures Configured(o, ConfigOf(o))
  {
  }

  /** Pixel i of the source row beside a word, shifted right by the skew. */
  predicate SkewedRow(o: Registers, prev: bv16, cur: bv16, i: nat)
    requires o.skew < 16 && i < 16
  {
    var left, right := if o.sourceX < 0 then cur else prev, if o.sourceX < 0 then prev else cur;
    if i < o.skew then Pixel(left, 16 + i - o.skew) else Pixel(right, i - o.skew)
  }

  /** The source row, the half-tone pattern, both, or all ones. */
  predicate OperandRow(o: Registers, offset: nat, prev: bv16, cur: bv16, i: nat)
    requires o.Valid() && i < 16
  {
    (o.hop >= 2 ==> SkewedRow(o, prev, cur, i)) && (o.hop % 2 == 1 ==> Pixel(o.halftone[offset % 16], i))
  }

  lemma OperandPixel(o: Registers, offset: nat, skewed: bv16, i: nat)
    requires o.Valid() && i < 16
    ensures Pixel(Operand(o, offset, skewed), i) ==
      ((o.hop >= 2 ==> Pixel(skewed, i)) && (o.hop % 2 == 1 ==> Pixel(o.halftone[offset % 16], i)))
  {
    match o.hop
    case 0 => OnesPixel(i);
    case 1 =>
    case 2 =>
    case _ => AndPixel(skewed, o.halftone[offset % 16], i);
  }

  lemma CombinedPixel(op: nat, operand: bv16, was: bv16, mask: bv16, i: nat)
    requires op < 16 && i < 16
    ensures Pixel(Blend(was, Logic(op, operand, was), mask), i) ==
      if Pixel(mask, i) then Truth(op, Pixel(operand, i), Pixel(was, i)) else Pixel(was, i)
  {
    BlendPixel(was, Logic(op, operand, was), mask, i);
    LogicPixel(op, operand, was, i);
  }

  lemma DrawnPixel(o: Registers, k: nat, offset: nat, prev: bv16, cur: bv16, was: bv16, i: nat)
    requires o.Valid() && i < 16
    ensures Pixel(Drawn(o, k, offset, prev, cur, was), i) ==
      if Pixel(o.Mask(k), i) then Truth(o.op, OperandRow(o, offset, prev, cur, i), Pixel(was, i)) else Pixel(was, i)
  {
    var skewed := Skewed(o, prev, cur);
    CombinedPixel(o.op, Operand(o, offset, skewed), was, o.Mask(k), i);
    OperandPixel(o, offset, skewed, i);
    SkewedPixel(o, prev, cur, i);
    assert OperandRow(o, offset, prev, cur, i) == Pixel(Operand(o, offset, skewed), i);
  }

  /** What pixel i of word k of line y becomes. */
  ghost predicate PixelOf(o: Registers, c: Config, s: State, y: nat, k: nat, i: nat)
    requires o.Valid() && i < 16
  {
    var d, line := At(c, s, y, k), Start(c, s, y);
    var row := OperandRow(o, line.offset, Previous(c, s.mem, line.source, line.cur, k),
                          Current(c, s.mem, line.source, k), i);
    if Writable(d) && 0 <= d < |s.mem| && Pixel(o.Mask(k), i) then Truth(o.op, row, Pixel(Read(s.mem, d), i))
    else Pixel(Read(s.mem, d), i)
  }

  /** A pixel of a word of one line. */
  lemma ResultPixel(o: Registers, c: Config, line: State, k: nat, i: nat)
    requires Configured(o, c) && i < 16
    ensures var d := Dest(c, line.dest, k);
      var prev, cur := Previous(c, line.mem, line.source, line.cur, k), Current(c, line.mem, line.source, k);
      Pixel(Result(c, line, k), i) ==
      if Writable(d) && 0 <= d < |line.mem| && Pixel(o.Mask(k), i)
      then Truth(o.op, OperandRow(o, line.offset, prev, cur, i), Pixel(Read(line.mem, d), i))
      else Pixel(Read(line.mem, d), i)
  {
    var was := Read(line.mem, Dest(c, line.dest, k));
    var prev, cur := Previous(c, line.mem, line.source, line.cur, k), Current(c, line.mem, line.source, k);
    assert Asked(k, line.offset, prev, cur, was);
    DrawnPixel(o, k, line.offset, prev, cur, was, i);
  }

  /**
   * Every destination pixel of a blit: where the end mask is one, the truth table of the operation applied to the
   * skewed source row or pattern and the old pixel; elsewhere, and where nothing may be written, the old pixel.
   */
  lemma BlitPixels(o: Registers, c: Config, s: State, n: nat, y: nat, k: nat, i: nat)
    requires Configured(o, c) && Apart(c, s, n) && y < n && k < c.Width() && i < 16
    ensures Pixel(Read(Lines(c, s, n).mem, At(c, s, y, k)), i) == PixelOf(o, c, s, y, k, i)
  {
    BlitDraws(c, s, n);
    ResultPixel(o, c, Start(c, s, y), k, i);
  }

  // The same without the steps that lead there: addresses in closed form, masks, operations and rows by position.

  lemma {:induction false} Offsets(c: Config, offset: nat, y: nat)
    requires offset < 16
    ensures OffsetAt(c, offset, y) ==
      if !c.patterned then offset else (offset + if c.destY >= 0 then y else 15 * y) % 16
  {
    if y > 0 {
      Offsets(c, offset, y - 1);
      if c.destY >= 0 {
        AddMod(offset + y - 1, 1, 16);
      } else {
        AddMod(offset + 15 * (y - 1), 15, 16);
      }
    }
  }

  lemma AdvancedInRange(a: int, n: nat, inc: int)
    requires 0 <= a < ADDRESSES
    ensures Advanced(a, n, inc) == (a + n * inc) % ADDRESSES
  {
    AdvancedIs(a, n, inc);
    DivModIs(a, ADDRESSES, 0, a);
    if n > 0 {
      PlusIs(Advanced(a, n - 1, inc), Advanced(a, n - 1, inc), inc);
    }
  }

  /** A register after y lines and j words of the next. */
  lemma AddressIs(a: int, line: int, y: nat, stride: int, j: nat, inc: int)
    requires 0 <= a < ADDRESSES && 0 <= line < ADDRESSES && line == (a + y * stride) % ADDRESSES
    ensures Advanced(line, j, inc) == (a + y * stride + j * inc) % ADDRESSES
  {
    AdvancedInRange(line, j, inc);
    AddMod(a + y * stride, j * inc, ADDRESSES);
  }

  lemma LineInRange(c: Config, a: int, d: int, y: nat)
    requires 0 <= a < ADDRESSES && 0 <= d < ADDRESSES
    ensures LineSource(c, a, y) == (a + y * (Passed(c) * c.sourceX + c.sourceY)) % ADDRESSES
    ensures LineDest(c, d, y) == (d + y * ((c.Width() - 1) * c.destX + c.destY)) % ADDRESSES
  {
    LineAddresses(c, a, d, y);
    if y == 0 {
      DivModIs(a, ADDRESSES, 0, a);
      DivModIs(d, ADDRESSES, 0, d);
    } else {
      InRange(c, a, d, y);
    }
  }

  /** The address of word k of line y. */
  ghost function Target(o: Registers, s: State, y: nat, k: nat): int {
    (s.dest + y * ((Max(1, o.xCount) - 1) * o.destX + o.destY) + k * o.destX) % 0x8000_0000
  }

  /** Source word j of line y: FXSR adds one word to a line, NFSR takes the last one of several away. */
  ghost function Origin(o: Registers, s: State, y: nat, j: nat): bv16 {
    var w := Max(1, o.xCount);
    var steps := w - 1 + (if o.fxsr then 1 else 0) - if o.nfsr && w > 1 then 1 else 0;
    Read(s.mem, (s.source + y * (steps * o.sourceX + o.sourceY) + j * o.sourceX) % 0x8000_0000)
  }

  /** The source word over word k of line y. */
  ghost function Over(o: Registers, s: State, y: nat, k: nat): bv16 {
    if o.nfsr && k > 0 && k == Max(1, o.xCount) - 1 then 0 else Origin(o, s, y, if o.fxsr then k + 1 else k)
  }

  /** The one before it, which at the start of a line is the extra word or the last word of the line before. */
  ghost function Beside(o: Registers, s: State, y: nat, k: nat): bv16 {
    if k > 0 then Over(o, s, y, k - 1)
    else if o.fxsr then Origin(o, s, y, 0)
    else if y > 0 then Over(o, s, y - 1, Max(1, o.xCount) - 1)
    else 0
  }

  /** Pixel i of the operand over word k of line y: the source row moved right by the skew and the half-tone line. */
  ghost predicate OperandAt(o: Registers, s: State, y: nat, k: nat, i: nat)
    requires o.Valid() && i < 16
  {
    var left := if o.sourceX < 0 then Over(o, s, y, k) else Beside(o, s, y, k);
    var right := if o.sourceX < 0 then Beside(o, s, y, k) else Over(o, s, y, k);
    && (o.hop >= 2 ==> if i < o.skew then Pixel(left, 16 + i - o.skew) else Pixel(right, i - o.skew))
    && (o.hop == 1 || o.hop == 3 ==> Pixel(o.halftone[(s.offset + if o.destY >= 0 then y else 15 * y) % 16], i))
  }

  /** Pixel i of word k of line y under an end mask, where it may be written; the operation is its truth table. */
  ghost predicate DrawnUnder(o: Registers, s: State, mem: seq<bv16>, y: nat, k: nat, i: nat, mask: bv16)
    requires o.Valid() && i < 16
  {
    var d := Target(o, s, y, k);
    var was, now, operand := Pixel(Read(s.mem, d), i), Pixel(Read(mem, d), i), OperandAt(o, s, y, k, i);
    now == if !(0x400 < d < |s.mem|) || 0x70_0000 <= d < 0x80_0000 || !Pixel(mask, i) then was
           else if operand then (if was then o.op % 2 == 1 else o.op / 2 % 2 == 1)
           else if was then o.op / 4 % 2 == 1 else o.op / 8 % 2 == 1
  }

  /** The registers as a blit finds them. */
  predicate Fresh(s: State) {
    0 <= s.source < ADDRESSES && 0 <= s.dest < ADDRESSES && s.cur == 0 && s.offset < 16
  }

  lemma TargetIs(o: Registers, c: Config, s: State, y: nat, k: nat)
    requires Configured(o, c) && Fresh(s)
    ensures At(c, s, y, k) == Target(o, s, y, k)
  {
    LineInRange(c, s.source, s.dest, y);
    AddressIs(s.dest, LineDest(c, s.dest, y), y, (c.Width() - 1) * c.destX + c.destY, k, c.destX);
  }

  lemma OriginIs(o: Registers, c: Config, s: State, y: nat, j: nat)
    requires Configured(o, c) && Fresh(s)
    ensures Read(s.mem, Source(c, LineSource(c, s.source, y), j)) == Origin(o, s, y, j)
  {
    LineInRange(c, s.source, s.dest, y);
    AddressIs(s.source, LineSource(c, s.source, y), y, Passed(c) * c.sourceX + c.sourceY, j, c.sourceX);
  }

  lemma OverIs(o: Registers, c: Config, s: State, y: nat, k: nat)
    requires Configured(o, c) && Fresh(s) && o.hop >= 2 && k < c.Width()
    ensures Current(c, s.mem, LineSource(c, s.source, y), k) == Over(o, s, y, k)
  {
    OriginIs(o, c, s, y, Extras(c) + k);
  }

  lemma BesideIs(o: Registers, c: Config, s: State, y: nat, k: nat)
    requires Configured(o, c) && Fresh(s) && o.hop >= 2 && k < c.Width()
    ensures var line := Start(c, s, y); Previous(c, s.mem, line.source, line.cur, k) == Beside(o, s, y, k)
  {
    if k > 0 {
      OverIs(o, c, s, y, k - 1);
    } else if o.fxsr {
      OriginIs(o, c, s, y, 0);
    } else if y > 0 {
      OverIs(o, c, s, y - 1, c.Width() - 1);
    }
  }

  lemma OperandFrom(o: Registers, s: State, y: nat, k: nat, i: nat, offset: nat, prev: bv16, cur: bv16)
    requires o.Valid() && i < 16
    requires o.hop >= 2 ==> prev == Beside(o, s, y, k) && cur == Over(o, s, y, k)
    requires o.hop % 2 == 1 ==> offset == (s.offset + if o.destY >= 0 then y else 15 * y) % 16
    ensures OperandRow(o, offset, prev, cur, i) == OperandAt(o, s, y, k, i)
  {
  }

  lemma OperandIs(o: Registers, c: Config, s: State, y: nat, k: nat, i: nat)
    requires Configured(o, c) && Fresh(s) && k < c.Width() && i < 16
    ensures var line := Start(c, s, y);
      OperandRow(o, line.offset, Previous(c, s.mem, line.source, line.cur, k), Current(c, s.mem, line.source, k), i)
      == OperandAt(o, s, y, k, i)
  {
    var line := Start(c, s, y);
    Offsets(c, s.offset, y);
    if o.hop >= 2 {
      OverIs(o, c, s, y, k);
      BesideIs(o, c, s, y, k);
    }
    OperandFrom(o, s, y, k, i, line.offset, Previous(c, s.mem, line.source, line.cur, k),
                Current(c, s.mem, line.source, k));
  }

  /** Every destination pixel of a blit, under the end mask of its word. */
  lemma BlitUnder(o: Registers, c: Config, s: State, n: nat, y: nat, k: nat, i: nat)
    requires Configured(o, c) && Apart(c, s, n) && Fresh(s) && y < n && k < c.Width() && i < 16
    ensures DrawnUnder(o, s, Lines(c, s, n).mem, y, k, i, o.Mask(k))
  {
    BlitPixels(o, c, s, n, y, k, i);
    TargetIs(o, c, s, y, k);
    OperandIs(o, c, s, y, k, i);
    TruthIs(o.op, OperandAt(o, s, y, k, i), Pixel(Read(s.mem, Target(o, s, y, k)), i));
  }

  ghost predicate Elsewhere(o: Registers, s: State, n: nat, a: int) {
    forall y, k | 0 <= y < n && 0 <= k < Max(1, o.xCount) :: Target(o, s, y, k) != a
  }

  /**
   * A memory in which exactly the destination pixels of n lines have become what they should: the first word of a line
   * under end mask 1, the last of several under end mask 3, those between under end mask 2.
   */
  ghost predicate AllDrawn(o: Registers, s: State, n: nat, mem: seq<bv16>)
    requires o.Valid()
  {
    && |mem| == |s.mem|
    && (forall y, i | 0 <= y < n && 0 <= i < 16 :: DrawnUnder(o, s, mem, y, 0, i, o.mask1))
    && (forall y, k, i | 0 <= y < n && 0 < k < o.xCount - 1 && 0 <= i < 16 :: DrawnUnder(o, s, mem, y, k, i, o.mask2))
    && (o.xCount > 1 ==>
          var last := o.xCount - 1;
          forall y, i | 0 <= y < n && 0 <= i < 16 :: DrawnUnder(o, s, mem, y, last, i, o.mask3))
    && (forall a | Elsewhere(o, s, n, a) :: Read(mem, a) == Read(s.mem, a))
  }

  lemma OutsideStays(o: Registers, c: Config, s: State, n: nat, a: int)
    requires Configured(o, c) && Apart(c, s, n) && Fresh(s)
    requires Elsewhere(o, s, n, a)
    ensures Read(Lines(c, s, n).mem, a) == Read(s.mem, a)
  {
    BlitDraws(c, s, n);
    forall y, k | 0 <= y < n && 0 <= k < c.Width() ensures At(c, s, y, k) != a {
      TargetIs(o, c, s, y, k);
    }
    assert Outside(c, s, n, a);
  }

  lemma FirstWordsDrawn(o: Registers, c: Config, s: State, n: nat, mem: seq<bv16>)
    requires Configured(o, c) && Apart(c, s, n) && Fresh(s) && mem == Lines(c, s, n).mem
    ensures forall y, i | 0 <= y < n && 0 <= i < 16 :: DrawnUnder(o, s, mem, y, 0, i, o.mask1)
  {
    forall y, i | 0 <= y < n && 0 <= i < 16 ensures DrawnUnder(o, s, mem, y, 0, i, o.mask1) {
      BlitUnder(o, c, s, n, y, 0, i);
    }
  }

  lemma MiddleWordsDrawn(o: Registers, c: Config, s: State, n: nat, mem: seq<bv16>)
    requires Configured(o, c) && Apart(c, s, n) && Fresh(s) && mem == Lines(c, s, n).mem
    ensures forall y, k, i | 0 <= y < n && 0 < k < o.xCount - 1 && 0 <= i < 16 ::
      DrawnUnder(o, s, mem, y, k, i, o.mask2)
  {
    forall y, k, i | 0 <= y < n && 0 < k < o.xCount - 1 && 0 <= i < 16
      ensures DrawnUnder(o, s, mem, y, k, i, o.mask2)
    {
      BlitUnder(o, c, s, n, y, k, i);
    }
  }

  lemma LastWordsDrawn(o: Registers, c: Config, s: State, n: nat, mem: seq<bv16>, last: nat)
    requires Configured(o, c) && Apart(c, s, n) && Fresh(s) && mem == Lines(c, s, n).mem && 0 < last == o.xCount - 1
    ensures forall y, i | 0 <= y < n && 0 <= i < 16 :: DrawnUnder(o, s, mem, y, last, i, o.mask3)
  {
    forall y, i | 0 <= y < n && 0 <= i < 16 ensures DrawnUnder(o, s, mem, y, last, i, o.mask3) {
      BlitUnder(o, c, s, n, y, last, i);
    }
  }

  lemma BlitAllDrawn(o: Registers, c: Config, s: State, n: nat)
    requires Configured(o, c) && Apart(c, s, n) && Fresh(s)
    ensures AllDrawn(o, s, n, Lines(c, s, n).mem)
  {
    BlitDraws(c, s, n);
    var mem := Lines(c, s, n).mem;
    FirstWordsDrawn(o, c, s, n, mem);
    MiddleWordsDrawn(o, c, s, n, mem);
    if o.xCount > 1 {
      LastWordsDrawn(o, c, s, n, mem, o.xCount - 1);
    }
    forall a | Elsewhere(o, s, n, a)
      ensures Read(mem, a) == Read(s.mem, a)
    {
      OutsideStays(o, c, s, n, a);
    }
  }

  // Blits between two regions of the memory, from left to right and downwards.

  /** Word j of line y in a region whose lines do not overlap. */
  lemma InRow(a: int, y: int, n: int, j: int, last: int, inc: int, gap: int)
    requires 0 <= y < n && 0 <= j <= last && inc >= 1 && gap >= 1
    ensures var stride := last * inc + gap;
      a + y * stride <= a + y * stride + j * inc < a + (y + 1) * stride <= a + n * stride
  {
    var stride := last * inc + gap;
    ProductBound(j, inc, last, inc);
    Distribute(y, stride);
    ProductBound(y + 1, stride, n, stride);
  }

  /** Increments that lead onwards, no wrap-around, and regions that do not meet. */
  predicate Onwards(o: Registers, s: State, n: nat) {
    var w := Max(1, o.xCount);
    var steps := w - 1 + (if o.fxsr then 1 else 0) - if o.nfsr && w > 1 then 1 else 0;
    var sourceEnd := s.source + n * (steps * o.sourceX + o.sourceY);
    var destEnd := s.dest + n * ((w - 1) * o.destX + o.destY);
    && o.sourceX >= 1 && o.sourceY >= 1 && o.destX >= 1 && o.destY >= 1
    && 0 <= s.source && 0 <= s.dest && sourceEnd <= 0x8000_0000 && destEnd <= 0x8000_0000
    && (sourceEnd <= s.dest || destEnd <= s.source)
  }

  lemma NotWrapped(a: int, y: nat, n: nat, j: nat, last: int, inc: int, gap: int)
    requires 0 <= a && y < n && j <= last && inc >= 1 && gap >= 1 && a + n * (last * inc + gap) <= ADDRESSES
    ensures var x := a + y * (last * inc + gap) + j * inc;
      x % ADDRESSES == x && a + y * (last * inc + gap) <= x < a + (y + 1) * (last * inc + gap) && a <= x < ADDRESSES
  {
    var stride := last * inc + gap;
    InRow(a, y, n, j, last, inc, gap);
    ProductBound(j, inc, last, inc);
    ProductBound(y, stride, n, stride);
    DivModIs(a + y * stride + j * inc, ADDRESSES, 0, a + y * stride + j * inc);
  }

  /** The words of the destination lie line by line between its start and its end. */
  lemma TargetRow(o: Registers, c: Config, s: State, n: nat, y: nat, k: nat)
    requires Configured(o, c) && Fresh(s) && Onwards(o, s, n) && y < n && k < c.Width()
    ensures var stride := (c.Width() - 1) * c.destX + c.destY;
      && At(c, s, y, k) == s.dest + y * stride + k * c.destX
      && s.dest + y * stride <= At(c, s, y, k) < s.dest + (y + 1) * stride
  {
    TargetIs(o, c, s, y, k);
    NotWrapped(s.dest, y, n, k, c.Width() - 1, c.destX, c.destY);
  }

  lemma TargetInside(o: Registers, c: Config, s: State, n: nat, y: nat, k: nat)
    requires Configured(o, c) && Fresh(s) && Onwards(o, s, n) && y < n && k < c.Width()
    ensures s.dest <= At(c, s, y, k) < s.dest + n * ((c.Width() - 1) * c.destX + c.destY)
  {
    TargetRow(o, c, s, n, y, k);
    InRow(s.dest, y, n, k, c.Width() - 1, c.destX, c.destY);
    NotWrapped(s.dest, y, n, k, c.Width() - 1, c.destX, c.destY);
  }

  lemma OriginInside(o: Registers, c: Config, s: State, n: nat, y: nat, j: nat)
    requires Configured(o, c) && Fresh(s) && Onwards(o, s, n) && y < n && j <= Passed(c)
    ensures var stride, at := Passed(c) * c.sourceX + c.sourceY, Source(c, LineSource(c, s.source, y), j);
      at == s.source + y * stride + j * c.sourceX && s.source <= at < s.source + n * stride
  {
    LineInRange(c, s.source, s.dest, y);
    AddressIs(s.source, LineSource(c, s.source, y), y, Passed(c) * c.sourceX + c.sourceY, j, c.sourceX);
    InRow(s.source, y, n, j, Passed(c), c.sourceX, c.sourceY);
    NotWrapped(s.source, y, n, j, Passed(c), c.sourceX, c.sourceY);
  }

  lemma WordsDiffer(o: Registers, c: Config, s: State, n: nat, y: nat, j: nat, k: nat)
    requires Configured(o, c) && Fresh(s) && Onwards(o, s, n) && y < n && j < k < c.Width()
    ensures At(c, s, y, j) != At(c, s, y, k)
  {
    TargetRow(o, c, s, n, y, j);
    TargetRow(o, c, s, n, y, k);
    ProductBound(1, 1, k - j, c.destX);
    assert (k - j) * c.destX == k * c.destX - j * c.destX;
  }

  lemma LinesDiffer(o: Registers, c: Config, s: State, n: nat, y: nat, j: nat, z: nat, k: nat)
    requires Configured(o, c) && Fresh(s) && Onwards(o, s, n) && y < z < n && j < c.Width() && k < c.Width()
    ensures At(c, s, y, j) != At(c, s, z, k)
  {
    var stride := (c.Width() - 1) * c.destX + c.destY;
    TargetRow(o, c, s, n, y, j);
    TargetRow(o, c, s, n, z, k);
    ProductBound(0, c.destX, c.Width() - 1, c.destX);
    ProductBound(y + 1, stride, z, stride);
  }

  lemma RegionsDiffer(o: Registers, c: Config, s: State, n: nat, y: nat, j: nat, z: nat, i: nat)
    requires Configured(o, c) && Fresh(s) && Onwards(o, s, n) && y < n && z < n && j < c.Width() && i <= Passed(c)
    ensures At(c, s, y, j) != Source(c, LineSource(c, s.source, z), i)
  {
    TargetInside(o, c, s, n, y, j);
    OriginInside(o, c, s, n, z, i);
  }

  lemma RowApart(o: Registers, c: Config, s: State, n: nat, y: nat, line: State)
    requires Configured(o, c) && Fresh(s) && Onwards(o, s, n) && y < n && line == Start(c, s, y)
    ensures LineApart(c, line)
  {
    forall j, k | 0 <= j < k < c.Width() ensures Dest(c, line.dest, j) != Dest(c, line.dest, k) {
      WordsDiffer(o, c, s, n, y, j, k);
    }
    forall i, k | 0 <= k && k + Extras(c) < i <= Passed(c) ensures Source(c, line.source, i) != Dest(c, line.dest, k) {
      RegionsDiffer(o, c, s, n, y, k, y, i);
    }
  }

  /** Such regions are apart. */
  lemma OnwardsApart(o: Registers, c: Config, s: State, n: nat)
    requires Configured(o, c) && Fresh(s) && Onwards(o, s, n)
    ensures Apart(c, s, n)
  {
    forall y | 0 <= y < n ensures LineApart(c, Start(c, s, y)) {
      RowApart(o, c, s, n, y, Start(c, s, y));
    }
    forall y, z, j, k | 0 <= y < z < n && 0 <= j < c.Width() && 0 <= k < c.Width()
      ensures At(c, s, y, j) != At(c, s, z, k)
    {
      LinesDiffer(o, c, s, n, y, j, z, k);
    }
    forall y, z, j, i | 0 <= y < z < n && 0 <= j < c.Width() && 0 <= i <= Passed(c)
      ensures At(c, s, y, j) != Source(c, LineSource(c, s.source, z), i)
    {
      RegionsDiffer(o, c, s, n, y, j, z, i);
    }
  }

  lemma SamePixels(u: bv16, v: bv16)
    requires forall i | 0 <= i < 16 :: Pixel(u, i) == Pixel(v, i)
    ensures u == v
  {
    AllPixels(u);
    AllPixels(v);
  }

  /** A copy leaves the pixels of the source word. */
  lemma CopiedPixel(o: Registers, s: State, mem: seq<bv16>, y: nat, k: nat, i: nat)
    requires o.Valid() && i < 16 && o.hop == 2 && o.op == 3 && o.skew == 0 && !o.fxsr && !o.nfsr && o.sourceX >= 0
    requires var d := Target(o, s, y, k); 0x400 < d < |s.mem| && !(0x70_0000 <= d < 0x80_0000)
    requires DrawnUnder(o, s, mem, y, k, i, 0xffff)
    ensures Pixel(Read(mem, Target(o, s, y, k)), i) == Pixel(Origin(o, s, y, k), i)
  {
    OnesPixel(i);
  }

  lemma CopiedWord(o: Registers, c: Config, s: State, n: nat, y: nat, k: nat)
    requires Configured(o, c) && Apart(c, s, n) && Fresh(s) && y < n && k < c.Width() && o.sourceX >= 0
    requires o.hop == 2 && o.op == 3 && o.mask1 == o.mask2 == o.mask3 == 0xffff && o.skew == 0 && !o.fxsr && !o.nfsr
    requires var d := Target(o, s, y, k); 0x400 < d < |s.mem| && !(0x70_0000 <= d < 0x80_0000)
    ensures Read(Lines(c, s, n).mem, Target(o, s, y, k)) == Origin(o, s, y, k)
  {
    var mem := Lines(c, s, n).mem;
    var u, v := Read(mem, Target(o, s, y, k)), Origin(o, s, y, k);
    forall i | 0 <= i < 16 ensures Pixel(u, i) == Pixel(v, i) {
      BlitUnder(o, c, s, n, y, k, i);
      CopiedPixel(o, s, mem, y, k, i);
    }
    SamePixels(u, v);
  }

  /** A plain copy: every word of the source rectangle arrives at its place. */
  lemma BlitCopies(o: Registers, c: Config, s: State, n: nat, y: nat, k: nat, from: int, to: int)
    requires Configured(o, c) && Fresh(s) && Onwards(o, s, n) && y < n && k < Max(1, o.xCount)
    requires o.hop == 2 && o.op == 3 && o.mask1 == o.mask2 == o.mask3 == 0xffff && o.skew == 0 && !o.fxsr && !o.nfsr
    requires from == s.source + y * ((Max(1, o.xCount) - 1) * o.sourceX + o.sourceY) + k * o.sourceX
    requires to == s.dest + y * ((Max(1, o.xCount) - 1) * o.destX + o.destY) + k * o.destX
    requires 0x400 < to < |s.mem| && !(0x70_0000 <= to < 0x80_0000)
    ensures Read(Lines(c, s, n).mem, to) == Read(s.mem, from)
  {
    OnwardsApart(o, c, s, n);
    TargetRow(o, c, s, n, y, k);
    TargetIs(o, c, s, y, k);
    OriginInside(o, c, s, n, y, k);
    OriginIs(o, c, s, y, k);
    CopiedWord(o, c, s, n, y, k);
  }

  /** What n lines leave: the memory, drawn pixel by pixel where the words are apart, and the address registers. */
  ghost predicate Ended(o: Registers, c: Config, s: State, n: nat, mem: seq<bv16>, source: int, dest: int)
    requires o.Valid()
  {
    && mem == Lines(c, s, n).mem
    && source == (s.source + n * (Passed(c) * c.sourceX + c.sourceY)) % ADDRESSES
    && dest == (s.dest + n * ((c.Width() - 1) * c.destX + c.destY)) % ADDRESSES
    && (Apart(c, s, n) && Fresh(s) ==> AllDrawn(o, s, n, mem))
  }

  lemma LinesEnd(o: Registers, c: Config, s: State, n: nat)
    requires Configured(o, c) && n >= 1
    ensures var t := Lines(c, s, n); Ended(o, c, s, n, t.mem, t.source, t.dest)
  {
    LinesAddresses(c, s, n);
    if Apart(c, s, n) && Fresh(s) {
      BlitAllDrawn(o, c, s, n);
    }
  }

  lemma ShiftedBuffer(b: bv32)
    ensures HighWord(b << 16) == LowWord(b) && LowWord(b << 16) == 0
    ensures LowWord(b >> 16) == HighWord(b) && HighWord(b >> 16) == 0
  {
  }

  method LoadLow(b: bv32, w: bv16) returns (r: bv32)
    requires LowWord(b) == 0
    ensures HighWord(r) == HighWord(b) && LowWord(r) == w
  {
    r := b | (w as bv32);
  }

  method LoadHigh(b: bv32, w: bv16) returns (r: bv32)
    requires HighWord(b) == 0
    ensures LowWord(r) == LowWord(b) && HighWord(r) == w
  {
    r := b | ((w as bv32) << 16);
  }

  /** One of the sixteen logic operations under an end mask. */
  method Combine(op: nat, operand: bv16, was: bv16, mask: bv16) returns (r: bv16)
    ensures r == Blend(was, Logic(op, operand, was), mask)
  {
    r := (was & !mask) | (Logic(op, operand, was) & mask);
  }

  /** The chip with the memory it works on. */
  class Chip {
    var mem: array<bv16>
    var regs: Registers
    var yCount: nat
    var sourceAddr: int
    var destAddr: int
    var sourceBackup: int
    var destBackup: int
    var halftoneOffset: nat
    var buffer: bv32

    constructor (mem: array<bv16>, regs: Registers)
      requires regs.Valid()
      ensures this.mem == mem && this.regs == regs && regs.Valid() && halftoneOffset < 16 && yCount < 0x10000
    {
      this.mem, this.regs := mem, regs;
      yCount, sourceAddr, destAddr, sourceBackup, destBackup := 0, 0, 0, 0, 0;
      halftoneOffset, buffer := 0, 0;
    }

    ghost function View(): State
      reads `mem, mem, `regs, `sourceAddr, `destAddr, `buffer, `halftoneOffset
    {
      State(mem[..], sourceAddr, destAddr,
            if regs.sourceX < 0 then LowWord(buffer) else HighWord(buffer),
            if regs.sourceX < 0 then HighWord(buffer) else LowWord(buffer), halftoneOffset)
    }

    method ReadWord(a: int) returns (w: bv16)
      ensures w == Read(mem[..], a)
    {
      if 0 <= a < mem.Length {
        w := mem[a];
      } else {
        w := 0;
      }
    }

    method WriteWord(a: int, v: bv16)
      modifies mem
      ensures mem[..] == Write(old(mem[..]), a, v)
    {
      if a <= 0x400 || (a >= 0x700000 && a < 0x800000) {
        return;
      }
      if 0 <= a < mem.Length {
        mem[a] := v;
      }
    }

    method ShiftBuffer()
      modifies `buffer
      ensures View() == old(View()).(prev := old(View()).cur, cur := 0)
    {
      ShiftedBuffer(buffer);
      if regs.sourceX < 0 {
        buffer := buffer >> 16;
      } else {
        buffer := buffer << 16;
      }
    }

    method LoadSource()
      requires View().cur == 0
      modifies `buffer
      ensures View() == old(View()).(cur := if regs.hop >= 2 then Read(mem[..], sourceAddr) else 0)
    {
      if regs.hop >= 2 {
        var w := ReadWord(sourceAddr);
        if regs.sourceX < 0 {
          buffer := LoadHigh(buffer, w);
        } else {
          buffer := LoadLow(buffer, w);
        }
      }
    }

    /** Shift the buffer and read the next source word into it. */
    method FetchSource(ghost c: Config)
      requires c.fetches == (regs.hop >= 2)
      modifies `buffer
      ensures View() == Fetch(c, old(View()))
    {
      ShiftBuffer();
      LoadSource();
    }

    /** The word that the half-tone operation selects. */
    method SelectOperand() returns (w: bv16)
      requires regs.Valid() && halftoneOffset < 16
      ensures w == Operand(regs, halftoneOffset, Skewed(regs, View().prev, View().cur))
    {
      JoinedHalves(buffer);
      match regs.hop
      case 0 => w := 0xffff;
      case 1 => w := regs.halftone[halftoneOffset];
      case 2 => w := LowWord(ShiftRight(buffer, regs.skew));
      case _ => w := LowWord(ShiftRight(buffer, regs.skew)) & regs.halftone[halftoneOffset];
    }

    method DrawWord(mask: bv16, ghost k: nat, ghost c: Config) returns (v: bv16)
      requires Configured(regs, c) && halftoneOffset < 16 && mask == regs.Mask(k)
      ensures var s := View(); v == c.draw(k, s.offset, s.prev, s.cur, Read(s.mem, s.dest))
    {
      var was := ReadWord(destAddr);
      var operand := SelectOperand();
      v := Combine(regs.op, operand, was, mask);
      assert Asked(k, View().offset, View().prev, View().cur, was);
    }

    /** Combine the operand with the destination word under an end mask. */
    method PutWord(mask: bv16, ghost k: nat, ghost c: Config)
      requires Configured(regs, c) && halftoneOffset < 16 && mask == regs.Mask(k)
      modifies mem
      ensures View() == Put(c, old(View()), k)
    {
      var v := DrawWord(mask, k, c);
      WriteWord(destAddr, v);
    }

    method FirstWord(ghost c: Config)
      requires Configured(regs, c) && halftoneOffset < 16
      modifies mem, `buffer, `sourceAddr
      ensures View() == First(c, old(View()))
    {
      if regs.fxsr {
        FetchSource(c);
        sourceAddr := Plus(sourceAddr, regs.sourceX);
      }
      FetchSource(c);
      PutWord(regs.mask1, 0, c);
    }

    method MiddleWord(ghost k: nat, ghost c: Config)
      requires Configured(regs, c) && halftoneOffset < 16 && 1 <= k < regs.xCount - 1
      modifies mem, `buffer, `sourceAddr, `destAddr
      ensures View() == Next(c, old(View()), k)
    {
      sourceAddr := Plus(sourceAddr, regs.sourceX);
      destAddr := Plus(destAddr, regs.destX);
      FetchSource(c);
      PutWord(regs.mask2, k, c);
    }

    /** The last word; the second half of the test compares a negative number with the mask and never holds. */
    method LastWord(ghost c: Config)
      requires Configured(regs, c) && halftoneOffset < 16 && regs.xCount >= 2
      modifies mem, `buffer, `sourceAddr, `destAddr
      ensures View() == Next(c, old(View()), regs.xCount - 1)
    {
      destAddr := Plus(destAddr, regs.destX);
      ShiftBuffer();
      if !regs.nfsr || -1 - 0xffff / Pow2(regs.skew) > regs.mask3 as int {
        assert 0xffff / Pow2(regs.skew) >= 0;
        sourceAddr := Plus(sourceAddr, regs.sourceX);
        LoadSource();
      }
      PutWord(regs.mask3, regs.xCount - 1, c);
    }

    method MiddleWords(ghost c: Config, ghost s: State)
      requires Configured(regs, c) && halftoneOffset < 16 && View() == Words(c, s, 1)
      modifies mem, `buffer, `sourceAddr, `destAddr
      ensures View() == Words(c, s, if regs.xCount < 2 then 1 else regs.xCount - 1)
    {
      var x := 0;
      while x < regs.xCount - 2
        invariant 0 <= x && (x == 0 || x <= regs.xCount - 2)
        invariant View() == Words(c, s, x + 1)
      {
        MiddleWord(x + 1, c);
        x := x + 1;
      }
    }

    method FinishLine(ghost c: Config, ghost s: State)
      requires Configured(regs, c) && halftoneOffset < 16 && regs.xCount >= 2
      requires View() == Words(c, s, regs.xCount - 1)
      modifies mem, `buffer, `sourceAddr, `destAddr
      ensures View() == Words(c, s, regs.xCount)
    {
      LastWord(c);
    }

    method RestOfLine(ghost c: Config, ghost s: State)
      requires Configured(regs, c) && halftoneOffset < 16 && View() == Words(c, s, 1)
      modifies mem, `buffer, `sourceAddr, `destAddr
      ensures View() == Words(c, s, c.Width())
    {
      MiddleWords(c, s);
      if regs.xCount >= 2 {
        FinishLine(c, s);
      }
    }

    method DrawLine(ghost c: Config)
      requires Configured(regs, c) && halftoneOffset < 16
      modifies mem, `buffer, `sourceAddr, `destAddr
      ensures View() == Words(c, old(View()), c.Width())
    {
      ghost var s := View();
      FirstWord(c);
      RestOfLine(c, s);
    }

    method EndOfLine(ghost c: Config)
      requires Configured(regs, c) && halftoneOffset < 16
      modifies `sourceAddr, `destAddr, `halftoneOffset
      ensures View() == EndLine(c, old(View())) && halftoneOffset < 16
    {
      sourceAddr := Plus(sourceAddr, regs.sourceY);
      destAddr := Plus(destAddr, regs.destY);
      if regs.hop % 2 == 1 {
        halftoneOffset := (halftoneOffset + if regs.destY >= 0 then 1 else -1) % 16;
      }
    }

    /** Line n of a blit that started in state s. */
    method BlitLine(ghost c: Config, ghost s: State, ghost n: nat)
      requires Configured(regs, c) && halftoneOffset < 16 && View() == Lines(c, s, n)
      modifies mem, `buffer, `sourceAddr, `destAddr, `halftoneOffset
      ensures View() == Lines(c, s, n + 1) && halftoneOffset < 16
    {
      DrawLine(c);
      EndOfLine(c);
    }

    /** The half-tone line a blit starts with. */
    ghost function FirstOffset(): nat
      reads `regs, `halftoneOffset
    {
      if regs.hop % 2 == 0 then halftoneOffset else if regs.lineNumber >= 32 then regs.skew else regs.lineNumber % 16
    }

    method CountDown()
      requires yCount < 0x10000
      modifies `yCount
      ensures yCount == if old(yCount) == 0 then 0xffff else old(yCount) - 1
    {
      yCount := (yCount - 1) % 0x10000;
    }

    method MoreRows(ghost c: Config, ghost s: State, ghost n: nat)
      requires Configured(regs, c) && halftoneOffset < 16 && yCount < 0x10000 && View() == Lines(c, s, n)
      modifies mem, `buffer, `sourceAddr, `destAddr, `halftoneOffset, `yCount
      ensures halftoneOffset < 16 && yCount == 0 && View() == Lines(c, s, n + old(yCount))
    {
      ghost var done := n;
      while yCount > 0
        invariant halftoneOffset < 16 && done + yCount == n + old(yCount) && yCount < 0x10000
        invariant View() == Lines(c, s, done)
        decreases yCount
      {
        BlitLine(c, s, done);
        CountDown();
        done := done + 1;
      }
    }

    method StartRows()
      requires regs.Valid() && halftoneOffset < 16
      modifies `buffer, `halftoneOffset
      ensures View() == State(mem[..], sourceAddr, destAddr, 0, 0, old(FirstOffset())) && halftoneOffset < 16
    {
      buffer := 0;
      if regs.hop % 2 == 1 {
        halftoneOffset := if regs.lineNumber >= 32 then regs.skew else regs.lineNumber % 16;
      }
    }

    /** The row routine: as many lines as the line count says, 65536 for a count of 0. */
    method Rows(ghost c: Config)
      requires Configured(regs, c) && halftoneOffset < 16 && yCount < 0x10000
      modifies mem, `buffer, `sourceAddr, `destAddr, `halftoneOffset, `yCount
      ensures halftoneOffset < 16 && yCount == 0
      ensures View() == Lines(c, State(old(mem[..]), old(sourceAddr), old(destAddr), 0, 0, old(FirstOffset())),
                              if old(yCount) == 0 then 0x10000 else old(yCount))
    {
      StartRows();
      ghost var s := View();
      BlitLine(c, s, 0);
      CountDown();
      MoreRows(c, s, 1);
    }

    predicate Refused()
      reads `sourceBackup, `destBackup
    {
      || sourceBackup <= 0x400 || 0x740000 <= sourceBackup < 0x800000
      || destBackup <= 0x400 || 0x700000 <= destBackup < 0x800000
    }

    /** The rows of a blit and what they leave. */
    method BlitRows(ghost c: Config, ghost s: State, ghost n: nat)
      requires Configured(regs, c) && halftoneOffset < 16 && yCount < 0x10000
      requires s == State(mem[..], sourceAddr, destAddr, 0, 0, FirstOffset())
      requires n == if yCount == 0 then 0x10000 else yCount
      modifies mem, `buffer, `sourceAddr, `destAddr, `halftoneOffset, `yCount
      ensures yCount == 0 && Ended(regs, c, s, n, mem[..], sourceAddr, destAddr)
    {
      LinesEnd(regs, c, s, n);
      Rows(c);
    }

    /** The blit of a configuration, from the addresses last written. */
    method BlitFrom(ghost c: Config)
      requires Configured(regs, c) && halftoneOffset < 16 && yCount < 0x10000
      modifies mem, `buffer, `sourceAddr, `destAddr, `halftoneOffset, `yCount
      ensures Refused() ==>
        mem[..] == old(mem[..]) && yCount == old(yCount) && sourceAddr == sourceBackup && destAddr == destBackup
      ensures !Refused() ==>
        && yCount == 0
        && var s := State(old(mem[..]), sourceBackup, destBackup, 0, 0, old(FirstOffset()));
           Ended(regs, c, s, if old(yCount) == 0 then 0x10000 else old(yCount), mem[..], sourceAddr, destAddr)
    {
      if sourceAddr != sourceBackup {
        sourceAddr := sourceBackup;
      }
      if destAddr != destBackup {
        destAddr := destBackup;
      }
      if sourceAddr <= 0x400 || (sourceAddr >= 0x740000 && sourceAddr < 0x800000) {
        return;
      }
      if destAddr <= 0x400 || (destAddr >= 0x700000 && destAddr < 0x800000) {
        return;
      }
      BlitRows(c, State(mem[..], sourceAddr, destAddr, 0, 0, FirstOffset()), if yCount == 0 then 0x10000 else yCount);
    }

    /**
     * A blit does nothing when the addresses are out of range. Otherwise it ends with the line count at 0 and the
     * address registers in closed form, and on words that are apart with exactly the destination pixels drawn.
     */
    method DoBlit()
      requires regs.Valid() && halftoneOffset < 16 && yCount < 0x10000
      modifies mem, `buffer, `sourceAddr, `destAddr, `halftoneOffset, `yCount
      ensures Refused() ==>
        mem[..] == old(mem[..]) && yCount == old(yCount) && sourceAddr == sourceBackup && destAddr == destBackup
      ensures !Refused() ==>
        && yCount == 0
        && var offset := old(if regs.hop % 2 == 0 then halftoneOffset
                             else if regs.lineNumber >= 32 then regs.skew else regs.lineNumber % 16);
           var s := State(old(mem[..]), sourceBackup, destBackup, 0, 0, offset);
           var n := if old(yCount) == 0 then 0x10000 else old(yCount);
           Ended(regs, ConfigOf(regs), s, n, mem[..], sourceAddr, destAddr)
    {
      ConfigOfConfigured(regs);
      BlitFrom(ConfigOf(regs));
    }
  }
}
