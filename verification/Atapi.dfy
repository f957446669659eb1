/**
 * The ATAPI CD-ROM drive (src/ata.cpp, src/cdrom.cpp): READ (10) and READ (12), answered in bursts of at most the byte
 * count that the host asks for, from blocks of 2048 bytes that are fetched as the host reads on.
 */
module Atapi {
  import opened Arith
  import opened Bytes

  const WORD: int := 0x1_0000_0000

  /** A number as a C int. */
  function Int32(x: int): int {
    (x + 0x8000_0000) % WORD - 0x8000_0000
  }

  /** A number as a 16-bit register. */
  function UInt16(x: int): nat {
    x % 0x1_0000
  }

  /** An image file of whole blocks; wide if file positions are computed in 64 bits and not as a C int. */
  datatype Disc = Disc(blocks: seq<seq<Byte>>, wide: bool) {
    predicate Valid() {
      forall i | 0 <= i < |blocks| :: |blocks[i]| == 2048
    }

    /** The block a seek leads to; a negative position fails and leaves the file where it was. */
    function Found(lba: int, position: nat): nat {
      var seek := if wide then lba * 2048 else Int32(lba * 2048);
      if seek < 0 then position else seek / 2048
    }

    /** Below this block a seek leads to the block asked for. */
    function Reach(): nat {
      if wide then 0x8000_0000 else 0x10_0000
    }
  }

  /** The controller while it answers a read, and the block at the file's position. */
  datatype State = State(byteCount: nat, buffer: seq<Byte>, index: nat, drqIndex: nat, drqBytes: nat, total: int,
                         remaining: int, nextLba: int, position: nat, drq: bool, err: bool, cd: bool, io: bool)

  // The command.

  /** The blocks of a request that lie before the end of the disc, in 32-bit arithmetic. */
  function Clamped(lba: nat, length: nat, capacity: nat): nat {
    if (lba + length) % WORD > capacity then (capacity - lba) % WORD else length
  }

  /** The request is cut to the disc unless it starts beyond the end or its end wraps around. */
  lemma ClampedExact(lba: nat, length: nat, capacity: nat)
    requires lba < WORD && length < WORD && capacity < WORD
    ensures lba + Clamped(lba, length, capacity) <= capacity <==>
            lba <= capacity && (lba + length < WORD || lba + length - WORD > capacity)
  {
    if lba + length < WORD {
      DivModIs(lba + length, WORD, 0, lba + length);
    } else {
      DivModIs(lba + length, WORD, 1, lba + length - WORD);
    }
    if lba <= capacity {
      DivModIs(capacity - lba, WORD, 0, capacity - lba);
    } else {
      DivModIs(capacity - lba, WORD, -1, capacity - lba + WORD);
    }
  }

  /** The byte count a command starts with: odd counts are lowered unless the allocation fits into them. */
  function Adjusted(byteCount: nat, alloc: int): nat {
    var b := if byteCount == 0xffff then 0xfffe else byteCount;
    if b % 2 == 1 && alloc > b then b - 1 else b
  }

  /** An allocation of 0 stands for the byte count. */
  function Allocated(byteCount: nat, alloc: int): int {
    if alloc == 0 then Adjusted(byteCount, alloc) else alloc
  }

  /** A 16-bit count lowered to a C int, of which only 16 bits are kept. */
  function Lowered(count: nat, limit: int): nat {
    if count > limit then UInt16(limit) else count
  }

  /** The start of an answer: data are fetched at once, or with the first access. */
  function InitSend(s: State, req: int, alloc: int, lazy: bool): State {
    var length := Allocated(s.byteCount, alloc);
    var bytes := Lowered(Lowered(Adjusted(s.byteCount, alloc), req), length);
    s.(byteCount := bytes, index := if lazy then 2048 else 0, drqIndex := 0, drqBytes := bytes,
       total := Min(req, length), drq := true, err := false, cd := false, io := true)
  }

  /** The byte count of the bursts that answer a request of a length. */
  function BurstSize(byteCount: nat, length: int): int {
    Min(Adjusted(byteCount, length), length)
  }

  /** Bursts are even and no longer than asked for. */
  lemma BurstSizeIs(byteCount: nat, n: int)
    requires 2 <= byteCount < 0x10000 && n >= 1
    ensures 2 <= BurstSize(byteCount, 2048 * n) <= byteCount
    ensures BurstSize(byteCount, 2048 * n) <= 2048 * n && BurstSize(byteCount, 2048 * n) % 2 == 0
  {
  }

  /** The answer to a read of n blocks from lba on: its length is a C int, and nothing is fetched yet. */
  function Send(s: State, lba: nat, n: nat): State {
    InitSend(s, Int32(n * 2048), Int32(n * 2048), true).(remaining := Int32(n), nextLba := Int32(lba))
  }

  /** READ: refused without a disc; a request of no blocks ends at once. */
  function ReadCommand(s: State, ready: bool, lba: nat, length: nat, capacity: nat): State {
    var n := Clamped(lba, length, capacity);
    if !ready then s.(drq := false, err := true, cd := true, io := true)
    else if n == 0 then s.(drq := false, err := false, cd := true, io := true)
    else Send(s, lba, n)
  }

  // The data port.

  /** The block that is fetched next. */
  function Next(d: Disc, s: State): nat {
    d.Found(s.nextLba, s.position)
  }

  /** The next block in the buffer; a read at the end of the file leaves it as it was. */
  function Fetch(d: Disc, s: State): State {
    var at := Next(d, s);
    var t := s.(nextLba := Int32(s.nextLba + 1), remaining := Int32(s.remaining - 1), index := 0);
    if at < |d.blocks| then t.(buffer := d.blocks[at], position := at + 1) else t.(position := at)
  }

  function Refill(d: Disc, s: State): State {
    if s.index >= 2048 then Fetch(d, s) else s
  }

  /** The end of a burst: the next one, no longer than what is left, or the end of the command. */
  function EndBurst(s: State): State {
    var left := s.total - s.drqBytes;
    if left > 0 then
      var b := if left < s.byteCount then left else s.byteCount;
      s.(drqIndex := 0, total := left, byteCount := b, drqBytes := b, drq := true, cd := false, io := true)
    else s.(drqIndex := 0, total := left, drq := false, err := false, cd := true, io := true)
  }

  /** The state after the data port is read. */
  function AfterRead(d: Disc, s: State, width: nat): State {
    if !s.drq then s else
      var t := Refill(d, s);
      var u := t.(index := t.index + width, drqIndex := t.drqIndex + width);
      if u.drqIndex >= u.drqBytes then EndBurst(u) else u
  }

  /** Bytes as a number, lowest first. */
  function Number(b: seq<Byte>): int {
    if b == [] then 0 else b[0] as int + 0x100 * Number(b[1..])
  }

  lemma NumberOfWord(b: seq<Byte>)
    requires |b| == 2
    ensures Number(b) == b[0] as int + 0x100 * b[1] as int
  {
    assert Number(b[1..]) == b[1] as int + 0x100 * Number(b[1..][1..]);
  }

  lemma NumberOfLong(b: seq<Byte>)
    requires |b| == 4
    ensures Number(b) ==
      b[0] as int + 0x100 * b[1] as int + 0x1_0000 * b[2] as int + 0x100_0000 * b[3] as int
  {
    NumberOfWord(b[2..]);
    assert b[1..][1..] == b[2..];
    assert Number(b[1..]) == b[1] as int + 0x100 * Number(b[2..]);
  }

  function ReadData(d: Disc, s: State, width: nat): int {
    var t := Refill(d, s);
    if s.drq && t.index + width <= |t.buffer| then Number(t.buffer[t.index..t.index + width]) else 0
  }

  /** The state after k accesses. */
  function Reads(d: Disc, s: State, width: nat, k: nat): State
    decreases k, s
  {
    if k == 0 then s else AfterRead(d, Reads(d, s, width, k - 1), width)
  }

  /** A value holds the bytes of a word or long, the first byte lowest. */
  ghost predicate Carries(width: nat, b: seq<Byte>, value: int)
    requires |b| == width
  {
    && 0 <= value < (if width == 2 then 0x1_0000 else 0x1_0000_0000)
    && (width >= 2 ==> value % 0x100 == b[0] as int && value / 0x100 % 0x100 == b[1] as int)
    && (width >= 4 ==> value / 0x1_0000 % 0x100 == b[2] as int && value / 0x100_0000 == b[3] as int)
  }

  lemma PieceCarried(b: seq<Byte>, width: nat)
    requires (width == 2 || width == 4) && |b| == width
    ensures Carries(width, b, Number(b))
  {
    if width == 2 {
      NumberOfWord(b);
    } else {
      NumberOfLong(b);
      DivModIs(Number(b), 0x100, b[1] as int + 0x100 * b[2] as int + 0x1_0000 * b[3] as int, b[0] as int);
      DivModIs(Number(b), 0x1_0000, b[2] as int + 0x100 * b[3] as int, b[0] as int + 0x100 * b[1] as int);
    }
  }

  // The blocks that are fetched.

  /** The state after j blocks have been fetched, counters apart. */
  function Fetched(d: Disc, s: State, j: nat): State {
    if j == 0 then s else Fetch(d, Fetched(d, s, j - 1))
  }

  lemma FetchKeepsSize(d: Disc, s: State, j: nat)
    requires d.Valid() && |s.buffer| == 2048
    ensures |Fetched(d, s, j).buffer| == 2048
  {
  }

  lemma Int32Is(x: int, q: int)
    requires -0x8000_0000 <= x - q * WORD < 0x8000_0000
    ensures Int32(x) == x - q * WORD
  {
    DivModIs(x + 0x8000_0000, WORD, q, x - q * WORD + 0x8000_0000);
  }

  /** A block number kept as a C int finds its block modulo twice the reach, or fails. */
  lemma FoundIs(d: Disc, lba: nat, position: nat)
    requires lba < WORD
    ensures d.Found(Int32(lba), position) ==
            var x := lba % (2 * d.Reach()); if x < d.Reach() then x else position
  {
    var q := if lba < 0x8000_0000 then 0 else 1;
    Int32Is(lba, q);
    if d.wide {
      DivModIs(lba, WORD, 0, lba);
    } else {
      var y, x := lba / 0x20_0000, lba % 0x20_0000;
      DivMod(lba, 0x20_0000);
      Int32Is((lba - q * WORD) * 2048, y - q * 2048 + if x < 0x10_0000 then 0 else 1);
    }
  }

  /** A seek leads to the block, or fails while the file is at the block already. */
  predicate Sound(d: Disc, lba: nat, position: nat) {
    lba < d.Reach() || (lba % (2 * d.Reach()) >= d.Reach() && position == lba)
  }

  /** The right block is found exactly within reach, or where the seek fails and the file is there already. */
  lemma FoundExact(d: Disc, lba: nat, position: nat)
    requires lba < WORD
    ensures d.Found(Int32(lba), position) == lba <==> Sound(d, lba, position)
  {
    FoundIs(d, lba, position);
    DivMod(lba, 2 * d.Reach());
    if lba < 2 * d.Reach() {
      DivModIs(lba, 2 * d.Reach(), 0, lba);
    }
  }

  /** From a file of 4 GiB or more, block 2^21 is read as block 0. */
  lemma FarBlockIsAnother(blocks: seq<seq<Byte>>, position: nat)
    ensures Disc(blocks, false).Found(0x20_0000, position) == 0
  {
  }

  /** n blocks from lba on can be read in a row from a file position. */
  predicate InReach(d: Disc, lba: nat, n: nat, position: nat) {
    n == 0 || (Sound(d, lba, position) && lba % (2 * d.Reach()) + n <= 2 * d.Reach())
  }

  /** In a row one block more is in reach until the next multiple of twice the reach. */
  lemma InReachOneMore(d: Disc, lba: nat, n: nat, position: nat)
    requires n >= 1 && InReach(d, lba, n, position)
    ensures InReach(d, lba, n + 1, position) <==> Sound(d, lba + n, lba + n)
  {
    var r, x := 2 * d.Reach(), lba % (2 * d.Reach());
    DivMod(lba, r);
    if lba < d.Reach() {
      DivModIs(lba, r, 0, lba);
    }
    if x + n == r {
      Distribute(lba / r, r);
      DivModIs(lba + n, r, lba / r + 1, 0);
    } else {
      DivModIs(lba + n, r, lba / r, x + n);
    }
  }

  lemma ReachesOne(d: Disc, lba: nat, position: nat)
    ensures InReach(d, lba, 1, position) <==> Sound(d, lba, position)
  {
    DivMod(lba, 2 * d.Reach());
  }

  lemma ReachesLess(d: Disc, lba: nat, n: nat, position: nat)
    requires n >= 1
    ensures InReach(d, lba, n, position) ==> InReach(d, lba, n - 1, position)
  {
  }

  /** The first j fetches find the blocks from lba on, one by one. */
  ghost predicate InOrder(d: Disc, s: State, lba: nat, j: nat) {
    forall i | 0 <= i < j :: Next(d, Fetched(d, s, i)) == lba + i
  }

  lemma {:induction false} NextLbas(d: Disc, s: State, lba: nat, j: nat)
    requires s.nextLba == Int32(lba) && lba + j < 2 * WORD
    ensures Fetched(d, s, j).nextLba == Int32(lba + j)
  {
    if j > 0 {
      NextLbas(d, s, lba, j - 1);
      AddMod(lba + j - 1 + 0x8000_0000, 1, WORD);
      AddMod(Int32(lba + j - 1) + 0x8000_0000, 1, WORD);
    }
  }

  /** A run of fetches is in order exactly when its blocks are in reach. */
  lemma {:induction false} FetchesExact(d: Disc, s: State, lba: nat, j: nat)
    requires s.nextLba == Int32(lba) && lba + j <= |d.blocks| < WORD
    ensures InOrder(d, s, lba, j) <==> InReach(d, lba, j, s.position)
    ensures var f := Fetched(d, s, j);
      j > 0 && InOrder(d, s, lba, j) ==> f.position == lba + j && f.buffer == d.blocks[lba + j - 1]
  {
    if j > 0 {
      FetchesExact(d, s, lba, j - 1);
      NextLbas(d, s, lba, j - 1);
      FoundExact(d, lba + j - 1, Fetched(d, s, j - 1).position);
      if j == 1 {
        ReachesOne(d, lba, s.position);
      } else if InOrder(d, s, lba, j - 1) {
        InReachOneMore(d, lba, j - 1, s.position);
      } else {
        ReachesLess(d, lba, j, s.position);
      }
    }
  }

  lemma FetchedRight(d: Disc, s: State, lba: nat, n: nat, j: nat)
    requires s.nextLba == Int32(lba) && lba + n <= |d.blocks| < WORD && 1 <= j <= n && InReach(d, lba, n, s.position)
    ensures Fetched(d, s, j).buffer == d.blocks[lba + j - 1]
  {
    FetchesExact(d, s, lba, j);
  }

  /** The blocks fetched for the first p bytes of an answer. */
  function Blocks(p: nat): nat {
    (p + 2047) / 2048
  }

  /** Two states agree on the blocks fetched and to come. */
  ghost predicate Agree(s: State, t: State) {
    s.buffer == t.buffer && s.nextLba == t.nextLba && s.remaining == t.remaining && s.position == t.position
  }

  lemma FetchAgrees(d: Disc, s: State, t: State)
    requires Agree(s, t)
    ensures Agree(Fetch(d, s), Fetch(d, t))
  {
  }

  /** After p bytes of an answer the buffer is that of the block fetched last. */
  ghost predicate Placed(d: Disc, start: State, s: State, p: nat) {
    Agree(s, Fetched(d, start, Blocks(p))) && s.index == p + 2048 - 2048 * Blocks(p)
  }

  /** The bytes at position p of the answer. */
  ghost function Piece(d: Disc, start: State, p: nat, width: nat): (b: seq<Byte>)
    requires d.Valid() && |start.buffer| == 2048 && p % 2048 + width <= 2048
    ensures |b| == width
  {
    FetchKeepsSize(d, start, p / 2048 + 1);
    Fetched(d, start, p / 2048 + 1).buffer[p % 2048..p % 2048 + width]
  }

  lemma PieceFits(width: nat, p: nat)
    requires (width == 2 || width == 4) && Aligned(width, p)
    ensures p % 2048 + width <= 2048 && Blocks(p + width) == p / 2048 + 1
    ensures Blocks(p) == if p % 2048 == 0 then p / 2048 else p / 2048 + 1
  {
    var q, t := p / 2048, p % 2048;
    DivMod(p, 2048);
    if width == 2 {
      DivMod(p, 2);
      DivModIs(t, 2, p / 2 - 1024 * q, 0);
    } else {
      DivMod(p, 4);
      DivModIs(t, 4, p / 4 - 512 * q, 0);
    }
    DivModIs(p + width + 2047, 2048, q + 1, t + width - 1);
    if t == 0 {
      DivModIs(p + 2047, 2048, q, 2047);
    } else {
      DivModIs(p + 2047, 2048, q + 1, t - 1);
    }
  }

  lemma RefillPlaced(d: Disc, start: State, s: State, p: nat, width: nat)
    requires (width == 2 || width == 4) && Placed(d, start, s, p) && Aligned(width, p)
    ensures Agree(Refill(d, s), Fetched(d, start, p / 2048 + 1)) && Refill(d, s).index == p % 2048
  {
    PieceFits(width, p);
    DivMod(p, 2048);
    if p % 2048 == 0 {
      FetchAgrees(d, s, Fetched(d, start, p / 2048));
    }
  }

  lemma AfterReadAgrees(d: Disc, s: State, width: nat)
    requires s.drq
    ensures var t, u := Refill(d, s), AfterRead(d, s, width); Agree(u, t) && u.index == t.index + width
  {
  }

  /** One access moves on by its width and delivers the next bytes of the answer. */
  lemma ReadKeepsPlace(d: Disc, start: State, s: State, p: nat, width: nat)
    requires (width == 2 || width == 4) && Placed(d, start, s, p) && Aligned(width, p) && s.drq
    requires d.Valid() && |start.buffer| == 2048
    ensures Placed(d, start, AfterRead(d, s, width), p + width)
    ensures p % 2048 + width <= 2048 && ReadData(d, s, width) == Number(Piece(d, start, p, width))
  {
    PieceFits(width, p);
    DivMod(p, 2048);
    RefillPlaced(d, start, s, p, width);
    AfterReadAgrees(d, s, width);
    FetchKeepsSize(d, start, p / 2048 + 1);
  }

  lemma ReadCarries(d: Disc, start: State, s: State, p: nat, width: nat)
    requires (width == 2 || width == 4) && Placed(d, start, s, p) && Aligned(width, p) && s.drq
    requires d.Valid() && |start.buffer| == 2048
    ensures p % 2048 + width <= 2048 && Carries(width, Piece(d, start, p, width), ReadData(d, s, width))
  {
    ReadKeepsPlace(d, start, s, p, width);
    PieceCarried(Piece(d, start, p, width), width);
  }

  // The bursts of an answer.

  /** What is left of the bursts and of the answer agree, and every burst keeps to the limit. */
  ghost predicate Counted(length: int, width: nat, limit: nat, s: State, p: nat) {
    && 0 <= p < length && s.drq && !s.err && s.total - s.drqIndex == length - p
    && s.drqIndex < s.drqBytes <= s.total && s.drqBytes == s.byteCount <= limit
    && Aligned(width, s.drqBytes) && Aligned(width, s.drqIndex) && Aligned(width, s.total)
  }

  ghost predicate Done(s: State) {
    !s.drq && !s.err && s.cd && s.io && s.total == 0 && s.drqIndex == 0
  }

  /** The state of an answer, p bytes of which have been delivered. */
  ghost predicate Sending(d: Disc, start: State, length: int, width: nat, limit: nat, s: State, p: nat) {
    && Placed(d, start, s, p) && Aligned(width, p)
    && (Counted(length, width, limit, s, p) || (p == length && Done(s)))
  }

  predicate Balanced(s: State) {
    s.total - s.drqIndex == 2048 * s.remaining + 2048 - s.index
  }

  lemma AlignedIsEven(width: nat, x: int)
    requires Aligned(width, x)
    ensures x % 2 == 0
  {
    if width != 2 {
      DivMod(x, 4);
      DivModIs(x, 2, x / 4 * 2, 0);
    }
  }

  lemma {:induction false} RemainingBlocks(d: Disc, s: State, n: nat, j: nat)
    requires s.remaining == n < 0x8000_0000 && j <= n
    ensures Fetched(d, s, j).remaining == n - j
  {
    if j > 0 {
      RemainingBlocks(d, s, n, j - 1);
      Int32Is(n - j, 0);
    }
  }

  /**
   * In every state of an answer of n blocks, the bytes still counted are those of the buffer and of the blocks to
   * come; bursts are even and within the limit; and the command ends, with DRQ down, exactly when everything is
   * delivered.
   */
  lemma Conservation(d: Disc, start: State, n: nat, width: nat, limit: nat, s: State, p: nat)
    requires Sending(d, start, 2048 * n, width, limit, s, p) && start.remaining == n < 0x8000_0000
    ensures Balanced(s) && s.total - s.drqIndex == 2048 * n - p
    ensures s.drq == (p < 2048 * n) && !s.err && (!s.drq ==> s.cd && s.io)
    ensures s.drq ==> s.drqBytes % 2 == 0 && 2 <= s.drqBytes <= limit
  {
    RemainingBlocks(d, start, n, Blocks(p));
    if s.drq {
      AlignedIsEven(width, s.drqBytes);
    }
  }

  lemma Gap(width: nat, a: int, b: int)
    requires (width == 2 || width == 4) && Aligned(width, a) && Aligned(width, b)
    ensures Aligned(width, a + width) && Aligned(width, b - a) && (a < b ==> a + width <= b)
  {
    if width == 2 {
      DivMod(a, 2);
      DivMod(b, 2);
      DivModIs(a + 2, 2, a / 2 + 1, 0);
      DivModIs(b - a, 2, b / 2 - a / 2, 0);
    } else {
      DivMod(a, 4);
      DivMod(b, 4);
      DivModIs(a + 4, 4, a / 4 + 1, 0);
      DivModIs(b - a, 4, b / 4 - a / 4, 0);
    }
  }

  /** The end of a burst starts the next one or ends the command. */
  lemma EndBurstKeepsCount(length: int, width: nat, limit: nat, s: State, p: nat)
    requires (width == 2 || width == 4) && s.drq && !s.err && s.total - s.drqIndex == length - p
    requires 0 < s.drqIndex == s.drqBytes == s.byteCount <= limit && s.drqBytes <= s.total
    requires Aligned(width, s.drqBytes) && Aligned(width, s.total)
    ensures var t := EndBurst(s); if p < length then Counted(length, width, limit, t, p) else p == length && Done(t)
  {
    Gap(width, s.drqBytes, s.total);
  }

  lemma ReadKeepsCount(d: Disc, length: int, s: State, p: nat, width: nat, limit: nat)
    requires (width == 2 || width == 4) && Counted(length, width, limit, s, p)
    ensures var t := AfterRead(d, s, width);
      if p + width < length then Counted(length, width, limit, t, p + width) else p + width == length && Done(t)
  {
    Gap(width, s.drqIndex, s.drqBytes);
    var t := Refill(d, s);
    var u := t.(index := t.index + width, drqIndex := t.drqIndex + width);
    if u.drqIndex >= u.drqBytes {
      EndBurstKeepsCount(length, width, limit, u, p + width);
    }
  }

  lemma ReadKeepsSending(d: Disc, start: State, length: int, width: nat, limit: nat, s: State, p: nat)
    requires (width == 2 || width == 4) && d.Valid() && |start.buffer| == 2048
    requires Sending(d, start, length, width, limit, s, p) && p < length
    ensures Sending(d, start, length, width, limit, AfterRead(d, s, width), p + width)
    ensures p % 2048 + width <= 2048 && Carries(width, Piece(d, start, p, width), ReadData(d, s, width))
  {
    ReadKeepsPlace(d, start, s, p, width);
    ReadCarries(d, start, s, p, width);
    ReadKeepsCount(d, length, s, p, width, limit);
    Gap(width, p, p);
  }

  lemma RunStep(d: Disc, start: State, length: int, width: nat, limit: nat, s: State, k: nat)
    requires (width == 2 || width == 4) && d.Valid() && |start.buffer| == 2048
    requires k >= 1 && Span(width, k) <= length && Sending(d, start, length, width, limit, s, Span(width, k - 1))
    ensures Sending(d, start, length, width, limit, AfterRead(d, s, width), Span(width, k))
  {
    ReadKeepsSending(d, start, length, width, limit, s, Span(width, k - 1));
  }

  /** Every state of an answer keeps the invariant. */
  lemma {:induction false} ReadRun(d: Disc, start: State, length: int, width: nat, limit: nat, k: nat)
    requires (width == 2 || width == 4) && d.Valid() && |start.buffer| == 2048
    requires Sending(d, start, length, width, limit, start, 0) && Span(width, k) <= length
    ensures Sending(d, start, length, width, limit, Reads(d, start, width, k), Span(width, k))
    decreases k
  {
    if k > 0 {
      ReadRun(d, start, length, width, limit, k - 1);
      RunStep(d, start, length, width, limit, Reads(d, start, width, k - 1), k);
    }
  }

  /** The length of an answer as a C int, and the 16 bits of it that a byte count can hold. */
  lemma LengthIs(n: nat)
    requires n < WORD
    ensures var m := n % 0x20_0000;
      && Int32(n * 2048) == 2048 * m - (if m < 0x10_0000 then 0 else WORD)
      && UInt16(Int32(n * 2048)) == 2048 * (n % 32)
  {
    var m, q := n % 0x20_0000, n / 0x20_0000;
    DivMod(n, 0x20_0000);
    Int32Is(n * 2048, q + if m < 0x10_0000 then 0 else 1);
    DivMod(n, 32);
    DivModIs(Int32(n * 2048), 0x1_0000, n / 32 - (q + if m < 0x10_0000 then 0 else 1) * 0x1_0000, 2048 * (n % 32));
  }

  /** The start of an answer with a positive length. */
  lemma SendStarts(d: Disc, s: State, lba: nat, n: nat, width: nat)
    requires (width == 2 || width == 4) && 2 <= s.byteCount < 0x10000
    requires n < WORD && 0 < n % 0x20_0000 < 0x10_0000
    requires Aligned(width, BurstSize(s.byteCount, 2048 * (n % 0x20_0000)))
    ensures var t := Send(s, lba, n); Sending(d, t, 2048 * (n % 0x20_0000), width, s.byteCount, t, 0)
  {
    var m := n % 0x20_0000;
    LengthIs(n);
    BurstSizeIs(s.byteCount, m);
    DivModIs(2048 * m, 2, 1024 * m, 0);
    DivModIs(2048 * m, 4, 512 * m, 0);
  }

  // Whole answers.

  lemma SendRemaining(s: State, lba: nat, n: nat)
    requires n < 0x10_0000
    ensures Send(s, lba, n).remaining == n
  {
    Int32Is(n, 0);
  }

  /** The state of a read of n blocks that access number k finds. */
  lemma ReadStates(d: Disc, s: State, lba: nat, n: nat, width: nat, k: nat)
    requires (width == 2 || width == 4) && d.Valid() && |s.buffer| == 2048 && 2 <= s.byteCount < 0x10000
    requires 1 <= n < 0x10_0000 && Aligned(width, BurstSize(s.byteCount, 2048 * n)) && Span(width, k) <= 2048 * n
    ensures var start, p := Send(s, lba, n), Span(width, k);
      var t := Reads(d, start, width, k);
      && Sending(d, start, 2048 * n, width, s.byteCount, t, p)
      && Balanced(t) && t.drq == (p < 2048 * n) && !t.err && (!t.drq ==> t.cd && t.io)
      && (t.drq ==> t.drqBytes % 2 == 0 && 2 <= t.drqBytes <= s.byteCount)
  {
    var start := Send(s, lba, n);
    SendStarts(d, s, lba, n, width);
    ReadRun(d, start, 2048 * n, width, s.byteCount, k);
    SendRemaining(s, lba, n);
    Conservation(d, start, n, width, s.byteCount, Reads(d, start, width, k), Span(width, k));
  }

  /** What access number k of a read of n blocks delivers. */
  lemma ReadDelivers(d: Disc, s: State, lba: nat, n: nat, width: nat, k: nat)
    requires (width == 2 || width == 4) && d.Valid() && |s.buffer| == 2048 && 2 <= s.byteCount < 0x10000
    requires 1 <= n < 0x10_0000 && Aligned(width, BurstSize(s.byteCount, 2048 * n)) && Span(width, k) < 2048 * n
    ensures var start, p := Send(s, lba, n), Span(width, k);
      && p % 2048 + width <= 2048
      && Carries(width, Piece(d, start, p, width), ReadData(d, Reads(d, start, width, k), width))
  {
    ReadStates(d, s, lba, n, width, k);
    var start := Send(s, lba, n);
    ReadCarries(d, start, Reads(d, start, width, k), Span(width, k), width);
  }

  /** With word accesses every byte count of 2 or more works. */
  lemma WordReads(d: Disc, s: State, lba: nat, n: nat, k: nat)
    requires d.Valid() && |s.buffer| == 2048 && 2 <= s.byteCount < 0x10000 && 1 <= n < 0x10_0000 && k <= 1024 * n
    ensures var t := Reads(d, Send(s, lba, n), 2, k);
      && Balanced(t) && t.drq == (k < 1024 * n) && !t.err && (!t.drq ==> t.cd && t.io)
      && (t.drq ==> t.drqBytes % 2 == 0 && 2 <= t.drqBytes <= s.byteCount)
  {
    BurstSizeIs(s.byteCount, n);
    ReadStates(d, s, lba, n, 2, k);
  }

  /** Without a disc, or for no blocks, a READ ends at once: with an error or without. */
  lemma ReadEndsAtOnce(s: State, ready: bool, lba: nat, length: nat, capacity: nat)
    requires !ready || Clamped(lba, length, capacity) == 0
    ensures var t := ReadCommand(s, ready, lba, length, capacity); !t.drq && t.cd && t.io && t.err == !ready
  {
  }

  /** How many words the host is given before DRQ drops. */
  datatype Answer = Words(count: nat) | Endless

  function Given(byteCount: nat, n: nat): Answer {
    var m := n % 0x20_0000;
    if n == 0 then Words(0)
    else if 0 < m < 0x10_0000 then (if byteCount < 2 then Endless else Words(1024 * m))
    else Words(Max(1, 1024 * (n % 32)))
  }

  /** A request is given in full exactly with a byte count of at least 2 and fewer than 2^20 blocks. */
  lemma GivenExact(byteCount: nat, n: nat)
    requires n < WORD
    ensures Given(byteCount, n) == Words(1024 * n) <==> n == 0 || (byteCount >= 2 && n < 0x10_0000)
  {
    DivMod(n, 0x20_0000);
  }

  lemma PlacedStep(d: Disc, start: State, s: State, width: nat, k: nat)
    requires (width == 2 || width == 4) && d.Valid() && |start.buffer| == 2048 && k >= 1 && s.drq
    requires Placed(d, start, s, Span(width, k - 1)) && Aligned(width, Span(width, k - 1))
    ensures Placed(d, start, AfterRead(d, s, width), Span(width, k)) && Aligned(width, Span(width, k))
  {
    ReadKeepsPlace(d, start, s, Span(width, k - 1), width);
    Gap(width, Span(width, k - 1), 0);
  }

  /** While DRQ is up, an answer moves on with every access. */
  lemma {:induction false} PlacedRun(d: Disc, start: State, width: nat, k: nat)
    requires (width == 2 || width == 4) && d.Valid() && |start.buffer| == 2048 && Placed(d, start, start, 0)
    requires forall i | 0 <= i < k :: Reads(d, start, width, i).drq
    ensures Placed(d, start, Reads(d, start, width, k), Span(width, k)) && Aligned(width, Span(width, k))
    decreases k
  {
    if k > 0 {
      PlacedRun(d, start, width, k - 1);
      PlacedStep(d, start, Reads(d, start, width, k - 1), width, k);
    }
  }

  /** With a byte count below 2 the bursts are empty and the answer never ends. */
  ghost predicate Stuck(s: State) {
    s.drq && !s.err && s.total > 0 && s.byteCount == s.drqBytes == s.drqIndex == 0
  }

  lemma StaysStuck(d: Disc, s: State)
    requires Stuck(s)
    ensures Stuck(AfterRead(d, s, 2))
  {
  }

  lemma {:induction false} EndlessRun(d: Disc, start: State, k: nat)
    requires Stuck(start)
    ensures Stuck(Reads(d, start, 2, k))
  {
    if k > 0 {
      EndlessRun(d, start, k - 1);
      StaysStuck(d, Reads(d, start, 2, k - 1));
    }
  }

  /** With a length that is not positive there is a single burst, of at least one word. */
  ghost predicate LastBurst(bytes: nat, s: State, p: nat) {
    && s.total <= 0 && !s.err
    && (if p < Max(2, bytes) then s.drq && s.drqIndex == p && s.drqBytes == bytes else !s.drq && s.cd && s.io)
  }

  lemma StaysLast(d: Disc, bytes: nat, s: State, p: nat)
    requires LastBurst(bytes, s, p) && bytes % 2 == p % 2 == 0 && p < Max(2, bytes)
    ensures LastBurst(bytes, AfterRead(d, s, 2), p + 2)
  {
  }

  lemma {:induction false} ShortRun(d: Disc, start: State, bytes: nat, k: nat)
    requires LastBurst(bytes, start, 0) && bytes % 2 == 0 && 2 * k <= Max(2, bytes)
    ensures LastBurst(bytes, Reads(d, start, 2, k), 2 * k)
    decreases k
  {
    if k > 0 {
      ShortRun(d, start, bytes, k - 1);
      StaysLast(d, bytes, Reads(d, start, 2, k - 1), 2 * (k - 1));
    }
  }

  /** The start of any answer of a length that is not positive. */
  lemma ShortStarts(s: State, lba: nat, n: nat)
    requires s.byteCount < 0x10000 && 1 <= n < WORD && !(0 < n % 0x20_0000 < 0x10_0000)
    ensures LastBurst(2048 * (n % 32), Send(s, lba, n), 0)
  {
    LengthIs(n);
  }

  /** DRQ after k words of a read of n blocks, for every n. */
  lemma WordCounts(d: Disc, s: State, lba: nat, n: nat, k: nat)
    requires d.Valid() && |s.buffer| == 2048 && s.byteCount < 0x10000 && 1 <= n < WORD
    requires var g := Given(s.byteCount, n); g.Words? ==> k <= g.count
    ensures var g, t := Given(s.byteCount, n), Reads(d, Send(s, lba, n), 2, k);
      !t.err && (!t.drq ==> t.cd && t.io) && (t.drq <==> g.Endless? || k < g.count)
  {
    var start, m := Send(s, lba, n), n % 0x20_0000;
    LengthIs(n);
    if !(0 < m < 0x10_0000) {
      ShortStarts(s, lba, n);
      ShortRun(d, start, 2048 * (n % 32), k);
    } else if s.byteCount < 2 {
      EndlessRun(d, start, k);
    } else {
      BurstSizeIs(s.byteCount, m);
      SendStarts(d, s, lba, n, 2);
      ReadRun(d, start, 2048 * m, 2, s.byteCount, k);
    }
  }

  /** The same from the command on, and which fetch the buffer comes from; a request of no blocks ends at once. */
  lemma CommandRun(d: Disc, s: State, lba: nat, length: nat, k: nat)
    requires d.Valid() && |s.buffer| == 2048 && s.byteCount < 0x10000
    requires lba < WORD && length < WORD && |d.blocks| < WORD
    requires var g := Given(s.byteCount, Clamped(lba, length, |d.blocks|)); g.Words? ==> k <= g.count
    ensures var n, start := Clamped(lba, length, |d.blocks|), ReadCommand(s, true, lba, length, |d.blocks|);
      var g, t := Given(s.byteCount, n), Reads(d, start, 2, k);
      && !t.err && (!t.drq ==> t.cd && t.io) && (t.drq <==> g.Endless? || k < g.count)
      && (n > 0 ==> Placed(d, start, t, 2 * k))
  {
    var n := Clamped(lba, length, |d.blocks|);
    if n > 0 {
      var start := Send(s, lba, n);
      forall i | 0 <= i <= k
        ensures var g, t := Given(s.byteCount, n), Reads(d, start, 2, i);
          !t.err && (!t.drq ==> t.cd && t.io) && (t.drq <==> g.Endless? || i < g.count)
      {
        WordCounts(d, s, lba, n, i);
      }
      PlacedRun(d, start, 2, k);
    }
  }

  /** One block past the end of a disc of ten is not refused: 2^32 - 1 blocks are asked for and 31 are given. */
  lemma BeyondDiscIsNotCut(byteCount: nat)
    ensures Clamped(11, 1, 10) == WORD - 1 && Given(byteCount, WORD - 1) == Words(1024 * 31)
  {
  }

  /** The blocks of a request that are on the disc. */
  function OnDisc(lba: nat, length: nat, capacity: nat): nat {
    if lba < capacity then Min(length, capacity - lba) else 0
  }

  /** After k words the host is right to expect more of n blocks, and the access that needs a block finds it. */
  ghost predicate Served(d: Disc, lba: nat, n: nat, t: State, k: nat) {
    && t.drq == (k < 1024 * n)
    && (k < 1024 * n && t.index >= 2048 ==> Next(d, t) == lba + k / 1024)
  }

  lemma ServedAt(d: Disc, start: State, lba: nat, n: nat, t: State, k: nat)
    requires Placed(d, start, t, 2 * k) && t.drq == (k < 1024 * n)
    ensures InOrder(d, start, lba, n) ==> Served(d, lba, n, t, k)
    ensures k % 1024 == 0 && k < 1024 * n && Served(d, lba, n, t, k) ==>
            Next(d, Fetched(d, start, k / 1024)) == lba + k / 1024
  {
    PieceFits(2, 2 * k);
    DivMod(k, 1024);
    DivModIs(2 * k, 2048, k / 1024, 2 * (k % 1024));
  }

  /** n blocks from lba on are served. */
  ghost predicate AllServed(d: Disc, lba: nat, n: nat, start: State) {
    forall k | 0 <= k <= 1024 * n :: Served(d, lba, n, Reads(d, start, 2, k), k)
  }

  lemma ServedInOrder(d: Disc, s: State, lba: nat, length: nat, n: nat)
    requires d.Valid() && |s.buffer| == 2048 && s.byteCount < 0x10000
    requires lba < WORD && length < WORD && |d.blocks| < WORD && n >= 1
    requires Given(s.byteCount, Clamped(lba, length, |d.blocks|)) == Words(1024 * n)
    ensures var start := ReadCommand(s, true, lba, length, |d.blocks|);
      InOrder(d, start, lba, n) ==> AllServed(d, lba, n, start)
  {
    var start := ReadCommand(s, true, lba, length, |d.blocks|);
    if InOrder(d, start, lba, n) {
      forall k | 0 <= k <= 1024 * n ensures Served(d, lba, n, Reads(d, start, 2, k), k) {
        CommandRun(d, s, lba, length, k);
        ServedAt(d, start, lba, n, Reads(d, start, 2, k), k);
      }
    }
  }

  lemma OrderOfServed(d: Disc, s: State, lba: nat, length: nat, n: nat)
    requires d.Valid() && |s.buffer| == 2048 && s.byteCount < 0x10000
    requires lba < WORD && length < WORD && |d.blocks| < WORD && n >= 1
    requires Given(s.byteCount, Clamped(lba, length, |d.blocks|)) == Words(1024 * n)
    ensures var start := ReadCommand(s, true, lba, length, |d.blocks|);
      AllServed(d, lba, n, start) ==> InOrder(d, start, lba, n)
  {
    var start := ReadCommand(s, true, lba, length, |d.blocks|);
    if AllServed(d, lba, n, start) {
      forall i | 0 <= i < n ensures Next(d, Fetched(d, start, i)) == lba + i {
        var k := 1024 * i;
        DivModIs(k, 1024, i, 0);
        CommandRun(d, s, lba, length, k);
        ServedAt(d, start, lba, n, Reads(d, start, 2, k), k);
      }
    }
  }

  /**
   * READ from the command on, for every request: the host is served exactly the blocks that are on the disc, if and
   * only if that many words are given and the blocks can be read in a row from where the file is.
   */
  lemma ReadExactly(d: Disc, s: State, lba: nat, length: nat)
    requires d.Valid() && |s.buffer| == 2048 && s.byteCount < 0x10000
    requires lba < WORD && length < WORD && |d.blocks| < WORD
    ensures var n, start := OnDisc(lba, length, |d.blocks|), ReadCommand(s, true, lba, length, |d.blocks|);
      AllServed(d, lba, n, start) <==>
      Given(s.byteCount, Clamped(lba, length, |d.blocks|)) == Words(1024 * n) && InReach(d, lba, n, s.position)
  {
    var n, start := OnDisc(lba, length, |d.blocks|), ReadCommand(s, true, lba, length, |d.blocks|);
    var g := Given(s.byteCount, Clamped(lba, length, |d.blocks|));
    if g != Words(1024 * n) {
      var k := if g.Words? && g.count < 1024 * n then g.count else 1024 * n;
      CommandRun(d, s, lba, length, k);
      assert !Served(d, lba, n, Reads(d, start, 2, k), k);
    } else if n == 0 {
      CommandRun(d, s, lba, length, 0);
    } else {
      FetchesExact(d, start, lba, n);
      ServedInOrder(d, s, lba, length, n);
      OrderOfServed(d, s, lba, length, n);
    }
  }

  /** A word of the bytes number p and p + 1 of the blocks from lba on, the first byte lowest. */
  ghost predicate WordAt(d: Disc, lba: nat, p: nat, value: int) {
    && lba + p / 2048 < |d.blocks| && p % 2048 + 2 <= |d.blocks[lba + p / 2048]|
    && value % 0x100 == d.blocks[lba + p / 2048][p % 2048] as int
    && value / 0x100 == d.blocks[lba + p / 2048][p % 2048 + 1] as int
  }

  lemma WordOfBlock(d: Disc, lba: nat, p: nat, b: seq<Byte>, value: int)
    requires lba + p / 2048 < |d.blocks| && p % 2048 + 2 <= |d.blocks[lba + p / 2048]| && |b| == 2
    requires b == d.blocks[lba + p / 2048][p % 2048..p % 2048 + 2] && Carries(2, b, value)
    ensures WordAt(d, lba, p, value)
  {
  }

  /** After k words the host has DRQ as long as there is more of n blocks, the next of their words, and no error. */
  ghost predicate Answered(d: Disc, lba: nat, n: nat, t: State, k: nat) {
    && Served(d, lba, n, t, k) && !t.err && (!t.drq ==> t.cd && t.io)
    && (t.drq ==> WordAt(d, lba, 2 * k, ReadData(d, t, 2)))
  }

  ghost predicate AllAnswered(d: Disc, lba: nat, n: nat, start: State) {
    forall k | 0 <= k <= 1024 * n :: Answered(d, lba, n, Reads(d, start, 2, k), k)
  }

  lemma AnsweredIsServed(d: Disc, lba: nat, n: nat, start: State)
    requires AllAnswered(d, lba, n, start)
    ensures AllServed(d, lba, n, start)
  {
    forall k | 0 <= k <= 1024 * n ensures Served(d, lba, n, Reads(d, start, 2, k), k) {
      assert Answered(d, lba, n, Reads(d, start, 2, k), k);
    }
  }

  lemma PieceIs(d: Disc, start: State, lba: nat, n: nat, p: nat)
    requires d.Valid() && |start.buffer| == 2048 && start.nextLba == Int32(lba) && lba + n <= |d.blocks| < WORD
    requires p < 2048 * n && p % 2048 + 2 <= 2048 && InReach(d, lba, n, start.position)
    ensures lba + p / 2048 < |d.blocks| && |d.blocks[lba + p / 2048]| == 2048
    ensures Piece(d, start, p, 2) == d.blocks[lba + p / 2048][p % 2048..p % 2048 + 2]
  {
    FetchedRight(d, start, lba, n, p / 2048 + 1);
  }

  lemma AnsweredAt(d: Disc, start: State, lba: nat, n: nat, t: State, k: nat)
    requires d.Valid() && |start.buffer| == 2048 && start.nextLba == Int32(lba) && lba + n <= |d.blocks| < WORD
    requires Placed(d, start, t, 2 * k) && t.drq && k < 1024 * n && InReach(d, lba, n, start.position)
    ensures WordAt(d, lba, 2 * k, ReadData(d, t, 2))
  {
    var p := 2 * k;
    ReadCarries(d, start, t, p, 2);
    PieceIs(d, start, lba, n, p);
    WordOfBlock(d, lba, p, Piece(d, start, p, 2), ReadData(d, t, 2));
  }

  lemma ClampedIs(lba: nat, length: nat, capacity: nat)
    requires capacity < WORD && lba <= capacity && lba + length < WORD
    ensures Clamped(lba, length, capacity) == OnDisc(lba, length, capacity)
  {
    DivModIs(lba + length, WORD, 0, lba + length);
    DivModIs(capacity - lba, WORD, 0, capacity - lba);
  }

  /**
   * For a start on the disc and an end that does not wrap: the host gets exactly the blocks of the request that are on
   * the disc, word by word, and then the end of the command, if and only if there are none, or it asked for bursts of
   * at least two bytes, there are fewer than 2^20, and they are in reach.
   */
  lemma ReadAnswers(d: Disc, s: State, lba: nat, length: nat)
    requires d.Valid() && |s.buffer| == 2048 && s.byteCount < 0x10000
    requires lba <= |d.blocks| < WORD && lba + length < WORD
    ensures var n, start := OnDisc(lba, length, |d.blocks|), ReadCommand(s, true, lba, length, |d.blocks|);
      AllAnswered(d, lba, n, start) <==>
      n == 0 || (s.byteCount >= 2 && n < 0x10_0000 && InReach(d, lba, n, s.position))
  {
    var n, start := OnDisc(lba, length, |d.blocks|), ReadCommand(s, true, lba, length, |d.blocks|);
    ClampedIs(lba, length, |d.blocks|);
    GivenExact(s.byteCount, n);
    ReadExactly(d, s, lba, length);
    if n == 0 || (s.byteCount >= 2 && n < 0x10_0000 && InReach(d, lba, n, s.position)) {
      forall k | 0 <= k <= 1024 * n ensures Answered(d, lba, n, Reads(d, start, 2, k), k) {
        CommandRun(d, s, lba, length, k);
        if k < 1024 * n {
          AnsweredAt(d, start, lba, n, Reads(d, start, 2, k), k);
        }
      }
    } else if AllAnswered(d, lba, n, start) {
      AnsweredIsServed(d, lba, n, start);
    }
  }

  /** A READ of 2^21 blocks of a disc that has them: the length is 0 as a C int, and DRQ drops after one word. */
  lemma LongAnswerIsCut(d: Disc, s: State)
    requires d.Valid() && |s.buffer| == 2048 && s.byteCount < 0x10000 && |d.blocks| == 0x20_0000
    ensures !Reads(d, ReadCommand(s, true, 0, 0x20_0000, |d.blocks|), 2, 1).drq
  {
    CommandRun(d, s, 0, 0x20_0000, 1);
  }

  // Long accesses.

  /** Long accesses inside the first burst. */
  lemma {:induction false} LongsInBurst(d: Disc, start: State, k: nat)
    requires start.drq && start.drqIndex == 0 && 4 * k < start.drqBytes
    ensures var t := Reads(d, start, 4, k);
      t.drq && t.drqIndex == 4 * k && t.drqBytes == start.drqBytes && t.total == start.total
  {
    if k > 0 {
      LongsInBurst(d, start, k - 1);
    }
  }

  /** The bytes still counted are those still to come of n blocks after k long accesses. */
  ghost predicate Owed(n: nat, t: State, k: nat) {
    t.total - t.drqIndex == 2048 * n - 4 * k
  }

  lemma PastBurst(d: Disc, s: State, n: nat, k: nat)
    requires s.drq && s.total == 2048 * n && s.drqIndex == 4 * k && s.drqBytes == 4 * k + 2
    ensures !Owed(n, AfterRead(d, s, 4), k + 1)
  {
  }

  /** A burst that is no multiple of four is miscounted by long accesses. */
  lemma LongsMiscount(d: Disc, s: State, lba: nat, n: nat, k: nat)
    requires d.Valid() && |s.buffer| == 2048 && 2 <= s.byteCount < 0x10000 && 1 <= n < 0x10_0000
    requires 4 * k + 2 == BurstSize(s.byteCount, 2048 * n)
    ensures !Owed(n, Reads(d, Send(s, lba, n), 4, k + 1), k + 1)
  {
    BurstSizeIs(s.byteCount, n);
    LengthIs(n);
    var start := Send(s, lba, n);
    LongsInBurst(d, start, k);
    PastBurst(d, Reads(d, start, 4, k), n, k);
  }

  lemma BurstRemainder(b: int, n: int) returns (k: nat)
    requires 2 <= b <= 2048 * n && b % 2 == 0 && b % 4 != 0
    ensures b == 4 * k + 2 && k + 1 <= 512 * n
  {
    DivMod(b, 4);
    DivMod(b, 2);
    k := b / 4;
  }

  /** Without bursts, or with a length that is no C int, the count is wrong from the start. */
  lemma LongsNeverRight(d: Disc, s: State, lba: nat, n: nat)
    requires s.byteCount < 0x10000 && 1 <= n < WORD && (s.byteCount < 2 || n >= 0x10_0000)
    ensures !Owed(n, Reads(d, Send(s, lba, n), 4, 0), 0) || !Owed(n, Reads(d, Send(s, lba, n), 4, 1), 1)
  {
    LengthIs(n);
    DivMod(n, 0x20_0000);
  }

  /**
   * With long accesses the count is right throughout exactly with bursts of a multiple of four bytes, at least four,
   * and fewer than 2^20 blocks.
   */
  lemma LongReadsExact(d: Disc, s: State, lba: nat, n: nat)
    requires d.Valid() && |s.buffer| == 2048 && s.byteCount < 0x10000 && 1 <= n < WORD
    ensures (forall k | 0 <= k <= 512 * n :: Owed(n, Reads(d, Send(s, lba, n), 4, k), k)) <==>
            s.byteCount >= 2 && n < 0x10_0000 && BurstSize(s.byteCount, 2048 * n) % 4 == 0
  {
    var b := BurstSize(s.byteCount, 2048 * n);
    if s.byteCount < 2 || n >= 0x10_0000 {
      LongsNeverRight(d, s, lba, n);
    } else if b % 4 == 0 {
      forall k | 0 <= k <= 512 * n ensures Owed(n, Reads(d, Send(s, lba, n), 4, k), k) {
        ReadStates(d, s, lba, n, 4, k);
      }
    } else {
      BurstSizeIs(s.byteCount, n);
      var k := BurstRemainder(b, n);
      LongsMiscount(d, s, lba, n, k);
    }
  }

  /** The drive with a disc in it. */
  class Drive {
    const buffer: array<Byte>
    var disc: Disc
    var byteCount: nat
    var index: nat
    var drqIndex: nat
    var drqBytes: nat
    var total: int
    var remaining: int
    var nextLba: int
    var position: nat
    var drq: bool
    var err: bool
    var cd: bool
    var io: bool

    ghost function View(): State
      reads this, buffer
    {
      State(byteCount, buffer[..], index, drqIndex, drqBytes, total, remaining, nextLba, position, drq, err, cd, io)
    }

    constructor (disc: Disc)
      requires disc.Valid()
      ensures this.disc == disc && buffer.Length == 2048 && fresh(buffer)
    {
      this.disc := disc;
      buffer := new Byte[2048](_ => 0 as Byte);
      byteCount, index, drqIndex, drqBytes, total, remaining, nextLba, position := 0, 0, 0, 0, 0, 0, 0, 0;
      drq, err, cd, io := false, false, false, false;
    }

    method AdjustByteCount(alloc: int)
      modifies `byteCount
      ensures byteCount == Adjusted(old(byteCount), alloc)
    {
      if byteCount == 0xffff {
        byteCount := 0xfffe;
      }
      if byteCount % 2 == 1 && !(alloc <= byteCount) {
        byteCount := byteCount - 1;
      }
    }

    /** The start of an answer of at most req bytes to a host that has room for alloc, both C ints. */
    method InitSendCommand(req: int, alloc: int, lazy: bool)
      modifies `byteCount, `index, `drqIndex, `drqBytes, `total, `drq, `err, `cd, `io
      ensures View() == InitSend(old(View()), req, alloc, lazy)
    {
      AdjustByteCount(alloc);
      var length := alloc;
      if length == 0 {
        length := byteCount;
      }
      io, cd, drq, err := true, false, true, false;
      index := if lazy then 2048 else 0;
      drqIndex := 0;
      if byteCount > req {
        byteCount := UInt16(req);
      }
      if byteCount > length {
        byteCount := UInt16(length);
      }
      drqBytes := byteCount;
      total := if req < length then req else length;
    }

    method StartRead(ready: bool, lba: nat, length: nat, capacity: nat)
      modifies `byteCount, `index, `drqIndex, `drqBytes, `total, `drq, `err, `cd, `io, `remaining, `nextLba
      ensures View() == ReadCommand(old(View()), ready, lba, length, capacity)
    {
      if !ready {
        io, cd, drq, err := true, true, false, true;
        return;
      }
      var n := length;
      if (lba + n) % WORD > capacity {
        n := (capacity - lba) % WORD;
      }
      if n <= 0 {
        io, cd, drq, err := true, true, false, false;
        return;
      }
      InitSendCommand(Int32(n * 2048), Int32(n * 2048), true);
      remaining := Int32(n);
      nextLba := Int32(lba);
    }

    /** Seek and read: a failed seek leaves the position, a read at the end of the file the buffer. */
    method ReadBlock()
      requires disc.Valid() && buffer.Length == 2048
      modifies buffer, `position
      ensures var s := old(View()); var t := Fetch(disc, s);
              View() == s.(buffer := t.buffer, position := t.position)
    {
      var seek := if disc.wide then nextLba * 2048 else Int32(nextLba * 2048);
      if seek >= 0 {
        position := seek / 2048;
      }
      if position < |disc.blocks| {
        forall i | 0 <= i < 2048 {
          buffer[i] := disc.blocks[position][i];
        }
        assert buffer[..] == disc.blocks[position];
        position := position + 1;
      }
    }

    method LoadBlock()
      requires disc.Valid() && buffer.Length == 2048
      modifies buffer, `index, `remaining, `nextLba, `position
      ensures View() == Refill(disc, old(View()))
    {
      if index >= 2048 {
        ReadBlock();
        nextLba := Int32(nextLba + 1);
        remaining := Int32(remaining - 1);
        index := 0;
      }
    }

    method FinishBurst()
      modifies `byteCount, `drqIndex, `drqBytes, `total, `drq, `err, `cd, `io
      ensures View() == EndBurst(old(View()))
    {
      drq, drqIndex := false, 0;
      total := total - drqBytes;
      if total > 0 {
        io, cd, drq := true, false, true;
        if total < byteCount {
          byteCount := total;
        }
        drqBytes := byteCount;
      } else {
        io, cd, drq, err := true, true, false, false;
      }
    }

    /** Count the bytes of an access. */
    method Account(width: nat)
      modifies `index, `byteCount, `drqIndex, `drqBytes, `total, `drq, `err, `cd, `io
      ensures var s := old(View());
              var t := s.(index := s.index + width, drqIndex := s.drqIndex + width);
              View() == if t.drqIndex >= t.drqBytes then EndBurst(t) else t
    {
      index := index + width;
      drqIndex := drqIndex + width;
      if drqIndex >= drqBytes {
        FinishBurst();
      }
    }

    /** The bytes of the buffer at an index, the first lowest. */
    method BytesAt(at: nat, width: nat) returns (value: int)
      requires (width == 2 || width == 4) && at + width <= buffer.Length
      ensures value == Number(buffer[at..at + width])
      ensures value == buffer[at] as int + 0x100 * buffer[at + 1] as int
                + if width == 2 then 0 else 0x1_0000 * buffer[at + 2] as int + 0x100_0000 * buffer[at + 3] as int
    {
      value := buffer[at] as int + 0x100 * buffer[at + 1] as int;
      if width == 4 {
        value := value + 0x1_0000 * buffer[at + 2] as int + 0x100_0000 * buffer[at + 3] as int;
        NumberOfLong(buffer[at..at + 4]);
      } else {
        NumberOfWord(buffer[at..at + 2]);
      }
    }

    method ReadPort(width: nat) returns (value: int)
      requires (width == 2 || width == 4) && disc.Valid() && buffer.Length == 2048
      requires Refill(disc, View()).index + width <= 2048
      modifies this, buffer
      ensures disc == old(disc) && value == ReadData(disc, old(View()), width)
      ensures old(drq) ==>
                var t := Refill(disc, old(View()));
                value == t.buffer[t.index] as int + 0x100 * t.buffer[t.index + 1] as int
                  + if width == 2 then 0
                    else 0x1_0000 * t.buffer[t.index + 2] as int + 0x100_0000 * t.buffer[t.index + 3] as int
      ensures View() == AfterRead(disc, old(View()), width)
    {
      if !drq {
        return 0;
      }
      LoadBlock();
      value := BytesAt(index, width);
      Account(width);
    }
  }
}
