/**
 * The ATA disk (src/ata.cpp): READ SECTORS and WRITE SECTORS through the data port, with the address registers
 * stepping in CHS and LBA mode. The image file holds exactly the sectors of the geometry.
 */
module AtaDisk {
  import opened Arith
  import opened Bytes

  // Addresses.

  datatype Geometry = Geometry(cylinders: nat, heads: nat, sectors: nat) {
    /** The sizes that the address registers can count to. */
    predicate Fits() {
      1 <= cylinders <= 0x10000 && 1 <= heads <= 255 && 1 <= sectors <= 255
    }

    function Size(): nat {
      cylinders * heads * sectors
    }

    /** The number of sectors, computed in 32 bits. */
    function Total(): nat {
      Size() % 0x1_0000_0000
    }
  }

  datatype Address = Address(lba: bool, head: nat, cylinder: nat, sector: nat) {
    predicate Valid() {
      head < 0x100 && cylinder < 0x10000 && sector < 0x100 && (lba ==> head < 16)
    }
  }

  /** The sector a cylinder, head and sector number stand for; sector numbers start at 1. */
  function Chs(g: Geometry, a: Address): int {
    (a.cylinder * g.heads + a.head) * g.sectors + a.sector - 1
  }

  function Lba(a: Address): int {
    a.head * 0x100_0000 + a.cylinder * 0x100 + a.sector
  }

  /** The logical sector, an unsigned 32-bit number. */
  function Logical(g: Geometry, a: Address): nat {
    if a.lba then Lba(a) % 0x1_0000_0000 else Chs(g, a) % 0x1_0000_0000
  }

  /** The address registers after one sector. */
  function Increment(g: Geometry, a: Address): Address {
    if a.lba then
      var n := Logical(g, a) + 1;
      a.(head := n / 0x100_0000 % 16, cylinder := n / 0x100 % 0x10000, sector := n % 0x100)
    else
      var sector := (a.sector + 1) % 0x100;
      if sector <= g.sectors && sector != 0 then a.(sector := sector) else
        var head := (a.head + 1) % 0x100;
        if head < g.heads then a.(sector := 1, head := head) else
          var cylinder := (a.cylinder + 1) % 0x10000;
          var last := (g.cylinders - 1) % 0x10000;
          a.(sector := 1, head := 0, cylinder := if cylinder >= g.cylinders then last else cylinder)
  }

  lemma LbaRoundTrip(g: Geometry, a: Address)
    requires a.lba && a.Valid()
    ensures Logical(g, a) == Lba(a) < 0x1000_0000
  {
    DivModIs(Lba(a), 0x1_0000_0000, 0, Lba(a));
  }

  /** In LBA mode the next sector follows, up to the last one that 28 bits can name. */
  lemma LbaStep(g: Geometry, a: Address)
    requires a.lba && a.Valid()
    ensures Increment(g, a).Valid()
    ensures Logical(g, Increment(g, a)) == Logical(g, a) + 1 <==> Logical(g, a) + 1 < 0x1000_0000
  {
    LbaRoundTrip(g, a);
    var n := Lba(a) + 1;
    var b := Increment(g, a);
    LbaRoundTrip(g, b);
    DivMod(n, 0x100);
    DivMod(n / 0x100, 0x10000);
    assert n / 0x100 / 0x10000 == n / 0x100_0000;
    if n < 0x1000_0000 {
      DivModIs(n / 0x100_0000, 16, 0, n / 0x100_0000);
    }
  }

  /** A cylinder, head and sector that the geometry has; sector 0 counts as the one before sector 1. */
  predicate Proper(g: Geometry, a: Address) {
    && a.cylinder < g.cylinders && a.head < g.heads && a.sector <= g.sectors
    && (a.cylinder > 0 || a.head > 0 || a.sector > 0)
  }

  /** Digits of a mixed-radix number. */
  lemma Below(x: int, y: int, r: int, k: int)
    requires 0 <= x < y && 0 <= r < k
    ensures 0 <= x * k + r < y * k
  {
    ProductBound(x, k, y - 1, k);
    assert (y - 1) * k == y * k - k;
  }

  lemma TotalFits(g: Geometry)
    requires g.Fits()
    ensures g.Total() == g.Size() > 0
  {
    var tracks := g.cylinders * g.heads;
    ProductBound(g.cylinders, g.heads, 0x10000, 255);
    ProductBound(tracks, g.sectors, 0x10000 * 255, 255);
    assert tracks >= 1;
    assert tracks * g.sectors >= 1;
    DivModIs(g.Size(), 0x1_0000_0000, 0, g.Size());
  }

  lemma SectorOfTrack(track: int, tracks: int, sector: int, sectors: int)
    requires 0 <= track < tracks && 0 <= sector <= sectors && sectors >= 1 && (track > 0 || sector > 0)
    ensures 0 <= track * sectors + sector - 1 < tracks * sectors
  {
    if sector > 0 {
      Below(track, tracks, sector - 1, sectors);
    } else {
      Below(track - 1, tracks, sectors - 1, sectors);
      assert (track - 1) * sectors == track * sectors - sectors;
    }
  }

  lemma ProperChs(g: Geometry, a: Address)
    requires g.Fits() && Proper(g, a)
    ensures 0 <= Chs(g, a) < g.Total() < 0x1_0000_0000
  {
    TotalFits(g);
    Below(a.cylinder, g.cylinders, a.head, g.heads);
    if a.cylinder > 0 {
      ProductBound(1, 1, a.cylinder, g.heads);
    }
    SectorOfTrack(a.cylinder * g.heads + a.head, g.cylinders * g.heads, a.sector, g.sectors);
  }

  lemma ProperLogical(g: Geometry, a: Address)
    requires g.Fits() && !a.lba && Proper(g, a)
    ensures Logical(g, a) == Chs(g, a) < g.Total()
  {
    ProperChs(g, a);
    DivModIs(Chs(g, a), 0x1_0000_0000, 0, Chs(g, a));
  }

  function Track(g: Geometry, a: Address): int {
    a.cylinder * g.heads + a.head
  }

  /** The end of a track and the start of the next. */
  lemma TrackToTrack(g: Geometry, a: Address, b: Address)
    requires Track(g, b) == Track(g, a) + 1 && a.sector == g.sectors && b.sector == 1
    ensures Chs(g, b) == Chs(g, a) + 1
  {
    assert (Track(g, a) + 1) * g.sectors == Track(g, a) * g.sectors + g.sectors;
  }

  /** The last track of a cylinder is followed by another cylinder unless the disk ends. */
  lemma NextCylinder(g: Geometry, a: Address)
    requires g.Fits() && Proper(g, a) && Chs(g, a) + 1 < g.Total() && a.sector == g.sectors && a.head + 1 == g.heads
    ensures a.cylinder + 1 < g.cylinders && (a.cylinder + 1) * g.heads == Track(g, a) + 1
  {
    TotalFits(g);
    assert (a.cylinder + 1) * g.heads == a.cylinder * g.heads + g.heads;
    assert (Track(g, a) + 1) * g.sectors == Track(g, a) * g.sectors + g.sectors;
  }

  lemma IncrementInside(g: Geometry, a: Address)
    requires g.Fits() && !a.lba && a.sector < g.sectors
    ensures Increment(g, a) == a.(sector := a.sector + 1)
  {
  }

  lemma IncrementAtEnd(g: Geometry, a: Address)
    requires g.Fits() && !a.lba && a.Valid() && a.sector >= g.sectors
    ensures var b := Increment(g, a);
      && b.sector == 1
      && if a.head + 1 < g.heads then b.head == a.head + 1 && b.cylinder == a.cylinder
         else b.head == 0 && if a.head == 255 then b.cylinder == a.cylinder
                             else if a.cylinder + 1 < g.cylinders then b.cylinder == a.cylinder + 1
                             else b.cylinder <= a.cylinder
  {
  }

  /** In CHS mode the next sector of the disk follows a proper address. */
  lemma ChsStep(g: Geometry, a: Address)
    requires g.Fits() && !a.lba && Proper(g, a) && Chs(g, a) + 1 < g.Total()
    ensures Proper(g, Increment(g, a)) && Chs(g, Increment(g, a)) == Chs(g, a) + 1
  {
    if a.sector < g.sectors {
      IncrementInside(g, a);
    } else {
      IncrementAtEnd(g, a);
      if a.head + 1 == g.heads {
        NextCylinder(g, a);
      }
      TrackToTrack(g, a, Increment(g, a));
    }
  }

  /** Whether another track of the disk follows. */
  predicate HasNextTrack(g: Geometry, a: Address) {
    a.head + 1 < g.heads || (a.head + 1 == g.heads && a.cylinder + 1 < g.cylinders)
  }

  /** The addresses whose successor is the next sector of the disk. */
  predicate Consecutive(g: Geometry, a: Address) {
    || a.sector < g.sectors
    || (a.sector == g.sectors && HasNextTrack(g, a))
  }

  lemma TrackOrder(c: int, c': int, heads: int)
    requires heads >= 0 && c >= 0 && c' >= 0
    ensures c' == c + 1 ==> c' * heads == c * heads + heads
    ensures c' <= c ==> c' * heads <= c * heads
  {
    if c' <= c {
      ProductBound(c', heads, c, heads);
    }
  }

  /** At or beyond the end of a track the registers go to the next track, or to no later one if there is none. */
  lemma StepOfTrack(g: Geometry, a: Address, b: Address)
    requires g.Fits() && !a.lba && a.Valid() && a.sector >= g.sectors && b == Increment(g, a)
    ensures b.sector == 1 && if HasNextTrack(g, a) then Track(g, b) == Track(g, a) + 1 else Track(g, b) <= Track(g, a)
  {
    IncrementAtEnd(g, a);
    TrackOrder(a.cylinder, b.cylinder, g.heads);
  }

  lemma StartOfTrack(t: int, t': int, sector: int, sectors: int)
    requires 1 <= sectors <= sector && 0 <= t' <= t + 1 && t >= 0
    ensures t' * sectors == t * sectors + sector <==> t' == t + 1 && sector == sectors
  {
    if t' == t + 1 {
      assert t' * sectors == t * sectors + sectors;
    } else {
      ProductBound(t', sectors, t, sectors);
    }
  }

  /** Exactly these addresses step to the next sector. */
  lemma ChsStepExact(g: Geometry, a: Address)
    requires g.Fits() && !a.lba && a.Valid()
    ensures Chs(g, Increment(g, a)) == Chs(g, a) + 1 <==> Consecutive(g, a)
  {
    if a.sector >= g.sectors {
      var b := Increment(g, a);
      StepOfTrack(g, a, b);
      ProductBound(a.cylinder, g.heads, a.cylinder, g.heads);
      ProductBound(b.cylinder, g.heads, b.cylinder, g.heads);
      StartOfTrack(Track(g, a), Track(g, b), a.sector, g.sectors);
      assert Chs(g, a) == Track(g, a) * g.sectors + a.sector - 1;
      assert Chs(g, b) == Track(g, b) * g.sectors;
    }
  }

  /** With ten sectors to a track, sector 12 is followed by the sector before it. */
  lemma PastTrackStepsBack()
    ensures var g, a := Geometry(10, 2, 10), Address(false, 0, 0, 12);
      g.Fits() && a.Valid() && Chs(g, a) == 11 && Chs(g, Increment(g, a)) == 10
  {
  }

  /** n sectors from an address on are on the disk, and the address registers can name them. */
  predicate OnDisk(g: Geometry, a: Address, n: nat)
    ensures g.Fits() && a.lba && a.Valid() && Lba(a) + n <= g.Total() && Lba(a) + n <= 0x1000_0000 ==> OnDisk(g, a, n)
  {
    && g.Fits() && Logical(g, a) + n <= g.Total()
    && if a.lba then a.Valid() && Logical(g, a) + n <= 0x1000_0000 else Proper(g, a)
  }

  lemma OnDiskStep(g: Geometry, a: Address, n: nat)
    requires OnDisk(g, a, n) && n >= 2
    ensures OnDisk(g, Increment(g, a), n - 1) && Logical(g, Increment(g, a)) == Logical(g, a) + 1
  {
    if a.lba {
      LbaStep(g, a);
    } else {
      ProperLogical(g, a);
      ChsStep(g, a);
      ProperLogical(g, Increment(g, a));
    }
  }

  // The data port.

  /** What an access of two or four bytes reads: the two halves of a long are swapped. */
  function Value(swap: bool, b: seq<Byte>): int
    requires |b| == 2 || |b| == 4
  {
    if |b| == 2 then
      if swap then 0x100 * b[0] as int + b[1] as int else b[0] as int + 0x100 * b[1] as int
    else
      if swap then 0x1_0000 * (0x100 * b[2] as int + b[3] as int) + 0x100 * b[0] as int + b[1] as int
      else 0x1_0000 * (b[0] as int + 0x100 * b[1] as int) + b[2] as int + 0x100 * b[3] as int
  }

  function Low(v: int): Byte {
    (v % 0x100) as Byte
  }

  /** What an access of two or four bytes writes. */
  function Stored(swap: bool, width: nat, v: int): (b: seq<Byte>)
    requires width == 2 || width == 4
    ensures |b| == width
  {
    if width == 2 then
      if swap then [Low(v / 0x100), Low(v)] else [Low(v), Low(v / 0x100)]
    else
      if swap then [Low(v / 0x100), Low(v), Low(v / 0x100_0000), Low(v / 0x1_0000)]
      else [Low(v / 0x1_0000), Low(v / 0x100_0000), Low(v), Low(v / 0x100)]
  }

  /** A value written and read with the same width comes back. */
  lemma ValueOfStored(swap: bool, width: nat, v: int)
    requires (width == 2 && 0 <= v < 0x1_0000) || (width == 4 && 0 <= v < 0x1_0000_0000)
    ensures Value(swap, Stored(swap, width, v)) == v
  {
    var w := v / 0x100;
    DivMod(v, 0x100);
    if width == 2 {
      DivModIs(w, 0x100, 0, w);
    } else {
      var x := w / 0x100;
      DivMod(w, 0x100);
      assert v / 0x1_0000 == x;
      DivMod(x, 0x100);
      var y := x / 0x100;
      assert v / 0x100_0000 == y;
      DivModIs(y, 0x100, 0, y);
    }
  }

  /** A long access is two word accesses, first word high, unless the image is byte-swapped and the words differ. */
  lemma LongIsTwoWords(swap: bool, b: seq<Byte>)
    requires |b| == 4
    ensures Value(swap, b) == 0x1_0000 * Value(swap, b[..2]) + Value(swap, b[2..])
       <==> !swap || b[..2] == b[2..]
  {
    if swap && b[..2] != b[2..] {
      assert b[..2][0] == b[0] && b[..2][1] == b[1] && b[2..][0] == b[2] && b[2..][1] == b[3];
    }
  }

  /** From a byte-swapped image, the words 0x0102 and 0x0304 come as the long 0x03040102. */
  lemma SwappedLong()
    ensures Value(true, [1, 2]) == 0x0102 && Value(true, [3, 4]) == 0x0304
    ensures Value(true, [1, 2, 3, 4]) == 0x0304_0102
  {
  }

  // The protocol, for any way to number sectors and to step to the next.

  /** The sectors in bad are those on which lseek, read or write of the image file fails. */
  datatype Addressing = Addressing(total: nat, logical: Address -> nat, next: Address -> Address, bad: set<nat>)

  /** From an address on, n steps lead through the sectors from first on, and none of them is bad. */
  ghost predicate Follows(d: Addressing, a: Address, first: nat, n: nat)
    decreases n
  {
    && first + n <= d.total
    && (n == 0 || (d.logical(a) == first && first !in d.bad && (n == 1 || Follows(d, d.next(a), first + 1, n - 1))))
  }

  function AddressingOf(g: Geometry, bad: set<nat>): Addressing {
    Addressing(g.Total(), a => Logical(g, a), a => Increment(g, a), bad)
  }

  /** n sectors from an address on are on the disk, and the image file answers for them. */
  predicate Good(g: Geometry, bad: set<nat>, a: Address, n: nat) {
    OnDisk(g, a, n) && forall k: nat | Logical(g, a) <= k < Logical(g, a) + n :: k !in bad
  }

  lemma {:induction false} SectorsFollow(g: Geometry, bad: set<nat>, a: Address, n: nat)
    requires Good(g, bad, a, n)
    ensures Follows(AddressingOf(g, bad), a, Logical(g, a), n)
    decreases n
  {
    if n >= 2 {
      OnDiskStep(g, a, n);
      SectorsFollow(g, bad, Increment(g, a), n - 1);
    }
  }

  /** The drive and its controller between two accesses. */
  datatype State = State(disk: seq<seq<Byte>>, address: Address, count: nat, buffer: seq<Byte>, index: nat,
                         drq: bool, err: bool, command: nat)

  predicate Sectors(disk: seq<seq<Byte>>) {
    forall i | 0 <= i < |disk| :: |disk[i]| == 512
  }

  ghost predicate Valid(d: Addressing, s: State) {
    |s.disk| == d.total && Sectors(s.disk) && s.count < 256
  }

  function Abort(s: State): State {
    s.(command := 0, err := true, drq := false, index := 0)
  }

  /** Read the addressed sector into the buffer. */
  function Load(d: Addressing, s: State): State {
    var n := d.logical(s.address);
    if n >= d.total || n in d.bad || n >= |s.disk| then Abort(s)
    else s.(buffer := s.disk[n], index := 0, drq := true, err := false)
  }

  function Advance(d: Addressing, s: State): State {
    s.(index := 0, address := d.next(s.address), count := (s.count - 1) % 256, err := false)
  }

  /** READ SECTORS. A read of cylinder, head and sector 0 is refused. */
  function ReadCommand(d: Addressing, s: State, command: nat): State {
    var a := s.address;
    if !a.lba && a.head == 0 && a.cylinder == 0 && a.sector == 0 then Abort(s)
    else Load(d, s.(command := command))
  }

  /** What happens when a buffer has been read. */
  function EndOfSector(d: Addressing, s: State): State {
    var t := Advance(d, s);
    if t.count == 0 then t.(drq := false) else Load(d, t)
  }

  /** The state after the data port is read while READ SECTORS runs. */
  function AfterRead(d: Addressing, s: State, width: nat): State {
    if !s.drq then s
    else if s.index + width < 512 then s.(index := s.index + width)
    else EndOfSector(d, s)
  }

  function ReadData(swap: bool, s: State, width: nat): int
    requires width == 2 || width == 4
  {
    if s.drq && s.index + width <= |s.buffer| then Value(swap, s.buffer[s.index..s.index + width]) else 0
  }

  /** WRITE SECTORS. */
  function WriteCommand(s: State, command: nat): State {
    s.(command := command, drq := true, err := false, index := 0)
  }

  /** Write the buffer to the addressed sector. */
  function Flush(d: Addressing, s: State): State {
    var n := d.logical(s.address);
    if n >= d.total || n in d.bad || n >= |s.disk| then Abort(s)
    else
      var t := Advance(d, s.(disk := s.disk[n := s.buffer]));
      t.(drq := t.count != 0)
  }

  function Replaced(buffer: seq<Byte>, at: nat, b: seq<Byte>): seq<Byte> {
    if at + |b| <= |buffer| then buffer[..at] + b + buffer[at + |b|..] else buffer
  }

  lemma ReplacedIs(was: seq<Byte>, at: nat, b: seq<Byte>, now: seq<Byte>)
    requires at + |b| <= |was| == |now|
    requires forall j | 0 <= j < |was| :: now[j] == if at <= j < at + |b| then b[j - at] else was[j]
    ensures now == Replaced(was, at, b)
  {
  }

  /** The data port is written while WRITE SECTORS runs. */
  function WriteData(d: Addressing, swap: bool, s: State, width: nat, v: int): State
    requires width == 2 || width == 4
  {
    var t := s.(buffer := Replaced(s.buffer, s.index, Stored(swap, width, v)), index := s.index + width);
    if t.index >= 512 then Flush(d, t) else t
  }

  // Whole sectors.

  /** The values that reading a buffer from a position on delivers. */
  function Values(swap: bool, width: nat, b: seq<Byte>): seq<int>
    requires width == 2 || width == 4
    requires |b| % width == 0
    decreases |b|
  {
    if b == [] then [] else [Value(swap, b[..width])] + Values(swap, width, b[width..])
  }

  function AllStored(swap: bool, width: nat, vs: seq<int>): (b: seq<Byte>)
    requires width == 2 || width == 4
    ensures |b| == Span(width, |vs|)
    decreases |vs|
  {
    if vs == [] then [] else Stored(swap, width, vs[0]) + AllStored(swap, width, vs[1..])
  }

  lemma {:induction false} ValuesOfAllStored(swap: bool, width: nat, vs: seq<int>)
    requires width == 2 || width == 4
    requires forall i | 0 <= i < |vs| :: 0 <= vs[i] < if width == 2 then 0x1_0000 else 0x1_0000_0000
    ensures |AllStored(swap, width, vs)| % width == 0 && Values(swap, width, AllStored(swap, width, vs)) == vs
  {
    DivModIs(|AllStored(swap, width, vs)|, width, |vs|, 0);
    if vs != [] {
      var first, rest := Stored(swap, width, vs[0]), AllStored(swap, width, vs[1..]);
      assert (first + rest)[..width] == first && (first + rest)[width..] == rest;
      ValueOfStored(swap, width, vs[0]);
      ValuesOfAllStored(swap, width, vs[1..]);
    }
  }

  // Runs of accesses.

  /** k reads of the data port. */
  function Reads(d: Addressing, s: State, width: nat, k: nat): State
    decreases k, s
  {
    if k == 0 then s else Reads(d, AfterRead(d, s, width), width, k - 1)
  }

  function ReadValues(d: Addressing, swap: bool, s: State, width: nat, k: nat): (vs: seq<int>)
    requires width == 2 || width == 4
    ensures |vs| == k
    decreases k, s
  {
    if k == 0 then [] else [ReadData(swap, s, width)] + ReadValues(d, swap, AfterRead(d, s, width), width, k - 1)
  }

  lemma {:induction false} ReadsSplit(d: Addressing, swap: bool, s: State, width: nat, j: nat, k: nat)
    requires width == 2 || width == 4
    ensures Reads(d, s, width, j + k) == Reads(d, Reads(d, s, width, j), width, k)
    ensures ReadValues(d, swap, s, width, j + k) ==
            ReadValues(d, swap, s, width, j) + ReadValues(d, swap, Reads(d, s, width, j), width, k)
    decreases j
  {
    if j > 0 {
      ReadsSplit(d, swap, AfterRead(d, s, width), width, j - 1, k);
    }
  }

  lemma ReadsOneMore(d: Addressing, swap: bool, s: State, width: nat, k: nat)
    requires width == 2 || width == 4
    ensures Reads(d, s, width, k + 1) == AfterRead(d, Reads(d, s, width, k), width)
    ensures ReadValues(d, swap, s, width, k + 1) ==
            ReadValues(d, swap, s, width, k) + [ReadData(swap, Reads(d, s, width, k), width)]
  {
    ReadsSplit(d, swap, s, width, k, 1);
    var t := Reads(d, s, width, k);
    assert Reads(d, t, width, 1) == Reads(d, AfterRead(d, t, width), width, 0);
    assert ReadValues(d, swap, t, width, 1) ==
           [ReadData(swap, t, width)] + ReadValues(d, swap, AfterRead(d, t, width), width, 0);
  }

  lemma RoomFor(width: nat, index: nat)
    requires (width == 2 || width == 4) && index < 512 && Aligned(width, index)
    ensures index + width <= 512 && Aligned(width, index + width)
  {
  }

  lemma StaysAligned(d: Addressing, s: State, width: nat)
    requires (width == 2 || width == 4) && s.index < 512 && Aligned(width, s.index)
    ensures Aligned(width, AfterRead(d, s, width).index)
  {
    RoomFor(width, s.index);
  }

  lemma LastAccess(d: Addressing, s: State, width: nat)
    requires (width == 2 || width == 4) && s.drq
    ensures AfterRead(d, s.(index := 512 - width), width) == EndOfSector(d, s)
  {
  }

  lemma NextAccess(d: Addressing, s: State, width: nat)
    requires s.index + width < 512 && s.drq
    ensures AfterRead(d, s, width) == s.(index := s.index + width)
  {
  }

  /** The rest of a sector, access by access. */
  lemma {:induction false} SectorEnds(d: Addressing, s: State, width: nat, k: nat)
    requires (width == 2 || width == 4) && s.drq && k >= 1 && s.index + Span(width, k) == 512
    ensures Reads(d, s, width, k) == AfterRead(d, s.(index := 512 - width), width)
    decreases k
  {
    if k == 1 {
      assert s == s.(index := 512 - width);
      assert Reads(d, s, width, 1) == Reads(d, AfterRead(d, s, width), width, 0);
    } else {
      NextAccess(d, s, width);
      SectorEnds(d, s.(index := s.index + width), width, k - 1);
    }
  }

  lemma {:induction false} SectorKeepsDrq(d: Addressing, s: State, width: nat, k: nat)
    requires (width == 2 || width == 4) && s.drq && s.index + Span(width, k) < 512
    ensures Reads(d, s, width, k).drq
    decreases k
  {
    if k > 0 {
      NextAccess(d, s, width);
      SectorKeepsDrq(d, s.(index := s.index + width), width, k - 1);
    }
  }

  lemma {:induction false} SectorValues(d: Addressing, swap: bool, s: State, width: nat, k: nat)
    requires (width == 2 || width == 4) && s.drq && |s.buffer| == 512 && k >= 1 && s.index + Span(width, k) == 512
    ensures |s.buffer[s.index..]| % width == 0
    ensures ReadValues(d, swap, s, width, k) == Values(swap, width, s.buffer[s.index..])
    decreases k
  {
    var b := s.buffer[s.index..];
    DivModIs(|b|, width, k, 0);
    assert b[..width] == s.buffer[s.index..s.index + width] && b[width..] == s.buffer[s.index + width..];
    if k == 1 {
      assert b[width..] == [];
    } else {
      NextAccess(d, s, width);
      SectorValues(d, swap, s.(index := s.index + width), width, k - 1);
    }
  }

  /** The accesses for a sector, and for n sectors. */
  function PerSector(width: nat): nat {
    if width == 2 then 256 else 128
  }

  function Accesses(width: nat, n: nat): nat {
    if n == 0 then 0 else PerSector(width) + Accesses(width, n - 1)
  }

  lemma {:induction false} AccessesCover(width: nat, n: nat)
    requires width == 2 || width == 4
    ensures Span(width, Accesses(width, n)) == 512 * n
  {
    if n > 0 {
      AccessesCover(width, n - 1);
    }
  }

  /** The values of n sectors of the disk. */
  function DiskValues(swap: bool, width: nat, disk: seq<seq<Byte>>, first: nat, n: nat): seq<int>
    requires (width == 2 || width == 4) && first + n <= |disk| && Sectors(disk)
    decreases n
  {
    if n == 0 then [] else Values(swap, width, disk[first]) + DiskValues(swap, width, disk, first + 1, n - 1)
  }

  /** READ SECTORS with n sectors to go, the first of them in the buffer. */
  ghost predicate Reading(d: Addressing, s: State, n: nat) {
    && Valid(d, s) && 1 <= n <= 256 && s.count == n % 256 && Follows(d, s.address, d.logical(s.address), n)
    && s.drq && !s.err && s.index == 0 && s.buffer == s.disk[d.logical(s.address)]
  }

  lemma NextSector(d: Addressing, s: State, n: nat)
    requires Reading(d, s, n) && n >= 2
    ensures var t := EndOfSector(d, s);
      Reading(d, t, n - 1) && t.disk == s.disk && d.logical(t.address) == d.logical(s.address) + 1
  {
    assert Follows(d, d.next(s.address), d.logical(s.address) + 1, n - 1);
    assert d.logical(d.next(s.address)) == d.logical(s.address) + 1;
  }

  lemma LastSector(d: Addressing, s: State)
    requires Reading(d, s, 1)
    ensures var t := EndOfSector(d, s); !t.drq && !t.err && t.disk == s.disk
  {
  }

  /** One sector of a run, and the state it leaves. */
  lemma SectorRead(d: Addressing, swap: bool, s: State, width: nat, n: nat) returns (t: State)
    requires (width == 2 || width == 4) && Reading(d, s, n)
    ensures t == Reads(d, s, width, PerSector(width))
    ensures ReadValues(d, swap, s, width, PerSector(width)) == Values(swap, width, s.disk[d.logical(s.address)])
    ensures n == 1 ==> !t.drq && !t.err && t.disk == s.disk
    ensures n > 1 ==>
      Reading(d, t, n - 1) && t.disk == s.disk && d.logical(t.address) == d.logical(s.address) + 1
  {
    SectorEnds(d, s, width, PerSector(width));
    LastAccess(d, s, width);
    SectorValues(d, swap, s, width, PerSector(width));
    assert s.buffer[0..] == s.buffer;
    t := EndOfSector(d, s);
    if n == 1 {
      LastSector(d, s);
    } else {
      NextSector(d, s, n);
    }
  }

  lemma RunSplits(d: Addressing, swap: bool, s: State, width: nat, j: nat, k: nat, all: nat, t: State,
                  first: seq<int>)
    requires (width == 2 || width == 4) && all == j + k
    requires t == Reads(d, s, width, j) && first == ReadValues(d, swap, s, width, j)
    ensures Reads(d, s, width, all) == Reads(d, t, width, k)
    ensures ReadValues(d, swap, s, width, all) == first + ReadValues(d, swap, t, width, k)
  {
    ReadsSplit(d, swap, s, width, j, k);
  }

  lemma SectorOfRun(d: Addressing, swap: bool, s: State, width: nat, n: nat) returns (t: State)
    requires (width == 2 || width == 4) && Reading(d, s, n)
    ensures Reads(d, s, width, Accesses(width, n)) == Reads(d, t, width, Accesses(width, n - 1))
    ensures ReadValues(d, swap, s, width, Accesses(width, n)) ==
            Values(swap, width, s.disk[d.logical(s.address)]) + ReadValues(d, swap, t, width, Accesses(width, n - 1))
    ensures n == 1 ==> !t.drq && !t.err && t.disk == s.disk
    ensures n > 1 ==>
      Reading(d, t, n - 1) && t.disk == s.disk && d.logical(t.address) == d.logical(s.address) + 1
  {
    t := SectorRead(d, swap, s, width, n);
    RunSplits(d, swap, s, width, PerSector(width), Accesses(width, n - 1), Accesses(width, n), t,
              Values(swap, width, s.disk[d.logical(s.address)]));
  }

  /** A run drops DRQ after the last value. */
  lemma {:induction false} ReadRunEnds(d: Addressing, s: State, width: nat, n: nat)
    requires (width == 2 || width == 4) && Reading(d, s, n)
    ensures var t := Reads(d, s, width, Accesses(width, n)); !t.drq && !t.err && t.disk == s.disk
    decreases n
  {
    var t := SectorOfRun(d, false, s, width, n);
    if n > 1 {
      ReadRunEnds(d, t, width, n - 1);
    }
  }

  /** A run delivers the sectors in order. */
  lemma {:induction false} ReadRun(d: Addressing, swap: bool, s: State, width: nat, n: nat)
    requires (width == 2 || width == 4) && Reading(d, s, n)
    ensures ReadValues(d, swap, s, width, Accesses(width, n)) ==
            DiskValues(swap, width, s.disk, d.logical(s.address), n)
    decreases n
  {
    var t := SectorOfRun(d, swap, s, width, n);
    if n > 1 {
      ReadRun(d, swap, t, width, n - 1);
    }
  }

  /** DRQ stays up until then. */
  lemma {:induction false} DrqHolds(d: Addressing, s: State, width: nat, n: nat, j: nat)
    requires (width == 2 || width == 4) && Reading(d, s, n) && j < Accesses(width, n)
    ensures Reads(d, s, width, j).drq
    decreases n
  {
    if j < PerSector(width) {
      SectorKeepsDrq(d, s, width, j);
    } else {
      var t := SectorRead(d, false, s, width, n);
      ReadsSplit(d, false, s, width, PerSector(width), j - PerSector(width));
      DrqHolds(d, t, width, n - 1, j - PerSector(width));
    }
  }

  /** The data port written with several values. */
  function Writes(d: Addressing, swap: bool, s: State, width: nat, vs: seq<int>): State
    requires width == 2 || width == 4
    decreases |vs|
  {
    if vs == [] then s else Writes(d, swap, WriteData(d, swap, s, width, vs[0]), width, vs[1..])
  }

  lemma {:induction false} WritesSplit(d: Addressing, swap: bool, s: State, width: nat, us: seq<int>, vs: seq<int>)
    requires width == 2 || width == 4
    ensures Writes(d, swap, s, width, us + vs) == Writes(d, swap, Writes(d, swap, s, width, us), width, vs)
    decreases |us|
  {
    if us == [] {
      assert us + vs == vs;
    } else {
      assert (us + vs)[0] == us[0] && (us + vs)[1..] == us[1..] + vs;
      WritesSplit(d, swap, WriteData(d, swap, s, width, us[0]), width, us[1..], vs);
    }
  }

  lemma ReplacedPrefix(buffer: seq<Byte>, at: nat, first: seq<Byte>, rest: seq<Byte>)
    requires at + |first| <= |buffer|
    ensures Replaced(buffer, at, first)[..at + |first|] + rest == buffer[..at] + (first + rest)
  {
  }

  /** The rest of a sector, access by access: the last one writes it out. */
  lemma {:induction false} SectorWrites(d: Addressing, swap: bool, s: State, width: nat, vs: seq<int>)
    requires (width == 2 || width == 4) && |s.buffer| == 512 && vs != [] && s.index + Span(width, |vs|) == 512
    ensures Writes(d, swap, s, width, vs) ==
            Flush(d, s.(buffer := s.buffer[..s.index] + AllStored(swap, width, vs), index := 512))
    decreases |vs|
  {
    var first := Stored(swap, width, vs[0]);
    var t := s.(buffer := Replaced(s.buffer, s.index, first), index := s.index + width);
    ReplacedPrefix(s.buffer, s.index, first, AllStored(swap, width, vs[1..]));
    if |vs| == 1 {
      assert AllStored(swap, width, vs[1..]) == [];
      assert t.buffer[..512] == t.buffer;
      assert Writes(d, swap, s, width, vs) == Writes(d, swap, Flush(d, t), width, []);
    } else {
      SectorWrites(d, swap, t, width, vs[1..]);
    }
  }

  /** WRITE SECTORS with n sectors to go, the buffer empty. */
  ghost predicate Writing(d: Addressing, s: State, n: nat) {
    && Valid(d, s) && 1 <= n <= 256 && s.count == n % 256 && Follows(d, s.address, d.logical(s.address), n)
    && s.drq && !s.err && s.index == 0 && |s.buffer| == 512
  }

  lemma SectorFlushed(d: Addressing, s: State, n: nat, t: State)
    requires Writing(d, s.(index := 0), n) && t == Flush(d, s)
    ensures t.disk == s.disk[d.logical(s.address) := s.buffer]
    ensures n == 1 ==> !t.drq && !t.err
    ensures n > 1 ==> Writing(d, t, n - 1) && d.logical(t.address) == d.logical(s.address) + 1
  {
    if n > 1 {
      assert Follows(d, d.next(s.address), d.logical(s.address) + 1, n - 1);
      assert d.logical(d.next(s.address)) == d.logical(s.address) + 1;
    }
  }

  /** One sector of a run, and the state it leaves. */
  lemma SectorWritten(d: Addressing, swap: bool, s: State, width: nat, n: nat, vs: seq<int>) returns (t: State)
    requires (width == 2 || width == 4) && Writing(d, s, n) && |vs| == PerSector(width)
    ensures t == Writes(d, swap, s, width, vs)
    ensures t.disk == s.disk[d.logical(s.address) := AllStored(swap, width, vs)]
    ensures n == 1 ==> !t.drq && !t.err
    ensures n > 1 ==> Writing(d, t, n - 1) && d.logical(t.address) == d.logical(s.address) + 1
  {
    SectorWrites(d, swap, s, width, vs);
    assert s.buffer[..0] + AllStored(swap, width, vs) == AllStored(swap, width, vs);
    t := Writes(d, swap, s, width, vs);
    SectorFlushed(d, s.(buffer := AllStored(swap, width, vs), index := 512), n, t);
  }

  function Flat(data: seq<seq<int>>): seq<int> {
    if data == [] then [] else data[0] + Flat(data[1..])
  }

  /** The disk with the data in its sectors from one on. */
  function Written(swap: bool, width: nat, disk: seq<seq<Byte>>, first: nat, data: seq<seq<int>>): (r: seq<seq<Byte>>)
    requires (width == 2 || width == 4) && first + |data| <= |disk|
    ensures |r| == |disk|
  {
    seq(|disk|, k requires 0 <= k < |disk| =>
      if first <= k < first + |data| then AllStored(swap, width, data[k - first]) else disk[k])
  }

  lemma WrittenOne(swap: bool, width: nat, disk: seq<seq<Byte>>, first: nat, data: seq<seq<int>>)
    requires (width == 2 || width == 4) && data != [] && first + |data| <= |disk|
    ensures Written(swap, width, disk, first, data) ==
            Written(swap, width, disk[first := AllStored(swap, width, data[0])], first + 1, data[1..])
  {
    var w, w' := Written(swap, width, disk, first, data),
                 Written(swap, width, disk[first := AllStored(swap, width, data[0])], first + 1, data[1..]);
    forall k | 0 <= k < |disk| ensures w[k] == w'[k] {
      if first < k < first + |data| {
        assert data[1..][k - first - 1] == data[k - first];
      }
    }
  }

  lemma WrittenNothing(swap: bool, width: nat, disk: seq<seq<Byte>>, first: nat)
    requires (width == 2 || width == 4) && first <= |disk|
    ensures Written(swap, width, disk, first, []) == disk
  {
  }

  /** A run writes its sectors in order and drops DRQ after the last value. */
  lemma {:induction false} WriteRun(d: Addressing, swap: bool, s: State, width: nat, data: seq<seq<int>>)
    requires (width == 2 || width == 4) && Writing(d, s, |data|)
    requires forall i | 0 <= i < |data| :: |data[i]| == PerSector(width)
    ensures var t := Writes(d, swap, s, width, Flat(data));
      !t.drq && !t.err && t.disk == Written(swap, width, s.disk, d.logical(s.address), data)
    decreases |data|
  {
    var t := SectorWritten(d, swap, s, width, |data|, data[0]);
    WritesSplit(d, swap, s, width, data[0], Flat(data[1..]));
    WrittenOne(swap, width, s.disk, d.logical(s.address), data);
    if |data| > 1 {
      WriteRun(d, swap, t, width, data[1..]);
    } else {
      assert data[1..] == [];
      WrittenNothing(swap, width, t.disk, d.logical(s.address) + 1);
    }
  }

  /** Exactly the sectors of the run change. */
  lemma WrittenAt(swap: bool, width: nat, disk: seq<seq<Byte>>, first: nat, data: seq<seq<int>>, k: nat)
    requires (width == 2 || width == 4) && first + |data| <= |disk| && k < |disk|
    ensures |Written(swap, width, disk, first, data)| == |disk|
    ensures Written(swap, width, disk, first, data)[k] ==
            if first <= k < first + |data| then AllStored(swap, width, data[k - first]) else disk[k]
  {
  }

  lemma SectorsWritten(swap: bool, width: nat, disk: seq<seq<Byte>>, first: nat, data: seq<seq<int>>)
    requires (width == 2 || width == 4) && first + |data| <= |disk| && Sectors(disk)
    requires forall i | 0 <= i < |data| :: |data[i]| == PerSector(width)
    ensures |Written(swap, width, disk, first, data)| == |disk| && Sectors(Written(swap, width, disk, first, data))
  {
    forall k | 0 <= k < |disk| ensures |Written(swap, width, disk, first, data)[k]| == 512 {
      WrittenAt(swap, width, disk, first, data, k);
    }
  }

  predicate InRange(width: nat, vs: seq<int>) {
    forall i | 0 <= i < |vs| :: 0 <= vs[i] < if width == 2 then 0x1_0000 else 0x1_0000_0000
  }

  /** Sectors that data have been stored in. */
  ghost predicate Holding(swap: bool, width: nat, w: seq<seq<Byte>>, first: nat, data: seq<seq<int>>)
    requires width == 2 || width == 4
  {
    && first + |data| <= |w| && Sectors(w)
    && forall i | 0 <= i < |data| :: w[first + i] == AllStored(swap, width, data[i]) && InRange(width, data[i])
  }

  /** Their values from sector k on. */
  lemma {:induction false} ValuesOfData(swap: bool, width: nat, w: seq<seq<Byte>>, first: nat, data: seq<seq<int>>,
                                        k: nat)
    requires (width == 2 || width == 4) && Holding(swap, width, w, first, data) && k <= |data|
    ensures DiskValues(swap, width, w, first + k, |data| - k) == Flat(data[k..])
    decreases |data| - k
  {
    if k < |data| {
      ValuesOfData(swap, width, w, first, data, k + 1);
      ValuesOfAllStored(swap, width, data[k]);
      assert data[k..][1..] == data[k + 1..];
      assert w[first + k] == AllStored(swap, width, data[k]);
    }
  }

  lemma ValuesWritten(swap: bool, width: nat, disk: seq<seq<Byte>>, first: nat, data: seq<seq<int>>)
    requires (width == 2 || width == 4) && first + |data| <= |disk| && Sectors(disk)
    requires forall i | 0 <= i < |data| :: |data[i]| == PerSector(width) && InRange(width, data[i])
    ensures var w := Written(swap, width, disk, first, data);
      && |w| == |disk| && Sectors(w)
      && DiskValues(swap, width, w, first, |data|) == Flat(data)
  {
    var w := Written(swap, width, disk, first, data);
    SectorsWritten(swap, width, disk, first, data);
    forall i | 0 <= i < |data| ensures w[first + i] == AllStored(swap, width, data[i]) {
      WrittenAt(swap, width, disk, first, data, first + i);
    }
    ValuesOfData(swap, width, w, first, data, 0);
    assert data[0..] == data;
  }

  // The commands.

  /** A read run that stays on the disk delivers its sectors, keeps DRQ until the last value, and reports no error. */
  lemma ReadSectors(g: Geometry, bad: set<nat>, swap: bool, s: State, command: nat, width: nat, n: nat)
    requires (width == 2 || width == 4) && 1 <= n <= 256 && s.count == n % 256 && Good(g, bad, s.address, n)
    requires Valid(AddressingOf(g, bad), s)
    ensures var d := AddressingOf(g, bad);
      var u, k := ReadCommand(d, s, command), Accesses(width, n);
      && Span(width, k) == 512 * n
      && ReadValues(d, swap, u, width, k) == DiskValues(swap, width, s.disk, Logical(g, s.address), n)
      && (forall j | 0 <= j < k :: Reads(d, u, width, j).drq)
      && var t := Reads(d, u, width, k); !t.drq && !t.err && t.disk == s.disk
  {
    var d := AddressingOf(g, bad);
    SectorsFollow(g, bad, s.address, n);
    var u, k := ReadCommand(d, s, command), Accesses(width, n);
    assert Reading(d, u, n);
    AccessesCover(width, n);
    ReadRunEnds(d, u, width, n);
    ReadRun(d, swap, u, width, n);
    forall j | 0 <= j < k ensures Reads(d, u, width, j).drq {
      DrqHolds(d, u, width, n, j);
    }
  }

  /** A read that is refused, lies beyond the end or fails in the image file ends with ERR up and DRQ down. */
  lemma ReadFails(g: Geometry, bad: set<nat>, s: State, command: nat)
    requires Valid(AddressingOf(g, bad), s)
    ensures var t, a, n := ReadCommand(AddressingOf(g, bad), s, command), s.address, Logical(g, s.address);
      && (t.err <==> (!a.lba && a.head == a.cylinder == a.sector == 0) || n >= g.Total() || n in bad)
      && t.drq == !t.err && t.disk == s.disk && (t.err ==> t.command == 0)
  {
  }

  /** The same for the next sector of a run; after the last one DRQ goes down without an error. */
  lemma NextReadFails(g: Geometry, bad: set<nat>, s: State, width: nat)
    requires Valid(AddressingOf(g, bad), s) && s.drq && s.index + width >= 512
    ensures var t, n := AfterRead(AddressingOf(g, bad), s, width), Logical(g, Increment(g, s.address));
      && (t.err <==> s.count != 1 && (n >= g.Total() || n in bad))
      && (t.drq <==> s.count != 1 && !t.err) && t.disk == s.disk
  {
  }

  /** A write beyond the end or to a sector on which the image file fails, when its last value arrives. */
  lemma WriteFails(g: Geometry, bad: set<nat>, swap: bool, s: State, width: nat, v: int)
    requires Valid(AddressingOf(g, bad), s) && (width == 2 || width == 4) && s.index + width >= 512
    ensures var t, n := WriteData(AddressingOf(g, bad), swap, s, width, v), Logical(g, s.address);
      && (t.err <==> n >= g.Total() || n in bad) && (t.err ==> t.disk == s.disk && !t.drq && t.command == 0)
      && (!t.err ==> (t.drq <==> s.count != 1))
  {
  }

  lemma Shorter(width: nat, n: nat)
    requires (width == 2 || width == 4) && n % width == 0 && n > 0
    ensures n >= width && (n - width) % width == 0
  {
  }

  lemma {:induction false} ValuesAt(swap: bool, width: nat, b: seq<Byte>, i: nat)
    requires (width == 2 || width == 4) && |b| % width == 0 && Span(width, i) < |b|
    ensures Span(width, i) + width <= |b| && i < |Values(swap, width, b)|
    ensures Values(swap, width, b)[i] == Value(swap, b[Span(width, i)..Span(width, i) + width])
    decreases i
  {
    Shorter(width, |b|);
    if i > 0 {
      var rest := b[width..];
      ValuesAt(swap, width, rest, i - 1);
      assert rest[Span(width, i - 1)..Span(width, i - 1) + width] == b[Span(width, i)..Span(width, i) + width];
    }
  }

  lemma Behind(head: seq<int>, rest: seq<int>, k: nat)
    requires k < |rest|
    ensures (head + rest)[|head| + k] == rest[k]
  {
  }

  lemma {:induction false} ValuesLength(swap: bool, width: nat, b: seq<Byte>)
    requires (width == 2 || width == 4) && |b| % width == 0
    ensures Span(width, |Values(swap, width, b)|) == |b|
    decreases |b|
  {
    if b != [] {
      Shorter(width, |b|);
      ValuesLength(swap, width, b[width..]);
    }
  }

  lemma {:induction false} DiskValuesAt(swap: bool, width: nat, disk: seq<seq<Byte>>, first: nat, n: nat,
                                        j: nat, i: nat)
    requires (width == 2 || width == 4) && first + n <= |disk| && Sectors(disk) && j < n && i < PerSector(width)
    ensures var k := Accesses(width, j) + i;
      && k < |DiskValues(swap, width, disk, first, n)|
      && DiskValues(swap, width, disk, first, n)[k] ==
         Value(swap, disk[first + j][Span(width, i)..Span(width, i) + width])
    decreases n
  {
    var head, rest := Values(swap, width, disk[first]), DiskValues(swap, width, disk, first + 1, n - 1);
    ValuesLength(swap, width, disk[first]);
    if j == 0 {
      ValuesAt(swap, width, disk[first], i);
    } else {
      DiskValuesAt(swap, width, disk, first + 1, n - 1, j - 1, i);
      Behind(head, rest, Accesses(width, j - 1) + i);
    }
  }

  /** The logical sector in cylinder, head and sector numbers, and in LBA mode. */
  lemma LogicalIs(g: Geometry, a: Address)
    requires g.Fits() && a.Valid()
    ensures a.lba ==> Logical(g, a) == a.head * 0x100_0000 + a.cylinder * 0x100 + a.sector
    ensures !a.lba && a.cylinder < g.cylinders && a.head < g.heads && 1 <= a.sector <= g.sectors ==>
            Logical(g, a) == a.cylinder * (g.heads * g.sectors) + a.head * g.sectors + (a.sector - 1)
  {
    if a.lba {
      LbaRoundTrip(g, a);
    } else if a.cylinder < g.cylinders && a.head < g.heads && 1 <= a.sector <= g.sectors {
      ProperLogical(g, a);
      assert (a.cylinder * g.heads + a.head) * g.sectors == a.cylinder * g.heads * g.sectors + a.head * g.sectors;
      MulAssoc(a.cylinder, g.heads, g.sectors);
    }
  }

  lemma {:induction false} AccessesAre(width: nat, n: nat)
    requires width == 2 || width == 4
    ensures Accesses(width, n) == if width == 2 then 256 * n else 128 * n
  {
    if n > 0 {
      AccessesAre(width, n - 1);
    }
  }

  lemma DiskWordAt(swap: bool, disk: seq<seq<Byte>>, first: nat, n: nat, j: nat, i: nat)
    requires first + n <= |disk| && Sectors(disk) && j < n && i < 256
    ensures var values, b := DiskValues(swap, 2, disk, first, n), disk[first + j];
      && |b| == 512 && 256 * j + i < |values|
      && values[256 * j + i] == if swap then 0x100 * b[2 * i] as int + b[2 * i + 1] as int
                                else b[2 * i] as int + 0x100 * b[2 * i + 1] as int
  {
    AccessesAre(2, j);
    DiskValuesAt(swap, 2, disk, first, n, j, i);
  }

  lemma DiskLongAt(swap: bool, disk: seq<seq<Byte>>, first: nat, n: nat, j: nat, i: nat)
    requires first + n <= |disk| && Sectors(disk) && j < n && i < 128
    ensures var values, sector := DiskValues(swap, 4, disk, first, n), disk[first + j];
      && |sector| == 512 && 128 * j + i < |values|
      && var b := sector[4 * i..4 * i + 4];
         values[128 * j + i] ==
         if swap then 0x100_0000 * b[2] as int + 0x1_0000 * b[3] as int + 0x100 * b[0] as int + b[1] as int
         else 0x1_0000 * b[0] as int + 0x100_0000 * b[1] as int + b[2] as int + 0x100 * b[3] as int
  {
    AccessesAre(4, j);
    DiskValuesAt(swap, 4, disk, first, n, j, i);
  }

  /** A read run delivers the values of its sectors, of which the image has all. */
  lemma ReadValuesAre(g: Geometry, bad: set<nat>, swap: bool, s: State, command: nat, width: nat, n: nat, count: nat)
    requires (width == 2 || width == 4) && 1 <= n <= 256 && s.count == n % 256
    requires Good(g, bad, s.address, n) && Valid(AddressingOf(g, bad), s) && Span(width, count) == 512 * n
    ensures var d, first := AddressingOf(g, bad), Logical(g, s.address);
      && first + n <= |s.disk| && Sectors(s.disk)
      && ReadValues(d, swap, ReadCommand(d, s, command), width, count) == DiskValues(swap, width, s.disk, first, n)
  {
    AccessesAre(width, n);
    ReadSectors(g, bad, swap, s, command, width, n);
  }

  /** The words of a read run, byte by byte: lowest byte first, or highest first from a byte-swapped image. */
  lemma ReadWordBytes(g: Geometry, bad: set<nat>, swap: bool, s: State, command: nat, n: nat, j: nat, i: nat)
    requires 1 <= n <= 256 && s.count == n % 256 && Good(g, bad, s.address, n) && Valid(AddressingOf(g, bad), s)
    requires j < n && i < 256
    ensures var d := AddressingOf(g, bad);
      var values, sector := ReadValues(d, swap, ReadCommand(d, s, command), 2, 256 * n), Logical(g, s.address) + j;
      && sector < |s.disk| && |s.disk[sector]| == 512 && 256 * j + i < |values|
      && values[256 * j + i] ==
         if swap then 0x100 * s.disk[sector][2 * i] as int + s.disk[sector][2 * i + 1] as int
         else s.disk[sector][2 * i] as int + 0x100 * s.disk[sector][2 * i + 1] as int
  {
    ReadValuesAre(g, bad, swap, s, command, 2, n, 256 * n);
    DiskWordAt(swap, s.disk, Logical(g, s.address), n, j, i);
  }

  /** The longs: the first two bytes are the high word, or the low one from a byte-swapped image. */
  lemma ReadLongBytes(g: Geometry, bad: set<nat>, swap: bool, s: State, command: nat, n: nat, j: nat, i: nat)
    requires 1 <= n <= 256 && s.count == n % 256 && Good(g, bad, s.address, n) && Valid(AddressingOf(g, bad), s)
    requires j < n && i < 128
    ensures var d := AddressingOf(g, bad);
      var values, sector := ReadValues(d, swap, ReadCommand(d, s, command), 4, 128 * n), Logical(g, s.address) + j;
      && sector < |s.disk| && |s.disk[sector]| == 512 && 128 * j + i < |values|
      && var b := s.disk[sector][4 * i..4 * i + 4];
         values[128 * j + i] ==
         if swap then 0x100_0000 * b[2] as int + 0x1_0000 * b[3] as int + 0x100 * b[0] as int + b[1] as int
         else 0x1_0000 * b[0] as int + 0x100_0000 * b[1] as int + b[2] as int + 0x100 * b[3] as int
  {
    ReadValuesAre(g, bad, swap, s, command, 4, n, 128 * n);
    DiskLongAt(swap, s.disk, Logical(g, s.address), n, j, i);
  }

  lemma WrittenByRun(g: Geometry, bad: set<nat>, swap: bool, s: State, command: nat, width: nat,
                     data: seq<seq<int>>, t: State)
    requires (width == 2 || width == 4) && 1 <= |data| <= 256 && s.count == |data| % 256
    requires Good(g, bad, s.address, |data|) && Valid(AddressingOf(g, bad), s) && |s.buffer| == 512
    requires forall i | 0 <= i < |data| :: |data[i]| == PerSector(width)
    requires t == Writes(AddressingOf(g, bad), swap, WriteCommand(s, command), width, Flat(data))
    ensures !t.drq && !t.err && t.disk == Written(swap, width, s.disk, Logical(g, s.address), data)
  {
    SectorsFollow(g, bad, s.address, |data|);
    assert Writing(AddressingOf(g, bad), WriteCommand(s, command), |data|);
    WriteRun(AddressingOf(g, bad), swap, WriteCommand(s, command), width, data);
  }

  /** A write run that stays on the disk writes exactly its sectors. */
  lemma WriteSectors(g: Geometry, bad: set<nat>, swap: bool, s: State, command: nat, width: nat,
                     data: seq<seq<int>>, k: nat)
    requires (width == 2 || width == 4) && 1 <= |data| <= 256 && s.count == |data| % 256
    requires Good(g, bad, s.address, |data|) && Valid(AddressingOf(g, bad), s) && |s.buffer| == 512
    requires (forall i | 0 <= i < |data| :: |data[i]| == PerSector(width)) && k < |s.disk|
    ensures var t := Writes(AddressingOf(g, bad), swap, WriteCommand(s, command), width, Flat(data));
      && !t.drq && !t.err && |t.disk| == |s.disk|
      && var first := Logical(g, s.address);
         t.disk[k] == if first <= k < first + |data| then AllStored(swap, width, data[k - first]) else s.disk[k]
  {
    var t := Writes(AddressingOf(g, bad), swap, WriteCommand(s, command), width, Flat(data));
    WrittenByRun(g, bad, swap, s, command, width, data, t);
    WrittenAt(swap, width, s.disk, Logical(g, s.address), data, k);
  }

  lemma BytesBehind(head: seq<Byte>, rest: seq<Byte>, k: nat, width: nat)
    requires k + width <= |rest|
    ensures (head + rest)[|head| + k..|head| + k + width] == rest[k..k + width]
  {
  }

  lemma {:induction false} AllStoredAt(swap: bool, width: nat, vs: seq<int>, i: nat)
    requires (width == 2 || width == 4) && i < |vs|
    ensures Span(width, i) + width <= |AllStored(swap, width, vs)|
    ensures AllStored(swap, width, vs)[Span(width, i)..Span(width, i) + width] == Stored(swap, width, vs[i])
    decreases i
  {
    if i > 0 {
      var rest := AllStored(swap, width, vs[1..]);
      AllStoredAt(swap, width, vs[1..], i - 1);
      BytesBehind(Stored(swap, width, vs[0]), rest, Span(width, i - 1), width);
    }
  }

  lemma WordStoredAt(swap: bool, vs: seq<int>, i: nat)
    requires i < |vs|
    ensures var b := AllStored(swap, 2, vs);
      && |b| == 2 * |vs| && b[if swap then 2 * i + 1 else 2 * i] as int == vs[i] % 0x100
      && b[if swap then 2 * i else 2 * i + 1] as int == vs[i] / 0x100 % 0x100
  {
    AllStoredAt(swap, 2, vs, i);
    var b := AllStored(swap, 2, vs);
    assert b[2 * i..2 * i + 2][0] == b[2 * i] && b[2 * i..2 * i + 2][1] == b[2 * i + 1];
  }

  /** The words of a write run, byte by byte. */
  lemma WriteWordBytes(g: Geometry, bad: set<nat>, swap: bool, s: State, command: nat, data: seq<seq<int>>,
                       j: nat, i: nat)
    requires 1 <= |data| <= 256 && s.count == |data| % 256 && |s.buffer| == 512
    requires Good(g, bad, s.address, |data|) && Valid(AddressingOf(g, bad), s)
    requires (forall k | 0 <= k < |data| :: |data[k]| == 256) && j < |data| && i < 256
    ensures var t, sector := Writes(AddressingOf(g, bad), swap, WriteCommand(s, command), 2, Flat(data)),
                             Logical(g, s.address) + j;
      && sector < |t.disk| && |t.disk[sector]| == 512
      && var v, low, high := data[j][i], t.disk[sector][if swap then 2 * i + 1 else 2 * i] as int,
                             t.disk[sector][if swap then 2 * i else 2 * i + 1] as int;
         low == v % 0x100 && high == v / 0x100 % 0x100
  {
    var sector := Logical(g, s.address) + j;
    WriteSectors(g, bad, swap, s, command, 2, data, sector);
    WordStoredAt(swap, data[j], i);
  }

  lemma ReadBack(g: Geometry, bad: set<nat>, swap: bool, s: State, width: nat, data: seq<seq<int>>, was: seq<seq<Byte>>)
    requires (width == 2 || width == 4) && 1 <= |data| <= 256 && s.count == |data| % 256
    requires Good(g, bad, s.address, |data|) && |was| == g.Total() && Sectors(was)
    requires forall i | 0 <= i < |data| :: |data[i]| == PerSector(width) && InRange(width, data[i])
    requires s.disk == Written(swap, width, was, Logical(g, s.address), data)
    ensures var d := AddressingOf(g, bad);
      ReadValues(d, swap, ReadCommand(d, s, 0x20), width, Accesses(width, |data|)) == Flat(data)
  {
    ValuesWritten(swap, width, was, Logical(g, s.address), data);
    ReadSectors(g, bad, swap, s, 0x20, width, |data|);
  }

  /** What was written is read back with the same access width and the same address and count registers. */
  lemma WriteThenRead(g: Geometry, bad: set<nat>, swap: bool, s: State, width: nat, data: seq<seq<int>>)
    requires (width == 2 || width == 4) && 1 <= |data| <= 256 && s.count == |data| % 256
    requires Good(g, bad, s.address, |data|) && Valid(AddressingOf(g, bad), s) && |s.buffer| == 512
    requires forall i | 0 <= i < |data| :: |data[i]| == PerSector(width) && InRange(width, data[i])
    ensures var d := AddressingOf(g, bad);
      var t := Writes(d, swap, WriteCommand(s, 0x30), width, Flat(data));
      var u := ReadCommand(d, t.(address := s.address, count := s.count), 0x20);
      ReadValues(d, swap, u, width, Accesses(width, |data|)) == Flat(data)
  {
    var t := Writes(AddressingOf(g, bad), swap, WriteCommand(s, 0x30), width, Flat(data));
    WrittenByRun(g, bad, swap, s, 0x30, width, data, t);
    ReadBack(g, bad, swap, t.(address := s.address, count := s.count), width, data, s.disk);
  }

  /** The bytes of a long after its halves are swapped. */
  lemma SwappedHalves(x: int)
    ensures var v := x / 0x1_0000 % 0x1_0000 + x % 0x1_0000 * 0x1_0000;
      && Low(v) == Low(x / 0x1_0000) && Low(v / 0x100) == Low(x / 0x100_0000)
      && Low(v / 0x1_0000) == Low(x) && Low(v / 0x100_0000) == Low(x / 0x100)
  {
    var h, l := x / 0x1_0000 % 0x1_0000, x % 0x1_0000;
    var h1, h0, l1, l0 := h / 0x100, h % 0x100, l / 0x100, l % 0x100;
    var q := x / 0x1_0000 / 0x1_0000;
    var v := h + l * 0x1_0000;
    DivModIs(v, 0x100, l * 0x100 + h1, h0);
    DivModIs(l * 0x100 + h1, 0x100, l, h1);
    DivModIs(v, 0x1_0000, l, h);
    DivModIs(v, 0x100_0000, l1, l0 * 0x1_0000 + h);
    DivModIs(l1, 0x100, 0, l1);
    DivModIs(x / 0x1_0000, 0x100, q * 0x100 + h1, h0);
    DivModIs(x, 0x100_0000, q * 0x100 + h1, h0 * 0x1_0000 + l);
    DivModIs(q * 0x100 + h1, 0x100, q, h1);
    DivModIs(x, 0x100, (q * 0x1_0000 + h) * 0x100 + l1, l0);
    DivModIs((q * 0x1_0000 + h) * 0x100 + l1, 0x100, q * 0x1_0000 + h, l1);
  }

  /** A drive with its controller. */
  class Drive {
    const geometry: Geometry
    const swap: bool
    const bad: set<nat>
    const buffer: array<Byte>
    var disk: seq<seq<Byte>>
    var lba: bool
    var head: nat
    var cylinder: nat
    var sector: nat
    var count: nat
    var index: nat
    var drq: bool
    var err: bool
    var command: nat

    ghost predicate Fit()
      reads this
    {
      |disk| == geometry.Total() && Sectors(disk) && buffer.Length == 512 && index < 512
    }

    constructor (geometry: Geometry, swap: bool, bad: set<nat>, disk: seq<seq<Byte>>)
      requires |disk| == geometry.Total() && Sectors(disk)
      ensures this.geometry == geometry && this.swap == swap && this.bad == bad && this.disk == disk
      ensures Fit() && fresh(buffer)
    {
      this.geometry, this.swap, this.bad, this.disk := geometry, swap, bad, disk;
      buffer := new Byte[512](_ => 0 as Byte);
      lba, head, cylinder, sector, count := false, 0, 0, 1, 1;
      index, drq, err, command := 0, false, false, 0;
    }

    function Registers(): Address
      reads this
    {
      Address(lba, head, cylinder, sector)
    }

    ghost function View(): State
      reads this, buffer
    {
      State(disk, Registers(), count, buffer[..], index, drq, err, command)
    }

    method CalculateLogicalAddress() returns (ok: bool, n: nat)
      ensures n == Logical(geometry, Registers()) && ok == (n < geometry.Total())
    {
      if lba {
        n := (head * 0x100_0000 + cylinder * 0x100 + sector) % 0x1_0000_0000;
      } else {
        n := ((cylinder * geometry.heads + head) * geometry.sectors + sector - 1) % 0x1_0000_0000;
      }
      ok := n < geometry.cylinders * geometry.heads * geometry.sectors % 0x1_0000_0000;
    }

    method IncrementAddress()
      modifies `head, `cylinder, `sector, `count
      ensures Registers() == Increment(geometry, old(Registers())) && count == (old(count) - 1) % 256
    {
      count := (count - 1) % 256;
      if lba {
        var ok, n := CalculateLogicalAddress();
        n := n + 1;
        head, cylinder, sector := n / 0x100_0000 % 16, n / 0x100 % 0x10000, n % 0x100;
      } else {
        sector := (sector + 1) % 0x100;
        if sector > geometry.sectors || sector == 0 {
          sector := 1;
          head := (head + 1) % 0x100;
          if head >= geometry.heads {
            head := 0;
            cylinder := (cylinder + 1) % 0x10000;
            if cylinder >= geometry.cylinders {
              cylinder := (geometry.cylinders - 1) % 0x10000;
            }
          }
        }
      }
    }

    method CommandAborted()
      modifies `command, `err, `drq, `index
      ensures View() == Abort(old(View()))
    {
      command, err, drq, index := 0, true, false, 0;
    }

    method LoadBuffer(data: seq<Byte>)
      requires |data| == buffer.Length
      modifies buffer
      ensures buffer[..] == data
    {
      forall i | 0 <= i < buffer.Length {
        buffer[i] := data[i];
      }
    }

    method LoadSector()
      requires Fit()
      modifies `command, `err, `drq, `index, buffer
      ensures View() == Load(AddressingOf(geometry, bad), old(View()))
    {
      var ok, n := CalculateLogicalAddress();
      if !ok || n in bad {
        CommandAborted();
        return;
      }
      LoadBuffer(disk[n]);
      index, drq, err := 0, true, false;
    }

    method StartRead(value: nat)
      requires Fit()
      modifies `command, `err, `drq, `index, buffer
      ensures Fit() && View() == ReadCommand(AddressingOf(geometry, bad), old(View()), value)
    {
      command := value;
      if !lba && head == 0 && cylinder == 0 && sector == 0 {
        CommandAborted();
        return;
      }
      LoadSector();
    }

    /** The value that two or four bytes of the buffer make. */
    method PortValue(width: nat) returns (value: int)
      requires (width == 2 || width == 4) && index + width <= buffer.Length
      ensures value == Value(swap, buffer[index..index + width])
    {
      var b := buffer[index..index + width];
      if width == 2 {
        value := if swap then 0x100 * b[0] as int + b[1] as int else 0x100 * b[1] as int + b[0] as int;
      } else {
        var high := if swap then 0x100 * b[0] as int + b[1] as int else 0x100 * b[3] as int + b[2] as int;
        var low := if swap then 0x100 * b[2] as int + b[3] as int else 0x100 * b[1] as int + b[0] as int;
        value := low * 0x1_0000 + high;
      }
    }

    /** The buffer has been read: on to the next sector, or the end of the command. */
    method FinishSector()
      requires |disk| == geometry.Total() && Sectors(disk) && buffer.Length == 512
      modifies this, buffer
      ensures Fit() && View() == EndOfSector(AddressingOf(geometry, bad), old(View()))
    {
      index := 0;
      IncrementAddress();
      err := false;
      if count == 0 {
        drq := false;
      } else {
        LoadSector();
      }
    }

    method ReadPort(width: nat) returns (value: int)
      requires (width == 2 || width == 4) && Fit() && index + width <= 512
      modifies this, buffer
      ensures value == ReadData(swap, old(View()), width)
      ensures Fit() && View() == AfterRead(AddressingOf(geometry, bad), old(View()), width)
    {
      if !drq {
        return 0;
      }
      value := PortValue(width);
      index := index + width;
      if index >= 512 {
        FinishSector();
      }
    }

    /** One access more of a run of accesses. */
    method ReadNext(width: nat, ghost u: State, ghost k: nat) returns (value: int)
      requires (width == 2 || width == 4) && Fit() && Aligned(width, index) && drq
      requires View() == Reads(AddressingOf(geometry, bad), u, width, k)
      modifies this, buffer
      ensures Fit() && Aligned(width, index)
      ensures View() == Reads(AddressingOf(geometry, bad), u, width, k + 1)
      ensures ReadValues(AddressingOf(geometry, bad), swap, u, width, k + 1) ==
              ReadValues(AddressingOf(geometry, bad), swap, u, width, k) + [value]
    {
      ReadsOneMore(AddressingOf(geometry, bad), swap, u, width, k);
      StaysAligned(AddressingOf(geometry, bad), View(), width);
      RoomFor(width, index);
      value := ReadPort(width);
    }

    /** The data port read for as long as DRQ is up, which is known to take a number of accesses. */
    method Drain(width: nat, ghost u: State, ghost all: nat) returns (values: seq<int>)
      requires (width == 2 || width == 4) && Fit() && Aligned(width, index) && View() == u
      requires forall j | 0 <= j < all :: Reads(AddressingOf(geometry, bad), u, width, j).drq
      requires !Reads(AddressingOf(geometry, bad), u, width, all).drq
      modifies this, buffer
      ensures View() == Reads(AddressingOf(geometry, bad), u, width, all)
      ensures values == ReadValues(AddressingOf(geometry, bad), swap, u, width, all)
    {
      values := [];
      ghost var d, k := AddressingOf(geometry, bad), 0;
      while drq
        invariant Fit() && Aligned(width, index) && k <= all
        invariant View() == Reads(d, u, width, k) && values == ReadValues(d, swap, u, width, k)
        decreases all - k
      {
        var v := ReadNext(width, u, k);
        values := values + [v];
        k := k + 1;
      }
    }

    /** A host that reads while DRQ is up gets the sectors it asked for, all of them and no more. */
    method ReadWhileDrq(width: nat, value: nat, ghost n: nat) returns (values: seq<int>)
      requires (width == 2 || width == 4) && Fit() && 1 <= n <= 256 && count == n % 256
      requires Good(geometry, bad, Registers(), n)
      modifies this, buffer
      ensures disk == old(disk) && values == DiskValues(swap, width, disk, Logical(geometry, old(Registers())), n)
      ensures !drq && !err
    {
      ReadSectors(geometry, bad, swap, View(), value, width, n);
      StartRead(value);
      values := Drain(width, View(), Accesses(width, n));
    }

    method StartWrite(value: nat)
      modifies `command, `err, `drq, `index
      ensures View() == WriteCommand(old(View()), value)
    {
      command, drq, err, index := value, true, false, 0;
    }

    method StoreWord(i: nat, value: int)
      requires i + 2 <= buffer.Length
      modifies buffer
      ensures buffer[..] == Replaced(old(buffer[..]), i, Stored(swap, 2, value))
    {
      buffer[i] := if swap then Low(value / 0x100) else Low(value);
      buffer[i + 1] := if swap then Low(value) else Low(value / 0x100);
      ReplacedIs(old(buffer[..]), i, Stored(swap, 2, value), buffer[..]);
    }

    method StoreLong(i: nat, value: int)
      requires i + 4 <= buffer.Length
      modifies buffer
      ensures buffer[..] == Replaced(old(buffer[..]), i, Stored(swap, 4, value))
    {
      var v := value / 0x1_0000 % 0x1_0000 + value % 0x1_0000 * 0x1_0000;
      SwappedHalves(value);
      buffer[i] := if swap then Low(v / 0x100_0000) else Low(v);
      buffer[i + 1] := if swap then Low(v / 0x1_0000) else Low(v / 0x100);
      buffer[i + 2] := if swap then Low(v / 0x100) else Low(v / 0x1_0000);
      buffer[i + 3] := if swap then Low(v) else Low(v / 0x100_0000);
      ReplacedIs(old(buffer[..]), i, Stored(swap, 4, value), buffer[..]);
    }

    method StoreValue(width: nat, value: int)
      requires (width == 2 || width == 4) && index + width <= buffer.Length
      modifies buffer
      ensures buffer[..] == Replaced(old(buffer[..]), index, Stored(swap, width, value))
    {
      if width == 2 {
        StoreWord(index, value);
      } else {
        StoreLong(index, value);
      }
    }

    method FlushBuffer()
      requires |disk| == geometry.Total() && buffer.Length == 512
      modifies this
      ensures View() == Flush(AddressingOf(geometry, bad), old(View()))
    {
      var ok, n := CalculateLogicalAddress();
      if !ok || n in bad {
        CommandAborted();
        return;
      }
      disk := disk[n := buffer[..]];
      index := 0;
      IncrementAddress();
      err := false;
      drq := count != 0;
    }

    method WritePort(width: nat, value: int)
      requires (width == 2 || width == 4) && Fit() && index + width <= 512
      modifies this, buffer
      ensures Fit() && View() == WriteData(AddressingOf(geometry, bad), swap, old(View()), width, value)
    {
      StoreValue(width, value);
      index := index + width;
      if index >= 512 {
        FlushBuffer();
      }
    }
  }
}
