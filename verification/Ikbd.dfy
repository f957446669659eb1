/**
 * The queue of the intelligent keyboard (src/ikbd.cpp): a ring of bytes, packets put into it by the host
 * and read byte by byte by the Atari, and mouse packets that may be merged into the last one while it is
 * still unread.
 */
module Ikbd {
  import opened Arith

  const LEN := 8192
  const MOUSE_DELTA_MAX := 63

  datatype PacketType = Unknown | Keyboard | MouseType | Joystick

  /** What the host has put into the queue: a mouse packet with signed deltas, or the bytes of any other packet. */
  datatype Packet = Mouse(buttons: int, dx: int, dy: int) | Other(bytes: seq<int>)

  /** Conversion to uint8. */
  function U8(x: int): (r: int)
    ensures 0 <= r < 256
    ensures 0 <= x < 256 ==> r == x
    ensures -256 <= x < 0 ==> r == x + 256
  {
    x % 256
  }

  ghost function Encode(p: Packet): seq<int> {
    match p
    case Mouse(buttons, dx, dy) => [0xf8 + buttons, U8(dx), U8(dy)]
    case Other(bytes) => bytes
  }

  ghost function Flatten(log: seq<Packet>): seq<int> {
    if |log| == 0 then [] else Flatten(log[..|log| - 1]) + Encode(log[|log| - 1])
  }

  /** The summed signed deltas of all mouse packets. */
  ghost function Motion(log: seq<Packet>): (int, int) {
    if |log| == 0 then (0, 0)
    else
      var m, p := Motion(log[..|log| - 1]), log[|log| - 1];
      if p.Mouse? then (m.0 + p.dx, m.1 + p.dy) else m
  }

  ghost predicate SmallDeltas(p: Packet) {
    p.Mouse? ==> 0 <= p.buttons < 4 && Abs(p.dx) <= MOUSE_DELTA_MAX && Abs(p.dy) <= MOUSE_DELTA_MAX
  }

  lemma {:induction false} FlattenAppended(log: seq<Packet>, p: Packet)
    ensures Flatten(log + [p]) == Flatten(log) + Encode(p)
  {
    assert (log + [p])[..|log|] == log;
  }

  lemma {:induction false} MotionAppended(log: seq<Packet>, p: Packet)
    ensures Motion(log + [p]) == if p.Mouse? then (Motion(log).0 + p.dx, Motion(log).1 + p.dy) else Motion(log)
  {
    assert (log + [p])[..|log|] == log;
  }

  // ---------------------------------------------------------------- merging

  /**
   * When the emulator merges a move into the last packet: same buttons, and both sums small.  The stored
   * bytes are added unsigned, so a packet with a negative delta never qualifies.
   */
  ghost predicate Mergeable(p: Packet, movex: int, movey: int, buttons: int) {
    && p.Mouse? && p.buttons == buttons && p.dx >= 0 && p.dy >= 0
    && Abs(movex + p.dx) <= MOUSE_DELTA_MAX && Abs(movey + p.dy) <= MOUSE_DELTA_MAX
  }

  /** One move posted to the log, merged into the last packet or as a packet of its own. */
  ghost function Posted(log: seq<Packet>, merge: bool, movex: int, movey: int, buttons: int, reversed: bool)
    : seq<Packet>
    requires merge ==> |log| > 0 && log[|log| - 1].Mouse?
  {
    if merge then
      var p, y := log[|log| - 1], movey + log[|log| - 1].dy;
      log[..|log| - 1] + [Mouse(buttons, movex + p.dx, if reversed then -y else y)]
    else log + [Mouse(buttons, movex, if reversed then -movey else movey)]
  }

  /** The total motion has grown by exactly a move. */
  ghost predicate Grew(was: seq<Packet>, log: seq<Packet>, x: int, y: int, reversed: bool) {
    Motion(log) == (Motion(was).0 + x, Motion(was).1 + if reversed then -y else y)
  }

  /** Horizontally exactly; vertically, with the Y origin at the bottom, by no more. */
  ghost predicate GrewAtMost(was: seq<Packet>, log: seq<Packet>, x: int, y: int) {
    Motion(log).0 == Motion(was).0 + x && Motion(log).1 <= Motion(was).1 - y
  }

  lemma GrewOn(a: seq<Packet>, b: seq<Packet>, c: seq<Packet>, x: int, y: int, x': int, y': int, reversed: bool)
    ensures Grew(a, b, x, y, reversed) && Grew(b, c, x', y', reversed) ==> Grew(a, c, x + x', y + y', reversed)
    ensures GrewAtMost(a, b, x, y) && GrewAtMost(b, c, x', y') ==>
            && GrewAtMost(a, c, x + x', y + y')
            && (Grew(a, c, x + x', y + y', true) <==> Grew(a, b, x, y, true) && Grew(b, c, x', y', true))
  {
  }

  /**
   * Posting a move adds exactly it to the total motion, exactly when it is not merged, or the Y origin is
   * at the top, or the packet it is merged into has no vertical delta: with the origin at the bottom the
   * stored, already negated, delta is negated again, and twice that delta is missing.
   */
  lemma {:induction false} PostedMotion(log: seq<Packet>, merge: bool, movex: int, movey: int, buttons: int,
                                        reversed: bool)
    requires merge ==> |log| > 0 && log[|log| - 1].Mouse?
    ensures var m, m' := Motion(log), Motion(Posted(log, merge, movex, movey, buttons, reversed));
            && m'.0 == m.0 + movex
            && m'.1 == (m.1 + if reversed then -movey else movey)
                       - (if merge && reversed then 2 * log[|log| - 1].dy else 0)
    ensures Grew(log, Posted(log, merge, movex, movey, buttons, reversed), movex, movey, reversed)
            <==> !merge || !reversed || log[|log| - 1].dy == 0
  {
    var stored := if reversed then -movey else movey;
    if merge {
      var front, p := log[..|log| - 1], log[|log| - 1];
      var y := movey + p.dy;
      var q := Mouse(buttons, movex + p.dx, if reversed then -y else y);
      assert log == front + [p];
      assert Posted(log, merge, movex, movey, buttons, reversed) == front + [q];
      MotionAppended(front, p);
      MotionAppended(front, q);
    } else {
      MotionAppended(log, Mouse(buttons, movex, stored));
    }
  }

  /** One more step down, merged into a packet of five, does not come out as one more. */
  lemma ReversedMergeLosesMotion(front: seq<Packet>)
    ensures var log := front + [Mouse(0, 0, 5)];
            && Mergeable(Mouse(0, 0, 5), 0, 1, 0)
            && !Grew(log, Posted(log, true, 0, 1, 0, true), 0, 1, true)
  {
    PostedMotion(front + [Mouse(0, 0, 5)], true, 0, 1, 0, true);
  }

  lemma SameTail(a: seq<int>, b: seq<int>, c: seq<int>, d: seq<int>, k: int)
    requires a + b == c + d && 0 <= k <= |b| && k <= |d|
    ensures b[|b| - k..] == d[|d| - k..]
  {
    assert (a + b)[|a + b| - k..] == b[|b| - k..];
    assert (c + d)[|c + d| - k..] == d[|d| - k..];
  }

  /** The test on the last three bytes of a packet, added unsigned to the move. */
  lemma TailMeans(p: Packet, t: seq<int>, relx: int, rely: int, buttons: int)
    requires SmallDeltas(p) && 0 <= buttons < 4 && Abs(relx) <= MOUSE_DELTA_MAX && Abs(rely) <= MOUSE_DELTA_MAX
    requires (p.Mouse? || Queue.NotMouseTail(p.bytes)) && t == Encode(p)[|Encode(p)| - 3..]
    ensures var x, y := relx + t[1], rely + t[2];
            var fits := t[0] == 0xf8 + buttons && Abs(x) <= MOUSE_DELTA_MAX && Abs(y) <= MOUSE_DELTA_MAX;
            fits == Mergeable(p, relx, rely, buttons) && (fits ==> x == relx + p.dx && y == rely + p.dy)
  {
    if p.Mouse? {
      assert t == [0xf8 + p.buttons, U8(p.dx), U8(p.dy)];
    }
  }

  /** A motion is sent in moves of at most 63 units per axis. */
  function Clamp(d: int): (r: int)
    ensures Abs(r) <= MOUSE_DELTA_MAX && Abs(d - r) <= Abs(d) && (d != 0 ==> Abs(d - r) < Abs(d))
    ensures r == if d < -63 then -63 else if d > 63 then 63 else d
  {
    if Abs(d) > MOUSE_DELTA_MAX then (if d > 0 then MOUSE_DELTA_MAX else -MOUSE_DELTA_MAX) else d
  }

  function Distance(x: int, y: int): nat {
    Abs(x) + Abs(y)
  }

  /** What a merge looks at: the last packet and the number of unread bytes. */
  datatype Tail = Tail(last: Packet, unread: nat)

  ghost predicate Joins(t: Tail, movex: int, movey: int, buttons: int) {
    t.unread >= 4 && Mergeable(t.last, movex, movey, buttons)
  }

  /** The same after a move with the Y origin at the bottom. */
  ghost function NextTail(t: Tail, movex: int, movey: int, buttons: int): Tail {
    if Joins(t, movex, movey, buttons) then Tail(Mouse(buttons, movex + t.last.dx, -(movey + t.last.dy)), t.unread)
    else Tail(Mouse(buttons, movex, -movey), t.unread + 3)
  }

  /** One of the moves of a motion is merged into a packet with a vertical delta. */
  ghost predicate Spoiled(t: Tail, x: int, y: int, buttons: int)
    decreases Distance(x, y)
  {
    var movex, movey := Clamp(x), Clamp(y);
    || (Joins(t, movex, movey, buttons) && t.last.dy != 0)
    || ((x != movex || y != movey) && Spoiled(NextTail(t, movex, movey, buttons), x - movex, y - movey, buttons))
  }

  /** Unless the queue is empty, a long motion upwards is always spoiled: its second packet merges with its first. */
  lemma LongUpwardsIsSpoiled(t: Tail, x: int, y: int, buttons: int)
    requires t.unread >= 1 && 0 <= x <= MOUSE_DELTA_MAX && y < -MOUSE_DELTA_MAX
    ensures Spoiled(t, x, y, buttons)
  {
    var next := NextTail(t, x, Clamp(y), buttons);
    assert Spoiled(next, 0, y - Clamp(y), buttons) || (Joins(t, x, Clamp(y), buttons) && t.last.dy != 0);
  }

  /** A long horizontal one is not, unless its first packet already merges. */
  lemma {:induction false} HorizontalIsNotSpoiled(t: Tail, x: int, y: int, buttons: int)
    requires !Joins(t, Clamp(x), y, buttons) && Abs(y) <= MOUSE_DELTA_MAX
    ensures !Spoiled(t, x, y, buttons)
    decreases Abs(x)
  {
    if x != Clamp(x) {
      HorizontalIsNotSpoiled(NextTail(t, Clamp(x), y, buttons), x - Clamp(x), 0, buttons);
    }
  }

  /** The same of what remains of a motion, which may be nothing. */
  ghost predicate RestSpoiled(t: Tail, x: int, y: int, buttons: int) {
    (x != 0 || y != 0) && Spoiled(t, x, y, buttons)
  }

  /**
   * How the total motion stands while a motion is sent: from before its first packet to b it has grown by x and y.
   * With the Y origin at the bottom and merging, the motion is spoiled exactly if it is already or what remains is.
   */
  ghost predicate Progress(a: seq<Packet>, b: seq<Packet>, x: int, y: int, slow: bool, reversed: bool,
                           spoiled: bool, rest: bool) {
    && (reversed ==> GrewAtMost(a, b, x, y))
    && (if slow || !reversed then Grew(a, b, x, y, reversed) else (spoiled <==> !Grew(a, b, x, y, true) || rest))
  }

  lemma Onward(a: seq<Packet>, b: seq<Packet>, c: seq<Packet>, x: int, y: int, x': int, y': int,
               slow: bool, reversed: bool, spoiled: bool, rest: bool, rest': bool)
    requires Progress(a, b, x, y, slow, reversed, spoiled, rest)
    requires Progress(b, c, x', y', slow, reversed, rest, rest')
    ensures Progress(a, c, x + x', y + y', slow, reversed, spoiled, rest')
  {
    GrewOn(a, b, c, x, y, x', y', reversed);
  }

  // ---------------------------------------------------------------- the ring

  /** (x + i) & (inbufferlen - 1) for positions and short distances */
  function Slot(x: int, i: int): (s: int)
    requires 0 <= x < LEN && -LEN <= i <= LEN
    ensures 0 <= s < LEN
    ensures s == if x + i < 0 then x + i + LEN else if x + i < LEN then x + i else x + i - LEN
  {
    (x + i) % LEN
  }

  /** How many bytes a full ring drops: the packet at its head, told by its first byte. */
  function DropSize(head: int): (n: int)
    ensures 1 <= n <= 8
  {
    if head == 0xf6 then 8
    else if head == 0xf7 then 6
    else if 0xf8 <= head <= 0xfb then 3
    else if head == 0xfc then 7
    else if head == 0xfe || head == 0xff then 2
    else 1
  }

  /** A packet whose first byte tells its length: a mouse packet, a key, a joystick, the clock or a report. */
  ghost predicate TellsLength(p: Packet) {
    if p.Mouse? then 0 <= p.buttons < 4
    else
      && |p.bytes| > 0
      && var head := p.bytes[0];
         |p.bytes| == if head == 0xf6 then 8 else if head == 0xf7 then 6 else if head == 0xfc then 7
                      else if 0xf8 <= head <= 0xfb then 3 else if head == 0xfe || head == 0xff then 2 else 1
  }

  lemma {:induction false} FlattenPrefix(log: seq<Packet>, j: nat)
    requires j <= |log|
    ensures Flatten(log[..j]) <= Flatten(log)
    decreases |log|
  {
    if j < |log| {
      var front := log[..|log| - 1];
      FlattenPrefix(front, j);
      assert front[..j] == log[..j];
    } else {
      assert log[..j] == log;
    }
  }

  lemma DropSizeIs(p: Packet)
    requires TellsLength(p)
    ensures var e := Encode(p); e != [] && DropSize(e[0]) == |e|
  {
  }

  lemma SameHead(gone: seq<int>, queue: seq<int>, e: seq<int>)
    requires gone + e <= gone + queue
    ensures e <= queue
  {
    assert forall i | 0 <= i < |e| :: queue[i] == (gone + queue)[|gone| + i] == (gone + e)[|gone| + i] == e[i];
  }

  /** What a full ring drops of such packets is the whole packet at its head, so that the next one follows. */
  lemma DropsWholePacket(log: seq<Packet>, gone: seq<int>, queue: seq<int>, j: nat, part: seq<int>)
    requires j < |log| && TellsLength(log[j]) && gone == Flatten(log[..j]) && gone + queue == Flatten(log) + part
    ensures queue != [] && DropSize(queue[0]) <= |queue|
    ensures gone + queue[..DropSize(queue[0])] == Flatten(log[..j + 1])
  {
    var e := Encode(log[j]);
    FlattenPrefix(log, j + 1);
    assert log[..j + 1][..j] == log[..j];
    assert Flatten(log[..j + 1]) == gone + e;
    SameHead(gone, queue, e);
    DropSizeIs(log[j]);
  }

  /** The last bytes of a stream of packets are those of the last packet. */
  lemma LastBytes(log: seq<Packet>, gone: seq<int>, queue: seq<int>, k: int)
    requires |log| > 0 && gone + queue == Flatten(log) && 0 <= k <= |queue| && k <= |Encode(log[|log| - 1])|
    ensures var e := Encode(log[|log| - 1]); queue[|queue| - k..] == e[|e| - k..]
  {
    SameTail(gone, queue, Flatten(log[..|log| - 1]), Encode(log[|log| - 1]), k);
  }

  lemma ThirdLast(queue: seq<int>)
    requires |queue| >= 3
    ensures var t, n := queue[|queue| - 3..], |queue|;
            t[0] == queue[n - 3] && t[1] == queue[n - 2] && t[2] == queue[n - 1]
  {
  }

  /** The test on the last three bytes of the queue is whether a move can be merged, and finds the sums. */
  ghost predicate MergeTested(p: Packet, queue: seq<int>, relx: int, rely: int, buttons: int)
    requires |queue| >= 3
  {
    var n := |queue|;
    var x, y := relx + queue[n - 2], rely + queue[n - 1];
    var fits := queue[n - 3] == 0xf8 + buttons && Abs(x) <= MOUSE_DELTA_MAX && Abs(y) <= MOUSE_DELTA_MAX;
    fits == Mergeable(p, relx, rely, buttons) && (fits ==> x == relx + p.dx && y == rely + p.dy)
  }

  lemma QueueMeans(log: seq<Packet>, gone: seq<int>, queue: seq<int>, relx: int, rely: int, buttons: int)
    requires |log| > 0 && gone + queue == Flatten(log) && |queue| >= 4 && SmallDeltas(log[|log| - 1])
    requires log[|log| - 1].Mouse? || Queue.NotMouseTail(log[|log| - 1].bytes)
    requires 0 <= buttons < 4 && Abs(relx) <= MOUSE_DELTA_MAX && Abs(rely) <= MOUSE_DELTA_MAX
    ensures MergeTested(log[|log| - 1], queue, relx, rely, buttons)
  {
    LastBytes(log, gone, queue, 3);
    ThirdLast(queue);
    TailMeans(log[|log| - 1], queue[|queue| - 3..], relx, rely, buttons);
  }

  /** The receive bits of the status register: a byte waits, and an interrupt is requested. */
  datatype Status = Status(rxFull: bool, interrupt: bool)

  /** The last three bytes of a stream. */
  predicate EndsIn(t: seq<int>, b0: int, b1: int, b2: int) {
    |t| >= 3 && t[|t| - 3] == b0 && t[|t| - 2] == b1 && t[|t| - 1] == b2
  }

  lemma LastOf(front: seq<int>, b0: int, b1: int, b2: int, t: seq<int>)
    requires t == front + [b0, b1, b2]
    ensures EndsIn(t, b0, b1, b2)
  {
  }

  class Queue {
    const inbuffer: array<int>
    var inread: int
    var inwrite: int
    var intype: PacketType
    var yaxisReversed: bool
    var mouseEnabled: bool
    var rxdr: int
    var status: Status

    /** Whether the MFP and the control register let a received byte interrupt. */
    var interruptsOn: bool

    /** The unread bytes, the bytes read or dropped before them, and the packets that all of them came from. */
    ghost var queue: seq<int>
    ghost var gone: seq<int>
    ghost var log: seq<Packet>

    ghost predicate RingHolds()
      reads this, inbuffer
    {
      && inbuffer.Length == LEN && 0 <= inread < LEN && 0 <= inwrite < LEN
      && |queue| <= LEN && inwrite == Slot(inread, |queue|)
      && forall i :: 0 <= i < |queue| ==> queue[i] == inbuffer[Slot(inread, i)]
    }

    /** The ring is not full, and the status register says exactly whether it holds a byte. */
    ghost predicate RingValid()
      reads this, inbuffer
    {
      && RingHolds() && |queue| < LEN
      && (status.rxFull <==> queue != []) && (status.interrupt ==> status.rxFull)
    }

    static ghost predicate NotMouseTail(bytes: seq<int>) {
      |bytes| >= 3 && !(0xf8 <= bytes[|bytes| - 3] <= 0xfb)
    }

    /**
     * At packet boundaries the byte stream is the packets; while the type says mouse, the last packet is one,
     * or its last three bytes do not look like one.
     */
    ghost predicate Valid()
      reads this, inbuffer
    {
      && RingValid()
      && gone + queue == Flatten(log)
      && (forall i :: 0 <= i < |log| ==> SmallDeltas(log[i]))
      && (intype.MouseType? ==> |log| > 0 && (log[|log| - 1].Mouse? || NotMouseTail(log[|log| - 1].bytes)))
    }

    constructor ()
      ensures Valid() && fresh(inbuffer) && queue == [] && log == [] && !yaxisReversed && mouseEnabled
    {
      inbuffer := new int[LEN](_ => 0);
      inread, inwrite, intype, yaxisReversed, mouseEnabled, rxdr := 0, 0, Unknown, false, true, 0;
      status, interruptsOn := Status(false, false), false;
      queue, gone, log := [], [], [];
    }

    method Put(value: int)
      requires RingValid()
      modifies `inwrite, `queue, inbuffer
      ensures RingHolds() && queue == old(queue) + [value]
    {
      inbuffer[inwrite] := value;
      inwrite := Slot(inwrite, 1);
      queue := queue + [value];
    }

    method Drop(n: int)
      requires RingHolds() && 1 <= n <= |queue|
      modifies `inread, `queue, `gone
      ensures RingHolds() && queue == old(queue)[n..] && gone == old(gone) + old(queue)[..n]
    {
      inread := Slot(inread, n);
      gone := gone + queue[..n];
      queue := queue[n..];
    }

    method ThrowInterrupt()
      modifies `status
      ensures status == old(status).(interrupt := old(status.interrupt) || interruptsOn)
    {
      if interruptsOn {
        status := status.(interrupt := true);
      }
    }

    /** Appends a byte; a ring that becomes full drops the packet at its head. */
    method Send(value: int)
      requires RingValid()
      modifies `inread, `inwrite, `queue, `gone, `status, inbuffer
      ensures status == Status(true, old(status.interrupt) || interruptsOn)
      ensures RingValid() && gone + queue == old(gone + queue) + [value] && old(gone) <= gone
      ensures |old(queue)| + 1 < LEN ==> gone == old(gone) && queue == old(queue) + [value]
      ensures |old(queue)| + 1 == LEN ==> queue == (old(queue) + [value])[DropSize(old(queue)[0])..]
    {
      Put(value);
      if inread == inwrite {
        Drop(DropSize(inbuffer[inread]));
      }
      status := status.(rxFull := true);
      ThrowInterrupt();
    }

    method TakeByte()
      requires RingValid() && queue != []
      modifies `inread, `rxdr, `queue, `gone
      ensures RingHolds() && |queue| < LEN && (inread == inwrite <==> queue == [])
      ensures rxdr == old(queue)[0] && queue == old(queue)[1..] && gone == old(gone) + [rxdr]
      ensures gone + queue == old(gone + queue)
    {
      rxdr := inbuffer[inread];
      Drop(1);
    }

    /** The Atari takes a byte; an empty queue repeats the last one. */
    method ReadData() returns (value: int)
      requires Valid()
      modifies `inread, `rxdr, `queue, `gone, `status
      ensures Valid() && log == old(log)
      ensures status == if |old(queue)| == 0 then old(status) else if |old(queue)| == 1 then Status(false, false)
                        else Status(true, old(status.interrupt) || interruptsOn)
      ensures if |old(queue)| == 0 then value == old(rxdr) && queue == old(queue)
              else value == old(queue)[0] && queue == old(queue)[1..] && gone == old(gone) + [value]
    {
      if inread != inwrite {
        TakeByte();
        if inread == inwrite {
          status := Status(false, false);
        } else {
          status := status.(rxFull := true);
          ThrowInterrupt();
        }
      }
      value := rxdr;
    }

    method SendKey(scancode: int)
      requires Valid()
      modifies `inread, `inwrite, `queue, `gone, `status, `intype, `log, inbuffer
      ensures Valid() && log == old(log) + [Other([scancode])] && old(gone) <= gone
    {
      intype := Keyboard;
      Send(scancode);
      FlattenAppended(log, Other([scancode]));
      log := log + [Other([scancode])];
    }

    /** Sends the bytes of a packet one by one. */
    method SendAll(bytes: seq<int>)
      requires RingValid()
      modifies `inread, `inwrite, `queue, `gone, `status, inbuffer
      ensures RingValid() && gone + queue == old(gone + queue) + bytes && old(gone) <= gone
      ensures |old(queue)| + |bytes| < LEN ==> gone == old(gone) && queue == old(queue) + bytes
      ensures |queue| == |old(queue)| + |bytes| || |queue| >= LEN - 8
    {
      for i := 0 to |bytes|
        invariant |queue| == |old(queue)| + i || |queue| >= LEN - 8
        invariant RingValid() && gone + queue == old(gone + queue) + bytes[..i] && old(gone) <= gone
        invariant |old(queue)| + |bytes| < LEN ==> gone == old(gone) && queue == old(queue) + bytes[..i]
      {
        assert bytes[..i + 1] == bytes[..i] + [bytes[i]];
        Send(bytes[i]);
      }
      assert bytes[..|bytes|] == bytes;
    }

    /** The two decimal digits of a number in the two halves of a byte. */
    static function Int2Bcd(a: int): (r: int)
      ensures 0 <= a < 100 ==> r / 16 == a / 10 && r % 16 == a % 10
    {
      a % 10 + a / 10 * 16
    }

    /** The date and time packet, which leaves the packet type as it was. */
    method SendClock(year: int, month: int, day: int, hour: int, minute: int, second: int)
      requires Valid() && 0 <= hour < 24
      modifies `inread, `inwrite, `queue, `gone, `status, `log, inbuffer
      ensures Valid() && old(gone) <= gone
      ensures log == old(log) + [Other([0xfc, Int2Bcd(year % 100), Int2Bcd(month), Int2Bcd(day),
                                        Int2Bcd(hour), Int2Bcd(minute), Int2Bcd(second)])]
    {
      var bytes := [0xfc, Int2Bcd(year % 100), Int2Bcd(month), Int2Bcd(day),
                    Int2Bcd(hour), Int2Bcd(minute), Int2Bcd(second)];
      SendAll(bytes);
      FlattenAppended(log, Other(bytes));
      log := log + [Other(bytes)];
      assert NotMouseTail(bytes);
    }

    /** Whether a move would go into the last packet: it is a mouse packet, unread, and fits. */
    ghost predicate Merges(movex: int, movey: int, buttons: int)
      reads this
    {
      intype.MouseType? && |queue| >= 4 && |log| > 0 && Mergeable(log[|log| - 1], movex, movey, buttons)
    }

    /** The last bytes of an unread last packet. */
    lemma LastPacket(k: int)
      requires Valid() && |log| > 0 && |queue| >= k && 0 <= k <= |Encode(log[|log| - 1])|
      ensures var e := Encode(log[|log| - 1]); queue[|queue| - k..] == e[|e| - k..]
    {
      LastBytes(log, gone, queue, k);
    }

    /** Where the unread bytes stand: the read position is on the last three or at the end exactly below four bytes. */
    lemma Positions()
      requires RingValid()
      ensures var w := Slot(inwrite, -3);
              inread == inwrite || inread == w || inread == Slot(w, 1) || inread == Slot(w, 2) <==> |queue| < 4
    {
    }

    lemma TailBytes()
      requires RingValid() && |queue| >= 4
      ensures var w := Slot(inwrite, -3); var n := |queue|;
              && inbuffer[w] == queue[n - 3] && inbuffer[Slot(w, 1)] == queue[n - 2]
              && inbuffer[Slot(w, 2)] == queue[n - 1]
    {
      var w, n := Slot(inwrite, -3), |queue|;
      assert w == Slot(inread, n - 3) && Slot(w, 1) == Slot(inread, n - 2) && Slot(w, 2) == Slot(inread, n - 1);
    }

    /** The byte tests of the merge on the tail of the stream mean Mergeable on the last packet. */
    lemma MergeTest(relx: int, rely: int, buttons: int)
      requires Valid() && intype.MouseType? && |queue| >= 4 && 0 <= buttons < 4
      requires Abs(relx) <= MOUSE_DELTA_MAX && Abs(rely) <= MOUSE_DELTA_MAX
      ensures MergeTested(log[|log| - 1], queue, relx, rely, buttons)
    {
      QueueMeans(log, gone, queue, relx, rely, buttons);
    }

    method Retract()
      requires RingValid() && |queue| >= 4
      modifies `inwrite, `queue
      ensures RingValid() && queue == old(queue)[..|old(queue)| - 3]
    {
      inwrite := Slot(inwrite, -3);
      queue := queue[..|queue| - 3];
    }

    /** Takes the last mouse packet back from the ring if the move can be added to it. */
    method MergeMousePacket(relx: int, rely: int, buttons: int) returns (newx: int, newy: int)
      requires Valid() && Abs(relx) <= MOUSE_DELTA_MAX && Abs(rely) <= MOUSE_DELTA_MAX && 0 <= buttons < 4
      modifies `inwrite, `queue
      ensures RingValid()
      ensures if old(Merges(relx, rely, buttons))
              then var p := log[|log| - 1];
                   newx == relx + p.dx && newy == rely + p.dy && queue == old(queue)[..|old(queue)| - 3]
              else newx == relx && newy == rely && queue == old(queue)
    {
      newx, newy := relx, rely;
      if intype != MouseType {
        return;
      }
      var mouseInwrite := Slot(inwrite, -3);
      Positions();
      if inread == inwrite || inread == mouseInwrite
         || inread == Slot(mouseInwrite, 1) || inread == Slot(mouseInwrite, 2) {
        return;
      }
      TailBytes();
      MergeTest(relx, rely, buttons);
      var distx, disty := relx + inbuffer[Slot(mouseInwrite, 1)], rely + inbuffer[Slot(mouseInwrite, 2)];
      if inbuffer[mouseInwrite] != 0xf8 + buttons || Abs(distx) > MOUSE_DELTA_MAX || Abs(disty) > MOUSE_DELTA_MAX {
        return;
      }
      Retract();
      newx, newy := distx, disty;
    }

    /** Without the last packet the stream is the packets before it. */
    lemma Retracted()
      requires Valid() && |log| > 0 && log[|log| - 1].Mouse? && |queue| >= 4
      ensures gone + queue[..|queue| - 3] == Flatten(log[..|log| - 1])
    {
      LastPacket(3);
      var front, e := Flatten(log[..|log| - 1]), Encode(log[|log| - 1]);
      assert gone + queue == front + e;
      assert gone + queue[..|queue| - 3] == (gone + queue)[..|gone| + |queue| - 3];
      assert front == (front + e)[..|front|];
    }

    /** The log after a packet has been sent on top of the packets before it. */
    lemma Relogged(front: seq<Packet>, p: Packet)
      requires RingValid() && gone + queue == Flatten(front) + Encode(p) && p.Mouse? && SmallDeltas(p)
      requires forall i :: 0 <= i < |front| ==> SmallDeltas(front[i])
      ensures gone + queue == Flatten(front + [p])
      ensures forall i :: 0 <= i < |front + [p]| ==> SmallDeltas((front + [p])[i])
    {
      FlattenAppended(front, p);
    }

    /** Makes room for a move: takes the last packet back if the move is merged into it. */
    method TakeBack(movex: int, movey: int, b: int, slow: bool) returns (x: int, y: int, ghost front: seq<Packet>)
      requires Valid() && Abs(movex) <= MOUSE_DELTA_MAX && Abs(movey) <= MOUSE_DELTA_MAX && 0 <= b < 4
      modifies `inwrite, `queue
      ensures RingValid() && gone + queue == Flatten(front)
      ensures forall i :: 0 <= i < |front| ==> SmallDeltas(front[i])
      ensures Abs(x) <= MOUSE_DELTA_MAX && Abs(y) <= MOUSE_DELTA_MAX
      ensures |queue| == if !slow && old(Merges(movex, movey, b)) then |old(queue)| - 3 else |old(queue)|
      ensures front + [Mouse(b, x, if yaxisReversed then -y else y)]
              == Posted(log, !slow && old(Merges(movex, movey, b)), movex, movey, b, yaxisReversed)
    {
      x, y, front := movex, movey, log;
      if !slow {
        if Merges(x, y, b) {
          Retracted();
          front := log[..|log| - 1];
        }
        x, y := MergeMousePacket(x, y, b);
      }
    }

    method SendMouse(b: int, x: int, y: int, ghost front: seq<Packet>)
      requires RingValid() && gone + queue == Flatten(front) && 0 <= b < 4
      requires forall i :: 0 <= i < |front| ==> SmallDeltas(front[i])
      requires Abs(x) <= MOUSE_DELTA_MAX && Abs(y) <= MOUSE_DELTA_MAX
      modifies `inread, `inwrite, `queue, `gone, `status, `intype, `log, inbuffer
      ensures Valid() && old(gone) <= gone && log == front + [Mouse(b, x, y)] && intype.MouseType?
      ensures EndsIn(gone + queue, 0xf8 + b, x % 256, y % 256)
      ensures |queue| == |old(queue)| + 3 || |queue| >= LEN - 8
    {
      intype := MouseType;
      var bytes := [0xf8 + b, U8(x), U8(y)];
      assert |bytes| == 3;
      SendAll(bytes);
      LastOf(old(gone + queue), 0xf8 + b, U8(x), U8(y), gone + queue);
      Relogged(front, Mouse(b, x, y));
      log := front + [Mouse(b, x, y)];
    }

    /** One mouse packet: merge unless slow, then send; bytes already read never change. */
    method PostMove(movex: int, movey: int, buttons: int, slow: bool)
      requires Valid() && Abs(movex) <= MOUSE_DELTA_MAX && Abs(movey) <= MOUSE_DELTA_MAX
      modifies `inread, `inwrite, `queue, `gone, `status, `intype, `log, inbuffer
      ensures Valid() && old(gone) <= gone
      ensures var merge := !slow && old(Merges(movex, movey, buttons % 4));
              && log == Posted(old(log), merge, movex, movey, buttons % 4, yaxisReversed) && intype.MouseType?
              && (|queue| == |old(queue)| + (if merge then 0 else 3) || |queue| >= LEN - 8)
      ensures var p, t := log[|log| - 1], gone + queue;
              p.Mouse? && EndsIn(t, 0xf8 + buttons % 4, p.dx % 256, p.dy % 256)
    {
      var b := buttons % 4;
      ghost var front;
      var x, y;
      x, y, front := TakeBack(movex, movey, b, slow);
      if yaxisReversed {
        y := -y;
      }
      SendMouse(b, x, y, front);
    }

    /** The end of the queue as a merge sees it. */
    ghost predicate EndsWith(t: Tail)
      reads this
    {
      && (if intype.MouseType? && |log| > 0 then t.last == log[|log| - 1] else !t.last.Mouse?)
      && (t.unread == |queue| || (t.unread >= 4 && |queue| >= 4))
    }

    ghost function CurrentTail(): (t: Tail)
      reads this
      ensures EndsWith(t)
    {
      Tail(if intype.MouseType? && |log| > 0 then log[|log| - 1] else Other([]), |queue|)
    }

    /** The same with the effect on the total motion and on the end of the queue. */
    method PostCounted(movex: int, movey: int, buttons: int, slow: bool, ghost t: Tail)
      requires Valid() && Abs(movex) <= MOUSE_DELTA_MAX && Abs(movey) <= MOUSE_DELTA_MAX && EndsWith(t)
      modifies `inread, `inwrite, `queue, `gone, `status, `intype, `log, inbuffer
      ensures Valid() && old(gone) <= gone
      ensures Grew(old(log), log, movex, movey, yaxisReversed) <==>
              slow || !yaxisReversed || !Joins(t, movex, movey, buttons % 4) || t.last.dy == 0
      ensures yaxisReversed ==> GrewAtMost(old(log), log, movex, movey)
      ensures yaxisReversed && !slow ==> EndsWith(NextTail(t, movex, movey, buttons % 4))
    {
      PostedMotion(log, !slow && Merges(movex, movey, buttons % 4), movex, movey, buttons % 4, yaxisReversed);
      PostMove(movex, movey, buttons, slow);
    }

    static function Unit(d: int): (r: int)
      ensures Abs(r) <= 1 && Abs(d - r) <= Abs(d) && (d != 0 ==> Abs(d - r) < Abs(d))
    {
      if d > 0 then 1 else if d < 0 then -1 else 0
    }

    /** The next packet of a motion, and what is left of it. */
    method SendPart(x: int, y: int, buttons: int, slow: bool, ghost t: Tail) returns (x': int, y': int, ghost t': Tail)
      requires Valid() && EndsWith(t)
      modifies `inread, `inwrite, `queue, `gone, `status, `intype, `log, inbuffer
      ensures Valid() && old(gone) <= gone && EndsWith(t')
      ensures x != 0 || y != 0 ==> Distance(x', y') < Distance(x, y)
      ensures Progress(old(log), log, x - x', y - y', slow, yaxisReversed,
                       Spoiled(t, x, y, buttons % 4), RestSpoiled(t', x', y', buttons % 4))
    {
      var movex, movey := if slow then Unit(x) else Clamp(x), if slow then Unit(y) else Clamp(y);
      x', y' := x - movex, y - movey;
      PostCounted(movex, movey, buttons, slow, t);
      t' := if yaxisReversed && !slow then NextTail(t, movex, movey, buttons % 4) else CurrentTail();
    }

    /** One packet more of a motion that began with log a. */
    method SendNext(restx: int, resty: int, x: int, y: int, buttons: int, slow: bool, ghost t: Tail,
                    ghost a: seq<Packet>, ghost spoiled: bool) returns (x': int, y': int, ghost t': Tail)
      requires Valid() && EndsWith(t) && (x != 0 || y != 0)
      requires Progress(a, log, restx - x, resty - y, slow, yaxisReversed, spoiled, RestSpoiled(t, x, y, buttons % 4))
      modifies `inread, `inwrite, `queue, `gone, `status, `intype, `log, inbuffer
      ensures Valid() && old(gone) <= gone && EndsWith(t') && Distance(x', y') < Distance(x, y)
      ensures Progress(a, log, restx - x', resty - y', slow, yaxisReversed, spoiled,
                       RestSpoiled(t', x', y', buttons % 4))
    {
      ghost var was := log;
      x', y', t' := SendPart(x, y, buttons, slow, t);
      Onward(a, was, log, restx - x, resty - y, x - x', y - y', slow, yaxisReversed, spoiled,
             RestSpoiled(t, x, y, buttons % 4), RestSpoiled(t', x', y', buttons % 4));
    }

    /** The packets of a motion after its first. */
    method SendRest(restx: int, resty: int, buttons: int, slow: bool, ghost t: Tail)
      requires Valid() && EndsWith(t)
      modifies `inread, `inwrite, `queue, `gone, `status, `intype, `log, inbuffer
      ensures Valid() && old(gone) <= gone
      ensures Progress(old(log), log, restx, resty, slow, yaxisReversed,
                       RestSpoiled(t, restx, resty, buttons % 4), false)
    {
      var x, y := restx, resty;
      ghost var t', spoiled := t, RestSpoiled(t, restx, resty, buttons % 4);
      while x != 0 || y != 0
        invariant Valid() && old(gone) <= gone && EndsWith(t')
        invariant Progress(old(log), log, restx - x, resty - y, slow, yaxisReversed, spoiled,
                           RestSpoiled(t', x, y, buttons % 4))
        decreases Distance(x, y)
      {
        x, y, t' := SendNext(restx, resty, x, y, buttons, slow, t', old(log), spoiled);
      }
    }

    /** The packets of a motion, at least one. */
    method SendParts(relx: int, rely: int, buttons: int, slow: bool, ghost t: Tail)
      requires Valid() && EndsWith(t)
      modifies `inread, `inwrite, `queue, `gone, `status, `intype, `log, inbuffer
      ensures Valid() && old(gone) <= gone
      ensures Progress(old(log), log, relx, rely, slow, yaxisReversed, Spoiled(t, relx, rely, buttons % 4), false)
    {
      var x, y;
      ghost var t';
      x, y, t' := SendPart(relx, rely, buttons, slow, t);
      ghost var was := log;
      SendRest(x, y, buttons, slow, t');
      Onward(old(log), was, log, relx - x, rely - y, x, y, slow, yaxisReversed, Spoiled(t, relx, rely, buttons % 4),
             RestSpoiled(t', x, y, buttons % 4), false);
    }

    /**
     * A mouse motion, split into packets of at most 63 units per axis.  With the Y origin at the top, or with
     * slow motion, which never merges, the packets' summed deltas grow by exactly the motion; with the origin at the
     * bottom they do so exactly when no packet is merged into one with a vertical delta, and are else short of
     * vertical motion.  A disabled mouse and motions beyond 2048 units change nothing.
     */
    method SendMouseMotion(relx: int, rely: int, buttons: int, slow: bool)
      requires Valid()
      modifies `inread, `inwrite, `queue, `gone, `status, `intype, `log, inbuffer
      ensures Valid() && old(gone) <= gone
      ensures !mouseEnabled || (!slow && (Abs(relx) > 2048 || Abs(rely) > 2048)) ==>
                log == old(log) && queue == old(queue)
      ensures mouseEnabled && (slow || (Abs(relx) <= 2048 && Abs(rely) <= 2048)) ==>
                && (Grew(old(log), log, relx, rely, yaxisReversed) <==>
                    slow || !yaxisReversed || !Spoiled(old(CurrentTail()), relx, rely, buttons % 4))
                && (yaxisReversed ==> GrewAtMost(old(log), log, relx, rely))
    {
      if !mouseEnabled {
        return;
      }
      if !slow && (Abs(relx) > 2048 || Abs(rely) > 2048) {
        return;
      }
      SendParts(relx, rely, buttons, slow, CurrentTail());
    }
  }
}
