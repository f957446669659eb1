/**
 * The host port between the 68040 side and the DSP (src/dsp_core.c, src/dsp_cpu.c): two one-word channels
 * with full and empty flags, and a semaphore on which the DSP thread sleeps while it polls.
 *
 * Every access runs under the port's mutex, so it is one step.  The port's registers are a value here and
 * each access is a function on it; the class at the end performs the accesses on fields.
 */
module HostPort {
  import opened Arith
  import opened Bytes

  type Word = w: int | 0 <= w < 0x100_0000

  /**
   * RX and TX share the three byte cells, HRX and HTX share one word, as in the emulator's register map.
   * rxdf, txde and trdy are bits of ISR, hrdf and htde bits of HSR.
   */
  datatype Port = Port(
    rxdf: bool, txde: bool, trdy: bool, hrdf: bool, htde: bool,
    high: Byte, mid: Byte, low: Byte, word: Word, semaphore: nat)

  function Join(high: Byte, mid: Byte, low: Byte): Word {
    high as int * 0x1_0000 + mid as int * 0x100 + low as int
  }

  /** The high, middle and low bytes of a word. */
  function High(w: Word): Byte { (w / 0x1_0000 % 256) as Byte }

  function Mid(w: Word): Byte { (w / 256 % 256) as Byte }

  function Low(w: Word): Byte { (w % 256) as Byte }

  // ---------------------------------------------------------------- accesses

  function UpdateTrdy(p: Port): Port {
    p.(trdy := p.txde && !p.hrdf)
  }

  /** Moves the DSP's word to the byte cells if the host has emptied them. */
  function DspToHost(p: Port): Port {
    if p.rxdf || p.htde then p
    else p.(low := Low(p.word), mid := Mid(p.word), high := High(p.word), htde := true, rxdf := true)
  }

  /** Moves the host's bytes to the DSP's word if the DSP has emptied it. */
  function HostToDsp(p: Port): Port {
    if p.txde || p.hrdf then p
    else UpdateTrdy(p.(word := Join(p.high, p.mid, p.low), hrdf := true, txde := true))
  }

  /** Wakes the DSP thread if it sleeps or is about to. */
  function Resume(p: Port): Port {
    if p.semaphore == 0 then p.(semaphore := 1) else p
  }

  /** The DSP reads HRX: the flags move first and the word is fetched from the port that results. */
  function DspRead(p: Port): Port {
    HostToDsp(UpdateTrdy(p.(hrdf := false)))
  }

  /** The DSP writes HTX. */
  function DspWrite(p: Port, value: Word): Port {
    DspToHost(p.(word := value, htde := false))
  }

  /** The host reads RXL. */
  function CpuRead(p: Port): Port {
    Resume(DspToHost(p.(rxdf := false)))
  }

  /** The host writes TXL. */
  function CpuWrite(p: Port, value: Byte): Port {
    Resume(HostToDsp(UpdateTrdy(p.(low := value, txde := false))))
  }

  /** The flags that a reset leaves; the cells and the semaphore may hold anything. */
  predicate AfterReset(p: Port) {
    !p.rxdf && p.txde && p.trdy && !p.hrdf && p.htde
  }

  /** TRDY is the flag it is documented to be: TXDE and not HRDF. */
  predicate TrdyAgrees(p: Port) {
    p.trdy == (p.txde && !p.hrdf)
  }

  /** Every access keeps TRDY in agreement. */
  lemma AccessesKeepTrdy(p: Port, value: Word, low: Byte)
    requires TrdyAgrees(p)
    ensures TrdyAgrees(DspRead(p)) && TrdyAgrees(DspWrite(p, value))
    ensures TrdyAgrees(CpuRead(p)) && TrdyAgrees(CpuWrite(p, low))
  {
  }

  lemma JoinedBytes(h: Byte, m: Byte, l: Byte, w: Word)
    requires w == Join(h, m, l)
    ensures w / 0x1_0000 == h as int && w / 0x100 % 0x100 == m as int && w % 0x100 == l as int
  {
    DivModIs(w, 0x1_0000, h as int, 0x100 * m as int + l as int);
    DivModIs(w, 0x100, 0x100 * h as int + m as int, l as int);
    DivModIs(0x100 * h as int + m as int, 0x100, h as int, m as int);
  }

  lemma JoinSplit(w: Word)
    ensures Join(High(w), Mid(w), Low(w)) == w
  {
  }

  /**
   * Because the flags move before the word is fetched, a read delivers the word that was waiting exactly when
   * no second word stood behind it, or the second was the same.
   */
  lemma ReadDeliversWaitingWord(p: Port)
    requires p.hrdf
    ensures DspRead(p).word == p.word <==> p.txde || Join(p.high, p.mid, p.low) == p.word
  {
  }

  // ---------------------------------------------------------------- DSP to host

  /** The DSP between two instructions, after a JCLR test that failed and before the semaphore, or free to transfer. */
  datatype DspPhase = Polling | Waiting | Transferring

  datatype HostPhase = Idle | AtHigh | AtMid(h: Byte) | AtLow(h: Byte, m: Byte)

  datatype ToHost = ToHost(port: Port, dsp: DspPhase, host: HostPhase, sent: seq<Word>, received: seq<Word>)

  /** One mutex-protected step of either side. */
  datatype ToHostStep =
    | DspTest(pause: bool)       // JCLR on HTDE; a recognized polling loop goes to sleep
    | DspWake                    // the semaphore wait returns
    | DspSend(value: Word)       // write HTX
    | HostTest                   // look at RXDF
    | HostByte                   // read RXH, RXM or RXL
    | HostCommand                // an unrelated host command wakes the DSP

  ghost predicate ToHostEnabled(s: ToHost, e: ToHostStep) {
    match e
    case DspTest(_) => s.dsp.Polling?
    case DspWake => s.dsp.Waiting? && s.port.semaphore > 0
    case DspSend(_) => s.dsp.Transferring?
    case HostTest => s.host.Idle?
    case HostByte => !s.host.Idle?
    case HostCommand => true
  }

  ghost function ToHostDo(s: ToHost, e: ToHostStep): ToHost
    requires ToHostEnabled(s, e)
  {
    match e
    case DspTest(pause) => s.(dsp := if s.port.htde then Transferring else if pause then Waiting else Polling)
    case DspWake => s.(port := s.port.(semaphore := s.port.semaphore - 1), dsp := Polling)
    case DspSend(value) => s.(port := DspWrite(s.port, value), dsp := Polling, sent := s.sent + [value])
    case HostTest => s.(host := if s.port.rxdf then AtHigh else Idle)
    case HostByte =>
      (match s.host
       case AtHigh => s.(host := AtMid(s.port.high))
       case AtMid(h) => s.(host := AtLow(h, s.port.mid))
       case AtLow(h, m) =>
         s.(port := CpuRead(s.port), host := Idle, received := s.received + [Join(h, m, s.port.low)])
       case Idle => s)
    case HostCommand => s.(port := Resume(s.port))
  }

  /** The steps lead from one system state to the other, each enabled when taken. */
  ghost predicate ToHostReached(s: ToHost, es: seq<ToHostStep>, s': ToHost)
    decreases |es|
  {
    if |es| == 0 then s' == s else ToHostEnabled(s, es[0]) && ToHostReached(ToHostDo(s, es[0]), es[1..], s')
  }

  ghost function InFlightToHost(p: Port): seq<Word> {
    (if p.rxdf then [Join(p.high, p.mid, p.low)] else []) + (if p.htde then [] else [p.word])
  }

  ghost predicate ToHostInvariant(s: ToHost) {
    var p := s.port;
    && s.sent == s.received + InFlightToHost(p)
    && (!p.htde ==> p.rxdf)
    && TrdyAgrees(p)
    && (s.dsp.Transferring? ==> p.htde)
    && (s.dsp.Waiting? && p.htde ==> p.semaphore > 0)
    && (s.host.Idle? || p.rxdf)
    && (s.host.AtMid? ==> s.host.h == p.high)
    && (s.host.AtLow? ==> s.host.h == p.high && s.host.m == p.mid)
  }

  lemma ToHostStepKeeps(s: ToHost, e: ToHostStep)
    requires ToHostInvariant(s) && ToHostEnabled(s, e)
    ensures ToHostInvariant(ToHostDo(s, e))
  {
    JoinSplit(s.port.word);
    if e.DspSend? {
      JoinSplit(e.value);
    }
  }

  lemma {:induction false} ToHostRunKeeps(s: ToHost, es: seq<ToHostStep>, s': ToHost)
    requires ToHostInvariant(s) && ToHostReached(s, es, s')
    ensures ToHostInvariant(s')
    decreases |es|
  {
    if |es| > 0 {
      ToHostStepKeeps(s, es[0]);
      ToHostRunKeeps(ToHostDo(s, es[0]), es[1..], s');
    }
  }

  /**
   * In every interleaving of DSP to host traffic the host receives the words in order, each once: what it
   * has received is the front of what was sent and at most two words are on the way.  No wake-up is lost:
   * a DSP that found HTDE clear and has not slept yet will not sleep through a set HTDE, and when it does
   * sleep there is a word for the host to read.
   */
  lemma ToHostDelivers(s: ToHost, es: seq<ToHostStep>, s': ToHost)
    requires AfterReset(s.port) && s.dsp.Polling? && s.host.Idle? && s.sent == s.received == []
    requires ToHostReached(s, es, s')
    ensures s'.received <= s'.sent && |s'.sent| <= |s'.received| + 2
    ensures TrdyAgrees(s'.port)
    ensures s'.dsp.Waiting? && s'.port.htde ==> ToHostEnabled(s', DspWake)
    ensures s'.dsp.Waiting? && s'.port.semaphore == 0 ==> s'.port.rxdf
  {
    ToHostRunKeeps(s, es, s');
  }

  /** The bytes of a word that the DSP sends from an empty port: RXH has the top byte and RXL the lowest. */
  lemma BytesComeHighFirst(p: Port, w: Word)
    requires !p.rxdf && p.htde
    ensures var q := DspWrite(p, w);
      q.rxdf && q.high as int == w / 0x1_0000 && q.mid as int == w / 0x100 % 0x100 && q.low as int == w % 0x100
  {
  }

  // ---------------------------------------------------------------- host to DSP

  datatype ToDsp = ToDsp(port: Port, dsp: DspPhase, host: HostPhase, sent: seq<Word>, received: seq<Word>)

  datatype ToDspStep =
    | DspTestRead(pause: bool)   // JCLR on HRDF
    | DspWakeRead
    | DspReceive                 // read HRX
    | HostTestWrite              // look at the flag the host waits for
    | HostWriteByte(b: Byte)     // write TXH, TXM or TXL
    | HostCommandWrite

  ghost predicate ToDspEnabled(s: ToDsp, e: ToDspStep) {
    match e
    case DspTestRead(_) => s.dsp.Polling?
    case DspWakeRead => s.dsp.Waiting? && s.port.semaphore > 0
    case DspReceive => s.dsp.Transferring?
    case HostTestWrite => s.host.Idle?
    case HostWriteByte(_) => !s.host.Idle?
    case HostCommandWrite => true
  }

  /** waitsForTrdy: the host starts a word when TRDY is set; otherwise when TXDE is. */
  ghost function ToDspDo(s: ToDsp, e: ToDspStep, waitsForTrdy: bool): ToDsp
    requires ToDspEnabled(s, e)
  {
    var p := s.port;
    match e
    case DspTestRead(pause) => s.(dsp := if p.hrdf then Transferring else if pause then Waiting else Polling)
    case DspWakeRead => s.(port := p.(semaphore := p.semaphore - 1), dsp := Polling)
    case DspReceive => s.(port := DspRead(p), dsp := Polling, received := s.received + [DspRead(p).word])
    case HostTestWrite => s.(host := if (if waitsForTrdy then p.trdy else p.txde) then AtHigh else Idle)
    case HostWriteByte(b) =>
      (match s.host
       case AtHigh => s.(port := p.(high := b), host := AtMid(b))
       case AtMid(h) => s.(port := p.(mid := b), host := AtLow(h, b))
       case AtLow(h, m) => s.(port := CpuWrite(p, b), host := Idle, sent := s.sent + [Join(h, m, b)])
       case Idle => s)
    case HostCommandWrite => s.(port := Resume(p))
  }

  ghost predicate ToDspReached(s: ToDsp, es: seq<ToDspStep>, s': ToDsp, waitsForTrdy: bool)
    decreases |es|
  {
    if |es| == 0 then s' == s
    else ToDspEnabled(s, es[0]) && ToDspReached(ToDspDo(s, es[0], waitsForTrdy), es[1..], s', waitsForTrdy)
  }

  ghost predicate ToDspInvariant(s: ToDsp) {
    var p := s.port;
    && s.sent == s.received + (if p.hrdf then [p.word] else [])
    && p.txde && TrdyAgrees(p)
    && (s.dsp.Transferring? ==> p.hrdf)
    && (s.dsp.Waiting? && p.hrdf ==> p.semaphore > 0)
    && (s.host.Idle? || p.trdy)
    && (s.host.AtMid? ==> s.host.h == p.high)
    && (s.host.AtLow? ==> s.host.h == p.high && s.host.m == p.mid)
  }

  lemma ToDspStepKeeps(s: ToDsp, e: ToDspStep)
    requires ToDspInvariant(s) && ToDspEnabled(s, e)
    ensures ToDspInvariant(ToDspDo(s, e, true))
  {
  }

  lemma {:induction false} ToDspRunKeeps(s: ToDsp, es: seq<ToDspStep>, s': ToDsp)
    requires ToDspInvariant(s) && ToDspReached(s, es, s', true)
    ensures ToDspInvariant(s')
    decreases |es|
  {
    if |es| > 0 {
      ToDspStepKeeps(s, es[0]);
      ToDspRunKeeps(ToDspDo(s, es[0], true), es[1..], s');
    }
  }

  /**
   * In every interleaving of host to DSP traffic with a host that waits for TRDY, the DSP receives the words
   * in order, each once, at most one word is on the way, and no wake-up is lost; when the DSP sleeps the
   * host is free to write.
   */
  lemma ToDspDelivers(s: ToDsp, es: seq<ToDspStep>, s': ToDsp)
    requires AfterReset(s.port) && s.dsp.Polling? && s.host.Idle? && s.sent == s.received == []
    requires ToDspReached(s, es, s', true)
    ensures s'.received <= s'.sent && |s'.sent| <= |s'.received| + 1
    ensures TrdyAgrees(s'.port)
    ensures s'.dsp.Waiting? && s'.port.hrdf ==> ToDspEnabled(s', DspWakeRead)
    ensures s'.dsp.Waiting? && s'.port.semaphore == 0 ==> s'.port.trdy
  {
    ToDspRunKeeps(s, es, s');
  }

  /**
   * A word on its way: the byte that the host writes first, to TXH, is the top byte of the word that the DSP reads, the
   * second the middle one and the third, to TXL, the lowest.
   */
  lemma WordArrives(s: ToDsp, h: Byte, m: Byte, l: Byte) returns (es: seq<ToDspStep>, s': ToDsp)
    requires AfterReset(s.port) && s.dsp.Polling? && s.host.Idle? && s.sent == s.received == []
    ensures es == [HostTestWrite, HostWriteByte(h), HostWriteByte(m), HostWriteByte(l), DspTestRead(false), DspReceive]
    ensures ToDspReached(s, es, s', true) && |s'.received| == 1
    ensures var w := s'.received[0];
      w / 0x1_0000 == h as int && w / 0x100 % 0x100 == m as int && w % 0x100 == l as int
  {
    es := [HostTestWrite, HostWriteByte(h), HostWriteByte(m), HostWriteByte(l), DspTestRead(false), DspReceive];
    var s1 := ToDspDo(s, es[0], true);
    var s2 := ToDspDo(s1, es[1], true);
    var s3 := ToDspDo(s2, es[2], true);
    var s4 := ToDspDo(s3, es[3], true);
    var s5 := ToDspDo(s4, es[4], true);
    s' := ToDspDo(s5, es[5], true);
    JoinedBytes(h, m, l, s'.received[0]);
    assert es[5..][1..] == [];
    assert ToDspReached(s5, es[5..], s', true);
    assert es[4..][1..] == es[5..];
    assert ToDspReached(s4, es[4..], s', true);
    assert es[3..][1..] == es[4..];
    assert ToDspReached(s3, es[3..], s', true);
    assert es[2..][1..] == es[3..];
    assert ToDspReached(s2, es[2..], s', true);
    assert es[1..][1..] == es[2..];
  }

  /** A DSP read that takes the second of two unequal words on the way instead of the first. */
  ghost predicate Overtaking(p: Port) {
    !p.txde && Join(p.high, p.mid, p.low) != p.word
  }

  /** Such a read happens in a run with a host that waits for TXDE. */
  ghost predicate Overtaken(s: ToDsp, es: seq<ToDspStep>)
    decreases |es|
  {
    |es| > 0 && ToDspEnabled(s, es[0]) &&
    ((es[0].DspReceive? && Overtaking(s.port)) || Overtaken(ToDspDo(s, es[0], false), es[1..]))
  }

  ghost predicate TxdeInvariant(s: ToDsp) {
    var p := s.port;
    && s.sent == s.received + (if p.hrdf then [p.word] else []) + (if p.txde then [] else [Join(p.high, p.mid, p.low)])
    && (!p.txde ==> p.hrdf && s.host.Idle?)
    && (s.dsp.Transferring? ==> p.hrdf)
    && (s.host.AtMid? ==> s.host.h == p.high)
    && (s.host.AtLow? ==> s.host.h == p.high && s.host.m == p.mid)
  }

  /** What has been received differs from what was sent at a place, for good. */
  ghost predicate Diverged(s: ToDsp, i: nat) {
    i < |s.sent| && i < |s.received| && s.sent[i] != s.received[i]
  }

  lemma TxdeStep(s: ToDsp, e: ToDspStep)
    requires TxdeInvariant(s) && ToDspEnabled(s, e)
    ensures e.DspReceive? && Overtaking(s.port) ==> Diverged(ToDspDo(s, e, false), |s.received|)
    ensures !(e.DspReceive? && Overtaking(s.port)) ==> TxdeInvariant(ToDspDo(s, e, false))
  {
  }

  lemma {:induction false} StaysDiverged(s: ToDsp, es: seq<ToDspStep>, s': ToDsp, i: nat)
    requires Diverged(s, i) && ToDspReached(s, es, s', false)
    ensures Diverged(s', i)
    decreases |es|
  {
    if |es| > 0 {
      StaysDiverged(ToDspDo(s, es[0], false), es[1..], s', i);
    }
  }

  lemma {:induction false} TxdeRun(s: ToDsp, es: seq<ToDspStep>, s': ToDsp)
    requires TxdeInvariant(s) && ToDspReached(s, es, s', false)
    ensures if Overtaken(s, es) then exists i: nat :: Diverged(s', i) else TxdeInvariant(s')
    decreases |es|
  {
    if |es| > 0 {
      TxdeStep(s, es[0]);
      if es[0].DspReceive? && Overtaking(s.port) {
        StaysDiverged(ToDspDo(s, es[0], false), es[1..], s', |s.received|);
      } else {
        TxdeRun(ToDspDo(s, es[0], false), es[1..], s');
      }
    }
  }

  /**
   * In every interleaving with a host that waits for TXDE instead, the DSP has received the front of what was sent,
   * with at most two words on the way, exactly when no read has taken the second of two unequal words.
   */
  lemma TxdeDeliversExactly(s: ToDsp, es: seq<ToDspStep>, s': ToDsp)
    requires AfterReset(s.port) && s.dsp.Polling? && s.host.Idle? && s.sent == s.received == []
    requires ToDspReached(s, es, s', false)
    ensures s'.received <= s'.sent <==> !Overtaken(s, es)
    ensures s'.received <= s'.sent ==> |s'.sent| <= |s'.received| + 2
  {
    TxdeRun(s, es, s');
  }

  lemma {:induction false} ToDspThen(s: ToDsp, es: seq<ToDspStep>, s': ToDsp, es': seq<ToDspStep>, s'': ToDsp, w: bool)
    requires ToDspReached(s, es, s', w) && ToDspReached(s', es', s'', w)
    ensures ToDspReached(s, es + es', s'', w)
    decreases |es|
  {
    if |es| == 0 {
      assert es + es' == es';
    } else {
      ToDspThen(ToDspDo(s, es[0], w), es[1..], s', es', s'', w);
      assert (es + es')[1..] == es[1..] + es';
    }
  }

  /** A word written by a host that waits for TXDE only. */
  lemma TxdeHostSends(s: ToDsp, h: Byte, m: Byte, l: Byte) returns (es: seq<ToDspStep>, s': ToDsp)
    requires s.host.Idle? && s.port.txde
    ensures ToDspReached(s, es, s', false)
    ensures s' == s.(port := CpuWrite(s.port.(high := h, mid := m), l), sent := s.sent + [Join(h, m, l)])
  {
    es := [HostTestWrite, HostWriteByte(h), HostWriteByte(m), HostWriteByte(l)];
    var s1 := ToDspDo(s, es[0], false);
    var s2 := ToDspDo(s1, es[1], false);
    var s3 := ToDspDo(s2, es[2], false);
    s' := ToDspDo(s3, es[3], false);
    assert es[3..][1..] == [];
    assert ToDspReached(s3, es[3..], s', false);
    assert es[2..][1..] == es[3..];
    assert ToDspReached(s2, es[2..], s', false);
    assert es[1..][1..] == es[2..];
  }

  /**
   * Waiting for TRDY is needed: a host that waits only for TXDE can put two words a and b on the way, and
   * then the DSP receives b first; a is lost.
   */
  lemma TxdeHostLosesWord(s: ToDsp, h: Byte, m: Byte, l: Byte, h': Byte, m': Byte, l': Byte)
      returns (es: seq<ToDspStep>, s': ToDsp)
    requires AfterReset(s.port) && s.dsp.Polling? && s.host.Idle? && s.sent == s.received == []
    ensures ToDspReached(s, es, s', false)
    ensures s'.sent == [Join(h, m, l), Join(h', m', l')] && s'.received == [Join(h', m', l')]
  {
    var es1, s1 := TxdeHostSends(s, h, m, l);
    var es2, s2 := TxdeHostSends(s1, h', m', l');
    ToDspThen(s, es1, s1, es2, s2, false);
    var es3 := [DspTestRead(false), DspReceive];
    var s3 := ToDspDo(s2, es3[0], false);
    s' := ToDspDo(s3, es3[1], false);
    assert es3[1..][1..] == [];
    assert ToDspReached(s3, es3[1..], s', false);
    ToDspThen(s, es1 + es2, s2, es3, s', false);
    es := es1 + es2 + es3;
  }

  // ---------------------------------------------------------------- the accesses on the registers

  const CPU_HOST_RXH := 5
  const CPU_HOST_RXM := 6
  const CPU_HOST_RXL := 7

  /** The host port registers; the methods are the emulator's accesses once the DSP program is running. */
  class Registers {
    var rxdf: bool
    var txde: bool
    var trdy: bool
    var hrdf: bool
    var htde: bool
    var high: Byte
    var mid: Byte
    var low: Byte
    var word: Word
    var semaphore: nat

    ghost function View(): Port
      reads this
    {
      Port(rxdf, txde, trdy, hrdf, htde, high, mid, low, word, semaphore)
    }

    constructor ()
      ensures AfterReset(View())
    {
      rxdf, txde, trdy, hrdf, htde := false, true, true, false, true;
      high, mid, low, word, semaphore := 0, 0, 0, 0, 0;
    }

    method HostportUpdateTrdy()
      modifies `trdy
      ensures View() == UpdateTrdy(old(View()))
    {
      trdy := false;
      if txde && !hrdf {
        trdy := true;
      }
    }

    method Dsp2Host()
      modifies this
      ensures View() == DspToHost(old(View()))
    {
      if rxdf || htde {
        return;
      }
      low, mid, high := Low(word), Mid(word), High(word);
      htde := true;
      rxdf := true;
    }

    method Host2Dsp()
      modifies this
      ensures View() == HostToDsp(old(View()))
    {
      if txde || hrdf {
        return;
      }
      word := low as int + mid as int * 0x100 + high as int * 0x1_0000;
      hrdf := true;
      txde := true;
      HostportUpdateTrdy();
    }

    /** Posts the semaphore only when it is zero. */
    method ResumeThread()
      modifies `semaphore
      ensures View() == Resume(old(View()))
    {
      if semaphore == 0 {
        semaphore := semaphore + 1;
      }
    }

    /** The DSP's read of X:HRX. */
    method ReadHrx() returns (value: Word)
      modifies this
      ensures View() == DspRead(old(View())) && value == View().word
    {
      hrdf := false;
      HostportUpdateTrdy();
      Host2Dsp();
      value := word;
    }

    /** The DSP's write of X:HTX. */
    method WriteHtx(value: Word)
      modifies this
      ensures View() == DspWrite(old(View()), value)
    {
      word := value;
      htde := false;
      Dsp2Host();
    }

    /** The host's read of a data byte; reading the low byte empties the cells. */
    method ReadHost(addr: int) returns (value: Byte)
      requires CPU_HOST_RXH <= addr <= CPU_HOST_RXL
      modifies this
      ensures value == old(if addr == CPU_HOST_RXH then high else if addr == CPU_HOST_RXM then mid else low)
      ensures View() == if addr == CPU_HOST_RXL then CpuRead(old(View())) else old(View())
    {
      value := if addr == CPU_HOST_RXH then high else if addr == CPU_HOST_RXM then mid else low;
      if addr == CPU_HOST_RXL {
        rxdf := false;
        Dsp2Host();
        ResumeThread();
      }
    }

    /** The host's write of a data byte; writing the low byte sends the word. */
    method WriteHost(addr: int, value: Byte)
      requires CPU_HOST_RXH <= addr <= CPU_HOST_RXL
      modifies this
      ensures View() == if addr == CPU_HOST_RXH then old(View()).(high := value)
                        else if addr == CPU_HOST_RXM then old(View()).(mid := value)
                        else CpuWrite(old(View()), value)
    {
      if addr == CPU_HOST_RXH {
        high := value;
      } else if addr == CPU_HOST_RXM {
        mid := value;
      } else {
        low := value;
        txde := false;
        HostportUpdateTrdy();
        Host2Dsp();
        ResumeThread();
      }
    }
  }
}
