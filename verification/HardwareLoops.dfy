/**
 * The hardware loops of the DSP56001 program controller (src/dsp_cpu.c): REP, DO and the program counter
 * update after every instruction, and the theorem that structured programs run as written.
 *
 * An instruction other than REP and DO is a function on the rest of the machine, D, and the status bits
 * below the loop flag; the system stack is the sequence of its (SSH, SSL) entries.
 */
module HardwareLoops {

  const W15 := 0x8000
  const W16 := 0x1_0000
  const W24 := 0x100_0000

  type D(!new)

  type Effect = (D, int) -> (D, int)

  /** How a loop count is read, and what reading it does to the machine: an address register may move. */
  type Operand = (D, int) -> (int, D, int)

  datatype Instr =
    | Plain(len: nat, exec: Effect)
    | Do(count: Operand, la: int)   // two words, LA in the second
    | Rep(count: Operand)

  datatype State = State(
    data: D, lf: bool, ccr: int, pc: int, la: int, lc: int, lcSave: int, stack: seq<(int, int)>,
    loopRep: bool, pcOnRep: bool)
  {
    function Data(): (D, int) { (data, ccr) }

    /** The status register: the loop flag is its top bit, ccr stands for the bits below. */
    function Sr(): int { (if lf then W15 else 0) + ccr }

    ghost predicate Valid() {
      && 0 <= ccr < W15 && 0 <= pc < W16 && 0 <= la < W16 && 0 <= lc < W24 && 0 <= lcSave < W16
      && |stack| <= 14
      && forall i :: 0 <= i < |stack| ==> 0 <= stack[i].0 < W16 && 0 <= stack[i].1 < W16
    }
  }

  // ---------------------------------------------------------------- the machine

  function Apply(exec: Effect, data: D, ccr: int): (D, int) {
    var (d, c) := exec(data, ccr);
    (d, c % W15)
  }

  /** The low bits of a loop count: 16 of them for DO, 24 for REP. */
  function CountOf(count: Operand, x: (D, int), modulus: int): int
    requires modulus > 0
  {
    count(x.0, x.1).0 % modulus
  }

  function AfterCount(count: Operand, x: (D, int)): (D, int) {
    var (_, d, c) := count(x.0, x.1);
    (d, c % W15)
  }

  /** After a taken REP: count LC down on the repeated instruction, or get past REP itself. */
  function RepUpdate(st: State, len: nat): (State, nat) {
    if !st.loopRep then (st, len)
    else if st.pcOnRep then (st.(lc := if st.lc == 0 then W16 else st.lc, pcOnRep := false), len)
    else
      var lc := (st.lc - 1) % W16;
      if lc > 0 then (st.(lc := lc), 0) else (st.(lc := st.lcSave, loopRep := false), len)
  }

  /** SSL of the top entry goes to SR; popping an empty stack changes nothing. */
  function PopSr(st: State): State {
    if |st.stack| == 0 then st
    else
      var sr := st.stack[|st.stack| - 1].1;
      st.(lf := sr >= W15, ccr := sr % W15, stack := st.stack[..|st.stack| - 1])
  }

  function PopLoop(st: State): State {
    if |st.stack| == 0 then st
    else
      var (la, lc) := st.stack[|st.stack| - 1];
      st.(la := la, lc := lc, stack := st.stack[..|st.stack| - 1])
  }

  /** With the loop flag set, reaching LA + 1 ends the body: jump back, or leave the loop by two pops. */
  function LoopUpdate(st: State): State {
    if !st.lf || st.pc != st.la + 1 then st
    else
      var lc := (st.lc - 1) % W16;
      if lc == 0 then PopLoop(PopSr(st.(lc := 0)))
      else st.(lc := lc, pc := if |st.stack| == 0 then 0 else st.stack[|st.stack| - 1].0)
  }

  function PostExecute(st: State, len: nat): State {
    var (st', len') := RepUpdate(st, len);
    LoopUpdate(st'.(pc := (st'.pc + len') % W16))
  }

  /** What the instruction itself does; DO pushes (LA, LC) and (address of the body, SR) before it reads its count. */
  function Executed(instr: Instr, st: State): State {
    match instr
    case Plain(_, exec) =>
      var (d, c) := Apply(exec, st.data, st.ccr);
      st.(data := d, ccr := c)
    case Do(count, la) =>
      var (d, c) := AfterCount(count, st.Data());
      var stack := st.stack + [(st.la, st.lc)] + [((st.pc + 2) % W16, st.Sr())];
      st.(data := d, ccr := c, la := la, lf := true, lc := CountOf(count, st.Data(), W16), stack := stack)
    case Rep(count) =>
      var (d, c) := AfterCount(count, st.Data());
      st.(data := d, ccr := c, lcSave := st.lc, lc := CountOf(count, st.Data(), W24), pcOnRep := true, loopRep := true)
  }

  function Length(instr: Instr): nat {
    match instr
    case Plain(len, _) => len
    case Do(_, _) => 2
    case Rep(_) => 1
  }

  /** One instruction and the program counter update after it. */
  function Step(instr: Instr, st: State): State {
    PostExecute(Executed(instr, st), Length(instr))
  }

  // ---------------------------------------------------------------- the emulator's registers

  /** The first n stack entries; entry 0 of the arrays is never used. */
  ghost function Entries(h: array<int>, l: array<int>, n: nat): (s: seq<(int, int)>)
    requires n < h.Length && n < l.Length
    reads h, l
    ensures |s| == n && forall i :: 0 <= i < n ==> s[i] == (h[i + 1], l[i + 1])
  {
    if n == 0 then [] else Entries(h, l, n - 1) + [(h[n], l[n])]
  }

  /** The program controller's registers and the 15 words of each half of the system stack. */
  class ProgramController {
    var data: D
    var lf: bool
    var ccr: int
    var pc: int
    var la: int
    var lc: int
    var lcSave: int
    var loopRep: bool
    var pcOnRep: bool
    var curInstLen: nat
    var sp: nat
    const stackH: array<int>
    const stackL: array<int>

    /** SP, SSH and SSL always move together, so one index stands for them; entry 0 is never written. */
    ghost predicate Valid()
      reads this, stackH, stackL
    {
      stackH.Length == stackL.Length == 15 && stackH != stackL && sp <= 14 && stackH[0] == 0
    }

    ghost function View(): State
      requires Valid()
      reads this, stackH, stackL
    {
      State(data, lf, ccr, pc, la, lc, lcSave, Entries(stackH, stackL, sp), loopRep, pcOnRep)
    }

    /** Reset state, with the rest of the machine given. */
    constructor (d: D)
      ensures Valid() && fresh(stackH) && fresh(stackL)
      ensures View() == State(d, false, 0, 0, 0, 0, 0, [], false, false)
    {
      data, lf, ccr, pc, la, lc, lcSave := d, false, 0, 0, 0, 0, 0;
      loopRep, pcOnRep, curInstLen, sp := false, false, 0, 0;
      stackH, stackL := new int[15](_ => 0), new int[15](_ => 0);
    }

    method StackPush(curpc: int, cursr: int)
      requires Valid() && sp < 14
      modifies `sp, stackH, stackL
      ensures Valid() && View() == old(View()).(stack := old(View().stack) + [(curpc, cursr)])
    {
      sp := sp + 1;
      stackH[sp] := curpc;
      stackL[sp] := cursr;
    }

    /** An empty stack leaves the targets as they are. */
    method StackPop(pcTarget: int, srTarget: int) returns (newpc: int, newsr: int)
      requires Valid()
      modifies `sp
      ensures Valid()
      ensures var s := old(View().stack); var n := |s|;
              if n == 0 then (newpc, newsr) == (pcTarget, srTarget) && View() == old(View())
              else (newpc, newsr) == s[n - 1] && View() == old(View()).(stack := s[..n - 1])
    {
      if sp == 0 {
        return pcTarget, srTarget;
      }
      newpc, newsr := stackH[sp], stackL[sp];
      sp := sp - 1;
    }

    /** The REP part of the program counter update. */
    method UpdateRep()
      requires Valid()
      modifies `lc, `loopRep, `pcOnRep, `curInstLen
      ensures Valid() && (View(), curInstLen) == RepUpdate(old(View()), old(curInstLen))
    {
      if loopRep {
        if !pcOnRep {
          lc := (lc - 1) % W16;
          if lc > 0 {
            curInstLen := 0;  // PC does not move
          } else {
            loopRep := false;
            lc := lcSave;
          }
        } else {
          if lc == 0 {
            lc := W16;
          }
          pcOnRep := false;
        }
      }
    }

    method CountPass()
      requires Valid()
      modifies `lc
      ensures Valid() && View() == old(View()).(lc := (old(lc) - 1) % W16)
    {
      lc := (lc - 1) % W16;
    }

    /** Back to the start of the loop, on top of the stack. */
    method LoopBack()
      requires Valid()
      modifies `pc
      ensures var s := old(View());
              Valid() && View() == s.(pc := if |s.stack| == 0 then 0 else s.stack[|s.stack| - 1].0)
    {
      assert sp > 0 ==> View().stack[sp - 1].0 == stackH[sp];
      pc := stackH[sp];
    }

    method RestoreSr()
      requires Valid()
      modifies `lf, `ccr, `sp
      ensures Valid() && View() == PopSr(old(View()))
    {
      if sp == 0 {
        return;
      }
      var _, sr := StackPop(0, 0);
      lf, ccr := sr >= W15, sr % W15;
    }

    method RestoreLoop()
      requires Valid()
      modifies `lc, `la, `sp
      ensures Valid() && View() == PopLoop(old(View()))
    {
      la, lc := StackPop(la, lc);
    }

    /** The two pops at the end of a loop, the same as ENDDO. */
    method LeaveLoop()
      requires Valid()
      modifies `lc, `la, `lf, `ccr, `sp
      ensures Valid() && View() == PopLoop(PopSr(old(View())))
    {
      RestoreSr();
      RestoreLoop();
    }

    /** The DO part: with the updated program counter, test the end of the loop. */
    method UpdateLoop()
      requires Valid()
      modifies `lc, `pc, `la, `lf, `ccr, `sp
      ensures Valid() && View() == LoopUpdate(old(View()))
    {
      if lf {
        if pc == la + 1 {
          CountPass();
          if lc == 0 {
            LeaveLoop();
          } else {
            LoopBack();
          }
        }
      }
    }

    /** dsp_postexecute_update_pc */
    method UpdatePc()
      requires Valid()
      modifies `lc, `loopRep, `pcOnRep, `curInstLen, `pc, `la, `lf, `ccr, `sp
      ensures Valid() && View() == PostExecute(old(View()), old(curInstLen))
    {
      UpdateRep();
      pc := (pc + curInstLen) % W16;
      UpdateLoop();
    }

    /** Reads a loop count into LC. */
    method FetchCount(count: Operand, modulus: int)
      requires Valid() && modulus > 0
      modifies `data, `ccr, `lc
      ensures var s := old(View()); var (d, c) := AfterCount(count, s.Data());
              Valid() && View() == s.(data := d, ccr := c, lc := CountOf(count, s.Data(), modulus))
      ensures (lc, data, ccr) == var (n, d, c) := count(old(data), old(ccr)); (n % modulus, d, c % 0x8000)
    {
      var (value, d, c) := count(data, ccr);
      data, ccr, lc := d, c % W15, value % modulus;
    }

    /** The two pushes of DO, the new end of the loop and the loop flag. */
    method EnterLoop(newLa: int)
      requires Valid() && sp <= 12
      modifies `la, `lf, `sp, `curInstLen, stackH, stackL
      ensures Valid() && curInstLen == 2
      ensures var s := old(View());
              View() == s.(la := newLa, lf := true,
                           stack := s.stack + [(s.la, s.lc)] + [((s.pc + 2) % W16, s.Sr())])
    {
      curInstLen := 1;
      StackPush(la, lc);
      la := newLa;
      curInstLen := curInstLen + 1;
      StackPush((pc + curInstLen) % W16, (if lf then W15 else 0) + ccr);
      lf := true;
    }

    method ExecuteDo(count: Operand, newLa: int)
      requires Valid() && sp <= 12
      modifies this, stackH, stackL
      ensures Valid() && View() == Executed(Do(count, newLa), old(View())) && curInstLen == 2
      ensures (lc, data, ccr) == var (n, d, c) := count(old(data), old(ccr)); (n % 0x1_0000, d, c % 0x8000)
    {
      EnterLoop(newLa);
      FetchCount(count, W16);
    }

    method ExecuteRep(count: Operand)
      requires Valid()
      modifies this
      ensures Valid() && View() == Executed(Rep(count), old(View())) && curInstLen == 1 && sp == old(sp)
      ensures (lc, data, ccr) == var (n, d, c) := count(old(data), old(ccr)); (n % 0x100_0000, d, c % 0x8000)
    {
      curInstLen := 1;
      lcSave := lc;
      FetchCount(count, W24);
      pcOnRep := true;
      loopRep := true;
    }

    method ExecutePlain(len: nat, exec: Effect)
      requires Valid()
      modifies this
      ensures Valid() && View() == Executed(Plain(len, exec), old(View())) && curInstLen == len && sp == old(sp)
    {
      curInstLen := len;
      var (d, c) := Apply(exec, data, ccr);
      data, ccr := d, c;
    }

    /** One instruction: DO, REP or any other, and the program counter update. */
    method Execute(instr: Instr)
      requires Valid() && (instr.Do? ==> sp <= 12)
      modifies this, stackH, stackL
      ensures Valid() && View() == Step(instr, old(View()))
    {
      match instr {
        case Plain(len, exec) => ExecutePlain(len, exec);
        case Do(count, newLa) => ExecuteDo(count, newLa);
        case Rep(count) => ExecuteRep(count);
      }
      UpdatePc();
    }
  }

  // ---------------------------------------------------------------- histories

  type Program = map<int, Instr>

  ghost function Next(prog: Program, st: State): State {
    if st.pc in prog then Step(prog[st.pc], st) else st
  }

  /** A position in a history; only lemmas that look at single steps name one. */
  ghost predicate At(i: int) { true }

  /** A history of the machine: each state is the step of the one before. */
  ghost predicate History(prog: Program, h: seq<State>) {
    |h| > 0 && forall i {:trigger At(i)} :: At(i) && 0 <= i < |h| - 1 ==> h[i + 1] == Next(prog, h[i])
  }

  /** The machine gets from one state to the other. */
  ghost predicate Leads(prog: Program, st: State, st': State) {
    exists h :: History(prog, h) && h[0] == st && h[|h| - 1] == st'
  }

  lemma JoinedStep(prog: Program, g: seq<State>, h: seq<State>, i: int)
    requires History(prog, g) && History(prog, h) && g[|g| - 1] == h[0] && 0 <= i < |g| + |h| - 2
    ensures var gh := g + h[1..]; gh[i + 1] == Next(prog, gh[i])
  {
    var gh := g + h[1..];
    if i < |g| - 1 {
      assert At(i);
      assert gh[i] == g[i] && gh[i + 1] == g[i + 1];
    } else {
      var j := i - |g| + 1;
      assert At(j);
      assert gh[i + 1] == h[j + 1] && gh[i] == h[j];
    }
  }

  lemma LeadsOn(prog: Program, st: State, st': State, st'': State)
    requires Leads(prog, st, st') && Leads(prog, st', st'')
    ensures Leads(prog, st, st'')
  {
    var g :| History(prog, g) && g[0] == st && g[|g| - 1] == st';
    var h :| History(prog, h) && h[0] == st' && h[|h| - 1] == st'';
    var gh := g + h[1..];
    forall i | At(i) && 0 <= i < |gh| - 1
      ensures gh[i + 1] == Next(prog, gh[i])
    {
      JoinedStep(prog, g, h, i);
    }
    assert History(prog, gh);
  }

  lemma LeadsNext(prog: Program, st: State)
    requires st.pc in prog
    ensures Leads(prog, st, Step(prog[st.pc], st))
  {
    assert History(prog, [st, Step(prog[st.pc], st)]);
  }

  lemma LeadsNowhere(prog: Program, st: State)
    ensures Leads(prog, st, st)
  {
    assert History(prog, [st]);
  }

  // ---------------------------------------------------------------- structured programs

  datatype Stmt =
    | Op(len: nat, exec: Effect)
    | Repeat(count: Operand, len: nat, exec: Effect)
    | Loop(count: Operand, body: Block)

  datatype Block = Nil | Cons(head: Stmt, tail: Block)

  /** A loop count of zero means 65536. */
  function Times(count: int): nat {
    if count % W16 == 0 then W16 else count % W16
  }

  ghost function Iterate(exec: Effect, n: nat, x: (D, int)): (D, int) {
    if n == 0 then x else Iterate(exec, n - 1, Apply(exec, x.0, x.1))
  }

  /** What a structured program means; a loop reads its count when it is entered and restores the status bits after. */
  ghost function Meaning(s: Stmt, x: (D, int)): (D, int)
    decreases s, 0, 0
  {
    match s
    case Op(_, exec) => Apply(exec, x.0, x.1)
    case Repeat(count, _, exec) => Iterate(exec, Times(CountOf(count, x, W24)), AfterCount(count, x))
    case Loop(count, body) => (IterateBlock(body, Times(CountOf(count, x, W16)), AfterCount(count, x)).0, x.1)
  }

  ghost function Meanings(b: Block, x: (D, int)): (D, int)
    decreases b, 0, 0
  {
    match b
    case Nil => x
    case Cons(s, rest) => Meanings(rest, Meaning(s, x))
  }

  ghost function IterateBlock(b: Block, n: nat, x: (D, int)): (D, int)
    decreases b, 1, n
  {
    if n == 0 then x else IterateBlock(b, n - 1, Meanings(b, x))
  }

  function Size(s: Stmt): nat {
    match s
    case Op(len, _) => len
    case Repeat(_, len, _) => 1 + len
    case Loop(_, body) => 2 + Sizes(body)
  }

  function Sizes(b: Block): nat {
    match b
    case Nil => 0
    case Cons(s, rest) => Size(s) + Sizes(rest)
  }

  predicate EndsWithLoop(b: Block) {
    b.Cons? && if b.tail.Nil? then b.head.Loop? else EndsWithLoop(b.tail)
  }

  /** Loops have a nonempty body that does not end with another loop, so that nested loops end at distinct addresses. */
  predicate WellFormed(s: Stmt) {
    match s
    case Op(len, _) => 1 <= len <= 2
    case Repeat(_, len, _) => 1 <= len <= 2
    case Loop(_, body) => body.Cons? && WellFormeds(body) && !EndsWithLoop(body)
  }

  predicate WellFormeds(b: Block) {
    b.Nil? || (WellFormed(b.head) && WellFormeds(b.tail))
  }

  /** How many stack entries a statement needs. */
  function Depth(s: Stmt): nat {
    match s
    case Loop(_, body) => 2 + Depths(body)
    case _ => 0
  }

  function Depths(b: Block): nat {
    match b
    case Nil => 0
    case Cons(s, rest) => if Depth(s) > Depths(rest) then Depth(s) else Depths(rest)
  }

  /** Program memory holds the statement from an address on. */
  ghost predicate Loaded(prog: Program, addr: int, s: Stmt)
    decreases s
  {
    match s
    case Op(len, exec) => addr in prog && prog[addr] == Plain(len, exec)
    case Repeat(count, len, exec) =>
      addr in prog && prog[addr] == Rep(count) && addr + 1 in prog && prog[addr + 1] == Plain(len, exec)
    case Loop(count, body) =>
      addr in prog && prog[addr] == Do(count, addr + 1 + Sizes(body)) && Loadeds(prog, addr + 2, body)
  }

  ghost predicate Loadeds(prog: Program, addr: int, b: Block)
    decreases b
  {
    b.Nil? || (Loaded(prog, addr, b.head) && Loadeds(prog, addr + Size(b.head), b.tail))
  }

  // ---------------------------------------------------------------- structured programs run as written

  /** Between instructions, outside a REP. */
  ghost predicate Quiet(st: State) {
    st.Valid() && !st.loopRep && !st.pcOnRep && st.lc < W16
  }

  /** The same state with new data and program counter; REP leaves LC in LCSAVE. */
  ghost function Moved(st: State, x: (D, int), pc: int, lcSave: int): State {
    st.(data := x.0, ccr := x.1, pc := pc, lcSave := lcSave)
  }

  /** A plain instruction ends with the loop check at the next address. */
  lemma OpRuns(prog: Program, st: State, s: Stmt)
    requires Quiet(st) && s.Op? && WellFormed(s) && Loaded(prog, st.pc, s) && st.pc + Size(s) < W16
    ensures Leads(prog, st, LoopUpdate(Moved(st, Meaning(s, st.Data()), st.pc + Size(s), st.lcSave)))
  {
    LeadsNext(prog, st);
  }

  lemma CountDown(c: int)
    requires c > 0
    ensures (c - 1) % W16 == Times(c) - 1
  {
  }

  /** On a repeated instruction, with LC not yet at its last count or at it. */
  ghost predicate Repeating(prog: Program, st: State, len: nat, exec: Effect) {
    && st.Valid() && st.loopRep && !st.pcOnRep && st.lc > 0
    && st.pc in prog && prog[st.pc] == Plain(len, exec) && 1 <= len <= 2 && st.pc + len < W16
    && (st.lf ==> st.la >= st.pc)
  }

  /** The state after the last run of a repeated instruction, before the loop check. */
  ghost function Repeated(st: State, x: (D, int), len: nat): State {
    Moved(st, x, st.pc + len, st.lcSave).(lc := st.lcSave, loopRep := false)
  }

  lemma RepeatedOnce(st: State, len: nat, exec: Effect)
    requires st.Valid() && st.loopRep && !st.pcOnRep && st.lc > 0 && 1 <= len <= 2 && st.pc + len < W16
    requires Times(st.lc) == 1
    ensures Step(Plain(len, exec), st) == LoopUpdate(Repeated(st, Apply(exec, st.data, st.ccr), len))
  {
    CountDown(st.lc);
  }

  lemma RepeatedAgain(st: State, len: nat, exec: Effect)
    requires st.Valid() && st.loopRep && !st.pcOnRep && st.lc > 0 && 1 <= len <= 2 && st.pc + len < W16
    requires Times(st.lc) > 1 && (st.lf ==> st.la >= st.pc)
    ensures Step(Plain(len, exec), st) ==
            Moved(st, Apply(exec, st.data, st.ccr), st.pc, st.lcSave).(lc := Times(st.lc) - 1)
  {
    CountDown(st.lc);
  }

  lemma RepeatedStep(prog: Program, st: State, len: nat, exec: Effect)
    requires Repeating(prog, st, len, exec)
    ensures var k := Times(st.lc); var x := Apply(exec, st.data, st.ccr);
            Leads(prog, st, if k == 1 then LoopUpdate(Repeated(st, x, len))
                            else Moved(st, x, st.pc, st.lcSave).(lc := k - 1))
  {
    LeadsNext(prog, st);
    if Times(st.lc) == 1 {
      RepeatedOnce(st, len, exec);
    } else {
      RepeatedAgain(st, len, exec);
    }
  }

  /** A repeated instruction runs as often as LC says and then puts LC back. */
  lemma {:induction false} RepeatedRuns(prog: Program, st: State, len: nat, exec: Effect, k: nat)
    requires Repeating(prog, st, len, exec) && k == Times(st.lc)
    ensures Leads(prog, st, LoopUpdate(Repeated(st, Iterate(exec, k, st.Data()), len)))
    decreases k
  {
    RepeatedStep(prog, st, len, exec);
    var x := Apply(exec, st.data, st.ccr);
    if k == 1 {
      assert Iterate(exec, 0, x) == x;
    } else {
      var st' := Moved(st, x, st.pc, st.lcSave).(lc := k - 1);
      RepeatedRuns(prog, st', len, exec, k - 1);
      assert Repeated(st', Iterate(exec, k - 1, x), len) == Repeated(st, Iterate(exec, k, st.Data()), len);
      LeadsOn(prog, st, st', LoopUpdate(Repeated(st', Iterate(exec, k - 1, x), len)));
    }
  }

  /** On the repeated instruction for the first time. */
  ghost function AtRepeated(st: State, s: Stmt): State
    requires s.Repeat?
  {
    var n, x := CountOf(s.count, st.Data(), W24), AfterCount(s.count, st.Data());
    Moved(st, x, st.pc + 1, st.lc).(lc := if n == 0 then W16 else n, loopRep := true)
  }

  lemma RepStep(prog: Program, st: State, s: Stmt)
    requires Quiet(st) && s.Repeat? && WellFormed(s) && Loaded(prog, st.pc, s) && st.pc + Size(s) < W16
    requires st.lf ==> st.la >= st.pc + Size(s) - 1
    ensures Leads(prog, st, AtRepeated(st, s))
  {
    LeadsNext(prog, st);
  }

  /** REP and the repeated instruction; like a plain instruction it ends with the loop check. */
  lemma RepeatRuns(prog: Program, st: State, s: Stmt)
    requires Quiet(st) && s.Repeat? && WellFormed(s) && Loaded(prog, st.pc, s) && st.pc + Size(s) < W16
    requires st.lf ==> st.la >= st.pc + Size(s) - 1
    ensures Leads(prog, st, LoopUpdate(Moved(st, Meaning(s, st.Data()), st.pc + Size(s), st.lc)))
  {
    var st' := AtRepeated(st, s);
    RepStep(prog, st, s);
    RepeatedRuns(prog, st', s.len, s.exec, Times(st'.lc));
    var x := Iterate(s.exec, Times(st'.lc), st'.Data());
    assert Repeated(st', x, s.len) == Moved(st, x, st.pc + Size(s), st.lc);
    LeadsOn(prog, st, st', LoopUpdate(Repeated(st', x, s.len)));
  }

  /** What the machine must provide for a statement: memory, stack and an enclosing loop that ends later. */
  ghost predicate Ready(prog: Program, st: State, s: Stmt) {
    && Quiet(st) && WellFormed(s) && Loaded(prog, st.pc, s) && st.pc + Size(s) < W16
    && |st.stack| + Depth(s) <= 14
    && (st.lf && !s.Loop? ==> st.la >= st.pc + Size(s))
  }

  ghost predicate Readys(prog: Program, st: State, b: Block) {
    && Quiet(st) && WellFormeds(b) && Loadeds(prog, st.pc, b) && st.pc + Sizes(b) < W16
    && |st.stack| + Depths(b) <= 14
    && (st.lf ==> st.la >= st.pc + Sizes(b))
  }

  lemma {:induction false} ApplyRange(exec: Effect, n: nat, x: (D, int))
    requires 0 <= x.1 < W15
    ensures 0 <= Iterate(exec, n, x).1 < W15
  {
    if n > 0 {
      ApplyRange(exec, n - 1, Apply(exec, x.0, x.1));
    }
  }

  lemma MeaningRange(s: Stmt, x: (D, int))
    requires 0 <= x.1 < W15
    ensures 0 <= Meaning(s, x).1 < W15
  {
    if s.Repeat? {
      ApplyRange(s.exec, Times(CountOf(s.count, x, W24)), AfterCount(s.count, x));
    }
  }

  lemma {:induction false} MeaningsRange(b: Block, x: (D, int))
    requires 0 <= x.1 < W15
    ensures 0 <= Meanings(b, x).1 < W15
    decreases b
  {
    if b.Cons? {
      MeaningRange(b.head, x);
      MeaningsRange(b.tail, Meaning(b.head, x));
    }
  }

  /** Statements other than loops end with the loop check, also at the end of an enclosing body. */
  lemma SimpleRuns(prog: Program, st: State, s: Stmt) returns (lcSave: int)
    requires Quiet(st) && !s.Loop? && WellFormed(s) && Loaded(prog, st.pc, s) && st.pc + Size(s) < W16
    requires st.lf ==> st.la >= st.pc + Size(s) - 1
    ensures 0 <= lcSave < W16
    ensures Leads(prog, st, LoopUpdate(Moved(st, Meaning(s, st.Data()), st.pc + Size(s), lcSave)))
  {
    if s.Op? {
      OpRuns(prog, st, s);
      lcSave := st.lcSave;
    } else {
      RepeatRuns(prog, st, s);
      lcSave := st.lc;
    }
  }

  /** At the start of the body of the innermost loop. */
  ghost predicate InBody(prog: Program, st: State, b: Block) {
    && Quiet(st) && b.Cons? && WellFormeds(b) && !EndsWithLoop(b) && Loadeds(prog, st.pc, b)
    && st.pc + Sizes(b) < W16 && |st.stack| + Depths(b) <= 14
    && st.lf && st.la == st.pc + Sizes(b) - 1
  }

  lemma LastRuns(prog: Program, st: State, b: Block) returns (lcSave: int)
    requires InBody(prog, st, b) && b.tail.Nil?
    ensures 0 <= lcSave < W16
    ensures Leads(prog, st, LoopUpdate(Moved(st, Meanings(b, st.Data()), st.pc + Sizes(b), lcSave)))
  {
    assert Meanings(b, st.Data()) == Meaning(b.head, st.Data()) by {
      assert Meanings(b.tail, Meaning(b.head, st.Data())) == Meaning(b.head, st.Data());
    }
    assert Sizes(b) == Size(b.head);
    lcSave := SimpleRuns(prog, st, b.head);
  }

  lemma ContinueBody(prog: Program, st: State, b: Block, st': State, lcSave: int)
    requires b.Cons? && st' == Moved(st, Meaning(b.head, st.Data()), st.pc + Size(b.head), st'.lcSave)
    requires Leads(prog, st, st')
    requires Leads(prog, st', LoopUpdate(Moved(st', Meanings(b.tail, st'.Data()), st'.pc + Sizes(b.tail), lcSave)))
    ensures Leads(prog, st, LoopUpdate(Moved(st, Meanings(b, st.Data()), st.pc + Sizes(b), lcSave)))
  {
    var x := Meanings(b.tail, st'.Data());
    assert x == Meanings(b, st.Data());
    assert Moved(st', x, st'.pc + Sizes(b.tail), lcSave) == Moved(st, x, st.pc + Sizes(b), lcSave);
    LeadsOn(prog, st, st', LoopUpdate(Moved(st', x, st'.pc + Sizes(b.tail), lcSave)));
  }

  lemma {:induction false} BodyRuns(prog: Program, st: State, b: Block) returns (lcSave: int)
    requires InBody(prog, st, b)
    ensures 0 <= lcSave < W16
    ensures Leads(prog, st, LoopUpdate(Moved(st, Meanings(b, st.Data()), st.pc + Sizes(b), lcSave)))
    decreases b, 0, 0
  {
    if b.tail.Nil? {
      lcSave := LastRuns(prog, st, b);
    } else {
      var st' := HeadRuns(prog, st, b);
      lcSave := BodyRuns(prog, st', b.tail);
      ContinueBody(prog, st, b, st', lcSave);
    }
  }

  lemma SizePositive(b: Block)
    requires b.Cons? && WellFormeds(b)
    ensures Sizes(b) >= 1
  {
  }

  lemma HeadReady(prog: Program, st: State, b: Block)
    requires InBody(prog, st, b) && b.tail.Cons?
    ensures Ready(prog, st, b.head)
  {
    SizePositive(b.tail);
  }

  lemma TailInBody(prog: Program, st: State, b: Block, st': State)
    requires InBody(prog, st, b) && b.tail.Cons? && Quiet(st')
    requires st'.pc == st.pc + Size(b.head) && st'.stack == st.stack && st'.lf && st'.la == st.la
    ensures InBody(prog, st', b.tail)
  {
  }

  lemma HeadRuns(prog: Program, st: State, b: Block) returns (st': State)
    requires InBody(prog, st, b) && b.tail.Cons?
    ensures st' == Moved(st, Meaning(b.head, st.Data()), st.pc + Size(b.head), st'.lcSave)
    ensures Leads(prog, st, st') && InBody(prog, st', b.tail)
    decreases b.head, 2, 0
  {
    HeadReady(prog, st, b);
    var lcSave := StmtRuns(prog, st, b.head);
    MeaningRange(b.head, st.Data());
    st' := Moved(st, Meaning(b.head, st.Data()), st.pc + Size(b.head), lcSave);
    SizePositive(b.tail);
    assert Quiet(st');
    TailInBody(prog, st, b, st');
  }

  /** The state after the loop: two entries popped, the counter and flags of the surroundings back. */
  ghost function LeftLoop(st: State, data: D, pc: int, lcSave: int): State {
    PopLoop(PopSr(st.(data := data, pc := pc, lcSave := lcSave)))
  }

  /** What the body leaves in the flags and in LC does not matter after the loop. */
  lemma SameWayOut(st: State, st': State, d: D, end: int, lcSave: int)
    requires |st.stack| >= 2 && st' == st.(data := st'.data, ccr := st'.ccr, lcSave := st'.lcSave, lc := st'.lc)
    ensures LeftLoop(st', d, end, lcSave) == LeftLoop(st, d, end, lcSave)
  {
  }

  lemma {:induction false} IterationsRun(prog: Program, st: State, b: Block, k: nat) returns (lcSave: int)
    requires InBody(prog, st, b) && |st.stack| >= 2 && st.stack[|st.stack| - 1].0 == st.pc
    requires k == Times(st.lc)
    ensures 0 <= lcSave < W16
    ensures Leads(prog, st, LeftLoop(st, IterateBlock(b, k, st.Data()).0, st.pc + Sizes(b), lcSave))
    decreases b, 1, k
  {
    if k == 1 {
      lcSave := LastPassRuns(prog, st, b);
      assert IterateBlock(b, 0, Meanings(b, st.Data())) == Meanings(b, st.Data());
    } else {
      var st' := PassRuns(prog, st, b, k);
      lcSave := IterationsRun(prog, st', b, k - 1);
      var d, end := IterateBlock(b, k - 1, st'.Data()).0, st.pc + Sizes(b);
      SameWayOut(st, st', d, end, lcSave);
      LeadsOn(prog, st, st', LeftLoop(st, d, end, lcSave));
    }
  }

  /** The loop check at the end of the body: once more, or out. */
  lemma BodyEnd(prog: Program, st: State, b: Block, k: nat, x: (D, int), lcSave: int)
    requires InBody(prog, st, b) && |st.stack| >= 2 && st.stack[|st.stack| - 1].0 == st.pc && k == Times(st.lc)
    ensures var end := st.pc + Sizes(b);
            LoopUpdate(Moved(st, x, end, lcSave)) ==
            if k == 1 then LeftLoop(st, x.0, end, lcSave) else Moved(st, x, st.pc, lcSave).(lc := k - 1)
  {
    assert (st.lc - 1) % W16 == k - 1;
  }

  /** The last pass through the body. */
  lemma LastPassRuns(prog: Program, st: State, b: Block) returns (lcSave: int)
    requires InBody(prog, st, b) && |st.stack| >= 2 && st.stack[|st.stack| - 1].0 == st.pc && Times(st.lc) == 1
    ensures 0 <= lcSave < W16
    ensures Leads(prog, st, LeftLoop(st, Meanings(b, st.Data()).0, st.pc + Sizes(b), lcSave))
    decreases b, 1, 0
  {
    lcSave := BodyRuns(prog, st, b);
    BodyEnd(prog, st, b, 1, Meanings(b, st.Data()), lcSave);
  }

  lemma StillInBody(prog: Program, st: State, b: Block, st': State)
    requires InBody(prog, st, b) && Quiet(st')
    requires st'.pc == st.pc && st'.stack == st.stack && st'.lf && st'.la == st.la
    ensures InBody(prog, st', b)
  {
  }

  /** One pass through the body that is not the last. */
  lemma PassRuns(prog: Program, st: State, b: Block, k: nat) returns (st': State)
    requires InBody(prog, st, b) && |st.stack| >= 2 && st.stack[|st.stack| - 1].0 == st.pc
    requires k == Times(st.lc) && k > 1
    ensures st' == Moved(st, Meanings(b, st.Data()), st.pc, st'.lcSave).(lc := k - 1)
    ensures Leads(prog, st, st') && InBody(prog, st', b)
    decreases b, 1, 0
  {
    var lcSave := BodyRuns(prog, st, b);
    BodyEnd(prog, st, b, k, Meanings(b, st.Data()), lcSave);
    MeaningsRange(b, st.Data());
    st' := Moved(st, Meanings(b, st.Data()), st.pc, lcSave).(lc := k - 1);
    assert Quiet(st');
    StillInBody(prog, st, b, st');
  }

  lemma DoStepIs(st: State, count: Operand, la: int)
    requires Quiet(st) && st.pc + 2 <= la < W16
    ensures var x := AfterCount(count, st.Data());
            Step(Do(count, la), st) ==
            st.(data := x.0, ccr := x.1, pc := st.pc + 2, la := la, lc := CountOf(count, st.Data(), W16), lf := true,
                stack := st.stack + [(st.la, st.lc)] + [(st.pc + 2, st.Sr())])
  {
    var st' := Executed(Do(count, la), st);
    assert RepUpdate(st', 2) == (st', 2);
    assert LoopUpdate(st'.(pc := st.pc + 2)) == st'.(pc := st.pc + 2);
  }

  ghost function Entered(st: State, s: Stmt): State
    requires s.Loop?
  {
    var x := AfterCount(s.count, st.Data());
    st.(data := x.0, ccr := x.1, pc := st.pc + 2, la := st.pc + 1 + Sizes(s.body),
        lc := CountOf(s.count, st.Data(), W16), lf := true,
        stack := st.stack + [(st.la, st.lc)] + [(st.pc + 2, st.Sr())])
  }

  /** DO: two pushes, the new loop end and count, and the loop flag. */
  lemma DoStep(prog: Program, st: State, s: Stmt)
    requires Quiet(st) && s.Loop? && s.body.Cons? && WellFormeds(s.body)
    requires Loaded(prog, st.pc, s) && st.pc + Size(s) < W16
    ensures Leads(prog, st, Entered(st, s))
  {
    SizePositive(s.body);
    var la := st.pc + 1 + Sizes(s.body);
    assert Step(prog[st.pc], st) == Entered(st, s) by {
      DoStepIs(st, s.count, la);
      assert prog[st.pc] == Do(s.count, la);
    }
    LeadsNext(prog, st);
  }

  lemma EnteredInBody(prog: Program, st: State, s: Stmt)
    requires Ready(prog, st, s) && s.Loop?
    ensures InBody(prog, Entered(st, s), s.body)
  {
  }

  /** Leaving a loop undoes what entering it did to LA, LC, the flags and the stack. */
  lemma LeftAsFound(st: State, s: Stmt, d: D, end: int, lcSave: int)
    requires st.Valid() && s.Loop?
    ensures LeftLoop(Entered(st, s), d, end, lcSave) == Moved(st, (d, st.ccr), end, lcSave)
  {
    assert (st.stack + [(st.la, st.lc)])[..|st.stack|] == st.stack;
    assert Entered(st, s).stack[..|st.stack| + 1] == st.stack + [(st.la, st.lc)];
  }

  lemma LoopRuns(prog: Program, st: State, s: Stmt) returns (lcSave: int)
    requires Ready(prog, st, s) && s.Loop?
    ensures 0 <= lcSave < W16 && Leads(prog, st, Moved(st, Meaning(s, st.Data()), st.pc + Size(s), lcSave))
    decreases s, 0, 0
  {
    DoStep(prog, st, s);
    var st' := Entered(st, s);
    EnteredInBody(prog, st, s);
    lcSave := IterationsRun(prog, st', s.body, Times(st'.lc));
    var d, end := IterateBlock(s.body, Times(st'.lc), st'.Data()).0, st.pc + Size(s);
    LeftAsFound(st, s, d, end, lcSave);
    LeadsOn(prog, st, st', LeftLoop(st', d, end, lcSave));
  }

  /** Every statement does what it means and leaves LA, LC, LF and the stack as they were. */
  lemma StmtRuns(prog: Program, st: State, s: Stmt) returns (lcSave: int)
    requires Ready(prog, st, s)
    ensures 0 <= lcSave < W16 && Leads(prog, st, Moved(st, Meaning(s, st.Data()), st.pc + Size(s), lcSave))
    decreases s, 1, 0
  {
    if s.Loop? {
      lcSave := LoopRuns(prog, st, s);
    } else {
      lcSave := SimpleRuns(prog, st, s);
    }
  }

  lemma ContinueBlock(prog: Program, st: State, b: Block, st': State, lcSave: int)
    requires b.Cons? && st' == Moved(st, Meaning(b.head, st.Data()), st.pc + Size(b.head), st'.lcSave)
    requires Leads(prog, st, st')
    requires Leads(prog, st', Moved(st', Meanings(b.tail, st'.Data()), st'.pc + Sizes(b.tail), lcSave))
    ensures Leads(prog, st, Moved(st, Meanings(b, st.Data()), st.pc + Sizes(b), lcSave))
  {
    var x := Meanings(b.tail, st'.Data());
    assert Moved(st', x, st'.pc + Sizes(b.tail), lcSave) == Moved(st, x, st.pc + Sizes(b), lcSave);
    LeadsOn(prog, st, st', Moved(st', x, st'.pc + Sizes(b.tail), lcSave));
  }

  /**
   * A structured program with REPs and nested DO loops runs as written: DO runs its body exactly its count
   * (65536 for 0), REP its instruction, and at the end LA, LC, LF and the stack are what they were.
   */
  lemma {:induction false} StructuredProgramRuns(prog: Program, st: State, b: Block) returns (lcSave: int)
    requires Readys(prog, st, b)
    ensures 0 <= lcSave < W16 && Leads(prog, st, Moved(st, Meanings(b, st.Data()), st.pc + Sizes(b), lcSave))
    decreases b
  {
    if b.Nil? {
      lcSave := st.lcSave;
      LeadsNowhere(prog, st);
      assert st == Moved(st, Meanings(b, st.Data()), st.pc, lcSave);
    } else {
      lcSave := StmtRuns(prog, st, b.head);
      MeaningRange(b.head, st.Data());
      var st' := Moved(st, Meaning(b.head, st.Data()), st.pc + Size(b.head), lcSave);
      lcSave := StructuredProgramRuns(prog, st', b.tail);
      ContinueBlock(prog, st, b, st', lcSave);
    }
  }

  // ---------------------------------------------------------------- the same, instruction by instruction

  /** A run of states, each made from the one before by a body. */
  lemma {:induction false} IterateBlockTrace(b: Block, xs: seq<(D, int)>)
    requires |xs| > 0 && forall i | 0 <= i < |xs| - 1 :: xs[i + 1] == Meanings(b, xs[i])
    ensures IterateBlock(b, |xs| - 1, xs[0]) == xs[|xs| - 1]
    decreases |xs|
  {
    if |xs| > 1 {
      IterateBlockTrace(b, xs[1..]);
    }
  }

  lemma {:induction false} IterateTrace(exec: Effect, xs: seq<(D, int)>)
    requires |xs| > 0 && forall i | 0 <= i < |xs| - 1 ::
      xs[i + 1] == (exec(xs[i].0, xs[i].1).0, exec(xs[i].0, xs[i].1).1 % 0x8000)
    ensures Iterate(exec, |xs| - 1, xs[0]) == xs[|xs| - 1]
    decreases |xs|
  {
    if |xs| > 1 {
      IterateTrace(exec, xs[1..]);
    }
  }

  /**
   * DO with an operand that reads as n and leaves the machine as (d, c): the body is performed n times modulo 65536,
   * 65536 times for 0, from there; the status bits are then those from before the loop.
   */
  lemma LoopRunsCount(prog: Program, st: State, s: Stmt, n: int, d: D, c: int, xs: seq<(D, int)>) returns (lcSave: int)
    requires Ready(prog, st, s) && s.Loop? && s.count(st.data, st.ccr) == (n, d, c)
    requires |xs| == 1 + (if n % 0x1_0000 == 0 then 0x1_0000 else n % 0x1_0000) && xs[0] == (d, c % 0x8000)
    requires forall i | 0 <= i < |xs| - 1 :: xs[i + 1] == Meanings(s.body, xs[i])
    ensures 0 <= lcSave < W16
    ensures Leads(prog, st, st.(data := xs[|xs| - 1].0, pc := st.pc + Size(s), lcSave := lcSave))
  {
    lcSave := LoopRuns(prog, st, s);
    IterateBlockTrace(s.body, xs);
    assert st.(data := xs[|xs| - 1].0, pc := st.pc + Size(s), lcSave := lcSave)
        == Moved(st, Meaning(s, st.Data()), st.pc + Size(s), lcSave);
  }

  /** The 24 bits of a repeat count act through their low 16. */
  lemma LowCount(n: int)
    ensures n % 0x100_0000 % 0x1_0000 == n % 0x1_0000
  {
  }

  /** The same for REP and its instruction; LC is back as it was. */
  lemma RepeatRunsCount(prog: Program, st: State, s: Stmt, n: int, d: D, c: int, xs: seq<(D, int)>)
    requires Ready(prog, st, s) && s.Repeat? && s.count(st.data, st.ccr) == (n, d, c)
    requires |xs| == 1 + (if n % 0x1_0000 == 0 then 0x1_0000 else n % 0x1_0000) && xs[0] == (d, c % 0x8000)
    requires forall i | 0 <= i < |xs| - 1 ::
      xs[i + 1] == (s.exec(xs[i].0, xs[i].1).0, s.exec(xs[i].0, xs[i].1).1 % 0x8000)
    ensures var x := xs[|xs| - 1];
      Leads(prog, st, st.(data := x.0, ccr := x.1, pc := st.pc + Size(s), lcSave := st.lc))
  {
    RepeatRuns(prog, st, s);
    IterateTrace(s.exec, xs);
    LowCount(n);
    var x := xs[|xs| - 1];
    var t := Moved(st, Meaning(s, st.Data()), st.pc + Size(s), st.lc);
    assert t == st.(data := x.0, ccr := x.1, pc := st.pc + Size(s), lcSave := st.lc) == LoopUpdate(t);
  }

  /** One pass of an outer loop: the inner loop's steps, and what the instruction behind it makes of their end. */
  ghost predicate InnerPass(inner: Operand, e: Effect, f: Effect, x: (D, int), ys: seq<(D, int)>, x': (D, int)) {
    var (m, d, c) := inner(x.0, x.1);
    && |ys| == 1 + (if m % 0x1_0000 == 0 then 0x1_0000 else m % 0x1_0000) && ys[0] == (d, c % 0x8000)
    && (forall i | 0 <= i < |ys| - 1 :: ys[i + 1] == (e(ys[i].0, ys[i].1).0, e(ys[i].0, ys[i].1).1 % 0x8000))
    && x' == (f(ys[|ys| - 1].0, x.1).0, f(ys[|ys| - 1].0, x.1).1 % 0x8000)
  }

  lemma OneOp(len: nat, e: Effect, x: (D, int))
    ensures Meanings(Cons(Op(len, e), Nil), x) == (e(x.0, x.1).0, e(x.0, x.1).1 % 0x8000)
  {
    assert Meanings(Nil, Meaning(Op(len, e), x)) == Meaning(Op(len, e), x);
  }

  lemma InnerMeaning(inner: Operand, e: Effect, f: Effect, x: (D, int), ys: seq<(D, int)>, x': (D, int))
    requires InnerPass(inner, e, f, x, ys, x')
    ensures Meanings(Cons(Loop(inner, Cons(Op(1, e), Nil)), Cons(Op(2, f), Nil)), x) == x'
  {
    var b := Cons(Op(1, e), Nil);
    forall i | 0 <= i < |ys| - 1 ensures ys[i + 1] == Meanings(b, ys[i]) {
      OneOp(1, e, ys[i]);
    }
    IterateBlockTrace(b, ys);
    var y := Meaning(Loop(inner, b), x);
    assert y == (ys[|ys| - 1].0, x.1);
    OneOp(2, f, y);
  }

  lemma OneOpBlock(prog: Program, addr: int, len: nat, e: Effect)
    requires addr in prog && prog[addr] == Plain(len, e) && 1 <= len <= 2
    ensures var b := Cons(Op(len, e), Nil);
      Sizes(b) == len && Depths(b) == 0 && WellFormeds(b) && !EndsWithLoop(b) && Loadeds(prog, addr, b)
  {
    assert Sizes(Nil) == 0 && Depths(Nil) == 0 && Loadeds(prog, addr + len, Nil) && WellFormeds(Nil);
  }

  lemma TwoLoopsLoaded(prog: Program, st: State, outer: Operand, inner: Operand, e: Effect, f: Effect)
    requires Quiet(st) && !st.lf && |st.stack| <= 10 && st.pc + 7 < W16
    requires st.pc in prog && prog[st.pc] == Do(outer, st.pc + 6)
    requires st.pc + 2 in prog && prog[st.pc + 2] == Do(inner, st.pc + 4)
    requires st.pc + 4 in prog && prog[st.pc + 4] == Plain(1, e)
    requires st.pc + 5 in prog && prog[st.pc + 5] == Plain(2, f)
    ensures var s := Loop(outer, Cons(Loop(inner, Cons(Op(1, e), Nil)), Cons(Op(2, f), Nil)));
      Ready(prog, st, s) && Size(s) == 7
  {
    var p, inside, last := st.pc, Loop(inner, Cons(Op(1, e), Nil)), Cons(Op(2, f), Nil);
    OneOpBlock(prog, p + 4, 1, e);
    OneOpBlock(prog, p + 5, 2, f);
    assert Size(inside) == 3 && Depth(inside) == 2 && WellFormed(inside) && Loaded(prog, p + 2, inside);
    var body := Cons(inside, last);
    assert Sizes(body) == 5 && Depths(body) == 2 && WellFormeds(body) && !EndsWithLoop(body);
    assert Loadeds(prog, p + 2, body);
  }

  /**
   * The program DO n, DO m, e, f, with e in the inner loop and f behind it: every pass of the outer loop reads the
   * inner count anew, performs e that many times, takes back the status bits and performs f.
   */
  lemma LoopInLoop(prog: Program, st: State, outer: Operand, inner: Operand, e: Effect, f: Effect,
                   xs: seq<(D, int)>, passes: seq<seq<(D, int)>>) returns (lcSave: int)
    requires Quiet(st) && !st.lf && |st.stack| <= 10 && st.pc + 7 < W16
    requires st.pc in prog && prog[st.pc] == Do(outer, st.pc + 6)
    requires st.pc + 2 in prog && prog[st.pc + 2] == Do(inner, st.pc + 4)
    requires st.pc + 4 in prog && prog[st.pc + 4] == Plain(1, e)
    requires st.pc + 5 in prog && prog[st.pc + 5] == Plain(2, f)
    requires var (n, d, c) := outer(st.data, st.ccr);
      && |xs| == 1 + (if n % 0x1_0000 == 0 then 0x1_0000 else n % 0x1_0000)
      && xs[0] == (d, c % 0x8000) && |passes| == |xs| - 1
    requires forall i | 0 <= i < |passes| :: InnerPass(inner, e, f, xs[i], passes[i], xs[i + 1])
    ensures 0 <= lcSave < W16 && Leads(prog, st, st.(data := xs[|xs| - 1].0, pc := st.pc + 7, lcSave := lcSave))
  {
    var inside := Loop(inner, Cons(Op(1, e), Nil));
    var body := Cons(inside, Cons(Op(2, f), Nil));
    var s := Loop(outer, body);
    TwoLoopsLoaded(prog, st, outer, inner, e, f);
    forall i | 0 <= i < |xs| - 1 ensures xs[i + 1] == Meanings(body, xs[i]) {
      InnerMeaning(inner, e, f, xs[i], passes[i], xs[i + 1]);
    }
    var (n, d, c) := outer(st.data, st.ccr);
    lcSave := LoopRunsCount(prog, st, s, n, d, c, xs);
  }

  // ---------------------------------------------------------------- loops that share their end

  /** A body that ends with a loop runs once and arrives behind it: the loop check was spent on the inner loop. */
  lemma {:induction false} SharedBodyRuns(prog: Program, st: State, b: Block) returns (lcSave: int)
    requires Quiet(st) && WellFormeds(b) && EndsWithLoop(b) && Loadeds(prog, st.pc, b)
    requires st.pc + Sizes(b) < W16 && |st.stack| + Depths(b) <= 14 && st.la == st.pc + Sizes(b) - 1
    ensures 0 <= lcSave < W16 && Leads(prog, st, Moved(st, Meanings(b, st.Data()), st.pc + Sizes(b), lcSave))
    decreases b
  {
    var x := Meaning(b.head, st.Data());
    if b.tail.Cons? {
      SizePositive(b.tail);
    }
    lcSave := StmtRuns(prog, st, b.head);
    if b.tail.Nil? {
      assert Meanings(b.tail, x) == x;
    } else {
      MeaningRange(b.head, st.Data());
      var st' := Moved(st, x, st.pc + Size(b.head), lcSave);
      lcSave := SharedBodyRuns(prog, st', b.tail);
      ContinueBlock(prog, st, b, st', lcSave);
    }
  }

  /**
   * Distinct ends are needed: a loop whose body ends with another loop runs its body once, whatever its
   * count, and falls through with its own loop still open, two entries too many on the stack.
   */
  lemma SharedEndFallsThrough(prog: Program, st: State, s: Stmt) returns (lcSave: int)
    requires Quiet(st) && s.Loop? && WellFormeds(s.body) && EndsWithLoop(s.body)
    requires Loaded(prog, st.pc, s) && st.pc + Size(s) < W16 && |st.stack| + Depth(s) <= 14
    ensures Leads(prog, st, Moved(Entered(st, s), Meanings(s.body, Entered(st, s).Data()), st.pc + Size(s), lcSave))
  {
    DoStep(prog, st, s);
    var st' := Entered(st, s);
    lcSave := SharedBodyRuns(prog, st', s.body);
    LeadsOn(prog, st, st', Moved(st', Meanings(s.body, st'.Data()), st'.pc + Sizes(s.body), lcSave));
  }

  /**
   * A loop of well-formed statements reaches its end address as it was entered, its body performed as often as its
   * count says, exactly when the body does not end with another loop.
   */
  lemma LoopEndsExactly(prog: Program, st: State, s: Stmt) returns (lcSave: int, st': State)
    requires Quiet(st) && s.Loop? && s.body.Cons? && WellFormeds(s.body)
    requires Loaded(prog, st.pc, s) && st.pc + Size(s) < W16 && |st.stack| + Depth(s) <= 14
    ensures Leads(prog, st, st') && st'.pc == st.pc + Size(s)
    ensures st'.stack == st.stack <==> !EndsWithLoop(s.body)
    ensures st' == if !EndsWithLoop(s.body) then Moved(st, Meaning(s, st.Data()), st.pc + Size(s), lcSave)
                   else Moved(Entered(st, s), Meanings(s.body, Entered(st, s).Data()), st.pc + Size(s), lcSave)
  {
    if EndsWithLoop(s.body) {
      lcSave := SharedEndFallsThrough(prog, st, s);
      st' := Moved(Entered(st, s), Meanings(s.body, Entered(st, s).Data()), st.pc + Size(s), lcSave);
      assert |st'.stack| == |st.stack| + 2;
    } else {
      lcSave := LoopRuns(prog, st, s);
      st' := Moved(st, Meaning(s, st.Data()), st.pc + Size(s), lcSave);
    }
  }
}
