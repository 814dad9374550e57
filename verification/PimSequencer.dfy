/** NOP counting, the hardware loop of JUMP, and the program counter (instr_decoder.cpp, pc_unit.cpp). */
module PimSequencer {

  const WORD: nat := 0x1_0000_0000
  const BYTE: nat := 0x100

  /** What sequencing distinguishes: NOP and JUMP with their immediate fields, EXIT, and everything else. */
  datatype Instr = Nop(imm0: nat) | Jump(imm0: nat, imm1: nat) | Exit | Other

  /** The registers nop_cnt, jmp_act, jmp_cnt and pc. */
  datatype State = State(nop: nat, act: bool, cnt: nat, pc: nat)

  /** The program counter's inputs. */
  datatype PcControl = PcControl(rst: bool, jumpEn: bool, jumpNum: nat, countEn: bool)

  function Decrement(x: int, range: nat): (r: nat)
    requires 0 <= x < range
    ensures r == if x == 0 then range - 1 else x - 1
  {
    if x == 0 then range - 1 else x - 1
  }

  predicate IsState(s: State) { s.nop < BYTE && s.cnt < WORD && s.pc < BYTE }

  /** The fields' widths: eight bits and eleven. */
  predicate IsInstr(i: Instr)
  {
    match i
    case Nop(imm0) => imm0 < BYTE
    case Jump(imm0, imm1) => imm0 < BYTE && imm1 < 0x800
    case _ => true
  }

  /** A loaded instruction memory; its length is CRF_ENTRIES, which an eight-bit program counter can address. */
  predicate IsProgram(p: seq<Instr>) { 1 <= |p| <= BYTE && forall i :: 0 <= i < |p| ==> IsInstr(p[i]) }

  /** Beyond the instruction memory a zero word is read, and zero is a NOP. */
  function Fetched(p: seq<Instr>, pc: nat): Instr { if pc < |p| then p[pc] else Nop(0) }

  /** An instruction is decoded when it is asked for and no NOP is being counted. */
  predicate Decodes(s: State, enable: bool) { enable && s.nop == 0 }

  predicate TakesJump(s: State, i: Instr) { i.Jump? && (!s.act || s.cnt != 0) }

  /** The next values of the decoder's registers, and what it tells the program counter. */
  function DecoderNext(s: State, enable: bool, i: Instr): (r: (State, PcControl))
    requires IsState(s) && IsInstr(i)
  {
    var nop := if s.nop == 0 then 0 else s.nop - 1;
    if !Decodes(s, enable) then (s.(nop := nop), PcControl(false, false, 0, false))
    else match i
      case Nop(imm0) => (s.(nop := Decrement(imm0, BYTE)), PcControl(false, false, 0, true))
      case Jump(imm0, imm1) =>
        if !s.act then (s.(nop := nop, act := true, cnt := Decrement(imm1, WORD)), PcControl(false, true, imm0, false))
        else if s.cnt != 0 then (s.(nop := nop, cnt := s.cnt - 1), PcControl(false, true, imm0, false))
        else (s.(nop := nop, act := false), PcControl(false, false, 0, true))
      case Exit => (s.(nop := nop), PcControl(true, false, 0, true))
      case Other => (s.(nop := nop), PcControl(false, false, 0, true))
  }

  /** pc_unit, comb_method, for an instruction memory of the given size; the counter is eight bits wide. */
  function PcNext(size: nat, pc: nat, c: PcControl): nat
  {
    if c.rst then 0
    else if c.jumpEn then (pc - c.jumpNum) % BYTE
    else if c.countEn then (if pc < size - 1 then pc + 1 else 0)
    else pc
  }

  /** One cycle. */
  function Cycle(p: seq<Instr>, s: State, enable: bool): State
    requires IsProgram(p) && IsState(s)
  {
    var (d, c) := DecoderNext(s, enable, Fetched(p, s.pc));
    d.(pc := PcNext(|p|, s.pc, c))
  }

  /** The counters stay inside their registers. */
  lemma CycleKeeps(p: seq<Instr>, s: State, enable: bool)
    requires IsProgram(p) && IsState(s)
    ensures IsState(Cycle(p, s, enable))
  {
  }

  /** The program counter is inside the instruction memory. */
  predicate Inside(p: seq<Instr>, s: State) { s.pc < |p| }

  /** Where jumps of this length from this place land: at or before it, or, around the eight-bit counter, in the memory
      again. */
  predicate Lands(size: nat, pc: nat, jumpNum: nat) { jumpNum <= pc || jumpNum > pc + BYTE - size }

  /** The next program counter is inside exactly if the cycle does not jump or the jump lands. */
  lemma PcStaysInside(size: nat, pc: nat, c: PcControl)
    requires pc < size <= BYTE && c.jumpNum < BYTE
    ensures PcNext(size, pc, c) < size <==> c.rst || !c.jumpEn || Lands(size, pc, c.jumpNum)
  {
    if c.jumpEn {
      assert (pc - c.jumpNum) % BYTE == if c.jumpNum <= pc then pc - c.jumpNum else pc - c.jumpNum + BYTE;
    }
  }

  /** A jump may go back further than the counter and still land: by 255 from 0. */
  lemma AroundTheCounter()
    ensures PcNext(32, 0, PcControl(false, true, 255, false)) == 1
    ensures PcNext(32, 0, PcControl(false, true, 1, false)) == 255
  {
  }

  predicate JumpsLand(p: seq<Instr>) { forall i :: 0 <= i < |p| && p[i].Jump? ==> Lands(|p|, i, p[i].imm0) }

  lemma CycleStaysInside(p: seq<Instr>, s: State, enable: bool)
    requires IsProgram(p) && IsState(s) && Inside(p, s) && JumpsLand(p)
    ensures Inside(p, Cycle(p, s, enable))
  {
    PcStaysInside(|p|, s.pc, DecoderNext(s, enable, Fetched(p, s.pc)).1);
  }

  /** A program never leaves the instruction memory, from any state inside it, exactly if all its jumps land. */
  lemma StaysInsideExactly(p: seq<Instr>)
    requires IsProgram(p)
    ensures JumpsLand(p) <==> forall s, enable :: IsState(s) && Inside(p, s) ==> Inside(p, Cycle(p, s, enable))
  {
    if JumpsLand(p) {
      forall s, enable | IsState(s) && Inside(p, s) ensures Inside(p, Cycle(p, s, enable)) {
        CycleStaysInside(p, s, enable);
      }
    } else {
      var i :| 0 <= i < |p| && p[i].Jump? && !Lands(|p|, i, p[i].imm0);
      var at := State(0, false, 0, i);
      PcStaysInside(|p|, i, DecoderNext(at, true, p[i]).1);
      assert IsState(at) && Inside(p, at) && !Inside(p, Cycle(p, at, true));
    }
  }

  /** A cycle that decodes nothing only counts down the NOP. */
  lemma StallKeeps(p: seq<Instr>, s: State, enable: bool)
    requires IsProgram(p) && IsState(s) && !Decodes(s, enable)
    ensures Cycle(p, s, enable) == s.(nop := if s.nop == 0 then 0 else s.nop - 1)
  {
  }

  /** One decoding step, apart from NOP stalls. */
  function Step(p: seq<Instr>, s: State): State
    requires IsProgram(p) && IsState(s)
  {
    Cycle(p, s.(nop := 0), true).(nop := 0)
  }

  function Steps(p: seq<Instr>, s: State, n: nat): (r: State)
    requires IsProgram(p) && IsState(s) && s.nop == 0
    ensures IsState(r) && r.nop == 0
    decreases n
  {
    if n == 0 then s else
      CycleKeeps(p, s, true);
      Steps(p, Step(p, s), n - 1)
  }

  /** The state after some cycles, and how many of them decoded. */
  function Cycles(p: seq<Instr>, s: State, enable: seq<bool>): (r: State)
    requires IsProgram(p) && IsState(s)
    ensures IsState(r)
    decreases |enable|
  {
    if enable == [] then s else
      CycleKeeps(p, s, enable[0]);
      Cycles(p, Cycle(p, s, enable[0]), enable[1..])
  }

  function Decoded(p: seq<Instr>, s: State, enable: seq<bool>): nat
    requires IsProgram(p) && IsState(s)
    decreases |enable|
  {
    if enable == [] then 0 else
      CycleKeeps(p, s, enable[0]);
      (if Decodes(s, enable[0]) then 1 else 0) + Decoded(p, Cycle(p, s, enable[0]), enable[1..])
  }

  /** NOPs and idle cycles only delay: apart from the NOP counter, the state depends on the number of decoding steps. */
  lemma {:induction false} OnlyStepsMatter(p: seq<Instr>, s: State, enable: seq<bool>)
    requires IsProgram(p) && IsState(s)
    ensures Cycles(p, s, enable).(nop := 0) == Steps(p, s.(nop := 0), Decoded(p, s, enable))
    decreases |enable|
  {
    if enable != [] {
      CycleKeeps(p, s, enable[0]);
      OnlyStepsMatter(p, Cycle(p, s, enable[0]), enable[1..]);
      if !Decodes(s, enable[0]) { StallKeeps(p, s, enable[0]); }
    }
  }

  lemma {:induction false} Countdown(p: seq<Instr>, s: State, enable: seq<bool>)
    requires IsProgram(p) && IsState(s) && |enable| <= s.nop
    ensures Decoded(p, s, enable) == 0 && Cycles(p, s, enable) == s.(nop := s.nop - |enable|)
    decreases |enable|
  {
    if enable != [] {
      StallKeeps(p, s, enable[0]);
      Countdown(p, Cycle(p, s, enable[0]), enable[1..]);
    }
  }

  /** A NOP with count c occupies c cycles, its own included; a count of 0 wraps around and occupies 256. */
  lemma {:induction false} NopStalls(p: seq<Instr>, s: State, enable: seq<bool>)
    requires IsProgram(p) && IsState(s) && s.nop == 0 && Fetched(p, s.pc).Nop?
    requires |enable| >= 1 && enable[0] && |enable| <= if Fetched(p, s.pc).imm0 == 0 then 256 else Fetched(p, s.pc).imm0
    ensures Decoded(p, s, enable) == 1
    ensures Cycles(p, s, enable).nop == (if Fetched(p, s.pc).imm0 == 0 then 256 else Fetched(p, s.pc).imm0) - |enable|
  {
    CycleKeeps(p, s, enable[0]);
    Countdown(p, Cycle(p, s, enable[0]), enable[1..]);
  }

  /** How many of the next n decoding steps branch back. */
  function Branches(p: seq<Instr>, s: State, n: nat): nat
    requires IsProgram(p) && IsState(s) && s.nop == 0
    decreases n
  {
    if n == 0 then 0 else
      CycleKeeps(p, s, true);
      (if TakesJump(s, Fetched(p, s.pc)) then 1 else 0) + Branches(p, Step(p, s), n - 1)
  }

  lemma {:induction false} StepsAdd(p: seq<Instr>, s: State, m: nat, n: nat)
    requires IsProgram(p) && IsState(s) && s.nop == 0
    ensures Steps(p, s, m + n) == Steps(p, Steps(p, s, m), n)
    ensures Branches(p, s, m + n) == Branches(p, s, m) + Branches(p, Steps(p, s, m), n)
    decreases m
  {
    if m > 0 {
      CycleKeeps(p, s, true);
      StepsAdd(p, Step(p, s), m - 1, n);
    }
  }

  /** A stretch without JUMP and EXIT. */
  predicate Straight(p: seq<Instr>, from: nat, to: nat)
    requires from <= to <= |p|
  {
    forall i :: from <= i < to ==> !p[i].Jump? && !p[i].Exit?
  }

  lemma {:induction false} StraightRuns(p: seq<Instr>, s: State, k: nat)
    requires IsProgram(p) && IsState(s) && s.nop == 0 && s.pc + k < |p| && Straight(p, s.pc, s.pc + k)
    ensures Steps(p, s, k) == s.(pc := s.pc + k) && Branches(p, s, k) == 0
    decreases k
  {
    if k > 0 {
      CycleKeeps(p, s, true);
      assert Step(p, s) == s.(pc := s.pc + 1);
      StraightRuns(p, s.(pc := s.pc + 1), k - 1);
    }
  }

  /** The times a JUMP branches back: its count, and 2^32 for a count of 0, which wraps around. */
  function LoopCount(imm1: nat): nat { if imm1 == 0 then WORD else imm1 }

  /** One pass over the body and the JUMP at j. */
  lemma OnePass(p: seq<Instr>, s: State, j: nat)
    requires IsProgram(p) && IsState(s) && s.nop == 0 && j < |p| && p[j].Jump?
    requires s.pc == j - p[j].imm0 && Straight(p, s.pc, j)
    ensures var at := s.(pc := j);
            Steps(p, s, p[j].imm0 + 1) == Step(p, at) && Branches(p, s, p[j].imm0 + 1) == if TakesJump(at, p[j]) then 1
              else 0
  {
    var k := p[j].imm0;
    StraightRuns(p, s, k);
    StepsAdd(p, s, k, 1);
    CycleKeeps(p, s.(pc := j), true);
    assert Steps(p, s.(pc := j), 1) == Steps(p, Step(p, s.(pc := j)), 0);
  }

  /** The decoding steps of n passes over a body of k instructions and its JUMP. */
  function Passes(n: nat, k: nat): nat
    decreases n
  {
    if n == 0 then 0 else k + 1 + Passes(n - 1, k)
  }

  lemma {:induction false} PassesProduct(n: nat, k: nat)
    ensures Passes(n, k) == n * (k + 1)
    decreases n
  {
    if n > 0 {
      PassesProduct(n - 1, k);
      assert n * (k + 1) == (k + 1) + (n - 1) * (k + 1);
    }
  }

  /** At the start of the body of the JUMP at j. */
  predicate AtLoop(p: seq<Instr>, s: State, j: nat)
  {
    && IsProgram(p) && IsState(s) && s.nop == 0
    && j < |p| && p[j].Jump? && s.pc == j - p[j].imm0 && Straight(p, s.pc, j)
  }

  function After(p: seq<Instr>, j: nat): State { State(0, false, 0, if j < |p| - 1 then j + 1 else 0) }

  /** The passes that are left once the loop is active with cnt branches to go. */
  lemma {:induction false} LoopRuns(p: seq<Instr>, s: State, j: nat, cnt: nat)
    requires AtLoop(p, s, j) && s.act && s.cnt == cnt
    ensures Steps(p, s, Passes(cnt + 1, p[j].imm0)) == After(p, j) && Branches(p, s, Passes(cnt + 1, p[j].imm0)) == cnt
    decreases cnt
  {
    var k := p[j].imm0;
    OnePass(p, s, j);
    if cnt > 0 {
      var next := s.(cnt := cnt - 1);
      assert Step(p, s.(pc := j)) == next;
      StepsAdd(p, s, k + 1, Passes(cnt, k));
      LoopRuns(p, next, j, cnt - 1);
    }
  }

  /** The hardware loop: entered at the start of its body with jmp_act false, a JUMP of offset k and count n branches
      back LoopCount(n) times and leaves, inactive, after (LoopCount(n) + 1) * (k + 1) decoding steps. */
  lemma JumpLoops(p: seq<Instr>, s: State, j: nat)
    requires AtLoop(p, s, j) && !s.act
    ensures var n := Passes(LoopCount(p[j].imm1) + 1, p[j].imm0);
            && n == (LoopCount(p[j].imm1) + 1) * (p[j].imm0 + 1)
            && Steps(p, s, n) == After(p, j) && Branches(p, s, n) == LoopCount(p[j].imm1)
  {
    var k, cnt := p[j].imm0, Decrement(p[j].imm1, WORD);
    OnePass(p, s, j);
    var active := State(0, true, cnt, s.pc);
    assert Step(p, s.(pc := j)) == active;
    LoopRuns(p, active, j, cnt);
    StepsAdd(p, s, k + 1, Passes(cnt + 1, k));
    PassesProduct(cnt + 2, k);
  }

  /** So the count in the instruction is the number of branches exactly when it is not 0. */
  lemma CountIsExact(p: seq<Instr>, s: State, j: nat)
    requires AtLoop(p, s, j) && !s.act
    ensures Branches(p, s, Passes(LoopCount(p[j].imm1) + 1, p[j].imm0)) == p[j].imm1 <==> p[j].imm1 >= 1
  {
    JumpLoops(p, s, j);
  }

  /** EXIT sends the program counter back to 0 and leaves a loop as it is. */
  lemma ExitReturns(p: seq<Instr>, s: State)
    requires IsProgram(p) && IsState(s) && s.nop == 0 && s.pc < |p| && p[s.pc].Exit?
    ensures Cycle(p, s, true) == s.(pc := 0) && Cycle(p, s, false) == s
    ensures Steps(p, s, 1) == s.(pc := 0)
  {
    CycleKeeps(p, s, true);
    assert Steps(p, Step(p, s), 0) == Step(p, s);
  }

  /** Without a jump the counter goes to the next entry, and from the last one to the first. */
  lemma NextEntry(p: seq<Instr>, s: State)
    requires IsProgram(p) && IsState(s) && s.nop == 0 && s.pc < |p| && !p[s.pc].Jump? && !p[s.pc].Exit?
    ensures Steps(p, s, 1) == s.(pc := if s.pc == |p| - 1 then 0 else s.pc + 1)
  {
    CycleKeeps(p, s, true);
    assert Steps(p, Step(p, s), 0) == Step(p, s);
  }

  /** A straight stretch of n instructions that ends in EXIT is back at 0 after n + 1 decoding steps. */
  lemma StretchReturns(p: seq<Instr>, s: State, n: nat, exit: nat)
    requires IsProgram(p) && IsState(s) && s.nop == 0 && exit == s.pc + n && exit < |p|
    requires Straight(p, s.pc, exit) && p[exit].Exit?
    ensures Steps(p, s, n + 1) == s.(pc := 0)
  {
    StraightRuns(p, s, n);
    StepsAdd(p, s, n, 1);
    ExitReturns(p, s.(pc := exit));
  }

  /** From here on: straight stretches, the JUMPs at these places with their bodies, and an EXIT. */
  predicate Structured(p: seq<Instr>, from: nat, jumps: seq<nat>, exit: nat)
    decreases |jumps|
  {
    if jumps == [] then from <= exit < |p| && Straight(p, from, exit) && p[exit].Exit?
    else
      var j := jumps[0];
      && from <= j < |p| - 1 && p[j].Jump? && from <= j - p[j].imm0 && Straight(p, from, j)
      && Structured(p, j + 1, jumps[1..], exit)
  }

  /** The decoding steps from here until after the EXIT. */
  function Duration(p: seq<Instr>, from: nat, jumps: seq<nat>, exit: nat): nat
    requires Structured(p, from, jumps, exit)
    decreases |jumps|
  {
    if jumps == [] then exit - from + 1
    else
      var j := jumps[0];
      j - p[j].imm0 - from + Passes(LoopCount(p[j].imm1) + 1, p[j].imm0) + Duration(p, j + 1, jumps[1..], exit)
  }

  /** One loop, and what precedes it. */
  lemma LoopPassed(p: seq<Instr>, s: State, j: nat, n: nat)
    requires IsProgram(p) && IsState(s) && s.nop == 0 && !s.act && s.pc <= j < |p| - 1 && p[j].Jump?
    requires s.pc <= j - p[j].imm0 && Straight(p, s.pc, j)
    requires n == j - p[j].imm0 - s.pc + Passes(LoopCount(p[j].imm1) + 1, p[j].imm0)
    ensures Steps(p, s, n) == State(0, false, 0, j + 1)
  {
    var k := j - p[j].imm0 - s.pc;
    StraightRuns(p, s, k);
    StepsAdd(p, s, k, Passes(LoopCount(p[j].imm1) + 1, p[j].imm0));
    JumpLoops(p, s.(pc := j - p[j].imm0), j);
  }

  /** A program of stretches and loops comes back to 0 from its EXIT. */
  lemma {:induction false} ProgramReturns(p: seq<Instr>, s: State, jumps: seq<nat>, exit: nat)
    requires IsProgram(p) && IsState(s) && s.nop == 0 && !s.act && Structured(p, s.pc, jumps, exit)
    ensures Steps(p, s, Duration(p, s.pc, jumps, exit)) == State(0, false, if jumps == [] then s.cnt else 0, 0)
    decreases |jumps|
  {
    if jumps == [] {
      StretchReturns(p, s, exit - s.pc, exit);
    } else {
      var j := jumps[0];
      var n := j - p[j].imm0 - s.pc + Passes(LoopCount(p[j].imm1) + 1, p[j].imm0);
      LoopPassed(p, s, j, n);
      StepsAdd(p, s, n, Duration(p, j + 1, jumps[1..], exit));
      ProgramReturns(p, State(0, false, 0, j + 1), jumps[1..], exit);
    }
  }

  function Rounds(n: nat, period: nat): nat
    decreases n
  {
    if n == 0 then 0 else period + Rounds(n - 1, period)
  }

  /** So it repeats, with that period: after any number of rounds it goes on as from its start. */
  lemma {:induction false} ProgramRepeats(p: seq<Instr>, jumps: seq<nat>, exit: nat, n: nat, m: nat)
    requires IsProgram(p) && Structured(p, 0, jumps, exit)
    ensures var start := State(0, false, 0, 0);
            Steps(p, start, Rounds(n, Duration(p, 0, jumps, exit)) + m) == Steps(p, start, m)
    decreases n
  {
    if n > 0 {
      var start, period := State(0, false, 0, 0), Duration(p, 0, jumps, exit);
      ProgramReturns(p, start, jumps, exit);
      StepsAdd(p, start, period, Rounds(n - 1, period) + m);
      ProgramRepeats(p, jumps, exit, n - 1, m);
    }
  }

  /** In terms of cycles, however many of them idle or count NOPs: from reset, a cycle that follows whole rounds of
      decoding steps finds the program at its start, and m decoding steps later it is where m steps take it. */
  lemma CyclesRepeat(p: seq<Instr>, jumps: seq<nat>, exit: nat, enable: seq<bool>, n: nat, m: nat)
    requires IsProgram(p) && Structured(p, 0, jumps, exit)
    requires Decoded(p, State(0, false, 0, 0), enable) == Rounds(n, Duration(p, 0, jumps, exit)) + m
    ensures var start := State(0, false, 0, 0);
            Cycles(p, start, enable).(nop := 0) == Steps(p, start, m) && (m == 0 ==> Cycles(p, start, enable).pc == 0)
  {
    OnlyStepsMatter(p, State(0, false, 0, 0), enable);
    ProgramRepeats(p, jumps, exit, n, m);
  }

  /** The clocked registers and combinational logic, as they assign. */
  class Sequencer {
    var state: State
    var program: seq<Instr>

    constructor (program: seq<Instr>)
      ensures state == State(0, false, 0, 0) && this.program == program
    {
      state, this.program := State(0, false, 0, 0), program;
    }

    method Clock(enable: bool)
      requires IsProgram(program) && IsState(state)
      modifies this`state
      ensures IsState(state) && state == Cycle(program, old(state), enable)
    {
      CycleKeeps(program, state, enable);
      var nopNxt := if state.nop == 0 then 0 else state.nop - 1;
      var actNxt, cntNxt := state.act, state.cnt;
      var rst, jumpEn, jumpNum, countEn := false, false, 0, false;
      if enable && state.nop == 0 {
        countEn := true;
        match Fetched(program, state.pc)
        case Nop(imm0) =>
          nopNxt := Decrement(imm0, BYTE);
        case Jump(imm0, imm1) =>
          if !state.act {
            countEn, actNxt, cntNxt, jumpEn, jumpNum := false, true, Decrement(imm1, WORD), true, imm0;
          } else if state.cnt != 0 {
            countEn, actNxt, cntNxt, jumpEn, jumpNum := false, true, state.cnt - 1, true, imm0;
          } else {
            actNxt := false;
          }
        case Exit =>
          rst := true;
        case Other =>
      }
      var pcNxt := state.pc;
      if rst {
        pcNxt := 0;
      } else if jumpEn {
        pcNxt := (state.pc - jumpNum) % BYTE;
      } else if countEn {
        pcNxt := if state.pc < |program| - 1 then state.pc + 1 else 0;
      }
      state := State(nopNxt, actNxt, cntNxt, pcNxt);
    }
  }
}
