/** The core against the instruction set: one instruction, and a whole program. */
module PimProgram {
  import opened PimControl
  import opened PimCore
  import opened PimPipeline
  import opened PimSchedule
  import opened PimExec

  /** What the write ports see when an FPU result goes to register n of file p. */
  predicate PortsSee(s: Stages, q: Pipes, c: Control, p: Place, n: nat)
    requires IsPipes(s, q)
  {
    var last := s.mult + s.add;
    && c.srfEn == 0 && (p == GrfA || p == GrfB)
    && (Or(c.enA.comb, q.enA[last]) != 0 <==> p == GrfA) && (Or(c.enB.comb, q.enB[last]) != 0 <==> p == GrfB)
    && (p == GrfA ==>
          Or(c.addrA.comb, q.addrA[last]) == n && Or(c.fromA.comb, q.fromA[last]) == MUX_FPU
          && Or(c.reluA.comb, q.reluA) == 0)
    && (p == GrfB ==>
          Or(c.addrB.comb, q.addrB[last]) == n && Or(c.fromB.comb, q.fromB[last]) == MUX_FPU
          && Or(c.reluB.comb, q.reluB) == 0)
  }

  lemma StoresResult<V, S>(g: Algebra<V, S>, s: Stages, k: Core<V, S>, w: Wires<V, S>, c: Control, bus: Bus<V, S>,
                           p: Place, n: nat)
    requires IsCore(s, k) && PortsSee(s, k.pipes, c, p, n)
    ensures Stored(g, s, k, w, c, bus) == Assigned(k.regs, p, n,
                                                   if k.pipes.outSel[s.mult] != 0 then w.mulOut else w.addOut)
  {
  }

  lemma ResultPorts(s: Stages, i: Instr, c: Control, k: nat)
    requires c == Decode(i) && s.Valid() && WellFormed(i) && i.op != Mov && k == Latency(s, i)
    ensures PortsSee(s, PipesIn(s, c, k), Driven(c, k), i.dst, i.TargetN())
    ensures PipesIn(s, c, k).outSel[s.mult] == if i.op == Mul then 1 else 0
  {
    WriteTaps(s, c, k);
    DecodedWrites(i);
    OutputSelected(s, i);
    EmergesOnce(s, i, 1, k);
    EmergesOnce(s, i, i.TargetN(), k);
    EmergesOnce(s, i, MUX_FPU, k);
    MergedSeen(s, i, 0, 0, k);
  }

  lemma WritesNow<V, S>(g: Algebra<V, S>, s: Stages, now: Core<V, S>, c: Control, i: Instr, bus: Bus<V, S>, k: nat,
                        w: Wires<V, S>)
    requires IsCore(s, now) && now.pipes == PipesIn(s, c, k) && c == Decode(i) && WellFormed(i) && i.op != Mov
             && k == Latency(s, i)
    ensures Stored(g, s, now, w, Driven(c, k), bus) ==
            Assigned(now.regs, i.dst, i.TargetN(), if i.op == Mul then w.mulOut else w.addOut)
  {
    ResultPorts(s, i, c, k);
    StoresResult(g, s, now, w, Driven(c, k), bus, i.dst, i.TargetN());
  }

  lemma PipelineOutputs<V, S>(g: Algebra<V, S>, s: Stages, now: Core<V, S>, c: Control)
    requires IsCore(s, now) && s.Valid()
    ensures Read(g, s, now, c).mulOut == now.mul[s.mult - 1] && Read(g, s, now, c).addOut == now.add[s.add - 1]
  {
  }

  lemma RegsFollow<V(!new), S(!new)>(g: Algebra<V, S>, s: Stages, t: seq<Core<V, S>>, c: Control, bus: seq<Bus<V, S>>,
                                     k: nat)
    requires IsRun(g, s, t, c, bus) && k < |bus|
    ensures IsCore(s, t[k]) && t[k + 1].regs == Stored(g, s, t[k], Read(g, s, t[k], Driven(c, k)), Driven(c, k), bus[k])
  {
    assert Follows(g, s, t, c, bus, k);
  }

  /** In the cycle of the latency, what the FPU puts out is written to the destination. */
  lemma WritesBack<V(!new), S(!new)>(g: Algebra<V, S>, s: Stages, t: seq<Core<V, S>>, c: Control, i: Instr,
                                     bus: seq<Bus<V, S>>, k: nat, x: V)
    requires c == Decode(i) && IsRun(g, s, t, c, bus) && WellFormed(i) && i.op != Mov && k == Latency(s, i) < |bus|
    requires IsCore(s, t[k]) && x == if i.op == Mul then t[k].mul[s.mult - 1] else t[k].add[s.add - 1]
    ensures t[k + 1].regs == Assigned(t[k].regs, i.dst, i.TargetN(), x)
  {
    RunPipes(g, s, t, c, bus, k);
    RegsFollow(g, s, t, c, bus, k);
    var w := Read(g, s, t[k], Driven(c, k));
    PipelineOutputs(g, s, t[k], Driven(c, k));
    WritesNow(g, s, t[k], c, i, bus[k], k, w);
  }

  lemma FirstEdge<V(!new), S(!new)>(g: Algebra<V, S>, s: Stages, t: seq<Core<V, S>>, c: Control, bus: seq<Bus<V, S>>)
    requires IsRun(g, s, t, c, bus) && |bus| > 0
    ensures IsCore(s, t[0]) && t[1].regs == Stored(g, s, t[0], Read(g, s, t[0], c), c, bus[0])
  {
    RegsFollow(g, s, t, c, bus, 0);
  }

  lemma ResultArrives<V(!new), S(!new)>(g: Algebra<V, S>, s: Stages, t: seq<Core<V, S>>, i: Instr, bus: seq<Bus<V, S>>)
    requires IsRun(g, s, t, Decode(i), bus) && WellFormed(i) && i.op != Mov && Latency(s, i) < |bus|
    requires forall j: nat :: j <= Latency(s, i) ==> t[j].regs == t[0].regs
    ensures var k, x := Latency(s, i), Result(g, t[0].regs, i, bus[Start(i)], bus[LateCycle(s, i)]);
            IsCore(s, t[k]) && x == if i.op == Mul then t[k].mul[s.mult - 1] else t[k].add[s.add - 1]
  {
    if i.op == Mul {
      ProductReady(g, s, t, i, bus);
    } else {
      var k := AddStart(s, i);
      SumStarts(g, s, t, i, bus);
      SumReady(g, s, t, Decode(i), i, bus, k, AddInput(g, s, t[k], Decode(i), bus[k], k));
    }
  }

  lemma ResultExecutes<V, S>(g: Algebra<V, S>, r: Regs<V, S>, i: Instr, bus: Bus<V, S>, late: Bus<V, S>)
    requires i.op != Mov
    ensures Executed(g, r, i, BuiltSecond(i), bus, late) == Assigned(r, i.dst, i.TargetN(), Result(g, r, i, bus, late))
  {
  }

  /** The registers before and after an arithmetic instruction's only write. */
  lemma Arithmetic<V(!new), S(!new)>(g: Algebra<V, S>, s: Stages, t: seq<Core<V, S>>, i: Instr, bus: seq<Bus<V, S>>,
                                     k: nat)
    requires IsRun(g, s, t, Decode(i), bus) && WellFormed(i) && i.op != Mov && Latency(s, i) < |bus| && k < |t|
    ensures t[k].regs == if k <= Latency(s, i) then t[0].regs
                         else Executed(g, t[0].regs, i, BuiltSecond(i), bus[Start(i)], bus[LateCycle(s, i)])
  {
    var c, last := Decode(i), Latency(s, i);
    forall j: nat | j != last ensures Silent(s, c, j) { SilentElsewhere(s, i, j); }
    forall j: nat | j <= last ensures t[j].regs == t[0].regs { SilentUntil(g, s, t, c, bus, 0, j); }
    if k > last {
      ResultArrives(g, s, t, i, bus);
      var x := Result(g, t[0].regs, i, bus[Start(i)], bus[LateCycle(s, i)]);
      WritesBack(g, s, t, c, i, bus, last, x);
      ResultExecutes(g, t[0].regs, i, bus[Start(i)], bus[LateCycle(s, i)]);
      SilentUntil(g, s, t, c, bus, last + 1, k);
    }
  }

  /** A move from a bank is stored in the cycle after its decoding, when the bank's data is on the bus. */
  lemma LoadedMove<V(!new), S(!new)>(g: Algebra<V, S>, s: Stages, t: seq<Core<V, S>>, i: Instr, bus: seq<Bus<V, S>>)
    requires IsRun(g, s, t, Decode(i), bus) && WellFormed(i) && i.op == Mov && i.Loads() && |bus| > 1
             && t[1].regs == t[0].regs
    ensures t[2].regs == Executed(g, t[0].regs, i, 0, bus[1], bus[1])
  {
    var c := Decode(i);
    RunPipes(g, s, t, c, bus, 1);
    WriteTaps(s, c, 1);
    RegsFollow(g, s, t, c, bus, 1);
    EmergesOnce(s, i, 1, 1);
    EmergesOnce(s, i, i.dstN, 1);
    EmergesOnce(s, i, if i.src0 == EvenBank then MUX_EVEN_BANK else MUX_ODD_BANK, 1);
    MergedSeen(s, i, 0, 0, 1);
  }

  function MoveFrom(p: Place): nat { if p == GrfA then MUX_GRF_A else if p == GrfB then MUX_GRF_B else MUX_SRF }

  /** The read ports show what the move's control asks for. */
  predicate ReadsSource<V(==), S(==)>(g: Algebra<V, S>, r: Regs<V, S>, w: Wires<V, S>, i: Instr)
  {
    var c := Decode(i);
    && w.a1 == Port(r.a, c.rdA1.comb, g.zeroV) && w.b1 == Port(r.b, c.rdB1.comb, g.zeroV)
    && w.srf == if c.rdSAnM.comb != 0 then Port(r.s, c.rdS.comb, g.zeroS) else Port(r.m, c.rdS.comb, g.zeroS)
  }

  function Carried<V, S>(g: Algebra<V, S>, r: Regs<V, S>, i: Instr): V
  {
    match i.src0
    case GrfA => Port(r.a, i.src0N, g.zeroV)
    case GrfB => Port(r.b, i.src0N, g.zeroV)
    case SrfM => g.splat(Port(r.m, i.src0N, g.zeroS))
    case _ => g.splat(Port(r.s, i.src0N, g.zeroS))
  }

  lemma MoveReads<V, S>(g: Algebra<V, S>, r: Regs<V, S>, w: Wires<V, S>, i: Instr, fpu: V, bank: V, ext: V, extS: S,
                        relu: bool)
    requires i.op == Mov && !i.Loads() && ReadsSource(g, r, w, i)
    ensures GrfIn(g, w, fpu, bank, ext, MoveFrom(i.src0), relu) == if relu then g.relu(Carried(g, r, i))
              else Carried(g, r, i)
    ensures SrfIn(g, w, extS, MoveFrom(i.src0)) == ScalarOperand(g, r, i.src0, i.src0N)
  {
  }

  lemma MoveStores<V, S>(g: Algebra<V, S>, s: Stages, k: Core<V, S>, w: Wires<V, S>, i: Instr, bus: Bus<V, S>)
    requires Quiet(s, k) && i.op == Mov && !i.Loads() && ReadsSource(g, k.regs, w, i)
    ensures Stored(g, s, k, w, Decode(i), bus) == Executed(g, k.regs, i, 0, bus, bus)
  {
    NothingMoves(s, 0);
    MoveReads(g, k.regs, w, i, w.addOut, bus.even, bus.ext, bus.extS, i.flag);
    MoveReads(g, k.regs, w, i, w.addOut, bus.odd, bus.ext, bus.extS, i.flag);
  }

  /** A move between register files is stored in the cycle of its decoding. */
  lemma RegisterMove<V(!new), S(!new)>(g: Algebra<V, S>, s: Stages, t: seq<Core<V, S>>, i: Instr, bus: seq<Bus<V, S>>)
    requires IsRun(g, s, t, Decode(i), bus) && WellFormed(i) && i.op == Mov && !i.Loads() && |bus| > 0
    ensures var after := Executed(g, t[0].regs, i, 0, bus[0], bus[0]); t[1].regs == after
  {
    var c := Decode(i);
    RunPipes(g, s, t, c, bus, 0);
    Taps(s, c, 0);
    WriteTaps(s, c, 0);
    FirstEdge(g, s, t, c, bus);
    var w := Read(g, s, t[0], c);
    MoveStores(g, s, t[0], w, i, bus[0]);
  }

  lemma MoveSilent(s: Stages, i: Instr, k: nat)
    requires s.Valid() && WellFormed(i) && i.op == Mov && k != Start(i)
    ensures Silent(s, Decode(i), k)
  {
    EmergesOnce(s, i, 1, k);
    MergedSeen(s, i, 0, 0, k);
  }

  /** The number of cycles after which an instruction has left the core. */
  function Depth(s: Stages): nat { s.mult + s.add + 2 }

  lemma Move<V(!new), S(!new)>(g: Algebra<V, S>, s: Stages, t: seq<Core<V, S>>, i: Instr, bus: seq<Bus<V, S>>, k: nat)
    requires IsRun(g, s, t, Decode(i), bus) && WellFormed(i) && i.op == Mov && Start(i) < |bus| && k < |t|
    ensures t[k].regs == if k <= Start(i) then t[0].regs
              else Executed(g, t[0].regs, i, BuiltSecond(i), bus[Start(i)], bus[Start(i)])
  {
    var c, last := Decode(i), Start(i);
    forall j: nat | j != last ensures Silent(s, c, j) { MoveSilent(s, i, j); }
    SilentUntil(g, s, t, c, bus, 0, if k <= last then k else last);
    if k > last {
      if i.Loads() { LoadedMove(g, s, t, i, bus); } else { RegisterMove(g, s, t, i, bus); }
      SilentUntil(g, s, t, c, bus, last + 1, k);
    }
  }

  /** One instruction, from a quiet core: the register files keep their contents up to and including the cycle of the
      latency, and hold the instruction's result from then on. */
  lemma OneInstruction<V(!new), S(!new)>(g: Algebra<V, S>, s: Stages, t: seq<Core<V, S>>, i: Instr, bus: seq<Bus<V, S>>,
                                         k: nat)
    requires IsRun(g, s, t, Decode(i), bus) && WellFormed(i) && Latency(s, i) < |bus| && k < |t|
    ensures t[k].regs == if k <= Latency(s, i) then t[0].regs
                         else Executed(g, t[0].regs, i, BuiltSecond(i), bus[Start(i)], bus[LateCycle(s, i)])
  {
    if i.op == Mov {
      Move(g, s, t, i, bus, k);
    } else {
      Arithmetic(g, s, t, i, bus, k);
    }
  }

  /** After Depth cycles nothing is in flight. */
  lemma QuietAgain<V(!new), S(!new)>(g: Algebra<V, S>, s: Stages, t: seq<Core<V, S>>, c: Control, bus: seq<Bus<V, S>>,
                                     k: nat)
    requires IsRun(g, s, t, c, bus) && Depth(s) <= k < |t|
    ensures Quiet(s, t[k])
  {
    RunPipes(g, s, t, c, bus, k);
    PipesEmpty(s, c, k);
  }

  /** The core's successive states while c is driven and then nothing. */
  function Trace<V, S>(g: Algebra<V, S>, s: Stages, core: Core<V, S>, c: Control,
                       bus: seq<Bus<V, S>>): (t: seq<Core<V, S>>)
    requires IsCore(s, core)
    ensures |t| == |bus| + 1 && t[0] == core && forall j :: 0 <= j < |t| ==> IsCore(s, t[j])
  {
    if bus == [] then [core]
    else
      var n := |bus| - 1;
      var t := Trace(g, s, core, c, bus[..n]);
      t + [Cycle(g, s, t[n], Driven(c, n), bus[n])]
  }

  lemma RunExtends<V(!new), S(!new)>(g: Algebra<V, S>, s: Stages, t: seq<Core<V, S>>, c: Control, bus: seq<Bus<V, S>>,
                                     b: Bus<V, S>, next: Core<V, S>)
    requires IsRun(g, s, t, c, bus) && IsCore(s, t[|bus|]) && next == Cycle(g, s, t[|bus|], Driven(c, |bus|), b)
    ensures IsRun(g, s, t + [next], c, bus + [b])
  {
    forall j: nat | j < |bus| + 1 ensures Follows(g, s, t + [next], c, bus + [b], j) {
      if j < |bus| { assert Follows(g, s, t, c, bus, j); }
    }
  }

  lemma LastApart<T>(x: seq<T>)
    requires x != []
    ensures x[..|x| - 1] + [x[|x| - 1]] == x
  {
  }

  lemma {:induction false} TraceRuns<V(!new), S(!new)>(g: Algebra<V, S>, s: Stages, core: Core<V, S>, c: Control,
                                                       bus: seq<Bus<V, S>>)
    requires Quiet(s, core)
    ensures IsRun(g, s, Trace(g, s, core, c, bus), c, bus)
  {
    if bus != [] {
      var n := |bus| - 1;
      LastApart(bus);
      TraceRuns(g, s, core, c, bus[..n]);
      var before := Trace(g, s, core, c, bus[..n]);
      RunExtends(g, s, before, c, bus[..n], bus[n], Cycle(g, s, before[n], Driven(c, n), bus[n]));
    }
  }

  /** An instruction, and what the buses carry from its decoding until the next one's. */
  datatype Slot<V, S> = Slot(i: Instr, bus: seq<Bus<V, S>>)

  /** Instructions the core supports, spaced past the depth of the pipeline. */
  predicate IsProgram<V, S>(s: Stages, p: seq<Slot<V, S>>)
  {
    forall j :: 0 <= j < |p| ==> WellFormed(p[j].i) && |p[j].bus| >= Depth(s)
  }

  /** The core after a program. */
  function Ran<V, S>(g: Algebra<V, S>, s: Stages, core: Core<V, S>, p: seq<Slot<V, S>>): (r: Core<V, S>)
    requires IsCore(s, core)
    ensures IsCore(s, r)
  {
    if p == [] then core
    else
      var before := Ran(g, s, core, p[..|p| - 1]);
      var last := p[|p| - 1];
      Trace(g, s, before, Decode(last.i), last.bus)[|last.bus|]
  }

  /** A program on a core that reads register second(i) as the second operand of i, one instruction at a time. */
  function Stepwise<V, S>(g: Algebra<V, S>, s: Stages, r: Regs<V, S>, p: seq<Slot<V, S>>,
                          second: Instr -> nat): Regs<V, S>
    requires s.Valid() && IsProgram(s, p)
  {
    if p == [] then r
    else
      var last := p[|p| - 1];
      Executed(g, Stepwise(g, s, r, p[..|p| - 1], second), last.i, second(last.i), last.bus[Start(last.i)],
               last.bus[LateCycle(s, last.i)])
  }

  /** The instruction set: the second operand is the register that the instruction names. */
  function Interpreted<V, S>(g: Algebra<V, S>, s: Stages, r: Regs<V, S>, p: seq<Slot<V, S>>): Regs<V, S>
    requires s.Valid() && IsProgram(s, p)
  {
    Stepwise(g, s, r, p, (i: Instr) => i.SecondN())
  }

  lemma InstructionRefines<V(!new), S(!new)>(g: Algebra<V, S>, s: Stages, before: Core<V, S>, slot: Slot<V, S>)
    requires Quiet(s, before) && WellFormed(slot.i) && |slot.bus| >= Depth(s)
    ensures var after := Trace(g, s, before, Decode(slot.i), slot.bus)[|slot.bus|];
            && Quiet(s, after)
            && after.regs == Executed(g, before.regs, slot.i, BuiltSecond(slot.i), slot.bus[Start(slot.i)],
                                      slot.bus[LateCycle(s, slot.i)])
  {
    var t := Trace(g, s, before, Decode(slot.i), slot.bus);
    TraceRuns(g, s, before, Decode(slot.i), slot.bus);
    QuietAgain(g, s, t, Decode(slot.i), slot.bus, |slot.bus|);
    OneInstruction(g, s, t, slot.i, slot.bus, |slot.bus|);
  }

  /** Any program runs as the sequential machine with the operands the core reads, for any number of stages. */
  lemma {:induction false} PipelineRunsStepwise<V(!new), S(!new)>(g: Algebra<V, S>, s: Stages, core: Core<V, S>,
                                                                  p: seq<Slot<V, S>>)
    requires Quiet(s, core) && IsProgram(s, p)
    ensures Quiet(s, Ran(g, s, core, p)) && Ran(g, s, core, p).regs == Stepwise(g, s, core.regs, p, BuiltSecond)
  {
    if p != [] {
      var n := |p| - 1;
      PipelineRunsStepwise(g, s, core, p[..n]);
      InstructionRefines(g, s, Ran(g, s, core, p[..n]), p[n]);
    }
  }

  /** The exceptional family: a loading MAD whose second operand is a register of GRF_B other than register 0. */
  predicate Misported(i: Instr) { i.op == Mad && i.Loads() && i.src1 == GrfB && i.SecondN() != 0 }

  lemma {:induction false} StepwiseAlike<V, S>(g: Algebra<V, S>, s: Stages, r: Regs<V, S>, p: seq<Slot<V, S>>)
    requires s.Valid() && IsProgram(s, p) && forall j :: 0 <= j < |p| ==> !Misported(p[j].i)
    ensures Stepwise(g, s, r, p, BuiltSecond) == Interpreted(g, s, r, p)
  {
    if p != [] {
      var n := |p| - 1;
      StepwiseAlike(g, s, r, p[..n]);
      assert !Misported(p[n].i) && BuiltSecond(p[n].i) == p[n].i.SecondN();
    }
  }

  /** The pipeline implements the sequential instruction set, for any number of stages and any program without an
      instruction of the exceptional family. */
  lemma PipelineRefinesInterpreter<V(!new), S(!new)>(g: Algebra<V, S>, s: Stages, core: Core<V, S>, p: seq<Slot<V, S>>)
    requires Quiet(s, core) && IsProgram(s, p) && forall j :: 0 <= j < |p| ==> !Misported(p[j].i)
    ensures Quiet(s, Ran(g, s, core, p)) && Ran(g, s, core, p).regs == Interpreted(g, s, core.regs, p)
  {
    PipelineRunsStepwise(g, s, core, p);
    StepwiseAlike(g, s, core.regs, p);
  }

  /** A run of one instruction leaves the registers as the instruction set says. */
  ghost predicate MeetsIsa<V(!new), S(!new)>(g: Algebra<V, S>, s: Stages, i: Instr, t: seq<Core<V, S>>,
                                             bus: seq<Bus<V, S>>)
  {
    IsRun(g, s, t, Decode(i), bus) && Latency(s, i) < |bus| ==>
      t[|bus|].regs == Executed(g, t[0].regs, i, i.SecondN(), bus[Start(i)], bus[LateCycle(s, i)])
  }

  /** Every run of an instruction outside the family does. */
  lemma OthersMeetIsa<V(!new), S(!new)>(g: Algebra<V, S>, s: Stages, i: Instr, t: seq<Core<V, S>>, bus: seq<Bus<V, S>>)
    requires WellFormed(i) && !Misported(i)
    ensures MeetsIsa(g, s, i, t, bus)
  {
    if IsRun(g, s, t, Decode(i), bus) && Latency(s, i) < |bus| {
      OneInstruction(g, s, t, i, bus, |bus|);
      assert BuiltSecond(i) == i.SecondN();
    }
  }

  /** Operations that return their second operand. */
  function Seconds(): Algebra<int, int>
  {
    Algebra((x: int, y: int) => y, (x: int, y: int) => y, (x: int) => x, (x: int) => x, (x: int) => x, 0, 0)
  }

  /** With these operations and contents the result of a MAD is its second operand. */
  lemma OtherRegister(r: Regs<int, int>, i: Instr, bus: Bus<int, int>, late: Bus<int, int>)
    requires WellFormed(i) && Misported(i)
    requires |r.a| == |r.b| && i.SecondN() < |r.b| && i.TargetN() < |r.b| && r.b[0] == 0
             && r.b[i.SecondN()] == i.SecondN()
    ensures Executed(Seconds(), r, i, BuiltSecond(i), bus, late) != Executed(Seconds(), r, i, i.SecondN(), bus, late)
  {
    var g := Seconds();
    var m, built, named := i.TargetN(), Executed(g, r, i, BuiltSecond(i), bus, late),
      Executed(g, r, i, i.SecondN(), bus, late);
    if i.dst == GrfA {
      assert built.a[m] == 0 && named.a[m] == i.SecondN();
    } else {
      assert built.b[m] == 0 && named.b[m] == i.SecondN();
    }
  }

  /** And for every instruction inside it, every number of stages and register files of any sufficient size there is a
      run that does not. */
  lemma MisportedRunFails(s: Stages, i: Instr, size: nat)
    returns (g: Algebra<int, int>, t: seq<Core<int, int>>, bus: seq<Bus<int, int>>)
    requires s.Valid() && WellFormed(i) && Misported(i) && i.SecondN() < size && i.TargetN() < size
    ensures IsRun(g, s, t, Decode(i), bus) && Latency(s, i) < |bus| && |t[0].regs.a| == |t[0].regs.b| == size
    ensures !MeetsIsa(g, s, i, t, bus)
  {
    g := Seconds();
    var file := seq(size, k => k);
    var core := Core(NoPipes(s), seq(s.mult, _ => 0), seq(s.add, _ => 0), Regs(file, file, file, file));
    bus := seq(Depth(s), _ => Bus(0, 0, 0, 0));
    t := Trace(g, s, core, Decode(i), bus);
    TraceRuns(g, s, core, Decode(i), bus);
    OneInstruction(g, s, t, i, bus, |bus|);
    OtherRegister(core.regs, i, bus[Start(i)], bus[LateCycle(s, i)]);
  }

  /** So the core implements an instruction, in all its runs, exactly if it is outside the family. */
  lemma MeetsIsaExactly(s: Stages, i: Instr)
    requires s.Valid() && WellFormed(i)
    ensures (forall g: Algebra<int, int>, t, bus {:trigger MeetsIsa(g, s, i, t, bus)} :: MeetsIsa(g, s, i, t, bus)) <==>
              !Misported(i)
  {
    if Misported(i) {
      var g, t, bus := MisportedRunFails(s, i, i.SecondN() + i.TargetN() + 1);
      assert !MeetsIsa(g, s, i, t, bus);
    } else {
      forall g: Algebra<int, int>, t, bus ensures MeetsIsa(g, s, i, t, bus) {
        OthersMeetIsa(g, s, i, t, bus);
      }
    }
  }
}
