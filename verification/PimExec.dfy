/** Executing one instruction, and a stream of them, on the pipelined core. */
module PimExec {
  import opened PimControl
  import opened PimCore
  import opened PimPipeline
  import opened PimSchedule

  /** Nothing is in flight. */
  predicate Quiet<V, S>(s: Stages, core: Core<V, S>)
  {
    IsCore(s, core) && core.pipes == NoPipes(s)
  }

  ghost predicate Follows<V(!new), S(!new)>(g: Algebra<V, S>, s: Stages, t: seq<Core<V, S>>, c: Control,
                                            bus: seq<Bus<V, S>>, j: nat)
    requires |t| == |bus| + 1 && j < |bus|
  {
    IsCore(s, t[j]) && t[j + 1] == Cycle(g, s, t[j], Driven(c, j), bus[j])
  }

  /** t is a run of the core that starts quiet; c is driven in its first cycle, and nothing is decoded afterwards. */
  ghost predicate IsRun<V(!new), S(!new)>(g: Algebra<V, S>, s: Stages, t: seq<Core<V, S>>, c: Control,
                                          bus: seq<Bus<V, S>>)
  {
    && |t| == |bus| + 1 && Quiet(s, t[0])
    && forall j: nat {:trigger Follows(g, s, t, c, bus, j)} :: j < |bus| ==> Follows(g, s, t, c, bus, j)
  }

  lemma PipesFollow<V(!new), S(!new)>(g: Algebra<V, S>, s: Stages, t: seq<Core<V, S>>, c: Control, bus: seq<Bus<V, S>>,
                                      j: nat)
    requires IsRun(g, s, t, c, bus) && j < |bus|
    ensures IsCore(s, t[j]) && IsCore(s, t[j + 1]) && t[j + 1].pipes == Clocked(s, t[j].pipes, Driven(c, j))
  {
    assert Follows(g, s, t, c, bus, j);
  }

  lemma {:induction false} RunPipes<V(!new), S(!new)>(g: Algebra<V, S>, s: Stages, t: seq<Core<V, S>>, c: Control,
                                                      bus: seq<Bus<V, S>>, k: nat)
    requires IsRun(g, s, t, c, bus) && k < |t|
    ensures IsCore(s, t[k]) && t[k].pipes == PipesIn(s, c, k)
  {
    if k > 0 {
      RunPipes(g, s, t, c, bus, k - 1);
      PipesFollow(g, s, t, c, bus, k - 1);
      PipesStep(s, c, k - 1, k);
    }
  }

  /** What the data path sees in cycle k: out_method's disjunctions, signal by signal. */
  lemma Taps(s: Stages, c: Control, k: nat)
    requires s.Valid()
    ensures var p, d := PipesIn(s, c, k), Driven(c, k);
            && Or(d.rdA1.comb, p.rdA1[s.mult]) == RdSeen(s, c.rdA1, k)
            && Or(d.rdB1.comb, p.rdB1[s.mult]) == RdSeen(s, c.rdB1, k)
            && Or(d.rdS.comb, p.rdS[s.mult]) == RdSeen(s, c.rdS, k)
            && Or(d.rdSAnM.comb, p.rdSAnM[s.mult]) == RdSeen(s, c.rdSAnM, k)
            && Or(d.in1.comb, p.in1[s.mult]) == RdSeen(s, c.in1, k)
            && Or(d.in2.comb, p.in2[s.mult]) == RdSeen(s, c.in2, k)
            && Or(d.rdA2.comb, p.rdA2) == RegSeen(c.rdA2, k) && Or(d.rdB2.comb, p.rdB2) == RegSeen(c.rdB2, k)
            && Or(d.mul1.comb, p.mul1) == RegSeen(c.mul1, k) && Or(d.mul2.comb, p.mul2) == RegSeen(c.mul2, k)
  {
    if k == 0 {
      NothingMoves(s, 0);
    } else {
      RdTap(s, c.rdA1, k);
      RdTap(s, c.rdB1, k);
      RdTap(s, c.rdS, k);
      RdTap(s, c.rdSAnM, k);
      RdTap(s, c.in1, k);
      RdTap(s, c.in2, k);
    }
  }

  lemma WriteTaps(s: Stages, c: Control, k: nat)
    requires s.Valid()
    ensures var p, d, last := PipesIn(s, c, k), Driven(c, k), s.mult + s.add;
            && Or(d.enA.comb, p.enA[last]) == WrSeen(s, c.enA, k) && Or(d.enB.comb, p.enB[last]) == WrSeen(s, c.enB, k)
            && Or(d.addrA.comb, p.addrA[last]) == WrSeen(s, c.addrA, k)
            && Or(d.addrB.comb, p.addrB[last]) == WrSeen(s, c.addrB, k)
            && Or(d.fromA.comb, p.fromA[last]) == WrSeen(s, c.fromA, k)
            && Or(d.fromB.comb, p.fromB[last]) == WrSeen(s, c.fromB, k)
            && Or(d.reluA.comb, p.reluA) == RegSeen(c.reluA, k) && Or(d.reluB.comb, p.reluB) == RegSeen(c.reluB, k)
            && p.outSel[s.mult] == OutSeen(s, c, k)
  {
    if k == 0 {
      NothingMoves(s, 0);
    } else {
      WrTap(s, c.enA, k);
      WrTap(s, c.enB, k);
      WrTap(s, c.addrA, k);
      WrTap(s, c.addrB, k);
      WrTap(s, c.fromA, k);
      WrTap(s, c.fromB, k);
      OutTap(s, c, k);
    }
  }

  predicate Multiplies(i: Instr) { i.op == Mul || i.op == Mad || i.op == Mac }

  /** The control of a multiplication's operands. */
  function MulControl(i: Instr): Control
  {
    MulSecond(MulFirst(IDLE, i.src0, i.FirstN(), i.Loads()), i.src1, i.SecondN(), i.Loads(), i.op == Mad)
  }

  function Mul1Code(p: Place): nat
  {
    match p case GrfA => 0 case GrfB => 2 case EvenBank => 4 case OddBank => 5 case _ => 0
  }
  function Mul2Code(p: Place): nat
  {
    match p case SrfM => 0 case GrfA => 2 case GrfB => 4 case EvenBank => 5 case OddBank => 6 case _ => 0
  }

  lemma MulSignals(s: Stages, i: Instr)
    requires s.Valid() && WellFormed(i) && Multiplies(i)
    ensures var c, t := MulControl(i), Start(i);
            && RegSeen(c.mul1, t) == Mul1Code(i.src0) && RegSeen(c.mul2, t) == Mul2Code(i.src1)
            && (i.src0 == GrfA ==> RdSeen(s, c.rdA1, t) == i.FirstN())
            && (i.src0 == GrfB ==> RdSeen(s, c.rdB1, t) == i.FirstN())
            && (i.src1 == GrfA ==> RegSeen(c.rdA2, t) == i.SecondN())
            && (i.src1 == GrfB ==> RegSeen(c.rdB2, t) == BuiltSecond(i))
            && (i.src1 == SrfM ==> RdSeen(s, c.rdS, t) == i.SecondN() && RdSeen(s, c.rdSAnM, t) == 0)
  {
    EarlySeen(s, i, i.FirstN(), Start(i));
    EarlySeen(s, i, i.SecondN(), Start(i));
    EarlySeen(s, i, 0, Start(i));
    EarlySeen(s, i, Mul1Code(i.src0), Start(i));
    EarlySeen(s, i, Mul2Code(i.src1), Start(i));
  }

  /** An addend is read later, so it does not disturb the first operands. */
  lemma LateUnseen(s: Stages, i: Instr, x: Rd, v: nat)
    requires s.Valid()
    ensures RdSeen(s, Merged(x, Late(i.Loads(), v)), Start(i)) == RdSeen(s, x, Start(i))
  {
  }

  /** Two controls whose multiplication signals are seen alike in the first cycle. */
  predicate SameOperands(s: Stages, i: Instr, c: Control, m: Control)
  {
    var t := Start(i);
    && c.mul1 == m.mul1 && c.mul2 == m.mul2 && c.rdA2 == m.rdA2 && c.rdB2 == m.rdB2
    && RdSeen(s, c.rdA1, t) == RdSeen(s, m.rdA1, t) && RdSeen(s, c.rdB1, t) == RdSeen(s, m.rdB1, t)
    && RdSeen(s, c.rdS, t) == RdSeen(s, m.rdS, t) && RdSeen(s, c.rdSAnM, t) == RdSeen(s, m.rdSAnM, t)
  }

  lemma AddendUnseen(s: Stages, i: Instr, m: Control, p: Place, n: nat)
    requires s.Valid()
    ensures SameOperands(s, i, Addend(m, p, n, i.Loads()), m)
  {
    LateUnseen(s, i, m.rdA1, n);
    LateUnseen(s, i, m.rdB1, n);
    LateUnseen(s, i, m.rdS, n);
    LateUnseen(s, i, m.rdSAnM, 1);
  }

  lemma TargetUnseen(s: Stages, i: Instr, c: Control, op: Op, p: Place, n: nat, load: bool, from: nat)
    ensures SameOperands(s, i, Target(c, op, p, n, load, from), c)
  {
  }

  lemma DecodedMul(s: Stages, i: Instr)
    requires s.Valid() && WellFormed(i) && Multiplies(i)
    ensures SameOperands(s, i, Decode(i), MulControl(i))
  {
    var m, load := MulControl(i), i.Loads();
    if i.op == Mul {
      var c := if load then m.(mulToMoAAftLoad := 1, outFromMulAftLoad := 1) else m.(mulToMoA := 1, outFromMul := 1);
      TargetUnseen(s, i, c, Mul, i.dst, i.TargetN(), load, MUX_FPU);
    } else {
      var p := if i.op == Mad then i.src2 else GrfB;
      var d := Addend(m, p, i.AddendN(), load);
      AddendUnseen(s, i, m, p, i.AddendN());
      var c := if load then d.(mulToMoAAftLoad := 1, addToAddAftLoad := 1) else d.(mulToMoA := 1, addToAdd := 1);
      TargetUnseen(s, i, c, i.op, i.dst, i.TargetN(), load, MUX_FPU);
      assert Decode(i) == Target(c, i.op, i.dst, i.TargetN(), load, MUX_FPU);
    }
  }

  lemma FirstOperand<V, S>(g: Algebra<V, S>, w: Wires<V, S>, r: Regs<V, S>, bus: Bus<V, S>, i: Instr)
    requires WellFormed(i) && Multiplies(i)
    requires (i.src0 == GrfA ==> w.a1 == Port(r.a, i.FirstN(), g.zeroV))
             && (i.src0 == GrfB ==> w.b1 == Port(r.b, i.FirstN(), g.zeroV))
    ensures MulIn1(w, bus, Mul1Code(i.src0)) == Operand(g, r, bus, i.src0, i.FirstN())
  {
  }

  lemma SecondOperand<V, S>(g: Algebra<V, S>, w: Wires<V, S>, r: Regs<V, S>, bus: Bus<V, S>, i: Instr)
    requires WellFormed(i) && Multiplies(i)
    requires i.src1 == GrfA ==> w.a2 == Port(r.a, BuiltSecond(i), g.zeroV)
    requires i.src1 == GrfB ==> w.b2 == Port(r.b, BuiltSecond(i), g.zeroV)
    requires i.src1 == SrfM ==> w.srf == Port(r.m, BuiltSecond(i), g.zeroS)
    ensures MulIn2(g, w, bus, Mul2Code(i.src1)) == Operand(g, r, bus, i.src1, BuiltSecond(i))
  {
  }

  /** In the first cycle of a multiplication its inputs are the instruction's operands. */
  lemma MulOperands<V, S>(g: Algebra<V, S>, s: Stages, k: Core<V, S>, i: Instr, bus: Bus<V, S>)
    requires IsCore(s, k) && WellFormed(i) && Multiplies(i) && k.pipes == PipesIn(s, Decode(i), Start(i))
    ensures var c := Driven(Decode(i), Start(i));
            Multiplied(g, k, Read(g, s, k, c), c, bus) ==
            g.mul(Operand(g, k.regs, bus, i.src0, i.FirstN()), Operand(g, k.regs, bus, i.src1, BuiltSecond(i)))
  {
    var c, t := Decode(i), Start(i);
    Taps(s, c, t);
    MulSignals(s, i);
    DecodedMul(s, i);
    var w := Read(g, s, k, Driven(c, t));
    FirstOperand(g, w, k.regs, bus, i);
    SecondOperand(g, w, k.regs, bus, i);
  }

  function AddCode(p: Place, second: bool): nat
  {
    match p
    case SrfA => 1
    case GrfA => if second then 3 else 2
    case GrfB => if second then 5 else 4
    case EvenBank => 6
    case OddBank => 7
    case _ => 0
  }

  lemma AddSignals(s: Stages, i: Instr)
    requires s.Valid() && WellFormed(i) && i.op == Add
    ensures var c, t := Decode(i), Start(i);
            && RdSeen(s, c.in1, t) == AddCode(i.src0, false) && RdSeen(s, c.in2, t) == AddCode(i.src1, true)
            && (i.src0 == GrfA ==> RdSeen(s, c.rdA1, t) == i.FirstN())
            && (i.src0 == GrfB ==> RdSeen(s, c.rdB1, t) == i.FirstN())
            && (i.src1 == GrfA ==> RegSeen(c.rdA2, t) == i.SecondN())
            && (i.src1 == GrfB ==> RegSeen(c.rdB2, t) == i.SecondN())
            && (i.src0 == SrfA ==> RdSeen(s, c.rdS, t) == i.FirstN() && RdSeen(s, c.rdSAnM, t) == 1)
            && (i.src1 == SrfA ==> RdSeen(s, c.rdS, t) == i.SecondN() && RdSeen(s, c.rdSAnM, t) == 1)
  {
    EarlySeen(s, i, i.FirstN(), Start(i));
    EarlySeen(s, i, i.SecondN(), Start(i));
    EarlySeen(s, i, 1, Start(i));
    EarlySeen(s, i, AddCode(i.src0, false), Start(i));
    EarlySeen(s, i, AddCode(i.src1, true), Start(i));
  }

  lemma AddOperand<V, S>(g: Algebra<V, S>, w: Wires<V, S>, r: Regs<V, S>, bus: Bus<V, S>, p: Place, n: nat,
                         second: bool, other: V)
    requires p != SrfM
    requires p == GrfA ==> (if second then w.a2 else w.a1) == Port(r.a, n, g.zeroV)
    requires p == GrfB ==> (if second then w.b2 else w.b1) == Port(r.b, n, g.zeroV)
    requires p == SrfA ==> w.srf == Port(r.s, n, g.zeroS)
    ensures AddIn(g, w, bus, AddCode(p, second), other) == Operand(g, r, bus, p, n)
  {
  }

  /** In the first cycle of an addition its inputs are the instruction's operands. */
  lemma AddOperands<V, S>(g: Algebra<V, S>, s: Stages, k: Core<V, S>, i: Instr, bus: Bus<V, S>)
    requires IsCore(s, k) && WellFormed(i) && i.op == Add && k.pipes == PipesIn(s, Decode(i), Start(i))
    ensures var c := Driven(Decode(i), Start(i));
            Added(g, s, k, Read(g, s, k, c), c, bus) ==
            g.add(Operand(g, k.regs, bus, i.src0, i.FirstN()), Operand(g, k.regs, bus, i.src1, i.SecondN()))
  {
    var c, t := Decode(i), Start(i);
    Taps(s, c, t);
    AddSignals(s, i);
    var w := Read(g, s, k, Driven(c, t));
    AddOperand(g, w, k.regs, bus, i.src0, i.FirstN(), false, w.mulOut);
    AddOperand(g, w, k.regs, bus, i.src1, i.SecondN(), true, g.splat(w.srf));
  }

  predicate Accumulates(i: Instr) { i.op == Mad || i.op == Mac }

  /** The place of the addend. */
  function AddendPlace(i: Instr): Place { if i.op == Mad then i.src2 else i.dst }

  /** The cycle in which the product meets the addend. */
  function Meeting(s: Stages, i: Instr): nat { Start(i) + s.mult }

  /** Nothing but a first operand has been asked for. */
  predicate EarlyOnly(i: Instr, x: Rd)
  {
    x.toAddAftLoad == 0 && x.toAdd == 0 && if i.Loads() then x.comb == 0 else x.toMAWAftLoad == 0
  }

  lemma EarlyUnseen(s: Stages, i: Instr, x: Rd, v: nat)
    requires s.Valid() && EarlyOnly(i, x)
    ensures RdSeen(s, x, Meeting(s, i)) == 0
    ensures RdSeen(s, Merged(x, Late(i.Loads(), v)), Meeting(s, i)) == v
    ensures RdSeen(s, Late(i.Loads(), v), Meeting(s, i)) == v
  {
  }

  predicate SeesAddend(s: Stages, i: Instr, c: Control)
  {
    var t, p := Meeting(s, i), AddendPlace(i);
    && RdSeen(s, c.in1, t) == AddCode(p, false) && RdSeen(s, c.in2, t) == 0
    && (p == GrfA ==> RdSeen(s, c.rdA1, t) == i.AddendN()) && (p == GrfB ==> RdSeen(s, c.rdB1, t) == i.AddendN())
    && (p == SrfA ==> RdSeen(s, c.rdS, t) == i.AddendN() && RdSeen(s, c.rdSAnM, t) == 1)
  }

  /** No control asks the adder for anything, or any file for a late read. */
  predicate ReadsEarly(i: Instr, m: Control)
  {
    m.in1 == m.in2 == NO_RD && EarlyOnly(i, m.rdA1) && EarlyOnly(i, m.rdB1) && EarlyOnly(i, m.rdS)
    && EarlyOnly(i, m.rdSAnM)
  }

  lemma AddendSeen(s: Stages, i: Instr, m: Control)
    requires s.Valid() && WellFormed(i) && Accumulates(i) && ReadsEarly(i, m)
    ensures SeesAddend(s, i, Addend(m, AddendPlace(i), i.AddendN(), i.Loads()))
  {
    EarlyUnseen(s, i, m.rdA1, i.AddendN());
    EarlyUnseen(s, i, m.rdB1, i.AddendN());
    EarlyUnseen(s, i, m.rdS, i.AddendN());
    EarlyUnseen(s, i, m.rdSAnM, 1);
    EarlyUnseen(s, i, NO_RD, AddCode(AddendPlace(i), false));
  }

  lemma SecondReadsEarly(i: Instr, c: Control, p: Place, n: nat, mad: bool)
    requires ReadsEarly(i, c)
    ensures ReadsEarly(i, MulSecond(c, p, n, i.Loads(), mad))
  {
  }

  lemma MulReadsEarly(i: Instr)
    ensures ReadsEarly(i, MulControl(i))
  {
    var first := MulFirst(IDLE, i.src0, i.FirstN(), i.Loads());
    assert ReadsEarly(i, first);
    SecondReadsEarly(i, first, i.src1, i.SecondN(), i.op == Mad);
  }

  lemma TargetKeepsAddend(s: Stages, i: Instr, c: Control, op: Op, p: Place, n: nat, load: bool, from: nat)
    ensures SeesAddend(s, i, Target(c, op, p, n, load, from)) == SeesAddend(s, i, c)
  {
  }

  lemma AddendSignals(s: Stages, i: Instr)
    requires s.Valid() && WellFormed(i) && Accumulates(i)
    ensures SeesAddend(s, i, Decode(i))
  {
    var m, load := MulControl(i), i.Loads();
    MulReadsEarly(i);
    AddendSeen(s, i, m);
    var d := Addend(m, AddendPlace(i), i.AddendN(), load);
    var c := if load then d.(mulToMoAAftLoad := 1, addToAddAftLoad := 1) else d.(mulToMoA := 1, addToAdd := 1);
    assert SeesAddend(s, i, c) == SeesAddend(s, i, d);
    TargetKeepsAddend(s, i, c, i.op, i.dst, i.TargetN(), load, MUX_FPU);
    assert Decode(i) == Target(c, i.op, i.dst, i.TargetN(), load, MUX_FPU);
  }

  lemma AddendAtPorts<V, S>(g: Algebra<V, S>, s: Stages, k: Core<V, S>, i: Instr, d: Control)
    requires IsCore(s, k) && WellFormed(i) && Accumulates(i) && k.pipes == PipesIn(s, Decode(i), Meeting(s, i))
    requires d == Driven(Decode(i), Meeting(s, i))
    ensures var p := AddendPlace(i);
            var w := Read(g, s, k, d);
            && Or(d.in1.comb, k.pipes.in1[s.mult]) == AddCode(p, false) && Or(d.in2.comb, k.pipes.in2[s.mult]) == 0
            && (p == GrfA ==> w.a1 == Port(k.regs.a, i.AddendN(), g.zeroV))
            && (p == GrfB ==> w.b1 == Port(k.regs.b, i.AddendN(), g.zeroV))
            && (p == SrfA ==> w.srf == Port(k.regs.s, i.AddendN(), g.zeroS))
  {
    Taps(s, Decode(i), Meeting(s, i));
    AddendSignals(s, i);
  }

  lemma AddendIn<V, S>(g: Algebra<V, S>, s: Stages, k: Core<V, S>, i: Instr, d: Control, bus: Bus<V, S>)
    requires IsCore(s, k) && WellFormed(i) && Accumulates(i) && k.pipes == PipesIn(s, Decode(i), Meeting(s, i))
    requires d == Driven(Decode(i), Meeting(s, i))
    ensures var w := Read(g, s, k, d);
            AddIn(g, w, bus, AddCode(AddendPlace(i), false), w.mulOut) ==
              Operand(g, k.regs, bus, AddendPlace(i), i.AddendN())
  {
    var w := Read(g, s, k, d);
    AddendAtPorts(g, s, k, i, d);
    AddOperand(g, w, k.regs, bus, AddendPlace(i), i.AddendN(), false, w.mulOut);
  }

  /** When the product comes out of the multiplier, the addend is at the other input of the adder. */
  lemma AddendOperands<V, S>(g: Algebra<V, S>, s: Stages, k: Core<V, S>, i: Instr, bus: Bus<V, S>)
    requires IsCore(s, k) && WellFormed(i) && Accumulates(i) && k.pipes == PipesIn(s, Decode(i), Meeting(s, i))
    ensures var c := Driven(Decode(i), Meeting(s, i));
            Added(g, s, k, Read(g, s, k, c), c, bus) ==
            g.add(Operand(g, k.regs, bus, AddendPlace(i), i.AddendN()), k.mul[s.mult - 1])
  {
    AddendAtPorts(g, s, k, i, Driven(Decode(i), Meeting(s, i)));
    AddendIn(g, s, k, i, Driven(Decode(i), Meeting(s, i)), bus);
  }

  /** What the multiplier and the adder are given in a cycle. */
  function MulInput<V, S>(g: Algebra<V, S>, s: Stages, now: Core<V, S>, c: Control, bus: Bus<V, S>, k: nat): V
    requires IsCore(s, now)
  {
    Multiplied(g, now, Read(g, s, now, Driven(c, k)), Driven(c, k), bus)
  }

  function AddInput<V, S>(g: Algebra<V, S>, s: Stages, now: Core<V, S>, c: Control, bus: Bus<V, S>, k: nat): V
    requires IsCore(s, now)
  {
    Added(g, s, now, Read(g, s, now, Driven(c, k)), Driven(c, k), bus)
  }

  lemma DataFollow<V(!new), S(!new)>(g: Algebra<V, S>, s: Stages, t: seq<Core<V, S>>, c: Control, bus: seq<Bus<V, S>>,
                                     j: nat)
    requires IsRun(g, s, t, c, bus) && j < |bus|
    ensures IsCore(s, t[j]) && IsCore(s, t[j + 1])
    ensures t[j + 1].mul == Pushed(t[j].mul, MulSeen(s, c, j), MulInput(g, s, t[j], c, bus[j], j))
    ensures t[j + 1].add == Pushed(t[j].add, AddSeen(s, c, j), AddInput(g, s, t[j], c, bus[j], j))
  {
    RunPipes(g, s, t, c, bus, j);
    assert Follows(g, s, t, c, bus, j);
  }

  lemma DataShifts<V(!new), S(!new)>(g: Algebra<V, S>, s: Stages, t: seq<Core<V, S>>, c: Control, bus: seq<Bus<V, S>>,
                                     j: nat, n: nat)
    requires IsRun(g, s, t, c, bus) && j < |bus| && n >= 1
    ensures IsCore(s, t[j]) && IsCore(s, t[j + 1])
    ensures MulSeen(s, c, j) && n < s.mult ==> t[j + 1].mul[n] == t[j].mul[n - 1]
    ensures AddSeen(s, c, j) && n < s.add ==> t[j + 1].add[n] == t[j].add[n - 1]
  {
    DataFollow(g, s, t, c, bus, j);
  }

  /** What has entered an enabled pipeline comes out after as many cycles as it has stages. */
  lemma {:induction false} MulTravels<V(!new), S(!new)>(g: Algebra<V, S>, s: Stages, t: seq<Core<V, S>>, c: Control,
                                                        bus: seq<Bus<V, S>>,
                                                       k: nat, n: nat, end: nat, x: V)
    requires IsRun(g, s, t, c, bus) && end == k + n < |t| && 1 <= n <= s.mult && IsCore(s, t[k + 1])
             && t[k + 1].mul[0] == x
    requires forall j: nat :: k < j < end ==> MulSeen(s, c, j)
    ensures IsCore(s, t[end]) && t[end].mul[n - 1] == x
  {
    if n > 1 {
      MulTravels(g, s, t, c, bus, k, n - 1, end - 1, x);
      DataShifts(g, s, t, c, bus, end - 1, n - 1);
    }
  }

  lemma {:induction false} AddTravels<V(!new), S(!new)>(g: Algebra<V, S>, s: Stages, t: seq<Core<V, S>>, c: Control,
                                                        bus: seq<Bus<V, S>>,
                                                       k: nat, n: nat, end: nat, x: V)
    requires IsRun(g, s, t, c, bus) && end == k + n < |t| && 1 <= n <= s.add && IsCore(s, t[k + 1])
             && t[k + 1].add[0] == x
    requires forall j: nat :: k < j < end ==> AddSeen(s, c, j)
    ensures IsCore(s, t[end]) && t[end].add[n - 1] == x
  {
    if n > 1 {
      AddTravels(g, s, t, c, bus, k, n - 1, end - 1, x);
      DataShifts(g, s, t, c, bus, end - 1, n - 1);
    }
  }

  /** No write signal is seen in cycle k. */
  predicate Silent(s: Stages, c: Control, k: nat)
  {
    WrSeen(s, c.enA, k) == 0 && WrSeen(s, c.enB, k) == 0 && (k == 0 ==> c.srfEn == 0)
  }

  lemma NothingStored<V, S>(g: Algebra<V, S>, s: Stages, k: Core<V, S>, w: Wires<V, S>, c: Control, bus: Bus<V, S>)
    requires IsCore(s, k) && c.srfEn == 0
    requires Or(c.enA.comb, k.pipes.enA[s.mult + s.add]) == 0 && Or(c.enB.comb, k.pipes.enB[s.mult + s.add]) == 0
    ensures Stored(g, s, k, w, c, bus) == k.regs
  {
  }

  lemma SilentKeeps<V(!new), S(!new)>(g: Algebra<V, S>, s: Stages, t: seq<Core<V, S>>, c: Control, bus: seq<Bus<V, S>>,
                                      k: nat)
    requires IsRun(g, s, t, c, bus) && k < |bus| && Silent(s, c, k)
    ensures t[k + 1].regs == t[k].regs
  {
    RunPipes(g, s, t, c, bus, k);
    assert Follows(g, s, t, c, bus, k);
    WriteTaps(s, c, k);
    NothingStored(g, s, t[k], Read(g, s, t[k], Driven(c, k)), Driven(c, k), bus[k]);
  }

  lemma {:induction false} SilentUntil<V(!new), S(!new)>(g: Algebra<V, S>, s: Stages, t: seq<Core<V, S>>, c: Control,
                                                         bus: seq<Bus<V, S>>,
                                                        k: nat, end: nat)
    requires IsRun(g, s, t, c, bus) && k <= end < |t| && forall j: nat :: k <= j < end ==> Silent(s, c, j)
    ensures t[end].regs == t[k].regs
    decreases end
  {
    if k < end {
      SilentUntil(g, s, t, c, bus, k, end - 1);
      SilentKeeps(g, s, t, c, bus, end - 1);
    }
  }

  predicate NoWrites(c: Control)
  {
    c.enA == c.enB == NO_WR && c.reluA == c.reluB == NO_REG && c.srfEn == 0
  }

  lemma OperandsWriteNothing(i: Instr, c: Control, p: Place, n: nat, load: bool)
    requires NoWrites(c)
    ensures NoWrites(MulControl(i)) && NoWrites(Addend(c, p, n, load))
    ensures NoWrites(AddSecond(AddFirst(IDLE, i.src0, i.FirstN(), i.Loads()), i.src1, i.SecondN(), i.Loads()))
  {
  }

  /** The write side of an arithmetic instruction. */
  predicate WritesResult(i: Instr, c: Control)
  {
    var load := i.Loads();
    && c.enA == (if i.dst == GrfA then Emerging(i.op, load, 1) else NO_WR)
    && c.enB == (if i.dst == GrfB then Emerging(i.op, load, 1) else NO_WR)
    && (i.dst == GrfA ==> c.addrA == Emerging(i.op, load, i.TargetN()) && c.fromA == Emerging(i.op, load, MUX_FPU))
    && (i.dst == GrfB ==> c.addrB == Emerging(i.op, load, i.TargetN()) && c.fromB == Emerging(i.op, load, MUX_FPU))
    && c.reluA == c.reluB == NO_REG && c.srfEn == 0
  }

  lemma TargetWrites(i: Instr, c: Control)
    requires NoWrites(c)
    ensures WritesResult(i, Target(c, i.op, i.dst, i.TargetN(), i.Loads(), MUX_FPU))
  {
  }

  lemma DecodedWrites(i: Instr)
    requires WellFormed(i) && i.op != Mov
    ensures WritesResult(i, Decode(i))
  {
    var load := i.Loads();
    if i.op == Add {
      var c := AddSecond(AddFirst(IDLE, i.src0, i.FirstN(), load), i.src1, i.SecondN(), load);
      OperandsWriteNothing(i, IDLE, GrfA, 0, load);
      TargetWrites(i, if load then c.(addToMoAAftLoad := 1) else c.(addToMoA := 1));
    } else if i.op == Mul {
      var m := MulControl(i);
      OperandsWriteNothing(i, IDLE, GrfA, 0, load);
      TargetWrites(i, if load then m.(mulToMoAAftLoad := 1, outFromMulAftLoad := 1)
                   else m.(mulToMoA := 1, outFromMul := 1));
    } else {
      OperandsWriteNothing(i, IDLE, GrfA, 0, load);
      OperandsWriteNothing(i, MulControl(i), AddendPlace(i), i.AddendN(), load);
      var d := Addend(MulControl(i), AddendPlace(i), i.AddendN(), load);
      var c := if load then d.(mulToMoAAftLoad := 1, addToAddAftLoad := 1) else d.(mulToMoA := 1, addToAdd := 1);
      TargetWrites(i, c);
      assert Decode(i) == Target(c, i.op, i.dst, i.TargetN(), load, MUX_FPU);
    }
  }

  predicate SameEnables(c: Control, d: Control)
  {
    && c.mulToMoAAftLoad == d.mulToMoAAftLoad && c.mulToMoA == d.mulToMoA
    && c.addToMoAAftLoad == d.addToMoAAftLoad && c.addToMoA == d.addToMoA
    && c.addToAddAftLoad == d.addToAddAftLoad && c.addToAdd == d.addToAdd
    && c.outFromMulAftLoad == d.outFromMulAftLoad && c.outFromMul == d.outFromMul
  }

  lemma MovedEnables(i: Instr)
    ensures SameEnables(DecodeMov(i), IDLE)
  {
  }

  lemma OperandKeepsEnables(c: Control, p: Place, n: nat, load: bool, mad: bool)
    ensures SameEnables(AddFirst(c, p, n, load), c) && SameEnables(AddSecond(c, p, n, load), c)
    ensures SameEnables(MulFirst(c, p, n, load), c) && SameEnables(MulSecond(c, p, n, load, mad), c)
            && SameEnables(Addend(c, p, n, load), c)
  {
  }

  lemma TargetKeepsEnables(c: Control, op: Op, p: Place, n: nat, load: bool, from: nat)
    ensures SameEnables(Target(c, op, p, n, load, from), c)
  {
  }

  /** The enables and the output select that an instruction drives, and no others. */
  lemma DecodedEnables(i: Instr)
    requires WellFormed(i)
    ensures var c, load := Decode(i), i.Loads();
            && c.mulToMoAAftLoad == When(Multiplies(i) && load, 1) && c.mulToMoA == When(Multiplies(i) && !load, 1)
            && c.addToMoAAftLoad == When(i.op == Add && load, 1) && c.addToMoA == When(i.op == Add && !load, 1)
            && c.addToAddAftLoad == When(Accumulates(i) && load, 1) && c.addToAdd == When(Accumulates(i) && !load, 1)
            && c.outFromMulAftLoad == When(i.op == Mul && load, 1) && c.outFromMul == When(i.op == Mul && !load, 1)
  {
    var load := i.Loads();
    if i.op == Mov {
      MovedEnables(i);
    } else if i.op == Add {
      var a := AddFirst(IDLE, i.src0, i.FirstN(), load);
      OperandKeepsEnables(IDLE, i.src0, i.FirstN(), load, false);
      OperandKeepsEnables(a, i.src1, i.SecondN(), load, false);
      var c := AddSecond(a, i.src1, i.SecondN(), load);
      TargetKeepsEnables(if load then c.(addToMoAAftLoad := 1) else c.(addToMoA := 1), Add, i.dst, i.TargetN(), load,
                         MUX_FPU);
    } else {
      var mad := i.op == Mad;
      var m := MulFirst(IDLE, i.src0, i.FirstN(), load);
      OperandKeepsEnables(IDLE, i.src0, i.FirstN(), load, mad);
      OperandKeepsEnables(m, i.src1, i.SecondN(), load, mad);
      var c := MulSecond(m, i.src1, i.SecondN(), load, mad);
      if i.op == Mul {
        TargetKeepsEnables(if load then c.(mulToMoAAftLoad := 1, outFromMulAftLoad := 1)
                           else c.(mulToMoA := 1, outFromMul := 1), Mul, i.dst, i.TargetN(), load, MUX_FPU);
      } else {
        OperandKeepsEnables(c, AddendPlace(i), i.AddendN(), load, mad);
        var d := Addend(c, AddendPlace(i), i.AddendN(), load);
        TargetKeepsEnables(if load then d.(mulToMoAAftLoad := 1, addToAddAftLoad := 1)
                           else d.(mulToMoA := 1, addToAdd := 1), i.op, i.dst, i.TargetN(), load, MUX_FPU);
      }
    }
  }

  /** The output select shows the product in the cycle of a multiplication's latency, the sum otherwise. */
  lemma OutputSelected(s: Stages, i: Instr)
    requires s.Valid() && WellFormed(i) && i.op != Mov
    ensures OutSeen(s, Decode(i), Latency(s, i)) == if i.op == Mul then 1 else 0
  {
    DecodedEnables(i);
  }

  /** Nothing is written before or after the cycle of the latency. */
  lemma SilentElsewhere(s: Stages, i: Instr, k: nat)
    requires s.Valid() && WellFormed(i) && i.op != Mov && k != Latency(s, i)
    ensures Silent(s, Decode(i), k)
  {
    DecodedWrites(i);
    EmergesOnce(s, i, 1, k);
    MergedSeen(s, i, 0, 0, k);
  }

  /** A multiplication holds the multiplier enabled for exactly as many cycles as it has stages, any other instruction
      for none. */
  lemma MulRuns(s: Stages, i: Instr, j: nat)
    requires s.Valid() && WellFormed(i)
    ensures MulSeen(s, Decode(i), j) <==> Multiplies(i) && Start(i) <= j < Start(i) + s.mult
  {
    DecodedEnables(i);
    MulEnabled(s, Decode(i), j);
  }

  /** When the adder starts on an instruction. */
  function AddStart(s: Stages, i: Instr): nat { if Accumulates(i) then Meeting(s, i) else Start(i) }

  /** And an addition the adder, from the cycle its operands are there. */
  lemma AddRuns(s: Stages, i: Instr, j: nat)
    requires s.Valid() && WellFormed(i)
    ensures AddSeen(s, Decode(i), j) <==>
              (i.op == Add || Accumulates(i)) && AddStart(s, i) <= j < AddStart(s, i) + s.add
  {
    DecodedEnables(i);
    AddEnabled(s, Decode(i), j);
  }

  lemma ProductTravels<V(!new), S(!new)>(g: Algebra<V, S>, s: Stages, t: seq<Core<V, S>>, c: Control,
                                         bus: seq<Bus<V, S>>, k: nat, end: nat, x: V)
    requires IsRun(g, s, t, c, bus) && end == k + s.mult < |t| && forall j: nat :: k <= j < end ==> MulSeen(s, c, j)
    requires s.mult >= 1 && IsCore(s, t[k]) && x == MulInput(g, s, t[k], c, bus[k], k)
    ensures IsCore(s, t[end]) && t[end].mul[s.mult - 1] == x
  {
    DataFollow(g, s, t, c, bus, k);
    assert t[k + 1].mul[0] == x;
    MulTravels(g, s, t, c, bus, k, s.mult, end, x);
  }

  /** The product of the operands comes out of the multiplier mult cycles after they were read. */
  lemma ProductReady<V(!new), S(!new)>(g: Algebra<V, S>, s: Stages, t: seq<Core<V, S>>, i: Instr, bus: seq<Bus<V, S>>)
    requires IsRun(g, s, t, Decode(i), bus) && WellFormed(i) && Multiplies(i) && Meeting(s, i) < |t|
    requires t[Start(i)].regs == t[0].regs
    ensures var k := Meeting(s, i);
            && IsCore(s, t[k])
            && t[k].mul[s.mult - 1] ==
               g.mul(Operand(g, t[0].regs, bus[Start(i)], i.src0, i.FirstN()),
                     Operand(g, t[0].regs, bus[Start(i)], i.src1, BuiltSecond(i)))
  {
    var k := Start(i);
    RunPipes(g, s, t, Decode(i), bus, k);
    MulOperands(g, s, t[k], i, bus[k]);
    forall j: nat | k <= j < k + s.mult ensures MulSeen(s, Decode(i), j) { MulRuns(s, i, j); }
    ProductTravels(g, s, t, Decode(i), bus, k, Meeting(s, i), MulInput(g, s, t[k], Decode(i), bus[k], k));
  }

  /** The bus value a late addend would be read from. */
  function LateCycle(s: Stages, i: Instr): nat { if Accumulates(i) then Meeting(s, i) else Start(i) }

  /** What an arithmetic instruction computes. */
  function Result<V, S>(g: Algebra<V, S>, r: Regs<V, S>, i: Instr, bus: Bus<V, S>, late: Bus<V, S>): V
  {
    var x, y := Operand(g, r, bus, i.src0, i.FirstN()), Operand(g, r, bus, i.src1, BuiltSecond(i));
    match i.op
    case Mul => g.mul(x, y)
    case Add => g.add(x, y)
    case _ => g.add(Operand(g, r, late, AddendPlace(i), i.AddendN()), g.mul(x, y))
  }

  /** What the adder is given when it starts. */
  lemma SumStarts<V(!new), S(!new)>(g: Algebra<V, S>, s: Stages, t: seq<Core<V, S>>, i: Instr, bus: seq<Bus<V, S>>)
    requires IsRun(g, s, t, Decode(i), bus) && WellFormed(i) && (i.op == Add || Accumulates(i))
             && AddStart(s, i) < |bus|
    requires t[Start(i)].regs == t[0].regs && t[AddStart(s, i)].regs == t[0].regs
    ensures var k := AddStart(s, i);
            IsCore(s, t[k]) && AddInput(g, s, t[k], Decode(i), bus[k], k) ==
              Result(g, t[0].regs, i, bus[Start(i)], bus[LateCycle(s, i)])
  {
    var k := AddStart(s, i);
    RunPipes(g, s, t, Decode(i), bus, k);
    if i.op == Add {
      AddOperands(g, s, t[k], i, bus[k]);
    } else {
      ProductReady(g, s, t, i, bus);
      AddendOperands(g, s, t[k], i, bus[k]);
    }
  }

  lemma SumEnters<V(!new), S(!new)>(g: Algebra<V, S>, s: Stages, t: seq<Core<V, S>>, c: Control, bus: seq<Bus<V, S>>,
                                    k: nat, x: V)
    requires IsRun(g, s, t, c, bus) && k < |bus| && AddSeen(s, c, k) && IsCore(s, t[k])
             && x == AddInput(g, s, t[k], c, bus[k], k)
    ensures IsCore(s, t[k + 1]) && t[k + 1].add[0] == x
  {
    DataFollow(g, s, t, c, bus, k);
  }

  lemma SumTravels<V(!new), S(!new)>(g: Algebra<V, S>, s: Stages, t: seq<Core<V, S>>, c: Control, bus: seq<Bus<V, S>>,
                                     k: nat, end: nat, x: V)
    requires IsRun(g, s, t, c, bus) && end == k + s.add < |t| && forall j: nat :: k <= j < end ==> AddSeen(s, c, j)
    requires s.add >= 1 && IsCore(s, t[k]) && x == AddInput(g, s, t[k], c, bus[k], k)
    ensures IsCore(s, t[end]) && t[end].add[s.add - 1] == x
  {
    SumEnters(g, s, t, c, bus, k, x);
    AddTravels(g, s, t, c, bus, k, s.add, end, x);
  }

  lemma SumReady<V(!new), S(!new)>(g: Algebra<V, S>, s: Stages, t: seq<Core<V, S>>, c: Control, i: Instr,
                                   bus: seq<Bus<V, S>>, k: nat, x: V)
    requires c == Decode(i) && IsRun(g, s, t, c, bus) && WellFormed(i) && (i.op == Add || Accumulates(i))
             && Latency(s, i) < |t|
    requires k == AddStart(s, i) && IsCore(s, t[k]) && x == AddInput(g, s, t[k], c, bus[k], k)
    ensures IsCore(s, t[Latency(s, i)]) && t[Latency(s, i)].add[s.add - 1] == x
  {
    forall j: nat | k <= j < k + s.add ensures AddSeen(s, c, j) { AddRuns(s, i, j); }
    SumTravels(g, s, t, c, bus, k, Latency(s, i), x);
  }
}
