/** The instruction set by its fields: the registers it names, and what it leaves in them (instr_decoder.cpp). */
module PimIsa {
  import opened PimControl
  import opened PimCore
  import opened PimPipeline
  import opened PimSchedule
  import opened PimExec
  import opened PimProgram

  /** The value that a place and a number name; a register out of range is zero. */
  function Value<V, S>(g: Algebra<V, S>, r: Regs<V, S>, bus: Bus<V, S>, p: Place, n: nat): V
  {
    match p
    case GrfA => if n < |r.a| then r.a[n] else g.zeroV
    case GrfB => if n < |r.b| then r.b[n] else g.zeroV
    case SrfM => g.splat(if n < |r.m| then r.m[n] else g.zeroS)
    case SrfA => g.splat(if n < |r.s| then r.s[n] else g.zeroS)
    case EvenBank => bus.even
    case OddBank => bus.odd
  }

  /** A scalar register, or the first lane of a vector register. */
  function Scalar<V, S>(g: Algebra<V, S>, r: Regs<V, S>, p: Place, n: nat): S
  {
    match p
    case GrfA => g.head(if n < |r.a| then r.a[n] else g.zeroV)
    case SrfM => if n < |r.m| then r.m[n] else g.zeroS
    case SrfA => if n < |r.s| then r.s[n] else g.zeroS
    case _ => g.head(if n < |r.b| then r.b[n] else g.zeroV)
  }

  /** Only the register named changes; a write out of range is lost. */
  function Put<V, S>(r: Regs<V, S>, p: Place, n: nat, v: V): Regs<V, S>
  {
    match p
    case GrfA => if n < |r.a| then r.(a := r.a[n := v]) else r
    case GrfB => if n < |r.b| then r.(b := r.b[n := v]) else r
    case _ => r
  }

  /** The numbers of an instruction's registers: its own, or in aligned-address mode those of the triggering command. */
  datatype Numbers = Numbers(first: nat, second: nat, addend: nat, target: nat)

  function NumbersOf(i: Instr): Numbers
  {
    match i.op
    case Mov => Numbers(i.src0N, i.src1N, i.src1N, i.dstN)
    case Mac => if i.flag then Numbers(i.aamSrc, i.aamSrc, i.aamDst, i.aamDst)
                else Numbers(i.src0N, i.src1N, i.dstN, i.dstN)
    case _ => if i.flag then Numbers(i.aamSrc, i.aamSrc, i.aamDst, i.aamDst)
              else Numbers(i.src0N, i.src1N, i.src1N, i.dstN)
  }

  /** DST = SRC0 op SRC1, DST = SRC2 + SRC0 * SRC1, DST = DST + SRC0 * SRC1, and moves with or without ReLU. */
  function Meant<V, S>(g: Algebra<V, S>, r: Regs<V, S>, i: Instr, n: Numbers, bus: Bus<V, S>,
                       late: Bus<V, S>): Regs<V, S>
  {
    var x, y := Value(g, r, bus, i.src0, n.first), Value(g, r, bus, i.src1, n.second);
    match i.op
    case Add => Put(r, i.dst, n.target, g.add(x, y))
    case Mul => Put(r, i.dst, n.target, g.mul(x, y))
    case Mad => Put(r, i.dst, n.target, g.add(Value(g, r, late, i.src2, n.addend), g.mul(x, y)))
    case Mac => Put(r, i.dst, n.target, g.add(Value(g, r, late, i.dst, n.addend), g.mul(x, y)))
    case Mov =>
      match i.dst
      case SrfM => if n.target < |r.m| then r.(m := r.m[n.target := Scalar(g, r, i.src0, n.first)]) else r
      case SrfA => if n.target < |r.s| then r.(s := r.s[n.target := Scalar(g, r, i.src0, n.first)]) else r
      case _ => Put(r, i.dst, n.target, if i.flag then g.relu(x) else x)
  }

  lemma OperandIsValue<V, S>(g: Algebra<V, S>, r: Regs<V, S>, bus: Bus<V, S>, p: Place, n: nat)
    ensures Operand(g, r, bus, p, n) == Value(g, r, bus, p, n) && ScalarOperand(g, r, p, n) == Scalar(g, r, p, n)
  {
  }

  lemma AssignedIsPut<V, S>(r: Regs<V, S>, p: Place, n: nat, v: V)
    ensures Assigned(r, p, n, v) == Put(r, p, n, v)
  {
  }

  lemma NumbersAre(i: Instr)
    ensures i.op != Mov ==> NumbersOf(i) == Numbers(i.FirstN(), i.SecondN(), i.AddendN(), i.TargetN())
  {
  }

  function Computed<V, S>(g: Algebra<V, S>, r: Regs<V, S>, i: Instr, x: V, y: V, late: Bus<V, S>): V
  {
    match i.op
    case Add => g.add(x, y)
    case Mul => g.mul(x, y)
    case _ => g.add(Value(g, r, late, if i.op == Mad then i.src2 else i.dst, i.AddendN()), g.mul(x, y))
  }

  lemma MoveMeans<V, S>(g: Algebra<V, S>, r: Regs<V, S>, i: Instr, second: nat, bus: Bus<V, S>, late: Bus<V, S>)
    requires i.op == Mov
    ensures Executed(g, r, i, second, bus, late) == Meant(g, r, i, NumbersOf(i), bus, late)
  {
    OperandIsValue(g, r, bus, i.src0, i.src0N);
    AssignedIsPut(r, i.dst, i.dstN, if i.flag then g.relu(Value(g, r, bus, i.src0, i.src0N))
                  else Value(g, r, bus, i.src0, i.src0N));
  }

  lemma ExecutedMeans<V, S>(g: Algebra<V, S>, r: Regs<V, S>, i: Instr, bus: Bus<V, S>, late: Bus<V, S>)
    ensures Executed(g, r, i, i.SecondN(), bus, late) == Meant(g, r, i, NumbersOf(i), bus, late)
  {
    if i.op == Mov {
      MoveMeans(g, r, i, i.SecondN(), bus, late);
    } else {
      NumbersAre(i);
      var x, y := Value(g, r, bus, i.src0, i.FirstN()), Value(g, r, bus, i.src1, i.SecondN());
      OperandIsValue(g, r, bus, i.src0, i.FirstN());
      OperandIsValue(g, r, bus, i.src1, i.SecondN());
      OperandIsValue(g, r, late, if i.op == Mad then i.src2 else i.dst, i.AddendN());
      AssignedIsPut(r, i.dst, i.TargetN(), Computed(g, r, i, x, y, late));
    }
  }

  /** A program, one instruction after the other. */
  function Meaning<V, S>(g: Algebra<V, S>, s: Stages, r: Regs<V, S>, p: seq<Slot<V, S>>): Regs<V, S>
    requires s.Valid() && IsProgram(s, p)
  {
    if p == [] then r
    else
      var last := p[|p| - 1];
      Meant(g, Meaning(g, s, r, p[..|p| - 1]), last.i, NumbersOf(last.i), last.bus[Start(last.i)],
            last.bus[LateCycle(s, last.i)])
  }

  lemma {:induction false} InterpretedMeans<V, S>(g: Algebra<V, S>, s: Stages, r: Regs<V, S>, p: seq<Slot<V, S>>)
    requires s.Valid() && IsProgram(s, p)
    ensures Interpreted(g, s, r, p) == Meaning(g, s, r, p)
  {
    if p != [] {
      var last := p[|p| - 1];
      InterpretedMeans(g, s, r, p[..|p| - 1]);
      ExecutedMeans(g, Meaning(g, s, r, p[..|p| - 1]), last.i, last.bus[Start(last.i)], last.bus[LateCycle(s, last.i)]);
    }
  }

  /** Every spaced program, outside the exceptional family, leaves the registers as its instructions' fields say. */
  lemma ProgramMeans<V(!new), S(!new)>(g: Algebra<V, S>, s: Stages, core: Core<V, S>, p: seq<Slot<V, S>>)
    requires Quiet(s, core) && IsProgram(s, p) && forall j :: 0 <= j < |p| ==> !Misported(p[j].i)
    ensures Ran(g, s, core, p).regs == Meaning(g, s, core.regs, p)
  {
    PipelineRefinesInterpreter(g, s, core, p);
    InterpretedMeans(g, s, core.regs, p);
  }

  lemma LastMeans<V(!new), S(!new)>(g: Algebra<V, S>, s: Stages, core: Core<V, S>, p: seq<Slot<V, S>>, last: Slot<V, S>,
                                    r: Regs<V, S>)
    requires Quiet(s, core) && IsProgram(s, p) && WellFormed(last.i) && |last.bus| >= Depth(s) && !Misported(last.i)
    requires r == Ran(g, s, core, p).regs
    ensures Ran(g, s, core, p + [last]).regs == Meant(g, r, last.i, NumbersOf(last.i), last.bus[Start(last.i)],
                                                      last.bus[LateCycle(s, last.i)])
  {
    assert (p + [last])[..|p|] == p && (p + [last])[|p|] == last;
    PipelineRunsStepwise(g, s, core, p);
    InstructionRefines(g, s, Ran(g, s, core, p), last);
    assert BuiltSecond(last.i) == last.i.SecondN();
    ExecutedMeans(g, r, last.i, last.bus[Start(last.i)], last.bus[LateCycle(s, last.i)]);
  }

  /** The registers r before the last instruction of a program, those after it, and what the buses carry for it. */
  ghost predicate LastStep<V(!new), S(!new)>(g: Algebra<V, S>, s: Stages, core: Core<V, S>, p: seq<Slot<V, S>>,
                                             last: Slot<V, S>, r: Regs<V, S>, after: Regs<V, S>, bus: Bus<V, S>,
                                             late: Bus<V, S>)
  {
    && Quiet(s, core) && IsProgram(s, p) && WellFormed(last.i) && |last.bus| >= Depth(s) && !Misported(last.i)
    && r == Ran(g, s, core, p).regs && after == Ran(g, s, core, p + [last]).regs
    && bus == last.bus[Start(last.i)] && late == last.bus[LateCycle(s, last.i)]
  }

  /** ADD, MUL, MAD and MAC: one register of GRF_A or GRF_B is replaced. */
  lemma AddFields<V(!new), S(!new)>(g: Algebra<V, S>, s: Stages, core: Core<V, S>, p: seq<Slot<V, S>>, last: Slot<V, S>,
                                    r: Regs<V, S>, after: Regs<V, S>, bus: Bus<V, S>, late: Bus<V, S>)
    requires LastStep(g, s, core, p, last, r, after, bus, late) && last.i.op == Add
    ensures var i := last.i;
            !i.flag ==> after == Put(r, i.dst, i.dstN, g.add(Value(g, r, bus, i.src0, i.src0N),
                                                             Value(g, r, bus, i.src1, i.src1N)))
    ensures var i := last.i;
            i.flag ==> after == Put(r, i.dst, i.aamDst, g.add(Value(g, r, bus, i.src0, i.aamSrc),
                                                              Value(g, r, bus, i.src1, i.aamSrc)))
  {
    LastMeans(g, s, core, p, last, r);
  }

  lemma MulFields<V(!new), S(!new)>(g: Algebra<V, S>, s: Stages, core: Core<V, S>, p: seq<Slot<V, S>>, last: Slot<V, S>,
                                    r: Regs<V, S>, after: Regs<V, S>, bus: Bus<V, S>, late: Bus<V, S>)
    requires LastStep(g, s, core, p, last, r, after, bus, late) && last.i.op == Mul
    ensures var i := last.i;
            !i.flag ==> after == Put(r, i.dst, i.dstN, g.mul(Value(g, r, bus, i.src0, i.src0N),
                                                             Value(g, r, bus, i.src1, i.src1N)))
    ensures var i := last.i;
            i.flag ==> after == Put(r, i.dst, i.aamDst, g.mul(Value(g, r, bus, i.src0, i.aamSrc),
                                                              Value(g, r, bus, i.src1, i.aamSrc)))
  {
    LastMeans(g, s, core, p, last, r);
  }

  lemma MadFields<V(!new), S(!new)>(g: Algebra<V, S>, s: Stages, core: Core<V, S>, p: seq<Slot<V, S>>, last: Slot<V, S>,
                                    r: Regs<V, S>, after: Regs<V, S>, bus: Bus<V, S>, late: Bus<V, S>)
    requires LastStep(g, s, core, p, last, r, after, bus, late) && last.i.op == Mad
    ensures var i := last.i;
            !i.flag ==> after == Put(r, i.dst, i.dstN, g.add(Value(g, r, late, i.src2, i.src1N),
                                                             g.mul(Value(g, r, bus, i.src0, i.src0N),
                                                                   Value(g, r, bus, i.src1, i.src1N))))
    ensures var i := last.i;
            i.flag ==> after == Put(r, i.dst, i.aamDst, g.add(Value(g, r, late, i.src2, i.aamDst),
                                                              g.mul(Value(g, r, bus, i.src0, i.aamSrc),
                                                                    Value(g, r, bus, i.src1, i.aamSrc))))
  {
    LastMeans(g, s, core, p, last, r);
  }

  lemma MacFields<V(!new), S(!new)>(g: Algebra<V, S>, s: Stages, core: Core<V, S>, p: seq<Slot<V, S>>, last: Slot<V, S>,
                                    r: Regs<V, S>, after: Regs<V, S>, bus: Bus<V, S>, late: Bus<V, S>)
    requires LastStep(g, s, core, p, last, r, after, bus, late) && last.i.op == Mac
    ensures var i := last.i;
            !i.flag ==> after == Put(r, i.dst, i.dstN, g.add(Value(g, r, late, i.dst, i.dstN),
                                                             g.mul(Value(g, r, bus, i.src0, i.src0N),
                                                                   Value(g, r, bus, i.src1, i.src1N))))
    ensures var i := last.i;
            i.flag ==> after == Put(r, i.dst, i.aamDst, g.add(Value(g, r, late, i.dst, i.aamDst),
                                                              g.mul(Value(g, r, bus, i.src0, i.aamSrc),
                                                                    Value(g, r, bus, i.src1, i.aamSrc))))
  {
    LastMeans(g, s, core, p, last, r);
  }

  /** MOV keeps its own numbers, and its flag is ReLU. */
  lemma MovFields<V(!new), S(!new)>(g: Algebra<V, S>, s: Stages, core: Core<V, S>, p: seq<Slot<V, S>>, last: Slot<V, S>,
                                    r: Regs<V, S>, after: Regs<V, S>, bus: Bus<V, S>, late: Bus<V, S>)
    requires LastStep(g, s, core, p, last, r, after, bus, late) && last.i.op == Mov && last.i.dst in {GrfA, GrfB}
    ensures var i := last.i;
            after == Put(r, i.dst, i.dstN, if i.flag then g.relu(Value(g, r, bus, i.src0, i.src0N))
                                           else Value(g, r, bus, i.src0, i.src0N))
  {
    LastMeans(g, s, core, p, last, r);
  }

  lemma MeantScalar<V, S>(g: Algebra<V, S>, r: Regs<V, S>, i: Instr, bus: Bus<V, S>, late: Bus<V, S>)
    requires i.op == Mov
    ensures i.dst == SrfM && i.dstN < |r.m| ==>
              Meant(g, r, i, NumbersOf(i), bus, late) == r.(m := r.m[i.dstN := Scalar(g, r, i.src0, i.src0N)])
    ensures i.dst == SrfA && i.dstN < |r.s| ==>
              Meant(g, r, i, NumbersOf(i), bus, late) == r.(s := r.s[i.dstN := Scalar(g, r, i.src0, i.src0N)])
  {
  }

  /** And into a scalar file it takes a scalar, or the first lane of a vector. */
  lemma MovScalarFields<V(!new), S(!new)>(g: Algebra<V, S>, s: Stages, core: Core<V, S>, p: seq<Slot<V, S>>,
                                          last: Slot<V, S>, r: Regs<V, S>, after: Regs<V, S>, bus: Bus<V, S>,
                                          late: Bus<V, S>)
    requires LastStep(g, s, core, p, last, r, after, bus, late) && last.i.op == Mov
    ensures var i := last.i;
            i.dst == SrfM && i.dstN < |r.m| ==> after == r.(m := r.m[i.dstN := Scalar(g, r, i.src0, i.src0N)])
    ensures var i := last.i;
            i.dst == SrfA && i.dstN < |r.s| ==> after == r.(s := r.s[i.dstN := Scalar(g, r, i.src0, i.src0N)])
  {
    LastMeans(g, s, core, p, last, r);
    MeantScalar(g, r, last.i, bus, late);
  }
}
