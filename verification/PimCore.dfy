/** The data path of the near-memory core, cycle by cycle, and its instruction set (fpu.cpp, grf.cpp, srf.cpp). */
module PimCore {
  import opened PimControl

  /** The operations on SIMD words V and scalars S; their arithmetic is another module's concern. */
  datatype Algebra<!V, !S> = Algebra(mul: (V, V) -> V, add: (V, V) -> V, relu: V -> V, splat: S -> V, head: V -> S,
                                     zeroV: V, zeroS: S)

  datatype Regs<V, S> = Regs(a: seq<V>, b: seq<V>, m: seq<S>, s: seq<S>)

  /** What the bank and data buses carry in a cycle. */
  datatype Bus<V, S> = Bus(even: V, odd: V, ext: V, extS: S)

  /** rf_threeport and rf_twoport, read_method: an index out of range reads zero. */
  function Port<T>(r: seq<T>, n: nat, zero: T): T { if n < |r| then r[n] else zero }

  /** write_update_thread: an index out of range writes nothing. */
  function Written<T>(r: seq<T>, en: bool, n: nat, v: T): seq<T> { if en && n < |r| then r[n := v] else r }

  datatype Core<V, S> = Core(pipes: Pipes, mul: seq<V>, add: seq<V>, regs: Regs<V, S>)

  predicate IsCore<V, S>(s: Stages, k: Core<V, S>)
  {
    IsPipes(s, k.pipes) && |k.mul| == s.mult && |k.add| == s.add
  }

  /** The combinational outputs of one cycle (out_method and the multiplexers of fpu, grf and srf). */
  datatype Wires<V, S> = Wires(a1: V, a2: V, b1: V, b2: V, srf: S, mulOut: V, addOut: V)

  function Read<V, S>(g: Algebra<V, S>, s: Stages, k: Core<V, S>, c: Control): Wires<V, S>
    requires IsCore(s, k)
  {
    var sn := Or(c.rdS.comb, k.pipes.rdS[s.mult]);
    Wires(
      Port(k.regs.a, Or(c.rdA1.comb, k.pipes.rdA1[s.mult]), g.zeroV),
        Port(k.regs.a, Or(c.rdA2.comb, k.pipes.rdA2), g.zeroV),
      Port(k.regs.b, Or(c.rdB1.comb, k.pipes.rdB1[s.mult]), g.zeroV),
        Port(k.regs.b, Or(c.rdB2.comb, k.pipes.rdB2), g.zeroV),
      if Or(c.rdSAnM.comb, k.pipes.rdSAnM[s.mult]) != 0 then Port(k.regs.s, sn, g.zeroS)
        else Port(k.regs.m, sn, g.zeroS),
      k.mul[s.mult - 1], k.add[s.add - 1])
  }

  /** fpu, multiplex_method. */
  function MulIn1<V, S>(w: Wires<V, S>, bus: Bus<V, S>, sel: nat): V
  {
    match sel
    case 0 => w.a1
    case 1 => w.a2
    case 2 => w.b1
    case 3 => w.b2
    case 4 => bus.even
    case 5 => bus.odd
    case _ => w.a1
  }

  function MulIn2<V, S>(g: Algebra<V, S>, w: Wires<V, S>, bus: Bus<V, S>, sel: nat): V
  {
    match sel
    case 0 => g.splat(w.srf)
    case 1 => w.a1
    case 2 => w.a2
    case 3 => w.b1
    case 4 => w.b2
    case 5 => bus.even
    case 6 => bus.odd
    case _ => g.splat(w.srf)
  }

  function AddIn<V, S>(g: Algebra<V, S>, w: Wires<V, S>, bus: Bus<V, S>, sel: nat, other: V): V
  {
    match sel
    case 0 => w.mulOut
    case 1 => g.splat(w.srf)
    case 2 => w.a1
    case 3 => w.a2
    case 4 => w.b1
    case 5 => w.b2
    case 6 => bus.even
    case 7 => bus.odd
    case _ => other
  }

  function Multiplied<V, S>(g: Algebra<V, S>, k: Core<V, S>, w: Wires<V, S>, c: Control, bus: Bus<V, S>): V
  {
    g.mul(MulIn1(w, bus, Or(c.mul1.comb, k.pipes.mul1)), MulIn2(g, w, bus, Or(c.mul2.comb, k.pipes.mul2)))
  }

  function Added<V, S>(g: Algebra<V, S>, s: Stages, k: Core<V, S>, w: Wires<V, S>, c: Control, bus: Bus<V, S>): V
    requires IsCore(s, k)
  {
    g.add(AddIn(g, w, bus, Or(c.in1.comb, k.pipes.in1[s.mult]), w.mulOut),
          AddIn(g, w, bus, Or(c.in2.comb, k.pipes.in2[s.mult]), g.splat(w.srf)))
  }

  /** grf, comb_method. */
  function GrfIn<V, S>(g: Algebra<V, S>, w: Wires<V, S>, fpu: V, bank: V, ext: V, from: nat, relu: bool): V
  {
    var v := match from
      case 0 => ext
      case 1 => fpu
      case 2 => w.a1
      case 3 => w.b1
      case 4 => g.splat(w.srf)
      case 5 => bank
      case 6 => bank
      case _ => g.zeroV;
    if relu then g.relu(v) else v
  }

  function SrfIn<V, S>(g: Algebra<V, S>, w: Wires<V, S>, ext: S, from: nat): S
  {
    match from
    case 0 => ext
    case 2 => g.head(w.a1)
    case 3 => g.head(w.b1)
    case 4 => w.srf
    case _ => g.zeroS
  }

  /** out_method: the enables are or-ed over the stages an operation is still in. */
  predicate AnySet(pipe: seq<nat>) { exists i :: 0 <= i < |pipe| && pipe[i] != 0 }

  /** fp_multiplier and fp_adder, clk_thread. */
  function Pushed<V>(pipe: seq<V>, en: bool, v: V): (r: seq<V>)
    ensures |r| == |pipe|
  {
    if en && |pipe| > 0 then [v] + pipe[..|pipe| - 1] else pipe
  }

  function Stored<V, S>(g: Algebra<V, S>, s: Stages, k: Core<V, S>, w: Wires<V, S>, c: Control,
                        bus: Bus<V, S>): Regs<V, S>
    requires IsCore(s, k)
  {
    var fpu := if k.pipes.outSel[s.mult] != 0 then w.mulOut else w.addOut;
    var last := s.mult + s.add;
    Regs(
      Written(k.regs.a, Or(c.enA.comb, k.pipes.enA[last]) != 0, Or(c.addrA.comb, k.pipes.addrA[last]),
              GrfIn(g, w, fpu, bus.even, bus.ext, Or(c.fromA.comb, k.pipes.fromA[last]),
                    Or(c.reluA.comb, k.pipes.reluA) != 0)),
      Written(k.regs.b, Or(c.enB.comb, k.pipes.enB[last]) != 0, Or(c.addrB.comb, k.pipes.addrB[last]),
              GrfIn(g, w, fpu, bus.odd, bus.ext, Or(c.fromB.comb, k.pipes.fromB[last]),
                    Or(c.reluB.comb, k.pipes.reluB) != 0)),
      Written(k.regs.m, c.srfEn != 0 && c.srfAnM == 0, c.srfAddr, SrfIn(g, w, bus.extS, c.srfFrom)),
      Written(k.regs.s, c.srfEn != 0 && c.srfAnM != 0, c.srfAddr, SrfIn(g, w, bus.extS, c.srfFrom)))
  }

  /** One clock cycle of the core: everything is computed from the state before the edge. */
  function Cycle<V, S>(g: Algebra<V, S>, s: Stages, k: Core<V, S>, c: Control, bus: Bus<V, S>): (r: Core<V, S>)
    requires IsCore(s, k)
    ensures IsCore(s, r)
  {
    var w := Read(g, s, k, c);
    Core(Clocked(s, k.pipes, c),
         Pushed(k.mul, c.mulToMoA != 0 || AnySet(k.pipes.mulEn), Multiplied(g, k, w, c, bus)),
         Pushed(k.add, c.addToMoA != 0 || AnySet(k.pipes.addEn[s.mult..]), Added(g, s, k, w, c, bus)),
         Stored(g, s, k, w, c, bus))
  }

  /** An operand, as the instruction set names it. */
  function Operand<V, S>(g: Algebra<V, S>, r: Regs<V, S>, bus: Bus<V, S>, p: Place, n: nat): V
  {
    match p
    case GrfA => Port(r.a, n, g.zeroV)
    case GrfB => Port(r.b, n, g.zeroV)
    case SrfM => g.splat(Port(r.m, n, g.zeroS))
    case SrfA => g.splat(Port(r.s, n, g.zeroS))
    case EvenBank => bus.even
    case OddBank => bus.odd
  }

  function ScalarOperand<V, S>(g: Algebra<V, S>, r: Regs<V, S>, p: Place, n: nat): S
  {
    match p
    case SrfM => Port(r.m, n, g.zeroS)
    case SrfA => Port(r.s, n, g.zeroS)
    case GrfA => g.head(Port(r.a, n, g.zeroV))
    case _ => g.head(Port(r.b, n, g.zeroV))
  }

  function Assigned<V, S>(r: Regs<V, S>, p: Place, n: nat, v: V): Regs<V, S>
  {
    match p
    case GrfA => r.(a := Written(r.a, true, n, v))
    case GrfB => r.(b := Written(r.b, true, n, v))
    case _ => r
  }

  /** The meaning of an instruction: one step of a sequential interpreter. The addend of MAD may come from a bank
      bus later than the other operands, so two bus values are given; second is the address of the second operand. */
  function Executed<V, S>(g: Algebra<V, S>, r: Regs<V, S>, i: Instr, second: nat, bus: Bus<V, S>,
                          late: Bus<V, S>): Regs<V, S>
  {
    var x := Operand(g, r, bus, i.src0, i.FirstN());
    var y := Operand(g, r, bus, i.src1, second);
    match i.op
    case Mov =>
      var v := Operand(g, r, bus, i.src0, i.src0N);
      (match i.dst
       case SrfM => r.(m := Written(r.m, true, i.dstN, ScalarOperand(g, r, i.src0, i.src0N)))
       case SrfA => r.(s := Written(r.s, true, i.dstN, ScalarOperand(g, r, i.src0, i.src0N)))
       case _ => Assigned(r, i.dst, i.dstN, if i.flag then g.relu(v) else v))
    case Add => Assigned(r, i.dst, i.TargetN(), g.add(x, y))
    case Mul => Assigned(r, i.dst, i.TargetN(), g.mul(x, y))
    case Mad => Assigned(r, i.dst, i.TargetN(), g.add(Operand(g, r, late, i.src2, i.AddendN()), g.mul(x, y)))
    case Mac => Assigned(r, i.dst, i.TargetN(), g.add(Operand(g, r, late, i.dst, i.AddendN()), g.mul(x, y)))
  }

  /** The operand places each instruction supports. */
  predicate WellFormed(i: Instr)
  {
    match i.op
    case Mov =>
      if i.src0 == EvenBank then i.dst == GrfA
      else if i.src0 == OddBank then i.dst == GrfB
      else true
    case Add => i.src0 != SrfM && i.src1 != SrfM && !(i.src0 == SrfA && i.src1 == SrfA) && i.dst in {GrfA, GrfB}
    case Mul => i.src0 !in {SrfM, SrfA} && i.src1 != SrfA && i.dst in {GrfA, GrfB}
    case Mad => i.src0 !in {SrfM, SrfA} && i.src1 != SrfA && i.src2 != SrfM && i.dst in {GrfA, GrfB}
    case Mac => i.src0 !in {SrfM, SrfA} && i.src1 != SrfA && i.dst == GrfB
  }

  /** The register whose value reaches the second operand: register 0 of GRF_B for a loading MAD with SRC1 in GRF_B. */
  function BuiltSecond(i: Instr): nat
  {
    if i.op == Mad && i.Loads() && i.src1 == GrfB then 0 else i.SecondN()
  }
}
