/** The decoder of the near-memory core and its OR-merged shift registers (instr_decoder.cpp). */
module PimControl {

  /** Bitwise or on the program's unsigned words. */
  function Or(x: nat, y: nat): (r: nat)
    ensures x == 0 ==> r == y
    ensures y == 0 ==> r == x
    ensures r == 0 <==> x == 0 && y == 0
  {
    if x == 0 then y else if y == 0 then x else 2 * Or(x / 2, y / 2) + if x % 2 == 1 || y % 2 == 1 then 1 else 0
  }

  /** MULT_STAGES and ADD_STAGES. */
  datatype Stages = Stages(mult: nat, add: nat) {
    predicate Valid() { mult >= 1 && add >= 1 }
  }

  datatype Op = Mov | Add | Mul | Mad | Mac

  datatype Place = GrfA | GrfB | SrfM | SrfA | EvenBank | OddBank

  /** The fields of an instruction. One bit is read as ReLU by a move and as address-aligned mode by the others; in
      that mode the addresses come from the column address of the triggering command. */
  datatype Instr = Instr(op: Op, dst: Place, src0: Place, src1: Place, src2: Place, flag: bool,
                         dstN: nat, src0N: nat, src1N: nat, aamSrc: nat, aamDst: nat)
  {
    function FirstN(): nat { if flag then aamSrc else src0N }
    function SecondN(): nat { if flag then aamSrc else src1N }
    function AddendN(): nat { if flag then aamDst else if op == Mac then dstN else src1N }
    function TargetN(): nat { if flag then aamDst else dstN }
    /** A bank is among the first two operands. */
    predicate Loads() { IsBank(src0) || (op != Mov && IsBank(src1)) }
  }

  predicate IsBank(p: Place) { p == EvenBank || p == OddBank }

  // Multiplexer codes (opcodes.h).
  const MUX_EXT: nat := 0
  const MUX_FPU: nat := 1
  const MUX_GRF_A: nat := 2
  const MUX_GRF_B: nat := 3
  const MUX_SRF: nat := 4
  const MUX_EVEN_BANK: nat := 5
  const MUX_ODD_BANK: nat := 6

  /** A read-side signal: the value for this cycle, and the values that enter its pipeline. */
  datatype Rd = Rd(comb: nat, toAddAftLoad: nat, toAdd: nat, toMAWAftLoad: nat)

  /** A write-side signal. */
  datatype Wr = Wr(comb: nat, fromMaAAftLoad: nat, fromMaA: nat, fromMulAftLoad: nat, fromMul: nat,
                   fromAddAftLoad: nat, fromAdd: nat, fromLoad: nat)

  /** A signal with a single register. */
  datatype Reg = Reg(comb: nat, nxt: nat)

  const NO_RD: Rd := Rd(0, 0, 0, 0)
  const NO_WR: Wr := Wr(0, 0, 0, 0, 0, 0, 0, 0)
  const NO_REG: Reg := Reg(0, 0)

  /** Everything comb_method drives for the data path in one cycle. */
  datatype Control = Control(
    rdA1: Rd, rdB1: Rd, rdS: Rd, rdSAnM: Rd, in1: Rd, in2: Rd,
    enA: Wr, addrA: Wr, fromA: Wr, enB: Wr, addrB: Wr, fromB: Wr,
    rdA2: Reg, rdB2: Reg, reluA: Reg, reluB: Reg, mul1: Reg, mul2: Reg,
    srfEn: nat, srfAddr: nat, srfAnM: nat, srfFrom: nat,
    addToAddAftLoad: nat, addToAdd: nat, addToMoAAftLoad: nat, addToMoA: nat,
    mulToMoAAftLoad: nat, mulToMoA: nat, outFromMulAftLoad: nat, outFromMul: nat)

  /** The defaults at the head of comb_method. */
  const IDLE: Control := Control(
    NO_RD, NO_RD, NO_RD, NO_RD, NO_RD, NO_RD,
    NO_WR, NO_WR, NO_WR, NO_WR, NO_WR, NO_WR,
    NO_REG, NO_REG, NO_REG, NO_REG, NO_REG, NO_REG,
    0, 0, 0, 0, 0, 0, 0, 0, 0, 0, 0, 0)

  /** For the first operand of the adder or multiplier: at once, or after the load. */
  function Early(load: bool, v: nat): Rd { if load then NO_RD.(toMAWAftLoad := v) else NO_RD.(comb := v) }
  /** For an addend: after the multiplication, or after load and multiplication. */
  function Late(load: bool, v: nat): Rd { if load then NO_RD.(toAddAftLoad := v) else NO_RD.(toAdd := v) }
  function Next(load: bool, v: nat): Reg { if load then NO_REG.(nxt := v) else NO_REG.(comb := v) }

  /** SRC0 of an addition, SRC1 of an addition, SRC0 and SRC1 of a multiplication, addend of MAD and MAC. */
  function AddFirst(c: Control, p: Place, n: nat, load: bool): Control
  {
    match p
    case GrfA => c.(rdA1 := Early(load, n), in1 := Early(load, 2))
    case GrfB => c.(rdB1 := Early(load, n), in1 := Early(load, 4))
    case SrfA => c.(rdS := Early(load, n), rdSAnM := Early(load, 1), in1 := Early(load, 1))
    case EvenBank => c.(in1 := Early(load, 6))
    case OddBank => c.(in1 := Early(load, 7))
    case SrfM => c
  }

  function AddSecond(c: Control, p: Place, n: nat, load: bool): Control
  {
    match p
    case GrfA => c.(rdA2 := Next(load, n), in2 := Early(load, 3))
    case GrfB => c.(rdB2 := Next(load, n), in2 := Early(load, 5))
    case SrfA => c.(rdS := Early(load, n), rdSAnM := Early(load, 1), in2 := Early(load, 1))
    case EvenBank => c.(in2 := Early(load, 6))
    case OddBank => c.(in2 := Early(load, 7))
    case SrfM => c
  }

  function MulFirst(c: Control, p: Place, n: nat, load: bool): Control
  {
    match p
    case GrfA => c.(rdA1 := Early(load, n), mul1 := Next(load, 0))
    case GrfB => c.(rdB1 := Early(load, n), mul1 := Next(load, 2))
    case EvenBank => c.(mul1 := Next(load, 4))
    case OddBank => c.(mul1 := Next(load, 5))
    case _ => c
  }

  /** A MAD that loads drives the second port of GRF_A, not of GRF_B, when SRC1 is in GRF_B. */
  function MulSecond(c: Control, p: Place, n: nat, load: bool, mad: bool): Control
  {
    match p
    case GrfA => c.(rdA2 := Next(load, n), mul2 := Next(load, 2))
    case GrfB =>
      if mad && load then c.(rdA2 := Next(load, n), mul2 := Next(load, 4))
      else c.(rdB2 := Next(load, n), mul2 := Next(load, 4))
    case SrfM => c.(rdS := Early(load, n), rdSAnM := Early(load, 0), mul2 := Next(load, 0))
    case EvenBank => c.(mul2 := Next(load, 5))
    case OddBank => c.(mul2 := Next(load, 6))
    case SrfA => c
  }

  /** Two assignments to different members of one signal group. */
  function Merged(x: Rd, y: Rd): Rd
  {
    Rd(Or(x.comb, y.comb), Or(x.toAddAftLoad, y.toAddAftLoad), Or(x.toAdd, y.toAdd), Or(x.toMAWAftLoad, y.toMAWAftLoad))
  }

  function Addend(c: Control, p: Place, n: nat, load: bool): Control
  {
    match p
    case GrfA => c.(rdA1 := Merged(c.rdA1, Late(load, n)), in1 := Late(load, 2))
    case GrfB => c.(rdB1 := Merged(c.rdB1, Late(load, n)), in1 := Late(load, 4))
    case SrfA => c.(rdS := Merged(c.rdS, Late(load, n)), rdSAnM := Merged(c.rdSAnM, Late(load, 1)),
                    in1 := Late(load, 1))
    case EvenBank => c.(in1 := Late(load, 6))
    case OddBank => c.(in1 := Late(load, 7))
    case SrfM => c
  }

  /** The write signal of an operation, by the place in the pipeline where its result comes out. */
  function Emerging(op: Op, load: bool, v: nat): Wr
  {
    match op
    case Mov => if load then NO_WR.(fromLoad := v) else NO_WR.(comb := v)
    case Add => if load then NO_WR.(fromAddAftLoad := v) else NO_WR.(fromAdd := v)
    case Mul => if load then NO_WR.(fromMulAftLoad := v) else NO_WR.(fromMul := v)
    case Mad | Mac => if load then NO_WR.(fromMaAAftLoad := v) else NO_WR.(fromMaA := v)
  }

  function Target(c: Control, op: Op, p: Place, n: nat, load: bool, from: nat): Control
  {
    match p
    case GrfA => c.(enA := Emerging(op, load, 1), fromA := Emerging(op, load, from), addrA := Emerging(op, load, n))
    case GrfB => c.(enB := Emerging(op, load, 1), fromB := Emerging(op, load, from), addrB := Emerging(op, load, n))
    case _ => c
  }

  /** OP_MOV. */
  function DecodeMov(i: Instr): Control
  {
    if i.src0 == EvenBank then
      (if i.dst == GrfA then Target(IDLE, Mov, GrfA, i.dstN, true,
                                    MUX_EVEN_BANK).(reluA := Reg(0, if i.flag then 1 else 0)) else IDLE)
    else if i.src0 == OddBank then
      (if i.dst == GrfB then Target(IDLE, Mov, GrfB, i.dstN, true,
                                    MUX_ODD_BANK).(reluB := Reg(0, if i.flag then 1 else 0)) else IDLE)
    else
      var from := if i.src0 == GrfA then MUX_GRF_A else if i.src0 == GrfB then MUX_GRF_B else MUX_SRF;
      var c := if i.src0 == GrfA then IDLE.(rdA1 := Early(false, i.src0N))
               else if i.src0 == GrfB then IDLE.(rdB1 := Early(false, i.src0N))
               else if i.src0 == SrfM then IDLE.(rdS := Early(false, i.src0N), rdSAnM := Early(false, 0))
               else IDLE.(rdS := Early(false, i.src0N), rdSAnM := Early(false, 1));
      match i.dst
      case GrfA => Target(c, Mov, GrfA, i.dstN, false, from).(reluA := Reg(if i.flag then 1 else 0, 0))
      case GrfB => Target(c, Mov, GrfB, i.dstN, false, from).(reluB := Reg(if i.flag then 1 else 0, 0))
      case SrfM => c.(srfEn := 1, srfFrom := from, srfAddr := i.dstN, srfAnM := 0)
      case SrfA => c.(srfEn := 1, srfFrom := from, srfAddr := i.dstN, srfAnM := 1)
      case _ => c
  }

  /** comb_method for the data-path instructions. */
  function Decode(i: Instr): Control
  {
    var load := i.Loads();
    match i.op
    case Mov => DecodeMov(i)
    case Add =>
      var c := AddSecond(AddFirst(IDLE, i.src0, i.FirstN(), load), i.src1, i.SecondN(), load);
      Target(if load then c.(addToMoAAftLoad := 1) else c.(addToMoA := 1), Add, i.dst, i.TargetN(), load, MUX_FPU)
    case Mul =>
      var c := MulSecond(MulFirst(IDLE, i.src0, i.FirstN(), load), i.src1, i.SecondN(), load, false);
      Target(if load then c.(mulToMoAAftLoad := 1, outFromMulAftLoad := 1) else c.(mulToMoA := 1, outFromMul := 1),
             Mul, i.dst, i.TargetN(), load, MUX_FPU)
    case Mad | Mac =>
      var c := MulSecond(MulFirst(IDLE, i.src0, i.FirstN(), load), i.src1, i.SecondN(), load, i.op == Mad);
      var d := if i.op == Mad then Addend(c, i.src2, i.AddendN(), load)
               else if i.dst == GrfB then Addend(c, GrfB, i.AddendN(), load) else c;
      Target(if load then d.(mulToMoAAftLoad := 1, addToAddAftLoad := 1) else d.(mulToMoA := 1, addToAdd := 1),
             i.op, if i.op == Mac && i.dst != GrfB then SrfM else i.dst, i.TargetN(), load, MUX_FPU)
  }

  /** One clock edge of a merged shift register: every position takes its neighbour's old value or-ed with its entry. */
  function Shift(pipe: seq<nat>, entry: seq<nat>): (r: seq<nat>)
    requires |entry| == |pipe|
    ensures |r| == |pipe|
  {
    seq<nat>(|pipe|, i requires 0 <= i < |pipe| => if i == 0 then entry[0] else Or(pipe[i - 1], entry[i]))
  }

  function When(b: bool, v: nat): nat { if b then v else 0 }

  /** Where the members of each signal group enter. */
  function RdAt(s: Stages, r: Rd, i: int): nat
  {
    Or(Or(When(i == 0, r.toAddAftLoad), When(i == 1, r.toAdd)), When(i == s.mult, r.toMAWAftLoad))
  }

  function WrAt(s: Stages, w: Wr, i: int): nat
  {
    Or(Or(Or(Or(Or(Or(When(i == 0, w.fromMaAAftLoad), When(i == 1, w.fromMaA)), When(i == s.mult, w.fromAddAftLoad)),
       When(i == s.mult + 1, w.fromAdd)), When(i == s.add, w.fromMulAftLoad)), When(i == s.add + 1, w.fromMul)),
       When(i == s.mult + s.add, w.fromLoad))
  }

  function AddAt(s: Stages, c: Control, i: int): nat
  {
    Or(Or(Or(When(i == 0, c.addToAddAftLoad), When(i == 1, c.addToAdd)), When(i == s.mult, c.addToMoAAftLoad)),
       When(i == s.mult + 1, c.addToMoA))
  }

  function MulAt(c: Control, i: int): nat { Or(When(i == 0, c.mulToMoAAftLoad), When(i == 1, c.mulToMoA)) }

  function OutAt(c: Control, i: int): nat { Or(When(i == 0, c.outFromMulAftLoad), When(i == 1, c.outFromMul)) }

  function RdEntries(s: Stages, r: Rd): (e: seq<nat>)
    ensures |e| == 1 + s.mult
  {
    seq<nat>(1 + s.mult, i => RdAt(s, r, i))
  }

  function WrEntries(s: Stages, w: Wr): (e: seq<nat>)
    ensures |e| == 1 + s.mult + s.add
  {
    seq<nat>(1 + s.mult + s.add, i => WrAt(s, w, i))
  }

  function AddEntries(s: Stages, c: Control): (e: seq<nat>)
    ensures |e| == s.mult + s.add
  {
    seq<nat>(s.mult + s.add, i => AddAt(s, c, i))
  }

  function MulEntries(s: Stages, c: Control): (e: seq<nat>)
    ensures |e| == s.mult
  {
    seq<nat>(s.mult, i => MulAt(c, i))
  }

  function OutEntries(s: Stages, c: Control): (e: seq<nat>)
    ensures |e| == 1 + s.mult
  {
    seq<nat>(1 + s.mult, i => OutAt(c, i))
  }

  /** The registers of the decoder that feed the data path. The SRF write registers have no source and stay 0. */
  datatype Pipes = Pipes(
    rdA1: seq<nat>, rdB1: seq<nat>, rdS: seq<nat>, rdSAnM: seq<nat>, in1: seq<nat>, in2: seq<nat>,
    enA: seq<nat>, addrA: seq<nat>, fromA: seq<nat>, enB: seq<nat>, addrB: seq<nat>, fromB: seq<nat>,
    addEn: seq<nat>, mulEn: seq<nat>, outSel: seq<nat>,
    rdA2: nat, rdB2: nat, reluA: nat, reluB: nat, mul1: nat, mul2: nat)

  predicate IsPipes(s: Stages, p: Pipes)
  {
    && s.Valid()
    && |p.rdA1| == |p.rdB1| == |p.rdS| == |p.rdSAnM| == |p.in1| == |p.in2| == |p.outSel| == 1 + s.mult
    && |p.enA| == |p.addrA| == |p.fromA| == |p.enB| == |p.addrB| == |p.fromB| == 1 + s.mult + s.add
    && |p.addEn| == s.mult + s.add && |p.mulEn| == s.mult
  }

  /** clk_thread. */
  function Clocked(s: Stages, p: Pipes, c: Control): (r: Pipes)
    requires IsPipes(s, p)
    ensures IsPipes(s, r)
  {
    Pipes(
      Shift(p.rdA1, RdEntries(s, c.rdA1)), Shift(p.rdB1, RdEntries(s, c.rdB1)), Shift(p.rdS, RdEntries(s, c.rdS)),
      Shift(p.rdSAnM, RdEntries(s, c.rdSAnM)), Shift(p.in1, RdEntries(s, c.in1)), Shift(p.in2, RdEntries(s, c.in2)),
      Shift(p.enA, WrEntries(s, c.enA)), Shift(p.addrA, WrEntries(s, c.addrA)), Shift(p.fromA, WrEntries(s, c.fromA)),
      Shift(p.enB, WrEntries(s, c.enB)), Shift(p.addrB, WrEntries(s, c.addrB)), Shift(p.fromB, WrEntries(s, c.fromB)),
      Shift(p.addEn, AddEntries(s, c)), Shift(p.mulEn, MulEntries(s, c)), Shift(p.outSel, OutEntries(s, c)),
      c.rdA2.nxt, c.rdB2.nxt, c.reluA.nxt, c.reluB.nxt, c.mul1.nxt, c.mul2.nxt)
  }
}
