/** The clocked processes of the near-memory core, as they assign their signals and arrays. */
module PimHardware {
  import opened PimControl
  import opened PimCore
  import opened PimPipeline

  // A signal written in one cycle is read in the next, so every pipeline is computed from its value before the edge.

  lemma OrHalves(x: nat, y: nat)
    ensures Or(x, y) / 2 == Or(x / 2, y / 2) && Or(x, y) % 2 == if x % 2 == 1 || y % 2 == 1 then 1 else 0
  {
  }

  lemma {:induction false} OrAssociates(x: nat, y: nat, z: nat)
    ensures Or(Or(x, y), z) == Or(x, Or(y, z))
    decreases x + y + z
  {
    if x > 0 && y > 0 && z > 0 {
      OrAssociates(x / 2, y / 2, z / 2);
      OrHalves(x, y);
      OrHalves(y, z);
    }
  }

  /** The pipelines towards the operand multiplexers; the two branches are those of the preprocessor. */
  method ShiftRead(s: Stages, pipe: seq<nat>, r: Rd) returns (next: seq<nat>)
    requires s.Valid() && |pipe| == 1 + s.mult
    ensures next == Shift(pipe, RdEntries(s, r))
  {
    var e := new nat[1 + s.mult];
    e[0] := r.toAddAftLoad;
    if s.mult > 1 {
      e[1] := Or(pipe[0], r.toAdd);
      var i := 2;
      while i < s.mult
        invariant 2 <= i <= s.mult && e[0] == r.toAddAftLoad && e[1] == Or(pipe[0], r.toAdd)
        invariant forall j :: 2 <= j < i ==> e[j] == pipe[j - 1]
      {
        e[i] := pipe[i - 1];
        i := i + 1;
      }
      e[s.mult] := Or(pipe[s.mult - 1], r.toMAWAftLoad);
    } else {
      e[1] := Or(Or(pipe[0], r.toAdd), r.toMAWAftLoad);
      OrAssociates(pipe[0], r.toAdd, r.toMAWAftLoad);
    }
    next := e[..];
    forall j: nat | j < 1 + s.mult ensures next[j] == Shift(pipe, RdEntries(s, r))[j] {
      assert RdEntries(s, r)[j] == RdAt(s, r, j);
    }
  }

  method OrInto(a: array<nat>, at: nat, v: nat)
    requires at < a.Length
    modifies a
    ensures forall j: nat :: j < a.Length ==> a[j] == Or(old(a[j]), When(j == at, v))
  {
    a[at] := Or(a[at], v);
  }

  /** The scratch array of the write ports: cleared, then every entry point or-ed in. */
  method CollectWrites(s: Stages, w: Wr) returns (pipe: seq<nat>)
    requires s.Valid()
    ensures pipe == WrEntries(s, w)
  {
    var n := 1 + s.mult + s.add;
    var scratch := new nat[n](_ => 0);
    OrInto(scratch, 0, w.fromMaAAftLoad);
    OrInto(scratch, 1, w.fromMaA);
    OrInto(scratch, s.mult, w.fromAddAftLoad);
    OrInto(scratch, s.mult + 1, w.fromAdd);
    OrInto(scratch, s.add, w.fromMulAftLoad);
    OrInto(scratch, s.add + 1, w.fromMul);
    OrInto(scratch, s.mult + s.add, w.fromLoad);
    pipe := scratch[..];
    forall j: nat | j < n ensures pipe[j] == WrEntries(s, w)[j] {
      assert pipe[j] == WrAt(s, w, j);
      assert WrEntries(s, w)[j] == WrAt(s, w, j);
    }
  }

  /** The pipelines towards the write ports. */
  method ShiftWrite(s: Stages, pipe: seq<nat>, w: Wr) returns (next: seq<nat>)
    requires s.Valid() && |pipe| == 1 + s.mult + s.add
    ensures next == Shift(pipe, WrEntries(s, w))
  {
    var scratch := CollectWrites(s, w);
    var e := new nat[1 + s.mult + s.add];
    e[0] := scratch[0];
    var i := 1;
    while i < e.Length
      invariant 1 <= i <= e.Length && e[0] == scratch[0] && forall j :: 1 <= j < i ==>
                  e[j] == Or(pipe[j - 1], scratch[j])
    {
      e[i] := Or(pipe[i - 1], scratch[i]);
      i := i + 1;
    }
    next := e[..];
  }

  /** The adder's enables: the first positions as in ShiftRead, then one more entry after the multiplier's stages. */
  method ShiftAddEnable(s: Stages, pipe: seq<nat>, c: Control) returns (next: seq<nat>)
    requires s.Valid() && |pipe| == s.mult + s.add
    ensures next == Shift(pipe, AddEntries(s, c))
  {
    var toMul := Rd(0, c.addToAddAftLoad, c.addToAdd, c.addToMoAAftLoad);
    var head := ShiftRead(s, pipe[..1 + s.mult], toMul);
    var e := new nat[s.mult + s.add](i requires 0 <= i < s.mult + s.add => if i <= s.mult then head[i] else 0);
    if s.add > 1 {
      e[s.mult + 1] := Or(pipe[s.mult], c.addToMoA);
      var i := s.mult + 2;
      while i < s.mult + s.add
        invariant s.mult + 2 <= i <= s.mult + s.add && e[s.mult + 1] == Or(pipe[s.mult], c.addToMoA)
        invariant forall j :: 0 <= j <= s.mult ==> e[j] == head[j]
        invariant forall j :: s.mult + 2 <= j < i ==> e[j] == pipe[j - 1]
      {
        e[i] := pipe[i - 1];
        i := i + 1;
      }
    }
    next := e[..];
    forall j: nat | j < s.mult + s.add ensures next[j] == Shift(pipe, AddEntries(s, c))[j] {
      assert AddEntries(s, c)[j] == AddAt(s, c, j);
      if j <= s.mult { assert RdEntries(s, toMul)[j] == RdAt(s, toMul, j); }
    }
  }

  method ShiftMulEnable(s: Stages, pipe: seq<nat>, c: Control) returns (next: seq<nat>)
    requires s.Valid() && |pipe| == s.mult
    ensures next == Shift(pipe, MulEntries(s, c))
  {
    var e := new nat[s.mult];
    e[0] := c.mulToMoAAftLoad;
    if s.mult > 1 {
      e[1] := Or(pipe[0], c.mulToMoA);
      var i := 2;
      while i < s.mult
        invariant 2 <= i <= s.mult && e[0] == c.mulToMoAAftLoad && e[1] == Or(pipe[0], c.mulToMoA)
        invariant forall j :: 2 <= j < i ==> e[j] == pipe[j - 1]
      {
        e[i] := pipe[i - 1];
        i := i + 1;
      }
    }
    next := e[..];
    forall j: nat | j < s.mult ensures next[j] == Shift(pipe, MulEntries(s, c))[j] {
      assert MulEntries(s, c)[j] == MulAt(c, j);
    }
  }

  method ShiftOutSelect(s: Stages, pipe: seq<nat>, c: Control) returns (next: seq<nat>)
    requires s.Valid() && |pipe| == 1 + s.mult
    ensures next == Shift(pipe, OutEntries(s, c))
  {
    var e := new nat[1 + s.mult];
    e[0] := c.outFromMulAftLoad;
    e[1] := Or(pipe[0], c.outFromMul);
    var i := 2;
    while i < 1 + s.mult
      invariant 2 <= i <= 1 + s.mult && e[0] == c.outFromMulAftLoad && e[1] == Or(pipe[0], c.outFromMul)
      invariant forall j :: 2 <= j < i ==> e[j] == pipe[j - 1]
    {
      e[i] := pipe[i - 1];
      i := i + 1;
    }
    next := e[..];
    forall j: nat | j < 1 + s.mult ensures next[j] == Shift(pipe, OutEntries(s, c))[j] {
      assert OutEntries(s, c)[j] == OutAt(c, j);
    }
  }

  function Filled<T>(n: nat, zero: T): (r: seq<T>)
    ensures |r| == n && forall i :: 0 <= i < n ==> r[i] == zero
  {
    seq(n, _ => zero)
  }

  class InstrDecoder {
    const stages: Stages
    var pipes: Pipes

    ghost predicate Valid()
      reads this
    {
      IsPipes(stages, pipes)
    }

    /** Reset. */
    constructor (stages: Stages)
      requires stages.Valid()
      ensures Valid() && this.stages == stages && pipes == NoPipes(stages)
    {
      this.stages := stages;
      pipes := NoPipes(stages);
    }

    /** clk_thread: every register takes its next value, every pipeline advances. */
    method ClkThread(c: Control)
      requires Valid()
      modifies this
      ensures Valid() && pipes == Clocked(stages, old(pipes), c)
    {
      var p := pipes;
      var rdA1 := ShiftRead(stages, p.rdA1, c.rdA1);
      var enA := ShiftWrite(stages, p.enA, c.enA);
      var addrA := ShiftWrite(stages, p.addrA, c.addrA);
      var fromA := ShiftWrite(stages, p.fromA, c.fromA);
      var rdB1 := ShiftRead(stages, p.rdB1, c.rdB1);
      var enB := ShiftWrite(stages, p.enB, c.enB);
      var addrB := ShiftWrite(stages, p.addrB, c.addrB);
      var fromB := ShiftWrite(stages, p.fromB, c.fromB);
      var rdS := ShiftRead(stages, p.rdS, c.rdS);
      var rdSAnM := ShiftRead(stages, p.rdSAnM, c.rdSAnM);
      var in1 := ShiftRead(stages, p.in1, c.in1);
      var in2 := ShiftRead(stages, p.in2, c.in2);
      var addEn := ShiftAddEnable(stages, p.addEn, c);
      var mulEn := ShiftMulEnable(stages, p.mulEn, c);
      var outSel := ShiftOutSelect(stages, p.outSel, c);
      pipes := Pipes(rdA1, rdB1, rdS, rdSAnM, in1, in2, enA, addrA, fromA, enB, addrB, fromB, addEn, mulEn, outSel,
                     c.rdA2.nxt, c.rdB2.nxt, c.reluA.nxt, c.reluB.nxt, c.mul1.nxt, c.mul2.nxt);
    }
  }

  /** fp_multiplier and fp_adder: a pipeline array that advances in place when it is enabled. */
  class FpUnit<V> {
    const pipeline: array<V>

    constructor (stages: nat, zero: V)
      requires stages >= 1
      ensures fresh(pipeline) && pipeline[..] == Filled(stages, zero)
    {
      pipeline := new V[stages](_ => zero);
    }

    method ClkThread(computeEn: bool, res: V)
      requires pipeline.Length >= 1
      modifies pipeline
      ensures pipeline[..] == Pushed(old(pipeline[..]), computeEn, res)
    {
      if computeEn {
        var i := pipeline.Length - 1;
        while i > 0
          invariant 0 <= i < pipeline.Length
          invariant forall j :: 0 <= j <= i ==> pipeline[j] == old(pipeline[j])
          invariant forall j :: i < j < pipeline.Length ==> pipeline[j] == old(pipeline[j - 1])
        {
          pipeline[i] := pipeline[i - 1];
          i := i - 1;
        }
        pipeline[0] := res;
      }
    }
  }

  /** rf_threeport and rf_twoport. */
  class RegisterFile<T> {
    const reg: array<T>

    constructor (size: nat, zero: T)
      ensures fresh(reg) && reg[..] == Filled(size, zero)
    {
      reg := new T[size](_ => zero);
    }

    method Clock(wrEn: bool, wrAddr: nat, wrPort: T)
      modifies reg
      ensures reg[..] == Written(old(reg[..]), wrEn, wrAddr, wrPort)
    {
      if wrEn && wrAddr < reg.Length {
        reg[wrAddr] := wrPort;
      }
    }

    method Read(rdAddr: nat, zero: T) returns (rdPort: T)
      ensures rdPort == Port(reg[..], rdAddr, zero)
    {
      if rdAddr < reg.Length {
        rdPort := reg[rdAddr];
      } else {
        rdPort := zero;
      }
    }
  }

  /** out_method: the loop that or-s the enables of the stages from lo on. */
  method AnyEnabled(pipe: seq<nat>, lo: nat, now: bool) returns (en: bool)
    requires lo <= |pipe|
    ensures en == (now || AnySet(pipe[lo..]))
  {
    en := now;
    var i := lo;
    while i < |pipe|
      invariant lo <= i <= |pipe| && en == (now || exists j :: lo <= j < i && pipe[j] != 0)
    {
      en := en || pipe[i] != 0;
      i := i + 1;
    }
    assert now || AnySet(pipe[lo..]) ==> en by {
      if AnySet(pipe[lo..]) {
        var j :| 0 <= j < |pipe[lo..]| && pipe[lo..][j] != 0;
        assert pipe[lo + j] != 0;
      }
    }
    if en && !now {
      var j :| lo <= j < |pipe| && pipe[j] != 0;
      assert pipe[lo..][j - lo] != 0;
    }
  }

  /** The register files after reset. */
  function Cleared<V, S>(g: Algebra<V, S>, grfEntries: nat, srfMEntries: nat, srfAEntries: nat): Regs<V, S>
  {
    Regs(Filled(grfEntries, g.zeroV), Filled(grfEntries, g.zeroV), Filled(srfMEntries, g.zeroS),
         Filled(srfAEntries, g.zeroS))
  }

  /** The core: decoder, FPU and register files on one clock. */
  class ImcCore<V(==), S(==)> {
    const g: Algebra<V, S>
    const decoder: InstrDecoder
    const multiplier: FpUnit<V>
    const adder: FpUnit<V>
    const grfA: RegisterFile<V>
    const grfB: RegisterFile<V>
    const srfM: RegisterFile<S>
    const srfA: RegisterFile<S>

    ghost predicate Valid()
      reads this, decoder
    {
      && decoder.Valid()
      && multiplier.pipeline.Length == decoder.stages.mult && adder.pipeline.Length == decoder.stages.add
      && multiplier.pipeline != adder.pipeline && grfA.reg != grfB.reg && srfM.reg != srfA.reg
      && multiplier.pipeline != grfA.reg && multiplier.pipeline != grfB.reg && adder.pipeline != grfA.reg
      && adder.pipeline != grfB.reg
      && {srfM.reg as object, srfA.reg as object} !! {multiplier.pipeline as object, adder.pipeline as object,
                                                      grfA.reg as object, grfB.reg as object}
    }

    function State(): Core<V, S>
      reads this, decoder, multiplier.pipeline, adder.pipeline, grfA.reg, grfB.reg, srfM.reg, srfA.reg
    {
      Core(decoder.pipes, multiplier.pipeline[..], adder.pipeline[..],
           Regs(grfA.reg[..], grfB.reg[..], srfM.reg[..], srfA.reg[..]))
    }

    constructor (g: Algebra<V, S>, stages: Stages, grfEntries: nat, srfMEntries: nat, srfAEntries: nat)
      requires stages.Valid()
      ensures Valid() && this.g == g && decoder.stages == stages
      ensures fresh(decoder) && fresh(multiplier.pipeline) && fresh(adder.pipeline)
      ensures fresh(grfA.reg) && fresh(grfB.reg) && fresh(srfM.reg) && fresh(srfA.reg)
      ensures State() == Core(NoPipes(stages), Filled(stages.mult, g.zeroV), Filled(stages.add, g.zeroV),
                              Cleared(g, grfEntries, srfMEntries, srfAEntries))
    {
      this.g := g;
      decoder := new InstrDecoder(stages);
      multiplier := new FpUnit(stages.mult, g.zeroV);
      adder := new FpUnit(stages.add, g.zeroV);
      grfA := new RegisterFile(grfEntries, g.zeroV);
      grfB := new RegisterFile(grfEntries, g.zeroV);
      srfM := new RegisterFile(srfMEntries, g.zeroS);
      srfA := new RegisterFile(srfAEntries, g.zeroS);
    }

    /** The read ports and pipeline outputs of this cycle. */
    method Outputs(c: Control) returns (w: Wires<V, S>)
      requires Valid()
      ensures IsCore(decoder.stages, State()) && w == PimCore.Read(g, decoder.stages, State(), c)
    {
      var s, p := decoder.stages, decoder.pipes;
      var a1 := grfA.Read(Or(c.rdA1.comb, p.rdA1[s.mult]), g.zeroV);
      var a2 := grfA.Read(Or(c.rdA2.comb, p.rdA2), g.zeroV);
      var b1 := grfB.Read(Or(c.rdB1.comb, p.rdB1[s.mult]), g.zeroV);
      var b2 := grfB.Read(Or(c.rdB2.comb, p.rdB2), g.zeroV);
      var fromM := srfM.Read(Or(c.rdS.comb, p.rdS[s.mult]), g.zeroS);
      var fromA := srfA.Read(Or(c.rdS.comb, p.rdS[s.mult]), g.zeroS);
      w := Wires(a1, a2, b1, b2, if Or(c.rdSAnM.comb, p.rdSAnM[s.mult]) != 0 then fromA else fromM,
                 multiplier.pipeline[s.mult - 1], adder.pipeline[s.add - 1]);
    }

    /** The register files' edge: each writes what its multiplexer selects. */
    method Store(c: Control, bus: Bus<V, S>, k: Core<V, S>, w: Wires<V, S>)
      requires Valid() && IsCore(decoder.stages, k) && k.regs == State().regs
      modifies grfA.reg, grfB.reg, srfM.reg, srfA.reg
      ensures Regs(grfA.reg[..], grfB.reg[..], srfM.reg[..], srfA.reg[..]) == Stored(g, decoder.stages, k, w, c, bus)
    {
      var p, last := k.pipes, decoder.stages.mult + decoder.stages.add;
      var fpu := if p.outSel[decoder.stages.mult] != 0 then w.mulOut else w.addOut;
      grfA.Clock(Or(c.enA.comb, p.enA[last]) != 0, Or(c.addrA.comb, p.addrA[last]),
                 GrfIn(g, w, fpu, bus.even, bus.ext, Or(c.fromA.comb, p.fromA[last]), Or(c.reluA.comb, p.reluA) != 0));
      grfB.Clock(Or(c.enB.comb, p.enB[last]) != 0, Or(c.addrB.comb, p.addrB[last]),
                 GrfIn(g, w, fpu, bus.odd, bus.ext, Or(c.fromB.comb, p.fromB[last]), Or(c.reluB.comb, p.reluB) != 0));
      srfM.Clock(c.srfEn != 0 && c.srfAnM == 0, c.srfAddr, SrfIn(g, w, bus.extS, c.srfFrom));
      srfA.Clock(c.srfEn != 0 && c.srfAnM != 0, c.srfAddr, SrfIn(g, w, bus.extS, c.srfFrom));
    }

    /** The FPU's edge. */
    method Compute(c: Control, bus: Bus<V, S>, k: Core<V, S>, w: Wires<V, S>)
      requires Valid() && IsCore(decoder.stages, k) && k == State()
      modifies multiplier.pipeline, adder.pipeline
      ensures multiplier.pipeline[..] == Pushed(k.mul, c.mulToMoA != 0 || AnySet(k.pipes.mulEn),
                                                Multiplied(g, k, w, c, bus))
      ensures adder.pipeline[..] ==
              Pushed(k.add, c.addToMoA != 0 || AnySet(k.pipes.addEn[decoder.stages.mult..]),
                     Added(g, decoder.stages, k, w, c, bus))
    {
      var mulEn := AnyEnabled(k.pipes.mulEn, 0, c.mulToMoA != 0);
      var addEn := AnyEnabled(k.pipes.addEn, decoder.stages.mult, c.addToMoA != 0);
      assert k.pipes.mulEn[0..] == k.pipes.mulEn;
      multiplier.ClkThread(mulEn, Multiplied(g, k, w, c, bus));
      adder.ClkThread(addEn, Added(g, decoder.stages, k, w, c, bus));
    }

    /** One clock edge: every process acts on the values before it. */
    method Clock(c: Control, bus: Bus<V, S>)
      requires Valid()
      modifies decoder, multiplier.pipeline, adder.pipeline, grfA.reg, grfB.reg, srfM.reg, srfA.reg
      ensures Valid() && old(IsCore(decoder.stages, State()))
              && State() == Cycle(g, decoder.stages, old(State()), c, bus)
    {
      var k := State();
      var w := Outputs(c);
      ghost var next := Cycle(g, decoder.stages, k, c, bus);
      Compute(c, bus, k, w);
      assert multiplier.pipeline[..] == next.mul && adder.pipeline[..] == next.add;
      Store(c, bus, k, w);
      assert State().regs == next.regs;
      decoder.ClkThread(c);
      assert decoder.pipes == next.pipes;
    }
  }
}
