/** Programs on the assembled core, from reset on. */
module PimRun {
  import opened PimControl
  import opened PimCore
  import opened PimPipeline
  import opened PimSchedule
  import opened PimExec
  import opened PimProgram
  import opened PimIsa
  import opened PimHardware

  /** The state of the trace after the first j cycles. */
  function TraceAt<V, S>(g: Algebra<V, S>, s: Stages, core: Core<V, S>, c: Control, bus: seq<Bus<V, S>>,
                         j: nat): (r: Core<V, S>)
    requires IsCore(s, core) && j <= |bus|
    ensures IsCore(s, r)
  {
    Trace(g, s, core, c, bus[..j])[j]
  }

  lemma TraceStep<V, S>(g: Algebra<V, S>, s: Stages, core: Core<V, S>, c: Control, bus: seq<Bus<V, S>>, j: nat,
                        next: nat)
    requires IsCore(s, core) && j < |bus| && next == j + 1
    ensures TraceAt(g, s, core, c, bus, next) == Cycle(g, s, TraceAt(g, s, core, c, bus, j), Driven(c, j), bus[j])
  {
    assert bus[..next][..j] == bus[..j];
  }

  /** One instruction: driven in its first cycle, and nothing decoded afterwards. */
  method Instruction<V(==, !new), S(==, !new)>(core: ImcCore<V, S>, i: Instr, bus: seq<Bus<V, S>>)
    requires core.Valid() && IsCore(core.decoder.stages, core.State())
    modifies core.decoder, core.multiplier.pipeline, core.adder.pipeline, core.grfA.reg, core.grfB.reg, core.srfM.reg,
             core.srfA.reg
    ensures core.Valid() && IsCore(core.decoder.stages, old(core.State()))
    ensures core.State() == Trace(core.g, core.decoder.stages, old(core.State()), Decode(i), bus)[|bus|]
  {
    ghost var g, s, k := core.g, core.decoder.stages, core.State();
    var j := 0;
    while j < |bus|
      invariant j <= |bus| && core.Valid() && core.State() == TraceAt(g, s, k, Decode(i), bus, j)
    {
      TraceStep(g, s, k, Decode(i), bus, j, j + 1);
      core.Clock(Driven(Decode(i), j), bus[j]);
      j := j + 1;
    }
    assert bus[..j] == bus;
  }

  /** A program, instruction after instruction. */
  method Execute<V(==, !new), S(==, !new)>(core: ImcCore<V, S>, p: seq<Slot<V, S>>)
    requires core.Valid() && IsCore(core.decoder.stages, core.State())
    modifies core.decoder, core.multiplier.pipeline, core.adder.pipeline, core.grfA.reg, core.grfB.reg, core.srfM.reg,
             core.srfA.reg
    ensures core.Valid() && IsCore(core.decoder.stages, old(core.State()))
    ensures core.State() == Ran(core.g, core.decoder.stages, old(core.State()), p)
  {
    ghost var g, s, k := core.g, core.decoder.stages, core.State();
    var n := 0;
    while n < |p|
      invariant n <= |p| && core.Valid() && core.State() == Ran(g, s, k, p[..n])
    {
      assert p[..n + 1][..n] == p[..n];
      Instruction(core, p[n].i, p[n].bus);
      n := n + 1;
    }
    assert p[..n] == p;
  }

  /** A new core ends every spaced program without the exceptional family with the registers of the instruction set,
      as its interpreter computes them, and as the fields of the instructions name them. */
  method ExecuteFromReset<V(==, !new), S(==, !new)>(g: Algebra<V, S>, s: Stages, grf: nat, srfM: nat, srfA: nat,
                                                    p: seq<Slot<V, S>>)
    returns (core: ImcCore<V, S>)
    requires s.Valid() && IsProgram(s, p) && forall j :: 0 <= j < |p| ==> !Misported(p[j].i)
    ensures core.Valid() && Quiet(s, core.State())
            && core.State().regs == Interpreted(g, s, Cleared(g, grf, srfM, srfA), p)
    ensures core.State().regs == Meaning(g, s, Cleared(g, grf, srfM, srfA), p)
  {
    core := new ImcCore(g, s, grf, srfM, srfA);
    PipelineRefinesInterpreter(g, s, core.State(), p);
    ProgramMeans(g, s, core.State(), p);
    Execute(core, p);
  }
}
