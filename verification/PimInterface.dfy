/** The serial-to-parallel interface of the near-memory core (interface_unit.cpp, imc_core.cpp). */
module PimInterface {
  import opened PimControl
  import opened PimCore
  import opened PimPipeline
  import opened PimSchedule
  import opened PimExec
  import PimSequencer

  type Bits = seq<bool>

  /** DQ_BITS and DQ_CLK. */
  datatype Width = Width(bits: nat, clk: nat) {
    predicate Valid() { bits >= 1 && 2 <= clk <= 16 }
  }

  /** The addressed register file, in the order of its code. */
  datatype File = FileCrf | FileSrfM | FileSrfA | FileGrfA | FileGrfB | NoFile

  /** The unit's inputs: PIM mode, row MSB, addressed file and entry, commands and data. */
  datatype Input = Input(pim: bool, rmsb: bool, target: File, entry: nat, rd: bool, wr: bool, dq: Bits)

  /** grf_wr_cnt and grf_ser2par. */
  datatype Serial = Serial(cnt: nat, word: Bits)

  datatype Output = Output(rfAccess: bool, decodeEn: bool, data: Bits)

  predicate IsState(w: Width, s: Serial) { w.Valid() && s.cnt <= w.clk - 1 && |s.word| == w.bits * (w.clk - 1) }

  predicate IsInput(w: Width, i: Input) { |i.dq| == w.bits }

  predicate IsGrf(f: File) { f == FileGrfA || f == FileGrfB }

  /** Assign the bit range that starts at lo. */
  function Put(word: Bits, lo: nat, bits: Bits): (r: Bits)
    requires lo + |bits| <= |word|
    ensures |r| == |word|
  {
    word[..lo] + bits + word[lo + |bits|..]
  }

  function Zero(n: nat): (r: Bits)
    ensures |r| == n
  {
    seq(n, _ => false)
  }

  lemma BeatFits(w: Width, k: nat)
    requires w.Valid() && k < w.clk - 1
    ensures w.bits * k + w.bits <= w.bits * (w.clk - 1) && w.bits * (w.clk - 1) + w.bits == w.bits * w.clk
    ensures w.bits * (k + 1) == w.bits * k + w.bits
  {
    assert w.bits * (w.clk - 1 - (k + 1)) >= 0;
  }

  /** DQ_CLK_GT_2, DQ_CLK_GT_4 and DQ_CLK_GT_8 each add cases. */
  predicate HasCase(w: Width, cnt: nat)
  {
    (w.clk > 2 && 1 <= cnt <= 2) || (w.clk > 4 && 3 <= cnt <= 6) || (w.clk > 8 && 7 <= cnt <= 14)
  }

  /** comb_method: outputs and next register values. The cases of the switch are those the preprocessor leaves for
      DQ_CLK; a counter outside them would be reset. */
  function NextCycle(w: Width, s: Serial, i: Input): (r: (Serial, Output))
    requires IsState(w, s) && IsInput(w, i)
  {
    var none := Output(false, false, Zero(w.bits * w.clk));
    BeatFits(w, 0);
    if !i.pim then (s, none)
    else if !i.rmsb then (s.(cnt := 0), none.(decodeEn := i.rd || i.wr))
    else if s.cnt == 0 then
      if i.target == NoFile then (s, none)
      else if !IsGrf(i.target) then (s, Output(i.wr && !i.rd, false, Put(none.data, 0, i.dq)))
      else if i.wr && !i.rd then (Serial(1, Put(s.word, 0, i.dq)), none)
      else (s, none)
    else if s.cnt < w.clk - 1 then
      BeatFits(w, s.cnt);
      if HasCase(w, s.cnt) then (Serial(s.cnt + 1, Put(s.word, w.bits * s.cnt, i.dq)), none)
      else (Serial(0, s.word), none)
    else (s.(cnt := 0), Output(true, false, s.word + i.dq))
  }

  /** The counter never leaves 0..DQ_CLK - 1, whatever the inputs. */
  lemma CycleKeepsRange(w: Width, s: Serial, i: Input)
    requires IsState(w, s) && IsInput(w, i)
    ensures IsState(w, NextCycle(w, s, i).0)
  {
    BeatFits(w, 0);
    if 0 < s.cnt < w.clk - 1 { BeatFits(w, s.cnt); }
  }

  /** The beats, first one lowest. */
  function Concatenated(beats: seq<Bits>): Bits
  {
    if beats == [] then [] else Concatenated(beats[..|beats| - 1]) + beats[|beats| - 1]
  }

  /** The state after some cycles. */
  function After(w: Width, s: Serial, inputs: seq<Input>): (r: Serial)
    requires IsState(w, s) && forall i :: 0 <= i < |inputs| ==> IsInput(w, inputs[i])
    ensures IsState(w, r)
  {
    if inputs == [] then s
    else
      var before := After(w, s, inputs[..|inputs| - 1]);
      CycleKeepsRange(w, before, inputs[|inputs| - 1]);
      NextCycle(w, before, inputs[|inputs| - 1]).0
  }

  /** The inputs of a GRF write: the command in the first beat, row MSB and PIM mode held. */
  predicate IsWrite(w: Width, inputs: seq<Input>)
  {
    && 1 <= |inputs| <= w.clk && (forall i :: 0 <= i < |inputs| ==>
                                      IsInput(w, inputs[i]) && inputs[i].pim && inputs[i].rmsb)
    && IsGrf(inputs[0].target) && inputs[0].wr && !inputs[0].rd
  }

  function Beats(inputs: seq<Input>): (r: seq<Bits>)
    ensures |r| == |inputs|
  {
    seq(|inputs|, i requires 0 <= i < |inputs| => inputs[i].dq)
  }

  lemma PutFirst(word: Bits, bits: Bits)
    requires |bits| <= |word|
    ensures Put(word, 0, bits)[..|bits|] == bits
  {
  }

  lemma PutNext(word: Bits, lo: nat, bits: Bits)
    requires lo + |bits| <= |word|
    ensures Put(word, lo, bits)[..lo + |bits|] == word[..lo] + bits
  {
  }

  /** One more beat, after n of them. */
  lemma NextBeat(w: Width, before: Serial, i: Input, n: nat)
    requires IsState(w, before) && IsInput(w, i) && before.cnt == n && 1 <= n < w.clk - 1 && i.pim && i.rmsb
    requires w.bits * n <= |before.word|
    ensures var r := NextCycle(w, before, i).0;
            && r.cnt == n + 1 && w.bits * (n + 1) <= |r.word|
            && r.word[..w.bits * (n + 1)] == before.word[..w.bits * n] + i.dq
  {
    BeatFits(w, n);
    PutNext(before.word, w.bits * n, i.dq);
  }

  /** The beats received so far are the low part of the register. */
  lemma {:induction false} Collects(w: Width, s: Serial, inputs: seq<Input>)
    requires IsState(w, s) && s.cnt == 0 && IsWrite(w, inputs) && |inputs| < w.clk
    ensures var r := After(w, s, inputs);
            r.cnt == |inputs| && w.bits * |inputs| <= |r.word|
            && r.word[..w.bits * |inputs|] == Concatenated(Beats(inputs))
    decreases |inputs|
  {
    var n := |inputs| - 1;
    var last := inputs[n];
    BeatFits(w, n);
    assert Beats(inputs)[..n] == Beats(inputs[..n]);
    if n == 0 {
      assert After(w, s, inputs[..0]) == s;
      PutFirst(s.word, last.dq);
      assert Concatenated(Beats(inputs)) == [] + last.dq;
    } else {
      Collects(w, s, inputs[..n]);
      NextBeat(w, After(w, s, inputs[..n]), last, n);
    }
  }

  /** A GRF write held for DQ_CLK beats raises rf_access in its last cycle and in no other, with the beats in order on
      the wide bus, and leaves the counter at 0. */
  lemma WriteDelivers(w: Width, s: Serial, inputs: seq<Input>, k: nat)
    requires IsState(w, s) && s.cnt == 0 && IsWrite(w, inputs) && |inputs| == w.clk && k < w.clk
    ensures var (next, out) := NextCycle(w, After(w, s, inputs[..k]), inputs[k]);
            && out.rfAccess == (k == w.clk - 1) && !out.decodeEn
            && (k == w.clk - 1 ==> out.data == Concatenated(Beats(inputs)) && next.cnt == 0)
  {
    if k == 0 {
      assert After(w, s, inputs[..0]) == s;
    } else {
      Collects(w, s, inputs[..k]);
      if k == w.clk - 1 {
        var before := After(w, s, inputs[..k]);
        assert before.word[..w.bits * k] == before.word;
        assert Beats(inputs)[..k] == Beats(inputs[..k]);
      }
    }
  }

  lemma LaneFits(width: nat, i: nat)
    ensures width * (i + 1) == width * i + width
  {
  }

  /** imc_core, comb_method: lane i of a wide word. */
  function Lane(word: Bits, width: nat, i: nat): (r: Bits)
    requires width * (i + 1) <= |word|
    ensures |r| == width
  {
    LaneFits(width, i);
    word[width * i..width * (i + 1)]
  }

  lemma LanesFit(width: nat, simd: nat, i: nat)
    requires i < simd
    ensures width * (i + 1) <= width * simd
  {
    assert width * (simd - (i + 1)) >= 0;
  }

  /** The SIMD word on the lanes' write ports. */
  function Lanes(word: Bits, width: nat, simd: nat): (r: seq<Bits>)
    requires |word| == width * simd
    ensures |r| == simd
  {
    seq(simd, i requires 0 <= i < simd => LanesFit(width, simd, i); Lane(word, width, i))
  }

  /** What the decoder drives when the interface unit gives access to a register file. */
  function External(f: File, addr: nat): Control
  {
    match f
    case FileGrfA => IDLE.(enA := NO_WR.(comb := 1), addrA := NO_WR.(comb := addr), fromA := NO_WR.(comb := MUX_EXT))
    case FileGrfB => IDLE.(enB := NO_WR.(comb := 1), addrB := NO_WR.(comb := addr), fromB := NO_WR.(comb := MUX_EXT))
    case FileSrfM => IDLE.(srfEn := 1, srfAddr := addr, srfAnM := 0, srfFrom := MUX_EXT)
    case FileSrfA => IDLE.(srfEn := 1, srfAddr := addr, srfAnM := 1, srfFrom := MUX_EXT)
    case _ => IDLE
  }

  /** The registers after an external access. */
  function Accessed<V, S>(r: Regs<V, S>, f: File, addr: nat, bus: Bus<V, S>): Regs<V, S>
  {
    match f
    case FileGrfA => r.(a := Written(r.a, true, addr, bus.ext))
    case FileGrfB => r.(b := Written(r.b, true, addr, bus.ext))
    case FileSrfM => r.(m := Written(r.m, true, addr, bus.extS))
    case FileSrfA => r.(s := Written(r.s, true, addr, bus.extS))
    case _ => r
  }

  /** Outside instruction execution, an access writes the external word to the addressed entry, and nothing else. */
  lemma ExternalWrites<V, S>(g: Algebra<V, S>, s: Stages, core: Core<V, S>, f: File, addr: nat, bus: Bus<V, S>)
    requires Quiet(s, core)
    ensures Cycle(g, s, core, External(f, addr), bus).regs == Accessed(core.regs, f, addr, bus)
  {
    NothingMoves(s, 0);
  }

  /** What the lanes see in the cycle of the last beat. */
  lemma LanesSee(w: Width, s: Serial, inputs: seq<Input>, width: nat, simd: nat, i: nat, out: Output)
    requires IsState(w, s) && s.cnt == 0 && IsWrite(w, inputs) && |inputs| == w.clk && width * simd == w.bits * w.clk
             && i < simd
    requires out == NextCycle(w, After(w, s, inputs[..w.clk - 1]), inputs[w.clk - 1]).1 && |out.data| == width * simd
    ensures out.rfAccess && width * (i + 1) <= |Concatenated(Beats(inputs))|
    ensures Lanes(out.data, width, simd)[i] == Lane(Concatenated(Beats(inputs)), width, i)
  {
    WriteDelivers(w, s, inputs, w.clk - 1);
    LanesFit(width, simd, i);
  }

  lemma {:induction false} ConcatenatedLength(beats: seq<Bits>, bits: nat)
    requires forall n :: 0 <= n < |beats| ==> |beats[n]| == bits
    ensures |Concatenated(beats)| == bits * |beats|
  {
    if beats != [] {
      ConcatenatedLength(beats[..|beats| - 1], bits);
      LaneFits(bits, |beats| - 1);
    }
  }

  /** Bit r of beat q. */
  lemma {:induction false} ConcatenatedAt(beats: seq<Bits>, bits: nat, q: nat, r: nat, at: nat)
    requires (forall n :: 0 <= n < |beats| ==> |beats[n]| == bits) && q < |beats| && r < bits && at == bits * q + r
    ensures at < |Concatenated(beats)| && Concatenated(beats)[at] == beats[q][r]
  {
    var n := |beats| - 1;
    ConcatenatedLength(beats[..n], bits);
    if q < n { ConcatenatedAt(beats[..n], bits, q, r, at); }
  }

  lemma LaneAt(word: Bits, width: nat, i: nat, j: nat, at: nat)
    requires width * (i + 1) <= |word| && j < width && at == width * i + j
    ensures at < |word| && Lane(word, width, i)[j] == word[at]
  {
    LaneFits(width, i);
  }

  /** In the cycle of the last beat, bit j of lane i is bit r of beat q where the two are in one place of the word. */
  lemma LaneBit(w: Width, s: Serial, inputs: seq<Input>, width: nat, simd: nat, i: nat, j: nat, q: nat, r: nat,
                at: nat, out: Output)
    requires IsState(w, s) && s.cnt == 0 && IsWrite(w, inputs) && |inputs| == w.clk && width * simd == w.bits * w.clk
    requires i < simd && j < width && q < w.clk && r < w.bits && at == width * i + j && at == w.bits * q + r
    requires out == NextCycle(w, After(w, s, inputs[..w.clk - 1]), inputs[w.clk - 1]).1 && |out.data| == width * simd
    ensures Lanes(out.data, width, simd)[i][j] == inputs[q].dq[r]
  {
    var word := Concatenated(Beats(inputs));
    LanesSee(w, s, inputs, width, simd, i, out);
    LaneAt(word, width, i, j, at);
    ConcatenatedAt(Beats(inputs), w.bits, q, r, at);
  }

  /** A GRF write, end to end: the file and the entry are those addressed in the cycle of the last beat, in which
      rf_access is raised; lane i of that entry receives its slice of the concatenated beats, and nothing else
      changes. */
  lemma LanesReceive<S>(w: Width, s: Serial, inputs: seq<Input>, width: nat, simd: nat, i: nat, last: Input,
                        out: Output,
                        g: Algebra<seq<Bits>, S>, stages: Stages, core: Core<seq<Bits>, S>, bus: Bus<seq<Bits>, S>)
    requires IsState(w, s) && s.cnt == 0 && IsWrite(w, inputs) && |inputs| == w.clk && width * simd == w.bits * w.clk
             && i < simd
    requires last == inputs[w.clk - 1] && out == NextCycle(w, After(w, s, inputs[..w.clk - 1]), last).1
    requires Quiet(stages, core) && |out.data| == width * simd && bus.ext == Lanes(out.data, width, simd)
    ensures out.rfAccess
    ensures Cycle(g, stages, core, External(last.target, last.entry), bus).regs ==
            Accessed(core.regs, last.target, last.entry, bus)
    ensures width * (i + 1) <= |Concatenated(Beats(inputs))|
            && bus.ext[i] == Lane(Concatenated(Beats(inputs)), width, i)
  {
    LanesSee(w, s, inputs, width, simd, i, out);
    ExternalWrites(g, stages, core, last.target, last.entry, bus);
  }

  /** A column command in PIM mode to a row with MSB 0. */
  predicate Triggers(i: Input) { i.pim && !i.rmsb && (i.rd || i.wr) }

  /** It asks for a decoding in its own cycle, and nothing else does; it gives up a transfer that has begun. */
  lemma DecodesInItsCycle(w: Width, s: Serial, i: Input)
    requires IsState(w, s) && IsInput(w, i)
    ensures NextCycle(w, s, i).1.decodeEn <==> Triggers(i)
    ensures Triggers(i) ==> !NextCycle(w, s, i).1.rfAccess && NextCycle(w, s, i).0.cnt == 0
  {
    if 0 < s.cnt < w.clk - 1 { BeatFits(w, s.cnt); }
  }

  /** And makes the sequencer take one decoding step, unless a NOP is being counted; no other command does. */
  lemma CommandSteps(w: Width, s: Serial, i: Input, p: seq<PimSequencer.Instr>, at: PimSequencer.State,
                     next: PimSequencer.State)
    requires IsState(w, s) && IsInput(w, i) && PimSequencer.IsProgram(p) && PimSequencer.IsState(at)
    requires next == PimSequencer.Cycle(p, at, NextCycle(w, s, i).1.decodeEn)
    ensures Triggers(i) && at.nop == 0 ==> next.(nop := 0) == PimSequencer.Steps(p, at, 1)
    ensures !Triggers(i) || at.nop > 0 ==> next == at.(nop := if at.nop == 0 then 0 else at.nop - 1)
  {
    DecodesInItsCycle(w, s, i);
    if Triggers(i) && at.nop == 0 {
      PimSequencer.CycleKeeps(p, at, true);
      assert PimSequencer.Steps(p, at, 1) == PimSequencer.Steps(p, PimSequencer.Step(p, at), 0);
    } else {
      PimSequencer.StallKeeps(p, at, NextCycle(w, s, i).1.decodeEn);
    }
  }

  /** What the unit tells the decoder in each cycle. */
  function Enables(w: Width, s: Serial, inputs: seq<Input>): (r: seq<bool>)
    requires IsState(w, s) && forall i :: 0 <= i < |inputs| ==> IsInput(w, inputs[i])
    ensures |r| == |inputs|
    decreases |inputs|
  {
    if inputs == [] then []
    else
      CycleKeepsRange(w, s, inputs[0]);
      [NextCycle(w, s, inputs[0]).1.decodeEn] + Enables(w, NextCycle(w, s, inputs[0]).0, inputs[1..])
  }

  function Commands(inputs: seq<Input>): nat
  {
    if inputs == [] then 0 else (if Triggers(inputs[0]) then 1 else 0) + Commands(inputs[1..])
  }

  predicate NoNops(p: seq<PimSequencer.Instr>) { forall i :: 0 <= i < |p| ==> !p[i].Nop? }

  lemma {:induction false} CommandsDecode(w: Width, s: Serial, inputs: seq<Input>, p: seq<PimSequencer.Instr>,
                                          at: PimSequencer.State)
    requires IsState(w, s) && forall i :: 0 <= i < |inputs| ==> IsInput(w, inputs[i])
    requires PimSequencer.IsProgram(p) && NoNops(p) && PimSequencer.JumpsLand(p)
    requires PimSequencer.IsState(at) && at.nop == 0 && PimSequencer.Inside(p, at)
    ensures PimSequencer.Decoded(p, at, Enables(w, s, inputs)) == Commands(inputs)
    ensures PimSequencer.Cycles(p, at, Enables(w, s, inputs)).nop == 0
    decreases |inputs|
  {
    if inputs != [] {
      var enable := NextCycle(w, s, inputs[0]).1.decodeEn;
      CycleKeepsRange(w, s, inputs[0]);
      DecodesInItsCycle(w, s, inputs[0]);
      PimSequencer.CycleKeeps(p, at, enable);
      PimSequencer.CycleStaysInside(p, at, enable);
      CommandsDecode(w, NextCycle(w, s, inputs[0]).0, inputs[1..], p, PimSequencer.Cycle(p, at, enable));
      assert Enables(w, s, inputs)[1..] == Enables(w, NextCycle(w, s, inputs[0]).0, inputs[1..]);
    }
  }

  /** Without NOPs a program takes one step for each column command, whatever else is on the interface. */
  lemma CommandsStep(w: Width, s: Serial, inputs: seq<Input>, p: seq<PimSequencer.Instr>, at: PimSequencer.State)
    requires IsState(w, s) && forall i :: 0 <= i < |inputs| ==> IsInput(w, inputs[i])
    requires PimSequencer.IsProgram(p) && NoNops(p) && PimSequencer.JumpsLand(p)
    requires PimSequencer.IsState(at) && at.nop == 0 && PimSequencer.Inside(p, at)
    ensures PimSequencer.Cycles(p, at, Enables(w, s, inputs)) == PimSequencer.Steps(p, at, Commands(inputs))
  {
    CommandsDecode(w, s, inputs, p, at);
    PimSequencer.OnlyStepsMatter(p, at, Enables(w, s, inputs));
    assert at.(nop := 0) == at;
  }

  predicate IsScalar(f: File) { f == FileCrf || f == FileSrfM || f == FileSrfA }

  /** A write of an instruction or a scalar takes one beat: access in its own cycle, with the beat on the low part of
      the wide bus and zeros above. A read, an address that names no file, and all outside PIM mode do nothing. */
  lemma OneBeat(w: Width, s: Serial, i: Input)
    requires IsState(w, s) && IsInput(w, i) && s.cnt == 0
    ensures var (next, out) := NextCycle(w, s, i);
            && (i.pim && i.rmsb && IsScalar(i.target) && i.wr && !i.rd ==>
                  && out.rfAccess && next == s && out.data[..w.bits] == i.dq
                  && forall j :: w.bits <= j < |out.data| ==> !out.data[j])
            && (!i.pim || (i.rmsb && (i.target == NoFile || i.rd || !i.wr)) ==>
                  !out.rfAccess && !out.decodeEn && next == s)
  {
    BeatFits(w, 0);
  }

  /** The clocked unit. */
  class InterfaceUnit {
    const w: Width
    var cnt: nat
    var word: Bits

    function State(): Serial
      reads this
    {
      Serial(cnt, word)
    }

    constructor (w: Width)
      requires w.Valid()
      ensures this.w == w && IsState(w, State()) && cnt == 0
    {
      this.w, cnt := w, 0;
      word := Zero(w.bits * (w.clk - 1));
    }

    /** One cycle: the combinational logic, then the edge. */
    method Clock(i: Input) returns (out: Output)
      requires IsState(w, State()) && IsInput(w, i)
      modifies this
      ensures IsState(w, State()) && old(IsState(w, State())) && (State(), out) == NextCycle(w, old(State()), i)
    {
      CycleKeepsRange(w, State(), i);
      BeatFits(w, 0);
      if 0 < cnt < w.clk - 1 { BeatFits(w, cnt); }
      var cntNxt, wordNxt := cnt, word;
      var rfAccess, decodeEn, data := false, false, Zero(w.bits * w.clk);
      if i.pim {
        if !i.rmsb {
          decodeEn, cntNxt := i.rd || i.wr, 0;
        } else if cnt == 0 {
          if i.target != NoFile {
            if !IsGrf(i.target) {
              data, rfAccess := Put(data, 0, i.dq), i.wr && !i.rd;
            } else if i.wr && !i.rd {
              cntNxt, wordNxt := 1, Put(word, 0, i.dq);
            }
          }
        } else if cnt < w.clk - 1 {
          if HasCase(w, cnt) {
            cntNxt, wordNxt := cnt + 1, Put(word, w.bits * cnt, i.dq);
          } else {
            cntNxt := 0;
          }
        } else {
          cntNxt, data, rfAccess := 0, word + i.dq, true;
        }
      }
      cnt, word := cntNxt, wordNxt;
      out := Output(rfAccess, decodeEn, data);
    }
  }
}
