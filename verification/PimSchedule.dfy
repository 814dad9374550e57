/** When each control signal of an instruction is seen by the data path, counted in cycles from its decoding. */
module PimSchedule {
  import opened PimControl
  import opened PimCore
  import opened PimPipeline

  /** A read-side signal in cycle k. */
  function RdSeen(s: Stages, r: Rd, k: nat): nat
  {
    if k == 0 then r.comb
    else Or(Or(When(k == s.mult + 1, r.toAddAftLoad), When(k == s.mult, r.toAdd)), When(k == 1, r.toMAWAftLoad))
  }

  function WrSeen(s: Stages, w: Wr, k: nat): nat
  {
    if k == 0 then w.comb
    else Or(Or(Or(Or(Or(Or(When(k == s.mult + s.add + 1, w.fromMaAAftLoad), When(k == s.mult + s.add, w.fromMaA)),
            When(k == s.add + 1, w.fromAddAftLoad)), When(k == s.add, w.fromAdd)),
              When(k == s.mult + 1, w.fromMulAftLoad)),
            When(k == s.mult, w.fromMul)), When(k == 1, w.fromLoad))
  }

  function RegSeen(r: Reg, k: nat): nat { if k == 0 then r.comb else When(k == 1, r.nxt) }

  function OutSeen(s: Stages, c: Control, k: nat): nat
  {
    if k == 0 then 0 else Or(When(k == s.mult + 1, c.outFromMulAftLoad), When(k == s.mult, c.outFromMul))
  }

  /** What comb_method drives in cycle k. */
  function Driven(c: Control, k: nat): Control { if k == 0 then c else IDLE }

  lemma PipesStep(s: Stages, c: Control, k: nat, next: nat)
    requires s.Valid() && next == k + 1
    ensures Clocked(s, PipesIn(s, c, k), Driven(c, k)) == PipesIn(s, c, next)
  {
    if k == 0 {
      PipesEmpty(s, c, k);
      PipesLoad(s, c);
    } else {
      PipesMove(s, c, k, next);
    }
  }

  lemma RdTap(s: Stages, r: Rd, k: nat)
    requires s.Valid() && k >= 1
    ensures Moved(RdEntries(s, r), k)[s.mult] == RdSeen(s, r, k)
  {
    var j := s.mult - (k - 1);
    if j >= 0 { assert RdEntries(s, r)[j] == RdAt(s, r, j); }
  }

  lemma WrTap(s: Stages, w: Wr, k: nat)
    requires s.Valid() && k >= 1
    ensures Moved(WrEntries(s, w), k)[s.mult + s.add] == WrSeen(s, w, k)
  {
    var j := s.mult + s.add - (k - 1);
    if j >= 0 { assert WrEntries(s, w)[j] == WrAt(s, w, j); }
  }

  lemma OutTap(s: Stages, c: Control, k: nat)
    requires s.Valid() && k >= 1
    ensures Moved(OutEntries(s, c), k)[s.mult] == OutSeen(s, c, k)
  {
    var j := s.mult - (k - 1);
    if j >= 0 { assert OutEntries(s, c)[j] == OutAt(c, j); }
  }

  /** The enable of the multiplier holds in the first mult cycles of a multiplication. */
  predicate MulSeen(s: Stages, c: Control, k: nat)
    requires s.Valid()
  {
    Driven(c, k).mulToMoA != 0 || AnySet(PipesIn(s, c, k).mulEn)
  }

  predicate AddSeen(s: Stages, c: Control, k: nat)
    requires s.Valid()
  {
    Driven(c, k).addToMoA != 0 || AnySet(PipesIn(s, c, k).addEn[s.mult..])
  }

  lemma NoEnables(s: Stages)
    requires s.Valid()
    ensures !AnySet(NoPipes(s).mulEn) && !AnySet(NoPipes(s).addEn[s.mult..])
  {
    NothingMoves(s, 0);
  }

  lemma MulEnabled(s: Stages, c: Control, k: nat)
    requires s.Valid()
    ensures MulSeen(s, c, k) <==> (c.mulToMoA != 0 && k < s.mult) || (c.mulToMoAAftLoad != 0 && 1 <= k < s.mult + 1)
  {
    if k >= 1 {
      var pipe, e := PipesIn(s, c, k).mulEn, MulEntries(s, c);
      if MulSeen(s, c, k) {
        var i :| 0 <= i < |pipe| && pipe[i] != 0;
        assert pipe[i] == e[i - (k - 1)] == MulAt(c, i - (k - 1));
      } else if k <= s.mult {
        assert pipe[k - 1] == e[0] == MulAt(c, 0);
        if k < s.mult { assert pipe[k] == e[1] == MulAt(c, 1); }
      }
    } else {
      NoEnables(s);
    }
  }

  /** Within add cycles of one of the four points at which operands can arrive. */
  predicate AddWindow(s: Stages, c: Control, k: nat)
  {
    || (c.addToMoA != 0 && k < s.add) || (c.addToMoAAftLoad != 0 && 1 <= k < s.add + 1)
    || (c.addToAdd != 0 && s.mult <= k < s.mult + s.add)
    || (c.addToAddAftLoad != 0 && s.mult + 1 <= k < s.mult + s.add + 1)
  }

  lemma AddEnabledOnly(s: Stages, c: Control, k: nat)
    requires s.Valid() && k >= 1 && AddSeen(s, c, k)
    ensures AddWindow(s, c, k)
  {
    var pipe, e := PipesIn(s, c, k).addEn, AddEntries(s, c);
    var i :| 0 <= i < |pipe[s.mult..]| && pipe[s.mult..][i] != 0;
    var j := s.mult + i - (k - 1);
    assert pipe[s.mult + i] == e[j] == AddAt(s, c, j);
  }

  lemma AddEnabledThen(s: Stages, c: Control, k: nat)
    requires s.Valid() && k >= 1 && AddWindow(s, c, k)
    ensures AddSeen(s, c, k)
  {
    var pipe, e := PipesIn(s, c, k).addEn, AddEntries(s, c);
    var j := if c.addToMoA != 0 && k < s.add then s.mult + 1
             else if c.addToMoAAftLoad != 0 && 1 <= k < s.add + 1 then s.mult
             else if c.addToAdd != 0 && s.mult <= k < s.mult + s.add then 1 else 0;
    var i := j + (k - 1);
    assert e[j] == AddAt(s, c, j) != 0;
    assert pipe[i] == e[j];
    assert pipe[s.mult..][i - s.mult] == pipe[i];
  }

  /** The adder is enabled for add cycles from each of its four entry points, and in no other cycle. */
  lemma AddEnabled(s: Stages, c: Control, k: nat)
    requires s.Valid()
    ensures AddSeen(s, c, k) <==> AddWindow(s, c, k)
  {
    if k == 0 {
      NoEnables(s);
    } else {
      if AddSeen(s, c, k) { AddEnabledOnly(s, c, k); }
      if AddWindow(s, c, k) { AddEnabledThen(s, c, k); }
    }
  }

  /** How many cycles the load takes. */
  function Start(i: Instr): nat { if i.Loads() then 1 else 0 }

  /** The cycle in which an instruction writes its result back. */
  function Latency(s: Stages, i: Instr): nat
  {
    Start(i) + match i.op
      case Mov => 0
      case Add => s.add
      case Mul => s.mult
      case Mad | Mac => s.mult + s.add
  }

  /** The result's write signals are seen in the cycle of its latency, and in no other. */
  lemma EmergesOnce(s: Stages, i: Instr, v: nat, k: nat)
    requires s.Valid()
    ensures WrSeen(s, Emerging(i.op, i.Loads(), v), k) == When(k == Latency(s, i), v)
  {
  }

  lemma EarlySeen(s: Stages, i: Instr, v: nat, k: nat)
    requires s.Valid()
    ensures RdSeen(s, Early(i.Loads(), v), k) == When(k == Start(i), v)
    ensures RegSeen(Next(i.Loads(), v), k) == When(k == Start(i), v)
    ensures RdSeen(s, Late(i.Loads(), v), k) == When(k == Start(i) + s.mult, v)
  {
  }

  lemma MergedSeen(s: Stages, i: Instr, v: nat, x: nat, k: nat)
    requires s.Valid()
    ensures RdSeen(s, Merged(Early(i.Loads(), v), Late(i.Loads(), x)), k) ==
            if k == Start(i) then v else When(k == Start(i) + s.mult, x)
    ensures RdSeen(s, Merged(NO_RD, Late(i.Loads(), x)), k) == When(k == Start(i) + s.mult, x)
    ensures RdSeen(s, NO_RD, k) == 0 && WrSeen(s, NO_WR, k) == 0 && RegSeen(NO_REG, k) == 0
  {
  }
}
