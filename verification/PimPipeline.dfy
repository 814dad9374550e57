/** Signals in the shift registers of the decoder, any number of edges after they entered. */
module PimPipeline {
  import opened PimControl
  import opened PimCore

  /** An entry vector in the k-th cycle after it was loaded into an empty pipeline; in cycle 0 nothing is there yet. */
  function Moved(e: seq<nat>, k: nat): (r: seq<nat>)
    ensures |r| == |e|
  {
    seq<nat>(|e|, i requires 0 <= i < |e| => if 1 <= k <= i + 1 then e[i + 1 - k] else 0)
  }

  function Zeros(n: nat): (r: seq<nat>)
    ensures |r| == n
  {
    seq<nat>(n, _ => 0)
  }

  lemma ShiftLoads(n: nat, e: seq<nat>)
    requires |e| == n
    ensures Shift(Zeros(n), e) == Moved(e, 1)
  {
  }

  lemma ShiftMoves(e: seq<nat>, k: nat, next: nat)
    requires 1 <= k && next == k + 1
    ensures Shift(Moved(e, k), Zeros(|e|)) == Moved(e, next)
  {
  }

  lemma MovedOut(e: seq<nat>, k: nat)
    requires k == 0 || k > |e|
    ensures Moved(e, k) == Zeros(|e|)
  {
  }

  lemma AllZero(e: seq<nat>)
    requires forall i :: 0 <= i < |e| ==> e[i] == 0
    ensures e == Zeros(|e|)
  {
  }

  lemma IdleEntries(s: Stages)
    requires s.Valid()
    ensures RdEntries(s, NO_RD) == Zeros(1 + s.mult) && WrEntries(s, NO_WR) == Zeros(1 + s.mult + s.add)
    ensures AddEntries(s, IDLE) == Zeros(s.mult + s.add) && MulEntries(s, IDLE) == Zeros(s.mult)
            && OutEntries(s, IDLE) == Zeros(1 + s.mult)
  {
    forall i: nat | i < 1 + s.mult
      ensures RdEntries(s, NO_RD)[i] == 0
    {
      assert RdEntries(s, NO_RD)[i] == RdAt(s, NO_RD, i);
    }
    AllZero(RdEntries(s, NO_RD));
    forall i: nat | i < 1 + s.mult + s.add
      ensures WrEntries(s, NO_WR)[i] == 0
    {
      assert WrEntries(s, NO_WR)[i] == WrAt(s, NO_WR, i);
    }
    AllZero(WrEntries(s, NO_WR));
    forall i: nat | i < s.mult + s.add
      ensures AddEntries(s, IDLE)[i] == 0
    {
      assert AddEntries(s, IDLE)[i] == AddAt(s, IDLE, i);
    }
    AllZero(AddEntries(s, IDLE));
    forall i: nat | i < s.mult ensures MulEntries(s, IDLE)[i] == 0 { assert MulEntries(s, IDLE)[i] == MulAt(IDLE, i); }
    AllZero(MulEntries(s, IDLE));
    forall i: nat | i < 1 + s.mult
      ensures OutEntries(s, IDLE)[i] == 0
    {
      assert OutEntries(s, IDLE)[i] == OutAt(IDLE, i);
    }
    AllZero(OutEntries(s, IDLE));
  }

  /** The decoder's registers in cycle k, when c is decoded in cycle 0 in empty pipelines. */
  function PipesIn(s: Stages, c: Control, k: nat): (p: Pipes)
    requires s.Valid()
    ensures IsPipes(s, p)
  {
    Pipes(
      Moved(RdEntries(s, c.rdA1), k), Moved(RdEntries(s, c.rdB1), k), Moved(RdEntries(s, c.rdS), k),
      Moved(RdEntries(s, c.rdSAnM), k), Moved(RdEntries(s, c.in1), k), Moved(RdEntries(s, c.in2), k),
      Moved(WrEntries(s, c.enA), k), Moved(WrEntries(s, c.addrA), k), Moved(WrEntries(s, c.fromA), k),
      Moved(WrEntries(s, c.enB), k), Moved(WrEntries(s, c.addrB), k), Moved(WrEntries(s, c.fromB), k),
      Moved(AddEntries(s, c), k), Moved(MulEntries(s, c), k), Moved(OutEntries(s, c), k),
      When(k == 1, c.rdA2.nxt), When(k == 1, c.rdB2.nxt), When(k == 1, c.reluA.nxt), When(k == 1, c.reluB.nxt),
      When(k == 1, c.mul1.nxt), When(k == 1, c.mul2.nxt))
  }

  function NoPipes(s: Stages): Pipes
    requires s.Valid()
  {
    PipesIn(s, IDLE, 0)
  }

  lemma MovedZeros(n: nat, k: nat)
    ensures Moved(Zeros(n), k) == Zeros(n)
  {
    AllZero(Moved(Zeros(n), k));
  }

  lemma NothingMoves(s: Stages, k: nat)
    requires s.Valid()
    ensures PipesIn(s, IDLE, k) == NoPipes(s)
    ensures var p := NoPipes(s);
            && p.rdA1 == p.rdB1 == p.rdS == p.rdSAnM == p.in1 == p.in2 == p.outSel == Zeros(1 + s.mult)
            && p.enA == p.addrA == p.fromA == p.enB == p.addrB == p.fromB == Zeros(1 + s.mult + s.add)
            && p.addEn == Zeros(s.mult + s.add) && p.mulEn == Zeros(s.mult)
  {
    IdleEntries(s);
    MovedZeros(1 + s.mult, 0);
    MovedZeros(1 + s.mult + s.add, 0);
    MovedZeros(s.mult + s.add, 0);
    MovedZeros(s.mult, 0);
    MovedZeros(1 + s.mult, k);
    MovedZeros(1 + s.mult + s.add, k);
    MovedZeros(s.mult + s.add, k);
    MovedZeros(s.mult, k);
  }

  /** Decoding into empty pipelines. */
  lemma PipesLoad(s: Stages, c: Control)
    requires s.Valid()
    ensures Clocked(s, NoPipes(s), c) == PipesIn(s, c, 1)
  {
    NothingMoves(s, 0);
    ShiftLoads(1 + s.mult, RdEntries(s, c.rdA1));
    ShiftLoads(1 + s.mult, RdEntries(s, c.rdB1));
    ShiftLoads(1 + s.mult, RdEntries(s, c.rdS));
    ShiftLoads(1 + s.mult, RdEntries(s, c.rdSAnM));
    ShiftLoads(1 + s.mult, RdEntries(s, c.in1));
    ShiftLoads(1 + s.mult, RdEntries(s, c.in2));
    ShiftLoads(1 + s.mult + s.add, WrEntries(s, c.enA));
    ShiftLoads(1 + s.mult + s.add, WrEntries(s, c.addrA));
    ShiftLoads(1 + s.mult + s.add, WrEntries(s, c.fromA));
    ShiftLoads(1 + s.mult + s.add, WrEntries(s, c.enB));
    ShiftLoads(1 + s.mult + s.add, WrEntries(s, c.addrB));
    ShiftLoads(1 + s.mult + s.add, WrEntries(s, c.fromB));
    ShiftLoads(s.mult + s.add, AddEntries(s, c));
    ShiftLoads(s.mult, MulEntries(s, c));
    ShiftLoads(1 + s.mult, OutEntries(s, c));
  }

  /** An idle cycle moves everything one place on. */
  lemma PipesMove(s: Stages, c: Control, k: nat, next: nat)
    requires s.Valid() && 1 <= k && next == k + 1
    ensures Clocked(s, PipesIn(s, c, k), IDLE) == PipesIn(s, c, next)
  {
    IdleEntries(s);
    ShiftMoves(RdEntries(s, c.rdA1), k, next);
    ShiftMoves(RdEntries(s, c.rdB1), k, next);
    ShiftMoves(RdEntries(s, c.rdS), k, next);
    ShiftMoves(RdEntries(s, c.rdSAnM), k, next);
    ShiftMoves(RdEntries(s, c.in1), k, next);
    ShiftMoves(RdEntries(s, c.in2), k, next);
    ShiftMoves(WrEntries(s, c.enA), k, next);
    ShiftMoves(WrEntries(s, c.addrA), k, next);
    ShiftMoves(WrEntries(s, c.fromA), k, next);
    ShiftMoves(WrEntries(s, c.enB), k, next);
    ShiftMoves(WrEntries(s, c.addrB), k, next);
    ShiftMoves(WrEntries(s, c.fromB), k, next);
    ShiftMoves(AddEntries(s, c), k, next);
    ShiftMoves(MulEntries(s, c), k, next);
    ShiftMoves(OutEntries(s, c), k, next);
  }

  /** Before it, and after the whole depth, the pipelines are empty. */
  lemma PipesEmpty(s: Stages, c: Control, k: nat)
    requires s.Valid() && (k == 0 || k > 1 + s.mult + s.add)
    ensures PipesIn(s, c, k) == NoPipes(s)
  {
    NothingMoves(s, 0);
    MovedOut(RdEntries(s, c.rdA1), k);
    MovedOut(RdEntries(s, c.rdB1), k);
    MovedOut(RdEntries(s, c.rdS), k);
    MovedOut(RdEntries(s, c.rdSAnM), k);
    MovedOut(RdEntries(s, c.in1), k);
    MovedOut(RdEntries(s, c.in2), k);
    MovedOut(WrEntries(s, c.enA), k);
    MovedOut(WrEntries(s, c.addrA), k);
    MovedOut(WrEntries(s, c.fromA), k);
    MovedOut(WrEntries(s, c.enB), k);
    MovedOut(WrEntries(s, c.addrB), k);
    MovedOut(WrEntries(s, c.fromB), k);
    MovedOut(AddEntries(s, c), k);
    MovedOut(MulEntries(s, c), k);
    MovedOut(OutEntries(s, c), k);
  }
}
