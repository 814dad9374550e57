/** What a run of commands implies for banks and ranks, and which commands suit them (DDR4.cpp, DRAM.h). */
module DramTrace {
  import opened DramSpec
  import opened DramHistory
  import opened DramState

  /** The bank at this path after a run, by its transitions alone. */
  ghost function BankOf(kind: Standard, h: seq<Issue>, bank: Path): Cell
    requires |bank| == BANK + 1
  {
    if h == [] then CLOSED
    else
      var last, before := h[|h| - 1], BankOf(kind, h[..|h| - 1], bank);
      if |last.addr| == LEVELS then BankAfter(kind, last, bank, before) else before
  }

  lemma BankOfLonger(kind: Standard, h: seq<Issue>, e: Issue, bank: Path)
    requires |bank| == BANK + 1 && |e.addr| == LEVELS
    ensures BankOf(kind, h + [e], bank) == BankAfter(kind, Issue(e.cmd, e.addr, 0), bank, BankOf(kind, h, bank))
  {
    assert (h + [e])[..|h|] == h;
  }

  /** A bank of this rank is open. */
  ghost predicate AnyOpenOf(kind: Standard, h: seq<Issue>, rank: Path)
  {
    exists bank: Path {:trigger BankOf(kind, h, bank)} ::
      |bank| == BANK + 1 && bank[..RANK + 1] == rank && BankOf(kind, h, bank).state != Closed
  }

  /** The power state of the rank at this path after a run. */
  ghost function PowerOf(kind: Standard, h: seq<Issue>, rank: Path): State
  {
    if h == [] then PowerUp
    else
      var before := h[..|h| - 1];
      RankAfter(h[|h| - 1], rank, PowerOf(kind, before, rank), AnyOpenOf(kind, before, rank))
  }

  lemma AtAnyClock(e: Issue, rank: Path, state: State, open: bool, clk: int)
    ensures RankAfter(e, rank, state, open) == RankAfter(Issue(e.cmd, e.addr, clk), rank, state, open)
  {
  }

  lemma PowerOfLonger(kind: Standard, h: seq<Issue>, e: Issue, rank: Path)
    ensures PowerOf(kind, h + [e], rank) ==
            RankAfter(Issue(e.cmd, e.addr, 0), rank, PowerOf(kind, h, rank), AnyOpenOf(kind, h, rank))
  {
    assert (h + [e])[..|h|] == h && (h + [e])[|h|] == e;
    AtAnyClock(e, rank, PowerOf(kind, h, rank), AnyOpenOf(kind, h, rank), 0);
  }

  lemma {:induction false} BankIsCell(kind: Standard, h: seq<Issue>, bank: Path)
    requires |bank| == BANK + 1
    ensures var c := BankOf(kind, h, bank); c == CLOSED || c.state == Opened
  {
    if h != [] { BankIsCell(kind, h[..|h| - 1], bank); }
  }

  lemma {:induction false} PowerIsRankState(kind: Standard, h: seq<Issue>, rank: Path)
    ensures IsRankState(PowerOf(kind, h, rank))
  {
    if h != [] { PowerIsRankState(kind, h[..|h| - 1], rank); }
  }

  /** Under AllBanks the banks of a rank agree after any run. */
  lemma {:induction false} BanksAgree(h: seq<Issue>, b1: Path, b2: Path)
    requires |b1| == |b2| == BANK + 1 && b1[..RANK + 1] == b2[..RANK + 1]
    ensures BankOf(AllBanks, h, b1) == BankOf(AllBanks, h, b2)
  {
    if h != [] { BanksAgree(h[..|h| - 1], b1, b2); }
  }

  /** All banks of the rank are closed. */
  ghost predicate AllClosed(kind: Standard, h: seq<Issue>, rank: Path)
  {
    forall bank: Path {:trigger BankOf(kind, h, bank)} ::
      |bank| == BANK + 1 && bank[..RANK + 1] == rank ==> BankOf(kind, h, bank) == CLOSED
  }

  lemma ClosedUnlessOpen(kind: Standard, h: seq<Issue>, rank: Path)
    ensures AllClosed(kind, h, rank) <==> !AnyOpenOf(kind, h, rank)
  {
    forall bank: Path | |bank| == BANK + 1 && bank[..RANK + 1] == rank
      ensures BankOf(kind, h, bank) == CLOSED || BankOf(kind, h, bank).state == Opened
    {
      BankIsCell(kind, h, bank);
    }
  }

  /** An access with or without auto-precharge. */
  predicate Transfers(cmd: Command) { IsAccess(cmd) || cmd == RDA || cmd == WRA }

  /** A rank is awake for activations and accesses, and leaves only the power state that it is in. */
  predicate PowerSuits(cmd: Command, state: State)
  {
    && (Transfers(cmd) || cmd == ACT ==> state == PowerUp)
    && (cmd == PDX ==> state == ActPowerDown || state == PrePowerDown) && (cmd == SRX ==> state == SelfRefresh)
    && (cmd == PDE ==> state != SelfRefresh) && (cmd == SRE ==> state != ActPowerDown && state != PrePowerDown)
  }

  /** An access finds its row open in its bank, an activation finds its bank closed, a refresh all banks of its rank. */
  ghost predicate Suits(kind: Standard, h: seq<Issue>, e: Issue)
  {
    && |e.addr| == LEVELS
    && (Transfers(e.cmd) ==> RowHit(BankOf(kind, h, e.addr[..BANK + 1]), e.addr[ROW]))
    && (e.cmd == ACT ==> BankOf(kind, h, e.addr[..BANK + 1]) == CLOSED)
    && (e.cmd == REF ==> AllClosed(kind, h, e.addr[..RANK + 1]))
    && PowerSuits(e.cmd, PowerOf(kind, h, e.addr[..RANK + 1]))
  }

  ghost predicate AllSuit(kind: Standard, h: seq<Issue>)
  {
    forall i :: 0 <= i < |h| ==> Suits(kind, h[..i], h[i])
  }

  /** A closing command finds an open bank. */
  ghost predicate Useful(kind: Standard, h: seq<Issue>, e: Issue)
  {
    && |e.addr| == LEVELS
    && (e.cmd == PRE ==> BankOf(kind, h, e.addr[..BANK + 1]).state == Opened)
    && (e.cmd == PREA ==>
          exists bank: Path {:trigger BankOf(kind, h, bank)} ::
            |bank| == BANK + 1 && bank[..RANK + 1] == e.addr[..RANK + 1] && BankOf(kind, h, bank).state == Opened)
  }

  lemma OneMoreSuits(kind: Standard, h: seq<Issue>, e: Issue)
    requires AllSuit(kind, h) && Suits(kind, h, e)
    ensures AllSuit(kind, h + [e])
  {
    forall i | 0 <= i < |h + [e]| ensures Suits(kind, (h + [e])[..i], (h + [e])[i]) {
      assert (h + [e])[..i] == h[..i];
      if i == |h| { assert h[..i] == h; }
    }
  }

  /** A rank that is never told to sleep is awake. */
  lemma {:induction false} AwakeThroughout(kind: Standard, h: seq<Issue>, rank: Path)
    requires forall i :: 0 <= i < |h| ==> h[i].cmd != PDE && h[i].cmd != SRE
    ensures PowerOf(kind, h, rank) == PowerUp
  {
    if h != [] { AwakeThroughout(kind, h[..|h| - 1], rank); }
  }

  /** The address names this bank; under AllBanks, its rank. */
  predicate Names(kind: Standard, e: Issue, bank: Path)
    requires |bank| == BANK + 1
  {
    |e.addr| == LEVELS && if kind == PerBank then e.addr[..BANK + 1] == bank else e.addr[..RANK + 1] == bank[..RANK + 1]
  }

  predicate OpensRow(kind: Standard, e: Issue, bank: Path, row: int)
    requires |bank| == BANK + 1
  {
    e.cmd == ACT && Names(kind, e, bank) && e.addr[ROW] == row
  }

  predicate Shuts(kind: Standard, e: Issue, bank: Path)
    requires |bank| == BANK + 1
  {
    || (e.cmd in {PRE, RDA, WRA} && Names(kind, e, bank))
    || (e.cmd == PREA && |e.addr| == LEVELS && e.addr[..RANK + 1] == bank[..RANK + 1])
  }

  /** The activation of the row at position i has not been closed since. */
  predicate OpenFrom(kind: Standard, h: seq<Issue>, bank: Path, row: int, i: nat)
    requires |bank| == BANK + 1
  {
    i < |h| && OpensRow(kind, h[i], bank, row) && forall j :: i < j < |h| ==> !Shuts(kind, h[j], bank)
  }

  lemma StruckIsNamed(kind: Standard, e: Issue, bank: Path)
    requires |bank| == BANK + 1 && |e.addr| == LEVELS
    ensures Struck(kind, e, bank) <==> Names(kind, e, bank)
    ensures Targets(e, bank[..RANK + 1]) <==> e.addr[..RANK + 1] == bank[..RANK + 1]
  {
    assert Targets(e, bank) <==> e.addr[..BANK + 1] == bank;
  }

  /** After one more command the same activations count, but for those that it closes, and it may be one itself. */
  lemma OpenFromLonger(kind: Standard, h: seq<Issue>, e: Issue, bank: Path, row: int, i: nat)
    requires |bank| == BANK + 1
    ensures OpenFrom(kind, h + [e], bank, row, i) <==>
              if i < |h| then OpenFrom(kind, h, bank, row, i) && !Shuts(kind, e, bank)
              else i == |h| && OpensRow(kind, e, bank, row)
  {
    var longer := h + [e];
    assert longer[|h|] == e && forall j :: 0 <= j < |h| ==> longer[j] == h[j];
  }

  lemma RowAfter(kind: Standard, e: Issue, bank: Path, row: int, c: Cell)
    requires |bank| == BANK + 1 && (|e.addr| == LEVELS) && (c.state == Closed ==> c == CLOSED)
             && (c.state == Closed || c.state == Opened)
    ensures RowHit(BankAfter(kind, e, bank, c), row) <==>
              OpensRow(kind, e, bank, row) || (RowHit(c, row) && !Shuts(kind, e, bank))
  {
    StruckIsNamed(kind, e, bank);
  }

  /** A row is open exactly if it has been activated and its bank not been closed since. */
  lemma {:induction false} OpenSinceActivation(kind: Standard, h: seq<Issue>, bank: Path, row: int)
    requires |bank| == BANK + 1
    ensures RowHit(BankOf(kind, h, bank), row) <==> exists i: nat :: OpenFrom(kind, h, bank, row, i)
  {
    if h != [] {
      var e, before := h[|h| - 1], h[..|h| - 1];
      assert h == before + [e];
      OpenSinceActivation(kind, before, bank, row);
      BankIsCell(kind, before, bank);
      if |e.addr| == LEVELS { RowAfter(kind, e, bank, row, BankOf(kind, before, bank)); }
      forall i: nat
        ensures OpenFrom(kind, h, bank, row, i) <==>
                  if i < |before| then OpenFrom(kind, before, bank, row, i) && !Shuts(kind, e, bank)
                  else i == |before| && OpensRow(kind, e, bank, row)
      {
        OpenFromLonger(kind, before, e, bank, row, i);
      }
      if OpensRow(kind, e, bank, row) { assert OpenFrom(kind, h, bank, row, |before|); }
    }
  }

  predicate SetsPower(e: Issue, rank: Path) { e.cmd in {PDE, PDX, SRE, SRX} && Targets(e, rank) }

  /** The last command that concerns the power state of the rank is at position i. */
  predicate LastPower(h: seq<Issue>, rank: Path, i: nat)
  {
    i < |h| && SetsPower(h[i], rank) && forall j :: i < j < |h| ==> !SetsPower(h[j], rank)
  }

  /** The state that a power command leaves the rank in. */
  predicate Leaves(cmd: Command, open: bool, state: State)
  {
    && (cmd == PDE ==> state == if open then ActPowerDown else PrePowerDown)
    && (cmd == SRE ==> state == SelfRefresh) && (cmd == PDX || cmd == SRX ==> state == PowerUp)
  }

  lemma LastPowerLonger(h: seq<Issue>, e: Issue, rank: Path, i: nat)
    ensures LastPower(h + [e], rank, i) <==>
              if i < |h| then LastPower(h, rank, i) && !SetsPower(e, rank) else i == |h| && SetsPower(e, rank)
  {
    var longer := h + [e];
    assert longer[|h|] == e && forall j :: 0 <= j < |h| ==> longer[j] == h[j];
  }

  lemma NoneLastLonger(h: seq<Issue>, e: Issue, rank: Path)
    requires forall i: nat :: !LastPower(h + [e], rank, i)
    ensures !SetsPower(e, rank) && forall i: nat :: !LastPower(h, rank, i)
  {
    LastPowerLonger(h, e, rank, |h|);
    forall i: nat ensures !LastPower(h, rank, i) { LastPowerLonger(h, e, rank, i); }
  }

  /** A rank that has not been put to sleep is awake. */
  lemma {:induction false} AwakeUnlessTold(kind: Standard, h: seq<Issue>, rank: Path)
    requires forall i: nat :: !LastPower(h, rank, i)
    ensures PowerOf(kind, h, rank) == PowerUp
  {
    if h != [] {
      assert h == h[..|h| - 1] + [h[|h| - 1]];
      NoneLastLonger(h[..|h| - 1], h[|h| - 1], rank);
      AwakeUnlessTold(kind, h[..|h| - 1], rank);
    }
  }

  /** And otherwise it is in the state that the last power command left it in. */
  lemma {:induction false} PowerSince(kind: Standard, h: seq<Issue>, rank: Path, i: nat)
    requires LastPower(h, rank, i)
    ensures Leaves(h[i].cmd, AnyOpenOf(kind, h[..i], rank), PowerOf(kind, h, rank))
  {
    var e, before := h[|h| - 1], h[..|h| - 1];
    assert h == before + [e];
    LastPowerLonger(before, e, rank, i);
    if i < |before| {
      PowerSince(kind, before, rank, i);
      assert h[..i] == before[..i];
    } else {
      assert h[..i] == before;
    }
  }

  /** A request for a whole rank has to wait for one other command. */
  ghost predicate Blocked(kind: Standard, h: seq<Issue>, rank: Path, cmd: Command)
  {
    match cmd
    case REF => AnyOpenOf(kind, h, rank)
    case PDE => PowerOf(kind, h, rank) == SelfRefresh
    case SRE => PowerOf(kind, h, rank) == ActPowerDown || PowerOf(kind, h, rank) == PrePowerDown
    case _ => false
  }

  /** That command. */
  function Opener(cmd: Command): Command
  {
    match cmd
    case REF => PREA
    case PDE => SRX
    case SRE => PDX
    case _ => cmd
  }

  lemma BanksShut(kind: Standard, h: seq<Issue>, e: Issue, rank: Path)
    requires e.cmd == PREA && |e.addr| == LEVELS && rank == e.addr[..RANK + 1]
    ensures AllClosed(kind, h + [e], rank) && !AnyOpenOf(kind, h + [e], rank)
  {
    forall bank: Path | |bank| == BANK + 1 && bank[..RANK + 1] == rank ensures BankOf(kind, h + [e], bank) == CLOSED {
      BankOfLonger(kind, h, e, bank);
      StruckIsNamed(kind, e, bank);
    }
    ClosedUnlessOpen(kind, h + [e], rank);
  }

  /** After the opener the request is not blocked any more. */
  lemma OpenerUnblocks(kind: Standard, h: seq<Issue>, e: Issue, rank: Path, cmd: Command)
    requires |e.addr| == LEVELS && rank == e.addr[..RANK + 1] && cmd in {REF, PDE, SRE} && e.cmd == Opener(cmd)
    ensures !Blocked(kind, h + [e], rank, cmd)
  {
    if cmd == REF {
      BanksShut(kind, h, e, rank);
    } else {
      PowerOfLonger(kind, h, e, rank);
    }
  }

  /** Refresh, power-down and self-refresh are decoded as themselves, or as the one command that they wait for: PREA
      exactly if a bank is open, SRX exactly in self-refresh, PDX exactly in power-down; and then as themselves. */
  lemma OnePrerequisite(kind: Standard, h: seq<Issue>, e: Issue, rank: Path, cmd: Command)
    requires |e.addr| == LEVELS && rank == e.addr[..RANK + 1] && cmd in {REF, PDE, SRE}
    requires e.cmd == RankPrerequisite(PowerOf(kind, h, rank), AnyOpenOf(kind, h, rank), cmd)
    ensures e.cmd == if Blocked(kind, h, rank, cmd) then Opener(cmd) else cmd
    ensures e.cmd != cmd ==> !Blocked(kind, h + [e], rank, cmd)
  {
    if e.cmd != cmd { OpenerUnblocks(kind, h, e, rank, cmd); }
  }

  /** A row has been activated, and its bank not closed since. */
  ghost predicate RowOpen(kind: Standard, h: seq<Issue>, bank: Path, row: int)
    requires |bank| == BANK + 1
  {
    exists i: nat :: OpenFrom(kind, h, bank, row, i)
  }

  /** No row of this bank has. */
  ghost predicate NoRowOpen(kind: Standard, h: seq<Issue>, bank: Path)
    requires |bank| == BANK + 1
  {
    forall row :: !RowOpen(kind, h, bank, row)
  }

  lemma ClosedHasNoRow(kind: Standard, h: seq<Issue>, bank: Path)
    requires |bank| == BANK + 1 && BankOf(kind, h, bank) == CLOSED
    ensures NoRowOpen(kind, h, bank)
  {
    forall row ensures !RowOpen(kind, h, bank, row) { OpenSinceActivation(kind, h, bank, row); }
  }

  /** In a run of suitable commands an access finds its row activated and not closed since, an activation no row of its
      bank, and a refresh no row of any bank of its rank. */
  lemma RowsFound(kind: Standard, h: seq<Issue>, m: nat, before: seq<Issue>, bank: Path)
    requires AllSuit(kind, h) && m < |h| && before == h[..m] && |bank| == BANK + 1
    ensures |h[m].addr| == LEVELS
    ensures h[m].cmd in {RD, WR, RDA, WRA} && bank == h[m].addr[..BANK + 1] ==>
              RowOpen(kind, before, bank, h[m].addr[ROW])
    ensures h[m].cmd == ACT && bank == h[m].addr[..BANK + 1] ==> NoRowOpen(kind, before, bank)
    ensures h[m].cmd == REF && bank[..RANK + 1] == h[m].addr[..RANK + 1] ==> NoRowOpen(kind, before, bank)
  {
    assert Suits(kind, before, h[m]);
    OpenSinceActivation(kind, before, bank, h[m].addr[ROW]);
    if BankOf(kind, before, bank) == CLOSED { ClosedHasNoRow(kind, before, bank); }
  }
}
