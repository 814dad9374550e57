/** The controller's table of open rows, and the assertions in it (Scheduler.h, RowTable). */
module RowTable {
  import opened DramSpec
  import opened DramHistory
  import opened DramLegal
  import opened DramState
  import opened DramTree
  import opened DramTrace
  import opened DramRun

  /** The open row, the accesses to it, and when it was last used. */
  datatype OpenRow = OpenRow(row: int, hits: nat, stamp: int)

  type Rows = map<seq<int>, OpenRow>

  /** What a row is filed under: its bank, and by update_AB the part of the address above the rank. */
  function Key(kind: Standard, addr: seq<int>): seq<int>
    requires |addr| > BANK
  {
    if kind == PerBank then addr[..BANK + 1] else addr[..RANK]
  }

  /** is_closing. */
  predicate Closing(cmd: Command) { Closes(cmd) || cmd == PREA }

  /** A closing command removes the entries that begin like this. */
  function Start(kind: Standard, e: Issue): seq<int>
    requires |e.addr| == LEVELS
  {
    if kind == AllBanks then e.addr[..RANK] else if e.cmd == PREA then e.addr[..RANK + 1] else e.addr[..BANK + 1]
  }

  function Removed(t: Rows, start: seq<int>): Rows { map k | k in t && !(start <= k) :: t[k] }

  /** insert does not overwrite. */
  function Inserted(t: Rows, key: seq<int>, entry: OpenRow): Rows { if key in t then t else t[key := entry] }

  function AfterOpening(kind: Standard, t: Rows, e: Issue): Rows
    requires |e.addr| == LEVELS
  {
    if e.cmd == ACT then Inserted(t, Key(kind, e.addr), OpenRow(e.addr[ROW], 0, e.clk)) else t
  }

  /** The two assertions at an access. */
  predicate AccessFiled(kind: Standard, t: Rows, e: Issue)
    requires |e.addr| == LEVELS
  {
    Transfers(e.cmd) ==> Key(kind, e.addr) in t && t[Key(kind, e.addr)].row == e.addr[ROW]
  }

  function AfterAccess(kind: Standard, t: Rows, e: Issue): Rows
    requires |e.addr| == LEVELS && AccessFiled(kind, t, e)
  {
    if Transfers(e.cmd) then
      var entry := t[Key(kind, e.addr)];
      t[Key(kind, e.addr) := OpenRow(entry.row, entry.hits + 1, e.clk)]
    else t
  }

  /** The assertion at a closing command. */
  ghost predicate CloseFiled(kind: Standard, t: Rows, e: Issue)
    requires |e.addr| == LEVELS
  {
    Closing(e.cmd) ==> exists k :: k in t && Start(kind, e) <= k
  }

  function AfterClosing(kind: Standard, t: Rows, e: Issue): Rows
    requires |e.addr| == LEVELS
  {
    if Closing(e.cmd) then Removed(t, Start(kind, e)) else t
  }

  /** The table after a command, or the failure of an assertion. */
  datatype Outcome = Goes(table: Rows) | Fails

  ghost function Updated(kind: Standard, t: Rows, e: Issue): Outcome
    requires |e.addr| == LEVELS
  {
    var filled := AfterOpening(kind, t, e);
    if !AccessFiled(kind, filled, e) then Fails
    else
      var accessed := AfterAccess(kind, filled, e);
      if CloseFiled(kind, accessed, e) then Goes(AfterClosing(kind, accessed, e)) else Fails
  }

  /** The table after a run. */
  ghost function TableAfter(kind: Standard, h: seq<Issue>): Outcome
    requires forall i :: 0 <= i < |h| ==> |h[i].addr| == LEVELS
  {
    if h == [] then Goes(map[])
    else
      var before := TableAfter(kind, h[..|h| - 1]);
      if before.Goes? then Updated(kind, before.table, h[|h| - 1]) else Fails
  }

  /** The banks that the table speaks of: all, and under AllBanks those of one rank. */
  predicate Covers(kind: Standard, rank: Path, bank: Path)
  {
    |bank| == BANK + 1 && (kind == AllBanks ==> bank[..RANK + 1] == rank)
  }

  /** The entry of a bank: there exactly if the bank is open, with its row. */
  ghost predicate Filed(kind: Standard, t: Rows, h: seq<Issue>, bank: Path)
    requires |bank| == BANK + 1
  {
    var c := BankOf(kind, h, bank);
    && (Key(kind, bank) in t <==> c.state == Opened)
    && (if Key(kind, bank) in t then c == Cell(Opened, map[t[Key(kind, bank)].row := Opened]) else c == CLOSED)
  }

  /** The table agrees with the banks. */
  ghost predicate Agrees(kind: Standard, t: Rows, h: seq<Issue>, rank: Path)
  {
    && (forall k :: k in t ==> if kind == PerBank then |k| == BANK + 1 else k == rank[..|rank| - 1])
    && forall bank: Path {:trigger Filed(kind, t, h, bank)} :: Covers(kind, rank, bank) ==> Filed(kind, t, h, bank)
  }

  /** Under AllBanks, commands for one rank only. */
  predicate ForRank(kind: Standard, rank: Path, e: Issue)
  {
    |e.addr| == LEVELS && |rank| == RANK + 1 && (kind == AllBanks ==> e.addr[..RANK + 1] == rank)
  }

  /** The bank of a command. */
  function BankPath(e: Issue): (p: Path)
    requires |e.addr| == LEVELS
    ensures |p| == BANK + 1 && p[..RANK + 1] == e.addr[..RANK + 1] && p[..RANK] == e.addr[..RANK]
  {
    e.addr[..BANK + 1]
  }

  /** An access finds its entry. */
  lemma AccessAgrees(kind: Standard, t: Rows, h: seq<Issue>, rank: Path, e: Issue)
    requires Agrees(kind, t, h, rank) && ForRank(kind, rank, e) && Suits(kind, h, e) && e.cmd != ACT
    ensures AccessFiled(kind, t, e)
  {
    var bank := BankPath(e);
    assert Covers(kind, rank, bank) && Filed(kind, t, h, bank) && Key(kind, bank) == Key(kind, e.addr);
  }

  /** A use of an entry changes neither its key nor its row. */
  lemma UseAgrees(kind: Standard, t: Rows, h: seq<Issue>, rank: Path, e: Issue)
    requires Agrees(kind, t, h, rank) && |e.addr| == LEVELS && AccessFiled(kind, t, e)
    ensures Agrees(kind, AfterAccess(kind, t, e), h, rank)
  {
    var u := AfterAccess(kind, t, e);
    forall bank: Path {:trigger Filed(kind, u, h, bank)} | Covers(kind, rank, bank) ensures Filed(kind, u, h, bank) {
      assert Filed(kind, t, h, bank);
    }
  }

  lemma SameStart(a: seq<int>, b: seq<int>, n: nat)
    requires n <= |a| && n <= |b|
    ensures a[..n] <= b <==> b[..n] == a[..n]
  {
  }

  /** What a command does to a bank, under the per-bank standard. */
  lemma OneBankMoves(h: seq<Issue>, e: Issue, bank: Path)
    requires |e.addr| == LEVELS && |bank| == BANK + 1
    ensures var c, c' := BankOf(PerBank, h, bank), BankOf(PerBank, h + [e], bank);
            && (e.cmd == ACT ==>
                  c' == if bank == BankPath(e) then Cell(Opened, c.rows[e.addr[ROW] := Opened]) else c)
            && (Closing(e.cmd) ==> c' == if Start(PerBank, e) <= bank then CLOSED else c)
            && (e.cmd != ACT && !Closing(e.cmd) ==> c' == c)
  {
    BankOfLonger(PerBank, h, e, bank);
    SameStart(bank, e.addr, BANK + 1);
    SameStart(e.addr, bank, BANK + 1);
    SameStart(bank, e.addr, RANK + 1);
    SameStart(e.addr, bank, RANK + 1);
    assert bank[..BANK + 1] == bank;
  }

  /** And under AllBanks to every bank of its rank. */
  lemma AllBanksMove(h: seq<Issue>, e: Issue, bank: Path)
    requires |e.addr| == LEVELS && |bank| == BANK + 1 && bank[..RANK + 1] == e.addr[..RANK + 1]
    ensures var c, c' := BankOf(AllBanks, h, bank), BankOf(AllBanks, h + [e], bank);
            && (e.cmd == ACT ==> c' == Cell(Opened, c.rows[e.addr[ROW] := Opened]))
            && (Closing(e.cmd) ==> c' == CLOSED && Start(AllBanks, e) <= Key(AllBanks, bank))
            && (e.cmd != ACT && !Closing(e.cmd) ==> c' == c)
  {
    BankOfLonger(AllBanks, h, e, bank);
    assert bank[..RANK] == bank[..RANK + 1][..RANK] == e.addr[..RANK];
  }

  /** What a command does to the bank of an entry. */
  lemma BankMoves(kind: Standard, h: seq<Issue>, rank: Path, e: Issue, bank: Path)
    requires ForRank(kind, rank, e) && Covers(kind, rank, bank)
    ensures var c, c' := BankOf(kind, h, bank), BankOf(kind, h + [e], bank);
            var here := kind == AllBanks || bank == BankPath(e);
            && (e.cmd == ACT ==> c' == if here then Cell(Opened, c.rows[e.addr[ROW] := Opened]) else c)
            && (Closing(e.cmd) ==> c' == if Start(kind, e) <= Key(kind, bank) then CLOSED else c)
            && (e.cmd != ACT && !Closing(e.cmd) ==> c' == c)
  {
    if kind == PerBank {
      OneBankMoves(h, e, bank);
      assert bank[..BANK + 1] == bank;
    } else {
      AllBanksMove(h, e, bank);
    }
  }

  /** An activation files its row. */
  lemma OpeningAgrees(kind: Standard, t: Rows, h: seq<Issue>, rank: Path, e: Issue)
    requires Agrees(kind, t, h, rank) && ForRank(kind, rank, e) && Suits(kind, h, e) && e.cmd == ACT
    ensures Agrees(kind, AfterOpening(kind, t, e), h + [e], rank)
  {
    var u, own := AfterOpening(kind, t, e), BankPath(e);
    assert Covers(kind, rank, own) && Filed(kind, t, h, own) && Key(kind, own) == Key(kind, e.addr);
    forall bank: Path {:trigger Filed(kind, u, h + [e], bank)} | Covers(kind, rank, bank)
      ensures Filed(kind, u, h + [e], bank)
    {
      assert Filed(kind, t, h, bank);
      BankMoves(kind, h, rank, e, bank);
      if kind == AllBanks {
        assert bank[..RANK] == bank[..RANK + 1][..RANK] == own[..RANK];
      }
    }
  }

  /** A closing command removes the rows that it closes, and finds one. */
  lemma ClosingAgrees(kind: Standard, t: Rows, h: seq<Issue>, rank: Path, e: Issue)
    requires Agrees(kind, t, h, rank) && ForRank(kind, rank, e) && Closing(e.cmd)
    ensures Agrees(kind, AfterClosing(kind, t, e), h + [e], rank)
  {
    var u := AfterClosing(kind, t, e);
    forall bank: Path {:trigger Filed(kind, u, h + [e], bank)} | Covers(kind, rank, bank)
      ensures Filed(kind, u, h + [e], bank)
    {
      assert Filed(kind, t, h, bank);
      BankMoves(kind, h, rank, e, bank);
    }
  }

  /** Any other command leaves all rows alone. */
  lemma OthersAgree(kind: Standard, t: Rows, h: seq<Issue>, rank: Path, e: Issue)
    requires Agrees(kind, t, h, rank) && ForRank(kind, rank, e) && e.cmd != ACT && !Closing(e.cmd)
    ensures Agrees(kind, t, h + [e], rank)
  {
    forall bank: Path {:trigger Filed(kind, t, h + [e], bank)} | Covers(kind, rank, bank)
      ensures Filed(kind, t, h + [e], bank)
    {
      assert Filed(kind, t, h, bank);
      BankMoves(kind, h, rank, e, bank);
    }
  }

  /** The bank that a closing command finds open. */
  lemma OpenBank(kind: Standard, h: seq<Issue>, e: Issue) returns (bank: Path)
    requires Closing(e.cmd) && Suits(kind, h, e) && Useful(kind, h, e)
    ensures |bank| == BANK + 1 && bank[..RANK + 1] == e.addr[..RANK + 1] && BankOf(kind, h, bank).state == Opened
    ensures e.cmd != PREA ==> bank == BankPath(e)
  {
    if e.cmd == PREA {
      bank :| |bank| == BANK + 1 && bank[..RANK + 1] == e.addr[..RANK + 1] && BankOf(kind, h, bank).state == Opened;
    } else {
      bank := BankPath(e);
    }
  }

  lemma CloseAgrees(kind: Standard, t: Rows, h: seq<Issue>, rank: Path, e: Issue)
    requires Agrees(kind, t, h, rank) && ForRank(kind, rank, e) && Suits(kind, h, e) && Useful(kind, h, e)
    ensures CloseFiled(kind, t, e)
  {
    if Closing(e.cmd) {
      var bank := OpenBank(kind, h, e);
      assert Covers(kind, rank, bank) && Filed(kind, t, h, bank);
      assert bank[..RANK] == bank[..RANK + 1][..RANK] == e.addr[..RANK];
      assert Start(kind, e) <= Key(kind, bank);
    }
  }

  /** One command keeps the agreement, and no assertion fails. */
  lemma UpdateAgrees(kind: Standard, t: Rows, h: seq<Issue>, rank: Path, e: Issue)
    requires Agrees(kind, t, h, rank) && ForRank(kind, rank, e) && Suits(kind, h, e) && Useful(kind, h, e)
    ensures Updated(kind, t, e).Goes? && Agrees(kind, Updated(kind, t, e).table, h + [e], rank)
  {
    if e.cmd == ACT {
      OpeningAgrees(kind, t, h, rank, e);
    } else {
      AccessAgrees(kind, t, h, rank, e);
      UseAgrees(kind, t, h, rank, e);
      var u := AfterAccess(kind, t, e);
      CloseAgrees(kind, u, h, rank, e);
      if Closing(e.cmd) { ClosingAgrees(kind, u, h, rank, e); } else { OthersAgree(kind, u, h, rank, e); }
    }
  }

  ghost predicate AllUseful(kind: Standard, h: seq<Issue>)
  {
    forall i :: 0 <= i < |h| ==> Useful(kind, h[..i], h[i])
  }

  lemma PrefixFits(kind: Standard, h: seq<Issue>, n: nat)
    requires AllSuit(kind, h) && AllUseful(kind, h) && n <= |h|
    ensures AllSuit(kind, h[..n]) && AllUseful(kind, h[..n])
  {
    forall i | 0 <= i < n ensures Suits(kind, h[..n][..i], h[..n][i]) && Useful(kind, h[..n][..i], h[..n][i]) {
      assert h[..n][..i] == h[..i];
    }
  }

  /** In every run that suits its banks no assertion fails and the table agrees with the banks: under the per-bank
      standard, and under AllBanks if all commands are for one rank. */
  lemma {:induction false} TableAgrees(kind: Standard, h: seq<Issue>, rank: Path)
    requires |rank| == RANK + 1 && (forall i :: 0 <= i < |h| ==> ForRank(kind, rank, h[i]))
    requires AllSuit(kind, h) && AllUseful(kind, h)
    ensures TableAfter(kind, h).Goes? && Agrees(kind, TableAfter(kind, h).table, h, rank)
  {
    if h != [] {
      var n := |h| - 1;
      var before := h[..n];
      assert before + [h[n]] == h;
      PrefixFits(kind, h, n);
      TableAgrees(kind, before, rank);
      UpdateAgrees(kind, TableAfter(kind, before).table, before, rank, h[n]);
    }
  }

  /** The accesses to a bank since its last activation, and the clock of the last of all these commands. */
  function UsesOf(kind: Standard, h: seq<Issue>, bank: Path): nat
    requires |bank| == BANK + 1
  {
    if h == [] then 0
    else
      var e, before := h[|h| - 1], h[..|h| - 1];
      if e.cmd == ACT && Names(kind, e, bank) then 0
      else UsesOf(kind, before, bank) + if e.cmd in {RD, WR, RDA, WRA} && Names(kind, e, bank) then 1 else 0
  }

  function LastUseOf(kind: Standard, h: seq<Issue>, bank: Path): int
    requires |bank| == BANK + 1
  {
    if h == [] then 0
    else if h[|h| - 1].cmd in {ACT, RD, WR, RDA, WRA} && Names(kind, h[|h| - 1], bank) then h[|h| - 1].clk
    else LastUseOf(kind, h[..|h| - 1], bank)
  }

  /** The entry of a bank, if there is one, counts them. */
  ghost predicate Counts(kind: Standard, t: Rows, h: seq<Issue>, bank: Path)
    requires |bank| == BANK + 1
  {
    Key(kind, bank) in t ==>
      t[Key(kind, bank)].hits == UsesOf(kind, h, bank) && t[Key(kind, bank)].stamp == LastUseOf(kind, h, bank)
  }

  ghost predicate AllCount(kind: Standard, t: Rows, h: seq<Issue>, rank: Path)
  {
    forall bank: Path {:trigger Counts(kind, t, h, bank)} :: Covers(kind, rank, bank) ==> Counts(kind, t, h, bank)
  }

  /** A command names a bank exactly if its entry has the same key. */
  lemma KeyNames(kind: Standard, rank: Path, e: Issue, bank: Path)
    requires ForRank(kind, rank, e) && Covers(kind, rank, bank)
    ensures Names(kind, e, bank) <==> Key(kind, e.addr) == Key(kind, bank)
  {
    if kind == PerBank {
      assert bank[..BANK + 1] == bank;
    } else {
      assert bank[..RANK] == bank[..RANK + 1][..RANK] && e.addr[..RANK] == e.addr[..RANK + 1][..RANK];
    }
  }

  lemma LongerUses(kind: Standard, h: seq<Issue>, e: Issue, bank: Path)
    requires |bank| == BANK + 1
    ensures UsesOf(kind, h + [e], bank) ==
            if e.cmd == ACT && Names(kind, e, bank) then 0
            else UsesOf(kind, h, bank) + if e.cmd in {RD, WR, RDA, WRA} && Names(kind, e, bank) then 1 else 0
    ensures LastUseOf(kind, h + [e], bank) ==
            if e.cmd in {ACT, RD, WR, RDA, WRA} && Names(kind, e, bank) then e.clk else LastUseOf(kind, h, bank)
  {
    assert (h + [e])[..|h|] == h;
  }

  lemma UpdateCounts(kind: Standard, t: Rows, h: seq<Issue>, rank: Path, e: Issue, bank: Path)
    requires Agrees(kind, t, h, rank) && ForRank(kind, rank, e) && Suits(kind, h, e) && Updated(kind, t, e).Goes?
    requires Covers(kind, rank, bank) && Counts(kind, t, h, bank)
    ensures Counts(kind, Updated(kind, t, e).table, h + [e], bank)
  {
    var own := BankPath(e);
    KeyNames(kind, rank, e, bank);
    LongerUses(kind, h, e, bank);
    assert Covers(kind, rank, own) && Filed(kind, t, h, own) && Key(kind, own) == Key(kind, e.addr);
  }

  lemma LongerCounts(kind: Standard, t: Rows, h: seq<Issue>, rank: Path, e: Issue, u: Rows)
    requires Agrees(kind, t, h, rank) && ForRank(kind, rank, e) && Suits(kind, h, e) && AllCount(kind, t, h, rank)
    requires Updated(kind, t, e) == Goes(u)
    ensures AllCount(kind, u, h + [e], rank)
  {
    forall bank: Path {:trigger Counts(kind, u, h + [e], bank)} | Covers(kind, rank, bank)
      ensures Counts(kind, u, h + [e], bank)
    {
      assert Counts(kind, t, h, bank);
      UpdateCounts(kind, t, h, rank, e, bank);
    }
  }

  lemma LastCounts(kind: Standard, h: seq<Issue>, rank: Path, before: seq<Issue>, e: Issue)
    requires h == before + [e] && (forall i :: 0 <= i < |h| ==> |h[i].addr| == LEVELS)
    requires forall i :: 0 <= i < |before| ==> |before[i].addr| == LEVELS
    requires ForRank(kind, rank, e) && Suits(kind, before, e)
    requires TableAfter(kind, before).Goes? && TableAfter(kind, h).Goes?
    requires Agrees(kind, TableAfter(kind, before).table, before, rank)
             && AllCount(kind, TableAfter(kind, before).table, before, rank)
    ensures AllCount(kind, TableAfter(kind, h).table, h, rank)
  {
    assert h[..|h| - 1] == before && h[|h| - 1] == e;
    LongerCounts(kind, TableAfter(kind, before).table, before, rank, e, TableAfter(kind, h).table);
  }

  lemma NothingCounts(kind: Standard, rank: Path)
    ensures AllCount(kind, map[], [], rank)
  {
  }

  ghost predicate Shown(t: bool) { t }

  /** A run that suits its banks, and one rank under AllBanks; guarded so that it is unfolded only where it is used. */
  ghost predicate Fitting(kind: Standard, h: seq<Issue>, rank: Path)
  {
    forall t {:trigger Shown(t)} :: Shown(t) ==>
      && |rank| == RANK + 1 && (forall i :: 0 <= i < |h| ==> ForRank(kind, rank, h[i]))
      && AllSuit(kind, h) && AllUseful(kind, h)
  }

  lemma FittingPrefix(kind: Standard, h: seq<Issue>, rank: Path, before: seq<Issue>, e: Issue)
    requires Fitting(kind, h, rank) && h == before + [e]
    ensures Fitting(kind, before, rank) && ForRank(kind, rank, e) && Suits(kind, before, e)
  {
    assert Shown(true);
    assert h[..|before|] == before && h[|before|] == e;
    PrefixFits(kind, h, |before|);
  }

  lemma FittingAgrees(kind: Standard, h: seq<Issue>, rank: Path)
    requires Fitting(kind, h, rank)
    ensures forall i :: 0 <= i < |h| ==> |h[i].addr| == LEVELS
    ensures TableAfter(kind, h).Goes? && Agrees(kind, TableAfter(kind, h).table, h, rank)
  {
    assert Shown(true);
    TableAgrees(kind, h, rank);
  }

  lemma {:induction false} FittingCounts(kind: Standard, h: seq<Issue>, rank: Path)
    requires Fitting(kind, h, rank) && forall i :: 0 <= i < |h| ==> |h[i].addr| == LEVELS
    ensures TableAfter(kind, h).Goes? && AllCount(kind, TableAfter(kind, h).table, h, rank)
  {
    FittingAgrees(kind, h, rank);
    if h == [] {
      NothingCounts(kind, rank);
    } else {
      var before, e := h[..|h| - 1], h[|h| - 1];
      FittingPrefix(kind, h, rank, before, e);
      FittingAgrees(kind, before, rank);
      FittingCounts(kind, before, rank);
      LastCounts(kind, h, rank, before, e);
    }
  }

  /** In such a run the hits of a row are the accesses since its activation, and its stamp is the clock of the last. */
  lemma TableCounts(kind: Standard, h: seq<Issue>, rank: Path)
    requires |rank| == RANK + 1 && (forall i :: 0 <= i < |h| ==> ForRank(kind, rank, h[i]))
    requires AllSuit(kind, h) && AllUseful(kind, h)
    ensures TableAfter(kind, h).Goes? && AllCount(kind, TableAfter(kind, h).table, h, rank)
  {
    FittingCounts(kind, h, rank);
  }

  /** The command is for a rank of this channel. */
  predicate InChannel(org: Org, channel: int, e: Issue)
  {
    |e.addr| == LEVELS && e.addr[CHANNEL] == channel && 0 <= e.addr[RANK] < org(RANK)
  }

  ghost predicate AllInChannel(org: Org, channel: int, h: seq<Issue>)
  {
    forall i :: 0 <= i < |h| ==> InChannel(org, channel, h[i])
  }

  lemma OneRankRun(org: Org, channel: int, h: seq<Issue>)
    requires org(RANK) == 1 && AllInChannel(org, channel, h) && AllSuit(AllBanks, h) && AllUseful(AllBanks, h)
    ensures TableAfter(AllBanks, h).Goes?
  {
    var rank: Path := [channel, 0];
    forall i | 0 <= i < |h| ensures ForRank(AllBanks, rank, h[i]) {
      assert InChannel(org, channel, h[i]);
    }
    TableAgrees(AllBanks, h, rank);
  }

  /** Two ranks are activated at different rows, and the second one is read. */
  function TwoRanks(channel: int, s: Speed): seq<Issue>
  {
    [Issue(ACT, [channel, 0, 0, 0, 0, 0], 0), Issue(ACT, [channel, 1, 0, 0, 1, 0], 1),
     Issue(RD, [channel, 1, 0, 0, 1, 0], 1 + s.nRCD)]
  }

  lemma TwoRanksFail(channel: int, s: Speed)
    ensures TableAfter(AllBanks, TwoRanks(channel, s)).Fails?
  {
    var h := TwoRanks(channel, s);
    assert h[..0] == [] && h[..1] == [h[0]] && h[..2] == [h[0], h[1]];
    assert h[..1][..0] == [] && h[..2][..1] == h[..1];
    var key := [channel];
    assert Key(AllBanks, h[0].addr) == key && Key(AllBanks, h[1].addr) == key && Key(AllBanks, h[2].addr) == key;
    assert TableAfter(AllBanks, h[..1]) == Goes(map[key := OpenRow(0, 0, 0)]);
    assert TableAfter(AllBanks, h[..2]) == Goes(map[key := OpenRow(0, 0, 0)]);
  }

  lemma TwoRanksBank(e: Issue, f: Issue, bank: Path)
    requires e.cmd == f.cmd == ACT && |e.addr| == |f.addr| == LEVELS && f.addr[..BANK + 1] == bank
    requires e.addr[RANK] != f.addr[RANK] && |bank| == BANK + 1
    ensures BankOf(AllBanks, [e], bank) == CLOSED
    ensures BankOf(AllBanks, [e, f], bank) == Cell(Opened, map[f.addr[ROW] := Opened])
  {
    StruckIsNamed(AllBanks, e, bank);
    StruckIsNamed(AllBanks, f, bank);
    assert e.addr[RANK] == e.addr[..RANK + 1][RANK] && bank[..RANK + 1][RANK] == f.addr[RANK];
    assert bank[..RANK + 1] == f.addr[..RANK + 1];
    assert [] + [e] == [e] && [e] + [f] == [e, f];
    BankOfLonger(AllBanks, [], e, bank);
    BankOfLonger(AllBanks, [e], f, bank);
  }

  lemma ActivationSuits(h: seq<Issue>, e: Issue)
    requires e.cmd == ACT && |e.addr| == LEVELS && BankOf(AllBanks, h, e.addr[..BANK + 1]) == CLOSED
             && PowerOf(AllBanks, h, e.addr[..RANK + 1]) == PowerUp
    ensures Suits(AllBanks, h, e) && Useful(AllBanks, h, e)
  {
  }

  lemma ReadSuits(h: seq<Issue>, e: Issue)
    requires e.cmd == RD && |e.addr| == LEVELS && RowHit(BankOf(AllBanks, h, e.addr[..BANK + 1]), e.addr[ROW])
             && PowerOf(AllBanks, h, e.addr[..RANK + 1]) == PowerUp
    ensures Suits(AllBanks, h, e) && Useful(AllBanks, h, e)
  {
  }

  lemma TwoRanksSuit(channel: int, s: Speed)
    ensures AllSuit(AllBanks, TwoRanks(channel, s)) && AllUseful(AllBanks, TwoRanks(channel, s))
  {
    var h := TwoRanks(channel, s);
    assert h[..0] == [] && h[..1] == [h[0]] && h[..2] == [h[0], h[1]];
    TwoRanksBank(h[0], h[1], h[1].addr[..BANK + 1]);
    assert h[1].addr[..BANK + 1] == h[2].addr[..BANK + 1];
    AwakeThroughout(AllBanks, [], h[0].addr[..RANK + 1]);
    AwakeThroughout(AllBanks, [h[0]], h[1].addr[..RANK + 1]);
    AwakeThroughout(AllBanks, [h[0], h[1]], h[2].addr[..RANK + 1]);
    ActivationSuits([], h[0]);
    ActivationSuits([h[0]], h[1]);
    ReadSuits([h[0], h[1]], h[2]);
    forall i | 0 <= i < |h| ensures Suits(AllBanks, h[..i], h[i]) && Useful(AllBanks, h[..i], h[i]) {
      assert i == 0 || i == 1 || i == 2;
    }
  }

  lemma NeverIssued(h: seq<Issue>, d: Command, path: Path, k: nat)
    requires k >= 1 && forall i :: 0 <= i < |h| ==> !(h[i].cmd == d && Targets(h[i], path))
    ensures Recent(h, d, path, k) == -1
  {
  }

  lemma ReadEntries(s: Speed, level: nat, t: Entry)
    requires t in AllBankTable(s, level, ACT) && t.cmd == RD
    ensures level == RANK && t == Own(RD, s.nRCD)
  {
  }

  lemma ActivationEntries(s: Speed, level: nat, t: Entry)
    requires t in AllBankTable(s, level, ACT) && t.cmd == ACT
    ensures level == RANK && !t.sibling
  {
  }

  lemma SecondRankActivated(strict: DramSpec.Table, s: Speed, org: Org, e: Issue, f: Issue)
    requires IsAllBank(strict, s) && IsTable(strict) && e.cmd == f.cmd == ACT && |e.addr| == |f.addr| == LEVELS
    requires e.addr[RANK] != f.addr[RANK]
    ensures Admitted(strict, org, [e], f)
  {
    forall level: nat | Reaches(org, f, level) ensures AllowedAt(strict, [e], f.addr[..level + 1], ACT, f.clk) {
      var path: Path := f.addr[..level + 1];
      forall d, k: nat | HasEntry(strict, path, d, k) && EntryAt(strict, path, d, k).cmd == ACT
        ensures Allows(EntryAt(strict, path, d, k), d, [e], path, f.clk)
      {
        var t := EntryAt(strict, path, d, k);
        assert t in AllBankTable(s, level, d);
        if d == ACT {
          ActivationEntries(s, level, t);
          assert path[RANK] == f.addr[RANK];
        }
        NeverIssued([e], d, path, t.dist);
      }
    }
  }

  lemma SecondRankRead(strict: DramSpec.Table, s: Speed, org: Org, e: Issue, f: Issue, g: Issue)
    requires IsAllBank(strict, s) && IsTable(strict) && e.cmd == f.cmd == ACT && g.cmd == RD
    requires |e.addr| == |f.addr| == LEVELS && e.addr[RANK] != f.addr[RANK] && g.addr == f.addr
    requires f.clk >= 0 && g.clk >= f.clk + s.nRCD
    ensures Admitted(strict, org, [e, f], g)
  {
    forall level: nat | Reaches(org, g, level) ensures AllowedAt(strict, [e, f], g.addr[..level + 1], RD, g.clk) {
      var path: Path := g.addr[..level + 1];
      forall d, k: nat | HasEntry(strict, path, d, k) && EntryAt(strict, path, d, k).cmd == RD
        ensures Allows(EntryAt(strict, path, d, k), d, [e, f], path, g.clk)
      {
        var t := EntryAt(strict, path, d, k);
        assert t in AllBankTable(s, level, d);
        if d == ACT {
          ReadEntries(s, level, t);
          assert [e, f][..1] == [e] && Targets(f, path);
          assert Recent([e, f], ACT, path, 1) == f.clk;
        } else {
          NeverIssued([e, f], d, path, t.dist);
        }
      }
    }
  }

  lemma TwoRanksLegal(strict: DramSpec.Table, s: Speed, org: Org, channel: int)
    requires IsAllBank(strict, s) && IsTable(strict)
    ensures Legal(strict, org, TwoRanks(channel, s))
  {
    var h := TwoRanks(channel, s);
    assert h[..0] == [] && h[..1] == [h[0]] && h[..2] == [h[0], h[1]];
    NothingForbids(strict, org, h[0]);
    SecondRankActivated(strict, s, org, h[0], h[1]);
    SecondRankRead(strict, s, org, h[0], h[1], h[2]);
  }

  /** update_AB files rows by channel: its assertions hold in every run exactly if the channel has one rank. */
  lemma OneRankExactly(strict: DramSpec.Table, s: Speed, org: Org, channel: int)
    requires IsAllBank(strict, s) && IsTable(strict) && org(RANK) > 0
    ensures org(RANK) == 1 <==>
              forall h: seq<Issue> ::
                Legal(strict, org, h) && AllSuit(AllBanks, h) && AllUseful(AllBanks, h)
                && AllInChannel(org, channel, h) ==>
                  TableAfter(AllBanks, h).Goes?
  {
    if org(RANK) == 1 {
      forall h: seq<Issue>
        | Legal(strict, org, h) && AllSuit(AllBanks, h) && AllUseful(AllBanks, h) && AllInChannel(org, channel, h)
        ensures TableAfter(AllBanks, h).Goes?
      {
        OneRankRun(org, channel, h);
      }
    } else {
      var h := TwoRanks(channel, s);
      TwoRanksLegal(strict, s, org, channel);
      TwoRanksSuit(channel, s);
      TwoRanksFail(channel, s);
      assert AllInChannel(org, channel, h);
    }
  }

  class OpenRows {
    var table: Rows

    /** Nothing is open. */
    constructor ()
      ensures table == map[]
    {
      table := map[];
    }

    /** The loop over the table: the entries that begin like this are erased and counted. */
    method Erase(start: seq<int>) returns (count: nat)
      modifies this
      ensures table == Removed(old(table), start) && (count > 0 <==> exists k :: k in old(table) && start <= k)
    {
      count := 0;
      var keys := table.Keys;
      ghost var before, found := table, start;
      while keys != {}
        invariant keys <= before.Keys && (count > 0 ==> found in before && start <= found)
        invariant count == 0 ==> forall k :: k in before && k !in keys ==> !(start <= k)
        invariant table == map k | k in before && !(k !in keys && start <= k) :: before[k]
        decreases keys
      {
        var k :| k in keys;
        keys := keys - {k};
        if start <= k {
          table := table - {k};
          count, found := count + 1, k;
        }
      }
    }

    /** update and update_AB; false where an assertion fails. */
    method Update(kind: Standard, cmd: Command, addr: seq<int>, clk: int) returns (ok: bool)
      requires |addr| == LEVELS
      modifies this
      ensures var after := Updated(kind, old(table), Issue(cmd, addr, clk));
              ok == after.Goes? && (ok ==> table == after.table)
    {
      var key, row := Key(kind, addr), addr[ROW];
      if cmd == ACT && key !in table {
        table := table[key := OpenRow(row, 0, clk)];
      }
      if IsAccess(cmd) || cmd == RDA || cmd == WRA {
        if key !in table {
          return false;
        }
        if table[key].row != row {
          return false;
        }
        table := table[key := OpenRow(table[key].row, table[key].hits + 1, clk)];
      }
      ok := true;
      if Closing(cmd) {
        var count := Erase(Start(kind, Issue(cmd, addr, clk)));
        ok := count > 0;
      }
    }
  }

  /** An ask that the row table lets through: the row policy closes rows of the table only. */
  predicate Listed(kind: Standard, t: Rows, a: Ask)
  {
    a.Close? ==> |a.addr| > BANK && Key(kind, a.addr) in t
  }

  lemma ListedUseful(kind: Standard, t: Rows, h: seq<Issue>, rank: Path, a: Ask, clk: int)
    requires Agrees(kind, t, h, rank) && Listed(kind, t, a) && a.Close? && ForRank(kind, rank, Issue(PRE, a.addr, clk))
    ensures Useful(kind, h, Issue(PRE, a.addr, clk))
  {
    var bank := BankPath(Issue(PRE, a.addr, clk));
    assert Covers(kind, rank, bank) && Filed(kind, t, h, bank) && Key(kind, bank) == Key(kind, a.addr);
  }

  /** One cycle of issue_cmd: the channel and the row table. The assertions of the table hold. */
  method OfferFiled(d: Dram, kind: Standard, a: Ask, rows: OpenRows, clk: int, ghost h: seq<Issue>, ghost rank: Path)
    returns (ghost run: seq<Issue>)
    requires Fits(d, a) && Consistent(d, kind, h, clk) && Agrees(kind, rows.table, h, rank)
    requires ForRank(kind, rank, Issue(PRE, a.addr, clk))
    modifies d.nodes, rows
    ensures var consistent := Consistent(d, kind, run, clk + 1); consistent
    ensures Agrees(kind, rows.table, run, rank)
  {
    run := h;
    if a.Close? && Key(kind, a.addr) !in rows.table {
      Later(d, kind, h, clk, clk + 1);
      return;
    }
    if a.Close? { ListedUseful(kind, rows.table, h, rank, a, clk); }
    var p, ok := Offer(d, kind, a, clk, h);
    if ok {
      var c := Upgrade(a, p);
      UpdateAgrees(kind, rows.table, h, rank, Issue(c, a.addr, clk));
      var filed := rows.Update(kind, c, a.addr, clk);
      assert filed;
      run := h + [Issue(c, a.addr, clk)];
    }
  }

  /** Whatever is asked of a channel, its row table agrees with the banks and none of its assertions fails: for every
      channel of DDR4, and for a channel of DDR4_AB whose asks are all for one rank. */
  method OfferAllFiled(d: Dram, kind: Standard, asks: seq<Ask>, ghost rank: Path)
    returns (rows: OpenRows, ghost run: seq<Issue>)
    requires d.Tree() && d.Initial() && |rank| == RANK + 1
    requires forall i :: 0 <= i < |asks| ==> Fits(d, asks[i]) && ForRank(kind, rank, Issue(PRE, asks[i].addr, 0))
    modifies d.nodes
    ensures fresh(rows) && Agrees(kind, rows.table, run, rank)
    ensures Legal(d.table, d.org, run) && d.Knows(run) && InOrder(d, kind) && RowsKept(d, kind, run)
  {
    rows := new OpenRows();
    run := [];
    var now := 0;
    InitiallyConsistent(d, kind);
    forall bank: Path {:trigger Filed(kind, map[], [], bank)} | Covers(kind, rank, bank)
      ensures Filed(kind, map[], [], bank) {}
    while now < |asks|
      invariant now <= |asks| && Consistent(d, kind, run, now) && Agrees(kind, rows.table, run, rank)
    {
      run := OfferFiled(d, kind, asks[now], rows, now, run, rank);
      now := now + 1;
    }
    Unfold(d, kind, run, now);
  }
}
