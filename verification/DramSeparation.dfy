/** Admission without the tables: how far apart the commands of a run are (DDR4.cpp, DDR4_AB.cpp). */
module DramSeparation {
  import opened DramSpec
  import opened DramHistory
  import opened DramLegal
  import opened DramState
  import opened DramWindows

  /** All that is demanded of two commands: by the nodes that both name, and by the rank next to the first one's. */
  ghost predicate Separated(kind: Standard, s: Speed, org: Org, f: Issue, e: Issue)
  {
    && (forall level: nat :: Reaches(org, e, level) && e.addr[..level + 1] <= f.addr ==> Together(kind, s, level, f, e))
    && (Reaches(org, e, RANK) && Beside(f, e.addr[..RANK + 1]) ==> AcrossRanks(s, f, e))
  }

  /** From the fourth-last activation of the rank on, nFAW has gone by. */
  ghost predicate FourBack(s: Speed, org: Org, h: seq<Issue>, e: Issue)
  {
    e.cmd == ACT && Reaches(org, e, RANK) ==>
      forall i :: 0 <= i < |h| && Count(h[i..], ACT, e.addr[..RANK + 1]) >= 4 ==> e.clk >= h[i].clk + s.nFAW
  }

  /** No issue is more recent than the most recent. */
  lemma {:induction false} RecentIsLast(h: seq<Issue>, d: Command, path: Path, i: nat)
    requires Ordered(h) && i < |h| && h[i].cmd == d && Targets(h[i], path)
    ensures h[i].clk <= Recent(h, d, path, 1)
  {
    var last := |h| - 1;
    if i < last && !(h[last].cmd == d && Targets(h[last], path)) { RecentIsLast(h[..last], d, path, i); }
  }

  /** The issue that is k-th from the end. */
  lemma {:induction false} KthIssue(h: seq<Issue>, d: Command, path: Path, k: nat) returns (i: nat)
    requires k >= 1 && Recent(h, d, path, k) >= 0
    ensures i < |h| && h[i].clk == Recent(h, d, path, k) && Count(h[i..], d, path) >= k
  {
    var last := |h| - 1;
    var here := h[last].cmd == d && Targets(h[last], path);
    if here && k == 1 {
      i := last;
      assert h[last..] == [h[last]] && h[last..][..0] == [];
    } else {
      i := KthIssue(h[..last], d, path, if here then k - 1 else k);
      assert h[i..][..|h[i..]| - 1] == h[..last][i..];
    }
  }

  /** An own entry with distance 1 binds every earlier issue of its command to the node. */
  lemma OwnAllows(t: Entry, d: Command, h: seq<Issue>, path: Path, clk: int)
    requires Ordered(h) && t.dist == 1 && !t.sibling
    ensures Allows(t, d, h, path, clk) <==>
              forall i :: 0 <= i < |h| && h[i].cmd == d && Targets(h[i], path) ==> h[i].clk + t.val <= clk
  {
    if Allows(t, d, h, path, clk) {
      forall i | 0 <= i < |h| && h[i].cmd == d && Targets(h[i], path) ensures h[i].clk + t.val <= clk {
        RecentIsLast(h, d, path, i);
      }
    } else {
      var i := NewestIssue(h, d, path);
    }
  }

  /** An entry with a greater distance binds every issue with so many behind it. */
  lemma FarAllows(t: Entry, d: Command, h: seq<Issue>, path: Path, clk: int)
    requires Ordered(h) && t.dist >= 1 && !t.sibling
    ensures Allows(t, d, h, path, clk) <==>
              forall i :: 0 <= i < |h| && Count(h[i..], d, path) >= t.dist ==> h[i].clk + t.val <= clk
  {
    if Allows(t, d, h, path, clk) {
      forall i | 0 <= i < |h| && Count(h[i..], d, path) >= t.dist ensures h[i].clk + t.val <= clk {
        RecentWithin(h, i, d, path, t.dist);
      }
    } else {
      var i := KthIssue(h, d, path, t.dist);
    }
  }

  /** The node asks no more of e because of f. */
  ghost predicate NodePasses(table: Table, path: Path, f: Issue, e: Issue)
  {
    && (Targets(f, path) ==> Passes(table(|path| - 1, f.cmd), f, e, false))
    && (Beside(f, path) ==> Passes(table(|path| - 1, f.cmd), f, e, true))
  }

  /** The entries that look further back than one issue. */
  ghost predicate FarPasses(table: Table, h: seq<Issue>, path: Path, e: Issue)
    requires IsTable(table)
  {
    forall d, k: nat :: HasEntry(table, path, d, k) && EntryAt(table, path, d, k).cmd == e.cmd
                        && EntryAt(table, path, d, k).dist > 1
      ==> Allows(EntryAt(table, path, d, k), d, h, path, e.clk)
  }

  lemma PairsPass(table: Table, h: seq<Issue>, path: Path, e: Issue, i: nat)
    requires IsTable(table) && Ordered(h) && i < |h| && AllowedAt(table, h, path, e.cmd, e.clk)
    ensures NodePasses(table, path, h[i], e)
  {
    var f := h[i];
    forall t | t in table(|path| - 1, f.cmd) && t.cmd == e.cmd && t.dist == 1
                 && (if t.sibling then Beside(f, path) else Targets(f, path))
      ensures f.clk + t.val <= e.clk
    {
      var k: nat :| k < |table(|path| - 1, f.cmd)| && table(|path| - 1, f.cmd)[k] == t;
      assert HasEntry(table, path, f.cmd, k) && EntryAt(table, path, f.cmd, k) == t;
      assert Allows(t, f.cmd, h, path, e.clk);
      if !t.sibling { OwnAllows(t, f.cmd, h, path, e.clk); }
    }
  }

  lemma PairsSuffice(table: Table, h: seq<Issue>, path: Path, e: Issue)
    requires IsTable(table) && Ordered(h) && FarPasses(table, h, path, e)
    requires forall i :: 0 <= i < |h| ==> NodePasses(table, path, h[i], e)
    ensures AllowedAt(table, h, path, e.cmd, e.clk)
  {
    forall d, k: nat | HasEntry(table, path, d, k) && EntryAt(table, path, d, k).cmd == e.cmd
      ensures Allows(EntryAt(table, path, d, k), d, h, path, e.clk)
    {
      var t := EntryAt(table, path, d, k);
      if t.dist == 1 {
        assert t in table(|path| - 1, d);
        forall i | 0 <= i < |h| && h[i].cmd == d && (if t.sibling then Beside(h[i], path) else Targets(h[i], path))
          ensures h[i].clk + t.val <= e.clk
        {
          assert NodePasses(table, path, h[i], e);
        }
        if !t.sibling { OwnAllows(t, d, h, path, e.clk); }
      }
    }
  }

  /** One node admits a command exactly if no earlier command, taken by itself, forbids it, and the four-back rule. */
  lemma NodeAllows(table: Table, h: seq<Issue>, path: Path, e: Issue)
    requires IsTable(table) && Ordered(h)
    ensures AllowedAt(table, h, path, e.cmd, e.clk) <==>
              FarPasses(table, h, path, e) && forall i :: 0 <= i < |h| ==> NodePasses(table, path, h[i], e)
  {
    if AllowedAt(table, h, path, e.cmd, e.clk) {
      forall i | 0 <= i < |h| ensures NodePasses(table, path, h[i], e) { PairsPass(table, h, path, e, i); }
    } else if FarPasses(table, h, path, e) && forall i :: 0 <= i < |h| ==> NodePasses(table, path, h[i], e) {
      PairsSuffice(table, h, path, e);
    }
  }

  lemma SharedNear(s: Speed, level: nat, d: Command, t: Entry)
    requires t in SharedTable(s, level, d)
    ensures t.dist == 1
  {
  }

  lemma OnlyFourDdr4(s: Speed, level: nat, d: Command, t: Entry)
    requires t in Ddr4Table(s, level, d) && t !in SharedTable(s, level, d)
    ensures t.dist > 1 ==> level == RANK && d == ACT && t == Entry(ACT, 4, s.nFAW, false)
  {
  }

  lemma OnlyFourAllBank(s: Speed, level: nat, d: Command, t: Entry)
    requires t in AllBankTable(s, level, d) && t !in SharedTable(s, level, d)
    ensures t.dist > 1 ==> level == RANK && d == ACT && t == Entry(ACT, 4, s.nFAW, false)
  {
  }

  /** The only entry that looks further back: activations, at the rank. */
  lemma OnlyFour(kind: Standard, table: Table, s: Speed, level: nat, d: Command, t: Entry)
    requires IsStandard(kind, table, s) && t in table(level, d)
    ensures t.dist > 1 ==> level == RANK && d == ACT && t == Entry(ACT, 4, s.nFAW, false)
  {
    if t in SharedTable(s, level, d) {
      SharedNear(s, level, d, t);
    } else if kind == PerBank {
      OnlyFourDdr4(s, level, d, t);
    } else {
      OnlyFourAllBank(s, level, d, t);
    }
  }

  /** Other nodes than ranks ask nothing of the nodes beside the target. */
  lemma OnlyRankBeside(kind: Standard, table: Table, s: Speed, level: nat, f: Issue, e: Issue)
    requires IsStandard(kind, table, s) && level != RANK
    ensures Passes(table(level, f.cmd), f, e, true)
  {
  }

  lemma IsWellFormed(kind: Standard, table: Table, s: Speed)
    requires IsStandard(kind, table, s)
    ensures IsTable(table)
  {
    WellFormed(table, s);
  }

  lemma ChannelPasses(kind: Standard, table: Table, s: Speed, f: Issue, e: Issue)
    requires IsStandard(kind, table, s)
    ensures Passes(table(CHANNEL, f.cmd), f, e, false) <==> SameChannel(s, f, e)
  {
    assert table(CHANNEL, f.cmd) == SharedTable(s, CHANNEL, f.cmd);
    PassColumns(s.nBL, f, e, false);
  }

  /** What a node of each level demands of two commands that it serves. */
  lemma LevelPasses(kind: Standard, table: Table, s: Speed, level: nat, f: Issue, e: Issue)
    requires IsStandard(kind, table, s) && level <= BANK
    ensures Passes(table(level, f.cmd), f, e, false) <==> Together(kind, s, level, f, e)
  {
    if level == CHANNEL {
      ChannelPasses(kind, table, s, f, e);
    } else if level == RANK {
      RankPasses(kind, s, f, e);
    } else if kind == PerBank {
      if level == BANK_GROUP { GroupPasses(s, f, e); } else { BankPasses(s, f, e); }
    }
  }

  lemma {:induction false} ReachesNodes(org: Org, e: Issue, level: nat)
    requires Reaches(org, e, level)
    ensures level <= BANK && level < |e.addr|
  {
  }

  /** A visited node asks no more of the second command exactly if the two are far enough apart. */
  lemma VisitedPasses(kind: Standard, table: Table, s: Speed, org: Org, f: Issue, e: Issue, level: nat, path: Path)
    requires IsStandard(kind, table, s) && Reaches(org, e, level) && path == e.addr[..level + 1]
    ensures NodePasses(table, path, f, e) <==>
              && (path <= f.addr ==> Together(kind, s, level, f, e))
              && (level == RANK && Beside(f, path) ==> AcrossRanks(s, f, e))
  {
    ReachesNodes(org, e, level);
    LevelPasses(kind, table, s, level, f, e);
    if level == RANK {
      AcrossPasses(kind, s, f, e);
    } else {
      OnlyRankBeside(kind, table, s, level, f, e);
    }
  }

  lemma RankFour(kind: Standard, table: Table, s: Speed, h: seq<Issue>, e: Issue, rank: Path)
    requires IsStandard(kind, table, s) && IsTable(table) && Ordered(h) && |rank| == RANK + 1
    ensures FarPasses(table, h, rank, e) <==>
              (e.cmd == ACT ==>
                 forall i :: 0 <= i < |h| && Count(h[i..], ACT, rank) >= 4 ==> e.clk >= h[i].clk + s.nFAW)
  {
    var four := Entry(ACT, 4, s.nFAW, false);
    FarAllows(four, ACT, h, rank, e.clk);
    if FarPasses(table, h, rank, e) && e.cmd == ACT {
      var k := WindowEntry(table, s, rank);
      assert Allows(EntryAt(table, rank, ACT, k), ACT, h, rank, e.clk);
    }
    if e.cmd == ACT ==> Allows(four, ACT, h, rank, e.clk) {
      forall d, k: nat | HasEntry(table, rank, d, k) && EntryAt(table, rank, d, k).cmd == e.cmd
                         && EntryAt(table, rank, d, k).dist > 1
        ensures Allows(EntryAt(table, rank, d, k), d, h, rank, e.clk)
      {
        OnlyFour(kind, table, s, RANK, d, EntryAt(table, rank, d, k));
      }
    }
  }

  lemma ElsewhereFour(kind: Standard, table: Table, s: Speed, h: seq<Issue>, e: Issue, path: Path)
    requires IsStandard(kind, table, s) && IsTable(table) && |path| != RANK + 1
    ensures FarPasses(table, h, path, e)
  {
    forall d, k: nat | HasEntry(table, path, d, k) ensures EntryAt(table, path, d, k).dist <= 1 {
      OnlyFour(kind, table, s, |path| - 1, d, EntryAt(table, path, d, k));
    }
  }

  /** What one visited node demands of e after a whole history. */
  ghost predicate FreeAt(kind: Standard, s: Speed, h: seq<Issue>, e: Issue, level: nat, path: Path)
  {
    && (forall i :: 0 <= i < |h| ==>
          && (path <= h[i].addr ==> Together(kind, s, level, h[i], e))
          && (level == RANK && Beside(h[i], path) ==> AcrossRanks(s, h[i], e)))
    && (level == RANK && e.cmd == ACT ==>
          forall i :: 0 <= i < |h| && Count(h[i..], ACT, path) >= 4 ==> e.clk >= h[i].clk + s.nFAW)
  }

  lemma VisitedAllows(kind: Standard, table: Table, s: Speed, org: Org, h: seq<Issue>, e: Issue, level: nat, path: Path)
    requires IsStandard(kind, table, s) && IsTable(table) && Ordered(h) && Reaches(org, e, level)
             && path == e.addr[..level + 1]
    ensures AllowedAt(table, h, path, e.cmd, e.clk) <==> FreeAt(kind, s, h, e, level, path)
  {
    NodeAllows(table, h, path, e);
    if level == RANK {
      RankFour(kind, table, s, h, e, path);
    } else {
      ElsewhereFour(kind, table, s, h, e, path);
    }
    forall i | 0 <= i < |h|
      ensures NodePasses(table, path, h[i], e) <==>
                && (path <= h[i].addr ==> Together(kind, s, level, h[i], e))
                && (level == RANK && Beside(h[i], path) ==> AcrossRanks(s, h[i], e))
    {
      VisitedPasses(kind, table, s, org, h[i], e, level, path);
    }
  }

  ghost predicate FreeAll(kind: Standard, s: Speed, org: Org, h: seq<Issue>, e: Issue)
  {
    forall level: nat :: Reaches(org, e, level) ==> FreeAt(kind, s, h, e, level, e.addr[..level + 1])
  }

  lemma AdmittedIsFree(kind: Standard, table: Table, s: Speed, org: Org, h: seq<Issue>, e: Issue)
    requires IsStandard(kind, table, s) && IsTable(table) && Ordered(h)
    ensures Admitted(table, org, h, e) <==> FreeAll(kind, s, org, h, e)
  {
    if Admitted(table, org, h, e) {
      forall level: nat | Reaches(org, e, level) ensures FreeAt(kind, s, h, e, level, e.addr[..level + 1]) {
        VisitedAllows(kind, table, s, org, h, e, level, e.addr[..level + 1]);
      }
    } else if FreeAll(kind, s, org, h, e) {
      forall level: nat | Reaches(org, e, level) ensures AllowedAt(table, h, e.addr[..level + 1], e.cmd, e.clk) {
        VisitedAllows(kind, table, s, org, h, e, level, e.addr[..level + 1]);
      }
    }
  }

  lemma FreeSeparates(kind: Standard, s: Speed, org: Org, h: seq<Issue>, e: Issue, i: nat)
    requires FreeAll(kind, s, org, h, e) && i < |h|
    ensures Separated(kind, s, org, h[i], e)
  {
    forall level: nat | Reaches(org, e, level) && e.addr[..level + 1] <= h[i].addr
      ensures Together(kind, s, level, h[i], e)
    {
      assert FreeAt(kind, s, h, e, level, e.addr[..level + 1]);
    }
    if Reaches(org, e, RANK) && Beside(h[i], e.addr[..RANK + 1]) {
      assert FreeAt(kind, s, h, e, RANK, e.addr[..RANK + 1]);
    }
  }

  lemma FreeKeepsFour(kind: Standard, s: Speed, org: Org, h: seq<Issue>, e: Issue)
    requires FreeAll(kind, s, org, h, e)
    ensures FourBack(s, org, h, e)
  {
    if Reaches(org, e, RANK) { assert FreeAt(kind, s, h, e, RANK, e.addr[..RANK + 1]); }
  }

  lemma SeparatedIsFree(kind: Standard, s: Speed, org: Org, h: seq<Issue>, e: Issue, level: nat, path: Path)
    requires (forall i :: 0 <= i < |h| ==> Separated(kind, s, org, h[i], e)) && FourBack(s, org, h, e)
    requires Reaches(org, e, level) && path == e.addr[..level + 1]
    ensures FreeAt(kind, s, h, e, level, path)
  {
    forall i | 0 <= i < |h|
      ensures path <= h[i].addr ==> Together(kind, s, level, h[i], e)
      ensures level == RANK && Beside(h[i], path) ==> AcrossRanks(s, h[i], e)
    {
      assert Separated(kind, s, org, h[i], e);
    }
  }

  ghost predicate AllApart(kind: Standard, s: Speed, org: Org, h: seq<Issue>, e: Issue)
  {
    forall i :: 0 <= i < |h| ==> Separated(kind, s, org, h[i], e)
  }

  lemma FreeIsApart(kind: Standard, s: Speed, org: Org, h: seq<Issue>, e: Issue)
    requires FreeAll(kind, s, org, h, e)
    ensures AllApart(kind, s, org, h, e)
  {
    forall i | 0 <= i < |h| ensures Separated(kind, s, org, h[i], e) { FreeSeparates(kind, s, org, h, e, i); }
  }

  lemma ApartIsFree(kind: Standard, s: Speed, org: Org, h: seq<Issue>, e: Issue)
    requires AllApart(kind, s, org, h, e) && FourBack(s, org, h, e)
    ensures FreeAll(kind, s, org, h, e)
  {
    forall level: nat | Reaches(org, e, level) ensures FreeAt(kind, s, h, e, level, e.addr[..level + 1]) {
      SeparatedIsFree(kind, s, org, h, e, level, e.addr[..level + 1]);
    }
  }

  /** The tables of either standard admit a command exactly if it is separated from every earlier one and keeps the
      four-activate window. */
  lemma AdmittedExactly(kind: Standard, table: Table, s: Speed, org: Org, h: seq<Issue>, e: Issue)
    requires IsStandard(kind, table, s) && IsTable(table) && Ordered(h)
    ensures Admitted(table, org, h, e) <==> AllApart(kind, s, org, h, e) && FourBack(s, org, h, e)
  {
    AdmittedIsFree(kind, table, s, org, h, e);
    if FreeAll(kind, s, org, h, e) {
      FreeIsApart(kind, s, org, h, e);
      FreeKeepsFour(kind, s, org, h, e);
    }
    if AllApart(kind, s, org, h, e) && FourBack(s, org, h, e) {
      ApartIsFree(kind, s, org, h, e);
    }
  }

  /** Every two commands of a run are separated. */
  ghost predicate AllSeparated(kind: Standard, s: Speed, org: Org, h: seq<Issue>)
  {
    forall i, j :: 0 <= i < j < |h| ==> Separated(kind, s, org, h[i], h[j])
  }

  ghost predicate AllFourBack(s: Speed, org: Org, h: seq<Issue>)
  {
    forall j :: 0 <= j < |h| ==> FourBack(s, org, h[..j], h[j])
  }

  lemma AdmittedAt(kind: Standard, table: Table, s: Speed, org: Org, h: seq<Issue>, j: nat)
    requires IsStandard(kind, table, s) && IsTable(table) && Ordered(h) && j < |h|
    ensures Admitted(table, org, h[..j], h[j]) <==>
              (forall i :: 0 <= i < j ==> Separated(kind, s, org, h[i], h[j])) && FourBack(s, org, h[..j], h[j])
  {
    OrderedPrefix(h, j);
    AdmittedExactly(kind, table, s, org, h[..j], h[j]);
    assert forall i :: 0 <= i < j ==> h[..j][i] == h[i];
    assert AllApart(kind, s, org, h[..j], h[j]) <==> forall i :: 0 <= i < j ==> Separated(kind, s, org, h[i], h[j]);
  }

  /** The legal runs of either standard, in terms of the speed grade alone. */
  lemma LegalExactly(kind: Standard, table: Table, s: Speed, org: Org, h: seq<Issue>)
    requires IsStandard(kind, table, s) && IsTable(table)
    ensures Legal(table, org, h) <==> Ordered(h) && AllSeparated(kind, s, org, h) && AllFourBack(s, org, h)
  {
    if Ordered(h) {
      forall j | 0 <= j < |h|
        ensures Admitted(table, org, h[..j], h[j]) <==>
                  (forall i :: 0 <= i < j ==> Separated(kind, s, org, h[i], h[j])) && FourBack(s, org, h[..j], h[j])
      {
        AdmittedAt(kind, table, s, org, h, j);
      }
    }
  }

  lemma LegalPair(kind: Standard, table: Table, s: Speed, org: Org, h: seq<Issue>, i: nat, j: nat)
    requires IsStandard(kind, table, s) && IsTable(table) && Legal(table, org, h) && i < j < |h|
    ensures Separated(kind, s, org, h[i], h[j])
  {
    assert Admitted(table, org, h[..j], h[j]);
    AdmittedAt(kind, table, s, org, h, j);
  }

  /** check visits the rank of every command, and the group and bank of those that concern a bank. */
  lemma CommandsReach(org: Org, e: Issue)
    requires |e.addr| == LEVELS && org(RANK) > 0 && org(BANK_GROUP) > 0 && org(BANK) > 0 && e.addr[RANK] >= 0
    ensures Reaches(org, e, RANK)
    ensures e.cmd in {ACT, PRE, RD, WR, RDA, WRA} && e.addr[BANK_GROUP] >= 0 && e.addr[BANK] >= 0 ==>
              Reaches(org, e, BANK_GROUP) && Reaches(org, e, BANK)
  {
    assert Reaches(org, e, CHANNEL) && Reaches(org, e, RANK);
    if e.cmd in {ACT, PRE, RD, WR, RDA, WRA} && e.addr[BANK_GROUP] >= 0 { assert Reaches(org, e, BANK_GROUP); }
  }

  // The windows by name, for any two commands of a run that the standard admits.

  predicate Accesses(e: Issue) { Reads(e.cmd) || Writes(e.cmd) }

  /** Both name this node, which the second one visits. */
  predicate Shares(org: Org, f: Issue, e: Issue, level: nat) { Reaches(org, e, level) && e.addr[..level + 1] <= f.addr }

  /** Both name the same bank; under the all-bank standard, the same rank. */
  predicate SharesBank(kind: Standard, org: Org, f: Issue, e: Issue)
  {
    Shares(org, f, e, if kind == PerBank then BANK else RANK)
  }

  predicate SharesGroup(kind: Standard, org: Org, f: Issue, e: Issue)
  {
    Shares(org, f, e, if kind == PerBank then BANK_GROUP else RANK)
  }

  ghost predicate Runs(kind: Standard, table: Table, s: Speed, org: Org, h: seq<Issue>, i: nat, j: nat)
  {
    IsStandard(kind, table, s) && IsTable(table) && Legal(table, org, h) && i < j < |h|
  }

  /** On the data bus of a channel, the burst of the later access starts when that of the earlier one is over: two
      cycles later when a write follows a read of its rank, nRTRS later when a read follows an access of another rank,
      or a write a read. */
  lemma BurstsApart(kind: Standard, table: Table, s: Speed, org: Org, h: seq<Issue>, i: nat, j: nat)
    requires Runs(kind, table, s, org, h, i, j) && Accesses(h[i]) && Accesses(h[j])
    requires Reaches(org, h[j], RANK) && |h[i].addr| > RANK && h[i].addr[CHANNEL] == h[j].addr[CHANNEL]
    ensures BurstStart(s, h[j]) >= BurstEnd(s, h[i])
    ensures h[i].addr[RANK] == h[j].addr[RANK] && Reads(h[i].cmd) && Writes(h[j].cmd) ==>
              BurstStart(s, h[j]) >= BurstEnd(s, h[i]) + 2
    ensures h[i].addr[RANK] != h[j].addr[RANK] && (Reads(h[i].cmd) || Reads(h[j].cmd)) ==>
              BurstStart(s, h[j]) >= BurstEnd(s, h[i]) + s.nRTRS
  {
    LegalPair(kind, table, s, org, h, i, j);
    assert Reaches(org, h[j], CHANNEL) && h[j].addr[..CHANNEL + 1] <= h[i].addr;
    if h[i].addr[RANK] == h[j].addr[RANK] {
      assert h[j].addr[..RANK + 1] <= h[i].addr;
    } else {
      assert Beside(h[i], h[j].addr[..RANK + 1]);
    }
  }

  /** No two accesses of a run are on the data bus of their channel at the same time. */
  ghost predicate BusFree(s: Speed, h: seq<Issue>)
  {
    forall i, j :: 0 <= i < j < |h| && Accesses(h[i]) && Accesses(h[j]) && |h[i].addr| > 0 && |h[j].addr| > 0
                   && h[i].addr[CHANNEL] == h[j].addr[CHANNEL]
      ==> BurstEnd(s, h[i]) <= BurstStart(s, h[j])
  }

  lemma BusStaysFree(kind: Standard, table: Table, s: Speed, org: Org, h: seq<Issue>)
    requires IsStandard(kind, table, s) && IsTable(table) && Legal(table, org, h)
    requires forall i :: 0 <= i < |h| ==> |h[i].addr| > RANK && Reaches(org, h[i], RANK)
    ensures BusFree(s, h)
  {
    forall i, j | 0 <= i < j < |h| && Accesses(h[i]) && Accesses(h[j]) && h[i].addr[CHANNEL] == h[j].addr[CHANNEL]
      ensures BurstEnd(s, h[i]) <= BurstStart(s, h[j])
    {
      BurstsApart(kind, table, s, org, h, i, j);
    }
  }

  /** nRCD, nRC, nRAS, nRTP, write recovery and nRP. */
  lemma BankWindows(kind: Standard, table: Table, s: Speed, org: Org, h: seq<Issue>, i: nat, j: nat)
    requires Runs(kind, table, s, org, h, i, j) && SharesBank(kind, org, h[i], h[j])
    ensures h[i].cmd == ACT && h[j].cmd in {RD, RDA, WR, WRA} ==> h[j].clk >= h[i].clk + s.nRCD
    ensures h[i].cmd == ACT && h[j].cmd == ACT ==> h[j].clk >= h[i].clk + s.nRC
    ensures h[i].cmd == ACT && h[j].cmd == PRE ==> h[j].clk >= h[i].clk + s.nRAS
    ensures h[i].cmd == RD && h[j].cmd == PRE ==> h[j].clk >= h[i].clk + s.nRTP
    ensures h[i].cmd == WR && h[j].cmd == PRE ==> h[j].clk >= h[i].clk + s.nCWL + s.nBL + s.nWR
    ensures h[i].cmd == PRE && h[j].cmd == ACT ==> h[j].clk >= h[i].clk + s.nRP
    ensures h[i].cmd == RDA && h[j].cmd == ACT ==> h[j].clk >= h[i].clk + s.nRTP + s.nRP
    ensures h[i].cmd == WRA && h[j].cmd == ACT ==> h[j].clk >= h[i].clk + s.nCWL + s.nBL + s.nWR + s.nRP
  {
    LegalPair(kind, table, s, org, h, i, j);
    assert Together(kind, s, if kind == PerBank then BANK else RANK, h[i], h[j]);
  }

  /** Column to column, write to read, and row to row, within a rank and within a bank group. */
  lemma ColumnWindows(kind: Standard, table: Table, s: Speed, org: Org, h: seq<Issue>, i: nat, j: nat)
    requires Runs(kind, table, s, org, h, i, j)
    ensures kind == PerBank && Shares(org, h[i], h[j], RANK) ==>
              && (Alike(h[i].cmd, h[j].cmd) ==> h[j].clk >= h[i].clk + s.nCCDS)
              && (Writes(h[i].cmd) && Reads(h[j].cmd) ==> h[j].clk >= h[i].clk + s.nCWL + s.nBL + s.nWTRS)
              && (h[i].cmd == ACT && h[j].cmd == ACT ==> h[j].clk >= h[i].clk + s.nRRDS)
    ensures SharesGroup(kind, org, h[i], h[j]) ==>
              && (Alike(h[i].cmd, h[j].cmd) ==> h[j].clk >= h[i].clk + s.nCCDL)
              && (Writes(h[i].cmd) && Reads(h[j].cmd) ==> h[j].clk >= h[i].clk + s.nCWL + s.nBL + s.nWTRL)
              && (h[i].cmd == ACT && h[j].cmd == ACT ==> h[j].clk >= h[i].clk + s.nRRDL)
  {
    LegalPair(kind, table, s, org, h, i, j);
    if Shares(org, h[i], h[j], RANK) { assert Together(kind, s, RANK, h[i], h[j]); }
    if kind == PerBank && Shares(org, h[i], h[j], BANK_GROUP) { assert Together(kind, s, BANK_GROUP, h[i], h[j]); }
  }

  /** Closing and refreshing a whole rank. */
  lemma RefreshWindows(kind: Standard, table: Table, s: Speed, org: Org, h: seq<Issue>, i: nat, j: nat)
    requires Runs(kind, table, s, org, h, i, j) && Shares(org, h[i], h[j], RANK)
    ensures h[i].cmd == ACT && h[j].cmd == PREA ==> h[j].clk >= h[i].clk + s.nRAS
    ensures h[i].cmd == RD && h[j].cmd == PREA ==> h[j].clk >= h[i].clk + s.nRTP
    ensures h[i].cmd == WR && h[j].cmd == PREA ==> h[j].clk >= h[i].clk + s.nCWL + s.nBL + s.nWR
    ensures h[i].cmd == PREA && h[j].cmd in {ACT, REF, SRE} ==> h[j].clk >= h[i].clk + s.nRP
    ensures h[i].cmd == ACT && h[j].cmd == REF ==> h[j].clk >= h[i].clk + s.nRC
    ensures h[i].cmd == PRE && h[j].cmd in {REF, SRE} ==> h[j].clk >= h[i].clk + s.nRP
    ensures h[i].cmd == RDA && h[j].cmd == REF ==> h[j].clk >= h[i].clk + s.nRTP + s.nRP
    ensures h[i].cmd == WRA && h[j].cmd == REF ==> h[j].clk >= h[i].clk + s.nCWL + s.nBL + s.nWR + s.nRP
    ensures h[i].cmd == REF && h[j].cmd in {ACT, REF} ==> h[j].clk >= h[i].clk + s.nRFC
  {
    LegalPair(kind, table, s, org, h, i, j);
    assert Together(kind, s, RANK, h[i], h[j]);
  }

  /** Into and out of power-down and self-refresh. */
  lemma PowerWindows(kind: Standard, table: Table, s: Speed, org: Org, h: seq<Issue>, i: nat, j: nat)
    requires Runs(kind, table, s, org, h, i, j) && Shares(org, h[i], h[j], RANK)
    ensures h[i].cmd in {RD, RDA} && h[j].cmd == PDE ==> h[j].clk >= h[i].clk + s.nCL + s.nBL + 1
    ensures h[i].cmd == WR && h[j].cmd == PDE ==> h[j].clk >= h[i].clk + s.nCWL + s.nBL + s.nWR
    ensures h[i].cmd == WRA && h[j].cmd == PDE ==> h[j].clk >= h[i].clk + s.nCWL + s.nBL + s.nWR + 1
    ensures h[i].cmd in {ACT, REF} && h[j].cmd == PDE ==> h[j].clk >= h[i].clk + 1
    ensures h[i].cmd == PDE && h[j].cmd == PDX ==> h[j].clk >= h[i].clk + s.nPD
    ensures h[i].cmd == PDX && h[j].cmd !in {PDX, SRX} ==> h[j].clk >= h[i].clk + s.nXP
    ensures h[i].cmd == SRE && h[j].cmd == SRX ==> h[j].clk >= h[i].clk + s.nCKESR
    ensures h[i].cmd == SRX && h[j].cmd in {ACT, REF, PDE, SRE} ==> h[j].clk >= h[i].clk + s.nXS
  {
    LegalPair(kind, table, s, org, h, i, j);
    assert Together(kind, s, RANK, h[i], h[j]);
  }
}
