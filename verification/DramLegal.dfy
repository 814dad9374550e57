/** Runs that a timing table admits: windows, twin commands, and the refinement between the two standards. */
module DramLegal {
  import opened DramSpec
  import opened DramHistory

  /** How many children the nodes above each level have; 0 when unspecified. */
  type Org = nat -> nat

  /** Rows are not instantiated as nodes. */
  predicate HasChildren(org: Org, level: nat) { level + 1 < ROW && org(level + 1) > 0 }

  /** check, on its way down the address of e, visits the node at this level. */
  predicate Reaches(org: Org, e: Issue, level: nat)
    decreases level
  {
    level < |e.addr| &&
    (level > 0 ==>
       Reaches(org, e, level - 1) && e.addr[level] >= 0 && level - 1 != Scope(e.cmd) && HasChildren(org, level - 1))
  }

  lemma {:induction false} ReachesAbove(org: Org, e: Issue, level: nat, up: nat)
    requires up <= level && Reaches(org, e, level)
    ensures Reaches(org, e, up) && e.addr[..up + 1] <= e.addr[..level + 1]
  {
    if up < level { ReachesAbove(org, e, level - 1, up); }
  }

  /** Every visited node allows e, in view of the whole history. */
  ghost predicate Admitted(table: Table, org: Org, h: seq<Issue>, e: Issue)
    requires IsTable(table)
  {
    forall level: nat :: Reaches(org, e, level) ==> AllowedAt(table, h, e.addr[..level + 1], e.cmd, e.clk)
  }

  /** The same, down from a level that is visited. */
  ghost predicate AdmittedFrom(table: Table, org: Org, h: seq<Issue>, e: Issue, level: nat)
    requires IsTable(table) && level < |e.addr|
    decreases |e.addr| - level
  {
    && AllowedAt(table, h, e.addr[..level + 1], e.cmd, e.clk)
    && (Reaches(org, e, level + 1) ==> AdmittedFrom(table, org, h, e, level + 1))
  }

  lemma {:induction false} AdmittedDown(table: Table, org: Org, h: seq<Issue>, e: Issue, level: nat, l: nat)
    requires IsTable(table) && level <= l < |e.addr| && AdmittedFrom(table, org, h, e, level) && Reaches(org, e, l)
    ensures AllowedAt(table, h, e.addr[..l + 1], e.cmd, e.clk)
    decreases l - level
  {
    if level < l {
      ReachesAbove(org, e, l, level + 1);
      AdmittedDown(table, org, h, e, level + 1, l);
    }
  }

  lemma {:induction false} AdmittedUp(table: Table, org: Org, h: seq<Issue>, e: Issue, level: nat)
    requires IsTable(table) && Admitted(table, org, h, e) && Reaches(org, e, level)
    ensures AdmittedFrom(table, org, h, e, level)
    decreases |e.addr| - level
  {
    if Reaches(org, e, level + 1) { AdmittedUp(table, org, h, e, level + 1); }
  }

  lemma AdmittedFromTop(table: Table, org: Org, h: seq<Issue>, e: Issue)
    requires IsTable(table) && |e.addr| > 0
    ensures Admitted(table, org, h, e) <==> AdmittedFrom(table, org, h, e, 0)
  {
    if AdmittedFrom(table, org, h, e, 0) {
      forall level: nat | Reaches(org, e, level) ensures AllowedAt(table, h, e.addr[..level + 1], e.cmd, e.clk) {
        AdmittedDown(table, org, h, e, 0, level);
      }
    }
    if Admitted(table, org, h, e) { AdmittedUp(table, org, h, e, 0); }
  }

  ghost predicate Legal(table: Table, org: Org, h: seq<Issue>)
    requires IsTable(table)
  {
    Ordered(h) && forall i :: 0 <= i < |h| ==> Admitted(table, org, h[..i], h[i])
  }

  /** How many times cmd has been issued to the node. */
  function Count(h: seq<Issue>, cmd: Command, path: Path): nat
  {
    if h == [] then 0
    else Count(h[..|h| - 1], cmd, path) + if h[|h| - 1].cmd == cmd && Targets(h[|h| - 1], path) then 1 else 0
  }

  lemma OrderedPrefix(h: seq<Issue>, n: nat)
    requires Ordered(h) && n <= |h|
    ensures Ordered(h[..n])
  {
  }

  /** With k issues from position i on, the k-th most recent is not before position i. */
  lemma {:induction false} RecentWithin(h: seq<Issue>, i: nat, cmd: Command, path: Path, k: nat)
    requires Ordered(h) && i < |h| && 1 <= k <= Count(h[i..], cmd, path)
    ensures Recent(h, cmd, path, k) >= h[i].clk
  {
    var e, before := h[|h| - 1], h[..|h| - 1];
    assert h[i..][..|h[i..]| - 1] == before[i..];
    var here := e.cmd == cmd && Targets(e, path);
    if !here || k > 1 {
      RecentWithin(before, i, cmd, path, if here then k - 1 else k);
    }
  }

  /** Any entry is a window: with dist of the earlier commands in between, the two ends are val apart. */
  lemma EntryWindow(table: Table, org: Org, h: seq<Issue>, i: nat, m: nat, level: nat, d: Command, k: nat)
    requires IsTable(table) && Legal(table, org, h) && i < m < |h| && Reaches(org, h[m], level)
    requires var path: Path := h[m].addr[..level + 1];
             && HasEntry(table, path, d, k) && EntryAt(table, path, d, k).cmd == h[m].cmd
             && !EntryAt(table, path, d, k).sibling
             && Count(h[i..m], d, path) >= EntryAt(table, path, d, k).dist
    ensures h[m].clk >= h[i].clk + EntryAt(table, h[m].addr[..level + 1], d, k).val
  {
    var path: Path := h[m].addr[..level + 1];
    assert Admitted(table, org, h[..m], h[m]);
    assert h[..m][i..] == h[i..m];
    RecentWithin(h[..m], i, d, path, EntryAt(table, path, d, k).dist);
  }

  /** The last issue of a command in a nonempty window. */
  lemma {:induction false} LastOf(h: seq<Issue>, cmd: Command, path: Path) returns (m: nat)
    requires Count(h, cmd, path) > 0
    ensures m < |h| && h[m].cmd == cmd && Targets(h[m], path) && Count(h[..m], cmd, path) == Count(h, cmd, path) - 1
  {
    m := |h| - 1;
    if !(h[m].cmd == cmd && Targets(h[m], path)) {
      var before := h[..m];
      m := LastOf(before, cmd, path);
      assert before[..m] == h[..m];
    }
  }

  /** The most recent issue of a command to a node. */
  lemma {:induction false} NewestIssue(h: seq<Issue>, d: Command, path: Path) returns (i: nat)
    requires Recent(h, d, path, 1) >= 0
    ensures i < |h| && h[i].cmd == d && Targets(h[i], path) && h[i].clk == Recent(h, d, path, 1)
  {
    i := |h| - 1;
    if !(h[i].cmd == d && Targets(h[i], path)) {
      i := NewestIssue(h[..i], d, path);
    }
  }

  ghost predicate IsDdr4(table: Table, s: Speed)
  {
    forall level: nat, d :: table(level, d) == Ddr4Table(s, level, d)
  }

  ghost predicate IsAllBank(table: Table, s: Speed)
  {
    forall level: nat, d :: table(level, d) == AllBankTable(s, level, d)
  }

  lemma FineEntry(s: Speed, level: nat, d: Command, t: Entry)
    requires t in Ddr4Table(s, level, d) || t in AllBankTable(s, level, d)
    ensures t.dist >= 1 && (t.sibling ==> t.dist == 1)
  {
  }

  lemma WellFormed(table: Table, s: Speed)
    requires IsDdr4(table, s) || IsAllBank(table, s)
    ensures IsTable(table)
  {
    forall level: nat, d, k: nat | k < |table(level, d)|
      ensures table(level, d)[k].dist >= 1 && (table(level, d)[k].sibling ==> table(level, d)[k].dist == 1)
    {
      FineEntry(s, level, d, table(level, d)[k]);
    }
  }

  lemma WindowEntry(table: Table, s: Speed, rank: Path) returns (k: nat)
    requires IsDdr4(table, s) || IsAllBank(table, s)
    requires |rank| == RANK + 1
    ensures HasEntry(table, rank, ACT, k) && EntryAt(table, rank, ACT, k) == Entry(ACT, 4, s.nFAW, false)
  {
    if IsDdr4(table, s) {
      assert table(RANK, ACT) == Ddr4Table(s, RANK, ACT);
      k := 1;
    } else {
      assert table(RANK, ACT) == AllBankTable(s, RANK, ACT);
      k := 5;
    }
  }

  lemma RankReached(org: Org, e: Issue, rank: Path)
    requires e.cmd == ACT && Targets(e, rank) && |rank| == RANK + 1 && rank[RANK] >= 0 && HasChildren(org, CHANNEL)
    ensures e.addr[..RANK + 1] == rank && Reaches(org, e, RANK)
  {
    assert Reaches(org, e, CHANNEL) && e.addr[RANK] == rank[RANK];
  }

  lemma FifthActivation(table: Table, s: Speed, org: Org, h: seq<Issue>, i: nat, m: nat, rank: Path)
    requires IsTable(table) && Legal(table, org, h) && i < m < |h| && (IsDdr4(table, s) || IsAllBank(table, s))
    requires h[m].cmd == ACT && |rank| == RANK + 1 <= |h[m].addr| && h[m].addr[..RANK + 1] == rank
             && Reaches(org, h[m], RANK)
    requires Count(h[i..m], ACT, rank) >= 4
    ensures h[m].clk - h[i].clk >= s.nFAW
  {
    var k := WindowEntry(table, s, rank);
    EntryWindow(table, org, h, i, m, RANK, ACT, k);
  }

  /** The four-activate window: any stretch of a legal run with five activations of one rank lasts at least nFAW. */
  lemma FourActivateWindow(table: Table, s: Speed, org: Org, h: seq<Issue>, i: nat, j: nat, rank: Path)
    requires IsTable(table) && Legal(table, org, h) && i <= j < |h|
    requires IsDdr4(table, s) || IsAllBank(table, s)
    requires |rank| == RANK + 1 && rank[RANK] >= 0 && HasChildren(org, CHANNEL) && Count(h[i..j + 1], ACT, rank) >= 5
    ensures h[j].clk - h[i].clk >= s.nFAW
  {
    var w := h[i..j + 1];
    var m := LastOf(w, ACT, rank);
    assert w[..m] == h[i..i + m] && w[m] == h[i + m];
    assert w[..0] == [];
    RankReached(org, h[i + m], rank);
    FifthActivation(table, s, org, h, i, i + m, rank);
  }

  lemma {:induction false} RecentCoarser(h: seq<Issue>, d: Command, path: Path, above: Path, k: nat)
    requires Ordered(h) && above <= path && k >= 1
    ensures Recent(h, d, path, k) <= Recent(h, d, above, k)
  {
    if h != [] {
      var e, before := h[|h| - 1], h[..|h| - 1];
      var here, there := e.cmd == d && Targets(e, path), e.cmd == d && Targets(e, above);
      if k > 1 || !there { RecentCoarser(before, d, path, above, if here then k - 1 else k); }
      if there && !here {
        if k > 1 { RecentOrder(before, d, above, k - 1); } else { RecentIsPast(before, d, path, k); }
      }
      if here && k == 1 { RecentIsPast(h, d, path, k); }
    }
  }

  /** An entry u, at this level or above, that demands at least what t does. */
  predicate Stronger(u: Entry, t: Entry)
  {
    u.cmd == t.cmd && u.dist == t.dist && u.sibling == t.sibling && u.val >= t.val
  }

  lemma StrongerAllows(t: Entry, u: Entry, d: Command, h: seq<Issue>, path: Path, above: Path, clk: int)
    requires Ordered(h) && above <= path && t.dist >= 1 && Stronger(u, t) && (t.sibling ==> above == path)
    requires Allows(u, d, h, above, clk)
    ensures Allows(t, d, h, path, clk)
  {
    if !t.sibling { RecentCoarser(h, d, path, above, t.dist); }
  }

  /** What the all-bank tables assume of a speed grade: each same-bank-group delay, or another delay that DDR4_AB
      imposes on the same commands, is at least the delay between bank groups. */
  predicate LongDelaysDominate(s: Speed)
  {
    && s.nWTRS <= s.nWTRL
    && (s.nCCDS <= s.nCCDL || s.nCCDS <= s.nBL)
    && (s.nRRDS <= s.nRRDL || s.nRRDS <= s.nRC)
  }

  lemma BankCovered(s: Speed, d: Command, t: Entry)
    requires t in Ddr4Table(s, BANK, d)
    ensures t in AllBankTable(s, RANK, d) && !t.sibling
  {
  }

  lemma GroupCovered(s: Speed, d: Command, t: Entry)
    requires t in Ddr4Table(s, BANK_GROUP, d)
    ensures t in AllBankTable(s, RANK, d) && !t.sibling
  {
  }

  lemma RankCovered(s: Speed, d: Command, t: Entry) returns (u: Entry, up: nat)
    requires LongDelaysDominate(s) && t in Ddr4Table(s, RANK, d)
    ensures up <= RANK && u in AllBankTable(s, up, d) && Stronger(u, t) && (t.sibling ==> up == RANK)
  {
    u, up := t, RANK;
    if t !in AllBankTable(s, RANK, d) {
      if d == ACT {
        u := t.(val := if s.nRRDS <= s.nRRDL then s.nRRDL else s.nRC);
      } else if (d == RD || d == RDA) == (t.cmd == RD || t.cmd == RDA) {
        u := if s.nCCDS <= s.nCCDL then t.(val := s.nCCDL) else t.(val := s.nBL);
        up := if s.nCCDS <= s.nCCDL then RANK else CHANNEL;
      } else {
        u := t.(val := s.nCWL + s.nBL + s.nWTRL);
      }
    }
  }

  /** Every DDR4 entry is covered by one of DDR4_AB, at the same level or above. */
  lemma Covered(s: Speed, level: nat, d: Command, t: Entry) returns (u: Entry, up: nat)
    requires LongDelaysDominate(s) && t in Ddr4Table(s, level, d)
    ensures up <= level && u in AllBankTable(s, up, d) && Stronger(u, t) && (t.sibling ==> up == level)
  {
    u, up := t, level;
    if level == RANK {
      u, up := RankCovered(s, d, t);
    } else if level == BANK_GROUP {
      GroupCovered(s, d, t);
      up := RANK;
    } else if level == BANK {
      BankCovered(s, d, t);
      up := RANK;
    }
  }

  lemma RefinedAt(table: Table, strict: Table, s: Speed, org: Org, h: seq<Issue>, e: Issue, level: nat)
    requires IsDdr4(table, s) && IsAllBank(strict, s) && LongDelaysDominate(s) && IsTable(table) && IsTable(strict)
    requires Ordered(h) && Admitted(strict, org, h, e) && Reaches(org, e, level)
    ensures AllowedAt(table, h, e.addr[..level + 1], e.cmd, e.clk)
  {
    var path: Path := e.addr[..level + 1];
    forall d, k: nat | HasEntry(table, path, d, k) && EntryAt(table, path, d, k).cmd == e.cmd
      ensures Allows(EntryAt(table, path, d, k), d, h, path, e.clk)
    {
      var t := EntryAt(table, path, d, k);
      var u, up := Covered(s, level, d, t);
      ReachesAbove(org, e, level, up);
      var above: Path := e.addr[..up + 1];
      assert AllowedAt(strict, h, above, e.cmd, e.clk);
      var j: nat :| j < |strict(up, d)| && strict(up, d)[j] == u;
      assert HasEntry(strict, above, d, j) && EntryAt(strict, above, d, j) == u;
      StrongerAllows(t, u, d, h, path, above, e.clk);
    }
  }

  lemma AdmittedRefines(table: Table, strict: Table, s: Speed, org: Org, h: seq<Issue>, e: Issue)
    requires IsDdr4(table, s) && IsAllBank(strict, s) && LongDelaysDominate(s) && IsTable(table) && IsTable(strict)
    requires Ordered(h) && Admitted(strict, org, h, e)
    ensures Admitted(table, org, h, e)
  {
    forall level: nat | Reaches(org, e, level) ensures AllowedAt(table, h, e.addr[..level + 1], e.cmd, e.clk) {
      RefinedAt(table, strict, s, org, h, e, level);
    }
  }

  /** DDR4_AB is stricter than DDR4: every run it admits, DDR4 admits. */
  lemma AllBankRefinesDdr4(table: Table, strict: Table, s: Speed, org: Org, h: seq<Issue>)
    requires IsDdr4(table, s) && IsAllBank(strict, s) && LongDelaysDominate(s) && IsTable(table) && IsTable(strict)
    requires Legal(strict, org, h)
    ensures Legal(table, org, h)
  {
    forall i | 0 <= i < |h| ensures Admitted(table, org, h[..i], h[i]) {
      OrderedPrefix(h, i);
      AdmittedRefines(table, strict, s, org, h[..i], h[i]);
    }
  }

  lemma NothingForbids(table: Table, org: Org, e: Issue)
    requires IsTable(table)
    ensures Admitted(table, org, [], e)
  {
  }

  lemma OneIssue(e: Issue, d: Command, path: Path, k: nat)
    requires k >= 1
    ensures Recent([e], d, path, k) == if e.cmd == d && Targets(e, path) && k == 1 then e.clk else -1
  {
    assert [e][..0] == [];
  }

  /** No entry of DDR4_AB keeps c from following d by val cycles. */
  ghost predicate FarEnough(s: Speed, d: Command, c: Command, val: int)
  {
    forall level: nat, t {:trigger t in AllBankTable(s, level, d)} ::
      t in AllBankTable(s, level, d) && t.cmd == c && !t.sibling && t.dist == 1 ==> t.val <= val
  }

  /** Two commands for one address, the second at clock val. */
  function Pair(d: Command, c: Command, val: int): seq<Issue>
  {
    [Issue(d, [0, 0, 0, 0, 0, 0], 0), Issue(c, [0, 0, 0, 0, 0, 0], val)]
  }

  lemma PairLegal(strict: Table, s: Speed, org: Org, d: Command, c: Command, val: nat)
    requires IsAllBank(strict, s) && IsTable(strict) && FarEnough(s, d, c, val)
    ensures Legal(strict, org, Pair(d, c, val))
  {
    var h := Pair(d, c, val);
    assert h[..0] == [] && h[..1] == [h[0]];
    NothingForbids(strict, org, h[0]);
    forall level: nat | Reaches(org, h[1], level) ensures AllowedAt(strict, [h[0]], h[1].addr[..level + 1], c, val) {
      var path: Path := h[1].addr[..level + 1];
      forall b, k: nat | HasEntry(strict, path, b, k) && EntryAt(strict, path, b, k).cmd == c
        ensures Allows(EntryAt(strict, path, b, k), b, [h[0]], path, val)
      {
        var t := EntryAt(strict, path, b, k);
        OneIssue(h[0], b, path, t.dist);
        assert t in AllBankTable(s, level, b) && !Beside(h[0], path);
      }
    }
  }

  lemma PairRefused(table: Table, s: Speed, org: Org, d: Command, c: Command, val: nat, k: nat)
    requires IsDdr4(table, s) && IsTable(table) && HasChildren(org, CHANNEL)
    requires k < |Ddr4Table(s, RANK, d)| && var t := Ddr4Table(s, RANK, d)[k]; t == Own(c, t.val) && t.val > val
    ensures !Legal(table, org, Pair(d, c, val))
  {
    var h := Pair(d, c, val);
    var rank: Path := [0, 0];
    assert h[..1] == [h[0]] && h[1].addr[..RANK + 1] == rank;
    assert table(RANK, d) == Ddr4Table(s, RANK, d);
    assert HasEntry(table, rank, d, k) && EntryAt(table, rank, d, k) == Ddr4Table(s, RANK, d)[k];
    OneIssue(h[0], d, rank, 1);
    assert Targets(h[0], rank) && Recent([h[0]], d, rank, 1) == 0;
    assert !AllowedAt(table, [h[0]], rank, c, val);
    assert Reaches(org, h[1], CHANNEL) && Reaches(org, h[1], RANK);
    assert !Admitted(table, org, h[..1], h[1]);
  }

  lemma ReadFromWrite(s: Speed)
    ensures FarEnough(s, WR, RD, s.nCWL + s.nBL + s.nWTRL)
  {
  }

  lemma ReadFromRead(s: Speed, val: nat)
    requires s.nCCDL <= val && s.nBL <= val
    ensures FarEnough(s, RD, RD, val)
  {
  }

  lemma ActivationFromActivation(s: Speed, val: nat)
    requires s.nRRDL <= val && s.nRC <= val
    ensures FarEnough(s, ACT, ACT, val)
  {
  }

  /** Where the condition fails, two commands suffice. */
  lemma PairTellsApart(table: Table, strict: Table, s: Speed, org: Org) returns (h: seq<Issue>)
    requires IsDdr4(table, s) && IsAllBank(strict, s) && IsTable(table) && IsTable(strict)
    requires !LongDelaysDominate(s) && HasChildren(org, CHANNEL)
    ensures |h| == 2 && Legal(strict, org, h) && !Legal(table, org, h)
  {
    var d, c, val: nat, k: nat := RD, RD, if s.nCCDL < s.nBL then s.nBL else s.nCCDL, 0;
    if s.nWTRS > s.nWTRL {
      d, val, k := WR, s.nCWL + s.nBL + s.nWTRL, 2;
      ReadFromWrite(s);
    } else if s.nRRDS > s.nRRDL && s.nRRDS > s.nRC {
      d, c, val := ACT, ACT, if s.nRRDL < s.nRC then s.nRC else s.nRRDL;
      ActivationFromActivation(s, val);
    } else {
      ReadFromRead(s, val);
    }
    h := Pair(d, c, val);
    PairLegal(strict, s, org, d, c, val);
    PairRefused(table, s, org, d, c, val, k);
  }

  /** The condition is exact. */
  lemma RefinesExactly(table: Table, strict: Table, s: Speed, org: Org)
    requires IsDdr4(table, s) && IsAllBank(strict, s) && IsTable(table) && IsTable(strict) && HasChildren(org, CHANNEL)
    ensures LongDelaysDominate(s) <==> forall h :: Legal(strict, org, h) ==> Legal(table, org, h)
  {
    if LongDelaysDominate(s) {
      forall h | Legal(strict, org, h) ensures Legal(table, org, h) { AllBankRefinesDdr4(table, strict, s, org, h); }
    } else {
      var h := PairTellsApart(table, strict, s, org);
    }
  }

  lemma ReadEntry(strict: Table, s: Speed, rank: Path) returns (k: nat)
    requires IsAllBank(strict, s) && |rank| == RANK + 1
    ensures HasEntry(strict, rank, RD, k) && EntryAt(strict, rank, RD, k) == Own(RD, s.nCCDL)
  {
    assert strict(RANK, RD) == AllBankTable(s, RANK, RD);
    k := 0;
  }

  lemma TooEarly(strict: Table, s: Speed, org: Org, first: Issue, second: Issue)
    requires IsAllBank(strict, s) && IsTable(strict) && s.nCCDS < s.nCCDL && HasChildren(org, CHANNEL)
    requires first == Issue(RD, [0, 0, 0, 0, 0, 0], 0) && second == Issue(RD, [0, 0, 1, 0, 0, 0], s.nCCDS)
    ensures !Admitted(strict, org, [first], second)
  {
    var rank: Path := [0, 0];
    var k := ReadEntry(strict, s, rank);
    OneIssue(first, RD, rank, 1);
    assert Targets(first, rank) && second.addr[..RANK + 1] == rank;
    assert !AllowedAt(strict, [first], rank, RD, s.nCCDS);
    assert Reaches(org, second, CHANNEL) && Reaches(org, second, RANK);
  }

  lemma NoSiblings(s: Speed, level: nat, d: Command, t: Entry)
    requires t in Ddr4Table(s, level, d)
    ensures t.sibling ==> level == RANK
  {
  }

  lemma ShortReads(s: Speed, level: nat, t: Entry)
    requires s.nBL <= s.nCCDS && level <= RANK
    ensures t in Ddr4Table(s, level, RD) && t.cmd == RD && !t.sibling ==> t.val <= s.nCCDS
  {
  }

  lemma OtherGroupAllows(s: Speed, first: Issue, level: nat, path: Path, t: Entry, d: Command)
    requires s.nBL <= s.nCCDS && first == Issue(RD, [0, 0, 0, 0, 0, 0], 0) && |path| == level + 1
    requires path <= [0, 0, 1, 0, 0, 0] && t in Ddr4Table(s, level, d) && t.cmd == RD && t.dist >= 1
    ensures Allows(t, d, [first], path, s.nCCDS)
  {
    OneIssue(first, d, path, t.dist);
    if level >= BANK_GROUP {
      assert path[BANK_GROUP] == 1;
      NoSiblings(s, level, d, t);
    } else {
      ShortReads(s, level, t);
      assert !Beside(first, path);
    }
  }

  lemma ReadAfterRead(table: Table, s: Speed, org: Org, first: Issue, second: Issue)
    requires IsDdr4(table, s) && IsTable(table) && s.nBL <= s.nCCDS
    requires first == Issue(RD, [0, 0, 0, 0, 0, 0], 0) && second == Issue(RD, [0, 0, 1, 0, 0, 0], s.nCCDS)
    ensures Admitted(table, org, [first], second)
  {
    forall level: nat | Reaches(org, second, level)
      ensures AllowedAt(table, [first], second.addr[..level + 1], RD, s.nCCDS)
    {
      var path: Path := second.addr[..level + 1];
      if level >= BANK_GROUP { assert path[BANK_GROUP] == 1; }
      forall d, k: nat | HasEntry(table, path, d, k) && EntryAt(table, path, d, k).cmd == RD
        ensures Allows(EntryAt(table, path, d, k), d, [first], path, s.nCCDS)
      {
        OtherGroupAllows(s, first, level, path, EntryAt(table, path, d, k), d);
      }
    }
  }

  /** The refinement is strict: reads of two bank groups, nCCDS apart. */
  lemma Ddr4AdmitsMore(table: Table, strict: Table, s: Speed, org: Org) returns (h: seq<Issue>)
    requires IsDdr4(table, s) && IsAllBank(strict, s) && IsTable(table) && IsTable(strict)
    requires s.nBL <= s.nCCDS < s.nCCDL && HasChildren(org, CHANNEL) && HasChildren(org, RANK)
    ensures Legal(table, org, h) && !Legal(strict, org, h)
  {
    var first, second := Issue(RD, [0, 0, 0, 0, 0, 0], 0), Issue(RD, [0, 0, 1, 0, 0, 0], s.nCCDS);
    h := [first, second];
    assert h[..0] == [] && h[..1] == [first];
    NothingForbids(table, org, first);
    ReadAfterRead(table, s, org, first, second);
    TooEarly(strict, s, org, first, second);
    assert !Admitted(strict, org, h[..1], h[1]);
  }

  /** A plain access and the auto-precharging one are constrained alike, at every node. */
  function Twin(cmd: Command): Command
  {
    match cmd
    case RD => RDA
    case WR => WRA
    case RDA => RD
    case WRA => WR
    case _ => cmd
  }

  lemma TwinShared(s: Speed, level: nat, d: Command, t: Entry)
    ensures t in SharedTable(s, level, d) ==> t.(cmd := Twin(t.cmd)) in SharedTable(s, level, d)
  {
  }

  lemma TwinBelow(s: Speed, level: nat, d: Command, t: Entry)
    requires level == BANK_GROUP || level == BANK
    ensures t in Ddr4Table(s, level, d) ==> t.(cmd := Twin(t.cmd)) in Ddr4Table(s, level, d)
  {
  }

  lemma TwinRank(s: Speed, d: Command, t: Entry)
    ensures t in Ddr4Table(s, RANK, d) && t !in SharedTable(s, RANK, d) ==>
              t.(cmd := Twin(t.cmd)) in Ddr4Table(s, RANK, d)
  {
  }

  lemma TwinDdr4(s: Speed, level: nat, d: Command, t: Entry)
    ensures t in Ddr4Table(s, level, d) && t !in SharedTable(s, level, d) ==>
              t.(cmd := Twin(t.cmd)) in Ddr4Table(s, level, d)
  {
    if level == RANK {
      TwinRank(s, d, t);
    } else if level == BANK_GROUP || level == BANK {
      TwinBelow(s, level, d, t);
    }
  }

  lemma TwinAllBank(s: Speed, level: nat, d: Command, t: Entry)
    ensures t in AllBankTable(s, level, d) && t !in SharedTable(s, level, d) ==>
              t.(cmd := Twin(t.cmd)) in AllBankTable(s, level, d)
  {
  }

  lemma TwinEntry(s: Speed, level: nat, d: Command, t: Entry)
    ensures t in Ddr4Table(s, level, d) ==> t.(cmd := Twin(t.cmd)) in Ddr4Table(s, level, d)
    ensures t in AllBankTable(s, level, d) ==> t.(cmd := Twin(t.cmd)) in AllBankTable(s, level, d)
  {
    TwinShared(s, level, d, t);
    TwinDdr4(s, level, d, t);
    TwinAllBank(s, level, d, t);
  }

  lemma TwinAllowed(table: Table, s: Speed, h: seq<Issue>, path: Path, cmd: Command, clk: int)
    requires (IsDdr4(table, s) || IsAllBank(table, s)) && IsTable(table) && AllowedAt(table, h, path, cmd, clk)
    ensures AllowedAt(table, h, path, Twin(cmd), clk)
  {
    forall d, k: nat | HasEntry(table, path, d, k) && EntryAt(table, path, d, k).cmd == Twin(cmd)
      ensures Allows(EntryAt(table, path, d, k), d, h, path, clk)
    {
      var t := EntryAt(table, path, d, k);
      TwinEntry(s, |path| - 1, d, t);
      var u := t.(cmd := cmd);
      assert u in table(|path| - 1, d);
      var j: nat :| j < |table(|path| - 1, d)| && table(|path| - 1, d)[j] == u;
      assert HasEntry(table, path, d, j);
      assert EntryAt(table, path, d, j) == u && t.dist == u.dist;
    }
  }

  /** In every state the incremental tables can reach, next[RD] == next[RDA] and next[WR] == next[WRA]. */
  lemma TwinNext(table: Table, s: Speed, path: Path, st: Times, h: seq<Issue>, cmd: Command)
    requires (IsDdr4(table, s) || IsAllBank(table, s)) && IsTable(table) && Tracks(table, path, st, h)
    ensures st.next[cmd] == st.next[Twin(cmd)]
  {
    var a, b := st.next[cmd], st.next[Twin(cmd)];
    NextMeaning(table, path, st, h, cmd, a);
    NextMeaning(table, path, st, h, Twin(cmd), a);
    NextMeaning(table, path, st, h, cmd, b);
    NextMeaning(table, path, st, h, Twin(cmd), b);
    TwinAllowed(table, s, h, path, cmd, a);
    TwinAllowed(table, s, h, path, Twin(cmd), b);
  }

  lemma {:induction false} ReachesAlike(org: Org, e: Issue, twin: Issue, level: nat)
    requires twin == e.(cmd := Twin(e.cmd)) && Reaches(org, twin, level)
    ensures Reaches(org, e, level)
  {
    if level > 0 { ReachesAlike(org, e, twin, level - 1); }
  }

  /** Upgrading an admitted access to its auto-precharging twin leaves it admitted (Controller.h, the assertion that
      follows cmd_issue_autoprecharge). */
  lemma TwinAdmitted(table: Table, s: Speed, org: Org, h: seq<Issue>, e: Issue)
    requires (IsDdr4(table, s) || IsAllBank(table, s)) && IsTable(table) && Admitted(table, org, h, e)
    ensures Admitted(table, org, h, e.(cmd := Twin(e.cmd)))
  {
    var twin := e.(cmd := Twin(e.cmd));
    forall level: nat | Reaches(org, twin, level)
      ensures AllowedAt(table, h, twin.addr[..level + 1], twin.cmd, twin.clk)
    {
      ReachesAlike(org, e, twin, level);
      TwinAllowed(table, s, h, e.addr[..level + 1], e.cmd, e.clk);
    }
  }

  lemma TwinsAdmitted(table: Table, s: Speed, org: Org, h: seq<Issue>, e: Issue)
    requires (IsDdr4(table, s) || IsAllBank(table, s)) && IsTable(table)
    ensures Admitted(table, org, h, e) <==> Admitted(table, org, h, e.(cmd := Twin(e.cmd)))
  {
    var twin := e.(cmd := Twin(e.cmd));
    assert twin.(cmd := Twin(twin.cmd)) == e;
    if Admitted(table, org, h, e) {
      TwinAdmitted(table, s, org, h, e);
    } else if Admitted(table, org, h, twin) {
      TwinAdmitted(table, s, org, h, twin);
    }
  }
}
