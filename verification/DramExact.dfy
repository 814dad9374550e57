/** When DDR4_AB refines DDR4 on the runs that decode produces (DDR4.cpp, DDR4_AB.cpp, DRAM.h). */
module DramExact {
  import opened DramSpec
  import opened DramHistory
  import opened DramLegal
  import opened DramState
  import opened DramTrace
  import opened DramRun

  // In such a run a closing command lies between two activations of a rank, so they are further apart than the entries
  // from ACT to ACT demand.

  function Min(a: nat, b: nat): nat { if a < b then a else b }

  /** The least time from an activation to a closing command and its precharge: PRE or PREA, RDA, or WRA. */
  function CloseTime(s: Speed): nat
  {
    Min(s.nRAS + s.nRP, Min(s.nRCD + s.nRTP + s.nRP, s.nRCD + s.nCWL + s.nBL + s.nWR + s.nRP))
  }

  /** What the all-bank tables assume of a speed grade, as far as decoded runs can tell. */
  predicate DecodedDelaysDominate(s: Speed)
  {
    && s.nWTRS <= s.nWTRL
    && (s.nCCDS <= s.nCCDL || s.nCCDS <= s.nBL)
    && (s.nRRDS <= s.nRRDL || s.nRRDS <= s.nRC || s.nRRDS <= CloseTime(s))
  }

  lemma {:induction false} CountFirst(w: seq<Issue>, d: Command, path: Path)
    requires w != [] && w[0].cmd == d && Targets(w[0], path)
    ensures Count(w, d, path) >= 1
  {
    if |w| > 1 { CountFirst(w[..|w| - 1], d, path); }
  }

  /** Where DDR4_AB has an entry from d to c at the rank, c comes val cycles after d. */
  lemma RankWindow(table: Table, s: Speed, org: Org, h: seq<Issue>, i: nat, m: nat, d: Command, c: Command, val: int)
    requires IsTable(table) && Legal(table, org, h) && i < m < |h| && IsAllBank(table, s)
    requires |h[m].addr| == LEVELS && Reaches(org, h[m], RANK) && h[i].cmd == d && h[m].cmd == c
             && Targets(h[i], h[m].addr[..RANK + 1])
    requires Own(c, val) in AllBankTable(s, RANK, d)
    ensures h[m].clk >= h[i].clk + val
  {
    var rank: Path := h[m].addr[..RANK + 1];
    var k: nat :| k < |AllBankTable(s, RANK, d)| && AllBankTable(s, RANK, d)[k] == Own(c, val);
    assert HasEntry(table, rank, d, k) && EntryAt(table, rank, d, k) == Own(c, val);
    CountFirst(h[i..m], d, rank);
    EntryWindow(table, org, h, i, m, RANK, d, k);
  }

  /** A command that closes this bank under DDR4_AB. */
  predicate ClosesBank(e: Issue, bank: Path)
    requires |bank| == BANK + 1
  {
    (Closes(e.cmd) || e.cmd == PREA) && Targets(e, bank[..RANK + 1])
  }

  /** A bank that was open and is closed has been closed in between. */
  lemma {:induction false} ClosedBetween(h: seq<Issue>, i: nat, m: nat, bank: Path) returns (k: nat)
    requires i <= m <= |h| && |bank| == BANK + 1 && BankOf(AllBanks, h[..i], bank).state == Opened
             && BankOf(AllBanks, h[..m], bank) == CLOSED
    ensures i <= k < m && ClosesBank(h[k], bank)
    decreases m - i
  {
    k := m - 1;
    assert h[..m][..k] == h[..k];
    if !ClosesBank(h[k], bank) { k := ClosedBetween(h, i, k, bank); }
  }

  lemma ReachesRank(org: Org, e: Issue, f: Issue)
    requires |e.addr| == LEVELS && Reaches(org, e, RANK) && |f.addr| == LEVELS
             && f.addr[..RANK + 1] == e.addr[..RANK + 1]
    ensures Reaches(org, f, RANK)
  {
    assert f.addr[RANK] == f.addr[..RANK + 1][RANK] == e.addr[RANK];
    assert Reaches(org, e, CHANNEL) && Reaches(org, f, CHANNEL);
  }

  lemma TwoWindows(table: Table, s: Speed, org: Org, h: seq<Issue>, i: nat, k: nat, m: nat, a: int, b: int)
    requires IsTable(table) && Legal(table, org, h) && i < k < m < |h| && IsAllBank(table, s)
    requires |h[m].addr| == |h[k].addr| == LEVELS && Reaches(org, h[m], RANK) && Reaches(org, h[k], RANK)
    requires Targets(h[i], h[m].addr[..RANK + 1]) && h[k].addr[..RANK + 1] == h[m].addr[..RANK + 1]
    requires Own(h[k].cmd, a) in AllBankTable(s, RANK, h[i].cmd) && Own(h[m].cmd, b) in AllBankTable(s, RANK, h[k].cmd)
    ensures h[m].clk >= h[i].clk + a + b
  {
    RankWindow(table, s, org, h, i, k, h[i].cmd, h[k].cmd, a);
    RankWindow(table, s, org, h, k, m, h[k].cmd, h[m].cmd, b);
  }

  /** The entries of DDR4_AB from an activation to a closing command, and on to the next activation. */
  lemma CloseEntries(s: Speed, c: Command) returns (a: nat, b: nat)
    requires Closes(c) || c == PREA
    ensures Own(c, a) in AllBankTable(s, RANK, ACT) && Own(ACT, b) in AllBankTable(s, RANK, c) && a + b >= CloseTime(s)
  {
    match c {
      case PRE | PREA => a, b := s.nRAS, s.nRP;
      case RDA => a, b := s.nRCD, s.nRTP + s.nRP;
      case WRA => a, b := s.nRCD, s.nCWL + s.nBL + s.nWR + s.nRP;
    }
  }

  /** Closing a rank and activating it again takes CloseTime. */
  lemma ClosingTakes(table: Table, s: Speed, org: Org, h: seq<Issue>, i: nat, k: nat, m: nat)
    requires IsTable(table) && Legal(table, org, h) && i < k < m < |h| && IsAllBank(table, s)
    requires |h[m].addr| == |h[k].addr| == LEVELS && Reaches(org, h[m], RANK) && h[i].cmd == ACT && h[m].cmd == ACT
    requires Targets(h[i], h[m].addr[..RANK + 1]) && ClosesBank(h[k], h[m].addr[..BANK + 1])
    ensures h[m].clk >= h[i].clk + CloseTime(s)
  {
    var rank: Path := h[m].addr[..RANK + 1];
    assert h[m].addr[..BANK + 1][..RANK + 1] == rank == h[k].addr[..RANK + 1];
    ReachesRank(org, h[m], h[k]);
    var a, b := CloseEntries(s, h[k].cmd);
    TwoWindows(table, s, org, h, i, k, m, a, b);
  }

  /** How far apart two activations of a rank are in a decoded run. */
  lemma ActivationsApart(table: Table, s: Speed, org: Org, h: seq<Issue>, i: nat, m: nat)
    requires IsTable(table) && Legal(table, org, h) && AllSuit(AllBanks, h) && i < m < |h| && IsAllBank(table, s)
    requires |h[m].addr| == LEVELS && Reaches(org, h[m], RANK) && h[i].cmd == ACT && h[m].cmd == ACT
             && Targets(h[i], h[m].addr[..RANK + 1])
    ensures h[m].clk >= h[i].clk + s.nRRDL && h[m].clk >= h[i].clk + s.nRC && h[m].clk >= h[i].clk + CloseTime(s)
  {
    var bank: Path := h[m].addr[..BANK + 1];
    assert bank[..RANK + 1] == h[m].addr[..RANK + 1];
    assert h[..i + 1][..i] == h[..i] && h[..i + 1][i] == h[i];
    assert Suits(AllBanks, h[..i], h[i]) && Suits(AllBanks, h[..m], h[m]);
    var k := ClosedBetween(h, i + 1, m, bank);
    assert Suits(AllBanks, h[..k], h[k]);
    ClosingTakes(table, s, org, h, i, k, m);
    RankWindow(table, s, org, h, i, m, ACT, ACT, s.nRRDL);
    RankWindow(table, s, org, h, i, m, ACT, ACT, s.nRC);
  }

  /** The speed grade without the delay between activations of different bank groups. */
  function Relaxed(s: Speed): Speed { s.(nRRDS := 0) }

  /** All other delays of DDR4 are those of the relaxed grade. */
  lemma OnlyActivationDiffers(s: Speed, level: nat, d: Command, t: Entry)
    requires t in Ddr4Table(s, level, d)
    ensures t in Ddr4Table(Relaxed(s), level, d) || (level == RANK && d == ACT && t == Own(ACT, s.nRRDS))
  {
  }

  lemma StrictAlike(s: Speed, level: nat, d: Command)
    ensures AllBankTable(Relaxed(s), level, d) == AllBankTable(s, level, d)
  {
  }

  /** Admission by the relaxed tables, and the one delay that they leave out. */
  lemma AdmittedBeyond(table: Table, relaxed: Table, s: Speed, org: Org, h: seq<Issue>, e: Issue)
    requires IsDdr4(table, s) && IsDdr4(relaxed, Relaxed(s)) && IsTable(table) && IsTable(relaxed)
             && Admitted(relaxed, org, h, e)
    requires |e.addr| == LEVELS && (e.cmd == ACT && Reaches(org, e, RANK)
                                    && Recent(h, ACT, e.addr[..RANK + 1], 1) >= 0 ==>
                                      Recent(h, ACT, e.addr[..RANK + 1], 1) + s.nRRDS <= e.clk)
    ensures Admitted(table, org, h, e)
  {
    forall level: nat | Reaches(org, e, level) ensures AllowedAt(table, h, e.addr[..level + 1], e.cmd, e.clk) {
      var path: Path := e.addr[..level + 1];
      forall d, k: nat | HasEntry(table, path, d, k) && EntryAt(table, path, d, k).cmd == e.cmd
        ensures Allows(EntryAt(table, path, d, k), d, h, path, e.clk)
      {
        var t := EntryAt(table, path, d, k);
        OnlyActivationDiffers(s, level, d, t);
        if t in Ddr4Table(Relaxed(s), level, d) {
          var j: nat :| j < |relaxed(level, d)| && relaxed(level, d)[j] == t;
          assert AllowedAt(relaxed, h, path, e.cmd, e.clk);
          assert HasEntry(relaxed, path, d, j) && EntryAt(relaxed, path, d, j) == t;
        }
      }
    }
  }

  lemma DecodedAdmitted(table: Table, strict: Table, s: Speed, org: Org, h: seq<Issue>, m: nat)
    requires IsDdr4(table, s) && IsAllBank(strict, s) && IsTable(table) && IsTable(strict) && DecodedDelaysDominate(s)
    requires Legal(strict, org, h) && AllSuit(AllBanks, h) && m < |h|
    ensures Admitted(table, org, h[..m], h[m])
  {
    var relaxed: Table := (level: nat, d: Command) => Ddr4Table(Relaxed(s), level, d);
    WellFormed(relaxed, Relaxed(s));
    forall level: nat, d ensures strict(level, d) == AllBankTable(Relaxed(s), level, d) { StrictAlike(s, level, d); }
    OrderedPrefix(h, m);
    AdmittedRefines(relaxed, strict, Relaxed(s), org, h[..m], h[m]);
    assert Suits(AllBanks, h[..m], h[m]);
    var rank: Path := h[m].addr[..RANK + 1];
    if h[m].cmd == ACT && Reaches(org, h[m], RANK) && Recent(h[..m], ACT, rank, 1) >= 0 {
      var i := NewestIssue(h[..m], ACT, rank);
      ActivationsApart(strict, s, org, h, i, m);
    }
    AdmittedBeyond(table, relaxed, s, org, h[..m], h[m]);
  }

  /** An activation and two more commands for one address. */
  function Triple(second: Command, at: int, third: Command, clk: int): seq<Issue>
  {
    [Issue(ACT, [0, 0, 0, 0, 0, 0], 0), Issue(second, [0, 0, 0, 0, 0, 0], at), Issue(third, [0, 0, 0, 0, 0, 0], clk)]
  }

  /** An access to the activated row and a read of it, or a closing command and a new activation. */
  predicate Follows(second: Command, third: Command)
  {
    (IsAccess(second) && third == RD) || (Closes(second) && third == ACT)
  }

  lemma OpenedThenFollowed(e: Issue, f: Issue, bank: Path)
    requires e == Issue(ACT, [0, 0, 0, 0, 0, 0], e.clk) && f == Issue(f.cmd, [0, 0, 0, 0, 0, 0], f.clk)
             && bank == [0, 0, 0, 0]
    ensures BankOf(AllBanks, [e], bank) == Cell(Opened, map[0 := Opened])
    ensures Closes(f.cmd) ==> BankOf(AllBanks, [e, f], bank) == CLOSED
    ensures IsAccess(f.cmd) ==> BankOf(AllBanks, [e, f], bank) == BankOf(AllBanks, [e], bank)
  {
    assert bank[..RANK + 1] <= e.addr;
    assert [] + [e] == [e] && [e] + [f] == [e, f];
    BankOfLonger(AllBanks, [], e, bank);
    BankOfLonger(AllBanks, [e], f, bank);
  }

  lemma TripleSuits(second: Command, at: int, third: Command, clk: int)
    requires Follows(second, third)
    ensures AllSuit(AllBanks, Triple(second, at, third, clk))
  {
    var h := Triple(second, at, third, clk);
    var e, f, g := h[0], h[1], h[2];
    assert e.addr[..BANK + 1] == [0, 0, 0, 0];
    OpenedThenFollowed(e, f, [0, 0, 0, 0]);
    OneMoreSuits(AllBanks, [], e);
    OneMoreSuits(AllBanks, [e], f);
    OneMoreSuits(AllBanks, [e, f], g);
    assert [] + [e] == [e] && [e] + [f] == [e, f] && [e, f] + [g] == h;
  }

  lemma TwoIssues(e: Issue, f: Issue, d: Command, path: Path, k: nat)
    requires k >= 1 && e.cmd != f.cmd && e.addr == f.addr
    ensures Recent([e, f], d, path, k) ==
            if k > 1 || !Targets(e, path) then -1 else if f.cmd == d then f.clk else if e.cmd == d then e.clk else -1
  {
    assert [e, f][..1] == [e];
    OneIssue(e, d, path, k);
    if f.cmd == d && k > 1 { OneIssue(e, d, path, k - 1); }
  }

  lemma SecondAdmitted(strict: Table, s: Speed, org: Org, e: Issue, f: Issue)
    requires IsAllBank(strict, s) && IsTable(strict) && e.addr == f.addr && FarEnough(s, e.cmd, f.cmd, f.clk - e.clk)
    ensures Admitted(strict, org, [e], f)
  {
    forall level: nat | Reaches(org, f, level) ensures AllowedAt(strict, [e], f.addr[..level + 1], f.cmd, f.clk) {
      var path: Path := f.addr[..level + 1];
      forall b, k: nat | HasEntry(strict, path, b, k) && EntryAt(strict, path, b, k).cmd == f.cmd
        ensures Allows(EntryAt(strict, path, b, k), b, [e], path, f.clk)
      {
        var t := EntryAt(strict, path, b, k);
        OneIssue(e, b, path, t.dist);
        assert t in AllBankTable(s, level, b) && !Beside(e, path);
      }
    }
  }

  lemma ThirdAdmitted(strict: Table, s: Speed, org: Org, e: Issue, f: Issue, g: Issue)
    requires IsAllBank(strict, s) && IsTable(strict) && e.addr == f.addr == g.addr && e.cmd != f.cmd
    requires FarEnough(s, e.cmd, g.cmd, g.clk - e.clk) && FarEnough(s, f.cmd, g.cmd, g.clk - f.clk)
    ensures Admitted(strict, org, [e, f], g)
  {
    forall level: nat | Reaches(org, g, level) ensures AllowedAt(strict, [e, f], g.addr[..level + 1], g.cmd, g.clk) {
      var path: Path := g.addr[..level + 1];
      forall b, k: nat | HasEntry(strict, path, b, k) && EntryAt(strict, path, b, k).cmd == g.cmd
        ensures Allows(EntryAt(strict, path, b, k), b, [e, f], path, g.clk)
      {
        var t := EntryAt(strict, path, b, k);
        TwoIssues(e, f, b, path, t.dist);
        assert t in AllBankTable(s, level, b) && !Beside(e, path) && !Beside(f, path);
      }
    }
  }

  lemma TripleLegal(strict: Table, s: Speed, org: Org, second: Command, at: nat, third: Command, clk: nat)
    requires IsAllBank(strict, s) && IsTable(strict) && second != ACT && at <= clk
    requires FarEnough(s, ACT, second, at) && FarEnough(s, ACT, third, clk) && FarEnough(s, second, third, clk - at)
    ensures Legal(strict, org, Triple(second, at, third, clk))
  {
    var h := Triple(second, at, third, clk);
    assert h[..0] == [] && h[..1] == [h[0]] && h[..2] == [h[0], h[1]];
    NothingForbids(strict, org, h[0]);
    SecondAdmitted(strict, s, org, h[0], h[1]);
    ThirdAdmitted(strict, s, org, h[0], h[1], h[2]);
  }

  /** DDR4 refuses the third command, because of entry k of command d at the rank. */
  lemma TripleRefused(table: Table, s: Speed, org: Org, second: Command, at: nat, third: Command, clk: nat, d: Command,
                      val: int)
    requires IsDdr4(table, s) && IsTable(table) && HasChildren(org, CHANNEL) && second != ACT
             && (d == ACT || d == second)
    requires Own(third, val) in Ddr4Table(s, RANK, d) && clk < val + (if d == ACT then 0 else at)
             && Scope(third) >= RANK
    ensures !Legal(table, org, Triple(second, at, third, clk))
  {
    var h := Triple(second, at, third, clk);
    var rank: Path := [0, 0];
    var k: nat :| k < |Ddr4Table(s, RANK, d)| && Ddr4Table(s, RANK, d)[k] == Own(third, val);
    assert h[..2] == [h[0], h[1]] && h[2].addr[..RANK + 1] == rank && table(RANK, d) == Ddr4Table(s, RANK, d);
    assert HasEntry(table, rank, d, k) && EntryAt(table, rank, d, k) == Own(third, val);
    TwoIssues(h[0], h[1], d, rank, 1);
    assert Targets(h[0], rank);
    assert !AllowedAt(table, h[..2], rank, third, clk);
    assert Reaches(org, h[2], CHANNEL) && Reaches(org, h[2], RANK);
    assert !Admitted(table, org, h[..2], h[2]);
  }

  /** What DDR4_AB asks between two of these commands. */
  lemma AfterActivation(s: Speed, c: Command, val: nat)
    requires match c case RD | WR | RDA | WRA => val >= s.nRCD case PRE => val >= s.nRAS
                     case ACT => val >= s.nRRDL && val >= s.nRC case _ => false
    ensures FarEnough(s, ACT, c, val)
  {
  }

  lemma AfterClosing(s: Speed, c: Command, val: nat)
    requires match c case PRE => val >= s.nRP case RDA => val >= s.nRTP + s.nRP
                     case WRA => val >= s.nCWL + s.nBL + s.nWR + s.nRP case _ => false
    ensures FarEnough(s, c, ACT, val)
  {
  }

  /** The fastest way to close a row. */
  function FastestClose(s: Speed): (Command, nat, nat)
  {
    if CloseTime(s) == s.nRAS + s.nRP then (PRE, s.nRAS, s.nRP)
    else if CloseTime(s) == s.nRCD + s.nRTP + s.nRP then (RDA, s.nRCD, s.nRTP + s.nRP)
    else (WRA, s.nRCD, s.nCWL + s.nBL + s.nWR + s.nRP)
  }

  /** Where the condition fails, an activation and two commands that decode asks for suffice. */
  lemma TripleTellsApart(table: Table, strict: Table, s: Speed, org: Org) returns (h: seq<Issue>)
    requires IsDdr4(table, s) && IsAllBank(strict, s) && IsTable(table) && IsTable(strict)
    requires !DecodedDelaysDominate(s) && HasChildren(org, CHANNEL)
    ensures Legal(strict, org, h) && AllSuit(AllBanks, h) && !Legal(table, org, h)
  {
    var second, third, d := RD, RD, RD;
    var at, clk, val := s.nRCD, s.nRCD + (if s.nCCDL < s.nBL then s.nBL else s.nCCDL), s.nCCDS;
    if s.nWTRS > s.nWTRL {
      second, d, clk, val := WR, WR, s.nRCD + s.nCWL + s.nBL + s.nWTRL, s.nCWL + s.nBL + s.nWTRS;
      ReadFromWrite(s);
    } else if s.nRRDS > s.nRRDL && s.nRRDS > s.nRC && s.nRRDS > CloseTime(s) {
      var close := FastestClose(s);
      second, third, d, at, val := close.0, ACT, ACT, close.1, s.nRRDS;
      clk := if s.nRRDL < s.nRC then s.nRC else s.nRRDL;
      clk := if clk < CloseTime(s) then CloseTime(s) else clk;
      AfterClosing(s, second, clk - at);
    } else {
      ReadFromRead(s, clk - at);
    }
    AfterActivation(s, second, at);
    AfterActivation(s, third, clk);
    TripleLegal(strict, s, org, second, at, third, clk);
    TripleSuits(second, at, third, clk);
    TripleRefused(table, s, org, second, at, third, clk, d, val);
    h := Triple(second, at, third, clk);
  }

  /** On decoded runs the condition is exact. */
  lemma RefinesDecodedExactly(table: Table, strict: Table, s: Speed, org: Org)
    requires IsDdr4(table, s) && IsAllBank(strict, s) && IsTable(table) && IsTable(strict) && HasChildren(org, CHANNEL)
    ensures DecodedDelaysDominate(s) <==>
              forall h :: Legal(strict, org, h) && AllSuit(AllBanks, h) ==> Legal(table, org, h)
  {
    if DecodedDelaysDominate(s) {
      forall h | Legal(strict, org, h) && AllSuit(AllBanks, h) ensures Legal(table, org, h) {
        forall m | 0 <= m < |h|
          ensures Admitted(table, org, h[..m], h[m])
        {
          DecodedAdmitted(table, strict, s, org, h, m);
        }
      }
    } else {
      var h := TripleTellsApart(table, strict, s, org);
    }
  }
}
