/** What the timing tables demand, in instants of the data bus and of the banks (DDR4.cpp, DDR4_AB.cpp). */
module DramWindows {
  import opened DramSpec
  import opened DramHistory
  import opened DramLegal
  import opened DramState

  predicate Reads(c: Command) { c == RD || c == RDA }

  predicate Writes(c: Command) { c == WR || c == WRA }

  predicate Alike(c: Command, d: Command) { (Reads(c) && Reads(d)) || (Writes(c) && Writes(d)) }

  /** When the data of an access are on the bus. */
  function BurstStart(s: Speed, e: Issue): int { if Reads(e.cmd) then e.clk + s.nCL else e.clk + s.nCWL }

  function BurstEnd(s: Speed, e: Issue): int { BurstStart(s, e) + s.nBL }

  /** When a command starts to close its bank: an auto-precharging read after nRTP, a write when it has recovered. */
  function PrechargeStart(s: Speed, e: Issue): int
  {
    match e.cmd
    case RDA => e.clk + s.nRTP
    case WRA => BurstEnd(s, e) + s.nWR
    case _ => e.clk
  }

  /** Two commands on a channel: bursts of one direction follow each other. */
  predicate SameChannel(s: Speed, f: Issue, e: Issue) { Alike(f.cmd, e.cmd) ==> BurstStart(s, e) >= BurstEnd(s, f) }

  /** Two accesses of different ranks: nRTRS to switch, unless both are writes. */
  predicate AcrossRanks(s: Speed, f: Issue, e: Issue)
  {
    && (Reads(f.cmd) && (Reads(e.cmd) || Writes(e.cmd)) ==>
          e.clk >= f.clk + s.nBL + s.nRTRS && BurstStart(s, e) >= BurstEnd(s, f) + s.nRTRS)
    && (Writes(f.cmd) && Reads(e.cmd) ==> BurstStart(s, e) >= BurstEnd(s, f) + s.nRTRS)
  }

  /** The distances that depend on how near two banks are: column to column, write to read, row to row. */
  predicate Spaced(s: Speed, ccd: nat, wtr: nat, rrd: nat, f: Issue, e: Issue)
  {
    && (Alike(f.cmd, e.cmd) ==> e.clk >= f.clk + ccd)
    && (Writes(f.cmd) && Reads(e.cmd) ==> e.clk >= BurstEnd(s, f) + wtr)
    && (f.cmd == ACT && e.cmd == ACT ==> e.clk >= f.clk + rrd)
  }

  /** Before a precharge a row has been open for nRAS, a read has had nRTP, a write has recovered. */
  predicate MayPrecharge(s: Speed, f: Issue, at: int)
  {
    && (f.cmd == ACT ==> at >= f.clk + s.nRAS) && (f.cmd == RD ==> at >= f.clk + s.nRTP)
    && (f.cmd == WR ==> at >= BurstEnd(s, f) + s.nWR)
  }

  /** Two commands of one bank. */
  predicate SameBank(s: Speed, f: Issue, e: Issue)
  {
    && (f.cmd == ACT && (Reads(e.cmd) || Writes(e.cmd)) ==> e.clk >= f.clk + s.nRCD)
    && (f.cmd == ACT && e.cmd == ACT ==> e.clk >= f.clk + s.nRC)
    && (e.cmd == PRE ==> MayPrecharge(s, f, e.clk))
    && (f.cmd in {PRE, RDA, WRA} && e.cmd == ACT ==> e.clk >= PrechargeStart(s, f) + s.nRP)
  }

  /** Refresh: all banks have closed and precharged before it, and nRFC goes by after it. */
  predicate AroundRefresh(s: Speed, f: Issue, e: Issue)
  {
    && (e.cmd == REF && f.cmd == ACT ==> e.clk >= f.clk + s.nRC)
    && (e.cmd == REF && f.cmd in {PRE, PREA, RDA, WRA} ==> e.clk >= PrechargeStart(s, f) + s.nRP)
    && (f.cmd == REF && e.cmd in {ACT, REF} ==> e.clk >= f.clk + s.nRFC)
  }

  /** Power-down: not before the last access is over; it lasts nPD, and nXP goes by after it. */
  predicate AroundPowerDown(s: Speed, f: Issue, e: Issue)
  {
    && (e.cmd == PDE && Reads(f.cmd) ==> e.clk >= BurstEnd(s, f) + 1)
    && (e.cmd == PDE && f.cmd == WR ==> e.clk >= BurstEnd(s, f) + s.nWR)
    && (e.cmd == PDE && f.cmd == WRA ==> e.clk >= BurstEnd(s, f) + s.nWR + 1)
    && (e.cmd == PDE && f.cmd in {ACT, REF} ==> e.clk >= f.clk + 1)
    && (f.cmd == PDE && e.cmd == PDX ==> e.clk >= f.clk + s.nPD)
    && (f.cmd == PDX && e.cmd !in {PDX, SRX} ==> e.clk >= f.clk + s.nXP)
  }

  /** Self-refresh: not before a precharge is over; it lasts nCKESR, and nXS goes by after it. */
  predicate AroundSelfRefresh(s: Speed, f: Issue, e: Issue)
  {
    && (e.cmd == SRE && f.cmd in {PRE, PREA} ==> e.clk >= f.clk + s.nRP)
    && (f.cmd == SRE && e.cmd == SRX ==> e.clk >= f.clk + s.nCKESR)
    && (f.cmd == SRX && e.cmd in {ACT, REF, PDE, SRE} ==> e.clk >= f.clk + s.nXS)
  }

  /** Two commands of one rank, in both standards. */
  predicate SharedRank(s: Speed, f: Issue, e: Issue)
  {
    && (Reads(f.cmd) && Writes(e.cmd) ==> BurstStart(s, e) >= BurstEnd(s, f) + 2)
    && (e.cmd == PREA ==> MayPrecharge(s, f, e.clk)) && (f.cmd == PREA && e.cmd == ACT ==> e.clk >= f.clk + s.nRP)
    && AroundRefresh(s, f, e) && AroundPowerDown(s, f, e) && AroundSelfRefresh(s, f, e)
  }

  /** The all-bank standard treats all banks of a rank as one. */
  predicate SameRank(kind: Standard, s: Speed, f: Issue, e: Issue)
  {
    && SharedRank(s, f, e)
    && (kind == PerBank ==> Spaced(s, s.nCCDS, s.nWTRS, s.nRRDS, f, e))
    && (kind == AllBanks ==> Spaced(s, s.nCCDL, s.nWTRL, s.nRRDL, f, e) && SameBank(s, f, e))
  }

  predicate SameGroup(s: Speed, f: Issue, e: Issue) { Spaced(s, s.nCCDL, s.nWTRL, s.nRRDL, f, e) }

  ghost predicate IsStandard(kind: Standard, table: Table, s: Speed)
  {
    if kind == PerBank then IsDdr4(table, s) else IsAllBank(table, s)
  }

  /** All that is demanded of two commands whose addresses agree down to this level. */
  predicate Together(kind: Standard, s: Speed, level: nat, f: Issue, e: Issue)
  {
    && (level == CHANNEL ==> SameChannel(s, f, e)) && (level == RANK ==> SameRank(kind, s, f, e))
    && (kind == PerBank && level == BANK_GROUP ==> SameGroup(s, f, e))
    && (kind == PerBank && level == BANK ==> SameBank(s, f, e))
  }

  /** An own entry with distance 1 asks no more of the second command. */
  ghost predicate Passes(entries: seq<Entry>, f: Issue, e: Issue, sibling: bool)
  {
    forall t :: t in entries && t.cmd == e.cmd && t.dist == 1 && t.sibling == sibling ==> f.clk + t.val <= e.clk
  }

  predicate Meets(t: Entry, f: Issue, e: Issue, sibling: bool)
  {
    t.cmd == e.cmd && t.dist == 1 && t.sibling == sibling ==> f.clk + t.val <= e.clk
  }

  lemma PassBoth(a: seq<Entry>, b: seq<Entry>, f: Issue, e: Issue, sibling: bool)
    ensures Passes(a + b, f, e, sibling) <==> Passes(a, f, e, sibling) && Passes(b, f, e, sibling)
  {
  }

  lemma PassOne(t: Entry, f: Issue, e: Issue, sibling: bool)
    ensures Passes([t], f, e, sibling) <==> Meets(t, f, e, sibling)
  {
    assert t in [t];
  }

  lemma PassTwo(t: Entry, u: Entry, f: Issue, e: Issue, sibling: bool)
    ensures Passes([t, u], f, e, sibling) <==> Meets(t, f, e, sibling) && Meets(u, f, e, sibling)
  {
    assert t in [t, u] && u in [t, u];
  }

  lemma PassThree(t: Entry, u: Entry, v: Entry, f: Issue, e: Issue, sibling: bool)
    ensures Passes([t, u, v], f, e, sibling) <==>
              Meets(t, f, e, sibling) && Meets(u, f, e, sibling) && Meets(v, f, e, sibling)
  {
    assert t in [t, u, v] && u in [t, u, v] && v in [t, u, v];
  }

  lemma PassColumns(val: int, f: Issue, e: Issue, sibling: bool)
    ensures Passes(BothReads(val), f, e, sibling) <==> (Reads(e.cmd) && !sibling ==> f.clk + val <= e.clk)
    ensures Passes(BothWrites(val), f, e, sibling) <==> (Writes(e.cmd) && !sibling ==> f.clk + val <= e.clk)
  {
    PassTwo(Own(RD, val), Own(RDA, val), f, e, sibling);
    PassTwo(Own(WR, val), Own(WRA, val), f, e, sibling);
  }

  /** The entries between ranks. */
  lemma PassBeside(s: Speed, f: Issue, e: Issue, sibling: bool)
    ensures Passes(SiblingRead(s), f, e, sibling) <==>
              (sibling && (Reads(e.cmd) || Writes(e.cmd)) ==> f.clk + s.nBL + s.nRTRS <= e.clk)
              && (sibling && Writes(e.cmd) ==> f.clk + s.nCL + s.nBL + s.nRTRS - s.nCWL <= e.clk)
    ensures Passes(SiblingWrite(s), f, e, sibling) <==>
              (sibling && Reads(e.cmd) ==> f.clk + s.nCWL + s.nBL + s.nRTRS - s.nCL <= e.clk)
  {
    var near, far, back := s.nBL + s.nRTRS, s.nCL + s.nBL + s.nRTRS - s.nCWL, s.nCWL + s.nBL + s.nRTRS - s.nCL;
    PassThree(Beyond(RD, near), Beyond(RDA, near), Beyond(WR, near), f, e, sibling);
    PassThree(Beyond(WRA, near), Beyond(WR, far), Beyond(WRA, far), f, e, sibling);
    PassBoth([Beyond(RD, near), Beyond(RDA, near), Beyond(WR, near)],
             [Beyond(WRA, near), Beyond(WR, far), Beyond(WRA, far)], f, e, sibling);
    assert SiblingRead(s) == [Beyond(RD, near), Beyond(RDA, near), Beyond(WR, near)]
                             + [Beyond(WRA, near), Beyond(WR, far), Beyond(WRA, far)];
    PassTwo(Beyond(RD, back), Beyond(RDA, back), f, e, sibling);
  }

  /** What the second of two commands on a rank, or of different ranks, has to meet. */
  predicate RankOrBeside(kind: Standard, s: Speed, f: Issue, e: Issue, sibling: bool)
  {
    if sibling then AcrossRanks(s, f, e) else SameRank(kind, s, f, e)
  }

  function RankTable(kind: Standard, s: Speed, c: Command): seq<Entry>
  {
    if kind == PerBank then Ddr4Table(s, RANK, c) else AllBankTable(s, RANK, c)
  }

  lemma PassFour(a: seq<Entry>, b: seq<Entry>, c: seq<Entry>, d: seq<Entry>, f: Issue, e: Issue, sibling: bool)
    ensures Passes(a + b + c + d, f, e, sibling) <==>
              && Passes(a, f, e, sibling) && Passes(b, f, e, sibling)
              && Passes(c, f, e, sibling) && Passes(d, f, e, sibling)
  {
    PassBoth(a + b + c, d, f, e, sibling);
    PassBoth(a + b, c, f, e, sibling);
    PassBoth(a, b, f, e, sibling);
  }

  /** What a read's entries at the rank end with, by standard and auto-precharge. */
  function ReadRest(kind: Standard, s: Speed, c: Command): seq<Entry>
  {
    var end := Own(PDE, s.nCL + s.nBL + 1);
    if c == RD then
      if kind == PerBank then [Own(PREA, s.nRTP), end] else [Own(PREA, s.nRTP), Own(PRE, s.nRTP), end]
    else
      if kind == PerBank then [end, Own(REF, s.nRTP + s.nRP)]
      else [Own(ACT, s.nRTP + s.nRP), end, Own(REF, s.nRTP + s.nRP)]
  }

  function WriteRest(kind: Standard, s: Speed, c: Command): seq<Entry>
  {
    var end := s.nCWL + s.nBL + s.nWR;
    if c == WR then
      if kind == PerBank then [Own(PREA, end), Own(PDE, end)] else [Own(PREA, end), Own(PRE, end), Own(PDE, end)]
    else
      if kind == PerBank then [Own(PDE, end + 1), Own(REF, end + s.nRP)]
      else [Own(ACT, end + s.nRP), Own(PDE, end + 1), Own(REF, end + s.nRP)]
  }

  function Ccd(kind: Standard, s: Speed): nat { if kind == PerBank then s.nCCDS else s.nCCDL }

  function Wtr(kind: Standard, s: Speed): nat { if kind == PerBank then s.nWTRS else s.nWTRL }

  lemma ReadEntriesOf(kind: Standard, s: Speed, c: Command)
    requires Reads(c)
    ensures RankTable(kind, s, c) ==
            BothReads(Ccd(kind, s)) + BothWrites(ReadToWrite(s)) + SiblingRead(s) + ReadRest(kind, s, c)
  {
  }

  lemma WriteEntriesOf(kind: Standard, s: Speed, c: Command)
    requires Writes(c)
    ensures RankTable(kind, s, c) ==
            BothWrites(Ccd(kind, s)) + BothReads(s.nCWL + s.nBL + Wtr(kind, s)) + SiblingWrite(s)
            + WriteRest(kind, s, c)
  {
  }

  lemma PassRest(rest: seq<Entry>, f: Issue, e: Issue, sibling: bool)
    requires 2 <= |rest| <= 3
    ensures Passes(rest, f, e, sibling) <==>
              && Meets(rest[0], f, e, sibling) && Meets(rest[1], f, e, sibling)
              && (|rest| == 3 ==> Meets(rest[2], f, e, sibling))
  {
    if |rest| == 2 {
      PassTwo(rest[0], rest[1], f, e, sibling);
      assert rest == [rest[0], rest[1]];
    } else {
      PassThree(rest[0], rest[1], rest[2], f, e, sibling);
      assert rest == [rest[0], rest[1], rest[2]];
    }
  }

  lemma ReadPieces(kind: Standard, s: Speed, f: Issue, e: Issue, sibling: bool)
    requires Reads(f.cmd)
    ensures Passes(RankTable(kind, s, f.cmd), f, e, sibling) <==>
              && (Reads(e.cmd) && !sibling ==> f.clk + Ccd(kind, s) <= e.clk)
              && (Writes(e.cmd) && !sibling ==> f.clk + ReadToWrite(s) <= e.clk)
              && Passes(SiblingRead(s), f, e, sibling) && Passes(ReadRest(kind, s, f.cmd), f, e, sibling)
  {
    ReadEntriesOf(kind, s, f.cmd);
    PassFour(BothReads(Ccd(kind, s)), BothWrites(ReadToWrite(s)), SiblingRead(s), ReadRest(kind, s, f.cmd), f, e,
             sibling);
    PassColumns(Ccd(kind, s), f, e, sibling);
    PassColumns(ReadToWrite(s), f, e, sibling);
  }

  lemma WritePieces(kind: Standard, s: Speed, f: Issue, e: Issue, sibling: bool)
    requires Writes(f.cmd)
    ensures Passes(RankTable(kind, s, f.cmd), f, e, sibling) <==>
              && (Writes(e.cmd) && !sibling ==> f.clk + Ccd(kind, s) <= e.clk)
              && (Reads(e.cmd) && !sibling ==> f.clk + s.nCWL + s.nBL + Wtr(kind, s) <= e.clk)
              && Passes(SiblingWrite(s), f, e, sibling) && Passes(WriteRest(kind, s, f.cmd), f, e, sibling)
  {
    WriteEntriesOf(kind, s, f.cmd);
    PassFour(BothWrites(Ccd(kind, s)), BothReads(s.nCWL + s.nBL + Wtr(kind, s)), SiblingWrite(s),
             WriteRest(kind, s, f.cmd), f, e, sibling);
    PassColumns(Ccd(kind, s), f, e, sibling);
    PassColumns(s.nCWL + s.nBL + Wtr(kind, s), f, e, sibling);
  }

  /** What a read demands of the next command on its rank. */
  lemma AfterRead(kind: Standard, s: Speed, f: Issue, e: Issue)
    requires Reads(f.cmd)
    ensures SameRank(kind, s, f, e) <==>
              && (Reads(e.cmd) ==> f.clk + Ccd(kind, s) <= e.clk)
              && (Writes(e.cmd) ==> f.clk + s.nCL + s.nBL + 2 - s.nCWL <= e.clk)
              && (f.cmd == RD && (e.cmd == PREA || (kind == AllBanks && e.cmd == PRE)) ==> f.clk + s.nRTP <= e.clk)
              && (e.cmd == PDE ==> f.clk + s.nCL + s.nBL + 1 <= e.clk)
              && (f.cmd == RDA && (e.cmd == REF || (kind == AllBanks && e.cmd == ACT)) ==>
                    f.clk + s.nRTP + s.nRP <= e.clk)
  {
  }

  lemma ReadOnRank(s: Speed, f: Issue, e: Issue)
    requires Reads(f.cmd)
    ensures Passes(RankTable(PerBank, s, f.cmd), f, e, false) <==> SameRank(PerBank, s, f, e)
  {
    ReadPieces(PerBank, s, f, e, false);
    PassBeside(s, f, e, false);
    PassRest(ReadRest(PerBank, s, f.cmd), f, e, false);
    AfterRead(PerBank, s, f, e);
  }

  lemma ReadOnAllBanks(s: Speed, f: Issue, e: Issue)
    requires Reads(f.cmd)
    ensures Passes(RankTable(AllBanks, s, f.cmd), f, e, false) <==> SameRank(AllBanks, s, f, e)
  {
    ReadPieces(AllBanks, s, f, e, false);
    PassBeside(s, f, e, false);
    PassRest(ReadRest(AllBanks, s, f.cmd), f, e, false);
    AfterRead(AllBanks, s, f, e);
  }

  /** What a write demands of the next command on its rank. */
  lemma AfterWrite(kind: Standard, s: Speed, f: Issue, e: Issue)
    requires Writes(f.cmd)
    ensures SameRank(kind, s, f, e) <==>
              && (Writes(e.cmd) ==> f.clk + Ccd(kind, s) <= e.clk)
              && (Reads(e.cmd) ==> f.clk + s.nCWL + s.nBL + Wtr(kind, s) <= e.clk)
              && (f.cmd == WR && (e.cmd in {PREA, PDE} || (kind == AllBanks && e.cmd == PRE)) ==>
                    f.clk + s.nCWL + s.nBL + s.nWR <= e.clk)
              && (f.cmd == WRA && e.cmd == PDE ==> f.clk + s.nCWL + s.nBL + s.nWR + 1 <= e.clk)
              && (f.cmd == WRA && (e.cmd == REF || (kind == AllBanks && e.cmd == ACT)) ==>
                    f.clk + s.nCWL + s.nBL + s.nWR + s.nRP <= e.clk)
  {
  }

  lemma WriteOnRank(s: Speed, f: Issue, e: Issue)
    requires Writes(f.cmd)
    ensures Passes(RankTable(PerBank, s, f.cmd), f, e, false) <==> SameRank(PerBank, s, f, e)
  {
    WritePieces(PerBank, s, f, e, false);
    PassBeside(s, f, e, false);
    PassRest(WriteRest(PerBank, s, f.cmd), f, e, false);
    AfterWrite(PerBank, s, f, e);
  }

  lemma WriteOnAllBanks(s: Speed, f: Issue, e: Issue)
    requires Writes(f.cmd)
    ensures Passes(RankTable(AllBanks, s, f.cmd), f, e, false) <==> SameRank(AllBanks, s, f, e)
  {
    WritePieces(AllBanks, s, f, e, false);
    PassBeside(s, f, e, false);
    PassRest(WriteRest(AllBanks, s, f.cmd), f, e, false);
    AfterWrite(AllBanks, s, f, e);
  }

  lemma AcrossFromRead(kind: Standard, s: Speed, f: Issue, e: Issue)
    requires Reads(f.cmd)
    ensures Passes(RankTable(kind, s, f.cmd), f, e, true) <==> AcrossRanks(s, f, e)
  {
    ReadPieces(kind, s, f, e, true);
    PassBeside(s, f, e, true);
    PassRest(ReadRest(kind, s, f.cmd), f, e, true);
  }

  lemma AcrossFromWrite(kind: Standard, s: Speed, f: Issue, e: Issue)
    requires Writes(f.cmd)
    ensures Passes(RankTable(kind, s, f.cmd), f, e, true) <==> AcrossRanks(s, f, e)
  {
    WritePieces(kind, s, f, e, true);
    PassBeside(s, f, e, true);
    PassRest(WriteRest(kind, s, f.cmd), f, e, true);
  }

  /** The entries of an activation. */
  lemma ActivationOnRank(s: Speed, f: Issue, e: Issue)
    requires f.cmd == ACT
    ensures Passes(RankTable(PerBank, s, ACT), f, e, false) <==> SameRank(PerBank, s, f, e)
  {
    var one := [Own(ACT, s.nRRDS), Entry(ACT, 4, s.nFAW, false)];
    var two := [Own(PREA, s.nRAS), Own(REF, s.nRC), Own(PDE, 1)];
    PassRest(one, f, e, false);
    PassRest(two, f, e, false);
    PassBoth(one, two, f, e, false);
    assert RankTable(PerBank, s, ACT) == one + two;
  }

  lemma AfterActivation(s: Speed, f: Issue, e: Issue)
    requires f.cmd == ACT
    ensures SameRank(AllBanks, s, f, e) <==>
              && (Reads(e.cmd) || Writes(e.cmd) ==> f.clk + s.nRCD <= e.clk)
              && (e.cmd == ACT ==> f.clk + s.nRRDL <= e.clk && f.clk + s.nRC <= e.clk)
              && (e.cmd in {PRE, PREA} ==> f.clk + s.nRAS <= e.clk)
              && (e.cmd == REF ==> f.clk + s.nRC <= e.clk) && (e.cmd == PDE ==> f.clk + 1 <= e.clk)
  {
  }

  lemma ActivationPieces(s: Speed, f: Issue, e: Issue)
    requires f.cmd == ACT
    ensures Passes(RankTable(AllBanks, s, ACT), f, e, false) <==>
              && (Reads(e.cmd) || Writes(e.cmd) ==> f.clk + s.nRCD <= e.clk)
              && Passes([Own(ACT, s.nRRDL), Entry(ACT, 4, s.nFAW, false), Own(ACT, s.nRC)], f, e, false)
              && Passes([Own(PREA, s.nRAS), Own(PRE, s.nRAS)], f, e, false)
              && Passes([Own(REF, s.nRC), Own(PDE, 1)], f, e, false)
  {
    var one := [Own(ACT, s.nRRDL), Entry(ACT, 4, s.nFAW, false), Own(ACT, s.nRC)];
    var two, three := [Own(PREA, s.nRAS), Own(PRE, s.nRAS)], [Own(REF, s.nRC), Own(PDE, 1)];
    PassColumns(s.nRCD, f, e, false);
    PassBoth(BothReads(s.nRCD), BothWrites(s.nRCD), f, e, false);
    PassFour(BothReads(s.nRCD) + BothWrites(s.nRCD), one, two, three, f, e, false);
    assert RankTable(AllBanks, s, ACT) == BothReads(s.nRCD) + BothWrites(s.nRCD) + one + two + three;
  }

  lemma ActivationOnAllBanks(s: Speed, f: Issue, e: Issue)
    requires f.cmd == ACT
    ensures Passes(RankTable(AllBanks, s, ACT), f, e, false) <==> SameRank(AllBanks, s, f, e)
  {
    ActivationPieces(s, f, e);
    PassRest([Own(ACT, s.nRRDL), Entry(ACT, 4, s.nFAW, false), Own(ACT, s.nRC)], f, e, false);
    PassRest([Own(PREA, s.nRAS), Own(PRE, s.nRAS)], f, e, false);
    PassRest([Own(REF, s.nRC), Own(PDE, 1)], f, e, false);
    AfterActivation(s, f, e);
  }

  /** The entries of the commands that close banks, refresh, and change the power state. */
  lemma PrechargeOnRank(kind: Standard, s: Speed, f: Issue, e: Issue)
    requires f.cmd == PRE || f.cmd == PREA
    ensures Passes(RankTable(kind, s, f.cmd), f, e, false) <==> SameRank(kind, s, f, e)
  {
    PassRest(RankTable(kind, s, f.cmd), f, e, false);
  }

  lemma RefreshOnRank(kind: Standard, s: Speed, f: Issue, e: Issue)
    requires f.cmd == REF
    ensures Passes(RankTable(kind, s, REF), f, e, false) <==> SameRank(kind, s, f, e)
  {
    PassRest(RankTable(kind, s, REF), f, e, false);
  }

  lemma EntryOnRank(kind: Standard, s: Speed, f: Issue, e: Issue)
    requires f.cmd == PDE || f.cmd == SRE
    ensures Passes(RankTable(kind, s, f.cmd), f, e, false) <==> SameRank(kind, s, f, e)
  {
    PassOne(RankTable(kind, s, f.cmd)[0], f, e, false);
    assert RankTable(kind, s, f.cmd) == [RankTable(kind, s, f.cmd)[0]];
  }

  lemma AfterPowerUp(kind: Standard, s: Speed, f: Issue, e: Issue)
    requires f.cmd == PDX
    ensures SameRank(kind, s, f, e) <==> (e.cmd !in {PDX, SRX} ==> f.clk + s.nXP <= e.clk)
  {
  }

  lemma PowerUpOnRank(kind: Standard, s: Speed, f: Issue, e: Issue)
    requires f.cmd == PDX
    ensures Passes(RankTable(kind, s, PDX), f, e, false) <==> SameRank(kind, s, f, e)
  {
    var one := [Own(ACT, s.nXP), Own(PRE, s.nXP), Own(PREA, s.nXP)];
    var two := [Own(REF, s.nXP), Own(PDE, s.nXP), Own(SRE, s.nXP)];
    PassRest(one, f, e, false);
    PassRest(two, f, e, false);
    PassColumns(s.nXP, f, e, false);
    PassFour(BothReads(s.nXP), BothWrites(s.nXP), one, two, f, e, false);
    AfterPowerUp(kind, s, f, e);
    assert RankTable(kind, s, PDX) == BothReads(s.nXP) + BothWrites(s.nXP) + one + two;
  }

  lemma WakeOnRank(kind: Standard, s: Speed, f: Issue, e: Issue)
    requires f.cmd == SRX
    ensures Passes(RankTable(kind, s, SRX), f, e, false) <==> SameRank(kind, s, f, e)
  {
    var one, two := [Own(ACT, s.nXS), Own(REF, s.nXS)], [Own(PDE, s.nXS), Own(SRE, s.nXS)];
    PassRest(one, f, e, false);
    PassRest(two, f, e, false);
    PassBoth(one, two, f, e, false);
    assert RankTable(kind, s, SRX) == one + two;
  }

  lemma SharedNotAcross(s: Speed, c: Command, t: Entry)
    requires t in SharedTable(s, RANK, c)
    ensures !t.sibling
  {
  }

  /** Only accesses have entries between ranks. */
  lemma NothingAcross(kind: Standard, s: Speed, f: Issue, e: Issue)
    requires !Reads(f.cmd) && !Writes(f.cmd)
    ensures Passes(RankTable(kind, s, f.cmd), f, e, true)
  {
    forall t | t in RankTable(kind, s, f.cmd) ensures !t.sibling {
      if t in SharedTable(s, RANK, f.cmd) { SharedNotAcross(s, f.cmd, t); }
    }
  }

  lemma RankPasses(kind: Standard, s: Speed, f: Issue, e: Issue)
    ensures Passes(RankTable(kind, s, f.cmd), f, e, false) <==> SameRank(kind, s, f, e)
  {
    match f.cmd {
      case RD | RDA => if kind == PerBank { ReadOnRank(s, f, e); } else { ReadOnAllBanks(s, f, e); }
      case WR | WRA => if kind == PerBank { WriteOnRank(s, f, e); } else { WriteOnAllBanks(s, f, e); }
      case ACT => if kind == PerBank { ActivationOnRank(s, f, e); } else { ActivationOnAllBanks(s, f, e); }
      case PRE | PREA => PrechargeOnRank(kind, s, f, e);
      case REF => RefreshOnRank(kind, s, f, e);
      case PDE | SRE => EntryOnRank(kind, s, f, e);
      case PDX => PowerUpOnRank(kind, s, f, e);
      case SRX => WakeOnRank(kind, s, f, e);
    }
  }

  lemma AcrossPasses(kind: Standard, s: Speed, f: Issue, e: Issue)
    ensures Passes(RankTable(kind, s, f.cmd), f, e, true) <==> AcrossRanks(s, f, e)
  {
    if Reads(f.cmd) {
      AcrossFromRead(kind, s, f, e);
    } else if Writes(f.cmd) {
      AcrossFromWrite(kind, s, f, e);
    } else {
      NothingAcross(kind, s, f, e);
    }
  }

  lemma GroupPasses(s: Speed, f: Issue, e: Issue)
    ensures Passes(Ddr4Table(s, BANK_GROUP, f.cmd), f, e, false) <==> SameGroup(s, f, e)
  {
    if Reads(f.cmd) {
      PassColumns(s.nCCDL, f, e, false);
    } else if Writes(f.cmd) {
      PassColumns(s.nCCDL, f, e, false);
      PassColumns(s.nCWL + s.nBL + s.nWTRL, f, e, false);
      PassBoth(BothWrites(s.nCCDL), BothReads(s.nCWL + s.nBL + s.nWTRL), f, e, false);
    } else if f.cmd == ACT {
      PassOne(Own(ACT, s.nRRDL), f, e, false);
    }
  }

  lemma BankPasses(s: Speed, f: Issue, e: Issue)
    ensures Passes(Ddr4Table(s, BANK, f.cmd), f, e, false) <==> SameBank(s, f, e)
  {
    if f.cmd == ACT {
      PassColumns(s.nRCD, f, e, false);
      PassRest([Own(ACT, s.nRC), Own(PRE, s.nRAS)], f, e, false);
      PassBoth(BothReads(s.nRCD), BothWrites(s.nRCD), f, e, false);
      PassBoth(BothReads(s.nRCD) + BothWrites(s.nRCD), [Own(ACT, s.nRC), Own(PRE, s.nRAS)], f, e, false);
    } else if Ddr4Table(s, BANK, f.cmd) != [] {
      PassOne(Ddr4Table(s, BANK, f.cmd)[0], f, e, false);
      assert Ddr4Table(s, BANK, f.cmd) == [Ddr4Table(s, BANK, f.cmd)[0]];
    }
  }
}
