/** A whole service of a request by one channel: decode, wait until ready, update, and again (DRAM.h, Controller.h). */
module DramRun {
  import opened DramSpec
  import opened DramHistory
  import opened DramLegal
  import opened DramState
  import opened DramTrace
  import opened DramTree
  import DramWindows
  import DramSeparation

  /** The state invariants of a channel under either standard. */
  ghost predicate InOrder(d: Dram, kind: Standard)
    reads d.nodes
  {
    d.Sane() && (kind == AllBanks ==> d.Lockstep())
  }

  lemma InitiallyInOrder(d: Dram, kind: Standard)
    requires d.Tree() && d.Initial()
    ensures d.Sane() && d.Lockstep()
  {
    forall n | n in d.nodes ensures n.Content() == Cell(StartState(|n.path| - 1), map[]) {
      assert n.Shape() && n.Starts();
    }
  }

  /** The request can be decoded on this channel. */
  ghost predicate Serves(d: Dram, cmd: Command, addr: seq<int>)
  {
    && d.Tree() && d.level == CHANNEL && IsAddress(d.org, addr) && d.path == addr[..CHANNEL + 1]
    && IsAccess(cmd) && HasTarget(d.org, cmd, addr)
  }

  /** The rank and the bank that the request names. */
  lemma Located(d: Dram, cmd: Command, addr: seq<int>) returns (rank: Dram, bank: Dram)
    requires Serves(d, cmd, addr)
    ensures rank in d.nodes && rank.path == addr[..RANK + 1] && bank in d.nodes && bank.path == addr[..BANK + 1]
  {
    d.ChildTree(addr[RANK]);
    NextId(addr, CHANNEL);
    rank := d.children[addr[RANK]];
    rank.ChildTree(addr[BANK_GROUP]);
    NextId(addr, RANK);
    var group := rank.children[addr[BANK_GROUP]];
    group.ChildTree(addr[BANK]);
    NextId(addr, BANK_GROUP);
    bank := group.children[addr[BANK]];
  }

  /** From some clock on the command is ready. */
  lemma {:induction false} ReadyFrom(d: Dram, cmd: Command, addr: seq<int>) returns (from: int)
    requires d.Tree() && IsAddress(d.org, addr) && forall n :: n in d.nodes ==> cmd in n.next
    ensures forall clk :: clk >= from ==> d.Check(cmd, addr, clk)
    decreases d.nodes
  {
    from := d.next[cmd];
    var childId := addr[d.level + 1];
    if !(childId < 0 || d.level == Scope(cmd) || |d.children| == 0) {
      d.ChildTree(childId);
      var below := ReadyFrom(d.children[childId], cmd, addr);
      from := Max(from, below);
    }
  }

  /** The controller asks every cycle until check says yes. */
  method AwaitReady(d: Dram, cmd: Command, addr: seq<int>, now: int) returns (clk: int)
    requires d.Tree() && IsAddress(d.org, addr) && forall n :: n in d.nodes ==> cmd in n.next
    ensures clk >= now && d.Check(cmd, addr, clk)
    ensures forall t :: now <= t < clk ==> !d.Check(cmd, addr, t)
  {
    ghost var from := ReadyFrom(d, cmd, addr);
    clk := now;
    while !d.Check(cmd, addr, clk)
      invariant clk >= now && forall t :: now <= t < clk ==> !d.Check(cmd, addr, t)
      decreases from - clk
    {
      clk := clk + 1;
    }
  }

  /** The rank and bank of a request, as decode sees them. */
  ghost function Seen(rank: Dram, bank: Dram): View
    reads rank, bank
  {
    View(rank.state, bank.Content())
  }

  /** What decode says of a request, and that acting on it opens closed banks only. */
  lemma Prescribed(d: Dram, kind: Standard, cmd: Command, addr: seq<int>, c: Command, rank: Dram, bank: Dram)
    requires Serves(d, cmd, addr) && InOrder(d, kind) && d.Decoded(cmd, addr, c)
    requires rank in d.nodes && rank.path == addr[..RANK + 1] && bank in d.nodes && bank.path == addr[..BANK + 1]
    ensures c == Prerequisite(Seen(rank, bank), cmd, addr[ROW]) && IsView(Seen(rank, bank))
    ensures d.OpensClosed(kind, Issue(c, addr, 0)) && HasTarget(d.org, c, addr)
  {
    d.DecodedOpensClosed(kind, cmd, addr, Issue(c, addr, 0), bank, rank);
  }

  /** The same two nodes after a command that decode asks for. */
  lemma Moves(kind: Standard, e: Issue, rank: Cell, open: bool, rank': Cell, bank: Cell, shut: bool, bank': Cell)
    requires |e.addr| == LEVELS && e.cmd != PDE && Dram.Moved(kind, e, e.addr[..RANK + 1], rank, open, rank')
    requires Dram.Moved(kind, e, e.addr[..BANK + 1], bank, shut, bank')
    ensures View(rank'.state, bank') == ViewAfter(kind, e, View(rank.state, bank))
  {
  }

  /** The command names a bank or rank of this channel. */
  ghost predicate Named(d: Dram, e: Issue)
  {
    IsAddress(d.org, e.addr) && HasTarget(d.org, e.cmd, e.addr) && d.path == e.addr[..CHANNEL + 1]
  }

  /** This path is that of a bank of the channel; under AllBanks, of any in its rank. */
  ghost predicate Housed(d: Dram, kind: Standard, bank: Path)
    requires |bank| == BANK + 1
  {
    exists n :: n in d.nodes && |n.path| == BANK + 1
                && if kind == PerBank then n.path == bank else n.path[..RANK + 1] == bank[..RANK + 1]
  }

  /** Only banks of the channel are ever open. */
  lemma {:induction false} OpenIsHoused(d: Dram, kind: Standard, h: seq<Issue>, bank: Path)
    requires d.Tree() && d.level == CHANNEL && (forall i :: 0 <= i < |h| ==> Named(d, h[i])) && |bank| == BANK + 1
    requires BankOf(kind, h, bank).state != Closed
    ensures Housed(d, kind, bank)
  {
    var e, before := h[|h| - 1], h[..|h| - 1];
    if e.cmd == ACT && Struck(kind, e, bank) {
      var rank, node := Located(d, RD, e.addr);
      StruckIsNamed(kind, e, bank);
      assert e.addr[..BANK + 1][..RANK + 1] == e.addr[..RANK + 1];
    } else {
      OpenIsHoused(d, kind, before, bank);
    }
  }

  /** Every bank and every rank is in the state that the run implies. */
  ghost predicate Mirrors(d: Dram, kind: Standard, h: seq<Issue>)
    reads d.nodes
  {
    && (forall n :: n in d.nodes && |n.path| == BANK + 1 ==> n.Content() == BankOf(kind, h, n.path))
    && (forall n :: n in d.nodes && |n.path| == RANK + 1 ==> n.state == PowerOf(kind, h, n.path))
    && (forall i :: 0 <= i < |h| ==> Named(d, h[i]))
  }

  /** What the states and the commands of a run have to do with each other. */
  ghost predicate RowsKept(d: Dram, kind: Standard, h: seq<Issue>)
    reads d.nodes
  {
    Mirrors(d, kind, h) && AllSuit(kind, h)
  }

  ghost predicate Unfolded(t: bool) { t }

  /** A channel whose tables and states are those of a run that kept every timing constraint, guarded so that it is
      unfolded only where a proof asks for it. */
  ghost predicate Consistent(d: Dram, kind: Standard, h: seq<Issue>, now: int)
    requires d.Tree()
    reads d.nodes
  {
    forall t {:trigger Unfolded(t)} :: Unfolded(t) ==>
      && InOrder(d, kind) && d.Knows(h) && Legal(d.table, d.org, h) && RowsKept(d, kind, h) && now >= 0
      && forall i :: 0 <= i < |h| ==> h[i].clk <= now
  }

  lemma InitiallyMirrors(d: Dram, kind: Standard)
    requires d.Tree() && d.Initial()
    ensures RowsKept(d, kind, [])
  {
    forall n | n in d.nodes ensures n.Content() == Cell(StartState(|n.path| - 1), map[]) {
      assert n.Shape() && n.Starts();
    }
  }

  lemma InitiallyConsistent(d: Dram, kind: Standard)
    requires d.Tree() && d.Initial()
    ensures Consistent(d, kind, [], 0)
  {
    InitiallyInOrder(d, kind);
    d.InitiallyKnows();
    InitiallyMirrors(d, kind);
  }

  lemma Unfold(d: Dram, kind: Standard, h: seq<Issue>, now: int)
    requires d.Tree() && Consistent(d, kind, h, now)
    ensures InOrder(d, kind) && d.Knows(h) && Legal(d.table, d.org, h) && RowsKept(d, kind, h) && now >= 0
    ensures (forall i :: 0 <= i < |h| ==> h[i].clk <= now) && forall n, c: Command :: n in d.nodes ==> c in n.next
  {
    assert Unfolded(true);
  }

  lemma Fold(d: Dram, kind: Standard, h: seq<Issue>, e: Issue)
    requires d.Tree() && InOrder(d, kind) && d.Knows(h + [e]) && Legal(d.table, d.org, h + [e])
             && RowsKept(d, kind, h + [e])
    ensures Consistent(d, kind, h + [e], e.clk + 1)
  {
    assert (h + [e])[|h|] == e;
  }

  lemma Later(d: Dram, kind: Standard, h: seq<Issue>, now: int, later: int)
    requires d.Tree() && Consistent(d, kind, h, now) && now <= later
    ensures Consistent(d, kind, h, later)
  {
  }

  lemma LegalStep(d: Dram, h: seq<Issue>, e: Issue)
    requires d.Tree() && d.level == CHANNEL && d.Knows(h) && Legal(d.table, d.org, h) && IsAddress(d.org, e.addr)
    requires d.path == e.addr[..CHANNEL + 1] && e.clk >= 0 && (forall i :: 0 <= i < |h| ==> h[i].clk <= e.clk)
    requires d.Check(e.cmd, e.addr, e.clk)
    ensures Legal(d.table, d.org, h + [e])
  {
    d.CheckIsAdmission(h, e);
    forall i | 0 <= i < |h + [e]| ensures Admitted(d.table, d.org, (h + [e])[..i], (h + [e])[i]) {
      assert (h + [e])[..i] == h[..i];
      if i == |h| { assert h[..i] == h; }
    }
  }

  /** check, without tables and histories of single commands: whether the command is far enough from every earlier one,
      and the fifth activation of its rank from the first. */
  lemma CheckIsSeparation(d: Dram, kind: Standard, s: Speed, h: seq<Issue>, e: Issue)
    requires d.Tree() && d.level == CHANNEL && d.Knows(h) && Ordered(h) && IsAddress(d.org, e.addr)
    requires d.path == e.addr[..CHANNEL + 1] && e.clk >= 0 && DramWindows.IsStandard(kind, d.table, s)
    ensures d.Check(e.cmd, e.addr, e.clk) <==>
              DramSeparation.AllApart(kind, s, d.org, h, e) && DramSeparation.FourBack(s, d.org, h, e)
  {
    d.CheckIsAdmission(h, e);
    DramSeparation.AdmittedExactly(kind, d.table, s, d.org, h, e);
  }

  /** What a controller may want to issue in a cycle: the next command of a request, auto-precharging if its row is to
      be closed after it, or the PRE with which the row policy closes a row. */
  datatype Ask = Next(cmd: Command, addr: seq<int>, auto: bool) | Close(addr: seq<int>)

  predicate IsRequest(cmd: Command) { IsAccess(cmd) || cmd == REF || cmd == PDE || cmd == SRE }

  ghost predicate Fits(d: Dram, a: Ask)
  {
    && d.Tree() && d.level == CHANNEL && IsAddress(d.org, a.addr) && d.path == a.addr[..CHANNEL + 1]
    && (if a.Next? then IsRequest(a.cmd) && HasTarget(d.org, a.cmd, a.addr) else HasTarget(d.org, PRE, a.addr))
  }

  /** The command p that decode returns for the ask, and the one issued for it. */
  ghost predicate Wants(d: Dram, a: Ask, p: Command)
    requires |a.addr| == LEVELS
    reads d.nodes
  {
    if a.Next? then d.Decoded(a.cmd, a.addr, p) else p == PRE
  }

  function Upgrade(a: Ask, p: Command): Command { if a.Next? && a.auto then Twin(p) else p }

  lemma RankOf(d: Dram, addr: seq<int>) returns (rank: Dram)
    requires d.Tree() && d.level == CHANNEL && IsAddress(d.org, addr) && d.path == addr[..CHANNEL + 1]
    requires d.org(RANK) > 0 && addr[RANK] >= 0
    ensures rank in d.nodes && rank.path == addr[..RANK + 1]
  {
    d.ChildTree(addr[RANK]);
    NextId(addr, CHANNEL);
    rank := d.children[addr[RANK]];
  }

  /** A bank below this rank's path is one of the rank's. */
  lemma InRank(d: Dram, rank: Dram, n: Dram)
    requires d.Tree() && d.level == CHANNEL && rank in d.nodes && |rank.path| == RANK + 1 && n in d.nodes
    requires |n.path| == BANK + 1 && n.path[..RANK + 1] == rank.path
    ensures rank.IsBank(n)
  {
    assert rank != d && n != d by { assert d.Shape(); }
    assert Placed(d.path, d.children, rank) && Placed(d.path, d.children, n);
    assert n.path[RANK] == n.path[..RANK + 1][RANK] == rank.path[RANK];
    var child := d.children[rank.path[RANK]];
    d.ChildTree(rank.path[RANK]);
    assert child.Inside(rank);
  }

  lemma OpenBankFound(d: Dram, kind: Standard, h: seq<Issue>, rank: Dram) returns (bank: Path)
    requires d.Tree() && d.level == CHANNEL && InOrder(d, kind) && Mirrors(d, kind, h) && rank in d.nodes
    requires |rank.path| == RANK + 1 && rank.AnyOpen()
    ensures |bank| == BANK + 1 && bank[..RANK + 1] == rank.path && BankOf(kind, h, bank).state == Opened
  {
    assert d.Inside(rank) && rank.Shape();
    var b: Dram :| b in rank.nodes && rank.IsBank(b) && b.state != Closed;
    assert rank.Inside(b);
    bank := b.path;
    assert b.Content() == BankOf(kind, h, bank) && OneRow(b.Content());
  }

  /** A rank has an open bank exactly if the run says so. */
  lemma OpenAgrees(d: Dram, kind: Standard, h: seq<Issue>, rank: Dram)
    requires d.Tree() && d.level == CHANNEL && InOrder(d, kind) && Mirrors(d, kind, h) && rank in d.nodes
    requires |rank.path| == RANK + 1
    ensures rank.AnyOpen() <==> AnyOpenOf(kind, h, rank.path)
  {
    if rank.AnyOpen() {
      var bank := OpenBankFound(d, kind, h, rank);
      assert BankOf(kind, h, bank).state == Opened;
    }
    if AnyOpenOf(kind, h, rank.path) {
      var bank: Path :| |bank| == BANK + 1 && bank[..RANK + 1] == rank.path && BankOf(kind, h, bank).state != Closed;
      OpenIsHoused(d, kind, h, bank);
      var n :| n in d.nodes && |n.path| == BANK + 1
               && if kind == PerBank then n.path == bank else n.path[..RANK + 1] == bank[..RANK + 1];
      if kind == AllBanks { BanksAgree(h, n.path, bank); }
      InRank(d, rank, n);
      assert n.Content() == BankOf(kind, h, n.path);
    }
  }

  /** What decode says of an access suits the bank. */
  lemma PrescribedSuits(d: Dram, kind: Standard, h: seq<Issue>, a: Ask, p: Command, rank: Dram, bank: Dram, clk: int)
    requires a.Next? && Serves(d, a.cmd, a.addr) && InOrder(d, kind) && Wants(d, a, p) && Mirrors(d, kind, h)
    requires rank in d.nodes && rank.path == a.addr[..RANK + 1] && bank in d.nodes && bank.path == a.addr[..BANK + 1]
    ensures Suits(kind, h, Issue(Upgrade(a, p), a.addr, clk))
  {
    Prescribed(d, kind, a.cmd, a.addr, p, rank, bank);
    assert bank.Content() == BankOf(kind, h, bank.path);
    if p == a.cmd { HitsWhenReady(Seen(rank, bank), a.cmd, a.addr[ROW]); }
  }

  /** What decode says of a request for a whole rank, in terms of the run. */
  lemma PrescribedRank(d: Dram, kind: Standard, h: seq<Issue>, a: Ask, p: Command)
    requires Fits(d, a) && InOrder(d, kind) && Wants(d, a, p) && Mirrors(d, kind, h) && a.Next? && !IsAccess(a.cmd)
    ensures var rank: Path := a.addr[..RANK + 1];
            p == RankPrerequisite(PowerOf(kind, h, rank), AnyOpenOf(kind, h, rank), a.cmd)
  {
    var rank := RankOf(d, a.addr);
    OpenAgrees(d, kind, h, rank);
    assert p == RankPrerequisite(rank.state, rank.AnyOpen(), a.cmd);
  }

  lemma RankSuits(kind: Standard, h: seq<Issue>, cmd: Command, p: Command, e: Issue, rank: Path)
    requires |e.addr| == LEVELS && rank == e.addr[..RANK + 1] && cmd in {REF, PDE, SRE} && e.cmd == p
    requires p == RankPrerequisite(PowerOf(kind, h, rank), AnyOpenOf(kind, h, rank), cmd)
    ensures Suits(kind, h, e)
  {
    ClosedUnlessOpen(kind, h, rank);
  }

  /** Whatever is asked for suits its bank and its rank. */
  lemma WantedSuits(d: Dram, kind: Standard, h: seq<Issue>, a: Ask, p: Command, clk: int)
    requires Fits(d, a) && InOrder(d, kind) && Wants(d, a, p) && Mirrors(d, kind, h)
    ensures Suits(kind, h, Issue(Upgrade(a, p), a.addr, clk))
  {
    if a.Next? {
      if IsAccess(a.cmd) {
        var rank, bank := Located(d, a.cmd, a.addr);
        PrescribedSuits(d, kind, h, a, p, rank, bank, clk);
      } else {
        PrescribedRank(d, kind, h, a, p);
        RankSuits(kind, h, a.cmd, p, Issue(Upgrade(a, p), a.addr, clk), a.addr[..RANK + 1]);
      }
    }
  }

  /** A closing command that decode asks for is not in vain. */
  lemma WantedUseful(d: Dram, kind: Standard, h: seq<Issue>, a: Ask, p: Command, clk: int)
    requires Fits(d, a) && a.Next? && InOrder(d, kind) && Wants(d, a, p) && Mirrors(d, kind, h)
    ensures Useful(kind, h, Issue(Upgrade(a, p), a.addr, clk))
  {
    if IsAccess(a.cmd) {
      var rank, bank := Located(d, a.cmd, a.addr);
      Prescribed(d, kind, a.cmd, a.addr, p, rank, bank);
      assert bank.Content() == BankOf(kind, h, bank.path) && OneRow(bank.Content());
    } else {
      var rank := RankOf(d, a.addr);
      assert p == RankPrerequisite(rank.state, rank.AnyOpen(), a.cmd);
      if p == PREA {
        var bank := OpenBankFound(d, kind, h, rank);
        assert BankOf(kind, h, bank).state == Opened;
      }
    }
  }

  /** And it opens closed banks only. */
  lemma WantedOpensClosed(d: Dram, kind: Standard, a: Ask, p: Command)
    requires Fits(d, a) && InOrder(d, kind) && Wants(d, a, p)
    ensures HasTarget(d.org, Upgrade(a, p), a.addr) && d.OpensClosed(kind, Issue(Upgrade(a, p), a.addr, 0))
  {
    if a.Next? {
      if IsAccess(a.cmd) {
        var rank, bank := Located(d, a.cmd, a.addr);
        Prescribed(d, kind, a.cmd, a.addr, p, rank, bank);
      } else {
        var rank := RankOf(d, a.addr);
        assert p == RankPrerequisite(rank.state, rank.AnyOpen(), a.cmd);
      }
    }
  }

  /** The run after the ask. */
  ghost function Longer(h: seq<Issue>, a: Ask, p: Command, clk: int, ok: bool): seq<Issue>
  {
    if ok then h + [Issue(Upgrade(a, p), a.addr, clk)] else h
  }

  lemma BankMirrors(kind: Standard, h: seq<Issue>, e: Issue, path: Path, before: Cell, open: bool, after: Cell)
    requires |path| == BANK + 1 && |e.addr| == LEVELS && before == BankOf(kind, h, path)
    requires Dram.Moved(kind, Issue(e.cmd, e.addr, 0), path, before, open, after)
    ensures after == BankOf(kind, h + [e], path)
  {
    BankOfLonger(kind, h, e, path);
  }

  lemma RankMirrors(kind: Standard, h: seq<Issue>, e: Issue, path: Path, before: Cell, open: bool, after: Cell)
    requires |path| == RANK + 1 && |e.addr| == LEVELS && before.state == PowerOf(kind, h, path)
    requires Dram.Moved(kind, Issue(e.cmd, e.addr, 0), path, before, open, after) && open == AnyOpenOf(kind, h, path)
    ensures after.state == PowerOf(kind, h + [e], path)
  {
    PowerOfLonger(kind, h, e, path);
  }

  /** update with a command that opens closed banks only: the states stand for the longer run, too. */
  method Carry(d: Dram, kind: Standard, c: Command, addr: seq<int>, clk: int, ghost h: seq<Issue>)
    requires d.Tree() && d.level == CHANNEL && IsAddress(d.org, addr) && d.path == addr[..CHANNEL + 1]
    requires HasTarget(d.org, c, addr) && Ordered(h + [Issue(c, addr, clk)])
    requires var ready := InOrder(d, kind) && d.Knows(h) && Mirrors(d, kind, h); ready
    requires var closed := d.OpensClosed(kind, Issue(c, addr, 0)); closed
    modifies d.nodes
    ensures d.AllMoved(kind, Issue(c, addr, 0))
    ensures var done := InOrder(d, kind) && d.Knows(h + [Issue(c, addr, clk)]); done
    ensures var mirrors := Mirrors(d, kind, h + [Issue(c, addr, clk)]); mirrors
  {
    ghost var e := Issue(c, addr, clk);
    forall n | n in d.nodes && |n.path| == RANK + 1 ensures n.AnyOpen() == AnyOpenOf(kind, h, n.path) {
      OpenAgrees(d, kind, h, n);
    }
    d.Follow(kind, c, addr, clk, h);
    forall n | n in d.nodes && |n.path| == BANK + 1 ensures n.Content() == BankOf(kind, h + [e], n.path) {
      BankMirrors(kind, h, e, n.path, old(n.Content()), old(n.AnyOpen()), n.Content());
    }
    forall n | n in d.nodes && |n.path| == RANK + 1 ensures n.state == PowerOf(kind, h + [e], n.path) {
      RankMirrors(kind, h, e, n.path, old(n.Content()), old(n.AnyOpen()), n.Content());
    }
  }

  /** update with a command that check admits and that opens closed banks only. */
  method Put(d: Dram, kind: Standard, c: Command, addr: seq<int>, clk: int, ghost h: seq<Issue>)
    requires d.Tree() && d.level == CHANNEL && IsAddress(d.org, addr) && d.path == addr[..CHANNEL + 1]
             && HasTarget(d.org, c, addr)
    requires Consistent(d, kind, h, clk) && (forall n :: n in d.nodes ==> c in n.next) && d.Check(c, addr, clk)
    requires d.OpensClosed(kind, Issue(c, addr, 0)) && Suits(kind, h, Issue(c, addr, clk))
    modifies d.nodes
    ensures d.AllMoved(kind, Issue(c, addr, 0))
    ensures var consistent := Consistent(d, kind, h + [Issue(c, addr, clk)], clk + 1); consistent
  {
    Unfold(d, kind, h, clk);
    LegalStep(d, h, Issue(c, addr, clk));
    OneMoreSuits(kind, h, Issue(c, addr, clk));
    Carry(d, kind, c, addr, clk, h);
    Fold(d, kind, h, Issue(c, addr, clk));
  }

  /** What the ask wants in the current state, and that it can be put on the channel. */
  method Plan(d: Dram, kind: Standard, a: Ask, clk: int, ghost h: seq<Issue>) returns (p: Command)
    requires Fits(d, a) && Consistent(d, kind, h, clk)
    ensures Wants(d, a, p) && forall n :: n in d.nodes ==> Upgrade(a, p) in n.next
    ensures HasTarget(d.org, Upgrade(a, p), a.addr) && d.OpensClosed(kind, Issue(Upgrade(a, p), a.addr, 0))
    ensures Suits(kind, h, Issue(Upgrade(a, p), a.addr, clk))
    ensures a.Next? ==> Useful(kind, h, Issue(Upgrade(a, p), a.addr, clk))
  {
    Unfold(d, kind, h, clk);
    p := PRE;
    if a.Next? {
      p := d.Decode(a.cmd, a.addr);
      WantedUseful(d, kind, h, a, p, clk);
    }
    WantedOpensClosed(d, kind, a, p);
    WantedSuits(d, kind, h, a, p, clk);
  }

  /** One cycle: the ask is decoded, and its command issued exactly if check admits it; otherwise nothing happens. */
  method Offer(d: Dram, kind: Standard, a: Ask, clk: int, ghost h: seq<Issue>) returns (p: Command, ok: bool)
    requires Fits(d, a) && Consistent(d, kind, h, clk)
    modifies d.nodes
    ensures old(Wants(d, a, p)) && forall n :: n in d.nodes ==> Upgrade(a, p) in old(n.next)
    ensures ok == old(d.Check(Upgrade(a, p), a.addr, clk))
    ensures Suits(kind, h, Issue(Upgrade(a, p), a.addr, clk))
    ensures a.Next? ==> Useful(kind, h, Issue(Upgrade(a, p), a.addr, clk))
    ensures ok ==> d.AllMoved(kind, Issue(Upgrade(a, p), a.addr, 0))
    ensures !ok ==> unchanged(d.nodes)
    ensures var consistent := Consistent(d, kind, Longer(h, a, p, clk, ok), clk + 1); consistent
  {
    p := Plan(d, kind, a, clk, h);
    ok := d.Check(Upgrade(a, p), a.addr, clk);
    if ok {
      Put(d, kind, Upgrade(a, p), a.addr, clk, h);
    } else {
      Later(d, kind, h, clk, clk + 1);
    }
  }

  /** Every command of the run was asked for in its cycle. */
  ghost predicate InItsCycle(asks: seq<Ask>, run: seq<Issue>, now: nat)
  {
    && (forall i :: 0 <= i < |run| ==>
          && 0 <= run[i].clk < now <= |asks| && run[i].addr == asks[run[i].clk].addr
          && (asks[run[i].clk].Close? ==> run[i].cmd == PRE))
    && forall i, j :: 0 <= i < j < |run| ==> run[i].clk < run[j].clk
  }

  lemma OneAnswer(asks: seq<Ask>, run: seq<Issue>, now: nat, p: Command, ok: bool, next: nat)
    requires InItsCycle(asks, run, now) && now < |asks| && next == now + 1 && |asks[now].addr| == LEVELS
             && (asks[now].Close? ==> p == PRE)
    ensures InItsCycle(asks, Longer(run, asks[now], p, now, ok), next)
  {
    var after := Longer(run, asks[now], p, now, ok);
    forall i | 0 <= i < |after|
      ensures 0 <= after[i].clk < next && after[i].addr == asks[after[i].clk].addr
              && (asks[after[i].clk].Close? ==> after[i].cmd == PRE)
    {
      if i < |run| { assert after[i] == run[i]; }
    }
  }

  /** Whatever is asked, in whatever order, one ask in each cycle: the commands issued are a legal run, the tables stand
      for it, every bank is in the state that it implies, closed or open at one row, every access found its row open,
      and under AllBanks the banks of a rank agree. */
  method OfferAll(d: Dram, kind: Standard, asks: seq<Ask>) returns (ghost run: seq<Issue>)
    requires d.Tree() && d.Initial() && forall i :: 0 <= i < |asks| ==> Fits(d, asks[i])
    modifies d.nodes
    ensures Legal(d.table, d.org, run) && d.Knows(run) && InOrder(d, kind) && RowsKept(d, kind, run)
            && InItsCycle(asks, run, |asks|)
  {
    var now := 0;
    run := [];
    InitiallyConsistent(d, kind);
    while now < |asks|
      invariant now <= |asks| && Consistent(d, kind, run, now) && InItsCycle(asks, run, now)
    {
      var p, ok := Offer(d, kind, asks[now], now, run);
      OneAnswer(asks, run, now, p, ok, now + 1);
      run := Longer(run, asks[now], p, now, ok);
      now := now + 1;
    }
    Unfold(d, kind, run, now);
  }

  /** The command that decode asks for opens closed banks only, and leaves one prerequisite less. */
  lemma Asked(d: Dram, kind: Standard, cmd: Command, addr: seq<int>, c: Command, rank: Dram, bank: Dram)
    requires Serves(d, cmd, addr) && InOrder(d, kind) && d.Decoded(cmd, addr, c) && c != cmd
    requires rank in d.nodes && rank.path == addr[..RANK + 1] && bank in d.nodes && bank.path == addr[..BANK + 1]
    ensures d.OpensClosed(kind, Issue(c, addr, 0)) && HasTarget(d.org, c, addr) && c != PDE
    ensures Remaining(ViewAfter(kind, Issue(c, addr, 0), Seen(rank, bank)), addr[ROW]) ==
            Remaining(Seen(rank, bank), addr[ROW]) - 1
  {
    Prescribed(d, kind, cmd, addr, c, rank, bank);
    PrerequisitesRunOut(kind, Seen(rank, bank), cmd, addr, 0);
  }

  /** The wait for a prerequisite. */
  method AwaitAsked(d: Dram, kind: Standard, cmd: Command, addr: seq<int>, c: Command, now: int, ghost h: seq<Issue>,
                    ghost rank: Dram, ghost bank: Dram) returns (clk: int)
    requires Serves(d, cmd, addr) && Consistent(d, kind, h, now) && d.Decoded(cmd, addr, c) && c != cmd
    requires rank in d.nodes && rank.path == addr[..RANK + 1] && bank in d.nodes && bank.path == addr[..BANK + 1]
    ensures clk >= now && (forall n :: n in d.nodes ==> c in n.next) && d.Check(c, addr, clk) && c != PDE
    ensures var consistent := Consistent(d, kind, h, clk); consistent
    ensures Remaining(ViewAfter(kind, Issue(c, addr, 0), Seen(rank, bank)), addr[ROW]) ==
            Remaining(Seen(rank, bank), addr[ROW]) - 1
  {
    Unfold(d, kind, h, now);
    Asked(d, kind, cmd, addr, c, rank, bank);
    clk := AwaitReady(d, c, addr, now);
    Later(d, kind, h, now, clk);
  }

  /** One prerequisite: asked for until check admits it, it leaves one less. */
  method Prepare(d: Dram, kind: Standard, cmd: Command, addr: seq<int>, c: Command, now: int, ghost h: seq<Issue>,
                 ghost rank: Dram, ghost bank: Dram) returns (clk: int)
    requires Serves(d, cmd, addr) && Consistent(d, kind, h, now) && d.Decoded(cmd, addr, c) && c != cmd
    requires rank in d.nodes && rank.path == addr[..RANK + 1] && bank in d.nodes && bank.path == addr[..BANK + 1]
    modifies d.nodes
    ensures clk >= now
    ensures var consistent := Consistent(d, kind, h + [Issue(c, addr, clk)], clk + 1); consistent
    ensures Remaining(Seen(rank, bank), addr[ROW]) == old(Remaining(Seen(rank, bank), addr[ROW])) - 1
  {
    clk := AwaitAsked(d, kind, cmd, addr, c, now, h, rank, bank);
    var p, ok := Offer(d, kind, Next(cmd, addr, false), clk, h);
    assert p == c;
    Moves(kind, Issue(c, addr, 0), old(rank.Content()), old(rank.AnyOpen()), rank.Content(), old(bank.Content()),
          old(bank.AnyOpen()), bank.Content());
  }

  /** The last wait: for the request's own command. */
  method Finish(d: Dram, kind: Standard, cmd: Command, addr: seq<int>, now: int, ghost h: seq<Issue>) returns (clk: int)
    requires Serves(d, cmd, addr) && Consistent(d, kind, h, now)
    ensures clk >= now && (forall n :: n in d.nodes ==> cmd in n.next) && d.Check(cmd, addr, clk)
    ensures var consistent := Consistent(d, kind, h, clk); consistent
  {
    Unfold(d, kind, h, now);
    clk := AwaitReady(d, cmd, addr, now);
    Later(d, kind, h, now, clk);
  }

  /** The accesses in a run, in order. */
  ghost function Accesses(h: seq<Issue>): seq<(Command, seq<int>)>
  {
    if h == [] then []
    else
      var last, before := h[|h| - 1], Accesses(h[..|h| - 1]);
      if IsAccess(last.cmd) then before + [(last.cmd, last.addr)] else before
  }

  lemma AccessesGrow(h: seq<Issue>, e: Issue)
    ensures Accesses(h + [e]) == Accesses(h) + if IsAccess(e.cmd) then [(e.cmd, e.addr)] else []
  {
    assert (h + [e])[..|h|] == h;
  }

  /** How many prerequisites decode is going to ask for. */
  lemma Left(d: Dram, kind: Standard, cmd: Command, addr: seq<int>, c: Command, rank: Dram, bank: Dram)
    returns (left: nat)
    requires Serves(d, cmd, addr) && InOrder(d, kind) && d.Decoded(cmd, addr, c)
    requires rank in d.nodes && rank.path == addr[..RANK + 1] && bank in d.nodes && bank.path == addr[..BANK + 1]
    ensures left == Remaining(Seen(rank, bank), addr[ROW]) <= 3 && (c == cmd <==> left == 0)
    ensures c != cmd ==> !IsAccess(c)
  {
    Prescribed(d, kind, cmd, addr, c, rank, bank);
    PrerequisitesRunOut(kind, Seen(rank, bank), cmd, addr, 0);
    left := Remaining(Seen(rank, bank), addr[ROW]);
  }

  /** decode, wait, update, and again: after at most three prerequisites the request's own command is what decode
      returns and check admits. */
  method MakeReady(d: Dram, kind: Standard, cmd: Command, addr: seq<int>, now: int, ghost h: seq<Issue>)
    returns (n: nat, clk: int, ghost run: seq<Issue>)
    requires Serves(d, cmd, addr) && Consistent(d, kind, h, now)
    modifies d.nodes
    ensures n <= 3 && clk >= now && h <= run && |run| == |h| + n && Accesses(run) == Accesses(h)
    ensures Consistent(d, kind, run, clk) && d.Decoded(cmd, addr, cmd)
    ensures (forall n :: n in d.nodes ==> cmd in n.next) && d.Check(cmd, addr, clk)
  {
    ghost var rank, bank := Located(d, cmd, addr);
    n, clk, run := 0, now, h;
    Unfold(d, kind, run, clk);
    var c := d.Decode(cmd, addr);
    ghost var left := Left(d, kind, cmd, addr, c, rank, bank);
    while c != cmd
      invariant Consistent(d, kind, run, clk) && clk >= now && h <= run && |run| == |h| + n
                && Accesses(run) == Accesses(h)
      invariant d.Sane() && d.Decoded(cmd, addr, c) && n + left <= 3 && left == Remaining(Seen(rank, bank), addr[ROW])
      invariant (c == cmd <==> left == 0) && (c != cmd ==> !IsAccess(c))
      decreases left
    {
      var at := Prepare(d, kind, cmd, addr, c, clk, run, rank, bank);
      AccessesGrow(run, Issue(c, addr, at));
      n, clk, run := n + 1, at + 1, run + [Issue(c, addr, at)];
      Unfold(d, kind, run, clk);
      c := d.Decode(cmd, addr);
      left := Left(d, kind, cmd, addr, c, rank, bank);
    }
    clk := Finish(d, kind, cmd, addr, clk, run);
  }

  /** And then the command itself. */
  method Serve(d: Dram, kind: Standard, cmd: Command, addr: seq<int>, now: int, ghost h: seq<Issue>)
    returns (clk: int, ghost run: seq<Issue>)
    requires Serves(d, cmd, addr) && Consistent(d, kind, h, now)
    modifies d.nodes
    ensures clk >= now && h <= run && |h| < |run| <= |h| + 4 && run[|run| - 1] == Issue(cmd, addr, clk)
    ensures Accesses(run) == Accesses(h) + [(cmd, addr)]
    ensures var consistent := Consistent(d, kind, run, clk + 1); consistent
  {
    var n;
    n, clk, run := MakeReady(d, kind, cmd, addr, now, h);
    ghost var rank, bank := Located(d, cmd, addr);
    var p, ok := Offer(d, kind, Next(cmd, addr, false), clk, run);
    assert p == cmd;
    AccessesGrow(run, Issue(cmd, addr, clk));
    run := run + [Issue(cmd, addr, clk)];
  }

  /** Every list of requests is served, in order, in a run that keeps every timing constraint. */
  method ServeAll(d: Dram, kind: Standard, requests: seq<(Command, seq<int>)>) returns (ghost run: seq<Issue>)
    requires d.Tree() && d.Initial() && forall i :: 0 <= i < |requests| ==> Serves(d, requests[i].0, requests[i].1)
    modifies d.nodes
    ensures Legal(d.table, d.org, run) && Accesses(run) == requests && |run| <= 4 * |requests|
    ensures d.Knows(run) && InOrder(d, kind) && RowsKept(d, kind, run)
  {
    var i, now := 0, 0;
    run := [];
    InitiallyConsistent(d, kind);
    while i < |requests|
      invariant i <= |requests| && Accesses(run) == requests[..i] && |run| <= 4 * i && Consistent(d, kind, run, now)
    {
      now, run := Serve(d, kind, requests[i].0, requests[i].1, now, run);
      i, now := i + 1, now + 1;
    }
    Unfold(d, kind, run, now);
  }

  /** The wait for the command of a request for a whole rank. */
  method AwaitRank(d: Dram, kind: Standard, cmd: Command, addr: seq<int>, now: int, ghost h: seq<Issue>)
    returns (p: Command, clk: int)
    requires Fits(d, Next(cmd, addr, false)) && !IsAccess(cmd) && Consistent(d, kind, h, now)
    ensures clk >= now && (forall n :: n in d.nodes ==> p in n.next) && d.Check(p, addr, clk)
    ensures HasTarget(d.org, p, addr) && d.OpensClosed(kind, Issue(p, addr, 0)) && Suits(kind, h, Issue(p, addr, clk))
    ensures var rank: Path := addr[..RANK + 1]; p == if Blocked(kind, h, rank, cmd) then Opener(cmd) else cmd
    ensures var consistent := Consistent(d, kind, h, clk); consistent
  {
    Unfold(d, kind, h, now);
    p := d.Decode(cmd, addr);
    PrescribedRank(d, kind, h, Next(cmd, addr, false), p);
    clk := AwaitReady(d, p, addr, now);
    OnePrerequisite(kind, h, Issue(p, addr, clk), addr[..RANK + 1], cmd);
    Later(d, kind, h, now, clk);
    WantedOpensClosed(d, kind, Next(cmd, addr, false), p);
    WantedSuits(d, kind, h, Next(cmd, addr, false), p, clk);
  }

  /** And the command. */
  method AskRank(d: Dram, kind: Standard, cmd: Command, addr: seq<int>, now: int, ghost h: seq<Issue>)
    returns (p: Command, clk: int)
    requires Fits(d, Next(cmd, addr, false)) && !IsAccess(cmd) && Consistent(d, kind, h, now)
    modifies d.nodes
    ensures clk >= now
    ensures var rank: Path := addr[..RANK + 1]; p == if Blocked(kind, h, rank, cmd) then Opener(cmd) else cmd
    ensures var consistent := Consistent(d, kind, h + [Issue(p, addr, clk)], clk + 1); consistent
  {
    p, clk := AwaitRank(d, kind, cmd, addr, now, h);
    Put(d, kind, p, addr, clk, h);
  }

  /** A refresh, power-down or self-refresh is issued after at most one other command: PREA exactly if a bank of its
      rank is open, SRX exactly in self-refresh, PDX exactly in power-down. */
  method ServeRank(d: Dram, kind: Standard, cmd: Command, addr: seq<int>, now: int, ghost h: seq<Issue>)
    returns (p: Command, first: int, clk: int, ghost run: seq<Issue>)
    requires Fits(d, Next(cmd, addr, false)) && !IsAccess(cmd) && Consistent(d, kind, h, now)
    modifies d.nodes
    ensures now <= first <= clk
    ensures var rank: Path := addr[..RANK + 1]; p == if Blocked(kind, h, rank, cmd) then Opener(cmd) else cmd
    ensures if p == cmd then run == h + [Issue(cmd, addr, clk)]
            else run == h + [Issue(p, addr, first)] + [Issue(cmd, addr, clk)]
    ensures var consistent := Consistent(d, kind, run, clk + 1); consistent
  {
    p, first := AskRank(d, kind, cmd, addr, now, h);
    clk, run := first, h + [Issue(p, addr, first)];
    if p != cmd {
      OpenerUnblocks(kind, h, Issue(p, addr, first), addr[..RANK + 1], cmd);
      var q;
      q, clk := AskRank(d, kind, cmd, addr, first + 1, run);
      run := run + [Issue(q, addr, clk)];
    }
  }
}
