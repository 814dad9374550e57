/** The tree of DRAM nodes, with its timing tables and states (DRAM.h: the constructor, decode, check, update). */
module DramTree {
  import opened DramSpec
  import opened DramHistory
  import opened DramLegal
  import opened DramState

  const COMMANDS: set<Command> := {ACT, PRE, PREA, RD, WR, RDA, WRA, REF, PDE, PDX, SRE, SRX}

  lemma EveryCommand()
    ensures forall c: Command :: c in COMMANDS
  {
    forall c: Command ensures c in COMMANDS {
      match c {
        case ACT => case PRE => case PREA => case RD => case WR => case RDA => case WRA =>
        case REF => case PDE => case PDX => case SRE => case SRX =>
      }
    }
  }

  /** The constructor's initial next and prev. */
  function NoFuture(): (next: map<Command, int>)
    ensures forall c: Command :: c in next && next[c] == -1
  {
    EveryCommand();
    map c | c in COMMANDS :: -1
  }

  function NoHistory(table: Table, level: nat): (prev: map<Command, seq<int>>)
    ensures forall c: Command :: c in prev && |prev[c]| == Depth(table(level, c)) && forall i: nat :: i < |prev[c]| ==>
              prev[c][i] == -1
  {
    EveryCommand();
    map c | c in COMMANDS :: seq(Depth(table(level, c)), _ => -1)
  }

  function StartState(level: nat): State
  {
    if level == RANK then PowerUp else if level == BANK then Closed else Undefined
  }

  lemma NextId(addr: seq<int>, level: nat)
    requires level + 1 < |addr|
    ensures addr[..level + 2] == addr[..level + 1] + [addr[level + 1]]
  {
  }

  /** A node lies below the child its path names. */
  ghost predicate Placed(above: Path, children: seq<Dram>, n: Dram)
  {
    |n.path| > |above| && 0 <= n.path[|above|] < |children| && n in children[n.path[|above|]].nodes
  }

  /** The children of one node, and all nodes below. */
  ghost predicate Siblings(table: Table, org: Org, above: Path, children: seq<Dram>, below: set<Dram>)
  {
    && (forall i :: 0 <= i < |children| ==>
          && children[i].nodes <= below && children[i] in children[i].nodes && children[i].path == above + [i]
          && children[i].table == table && children[i].org == org)
    && (forall i, j :: 0 <= i < j < |children| ==> children[i].nodes !! children[j].nodes)
    && forall n {:trigger Placed(above, children, n)} :: n in below ==> Placed(above, children, n)
  }

  /** The tree has all levels down to banks, and the address names a node down to the command's scope. */
  predicate HasTarget(org: Org, cmd: Command, addr: seq<int>)
    requires |addr| == LEVELS
  {
    org(RANK) > 0 && org(BANK_GROUP) > 0 && org(BANK) > 0
    && addr[RANK] >= 0 && (Scope(cmd) >= BANK ==> addr[BANK_GROUP] >= 0 && addr[BANK] >= 0)
  }

  /** The ids of an address are within the organization. */
  predicate IsAddress(org: Org, addr: seq<int>)
  {
    |addr| == LEVELS && forall l: nat :: l < ROW && org(l) > 0 ==> addr[l] < org(l)
  }

  /** A command under one of the standards. */
  datatype Step = Step(kind: Standard, e: Issue)

  class Dram {
    const table: Table
    const org: Org
    const level: nat
    const id: nat
    const children: seq<Dram>
    var next: map<Command, int>
    var prev: map<Command, seq<int>>
    var state: State
    var rows: map<int, State>
    ghost const path: Path
    ghost const nodes: set<Dram>

    ghost predicate Inside(n: Dram)
    {
      n.nodes <= nodes && path <= n.path && n.table == table && (n != this ==> |n.path| > |path|)
    }

    /** One node and its children: positions are ids, subtrees are disjoint, paths extend this path. */
    ghost predicate Shape()
    {
      && level <= BANK && |path| == level + 1 && path[level] == id && this in nodes && IsTable(table)
      && |children| == (if HasChildren(org, level) then org(level + 1) else 0)
      && Siblings(table, org, path, children, nodes - {this})
      && forall n {:trigger Inside(n)} :: n in nodes ==> Inside(n)
    }

    ghost predicate Tree()
    {
      Shape() && forall n {:trigger n.Shape()} :: n in nodes ==> n.Shape()
    }

    ghost function Timing(): Times
      reads this
    {
      Times(next, prev)
    }

    ghost function Content(): Cell
      reads this
    {
      Cell(state, rows)
    }

    /** Every node of the tree stores exactly what the history of issued commands implies. */
    ghost predicate Knows(h: seq<Issue>)
      requires Tree()
      reads nodes
    {
      forall n :: n in nodes ==> Tracks(table, n.path, n.Timing(), h)
    }

    ghost predicate Starts()
      reads this
    {
      && IsTimes(table, |path| - 1, Timing()) && Content() == Cell(StartState(level), map[])
      && forall c :: next[c] == -1 && forall i: nat :: i < |prev[c]| ==> prev[c][i] == -1
    }

    /** As built: no history, ranks powered up, banks closed. */
    ghost predicate Initial()
      reads nodes
    {
      forall n :: n in nodes ==> n.Starts()
    }

    lemma InitiallyKnows()
      requires Tree() && Initial()
      ensures Knows([])
    {
      forall n | n in nodes ensures Tracks(table, n.path, n.Timing(), []) {
        assert Inside(n);
        InitialTracks(table, n.path, n.Timing());
      }
    }

    constructor (table: Table, org: Org, level: nat, id: nat, ghost above: seq<int>)
      requires IsTable(table) && level <= BANK && |above| == level
      ensures Tree() && fresh(nodes) && path == above + [id] && Initial() && Knows([])
      ensures this.table == table && this.org == org && this.level == level
      decreases BANK - level, 1
    {
      this.table, this.org, this.level, this.id := table, org, level, id;
      this.path := above + [id];
      next, prev := NoFuture(), NoHistory(table, level);
      state, rows := StartState(level), map[];
      var built, below := Children(table, org, level, above + [id]);
      children, nodes := built, {this} + below;
      new;
      assert fresh(nodes);
      Assembled(below);
    }

    lemma Assembled(below: set<Dram>)
      requires level <= BANK && |path| == level + 1 && path[level] == id && IsTable(table)
      requires |children| == (if HasChildren(org, level) then org(level + 1) else 0)
      requires nodes == {this} + below && this !in below && Siblings(table, org, path, children, below)
      requires forall i {:trigger children[i].Tree()} {:trigger children[i].Initial()} :: 0 <= i < |children| ==>
                 children[i].Tree() && children[i].Initial()
      requires Starts()
      ensures Tree() && Initial() && Knows([])
    {
      assert nodes - {this} == below;
      forall n | n in below ensures n.Shape() && Inside(n) && n.Starts() {
        assert Placed(path, children, n);
        var child := children[n.path[|path|]];
        assert child.Tree() && n in child.nodes && child.nodes <= below;
        assert n.Shape() && child.Inside(n);
      }
      InitiallyKnows();
    }

    static lemma OneMore(table: Table, org: Org, above: Path, built: seq<Dram>, below: set<Dram>, child: Dram)
      requires IsTable(table) && Siblings(table, org, above, built, below) && child.Tree() && child.nodes !! below
      requires child.path == above + [|built|] && child.table == table && child.org == org
      ensures Siblings(table, org, above, built + [child], below + child.nodes)
    {
      var more := built + [child];
      forall n | n in below + child.nodes ensures Placed(above, more, n) {
        if n in child.nodes {
          assert child.Inside(n);
          assert more[|built|] == child;
        } else {
          assert Placed(above, built, n);
          assert more[n.path[|above|]] == built[n.path[|above|]];
        }
      }
    }

    /** The constructor's loop. */
    static method Children(table: Table, org: Org, level: nat, ghost above: Path)
      returns (built: seq<Dram>, ghost below: set<Dram>)
      requires IsTable(table) && level <= BANK && |above| == level + 1
      ensures Siblings(table, org, above, built, below) && fresh(below)
      ensures |built| == if HasChildren(org, level) then org(level + 1) else 0
      ensures forall i {:trigger built[i].Tree()} {:trigger built[i].Initial()} :: 0 <= i < |built| ==>
                built[i].Tree() && built[i].Initial()
      decreases BANK - level, 0
    {
      built, below := [], {};
      if HasChildren(org, level) {
        while |built| < org(level + 1)
          invariant |built| <= org(level + 1) && fresh(below) && Siblings(table, org, above, built, below)
          invariant forall i {:trigger built[i].Tree()} {:trigger built[i].Initial()} :: 0 <= i < |built| ==>
                      built[i].Tree() && built[i].Initial()
        {
          var child := new Dram(table, org, level + 1, |built|, above);
          OneMore(table, org, above, built, below, child);
          built, below := built + [child], below + child.nodes;
        }
      }
    }

    lemma ChildTree(i: nat)
      requires Tree() && i < |children|
      ensures children[i].Tree() && children[i].nodes <= nodes - {this} && children[i].path == path + [i]
    {
      var child := children[i];
      assert child.Shape() && Inside(child);
      forall n | n in child.nodes ensures n.Shape() {
        assert n in nodes;
      }
    }

    /** Whether a command is ready: one path down the tree is looked at. */
    function Check(cmd: Command, addr: seq<int>, clk: int): bool
      requires Tree() && IsAddress(org, addr)
      requires forall n :: n in nodes ==> cmd in n.next
      reads nodes
      decreases nodes
    {
      assert Shape();
      if next[cmd] != -1 && clk < next[cmd] then false
      else
        var childId := addr[level + 1];
        if childId < 0 || level == Scope(cmd) || |children| == 0 then true
        else
          ChildTree(childId);
          children[childId].Check(cmd, addr, clk)
    }

    lemma Consulted(h: seq<Issue>, cmd: Command, clk: int)
      requires Tree() && Knows(h) && clk >= 0
      ensures cmd in next && (next[cmd] == -1 || clk >= next[cmd] <==> AllowedAt(table, h, path, cmd, clk))
    {
      NextMeaning(table, path, Timing(), h, cmd, clk);
    }

    /** check reads one path of incremental tables, and so decides admission by the full history. */
    lemma {:induction false} CheckDecides(h: seq<Issue>, e: Issue)
      requires Tree() && Knows(h) && IsAddress(org, e.addr) && Reaches(org, e, level) && path == e.addr[..level + 1]
               && e.clk >= 0
      ensures Check(e.cmd, e.addr, e.clk) <==> AdmittedFrom(table, org, h, e, level)
      decreases nodes
    {
      Consulted(h, e.cmd, e.clk);
      assert Reaches(org, e, level + 1) <==> !(e.addr[level + 1] < 0 || level == Scope(e.cmd) || |children| == 0);
      if Reaches(org, e, level + 1) {
        ChildTree(e.addr[level + 1]);
        NextId(e.addr, level);
        children[e.addr[level + 1]].CheckDecides(h, e);
      }
    }

    /** The loop for a sibling of the target. */
    method RaiseBeside(cmd: Command, clk: int)
      requires IsTable(table) && forall c: Command :: c in next
      modifies this`next
      ensures next == RaisedBeside(table(level, cmd), old(next), clk)
    {
      var entries := table(level, cmd);
      var k := 0;
      while k < |entries|
        invariant k <= |entries| && (forall c: Command :: c in next)
                  && next == RaisedBeside(entries[..k], old(next), clk)
      {
        var t := entries[k];
        assert entries[..k + 1][..k] == entries[..k];
        if t.sibling {
          assert t.dist == 1;
          next := next[t.cmd := Max(next[t.cmd], clk + t.val)];
        }
        k := k + 1;
      }
      assert entries[..k] == entries;
    }

    /** The target's own loop. */
    method RaiseOwn(cmd: Command)
      requires IsTable(table) && (forall c: Command :: c in next && c in prev)
               && |prev[cmd]| == Depth(table(level, cmd))
      modifies this`next
      ensures (forall k: nat :: k < |table(level, cmd)| ==> table(level, cmd)[k].dist <= |prev[cmd]|)
              && next == RaisedOwn(table(level, cmd), old(next), prev[cmd])
    {
      var entries := table(level, cmd);
      DepthCovers(entries);
      var k := 0;
      while k < |entries|
        invariant k <= |entries| && (forall c: Command :: c in next)
                  && next == RaisedOwn(entries[..k], old(next), prev[cmd])
      {
        var t := entries[k];
        assert entries[..k + 1][..k] == entries[..k];
        if !t.sibling {
          var past := prev[cmd][t.dist - 1];
          if past >= 0 {
            next := next[t.cmd := Max(next[t.cmd], past + t.val)];
          }
        }
        k := k + 1;
      }
      assert entries[..k] == entries;
    }

    /** The command misses every node below one that it does not target. */
    lemma Untouched(e: Issue, n: Dram)
      requires Tree() && n in nodes && n != this && |e.addr| == LEVELS && !Targets(e, path)
      ensures !Targets(e, n.path) && !Beside(e, n.path)
    {
      assert Inside(n);
      assert path <= n.path[..|n.path| - 1];
    }

    method UpdateBeside(cmd: Command, addr: seq<int>, clk: int)
      requires Shape() && IsTimes(table, level, Timing()) && |addr| == LEVELS && path[..level] == addr[..level]
               && id != addr[level]
      modifies this`next
      ensures Timing() == Stepped(table, path, old(Timing()), Issue(cmd, addr, clk))
    {
      assert Beside(Issue(cmd, addr, clk), path) && !Targets(Issue(cmd, addr, clk), path);
      RaiseBeside(cmd, clk);
    }

    method Push(cmd: Command, clk: int)
      requires cmd in prev
      modifies this`prev
      ensures prev == old(prev)[cmd := Shifted(old(prev)[cmd], clk)]
    {
      if |prev[cmd]| > 0 {
        prev := prev[cmd := [clk] + prev[cmd][..|prev[cmd]| - 1]];
      }
    }

    method UpdateOwn(cmd: Command, addr: seq<int>, clk: int)
      requires Shape() && IsTimes(table, level, Timing()) && |addr| == LEVELS && path == addr[..level + 1]
      modifies this`next, this`prev
      ensures Timing() == Stepped(table, path, old(Timing()), Issue(cmd, addr, clk))
    {
      ghost var e := Issue(cmd, addr, clk);
      assert Targets(e, path);
      SteppedOwn(table, path, Timing(), e, level);
      Push(cmd, clk);
      RaiseOwn(cmd);
    }

    method UpdateChild(i: nat, cmd: Command, addr: seq<int>, clk: int)
      requires Tree() && |addr| == LEVELS && path == addr[..level + 1] && i < |children|
      requires forall n :: n in children[i].nodes ==> IsTimes(table, |n.path| - 1, n.Timing())
      modifies children[i].nodes`next, children[i].nodes`prev
      ensures forall n :: n in children[i].nodes ==>
                n.Timing() == Stepped(table, n.path, old(n.Timing()), Issue(cmd, addr, clk))
      decreases nodes, 0
    {
      ChildTree(i);
      children[i].UpdateTiming(cmd, addr, clk);
    }

    /** A node below one of the first i children. */
    ghost predicate Before(n: Dram, i: nat) { |n.path| > level + 1 && n.path[level + 1] < i }

    lemma ChildNodes(i: nat)
      requires Tree() && i < |children|
      ensures forall n :: n in children[i].nodes ==> n in nodes && n != this && Before(n, i + 1) && !Before(n, i)
      ensures forall n :: n in nodes && n != this && n !in children[i].nodes ==> Before(n, i + 1) == Before(n, i)
    {
      ChildTree(i);
      forall n | n in children[i].nodes ensures Before(n, i + 1) && !Before(n, i) {
        assert children[i].Inside(n);
      }
      forall n | n in nodes && n != this && n !in children[i].nodes ensures Before(n, i + 1) == Before(n, i) {
        assert Placed(path, children, n);
      }
    }

    /** All children are updated, not only the targeted one. */
    method UpdateChildren(cmd: Command, addr: seq<int>, clk: int)
      requires Tree() && |addr| == LEVELS && path == addr[..level + 1]
      requires forall n :: n in nodes && n != this ==> IsTimes(table, |n.path| - 1, n.Timing())
      modifies (nodes - {this})`next, (nodes - {this})`prev
      ensures forall n :: n in nodes && n != this ==>
                n.Timing() == Stepped(table, n.path, old(n.Timing()), Issue(cmd, addr, clk))
      decreases nodes, 1
    {
      ghost var e := Issue(cmd, addr, clk);
      forall n | n in nodes && n != this ensures !Before(n, 0) { assert Placed(path, children, n); }
      var i := 0;
      while i < |children|
        invariant i <= |children|
        invariant forall n :: n in nodes && n != this ==>
                    n.Timing() == if Before(n, i) then Stepped(table, n.path, old(n.Timing()), e) else old(n.Timing())
      {
        ChildNodes(i);
        UpdateChild(i, cmd, addr, clk);
        i := i + 1;
      }
      forall n | n in nodes && n != this ensures Before(n, i) { assert Placed(path, children, n); }
    }

    method UpdateTiming(cmd: Command, addr: seq<int>, clk: int)
      requires Tree() && |addr| == LEVELS && path[..level] == addr[..level]
      requires forall n :: n in nodes ==> IsTimes(table, |n.path| - 1, n.Timing())
      modifies nodes`next, nodes`prev
      ensures forall n :: n in nodes ==> n.Timing() == Stepped(table, n.path, old(n.Timing()), Issue(cmd, addr, clk))
      decreases nodes, 2
    {
      ghost var e := Issue(cmd, addr, clk);
      if id != addr[level] {
        UpdateBeside(cmd, addr, clk);
        forall n | n in nodes && n != this ensures n.Timing() == Stepped(table, n.path, old(n.Timing()), e) {
          Untouched(e, n);
        }
        return;
      }
      UpdateOwn(cmd, addr, clk);
      UpdateChildren(cmd, addr, clk);
    }

    ghost predicate IsBank(b: Dram) { b in nodes && |b.path| == BANK + 1 }

    /** A bank below this rank is where its path says. */
    lemma BankAt(b: Dram)
      requires Tree() && level == RANK && IsBank(b)
      ensures 0 <= b.path[BANK_GROUP] < |children| && 0 <= b.path[BANK] < |children[b.path[BANK_GROUP]].children|
      ensures b == children[b.path[BANK_GROUP]].children[b.path[BANK]]
    {
      assert Placed(path, children, b);
      var g := b.path[BANK_GROUP];
      ChildTree(g);
      var group := children[g];
      assert Placed(group.path, group.children, b);
      group.ChildTree(b.path[BANK]);
      var c := group.children[b.path[BANK]];
      if b != c { assert c.Inside(b); }
    }

    /** And every grandchild of a rank is a bank. */
    lemma BankIs(g: nat, k: nat)
      requires Tree() && level == RANK && g < |children| && k < |children[g].children|
      ensures var b := children[g].children[k]; IsBank(b) && b.level == BANK && b.path == path + [g] + [k] && b.Shape()
    {
      ChildTree(g);
      children[g].ChildTree(k);
    }

    lemma BankPositions()
      requires Tree() && level == RANK
      ensures forall b :: IsBank(b) ==>
                && 0 <= b.path[BANK_GROUP] < |children| && 0 <= b.path[BANK] < |children[b.path[BANK_GROUP]].children|
                && b == children[b.path[BANK_GROUP]].children[b.path[BANK]]
    {
      forall b | IsBank(b)
        ensures 0 <= b.path[BANK_GROUP] < |children| && 0 <= b.path[BANK] < |children[b.path[BANK_GROUP]].children|
        ensures b == children[b.path[BANK_GROUP]].children[b.path[BANK]]
      {
        BankAt(b);
      }
    }

    ghost predicate AnyOpen()
      reads nodes
    {
      exists b :: b in nodes && IsBank(b) && b.state != Closed
    }

    /** The loops of the REF prerequisite and of the PDE transition. */
    method HasOpenBank() returns (open: bool)
      requires Tree() && level == RANK
      ensures open == AnyOpen()
    {
      BankPositions();
      var g := 0;
      while g < |children|
        invariant g <= |children|
        invariant forall b :: IsBank(b) && b.path[BANK_GROUP] < g ==> b.state == Closed
      {
        var k := 0;
        while k < |children[g].children|
          invariant k <= |children[g].children|
          invariant forall b :: IsBank(b) && b.path[BANK_GROUP] < g ==> b.state == Closed
          invariant forall b :: IsBank(b) && b.path[BANK_GROUP] == g && b.path[BANK] < k ==> b.state == Closed
        {
          BankIs(g, k);
          if children[g].children[k].state != Closed {
            return true;
          }
          k := k + 1;
        }
        g := g + 1;
      }
      open := false;
    }

    /** What opening row, or closing, does to one bank. */
    static function Overwritten(open: bool, row: int, c: Cell): Cell
    {
      if open then Cell(Opened, c.rows[row := Opened]) else CLOSED
    }

    method SetBank(open: bool, row: int)
      modifies this`state, this`rows
      ensures Content() == Overwritten(open, row, old(Content()))
    {
      if open {
        state, rows := Opened, rows[row := Opened];
      } else {
        state, rows := Closed, map[];
      }
    }

    /** The loop over the banks of one group. */
    method SetGroup(g: nat, open: bool, row: int)
      requires Tree() && level == RANK && g < |children|
      modifies nodes`state, nodes`rows
      ensures forall b :: IsBank(b) && b.path[BANK_GROUP] == g ==>
                b.Content() == Overwritten(open, row, old(b.Content()))
      ensures forall n :: n in nodes && !(IsBank(n) && n.path[BANK_GROUP] == g) ==> n.Content() == old(n.Content())
    {
      ghost var done: set<Dram> := {};
      BankPositions();
      var k := 0;
      while k < |children[g].children|
        invariant k <= |children[g].children|
        invariant forall b :: IsBank(b) && b.path[BANK_GROUP] == g ==> (b in done <==> b.path[BANK] < k)
        invariant forall b :: b in done ==> IsBank(b) && b.path[BANK_GROUP] == g
        invariant forall b :: b in done ==> b.Content() == Overwritten(open, row, old(b.Content()))
        invariant forall n :: n in nodes && n !in done ==> n.Content() == old(n.Content())
      {
        var bank := children[g].children[k];
        BankIs(g, k);
        bank.SetBank(open, row);
        done := done + {bank};
        k := k + 1;
      }
    }

    /** The loops over all bank groups and banks of a rank. */
    method SetBanks(open: bool, row: int)
      requires Tree() && level == RANK
      modifies nodes`state, nodes`rows
      ensures forall b :: IsBank(b) ==> b.Content() == Overwritten(open, row, old(b.Content()))
      ensures forall n :: n in nodes && !IsBank(n) ==> n.Content() == old(n.Content())
    {
      BankPositions();
      var g := 0;
      while g < |children|
        invariant g <= |children|
        invariant forall b :: IsBank(b) ==>
                    b.Content() == if b.path[BANK_GROUP] < g then Overwritten(open, row, old(b.Content()))
                                   else old(b.Content())
        invariant forall n :: n in nodes && !IsBank(n) ==> n.Content() == old(n.Content())
      {
        SetGroup(g, open, row);
        g := g + 1;
      }
    }

    /** The state of a node after e, in terms of the states before it. */
    static ghost predicate Moved(kind: Standard, e: Issue, path: Path, before: Cell, anyOpen: bool, after: Cell)
      requires |e.addr| == LEVELS
    {
      if |path| == BANK + 1 then after == BankAfter(kind, e, path, before)
      else if |path| == RANK + 1 then after == Cell(RankAfter(e, path, before.state, anyOpen), before.rows)
      else after == before
    }

    /** The transition of a rank. */
    method RankTransition(kind: Standard, cmd: Command, addr: seq<int>)
      requires Tree() && level == RANK && |addr| == LEVELS && path == addr[..RANK + 1]
      modifies nodes`state, nodes`rows
      ensures Scope(cmd) == RANK ==> forall n :: n in nodes ==>
                Moved(kind, Issue(cmd, addr, 0), n.path, old(n.Content()), old(AnyOpen()), n.Content())
      ensures Scope(cmd) != RANK ==> forall n :: n in nodes ==> n.Content() == old(n.Content())
    {
      forall n | n in nodes
        ensures |n.path| >= RANK + 1 && path == n.path[..RANK + 1] && (|n.path| == RANK + 1 ==> n == this)
      {
        assert Inside(n);
      }
      match cmd
      case PREA =>
        SetBanks(false, 0);
      case PDE =>
        var open := HasOpenBank();
        state := if open then ActPowerDown else PrePowerDown;
      case PDX | SRX =>
        state := PowerUp;
      case SRE =>
        state := SelfRefresh;
      case _ =>
    }

    /** No other node has this bank's path. */
    lemma OnlyBank(rank: Dram)
      requires Shape() && level == BANK && rank.Tree() && rank.level == RANK && this in rank.nodes
      ensures forall n :: n in rank.nodes && n != this ==> n.path != path
    {
      rank.BankPositions();
      assert rank.IsBank(this);
      forall n | n in rank.nodes && n.path == path ensures n == this {
        assert rank.IsBank(n);
      }
    }

    /** The transition of a bank, which under AllBanks overwrites every bank of its rank. */
    method BankTransition(kind: Standard, cmd: Command, addr: seq<int>, rank: Dram)
      requires Shape() && level == BANK && |addr| == LEVELS && path == addr[..BANK + 1] && Scope(cmd) >= BANK
      requires rank.Tree() && rank.level == RANK && this in rank.nodes
      modifies rank.nodes`state, rank.nodes`rows
      ensures forall n :: n in rank.nodes ==>
                Moved(kind, Issue(cmd, addr, 0), n.path, old(n.Content()), old(rank.AnyOpen()), n.Content())
    {
      ghost var e := Issue(cmd, addr, 0);
      assert rank.IsBank(this) && rank.Inside(this);
      forall n | n in rank.nodes
        ensures |n.path| >= RANK + 1 && rank.path == n.path[..RANK + 1] && (|n.path| == RANK + 1 ==> n == rank)
      {
        assert rank.Inside(n);
      }
      if cmd == ACT || Closes(cmd) {
        if kind == AllBanks {
          rank.SetBanks(cmd == ACT, addr[ROW]);
        } else {
          SetBank(cmd == ACT, addr[ROW]);
          OnlyBank(rank);
        }
      }
    }

    /** This node's own transition, if it has one for cmd. */
    method Transition(kind: Standard, cmd: Command, addr: seq<int>, rank: Dram)
      requires Tree() && RANK <= level <= Scope(cmd) && |addr| == LEVELS && path == addr[..level + 1]
      requires rank.Tree() && rank.level == RANK && nodes <= rank.nodes && (level == RANK ==> rank == this)
      modifies rank.nodes`state, rank.nodes`rows
      ensures if level == BANK || (level == RANK && Scope(cmd) == RANK)
              then forall n :: n in rank.nodes ==>
                     Moved(kind, Issue(cmd, addr, 0), n.path, old(n.Content()), old(rank.AnyOpen()), n.Content())
              else forall n :: n in rank.nodes ==> n.Content() == old(n.Content())
    {
      if level == RANK {
        RankTransition(kind, cmd, addr);
      } else if level == BANK {
        BankTransition(kind, cmd, addr, rank);
      }
    }

    /** update_state within a rank: down to the command's scope. */
    method UpdateBelow(kind: Standard, cmd: Command, addr: seq<int>, rank: Dram)
      requires Tree() && RANK <= level <= Scope(cmd) && IsAddress(org, addr) && path == addr[..level + 1]
               && HasTarget(org, cmd, addr)
      requires rank.Tree() && rank.level == RANK && nodes <= rank.nodes && (level == RANK ==> rank == this)
      modifies rank.nodes`state, rank.nodes`rows
      ensures forall n :: n in rank.nodes ==>
                Moved(kind, Issue(cmd, addr, 0), n.path, old(n.Content()), old(rank.AnyOpen()), n.Content())
      decreases nodes
    {
      Transition(kind, cmd, addr, rank);
      if level == Scope(cmd) || |children| == 0 {
        return;
      }
      ChildTree(addr[level + 1]);
      NextId(addr, level);
      children[addr[level + 1]].UpdateBelow(kind, cmd, addr, rank);
    }

    /** Ranks that are not addressed keep their states. */
    lemma Missed(kind: Standard, e: Issue, n: Dram, c: Cell, open: bool)
      requires Tree() && level == CHANNEL && IsAddress(org, e.addr) && 0 <= e.addr[RANK] < |children|
      requires n in nodes && n !in children[e.addr[RANK]].nodes
      ensures Moved(kind, e, n.path, c, open, c)
    {
      if n != this {
        assert Placed(path, children, n);
        assert Inside(n) && n.path[RANK] != e.addr[RANK];
        var rank: Path := n.path[..RANK + 1];
        assert rank[RANK] != e.addr[RANK];
        assert !Targets(e, n.path) && !Targets(e, rank);
      }
    }

    /** update_state on the channel. */
    method UpdateState(kind: Standard, cmd: Command, addr: seq<int>)
      requires Tree() && level == CHANNEL && IsAddress(org, addr) && path == addr[..1] && HasTarget(org, cmd, addr)
      modifies nodes`state, nodes`rows
      ensures forall n :: n in nodes ==>
                Moved(kind, Issue(cmd, addr, 0), n.path, old(n.Content()), old(n.AnyOpen()), n.Content())
    {
      var rank := children[addr[RANK]];
      ChildTree(addr[RANK]);
      NextId(addr, CHANNEL);
      rank.UpdateBelow(kind, cmd, addr, rank);
      forall n | n in rank.nodes && |n.path| == RANK + 1 ensures n == rank { assert rank.Inside(n); }
      forall n | n in nodes && n !in rank.nodes
        ensures Moved(kind, Issue(cmd, addr, 0), n.path, old(n.Content()), old(n.AnyOpen()), n.Content())
      {
        Missed(kind, Issue(cmd, addr, 0), n, n.Content(), old(n.AnyOpen()));
      }
    }

    /** The states on which init_prereq's assertions hold, and every bank closed or open at one row. */
    ghost predicate Sane()
      reads nodes
    {
      forall n :: n in nodes ==>
        (|n.path| == RANK + 1 ==> IsRankState(n.state)) && (|n.path| == BANK + 1 ==> OneRow(n.Content()))
    }

    /** All banks of a rank agree. */
    ghost predicate Lockstep()
      reads nodes
    {
      forall a, b :: a in nodes && b in nodes && |a.path| == |b.path| == BANK + 1
        && a.path[..RANK + 1] == b.path[..RANK + 1]
        ==> a.Content() == b.Content()
    }

    lemma SameNode(addr: seq<int>)
      requires Tree() && |addr| == LEVELS && path == addr[..level + 1]
      ensures forall n :: n in nodes && |n.path| == level + 1 ==> n == this
      ensures forall n :: n in nodes ==> |n.path| >= level + 1
      ensures forall n :: n in nodes && level + 1 < |n.path| <= LEVELS && n.path == addr[..|n.path|] ==>
                0 <= addr[level + 1] < |children| && n in children[addr[level + 1]].nodes
    {
      forall n | n in nodes && n != this ensures |n.path| > level + 1 && Placed(path, children, n) {
        assert Inside(n);
        assert Placed(path, children, n);
      }
    }

    /** What decode finds from this node on. */
    ghost predicate Decoded(cmd: Command, addr: seq<int>, c: Command)
      requires |addr| == LEVELS
      reads nodes
    {
      if level <= RANK then
        && (IsAccess(cmd) ==>
              forall r, b :: r in nodes && b in nodes && r.path == addr[..RANK + 1] && b.path == addr[..BANK + 1] ==>
              c == Prerequisite(View(r.state, b.Content()), cmd, addr[ROW]))
        && (!IsAccess(cmd) ==>
              forall r :: r in nodes && r.path == addr[..RANK + 1] ==>
                r.nodes <= nodes && c == RankPrerequisite(r.state, r.AnyOpen(), cmd))
      else
        && (IsAccess(cmd) ==>
              forall b :: b in nodes && b.path == addr[..BANK + 1] ==>
                c == BankPrerequisite(b.Content(), cmd, addr[ROW]))
        && (!IsAccess(cmd) ==> c == cmd)
    }

    /** init_prereq at a rank; None where it has no say. */
    method RankPrereq(cmd: Command) returns (found: bool, c: Command)
      requires Tree() && level == RANK && IsRankState(state)
      ensures found == (if IsAccess(cmd) then state != PowerUp else cmd == REF || cmd == PDE || cmd == SRE)
      ensures found && !IsAccess(cmd) ==> c == RankPrerequisite(state, AnyOpen(), cmd)
      ensures found && IsAccess(cmd) ==> forall b: Cell, row :: c == Prerequisite(View(state, b), cmd, row)
    {
      match cmd
      case RD | WR =>
        return state != PowerUp, if state == SelfRefresh then SRX else PDX;
      case REF =>
        var open := HasOpenBank();
        return true, if open then PREA else REF;
      case PDE =>
        return true, if state == SelfRefresh then SRX else PDE;
      case SRE =>
        return true, if state == ActPowerDown || state == PrePowerDown then PDX else SRE;
      case _ =>
        return false, cmd;
    }

    /** What is decided at the rank or at the bank. */
    lemma DecodedHere(cmd: Command, addr: seq<int>, c: Command)
      requires Tree() && |addr| == LEVELS && path == addr[..level + 1]
      requires level == RANK || (level == BANK && IsAccess(cmd) && c == BankPrerequisite(Content(), cmd, addr[ROW]))
      requires level == RANK && IsAccess(cmd) ==> forall b: Cell, row :: c == Prerequisite(View(state, b), cmd, row)
      requires level == RANK && !IsAccess(cmd) ==> c == RankPrerequisite(state, AnyOpen(), cmd)
      ensures Decoded(cmd, addr, c)
    {
      SameNode(addr);
    }

    /** decode: the first prerequisite on the way down, or the command itself. */
    method Decode(cmd: Command, addr: seq<int>) returns (c: Command)
      requires Tree() && IsAddress(org, addr) && path == addr[..level + 1] && HasTarget(org, cmd, addr) && Sane()
      ensures Decoded(cmd, addr, c)
      decreases nodes
    {
      if level == RANK {
        var found, p := RankPrereq(cmd);
        if found {
          DecodedHere(cmd, addr, p);
          return p;
        }
      } else if level == BANK && IsAccess(cmd) {
        c := if state == Closed then ACT else if addr[ROW] in rows then cmd else PRE;
        DecodedHere(cmd, addr, c);
        return;
      }
      SameNode(addr);
      var childId := addr[level + 1];
      if childId < 0 || |children| == 0 {
        return cmd;
      }
      ChildTree(childId);
      NextId(addr, level);
      c := children[childId].Decode(cmd, addr);
    }

    /** The row that the address names is open in the bank that it names. */
    ghost predicate Hits(addr: seq<int>)
      requires |addr| == LEVELS
      reads nodes
    {
      exists b :: b in nodes && b.path == addr[..BANK + 1] && RowHit(b.Content(), addr[ROW])
    }

    /** check_row_hit: decided at the bank, and only for accesses. */
    method CheckRowHit(cmd: Command, addr: seq<int>) returns (hit: bool)
      requires Tree() && IsAddress(org, addr) && path == addr[..level + 1] && HasTarget(org, cmd, addr) && Sane()
      ensures hit <==> IsAccess(cmd) && Hits(addr)
      decreases nodes
    {
      SameNode(addr);
      if level == BANK && IsAccess(cmd) {
        return state == Opened && addr[ROW] in rows;
      }
      var childId := addr[level + 1];
      if childId < 0 || |children| == 0 {
        return false;
      }
      ChildTree(childId);
      NextId(addr, level);
      hit := children[childId].CheckRowHit(cmd, addr);
    }

    /** update on the whole channel: the timing tables follow the longer history and every state takes its
        transition. */
    method Update(kind: Standard, cmd: Command, addr: seq<int>, clk: int, ghost h: seq<Issue>)
      requires Tree() && level == CHANNEL && IsAddress(org, addr) && path == addr[..1] && HasTarget(org, cmd, addr)
      requires Knows(h) && Ordered(h + [Issue(cmd, addr, clk)])
      modifies nodes
      ensures Knows(h + [Issue(cmd, addr, clk)])
      ensures forall n :: n in nodes ==>
                Moved(kind, Issue(cmd, addr, 0), n.path, old(n.Content()), old(n.AnyOpen()), n.Content())
    {
      UpdateState(kind, cmd, addr);
      ghost var e := Issue(cmd, addr, clk);
      assert Knows(h);
      UpdateTiming(cmd, addr, clk);
      forall n | n in nodes ensures Tracks(table, n.path, n.Timing(), h + [e]) {
        assert Inside(n);
        StepTracks(table, n.path, old(n.Timing()), h, e);
      }
    }

    /** check, asked at the channel, decides admission by the whole history. */
    lemma CheckIsAdmission(h: seq<Issue>, e: Issue)
      requires Tree() && level == CHANNEL && Knows(h) && IsAddress(org, e.addr) && path == e.addr[..1] && e.clk >= 0
      ensures Check(e.cmd, e.addr, e.clk) <==> Admitted(table, org, h, e)
    {
      CheckDecides(h, e);
      AdmittedFromTop(table, org, h, e);
    }

    /** The assertion after an auto-precharge upgrade holds: the upgraded command is as ready as the plain one. */
    lemma UpgradeStaysReady(s: Speed, h: seq<Issue>, e: Issue)
      requires Tree() && level == CHANNEL && Knows(h) && IsAddress(org, e.addr) && path == e.addr[..1] && e.clk >= 0
      requires IsDdr4(table, s) || IsAllBank(table, s)
      ensures Check(e.cmd, e.addr, e.clk) == Check(Twin(e.cmd), e.addr, e.clk)
    {
      var twin := e.(cmd := Twin(e.cmd));
      CheckIsAdmission(h, e);
      CheckIsAdmission(h, twin);
      TwinsAdmitted(table, s, org, h, e);
    }

    /** Every bank that e would open is closed. */
    ghost predicate OpensClosed(kind: Standard, e: Issue)
      reads nodes
    {
      forall n :: n in nodes && |n.path| == BANK + 1 ==> ActsOnClosed(kind, e, n.path, n.Content())
    }

    /** Every node took its transition. */
    twostate predicate AllMoved(kind: Standard, e: Issue)
      requires |e.addr| == LEVELS
      reads nodes
    {
      forall n :: n in nodes ==> Moved(kind, e, n.path, old(n.Content()), old(n.AnyOpen()), n.Content())
    }

    /** Banks stay closed or open at one row, ranks in a power state. */
    twostate lemma SaneKept(step: Step)
      requires |step.e.addr| == LEVELS && old(Sane()) && old(OpensClosed(step.kind, step.e))
               && AllMoved(step.kind, step.e)
      ensures Sane()
    {
      forall n | n in nodes
        ensures (|n.path| == RANK + 1 ==> IsRankState(n.state)) && (|n.path| == BANK + 1 ==> OneRow(n.Content()))
      {
        if |n.path| == BANK + 1 { OneRowKept(step.kind, step.e, n.path, old(n.Content())); }
      }
    }

    /** Under AllBanks the banks of a rank stay in lockstep. */
    twostate lemma LockstepStays(e: Issue)
      requires |e.addr| == LEVELS && old(Lockstep()) && AllMoved(AllBanks, e)
      ensures Lockstep()
    {
      forall a, b | a in nodes && b in nodes && |a.path| == |b.path| == BANK + 1
        && a.path[..RANK + 1] == b.path[..RANK + 1]
        ensures a.Content() == b.Content()
      {
        LockstepKept(e, a.path, b.path, old(a.Content()));
      }
    }

    /** update with a command that opens closed banks only keeps the state invariants. */
    method Follow(kind: Standard, cmd: Command, addr: seq<int>, clk: int, ghost h: seq<Issue>)
      requires Tree() && level == CHANNEL && IsAddress(org, addr) && path == addr[..1] && HasTarget(org, cmd, addr)
      requires Ordered(h + [Issue(cmd, addr, clk)]) && (kind == AllBanks ==> Lockstep())
      requires var ready := Knows(h) && Sane() && OpensClosed(kind, Issue(cmd, addr, 0)); ready
      modifies nodes
      ensures Knows(h + [Issue(cmd, addr, clk)]) && AllMoved(kind, Issue(cmd, addr, 0))
      ensures Sane() && (kind == AllBanks ==> Lockstep())
    {
      Update(kind, cmd, addr, clk, h);
      SaneKept(Step(kind, Issue(cmd, addr, 0)));
      if kind == AllBanks { LockstepStays(Issue(cmd, addr, 0)); }
    }

    /** Banks with the same path are the same node. */
    lemma OneNode(n: Dram, bank: Dram)
      requires Tree() && level == CHANNEL && n in nodes && bank in nodes && |n.path| == BANK + 1 && n.path == bank.path
      ensures n == bank
    {
      assert Placed(path, children, n) && Placed(path, children, bank);
      var rank := children[n.path[RANK]];
      ChildTree(n.path[RANK]);
      rank.BankPositions();
      assert rank.IsBank(n) && rank.IsBank(bank);
    }

    /** An activation that decode asked for finds its banks closed. */
    lemma DecodedOpensClosed(kind: Standard, cmd: Command, addr: seq<int>, e: Issue, bank: Dram, rank: Dram)
      requires Tree() && level == CHANNEL && |addr| == LEVELS && IsAccess(cmd) && e.addr == addr
               && Decoded(cmd, addr, e.cmd)
      requires bank in nodes && rank in nodes && bank.path == addr[..BANK + 1] && rank.path == addr[..RANK + 1]
      requires Sane() && (kind == AllBanks ==> Lockstep())
      ensures OpensClosed(kind, e)
    {
      assert e.cmd == Prerequisite(View(rank.state, bank.Content()), cmd, addr[ROW]);
      forall n | n in nodes && |n.path| == BANK + 1 ensures ActsOnClosed(kind, e, n.path, n.Content()) {
        if e.cmd == ACT && Struck(kind, e, n.path) {
          assert bank.Content() == CLOSED;
          if kind == AllBanks {
            assert n.path[..RANK + 1] == addr[..RANK + 1] == bank.path[..RANK + 1];
          } else {
            OneNode(n, bank);
          }
        }
      }
    }
  }
}
