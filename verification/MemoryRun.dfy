/** The memory controller on its DRAM channel: every run of requests and cycles (Controller.h, DRAM.h). */
module MemoryRun {
  import opened DramSpec
  import opened DramHistory
  import opened DramLegal
  import opened DramState
  import opened DramTree
  import opened DramTrace
  import opened DramRun
  import DramSeparation
  import opened ControllerQueues
  import opened ControllerSpec
  import opened Controller
  import ControllerRun

  /** What the channel is asked about: a kind of request and an address. */
  type Key = (Kind, seq<int>)

  function Want(key: Key, auto: bool): Ask { Next(Translate(key.0), key.1, auto) }

  /** The channel has the target of the request. */
  ghost predicate Addressed(d: Dram, key: Key) { Fits(d, Want(key, false)) }

  function QueueKeys(q: seq<Request>): (keys: seq<Key>)
    ensures |keys| == |q| && forall i :: 0 <= i < |q| ==> keys[i] == (q[i].kind, q[i].addrVec)
  {
    seq(|q|, i requires 0 <= i < |q| => (q[i].kind, q[i].addrVec))
  }

  function CallKeys(calls: seq<Call>): (keys: seq<Key>)
    ensures |keys| == |calls| && forall i :: 0 <= i < |calls| ==> keys[i] == (calls[i].kind, calls[i].addrVec)
  {
    seq(|calls|, i requires 0 <= i < |calls| => (calls[i].kind, calls[i].addrVec))
  }

  function RefreshKeys(refreshes: seq<seq<int>>): (keys: seq<Key>)
    ensures |keys| == |refreshes| && forall i :: 0 <= i < |refreshes| ==> keys[i] == (Refresh, refreshes[i])
  {
    seq(|refreshes|, i requires 0 <= i < |refreshes| => (Refresh, refreshes[i]))
  }

  /** All queued requests are among these. */
  ghost predicate Among(q: seq<Request>, keys: set<Key>)
  {
    forall i :: 0 <= i < |q| ==> (q[i].kind, q[i].addrVec) in keys
  }

  ghost predicate AllAmong(p: Places, keys: set<Key>)
  {
    Among(p.readq, keys) && Among(p.writeq, keys) && Among(p.actq, keys) && Among(p.otherq, keys)
  }

  ghost predicate CallsAmong(calls: seq<Call>, keys: set<Key>)
  {
    forall i :: 0 <= i < |calls| ==> (calls[i].kind, calls[i].addrVec) in keys
  }

  ghost predicate RefreshesAmong(refreshes: seq<seq<int>>, keys: set<Key>)
  {
    forall i :: 0 <= i < |refreshes| ==> (Refresh, refreshes[i]) in keys
  }

  lemma {:induction false} ReceivedAmong(a: Accepted, calls: seq<Call>, max: nat, clk: int, keys: set<Key>)
    requires AllAmong(a.p, keys) && CallsAmong(calls, keys)
    ensures AllAmong(AllReceived(a, calls, max, clk).p, keys)
  {
    if calls != [] { ReceivedAmong(a, calls[..|calls| - 1], max, clk, keys); }
  }

  lemma {:induction false} RefreshedAmong(a: Accepted, refreshes: seq<seq<int>>, max: nat, clk: int, keys: set<Key>)
    requires AllAmong(a.p, keys) && RefreshesAmong(refreshes, keys)
    ensures AllAmong(Refreshed(a, refreshes, max, clk).p, keys)
  {
    if refreshes != [] { RefreshedAmong(a, refreshes[..|refreshes| - 1], max, clk, keys); }
  }

  lemma PreparedAmong(c: Snapshot, ab: bool, e: Environment, k: Parameters, keys: set<Key>)
    requires AllAmong(c.p, keys) && CallsAmong(e.onRead, keys) && RefreshesAmong(e.refreshes, keys)
    ensures AllAmong(Prepared(c, ab, e, k).p, keys)
  {
    var a := Accepted(c.p, c.count);
    ReceivedAmong(a.(p := Reported(c.p, c.clk + 1)), e.onRead, k.max, c.clk + 1, keys);
    RefreshedAmong(Answered(a, e.onRead, k.max, c.clk + 1), e.refreshes, k.max, c.clk + 1, keys);
  }

  lemma ErasedAmong(p: Places, n: Name, i: nat, keys: set<Key>)
    requires AllAmong(p, keys) && i < |p.Get(n)|
    ensures AllAmong(p.With(n, Erase(p.Get(n), i)), keys) && (p.Get(n)[i].kind, p.Get(n)[i].addrVec) in keys
  {
  }

  lemma ContinuedAmong(a: Accepted, n: Name, i: nat, cmd: Command, e: Environment, k: Parameters, clk: int,
                       keys: set<Key>)
    requires AllAmong(a.p, keys) && i < |a.p.Get(n)| && CallsAmong(e.onWrite, keys)
    ensures AllAmong(Continuation(a, n, i, cmd, e, k, clk).p, keys)
  {
    ErasedAmong(a.p, n, i, keys);
    if cmd == Translate(a.p.Get(n)[i].kind) {
      ReceivedExtends(a, e.onWrite, k.max, clk);
      ReceivedAmong(a, e.onWrite, k.max, clk, keys);
      var b := if a.p.Get(n)[i].kind == Write then AllReceived(a, e.onWrite, k.max, clk) else a;
      ErasedAmong(b.p, n, i, keys);
    } else if cmd == ACT {
      ErasedAmong(a.p.With(ActQ, a.p.actq + [a.p.Get(n)[i]]), n, i, keys);
    }
  }

  lemma ScheduledAmong(c: Snapshot, ab: bool, e: Environment, k: Parameters, keys: set<Key>)
    requires IsEnvironment(e) && AllAmong(c.p, keys) && CallsAmong(e.onWrite, keys)
    ensures AllAmong(Scheduled(c, ab, e, k).p, keys)
  {
    var ch := Chosen(c.p, c.mode.write, e);
    if ch.found {
      var r := c.p.Get(ch.queue)[ch.i];
      var p := Started(c.p, ch.queue, ch.i);
      assert AllAmong(p, keys);
      ContinuedAmong(Accepted(p, c.count), ch.queue, ch.i, e.decode(r.kind, r.addrVec), e, k, c.clk, keys);
    }
  }

  /** What the channel answers at a clock. */
  datatype Answer = Answer(cmd: Command, ready: bool, hit: bool)

  ghost predicate Right(d: Dram, key: Key, a: Answer, clk: int)
    reads d.nodes
  {
    && Addressed(d, key) && Wants(d, Want(key, false), a.cmd) && (forall n :: n in d.nodes ==> a.cmd in n.next)
    && a.ready == d.Check(a.cmd, key.1, clk) && (a.hit <==> IsAccess(Translate(key.0)) && d.Hits(key.1))
  }

  ghost predicate AllRight(d: Dram, m: map<Key, Answer>, clk: int)
    reads d.nodes
  {
    forall key {:trigger m[key]} :: key in m ==> Right(d, key, m[key], clk)
  }

  /** decode, check and check_row_hit. */
  method Consult(d: Dram, kind: Standard, key: Key, clk: int, ghost h: seq<Issue>) returns (a: Answer)
    requires Addressed(d, key) && Consistent(d, kind, h, clk)
    ensures Right(d, key, a, clk)
  {
    Unfold(d, kind, h, clk);
    var cmd := d.Decode(Translate(key.0), key.1);
    var ready := d.Check(cmd, key.1, clk);
    var hit := d.CheckRowHit(Translate(key.0), key.1);
    a := Answer(cmd, ready, hit);
  }

  lemma OneMoreRight(d: Dram, m: map<Key, Answer>, key: Key, a: Answer, clk: int)
    requires AllRight(d, m, clk) && Right(d, key, a, clk)
    ensures AllRight(d, m[key := a], clk) && m[key := a].Keys == m.Keys + {key}
  {
  }

  method ConsultAll(d: Dram, kind: Standard, keys: seq<Key>, known: map<Key, Answer>, clk: int, ghost h: seq<Issue>)
    returns (m: map<Key, Answer>)
    requires (forall i :: 0 <= i < |keys| ==> Addressed(d, keys[i])) && d.Tree() && Consistent(d, kind, h, clk)
             && AllRight(d, known, clk)
    ensures AllRight(d, m, clk) && known.Keys <= m.Keys && forall i :: 0 <= i < |keys| ==> keys[i] in m.Keys
  {
    m := known;
    var i := 0;
    while i < |keys|
      invariant i <= |keys| && AllRight(d, m, clk) && known.Keys <= m.Keys && forall j :: 0 <= j < i ==>
                  keys[j] in m.Keys
    {
      var a := Consult(d, kind, keys[i], clk, h);
      OneMoreRight(d, m, keys[i], a, clk);
      m := m[keys[i] := a];
      i := i + 1;
    }
  }

  /** A cycle from outside: the scheduler, the refresh requests, the bank that the row policy would like to close, and
      what callbacks send. */
  datatype Turn = Turn(ab: bool, head: seq<Request> -> nat, refreshes: seq<seq<int>>, close: seq<int>,
                       onRead: seq<Call>, onWrite: seq<Call>)

  /** The controller's surroundings, as the channel answers. */
  function Surroundings(t: Turn, m: map<Key, Answer>, victim: seq<int>): Environment
  {
    Environment(t.head, (k, a) => if (k, a) in m then m[(k, a)].cmd else PRE, (k, a) => (k, a) in m && m[(k, a)].ready,
                (k, a) => (k, a) in m && m[(k, a)].hit, t.refreshes, victim, t.onRead, t.onWrite)
  }

  /** decode keeps the contract that the controller relies on. */
  lemma RightDecodes(d: Dram, kind: Standard, key: Key, a: Answer, clk: int)
    requires Right(d, key, a, clk) && InOrder(d, kind)
    ensures (a.cmd == ACT ==> IsData(key.0)) && a.cmd != RDA && a.cmd != WRA
    ensures IsAccess(a.cmd) ==> a.cmd == Translate(key.0) && a.hit
  {
    var cmd := Translate(key.0);
    if IsAccess(cmd) {
      var rank, bank := Located(d, cmd, key.1);
      Prescribed(d, kind, cmd, key.1, a.cmd, rank, bank);
      if a.cmd == cmd {
        HitsWhenReady(Seen(rank, bank), cmd, key.1[ROW]);
        assert d.Hits(key.1);
      }
    } else {
      var rank := RankOf(d, key.1);
      assert a.cmd == RankPrerequisite(rank.state, rank.AnyOpen(), cmd);
    }
  }

  ghost predicate IsScheduler(head: seq<Request> -> nat) { forall q: seq<Request> :: q != [] ==> head(q) < |q| }

  lemma SurroundingsAre(d: Dram, kind: Standard, t: Turn, m: map<Key, Answer>, victim: seq<int>, clk: int)
    requires AllRight(d, m, clk) && d.Tree() && InOrder(d, kind) && IsScheduler(t.head)
    ensures IsEnvironment(Surroundings(t, m, victim))
  {
    var e := Surroundings(t, m, victim);
    forall k, a
      ensures (e.decode(k, a) == ACT ==> IsData(k)) && e.decode(k, a) != RDA && e.decode(k, a) != WRA
      ensures IsAccess(e.decode(k, a)) ==> e.decode(k, a) == Translate(k) && e.hit(k, a)
    {
      if (k, a) in m { RightDecodes(d, kind, (k, a), m[(k, a)], clk); }
    }
  }

  /** The command comes from an answer, upgraded or not. */
  predicate FromAnswer(key: Key, a: Answer, cmd: Command, addr: seq<int>)
  {
    a.ready && addr == key.1 && (cmd == a.cmd || (IsAccess(a.cmd) && cmd == Twin(a.cmd)))
  }

  /** Or it closes the bank that the row policy chose. */
  ghost predicate Warranted(m: map<Key, Answer>, victim: seq<int>, cmd: Command, addr: seq<int>)
  {
    || (victim != [] && cmd == PRE && addr == victim)
    || exists key {:trigger m[key]} :: key in m && FromAnswer(key, m[key], cmd, addr)
  }

  lemma IssuedIsWarranted(b: Snapshot, t: Turn, m: map<Key, Answer>, victim: seq<int>, e: Environment, k: Parameters)
    requires e == Surroundings(t, m, victim) && IsEnvironment(e) && AllAmong(b.p, m.Keys)
    ensures var issued := IssuedBy(b, e, k);
            |issued| <= 1 && (issued != [] ==> Warranted(m, victim, issued[0].0, issued[0].1))
  {
    var ch := Chosen(b.p, b.mode.write, e);
    if ch.found {
      var r := b.p.Get(ch.queue)[ch.i];
      assert (r.kind, r.addrVec) in m && m[(r.kind, r.addrVec)].ready;
      assert FromAnswer((r.kind, r.addrVec), m[(r.kind, r.addrVec)], IssuedBy(b, e, k)[0].0, r.addrVec);
    }
  }

  /** The PRE of the row policy is ready. */
  ghost predicate Closable(d: Dram, addr: seq<int>, clk: int)
    reads d.nodes
  {
    Fits(d, Close(addr)) && (forall n :: n in d.nodes ==> PRE in n.next) && d.Check(PRE, addr, clk)
  }

  /** The command can be issued. */
  ghost predicate Issuable(d: Dram, kind: Standard, h: seq<Issue>, cmd: Command, addr: seq<int>, clk: int)
    reads d.nodes
  {
    && d.Tree() && d.level == CHANNEL && IsAddress(d.org, addr) && d.path == addr[..CHANNEL + 1]
    && HasTarget(d.org, cmd, addr)
    && (forall n :: n in d.nodes ==> cmd in n.next) && d.Check(cmd, addr, clk)
    && d.OpensClosed(kind, Issue(cmd, addr, 0)) && Suits(kind, h, Issue(cmd, addr, clk))
  }

  lemma AnswerIssuable(d: Dram, kind: Standard, s: Speed, h: seq<Issue>, key: Key, a: Answer, cmd: Command,
                       addr: seq<int>, clk: int)
    requires Right(d, key, a, clk) && Consistent(d, kind, h, clk) && FromAnswer(key, a, cmd, addr)
    requires IsDdr4(d.table, s) || IsAllBank(d.table, s)
    ensures Issuable(d, kind, h, cmd, addr, clk)
  {
    var ask := Want(key, cmd != a.cmd);
    Unfold(d, kind, h, clk);
    WantedOpensClosed(d, kind, ask, a.cmd);
    WantedSuits(d, kind, h, ask, a.cmd, clk);
    d.UpgradeStaysReady(s, h, Issue(a.cmd, addr, clk));
  }

  lemma VictimIssuable(d: Dram, kind: Standard, h: seq<Issue>, addr: seq<int>, clk: int)
    requires Closable(d, addr, clk) && Consistent(d, kind, h, clk)
    ensures Issuable(d, kind, h, PRE, addr, clk)
  {
    Unfold(d, kind, h, clk);
    WantedOpensClosed(d, kind, Close(addr), PRE);
    WantedSuits(d, kind, h, Close(addr), PRE, clk);
  }

  lemma WarrantedIssuable(d: Dram, kind: Standard, s: Speed, h: seq<Issue>, m: map<Key, Answer>, victim: seq<int>,
                          cmd: Command, addr: seq<int>, clk: int)
    requires AllRight(d, m, clk) && d.Tree() && Consistent(d, kind, h, clk) && Warranted(m, victim, cmd, addr)
    requires (IsDdr4(d.table, s) || IsAllBank(d.table, s)) && (victim != [] ==> Closable(d, victim, clk))
    ensures Issuable(d, kind, h, cmd, addr, clk)
  {
    if victim != [] && cmd == PRE && addr == victim {
      VictimIssuable(d, kind, h, addr, clk);
    } else {
      var key :| key in m && FromAnswer(key, m[key], cmd, addr);
      AnswerIssuable(d, kind, s, h, key, m[key], cmd, addr, clk);
    }
  }

  ghost predicate Shown(t: bool) { t }

  /** The command of a cycle, if there is one, can be issued; guarded so that it is unfolded only where it is. */
  ghost predicate Able(d: Dram, kind: Standard, h: seq<Issue>, issued: seq<(Command, seq<int>)>, clk: int)
    reads d.nodes
  {
    forall t {:trigger Shown(t)} :: Shown(t) ==> issued != [] ==> Issuable(d, kind, h, issued[0].0, issued[0].1, clk)
  }

  ghost function IssuesOf(issued: seq<(Command, seq<int>)>, clk: int): seq<Issue>
  {
    if issued == [] then [] else [Issue(issued[0].0, issued[0].1, clk)]
  }

  /** issue_cmd, if there is a command. */
  method Forward(d: Dram, kind: Standard, issued: seq<(Command, seq<int>)>, clk: int, ghost h: seq<Issue>)
    requires d.Tree() && Consistent(d, kind, h, clk) && Able(d, kind, h, issued, clk)
    modifies d.nodes
    ensures var consistent := Consistent(d, kind, h + IssuesOf(issued, clk), clk + 1); consistent
  {
    assert Shown(true);
    if issued == [] {
      assert h + [] == h;
      Later(d, kind, h, clk, clk + 1);
    } else {
      Put(d, kind, issued[0].0, issued[0].1, clk, h);
    }
  }

  /** Every queued request has its target in the channel. */
  ghost predicate AllAddressed(d: Dram, p: Places)
  {
    forall n: Name, i {:trigger p.Get(n)[i]} :: 0 <= i < |p.Get(n)| ==>
      Addressed(d, (p.Get(n)[i].kind, p.Get(n)[i].addrVec))
  }

  ghost predicate TurnFits(d: Dram, t: Turn)
  {
    && IsScheduler(t.head) && (t.close != [] ==> Fits(d, Close(t.close)))
    && (forall i :: 0 <= i < |t.refreshes| ==> Addressed(d, (Refresh, t.refreshes[i])))
    && (forall i :: 0 <= i < |t.onRead| ==> Addressed(d, (t.onRead[i].kind, t.onRead[i].addrVec)))
    && (forall i :: 0 <= i < |t.onWrite| ==> Addressed(d, (t.onWrite[i].kind, t.onWrite[i].addrVec)))
  }

  /** The victim is the bank that the row policy would like to close, if its PRE is ready. */
  method ChooseVictim(d: Dram, kind: Standard, close: seq<int>, clk: int, ghost h: seq<Issue>)
    returns (victim: seq<int>)
    requires d.Tree() && Consistent(d, kind, h, clk) && (close != [] ==> Fits(d, Close(close)))
    ensures victim == if close != [] && Closable(d, close, clk) then close else []
  {
    Unfold(d, kind, h, clk);
    victim := [];
    if close != [] {
      var ready := d.Check(PRE, close, clk);
      if ready {
        victim := close;
      }
    }
  }

  lemma KeysCover(q: seq<Request>, keys: set<Key>)
    requires forall i :: 0 <= i < |q| ==> QueueKeys(q)[i] in keys
    ensures Among(q, keys)
  {
    forall i | 0 <= i < |q| ensures (q[i].kind, q[i].addrVec) in keys {
      assert QueueKeys(q)[i] in keys;
    }
  }

  method ConsultQueue(d: Dram, kind: Standard, q: seq<Request>, known: map<Key, Answer>, clk: int, ghost h: seq<Issue>)
    returns (m: map<Key, Answer>)
    requires (forall i :: 0 <= i < |q| ==> Addressed(d, (q[i].kind, q[i].addrVec)))
    requires d.Tree() && Consistent(d, kind, h, clk) && AllRight(d, known, clk)
    ensures AllRight(d, m, clk) && known.Keys <= m.Keys && Among(q, m.Keys)
  {
    m := ConsultAll(d, kind, QueueKeys(q), known, clk, h);
    KeysCover(q, m.Keys);
  }

  method ConsultQueues(d: Dram, kind: Standard, c: Controller, clk: int, ghost h: seq<Issue>)
    returns (m: map<Key, Answer>)
    requires d.Tree() && Consistent(d, kind, h, clk) && AllAddressed(d, c.Now())
    ensures AllRight(d, m, clk) && AllAmong(c.Now(), m.Keys)
  {
    ghost var p := c.Now();
    assert c.readq == p.Get(ReadQ) && c.writeq == p.Get(WriteQ) && c.actq == p.Get(ActQ) && c.otherq == p.Get(OtherQ);
    m := ConsultQueue(d, kind, c.readq, map[], clk, h);
    m := ConsultQueue(d, kind, c.writeq, m, clk, h);
    m := ConsultQueue(d, kind, c.actq, m, clk, h);
    m := ConsultQueue(d, kind, c.otherq, m, clk, h);
  }

  method ConsultTurn(d: Dram, kind: Standard, t: Turn, known: map<Key, Answer>, clk: int, ghost h: seq<Issue>)
    returns (m: map<Key, Answer>)
    requires d.Tree() && Consistent(d, kind, h, clk) && AllRight(d, known, clk) && TurnFits(d, t)
    ensures AllRight(d, m, clk) && known.Keys <= m.Keys
    ensures CallsAmong(t.onRead, m.Keys) && CallsAmong(t.onWrite, m.Keys) && RefreshesAmong(t.refreshes, m.Keys)
  {
    m := ConsultAll(d, kind, CallKeys(t.onRead), known, clk, h);
    m := ConsultAll(d, kind, CallKeys(t.onWrite), m, clk, h);
    m := ConsultAll(d, kind, RefreshKeys(t.refreshes), m, clk, h);
    forall i | 0 <= i < |t.onRead|
      ensures (t.onRead[i].kind, t.onRead[i].addrVec) in m
    {
      assert CallKeys(t.onRead)[i] in m;
    }
    forall i | 0 <= i < |t.onWrite|
      ensures (t.onWrite[i].kind, t.onWrite[i].addrVec) in m
    {
      assert CallKeys(t.onWrite)[i] in m;
    }
    forall i | 0 <= i < |t.refreshes|
      ensures (Refresh, t.refreshes[i]) in m
    {
      assert RefreshKeys(t.refreshes)[i] in m;
    }
  }

  /** All that the channel is asked in a cycle: the answers cover every request that can be chosen in it. */
  method Inquire(d: Dram, kind: Standard, c: Controller, t: Turn, clk: int, ghost h: seq<Issue>)
    returns (m: map<Key, Answer>, victim: seq<int>)
    requires d.Tree() && Consistent(d, kind, h, clk) && AllAddressed(d, c.Now()) && TurnFits(d, t)
    ensures AllRight(d, m, clk) && AllAmong(c.Now(), m.Keys)
    ensures CallsAmong(t.onRead, m.Keys) && CallsAmong(t.onWrite, m.Keys) && RefreshesAmong(t.refreshes, m.Keys)
    ensures victim == if t.close != [] && Closable(d, t.close, clk) then t.close else []
    ensures IsEnvironment(Surroundings(t, m, victim))
  {
    m := ConsultQueues(d, kind, c, clk, h);
    m := ConsultTurn(d, kind, t, m, clk, h);
    victim := ChooseVictim(d, kind, t.close, clk, h);
    Unfold(d, kind, h, clk);
    SurroundingsAre(d, kind, t, m, victim, clk);
  }

  lemma AmongAddressed(d: Dram, p: Places, m: map<Key, Answer>, clk: int)
    requires AllRight(d, m, clk) && AllAmong(p, m.Keys)
    ensures AllAddressed(d, p)
  {
    forall n: Name, i {:trigger p.Get(n)[i]} | 0 <= i < |p.Get(n)|
      ensures Addressed(d, (p.Get(n)[i].kind, p.Get(n)[i].addrVec))
    {
      assert (p.Get(n)[i].kind, p.Get(n)[i].addrVec) in m;
      assert Right(d, (p.Get(n)[i].kind, p.Get(n)[i].addrVec), m[(p.Get(n)[i].kind, p.Get(n)[i].addrVec)], clk);
    }
  }

  /** One cycle of the controller: its next state and the command issued, guarded like Able. */
  ghost predicate Ticks(before: Snapshot, ab: bool, e: Environment, k: Parameters, next: Snapshot,
                        issued: seq<(Command, seq<int>)>)
  {
    forall t {:trigger Shown(t)} :: Shown(t) ==>
      IsEnvironment(e) && next == Ticked(before, ab, e, k) && issued == IssuedBy(Prepared(before, ab, e, k), e, k)
  }

  /** What it does, when the channel has answered. */
  lemma CycleMeans(d: Dram, kind: Standard, s: Speed, h: seq<Issue>, c: Snapshot, t: Turn, m: map<Key, Answer>,
                   victim: seq<int>,
                   k: Parameters, clk: int, e: Environment) returns (next: Snapshot, issued: seq<(Command, seq<int>)>)
    requires d.Tree() && Consistent(d, kind, h, clk) && AllRight(d, m, clk) && AllAmong(c.p, m.Keys)
    requires CallsAmong(t.onRead, m.Keys) && CallsAmong(t.onWrite, m.Keys) && RefreshesAmong(t.refreshes, m.Keys)
    requires (IsDdr4(d.table, s) || IsAllBank(d.table, s)) && (victim != [] ==> Closable(d, victim, clk))
    requires e == Surroundings(t, m, victim) && IsEnvironment(e)
    ensures Ticks(c, t.ab, e, k, next, issued) && AllAddressed(d, next.p) && Able(d, kind, h, issued, clk)
  {
    var b := Prepared(c, t.ab, e, k);
    next, issued := Ticked(c, t.ab, e, k), IssuedBy(b, e, k);
    PreparedAmong(c, t.ab, e, k, m.Keys);
    ScheduledAmong(b, t.ab, e, k, m.Keys);
    AmongAddressed(d, next.p, m, clk);
    IssuedIsWarranted(b, t, m, victim, e, k);
    if issued != [] { WarrantedIssuable(d, kind, s, h, m, victim, issued[0].0, issued[0].1, clk); }
  }

  /** The surroundings are those of this turn. */
  ghost predicate Plays(t: Turn, e: Environment)
  {
    IsEnvironment(e) && e.head == t.head && e.refreshes == t.refreshes && e.onRead == t.onRead && e.onWrite == t.onWrite
  }

  lemma SurroundingsPlay(t: Turn, m: map<Key, Answer>, victim: seq<int>)
    requires IsEnvironment(Surroundings(t, m, victim))
    ensures Plays(t, Surroundings(t, m, victim))
  {
  }

  /** tick in surroundings that answer for the channel. */
  method TickWith(c: Controller, t: Turn, m: map<Key, Answer>, victim: seq<int>, ghost e: Environment,
                  ghost next: Snapshot, ghost expected: seq<(Command, seq<int>)>)
    returns (issued: seq<(Command, seq<int>)>)
    requires c.Inv() && e == Surroundings(t, m, victim) && Ticks(c.Current(), t.ab, e, c.Setup(), next, expected)
    modifies c, c.meter
    ensures c.Inv() && c.Current() == next && issued == expected && c.clk == old(c.clk) + 1
  {
    assert Shown(true);
    issued := c.Tick(t.ab, Surroundings(t, m, victim));
  }

  /** The channel answers, and tick chooses. */
  method Decide(c: Controller, d: Dram, kind: Standard, s: Speed, t: Turn, clk: int, ghost h: seq<Issue>)
    returns (ghost e: Environment, issued: seq<(Command, seq<int>)>)
    requires c.Inv() && d.Tree() && Consistent(d, kind, h, clk) && AllAddressed(d, c.Now()) && TurnFits(d, t)
             && clk == c.clk + 1
    requires IsDdr4(d.table, s) || IsAllBank(d.table, s)
    modifies c, c.meter
    ensures c.Inv() && AllAddressed(d, c.Now()) && c.clk == clk && Plays(t, e)
    ensures Ticks(old(c.Current()), t.ab, e, c.Setup(), c.Current(), issued)
    ensures var able := Able(d, kind, h, issued, clk); able
  {
    var m, victim := Inquire(d, kind, c, t, clk, h);
    e := Surroundings(t, m, victim);
    SurroundingsPlay(t, m, victim);
    ghost var next, expected := CycleMeans(d, kind, s, h, c.Current(), t, m, victim, c.Setup(), clk, e);
    issued := TickWith(c, t, m, victim, e, next, expected);
  }

  /** One cycle of controller and channel: the channel answers, tick chooses, and the command is issued. It is ready,
      as issue_cmd asserts, and keeps every invariant of both. */
  method Cycle(c: Controller, d: Dram, kind: Standard, s: Speed, t: Turn, clk: int, ghost h: seq<Issue>)
    returns (ghost e: Environment, ghost issued: seq<(Command, seq<int>)>)
    requires c.Inv() && d.Tree() && Consistent(d, kind, h, clk) && AllAddressed(d, c.Now()) && TurnFits(d, t)
             && clk == c.clk + 1
    requires IsDdr4(d.table, s) || IsAllBank(d.table, s)
    modifies c, c.meter, d.nodes
    ensures c.Inv() && AllAddressed(d, c.Now()) && c.clk == clk && Plays(t, e)
    ensures Ticks(old(c.Current()), t.ab, e, c.Setup(), c.Current(), issued)
    ensures var consistent := Consistent(d, kind, h + IssuesOf(issued, clk), clk + 1); consistent
  {
    var commands;
    e, commands := Decide(c, d, kind, s, t, clk, h);
    Forward(d, kind, commands, clk, h);
    issued := commands;
  }

  /** A request from outside, or a cycle. */
  datatype Event = Send(call: Call) | Pass(turn: Turn)

  ghost predicate EventFits(d: Dram, v: Event)
  {
    match v
    case Send(call) => Addressed(d, (call.kind, call.addrVec))
    case Pass(turn) => TurnFits(d, turn)
  }

  /** The event as the controller sees it. */
  ghost predicate SeenAs(v: Event, w: ControllerRun.Event)
  {
    match v
    case Send(call) => w == ControllerRun.Send(call)
    case Pass(turn) => w.Cycle? && w.ab == turn.ab && Plays(turn, w.env)
  }

  ghost predicate AllSeenAs(events: seq<Event>, steps: seq<ControllerRun.Event>)
  {
    |steps| == |events| && forall i :: 0 <= i < |events| ==> SeenAs(events[i], steps[i])
  }

  ghost function IssuedIn(now: Snapshot, w: ControllerRun.Event, k: Parameters): seq<Issue>
    requires ControllerRun.IsEvent(w)
  {
    match w
    case Send(_) => []
    case Cycle(env, ab) => IssuesOf(IssuedBy(Prepared(now, ab, env, k), env, k), now.clk + 1)
  }

  /** The commands that a controller issues in such a run. */
  ghost function CommandsOf(c: Snapshot, steps: seq<ControllerRun.Event>, k: Parameters): seq<Issue>
    requires forall i :: 0 <= i < |steps| ==> ControllerRun.IsEvent(steps[i])
  {
    if steps == [] then []
    else
      var before := steps[..|steps| - 1];
      CommandsOf(c, before, k) + IssuedIn(ControllerRun.Ran(c, before, k), steps[|steps| - 1], k)
  }

  /** Where the controller is after the steps, and the commands it has issued. */
  ghost predicate Reached(from: Snapshot, steps: seq<ControllerRun.Event>, k: Parameters, now: Snapshot,
                          run: seq<Issue>)
  {
    && (forall i :: 0 <= i < |steps| ==> ControllerRun.IsEvent(steps[i]))
    && now == ControllerRun.Ran(from, steps, k) && run == CommandsOf(from, steps, k)
  }

  lemma StepReaches(from: Snapshot, steps: seq<ControllerRun.Event>, k: Parameters, now: Snapshot, run: seq<Issue>,
                    w: ControllerRun.Event, next: Snapshot, more: seq<Issue>)
    requires Reached(from, steps, k, now, run) && ControllerRun.IsEvent(w)
    requires next == ControllerRun.After(now, w, k) && more == IssuedIn(now, w, k)
    ensures Reached(from, steps + [w], k, next, run + more)
  {
    assert (steps + [w])[..|steps|] == steps;
  }

  lemma CycleIssues(now: Snapshot, ab: bool, e: Environment, k: Parameters, next: Snapshot,
                    issued: seq<(Command, seq<int>)>, clk: int)
    requires Ticks(now, ab, e, k, next, issued) && clk == now.clk + 1
    ensures var w := ControllerRun.Cycle(e, ab);
            ControllerRun.IsEvent(w) && next == ControllerRun.After(now, w, k)
            && IssuesOf(issued, clk) == IssuedIn(now, w, k)
  {
    assert Shown(true);
  }

  lemma SentAddressed(d: Dram, a: Accepted, call: Call, max: nat, clk: int)
    requires AllAddressed(d, a.p) && Addressed(d, (call.kind, call.addrVec))
    ensures AllAddressed(d, Received(a, call, max, clk).p)
  {
    var b := Received(a, call, max, clk);
    forall n: Name, i {:trigger b.p.Get(n)[i]} | 0 <= i < |b.p.Get(n)|
      ensures Addressed(d, (b.p.Get(n)[i].kind, b.p.Get(n)[i].addrVec))
    {
      if i < |a.p.Get(n)| { assert b.p.Get(n)[i] == a.p.Get(n)[i]; }
    }
  }

  /** One request. */
  method Take(c: Controller, d: Dram, call: Call)
    requires c.Inv() && AllAddressed(d, c.Now()) && Addressed(d, (call.kind, call.addrVec))
    modifies c`readq, c`writeq, c`otherq, c`pending, c`accepted
    ensures c.Inv() && AllAddressed(d, c.Now())
    ensures c.Current() == ControllerRun.After(old(c.Current()), ControllerRun.Send(call), c.Setup())
  {
    SentAddressed(d, Accepted(c.Now(), c.accepted), call, c.max, c.clk);
    var _ := c.Enqueue(call);
  }

  lemma OneMoreSeen(events: seq<Event>, n: nat, next: nat, steps: seq<ControllerRun.Event>, w: ControllerRun.Event)
    requires n < |events| && next == n + 1 && AllSeenAs(events[..n], steps) && SeenAs(events[n], w)
    ensures AllSeenAs(events[..next], steps + [w])
  {
    forall i | 0 <= i < next ensures SeenAs(events[..next][i], (steps + [w])[i]) {
      if i < n { assert events[..n][i] == events[..next][i]; }
    }
  }

  /** In a run on the channel the data bus is free for each access. */
  lemma BusIsFree(d: Dram, s: Speed, run: seq<Issue>)
    requires d.Tree() && (IsDdr4(d.table, s) || IsAllBank(d.table, s)) && Legal(d.table, d.org, run)
    requires forall i :: 0 <= i < |run| ==> Named(d, run[i])
    ensures DramSeparation.BusFree(s, run)
  {
    forall i | 0 <= i < |run| ensures |run[i].addr| > RANK && Reaches(d.org, run[i], RANK) {
      assert Named(d, run[i]);
      DramSeparation.CommandsReach(d.org, run[i]);
    }
    DramSeparation.BusStaysFree(if IsDdr4(d.table, s) then PerBank else AllBanks, d.table, s, d.org, run);
  }

  /** Controller and channel through any run of requests and cycles: the commands that the controller issues are legal,
      every access finds its row open, the tables and states stand for the run, and the controller keeps conservation
      and accounting and is where ControllerRun says, so that pending reads are reported in time. */
  method Drive(c: Controller, d: Dram, kind: Standard, s: Speed, events: seq<Event>)
    returns (ghost steps: seq<ControllerRun.Event>, ghost run: seq<Issue>)
    requires c.Inv() && AllAddressed(d, c.Now()) && c.clk >= 0 && d.Tree() && d.Initial()
    requires (IsDdr4(d.table, s) || IsAllBank(d.table, s)) && forall i :: 0 <= i < |events| ==> EventFits(d, events[i])
    modifies c, c.meter, d.nodes
    ensures c.Inv() && AllSeenAs(events, steps) && Reached(old(c.Current()), steps, c.Setup(), c.Current(), run)
    ensures Legal(d.table, d.org, run) && d.Knows(run) && InOrder(d, kind) && RowsKept(d, kind, run)
    ensures DramSeparation.BusFree(s, run)
  {
    ghost var from := c.Current();
    steps, run := [], [];
    InitiallyConsistent(d, kind);
    Later(d, kind, run, 0, c.clk + 1);
    var n, clk := 0, c.clk + 1;
    while n < |events|
      invariant n <= |events| && c.Inv() && AllAddressed(d, c.Now()) && clk == c.clk + 1
                && Consistent(d, kind, run, clk)
      invariant AllSeenAs(events[..n], steps) && Reached(from, steps, c.Setup(), c.Current(), run)
    {
      ghost var now := c.Current();
      match events[n] {
        case Send(call) =>
          Take(c, d, call);
          assert run + [] == run;
          StepReaches(from, steps, c.Setup(), now, run, ControllerRun.Send(call), c.Current(), []);
          OneMoreSeen(events, n, n + 1, steps, ControllerRun.Send(call));
          steps := steps + [ControllerRun.Send(call)];
        case Pass(turn) =>
          ghost var e, issued := Cycle(c, d, kind, s, turn, clk, run);
          CycleIssues(now, turn.ab, e, c.Setup(), c.Current(), issued, clk);
          StepReaches(from, steps, c.Setup(), now, run, ControllerRun.Cycle(e, turn.ab), c.Current(),
                      IssuesOf(issued, clk));
          OneMoreSeen(events, n, n + 1, steps, ControllerRun.Cycle(e, turn.ab));
          steps, run, clk := steps + [ControllerRun.Cycle(e, turn.ab)], run + IssuesOf(issued, clk), clk + 1;
      }
      n := n + 1;
    }
    assert events[..n] == events;
    Unfold(d, kind, run, clk);
    BusIsFree(d, s, run);
  }
}
