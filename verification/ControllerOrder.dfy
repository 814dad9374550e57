/** Which request a cycle serves and what becomes of it, by the places before and after (Controller.h, tick). */
module ControllerOrder {
  import opened DramSpec
  import opened ControllerQueues
  import opened ControllerSpec
  import ControllerRun

  /** The request that the scheduler puts first in a queue has a ready command. */
  ghost predicate Ready(q: seq<Request>, e: Environment)
    requires IsEnvironment(e)
  {
    q != [] && e.ready(q[e.head(q)].kind, q[e.head(q)].addrVec)
  }

  ghost function First(q: seq<Request>, e: Environment): Request
    requires IsEnvironment(e) && q != []
  {
    q[e.head(q)]
  }

  ghost function Next(q: seq<Request>, e: Environment): Command
    requires IsEnvironment(e) && q != []
  {
    e.decode(q[e.head(q)].kind, q[e.head(q)].addrVec)
  }

  /** The one command issued is that of the first request; only an access may come with auto-precharge. */
  ghost predicate Issues(issued: seq<(Command, seq<int>)>, q: seq<Request>, e: Environment)
    requires IsEnvironment(e) && q != []
  {
    && |issued| == 1 && issued[0].1 == First(q, e).addrVec
    && (issued[0].0 == Next(q, e)
        || (Next(q, e) == RD && issued[0].0 == RDA) || (Next(q, e) == WR && issued[0].0 == WRA))
  }

  /** Nothing but the row policy's PRE. */
  predicate Speculates(issued: seq<(Command, seq<int>)>, e: Environment)
  {
    issued == if e.victim == [] then [] else [(PRE, e.victim)]
  }

  /** The first three steps leave the activated requests alone, and the others only grow. */
  lemma GatheredExtends(c: Snapshot, ab: bool, e: Environment, k: Parameters)
    ensures var p := Prepared(c, ab, e, k).p;
            && p.actq == c.p.actq && c.p.readq <= p.readq && c.p.writeq <= p.writeq && c.p.otherq <= p.otherq
            && p.done == c.p.done
  {
    var a := Accepted(c.p, c.count);
    ReceivedExtends(a.(p := Reported(c.p, c.clk + 1)), e.onRead, k.max, c.clk + 1);
    RefreshKeeps(Answered(a, e.onRead, k.max, c.clk + 1), e.refreshes, k.max, c.clk + 1);
  }

  lemma StartedElsewhere(p: Places, n: Name, i: nat, m: Name)
    requires i < |p.Get(n)| && m != n
    ensures Started(p, n, i).Get(m) == p.Get(m)
  {
  }

  lemma CompletedElsewhere(p: Places, n: Name, i: nat, depart: int, m: Name)
    requires i < |p.Get(n)| && m != n
    ensures Completion(p, n, i, depart).Get(m) == p.Get(m)
  {
  }

  lemma PromotedElsewhere(p: Places, n: Name, i: nat, m: Name)
    requires i < |p.Get(n)| && m != n
    ensures p.Get(m) <= Promotion(p, n, i).Get(m) && (m != ActQ ==> Promotion(p, n, i).Get(m) == p.Get(m))
  {
  }

  lemma ExtendsGet(p: Places, q: Places, m: Name)
    requires Extends(p, q)
    ensures p.Get(m) <= q.Get(m) && p.actq == q.actq
  {
  }

  lemma FinishedElsewhere(a: Accepted, n: Name, i: nat, e: Environment, k: Parameters, clk: int, m: Name)
    requires i < |a.p.Get(n)| && m != n
    ensures a.p.Get(m) <= Finished(a, n, i, e, k, clk).p.Get(m)
    ensures m == ActQ ==> Finished(a, n, i, e, k, clk).p.Get(m) == a.p.Get(m)
  {
    var b := if a.p.Get(n)[i].kind == Write then AllReceived(a, e.onWrite, k.max, clk) else a;
    ReceivedExtends(a, e.onWrite, k.max, clk);
    ExtendsGet(a.p, b.p, m);
    ExtendsGet(a.p, b.p, n);
    CompletedElsewhere(b.p, n, i, clk + k.readLatency, m);
  }

  lemma ContinuedElsewhere(a: Accepted, n: Name, i: nat, cmd: Command, e: Environment, k: Parameters, clk: int, m: Name)
    requires i < |a.p.Get(n)| && m != n
    ensures a.p.Get(m) <= Continuation(a, n, i, cmd, e, k, clk).p.Get(m)
    ensures cmd != ACT && m == ActQ ==> Continuation(a, n, i, cmd, e, k, clk).p.Get(m) == a.p.Get(m)
  {
    if cmd == Translate(a.p.Get(n)[i].kind) {
      FinishedElsewhere(a, n, i, e, k, clk, m);
    } else if cmd == ACT {
      PromotedElsewhere(a.p, n, i, m);
    }
  }

  /** Serving a request of queue n only adds to the other queues: what the sender of a write sends, or n's request. */
  lemma StepExtends(c: Snapshot, ab: bool, n: Name, i: nat, e: Environment, k: Parameters, m: Name)
    requires IsEnvironment(e) && i < |c.p.Get(n)| && m != n
    ensures c.p.Get(m) <= Stepped(c, ab, n, i, e, k).p.Get(m)
    ensures e.decode(c.p.Get(n)[i].kind, c.p.Get(n)[i].addrVec) != ACT && m == ActQ ==>
              Stepped(c, ab, n, i, e, k).p.Get(m) == c.p.Get(m)
  {
    var cmd := e.decode(c.p.Get(n)[i].kind, c.p.Get(n)[i].addrVec);
    StartedElsewhere(c.p, n, i, m);
    ContinuedElsewhere(Accepted(Started(c.p, n, i), c.count), n, i, cmd, e, k, c.clk, m);
  }

  lemma IssuesOf(b: Snapshot, e: Environment, k: Parameters, n: Name)
    requires IsEnvironment(e) && b.p.Get(n) != [] && Ready(b.p.Get(n), e)
             && Chosen(b.p, b.mode.write, e) == Choice(n, e.head(b.p.Get(n)), true)
    ensures Issues(IssuedBy(b, e, k), b.p.Get(n), e)
  {
  }

  /** Activated requests come first: if theirs is ready its command is issued, and nothing is taken from a queue. */
  lemma ActivatedFirst(c: Snapshot, ab: bool, e: Environment, k: Parameters)
    requires IsEnvironment(e) && Ready(c.p.actq, e)
    ensures Issues(IssuedBy(Prepared(c, ab, e, k), e, k), c.p.actq, e)
    ensures var next := Ticked(c, ab, e, k).p;
            c.p.readq <= next.readq && c.p.writeq <= next.writeq && c.p.otherq <= next.otherq
  {
    var b := Prepared(c, ab, e, k);
    GatheredExtends(c, ab, e, k);
    assert b.p.Get(ActQ) == c.p.actq;
    var i := e.head(b.p.actq);
    var ch := Choice(ActQ, i, true);
    assert Chosen(b.p, b.mode.write, e) == ch;
    IssuesOf(b, e, k, ActQ);
    var from := b.(mode := Unblocked(ab, b.mode, ch));
    StepExtends(from, ab, ActQ, i, e, k, ReadQ);
    StepExtends(from, ab, ActQ, i, e, k, WriteQ);
    StepExtends(from, ab, ActQ, i, e, k, OtherQ);
  }

  /** The rare requests come next: while there is one, after this cycle's refreshes, and no activated request is ready,
      no request of the data queues is marked, promoted or finished. */
  lemma OthersBeforeData(c: Snapshot, ab: bool, e: Environment, k: Parameters)
    requires IsEnvironment(e) && !Ready(c.p.actq, e) && Prepared(c, ab, e, k).p.otherq != []
    ensures var next := Ticked(c, ab, e, k).p; c.p.readq <= next.readq && c.p.writeq <= next.writeq
    ensures var b := Prepared(c, ab, e, k);
            if Ready(b.p.otherq, e) then Issues(IssuedBy(b, e, k), b.p.otherq, e)
            else Speculates(IssuedBy(b, e, k), e) && Ticked(c, ab, e, k) == b
  {
    var b := Prepared(c, ab, e, k);
    GatheredExtends(c, ab, e, k);
    assert b.p.Get(ActQ) == c.p.actq;
    var i := e.head(b.p.otherq);
    assert Chosen(b.p, b.mode.write, e) == Choice(OtherQ, i, Ready(b.p.otherq, e));
    if Ready(b.p.otherq, e) {
      IssuesOf(b, e, k, OtherQ);
      StepExtends(b, ab, OtherQ, i, e, k, ReadQ);
      StepExtends(b, ab, OtherQ, i, e, k, WriteQ);
    }
  }

  function Favoured(write: bool): Name { if write then WriteQ else ReadQ }

  /** Then the queue that the mode favours; the other data queue has to wait, ready or not. */
  lemma DataByMode(c: Snapshot, ab: bool, e: Environment, k: Parameters)
    requires IsEnvironment(e) && !Ready(c.p.actq, e) && Prepared(c, ab, e, k).p.otherq == []
    ensures var b := Prepared(c, ab, e, k);
            var next := Ticked(c, ab, e, k).p;
            if b.mode.write then c.p.readq <= next.readq else c.p.writeq <= next.writeq
    ensures var b := Prepared(c, ab, e, k);
            var q := if b.mode.write then b.p.writeq else b.p.readq;
            if Ready(q, e) then Issues(IssuedBy(b, e, k), q, e)
            else Speculates(IssuedBy(b, e, k), e) && Ticked(c, ab, e, k) == b
  {
    var b := Prepared(c, ab, e, k);
    var n := Favoured(b.mode.write);
    var q := b.p.Get(n);
    GatheredExtends(c, ab, e, k);
    assert b.p.Get(ActQ) == c.p.actq;
    assert Chosen(b.p, b.mode.write, e) == HeadOf(b.p, n, e);
    if Ready(q, e) {
      IssuesOf(b, e, k, n);
      StepExtends(b, ab, n, e.head(q), e, k, Favoured(!b.mode.write));
    }
  }

  /** The command that ends a request. */
  predicate Ends(kind: Kind, cmd: Command)
  {
    || (kind == Read && cmd == RD) || (kind == Write && cmd == WR) || (kind == Refresh && cmd == REF)
    || (kind == PowerDown && cmd == PDE) || (kind == SelfRefresh && cmd == SRE)
  }

  function Without(q: seq<Request>, i: nat): seq<Request>
    requires i < |q|
  {
    q[..i] + q[i + 1..]
  }

  /** The i-th request of queue n has ended: it leaves its queue; a read is pending until its data are there, a write is
      reported, any other is done. */
  ghost predicate Ended(p: Places, n: Name, i: nat, depart: int, next: Places)
    requires i < |p.Get(n)|
  {
    var r := p.Get(n)[i];
    && Without(p.Get(n), i) <= next.Get(n) && (r.kind != Write ==> next.Get(n) == Without(p.Get(n), i))
    && (r.kind == Read ==>
          && next.pending == p.pending + [r.(first := false, depart := depart)]
          && next.reported == p.reported && next.done == p.done)
    && (r.kind == Write ==> p.pending <= next.pending && next.reported == p.reported + [r.id] && next.done == p.done)
    && (!IsData(r.kind) ==>
          next.pending == p.pending && next.reported == p.reported && next.done == p.done + [r.id])
  }

  /** It has been activated: it is the last of the activated requests. */
  ghost predicate Activated(p: Places, n: Name, i: nat, next: Places)
    requires i < |p.Get(n)|
  {
    && next.actq == (if n == ActQ then Without(p.actq, i) else p.actq) + [p.Get(n)[i].(first := false)]
    && (n != ActQ ==> next.Get(n) == Without(p.Get(n), i))
    && next.pending == p.pending && next.reported == p.reported && next.done == p.done
  }

  /** It keeps its place. */
  ghost predicate Kept(p: Places, n: Name, i: nat, next: Places)
    requires i < |p.Get(n)|
  {
    && next.Get(n) == p.Get(n)[i := p.Get(n)[i].(first := false)]
    && next.pending == p.pending && next.reported == p.reported && next.done == p.done
  }

  lemma EndsIt(p: Places, q: Places, n: Name, i: nat, depart: int)
    requires i < |p.Get(n)| && Extends(Started(p, n, i), q) && i < |q.Get(n)|
             && (p.Get(n)[i].kind != Write ==> q == Started(p, n, i))
    ensures Ended(p, n, i, depart, Completion(q, n, i, depart))
  {
    ExtendsGet(Started(p, n, i), q, n);
    var marked := p.Get(n)[i := p.Get(n)[i].(first := false)];
    assert Started(p, n, i).Get(n) == marked && marked <= q.Get(n) && q.Get(n)[i] == marked[i];
    assert Without(p.Get(n), i) == Without(marked, i) <= Erase(q.Get(n), i);
    assert Completion(q, n, i, depart).Get(n) == Erase(q.Get(n), i);
  }

  lemma FinishEnds(c: Snapshot, n: Name, i: nat, e: Environment, k: Parameters)
    requires i < |c.p.Get(n)|
    ensures i < |Started(c.p, n, i).Get(n)|
    ensures Ended(c.p, n, i, c.clk + k.readLatency,
                  Finished(Accepted(Started(c.p, n, i), c.count), n, i, e, k, c.clk).p)
  {
    var a := Accepted(Started(c.p, n, i), c.count);
    var b := if a.p.Get(n)[i].kind == Write then AllReceived(a, e.onWrite, k.max, c.clk) else a;
    ReceivedExtends(a, e.onWrite, k.max, c.clk);
    ExtendsGet(a.p, b.p, n);
    EndsIt(c.p, b.p, n, i, c.clk + k.readLatency);
  }

  lemma PromotionActivates(p: Places, n: Name, i: nat)
    requires i < |p.Get(n)|
    ensures i < |Started(p, n, i).Get(n)| && Activated(p, n, i, Promotion(Started(p, n, i), n, i))
  {
    var marked := p.Get(n)[i := p.Get(n)[i].(first := false)];
    assert Started(p, n, i).Get(n) == marked;
    assert Without(marked, i) == Without(p.Get(n), i);
    if n == ActQ { assert Erase(marked + [marked[i]], i) == Without(p.actq, i) + [marked[i]]; }
  }

  /** What becomes of a served request. */
  ghost predicate Serves(p: Places, n: Name, i: nat, cmd: Command, depart: int, next: Places)
    requires i < |p.Get(n)|
  {
    if Ends(p.Get(n)[i].kind, cmd) then Ended(p, n, i, depart, next)
    else if cmd == ACT then Activated(p, n, i, next)
    else Kept(p, n, i, next)
  }

  lemma StepServes(c: Snapshot, ab: bool, n: Name, i: nat, e: Environment, k: Parameters)
    requires IsEnvironment(e) && i < |c.p.Get(n)|
    ensures Serves(c.p, n, i, e.decode(c.p.Get(n)[i].kind, c.p.Get(n)[i].addrVec), c.clk + k.readLatency,
                   Stepped(c, ab, n, i, e, k).p)
  {
    var cmd := e.decode(c.p.Get(n)[i].kind, c.p.Get(n)[i].addrVec);
    assert Ends(c.p.Get(n)[i].kind, cmd) <==> cmd == Translate(c.p.Get(n)[i].kind);
    FinishEnds(c, n, i, e, k);
    PromotionActivates(c.p, n, i);
  }

  /** The queue served: activated requests, the rare others, or the queue that the mode favours. */
  ghost predicate HasTurn(b: Snapshot, n: Name, e: Environment)
    requires IsEnvironment(e)
  {
    match n
    case ActQ => true
    case OtherQ => !Ready(b.p.actq, e)
    case _ => !Ready(b.p.actq, e) && b.p.otherq == [] && b.mode.write == (n == WriteQ)
  }

  lemma TurnIsChosen(b: Snapshot, n: Name, e: Environment)
    requires IsEnvironment(e) && HasTurn(b, n, e) && Ready(b.p.Get(n), e)
    ensures Chosen(b.p, b.mode.write, e) == Choice(n, e.head(b.p.Get(n)), true)
  {
    assert b.p.Get(ActQ) == b.p.actq && b.p.Get(OtherQ) == b.p.otherq;
  }

  /** The first request of the queue whose turn it is gets its next command: it ends, it is activated, or it waits. */
  lemma TurnServes(c: Snapshot, ab: bool, e: Environment, k: Parameters, n: Name)
    requires IsEnvironment(e) && HasTurn(Prepared(c, ab, e, k), n, e) && Ready(Prepared(c, ab, e, k).p.Get(n), e)
    ensures var p := Prepared(c, ab, e, k).p;
            Serves(p, n, e.head(p.Get(n)), Next(p.Get(n), e), c.clk + 1 + k.readLatency, Ticked(c, ab, e, k).p)
  {
    var b := Prepared(c, ab, e, k);
    TurnIsChosen(b, n, e);
    var from := b.(mode := Unblocked(ab, b.mode, Choice(n, e.head(b.p.Get(n)), true)));
    StepServes(from, ab, n, e.head(b.p.Get(n)), e, k);
  }

  /** In tick, writes go first exactly if no read waits, or the write queue has filled beyond the high mark and has not
      yet fallen below the low one. */
  lemma WritesGoFirst(c: Snapshot, e: Environment, k: Parameters)
    ensures var b := Prepared(c, false, e, k);
            b.mode.write <==>
              b.p.readq == [] || (if c.mode.write then |b.p.writeq| >= k.low else |b.p.writeq| > k.high)
  {
  }

  /** In tick_AB, the only queue with requests goes first, unless an activation has fixed the mode. */
  lemma OnlyQueueGoesFirst(c: Snapshot, e: Environment, k: Parameters)
    ensures var b := Prepared(c, true, e, k);
            && b.mode.blocked == c.mode.blocked
            && (!c.mode.blocked && b.p.readq != [] && b.p.writeq == [] ==> !b.mode.write)
            && (!c.mode.blocked && b.p.readq == [] && b.p.writeq != [] ==> b.mode.write)
            && (c.mode.blocked || (b.p.readq == [] <==> b.p.writeq == []) ==> b.mode.write == c.mode.write)
  {
  }

  /** After a request has ended in tick_AB, the data queue goes first whose first request came first, and writes before
      reads that came in the same cycle. */
  lemma OlderGoesFirst(c: Snapshot, e: Environment, k: Parameters, n: Name)
    requires IsEnvironment(e) && HasTurn(Prepared(c, true, e, k), n, e) && Ready(Prepared(c, true, e, k).p.Get(n), e)
    ensures var r, cmd := First(Prepared(c, true, e, k).p.Get(n), e), Next(Prepared(c, true, e, k).p.Get(n), e);
            var next := Ticked(c, true, e, k);
            && (Ends(r.kind, cmd) && next.p.readq != [] && next.p.writeq != [] ==>
                  (next.mode.write <==> First(next.p.writeq, e).arrive <= First(next.p.readq, e).arrive))
            && (Ends(r.kind, cmd) && next.p.readq != [] && next.p.writeq == [] ==> !next.mode.write)
            && (Ends(r.kind, cmd) && next.p.readq == [] && next.p.writeq != [] ==> next.mode.write)
            && (cmd == ACT ==> next.mode == Mode(r.kind == Write, true))
  {
    var b := Prepared(c, true, e, k);
    TurnIsChosen(b, n, e);
    var i := e.head(b.p.Get(n));
    var r := b.p.Get(n)[i];
    var from := b.(mode := Unblocked(true, b.mode, Choice(n, i, true)));
    assert Started(b.p, n, i).Get(n)[i].kind == r.kind;
    assert Ticked(c, true, e, k) == Stepped(from, true, n, i, e, k);
    assert Ends(r.kind, e.decode(r.kind, r.addrVec)) <==> e.decode(r.kind, r.addrVec) == Translate(r.kind);
  }

  function Fitting(max: nat, queued: nat, wanted: nat): nat
    requires queued <= max
  {
    if wanted <= max - queued then wanted else max - queued
  }

  function RefreshRequest(count: int, addrVec: seq<int>, clk: int): Request
  {
    Request(count, Refresh, -1, addrVec, true, clk, -1)
  }

  /** Of the refreshes wanted, those that fit are queued, in order. */
  lemma {:induction false} RefreshesQueued(a: Accepted, refreshes: seq<seq<int>>, max: nat, clk: int, n: nat)
    requires |a.p.otherq| <= max && n == Fitting(max, |a.p.otherq|, |refreshes|)
    ensures var q := Refreshed(a, refreshes, max, clk).p.otherq;
            && |q| == |a.p.otherq| + n && a.p.otherq <= q
            && forall j :: 0 <= j < n ==> q[|a.p.otherq| + j] == RefreshRequest(a.count + j, refreshes[j], clk)
    ensures Refreshed(a, refreshes, max, clk).count == a.count + n
  {
    if refreshes != [] {
      var before := refreshes[..|refreshes| - 1];
      RefreshesQueued(a, before, max, clk, Fitting(max, |a.p.otherq|, |before|));
    }
  }

  ghost predicate OthersRare(p: Places) { forall j :: 0 <= j < |p.otherq| ==> !IsData(p.otherq[j].kind) }

  /** A cycle in which no activated request is ready, but the first of the rare ones is, and no more arrive. */
  ghost predicate Clears(c: Snapshot, v: ControllerRun.Event, k: Parameters)
    requires ControllerRun.IsEvent(v)
  {
    && v.Cycle? && !Ready(c.p.actq, v.env) && Ready(c.p.otherq, v.env)
    && Prepared(c, v.ab, v.env, k).p.otherq == c.p.otherq
  }

  /** In this cycle the first of the rare requests ends. */
  ghost predicate EndsOne(c: Snapshot, v: ControllerRun.Event)
    requires ControllerRun.IsEvent(v)
  {
    v.Cycle? && c.p.otherq != [] && Ends(First(c.p.otherq, v.env).kind, Next(c.p.otherq, v.env))
  }

  /** A rare request that is still queued, or done. */
  ghost predicate Known(p: Places, id: int) { id in p.done || exists j :: 0 <= j < |p.otherq| && p.otherq[j].id == id }

  lemma ClearingStep(c: Snapshot, v: ControllerRun.Event, k: Parameters, next: Snapshot)
    requires ControllerRun.IsEvent(v) && Clears(c, v, k) && OthersRare(c.p) && next == ControllerRun.After(c, v, k)
    ensures Serves(Prepared(c, v.ab, v.env, k).p, OtherQ, v.env.head(c.p.otherq), Next(c.p.otherq, v.env),
                   c.clk + 1 + k.readLatency, next.p)
    ensures Next(c.p.otherq, v.env) != ACT && Prepared(c, v.ab, v.env, k).p.done == c.p.done
  {
    GatheredExtends(c, v.ab, v.env, k);
    assert Prepared(c, v.ab, v.env, k).p.Get(OtherQ) == c.p.otherq;
    TurnServes(c, v.ab, v.env, k, OtherQ);
  }

  /** Such a cycle takes one request from the queue if it ends it, and none otherwise. */
  lemma ClearingCounts(c: Snapshot, v: ControllerRun.Event, k: Parameters, next: Snapshot)
    requires ControllerRun.IsEvent(v) && Clears(c, v, k) && OthersRare(c.p) && next == ControllerRun.After(c, v, k)
    ensures OthersRare(next.p) && |next.p.otherq| == |c.p.otherq| - if EndsOne(c, v) then 1 else 0
  {
    ClearingStep(c, v, k, next);
    var p := Prepared(c, v.ab, v.env, k).p;
    assert p.Get(OtherQ) == c.p.otherq && next.p.Get(OtherQ) == next.p.otherq;
  }

  lemma EndedKnows(p: Places, i: nat, depart: int, next: Places, id: int, j: nat)
    requires i < |p.otherq| && j < |p.otherq| && p.otherq[j].id == id && !IsData(p.otherq[i].kind)
    requires p.Get(OtherQ) == p.otherq && Ended(p, OtherQ, i, depart, next)
    ensures Known(next, id)
  {
    assert next.Get(OtherQ) == next.otherq;
    if j == i {
      assert next.done[|p.done|] == id;
    } else {
      assert next.otherq[if j < i then j else j - 1] == p.otherq[j];
    }
  }

  lemma ServedKnows(p: Places, i: nat, cmd: Command, depart: int, next: Places, id: int)
    requires i < |p.otherq| && !IsData(p.otherq[i].kind) && cmd != ACT && Known(p, id)
    requires p.Get(OtherQ) == p.otherq && Serves(p, OtherQ, i, cmd, depart, next)
    ensures Known(next, id)
  {
    assert next.Get(OtherQ) == next.otherq;
    if id in p.done {
      var j :| 0 <= j < |p.done| && p.done[j] == id;
      assert next.done[j] == id;
    } else {
      var j: nat :| j < |p.otherq| && p.otherq[j].id == id;
      if Ends(p.otherq[i].kind, cmd) {
        EndedKnows(p, i, depart, next, id, j);
      } else {
        assert next.otherq[j].id == id;
      }
    }
  }

  lemma ClearingKnows(c: Snapshot, v: ControllerRun.Event, k: Parameters, next: Snapshot, id: int)
    requires ControllerRun.IsEvent(v) && Clears(c, v, k) && OthersRare(c.p) && next == ControllerRun.After(c, v, k)
    requires Known(c.p, id)
    ensures Known(next.p, id)
  {
    ClearingStep(c, v, k, next);
    var p := Prepared(c, v.ab, v.env, k).p;
    assert p.Get(OtherQ) == c.p.otherq;
    ServedKnows(p, v.env.head(c.p.otherq), Next(c.p.otherq, v.env), c.clk + 1 + k.readLatency, next.p, id);
  }

  /** The state before the n-th event. */
  ghost function At(c: Snapshot, events: seq<ControllerRun.Event>, k: Parameters, n: nat): Snapshot
    requires n <= |events| && forall j :: 0 <= j < |events| ==> ControllerRun.IsEvent(events[j])
  {
    ControllerRun.Ran(c, events[..n], k)
  }

  lemma OneFurther(c: Snapshot, events: seq<ControllerRun.Event>, k: Parameters, n: nat, next: nat)
    requires n < |events| && next == n + 1 && forall j :: 0 <= j < |events| ==> ControllerRun.IsEvent(events[j])
    ensures At(c, events, k, next) == ControllerRun.After(At(c, events, k, n), events[n], k)
  {
    assert events[..next][..n] == events[..n];
  }

  /** Cycles that serve the rare requests only, and after a prerequisite the request's own command. */
  ghost predicate ClearsAll(c: Snapshot, events: seq<ControllerRun.Event>, k: Parameters)
    requires forall j :: 0 <= j < |events| ==> ControllerRun.IsEvent(events[j])
  {
    && (forall n :: 0 <= n < |events| && At(c, events, k, n).p.otherq != [] ==>
          Clears(At(c, events, k, n), events[n], k))
    && (forall m, n :: 0 <= m < n < |events| && n == m + 1 && At(c, events, k, n).p.otherq != [] ==>
          EndsOne(At(c, events, k, m), events[m]) || EndsOne(At(c, events, k, n), events[n]))
  }

  /** Two cycles for each request. */
  lemma {:induction false} Debt(c: Snapshot, events: seq<ControllerRun.Event>, k: Parameters, n: nat)
    requires (forall j :: 0 <= j < |events| ==> ControllerRun.IsEvent(events[j])) && ClearsAll(c, events, k)
    requires n <= |events| && OthersRare(c.p) && forall m :: 0 <= m < n ==> At(c, events, k, m).p.otherq != []
    ensures OthersRare(At(c, events, k, n).p)
    ensures 2 * |At(c, events, k, n).p.otherq| + n
            <= 2 * |c.p.otherq| + if n > 0 && !EndsOne(At(c, events, k, n - 1), events[n - 1]) then 1 else 0
  {
    if n > 0 {
      Debt(c, events, k, n - 1);
      OneFurther(c, events, k, n - 1, n);
      ClearingCounts(At(c, events, k, n - 1), events[n - 1], k, At(c, events, k, n));
    }
  }

  lemma {:induction false} StillKnown(c: Snapshot, events: seq<ControllerRun.Event>, k: Parameters, n: nat, id: int)
    requires (forall j :: 0 <= j < |events| ==> ControllerRun.IsEvent(events[j])) && ClearsAll(c, events, k)
    requires n <= |events| && OthersRare(c.p) && forall m :: 0 <= m < n ==> At(c, events, k, m).p.otherq != []
    requires Known(c.p, id)
    ensures Known(At(c, events, k, n).p, id)
  {
    if n > 0 {
      Debt(c, events, k, n - 1);
      StillKnown(c, events, k, n - 1, id);
      OneFurther(c, events, k, n - 1, n);
      ClearingKnows(At(c, events, k, n - 1), events[n - 1], k, At(c, events, k, n), id);
    }
  }

  lemma {:induction false} FirstEmpty(c: Snapshot, events: seq<ControllerRun.Event>, k: Parameters, upTo: nat)
    returns (n: nat)
    requires (forall j :: 0 <= j < |events| ==> ControllerRun.IsEvent(events[j])) && upTo <= |events|
    ensures n <= upTo && forall m :: 0 <= m < n ==> At(c, events, k, m).p.otherq != []
    ensures n < upTo ==> At(c, events, k, n).p.otherq == []
  {
    n := 0;
    while n < upTo && At(c, events, k, n).p.otherq != []
      invariant n <= upTo && forall m :: 0 <= m < n ==> At(c, events, k, m).p.otherq != []
    {
      n := n + 1;
    }
  }

  /** No refresh is passed over for ever: within two cycles for each rare request in which no activated request is ready
      but the first of the rare ones is, their queue is empty and they are all done. */
  lemma OthersServed(c: Snapshot, events: seq<ControllerRun.Event>, k: Parameters) returns (n: nat)
    requires (forall j :: 0 <= j < |events| ==> ControllerRun.IsEvent(events[j])) && ClearsAll(c, events, k)
    requires OthersRare(c.p) && |events| >= 2 * |c.p.otherq|
    ensures n <= 2 * |c.p.otherq| && At(c, events, k, n).p.otherq == []
    ensures forall j :: 0 <= j < |c.p.otherq| ==> c.p.otherq[j].id in At(c, events, k, n).p.done
  {
    n := FirstEmpty(c, events, k, 2 * |c.p.otherq|);
    Debt(c, events, k, n);
    forall j | 0 <= j < |c.p.otherq| ensures c.p.otherq[j].id in At(c, events, k, n).p.done {
      StillKnown(c, events, k, n, c.p.otherq[j].id);
    }
  }
}
