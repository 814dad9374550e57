/** One cycle of the memory controller as a function of its state and its surroundings (Controller.h). */
module ControllerSpec {
  import opened DramSpec
  import DramLegal
  import opened DramState
  import opened ControllerQueues

  datatype Name = ReadQ | WriteQ | ActQ | OtherQ

  /** Where every accepted request is: in a queue, pending, reported to its sender, or done without a report. */
  datatype Places = Places(readq: seq<Request>, writeq: seq<Request>, actq: seq<Request>, otherq: seq<Request>,
                           pending: seq<Request>, reported: seq<int>, done: seq<int>)
  {
    function Get(n: Name): seq<Request>
    {
      match n
      case ReadQ => readq
      case WriteQ => writeq
      case ActQ => actq
      case OtherQ => otherq
    }

    function With(n: Name, q: seq<Request>): Places
    {
      match n
      case ReadQ => this.(readq := q)
      case WriteQ => this.(writeq := q)
      case ActQ => this.(actq := q)
      case OtherQ => this.(otherq := q)
    }
  }

  /** The part of an address down to the row. */
  function RowGroup(addrVec: seq<int>): seq<int> { if |addrVec| > ROW then addrVec[..ROW + 1] else addrVec }

  /** The i-th request of queue n, moved to the queue of activated requests. */
  function Promotion(p: Places, n: Name, i: nat): Places
    requires i < |p.Get(n)|
  {
    var m := p.With(ActQ, p.actq + [p.Get(n)[i]]);
    m.With(n, Erase(m.Get(n), i))
  }

  /** The i-th request of queue n, finished: a read is pending until depart, a write is reported, any other is done. */
  function Completion(p: Places, n: Name, i: nat, depart: int): Places
    requires i < |p.Get(n)|
  {
    var r := p.Get(n)[i];
    var rest := p.With(n, Erase(p.Get(n), i));
    match r.kind
    case Read => rest.(pending := p.pending + [r.(depart := depart)])
    case Write => rest.(reported := p.reported + [r.id])
    case _ => rest.(done := p.done + [r.id])
  }

  /** A request that is sent by enqueue, or with ab by enqueue_AB. */
  datatype Call = Call(kind: Kind, addr: int, addrVec: seq<int>, ab: bool)

  /** What the controller asks of the scheduler, the DRAM and the row policy in one tick: arbitrary answers, as far as
      decode's contract goes (HitsWhenReady in DramState is its counterpart for a row hit). The victim is the bank that
      the row policy closes, if any; the calls are those that the callbacks of the read and of the write make. */
  datatype Environment = Environment(head: seq<Request> -> nat, decode: (Kind, seq<int>) -> Command,
                                     ready: (Kind, seq<int>) -> bool, hit: (Kind, seq<int>) -> bool,
                                     refreshes: seq<seq<int>>, victim: seq<int>, onRead: seq<Call>, onWrite: seq<Call>)

  ghost predicate IsEnvironment(e: Environment)
  {
    && (forall q: seq<Request> :: q != [] ==> e.head(q) < |q|)
    && (forall k, a :: (e.decode(k, a) == ACT ==> IsData(k)) && e.decode(k, a) != RDA && e.decode(k, a) != WRA
                       && (IsAccess(e.decode(k, a)) ==> e.decode(k, a) == Translate(k) && e.hit(k, a)))
  }

  function QueueOf(k: Kind): Name { match k case Read => ReadQ case Write => WriteQ case _ => OtherQ }

  /** A new request on its queue; or, for a read of an address that a queued write has, pending. */
  ghost function Arrival(p: Places, r: Request, ab: bool): Places
  {
    if r.kind == Read && !ab && exists i :: 0 <= i < |p.writeq| && p.writeq[i].addr == r.addr
    then p.(pending := p.pending + [r.(depart := r.arrive + 1)])
    else p.With(QueueOf(r.kind), p.Get(QueueOf(r.kind)) + [r])
  }

  datatype Parameters = Parameters(max: nat, high: nat, low: nat, readLatency: nat, closedAp: bool)

  /** Places, and the number of requests accepted so far. */
  datatype Accepted = Accepted(p: Places, count: nat)

  /** enqueue and enqueue_AB: refused when the queue is full. */
  ghost function Received(a: Accepted, c: Call, max: nat, clk: int): Accepted
  {
    if |a.p.Get(QueueOf(c.kind))| == max then a
    else Accepted(Arrival(a.p, Request(a.count, c.kind, c.addr, c.addrVec, true, clk, -1), c.ab), a.count + 1)
  }

  ghost function AllReceived(a: Accepted, calls: seq<Call>, max: nat, clk: int): Accepted
  {
    if calls == [] then a else Received(AllReceived(a, calls[..|calls| - 1], max, clk), calls[|calls| - 1], max, clk)
  }

  predicate Due(p: Places, clk: int) { p.pending != [] && p.pending[0].depart <= clk }

  /** Step 1: the oldest pending read is reported when it is due. */
  function Reported(p: Places, clk: int): Places
  {
    if Due(p, clk) then p.(pending := p.pending[1..], reported := p.reported + [p.pending[0].id]) else p
  }

  /** And its sender is called back. */
  ghost function Answered(a: Accepted, calls: seq<Call>, max: nat, clk: int): Accepted
  {
    if Due(a.p, clk) then AllReceived(a.(p := Reported(a.p, clk)), calls, max, clk) else a
  }

  /** What arrives joins the ends of the queues and of the pending reads. */
  ghost predicate Extends(p: Places, q: Places)
  {
    && p.readq <= q.readq && p.writeq <= q.writeq && p.actq == q.actq && p.otherq <= q.otherq && p.pending <= q.pending
    && p.reported == q.reported && p.done == q.done
  }

  lemma {:induction false} ReceivedExtends(a: Accepted, calls: seq<Call>, max: nat, clk: int)
    ensures Extends(a.p, AllReceived(a, calls, max, clk).p)
  {
    if calls != [] { ReceivedExtends(a, calls[..|calls| - 1], max, clk); }
  }

  /** The request has finished: the sender of a write is called back, while it is still in its queue. */
  ghost function Finished(a: Accepted, n: Name, i: nat, e: Environment, k: Parameters, clk: int): Accepted
    requires i < |a.p.Get(n)|
  {
    var b := if a.p.Get(n)[i].kind == Write then AllReceived(a, e.onWrite, k.max, clk) else a;
    ReceivedExtends(a, e.onWrite, k.max, clk);
    Accepted(Completion(b.p, n, i, clk + k.readLatency), b.count)
  }

  /** After cmd has been issued for the i-th request of queue n: it is finished, or promoted, or still there. */
  ghost function Continuation(a: Accepted, n: Name, i: nat, cmd: Command, e: Environment, k: Parameters,
                              clk: int): Accepted
    requires i < |a.p.Get(n)|
  {
    if cmd == Translate(a.p.Get(n)[i].kind) then Finished(a, n, i, e, k, clk)
    else if cmd == ACT then a.(p := Promotion(a.p, n, i)) else a
  }

  /** Step 2: refresh requests that still fit are queued. */

  function Refreshed(a: Accepted, refreshes: seq<seq<int>>, max: nat, clk: int): Accepted
  {
    if refreshes == [] then a
    else
      var n := |refreshes| - 1;
      var b := Refreshed(a, refreshes[..n], max, clk);
      if |b.p.otherq| == max then b
      else Accepted(b.p.(otherq := b.p.otherq + [Request(b.count, Refresh, -1, refreshes[n], true, clk, -1)]),
                    b.count + 1)
  }

  /** Step 3: hysteresis on the write queue in tick; in tick_AB the populated queue, unless an activation holds the
      mode. */
  function ModeFor(ab: bool, mode: bool, blocked: bool, nr: nat, nw: nat, high: nat, low: nat): bool
  {
    if ab then if blocked || (nr == 0) == (nw == 0) then mode else nr == 0
    else if mode then nw >= low || nr == 0
    else nw > high || nr == 0
  }

  /** The request of a queue that the scheduler puts first, if its next command is ready. */
  datatype Choice = Choice(queue: Name, i: nat, found: bool)

  ghost function HeadOf(p: Places, n: Name, e: Environment): (c: Choice)
    requires IsEnvironment(e)
    ensures c.queue == n && (c.found ==> c.i < |p.Get(n)|)
  {
    if p.Get(n) == [] then Choice(n, 0, false)
    else
      var i := e.head(p.Get(n));
      Choice(n, i, e.ready(p.Get(n)[i].kind, p.Get(n)[i].addrVec))
  }

  /** Activated requests first, then the rare others, then the queue the mode favours. */
  ghost function Chosen(p: Places, mode: bool, e: Environment): (c: Choice)
    requires IsEnvironment(e)
    ensures c.found ==> c.i < |p.Get(c.queue)|
  {
    if HeadOf(p, ActQ, e).found then HeadOf(p, ActQ, e)
    else HeadOf(p, if p.otherq != [] then OtherQ else if mode then WriteQ else ReadQ, e)
  }

  /** The request's first command has been issued. */
  function Started(p: Places, n: Name, i: nat): Places
    requires i < |p.Get(n)|
  {
    p.With(n, p.Get(n)[i := p.Get(n)[i].(first := false)])
  }

  /** The request hits the open row that this address names. */
  predicate HitsRow(r: Request, addrVec: seq<int>, hit: (Kind, seq<int>) -> bool)
  {
    hit(r.kind, r.addrVec) && RowGroup(r.addrVec) == RowGroup(addrVec)
  }

  /** How many requests of a queue do. */
  function RowHits(q: seq<Request>, addrVec: seq<int>, hit: (Kind, seq<int>) -> bool): nat
  {
    if q == [] then 0
    else
      RowHits(q[..|q| - 1], addrVec, hit) + if HitsRow(q[|q| - 1], addrVec, hit) then 1 else 0
  }

  function ModeQueue(p: Places, mode: bool): seq<Request> { if mode then p.writeq else p.readq }

  /** cmd_issue_autoprecharge: an access closes its row if the queue of the mode has one hit for it, or none and the
      queue of activated requests has one. */
  function Upgraded(p: Places, mode: bool, cmd: Command, addrVec: seq<int>, e: Environment, closedAp: bool): Command
  {
    var queued := RowHits(ModeQueue(p, mode), addrVec, e.hit);
    if IsAccess(cmd) && closedAp && (queued == 1 || (queued == 0 && RowHits(p.actq, addrVec, e.hit) == 1))
      then DramLegal.Twin(cmd) else cmd
  }

  /** The mode and its block after a cycle that served the request. */
  datatype Mode = Mode(write: bool, blocked: bool)

  ghost function ByArrival(p: Places, mode: bool, e: Environment): bool
    requires IsEnvironment(e)
  {
    if p.readq != [] && p.writeq != [] then p.writeq[e.head(p.writeq)].arrive <= p.readq[e.head(p.readq)].arrive
    else if p.readq != [] then false
    else p.writeq != [] || mode
  }

  /** tick_AB keeps the mode of an activation until an activated request is ready, and orders the rest by arrival. */
  ghost function ModeServed(ab: bool, mode: Mode, p: Places, c: Choice, cmd: Command, after: Places,
                            e: Environment): Mode
    requires IsEnvironment(e) && c.i < |p.Get(c.queue)|
  {
    if !ab then mode
    else if cmd == Translate(p.Get(c.queue)[c.i].kind) then mode.(write := ByArrival(after, mode.write, e))
    else if cmd == ACT then Mode(p.Get(c.queue)[c.i].kind == Write, true)
    else mode
  }

  datatype Snapshot = Snapshot(p: Places, count: nat, clk: int, mode: Mode)

  ghost function Unblocked(ab: bool, mode: Mode, c: Choice): Mode
  {
    if ab && c.found && c.queue == ActQ then mode.(blocked := false) else mode
  }

  /** The next command of the i-th request of a queue, and where everything is after it. */
  ghost function Stepped(c: Snapshot, ab: bool, n: Name, i: nat, e: Environment, k: Parameters): Snapshot
    requires IsEnvironment(e) && i < |c.p.Get(n)|
  {
    var r := c.p.Get(n)[i];
    var cmd, p := e.decode(r.kind, r.addrVec), Started(c.p, n, i);
    var after := Continuation(Accepted(p, c.count), n, i, cmd, e, k, c.clk);
    Snapshot(after.p, after.count, c.clk, ModeServed(ab, c.mode, p, Choice(n, i, true), cmd, after.p, e))
  }

  lemma SteppedBy(c: Snapshot, ab: bool, n: Name, i: nat, e: Environment, k: Parameters, cmd: Command, p: Places,
                  after: Accepted, mode: Mode)
    requires IsEnvironment(e) && i < |c.p.Get(n)| && cmd == e.decode(c.p.Get(n)[i].kind, c.p.Get(n)[i].addrVec)
    requires p == Started(c.p, n, i) && i < |p.Get(n)|
             && after == Continuation(Accepted(p, c.count), n, i, cmd, e, k, c.clk)
    requires mode == ModeServed(ab, c.mode, p, Choice(n, i, true), cmd, after.p, e)
    ensures Snapshot(after.p, after.count, c.clk, mode) == Stepped(c, ab, n, i, e, k)
  {
  }

  /** Steps 1 to 3, at the new clock. */
  ghost function Prepared(c: Snapshot, ab: bool, e: Environment, k: Parameters): Snapshot
  {
    var a := Refreshed(Answered(Accepted(c.p, c.count), e.onRead, k.max, c.clk + 1), e.refreshes, k.max, c.clk + 1);
    Snapshot(a.p, a.count, c.clk + 1,
          c.mode.(write := ModeFor(ab, c.mode.write, c.mode.blocked, |a.p.readq|, |a.p.writeq|, k.high, k.low)))
  }

  lemma PreparedBy(c: Snapshot, ab: bool, e: Environment, k: Parameters, from: Accepted, a: Accepted, write: bool)
    requires from == Answered(Accepted(c.p, c.count), e.onRead, k.max, c.clk + 1)
             && a == Refreshed(from, e.refreshes, k.max, c.clk + 1)
    requires write == ModeFor(ab, c.mode.write, c.mode.blocked, |a.p.readq|, |a.p.writeq|, k.high, k.low)
    ensures Snapshot(a.p, a.count, c.clk + 1, Mode(write, c.mode.blocked)) == Prepared(c, ab, e, k)
  {
  }

  /** Step 4: the request chosen, if there is one. */
  ghost function Scheduled(c: Snapshot, ab: bool, e: Environment, k: Parameters): Snapshot
    requires IsEnvironment(e)
  {
    var ch := Chosen(c.p, c.mode.write, e);
    if ch.found then Stepped(c.(mode := Unblocked(ab, c.mode, ch)), ab, ch.queue, ch.i, e, k) else c
  }

  /** tick, and with ab tick_AB. */
  ghost function Ticked(c: Snapshot, ab: bool, e: Environment, k: Parameters): Snapshot
    requires IsEnvironment(e)
  {
    Scheduled(Prepared(c, ab, e, k), ab, e, k)
  }

  /** The command issued in the cycle, if any, and its address. */
  ghost function IssuedBy(b: Snapshot, e: Environment, k: Parameters): seq<(Command, seq<int>)>
    requires IsEnvironment(e)
  {
    var ch := Chosen(b.p, b.mode.write, e);
    if ch.found then
      var r := b.p.Get(ch.queue)[ch.i];
      [(Upgraded(Started(b.p, ch.queue, ch.i), b.mode.write, e.decode(r.kind, r.addrVec), r.addrVec, e, k.closedAp),
        r.addrVec)]
    else if e.victim != [] then [(PRE, e.victim)] else []
  }

  /** Serving a request takes nothing from the pending reads or the reports. */
  lemma Continues(a: Accepted, n: Name, i: nat, cmd: Command, e: Environment, k: Parameters, clk: int)
    requires i < |a.p.Get(n)|
    ensures var b := Continuation(a, n, i, cmd, e, k, clk); a.p.pending <= b.p.pending && a.p.reported <= b.p.reported
  {
    ReceivedExtends(a, e.onWrite, k.max, clk);
  }

  lemma {:induction false} RefreshKeeps(a: Accepted, refreshes: seq<seq<int>>, max: nat, clk: int)
    ensures var b := Refreshed(a, refreshes, max, clk);
            a.p == b.p.(otherq := a.p.otherq) && a.p.otherq <= b.p.otherq
            && |b.p.otherq| - |a.p.otherq| == b.count - a.count >= 0
    ensures |a.p.otherq| <= max ==> |Refreshed(a, refreshes, max, clk).p.otherq| <= max
  {
    if refreshes != [] { RefreshKeeps(a, refreshes[..|refreshes| - 1], max, clk); }
  }

  lemma PreparedKeeps(c: Snapshot, ab: bool, e: Environment, k: Parameters)
    ensures Reported(c.p, c.clk + 1).pending <= Prepared(c, ab, e, k).p.pending
    ensures Prepared(c, ab, e, k).p.reported == Reported(c.p, c.clk + 1).reported
  {
    var a := Accepted(c.p, c.count);
    ReceivedExtends(a.(p := Reported(c.p, c.clk + 1)), e.onRead, k.max, c.clk + 1);
    RefreshKeeps(Answered(a, e.onRead, k.max, c.clk + 1), e.refreshes, k.max, c.clk + 1);
  }

  lemma ScheduledKeeps(c: Snapshot, ab: bool, e: Environment, k: Parameters)
    requires IsEnvironment(e)
    ensures c.p.pending <= Scheduled(c, ab, e, k).p.pending && c.p.reported <= Scheduled(c, ab, e, k).p.reported
  {
    var ch := Chosen(c.p, c.mode.write, e);
    if ch.found {
      var r := c.p.Get(ch.queue)[ch.i];
      Continues(Accepted(Started(c.p, ch.queue, ch.i), c.count), ch.queue, ch.i, e.decode(r.kind, r.addrVec), e, k,
                c.clk);
    }
  }

  lemma Grown(p: seq<Request>, q: seq<Request>, r: seq<Request>, s: seq<Request>, clk: int)
    requires q == (if p != [] && p[0].depart <= clk then p[1..] else p) && q <= r <= s
    ensures PendingTicks(p, s, clk)
  {
  }

  /** In every cycle the oldest pending read leaves if it is due, and no other does. */
  lemma PendingTicked(c: Snapshot, ab: bool, e: Environment, k: Parameters)
    requires IsEnvironment(e)
    ensures PendingTicks(c.p.pending, Ticked(c, ab, e, k).p.pending, c.clk + 1)
    ensures Reported(c.p, c.clk + 1).reported <= Ticked(c, ab, e, k).p.reported
  {
    var b := Prepared(c, ab, e, k);
    PreparedKeeps(c, ab, e, k);
    ScheduledKeeps(b, ab, e, k);
    Grown(c.p.pending, Reported(c.p, c.clk + 1).pending, b.p.pending, Ticked(c, ab, e, k).p.pending, c.clk + 1);
  }
}
