/** The memory controller over every run of enqueue, tick and tick_AB (Controller.h). */
module Controller {
  import opened DramSpec
  import DramLegal
  import opened DramState
  import opened ControllerSpec
  import opened ControllerRows
  import opened Meter
  import opened ControllerQueues

  // The scheduler, the DRAM state and the row policy are arbitrary.

  ghost function Any(): Request -> bool { (r: Request) => true }

  /** A queued request that the node at path w serves: its first command has been issued. */
  ghost function Served(w: seq<int>): Request -> bool { (r: Request) => !r.first && IsData(r.kind) && w <= r.addrVec }

  /** A pending read that was really sent to the node, not answered from the write queue. */
  ghost function Late(w: seq<int>): Request -> bool { (r: Request) => r.depart - r.arrive > 1 && w <= r.addrVec }

  /** In how many places request id is. */
  ghost function Found(p: Places, id: int): nat
  {
    Count(p.readq, Any(), id) + Count(p.writeq, Any(), id) + Count(p.actq, Any(), id) + Count(p.otherq, Any(), id)
    + Count(p.pending, Any(), id) + Times(p.reported, id) + Times(p.done, id)
  }

  /** In how many places it is in service at node w. */
  ghost function InService(p: Places, w: seq<int>, id: int): nat
  {
    Count(p.readq, Served(w), id) + Count(p.writeq, Served(w), id) + Count(p.actq, Served(w), id)
      + Count(p.otherq, Served(w), id)
    + Count(p.pending, Late(w), id)
  }

  /** An accepted request is in exactly one place; ids count acceptances. */
  ghost predicate InOnePlace(p: Places, accepted: nat, id: int)
  {
    Found(p, id) == if 0 <= id < accepted then 1 else 0
  }

  /** The meter of node w counts the request exactly while it is in service. */
  ghost predicate Accounted(p: Places, w: seq<int>, ledger: seq<Service>, id: int)
  {
    Open(ledger, id) == InService(p, w, id)
  }

  ghost predicate Conserved(p: Places, accepted: nat)
  {
    forall id {:trigger InOnePlace(p, accepted, id)} :: InOnePlace(p, accepted, id)
  }

  ghost predicate AllAccounted(p: Places, w: seq<int>, ledger: seq<Service>)
  {
    forall id {:trigger Accounted(p, w, ledger, id)} :: Accounted(p, w, ledger, id)
  }

  /** The effect of an update of the meter. */
  ghost predicate Metered(before: seq<Service>, after: seq<Service>, id: int, delta: int)
  {
    forall x {:trigger Open(after, x)} :: Open(after, x) == Open(before, x) + if x == id then delta else 0
  }

  lemma ErasedFrom(p: Places, n: Name, i: nat, w: seq<int>, id: int)
    requires i < |p.Get(n)|
    ensures var e := p.With(n, Erase(p.Get(n), i));
            && Found(p, id) == Found(e, id) + One(p.Get(n)[i], Any(), id)
            && InService(p, w, id) == InService(e, w, id) + One(p.Get(n)[i], Served(w), id)
  {
    CountErase(p.Get(n), i, Any(), id);
    CountErase(p.Get(n), i, Served(w), id);
  }

  lemma PushedTo(p: Places, n: Name, r: Request, w: seq<int>, id: int)
    ensures var e := p.With(n, p.Get(n) + [r]);
            && Found(e, id) == Found(p, id) + One(r, Any(), id)
            && InService(e, w, id) == InService(p, w, id) + One(r, Served(w), id)
  {
    CountPush(p.Get(n), r, Any(), id);
    CountPush(p.Get(n), r, Served(w), id);
  }

  lemma MadePending(p: Places, r: Request, w: seq<int>, id: int)
    ensures var e := p.(pending := p.pending + [r]);
            && Found(e, id) == Found(p, id) + One(r, Any(), id)
            && InService(e, w, id) == InService(p, w, id) + One(r, Late(w), id)
  {
    CountPush(p.pending, r, Any(), id);
    CountPush(p.pending, r, Late(w), id);
  }

  /** The head of the pending reads is reported; the meter is told of it if the read was sent to the node. */
  lemma HeadReported(p: Places, e: Places, accepted: nat, w: seq<int>, before: seq<Service>, after: seq<Service>)
    requires p.pending != [] && e == p.(pending := p.pending[1..], reported := p.reported + [p.pending[0].id])
    requires Conserved(p, accepted) && AllAccounted(p, w, before)
    requires if Late(w)(p.pending[0]) then Metered(before, after, p.pending[0].id, -1) else after == before
    ensures Conserved(e, accepted) && AllAccounted(e, w, after)
  {
    forall id ensures InOnePlace(e, accepted, id) && Accounted(e, w, after, id) {
      assert InOnePlace(p, accepted, id) && Accounted(p, w, before, id);
      assert Erase(p.pending, 0) == p.pending[1..];
      CountErase(p.pending, 0, Any(), id);
      CountErase(p.pending, 0, Late(w), id);
      TimesPush(p.reported, p.pending[0].id, id);
    }
  }

  /** A request in service is open in the ledger. */
  lemma QueuedIsOpen(p: Places, w: seq<int>, ledger: seq<Service>, n: Name, i: nat)
    requires AllAccounted(p, w, ledger) && i < |p.Get(n)| && Served(w)(p.Get(n)[i])
    ensures Open(ledger, p.Get(n)[i].id) > 0
  {
    var id := p.Get(n)[i].id;
    assert Accounted(p, w, ledger, id);
    ErasedFrom(p, n, i, w, id);
  }

  lemma PendingIsOpen(p: Places, w: seq<int>, ledger: seq<Service>)
    requires AllAccounted(p, w, ledger) && p.pending != [] && Late(w)(p.pending[0])
    ensures Open(ledger, p.pending[0].id) > 0
  {
    assert Accounted(p, w, ledger, p.pending[0].id);
    CountErase(p.pending, 0, Late(w), p.pending[0].id);
  }

  /** A new request joins a queue; its first command has not been issued. */
  lemma Joined(p: Places, e: Places, n: Name, r: Request, accepted: nat, next: nat, w: seq<int>, ledger: seq<Service>)
    requires Conserved(p, accepted) && AllAccounted(p, w, ledger) && r.id == accepted && r.first && next == accepted + 1
    requires e == p.With(n, p.Get(n) + [r])
    ensures Conserved(e, next) && AllAccounted(e, w, ledger)
  {
    forall id ensures InOnePlace(e, next, id) && Accounted(e, w, ledger, id) {
      assert InOnePlace(p, accepted, id) && Accounted(p, w, ledger, id);
      PushedTo(p, n, r, w, id);
    }
  }

  /** Or is answered from the write queue. */
  lemma Forwarded(p: Places, e: Places, r: Request, accepted: nat, next: nat, w: seq<int>, ledger: seq<Service>)
    requires Conserved(p, accepted) && AllAccounted(p, w, ledger) && r.id == accepted && r.depart == r.arrive + 1
             && next == accepted + 1
    requires e == p.(pending := p.pending + [r])
    ensures Conserved(e, next) && AllAccounted(e, w, ledger)
  {
    forall id ensures InOnePlace(e, next, id) && Accounted(e, w, ledger, id) {
      assert InOnePlace(p, accepted, id) && Accounted(p, w, ledger, id);
      MadePending(p, r, w, id);
    }
  }

  /** The first command of a request puts it in service. */
  lemma Begun(p: Places, e: Places, n: Name, i: nat, accepted: nat, w: seq<int>, before: seq<Service>,
              after: seq<Service>)
    requires Conserved(p, accepted) && AllAccounted(p, w, before) && i < |p.Get(n)| && p.Get(n)[i].first
    requires e == p.With(n, p.Get(n)[i := p.Get(n)[i].(first := false)])
    requires if IsData(p.Get(n)[i].kind) && w <= p.Get(n)[i].addrVec then Metered(before, after, p.Get(n)[i].id, 1)
               else after == before
    ensures Conserved(e, accepted) && AllAccounted(e, w, after)
  {
    var q, r := p.Get(n), p.Get(n)[i].(first := false);
    forall id ensures InOnePlace(e, accepted, id) && Accounted(e, w, after, id) {
      assert InOnePlace(p, accepted, id) && Accounted(p, w, before, id);
      CountReplace(q, i, r, Any(), id);
      CountReplace(q, i, r, Served(w), id);
    }
  }

  /** An activated request moves to the queue of activated ones. */
  lemma Promoted(p: Places, m: Places, e: Places, n: Name, i: nat, accepted: nat, w: seq<int>, ledger: seq<Service>)
    requires Conserved(p, accepted) && AllAccounted(p, w, ledger) && i < |p.Get(n)|
    requires m == p.With(ActQ, p.actq + [p.Get(n)[i]]) && e == m.With(n, Erase(m.Get(n), i))
    ensures Conserved(e, accepted) && AllAccounted(e, w, ledger)
  {
    forall id ensures InOnePlace(e, accepted, id) && Accounted(e, w, ledger, id) {
      assert InOnePlace(p, accepted, id) && Accounted(p, w, ledger, id);
      PushedTo(p, ActQ, p.Get(n)[i], w, id);
      assert m.Get(n)[i] == p.Get(n)[i];
      ErasedFrom(m, n, i, w, id);
    }
  }

  /** A read's last command makes it pending. */
  lemma ReadIssued(p: Places, m: Places, e: Places, n: Name, i: nat, depart: int, accepted: nat, w: seq<int>,
                   ledger: seq<Service>)
    requires Conserved(p, accepted) && AllAccounted(p, w, ledger) && i < |p.Get(n)|
    requires var r := p.Get(n)[i];
             && IsData(r.kind) && !r.first && depart - r.arrive > 1
             && m == p.(pending := p.pending + [r.(depart := depart)])
    requires e == m.With(n, Erase(m.Get(n), i))
    ensures Conserved(e, accepted) && AllAccounted(e, w, ledger)
  {
    forall id ensures InOnePlace(e, accepted, id) && Accounted(e, w, ledger, id) {
      assert InOnePlace(p, accepted, id) && Accounted(p, w, ledger, id);
      MadePending(p, p.Get(n)[i].(depart := depart), w, id);
      ErasedFrom(m, n, i, w, id);
    }
  }

  /** An id is added to the reports. */
  lemma ReportNoted(p: Places, r: int, w: seq<int>, id: int)
    ensures var e := p.(reported := p.reported + [r]);
            Found(e, id) - Found(p, id) == (if id == r then 1 else 0) && InService(e, w, id) == InService(p, w, id)
  {
    TimesPush(p.reported, r, id);
  }

  /** Or to the requests done. */
  lemma EndNoted(p: Places, r: int, w: seq<int>, id: int)
    ensures var e := p.(done := p.done + [r]);
            Found(e, id) - Found(p, id) == (if id == r then 1 else 0) && InService(e, w, id) == InService(p, w, id)
  {
    TimesPush(p.done, r, id);
  }

  lemma WriteMoved(p: Places, e: Places, n: Name, i: nat, w: seq<int>, id: int)
    requires i < |p.Get(n)| && e == p.(reported := p.reported + [p.Get(n)[i].id]).With(n, Erase(p.Get(n), i))
    ensures Found(e, id) == Found(p, id) && InService(e, w, id) == InService(p, w, id) - One(p.Get(n)[i], Served(w), id)
  {
    ReportNoted(p, p.Get(n)[i].id, w, id);
    ErasedFrom(p.(reported := p.reported + [p.Get(n)[i].id]), n, i, w, id);
  }

  /** A write's last command ends its service, and it is reported. */
  lemma WriteIssued(p: Places, e: Places, n: Name, i: nat, accepted: nat, w: seq<int>, before: seq<Service>,
                    after: seq<Service>)
    requires Conserved(p, accepted) && AllAccounted(p, w, before) && i < |p.Get(n)|
    requires var r := p.Get(n)[i];
             && IsData(r.kind) && !r.first && e == p.(reported := p.reported + [r.id]).With(n, Erase(p.Get(n), i))
             && if w <= r.addrVec then Metered(before, after, r.id, -1) else after == before
    ensures Conserved(e, accepted) && AllAccounted(e, w, after)
  {
    forall id ensures InOnePlace(e, accepted, id) && Accounted(e, w, after, id) {
      assert InOnePlace(p, accepted, id) && Accounted(p, w, before, id);
      WriteMoved(p, e, n, i, w, id);
    }
  }

  lemma OtherIssued(p: Places, e: Places, n: Name, i: nat, accepted: nat, w: seq<int>, ledger: seq<Service>)
    requires Conserved(p, accepted) && AllAccounted(p, w, ledger) && i < |p.Get(n)| && !IsData(p.Get(n)[i].kind)
    requires e == p.(done := p.done + [p.Get(n)[i].id]).With(n, Erase(p.Get(n), i))
    ensures Conserved(e, accepted) && AllAccounted(e, w, ledger)
  {
    var r := p.Get(n)[i];
    var m := p.(done := p.done + [r.id]);
    forall id ensures InOnePlace(e, accepted, id) && Accounted(e, w, ledger, id) {
      assert InOnePlace(p, accepted, id) && Accounted(p, w, ledger, id);
      EndNoted(p, r.id, w, id);
      ErasedFrom(m, n, i, w, id);
    }
  }

  /** What kind of requests is where, and how far their times have got. */
  ghost predicate Sorted(p: Places, limit: int)
  {
    && (forall i :: 0 <= i < |p.readq| ==> p.readq[i].kind == Read && p.readq[i].arrive <= limit)
    && (forall i :: 0 <= i < |p.writeq| ==> p.writeq[i].kind == Write && p.writeq[i].arrive <= limit)
    && (forall i :: 0 <= i < |p.actq| ==> IsData(p.actq[i].kind) && !p.actq[i].first && p.actq[i].arrive <= limit)
    && (forall i :: 0 <= i < |p.otherq| ==> !IsData(p.otherq[i].kind))
    && (forall i :: 0 <= i < |p.pending| ==> p.pending[i].kind == Read)
  }

  lemma SortedErase(p: Places, n: Name, i: nat, limit: int)
    requires Sorted(p, limit) && i < |p.Get(n)|
    ensures Sorted(p.With(n, Erase(p.Get(n), i)), limit)
  {
  }

  /** Finishing a request keeps the queues sorted. */
  lemma SortedCompletion(p: Places, n: Name, i: nat, depart: int, limit: int)
    requires Sorted(p, limit) && i < |p.Get(n)|
    ensures Sorted(Completion(p, n, i, depart), limit)
  {
    SortedErase(p, n, i, limit);
  }

  /** And so does a new one. */
  lemma SortedJoin(p: Places, r: Request, limit: int)
    requires Sorted(p, limit) && (IsData(r.kind) ==> r.arrive <= limit)
    ensures Sorted(p.With(QueueOf(r.kind), p.Get(QueueOf(r.kind)) + [r]), limit)
  {
  }

  lemma StillThere(p: Places, q: Places, n: Name, i: nat)
    requires Extends(p, q) && i < |p.Get(n)|
    ensures i < |q.Get(n)| && q.Get(n)[i] == p.Get(n)[i]
  {
  }

  ghost predicate Unfolded(t: bool) { t }

  lemma SameQueue(p: Places, n: Name, i: nat)
    requires i < |p.Get(n)| && !p.Get(n)[i].first
    ensures Started(p, n, i) == p
  {
    assert p.Get(n)[i := p.Get(n)[i].(first := false)] == p.Get(n);
  }

  class Controller {
    /** A node of the DRAM tree, down to a bank; the properties hold of the meter of every one. */
    const node: seq<int>
    const meter: ServingMeter
    const max: nat
    const high: nat
    const low: nat
    const readLatency: nat
    const closedAp: bool
    var clk: int
    var readq: seq<Request>
    var writeq: seq<Request>
    var actq: seq<Request>
    var otherq: seq<Request>
    var pending: seq<Request>
    var reported: seq<int>
    var writeMode: bool
    var wmBlocked: bool
    ghost var done: seq<int>
    var accepted: nat

    ghost function Now(): Places
      reads this
    {
      Places(readq, writeq, actq, otherq, pending, reported, done)
    }

    ghost function Current(): Snapshot
      reads this
    {
      Snapshot(Now(), accepted, clk, Mode(writeMode, wmBlocked))
    }

    function Setup(): Parameters { Parameters(max, high, low, readLatency, closedAp) }

    /** Guarded, so that it is unfolded only where a proof asks for it. */
    ghost predicate Invariant()
      reads this, meter
    {
      forall t {:trigger Unfolded(t)} :: Unfolded(t) ==>
        && clk >= 0 && readLatency >= 2 && Sorted(Now(), clk) && meter.Valid() && meter.begin <= clk
        && Conserved(Now(), accepted) && AllAccounted(Now(), node, meter.ledger)
    }

    /** Conservation: every accepted request is in exactly one place. Accounting: the meter counts exactly the requests
        in service. */
    ghost predicate Inv()
      reads this, meter
    {
      var holds := Invariant();
      holds
    }

    /** read_latency is nCL + nBL, two cycles or more. */
    constructor (node: seq<int>, max: nat, high: nat, low: nat, readLatency: nat, closedAp: bool)
      requires readLatency >= 2
      ensures Inv() && fresh(meter) && Setup() == Parameters(max, high, low, readLatency, closedAp) && this.node == node
      ensures Current() == Snapshot(Places([], [], [], [], [], [], []), 0, 0, Mode(false, false))
    {
      this.node, this.max, this.high, this.low, this.readLatency, this.closedAp := node, max, high, low, readLatency,
        closedAp;
      meter := new ServingMeter();
      clk, readq, writeq, actq, otherq, pending, reported, done, accepted := 0, [], [], [], [], [], [], [], 0;
      writeMode, wmBlocked := false, false;
      new;
      forall id ensures InOnePlace(Now(), 0, id) && Accounted(Now(), node, meter.ledger, id) {}
    }

    method AdvanceClock()
      requires Inv()
      modifies this`clk
      ensures clk == old(clk) + 1 && Inv() && Current() == old(Current()).(clk := clk)
    {
      assert Unfolded(true);
      clk := clk + 1;
    }

    function Get(n: Name): (q: seq<Request>)
      reads this
      ensures q == Now().Get(n)
    {
      match n
      case ReadQ => readq
      case WriteQ => writeq
      case ActQ => actq
      case OtherQ => otherq
    }

    method Set(n: Name, q: seq<Request>)
      modifies this`readq, this`writeq, this`actq, this`otherq
      ensures Now() == old(Now()).With(n, q)
    {
      match n
      case ReadQ => readq := q;
      case WriteQ => writeq := q;
      case ActQ => actq := q;
      case OtherQ => otherq := q;
    }

    /** channel->update_serving_requests reaches the node if the request is addressed to it. */
    method UpdateServing(r: Request, delta: int)
      requires meter.Valid() && meter.begin <= clk && clk >= 0 && (delta == 1 || delta == -1)
      requires delta == -1 && node <= r.addrVec ==> Open(meter.ledger, r.id) > 0
      modifies meter
      ensures meter.Valid() && meter.begin <= clk
      ensures if node <= r.addrVec then Metered(old(meter.ledger), meter.ledger, r.id, delta)
                else meter.ledger == old(meter.ledger)
    {
      if node <= r.addrVec {
        meter.Update(delta, clk, r.id);
      }
    }

    /** The oldest pending read is reported when it is due. */
    method ReportHead() returns (due: bool)
      requires Inv()
      modifies this`pending, this`reported, meter
      ensures Inv() && Now() == Reported(old(Now()), clk) && due == Due(old(Now()), clk)
    {
      due := false;
      assert Unfolded(true);
      if pending != [] {
        var req := pending[0];
        if req.depart <= clk {
          ghost var before, ledger := Now(), meter.ledger;
          if req.depart - req.arrive > 1 {
            if node <= req.addrVec { PendingIsOpen(before, node, ledger); }
            UpdateServing(req, -1);
          }
          reported, pending := reported + [req.id], pending[1..];
          HeadReported(before, Now(), accepted, node, ledger, meter.ledger);
          due := true;
        }
      }
    }

    /** The search of the write queue for a write to the same address. */
    method Matches(addr: int) returns (found: bool)
      ensures found <==> exists i :: 0 <= i < |writeq| && writeq[i].addr == addr
    {
      var i := 0;
      while i < |writeq|
        invariant i <= |writeq| && forall j :: 0 <= j < i ==> writeq[j].addr != addr
      {
        if writeq[i].addr == addr { return true; }
        i := i + 1;
      }
      found := false;
    }

    /** push_back. */
    method Join(r: Request)
      requires Inv() && r.id == accepted && r.first && r.arrive == clk
      modifies this`readq, this`writeq, this`otherq, this`accepted
      ensures Inv() && accepted == old(accepted) + 1
      ensures Now() == old(Now()).With(QueueOf(r.kind), old(Get(QueueOf(r.kind))) + [r])
    {
      assert Unfolded(true);
      ghost var before := Now();
      match r.kind {
        case Read => readq := readq + [r];
        case Write => writeq := writeq + [r];
        case _ => otherq := otherq + [r];
      }
      SortedJoin(before, r, clk);
      Joined(before, Now(), QueueOf(r.kind), r, accepted, accepted + 1, node, meter.ledger);
      accepted := accepted + 1;
    }

    /** The shortcut for reads: pushed on both queues, then taken off the read queue again. */
    method Forward(r: Request)
      requires Inv() && r.id == accepted && r.kind == Read && r.arrive == clk
      modifies this`readq, this`pending, this`accepted
      ensures Inv() && accepted == old(accepted) + 1
      ensures Now() == old(Now()).(pending := old(pending) + [r.(depart := clk + 1)])
    {
      assert Unfolded(true);
      ghost var before := Now();
      readq := readq + [r];
      pending := pending + [r.(depart := clk + 1)];
      readq := readq[..|readq| - 1];
      assert readq == before.readq;
      Forwarded(before, Now(), r.(depart := clk + 1), accepted, accepted + 1, node, meter.ledger);
      accepted := accepted + 1;
    }

    /** enqueue, and with ab enqueue_AB, between ticks and from a callback within one: refused when the queue is full;
        otherwise queued, or, for a read of an address that has a queued write, made pending for the next cycle. */
    method Enqueue(c: Call) returns (ok: bool)
      requires Inv()
      modifies this`readq, this`writeq, this`otherq, this`pending, this`accepted
      ensures Inv() && Accepted(Now(), accepted) == Received(old(Accepted(Now(), accepted)), c, max, clk)
      ensures ok == (|old(Get(QueueOf(c.kind)))| != max)
      ensures !ok ==> Now() == old(Now()) && accepted == old(accepted)
      ensures ok ==> accepted == old(accepted) + 1
      ensures ok ==>
                Now() == Arrival(old(Now()), Request(old(accepted), c.kind, c.addr, c.addrVec, true, clk, -1), c.ab)
    {
      if |Get(QueueOf(c.kind))| == max {
        return false;
      }
      var r := Request(accepted, c.kind, c.addr, c.addrVec, true, clk, -1);
      var hit := Matches(c.addr);
      if c.kind == Read && !c.ab && hit {
        Forward(r);
      } else {
        Join(r);
      }
      ok := true;
    }

    /** A callback: the requests that it sends. */
    method Receive(calls: seq<Call>)
      requires Inv()
      modifies this`readq, this`writeq, this`otherq, this`pending, this`accepted
      ensures Inv() && Accepted(Now(), accepted) == AllReceived(old(Accepted(Now(), accepted)), calls, max, clk)
    {
      ghost var from := Accepted(Now(), accepted);
      var i := 0;
      while i < |calls|
        invariant i <= |calls| && Inv() && Accepted(Now(), accepted) == AllReceived(from, calls[..i], max, clk)
      {
        assert calls[..i + 1][..i] == calls[..i];
        var _ := Enqueue(calls[i]);
        i := i + 1;
      }
      assert calls[..i] == calls;
    }

    /** Step 1 of tick: the oldest pending read is served when it is due, and its sender called back. */
    method ServePending(e: Environment)
      requires Inv()
      modifies this`pending, this`reported, this`readq, this`writeq, this`otherq, this`accepted, meter
      ensures Inv() && Accepted(Now(), accepted) == Answered(old(Accepted(Now(), accepted)), e.onRead, max, clk)
    {
      var due := ReportHead();
      if due {
        Receive(e.onRead);
      }
    }

    /** The first command issued for a request. */
    method FirstCommand(n: Name, i: nat)
      requires Inv() && i < |Get(n)|
      modifies this`readq, this`writeq, this`actq, this`otherq, meter
      ensures old(Now()).Get(n) == old(Get(n)) && Inv() && Now() == Started(old(Now()), n, i) && i < |Get(n)|
              && !Get(n)[i].first
    {
      assert Unfolded(true);
      var r := Get(n)[i];
      assert Now().Get(n) == Get(n);
      if r.first {
        ghost var before, ledger := Now(), meter.ledger;
        Set(n, Get(n)[i := r.(first := false)]);
        if r.kind == Read || r.kind == Write {
          UpdateServing(r, 1);
        }
        Begun(before, Now(), n, i, accepted, node, ledger, meter.ledger);
      } else {
        SameQueue(Now(), n, i);
      }
    }

    /** The request that caused an activation is promoted. */
    method Promote(n: Name, i: nat)
      requires Inv() && i < |Get(n)| && IsData(Get(n)[i].kind) && !Get(n)[i].first
      modifies this`readq, this`writeq, this`actq, this`otherq
      ensures Inv() && Now() == Promotion(old(Now()), n, i)
    {
      assert Unfolded(true);
      ghost var before := Now();
      actq := actq + [Get(n)[i]];
      ghost var between := Now();
      Set(n, Erase(Get(n), i));
      Promoted(before, between, Now(), n, i, accepted, node, meter.ledger);
    }

    method FinishRead(n: Name, i: nat)
      requires Inv() && i < |Get(n)| && !Get(n)[i].first && Get(n)[i].kind == Read
      modifies this`readq, this`writeq, this`actq, this`otherq, this`pending
      ensures Inv() && Now() == Completion(old(Now()), n, i, clk + readLatency)
    {
      assert Unfolded(true);
      ghost var before := Now();
      pending := pending + [Get(n)[i].(depart := clk + readLatency)];
      ghost var between := Now();
      Set(n, Erase(Get(n), i));
      SortedCompletion(before, n, i, clk + readLatency, clk);
      ReadIssued(before, between, Now(), n, i, clk + readLatency, accepted, node, meter.ledger);
    }

    method FinishWrite(n: Name, i: nat)
      requires Inv() && i < |Get(n)| && !Get(n)[i].first && Get(n)[i].kind == Write
      modifies this`readq, this`writeq, this`actq, this`otherq, this`reported, meter
      ensures Inv() && Now() == Completion(old(Now()), n, i, clk + readLatency)
    {
      assert Unfolded(true);
      ghost var before, ledger := Now(), meter.ledger;
      var r := Get(n)[i];
      if node <= r.addrVec { QueuedIsOpen(before, node, ledger, n, i); }
      UpdateServing(r, -1);
      reported := reported + [r.id];
      Set(n, Erase(Get(n), i));
      SortedCompletion(before, n, i, clk + readLatency, clk);
      WriteIssued(before, Now(), n, i, accepted, node, ledger, meter.ledger);
    }

    method FinishOther(n: Name, i: nat)
      requires Inv() && i < |Get(n)| && !IsData(Get(n)[i].kind)
      modifies this`readq, this`writeq, this`actq, this`otherq, this`done
      ensures Inv() && Now() == Completion(old(Now()), n, i, clk + readLatency)
    {
      assert Unfolded(true);
      ghost var before := Now();
      done := done + [Get(n)[i].id];
      Set(n, Erase(Get(n), i));
      SortedCompletion(before, n, i, clk + readLatency, clk);
      OtherIssued(before, Now(), n, i, accepted, node, meter.ledger);
    }

    /** A request's last command: a read becomes pending, a write is reported, and the request leaves its queue. */
    method Complete(n: Name, i: nat)
      requires Inv() && i < |Get(n)| && !Get(n)[i].first
      modifies this`readq, this`writeq, this`actq, this`otherq, this`pending, this`reported, this`done, meter
      ensures Inv() && Now() == Completion(old(Now()), n, i, clk + readLatency)
    {
      match Get(n)[i].kind
      case Read => FinishRead(n, i);
      case Write => FinishWrite(n, i);
      case _ => FinishOther(n, i);
    }

    /** The sender of a write is called back while the write is still in its queue. */
    method Finish(e: Environment, n: Name, i: nat)
      requires Inv() && i < |Get(n)| && !Get(n)[i].first
      modifies this`readq, this`writeq, this`actq, this`otherq, this`pending, this`reported, this`done, this`accepted,
               meter
      ensures Inv() && i < |old(Now()).Get(n)|
      ensures Accepted(Now(), accepted) == Finished(old(Accepted(Now(), accepted)), n, i, e, Setup(), clk)
    {
      ghost var a := Accepted(Now(), accepted);
      assert a.p.Get(n) == Get(n);
      if Get(n)[i].kind == Write {
        Receive(e.onWrite);
        ReceivedExtends(a, e.onWrite, max, clk);
        StillThere(a.p, Now(), n, i);
      }
      Complete(n, i);
    }

    /** The count of requests that hit the row. */
    method CountRowHits(q: seq<Request>, addrVec: seq<int>, hit: (Kind, seq<int>) -> bool) returns (hits: nat)
      ensures hits == RowHits(q, addrVec, hit)
    {
      hits := 0;
      var j := 0;
      while j < |q|
        invariant j <= |q| && hits == RowHits(q[..j], addrVec, hit)
      {
        assert q[..j + 1][..j] == q[..j];
        if hit(q[j].kind, q[j].addrVec) {
          if RowGroup(q[j].addrVec) == RowGroup(addrVec) {
            hits := hits + 1;
          }
        }
        j := j + 1;
      }
      assert q[..j] == q;
    }

    /** cmd_issue_autoprecharge. Its assertions hold: the request being served is itself a hit, so the count is never 0,
        and only RD and WR are upgraded. */
    method AutoPrecharge(cmd: Command, n: Name, i: nat, e: Environment) returns (issued: Command)
      requires i < |Get(n)| && IsEnvironment(e) && cmd == e.decode(Get(n)[i].kind, Get(n)[i].addrVec)
      requires n == ActQ || n == QueueName(writeMode) || !IsAccess(cmd)
      ensures issued == Upgraded(Now(), writeMode, cmd, Get(n)[i].addrVec, e, closedAp)
      ensures IsAccess(cmd) && closedAp && LastForRow(Now(), n, i, e.hit) ==> issued == DramLegal.Twin(cmd)
      ensures issued != cmd ==> && IsAccess(cmd) && closedAp && issued == DramLegal.Twin(cmd)
                                && (LastForRow(Now(), n, i, e.hit) <==>
                                      NoOtherQueueHits(Now(), n, Get(n)[i].addrVec, e.hit))
    {
      issued := cmd;
      if IsAccess(cmd) { UpgradeAndLast(Now(), writeMode, n, i, cmd, e, closedAp); }
      if IsAccess(cmd) && closedAp {
        var addrVec := Get(n)[i].addrVec;
        OwnRowHits(Get(n), i, addrVec, e.hit);
        var hits := CountRowHits(if writeMode then writeq else readq, addrVec, e.hit);
        if hits == 0 {
          hits := CountRowHits(actq, addrVec, e.hit);
        }
        assert hits > 0;
        if hits == 1 {
          if cmd == RD {
            issued := RDA;
          } else if cmd == WR {
            issued := WRA;
          } else {
            assert false;
          }
        }
      }
    }

    /** Step 2 of tick: refresh requests are enqueued. */
    method RefreshTick(e: Environment)
      requires Inv()
      modifies this`readq, this`writeq, this`otherq, this`pending, this`accepted
      ensures Inv() && Accepted(Now(), accepted) ==
              Refreshed(Accepted(old(Now()), old(accepted)), e.refreshes, max, clk)
    {
      ghost var from := Accepted(Now(), accepted);
      var i := 0;
      while i < |e.refreshes|
        invariant i <= |e.refreshes| && Inv() && Accepted(Now(), accepted) ==
                  Refreshed(from, e.refreshes[..i], max, clk)
      {
        assert e.refreshes[..i + 1][..i] == e.refreshes[..i];
        var _ := Enqueue(Call(Refresh, -1, e.refreshes[i], false));
        i := i + 1;
      }
      assert e.refreshes[..i] == e.refreshes;
    }

    /** Step 3 of tick and of tick_AB: which of the data queues goes first. */
    method ChooseMode(ab: bool)
      requires Inv()
      modifies this`writeMode
      ensures Inv() && writeMode == ModeFor(ab, old(writeMode), wmBlocked, |readq|, |writeq|, high, low)
    {
      if ab {
        if !wmBlocked {
          if |readq| == 0 && |writeq| > 0 { writeMode := true; }
          if |readq| > 0 && |writeq| == 0 { writeMode := false; }
        }
      } else if !writeMode {
        if |writeq| > high || |readq| == 0 { writeMode := true; }
      } else {
        if |writeq| < low && |readq| != 0 { writeMode := false; }
      }
    }

    /** The request to serve: one of those already activated, or else one of the queue that has precedence. */
    method Select(ab: bool, e: Environment) returns (n: Name, i: nat, found: bool)
      requires Inv() && IsEnvironment(e)
      modifies this`wmBlocked
      ensures Inv() && Choice(n, i, found) == Chosen(Now(), writeMode, e)
      ensures Mode(writeMode, wmBlocked) == Unblocked(ab, old(Mode(writeMode, wmBlocked)), Choice(n, i, found))
    {
      n, i, found := ActQ, 0, false;
      if actq != [] {
        i := e.head(actq);
        found := e.ready(actq[i].kind, actq[i].addrVec);
      }
      if found && ab {
        wmBlocked := false;
      }
      if !found {
        n, i := if otherq != [] then OtherQ else if writeMode then WriteQ else ReadQ, 0;
        if Get(n) != [] {
          i := e.head(Get(n));
          found := e.ready(Get(n)[i].kind, Get(n)[i].addrVec);
        }
      }
    }

    method HoldMode(kind: Kind)
      requires Inv()
      modifies this`writeMode, this`wmBlocked
      ensures Inv() && writeMode == (kind == Write) && wmBlocked
    {
      writeMode, wmBlocked := kind == Write, true;
    }

    /** A command that does not finish its request: an activation promotes the request, in tick_AB it also fixes the
        mode until an activated request has been served. */
    method Prepare(ab: bool, n: Name, i: nat, cmd: Command)
      requires Inv() && i < |Get(n)| && !Get(n)[i].first && (cmd == ACT ==> IsData(Get(n)[i].kind))
      modifies this`readq, this`writeq, this`actq, this`otherq, this`writeMode, this`wmBlocked
      ensures Inv() && Now() == if cmd == ACT then Promotion(old(Now()), n, i) else old(Now())
      ensures Mode(writeMode, wmBlocked) == if ab && cmd == ACT then Mode(old(Get(n))[i].kind == Write, true)
                else old(Mode(writeMode, wmBlocked))
    {
      if cmd == ACT {
        var kind := Get(n)[i].kind;
        Promote(n, i);
        if ab { HoldMode(kind); }
      }
    }

    /** tick_AB, after a request has finished: the older head goes next. */
    method OrderByArrival(e: Environment)
      requires Inv() && IsEnvironment(e)
      modifies this`writeMode
      ensures Inv() && writeMode == ByArrival(Now(), old(writeMode), e)
    {
      if readq != [] && writeq != [] {
        writeMode := writeq[e.head(writeq)].arrive <= readq[e.head(readq)].arrive;
      } else if readq != [] {
        writeMode := false;
      } else if writeq != [] {
        writeMode := true;
      }
    }

    method FinishServed(ab: bool, e: Environment, n: Name, i: nat)
      requires Inv() && IsEnvironment(e) && i < |Get(n)| && !Get(n)[i].first
      modifies this`readq, this`writeq, this`actq, this`otherq, this`pending, this`reported, this`done, this`writeMode,
               this`accepted, meter
      ensures Inv() && i < |old(Now()).Get(n)|
      ensures Accepted(Now(), accepted) == Finished(old(Accepted(Now(), accepted)), n, i, e, Setup(), clk)
      ensures writeMode == if ab then ByArrival(Now(), old(writeMode), e) else old(writeMode)
    {
      Finish(e, n, i);
      if ab {
        OrderByArrival(e);
      }
    }

    /** The request selected has its first command behind it; issue the next one. */
    method Serve(ab: bool, e: Environment, n: Name, i: nat, cmd: Command)
      requires Inv() && IsEnvironment(e) && i < |Get(n)| && !Get(n)[i].first
      requires cmd == e.decode(Get(n)[i].kind, Get(n)[i].addrVec)
      modifies this`readq, this`writeq, this`actq, this`otherq, this`pending, this`reported, this`done, this`writeMode,
               this`wmBlocked,
               this`accepted, meter
      ensures Inv() && i < |old(Now()).Get(n)|
      ensures Accepted(Now(), accepted) == Continuation(old(Accepted(Now(), accepted)), n, i, cmd, e, Setup(), clk)
      ensures Mode(writeMode, wmBlocked) == ModeServed(ab, old(Mode(writeMode, wmBlocked)), old(Now()),
                                                       Choice(n, i, true), cmd, Now(), e)
    {
      if cmd != Translate(Get(n)[i].kind) {
        Prepare(ab, n, i, cmd);
      } else {
        FinishServed(ab, e, n, i);
      }
    }

    lemma OthersKind(i: nat)
      requires Inv() && i < |otherq|
      ensures !IsData(otherq[i].kind)
    {
      assert Unfolded(true);
    }

    /** The command is chosen, the request marked and the command upgraded. */
    method BeginCommand(e: Environment, n: Name, i: nat) returns (cmd: Command, issued: Command)
      requires Inv() && IsEnvironment(e) && i < |Get(n)|
      requires n == ActQ || n == OtherQ || n == if writeMode then WriteQ else ReadQ
      modifies this`readq, this`writeq, this`actq, this`otherq, meter
      ensures Inv() && old(Now()).Get(n) == old(Get(n)) && Now() == Started(old(Now()), n, i)
      ensures i < |Get(n)| && !Get(n)[i].first && cmd == e.decode(old(Get(n))[i].kind, old(Get(n))[i].addrVec)
      ensures Get(n)[i].kind == old(Get(n))[i].kind && Get(n)[i].addrVec == old(Get(n))[i].addrVec
      ensures issued == Upgraded(Now(), writeMode, cmd, old(Get(n))[i].addrVec, e, closedAp)
    {
      var r := Get(n)[i];
      cmd := e.decode(r.kind, r.addrVec);
      if n == OtherQ { OthersKind(i); }
      FirstCommand(n, i);
      assert Now().Get(n) == Get(n);
      issued := AutoPrecharge(cmd, n, i, e);
    }

    /** The request of state c has been marked; its next command completes the step. */
    method ServeNext(ab: bool, e: Environment, n: Name, i: nat, cmd: Command, ghost c: Snapshot)
      requires Inv() && IsEnvironment(e) && i < |Get(n)| && !Get(n)[i].first && i < |c.p.Get(n)|
      requires cmd == e.decode(Get(n)[i].kind, Get(n)[i].addrVec)
               && cmd == e.decode(c.p.Get(n)[i].kind, c.p.Get(n)[i].addrVec)
      requires Current() == c.(p := Started(c.p, n, i))
      modifies this`readq, this`writeq, this`actq, this`otherq, this`pending, this`reported, this`done, this`writeMode,
               this`wmBlocked,
               this`accepted, meter
      ensures Inv()
      ensures var next := Stepped(c, ab, n, i, e, Setup()); Current() == next
    {
      ghost var p := Now();
      Serve(ab, e, n, i, cmd);
      ghost var after, mode := Accepted(Now(), accepted), Mode(writeMode, wmBlocked);
      SteppedBy(c, ab, n, i, e, Setup(), cmd, p, after, mode);
      assert Current() == Snapshot(after.p, after.count, c.clk, mode);
    }

    /** The selected request's next command. */
    method ServeSelected(ab: bool, e: Environment, n: Name, i: nat) returns (issued: Command)
      requires Inv() && IsEnvironment(e) && i < |Get(n)|
      requires n == ActQ || n == OtherQ || n == if writeMode then WriteQ else ReadQ
      modifies this`readq, this`writeq, this`actq, this`otherq, this`pending, this`reported, this`done, this`writeMode,
               this`wmBlocked,
               this`accepted, meter
      ensures Inv() && i < |old(Now()).Get(n)|
      ensures var next := Stepped(old(Current()), ab, n, i, e, Setup()); Current() == next
      ensures issued == Upgraded(Started(old(Now()), n, i), old(writeMode),
                                 e.decode(old(Get(n))[i].kind, old(Get(n))[i].addrVec), old(Get(n))[i].addrVec, e,
                                 closedAp)
    {
      ghost var c := Current();
      var cmd;
      cmd, issued := BeginCommand(e, n, i);
      assert Now() == Started(c.p, n, i) && i < |c.p.Get(n)| && Mode(writeMode, wmBlocked) == c.mode;
      ServeNext(ab, e, n, i, cmd, c);
    }

    /** Step 4: issue the selected request's next command. The commands issued in a tick, at most one, are returned with
        their addresses. */
    method Schedule(ab: bool, e: Environment) returns (issued: seq<(Command, seq<int>)>)
      requires Inv() && IsEnvironment(e)
      modifies this`readq, this`writeq, this`actq, this`otherq, this`pending, this`reported, this`done, this`writeMode,
               this`wmBlocked,
               this`accepted, meter
      ensures Inv() && Current() == Scheduled(old(Current()), ab, e, Setup())
              && issued == IssuedBy(old(Current()), e, Setup())
    {
      var n, i, found := Select(ab, e);
      if !found {
        return if e.victim != [] then [(PRE, e.victim)] else [];
      }
      var addrVec := Get(n)[i].addrVec;
      var c := ServeSelected(ab, e, n, i);
      issued := [(c, addrVec)];
    }

    /** Steps 1 and 2, at the new clock. */
    method Gather(e: Environment) returns (ghost from: Accepted)
      requires Inv()
      modifies this`clk, this`pending, this`reported, this`readq, this`writeq, this`otherq, this`accepted, meter
      ensures Inv() && clk == old(clk) + 1 && from == Answered(old(Accepted(Now(), accepted)), e.onRead, max, clk)
      ensures Accepted(Now(), accepted) == Refreshed(from, e.refreshes, max, clk)
    {
      AdvanceClock();
      ServePending(e);
      from := Accepted(Now(), accepted);
      RefreshTick(e);
    }

    /** Steps 1 to 3. */
    method PrepareCycle(ab: bool, e: Environment)
      requires Inv() && IsEnvironment(e)
      modifies this, meter
      ensures Inv() && Current() == Prepared(old(Current()), ab, e, Setup())
    {
      ghost var c := Current();
      ghost var from := Gather(e);
      ghost var a := Accepted(Now(), accepted);
      ChooseMode(ab);
      PreparedBy(c, ab, e, Setup(), from, a, writeMode);
    }

    /** tick, and with ab tick_AB: the state follows the specification, and conservation and accounting survive. */
    method Tick(ab: bool, e: Environment) returns (issued: seq<(Command, seq<int>)>)
      requires Inv() && IsEnvironment(e)
      modifies this, meter
      ensures Inv() && Current() == Ticked(old(Current()), ab, e, Setup())
      ensures issued == IssuedBy(Prepared(old(Current()), ab, e, Setup()), e, Setup())
    {
      PrepareCycle(ab, e);
      issued := Schedule(ab, e);
    }
  }
}
