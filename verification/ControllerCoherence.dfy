/** Reads and the older writes of their addresses: when enqueue keeps them in order, over whole runs (Controller.h). */
module ControllerCoherence {
  import opened DramSpec
  import opened ControllerQueues
  import opened ControllerSpec
  import ControllerRun
  import ControllerOrder
  import opened Controller

  /** What does not change of a request while it waits. */
  datatype Tag = Tag(id: int, kind: Kind, addr: int)

  function TagOf(r: Request): Tag { Tag(r.id, r.kind, r.addr) }

  ghost function Tags(q: seq<Request>): set<Tag> { set i | 0 <= i < |q| :: TagOf(q[i]) }

  /** The reads and writes that still wait for their last command. */
  ghost function Waiting(p: Places): set<Tag> { Tags(p.readq) + Tags(p.writeq) + Tags(p.actq) }

  /** Every waiting read is older than every waiting write of its address: in whatever order the commands are issued, no
      read overtakes a write whose data it should see. */
  ghost predicate InOrder(t: set<Tag>)
  {
    forall r, w :: r in t && w in t && r.kind == Read && w.kind == Write && r.addr == w.addr ==> r.id < w.id
  }

  /** The read and write queues hold reads and writes, otherq holds neither, and all ids are of requests accepted
      before. */
  ghost predicate Tidy(p: Places, count: int)
  {
    && ControllerOrder.OthersRare(p)
    && (forall i :: 0 <= i < |p.readq| ==> p.readq[i].kind == Read)
    && (forall i :: 0 <= i < |p.writeq| ==> p.writeq[i].kind == Write)
    && (forall x :: x in Waiting(p) ==> x.id < count)
  }

  ghost predicate Ordered(p: Places, count: int) { Tidy(p, count) && InOrder(Waiting(p)) }

  predicate HasAddr(q: seq<Request>, addr: int) { exists i :: 0 <= i < |q| && q[i].addr == addr }

  predicate HasWrite(q: seq<Request>, addr: int) { exists i :: 0 <= i < |q| && q[i].kind == Write && q[i].addr == addr }

  /** A read that will be queued although a write of its address waits: by enqueue, one that has been activated; by
      enqueue_AB, any. */
  predicate Hazard(p: Places, c: Call, max: nat)
  {
    && c.kind == Read && |p.readq| != max
    && if c.ab then HasAddr(p.writeq, c.addr) || HasWrite(p.actq, c.addr)
       else !HasAddr(p.writeq, c.addr) && HasWrite(p.actq, c.addr)
  }

  lemma TagsPush(q: seq<Request>, r: Request)
    ensures Tags(q + [r]) == Tags(q) + {TagOf(r)}
  {
    var s := q + [r];
    forall x | x in Tags(q) + {TagOf(r)} ensures x in Tags(s) {
      if x in Tags(q) {
        var i :| 0 <= i < |q| && TagOf(q[i]) == x;
        assert TagOf(s[i]) == x;
      } else {
        assert TagOf(s[|q|]) == x;
      }
    }
  }

  lemma TagsMark(q: seq<Request>, i: nat)
    requires i < |q|
    ensures Tags(q[i := q[i].(first := false)]) == Tags(q)
  {
    var s := q[i := q[i].(first := false)];
    forall j | 0 <= j < |q| ensures TagOf(s[j]) == TagOf(q[j]) {}
  }

  lemma TagsErase(q: seq<Request>, i: nat)
    requires i < |q|
    ensures Tags(Erase(q, i)) <= Tags(q) && TagOf(q[i]) in Tags(q)
  {
    var s := Erase(q, i);
    forall j | 0 <= j < |s| ensures TagOf(s[j]) in Tags(q) { assert s[j] == q[if j < i then j else j + 1]; }
  }

  /** Fewer waiting requests are as ordered. */
  lemma FewerOrdered(p: Places, q: Places, count: int)
    requires Ordered(p, count) && Waiting(q) <= Waiting(p) && ControllerOrder.OthersRare(q)
    requires (forall i :: 0 <= i < |q.readq| ==> q.readq[i].kind == Read)
             && (forall i :: 0 <= i < |q.writeq| ==> q.writeq[i].kind == Write)
    ensures Ordered(q, count)
  {
  }

  lemma WriteWaits(q: seq<Request>, addr: int) returns (i: nat)
    requires HasWrite(q, addr)
    ensures i < |q| && TagOf(q[i]) in Tags(q) && q[i].kind == Write && q[i].addr == addr
  {
    i :| 0 <= i < |q| && q[i].kind == Write && q[i].addr == addr;
  }

  /** One more waiting request, the newest: a write is never out of order, a read exactly if a write of its address
      waits. */
  lemma NewestOrdered(t: set<Tag>, x: Tag)
    requires InOrder(t) && (forall y :: y in t ==> y.id < x.id) && (x.kind == Read || x.kind == Write)
    ensures InOrder(t + {x}) <==> !(x.kind == Read && exists w :: w in t && w.kind == Write && w.addr == x.addr)
  {
    if x.kind == Read && exists w :: w in t && w.kind == Write && w.addr == x.addr {
      var w :| w in t && w.kind == Write && w.addr == x.addr;
      assert x in t + {x} && w in t + {x};
    }
  }

  /** Whether a write of this address waits. */
  lemma WaitingWrite(p: Places, count: int, addr: int)
    requires Tidy(p, count)
    ensures (exists w :: w in Waiting(p) && w.kind == Write && w.addr == addr) <==>
              HasAddr(p.writeq, addr) || HasWrite(p.actq, addr)
  {
    if HasAddr(p.writeq, addr) {
      var i :| 0 <= i < |p.writeq| && p.writeq[i].addr == addr;
      assert TagOf(p.writeq[i]) in Waiting(p);
    }
    if HasWrite(p.actq, addr) {
      var i := WriteWaits(p.actq, addr);
      assert TagOf(p.actq[i]) in Waiting(p);
    }
  }

  /** Where an accepted request goes: a read of an address that a queued write has is answered in the next cycle, unless
      it came by enqueue_AB; all others wait at the ends of their queues. */
  lemma Accepts(a: Accepted, c: Call, max: nat, clk: int, r: Request)
    requires r == Request(a.count, c.kind, c.addr, c.addrVec, true, clk, -1)
    ensures var b := Received(a, c, max, clk);
            && (c.kind == Read && |a.p.readq| < max ==>
                  b.p == if !c.ab && exists j :: 0 <= j < |a.p.writeq| && a.p.writeq[j].addr == c.addr
                         then a.p.(pending := a.p.pending + [r.(depart := clk + 1)])
                         else a.p.(readq := a.p.readq + [r]))
            && (c.kind == Write && |a.p.writeq| < max ==> b.p == a.p.(writeq := a.p.writeq + [r]))
            && (!IsData(c.kind) && |a.p.otherq| < max ==> b.p == a.p.(otherq := a.p.otherq + [r]))
    ensures var full := match c.kind case Read => |a.p.readq| == max case Write => |a.p.writeq| == max
                                     case _ => |a.p.otherq| == max;
            full ==> Received(a, c, max, clk) == a
  {
  }

  /** What an accepted call does to the waiting requests. */
  lemma ReceivedWaiting(a: Accepted, c: Call, max: nat, clk: int)
    requires Tidy(a.p, a.count)
    ensures var b, x := Received(a, c, max, clk), Tag(a.count, c.kind, c.addr);
            && Tidy(b.p, b.count)
            && Waiting(b.p) == Waiting(a.p)
               + if (c.kind == Read && |a.p.readq| != max && (c.ab || !HasAddr(a.p.writeq, c.addr)))
                    || (c.kind == Write && |a.p.writeq| != max) then {x} else {}
  {
    var b := Received(a, c, max, clk);
    var r := Request(a.count, c.kind, c.addr, c.addrVec, true, clk, -1);
    TagsPush(a.p.readq, r);
    TagsPush(a.p.writeq, r);
    assert c.kind == Read ==> b.p.writeq == a.p.writeq && b.p.actq == a.p.actq;
    assert c.kind == Write ==> b.p.readq == a.p.readq && b.p.actq == a.p.actq;
  }

  /** enqueue and enqueue_AB keep reads behind the writes that they should see exactly if the call is no hazard. */
  lemma ReceivedExactly(a: Accepted, c: Call, max: nat, clk: int)
    requires Ordered(a.p, a.count)
    ensures var b := Received(a, c, max, clk); Tidy(b.p, b.count) && (InOrder(Waiting(b.p)) <==> !Hazard(a.p, c, max))
  {
    ReceivedWaiting(a, c, max, clk);
    WaitingWrite(a.p, a.count, c.addr);
    if IsData(c.kind) { NewestOrdered(Waiting(a.p), Tag(a.count, c.kind, c.addr)); }
    assert Waiting(a.p) + {} == Waiting(a.p);
  }

  /** None of these calls is a hazard when it comes. */
  ghost predicate SafeCalls(a: Accepted, calls: seq<Call>, max: nat, clk: int)
  {
    calls != [] ==>
      && SafeCalls(a, calls[..|calls| - 1], max, clk)
      && !Hazard(AllReceived(a, calls[..|calls| - 1], max, clk).p, calls[|calls| - 1], max)
  }

  lemma {:induction false} AllReceivedOrdered(a: Accepted, calls: seq<Call>, max: nat, clk: int)
    requires Ordered(a.p, a.count) && SafeCalls(a, calls, max, clk)
    ensures var b := AllReceived(a, calls, max, clk); Ordered(b.p, b.count)
  {
    if calls != [] {
      var before := calls[..|calls| - 1];
      AllReceivedOrdered(a, before, max, clk);
      ReceivedExactly(AllReceived(a, before, max, clk), calls[|calls| - 1], max, clk);
    }
  }

  lemma StartedOrdered(p: Places, n: Name, i: nat, count: int)
    requires Ordered(p, count) && i < |p.Get(n)|
    ensures Ordered(Started(p, n, i), count)
  {
    TagsMark(p.Get(n), i);
    FewerOrdered(p, Started(p, n, i), count);
  }

  lemma CompletedOrdered(p: Places, n: Name, i: nat, depart: int, count: int)
    requires Ordered(p, count) && i < |p.Get(n)|
    ensures Ordered(Completion(p, n, i, depart), count)
  {
    TagsErase(p.Get(n), i);
    FewerOrdered(p, Completion(p, n, i, depart), count);
  }

  /** Promotion moves a request; an activated one only changes its place. */
  lemma PromotedOrdered(p: Places, n: Name, i: nat, count: int)
    requires Ordered(p, count) && i < |p.Get(n)| && n != OtherQ
    ensures Ordered(Promotion(p, n, i), count)
  {
    var r := p.Get(n)[i];
    TagsPush(p.actq, r);
    TagsErase(p.Get(n), i);
    if n == ActQ { TagsErase(p.actq + [r], i); }
    assert Waiting(Promotion(p, n, i)) <= Waiting(p);
    FewerOrdered(p, Promotion(p, n, i), count);
  }

  /** The calls of a cycle: those of the read that is reported, and of the write that ends. */
  ghost predicate SafeCycle(c: Snapshot, ab: bool, e: Environment, k: Parameters)
    requires IsEnvironment(e)
  {
    var b := Prepared(c, ab, e, k);
    var ch := Chosen(b.p, b.mode.write, e);
    && (Due(c.p, c.clk + 1) ==>
          SafeCalls(Accepted(Reported(c.p, c.clk + 1), c.count), e.onRead, k.max, c.clk + 1))
    && (ch.found && b.p.Get(ch.queue)[ch.i].kind == Write ==>
          SafeCalls(Accepted(Started(b.p, ch.queue, ch.i), b.count), e.onWrite, k.max, b.clk))
  }

  lemma {:induction false} RefreshedTidy(a: Accepted, refreshes: seq<seq<int>>, max: nat, clk: int)
    requires Ordered(a.p, a.count)
    ensures var b := Refreshed(a, refreshes, max, clk); Ordered(b.p, b.count)
  {
    if refreshes != [] { RefreshedTidy(a, refreshes[..|refreshes| - 1], max, clk); }
  }

  lemma PreparedOrdered(c: Snapshot, ab: bool, e: Environment, k: Parameters)
    requires Ordered(c.p, c.count)
    requires Due(c.p, c.clk + 1) ==>
               SafeCalls(Accepted(Reported(c.p, c.clk + 1), c.count), e.onRead, k.max, c.clk + 1)
    ensures Ordered(Prepared(c, ab, e, k).p, Prepared(c, ab, e, k).count)
  {
    var a := Accepted(c.p, c.count);
    var b := Answered(a, e.onRead, k.max, c.clk + 1);
    if Due(c.p, c.clk + 1) {
      FewerOrdered(c.p, Reported(c.p, c.clk + 1), c.count);
      AllReceivedOrdered(a.(p := Reported(c.p, c.clk + 1)), e.onRead, k.max, c.clk + 1);
    }
    RefreshedTidy(b, e.refreshes, k.max, c.clk + 1);
  }

  lemma FinishedOrdered(a: Accepted, n: Name, i: nat, e: Environment, k: Parameters, clk: int)
    requires Ordered(a.p, a.count) && i < |a.p.Get(n)|
    requires a.p.Get(n)[i].kind == Write ==> SafeCalls(a, e.onWrite, k.max, clk)
    ensures var b := Finished(a, n, i, e, k, clk); Ordered(b.p, b.count)
  {
    var b := a;
    if a.p.Get(n)[i].kind == Write {
      AllReceivedOrdered(a, e.onWrite, k.max, clk);
      b := AllReceived(a, e.onWrite, k.max, clk);
    }
    ReceivedExtends(a, e.onWrite, k.max, clk);
    CompletedOrdered(b.p, n, i, clk + k.readLatency, b.count);
  }

  lemma ContinuedOrdered(a: Accepted, n: Name, i: nat, cmd: Command, e: Environment, k: Parameters, clk: int)
    requires Ordered(a.p, a.count) && i < |a.p.Get(n)| && (cmd == ACT ==> n != OtherQ)
    requires a.p.Get(n)[i].kind == Write ==> SafeCalls(a, e.onWrite, k.max, clk)
    ensures var b := Continuation(a, n, i, cmd, e, k, clk); Ordered(b.p, b.count)
  {
    if cmd == Translate(a.p.Get(n)[i].kind) {
      FinishedOrdered(a, n, i, e, k, clk);
    } else if cmd == ACT {
      PromotedOrdered(a.p, n, i, a.count);
    }
  }

  lemma SteppedOrdered(c: Snapshot, ab: bool, n: Name, i: nat, e: Environment, k: Parameters)
    requires IsEnvironment(e) && Ordered(c.p, c.count) && i < |c.p.Get(n)|
    requires c.p.Get(n)[i].kind == Write ==> SafeCalls(Accepted(Started(c.p, n, i), c.count), e.onWrite, k.max, c.clk)
    ensures var b := Stepped(c, ab, n, i, e, k); Ordered(b.p, b.count)
  {
    var r := c.p.Get(n)[i];
    var cmd := e.decode(r.kind, r.addrVec);
    StartedOrdered(c.p, n, i, c.count);
    if n == OtherQ { assert r == c.p.otherq[i]; }
    assert Started(c.p, n, i).Get(n)[i].kind == r.kind;
    ContinuedOrdered(Accepted(Started(c.p, n, i), c.count), n, i, cmd, e, k, c.clk);
  }

  /** No call of this event is a hazard. */
  ghost predicate SafeEvent(c: Snapshot, v: ControllerRun.Event, k: Parameters)
    requires ControllerRun.IsEvent(v)
  {
    match v
    case Send(call) => !Hazard(c.p, call, k.max)
    case Cycle(env, ab) => SafeCycle(c, ab, env, k)
  }

  lemma CycleOrdered(c: Snapshot, ab: bool, e: Environment, k: Parameters)
    requires IsEnvironment(e) && Ordered(c.p, c.count) && SafeCycle(c, ab, e, k)
    ensures var b := Ticked(c, ab, e, k); Ordered(b.p, b.count)
  {
    PreparedOrdered(c, ab, e, k);
    var b := Prepared(c, ab, e, k);
    var ch := Chosen(b.p, b.mode.write, e);
    if ch.found { SteppedOrdered(b.(mode := Unblocked(ab, b.mode, ch)), ab, ch.queue, ch.i, e, k); }
  }

  lemma EventOrdered(c: Snapshot, v: ControllerRun.Event, k: Parameters)
    requires ControllerRun.IsEvent(v) && Ordered(c.p, c.count) && SafeEvent(c, v, k)
    ensures var b := ControllerRun.After(c, v, k); Ordered(b.p, b.count)
  {
    match v
    case Send(call) => ReceivedExactly(Accepted(c.p, c.count), call, k.max, c.clk);
    case Cycle(env, ab) => CycleOrdered(c, ab, env, k);
  }

  /** In every run without hazards, its callbacks included, no read overtakes a write that it should see. */
  lemma {:induction false} RunsOrdered(c: Snapshot, events: seq<ControllerRun.Event>, k: Parameters, n: nat)
    requires (forall j :: 0 <= j < |events| ==> ControllerRun.IsEvent(events[j])) && Ordered(c.p, c.count)
    requires n <= |events|
             && forall j :: 0 <= j < n ==> SafeEvent(ControllerOrder.At(c, events, k, j), events[j], k)
    ensures var b := ControllerOrder.At(c, events, k, n); Ordered(b.p, b.count)
  {
    if n > 0 {
      RunsOrdered(c, events, k, n - 1);
      ControllerOrder.OneFurther(c, events, k, n - 1, n);
      EventOrdered(ControllerOrder.At(c, events, k, n - 1), events[n - 1], k);
    }
  }

  /** Requests from outside only. */
  ghost predicate NoCallbacks(events: seq<ControllerRun.Event>)
  {
    forall j :: 0 <= j < |events| && events[j].Cycle? ==> events[j].env.onRead == [] && events[j].env.onWrite == []
  }

  ghost predicate NoHazard(c: Snapshot, events: seq<ControllerRun.Event>, k: Parameters, n: nat)
    requires n < |events| && forall j :: 0 <= j < |events| ==> ControllerRun.IsEvent(events[j])
  {
    events[n].Send? ==> !Hazard(ControllerOrder.At(c, events, k, n).p, events[n].call, k.max)
  }

  ghost predicate InOrderAt(c: Snapshot, events: seq<ControllerRun.Event>, k: Parameters, n: nat)
    requires n <= |events| && forall j :: 0 <= j < |events| ==> ControllerRun.IsEvent(events[j])
  {
    InOrder(Waiting(ControllerOrder.At(c, events, k, n).p))
  }

  lemma QuietIsSafe(c: Snapshot, events: seq<ControllerRun.Event>, k: Parameters, n: nat)
    requires (forall j :: 0 <= j < |events| ==> ControllerRun.IsEvent(events[j])) && NoCallbacks(events)
    requires n < |events| && NoHazard(c, events, k, n)
    ensures SafeEvent(ControllerOrder.At(c, events, k, n), events[n], k)
  {
  }

  lemma {:induction false} FirstFalse(flags: seq<bool>) returns (n: nat)
    ensures n <= |flags| && (forall m :: 0 <= m < n ==> flags[m]) && (n < |flags| ==> !flags[n])
  {
    n := 0;
    if flags != [] && flags[0] {
      n := FirstFalse(flags[1..]);
      n := n + 1;
    }
  }

  /** The first hazard of a run. */
  lemma FirstHazard(c: Snapshot, events: seq<ControllerRun.Event>, k: Parameters) returns (n: nat)
    requires forall j :: 0 <= j < |events| ==> ControllerRun.IsEvent(events[j])
    ensures n <= |events| && forall m :: 0 <= m < n ==> NoHazard(c, events, k, m)
    ensures n < |events| ==> !NoHazard(c, events, k, n)
  {
    var flags := seq(|events|, i requires 0 <= i < |events| => NoHazard(c, events, k, i));
    n := FirstFalse(flags);
    forall m | 0 <= m < n ensures NoHazard(c, events, k, m) { assert flags[m]; }
  }

  lemma SafeUpTo(c: Snapshot, events: seq<ControllerRun.Event>, k: Parameters, n: nat)
    requires (forall j :: 0 <= j < |events| ==> ControllerRun.IsEvent(events[j])) && NoCallbacks(events)
    requires Ordered(c.p, c.count) && n <= |events| && forall m :: 0 <= m < n ==> NoHazard(c, events, k, m)
    ensures var b := ControllerOrder.At(c, events, k, n); Ordered(b.p, b.count)
  {
    forall j | 0 <= j < n ensures SafeEvent(ControllerOrder.At(c, events, k, j), events[j], k) {
      QuietIsSafe(c, events, k, j);
    }
    RunsOrdered(c, events, k, n);
  }

  /** And exactly then: in a run of requests and cycles reads stay behind the writes that they should see throughout,
      if and only if no read is ever queued while a write of its address is activated (or, by enqueue_AB, waits). */
  lemma OrderOfRuns(c: Snapshot, events: seq<ControllerRun.Event>, k: Parameters)
    requires (forall j :: 0 <= j < |events| ==> ControllerRun.IsEvent(events[j])) && NoCallbacks(events)
    requires Ordered(c.p, c.count)
    ensures (forall n :: 0 <= n <= |events| ==> InOrderAt(c, events, k, n)) <==>
              (forall n :: 0 <= n < |events| ==> NoHazard(c, events, k, n))
  {
    var n := FirstHazard(c, events, k);
    SafeUpTo(c, events, k, n);
    if n == |events| {
      forall m | 0 <= m <= |events| ensures InOrderAt(c, events, k, m) { SafeUpTo(c, events, k, m); }
    } else {
      var b := ControllerOrder.At(c, events, k, n);
      ReceivedExactly(Accepted(b.p, b.count), events[n].call, k.max, b.clk);
      ControllerOrder.OneFurther(c, events, k, n, n + 1);
      assert !InOrderAt(c, events, k, n + 1);
    }
  }

  /** The row is open, and only reads are ready. */
  function ReadsReady(): Environment
  {
    Environment((q: seq<Request>) => 0, (k, a) => Translate(k), (k, a) => k == Read, (k, a) => true, [], [], [], [])
  }

  lemma WriteStarts(c: Snapshot, k: Parameters, w: Request, b: Snapshot)
    requires c.p == Places([], [w], [], [], [], [], []) && w.kind == Write && c.mode == Mode(false, false)
    requires b == Snapshot(c.p, c.count, c.clk + 1, Mode(true, false))
    ensures IsEnvironment(ControllerRun.Cold()) && Prepared(c, false, ControllerRun.Cold(), k) == b
    ensures Chosen(b.p, true, ControllerRun.Cold()) == Choice(WriteQ, 0, true)
  {
  }

  lemma WriteIsPromoted(b: Snapshot, k: Parameters, w: Request)
    requires b.p == Places([], [w], [], [], [], [], []) && w.kind == Write && b.mode == Mode(true, false)
    requires IsEnvironment(ControllerRun.Cold())
             && Chosen(b.p, true, ControllerRun.Cold()) == Choice(WriteQ, 0, true)
    ensures Scheduled(b, false, ControllerRun.Cold(), k) ==
            b.(p := Places([], [], [w.(first := false)], [], [], [], []))
  {
    assert Started(b.p, WriteQ, 0) == b.p.(writeq := [w.(first := false)]);
    assert Erase([w.(first := false)], 0) == [];
  }

  lemma WriteActivates(c: Snapshot, k: Parameters, w: Request)
    requires c.p == Places([], [w], [], [], [], [], []) && w.kind == Write && c.mode == Mode(false, false)
    ensures IsEnvironment(ControllerRun.Cold())
    ensures var next := Ticked(c, false, ControllerRun.Cold(), k);
            && next.p == Places([], [], [w.(first := false)], [], [], [], [])
            && next.mode == Mode(true, false) && next.count == c.count && next.clk == c.clk + 1
  {
    var b := Snapshot(c.p, c.count, c.clk + 1, Mode(true, false));
    WriteStarts(c, k, w, b);
    WriteIsPromoted(b, k, w);
  }

  lemma ReadStarts(c: Snapshot, k: Parameters, w: Request, r: Request, b: Snapshot)
    requires c.p == Places([r], [], [w], [], [], [], []) && w.kind == Write && r.kind == Read && k.low >= 1
             && c.mode == Mode(true, false)
    requires b == Snapshot(c.p, c.count, c.clk + 1, Mode(false, false))
    ensures IsEnvironment(ReadsReady()) && Prepared(c, false, ReadsReady(), k) == b
    ensures Chosen(b.p, false, ReadsReady()) == Choice(ReadQ, 0, true)
  {
  }

  lemma ReadIsIssued(b: Snapshot, k: Parameters, w: Request, r: Request)
    requires b.p == Places([r], [], [w], [], [], [], []) && r.kind == Read && !k.closedAp && b.mode.write == false
    requires IsEnvironment(ReadsReady()) && Chosen(b.p, false, ReadsReady()) == Choice(ReadQ, 0, true)
    ensures IssuedBy(b, ReadsReady(), k) == [(RD, r.addrVec)]
  {
  }

  lemma ReadEnds(b: Snapshot, k: Parameters, w: Request, r: Request)
    requires b.p == Places([r], [], [w], [], [], [], []) && r.kind == Read && b.mode.write == false
    requires IsEnvironment(ReadsReady()) && Chosen(b.p, false, ReadsReady()) == Choice(ReadQ, 0, true)
    ensures Scheduled(b, false, ReadsReady(), k).p ==
            Places([], [], [w], [], [r.(first := false, depart := b.clk + k.readLatency)], [], [])
  {
    assert Started(b.p, ReadQ, 0) == b.p.(readq := [r.(first := false)]);
    assert Erase([r.(first := false)], 0) == [];
  }

  lemma ReadGoesFirst(c: Snapshot, k: Parameters, w: Request, r: Request)
    requires c.p == Places([r], [], [w], [], [], [], []) && w.kind == Write && r.kind == Read && k.low >= 1
             && c.mode == Mode(true, false) && !k.closedAp
    ensures IsEnvironment(ReadsReady())
    ensures IssuedBy(Prepared(c, false, ReadsReady(), k), ReadsReady(), k) == [(RD, r.addrVec)]
    ensures var depart := c.clk + 1 + k.readLatency;
            Ticked(c, false, ReadsReady(), k).p ==
            Places([], [], [w], [], [r.(first := false, depart := depart)], [], [])
  {
    var b := Snapshot(c.p, c.count, c.clk + 1, Mode(false, false));
    ReadStarts(c, k, w, r, b);
    ReadIsIssued(b, k, w, r);
    ReadEnds(b, k, w, r);
  }

  lemma CallQueued(a: Accepted, call: Call, max: nat, clk: int, r: Request)
    requires a.p.writeq == [] && |a.p.Get(QueueOf(call.kind))| != max && !call.ab
    requires r == Request(a.count, call.kind, call.addr, call.addrVec, true, clk, -1)
    ensures Received(a, call, max, clk) ==
            Accepted(a.p.With(QueueOf(call.kind), a.p.Get(QueueOf(call.kind)) + [r]), a.count + 1)
  {
  }

  /** A write of a new controller is activated, and a read of its address sent. */
  method ActivateWrite(max: nat, high: nat, low: nat, readLatency: nat, addr: int, addrVec: seq<int>)
    returns (c: Controller, ghost w: Request, ghost r: Request)
    requires max >= 1 && readLatency >= 2
    ensures fresh(c) && fresh(c.meter) && c.Inv() && c.Setup() == Parameters(max, high, low, readLatency, false)
    ensures c.Current() == Snapshot(Places([r], [], [w], [], [], [], []), 2, 1, Mode(true, false))
    ensures w == Request(0, Write, addr, addrVec, false, 0, -1) && r == Request(1, Read, addr, addrVec, true, 1, -1)
  {
    c := new Controller([], max, high, low, readLatency, false);
    ghost var first := Request(0, Write, addr, addrVec, true, 0, -1);
    CallQueued(Accepted(c.Now(), c.accepted), Call(Write, addr, addrVec, false), max, c.clk, first);
    var _ := c.Enqueue(Call(Write, addr, addrVec, false));
    WriteActivates(c.Current(), c.Setup(), first);
    var _ := c.Tick(false, ControllerRun.Cold());
    w, r := first.(first := false), Request(1, Read, addr, addrVec, true, 1, -1);
    CallQueued(Accepted(c.Now(), c.accepted), Call(Read, addr, addrVec, false), max, c.clk, r);
    var _ := c.Enqueue(Call(Read, addr, addrVec, false));
  }

  /** It happens: on a new controller a write is sent and activated, a read of its address is sent, and gets its RD
      while the write still waits. */
  method Overtakes(max: nat, high: nat, low: nat, readLatency: nat, addr: int, addrVec: seq<int>)
    returns (c: Controller, issued: seq<(Command, seq<int>)>, ghost w: Request, ghost r: Request)
    requires max >= 1 && low >= 1 && readLatency >= 2
    ensures fresh(c) && fresh(c.meter) && c.Inv() && issued == [(RD, addrVec)]
    ensures var p := Places([], [], [w], [], [r], [], []); c.Now() == p
    ensures w.kind == Write && r.kind == Read && w.addr == r.addr == addr && w.id < r.id
  {
    ghost var waiting;
    c, w, waiting := ActivateWrite(max, high, low, readLatency, addr, addrVec);
    ghost var k := c.Setup();
    ReadGoesFirst(c.Current(), k, w, waiting);
    issued := c.Tick(false, ReadsReady());
    r := waiting.(first := false, depart := 2 + readLatency);
  }
}
