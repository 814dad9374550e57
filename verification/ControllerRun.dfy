/** Runs of the memory controller: any interleaving of enqueue, tick, enqueue_AB and tick_AB (Controller.h). */
module ControllerRun {
  import opened DramSpec
  import opened ControllerQueues
  import opened ControllerSpec
  import opened ControllerRows
  import opened Controller

  /** A call from outside. */
  datatype Event = Send(call: Call) | Cycle(env: Environment, ab: bool)

  ghost predicate IsEvent(v: Event) { v.Cycle? ==> IsEnvironment(v.env) }

  ghost function After(c: Snapshot, v: Event, k: Parameters): Snapshot
    requires IsEvent(v)
  {
    match v
    case Send(call) =>
      var a := Received(Accepted(c.p, c.count), call, k.max, c.clk);
      c.(p := a.p, count := a.count)
    case Cycle(env, ab) => Ticked(c, ab, env, k)
  }

  ghost function Ran(c: Snapshot, events: seq<Event>, k: Parameters): Snapshot
    requires forall i :: 0 <= i < |events| ==> IsEvent(events[i])
  {
    if events == [] then c else After(Ran(c, events[..|events| - 1], k), events[|events| - 1], k)
  }

  /** The read that was in place i of the pending ones is in place j, with everything that is still before it. */
  ghost predicate At(c: Snapshot, b: Snapshot, i: nat, j: nat)
    requires i < |c.p.pending|
  {
    j <= i && j < |b.p.pending| && b.p.pending[..j + 1] == c.p.pending[i - j..i + 1]
  }

  /** The read at position i of the pending ones has been reported, or has only j others before it, and the clock is
      not late for that. */
  ghost predicate Waits(c: Snapshot, b: Snapshot, i: nat, d: int)
    requires i < |c.p.pending|
  {
    || c.p.pending[i].id in b.p.reported
    || exists j: nat {:trigger At(c, b, i, j)} :: At(c, b, i, j) && b.clk + j <= Max(d, c.clk) + i
  }

  lemma Stays(c: Snapshot, b: Snapshot, next: Snapshot, i: nat, j: nat)
    requires i < |c.p.pending| && At(c, b, i, j) && b.p.pending <= next.p.pending
    ensures At(c, next, i, j)
  {
    assert next.p.pending[..j + 1] == b.p.pending[..j + 1];
  }

  lemma MovesUp(c: Snapshot, b: Snapshot, next: Snapshot, i: nat, j: nat)
    requires i < |c.p.pending| && At(c, b, i, j) && j > 0 && b.p.pending[1..] <= next.p.pending
    ensures At(c, next, i, j - 1)
  {
    assert next.p.pending[..j] == b.p.pending[..j + 1][1..] == c.p.pending[i - j..i + 1][1..];
  }

  lemma WaitsWhileSent(c: Snapshot, b: Snapshot, v: Event, k: Parameters, i: nat, d: int)
    requires i < |c.p.pending| && v.Send? && Waits(c, b, i, d)
    ensures Waits(c, After(b, v, k), i, d)
  {
    var next := After(b, v, k);
    assert b.p.pending <= next.p.pending && next.p.reported == b.p.reported && next.clk == b.clk;
    if c.p.pending[i].id !in b.p.reported {
      var j: nat :| At(c, b, i, j) && b.clk + j <= Max(d, c.clk) + i;
      Stays(c, b, next, i, j);
    }
  }

  lemma StillIn(id: int, a: seq<int>, b: seq<int>)
    requires a <= b && id in a
    ensures id in b
  {
    var k :| 0 <= k < |a| && a[k] == id;
    assert b[k] == id;
  }

  lemma HeadOf(c: Snapshot, b: Snapshot, i: nat, j: nat)
    requires i < |c.p.pending| && At(c, b, i, j)
    ensures b.p.pending != [] && b.p.pending[0] == c.p.pending[i - j]
  {
    assert b.p.pending[..j + 1][0] == c.p.pending[i - j..i + 1][0];
  }

  /** In a cycle it is reported, or moves up by one, or nothing is due. */
  lemma AtInCycle(c: Snapshot, b: Snapshot, next: Snapshot, i: nat, j: nat)
    requires i < |c.p.pending| && At(c, b, i, j) && PendingTicks(b.p.pending, next.p.pending, b.clk + 1)
    requires Reported(b.p, b.clk + 1).reported <= next.p.reported
    ensures if c.p.pending[i - j].depart > b.clk + 1 then At(c, next, i, j)
            else if j > 0 then At(c, next, i, j - 1)
            else c.p.pending[i].id in next.p.reported
  {
    HeadOf(c, b, i, j);
    if c.p.pending[i - j].depart > b.clk + 1 {
      Stays(c, b, next, i, j);
    } else if j > 0 {
      MovesUp(c, b, next, i, j);
    } else {
      assert Reported(b.p, b.clk + 1).reported[|b.p.reported|] == c.p.pending[i].id;
      StillIn(c.p.pending[i].id, Reported(b.p, b.clk + 1).reported, next.p.reported);
    }
  }

  lemma WaitsInCycle(c: Snapshot, b: Snapshot, next: Snapshot, i: nat, d: int)
    requires i < |c.p.pending| && Waits(c, b, i, d) && next.clk == b.clk + 1
    requires forall j :: 0 <= j <= i ==> c.p.pending[j].depart <= d
    requires PendingTicks(b.p.pending, next.p.pending, b.clk + 1)
             && Reported(b.p, b.clk + 1).reported <= next.p.reported
    ensures Waits(c, next, i, d)
  {
    if c.p.pending[i].id in b.p.reported {
      assert b.p.reported <= Reported(b.p, b.clk + 1).reported;
      StillIn(c.p.pending[i].id, b.p.reported, next.p.reported);
    } else {
      var j: nat :| At(c, b, i, j) && b.clk + j <= Max(d, c.clk) + i;
      AtInCycle(c, b, next, i, j);
      assert c.p.pending[i - j].depart <= d;
    }
  }

  lemma WaitsOn(c: Snapshot, b: Snapshot, v: Event, k: Parameters, i: nat, d: int)
    requires i < |c.p.pending| && IsEvent(v) && Waits(c, b, i, d)
    requires forall j :: 0 <= j <= i ==> c.p.pending[j].depart <= d
    ensures Waits(c, After(b, v, k), i, d)
  {
    if v.Send? {
      WaitsWhileSent(c, b, v, k, i, d);
    } else {
      PendingTicked(b, v.ab, v.env, k);
      WaitsInCycle(c, b, After(b, v, k), i, d);
    }
  }

  lemma {:induction false} WaitsThroughout(c: Snapshot, events: seq<Event>, k: Parameters, i: nat, d: int)
    requires (forall j :: 0 <= j < |events| ==> IsEvent(events[j])) && i < |c.p.pending|
    requires forall j :: 0 <= j <= i ==> c.p.pending[j].depart <= d
    ensures Waits(c, Ran(c, events, k), i, d)
  {
    if events == [] {
      assert At(c, c, i, i);
    } else {
      var before := events[..|events| - 1];
      WaitsThroughout(c, before, k, i, d);
      WaitsOn(c, Ran(c, before, k), events[|events| - 1], k, i, d);
    }
  }

  /** Every pending read is reported in time: the one at position i, with departures up to it at most d, by clock
      max(d, now) + i + 1, whatever else is sent and however the cycles go. */
  lemma ReportedInTime(c: Snapshot, events: seq<Event>, k: Parameters, i: nat, d: int)
    requires (forall j :: 0 <= j < |events| ==> IsEvent(events[j])) && i < |c.p.pending|
    requires forall j :: 0 <= j <= i ==> c.p.pending[j].depart <= d
    requires Ran(c, events, k).clk >= Max(d, c.clk) + i + 1
    ensures c.p.pending[i].id in Ran(c, events, k).p.reported
  {
    WaitsThroughout(c, events, k, i, d);
  }

  /** A whole run of a controller. */
  method Drive(c: Controller, events: seq<Event>)
    requires c.Inv() && forall j :: 0 <= j < |events| ==> IsEvent(events[j])
    modifies c, c.meter
    ensures c.Inv() && c.Current() == Ran(old(c.Current()), events, c.Setup())
    ensures forall i: nat, d: int ::
              i < |old(c.pending)| && (forall j :: 0 <= j <= i ==> old(c.pending)[j].depart <= d)
              && c.clk >= Max(d, old(c.clk)) + i + 1
              ==> old(c.pending)[i].id in c.reported
  {
    ghost var from := c.Current();
    var n := 0;
    while n < |events|
      invariant n <= |events| && c.Inv() && c.Current() == Ran(from, events[..n], c.Setup())
    {
      assert events[..n + 1][..n] == events[..n];
      match events[n] {
        case Send(call) => var _ := c.Enqueue(call);
        case Cycle(env, ab) => var _ := c.Tick(ab, env);
      }
      n := n + 1;
    }
    assert events[..n] == events;
    forall i: nat, d: int
      | i < |from.p.pending| && (forall j :: 0 <= j <= i ==> from.p.pending[j].depart <= d)
        && c.clk >= Max(d, from.clk) + i + 1
      ensures from.p.pending[i].id in c.reported
    {
      ReportedInTime(from, events, c.Setup(), i, d);
    }
  }

  /** All banks are closed, and every command is ready. */
  function Cold(): Environment
  {
    Environment((q: seq<Request>) => 0, (k, a) => if IsData(k) then ACT else Translate(k), (k, a) => true,
                (k, a) => false, [], [], [], [])
  }

  /** The only request is a read, which is activated. */
  lemma Activates(c: Snapshot, k: Parameters, r: Request)
    requires c.p == Places([r], [], [], [], [], [], []) && r.kind == Read && c.mode == Mode(false, false)
    ensures IsEnvironment(Cold())
    ensures var next := Ticked(c, false, Cold(), k);
            && next.p == Places([], [], [r.(first := false)], [], [], [], [])
            && next.mode == c.mode && next.count == c.count && next.clk == c.clk + 1
  {
    var b := Prepared(c, false, Cold(), k);
    assert b == Snapshot(c.p, c.count, c.clk + 1, c.mode);
    assert Chosen(b.p, false, Cold()) == Choice(ReadQ, 0, true);
    assert Started(b.p, ReadQ, 0) == c.p.(readq := [r.(first := false)]);
    assert Erase([r.(first := false)], 0) == [];
  }

  /** The activated read is upgraded, although another one is queued for the row. */
  lemma ClosesEarly(c: Snapshot, k: Parameters, r: Request, q: Request)
    requires c.p == Places([q], [], [r], [], [], [], []) && r.kind == Read && !r.first && q.kind == Read
             && c.mode == Mode(false, false)
    requires RowGroup(r.addrVec) == RowGroup(q.addrVec) && k.closedAp
    ensures IsEnvironment(Calm()) && IssuedBy(Prepared(c, false, Calm(), k), Calm(), k) == [(RDA, r.addrVec)]
    ensures Ticked(c, false, Calm(), k).p.readq == [q]
  {
    var b := Prepared(c, false, Calm(), k);
    assert b == Snapshot(c.p, c.count, c.clk + 1, c.mode);
    assert Chosen(b.p, false, Calm()) == Choice(ActQ, 0, true);
    assert Started(b.p, ActQ, 0) == c.p by { assert [r][0 := r.(first := false)] == [r]; }
    assert HitsRow(q, r.addrVec, Calm().hit);
    assert OnlyHit([q], 0, r.addrVec, Calm().hit);
    OneHit([q], 0, r.addrVec, Calm().hit);
  }

  lemma ReadQueued(a: Accepted, call: Call, max: nat, clk: int, r: Request)
    requires call.kind == Read && a.p.writeq == [] && |a.p.readq| != max
    requires r == Request(a.count, Read, call.addr, call.addrVec, true, clk, -1)
    ensures Received(a, call, max, clk) == Accepted(a.p.(readq := a.p.readq + [r]), a.count + 1)
  {
  }

  /** A read of a new controller is activated, and another one sent. */
  method ActivateOne(max: nat, high: nat, low: nat, readLatency: nat, addrVec: seq<int>, other: seq<int>)
    returns (c: Controller, ghost r: Request, ghost q: Request)
    requires max >= 1 && readLatency >= 2
    ensures fresh(c) && fresh(c.meter) && c.Inv() && c.Setup() == Parameters(max, high, low, readLatency, true)
    ensures c.Current() == Snapshot(Places([q], [], [r], [], [], [], []), 2, 1, Mode(false, false))
    ensures r == Request(0, Read, 0, addrVec, false, 0, -1) && q == Request(1, Read, 1, other, true, 1, -1)
  {
    c := new Controller([], max, high, low, readLatency, true);
    ghost var first := Request(0, Read, 0, addrVec, true, 0, -1);
    ReadQueued(Accepted(c.Now(), c.accepted), Call(Read, 0, addrVec, false), max, c.clk, first);
    var _ := c.Enqueue(Call(Read, 0, addrVec, false));
    Activates(c.Current(), c.Setup(), first);
    var _ := c.Tick(false, Cold());
    r, q := first.(first := false), Request(1, Read, 1, other, true, 1, -1);
    ReadQueued(Accepted(c.Now(), c.accepted), Call(Read, 1, other, false), max, c.clk, q);
    var _ := c.Enqueue(Call(Read, 1, other, false));
  }

  /** The early close on a new controller: a read is sent and activated, another one is sent for the same row, and the
      first one is issued as RDA while the other one waits for the row. */
  method EarlyClose(max: nat, high: nat, low: nat, readLatency: nat, addrVec: seq<int>, other: seq<int>)
    returns (c: Controller, issued: seq<(Command, seq<int>)>)
    requires max >= 1 && readLatency >= 2 && RowGroup(addrVec) == RowGroup(other)
    ensures fresh(c) && fresh(c.meter) && c.Inv() && issued == [(RDA, addrVec)]
    ensures |c.readq| == 1 && HitsRow(c.readq[0], addrVec, Calm().hit)
  {
    ghost var r, q;
    c, r, q := ActivateOne(max, high, low, readLatency, addrVec, other);
    ghost var k := c.Setup();
    ClosesEarly(c.Current(), k, r, q);
    issued := c.Tick(false, Calm());
    assert c.Now().readq == [q];
  }
}
