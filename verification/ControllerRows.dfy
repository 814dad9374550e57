/** Which requests are upgraded to auto-precharge, and whether they are the last ones for their row (Controller.h). */
module ControllerRows {
  import opened DramSpec
  import DramLegal
  import opened DramState
  import opened ControllerQueues
  import opened ControllerSpec

  ghost predicate NoneHits(q: seq<Request>, addrVec: seq<int>, hit: (Kind, seq<int>) -> bool)
  {
    forall j :: 0 <= j < |q| ==> !HitsRow(q[j], addrVec, hit)
  }

  /** Of a queue, request i alone hits the row. */
  ghost predicate OnlyHit(q: seq<Request>, i: nat, addrVec: seq<int>, hit: (Kind, seq<int>) -> bool)
  {
    i < |q| && HitsRow(q[i], addrVec, hit) && forall j :: 0 <= j < |q| && j != i ==> !HitsRow(q[j], addrVec, hit)
  }

  lemma {:induction false} ZeroHits(q: seq<Request>, addrVec: seq<int>, hit: (Kind, seq<int>) -> bool)
    ensures RowHits(q, addrVec, hit) == 0 <==> NoneHits(q, addrVec, hit)
  {
    if q != [] {
      var rest := q[..|q| - 1];
      ZeroHits(rest, addrVec, hit);
      var none := NoneHits(q, addrVec, hit);
      assert none <==> NoneHits(rest, addrVec, hit) && !HitsRow(q[|q| - 1], addrVec, hit);
    }
  }

  lemma OwnRowHits(q: seq<Request>, i: nat, addrVec: seq<int>, hit: (Kind, seq<int>) -> bool)
    requires i < |q| && HitsRow(q[i], addrVec, hit)
    ensures RowHits(q, addrVec, hit) > 0
  {
    ZeroHits(q, addrVec, hit);
  }

  lemma {:induction false} OneHit(q: seq<Request>, i: nat, addrVec: seq<int>, hit: (Kind, seq<int>) -> bool)
    requires i < |q| && HitsRow(q[i], addrVec, hit)
    ensures RowHits(q, addrVec, hit) == 1 <==> OnlyHit(q, i, addrVec, hit)
    decreases |q|
  {
    var n := |q| - 1;
    var rest := q[..n];
    if i == n {
      ZeroHits(rest, addrVec, hit);
      assert OnlyHit(q, i, addrVec, hit) <==> NoneHits(rest, addrVec, hit);
    } else {
      OneHit(rest, i, addrVec, hit);
      OwnRowHits(rest, i, addrVec, hit);
      assert OnlyHit(q, i, addrVec, hit) <==> OnlyHit(rest, i, addrVec, hit) && !HitsRow(q[n], addrVec, hit);
    }
  }

  lemma SomeOneHit(q: seq<Request>, addrVec: seq<int>, hit: (Kind, seq<int>) -> bool)
    ensures RowHits(q, addrVec, hit) == 1 <==> exists i: nat :: OnlyHit(q, i, addrVec, hit)
  {
    if RowHits(q, addrVec, hit) == 1 {
      ZeroHits(q, addrVec, hit);
      var i :| 0 <= i < |q| && HitsRow(q[i], addrVec, hit);
      OneHit(q, i, addrVec, hit);
    } else if i: nat :| OnlyHit(q, i, addrVec, hit) {
      OneHit(q, i, addrVec, hit);
    }
  }

  /** An access for request i of the mode's queue is upgraded exactly if no other request of that queue hits the row. */
  lemma UpgradedFromModeQueue(p: Places, mode: bool, i: nat, cmd: Command, e: Environment, closedAp: bool)
    requires var q := ModeQueue(p, mode); i < |q| && IsAccess(cmd) && e.hit(q[i].kind, q[i].addrVec)
    ensures var a := ModeQueue(p, mode)[i].addrVec;
            Upgraded(p, mode, cmd, a, e, closedAp) ==
            if closedAp && OnlyHit(ModeQueue(p, mode), i, a, e.hit) then DramLegal.Twin(cmd) else cmd
  {
    var q := ModeQueue(p, mode);
    OneHit(q, i, q[i].addrVec, e.hit);
    OwnRowHits(q, i, q[i].addrVec, e.hit);
  }

  /** One for an activated request is upgraded exactly if one request of the mode's queue hits the row, or none does and
      no other activated one. */
  lemma UpgradedFromActivated(p: Places, mode: bool, i: nat, cmd: Command, e: Environment, closedAp: bool)
    requires i < |p.actq| && IsAccess(cmd) && e.hit(p.actq[i].kind, p.actq[i].addrVec)
    ensures var a, q := p.actq[i].addrVec, ModeQueue(p, mode);
            Upgraded(p, mode, cmd, a, e, closedAp) ==
            if closedAp && ((exists j: nat :: OnlyHit(q, j, a, e.hit))
                            || (NoneHits(q, a, e.hit) && OnlyHit(p.actq, i, a, e.hit)))
            then DramLegal.Twin(cmd) else cmd
  {
    var a := p.actq[i].addrVec;
    SomeOneHit(ModeQueue(p, mode), a, e.hit);
    ZeroHits(ModeQueue(p, mode), a, e.hit);
    OneHit(p.actq, i, a, e.hit);
  }

  function QueueName(mode: bool): Name { if mode then WriteQ else ReadQ }

  /** No data queue but n holds a request that hits the row. */
  ghost predicate NoOtherQueueHits(p: Places, n: Name, addrVec: seq<int>, hit: (Kind, seq<int>) -> bool)
  {
    && (n != ReadQ ==> NoneHits(p.readq, addrVec, hit)) && (n != WriteQ ==> NoneHits(p.writeq, addrVec, hit))
    && (n != ActQ ==> NoneHits(p.actq, addrVec, hit))
  }

  /** Of all data queues, request i of queue n alone hits its row. */
  ghost predicate LastForRow(p: Places, n: Name, i: nat, hit: (Kind, seq<int>) -> bool)
    requires i < |p.Get(n)|
  {
    OnlyHit(p.Get(n), i, p.Get(n)[i].addrVec, hit) && NoOtherQueueHits(p, n, p.Get(n)[i].addrVec, hit)
  }

  /** The last request for a row is always upgraded; an upgraded one is the last exactly if no other data queue holds a
      request that hits the row. */
  lemma UpgradeAndLast(p: Places, mode: bool, n: Name, i: nat, cmd: Command, e: Environment, closedAp: bool)
    requires (n == ActQ || n == QueueName(mode)) && i < |p.Get(n)| && IsAccess(cmd)
             && e.hit(p.Get(n)[i].kind, p.Get(n)[i].addrVec)
    ensures var a := p.Get(n)[i].addrVec;
            var upgraded := Upgraded(p, mode, cmd, a, e, closedAp) != cmd;
            && (closedAp && LastForRow(p, n, i, e.hit) ==> upgraded)
            && (upgraded ==> (LastForRow(p, n, i, e.hit) <==> NoOtherQueueHits(p, n, a, e.hit)))
  {
    var a := p.Get(n)[i].addrVec;
    var last := LastForRow(p, n, i, e.hit);
    if n == ActQ {
      UpgradedFromActivated(p, mode, i, cmd, e, closedAp);
      if j: nat :| OnlyHit(ModeQueue(p, mode), j, a, e.hit) {
        assert HitsRow(ModeQueue(p, mode)[j], a, e.hit);
      }
    } else {
      UpgradedFromModeQueue(p, mode, i, cmd, e, closedAp);
    }
  }

  /** Every request is ready and hits. */
  function Calm(): Environment
  {
    Environment((q: seq<Request>) => 0, (k, a) => Translate(k), (k, a) => true, (k, a) => true, [], [], [], [])
  }

  lemma CalmIsEnvironment()
    ensures IsEnvironment(Calm())
  {
  }

  /** Upgraded although others wait for the row: an activated read while one read is queued, and a queued read while an
      activated one waits. */
  lemma UpgradedTooEarly(addrVec: seq<int>, r: Request)
    requires r == Request(0, Read, 0, addrVec, false, 0, -1)
    ensures var p := Places([r.(id := 1)], [], [r], [], [], [], []);
            && Upgraded(p, false, RD, addrVec, Calm(), true) == RDA
            && !LastForRow(p, ActQ, 0, Calm().hit) && !LastForRow(p, ReadQ, 0, Calm().hit)
  {
    var p := Places([r.(id := 1)], [], [r], [], [], [], []);
    assert HitsRow(p.readq[0], addrVec, Calm().hit) && HitsRow(p.actq[0], addrVec, Calm().hit);
    assert OnlyHit(p.readq, 0, addrVec, Calm().hit);
    UpgradedFromModeQueue(p, false, 0, RD, Calm(), true);
  }
}
