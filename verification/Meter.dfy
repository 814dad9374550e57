/** The service meter of a DRAM node, against a ledger of all services (DRAM.h, update_serving_requests). */
module Meter {

  /** One request's service: its start, and its end or -1 while it lasts. */
  datatype Service = Service(id: int, start: int, end: int)

  function OpenOne(s: Service, id: int): nat { if s.end < 0 && s.id == id then 1 else 0 }

  /** How often request id is being served. */
  ghost function Open(ledger: seq<Service>, id: int): nat
  {
    if ledger == [] then 0 else Open(ledger[..|ledger| - 1], id) + OpenOne(ledger[|ledger| - 1], id)
  }

  /** How many requests are being served. */
  ghost function Serving(ledger: seq<Service>): nat
  {
    if ledger == [] then 0 else Serving(ledger[..|ledger| - 1]) + if ledger[|ledger| - 1].end < 0 then 1 else 0
  }

  /** The time spent in service up to now, over all requests. */
  ghost function Residence(ledger: seq<Service>, now: int): int
  {
    if ledger == [] then 0
    else
      var s := ledger[|ledger| - 1];
      Residence(ledger[..|ledger| - 1], now) + (if s.end < 0 then now else s.end) - s.start
  }

  lemma {:induction false} OpenIsServing(ledger: seq<Service>, id: int)
    ensures Open(ledger, id) <= Serving(ledger)
  {
    if ledger != [] { OpenIsServing(ledger[..|ledger| - 1], id); }
  }

  lemma Distribute(t: int, n: int)
    ensures t * (n + 1) == t * n + t
  {
  }

  /** While nothing changes, every active service grows by one unit a cycle. */
  lemma {:induction false} ResidenceGrows(ledger: seq<Service>, from: int, to: int)
    ensures Residence(ledger, to) == Residence(ledger, from) + (to - from) * Serving(ledger)
  {
    if ledger != [] {
      var rest := ledger[..|ledger| - 1];
      ResidenceGrows(rest, from, to);
      Distribute(to - from, Serving(rest));
    }
  }

  lemma Appended(ledger: seq<Service>, s: Service, now: int, id: int)
    ensures Open(ledger + [s], id) == Open(ledger, id) + OpenOne(s, id)
    ensures Serving(ledger + [s]) == Serving(ledger) + if s.end < 0 then 1 else 0
    ensures Residence(ledger + [s], now) == Residence(ledger, now) + (if s.end < 0 then now else s.end) - s.start
  {
    assert (ledger + [s])[..|ledger|] == ledger;
  }

  /** The ledger with the latest open service of id ended. */
  ghost function Close(ledger: seq<Service>, id: int, now: int): seq<Service>
  {
    if ledger == [] then []
    else
      var n := |ledger| - 1;
      if ledger[n].id == id && ledger[n].end < 0 then ledger[..n] + [ledger[n].(end := now)]
      else Close(ledger[..n], id, now) + [ledger[n]]
  }

  lemma {:induction false} Closed(ledger: seq<Service>, id: int, now: int, x: int)
    requires Open(ledger, id) > 0 && now >= 0
    ensures Open(Close(ledger, id, now), x) == Open(ledger, x) - if x == id then 1 else 0
    ensures Serving(Close(ledger, id, now)) == Serving(ledger) - 1
    ensures Residence(Close(ledger, id, now), now) == Residence(ledger, now)
  {
    var n := |ledger| - 1;
    var rest, last := ledger[..n], ledger[n];
    if last.id == id && last.end < 0 {
      Appended(rest, last.(end := now), now, x);
    } else {
      Closed(rest, id, now, x);
      Appended(Close(rest, id, now), last, now, x);
    }
  }

  class ServingMeter {
    var cur: int
    var serving: int
    var begin: int
    var beginOfServing: int
    var endOfServing: int
    ghost var ledger: seq<Service>

    /** cur_serving_requests counts the services in progress; serving_requests is the residence of all of them up to
        the last update. */
    ghost predicate Valid()
      reads this
    {
      && cur == Serving(ledger) && begin >= -1
      && (begin == -1 ==> ledger == [])
      && serving == Residence(ledger, begin)
      && (cur > 0 ==> beginOfServing != -1)
    }

    constructor ()
      ensures Valid() && ledger == [] && begin == -1
    {
      cur, serving, begin, beginOfServing, endOfServing, ledger := 0, 0, -1, -1, -1, [];
    }

    /** Time since the last update counts once for every request in service. */
    method Accrue(clk: int)
      requires Valid() && begin <= clk
      modifies this`serving
      ensures serving == Residence(ledger, clk)
    {
      ResidenceGrows(ledger, begin, clk);
      if begin != -1 && cur > 0 {
        serving := serving + (clk - begin) * cur;
      }
    }

    /** The ledger's side of an update. */
    ghost method Enter(delta: int, clk: int, id: int)
      requires (delta == 1 || delta == -1) && clk >= 0 && (delta == -1 ==> Open(ledger, id) > 0)
      modifies this`ledger
      ensures Serving(ledger) == old(Serving(ledger)) + delta && Residence(ledger, clk) == old(Residence(ledger, clk))
      ensures forall x :: Open(ledger, x) == old(Open(ledger, x)) + if x == id then delta else 0
    {
      ghost var before := ledger;
      if delta == 1 {
        ledger := ledger + [Service(id, clk, -1)];
        forall x ensures Open(ledger, x) == Open(before, x) + if x == id then 1 else 0 {
          Appended(before, Service(id, clk, -1), clk, x);
        }
        Appended(before, Service(id, clk, -1), clk, id);
      } else {
        ledger := Close(ledger, id, clk);
        forall x ensures Open(ledger, x) == Open(before, x) - if x == id then 1 else 0 {
          Closed(before, id, clk, x);
        }
        Closed(before, id, clk, id);
      }
    }

    /** From inactive to active and back. */
    method Transition(delta: int, clk: int)
      requires (delta == 1 || delta == -1) && clk >= 0 && cur >= 0 && (cur - delta > 0 ==> beginOfServing != -1)
      requires cur - delta >= 0
      modifies this`beginOfServing, this`endOfServing
      ensures cur > 0 ==> beginOfServing != -1
    {
      assert cur >= 0;
      if delta == 1 && cur == 1 {
        beginOfServing := clk;
      } else if cur == 0 {
        assert beginOfServing != -1;
        assert delta == -1;
        endOfServing := clk;
      }
    }

    /** update_serving_requests with delta 1 or -1; the assertions of the original hold. */
    method Update(delta: int, clk: int, ghost id: int)
      requires Valid() && (delta == 1 || delta == -1) && clk >= 0 && begin <= clk
      requires delta == -1 ==> Open(ledger, id) > 0
      modifies this
      ensures Valid() && begin == clk && cur == old(cur) + delta
      ensures forall x :: Open(ledger, x) == old(Open(ledger, x)) + if x == id then delta else 0
    {
      OpenIsServing(ledger, id);
      Accrue(clk);
      begin := clk;
      cur := cur + delta;
      Enter(delta, clk, id);
      Transition(delta, clk);
    }
  }
}
