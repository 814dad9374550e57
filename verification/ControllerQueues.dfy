/** Requests of the memory controller and the counting of them in its queues (Request.h, Controller.h). */
module ControllerQueues {
  import opened DramSpec

  datatype Kind = Read | Write | Refresh | PowerDown | SelfRefresh

  /** A request; id is its place in the order of acceptance. */
  datatype Request = Request(id: int, kind: Kind, addr: int, addrVec: seq<int>, first: bool, arrive: int, depart: int)

  predicate IsData(k: Kind) { k == Read || k == Write }

  /** The command that finishes a request. */
  function Translate(k: Kind): Command
  {
    match k
    case Read => RD
    case Write => WR
    case Refresh => REF
    case PowerDown => PDE
    case SelfRefresh => SRE
  }

  /** Where a request with this id and property is in a queue, and how often. */
  ghost function Occurrences(q: seq<Request>, f: Request -> bool, id: int): set<int>
  {
    set i | 0 <= i < |q| && q[i].id == id && f(q[i])
  }

  ghost function Count(q: seq<Request>, f: Request -> bool, id: int): nat { |Occurrences(q, f, id)| }

  ghost function One(r: Request, f: Request -> bool, id: int): nat { if r.id == id && f(r) then 1 else 0 }

  lemma CountPush(q: seq<Request>, r: Request, f: Request -> bool, id: int)
    ensures Count(q + [r], f, id) == Count(q, f, id) + One(r, f, id)
  {
    assert Occurrences(q + [r], f, id) == Occurrences(q, f, id) + if One(r, f, id) == 1 then {|q|} else {};
  }

  function Erase(q: seq<Request>, i: nat): seq<Request>
    requires i < |q|
  {
    q[..i] + q[i + 1..]
  }

  lemma EraseBeforeLast(q: seq<Request>, i: nat)
    requires i < |q| - 1
    ensures Erase(q, i) == Erase(q[..|q| - 1], i) + [q[|q| - 1]]
  {
  }

  lemma EraseLast(q: seq<Request>)
    requires q != []
    ensures Erase(q, |q| - 1) == q[..|q| - 1]
  {
  }

  lemma {:induction false} CountErase(q: seq<Request>, i: nat, f: Request -> bool, id: int)
    requires i < |q|
    ensures Count(q, f, id) == Count(Erase(q, i), f, id) + One(q[i], f, id)
  {
    var n := |q| - 1;
    assert q == q[..n] + [q[n]];
    CountPush(q[..n], q[n], f, id);
    if i < n {
      CountErase(q[..n], i, f, id);
      EraseBeforeLast(q, i);
      CountPush(Erase(q[..n], i), q[n], f, id);
    } else {
      EraseLast(q);
    }
  }

  lemma CountReplace(q: seq<Request>, i: nat, r: Request, f: Request -> bool, id: int)
    requires i < |q|
    ensures Count(q[i := r], f, id) + One(q[i], f, id) == Count(q, f, id) + One(r, f, id)
  {
    CountErase(q, i, f, id);
    CountErase(q[i := r], i, f, id);
    assert Erase(q[i := r], i) == Erase(q, i);
  }

  /** How often a number occurs. */
  ghost function Times(x: seq<int>, id: int): nat { multiset(x)[id] }

  lemma TimesPush(x: seq<int>, n: int, id: int)
    ensures Times(x + [n], id) == Times(x, id) + if n == id then 1 else 0
  {
  }

  /** One tick's effect on the pending reads: the head leaves when it is due, and others may join at the end. */
  ghost predicate PendingTicks(p: seq<Request>, next: seq<Request>, clk: int)
  {
    var rest := if p != [] && p[0].depart <= clk then p[1..] else p;
    rest <= next
  }
}
