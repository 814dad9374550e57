/** Runs of a cache: any sequence of requests and of blocks that arrive from memory (Cache.cpp, send and callback). */
module CacheRun {
  import opened Powers
  import opened Cache

  /** What does not change in a run. */
  datatype Setup = Setup(g: Geometry, limit: nat, latency: nat)

  /** A call from outside: a request at some clock, or a block that arrives. */
  datatype Call = Ask(req: Request, clk: nat) | Arrive(addr: nat)

  ghost function After(s: Setup, v: View, c: Call): View
  {
    match c
    case Ask(req, clk) => Sent(s.g, s.limit, v, req, clk + s.latency)
    case Arrive(addr) => ArrivedOn(s.g, v, addr)
  }

  ghost function Ran(s: Setup, v: View, calls: seq<Call>): View
  {
    if calls == [] then v else After(s, Ran(s, v, calls[..|calls| - 1]), calls[|calls| - 1])
  }

  /** The state before the n-th call. */
  ghost function Before(s: Setup, v: View, calls: seq<Call>, n: nat): View
    requires n <= |calls|
  {
    Ran(s, v, calls[..n])
  }

  lemma OneMore(s: Setup, v: View, calls: seq<Call>, n: nat, next: nat)
    requires n < |calls| && next == n + 1
    ensures Before(s, v, calls, next) == After(s, Before(s, v, calls, n), calls[n])
  {
    assert calls[..next][..n] == calls[..n];
  }

  lemma SoundAfter(s: Setup, v: View, c: Call, next: View)
    requires Sound(s.g, s.limit, v) && next == After(s, v, c)
    ensures Sound(s.g, s.limit, next)
  {
    match c {
      case Ask(req, clk) => SentSound(s.g, s.limit, v, req, clk + s.latency, next);
      case Arrive(addr) => ArrivedSound(s.g, s.limit, v, addr, next);
    }
  }

  lemma {:induction false} SoundBefore(s: Setup, v: View, calls: seq<Call>, n: nat)
    requires Sound(s.g, s.limit, v) && n <= |calls|
    ensures Sound(s.g, s.limit, Before(s, v, calls, n))
  {
    if n > 0 {
      SoundBefore(s, v, calls, n - 1);
      OneMore(s, v, calls, n - 1, n);
      SoundAfter(s, Before(s, v, calls, n - 1), calls[n - 1], Before(s, v, calls, n));
    }
  }

  /** The call is a request that is merged into a line which is not the last of its set. */
  predicate BuriedAt(s: Setup, v: View, c: Call) { c.Ask? && Buried(s.g, v, c.req.addr) }

  ghost predicate NeverBuried(s: Setup, v: View, calls: seq<Call>, n: nat)
    requires n <= |calls|
  {
    forall k: nat {:trigger Before(s, v, calls, k)} :: k < n ==> !BuriedAt(s, Before(s, v, calls, k), calls[k])
  }

  ghost predicate InOrderThroughout(s: Setup, v: View, calls: seq<Call>, n: nat)
    requires n <= |calls|
  {
    forall k: nat {:trigger Before(s, v, calls, k)} :: k <= n ==> InRequestOrder(s.g, Before(s, v, calls, k))
  }

  lemma OrderAfter(s: Setup, v: View, c: Call, next: View)
    requires Sound(s.g, s.limit, v) && InRequestOrder(s.g, v) && next == After(s, v, c)
    ensures InRequestOrder(s.g, next) <==> !BuriedAt(s, v, c)
  {
    match c {
      case Ask(req, clk) => SentAndOrder(s.g, s.limit, v, req, clk + s.latency);
      case Arrive(addr) => ArrivalKeepsOrder(s.g, s.limit, v, addr);
    }
  }

  lemma OrderAt(s: Setup, v: View, calls: seq<Call>, n: nat, next: nat)
    requires n < |calls| && next == n + 1 && Sound(s.g, s.limit, Before(s, v, calls, n))
    ensures InRequestOrder(s.g, Before(s, v, calls, n)) ==>
              (InRequestOrder(s.g, Before(s, v, calls, next)) <==> !BuriedAt(s, Before(s, v, calls, n), calls[n]))
  {
    var now := Before(s, v, calls, n);
    OneMore(s, v, calls, n, next);
    if InRequestOrder(s.g, now) { OrderAfter(s, now, calls[n], Before(s, v, calls, next)); }
  }

  lemma ThroughoutOneMore(s: Setup, v: View, calls: seq<Call>, n: nat, next: nat)
    requires n < |calls| && next == n + 1
    ensures InOrderThroughout(s, v, calls, next) <==>
            InOrderThroughout(s, v, calls, n) && InRequestOrder(s.g, Before(s, v, calls, next))
    ensures InOrderThroughout(s, v, calls, n) ==> InRequestOrder(s.g, Before(s, v, calls, n))
    ensures NeverBuried(s, v, calls, next) <==>
            NeverBuried(s, v, calls, n) && !BuriedAt(s, Before(s, v, calls, n), calls[n])
  {
    var now, later := Before(s, v, calls, n), Before(s, v, calls, next);
  }

  lemma OrderStep(s: Setup, v: View, calls: seq<Call>, n: nat, next: nat)
    requires n < |calls| && next == n + 1 && Sound(s.g, s.limit, Before(s, v, calls, n))
    requires InOrderThroughout(s, v, calls, n) <==> NeverBuried(s, v, calls, n)
    ensures InOrderThroughout(s, v, calls, next) <==> NeverBuried(s, v, calls, next)
  {
    ThroughoutOneMore(s, v, calls, n, next);
    OrderAt(s, v, calls, n, next);
  }

  /** A run keeps every set in the order of its last requests throughout exactly if it never merges a request into a
      line that is not the last of its set. */
  lemma {:induction false} OrderOfRuns(s: Setup, v: View, calls: seq<Call>, n: nat)
    requires Sound(s.g, s.limit, v) && InRequestOrder(s.g, v) && n <= |calls|
    ensures InOrderThroughout(s, v, calls, n) <==> NeverBuried(s, v, calls, n)
  {
    if n == 0 {
      assert Before(s, v, calls, 0) == v;
    } else {
      OrderOfRuns(s, v, calls, n - 1);
      SoundBefore(s, v, calls, n - 1);
      OrderStep(s, v, calls, n - 1, n);
    }
  }

  ghost predicate ReplacedAt(s: Setup, v: View, c: Call, x: nat) { c.Ask? && Replaces(s.g, s.limit, v, c.req, x) }

  /** In such a run every line replaced is, of the lines that may go, the one asked for longest ago. */
  lemma VictimsOfRuns(s: Setup, v: View, calls: seq<Call>, n: nat, x: nat)
    requires Sound(s.g, s.limit, v) && InRequestOrder(s.g, v) && n < |calls|
    requires NeverBuried(s, v, calls, n) && ReplacedAt(s, Before(s, v, calls, n), calls[n], x)
    ensures var now := Before(s, v, calls, n);
            var ways := now.Set(Index(s.g, calls[n].req.addr));
            var k := UnlockedFrom(ways, 0);
            Block(s.g, ways[k].addr) == x && LeastRequested(s.g, ways, now.h, k)
  {
    var now, index := Before(s, v, calls, n), Index(s.g, calls[n].req.addr);
    OrderOfRuns(s, v, calls, n);
    SoundBefore(s, v, calls, n);
    assert InRequestOrder(s.g, now) && RequestOrder(s.g, now.Set(index), now.h);
    VictimInOrder(s.g, s.limit, now, index, UnlockedFrom(now.Set(index), 0));
  }

  ghost predicate ReadyIn(s: Setup, v: View, addr: nat) { Ready(s.g, v.lines, v.h, addr) }

  ghost predicate ReadyThroughout(s: Setup, v: View, calls: seq<Call>, addr: nat, n: nat)
    requires n <= |calls|
  {
    forall k: nat {:trigger Before(s, v, calls, k)} :: k <= n ==> ReadyIn(s, Before(s, v, calls, k), addr)
  }

  ghost predicate NeverReplaced(s: Setup, v: View, calls: seq<Call>, addr: nat, n: nat)
    requires n <= |calls|
  {
    forall k: nat {:trigger Before(s, v, calls, k)} :: k < n ==>
      !ReplacedAt(s, Before(s, v, calls, k), calls[k], Block(s.g, addr))
  }

  lemma ReadyAfter(s: Setup, v: View, c: Call, addr: nat, next: View)
    requires Sound(s.g, s.limit, v) && ReadyIn(s, v, addr) && next == After(s, v, c)
    ensures ReadyIn(s, next, addr) <==> !ReplacedAt(s, v, c, Block(s.g, addr))
  {
    match c {
      case Ask(req, clk) => SentAndReady(s.g, s.limit, v, req, clk + s.latency, addr);
      case Arrive(a) => ArrivedAndReady(s.g, s.limit, v, a, addr);
    }
  }

  lemma ReadyAt(s: Setup, v: View, calls: seq<Call>, addr: nat, n: nat, next: nat)
    requires n < |calls| && next == n + 1 && Sound(s.g, s.limit, Before(s, v, calls, n))
    ensures ReadyIn(s, Before(s, v, calls, n), addr) ==>
              (ReadyIn(s, Before(s, v, calls, next), addr) <==>
               !ReplacedAt(s, Before(s, v, calls, n), calls[n], Block(s.g, addr)))
  {
    var now := Before(s, v, calls, n);
    OneMore(s, v, calls, n, next);
    if ReadyIn(s, now, addr) { ReadyAfter(s, now, calls[n], addr, Before(s, v, calls, next)); }
  }

  lemma ReadyOneMore(s: Setup, v: View, calls: seq<Call>, addr: nat, n: nat, next: nat)
    requires n < |calls| && next == n + 1
    ensures ReadyThroughout(s, v, calls, addr, next) <==>
            ReadyThroughout(s, v, calls, addr, n) && ReadyIn(s, Before(s, v, calls, next), addr)
    ensures ReadyThroughout(s, v, calls, addr, n) ==> ReadyIn(s, Before(s, v, calls, n), addr)
    ensures NeverReplaced(s, v, calls, addr, next) <==>
            && NeverReplaced(s, v, calls, addr, n)
            && !ReplacedAt(s, Before(s, v, calls, n), calls[n], Block(s.g, addr))
  {
    var now, later := Before(s, v, calls, n), Before(s, v, calls, next);
  }

  /** Retention: a block that is ready stays so throughout a run exactly if none of its requests makes its line go. */
  lemma {:induction false} StaysReady(s: Setup, v: View, calls: seq<Call>, addr: nat, n: nat)
    requires Sound(s.g, s.limit, v) && ReadyIn(s, v, addr) && n <= |calls|
    ensures ReadyThroughout(s, v, calls, addr, n) <==> NeverReplaced(s, v, calls, addr, n)
  {
    if n == 0 {
      assert Before(s, v, calls, 0) == v;
    } else {
      StaysReady(s, v, calls, addr, n - 1);
      ReadyOneMore(s, v, calls, addr, n - 1, n);
      SoundBefore(s, v, calls, n - 1);
      ReadyAt(s, v, calls, addr, n - 1, n);
    }
  }

  /** One call on a cache. */
  method Do(cache: Cache, c: Call, ghost s: Setup)
    requires cache.Valid() && s == Setup(cache.g, cache.mshrNum, cache.latency)
    modifies cache
    ensures cache.Valid() && cache.State() == After(s, old(cache.State()), c)
  {
    match c
    case Ask(req, clk) =>
      cache.clk := clk;
      var _ := cache.Dispatch(req);
    case Arrive(addr) =>
      cache.Callback(addr);
  }

  /** A whole run of a cache. */
  method Drive(cache: Cache, calls: seq<Call>)
    requires cache.Valid()
    modifies cache
    ensures cache.Valid()
    ensures cache.State() == Ran(Setup(cache.g, cache.mshrNum, cache.latency), old(cache.State()), calls)
  {
    ghost var s, v := Setup(cache.g, cache.mshrNum, cache.latency), cache.State();
    var n := 0;
    while n < |calls|
      invariant n <= |calls| && cache.Valid() && cache.State() == Before(s, v, calls, n)
    {
      OneMore(s, v, calls, n, n + 1);
      Do(cache, calls[n], s);
      n := n + 1;
    }
    assert calls[..n] == calls;
  }

  /** A cache that has not been used. */
  function Unused(): View { View(map[], [], [], History({}, {}, map[], map[], 0), []) }

  lemma UnusedInOrder(g: Geometry)
    ensures InRequestOrder(g, Unused())
  {
    forall k ensures RequestOrder(g, Unused().Set(k), Unused().h) {}
  }

  lemma Differ(g: Geometry, index: nat, lines: seq<Line>, h: History, i: nat, j: nat)
    requires SetOk(g, index, lines, h.missing, h.unwritten, h.placed, h.now) && i != j
    ensures i < |lines| && j < |lines| ==> Block(g, lines[i].addr) != Block(g, lines[j].addr)
  {
    if i < |lines| && j < |lines| { TagsUnique(g, index, lines, h.missing, h.unwritten, h.placed, h.now, i, j); }
  }

  /** Every line has been placed, so a set holds one line if one block has been. */
  lemma OneWay(g: Geometry, limit: nat, v: View, a: nat, index: nat)
    requires Sound(g, limit, v) && forall b :: b in v.h.placed ==> b == a
    ensures |v.Set(index)| <= 1
  {
    OpenSet(g, limit, v, index);
    Differ(g, index, v.Set(index), v.h, 0, 1);
  }

  lemma EntryMissing(g: Geometry, mshr: seq<nat>, limit: nat, missing: set<nat>)
    requires MshrOk(g, mshr, limit, missing)
    ensures mshr != [] ==> missing != {}
  {
    if mshr != [] { assert Block(g, mshr[0]) in missing; }
  }

  /** A set of two lines that both were written and have arrived: the one placed first goes. */
  lemma TwoWays(g: Geometry, limit: nat, v: View, a: nat, b: nat)
    requires Sound(g, limit, v) && g.assoc == 2 && a != b && IndexOf(g, a) == IndexOf(g, b)
    requires v.h.missing == {} && v.h.unwritten == {a, b} && v.h.placed.Keys == {a, b} && v.h.placed[a] < v.h.placed[b]
    ensures |v.Set(IndexOf(g, a))| == 2 && v.mshr == [] && !Jammed(g, v.Set(IndexOf(g, a)))
    ensures forall k: nat :: LeastRecent(g, v.Set(IndexOf(g, a)), v.h, k) ==>
              v.Set(IndexOf(g, a))[k].dirty && Block(g, v.Set(IndexOf(g, a))[k].addr) == a
  {
    var ways := v.Set(IndexOf(g, a));
    Open(g, limit, v);
    OpenSet(g, limit, v, IndexOf(g, a));
    assert Resident(g, v.lines, a) && Resident(g, v.lines, b);
    var i :| 0 <= i < |ways| && Block(g, ways[i].addr) == a;
    var j :| 0 <= j < |ways| && Block(g, ways[j].addr) == b;
    assert !ways[j].lock;
    EntryMissing(g, v.mshr, limit, v.h.missing);
  }

  lemma NeverPlaced(g: Geometry, limit: nat, v: View, b: nat)
    requires Sound(g, limit, v) && b !in v.h.placed
    ensures b !in v.h.missing && !Resident(g, v.lines, b)
  {
    Open(g, limit, v);
    OpenSet(g, limit, v, IndexOf(g, b));
    assert b in v.h.missing ==> Resident(g, v.lines, b);
  }

  lemma NewMiss(s: Setup, v: View, c: Call, next: View)
    requires Sound(s.g, s.limit, v) && c.Ask? && next == After(s, v, c) && |v.mshr| < s.limit
    requires var b := Block(s.g, c.req.addr);
             b !in v.h.placed && |v.Set(IndexOf(s.g, b))| < s.g.assoc
    ensures var b := Block(s.g, c.req.addr);
            && next.h == Touched(s.g, c.req, v.h).(missing := v.h.missing + {b})
            && next.mshr == v.mshr + [c.req.addr]
            && next.waits == v.waits + [(c.clk + s.latency, Request(c.req.addr, Read))]
  {
    NeverPlaced(s.g, s.limit, v, Block(s.g, c.req.addr));
    SentMeans(s.g, s.limit, v, c.req, c.clk + s.latency);
    assert next.waits == Front(next.waits) + [(c.clk + s.latency, Request(c.req.addr, Read))];
  }

  /** a and b miss, a is asked for again while it is still being read, both arrive, and c misses. */
  function MergedCalls(a: nat, b: nat, c: nat, clk: nat): seq<Call>
  {
    [Ask(Request(a, Write), clk), Ask(Request(b, Write), clk), Ask(Request(a, Read), clk), Arrive(a), Arrive(b),
     Ask(Request(c, Read), clk)]
  }

  lemma TwoMisses(s: Setup, a: nat, b: nat, clk: nat, v: View, two: View)
    requires Sound(s.g, s.limit, Unused()) && s.g.assoc == 2 && s.limit >= 2
    requires Block(s.g, a) != Block(s.g, b) && IndexOf(s.g, Block(s.g, a)) == IndexOf(s.g, Block(s.g, b))
    requires v == After(s, Unused(), Ask(Request(a, Write), clk)) && two == After(s, v, Ask(Request(b, Write), clk))
    ensures Sound(s.g, s.limit, two) && |two.waits| == 2
    ensures var x, y := Block(s.g, a), Block(s.g, b);
            two.h == History({x, y}, {x, y}, map[x := 0, y := 1], map[x := 0, y := 1], 2)
  {
    NewMiss(s, Unused(), Ask(Request(a, Write), clk), v);
    SentSound(s.g, s.limit, Unused(), Request(a, Write), clk + s.latency, v);
    OneWay(s.g, s.limit, v, Block(s.g, a), IndexOf(s.g, Block(s.g, b)));
    NewMiss(s, v, Ask(Request(b, Write), clk), two);
    SentSound(s.g, s.limit, v, Request(b, Write), clk + s.latency, two);
  }

  lemma ArrivedMeans(g: Geometry, limit: nat, v: View, addr: nat)
    requires Sound(g, limit, v)
    ensures ArrivedOn(g, v, addr).h == v.h.(missing := v.h.missing - {Block(g, addr)})
            && ArrivedOn(g, v, addr).waits == v.waits
  {
    MissingEntered(g, limit, v, Block(g, addr));
    if Block(g, addr) in v.h.missing {
      EntryOfBlock(g, limit, v, addr);
    } else {
      assert v.h.missing - {Block(g, addr)} == v.h.missing;
    }
  }

  lemma PlacedOrder(g: Geometry, index: nat, ways: seq<Line>, h: History, j: nat, i: nat)
    requires SetOk(g, index, ways, h.missing, h.unwritten, h.placed, h.now) && j < |ways| && i < |ways|
    requires Block(g, ways[j].addr) in h.placed && Block(g, ways[i].addr) in h.placed
    ensures j < i ==> h.placed[Block(g, ways[j].addr)] < h.placed[Block(g, ways[i].addr)]
  {
  }

  /** Of two lines of a set that are being read the one placed first is not the last. */
  lemma FirstIsBuried(g: Geometry, limit: nat, v: View, a: nat, b: nat)
    requires Sound(g, limit, v) && Index(g, a) == Index(g, b)
    requires Block(g, a) in v.h.missing && Block(g, b) in v.h.missing
    requires Block(g, a) in v.h.placed && Block(g, b) in v.h.placed && v.h.placed[Block(g, a)] < v.h.placed[Block(g, b)]
    ensures Buried(g, v, a)
  {
    var ways := v.Set(Index(g, a));
    Open(g, limit, v);
    OpenSet(g, limit, v, Index(g, a));
    assert Resident(g, v.lines, Block(g, a)) && Resident(g, v.lines, Block(g, b));
    var i :| 0 <= i < |ways| && Block(g, ways[i].addr) == Block(g, a);
    var j :| 0 <= j < |ways| && Block(g, ways[j].addr) == Block(g, b);
    BlockByFields(g, ways[i].addr, a);
    var t := TagFrom(ways, Tag(g, a), 0);
    TagsUnique(g, Index(g, a), ways, v.h.missing, v.h.unwritten, v.h.placed, v.h.now, t, i);
    PlacedOrder(g, Index(g, a), ways, v.h, j, i);
  }

  lemma MergeAndArrive(s: Setup, a: nat, b: nat, clk: nat, two: View, seen: View)
    requires Sound(s.g, s.limit, two) && |two.waits| == 2
    requires Block(s.g, a) != Block(s.g, b) && Index(s.g, a) == Index(s.g, b)
    requires var x, y := Block(s.g, a), Block(s.g, b);
             two.h == History({x, y}, {x, y}, map[x := 0, y := 1], map[x := 0, y := 1], 2)
    requires seen == After(s, After(s, After(s, two, Ask(Request(a, Read), clk)), Arrive(a)), Arrive(b))
    ensures Sound(s.g, s.limit, seen) && seen.waits == two.waits && Buried(s.g, two, a)
    ensures var x, y := Block(s.g, a), Block(s.g, b);
            seen.h == History({}, {x, y}, map[x := 0, y := 1], map[x := 2, y := 1], 3)
  {
    var again := After(s, two, Ask(Request(a, Read), clk));
    var one := After(s, again, Arrive(a));
    FirstIsBuried(s.g, s.limit, two, a, b);
    SentMeans(s.g, s.limit, two, Request(a, Read), clk + s.latency);
    SentSound(s.g, s.limit, two, Request(a, Read), clk + s.latency, again);
    ArrivedMeans(s.g, s.limit, again, a);
    ArrivedSound(s.g, s.limit, again, a, one);
    ArrivedMeans(s.g, s.limit, one, b);
    ArrivedSound(s.g, s.limit, one, b, seen);
    assert seen.h.missing == {};
  }

  /** A miss on a full set: the line that goes, what is queued and what remains unwritten. */
  lemma VictimOfMiss(g: Geometry, ways: seq<Line>, v: View, at: nat, req: Request, next: View) returns (k: nat)
    requires MissStarted(g, ways, v.h, v.waits, at, req, next.h, next.waits)
    requires |ways| >= g.assoc && req.kind == Read
    ensures LeastRecent(g, ways, v.h, k)
    ensures next.waits == v.waits + WriteBack(ways[k], at) + [(at, Request(req.addr, Read))]
    ensures next.h.unwritten == v.h.unwritten - {Block(g, ways[k].addr)}
  {
    var kept :| RoomMade(g, ways, v.h, v.waits, at, kept, Front(next.waits))
                && next.h.unwritten == kept + Written(false, Block(g, req.addr));
    k :| Replaced(g, ways, v.h, v.waits, at, k, kept, Front(next.waits));
  }

  lemma MissOf(s: Setup, v: View, req: Request, clk: nat, next: View)
    requires Sound(s.g, s.limit, v) && |v.mshr| < s.limit && !Jammed(s.g, v.Set(Index(s.g, req.addr)))
    requires !Resident(s.g, v.lines, Block(s.g, req.addr)) && Block(s.g, req.addr) !in v.h.missing
    requires next == After(s, v, Ask(req, clk))
    ensures MissStarted(s.g, v.Set(Index(s.g, req.addr)), v.h, v.waits, clk + s.latency, req, next.h, next.waits)
  {
    SentMeans(s.g, s.limit, v, req, clk + s.latency);
  }

  lemma LastMiss(s: Setup, a: nat, b: nat, c: nat, clk: nat, seen: View, last: View)
    requires Sound(s.g, s.limit, seen) && s.g.assoc == 2 && s.limit >= 2 && |seen.waits| == 2
    requires Index(s.g, a) == Index(s.g, b) == Index(s.g, c)
    requires Block(s.g, a) != Block(s.g, b) && Block(s.g, c) !in {Block(s.g, a), Block(s.g, b)}
    requires var x, y := Block(s.g, a), Block(s.g, b);
             seen.h == History({}, {x, y}, map[x := 0, y := 1], map[x := 2, y := 1], 3)
    requires last == After(s, seen, Ask(Request(c, Read), clk))
    ensures last.h.unwritten == {Block(s.g, b)} && |last.waits| == 4
    ensures last.waits[3] == (clk + s.latency, Request(c, Read))
    ensures last.waits[2].1.kind == Write && Block(s.g, last.waits[2].1.addr) == Block(s.g, a)
  {
    TwoWays(s.g, s.limit, seen, Block(s.g, a), Block(s.g, b));
    NeverPlaced(s.g, s.limit, seen, Block(s.g, c));
    MissOf(s, seen, Request(c, Read), clk, last);
    var k := VictimOfMiss(s.g, seen.Set(Index(s.g, c)), seen, clk + s.latency, Request(c, Read), last);
  }

  /** In an unused two-way cache that run writes a back to make room for c, although b was asked for earlier: the
      request for a was merged into a line behind which another one had been placed. */
  lemma MergedRun(s: Setup, a: nat, b: nat, c: nat, clk: nat)
    requires Sound(s.g, s.limit, Unused()) && s.g.assoc == 2 && s.limit >= 2
    requires Index(s.g, a) == Index(s.g, b) == Index(s.g, c)
    requires Block(s.g, a) != Block(s.g, b) && Block(s.g, c) !in {Block(s.g, a), Block(s.g, b)}
    ensures var calls := MergedCalls(a, b, c, clk);
            var seen, last := Before(s, Unused(), calls, 5), Ran(s, Unused(), calls);
            var x, y := Block(s.g, a), Block(s.g, b);
            && seen.h.asked == map[x := 2, y := 1] && last.h.unwritten == {y}
            && |last.waits| == 4 && last.waits[3] == (clk + s.latency, Request(c, Read))
            && last.waits[2].1.kind == Write && Block(s.g, last.waits[2].1.addr) == x
    ensures BuriedAt(s, Before(s, Unused(), MergedCalls(a, b, c, clk), 2), MergedCalls(a, b, c, clk)[2])
  {
    var calls := MergedCalls(a, b, c, clk);
    var x, y := Block(s.g, a), Block(s.g, b);
    var v0, v1, v2 := Before(s, Unused(), calls, 0), Before(s, Unused(), calls, 1), Before(s, Unused(), calls, 2);
    var v3, v4, v5 := Before(s, Unused(), calls, 3), Before(s, Unused(), calls, 4), Before(s, Unused(), calls, 5);
    assert calls[..0] == [] && calls[..6] == calls;
    OneMore(s, Unused(), calls, 0, 1);
    OneMore(s, Unused(), calls, 1, 2);
    OneMore(s, Unused(), calls, 2, 3);
    OneMore(s, Unused(), calls, 3, 4);
    OneMore(s, Unused(), calls, 4, 5);
    OneMore(s, Unused(), calls, 5, 6);
    TwoMisses(s, a, b, clk, v1, v2);
    MergeAndArrive(s, a, b, clk, v2, v5);
    LastMiss(s, a, b, c, clk, v5, Ran(s, Unused(), calls));
  }

  lemma PowerOrder(n: nat, k: nat)
    ensures n < k ==> 2 * Pow2(n) <= Pow2(k)
  {
    if n < k { Pow2Monotone(n + 1, k); }
  }

  lemma PowerBetween(n: nat, k: nat)
    requires Pow2(n) <= Pow2(k) < 2 * Pow2(n)
    ensures n == k
  {
    PowerOrder(n, k);
    PowerOrder(k, n);
  }

  /** Two two-way sets of 64-byte lines. */
  lemma ExampleGeometry(g: Geometry)
    requires Pow2(g.offset) <= 64 < 2 * Pow2(g.offset) && Pow2(g.setBits) <= 2 < 2 * Pow2(g.setBits)
    ensures Block(g, 0) == 0 && Block(g, 128) == 2 && Block(g, 256) == 4
    ensures Index(g, 0) == Index(g, 128) == Index(g, 256) == 0
  {
    assert Pow2(3) == 8 && Pow2(6) == 64 && Pow2(1) == 2;
    PowerBetween(g.offset, 6);
    PowerBetween(g.setBits, 1);
    assert Shr(128, 3) == 16 && Shr(256, 3) == 32 && Shr(0, 3) == 0;
    ShrShr(0, 3, 3);
    ShrShr(128, 3, 3);
    ShrShr(256, 3, 3);
    assert Shr(16, 3) == 2 && Shr(32, 3) == 4 && Shr(0, 3) == 0;
    assert Masked(0, 1) == Masked(2, 1) == Masked(4, 1) == 0;
  }

  /** That run on a new cache of two two-way sets. */
  method MergedExample() returns (cache: Cache)
    ensures fresh(cache) && cache.Valid() && |cache.waitList| == 4
    ensures cache.waitList[2].1.kind == Write && Block(cache.g, cache.waitList[2].1.addr) == Block(cache.g, 0)
  {
    cache := new Cache(256, 2, 64, 2, 10);
    assert Quotient(Quotient(256, 64), 2) == 2;
    ExampleGeometry(cache.g);
    ghost var s := Setup(cache.g, cache.mshrNum, cache.latency);
    Drive(cache, MergedCalls(0, 128, 256, 0));
    MergedRun(s, 0, 128, 256, 0);
  }
}
