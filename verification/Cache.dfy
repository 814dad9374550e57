/** One level of the cache: lookup, MSHR merging, LRU eviction and write-back (Cache.h, Cache.cpp). */
module Cache {
  import opened Powers

  /** Cache line size 2^offset, number of sets 2^setBits. */
  datatype Geometry = Geometry(offset: nat, setBits: nat, assoc: nat)

  /** x & (2^n - 1). */
  function Masked(x: nat, n: nat): nat
    decreases n
  {
    if n == 0 then 0 else x % 2 + 2 * Masked(x / 2, n - 1)
  }

  function Block(g: Geometry, addr: nat): nat { Shr(addr, g.offset) }
  function IndexOf(g: Geometry, block: nat): nat { Masked(block, g.setBits) }
  function Index(g: Geometry, addr: nat): nat { IndexOf(g, Block(g, addr)) }
  function Tag(g: Geometry, addr: nat): nat { Shr(addr, g.offset + g.setBits) }
  function Align(g: Geometry, addr: nat): nat { Shl(Shr(addr, g.offset), g.offset) }

  lemma {:induction false} ShrShr(m: nat, a: nat, b: nat)
    ensures Shr(m, a + b) == Shr(Shr(m, a), b)
    decreases b
  {
    if b > 0 { ShrShr(m, a, b - 1); }
  }

  lemma {:induction false} HighAndLow(x: nat, y: nat, n: nat)
    requires Masked(x, n) == Masked(y, n) && Shr(x, n) == Shr(y, n)
    ensures x == y
    decreases n
  {
    if n > 0 {
      ShrShr(x, 1, n - 1);
      ShrShr(y, 1, n - 1);
      assert Shr(x, 1) == x / 2 && Shr(y, 1) == y / 2;
      HighAndLow(x / 2, y / 2, n - 1);
    }
  }

  /** Set and tag together name the block. */
  lemma BlockByFields(g: Geometry, a: nat, b: nat)
    ensures Index(g, a) == Index(g, b) && Tag(g, a) == Tag(g, b) <==> Block(g, a) == Block(g, b)
  {
    ShrShr(a, g.offset, g.setBits);
    ShrShr(b, g.offset, g.setBits);
    if Index(g, a) == Index(g, b) && Tag(g, a) == Tag(g, b) { HighAndLow(Block(g, a), Block(g, b), g.setBits); }
  }

  lemma {:induction false} ShlInjective(x: nat, y: nat, n: nat)
    requires Shl(x, n) == Shl(y, n)
    ensures x == y
    decreases n
  {
    if n > 0 { ShlInjective(x, y, n - 1); }
  }

  /** So comparing aligned addresses compares blocks. */
  lemma AlignNamesBlock(g: Geometry, a: nat, b: nat)
    ensures Align(g, a) == Align(g, b) <==> Block(g, a) == Block(g, b)
  {
    if Align(g, a) == Align(g, b) { ShlInjective(Block(g, a), Block(g, b), g.offset); }
  }

  lemma HalvesLeft(val: nat, n: nat)
    requires Shr(val, n) > 0
    ensures Pow2(n) <= val
  {
    if val < Pow2(n) && n > 0 { ShrBounds(val, n - 1, n); }
  }

  lemma {:induction false} HalvesGone(val: nat, n: nat)
    requires Shr(val, n) == 0
    ensures val < Pow2(n)
    decreases n
  {
    if n > 0 {
      ShrShr(val, 1, n - 1);
      assert Shr(val, 1) == val / 2;
      HalvesGone(val / 2, n - 1);
    }
  }

  /** calc_log2. */
  method CalcLog2(val: nat) returns (n: nat)
    ensures if val == 0 then n == 0 else Pow2(n) <= val < 2 * Pow2(n)
  {
    n := 0;
    var v := val / 2;
    while v != 0
      invariant v == Shr(val, n + 1) && (n == 0 || Pow2(n) <= val)
    {
      n := n + 1;
      HalvesLeft(val, n);
      v := v / 2;
    }
    HalvesGone(val, n + 1);
  }

  datatype Line = Line(addr: nat, tag: nat, lock: bool, dirty: bool)

  /** One set: at most assoc lines of this set, in the order of their last hit or fill, locked exactly while a miss on
      their block is outstanding, and dirty exactly when a write to it has not been written back. */
  ghost predicate SetOk(g: Geometry, index: nat, lines: seq<Line>, missing: set<nat>, unwritten: set<nat>,
                        placed: map<nat, nat>, now: nat)
  {
    && |lines| <= g.assoc
    && (forall i :: 0 <= i < |lines| ==>
          var b := Block(g, lines[i].addr);
          && Index(g, lines[i].addr) == index && lines[i].tag == Tag(g, lines[i].addr)
          && (lines[i].lock <==> b in missing) && (lines[i].dirty <==> b in unwritten)
          && b in placed && placed[b] < now)
    && (forall i, j :: 0 <= i < j < |lines| && Block(g, lines[i].addr) in placed && Block(g, lines[j].addr) in placed
          ==> placed[Block(g, lines[i].addr)] < placed[Block(g, lines[j].addr)])
  }

  /** In particular tags are unique, and of the unlocked lines the first is the one whose last hit or fill is longest
      ago. */
  lemma TagsUnique(g: Geometry, index: nat, lines: seq<Line>, missing: set<nat>, unwritten: set<nat>,
                   placed: map<nat, nat>, now: nat, i: nat, j: nat)
    requires SetOk(g, index, lines, missing, unwritten, placed, now) && i < |lines| && j < |lines|
    ensures lines[i].tag == lines[j].tag <==> i == j
    ensures Block(g, lines[i].addr) == Block(g, lines[j].addr) <==> i == j
  {
    BlockByFields(g, lines[i].addr, lines[j].addr);
  }

  lemma FirstUnlockedIsLeastRecent(g: Geometry, index: nat, lines: seq<Line>, missing: set<nat>, unwritten: set<nat>,
                                   placed: map<nat, nat>, now: nat, v: nat, j: nat)
    requires SetOk(g, index, lines, missing, unwritten, placed, now)
    requires v < |lines| && (forall i :: 0 <= i < v ==> lines[i].lock) && j < |lines| && !lines[j].lock
    ensures Block(g, lines[v].addr) in placed && Block(g, lines[j].addr) in placed
    ensures placed[Block(g, lines[v].addr)] <= placed[Block(g, lines[j].addr)]
  {
  }

  /** A set that does not hold block b is not concerned by changes at b. */
  lemma OtherSetOk(g: Geometry, index: nat, lines: seq<Line>, b: nat, missing: set<nat>, unwritten: set<nat>,
                   placed: map<nat, nat>, now: nat,
                   missing': set<nat>, unwritten': set<nat>, placed': map<nat, nat>, now': nat)
    requires SetOk(g, index, lines, missing, unwritten, placed, now) && now <= now'
    requires forall i :: 0 <= i < |lines| ==> Block(g, lines[i].addr) != b
    requires forall x :: x != b ==> (x in missing <==> x in missing') && (x in unwritten <==> x in unwritten')
    requires forall x :: x != b && x in placed ==> x in placed' && placed'[x] == placed[x]
    ensures SetOk(g, index, lines, missing', unwritten', placed', now')
  {
  }

  lemma ErasedSetOk(g: Geometry, index: nat, lines: seq<Line>, i: nat, missing: set<nat>, unwritten: set<nat>,
                    placed: map<nat, nat>, now: nat)
    requires SetOk(g, index, lines, missing, unwritten, placed, now) && i < |lines|
    ensures var rest := lines[..i] + lines[i + 1..];
            && SetOk(g, index, rest, missing, unwritten, placed, now)
            && forall k :: 0 <= k < |rest| ==> Block(g, rest[k].addr) != Block(g, lines[i].addr)
  {
    var rest := lines[..i] + lines[i + 1..];
    forall k | 0 <= k < |rest| ensures Block(g, rest[k].addr) != Block(g, lines[i].addr) {
      TagsUnique(g, index, lines, missing, unwritten, placed, now, if k < i then k else k + 1, i);
    }
  }

  /** A line hit or filled now goes to the end. */
  lemma AppendedSetOk(g: Geometry, index: nat, lines: seq<Line>, l: Line, missing: set<nat>, unwritten: set<nat>,
                      placed: map<nat, nat>, now: nat)
    requires SetOk(g, index, lines, missing, unwritten, placed, now) && |lines| < g.assoc
    requires var b := Block(g, l.addr);
             && Index(g, l.addr) == index && l.tag == Tag(g, l.addr) && (l.lock <==> b in missing)
             && (l.dirty <==> b in unwritten)
             && forall k :: 0 <= k < |lines| ==> Block(g, lines[k].addr) != b
    ensures SetOk(g, index, lines + [l], missing, unwritten, placed[Block(g, l.addr) := now], now + 1)
  {
  }

  ghost predicate Holds(g: Geometry, lines: seq<Line>, b: nat)
  {
    exists i :: 0 <= i < |lines| && Block(g, lines[i].addr) == b
  }

  lemma HoldsAfterErase(g: Geometry, lines: seq<Line>, i: nat, b: nat)
    requires Holds(g, lines, b) && i < |lines| && Block(g, lines[i].addr) != b
    ensures Holds(g, lines[..i] + lines[i + 1..], b)
  {
    var k :| 0 <= k < |lines| && Block(g, lines[k].addr) == b;
    var rest := lines[..i] + lines[i + 1..];
    assert rest[if k < i then k else k - 1] == lines[k];
  }

  lemma HoldsAfterPush(g: Geometry, lines: seq<Line>, l: Line, b: nat)
    requires Holds(g, lines, b) || Block(g, l.addr) == b
    ensures Holds(g, lines + [l], b)
  {
    if Block(g, l.addr) == b {
      assert (lines + [l])[|lines|] == l;
    } else {
      var k :| 0 <= k < |lines| && Block(g, lines[k].addr) == b;
      assert (lines + [l])[k] == lines[k];
    }
  }

  /** One line's flags change in place. */
  lemma FlagsSetOk(g: Geometry, index: nat, lines: seq<Line>, i: nat, lock: bool, dirty: bool, missing: set<nat>,
                   unwritten: set<nat>, placed: map<nat, nat>, now: nat, missing': set<nat>, unwritten': set<nat>)
    requires SetOk(g, index, lines, missing, unwritten, placed, now) && i < |lines|
    requires var b := Block(g, lines[i].addr);
             && (lock <==> b in missing') && (dirty <==> b in unwritten')
             && forall x :: x != b ==> (x in missing <==> x in missing') && (x in unwritten <==> x in unwritten')
    ensures SetOk(g, index, lines[i := lines[i].(lock := lock, dirty := dirty)], missing', unwritten', placed, now)
    ensures forall b :: Holds(g, lines, b) ==> Holds(g, lines[i := lines[i].(lock := lock, dirty := dirty)], b)
  {
    var after := lines[i := lines[i].(lock := lock, dirty := dirty)];
    forall k | 0 <= k < |lines| && k != i ensures Block(g, lines[k].addr) != Block(g, lines[i].addr) {
      TagsUnique(g, index, lines, missing, unwritten, placed, now, k, i);
    }
    forall b | Holds(g, lines, b) ensures Holds(g, after, b) {
      var k :| 0 <= k < |lines| && Block(g, lines[k].addr) == b;
      assert Block(g, after[k].addr) == b;
    }
  }

  /** A line leaves its place for the end: a hit. */
  lemma MovedSetOk(g: Geometry, index: nat, lines: seq<Line>, i: nat, l: Line, missing: set<nat>, unwritten: set<nat>,
                   placed: map<nat, nat>, now: nat, unwritten': set<nat>)
    requires SetOk(g, index, lines, missing, unwritten, placed, now) && i < |lines|
    requires var b := Block(g, lines[i].addr);
             && Block(g, l.addr) == b && Index(g, l.addr) == index && l.tag == Tag(g, l.addr)
             && (l.lock <==> b in missing) && (l.dirty <==> b in unwritten')
             && forall x :: x != b ==> (x in unwritten <==> x in unwritten')
    ensures var after := lines[..i] + lines[i + 1..] + [l];
            && SetOk(g, index, after, missing, unwritten', placed[Block(g, l.addr) := now], now + 1)
            && forall b :: Holds(g, lines, b) ==> Holds(g, after, b)
  {
    var rest, b := lines[..i] + lines[i + 1..], Block(g, lines[i].addr);
    ErasedSetOk(g, index, lines, i, missing, unwritten, placed, now);
    OtherSetOk(g, index, rest, b, missing, unwritten, placed, now, missing, unwritten', placed, now);
    AppendedSetOk(g, index, rest, l, missing, unwritten', placed, now);
    forall x | Holds(g, lines, x) ensures Holds(g, rest + [l], x) {
      if x != b { HoldsAfterErase(g, lines, i, x); }
      HoldsAfterPush(g, rest, l, x);
    }
  }

  function SetAt(lines: map<nat, seq<Line>>, index: nat): seq<Line> { if index in lines then lines[index] else [] }

  ghost predicate Resident(g: Geometry, lines: map<nat, seq<Line>>, b: nat) { Holds(g, SetAt(lines, IndexOf(g, b)), b) }

  /** The ghost side of the cache: blocks with an outstanding miss, blocks with a write that has not been written back,
      when each block was last placed at the end of its set, by a hit or a fill, and when it was last asked for by any
      accepted request. The clock counts accepted requests. */
  datatype History = History(missing: set<nat>, unwritten: set<nat>, placed: map<nat, nat>, asked: map<nat, nat>,
                             now: nat)

  /** No block has been placed later than it was asked for. */
  ghost predicate AskedOk(h: History)
  {
    forall b :: b in h.placed ==> b in h.asked && h.placed[b] <= h.asked[b] < h.now
  }

  /** Every set is in order; every outstanding miss has its locked line, every unwritten block its dirty line. */
  ghost predicate Good(g: Geometry, lines: map<nat, seq<Line>>, h: History)
  {
    && (forall k {:trigger SetAt(lines, k)} :: SetOk(g, k, SetAt(lines, k), h.missing, h.unwritten, h.placed, h.now))
    && (forall b {:trigger Resident(g, lines, b)} :: b in h.missing || b in h.unwritten ==> Resident(g, lines, b))
  }

  /** Only block b's history changes. */
  ghost predicate OnlyAt(b: nat, h: History, h': History)
  {
    && h.now <= h'.now
    && (forall x :: x != b ==> (x in h.missing <==> x in h'.missing) && (x in h.unwritten <==> x in h'.unwritten))
    && (forall x :: x != b && x in h.placed ==> x in h'.placed && h'.placed[x] == h.placed[x])
  }

  /** Changing one set, and the history of one of its blocks. */
  lemma GoodAfter(g: Geometry, lines: map<nat, seq<Line>>, h: History, b: nat, ways: seq<Line>, h': History)
    requires Good(g, lines, h) && OnlyAt(b, h, h')
    requires SetOk(g, IndexOf(g, b), ways, h'.missing, h'.unwritten, h'.placed, h'.now)
    requires forall x :: ((x in h'.missing || x in h'.unwritten) && IndexOf(g, x) == IndexOf(g, b)
                          && (x == b || Holds(g, SetAt(lines, IndexOf(g, b)), x))) ==> Holds(g, ways, x)
    ensures Good(g, lines[IndexOf(g, b) := ways], h')
  {
    var index, after := IndexOf(g, b), lines[IndexOf(g, b) := ways];
    forall k ensures SetOk(g, k, SetAt(after, k), h'.missing, h'.unwritten, h'.placed, h'.now) {
      if k != index {
        assert SetOk(g, k, SetAt(lines, k), h.missing, h.unwritten, h.placed, h.now);
        OtherSetOk(g, k, SetAt(lines, k), b, h.missing, h.unwritten, h.placed, h.now, h'.missing, h'.unwritten,
                   h'.placed, h'.now);
      }
    }
    forall x | x in h'.missing || x in h'.unwritten ensures Resident(g, after, x) {
      if x != b { assert Resident(g, lines, x); }
    }
  }

  /** An absent set is an empty one. */
  lemma GoodSame(g: Geometry, lines: map<nat, seq<Line>>, after: map<nat, seq<Line>>, h: History)
    requires Good(g, lines, h) && forall k {:trigger SetAt(after, k)} :: SetAt(after, k) == SetAt(lines, k)
    ensures Good(g, after, h)
  {
    forall k ensures SetOk(g, k, SetAt(after, k), h.missing, h.unwritten, h.placed, h.now) {
      assert SetOk(g, k, SetAt(lines, k), h.missing, h.unwritten, h.placed, h.now);
    }
    forall b | b in h.missing || b in h.unwritten ensures Resident(g, after, b) {
      assert Resident(g, lines, b) && SetAt(after, IndexOf(g, b)) == SetAt(lines, IndexOf(g, b));
    }
  }

  /** Number of sets. */
  function Quotient(a: nat, b: nat): nat
    requires b >= 1
  {
    a / b
  }

  ghost predicate Entered(g: Geometry, mshr: seq<nat>, b: nat)
  {
    exists i :: 0 <= i < |mshr| && Block(g, mshr[i]) == b
  }

  /** The MSHR entries name each missing block once. */
  ghost predicate MshrOk(g: Geometry, mshr: seq<nat>, limit: nat, missing: set<nat>)
  {
    && |mshr| <= limit
    && (forall i :: 0 <= i < |mshr| ==> Block(g, mshr[i]) in missing)
    && (forall i, j :: 0 <= i < j < |mshr| ==> Block(g, mshr[i]) != Block(g, mshr[j]))
    && (forall b {:trigger Entered(g, mshr, b)} :: b in missing ==> Entered(g, mshr, b))
  }

  lemma MshrPush(g: Geometry, mshr: seq<nat>, limit: nat, missing: set<nat>, addr: nat)
    requires MshrOk(g, mshr, limit, missing) && |mshr| < limit && Block(g, addr) !in missing
    ensures MshrOk(g, mshr + [addr], limit, missing + {Block(g, addr)})
  {
    var after := mshr + [addr];
    forall b | b in missing + {Block(g, addr)} ensures Entered(g, after, b) {
      if b == Block(g, addr) {
        assert after[|mshr|] == addr;
      } else {
        assert Entered(g, mshr, b);
        var i :| 0 <= i < |mshr| && Block(g, mshr[i]) == b;
        assert after[i] == mshr[i];
      }
    }
  }

  lemma MshrErase(g: Geometry, mshr: seq<nat>, limit: nat, missing: set<nat>, i: nat)
    requires MshrOk(g, mshr, limit, missing) && i < |mshr|
    ensures MshrOk(g, mshr[..i] + mshr[i + 1..], limit, missing - {Block(g, mshr[i])})
  {
    var after, b := mshr[..i] + mshr[i + 1..], Block(g, mshr[i]);
    forall x | x in missing - {b} ensures Entered(g, after, x) {
      assert Entered(g, mshr, x);
      var k :| 0 <= k < |mshr| && Block(g, mshr[k]) == x;
      assert after[if k < i then k else k - 1] == mshr[k];
    }
  }

  datatype Kind = Read | Write

  datatype Request = Request(addr: nat, kind: Kind)

  /** The line of addr in its set is there and not waiting for memory. */
  ghost predicate Ready(g: Geometry, lines: map<nat, seq<Line>>, h: History, addr: nat)
  {
    Resident(g, lines, Block(g, addr)) && Block(g, addr) !in h.missing
  }

  /** Set index is full of lines that wait for memory. */
  ghost predicate Jammed(g: Geometry, ways: seq<Line>)
  {
    |ways| >= g.assoc && forall i :: 0 <= i < |ways| ==> ways[i].lock
  }

  /** v is the line that a miss on a full set replaces: of the lines that do not wait for memory the one whose last
      hit or fill is longest ago. */
  ghost predicate LeastRecent(g: Geometry, ways: seq<Line>, h: History, v: nat)
  {
    && v < |ways| && !ways[v].lock && Block(g, ways[v].addr) in h.placed
    && forall j :: 0 <= j < |ways| && !ways[j].lock ==>
         Block(g, ways[j].addr) in h.placed && h.placed[Block(g, ways[v].addr)] <= h.placed[Block(g, ways[j].addr)]
  }

  /** Of the lines that do not wait for memory, v is the one whose last accepted request is longest ago. */
  ghost predicate LeastRequested(g: Geometry, ways: seq<Line>, h: History, v: nat)
  {
    && v < |ways| && !ways[v].lock && Block(g, ways[v].addr) in h.asked
    && forall j :: 0 <= j < |ways| && !ways[j].lock ==>
         Block(g, ways[j].addr) in h.asked && h.asked[Block(g, ways[v].addr)] <= h.asked[Block(g, ways[j].addr)]
  }

  /** A request has been merged into the outstanding miss of the block since its last hit or fill began. */
  predicate MergedSince(h: History, b: nat) { b in h.placed && b in h.asked && h.asked[b] != h.placed[b] }

  /** Both lines have been asked for, the first one longer ago. */
  predicate AskedBefore(g: Geometry, h: History, first: Line, second: Line)
  {
    && Block(g, first.addr) in h.asked && Block(g, second.addr) in h.asked
    && h.asked[Block(g, first.addr)] < h.asked[Block(g, second.addr)]
  }

  /** The lines are in the order of their last accepted requests. */
  ghost predicate RequestOrder(g: Geometry, ways: seq<Line>, h: History)
  {
    forall i, j :: 0 <= i < j < |ways| ==> AskedBefore(g, h, ways[i], ways[j])
  }

  /** The write-back that evicting a line sends, if any. */
  function WriteBack(line: Line, at: nat): seq<(nat, Request)>
  {
    if line.dirty then [(at, Request(line.addr, Write))] else []
  }

  /** Line v makes room for a new line, and is written back if it has to be. */
  ghost predicate Replaced(g: Geometry, ways: seq<Line>, h: History, waited: seq<(nat, Request)>, at: nat, v: nat,
                           unwritten: set<nat>, waited': seq<(nat, Request)>)
  {
    && LeastRecent(g, ways, h, v)
    && waited' == waited + WriteBack(ways[v], at)
    && unwritten == h.unwritten - {Block(g, ways[v].addr)}
  }

  function Front<T>(s: seq<T>): seq<T> { if s == [] then [] else s[..|s| - 1] }

  /** A set with room is left alone; in a full one the least recent line goes. */
  ghost predicate RoomMade(g: Geometry, ways: seq<Line>, h: History, waited: seq<(nat, Request)>, at: nat,
                           unwritten: set<nat>, waited': seq<(nat, Request)>)
  {
    if |ways| < g.assoc then unwritten == h.unwritten && waited' == waited
    else exists v: nat :: Replaced(g, ways, h, waited, at, v, unwritten, waited')
  }

  function Written(dirty: bool, b: nat): set<nat> { if dirty then {b} else {} }

  /** What a miss that starts a memory read does to the write-backs queued and to the unwritten blocks. */
  ghost predicate MissStarted(g: Geometry, ways: seq<Line>, h: History, waited: seq<(nat, Request)>, at: nat,
                              req: Request, h': History, waited': seq<(nat, Request)>)
  {
    var b, read := Block(g, req.addr), (at, Request(req.addr, Read));
    && h'.missing == h.missing + {b} && h'.placed == h.placed[b := h.now] && h'.asked == h.asked[b := h.now]
    && h'.now == h.now + 1
    && waited' == Front(waited') + [read]
    && exists kept :: RoomMade(g, ways, h, waited, at, kept, Front(waited'))
         && h'.unwritten == kept + Written(req.kind == Write, b)
  }

  /** What happens to the data of a block: a write to it is accepted, its write-back is queued. */
  datatype Event = Wrote(block: nat) | Returned(block: nat)

  /** The blocks written since their last write-back. */
  ghost function Pending(log: seq<Event>): set<nat>
  {
    if log == [] then {}
    else
      var last, before := log[|log| - 1], Pending(log[..|log| - 1]);
      if last.Wrote? then before + {last.block} else before - {last.block}
  }

  lemma PendingAfter(log: seq<Event>, e: Event)
    ensures Pending(log + [e]) == if e.Wrote? then Pending(log) + {e.block} else Pending(log) - {e.block}
  {
    assert (log + [e])[..|log|] == log;
  }

  /** The blocks of the write-backs queued, and of those in the log. */
  ghost function Queued(g: Geometry, waits: seq<(nat, Request)>): seq<nat>
  {
    if waits == [] then []
    else
      var last, before := waits[|waits| - 1].1, Queued(g, waits[..|waits| - 1]);
      if last.kind == Write then before + [Block(g, last.addr)] else before
  }

  lemma QueuedAfter(g: Geometry, waits: seq<(nat, Request)>, w: (nat, Request))
    ensures Queued(g, waits + [w]) == if w.1.kind == Write then Queued(g, waits) + [Block(g, w.1.addr)]
              else Queued(g, waits)
  {
    assert (waits + [w])[..|waits|] == waits;
  }

  ghost function Returns(log: seq<Event>): seq<nat>
  {
    if log == [] then []
    else
      var last, before := log[|log| - 1], Returns(log[..|log| - 1]);
      if last.Returned? then before + [last.block] else before
  }

  lemma ReturnsAfter(log: seq<Event>, e: Event)
    ensures Returns(log + [e]) == if e.Returned? then Returns(log) + [e.block] else Returns(log)
  {
    assert (log + [e])[..|log|] == log;
  }

  /** The log agrees with the queue of memory requests and with the unwritten blocks. */
  ghost predicate Logged(g: Geometry, log: seq<Event>, waits: seq<(nat, Request)>, unwritten: set<nat>)
  {
    Pending(log) == unwritten && Returns(log) == Queued(g, waits)
  }

  /** An accepted request adds its own write, if it is one, after write-backs only. */
  ghost predicate LogGrows(log: seq<Event>, after: seq<Event>, write: bool, b: nat)
  {
    && log <= after && (write ==> |after| > |log| && after[|after| - 1] == Wrote(b))
    && forall k :: |log| <= k < (if write then |after| - 1 else |after|) ==> after[k].Returned?
  }

  function LogOf(dirty: bool, e: Event): seq<Event> { if dirty then [e] else [] }

  lemma LogWrite(g: Geometry, log: seq<Event>, waits: seq<(nat, Request)>, unwritten: set<nat>, dirty: bool, b: nat)
    requires Logged(g, log, waits, unwritten)
    ensures Logged(g, log + LogOf(dirty, Wrote(b)), waits, unwritten + Written(dirty, b))
  {
    if dirty {
      PendingAfter(log, Wrote(b));
      ReturnsAfter(log, Wrote(b));
    } else {
      assert log + [] == log;
    }
  }

  lemma LogReturn(g: Geometry, log: seq<Event>, waits: seq<(nat, Request)>, unwritten: set<nat>, addr: nat, at: nat)
    requires Logged(g, log, waits, unwritten)
    ensures Logged(g, log + [Returned(Block(g, addr))], waits + [(at, Request(addr, Write))],
                   unwritten - {Block(g, addr)})
  {
    PendingAfter(log, Returned(Block(g, addr)));
    ReturnsAfter(log, Returned(Block(g, addr)));
    QueuedAfter(g, waits, (at, Request(addr, Write)));
  }

  lemma LogRead(g: Geometry, log: seq<Event>, waits: seq<(nat, Request)>, unwritten: set<nat>, addr: nat, at: nat)
    requires Logged(g, log, waits, unwritten)
    ensures Logged(g, log, waits + [(at, Request(addr, Read))], unwritten)
  {
    QueuedAfter(g, waits, (at, Request(addr, Read)));
  }

  lemma {:induction false} PendingOrReturned(log: seq<Event>, i: nat)
    requires i < |log| && log[i].Wrote?
    ensures log[i].block in Pending(log) || exists j :: i < j < |log| && log[j] == Returned(log[i].block)
    decreases |log|
  {
    var before := log[..|log| - 1];
    if i < |before| {
      PendingOrReturned(before, i);
      assert before[i] == log[i];
      if log[i].block in Pending(before) {
        assert log[i].block in Pending(log) || log[|log| - 1] == Returned(log[i].block);
      } else {
        var j :| i < j < |before| && before[j] == Returned(before[i].block);
        assert log[j] == Returned(log[i].block);
      }
    }
  }

  /** The tag search and the lock bit tell whether the block can be used at once. */
  lemma FoundOrNot(g: Geometry, lines: map<nat, seq<Line>>, h: History, addr: nat, i: nat)
    requires Good(g, lines, h)
    requires var ways := SetAt(lines, Index(g, addr));
             i <= |ways| && (forall k :: 0 <= k < i ==> ways[k].tag != Tag(g, addr))
             && (i < |ways| ==> ways[i].tag == Tag(g, addr))
    ensures var ways := SetAt(lines, Index(g, addr));
            && (Ready(g, lines, h, addr) <==> i < |ways| && !ways[i].lock)
            && (Block(g, addr) in h.missing <==> i < |ways| && ways[i].lock)
  {
    var ways, b := SetAt(lines, Index(g, addr)), Block(g, addr);
    assert SetOk(g, Index(g, addr), ways, h.missing, h.unwritten, h.placed, h.now);
    forall k | 0 <= k < |ways| ensures ways[k].tag == Tag(g, addr) <==> Block(g, ways[k].addr) == b {
      BlockByFields(g, ways[k].addr, addr);
    }
    if b in h.missing { assert Resident(g, lines, b); }
  }

  /** The fields of a cache. */
  datatype View = View(lines: map<nat, seq<Line>>, mshr: seq<nat>, waits: seq<(nat, Request)>, h: History,
                       log: seq<Event>)
  {
    function Set(index: nat): seq<Line> { SetAt(lines, index) }
  }

  ghost predicate Opened(t: bool) { t }

  /** The invariant, guarded so that it is unfolded only where a proof asks for it. */
  ghost predicate Sound(g: Geometry, limit: nat, v: View)
  {
    forall t {:trigger Opened(t)} :: Opened(t) ==>
      && g.assoc >= 1 && MshrOk(g, v.mshr, limit, v.h.missing) && Good(g, v.lines, v.h)
      && Logged(g, v.log, v.waits, v.h.unwritten)
      && AskedOk(v.h)
  }

  lemma Open(g: Geometry, limit: nat, v: View)
    requires Sound(g, limit, v)
    ensures g.assoc >= 1 && MshrOk(g, v.mshr, limit, v.h.missing) && Good(g, v.lines, v.h)
            && Logged(g, v.log, v.waits, v.h.unwritten)
    ensures AskedOk(v.h)
  {
    assert Opened(true);
  }

  lemma OpenSet(g: Geometry, limit: nat, v: View, index: nat)
    requires Sound(g, limit, v)
    ensures SetOk(g, index, v.Set(index), v.h.missing, v.h.unwritten, v.h.placed, v.h.now) && |v.Set(index)| <= g.assoc
  {
    Open(g, limit, v);
    assert SetOk(g, index, SetAt(v.lines, index), v.h.missing, v.h.unwritten, v.h.placed, v.h.now);
  }

  /** No write is lost: either a write-back of its block was queued after it, or its block is in a dirty line. */
  lemma WritesAreKept(g: Geometry, limit: nat, v: View, i: nat)
    requires Sound(g, limit, v) && i < |v.log| && v.log[i].Wrote?
    ensures var b := v.log[i].block;
            || (exists j :: i < j < |v.log| && v.log[j] == Returned(b))
            || exists k :: 0 <= k < |v.Set(IndexOf(g, b))|
                 && Block(g, v.Set(IndexOf(g, b))[k].addr) == b && v.Set(IndexOf(g, b))[k].dirty
    ensures Returns(v.log) == Queued(g, v.waits)
  {
    var b := v.log[i].block;
    Open(g, limit, v);
    PendingOrReturned(v.log, i);
    if b in v.h.unwritten {
      assert Resident(g, v.lines, b);
      var ways := v.Set(IndexOf(g, b));
      OpenSet(g, limit, v, IndexOf(g, b));
      var k :| 0 <= k < |ways| && Block(g, ways[k].addr) == b;
      assert ways[k].dirty;
    }
  }

  lemma MissingEntered(g: Geometry, limit: nat, v: View, b: nat)
    requires Sound(g, limit, v)
    ensures b in v.h.missing <==> Entered(g, v.mshr, b)
  {
    Open(g, limit, v);
    var e := Entered(g, v.mshr, b);
  }

  /** A line is dirty only for a write that has not been written back, and locked exactly while its block is in the
      MSHRs. */
  lemma LinesExplained(g: Geometry, limit: nat, v: View, index: nat, i: nat)
    requires Sound(g, limit, v) && i < |v.Set(index)|
    ensures var line := v.Set(index)[i];
            && |v.Set(index)| <= g.assoc
            && (line.lock <==> Entered(g, v.mshr, Block(g, line.addr)))
            && (line.dirty <==> Block(g, line.addr) in Pending(v.log))
            && forall j :: 0 <= j < |v.Set(index)| && v.Set(index)[j].tag == line.tag ==> j == i
  {
    var line := v.Set(index)[i];
    Open(g, limit, v);
    OpenSet(g, limit, v, index);
    MissingEntered(g, limit, v, Block(g, line.addr));
    forall j | 0 <= j < |v.Set(index)| && v.Set(index)[j].tag == line.tag ensures j == i {
      TagsUnique(g, index, v.Set(index), v.h.missing, v.h.unwritten, v.h.placed, v.h.now, j, i);
    }
  }

  lemma MshrBounded(g: Geometry, limit: nat, v: View)
    requires Sound(g, limit, v)
    ensures |v.mshr| <= limit
  {
    Open(g, limit, v);
  }

  /** The history after a hit. */
  function Touched(g: Geometry, req: Request, h: History): History
  {
    var b := Block(g, req.addr);
    History(h.missing, h.unwritten + Written(req.kind == Write, b), h.placed[b := h.now], h.asked[b := h.now],
            h.now + 1)
  }

  /** The history after a request merged into an outstanding miss on b. */
  function MergedInto(h: History, b: nat, dirty: bool): History
  {
    h.(unwritten := h.unwritten + Written(dirty, b), asked := h.asked[b := h.now], now := h.now + 1)
  }

  /** find_if over tags: the first line from place i on with this tag, or the end. */
  function TagFrom(ways: seq<Line>, tag: nat, i: nat): (r: nat)
    requires i <= |ways|
    ensures i <= r <= |ways| && (forall k :: i <= k < r ==> ways[k].tag != tag) && (r < |ways| ==> ways[r].tag == tag)
    decreases |ways| - i
  {
    if i == |ways| || ways[i].tag == tag then i else TagFrom(ways, tag, i + 1)
  }

  /** find_if over lock bits. */
  function UnlockedFrom(ways: seq<Line>, i: nat): (r: nat)
    requires i <= |ways|
    ensures i <= r <= |ways| && (forall k :: i <= k < r ==> ways[k].lock) && (r < |ways| ==> !ways[r].lock)
    decreases |ways| - i
  {
    if i == |ways| || !ways[i].lock then i else UnlockedFrom(ways, i + 1)
  }

  /** hit_mshr. */
  function EntryFrom(g: Geometry, mshr: seq<nat>, b: nat, i: nat): (r: nat)
    requires i <= |mshr|
    ensures i <= r <= |mshr| && (forall k :: i <= k < r ==> Block(g, mshr[k]) != b)
            && (r < |mshr| ==> Block(g, mshr[r]) == b)
    decreases |mshr| - i
  {
    if i == |mshr| || Block(g, mshr[i]) == b then i else EntryFrom(g, mshr, b, i + 1)
  }

  /** get_lines makes an empty set where there is none. */
  function WithSet(v: View, index: nat): View
  {
    if index in v.lines then v else v.(lines := v.lines[index := []])
  }

  /** A hit moves the line to the end. */
  ghost function HitOn(g: Geometry, v: View, req: Request, i: nat): View
    requires i < |v.Set(Index(g, req.addr))|
  {
    var ways, dirty := v.Set(Index(g, req.addr)), req.kind == Write;
    var line := Line(req.addr, Tag(g, req.addr), false, ways[i].dirty || dirty);
    v.(lines := v.lines[Index(g, req.addr) := ways[..i] + ways[i + 1..] + [line]], h := Touched(g, req, v.h),
       log := v.log + LogOf(dirty, Wrote(Block(g, req.addr))))
  }

  /** A further request for a block that is being read leaves its dirty bit. */
  ghost function MergedOn(g: Geometry, v: View, addr: nat, i: nat, dirty: bool): View
    requires i < |v.Set(Index(g, addr))|
  {
    var ways, b := v.Set(Index(g, addr)), Block(g, addr);
    v.(lines := v.lines[Index(g, addr) := ways[i := ways[i].(dirty := dirty || ways[i].dirty)]],
       h := MergedInto(v.h, b, dirty), log := v.log + LogOf(dirty, Wrote(b)))
  }

  /** Line k leaves its set, and is written back if it is dirty. */
  ghost function EvictedOn(g: Geometry, v: View, index: nat, k: nat, at: nat): View
    requires k < |v.Set(index)|
  {
    var ways := v.Set(index);
    var b := Block(g, ways[k].addr);
    View(v.lines[index := ways[..k] + ways[k + 1..]], v.mshr, v.waits + WriteBack(ways[k], at),
         v.h.(unwritten := v.h.unwritten - {b}), v.log + LogOf(ways[k].dirty, Returned(b)))
  }

  /** There is room for another line, or a line that may go. */
  ghost predicate CanTake(g: Geometry, v: View, index: nat)
  {
    |v.Set(index)| < g.assoc || UnlockedFrom(v.Set(index), 0) < |v.Set(index)|
  }

  /** In a full set the first line that is not locked goes. */
  ghost function RoomOn(g: Geometry, v: View, index: nat, at: nat): View
    requires CanTake(g, v, index)
  {
    if |v.Set(index)| < g.assoc then v else EvictedOn(g, v, index, UnlockedFrom(v.Set(index), 0), at)
  }

  /** A locked line for the block is put last, entered in the MSHRs and read from memory. */
  ghost function FilledOn(g: Geometry, v: View, req: Request, at: nat): View
  {
    var index, b, dirty := Index(g, req.addr), Block(g, req.addr), req.kind == Write;
    View(v.lines[index := v.Set(index) + [Line(req.addr, Tag(g, req.addr), true, dirty)]], v.mshr + [req.addr],
         v.waits + [(at, Request(req.addr, Read))], Touched(g, req, v.h).(missing := v.h.missing + {b}),
         v.log + LogOf(dirty, Wrote(b)))
  }

  /** send, as a function of the state: a hit, a merged miss, a refusal or a new miss. */
  ghost function Sent(g: Geometry, limit: nat, v: View, req: Request, at: nat): View
  {
    var index := Index(g, req.addr);
    var w := WithSet(v, index);
    var i, m := TagFrom(w.Set(index), Tag(g, req.addr), 0), EntryFrom(g, v.mshr, Block(g, req.addr), 0);
    if i < |w.Set(index)| && !w.Set(index)[i].lock then HitOn(g, w, req, i)
    else if m < |v.mshr| && i < |w.Set(index)| then MergedOn(g, w, req.addr, i, req.kind == Write)
    else if |v.mshr| == limit || !CanTake(g, w, index) then w
    else FilledOn(g, RoomOn(g, w, index, at), req, at)
  }

  /** callback: the line of the block that arrived is unlocked and its MSHR entry erased. */
  ghost function ArrivedOn(g: Geometry, v: View, addr: nat): View
  {
    var index, m := Index(g, addr), EntryFrom(g, v.mshr, Block(g, addr), 0);
    var ways := v.Set(index);
    var i := TagFrom(ways, Tag(g, addr), 0);
    if m == |v.mshr| || i == |ways| then v
    else v.(lines := v.lines[index := ways[i := ways[i].(lock := false)]], mshr := v.mshr[..m] + v.mshr[m + 1..],
            h := v.h.(missing := v.h.missing - {Block(g, addr)}))
  }

  /** get_lines makes an empty set where there is none. */
  lemma SameSetsSound(g: Geometry, limit: nat, v: View, after: map<nat, seq<Line>>)
    requires Sound(g, limit, v) && forall k {:trigger SetAt(after, k)} :: SetAt(after, k) == SetAt(v.lines, k)
    ensures Sound(g, limit, v.(lines := after))
  {
    Open(g, limit, v);
    GoodSame(g, v.lines, after, v.h);
  }

  /** What the tag search and the lock bit say. */
  lemma FoundSound(g: Geometry, limit: nat, v: View, addr: nat, i: nat)
    requires Sound(g, limit, v)
    requires var ways := v.Set(Index(g, addr));
             i <= |ways| && (forall k :: 0 <= k < i ==> ways[k].tag != Tag(g, addr))
             && (i < |ways| ==> ways[i].tag == Tag(g, addr))
    ensures var ways := v.Set(Index(g, addr));
            && (Ready(g, v.lines, v.h, addr) <==> i < |ways| && !ways[i].lock)
            && (Block(g, addr) in v.h.missing <==> i < |ways| && ways[i].lock)
            && (Block(g, addr) in v.h.missing <==> Entered(g, v.mshr, Block(g, addr)))
  {
    Open(g, limit, v);
    FoundOrNot(g, v.lines, v.h, addr, i);
    var e := Entered(g, v.mshr, Block(g, addr));
  }

  /** The line that an MSHR entry points to. */
  lemma EntrySound(g: Geometry, limit: nat, v: View, m: nat) returns (k: nat)
    requires Sound(g, limit, v) && m < |v.mshr|
    ensures var ways := v.Set(Index(g, v.mshr[m]));
            && k < |ways| && ways[k].tag == Tag(g, v.mshr[m]) && ways[k].lock
            && forall j :: 0 <= j < |ways| && ways[j].tag == Tag(g, v.mshr[m]) ==> j == k
  {
    Open(g, limit, v);
    var index, b := Index(g, v.mshr[m]), Block(g, v.mshr[m]);
    var ways := v.Set(index);
    assert Resident(g, v.lines, b);
    OpenSet(g, limit, v, index);
    k :| 0 <= k < |ways| && Block(g, ways[k].addr) == b;
    BlockByFields(g, ways[k].addr, v.mshr[m]);
    forall j | 0 <= j < |ways| && ways[j].tag == Tag(g, v.mshr[m]) ensures j == k {
      TagsUnique(g, index, ways, v.h.missing, v.h.unwritten, v.h.placed, v.h.now, j, k);
    }
  }

  lemma Close(g: Geometry, limit: nat, v: View)
    requires g.assoc >= 1 && MshrOk(g, v.mshr, limit, v.h.missing) && Good(g, v.lines, v.h)
    requires Logged(g, v.log, v.waits, v.h.unwritten) && AskedOk(v.h)
    ensures Sound(g, limit, v)
  {
  }

  lemma HitSound(g: Geometry, limit: nat, v: View, req: Request, i: nat, ways: seq<Line>, next: View)
    requires Sound(g, limit, v) && ways == v.Set(Index(g, req.addr)) && i < |ways| && !ways[i].lock
    requires ways[i].tag == Tag(g, req.addr) && next == HitOn(g, v, req, i)
    ensures Sound(g, limit, next)
  {
    Open(g, limit, v);
    var addr, dirty := req.addr, req.kind == Write;
    var index, b := Index(g, addr), Block(g, addr);
    var line := Line(addr, Tag(g, addr), false, ways[i].dirty || dirty);
    var after := ways[..i] + ways[i + 1..] + [line];
    OpenSet(g, limit, v, index);
    BlockByFields(g, ways[i].addr, addr);
    MovedSetOk(g, index, ways, i, line, v.h.missing, v.h.unwritten, v.h.placed, v.h.now, next.h.unwritten);
    GoodAfter(g, v.lines, v.h, b, after, next.h);
    LogWrite(g, v.log, v.waits, v.h.unwritten, dirty, b);
    Close(g, limit, next);
  }

  /** A later time does no harm. */
  lemma LaterSetOk(g: Geometry, index: nat, lines: seq<Line>, missing: set<nat>, unwritten: set<nat>,
                   placed: map<nat, nat>, now: nat, later: nat)
    requires SetOk(g, index, lines, missing, unwritten, placed, now) && now <= later
    ensures SetOk(g, index, lines, missing, unwritten, placed, later)
  {
  }

  /** The line of an outstanding miss is asked for again. */
  lemma MergeSound(g: Geometry, limit: nat, v: View, index: nat, i: nat, m: nat, dirty: bool, ways: seq<Line>,
                   next: View)
    requires Sound(g, limit, v) && m < |v.mshr| && index == Index(g, v.mshr[m]) && ways == v.Set(index)
    requires i < |ways| && ways[i].tag == Tag(g, v.mshr[m]) && next == MergedOn(g, v, v.mshr[m], i, dirty)
    ensures Sound(g, limit, next)
  {
    Open(g, limit, v);
    var b := Block(g, v.mshr[m]);
    var after := ways[i := ways[i].(dirty := dirty || ways[i].dirty)];
    var h' := MergedInto(v.h, b, dirty);
    OpenSet(g, limit, v, index);
    BlockByFields(g, ways[i].addr, v.mshr[m]);
    assert after == ways[i := ways[i].(lock := ways[i].lock, dirty := dirty || ways[i].dirty)];
    FlagsSetOk(g, index, ways, i, ways[i].lock, dirty || ways[i].dirty, v.h.missing, v.h.unwritten, v.h.placed, v.h.now,
               h'.missing, h'.unwritten);
    LaterSetOk(g, index, after, h'.missing, h'.unwritten, h'.placed, v.h.now, h'.now);
    assert Block(g, after[i].addr) == b;
    GoodAfter(g, v.lines, v.h, b, after, h');
    LogWrite(g, v.log, v.waits, v.h.unwritten, dirty, b);
  }

  /** Its block arrives. */
  lemma ArrivalSound(g: Geometry, limit: nat, v: View, index: nat, i: nat, m: nat, ways: seq<Line>, next: View)
    requires Sound(g, limit, v) && m < |v.mshr| && index == Index(g, v.mshr[m]) && ways == v.Set(index)
    requires i < |ways| && ways[i].tag == Tag(g, v.mshr[m])
    requires next == View(v.lines[index := ways[i := ways[i].(lock := false)]], v.mshr[..m] + v.mshr[m + 1..], v.waits,
                          v.h.(missing := v.h.missing - {Block(g, v.mshr[m])}), v.log)
    ensures Sound(g, limit, next)
  {
    Open(g, limit, v);
    var b := Block(g, v.mshr[m]);
    var after := ways[i := ways[i].(lock := false)];
    OpenSet(g, limit, v, index);
    BlockByFields(g, ways[i].addr, v.mshr[m]);
    assert after == ways[i := ways[i].(lock := false, dirty := ways[i].dirty)];
    FlagsSetOk(g, index, ways, i, false, ways[i].dirty, v.h.missing, v.h.unwritten, v.h.placed, v.h.now, next.h.missing,
               v.h.unwritten);
    assert Block(g, after[i].addr) == b;
    GoodAfter(g, v.lines, v.h, b, after, next.h);
    MshrErase(g, v.mshr, limit, v.h.missing, m);
  }

  lemma EvictSound(g: Geometry, limit: nat, v: View, index: nat, k: nat, at: nat)
    requires Sound(g, limit, v) && k < |v.Set(index)| && !v.Set(index)[k].lock
    ensures Sound(g, limit, EvictedOn(g, v, index, k, at))
  {
    Open(g, limit, v);
    var ways := v.Set(index);
    var b, rest := Block(g, ways[k].addr), ways[..k] + ways[k + 1..];
    var h' := v.h.(unwritten := v.h.unwritten - {b});
    OpenSet(g, limit, v, index);
    ErasedSetOk(g, index, ways, k, v.h.missing, v.h.unwritten, v.h.placed, v.h.now);
    OtherSetOk(g, index, rest, b, v.h.missing, v.h.unwritten, v.h.placed, v.h.now, h'.missing, h'.unwritten, h'.placed,
               h'.now);
    forall x | x != b && Holds(g, ways, x) ensures Holds(g, rest, x) {
      HoldsAfterErase(g, ways, k, x);
    }
    GoodAfter(g, v.lines, v.h, b, rest, h');
    if ways[k].dirty {
      LogReturn(g, v.log, v.waits, v.h.unwritten, ways[k].addr, at);
    } else {
      assert v.h.unwritten - {b} == v.h.unwritten;
      assert v.waits + [] == v.waits && v.log + [] == v.log;
    }
  }

  lemma VictimSound(g: Geometry, limit: nat, v: View, index: nat, k: nat)
    requires Sound(g, limit, v) && k < |v.Set(index)| && !v.Set(index)[k].lock
    requires forall i :: 0 <= i < k ==> v.Set(index)[i].lock
    ensures LeastRecent(g, v.Set(index), v.h, k)
  {
    var ways := v.Set(index);
    OpenSet(g, limit, v, index);
    forall j | 0 <= j < |ways| && !ways[j].lock
      ensures Block(g, ways[j].addr) in v.h.placed
              && v.h.placed[Block(g, ways[k].addr)] <= v.h.placed[Block(g, ways[j].addr)]
    {
      FirstUnlockedIsLeastRecent(g, index, ways, v.h.missing, v.h.unwritten, v.h.placed, v.h.now, k, j);
    }
  }

  /** Two lines were never placed at the same time. */
  lemma PlacedApart(g: Geometry, index: nat, ways: seq<Line>, h: History, k: nat, j: nat)
    requires SetOk(g, index, ways, h.missing, h.unwritten, h.placed, h.now) && k < |ways| && j < |ways| && j != k
    requires Block(g, ways[k].addr) in h.placed && Block(g, ways[j].addr) in h.placed
    ensures h.placed[Block(g, ways[k].addr)] != h.placed[Block(g, ways[j].addr)]
  {
    if j < k {
      assert h.placed[Block(g, ways[j].addr)] < h.placed[Block(g, ways[k].addr)];
    }
  }

  /** The victim is the line asked for longest ago, unless requests were merged into its miss. */
  lemma VictimByRequests(g: Geometry, limit: nat, v: View, index: nat, k: nat)
    requires Sound(g, limit, v) && LeastRecent(g, v.Set(index), v.h, k)
    ensures !MergedSince(v.h, Block(g, v.Set(index)[k].addr)) ==> LeastRequested(g, v.Set(index), v.h, k)
  {
    Open(g, limit, v);
    OpenSet(g, limit, v, index);
    var ways := v.Set(index);
    var b := Block(g, ways[k].addr);
    forall j: nat | j < |ways| && !ways[j].lock
      ensures var c := Block(g, ways[j].addr);
              c in v.h.asked && b in v.h.asked && (!MergedSince(v.h, b) ==> v.h.asked[b] <= v.h.asked[c])
    {
      if j != k { PlacedApart(g, index, ways, v.h, k, j); }
    }
  }

  /** And it is the line asked for longest ago in any set that is in the order of its last requests. */
  lemma VictimInOrder(g: Geometry, limit: nat, v: View, index: nat, k: nat)
    requires Sound(g, limit, v) && k == UnlockedFrom(v.Set(index), 0) < |v.Set(index)|
             && RequestOrder(g, v.Set(index), v.h)
    ensures LeastRequested(g, v.Set(index), v.h, k)
  {
    Open(g, limit, v);
    OpenSet(g, limit, v, index);
    var ways := v.Set(index);
    forall j | 0 <= j < |ways| && !ways[j].lock
      ensures Block(g, ways[j].addr) in v.h.asked
              && v.h.asked[Block(g, ways[k].addr)] <= v.h.asked[Block(g, ways[j].addr)]
    {
      if k < j { assert AskedBefore(g, v.h, ways[k], ways[j]); }
    }
  }

  /** A line for a new miss, its MSHR entry and its memory read. */
  lemma MissSound(g: Geometry, limit: nat, v: View, req: Request, at: nat, rest: seq<Line>, next: View)
    requires Sound(g, limit, v) && |v.mshr| < limit && rest == v.Set(Index(g, req.addr)) && |rest| < g.assoc
    requires forall k :: 0 <= k < |rest| ==> rest[k].tag != Tag(g, req.addr)
    requires next == FilledOn(g, v, req, at)
    ensures Sound(g, limit, next)
  {
    Open(g, limit, v);
    var addr, dirty := req.addr, req.kind == Write;
    var index, b, line := Index(g, addr), Block(g, addr), Line(addr, Tag(g, addr), true, dirty);
    var h' := next.h;
    OpenSet(g, limit, v, index);
    forall k | 0 <= k < |rest| ensures Block(g, rest[k].addr) != b {
      BlockByFields(g, rest[k].addr, addr);
    }
    var resident := Resident(g, v.lines, b);
    OtherSetOk(g, index, rest, b, v.h.missing, v.h.unwritten, v.h.placed, v.h.now, h'.missing, h'.unwritten, v.h.placed,
               v.h.now);
    AppendedSetOk(g, index, rest, line, h'.missing, h'.unwritten, v.h.placed, v.h.now);
    forall x | x == b || Holds(g, rest, x) ensures Holds(g, rest + [line], x) {
      HoldsAfterPush(g, rest, line, x);
    }
    GoodAfter(g, v.lines, v.h, b, rest + [line], h');
    MshrPush(g, v.mshr, limit, v.h.missing, addr);
    LogRead(g, v.log, v.waits, v.h.unwritten, addr, at);
    LogWrite(g, v.log, v.waits + [(at, Request(addr, Read))], v.h.unwritten, dirty, b);
  }

  /** Room is made for one more line. */
  lemma RoomSound(g: Geometry, limit: nat, v: View, index: nat, at: nat, tag: nat)
    requires Sound(g, limit, v) && CanTake(g, v, index)
    requires forall k :: 0 <= k < |v.Set(index)| ==> v.Set(index)[k].tag != tag
    ensures var r := RoomOn(g, v, index, at);
            && Sound(g, limit, r) && |r.Set(index)| < g.assoc && r.mshr == v.mshr
            && forall k :: 0 <= k < |r.Set(index)| ==> r.Set(index)[k].tag != tag
  {
    OpenSet(g, limit, v, index);
    if |v.Set(index)| >= g.assoc { EvictSound(g, limit, v, index, UnlockedFrom(v.Set(index), 0), at); }
  }

  lemma WithSetSound(g: Geometry, limit: nat, v: View, index: nat)
    requires Sound(g, limit, v)
    ensures Sound(g, limit, WithSet(v, index)) && WithSet(v, index).Set(index) == v.Set(index)
  {
    SameSetsSound(g, limit, v, WithSet(v, index).lines);
  }

  /** The entry of a block that is being read, and its line. */
  lemma EntryOfBlock(g: Geometry, limit: nat, v: View, addr: nat)
    requires Sound(g, limit, v) && EntryFrom(g, v.mshr, Block(g, addr), 0) < |v.mshr|
    ensures var m, ways := EntryFrom(g, v.mshr, Block(g, addr), 0), v.Set(Index(g, addr));
            var i := TagFrom(ways, Tag(g, addr), 0);
            && i < |ways| && ways[i].lock && Index(g, v.mshr[m]) == Index(g, addr) && Tag(g, v.mshr[m]) == Tag(g, addr)
  {
    var m := EntryFrom(g, v.mshr, Block(g, addr), 0);
    BlockByFields(g, v.mshr[m], addr);
    var k := EntrySound(g, limit, v, m);
  }

  /** Every request keeps the invariant. */
  lemma SentSound(g: Geometry, limit: nat, v: View, req: Request, at: nat, next: View)
    requires Sound(g, limit, v) && next == Sent(g, limit, v, req, at)
    ensures Sound(g, limit, next)
  {
    var index, b := Index(g, req.addr), Block(g, req.addr);
    var w := WithSet(v, index);
    var ways, i, m := w.Set(index), TagFrom(w.Set(index), Tag(g, req.addr), 0), EntryFrom(g, v.mshr, b, 0);
    WithSetSound(g, limit, v, index);
    MissingEntered(g, limit, w, b);
    MshrBounded(g, limit, v);
    FoundSound(g, limit, w, req.addr, i);
    if i < |ways| && !ways[i].lock {
      HitSound(g, limit, w, req, i, ways, HitOn(g, w, req, i));
    } else if m < |v.mshr| {
      EntryOfBlock(g, limit, w, req.addr);
      MergeSound(g, limit, w, index, i, m, req.kind == Write, ways, MergedOn(g, w, req.addr, i, req.kind == Write));
    } else if |v.mshr| != limit && CanTake(g, w, index) {
      RoomSound(g, limit, w, index, at, Tag(g, req.addr));
      var r := RoomOn(g, w, index, at);
      MissSound(g, limit, r, req, at, r.Set(index), FilledOn(g, r, req, at));
    }
  }

  /** And so does every arrival. */
  lemma ArrivedSound(g: Geometry, limit: nat, v: View, addr: nat, next: View)
    requires Sound(g, limit, v) && next == ArrivedOn(g, v, addr)
    ensures Sound(g, limit, next)
  {
    var index, m := Index(g, addr), EntryFrom(g, v.mshr, Block(g, addr), 0);
    var i := TagFrom(v.Set(index), Tag(g, addr), 0);
    if m < |v.mshr| {
      EntryOfBlock(g, limit, v, addr);
      ArrivalSound(g, limit, v, index, i, m, v.Set(index), ArrivedOn(g, v, addr));
    }
  }

  /** What send answers. */
  ghost predicate Accepts(g: Geometry, limit: nat, v: View, req: Request)
  {
    || Ready(g, v.lines, v.h, req.addr)
    || Block(g, req.addr) in v.h.missing
    || (|v.mshr| < limit && !Jammed(g, v.Set(Index(g, req.addr))))
  }

  /** And what becomes of the request: refused without effect, a hit, merged into an outstanding miss, or a new miss. */
  ghost predicate Outcome(g: Geometry, limit: nat, v: View, req: Request, at: nat, next: View)
  {
    var b, write := Block(g, req.addr), req.kind == Write;
    var ready, ok := Ready(g, v.lines, v.h, req.addr), Accepts(g, limit, v, req);
    && (!ok ==> next == WithSet(v, Index(g, req.addr)))
    && (ok ==> LogGrows(v.log, next.log, write, b))
    && (ready ==> next.waits == v.waits && next.mshr == v.mshr && next.h == Touched(g, req, v.h))
    && (b in v.h.missing ==> next.waits == v.waits && next.mshr == v.mshr && next.h == MergedInto(v.h, b, write))
    && (ok && !ready && b !in v.h.missing ==>
          && next.mshr == v.mshr + [req.addr]
          && MissStarted(g, v.Set(Index(g, req.addr)), v.h, v.waits, at, req, next.h, next.waits))
  }

  /** The set can take another line exactly if not all of it waits for memory. */
  lemma CanTakeUnlessJammed(g: Geometry, v: View, index: nat)
    requires g.assoc >= 1
    ensures CanTake(g, v, index) <==> !Jammed(g, v.Set(index))
  {
    var k := UnlockedFrom(v.Set(index), 0);
  }

  /** What making room does, besides removing a line. */
  lemma RoomMeans(g: Geometry, limit: nat, v: View, index: nat, at: nat)
    requires Sound(g, limit, v) && CanTake(g, v, index)
    ensures var r := RoomOn(g, v, index, at);
            && Sound(g, limit, r) && |r.Set(index)| < g.assoc && r.mshr == v.mshr
            && r.h == v.h.(unwritten := r.h.unwritten)
            && LogGrows(v.log, r.log, false, 0) && RoomMade(g, v.Set(index), v.h, v.waits, at, r.h.unwritten, r.waits)
  {
    var ways, r := v.Set(index), RoomOn(g, v, index, at);
    OpenSet(g, limit, v, index);
    if |ways| >= g.assoc {
      var k := UnlockedFrom(ways, 0);
      EvictSound(g, limit, v, index, k, at);
      VictimSound(g, limit, v, index, k);
      assert Replaced(g, ways, v.h, v.waits, at, k, r.h.unwritten, r.waits);
    }
  }

  lemma MissMeans(g: Geometry, limit: nat, v: View, req: Request, at: nat)
    requires Sound(g, limit, v) && CanTake(g, v, Index(g, req.addr)) && |v.mshr| < limit
    requires !Ready(g, v.lines, v.h, req.addr) && Block(g, req.addr) !in v.h.missing
    ensures Outcome(g, limit, v, req, at, FilledOn(g, RoomOn(g, v, Index(g, req.addr), at), req, at))
  {
    var index := Index(g, req.addr);
    var r := RoomOn(g, v, index, at);
    var next := FilledOn(g, r, req, at);
    RoomMeans(g, limit, v, index, at);
    Open(g, limit, v);
    CanTakeUnlessJammed(g, v, index);
    assert Front(next.waits) == r.waits;
    assert RoomMade(g, v.Set(index), v.h, v.waits, at, r.h.unwritten, Front(next.waits));
  }

  lemma SentMeans(g: Geometry, limit: nat, v: View, req: Request, at: nat)
    requires Sound(g, limit, v)
    ensures Outcome(g, limit, v, req, at, Sent(g, limit, v, req, at))
  {
    var index, b := Index(g, req.addr), Block(g, req.addr);
    var w, i := WithSet(v, index), TagFrom(v.Set(index), Tag(g, req.addr), 0);
    WithSetSound(g, limit, v, index);
    Open(g, limit, v);
    MissingEntered(g, limit, v, b);
    FoundSound(g, limit, v, req.addr, i);
    FoundSound(g, limit, w, req.addr, i);
    CanTakeUnlessJammed(g, v, index);
    if !(i < |v.Set(index)|) && |v.mshr| != limit && CanTake(g, w, index) { MissMeans(g, limit, w, req, at); }
  }

  /** Every set is in the order of its last requests. */
  ghost predicate InRequestOrder(g: Geometry, v: View)
  {
    forall k {:trigger v.Set(k)} :: RequestOrder(g, v.Set(k), v.h)
  }

  /** The block is being read and another line has been placed behind its own. */
  predicate Buried(g: Geometry, v: View, addr: nat)
  {
    var ways := v.Set(Index(g, addr));
    var i := TagFrom(ways, Tag(g, addr), 0);
    i + 1 < |ways| && ways[i].lock
  }

  lemma SameOrder(g: Geometry, ways: seq<Line>, h: History, ways': seq<Line>, h': History)
    requires RequestOrder(g, ways, h) && |ways| == |ways'|
    requires forall i :: 0 <= i < |ways| ==> Block(g, ways'[i].addr) == Block(g, ways[i].addr)
    requires forall i :: 0 <= i < |ways| && Block(g, ways[i].addr) in h.asked ==>
               var b := Block(g, ways[i].addr); b in h'.asked && h'.asked[b] == h.asked[b]
    ensures RequestOrder(g, ways', h')
  {
    forall i, j | 0 <= i < j < |ways| ensures AskedBefore(g, h', ways'[i], ways'[j]) {
      assert AskedBefore(g, h, ways[i], ways[j]);
    }
  }

  /** Only the set of block b and the requests for b have changed. */
  lemma OrderElsewhere(g: Geometry, limit: nat, v: View, b: nat, next: View)
    requires Sound(g, limit, v) && InRequestOrder(g, v)
    requires forall k {:trigger next.Set(k)} :: k != IndexOf(g, b) ==> next.Set(k) == v.Set(k)
    requires forall x :: x != b && x in v.h.asked ==> x in next.h.asked && next.h.asked[x] == v.h.asked[x]
    ensures InRequestOrder(g, next) <==> RequestOrder(g, next.Set(IndexOf(g, b)), next.h)
  {
    var here := IndexOf(g, b);
    forall k | k != here ensures RequestOrder(g, next.Set(k), next.h) {
      OpenSet(g, limit, v, k);
      assert RequestOrder(g, v.Set(k), v.h);
      SameOrder(g, v.Set(k), v.h, next.Set(k), next.h);
    }
  }

  /** A block is asked for, and its line is put last. */
  lemma LastInOrder(g: Geometry, rest: seq<Line>, line: Line, h: History, h': History)
    requires RequestOrder(g, rest, h) && h'.asked == h.asked[Block(g, line.addr) := h.now] && AskedOk(h)
    requires forall k :: 0 <= k < |rest| ==>
               Block(g, rest[k].addr) != Block(g, line.addr) && Block(g, rest[k].addr) in h.placed
    ensures RequestOrder(g, rest + [line], h')
  {
    var ways := rest + [line];
    forall i, j | 0 <= i < j < |ways| ensures AskedBefore(g, h', ways[i], ways[j]) {
      if j < |rest| { assert AskedBefore(g, h, rest[i], rest[j]); }
    }
  }

  lemma ErasedInOrder(g: Geometry, ways: seq<Line>, i: nat, h: History)
    requires RequestOrder(g, ways, h) && i < |ways|
    ensures RequestOrder(g, ways[..i] + ways[i + 1..], h)
  {
    var rest := ways[..i] + ways[i + 1..];
    forall a, b | 0 <= a < b < |rest| ensures AskedBefore(g, h, rest[a], rest[b]) {
      assert AskedBefore(g, h, ways[if a < i then a else a + 1], ways[if b < i then b else b + 1]);
    }
  }

  lemma HitKeepsOrder(g: Geometry, limit: nat, v: View, req: Request, i: nat)
    requires Sound(g, limit, v) && InRequestOrder(g, v) && i < |v.Set(Index(g, req.addr))|
    requires v.Set(Index(g, req.addr))[i].tag == Tag(g, req.addr)
    ensures InRequestOrder(g, HitOn(g, v, req, i))
  {
    var index, ways, next := Index(g, req.addr), v.Set(Index(g, req.addr)), HitOn(g, v, req, i);
    var line := Line(req.addr, Tag(g, req.addr), false, ways[i].dirty || req.kind == Write);
    Open(g, limit, v);
    OpenSet(g, limit, v, index);
    BlockByFields(g, ways[i].addr, req.addr);
    ErasedSetOk(g, index, ways, i, v.h.missing, v.h.unwritten, v.h.placed, v.h.now);
    ErasedInOrder(g, ways, i, v.h);
    LastInOrder(g, ways[..i] + ways[i + 1..], line, v.h, next.h);
    OrderElsewhere(g, limit, v, Block(g, req.addr), next);
  }

  lemma EvictionKeepsOrder(g: Geometry, limit: nat, v: View, index: nat, k: nat, at: nat)
    requires Sound(g, limit, v) && InRequestOrder(g, v) && k < |v.Set(index)|
    ensures InRequestOrder(g, EvictedOn(g, v, index, k, at))
  {
    var ways, next := v.Set(index), EvictedOn(g, v, index, k, at);
    OpenSet(g, limit, v, index);
    ErasedInOrder(g, ways, k, v.h);
    OrderElsewhere(g, limit, v, Block(g, ways[k].addr), next);
  }

  lemma MissKeepsOrder(g: Geometry, limit: nat, v: View, req: Request, at: nat)
    requires Sound(g, limit, v) && InRequestOrder(g, v) && CanTake(g, v, Index(g, req.addr))
    requires forall k :: 0 <= k < |v.Set(Index(g, req.addr))| ==> v.Set(Index(g, req.addr))[k].tag != Tag(g, req.addr)
    ensures InRequestOrder(g, FilledOn(g, RoomOn(g, v, Index(g, req.addr), at), req, at))
  {
    var index := Index(g, req.addr);
    var r := RoomOn(g, v, index, at);
    RoomMeans(g, limit, v, index, at);
    if |v.Set(index)| >= g.assoc { EvictionKeepsOrder(g, limit, v, index, UnlockedFrom(v.Set(index), 0), at); }
    Open(g, limit, r);
    OpenSet(g, limit, r, index);
    forall k | 0 <= k < |r.Set(index)| ensures Block(g, r.Set(index)[k].addr) != Block(g, req.addr) {
      BlockByFields(g, r.Set(index)[k].addr, req.addr);
    }
    LastInOrder(g, r.Set(index), Line(req.addr, Tag(g, req.addr), true, req.kind == Write), r.h,
                FilledOn(g, r, req, at).h);
    OrderElsewhere(g, limit, r, Block(g, req.addr), FilledOn(g, r, req, at));
  }

  /** A merged request keeps the order exactly if its line is the last of its set. */
  lemma MergeAndOrder(g: Geometry, limit: nat, v: View, addr: nat, i: nat, dirty: bool)
    requires Sound(g, limit, v) && InRequestOrder(g, v) && i < |v.Set(Index(g, addr))|
    requires v.Set(Index(g, addr))[i].tag == Tag(g, addr)
    ensures InRequestOrder(g, MergedOn(g, v, addr, i, dirty)) <==> i + 1 == |v.Set(Index(g, addr))|
  {
    var index, ways, next := Index(g, addr), v.Set(Index(g, addr)), MergedOn(g, v, addr, i, dirty);
    Open(g, limit, v);
    OpenSet(g, limit, v, index);
    BlockByFields(g, ways[i].addr, addr);
    forall k | 0 <= k < |ways| && k != i ensures Block(g, ways[k].addr) != Block(g, addr) {
      TagsUnique(g, index, ways, v.h.missing, v.h.unwritten, v.h.placed, v.h.now, k, i);
    }
    OrderElsewhere(g, limit, v, Block(g, addr), next);
    if i + 1 < |ways| {
      assert !AskedBefore(g, next.h, next.Set(index)[i], next.Set(index)[i + 1]);
    }
  }

  lemma WithSetInOrder(g: Geometry, v: View, index: nat)
    ensures InRequestOrder(g, WithSet(v, index)) <==> InRequestOrder(g, v)
  {
    var w := WithSet(v, index);
    assert forall k :: w.Set(k) == v.Set(k);
  }

  /** send keeps every set in the order of its last requests, except exactly where it merges a request into a line that
      is not the last of its set; this can be told before the call. */
  lemma SentAndOrder(g: Geometry, limit: nat, v: View, req: Request, at: nat)
    requires Sound(g, limit, v) && InRequestOrder(g, v)
    ensures InRequestOrder(g, Sent(g, limit, v, req, at)) <==> !Buried(g, v, req.addr)
  {
    var index := Index(g, req.addr);
    var w, i := WithSet(v, index), TagFrom(v.Set(index), Tag(g, req.addr), 0);
    WithSetSound(g, limit, v, index);
    WithSetInOrder(g, v, index);
    FoundSound(g, limit, w, req.addr, i);
    if i < |w.Set(index)| {
      if w.Set(index)[i].lock {
        MergeAndOrder(g, limit, w, req.addr, i, req.kind == Write);
      } else {
        HitKeepsOrder(g, limit, w, req, i);
      }
    } else if |v.mshr| != limit && CanTake(g, w, index) {
      MissKeepsOrder(g, limit, w, req, at);
    }
  }

  lemma ArrivalKeepsOrder(g: Geometry, limit: nat, v: View, addr: nat)
    requires Sound(g, limit, v)
    ensures InRequestOrder(g, ArrivedOn(g, v, addr)) <==> InRequestOrder(g, v)
  {
    var next := ArrivedOn(g, v, addr);
    forall k ensures RequestOrder(g, next.Set(k), next.h) <==> RequestOrder(g, v.Set(k), v.h) {
      assert |next.Set(k)| == |v.Set(k)| && forall i :: 0 <= i < |v.Set(k)| ==> next.Set(k)[i].addr == v.Set(k)[i].addr;
      if RequestOrder(g, v.Set(k), v.h) { SameOrder(g, v.Set(k), v.h, next.Set(k), next.h); }
      if RequestOrder(g, next.Set(k), next.h) { SameOrder(g, next.Set(k), next.h, v.Set(k), v.h); }
    }
  }

  /** The request starts a miss for which the line of block x has to go. */
  ghost predicate Replaces(g: Geometry, limit: nat, v: View, req: Request, x: nat)
  {
    var ways := v.Set(Index(g, req.addr));
    var k := UnlockedFrom(ways, 0);
    && Accepts(g, limit, v, req) && !Ready(g, v.lines, v.h, req.addr) && Block(g, req.addr) !in v.h.missing
    && |ways| >= g.assoc && k < |ways| && x == Block(g, ways[k].addr)
  }

  lemma HoldsPushed(g: Geometry, lines: seq<Line>, l: Line, b: nat)
    ensures Holds(g, lines + [l], b) <==> Holds(g, lines, b) || Block(g, l.addr) == b
  {
    if Holds(g, lines, b) || Block(g, l.addr) == b { HoldsAfterPush(g, lines, l, b); }
    if Holds(g, lines + [l], b) {
      var k :| 0 <= k < |lines + [l]| && Block(g, (lines + [l])[k].addr) == b;
      assert k < |lines| ==> lines[k] == (lines + [l])[k];
    }
  }

  lemma HoldsErased(g: Geometry, index: nat, lines: seq<Line>, h: History, i: nat, b: nat)
    requires SetOk(g, index, lines, h.missing, h.unwritten, h.placed, h.now) && i < |lines|
    ensures Holds(g, lines[..i] + lines[i + 1..], b) <==> Holds(g, lines, b) && b != Block(g, lines[i].addr)
  {
    var rest := lines[..i] + lines[i + 1..];
    ErasedSetOk(g, index, lines, i, h.missing, h.unwritten, h.placed, h.now);
    if Holds(g, rest, b) {
      var k :| 0 <= k < |rest| && Block(g, rest[k].addr) == b;
      assert rest[k] == lines[if k < i then k else k + 1];
    } else if Holds(g, lines, b) && b != Block(g, lines[i].addr) {
      HoldsAfterErase(g, lines, i, b);
    }
  }

  /** A line whose flags change stays. */
  lemma HoldsFlagged(g: Geometry, ways: seq<Line>, i: nat, line: Line, b: nat)
    requires i < |ways| && line.addr == ways[i].addr
    ensures Holds(g, ways[i := line], b) <==> Holds(g, ways, b)
  {
    var after := ways[i := line];
    if Holds(g, ways, b) {
      var k :| 0 <= k < |ways| && Block(g, ways[k].addr) == b;
      assert Block(g, after[k].addr) == b;
    }
    if Holds(g, after, b) {
      var k :| 0 <= k < |after| && Block(g, after[k].addr) == b;
      assert Block(g, ways[k].addr) == b;
    }
  }

  lemma ResidentAfterHit(g: Geometry, limit: nat, v: View, req: Request, i: nat, x: nat)
    requires Sound(g, limit, v) && i < |v.Set(Index(g, req.addr))|
             && v.Set(Index(g, req.addr))[i].tag == Tag(g, req.addr)
    ensures Resident(g, HitOn(g, v, req, i).lines, x) <==> Resident(g, v.lines, x)
  {
    var index, ways := Index(g, req.addr), v.Set(Index(g, req.addr));
    OpenSet(g, limit, v, index);
    BlockByFields(g, ways[i].addr, req.addr);
    HoldsErased(g, index, ways, v.h, i, x);
    HoldsPushed(g, ways[..i] + ways[i + 1..],
                Line(req.addr, Tag(g, req.addr), false, ways[i].dirty || req.kind == Write), x);
    if x == Block(g, req.addr) { assert Block(g, ways[i].addr) == x; }
  }

  lemma ResidentAfterMerge(g: Geometry, v: View, addr: nat, i: nat, dirty: bool, x: nat)
    requires i < |v.Set(Index(g, addr))|
    ensures Resident(g, MergedOn(g, v, addr, i, dirty).lines, x) <==> Resident(g, v.lines, x)
  {
    var ways := v.Set(Index(g, addr));
    HoldsFlagged(g, ways, i, ways[i].(dirty := dirty || ways[i].dirty), x);
  }

  lemma ResidentAfterMiss(g: Geometry, limit: nat, v: View, req: Request, at: nat, x: nat)
    requires Sound(g, limit, v) && CanTake(g, v, Index(g, req.addr))
    ensures var ways := v.Set(Index(g, req.addr));
            Resident(g, FilledOn(g, RoomOn(g, v, Index(g, req.addr), at), req, at).lines, x) <==>
            || x == Block(g, req.addr)
            || (Resident(g, v.lines, x) && (|ways| >= g.assoc ==> x != Block(g, ways[UnlockedFrom(ways, 0)].addr)))
  {
    var index, ways := Index(g, req.addr), v.Set(Index(g, req.addr));
    var r := RoomOn(g, v, index, at);
    OpenSet(g, limit, v, index);
    if |ways| >= g.assoc { HoldsErased(g, index, ways, v.h, UnlockedFrom(ways, 0), x); }
    HoldsPushed(g, r.Set(index), Line(req.addr, Tag(g, req.addr), true, req.kind == Write), x);
  }

  lemma SentAndResident(g: Geometry, limit: nat, v: View, req: Request, at: nat, x: nat)
    requires Sound(g, limit, v)
    ensures Resident(g, Sent(g, limit, v, req, at).lines, x) <==>
            || (x == Block(g, req.addr) && Accepts(g, limit, v, req))
            || (Resident(g, v.lines, x) && !Replaces(g, limit, v, req, x))
  {
    var index, b := Index(g, req.addr), Block(g, req.addr);
    var w, i := WithSet(v, index), TagFrom(v.Set(index), Tag(g, req.addr), 0);
    WithSetSound(g, limit, v, index);
    Open(g, limit, v);
    MissingEntered(g, limit, v, b);
    FoundSound(g, limit, v, req.addr, i);
    CanTakeUnlessJammed(g, v, index);
    assert Resident(g, w.lines, x) <==> Resident(g, v.lines, x);
    if b in v.h.missing { assert Resident(g, v.lines, b); }
    if i < |w.Set(index)| {
      if w.Set(index)[i].lock {
        ResidentAfterMerge(g, w, req.addr, i, req.kind == Write, x);
      } else {
        ResidentAfterHit(g, limit, w, req, i, x);
      }
    } else if |v.mshr| != limit && CanTake(g, w, index) {
      ResidentAfterMiss(g, limit, w, req, at, x);
    }
  }

  /** Lines leave a set only as victims: a block is there after a request exactly if it was asked for and the request
      was accepted, or it was there and did not have to go. */
  ghost predicate Retained(g: Geometry, limit: nat, v: View, req: Request, next: View)
  {
    forall b {:trigger Resident(g, next.lines, b)} :: Resident(g, next.lines, b) <==>
      || (b == Block(g, req.addr) && Accepts(g, limit, v, req))
      || (Resident(g, v.lines, b) && !Replaces(g, limit, v, req, b))
  }

  lemma SentRetains(g: Geometry, limit: nat, v: View, req: Request, at: nat)
    requires Sound(g, limit, v)
    ensures Retained(g, limit, v, req, Sent(g, limit, v, req, at))
  {
    forall b
      ensures Resident(g, Sent(g, limit, v, req, at).lines, b) <==>
              || (b == Block(g, req.addr) && Accepts(g, limit, v, req))
              || (Resident(g, v.lines, b) && !Replaces(g, limit, v, req, b))
    {
      SentAndResident(g, limit, v, req, at, b);
    }
  }

  /** A line that is ready stays so through a request exactly unless it has to go. */
  lemma SentAndReady(g: Geometry, limit: nat, v: View, req: Request, at: nat, addr: nat)
    requires Sound(g, limit, v) && Ready(g, v.lines, v.h, addr)
    ensures var next := Sent(g, limit, v, req, at);
            Ready(g, next.lines, next.h, addr) <==> !Replaces(g, limit, v, req, Block(g, addr))
  {
    SentAndResident(g, limit, v, req, at, Block(g, addr));
    SentMeans(g, limit, v, req, at);
  }

  /** A block that was being read is ready when it has arrived, and nothing else changes. */
  lemma ArrivedAndReady(g: Geometry, limit: nat, v: View, addr: nat, other: nat)
    requires Sound(g, limit, v)
    ensures var next := ArrivedOn(g, v, addr);
            && (Resident(g, next.lines, Block(g, other)) <==> Resident(g, v.lines, Block(g, other)))
            && (Ready(g, next.lines, next.h, other) <==>
                  || Ready(g, v.lines, v.h, other)
                  || (Block(g, other) == Block(g, addr) && Block(g, addr) in v.h.missing))
  {
    var index, b := Index(g, addr), Block(g, addr);
    var ways := v.Set(index);
    var i := TagFrom(ways, Tag(g, addr), 0);
    Open(g, limit, v);
    MissingEntered(g, limit, v, b);
    FoundSound(g, limit, v, addr, i);
    if i < |ways| { HoldsFlagged(g, ways, i, ways[i].(lock := false), Block(g, other)); }
    if b in v.h.missing { assert Resident(g, v.lines, b); }
  }

  class Cache {
    const g: Geometry
    const mshrNum: nat
    const latency: nat
    var clk: nat
    var lines: map<nat, seq<Line>>
    var mshr: seq<nat>
    var waitList: seq<(nat, Request)>
    var hitList: seq<(nat, Request)>
    ghost var h: History
    ghost var log: seq<Event>

    ghost function State(): View
      reads this
    {
      View(lines, mshr, waitList, h, log)
    }

    ghost predicate Valid()
      reads this
    {
      var sound := Sound(g, mshrNum, State());
      sound
    }

    constructor (size: nat, assoc: nat, blockSize: nat, mshrNum: nat, latency: nat)
      requires assoc >= 1 && blockSize >= 1
      ensures Valid() && State() == View(map[], [], [], History({}, {}, map[], map[], 0), []) && hitList == []
      ensures Pow2(g.offset) <= blockSize < 2 * Pow2(g.offset) && g.assoc == assoc
      ensures var sets := Quotient(Quotient(size, blockSize), assoc);
              if sets == 0 then g.setBits == 0 else Pow2(g.setBits) <= sets < 2 * Pow2(g.setBits)
      ensures this.mshrNum == mshrNum && this.latency == latency && clk == 0
    {
      var offset := CalcLog2(blockSize);
      var setBits := CalcLog2(Quotient(Quotient(size, blockSize), assoc));
      this.g, this.mshrNum, this.latency := Geometry(offset, setBits, assoc), mshrNum, latency;
      clk, lines, mshr, waitList, hitList := 0, map[], [], [], [];
      h, log := History({}, {}, map[], map[], 0), [];
    }

    /** get_lines. */
    method GetLines(addr: nat) returns (ways: seq<Line>)
      requires Valid()
      modifies this`lines
      ensures Valid() && State() == WithSet(old(State()), Index(g, addr))
      ensures Index(g, addr) in lines && ways == lines[Index(g, addr)]
    {
      ghost var before := State();
      if Index(g, addr) !in lines {
        lines := lines[Index(g, addr) := []];
      }
      SameSetsSound(g, mshrNum, before, lines);
      ways := lines[Index(g, addr)];
    }

    /** find_if over tags. */
    method FindTag(ways: seq<Line>, tag: nat) returns (i: nat)
      ensures i == TagFrom(ways, tag, 0)
    {
      i := 0;
      while i < |ways| && ways[i].tag != tag
        invariant i <= |ways| && TagFrom(ways, tag, i) == TagFrom(ways, tag, 0)
      {
        i := i + 1;
      }
    }

    /** hit_mshr. */
    method HitMshr(addr: nat) returns (i: nat)
      ensures i == EntryFrom(g, mshr, Block(g, addr), 0)
      ensures i < |mshr| <==> Entered(g, mshr, Block(g, addr))
    {
      i := 0;
      while i < |mshr| && Align(g, mshr[i]) != Align(g, addr)
        invariant i <= |mshr| && EntryFrom(g, mshr, Block(g, addr), i) == EntryFrom(g, mshr, Block(g, addr), 0)
      {
        AlignNamesBlock(g, mshr[i], addr);
        i := i + 1;
      }
      if i < |mshr| { AlignNamesBlock(g, mshr[i], addr); }
    }

    /** all_sets_locked. */
    method AllLocked(ways: seq<Line>) returns (locked: bool)
      ensures locked <==> Jammed(g, ways)
    {
      if |ways| < g.assoc {
        return false;
      }
      var i := 0;
      while i < |ways|
        invariant i <= |ways| && forall k :: 0 <= k < i ==> ways[k].lock
      {
        if !ways[i].lock { return false; }
        i := i + 1;
      }
      locked := true;
    }

    /** need_eviction: its assert(false) stands in a branch that send never reaches. */
    method NeedEviction(ways: seq<Line>, addr: nat) returns (need: bool)
      requires forall i :: 0 <= i < |ways| ==> ways[i].tag != Tag(g, addr)
      ensures need <==> |ways| >= g.assoc
    {
      var i := FindTag(ways, Tag(g, addr));
      if i < |ways| {
        assert false;
      }
      need := |ways| >= g.assoc;
    }

    /** A hit: the line goes to the end of its set, and is dirty if it is written. */
    method Hit(req: Request, i: nat)
      requires Valid() && Index(g, req.addr) in lines && i < |lines[Index(g, req.addr)]|
      requires lines[Index(g, req.addr)][i].tag == Tag(g, req.addr) && !lines[Index(g, req.addr)][i].lock
      modifies this`lines, this`hitList, this`h, this`log
      ensures Valid() && hitList == old(hitList) + [(clk + latency, req)]
      ensures State() == HitOn(g, old(State()), req, i)
    {
      var index := Index(g, req.addr);
      var ways := lines[index];
      ghost var next := HitOn(g, State(), req, i);
      assert State().Set(index) == ways;
      var after := ways[..i] + ways[i + 1..] + [Line(req.addr, Tag(g, req.addr), false,
                                                     ways[i].dirty || req.kind == Write)];
      HitSound(g, mshrNum, State(), req, i, ways, next);
      lines := lines[index := after];
      hitList := hitList + [(clk + latency, req)];
      log := log + LogOf(req.kind == Write, Wrote(Block(g, req.addr)));
      h := Touched(g, req, h);
      assert State() == next;
    }

    /** The line an MSHR entry points to. */
    method EntryLine(m: nat) returns (index: nat, i: nat)
      requires Valid() && m < |mshr|
      ensures index == Index(g, mshr[m]) && index in lines && i < |lines[index]|
      ensures lines[index][i].lock && i == TagFrom(lines[index], Tag(g, mshr[m]), 0)
    {
      index := Index(g, mshr[m]);
      ghost var k := EntrySound(g, mshrNum, State(), m);
      i := FindTag(lines[index], Tag(g, mshr[m]));
    }

    /** A further miss on a block that is already being read only leaves its dirty bit. */
    method Merge(m: nat, dirty: bool)
      requires Valid() && m < |mshr|
      modifies this`lines, this`h, this`log
      ensures Valid() && Index(g, mshr[m]) in old(lines)
      ensures var i := TagFrom(old(lines)[Index(g, mshr[m])], Tag(g, mshr[m]), 0);
              i < |old(lines)[Index(g, mshr[m])]| && State() == MergedOn(g, old(State()), mshr[m], i, dirty)
    {
      var index, i := EntryLine(m);
      var ways := lines[index];
      assert State().Set(index) == ways;
      ghost var b, next := Block(g, mshr[m]), MergedOn(g, State(), mshr[m], i, dirty);
      MergeSound(g, mshrNum, State(), index, i, m, dirty, ways, next);
      lines := lines[index := ways[i := ways[i].(dirty := dirty || ways[i].dirty)]];
      log := log + LogOf(dirty, Wrote(b));
      h := next.h;
      assert State() == next;
    }

    /** evict, in the last level: a dirty victim is written back. */
    method Evict(index: nat, v: nat)
      requires Valid() && index in lines && v < |lines[index]| && !lines[index][v].lock
      modifies this`lines, this`waitList, this`h, this`log
      ensures Valid() && State() == EvictedOn(g, old(State()), index, v, clk + latency)
    {
      var ways := lines[index];
      ghost var next := EvictedOn(g, State(), index, v, clk + latency);
      EvictSound(g, mshrNum, State(), index, v, clk + latency);
      assert waitList + [] == waitList;
      if ways[v].dirty {
        waitList := waitList + [(clk + latency, Request(ways[v].addr, Write))];
      }
      lines := lines[index := ways[..v] + ways[v + 1..]];
      log := log + LogOf(ways[v].dirty, Returned(Block(g, ways[v].addr)));
      h := h.(unwritten := h.unwritten - {Block(g, ways[v].addr)});
      assert State() == next;
    }

    /** The victim: the first line of the set that is not locked. */
    method FindVictim(index: nat) returns (v: nat)
      requires Valid() && index in lines && |lines[index]| >= g.assoc && !Jammed(g, lines[index])
      ensures v == UnlockedFrom(lines[index], 0) && LeastRecent(g, lines[index], h, v)
      ensures !MergedSince(h, Block(g, lines[index][v].addr)) || RequestOrder(g, lines[index], h) ==>
                LeastRequested(g, lines[index], h, v)
    {
      v := 0;
      while v < |lines[index]| && lines[index][v].lock
        invariant v <= |lines[index]| && UnlockedFrom(lines[index], v) == UnlockedFrom(lines[index], 0)
      {
        v := v + 1;
      }
      VictimSound(g, mshrNum, State(), index, v);
      VictimByRequests(g, mshrNum, State(), index, v);
      if RequestOrder(g, lines[index], h) { VictimInOrder(g, mshrNum, State(), index, v); }
    }

    /** allocate_line: room is made, and a locked, clean line for addr is put last; the caller enters its MSHR. */
    method AllocateLine(addr: nat) returns (ghost room: View)
      requires Valid() && Index(g, addr) in lines && !Jammed(g, lines[Index(g, addr)])
      requires forall i :: 0 <= i < |lines[Index(g, addr)]| ==> lines[Index(g, addr)][i].tag != Tag(g, addr)
      modifies this`lines, this`waitList, this`h, this`log
      ensures CanTake(g, old(State()), Index(g, addr)) && room == RoomOn(g, old(State()), Index(g, addr), clk + latency)
      ensures var sound := Sound(g, mshrNum, room); sound
      ensures |room.Set(Index(g, addr))| < g.assoc
      ensures forall k :: 0 <= k < |room.Set(Index(g, addr))| ==> room.Set(Index(g, addr))[k].tag != Tag(g, addr)
      ensures var line := Line(addr, Tag(g, addr), true, false);
              State() == room.(lines := room.lines[Index(g, addr) := room.Set(Index(g, addr)) + [line]])
    {
      var index := Index(g, addr);
      OpenSet(g, mshrNum, State(), index);
      assert State().Set(index) == lines[index];
      var need := NeedEviction(lines[index], addr);
      if need {
        var v := FindVictim(index);
        Evict(index, v);
      }
      room := State();
      lines := lines[index := lines[index] + [Line(addr, Tag(g, addr), true, false)]];
    }

    /** callback: the block has arrived. */
    method Callback(addr: nat)
      requires Valid()
      modifies this`lines, this`mshr, this`h
      ensures Valid() && h == old(h).(missing := old(h).missing - {Block(g, addr)})
      ensures Block(g, addr) !in old(h).missing ==> lines == old(lines) && mshr == old(mshr)
      ensures State() == ArrivedOn(g, old(State()), addr)
      ensures Block(g, addr) in old(h).missing ==> Ready(g, lines, h, addr)
      ensures InRequestOrder(g, State()) <==> InRequestOrder(g, old(State()))
    {
      ghost var b := Block(g, addr);
      ArrivalKeepsOrder(g, mshrNum, State(), addr);
      ArrivedAndReady(g, mshrNum, State(), addr, addr);
      MissingEntered(g, mshrNum, State(), b);
      var m := HitMshr(addr);
      if m < |mshr| {
        var index, i := EntryLine(m);
        BlockByFields(g, mshr[m], addr);
        var ways := lines[index];
        assert State().Set(index) == ways;
        ghost var next := ArrivedOn(g, State(), addr);
        ArrivalSound(g, mshrNum, State(), index, i, m, ways, next);
        lines := lines[index := ways[i := ways[i].(lock := false)]];
        mshr := mshr[..m] + mshr[m + 1..];
        h := next.h;
        assert State() == next;
      } else {
        assert h == h.(missing := h.missing - {b});
      }
    }

    /** The new line gets its dirty bit, its MSHR entry and its memory read. */
    method EnterMiss(req: Request, ghost room: View)
      requires |mshr| < mshrNum && |room.Set(Index(g, req.addr))| < g.assoc
      requires var sound := Sound(g, mshrNum, room); sound
      requires forall k :: 0 <= k < |room.Set(Index(g, req.addr))| ==>
                 room.Set(Index(g, req.addr))[k].tag != Tag(g, req.addr)
      requires var line := Line(req.addr, Tag(g, req.addr), true, false);
               State() == room.(lines := room.lines[Index(g, req.addr) := room.Set(Index(g, req.addr)) + [line]])
      modifies this`lines, this`mshr, this`waitList, this`h, this`log
      ensures Valid() && State() == FilledOn(g, room, req, clk + latency)
    {
      var index := Index(g, req.addr);
      var ways := lines[index];
      ghost var b, next := Block(g, req.addr), FilledOn(g, room, req, clk + latency);
      MissSound(g, mshrNum, room, req, clk + latency, room.Set(index), next);
      lines := lines[index := ways[|ways| - 1 := ways[|ways| - 1].(dirty := req.kind == Write)]];
      assert lines[index] == room.Set(index) + [Line(req.addr, Tag(g, req.addr), true, req.kind == Write)];
      assert lines == next.lines;
      mshr := mshr + [req.addr];
      waitList := waitList + [(clk + latency, Request(req.addr, Read))];
      log := log + LogOf(req.kind == Write, Wrote(b));
      h := next.h;
      assert State() == next;
    }

    /** A miss that no MSHR entry waits for. */
    method Miss(req: Request) returns (ok: bool)
      requires Valid() && Index(g, req.addr) in lines
      requires forall i :: 0 <= i < |lines[Index(g, req.addr)]| ==> lines[Index(g, req.addr)][i].tag != Tag(g, req.addr)
      modifies this`lines, this`mshr, this`waitList, this`h, this`log
      ensures Valid() && (ok <==> old(|mshr| < mshrNum && !Jammed(g, lines[Index(g, req.addr)])))
      ensures !ok ==> State() == old(State())
      ensures ok ==> CanTake(g, old(State()), Index(g, req.addr))
      ensures ok ==>
                State() == FilledOn(g, RoomOn(g, old(State()), Index(g, req.addr), clk + latency), req, clk + latency)
    {
      MshrBounded(g, mshrNum, State());
      if |mshr| == mshrNum { return false; }
      var locked := AllLocked(lines[Index(g, req.addr)]);
      if locked { return false; }
      ghost var room := AllocateLine(req.addr);
      EnterMiss(req, room);
      ok := true;
    }

    /** The branches of send. */
    method Dispatch(req: Request) returns (ok: bool)
      requires Valid()
      modifies this
      ensures Valid() && clk == old(clk) && State() == Sent(g, mshrNum, old(State()), req, clk + latency)
      ensures hitList == old(hitList) + if old(Ready(g, lines, h, req.addr)) then [(clk + latency, req)] else []
      ensures ok == Accepts(g, mshrNum, old(State()), req)
    {
      ghost var before := State();
      var ways := GetLines(req.addr);
      ghost var w := State();
      assert w == WithSet(before, Index(g, req.addr));
      assert w.Set(Index(g, req.addr)) == ways == before.Set(Index(g, req.addr));
      var i := FindTag(ways, Tag(g, req.addr));
      FoundSound(g, mshrNum, before, req.addr, i);
      FoundSound(g, mshrNum, w, req.addr, i);
      MissingEntered(g, mshrNum, before, Block(g, req.addr));
      MshrBounded(g, mshrNum, w);
      Open(g, mshrNum, w);
      CanTakeUnlessJammed(g, w, Index(g, req.addr));
      if i < |ways| && !ways[i].lock {
        Hit(req, i);
        return true;
      }
      var m := HitMshr(req.addr);
      if m < |mshr| {
        BlockByFields(g, mshr[m], req.addr);
        Merge(m, req.kind == Write);
        return true;
      }
      ok := Miss(req);
    }

    /** send: the state follows the specification, and what that means. A request is refused only for want of an MSHR
        entry or of a line, and then nothing has happened; lines leave only as victims; and every set stays in the order
        of its last requests exactly unless the request is merged into a line that is not the last of its set. */
    method Send(req: Request) returns (ok: bool)
      requires Valid()
      modifies this
      ensures Valid() && clk == old(clk) && State() == Sent(g, mshrNum, old(State()), req, clk + latency)
      ensures hitList == old(hitList) + if old(Ready(g, lines, h, req.addr)) then [(clk + latency, req)] else []
      ensures ok == Accepts(g, mshrNum, old(State()), req)
      ensures Outcome(g, mshrNum, old(State()), req, clk + latency, State())
      ensures Retained(g, mshrNum, old(State()), req, State())
      ensures InRequestOrder(g, old(State())) ==>
                (InRequestOrder(g, State()) <==> !Buried(g, old(State()), req.addr))
    {
      ghost var before := State();
      ok := Dispatch(req);
      SentMeans(g, mshrNum, before, req, clk + latency);
      SentRetains(g, mshrNum, before, req, clk + latency);
      if InRequestOrder(g, before) { SentAndOrder(g, mshrNum, before, req, clk + latency); }
    }
  }
}
