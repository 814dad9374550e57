/** The meaning of timing tables on whole histories, and the incremental tables kept instead (DRAM.h). */
module DramHistory {
  import opened DramSpec

  /** A command issued to an address; the part of the address below the command's scope may be -1. */
  datatype Issue = Issue(cmd: Command, addr: seq<int>, clk: int)

  /** A node is named by the ids on the way to it; its level is one less than their number. */
  type Path = p: seq<int> | |p| > 0 witness [0]

  predicate Targets(e: Issue, path: Path) { path <= e.addr }

  /** A sibling of a target: every ancestor is a target, the node is not. */
  predicate Beside(e: Issue, path: Path)
  {
    |path| <= |e.addr| && path[..|path| - 1] == e.addr[..|path| - 1] && path[|path| - 1] != e.addr[|path| - 1]
  }

  /** When the k-th most recent cmd was issued to the node, or -1. */
  function Recent(h: seq<Issue>, cmd: Command, path: Path, k: nat): int
    requires k >= 1
  {
    if h == [] then -1
    else
      var e, before := h[|h| - 1], h[..|h| - 1];
      if e.cmd == cmd && Targets(e, path) then (if k == 1 then e.clk else Recent(before, cmd, path, k - 1))
      else Recent(before, cmd, path, k)
  }

  /** Entry t of command d, seen from the node, allows its command at clk. */
  ghost predicate Allows(t: Entry, d: Command, h: seq<Issue>, path: Path, clk: int)
    requires t.dist >= 1
  {
    if t.sibling then forall i :: 0 <= i < |h| && h[i].cmd == d && Beside(h[i], path) ==> h[i].clk + t.val <= clk
    else Recent(h, d, path, t.dist) >= 0 ==> Recent(h, d, path, t.dist) + t.val <= clk
  }

  /** The k-th entry of command d at the node's level. */
  predicate HasEntry(table: Table, path: Path, d: Command, k: nat) { k < |table(|path| - 1, d)| }

  function EntryAt(table: Table, path: Path, d: Command, k: nat): (t: Entry)
    requires HasEntry(table, path, d, k)
  {
    table(|path| - 1, d)[k]
  }

  /** Every entry of the node's level allows cmd at clk. */
  ghost predicate AllowedAt(table: Table, h: seq<Issue>, path: Path, cmd: Command, clk: int)
    requires IsTable(table)
  {
    forall d, k: nat :: HasEntry(table, path, d, k) && EntryAt(table, path, d, k).cmd == cmd
      ==> Allows(EntryAt(table, path, d, k), d, h, path, clk)
  }

  /** The clocks of a history start at 0 and never go back. */
  ghost predicate Ordered(h: seq<Issue>)
  {
    forall i, j :: 0 <= i <= j < |h| ==> 0 <= h[i].clk <= h[j].clk
  }

  lemma {:induction false} RecentIsPast(h: seq<Issue>, cmd: Command, path: Path, k: nat)
    requires k >= 1 && Ordered(h)
    ensures -1 <= Recent(h, cmd, path, k)
    ensures h != [] ==> Recent(h, cmd, path, k) <= h[|h| - 1].clk
  {
    if h != [] {
      var e, before := h[|h| - 1], h[..|h| - 1];
      if e.cmd == cmd && Targets(e, path) {
        if k > 1 { RecentIsPast(before, cmd, path, k - 1); }
      } else {
        RecentIsPast(before, cmd, path, k);
      }
    }
  }

  /** Going further back goes back in time. */
  lemma {:induction false} RecentOrder(h: seq<Issue>, cmd: Command, path: Path, k: nat)
    requires k >= 1 && Ordered(h)
    ensures Recent(h, cmd, path, k + 1) <= Recent(h, cmd, path, k)
  {
    if h != [] {
      var e, before := h[|h| - 1], h[..|h| - 1];
      if e.cmd == cmd && Targets(e, path) {
        if k > 1 { RecentOrder(before, cmd, path, k - 1); } else { RecentIsPast(before, cmd, path, 1); }
      } else {
        RecentOrder(before, cmd, path, k);
      }
    }
  }

  /** One more command only moves the most recent ones forward. */
  lemma RecentGrows(h: seq<Issue>, e: Issue, cmd: Command, path: Path, k: nat)
    requires k >= 1 && Ordered(h + [e])
    ensures Ordered(h)
    ensures Recent(h + [e], cmd, path, k) ==
            if e.cmd == cmd && Targets(e, path) then (if k == 1 then e.clk else Recent(h, cmd, path, k - 1))
            else Recent(h, cmd, path, k)
    ensures Recent(h, cmd, path, k) <= Recent(h + [e], cmd, path, k)
  {
    assert (h + [e])[..|h|] == h;
    assert Ordered(h) by {
      forall i, j | 0 <= i <= j < |h| ensures 0 <= h[i].clk <= h[j].clk {
        assert (h + [e])[i] == h[i] && (h + [e])[j] == h[j];
      }
    }
    if e.cmd == cmd && Targets(e, path) {
      if k == 1 {
        RecentIsPast(h, cmd, path, 1);
        if h != [] { assert (h + [e])[|h| - 1].clk <= (h + [e])[|h|].clk; }
      } else {
        RecentOrder(h, cmd, path, k - 1);
      }
    }
  }

  /** What a node stores: the earliest clock of each command, and the last few issues of each. */
  datatype Times = Times(next: map<Command, int>, prev: map<Command, seq<int>>)

  /** The number of past issues of a command the node has to remember (the constructor's dist). */
  function Depth(entries: seq<Entry>): nat
  {
    if entries == [] then 0 else
      var rest := Depth(entries[..|entries| - 1]);
      if entries[|entries| - 1].dist > rest then entries[|entries| - 1].dist else rest
  }

  lemma {:induction false} DepthBounds(entries: seq<Entry>, k: nat)
    requires k < |entries|
    ensures entries[k].dist <= Depth(entries)
  {
    if k < |entries| - 1 { DepthBounds(entries[..|entries| - 1], k); }
  }

  ghost predicate IsTimes(table: Table, level: nat, s: Times)
  {
    forall c :: c in s.next && c in s.prev && |s.prev[c]| == Depth(table(level, c))
  }

  /** The first loop of update_timing, for a sibling of the target. */
  function RaisedBeside(entries: seq<Entry>, next: map<Command, int>, clk: int): (r: map<Command, int>)
    requires forall c: Command :: c in next
    ensures forall c: Command :: c in r
  {
    if entries == [] then next else
      var t, r := entries[|entries| - 1], RaisedBeside(entries[..|entries| - 1], next, clk);
      if t.sibling then r[t.cmd := Max(r[t.cmd], clk + t.val)] else r
  }

  /** The second loop, for a target, over its updated history. */
  function RaisedOwn(entries: seq<Entry>, next: map<Command, int>, past: seq<int>): (r: map<Command, int>)
    requires forall c: Command :: c in next
    requires forall k: nat :: k < |entries| ==> 1 <= entries[k].dist <= |past|
    ensures forall c: Command :: c in r
  {
    if entries == [] then next else
      var t, r := entries[|entries| - 1], RaisedOwn(entries[..|entries| - 1], next, past);
      if t.sibling || past[t.dist - 1] < 0 then r else r[t.cmd := Max(r[t.cmd], past[t.dist - 1] + t.val)]
  }

  /** pop_back and push_front. */
  function Shifted(past: seq<int>, clk: int): seq<int>
  {
    if past == [] then [] else [clk] + past[..|past| - 1]
  }

  lemma DepthCovers(entries: seq<Entry>)
    ensures forall k: nat :: k < |entries| ==> entries[k].dist <= Depth(entries)
  {
    forall k: nat | k < |entries| ensures entries[k].dist <= Depth(entries) { DepthBounds(entries, k); }
  }

  /** update_timing at one node. */
  function Stepped(table: Table, path: Path, s: Times, e: Issue): (r: Times)
    requires IsTable(table) && IsTimes(table, |path| - 1, s)
    ensures IsTimes(table, |path| - 1, r)
  {
    var entries := table(|path| - 1, e.cmd);
    if Targets(e, path) then
      var past := Shifted(s.prev[e.cmd], e.clk);
      DepthCovers(entries);
      Times(RaisedOwn(entries, s.next, past), s.prev[e.cmd := past])
    else if Beside(e, path) then Times(RaisedBeside(entries, s.next, e.clk), s.prev)
    else s
  }

  /** The stored history is the recent past, and next[c] is the least clock from -1 on that every entry allows. */
  ghost predicate Tracks(table: Table, path: Path, s: Times, h: seq<Issue>)
    requires IsTable(table)
  {
    && IsTimes(table, |path| - 1, s)
    && (forall c, i: nat :: i < |s.prev[c]| ==> s.prev[c][i] == Recent(h, c, path, i + 1))
    && (forall c, v: int :: s.next[c] <= v <==> v >= -1 && AllowedAt(table, h, path, c, v))
  }

  lemma NextMeaning(table: Table, path: Path, s: Times, h: seq<Issue>, c: Command, v: int)
    requires IsTable(table) && Tracks(table, path, s, h)
    ensures s.next[c] <= v <==> v >= -1 && AllowedAt(table, h, path, c, v)
  {
    var allowed := AllowedAt(table, h, path, c, v);
    assert s.next[c] <= v <==> v >= -1 && allowed;
  }

  lemma {:induction false} RaisedBesideLeast(entries: seq<Entry>, next: map<Command, int>, clk: int, c: Command, v: int)
    requires forall c: Command :: c in next
    ensures RaisedBeside(entries, next, clk)[c] <= v <==>
            next[c] <= v && forall k: nat :: k < |entries| && entries[k].cmd == c && entries[k].sibling ==>
              clk + entries[k].val <= v
  {
    if entries != [] {
      RaisedBesideLeast(entries[..|entries| - 1], next, clk, c, v);
    }
  }

  /** What next[c] <= v says after the update, entry by entry. */
  ghost predicate OwnWithin(entries: seq<Entry>, past: seq<int>, c: Command, v: int)
    requires forall k: nat :: k < |entries| ==> 1 <= entries[k].dist <= |past|
  {
    forall k: nat :: k < |entries| && entries[k].cmd == c && !entries[k].sibling && past[entries[k].dist - 1] >= 0
      ==> past[entries[k].dist - 1] + entries[k].val <= v
  }

  lemma OwnWithinOneMore(entries: seq<Entry>, past: seq<int>, c: Command, v: int)
    requires entries != [] && forall k: nat :: k < |entries| ==> 1 <= entries[k].dist <= |past|
    ensures var t, rest := entries[|entries| - 1], entries[..|entries| - 1];
            && (forall k: nat :: k < |rest| ==> 1 <= rest[k].dist <= |past|)
            && (OwnWithin(entries, past, c, v) <==>
                OwnWithin(rest, past, c, v) && (t.cmd == c && !t.sibling && past[t.dist - 1] >= 0 ==>
                                                  past[t.dist - 1] + t.val <= v))
  {
    var rest := entries[..|entries| - 1];
    assert forall k: nat :: k < |rest| ==> rest[k] == entries[k];
    if OwnWithin(entries, past, c, v) {
      forall k: nat | k < |rest| && rest[k].cmd == c && !rest[k].sibling && past[rest[k].dist - 1] >= 0
        ensures past[rest[k].dist - 1] + rest[k].val <= v
      {
        assert entries[k] == rest[k];
      }
    }
  }

  lemma {:induction false} RaisedOwnLeast(entries: seq<Entry>, next: map<Command, int>, past: seq<int>, c: Command,
                                          v: int)
    requires forall c: Command :: c in next
    requires forall k: nat :: k < |entries| ==> 1 <= entries[k].dist <= |past|
    ensures RaisedOwn(entries, next, past)[c] <= v <==>
            next[c] <= v && OwnWithin(entries, past, c, v)
  {
    if entries != [] {
      var rest := entries[..|entries| - 1];
      RaisedOwnLeast(rest, next, past, c, v);
      OwnWithinOneMore(entries, past, c, v);
    }
  }

  lemma InitialTracks(table: Table, path: Path, s: Times)
    requires IsTable(table) && IsTimes(table, |path| - 1, s)
    requires forall c :: s.next[c] == -1 && forall i: nat :: i < |s.prev[c]| ==> s.prev[c][i] == -1
    ensures Tracks(table, path, s, [])
  {
  }

  lemma SteppedOwn(table: Table, path: Path, s: Times, e: Issue, level: nat)
    requires IsTable(table) && |path| == level + 1 && IsTimes(table, level, s) && Targets(e, path)
    ensures var past := Shifted(s.prev[e.cmd], e.clk);
            && (forall k: nat :: k < |table(level, e.cmd)| ==> 1 <= table(level, e.cmd)[k].dist <= |past|)
            && Stepped(table, path, s, e) == Times(RaisedOwn(table(level, e.cmd), s.next, past), s.prev[e.cmd := past])
  {
    DepthCovers(table(level, e.cmd));
  }

  lemma HistoryShifted(table: Table, path: Path, s: Times, h: seq<Issue>, e: Issue)
    requires IsTable(table) && Tracks(table, path, s, h) && Ordered(h + [e])
    ensures var r := Stepped(table, path, s, e);
            forall c, i: nat :: i < |r.prev[c]| ==> r.prev[c][i] == Recent(h + [e], c, path, i + 1)
  {
    var r := Stepped(table, path, s, e);
    forall c, i: nat | i < |r.prev[c]| ensures r.prev[c][i] == Recent(h + [e], c, path, i + 1) {
      RecentGrows(h, e, c, path, i + 1);
    }
  }

  /** A constraint that allows v after e allowed it before. */
  lemma AllowedBefore(t: Entry, d: Command, h: seq<Issue>, e: Issue, path: Path, v: int)
    requires t.dist >= 1 && Ordered(h + [e]) && Allows(t, d, h + [e], path, v)
    ensures Allows(t, d, h, path, v)
  {
    RecentGrows(h, e, d, path, t.dist);
    if t.sibling {
      forall i | 0 <= i < |h| && h[i].cmd == d && Beside(h[i], path) ensures h[i].clk + t.val <= v {
        assert (h + [e])[i] == h[i];
      }
    }
  }

  /** An entry that e does not concern. */
  lemma UntouchedSame(t: Entry, d: Command, h: seq<Issue>, e: Issue, path: Path, v: int)
    requires t.dist >= 1 && Ordered(h + [e])
    requires e.cmd != d || (if t.sibling then !Beside(e, path) else !Targets(e, path))
    ensures Allows(t, d, h, path, v) <==> Allows(t, d, h + [e], path, v)
  {
    RecentGrows(h, e, d, path, t.dist);
    if Allows(t, d, h + [e], path, v) {
      AllowedBefore(t, d, h, e, path, v);
    } else if t.sibling {
      var i :| 0 <= i < |h + [e]| && (h + [e])[i].cmd == d && Beside((h + [e])[i], path)
          && (h + [e])[i].clk + t.val > v;
      assert i < |h| && h[i] == (h + [e])[i];
    }
  }

  lemma ElsewhereSame(table: Table, path: Path, h: seq<Issue>, e: Issue, c: Command, v: int)
    requires IsTable(table) && Ordered(h + [e]) && !Targets(e, path) && !Beside(e, path)
    ensures AllowedAt(table, h, path, c, v) <==> AllowedAt(table, h + [e], path, c, v)
  {
    forall d, k: nat | HasEntry(table, path, d, k)
      ensures Allows(EntryAt(table, path, d, k), d, h, path, v) <==>
                Allows(EntryAt(table, path, d, k), d, h + [e], path, v)
    {
      UntouchedSame(EntryAt(table, path, d, k), d, h, e, path, v);
    }
  }

  lemma TargetEntry(table: Table, path: Path, s: Times, h: seq<Issue>, e: Issue, past: seq<int>, t: Entry, d: Command,
                    v: int)
    requires IsTable(table) && Tracks(table, path, s, h) && Ordered(h + [e]) && Targets(e, path)
    requires past == Shifted(s.prev[e.cmd], e.clk) && t.dist >= 1 && (d == e.cmd ==> t.dist <= |past|)
    ensures Allows(t, d, h + [e], path, v) <==>
            Allows(t, d, h, path, v) && (d == e.cmd && !t.sibling && past[t.dist - 1] >= 0 ==>
                                           past[t.dist - 1] + t.val <= v)
  {
    if d != e.cmd || t.sibling {
      UntouchedSame(t, d, h, e, path, v);
    } else {
      RecentGrows(h, e, d, path, t.dist);
      HistoryShifted(table, path, s, h, e);
      assert Stepped(table, path, s, e).prev[d][t.dist - 1] == past[t.dist - 1];
    }
  }

  lemma TargetNarrows(table: Table, path: Path, s: Times, h: seq<Issue>, e: Issue, entries: seq<Entry>, past: seq<int>,
                      c: Command, v: int)
    requires IsTable(table) && Tracks(table, path, s, h) && Ordered(h + [e]) && Targets(e, path)
    requires past == Shifted(s.prev[e.cmd], e.clk) && entries == table(|path| - 1, e.cmd)
    requires forall k: nat :: k < |entries| ==> 1 <= entries[k].dist <= |past|
    requires AllowedAt(table, h + [e], path, c, v)
    ensures AllowedAt(table, h, path, c, v) && OwnWithin(entries, past, c, v)
  {
    forall d, k: nat | HasEntry(table, path, d, k) && EntryAt(table, path, d, k).cmd == c
      ensures Allows(EntryAt(table, path, d, k), d, h, path, v)
    {
      TargetEntry(table, path, s, h, e, past, EntryAt(table, path, d, k), d, v);
    }
    forall k: nat | k < |entries| && entries[k].cmd == c && !entries[k].sibling && past[entries[k].dist - 1] >= 0
      ensures past[entries[k].dist - 1] + entries[k].val <= v
    {
      assert HasEntry(table, path, e.cmd, k) && EntryAt(table, path, e.cmd, k) == entries[k];
      TargetEntry(table, path, s, h, e, past, entries[k], e.cmd, v);
    }
  }

  lemma TargetSuffices(table: Table, path: Path, s: Times, h: seq<Issue>, e: Issue, entries: seq<Entry>, past: seq<int>,
                       c: Command, v: int)
    requires IsTable(table) && Tracks(table, path, s, h) && Ordered(h + [e]) && Targets(e, path)
    requires past == Shifted(s.prev[e.cmd], e.clk) && entries == table(|path| - 1, e.cmd)
    requires forall k: nat :: k < |entries| ==> 1 <= entries[k].dist <= |past|
    requires AllowedAt(table, h, path, c, v) && OwnWithin(entries, past, c, v)
    ensures AllowedAt(table, h + [e], path, c, v)
  {
    forall d, k: nat | HasEntry(table, path, d, k) && EntryAt(table, path, d, k).cmd == c
      ensures Allows(EntryAt(table, path, d, k), d, h + [e], path, v)
    {
      var t := EntryAt(table, path, d, k);
      assert Allows(t, d, h, path, v);
      if d == e.cmd { assert entries[k] == t; }
      TargetEntry(table, path, s, h, e, past, t, d, v);
    }
  }

  lemma TargetAllowed(table: Table, path: Path, s: Times, h: seq<Issue>, e: Issue, entries: seq<Entry>, past: seq<int>,
                      c: Command, v: int)
    requires IsTable(table) && Tracks(table, path, s, h) && Ordered(h + [e]) && Targets(e, path)
    requires past == Shifted(s.prev[e.cmd], e.clk) && entries == table(|path| - 1, e.cmd)
    requires forall k: nat :: k < |entries| ==> 1 <= entries[k].dist <= |past|
    ensures AllowedAt(table, h + [e], path, c, v) <==> AllowedAt(table, h, path, c, v) && OwnWithin(entries, past, c, v)
  {
    var after, before := AllowedAt(table, h + [e], path, c, v), AllowedAt(table, h, path, c, v);
    if after {
      TargetNarrows(table, path, s, h, e, entries, past, c, v);
    } else if before && OwnWithin(entries, past, c, v) {
      TargetSuffices(table, path, s, h, e, entries, past, c, v);
    }
  }

  lemma TargetLeast(table: Table, path: Path, s: Times, h: seq<Issue>, e: Issue, c: Command, v: int)
    requires IsTable(table) && Tracks(table, path, s, h) && Ordered(h + [e]) && Targets(e, path)
    ensures Stepped(table, path, s, e).next[c] <= v <==> v >= -1 && AllowedAt(table, h + [e], path, c, v)
  {
    var entries, past := table(|path| - 1, e.cmd), Shifted(s.prev[e.cmd], e.clk);
    DepthCovers(entries);
    RaisedOwnLeast(entries, s.next, past, c, v);
    NextMeaning(table, path, s, h, c, v);
    TargetAllowed(table, path, s, h, e, entries, past, c, v);
    var after := AllowedAt(table, h + [e], path, c, v);
    assert Stepped(table, path, s, e).next == RaisedOwn(entries, s.next, past);
    assert s.next[c] <= v && OwnWithin(entries, past, c, v) <==> v >= -1 && after;
  }

  lemma EntriesHere(table: Table, path: Path, d: Command)
    ensures forall k: nat :: k < |table(|path| - 1, d)| ==>
              HasEntry(table, path, d, k) && EntryAt(table, path, d, k) == table(|path| - 1, d)[k]
  {
  }

  lemma BesideEntry(t: Entry, h: seq<Issue>, e: Issue, path: Path, v: int)
    requires t.dist >= 1 && t.sibling && Ordered(h + [e]) && Beside(e, path)
    ensures Allows(t, e.cmd, h + [e], path, v) <==> Allows(t, e.cmd, h, path, v) && e.clk + t.val <= v
  {
    if Allows(t, e.cmd, h + [e], path, v) {
      AllowedBefore(t, e.cmd, h, e, path, v);
      assert (h + [e])[|h|] == e;
    }
  }

  lemma BesideLeast(table: Table, path: Path, s: Times, h: seq<Issue>, e: Issue, c: Command, v: int)
    requires IsTable(table) && Tracks(table, path, s, h) && Ordered(h + [e]) && Beside(e, path)
    ensures Stepped(table, path, s, e).next[c] <= v <==> v >= -1 && AllowedAt(table, h + [e], path, c, v)
  {
    var entries := table(|path| - 1, e.cmd);
    assert !Targets(e, path);
    RaisedBesideLeast(entries, s.next, e.clk, c, v);
    forall d, k: nat | HasEntry(table, path, d, k) && EntryAt(table, path, d, k).cmd == c
      ensures var t := EntryAt(table, path, d, k);
              Allows(t, d, h + [e], path, v) <==>
                Allows(t, d, h, path, v) && (d == e.cmd && t.sibling ==> e.clk + t.val <= v)
    {
      var t := EntryAt(table, path, d, k);
      if d != e.cmd || !t.sibling {
        UntouchedSame(t, d, h, e, path, v);
      } else {
        BesideEntry(t, h, e, path, v);
      }
    }
    EntriesHere(table, path, e.cmd);
    NextMeaning(table, path, s, h, c, v);
    var allowed := AllowedAt(table, h + [e], path, c, v);
    assert allowed ==> AllowedAt(table, h, path, c, v);
    assert Stepped(table, path, s, e).next[c] <= v ==> allowed;
    if allowed && v >= -1 {
      forall k: nat | k < |entries| && entries[k].cmd == c && entries[k].sibling ensures e.clk + entries[k].val <= v {
        assert HasEntry(table, path, e.cmd, k) && EntryAt(table, path, e.cmd, k) == entries[k];
      }
    }
  }

  /** The main step: a node that tracks a history tracks it after one more command, whoever it was issued to. */
  lemma StepTracks(table: Table, path: Path, s: Times, h: seq<Issue>, e: Issue)
    requires IsTable(table) && Tracks(table, path, s, h) && Ordered(h + [e])
    ensures Tracks(table, path, Stepped(table, path, s, e), h + [e])
  {
    var r := Stepped(table, path, s, e);
    HistoryShifted(table, path, s, h, e);
    forall c, v: int ensures r.next[c] <= v <==> v >= -1 && AllowedAt(table, h + [e], path, c, v) {
      if Targets(e, path) {
        TargetLeast(table, path, s, h, e, c, v);
      } else if Beside(e, path) {
        BesideLeast(table, path, s, h, e, c, v);
      } else {
        ElsewhereSame(table, path, h, e, c, v);
      }
    }
  }
}
