/** The bounded reorder buffer of the pipeline viewer (o3-pipeview.py, queue_inst and print_insts). */
module ReorderBuffer {

  datatype Inst = Inst(sn: int, fetch: int, retire: int)

  /** The bounds and the flag that decide what is printed; 0 means no bound. */
  datatype Filter = Filter(snStart: int, snStop: int, tickStart: int, tickStop: int, onlyCommitted: bool)

  predicate Printed(f: Filter, i: Inst)
  {
    && !(f.snStart > 0 && i.sn < f.snStart) && !(f.snStop > 0 && i.sn > f.snStop)
    && !(f.tickStart > 0 && i.fetch < f.tickStart) && !(f.tickStop > 0 && i.fetch > f.tickStop)
    && !(f.onlyCommitted && i.retire == 0)
  }

  predicate Unfiltered(f: Filter)
  {
    f.snStart <= 0 && f.snStop <= 0 && f.tickStart <= 0 && f.tickStop <= 0 && !f.onlyCommitted
  }

  /** What is printed of a sequence of instructions. */
  function Selected(f: Filter, s: seq<Inst>): seq<Inst>
  {
    if s == [] then [] else
      Selected(f, s[..|s| - 1]) + if Printed(f, s[|s| - 1]) then [s[|s| - 1]] else []
  }

  predicate InOrder(s: seq<Inst>) { forall i, j :: 0 <= i < j < |s| ==> s[i].sn <= s[j].sn }

  /** How many instructions have a sequence number of at least v. */
  function AtLeast(s: seq<Inst>, v: int): nat
  {
    if s == [] then 0 else AtLeast(s[..|s| - 1], v) + if s[|s| - 1].sn >= v then 1 else 0
  }

  lemma AtLeastPush(s: seq<Inst>, i: Inst, v: int)
    ensures AtLeast(s + [i], v) == AtLeast(s, v) + if i.sn >= v then 1 else 0
  {
    assert (s + [i])[..|s|] == s;
  }

  lemma {:induction false} AtLeastConcat(s: seq<Inst>, t: seq<Inst>, v: int)
    ensures AtLeast(s + t, v) == AtLeast(s, v) + AtLeast(t, v)
  {
    if t == [] {
      assert s + t == s;
    } else {
      var n := |t| - 1;
      AtLeastConcat(s, t[..n], v);
      assert s + t == (s + t[..n]) + [t[n]];
      AtLeastPush(s + t[..n], t[n], v);
    }
  }

  /** In an ordered sequence everything from position m - 1 on counts. */
  lemma {:induction false} TailAtLeast(s: seq<Inst>, m: nat)
    requires InOrder(s) && 0 < m <= |s|
    ensures AtLeast(s, s[m - 1].sn) >= |s| - (m - 1)
    decreases |s|
  {
    if m < |s| { TailAtLeast(s[..|s| - 1], m); }
  }

  lemma {:induction false} AtLeastFalls(s: seq<Inst>, v: int, w: int)
    requires v <= w
    ensures AtLeast(s, w) <= AtLeast(s, v)
  {
    if s != [] { AtLeastFalls(s[..|s| - 1], v, w); }
  }

  /** Insertion after the instructions that are not later; sorting by repeated insertion is stable, as list.sort is. */
  function Insert(s: seq<Inst>, i: Inst): (r: seq<Inst>)
    ensures |r| == |s| + 1
  {
    if s == [] || s[|s| - 1].sn <= i.sn then s + [i]
    else Insert(s[..|s| - 1], i) + [s[|s| - 1]]
  }

  function Sort(s: seq<Inst>): (r: seq<Inst>)
    ensures |r| == |s|
  {
    if s == [] then [] else Insert(Sort(s[..|s| - 1]), s[|s| - 1])
  }

  lemma {:induction false} InsertOrders(s: seq<Inst>, i: Inst)
    requires InOrder(s)
    ensures InOrder(Insert(s, i))
    ensures forall j :: 0 <= j < |s| + 1 ==>
              Insert(s, i)[j].sn <= i.sn || (s != [] && Insert(s, i)[j].sn <= s[|s| - 1].sn)
  {
    if s != [] && s[|s| - 1].sn > i.sn { InsertOrders(s[..|s| - 1], i); }
  }

  lemma {:induction false} InsertKeeps(s: seq<Inst>, i: Inst)
    ensures multiset(Insert(s, i)) == multiset(s) + multiset{i}
  {
    if s != [] && s[|s| - 1].sn > i.sn {
      var n := |s| - 1;
      InsertKeeps(s[..n], i);
      assert s == s[..n] + [s[n]];
    }
  }

  lemma {:induction false} InsertCounts(s: seq<Inst>, i: Inst, v: int)
    ensures AtLeast(Insert(s, i), v) == AtLeast(s, v) + if i.sn >= v then 1 else 0
  {
    if s == [] || s[|s| - 1].sn <= i.sn {
      AtLeastPush(s, i, v);
    } else {
      var n := |s| - 1;
      InsertCounts(s[..n], i, v);
      AtLeastPush(Insert(s[..n], i), s[n], v);
    }
  }

  /** Nothing smaller appears by insertion. */
  lemma {:induction false} InsertAbove(s: seq<Inst>, i: Inst, v: int)
    requires i.sn >= v && forall j :: 0 <= j < |s| ==> s[j].sn >= v
    ensures forall j :: 0 <= j < |s| + 1 ==> Insert(s, i)[j].sn >= v
  {
    if s != [] && s[|s| - 1].sn > i.sn { InsertAbove(s[..|s| - 1], i, v); }
  }

  lemma {:induction false} SortOrders(s: seq<Inst>)
    ensures InOrder(Sort(s))
  {
    if s != [] {
      SortOrders(s[..|s| - 1]);
      InsertOrders(Sort(s[..|s| - 1]), s[|s| - 1]);
    }
  }

  lemma {:induction false} SortKeeps(s: seq<Inst>)
    ensures multiset(Sort(s)) == multiset(s)
  {
    if s != [] {
      var n := |s| - 1;
      SortKeeps(s[..n]);
      InsertKeeps(Sort(s[..n]), s[n]);
      assert s == s[..n] + [s[n]];
    }
  }

  lemma {:induction false} SortCounts(s: seq<Inst>, v: int)
    ensures AtLeast(Sort(s), v) == AtLeast(s, v)
  {
    if s != [] {
      SortCounts(s[..|s| - 1], v);
      InsertCounts(Sort(s[..|s| - 1]), s[|s| - 1], v);
    }
  }

  /** The instructions with this sequence number, in order. */
  function WithNumber(s: seq<Inst>, v: int): seq<Inst>
  {
    if s == [] then [] else WithNumber(s[..|s| - 1], v) + if s[|s| - 1].sn == v then [s[|s| - 1]] else []
  }

  lemma NumberPush(s: seq<Inst>, i: Inst, v: int)
    ensures WithNumber(s + [i], v) == WithNumber(s, v) + if i.sn == v then [i] else []
  {
    assert (s + [i])[..|s|] == s;
  }

  lemma {:induction false} InsertStable(s: seq<Inst>, i: Inst, v: int)
    ensures WithNumber(Insert(s, i), v) == WithNumber(s, v) + if i.sn == v then [i] else []
  {
    if s == [] || s[|s| - 1].sn <= i.sn {
      NumberPush(s, i, v);
    } else {
      var n := |s| - 1;
      InsertStable(s[..n], i, v);
      NumberPush(Insert(s[..n], i), s[n], v);
    }
  }

  /** Sorting is stable: instructions with one sequence number, as of several threads, stay in order of arrival. */
  lemma {:induction false} SortStable(s: seq<Inst>, v: int)
    ensures WithNumber(Sort(s), v) == WithNumber(s, v)
  {
    if s != [] {
      SortStable(s[..|s| - 1], v);
      InsertStable(Sort(s[..|s| - 1]), s[|s| - 1], v);
    }
  }

  lemma PrefixInOrder(s: seq<Inst>, n: nat)
    requires InOrder(s) && n < |s|
    ensures InOrder(s[..n]) && (n > 0 ==> s[..n][n - 1].sn <= s[n].sn)
  {
    assert n > 0 ==> s[n - 1].sn <= s[n].sn;
  }

  lemma InsertLast(s: seq<Inst>, i: Inst)
    requires s != [] ==> s[|s| - 1].sn <= i.sn
    ensures Insert(s, i) == s + [i]
  {
  }

  lemma {:induction false} SortOfOrdered(s: seq<Inst>)
    requires InOrder(s)
    ensures Sort(s) == s
  {
    if s != [] {
      var n := |s| - 1;
      PrefixInOrder(s, n);
      SortOfOrdered(s[..n]);
      InsertLast(s[..n], s[n]);
      assert s[..n] + [s[n]] == s;
    }
  }

  /** The same instructions, in some order. */
  ghost predicate Same(s: seq<Inst>, t: seq<Inst>)
  {
    multiset(s) == multiset(t) && forall v {:trigger AtLeast(s, v)} :: AtLeast(s, v) == AtLeast(t, v)
  }

  lemma SameArrival(arrived: seq<Inst>, popped: seq<Inst>, queue: seq<Inst>, i: Inst)
    requires Same(arrived, popped + queue)
    ensures Same(arrived + [i], popped + (queue + [i]))
  {
    assert popped + (queue + [i]) == (popped + queue) + [i];
    forall v ensures AtLeast(arrived + [i], v) == AtLeast((popped + queue) + [i], v) {
      AtLeastPush(arrived, i, v);
      AtLeastPush(popped + queue, i, v);
    }
  }

  lemma SameSorted(arrived: seq<Inst>, popped: seq<Inst>, queue: seq<Inst>)
    requires Same(arrived, popped + queue)
    ensures Same(arrived, popped + Sort(queue))
  {
    SortKeeps(queue);
    forall v ensures AtLeast(arrived, v) == AtLeast(popped + Sort(queue), v) {
      SortCounts(queue, v);
      AtLeastConcat(popped, queue, v);
      AtLeastConcat(popped, Sort(queue), v);
    }
  }

  /** Popped and sorted queue together are in order, and more than min arrivals are not before the last popped one. */
  ghost predicate Ordered(arrived: seq<Inst>, popped: seq<Inst>, queue: seq<Inst>, min: nat)
  {
    InOrder(popped + Sort(queue)) && (popped != [] ==> AtLeast(arrived, popped[|popped| - 1].sn) > min)
  }

  lemma PartsInOrder(p: seq<Inst>, q: seq<Inst>)
    requires InOrder(p + q)
    ensures InOrder(p) && InOrder(q)
  {
    var whole := p + q;
    forall a, b | 0 <= a < b < |p| ensures p[a].sn <= p[b].sn { assert whole[a].sn <= whole[b].sn; }
    forall a, b | 0 <= a < b < |q| ensures q[a].sn <= q[b].sn { assert whole[|p| + a].sn <= whole[|p| + b].sn; }
  }

  /** And two ordered parts make an ordered whole if the first ends where the second begins, or before. */
  lemma WholeInOrder(p: seq<Inst>, q: seq<Inst>)
    requires InOrder(p) && InOrder(q) && (p != [] ==> forall j :: 0 <= j < |q| ==> p[|p| - 1].sn <= q[j].sn)
    ensures InOrder(p + q)
  {
    var whole := p + q;
    forall a, b | 0 <= a < b < |whole| ensures whole[a].sn <= whole[b].sn {
      if a < |p| <= b { assert p[a].sn <= p[|p| - 1].sn && whole[b] == q[b - |p|]; }
    }
  }

  lemma AfterPopped(arrived: seq<Inst>, popped: seq<Inst>, sorted: seq<Inst>, min: nat, i: Inst)
    requires popped != [] && InOrder(popped + sorted) && AtLeast(arrived, popped[|popped| - 1].sn) > min
    requires AtLeast(arrived, i.sn + 1) <= min
    ensures forall j :: 0 <= j < |sorted| + 1 ==> popped[|popped| - 1].sn <= Insert(sorted, i)[j].sn
  {
    var last, whole := popped[|popped| - 1].sn, popped + sorted;
    if i.sn < last { AtLeastFalls(arrived, i.sn + 1, last); }
    forall j | 0 <= j < |sorted|
      ensures sorted[j].sn >= last
    {
      assert whole[|popped| - 1].sn <= whole[|popped| + j].sn;
    }
    InsertAbove(sorted, i, last);
  }

  /** An arrival that at most min larger ones have preceded is not before what was popped. */
  lemma ArrivalKeepsOrder(arrived: seq<Inst>, popped: seq<Inst>, queue: seq<Inst>, min: nat, i: Inst)
    requires Ordered(arrived, popped, queue, min) && AtLeast(arrived, i.sn + 1) <= min
    ensures Ordered(arrived + [i], popped, queue + [i], min)
  {
    assert (queue + [i])[..|queue|] == queue;
    var sorted := Sort(queue);
    assert Sort(queue + [i]) == Insert(sorted, i);
    PartsInOrder(popped, sorted);
    InsertOrders(sorted, i);
    if popped != [] {
      AfterPopped(arrived, popped, sorted, min, i);
      AtLeastPush(arrived, i, popped[|popped| - 1].sn);
    }
    WholeInOrder(popped, Insert(sorted, i));
  }

  lemma LastAtLeast(whole: seq<Inst>, p: seq<Inst>, q: seq<Inst>)
    requires whole == p + q && InOrder(whole) && p != []
    ensures AtLeast(whole, p[|p| - 1].sn) > |q|
  {
    TailAtLeast(whole, |p|);
  }

  /** Popping from the front of the sorted queue down to at least min keeps the order. */
  lemma PopsKeepOrder(arrived: seq<Inst>, popped: seq<Inst>, queue: seq<Inst>, p: seq<Inst>, q: seq<Inst>, min: nat)
    requires Same(arrived, popped + queue) && Ordered(arrived, popped, queue, min)
    requires p + q == popped + Sort(queue) && |p| >= |popped| && (|p| > |popped| ==> |q| >= min)
    ensures InOrder(p) && Ordered(arrived, p, q, min)
  {
    var whole := popped + Sort(queue);
    PartsInOrder(p, q);
    SortOfOrdered(q);
    if |p| > |popped| {
      SameSorted(arrived, popped, queue);
      LastAtLeast(whole, p, q);
      assert AtLeast(arrived, p[|p| - 1].sn) == AtLeast(whole, p[|p| - 1].sn);
    } else {
      assert whole[..|p|] == p && whole[..|popped|] == popped;
    }
  }

  lemma {:induction false} SelectedInOrder(f: Filter, s: seq<Inst>)
    requires InOrder(s)
    ensures InOrder(Selected(f, s)) && (s == [] ==> Selected(f, s) == [])
    ensures s != [] ==> forall i :: 0 <= i < |Selected(f, s)| ==> Selected(f, s)[i].sn <= s[|s| - 1].sn
  {
    if s != [] { SelectedInOrder(f, s[..|s| - 1]); }
  }

  lemma {:induction false} SelectedAll(f: Filter, s: seq<Inst>)
    requires Unfiltered(f)
    ensures Selected(f, s) == s
  {
    if s != [] {
      SelectedAll(f, s[..|s| - 1]);
      assert s == s[..|s| - 1] + [s[|s| - 1]];
    }
  }

  /** Inside the bounds on sequence numbers and ticks; a bound of 0, or below, is none. */
  predicate InBounds(f: Filter, i: Inst)
  {
    && (f.snStart <= 0 || f.snStart <= i.sn) && (f.snStop <= 0 || i.sn <= f.snStop)
    && (f.tickStart <= 0 || f.tickStart <= i.fetch) && (f.tickStop <= 0 || i.fetch <= f.tickStop)
  }

  /** And retired, if that is asked for. */
  predicate Wanted(f: Filter, i: Inst) { InBounds(f, i) && (f.onlyCommitted ==> i.retire != 0) }

  /** What is wanted is selected, as often as it occurs, and nothing else. */
  lemma {:induction false} SelectedCounts(f: Filter, s: seq<Inst>, i: Inst)
    ensures multiset(Selected(f, s))[i] == if Wanted(f, i) then multiset(s)[i] else 0
  {
    if s != [] {
      SelectedCounts(f, s[..|s| - 1], i);
      assert s == s[..|s| - 1] + [s[|s| - 1]];
    }
  }

  /** Everything wanted is printed as often as it has arrived, and nothing else. */
  ghost predicate PrintsWanted(f: Filter, output: seq<Inst>, arrived: seq<Inst>)
  {
    forall i :: multiset(output)[i] == if Wanted(f, i) then multiset(arrived)[i] else 0
  }

  lemma SelectionPrints(f: Filter, popped: seq<Inst>, arrived: seq<Inst>)
    requires multiset(popped) == multiset(arrived)
    ensures PrintsWanted(f, Selected(f, popped), arrived)
  {
    forall i ensures multiset(Selected(f, popped))[i] == if Wanted(f, i) then multiset(arrived)[i] else 0 {
      SelectedCounts(f, popped, i);
    }
  }

  class Viewer {
    const f: Filter
    const max: nat
    const min: nat
    var queue: seq<Inst>
    var output: seq<Inst>
    /** What has arrived, and what has left the queue, printed or filtered out. */
    ghost var arrived: seq<Inst>
    ghost var popped: seq<Inst>

    /** Every arrival is queued or popped, and what is printed is the selection of what was popped. */
    ghost predicate Valid()
      reads this
    {
      min <= max && |queue| <= max && output == Selected(f, popped) && Same(arrived, popped + queue)
    }

    ghost predicate InOrderSoFar()
      reads this
    {
      Ordered(arrived, popped, queue, min)
    }

    constructor (f: Filter, max: nat, min: nat)
      requires min <= max
      ensures Valid() && InOrderSoFar() && arrived == [] && popped == [] && this.f == f && this.min == min
              && this.max == max
    {
      this.f, this.max, this.min := f, max, min;
      queue, output, arrived, popped := [], [], [], [];
    }

    /** print_insts: sort, then pop from the front until lower are left. */
    method PrintInsts(lower: nat)
      requires output == Selected(f, popped)
      modifies this`queue, this`output, this`popped
      ensures output == Selected(f, popped) && popped + queue == old(popped) + Sort(old(queue))
      ensures |popped| >= old(|popped|) && |queue| == if old(|queue|) < lower then old(|queue|) else lower
    {
      queue := Sort(queue);
      while |queue| > lower
        invariant output == Selected(f, popped) && popped + queue == old(popped) + Sort(old(queue))
                  && |popped| >= old(|popped|)
        invariant if old(|queue|) < lower then |queue| == old(|queue|) else |queue| >= lower
      {
        var item := queue[0];
        assert (popped + [item]) + queue[1..] == popped + queue;
        assert (popped + [item])[..|popped|] == popped;
        queue, popped := queue[1..], popped + [item];
        if Printed(f, item) {
          output := output + [item];
        }
      }
    }

    /** queue_inst. A queue that exceeds its bound is sorted and its first instructions popped, down to min. Order
        survives when at most min larger sequence numbers have arrived before this one. */
    method QueueInst(i: Inst)
      requires Valid()
      modifies this
      ensures Valid() && arrived == old(arrived) + [i]
      ensures if old(|queue|) < max then queue == old(queue) + [i] && output == old(output)
              else |queue| == min && popped + queue == old(popped) + Sort(old(queue) + [i])
      ensures old(InOrderSoFar()) && AtLeast(old(arrived), i.sn + 1) <= min ==> InOrderSoFar()
    {
      SameArrival(arrived, popped, queue, i);
      if AtLeast(arrived, i.sn + 1) <= min && InOrderSoFar() { ArrivalKeepsOrder(arrived, popped, queue, min, i); }
      queue, arrived := queue + [i], arrived + [i];
      if |queue| > max {
        ghost var p, q := popped, queue;
        SameSorted(arrived, popped, queue);
        PrintInsts(min);
        if Ordered(arrived, p, q, min) { PopsKeepOrder(arrived, p, q, popped, queue, min); }
      }
    }

    /** The flush at the end of the trace: everything that arrived has been popped, in order if the disorder was
        bounded, and without filters the output is a permutation of the input. */
    method Flush()
      requires Valid()
      modifies this
      ensures Valid() && queue == [] && arrived == old(arrived) && multiset(popped) == multiset(arrived)
              && output == Selected(f, popped)
      ensures old(InOrderSoFar()) ==> InOrder(output)
      ensures Unfiltered(f) ==> multiset(output) == multiset(arrived)
      ensures PrintsWanted(f, output, arrived)
    {
      ghost var whole := popped + Sort(queue);
      SameSorted(arrived, popped, queue);
      PrintInsts(0);
      assert popped + queue == popped == whole;
      if old(InOrderSoFar()) { SelectedInOrder(f, popped); }
      if Unfiltered(f) { SelectedAll(f, popped); }
      SelectionPrints(f, popped, arrived);
    }
  }

  /** Every instruction is preceded by at most min with a larger sequence number. */
  ghost predicate BoundedDisorder(trace: seq<Inst>, min: nat)
  {
    forall k :: 0 <= k < |trace| ==> AtLeast(trace[..k], trace[k].sn + 1) <= min
  }

  /** The main loop of process_trace over the retired instructions, and the flush that ends it: with bounded disorder
      the output is sorted, without filters it is a permutation of the trace, and with filters every instruction that is
      wanted is printed as often as it has arrived, and no other. */
  method ProcessTrace(trace: seq<Inst>, f: Filter, max: nat, min: nat) returns (output: seq<Inst>)
    requires min <= max
    ensures BoundedDisorder(trace, min) ==> InOrder(output)
    ensures Unfiltered(f) ==> multiset(output) == multiset(trace)
    ensures PrintsWanted(f, output, trace)
  {
    var viewer := new Viewer(f, max, min);
    var k := 0;
    while k < |trace|
      invariant k <= |trace| && fresh(viewer) && viewer.Valid() && viewer.arrived == trace[..k] && viewer.f == f
                && viewer.min == min
      invariant BoundedDisorder(trace, min) ==> viewer.InOrderSoFar()
    {
      viewer.QueueInst(trace[k]);
      k := k + 1;
      assert trace[..k] == trace[..k - 1] + [trace[k - 1]];
    }
    assert trace[..k] == trace;
    viewer.Flush();
    output := viewer.output;
  }
}
