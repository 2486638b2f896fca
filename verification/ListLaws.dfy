/** Laws of the cursor list: what runs of its operations amount to. */
module ListLaws {
  import opened ListModel

  datatype Op<N> =
    | DoRewind | DoEnd | DoNext | DoPrev
    | DoPut(data: Ptr) | DoAdd(cell: Cell<N>) | DoInsert(cell: Cell<N>) | DoDelete
    | DoPush(cell: Cell<N>) | DoPop | DoShift | DoUnshift(cell: Cell<N>)
    | DoRoll | DoUnRoll
    | DoRemove(data: Ptr) | DoFind(compare: Compare, value: Ptr)
    | DoPriorityEnqueue(cell: Cell<N>, compare: Compare) | DoSort(compare: Compare)

  /** The list after one operation, and the data it returned (NULL for the
      operations that return a status). */
  function Step<N>(v: View<N>, op: Op<N>): (View<N>, Ptr)
    requires v.WellFormed()
  {
    match op
    case DoRewind => (Rewind(v), Null)
    case DoEnd => (End(v), Null)
    case DoNext => (Next(v).0, Null)
    case DoPrev => (Prev(v).0, Null)
    case DoPut(data) => (Put(v, data).0, Null)
    case DoAdd(cell) => (if v.pos == -1 then v else Add(v, cell), Null)
    case DoInsert(cell) => (if v.pos == -1 || cell.data == Null then v else Insert(v, cell), Null)
    case DoDelete => Delete(v)
    case DoPush(cell) => (Push(v, cell), Null)
    case DoPop => Pop(v)
    case DoShift => Shift(v)
    case DoUnshift(cell) => (Unshift(v, cell), Null)
    case DoRoll => (Roll(v), Null)
    case DoUnRoll => (UnRoll(v), Null)
    case DoRemove(data) => Remove(v, data)
    case DoFind(compare, value) => Find(v, compare, value)
    case DoPriorityEnqueue(cell, compare) => (PriorityEnqueue(v, cell, compare), Null)
    case DoSort(compare) => (Sort(v, compare), Null)
  }

  // ----- well-formedness over every run -----

  lemma {:induction false} FindKeepsCells<N>(v: View<N>, compare: Compare, value: Ptr)
    requires v.WellFormed()
    ensures var w := FindFrom(v, compare, value).0; w.WellFormed() && w.cells == v.cells
    decreases if v.pos == -1 then 0 else |v.cells| - v.pos
  {
    var (w, moved) := Next(v);
    if compare(Get(v), value) != 0 && moved == 0 {
      FindKeepsCells(w, compare, value);
    }
  }

  ghost predicate SameEnds<N>(v: View<N>, w: View<N>)
    requires v.WellFormed()
  {
    w.WellFormed() && w.cells[0].node == v.cells[0].node && w.cells[w.Tail()].node == v.cells[v.Tail()].node
  }

  lemma DeleteEnds<N>(v: View<N>)
    requires v.WellFormed()
    ensures SameEnds(v, Delete(v).0) && (v.pos >= 0 ==> Delete(v).0.pos >= 0)
  {
    if v.AtItem() {
      RemoveInside(v.cells, v.pos);
    }
  }

  lemma RemoveEndsKept<N>(v: View<N>, data: Ptr)
    requires v.WellFormed()
    ensures SameEnds(v, Remove(v, data).0) && Remove(v, data).0.pos >= 0
  {
    var k := FirstHolding(v.Items(), data);
    hide FirstHolding;
    if k < |v.Items()| {
      RemoveInside(v.cells, k + 1);
    }
  }

  lemma RotationEnds<N>(v: View<N>)
    requires v.WellFormed()
    ensures SameEnds(v, Roll(v)) && Roll(v).pos >= 0
    ensures SameEnds(v, UnRoll(v)) && UnRoll(v).pos >= 0
  {
  }

  lemma SortEnds<N>(v: View<N>, compare: Compare)
    requires v.WellFormed()
    ensures SameEnds(v, Sort(v, compare)) && Sort(v, compare).pos >= 0
  {
    hide SelectionSort;
  }

  lemma PriorityEnqueueEnds<N>(v: View<N>, cell: Cell<N>, compare: Compare)
    requires v.WellFormed()
    ensures SameEnds(v, PriorityEnqueue(v, cell, compare))
    ensures v.pos >= 0 ==> PriorityEnqueue(v, cell, compare).pos >= 0
  {
    hide PriorityIndex, InsertAt;
    InsertInside(v.cells, PriorityIndex(v.Items(), cell.data, compare) + 1, cell);
  }

  lemma AddEnds<N>(v: View<N>, cell: Cell<N>)
    requires v.WellFormed() && v.pos >= 0
    ensures SameEnds(v, Add(v, cell)) && Add(v, cell).pos >= 0
  {
    hide InsertAt;
    InsertInside(v.cells, Add(v, cell).pos, cell);
  }

  lemma InsertEnds<N>(v: View<N>, cell: Cell<N>)
    requires v.WellFormed() && v.pos >= 0
    ensures SameEnds(v, Insert(v, cell)) && Insert(v, cell).pos >= 0
  {
    hide InsertAt;
    InsertInside(v.cells, Insert(v, cell).pos, cell);
  }

  lemma MoveEnds<N>(v: View<N>)
    requires v.WellFormed()
    ensures SameEnds(v, Rewind(v)) && Rewind(v).pos >= 0
    ensures SameEnds(v, End(v)) && End(v).pos >= 0
    ensures SameEnds(v, Next(v).0) && SameEnds(v, Prev(v).0)
    ensures v.pos >= 0 ==> (Next(v).0.pos == -1 <==> v.pos == v.Tail())
    ensures v.pos >= 0 ==> (Prev(v).0.pos == -1 <==> v.pos == 0)
  {
  }

  lemma PutEnds<N>(v: View<N>, data: Ptr)
    requires v.WellFormed()
    ensures SameEnds(v, Put(v, data).0) && Put(v, data).0.pos == v.pos
  {
  }

  lemma SameEndsAcross<N>(v: View<N>, m: View<N>, w: View<N>)
    requires v.WellFormed() && SameEnds(v, m) && SameEnds(m, w)
    ensures SameEnds(v, w)
  {
  }

  lemma PushEnds<N>(v: View<N>, cell: Cell<N>)
    requires v.WellFormed()
    ensures SameEnds(v, Push(v, cell)) && (v.pos >= 0 ==> Push(v, cell).pos >= 0)
    ensures SameEnds(v, Unshift(v, cell)) && (v.pos >= 0 ==> Unshift(v, cell).pos >= 0)
  {
    MoveEnds(v);
    AddEnds(End(v), cell);
    InsertEnds(Rewind(v), cell);
    hide Add, Insert, End, Rewind;
    SameEndsAcross(v, End(v), Add(End(v), cell));
    SameEndsAcross(v, Rewind(v), Insert(Rewind(v), cell));
  }

  lemma PopEnds<N>(v: View<N>)
    requires v.WellFormed()
    ensures SameEnds(v, Pop(v).0) && Pop(v).0.pos >= 0
    ensures SameEnds(v, Shift(v).0) && Shift(v).0.pos >= 0
  {
    MoveEnds(v);
    DeleteEnds(End(v));
    DeleteEnds(Rewind(v));
    hide Delete, End, Rewind;
    SameEndsAcross(v, End(v), Delete(End(v)).0);
    SameEndsAcross(v, Rewind(v), Delete(Rewind(v)).0);
  }

  lemma FindEnds<N>(v: View<N>, compare: Compare, value: Ptr)
    requires v.WellFormed()
    ensures SameEnds(v, Find(v, compare, value).0)
    ensures v.pos >= 0 && Find(v, compare, value).0.pos == -1 <==>
            v.pos == v.Tail() && value != Null && compare(Get(v), value) != 0
  {
    FindKeepsCells(v, compare, value);
    if v.pos == v.Tail() {
      FindPastTail(v, compare, value);
    } else if v.pos >= 0 {
      FindStaysInside(v, compare, value);
    }
  }

  lemma FindPastTail<N>(v: View<N>, compare: Compare, value: Ptr)
    requires v.WellFormed() && v.pos == v.Tail()
    ensures FindFrom(v, compare, value).0.pos == -1 <==> compare(Get(v), value) != 0
  {
    var w := Next(v).0;
    assert FindFrom(w, compare, value).0.pos == -1;
  }

  lemma {:induction false} FindStaysInside<N>(v: View<N>, compare: Compare, value: Ptr)
    requires v.WellFormed() && -1 < v.pos < v.Tail()
    ensures -1 < FindFrom(v, compare, value).0.pos < v.Tail()
    decreases |v.cells| - v.pos
  {
    var (w, moved) := Next(v);
    if compare(Get(v), value) != 0 && moved == 0 {
      FindStaysInside(w, compare, value);
    }
  }

  /** A step off a sentinel: by `LL_Next` or a search that goes on from the tail,
      or by `LL_Prev` from the head. */
  predicate StepsOff<N>(v: View<N>, op: Op<N>)
    requires v.WellFormed()
  {
    || (op.DoPrev? && v.pos == 0)
    || (op.DoNext? && v.pos == v.Tail())
    || (op.DoFind? && v.pos == v.Tail() && op.value != Null && op.compare(Get(v), op.value) != 0)
  }

  /** What one operation keeps of the sentinels, and what it does to the cursor. */
  lemma StepEnds<N>(v: View<N>, op: Op<N>)
    requires v.WellFormed()
    ensures SameEnds(v, Step(v, op).0)
    ensures v.pos >= 0 ==> (Step(v, op).0.pos == -1 <==> StepsOff(v, op))
  {
    hide Rewind, End, Next, Prev, Get, Put, Roll, UnRoll, Sort, Remove, Find, PriorityEnqueue;
    hide Delete, Add, Insert, Push, Unshift, Pop, Shift, SameEnds;
    SameEndsRefl(v);
    match op
    case DoRewind => MoveEnds(v);
    case DoEnd => MoveEnds(v);
    case DoNext => MoveEnds(v);
    case DoPrev => MoveEnds(v);
    case DoPut(data) => PutEnds(v, data);
    case DoAdd(cell) => if v.pos != -1 { AddEnds(v, cell); }
    case DoInsert(cell) => if v.pos != -1 { InsertEnds(v, cell); }
    case DoDelete => DeleteEnds(v);
    case DoPush(cell) => PushEnds(v, cell);
    case DoUnshift(cell) => PushEnds(v, cell);
    case DoPop => PopEnds(v);
    case DoShift => PopEnds(v);
    case DoRoll => RotationEnds(v);
    case DoUnRoll => RotationEnds(v);
    case DoRemove(data) => RemoveEndsKept(v, data);
    case DoFind(compare, value) => FindEnds(v, compare, value);
    case DoPriorityEnqueue(cell, compare) => PriorityEnqueueEnds(v, cell, compare);
    case DoSort(compare) => SortEnds(v, compare);
  }

  lemma SameEndsRefl<N>(v: View<N>)
    requires v.WellFormed()
    ensures SameEnds(v, v)
  {
  }

  /** Both sentinels stay at the ends and the cursor stays on a cell or is NULL. */
  lemma StepWellFormed<N>(v: View<N>, op: Op<N>)
    requires v.WellFormed()
    ensures SameEnds(v, Step(v, op).0)
  {
    hide Step, StepsOff;
    StepEnds(v, op);
  }

  /** An operation makes the cursor NULL exactly when it steps off a sentinel. */
  lemma NullCursor<N>(v: View<N>, op: Op<N>)
    requires v.WellFormed() && v.pos != -1
    ensures Step(v, op).0.pos == -1 <==> StepsOff(v, op)
  {
    hide Step, StepsOff, SameEnds;
    StepEnds(v, op);
  }

  function Run<N>(v: View<N>, ops: seq<Op<N>>): (r: (View<N>, seq<Ptr>))
    requires v.WellFormed()
    ensures r.0.WellFormed() && |r.1| == |ops|
    decreases |ops|
  {
    if ops == [] then (v, [])
    else
      StepWellFormed(v, ops[0]);
      var (w, data) := Step(v, ops[0]);
      var (last, datas) := Run(w, ops[1..]);
      (last, [data] + datas)
  }

  /** Well-formedness and the sentinels survive every run. */
  lemma {:induction false} RunKeepsEnds<N>(v: View<N>, ops: seq<Op<N>>)
    requires v.WellFormed()
    ensures SameEnds(v, Run(v, ops).0)
    decreases |ops|
  {
    if ops != [] {
      StepWellFormed(v, ops[0]);
      RunKeepsEnds(Step(v, ops[0]).0, ops[1..]);
    }
  }

  // ----- the deque -----

  predicate IsDequeOp<N>(op: Op<N>) {
    || op.DoPush? || op.DoPop? || op.DoShift? || op.DoUnshift? || op.DoRoll? || op.DoUnRoll?
    || op.DoRewind? || op.DoEnd? || op.DoNext? || op.DoPrev?
  }

  /** A double-ended queue with neither cursor nor sentinels; NULL is refused. */
  function DequeStep<N>(items: seq<Cell<N>>, op: Op<N>): (seq<Cell<N>>, Ptr) {
    var n := |items|;
    match op
    case DoPush(cell) => (if cell.data == Null then items else items + [cell], Null)
    case DoUnshift(cell) => (if cell.data == Null then items else [cell] + items, Null)
    case DoPop => if n == 0 then (items, Null) else (items[..n - 1], items[n - 1].data)
    case DoShift => if n == 0 then (items, Null) else (items[1..], items[0].data)
    case DoRoll => (if n == 0 then items else [items[n - 1]] + items[..n - 1], Null)
    case DoUnRoll => (if n == 0 then items else items[1..] + [items[0]], Null)
    case _ => (items, Null)
  }

  function DequeRun<N>(items: seq<Cell<N>>, ops: seq<Op<N>>): (seq<Cell<N>>, seq<Ptr>)
    decreases |ops|
  {
    if ops == [] then (items, [])
    else
      var (next, data) := DequeStep(items, ops[0]);
      var (last, datas) := DequeRun(next, ops[1..]);
      (last, [data] + datas)
  }

  lemma PushItems<N>(v: View<N>, cell: Cell<N>)
    requires v.WellFormed()
    ensures Push(v, cell).WellFormed() && Push(v, cell).Items() == DequeStep(v.Items(), DoPush(cell)).0
  {
    if cell.data != Null {
      InsertInside(v.cells, |v.cells| - 1, cell);
      assert InsertAt(v.Items(), |v.Items()|, cell) == v.Items() + [cell];
    }
  }

  lemma UnshiftItems<N>(v: View<N>, cell: Cell<N>)
    requires v.WellFormed()
    ensures Unshift(v, cell).WellFormed() && Unshift(v, cell).Items() == DequeStep(v.Items(), DoUnshift(cell)).0
  {
    if cell.data != Null {
      InsertInside(v.cells, 1, cell);
      assert InsertAt(v.Items(), 0, cell) == [cell] + v.Items();
    }
  }

  lemma RemoveEnds<T>(s: seq<T>)
    requires s != []
    ensures RemoveAt(s, |s| - 1) == s[..|s| - 1]
    ensures RemoveAt(s, 0) == s[1..]
  {
  }

  lemma PopItems<N>(v: View<N>)
    requires v.WellFormed()
    ensures Pop(v).0.WellFormed() && (Pop(v).0.Items(), Pop(v).1) == DequeStep(v.Items(), DoPop)
    ensures Shift(v).0.WellFormed() && (Shift(v).0.Items(), Shift(v).1) == DequeStep(v.Items(), DoShift)
  {
    hide RemoveAt;
    var items, n := v.Items(), |v.Items()|;
    if n != 0 {
      RemoveInside(v.cells, n);
      RemoveInside(v.cells, 1);
      RemoveEnds(items);
    }
  }

  lemma RollItems<N>(v: View<N>)
    requires v.WellFormed()
    ensures Roll(v).WellFormed() && Roll(v).Items() == DequeStep(v.Items(), DoRoll).0
  {
    var n := |v.Items()|;
    if n >= 2 {
      assert Roll(v).Items() == [v.cells[n]] + v.cells[1..n];
      assert v.cells[1..n] == v.Items()[..n - 1];
    }
  }

  lemma UnRollItems<N>(v: View<N>)
    requires v.WellFormed()
    ensures UnRoll(v).WellFormed() && UnRoll(v).Items() == DequeStep(v.Items(), DoUnRoll).0
  {
    var n := |v.Items()|;
    if n >= 2 {
      assert UnRoll(v).Items() == v.cells[2..n + 1] + [v.cells[1]];
      assert v.cells[2..n + 1] == v.Items()[1..];
    }
  }

  lemma StepIsDequeStep<N>(v: View<N>, op: Op<N>)
    requires v.WellFormed() && IsDequeOp(op)
    ensures Step(v, op).0.WellFormed()
    ensures (Step(v, op).0.Items(), Step(v, op).1) == DequeStep(v.Items(), op)
  {
    hide Roll, UnRoll, Pop, Shift, Push, Unshift;
    match op
    case DoPush(cell) => PushItems(v, cell);
    case DoUnshift(cell) => UnshiftItems(v, cell);
    case DoPop => PopItems(v);
    case DoShift => PopItems(v);
    case DoRoll => RollItems(v);
    case DoUnRoll => UnRollItems(v);
    case DoRewind =>
    case DoEnd =>
    case DoNext =>
    case DoPrev =>
  }

  /** Whatever the cursor and the sentinels hold, and however the cursor is moved
      in between, the list is a deque. */
  lemma {:induction false} RunIsDeque<N>(v: View<N>, ops: seq<Op<N>>)
    requires v.WellFormed() && forall i :: 0 <= i < |ops| ==> IsDequeOp(ops[i])
    ensures (Run(v, ops).0.Items(), Run(v, ops).1) == DequeRun(v.Items(), ops)
    decreases |ops|
  {
    if ops != [] {
      StepIsDequeStep(v, ops[0]);
      RunIsDeque(Step(v, ops[0]).0, ops[1..]);
    }
  }

  // ----- removal and search -----

  /** `LL_Remove` takes out the first item holding `data`, and only that one. */
  lemma RemoveDropsFirst<N>(v: View<N>, data: Ptr, k: nat)
    requires v.WellFormed() && k < |v.Items()| && v.Items()[k].data == data
    requires forall i :: 0 <= i < k ==> v.Items()[i].data != data
    ensures var (w, removed) := Remove(v, data);
            w.WellFormed() && w.Items() == v.Items()[..k] + v.Items()[k + 1..] && removed == data
  {
    assert FirstHolding(v.Items(), data) == k;
    hide FirstHolding;
    RemoveInside(v.cells, k + 1);
  }

  lemma RemoveAbsent<N>(v: View<N>, data: Ptr)
    requires v.WellFormed() && forall i :: 0 <= i < |v.Items()| ==> v.Items()[i].data != data
    ensures Remove(v, data).0.cells == v.cells && Remove(v, data).1 == Null
  {
    assert FirstHolding(v.Items(), data) == |v.Items()|;
  }

  /** From an item or the head sentinel, whose own data is looked at first,
      `LL_Find` returns the first match at or after the cursor and stays there;
      without one it stops on the last item, or on the head of an empty list. */
  lemma {:induction false} FindFirstMatch<N>(v: View<N>, compare: Compare, value: Ptr)
    requires v.WellFormed() && 0 <= v.pos < v.Tail() && value != Null
    ensures var (w, data) := Find(v, compare, value);
            && w.cells == v.cells && v.pos <= w.pos < v.Tail()
            && (forall i :: v.pos <= i < w.pos ==> compare(v.cells[i].data, value) != 0)
            && if compare(v.cells[w.pos].data, value) == 0 then data == v.cells[w.pos].data
               else w.pos == v.Tail() - 1 && data == Null
    decreases |v.cells| - v.pos
  {
    var (w, moved) := Next(v);
    if compare(Get(v), value) != 0 && moved == 0 {
      FindFirstMatch(w, compare, value);
    }
  }

  /** From the tail sentinel only its own data is looked at: a match is returned,
      and without one the cursor becomes NULL. From a NULL cursor nothing is found
      and nothing moves. */
  lemma FindBehindItems<N>(v: View<N>, compare: Compare, value: Ptr)
    requires v.WellFormed() && (v.pos == v.Tail() || v.pos == -1) && value != Null
    ensures v.pos != -1 && compare(Get(v), value) == 0 ==> Find(v, compare, value) == (v, Get(v))
    ensures v.pos == -1 || compare(Get(v), value) != 0 ==> Find(v, compare, value) == (v.(pos := -1), Null)
  {
    var w := v.(pos := -1);
    assert FindFrom(w, compare, value) == (w, Null);
  }

  // ----- rotation -----

  function RollTimes<N>(v: View<N>, times: nat): (r: View<N>)
    requires v.WellFormed()
    ensures r.WellFormed()
  {
    if times == 0 then v else Roll(RollTimes(v, times - 1))
  }

  lemma RollUnRoll<N>(v: View<N>)
    requires v.WellFormed()
    ensures Roll(v).WellFormed() && UnRoll(v).WellFormed()
    ensures UnRoll(Roll(v)).cells == v.cells
    ensures Roll(UnRoll(v)).cells == v.cells
  {
  }

  /** One more roll of a list that has been rotated to start with item k+1. */
  lemma RotateOnce<T>(s: seq<T>, k: nat)
    requires k < |s|
    ensures var t := s[k + 1..] + s[..k + 1];
            |t| == |s| && [t[|s| - 1]] + t[..|s| - 1] == s[k..] + s[..k]
  {
    var t := s[k + 1..] + s[..k + 1];
    assert t[|s| - 1] == s[k];
    assert t[..|s| - 1] == s[k + 1..] + s[..k];
    assert s[k..] == [s[k]] + s[k + 1..];
  }

  lemma NotRotated<T>(s: seq<T>)
    ensures s[|s|..] + s[..|s|] == s
  {
  }

  lemma {:induction false} RollTimesRotates<N>(v: View<N>, times: nat)
    requires v.WellFormed() && times <= |v.Items()|
    ensures var items := v.Items(); var k := |items| - times;
            RollTimes(v, times).Items() == items[k..] + items[..k]
  {
    hide Roll;
    var items := v.Items();
    var k := |items| - times;
    if times == 0 {
      NotRotated(items);
    } else {
      RollTimesRotates(v, times - 1);
      var before := RollTimes(v, times - 1);
      RollItems(before);
      RotateOnce(items, k);
    }
  }

  /** Rolling an n-item list n times changes nothing, for n = 0 and n = 1 too. */
  lemma FullTurn<N>(v: View<N>)
    requires v.WellFormed()
    ensures RollTimes(v, |v.Items()|).Items() == v.Items()
  {
    RollTimesRotates(v, |v.Items()|);
    var items := v.Items();
    assert items[0..] + items[..0] == items;
  }

  // ----- swapping -----

  /** Exactly the two positions are exchanged, and swapping again undoes it. */
  lemma SwapExchanges<N>(v: View<N>, i: nat, j: nat)
    requires v.WellFormed() && 0 < i < v.Tail() && 0 < j < v.Tail()
    ensures var w := Swap(v, i, j);
            && w.WellFormed() && |w.cells| == |v.cells|
            && w.cells[i] == v.cells[j] && w.cells[j] == v.cells[i]
            && (forall k :: 0 <= k < |v.cells| && k != i && k != j ==> w.cells[k] == v.cells[k])
            && (v.pos >= 0 ==> w.cells[w.pos] == v.cells[v.pos])
            && multiset(w.cells) == multiset(v.cells)
            && Swap(w, i, j) == v
  {
    var w := Swap(v, i, j);
    assert Swap(w, i, j).cells == v.cells;
    SwapPermutes(v.cells, i, j);
  }

  lemma SwapPermutes<T>(s: seq<T>, i: nat, j: nat)
    requires i < |s| && j < |s|
    ensures multiset(Swapped(s, i, j)) == multiset(s)
  {
    var t := s[i := s[j]];
    assert multiset(t) == multiset(s) - multiset{s[i]} + multiset{s[j]};
  }

  // ----- where cells and cursor end up -----

  /** Writing changes the data under the cursor, in a sentinel too, and nothing else;
      reading gives it back. */
  lemma PutWrites<N>(v: View<N>, data: Ptr)
    requires v.WellFormed()
    ensures var (w, ret) := Put(v, data);
            && w.WellFormed() && |w.cells| == |v.cells| && w.pos == v.pos
            && Get(w) == (if v.pos == -1 then Null else data)
            && (ret == -1 <==> v.pos == -1) && (ret == 0 || ret == -1)
            && forall i :: 0 <= i < |v.cells| ==>
                 w.cells[i].node == v.cells[i].node && (i != v.pos ==> w.cells[i].data == v.cells[i].data)
  {
  }

  /** The cell stands at place k, and all others as before around it. */
  ghost predicate StandsAt<N>(v: View<N>, w: View<N>, k: int, cell: Cell<N>) {
    && |w.cells| == |v.cells| + 1 && 0 <= k < |w.cells| && w.cells[k] == cell
    && (forall i :: 0 <= i < k ==> w.cells[i] == v.cells[i])
    && (forall i :: k <= i < |v.cells| ==> w.cells[i + 1] == v.cells[i])
  }

  /** A node is added right behind the cursor, or behind the last item when that is on
      the tail; it is inserted right before the cursor, or before the first item when
      that is on the head. It gets the cursor. */
  lemma AddedWhere<N>(v: View<N>, cell: Cell<N>)
    requires v.WellFormed() && v.pos != -1
    ensures var w := Add(v, cell);
            StandsAt(v, w, w.pos, cell) && w.pos == if v.pos == v.Tail() then v.Tail() else v.pos + 1
    ensures var w := Insert(v, cell); StandsAt(v, w, w.pos, cell) && w.pos == if v.pos == 0 then 1 else v.pos
  {
    hide InsertAt;
  }

  /** An item under the cursor is deleted and the cursor is on the cell that stood
      behind it; on a sentinel or without a cursor nothing is deleted. */
  lemma DeletedWhere<N>(v: View<N>)
    requires v.WellFormed()
    ensures var (w, data) := Delete(v);
            if 0 < v.pos < |v.cells| - 1
            then StandsAt(w, v, v.pos, v.cells[v.pos]) && w.pos == v.pos && data == v.cells[v.pos].data
            else w == v && data == Null
  {
    hide RemoveAt;
  }

  /** What the operations on the ends do to the items, and where they leave the
      cursor: on a new item, on the tail behind a popped one, and on the first cell
      behind a shifted one. */
  lemma EndsWhere<N>(v: View<N>, cell: Cell<N>)
    requires v.WellFormed() && cell.data != Null
    ensures var w := Push(v, cell); w.WellFormed() && w.Items() == v.Items() + [cell] && w.pos == |v.Items()| + 1
    ensures var w := Unshift(v, cell); w.WellFormed() && w.Items() == [cell] + v.Items() && w.pos == 1
    ensures var (w, data) := Pop(v); var items := v.Items(); var n := |items|;
            && w.WellFormed()
            && if n == 0 then w.Items() == [] && data == Null && w.pos == 1
               else w.Items() == items[..n - 1] && data == items[n - 1].data && w.pos == n
    ensures var (w, data) := Shift(v); var items := v.Items();
            && w.WellFormed()
            && if items == [] then w.Items() == [] && data == Null && w.pos == 0
               else w.Items() == items[1..] && data == items[0].data && w.pos == 1
  {
    PushItems(v, cell);
    UnshiftItems(v, cell);
    PopItems(v);
    hide InsertAt, RemoveAt;
  }

  /** Rotating leaves the cursor on the item that was at the end it took from: the
      old first item when rolling, the old last one when unrolling. */
  lemma RotatedWhere<N>(v: View<N>)
    requires v.WellFormed()
    ensures var n, w := |v.Items()|, Roll(v);
            w.WellFormed() && if n < 2 then w == v.(pos := n) else w.cells[w.pos] == v.cells[1] && w.pos == 2
    ensures var n, w := |v.Items()|, UnRoll(v);
            w.WellFormed() && if n < 2 then w == v.(pos := 1) else w.cells[w.pos] == v.cells[n] && w.pos == n - 1
  {
  }

  /** Removing leaves the cursor on the cell behind the removed item, or on the last
      item, or on the head of an empty list, when nothing is removed. */
  lemma RemovedWhere<N>(v: View<N>, data: Ptr)
    requires v.WellFormed()
    ensures var (w, removed) := Remove(v, data); var items := v.Items();
            && (forall k :: 0 <= k < |items| && items[k].data == data
                            && (forall i :: 0 <= i < k ==> items[i].data != data) ==>
                  w.pos == k + 1 && removed == data)
            && ((forall k :: 0 <= k < |items| ==> items[k].data != data) ==> w.pos == |items| && removed == Null)
  {
    var items := v.Items();
    var first := FirstHolding(items, data);
    hide FirstHolding, RemoveAt;
    forall k | 0 <= k < |items| && items[k].data == data && (forall i :: 0 <= i < k ==> items[i].data != data)
      ensures first == k
    {
      assert !(first < k) && !(k < first);
    }
  }
}
