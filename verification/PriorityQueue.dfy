/** `LL_PriorityEnqueue` and `LL_Dequeue` together: a stable priority queue. */
module PriorityQueue {
  import ListLaws
  import opened ListModel
  import opened SortLaws

  datatype QueueOp<N> = Enqueue(cell: Cell<N>) | Dequeue

  // ----- the list -----

  function ListStep<N>(v: View<N>, op: QueueOp<N>, compare: Compare): (r: (View<N>, seq<Ptr>))
    requires v.WellFormed()
    ensures r.0.WellFormed()
  {
    match op
    case Enqueue(cell) => (PriorityEnqueue(v, cell, compare), [])
    case Dequeue => (Shift(v).0, [Shift(v).1])
  }

  /** The list that a run of queue operations ends with, and the data returned,
      one entry for each `Dequeue`. */
  function ListRun<N>(v: View<N>, ops: seq<QueueOp<N>>, compare: Compare): (View<N>, seq<Ptr>)
    requires v.WellFormed()
    decreases |ops|
  {
    if ops == [] then (v, [])
    else
      var (w, out) := ListStep(v, ops[0], compare);
      var (last, outs) := ListRun(w, ops[1..], compare);
      (last, out + outs)
  }

  // ----- the reference: elements waiting in order of arrival -----

  /** The first of the least elements. */
  function FirstLeast<N>(waiting: seq<Cell<N>>, compare: Compare): (k: nat)
    requires waiting != []
    ensures k < |waiting|
  {
    var n := |waiting| - 1;
    if n == 0 then 0
    else
      var k := FirstLeast(waiting[..n], compare);
      if compare(waiting[n].data, waiting[k].data) < 0 then n else k
  }

  function ReferenceStep<N>(waiting: seq<Cell<N>>, op: QueueOp<N>, compare: Compare): (seq<Cell<N>>, seq<Ptr>) {
    match op
    case Enqueue(cell) => (if cell.data == Null then waiting else waiting + [cell], [])
    case Dequeue =>
      if waiting == [] then (waiting, [Null])
      else
        var k := FirstLeast(waiting, compare);
        (RemoveAt(waiting, k), [waiting[k].data])
  }

  function ReferenceRun<N>(waiting: seq<Cell<N>>, ops: seq<QueueOp<N>>, compare: Compare): (seq<Cell<N>>, seq<Ptr>)
    decreases |ops|
  {
    if ops == [] then (waiting, [])
    else
      var (next, out) := ReferenceStep(waiting, ops[0], compare);
      var (last, outs) := ReferenceRun(next, ops[1..], compare);
      (last, out + outs)
  }

  lemma {:induction false} FirstLeastIsFirstLeast<N>(waiting: seq<Cell<N>>, compare: Compare)
    requires waiting != [] && TotalPreorder(compare)
    ensures var k := FirstLeast(waiting, compare);
            && (forall i :: 0 <= i < |waiting| ==> compare(waiting[k].data, waiting[i].data) <= 0)
            && (forall i :: 0 <= i < k ==> compare(waiting[k].data, waiting[i].data) < 0)
  {
    hide TotalPreorder;
    var n := |waiting| - 1;
    if n == 0 {
      Flip(compare, waiting[0].data, waiting[0].data);
    } else {
      var before := waiting[..n];
      FirstLeastIsFirstLeast(before, compare);
      var j, x := FirstLeast(before, compare), waiting[n].data;
      Flip(compare, x, before[j].data);
      Flip(compare, x, x);
      if compare(x, before[j].data) < 0 {
        forall i | 0 <= i < n ensures compare(x, waiting[i].data) < 0 {
          NotGreater(compare, x, before[j].data, before[i].data);
        }
      } else {
        forall i | 0 <= i < n ensures compare(before[j].data, waiting[i].data) <= 0 {
          assert waiting[i] == before[i];
        }
      }
    }
  }

  /** The k-th element is least, and less than all that have come before it. */
  ghost predicate ServedNext<N>(waiting: seq<Cell<N>>, k: nat, compare: Compare) {
    && k < |waiting|
    && (forall i :: 0 <= i < |waiting| ==> compare(waiting[k].data, waiting[i].data) <= 0)
    && (forall i :: 0 <= i < k ==> compare(waiting[k].data, waiting[i].data) < 0)
  }

  /** What the reference does: elements wait in order of arrival, NULL is refused, and
      a dequeue takes out the one to be served next and returns its data. */
  lemma ReferenceServes<N>(waiting: seq<Cell<N>>, cell: Cell<N>, compare: Compare) returns (k: nat)
    requires TotalPreorder(compare)
    ensures cell.data != Null ==> ReferenceStep(waiting, Enqueue(cell), compare) == (waiting + [cell], [])
    ensures cell.data == Null ==> ReferenceStep(waiting, Enqueue(cell), compare) == (waiting, [])
    ensures waiting == [] ==> ReferenceStep(waiting, Dequeue, compare) == (waiting, [Null])
    ensures waiting != [] ==>
              && ServedNext(waiting, k, compare)
              && ReferenceStep(waiting, Dequeue, compare) == (waiting[..k] + waiting[k + 1..], [waiting[k].data])
  {
    k := 0;
    if waiting != [] {
      k := FirstLeast(waiting, compare);
      FirstLeastIsFirstLeast(waiting, compare);
    }
    hide FirstLeast, TotalPreorder;
  }

  // ----- what the list holds for given waiting elements -----

  function Enqueued<N>(items: seq<Cell<N>>, cell: Cell<N>, compare: Compare): seq<Cell<N>> {
    InsertAt(items, PriorityIndex(items, cell.data, compare), cell)
  }

  function InOrder<N>(waiting: seq<Cell<N>>, compare: Compare): seq<Cell<N>> {
    if waiting == [] then []
    else Enqueued(InOrder(waiting[..|waiting| - 1], compare), waiting[|waiting| - 1], compare)
  }

  ghost predicate NoNull<N>(items: seq<Cell<N>>) {
    forall i :: 0 <= i < |items| ==> items[i].data != Null
  }

  lemma InsertAddsOne<T>(s: seq<T>, k: nat, x: T)
    requires k <= |s|
    ensures multiset(InsertAt(s, k, x)) == multiset(s) + multiset{x}
  {
    assert s == s[..k] + s[k..];
  }

  lemma InsertSorted<N>(items: seq<Cell<N>>, k: nat, cell: Cell<N>, compare: Compare)
    requires Sorted(items, compare) && k <= |items|
    requires forall i :: 0 <= i < k ==> compare(items[i].data, cell.data) <= 0
    requires forall i :: k <= i < |items| ==> compare(cell.data, items[i].data) <= 0
    ensures Sorted(InsertAt(items, k, cell), compare)
  {
    hide InsertAt;
    var r := InsertAt(items, k, cell);
    forall i, j | 0 <= i < j < |r| ensures compare(r[i].data, r[j].data) <= 0 {
      if i != k && j != k {
        assert r[i] == items[if i < k then i else i - 1];
        assert r[j] == items[if j < k then j else j - 1];
      }
    }
  }

  /** In a sorted list everything before an item that is not greater is not
      greater either. */
  lemma NotGreaterBefore<N>(items: seq<Cell<N>>, k: nat, x: Ptr, compare: Compare)
    requires TotalPreorder(compare) && Sorted(items, compare) && 0 < k <= |items|
    requires compare(x, items[k - 1].data) >= 0
    ensures forall i :: 0 <= i < k ==> compare(items[i].data, x) <= 0
  {
    Flip(compare, x, items[k - 1].data);
    hide TotalPreorder;
    forall i | 0 <= i < k ensures compare(items[i].data, x) <= 0 {
      if i < k - 1 {
        NotGreater(compare, items[i].data, items[k - 1].data, x);
      }
    }
  }

  /** The place that `LL_PriorityEnqueue` finds keeps a sorted list sorted. */
  lemma PriorityIndexFits<N>(items: seq<Cell<N>>, cell: Cell<N>, compare: Compare)
    requires TotalPreorder(compare) && Sorted(items, compare) && NoNull(items)
    ensures Sorted(Enqueued(items, cell, compare), compare)
  {
    var k := PriorityIndex(items, cell.data, compare);
    hide PriorityIndex, TotalPreorder, InsertAt;
    if k > 0 {
      NotGreaterBefore(items, k, cell.data, compare);
    }
    forall i | k <= i < |items| ensures compare(cell.data, items[i].data) <= 0 {
      BehindPriorityIndex(items, cell.data, compare, i);
    }
    InsertSorted(items, k, cell, compare);
  }

  lemma InsertNoNull<N>(items: seq<Cell<N>>, k: nat, cell: Cell<N>)
    requires NoNull(items) && cell.data != Null && k <= |items|
    ensures NoNull(InsertAt(items, k, cell))
  {
    hide InsertAt;
  }

  lemma EnqueuedSorted<N>(items: seq<Cell<N>>, cell: Cell<N>, compare: Compare)
    requires TotalPreorder(compare) && Sorted(items, compare) && NoNull(items) && cell.data != Null
    ensures var r := Enqueued(items, cell, compare);
            Sorted(r, compare) && NoNull(r) && multiset(r) == multiset(items) + multiset{cell}
  {
    hide TotalPreorder, Sorted, NoNull, PriorityIndex, InsertAt;
    var k := PriorityIndex(items, cell.data, compare);
    PriorityIndexFits(items, cell, compare);
    InsertNoNull(items, k, cell);
    InsertAddsOne(items, k, cell);
  }

  lemma {:induction false} InOrderSorted<N>(waiting: seq<Cell<N>>, compare: Compare)
    requires TotalPreorder(compare) && NoNull(waiting)
    ensures var r := InOrder(waiting, compare);
            Sorted(r, compare) && NoNull(r) && multiset(r) == multiset(waiting)
  {
    if waiting != [] {
      hide TotalPreorder, Sorted, Enqueued;
      var n := |waiting| - 1;
      assert waiting == waiting[..n] + [waiting[n]];
      InOrderSorted(waiting[..n], compare);
      EnqueuedSorted(InOrder(waiting[..n], compare), waiting[n], compare);
    }
  }

  lemma {:induction false} PriorityIndexBehindHead<N>(items: seq<Cell<N>>, x: Ptr, compare: Compare)
    requires items != [] && items[0].data != Null && compare(x, items[0].data) >= 0
    ensures PriorityIndex(items, x, compare) == 1 + PriorityIndex(items[1..], x, compare)
  {
    var n := |items| - 1;
    if n > 0 && !(items[n].data != Null && compare(x, items[n].data) >= 0) {
      PriorityIndexBehindHead(items[..n], x, compare);
      assert items[..n][1..] == items[1..][..n - 1];
    }
  }

  lemma LessThanAll<N>(items: seq<Cell<N>>, cell: Cell<N>, compare: Compare)
    requires TotalPreorder(compare) && items != [] && Sorted(items, compare)
    requires compare(cell.data, items[0].data) < 0
    ensures Enqueued(items, cell, compare) == [cell] + items
  {
    var k := PriorityIndex(items, cell.data, compare);
    hide PriorityIndex, TotalPreorder;
    if k > 1 {
      NotGreater(compare, cell.data, items[0].data, items[k - 1].data);
    }
  }

  lemma NotLessThanHead<N>(items: seq<Cell<N>>, cell: Cell<N>, compare: Compare)
    requires items != [] && items[0].data != Null && compare(cell.data, items[0].data) >= 0
    ensures Enqueued(items, cell, compare) == [items[0]] + Enqueued(items[1..], cell, compare)
  {
    PriorityIndexBehindHead(items, cell.data, compare);
  }

  lemma InOrderLast<N>(waiting: seq<Cell<N>>, cell: Cell<N>, compare: Compare)
    ensures InOrder(waiting + [cell], compare) == Enqueued(InOrder(waiting, compare), cell, compare)
  {
    assert (waiting + [cell])[..|waiting|] == waiting;
  }

  lemma FirstLeastLast<N>(waiting: seq<Cell<N>>, cell: Cell<N>, compare: Compare)
    requires waiting != []
    ensures var k := FirstLeast(waiting, compare);
            FirstLeast(waiting + [cell], compare) ==
            if compare(cell.data, waiting[k].data) < 0 then |waiting| else k
  {
    assert (waiting + [cell])[..|waiting|] == waiting;
  }

  lemma RemoveAtLast<T>(s: seq<T>, x: T, k: nat)
    requires k <= |s|
    ensures RemoveAt(s + [x], k) == if k == |s| then s else RemoveAt(s, k) + [x]
  {
  }

  /** `HeadIsFirstLeast` carried over one more arrival. */
  lemma NewHead<N>(before: seq<Cell<N>>, x: Cell<N>, items: seq<Cell<N>>, k: nat, compare: Compare)
    requires TotalPreorder(compare) && before != [] && k == FirstLeast(before, compare)
    requires items != [] && items == InOrder(before, compare) && Sorted(items, compare) && NoNull(items)
    requires items[0] == before[k] && items[1..] == InOrder(RemoveAt(before, k), compare)
    ensures var waiting := before + [x];
            var j := FirstLeast(waiting, compare); var r := InOrder(waiting, compare);
            r != [] && r[0] == waiting[j] && r[1..] == InOrder(RemoveAt(waiting, j), compare)
  {
    hide TotalPreorder, Sorted, Enqueued, RemoveAt, FirstLeast, InOrder;
    FirstLeastLast(before, x, compare);
    InOrderLast(before, x, compare);
    RemoveAtLast(before, x, FirstLeast(before + [x], compare));
    if compare(x.data, before[k].data) < 0 {
      // x is less than the least: it goes to the front and is served next
      LessThanAll(items, x, compare);
    } else {
      NotLessThanHead(items, x, compare);
      InOrderLast(RemoveAt(before, k), x, compare);
    }
  }

  lemma NothingWaiting<N>(compare: Compare)
    ensures InOrder<N>([], compare) == []
  {
  }

  lemma SingleHead<N>(x: Cell<N>, compare: Compare)
    ensures FirstLeast([x], compare) == 0 && RemoveAt([x], 0) == []
    ensures InOrder([x], compare) == [x]
  {
    assert [x][..0] == [];
  }

  /** The head of the list is the first least waiting element, and the rest of
      the list is what the others would have built without it. */
  lemma {:induction false} HeadIsFirstLeast<N>(waiting: seq<Cell<N>>, compare: Compare)
    requires TotalPreorder(compare) && waiting != [] && NoNull(waiting)
    ensures var k := FirstLeast(waiting, compare); var r := InOrder(waiting, compare);
            r != [] && r[0] == waiting[k] && r[1..] == InOrder(RemoveAt(waiting, k), compare)
  {
    hide TotalPreorder, Sorted, RemoveAt, FirstLeast, InOrder;
    var n := |waiting| - 1;
    var before := waiting[..n];
    if n == 0 {
      SingleHead(waiting[0], compare);
      NothingWaiting<N>(compare);
      assert waiting == [waiting[0]];
    } else {
      HeadIsFirstLeast(before, compare);
      InOrderSorted(before, compare);
      NewHead(before, waiting[n], InOrder(before, compare), FirstLeast(before, compare), compare);
      assert waiting == before + [waiting[n]];
    }
  }

  lemma EnqueueItems<N>(v: View<N>, cell: Cell<N>, compare: Compare)
    requires v.WellFormed() && cell.data != Null
    ensures var w := PriorityEnqueue(v, cell, compare);
            w.WellFormed() && w.Items() == Enqueued(v.Items(), cell, compare)
  {
    InsertInside(v.cells, PriorityIndex(v.Items(), cell.data, compare) + 1, cell);
  }

  /** The list holds the waiting elements, in order. */
  ghost predicate Represents<N>(v: View<N>, waiting: seq<Cell<N>>, compare: Compare) {
    v.WellFormed() && NoNull(waiting) && v.Items() == InOrder(waiting, compare)
  }

  lemma StepRepresents<N>(v: View<N>, waiting: seq<Cell<N>>, op: QueueOp<N>, compare: Compare)
    requires TotalPreorder(compare) && Represents(v, waiting, compare)
    ensures var (w, out) := ListStep(v, op, compare);
            var (left, expected) := ReferenceStep(waiting, op, compare);
            Represents(w, left, compare) && out == expected
  {
    hide FirstLeast, InOrder, Enqueued, TotalPreorder, Shift, RemoveAt;
    match op
    case Enqueue(cell) =>
      if cell.data != Null {
        EnqueueItems(v, cell, compare);
        InOrderLast(waiting, cell, compare);
      }
    case Dequeue =>
      ListLaws.PopItems(v);
      if waiting == [] {
        NothingWaiting<N>(compare);
      } else {
        HeadIsFirstLeast(waiting, compare);
      }
  }

  /** Over every run the list returns what the reference returns: each dequeue a
      least element, and among equal ones the first to have been enqueued. */
  lemma {:induction false} StablePriorityQueue<N>(v: View<N>, waiting: seq<Cell<N>>, ops: seq<QueueOp<N>>,
                                                   compare: Compare)
    requires TotalPreorder(compare) && Represents(v, waiting, compare)
    ensures var (w, outs) := ListRun(v, ops, compare);
            var (left, expected) := ReferenceRun(waiting, ops, compare);
            outs == expected && Represents(w, left, compare) && Sorted(w.Items(), compare)
    decreases |ops|
  {
    if ops == [] {
      InOrderSorted(waiting, compare);
    } else {
      hide TotalPreorder, ListStep, ReferenceStep, Represents, Sorted;
      StepRepresents(v, waiting, ops[0], compare);
      StablePriorityQueue(ListStep(v, ops[0], compare).0, ReferenceStep(waiting, ops[0], compare).0, ops[1..], compare);
    }
  }

  /** The statement for a new list, with nothing waiting. */
  lemma StableFromEmpty<N>(v: View<N>, ops: seq<QueueOp<N>>, compare: Compare)
    requires TotalPreorder(compare) && v.WellFormed() && v.Items() == []
    ensures ListRun(v, ops, compare).1 == ReferenceRun([], ops, compare).1
    ensures ListRun(v, ops, compare).0.WellFormed() && Sorted(ListRun(v, ops, compare).0.Items(), compare)
  {
    hide ListRun, ReferenceRun, Sorted, TotalPreorder;
    StablePriorityQueue(v, [], ops, compare);
  }
}
