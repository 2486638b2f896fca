/** What `LL_Sort` and `LL_PriorityEnqueue` promise when `compare` orders the data. */
module SortLaws {
  import opened ListModel
  import ListLaws

  /** `compare` is a comparison function in the sense of the C library: its sign
      flips when the arguments are exchanged, and "not greater" is transitive. */
  ghost predicate TotalPreorder(compare: Compare) {
    && (forall a, b :: compare(a, b) > 0 <==> compare(b, a) < 0)
    && (forall a, b, c {:trigger compare(a, b), compare(b, c)} ::
          compare(a, b) <= 0 && compare(b, c) <= 0 ==> compare(a, c) <= 0)
  }

  lemma NotGreater(compare: Compare, a: Ptr, b: Ptr, c: Ptr)
    requires TotalPreorder(compare) && compare(a, b) <= 0 && compare(b, c) <= 0
    ensures compare(a, c) <= 0
    ensures compare(a, b) < 0 || compare(b, c) < 0 ==> compare(a, c) < 0
  {
    if compare(c, a) <= 0 {
      assert compare(b, a) <= 0 && compare(c, b) <= 0;
    }
  }

  lemma Flip(compare: Compare, a: Ptr, b: Ptr)
    requires TotalPreorder(compare)
    ensures compare(a, b) > 0 <==> compare(b, a) < 0
    ensures compare(a, b) < 0 <==> compare(b, a) > 0
  {
  }

  ghost predicate Sorted<N>(items: seq<Cell<N>>, compare: Compare) {
    forall i, j :: 0 <= i < j < |items| ==> compare(items[i].data, items[j].data) <= 0
  }

  // ----- selection sort -----

  /** Changing over to a greater item keeps what was not greater not greater. */
  lemma BetterIsGreater<N>(items: seq<Cell<N>>, j: nat, m: nat, best: nat, better: nat, compare: Compare)
    requires TotalPreorder(compare) && j < m < |items| && best <= m
    requires better == if compare(items[j].data, items[best].data) > 0 then j else best
    requires forall k :: 0 <= k < j || k == m ==> compare(items[k].data, items[best].data) <= 0
    ensures forall k :: 0 <= k < j + 1 || k == m ==> compare(items[k].data, items[better].data) <= 0
  {
    Flip(compare, items[best].data, items[better].data);
    Flip(compare, items[better].data, items[better].data);
    forall k | 0 <= k < j + 1 || k == m ensures compare(items[k].data, items[better].data) <= 0 {
      if k != j && better == j {
        NotGreater(compare, items[k].data, items[best].data, items[better].data);
      }
    }
  }

  lemma {:induction false} BestIsGreatest<N>(items: seq<Cell<N>>, j: nat, m: nat, best: nat, compare: Compare)
    requires TotalPreorder(compare) && j <= m < |items| && best <= m
    requires forall k :: 0 <= k < j || k == m ==> compare(items[k].data, items[best].data) <= 0
    ensures var b := BestFrom(items, j, m, best, compare);
            forall k :: 0 <= k <= m ==> compare(items[k].data, items[b].data) <= 0
    decreases m - j
  {
    if j < m {
      hide TotalPreorder;
      var better := if compare(items[j].data, items[best].data) > 0 then j else best;
      BetterIsGreater(items, j, m, best, better, compare);
      BestIsGreatest(items, j + 1, m, better, compare);
    }
  }

  /** What the scan of one round picks is greatest. */
  lemma PickIsGreatest<N>(items: seq<Cell<N>>, m: nat, compare: Compare)
    requires TotalPreorder(compare) && m < |items|
    ensures var b := BestFrom(items, 0, m, m, compare);
            forall k :: 0 <= k <= m ==> compare(items[k].data, items[b].data) <= 0
  {
    Flip(compare, items[m].data, items[m].data);
    hide TotalPreorder;
    BestIsGreatest(items, 0, m, m, compare);
  }

  /** The invariant of the outer loop: the items after the first m+1 are sorted
      and none of them is less than any of the first m+1. */
  ghost predicate SortedAfter<N>(items: seq<Cell<N>>, m: int, compare: Compare) {
    forall i, j :: 0 <= i < j < |items| && m < j ==> compare(items[i].data, items[j].data) <= 0
  }

  lemma SwapKeepsInvariant<N>(items: seq<Cell<N>>, m: nat, b: nat, compare: Compare)
    requires b <= m < |items| && SortedAfter(items, m, compare)
    requires forall k :: 0 <= k <= m ==> compare(items[k].data, items[b].data) <= 0
    ensures SortedAfter(Swapped(items, m, b), m - 1, compare)
  {
    var next := Swapped(items, m, b);
    forall i, j | 0 <= i < j < |items| && m - 1 < j ensures compare(next[i].data, next[j].data) <= 0 {
      assert next[i] == items[if i == b then m else if i == m then b else i];
      assert next[j] == items[if j == m then b else j];
    }
  }

  lemma RoundKeepsInvariant<N>(items: seq<Cell<N>>, m: nat, compare: Compare)
    requires TotalPreorder(compare) && 0 < m < |items| && SortedAfter(items, m, compare)
    ensures SortedAfter(Swapped(items, m, BestFrom(items, 0, m, m, compare)), m - 1, compare)
  {
    hide TotalPreorder, SortedAfter, Swapped, BestFrom;
    PickIsGreatest(items, m, compare);
    SwapKeepsInvariant(items, m, BestFrom(items, 0, m, m, compare), compare);
  }

  lemma NothingLeft<N>(items: seq<Cell<N>>, compare: Compare)
    requires SortedAfter(items, 0, compare)
    ensures Sorted(items, compare)
  {
  }

  lemma {:induction false} SelectionSorts<N>(items: seq<Cell<N>>, m: nat, compare: Compare)
    requires TotalPreorder(compare) && m < |items| && SortedAfter(items, m, compare)
    ensures Sorted(SelectionSort(items, m, compare), compare)
    decreases m
  {
    hide TotalPreorder, SortedAfter, Sorted, Swapped, BestFrom;
    if m == 0 {
      NothingLeft(items, compare);
    } else {
      RoundKeepsInvariant(items, m, compare);
      SelectionSorts(Swapped(items, m, BestFrom(items, 0, m, m, compare)), m - 1, compare);
    }
  }

  lemma {:induction false} SelectionPermutes<N>(items: seq<Cell<N>>, m: nat, compare: Compare)
    requires m < |items|
    ensures multiset(SelectionSort(items, m, compare)) == multiset(items)
    decreases m
  {
    if m > 0 {
      hide Swapped, BestFrom;
      var b := BestFrom(items, 0, m, m, compare);
      ListLaws.SwapPermutes(items, m, b);
      SelectionPermutes(Swapped(items, m, b), m - 1, compare);
    }
  }

  /** `LL_Sort` keeps every node with its own data, whatever `compare` answers,
      and puts them in order when `compare` is an order. */
  lemma SortSorts<N>(v: View<N>, compare: Compare)
    requires v.WellFormed()
    ensures var w := Sort(v, compare);
            && w.WellFormed()
            && multiset(w.Items()) == multiset(v.Items())
            && w.cells[0] == v.cells[0] && w.cells[w.Tail()] == v.cells[v.Tail()]
            && w.pos == 1
            && (TotalPreorder(compare) ==> Sorted(w.Items(), compare))
  {
    hide TotalPreorder, Sorted, SelectionSort, ListModel.Sort;
    SortItems(v, compare);
    if |v.Items()| < 2 {
      FewSorted(v.Items(), compare);
    } else {
      AllSelected(v.Items(), compare);
    }
  }

  lemma FewSorted<N>(items: seq<Cell<N>>, compare: Compare)
    requires |items| < 2
    ensures Sorted(items, compare)
  {
  }

  lemma NothingSorted<N>(items: seq<Cell<N>>, compare: Compare)
    ensures SortedAfter(items, |items| - 1, compare)
  {
  }

  lemma AllSelected<N>(items: seq<Cell<N>>, compare: Compare)
    requires items != []
    ensures var sorted := SelectionSort(items, |items| - 1, compare);
            multiset(sorted) == multiset(items) && (TotalPreorder(compare) ==> Sorted(sorted, compare))
  {
    hide TotalPreorder, Sorted, SortedAfter, SelectionSort;
    SelectionPermutes(items, |items| - 1, compare);
    NothingSorted(items, compare);
    if TotalPreorder(compare) {
      SelectionSorts(items, |items| - 1, compare);
    }
  }

  lemma SortItems<N>(v: View<N>, compare: Compare)
    requires v.WellFormed()
    ensures var w := Sort(v, compare); var n := |v.Items()|;
            && w.WellFormed() && |w.cells| == |v.cells|
            && w.cells[0] == v.cells[0] && w.cells[w.Tail()] == v.cells[v.Tail()]
            && w.Items() == (if n < 2 then v.Items() else SelectionSort(v.Items(), n - 1, compare))
            && w.pos == 1
  {
    hide SelectionSort;
  }
}
