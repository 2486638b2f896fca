/** When `LL_Sort` keeps equal items in the order in which it found them. Items
    are numbered by their input position, which the sort carries along. */
module SortStability {
  import opened ListModel
  import opened SortLaws

  // ----- following items through the sort -----

  /** Each item's data with its input position for a node. */
  function Numbered<N>(items: seq<Cell<N>>): (s: seq<Cell<nat>>)
    ensures |s| == |items|
  {
    seq(|items|, i requires 0 <= i < |items| => Cell(i, items[i].data))
  }

  /** Which input position each place of the sorted list comes from. */
  function NumberedSort<N>(items: seq<Cell<N>>, compare: Compare): seq<Cell<nat>> {
    if items == [] then [] else SelectionSort(Numbered(items), |items| - 1, compare)
  }

  /** `s` holds items of `items`, each with its input position. */
  ghost predicate Traces<N>(items: seq<Cell<N>>, s: seq<Cell<nat>>) {
    forall k :: 0 <= k < |s| ==> s[k].node < |items| && s[k].data == items[s[k].node].data
  }

  function Image<N>(items: seq<Cell<N>>, s: seq<Cell<nat>>): (r: seq<Cell<N>>)
    requires Traces(items, s)
    ensures |r| == |s|
  {
    seq(|s|, k requires 0 <= k < |s| => items[s[k].node])
  }

  lemma {:induction false} BestByData<M, N>(a: seq<Cell<M>>, b: seq<Cell<N>>,
                                                j: nat, m: nat, best: nat, compare: Compare)
    requires |a| == |b| && j <= m < |a| && best <= m
    requires forall k :: 0 <= k < |a| ==> a[k].data == b[k].data
    ensures BestFrom(a, j, m, best, compare) == BestFrom(b, j, m, best, compare)
    decreases m - j
  {
    if j < m {
      BestByData(a, b, j + 1, m, if compare(a[j].data, a[best].data) > 0 then j else best, compare);
    }
  }

  lemma SwapTraces<N>(items: seq<Cell<N>>, s: seq<Cell<nat>>, m: nat, b: nat)
    requires Traces(items, s) && b <= m < |s|
    ensures Traces(items, Swapped(s, m, b))
    ensures Swapped(Image(items, s), m, b) == Image(items, Swapped(s, m, b))
  {
  }

  /** The numbers do not influence the sort. */
  lemma {:induction false} SelectionTraces<N>(items: seq<Cell<N>>, s: seq<Cell<nat>>, m: nat, compare: Compare)
    requires Traces(items, s) && m < |s|
    ensures Traces(items, SelectionSort(s, m, compare))
    ensures SelectionSort(Image(items, s), m, compare) == Image(items, SelectionSort(s, m, compare))
    decreases m
  {
    if m > 0 {
      var b := BestFrom(s, 0, m, m, compare);
      BestByData(Image(items, s), s, 0, m, m, compare);
      SwapTraces(items, s, m, b);
      hide Traces, Image, Swapped, BestFrom;
      SelectionTraces(items, Swapped(s, m, b), m - 1, compare);
    }
  }

  lemma NumberedImage<N>(items: seq<Cell<N>>)
    ensures Traces(items, Numbered(items)) && Image(items, Numbered(items)) == items
  {
  }

  /** The k-th place of `sorted` holds the item with the k-th number. */
  ghost predicate Follows<N>(sorted: seq<Cell<N>>, items: seq<Cell<N>>, numbers: seq<Cell<nat>>) {
    && |sorted| == |numbers| == |items|
    && forall k :: 0 <= k < |items| ==> numbers[k].node < |items| && sorted[k] == items[numbers[k].node]
  }

  lemma ImageFollows<N>(items: seq<Cell<N>>, numbers: seq<Cell<nat>>)
    requires Traces(items, numbers) && |numbers| == |items|
    ensures Follows(Image(items, numbers), items, numbers)
  {
  }

  lemma ManyFollowNumbers<N>(items: seq<Cell<N>>, compare: Compare)
    requires items != []
    ensures Follows(SelectionSort(items, |items| - 1, compare), items, NumberedSort(items, compare))
  {
    NumberedImage(items);
    hide SelectionSort, Numbered, Image, Traces, Follows;
    SelectionTraces(items, Numbered(items), |items| - 1, compare);
    ImageFollows(items, NumberedSort(items, compare));
  }

  lemma FewFollowNumbers<N>(items: seq<Cell<N>>, compare: Compare)
    requires |items| < 2
    ensures Follows(items, items, NumberedSort(items, compare))
  {
  }

  /** The k-th item of the sorted list is the input item with the k-th number. */
  lemma SortFollowsNumbers<N>(v: View<N>, compare: Compare)
    requires v.WellFormed()
    ensures Sort(v, compare).WellFormed()
    ensures Follows(Sort(v, compare).Items(), v.Items(), NumberedSort(v.Items(), compare))
  {
    hide Sort, SelectionSort, NumberedSort, Follows;
    SortItems(v, compare);
    if |v.Items()| < 2 {
      FewFollowNumbers(v.Items(), compare);
    } else {
      ManyFollowNumbers(v.Items(), compare);
    }
  }

  // ----- exactly when the sort is stable -----

  ghost predicate Distinct(s: seq<Cell<nat>>) {
    forall i, j :: 0 <= i < j < |s| ==> s[i].node != s[j].node
  }

  /** Equal items that end behind place m are in input order with all before them. */
  ghost predicate OrderedBehind(s: seq<Cell<nat>>, m: int, compare: Compare) {
    forall i, j :: 0 <= i < j < |s| && m < j && compare(s[i].data, s[j].data) == 0 ==> s[i].node < s[j].node
  }

  ghost predicate InInputOrder(s: seq<Cell<nat>>, compare: Compare) {
    OrderedBehind(s, -1, compare)
  }

  /** The sort keeps equal items in the order in which the list had them. */
  ghost predicate SortIsStable<N>(items: seq<Cell<N>>, compare: Compare) {
    InInputOrder(NumberedSort(items, compare), compare)
  }

  /** Among the first m+1 items none that equals the b-th came later. */
  ghost predicate Latest(s: seq<Cell<nat>>, m: nat, b: nat, compare: Compare)
    requires b <= m < |s|
  {
    forall k :: 0 <= k <= m && compare(s[k].data, s[b].data) == 0 ==> s[k].node <= s[b].node
  }

  /** Every round takes, of the remaining items equal to the one it takes, the one
      that came last. */
  ghost predicate PicksLatest(s: seq<Cell<nat>>, m: nat, compare: Compare)
    requires m < |s|
    decreases m
  {
    m > 0 ==>
      var b := BestFrom(s, 0, m, m, compare);
      Latest(s, m, b, compare) && PicksLatest(Swapped(s, m, b), m - 1, compare)
  }

  lemma SwapDistinct(s: seq<Cell<nat>>, m: nat, b: nat)
    requires Distinct(s) && b <= m < |s|
    ensures Distinct(Swapped(s, m, b))
  {
    var t := Swapped(s, m, b);
    forall i, j | 0 <= i < j < |t| ensures t[i].node != t[j].node {
      var x, y := if i == b then m else if i == m then b else i, if j == b then m else if j == m then b else j;
      assert t[i] == s[x] && t[j] == s[y] && x != y;
      assert if x < y then s[x].node != s[y].node else s[y].node != s[x].node;
    }
  }

  /** A round that picks the latest adds its pick to the ordered part. */
  lemma LatestRound(s: seq<Cell<nat>>, m: nat, b: nat, compare: Compare)
    requires b <= m < |s| && Distinct(s) && OrderedBehind(s, m, compare) && Latest(s, m, b, compare)
    ensures OrderedBehind(Swapped(s, m, b), m - 1, compare)
  {
    var t := Swapped(s, m, b);
    forall i, j | 0 <= i < j < |t| && m - 1 < j && compare(t[i].data, t[j].data) == 0
      ensures t[i].node < t[j].node
    {
      var x := if i == b then m else if i == m then b else i;
      assert t[i] == s[x];
      if j == m {
        assert t[j] == s[b] && x != b;
        assert if x < b then s[x].node != s[b].node else s[b].node != s[x].node;
      } else {
        assert t[j] == s[j] && x < j;
      }
    }
  }

  /** The rounds that are left do not touch what stands behind place m, and keep
      every item of the first m+1 among them. */
  lemma {:induction false} SelectionLeaves(s: seq<Cell<nat>>, m: nat, k: nat, compare: Compare) returns (p: nat)
    requires k <= m < |s|
    ensures p <= m && SelectionSort(s, m, compare)[p] == s[k]
    ensures forall j :: m < j < |s| ==> SelectionSort(s, m, compare)[j] == s[j]
    decreases m
  {
    if m == 0 {
      p := 0;
    } else {
      var b := BestFrom(s, 0, m, m, compare);
      var t := Swapped(s, m, b);
      p := SelectionLeaves(t, m - 1, if k == b || k == m then if b < m then b else 0 else k, compare);
      if k == b {
        p := m;
      }
    }
  }

  /** A round that leaves a later equal item behind is never made good. */
  lemma EarlierPickStays(s: seq<Cell<nat>>, m: nat, compare: Compare)
    requires 0 < m < |s| && !Latest(s, m, BestFrom(s, 0, m, m, compare), compare)
    ensures !InInputOrder(SelectionSort(s, m, compare), compare)
  {
    var b := BestFrom(s, 0, m, m, compare);
    var t := Swapped(s, m, b);
    var k :| 0 <= k <= m && compare(s[k].data, s[b].data) == 0 && s[k].node > s[b].node;
    var r := SelectionSort(t, m - 1, compare);
    var i := if k == m then b else k;
    assert t[i] == s[k] && t[m] == s[b];
    var p := SelectionLeaves(t, m - 1, i, compare);
    assert r[p] == s[k] && r[m] == s[b];
  }

  lemma {:induction false} StableIffPicksLatest(s: seq<Cell<nat>>, m: nat, compare: Compare)
    requires m < |s| && Distinct(s) && OrderedBehind(s, m, compare)
    ensures InInputOrder(SelectionSort(s, m, compare), compare) <==> PicksLatest(s, m, compare)
    decreases m
  {
    if m > 0 {
      var b := BestFrom(s, 0, m, m, compare);
      hide Latest, OrderedBehind, Distinct, Swapped, BestFrom, InInputOrder;
      if Latest(s, m, b, compare) {
        SwapDistinct(s, m, b);
        LatestRound(s, m, b, compare);
        StableIffPicksLatest(Swapped(s, m, b), m - 1, compare);
      } else {
        EarlierPickStays(s, m, compare);
      }
    }
  }

  /** For every list and every `compare`, an order or not: the sort keeps equal
      items in order exactly when every round takes the latest of the items equal
      to the one it takes. */
  lemma SortStableIff<N>(items: seq<Cell<N>>, compare: Compare)
    requires items != []
    ensures SortIsStable(items, compare) <==> PicksLatest(Numbered(items), |items| - 1, compare)
  {
    hide SelectionSort, PicksLatest;
    StableIffPicksLatest(Numbered(items), |items| - 1, compare);
  }

  // ----- a condition to check beforehand -----

  /** Nothing greater than the i-th item stands before the j-th, and nothing lesser
      behind the i-th, within the first m+1. */
  ghost predicate Undisturbed<N>(s: seq<Cell<N>>, i: nat, j: nat, m: int, compare: Compare)
    requires i < j <= m < |s|
  {
    forall k :: 0 <= k <= m ==>
      && (k < j ==> compare(s[k].data, s[i].data) <= 0)
      && (i < k ==> compare(s[k].data, s[i].data) >= 0)
  }

  /** No two equal items are disturbed. */
  ghost predicate Settled<N>(s: seq<Cell<N>>, m: int, compare: Compare)
    requires m < |s|
  {
    forall i, j :: 0 <= i < j <= m && compare(s[i].data, s[j].data) == 0 ==> Undisturbed(s, i, j, m, compare)
  }

  ghost predicate NumbersRise(s: seq<Cell<nat>>, m: int, compare: Compare)
    requires m < |s|
  {
    forall i, j :: 0 <= i < j <= m && compare(s[i].data, s[j].data) == 0 ==> s[i].node < s[j].node
  }

  /** The scan keeps the last item when nothing before it is greater. */
  lemma {:induction false} BestStays<N>(s: seq<Cell<N>>, j: nat, m: nat, compare: Compare)
    requires j <= m < |s| && forall k :: 0 <= k < m ==> compare(s[k].data, s[m].data) <= 0
    ensures BestFrom(s, j, m, m, compare) == m
    decreases m - j
  {
    if j < m {
      BestStays(s, j + 1, m, compare);
    }
  }

  /** In a settled list, an item picked from elsewhere than the end is greater than
      all others. */
  lemma PickIsGreater<N>(s: seq<Cell<N>>, m: nat, k: nat, compare: Compare)
    requires TotalPreorder(compare) && 0 < m < |s| && Settled(s, m, compare) && k <= m
    requires var b := BestFrom(s, 0, m, m, compare); b != m && k != b
    ensures compare(s[k].data, s[BestFrom(s, 0, m, m, compare)].data) < 0
  {
    var b := BestFrom(s, 0, m, m, compare);
    PickIsGreatest(s, m, compare);
    hide TotalPreorder, BestFrom;
    Flip(compare, s[k].data, s[b].data);
    if compare(s[k].data, s[b].data) == 0 {
      var i, j := if k < b then k else b, if k < b then b else k;
      assert Undisturbed(s, i, j, m, compare);
      assert compare(s[m].data, s[i].data) >= 0;
      Flip(compare, s[m].data, s[i].data);
      forall l | 0 <= l < m ensures compare(s[l].data, s[m].data) <= 0 {
        NotGreater(compare, s[l].data, s[b].data, s[i].data);
        NotGreater(compare, s[l].data, s[i].data, s[m].data);
      }
      BestStays(s, 0, m, compare);
    }
  }

  /** Nothing before the end is greater than an item that equals the last. */
  lemma EqualToLast<N>(s: seq<Cell<N>>, m: nat, k: nat, b: nat, compare: Compare)
    requires TotalPreorder(compare) && m < |s| && Settled(s, m, compare) && k < m && b < m
    requires compare(s[k].data, s[m].data) == 0 || compare(s[m].data, s[k].data) == 0
    ensures compare(s[k].data, s[b].data) >= 0
  {
    Flip(compare, s[k].data, s[b].data);
    Flip(compare, s[k].data, s[m].data);
    hide TotalPreorder;
    assert Undisturbed(s, k, m, m, compare);
  }

  lemma SwapUndisturbed<N>(s: seq<Cell<N>>, m: nat, b: nat, i: nat, j: nat, compare: Compare)
    requires TotalPreorder(compare) && b < m < |s| && i < j < m && i != b && j != b
    requires Undisturbed(s, i, j, m, compare) && compare(s[i].data, s[b].data) < 0
    ensures Undisturbed(Swapped(s, m, b), i, j, m - 1, compare)
  {
    Flip(compare, s[i].data, s[b].data);
    hide TotalPreorder;
    var t := Swapped(s, m, b);
    assert b > j;
    forall k | 0 <= k <= m - 1
      ensures k < j ==> compare(t[k].data, t[i].data) <= 0
      ensures i < k ==> compare(t[k].data, t[i].data) >= 0
    {
      assert t[k] == s[if k == b then m else k] && t[i] == s[i];
    }
  }

  /** One round picks the latest and leaves the rest settled. */
  lemma SettledRound(s: seq<Cell<nat>>, m: nat, compare: Compare)
    requires TotalPreorder(compare) && 0 < m < |s| && Settled(s, m, compare) && NumbersRise(s, m, compare)
    ensures var b := BestFrom(s, 0, m, m, compare); var t := Swapped(s, m, b);
            Latest(s, m, b, compare) && Settled(t, m - 1, compare) && NumbersRise(t, m - 1, compare)
  {
    var b := BestFrom(s, 0, m, m, compare);
    var t := Swapped(s, m, b);
    if b == m {
      assert t == s;
      SettledPrefix(s, m, compare);
    } else {
      forall k | 0 <= k <= m && k != b ensures compare(s[k].data, s[b].data) < 0 {
        PickIsGreater(s, m, k, compare);
      }
      hide TotalPreorder, Undisturbed, BestFrom;
      forall i, j | 0 <= i < j <= m - 1 && compare(t[i].data, t[j].data) == 0
        ensures t[i].node < t[j].node && Undisturbed(t, i, j, m - 1, compare)
      {
        if i == b {
          EqualToLast(s, m, j, b, compare);
        } else if j == b {
          EqualToLast(s, m, i, b, compare);
        } else {
          SwapUndisturbed(s, m, b, i, j, compare);
        }
      }
    }
  }

  lemma SettledPrefix<N>(s: seq<Cell<N>>, m: nat, compare: Compare)
    requires 0 < m < |s| && Settled(s, m, compare)
    ensures Settled(s, m - 1, compare)
  {
    forall i, j | 0 <= i < j <= m - 1 && compare(s[i].data, s[j].data) == 0
      ensures Undisturbed(s, i, j, m - 1, compare)
    {
      assert Undisturbed(s, i, j, m, compare);
    }
  }

  lemma {:induction false} SettledPicksLatest(s: seq<Cell<nat>>, m: nat, compare: Compare)
    requires TotalPreorder(compare) && m < |s| && Settled(s, m, compare) && NumbersRise(s, m, compare)
    ensures PicksLatest(s, m, compare)
    decreases m
  {
    if m > 0 {
      hide TotalPreorder, Settled, NumbersRise, Latest, BestFrom;
      SettledRound(s, m, compare);
      SettledPicksLatest(Swapped(s, m, BestFrom(s, 0, m, m, compare)), m - 1, compare);
    }
  }

  lemma NumberedSettled<N>(items: seq<Cell<N>>, compare: Compare)
    requires items != [] && Settled(items, |items| - 1, compare)
    ensures Settled(Numbered(items), |items| - 1, compare) && NumbersRise(Numbered(items), |items| - 1, compare)
  {
    var s := Numbered(items);
    forall i, j | 0 <= i < j < |s| && compare(s[i].data, s[j].data) == 0
      ensures Undisturbed(s, i, j, |s| - 1, compare)
    {
      assert Undisturbed(items, i, j, |items| - 1, compare);
    }
  }

  /** If for every two equal items nothing greater stands before the second and
      nothing lesser behind the first, the sort keeps all equal items in order. */
  lemma SettledIsStable<N>(items: seq<Cell<N>>, compare: Compare)
    requires TotalPreorder(compare) && items != [] && Settled(items, |items| - 1, compare)
    ensures SortIsStable(items, compare)
  {
    hide TotalPreorder, PicksLatest, SortIsStable, Settled, NumbersRise;
    NumberedSettled(items, compare);
    SettledPicksLatest(Numbered(items), |items| - 1, compare);
    SortStableIff(items, compare);
  }

  lemma {:induction false} SelectionKeepsSorted<N>(items: seq<Cell<N>>, m: nat, compare: Compare)
    requires m < |items| && Sorted(items, compare)
    ensures SelectionSort(items, m, compare) == items
    decreases m
  {
    if m > 0 {
      BestStays(items, 0, m, compare);
      assert Swapped(items, m, m) == items;
      SelectionKeepsSorted(items, m - 1, compare);
    }
  }

  /** A sorted list comes back unchanged. */
  lemma SortedUnchanged<N>(v: View<N>, compare: Compare)
    requires v.WellFormed() && Sorted(v.Items(), compare)
    ensures Sort(v, compare).WellFormed() && Sort(v, compare).Items() == v.Items()
  {
    SortItems(v, compare);
    hide Sort, SelectionSort;
    if |v.Items()| >= 2 {
      SelectionKeepsSorted(v.Items(), |v.Items()| - 1, compare);
    }
  }

  // ----- it is not always -----

  function ByTens(a: Ptr, b: Ptr): int {
    (if a == Null then -1 else a.id / 10) - (if b == Null then -1 else b.id / 10)
  }

  /** The sort is not stable: of two equal items in front of a lesser one, the
      first ends up behind the second. */
  lemma SortNotStable()
    ensures TotalPreorder(ByTens) && ByTens(Addr(10), Addr(11)) == 0
    ensures var a, b, c := Cell(1, Addr(10)), Cell(2, Addr(11)), Cell(3, Addr(0));
            SelectionSort([a, b, c], 2, ByTens) == [c, b, a]
  {
    var a, b, c := Cell(1, Addr(10)), Cell(2, Addr(11)), Cell(3, Addr(0));
    var s := [a, b, c];
    assert BestFrom(s, 1, 2, 0, ByTens) == BestFrom(s, 2, 2, 0, ByTens) == 0;
    assert Swapped(s, 2, 0) == [c, b, a];
    var t := [c, b, a];
    assert BestFrom(t, 0, 1, 1, ByTens) == BestFrom(t, 1, 1, 1, ByTens) == 1;
    assert Swapped(t, 1, 1) == t;
    assert SelectionSort(t, 1, ByTens) == SelectionSort(t, 0, ByTens) == t;
  }

  const A: Cell<nat> := Cell(0, Addr(90))
  const B: Cell<nat> := Cell(1, Addr(50))
  const C: Cell<nat> := Cell(2, Addr(0))
  const D: Cell<nat> := Cell(3, Addr(51))

  /** The rounds of sorting A, B, C, D. */
  lemma FirstRound()
    ensures BestFrom([A, B, C, D], 0, 3, 3, ByTens) == 0 && Latest([A, B, C, D], 3, 0, ByTens)
    ensures Swapped([A, B, C, D], 3, 0) == [D, B, C, A]
  {
    var s := [A, B, C, D];
    assert BestFrom(s, 1, 3, 0, ByTens) == BestFrom(s, 2, 3, 0, ByTens) == BestFrom(s, 3, 3, 0, ByTens) == 0;
  }

  lemma SecondRound()
    ensures BestFrom([D, B, C, A], 0, 2, 2, ByTens) == 0 && Latest([D, B, C, A], 2, 0, ByTens)
    ensures Swapped([D, B, C, A], 2, 0) == [C, B, D, A]
  {
    var s := [D, B, C, A];
    assert BestFrom(s, 1, 2, 0, ByTens) == BestFrom(s, 2, 2, 0, ByTens) == 0;
  }

  lemma ThirdRound()
    ensures BestFrom([C, B, D, A], 0, 1, 1, ByTens) == 1 && Latest([C, B, D, A], 1, 1, ByTens)
    ensures Swapped([C, B, D, A], 1, 1) == [C, B, D, A]
  {
    var s := [C, B, D, A];
    assert BestFrom(s, 1, 1, 1, ByTens) == 1;
  }

  lemma NotSettled()
    ensures !Settled([A, B, C, D], 3, ByTens)
  {
    var s := [A, B, C, D];
    assert ByTens(s[0].data, s[1].data) > 0 && ByTens(s[1].data, s[3].data) == 0;
    assert !Undisturbed(s, 1, 3, 3, ByTens);
  }

  /** The condition above suffices but is not needed: a greater item stands before
      two equal ones and a lesser one between them, and still they stay in order. */
  lemma StableUnsettled()
    ensures SortIsStable([A, B, C, D], ByTens) && !Settled([A, B, C, D], 3, ByTens)
  {
    NotSettled();
    FirstRound();
    SecondRound();
    ThirdRound();
    assert Numbered([A, B, C, D]) == [A, B, C, D];
    SortStableIff([A, B, C, D], ByTens);
    hide SortIsStable, Settled, BestFrom, Latest, Swapped, ByTens;
    assert PicksLatest([C, B, D, A], 0, ByTens);
    assert PicksLatest([C, B, D, A], 1, ByTens);
    assert PicksLatest([D, B, C, A], 2, ByTens);
  }
}
