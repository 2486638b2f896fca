/** The cursor list of shared/LL.c as a value: the cells from the head sentinel to
    the tail sentinel, and where the cursor stands among them. */
module ListModel {

  /** A C pointer to caller data; the list only stores it and tests it against NULL. */
  datatype Ptr = Null | Addr(id: int)

  datatype Cell<N> = Cell(node: N, data: Ptr)

  /** `cells[0]` is the head sentinel and the last cell the tail sentinel.
      `pos` indexes `cells`; it is -1 when the cursor pointer is NULL. */
  datatype View<N> = View(cells: seq<Cell<N>>, pos: int) {

    predicate WellFormed() {
      2 <= |cells| && -1 <= pos < |cells|
    }

    function Items(): seq<Cell<N>>
      requires WellFormed()
    {
      Inner(cells)
    }

    function Tail(): nat
      requires WellFormed()
    {
      |cells| - 1
    }

    predicate AtItem()
      requires WellFormed()
    {
      0 < pos < Tail()
    }
  }

  /** What lies between the two sentinels. */
  function Inner<T>(s: seq<T>): (r: seq<T>)
    requires 2 <= |s|
    ensures |r| == |s| - 2 && forall i {:trigger r[i]} :: 0 <= i < |r| ==> r[i] == s[i + 1]
  {
    s[1..|s| - 1]
  }

  type Compare = (Ptr, Ptr) -> int

  // ----- cursor moves -----

  function Rewind<N>(v: View<N>): View<N>
    requires v.WellFormed()
  {
    v.(pos := if |v.cells| > 2 then 1 else 0)
  }

  function End<N>(v: View<N>): View<N>
    requires v.WellFormed()
  {
    v.(pos := if |v.cells| > 2 then |v.cells| - 2 else 1)
  }

  /** Stepping on from the tail sentinel succeeds and leaves a NULL cursor. */
  function Next<N>(v: View<N>): (View<N>, int)
    requires v.WellFormed()
  {
    if v.pos == -1 || v.pos + 1 == v.Tail() then (v, -1)
    else if v.pos == v.Tail() then (v.(pos := -1), 0)
    else (v.(pos := v.pos + 1), 0)
  }

  function Prev<N>(v: View<N>): (View<N>, int)
    requires v.WellFormed()
  {
    if v.pos == -1 || v.pos == 1 then (v, -1)
    else (v.(pos := v.pos - 1), 0)
  }

  // ----- data -----

  function Get<N>(v: View<N>): Ptr
    requires v.WellFormed()
  {
    if v.pos == -1 then Null else v.cells[v.pos].data
  }

  function Put<N>(v: View<N>, data: Ptr): (View<N>, int)
    requires v.WellFormed()
  {
    if v.pos == -1 then (v, -1)
    else (v.(cells := v.cells[v.pos := v.cells[v.pos].(data := data)]), 0)
  }

  // ----- insertion and removal -----

  function InsertAt<T>(s: seq<T>, k: nat, x: T): (r: seq<T>)
    requires k <= |s|
    ensures |r| == |s| + 1
    ensures forall i {:trigger r[i]} :: 0 <= i < |r| ==> r[i] == if i < k then s[i] else if i == k then x else s[i - 1]
  {
    s[..k] + [x] + s[k..]
  }

  function RemoveAt<T>(s: seq<T>, k: nat): (r: seq<T>)
    requires k < |s|
    ensures |r| == |s| - 1
    ensures forall i {:trigger r[i]} :: 0 <= i < |r| ==> r[i] == s[if i < k then i else i + 1]
  {
    s[..k] + s[k + 1..]
  }

  /** Inserting or removing between the sentinels acts on the items alone. */
  lemma InsertInside<T>(s: seq<T>, k: nat, x: T)
    requires 0 < k < |s|
    ensures var t := InsertAt(s, k, x);
            t[0] == s[0] && t[|s|] == s[|s| - 1] && Inner(t) == InsertAt(Inner(s), k - 1, x)
  {
    hide InsertAt;
    assert Inner(InsertAt(s, k, x)) == InsertAt(Inner(s), k - 1, x);
  }

  lemma RemoveInside<T>(s: seq<T>, k: nat)
    requires 0 < k < |s| - 1
    ensures var t := RemoveAt(s, k);
            t[0] == s[0] && t[|s| - 2] == s[|s| - 1] && Inner(t) == RemoveAt(Inner(s), k - 1)
  {
    hide RemoveAt;
    assert Inner(RemoveAt(s, k)) == RemoveAt(Inner(s), k - 1);
  }

  /** Adds after the cursor, or after the last item when the cursor is on the tail. */
  function Add<N>(v: View<N>, cell: Cell<N>): View<N>
    requires v.WellFormed() && v.pos != -1
  {
    var p := if v.pos == v.Tail() then v.pos - 1 else v.pos;
    View(InsertAt(v.cells, p + 1, cell), p + 1)
  }

  /** Adds before the cursor, or before the first item when the cursor is on the head. */
  function Insert<N>(v: View<N>, cell: Cell<N>): View<N>
    requires v.WellFormed() && v.pos != -1
  {
    var p := if v.pos == 0 then 1 else v.pos;
    View(InsertAt(v.cells, p, cell), p)
  }

  function Delete<N>(v: View<N>): (View<N>, Ptr)
    requires v.WellFormed()
  {
    if v.AtItem() then (View(RemoveAt(v.cells, v.pos), v.pos), v.cells[v.pos].data)
    else (v, Null)
  }

  // ----- deque operations -----

  function Push<N>(v: View<N>, cell: Cell<N>): View<N>
    requires v.WellFormed()
  {
    if cell.data == Null then v else Add(End(v), cell)
  }

  function Pop<N>(v: View<N>): (View<N>, Ptr)
    requires v.WellFormed()
  {
    Delete(End(v))
  }

  function Shift<N>(v: View<N>): (View<N>, Ptr)
    requires v.WellFormed()
  {
    Delete(Rewind(v))
  }

  function Unshift<N>(v: View<N>, cell: Cell<N>): View<N>
    requires v.WellFormed()
  {
    if cell.data == Null then v else Insert(Rewind(v), cell)
  }

  // ----- rotation -----

  /** The last item becomes the first; the cursor is left on the old first item. */
  function Roll<N>(v: View<N>): View<N>
    requires v.WellFormed()
  {
    var n := |v.cells| - 2;
    if n < 2 then v.(pos := n)
    else View([v.cells[0], v.cells[n]] + v.cells[1..n] + [v.cells[n + 1]], 2)
  }

  /** The first item becomes the last; the cursor is left on the old last item. */
  function UnRoll<N>(v: View<N>): View<N>
    requires v.WellFormed()
  {
    var n := |v.cells| - 2;
    if n < 2 then v.(pos := 1)
    else View([v.cells[0]] + v.cells[2..n + 1] + [v.cells[1], v.cells[n + 1]], n - 1)
  }

  lemma RotatedCells<T>(cells: seq<T>)
    requires |cells| > 3
    ensures var n := |cells| - 2;
            && InsertAt(RemoveAt(cells, n), 1, cells[n]) == [cells[0], cells[n]] + cells[1..n] + [cells[n + 1]]
            && InsertAt(RemoveAt(cells, 1), n, cells[1]) == [cells[0]] + cells[2..n + 1] + [cells[1], cells[n + 1]]
  {
    hide InsertAt, RemoveAt;
    var n := |cells| - 2;
    assert InsertAt(RemoveAt(cells, n), 1, cells[n]) == [cells[0], cells[n]] + cells[1..n] + [cells[n + 1]];
    assert InsertAt(RemoveAt(cells, 1), n, cells[1]) == [cells[0]] + cells[2..n + 1] + [cells[1], cells[n + 1]];
  }

  // ----- searching -----

  /** Index of the first item holding `data`, or the number of items. */
  function FirstHolding<N>(items: seq<Cell<N>>, data: Ptr): (k: nat)
    ensures k <= |items|
    ensures k < |items| ==> items[k].data == data
    ensures forall i :: 0 <= i < k ==> items[i].data != data
  {
    if items == [] || items[0].data == data then 0 else 1 + FirstHolding(items[1..], data)
  }

  /** The cursor walks from the first item (the head sentinel if there is none);
      the first item holding `data` is dropped. */
  function Remove<N>(v: View<N>, data: Ptr): (View<N>, Ptr)
    requires v.WellFormed()
  {
    var items := v.Items();
    var k := FirstHolding(items, data);
    if k < |items| then (View(RemoveAt(v.cells, k + 1), k + 1), data)
    else (v.(pos := |items|), Null)
  }

  /** The walk of `LL_Find`, which starts wherever the cursor stands. */
  function FindFrom<N>(v: View<N>, compare: Compare, value: Ptr): (View<N>, Ptr)
    requires v.WellFormed()
    decreases if v.pos == -1 then 0 else |v.cells| - v.pos
  {
    if compare(Get(v), value) == 0 then (v, Get(v))
    else
      var (w, moved) := Next(v);
      if moved == 0 then FindFrom(w, compare, value) else (w, Null)
  }

  function Find<N>(v: View<N>, compare: Compare, value: Ptr): (View<N>, Ptr)
    requires v.WellFormed()
  {
    if value == Null then (v, Null) else FindFrom(v, compare, value)
  }

  // ----- reordering -----

  function Swapped<T>(s: seq<T>, i: nat, j: nat): (r: seq<T>)
    requires i < |s| && j < |s|
    ensures |r| == |s|
  {
    s[i := s[j]][j := s[i]]
  }

  lemma SwappedAt<T>(s: seq<T>, i: nat, j: nat)
    requires i < |s| && j < |s|
    ensures forall k {:trigger Swapped(s, i, j)[k]} :: 0 <= k < |s| ==>
              Swapped(s, i, j)[k] == s[if k == i then j else if k == j then i else k]
  {
  }

  /** Two nodes change places; the cursor stays with its node. */
  function Swap<N>(v: View<N>, i: nat, j: nat): View<N>
    requires v.WellFormed() && i < |v.cells| && j < |v.cells|
  {
    View(Swapped(v.cells, i, j), if v.pos == i then j else if v.pos == j then i else v.pos)
  }

  /** Where `LL_PriorityEnqueue` puts `x`: right after the last item that is not
      greater than `x`. Items holding NULL are stepped over. */
  function PriorityIndex<N>(items: seq<Cell<N>>, x: Ptr, compare: Compare): (k: nat)
    ensures k <= |items|
    ensures k > 0 ==> items[k - 1].data != Null && compare(x, items[k - 1].data) >= 0
  {
    if items == [] then 0
    else
      var n := |items| - 1;
      if items[n].data != Null && compare(x, items[n].data) >= 0 then n + 1
      else PriorityIndex(items[..n], x, compare)
  }

  /** Every item from there on that does not hold NULL is greater than x. */
  lemma {:induction false} BehindPriorityIndex<N>(items: seq<Cell<N>>, x: Ptr, compare: Compare, i: nat)
    requires PriorityIndex(items, x, compare) <= i < |items| && items[i].data != Null
    ensures compare(x, items[i].data) < 0
  {
    var n := |items| - 1;
    if i < n {
      assert items[..n][i] == items[i];
      BehindPriorityIndex(items[..n], x, compare, i);
    }
  }

  /** Whether it stands right behind a given item with no other candidate behind. */
  lemma PriorityIndexAt<N>(items: seq<Cell<N>>, x: Ptr, compare: Compare, p: nat)
    requires PriorityIndex(items, x, compare) <= p && 0 < p <= |items|
    ensures items[p - 1].data != Null && compare(x, items[p - 1].data) >= 0 <==> PriorityIndex(items, x, compare) == p
  {
    if items[p - 1].data != Null && PriorityIndex(items, x, compare) < p {
      BehindPriorityIndex(items, x, compare, p - 1);
    }
  }

  function PriorityEnqueue<N>(v: View<N>, cell: Cell<N>, compare: Compare): View<N>
    requires v.WellFormed()
  {
    if cell.data == Null then v
    else
      var k := PriorityIndex(v.Items(), cell.data, compare);
      View(InsertAt(v.cells, k + 1, cell), k + 1)
  }

  // ----- selection sort -----

  /** Scans `items[j..m]` for an item greater than the best one so far. */
  function BestFrom<N>(items: seq<Cell<N>>, j: nat, m: nat, best: nat, compare: Compare): (b: nat)
    requires j <= m < |items| && best <= m
    ensures b <= m
    decreases m - j
  {
    if j == m then best
    else BestFrom(items, j + 1, m,
                  if compare(items[j].data, items[best].data) > 0 then j else best, compare)
  }

  lemma BestFromStep<N>(items: seq<Cell<N>>, j: nat, m: nat, best: nat, compare: Compare)
    requires j <= m < |items| && best <= m
    ensures j == m ==> BestFrom(items, j, m, best, compare) == best
    ensures j < m ==>
              BestFrom(items, j, m, best, compare) ==
              BestFrom(items, j + 1, m, if compare(items[j].data, items[best].data) > 0 then j else best, compare)
  {
  }

  /** What is left to do when only the first m+1 items are still unsorted. */
  function SelectionSort<N>(items: seq<Cell<N>>, m: nat, compare: Compare): (r: seq<Cell<N>>)
    requires m < |items|
    ensures |r| == |items|
    decreases m
  {
    if m == 0 then items
    else SelectionSort(Swapped(items, m, BestFrom(items, 0, m, m, compare)), m - 1, compare)
  }

  lemma SelectionDone<N>(items: seq<Cell<N>>, compare: Compare)
    requires items != []
    ensures SelectionSort(items, 0, compare) == items
  {
  }

  /** One round of the sort, seen on the cells with their two sentinels. */
  lemma SelectionRound<N>(cells: seq<Cell<N>>, m: nat, compare: Compare)
    requires 0 < m < |cells| - 2
    ensures var b := BestFrom(Inner(cells), 0, m, m, compare);
            var swapped := Swapped(cells, m + 1, b + 1);
            && SelectionSort(Inner(cells), m, compare) == SelectionSort(Inner(swapped), m - 1, compare)
            && swapped[0] == cells[0] && swapped[|cells| - 1] == cells[|cells| - 1]
  {
    var b := BestFrom(Inner(cells), 0, m, m, compare);
    assert Inner(Swapped(cells, m + 1, b + 1)) == Swapped(Inner(cells), m, b);
  }

  function Sort<N>(v: View<N>, compare: Compare): View<N>
    requires v.WellFormed()
  {
    var n := |v.cells| - 2;
    if n < 2 then End(v)
    else View([v.cells[0]] + SelectionSort(v.Items(), n - 1, compare) + [v.cells[n + 1]], 1)
  }

  lemma SortShort<N>(v: View<N>, compare: Compare)
    requires v.WellFormed() && |v.cells| <= 3
    ensures Sort(v, compare) == v.(pos := if |v.cells| > 2 then |v.cells| - 2 else 1)
  {
  }

  lemma SortFinished<N>(v: View<N>, compare: Compare, cells: seq<Cell<N>>)
    requires v.WellFormed() && |cells| == |v.cells| > 3
    requires cells[0] == v.cells[0] && cells[|cells| - 1] == v.cells[|cells| - 1]
    requires Inner(cells) == SelectionSort(v.Items(), |cells| - 3, compare)
    ensures Sort(v, compare) == View(cells, 1)
  {
    hide SelectionSort;
    assert cells == [cells[0]] + Inner(cells) + [cells[|cells| - 1]];
  }
}
