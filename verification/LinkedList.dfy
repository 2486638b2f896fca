/** shared/LL.c: a doubly linked list with two embedded sentinels and a cursor,
    changed by assigning the link fields of its nodes. */
module LinkedLists {
  import opened ListModel
  import SortLaws

  class Node {
    var next: Node?
    var prev: Node?
    var data: Ptr
  }

  class LinkedList {
    const head: Node
    const tail: Node
    var current: Node?

    /** Every node in list order, the two sentinels included. */
    ghost var chain: seq<Node>
    /** Where the cursor stands in `chain`; -1 when `current` is NULL. */
    ghost var pos: int

    /** The links join `chain` in both directions. */
    ghost predicate Linked()
      reads this, chain
    {
      && 2 <= |chain|
      && chain[0] == head && chain[|chain| - 1] == tail
      && head.prev == null && tail.next == null
      && (forall i {:trigger chain[i].next} :: 0 <= i < |chain| - 1 ==> chain[i].next == chain[i + 1])
      && (forall i {:trigger chain[i].prev} :: 0 < i < |chain| ==> chain[i].prev == chain[i - 1])
    }

    /** No node is twice in the list: following the links from a repeated node
        would have to end at the tail sentinel at two different distances. */
    lemma {:induction false} Differ(i: int, j: int)
      requires Linked() && 0 <= i < j < |chain|
      ensures chain[i] != chain[j]
      decreases |chain| - j
    {
      if j + 1 < |chain| {
        Differ(i + 1, j + 1);
        assert chain[i].next == chain[i + 1] && chain[j].next == chain[j + 1];
      } else {
        assert chain[i].next == chain[i + 1];
      }
    }

    /** `chain[k]` occurs nowhere else. */
    lemma Apart(k: int)
      requires Linked() && 0 <= k < |chain|
      ensures forall i {:trigger chain[i]} :: 0 <= i < |chain| && i != k ==> chain[i] != chain[k]
    {
      forall i {:trigger chain[i]} | 0 <= i < |chain| && i != k ensures chain[i] != chain[k] {
        if i < k { Differ(i, k); } else { Differ(k, i); }
      }
    }

    lemma BothWays(k: int)
      requires Linked() && 0 < k < |chain| - 1
      ensures LinkedBothWays(chain[k]) && chain[k].prev == chain[k - 1] && chain[k].next == chain[k + 1]
    {
      Apart(k);
      Apart(k - 1);
    }

    ghost predicate Valid()
      reads this, chain
    {
      && Linked()
      && 2 <= |chain| && -1 <= pos < |chain|
      && current == (if pos == -1 then null else chain[pos])
    }

    ghost function Cells(): (cells: seq<Cell<Node>>)
      reads this, chain
      ensures |cells| == |chain|
      ensures forall i {:trigger cells[i]} :: 0 <= i < |chain| ==> cells[i] == Cell(chain[i], chain[i].data)
    {
      seq(|chain|, i requires 0 <= i < |chain| reads this, chain => Cell(chain[i], chain[i].data))
    }

    /** The list as a value. */
    ghost function View(): View<Node>
      reads this, chain
    {
      ListModel.View(Cells(), pos)
    }

    constructor ()
      ensures Valid() && fresh(chain)
      ensures View() == ListModel.View([Cell(head, Null), Cell(tail, Null)], 0)
    {
      var h := new Node;
      var t := new Node;
      h.data, h.prev, h.next := Null, null, t;
      t.data, t.prev, t.next := Null, h, null;
      head, tail, current := h, t, h;
      chain, pos := [h, t], 0;
    }

    // ----- cursor moves -----

    method Rewind() returns (ret: int)
      requires Linked()
      modifies this`current, this`pos
      ensures Valid() && ret == 0
      ensures Cells() == old(Cells()) && pos == if |chain| > 2 then 1 else 0
    {
      Apart(|chain| - 1);
      if head.next != tail {
        current, pos := head.next, 1;
      } else {
        assert |chain| == 2;
        current, pos := head, 0;
      }
      return 0;
    }

    method End() returns (ret: int)
      requires Linked()
      modifies this`current, this`pos
      ensures Valid() && ret == 0
      ensures Cells() == old(Cells()) && pos == if |chain| > 2 then |chain| - 2 else 1
    {
      Apart(0);
      if tail.prev != head {
        current, pos := tail.prev, |chain| - 2;
      } else {
        assert |chain| == 2;
        current, pos := tail, 1;
      }
      return 0;
    }

    method Next() returns (ret: int)
      requires Valid()
      modifies this`current, this`pos
      ensures Valid() && Cells() == old(Cells())
      ensures ret == if old(pos) == -1 || old(pos) == |chain| - 2 then -1 else 0
      ensures pos == if ret == -1 then old(pos) else if old(pos) == |chain| - 1 then -1 else old(pos) + 1
      ensures (View(), ret) == ListModel.Next(old(View()))
    {
      if current == null {
        return -1;
      }
      Apart(|chain| - 1);
      if current.next != tail {
        pos := if current == tail then -1 else pos + 1;
        current := current.next;
        assert Cells() == old(Cells());
        return 0;
      } else {
        return -1;
      }
    }

    method Prev() returns (ret: int)
      requires Valid()
      modifies this`current, this`pos
      ensures Valid() && Cells() == old(Cells())
      ensures ret == if old(pos) == -1 || old(pos) == 1 then -1 else 0
      ensures pos == if ret == -1 then old(pos) else old(pos) - 1
      ensures (View(), ret) == ListModel.Prev(old(View()))
    {
      if current == null {
        return -1;
      }
      Apart(0);
      if current.prev != head {
        pos := pos - 1;
        current := current.prev;
        assert Cells() == old(Cells());
        return 0;
      } else {
        return -1;
      }
    }

    // ----- data -----

    method Get() returns (data: Ptr)
      requires Valid()
      ensures data == ListModel.Get(View())
      ensures data == if pos == -1 then Null else Cells()[pos].data
    {
      if current == null {
        return Null;
      }
      return current.data;
    }

    method Put(data: Ptr) returns (ret: int)
      requires Valid()
      modifies chain
      ensures Valid() && (View(), ret) == ListModel.Put(old(View()), data)
    {
      if current == null {
        return -1;
      }
      Apart(pos);
      current.data := data;
      assert Cells() == ListModel.Put(old(View()), data).0.cells;
      return 0;
    }

    // ----- insertion and removal -----

    /** Makes the two nodes that `node` already points at point back at it. */
    method LinkIn(node: Node, ghost k: int)
      requires Linked() && 0 < k < |chain| && node !in chain
      requires node.prev == chain[k - 1] && node.next == chain[k]
      modifies this`chain, chain`next, chain`prev
      ensures Linked() && chain == InsertAt(old(chain), k, node)
      ensures Cells() == InsertAt(old(Cells()), k, Cell(node, node.data))
    {
      hide InsertAt, RemoveAt;
      Apart(k - 1);
      Apart(k);
      node.next.prev := node;
      node.prev.next := node;
      chain := InsertAt(chain, k, node);
      assert Cells() == InsertAt(old(Cells()), k, Cell(node, node.data));
    }

    /** Links `node` in and puts the cursor on it. */
    method Splice(node: Node, ghost k: int)
      requires Linked() && 0 < k < |chain| && node !in chain
      requires node.prev == chain[k - 1] && node.next == chain[k]
      modifies this, chain`next, chain`prev
      ensures Valid() && current == node
      ensures View() == ListModel.View(InsertAt(old(Cells()), k, Cell(node, node.data)), k)
    {
      hide InsertAt, RemoveAt;
      LinkIn(node, k);
      current, pos := node, k;
    }

    /** Takes `node` out of the list; the cursor may be left on it. */
    method Unlink(node: Node, ghost k: int)
      requires Linked() && 0 < k < |chain| - 1 && node == chain[k]
      modifies this`chain, chain`next, chain`prev
      ensures Linked() && node !in chain && chain == RemoveAt(old(chain), k)
      ensures Cells() == RemoveAt(old(Cells()), k)
    {
      hide InsertAt, RemoveAt;
      Apart(k - 1);
      Apart(k);
      Apart(k + 1);
      var next, prev := node.next, node.prev;
      assert next == chain[k + 1] && prev == chain[k - 1];
      if next != null {
        next.prev := prev;
      }
      if prev != null {
        prev.next := next;
      }
      node.next := null;
      node.prev := null;
      chain := RemoveAt(chain, k);
      assert Cells() == RemoveAt(old(Cells()), k);
    }

    /** The tail sentinel gives way to the node before it. */
    method LeaveTail()
      requires Valid() && pos != -1
      modifies this`current, this`pos
      ensures Valid() && pos == if old(pos) == |chain| - 1 then |chain| - 2 else old(pos)
      ensures Cells() == old(Cells())
    {
      Apart(|chain| - 1);
      if current == tail {
        current := current.prev;
        pos := pos - 1;
      }
    }

    /** The head sentinel gives way to the node after it. */
    method LeaveHead()
      requires Valid() && pos != -1
      modifies this`current, this`pos
      ensures Valid() && pos == if old(pos) == 0 then 1 else old(pos)
      ensures Cells() == old(Cells())
    {
      Apart(0);
      if current == head {
        current := current.next;
        pos := pos + 1;
      }
    }

    method AddNode(add: Ptr) returns (ret: int)
      requires Valid()
      modifies this, chain
      ensures Valid()
      ensures old(current) == null ==> ret == -1 && View() == old(View())
      ensures old(current) != null ==>
                && ret == 0 && current != null && fresh(current)
                && View() == Add(old(View()), Cell(current, add))
    {
      hide InsertAt, RemoveAt;
      if current == null {
        return -1;
      }
      ghost var before := View();
      LeaveTail();
      assert Cells() == before.cells;
      var node := new Node;
      ghost var after := ListModel.View(InsertAt(before.cells, pos + 1, Cell(node, add)), pos + 1);
      assert Add(before, Cell(node, add)) == after;
      node.next := current.next;
      node.prev := current;
      node.data := add;
      assert Cells() == before.cells;
      Splice(node, pos + 1);
      assert View() == after;
      return 0;
    }

    method InsertNode(add: Ptr) returns (ret: int)
      requires Valid()
      modifies this, chain
      ensures Valid()
      ensures old(current) == null || add == Null ==> ret == -1 && View() == old(View())
      ensures old(current) != null && add != Null ==>
                && ret == 0 && current != null && fresh(current)
                && View() == Insert(old(View()), Cell(current, add))
    {
      hide InsertAt, RemoveAt;
      if add == Null || current == null {
        return -1;
      }
      ghost var before := View();
      LeaveHead();
      assert Cells() == before.cells;
      var node := new Node;
      ghost var after := ListModel.View(InsertAt(before.cells, pos, Cell(node, add)), pos);
      assert Insert(before, Cell(node, add)) == after;
      node.next := current;
      node.prev := current.prev;
      node.data := add;
      assert Cells() == before.cells;
      Splice(node, pos);
      assert View() == after;
      return 0;
    }

    /** Removes the node under the cursor and goes to the next one. */
    method DeleteNode() returns (data: Ptr)
      requires Valid()
      modifies this, chain
      ensures Valid() && (View(), data) == Delete(old(View()))
    {
      hide InsertAt, RemoveAt;
      Apart(0);
      Apart(|chain| - 1);
      if current == null || current == head || current == tail {
        return Null;
      }
      ghost var before := View();
      var node, next := current, current.next;
      data := node.data;
      Unlink(node, pos);
      node.data := Null;
      current := next;
      assert Cells() == RemoveAt(before.cells, pos);
    }

    // ----- deque operations -----

    method Push(add: Ptr) returns (ret: int)
      requires Valid()
      modifies this, chain
      ensures Valid()
      ensures add == Null ==> ret == -1 && View() == old(View())
      ensures add != Null ==>
                && ret == 0 && current != null && fresh(current)
                && View() == ListModel.Push(old(View()), Cell(current, add))
    {
      if add == Null {
        return -1;
      }
      var _ := End();
      ret := AddNode(add);
    }

    method Pop() returns (data: Ptr)
      requires Valid()
      modifies this, chain
      ensures Valid() && (View(), data) == ListModel.Pop(old(View()))
    {
      var r := End();
      if 0 > r {
        return Null;
      }
      data := DeleteNode();
    }

    method Top() returns (data: Ptr)
      requires Valid()
      modifies this`current, this`pos
      ensures Valid() && View() == ListModel.End(old(View())) && data == ListModel.Get(View())
    {
      var r := End();
      if 0 > r {
        return Null;
      }
      data := Get();
    }

    method Shift() returns (data: Ptr)
      requires Valid()
      modifies this, chain
      ensures Valid() && (View(), data) == ListModel.Shift(old(View()))
    {
      var r := Rewind();
      if 0 > r {
        return Null;
      }
      data := DeleteNode();
    }

    method Look() returns (data: Ptr)
      requires Valid()
      modifies this`current, this`pos
      ensures Valid() && View() == ListModel.Rewind(old(View())) && data == ListModel.Get(View())
    {
      var r := Rewind();
      if 0 > r {
        return Null;
      }
      data := Get();
    }

    method Unshift(add: Ptr) returns (ret: int)
      requires Valid()
      modifies this, chain
      ensures Valid()
      ensures add == Null ==> ret == -1 && View() == old(View())
      ensures add != Null ==>
                && ret == 0 && current != null && fresh(current)
                && View() == ListModel.Unshift(old(View()), Cell(current, add))
    {
      if add == Null {
        return -1;
      }
      var _ := Rewind();
      ret := InsertNode(add);
    }

    // ----- rotation -----

    /** Goes to the last item, or to the head sentinel when there is none. */
    method SeekLast() returns (ret: int)
      requires Valid()
      modifies this`current, this`pos
      ensures Valid() && ret == 0 && Cells() == old(Cells()) && pos == |chain| - 2
    {
      ret := End();
      if 0 > ret {
        return -1;
      }
      Apart(0);
      Apart(|chain| - 1);
      if current == head {
        assert false; // LL_End never leaves the cursor there
      }
      if current == tail {
        current, pos := current.prev, pos - 1;
      }
      assert Cells() == old(Cells());
    }

    /** Goes to the first item, or to the tail sentinel when there is none. */
    method SeekFirst() returns (ret: int)
      requires Valid()
      modifies this`current, this`pos
      ensures Valid() && ret == 0 && Cells() == old(Cells()) && pos == 1
    {
      ret := Rewind();
      if 0 > ret {
        return -1;
      }
      Apart(0);
      Apart(|chain| - 1);
      if current == tail {
        assert false; // LL_Rewind never leaves the cursor there
      }
      if current == head {
        current, pos := current.next, pos + 1;
      }
      assert Cells() == old(Cells());
    }

    /** Links `node` in before the first item, on which the cursor stands. */
    method LinkFirst(node: Node)
      requires Valid() && |chain| > 2 && pos == 1 && node !in chain
      modifies this, chain, node
      ensures Valid() && pos == 2
      ensures Cells() == InsertAt(old(Cells()), 1, Cell(node, old(node.data)))
    {
      hide InsertAt;
      var next := head.next;
      node.prev := head;
      node.next := next;
      assert Cells() == old(Cells());
      LinkIn(node, 1);
      pos := pos + 1;
    }

    /** Links `node` in behind the last item, on which the cursor stands. */
    method LinkLast(node: Node)
      requires Valid() && |chain| > 2 && pos == |chain| - 2 && node !in chain
      modifies this, chain, node
      ensures Valid() && pos == old(pos)
      ensures Cells() == InsertAt(old(Cells()), old(|chain|) - 1, Cell(node, old(node.data)))
    {
      hide InsertAt;
      var prev := tail.prev;
      node.next := tail;
      node.prev := prev;
      assert Cells() == old(Cells());
      LinkIn(node, |chain| - 1);
    }

    /** Moves the last of at least two items to the front. */
    method LastToFront(node: Node) returns (ret: int)
      requires Linked() && |chain| > 3 && node == chain[|chain| - 2]
      modifies this, chain
      ensures Valid() && ret == 0 && pos == 2
      ensures Cells() == InsertAt(RemoveAt(old(Cells()), old(|chain|) - 2), 1, old(Cells()[|chain| - 2]))
    {
      hide InsertAt, RemoveAt;
      Unlink(node, |chain| - 2);
      ret := Rewind();
      if 0 > ret {
        return -1;
      }
      LinkFirst(node);
    }

    /** Moves the first of at least two items to the end. */
    method FirstToBack(node: Node) returns (ret: int)
      requires Linked() && |chain| > 3 && node == chain[1]
      modifies this, chain
      ensures Valid() && ret == 0 && pos == |chain| - 3
      ensures Cells() == InsertAt(RemoveAt(old(Cells()), 1), old(|chain|) - 2, old(Cells()[1]))
    {
      hide InsertAt, RemoveAt;
      Unlink(node, 1);
      ret := End();
      if 0 > ret {
        return -1;
      }
      LinkLast(node);
    }

    method Roll() returns (ret: int)
      requires Valid()
      modifies this, chain
      ensures Valid() && ret == 0 && View() == ListModel.Roll(old(View()))
    {
      hide InsertAt, RemoveAt;
      ghost var before := View();
      ret := SeekLast();
      if 0 > ret {
        return -1;
      }
      Apart(0);
      if current == head || current.prev == head {
        return 0;
      }
      ret := LastToFront(current);
      RotatedCells(before.cells);
    }

    method UnRoll() returns (ret: int)
      requires Valid()
      modifies this, chain
      ensures Valid() && ret == 0 && View() == ListModel.UnRoll(old(View()))
    {
      hide InsertAt, RemoveAt;
      ghost var before := View();
      ret := SeekFirst();
      if 0 > ret {
        return -1;
      }
      Apart(|chain| - 1);
      if current == tail || current.next == tail {
        return 0;
      }
      ret := FirstToBack(current);
      RotatedCells(before.cells);
    }

    // ----- counting and searching -----

    method Length() returns (num: int)
      requires Linked()
      ensures num == |chain| - 2
    {
      Apart(|chain| - 1);
      var node: Node? := head;
      num := -1;
      while node != tail
        invariant -1 <= num <= |chain| - 2 && node == chain[num + 1]
        decreases |chain| - num
      {
        node := node.next;
        num := num + 1;
      }
    }

    method GetByIndex(index: int) returns (data: Ptr)
      requires Valid()
      ensures data == if 0 <= index < |View().Items()| then View().Items()[index].data else Null
    {
      if index < 0 {
        return Null;
      }
      Apart(|chain| - 1);
      var node, num := head.next, 0;
      while node != tail
        invariant 0 <= num <= |chain| - 2 && num <= index && node == chain[num + 1]
        decreases |chain| - num
      {
        if num == index {
          return node.data;
        }
        num := num + 1;
        node := node.next;
      }
      return Null;
    }

    method Find(compare: Compare, value: Ptr) returns (data: Ptr)
      requires Valid()
      modifies this`current, this`pos
      ensures Valid() && (View(), data) == ListModel.Find(old(View()), compare, value)
    {
      if value == Null {
        return Null;
      }
      ghost var before := View();
      var moved := 0;
      while moved == 0
        invariant Valid()
        invariant moved == 0 ==> FindFrom(View(), compare, value) == FindFrom(before, compare, value)
        invariant moved != 0 ==> (View(), Null) == FindFrom(before, compare, value)
        decreases moved == 0, if pos == -1 then 0 else |chain| - pos
      {
        data := Get();
        if 0 == compare(data, value) {
          return data;
        }
        ghost var v := View();
        moved := Next();
        assert (View(), moved) == ListModel.Next(v);
      }
      return Null;
    }

    /** The search loop of `LL_Remove`: stops on the first item holding `data`. */
    method SeekData(data: Ptr) returns (found: bool)
      requires Valid()
      modifies this`current, this`pos
      ensures Valid() && Cells() == old(Cells())
      ensures var items := old(View()).Items();
              var k := FirstHolding(items, data);
              if k < |items| then found && pos == k + 1
              else pos == |items| && (found ==> items == [])
    {
      hide FirstHolding, ListModel.Next, ListModel.Get, Linked;
      ghost var cells, items := Cells(), View().Items();
      ghost var k := FirstHolding(items, data);
      var _ := Rewind();
      var moved := 0;
      while moved == 0
        invariant Valid() && Cells() == cells
        invariant 0 <= pos <= |items| && (pos == 0 ==> |items| == 0)
        invariant if moved == 0 then pos <= k + 1 else pos == k == |items|
        decreases moved == 0, |chain| - pos
      {
        var find := Get();
        assert |items| > 0 ==> cells[pos] == items[pos - 1];
        if find == data {
          return true;
        }
        moved := Next();
      }
      return false;
    }

    method Remove(data: Ptr) returns (removed: Ptr)
      requires Valid()
      modifies this, chain
      ensures Valid() && (View(), removed) == ListModel.Remove(old(View()), data)
    {
      var found := SeekData(data);
      if found {
        removed := DeleteNode();
      } else {
        removed := Null;
      }
    }

    /** The search loop of `LL_PriorityEnqueue`: stops on the last node that is
        not greater than `add`. */
    method SeekNotGreater(add: Ptr, compare: Compare) returns (found: bool)
      requires Valid()
      modifies this`current, this`pos
      ensures Valid() && Cells() == old(Cells()) && pos > 0
      ensures var items := Inner(Cells());
              var k := PriorityIndex(items, add, compare);
              if items == [] then pos == 1 else if found then pos == k else k == 0
    {
      hide PriorityIndex, ListModel.Prev, ListModel.Get, Linked;
      ghost var cells, items := Cells(), Inner(Cells());
      ghost var k := PriorityIndex(items, add, compare);
      ghost var top := if items == [] then 1 else |items|;
      var _ := End();
      var moved := 0;
      while moved == 0
        invariant Valid() && Cells() == cells
        invariant 0 < pos <= top
        invariant if moved == 0 then k <= pos else pos == 1 && k == 0
        decreases moved == 0, pos
      {
        var data := Get();
        if items != [] {
          assert cells[pos] == items[pos - 1];
          PriorityIndexAt(items, add, compare, pos);
        }
        if data != Null {
          var order := compare(add, data);
          if order >= 0 {
            return true;
          }
        }
        moved := Prev();
      }
      return false;
    }

    method PriorityEnqueue(add: Ptr, compare: Compare) returns (ret: int)
      requires Valid()
      modifies this, chain
      ensures Valid()
      ensures add == Null ==> ret == -1 && View() == old(View())
      ensures add != Null ==>
                && ret == 0 && current != null && fresh(current)
                && View() == ListModel.PriorityEnqueue(old(View()), Cell(current, add), compare)
    {
      if add == Null {
        return -1;
      }
      var found := SeekNotGreater(add, compare);
      if found {
        ret := AddNode(add);
      } else {
        // every item that holds data is greater
        ret := Unshift(add);
      }
    }

    // ----- reordering -----

    /** The swap on two different nodes; the cursor pointer is not touched. */
    method Exchange(one: Node, two: Node, ghost i: int, ghost j: int)
      requires Linked() && i != j
      requires 0 < i < |chain| - 1 && one == chain[i]
      requires 0 < j < |chain| - 1 && two == chain[j]
      modifies this`chain, chain`next, chain`prev
      ensures Linked() && chain == Swapped(old(chain), i, j)
    {
      hide Swapped, LinkedBothWays;
      BothWays(i);
      BothWays(j);
      Apart(i - 1); Apart(i); Apart(i + 1); Apart(j - 1); Apart(j); Apart(j + 1);
      SwappedAt(chain, i, j);
      SwapLinks(one, two);
      chain := Swapped(chain, i, j);
    }

    /** The same with what it means for the cells. */
    method ExchangeCells(one: Node, two: Node, ghost i: int, ghost j: int)
      requires Linked() && i != j
      requires 0 < i < |chain| - 1 && one == chain[i]
      requires 0 < j < |chain| - 1 && two == chain[j]
      modifies this`chain, chain`next, chain`prev
      ensures Linked() && chain == Swapped(old(chain), i, j)
      ensures Cells() == Swapped(old(Cells()), i, j)
    {
      hide Swapped, Linked;
      SwappedAt(chain, i, j);
      SwappedAt(Cells(), i, j);
      Exchange(one, two, i, j);
      assert Cells() == Swapped(old(Cells()), i, j);
    }

    /** Two nodes inside the list change places, next to each other or not. */
    method SwapNodes(one: Node?, two: Node?, ghost i: int, ghost j: int) returns (ret: int)
      requires Valid()
      requires one != null && two != null ==>
                 && 0 < i < |chain| - 1 && one == chain[i]
                 && 0 < j < |chain| - 1 && two == chain[j]
      modifies this`chain, this`pos, chain`next, chain`prev
      ensures Valid()
      ensures one == null || two == null ==> ret == -1 && View() == old(View())
      ensures one != null && two != null ==>
                && ret == 0 && View() == Swap(old(View()), i, j)
                && chain == Swapped(old(chain), i, j)
    {
      if one == null || two == null {
        return -1;
      }
      Apart(i);
      if one == two {
        assert Swapped(Cells(), i, j) == Cells() && Swapped(chain, i, j) == chain;
        return 0;
      }
      ExchangeCells(one, two, i, j);
      pos := if pos == i then j else if pos == j then i else pos;
      return 0;
    }

    /** The inner loop of `LL_Sort`: the greatest of the first i+1 items. */
    method SelectBest(last: Node, i: int, compare: Compare) returns (best: Node, ghost b: nat)
      requires Valid() && 0 < i < |chain| - 2 && last == chain[i + 1]
      modifies this`current, this`pos
      ensures Valid() && Cells() == old(Cells())
      ensures b == BestFrom(View().Items(), 0, i, i, compare) && best == chain[b + 1]
    {
      hide BestFrom, ListModel.Next, Linked;
      ghost var items := View().Items();
      var _ := Rewind();
      var j := 0;
      best, b := last, i;
      while j < i
        invariant Valid() && Cells() == old(Cells())
        invariant 0 <= j <= i && pos == j + 1
        invariant b <= i && best == chain[b + 1]
        invariant BestFrom(items, j, i, b, compare) == BestFrom(items, 0, i, i, compare)
      {
        var cur := current;
        assert items[j].data == cur.data && items[b].data == best.data;
        BestFromStep(items, j, i, b, compare);
        if compare(cur.data, best.data) > 0 {
          best, b := cur, j;
        }
        var _ := Next();
        j := j + 1;
      }
      BestFromStep(items, j, i, b, compare);
    }

    /** One pass of the outer loop of `LL_Sort`: what the rest of the sort will
        make of the list does not change. */
    method SortPass(last: Node, i: int, compare: Compare) returns (next: Node)
      requires Valid() && 0 < i < |chain| - 2 && last == chain[i + 1]
      modifies this, chain`next, chain`prev
      ensures Valid() && |chain| == old(|chain|) && next == chain[i]
      ensures SelectionSort(Inner(Cells()), i - 1, compare) == old(SelectionSort(Inner(Cells()), i, compare))
      ensures Cells()[0] == old(Cells()[0]) && Cells()[|chain| - 1] == old(Cells()[|chain| - 1])
      ensures forall k :: 0 <= k < |chain| ==> chain[k] in old(chain)
    {
      hide SelectionSort, BestFrom;
      ghost var cells, rest := Cells(), SelectionSort(Inner(Cells()), i, compare);
      SelectionRound(cells, i, compare);
      var best; ghost var b;
      best, b := SelectBest(last, i, compare);
      ghost var swapped := Swapped(cells, i + 1, b + 1);
      assert SelectionSort(Inner(swapped), i - 1, compare) == rest;
      var _ := SwapNodes(last, best, i + 1, b + 1);
      assert Cells() == swapped && best == chain[i + 1];
      next := best.prev;
    }

    /** The outer loop of `LL_Sort`. */
    method SortLoop(numnodes: int, tailmost: Node, compare: Compare)
      requires Valid() && 1 < numnodes == |chain| - 2 && tailmost == chain[numnodes]
      modifies this, chain
      ensures Valid() && |chain| == old(|chain|)
      ensures Inner(Cells()) == old(SelectionSort(Inner(Cells()), |chain| - 3, compare))
      ensures Cells()[0] == old(Cells()[0]) && Cells()[|chain| - 1] == old(Cells()[|chain| - 1])
    {
      hide SelectionSort;
      var last, i := tailmost, numnodes - 1;
      while i > 0
        invariant Valid() && 0 <= i < numnodes == |chain| - 2
        invariant last == chain[i + 1]
        invariant forall k :: 0 <= k < |chain| ==> chain[k] in old(chain)
        invariant Cells()[0] == old(Cells()[0]) && Cells()[numnodes + 1] == old(Cells()[numnodes + 1])
        invariant SelectionSort(Inner(Cells()), i, compare) == old(SelectionSort(Inner(Cells()), |chain| - 3, compare))
      {
        last := SortPass(last, i, compare);
        i := i - 1;
      }
      SelectionDone(Inner(Cells()), compare);
    }

    method Sort(compare: Compare) returns (ret: int)
      requires Valid()
      modifies this, chain
      ensures Valid() && ret == 0 && View() == ListModel.Sort(old(View()), compare)
      ensures multiset(View().Items()) == multiset(old(View()).Items())
      ensures SortLaws.TotalPreorder(compare) ==> SortLaws.Sorted(View().Items(), compare)
    {
      hide SortLaws.TotalPreorder, SortLaws.Sorted, SelectionSort, ListModel.Sort;
      ghost var before := View();
      SortLaws.SortSorts(before, compare);
      ret := SortInPlace(compare);
    }

    method SortInPlace(compare: Compare) returns (ret: int)
      requires Valid()
      modifies this, chain
      ensures Valid() && ret == 0 && View() == ListModel.Sort(old(View()), compare)
    {
      hide SelectionSort, ListModel.Sort;
      ghost var before := View();
      var numnodes := Length();
      var r := End();
      if 0 > r {
        return -1;
      }
      var last := current;
      if numnodes < 2 {
        SortShort(before, compare);
        return 0;
      }
      SortLoop(numnodes, last, compare);
      var _ := Rewind();
      SortFinished(before, compare, Cells());
      return 0;
    }
  }

  /** The node before another, and the one behind it, where there are any. */
  ghost function Before(n: Node): set<Node>
    reads n
  {
    if n.prev == null then {} else {n.prev}
  }

  ghost function Behind(n: Node): set<Node>
    reads n
  {
    if n.next == null then {} else {n.next}
  }

  /** The links around a node of a list; either end of the list may be near. */
  ghost predicate LinkedBothWays(n: Node)
    reads n, Before(n), Behind(n)
  {
    && n.next != n && n.prev != n && (n.next == null || n.next != n.prev)
    && (n.next != null ==> n.next.prev == n)
    && (n.prev != null ==> n.prev.next == n)
  }

  /** The pointer surgery of `LL_SwapNodes`: what every link reads afterwards.
      Like the original it tests `secondprev` in front of `secondnext`, so the
      second node must not be the last one unless nothing stands before it, and
      when nothing does, the node behind it keeps its link back. */
  method SwapLinks(one: Node, two: Node)
    requires one != two && LinkedBothWays(one) && LinkedBothWays(two)
    requires two.prev != null ==> two.next != null
    modifies one`next, one`prev, two`next, two`prev
    modifies Before(one)`next, Behind(one)`prev, Before(two)`next, Behind(two)`prev
    ensures one.next == if old(two.next) == one then two else old(two.next)
    ensures one.prev == if old(two.prev) == one then two else old(two.prev)
    ensures two.next == if old(one.next) == two then one else old(one.next)
    ensures two.prev == if old(one.prev) == two then one else old(one.prev)
    ensures old(one.prev) != null && old(one.prev) != two ==> old(one.prev).next == two
    ensures old(one.next) != null && old(one.next) != two ==> old(one.next).prev == two
    ensures old(two.prev) != null && old(two.prev) != one ==> old(two.prev).next == one
    ensures old(two.next) != null && old(two.next) != one ==>
              old(two.next).prev == if old(two.prev) == null then two else one
  {
    var firstprev, firstnext := one.prev, one.next;
    var secondprev, secondnext := two.prev, two.next;
    if firstprev != null {
      firstprev.next := two;
    }
    if firstnext != null {
      firstnext.prev := two;
    }
    if secondprev != null {
      secondprev.next := one;
    }
    if secondprev != null {
      secondnext.prev := one;
    }
    one.next := secondnext;
    one.prev := secondprev;
    two.next := firstnext;
    two.prev := firstprev;
    if firstnext == two {
      one.prev := two;
    }
    if firstprev == two {
      one.next := two;
    }
    if secondprev == one {
      two.next := one;
    }
    if secondnext == one {
      two.prev := one;
    }
  }
}
