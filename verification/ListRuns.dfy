/** The run theorems on the linked structure itself: a list object is driven by any
    sequence of operations and answers as a priority queue, or a deque, does. The
    nodes are made by the list, so the operations given and the reference carry
    labels of their own in place of nodes. */
module ListRuns {
  import opened LinkedLists
  import opened ListModel
  import opened ListLaws
  import opened PriorityQueue
  import opened SortLaws

  // ----- labels do not matter -----

  /** The same data in the same places. */
  ghost predicate SameData<M, N>(a: seq<Cell<M>>, b: seq<Cell<N>>) {
    |a| == |b| && forall i :: 0 <= i < |a| ==> a[i].data == b[i].data
  }

  lemma {:induction false} FirstLeastByData<M, N>(a: seq<Cell<M>>, b: seq<Cell<N>>, compare: Compare)
    requires SameData(a, b) && a != []
    ensures FirstLeast(a, compare) == FirstLeast(b, compare)
  {
    var n := |a| - 1;
    if n > 0 {
      FirstLeastByData(a[..n], b[..n], compare);
    }
  }

  lemma RemoveAtByData<M, N>(a: seq<Cell<M>>, b: seq<Cell<N>>, k: nat)
    requires SameData(a, b) && k < |a|
    ensures SameData(RemoveAt(a, k), RemoveAt(b, k))
  {
    hide RemoveAt;
  }

  /** An operation on the reference, with a node or with a label. */
  lemma ReferenceByData<M, N>(a: seq<Cell<M>>, b: seq<Cell<N>>, f: QueueOp<M>, g: QueueOp<N>, compare: Compare)
    requires SameData(a, b)
    requires match f case Enqueue(cell) => g.Enqueue? && g.cell.data == cell.data case Dequeue => g.Dequeue?
    ensures var (c, out0) := ReferenceStep(a, f, compare); var (d, out1) := ReferenceStep(b, g, compare);
            SameData(c, d) && out0 == out1
  {
    if f.Dequeue? && a != [] {
      FirstLeastByData(a, b, compare);
      RemoveAtByData(a, b, FirstLeast(a, compare));
    }
    hide FirstLeast, RemoveAt;
  }

  /** The same for the deque. */
  lemma DequeByData<M, N>(a: seq<Cell<M>>, b: seq<Cell<N>>, f: Op<M>, g: Op<N>)
    requires SameData(a, b) && SameDequeOp(f, g)
    ensures var (c, out0) := DequeStep(a, f); var (d, out1) := DequeStep(b, g);
            SameData(c, d) && out0 == out1
  {
    SamePieces(a, b);
    hide SameData;
    match f {
      case DoPush(cell) => SameAppended(a, b, cell, g.cell);
      case DoUnshift(cell) => SameAppended(a, b, cell, g.cell);
      case _ =>
    }
  }

  lemma SamePieces<M, N>(a: seq<Cell<M>>, b: seq<Cell<N>>)
    requires SameData(a, b)
    ensures |a| == |b|
    ensures var n := |a| - 1;
            n >= 0 ==>
              && a[0].data == b[0].data && a[n].data == b[n].data
              && SameData(a[..n], b[..n]) && SameData(a[1..], b[1..])
              && SameData([a[n]] + a[..n], [b[n]] + b[..n]) && SameData(a[1..] + [a[0]], b[1..] + [b[0]])
  {
  }

  lemma SameAppended<M, N>(a: seq<Cell<M>>, b: seq<Cell<N>>, x: Cell<M>, y: Cell<N>)
    requires SameData(a, b) && x.data == y.data
    ensures SameData(a + [x], b + [y]) && SameData([x] + a, [y] + b)
  {
  }

  predicate SameDequeOp<M, N>(f: Op<M>, g: Op<N>) {
    match f
    case DoPush(cell) => g.DoPush? && g.cell.data == cell.data
    case DoUnshift(cell) => g.DoUnshift? && g.cell.data == cell.data
    case DoPop => g.DoPop?
    case DoShift => g.DoShift?
    case DoRoll => g.DoRoll?
    case DoUnRoll => g.DoUnRoll?
    case DoRewind => g.DoRewind?
    case DoEnd => g.DoEnd?
    case DoNext => g.DoNext?
    case DoPrev => g.DoPrev?
    case _ => false
  }

  // ----- which nodes a list consists of -----

  ghost predicate NodesIn<N>(v: View<N>, nodes: set<N>) {
    forall i :: 0 <= i < |v.cells| ==> v.cells[i].node in nodes
  }

  lemma InsertNodes<N>(v: View<N>, k: nat, pos: int, cell: Cell<N>, nodes: set<N>)
    requires k <= |v.cells| && NodesIn(v, nodes)
    ensures NodesIn(View(InsertAt(v.cells, k, cell), pos), nodes + {cell.node})
  {
    hide InsertAt;
  }

  lemma RemoveNodes<N>(v: View<N>, k: nat, pos: int, nodes: set<N>)
    requires k < |v.cells| && NodesIn(v, nodes)
    ensures NodesIn(View(RemoveAt(v.cells, k), pos), nodes)
  {
    hide RemoveAt;
  }

  lemma AddNodes<N>(v: View<N>, cell: Cell<N>, nodes: set<N>)
    requires v.WellFormed() && v.pos != -1 && NodesIn(v, nodes)
    ensures NodesIn(Add(v, cell), nodes + {cell.node})
    ensures NodesIn(Insert(v, cell), nodes + {cell.node})
  {
    hide InsertAt;
    InsertNodes(v, Add(v, cell).pos, Add(v, cell).pos, cell, nodes);
    InsertNodes(v, Insert(v, cell).pos, Insert(v, cell).pos, cell, nodes);
  }

  lemma DeleteNodes<N>(v: View<N>, nodes: set<N>)
    requires v.WellFormed() && NodesIn(v, nodes)
    ensures NodesIn(Delete(v).0, nodes)
  {
    if v.AtItem() {
      RemoveNodes(v, v.pos, v.pos, nodes);
    }
  }

  lemma PushNodes<N>(v: View<N>, cell: Cell<N>, nodes: set<N>)
    requires v.WellFormed() && NodesIn(v, nodes) && cell.data != Null
    ensures NodesIn(Push(v, cell), nodes + {cell.node})
    ensures NodesIn(Unshift(v, cell), nodes + {cell.node})
  {
    AddNodes(End(v), cell, nodes);
    AddNodes(Rewind(v), cell, nodes);
    hide Add, Insert;
  }

  lemma PopNodes<N>(v: View<N>, nodes: set<N>)
    requires v.WellFormed() && NodesIn(v, nodes)
    ensures NodesIn(Pop(v).0, nodes) && NodesIn(Shift(v).0, nodes)
  {
    DeleteNodes(End(v), nodes);
    DeleteNodes(Rewind(v), nodes);
    hide Delete;
  }

  lemma RollNodes<N>(v: View<N>, nodes: set<N>)
    requires v.WellFormed() && NodesIn(v, nodes)
    ensures NodesIn(Roll(v), nodes) && NodesIn(UnRoll(v), nodes)
  {
  }

  lemma MoveNodes<N>(v: View<N>, nodes: set<N>)
    requires v.WellFormed() && NodesIn(v, nodes)
    ensures NodesIn(Rewind(v), nodes) && NodesIn(End(v), nodes)
    ensures NodesIn(Next(v).0, nodes) && NodesIn(Prev(v).0, nodes)
  {
  }

  lemma PriorityEnqueueNodes<N>(v: View<N>, cell: Cell<N>, compare: Compare, nodes: set<N>)
    requires v.WellFormed() && NodesIn(v, nodes) && cell.data != Null
    ensures NodesIn(PriorityEnqueue(v, cell, compare), nodes + {cell.node})
  {
    var k := PriorityIndex(v.Items(), cell.data, compare);
    InsertNodes(v, k + 1, k + 1, cell, nodes);
  }

  // ----- the priority queue -----

  /** One operation on the list; `nodes` are those it consists of. */
  method QueueStep(list: LinkedList, op: QueueOp<int>, compare: Compare, ghost nodes: set<Node>)
    returns (out: seq<Ptr>, ghost made: QueueOp<Node>, ghost after: set<Node>)
    requires list.Valid() && NodesIn(list.View(), nodes)
    modifies list, nodes
    ensures list.Valid() && NodesIn(list.View(), after) && fresh(after - nodes)
    ensures match op case Enqueue(cell) => made.Enqueue? && made.cell.data == cell.data case Dequeue => made.Dequeue?
    ensures (list.View(), out) == ListStep(old(list.View()), made, compare)
  {
    hide ListModel.PriorityEnqueue, ListModel.Shift, ListModel.Add, LinkedList.Linked;
    ghost var v := list.View();
    after := nodes;
    Within(list, nodes);
    match op
    case Enqueue(cell) =>
      var ret := list.PriorityEnqueue(cell.data, compare);
      out := [];
      if cell.data == Null {
        made := Enqueue(Cell(list.head, Null));
        NullRefused(v, list.head, compare);
      } else {
        made := Enqueue(Cell(list.current, cell.data));
        after := nodes + {list.current};
        PriorityEnqueueNodes(v, made.cell, compare, nodes);
      }
    case Dequeue =>
      var data := list.Shift();
      out, made := [data], Dequeue;
      PopNodes(v, nodes);
  }

  lemma NullRefused<N>(v: View<N>, node: N, compare: Compare)
    requires v.WellFormed()
    ensures PriorityEnqueue(v, Cell(node, Null), compare) == v
  {
  }

  /** The objects of a list are among its nodes. */
  lemma Within(list: LinkedList, nodes: set<Node>)
    requires NodesIn(list.View(), nodes)
    ensures forall i :: 0 <= i < |list.chain| ==> list.chain[i] in nodes
  {
    var cells := list.Cells();
    forall i | 0 <= i < |list.chain| ensures list.chain[i] in nodes {
      assert cells[i].node == list.chain[i];
    }
  }

  /** A new list under any sequence of `LL_PriorityEnqueue` and `LL_Dequeue` returns
      what the reference returns: each dequeue a least element, and among equal
      ones the first to have been enqueued. */
  method RunQueue(ops: seq<QueueOp<int>>, compare: Compare) returns (outs: seq<Ptr>)
    requires TotalPreorder(compare)
    ensures outs == ReferenceRun([], ops, compare).1
  {
    hide TotalPreorder, Represents, ReferenceStep, ListStep, SameData, NodesIn;
    var list := new LinkedList();
    ghost var nodes := {list.head, list.tail};
    ghost var waiting: seq<Cell<Node>>, labelled: seq<Cell<int>> := [], [];
    Empty(list.View(), nodes, compare);
    outs := [];
    var i := 0;
    while i < |ops|
      invariant 0 <= i <= |ops|
      invariant fresh(list) && fresh(nodes) && list.Valid() && NodesIn(list.View(), nodes)
      invariant Represents(list.View(), waiting, compare) && SameData(waiting, labelled)
      invariant ReferenceRun([], ops, compare).1 == outs + ReferenceRun(labelled, ops[i..], compare).1
    {
      ghost var v := list.View();
      var out;
      ghost var made;
      out, made, nodes := QueueStep(list, ops[i], compare, nodes);
      StepRepresents(v, waiting, made, compare);
      ReferenceByData(waiting, labelled, made, ops[i], compare);
      ReferenceUnfolds(labelled, ops[i..], compare);
      assert ops[i..][0] == ops[i] && ops[i..][1..] == ops[i + 1..];
      waiting, labelled := ReferenceStep(waiting, made, compare).0, ReferenceStep(labelled, ops[i], compare).0;
      outs := outs + out;
      i := i + 1;
    }
    assert ops[i..] == [];
  }

  lemma Empty(v: View<Node>, nodes: set<Node>, compare: Compare)
    requires v.WellFormed() && |v.cells| == 2 && v.cells[0].node in nodes && v.cells[1].node in nodes
    ensures NodesIn(v, nodes) && Represents(v, [], compare) && SameData<Node, int>([], [])
  {
  }

  lemma ReferenceUnfolds<N>(waiting: seq<Cell<N>>, ops: seq<QueueOp<N>>, compare: Compare)
    requires ops != []
    ensures var (next, out) := ReferenceStep(waiting, ops[0], compare);
            ReferenceRun(waiting, ops, compare).1 == out + ReferenceRun(next, ops[1..], compare).1
  {
  }

  // ----- the deque -----

  /** A push at the end, or at the front. */
  method PushOn(list: LinkedList, data: Ptr, front: bool, ghost nodes: set<Node>)
    returns (ghost cell: Cell<Node>, ghost after: set<Node>)
    requires list.Valid() && NodesIn(list.View(), nodes)
    modifies list, nodes
    ensures list.Valid() && NodesIn(list.View(), after) && fresh(after - nodes) && cell.data == data
    ensures list.View() == if front then Unshift(old(list.View()), cell) else Push(old(list.View()), cell)
  {
    hide ListModel.Push, ListModel.Unshift, NodesIn, LinkedList.Linked;
    ghost var v := list.View();
    Within(list, nodes);
    var ret := 0;
    if front {
      ret := list.Unshift(data);
    } else {
      ret := list.Push(data);
    }
    if data == Null {
      cell, after := Cell(list.head, Null), nodes;
      PushRefused(v, list.head);
    } else {
      cell, after := Cell(list.current, data), nodes + {list.current};
      PushNodes(v, cell, nodes);
    }
  }

  /** A rotation or a cursor move. */
  method TurnOn(list: LinkedList, op: Op<int>, ghost nodes: set<Node>) returns (ghost made: Op<Node>)
    requires list.Valid() && NodesIn(list.View(), nodes)
    requires op.DoRoll? || op.DoUnRoll? || op.DoRewind? || op.DoEnd? || op.DoNext? || op.DoPrev?
    modifies list, nodes
    ensures list.Valid() && NodesIn(list.View(), nodes)
    ensures SameDequeOp(made, op) && IsDequeOp(made)
    ensures (list.View(), Null) == Step(old(list.View()), made)
  {
    hide ListModel.Roll, ListModel.UnRoll, ListModel.Next, ListModel.Prev, NodesIn, LinkedList.Linked;
    Within(list, nodes);
    MoveNodes(list.View(), nodes);
    RollNodes(list.View(), nodes);
    match op
    case DoRoll => var ret := list.Roll(); made := DoRoll;
    case DoUnRoll => var ret := list.UnRoll(); made := DoUnRoll;
    case DoRewind => var ret := list.Rewind(); made := DoRewind;
    case DoEnd => var ret := list.End(); made := DoEnd;
    case DoNext => var ret := list.Next(); made := DoNext;
    case DoPrev => var ret := list.Prev(); made := DoPrev;
  }

  /** One deque operation or cursor move on the list. */
  method DequeStepOn(list: LinkedList, op: Op<int>, ghost nodes: set<Node>)
    returns (out: Ptr, ghost made: Op<Node>, ghost after: set<Node>)
    requires list.Valid() && NodesIn(list.View(), nodes) && IsDequeOp(op)
    modifies list, nodes
    ensures list.Valid() && NodesIn(list.View(), after) && fresh(after - nodes)
    ensures SameDequeOp(made, op) && IsDequeOp(made)
    ensures (list.View(), out) == Step(old(list.View()), made)
  {
    hide ListModel.Push, ListModel.Unshift, ListModel.Pop, ListModel.Shift, ListModel.Roll, ListModel.UnRoll;
    hide ListModel.Next, ListModel.Prev, NodesIn, LinkedList.Linked;
    after, out := nodes, Null;
    Within(list, nodes);
    PopNodes(list.View(), nodes);
    ghost var cell;
    if op.DoPush? {
      cell, after := PushOn(list, op.cell.data, false, nodes);
      made := DoPush(cell);
    } else if op.DoUnshift? {
      cell, after := PushOn(list, op.cell.data, true, nodes);
      made := DoUnshift(cell);
    } else if op.DoPop? {
      out := list.Pop();
      made := DoPop;
    } else if op.DoShift? {
      out := list.Shift();
      made := DoShift;
    } else {
      made := TurnOn(list, op, nodes);
    }
  }

  lemma PushRefused<N>(v: View<N>, node: N)
    requires v.WellFormed()
    ensures Push(v, Cell(node, Null)) == v && Unshift(v, Cell(node, Null)) == v
  {
  }

  /** A new list under any sequence of pushes, pops, shifts, unshifts, rotations and
      cursor moves returns what a deque returns. */
  method RunDeque(ops: seq<Op<int>>) returns (outs: seq<Ptr>)
    requires forall i :: 0 <= i < |ops| ==> IsDequeOp(ops[i])
    ensures outs == DequeRun([], ops).1
  {
    hide DequeStep, Step, SameData, NodesIn, IsDequeOp, SameDequeOp;
    var list := new LinkedList();
    ghost var nodes := {list.head, list.tail};
    ghost var labelled: seq<Cell<int>> := [];
    Empty(list.View(), nodes, (x, y) => 0);
    outs := [];
    var i := 0;
    while i < |ops|
      invariant 0 <= i <= |ops|
      invariant fresh(list) && fresh(nodes) && list.Valid() && NodesIn(list.View(), nodes)
      invariant SameData(Inner(list.Cells()), labelled)
      invariant DequeRun([], ops).1 == outs + DequeRun(labelled, ops[i..]).1
    {
      ghost var v := list.View();
      var out;
      ghost var made;
      out, made, nodes := DequeStepOn(list, ops[i], nodes);
      StepIsDequeStep(v, made);
      DequeByData(v.Items(), labelled, made, ops[i]);
      DequeUnfolds(labelled, ops[i..]);
      assert ops[i..][0] == ops[i] && ops[i..][1..] == ops[i + 1..];
      labelled := DequeStep(labelled, ops[i]).0;
      outs := outs + [out];
      i := i + 1;
    }
    assert ops[i..] == [];
  }

  lemma DequeUnfolds<N>(items: seq<Cell<N>>, ops: seq<Op<N>>)
    requires ops != []
    ensures var (next, data) := DequeStep(items, ops[0]);
            DequeRun(items, ops).1 == [data] + DequeRun(next, ops[1..]).1
  {
  }
}
