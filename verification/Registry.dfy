/** Registering and unregistering of clients in src/servicethread.c under every
    interleaving of the module threads. */
module Registry {
  import opened Sequences

  /** How far a module thread has come. Each arrow is one atomic step:
      Start -> Checked (g_exit read as false) -> Inserted (tables written) -> Counted
      (counter incremented) -> Leaving (g_exit read as false) -> Removed (tables
      written) -> Gone (counter decremented). A thread that reads g_exit as true
      when it registers is Refused, and one that does when it unregisters Stays. */
  datatype Pc = Start | Checked | Inserted | Counted | Leaving | Removed | Gone | Refused | Stays

  /** `table` maps the registered names to the threads that registered them. */
  datatype State = State(pcs: seq<Pc>, table: map<string, nat>, count: int, exit: bool)

  /** A thread takes its next step, or a signal sets g_exit. */
  datatype Action = Advance(thread: nat) | Signal

  predicate InTable(pc: Pc) {
    pc == Inserted || pc == Counted || pc == Leaving || pc == Stays
  }

  /** The threads whose increment has happened and whose decrement has not. */
  predicate IsCounted(pc: Pc) {
    pc == Counted || pc == Leaving || pc == Removed || pc == Stays
  }

  function Step(names: seq<string>, s: State, a: Action): State
    requires |names| == |s.pcs|
  {
    match a
    case Signal => s.(exit := true)
    case Advance(i) =>
      if i >= |s.pcs| then s
      else match s.pcs[i]
        case Start => s.(pcs := s.pcs[i := if s.exit then Refused else Checked])
        case Checked => s.(pcs := s.pcs[i := Inserted], table := s.table[names[i] := i])
        case Inserted => s.(pcs := s.pcs[i := Counted], count := s.count + 1)
        case Counted => s.(pcs := s.pcs[i := if s.exit then Stays else Leaving])
        case Refused => if s.exit then s else s.(pcs := s.pcs[i := Leaving])
        case Leaving => s.(pcs := s.pcs[i := Removed], table := s.table - {names[i]})
        case Removed => s.(pcs := s.pcs[i := Gone], count := s.count - 1, exit := s.exit || s.count - 1 == 0)
        case Gone => s
        case Stays => s
  }

  function Initial(threads: nat): State {
    State(seq(threads, i => Start), map[], 0, false)
  }

  function Run(names: seq<string>, actions: seq<Action>): (s: State)
    ensures |s.pcs| == |names|
  {
    if actions == [] then Initial(|names|)
    else Step(names, Run(names, actions[..|actions| - 1]), actions[|actions| - 1])
  }

  predicate Distinct(names: seq<string>) {
    forall i, j :: 0 <= i < j < |names| ==> names[i] != names[j]
  }

  // ----- counting threads -----

  lemma {:induction false} CountedSplit(pcs: seq<Pc>)
    ensures CountWhere(pcs, IsCounted) ==
            CountWhere(pcs, InTable) - CountWhere(pcs, pc => pc == Inserted) + CountWhere(pcs, pc => pc == Removed)
  {
    if pcs != [] {
      CountedSplit(pcs[..|pcs| - 1]);
    }
  }

  // ----- the invariant -----

  /** The table holds the threads that have inserted and not removed themselves. */
  ghost predicate TableOk(names: seq<string>, s: State) {
    && |s.pcs| == |names|
    && (forall name :: name in s.table ==> s.table[name] < |names| && names[s.table[name]] == name)
    && (forall i :: 0 <= i < |names| ==> (InTable(s.pcs[i]) <==> names[i] in s.table))
  }

  ghost predicate CountsOk(s: State) {
    && |s.table| == CountWhere(s.pcs, InTable)
    && s.count == CountWhere(s.pcs, IsCounted)
  }

  /** g_exit, once seen, stays set. */
  ghost predicate ExitOk(s: State) {
    forall i :: 0 <= i < |s.pcs| && (s.pcs[i] == Refused || s.pcs[i] == Stays) ==> s.exit
  }

  ghost predicate Invariant(names: seq<string>, s: State) {
    TableOk(names, s) && CountsOk(s) && ExitOk(s)
  }

  lemma InitialInvariant(names: seq<string>)
    ensures Invariant(names, Initial(|names|))
  {
    var pcs := Initial(|names|).pcs;
    CountWhereNone(pcs, InTable);
    CountWhereNone(pcs, IsCounted);
  }

  /** What a step does to everything but the table. */
  lemma StepCount(names: seq<string>, s: State, i: nat)
    requires i < |names| == |s.pcs| && ExitOk(s)
    ensures var t := Step(names, s, Advance(i));
            && t.pcs == s.pcs[i := t.pcs[i]]
            && t.count == s.count - (if IsCounted(s.pcs[i]) then 1 else 0) + (if IsCounted(t.pcs[i]) then 1 else 0)
            && ExitOk(t)
  {
  }

  /** The table follows the program counter of the thread that has moved. */
  ghost predicate TableFollows(name: string, i: nat, before: map<string, nat>, was: Pc,
                               after: map<string, nat>, now: Pc) {
    && after == (if InTable(now) then before[name := i] else before - {name})
    && |after| == |before| - (if InTable(was) then 1 else 0) + (if InTable(now) then 1 else 0)
  }

  lemma InsertFollows(name: string, i: nat, table: map<string, nat>)
    requires name !in table
    ensures TableFollows(name, i, table, Checked, table[name := i], Inserted)
  {
    assert table[name := i].Keys == table.Keys + {name};
  }

  lemma RemoveFollows(name: string, i: nat, table: map<string, nat>)
    requires name in table
    ensures TableFollows(name, i, table, Leaving, table - {name}, Removed)
  {
    assert (table - {name}).Keys == table.Keys - {name};
  }

  lemma OtherFollows(name: string, i: nat, table: map<string, nat>, was: Pc, now: Pc)
    requires InTable(was) == InTable(now)
    requires if InTable(was) then name in table && table[name] == i else name !in table
    ensures TableFollows(name, i, table, was, table, now)
  {
    if InTable(was) {
      assert table[name := i] == table;
    } else {
      assert table - {name} == table;
    }
  }

  lemma OwnEntry(names: seq<string>, s: State, i: nat)
    requires Distinct(names) && TableOk(names, s) && i < |names|
    ensures if InTable(s.pcs[i]) then names[i] in s.table && s.table[names[i]] == i else names[i] !in s.table
  {
  }

  lemma StepWrites(names: seq<string>, s: State, i: nat)
    requires i < |names| == |s.pcs| && ExitOk(s)
    ensures var t := Step(names, s, Advance(i)); var was, now := s.pcs[i], t.pcs[i];
            match was
            case Checked => now == Inserted && t.table == s.table[names[i] := i]
            case Leaving => now == Removed && t.table == s.table - {names[i]}
            case _ => t.table == s.table && InTable(was) == InTable(now)
  {
  }

  /** What a step does to the table. */
  lemma StepTable(names: seq<string>, s: State, i: nat)
    requires Distinct(names) && TableOk(names, s) && i < |names| && ExitOk(s)
    ensures var t := Step(names, s, Advance(i));
            TableFollows(names[i], i, s.table, s.pcs[i], t.table, t.pcs[i])
  {
    OwnEntry(names, s, i);
    StepWrites(names, s, i);
    hide TableFollows, Distinct, TableOk, Step, ExitOk;
    var name, pc, table := names[i], s.pcs[i], s.table;
    if pc == Checked {
      InsertFollows(name, i, table);
    } else if pc == Leaving {
      RemoveFollows(name, i, table);
    } else {
      OtherFollows(name, i, table, pc, Step(names, s, Advance(i)).pcs[i]);
    }
  }

  lemma StepTableOk(names: seq<string>, s: State, i: nat, t: State)
    requires Distinct(names) && TableOk(names, s) && i < |names|
    requires |t.pcs| == |s.pcs| && t.pcs == s.pcs[i := t.pcs[i]]
    requires t.table == if InTable(t.pcs[i]) then s.table[names[i] := i] else s.table - {names[i]}
    ensures TableOk(names, t)
  {
    forall j | 0 <= j < |names| ensures InTable(t.pcs[j]) <==> names[j] in t.table {
      if j != i { assert names[j] != names[i]; }
    }
  }

  lemma StepCountsOk(s: State, i: nat, t: State)
    requires i < |s.pcs| == |t.pcs| && CountsOk(s)
    requires t.pcs == s.pcs[i := t.pcs[i]]
    requires t.count == s.count - (if IsCounted(s.pcs[i]) then 1 else 0) + (if IsCounted(t.pcs[i]) then 1 else 0)
    requires |t.table| == |s.table| - (if InTable(s.pcs[i]) then 1 else 0) + (if InTable(t.pcs[i]) then 1 else 0)
    ensures CountsOk(t)
  {
    CountWhereUpdate(s.pcs, i, t.pcs[i], InTable);
    CountWhereUpdate(s.pcs, i, t.pcs[i], IsCounted);
  }

  lemma StepInvariant(names: seq<string>, s: State, a: Action)
    requires Distinct(names) && Invariant(names, s)
    ensures Invariant(names, Step(names, s, a))
  {
    match a
    case Signal =>
    case Advance(i) =>
      if i < |s.pcs| {
        AdvanceInvariant(names, s, i);
      }
  }

  lemma AdvanceInvariant(names: seq<string>, s: State, i: nat)
    requires Distinct(names) && Invariant(names, s) && i < |names|
    ensures Invariant(names, Step(names, s, Advance(i)))
  {
    var t := Step(names, s, Advance(i));
    StepCount(names, s, i);
    StepTable(names, s, i);
    hide Distinct, CountsOk, Step, ExitOk, InTable, IsCounted;
    StepTableOk(names, s, i, t);
    StepCountsOk(s, i, t);
  }

  lemma {:induction false} RunInvariant(names: seq<string>, actions: seq<Action>)
    requires Distinct(names)
    ensures Invariant(names, Run(names, actions))
  {
    if actions == [] {
      InitialInvariant(names);
    } else {
      var n := |actions| - 1;
      RunInvariant(names, actions[..n]);
      StepInvariant(names, Run(names, actions[..n]), actions[n]);
    }
  }

  /** Under every interleaving the counter is the number of registered clients,
      less those between insertion and increment, plus those between removal and
      decrement. */
  lemma CounterLaw(names: seq<string>, actions: seq<Action>)
    requires Distinct(names)
    ensures var s := Run(names, actions);
            && s.count == |s.table| - CountWhere(s.pcs, pc => pc == Inserted) + CountWhere(s.pcs, pc => pc == Removed)
            && s.count >= 0
  {
    RunInvariant(names, actions);
    CountedSplit(Run(names, actions).pcs);
  }

  /** When a decrement makes the program exit, every client still in the table is
      in the middle of registering and no other removal is under way. */
  lemma ExitWhenLastLeaves(names: seq<string>, actions: seq<Action>, i: nat)
    requires Distinct(names) && i < |names|
    requires var s := Run(names, actions);
             s.pcs[i] == Removed && !s.exit && Step(names, s, Advance(i)).exit
    ensures var t := Run(names, actions + [Advance(i)]);
            && (forall name :: name in t.table ==> t.table[name] < |t.pcs| && t.pcs[t.table[name]] == Inserted)
            && (forall j :: 0 <= j < |names| ==> t.pcs[j] != Removed)
  {
    var next := actions + [Advance(i)];
    assert next[..|actions|] == actions;
    RunInvariant(names, next);
    var t := Run(names, next);
    assert t.count == 0;
    CountWhereNone(t.pcs, IsCounted);
    forall name | name in t.table ensures t.table[name] < |t.pcs| && t.pcs[t.table[name]] == Inserted {
      assert InTable(t.pcs[t.table[name]]) && !IsCounted(t.pcs[t.table[name]]);
    }
  }

  /** A decrement makes the program exit exactly when it leaves no thread behind
      that has been counted and has not taken itself off the count. */
  lemma DecrementExitsIff(names: seq<string>, actions: seq<Action>, i: nat)
    requires Distinct(names) && i < |names|
    requires Run(names, actions).pcs[i] == Removed && !Run(names, actions).exit
    ensures var s := Run(names, actions);
            Step(names, s, Advance(i)).exit <==> forall j :: 0 <= j < |names| && j != i ==> !IsCounted(s.pcs[j])
  {
    hide Run, Invariant;
    var s := Run(names, actions);
    RunInvariant(names, actions);
    StepInvariant(names, s, Advance(i));
    DecrementStep(names, s, i);
  }

  lemma DecrementStep(names: seq<string>, s: State, i: nat)
    requires i < |names| == |s.pcs| && s.pcs[i] == Removed && !s.exit
    requires Invariant(names, Step(names, s, Advance(i)))
    ensures Step(names, s, Advance(i)).exit <==> forall j :: 0 <= j < |names| && j != i ==> !IsCounted(s.pcs[j])
  {
    var t := Step(names, s, Advance(i));
    CountWhereNone(t.pcs, IsCounted);
    hide Step, TableOk, ExitOk, CountWhere;
    assert t.count == s.count - 1 && t.exit == (s.count - 1 == 0) && t.pcs == s.pcs[i := Gone] by {
      GoneNow(names, s, i);
    }
    assert forall j :: 0 <= j < |names| && j != i ==> t.pcs[j] == s.pcs[j];
  }

  lemma GoneNow(names: seq<string>, s: State, i: nat)
    requires i < |names| == |s.pcs| && s.pcs[i] == Removed && !s.exit
    ensures var t := Step(names, s, Advance(i));
            t.count == s.count - 1 && t.exit == (s.count - 1 == 0) && t.pcs == s.pcs[i := Gone]
  {
  }

  /** A thread that was refused never takes a client out of the table: once set,
      g_exit stays set. */
  lemma {:induction false} RefusedStaysOut(names: seq<string>, actions: seq<Action>, later: seq<Action>, i: nat)
    requires Distinct(names) && i < |names| && Run(names, actions).pcs[i] == Refused
    ensures Run(names, actions + later).pcs[i] == Refused && Run(names, actions + later).exit
    decreases |later|
  {
    if later == [] {
      assert actions + later == actions;
      RunInvariant(names, actions);
    } else {
      var n := |later| - 1;
      RefusedStaysOut(names, actions, later[..n], i);
      assert (actions + later)[..|actions| + n] == actions + later[..n];
    }
  }

  // ----- that threads get on -----

  function Steps(names: seq<string>, s: State, actions: seq<Action>): (t: State)
    requires |names| == |s.pcs|
    ensures |t.pcs| == |names|
  {
    if actions == [] then s
    else Step(names, Steps(names, s, actions[..|actions| - 1]), actions[|actions| - 1])
  }

  /** A thread that is left alone and not told to exit registers in three steps: its
      client is in the table, under its own name, and counted. */
  lemma ThreadRegisters(names: seq<string>, s: State, i: nat)
    requires i < |names| == |s.pcs| && s.pcs[i] == Start && !s.exit
    ensures var a := Advance(i); var t := Steps(names, s, [a, a, a]);
            t == State(s.pcs[i := Counted], s.table[names[i] := i], s.count + 1, false)
  {
    var a := Advance(i);
    ThreeSteps(names, s, a);
    assert s.pcs[i := Checked][i := Inserted][i := Counted] == s.pcs[i := Counted];
  }

  /** And in three more it is gone again, and the program exits exactly when that
      leaves none counted. */
  lemma ThreadUnregisters(names: seq<string>, s: State, i: nat)
    requires i < |names| == |s.pcs| && s.pcs[i] == Counted && !s.exit
    ensures var a := Advance(i); var t := Steps(names, s, [a, a, a]);
            t == State(s.pcs[i := Gone], s.table - {names[i]}, s.count - 1, s.count == 1)
  {
    var a := Advance(i);
    ThreeSteps(names, s, a);
    assert s.pcs[i := Leaving][i := Removed][i := Gone] == s.pcs[i := Gone];
  }

  lemma ThreeSteps(names: seq<string>, s: State, a: Action)
    requires |names| == |s.pcs|
    ensures Steps(names, s, [a, a, a]) == Step(names, Step(names, Step(names, s, a), a), a)
  {
    assert [a, a, a][..2] == [a, a] && [a, a][..1] == [a] && [a][..0] == [];
    hide Step;
    assert Steps(names, s, []) == s;
    assert Steps(names, s, [a]) == Step(names, s, a);
    assert Steps(names, s, [a, a]) == Step(names, Step(names, s, a), a);
  }

  /** Where a thread may still go once the program is exiting. */
  predicate ExitPath(was: Pc, now: Pc) {
    match was
    case Start => now == Start || now == Refused
    case Refused => now == Refused
    case Counted => now == Counted || now == Stays
    case Stays => now == Stays
    case _ => true
  }

  lemma StepAfterExit(names: seq<string>, s: State, a: Action, i: nat)
    requires |names| == |s.pcs| && i < |names| && s.exit
    ensures var t := Step(names, s, a); t.exit && ExitPath(s.pcs[i], t.pcs[i])
  {
  }

  lemma ExitPathThen(a: Pc, b: Pc, c: Pc)
    requires ExitPath(a, b) && ExitPath(b, c)
    ensures ExitPath(a, c)
  {
  }

  lemma {:induction false} PathAfterExit(names: seq<string>, actions: seq<Action>, later: seq<Action>, i: nat)
    requires i < |names| && Run(names, actions).exit
    ensures var t := Run(names, actions + later); t.exit && ExitPath(Run(names, actions).pcs[i], t.pcs[i])
    decreases |later|
  {
    hide Step;
    if later == [] {
      assert actions + later == actions;
    } else {
      var n := |later| - 1;
      var before := actions + later[..n];
      PathAfterExit(names, actions, later[..n], i);
      assert (actions + later)[..|actions| + n] == before;
      StepAfterExit(names, Run(names, before), later[n], i);
      hide ExitPath;
      ExitPathThen(Run(names, actions).pcs[i], Run(names, before).pcs[i], Run(names, actions + later).pcs[i]);
    }
  }

  /** Once the program is exiting, a thread that has not looked at g_exit yet never
      gets into the table, and one that is registered stays in it. */
  lemma ExitStopsThreads(names: seq<string>, actions: seq<Action>, later: seq<Action>, i: nat)
    requires Distinct(names) && i < |names| && Run(names, actions).exit
    ensures var s, t := Run(names, actions), Run(names, actions + later);
            && t.exit
            && (s.pcs[i] == Start ==> (t.pcs[i] == Start || t.pcs[i] == Refused) && names[i] !in t.table)
            && (s.pcs[i] == Counted ==> (t.pcs[i] == Counted || t.pcs[i] == Stays) && names[i] in t.table)
  {
    hide Run, CountsOk, ExitOk, Distinct;
    PathAfterExit(names, actions, later, i);
    RunInvariant(names, actions + later);
  }
}
