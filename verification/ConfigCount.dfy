/** The counter in src/main.c that closes the configuration file when the last
    participant has given up its share, and what the participants do with the
    file before they do so. */
module ConfigCount {
  import opened Sequences

  // ----- the participants -----

  /** The module threads, and the network part of the service thread. */
  datatype Kind = Rss | Mail | Weather | Mpd | Mplayer | Network

  /** How a start-up goes: the module's group is missing from the file; or its
      initialisation reads so many values and then fails; or it succeeds. */
  datatype Course = Disabled | Fails(values: nat) | Starts(values: nat)

  datatype Participant = Participant(kind: Kind, course: Course)

  /** What a participant does with the file and with its share. */
  datatype Op = Read | Decrement

  function Reads(n: nat): seq<Op> {
    seq(n, i => Read)
  }

  /** The operations of one participant, in program order. Every one begins by
      looking for its group. When that is missing the mail module and the network
      part return with their share. When the initialisation fails all modules but
      mplayer return with it; the network part gives its share up before anything
      can fail. */
  function Script(p: Participant): seq<Op> {
    [Read] +
    match p.course
    case Disabled => if p.kind == Mail || p.kind == Network then [] else [Decrement]
    case Fails(n) => Reads(n) + if p.kind == Mplayer || p.kind == Network then [Decrement] else []
    case Starts(n) => Reads(n) + [Decrement]
  }

  /** Whether the participant ever gives up its share. */
  predicate Releases(p: Participant) {
    match p.course
    case Disabled => p.kind != Mail && p.kind != Network
    case Fails(_) => p.kind == Mplayer || p.kind == Network
    case Starts(_) => true
  }

  /** The share is given up at most once, and nothing comes after that. */
  predicate Disciplined(todo: seq<Op>) {
    forall i :: 0 <= i < |todo| && todo[i] == Decrement ==> i == |todo| - 1
  }

  /** Every module reads only before its one decrement, if it has one at all. */
  lemma ScriptDisciplined(p: Participant)
    ensures Disciplined(Script(p))
    ensures Decrement in Script(p) <==> Releases(p)
  {
    var script := Script(p);
    assert forall i :: 0 <= i < |script| - 1 ==> script[i] == Read;
    assert script[|script| - 1] == if Releases(p) then Decrement else Read;
  }

  // ----- the machine -----

  /** Closing: the decrement has reached zero and the file is about to be closed. */
  datatype Phase = Holding | Closing | Released

  datatype Process = Process(todo: seq<Op>, phase: Phase)

  /** `timely` and `late` count the reads made while the file is open and after it
      has been closed. */
  datatype State = State(procs: seq<Process>, refs: int, open: bool, closes: nat, timely: nat, late: nat)

  /** Participant i takes its next step. */
  function Step(s: State, i: nat): (t: State)
    ensures |t.procs| == |s.procs|
  {
    if i >= |s.procs| then s
    else
      var p := s.procs[i];
      if p.phase == Closing then
        s.(procs := s.procs[i := p.(phase := Released)], open := false, closes := s.closes + 1)
      else if p.todo == [] then s
      else match p.todo[0]
        case Read =>
          var next := s.(procs := s.procs[i := p.(todo := p.todo[1..])]);
          if s.open then next.(timely := s.timely + 1) else next.(late := s.late + 1)
        case Decrement =>
          var phase := if s.refs - 1 == 0 then Closing else Released;
          s.(procs := s.procs[i := Process(p.todo[1..], phase)], refs := s.refs - 1)
  }

  /** One share for each participant. */
  function Initial(scripts: seq<seq<Op>>): State {
    State(seq(|scripts|, i requires 0 <= i < |scripts| => Process(scripts[i], Holding)), |scripts|, true, 0, 0, 0)
  }

  /** A run: who takes the next step is up to the scheduler. */
  function Run(scripts: seq<seq<Op>>, schedule: seq<nat>): (s: State)
    ensures |s.procs| == |scripts|
  {
    if schedule == [] then Initial(scripts)
    else Step(Run(scripts, schedule[..|schedule| - 1]), schedule[|schedule| - 1])
  }

  function Scripts(participants: seq<Participant>): seq<seq<Op>> {
    seq(|participants|, i requires 0 <= i < |participants| => Script(participants[i]))
  }

  /** The module threads and the service thread hold a share each. */
  function Start(modules: seq<Participant>, network: Course): (r: seq<Participant>)
    ensures |r| == |modules| + 1
  {
    modules + [Participant(Network, network)]
  }

  // ----- the invariant -----

  predicate Holds(p: Process) {
    p.phase == Holding
  }

  predicate IsClosing(p: Process) {
    p.phase == Closing
  }

  ghost predicate Obedient(p: Process) {
    if Holds(p) then Disciplined(p.todo) else p.todo == []
  }

  /** The shares outstanding; who is about to close; and that the file has been
      closed once, or is about to be, exactly when no share is left. */
  ghost predicate Invariant(s: State) {
    && (forall i :: 0 <= i < |s.procs| ==> Obedient(s.procs[i]))
    && s.refs == CountWhere(s.procs, Holds)
    && s.open == (s.closes == 0)
    && s.closes + CountWhere(s.procs, IsClosing) == (if s.refs == 0 then 1 else 0)
    && s.late == 0
  }

  lemma ObedientStep(p: Process)
    requires Obedient(p) && p.todo != []
    ensures Holds(p) && Obedient(p.(todo := p.todo[1..]))
    ensures p.todo[0] == Decrement ==> p.todo[1..] == []
  {
  }

  lemma StepObedient(s: State, i: nat)
    requires forall j :: 0 <= j < |s.procs| ==> Obedient(s.procs[j])
    ensures var t := Step(s, i); forall j :: 0 <= j < |t.procs| ==> Obedient(t.procs[j])
  {
    if i < |s.procs| && s.procs[i].todo != [] {
      ObedientStep(s.procs[i]);
    }
  }

  lemma StepCounts(s: State, i: nat)
    requires i < |s.procs|
    ensures var t := Step(s, i); var p, q := s.procs[i], t.procs[i];
            && CountWhere(t.procs, Holds) == CountWhere(s.procs, Holds)
                 - (if Holds(p) then 1 else 0) + (if Holds(q) then 1 else 0)
            && CountWhere(t.procs, IsClosing) == CountWhere(s.procs, IsClosing)
                 - (if IsClosing(p) then 1 else 0) + (if IsClosing(q) then 1 else 0)
  {
    var t := Step(s, i);
    assert t.procs == s.procs[i := t.procs[i]];
    hide CountWhere, Step, Holds, IsClosing;
    CountWhereUpdate(s.procs, i, t.procs[i], Holds);
    CountWhereUpdate(s.procs, i, t.procs[i], IsClosing);
  }

  lemma StepInvariant(s: State, i: nat)
    requires Invariant(s)
    ensures Invariant(Step(s, i))
  {
    StepObedient(s, i);
    if i < |s.procs| {
      StepCounts(s, i);
      CountWhereNone(s.procs, Holds);
      CountWhereNone(s.procs, IsClosing);
      var p := s.procs[i];
      assert Obedient(p) && (p.phase == Closing ==> s.refs == 0) && (Holds(p) ==> s.refs > 0);
      hide CountWhere, Disciplined;
    }
  }

  lemma {:induction false} RunInvariant(scripts: seq<seq<Op>>, schedule: seq<nat>)
    requires scripts != [] && forall i :: 0 <= i < |scripts| ==> Disciplined(scripts[i])
    ensures Invariant(Run(scripts, schedule))
  {
    hide Disciplined, CountWhere;
    if schedule == [] {
      assert forall i :: 0 <= i < |scripts| ==> Obedient(Process(scripts[i], Holding));
      CountWhereAll(Initial(scripts).procs, Holds);
      CountWhereNone(Initial(scripts).procs, IsClosing);
    } else {
      var n := |schedule| - 1;
      RunInvariant(scripts, schedule[..n]);
      hide Step, Invariant;
      StepInvariant(Run(scripts, schedule[..n]), schedule[n]);
    }
  }

  lemma ScriptsDisciplined(participants: seq<Participant>)
    ensures forall i :: 0 <= i < |Scripts(participants)| ==> Disciplined(Scripts(participants)[i])
  {
    forall i | 0 <= i < |participants| ensures Disciplined(Scripts(participants)[i]) {
      ScriptDisciplined(participants[i]);
    }
  }

  // ----- what follows for the file -----

  /** Whichever modules there are, however their start-ups go and under every
      interleaving, the file is closed at most once, no read comes after that, and
      it is open as long as someone holds a share; so whoever is about to read
      finds it open. */
  lemma FileOpenWhileNeeded(modules: seq<Participant>, network: Course, schedule: seq<nat>)
    ensures var s := Run(Scripts(Start(modules, network)), schedule);
            && s.closes <= 1 && s.late == 0
            && (forall i :: 0 <= i < |s.procs| && Holds(s.procs[i]) ==> s.open)
            && (forall i :: 0 <= i < |s.procs| && s.procs[i].todo != [] ==> s.open)
  {
    var participants := Start(modules, network);
    ScriptsDisciplined(participants);
    RunInvariant(Scripts(participants), schedule);
    CountWhereNone(Run(Scripts(participants), schedule).procs, Holds);
    assert forall p: Process :: Obedient(p) && p.todo != [] ==> Holds(p);
  }

  /** Were a module to read after its decrement, the file could be gone. */
  lemma LateReadWithoutDiscipline()
    ensures !Disciplined([Decrement, Read])
    ensures Run([[Decrement, Read]], [0, 0, 0]).late == 1
  {
    var scripts := [[Decrement, Read]];
    assert [Decrement, Read][0] == Decrement;
    assert [0, 0, 0][..2] == [0, 0] && [0, 0][..1] == [0] && [0][..0] == [];
    var s := Run(scripts, [0, 0]);
    assert Run(scripts, [0]) == Step(Initial(scripts), 0);
    assert s == Step(Run(scripts, [0]), 0);
    assert s.procs[0] == Process([Read], Released) && !s.open;
  }

  /** At any moment the file is closed exactly when every participant has given up
      its share and the last one has gone on to close it. */
  lemma ClosedIff(modules: seq<Participant>, network: Course, schedule: seq<nat>)
    ensures var s := Run(Scripts(Start(modules, network)), schedule);
            !s.open <==> forall i :: 0 <= i < |s.procs| ==> s.procs[i].phase == Released
  {
    var participants := Start(modules, network);
    var s := Run(Scripts(participants), schedule);
    ScriptsDisciplined(participants);
    RunInvariant(Scripts(participants), schedule);
    CountWhereNone(s.procs, Holds);
    CountWhereNone(s.procs, IsClosing);
  }

  /** Who still holds a share has its decrement to come, if its script has one. */
  ghost predicate Faithful(p: Process, participant: Participant) {
    Releases(participant) <==> !Holds(p) || Decrement in p.todo
  }

  lemma FaithfulStep(s: State, i: nat, j: nat, participant: Participant)
    requires j < |s.procs| && Faithful(s.procs[j], participant)
    ensures Faithful(Step(s, i).procs[j], participant)
  {
    var p := s.procs[j];
    assert p.todo != [] ==> p.todo == [p.todo[0]] + p.todo[1..];
  }

  lemma {:induction false} RunFaithful(participants: seq<Participant>, schedule: seq<nat>, j: nat)
    requires j < |participants|
    ensures Faithful(Run(Scripts(participants), schedule).procs[j], participants[j])
  {
    if schedule == [] {
      ScriptDisciplined(participants[j]);
    } else {
      var n := |schedule| - 1;
      RunFaithful(participants, schedule[..n], j);
      FaithfulStep(Run(Scripts(participants), schedule[..n]), schedule[n], j, participants[j]);
    }
  }

  // ----- every read is made -----

  function ReadsLeft(procs: seq<Process>): nat {
    if procs == [] then 0 else ReadsLeft(procs[..|procs| - 1]) + Count(procs[|procs| - 1].todo, Read)
  }

  lemma {:induction false} ReadsLeftUpdate(procs: seq<Process>, i: nat, p: Process)
    requires i < |procs|
    ensures ReadsLeft(procs[i := p]) == ReadsLeft(procs) - Count(procs[i].todo, Read) + Count(p.todo, Read)
  {
    var n := |procs| - 1;
    if i == n {
      assert procs[i := p][..n] == procs[..n];
    } else {
      ReadsLeftUpdate(procs[..n], i, p);
      assert procs[i := p][..n] == procs[..n][i := p];
    }
  }

  lemma StepReads(s: State, i: nat)
    ensures var t := Step(s, i); t.timely + t.late + ReadsLeft(t.procs) == s.timely + s.late + ReadsLeft(s.procs)
  {
    if i < |s.procs| {
      var t := Step(s, i);
      ReadsLeftUpdate(s.procs, i, t.procs[i]);
      assert t.procs == s.procs[i := t.procs[i]];
    }
  }

  /** Over every interleaving the reads made and those still to come are those of the
      scripts, and none is made late. */
  lemma {:induction false} EveryReadMade(modules: seq<Participant>, network: Course, schedule: seq<nat>)
    ensures var scripts := Scripts(Start(modules, network)); var s := Run(scripts, schedule);
            s.timely + ReadsLeft(s.procs) == ReadsLeft(Initial(scripts).procs) && s.late == 0
  {
    FileOpenWhileNeeded(modules, network, schedule);
    hide Scripts, Start, Step, ReadsLeft;
    if schedule != [] {
      var n := |schedule| - 1;
      EveryReadMade(modules, network, schedule[..n]);
      StepReads(Run(Scripts(Start(modules, network)), schedule[..n]), schedule[n]);
    }
  }

  /** A participant left alone gets through its script: each turn makes one step of
      it, or closes the file when its decrement was the last. */
  lemma TurnGetsOn(s: State, i: nat)
    requires i < |s.procs| && (s.procs[i].todo != [] || s.procs[i].phase == Closing)
    ensures var p := s.procs[i]; var q := Step(s, i).procs[i];
            && (p.phase == Closing ==> q == p.(phase := Released) && !Step(s, i).open)
            && (p.phase != Closing ==> q.todo == p.todo[1..])
            && (p.phase != Closing && p.todo[0] == Read ==> q.phase == p.phase)
            && (p.phase != Closing && p.todo[0] == Decrement ==> q.phase == (if s.refs == 1 then Closing else Released))
  {
  }

  // ----- how it ends -----

  predicate Finished(s: State) {
    forall i :: 0 <= i < |s.procs| ==> s.procs[i].todo == [] && s.procs[i].phase != Closing
  }

  /** Once everyone is through, the file has been closed exactly when every start-up
      has gone a way that gives up the share: no mail module and no network part
      without a group, and no failed start-up except of mplayer and the network
      part. */
  lemma FinallyClosedIff(modules: seq<Participant>, network: Course, schedule: seq<nat>)
    requires Finished(Run(Scripts(Start(modules, network)), schedule))
    ensures var participants := Start(modules, network);
            !Run(Scripts(participants), schedule).open <==>
            (forall i :: 0 <= i < |participants| ==>
               && !(participants[i].course.Disabled? && participants[i].kind in {Mail, Network})
               && !(participants[i].course.Fails? && participants[i].kind !in {Mplayer, Network}))
  {
    var participants := Start(modules, network);
    var s := Run(Scripts(participants), schedule);
    ClosedIff(modules, network, schedule);
    hide Run;
    forall i | 0 <= i < |participants|
      ensures Releases(participants[i]) <==> s.procs[i].phase == Released
    {
      RunFaithful(participants, schedule, i);
      assert Faithful(s.procs[i], participants[i]);
      assert s.procs[i].phase != Closing;
    }
  }

  lemma RunStep(scripts: seq<seq<Op>>, schedule: seq<nat>, i: nat)
    ensures Run(scripts, schedule + [i]) == Step(Run(scripts, schedule), i)
  {
    assert (schedule + [i])[..|schedule|] == schedule;
  }

  lemma TwoScripts()
    ensures Scripts(Start([Participant(Mail, Disabled)], Starts(1))) == [[Read], [Read, Read, Decrement]]
  {
    var participants := Start([Participant(Mail, Disabled)], Starts(1));
    assert Reads(1) == [Read];
    assert Script(participants[0]) == [Read];
    assert Script(participants[1]) == [Read, Read, Decrement];
  }

  /** It can stay open for good: a mail module without a group returns with its
      share, while the network part reads its port and gives up its own. */
  lemma CanStayOpen()
    ensures var s := Run(Scripts(Start([Participant(Mail, Disabled)], Starts(1))), [0, 1, 1, 1]);
            Finished(s) && s.open
  {
    TwoScripts();
    hide Run, Scripts, Start;
    var scripts := [[Read], [Read, Read, Decrement]];
    NoStepYet(scripts);
    RunStep(scripts, [], 0);
    RunStep(scripts, [0], 1);
    RunStep(scripts, [0, 1], 1);
    RunStep(scripts, [0, 1, 1], 1);
    assert [] + [0] == [0] && [0] + [1] == [0, 1] && [0, 1] + [1] == [0, 1, 1] && [0, 1, 1] + [1] == [0, 1, 1, 1];
    assert Run(scripts, [0]).procs == [Process([], Holding), Process([Read, Read, Decrement], Holding)];
    assert Run(scripts, [0, 1]).procs == [Process([], Holding), Process([Read, Decrement], Holding)];
    assert Run(scripts, [0, 1, 1]).procs == [Process([], Holding), Process([Decrement], Holding)];
  }

  lemma NoStepYet(scripts: seq<seq<Op>>)
    ensures Run(scripts, []) == Initial(scripts)
  {
  }
}
