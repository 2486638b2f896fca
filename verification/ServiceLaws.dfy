/** What every run of the service thread keeps: each line is answered once and in
    order, whichever loop reads it, and each command is sent once and in order. */
module ServiceLaws {
  import opened Options
  import opened Sequences
  import opened Dispatcher
  import opened ServiceThreads

  // ----- lines in a history and in the input -----

  function HistoryLines(history: seq<Event>): seq<string> {
    if history == [] then []
    else
      var n := |history| - 1;
      HistoryLines(history[..n]) + if history[n].LineIn? then [history[n].line] else []
  }

  function LineTexts(input: seq<Recv>): seq<string> {
    if input == [] then []
    else
      var n := |input| - 1;
      LineTexts(input[..n]) + if input[n].answer.Line? then [input[n].answer.text] else []
  }

  lemma {:induction false} HistoryLinesConcat(a: seq<Event>, b: seq<Event>)
    ensures HistoryLines(a + b) == HistoryLines(a) + HistoryLines(b)
  {
    if b == [] {
      assert a + b == a;
    } else {
      var n := |b| - 1;
      HistoryLinesConcat(a, b[..n]);
      assert (a + b)[..|a| + n] == a + b[..n];
    }
  }

  lemma {:induction false} LineTextsConcat(a: seq<Recv>, b: seq<Recv>)
    ensures LineTexts(a + b) == LineTexts(a) + LineTexts(b)
  {
    if b == [] {
      assert a + b == a;
    } else {
      var n := |b| - 1;
      LineTextsConcat(a, b[..n]);
      assert (a + b)[..|a| + n] == a + b[..n];
      var x, y := LineTexts(a), LineTexts(b[..n]);
      var z := if b[n].answer.Line? then [b[n].answer.text] else [];
      assert (x + y) + z == x + (y + z);
    }
  }

  /** The part of the input that has been read when `rest` is left. */
  function Consumed(input: seq<Recv>, rest: seq<Recv>): seq<Recv> {
    if |rest| <= |input| then input[..|input| - |rest|] else []
  }

  /** What has happened to the dispatcher between two states. */
  function Since(w: World, v: World): seq<Event> {
    if |w.history| <= |v.history| then v.history[|w.history|..] else []
  }

  /** From w to v the input was read up to `rest`: the dispatcher of v is what its
      history since w makes of the dispatcher of w, and the lines in that history
      are the lines read, each once and in order. */
  ghost predicate Answers(w: World, input: seq<Recv>, v: World, rest: seq<Recv>) {
    && Leaves(input, rest) && w.history <= v.history
    && GoodEvents(Since(w, v)) && v.d == Replay(w.d, Since(w, v))
    && HistoryLines(Since(w, v)) == LineTexts(Consumed(input, rest))
  }

  lemma AnswersNothing(w: World, input: seq<Recv>)
    ensures Answers(w, input, w, input)
  {
    assert Since(w, w) == [] && Consumed(input, input) == [];
  }

  lemma SinceConcat(w: World, v: World, x: World)
    requires w.history <= v.history <= x.history
    ensures w.history <= x.history && Since(w, x) == Since(w, v) + Since(v, x)
  {
    var m, n := |w.history|, |v.history|;
    assert v.history == x.history[..n];
    assert x.history[m..] == x.history[m..n] + x.history[n..];
    assert x.history[m..n] == v.history[m..];
  }

  lemma ConsumedConcat(input: seq<Recv>, mid: seq<Recv>, rest: seq<Recv>)
    requires Leaves(input, mid) && Leaves(mid, rest)
    ensures Leaves(input, rest) && Consumed(input, rest) == Consumed(input, mid) + Consumed(mid, rest)
  {
    var i, j := |input| - |mid|, |input| - |rest|;
    assert input[i..][..j - i] == input[i..j];
    assert input[..j] == input[..i] + input[i..j];
    assert input[i..][j - i..] == input[j..];
  }

  lemma AnswersThen(w: World, input: seq<Recv>, v: World, mid: seq<Recv>, x: World, rest: seq<Recv>)
    requires Answers(w, input, v, mid) && Answers(v, mid, x, rest)
    ensures Answers(w, input, x, rest)
  {
    SinceConcat(w, v, x);
    ConsumedConcat(input, mid, rest);
    hide Since, Consumed, Leaves, Replay, HistoryLines, LineTexts;
    ReplayConcat(w.d, Since(w, v), Since(v, x));
    HistoryLinesConcat(Since(w, v), Since(v, x));
    LineTextsConcat(Consumed(input, mid), Consumed(mid, rest));
  }

  // ----- one step -----

  lemma HappenAnswers(w: World, e: Event, v: World, input: seq<Recv>, rest: seq<Recv>)
    requires GoodEvent(e) && v.d == Happen(w, e).d && v.history == Happen(w, e).history
    requires Leaves(input, rest) && LineTexts(Consumed(input, rest)) == if e.LineIn? then [e.line] else []
    ensures Answers(w, input, v, rest)
  {
    hide Apply, GoodEvent, LineTexts, Consumed;
    assert Since(w, v) == [e];
    assert [e][..0] == [];
    assert HistoryLines([]) == [] && Replay(w.d, []) == w.d;
    assert HistoryLines([e]) == if e.LineIn? then [e.line] else [];
    assert Replay(w.d, [e]) == Apply(w.d, e);
  }

  lemma NoneConsumed(input: seq<Recv>)
    ensures Leaves(input, input) && LineTexts(Consumed(input, input)) == []
  {
  }

  lemma ActAnswers(w: World, a: Action, input: seq<Recv>)
    ensures Answers(w, input, Act(w, a), input)
  {
    NoneConsumed(input);
    AnswersNothing(w, input);
    hide LineTexts, Consumed, Leaves, HistoryLines, Replay, Apply;
    if a.PutIn? {
      HappenAnswers(w, Insert(a.client, a.cookie), Act(w, a), input, input);
    } else if a.TakeOut? {
      HappenAnswers(w, Remove(a.name), Act(w, a), input, input);
    }
  }

  lemma {:induction false} ActAllAnswers(w: World, actions: seq<Action>, input: seq<Recv>)
    ensures Answers(w, input, ActAll(w, actions), input)
  {
    hide Answers, Act;
    if actions == [] {
      AnswersNothing(w, input);
    } else {
      var n := |actions| - 1;
      ActAllAnswers(w, actions[..n], input);
      ActAnswers(ActAll(w, actions[..n]), actions[n], input);
      AnswersThen(w, input, ActAll(w, actions[..n]), input, ActAll(w, actions), input);
    }
  }

  lemma OneConsumed(input: seq<Recv>)
    requires input != []
    ensures Leaves(input, input[1..])
    ensures LineTexts(Consumed(input, input[1..])) ==
            if input[0].answer.Line? then [input[0].answer.text] else []
  {
    assert Consumed(input, input[1..]) == [input[0]];
    assert [input[0]][..0] == [];
    assert LineTexts([]) == [];
  }

  lemma LineAnswers(w: World, input: seq<Recv>)
    requires input != [] && input[0].answer.Line? && WellFormed(input[0].answer.text)
    ensures var answer := input[0].answer;
            Answers(w, input, AnswerLine(w, answer.text, answer.during).0, input[1..])
  {
    var answer := input[0].answer;
    var e := LineIn(answer.text);
    var next := Happen(w, e);
    OneConsumed(input);
    HappenAnswers(w, e, next, input, input[1..]);
    ActAllAnswers(next, answer.during, input[1..]);
    AnswersThen(w, input, next, input[1..], ActAll(next, answer.during), input[1..]);
    hide Answers, ActAll;
  }

  lemma ReceivedAnswers(w: World, input: seq<Recv>)
    requires input != [] && GoodRecv(input[0])
    ensures Answers(w, input, Received(w, input[0]).0, input[1..])
  {
    var r := input[0];
    var acted := ActAll(w, r.before);
    ActAllAnswers(w, r.before, input);
    if r.answer.Line? {
      LineAnswers(acted, input);
    } else {
      SkipAnswers(acted, input);
    }
    hide Answers, ActAll, AnswerLine;
    AnswersThen(w, input, acted, input, Received(w, r).0, input[1..]);
  }

  lemma SkipAnswers(w: World, input: seq<Recv>)
    requires input != [] && !input[0].answer.Line?
    ensures Answers(w, input, w, input[1..])
  {
    OneConsumed(input);
    assert Since(w, w) == [];
  }

  // ----- the two loops -----

  lemma {:induction false} AwaitAnswers(w: World, input: seq<Recv>, tries: nat, sent: int)
    requires GoodInput(input)
    ensures var (ret, v, rest) := AwaitAnswer(w, input, tries, sent); Answers(w, input, v, rest)
    decreases |input|
  {
    hide Answers, Received, GoodRecv;
    if tries == 0 || input == [] {
      AnswersNothing(w, input);
    } else {
      ReceivedAnswers(w, input);
      var next := Received(w, input[0]).0;
      AwaitAnswers(next, input[1..], tries - 1, sent);
      var (ret, v, rest) := AwaitAnswer(next, input[1..], tries - 1, sent);
      AnswersThen(w, input, next, input[1..], v, rest);
    }
  }

  lemma {:induction false} DrainAnswers(w: World, input: seq<Recv>)
    requires GoodInput(input)
    ensures var (ret, v, rest) := Drain(w, input); Answers(w, input, v, rest)
    decreases |input|
  {
    hide Answers, Received, GoodRecv;
    if input == [] {
      AnswersNothing(w, input);
    } else {
      ReceivedAnswers(w, input);
      var next := Received(w, input[0]).0;
      DrainAnswers(next, input[1..]);
      var (ret, v, rest) := Drain(next, input[1..]);
      AnswersThen(w, input, next, input[1..], v, rest);
    }
  }

  // ----- runs of calls -----

  /** What the service thread does, one call after the other: it waits while other
      threads act, takes a command from the queue, sends and awaits an answer, or
      polls. */
  datatype LoopCall = Wait(actions: seq<Action>) | Take | Send(sent: int) | Poll

  function CallStep(w: World, input: seq<Recv>, c: LoopCall): (World, seq<Recv>)
    requires GoodInput(input)
  {
    match c
    case Wait(actions) => (ActAll(w, actions), input)
    case Take => (if w.queue == [] then w else w.(queue := w.queue[1..]), input)
    case Send(sent) => var (ret, v, rest) := SendAndAwait(w, input, sent); (v, rest)
    case Poll => var (ret, v, rest) := Drain(w, input); (v, rest)
  }

  lemma CallStepAnswers(w: World, input: seq<Recv>, c: LoopCall)
    requires GoodInput(input)
    ensures var (v, rest) := CallStep(w, input, c); Answers(w, input, v, rest) && GoodInput(rest)
  {
    AnswersNothing(w, input);
    match c
    case Wait(actions) =>
      ActAllAnswers(w, actions, input);
      hide Answers, ActAll;
    case Take =>
      hide GoodInput, Answers;
      if w.queue != [] {
        TakeAnswers(w, input);
      }
    case Send(sent) =>
      AwaitAnswers(w, input, 10, sent);
      AwaitLeaves(w, input, 10, sent);
      hide Answers, AwaitAnswer, GoodInput;
    case Poll =>
      DrainAnswers(w, input);
      DrainLeaves(w, input);
      hide Answers, Drain, GoodInput;
  }

  lemma TakeAnswers(w: World, input: seq<Recv>)
    requires w.queue != []
    ensures Answers(w, input, w.(queue := w.queue[1..]), input)
  {
    AnswersNothing(w, input);
    assert Since(w, w.(queue := w.queue[1..])) == Since(w, w);
  }

  function CallRun(w: World, input: seq<Recv>, calls: seq<LoopCall>): (r: (World, seq<Recv>))
    requires GoodInput(input)
    ensures GoodInput(r.1)
  {
    if calls == [] then (w, input)
    else
      var n := |calls| - 1;
      var (v, rest) := CallRun(w, input, calls[..n]);
      CallStepAnswers(v, rest, calls[n]);
      CallStep(v, rest, calls[n])
  }

  /** Over every run of calls the dispatcher follows its history, and the lines in
      that history are exactly the lines that were read, in order. */
  lemma {:induction false} RunAnswers(w: World, input: seq<Recv>, calls: seq<LoopCall>)
    requires GoodInput(input)
    ensures var (v, rest) := CallRun(w, input, calls); Answers(w, input, v, rest)
  {
    hide Answers, CallStep, GoodInput;
    if calls == [] {
      AnswersNothing(w, input);
    } else {
      var n := |calls| - 1;
      RunAnswers(w, input, calls[..n]);
      var (v, mid) := CallRun(w, input, calls[..n]);
      CallStepAnswers(v, mid, calls[n]);
      var (x, rest) := CallRun(w, input, calls);
      AnswersThen(w, input, v, mid, x, rest);
    }
  }

  // ----- how the lines are divided does not matter -----

  /** Nobody writes the tables. */
  predicate Calm(actions: seq<Action>) {
    forall i :: 0 <= i < |actions| ==> !actions[i].PutIn? && !actions[i].TakeOut?
  }

  predicate CalmRecv(r: Recv) {
    Calm(r.before) && (r.answer.Line? ==> Calm(r.answer.during))
  }

  predicate CalmInput(input: seq<Recv>) {
    forall i :: 0 <= i < |input| ==> CalmRecv(input[i])
  }

  predicate CalmCalls(calls: seq<LoopCall>) {
    forall i :: 0 <= i < |calls| && calls[i].Wait? ==> Calm(calls[i].actions)
  }

  predicate OnlyLines(events: seq<Event>) {
    forall i :: 0 <= i < |events| ==> events[i].LineIn?
  }

  function LineEvents(lines: seq<string>): seq<Event> {
    seq(|lines|, i requires 0 <= i < |lines| => LineIn(lines[i]))
  }

  /** A history of lines alone is determined by the lines. */
  lemma {:induction false} OnlyLinesAre(events: seq<Event>)
    requires OnlyLines(events)
    ensures events == LineEvents(HistoryLines(events))
  {
    if events != [] {
      var n := |events| - 1;
      OnlyLinesAre(events[..n]);
      LineEventsAppend(HistoryLines(events[..n]), events[n].line);
      assert events == events[..n] + [events[n]];
    }
  }

  lemma LineEventsAppend(lines: seq<string>, line: string)
    ensures LineEvents(lines + [line]) == LineEvents(lines) + [LineIn(line)]
  {
  }

  /** Since w only lines have happened to the dispatcher. */
  ghost predicate LinesSince(w: World, v: World) {
    w.history <= v.history && OnlyLines(Since(w, v))
  }

  lemma NothingSince(w: World)
    ensures LinesSince(w, w)
  {
  }

  lemma LinesSinceThen(w: World, v: World, x: World)
    requires LinesSince(w, v) && LinesSince(v, x)
    ensures LinesSince(w, x)
  {
    SinceConcat(w, v, x);
    hide Since;
  }

  lemma {:induction false} CalmActAll(w: World, actions: seq<Action>)
    requires Calm(actions)
    ensures ActAll(w, actions).history == w.history
  {
    if actions != [] {
      CalmActAll(w, actions[..|actions| - 1]);
    }
  }

  lemma CalmAnswerLine(w: World, line: string, during: seq<Action>)
    requires WellFormed(line) && Calm(during)
    ensures AnswerLine(w, line, during).0.history == w.history + [LineIn(line)]
  {
    CalmActAll(Happen(w, LineIn(line)), during);
  }

  lemma CalmReceived(w: World, r: Recv)
    requires GoodRecv(r) && CalmRecv(r)
    ensures LinesSince(w, Received(w, r).0)
  {
    CalmActAll(w, r.before);
    var acted := ActAll(w, r.before);
    if r.answer.Line? {
      CalmAnswerLine(acted, r.answer.text, r.answer.during);
    }
    hide ActAll, AnswerLine;
    assert Received(w, r).0.history == w.history + if r.answer.Line? then [LineIn(r.answer.text)] else [];
  }

  lemma {:induction false} CalmAwait(w: World, input: seq<Recv>, tries: nat, sent: int)
    requires GoodInput(input) && CalmInput(input)
    ensures var (ret, v, rest) := AwaitAnswer(w, input, tries, sent); LinesSince(w, v)
    decreases |input|
  {
    hide LinesSince, Received, GoodRecv, CalmRecv;
    if tries == 0 || input == [] {
      NothingSince(w);
    } else {
      CalmReceived(w, input[0]);
      var next := Received(w, input[0]).0;
      CalmAwait(next, input[1..], tries - 1, sent);
      LinesSinceThen(w, next, AwaitAnswer(next, input[1..], tries - 1, sent).1);
    }
  }

  lemma {:induction false} CalmDrain(w: World, input: seq<Recv>)
    requires GoodInput(input) && CalmInput(input)
    ensures var (ret, v, rest) := Drain(w, input); LinesSince(w, v)
    decreases |input|
  {
    hide LinesSince, Received, GoodRecv, CalmRecv;
    if input == [] {
      NothingSince(w);
    } else {
      CalmReceived(w, input[0]);
      var next := Received(w, input[0]).0;
      CalmDrain(next, input[1..]);
      LinesSinceThen(w, next, Drain(next, input[1..]).1);
    }
  }

  lemma CalmStep(w: World, input: seq<Recv>, c: LoopCall)
    requires GoodInput(input) && CalmInput(input) && (c.Wait? ==> Calm(c.actions))
    ensures LinesSince(w, CallStep(w, input, c).0)
  {
    NothingSince(w);
    match c
    case Wait(actions) => CalmActAll(w, actions);
    case Take =>
    case Send(sent) => CalmAwait(w, input, 10, sent); hide AwaitAnswer, LinesSince;
    case Poll => CalmDrain(w, input); hide Drain, LinesSince;
  }

  lemma CalmRest(input: seq<Recv>, rest: seq<Recv>)
    requires CalmInput(input) && Leaves(input, rest)
    ensures CalmInput(rest)
  {
    hide CalmRecv;
    var n := |input| - |rest|;
    forall i | 0 <= i < |rest| ensures CalmRecv(rest[i]) {
      assert rest[i] == input[n + i];
    }
  }

  lemma {:induction false} CalmRun(w: World, input: seq<Recv>, calls: seq<LoopCall>)
    requires GoodInput(input) && CalmInput(input) && CalmCalls(calls)
    ensures LinesSince(w, CallRun(w, input, calls).0)
  {
    hide LinesSince, CalmInput, CallStep, GoodInput, Calm;
    if calls == [] {
      NothingSince(w);
    } else {
      var n := |calls| - 1;
      CalmRun(w, input, calls[..n]);
      var (v, mid) := CallRun(w, input, calls[..n]);
      RunAnswers(w, input, calls[..n]);
      CalmRest(input, mid);
      CalmStep(v, mid, calls[n]);
      LinesSinceThen(w, v, CallRun(w, input, calls).0);
    }
  }

  /** With a fixed registry, after any run of calls the callbacks invoked and the
      current client are the fold of the lines read, each processed once and in
      order. */
  lemma CalmRunFoldsLines(w: World, input: seq<Recv>, calls: seq<LoopCall>)
    requires GoodInput(input) && CalmInput(input) && CalmCalls(calls)
    ensures var (v, rest) := CallRun(w, input, calls);
            var events := LineEvents(LineTexts(Consumed(input, rest)));
            Leaves(input, rest) && GoodEvents(events) && v.d == Replay(w.d, events)
  {
    var (v, rest) := CallRun(w, input, calls);
    hide CallRun, CalmInput, CalmCalls, GoodInput, Replay, LineTexts, Since;
    RunAnswers(w, input, calls);
    CalmRun(w, input, calls);
    OnlyLinesAre(Since(w, v));
  }

  /** Two runs of calls from the same dispatcher that have read the same lines,
      divided between the two loops in any way, with any pushes in between, end
      with the same callbacks and the same current client. */
  lemma SplitDoesNotMatter(w0: World, input0: seq<Recv>, calls0: seq<LoopCall>,
                           w1: World, input1: seq<Recv>, calls1: seq<LoopCall>)
    requires GoodInput(input0) && CalmInput(input0) && CalmCalls(calls0)
    requires GoodInput(input1) && CalmInput(input1) && CalmCalls(calls1)
    requires var rest0, rest1 := CallRun(w0, input0, calls0).1, CallRun(w1, input1, calls1).1;
             w0.d == w1.d && LineTexts(Consumed(input0, rest0)) == LineTexts(Consumed(input1, rest1))
    ensures CallRun(w0, input0, calls0).0.d == CallRun(w1, input1, calls1).0.d
  {
    hide CallRun, CalmInput, CalmCalls, GoodInput, Replay, LineTexts;
    CalmRunFoldsLines(w0, input0, calls0);
    CalmRunFoldsLines(w1, input1, calls1);
  }

  // ----- the main loop is such a run -----

  /** The calls that one round makes. */
  function RoundCalls(s: Loop, r: Round): seq<LoopCall> {
    if s.died || s.world.exit then []
    else if ActAll(s.world, r.actions).queue != [] then [Wait(r.actions), Take, Send(r.sent)]
    else if s.count == 30 then [Wait(r.actions), Send(r.sent)]
    else [Wait(r.actions), Poll]
  }

  function RoundsCalls(s: Loop, rounds: seq<Round>): seq<LoopCall>
    requires GoodInput(s.input)
  {
    if rounds == [] then []
    else
      var n := |rounds| - 1;
      RoundsCalls(s, rounds[..n]) + RoundCalls(RoundRun(s, rounds[..n]), rounds[n])
  }

  lemma {:induction false} CallRunConcat(w: World, input: seq<Recv>, a: seq<LoopCall>, b: seq<LoopCall>)
    requires GoodInput(input)
    ensures var (v, mid) := CallRun(w, input, a); CallRun(w, input, a + b) == CallRun(v, mid, b)
  {
    hide CallStep, GoodInput;
    if b == [] {
      assert a + b == a;
    } else {
      var n := |b| - 1;
      CallRunConcat(w, input, a, b[..n]);
      assert (a + b)[..|a| + n] == a + b[..n];
    }
  }

  lemma CallRunTwo(w: World, input: seq<Recv>, c: LoopCall, rest: seq<LoopCall>)
    requires GoodInput(input)
    ensures var (v, mid) := CallStep(w, input, c);
            GoodInput(mid) && CallRun(w, input, [c] + rest) == CallRun(v, mid, rest)
  {
    CallStepAnswers(w, input, c);
    hide CallStep, GoodInput, Answers;
    assert [c][..0] == [];
    assert CallRun(w, input, []) == (w, input);
    assert CallRun(w, input, [c]) == CallStep(w, input, c);
    CallRunConcat(w, input, [c], rest);
  }

  lemma CallRunNone(w: World, input: seq<Recv>)
    requires GoodInput(input)
    ensures CallRun(w, input, []) == (w, input)
  {
  }

  lemma RoundIsCalls(s: Loop, r: Round)
    requires GoodInput(s.input)
    ensures var t := RoundStep(s, r); CallRun(s.world, s.input, RoundCalls(s, r)) == (t.world, t.input)
  {
    hide ActAll, SendAndAwait, Drain, GoodInput, CallRun;
    if s.died || s.world.exit {
      CallRunNone(s.world, s.input);
    } else {
      var w := ActAll(s.world, r.actions);
      if w.queue != [] {
        var taken := w.(queue := w.queue[1..]);
        assert [Wait(r.actions), Take, Send(r.sent)] == [Wait(r.actions)] + ([Take] + ([Send(r.sent)] + []));
        CallRunTwo(s.world, s.input, Wait(r.actions), [Take] + ([Send(r.sent)] + []));
        CallRunTwo(w, s.input, Take, [Send(r.sent)] + []);
        CallRunTwo(taken, s.input, Send(r.sent), []);
        CallRunNone(RoundStep(s, r).world, RoundStep(s, r).input);
      } else {
        var c := if s.count == 30 then Send(r.sent) else Poll;
        assert RoundCalls(s, r) == [Wait(r.actions)] + ([c] + []);
        CallRunTwo(s.world, s.input, Wait(r.actions), [c] + []);
        CallRunTwo(w, s.input, c, []);
        CallRunNone(RoundStep(s, r).world, RoundStep(s, r).input);
      }
    }
  }

  lemma {:induction false} RoundsAreCalls(s: Loop, rounds: seq<Round>)
    requires GoodInput(s.input)
    ensures var t := RoundRun(s, rounds);
            CallRun(s.world, s.input, RoundsCalls(s, rounds)) == (t.world, t.input)
  {
    hide RoundStep, RoundCalls, GoodInput, CallStep;
    if rounds == [] {
      CallRunNone(s.world, s.input);
    } else {
      var n := |rounds| - 1;
      RoundsAreCalls(s, rounds[..n]);
      var before := RoundRun(s, rounds[..n]);
      RoundIsCalls(before, rounds[n]);
      CallRunConcat(s.world, s.input, RoundsCalls(s, rounds[..n]), RoundCalls(before, rounds[n]));
    }
  }

  predicate CalmRounds(rounds: seq<Round>) {
    forall i :: 0 <= i < |rounds| ==> Calm(rounds[i].actions)
  }

  lemma {:induction false} CalmRoundsCalls(s: Loop, rounds: seq<Round>)
    requires GoodInput(s.input) && CalmRounds(rounds)
    ensures CalmCalls(RoundsCalls(s, rounds))
  {
    hide ActAll, GoodInput, RoundRun, Calm;
    if rounds != [] {
      CalmRoundsCalls(s, rounds[..|rounds| - 1]);
    }
  }

  /** The same for the main loop: over every schedule with a fixed registry the
      callbacks and the current client are the fold of the lines read. */
  lemma LoopFoldsLines(s: Loop, rounds: seq<Round>)
    requires GoodInput(s.input) && CalmInput(s.input) && CalmRounds(rounds)
    ensures var t := RoundRun(s, rounds);
            var events := LineEvents(LineTexts(Consumed(s.input, t.input)));
            Leaves(s.input, t.input) && GoodEvents(events) && t.world.d == Replay(s.world.d, events)
  {
    hide RoundRun, RoundsCalls, CallRun, CalmInput, GoodInput, Replay, CalmRounds, CalmCalls;
    RoundsAreCalls(s, rounds);
    CalmRoundsCalls(s, rounds);
    CalmRunFoldsLines(s.world, s.input, RoundsCalls(s, rounds));
  }

  function Begin(input: seq<Recv>): Loop {
    Loop(START, input, [], 0, 0, false)
  }

  /** Over every schedule, registrations included, the loop answers each line once
      and in order, and the current client is the one that was registered under the
      name in the latest `listen` when it came, or none. */
  lemma LoopFollowsListeners(input: seq<Recv>, rounds: seq<Round>)
    requires GoodInput(input)
    ensures var t := RoundRun(Begin(input), rounds); var events := t.world.history;
            && Leaves(input, t.input) && HistoryLines(events) == LineTexts(Consumed(input, t.input))
            && GoodEvents(events) && t.world.d == Replay(IDLE, events)
            && t.world.d.current == Listener(events)
  {
    var s := Begin(input);
    var t := RoundRun(s, rounds);
    hide RoundRun, RoundsCalls, CallRun, GoodInput, Replay, HistoryLines, LineTexts, Listener;
    RoundsAreCalls(s, rounds);
    RunAnswers(s.world, s.input, RoundsCalls(s, rounds));
    assert Since(s.world, t.world) == t.world.history;
    CurrentIsLatestListener(t.world.history);
  }

  // ----- the command queue -----

  /** The commands among what was handed to the socket. */
  function Commands(log: seq<Sending>): seq<Command> {
    if log == [] then []
    else
      var n := |log| - 1;
      Commands(log[..n]) + if log[n].Queued? then [log[n].command] else []
  }

  lemma CommandsAppend(log: seq<Sending>, s: Sending)
    ensures Commands(log + [s]) == Commands(log) + if s.Queued? then [s.command] else []
    ensures Count(log + [s], Noop) == Count(log, Noop) + if s == Noop then 1 else 0
  {
    assert (log + [s])[..|log|] == log;
    CountConcat(log, [s], Noop);
    assert [s][1..] == [];
  }

  /** Between the two states commands were only added, at the end of the queue. */
  ghost predicate Grows(w: World, v: World) {
    w.queue <= v.queue && v.accepted == w.accepted + v.queue[|w.queue|..]
  }

  lemma GrowsNot(w: World, v: World)
    requires v.queue == w.queue && v.accepted == w.accepted
    ensures Grows(w, v)
  {
  }

  lemma GrowsThen(w: World, v: World, x: World)
    requires Grows(w, v) && Grows(v, x)
    ensures Grows(w, x)
  {
    var m, n := |w.queue|, |v.queue|;
    assert v.queue[m..] == x.queue[m..n];
    assert x.queue[m..] == x.queue[m..n] + x.queue[n..];
  }

  lemma ActGrows(w: World, a: Action)
    ensures Grows(w, Act(w, a))
  {
    hide Apply;
    match a
    case Append(command) => assert (w.queue + [command])[|w.queue|..] == [command];
    case _ => GrowsNot(w, Act(w, a));
  }

  lemma {:induction false} ActAllGrows(w: World, actions: seq<Action>)
    ensures Grows(w, ActAll(w, actions))
  {
    hide Act, Grows;
    if actions == [] {
      GrowsNot(w, w);
    } else {
      var n := |actions| - 1;
      ActAllGrows(w, actions[..n]);
      ActGrows(ActAll(w, actions[..n]), actions[n]);
      GrowsThen(w, ActAll(w, actions[..n]), ActAll(w, actions));
    }
  }

  lemma ReceivedGrows(w: World, r: Recv)
    requires GoodRecv(r)
    ensures Grows(w, Received(w, r).0)
  {
    hide Grows, ActAll;
    ActAllGrows(w, r.before);
    var acted := ActAll(w, r.before);
    if r.answer.Line? {
      var next := Happen(acted, LineIn(r.answer.text));
      GrowsNot(acted, next);
      ActAllGrows(next, r.answer.during);
      GrowsThen(acted, next, ActAll(next, r.answer.during));
      GrowsThen(w, acted, Received(w, r).0);
    }
  }

  lemma {:induction false} AwaitGrows(w: World, input: seq<Recv>, tries: nat, sent: int)
    requires GoodInput(input)
    ensures Grows(w, AwaitAnswer(w, input, tries, sent).1)
    decreases |input|
  {
    hide Grows, Received, GoodRecv;
    if tries == 0 || input == [] {
      GrowsNot(w, w);
    } else {
      ReceivedGrows(w, input[0]);
      var next := Received(w, input[0]).0;
      AwaitGrows(next, input[1..], tries - 1, sent);
      GrowsThen(w, next, AwaitAnswer(next, input[1..], tries - 1, sent).1);
    }
  }

  lemma {:induction false} DrainGrows(w: World, input: seq<Recv>)
    requires GoodInput(input)
    ensures Grows(w, Drain(w, input).1)
    decreases |input|
  {
    hide Grows, Received, GoodRecv;
    if input == [] {
      GrowsNot(w, w);
    } else {
      ReceivedGrows(w, input[0]);
      var next := Received(w, input[0]).0;
      DrainGrows(next, input[1..]);
      GrowsThen(w, next, Drain(next, input[1..]).1);
    }
  }

  lemma SendGrows(w: World, input: seq<Recv>, sent: int)
    requires GoodInput(input)
    ensures Grows(w, SendAndAwait(w, input, sent).1)
  {
    hide Grows, AwaitAnswer, GoodInput;
    GrowsNot(w, w);
    AwaitGrows(w, input, 10, sent);
  }

  /** Every accepted command has been sent or is in the queue, in that order; the
      noops among what was sent are those of 31 idle rounds each. */
  ghost predicate Balanced(s: Loop) {
    && s.world.accepted == Commands(s.log) + s.world.queue
    && s.idle == 31 * Count(s.log, Noop) + (if s.died && s.count == 31 then 0 else s.count)
    && 0 <= s.count <= (if s.died then 31 else 30)
  }

  lemma GrownBalance(sent: seq<Command>, w: World, v: World)
    requires w.accepted == sent + w.queue && Grows(w, v)
    ensures v.accepted == sent + v.queue
  {
    assert v.queue == w.queue + v.queue[|w.queue|..];
    assert sent + (w.queue + v.queue[|w.queue|..]) == (sent + w.queue) + v.queue[|w.queue|..];
  }

  lemma TakenBalance(log: seq<Sending>, w: World)
    requires w.accepted == Commands(log) + w.queue && w.queue != []
    ensures var taken := w.(queue := w.queue[1..]);
            taken.accepted == Commands(log + [Queued(w.queue[0])]) + taken.queue
  {
    CommandsAppend(log, Queued(w.queue[0]));
    hide Commands;
    assert w.queue == [w.queue[0]] + w.queue[1..];
    assert Commands(log) + ([w.queue[0]] + w.queue[1..]) == Commands(log) + [w.queue[0]] + w.queue[1..];
  }

  lemma RoundBalanced(s: Loop, r: Round)
    requires GoodInput(s.input) && Balanced(s)
    ensures Balanced(RoundStep(s, r))
  {
    hide ActAll, SendAndAwait, Drain, GoodInput, Commands, Count, Grows;
    if !s.died && !s.world.exit {
      var w := ActAll(s.world, r.actions);
      ActAllGrows(s.world, r.actions);
      GrownBalance(Commands(s.log), s.world, w);
      if w.queue != [] {
        var taken := w.(queue := w.queue[1..]);
        TakenBalance(s.log, w);
        SendGrows(taken, s.input, r.sent);
        CommandsAppend(s.log, Queued(w.queue[0]));
        GrownBalance(Commands(s.log + [Queued(w.queue[0])]), taken, RoundStep(s, r).world);
      } else if s.count == 30 {
        SendGrows(w, s.input, r.sent);
        CommandsAppend(s.log, Noop);
        GrownBalance(Commands(s.log + [Noop]), w, RoundStep(s, r).world);
      } else {
        DrainGrows(w, s.input);
        GrownBalance(Commands(s.log), w, RoundStep(s, r).world);
      }
    }
  }

  lemma {:induction false} RoundsBalanced(s: Loop, rounds: seq<Round>)
    requires GoodInput(s.input) && Balanced(s)
    ensures Balanced(RoundRun(s, rounds))
  {
    hide RoundStep, Balanced, GoodInput;
    if rounds != [] {
      var n := |rounds| - 1;
      RoundsBalanced(s, rounds[..n]);
      RoundBalanced(RoundRun(s, rounds[..n]), rounds[n]);
    }
  }

  function ByProducer(commands: seq<Command>, producer: nat): seq<Command> {
    if commands == [] then []
    else
      var n := |commands| - 1;
      ByProducer(commands[..n], producer) + if commands[n].producer == producer then [commands[n]] else []
  }

  lemma {:induction false} ByProducerConcat(a: seq<Command>, b: seq<Command>, producer: nat)
    ensures ByProducer(a + b, producer) == ByProducer(a, producer) + ByProducer(b, producer)
  {
    if b == [] {
      assert a + b == a;
    } else {
      var n := |b| - 1;
      ByProducerConcat(a, b[..n], producer);
      assert (a + b)[..|a| + n] == a + b[..n];
      var x, y := ByProducer(a, producer), ByProducer(b[..n], producer);
      var z := if b[n].producer == producer then [b[n]] else [];
      assert (x + y) + z == x + (y + z);
    }
  }

  /** The texts of commands in the order in which they stand. */
  function CommandTexts(commands: seq<Command>): seq<string> {
    seq(|commands|, i requires 0 <= i < |commands| => commands[i].text)
  }

  /** Over every schedule: the commands handed to the socket, in order and with the
      noops left out, followed by those still in the queue, are the commands that
      got into it; so each producer's commands are sent in the order in which it
      pushed them; and the noops are one for every 31 idle rounds. */
  lemma EveryCommandOnce(input: seq<Recv>, rounds: seq<Round>, producer: nat)
    requires GoodInput(input)
    ensures var t := RoundRun(Begin(input), rounds); var sent, pushed := Commands(t.log), t.world.accepted;
            && pushed == sent + t.world.queue
            && ByProducer(sent, producer) <= ByProducer(pushed, producer)
            && t.idle == 31 * Count(t.log, Noop) + (if t.died && t.count == 31 then 0 else t.count)
            && 0 <= t.count <= (if t.died then 31 else 30)
  {
    var t := RoundRun(Begin(input), rounds);
    assert Balanced(Begin(input));
    hide RoundRun, Commands, Count, ByProducer, GoodInput;
    RoundsBalanced(Begin(input), rounds);
    ByProducerConcat(Commands(t.log), t.world.queue, producer);
  }

  /** What `Run` leaves in the socket: taking the noops out of the texts leaves the
      texts of the commands. */
  lemma SentTexts(log: seq<Sending>)
    ensures |Texts(log)| == |log|
    ensures forall i :: 0 <= i < |log| ==>
              Texts(log)[i] == if log[i] == Noop then "noop\n" else log[i].command.text
    ensures CommandTexts(Commands(log)) == WithoutNoops(Texts(log), log)
  {
    TextsWithoutNoops(log);
  }

  /** The texts that were not handed over as noops of the thread itself. */
  function WithoutNoops(texts: seq<string>, log: seq<Sending>): seq<string>
    requires |texts| == |log|
  {
    if log == [] then []
    else
      var n := |log| - 1;
      WithoutNoops(texts[..n], log[..n]) + if log[n] == Noop then [] else [texts[n]]
  }

  lemma {:induction false} TextsWithoutNoops(log: seq<Sending>)
    ensures CommandTexts(Commands(log)) == WithoutNoops(Texts(log), log)
  {
    if log != [] {
      var n := |log| - 1;
      TextsWithoutNoops(log[..n]);
      assert Texts(log)[..n] == Texts(log[..n]);
      if log[n].Queued? {
        CommandTextsAppend(Commands(log[..n]), log[n].command);
      }
    }
  }

  lemma CommandTextsAppend(commands: seq<Command>, c: Command)
    ensures CommandTexts(commands + [c]) == CommandTexts(commands) + [c.text]
  {
  }

  /** A service thread from its start on, over every schedule: what it has handed
      to the socket is, without its noops, the texts of the commands pushed so far
      up to those still in the queue; the lines read are those in its history; and
      its current client is the latest listener. */
  method Serve(input: seq<Recv>, rounds: seq<Round>)
    returns (thread: ServiceThread, count: int, died: bool, ghost log: seq<Sending>, ghost idle: nat)
    requires GoodInput(input)
    ensures |thread.sent| == |log| && forall i :: 0 <= i < |log| && log[i] == Noop ==> thread.sent[i] == "noop\n"
    ensures WithoutNoops(thread.sent, log) + CommandTexts(thread.queue) == CommandTexts(thread.accepted)
    ensures idle == 31 * Count(log, Noop) + if died && count == 31 then 0 else count
    ensures HistoryLines(thread.history) == LineTexts(Consumed(input, thread.input))
    ensures GoodEvents(thread.history)
    ensures thread.current == Listener(thread.history)
  {
    hide RoundRun, Texts, Commands, CommandTexts, WithoutNoops, HistoryLines, LineTexts, Consumed, Listener;
    hide Replay, GoodInput, GoodEvents, Count;
    thread := new ServiceThread(input);
    count, died, log, idle := thread.Run(rounds);
    EveryCommandOnce(input, rounds, 0);
    LoopFollowsListeners(input, rounds);
    assert [] + Texts(log) == Texts(log);
    SentTexts(log);
    CommandTextsConcat(Commands(log), thread.queue);
  }

  lemma CommandTextsConcat(a: seq<Command>, b: seq<Command>)
    ensures CommandTexts(a + b) == CommandTexts(a) + CommandTexts(b)
  {
  }
}
