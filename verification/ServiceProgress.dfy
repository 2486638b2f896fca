/** What comes of the service thread's calls: which answer decides them, when the
    loop dies, and that it goes on reading and sending while it lives. */
module ServiceProgress {
  import opened Options
  import opened Sequences
  import opened Dispatcher
  import opened ServiceThreads
  import opened ServiceLaws

  // ----- which answer decides -----

  /** An answer that ends the wait for the outcome of a command: a failed read, or a
      line that tells of no event at the display. */
  predicate Decides(answer: Answer) {
    answer.Failed? || (answer.Line? && !TellsEvent(answer.text))
  }

  /** The outcome that it stands for; `sent` is what sending answered. */
  function Outcome(answer: Answer, sent: int): int {
    match answer
    case Failed => sent
    case Line(text, _) => if TellsSuccess(text) then 0 else -1
    case Nothing => 0
  }

  /** Index of the first answer among the first n that decides, if one does. */
  function FirstDeciding(input: seq<Recv>, n: nat): (k: Option<nat>)
    ensures k.Some? ==> k.value < n && k.value < |input|
  {
    if n == 0 || input == [] then None
    else if Decides(input[0].answer) then Some(0)
    else
      match FirstDeciding(input[1..], n - 1)
      case None => None
      case Some(k) => Some(k + 1)
  }

  lemma {:induction false} FirstDecidingIsFirst(input: seq<Recv>, n: nat)
    ensures var k := FirstDeciding(input, n);
            && (k.Some? ==> Decides(input[k.value].answer))
            && forall i :: 0 <= i < (if k.Some? then k.value else Min(n, |input|)) ==> !Decides(input[i].answer)
  {
    hide Decides;
    if n > 0 && input != [] && !Decides(input[0].answer) {
      FirstDecidingIsFirst(input[1..], n - 1);
      assert forall i :: 1 <= i < |input| ==> input[i] == input[1..][i - 1];
    }
  }

  lemma ReceivedResponse(w: World, r: Recv)
    requires GoodRecv(r) && r.answer.Line?
    ensures var response := Received(w, r).1;
            && (response == Callback <==> TellsEvent(r.answer.text))
            && (response == Success <==> TellsSuccess(r.answer.text))
  {
    ResponseByFirstWord(ActAll(w, r.before).d, r.answer.text);
    hide ActAll, Process, TellsEvent, TellsSuccess;
  }

  lemma AwaitStep(w: World, input: seq<Recv>, tries: nat, sent: int)
    requires GoodInput(input) && tries > 0 && input != []
    ensures var next := Received(w, input[0]).0;
            AwaitAnswer(w, input, tries, sent) ==
            if Decides(input[0].answer) then (Outcome(input[0].answer, sent), next, input[1..])
            else AwaitAnswer(next, input[1..], tries - 1, sent)
  {
    hide Received, TellsEvent, TellsSuccess;
    if input[0].answer.Line? {
      ReceivedResponse(w, input[0]);
    }
  }

  lemma AwaitNothing(w: World, input: seq<Recv>, tries: nat, sent: int)
    requires GoodInput(input) && (tries == 0 || input == [])
    ensures AwaitAnswer(w, input, tries, sent) == (0, w, input)
  {
  }

  /** The first deciding one of so many answers gives the result, and the input
      behind it is left; when none decides the result is 0. */
  lemma {:induction false} AwaitDecides(w: World, input: seq<Recv>, tries: nat, sent: int)
    requires GoodInput(input)
    ensures var (ret, v, rest) := AwaitAnswer(w, input, tries, sent);
            match FirstDeciding(input, tries)
            case Some(k) => ret == Outcome(input[k].answer, sent) && rest == input[k + 1..]
            case None => ret == 0 && rest == input[Min(tries, |input|)..]
    decreases |input|
  {
    hide Received, AwaitAnswer, Decides, Outcome, GoodRecv;
    if tries == 0 || input == [] {
      AwaitNothing(w, input, tries, sent);
    } else {
      AwaitStep(w, input, tries, sent);
      if !Decides(input[0].answer) {
        AwaitDecides(Received(w, input[0]).0, input[1..], tries - 1, sent);
      }
    }
  }

  /** `send_command_succ` is decided by the first ten answers; without success in
      sending nothing is read. */
  lemma SendDecides(w: World, input: seq<Recv>, sent: int)
    requires GoodInput(input)
    ensures var (ret, v, rest) := SendAndAwait(w, input, sent);
            if sent < 0 then ret == sent && rest == input
            else
              match FirstDeciding(input, 10)
              case Some(k) => ret == Outcome(input[k].answer, sent) && rest == input[k + 1..]
              case None => ret == 0 && rest == input[Min(10, |input|)..]
  {
    hide AwaitAnswer, FirstDeciding, Outcome;
    if sent >= 0 {
      AwaitDecides(w, input, 10, sent);
    }
  }

  /** An answer that ends polling: nothing there, or one that decides. */
  predicate EndsPoll(answer: Answer) {
    answer.Nothing? || Decides(answer)
  }

  function FirstEndingPoll(input: seq<Recv>): (k: Option<nat>)
    ensures k.Some? ==> k.value < |input|
  {
    if input == [] then None
    else if EndsPoll(input[0].answer) then Some(0)
    else match FirstEndingPoll(input[1..]) case None => None case Some(k) => Some(k + 1)
  }

  lemma {:induction false} FirstEndingPollIsFirst(input: seq<Recv>)
    ensures var k := FirstEndingPoll(input);
            && (k.Some? ==> EndsPoll(input[k.value].answer))
            && forall i :: 0 <= i < (if k.Some? then k.value else |input|) ==> !EndsPoll(input[i].answer)
  {
    hide EndsPoll;
    if input != [] && !EndsPoll(input[0].answer) {
      FirstEndingPollIsFirst(input[1..]);
      assert forall i :: 1 <= i < |input| ==> input[i] == input[1..][i - 1];
    }
  }

  lemma PollStep(w: World, input: seq<Recv>)
    requires GoodInput(input) && input != []
    ensures var next := Received(w, input[0]).0;
            Drain(w, input) ==
            if EndsPoll(input[0].answer) then (Outcome(input[0].answer, -1), next, input[1..])
            else Drain(next, input[1..])
  {
    hide Received, TellsEvent, TellsSuccess;
    if input[0].answer.Line? {
      ReceivedResponse(w, input[0]);
    }
  }

  lemma PollNothing(w: World)
    ensures Drain(w, []) == (0, w, [])
  {
  }

  /** `check_for_input` reads up to the first answer that ends it; its result is
      negative for a failed read and for a line that is neither an event nor a
      success. */
  lemma {:induction false} PollDecides(w: World, input: seq<Recv>)
    requires GoodInput(input)
    ensures var (ret, v, rest) := Drain(w, input);
            match FirstEndingPoll(input)
            case Some(k) => ret == Outcome(input[k].answer, -1) && rest == input[k + 1..]
            case None => ret == 0 && rest == []
    decreases |input|
  {
    hide Received, Drain, EndsPoll, Outcome, GoodRecv;
    if input == [] {
      PollNothing(w);
    } else {
      PollStep(w, input);
      if !EndsPoll(input[0].answer) {
        PollDecides(Received(w, input[0]).0, input[1..]);
      }
    }
  }

  // ----- one round -----

  /** What a round does, as long as the loop is alive and the program not exiting: it
      sends the command that has waited longest and does not look at the outcome; or,
      in the 31st idle round, a noop, and dies when that fails; or it polls, and dies
      when that fails. */
  lemma RoundOutcome(s: Loop, r: Round)
    requires GoodInput(s.input) && !s.died && !s.world.exit
    ensures var t := RoundStep(s, r); var queue := ActAll(s.world, r.actions).queue;
            if queue != [] then
              && t.log == s.log + [Queued(queue[0])] && t.count == s.count && t.idle == s.idle && !t.died
            else if s.count == 30 then
              && t.log == s.log + [Noop] && t.idle == s.idle + 1
              && t.died == (r.sent < 0 || NoopFails(s.input))
              && t.count == if t.died then 31 else 0
            else
              && t.log == s.log && t.idle == s.idle + 1 && t.count == s.count + 1
              && t.died == PollFails(s.input)
  {
    hide ActAll, Drain, SendAndAwait, NoopFails, PollFails, GoodInput;
    var w := ActAll(s.world, r.actions);
    if w.queue == [] {
      NoopResult(w, s.input, r.sent);
      PollResult(w, s.input);
    }
  }

  lemma NoopResult(w: World, input: seq<Recv>, sent: int)
    requires GoodInput(input)
    ensures SendAndAwait(w, input, sent).0 < 0 <==> sent < 0 || NoopFails(input)
  {
    SendDecides(w, input, sent);
    hide SendAndAwait, FirstDeciding, GoodInput, TellsSuccess;
  }

  lemma PollResult(w: World, input: seq<Recv>)
    requires GoodInput(input)
    ensures Drain(w, input).0 != 0 <==> PollFails(input)
  {
    PollDecides(w, input);
    hide Drain, FirstEndingPoll, GoodInput, TellsSuccess;
  }

  /** Among the next ten answers the first that decides is a line that refuses. */
  predicate NoopFails(input: seq<Recv>) {
    match FirstDeciding(input, 10)
    case Some(k) => input[k].answer.Line? && !TellsSuccess(input[k].answer.text)
    case None => false
  }

  /** Polling meets a failed read, or a line that is neither event nor success. */
  predicate PollFails(input: seq<Recv>) {
    match FirstEndingPoll(input)
    case Some(k) => input[k].answer.Failed? || (input[k].answer.Line? && !TellsSuccess(input[k].answer.text))
    case None => false
  }

  // ----- a healthy server keeps the loop alive -----

  predicate HealthyAnswer(answer: Answer) {
    Decides(answer) ==> answer.Line? && TellsSuccess(answer.text)
  }

  /** No read fails, and every line is an event or a success. */
  predicate Healthy(input: seq<Recv>) {
    forall i :: 0 <= i < |input| ==> HealthyAnswer(input[i].answer)
  }

  lemma HealthyDoesNotFail(input: seq<Recv>)
    requires Healthy(input)
    ensures !NoopFails(input) && !PollFails(input)
  {
    FirstDecidingIsFirst(input, 10);
    FirstEndingPollIsFirst(input);
    hide FirstDeciding, FirstEndingPoll, TellsEvent, TellsSuccess;
    assert forall i :: 0 <= i < |input| ==> HealthyAnswer(input[i].answer);
  }

  lemma HealthyRest(input: seq<Recv>, rest: seq<Recv>)
    requires Healthy(input) && Leaves(input, rest)
    ensures Healthy(rest)
  {
    hide HealthyAnswer;
    var n := |input| - |rest|;
    forall i | 0 <= i < |rest| ensures HealthyAnswer(rest[i].answer) {
      assert rest[i] == input[n + i];
    }
  }

  /** What a round leaves of the input: nothing less than its end, and at least one
      answer less whenever the round reads and there is one. */
  lemma RoundReads(s: Loop, r: Round)
    requires GoodInput(s.input)
    ensures var t := RoundStep(s, r);
            && Leaves(s.input, t.input)
            && (!s.died && !s.world.exit && r.sent >= 0 && s.input != [] ==> |t.input| < |s.input|)
  {
    hide ActAll, Drain, SendAndAwait, GoodInput, Leaves;
    LeavesAll(s.input);
    if !s.died && !s.world.exit {
      var w := ActAll(s.world, r.actions);
      var v := if w.queue != [] then w.(queue := w.queue[1..]) else w;
      SendReads(v, s.input, r.sent);
      PollReads(w, s.input);
    }
  }

  lemma LeavesAll(input: seq<Recv>)
    ensures Leaves(input, input)
  {
  }

  lemma SendReads(w: World, input: seq<Recv>, sent: int)
    requires GoodInput(input)
    ensures var rest := SendAndAwait(w, input, sent).2;
            Leaves(input, rest) && (sent >= 0 && input != [] ==> |rest| < |input|)
  {
    SendDecides(w, input, sent);
    hide SendAndAwait, FirstDeciding, GoodInput;
  }

  lemma PollReads(w: World, input: seq<Recv>)
    requires GoodInput(input)
    ensures var rest := Drain(w, input).2; Leaves(input, rest) && (input != [] ==> |rest| < |input|)
  {
    PollDecides(w, input);
    hide Drain, FirstEndingPoll, GoodInput;
  }

  /** As long as sending succeeds and the server answers with events and successes
      the loop does not die, over every schedule. */
  lemma {:induction false} HealthyLoopLives(s: Loop, rounds: seq<Round>)
    requires GoodInput(s.input) && !s.died && Healthy(s.input)
    requires forall i :: 0 <= i < |rounds| ==> rounds[i].sent >= 0
    ensures var t := RoundRun(s, rounds); !t.died && Healthy(t.input) && |t.input| <= |s.input|
  {
    hide RoundStep, Healthy, GoodInput, NoopFails, PollFails;
    if rounds != [] {
      var n := |rounds| - 1;
      HealthyLoopLives(s, rounds[..n]);
      var before := RoundRun(s, rounds[..n]);
      RoundReads(before, rounds[n]);
      HealthyRest(before.input, RoundStep(before, rounds[n]).input);
      HealthyDoesNotFail(before.input);
      if before.world.exit {
        ExitedStays(before, rounds[n]);
      } else {
        RoundOutcome(before, rounds[n]);
      }
    }
  }

  lemma ExitedStays(s: Loop, r: Round)
    requires GoodInput(s.input) && (s.died || s.world.exit)
    ensures RoundStep(s, r) == s
  {
  }

  /** A loop that has not stopped has gone on in every round before. */
  lemma {:induction false} StillGoing(s: Loop, rounds: seq<Round>, n: nat)
    requires GoodInput(s.input) && n <= |rounds|
    requires var t := RoundRun(s, rounds); !t.died && !t.world.exit
    ensures var u := RoundRun(s, rounds[..n]); !u.died && !u.world.exit
    decreases |rounds|
  {
    hide RoundStep, GoodInput;
    if n == |rounds| {
      assert rounds[..n] == rounds;
    } else {
      var m := |rounds| - 1;
      var u := RoundRun(s, rounds[..m]);
      if u.died || u.world.exit {
        ExitedStays(u, rounds[m]);
      }
      StillGoing(s, rounds[..m], n);
      assert rounds[..m][..n] == rounds[..n];
    }
  }

  /** A round either sends one command or is idle. */
  lemma RoundWorks(s: Loop, r: Round)
    requires GoodInput(s.input) && !s.died && !s.world.exit
    ensures var t := RoundStep(s, r); |Commands(t.log)| + t.idle == |Commands(s.log)| + s.idle + 1
  {
    hide RoundStep, GoodInput, NoopFails, PollFails, Commands, Count, ActAll;
    RoundOutcome(s, r);
    var queue := ActAll(s.world, r.actions).queue;
    if queue != [] {
      CommandsAppend(s.log, Queued(queue[0]));
    } else if s.count == 30 {
      CommandsAppend(s.log, Noop);
    }
  }

  /** Every round in which the loop has not stopped either sends one command or is
      idle. */
  lemma {:induction false} EveryRoundWorks(s: Loop, rounds: seq<Round>)
    requires GoodInput(s.input)
    requires var t := RoundRun(s, rounds); !t.died && !t.world.exit
    ensures var t := RoundRun(s, rounds);
            |Commands(t.log)| + t.idle == |Commands(s.log)| + s.idle + |rounds|
  {
    hide RoundStep, GoodInput, Commands;
    if rounds != [] {
      var n := |rounds| - 1;
      StillGoing(s, rounds, n);
      EveryRoundWorks(s, rounds[..n]);
      RoundWorks(RoundRun(s, rounds[..n]), rounds[n]);
    }
  }

  /** When sending succeeds each such round reads an answer if there is one, so that
      after as many rounds as there were answers all have been read. */
  lemma {:induction false} EveryAnswerIsRead(s: Loop, rounds: seq<Round>)
    requires GoodInput(s.input) && forall i :: 0 <= i < |rounds| ==> rounds[i].sent >= 0
    requires var t := RoundRun(s, rounds); !t.died && !t.world.exit
    ensures |RoundRun(s, rounds).input| <= Max(|s.input| - |rounds|, 0)
  {
    hide RoundStep, GoodInput, Leaves;
    if rounds != [] {
      var n := |rounds| - 1;
      StillGoing(s, rounds, n);
      EveryAnswerIsRead(s, rounds[..n]);
      var before := RoundRun(s, rounds[..n]);
      RoundReads(before, rounds[n]);
      LeavesLess(before.input, RoundStep(before, rounds[n]).input);
    }
  }

  lemma LeavesLess(input: seq<Recv>, rest: seq<Recv>)
    requires Leaves(input, rest)
    ensures |rest| <= |input|
  {
  }

  // ----- what the other threads' steps amount to -----

  function Appended(actions: seq<Action>): seq<Command> {
    if actions == [] then []
    else
      var n := |actions| - 1;
      Appended(actions[..n]) + if actions[n].Append? then [actions[n].command] else []
  }

  /** Registrations less unregistrations among the steps that count. */
  function Balance(actions: seq<Action>): int {
    if actions == [] then 0
    else
      var n := |actions| - 1;
      Balance(actions[..n]) + if actions[n].CountUp? then 1 else if actions[n].CountDown? then -1 else 0
  }

  lemma ActCounts(w: World, a: Action)
    ensures var v := Act(w, a);
            && v.queue == w.queue + Appended([a]) && v.accepted == w.accepted + Appended([a])
            && v.number == w.number + Balance([a])
            && (v.exit <==> w.exit || a == Quit || (a.CountDown? && w.number == 1))
  {
    hide Apply;
    assert [a][..0] == [];
    assert Appended([]) == [] && Balance([]) == 0;
  }

  lemma AppendedLast(actions: seq<Action>, a: Action)
    ensures Appended(actions + [a]) == Appended(actions) + Appended([a])
    ensures Balance(actions + [a]) == Balance(actions) + Balance([a])
  {
    assert (actions + [a])[..|actions|] == actions && [a][..0] == [];
    assert Appended([]) == [] && Balance([]) == 0;
  }

  /** Over any steps of other threads the queue grows by what they push, and the
      counter follows their counting. */
  lemma {:induction false} StepsOfOthers(w: World, actions: seq<Action>)
    ensures var v := ActAll(w, actions);
            && v.queue == w.queue + Appended(actions) && v.accepted == w.accepted + Appended(actions)
            && v.number == w.number + Balance(actions)
  {
    hide Act;
    if actions != [] {
      var n := |actions| - 1;
      StepsOfOthers(w, actions[..n]);
      ActCounts(ActAll(w, actions[..n]), actions[n]);
      AppendedLast(actions[..n], actions[n]);
      hide Appended, Balance;
      assert actions[..n] + [actions[n]] == actions;
    }
  }

  /** The program exits exactly at a signal or when a thread counts down to zero. */
  lemma {:induction false} ExitByOthers(w: World, actions: seq<Action>)
    ensures ActAll(w, actions).exit <==>
            w.exit || exists i :: 0 <= i < |actions| && (actions[i] == Quit || CountsToZero(w, actions, i))
  {
    hide Act, Appended, Balance, CountsToZero;
    if actions != [] {
      var n := |actions| - 1;
      var before := actions[..n];
      ExitByOthers(w, before);
      StepsOfOthers(w, before);
      ActCounts(ActAll(w, before), actions[n]);
      forall i | 0 <= i < n ensures CountsToZero(w, actions, i) <==> CountsToZero(w, before, i) {
        SameCount(w, actions, before, i);
      }
      LastCount(w, actions);
    }
  }

  lemma SameCount(w: World, actions: seq<Action>, before: seq<Action>, i: nat)
    requires i < |before| <= |actions| && before == actions[..|before|]
    ensures CountsToZero(w, actions, i) <==> CountsToZero(w, before, i)
  {
    assert actions[..i] == before[..i];
  }

  lemma LastCount(w: World, actions: seq<Action>)
    requires actions != []
    ensures var n := |actions| - 1;
            CountsToZero(w, actions, n) <==> actions[n].CountDown? && w.number + Balance(actions[..n]) == 1
  {
  }

  ghost predicate CountsToZero(w: World, actions: seq<Action>, i: nat)
    requires i < |actions|
  {
    actions[i].CountDown? && w.number + Balance(actions[..i]) == 1
  }

  lemma {:induction false} HistoryOnlyGrows(w: World, actions: seq<Action>)
    ensures w.history <= ActAll(w, actions).history
  {
    if actions != [] {
      HistoryOnlyGrows(w, actions[..|actions| - 1]);
    }
  }

  /** What happens during a receive gets through, and in its order: what is done before
      it, then the line, then, when that leads to a callback, what is done while the
      callback runs. */
  lemma ReceiveGetsThrough(w: World, r: Recv)
    requires GoodRecv(r)
    ensures var v := Received(w, r).0; var acted := ActAll(w, r.before);
            && v.queue == w.queue + Appended(r.before) +
               (if r.answer.Line? && Process(acted.d, r.answer.text).0.calls != acted.d.calls
                then Appended(r.answer.during) else [])
            && (r.answer.Line? ==> acted.history + [LineIn(r.answer.text)] <= v.history)
  {
    var acted := ActAll(w, r.before);
    StepsOfOthers(w, r.before);
    if r.answer.Line? {
      StepsOfOthers(Happen(acted, LineIn(r.answer.text)), r.answer.during);
      HistoryOnlyGrows(Happen(acted, LineIn(r.answer.text)), r.answer.during);
    }
    hide ActAll, Process, Appended, Balance;
  }
}
