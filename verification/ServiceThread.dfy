/** src/servicethread.c: the thread that sends queued commands to the display
    server and hands the server's events to the registered clients. */
module ServiceThreads {
  import opened Options
  import opened Tokens
  import opened Dispatcher

  // ----- the threads beside this one -----

  /** A command and the thread that pushed it. */
  datatype Command = Command(producer: nat, text: string)

  /** One step of another thread, or of a callback while it runs: the push of a
      command; writing a client into the tables and counting it; taking it out and
      no longer counting it; a signal. Each comes after a look at g_exit, which may
      have been set in between. */
  datatype Action =
    | Append(command: Command)
    | PutIn(client: Client, cookie: Cookie)
    | CountUp
    | TakeOut(name: string)
    | CountDown
    | Quit

  /** The state that the threads share. `history` and `accepted` record what has
      happened to the dispatcher and which commands have got into the queue. */
  datatype World = World(d: Dispatch, number: int, queue: seq<Command>, exit: bool,
                         history: seq<Event>, accepted: seq<Command>)

  const START := World(IDLE, 0, [], false, [], [])

  function Happen(w: World, e: Event): World
    requires GoodEvent(e)
  {
    w.(d := Apply(w.d, e), history := w.history + [e])
  }

  function Act(w: World, a: Action): World {
    match a
    case Append(command) => w.(queue := w.queue + [command], accepted := w.accepted + [command])
    case PutIn(client, cookie) => Happen(w, Insert(client, cookie))
    case CountUp => w.(number := w.number + 1)
    case TakeOut(name) => Happen(w, Remove(name))
    case CountDown => w.(number := w.number - 1, exit := w.exit || w.number - 1 == 0)
    case Quit => w.(exit := true)
  }

  function ActAll(w: World, actions: seq<Action>): World {
    if actions == [] then w else Act(ActAll(w, actions[..|actions| - 1]), actions[|actions| - 1])
  }

  // ----- the two reading loops -----

  /** What one call of `sock_recv_string` answers; `during` is what happens while
      the callback runs to which the line leads, if it leads to one. */
  datatype Answer = Nothing | Line(text: string, during: seq<Action>) | Failed

  /** One receive: what happens before it, and its answer. */
  datatype Recv = Recv(before: seq<Action>, answer: Answer)

  predicate GoodRecv(r: Recv) {
    r.answer.Line? ==> WellFormed(r.answer.text)
  }

  predicate GoodInput(input: seq<Recv>) {
    forall i :: 0 <= i < |input| ==> GoodRecv(input[i])
  }

  function AnswerLine(w: World, line: string, during: seq<Action>): (World, Response)
    requires WellFormed(line)
  {
    var (d, response) := Process(w.d, line);
    var next := Happen(w, LineIn(line));
    (if d.calls != w.d.calls then ActAll(next, during) else next, response)
  }

  function Received(w: World, r: Recv): (World, Response)
    requires GoodRecv(r)
  {
    var acted := ActAll(w, r.before);
    match r.answer
    case Line(text, during) => AnswerLine(acted, text, during)
    case _ => (acted, Success)
  }

  /** What `send_command_succ` does with the answers once the command is sent:
      its result, the state, and the answers it leaves. It reads at most `tries`
      times; a failed read makes it return what sending returned. */
  function AwaitAnswer(w: World, input: seq<Recv>, tries: nat, sent: int): (int, World, seq<Recv>)
    requires GoodInput(input)
    decreases |input|
  {
    if tries == 0 || input == [] then (0, w, input)
    else
      var (next, response) := Received(w, input[0]);
      if input[0].answer.Failed? then (sent, next, input[1..])
      else if input[0].answer.Nothing? || response == Callback then AwaitAnswer(next, input[1..], tries - 1, sent)
      else (if response == Success then 0 else -1, next, input[1..])
  }

  /** `send_command_succ`: without success in sending it does not read. */
  function SendAndAwait(w: World, input: seq<Recv>, sent: int): (int, World, seq<Recv>)
    requires GoodInput(input)
  {
    if sent < 0 then (sent, w, input) else AwaitAnswer(w, input, 10, sent)
  }

  /** What `check_for_input` does with the answers: it stops as soon as nothing is
      there to read. */
  function Drain(w: World, input: seq<Recv>): (int, World, seq<Recv>)
    requires GoodInput(input)
    decreases |input|
  {
    if input == [] then (0, w, input)
    else
      var (next, response) := Received(w, input[0]);
      if input[0].answer.Failed? then (-1, next, input[1..])
      else if input[0].answer.Nothing? then (0, next, input[1..])
      else if response == Callback then Drain(next, input[1..])
      else (if response == Success then 0 else -1, next, input[1..])
  }

  // ----- the main loop -----

  /** One round of the loop: what happens until the queue is read, and what sending
      will answer. */
  datatype Round = Round(actions: seq<Action>, sent: int)

  /** What was handed to the socket: a command from the queue, or a noop. */
  datatype Sending = Queued(command: Command) | Noop

  /** `idle` counts the rounds in which no command was waiting. */
  datatype Loop = Loop(world: World, input: seq<Recv>, log: seq<Sending>, count: int, idle: nat, died: bool)

  function RoundStep(s: Loop, r: Round): Loop
    requires GoodInput(s.input)
  {
    if s.died || s.world.exit then s
    else
      var w := ActAll(s.world, r.actions);
      if w.queue != [] then
        var (ret, next, rest) := SendAndAwait(w.(queue := w.queue[1..]), s.input, r.sent);
        s.(world := next, input := rest, log := s.log + [Queued(w.queue[0])])
      else if s.count == 30 then
        var (ret, next, rest) := SendAndAwait(w, s.input, r.sent);
        Loop(next, rest, s.log + [Noop], if ret < 0 then 31 else 0, s.idle + 1, ret < 0)
      else
        var (ret, next, rest) := Drain(w, s.input);
        s.(world := next, input := rest, count := s.count + 1, idle := s.idle + 1, died := ret != 0)
  }

  function RoundRun(s: Loop, rounds: seq<Round>): (t: Loop)
    requires GoodInput(s.input)
    ensures GoodInput(t.input)
  {
    if rounds == [] then s
    else
      var before := RoundRun(s, rounds[..|rounds| - 1]);
      RoundGood(before, rounds[|rounds| - 1]);
      RoundStep(before, rounds[|rounds| - 1])
  }

  lemma RoundGood(s: Loop, r: Round)
    requires GoodInput(s.input)
    ensures GoodInput(RoundStep(s, r).input)
  {
    hide Received, ActAll, GoodInput, AwaitAnswer, Drain;
    if !s.died && !s.world.exit {
      var w := ActAll(s.world, r.actions);
      if w.queue != [] {
        AwaitLeaves(w.(queue := w.queue[1..]), s.input, 10, r.sent);
      } else {
        AwaitLeaves(w, s.input, 10, r.sent);
        DrainLeaves(w, s.input);
      }
    }
  }

  // ----- both loops read the input from the front -----

  ghost predicate Leaves(input: seq<Recv>, rest: seq<Recv>) {
    |rest| <= |input| && rest == input[|input| - |rest|..]
  }

  lemma {:induction false} AwaitLeaves(w: World, input: seq<Recv>, tries: nat, sent: int)
    requires GoodInput(input)
    ensures var rest := AwaitAnswer(w, input, tries, sent).2; Leaves(input, rest) && GoodInput(rest)
    decreases |input|
  {
    hide Received, GoodRecv;
    if tries > 0 && input != [] {
      AwaitLeaves(Received(w, input[0]).0, input[1..], tries - 1, sent);
    }
  }

  lemma {:induction false} DrainLeaves(w: World, input: seq<Recv>)
    requires GoodInput(input)
    ensures var rest := Drain(w, input).2; Leaves(input, rest) && GoodInput(rest)
    decreases |input|
  {
    hide Received, GoodRecv;
    if input != [] {
      DrainLeaves(Received(w, input[0]).0, input[1..]);
    }
  }

  lemma TwoSteps(w: World, a: Action, b: Action)
    ensures ActAll(w, [a, b]) == Act(Act(w, a), b)
  {
    assert [a, b][..1] == [a] && [a][..0] == [];
    assert ActAll(w, [a]) == Act(w, a);
  }

  lemma QuitSetsExit(w: World)
    ensures Act(w, Quit) == w.(exit := true)
  {
  }

  // ----- the calls -----

  /** The state after some callbacks have been invoked. */
  function Invoke(w: World, calls: seq<Call>, during: seq<Action>): World {
    var next := w.(d := w.d.(calls := w.d.calls + calls));
    if calls == [] then next else ActAll(next, during)
  }

  lemma InvokeNotes(w: World, calls: seq<Call>, during: seq<Action>)
    ensures var next := w.(d := w.d.(calls := w.d.calls + calls));
            Invoke(w, calls, during) == if next.d.calls != w.d.calls then ActAll(next, during) else next
  {
    assert calls != [] ==> |w.d.calls + calls| > |w.d.calls|;
  }

  class ServiceThread {
    var clients: map<string, Client>
    var data: map<string, Cookie>
    var current: Option<Client>
    /** The callbacks invoked. */
    var calls: seq<Call>
    var number: int
    var queue: seq<Command>
    var exit: bool
    /** What further receive calls will answer. */
    var input: seq<Recv>
    /** The texts handed to `sock_send_string`. */
    var sent: seq<string>

    ghost var history: seq<Event>
    ghost var accepted: seq<Command>

    ghost function Shared(): World
      reads this
    {
      World(Dispatch(clients, data, current, calls), number, queue, exit, history, accepted)
    }

    constructor (input: seq<Recv>)
      ensures Shared() == START && this.input == input && sent == []
    {
      clients, data, current, calls, number, queue, exit := map[], map[], None, [], 0, [], false;
      sent := [];
      this.input := input;
      history, accepted := [], [];
    }

    method AppendCommand(command: Command)
      modifies this`queue, this`accepted
      ensures Shared() == Act(old(Shared()), Append(command))
    {
      queue, accepted := queue + [command], accepted + [command];
    }

    /** The critical section of a registration. */
    method InsertClient(client: Client, cookie: Cookie)
      modifies this`clients, this`data, this`history
      ensures Shared() == Act(old(Shared()), PutIn(client, cookie))
    {
      clients := clients[client.name := client];
      data := data[client.name := cookie];
      history := history + [Insert(client, cookie)];
    }

    /** The critical section of an unregistration. */
    method RemoveClient(name: string)
      modifies this`clients, this`data, this`history
      ensures Shared() == Act(old(Shared()), TakeOut(name))
    {
      clients := clients - {name};
      data := data - {name};
      history := history + [Remove(name)];
    }

    method IncrementNumber()
      modifies this`number
      ensures Shared() == Act(old(Shared()), CountUp)
    {
      number := number + 1;
    }

    method DecrementNumber()
      modifies this`number, this`exit
      ensures Shared() == Act(old(Shared()), CountDown)
    {
      number := number - 1;
      if number == 0 {
        exit := true;
      }
    }

    /** `service_thread_command`. */
    method PushCommand(command: Command)
      modifies this`queue, this`accepted
      ensures Shared() == if old(exit) then old(Shared()) else Act(old(Shared()), Append(command))
      ensures queue == old(queue) + if exit then [] else [command]
    {
      if exit {
        return;
      }
      AppendCommand(command);
    }

    /** `service_thread_register_client`, with nothing in between its steps. */
    method RegisterClient(client: Client, cookie: Cookie)
      modifies this`clients, this`data, this`number, this`history
      ensures Shared() == if old(exit) then old(Shared()) else ActAll(old(Shared()), [PutIn(client, cookie), CountUp])
      ensures !exit ==>
                && clients == old(clients)[client.name := client] && data == old(data)[client.name := cookie]
                && number == old(number) + 1
    {
      if exit {
        return;
      }
      TwoSteps(Shared(), PutIn(client, cookie), CountUp);
      InsertClient(client, cookie);
      IncrementNumber();
    }

    /** `service_thread_unregister_client`, with nothing in between its steps. */
    method UnregisterClient(name: string)
      modifies this`clients, this`data, this`number, this`exit, this`history
      ensures Shared() == if old(exit) then old(Shared()) else ActAll(old(Shared()), [TakeOut(name), CountDown])
      ensures !old(exit) ==>
                && clients == old(clients) - {name} && data == old(data) - {name}
                && number == old(number) - 1 && exit == (number == 0)
    {
      if exit {
        return;
      }
      TwoSteps(Shared(), TakeOut(name), CountDown);
      RemoveClient(name);
      DecrementNumber();
    }

    /** What other threads do, and callbacks while they run. */
    method Perform(actions: seq<Action>)
      modifies this
      ensures Shared() == ActAll(old(Shared()), actions)
      ensures input == old(input) && sent == old(sent)
    {
      hide Act;
      var i := 0;
      while i < |actions|
        invariant 0 <= i <= |actions|
        invariant Shared() == ActAll(old(Shared()), actions[..i])
        invariant input == old(input) && sent == old(sent)
      {
        assert actions[..i + 1][..i] == actions[..i];
        match actions[i] {
          case Append(command) =>
            AppendCommand(command);
          case PutIn(client, cookie) =>
            InsertClient(client, cookie);
          case CountUp =>
            IncrementNumber();
          case TakeOut(name) =>
            RemoveClient(name);
          case CountDown =>
            DecrementNumber();
          case Quit =>
            QuitSetsExit(Shared());
            exit := true;
        }
        i := i + 1;
      }
      assert actions[..i] == actions;
    }

    method RunCallback(call: Call, during: seq<Action>)
      modifies this
      ensures Shared() == Invoke(old(Shared()), [call], during)
      ensures input == old(input) && sent == old(sent)
    {
      hide ActAll;
      calls := calls + [call];
      Perform(during);
    }

    method KeyHandler(key: string, during: seq<Action>)
      modifies this
      ensures Shared() == Invoke(old(Shared()), KeyCalls(old(Shared()).d, key), during)
      ensures input == old(input) && sent == old(sent)
    {
      if current.Some? && current.value.key {
        RunCallback(KeyCall(current.value.name, key, Lookup(data, current.value.name)), during);
      }
    }

    method IgnoreHandler(screen: string, during: seq<Action>)
      modifies this
      ensures Shared() == Invoke(old(Shared()), IgnoreCalls(old(Shared()).d), during)
      ensures input == old(input) && sent == old(sent)
    {
      if current.Some? && current.value.ignore {
        RunCallback(IgnoreCall(current.value.name, Lookup(data, current.value.name)), during);
      }
    }

    method ListenHandler(screen: string, during: seq<Action>)
      modifies this
      ensures var w := old(Shared()); var listening := w.(d := w.d.(current := Lookup(w.d.clients, screen)));
              Shared() == Invoke(listening, ListenCalls(w.d, screen), during)
      ensures input == old(input) && sent == old(sent)
    {
      current := Lookup(clients, screen);
      if current.Some? && current.value.listen {
        RunCallback(ListenCall(current.value.name, Lookup(data, screen)), during);
      }
    }

    method MenuHandler(argv: seq<string>, during: seq<Action>)
      requires |argv| >= 3
      modifies this
      ensures Shared() == Invoke(old(Shared()), MenuCalls(old(Shared()).d, argv), during)
      ensures input == old(input) && sent == old(sent)
    {
      var (name, rest) := SplitFirst(argv[2], '_');
      if name in clients {
        var client := clients[name];
        if client.menu {
          RunCallback(MenuCall(client.name, argv[1], rest, if |argv| == 4 then argv[3] else ""), during);
        }
      }
    }

    /** `lcd_process_response`. */
    method ProcessResponse(line: string, during: seq<Action>) returns (response: Response)
      requires WellFormed(line)
      modifies this
      ensures (Shared(), response) == AnswerLine(old(Shared()), line, during)
      ensures input == old(input) && sent == old(sent)
    {
      hide Words, ActAll, Invoke, KeyCalls, IgnoreCalls, ListenCalls, MenuCalls;
      history := history + [LineIn(line)];
      ghost var w := Shared();
      var argv := Args(line);
      if |argv| < 1 {
        response := ErrMisc;
      } else if argv[0] == "key" {
        KeyHandler(argv[1], during);
        InvokeNotes(w, KeyCalls(w.d, argv[1]), during);
        response := Callback;
      } else if argv[0] == "listen" {
        ListenHandler(argv[1], during);
        ghost var listening := w.(d := w.d.(current := Lookup(w.d.clients, argv[1])));
        InvokeNotes(listening, ListenCalls(w.d, argv[1]), during);
        response := Callback;
      } else if argv[0] == "ignore" {
        IgnoreHandler(argv[1], during);
        InvokeNotes(w, IgnoreCalls(w.d), during);
        response := Callback;
      } else if argv[0] == "success" {
        response := Success;
      } else if argv[0] == "noop" {
        response := Success;
      } else if argv[0] == "huh?" {
        response := Failure;
      } else if argv[0] == "menuevent" {
        MenuHandler(argv, during);
        InvokeNotes(w, MenuCalls(w.d, argv), during);
        response := Callback;
      } else {
        response := Invalid;
      }
    }

    /** One receive call, and the answer to its line if there is one. */
    method Receive() returns (answer: Answer, response: Response)
      requires GoodInput(input)
      modifies this
      ensures old(input) == [] ==>
                answer == Nothing && Shared() == old(Shared()) && input == []
      ensures old(input) != [] ==>
                && answer == old(input)[0].answer && (Shared(), response) == Received(old(Shared()), old(input)[0])
                && input == old(input)[1..]
      ensures GoodInput(input) && sent == old(sent)
    {
      hide AnswerLine, ActAll, WellFormed;
      answer, response := Nothing, Success;
      if input != [] {
        var recv := input[0];
        assert GoodRecv(recv);
        input := input[1..];
        Perform(recv.before);
        answer := recv.answer;
        if answer.Line? {
          response := ProcessResponse(answer.text, answer.during);
        }
      }
    }

    /** `send_command_succ`: sends, then reads up to ten answers. `err` is what
        sending answers. */
    method SendCommandSucc(command: string, err: int) returns (ret: int)
      requires GoodInput(input)
      modifies this
      ensures (ret, Shared(), input) == SendAndAwait(old(Shared()), old(input), err)
      ensures GoodInput(input) && sent == old(sent) + [command]
    {
      hide Received, GoodInput;
      sent := sent + [command];
      if err < 0 {
        return err;
      }
      var loopcount := 0;
      while loopcount < 10
        invariant 0 <= loopcount <= 10 && GoodInput(input) && sent == old(sent) + [command]
        invariant AwaitAnswer(Shared(), input, 10 - loopcount, err) == AwaitAnswer(old(Shared()), old(input), 10, err)
      {
        var answer, response := Receive();
        loopcount := loopcount + 1;
        match answer
        case Failed => return err;
        case Nothing =>
        case Line(_, _) =>
          match response
          case Success => return 0;
          case Callback => continue;
          case Failure => return -1;
          case Invalid => return -1;
          case ErrMisc => return -1;
      }
      return 0;
    }

    /** `check_for_input`: reads until nothing is there or an answer ends it. */
    method CheckForInput() returns (ret: int)
      requires GoodInput(input)
      modifies this
      ensures (ret, Shared(), input) == Drain(old(Shared()), old(input))
      ensures GoodInput(input) && sent == old(sent)
    {
      hide Received, GoodInput;
      while true
        invariant GoodInput(input) && sent == old(sent)
        invariant Drain(Shared(), input) == Drain(old(Shared()), old(input))
        decreases |input|
      {
        var answer, response := Receive();
        match answer
        case Failed => return -1;
        case Nothing => return 0;
        case Line(_, _) =>
          match response
          case Success => return 0;
          case Callback => continue;
          case Failure => return -1;
          case Invalid => return -1;
          case ErrMisc => return -1;
      }
    }

    /** The body of the loop of `service_thread_run`. */
    method PlayRound(round: Round, count0: int, ghost log0: seq<Sending>, ghost idle0: nat)
      returns (count: int, died: bool, ghost log: seq<Sending>, ghost idle: nat)
      requires GoodInput(input) && !exit
      modifies this
      ensures Loop(Shared(), input, log, count, idle, died) ==
              RoundStep(Loop(old(Shared()), old(input), log0, count0, idle0, false), round)
      ensures GoodInput(input) && log0 <= log && sent == old(sent) + Texts(log[|log0|..])
    {
      hide ActAll, SendAndAwait, Drain, GoodInput;
      count, died, log, idle := count0, false, log0, idle0;
      Perform(round.actions);
      if queue != [] {
        var command := queue[0];
        queue := queue[1..];
        log := log + [Queued(command)];
        var _ := SendCommandSucc(command.text, round.sent);
      } else {
        idle, count := idle + 1, count + 1;
        if count - 1 == 30 {
          // the server has to show that it is there
          log := log + [Noop];
          var err := SendCommandSucc("noop\n", round.sent);
          if err < 0 {
            died := true;
          } else {
            count := 0;
          }
        } else {
          var err := CheckForInput();
          if err != 0 {
            died := true;
          }
        }
      }
    }

    /** The loop of `service_thread_run` without the remote interface, over any
        schedule. */
    method Run(rounds: seq<Round>) returns (count: int, died: bool, ghost log: seq<Sending>, ghost idle: nat)
      requires GoodInput(input)
      modifies this
      ensures Loop(Shared(), input, log, count, idle, died) ==
              RoundRun(Loop(old(Shared()), old(input), [], 0, 0, false), rounds)
      ensures sent == old(sent) + Texts(log)
    {
      hide GoodInput, RoundStep, Texts;
      ghost var start := Loop(Shared(), input, [], 0, 0, false);
      NoTexts();
      count, died, log, idle := 0, false, [], 0;
      var r := 0;
      while r < |rounds| && !exit && !died
        invariant 0 <= r <= |rounds| && GoodInput(input)
        invariant Loop(Shared(), input, log, count, idle, died) == RoundRun(start, rounds[..r])
        invariant sent == old(sent) + Texts(log)
      {
        assert rounds[..r + 1][..r] == rounds[..r];
        ghost var before := log;
        count, died, log, idle := PlayRound(rounds[r], count, log, idle);
        TextsConcat(before, log[|before|..]);
        assert before + log[|before|..] == log;
        r := r + 1;
      }
      Stopped(start, rounds, r);
    }
  }

  /** The texts behind a log of sendings. */
  function Texts(log: seq<Sending>): seq<string> {
    seq(|log|, i requires 0 <= i < |log| => if log[i].Queued? then log[i].command.text else "noop\n")
  }

  lemma NoTexts()
    ensures Texts([]) == []
  {
  }

  lemma TextsConcat(a: seq<Sending>, b: seq<Sending>)
    ensures Texts(a + b) == Texts(a) + Texts(b)
  {
  }

  /** Once the loop has ended the rest of the schedule changes nothing. */
  lemma {:induction false} Stopped(s: Loop, rounds: seq<Round>, r: nat)
    requires GoodInput(s.input) && r <= |rounds|
    requires var t := RoundRun(s, rounds[..r]); r == |rounds| || t.died || t.world.exit
    ensures RoundRun(s, rounds) == RoundRun(s, rounds[..r])
    decreases |rounds|
  {
    hide ActAll, SendAndAwait, Drain, GoodInput;
    if r == |rounds| {
      assert rounds[..r] == rounds;
    } else {
      var n := |rounds| - 1;
      assert rounds[..n][..r] == rounds[..r];
      Stopped(s, rounds[..n], r);
    }
  }
}
