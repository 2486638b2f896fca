/** How src/servicethread.c answers a line from the display server: which client
    is current, and which callbacks are invoked. */
module Dispatcher {
  import opened Options
  import opened Sequences
  import opened Tokens

  const MAX_ARGS := 10

  /** A client and which callbacks it has. */
  datatype Client = Client(name: string, key: bool, listen: bool, ignore: bool, menu: bool)

  /** What a client registers along with itself, to get it back in its callbacks. */
  type Cookie = int

  /** A callback that was invoked; `data` is None for a NULL pointer. */
  datatype Call =
    | KeyCall(client: string, key: string, data: Option<Cookie>)
    | ListenCall(client: string, data: Option<Cookie>)
    | IgnoreCall(client: string, data: Option<Cookie>)
    | MenuCall(client: string, event: string, id: Option<string>, arg: string)

  datatype Response = Success | Failure | Callback | ErrMisc | Invalid

  /** What answering a line depends on and changes: the two tables, the current
      client, and the callbacks invoked so far. */
  datatype Dispatch = Dispatch(clients: map<string, Client>, data: map<string, Cookie>,
                               current: Option<Client>, calls: seq<Call>)

  const IDLE := Dispatch(map[], map[], None, [])

  /** The words that `get_args` finds with room for ten. */
  function Args(line: string): (r: seq<string>)
    ensures |r| <= MAX_ARGS
  {
    if |Words(line)| <= MAX_ARGS then Words(line) else Words(line)[..MAX_ARGS]
  }

  /** They are the words of the line, without those behind the tenth. */
  lemma ArgsAreWords(line: string)
    ensures |Words(line)| <= 10 ==> Args(line) == Words(line)
    ensures |Words(line)| > 10 ==> Args(line) == Words(line)[..10]
    ensures Args(line) != [] <==> Words(line) != []
    ensures Words(line) != [] ==> Args(line)[0] == Words(line)[0]
  {
    hide Words;
  }

  /** A line as a well-behaved server sends it: events carry their arguments. */
  predicate WellFormed(line: string) {
    var argv := Args(line);
    argv != [] ==>
      && (argv[0] in {"key", "listen", "ignore"} ==> |argv| >= 2)
      && (argv[0] == "menuevent" ==> |argv| >= 3)
  }

  function Lookup<T>(table: map<string, T>, name: string): Option<T> {
    if name in table then Some(table[name]) else None
  }

  function KeyCalls(d: Dispatch, key: string): seq<Call> {
    match d.current
    case Some(client) => if client.key then [KeyCall(client.name, key, Lookup(d.data, client.name))] else []
    case None => []
  }

  function IgnoreCalls(d: Dispatch): seq<Call> {
    match d.current
    case Some(client) => if client.ignore then [IgnoreCall(client.name, Lookup(d.data, client.name))] else []
    case None => []
  }

  function ListenCalls(d: Dispatch, screen: string): seq<Call> {
    match Lookup(d.clients, screen)
    case Some(client) => if client.listen then [ListenCall(client.name, Lookup(d.data, screen))] else []
    case None => []
  }

  function MenuCalls(d: Dispatch, argv: seq<string>): seq<Call>
    requires |argv| >= 3
  {
    var (name, rest) := SplitFirst(argv[2], '_');
    match Lookup(d.clients, name)
    case Some(client) =>
      if client.menu then [MenuCall(client.name, argv[1], rest, if |argv| == 4 then argv[3] else "")] else []
    case None => []
  }

  /** What one line from the server does. */
  function Process(d: Dispatch, line: string): (Dispatch, Response)
    requires WellFormed(line)
  {
    var argv := Args(line);
    if argv == [] then (d, ErrMisc)
    else if argv[0] == "key" then (d.(calls := d.calls + KeyCalls(d, argv[1])), Callback)
    else if argv[0] == "listen" then
      (d.(current := Lookup(d.clients, argv[1]), calls := d.calls + ListenCalls(d, argv[1])), Callback)
    else if argv[0] == "ignore" then (d.(calls := d.calls + IgnoreCalls(d)), Callback)
    else if argv[0] == "success" || argv[0] == "noop" then (d, Success)
    else if argv[0] == "huh?" then (d, Failure)
    else if argv[0] == "menuevent" then (d.(calls := d.calls + MenuCalls(d, argv)), Callback)
    else (d, Invalid)
  }

  /** A line that tells of an event at the display, by its first word. */
  predicate TellsEvent(line: string) {
    Words(line) != [] && Words(line)[0] in {"key", "listen", "ignore", "menuevent"}
  }

  predicate TellsSuccess(line: string) {
    Words(line) != [] && Words(line)[0] in {"success", "noop"}
  }

  /** What the answers to lines are called, by the first words of the lines; lines
      that tell of no event change nothing. */
  lemma ResponseByFirstWord(d: Dispatch, line: string)
    requires WellFormed(line)
    ensures var (next, response) := Process(d, line);
            && (TellsEvent(line) <==> response == Callback)
            && (TellsSuccess(line) <==> response == Success)
            && (Words(line) == [] <==> response == ErrMisc)
            && (Words(line) != [] && Words(line)[0] == "huh?" <==> response == Failure)
            && (!TellsEvent(line) ==> next == d)
  {
    ArgsAreWords(line);
    hide Words, Args, KeyCalls, IgnoreCalls, ListenCalls, MenuCalls;
  }

  lemma OnKey(d: Dispatch, line: string)
    requires WellFormed(line) && Args(line) != [] && Args(line)[0] == "key"
    ensures Process(d, line) == (d.(calls := d.calls + KeyCalls(d, Args(line)[1])), Callback)
  {
    hide Args, KeyCalls;
  }

  lemma OnIgnore(d: Dispatch, line: string)
    requires WellFormed(line) && Args(line) != [] && Args(line)[0] == "ignore"
    ensures Process(d, line) == (d.(calls := d.calls + IgnoreCalls(d)), Callback)
  {
    hide Args, IgnoreCalls;
  }

  lemma OnListen(d: Dispatch, line: string)
    requires WellFormed(line) && Args(line) != [] && Args(line)[0] == "listen"
    ensures var name := Args(line)[1];
            Process(d, line) ==
            (d.(current := Lookup(d.clients, name), calls := d.calls + ListenCalls(d, name)), Callback)
  {
    hide Args, ListenCalls, Lookup;
  }

  lemma OnMenuEvent(d: Dispatch, line: string)
    requires WellFormed(line) && Args(line) != [] && Args(line)[0] == "menuevent"
    ensures Process(d, line) == (d.(calls := d.calls + MenuCalls(d, Args(line))), Callback)
  {
    hide Args, MenuCalls;
  }

  // ----- whole histories -----

  /** What happens to the dispatcher, in the order in which it happens. */
  datatype Event = LineIn(line: string) | Insert(client: Client, cookie: Cookie) | Remove(name: string)

  predicate GoodEvent(e: Event) {
    e.LineIn? ==> WellFormed(e.line)
  }

  predicate GoodEvents(events: seq<Event>) {
    forall i :: 0 <= i < |events| ==> GoodEvent(events[i])
  }

  function Apply(d: Dispatch, e: Event): Dispatch
    requires GoodEvent(e)
  {
    match e
    case LineIn(line) => Process(d, line).0
    case Insert(client, cookie) =>
      d.(clients := d.clients[client.name := client], data := d.data[client.name := cookie])
    case Remove(name) => d.(clients := d.clients - {name}, data := d.data - {name})
  }

  function Replay(d: Dispatch, events: seq<Event>): Dispatch
    requires GoodEvents(events)
  {
    if events == [] then d else Apply(Replay(d, events[..|events| - 1]), events[|events| - 1])
  }

  lemma {:induction false} ReplayConcat(d: Dispatch, a: seq<Event>, b: seq<Event>)
    requires GoodEvents(a) && GoodEvents(b)
    ensures GoodEvents(a + b)
    ensures Replay(d, a + b) == Replay(Replay(d, a), b)
  {
    hide Apply, GoodEvent;
    if b == [] {
      assert a + b == a;
    } else {
      var n := |b| - 1;
      ReplayConcat(d, a, b[..n]);
      assert (a + b)[..|a| + n] == a + b[..n];
    }
  }

  predicate IsListen(e: Event) {
    e.LineIn? && Args(e.line) != [] && Args(e.line)[0] == "listen"
  }

  /** Index of the latest `listen` line. */
  function LatestListen(events: seq<Event>): (r: Option<nat>)
    ensures r.Some? ==> r.value < |events| && IsListen(events[r.value])
    ensures forall i :: (if r.Some? then r.value + 1 else 0) <= i < |events| ==> !IsListen(events[i])
  {
    if events == [] then None
    else
      var n := |events| - 1;
      if IsListen(events[n]) then Some(n) else LatestListen(events[..n])
  }

  lemma ApplyCurrent(d: Dispatch, e: Event)
    requires GoodEvent(e)
    ensures Apply(d, e).current == if IsListen(e) then Lookup(d.clients, Args(e.line)[1]) else d.current
  {
    hide Words;
  }

  /** Index of the latest registration under a name. */
  function LatestInsert(events: seq<Event>, name: string): (r: Option<nat>)
    ensures r.Some? ==> r.value < |events| && events[r.value].Insert? && events[r.value].client.name == name
    ensures forall i :: (if r.Some? then r.value + 1 else 0) <= i < |events| && events[i].Insert? ==>
              events[i].client.name != name
  {
    if events == [] then None
    else
      var n := |events| - 1;
      if events[n].Insert? && events[n].client.name == name then Some(n) else LatestInsert(events[..n], name)
  }

  /** Whether the name has been unregistered after the i-th event. */
  predicate RemovedSince(events: seq<Event>, name: string, i: nat) {
    Remove(name) in events[Min(i + 1, |events|)..]
  }

  /** The registration that stands under a name: the latest one, if the name has not
      been unregistered since. */
  function Registration(events: seq<Event>, name: string): (r: Option<nat>)
    ensures r.Some? ==> r.value < |events| && events[r.value].Insert?
  {
    match LatestInsert(events, name)
    case None => None
    case Some(i) => if RemovedSince(events, name, i) then None else Some(i)
  }

  function ClientOf(events: seq<Event>, name: string): Option<Client> {
    match Registration(events, name) case None => None case Some(i) => Some(events[i].client)
  }

  function CookieOf(events: seq<Event>, name: string): Option<Cookie> {
    match Registration(events, name) case None => None case Some(i) => Some(events[i].cookie)
  }

  lemma OthersKeepRegistration(events: seq<Event>, name: string)
    requires events != [] && events[|events| - 1] != Remove(name)
    requires events[|events| - 1].Insert? ==> events[|events| - 1].client.name != name
    ensures Registration(events, name) == Registration(events[..|events| - 1], name)
  {
    var n := |events| - 1;
    var before := events[..n];
    match LatestInsert(before, name)
    case None =>
    case Some(i) =>
      assert events[i + 1..] == before[i + 1..] + [events[n]];
  }

  lemma RemoveEndsRegistration(events: seq<Event>, name: string)
    requires events != [] && events[|events| - 1] == Remove(name)
    ensures Registration(events, name) == None
  {
    match LatestInsert(events, name)
    case None =>
    case Some(i) =>
      var n := |events| - 1;
      assert events[i + 1..][n - i - 1] == Remove(name);
  }

  lemma InsertRegisters(events: seq<Event>, name: string)
    requires events != [] && events[|events| - 1].Insert? && events[|events| - 1].client.name == name
    ensures Registration(events, name) == Some(|events| - 1)
  {
  }

  lemma LineKeepsClients(d: Dispatch, line: string)
    requires WellFormed(line)
    ensures Process(d, line).0.clients == d.clients && Process(d, line).0.data == d.data
  {
    hide Words, KeyCalls, IgnoreCalls, ListenCalls, MenuCalls;
  }

  /** Over every history both tables hold under a name what it was last registered
      with, until it is unregistered. */
  lemma {:induction false} TablesFollowEvents(events: seq<Event>, name: string)
    requires GoodEvents(events)
    ensures Lookup(Replay(IDLE, events).clients, name) == ClientOf(events, name)
    ensures Lookup(Replay(IDLE, events).data, name) == CookieOf(events, name)
  {
    if events != [] {
      var n := |events| - 1;
      var before := Replay(IDLE, events[..n]);
      TablesFollowEvents(events[..n], name);
      hide Registration, LatestInsert, Process, WellFormed;
      match events[n]
      case LineIn(line) =>
        LineKeepsClients(before, line);
        OthersKeepRegistration(events, name);
      case Insert(client, _) =>
        if client.name == name {
          InsertRegisters(events, name);
        } else {
          OthersKeepRegistration(events, name);
        }
      case Remove(gone) =>
        if gone == name {
          RemoveEndsRegistration(events, name);
        } else {
          OthersKeepRegistration(events, name);
        }
    }
  }

  // ----- who gets the events -----

  /** The client that was registered under the name in the latest `listen` when that
      arrived, or none. */
  function Listener(events: seq<Event>): Option<Client> {
    match LatestListen(events)
    case None => None
    case Some(i) => if |Args(events[i].line)| >= 2 then ClientOf(events[..i], Args(events[i].line)[1]) else None
  }

  lemma ListenerStep(events: seq<Event>)
    requires GoodEvents(events) && events != []
    ensures var n := |events| - 1;
            Listener(events) ==
            if IsListen(events[n]) then ClientOf(events[..n], Args(events[n].line)[1]) else Listener(events[..n])
  {
    var n := |events| - 1;
    assert GoodEvent(events[n]);
    hide ClientOf, Args;
    if !IsListen(events[n]) && LatestListen(events[..n]).Some? {
      var i := LatestListen(events[..n]).value;
      assert events[..n][..i] == events[..i];
    }
  }

  lemma ListenHasName(e: Event)
    requires GoodEvent(e) && IsListen(e)
    ensures e.LineIn? && |Args(e.line)| >= 2
  {
    hide Args;
  }

  /** Over every history the current client is the latest listener. */
  lemma {:induction false} CurrentIsLatestListener(events: seq<Event>)
    requires GoodEvents(events)
    ensures Replay(IDLE, events).current == Listener(events)
  {
    hide Apply, GoodEvent, IsListen, Args, Lookup, ClientOf;
    if events != [] {
      var n := |events| - 1;
      var before := events[..n];
      ListenerStep(events);
      ApplyCurrent(Replay(IDLE, before), events[n]);
      CurrentIsLatestListener(before);
      if IsListen(events[n]) {
        ListenHasName(events[n]);
        TablesFollowEvents(before, Args(events[n].line)[1]);
      }
    }
  }

  lemma {:induction false} InsertsStay(events: seq<Event>, i: nat, name: string)
    requires i <= |events| && LatestInsert(events[..i], name).Some?
    ensures LatestInsert(events, name).Some?
    decreases |events|
  {
    var n := |events| - 1;
    if i == |events| {
      assert events[..i] == events;
    } else {
      assert events[..n][..i] == events[..i];
      InsertsStay(events[..n], i, name);
    }
  }

  /** It has been registered under its own name. */
  lemma ListenerWasInserted(events: seq<Event>)
    requires Listener(events).Some?
    ensures LatestInsert(events, Listener(events).value.name).Some?
  {
    var i := LatestListen(events).value;
    var name := Args(events[i].line)[1];
    hide LatestListen, Args;
    InsertsStay(events, i, name);
  }

  /** A key event goes to the latest listener, if it has a key callback, with the
      cookie that stands under its name, and to nobody otherwise. */
  lemma KeyGoesToLatestListener(events: seq<Event>, line: string)
    requires GoodEvents(events)
    requires WellFormed(line) && Args(line) != [] && Args(line)[0] == "key"
    ensures var before, target := Replay(IDLE, events), Listener(events);
            var calls := if target.Some? && target.value.key
                         then [KeyCall(target.value.name, Args(line)[1], CookieOf(events, target.value.name))]
                         else [];
            Process(before, line) == (before.(calls := before.calls + calls), Callback)
  {
    hide Process, Replay, Listener, Args, WellFormed, CookieOf;
    OnKey(Replay(IDLE, events), line);
    CurrentIsLatestListener(events);
    var target := Listener(events);
    if target.Some? {
      TablesFollowEvents(events, target.value.name);
    }
  }

  /** So does an ignore event. */
  lemma IgnoreGoesToLatestListener(events: seq<Event>, line: string)
    requires GoodEvents(events)
    requires WellFormed(line) && Args(line) != [] && Args(line)[0] == "ignore"
    ensures var before, target := Replay(IDLE, events), Listener(events);
            var calls := if target.Some? && target.value.ignore
                         then [IgnoreCall(target.value.name, CookieOf(events, target.value.name))]
                         else [];
            Process(before, line) == (before.(calls := before.calls + calls), Callback)
  {
    hide Process, Replay, Listener, Args, WellFormed, CookieOf;
    OnIgnore(Replay(IDLE, events), line);
    CurrentIsLatestListener(events);
    var target := Listener(events);
    if target.Some? {
      TablesFollowEvents(events, target.value.name);
    }
  }

  /** A `listen` makes current the client that stands under the name in it, or none,
      and tells that client, with its cookie. */
  lemma ListenGoesToNamedClient(events: seq<Event>, line: string)
    requires GoodEvents(events)
    requires WellFormed(line) && Args(line) != [] && Args(line)[0] == "listen"
    ensures var before, name := Replay(IDLE, events), Args(line)[1];
            var target := ClientOf(events, name);
            var calls := if target.Some? && target.value.listen
                         then [ListenCall(target.value.name, CookieOf(events, name))]
                         else [];
            Process(before, line) == (before.(current := target, calls := before.calls + calls), Callback)
  {
    hide Process, Replay, Args, CookieOf, ClientOf;
    OnListen(Replay(IDLE, events), line);
    TablesFollowEvents(events, Args(line)[1]);
  }

  /** A menu event goes to the client that stands under the part of the id before
      its first underscore, with the part behind it, or NULL without one; a fourth
      word is passed on, unless there are more. */
  lemma MenuGoesToNamedClient(events: seq<Event>, line: string, name: string, rest: Option<string>)
    requires GoodEvents(events)
    requires WellFormed(line) && Args(line) != [] && Args(line)[0] == "menuevent"
    requires '_' !in name && Args(line)[2] == match rest case Some(r) => name + "_" + r case None => name
    ensures var before, argv, target := Replay(IDLE, events), Args(line), ClientOf(events, name);
            var arg := if |argv| == 4 then argv[3] else "";
            var calls := if target.Some? && target.value.menu
                         then [MenuCall(target.value.name, argv[1], rest, arg)]
                         else [];
            Process(before, line) == (before.(calls := before.calls + calls), Callback)
  {
    hide Process, Replay, Args, ClientOf, SplitFirst;
    OnMenuEvent(Replay(IDLE, events), line);
    TablesFollowEvents(events, name);
    match rest {
      case Some(r) => SplitAtFirst(name, '_', r);
      case None => SplitAbsent(name, '_');
    }
  }

  /** Lines alone never change who is registered. */
  lemma {:induction false} LinesKeepClients(d: Dispatch, events: seq<Event>)
    requires GoodEvents(events) && forall i :: 0 <= i < |events| ==> events[i].LineIn?
    ensures Replay(d, events).clients == d.clients && Replay(d, events).data == d.data
  {
    hide Process, WellFormed;
    if events != [] {
      var n := |events| - 1;
      LinesKeepClients(d, events[..n]);
      LineKeepsClients(Replay(d, events[..n]), events[n].line);
    }
  }

  /** The current client stays current when it is unregistered: it goes on getting
      its callbacks, with NULL in place of its cookie. That happens exactly when its
      name has been unregistered after its latest registration. */
  lemma NullCookieIff(events: seq<Event>)
    requires Listener(events).Some?
    ensures var name := Listener(events).value.name;
            var i := LatestInsert(events, name);
            && i.Some?
            && (CookieOf(events, name) == None <==> RemovedSince(events, name, i.value))
  {
    ListenerWasInserted(events);
    hide Listener;
  }

  lemma TwoWords(first: string, second: string)
    requires IsWord(first) && IsWord(second)
    ensures Args(Spaced([first, second])) == [first, second]
  {
    WordsOfSpaced([first, second], "");
    hide Words, Spaced;
    assert Spaced([first, second]) + "" == Spaced([first, second]);
  }

  /** So it is with any client that listens, is unregistered, and then meets a key. */
  lemma UnregisteredStillCalled(client: Client, cookie: Cookie, key: string)
    requires IsWord(client.name) && IsWord(key) && client.key
    ensures var listen, press := Spaced(["listen", client.name]), Spaced(["key", key]);
            var events := [Insert(client, cookie), LineIn(listen), Remove(client.name)];
            && GoodEvents(events) && WellFormed(press)
            && var d := Replay(IDLE, events);
               Process(d, press).0.calls == d.calls + [KeyCall(client.name, key, None)]
  {
    var name := client.name;
    var listen, press := Spaced(["listen", name]), Spaced(["key", key]);
    var events := [Insert(client, cookie), LineIn(listen), Remove(name)];
    assert IsWord("listen") && IsWord("key");
    TwoWords("listen", name);
    TwoWords("key", key);
    hide Args, Spaced;
    assert events[..2] == [Insert(client, cookie), LineIn(listen)];
    assert events[..2][..1] == [Insert(client, cookie)] && events[..1][..0] == [];
    assert Replay(IDLE, events[..1]) == Apply(IDLE, events[0]);
    assert Replay(IDLE, events[..2]) == Apply(Replay(IDLE, events[..1]), events[1]);
    assert Replay(IDLE, events) == Apply(Replay(IDLE, events[..2]), events[2]);
  }
}
