/** Channels and menu ids of src/mplayer.c. */
module Mplayer {
  import opened Options
  import opened Sequences
  import opened Tokens
  import opened Dispatcher

  // ----- numbers as text -----

  predicate IsDigit(c: char) {
    '0' <= c <= '9'
  }

  function Digit(d: nat): (c: char)
    requires d < 10
    ensures IsDigit(c)
  {
    '0' + d as char
  }

  /** `%d` of a number that is not negative. */
  function Decimal(n: nat): (s: string)
    ensures s != "" && forall i :: 0 <= i < |s| ==> IsDigit(s[i])
  {
    if n < 10 then [Digit(n)] else Decimal(n / 10) + [Digit(n % 10)]
  }

  predicate IsSpace(c: char) {
    c == ' ' || '\t' <= c <= '\r'
  }

  function DigitsValue(s: string, value: int): int {
    if s == "" || !IsDigit(s[0]) then value
    else DigitsValue(s[1..], value * 10 + (s[0] as int - '0' as int))
  }

  /** `atoi`. */
  function Atoi(s: string): int {
    if s == "" then 0
    else if IsSpace(s[0]) then Atoi(s[1..])
    else if s[0] == '-' then -DigitsValue(s[1..], 0)
    else if s[0] == '+' then DigitsValue(s[1..], 0)
    else DigitsValue(s, 0)
  }

  lemma {:induction false} DigitsValueConcat(a: string, b: string, value: int)
    requires forall i :: 0 <= i < |a| ==> IsDigit(a[i])
    ensures DigitsValue(a + b, value) == DigitsValue(b, DigitsValue(a, value))
  {
    if a == "" {
      assert a + b == b;
    } else {
      assert (a + b)[1..] == a[1..] + b;
      DigitsValueConcat(a[1..], b, value * 10 + (a[0] as int - '0' as int));
    }
  }

  lemma {:induction false} DecimalValue(n: nat)
    ensures DigitsValue(Decimal(n), 0) == n
  {
    if n >= 10 {
      DecimalValue(n / 10);
      DigitsValueConcat(Decimal(n / 10), [Digit(n % 10)], 0);
    }
  }

  lemma AtoiDecimal(n: nat)
    ensures Atoi(Decimal(n)) == n
  {
    var s := Decimal(n);
    assert IsDigit(s[0]);
    DecimalValue(n);
  }

  /** The number that decimal digits stand for. */
  function ValueOf(digits: string): nat
    requires forall i :: 0 <= i < |digits| ==> IsDigit(digits[i])
  {
    if digits == "" then 0
    else
      var n := |digits| - 1;
      assert IsDigit(digits[n]);
      10 * ValueOf(digits[..n]) + (digits[n] as int - '0' as int)
  }

  lemma {:induction false} DigitsValueIs(digits: string, rest: string)
    requires forall i :: 0 <= i < |digits| ==> IsDigit(digits[i])
    requires rest == "" || !IsDigit(rest[0])
    ensures DigitsValue(digits + rest, 0) == ValueOf(digits)
  {
    DigitsValueConcat(digits, rest, 0);
    DigitsValueFromRight(digits);
  }

  lemma {:induction false} DigitsValueFromRight(digits: string)
    requires forall i :: 0 <= i < |digits| ==> IsDigit(digits[i])
    ensures DigitsValue(digits, 0) == ValueOf(digits)
  {
    if digits != "" {
      var n := |digits| - 1;
      DigitsValueFromRight(digits[..n]);
      DigitsValueConcat(digits[..n], digits[n..], 0);
      assert digits == digits[..n] + digits[n..];
    }
  }

  /** Printing gives the digits that stand for the number, without leading zeros. */
  lemma {:induction false} DecimalIs(n: nat)
    ensures ValueOf(Decimal(n)) == n && (Decimal(n)[0] == '0' <==> n == 0)
  {
    if n >= 10 {
      DecimalIs(n / 10);
      assert Decimal(n)[..|Decimal(n)| - 1] == Decimal(n / 10);
    }
  }

  lemma {:induction false} AtoiSkips(blanks: string, s: string)
    requires forall i :: 0 <= i < |blanks| ==> IsSpace(blanks[i])
    ensures Atoi(blanks + s) == Atoi(s)
  {
    if blanks == "" {
      assert blanks + s == s;
    } else {
      assert (blanks + s)[1..] == blanks[1..] + s;
      AtoiSkips(blanks[1..], s);
    }
  }

  /** Parsing skips white space, heeds a sign, and reads digits as far as they go. */
  lemma AtoiReads(blanks: string, sign: string, digits: string, rest: string)
    requires forall i :: 0 <= i < |blanks| ==> IsSpace(blanks[i])
    requires sign == "" || sign == "+" || sign == "-"
    requires digits != "" && (forall i :: 0 <= i < |digits| ==> IsDigit(digits[i])) && (rest == "" || !IsDigit(rest[0]))
    ensures var value: int := ValueOf(digits);
            Atoi(blanks + (sign + (digits + rest))) == if sign == "-" then -value else value
  {
    AtoiSkips(blanks, sign + (digits + rest));
    DigitsValueIs(digits, rest);
    hide DigitsValue, ValueOf;
    var s := sign + (digits + rest);
    if sign == "" {
      assert s == digits + rest && s[0] == digits[0];
    } else {
      assert s[1..] == digits + rest;
    }
  }

  // ----- menu ids -----

  /** The id of the menu item for channel j. */
  function MenuId(j: nat): string {
    "mplayer_ch_" + Decimal(j + 1)
  }

  function Lower(c: char): char {
    if 'A' <= c <= 'Z' then c - 'A' + 'a' else c
  }

  /** `g_ascii_strcasecmp(a, b) == 0`. */
  predicate EqualIgnoringCase(a: string, b: string) {
    |a| == |b| && forall i :: 0 <= i < |a| ==> Lower(a[i]) == Lower(b[i])
  }

  /** `mplayer_menu_handler`: the channel that the id asks for, if it asks for one. */
  function Requested(id: string): Option<int> {
    if id == "" then None
    else
      var (kind, number) := SplitFirst(id, '_');
      if EqualIgnoringCase(kind, "ch") && number.Some? then Some(Atoi(number.value) - 1) else None
  }

  /** Ids number the channels from one. */
  lemma MenuIdNumber(j: nat)
    ensures MenuId(j)[..11] == "mplayer_ch_"
    ensures var number := MenuId(j)[11..];
            (forall i :: 0 <= i < |number| ==> IsDigit(number[i])) && ValueOf(number) == j + 1
  {
    DecimalIs(j + 1);
    assert MenuId(j)[11..] == Decimal(j + 1);
  }

  /** An id asks for a channel exactly when its part before the first underscore is
      "ch", in upper or lower case, and there is one; the number behind it counts
      from one. */
  lemma RequestedIs(kind: string, number: string)
    requires '_' !in kind
    ensures Requested(kind) == None
    ensures Requested(kind + "_" + number) ==
            if |kind| == 2 && kind[0] in {'c', 'C'} && kind[1] in {'h', 'H'} then Some(Atoi(number) - 1) else None
  {
    SplitAtFirst(kind, '_', number);
    SplitAbsent(kind, '_');
    hide SplitFirst, Atoi;
    if |kind| == 2 {
      assert EqualIgnoringCase(kind, "ch") <==> Lower(kind[0]) == 'c' && Lower(kind[1]) == 'h';
    }
  }

  /** The line that the server sends when the item is chosen. */
  function MenuEvent(event: string, j: nat): string {
    Spaced(["menuevent", event, MenuId(j)])
  }

  lemma MenuIdIsWord(j: nat)
    ensures IsWord(MenuId(j))
  {
    var digits := Decimal(j + 1);
    assert forall i :: 0 <= i < |digits| ==> IsDigit(digits[i]);
  }

  lemma MenuIdSplits(j: nat)
    ensures SplitFirst(MenuId(j), '_') == ("mplayer", Some("ch_" + Decimal(j + 1)))
    ensures SplitFirst("ch_" + Decimal(j + 1), '_') == ("ch", Some(Decimal(j + 1)))
  {
    assert MenuId(j) == "mplayer" + "_" + ("ch_" + Decimal(j + 1));
    SplitAtFirst("mplayer", '_', "ch_" + Decimal(j + 1));
    assert "ch_" + Decimal(j + 1) == "ch" + "_" + Decimal(j + 1);
    SplitAtFirst("ch", '_', Decimal(j + 1));
  }

  /** Print and parse: when the item of channel j is chosen, the service thread
      calls the menu callback of the client `mplayer` and the handler there asks
      for channel j. */
  lemma MenuRoundTrip(d: Dispatch, event: string, j: nat, end: string)
    requires IsWord(event) && (end == "" || end == "\n")
    requires "mplayer" in d.clients && d.clients["mplayer"].name == "mplayer" && d.clients["mplayer"].menu
    ensures WellFormed(MenuEvent(event, j) + end)
    ensures var id := "ch_" + Decimal(j + 1);
            && Process(d, MenuEvent(event, j) + end) ==
               (d.(calls := d.calls + [MenuCall("mplayer", event, Some(id), "")]), Callback)
            && Requested(id) == Some(j)
  {
    var line := MenuEvent(event, j) + end;
    MenuIdIsWord(j);
    assert IsWord("menuevent");
    WordsOfSpaced(["menuevent", event, MenuId(j)], end);
    MenuIdSplits(j);
    AtoiDecimal(j + 1);
    hide Words, SplitFirst, Decimal, Atoi, MenuId, Spaced;
    assert Args(line) == ["menuevent", event, MenuId(j)];
  }

  // ----- the channels -----

  datatype Channel = Channel(name: string, url: Option<string>, playlist: bool)

  datatype MenuCommand = AddItem(id: string, text: string) | SetQuit(id: string)

  predicate HasPrefix(s: string, prefix: string) {
    prefix <= s
  }

  /** What GLib takes for white space; unlike in the C library VT is none. */
  predicate IsBlank(c: char) {
    c in {' ', '\t', '\n', '\U{c}', '\r'}
  }

  /** `g_strchug`. */
  function Chug(s: string): string {
    if s != "" && IsBlank(s[0]) then Chug(s[1..]) else s
  }

  lemma {:induction false} ChugDropsBlanks(blanks: string, s: string)
    requires (forall i :: 0 <= i < |blanks| ==> IsBlank(blanks[i])) && (s == "" || !IsBlank(s[0]))
    ensures Chug(blanks + s) == s
  {
    if blanks == "" {
      assert blanks + s == s;
    } else {
      assert (blanks + s)[1..] == blanks[1..] + s;
      ChugDropsBlanks(blanks[1..], s);
    }
  }

  /** The channel for a key and its value. */
  function MakeChannel(key: string, value: string): Channel {
    var playlist := HasPrefix(value, "playlist");
    Channel(key, Some(Chug(if playlist then value[8..] else value)), playlist)
  }

  /** A value is the channel's address behind white space; "playlist" in front of
      that says that the address is one of a playlist. */
  lemma ChannelOfValue(key: string, blanks: string, url: string)
    requires (forall i :: 0 <= i < |blanks| ==> IsBlank(blanks[i])) && (url == "" || !IsBlank(url[0]))
    ensures MakeChannel(key, "playlist" + (blanks + url)) == Channel(key, Some(url), true)
    ensures !("playlist" <= blanks + url) ==> MakeChannel(key, blanks + url) == Channel(key, Some(url), false)
  {
    ChugDropsBlanks(blanks, url);
    assert ("playlist" + (blanks + url))[8..] == blanks + url;
    assert "playlist" <= "playlist" + (blanks + url);
    hide Chug;
  }

  /** The keys that are channels, in order. */
  function ChannelKeys(keys: seq<string>): (r: seq<string>)
    ensures |r| <= |keys|
  {
    if keys == [] then []
    else
      var n := |keys| - 1;
      ChannelKeys(keys[..n]) + if keys[n] == "name" then [] else [keys[n]]
  }

  /** A channel's slot once its key has been handled; without a value only the
      name has been stored. */
  predicate Filled(c: Channel, key: string, values: map<string, string>) {
    c.name == key && (key in values ==> c == MakeChannel(key, values[key]))
  }

  function MenuCommands(keys: seq<string>, values: map<string, string>): seq<MenuCommand> {
    if keys == [] then []
    else
      var j := |keys| - 1;
      MenuCommands(keys[..j], values) +
      if keys[j] in values then [AddItem(MenuId(j), keys[j]), SetQuit(MenuId(j))] else []
  }

  /** The loop of `mplayer_init`: fills the slots from the keys of the group, and
      adds a menu item for each channel that has a value. */
  method InitChannels(keys: seq<string>, values: map<string, string>)
    returns (channels: array<Channel>, channelNumber: int, commands: seq<MenuCommand>)
    ensures channelNumber == |ChannelKeys(keys)| <= channels.Length
    ensures forall j :: 0 <= j < channelNumber ==> Filled(channels[j], ChannelKeys(keys)[j], values)
    ensures commands == MenuCommands(ChannelKeys(keys), values)
  {
    hide MenuCommands, MenuId, MakeChannel;
    channelNumber := |keys|;
    channels := new Channel[|keys|];
    commands := [];
    NoMenuCommands(values);
    var i, j := 0, 0;
    while i < |keys|
      invariant 0 <= i <= |keys| && j == |ChannelKeys(keys[..i])| <= i
      invariant channelNumber == |keys| - i + j
      invariant forall k :: 0 <= k < j ==> Filled(channels[k], ChannelKeys(keys[..i])[k], values)
      invariant commands == MenuCommands(ChannelKeys(keys[..i]), values)
      decreases |keys| - i
    {
      ghost var before := ChannelKeys(keys[..i]);
      assert keys[..i + 1][..i] == keys[..i];
      // the module's own setting: its slot is used for the next key
      if keys[i] == "name" {
        channelNumber := channelNumber - 1;
        j := j - 1;
        assert ChannelKeys(keys[..i + 1]) == before;
        i, j := i + 1, j + 1;
        continue;
      }
      assert ChannelKeys(keys[..i + 1]) == before + [keys[i]];
      MenuCommandsAppend(before, keys[i], values);
      channels[j] := channels[j].(name := keys[i]);
      if keys[i] !in values {
        i, j := i + 1, j + 1;
        continue;
      }
      channels[j] := MakeChannel(keys[i], values[keys[i]]);
      MakeChannelName(keys[i], values[keys[i]]);
      commands := commands + [AddItem(MenuId(j), channels[j].name), SetQuit(MenuId(j))];
      i, j := i + 1, j + 1;
    }
    assert keys[..i] == keys;
  }

  lemma MakeChannelName(key: string, value: string)
    ensures MakeChannel(key, value).name == key
  {
  }

  lemma NoMenuCommands(values: map<string, string>)
    ensures MenuCommands([], values) == []
  {
  }

  lemma MenuCommandsAppend(keys: seq<string>, key: string, values: map<string, string>)
    ensures MenuCommands(keys + [key], values) == MenuCommands(keys, values) +
            if key in values then [AddItem(MenuId(|keys|), key), SetQuit(MenuId(|keys|))] else []
  {
    assert (keys + [key])[..|keys|] == keys;
  }

  /** The j-th channel is the j-th key other than `name`: its position is the
      number of such keys in front of it. */
  lemma {:induction false} ChannelPosition(keys: seq<string>, i: nat)
    requires i < |keys| && keys[i] != "name"
    ensures var j := |ChannelKeys(keys[..i])|;
            j < |ChannelKeys(keys)| && ChannelKeys(keys)[j] == keys[i]
  {
    var n := |keys| - 1;
    if i < n {
      ChannelPosition(keys[..n], i);
      assert keys[..n][..i] == keys[..i];
    }
  }

  /** The channels are configured keys, and never the module's own setting. */
  lemma {:induction false} ChannelsAreKeys(keys: seq<string>)
    ensures |ChannelKeys(keys)| == |keys| - Count(keys, "name")
    ensures forall j :: 0 <= j < |ChannelKeys(keys)| ==>
              ChannelKeys(keys)[j] in keys && ChannelKeys(keys)[j] != "name"
  {
    if keys != [] {
      var n := |keys| - 1;
      ChannelsAreKeys(keys[..n]);
      assert keys == keys[..n] + [keys[n]] && [keys[n]][1..] == [];
      CountConcat(keys[..n], [keys[n]], "name");
    }
  }

  /** Every channel with a value has its item, with its id and its name, followed by
      the command that makes choosing it leave the menu. */
  lemma {:induction false} ChannelHasItem(keys: seq<string>, values: map<string, string>, j: nat) returns (i: nat)
    requires j < |keys| && keys[j] in values
    ensures i + 1 < |MenuCommands(keys, values)|
    ensures MenuCommands(keys, values)[i] == AddItem(MenuId(j), keys[j])
    ensures MenuCommands(keys, values)[i + 1] == SetQuit(MenuId(j))
  {
    hide MenuId;
    var n := |keys| - 1;
    if j < n {
      i := ChannelHasItem(keys[..n], values, j);
    } else {
      i := |MenuCommands(keys[..n], values)|;
    }
  }

  /** The channel of the i-th menu command, if that adds an item. */
  lemma {:induction false} ItemChannel(keys: seq<string>, values: map<string, string>, i: nat) returns (j: nat)
    requires i < |MenuCommands(keys, values)| && MenuCommands(keys, values)[i].AddItem?
    ensures j < |keys| && keys[j] in values && MenuCommands(keys, values)[i] == AddItem(MenuId(j), keys[j])
  {
    hide MenuId;
    var n := |keys| - 1;
    if i < |MenuCommands(keys[..n], values)| {
      j := ItemChannel(keys[..n], values, i);
    } else {
      j := n;
    }
  }

  /** Every menu item that is added shows a configured key other than `name`, with
      the id that leads back to the channel of that key. */
  lemma ItemsLeadToChannels(keys: seq<string>, values: map<string, string>, i: nat) returns (j: nat)
    requires i < |MenuCommands(ChannelKeys(keys), values)| && MenuCommands(ChannelKeys(keys), values)[i].AddItem?
    ensures var item := MenuCommands(ChannelKeys(keys), values)[i];
            && j < |ChannelKeys(keys)| && ChannelKeys(keys)[j] == item.text && item.id == MenuId(j)
            && item.text in keys && item.text in values && item.text != "name"
  {
    hide MenuId;
    ChannelsAreKeys(keys);
    j := ItemChannel(ChannelKeys(keys), values, i);
  }

  /** From the configuration to the choice: the menu is set up, the item of the
      i-th menu command is chosen, the server's line is answered, and the menu
      callback asks for a slot. It is the one that was filled from the key that
      the item shows. */
  method SetUpAndChoose(d: Dispatch, keys: seq<string>, values: map<string, string>, i: nat,
                        event: string, end: string)
    returns (channels: array<Channel>, item: MenuCommand, no: Option<int>)
    requires i < |MenuCommands(ChannelKeys(keys), values)| && MenuCommands(ChannelKeys(keys), values)[i].AddItem?
    requires IsWord(event) && (end == "" || end == "\n")
    requires "mplayer" in d.clients && d.clients["mplayer"].name == "mplayer" && d.clients["mplayer"].menu
    ensures item == MenuCommands(ChannelKeys(keys), values)[i]
    ensures item.text in keys && item.text in values && item.text != "name"
    ensures no.Some? && 0 <= no.value < channels.Length
    ensures channels[no.value] == MakeChannel(item.text, values[item.text])
  {
    hide MenuCommands, MenuId, MakeChannel, Process, Requested, WellFormed;
    ghost var j := ItemsLeadToChannels(keys, values, i);
    MenuRoundTrip(d, event, j, end);
    var channelNumber, commands;
    channels, channelNumber, commands := InitChannels(keys, values);
    item := commands[i];
    var (next, response) := Process(d, Spaced(["menuevent", event, item.id]) + end);
    var call := next.calls[|d.calls|];
    no := if call.MenuCall? && call.id.Some? then Requested(call.id.value) else None;
  }
}
