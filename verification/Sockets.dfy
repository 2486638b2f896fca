/** The framing of shared/sockets.c: text lines over a byte stream that may take
    and deliver bytes a few at a time. */
module Sockets {
  import opened Options
  import opened Sequences

  /** What one `read` of one byte answers. */
  datatype ReadEvent = Byte(c: char) | ReadAgain | Eof | ReadFailed

  /** What one `write` answers: how many bytes it took (at most what it was
      given), EAGAIN, or another error. */
  datatype WriteEvent = Took(n: nat) | WriteAgain | WriteFailed

  // ----- sending -----

  /** `sock_send` from `offset` on under a schedule of answers: its result (None
      while the schedule leaves it looping), the offset reached, and the answers
      not used. */
  function SendRun(schedule: seq<WriteEvent>, size: nat, offset: nat): (r: (Option<int>, nat, seq<WriteEvent>))
    requires offset <= size
    ensures offset <= r.1 <= size && |r.2| <= |schedule|
  {
    if offset == size then (Some(offset), offset, schedule)
    else if schedule == [] then (None, offset, [])
    else match schedule[0]
      case WriteFailed => (Some(-1), offset, schedule[1..])
      case WriteAgain => SendRun(schedule[1..], size, offset)
      case Took(n) =>
        if n == 0 then (Some(offset), offset, schedule[1..])
        else SendRun(schedule[1..], size, offset + Min(n, size - offset))
  }

  /** The result is the length of the message exactly when all of it was taken. */
  lemma {:induction false} SendReportsCompletion(schedule: seq<WriteEvent>, size: nat, offset: nat)
    requires offset <= size
    ensures var (ret, reached, rest) := SendRun(schedule, size, offset);
            && (ret == Some(size) <==> reached == size)
            && (ret.Some? && ret.value >= 0 ==> ret.value == reached)
            && (ret.None? ==> rest == [])
    decreases |schedule|
  {
    if offset < size && schedule != [] {
      match schedule[0]
      case WriteFailed =>
      case WriteAgain => SendReportsCompletion(schedule[1..], size, offset);
      case Took(n) =>
        if n != 0 { SendReportsCompletion(schedule[1..], size, offset + Min(n, size - offset)); }
    }
  }

  /** The connection stays up and takes something whenever it answers. */
  predicate Steady(schedule: seq<WriteEvent>) {
    forall i :: 0 <= i < |schedule| ==> schedule[i].WriteAgain? || (schedule[i].Took? && schedule[i].n > 0)
  }

  /** The bytes that the answers offer to take. */
  function Total(schedule: seq<WriteEvent>): nat {
    if schedule == [] then 0 else (if schedule[0].Took? then schedule[0].n else 0) + Total(schedule[1..])
  }

  /** While steady answers leave something to send, sending goes on behind them,
      with what they took sent. */
  lemma {:induction false} SendGoesOn(schedule: seq<WriteEvent>, rest: seq<WriteEvent>, size: nat, offset: nat)
    requires Steady(schedule) && offset + Total(schedule) < size
    ensures SendRun(schedule + rest, size, offset) == SendRun(rest, size, offset + Total(schedule))
    decreases |schedule|
  {
    if schedule == [] {
      assert schedule + rest == rest;
    } else {
      assert (schedule + rest)[1..] == schedule[1..] + rest;
      var took := if schedule[0].Took? then schedule[0].n else 0;
      SendGoesOn(schedule[1..], rest, size, offset + took);
    }
  }

  /** Steady answers that offer to take enough complete the message. */
  lemma {:induction false} SendCompletes(schedule: seq<WriteEvent>, size: nat, offset: nat)
    requires Steady(schedule) && offset <= size <= offset + Total(schedule)
    ensures SendRun(schedule, size, offset).0 == Some(size) && SendRun(schedule, size, offset).1 == size
    decreases |schedule|
  {
    if offset < size {
      var took := if schedule[0].Took? then schedule[0].n else 0;
      SendCompletes(schedule[1..], size, offset + Min(took, size - offset));
    }
  }

  /** How sending ends before everything is taken: a write error gives a negative
      result, a lost connection the number of bytes sent, and a schedule that ends
      leaves the call looping. */
  lemma SendEndsEarly(schedule: seq<WriteEvent>, later: seq<WriteEvent>, size: nat)
    requires Steady(schedule) && Total(schedule) < size
    ensures SendRun(schedule + [WriteFailed] + later, size, 0) == (Some(-1), Total(schedule), later)
    ensures SendRun(schedule + [Took(0)] + later, size, 0) == (Some(Total(schedule)), Total(schedule), later)
    ensures SendRun(schedule, size, 0) == (None, Total(schedule), [])
  {
    assert schedule + [WriteFailed] + later == schedule + ([WriteFailed] + later);
    assert schedule + [Took(0)] + later == schedule + ([Took(0)] + later);
    assert schedule + [] == schedule;
    assert ([WriteFailed] + later)[1..] == later && ([Took(0)] + later)[1..] == later;
    SendGoesOn(schedule, [WriteFailed] + later, size, 0);
    SendGoesOn(schedule, [Took(0)] + later, size, 0);
    SendGoesOn(schedule, [], size, 0);
  }

  /** Lines as they go over the wire. */
  function Framed(lines: seq<string>): string {
    if lines == [] then "" else lines[0] + "\n" + Framed(lines[1..])
  }

  /** Sends the lines one after the other until one is not taken in full: the
      bytes taken, and whether all lines were. */
  function SendLines(lines: seq<string>, schedule: seq<WriteEvent>): (string, bool) {
    if lines == [] then ("", true)
    else
      var message := lines[0] + "\n";
      var (ret, reached, rest) := SendRun(schedule, |message|, 0);
      if ret == Some(|message|) then
        var (wire, all) := SendLines(lines[1..], rest);
        (message[..reached] + wire, all)
      else (message[..reached], false)
  }

  /** Under every schedule what is on the wire is the beginning of the framed
      lines, and all of it when every line was sent. */
  lemma {:induction false} SentIsPrefix(lines: seq<string>, schedule: seq<WriteEvent>)
    ensures var (wire, all) := SendLines(lines, schedule);
            wire <= Framed(lines) && (all ==> wire == Framed(lines))
    decreases |lines|
  {
    if lines != [] {
      var message := lines[0] + "\n";
      var (ret, reached, rest) := SendRun(schedule, |message|, 0);
      SendReportsCompletion(schedule, |message|, 0);
      if ret == Some(|message|) {
        SentIsPrefix(lines[1..], rest);
        assert message[..reached] == message;
      }
    }
  }

  /** How many answers take something. */
  function Accepting(schedule: seq<WriteEvent>): nat {
    if schedule == [] then 0 else (if schedule[0].Took? then 1 else 0) + Accepting(schedule[1..])
  }

  /** A message uses up no more accepting answers than it has bytes. */
  lemma {:induction false} SendUses(schedule: seq<WriteEvent>, size: nat, offset: nat)
    requires Steady(schedule) && offset <= size <= offset + Accepting(schedule)
    ensures var (ret, reached, rest) := SendRun(schedule, size, offset);
            && ret == Some(size) && reached == size && Steady(rest)
            && Accepting(rest) + size - offset >= Accepting(schedule)
    decreases |schedule|
  {
    if offset < size {
      var took := if schedule[0].Took? then schedule[0].n else 0;
      SendUses(schedule[1..], size, offset + Min(took, size - offset));
    }
  }

  /** Over a connection that stays up, with as many accepting answers as there are
      bytes, all lines are sent. */
  lemma {:induction false} SendLinesCompletes(lines: seq<string>, schedule: seq<WriteEvent>)
    requires Steady(schedule) && Accepting(schedule) >= |Framed(lines)|
    ensures SendLines(lines, schedule).1
    decreases |lines|
  {
    if lines != [] {
      var message := lines[0] + "\n";
      SendUses(schedule, |message|, 0);
      hide SendRun, Steady, Accepting;
      SendLinesCompletes(lines[1..], SendRun(schedule, |message|, 0).2);
    }
  }

  // ----- receiving -----

  datatype Received = Waiting | Returned(count: int)

  /** `sock_recv_string` after `got` bytes have been stored: the result (Waiting
      when the events leave it in the middle of a line), the bytes stored up to
      the terminator, and the events not used. */
  function RecvRun(events: seq<ReadEvent>, maxlen: nat, got: string): (r: (Received, string, seq<ReadEvent>))
    requires |got| < maxlen
    ensures |r.1| <= maxlen && |r.2| <= |events| && (events != [] ==> |r.2| < |events|)
    ensures r.0.Returned? && r.0.count > 0 ==> |r.1| == r.0.count
    ensures r.0.Waiting? ==> r.2 == []
  {
    if events == [] then (Waiting, got, [])
    else
      var rest := events[1..];
      match events[0]
      case ReadFailed => (Returned(-1), got, rest)
      case Eof => (Returned(|got|), got, rest)
      case ReadAgain => if got != "" then RecvRun(rest, maxlen, got) else (Returned(0), got, rest)
      case Byte(c) =>
        var n := |got| + 1;
        if n == maxlen || c == '\0' || c == '\n' then
          // a terminator alone counts as nothing
          (Returned(if n == 1 then 0 else n), got + "\0", rest)
        else RecvRun(rest, maxlen, got + [c])
  }

  /** The strings that repeated calls deliver; a result of 0 delivers nothing. */
  function RecvLines(events: seq<ReadEvent>, maxlen: nat): seq<string>
    requires maxlen > 0
    decreases |events|
  {
    if events == [] then []
    else
      var (received, stored, rest) := RecvRun(events, maxlen, "");
      (if received.Returned? && received.count > 0 && stored[received.count - 1] == '\0'
       then [stored[..received.count - 1]] else [])
      + RecvLines(rest, maxlen)
  }

  /** The bytes among the events. */
  function Bytes(events: seq<ReadEvent>): string {
    if events == [] then ""
    else (if events[0].Byte? then [events[0].c] else "") + Bytes(events[1..])
  }

  /** The connection stays up. */
  predicate Clean(events: seq<ReadEvent>) {
    forall i :: 0 <= i < |events| ==> events[i].Byte? || events[i].ReadAgain?
  }

  /** A line that holds no terminator, and fits with one. */
  predicate Plain(line: string, maxlen: nat) {
    '\0' !in line && '\n' !in line && |line| + 1 <= maxlen
  }

  predicate Sendable(line: string, maxlen: nat) {
    line != "" && Plain(line, maxlen)
  }

  /** In the middle of a line the receiver waits through EAGAIN and delivers the
      line when its end comes, be it LF or NUL, leaving the bytes behind it alone.
      For an empty line it answers 0. */
  lemma {:induction false} RecvFinishesLine(events: seq<ReadEvent>, maxlen: nat,
                                                line: string, got: string, end: char, more: string)
    requires Clean(events) && Plain(line, maxlen) && got <= line && (end == '\n' || end == '\0')
    requires Bytes(events) == line[|got|..] + [end] + more
    requires got != "" || (events != [] && events[0].Byte?)
    ensures var (received, stored, rest) := RecvRun(events, maxlen, got);
            && received == Returned(if line == "" then 0 else |line| + 1) && stored == line + "\0"
            && Clean(rest) && Bytes(rest) == more
    decreases |events|
  {
    var rest := events[1..];
    if events[0].ReadAgain? {
      RecvFinishesLine(rest, maxlen, line, got, end, more);
    } else {
      var c := events[0].c;
      assert c == (line[|got|..] + [end] + more)[0];
      assert Bytes(rest) == (line[|got|..] + [end] + more)[1..];
      if |got| == |line| {
        assert c == end && got == line;
      } else {
        assert c == line[|got|] && c in line;
        assert line[|got|..] == [c] + line[|got| + 1..];
        RecvFinishesLine(rest, maxlen, line, got + [c], end, more);
      }
    }
  }

  /** When the connection ends, or fails, in the middle of a line: what has come is
      counted, or the result is negative. */
  lemma {:induction false} RecvEndsEarly(events: seq<ReadEvent>, later: seq<ReadEvent>, maxlen: nat, got: string)
    requires Clean(events) && Plain(got + Bytes(events), maxlen)
    requires got != "" || (events != [] ==> events[0].Byte?)
    ensures var stored := got + Bytes(events);
            && RecvRun(events + [Eof] + later, maxlen, got) == (Returned(|stored|), stored, later)
            && RecvRun(events + [ReadFailed] + later, maxlen, got) == (Returned(-1), stored, later)
    decreases |events|
  {
    if events == [] {
      assert got + Bytes(events) == got;
      assert events + [Eof] + later == [Eof] + later && events + [ReadFailed] + later == [ReadFailed] + later;
    } else {
      var next := if events[0].Byte? then got + [events[0].c] else got;
      assert next + Bytes(events[1..]) == got + Bytes(events);
      assert events[0].Byte? ==> events[0].c in got + Bytes(events);
      assert (events + [Eof] + later)[1..] == events[1..] + [Eof] + later;
      assert (events + [ReadFailed] + later)[1..] == events[1..] + [ReadFailed] + later;
      RecvEndsEarly(events[1..], later, maxlen, next);
    }
  }

  /** With nothing there yet the receiver answers 0 at once. */
  lemma RecvNotYet(later: seq<ReadEvent>, maxlen: nat)
    requires maxlen > 0
    ensures RecvRun([ReadAgain] + later, maxlen, "") == (Returned(0), "", later)
  {
    assert ([ReadAgain] + later)[1..] == later;
  }

  /** While the end of the line has not come the receiver delivers nothing. */
  lemma {:induction false} RecvWaits(events: seq<ReadEvent>, maxlen: nat, line: string, got: string)
    requires Clean(events) && Sendable(line, maxlen) && got <= line
    requires Bytes(events) <= line[|got|..]
    requires got != "" || (events != [] && events[0].Byte?)
    ensures RecvRun(events, maxlen, got).0.Waiting?
    decreases |events|
  {
    if events != [] {
      var rest := events[1..];
      if events[0].ReadAgain? {
        RecvWaits(rest, maxlen, line, got);
      } else {
        var c := events[0].c;
        assert c == Bytes(events)[0] == line[|got|] && c in line;
        assert Bytes(rest) == Bytes(events)[1..] && line[|got| + 1..] == line[|got|..][1..];
        RecvWaits(rest, maxlen, line, got + [c]);
      }
    }
  }

  /** After any part of the framed lines has come in, in pieces of any size and
      with any EAGAINs between them, exactly the lines whose end has come in have
      been delivered, in order. */
  lemma {:induction false} ReceivedSoFar(lines: seq<string>, events: seq<ReadEvent>, maxlen: nat)
    requires maxlen > 0 && Clean(events) && forall i :: 0 <= i < |lines| ==> Sendable(lines[i], maxlen)
    requires Bytes(events) <= Framed(lines)
    ensures Count(Bytes(events), '\n') <= |lines|
    ensures RecvLines(events, maxlen) == lines[..Count(Bytes(events), '\n')]
    decreases |events|
  {
    if events != [] {
      if events[0].ReadAgain? {
        NothingYet(events, maxlen);
        ReceivedSoFar(lines, events[1..], maxlen);
      } else {
        ReceivedFirst(lines, events, maxlen);
        hide Bytes, Count, RecvRun, Framed;
        var b, line := Bytes(events), lines[0];
        if |line| < |b| {
          var (received, stored, rest) := RecvRun(events, maxlen, "");
          ReceivedSoFar(lines[1..], rest, maxlen);
          assert stored[..|line|] == line;
          assert RecvLines(events, maxlen) == [line] + RecvLines(rest, maxlen);
          assert [line] + lines[1..][..Count(Bytes(rest), '\n')] == lines[..1 + Count(Bytes(rest), '\n')];
        }
      }
    }
  }

  lemma NothingYet(events: seq<ReadEvent>, maxlen: nat)
    requires maxlen > 0 && events != [] && events[0].ReadAgain?
    ensures Bytes(events) == Bytes(events[1..])
    ensures RecvLines(events, maxlen) == RecvLines(events[1..], maxlen)
  {
    assert RecvRun(events, maxlen, "") == (Returned(0), "", events[1..]);
  }

  /** The first call when a byte is there. */
  lemma ReceivedFirst(lines: seq<string>, events: seq<ReadEvent>, maxlen: nat)
    requires Clean(events) && forall i :: 0 <= i < |lines| ==> Sendable(lines[i], maxlen)
    requires events != [] && events[0].Byte? && Bytes(events) <= Framed(lines)
    ensures lines != [] && maxlen > 0
    ensures var b := Bytes(events); var line := lines[0];
            if |line| < |b| then
              var (received, stored, rest) := RecvRun(events, maxlen, "");
              && received == Returned(|line| + 1) && stored == line + "\0" && Clean(rest)
              && Bytes(rest) <= Framed(lines[1..]) && Count(b, '\n') == 1 + Count(Bytes(rest), '\n')
            else RecvRun(events, maxlen, "").0.Waiting? && Count(b, '\n') == 0
                 && RecvLines(events, maxlen) == []
  {
    var b, line := Bytes(events), lines[0];
    if |line| < |b| {
      var more := b[|line| + 1..];
      assert b == line + "\n" + more;
      RecvFinishesLine(events, maxlen, line, "", '\n', more);
      assert more <= Framed(lines[1..]);
      CountConcat(line + "\n", more, '\n');
      CountConcat(line, "\n", '\n');
      CountAbsent(line, '\n');
      assert Count("\n", '\n') == 1;
    } else {
      assert b <= line && line[0..] == line;
      RecvWaits(events, maxlen, line, "");
      CountAbsent(b, '\n');
    }
  }

  /** Sender and receiver together: whatever part of the sent bytes has arrived,
      the receiver has delivered a beginning of the lines, and once everything has
      been sent and has arrived, exactly the lines: nothing lost, nothing twice.
      Everything is sent over a connection that stays up and takes enough. */
  lemma FramingRoundTrip(lines: seq<string>, schedule: seq<WriteEvent>, events: seq<ReadEvent>, maxlen: nat)
    requires maxlen > 0 && Clean(events) && forall i :: 0 <= i < |lines| ==> Sendable(lines[i], maxlen)
    requires Bytes(events) <= SendLines(lines, schedule).0
    ensures RecvLines(events, maxlen) <= lines
    ensures SendLines(lines, schedule).1 && Bytes(events) == SendLines(lines, schedule).0
            ==> RecvLines(events, maxlen) == lines
    ensures Steady(schedule) && Accepting(schedule) >= |Framed(lines)| ==>
              && SendLines(lines, schedule) == (Framed(lines), true)
              && (Bytes(events) == Framed(lines) ==> RecvLines(events, maxlen) == lines)
  {
    hide SendLines, RecvLines, Steady, Accepting, Sendable;
    SentIsPrefix(lines, schedule);
    ReceivedSoFar(lines, events, maxlen);
    FramedCount(lines, maxlen);
    if Steady(schedule) && Accepting(schedule) >= |Framed(lines)| {
      SendLinesCompletes(lines, schedule);
    }
  }

  lemma {:induction false} FramedCount(lines: seq<string>, maxlen: nat)
    requires forall i :: 0 <= i < |lines| ==> Sendable(lines[i], maxlen)
    ensures Count(Framed(lines), '\n') == |lines|
  {
    if lines != [] {
      FramedCount(lines[1..], maxlen);
      CountConcat(lines[0] + "\n", Framed(lines[1..]), '\n');
      CountConcat(lines[0], "\n", '\n');
      CountAbsent(lines[0], '\n');
      assert Count("\n", '\n') == 1;
    }
  }

  // ----- the calls -----

  class Socket {
    /** The answers that the next reads and writes will get. */
    var incoming: seq<ReadEvent>
    var accepts: seq<WriteEvent>
    /** Everything written so far. */
    var wire: string

    constructor (incoming: seq<ReadEvent>, accepts: seq<WriteEvent>)
      ensures this.incoming == incoming && this.accepts == accepts && wire == ""
    {
      this.incoming, this.accepts, wire := incoming, accepts, "";
    }

    /** `sock_send`. None: the schedule has ended and the call is still looping. */
    method Send(src: string) returns (ret: Option<int>)
      modifies this`accepts, this`wire
      ensures var (result, reached, rest) := SendRun(old(accepts), |src|, 0);
              ret == result && wire == old(wire) + src[..reached] && accepts == rest
    {
      var offset := 0;
      assert src[..0] == "";
      while offset != |src|
        invariant 0 <= offset <= |src|
        invariant wire == old(wire) + src[..offset]
        invariant SendRun(accepts, |src|, offset) == SendRun(old(accepts), |src|, 0)
        decreases |accepts|
      {
        if accepts == [] {
          return None;
        }
        var answer := accepts[0];
        accepts := accepts[1..];
        match answer
        case WriteFailed => return Some(-1);
        case WriteAgain =>
        case Took(n) =>
          if n == 0 {
            return Some(offset);
          }
          var sent := Min(n, |src| - offset);
          wire := wire + src[offset..offset + sent];
          assert src[..offset] + src[offset..offset + sent] == src[..offset + sent];
          offset := offset + sent;
      }
      return Some(offset);
    }

    /** `sock_recv_string`. Waiting: the events have ended in the middle of a line. */
    method RecvString(dest: array<char>, maxlen: nat) returns (ret: Received)
      requires maxlen <= dest.Length
      modifies this`incoming, dest
      ensures maxlen == 0 ==> ret == Returned(0) && incoming == old(incoming)
      ensures maxlen > 0 ==>
                var (received, stored, rest) := RecvRun(old(incoming), maxlen, "");
                ret == received && dest[..|stored|] == stored && incoming == rest
      ensures forall i :: maxlen <= i < dest.Length ==> dest[i] == old(dest[i])
    {
      if maxlen <= 0 {
        return Returned(0);
      }
      var recvBytes := 0;
      ghost var got := "";
      while true
        invariant recvBytes == |got| < maxlen && dest[..recvBytes] == got
        invariant forall i :: maxlen <= i < dest.Length ==> dest[i] == old(dest[i])
        invariant RecvRun(incoming, maxlen, got) == RecvRun(old(incoming), maxlen, "")
        decreases |incoming|
      {
        if incoming == [] {
          return Waiting;
        }
        var event := incoming[0];
        incoming := incoming[1..];
        match event
        case ReadFailed => return Returned(-1);
        case Eof => return Returned(recvBytes);
        case ReadAgain =>
          if recvBytes == 0 {
            return Returned(0);
          }
        case Byte(c) =>
          dest[recvBytes] := c;
          recvBytes := recvBytes + 1;
          if recvBytes == maxlen || c == '\0' || c == '\n' {
            dest[recvBytes - 1] := '\0';
            assert dest[..recvBytes] == got + "\0";
            break;
          }
          got := got + [c];
      }
      if recvBytes == 1 && dest[0] == '\0' {
        return Returned(0);
      }
      if recvBytes < maxlen - 1 {
        dest[recvBytes] := '\0';
      }
      return Returned(recvBytes);
    }
  }

  // ----- how long a line may be -----

  /** Of a line that is too long the call keeps only what fits. */
  lemma {:induction false} RecvTruncates(events: seq<ReadEvent>, maxlen: nat, line: string, got: string)
    requires Clean(events) && '\0' !in line && '\n' !in line && got <= line && |got| < maxlen <= |line|
    requires line[|got|..] <= Bytes(events)
    requires got != "" || (events != [] && events[0].Byte?)
    ensures var (received, stored, rest) := RecvRun(events, maxlen, got);
            && received == Returned(if maxlen == 1 then 0 else maxlen)
            && stored == line[..maxlen - 1] + "\0"
    decreases |events|
  {
    var rest := events[1..];
    if events[0].ReadAgain? {
      RecvTruncates(rest, maxlen, line, got);
    } else {
      var c := events[0].c;
      assert c == Bytes(events)[0] == line[|got|] && c in line;
      if |got| + 1 < maxlen {
        assert line[|got| + 1..] == line[|got|..][1..] && Bytes(rest) == Bytes(events)[1..];
        RecvTruncates(rest, maxlen, line, got + [c]);
      } else {
        assert got == line[..maxlen - 1];
      }
    }
  }

  /** With room for the terminator alone nothing is ever delivered. */
  lemma {:induction false} RecvNothing(events: seq<ReadEvent>)
    requires Clean(events)
    ensures RecvLines(events, 1) == []
    decreases |events|
  {
    if events != [] {
      RecvNothing(RecvRun(events, 1, "").2);
    }
  }

  /** Of a line that is too long a shorter string is delivered first. */
  lemma {:induction false} LongLineCut(events: seq<ReadEvent>, maxlen: nat, line: string)
    requires Clean(events) && '\0' !in line && '\n' !in line && 1 < maxlen <= |line| && line <= Bytes(events)
    ensures RecvLines(events, maxlen) != [] && RecvLines(events, maxlen)[0] == line[..maxlen - 1]
    decreases |events|
  {
    if events[0].ReadAgain? {
      NothingYet(events, maxlen);
      LongLineCut(events[1..], maxlen, line);
    } else {
      RecvTruncates(events, maxlen, line, "");
      hide RecvRun;
      var (received, stored, rest) := RecvRun(events, maxlen, "");
      assert stored[..maxlen - 1] == line[..maxlen - 1];
    }
  }

  /** However its bytes come in, a line without NUL and LF comes through exactly
      when it and its terminator fit in `maxlen`. */
  lemma LineFitsIff(line: string, events: seq<ReadEvent>, maxlen: nat)
    requires maxlen > 0 && line != "" && '\0' !in line && '\n' !in line
    requires Clean(events) && Bytes(events) == line + "\n"
    ensures RecvLines(events, maxlen) == [line] <==> |line| + 1 <= maxlen
  {
    hide RecvLines, Bytes;
    if |line| + 1 <= maxlen {
      OneLineFramed(line);
      ReceivedSoFar([line], events, maxlen);
    } else if maxlen > 1 {
      LongLineCut(events, maxlen, line);
    } else {
      RecvNothing(events);
    }
  }

  lemma OneLineFramed(line: string)
    requires '\n' !in line
    ensures Framed([line]) == line + "\n" && Count(line + "\n", '\n') == 1
  {
    CountConcat(line, "\n", '\n');
    CountAbsent(line, '\n');
    assert Count("\n", '\n') == 1;
  }
}
