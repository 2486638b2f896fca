/** The two line scanners of src/util.c and what a line of a buffer is.
    A GString is a string here: the buffers are made from C strings, so the text
    holds no NUL. */
module Lines {
  import opened Options
  import opened Sequences

  /** The text cut at every newline. */
  function Segments(s: string): (r: seq<string>)
    ensures r != []
  {
    if s == "" then [""]
    else
      var rest := Segments(s[1..]);
      if s[0] == '\n' then [""] + rest else [[s[0]] + rest[0]] + rest[1..]
  }

  predicate EndsWithNewline(s: string) {
    s != "" && s[|s| - 1] == '\n'
  }

  /** The lines of a text: a newline at the very end starts no further line. */
  function LinesOf(s: string): seq<string> {
    if EndsWithNewline(s) then Segments(s)[..|Segments(s)| - 1] else Segments(s)
  }

  function Join(segments: seq<string>): string {
    if segments == [] then ""
    else if |segments| == 1 then segments[0]
    else segments[0] + "\n" + Join(segments[1..])
  }

  // ----- cutting and joining -----

  /** What one character in front does to the segments. */
  function Prepended(c: char, segments: seq<string>): (r: seq<string>)
    requires segments != []
    ensures r != []
  {
    if c == '\n' then [""] + segments else [[c] + segments[0]] + segments[1..]
  }

  lemma SegmentsCons(c: char, s: string)
    ensures Segments([c] + s) == Prepended(c, Segments(s))
  {
    assert ([c] + s)[1..] == s;
  }

  lemma PrependedConcat(c: char, a: seq<string>, b: seq<string>)
    requires a != []
    ensures Prepended(c, a + b) == Prepended(c, a) + b
  {
  }

  lemma HeadOff(a: string, b: string)
    requires a != ""
    ensures a == [a[0]] + a[1..] && a + "\n" + b == [a[0]] + (a[1..] + "\n" + b)
  {
  }

  lemma {:induction false} SegmentsConcat(a: string, b: string)
    ensures Segments(a + "\n" + b) == Segments(a) + Segments(b)
  {
    NoSegments();
    hide Segments;
    if a == "" {
      SegmentsCons('\n', b);
      assert "" + "\n" + b == ['\n'] + b;
    } else {
      hide Prepended;
      SegmentsConcat(a[1..], b);
      HeadOff(a, b);
      SegmentsCons(a[0], a[1..] + "\n" + b);
      SegmentsCons(a[0], a[1..]);
      PrependedConcat(a[0], Segments(a[1..]), Segments(b));
    }
  }

  lemma NoSegments()
    ensures Segments("") == [""]
  {
  }

  lemma {:induction false} SegmentsPlain(s: string)
    requires '\n' !in s
    ensures Segments(s) == [s]
  {
    if s != "" {
      SegmentsPlain(s[1..]);
      assert [s[0]] + s[1..] == s;
    }
  }

  lemma {:induction false} SegmentsJoin(s: string)
    ensures Join(Segments(s)) == s
    ensures forall i :: 0 <= i < |Segments(s)| ==> '\n' !in Segments(s)[i]
  {
    if s != "" {
      SegmentsJoin(s[1..]);
      var rest := Segments(s[1..]);
      if s[0] == '\n' {
        assert ([""] + rest)[1..] == rest;
      } else {
        assert ([[s[0]] + rest[0]] + rest[1..])[1..] == rest[1..];
      }
    }
  }

  lemma {:induction false} JoinSegments(segments: seq<string>)
    requires segments != [] && forall i :: 0 <= i < |segments| ==> '\n' !in segments[i]
    ensures Segments(Join(segments)) == segments
  {
    SegmentsPlain(segments[0]);
    if |segments| > 1 {
      JoinSegments(segments[1..]);
      SegmentsConcat(segments[0], Join(segments[1..]));
    }
  }

  lemma {:induction false} JoinAppendEmpty(segments: seq<string>)
    requires segments != []
    ensures Join(segments + [""]) == Join(segments) + "\n"
  {
    if |segments| == 1 {
      assert (segments + [""])[1..] == [""];
    } else {
      assert (segments + [""])[1..] == segments[1..] + [""];
      JoinAppendEmpty(segments[1..]);
    }
  }

  /** A newline at the end leaves an empty last segment, and there is one before it. */
  lemma SegmentsAtEnd(s: string)
    requires EndsWithNewline(s)
    ensures |Segments(s)| >= 2 && Segments(s)[|Segments(s)| - 1] == ""
  {
    var before := s[..|s| - 1];
    SegmentsConcat(before, "");
    NoSegments();
    hide Segments;
    assert s == before + "\n" + "";
  }

  /** Joining the lines with newlines, and the final one if there was one,
      rebuilds the text; no line contains a newline. */
  lemma LinesRebuild(s: string)
    ensures LinesOf(s) != [] && forall i :: 0 <= i < |LinesOf(s)| ==> '\n' !in LinesOf(s)[i]
    ensures Join(LinesOf(s)) + (if EndsWithNewline(s) then "\n" else "") == s
  {
    SegmentsJoin(s);
    if EndsWithNewline(s) {
      SegmentsAtEnd(s);
      assert Segments(s) == LinesOf(s) + [""];
      JoinAppendEmpty(LinesOf(s));
    }
  }

  lemma LinesConcat(a: string, b: string)
    ensures LinesOf(a + "\n" + b) == Segments(a) + (if b == "" then [] else LinesOf(b))
  {
    SegmentsConcat(a, b);
    var s := a + "\n" + b;
    if b == "" {
      assert Segments(s) == Segments(a) + [""];
      assert s[|s| - 1] == '\n';
    } else {
      assert s[|s| - 1] == b[|b| - 1];
    }
  }

  lemma LinesPlain(s: string)
    requires '\n' !in s
    ensures LinesOf(s) == [s]
  {
    SegmentsPlain(s);
  }

  lemma {:induction false} SegmentsCounted(s: string)
    ensures |Segments(s)| == Count(s, '\n') + 1
  {
    if s != "" {
      SegmentsCounted(s[1..]);
    }
  }

  /** What stands between two newlines, or between a newline and one of the ends of
      the buffer, is the line whose number is that of the newlines before it. Behind
      a newline at the very end there is none. */
  lemma LineStandsBetween(s: string, from: nat, end: nat)
    requires from <= end <= |s| && (from == 0 || (s[from - 1] == '\n' && from < |s|))
    requires (forall i :: from <= i < end ==> s[i] != '\n') && (end == |s| || s[end] == '\n')
    ensures var k := Count(s[..from], '\n'); k < |LinesOf(s)| && LinesOf(s)[k] == s[from..end]
  {
    hide LinesOf, Segments, Count;
    NextLine(s, from, end);
    if from == 0 {
      NothingBefore(s);
    } else {
      LinesBefore(s, from);
      assert LinesOf(s[from..])[0] == s[from..end];
    }
  }

  lemma NothingBefore(s: string)
    ensures s[0..] == s && Count(s[..0], '\n') == 0
  {
  }

  /** The lines of a text, seen from behind one of its newlines. */
  lemma LinesBefore(s: string, from: nat)
    requires 0 < from < |s| && s[from - 1] == '\n'
    ensures exists lines :: |lines| == Count(s[..from], '\n') && LinesOf(s) == lines + LinesOf(s[from..])
  {
    var before := s[..from - 1];
    OneNewline();
    hide LinesOf, Segments, Count;
    assert s == before + "\n" + s[from..] && s[..from] == before + "\n";
    LinesConcat(before, s[from..]);
    SegmentsCounted(before);
    CountConcat(before, "\n", '\n');
    var lines := Segments(before);
    assert |lines| == Count(s[..from], '\n') && LinesOf(s) == lines + LinesOf(s[from..]);
  }

  lemma OneNewline()
    ensures Count("\n", '\n') == 1
  {
  }

  // ----- the scanners -----

  /** `strchr(s + from, c)` as an offset into s. */
  function StrChr(s: string, c: char, from: nat): (r: Option<nat>)
    requires from <= |s|
    ensures r.Some? ==> from <= r.value < |s| && s[r.value] == c
    decreases |s| - from
  {
    if from == |s| then None
    else if s[from] == c then Some(from)
    else StrChr(s, c, from + 1)
  }

  /** It is the first occurrence. */
  lemma {:induction false} StrChrFirst(s: string, c: char, from: nat)
    requires from <= |s|
    ensures var r := StrChr(s, c, from);
            forall i :: from <= i < (if r.Some? then r.value else |s|) ==> s[i] != c
    decreases |s| - from
  {
    if from < |s| && s[from] != c {
      StrChrFirst(s, c, from + 1);
    }
  }

  /** `lcd_stuff_strndup`. The length is a size_t, so a negative one is larger
      than every string. */
  function StrNDup(s: string, n: int): string {
    if n < 0 || |s| <= n then s else s[..n]
  }

  /** How the lines go on from a segment that starts at `from` and ends at `end`. */
  lemma NextLine(s: string, from: nat, end: nat)
    requires from <= end <= |s| && (forall i :: from <= i < end ==> s[i] != '\n')
    ensures end == |s| ==> LinesOf(s[from..]) == [s[from..]]
    ensures end < |s| && s[end] == '\n' ==>
              LinesOf(s[from..]) == [s[from..end]] + if end + 1 == |s| then [] else LinesOf(s[end + 1..])
  {
    if end == |s| {
      LinesPlain(s[from..]);
    } else if s[end] == '\n' {
      SegmentsPlain(s[from..end]);
      CutAt(s, from, end);
      hide Segments, LinesOf;
      LinesConcat(s[from..end], s[end + 1..]);
    }
  }

  lemma CutAt(s: string, from: nat, end: nat)
    requires from <= end < |s| && s[end] == '\n'
    ensures s[from..] == s[from..end] + "\n" + s[end + 1..]
  {
  }

  /** `strchr` for a newline, and what it says of the lines that start at `from`. */
  method LineEnd(s: string, from: nat) returns (end: Option<nat>)
    requires from <= |s|
    ensures end.Some? ==> from <= end.value < |s|
    ensures end.None? ==> LinesOf(s[from..]) == [s[from..]]
    ensures end.Some? ==>
              LinesOf(s[from..]) ==
              [s[from..end.value]] + if end.value + 1 == |s| then [] else LinesOf(s[end.value + 1..])
  {
    hide LinesOf;
    StrChrFirst(s, '\n', from);
    end := StrChr(s, '\n', from);
    hide StrChr;
    NextLine(s, from, if end.Some? then end.value else |s|);
  }

  /** `stringbuffer_get_lines`. */
  method GetLines(buffer: string) returns (count: int)
    ensures count == |LinesOf(buffer)|
  {
    hide LinesOf;
    var tmp: Option<nat> := Some(0);
    count := 0;
    assert buffer[0..] == buffer;
    NoLineAfter(buffer);
    while tmp.Some?
      invariant tmp.Some? ==> tmp.value <= |buffer| && count + |LinesOf(buffer[tmp.value..])| == |LinesOf(buffer)|
      invariant tmp.None? ==> count == |LinesOf(buffer)|
      decreases if tmp.Some? then |buffer| - tmp.value + 1 else 0
    {
      tmp := LineEnd(buffer, tmp.value);
      if tmp.Some? {
        tmp := Some(tmp.value + 1);
        if tmp.value == |buffer| {
          count := count - 1;
        }
      }
      count := count + 1;
    }
  }

  lemma NoLineAfter(s: string)
    ensures |LinesOf(s[|s|..])| == 1
  {
  }

  /** Where the search of `stringbuffer_get_line` is after i lines: at the start;
      behind the newline that ends line i-1, with more to come; or at the end. */
  ghost predicate After(buffer: string, i: nat, ret: nat, next: Option<nat>) {
    var lines := LinesOf(buffer);
    && i <= |lines| && ret <= |buffer|
    && match next
       case Some(k) =>
         && ret <= k <= |buffer| && lines[i..] == LinesOf(buffer[k..])
         && (if i == 0 then k == ret == 0 else ret < k < |buffer| && lines[i - 1] == buffer[ret..k - 1])
       case None => i == |lines| > 0 && lines[i - 1] == buffer[ret..]
  }

  /** The search has run into the newline at the end of the buffer. */
  ghost predicate AtEnd(buffer: string, i: nat, ret: nat) {
    var lines := LinesOf(buffer);
    i == |lines| > 0 && ret < |buffer| && lines[i - 1] == buffer[ret..|buffer| - 1]
  }

  /** One step of the search. */
  method Advance(buffer: string, ret0: nat, start: nat, ghost i: nat) returns (ret: nat, next: Option<nat>)
    requires After(buffer, i, ret0, Some(start))
    ensures ret == start && ret <= |buffer|
    ensures next.Some? ==> ret < next.value <= |buffer|
    ensures if next == Some(|buffer|) then AtEnd(buffer, i + 1, ret) else After(buffer, i + 1, ret, next)
  {
    hide LinesOf;
    ghost var lines := LinesOf(buffer);
    ret := start;
    next := LineEnd(buffer, ret);
    assert lines[i] == lines[i..][0] && lines[i + 1..] == lines[i..][1..];
    if next.Some? {
      next := Some(next.value + 1);
    }
  }

  /** `stringbuffer_get_line`: line k for k >= 0. Asked for line -1 the code
      returns the whole buffer. */
  method GetLine(buffer: string, line: int) returns (text: Option<string>)
    ensures 0 <= line < |LinesOf(buffer)| ==> text == Some(LinesOf(buffer)[line])
    ensures |LinesOf(buffer)| <= line ==> text == None
    ensures line == -1 ==> text == Some(buffer)
    ensures line < -1 ==> text == None
  {
    hide LinesOf, After, AtEnd;
    StartOfLines(buffer);
    var ret: nat, n := 0, line;
    var next: Option<nat> := Some(0);
    ghost var i := 0; // how many lines have been passed
    while n >= 0 && next.Some?
      invariant n == line - i && (line >= 0 ==> n >= -1) && (line < 0 ==> i == 0 && next == Some(0))
      invariant ret <= |buffer| && After(buffer, i, ret, next)
      decreases n
    {
      n := n - 1;
      ret, next := Advance(buffer, ret, next.value, i);
      i := i + 1;
      if next.Some? && next.value == |buffer| {
        break;
      }
    }
    text := LineAt(buffer, ret, next, n, i);
  }

  lemma StartOfLines(buffer: string)
    ensures After(buffer, 0, 0, Some(0))
  {
    assert buffer[0..] == buffer;
  }

  /** What is returned once the search has ended with n lines still to go. */
  method LineAt(buffer: string, ret: nat, next: Option<nat>, n: int, ghost i: nat) returns (text: Option<string>)
    requires ret <= |buffer|
    requires After(buffer, i, ret, next) || (next == Some(|buffer|) && AtEnd(buffer, i, ret))
    requires n >= 0 ==> next == None || AtEnd(buffer, i, ret)
    ensures var lines := LinesOf(buffer); var line := n + i;
            && (n >= -1 && 0 <= line < |lines| ==> text == Some(lines[line]))
            && (n >= -1 && |lines| <= line ==> text == None)
            && (n == -1 && i == 0 ==> text == Some(buffer))
            && (n < -1 ==> text == None)
  {
    hide LinesOf;
    if n == -1 {
      if next.Some? {
        assert ret < next.value ==> buffer[ret..][..next.value - ret - 1] == buffer[ret..next.value - 1];
        text := Some(StrNDup(buffer[ret..], next.value - ret - 1));
      } else {
        text := Some(buffer[ret..]);
      }
    } else {
      text := None;
    }
  }
}
