/** The text wrapper of src/util.c: two loops that edit a copy of the buffer in
    place while `remainder`, kept as an offset, runs ahead of the edits. */
module Wrap {
  import opened Options
  import opened Lines
  import opened Sequences

  // ----- where the next line ends -----

  /** A line of `end` characters; `gap` further characters are given up. */
  datatype Cut = Cut(end: nat, gap: nat)

  /** The two algorithms: `stringbuffer_wrap_simple` and `stringbuffer_wrap_spaces`. */
  datatype Style = ByLength | BySpaces

  /** `strchr2`: the first of two characters at or after `from`. */
  function StrChr2(s: string, a: char, b: char, from: nat): (r: Option<nat>)
    requires from <= |s|
    ensures r.Some? ==> from <= r.value < |s| && (s[r.value] == a || s[r.value] == b)
    ensures var end := if r.Some? then r.value else |s|;
            forall i :: from <= i < end ==> s[i] != a && s[i] != b
  {
    var tmp1, tmp2 := StrChr(s, a, from), StrChr(s, b, from);
    StrChrFirst(s, a, from);
    StrChrFirst(s, b, from);
    if tmp1.None? && tmp2.None? then None
    else if tmp1.None? then tmp2
    else if tmp2.None? then tmp1
    else if tmp1.value < tmp2.value then tmp1 else tmp2
  }

  /** The next place to break after offset `at`: on a space or behind a hyphen. */
  function NextBreak(t: string, at: nat): (r: Option<nat>)
    requires at < |t|
    ensures r.Some? ==> at < r.value <= |t|
  {
    match StrChr2(t, ' ', '-', at + 1)
    case None => None
    case Some(k) => Some(if t[k] == '-' then k + 1 else k)
  }

  function BreakFrom(t: string, length: nat, at: nat): (b: nat)
    requires at <= length < |t|
    ensures at <= b <= length
    decreases length - at
  {
    match NextBreak(t, at)
    case None => at
    case Some(k) => if k <= length then BreakFrom(t, length, k) else at
  }

  /** The break that the inner loop of the space wrapper settles on; 0 for none. */
  function Break(t: string, length: nat): (b: nat)
    requires length < |t|
    ensures b <= length
  {
    BreakFrom(t, length, 0)
  }

  predicate SpaceAt(t: string, i: nat) {
    i < |t| && t[i] == ' '
  }

  function CutOf(style: Style, t: string, length: nat): (c: Cut)
    requires 1 <= length < |t|
    ensures 1 <= c.end <= length && c.end + c.gap <= |t|
    ensures c.gap <= MaxGap(style)
    ensures forall i :: c.end <= i < c.end + c.gap ==> t[i] == ' '
  {
    match style
    case ByLength => Cut(length, if SpaceAt(t, length) then 1 else 0)
    case BySpaces =>
      var b := Break(t, length);
      BreakFacts(t, length, 0);
      if b == 0 then Cut(length, 0)
      else if t[b - 1] == '-' then Cut(b, if SpaceAt(t, b) then 1 else 0)
      else Cut(b, if SpaceAt(t, b + 1) then 2 else 1)
  }

  function MaxGap(style: Style): nat {
    match style case ByLength => 1 case BySpaces => 2
  }

  /** The wrapped text: lines joined by newlines. */
  function Wrapped(style: Style, t: string, length: nat): (r: string)
    requires 1 <= length
    ensures r == "" <==> t == ""
    decreases |t|
  {
    if |t| <= length then t
    else
      var c := CutOf(style, t, length);
      t[..c.end] + "\n" + Wrapped(style, t[c.end + c.gap..], length)
  }

  // ----- which break is chosen -----

  lemma NextBreakFacts(t: string, at: nat)
    requires at < |t|
    ensures var r := NextBreak(t, at); var end := if r.Some? then r.value else |t|;
            && (r.Some? ==> (end < |t| && t[end] == ' ') || (end >= at + 2 && t[end - 1] == '-'))
            && (forall i :: at < i < end ==> t[i] != ' ')
            && (forall i :: at < i < end ==> t[i] != '-' || i == end - 1)
  {
    hide StrChr2;
  }

  /** The chosen break is on a space or behind a hyphen, and behind it there is
      no space up to `length` and no hyphen up to `length - 1`. */
  lemma {:induction false} BreakFacts(t: string, length: nat, at: nat)
    requires at <= length < |t|
    ensures var b := BreakFrom(t, length, at);
            && (b > at ==> t[b] == ' ' || (b >= at + 2 && t[b - 1] == '-'))
            && (forall i :: b < i <= length ==> t[i] != ' ')
            && (forall i :: b < i < length ==> t[i] != '-')
    decreases length - at
  {
    NextBreakFacts(t, at);
    hide NextBreak;
    var next := NextBreak(t, at);
    if next.Some? && next.value <= length {
      BreakFacts(t, length, next.value);
    }
  }

  /** A word is split only when the line offers neither a space nor a hyphen. */
  lemma SplitsWordOnlyWhenForced(t: string, length: nat)
    requires 1 <= length < |t|
    ensures Break(t, length) == 0 <==>
            (forall i :: 1 <= i <= length ==> t[i] != ' ') && (forall i :: 1 <= i < length ==> t[i] != '-')
  {
    BreakFacts(t, length, 0);
  }

  predicate Opportunity(t: string, length: nat, b: nat) {
    1 <= b <= length < |t| && (t[b] == ' ' || (b >= 2 && t[b - 1] == '-'))
  }

  /** How many hyphens stand in a row right before offset e; one at offset 0 is
      never looked at. */
  function HyphensBefore(t: string, e: nat): nat
    requires e <= |t|
  {
    if e >= 2 && t[e - 1] == '-' then 1 + HyphensBefore(t, e - 1) else 0
  }

  /** Where the search stops: at the start, on a space, and behind every second
      hyphen of a row, beginning with the first. */
  predicate Stop(t: string, b: nat)
    requires b < |t|
  {
    b == 0 || t[b] == ' ' || HyphensBefore(t, b) % 2 == 1
  }

  /** From a stop the search goes on to the next one. */
  lemma NextBreakIsNextStop(t: string, at: nat)
    requires at < |t| && Stop(t, at)
    ensures var r := NextBreak(t, at); var end := if r.Some? then r.value else |t|;
            && (forall i :: at < i < end ==> !Stop(t, i))
            && (r.Some? && end < |t| ==> Stop(t, end))
  {
    NextBreakFacts(t, at);
    var r := NextBreak(t, at);
    var end := if r.Some? then r.value else |t|;
    hide NextBreak;
    if at + 1 < |t| {
      RowContinues(t, at);
    }
    forall i | at < i < end ensures !Stop(t, i) {
      assert i > at + 1 ==> t[i - 1] != '-';
    }
    if r.Some? && end < |t| && t[end] != ' ' {
      assert end > at + 2 ==> t[end - 2] != '-';
      assert HyphensBefore(t, end) == 1 + HyphensBefore(t, end - 1);
    }
  }

  /** Right behind a stop an even number of hyphens precedes, or none. */
  lemma RowContinues(t: string, at: nat)
    requires at + 1 < |t| && Stop(t, at)
    ensures HyphensBefore(t, at + 1) % 2 == 0
  {
    if at > 0 && t[at] == '-' {
      var n := HyphensBefore(t, at);
      assert HyphensBefore(t, at + 1) == 1 + n && n % 2 == 1;
    } else {
      assert HyphensBefore(t, at + 1) == 0;
    }
  }

  lemma StopIsOpportunity(t: string, length: nat, b: nat)
    requires 0 < b <= length < |t| && Stop(t, b)
    ensures Opportunity(t, length, b)
  {
  }

  /** Where the search does not stop, it stops one place earlier. */
  lemma StopBefore(t: string, length: nat, i: nat)
    requires Opportunity(t, length, i) && !Stop(t, i)
    ensures i >= 2 && Stop(t, i - 1)
  {
    var n := HyphensBefore(t, i - 1);
    assert HyphensBefore(t, i) == 1 + n && (1 + n) % 2 == 0;
  }

  lemma {:induction false} BreakFromIsLastStop(t: string, length: nat, at: nat)
    requires at <= length < |t| && Stop(t, at)
    ensures var b := BreakFrom(t, length, at);
            Stop(t, b) && forall i :: b < i <= length ==> !Stop(t, i)
    decreases length - at
  {
    NextBreakIsNextStop(t, at);
    hide NextBreak, Stop;
    var next := NextBreak(t, at);
    if next.Some? && next.value <= length {
      BreakFromIsLastStop(t, length, next.value);
    }
  }

  /** The chosen break is the last opportunity L exactly when L is a space or ends
      an odd number of hyphens; otherwise it is the place in front of the last
      hyphen: the search skips a hyphen right behind the place it has just taken. */
  lemma BreakIsLast(t: string, length: nat, last: nat)
    requires Opportunity(t, length, last) && forall i: nat :: Opportunity(t, length, i) ==> i <= last
    ensures Break(t, length) == last <==> t[last] == ' ' || HyphensBefore(t, last) % 2 == 1
    ensures Break(t, length) == last || Break(t, length) == last - 1
  {
    BreakFromIsLastStop(t, length, 0);
    var b := Break(t, length);
    if b > 0 {
      StopIsOpportunity(t, length, b);
    }
    if !Stop(t, last) {
      StopBefore(t, length, last);
    }
    hide BreakFrom, HyphensBefore, Opportunity;
  }

  /** The search does skip: of the two opportunities behind the hyphens it takes
      the first. */
  lemma DoubleHyphenSkipped()
    ensures var t := "ab--cdef"; Break(t, 5) == 3 && Opportunity(t, 5, 4)
  {
    var t := "ab--cdef";
    assert StrChr2(t, ' ', '-', 1) == Some(2);
    assert StrChr2(t, ' ', '-', 4) == None;
    assert NextBreak(t, 0) == Some(3);
    assert NextBreak(t, 3) == None;
  }

  // ----- what wrapping keeps -----

  /** A line of the result and the spaces given up behind it. */
  datatype Piece = Piece(text: string, gap: string)

  function Source(pieces: seq<Piece>): string {
    if pieces == [] then "" else pieces[0].text + pieces[0].gap + Source(pieces[1..])
  }

  function Shown(pieces: seq<Piece>): string {
    if pieces == [] then ""
    else if |pieces| == 1 then pieces[0].text
    else pieces[0].text + "\n" + Shown(pieces[1..])
  }

  function Pieces(style: Style, t: string, length: nat): (r: seq<Piece>)
    requires 1 <= length
    ensures r != []
    decreases |t|
  {
    if |t| <= length then [Piece(t, "")]
    else
      var c := CutOf(style, t, length);
      [Piece(t[..c.end], t[c.end..c.end + c.gap])] + Pieces(style, t[c.end + c.gap..], length)
  }

  ghost predicate Fits(piece: Piece, length: nat, maxGap: nat) {
    |piece.text| <= length && |piece.gap| <= maxGap && forall i :: 0 <= i < |piece.gap| ==> piece.gap[i] == ' '
  }

  /** The text falls into pieces of at most `length` characters; wrapping puts a
      newline in place of the few spaces between them and changes nothing else. */
  lemma {:induction false} WrapConserves(style: Style, t: string, length: nat)
    requires 1 <= length
    ensures var pieces := Pieces(style, t, length);
            && Source(pieces) == t && Shown(pieces) == Wrapped(style, t, length)
            && (forall i :: 0 <= i < |pieces| ==> Fits(pieces[i], length, MaxGap(style)))
            && pieces[|pieces| - 1].gap == ""
    decreases |t|
  {
    if |t| <= length {
      assert Source([Piece(t, "")]) == t;
    } else {
      hide Fits, MaxGap, CutOf, Source, Shown, Wrapped, Pieces;
      var piece, left := FirstPiece(style, t, length);
      WrapConserves(style, left, length);
      PiecesCons(piece, Pieces(style, left, length));
    }
  }

  lemma FirstPiece(style: Style, t: string, length: nat) returns (piece: Piece, left: string)
    requires 1 <= length < |t|
    ensures |left| < |t| && t == piece.text + piece.gap + left && Fits(piece, length, MaxGap(style))
    ensures Pieces(style, t, length) == [piece] + Pieces(style, left, length)
    ensures Wrapped(style, t, length) == piece.text + "\n" + Wrapped(style, left, length)
  {
    WrapUnfolds(style, t, length);
    hide CutOf, Wrapped, Pieces;
    var c := CutOf(style, t, length);
    piece, left := Piece(t[..c.end], t[c.end..c.end + c.gap]), t[c.end + c.gap..];
    InThree(t, c.end, c.end + c.gap);
  }

  lemma InThree(t: string, i: nat, j: nat)
    requires i <= j <= |t|
    ensures t == t[..i] + t[i..j] + t[j..]
  {
  }

  lemma WrapUnfolds(style: Style, t: string, length: nat)
    requires 1 <= length < |t|
    ensures var c := CutOf(style, t, length); var left := t[c.end + c.gap..];
            && Wrapped(style, t, length) == t[..c.end] + "\n" + Wrapped(style, left, length)
            && Pieces(style, t, length) == [Piece(t[..c.end], t[c.end..c.end + c.gap])] + Pieces(style, left, length)
  {
  }

  lemma PiecesCons(piece: Piece, rest: seq<Piece>)
    ensures Source([piece] + rest) == piece.text + piece.gap + Source(rest)
    ensures rest != [] ==> Shown([piece] + rest) == piece.text + "\n" + Shown(rest)
  {
    assert ([piece] + rest)[1..] == rest;
  }

  // ----- consequences for content and line length -----

  /** The text without spaces and newlines. */
  function Strip(s: string): string {
    if s == "" then ""
    else (if s[0] == ' ' || s[0] == '\n' then "" else [s[0]]) + Strip(s[1..])
  }

  lemma {:induction false} StripConcat(a: string, b: string)
    ensures Strip(a + b) == Strip(a) + Strip(b)
  {
    if a == "" {
      assert a + b == b;
    } else {
      assert (a + b)[1..] == a[1..] + b;
      StripConcat(a[1..], b);
    }
  }

  lemma {:induction false} BlankCounts(gap: string)
    requires forall i :: 0 <= i < |gap| ==> gap[i] == ' '
    ensures Strip(gap) == "" && Count(gap, ' ') == |gap| && Count(gap, '\n') == 0
  {
    if gap != "" {
      BlankCounts(gap[1..]);
    }
  }

  lemma {:induction false} ShownKeeps(pieces: seq<Piece>, length: nat, maxGap: nat)
    requires pieces != [] && pieces[|pieces| - 1].gap == ""
    requires forall i :: 0 <= i < |pieces| ==> Fits(pieces[i], length, maxGap)
    ensures Strip(Shown(pieces)) == Strip(Source(pieces))
    ensures Count(Shown(pieces), '\n') == Count(Source(pieces), '\n') + |pieces| - 1
  {
    var text, gap, rest := pieces[0].text, pieces[0].gap, pieces[1..];
    if rest == [] {
      assert Source(pieces) == text;
    } else {
      assert Fits(pieces[0], length, maxGap) && [pieces[0]] + rest == pieces;
      hide Strip, Count, Shown, Source;
      ShownKeeps(rest, length, maxGap);
      PiecesCons(pieces[0], rest);
      BlankCounts(gap);
      NewlineCounts();
      ThreeParts(text, "\n", Shown(rest), '\n');
      ThreeParts(text, gap, Source(rest), '\n');
    }
  }

  lemma {:induction false} ShownSpaces(pieces: seq<Piece>, length: nat, maxGap: nat)
    requires pieces != [] && pieces[|pieces| - 1].gap == ""
    requires forall i :: 0 <= i < |pieces| ==> Fits(pieces[i], length, maxGap)
    ensures 0 <= Count(Source(pieces), ' ') - Count(Shown(pieces), ' ') <= maxGap * (|pieces| - 1)
  {
    var text, gap, rest := pieces[0].text, pieces[0].gap, pieces[1..];
    if rest == [] {
      assert Source(pieces) == text;
    } else {
      assert Fits(pieces[0], length, maxGap) && [pieces[0]] + rest == pieces;
      hide Strip, Count, Shown, Source;
      ShownSpaces(rest, length, maxGap);
      PiecesCons(pieces[0], rest);
      BlankCounts(gap);
      NewlineCounts();
      ThreeParts(text, "\n", Shown(rest), ' ');
      ThreeParts(text, gap, Source(rest), ' ');
      OneGapMore(maxGap, |rest|);
    }
  }

  lemma OneGapMore(maxGap: nat, n: nat)
    requires 1 <= n
    ensures maxGap * n == maxGap * (n - 1) + maxGap
  {
  }

  lemma ThreeParts(x: string, y: string, z: string, c: char)
    ensures Strip(x + y + z) == Strip(x) + Strip(y) + Strip(z)
    ensures Count(x + y + z, c) == Count(x, c) + Count(y, c) + Count(z, c)
  {
    StripConcat(x + y, z);
    StripConcat(x, y);
    CountConcat(x + y, z, c);
    CountConcat(x, y, c);
  }

  lemma NewlineCounts()
    ensures Strip("\n") == "" && Count("\n", '\n') == 1 && Count("\n", ' ') == 0
  {
  }

  lemma {:induction false} SegmentsShort(s: string)
    ensures forall i :: 0 <= i < |Segments(s)| ==> |Segments(s)[i]| <= |s|
  {
    if s != "" {
      SegmentsShort(s[1..]);
    }
  }

  lemma {:induction false} ShownShort(pieces: seq<Piece>, length: nat, maxGap: nat)
    requires pieces != [] && forall i :: 0 <= i < |pieces| ==> Fits(pieces[i], length, maxGap)
    ensures forall i :: 0 <= i < |Segments(Shown(pieces))| ==> |Segments(Shown(pieces))[i]| <= length
  {
    assert Fits(pieces[0], length, maxGap);
    SegmentsShort(pieces[0].text);
    if |pieces| > 1 {
      ShownShort(pieces[1..], length, maxGap);
      SegmentsConcat(pieces[0].text, Shown(pieces[1..]));
    }
  }

  /** Both algorithms, on any text: apart from spaces and newlines the content is
      untouched, no line is longer than `length`, and at most one space (two for
      the space wrapper) is lost at each newline that is put in. */
  lemma WrappedKeepsContent(style: Style, t: string, length: nat)
    requires 1 <= length
    ensures var r := Wrapped(style, t, length);
            && Strip(r) == Strip(t)
            && Count(r, '\n') >= Count(t, '\n')
            && 0 <= Count(t, ' ') - Count(r, ' ') <= MaxGap(style) * (Count(r, '\n') - Count(t, '\n'))
            && forall i :: 0 <= i < |Segments(r)| ==> |Segments(r)[i]| <= length
  {
    var pieces := Pieces(style, t, length);
    WrapConserves(style, t, length);
    hide Wrapped, Pieces, Source, Shown, Strip, Count, Segments;
    ShownKeeps(pieces, length, MaxGap(style));
    ShownSpaces(pieces, length, MaxGap(style));
    ShownShort(pieces, length, MaxGap(style));
  }

  // ----- how many lines -----

  lemma LinesCounted(s: string)
    ensures |LinesOf(s)| == Count(s, '\n') + if EndsWithNewline(s) then 0 else 1
  {
    SegmentsCounted(s);
    hide Segments, Count;
  }

  lemma CountAcrossCut(t: string, end: nat, gap: nat)
    requires end + gap <= |t| && forall i :: end <= i < end + gap ==> t[i] == ' '
    ensures Count(t, '\n') == Count(t[..end], '\n') + Count(t[end + gap..], '\n')
  {
    hide Count, Strip;
    InThree(t, end, end + gap);
    ThreeParts(t[..end], t[end..end + gap], t[end + gap..], '\n');
    BlankCounts(t[end..end + gap]);
  }

  lemma EndBehindCut(t: string, k: nat)
    requires k <= |t| && t != "" && (k == |t| ==> t[k - 1] == ' ')
    ensures EndsWithNewline(t) == EndsWithNewline(t[k..])
  {
  }

  /** A text that is cut at `end`, with a gap of spaces given up behind it. */
  lemma LinesAcrossCut(t: string, end: nat, gap: nat)
    requires end + gap <= |t| && t != "" && (end + gap == |t| ==> gap > 0)
    requires forall i :: end <= i < end + gap ==> t[i] == ' '
    ensures |LinesOf(t)| == |Segments(t[..end])| +
            if end + gap == |t| then 0 else |LinesOf(t[end + gap..])| - 1
  {
    hide LinesOf, Segments, EndsWithNewline, Count;
    var head, left := t[..end], t[end + gap..];
    CountAcrossCut(t, end, gap);
    EndBehindCut(t, end + gap);
    LinesCounted(t);
    LinesCounted(left);
    SegmentsCounted(head);
    NothingCounted();
    assert end + gap == |t| ==> left == "";
  }

  lemma NothingCounted()
    ensures Count("", '\n') == 0 && !EndsWithNewline("")
  {
  }

  /** The lines that wrapping makes of a text, apart from its own newlines. */
  function Rows(style: Style, t: string, length: nat): (n: nat)
    requires 1 <= length
    ensures n >= 1
    decreases |t|
  {
    if |t| <= length then 1
    else
      var c := CutOf(style, t, length);
      var left := t[c.end + c.gap..];
      1 + if left == "" then 0 else Rows(style, left, length)
  }

  lemma RowsStep(style: Style, t: string, length: nat)
    requires 1 <= length < |t|
    ensures var c := CutOf(style, t, length); var left := t[c.end + c.gap..];
            |left| < |t| && Rows(style, t, length) == 1 + if left == "" then 0 else Rows(style, left, length)
  {
  }

  lemma OneRow(style: Style, t: string, length: nat)
    requires 1 <= length && |t| <= length
    ensures Rows(style, t, length) == 1 && Wrapped(style, t, length) == t
  {
  }

  lemma FirstOfWrapped(style: Style, t: string, length: nat)
    requires 1 <= length < |t|
    ensures var c := CutOf(style, t, length); var left := t[c.end + c.gap..];
            |LinesOf(Wrapped(style, t, length))| ==
            |Segments(t[..c.end])| + if left == "" then 0 else |LinesOf(Wrapped(style, left, length))|
  {
    WrapUnfolds(style, t, length);
    hide Wrapped, LinesOf, Segments, CutOf;
    var c := CutOf(style, t, length);
    LinesConcat(t[..c.end], Wrapped(style, t[c.end + c.gap..], length));
  }

  /** Both algorithms, on any text: the wrapped text has one line for each row, and
      one more for each line that the text had beyond its first. */
  lemma {:induction false} WrappedLines(style: Style, t: string, length: nat)
    requires 1 <= length
    ensures |LinesOf(Wrapped(style, t, length))| == |LinesOf(t)| - 1 + Rows(style, t, length)
    decreases |t|
  {
    hide Wrapped, LinesOf, Segments, Rows;
    if |t| <= length {
      OneRow(style, t, length);
    } else {
      var c := CutOf(style, t, length);
      FirstOfWrapped(style, t, length);
      LinesAcrossCut(t, c.end, c.gap);
      RowsStep(style, t, length);
      hide CutOf;
      WrappedLines(style, t[c.end + c.gap..], length);
    }
  }

  /** The spaces given up when a text is cut by length: those that stand right
      behind a full line. */
  function CutSpaces(t: string, length: nat): (n: nat)
    requires 1 <= length
    ensures t != "" ==> n < |t|
    decreases |t|
  {
    if |t| <= length then 0
    else if t[length] == ' ' then 1 + CutSpaces(t[length + 1..], length)
    else CutSpaces(t[length..], length)
  }

  lemma CutSpacesStep(t: string, length: nat)
    requires 1 <= length < |t|
    ensures var c := CutOf(ByLength, t, length); var left := t[c.end + c.gap..];
            && |t| - length - 1 <= |left| <= |t| - length
            && |t| - CutSpaces(t, length) == length + |left| - CutSpaces(left, length)
  {
  }

  lemma NoCutSpaces(t: string, length: nat)
    requires 1 <= length && |t| <= length
    ensures CutSpaces(t, length) == 0
  {
  }

  /** Room for so many full lines. */
  function Room(length: nat, lines: nat): nat {
    if lines == 0 then 0 else length + Room(length, lines - 1)
  }

  lemma {:induction false} RoomIsProduct(length: nat, lines: nat)
    ensures Room(length, lines) == length * lines
  {
    if lines > 0 {
      RoomIsProduct(length, lines - 1);
      assert length * lines == length * (lines - 1) + length;
    }
  }

  lemma {:induction false} RowsFitRoom(t: string, length: nat, lines: nat)
    requires 1 <= length && 1 <= lines
    ensures Rows(ByLength, t, length) <= lines <==> |t| - CutSpaces(t, length) <= Room(length, lines)
    decreases |t|
  {
    hide Rows, CutSpaces, CutOf;
    if |t| <= length {
      OneRow(ByLength, t, length);
      NoCutSpaces(t, length);
    } else {
      RowsStep(ByLength, t, length);
      CutSpacesStep(t, length);
      var c := CutOf(ByLength, t, length);
      var left := t[c.end + c.gap..];
      if left == "" {
        NoCutSpaces(left, length);
      } else if lines > 1 {
        RowsFitRoom(left, length, lines - 1);
      }
    }
  }

  lemma NoRoom(length: nat, lines: int)
    requires lines <= 0
    ensures length * lines <= 0
  {
  }

  /** Cut by length, a text takes no more rows than that exactly when its characters
      without the spaces given up fill no more. */
  lemma RowsFitIff(t: string, length: nat, lines: int)
    requires 1 <= length && (t != "" || 1 <= lines)
    ensures Rows(ByLength, t, length) <= lines <==> |t| - CutSpaces(t, length) <= length * lines
  {
    hide Rows, CutSpaces, Room;
    if lines <= 0 {
      NoRoom(length, lines);
    } else {
      RowsFitRoom(t, length, lines);
      RoomIsProduct(length, lines);
    }
  }

  function LineCount(t: string, length: nat): nat
    requires 1 <= length
  {
    |LinesOf(Wrapped(ByLength, t, length))|
  }

  /** How many rows may be made of a text without exceeding `maxlines` lines: each
      line it has beyond its first takes one. */
  function RowsLeft(t: string, maxlines: int): int {
    maxlines + 1 - |LinesOf(t)|
  }

  lemma RowsLeftPlain(t: string, maxlines: int)
    requires '\n' !in t
    ensures RowsLeft(t, maxlines) == maxlines
  {
    LinesPlain(t);
  }

  /** Exactly when a text that is cut by length takes no more than `maxlines` lines:
      its characters without the spaces given up fill no more than the rows left to
      it. */
  lemma ByLengthFitsIff(t: string, length: nat, maxlines: int)
    requires 1 <= length && 1 <= maxlines
    ensures LineCount(t, length) <= maxlines <==>
            |t| - CutSpaces(t, length) <= length * RowsLeft(t, maxlines)
  {
    if t == "" {
      RowsLeftPlain(t, maxlines);
    }
    hide Wrapped, LinesOf, Rows, CutSpaces;
    WrappedLines(ByLength, t, length);
    RowsFitIff(t, length, RowsLeft(t, maxlines));
  }

  /** A text without newlines that has room in `maxlines` full lines takes no
      more than that when it is cut by length. */
  lemma ByLengthLineCount(t: string, length: nat, maxlines: nat)
    requires 1 <= length && 1 <= maxlines && '\n' !in t && |t| <= length * maxlines
    ensures LineCount(t, length) <= maxlines
  {
    RowsLeftPlain(t, maxlines);
    hide LineCount, CutSpaces, RowsLeft;
    ByLengthFitsIff(t, length, maxlines);
  }

  lemma {:induction false} RowsOverflow(t: string, length: nat, lines: nat)
    requires 1 <= length && |t| > (length + 1) * lines
    ensures Rows(ByLength, t, length) > lines
    decreases |t|
  {
    hide Rows, CutOf;
    if lines > 0 {
      OneLineMore(length, lines, |t|);
      RowsStep(ByLength, t, length);
      CutSpacesStep(t, length);
      var c := CutOf(ByLength, t, length);
      RowsOverflow(t[c.end + c.gap..], length, lines - 1);
    }
  }

  /** A text with more than `length + 1` characters for each line does not fit. */
  lemma ByLengthOverflows(t: string, length: nat, maxlines: nat)
    requires 1 <= length && |t| > (length + 1) * maxlines
    ensures LineCount(t, length) > maxlines
  {
    LinesRebuild(t);
    hide Wrapped, LinesOf, Rows;
    RowsOverflow(t, length, maxlines);
    WrappedLines(ByLength, t, length);
  }

  lemma OneLineMore(length: nat, lines: nat, n: nat)
    requires 1 <= lines && n > (length + 1) * lines
    ensures n > length + 1 && n - (length + 1) > (length + 1) * (lines - 1) >= 0
  {
    assert (length + 1) * lines == (length + 1) * (lines - 1) + (length + 1);
  }

  // ----- the loops -----

  /** `g_string_insert_c` and `g_string_erase`. */
  function InsertChar(s: string, pos: nat, c: char): (r: string)
    requires pos <= |s|
    ensures |r| == |s| + 1
  {
    s[..pos] + [c] + s[pos..]
  }

  function Erase(s: string, pos: nat, len: nat): (r: string)
    requires pos + len <= |s|
    ensures |r| == |s| - len
  {
    s[..pos] + s[pos + len..]
  }

  /** `s` with its next line finished: a newline stands behind the `end` characters
      of the line that starts at `remainder`, and the gap is gone. */
  function WithLine(s: string, remainder: nat, c: Cut): (r: string)
    requires remainder + c.end + c.gap <= |s|
    ensures |r| == |s| + 1 - c.gap
  {
    s[..remainder + c.end] + "\n" + s[remainder + c.end + c.gap..]
  }

  /** Finishing a line moves it from what is left to what is done. */
  lemma LineDone(style: Style, s: string, remainder: nat, length: nat)
    requires remainder <= |s| && 1 <= length < |s| - remainder
    ensures var c := CutOf(style, s[remainder..], length);
            var t, next := WithLine(s, remainder, c), remainder + c.end + 1;
            t[..next] + Wrapped(style, t[next..], length) == s[..remainder] + Wrapped(style, s[remainder..], length)
  {
    var left := s[remainder..];
    var c := CutOf(style, left, length);
    WrapUnfolds(style, left, length);
    WithLineParts(s, remainder, c);
    hide Wrapped, CutOf, WithLine, Pieces;
    Regroup(s[..remainder], left[..c.end], "\n", Wrapped(style, left[c.end + c.gap..], length));
  }

  lemma Regroup(a: string, b: string, c: string, d: string)
    ensures (a + b + c) + d == a + (b + c + d)
  {
  }

  lemma WithLineParts(s: string, remainder: nat, c: Cut)
    requires remainder + c.end + c.gap <= |s|
    ensures var t, next, left := WithLine(s, remainder, c), remainder + c.end + 1, s[remainder..];
            t[..next] == s[..remainder] + left[..c.end] + "\n" && t[next..] == left[c.end + c.gap..]
  {
    var t, next, left := WithLine(s, remainder, c), remainder + c.end + 1, s[remainder..];
    assert t[..next] == s[..remainder] + left[..c.end] + "\n";
    assert t[next..] == left[c.end + c.gap..];
  }

  /** Taking out the character behind the newline widens the gap. */
  lemma EraseWidens(s: string, remainder: nat, c: Cut)
    requires remainder + c.end + c.gap < |s|
    ensures var t, next := WithLine(s, remainder, c), remainder + c.end + 1;
            && t[next] == s[remainder + c.end + c.gap]
            && Erase(t, next, 1) == WithLine(s, remainder, Cut(c.end, c.gap + 1))
  {
    var t, next := WithLine(s, remainder, c), remainder + c.end + 1;
    assert t[next + 1..] == s[remainder + c.end + c.gap + 1..];
    assert t[..next] == s[..remainder + c.end] + "\n";
  }

  /** Both loops erase one space at the start of the new line. */
  method SkipSpace(s: string, remainder: nat) returns (newStr: string)
    requires remainder <= |s|
    ensures newStr == if SpaceAt(s, remainder) then Erase(s, remainder, 1) else s
  {
    newStr := s;
    if remainder < |s| && s[remainder] == ' ' {
      newStr := Erase(s, remainder, 1);
    }
  }

  /** That widens the gap if a space comes next. */
  lemma SkipWidens(s: string, remainder: nat, end: nat, gap: nat)
    requires remainder + end + gap <= |s|
    ensures var t, next := WithLine(s, remainder, Cut(end, gap)), remainder + end + 1;
            var more := if SpaceAt(s[remainder..], end + gap) then 1 else 0;
            (if SpaceAt(t, next) then Erase(t, next, 1) else t) == WithLine(s, remainder, Cut(end, gap + more))
  {
    hide WithLine, Erase;
    if remainder + end + gap < |s| {
      EraseWidens(s, remainder, Cut(end, gap));
    }
  }

  lemma InsertIsWithLine(s: string, remainder: nat, end: nat)
    requires remainder + end <= |s|
    ensures InsertChar(s, remainder + end, '\n') == WithLine(s, remainder, Cut(end, 0))
  {
  }

  lemma OverwriteIsWithLine(s: string, remainder: nat, end: nat)
    requires remainder + end < |s|
    ensures s[remainder + end := '\n'] == WithLine(s, remainder, Cut(end, 1))
  {
  }

  /** What is done and what is left make up the wrapped text. */
  ghost predicate OnTheWay(style: Style, buffer: string, s: string, remainder: nat, length: nat) {
    && remainder <= |s| && 1 <= length
    && s[..remainder] + Wrapped(style, s[remainder..], length) == Wrapped(style, buffer, length)
  }

  lemma WayBegins(style: Style, buffer: string, length: nat)
    requires 1 <= length
    ensures OnTheWay(style, buffer, buffer, 0, length)
  {
    assert buffer[0..] == buffer && buffer[..0] == "";
  }

  lemma WayGoesOn(style: Style, buffer: string, s: string, remainder: nat, length: nat)
    requires OnTheWay(style, buffer, s, remainder, length) && length < |s| - remainder
    ensures var c := CutOf(style, s[remainder..], length);
            OnTheWay(style, buffer, WithLine(s, remainder, c), remainder + c.end + 1, length)
  {
    hide Wrapped;
    LineDone(style, s, remainder, length);
  }

  lemma WayEnds(style: Style, buffer: string, s: string, remainder: nat, length: nat)
    requires OnTheWay(style, buffer, s, remainder, length) && |s| - remainder <= length
    ensures s == Wrapped(style, buffer, length)
  {
    assert Wrapped(style, s[remainder..], length) == s[remainder..];
    assert s[..remainder] + s[remainder..] == s;
  }

  /** `stringbuffer_wrap_simple`; like the original it takes `maxlines` and does
      not look at it. */
  method WrapSimple(buffer: string, length: int, maxlines: int) returns (newStr: string)
    requires length >= 1
    ensures newStr == Wrapped(ByLength, buffer, length)
  {
    hide Wrapped, InsertChar, Erase, WithLine, OnTheWay;
    newStr := buffer;
    var remainder, curLine := 0, 0;
    WayBegins(ByLength, buffer, length);
    while |newStr| - remainder > length
      invariant 0 <= remainder == curLine * (length + 1) <= |newStr|
      invariant OnTheWay(ByLength, buffer, newStr, remainder, length)
      decreases |newStr| - remainder
    {
      WayGoesOn(ByLength, buffer, newStr, remainder, length);
      InsertIsWithLine(newStr, remainder, length);
      SkipWidens(newStr, remainder, length, 0);
      var pos := length * (curLine + 1) + curLine;
      LinePosition(curLine, length);
      newStr := InsertChar(newStr, pos, '\n');
      remainder := remainder + length + 1;
      newStr := SkipSpace(newStr, remainder);
      curLine := curLine + 1;
    }
    WayEnds(ByLength, buffer, newStr, remainder, length);
  }

  lemma LinePosition(line: nat, length: nat)
    ensures length * (line + 1) + line == line * (length + 1) + length
    ensures (line + 1) * (length + 1) == line * (length + 1) + length + 1
  {
  }

  /** The inner loop of the space wrapper; offsets are relative to the start of
      the string, as the pointers are. */
  method SeekBreak(s: string, remainder: nat, length: nat) returns (mark: nat)
    requires remainder <= |s| && length < |s| - remainder
    ensures mark == remainder + Break(s[remainder..], length)
  {
    hide BreakFrom, NextBreak, StrChr2;
    ghost var t := s[remainder..];
    var next: Option<nat> := Some(remainder);
    mark := remainder;
    while next.Some? && next.value - remainder <= length
      invariant remainder <= mark <= remainder + length
      invariant next.Some? ==> mark <= next.value <= |s|
      invariant if next.Some? && next.value - remainder <= length
                then BreakFrom(t, length, next.value - remainder) == Break(t, length)
                else mark == remainder + Break(t, length)
      decreases if next.Some? then |s| + 1 - next.value else 0
    {
      mark := next.value;
      BreakFromStep(t, length, mark - remainder);
      NextBreakShift(s, remainder, mark - remainder);
      next := StrChr2(s, ' ', '-', mark + 1);
      if next.Some? && s[next.value] == '-' {
        next := Some(next.value + 1);
      }
    }
  }

  lemma BreakFromStep(t: string, length: nat, at: nat)
    requires at <= length < |t|
    ensures BreakFrom(t, length, at) ==
            match NextBreak(t, at)
            case None => at
            case Some(k) => if k <= length then BreakFrom(t, length, k) else at
  {
  }

  lemma {:induction false} StrChrShift(s: string, c: char, k: nat, from: nat)
    requires k + from <= |s|
    ensures match StrChr(s[k..], c, from)
            case None => StrChr(s, c, k + from) == None
            case Some(i) => StrChr(s, c, k + from) == Some(k + i)
    decreases |s| - from
  {
    if k + from < |s| && s[k + from] != c {
      StrChrShift(s, c, k, from + 1);
    }
  }

  lemma StrChr2Shift(s: string, k: nat, from: nat)
    requires k + from <= |s|
    ensures match StrChr2(s[k..], ' ', '-', from)
            case None => StrChr2(s, ' ', '-', k + from) == None
            case Some(i) => StrChr2(s, ' ', '-', k + from) == Some(k + i)
  {
    hide StrChr;
    StrChrShift(s, ' ', k, from);
    StrChrShift(s, '-', k, from);
  }

  lemma NextBreakShift(s: string, k: nat, at: nat)
    requires k + at < |s|
    ensures match StrChr2(s, ' ', '-', k + at + 1)
            case None => NextBreak(s[k..], at) == None
            case Some(i) => NextBreak(s[k..], at) == Some((if s[i] == '-' then i + 1 else i) - k)
  {
    hide StrChr2;
    StrChr2Shift(s, k, at + 1);
  }

  lemma SpaceCut(s: string, start: nat, length: nat)
    requires start <= |s| && 1 <= length < |s| - start
    ensures var b := Break(s[start..], length);
            var gap := if b > 0 && s[start + b - 1] == '-' then 0 else 1;
            CutOf(BySpaces, s[start..], length) ==
            if b == 0 then Cut(length, 0) else Cut(b, gap + if SpaceAt(s[start..], b + gap) then 1 else 0)
  {
    hide BreakFrom, SpaceAt;
    var b := Break(s[start..], length);
    assert b > 0 ==> s[start..][b - 1] == s[start + b - 1];
  }

  /** Puts the newline at a break found by the search: in front of the character
      behind a hyphen, or else over the space. */
  method PutNewline(s: string, remainder: nat, mark: nat) returns (newStr: string)
    requires remainder < mark < |s|
    ensures newStr == WithLine(s, remainder, Cut(mark - remainder, if s[mark - 1] == '-' then 0 else 1))
  {
    hide InsertChar, WithLine;
    if s[mark - 1] == '-' {
      InsertIsWithLine(s, remainder, mark - remainder);
      newStr := InsertChar(s, mark, '\n');
    } else {
      OverwriteIsWithLine(s, remainder, mark - remainder);
      newStr := s[mark := '\n'];
    }
  }

  /** What the body of the outer loop does once the break is known. */
  method BreakLine(s: string, start: nat, mark: nat, length: nat) returns (newStr: string, remainder: nat)
    requires start <= |s| && 1 <= length < |s| - start && mark == start + Break(s[start..], length)
    ensures var c := CutOf(BySpaces, s[start..], length);
            newStr == WithLine(s, start, c) && remainder == start + c.end + 1
  {
    hide Break, InsertChar, Erase, WithLine, CutOf, SpaceAt;
    SpaceCut(s, start, length);
    remainder := start;
    if mark == remainder {
      InsertIsWithLine(s, remainder, length);
      newStr := InsertChar(s, remainder + length, '\n');
      remainder := remainder + length + 1;
    } else {
      SkipWidens(s, remainder, mark - remainder, if s[mark - 1] == '-' then 0 else 1);
      newStr := PutNewline(s, remainder, mark);
      remainder := remainder + (mark - remainder + 1);
      newStr := SkipSpace(newStr, remainder);
    }
  }

  /** `stringbuffer_wrap_spaces`. */
  method WrapSpaces(buffer: string, length: int, maxlines: int) returns (newStr: string)
    requires length >= 1
    ensures newStr == Wrapped(BySpaces, buffer, length)
  {
    hide Wrapped, Break, WithLine, OnTheWay;
    newStr := buffer;
    var remainder, curLine := 0, 0;
    WayBegins(BySpaces, buffer, length);
    while |newStr| - remainder > length
      invariant 0 <= remainder <= |newStr|
      invariant OnTheWay(BySpaces, buffer, newStr, remainder, length)
      decreases |newStr| - remainder
    {
      WayGoesOn(BySpaces, buffer, newStr, remainder, length);
      var mark := SeekBreak(newStr, remainder, length);
      newStr, remainder := BreakLine(newStr, remainder, mark, length);
      curLine := curLine + 1;
    }
    WayEnds(BySpaces, buffer, newStr, remainder, length);
  }

  // ----- the dispatcher -----

  /** What `stringbuffer_wrap` answers. */
  function WrapText(buffer: string, length: int, maxlines: int): string
    requires length >= 1
  {
    if length * maxlines < |buffer| then Wrapped(ByLength, buffer, length)
    else
      var spaced := Wrapped(BySpaces, buffer, length);
      if |LinesOf(spaced)| <= maxlines then spaced else Wrapped(ByLength, buffer, length)
  }

  /** `stringbuffer_wrap`. */
  method WrapBuffer(buffer: string, length: int, maxlines: int) returns (r: string)
    requires length >= 1
    ensures r == WrapText(buffer, length, maxlines)
  {
    hide Wrapped, LinesOf;
    if length * maxlines < |buffer| {
      r := WrapSimple(buffer, length, maxlines);
    } else {
      var spaced := WrapSpaces(buffer, length, maxlines);
      var lines := GetLines(spaced);
      if lines <= maxlines {
        r := spaced;
      } else {
        r := WrapSimple(buffer, length, maxlines);
      }
    }
  }

  /** Whichever branch or fallback is taken, a text without newlines that has
      room in `maxlines` full lines is not given more lines. */
  lemma WrapFits(buffer: string, length: int, maxlines: int)
    requires 1 <= length && 1 <= maxlines && '\n' !in buffer && |buffer| <= length * maxlines
    ensures |LinesOf(WrapText(buffer, length, maxlines))| <= maxlines
  {
    hide Wrapped, LinesOf;
    ByLengthLineCount(buffer, length, maxlines);
  }

  /** Exactly when a text gets no more than `maxlines` lines: when it is short enough
      for the space wrapper to be asked and that makes no more rows of it than are
      left, or when its characters without the spaces that cutting by length gives
      up fill no more. For a text without newlines the second alone decides. */
  lemma WrapFitsIff(buffer: string, length: int, maxlines: int)
    requires 1 <= length && 1 <= maxlines
    ensures |LinesOf(WrapText(buffer, length, maxlines))| <= maxlines <==>
            || (|buffer| <= length * maxlines && Rows(BySpaces, buffer, length) <= RowsLeft(buffer, maxlines))
            || |buffer| - CutSpaces(buffer, length) <= length * RowsLeft(buffer, maxlines)
    ensures '\n' !in buffer ==>
              (|LinesOf(WrapText(buffer, length, maxlines))| <= maxlines <==>
               |buffer| - CutSpaces(buffer, length) <= length * maxlines)
  {
    hide Wrapped, LinesOf, CutSpaces, Rows;
    if '\n' !in buffer {
      RowsLeftPlain(buffer, maxlines);
    }
    ByLengthFitsIff(buffer, length, maxlines);
    WrappedLines(BySpaces, buffer, length);
  }

  /** Four characters and a space go on two lines of two, although they are more
      than fill them. */
  lemma LongerTextFits()
    ensures var t := "ab cd"; |t| > 2 * 2 && |LinesOf(WrapText(t, 2, 2))| <= 2
  {
    var t := "ab cd";
    assert CutSpaces(t[3..], 2) == 0;
    assert CutSpaces(t, 2) == 1;
    hide WrapText, LinesOf, CutSpaces, Rows;
    WrapFitsIff(t, 2, 2);
  }

  /** With more than `length + 1` characters a line the text cannot fit. */
  lemma WrapOverflows(buffer: string, length: int, maxlines: int)
    requires 1 <= length && 0 <= maxlines && |buffer| > (length + 1) * maxlines
    ensures |LinesOf(WrapText(buffer, length, maxlines))| > maxlines
  {
    hide Wrapped, LinesOf;
    assert (length + 1) * maxlines == length * maxlines + maxlines;
    ByLengthOverflows(buffer, length, maxlines);
  }

  /** Content and line length survive the dispatcher too. */
  lemma WrapTextKeepsContent(buffer: string, length: int, maxlines: int)
    requires 1 <= length
    ensures var r := WrapText(buffer, length, maxlines);
            && Strip(r) == Strip(buffer)
            && 0 <= Count(buffer, ' ') - Count(r, ' ') <= 2 * (Count(r, '\n') - Count(buffer, '\n'))
            && forall i :: 0 <= i < |LinesOf(r)| ==> |LinesOf(r)[i]| <= length
  {
    hide Wrapped, Segments, Strip, Count;
    WrappedKeepsContent(ByLength, buffer, length);
    WrappedKeepsContent(BySpaces, buffer, length);
  }
}
