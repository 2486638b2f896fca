/** What the two wrappers of src/util.c do to words, and which of them answers. */
module WrapWords {
  import opened Lines
  import opened Sequences
  import opened Tokens
  import opened Wrap

  // ----- where a line ends, by the characters around its end -----

  /** The space wrapper's line ends on the last space up to `length` or behind a
      hyphen with no later space and no later hyphen that leaves room; only a text
      that offers neither is cut at `length`. The space it ends on is given up, and
      one more behind the end. */
  lemma SpacedLineEnd(t: string, length: nat)
    requires 1 <= length < |t|
    ensures var c := CutOf(BySpaces, t, length); var end, next := c.end, c.end + c.gap;
            if (forall i :: 1 <= i <= length ==> t[i] != ' ') && (forall i :: 1 <= i < length ==> t[i] != '-')
            then end == next == length
            else
              && (forall i :: end < i <= length ==> t[i] != ' ') && (forall i :: end < i < length ==> t[i] != '-')
              && if t[end - 1] == '-' then next == end + if SpaceAt(t, end) then 1 else 0
                 else t[end] == ' ' && next == end + 1 + if SpaceAt(t, end + 1) then 1 else 0
  {
    SplitsWordOnlyWhenForced(t, length);
    BreakFacts(t, length, 0);
  }

  /** The simple wrapper's line has `length` characters; one space behind it is
      given up. */
  lemma FullLineEnd(t: string, length: nat)
    requires 1 <= length < |t|
    ensures var c := CutOf(ByLength, t, length);
            c.end == length && c.gap == if t[length] == ' ' then 1 else 0
  {
  }

  // ----- the space wrapper splits no word -----

  /** Words as they stand in a headline: without hyphens, and none too long. */
  ghost predicate WordsFit(words: seq<string>, length: nat) {
    forall i :: 0 <= i < |words| ==> IsWord(words[i]) && '-' !in words[i] && |words[i]| <= length
  }

  lemma {:induction false} SpacedCharacters(words: seq<string>, length: nat, i: nat)
    requires WordsFit(words, length) && i < |Spaced(words)|
    ensures Spaced(words)[i] != '-' && Spaced(words)[i] != '\n'
    ensures Spaced(words)[0] != ' '
  {
    var w := words[0];
    assert IsWord(w);
    if i < |w| {
      assert Spaced(words)[i] == w[i];
    } else if |words| > 1 {
      var rest := Spaced(words[1..]);
      assert Spaced(words) == w + " " + rest;
      if i > |w| {
        assert Spaced(words)[i] == rest[i - |w| - 1];
        SpacedCharacters(words[1..], length, i - |w| - 1);
      }
    }
  }

  lemma FirstIsWord(words: seq<string>, length: nat)
    requires WordsFit(words, length) && words != []
    ensures Spaced(words) != "" && Spaced(words)[0] != ' '
  {
    assert IsWord(words[0]);
    assert Spaced(words)[0] == words[0][0];
  }

  lemma SpacedTwo(words: seq<string>)
    requires words != []
    ensures if |words| == 1 then Spaced(words) == words[0]
            else Spaced(words) == words[0] + " " + Spaced(words[1..])
  {
  }

  lemma SpacedPrepend(w: string, words: seq<string>)
    requires words != []
    ensures Spaced([w] + words) == w + " " + Spaced(words)
  {
    assert ([w] + words)[1..] == words;
  }

  lemma SliceBehind(w: string, rest: string, c: nat)
    requires c < |rest|
    ensures var t := w + " " + rest; var b := |w| + 1 + c;
            t[b] == rest[c] && t[..b] == w + " " + rest[..c] && t[b + 1..] == rest[c + 1..]
  {
  }

  lemma NoSpaceInFirst(words: seq<string>, length: nat, b: nat)
    requires WordsFit(words, length) && b < |Spaced(words)| && Spaced(words)[b] == ' '
    ensures |words| > 1 && |words[0]| <= b
  {
    var w := words[0];
    assert IsWord(w);
    assert forall i :: 0 <= i < |w| ==> Spaced(words)[i] == w[i] && w[i] in w;
  }

  /** A space in the text stands between two words. */
  lemma {:induction false} SpaceParts(words: seq<string>, length: nat, b: nat) returns (k: nat)
    requires WordsFit(words, length) && b < |Spaced(words)| && Spaced(words)[b] == ' '
    ensures 0 < k < |words|
    ensures Spaced(words)[..b] == Spaced(words[..k]) && Spaced(words)[b + 1..] == Spaced(words[k..])
  {
    var w := words[0];
    NoSpaceInFirst(words, length, b);
    SpacedTwo(words);
    SpacedTwo([w]);
    hide Spaced;
    var rest := Spaced(words[1..]);
    if b == |w| {
      k := 1;
      assert words[..1] == [w];
    } else {
      var c := b - |w| - 1;
      SliceBehind(w, rest, c);
      var j := SpaceParts(words[1..], length, c);
      k := j + 1;
      assert words[..k] == [w] + words[1..][..j] && words[k..] == words[1..][j..];
      SpacedPrepend(w, words[1..][..j]);
    }
  }

  /** There is a space within reach, since the first word is not too long. */
  lemma SpaceInReach(words: seq<string>, length: nat)
    requires 1 <= length < |Spaced(words)| && WordsFit(words, length)
    ensures exists i :: 1 <= i <= length && Spaced(words)[i] == ' '
  {
    var w := words[0];
    assert IsWord(w) && |w| <= length;
    assert Spaced(words)[|w|] == ' ';
  }

  /** The first line ends on a space between two words, and that alone is given up. */
  lemma FirstBreak(words: seq<string>, length: nat) returns (k: nat)
    requires 1 <= length < |Spaced(words)| && WordsFit(words, length)
    ensures 0 < k < |words|
    ensures var t := Spaced(words); var c := CutOf(BySpaces, t, length);
            t[..c.end] == Spaced(words[..k]) && t[c.end + c.gap..] == Spaced(words[k..])
  {
    var t := Spaced(words);
    SpaceInReach(words, length);
    SpacedLineEnd(t, length);
    var c := CutOf(BySpaces, t, length);
    SpacedCharacters(words, length, c.end - 1);
    hide Spaced, CutOf;
    k := SpaceParts(words, length, c.end);
    FirstIsWord(words[k..], length);
    assert t[c.end + 1..][0] == t[c.end + 1];
  }

  /** The first line of such a text holds whole words, and so does the rest. */
  lemma FirstLineOfWords(words: seq<string>, length: nat) returns (k: nat)
    requires 1 <= length < |Spaced(words)| && WordsFit(words, length)
    ensures 0 < k < |words|
    ensures Wrapped(BySpaces, Spaced(words), length) ==
            Spaced(words[..k]) + "\n" + Wrapped(BySpaces, Spaced(words[k..]), length)
  {
    hide Spaced, CutOf, Wrapped, Pieces;
    k := FirstBreak(words, length);
    WrapUnfolds(BySpaces, Spaced(words), length);
  }

  /** Words that fit on a line and hold no hyphen all come through whole and in
      order. */
  lemma {:induction false} SpacesKeepWords(words: seq<string>, length: nat)
    requires 1 <= length && WordsFit(words, length)
    ensures Words(Wrapped(BySpaces, Spaced(words), length)) == words
    decreases |words|
  {
    hide Words, Spaced, Wrapped;
    if |Spaced(words)| <= length {
      OneRow(BySpaces, Spaced(words), length);
      WordsOfSpaced(words, "");
      assert Spaced(words) + "" == Spaced(words);
    } else {
      var k := FirstLineOfWords(words, length);
      var first, rest := Spaced(words[..k]), Wrapped(BySpaces, Spaced(words[k..]), length);
      SpacesKeepWords(words[k..], length);
      WordsOfSpaced(words[..k], "");
      assert first + "" == first;
      WordsAcross(first, '\n', rest);
      assert words == words[..k] + words[k..];
    }
  }

  // ----- which of the two answers -----

  lemma NoNewlineInWords(words: seq<string>, length: nat)
    requires WordsFit(words, length)
    ensures '\n' !in Spaced(words)
  {
    var t := Spaced(words);
    forall i | 0 <= i < |t| ensures t[i] != '\n' {
      SpacedCharacters(words, length, i);
    }
  }

  /** When the text is short enough for the lines and breaking at spaces stays
      within them, no word is split. */
  lemma WrapKeepsWords(words: seq<string>, length: int, maxlines: int)
    requires 1 <= length && WordsFit(words, length)
    requires var text := Spaced(words); |text| <= length * maxlines && Rows(BySpaces, text, length) <= maxlines
    ensures Words(WrapText(Spaced(words), length, maxlines)) == words
  {
    hide Words, Spaced, Wrapped, Rows, LinesOf;
    var text := Spaced(words);
    NoNewlineInWords(words, length);
    LinesPlain(text);
    WrappedLines(BySpaces, text, length);
    SpacesKeepWords(words, length);
  }

  /** The lines before the last are all full. */
  ghost predicate FullLines(lines: seq<string>, length: nat) {
    forall i :: 0 <= i < |lines| - 1 ==> |lines[i]| == length
  }

  lemma {:induction false} ByLengthFull(t: string, length: nat)
    requires 1 <= length && '\n' !in t
    ensures FullLines(LinesOf(Wrapped(ByLength, t, length)), length)
    decreases |t|
  {
    hide Wrapped, LinesOf, Segments;
    if |t| <= length {
      OneRow(ByLength, t, length);
      LinesPlain(t);
    } else {
      WrapUnfolds(ByLength, t, length);
      FullLineEnd(t, length);
      var c := CutOf(ByLength, t, length);
      var left := t[c.end + c.gap..];
      SegmentsPlain(t[..length]);
      LinesConcat(t[..length], Wrapped(ByLength, left, length));
      ByLengthFull(left, length);
    }
  }

  /** When the text is too long for the lines, or breaking at spaces would need more
      of them, it is cut into full lines. */
  lemma OtherwiseFullLines(buffer: string, length: int, maxlines: int)
    requires 1 <= length && '\n' !in buffer
    requires |buffer| > length * maxlines || Rows(BySpaces, buffer, length) > maxlines
    ensures FullLines(LinesOf(WrapText(buffer, length, maxlines)), length)
  {
    hide Wrapped, Rows, LinesOf;
    LinesPlain(buffer);
    WrappedLines(BySpaces, buffer, length);
    ByLengthFull(buffer, length);
  }

  // ----- words on the lines of a text -----

  function LineWords(lines: seq<string>): seq<string> {
    if lines == [] then [] else Words(lines[0]) + LineWords(lines[1..])
  }

  lemma {:induction false} WordsOfJoin(lines: seq<string>)
    ensures Words(Join(lines)) == LineWords(lines)
  {
    hide Words;
    WordsStep("");
    if |lines| == 1 {
      assert LineWords(lines) == Words(lines[0]) + LineWords([]);
    } else if |lines| > 1 {
      WordsOfJoin(lines[1..]);
      WordsAcross(lines[0], '\n', Join(lines[1..]));
    }
  }

  /** The words of a text are those of its lines, one line after the other. */
  lemma WordsOfLines(s: string)
    ensures LineWords(LinesOf(s)) == Words(s)
  {
    LinesRebuild(s);
    hide LinesOf, Words, Join;
    WordsOfJoin(LinesOf(s));
    var joined := Join(LinesOf(s));
    if EndsWithNewline(s) {
      WordsAcross(joined, '\n', "");
      WordsStep("");
      assert joined + ['\n'] + "" == s;
    } else {
      assert joined + "" == joined;
    }
  }
}
