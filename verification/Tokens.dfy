/** The tokeniser of shared/str.c, which cuts its argument in place, and the
    string helpers that take menu ids apart. */
module Tokens {
  import opened Options
  import opened Sequences

  predicate IsDelimiter(c: char) {
    c == ' ' || c == '\n'
  }

  /** Length of the word at the start of s. */
  function WordLength(s: string): (n: nat)
    ensures n <= |s|
    ensures forall i :: 0 <= i < n ==> !IsDelimiter(s[i])
    ensures n < |s| ==> IsDelimiter(s[n])
  {
    if s == "" || IsDelimiter(s[0]) then 0 else 1 + WordLength(s[1..])
  }

  /** The words of a line: the longest stretches without delimiters. */
  function Words(s: string): seq<string>
    decreases |s|
  {
    if s == "" then []
    else if IsDelimiter(s[0]) then Words(s[1..])
    else [s[..WordLength(s)]] + Words(s[WordLength(s)..])
  }

  lemma WordsStep(s: string)
    ensures s == "" ==> Words(s) == []
    ensures s != "" && IsDelimiter(s[0]) ==> Words(s) == Words(s[1..])
    ensures s != "" && !IsDelimiter(s[0]) ==>
              var n := WordLength(s);
              n > 0 && Words(s) == [s[..n]] + Words(s[n..])
  {
  }

  // ----- words and lines are inverse -----

  predicate IsWord(w: string) {
    w != "" && ' ' !in w && '\n' !in w
  }

  lemma WordCharacters(w: string)
    ensures (forall i :: 0 <= i < |w| ==> !IsDelimiter(w[i])) <==> ' ' !in w && '\n' !in w
  {
    if ' ' in w {
      var i :| 0 <= i < |w| && w[i] == ' ';
      assert IsDelimiter(w[i]);
    } else if '\n' in w {
      var i :| 0 <= i < |w| && w[i] == '\n';
      assert IsDelimiter(w[i]);
    }
  }

  function Spaced(words: seq<string>): string {
    if words == [] then ""
    else if |words| == 1 then words[0]
    else words[0] + " " + Spaced(words[1..])
  }

  lemma {:induction false} WordsAreWords(s: string)
    ensures forall i :: 0 <= i < |Words(s)| ==> IsWord(Words(s)[i])
    decreases |s|
  {
    if s != "" {
      if IsDelimiter(s[0]) {
        WordsAreWords(s[1..]);
      } else {
        WordCharacters(s[..WordLength(s)]);
        WordsAreWords(s[WordLength(s)..]);
      }
    }
  }

  lemma FirstWord(w: string, rest: string)
    requires IsWord(w) && (rest == "" || IsDelimiter(rest[0]))
    ensures Words(w + rest) == [w] + Words(rest)
  {
    WordCharacters(w);
    var s := w + rest;
    var n := WordLength(s);
    assert forall i :: 0 <= i < |w| ==> s[i] == w[i];
    assert rest != "" ==> s[|w|] == rest[0];
    assert n == |w| && s[..n] == w && s[n..] == rest;
  }

  /** Words joined by single spaces, with or without a newline behind them, are
      found again. */
  lemma {:induction false} WordsOfSpaced(words: seq<string>, end: string)
    requires forall i :: 0 <= i < |words| ==> IsWord(words[i])
    requires end == "" || end == "\n"
    ensures Words(Spaced(words) + end) == words
  {
    hide Words;
    WordsStep("");
    WordsStep(end);
    assert end != "" ==> end[1..] == "";
    if words == [] {
      assert Spaced(words) + end == end;
    } else if |words| == 1 {
      FirstWord(words[0], end);
    } else {
      var rest := Spaced(words[1..]) + end;
      WordsOfSpaced(words[1..], end);
      assert (" " + rest)[1..] == rest;
      WordsStep(" " + rest);
      FirstWord(words[0], " " + rest);
      assert Spaced(words) + end == words[0] + (" " + rest);
    }
  }

  lemma OneWord(w: string)
    requires IsWord(w)
    ensures Words(w) == [w] && Words("") == []
  {
    assert w + "" == w;
    FirstWord(w, "");
  }

  /** A space or a newline parts the words before it from those behind it; with
      `OneWord` this says what the words of any text are. */
  lemma {:induction false} WordsAcross(a: string, d: char, b: string)
    requires d == ' ' || d == '\n'
    ensures Words(a + [d] + b) == Words(a) + Words(b)
    decreases |a|
  {
    hide Words, WordLength;
    WordsStep(a);
    WordsStep(a + [d] + b);
    WordsStep([d] + b);
    WordsStep("");
    assert ([d] + b)[1..] == b;
    if a == "" {
      assert a + [d] + b == [d] + b;
    } else if IsDelimiter(a[0]) {
      assert (a + [d] + b)[1..] == a[1..] + [d] + b;
      WordsAcross(a[1..], d, b);
    } else {
      var n := WordLength(a);
      WordCharacters(a[..n]);
      var rest := a[n..] + [d] + b;
      assert a + [d] + b == a[..n] + rest && a == a[..n] + a[n..];
      FirstWord(a[..n], rest);
      WordsAcross(a[n..], d, b);
    }
  }

  // ----- cutting in place -----

  /** The C string at offset `at` of a buffer is w. */
  predicate TextAt(buffer: seq<char>, at: nat, w: string) {
    at + |w| < |buffer| && buffer[at..at + |w|] == w && '\0' !in w && buffer[at + |w|] == '\0'
  }

  /** Skips the delimiters in front of the next word. */
  method SkipDelimiters(str: array<char>, p: nat, ghost n: nat) returns (i: nat)
    requires p <= n < str.Length && str[n] == '\0' && '\0' !in str[p..n]
    ensures p <= i <= n && (i < n ==> !IsDelimiter(str[i]) && str[i] != '\0')
    ensures Words(str[i..n]) == Words(str[p..n])
  {
    hide Words;
    i := p;
    while str[i] != '\0' && IsDelimiter(str[i])
      invariant p <= i <= n
      invariant Words(str[i..n]) == Words(str[p..n])
      decreases n - i
    {
      WordsStep(str[i..n]);
      assert str[i..n][1..] == str[i + 1..n];
      i := i + 1;
    }
    assert i < n ==> str[i] in str[p..n];
  }

  /** Goes to the end of the word at `start`. */
  method SkipWord(str: array<char>, start: nat, ghost n: nat) returns (i: nat)
    requires start <= n < str.Length && str[n] == '\0' && '\0' !in str[start..n]
    ensures i == start + WordLength(str[start..n])
  {
    ghost var t := str[start..n];
    i := start;
    while str[i] != '\0' && !IsDelimiter(str[i])
      invariant start <= i <= start + WordLength(t)
      decreases n - i
    {
      assert i < n && str[i] == t[i - start];
      i := i + 1;
    }
    assert i < n ==> str[i] == t[i - start] && t[i - start] in t;
  }

  /** Finds the next word; `start` is n when there is none. */
  method NextWord(str: array<char>, p: nat, ghost n: nat) returns (start: nat, end: nat)
    requires p <= n < str.Length && str[n] == '\0' && '\0' !in str[p..n]
    ensures p <= start <= end <= n
    ensures str[start] == '\0' ==> start == n && Words(str[p..n]) == []
    ensures str[start] != '\0' ==>
              && start < end && '\0' !in str[start..n] && (end < n ==> IsDelimiter(str[end]))
              && Words(str[p..n]) == [str[start..end]] + Words(str[end..n])
  {
    hide Words, WordLength;
    start := SkipDelimiters(str, p, n);
    NoNulFrom(str[..], p, start, n);
    end := start;
    if str[start] != '\0' {
      end := SkipWord(str, start, n);
      FirstOf(str[..], start, end, n);
    }
    WordsStep("");
    assert start == n ==> str[start..n] == "";
  }

  lemma NoNulFrom(buffer: seq<char>, p: nat, start: nat, n: nat)
    requires p <= start <= n <= |buffer| && '\0' !in buffer[p..n]
    ensures '\0' !in buffer[start..n]
  {
    assert buffer[start..n] == buffer[p..n][start - p..];
  }

  /** The words from the start of a word on. */
  lemma FirstOf(buffer: seq<char>, start: nat, end: nat, n: nat)
    requires start < n <= |buffer| && !IsDelimiter(buffer[start]) && end == start + WordLength(buffer[start..n])
    ensures start < end && Words(buffer[start..n]) == [buffer[start..end]] + Words(buffer[end..n])
    ensures end < n ==> IsDelimiter(buffer[end])
  {
    hide Words, WordLength;
    var t := buffer[start..n];
    var k := WordLength(t);
    SlicesOf(buffer, start, start + k, n);
    WordsStep(t);
    assert end == start + k && t != "" && t[0] == buffer[start];
    assert t[..k] == buffer[start..end] && t[k..] == buffer[end..n];
  }

  lemma SlicesOf(buffer: seq<char>, start: nat, end: nat, n: nat)
    requires start <= end <= n <= |buffer|
    ensures buffer[start..n][..end - start] == buffer[start..end]
    ensures buffer[start..n][end - start..] == buffer[end..n]
    ensures end < n ==> buffer[start..n][end - start] == buffer[end]
    ensures start < n ==> buffer[start..n][0] == buffer[start]
  {
  }

  /** Ends the word from `start` to `end` with a NUL and says where to go on. */
  method CutOff(str: array<char>, start: nat, end: nat, ghost n: nat) returns (next: nat)
    requires start < end <= n < str.Length && str[n] == '\0' && '\0' !in str[start..n]
    requires end < n ==> IsDelimiter(str[end])
    modifies str
    ensures end <= next <= n
    ensures forall i :: 0 <= i < str.Length && (i < start || i >= next) ==> str[i] == old(str[i])
    ensures InPlace(str[..], start, old(str[start..end]), next, n)
    ensures Words(str[next..n]) == Words(old(str[end..n]))
  {
    hide Words;
    ghost var w := str[start..end];
    assert '\0' !in w by {
      assert forall k :: 0 <= k < |w| ==> w[k] == str[start..n][k];
    }
    assert end < n ==> str[end] == str[start..n][end - start];
    if str[end] == '\0' {
      next := end;
    } else {
      WordsStep(str[end..n]);
      assert str[end..n][1..] == str[end + 1..n];
      str[end] := '\0';
      next := end + 1;
      assert str[next..n] == old(str[end + 1..n]);
    }
    assert str[..][start..start + |w|] == w;
  }

  /** `strtok` from position p on: finds the next word, ends it with a NUL, and
      says where to go on. `n` is where the string ends. */
  method StrTok(str: array<char>, p: nat, ghost n: nat) returns (item: Option<nat>, next: nat)
    requires p <= n < str.Length && str[n] == '\0' && '\0' !in str[p..n]
    modifies str
    ensures p <= next <= n
    ensures forall i :: 0 <= i < str.Length && (i < p || i >= next) ==> str[i] == old(str[i])
    ensures var words := Words(old(str[p..n]));
            if words == [] then item == None
            else
              && item.Some? && InPlace(str[..], item.value, words[0], next, n)
              && words[0] != "" && words[1..] == Words(str[next..n])
  {
    hide Words, InPlace;
    var start, end := NextWord(str, p, n);
    if str[start] == '\0' {
      return None, start;
    }
    item := Some(start);
    next := CutOff(str, start, end, n);
  }

  /** The loop of `get_args`. */
  method CutWords(argv: array<nat>, str: array<char>, maxArgs: int, ghost n: nat) returns (argc: int)
    requires 1 <= maxArgs <= argv.Length
    requires n < str.Length && str[n] == '\0' && '\0' !in str[..n]
    modifies argv, str
    ensures var words := Words(old(str[..n]));
            && argc == Min(|words|, maxArgs)
            && forall k :: 0 <= k < argc ==> TextAt(str[..], argv[k], words[k])
  {
    hide Words, InPlace, Min;
    ghost var words := Words(str[..n]);
    assert str[0..n] == str[..n];
    var i := 0;
    var item, next := StrTok(str, 0, n);
    while item.Some?
      invariant 0 <= i <= maxArgs && i <= |words| && next <= n < str.Length
      invariant str[n] == '\0' && '\0' !in str[next..n]
      invariant if item.Some?
                then
                  && i < |words| && InPlace(str[..], item.value, words[i], next, n)
                  && words[i + 1..] == Words(str[next..n])
                else i == |words|
      invariant AllInPlace(str[..], argv[..], words, i, next, n)
      decreases |words| - i
    {
      if i < maxArgs {
        ghost var args := argv[..];
        argv[i] := item.value;
        OneMoreInPlace(str[..], args, words, i, item.value, next, n);
        i := i + 1;
      } else {
        AllTexts(str[..], argv[..], words, i, next, n);
        MinIs(|words|, maxArgs);
        return i;
      }
      ghost var before, from := str[..], next;
      item, next := StrTok(str, next, n);
      AllStayInPlace(before, str[..], argv[..], words, i, from, next, n);
      NoNulFrom(before, from, next, n);
      assert str[next..n] == before[next..n];
      NextOf(words, i);
    }
    AllTexts(str[..], argv[..], words, i, next, n);
    MinIs(|words|, maxArgs);
    return i;
  }

  lemma MinIs(a: int, b: int)
    ensures Min(a, b) == if a < b then a else b
  {
  }

  lemma NextOf(words: seq<string>, i: nat)
    requires i <= |words|
    ensures words[i..] == [] <==> i == |words|
    ensures i < |words| ==> words[i..][0] == words[i] && words[i..][1..] == words[i + 1..]
  {
  }

  /** `get_args`: at most `maxArgs` words; argv holds the offsets of the words in
      the string, each now a C string of its own. */
  method GetArgs(argv: array?<nat>, str: array?<char>, maxArgs: int, ghost n: nat) returns (argc: int)
    requires argv != null ==> maxArgs <= argv.Length
    requires str != null ==> n < str.Length && str[n] == '\0' && '\0' !in str[..n]
    modifies argv, str
    ensures argv == null ==> argc == -1
    ensures argv != null && (str == null || maxArgs < 1) ==> argc == 0
    ensures argv != null && str != null && maxArgs >= 1 ==>
              var words := Words(old(str[..n]));
              && argc == Min(|words|, maxArgs)
              && forall k :: 0 <= k < argc ==> TextAt(str[..], argv[k], words[k])
  {
    if argv == null {
      return -1;
    }
    if str == null {
      return 0;
    }
    if maxArgs < 1 {
      return 0;
    }
    argc := CutWords(argv, str, maxArgs, n);
  }

  /** A word that lies before `next`, where the rest of the string begins. */
  predicate InPlace(buffer: seq<char>, at: nat, w: string, next: nat, n: nat) {
    TextAt(buffer, at, w) && (at + |w| < next || at + |w| == n == next)
  }

  lemma StaysInPlace(before: seq<char>, after: seq<char>, at: nat, w: string, from: nat, next: nat, n: nat)
    requires |before| == |after| && from <= next <= n < |after|
    requires forall i :: 0 <= i < |after| && (i < from || i >= next) ==> after[i] == before[i]
    requires InPlace(before, at, w, from, n)
    ensures InPlace(after, at, w, next, n)
  {
    assert after[at..at + |w|] == before[at..at + |w|];
  }

  ghost predicate AllInPlace(buffer: seq<char>, argv: seq<nat>, words: seq<string>, i: nat, next: nat, n: nat) {
    i <= |argv| && i <= |words| && forall k :: 0 <= k < i ==> InPlace(buffer, argv[k], words[k], next, n)
  }

  lemma OneMoreInPlace(buffer: seq<char>, argv: seq<nat>, words: seq<string>, i: nat, at: nat, next: nat, n: nat)
    requires AllInPlace(buffer, argv, words, i, next, n) && i < |argv| && i < |words|
    requires InPlace(buffer, at, words[i], next, n)
    ensures AllInPlace(buffer, argv[i := at], words, i + 1, next, n)
  {
    hide InPlace;
  }

  lemma AllStayInPlace(before: seq<char>, after: seq<char>, argv: seq<nat>, words: seq<string>, i: nat,
                       from: nat, next: nat, n: nat)
    requires |before| == |after| && from <= next <= n < |after|
    requires forall i :: 0 <= i < |after| && (i < from || i >= next) ==> after[i] == before[i]
    requires AllInPlace(before, argv, words, i, from, n)
    ensures AllInPlace(after, argv, words, i, next, n)
  {
    hide InPlace;
    forall k | 0 <= k < i ensures InPlace(after, argv[k], words[k], next, n) {
      StaysInPlace(before, after, argv[k], words[k], from, next, n);
    }
  }

  lemma AllTexts(buffer: seq<char>, argv: seq<nat>, words: seq<string>, i: nat, next: nat, n: nat)
    requires AllInPlace(buffer, argv, words, i, next, n)
    ensures forall k :: 0 <= k < i ==> TextAt(buffer, argv[k], words[k])
  {
    hide TextAt;
  }

  // ----- menu ids -----

  /** `g_strsplit(s, c, 2)`: what stands before the first c, and what stands
      behind it (None, a NULL pointer, if there is no c). */
  function SplitFirst(s: string, c: char): (string, Option<string>) {
    if s == "" then ("", None)
    else if s[0] == c then ("", Some(s[1..]))
    else
      var (head, tail) := SplitFirst(s[1..], c);
      ([s[0]] + head, tail)
  }

  lemma {:induction false} SplitAtFirst(head: string, c: char, tail: string)
    requires c !in head
    ensures SplitFirst(head + [c] + tail, c) == (head, Some(tail))
  {
    var s := head + [c] + tail;
    if head == "" {
      assert s[1..] == tail;
    } else {
      assert s[1..] == head[1..] + [c] + tail;
      assert s[0] == head[0] && head[0] in head && [head[0]] + head[1..] == head;
      SplitAtFirst(head[1..], c, tail);
    }
  }

  lemma {:induction false} SplitAbsent(s: string, c: char)
    requires c !in s
    ensures SplitFirst(s, c) == (s, None)
  {
    if s != "" {
      SplitAbsent(s[1..], c);
      assert [s[0]] + s[1..] == s;
    }
  }
}
