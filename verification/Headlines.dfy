/** src/screen.c and the part of src/rss.c that puts a wrapped headline on it. */
module Headlines {
  import opened Options
  import opened Lines
  import opened Sequences
  import opened Tokens
  import opened Wrap
  import opened WrapWords

  /** The display: its size, and whether screens do without a title line. */
  datatype Lcd = Lcd(width: int, height: int, noTitle: bool)

  const MAX_LINE_LEN := 80
  const MAX_DISPLAY_HEIGHT := 15

  /** A display that the start-up code accepts. */
  predicate Accepted(lcd: Lcd) {
    && lcd.width <= MAX_LINE_LEN - 1
    && 2 <= lcd.height <= MAX_DISPLAY_HEIGHT
    && lcd.noTitle == (lcd.height <= 3)
  }

  /** Commands pushed for the service thread. */
  datatype Command =
    | ScreenAdd
    | TitleAdd
    | LineAdd(line: int)
    | TitleSet(title: string)
    | LineSet(line: int, row: int, text: string)

  /** `screen_calculate_lines`. */
  function CalculateLines(lcd: Lcd): int {
    if lcd.noTitle then lcd.height else lcd.height - 1
  }

  function TitleLine(lcd: Lcd): int {
    if lcd.noTitle then 0 else 1
  }

  /** What a row of the display shows after a run of commands: the text that was
      written there last. */
  function TextOn(commands: seq<Command>, row: int): Option<string> {
    if commands == [] then None
    else
      var n := |commands| - 1;
      if commands[n].LineSet? && commands[n].row == row then Some(commands[n].text)
      else TextOn(commands[..n], row)
  }

  /** The title that was set last. */
  function TitleOn(commands: seq<Command>): Option<string> {
    if commands == [] then None
    else
      var n := |commands| - 1;
      if commands[n].TitleSet? then Some(commands[n].title) else TitleOn(commands[..n])
  }

  lemma {:induction false} ShownAfter(before: seq<Command>, commands: seq<Command>, row: int)
    ensures TextOn(before + commands, row) ==
            if TextOn(commands, row).Some? then TextOn(commands, row) else TextOn(before, row)
    ensures TitleOn(before + commands) == if TitleOn(commands).Some? then TitleOn(commands) else TitleOn(before)
  {
    if commands == [] {
      assert before + commands == before;
    } else {
      var n := |commands| - 1;
      assert (before + commands)[..|before| + n] == before + commands[..n];
      ShownAfter(before, commands[..n], row);
    }
  }

  /** The commands that set the given texts on the first lines, in order; lines
      that the screen does not have are dropped. */
  function LineSets(lcd: Lcd, texts: seq<string>): seq<Command> {
    if texts == [] then []
    else
      var n := |texts| - 1;
      LineSets(lcd, texts[..n]) +
      if n < CalculateLines(lcd) then [LineSet(n, n + 1 + TitleLine(lcd), texts[n])] else []
  }

  /** The lines lie one below the other on the rows from the top of the display, or
      from the row below the title if there is one, down to the last row. */
  lemma {:induction false} RowsInOrder(lcd: Lcd, texts: seq<string>)
    requires 1 <= lcd.height
    ensures var sets := LineSets(lcd, texts); var rows := if lcd.noTitle then lcd.height else lcd.height - 1;
            && |sets| == Min(|texts|, rows)
            && forall k :: 0 <= k < |sets| ==>
                 sets[k] == LineSet(k, if lcd.noTitle then k + 1 else k + 2, texts[k])
  {
    if texts != [] {
      RowsInOrder(lcd, texts[..|texts| - 1]);
    }
  }

  /** The last command for a row shows there. */
  lemma {:induction false} SetShows(sets: seq<Command>, row: int, k: nat)
    requires k < |sets| && sets[k].LineSet? && sets[k].row == row
    requires forall i :: k < i < |sets| && sets[i].LineSet? ==> sets[i].row != row
    ensures TextOn(sets, row) == Some(sets[k].text)
  {
    if k < |sets| - 1 {
      SetShows(sets[..|sets| - 1], row, k);
    }
  }

  lemma {:induction false} NothingShows(sets: seq<Command>, row: int)
    requires forall i :: 0 <= i < |sets| ==> sets[i].LineSet? && sets[i].row != row
    ensures TextOn(sets, row) == None
  {
    if sets != [] {
      NothingShows(sets[..|sets| - 1], row);
    }
  }

  lemma {:induction false} NoTitleSet(sets: seq<Command>)
    requires forall i :: 0 <= i < |sets| ==> sets[i].LineSet?
    ensures TitleOn(sets) == None
  {
    if sets != [] {
      NoTitleSet(sets[..|sets| - 1]);
    }
  }

  /** What the commands for some texts show on a row. */
  lemma LineSetsShown(lcd: Lcd, texts: seq<string>, row: int)
    requires (if lcd.noTitle then 1 else 2) <= row <= lcd.height
    ensures var k := if lcd.noTitle then row - 1 else row - 2;
            TextOn(LineSets(lcd, texts), row) == if k < |texts| then Some(texts[k]) else None
  {
    RowsInOrder(lcd, texts);
    hide LineSets, TextOn;
    var k := if lcd.noTitle then row - 1 else row - 2;
    if k < |texts| {
      SetShows(LineSets(lcd, texts), row, k);
    } else {
      NothingShows(LineSets(lcd, texts), row);
    }
  }

  lemma LineSetsAppend(lcd: Lcd, texts: seq<string>, text: string)
    ensures LineSets(lcd, texts + [text]) == LineSets(lcd, texts) +
            if |texts| < CalculateLines(lcd) then [LineSet(|texts|, |texts| + 1 + TitleLine(lcd), text)] else []
  {
    assert (texts + [text])[..|texts|] == texts;
  }

  /** Every row that is written lies on the display, below the title if there is
      one, and no two lines share a row. */
  lemma RowsOnDisplay(lcd: Lcd, texts: seq<string>)
    requires Accepted(lcd)
    ensures forall i :: 0 <= i < |LineSets(lcd, texts)| ==>
              var c, top := LineSets(lcd, texts)[i], if lcd.noTitle then 1 else 2;
              c.LineSet? && top <= c.row <= lcd.height && c.row == c.line + top
  {
    RowsInOrder(lcd, texts);
    hide LineSets;
  }

  /** A widget for each of so many lines. */
  function LineAdds(lines: int): (r: seq<Command>)
    ensures lines >= 0 ==> |r| == lines
    ensures forall i :: 0 <= i < |r| ==> r[i] == LineAdd(i)
  {
    if lines < 0 then [] else seq(lines, i => LineAdd(i))
  }

  /** The display shows the lines of a text on the rows below the title, or on all
      of them, and blanks behind the last line. */
  ghost predicate ShowsText(lcd: Lcd, commands: seq<Command>, text: string) {
    var top := if lcd.noTitle then 1 else 2;
    forall row :: top <= row <= lcd.height ==> TextOn(commands, row) == Some(Row(text, row - top))
  }

  class Screen {
    const lcd: Lcd
    /** Everything this screen has pushed on the command queue. */
    var commands: seq<Command>

    constructor (lcd: Lcd)
      ensures this.lcd == lcd && commands == []
    {
      this.lcd := lcd;
      commands := [];
    }

    method Create()
      modifies this
      ensures commands == old(commands) + [ScreenAdd] + (if lcd.noTitle then [] else [TitleAdd])
                          + LineAdds(if lcd.noTitle then lcd.height else lcd.height - 1)
    {
      commands := commands + [ScreenAdd];
      if !lcd.noTitle {
        commands := commands + [TitleAdd];
      }
      var height := CalculateLines(lcd);
      var i := 0;
      ghost var start := commands;
      while i < height
        invariant 0 <= i && (height >= 0 ==> i <= height) && (height < 0 ==> i == 0)
        invariant commands == start + LineAdds(i)
      {
        commands := commands + [LineAdd(i)];
        i := i + 1;
      }
    }

    method SetTitle(title: Option<string>)
      modifies this
      ensures commands == old(commands) + if lcd.noTitle || title.None? then [] else [TitleSet(title.value)]
    {
      if lcd.noTitle {
        return;
      }
      if title.None? {
        return;
      }
      commands := commands + [TitleSet(title.value)];
    }

    method ShowText(line: int, text: Option<string>)
      modifies this
      ensures commands == old(commands) +
              if line < (if lcd.noTitle then lcd.height else lcd.height - 1) && text.Some?
              then [LineSet(line, if lcd.noTitle then line + 1 else line + 2, text.value)] else []
    {
      if line >= CalculateLines(lcd) {
        return;
      }
      if text.None? {
        return;
      }
      var titleLine := if lcd.noTitle then 0 else 1;
      commands := commands + [LineSet(line, line + 1 + titleLine, text.value)];
    }

    method Clear()
      modifies this
      ensures commands == old(commands) + LineSets(lcd, Blank(lcd))
    {
      var height := CalculateLines(lcd);
      var line := 0;
      while line < height
        invariant 0 <= line <= |Blank(lcd)|
        invariant commands == old(commands) + LineSets(lcd, Blank(lcd)[..line])
      {
        LineSetsAppend(lcd, Blank(lcd)[..line], "");
        assert Blank(lcd)[..line + 1] == Blank(lcd)[..line] + [""];
        ShowText(line, Some(""));
        line := line + 1;
      }
      assert Blank(lcd)[..line] == Blank(lcd);
    }
  }

  function Blank(lcd: Lcd): seq<string> {
    seq(if CalculateLines(lcd) < 0 then 0 else CalculateLines(lcd), i => "")
  }

  /** What a screen shows of a text: its lines from the top, then blanks. */
  function Row(text: string, line: nat): string {
    if line < |LinesOf(text)| then LinesOf(text)[line] else ""
  }

  // ----- the news -----

  datatype NewsItem = NewsItem(site: string, headline: string)

  /** The range check of `update_screen_news`. */
  function Clamp(screen: int, total: nat): (r: int)
    ensures total > 0 ==> 0 <= r < total
    ensures 0 <= screen < total ==> r == screen
    ensures total == 0 ==> r == if screen < 0 then -1 else 0
  {
    if screen < 0 then total - 1 else if screen >= total then 0 else screen
  }

  class Rss {
    const screen: Screen
    var news: seq<NewsItem>
    var currentScreen: int

    constructor (screen: Screen)
      ensures this.screen == screen && news == [] && currentScreen == 0
    {
      this.screen := screen;
      news, currentScreen := [], 0;
    }

    /** The loop of `update_screen_text`: asks for one line after the other until
        there is none. */
    method WriteLines(text: string)
      modifies screen
      ensures screen.commands == old(screen.commands) + LineSets(screen.lcd, LinesOf(text))
    {
      hide LinesOf;
      ghost var lcd, lines := screen.lcd, LinesOf(text);
      var lineno := 0;
      var more := true;
      while more
        invariant 0 <= lineno <= |lines| + 1 && (more ==> lineno <= |lines|)
        invariant !more ==> lineno == |lines| + 1
        invariant screen.commands == old(screen.commands) + LineSets(lcd, if more then lines[..lineno] else lines)
        decreases |lines| + 1 - lineno, more
      {
        var line := GetLine(text, lineno);
        if line.Some? {
          LineSetsAppend(lcd, lines[..lineno], line.value);
          assert lines[..lineno + 1] == lines[..lineno] + [line.value];
        } else {
          assert lines[..lineno] == lines;
        }
        screen.ShowText(lineno, line);
        lineno := lineno + 1;
        more := line.Some?;
      }
    }

    /** `update_screen_text`. */
    method UpdateScreenText(title: string, text: string)
      modifies screen
      ensures ShowsText(screen.lcd, screen.commands, text)
      ensures 1 <= screen.lcd.height ==>
                TitleOn(screen.commands) == if screen.lcd.noTitle then TitleOn(old(screen.commands)) else Some(title)
      ensures screen.commands == old(screen.commands)
                                 + (if screen.lcd.noTitle then [] else [TitleSet(title)])
                                 + LineSets(screen.lcd, Blank(screen.lcd))
                                 + LineSets(screen.lcd, LinesOf(text))
    {
      hide LinesOf, LineSets, Blank, TextOn, ShowsText, TitleOn;
      SetTitleShown(screen.commands, title);
      screen.SetTitle(Some(title));
      ghost var titled := screen.commands;
      screen.Clear();
      WriteLines(text);
      ClearedThenSet(screen.commands, screen.lcd, titled, text);
    }

    /** The display shows the current headline, and its site for a title. */
    ghost predicate ShowsCurrent()
      requires screen.lcd.width >= 1
      reads this, screen
    {
      && 0 <= currentScreen < |news|
      && var item := news[currentScreen];
         && ShowsText(screen.lcd, screen.commands, WrapText(item.headline, screen.lcd.width, screen.lcd.height - 1))
         && (1 <= screen.lcd.height && !screen.lcd.noTitle ==> TitleOn(screen.commands) == Some(item.site))
    }

    /** `update_screen_news`. */
    method UpdateScreenNews()
      requires screen.lcd.width >= 1
      modifies this`currentScreen, screen
      ensures currentScreen == Clamp(old(currentScreen), |news|)
      ensures if news == [] then screen.commands == old(screen.commands) else ShowsCurrent()
    {
      hide WrapText, LinesOf, TextOn, TitleOn, ShowsText;
      var tot := |news|;
      if currentScreen < 0 {
        currentScreen := tot - 1;
      } else if currentScreen >= tot {
        currentScreen := 0;
      }
      if tot != 0 {
        var cur, i := 0, 0;
        while cur < |news|
          invariant 0 <= i == cur <= currentScreen
        {
          var item := news[cur];
          if i == currentScreen {
            var wrapped := WrapBuffer(item.headline, screen.lcd.width, screen.lcd.height - 1);
            UpdateScreenText(item.site, wrapped);
            return;
          }
          i := i + 1;
          cur := cur + 1;
        }
      }
    }

    /** `rss_key_handler`. */
    method KeyHandler(key: string)
      requires screen.lcd.width >= 1
      modifies this`currentScreen, screen
      ensures currentScreen == Clamp(old(currentScreen) + (if key == "Up" then 1 else -1), |news|)
      ensures if news == [] then screen.commands == old(screen.commands) else ShowsCurrent()
    {
      if key == "Up" {
        currentScreen := currentScreen + 1;
      } else {
        currentScreen := currentScreen - 1;
      }
      UpdateScreenNews();
    }

    /** `rss_ignore_handler`: when the screen is hidden the next item takes its turn. */
    method IgnoreHandler()
      requires screen.lcd.width >= 1
      modifies this`currentScreen, screen
      ensures currentScreen == Clamp(old(currentScreen) + 1, |news|)
      ensures if news == [] then screen.commands == old(screen.commands) else ShowsCurrent()
    {
      currentScreen := currentScreen + 1;
      UpdateScreenNews();
    }
  }

  lemma SetTitleShown(commands: seq<Command>, title: string)
    ensures TitleOn(commands + [TitleSet(title)]) == Some(title) && TitleOn(commands + []) == TitleOn(commands)
  {
    assert commands + [] == commands;
  }

  /** After clearing and then writing a text, the display shows the text. */
  lemma ClearedThenSet(commands: seq<Command>, lcd: Lcd, before: seq<Command>, text: string)
    requires commands == before + LineSets(lcd, Blank(lcd)) + LineSets(lcd, LinesOf(text))
    ensures ShowsText(lcd, commands, text)
    ensures 1 <= lcd.height ==> TitleOn(commands) == TitleOn(before)
  {
    hide LinesOf, LineSets, TextOn, TitleOn;
    forall row | (if lcd.noTitle then 1 else 2) <= row <= lcd.height
      ensures TextOn(commands, row) == Some(Row(text, row - if lcd.noTitle then 1 else 2))
    {
      LineSetsShown(lcd, Blank(lcd), row);
      LineSetsShown(lcd, LinesOf(text), row);
      ShownAfter(before, LineSets(lcd, Blank(lcd)), row);
      ShownAfter(before + LineSets(lcd, Blank(lcd)), LineSets(lcd, LinesOf(text)), row);
    }
    if 1 <= lcd.height {
      NoTitleInSets(lcd, Blank(lcd));
      NoTitleInSets(lcd, LinesOf(text));
      ShownAfter(before, LineSets(lcd, Blank(lcd)), 0);
      ShownAfter(before + LineSets(lcd, Blank(lcd)), LineSets(lcd, LinesOf(text)), 0);
    }
  }

  lemma NoTitleInSets(lcd: Lcd, texts: seq<string>)
    requires 1 <= lcd.height
    ensures TitleOn(LineSets(lcd, texts)) == None
  {
    RowsInOrder(lcd, texts);
    hide LineSets;
    NoTitleSet(LineSets(lcd, texts));
  }

  // ----- no part of a headline is dropped -----

  /** On every accepted display a headline without newlines that has room in
      `width * (height - 1)` characters is shown in full: every line of the wrapped
      text has a row of its own and is no wider than the display, and together
      the rows carry every character of the headline that is not a space. */
  lemma HeadlineShownInFull(lcd: Lcd, headline: string)
    requires Accepted(lcd) && 1 <= lcd.width
    requires '\n' !in headline && |headline| <= lcd.width * (lcd.height - 1)
    ensures var lines := LinesOf(WrapText(headline, lcd.width, lcd.height - 1));
            && |lines| <= CalculateLines(lcd)
            && (forall i :: 0 <= i < |lines| ==> |lines[i]| <= lcd.width)
            && Strip(Join(lines)) == Strip(headline)
  {
    hide WrapText, LinesOf, Join, Strip, Count;
    WrapFits(headline, lcd.width, lcd.height - 1);
    LinesCarryContent(headline, lcd.width, lcd.height - 1);
  }

  lemma LinesCarryContent(headline: string, width: int, maxlines: int)
    requires 1 <= width
    ensures var lines := LinesOf(WrapText(headline, width, maxlines));
            && (forall i :: 0 <= i < |lines| ==> |lines[i]| <= width)
            && Strip(Join(lines)) == Strip(headline)
  {
    var wrapped := WrapText(headline, width, maxlines);
    hide WrapText, LinesOf, Join, Strip, Count;
    WrapTextKeepsContent(headline, width, maxlines);
    LinesRebuild(wrapped);
    StripConcat(Join(LinesOf(wrapped)), if EndsWithNewline(wrapped) then "\n" else "");
    NewlineCounts();
    StripNothing();
  }

  lemma StripNothing()
    ensures Strip("") == ""
  {
  }

  /** Exactly when a headline loses no line: when the space wrapper is asked and
      keeps within the lines it is given, or when the headline's characters, without
      the spaces that cutting by length gives up, fit on the rows left to it. For a
      headline without newlines the second alone decides, with all rows left. */
  lemma HeadlineFitsIff(lcd: Lcd, headline: string)
    requires Accepted(lcd) && 1 <= lcd.width
    ensures var rows := CalculateLines(lcd); var n := |headline| - CutSpaces(headline, lcd.width);
            && (|LinesOf(WrapText(headline, lcd.width, lcd.height - 1))| <= rows <==>
                || (|headline| <= lcd.width * (lcd.height - 1)
                    && Rows(BySpaces, headline, lcd.width) <= RowsLeft(headline, lcd.height - 1))
                || n <= lcd.width * RowsLeft(headline, rows))
            && ('\n' !in headline ==>
                (|LinesOf(WrapText(headline, lcd.width, lcd.height - 1))| <= rows <==> n <= lcd.width * rows))
  {
    hide Wrapped, LinesOf, CutSpaces, Rows;
    var rows := CalculateLines(lcd);
    assert lcd.width * rows >= lcd.width * (lcd.height - 1);
    if '\n' !in headline {
      RowsLeftPlain(headline, rows);
    }
    ByLengthFitsIff(headline, lcd.width, rows);
    WrappedLines(BySpaces, headline, lcd.width);
  }

  /** On every accepted display, words without hyphens that are no longer than a row
      come through whole and in order when the headline is short enough for the rows
      and breaking at spaces stays within them. */
  lemma HeadlineKeepsWords(lcd: Lcd, commands: seq<Command>, words: seq<string>)
    requires Accepted(lcd) && 1 <= lcd.width && WordsFit(words, lcd.width)
    requires |Spaced(words)| <= lcd.width * (lcd.height - 1)
    requires Rows(BySpaces, Spaced(words), lcd.width) <= lcd.height - 1
    requires ShowsText(lcd, commands, WrapText(Spaced(words), lcd.width, lcd.height - 1))
    ensures WordsOnRows(commands, if lcd.noTitle then 1 else 2, lcd.height) == words
  {
    hide Words, Spaced, WrapText, LinesOf, Rows, WordsFit, LineWords, WordsOnRows, ShowsText;
    var wrapped := WrapText(Spaced(words), lcd.width, lcd.height - 1);
    NoNewlineInWords(words, lcd.width);
    WrapFits(Spaced(words), lcd.width, lcd.height - 1);
    WrapKeepsWords(words, lcd.width, lcd.height - 1);
    WordsOfLines(wrapped);
    ShownWords(lcd, commands, wrapped);
    assert LinesOf(wrapped)[0..] == LinesOf(wrapped);
  }

  /** The words on the rows of the display from one row down to the last. */
  function WordsOnRows(commands: seq<Command>, row: int, last: int): seq<string>
    decreases last - row
  {
    if row > last then []
    else
      (match TextOn(commands, row) case Some(text) => Words(text) case None => [])
      + WordsOnRows(commands, row + 1, last)
  }

  lemma ShownWords(lcd: Lcd, commands: seq<Command>, text: string)
    requires ShowsText(lcd, commands, text) && |LinesOf(text)| <= CalculateLines(lcd)
    ensures WordsOnRows(commands, if lcd.noTitle then 1 else 2, lcd.height) == LineWords(LinesOf(text)[0..])
  {
    hide LinesOf, TextOn, LineWords, WordsOnRows;
    ShownWordsFrom(lcd, commands, text, 0);
  }

  lemma {:induction false} ShownWordsFrom(lcd: Lcd, commands: seq<Command>, text: string, k: nat)
    requires ShowsText(lcd, commands, text) && |LinesOf(text)| <= CalculateLines(lcd)
    requires k <= CalculateLines(lcd)
    ensures var lines := LinesOf(text); var top := if lcd.noTitle then 1 else 2;
            WordsOnRows(commands, top + k, lcd.height) == LineWords(lines[Min(k, |lines|)..])
    decreases CalculateLines(lcd) - k
  {
    hide LinesOf, Words, TextOn;
    var lines, top := LinesOf(text), if lcd.noTitle then 1 else 2;
    if k < CalculateLines(lcd) {
      ShownWordsFrom(lcd, commands, text, k + 1);
      assert TextOn(commands, top + k) == Some(Row(text, k));
      WordsStep("");
      if k < |lines| {
        assert lines[k..][0] == lines[k] && lines[k..][1..] == lines[k + 1..];
      }
    }
  }

  /** Otherwise a headline without newlines is cut so that all its rows but the last
      are full. */
  lemma HeadlineFillsRows(lcd: Lcd, headline: string)
    requires 1 <= lcd.width && '\n' !in headline
    requires || |headline| > lcd.width * (lcd.height - 1)
             || Rows(BySpaces, headline, lcd.width) > lcd.height - 1
    ensures FullLines(LinesOf(WrapText(headline, lcd.width, lcd.height - 1)), lcd.width)
  {
    OtherwiseFullLines(headline, lcd.width, lcd.height - 1);
  }

  /** With more than `width + 1` characters for every row, lines are dropped. */
  lemma LongHeadlineCut(lcd: Lcd, headline: string)
    requires Accepted(lcd) && 1 <= lcd.width && |headline| > (lcd.width + 1) * CalculateLines(lcd)
    ensures |LinesOf(WrapText(headline, lcd.width, lcd.height - 1))| > CalculateLines(lcd)
  {
    hide Wrapped, LinesOf;
    var rows := CalculateLines(lcd);
    assert (lcd.width + 1) * rows >= lcd.width * rows >= lcd.width * (lcd.height - 1);
    ByLengthOverflows(headline, lcd.width, rows);
  }

  // ----- paging -----

  function PageRun(screen: int, total: nat, steps: seq<int>): int
    decreases |steps|
  {
    if steps == [] then screen
    else PageRun(Clamp(screen + steps[0], total), total, steps[1..])
  }

  function Sum(steps: seq<int>): int {
    if steps == [] then 0 else steps[0] + Sum(steps[1..])
  }

  /** Over every run of key and ignore events the shown item goes round the list:
      its index is the number of steps forward less the steps back, modulo the
      number of items. */
  lemma {:induction false} PagingGoesRound(screen: int, total: nat, steps: seq<int>)
    requires 0 <= screen < total
    requires forall i :: 0 <= i < |steps| ==> steps[i] == 1 || steps[i] == -1
    ensures PageRun(screen, total, steps) == (screen + Sum(steps)) % total
  {
    var turns := PagingTurns(screen, total, steps);
    hide PageRun, Sum, Clamp;
    Distribute(turns, -turns, total);
    ModUnique(screen + Sum(steps), total, -turns, PageRun(screen, total, steps));
  }

  /** `turns` counts how often the run wraps from the last item to the first,
      negatively, less how often it wraps back. */
  lemma {:induction false} PagingTurns(screen: int, total: nat, steps: seq<int>) returns (turns: int)
    requires 0 <= screen < total
    requires forall i :: 0 <= i < |steps| ==> steps[i] == 1 || steps[i] == -1
    ensures 0 <= PageRun(screen, total, steps) < total
    ensures PageRun(screen, total, steps) == screen + Sum(steps) + turns * total
    decreases |steps|
  {
    if steps == [] {
      turns := 0;
    } else {
      var next := Clamp(screen + steps[0], total);
      var wraps := if screen + steps[0] < 0 then 1 else if screen + steps[0] >= total then -1 else 0;
      var rest := PagingTurns(next, total, steps[1..]);
      turns := rest + wraps;
      Distribute(rest, wraps, total);
    }
  }

  lemma Distribute(a: int, b: int, m: int)
    ensures (a + b) * m == a * m + b * m
    ensures b == 0 ==> b * m == 0
    ensures b == 1 ==> b * m == m
    ensures b == -1 ==> b * m == -m
  {
  }

  lemma ModUnique(x: int, m: nat, q: int, r: nat)
    requires r < m && x == q * m + r
    ensures x % m == r
  {
    var d := x / m - q;
    assert x == (x / m) * m + x % m;
    assert d * m == r - x % m;
    AtLeastOnce(d, m);
  }

  lemma AtLeastOnce(d: int, m: int)
    requires m > 0
    ensures d >= 1 ==> d * m >= m
    ensures d <= -1 ==> d * m <= -m
  {
  }
}
