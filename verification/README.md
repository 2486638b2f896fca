# lcd-stuff: a verified model

lcd-stuff shows mail, news, weather and music information on an LCD driven by
the LCDd server. This project models the parts of it that carry the most logic
and proves what they promise, for all inputs and all runs.

- **The cursor list** (`shared/LL.c`). `LinkedList.dfy` is the heap structure: nodes with
  `next` and `prev`, two sentinels, a cursor that may be NULL. Every operation is a
  method on that heap, proved to keep the links well formed and to do exactly what
  the matching function on a value does (`ListModel.dfy`: the cells from sentinel to
  sentinel, each with its node and its data, and the cursor position). That no node
  occurs twice is not assumed but follows from the links. `ListLaws.dfy`,
  `SortLaws.dfy`, `SortStability.dfy` and `PriorityQueue.dfy` prove what runs of those
  functions amount to: a deque, inverse rotations, a correct sort and exactly when it
  is stable, a stable priority queue. `ListRuns.dfy` states the runs of a list object.
- **The text wrapper** (`src/util.c`) in `Lines.dfy` and `Wrap.dfy`: two loops that edit a
  buffer while an offset runs ahead, a dispatcher that falls back from one to the
  other, and two line scanners. `WrapWords.dfy` says what wrapping does to words and
  which algorithm answers. `Headlines.dfy` follows a headline through
  `src/rss.c` and `src/screen.c` to the rows of the display.
- **The display protocol**. `Sockets.dfy` is the framing of `shared/sockets.c` under any
  schedule of partial transfers. `Tokens.dfy` is the in-place tokeniser of
  `shared/str.c`. `Dispatcher.dfy` says how a line is answered, `ServiceThread.dfy` is the
  thread of `src/servicethread.c` with its queue, its two reading loops and its
  callbacks, while other threads take single steps at every receive and during
  callbacks. `ServiceLaws.dfy` proves what every run of it keeps, and `ServiceProgress.dfy`
  what decides its calls and that it goes on. `Mplayer.dfy` carries a menu id of `src/mplayer.c` from the menu to
  the handler.
- **The threads**. `Registry.dfy` is a state machine over every interleaving of the module
  threads for the client table with its counter. `ConfigCount.dfy` runs the scripts of
  the modules and of the service thread, interleaved in every way, against the share
  count that closes the configuration file.

C pointers to caller data are `Ptr` values; `compare` callbacks are pure functions.
Integers are unbounded. Sockets, clocks and the other threads appear as schedules:
sequences of answers or actions over which every statement is universally
quantified; a call that is still waiting when its schedule ends says so.

Where the code and its comments differ the model follows the code:

- `shared/LL.h:172-173` says that `LL_Roll` makes the first node last; `LL_Roll` makes the
  last node first and `LL_UnRoll` the reverse.
- `LL_SwapNodes` tests `secondprev` where `secondnext` is about to be used
  (`shared/LL.c:669-670`).
- The wrappers take `maxlines` and do not look at it; only the dispatcher does.
- `stringbuffer_get_line` answers -1 with the whole buffer (`src/util.c:222-253`).

Properties that one might expect and that do not hold, with the exact condition:

- `LL_Sort` is not stable (`SortStability.SortNotStable`). It keeps equal items in order
  exactly when every round takes, of the remaining items equal to the one it takes,
  the one that came last (`SortStability.SortStableIff`). A condition to check before the
  call is that for every two equal items nothing greater stands before the second and
  nothing lesser behind the first (`SortStability.SettledIsStable`); it suffices and is
  not necessary (`SortStability.StableUnsettled`).
- The space wrapper does not always break at the last possible place: of a row of
  hyphens it stops behind every second one only. It breaks at the last opportunity
  exactly when that is a space or ends an odd number of hyphens, and one place earlier
  otherwise (`Wrap.BreakIsLast`).
- A text longer than `length*maxlines` may still fit, because spaces behind full lines
  are given up (`Wrap.LongerTextFits`). Cut by length, a text fits exactly when its
  characters less those spaces fill no more than the rows left to it, one being taken
  for each line it has beyond its first (`Wrap.ByLengthFitsIff`, and through the
  dispatcher and on the display `Wrap.WrapFitsIff` and `Headlines.HeadlineFitsIff`).
- A line longer than the receive buffer is truncated: a line comes through exactly when
  it and its terminator fit (`Sockets.LineFitsIff`).
- The configuration file is not always closed in the end (`ConfigCount.CanStayOpen`): it
  is exactly when every start-up has gone a way that gives up the share, which a mail
  module or a network part without a group does not, nor a failed start-up except of
  mplayer and the network part (`ConfigCount.FinallyClosedIff`).
- An unregistered client may still be called: it stays current and gets NULL in place of
  its cookie (`Dispatcher.UnregisteredStillCalled`), exactly when its name has been
  unregistered after its latest registration (`Dispatcher.NullCookieIff`).
- The cursor can become NULL: exactly by stepping off a sentinel
  (`ListLaws.NullCursor`).

## Model

| member | source | states |
|---|---|---|
| LinkedLists.LinkedList.constructor | shared/LL.c:14-32 | a new list is well formed and empty, with the cursor on the head sentinel |
| LinkedLists.LinkedList.Differ | shared/LL.h:118-126 | in a well-linked list no node occurs twice, from the links alone |
| LinkedLists.LinkedList.Rewind | shared/LL.c:117-134 | the cursor is on the first item, or on the head sentinel of an empty list; nothing else changes |
| LinkedLists.LinkedList.End | shared/LL.c:138-150 | the cursor is on the last item, or on the tail sentinel of an empty list; nothing else changes |
| LinkedLists.LinkedList.Next | shared/LL.c:154-168 | fails on NULL and on the last item; from the tail sentinel it succeeds and leaves a NULL cursor |
| LinkedLists.LinkedList.Prev | shared/LL.c:172-186 | fails on NULL and on the first item; from the head sentinel it succeeds and leaves a NULL cursor |
| LinkedLists.LinkedList.Get | shared/LL.c:190-199 | the data under the cursor, of a sentinel too; NULL for a NULL cursor |
| LinkedLists.LinkedList.Put | shared/LL.c:202-213 | only the data under the cursor changes, in a sentinel too |
| LinkedLists.LinkedList.Unlink | shared/LL.c:78-98 | the rest of the list is well linked without the node and keeps its order and data |
| LinkedLists.LinkedList.AddNode | shared/LL.c:294-347 | a fresh node stands right behind the cursor (behind the last item if the cursor was on the tail) and has the cursor |
| LinkedLists.LinkedList.InsertNode | shared/LL.c:350-381 | a fresh node stands right before the cursor (before the first item if it was on the head) and has the cursor; NULL data is refused |
| LinkedLists.LinkedList.DeleteNode | shared/LL.c:386-432 | the item under the cursor is gone, its data returned, the cursor on the next cell; sentinels are never deleted |
| LinkedLists.LinkedList.Push | shared/LL.c:456-469 | adds at the end, refuses NULL |
| LinkedLists.LinkedList.Pop | shared/LL.c:472-482 | removes from the end |
| LinkedLists.LinkedList.Top | shared/LL.c:282-291 | the last item's data, without removing it |
| LinkedLists.LinkedList.Shift | shared/LL.c:493-502 | removes from the front |
| LinkedLists.LinkedList.Look | shared/LL.c:241-251 | the first item's data, without removing it |
| LinkedLists.LinkedList.Unshift | shared/LL.c:512-523 | adds at the front, refuses NULL |
| LinkedLists.LinkedList.Roll | shared/LL.c:526-565 | the last node is first, all others keep their order, for empty and one-item lists too |
| LinkedLists.LinkedList.UnRoll | shared/LL.c:568-607 | the first node is last, all others keep their order |
| LinkedLists.LinkedList.Length | shared/LL.c:698-713 | counts the items between the sentinels |
| LinkedLists.LinkedList.GetByIndex | shared/LL.c:751-768 | the data of the item with that index, NULL outside the list |
| LinkedLists.LinkedList.Find | shared/LL.c:724-744 | refines the walk from the cursor, wherever it stands |
| LinkedLists.LinkedList.SeekData | shared/LL.c:444-449 | the search stops on the first item holding the data, or on the last item |
| LinkedLists.LinkedList.Remove | shared/LL.c:436-452 | removes the first item holding the data and returns it |
| LinkedLists.LinkedList.SeekNotGreater | shared/LL.c:625-638 | the search stops on the last item that is not greater than the new one |
| LinkedLists.LinkedList.PriorityEnqueue | shared/LL.c:612-644 | the fresh node stands behind the last item not greater than it, whatever the list held before |
| LinkedLists.SwapLinks | shared/LL.c:646-688 | what every link reads afterwards, in terms of what it read before: the nodes apart or next to each other in either order, with or without neighbours, as far as the code does not follow a NULL link |
| LinkedLists.LinkedList.SwapNodes | shared/LL.c:646-688 | exactly the two nodes change places and the list stays well linked in both directions |
| LinkedLists.LinkedList.SelectBest | shared/LL.c:795-805 | the inner loop finds the item that the selection picks, using the cursor as its scan pointer |
| LinkedLists.LinkedList.SortPass | shared/LL.c:794-814 | one pass leaves what the rest of the sort will produce unchanged |
| LinkedLists.LinkedList.SortInPlace | shared/LL.c:773-821 | the two loops on the links terminate with the list that the selection on values gives, the cursor on the first item |
| LinkedLists.LinkedList.Sort | shared/LL.c:773-821 | and that list has the same nodes, each with its own data, well linked, in order when compare is an order |
| ListModel.FirstHolding | shared/LL.c:444-449 | index of the first item holding the data |
| ListModel.PriorityIndex | shared/LL.c:625-638 | directly behind an item that is not greater than the new one, or at the front |
| ListModel.BehindPriorityIndex | shared/LL.c:625-638 | all items with data from there on are greater than the new one |
| ListLaws.PutWrites | shared/LL.c:190-213 | reading gives back what was written; only the data under the cursor changes |
| ListLaws.AddedWhere | shared/LL.c:294-381 | a node is added right behind the cursor or inserted right before it, with the cases at the sentinels, and has the cursor |
| ListLaws.DeletedWhere | shared/LL.c:386-432 | exactly the item under the cursor is gone, its data returned, and the cursor on the cell behind it |
| ListLaws.EndsWhere | shared/LL.c:454-523 | what push, pop, shift and unshift make of the items, return, and leave the cursor on |
| ListLaws.RotatedWhere | shared/LL.c:525-607 | rolling leaves the cursor on the old first item, unrolling on the old last one |
| ListLaws.RemovedWhere | shared/LL.c:436-452 | the cursor is left behind the removed item, or on the last one when nothing is removed |
| ListLaws.StepWellFormed | shared/LL.c:117-821 | every operation keeps both sentinels at the ends and the cursor on a cell or NULL |
| ListLaws.RunKeepsEnds | shared/LL.c:117-821 | over every run of operations the sentinels stay at the ends and the cursor on a cell or NULL |
| ListLaws.NullCursor | shared/LL.c:154-186 | one operation makes the cursor NULL exactly when it is a step off a sentinel |
| ListLaws.RunIsDeque | shared/LL.c:454-607 | over every run of push, pop, shift, unshift, roll, unroll and cursor moves the list contents and all results are those of a deque |
| ListLaws.RemoveDropsFirst | shared/LL.c:436-452 | exactly the first match is dropped |
| ListLaws.RemoveAbsent | shared/LL.c:436-452 | without a match nothing is dropped |
| ListLaws.FindFirstMatch | shared/LL.c:717-744 | from an item or the head sentinel, whose own data is compared first, the first match at or after the cursor is found and has the cursor; without one the cursor stops on the last item, or on the head of an empty list |
| ListLaws.FindBehindItems | shared/LL.c:717-744 | from the tail sentinel only its own data is compared, and without a match the cursor becomes NULL; from a NULL cursor nothing is found |
| ListLaws.RollUnRoll | shared/LL.c:525-607 | the two rotations undo each other, cell by cell |
| ListLaws.RollTimesRotates | shared/LL.c:525-565 | k rolls bring the last k items to the front in order |
| ListLaws.FullTurn | shared/LL.c:525-565 | n rolls of n items are the identity, for 0 and 1 items too |
| ListLaws.SwapExchanges | shared/LL.c:646-688 | swapping exchanges exactly two positions, the cursor stays with its node, and swapping again restores the list |
| SortLaws.BestIsGreatest | shared/LL.c:796-805 | no item of the scanned range is greater than the one selected |
| SortLaws.RoundKeepsInvariant | shared/LL.c:794-814 | the part behind `last` is sorted and dominates the part before it, after every pass |
| SortLaws.SelectionSorts | shared/LL.c:794-814 | from any state satisfying the invariant the remaining passes end sorted |
| SortLaws.SelectionPermutes | shared/LL.c:794-814 | no cell is lost or doubled, whatever compare answers |
| SortLaws.SortSorts | shared/LL.c:773-821 | sorted, a permutation of nodes with their data, sentinels untouched, cursor on the first cell behind the head |
| SortStability.SortFollowsNumbers | shared/LL.c:773-821 | following items by their input position: the k-th item of the sorted list is the input item with the k-th number |
| SortStability.SortStableIff | shared/LL.c:794-814 | for every list and compare: equal items keep their order exactly when every round takes the latest of the items equal to the one it takes |
| SortStability.SettledIsStable | shared/LL.c:794-814 | they do when for every two equal items nothing greater stands before the second and nothing lesser behind the first |
| SortStability.SortedUnchanged | shared/LL.c:773-821 | a sorted list comes back unchanged |
| SortStability.SortNotStable | shared/LL.c:773-821 | three items on which equal elements change their order |
| SortStability.StableUnsettled | shared/LL.c:773-821 | four items that keep their order though the condition on the input does not hold |
| PriorityQueue.FirstLeastIsFirstLeast | shared/LL.h:180-184 | the reference serves a least element, and among equal ones the first to arrive |
| PriorityQueue.ReferenceServes | shared/LL.h:180-184 | the reference: elements wait in order of arrival, and a dequeue takes out and returns a least one that came before all equal ones |
| PriorityQueue.EnqueuedSorted | shared/LL.c:609-644 | enqueueing keeps a sorted list sorted and adds exactly the new cell |
| PriorityQueue.HeadIsFirstLeast | shared/LL.c:609-644 | the head of the list is what the reference serves next, and the rest is what the others would have built without it |
| PriorityQueue.StepRepresents | shared/LL.c:493-644 | each enqueue and dequeue keeps the list in step with the waiting elements and returns what the reference returns |
| PriorityQueue.StablePriorityQueue | shared/LL.c:609-644 | over every run all dequeued data agree with the reference and the list stays sorted |
| PriorityQueue.StableFromEmpty | shared/LL.c:609-644 | the same from an empty list |
| ListRuns.RunQueue | shared/LL.c:493-644 | a list object under any sequence of enqueues and dequeues returns what the stable reference returns |
| ListRuns.RunDeque | shared/LL.c:454-607 | a list object under any sequence of deque operations and cursor moves returns what a deque returns |
| Lines.LinesRebuild | src/util.c:222-280 | joining the lines with newlines, and the trailing one if there was one, rebuilds the buffer |
| Lines.JoinSegments | src/util.c:222-280 | cutting at newlines inverts joining with newlines |
| Lines.LineStandsBetween | src/util.c:222-280 | what stands between two newlines is the line whose number is that of the newlines before it |
| Lines.GetLines | src/util.c:256-280 | the number of lines; a trailing newline starts no line |
| Lines.GetLine | src/util.c:222-253 | line k exactly when k is less than the number of lines, NULL beyond; the whole buffer for -1 |
| Lines.StrChrFirst | src/util.c:232-267 | the first occurrence at or after an offset |
| Wrap.StrChr2 | src/util.c:120-134 | the first occurrence of either character |
| Wrap.BreakFacts | src/util.c:154-162 | the chosen break is on a space or behind a hyphen; no space up to length and no hyphen up to length-1 follow it |
| Wrap.SplitsWordOnlyWhenForced | src/util.c:164-167 | a word is split exactly when offsets 1..length hold no space and 1..length-1 no hyphen |
| Wrap.BreakFromIsLastStop | src/util.c:154-162 | the search stops on spaces and behind every second hyphen of a row, and settles on the last stop up to length |
| Wrap.BreakIsLast | src/util.c:154-162 | the break is the last opportunity exactly when that is a space or ends an odd number of hyphens; otherwise it is one place earlier |
| Wrap.DoubleHyphenSkipped | src/util.c:157-162 | a text on which the later opportunity is skipped |
| Wrap.CutOf | src/util.c:105-178 | each line ends within length, and only spaces, at most one or two, are given up behind it |
| WrapWords.SpacedLineEnd | src/util.c:154-178 | where the space wrapper ends a line and starts the next, by the characters around: on the last space up to length or behind the last hyphen that leaves room, giving up that space and one more |
| WrapWords.FullLineEnd | src/util.c:105-114 | the simple wrapper's line has exactly length characters, one space behind it given up |
| WrapWords.SpacesKeepWords | src/util.c:137-184 | words without hyphens, none longer than a line, all come through the space wrapper whole and in order |
| WrapWords.ByLengthFull | src/util.c:88-117 | every line but the last of a newline-free text cut by length is full |
| Wrap.WrapConserves | src/util.c:105-178 | the text splits into pieces of at most length characters with short gaps of spaces; the result is the pieces joined by newlines |
| Wrap.WrappedKeepsContent | src/util.c:105-178 | for any text: the same characters apart from spaces and newlines, at most one (two) spaces lost per newline put in, and no line longer than length |
| Wrap.WrappedLines | src/util.c:88-184 | for both algorithms and any text: the wrapped text has a line for each row made of it, and one more for each line the text had beyond its first |
| Wrap.ByLengthLineCount | src/util.c:88-117 | a newline-free text with room in maxlines full lines takes at most maxlines lines |
| Wrap.ByLengthFitsIff | src/util.c:88-117 | any text takes at most maxlines lines exactly when its characters less the spaces behind full lines fill no more than the rows its own newlines leave |
| Wrap.ByLengthOverflows | src/util.c:88-117 | any text of more than length+1 characters a line takes more than maxlines lines |
| Wrap.WrapSimple | src/util.c:88-117 | the in-place loop terminates with the wrapped text |
| Wrap.SeekBreak | src/util.c:155-162 | the pointer loop finds the break that the search on offsets defines |
| Wrap.WrapSpaces | src/util.c:137-184 | the in-place loop terminates with the wrapped text |
| Wrap.WrapBuffer | src/util.c:187-202 | chooses and falls back as the dispatcher does |
| WrapWords.WrapKeepsWords | src/util.c:187-202 | when the text is short enough and breaking at spaces stays within maxlines, the dispatcher splits no word |
| WrapWords.OtherwiseFullLines | src/util.c:187-202 | otherwise every line but the last is full |
| Wrap.WrapFits | src/util.c:187-202 | whichever branch is taken, a newline-free text of at most length*maxlines characters gets at most maxlines lines |
| Wrap.WrapFitsIff | src/util.c:187-202 | any text fits through the dispatcher exactly when that holds, or the space wrapper is asked and makes few enough rows; newline-free texts need only the first |
| Wrap.LongerTextFits | src/util.c:187-202 | a text of more than length*maxlines characters that fits |
| Wrap.WrapOverflows | src/util.c:187-202 | any text of more than (length+1)*maxlines characters gets more |
| Wrap.WrapTextKeepsContent | src/util.c:187-202 | content, spaces and line length survive the dispatcher |
| Headlines.Screen.Create | src/screen.c:38-64 | one widget for each line, and a title only when the display has room |
| Headlines.Screen.SetTitle | src/screen.c:67-77 | a title command, none without a title line or for NULL |
| Headlines.Screen.ShowText | src/screen.c:114-129 | one command for a line that exists, none for others or for NULL |
| Headlines.Screen.Clear | src/screen.c:151-159 | blanks every line |
| Headlines.RowsOnDisplay | src/screen.c:114-129 | every row written lies on the display below the title, one row for each line |
| Headlines.RowsInOrder | src/screen.c:114-129 | the lines lie in order on rows 2 to height with a title and 1 to height without, one on each, and no others are written |
| Headlines.Rss.WriteLines | src/rss.c:83-86 | the loop writes exactly the lines of the text that the screen has |
| Headlines.Rss.UpdateScreenText | src/rss.c:75-87 | afterwards the rows of the display from the top, or below the title, show the lines of the text, blanks behind them, and the title is set |
| Headlines.Rss.UpdateScreenNews | src/rss.c:90-132 | the index is brought into range, the rows show that item's wrapped headline, and its site is the title |
| Headlines.Rss.KeyHandler | src/rss.c:207-216 | one item on or back, round the ends, and every line of the screen shows its part of that item |
| Headlines.Rss.IgnoreHandler | src/rss.c:219-225 | one item on, round the end, and every line of the screen shows its part of that item |
| Headlines.HeadlineShownInFull | src/rss.c:116-120 | on every accepted display a newline-free headline of at most width*(height-1) characters gets a row for every line, no line is too wide, and the rows carry all its content |
| Headlines.HeadlineFitsIff | src/rss.c:116-120 | any headline loses no line exactly under the same condition with the rows of the display |
| Headlines.HeadlineKeepsWords | src/rss.c:116-120 | read off the rows of the display from the top, the words of a headline that fits are the headline's, in order |
| Headlines.HeadlineFillsRows | src/rss.c:116-120 | a headline that does not fit so is cut into full rows |
| Headlines.LongHeadlineCut | src/rss.c:116-120 | any headline of more than width+1 characters a row loses lines |
| Headlines.PagingGoesRound | src/rss.c:95-98 | over every run of keys the index is the start plus the steps modulo the number of items |
| Sockets.SendReportsCompletion | shared/sockets.c:177-207 | the result is the length exactly when everything was taken |
| Sockets.SendGoesOn | shared/sockets.c:185-206 | EAGAIN and partial writes are gone on from, with what was taken sent |
| Sockets.SendCompletes | shared/sockets.c:177-207 | answers that offer to take enough, none failing, complete the message |
| Sockets.SendEndsEarly | shared/sockets.c:190-203 | an error before that gives -1, a lost connection the bytes sent, and no answer leaves the call looping |
| Sockets.SendLinesCompletes | shared/sockets.c:177-207 | with as many accepting answers as bytes all lines are sent |
| Sockets.SentIsPrefix | shared/sockets.c:177-207 | under every schedule the wire holds a beginning of the framed lines, all of it on completion |
| Sockets.RecvFinishesLine | shared/sockets.c:127-174 | in the middle of a line EAGAIN is waited out and exactly the line is delivered, up to LF or NUL; an empty line answers 0 |
| Sockets.RecvWaits | shared/sockets.c:138-147 | nothing is delivered before the end of the line has come |
| Sockets.RecvEndsEarly | shared/sockets.c:138-152 | when the connection ends in the middle of a line the bytes are counted, when it fails the result is -1 |
| Sockets.RecvNotYet | shared/sockets.c:140-147 | with nothing there the call answers 0 at once |
| Sockets.ReceivedSoFar | shared/sockets.c:127-174 | exactly the lines whose end has come in have been delivered, in order |
| Sockets.FramingRoundTrip | shared/sockets.c:127-207 | sender and receiver under all schedules: always a beginning of the lines, and all of them over a connection that stays up and takes enough, once everything has arrived |
| Sockets.LineFitsIff | shared/sockets.c:158-162 | however its bytes come in, a line comes through exactly when it fits with its terminator |
| Sockets.Socket.Send | shared/sockets.c:177-207 | the loop puts on the wire exactly the bytes it accounts for |
| Sockets.Socket.RecvString | shared/sockets.c:127-174 | the loop stores what the byte-wise receiver stores and leaves the rest of the stream alone |
| Tokens.WordsOfSpaced | shared/str.c:11-32 | words joined by spaces, with or without a final newline, are found again |
| Tokens.WordsAreWords | shared/str.c:11-32 | words are not empty and hold no delimiter |
| Tokens.OneWord | shared/str.c:11-32 | a stretch without delimiters is one word |
| Tokens.WordsAcross | shared/str.c:11-32 | a space or a newline parts the words before it from those behind it |
| Tokens.StrTok | shared/str.c:25 | cuts off the next word in place and touches nothing before it or behind it |
| Tokens.GetArgs | shared/str.c:8-35 | argv holds the first words of the line, at most the cap, each a C string inside the cut buffer |
| Tokens.SplitAtFirst | src/servicethread.c:200 | splitting at the first separator inverts joining |
| Tokens.SplitAbsent | src/servicethread.c:200 | without the separator the whole is the first part, and there is no second |
| Mplayer.AtoiDecimal | src/mplayer.c:281 | parsing inverts printing |
| Mplayer.DecimalIs | src/mplayer.c:401-406 | printing gives the digits that stand for the number, without leading zeros |
| Mplayer.AtoiReads | src/mplayer.c:281 | parsing skips white space, heeds a sign, and reads digits as far as they go |
| Mplayer.MenuIdNumber | src/mplayer.c:401-406 | the id of channel j is mplayer_ch_ and the number j+1 |
| Mplayer.RequestedIs | src/mplayer.c:270-286 | an id asks for a channel exactly when its first part is ch in either case and it has a second, which counts from one |
| Mplayer.ChannelOfValue | src/mplayer.c:386-399 | the address is the value without white space in front, and "playlist" in front of it marks a playlist |
| Mplayer.MenuRoundTrip | src/servicethread.c:194-218 | the event for the menu item of channel j reaches the mplayer client's menu callback, whose handler asks for channel j |
| Mplayer.InitChannels | src/mplayer.c:362-407 | slot j holds the j-th key other than name with its value, the count is the number of such keys, and each gets its menu item |
| Mplayer.ChannelPosition | src/mplayer.c:374-384 | a channel's index is the number of channel keys before it |
| Mplayer.ChannelsAreKeys | src/mplayer.c:374-384 | the channels are all keys but those called name, and only they |
| Mplayer.ChannelHasItem | src/mplayer.c:401-406 | every channel with a value has its item, followed by the command that leaves the menu |
| Mplayer.ItemsLeadToChannels | src/mplayer.c:401-406 | every menu item shows a configured key other than name and carries the id of the channel of that key |
| Mplayer.SetUpAndChoose | src/mplayer.c:267-407 | from the configuration to the choice: choosing an item makes the handler ask for the slot filled from the key it shows |
| Dispatcher.CurrentIsLatestListener | src/servicethread.c:111-126 | over every history the current client is the one registered under the name in the latest listen when it came, or none |
| Dispatcher.KeyGoesToLatestListener | src/servicethread.c:85-95 | a key goes to that client, with the cookie of its name's latest registration unless unregistered since, or to nobody |
| Dispatcher.IgnoreGoesToLatestListener | src/servicethread.c:98-108 | so does an ignore event |
| Dispatcher.ListenGoesToNamedClient | src/servicethread.c:111-126 | a listen makes the named client current, if it is registered, and tells it, with its cookie |
| Dispatcher.MenuGoesToNamedClient | src/servicethread.c:194-218 | a menu event goes to the client named before the first underscore of the id, with the rest of the id and a fourth word |
| Dispatcher.ResponseByFirstWord | src/servicethread.c:158-223 | what each line is answered with, by its first word; lines that tell of no event change nothing |
| Dispatcher.ArgsAreWords | src/servicethread.c:161-164 | at most ten words of a line are looked at |
| Dispatcher.TablesFollowEvents | src/servicethread.c:59-76 | over every history both tables agree with the registrations and unregistrations in it |
| Dispatcher.NullCookieIff | src/servicethread.c:90-93 | the current client has been registered, and gets NULL for its cookie exactly when its name was unregistered after its latest registration |
| Dispatcher.UnregisteredStillCalled | src/servicethread.c:90-93 | any client that listens and is then unregistered is still called, with NULL |
| Dispatcher.LinesKeepClients | src/servicethread.c:158-223 | answering lines never changes the registry |
| ServiceLaws.RunAnswers | src/servicethread.c:226-306 | over every run of sends and polls, with other threads acting at every receive, each line read is answered once and in order |
| ServiceLaws.CalmRunFoldsLines | src/servicethread.c:226-306 | with a fixed registry callbacks and current client are the fold of the lines read, whichever loop read them |
| ServiceLaws.SplitDoesNotMatter | src/servicethread.c:226-306 | two runs that have read the same lines, however divided between the two loops, end with the same callbacks and current client |
| ServiceLaws.RoundsAreCalls | src/servicethread.c:417-448 | the main loop is such a run |
| ServiceLaws.LoopFoldsLines | src/servicethread.c:417-448 | so over every schedule with a fixed registry its callbacks and current client are the fold of the lines read |
| ServiceLaws.LoopFollowsListeners | src/servicethread.c:417-448 | with registrations at any moment: each line answered once in order, and the current client is the latest listener |
| ServiceLaws.EveryCommandOnce | src/servicethread.c:417-448 | over every schedule: accepted commands are those sent followed by those queued, each producer's in its order, and 31 idle rounds per noop |
| ServiceLaws.SentTexts | src/servicethread.c:425-434 | the texts handed to the socket are those of the commands, with a noop for each the thread added itself |
| ServiceLaws.Serve | src/servicethread.c:417-449 | all of this for the fields of the thread object after any schedule |
| ServiceProgress.AwaitDecides | src/servicethread.c:241-270 | the first of the next answers that is neither nothing nor an event decides: 0 for success or noop, -1 for any other line, what sending answered for a failed read; and the input behind it is left |
| ServiceProgress.SendDecides | src/servicethread.c:226-270 | so it is with the next ten answers after sending; 0 when none decides; nothing is read when sending fails |
| ServiceProgress.PollDecides | src/servicethread.c:273-306 | polling ends with the first answer that is nothing or decides, and fails for a failed read and a line that is neither event nor success |
| ServiceProgress.RoundOutcome | src/servicethread.c:423-447 | what each round sends and counts, and exactly when the loop dies, by the first words of the lines |
| ServiceProgress.HealthyLoopLives | src/servicethread.c:423-447 | over every schedule the loop does not die while sending succeeds, no read fails and every line is an event or a success |
| ServiceProgress.EveryRoundWorks | src/servicethread.c:423-447 | every round of a loop that has not stopped sends one command or is idle |
| ServiceProgress.EveryAnswerIsRead | src/servicethread.c:423-447 | and reads an answer if there is one, so that all are read after as many rounds |
| ServiceProgress.StepsOfOthers | src/servicethread.c:53-147 | the queue grows by what the other threads push, the counter follows their counting |
| ServiceProgress.ExitByOthers | src/servicethread.c:80-81 | the program exits exactly at a signal or when a thread counts down to zero |
| ServiceProgress.ReceiveGetsThrough | src/servicethread.c:244-246 | what happens before a receive, the line, and what happens during its callback take effect, in this order |
| ServiceThreads.ServiceThread.ProcessResponse | src/servicethread.c:158-223 | one line has exactly the effect of one replayed event, and a callback may push while other threads act |
| ServiceThreads.ServiceThread.SendCommandSucc | src/servicethread.c:226-270 | the command goes to the socket; result, shared state and unread answers of the ten-try loop |
| ServiceThreads.ServiceThread.CheckForInput | src/servicethread.c:273-306 | result, shared state and unread answers of the polling loop |
| ServiceThreads.ServiceThread.PushCommand | src/servicethread.c:129-147 | a command goes to the end of the queue unless the program is exiting |
| ServiceThreads.ServiceThread.RegisterClient | src/servicethread.c:53-66 | both tables get the client and the counter goes up, unless the program is exiting; each of its steps is one that other threads take in between in the runs |
| ServiceThreads.ServiceThread.UnregisterClient | src/servicethread.c:69-82 | both tables lose the name and the counter goes down, ending the program at zero, unless it is exiting; each of its steps likewise |
| ServiceThreads.ServiceThread.PlayRound | src/servicethread.c:417-448 | one round: what is popped is what is sent, 31st idle rounds send a noop, the others poll |
| ServiceThreads.ServiceThread.Run | src/servicethread.c:417-448 | over every schedule the loop does what its rounds do, until exit or a dead server, and the socket gets the texts of its log |
| Registry.RunInvariant | src/servicethread.c:53-82 | table, counter and exit flag agree with where the threads are, under every interleaving |
| Registry.CounterLaw | src/servicethread.c:53-82 | the counter is the table size less threads between insert and increment plus those between remove and decrement |
| Registry.ExitWhenLastLeaves | src/servicethread.c:80-81 | when a decrement makes the program exit every client in the table is still registering and no other removal is under way |
| Registry.DecrementExitsIff | src/servicethread.c:80-81 | a decrement makes the program exit exactly when no other thread is counted |
| Registry.RefusedStaysOut | src/servicethread.c:57-73 | a thread refused because of g_exit never gets to remove a client |
| Registry.ThreadRegisters | src/servicethread.c:53-66 | a thread left alone registers in three steps |
| Registry.ThreadUnregisters | src/servicethread.c:69-82 | and is gone in three more; the program exits exactly when none is counted then |
| Registry.ExitStopsThreads | src/servicethread.c:57-73 | once the program is exiting nobody registers or unregisters any more |
| ConfigCount.ScriptDisciplined | src/mpd.c:511-529 | every participant, however its start-up goes, reads only before its one decrement; exactly the ways that return without one keep the share (also src/rss.c:303-314, src/mail.c:442-450, src/weather.c:137-147, src/mplayer.c:430-438, src/servicethread.c:350-355) |
| ConfigCount.RunInvariant | src/main.c:191-196 | for any disciplined scripts shares, closer and file state agree under every interleaving |
| ConfigCount.FileOpenWhileNeeded | src/main.c:191-196 | for the scripts of any modules: the file is closed at most once, no read comes after that, and whoever is about to read finds it open |
| ConfigCount.LateReadWithoutDiscipline | src/main.c:191-196 | a script that read after its decrement could read a closed file |
| ConfigCount.EveryReadMade | src/main.c:191-196 | the reads made and those to come are those of the scripts, none late |
| ConfigCount.TurnGetsOn | src/main.c:191-196 | a turn makes one step of a script, or closes the file behind the last decrement |
| ConfigCount.ClosedIff | src/main.c:191-196 | at any moment the file is closed exactly when every participant has given up its share and the last has closed it |
| ConfigCount.FinallyClosedIff | src/main.c:191-196 | in the end it is closed exactly when every start-up went a way that gives up the share |
| ConfigCount.CanStayOpen | src/mail.c:442-446 | a mail module without a group keeps it open after everyone is through |

## Left out

- `LL_Destroy`, `LL_node_DestroyData` and `LL_PutNode`: memory release, and setting the cursor to an arbitrary node.
- `LL_GetNext` and `LL_GetPrev`: a cursor move followed by `LL_Get`.
- NULL list, buffer and callback arguments: they are answered before anything is done.
- Allocation failure and C integer overflow: the sizes involved are those of texts, lists and displays.
- Freed nodes are not reused: a deleted node stays an object outside the list.
- A display width of 0 or less: the wrappers are modelled for a length of at least 1, below which their loops need not end.
- The remote interface (`check_for_net_input`): one read and one lookup per round.
- The cookie passed to menu callbacks, which is looked up by the client structure and not by its name; for the other callbacks it is modelled.
- Lines that lack the arguments their first word calls for: the server is taken to send complete lines.
- Real sockets, processes, signals and clocks: schedules take their place.
- Mail, MPD, weather, RSS fetching and the key file: wrappers around libraries whose code is not part of this model.
- `string_replace`, `starts_with`, `format_time`, character-set conversion, reporting and the command line: they would only add easy members.
- The wrappers' pointers into a buffer that grows: they are offsets here, so that a buffer that moves leaves them valid.
- What part of a command reached the server when sending it failed (the command itself is gone, as in the code): partial sends are in `Sockets`.
- Steps of other threads inside the answering of one line, apart from the time the callback takes: the look into the client table there is guarded by a mutex.
- When other threads look at g_exit: their steps in a schedule are those they take once they have found it unset.
