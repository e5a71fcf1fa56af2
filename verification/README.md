# mini-strace: a Dafny model of the tracer

mini-strace is a small `strace`: one loop over `waitpid`, a table of 64 tracees, one toggle per
tracee between syscall entry and syscall exit, and a set of decoders that turn raw registers and
child memory into text inside fixed-size buffers. This project models the parts in which something
can go wrong across several functions or over a whole run, and proves what they promise.

Everything that comes from outside is a parameter: what `waitpid`, `PTRACE_GETEVENTMSG`, the
registers and the clock report is an event (`Wait`), and the memory of the child is a partial map
from addresses to bytes (`Memory`). The theorems are about every event sequence, every memory, every
buffer size and every flag table; where one needs a hypothesis, its row says so.

**The tracer.** `Tracer.Tracer` is the program's own state, changed in place: the 64-slot array, the
256-row summary array, `active_count`, `call_count`. Every method of it is proved against a state
machine on values (`TraceModel.Next`, `Run`), in which a bounded map from pid to the phase of the
call in flight replaces the slots. The theorems about whole runs are about that machine:
`ExactlyOnce`, `FilterProjection`, `SummaryAgrees`, `Stutter`, `LateForks`, `Registration`,
`Interleaving`, `PrintedSignals`, `CallCount`.
Which names the filter admits and what the argument tables return are arbitrary there, so the
results hold for every token set and every table; `FilteredTrace` puts in the program's own filter.

**The text.** `BoundedText` has the `snprintf` chains and the reason why a chain that has run past
its buffer is still one bounded print. `FlagWalk`, `Iovec` and `Getdents` are the loops that use it,
`Escape`, `ChildStrings` and `ChildArgv` the readers of strings, buffers and argument lists. Each
method leaves in its buffer the bounded print of a text given by a function, and the lemmas say what
that text means: flags can be parsed back, escapes undone, records recovered, byte shares conserved.

**The routing.** `RoutingTables` has the 68 decoding tables of the names that have a decoder, and
beside them the same facts listed by syscall; `Routing` has the two dispatch chains.

Where the code and its comments differ, the model follows the code:

- A fresh slot is cleared to zero, and zero means argument 0 in the index fields, not "none". Such a
  slot looks as if a line were owed (`FreshSlotLooksPending`). That no line is printed for it rests
  on the entry stop, which assigns all fourteen fields on each of its three paths.
- A string of exactly `max_str_len` bytes is marked as cut off when `max_str_len` is a multiple of
  8, although nothing was cut (`StringSelection`).
- With `-s` above 254 the escaped text of a string may no longer fit, and then bytes or the "..."
  are dropped without a sign (`LargestSafeSize`).
- The "..." of a directory listing is missing when more than 4096 bytes came back and a record ends
  exactly there; `EllipsisExactIff` gives the exact condition and `EllipsisMissing` an instance.
- Open flags with both access-mode bits set are shown as O_RDONLY, and clone flags that no entry
  names are shown as 0 when there is no exit signal: `OpenRoundTripIff` and `CloneRoundTripIff` give
  the exact conditions, `BothAccessBits` and `UnnamedCloneFlag` an instance of each.
- A fork event of a child that has already stopped is that child's only announcement, so it is not
  without effect: it raises `active_count`, and without it the loop may be left while the parent still
  runs (`LateForkIsNoStutter`). `LateForksHarmlessIff` says exactly when it makes no difference.
- An item of an argv list that does not fit is left out while later ones are still shown, so the
  middle of the list can be missing without a sign (`MiddleVanishes`).
- An iovec array of more than eight descriptors of which none can be read is shown as "[, ...]"
  (`UnreadableArray`).
- When one slot is left, the announcement of a child and the child's own fork event compete for it,
  and their order matters (`ForksCommuteIff`, `LastSlotDecides`).
- Past 256 names the order of the calls decides which names have a row (`OrderDecidesTheTable`).
- Any mention of twelve pending fields in the comments means fourteen.

## Model

| member | source | states |
|---|---|---|
| `Tracees.FreshSlotLooksPending` | src/mini_strace.c:145-151 | a zeroed slot satisfies the condition that prints a deferred line, and is outside a call |
| `Tracees.SlotAdded` | src/mini_strace.c:145-151 | filling a free slot with zeroes and a new pid adds that pid, idle, to the map the table stands for |
| `Tracees.SlotUpdated` | src/mini_strace.c:127-135 | changing one active slot coherently changes one entry of the map |
| `Tracees.SlotRemoved` | src/mini_strace.c:156-160 | clearing `active` removes exactly that pid |
| `Tracees.FullTable` | src/mini_strace.c:145-153 | the map never exceeds the table, and the table is full exactly when the map has reached its bound |
| `Tracees.EnteredView` | src/mini_strace.c:383-558 | from any slot contents, stale or fresh, the entry stop leaves a coherent slot in the phase the specification gives |
| `Tracees.LeftView` | src/mini_strace.c:946-991 | after the exit stop a slot is idle, whatever it held |
| `Tracer.Tracer.constructor` | src/mini_strace.c:271-272 | the initial state: one idle tracee, one announced tracee, nothing counted or printed |
| `Tracer.Tracer.FindTracee` | src/mini_strace.c:129-135 | finds the active slot of a pid, and fails exactly when the pid is not tracked |
| `Tracer.Tracer.AddTracee` | src/mini_strace.c:141-154 | registers a pid as the bounded map does: known pids stay as they are, a full table drops the new one |
| `Tracer.Tracer.RemoveTracee` | src/mini_strace.c:156-160 | removes one pid from the map and nothing else |
| `Tracer.Tracer.RouteEntry` | src/mini_strace.c:485-558 | the fourteen pending fields on each of the three paths of the entry stop, and the head printed on the immediate one |
| `Tracer.Tracer.EntryStop` | src/mini_strace.c:383-734 | the whole entry stop: new phase, printed head, call count |
| `Tracer.Tracer.CountCall` | src/mini_strace.c:180-194 | one call folded into the summary table: its row is bumped, or added, or dropped when the table is full |
| `Tracer.Tracer.FinishCall` | src/mini_strace.c:962-989 | the end of an allowed call: a tail with its time, or a row of the summary |
| `Tracer.Tracer.PrintOwed` | src/mini_strace.c:744-960 | the deferred head is printed with the stored name and arguments, and the fields are reset |
| `Tracer.Tracer.ExitStop` | src/mini_strace.c:733-992 | the whole exit stop: idle again, owed head and tail printed, summary row counted |
| `Tracer.Tracer.Toggle` | src/mini_strace.c:383-992 | the toggle: a tracee outside a call enters one, any other leaves its call |
| `Tracer.Tracer.OnGone` | src/mini_strace.c:287-307 | an exit or death removes the tracee, lowers the count and leaves the loop at zero |
| `Tracer.Tracer.OnFork` | src/mini_strace.c:315-332 | a fork event registers the child, counts it if it found room, and resumes the parent |
| `Tracer.Tracer.OnSignal` | src/mini_strace.c:342-365 | a signal stop prints and delivers the signal unless it is SIGTRAP, and registers the pid |
| `Tracer.Tracer.OnCall` | src/mini_strace.c:367-377 | a syscall stop: resumed only when the table is full or the registers cannot be read, otherwise entry or exit |
| `Tracer.Tracer.Step` | src/mini_strace.c:279-995 | one turn of the loop on the arrays is one step of the state machine |
| `Tracer.Tracer.Trace` | src/mini_strace.c:279-995 | the loop on the arrays refines a run of the state machine |
| `Tracer.RunTracer` | src/mini_strace.c:258-999 | the log is that of the state machine; with -c the printed rows are the slowest-first permutation of the per-call trace's completed calls grouped by name, the totals are the sums of the rows' calls, errors and times and, with at most 256 names, the number of those calls, of the failed ones, and the time they took |
| `TraceLog.NextLog` | src/mini_strace.c:279-995 | one turn only appends to the log, and appends what the stop calls for |
| `TraceLog.OpenHeadsKept` | src/mini_strace.c:383-991 | the last head printed for a pid with a call in flight is the head of that call |
| `ExactlyOnce.RunFollowsScript` | src/mini_strace.c:279-995 | without -c, from every state, what a run prints for a pid is what the pairing of that pid's own stops gives |
| `ExactlyOnce.ExactlyOncePrinting` | src/mini_strace.c:481-558 | without -c, in every run, each allowed completed call of a pid yields one head with the entry's name and arguments and then one tail with the exit's return value, on either path |
| `ExactlyOnce.NoTailWithoutHead` | src/mini_strace.c:733-750 | without -c, in every run, each tail of a pid directly follows a head of the same pid |
| `FilterTokens.Filter.constructor` | src/trace_filter.c:46-48 | no tokens before the option is parsed |
| `FilterTokens.Filter.ParseTraceFilter` | src/trace_filter.c:50-57 | stored are the first 16 of the earlier tokens and the new ones: the comma-separated pieces, empty ones dropped, each cut to 63 characters; at most 16 pieces of at most 63 characters, parsed into an empty filter, are stored as they are |
| `FilterTokens.TokensAreThePieces` | src/trace_filter.c:51-55 | the tokens are the non-empty pieces in order, each unchanged up to 63 characters, and of a longer one the first 63 |
| `Splitting.PiecesRejoin` | src/trace_filter.c:51-55 | splitting at a separator loses nothing: joining the pieces gives the text, and no piece holds the separator |
| `Splitting.PiecesUnique` | src/trace_filter.c:51-55 | splitting undoes joining, so the pieces are the only ones |
| `TraceFilter.NameInListIsMembership` | src/trace_filter.c:35-41 | the scan of a category list decides membership |
| `TraceFilter.AllowedIff` | src/trace_filter.c:59-75 | a name is allowed iff no token is stored or some stored token is its category or its exact name |
| `TraceFilter.Categories` | src/trace_filter.c:7-33 | the three category tokens admit names of their lists; an exact name admits itself and neither a prefix nor an extension of it |
| `FilterProjection.FilteringIsProjection` | src/mini_strace.c:481-502 | for every run and filter, the filtered log is the unfiltered one restricted to calls with allowed names; call count, tracees, resumes and the end of the loop are unchanged |
| `FilteredTrace.TokenSetIsProjection` | src/trace_filter.c:50-75 | the same for the tokens that the sets of all -e options store, with the condition on names spelled out |
| `FilteredTrace.ParseAll` | src/trace_filter.c:43-57 | parsing one set after another stores the first 16 of all their tokens together |
| `FilteredTrace.StoredIsFirstOfAll` | src/trace_filter.c:43-57 | keeping 16 tokens at each parse keeps the first 16 of all |
| `FilteredTrace.FilteredSummary` | src/mini_strace.c:962-983 | with -c and -e together the rows are the allowed calls of the unfiltered per-call trace, grouped by name |
| `SummaryRows.TallyIsGroupBy` | src/mini_strace.c:180-194 | folding calls one by one gives, for the first 256 distinct names in order of appearance, the number, errors and time of that name's calls |
| `SummaryRows.TableSize` | src/mini_strace.c:185-193 | one row for each name, up to 256 |
| `SummaryOrder.TalliesAgree` | src/mini_strace.c:180-194 | the same calls in another order give the same rows iff the first 256 distinct names are the same set, and so always when there are at most 256 |
| `SummaryOrder.RowsAgree` | src/mini_strace.c:180-194 | two rows of the same name are equal, however many names there are |
| `SummaryOrder.OrderDecides` | src/mini_strace.c:185-193 | a call of a new name after 256 others has no row, and has one when it is made first |
| `SummaryOrder.OneNameTooMany` | src/mini_strace.c:185-193 | 257 calls of 257 names in two orders with different tables |
| `SummaryPrint.SortRows` | src/mini_strace.c:199-210 | the selection sort leaves a permutation in non-increasing time order, and the rest of the array alone |
| `SummaryPrint.AddUp` | src/mini_strace.c:212-218 | the totals are those of the rows |
| `SummaryPrint.SumFieldByField` | src/mini_strace.c:212-218 | the totals are the sum of the calls, the sum of the errors and the sum of the times of the rows |
| `SummaryPrint.PrintSummary` | src/mini_strace.c:196-218 | what is printed is a slowest-first permutation of the rows, with the totals of the rows as they were |
| `SummaryPrint.SumOfPermutation` | src/mini_strace.c:212-218 | the totals do not depend on the order of the rows |
| `SummaryPrint.GrandTotalsAreComplete` | src/mini_strace.c:212-218 | with at most 256 distinct names the totals are the number of completed calls, the number of those that failed, and the time they took |
| `SummaryAgrees.SummaryAgreesWithTrace` | src/mini_strace.c:962-983 | for every run, the rows under -c are the completed allowed calls of the per-call trace of the same events, grouped by name |
| `Stutter.EveryStopAnsweredOnce` | src/mini_strace.c:315-377 | in every run each stop is answered by exactly one resume of that pid, in order, and nothing else is resumed |
| `Stutter.SignalsAreForwarded` | src/mini_strace.c:348-363 | in every run the signals delivered to a pid are its signal stops among the events taken, in order, SIGTRAP removed |
| `PrintedSignals.SignalsArePrinted` | src/mini_strace.c:342-363 | in every run the signals printed for a pid are the same ones: every signal it stopped for but SIGTRAP, in order, each once |
| `PrintedSignals.TurnByNumbers` | src/mini_strace.c:279-332 | by the numbers of the report: which events raise and lower `active_count`, which end the loop, and which do nothing |
| `CallCount.CallCountIsHeads` | src/mini_strace.c:733 | in every run, whatever the filter, the tables, -T and -c, `call_count` is the number of heads that the same events print when every call is shown at its entry |
| `CallCount.CountedByNumbers` | src/mini_strace.c:342-383 | only a stop with signal 133, of a pid outside a call that has or finds a slot and whose registers can be read, is counted |
| `Stutter.StuttersDoNotDisturb` | src/mini_strace.c:315-365 | in every run, removing the signal stops of tracked pids and the fork events that name no child leaves phases, call count, rows, every pid's heads and tails, `active_count` and the end of the loop unchanged |
| `LateForks.LateForksHarmlessIff` | src/mini_strace.c:287-332 | removing also the fork events of tracked pids leaves phases, calls, rows, heads and tails unchanged after every event iff no event matters once `active_count` has come down to the number of announcements removed |
| `LateForks.MattersIff` | src/mini_strace.c:287-377 | which events change the calls seen: the end of a tracked pid, a new pid that finds room, a syscall stop that can be handled |
| `LateForks.HarmlessWhenOrderly` | src/mini_strace.c:287-332 | in an orderly run that takes all its events, `active_count` in that condition is the number of announced tracees |
| `LateForks.LateForkIsNoStutter` | src/mini_strace.c:304-326 | an orderly run of four events in which the call of the parent is lost without the fork event |
| `Registration.ForkCommutesWithChildStop` | src/mini_strace.c:137-154 | a fork event and a stop of the new child other than a fork event of its own give the same state in either order, whatever the state |
| `Registration.ForksCommuteIff` | src/mini_strace.c:141-154 | two fork events give the same state in either order iff they do not announce two new pids while one slot is left |
| `ChildStops.ForkCommutesWithChildStops` | src/mini_strace.c:137-154 | a fork event and any stops of the new child, fork events of its own among them, give the same state in either order when the child's first stop is not one of those |
| `ChildStops.ForkCommutesWithChildStopsIff` | src/mini_strace.c:137-154 | without that condition: iff the child is tracked, the table is full or the loop is left before, or the fork events with which the child begins leave a slot for it |
| `ChildStops.LastSlotDecides` | src/mini_strace.c:145-153 | a run to 63 tracees after which the announcement of a child and the child's own fork event do not commute |
| `Registration.CountedStepIff` | src/mini_strace.c:287-332 | `active_count` keeps counting the announced tracees over a step iff the step is orderly: a child announced anew with room for it, an exit only of an announced pid |
| `Registration.ActiveCountIsExact` | src/mini_strace.c:271-332 | in every orderly run that takes all its events, the slots in use are `active_count` plus the pids seen but not announced, and the loop is left exactly when no announced tracee remains |
| `Interleaving.Exchange` | src/mini_strace.c:279-995 | two adjacent events of different pids may be exchanged, unless one ends a pid that the other announces |
| `Interleaving.RearrangedRuns` | src/mini_strace.c:279-995 | sequences with the same subsequence for each pid and the same order of each pid's announcements and ends run alike on an unbounded table, wherever interrupted waits fall |
| `Interleaving.FlattensRun` | src/mini_strace.c:129-160 | a run that takes all its events, never finds the table full and does not run out of children is a run on the unbounded table |
| `Interleaving.InterleavingIndependence` | src/mini_strace.c:279-995 | such sequences, both taking all their events, never finding the table full and not running out of children, give the same phases, call count, `active_count`, end of the loop and log of each pid |
| `TakingAll.TakesAllIff` | src/mini_strace.c:287-332 | a run that never finds the table full takes all its events iff, by the announcements and ends among them, some announced tracee is left before each |
| `TakingAll.StrangerIsLost` | src/mini_strace.c:287-307 | the order can decide that, and the output: the signal of an unannounced pid is printed before the only tracee ends, and not after |
| `TakingAll.CircleIsLost` | src/mini_strace.c:287-332 | nor does it help that every pid is announced: two pids that announce each other are seen before the only other tracee ends, and not after |
| `Interleaving.InterleavedTotals` | src/mini_strace.c:180-194 | and under -c rows of the same name are equal, and the rows are the same iff the first 256 names completed are the same set, so always with at most 256 |
| `SummaryLimit.OrderDecidesTheTable` | src/mini_strace.c:185-193 | a family of pairs of such runs, of two pids and 257 names, whose tables differ |
| `ChildMemory.ReadChildRaw` | src/child_mem.c:186-199 | the bytes read are the true prefix of memory of that length, and nothing after them in the buffer is touched |
| `ChildMemory.WordRunMapped` | src/child_mem.c:186-199 | every byte returned was mapped |
| `ChildMemory.WordRunStops` | src/child_mem.c:188-197 | reading stops at the first failing peek, and is complete when every peek succeeds |
| `ChildMemory.WordsAgainstBytes` | src/child_mem.c:186-199 | against a reader that goes byte by byte: never more, at most 7 bytes less, and the same iff the mapped run reaches the last word or ends on a word boundary |
| `Escape.WriteEscaped` | src/child_mem.c:59-73 | the loop writes an opening quote and the whole escapes of the longest prefix its guard lets through; nothing in a buffer of size 0 |
| `Escape.WriteQuoted` | src/child_mem.c:59-80 | for every size of at least 1 the buffer holds the quoted text and a NUL inside it; with size 0, and only then, the last write has no place in the buffer |
| `Escape.QuotedRoundTrip` | src/child_mem.c:59-80 | for every size of at least 3, an unescaper gets back exactly the bytes shown and whether "..." was shown; no escape is cut in half |
| `Escape.NothingDroppedText` | src/child_mem.c:59-80 | where nothing is dropped the text is the escape of all bytes, with "..." iff it was due |
| `EscapeText.EscapeOfByte` | src/child_mem.c:62-72 | the escapes of a quote, a backslash and a newline; a printable byte is itself; any other byte is shown by two hex digits that give it back |
| `EscapeText.PlainQuoted` | src/child_mem.c:59-80 | a string of printable bytes without quotes and backslashes is shown between quotes as it is, wherever it leaves six characters of the buffer |
| `EscapeText.FitIff` | src/child_mem.c:61 | k bytes are shown iff six characters are left before each of them and, if there are more bytes, fewer after them |
| `Escape.TightBound` | src/child_mem.c:62-80 | n bytes of any value and a due "..." fit iff 4n + 5 is below the size |
| `ChildStrings.ReadWords` | src/child_mem.c:23-44 | stopping at a word with a NUL, a failing peek or the cap does not change which bytes are selected |
| `ChildStrings.ReadChildString` | src/child_mem.c:11-81 | the buffer holds the quoted selection, or the address when nothing could be read, or NULL; every write has its place unless the size is 0 and a string was read |
| `ChildStrings.StringSelection` | src/child_mem.c:23-57 | when its peeks succeed, selected are the first min(strlen, max_str_len) bytes, marked as cut iff strlen is greater, or equal and a multiple of 8 |
| `ChildStrings.ReadChildBuffer` | src/child_mem.c:134-184 | the buffer holds the quoted first min(len, max_str_len) bytes that could be read, or the address, or NULL; every write has its place unless the size is 0 and bytes were read |
| `ChildStrings.LargestSafeSize` | src/child_mem.c:53-80 | with a 1024-byte output no selected byte and no due "..." is ever dropped, for strings and for buffers, iff max_str_len is at most 254 |
| `ChildTexts.StringShown` | src/child_mem.c:11-81 | read back from its text, a readable string gives the longest prefix that fits of its first min(strlen, max_str_len) bytes, for every size of at least 3 |
| `ChildTexts.StringReadBack` | src/child_mem.c:11-81 | with -s up to 254 it gives all of those bytes, with "..." iff strlen is greater than max_str_len, or equal and a multiple of 8 |
| `ChildTexts.BufferRead` | src/child_mem.c:141-155 | of a buffer never more than its length or max_str_len is read, and all of that when the words it lies in can be read |
| `ChildTexts.BufferReadBack` | src/child_mem.c:134-184 | with -s up to 254 the text of a buffer gives back the bytes read, with "..." iff the buffer is longer |
| `ChildTexts.NotShown` | src/child_mem.c:12-48 | a null pointer is shown as NULL, and one whose first word cannot be read as its address |
| `ChildArgv.ReadChildArgv` | src/child_mem.c:88-132 | the buffer holds the pieces of the list that its guards let through, or NULL; every write has its place unless the size is 0 |
| `ChildArgv.PlaceItems` | src/child_mem.c:96-122 | the loop: each string up to a NULL, an unreadable pointer or the 32nd, stored whole or not at all |
| `ChildArgv.ItemsOfArray` | src/child_mem.c:98-107 | for pointers in memory followed by a NULL, the items are the texts of the strings that the first 32 point to |
| `ChildArgv.ItemsWalked` | src/child_mem.c:98-104 | there are as many items as there are pointers before the first that is NULL or cannot be read, up to the limit |
| `ChildArgv.PointersEnd` | src/child_mem.c:98-104 | if that number stays below the limit, the pointer after it is NULL or unreadable, and no earlier one is |
| `ChildArgv.ArrayShownIff` | src/child_mem.c:88-132 | an array in memory is shown as the bracketed list of those texts iff that fits |
| `ChildArgv.WholeIffFits` | src/child_mem.c:88-132 | the whole bracketed list is shown iff it fits with its NUL |
| `ChildArgv.MiddleVanishes` | src/child_mem.c:110-118 | otherwise an item can be missing between two that are shown, with its comma still there |
| `ChildArgv.LongMiddleVanishes` | src/child_mem.c:107-118 | a string that does not fit its own 1024 characters is such an item |
| `BoundedText.Snprintf` | src/decoders.c:234-244 | a bounded print at an offset: the text cut to the room, a NUL, and the full length returned |
| `BoundedText.ChainStep` | src/decoders.c:234-244 | a bounded print after a bounded print is one bounded print of both texts |
| `BoundedText.Overshoot` | src/decoders.c:236-244 | once the offset has passed the buffer, more text changes nothing |
| `BoundedText.Append` | src/decoders.c:985-991 | the guarded print keeps the buffer a bounded print of everything so far |
| `Bytes.DecimalRoundTrip` | src/decoders.c:1208 | decimal numbers: digits only, no leading zeros, and read back as what they were |
| `Bytes.HexIsShort` | src/child_mem.c:46 | hex numbers have no leading zeros |
| `Bytes.HexRoundTrip` | src/child_mem.c:46 | hex numbers are read back as what they were |
| `FlagWalk.WalkTable` | src/decoders.c:2084-2089 | the loop over a table prints the names and clears the bits that the walk on values gives, also when it stops for lack of room |
| `FlagWalk.FormatFlagTable` | src/decoders.c:2076-2092 | for every table, value and size the output is one bounded print of names, rest and zero name |
| `FlagWalk.FormatMask` | src/decoders.c:1674-1686 | the same for a mask that prints 0x0 when nothing else is printed |
| `FlagWalk.FormatOpenFlags` | src/decoders.c:220-245 | the same with the access mode in front |
| `FlagWalk.FormatCloneFlags` | src/decoders.c:655-681 | the same with the exit signal between names and rest: its abbreviation, or its number when it has none |
| `FlagMeaning.WalkExplainsAll` | src/decoders.c:2076-2092 | for every table the OR of the printed entries and the remainder is the value |
| `FlagMeaning.MatchedDisjoint` | src/decoders.c:2084-2089 | printed entries have pairwise disjoint bits |
| `FlagMeaning.MatchedWithin` | src/decoders.c:2084-2089 | every printed entry is of the table and within the value |
| `FlagMeaning.CompositeWins` | src/decoders.c:200-242 | an entry that overlaps no earlier one is printed whenever all its bits are set, and no entry overlapping it is printed |
| `FlagSelection.DisjointTable` | src/decoders.c:2084-2089 | in a table without overlaps the printed entries are exactly those whose bits are all set, in the order of the table |
| `FlagSelection.TableTokens` | src/decoders.c:2076-2092 | the text of a nonzero value is the printed names in order and the hex of the bits left over, with bars between them |
| `FlagSelection.MaskTokens` | src/decoders.c:1674-1686 | the same for masks, with hex also when no name is printed |
| `FlagSelection.OpenTokens` | src/decoders.c:220-245 | the same for open flags, after the access mode |
| `FlagMeaning.CloneTokens` | src/decoders.c:655-681 | the same for clone flags, with the exit signal between the names and the rest |
| `FlagTables.OpenComposites` | src/decoders.c:200-218 | O_TMPFILE wins over O_DIRECTORY and O_SYNC over O_DSYNC |
| `FlagTables.StatxComposite` | src/decoders.c:1654-1686 | STATX_BASIC_STATS wins over each of its parts |
| `FlagMeaning.TableRoundTrip` | src/decoders.c:2076-2092 | parsing the text gives the value back, for every table of distinct names |
| `FlagMeaning.MaskRoundTrip` | src/decoders.c:1674-1686 | the same for masks, for every table of distinct names |
| `FlagMeaning.OpenRoundTripIff` | src/decoders.c:220-245 | for every table of distinct names, open flags are given back iff not both access-mode bits are set |
| `FlagMeaning.CloneWithSignal` | src/decoders.c:655-681 | for every table of distinct names, with an exit signal the text means flags and signal together |
| `FlagMeaning.CloneWithoutSignalIff` | src/decoders.c:655-681 | for every table of distinct names, without one, flags are given back iff they are zero or some entry is within them |
| `FlagMeaning.CloneRoundTripIff` | src/decoders.c:655-685 | for every table of distinct names, the clone argument is given back iff it has an exit signal, or no flags, or a named flag |
| `FlagNames.ProgramOpenFlags` | src/decoders.c:200-245 | the program's own open table meets the conditions: its text is read back iff not both access-mode bits are set |
| `FlagNames.ProgramCloneFlags` | src/decoders.c:612-685 | so does the clone table, whatever the exit signal and whether or not it has an abbreviation |
| `FlagNames.SignalTexts` | src/decoders.c:667-673 | the text of an exit signal: SIG and its abbreviation, or its number, or nothing |
| `FlagNames.BothAccessBits` | src/decoders.c:227-234 | open flags 3: the text is O_RDONLY, read back as 0 |
| `FlagNames.UnnamedCloneFlag` | src/decoders.c:655-678 | a clone value of bit 22 alone: the text is 0, read back as 0 |
| `Iovec.FormatIovecArray` | src/decoders.c:952-992 | for every size the output is one bounded print of the descriptors' slices as read_child_buffer shows them, up to the first unreadable one, with "..." iff there are more than 8 |
| `Iovec.FetchDescriptor` | src/decoders.c:969-972 | one descriptor as the specification reads it, or none when it cannot be read whole |
| `IovecMemory.ArrayReadBack` | src/decoders.c:967-972 | for descriptors in memory, base before length and back to back, those walked are the first eight of them |
| `IovecMemory.DescriptorsWalked` | src/decoders.c:968-972 | the walk ends at the first descriptor that cannot be read |
| `IovecMemory.SliceReadBack` | src/decoders.c:985-986 | the buffer text and the declared length can be read back from the text of a slice |
| `IovecMemory.ArrayShown` | src/decoders.c:954-992 | the text of an array in memory is the slices of its first eight descriptors with commas between them, and dots iff there are more |
| `IovecMemory.ScatteredDataShown` | src/decoders.c:954-992 | after a scattered read, the bytes that were read can be read back in order from that text, as far as the first eight buffers could hold them, when each share is at most max_str_len and readable |
| `IovecMemory.TrustedLengths` | src/decoders.c:974-975 | without a return value every descriptor shows all that it declares |
| `IovecMemory.UnreadableArray` | src/decoders.c:968-991 | when the first descriptor cannot be read: empty brackets, or "[, ...]" for more than eight |
| `IovecMemory.NullArray` | src/decoders.c:956-959 | a null array is shown as NULL |
| `Iovec.SliceToText` | src/decoders.c:982-986 | the text of one slice, by way of a buffer of 1024 characters used as a C string |
| `Iovec.NextPiece` | src/decoders.c:969-986 | one turn of the loop: the piece printed and the bytes left for the rest |
| `Iovec.RemainingIsSlices` | src/decoders.c:967-987 | the loop's running remainder gives each descriptor its share |
| `IovecShares.SlicesAreShares` | src/decoders.c:974-980 | the shares depend on the declared lengths and the return value only |
| `IovecShares.SharesConserve` | src/decoders.c:974-980 | the bytes shown for the first j descriptors are min(total, their declared lengths), for every j |
| `IovecShares.ShareAtMostDeclared` | src/decoders.c:974-980 | no descriptor shows more than it declares |
| `IovecShares.SlicesUndoScatter` | src/decoders.c:974-980 | after the kernel has scattered received bytes over buffers that do not overlap, the bytes shown of the first j, for every j, are the received bytes in order as far as those j could hold them |
| `Getdents.TakeRecord` | src/decoders.c:1186-1204 | the fields of a record are read from inside the record |
| `Getdents.WalkRecords` | src/decoders.c:1181-1218 | the loop prints the records that the parser on values finds, and notes more iff they do not fill the bytes read |
| `Getdents.FormatGetdents` | src/decoders.c:1165-1223 | for every memory, return value and size the output is one bounded print of the listing, each record in the program's format |
| `Getdents.FormatListing` | src/decoders.c:1165-1223 | the same for any way of showing a record |
| `Dirents.ParsedSize` | src/decoders.c:1194-1197 | the records accepted lie within the bytes read |
| `Dirents.FrontOfPacked` | src/decoders.c:1186-1204 | reading a packed record gives back inode, offset, length, type and name |
| `Dirents.CutRecord` | src/decoders.c:1194-1197 | a record cut short anywhere is not accepted |
| `Dirents.ParseOfPack` | src/decoders.c:1185-1215 | parsing any prefix of packed records gives exactly the records wholly inside it, at most 8 |
| `DirentList.GetdentsOfPacked` | src/decoders.c:1165-1223 | on memory holding packed records the text lists the records that fit in order, with "..." iff they do not fill the bytes read |
| `DirentList.ShownIff` | src/decoders.c:1172-1201 | k records are shown iff k is at most 8, they lie within the bytes read, at most 4096, and no further record up to the eighth does |
| `DirentList.NothingListed` | src/decoders.c:1166-1178 | the address alone is shown when nothing was returned or less than a header can be read |
| `DirentFields.RecordReadBack` | src/decoders.c:1207-1211 | inode, offset, length, name and type name can be read back from the text of any record, whatever bytes its name holds |
| `DirentFields.NameByByte` | src/decoders.c:1203-1210 | the name is shown byte for byte |
| `DirentFields.TypeReadBack` | src/decoders.c:1152-1163 | a known d_type can be read back from its name, and every other one is DT_UNKNOWN |
| `DirentFields.DirectoryShown` | src/decoders.c:1165-1223 | for packed records in memory the text is the records shown, in the program's format, and dots, with commas between them and brackets around |
| `DirentList.EllipsisExactIff` | src/decoders.c:1172-1220 | on such memory the text has "..." exactly when records are missing from it, iff it is not the case that more than 4096 bytes came back and one of the first eight records ends there |
| `DirentList.EllipsisExactForSmallRecords` | src/decoders.c:1172-1220 | with records of at most 511 bytes the text has "..." exactly when records are missing |
| `DirentList.EllipsisMissing` | src/decoders.c:1172-1220 | nine records of 512 bytes in memory: the text lists eight and has no "..." |
| `RoutingTables.ClaimsIffSlot` | src/arg_routing.c:11-1267 | the table of a decoder claims argument i of a syscall exactly when that argument is of the decoder's kind |
| `RoutingTables.KnownSlotsArePrinted` | src/arg_routing.c:1268-1504 | an argument with a decoder is below the argument count, so it is printed |
| `Routing.MasksAreDisjoint` | src/arg_routing.c:418-424 | two tables never claim the same argument, and none claims an argument that is not printed |
| `Routing.DeferredIff` | src/mini_strace.c:503-507 | a call is deferred iff some argument of it is filled in by the kernel |
| `Routing.OnlyClaimWins` | src/mini_strace.c:621-726 | where at most one test can hold, an if-chain picks it wherever it stands |
| `Routing.EntryRouting` | src/mini_strace.c:621-726 | the entry chain picks the decoder of every argument that is not for the exit stop only |
| `Routing.ExitRouting` | src/mini_strace.c:875-943 | the exit chain picks the decoder of every argument of a deferred call, and the plain fallback only where the kernel filled nothing in |
| `Routing.RoutingLosesNothing` | src/mini_strace.c:503-943 | on either path each argument gets its own decoder, and a caller-populated one the same on both |
| `Routing.ExitByResult` | src/mini_strace.c:903-943 | by the result of a deferred call: every argument has its decoder for a positive one, all but a read buffer for 0, and after an error those the caller filled in and the getdents, timespec, epoll and poll buffers |
| `Routing.PrintedArgsIs` | src/mini_strace.c:243-244 | a name of the argument table is printed with its own number of arguments, any other with six |
| `Deferral.DeferredWhenSet` | src/mini_strace.c:503-507 | a call is deferred, and printed at its exit, iff any of the fourteen pending fields is set |
| `Deferral.DefersFilledCalls` | src/mini_strace.c:393-507 | with the lookups of the program's tables, the tracer defers a call iff the kernel fills in one of its arguments |
| `Routing.AnyOrder` | src/mini_strace.c:621-943 | any chain with the same decoders in another order picks the same decoder |

## Left out

- ptrace, waitpid, fork, exec and the registers of src/arch.h: what they report are the events and the memory of the model.
- Status lines ("new child", "exited", "killed") and the text of the syscall, errno and signal names.
- The text of the arguments inside a head: a head carries the raw arguments; the decoders are modelled beside it.
- The concrete fourteen lookups inside the tracer: `Config.route` is arbitrary there, and the program's own tables are in `RoutingTables`.
- format_sockaddr, format_msghdr and format_cmsg: they rest on libc macros and `inet_ntop`, which are not part of this model.
- The struct printers (stat, statx, rusage, timespec, sigaction, epoll, poll): copies of fields into one format.
- Plain enumeration lookups, and the other flag walkers, which are instances of `FormatFlagTable` and `FormatMask`.
- Path resolution under -y, and the descriptor table it uses.
- Option parsing, usage text, output files, the generator of the name table.
- The rows of syscall_argc for names without a decoder; such a name prints six arguments in the model.
- Percentages and averages of the summary: floating point, one formula each.
- CountCall: time is in whole nanoseconds, so the rounding of the double sums is not modelled.
- Step: counts and sizes do not overflow; pids and counters are unbounded integers. Addresses do wrap around at 2^64.
- FormatCloneFlags: what sigabbrev_np says about a signal is a parameter.
- ClaimsIffSlot: names are numbers, since only the equality of string literals matters; a mask is its set of bits, and of a buffer entry the slot of the buffer, not that of its length.
