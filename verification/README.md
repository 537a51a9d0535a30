# Verified models of rpclib and its vendored libraries

This project models the parts of rpclib in which something can go wrong between operations, and proves what they promise.

- **Matching** (`Matching.dfy`, `UnorderedElements.dfy`): the maximum bipartite matching in the vendored gmock. `TryAugment` is a recursive method that updates two mutually referring tables under a `seen` mask; the proof carries a closed set of right nodes through the whole pass and ends with a vertex cover of the size of the matching. On top of it stands the matcher for containers in any order.
- **RPC protocol** (`Dispatcher.dfy`, `ErrorTexts.dfy`, `RpcProtocol.dfy`, `RpcClient.dfy`, `ConnectMonitor.dfy`): the dispatcher as a function of message and bound functions, with its error texts as the format engine makes them; client, transport and server as one state machine, with safety over all runs and the exact condition under which an id may be issued again; the client's handlers as methods that update the fields of `client::impl`; and the monitor that `wait_conn` and the connect handler share. Messages have the shapes of the sections "Request Message", "Response Message" and "Notification Message" of the MessagePack-RPC specification.
- **Edit scripts and unified diffs** (`EditScript.dfy`, `UnifiedDiff.dfy`, `DiffReader.dfy`): the dynamic-programming table, its backtrace, interning, the hunk class and the windowed hunk builder. The main results are that the hunks, applied as a patch to the left lines, give the right lines, that script and context determine them line by line, and that the returned text alone, read and applied, does the same.
- **Patterns and order** (`Regex.dfy`, `RegexMeaning.dfy`, `TestFilter.dfy`, `TestOrder.dfy`): validator and matcher of the simple regular expressions against a grammar and a language, and what the atoms mean, glob filters, and the order of test cases over any run of registrations and shuffles.
- **fmt** (`Decimal.dfy`, `CountDigits.dfy`, `IntText.dfy`, `IntWriter.dfy`, `FormatArgs.dfy`, `FormatSpec.dfy`, `Formatter.dfy`, `IntFormat.dfy`): digit counting, digit writing, field layout, packed arguments, the meaning of a format specification, and the format-string engine, which is proved to accept exactly the strings that have a reading and to output what the reading gives.

Positions in buffers and strings are indices. `Widths.dfy` holds the integer widths the code relies on. `std::vector` and `std::map` members are fields of type `seq` and `map`; fixed buffers and the tables of the edit algorithm are arrays. C strings are sequences that end where the NUL would stand. Edit costs are exact integers in units of 1/100000. Random choices, and what a grown buffer holds before it is written, are arbitrary. Clocks, sockets and threads appear only as the order of steps: one thread runs the client's io service, so each handler is one step, and the strand may run its handlers in any order, which allows every order asio allows.

Where code and comments differ, the model follows the code:

- `call_idx_` is a signed 32-bit counter and its value is packed as such, while the server reads an unsigned number (`lib/rpc/client.cc:143`, `include/rpc/dispatcher.h:93`). From the 2^31st call on requests are refused by the server's conversion, except the 2^32nd, whose index is 0. A resolved future therefore always has a non-negative index (`RpcProtocol.CarefulRunDelivers`), and a refused call keeps its id in use for good.
- A handler error or special response falls out of the dispatcher's `try` block into the "could not find function" response (`lib/rpc/dispatcher.cc:60-84`).
- `bind` passes the declared argument count where `enforce_arg_count` expects the count found, so the two numbers in its message are exchanged (`include/rpc/dispatcher.inl:19`, `lib/rpc/dispatcher.cc:120-131`).
- `CreateUnifiedDiff` with a context of 0 prints nothing, because the look-ahead ends the first hunk before its first edit.
- An alignment character that follows the closing brace of a field with an empty specification, as in `{:}<`, becomes that field's alignment (`dependencies/src/format.cc:1145`).
- `parse_nonnegative_int` detects a wrap-around only if the new value is smaller than the previous one; `IntText.WrapUndetectedInput` gives a number that slips through.

## Model

| member | source | states |
|---|---|---|
| Matching.MatchMatrix.SetEdge | dependencies/include/gmock/gmock.h:8086-8105 | Setting an edge sets that edge and leaves every other as it was |
| Matching.RowsSideBySide | dependencies/include/gmock/gmock.h:8101-8105 | The entries of an element stand side by side, in the order of the matchers |
| Matching.MaxBipartiteMatchState.TryAugment | dependencies/src/gmock-gtest-all.cc:10985-11011 | The search ends because unseen right nodes run out. A failed search changes neither table and leaves a mask closed under partners and neighbours; a successful one restores mutual reference, keeps used nodes used, makes only its own left node used, and enters no closed set |
| Matching.AugmentedUsed | dependencies/src/gmock-gtest-all.cc:10980-10984 | A successful search from an unused left node turns exactly that node from unused to used |
| Matching.LinkThrough | dependencies/src/gmock-gtest-all.cc:11001-11006 | Linking a left node to a right node whose partner has been moved elsewhere restores the tables, up to the slot the left node gave up |
| Matching.DeadEndExtends | dependencies/src/gmock-gtest-all.cc:10986-11009 | A failed recursive search and the marks before it together still form a dead end |
| Matching.MaxBipartiteMatchState.Compute | dependencies/src/gmock-gtest-all.cc:10933-10961 | One pass over the left nodes ends with mutually referring tables and a closed set that certifies them; each node is unused when its turn comes |
| Matching.PairsEntries | dependencies/src/gmock-gtest-all.cc:10954-10960 | The returned pairs are the used left slots with their partners, in increasing left order |
| Matching.CertifiedIsMaximum | dependencies/src/gmock-gtest-all.cc:10936-10947 | No matching of the graph is larger than one with a closed-set certificate |
| Matching.CertifiedCover | dependencies/src/gmock-gtest-all.cc:10936-10947 | The certificate yields a vertex cover of exactly the size of the matching |
| Matching.FindMaxBipartiteMatching | dependencies/src/gmock-gtest-all.cc:11033-11036 | For every graph: the result is a matching, no matching is larger, and some vertex cover is as small |
| Matching.FindPairing | dependencies/src/gmock-gtest-all.cc:11054-11083 | True exactly when distinct elements can be assigned to all matchers along edges |
| UnorderedElements.AnalyzeElements | dependencies/include/gmock/gmock.h:8227-8251 | The matrix that is built has an edge exactly where a matcher accepts an element |
| UnorderedElements.VerifyAllMatched | dependencies/src/gmock-gtest-all.cc:11170-11223 | True exactly when every element has a matcher and every matcher an element |
| UnorderedElements.MatchAndExplain | dependencies/include/gmock/gmock.h:8195-8222 | For every container and list of matchers: true exactly when the elements can be arranged so that each matcher accepts its own and none is left over |
| Dispatcher.DispatchAnswers | lib/rpc/dispatcher.cc:28-85 | A request is answered, under its own id and with the verdict on its function and arguments, exactly when the id is an unsigned 32-bit number and the outcome is not an unsuppressed exception |
| Dispatcher.PacketsRoundTrip | include/rpc/client.inl:52-64 | Requests, responses and notifications are told apart by their type number and carry what they were made from |
| Dispatcher.CallEscapes | lib/rpc/dispatcher.cc:43-78 | A call lets an exception escape exactly when the bound function ends in one that is no client error and exceptions are not suppressed; what escapes is that outcome |
| Dispatcher.NotificationRuns | lib/rpc/dispatcher.cc:87-118 | Whatever function is bound, a notification runs it on the arguments sent: what it ends in escapes, unless it returns, is stopped by its handler or is suppressed |
| Dispatcher.EscapedIsOutcome | lib/rpc/dispatcher.cc:16-118 | For every message, an exception that leaves the dispatcher is the outcome of the function the message names on the arguments it carries |
| Dispatcher.ValueAnswered | lib/rpc/dispatcher.cc:43-51 | A call is answered with the value its function returns, or with an error text that tells what a client error said |
| Dispatcher.MalformedRefused | lib/rpc/dispatcher.cc:28-31 | A message is refused for its types exactly when its type number, id or name has the wrong one |
| Dispatcher.StoppedLooksUnknown | lib/rpc/dispatcher.cc:62-84 | A handler that stops with an error or a response of its own is answered like an unknown function |
| ErrorTexts.TemplateFormats | dependencies/src/format.cc:1113-1301 | A format string of pieces and numbered fields gives the pieces with the arguments between them |
| ErrorTexts.NotFoundFormats | lib/rpc/dispatcher.cc:81-84 | The text for an unknown function is what the format engine makes of its format string |
| ErrorTexts.StdExceptionFormats | lib/rpc/dispatcher.cc:55-61 | The same for a standard exception |
| ErrorTexts.OtherExceptionFormats | lib/rpc/dispatcher.cc:72-77 | The same for any other exception |
| ErrorTexts.ArgCountFormats | lib/rpc/dispatcher.cc:120-131 | The same for a wrong number of arguments, with the counts in the order in which they are passed |
| RpcProtocol.KeepInv | lib/rpc/client.cc:69-100 | Every step of client, transport and server keeps the invariant (stages, ids, messages in flight and promises agree), as long as no id is issued that is still in use |
| RpcProtocol.KeyInverse | lib/rpc/client.cc:200-207 | Of the first 2^32 calls each has its own key; the packed index is not negative exactly for those before the 2^31st and for the 2^32nd |
| RpcProtocol.OwnerOfKey | lib/rpc/client.cc:200-207 | However many calls have been made, among the last 2^32 of them the key tells the call |
| RpcProtocol.ReceiveFinds | lib/rpc/client.cc:82-97 | Because the entry is inserted before the request is written, a response finds its id with the promise unset |
| RpcProtocol.CarefulRunDelivers | lib/rpc/client.cc:82-97 | In every run, of any length, in which no id is issued while the last call that had it is still queued, ongoing or awaiting erase: no handler dies, and a resolved future holds the dispatcher's outcome for exactly the function and arguments posted under its id, or an error naming that function |
| RpcProtocol.RunDelivers | lib/rpc/client.cc:82-97 | The same for every run of at most 2^32 calls, without further condition |
| RpcProtocol.FreeIsExact | lib/rpc/client.cc:200-210 | After such a run, a call may be issued exactly when the next id is not in use: then no continuation misdelivers or breaks a promise, and otherwise some continuation does |
| RpcProtocol.RunStages | lib/rpc/client.cc:202-217 | In every such state each of the last 2^32 calls is in exactly one of the stages queued, ongoing, awaiting erase, erased |
| RpcProtocol.RunLookupsHit | lib/rpc/client.cc:85-94 | The subscript lookup never makes an entry, and the promise it finds is unset |
| RpcProtocol.ResolvedStays | lib/rpc/client.cc:92-97 | No step changes a promise that has been resolved |
| RpcProtocol.QuietMeansAnswered | lib/rpc/client.cc:98-99 | When nothing is queued or in flight, every answerable call none of whose messages was lost has its verdict and has been erased |
| RpcProtocol.NotificationsAreSilent | lib/rpc/dispatcher.cc:87-118 | In every run, of any length and with any mix of calls and notifications, whatever is on its way to the client is the answer to a call that was issued, and serving a notification sends nothing |
| RpcProtocol.NotificationsArrive | lib/rpc/client.cc:212-217 | In every run each notification that was sent is queued, in flight, served or lost exactly once, and what reaches the server carries the name and arguments of one that was sent |
| RpcProtocol.QuietMeansServed | lib/rpc/client.cc:212-217 | When nothing is queued or in flight and nothing was lost, exactly the notifications sent have been served, each as often as it was sent |
| RpcProtocol.PendingIsHeld | lib/rpc/client.cc:202-210 | In every run an unset future is still in the hands of a posted handler or of an entry; what is destroyed unset is broken |
| RpcProtocol.WrapAroundMisdelivers | lib/rpc/client.cc:200-207 | A concrete run of 2^32 + 1 calls in which the answer to the last resolves the future of the first |
| RpcProtocol.DeliveryBoundIsExact | lib/rpc/client.cc:200-210 | Runs of up to n calls never misdeliver, whatever functions are bound, exactly when n is at most 2^32 |
| RpcClient.Client.AsyncCall | lib/rpc/client.cc:200-210 | Posting a request changes the client as the issue step of the protocol does |
| RpcClient.Client.Send | lib/rpc/client.cc:212-217 | Posting a notification is the notify step |
| RpcClient.Client.Dispatch | lib/rpc/client.cc:205-209 | Running a posted handler is the handler step: insert if absent then write, write, or erase; a promise destroyed unset is broken |
| RpcClient.Client.ReadOne | lib/rpc/client.cc:82-99 | One response: look up or create the entry, resolve its promise, post the erase; resolving twice kills the handler |
| RpcClient.Client.ReadHandler | lib/rpc/client.cc:74-100 | The loop over a chunk of responses is the fold of single receive steps |
| RpcClient.ChunkIsRun | lib/rpc/client.cc:74-100 | Reading a chunk in one handler continues the run of the protocol by single receive steps, so nothing is misdelivered and the handler does not die |
| ConnectMonitor.StepKeepsInv | lib/rpc/client.cc:46-67 | Every interleaving of callers, connect handler and read failures keeps lock ownership, flags, state and waiting set consistent |
| ConnectMonitor.NoLostWakeup | lib/rpc/client.cc:52-65 | From the notification on no caller is left blocked |
| ConnectMonitor.ReturnMeansConnected | lib/rpc/client.cc:179-198 | wait_conn returns normally only after a successful connect and throws system_error only after a failed one |
| ConnectMonitor.DoneDecides | lib/rpc/client.cc:181-184 | Once the handler is done, a caller at the loop test returns or throws at once |
| ConnectMonitor.StateOnlyAdvances | lib/rpc/client.cc:112-121 | The connection state only goes from initial to connected to disconnected, or from initial to disconnected |
| ConnectMonitor.LostOnlyWhenClosed | lib/rpc/client.cc:112-127 | Once connected, the state is disconnected exactly when a read has met the end of the file or a reset; another read error leaves it |
| ConnectMonitor.TimeoutIsOwn | lib/rpc/client.cc:186-193 | A caller throws a timeout only if its own time has run out |
| ConnectMonitor.ExpiredThrows | lib/rpc/client.cc:186-193 | A caller whose time has run out throws a timeout as soon as it gets the mutex |
| ConnectMonitor.MutualExclusion | lib/rpc/client.cc:52-65 | Callers and handler are never in their critical sections together |
| EditScript.CalculateOptimalEdits | dependencies/src/gmock-gtest-all.cc:2476-2529 | The table and the backtrace yield the script of the recurrence; the backtrace stays in the table and ends |
| EditScript.FillCell | dependencies/src/gmock-gtest-all.cc:2497-2518 | One cell gets the cost and move the recurrence gives it, and no other cell changes |
| EditScript.Backtrace | dependencies/src/gmock-gtest-all.cc:2521-2529 | Walking the moves back from the last cell and reversing gives the script |
| EditScript.ScriptTransforms | dependencies/src/gmock-gtest-all.cc:2521-2529 | For all sequences the script consumes exactly the left, produces exactly the right, matches only equal elements and replaces only unequal ones |
| EditScript.TransformsReplays | dependencies/src/gmock-gtest-all.cc:2521-2529 | Replaying such a script on the left sequence gives the right sequence |
| EditScript.ScriptCostIsCell | dependencies/src/gmock-gtest-all.cc:2497-2518 | The summed cost of the script is the last table cell |
| EditScript.CostBounds | dependencies/src/gmock-gtest-all.cc:2483-2518 | The cost is at least the difference of the lengths and at most 1.00001 times the smaller length plus that difference |
| EditScript.CellDecides | dependencies/src/gmock-gtest-all.cc:2497-2518 | Equal last elements match; otherwise a neighbouring cell strictly cheaper than the other two decides for adding or removing, and without one the elements are replaced; cost and last edit follow |
| EditScript.PrefixScript | dependencies/src/gmock-gtest-all.cc:2476-2529 | If one list is a prefix of the other, only the rest is paid for |
| EditScript.ScriptMirror | dependencies/src/gmock-gtest-all.cc:2476-2529 | Exchanging the two lists exchanges adds and removes in the script and nothing else |
| EditScript.NotMinimal | dependencies/src/gmock-gtest-all.cc:2506-2517 | "bab" to "aba" costs three replaces although an add and a remove would do |
| EditScript.InternalStrings.GetId | dependencies/src/gmock-gtest-all.cc:2538-2543 | Ids stay injective and a line keeps its id |
| EditScript.CalculateOptimalLineEdits | dependencies/src/gmock-gtest-all.cc:2552-2566 | The script for the interned ids is the script for the lines and transforms one list into the other |
| UnifiedDiff.Hunk.PushLine | dependencies/src/gmock-gtest-all.cc:2583-2599 | A common line flushes the pending removes and adds and follows them, any other line waits in its list; it is appended to the old side, the new side or both, and counters and grouping hold |
| UnifiedDiff.FlushGroups | dependencies/src/gmock-gtest-all.cc:2570-2573 | After flushing no added line is directly followed by a removed one |
| UnifiedDiff.Hunk.Print | dependencies/src/gmock-gtest-all.cc:2601-2643 | The printed hunk has the flushed lines, its lengths are those of its two sides |
| UnifiedDiff.PushEdits | dependencies/src/gmock-gtest-all.cc:2676-2702 | The inner loop shows exactly the edits it passes; it ends a context's worth of matches behind the last edit, or at the end, and goes on exactly while fewer than two contexts of matches lie between edits |
| UnifiedDiff.NextHunk | dependencies/src/gmock-gtest-all.cc:2659-2708 | A hunk shows its range line by line: matches as common lines, each run of other edits as the lines taken out and then those put in; the range is a window around edits as wide as the context allows, with only matches skipped before it |
| UnifiedDiff.MarkCounts | dependencies/src/gmock-gtest-all.cc:2583-2599 | In a hunk exactly the deleted lines are marked '-' and exactly the inserted ones '+' |
| UnifiedDiff.CoversUnique | dependencies/src/gmock-gtest-all.cc:2646-2652 | Script and context determine the hunks: their number, lines, start lines and counters |
| UnifiedDiff.CoversPatch | dependencies/src/gmock-gtest-all.cc:2646-2650 | Hunks that cover a script, applied as a patch at the lines they name, turn the left lines into the right lines |
| UnifiedDiff.CreateUnifiedDiff | dependencies/src/gmock-gtest-all.cc:2651-2711 | For a context of at least 1 the hunks show disjoint ordered windows of the script with every non-match in exactly one, hunks whose contexts would overlap being joined; the patch turns left into right exactly when the context is not 0 or the lists are equal |
| DiffReader.TextReadsBack | dependencies/src/gmock-gtest-all.cc:2601-2643 | For lines without newlines the printed text reads back to the hunks: every line with its mark, and in the header, for each side that has marked lines, its first line and number of lines |
| DiffReader.CoveringTextApplies | dependencies/src/gmock-gtest-all.cc:2646-2652 | The text of hunks that cover a script, applied to the left lines, gives the right lines |
| DiffReader.DiffText | dependencies/src/gmock-gtest-all.cc:2653-2711 | For all lists of lines without newlines, the returned text applied to the left lines gives the right lines exactly when the context is not 0 or the lists are equal |
| Regex.ValidateRegex | dependencies/src/gmock-gtest-all.cc:9210-9264 | The validator accepts exactly the expressions of the grammar |
| Regex.MatchRepetitionAndRegexAtHead | dependencies/src/gmock-gtest-all.cc:9273-9295 | True exactly when some allowed number of repetitions is followed by a match of the rest |
| Regex.MatchRegexAtHead | dependencies/src/gmock-gtest-all.cc:9300-9326 | For every valid expression: true exactly when a prefix of the text is in the language, all of it if the expression ends in a dollar sign; the mutual recursion ends |
| Regex.MatchRegexAnywhere | dependencies/src/gmock-gtest-all.cc:9336-9349 | For every valid expression: true exactly when some substring, anchored as the expression says, is in the language; null arguments never match |
| RegexMeaning.EscapeFinds | dependencies/src/gmock-gtest-all.cc:9181-9199 | An escape is found in a text exactly when one of its characters is, by its code, of the class the escape stands for, of any other class for a complement, the control character, or the escaped character itself |
| RegexMeaning.CharacterFinds | dependencies/src/gmock-gtest-all.cc:9201 | A dot finds anything but a newline, any other plain character itself |
| RegexMeaning.ClassesComplement | dependencies/src/gmock-gtest-all.cc:9184-9194 | Every character is of exactly one of the two kinds of each pair of classes |
| RegexMeaning.RepeatTakes | dependencies/src/gmock-gtest-all.cc:9273-9295 | Anchored on both sides, a repeated atom takes the whole text: any number of characters of its kind, at least one, or at most one |
| RegexMeaning.EscapesAccepted | dependencies/src/gmock-gtest-all.cc:9173-9176 | The escapes the grammar accepts are those of eleven letters and of ASCII punctuation |
| RegexMeaning.SinglesAccepted | dependencies/src/gmock-gtest-all.cc:9210-9264 | A character is an expression by itself unless it is a backslash, a repeat, a bar or a bracket |
| RegexMeaning.Rejected | dependencies/src/gmock-gtest-all.cc:9210-9264 | A repeat needs an atom and takes no second repeat, '^' stands only in front, '$' only at the end, and a backslash needs something to escape |
| TestFilter.MatcherDecidesGlob | dependencies/src/gmock-gtest-all.cc:1910-1925 | The recursive matcher decides the declarative meaning of the pattern before the first colon |
| TestFilter.LiteralMatches | dependencies/src/gmock-gtest-all.cc:1910-1925 | Literal text matches itself, and with a star behind it whatever begins with it |
| TestFilter.PatternsSplit | dependencies/src/gmock-gtest-all.cc:1937-1946 | The patterns of a filter contain no colon and joined by colons give the filter back |
| TestFilter.MatchesFilter | dependencies/src/gmock-gtest-all.cc:1927-1948 | True exactly when some pattern of the filter matches the name |
| TestFilter.FilterMatchesTest | dependencies/src/gmock-gtest-all.cc:1950-1976 | True exactly when some positive pattern matches the full name and no negative one does, an empty positive part in front of a dash meaning every name and an empty negative part excluding nothing |
| TestOrder.ShuffleRange | dependencies/src/gmock-gtest-all.cc:718-736 | Whatever the generator returns, the range is rearranged and everything outside it stays |
| TestOrder.EveryOrderPossible | dependencies/src/gmock-gtest-all.cc:718-736 | Every rearrangement of the range comes about for some numbers that the generator may return |
| TestOrder.UnitTestImpl.GetTestCase | dependencies/src/gmock-gtest-all.cc:5948-5981 | Finds the case or makes it, death cases joining the end of their group, and keeps the order unshuffled |
| TestOrder.DeathNames | dependencies/src/gmock-gtest-all.cc:1613 | A case is a death test case exactly when its name ends in "DeathTest" or contains "DeathTest/" |
| TestOrder.UnitTestImpl.AddTest | dependencies/src/gmock-gtest-all.cc:4201-4204 | The test is appended to its case, which is made if it is new; every other test stays where it is |
| TestOrder.UnitTestImpl.ShuffleTests | dependencies/src/gmock-gtest-all.cc:6385-6398 | Shuffling keeps cases and tests and leaves the death cases in front |
| TestOrder.UnitTestImpl.UnshuffleTests | dependencies/src/gmock-gtest-all.cc:6400-6407 | The order of cases and of tests is as before the first shuffle |
| TestOrder.ExecutionOrder | dependencies/src/gmock-gtest-all.cc:6385-6398 | The execution order visits each case exactly once, all death cases before the others |
| TestOrder.VisitsAll | dependencies/src/gmock-gtest-all.cc:4241-4252 | In any order the indices give, every test of a case is visited exactly once |
| TestOrder.RunOps | dependencies/src/gmock-gtest-all.cc:5933-5981 | Over any run that registers only while unshuffled: each registered case runs once, death cases first, and in it each registered test once; an unshuffled order of cases is that of registration within the two groups, and of tests that of registration |
| CountDigits.CountDigits64 | dependencies/include/format.h:774-779 | For every 64-bit number the leading-zeros form gives the number of decimal digits and its table index is in bounds |
| CountDigits.CountDigits32 | dependencies/include/format.h:799-804 | The same for every 32-bit number and the smaller table |
| CountDigits.PowersAreRight | dependencies/src/format.cc:652-676 | The table entries are 0 and the powers of ten |
| CountDigits.Interleave | dependencies/include/format.h:777 | For every bit length up to 64 the factor 1233/4096 puts the numbers between neighbouring powers of ten |
| CountDigits.CountDigitsFallback | dependencies/include/format.h:782-797 | The division loop gives the number of decimal digits of every number |
| IntText.FormatDecimal | dependencies/include/format.h:806-826 | Given the digit count, exactly the slots are filled with the decimal text and nothing else in the buffer changes |
| IntText.WritePairs | dependencies/include/format.h:809-817 | The loop writes pairs of digits from the back until fewer than three remain |
| IntText.FormatInt.FromSigned | dependencies/include/format.h:2937-2945 | For every signed 64-bit number, the smallest included, the text in the 22-character buffer is the signed decimal text |
| IntText.FormatInt.FromUnsigned | dependencies/include/format.h:2913-2935 | The same for every unsigned 64-bit number |
| IntText.SignedRoundTrip | dependencies/include/format.h:2937-2976 | The signed text denotes the number |
| IntText.ParseNonnegativeInt | dependencies/src/format.cc:268-286 | The loop computes the wrap-checked value and, when it succeeds, stops at the end of the digits |
| IntText.ParseIsExact | dependencies/src/format.cc:268-286 | For every digit string, parsing returns the number denoted exactly when it is at most INT_MAX; numbers above that and below 2^32 are rejected |
| IntText.ParseText | dependencies/src/format.cc:268-286 | Parsing the decimal text of any number up to INT_MAX gives the number back |
| IntText.WrapUndetectedInput | dependencies/src/format.cc:274-280 | A one and ten zeros are read as 1410065408 |
| IntWriter.Writer.WriteInt | dependencies/include/format.h:2379-2457 | For every number, flags, prefix, width, precision and alignment the field is appended: padding, prefix, zeros and digits in the order the alignment demands; an unknown type letter writes nothing |
| IntWriter.Writer.PrepareIntBuffer | dependencies/include/format.h:2314-2377 | Everything around the digits is written, the place of the last digit is returned, and the digits' own slots are all that is left |
| IntWriter.Writer.FillPadding | dependencies/include/format.h:2297-2310 | A centred field has the smaller half of the fill in front |
| IntWriter.Writer.WriteDecimal | dependencies/include/format.h:2037-2054 | Sign and digits of any number are appended |
| IntWriter.LayoutWidth | dependencies/include/format.h:2314-2377 | A field has exactly max(width, prefix + max(precision, digits)) characters, an octal prefix counting as a digit when the precision exceeds the digits |
| IntWriter.ZeroPadding | dependencies/include/format.h:2320-2343 | A precision beyond the digits is a numeric field of zeros with the fill on one side of it |
| IntWriter.DigitsReadBack | dependencies/include/format.h:2396-2451 | In every base and letter case the digits read back to the number |
| IntWriter.NumberReadsBack | dependencies/include/format.h:2379-2457 | Whatever the flags and the type letter, sign, base prefix and digits denote the value |
| IntWriter.SignsStand | dependencies/include/format.h:2383-2391 | A minus stands exactly for a negative number, a plus for the plus flag on any other, a space for the sign flag alone; the base prefix is there exactly when asked for |
| IntWriter.PrecisionField | dependencies/include/format.h:2320-2343 | A precision beyond the digits puts zeros between sign and prefix and the digits, an octal prefix counting as one of them, and the width pads the whole on one side |
| IntWriter.PaddedReadsBack | dependencies/include/format.h:2320-2343 | Padded to a precision the number still denotes its value |
| IntFormat.WriteArg | dependencies/include/format.h:2379-2457 | The writer appends to an empty buffer what the integer renderer says, or fails on the same type letters |
| IntFormat.AlignedField | dependencies/src/format.cc:1124-1156 | A field with fill, alignment mark and width pads the number on the right for '<', on the left for '>', on both sides for '^', behind the sign for '=' |
| IntFormat.WidthField | dependencies/src/format.cc:1188-1191 | A width alone pads with spaces on the left |
| IntFormat.SignedField | dependencies/src/format.cc:1158-1172 | A plus, space or minus in the field puts a plus, a space or nothing in front of a number that is not negative |
| IntFormat.BaseField | dependencies/src/format.cc:1174-1178 | A field with a type letter, with or without the base prefix, gives text that reads back to the number in that notation |
| IntFormat.FullField | dependencies/src/format.cc:1113-1279 | Fill, mark, sign, '#', width and type letter, written in this order, give the field laid out under all of them |
| IntFormat.ZeroField | dependencies/src/format.cc:1180-1186 | A zero in front of the width fills with zeros between sign and digits |
| FormatArgs.TagsUnpack | dependencies/include/format.h:1336-1341 | Unpacking the 64-bit word gives the tag of each of the first sixteen arguments and NONE beyond the last |
| FormatArgs.MadeListRepresents | dependencies/include/format.h:1735-1792 | For any number of arguments, and whatever the stack held before, the packed list holds them and its sentinel |
| FormatArgs.At | dependencies/include/format.h:1358-1381 | Indexing gives the i-th argument with its tag below the number of arguments and NONE for every other index, never reading past the sentinel |
| FormatArgs.ArgMap.Init | dependencies/src/format.cc:792-835 | The loops end and the map holds the first occurrence of each name; a filled map is left alone |
| FormatArgs.FirstNamedIsFirst | dependencies/src/format.cc:803-805 | A name is in that map exactly when some argument carries it, with the argument of the first that does |
| FormatSpec.FlagsExact | dependencies/src/format.cc:1124-1186 | Fill, alignment, sign, '#' and '0' are read as a specification exactly when the text is that of flags that fit the argument, as long as possible, and the specification is what those flags stand for |
| FormatSpec.SpecUnique | dependencies/src/format.cc:1113-1271 | With the arguments its nested references fetched, the text of a field has one end and one meaning |
| FormatSpec.SpecRoundTrip | dependencies/src/format.cc:1113-1271 | Every specification (flags, width, precision, type letter) that an argument allows, written out, is read as itself exactly when it is not empty or no alignment character follows its closing brace |
| FormatSpec.MarkBehindInput | dependencies/src/format.cc:1143-1145 | At `:}<` the empty specification is read as left alignment |
| FormatSpec.BraceIsNoFill | dependencies/src/format.cc:1146-1147 | An opening brace is refused as a fill |
| FormatSpec.TagClasses | dependencies/src/format.cc:293-310 | Which kinds of argument count as numbers, take a sign, take a precision, or can be a width |
| FormatSpec.NamesAre | dependencies/src/format.cc:889-902 | A name is a letter or underscore and all letters, digits and underscores behind it |
| Formatter.BasicFormatter.NextArg | dependencies/src/format.cc:918-924 | The next automatic argument, refused after manual indexing or past the last argument |
| Formatter.BasicFormatter.GetNamedArg | dependencies/src/format.cc:864-875 | A name gives its first argument, or an error |
| Formatter.BasicFormatter.ParseArg | dependencies/src/format.cc:877-902 | A reference is recorded with its place, its form and the argument it fetched; if any reference may stand there after those before it, it is that one and is not refused |
| Formatter.BasicFormatter.ParseCount | dependencies/src/format.cc:1188-1221 | A width or precision is the number written, the value of the integer argument its nested reference fetched, or absent, and is refused only if the text has no such meaning |
| Formatter.BasicFormatter.ParseSizes | dependencies/src/format.cc:1188-1271 | Width, precision and type letter are what the text says, with the nested references in reading order, and the flags are kept; text with such a meaning is accepted |
| Formatter.BasicFormatter.ReadField | dependencies/src/format.cc:1116-1275 | A field is accepted exactly when its text has a meaning with references that may come next, and with that meaning |
| Formatter.BasicFormatter.FormatField | dependencies/src/format.cc:1113-1279 | A field of a built-in argument appends one rendering of it, under the specification its text means, exactly when there is one; an error appends nothing |
| Formatter.BasicFormatter.Format | dependencies/src/format.cc:1282-1301 | A run outputs what the readings of the format string give, and throws only if there is none |
| Formatter.FormatString | dependencies/src/format.cc:1282-1301 | For every format string and list of built-in arguments the result is a text exactly when the string can be tiled with plain text, doubled braces and fields whose references, nested ones included, are automatic and take arguments 0, 1, 2, ... in reading order or are all numbered or named, and that text is the output of the tiles |
| Formatter.ReadingInOrder | dependencies/src/format.cc:918-939 | The references of such a tiling stand in reading order |
| Formatter.EscapeFormats | dependencies/src/format.cc:1287-1291 | Text with every brace doubled is formatted to the text, whatever the arguments |
| Formatter.OneFieldFormats | dependencies/src/format.cc:1113-1301 | A single automatic field with any specification its argument allows gives the first argument rendered under it |
| Formatter.IndexedFieldFormats | dependencies/src/format.cc:877-887 | A number in braces gives the argument of that index |
| Formatter.NamedFieldFormats | dependencies/src/format.cc:864-902 | A name in braces gives the first argument of that name |
| Formatter.LoneBraceFails | dependencies/src/format.cc:1293-1294 | A brace that is neither doubled nor part of a field has no reading |

## Left out

- Minimality of the edit script: false, as `EditScript.NotMinimal` shows; which edit is chosen is stated by `EditScript.CellDecides`.
- Matching.MatchMatrix.SetEdge: gives a changed matrix instead of updating one in place.
- RE::Init and RE::FullMatch: the pattern they build is wrong for a trailing escaped dollar sign; only MatchRegexAnywhere is modelled.
- Overflowing numbers in parse_nonnegative_int: for values of 2^32 or more nothing is said but that the result is not the value; widths and precisions written that large are covered only as what that function returns.
- Formatter.BasicFormatter.FormatField: takes built-in arguments only; for a custom one the source hands the text behind the colon to the argument's own function, which may do anything with it.
- Formatter.FormatString: requires that no argument is a custom one, for the same reason; the rendering of one argument is a parameter of the engine.
- IntWriter.Writer.WriteInt: models the 64-bit instance; the 32-bit ones differ only in the width of the unsigned type.
- IntWriter.Writer.PrepareIntBuffer: returns an index, so pointers that a reallocation would invalidate are not captured.
- IntText.WritePairs: the table of two-digit texts is defined by its entries instead of as a 200-character literal.
- TestOrder.ShuffleRange: takes and returns a sequence that the caller stores in its field, instead of swapping through a pointer.
- Regex.MatchRegexAnywhere: assumes the text is shorter than the largest size_t, as the source's comment does.
- RpcProtocol.CarefulRunDelivers: treats bound functions as fixed functions of their arguments, and the session as sending each non-empty response once; responses set or disabled by this_handler are not part of this model.
- Wire encoding, sockets, server sessions, timeouts of single calls, wait_all_responses and the destructor: library code, or no protocol-level guarantee to state.
- ConnectMonitor.NoLostWakeup: asio resolution and the connect operation itself are a single step that succeeds or fails.
- write_double, write_str, wide characters, printf-style formatting, Windows code: foreign or platform behaviour.
- Test reporting, death tests, XML output and flag parsing: input and output only.
