# Verified model of Mobiscout's scanners, metrics, daemon and mock ledger

Mobiscout analyses mobile-app sources and logs, drives devices through a JSON-RPC daemon, and ships a
mock banking backend for its demo app. This project models the parts of it whose correctness rests on
an argument longer than one function body, and proves that argument for every input, every run or every
interleaving.

`dafny verify dfyconfig.toml` checks the whole project.

| file | what it models | main theorems |
|---|---|---|
| Brackets, Scope | brace matching of `_scope.py` | the stack of `enclosing_block` is the set of unmatched openers; blocks form a laminar family; the early break of `enclosing_declaration` never changes its answer |
| NestingHeuristic | `_brace_nesting` | the clamped counter computes a maximum-substring sum |
| PyAst, NativeMetrics, AstAnalyzer | the two complexity analyzers | both cyclomatic counts are one structural sum; tight bounds for cognitive complexity; the two cognitive scores differ by an exact correction if and only if no `with` or `async for` occurs |
| Regex, LogPatterns, LogRoundTrip, LogAnalyzer | log normalisation and the pattern generator | the generated text compiles, and matches the original message back if and only if that message held no literal placeholder |
| ApiAnalyzer | endpoint normalisation | normal form and idempotence for every URL; two passes equal one reading |
| AndroidScan | `_is_preview`, `_extract_function_signature` | whatever the line breaks, the upward line scan answers whether one of the annotations is `@Preview`; exactly which wrapped annotations it does not read as one |
| StableSort, Selector | `generate_selector` | the first smallest element under the tap that yields a locator |
| AdbText | `_encode_adb_text` | the shell reads exactly one word; typing gives the text back if and only if it holds no `%s` |
| Transport | the io lock | whole lines per transport in every interleaving of any number of threads |
| LogStream | the device-log stream and its pump | a detached stream never says "ended", an attached one says it once and last; no process leaks |
| JsonRpc | requests and sessions | a session is live if and only if a line started it and no later line stopped it; one driver per session, quit once; exactly one of result and error per line |
| Ledger | balances and transactions | replaying the log gives the balances; the exact condition under which an exchange keeps them non-negative |
| VisualDiff, VisualAnalyzer | screenshot comparison | histogram form equals pixel sum; the percentage is zero exactly when no region is reported; the region is the tightest |

Code that works by updating variables is a method with loops or a class whose methods are proved
against functions of the old state; code made of expressions is functions. Threads are a step function
over events, and a theorem about "every run" quantifies over every sequence of enabled events.
`Wrappers` and `Text` hold the optional type and the string helpers.

Python's `\d`, `\w` and `str.strip` follow Unicode tables that change between releases. They appear as a
parameter of type `CharTable`: any table that agrees with ASCII on ASCII.

## Where the code and its description differ

The model follows the code.

- `_normalize_message` announces passes for hexadecimal addresses and times. Every digit has been
  replaced before they run, so they never find anything (`LogRoundTrip.AddressAndTimePassesAreIdle`).
- `_create_regex` is meant to match the messages of its group. It fails on exactly the messages that
  contain `{number}`, `{hex}`, `{time}` or `{uuid}` literally (`LogRoundTrip.RegexMatchesBack`).
- `_is_preview` promises to read a wrapped annotation as one. It does so exactly when the last line of the
  annotation does not itself start with `@` (`AndroidScan.SpreadReadWhole`, with a counterexample in
  `AndroidScan.AnnotationOnLastLineHidesPreview`).
- `exchange_currency` accepts negative amounts and can then leave a negative balance
  (`Ledger.NegativeExchangeAccepted`; the exact condition is in `Ledger.NonNegativeIffSafe`).
- The daemon answers JSON-RPC notifications too, and drops a known id when the method name is a list or an
  object or when the answer cannot be serialised (`JsonRpc.ResponseId`).
- `session/stop` answers "stopped" for an id that was never started or was stopped before; the other
  session methods refuse it (`JsonRpc.UnknownSessionRejected`).

## Model

| member | source | states |
|---|---|---|
| `Scope.BlockAfter` | framework/analyzers/_scope.py:20-35 | None exactly if no opening brace stands at or after the position; else the first one there, with the depth counted from it positive up to the close, and the close the closer that brings it to zero or the end of a text in which none does |
| `Scope.BlockUnique` | framework/analyzers/_scope.py:20-35 | only one block has that description |
| `Brackets.DepthIsCounts` | framework/analyzers/_scope.py:27-34 | the depth of a stretch is how often its openers occur in it less how often its closers do, for braces, for parentheses and for both |
| `Scope.EnclosingBlock` | framework/analyzers/_scope.py:38-51 | for every text and every position (clamped to the text): the greatest opener before it whose block closes at or after it, with that close; None exactly when there is no such opener |
| `Scope.UnmatchedIffOpen` | framework/analyzers/_scope.py:38-51 | an opener is unmatched at a position exactly if it stands before it and the depth counted from it has not returned to zero |
| `Scope.PushKeepsStack` | framework/analyzers/_scope.py:45-46 | pushing at an opening brace keeps the stack equal to the ordered set of unmatched openers, each at its own depth |
| `Scope.PopKeepsStack` | framework/analyzers/_scope.py:47-48 | popping at a closing brace removes exactly the opener it matches |
| `Scope.SkipKeepsStack` | framework/analyzers/_scope.py:47-48 | any other character, and a closer with nothing open, changes no opener's status |
| `Scope.EnclosingDeclaration` | framework/analyzers/_scope.py:54-69 | over all matches, including those behind the break: the name of the match whose body, described as above, contains the position and opens last, the earliest such match on a tie; None if no body contains it |
| `Scope.LaterMatchesMiss` | framework/analyzers/_scope.py:64-65 | no match from the first one starting after the position on has a block that contains it |
| `Scope.ParenClose` | framework/analyzers/_scope.py:79-90 | the first closing parenthesis at which the depth counted from the position is zero, else the end of the text |
| `Scope.BlockShape` | framework/analyzers/_scope.py:20-35 | every proper non-empty prefix of a block has positive depth, a matched block ends in a brace at depth zero, and a block runs to the end of the text exactly when its depth never returns to zero |
| `Scope.Laminar` | framework/analyzers/_scope.py:20-35 | two blocks of any text are disjoint or nested, and a block inside a matched one ends strictly earlier |
| `Scope.BlockTextBalanced` | framework/analyzers/_scope.py:72-76 | the text of a matched block starts and ends with its braces, is balanced, and no proper prefix of it is |
| `Scope.DeclarationHoldsInnermostBlock` | framework/analyzers/_scope.py:38-69 | the innermost block around a position lies within the block of any declaration found around it |
| `NestingHeuristic.BraceNesting` | framework/analyzers/native.py:312-320 | the result is the maximum, over all substrings, of openers minus closers |
| `NestingHeuristic.SuffixStep` | framework/analyzers/native.py:315-319 | clamping the counter at zero keeps it the maximum over all suffixes of the text read so far |
| `NestingHeuristic.BalancedNesting` | framework/analyzers/native.py:312-320 | where no closer lacks its opener the result is the greatest prefix depth |
| `NestingHeuristic.NestingIsDeepestClimb` | framework/analyzers/native.py:312-320 | in general it is the largest rise of the prefix depth, at least the greatest prefix depth, and larger only if some prefix goes below zero |
| `PyAst.Walk` | framework/analyzers/native.py:241 | the worklist loop of `ast.walk` ends and yields the tree in breadth-first order |
| `PyAst.WalkVisitsOnce` | framework/analyzers/native.py:241 | that order is a rearrangement of the preorder list: every node exactly once |
| `PyAst.WalkIsClosed` | framework/analyzers/native.py:241 | the walk reaches the root and every child of a node it reaches |
| `PyAst.WalkTotals` | framework/analyzers/native.py:241-251 | adding up along the walk equals the structural recursion over the tree |
| `PyAst.DecisionsAreCounts` | framework/analyzers/native.py:241-247 | what is counted is the number of If, While, For, AsyncFor and ExceptHandler nodes plus the extra operands of the BoolOps |
| `PyAst.NestingIsDeepestPath` | framework/analyzers/native.py:267-275 | nesting is the greatest number of nodes of the kinds on a path from the root down, over all paths |
| `NativeMetrics.Cyclomatic` | framework/analyzers/native.py:238-251 | one plus the number of If, While, For, AsyncFor and ExceptHandler nodes plus the extra operands of the BoolOps; the number of functions and of classes |
| `NativeMetrics.NestingDepth` | framework/analyzers/native.py:268-273 | the given depth plus the greatest number of nesting nodes on a downward path |
| `NativeMetrics.MaxNesting` | framework/analyzers/native.py:267-275 | the greatest number of nesting nodes on a downward path below the root |
| `NativeMetrics.CognitiveCounter.Visit` | framework/analyzers/native.py:282-289 | adds to the shared total the sum of the levels of all nesting nodes below the node |
| `NativeMetrics.Cognitive` | framework/analyzers/native.py:278-292 | the result is the sum, over the nesting nodes, of their nesting level |
| `NativeMetrics.LevelsCountHolders` | framework/analyzers/native.py:278-292 | that sum is also, over all nesting nodes, the number of nesting nodes each one holds, itself included |
| `NativeMetrics.LevelsRange` | framework/analyzers/native.py:267-292 | there is one level per nesting node, and the levels that occur are exactly 1 up to the maximum nesting |
| `NativeMetrics.CognitiveBounds` | framework/analyzers/native.py:267-292 | with N nesting nodes and depth m: m(m+1)/2 + (N-m) <= cognitive <= m(m+1)/2 + m(N-m), which is at most N m and at most N(N+1)/2 |
| `NativeMetrics.TriangleClosed` | framework/analyzers/native.py:278-292 | the triangle numbers in those bounds are n(n+1)/2 |
| `NativeMetrics.CognitiveBoundsAttained` | framework/analyzers/native.py:267-292 | for every depth m >= 1 and every N >= m both bounds are reached by some tree |
| `AstAnalyzer.CalculateComplexity` | framework/analyzers/ast_analyzer.py:182-194 | the same counts, and so the same number as the native one, on every tree |
| `AstAnalyzer.CognitiveWalk` | framework/analyzers/ast_analyzer.py:199-213 | the loop inside the recursion computes the structural score |
| `AstAnalyzer.CalculateCognitiveComplexity` | framework/analyzers/ast_analyzer.py:196-215 | the structural score of the function at depth zero |
| `AstAnalyzer.DepthWalk` | framework/analyzers/ast_analyzer.py:220-231 | the current depth plus the deepest nesting below the node |
| `AstAnalyzer.CalculateNestedDepth` | framework/analyzers/ast_analyzer.py:217-233 | the greatest number of if, for, while, try and with nodes on a downward path |
| `AstAnalyzer.ChildScoresAreLevels` | framework/analyzers/ast_analyzer.py:199-213 | on every forest the score is the sum of the levels of the charged nodes, plus one for each of them, plus the extra operands of the BoolOps |
| `AstAnalyzer.CognitiveScoresCompared` | framework/analyzers/ast_analyzer.py:196-215 | for an uncharged root the score equals native cognitive plus nesting nodes plus extra operands if and only if no With, AsyncWith or AsyncFor occurs below it, and is never larger |
| `AstAnalyzer.NestingDepthsCompared` | framework/analyzers/ast_analyzer.py:217-233 | the two nesting depths agree where no AsyncFor or AsyncWith occurs, and the native one is never smaller |
| `AstAnalyzer.ComplexityAdditive` | framework/analyzers/ast_analyzer.py:182-194 | complexity less one is what the node adds plus complexity less one of each child subtree |
| `AndroidScan.IsPreview` | framework/analyzers/android_analyzer.py:191-234 | the answer is that of the scan over the split text before the composable |
| `AndroidScan.SplitUnlines` | framework/analyzers/android_analyzer.py:211 | splitting a text put together from lines and line breaks (a carriage return and a newline count as one) gives back the lines |
| `AndroidScan.EveryTextIsLines` | framework/analyzers/android_analyzer.py:211 | every text is put together like that, so nothing is left open about the split |
| `AndroidScan.LookMeans` | framework/analyzers/android_analyzer.py:212-226 | what the scan takes from a line: whether all of it is white space, whether its first other character is @, whether the word @Preview stands there, and how often each parenthesis occurs |
| `Text.StripTrims` | framework/analyzers/android_analyzer.py:212 | stripping cuts white space at both ends, all of it and nothing else |
| `AndroidScan.ScanLines` | framework/analyzers/android_analyzer.py:210-234 | the loop with its depth counter is the structural scan from the last line upwards |
| `AndroidScan.PreviewIffAnnotated` | framework/analyzers/android_analyzer.py:191-234 | for every block of annotations, each on one line or spread over several, below anything that ends the block: the scan is true exactly when one of them is @Preview |
| `AndroidScan.PreviewInText` | framework/analyzers/android_analyzer.py:191-234 | the same for the text itself: whatever its line breaks, the answer is true exactly when one of the annotations its lines show is @Preview |
| `AndroidScan.StopsScan` | framework/analyzers/android_analyzer.py:220-230 | a line of code, or a multi-line call whose first line is not an annotation, stops the scan |
| `AndroidScan.SpreadIsOne` | framework/analyzers/android_analyzer.py:216-229 | a spread call is decided by its first line alone |
| `AndroidScan.SpreadReadWhole` | framework/analyzers/android_analyzer.py:205-208 | a spread call is read as one thing if and only if its last line does not start with an annotation |
| `AndroidScan.ScanByHeads` | framework/analyzers/android_analyzer.py:211-234 | for every list of lines the scan is the same as reading one thing after another, each judged by its first line |
| `AndroidScan.AnnotationOnLastLineHidesPreview` | framework/analyzers/android_analyzer.py:226-232 | a concrete wrapped @Preview whose last line starts with another annotation is missed |
| `AndroidScan.ExtractFunctionSignature` | framework/analyzers/android_analyzer.py:400-415 | the window up to the first parenthesis that closes, or all of it |
| `AndroidScan.SignatureIsCallText` | framework/analyzers/android_analyzer.py:400-415 | it is the call text that `paren_close` delimits in the whole source whenever that fits in 200 characters, else the window |
| `Regex.MatchLenIsLongest` | framework/api_analyzer/api_log_analyzer.py:403-412 | for patterns of the substituted kind the greedy match is the longest matching prefix, and fails only if no prefix matches |
| `Regex.ClassMembers` | framework/api_analyzer/api_log_analyzer.py:403-412 | the characters each class of the patterns contains |
| `LogRoundTrip.NormalizeByPieces` | framework/api_analyzer/api_log_analyzer.py:400-414 | the four passes in sequence equal one left-to-right reading that replaces digit runs and digit-free UUID-like runs |
| `LogRoundTrip.AddressAndTimePassesAreIdle` | framework/api_analyzer/api_log_analyzer.py:405-409 | the address and the time pass change no message |
| `LogRoundTrip.NormalizeMessageIdempotent` | framework/api_analyzer/api_log_analyzer.py:400-414 | normalising twice is normalising once, and no digit is left |
| `LogRoundTrip.NormalizeHead` | framework/api_analyzer/api_log_analyzer.py:400-414 | at the head of a message a run of digits becomes {number}, a digit-free UUID becomes {uuid}, and any other character stands; this determines the normal form of every message |
| `LogRoundTrip.NormalizeFixedIff` | framework/api_analyzer/api_log_analyzer.py:400-414 | no digit and no UUID is left anywhere, and a message is left as it is if and only if it holds neither |
| `LogPatterns.CreateRegexIsRender` | framework/api_analyzer/api_log_analyzer.py:416-427 | escaping and the four string replacements replace exactly the placeholders, each by its own pattern |
| `LogPatterns.CreateRegexCompiles` | framework/api_analyzer/api_log_analyzer.py:416-427 | the generated text compiles, for every input, to the literal characters and the slot patterns of the normalised message |
| `LogPatterns.SlotLanguage` | framework/api_analyzer/api_log_analyzer.py:403-427 | which texts each of the four patterns matches as a whole |
| `LogRoundTrip.RegexMatchesBack` | framework/api_analyzer/api_log_analyzer.py:400-427 | the pattern made from a message's normal form matches the whole message if and only if the message contains none of the four placeholders |
| `Text.OccursIff` | framework/api_analyzer/api_log_analyzer.py:421-426 | occurring means standing at some position of the text |
| `LogAnalyzer.GroupLogs` | framework/api_analyzer/api_log_analyzer.py:316-321 | the dictionary holds, for each normal form, exactly its logs in order, with the keys in order of first occurrence |
| `LogAnalyzer.GroupFilters` | framework/api_analyzer/api_log_analyzer.py:316-321 | a group holds each log with that normal form as often as it was logged, in order, and no other |
| `LogAnalyzer.FirstSeenInOrder` | framework/api_analyzer/api_log_analyzer.py:316-321 | of two normal forms the one listed first occurs in the log before the other does |
| `LogAnalyzer.FrequentGroups` | framework/api_analyzer/api_log_analyzer.py:323-337 | one entry for each frequent normal form, in that order |
| `LogAnalyzer.EntriesDescribe` | framework/api_analyzer/api_log_analyzer.py:323-337 | those entries are exactly the frequent normal forms, none twice, each with the size of its group, its first messages (three, or all if fewer), the level of its first log, its generated pattern and whether it reads like an error |
| `LogAnalyzer.Analyzer.AddLog` | framework/api_analyzer/api_log_analyzer.py:297-299 | appends the log and leaves the patterns |
| `LogAnalyzer.Analyzer.DetectPatterns` | framework/api_analyzer/api_log_analyzer.py:305-343 | stores and returns exactly one pattern per frequent normal form, by falling count, equal counts in order of first occurrence |
| `LogAnalyzer.PatternMatchesItsGroup` | framework/api_analyzer/api_log_analyzer.py:305-343 | the regex reported for a group matches exactly those of its messages that contain no literal placeholder |
| `ApiAnalyzer.CutQuery` | framework/api_analyzer/api_log_analyzer.py:241 | the longest prefix without a question mark |
| `ApiAnalyzer.EndpointIsNormal` | framework/api_analyzer/api_log_analyzer.py:238-247 | for every URL no question mark, no slash before a digit and no slash before 36 characters of a UUID is left |
| `ApiAnalyzer.EndpointIdempotent` | framework/api_analyzer/api_log_analyzer.py:238-247 | a URL is left unchanged exactly when it has that form, so normalising twice is normalising once |
| `ApiAnalyzer.PassesAreOneReading` | framework/api_analyzer/api_log_analyzer.py:243-245 | the two substitutions in sequence equal one reading of the path |
| `ApiAnalyzer.SegmentReplaced` | framework/api_analyzer/api_log_analyzer.py:238-247 | a path segment of digits becomes {id}, one that spells a UUID becomes {uuid}, and what stands before its slash is copied |
| `ApiAnalyzer.Analyzer.AddApiCall` | framework/api_analyzer/api_log_analyzer.py:114-120 | appends the call and keeps the index by screen equal to the filtered call list |
| `ApiAnalyzer.FromScreenFilters` | framework/api_analyzer/api_log_analyzer.py:114-120 | the index lists each call made from the screen as often as it was recorded, in order, and no other |
| `ApiAnalyzer.Analyzer.CorrelateWithUi` | framework/api_analyzer/api_log_analyzer.py:234-236 | exactly the calls recorded from that screen, in order |
| `StableSort.SortBySorts` | framework/api_analyzer/api_log_analyzer.py:340 | the sort is ascending by key and keeps the order among equal keys |
| `StableSort.StableSortUnique` | framework/api_analyzer/api_log_analyzer.py:340 | those two properties determine the result, so this is what `list.sort` returns |
| `StableSort.SortedScanFindsSmallest` | framework/cli/daemon_commands.py:122-127 | scanning the sorted list for a property finds the first of the smallest elements that have it |
| `Selector.FirstLocated` | framework/cli/daemon_commands.py:123-127 | the first candidate that yields a locator |
| `Selector.GenerateSelector` | framework/cli/daemon_commands.py:96-154 | at a point: the first smallest element there that yields a locator, else the first smallest element there, not found, else nothing, smallest by width times height and with both edges inside; for a given element: itself; an error exactly when neither form is given |
| `Selector.ScanContained` | framework/cli/daemon_commands.py:121-127 | filtering by the point, sorting by area and scanning is choosing the first smallest qualifying element of the whole list |
| `Selector.ChoiceIsSmallest` | framework/cli/daemon_commands.py:117-127 | the chosen bounds hold the point, and no other element whose bounds do (and that yields a locator, if the chosen one does) has a smaller width times height |
| `AdbText.EncodedIsOneWord` | framework/cli/daemon_commands.py:661-673 | read by the shell's quoting rules the token is exactly one word, without a space: the text itself if it holds no space, else with each one written %s |
| `AdbText.SpacesBecomePercentS` | framework/cli/daemon_commands.py:672 | no space is left, text without a space is kept, and the space between two texts becomes %s |
| `AdbText.CommandLineWords` | framework/cli/daemon_commands.py:723 | the command line handed to the device is read as the three words input, text and that one |
| `AdbText.DecodeOfSpaces` | framework/cli/daemon_commands.py:672 | decoding the encoded text gives what decoding the text itself would |
| `AdbText.RoundTrip` | framework/cli/daemon_commands.py:661-673 | the typed text is the original if and only if it contains no literal %s |
| `Transport.StepKeepsInv` | framework/cli/daemon_commands.py:780-792 | every step of every thread keeps each sound transport equal to whole lines plus the holder's partial line |
| `Transport.OwnOrder` | framework/cli/daemon_commands.py:780-792 | each thread's messages are written in the order in which it sent them |
| `Transport.WholeLinesWhenFree` | framework/cli/daemon_commands.py:953-967 | in every interleaving, whenever the lock is free, a reader of a transport on which no write failed recovers exactly the messages written to it, none split, and no thread has a message missing or out of order |
| `Transport.StdioGetsEverything` | framework/cli/daemon_commands.py:953-967 | without connections every message of every thread goes to stdout |
| `Transport.ClientGetsItsMessages` | framework/cli/daemon_commands.py:986-1004 | while a client stays connected every response and notification goes to it, except at most one already on its way when it connected |
| `Transport.ReaderSeesWholeMessages` | framework/cli/daemon_commands.py:969-1012 | at any moment a reader sees the completed messages and at most the one being written |
| `Transport.SinksFollowConnections` | framework/cli/daemon_commands.py:986-1012 | in every run responses go to the client that connected last, and notifications to it until it disconnects and to stdout from then on |
| `Transport.Delivers` | framework/cli/daemon_commands.py:780-792 | from any state with a free lock any thread can deliver a message: its whole line reaches the transport it has to go to, wherever the write is cut, and no other one |
| `Transport.Progress` | framework/cli/daemon_commands.py:780-792 | no deadlock: a free lock can be taken, and the holder can always write on or leave |
| `LogStream.LogOwner.StopLogStream` | framework/cli/daemon_commands.py:909-924 | the stream is detached, its process terminated, and no pump or emitted line touched |
| `LogStream.LogOwner.HandleLogsStart` | framework/cli/daemon_commands.py:814-880 | without a device nothing changes; otherwise the old stream is stopped first, the new one attached exactly if its process survives, and none left attached if it does not |
| `LogStream.StreamShows` | framework/cli/daemon_commands.py:852-877 | in every run what a stream has shown and is about to show is its own lines in order and then, exactly if its end was seen while attached, one closing note |
| `LogStream.DetachedNeverEnds` | framework/cli/daemon_commands.py:864-877 | a stream detached before its end was seen never emits the closing note, whatever happens later |
| `LogStream.FinishedStream` | framework/cli/daemon_commands.py:852-877 | a finished stream has emitted all its lines and then, exactly if it was attached at its end, one closing note |
| `LogStream.PumpGoesOn` | framework/cli/daemon_commands.py:852-877 | a pump that is not over always has a next step, and a line it reads comes out under its own stream with the newlines cut off |
| `LogStream.StartedIsAttachedOrTerminated` | framework/cli/daemon_commands.py:909-924 | in every run each started stream is the attached one or was terminated exactly once |
| `JsonRpc.Server.SessionDriver` | framework/cli/daemon_commands.py:440-465 | the cached driver and no change, or a new one that is then cached and recorded; a failing constructor changes nothing |
| `JsonRpc.Server.HandleSessionStart` | framework/cli/daemon_commands.py:478-532 | a failed preflight stores nothing; otherwise the new id is answered and stored with its platform and without a driver, and nothing else changes |
| `JsonRpc.StartLineStarts` | framework/cli/daemon_commands.py:478-532 | processing a session/start line whose preflight passes makes the answered id live, without a driver |
| `JsonRpc.Server.HandleSessionStop` | framework/cli/daemon_commands.py:534-547 | a session named by the request leaves the map and its cached driver is quit exactly if it can be; nothing else changes, and the answer is "stopped" either way |
| `JsonRpc.StopLineStops` | framework/cli/daemon_commands.py:534-547 | processing a session/stop line for a live id removes that session and no other and quits its driver if that can quit |
| `JsonRpc.Server.HandleUseSession` | framework/cli/daemon_commands.py:609-650 | an unknown session or a missing coordinate is refused without effect; otherwise a driver is built exactly for the tree, or for a tap, swipe or text on iOS, when none is cached and the constructor succeeds |
| `JsonRpc.UseLineBuilds` | framework/cli/daemon_commands.py:440-465 | processing a line that uses a live session builds its driver exactly when one is needed and missing, and changes nothing else |
| `JsonRpc.Server.Handle` | framework/cli/daemon_commands.py:726-766 | the version check, the method check, the handler and its exceptions, in that order |
| `JsonRpc.Server.Process` | framework/cli/daemon_commands.py:930-951 | the framing: blank, too long, unparsable, and handled lines |
| `JsonRpc.RunKeepsInv` | framework/cli/daemon_commands.py:440-547 | over every run each driver belongs to one session, is the cached one while it lives, and has been quit once it is stopped if it can be |
| `JsonRpc.OneDriverQuitOnce` | framework/cli/daemon_commands.py:440-547 | in every run a session builds at most one driver, and that driver has had `quit` called exactly once if it can quit and its session is stopped, and never otherwise |
| `JsonRpc.LiveIffStartedNotStopped` | framework/cli/daemon_commands.py:478-547 | in every run a session is live if and only if some line started it and no later line stopped it |
| `JsonRpc.StopLineEndsSession` | framework/cli/daemon_commands.py:467-650 | after the line that stops a live session, for ever: it is gone, its driver has had `quit` called exactly once if it can quit, and every use of its id is refused without effect |
| `JsonRpc.StoppedStaysStopped` | framework/cli/daemon_commands.py:534-547 | a stopped id never comes back |
| `JsonRpc.StoppedIdRejected` | framework/cli/daemon_commands.py:467-650 | after a stop every later use of the id is refused and changes nothing, whatever came in between |
| `JsonRpc.UnknownSessionRejected` | framework/cli/daemon_commands.py:471-473 | using an unknown id changes nothing and is refused by every session method except stop |
| `JsonRpc.OneResponsePerLine` | framework/cli/daemon_commands.py:930-951 | no response exactly for a blank line; otherwise one response with exactly one of result and error |
| `JsonRpc.ErrorCodes` | framework/cli/daemon_commands.py:726-766 | exactly which lines are answered with -32700, with -32600 and with -32601; every other error is -32603 |
| `JsonRpc.ResponseId` | framework/cli/daemon_commands.py:930-951 | the response carries the request's id, or null in exactly the listed cases |
| `Ledger.RoundHalfEven` | demo-app/mock-backend/main.py:567 | the nearest integer, and the even one for a half |
| `Ledger.RoundIsNearest` | demo-app/mock-backend/main.py:567 | rounding moves an amount by at most half a cent, to whole cents, and leaves whole cents alone |
| `Ledger.GetExchangeRate` | demo-app/mock-backend/main.py:330-339 | the quoted rate; else one over the rate quoted in the other direction; else one |
| `Ledger.SampleRates` | demo-app/mock-backend/main.py:206-210 | a quoted, an inverted and an unquoted rate |
| `Ledger.RatesReciprocal` | demo-app/mock-backend/main.py:330-339 | the rates of two directions multiply to one unless both directions are quoted |
| `Ledger.Bank.CreateTransaction` | demo-app/mock-backend/main.py:298-309 | the transaction goes in front of the log |
| `Ledger.Bank.AddCurrencyAccount` | demo-app/mock-backend/main.py:507-523 | refused without effect for an unknown user or an existing account, else opened at zero and nothing logged |
| `Ledger.Bank.TopUp` | demo-app/mock-backend/main.py:677-706 | the exact refusals, without effect; else the named balance grows by the amount, no other account changes, and the transaction is logged |
| `Ledger.Bank.SendMoney` | demo-app/mock-backend/main.py:709-745 | the exact refusals, without effect; else the named balance falls by the amount, no other account changes, and the transaction is logged |
| `Ledger.Bank.ExchangeCurrency` | demo-app/mock-backend/main.py:548-599 | the exact refusals, without effect; else the source falls by the amount and the target, opened at zero if missing, grows by the product with the rate rounded to cents, also when both are one account |
| `Ledger.ReplaysCompose` | demo-app/mock-backend/main.py:295-309 | replaying composes along a run |
| `Ledger.RunReplays` | demo-app/mock-backend/main.py:507-745 | after every run each balance is its starting value plus the replay of the transactions logged since, older entries are untouched and no account is lost |
| `Ledger.NonNegativeIffSafe` | demo-app/mock-backend/main.py:548-745 | a request keeps every non-negative ledger non-negative if and only if it is safe: always, except for an exchange whose rounded credit is too small |
| `Ledger.AmountsSafe` | demo-app/mock-backend/main.py:566-578 | an exchange of a non-negative amount is safe |
| `Ledger.RunNonNegative` | demo-app/mock-backend/main.py:548-745 | balances stay non-negative over every run whose exchanges are safe, whatever the other amounts |
| `Ledger.NegativeExchangeAccepted` | demo-app/mock-backend/main.py:558-578 | a concrete negative exchange is accepted and leaves a negative balance |
| `VisualDiff.HistogramIsPixelSum` | framework/analysis/visual_analyzer.py:123-125 | the weighted sum over the 768 bins equals the per-pixel sum of absolute channel differences |
| `VisualDiff.PercentageIsMeanDifference` | framework/analysis/visual_analyzer.py:106-130 | the percentage is the sum of the absolute differences of the two images over pixels times 3 times 255, and zero for an image without pixels |
| `VisualDiff.PercentageAndRegions` | framework/analysis/visual_analyzer.py:106-150 | the percentage is the mean difference, lies in [0, 100] without the clamp, and is zero exactly when no region is reported |
| `VisualDiff.ZeroIffIdentical` | framework/analysis/visual_analyzer.py:106-130 | two images of one size score zero if and only if they are identical |
| `VisualDiff.HundredIffOpposite` | framework/analysis/visual_analyzer.py:126-127 | it is a hundred if and only if there is a pixel and all of them differ by 255 in every channel |
| `VisualDiff.BoxIsTight` | framework/analysis/visual_analyzer.py:143-147 | there is no box exactly when nothing changed; otherwise it covers every changed pixel and each side touches one |
| `VisualDiff.BoxIsSmallest` | framework/analysis/visual_analyzer.py:143-147 | every box that covers all changed pixels contains it |
| `VisualDiff.RegionIsTightest` | framework/analysis/visual_analyzer.py:143-147 | the single region, as position and size, covers every differing pixel and lies in every box that does |
| `VisualAnalyzer.Analyzer.CompareScreenshots` | framework/analysis/visual_analyzer.py:62-104 | a missing baseline is created and nothing recorded; a missing screenshot records nothing; otherwise the comparison of the two images, the screenshot resized if need be, is recorded (zero and no region for an unreadable file), and among the regressions exactly if its percentage is above threshold times 100 |
| `VisualAnalyzer.Analyzer.BatchCompare` | framework/analysis/visual_analyzer.py:169-189 | the returned regressions are exactly those added to the list |
| `VisualAnalyzer.Analyzer.Counts` | framework/analysis/visual_analyzer.py:289-290 | the failed count of the report is the number of recorded regressions |
| `VisualAnalyzer.PassedAndFailed` | framework/analysis/visual_analyzer.py:286-290 | comparisons less matches are the regressions |
| `VisualAnalyzer.RegressionsFilter` | framework/analysis/visual_analyzer.py:28-30 | the regressions are the comparisons above their threshold, each as often as it was made, in order |
| `VisualAnalyzer.ComparedConsistent` | framework/analysis/visual_analyzer.py:87-89 | also for unreadable or resized files, a percentage is reported exactly when a region is |
| `VisualAnalyzer.FreshBaselineMatches` | framework/analysis/visual_analyzer.py:76-98 | a screen compared with the file its baseline was made from never regresses |

## Left out

- Devices, adb, simctl, Appium, processes, sockets and files: they are events and inputs of the model, with any outcome.
- Rust core and tree-sitter results: only the Python fallbacks are modelled; mobiscout_core is not part of this model.
- Full Python regex semantics: `Regex` covers sequences of character classes with fixed or one-or-more repetition, which is all that the modelled patterns use. Case-insensitive error words in `detect_patterns` are a parameter.
- JSON and PNG decoding: `loads` is an arbitrary function; images are already decoded. Pillow's `difference`, `histogram`, `getbbox` and `resize` are modelled by their documented results.
- IEEE floating point in the ledger and the image metric: real arithmetic is used, so the ledger theorems do not bound representation error. `round` is half-to-even on exact values.
- Delivery of late log lines to a following TCP client: notifications go to whatever sink is set when the lock is held; the theorems claim whole lines per transport only, and none for a transport on which a write failed.
- Transport.WholeLinesWhenFree: does not prove that `json.dumps` emits no newline, because the encoder is outside the model; it is a guard of the Acquire event.
- JsonRpc.RunKeepsInv: takes the uniqueness of uuid4 ids as a condition on runs, because the generator is outside the model.
- JsonRpc.Server.Process: does not model what the 21 methods that never touch a session compute; each may have any outcome.
- LogStream.LogOwner.StopLogStream: does not model waiting for and killing a process that ignores termination.
- Braces and parentheses inside string literals and comments count as brackets, as they do in the code.
- Tokens, passwords, registration, cards, contacts and KYC of the mock backend: endpoints take the user id directly, where the code always uses one user. The first five mock transactions are part of an arbitrary starting log.
- Android regex detectors, the file walk and iOS analyzers: pattern matching without further structure; `_is_preview` and `_extract_function_signature` are the only detectors' helpers kept.
- Locator ranking in `generate_selector`: whether an element yields a locator is a parameter.
- Command-line output, reports, training scripts and CI templates: presentation and fixed data.
