# Verified core of sacr

sacr is a Go program that reviews changes: it drives conversations with a language model over the files of
a change, places the resulting comments on lines, remembers findings between runs and keeps an index of the
code base. This project models the parts of it whose correctness does not show in any single function, and
proves what they promise. `dafny verify dfyconfig.toml` checks all of it.

**The review conversation** (`Conversation`, `ReviewLoop`, `ReviewLoopJobs`, `ReviewLoopShape`,
`ReviewLoopLimits`, `ReviewLoopHistory`, `ReviewLoopMemory`, `ReviewRunner`, `SharedRunner`). A conversation grows round by round while a background
goroutine may be summarising a snapshot of it. `ReviewLoop` is a transition system whose steps are the critical sections,
requests and replies; the theorems hold of every sequence of events, so of every interleaving and every
behaviour of the model and the tools. `ReviewRunner` is the program's own form, a class whose methods update
fields with other goroutines running in between, and every run of it is a run of that system.
`ReviewLoopHistory` reads what a run owes to its replies and tools off the events alone, `ReviewLoopMemory`
what becomes of the live conversation. `SharedRunner` interleaves any number of conversations. `transcript`
is the conversation as it would be without compression.

**The worker pool** (`WorkerPool`). A semaphore, one wait group for the pool and one for each key, and units
of work that may panic; again a transition system and a class that refines it.

**Repair of malformed JSON** (`JsonLexer`, `CommentRepair`, `LoneBackslashes`, `JsonTexts`). A strict reader
after section 7 of RFC 8259, a lenient one that says what a damaged text means, and the two repairs that
connect them; and a printer of JSON values in any spacing, which the repairs leave alone and whose damage they
undo.

**Chunking** (`Chunker`). First fit, with its bound against every packing.

**Diffs** (`TextLines`, `DiffHunks`, `DiffParser`, `GitDiffs`, `UntrackedDiffs`, `LineResolver`,
`LineAddresses`, `LineQuotes`). Two parsers that read the same text, printers for what git prints and for
untracked files, and the placing of comments. What ties them together is what it means for hunks to turn one
file into another, and for a line to show what was quoted.

**The index** (`TextOrder`, `SummaryTables`, `BlastRadius`, `Utf8`, `IndexCache`, `IndexRunner`). Tables that
refine a map of summaries, a cache guarded by content hashes under failing and reordered batches, and a two-level
walk over the call graph.

**State across runs** (`Carryover`, `CommentMarkers`). Findings kept, carried and resolved, and their
recovery from markers in posted comments.

**Rust use-trees** (`RustUse`, `RustUseTrees`, `RustUsePaths`). A flattener, and exactly when it undoes a
printer.

`Options`, `Sequences` and `Strings` are shared vocabulary.

Where the code differs from its comments, the model follows the code:

- When every round fits the active zone, `partitionMessages` keeps none and the caller summarises the whole
  conversation (`Conversation.ZonesUseTheBudget`).
- Without a compression template the conversation is cut down to its first two messages
  (`Conversation.RunCompression`).
- The header printed for an empty untracked file names line 1 of a side without lines, so the diff does not
  apply (`LineAddresses.UntrackedTransforms`).
- A line that only looks like a hunk header, or a file header with quoted paths, makes the file parser count
  lines that the hunk parser does not list (`DiffParser.CountsOfSection` gives the exact difference). The
  program has git print paths that are not ASCII unquoted; paths with a quote, a backslash or a control
  character are still quoted (`DiffParser.StrayLineIsCounted` is such a diff).
- The content hash is taken of the text with invalid UTF-8 replaced, the limit for trivial files of the raw
  one. A file that crosses the limit as a broken byte becomes U+FFFD counts as unchanged and keeps its empty
  summary (`IndexCache.GrownFileKeepsEmptySummary`); `IndexCache.RightForEveryRequestIff` says that this is
  all that can go wrong.
- A comma behind the last member of a use-tree group adds a path that ends in "::"
  (`RustUsePaths.TrailingCommaAddsPath`; `RustUsePaths.ExpandUndoesPrintIff` says when the flattener is right).

Integers are unbounded where the program counts tokens, lines, bytes and requests. Thresholds that the
program computes in floating point are integer parameters. Characters are Unicode scalar values; byte
scanners work on bytes, and the index counts a file's bytes as the characters of its content.

## Model

| member | source | states |
|---|---|---|
| Conversation.CountMessagesTokens | internal/llmloop/compression.go:76-82 | the token count of a list is the sum over its messages |
| Conversation.GroupIntoRounds | internal/llmloop/compression.go:86-103 | the loops list exactly the rounds: an assistant message with the run of tool results behind it |
| Conversation.RoundsAreRounds | internal/llmloop/compression.go:86-103 | every listed round is one: its tool results are the maximal run behind its assistant message |
| Conversation.RoundsAreOrdered | internal/llmloop/compression.go:86-103 | rounds come in order and none overlaps the next |
| Conversation.RoundsCoverAssistants | internal/llmloop/compression.go:86-103 | no assistant message is left without a round |
| Conversation.CountRoundTokens | internal/llmloop/compression.go:117-120 | a round costs the tokens of its assistant message and all its results |
| Conversation.ComputeActiveZoneSize | internal/llmloop/compression.go:108-128 | the number of newest rounds kept is the largest that fits the budget, none when there is no budget |
| Conversation.ActiveCountUnique | internal/llmloop/compression.go:108-128 | fitting the budget with one more round exceeding it leaves one possible count |
| Conversation.PartitionMessages | internal/llmloop/compression.go:133-164 | the code computes the specified partition, for short conversations as well |
| Conversation.ZonesCover | internal/llmloop/compression.go:133-164 | frozen, compress and active zones lie one behind the other without gap or overlap, and the cut falls on a round boundary or at the end |
| Conversation.ZonesHoldWholeRounds | internal/llmloop/compression.go:133-164 | the last kept rounds lie wholly in the live tail, all others wholly in the compressed zone |
| Conversation.ZonesUseTheBudget | internal/llmloop/compression.go:108-151 | kept rounds fit the budget and one more would not; when every round fits (or there is none) the code keeps none and compresses the whole conversation |
| Conversation.WholeIsCompressedIff | internal/llmloop/compression.go:108-164 | the whole conversation is compressed exactly when every round fits, or when not even the newest one fits and the conversation ends with it |
| Conversation.NextKeptRound | internal/llmloop/compression.go:108-128 | one more kept round is the newest not kept yet and costs the tokens of its assistant message and all the results behind it |
| Conversation.PartitionCuts | internal/llmloop/compression.go:133-164 | the cut is the end of the last round that is not kept, counted in messages, or the end of the conversation when every round fits |
| Conversation.CutIsUnique | internal/llmloop/compression.go:133-164 | which leaves one place for it |
| Conversation.RunCompression | internal/llmloop/compression.go:224-292 | a failed call or an empty text leaves every message where it was, and only the former counts as a failure; a text keeps message 0, message 1 with the tagged text behind its content, and the messages from the cut on; without a template the first two messages alone stay |
| Conversation.CompressedAnswers | internal/llmloop/compression.go:224-292 | the function the loop is modelled with gives that answer to every reply |
| Conversation.AnsweredIsUnique | internal/llmloop/compression.go:224-292 | and there is only one such answer |
| Conversation.CutKeepsShape | internal/llmloop/compression.go:280-292 | dropping the compress zone and adding a summary block leaves message 0, message 1 with blocks appended, and a suffix from a round boundary |
| Conversation.AppendKeepsShape | internal/llmloop/loop.go:652-699 | appending a whole round keeps that shape over the longer transcript |
| Conversation.CompressionKeepsShape | internal/llmloop/compression.go:224-292 | whatever the model answers, compression keeps that shape |
| Conversation.ShapeIsPaired | internal/llmloop/compression.go:86-164 | a conversation of that shape inherits the pairing of tool calls and results from the full transcript |
| ReviewLoopJobs.RunKeepsJobs | internal/llmloop/compression.go:298-386 | in every reachable state the pending slot, the jobs and the background counter are consistent, under every interleaving |
| ReviewLoopJobs.WaitGroupCountsGoroutines | internal/llmloop/compression.go:298-338 | one conversation's share of the wait group is never negative and is zero exactly when none of its job goroutines is live; nothing is pending once RunMainTask has returned |
| ReviewLoopJobs.EachJobHasOneFate | internal/llmloop/compression.go:298-386 | every job leaves the pending slot at most once, applied, cancelled or failed; only a successful one is applied; at most one job is pending |
| ReviewLoopJobs.LateJobsAreInert | internal/llmloop/loop.go:306-309 | after the return no event changes anything but a late goroutine finishing |
| ReviewLoopShape.ConversationAbbreviatesTranscript | internal/llmloop/compression.go:224-386 | in every reachable state the conversation is message 0, message 1 with summary blocks, and a suffix of the full transcript from a round boundary: nothing is lost or reordered |
| ReviewLoopShape.PendingSnapshotIsAPrefix | internal/llmloop/compression.go:298-374 | while a job is pending the live conversation still begins with its snapshot, and what follows is the end of the transcript |
| ReviewLoopShape.SwapKeepsConversation | internal/llmloop/compression.go:343-374 | applying a finished job replaces the snapshot by its summary and keeps everything appended since |
| ReviewLoopShape.EveryRequestIsPaired | internal/llmloop/loop.go:362-456 | every request ever sent has each tool-calling message followed at once by one result per call with the same ids in order, and no orphan result |
| ReviewLoopLimits.RequestBudget | internal/llmloop/loop.go:293-425 | at most MaxToolRequestTimes main requests and one grace request, the latter only once the budget is spent |
| ReviewLoopLimits.StopsForItsCause | internal/llmloop/loop.go:293-425 | each return value is given exactly for its cause, read off the history of the run |
| ReviewLoopLimits.RequestsAfterToolsAreUnderLimit | internal/llmloop/loop.go:652-699 | a request that follows a tool round is under the warning limit, the prompt that the grace round adds to it not counted |
| ReviewLoopHistory.EndsAreHistory | internal/llmloop/loop.go:328-425 | in every run each round has ended as its reply and the answers of its tools say, read off the events alone |
| ReviewLoopHistory.TaskDoneEndsTheLoop | internal/llmloop/loop.go:397-399 | once a tool round has answered task_done and no tool has failed the run is over and completed, and nothing else completes a run |
| ReviewLoopHistory.ErrorsEndTheLoop | internal/llmloop/loop.go:315-399 | a run returns an error exactly when the context was done in front of a request, the model failed or a tool did |
| ReviewLoopHistory.ReturnsForItsHistory | internal/llmloop/loop.go:293-425 | what a run returns, as a function of the answers so far and the size of the conversation |
| ReviewLoopHistory.RunRemembers | internal/llmloop/loop.go:351-395 | the full transcript is the prompt and then, in order, what each reply and its tools said, word for word |
| ReviewLoopMemory.MessagesMove | internal/llmloop/loop.go:351-699 | every step of the machine, by what it does to the live conversation |
| ReviewLoopMemory.RoomIsMade | internal/llmloop/loop.go:652-699 | a finished job is swapped in before a turn is appended; before and behind it a conversation over the limit is summarised, with no job left pending |
| ReviewLoopMemory.RequestsAreSent | internal/llmloop/loop.go:315-332 | the loop asks with the live conversation exactly while the budget lasts, and then once more with the final notice, when there are tools for it |
| ReviewLoopMemory.BudgetIsSpent | internal/llmloop/loop.go:311-332 | a run that returns for the spent budget has ended that many rounds |
| ReviewLoopMemory.RunKeepsResults | internal/llmloop/compression.go:313-337 | in every run a job's result is the answer to its own call on its own snapshot |
| ReviewLoopMemory.PublishesAnswer | internal/llmloop/compression.go:313-337 | a job that comes back while it is pending keeps the answer to its call, or leaves the slot when the call failed; one that has left the slot changes nothing else |
| ReviewLoopMemory.FailedCallsLoseNothing | internal/llmloop/compression.go:258-266 | while summarising calls fail or come back empty, in the foreground or in the background, the conversation is the whole transcript in every state |
| SharedRunner.ConversationsRunAlone | internal/llmloop/loop.go:293-309 | however a Runner interleaves any number of conversations, each is a run of its own events alone |
| SharedRunner.SharedCounterCountsGoroutines | internal/llmloop/loop.go:90-102 | WaitBackground can return exactly when no job goroutine of any conversation the Runner has ever driven is live, those of returned ones included |
| ReviewRunner.Task.PublishJob | internal/llmloop/compression.go:313-337 | the goroutine's critical section moves the fields as the machine says, whatever has happened to its job meanwhile |
| ReviewRunner.Task.JobDone | internal/llmloop/compression.go:310-315 | the goroutine signs off from the wait group |
| ReviewRunner.Task.Others | internal/llmloop/compression.go:313-338 | any number of background steps between two foreground steps keep the fields on a run of the machine and leave every snapshot alone |
| ReviewRunner.Task.CancelPendingCompression | internal/llmloop/compression.go:378-386 | cancelling clears the slot and changes nothing else |
| ReviewRunner.Task.TriggerAsyncCompression | internal/llmloop/compression.go:298-338 | starts exactly one job on a copy of the conversation, and none while one is pending |
| ReviewRunner.Task.TakeSlot | internal/llmloop/compression.go:299-308 | check and set of the pending slot in one critical section |
| ReviewRunner.Task.TryApplyPendingCompression | internal/llmloop/compression.go:343-374 | reports true only for a result that was swapped in, and otherwise leaves the conversation alone |
| ReviewRunner.Task.SwapDoneJob | internal/llmloop/compression.go:355-370 | the swap happens exactly when the job is still the pending one and has a result |
| ReviewRunner.Task.CompressNow | internal/llmloop/loop.go:661-689 | the synchronous compression moves the fields as the machine says while goroutines go on |
| ReviewRunner.Task.AppendMessages | internal/llmloop/loop.go:671-679 | the assistant message and its results are appended in order |
| ReviewRunner.Task.AddNextMessage | internal/llmloop/loop.go:652-699 | the turn stands behind a conversation that has been summarised or swapped or is the one before, and success is exactly a final count under the warning limit |
| ReviewRunner.Task.ExecuteCalls | internal/llmloop/loop.go:362-395 | results of a tool round, and whether it failed, completed or brought anything usable |
| ReviewRunner.Task.JudgeRound | internal/llmloop/loop.go:397-418 | a failed tool ends the loop with an error, task_done without one ends it completed, a text goes on with the empty count at zero, and otherwise the count goes up and the third ends the loop |
| ReviewRunner.Task.NudgeModel | internal/llmloop/loop.go:351-360 | a reply without tool calls is put in front of the nudge |
| ReviewRunner.Task.RunGraceRound | internal/llmloop/loop.go:430-482 | the grace round ends in StopMaxRounds whether or not its request is sent |
| ReviewRunner.Task.RunMainTask | internal/llmloop/loop.go:293-425 | every run of the code is a run of the machine that has returned with nothing pending: completed exactly when a tool round answered task_done and none of its tools failed, with an error exactly when one happened |
| WorkerPool.RunKeepsCounts | internal/llmloop/pool.go:55-115 | in every state of every run the semaphore and all wait-group counters are exact, and the results are the comments returned, each once |
| WorkerPool.BodiesAreBounded | internal/llmloop/pool.go:55-62 | no interleaving runs more submitted bodies at once than there are workers, 8 by default |
| WorkerPool.AwaitKeyReturnsIff | internal/llmloop/pool.go:143-151 | AwaitKey can return exactly when every unit of its key is through, by a panic as well, with its permit back |
| WorkerPool.AwaitReturnsIff | internal/llmloop/pool.go:131-134 | Await can return exactly when every started unit is through; then all permits are back and the results complete |
| WorkerPool.ResultsAreReturned | internal/llmloop/pool.go:107-113 | the results are the comments of the returns that happened, one behind the other, and each unit's are those of its own return |
| WorkerPool.RunIsWhatHappened | internal/llmloop/pool.go:91-115 | every sequence of events runs as the ones among them that could happen |
| WorkerPool.SomeUnitCanMove | internal/llmloop/pool.go:91-115 | no run gets stuck: while a unit is not through, some unit can make its next step |
| WorkerPool.UnitsFinishInTime | internal/llmloop/pool.go:91-115 | after the last submission only a bounded number of steps can follow |
| PoolRunner.CommentWorkerPool.Act | internal/llmloop/pool.go:76-115 | every atomic action of the code is a step of the pool |
| PoolRunner.CommentWorkerPool.SubmitFor | internal/llmloop/pool.go:76-89 | registers a unit under its key before its goroutine can run |
| PoolRunner.CommentWorkerPool.SubmitUnkeyed | internal/llmloop/pool.go:64-68 | queues one more unit, registered with the pool alone |
| PoolRunner.CommentWorkerPool.Goroutine | internal/llmloop/pool.go:91-115 | a unit's goroutine ends with the unit through unless it still waits for a permit |
| PoolRunner.CommentWorkerPool.Unwind | internal/llmloop/pool.go:92-105 | the deferred calls return the permit, then sign off the key, then the pool, and none of them can fail |
| PoolRunner.CommentWorkerPool.AwaitKey | internal/llmloop/pool.go:143-151 | returns exactly when the units of its key are through; an unknown key has none |
| PoolRunner.CommentWorkerPool.Await | internal/llmloop/pool.go:131-134 | returns exactly when every started unit is through, with the comments of every return that happened, in that order |
| CommentRepair.IsLegalEscape | internal/comment/args_repair.go:61-80 | recognises exactly the escapes of section 7 of RFC 8259 |
| CommentRepair.NextSignificantByte | internal/comment/args_repair.go:155-164 | finds the next byte that is not white space, or reports that there is none |
| JsonTexts.EndsIffCloses | internal/comment/args_repair.go:155-174 | a string is taken to end exactly where nothing but white space stands between it and a comma, a colon, a closing bracket or brace, or the end of the text |
| CommentRepair.RepairSerializedComments | internal/comment/args_repair.go:98-151 | the byte loop computes the specified repair and its count |
| CommentRepair.StrictReadsRepaired | internal/comment/args_repair.go:98-151 | for every text: reading the repaired text by section 7 of RFC 8259 gives exactly the strings the lenient reading finds in the original |
| CommentRepair.RepairLength | internal/comment/args_repair.go:98-151 | each escape lengthens the text by one to five bytes |
| CommentRepair.CountReportsChange | internal/comment/args_repair.go:98-151 | the count is zero exactly when the text is unchanged |
| CommentRepair.UnescapedIffSound | internal/comment/args_repair.go:98-151 | nothing is escaped exactly when the text already reads strictly with each string followed by structure |
| CommentRepair.RepairIsIdempotent | internal/comment/args_repair.go:98-151 | a second repair changes nothing |
| JsonTexts.CutValueIsAPrefix | internal/comment/args_repair.go:86-151 | with only quote escapes dropped, the string is ended no later than at its true end and the value kept is a prefix of the true one |
| JsonTexts.CutSeenWhenEven | internal/comment/args_repair.go:217-233 | a value cut at its i-th quote keeps i-1 quotes, so the odd-quote check sees the cut exactly when i is even |
| JsonTexts.CutIsRefusedIff | internal/comment/args_repair.go:217-255 | a batch with a text field cut at its i-th quote is refused exactly when i is even or some other checked field has an odd number of quotes |
| CommentRepair.HasSuspectTruncation | internal/comment/args_repair.go:242-255 | reports a batch exactly when one of the four text fields of an object has an odd number of quotes |
| CommentRepair.QuotesAreCounted | internal/comment/args_repair.go:257-264 | the quotes counted in a text are its double quotes |
| CommentRepair.RefusedMeans | internal/comment/args_repair.go:217-255 | a batch is refused exactly when some object has a text field, the replacement included, with an odd number of double quotes |
| JsonTexts.PrintedMeans | internal/comment/args_repair.go:86-151 | a printed JSON value reads strictly as its strings, value for value |
| JsonTexts.PartsAreRepaired | internal/comment/args_repair.go:98-151 | a text with faults in its strings is repaired to the text as it should be written, and the count is that of the faults, unless a bare quote has structure behind it |
| JsonTexts.SoundTextStays | internal/comment/args_repair.go:98-151 | the repair leaves every JSON value as it is, in any spacing and with any strings, and counts nothing |
| JsonTexts.RepairRestoresTheText | internal/comment/args_repair.go:86-151 | a JSON value with any faults in its strings, in any spacing, is restored with the count of them exactly when no bare quote has a comma, a colon, a closing bracket or brace or the end behind it, and otherwise means something else |
| JsonTexts.MisreadMeansElse | internal/comment/args_repair.go:86-151 | with such a quote the lenient reading is not the value that was meant |
| JsonTexts.LoneBackslashesAreDoubled | internal/index/summarize.go:230-263 | a JSON text whose only faults are backslashes that should be doubled gets them doubled, and a sound one stays |
| LoneBackslashes.EscapeLoneBackslashes | internal/index/summarize.go:230-263 | the byte loop computes the specified escaping |
| LoneBackslashes.StrictReadsEscaped | internal/index/summarize.go:230-263 | for every text: strictly reading the escaped text is reading the original with lone backslashes as content, errors included |
| LoneBackslashes.UnchangedIffNoLone | internal/index/summarize.go:230-263 | the text is unchanged exactly when no string in it holds a lone backslash |
| LoneBackslashes.EscapeIsIdempotent | internal/index/summarize.go:230-263 | a valid text and an already escaped one pass through unchanged |
| Chunker.Chunk | internal/chunker/chunker.go:26-60 | the loops return the first-fit chunks: a partition in item order, each item in the first chunk with room, oversized ones alone |
| Chunker.ChunksAreUnique | internal/chunker/chunker.go:26-60 | the result is determined by the items and the limit |
| Chunker.FirstFitMeans | internal/chunker/chunker.go:26-60 | where each item goes: an oversized one to a chunk of its own, another to a chunk it still fits, when no earlier chunk had room for it at that time; chunks are numbered as they are opened |
| Chunker.ChunkIsInOrder | internal/chunker/chunker.go:26-60 | a chunk is the items that went there, all of them, in the order of the input |
| Chunker.ChunksAreGood | internal/chunker/chunker.go:26-60 | each chunk is within the limit or a lone oversized item; any two of the former exceed the limit together |
| Chunker.WeightIsConserved | internal/chunker/chunker.go:26-60 | items spread over bins in any way weigh the same in all |
| Chunker.FirstFitIsWithinTwice | internal/chunker/chunker.go:26-60 | against every possible packing, in any order: fewer than twice its bins |
| Chunker.ChunkIsWithinTwice | internal/chunker/chunker.go:26-60 | the same for what Chunk returns |
| DiffHunks.ParseHunks | internal/diff/hunk.go:40-113 | the line loop yields the hunks of the text, each header with the run of body lines behind it |
| DiffHunks.HunksEndAtFile | internal/diff/hunk.go:70-113 | the header of the next file ends the last hunk, and nothing behind it is read |
| DiffParser.ParseDiffText | internal/diff/parser.go:33-116 | the line state machine yields one file diff per header with the flags, paths, text and counts of its section |
| DiffParser.CountsOfSection | internal/diff/parser.go:33-116 | for every section: the parser's count is the hunks' count plus exactly the stray lines |
| DiffParser.RegularCountsAgree | internal/diff/parser.go:33-116 | when every line that begins with "@@" is a real header and none begins with "diff --git ", the counts are the added and deleted lines of ParseHunks |
| DiffParser.MissedHeaderIsSwallowed | internal/diff/parser.go:20-26 | behind a hunk, a file header the expression does not match, as that of a quoted path: the file above is charged with exactly the marked lines of the file below, and its hunks hold none of them |
| DiffParser.StrayLineIsCounted | internal/diff/parser.go:20-26 | a whole diff git prints, of a file x and a file whose name has a quote in it, with one line changed in each: three insertions counted in the first, one in its hunks |
| TextLines.PrintedDiffHeader | internal/diff/parser.go:20-26 | a header printed with one path twice reads back exactly when the path is not empty, has no newline and does not contain " b/" behind its first character |
| TextLines.ParsePrintedHeader | internal/diff/hunk.go:45-68 | a printed hunk header reads back with its four numbers |
| TextLines.ParseHeaderIff | internal/diff/hunk.go:36-68 | a line is read as a header with these numbers exactly when it is one in some of the four forms, with either count printed or left out and standing for 1, and any text behind |
| TextLines.NumberIsDecimal | internal/diff/hunk.go:48-60 | the digits are read as the decimal number they print |
| GitDiffs.HunksRead | internal/diff/hunk.go:40-113 | the hunks of a printed file come back from its text, headings and missing counts included |
| GitDiffs.GitDiffReads | internal/diff/parser.go:33-116 | a diff of any number of files as git prints them, new, deleted, renamed, copied, changed in mode, binary or edited, comes back file by file with paths, flags, text and counts |
| GitDiffs.GitTextReads | internal/diff/parser.go:33-116 | and so from its joined text |
| GitDiffs.GitHunksRead | internal/diff/hunk.go:40-113 | and ParseHunks gives the hunks of each of those files |
| UntrackedDiffs.UntrackedFileDiffs | internal/diff/git.go:584-620 | the printer writes one new-file diff per readable file |
| UntrackedDiffs.WorkspaceDiff | internal/diff/git.go:200-220 | workspace mode joins the tracked diff and the printed ones and parses all of it |
| UntrackedDiffs.LineCount | internal/diff/git.go:597-616 | the count in the printed header is the number of lines printed |
| UntrackedDiffs.LinesAreContent | internal/diff/git.go:597-616 | the printed lines are the file: each with a newline behind it, one behind an unfinished last line included |
| UntrackedDiffs.PrintedIs | internal/diff/git.go:584-620 | the four lines of the heading, letter by letter, and each line of the file behind a plus |
| UntrackedDiffs.UntrackedRoundTrip | internal/diff/git.go:213-220 | parsing the tracked diff with the printed ones behind it gives what parsing the tracked diff alone gives, less the newline its last section then ends in, and then each printed file, in order, with its line count as insertions |
| UntrackedDiffs.UntrackedHunk | internal/diff/git.go:584-620 | the hunk in such a diff adds exactly the lines of the file; separator blanks only add empty context |
| LineResolver.ExtractSideLines | internal/diff/resolver.go:186-214 | one side of a hunk, normalised and numbered from the header |
| LineResolver.MatchConsecutive | internal/diff/resolver.go:217-234 | the first window that equals the quoted lines, or failure |
| LineResolver.FirstWindowIsFirst | internal/diff/resolver.go:217-234 | no window lies before the reported one, and none at all after a failure |
| LineResolver.SplitAndNormalize | internal/diff/resolver.go:286-297 | the quoted code as normalised lines without blanks |
| LineResolver.ResolveFromHunk | internal/diff/resolver.go:151-181 | new sides of all hunks first, then old sides; the comment is written only on success |
| LineResolver.ResolveFromFileContent | internal/diff/resolver.go:238-283 | the comment is resolved against the non-blank lines of the new file |
| LineResolver.ResolveComment | internal/diff/resolver.go:62-73 | hunks first, then the file |
| LineResolver.RelocateAcrossFiles | internal/diff/resolver.go:100-139 | re-files a comment exactly when one other diff holds its code; otherwise it is untouched |
| LineAddresses.SideLinesAddressTheFiles | internal/diff/resolver.go:186-214 | for hunks that turn an old file into a new one, every side line carries the normalised text of the very line it is numbered with |
| LineAddresses.MatchedHunk | internal/diff/resolver.go:151-181 | the match is that of the first hunk that has one |
| LineAddresses.HunkResolutionQuotes | internal/diff/resolver.go:151-234 | a resolved range has one line for each quoted line and each matches; failure means no window of either side of any hunk does |
| LineAddresses.FileResolutionQuotes | internal/diff/resolver.go:238-283 | a range resolved from the file begins and ends on quoted lines, and its non-blank lines are exactly those |
| LineQuotes.NormalizeStrips | internal/diff/resolver.go:299-306 | a line is normalised by taking white space off its ends, one plus and then one minus off its front, and the white space behind them |
| LineQuotes.StripsIsUnique | internal/diff/resolver.go:299-306 | which leaves one result |
| LineQuotes.PlainLineStays | internal/diff/resolver.go:299-306 | a line with bare ends and no mark stays as it is |
| LineQuotes.HunksShowTheQuote | internal/diff/resolver.go:151-234 | on a range resolved from the hunks, each line of the one file is the quoted line next in turn but for such ends |
| LineQuotes.FileShowsTheQuote | internal/diff/resolver.go:238-283 | and so the lines of the file itself that are not blank |
| LineQuotes.ResolvedFromEither | internal/diff/resolver.go:62-73 | a comment gets the range the hunks give, or else the one the file gives, and stays as it is when neither does |
| LineQuotes.HitsAreElsewhere | internal/diff/resolver.go:100-139 | the hits are the diffs of other paths that hold the quoted code |
| LineAddresses.UntrackedTransforms | internal/diff/git.go:584-620 | the printed diff turns nothing into the file exactly when the file is not empty |
| SummaryTables.Store.UpsertSummary | internal/index/sqlite_store.go:458-571 | the readable index is updated at one path with the cleaned summary, or not at all when the transaction fails; foreign keys hold |
| SummaryTables.Store.RemovePaths | internal/index/sqlite_store.go:702-720 | exactly the given paths and all their child rows disappear |
| SummaryTables.Store.GetSummary | internal/index/sqlite_store.go:112-225 | found exactly when stored; symbols, imports, references and external references come in the order of their keys |
| SummaryTables.Store.Perform | internal/index/sqlite_store.go:458-571 | any sequence of operations leaves the index its fold describes |
| SummaryTables.FirstSymbolWins | internal/index/sqlite_store.go:485-504 | a name's row comes from the first symbol that has it; unnamed ones are dropped |
| SummaryTables.ReadsAsWritten | internal/index/sqlite_store.go:112-571 | what is read of a written summary: its row, the first symbol of each name with its kind, signature and description, the imports, the complete references, the first external reference of each kind and target with its description |
| SummaryTables.ReadingIsOrdered | internal/index/sqlite_store.go:112-225 | symbols come by name, imports by path, references by symbol and then target path, external ones by kind and then target |
| SummaryTables.UpsertedView | internal/index/sqlite_store.go:458-571 | new child rows for one file change no other file's reading |
| SummaryTables.ReadingIsUnique | internal/index/sqlite_store.go:112-225 | what is read is determined by what is stored, up to the order of references that agree in both sort columns |
| SummaryTables.WriteReadWrite | internal/index/sqlite_store.go:112-225 | writing back what was read changes nothing |
| SummaryTables.LastOperationDecides | internal/index/sqlite_store.go:458-571 | over any sequence, a path reads as the last operation on it left it |
| SummaryTables.UntouchedPathStays | internal/index/sqlite_store.go:458-571 | over any sequence, a path no operation names reads as before |
| TextOrder.OneList | internal/index/sqlite_store.go:154-225 | rows with distinct keys can be listed in order in one way only |
| TextOrder.BelowMeans | internal/index/sqlite_store.go:154-225 | texts are ordered by the first place where they differ |
| BlastRadius.GetBlastRadius | internal/index/sqlite_store.go:284-347 | exactly the direct and second-level callers, one entry for each path with its symbols, sorted by depth and path |
| BlastRadius.BlastRadiusMeans | internal/index/sqlite_store.go:284-347 | at depth one exactly the symbols of unchanged files that call a listed symbol of a changed one, at depth two exactly those that call one of these, each file once with its summary, nearer ones first and then by path |
| BlastRadius.AddBlastCaller | internal/index/sqlite_store.go:375-390 | one caller is merged into the entries; an entry's symbols never repeat |
| BlastRadius.SortBlastEntries | internal/index/sqlite_store.go:392-399 | insertion sort in place: sorted and a permutation |
| BlastRadius.LevelsAreApart | internal/index/sqlite_store.go:289-333 | depth-1 and depth-2 paths are disjoint and none of them is a changed path |
| BlastRadius.BlastRadiusIsUnique | internal/index/sqlite_store.go:284-347 | paths, depths, summaries and symbol sets do not depend on the order the maps and the database yield their rows in |
| BlastRadius.DedupeBlastRadius | internal/reviewctx/indexed.go:383-428 | the loop computes the merge by path |
| BlastRadius.EveryEntryIsCovered | internal/reviewctx/indexed.go:383-428 | each entry survives in one of its path with no larger depth and all its symbols |
| BlastRadius.NothingIsInvented | internal/reviewctx/indexed.go:383-428 | each merged depth and symbol comes from an entry of the same path |
| BlastRadius.MergedFirsts | internal/reviewctx/indexed.go:383-428 | each path keeps the place and the summary of its first entry |
| BlastRadius.MergingIsIdempotent | internal/reviewctx/indexed.go:383-428 | merging twice is merging once |
| BlastRadius.MergingKeepsBlastRadius | internal/reviewctx/indexed.go:383-428 | the result of the walk passes through unchanged |
| IndexCache.BuildBatches | internal/index/batch.go:161-185 | each file in exactly one batch and in order: large files alone, the others in threes, every batch of them full but the last |
| IndexCache.ByPathIsSorted | internal/index/indexer.go:338-346 | the files of a run come sorted by path |
| IndexCache.PersistedCounts | internal/index/indexer.go:156-278 | the count of a run is the number of upserts that worked |
| IndexCache.LocCountsLines | internal/index/batch.go:140-149 | the lines counted are the places where a line begins |
| IndexCache.VanishedRowsLeave | internal/index/indexer.go:90-110 | of the files a repository run has nothing to do with, those still in the tree keep their rows and the others lose them, if they can be removed |
| IndexCache.StaleMeans | internal/index/indexer.go:325-341 | a file is summarised exactly when it is a readable candidate and new, changed or part of a full run |
| IndexCache.RowReadsAsAnswered | internal/index/summarize.go:269-329 | what the index says of a file when it is read back: below 600 bytes the guessed language, the hash and the lines alone, otherwise the model's answer, each call under the symbol of its block and the guess where no language is named |
| IndexCache.ProducersNeverBlock | internal/index/indexer.go:207-252 | in every state of every run a batch with something to send finds room in the channel |
| IndexCache.RunTouches | internal/index/indexer.go:156-278 | whatever fails and in whatever order batches answer, each row is the old one or the one due to the file as read |
| IndexCache.RunKeepsSound | internal/index/indexer.go:156-278 | every row stays the summary of the content its hash names |
| IndexCache.CompleteRunAgreesIff | internal/index/indexer.go:156-346 | a run in which everything succeeds leaves all readable candidates the row they should have and no other row changed, exactly when the rows of the files it passed over were right |
| IndexCache.IncrementalIsFullIff | internal/index/indexer.go:325-335 | an incremental run in which everything succeeds leaves the rows of a full one exactly when the rows of the files it passed over were right |
| IndexCache.RightForEveryRequestIff | internal/index/batch.go:112-190 | for every model that is asked over JSON, which carries broken bytes as U+FFFD, those rows are right exactly when no change that cleaning hides takes a file over the limit for trivial files |
| IndexCache.GrownFileKeepsEmptySummary | internal/index/batch.go:112-190 | a file of 599 bytes that grows to 601 as its broken byte is replaced by U+FFFD: passed over, with the empty summary of a trivial file kept |
| IndexCache.RightForEveryModelIff | internal/index/batch.go:112-136 | for answers that may be any function of the bytes, those rows are right for every model exactly when no two different contents, not both trivial, become one when broken UTF-8 is replaced |
| IndexCache.Utf8IsToldApart | internal/index/batch.go:119-122 | contents that are UTF-8 meet that condition |
| IndexCache.RowsWereRead | internal/index/indexer.go:69-346 | after any history each row is the one due to a content some run read at its path |
| IndexCache.HistoryIsSound | internal/index/indexer.go:69-150 | over any sequence of runs with partial failures every row is the summary of the content its hash names |
| IndexCache.CacheAgreesAfterAnyHistory | internal/index/indexer.go:69-346 | after any history one complete incremental run leaves what a full run would, if every content read before that is hashed like the present one is trivial like it, or is neither and gets the same answer |
| IndexCache.Utf8IsNotMistaken | internal/index/indexer.go:69-346 | which holds of every history of UTF-8 files |
| IndexCache.CleanedIsNotMistaken | internal/index/indexer.go:69-346 | and, for a model asked over JSON, of every history in which no file crosses the limit for trivial ones by a change that cleaning hides |
| Utf8.ReplaceInvalidUtf8 | internal/index/batch.go:119-136 | the byte loop puts U+FFFD for each byte that begins no character, and the fast path agrees with it |
| Utf8.CleanIsIdentityIff | internal/index/batch.go:119-136 | a text is unchanged exactly when it is UTF-8, and longer otherwise |
| Utf8.CleanIsUtf8 | internal/index/batch.go:119-136 | the result is UTF-8 |
| Utf8.CleanMeans | internal/index/batch.go:119-136 | encoded characters stay and a byte none begins with becomes U+FFFD, the encoding being that of RFC 3629 in arithmetic |
| Utf8.EncodedIsUtf8 | internal/index/batch.go:119-122 | the encoding of any characters is UTF-8 |
| Utf8.Utf8IsEncoded | internal/index/batch.go:119-122 | and nothing else is |
| Utf8.CleanKeepsLines | internal/index/batch.go:119-149 | the number of lines stays |
| IndexRunner.ReadAndSplit | internal/index/indexer.go:283-346 | the stale files, trivial ones apart, sorted by path |
| IndexRunner.BuildFileSummary | internal/index/summarize.go:269-329 | what it filters out of the answer the store would drop as well |
| IndexRunner.CountLoc | internal/index/batch.go:140-149 | the number of lines of the file, a trailing newline ending the last one |
| IndexRunner.ContentHash | internal/index/batch.go:112-115 | the digest of the cleaned text |
| IndexRunner.Indexer.RunBatches | internal/index/indexer.go:197-266 | the scheduling of goroutines and drain loop ends with everything drained, and is a run of the protocol |
| IndexRunner.Indexer.IndexPaths | internal/index/indexer.go:156-278 | every run of the code is a course of the protocol, the count returned is that of the rows it stored, and soundness is kept |
| IndexRunner.Indexer.IndexRepo | internal/index/indexer.go:69-131 | a whole-repository run first removes the rows of the files its walk no longer finds, if it can, and keeps those of files that are there and cannot be read; the count returned is that of the rows stored |
| Carryover.Reconcile | internal/findings/carryover.go:22-71 | the loops compute keep, new, carried and resolved as specified |
| Carryover.Summarize | internal/findings/carryover.go:84-104 | the counts of each state and of the fingerprints that are gone |
| Carryover.ReconciledMeans | internal/findings/carryover.go:22-71 | new findings first and as reported, kept with the time they were first seen or new; behind them, in order, exactly the earlier ones that were not reported again in files that were not touched |
| Carryover.FindingsAreConserved | internal/findings/carryover.go:22-104 | previous = kept + carried + resolved, fresh = kept + new, for distinct fingerprints |
| Carryover.ReconciledIsDistinct | internal/findings/carryover.go:22-71 | fingerprints stay distinct |
| Carryover.AfterFollows | internal/findings/carryover.go:22-71 | over any sequence of runs the stored set holds exactly the findings their own automaton says |
| Carryover.PresentIffReported | internal/findings/carryover.go:22-71 | a finding is present exactly from a report until the first run that touches its file without reporting it |
| Carryover.FirstSeenIsStreakStart | internal/findings/carryover.go:38-56 | first-seen is the time of the run that began the current unbroken streak |
| CommentMarkers.FormatGithubBodyWithFP | cmd/sacr/emit.go:533-560 | the posted body is the visible text and, for a fingerprint, two newlines and the marker, and gives the fingerprint back when the text has no marker of its own |
| CommentMarkers.TextMeans | cmd/sacr/emit.go:533-575 | the visible text is the mark of a nit, the labels, the content with bare ends, and the suggested code in its fence, given only where it replaces quoted code and holds no fence |
| CommentMarkers.SuggestionEndsAtFence | cmd/sacr/emit.go:546-556 | the fence behind the suggested code is the first one, so all of it is read as code |
| CommentMarkers.MarkerReadsBackIff | cmd/sacr/emit.go:533-609 | every fingerprint is read back from a posted comment exactly when the visible text does not contain the marker prefix |
| CommentMarkers.PrefixSpoilsMarker | cmd/sacr/emit.go:598-609 | with the prefix in the text some fingerprint is read wrongly |
| CommentMarkers.FindingsFromPRComments | cmd/sacr/carryover.go:112-129 | the comments with a marker, in order |
| CommentMarkers.RunCarryover | cmd/sacr/carryover.go:38-107 | with the stored findings gone, any comments among which they were posted lead to the same fingerprints, files and states as the stored ones; the counts are those of the result |
| CommentMarkers.RecoveryAgrees | cmd/sacr/carryover.go:57-129 | recovered findings lead the next run to the same fingerprints, files and states as the stored ones, whatever other comments without a marker stand among the posts |
| RustUse.SplitTopLevelCommas | internal/extract/rust.go:129-148 | cuts exactly at the commas of depth zero |
| RustUse.ExpandRustUse | internal/extract/rust.go:69-126 | the recursive flattener computes the specified expansion and terminates because opening braces strictly fall |
| RustUse.OpensOfParts | internal/extract/rust.go:69-148 | no part between commas has more opening braces than the whole |
| RustUse.InnerOpens | internal/extract/rust.go:86-107 | the text inside a pair of braces has fewer opening braces than the whole |
| RustUseTrees.PrintReads | internal/extract/rust.go:129-148 | a printed tree is balanced and has no comma outside its braces |
| RustUseTrees.AsBehind | internal/extract/rust.go:77-79 | in a path with an alias the keyword is found exactly between blanks, and nowhere inside the path |
| RustUseTrees.ExpandYields | internal/extract/rust.go:69-148 | what the flattener returns for every legal use-tree in every spacing, trailing commas and empty groups included |
| RustUsePaths.YieldIsRightIff | internal/extract/rust.go:69-126 | below any prefix, that is the list of imported paths exactly for the simple trees |
| RustUsePaths.ExpandUndoesPrintIff | internal/extract/rust.go:69-148 | for every legal use-tree: the flattener returns exactly its paths in order if and only if no path has white space in it, each alias stands between blanks and is not one of `self`, and no group below a path is empty or ends in a comma |
| RustUsePaths.LeavesExpand | internal/extract/rust.go:70-83 | a name is its path, and a star or a new name behind it is cut off |
| RustUsePaths.GroupExpandsSelf | internal/extract/rust.go:111-123 | `self` in a group is the path of the group, and any other member is joined to it |
| RustUsePaths.BareSelfIsNothing | internal/extract/rust.go:113-118 | without a path in front of the braces `self` gives nothing |
| RustUsePaths.UnclosedKeepsFront | internal/extract/rust.go:85-106 | when the first brace is never closed the path in front of it is all there is |
| RustUsePaths.TrailingCommaAddsPath | internal/extract/rust.go:108-125 | a comma behind the last member adds a path that ends in "::" |
| RustUsePaths.SpaceBeforeScopeStays | internal/extract/rust.go:84-123 | white space in front of "::" stays in the path |

## Left out

- Language model calls, tool implementations, git, the file system and SQLite itself: arbitrary replies,
  sequences of lines and maps stand in for them.
- Rounding of the 60 % and 80 % limits, which are parameters here.
- Slices that share a backing array: a snapshot is a value, so the copy the program makes of it cannot go
  wrong in the model.
- Clocks beyond a number for each run; session records, metrics, logging and token usage.
- Stripping of markdown fences and the text of the summary prompt: they belong to the reply.
- The rest of the grace round's notice behind its first two sentences, and the comments its reply may submit.
- Joining of surrogate pairs and the decoding of the repaired arguments into comments; the acceptance rule
  that counts content fields.
- Overflow of numbers in hunk headers, which the program reads into machine integers.
- The path-exclusion rules, merge bases and commit ranges of the diff provider.
- Directory summaries, manifests, inbound edge counts and the skipping of files over the size limit.
- Cancellation of an indexing run by its context as a separate outcome: batches it stops are failed ones.
- SHA-256: a function without collisions. What is hashed, the text with broken UTF-8 replaced, is modelled.
- Requests to the model beyond what they carry of a file: its text with broken UTF-8 replaced. Every theorem
  holds of answers that are any function of a file's bytes, unless it says otherwise.
- Language extractors other than the Rust use-tree, SARIF, scoring, labels, overlap and the documentation
  server.
- Use-trees that begin with "::", a star with no path in front of it, and comments inside a tree.
- Several runs of marker recovery in a row: recovered placeholders are fingerprinted anew when posted.
- CommentMarkers.RecoveryAgrees: states, files and fingerprints only, because recovered findings are stamped with the time of the recovery.
- PoolRunner.CommentWorkerPool.Goroutine: a goroutine blocked on the semaphore is looked at a bounded number of times, so the method may end with the unit still waiting.
- PoolRunner.CommentWorkerPool.AwaitKey: waits a bounded number of looks and reports whether the key is drained, where the program blocks.
- PoolRunner.CommentWorkerPool.Await: waits a bounded number of looks and reports whether the pool is drained, where the program blocks.
- SummaryTables.ReadingIsUnique: references that agree in symbol and target path may come in either order, as the query does not sort by the third column.
