# Verified models of the RAGFlow core

Dafny models of five components of the repository, with proofs of what they promise:

- **MCP sessions** (`common/mcp_tool_call_conn.py`). Caller threads, a private event loop,
  a server task, a shutdown coroutine, a stop timer and a process-wide registry. Each
  protocol is a state machine whose steps are the blocks that run without interruption
  (up to an `await`, or under a lock); the theorems hold in every interleaving. `McpSession`
  is the session object; each of its methods is proved to take a step of these machines.
- **The agent canvas** (`agent/canvas.py`). The path scheduler with pruning, extension,
  suspension and resumption; the two-worker speech pipeline; the sentence splitter; the
  dotted-path variable store, on a heap of dict objects that may be shared.
- **Metadata filters**. The in-memory reference (`common/metadata_utils.py`) and three
  query compilers: Elasticsearch, GaussDB and Infinity. The compilers are proved against
  evaluators for the target languages: boolean queries, SQL conditions in three-valued
  logic (section 8.12 of ISO/IEC 9075:1992) with a parser for the usual precedence, and
  `LIKE` with an escape character (section 8.5 of ISO/IEC 9075:1992).
- **DSL migration** (`agent/dsl_migration.py`). Renaming of component ids in JSON values,
  in `{{component@output}}` references and in the component graph.
- **Canonical keys** (`common/misc_utils.py`).

Where the code and its own documentation disagree, the model follows the code:

- `common/metadata_es_filter.py:83-85` says that pushing `not contains` down is safe on
  fields with several values. It is not: `MetadataPushdown.NotContainsDiverges` gives a document
  and `MetadataPushdown.NegativeOperators` says for which documents both sides agree.
- `common/metadata_es_filter.py:472-477` describes the reading of a string given to `in` as
  parity with the in-memory path. That path searches the string instead
  (`common/metadata_utils.py:100-101`): `MetadataPushdown.TextMembershipIff` says where the
  two agree, and `MetadataPushdown.TextMembershipNeverSafe` that for a comma list they never
  do on all documents.
- `common/metadata_es_filter.py:441-444` takes the engine's comparison of texts for that of
  memory, which lower-cases both sides: `MetadataPushdown.LexicalRangeIff`,
  `MetadataPushdown.LexicalRangeDiverges`.
- In `common/metadata_infinity_filter.py:178-192` `contains` reads a number where
  `not contains` keeps the text, so for a value such as "5" both select the same row:
  `InfinityFilter.ContainsNegatedIff`, `InfinityFilter.FiveIsContainedAndNot`.
- `common/misc_utils.py:311-315` promises an equality-preserving form. That holds of the
  form; of the key it does not hold for frozen sets, and
  `CanonKeys.KeyDecidesEqualityIff` says for which values it does.
- A suspended run is resumed only if the id of its first fill-up component contains
  "userfillup" (`agent/canvas.py:518`), while suspension looks at the component's type
  (`agent/canvas.py:861`): `CanvasRun.ResumesIffMarked`, `CanvasRun.ResumeNeedsMark`.
- `normalize_datetime_prefix` agrees with the SQL padding, and is idempotent, exactly for
  the years `strftime` writes with four digits: `PartialDates.SidesAgreeIff`.

`dafny verify dfyconfig.toml` checks the project.

## Model

| member | source | states |
|---|---|---|
| `McpCalls.InvStep` | common/mcp_tool_call_conn.py:181-315 | every step of callers, server task, failing transport, closers and shutdown coroutine keeps the invariant: replies, tasks and outcomes are addressed to their own call, registered calls are exactly the waiting ones, and after the shutdown started each of them has an answer |
| `McpCalls.RunInv` | common/mcp_tool_call_conn.py:246-421 | the invariant holds in every state of every run |
| `McpCalls.OneShutdown` | common/mcp_tool_call_conn.py:409-421 | in every interleaving at most one shutdown coroutine is submitted, and `_close` is set from then on |
| `McpCalls.NoRegistrationAfterShutdown` | common/mcp_tool_call_conn.py:291-315 | once the shutdown coroutine has run its first block, no continuation registers a call or queues a task |
| `McpCalls.NobodyWaitsAfterGather` | common/mcp_tool_call_conn.py:382-407 | when the gather has ended no registered caller is waiting, now or later |
| `McpCalls.OwnReplyOnly` | common/mcp_tool_call_conn.py:304-315 | every call ends with the reply to its own request, a timeout, a cancellation, or a closed or closing error |
| `McpCalls.OutcomeIsFinal` | common/mcp_tool_call_conn.py:304-315 | no run settles a finished call again |
| `McpCalls.CallersCanLeave` | common/mcp_tool_call_conn.py:291-315 | from every state after the notification all registered calls can leave with what is in their queues |
| `McpCalls.GatherCanEnd` | common/mcp_tool_call_conn.py:382-407 | a gather in progress can always end |
| `McpCalls.ShutdownCanCompleteIff` | common/mcp_tool_call_conn.py:382-421 | a reachable state has a continuation in which the shutdown coroutine returns normally with no call pending exactly when it has not already ended with an error before its gather was over |
| `McpHistory.EndingsAreEarned` | common/mcp_tool_call_conn.py:246-315 | over every run each ending goes back to an event of the run: a returned reply to that very reply, with its payload, put for that call; a server error to an error put or a refusal of that call's task; the others to a notification, a closer, the caller's own timeout or cancellation |
| `McpHistory.OldestMessageDecides` | common/mcp_tool_call_conn.py:304-308 | a caller that takes its result takes the first thing the run delivered to it: a reply is returned with its payload, an error raised, a notice of closing ends the call as such |
| `McpHistory.InboxIsHistory` | common/mcp_tool_call_conn.py:286-308 | the result queue of a call holds exactly what the run delivered to that call, in order |
| `McpHistory.WorksForTheWaiting` | common/mcp_tool_call_conn.py:247-270 | the server takes up a task exactly when its deadline has not passed and its caller still waits |
| `McpHistory.ClosingIffBegun` | common/mcp_tool_call_conn.py:409-419 | `_close` is up exactly from the first closer on, even if its submission failed |
| `McpHistory.NoneServedAfterClose` | common/mcp_tool_call_conn.py:292-293 | once `_close` is up every later call ends as closed at once, and a call that has not looked at it yet ends as closed or is cancelled |
| `McpHistory.AtMostOneMoreTask` | common/mcp_tool_call_conn.py:247-253 | once `_close` is up the server takes at most the one task it may be waiting for |
| `McpHistory.ReturnMeansExited` | common/mcp_tool_call_conn.py:398-402 | a shutdown coroutine that returns normally has seen the server task end |
| `McpHistory.GatheredIff` | common/mcp_tool_call_conn.py:395-397 | the shutdown coroutine is past its gather exactly when the gather ended in the run |
| `McpHistory.ServerGoesOn` | common/mcp_tool_call_conn.py:246-289 | as long as nobody closes the session, no timeout, expired task, lost transport, refusal or reply ends the server |
| `McpHistory.CallCanBeAnswered` | common/mcp_tool_call_conn.py:246-315 | any call submitted to an open session with a live server can end with any reply or error of the server, whatever stands in front of it |
| `McpHistory.AnswersAfterLoss` | common/mcp_tool_call_conn.py:214-218 | after a transport failure calls can still be told of the error |
| `McpStop.InvStep` | common/mcp_tool_call_conn.py:423-463 | every step keeps the invariant that ties waiter count, closers, timers and the current handle together |
| `McpStop.StopFiresUnwatched` | common/mcp_tool_call_conn.py:428-463 | `loop.stop` fires only when no closer on the owner loop is waiting |
| `McpStop.StopIsNeverForgotten` | common/mcp_tool_call_conn.py:423-463 | once the future is done and its callback has run, a stop is armed or has fired whenever nobody waits |
| `McpStop.StopOnlyAfterShutdown` | common/mcp_tool_call_conn.py:459-463 | no stop is armed or fired before the shutdown is done, not even when a closer gives up waiting |
| `McpStop.OneStopAtATime` | common/mcp_tool_call_conn.py:431-432 | at most one stop is armed, and it is the one the session can cancel |
| `McpStop.NoTimerAfterClose` | common/mcp_tool_call_conn.py:429-430 | a closed loop is not asked for another timer |
| `McpRegistry.NobodyJoins` | common/mcp_tool_call_conn.py:78-86 | while one shutdown window stays open no session joins the live set, whatever other windows open and close |
| `McpRegistry.EmptyWhenSnapshotComplete` | common/mcp_tool_call_conn.py:124-137 | the live set lies inside every open window's snapshot; when a snapshot has completed, no session is live |
| `McpRegistry.ConstructionAllowedIffNoWindow` | common/mcp_tool_call_conn.py:78-86 | a session can be constructed exactly when no window is open: the nested counter counts the open windows |
| `McpRegistry.LiveIff` | common/mcp_tool_call_conn.py:78-167 | over every run a session is live exactly when it was constructed while no window was open and has not been discarded since, and complete exactly when it signalled or its construction was refused |
| `McpRegistry.Instances.Construct` | common/mcp_tool_call_conn.py:78-86 | construction takes the registry's step, and is refused during a shutdown |
| `McpRegistry.Instances.ThreadExit` | common/mcp_tool_call_conn.py:161-167 | the end of the loop thread takes the registry's step |
| `McpRegistry.Instances.OpenWindow` | common/mcp_tool_call_conn.py:124-137 | opening a window takes the registry's step |
| `McpRegistry.Instances.ListSessions` | common/mcp_tool_call_conn.py:119-133 | the snapshot is the live set at that moment |
| `McpRegistry.Instances.CloseWindow` | common/mcp_tool_call_conn.py:561-579 | closing a window takes the registry's step |
| `McpSession.PendingQueuesDistinct` | common/mcp_tool_call_conn.py:291-315 | pending calls have existing result queues and never share one |
| `McpSession.TellClosing` | common/mcp_tool_call_conn.py:383-385 | the notification loop puts one closing error into the queue of every pending call and into no other |
| `McpSession.MCPToolCallSession.constructor` | common/mcp_tool_call_conn.py:58-71 | a new session is in the initial state of both machines |
| `McpSession.MCPToolCallSession.SubmitCall` | common/mcp_tool_call_conn.py:338-371 | a call is refused when closing and otherwise takes the submission step |
| `McpSession.MCPToolCallSession.Register` | common/mcp_tool_call_conn.py:291-302 | registration gives the call a fresh queue and one task |
| `McpSession.MCPToolCallSession.TakeResult` | common/mcp_tool_call_conn.py:304-315 | the caller leaves with the oldest message of its own queue |
| `McpSession.MCPToolCallSession.TakeTask` | common/mcp_tool_call_conn.py:247-270 | the server task takes, drops or refuses the next task as the machine does |
| `McpSession.MCPToolCallSession.PutResult` | common/mcp_tool_call_conn.py:272-289 | the reply goes to the queue of the task |
| `McpSession.MCPToolCallSession.LoseTransport` | common/mcp_tool_call_conn.py:214-218 | a transport failure during a server call drops the task and starts the loop over |
| `McpSession.MCPToolCallSession.BeginShutdown` | common/mcp_tool_call_conn.py:409-421 | only the first closer submits the coroutine, in both machines |
| `McpSession.MCPToolCallSession.NotifyPending` | common/mcp_tool_call_conn.py:382-388 | the first block of the coroutine notifies every pending call and empties the task queue |
| `McpSession.MCPToolCallSession.ScheduleEventLoopStop` | common/mcp_tool_call_conn.py:428-432 | arms a stop unless a closer waits, the loop is closed or a stop is already pending |
| `McpSession.MCPToolCallSession.CloseEnter` | common/mcp_tool_call_conn.py:439-444 | a closer on the owner loop is counted and cancels a pending stop |
| `McpSession.MCPToolCallSession.CloseLeave` | common/mcp_tool_call_conn.py:459-463 | the last closer to leave arms the stop if the shutdown is done |
| `TtsPipeline.InvStep` | agent/canvas.py:677-722 | every step of the producer, two workers and drain keeps the invariant |
| `TtsPipeline.DrainInv` | agent/canvas.py:706-722 | after a drain the next number to speak is not settled yet |
| `TtsPipeline.SpokenInOrder` | agent/canvas.py:706-722 | in every run audio leaves in strictly increasing sentence order, each piece with the audio of its own sentence |
| `TtsPipeline.SettledOnce` | agent/canvas.py:677-704 | no worker settles a sentence twice, and it holds the text of that number |
| `TtsPipeline.DrainedAfterJoin` | agent/canvas.py:770-780 | after `join` and the final drain all sentences are settled and spoken, the counters are equal and nothing is left in `completed_tts` |
| `TtsPipeline.BoundsHold` | agent/canvas.py:677-698 | the queue never holds more than four sentences and no more than two are being synthesised |
| `TtsPipeline.TakeResults` | agent/canvas.py:706-714 | the first drain loop takes over every ready result |
| `TtsPipeline.EmitReady` | agent/canvas.py:715-722 | the second loop emits exactly the audible results before the first gap and keeps the rest |
| `TtsPipeline.DrainReady` | agent/canvas.py:706-722 | both loops together are the drain step of the machine |
| `SentenceStream.MatchEndsLate` | agent/canvas.py:683 | a match of the sentence-end pattern ends at position 1 or later, even an empty one |
| `SentenceStream.MatchMeans` | agent/canvas.py:683 | the pattern takes a terminator with all closers behind it, or nothing between a full stop, exclamation or question mark and a space or the end |
| `SentenceStream.CutKeepsText` | agent/canvas.py:724-751 | cutting loses no character, makes no empty sentence and leaves no sentence end behind |
| `SentenceStream.CutAtFirstEnds` | agent/canvas.py:743-749 | every sentence ends where the first sentence end of the remaining text is |
| `SentenceStream.CutSentences` | agent/canvas.py:724-751 | the sentence loop terminates and cuts the text at every sentence end |
| `SentenceStream.FeedAllText` | agent/canvas.py:724-751 | after any chunks the scheduled sentences and the buffer are the text outside thinking, and the message is all non-marker text |
| `SentenceStream.SpeechIsTheAnswer` | agent/canvas.py:770-772 | after the last flush the scheduled sentences alone are the text outside thinking |
| `SentenceStream.NothingEmptyScheduled` | agent/canvas.py:700-704 | no empty text is ever scheduled |
| `SentenceStream.NothingWaitsWhileThinking` | agent/canvas.py:728-732 | while the model thinks the buffer is empty: what came before was handed to speech |
| `SentenceStream.MessageStream.ScheduleTts` | agent/canvas.py:700-704 | a non-empty text is appended to the schedule |
| `SentenceStream.MessageStream.ProcessStream` | agent/canvas.py:724-751 | a chunk takes the stream's step |
| `Speech.InvStep` | agent/canvas.py:677-780 | every step of the stream, the full queue, the workers and the drain keeps the sentences of the stream in the pipeline and the backlog, in order |
| `Speech.HeardIsTheAnswer` | agent/canvas.py:677-780 | in every run, after the end of the stream, the join and the final drain, what is heard are the sentences that could be synthesised, in order, of exactly the text outside thinking |
| `Speech.NeverStuck` | agent/canvas.py:677-704 | as long as a sentence is not settled the producer or a worker can make progress |
| `Speech.CanSettle` | agent/canvas.py:753-775 | from every reachable state all sentences cut off so far can be settled |
| `CanvasRun.PrunedMeans` | agent/canvas.py:572-592 | the kept entries are a subsequence of the batch, and an entry goes exactly when it is neither Begin nor a fill-up, a referenced id is missing from the path before it, and the path is not a resumed one |
| `CanvasRun.PrunedInputs` | agent/canvas.py:572-592 | pruning keeps every checked component behind all its inputs |
| `CanvasRun.ResumedKeepsAll` | agent/canvas.py:584 | on a resumed path nothing is pruned |
| `CanvasRun.PathIsCompletedBatches` | agent/canvas.py:640-878 | a run that ended, with or without an error, leaves the old path and exactly the batches completed without error |
| `CanvasRun.TurnMeans` | agent/canvas.py:654-878 | a batch with an entry that failed for good ends the run with the path in front of it and counts for nothing; any other batch counts, and the run suspends exactly when a fill-up is pending and input is missing |
| `CanvasRun.CompletedWithoutError` | agent/canvas.py:856-878 | along every run no batch that counts as completed holds an entry that failed for good in the turn that executed it, and a failed run has such an entry in the next turn |
| `CanvasRun.ProcessedTakes` | agent/canvas.py:790-854 | post-processing appends what the entries offer, in order, leaving out an id that repeats the one before it, unless an error handler names it |
| `CanvasRun.MarkIgnoresCase` | agent/canvas.py:518 | the case of an id does not matter for the mark |
| `CanvasRun.OwnNameIsMarked` | agent/canvas.py:518 | an id that holds the component's own name, UserFillUp, carries the mark |
| `CanvasRun.InputsRunFirst` | agent/canvas.py:572-605 | in a run that is not resumed every checked component executed from its start on has its inputs earlier in the path, while it runs and when it has finished or failed |
| `CanvasRun.FrontierIsPermutation` | agent/canvas.py:861-863 | the suspended path is a permutation of the known pending components: the fill-ups in the order they had, then the others in theirs |
| `CanvasRun.ResumeRunsFrontier` | agent/canvas.py:518-532 | a marked frontier restarts at index 0 and is executed whole as the first batch |
| `CanvasRun.NothingLost` | agent/canvas.py:861-877 | if all fill-up ids carry the mark, the run after a suspension begins with exactly the known pending components |
| `CanvasRun.UnmarkedFrontierIsSkipped` | agent/canvas.py:531-532 | without the mark the pending components stand in the path as executed throughout the next run, whose first batch is "begin" |
| `CanvasRun.SuspendedHeadIsFillUp` | agent/canvas.py:861-877 | a suspended path begins with a fill-up component |
| `CanvasRun.ResumesIffMarked` | agent/canvas.py:518-532 | the run after a suspension executes the whole pending frontier first exactly when the first fill-up id carries the mark, and otherwise starts over at "begin" |
| `CanvasRun.ResumeNeedsMark` | agent/canvas.py:518-532 | a canvas whose first run suspends in front of a fill-up called "ask" and whose next run executes "begin" instead |
| `CanvasRun.Canvas.RunBatch` | agent/canvas.py:572-605 | the in-place pruning loop terminates, leaves the executed prefix alone and prunes the batch |
| `CanvasRun.Canvas.ExtendPath` | agent/canvas.py:826-840 | the path grows by the ids, never repeating its last entry |
| `CanvasRun.Canvas.PostProcess` | agent/canvas.py:657-858 | the loop behind a batch extends the path in order and reports whether an entry failed for good |
| `CanvasRun.Canvas.MainLoopTurn` | agent/canvas.py:640-878 | one turn of the main loop on the object is the turn of the run |
| `VariableStore.WriteKeepsDicts` | agent/canvas.py:307-317 | setting disturbs no slot that holds a dict except the one it stores into |
| `VariableStore.ReadBack` | agent/canvas.py:255-317 | if the last slot was not on the way, reading the path back gives the value, on shared and cyclic dicts too |
| `VariableStore.ReadAfterWrite` | agent/canvas.py:255-317 | on any heap, whatever value is stored: reading the path back reads the keys behind the written slot out of the value |
| `VariableStore.ReadBackIff` | agent/canvas.py:255-317 | a value is read back exactly when the walk does not store into a slot it passed through, or the value leads back to itself along the keys behind that slot |
| `VariableStore.CyclicDictLosesValue` | agent/canvas.py:307-317 | a dict that holds itself under "a" loses a value set at "a.a" |
| `VariableStore.TreeReadsBack` | agent/canvas.py:255-317 | on trees, reading a path just after setting it returns the value, whatever was replaced on the way |
| `VariableStore.ReadMeans` | agent/canvas.py:255-282 | reading goes through dicts by their keys and out of a leaf by what it holds; a missing key yields nothing |
| `VariableStore.OtherPathsKeepTheirValue` | agent/canvas.py:307-317 | on trees, a path that leaves the set path at an existing dict reads as before |
| `VariableStore.OnePath` | agent/canvas.py:307-317 | in a tree one path leads to a dict |
| `VariableStore.Store.SetParam` | agent/canvas.py:307-317 | the loop that writes in place makes the specified heap; the empty path writes nothing |
| `VariableStore.Store.GetParam` | agent/canvas.py:255-282 | the loop that reads returns the specified value |
| `Patterns.ChainedIsOnePass` | common/metadata_es_filter.py:576-578 | the three chained replaces are one pass over the characters |
| `Patterns.ParseEscaped` | common/metadata_gaussdb_filter.py:459-460 | an escaped text is read as its own characters wherever it stands |
| `Patterns.PrefixPattern` | common/metadata_gaussdb_filter.py:207-212 | `esc%` matches exactly the subjects that start with the text |
| `Patterns.SuffixPattern` | common/metadata_es_filter.py:310-312 | `*esc` and `%esc` match exactly the subjects that end with the text |
| `Patterns.InfixPattern` | common/metadata_es_filter.py:295-297 | `*esc*` and `%esc%` match exactly the subjects that contain the text |
| `Patterns.LiteralRoundTrip` | common/metadata_infinity_filter.py:308-309 | reading a quote-doubled literal gives the text back and leaves the rest |
| `Patterns.InfinityPrefix` | common/metadata_infinity_filter.py:194-197 | escaped, quoted, read and matched, a prefix filter is a prefix test |
| `Patterns.InfinitySuffix` | common/metadata_infinity_filter.py:199-202 | and a suffix filter is a suffix test |
| `MetadataMemory.FilterOut` | common/metadata_utils.py:40-129 | for every operator, ranges included, a document is returned exactly when a bucket that matches holds it |
| `MetadataMemory.MetaFilter` | common/metadata_utils.py:30-150 | the result is the intersection or union over all filters; the early return changes nothing; no filters select nothing |
| `MetadataMemory.Negations` | common/metadata_utils.py:94-125 | how each operator and its negation stand to each other on a bucket, for every operand |
| `MetadataMemory.EqualInMemory` | common/metadata_utils.py:49-88 | equality compares two dates as written, two literals as values and everything else as lower-cased texts |
| `MetadataMemory.EqualIsInRange` | common/metadata_utils.py:112-123 | a range compares what equality compares |
| `MetadataEs.PlanPushdown` | common/metadata_es_filter.py:329-346 | a plan exists exactly when the logic word is known and every filter translates, and holds their translations in order |
| `MetadataEs.ClausesAreAtomic` | common/metadata_es_filter.py:116-135 | a filter is one clause that holds exactly when the whole filter does |
| `MetadataEs.QueryMeans` | common/metadata_es_filter.py:147-177 | the query hits exactly the in-scope documents that satisfy all filters, or one |
| `MetadataEs.ClauseMeans` | common/metadata_es_filter.py:194-312 | a clause of the text fragment holds exactly when some value matches, or for a negative operator when there are values and none matches |
| `MetadataEs.EqualInEngine` | common/metadata_es_filter.py:412-435 | what an equality clause asks for, for every text operand |
| `MetadataEs.MembersIff` | common/metadata_es_filter.py:472-504 | the members of a text are the stretches between its commas, stripped, without the empty ones |
| `MetadataPushdown.PushdownIsExact` | common/metadata_es_filter.py:116-312 | for `=`, `in`, `contains`, `start with`, `end with` under AND and OR and any number of values, the query selects exactly what `meta_filter` returns |
| `MetadataPushdown.OutOfScope` | common/metadata_es_filter.py:147-177 | documents of other knowledge bases are selected by neither side |
| `MetadataPushdown.NegativeOperators` | common/metadata_es_filter.py:268-304 | for `≠`, `not in`, `not contains`, `not empty` the clause selects a subset, and agrees with memory exactly on documents whose values agree among themselves |
| `MetadataPushdown.NotContainsDiverges` | common/metadata_es_filter.py:83-86 | an accepted `not contains` filter and a document with two values on which the sides differ |
| `MetadataPushdown.EmptyAgreesIffPresent` | common/metadata_es_filter.py:238-256 | `empty` agrees exactly on documents that have the key |
| `MetadataPushdown.TextMembershipDiverges` | common/metadata_utils.py:100-101 | the text "ab" and the value "a": selected in memory and not by the engine |
| `MetadataPushdown.TextMembershipIff` | common/metadata_es_filter.py:472-504 | for every string given to `in` that reads as a trimmed list, both sides agree on a document exactly when some value is a piece of the text if and only if some value is a member; for a comma list the engine selects a subset |
| `MetadataPushdown.TextMembershipNeverSafe` | common/metadata_es_filter.py:472-504 | every comma list given to `in` has a document that memory selects and the engine does not |
| `MetadataPushdown.RangeMeans` | common/metadata_es_filter.py:275-282 | a range clause asks for a value in range, the test for the key adding nothing, and its bound is the number the text reads as, or the stripped text |
| `MetadataPushdown.LexicalRangeIff` | common/metadata_es_filter.py:438-457 | for an engine that orders texts as Python does, a range with a plain text bound means the same on all documents exactly when lower-casing never changes a comparison with the bound |
| `MetadataPushdown.LexicalRangeDiverges` | common/metadata_es_filter.py:438-457 | the value "B" and the bound "a" |
| `MetadataPushdown.AgreesIff` | common/metadata_es_filter.py:194-312 | for every operator, ranges included, both sides agree on a document exactly under the stated condition |
| `MetadataPushdown.ListIsExact` | common/metadata_es_filter.py:147-177 | for lists of all operators under AND and OR: if both sides agree on a document filter by filter, the query hits it exactly when `meta_filter` returns it |
| `MetadataPushdown.ListIsIncluded` | common/metadata_es_filter.py:147-177 | for lists of all operators but `empty`, literals of lists given to `in` and ranges the engine finds wider, every hit is returned by `meta_filter` |
| `MetadataPushdown.MixedLists` | common/metadata_es_filter.py:77-86 | for lists of positive and negative operators the hits are among the documents `meta_filter` returns, and all of them among documents with at most one value for each negatively filtered key |
| `MetadataPushdown.EmptyListDiverges` | common/metadata_es_filter.py:147-160 | an empty filter list would select everything in scope, and nothing in memory |
| `MetadataRouting.FilterDocIds` | common/metadata_utils.py:272-293 | the push-down is used exactly when there are filters and knowledge bases, no filter is `≠` or `not in`, all can be expressed, the logic word is known and the answer is taken; a request with `≠` or `not in` has exactly the result of `meta_filter`, as has any other that is not pushed down; with a push-down no result is wrong where every filter is narrow, and the result is right where the filters agree if the answer is complete |
| `MetadataRouting.PlannedIff` | common/metadata_es_filter.py:349-368 | a request is planned exactly when it has no `≠` and no `not in`, every filter can be expressed, and the logic word is known |
| `MetadataRouting.TranslatesIffExpressible` | common/metadata_es_filter.py:194-236 | which operands each operator can be expressed with |
| `MetadataRouting.EsPushdown` | api/db/services/doc_metadata_service.py:904-975 | an answer is given exactly when the filters are planned, the search succeeds and is not known to exceed the limit, and holds each returned id once |
| `MetadataRouting.TakenIsCompleteIff` | api/db/services/doc_metadata_service.py:961-975 | an answer that is taken holds all hits exactly when the response tells their number or there are no more than the limit |
| `MetadataRouting.TakenIff` | api/db/services/doc_metadata_service.py:969-973 | an answer that tells the number of hits is taken exactly when the limit leaves room for all |
| `MetadataRouting.Unique` | api/db/services/doc_metadata_service.py:949-956 | the loop keeps the first occurrence of every id, in order |
| `SqlText.ParsePrint` | common/metadata_infinity_filter.py:212-218 | every condition tree, printed, parses back to itself under NOT before AND before OR |
| `SqlText.JoinAll` | common/metadata_gaussdb_filter.py:117-125 | texts joined by AND print the conjunction |
| `SqlText.JoinAny` | common/metadata_gaussdb_filter.py:117-125 | texts joined by OR print the disjunction |
| `SqlText.AllOfMeans` | common/metadata_gaussdb_filter.py:186-189 | a conjunction is TRUE when all parts are and FALSE when one is |
| `SqlText.AnyOfMeans` | common/metadata_gaussdb_filter.py:182-184 | a disjunction is TRUE when one part is and FALSE when all are |
| `GaussFilter.BindErase` | common/metadata_gaussdb_filter.py:117-125 | binding the parameters from left to right restores the text they were taken out of |
| `GaussFilter.TranslateFaithful` | common/metadata_gaussdb_filter.py:132-254 | the text and parameters of every operator are those of the condition it means, one parameter for each placeholder |
| `GaussFilter.PlanIsUnderstood` | common/metadata_gaussdb_filter.py:117-125 | for every filter list and logic the bound text parses to the conjunction or disjunction of the meanings |
| `GaussFilter.MembershipPredicates` | common/metadata_gaussdb_filter.py:233-240 | one equality for each member, parameters in the same order |
| `GaussFilter.ToPredicate` | common/metadata_gaussdb_filter.py:117-125 | the loop builds the bracketed join and the concatenated parameters, and a true condition for no filters |
| `GaussFilter.NegationPartitions` | common/metadata_gaussdb_filter.py:159-205 | on a row with the key exactly one of an operator and its negation is TRUE, on other rows neither |
| `GaussFilter.EmptinessPartitions` | common/metadata_gaussdb_filter.py:242-254 | exactly one of `empty` and `not empty` is TRUE on every row |
| `GaussFilter.TextOperatorsMean` | common/metadata_gaussdb_filter.py:191-219 | the pattern operators are text tests on the lower-cased value, and select no row without a text |
| `GaussFilter.ValueOperatorsMean` | common/metadata_gaussdb_filter.py:159-240 | `=` asks for null, the blank text, the lower-cased text or element, or the number; `in` for one of its members; a range for the engine's comparison |
| `GaussFilter.PlanSelects` | common/metadata_gaussdb_filter.py:117-125 | the predicate selects a row exactly when all filters do, or one does |
| `InfinityFilter.SplitParts` | common/metadata_infinity_filter.py:140-176 | string and numeric members go to two part lists in order |
| `InfinityFilter.BuildParses` | common/metadata_infinity_filter.py:212-218 | for every filter list and logic the joined, unbracketed fragments parse to the condition meant |
| `InfinityFilter.FragmentMeans` | common/metadata_infinity_filter.py:76-202 | each fragment is TRUE exactly when its filter asks for the row; `start with` and `end with` are text tests |
| `InfinityFilter.BuildMeans` | common/metadata_infinity_filter.py:212-218 | the condition selects a row exactly when all filters ask for it, or one does |
| `InfinityFilter.LiteralsMean` | common/metadata_infinity_filter.py:194-202 | the printed literals, read and matched, are a prefix and a suffix test |
| `InfinityFilter.NegationPartitions` | common/metadata_infinity_filter.py:118-176 | `=` and `≠`, and `in` and `not in`, accept the same values, never select the same row, and one of them selects it exactly when the engine's answers decide it |
| `InfinityFilter.ContainsNegatedIff` | common/metadata_infinity_filter.py:178-192 | `contains` and `not contains` never select the same row exactly for the texts that do not read as a number, and then one of them does exactly when the answer is known |
| `InfinityFilter.FiveIsContainedAndNot` | common/metadata_infinity_filter.py:178-192 | the value "5" on a row that holds the number 5 is selected by both |
| `InfinityFilter.ContainsTakesLists` | common/metadata_infinity_filter.py:178-192 | a list is searched for as its text by `contains` and refused by `not contains` |
| `InfinityFilter.SameReading` | common/metadata_infinity_filter.py:244-278 | on a scalar `=`, `≠`, ranges and `contains` compare with one and the same value, the other text operators with the text |
| `InfinityFilter.ListOfOneIff` | common/metadata_infinity_filter.py:281-305 | `in` with one member selects what `=` selects exactly for texts whose reading lower-casing and stripping do not change |
| `InfinityFilter.EmptinessPartitions` | common/metadata_infinity_filter.py:112-116 | `empty` and `not empty` split exactly the rows that have a text for the key |
| `PartialDates.SidesAgreeIff` | common/metadata_gaussdb_filter.py:262-277 | SQL padding and Python normalisation give the same text exactly for four-digit years, or where `strftime` pads |
| `PartialDates.NormalizeIdempotentIff` | common/metadata_gaussdb_filter.py:405-421 | normalising again changes nothing, exactly on the same years |
| `PartialDates.TextOrderIsTimeOrder` | common/metadata_gaussdb_filter.py:167-176 | the order of padded texts is the order in time |
| `PartialDates.RangeIsTextOrder` | common/metadata_gaussdb_filter.py:167-176 | each comparison of timestamps is that comparison of the padded texts |
| `PartialDates.NormalizedIff` | common/metadata_gaussdb_filter.py:405-421 | exactly the texts of one of the five shapes that name a date of the calendar are normalised |
| `PartialDates.OwnValueIsInclusive` | common/metadata_gaussdb_filter.py:167-176 | a document equal to the filter value satisfies ≥ and ≤ and neither > nor < |
| `PartialDates.YearsBefore1000Differ` | common/metadata_gaussdb_filter.py:405-421 | the year 999 on a platform that does not pad |
| `VariableRefs.RefsRenamed` | agent/dsl_migration.py:63-71 | the references of a rewritten text are the renamed references of the text, in order: none lost, none created |
| `VariableRefs.FoundIffFits` | agent/dsl_migration.py:32 | a reference is found at a place exactly when the pattern fits there |
| `VariableRefs.FitIsFound` | agent/dsl_migration.py:32 | wherever the pattern fits, the parts found are those that fit, closing braces taken as far as they go |
| `VariableRefs.SubIdentity` | agent/dsl_migration.py:63-71 | an identity renaming copies the text |
| `VariableRefs.NoNewReference` | agent/dsl_migration.py:32 | renaming later references makes no reference where there was none |
| `JsonRewrite.ValueUntouchedIff` | agent/dsl_migration.py:73-80 | a value is left alone exactly when no text in it names a renamed component, outright or in a reference |
| `JsonRewrite.RewriteIdentity` | agent/dsl_migration.py:73-80 | an identity renaming copies every value |
| `DslMigration.RenameIdTwice` | agent/dsl_migration.py:53-61 | renaming a new id changes nothing |
| `DslMigration.RenamedApart` | agent/dsl_migration.py:53-61 | two renamed ids that differ stay different |
| `DslMigration.LongestFirstSorts` | agent/dsl_migration.py:145 | the edge-id replacements are all component ids, longer ones first |
| `DslMigration.CurrentIsFixed` | agent/dsl_migration.py:35-164 | a DSL in the current schema is left alone |
| `DslMigration.MigrateIsIdempotent` | agent/dsl_migration.py:35-164 | migrating a second time, in any key order, changes nothing, for every DSL value |
| `DslMigration.UnchangedIffCurrent` | agent/dsl_migration.py:35-164 | exactly the DSLs in the current schema are left alone |
| `DslGraph.TwiceIsOnce` | agent/dsl_migration.py:82-104 | an id of a component that is rewritten and then looked up again is renamed once |
| `DslGraph.DanglingStays` | agent/dsl_migration.py:82-104 | an id that names no component is kept |
| `DslGraph.LinksFollow` | agent/dsl_migration.py:93-96 | the downstream and upstream lists keep their length and each entry follows its component |
| `DslGraph.ParentFollows` | agent/dsl_migration.py:98-100 | the parent id follows its component |
| `DslGraph.LastWins` | agent/dsl_migration.py:82-102 | the new keys are the renamed ids, and under each stands the last component that got it |
| `DslGraph.CollisionIffTaken` | agent/dsl_migration.py:53-61 | ids collide exactly when a renamed id was already in use |
| `DslGraph.NoComponentLostIff` | agent/dsl_migration.py:82-104 | the number of components is kept exactly when no renamed id was already in use |
| `DslGraph.NamesAfter` | agent/dsl_migration.py:82-104 | without collision a component names another afterwards exactly when it did before or a dangling entry is captured |
| `DslGraph.IsomorphicIff` | agent/dsl_migration.py:82-104 | without collision the graphs are isomorphic exactly when no captured entry adds a link |
| `DslGraph.CaptureExample` | agent/dsl_migration.py:82-104 | a dangling link that spells a new id comes to name that component |
| `DslGraph.DrawingFollows` | agent/dsl_migration.py:106-152 | path entries, node ids, node parents and edge ends follow their components, and every other id is kept |
| `DslGraph.ReferencesFollow` | agent/dsl_migration.py:63-71 | a text refers afterwards to the same components under their new ids |
| `DslContents.NamesFitIds` | agent/dsl_migration.py:22-26 | every row of the table renames the operator and the ids made from its name alike |
| `DslContents.OthersAreKept` | agent/dsl_migration.py:53-61 | a name outside the table is kept, and so is an id that begins with none of its names |
| `DslContents.ComponentMeans` | agent/dsl_migration.py:82-102 | a component's operator gets the name of the table, all its other values have their references renamed, and no key is lost |
| `DslContents.NameFitsId` | agent/dsl_migration.py:82-102 | a component whose id is made from its legacy operator name gets a name and an id that fit each other again |
| `DslContents.ComponentFailsIff` | agent/dsl_migration.py:88-96 | a component cannot be migrated exactly when its operator name or an entry of its lists is a list or an object |
| `DslContents.DataMeans` | agent/dsl_migration.py:128-141 | label and name of a node give way to those of the table, its form has its references renamed, and its other data stay |
| `DslContents.NodeMeans` | agent/dsl_migration.py:113-141 | the splitter's node type gives way to the chunker's, and nothing but ids, type and data is touched |
| `DslContents.EdgeMeans` | agent/dsl_migration.py:146-158 | of an edge only its ends and its id are touched |
| `DslContents.DslMeans` | agent/dsl_migration.py:104-164 | history, messages and reference have their references renamed, and every field the migration does not name stays |
| `DslContents.MigrateFailsIff` | agent/dsl_migration.py:82-107 | the migration fails exactly when a component cannot be migrated or the path holds a list or an object |
| `DslEdges.EdgeIdFollows` | agent/dsl_migration.py:143-158 | in a text that spells component ids, begins legacy prefixes nowhere else and keeps its ids apart, the chained replaces rename every id like its component and keep the rest |
| `DslEdges.AnyOrderFollows` | agent/dsl_migration.py:143-158 | in such a text the order of the replacements does not matter |
| `DslOnePass.ChainIsOnePass` | agent/dsl_migration.py:145-158 | for component ids that do not run into each other the chained replaces are one pass over any text, in any order |
| `DslOnePass.EdgeIdFollowsIff` | agent/dsl_migration.py:143-158 | for such ids an edge id that spells components follows them exactly when renamed ids begin nowhere else in it |
| `DslEdges.DrawnEdgeFollows` | agent/dsl_migration.py:143-158 | the id of such an edge follows the components it spells |
| `DslEdges.ReplaceTakes` | agent/dsl_migration.py:156-157 | one replace renames exactly the ids at which the replaced id occurs |
| `DslEdges.NestedIdIsOverwritten` | agent/dsl_migration.py:143-158 | a legacy id inside another component id is renamed in the edge text and not in the component id |
| `DslEdges.ShorterFirstLosesOuter` | agent/dsl_migration.py:145 | for nested ids the order matters: with the shorter one first the outer id would keep its legacy prefix |
| `DslNormalize.NewId` | agent/dsl_migration.py:55-60 | the loop over the rename table stops at the first prefix that fits |
| `DslNormalize.FillIdMap` | agent/dsl_migration.py:53-61 | the map sends every component id to its new id |
| `DslNormalize.RebuildComponents` | agent/dsl_migration.py:82-102 | the loop rebuilds the components in order, or fails if one cannot be migrated |
| `DslNormalize.EditNodes` | agent/dsl_migration.py:111-141 | the loop edits every node |
| `DslNormalize.EditEdges` | agent/dsl_migration.py:143-158 | the loop edits every edge |
| `DslNormalize.NormalizeChunkerDsl` | agent/dsl_migration.py:35-164 | the step-by-step migration computes the specified value or error |
| `CanonKeys.CanonicalFormsEqualIff` | common/misc_utils.py:310-328 | canonical forms are equal exactly when the values are |
| `CanonKeys.EqualSymmetric` | common/misc_utils.py:311-315 | equality of nested values is symmetric |
| `CanonKeys.EqualTransitive` | common/misc_utils.py:311-315 | and transitive |
| `CanonKeys.CanonicalFormHashable` | common/misc_utils.py:310-328 | the form of a value that can be built can be built and hashed |
| `CanonKeys.OrderIgnored` | common/misc_utils.py:316-317 | the order of a dictionary's pairs does not reach the form |
| `CanonKeys.SameKeyIff` | common/misc_utils.py:331-345 | keys are equal exactly when the values are and both or neither can be hashed |
| `CanonKeys.KeyDecidesEqualityIff` | common/misc_utils.py:331-345 | the key of a value decides equality against all values exactly when no set lies under its tuples, unless a list or dictionary does too |
| `CanonKeys.KeysDecideEquality` | common/misc_utils.py:331-345 | on values free of frozen sets keys are equal exactly when the values are |
| `CanonKeys.FrozenSetHasItsOwnKey` | common/misc_utils.py:336-345 | a frozen set equals the set with its members and has another key |

## Left out

- MCP transports, header templates, logging and the values of timeouts: a deadline is an event that may happen at any time.
- Fairness of the event loop: progress of the MCP shutdown is stated as "a continuation exists", not as eventual termination.
- `close_sync` and `close_multiple_mcp_toolcall_sessions` add waiting on futures around the same steps.
- Component internals: outputs, `_next`, `end()`, error handlers and input references are arbitrary; a component that raises out of a batch ends the run outside the model.
- Cancellation checks of the canvas, the event payloads and the thinking markers' display.
- Speech synthesis itself: a worker settles a sentence with arbitrary audio, silence or an error.
- VariableStore: the root is a dict, as its only caller ensures when the output is empty; setting below a root of another type, which raises, is not modelled.
- VariableStore.Store.GetParam: lists and strings that hold JSON text are leaves, and what a key reads out of a leaf is a parameter.
- How the engine and Python order two values, and how the engine compares an indexed value with a number, are parameters.
- Lower-casing acts on characters and is idempotent; full Unicode case mapping, analyzers and field mappings are not modelled.
- MetadataPushdown.PushdownIsExact: covers the text fragment (trimmed texts that are neither dates nor literals, non-empty lists for `in`, non-empty patterns); the other operators and operands have their own statements of where the sides differ.
- MetadataRouting.EsPushdown: a missing index, which answers with no documents, and the shape of the response body are not modelled.
- GaussDB's JSONB operators and numeric comparisons are arbitrary functions of the stored value; nested keys are opaque names; filter values are modelled after coercion.
- InfinityFilter.FragmentMeans: containment, comparison and the extracted text of a key are the engine's own; JSON string escaping inside `JSON_CONTAINS`, the check of the key and the splitting of comma lists are not modelled.
- Digits and letters in patterns are ASCII where the source uses `\d` on Unicode text.
- DslEdges.EdgeIdFollows: states a sufficient condition for ids of any kind; the exact one, `DslOnePass.EdgeIdFollowsIff`, is for ids that do not hold, or end in the beginning of, a prefix of another id.
- DslMigration: the order of object keys is modelled for `components` alone.
- CanonKeys: leaves are hashable; the `repr` fallback for other unhashable objects, whose equality is not known, is not modelled.
- Cryptography, request guards, login, the admin command parser, settings and start-up: no property beyond their libraries.
