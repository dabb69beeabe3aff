# Lycosa control loops, modelled and verified in Dafny

Lycosa's controller and node agents run several control loops that are concurrent,
resumable or fed piecemeal, each of which must agree with a much simpler description of
what it does. This project models the hard ones and proves that agreement.

* **Leases** (`Lease.dfy`, `Leader.dfy`, `TaskDispatch.dfy`). Workflow runs, tasks and
  ingestions are leased in the database, renewed on a timer by the worker that executes
  them, and failed by reapers that select stale rows and then compare-and-set each. The
  model is a step system over one integer clock with any number of workers and reapers.
  No single leader is assumed: the leader gate is a model of its own, and it can have two.
  The executions and step rows a lease covers are the `open` children of its row. That
  none is open when an item ends or pauses, which the lease model takes from the holders,
  is proved of them in `TaskDispatch` and `WorkflowInvariants`.
* **Workflows** (`WorkflowSchema.dfy`, `WorkflowSpec.dfy`, `WorkflowInvariants.dfy`,
  `WorkflowMeaning.dfy`, `WorkflowExecutor.dfy`). The validator, the executor as functions
  on run states, an uninterrupted fold as its reference, the run-state invariant and
  reference safety, what each kind of step does told from its calls and replies, and the
  executor as the program runs it: an object whose fields are updated and committed
  step by step. Tasks and retrieval are an arbitrary function from calls to replies.
* **Throttles** (`Window.dfy`, `RedisWindow.dfy`). The in-process bucket against a filter
  over the whole history, and the Redis pipeline and later `zrem` run by many workers.
* **Streams** (`Lines.dfy`, `SseBlocks.dfy`, `ClaudeStream.dfy`, `ClaudeAnswer.dfy`,
  `ClaudeCaps.dfy`, `Gateway.dfy`, `Redaction.dfy`). Line splitting, server-sent events,
  the Claude Code stream from the JSON of a CLI line to the response, and the gateway's
  retries, fallbacks and wall-clock budget. The byte-to-text codec and JSON are parameters
  with the hypotheses `Codec` (decoding undoes encoding, encoding goes piece by piece, and
  line breaks are encoded as themselves and nothing else as one) and
  `JsonCodec` (for the agent's events, loading undoes dumping, a dump has no line breaks,
  and a cut dump does not load).
* **State that must stay consistent** (`Chunker.dfy`, `Routing.dfy`, `KeyFile.dfy`,
  `DeleteRace.dfy`). The chunk packer and its optimality, the account and routing store,
  the key file written by one worker while others poll it (base64 as in section 5 of
  RFC 4648, decoded as leniently as Python does), and uploads racing a deletion.

`Prelude.dfy` holds optional values and a few facts about sequences and sets. Every state
machine has a `Step` datatype, a predicate saying when a step can happen and a function
saying what it does; theorems about runs quantify over all finite sequences of steps.
`dafny verify dfyconfig.toml` checks everything.

## Where the code and its description differ

* The agent is described as ending its stream with a finish or a single error. It does
  unless a CLI line has something other than an object where objects are nested, a plan
  utilization too large for a float, or too many levels for the JSON parser: then an
  exception ends the stream, and the controller reports an error
  (`ClaudeStream.RaisesIffMalformedReached`).
* A caller that waits exactly the advertised Retry-After can be rejected once more
  (`Window.RetryAfterSuffices` says exactly when).
* The throttle's interface takes a window with every call, but calls with different ones
  on one key forget hits (`Window.MixedWindowsIff` says exactly when it matters). Its two
  callers each use one window for their own keys.
* A Redis rejection can be due to nothing but rejected hits that are still being removed
  (`RedisWindow.SpuriousIff` says exactly when, `RedisWindow.SpuriousRun` gives the calls).
  Where the recorded hits call for it, its wait is exactly theirs as long as only `try_hit`
  records on the key, as both callers have it (`RedisWindow.WaitIsExact`); the interface
  also has `add`, and with it the wait can be too short (`RedisWindow.AdvertisedWait`).
* An answer within the agent's cap need not fit the controller's
  (`ClaudeCaps.CappedAnswerCanBeTooLong`; `ClaudeCaps.ArrivesHoweverChunkedIff` says
  exactly what arrives).
* The leader gate is described as electing exactly one worker; late renewals can give two
  (`Leader.OneLeaderIff` says exactly when). Reaping does not depend on it.
* A key is said never to flow back out. The mark put in its place can spell some keys again
  (`Gateway.RedactedIsCleanIff` says exactly which, `Redaction.SpelledByMarks` names two),
  and a stream is redacted event by event, so that a key can show across the border of two
  (`Gateway.StreamedShowsIff` says for exactly which provider events).
* A collection deleted while a document is ingested can leave vectors behind
  (`DeleteRace.DeletionIsCleanIff` says exactly when).
* The validator does not look at approval messages (`WorkflowInvariants.ApprovalMessageReads`
  says what their references read), and substep ids within one parallel
  step may repeat (`WorkflowInvariants.LastSubstepWins` says what is recorded then).

## Model

| member | source | states |
|---|---|---|
| `Lines.Reassemble` | backend/app/llm/http.py:200-222 | the lines cut out of any body, each with its line feed, followed by the unfinished rest, spell the body back |
| `Lines.SplitIsUnique` | backend/app/llm/http.py:211-217 | whatever is written as lines without line feeds plus an unfinished rest is split into exactly those lines and that rest |
| `Lines.SplitAppend` | backend/app/llm/http.py:205-217 | splitting what was left over together with the next chunk yields what splitting everything received so far would: chunk boundaries leave no trace |
| `Lines.CutTerminated` | backend/app/llm/http.py:211-222 | a printed body cut anywhere gives its first k lines whole, then the start of line k |
| `Lines.NoSplitTripsIffFits` | backend/app/llm/http.py:202-217 | no chunking of a body trips a size cap if and only if the whole body and each of its lines fit; the caps themselves depend on the chunking |
| `Lines.TrippingSplit` | backend/app/llm/http.py:209-217 | for every body that does not fit, a chunking that does trip a cap |
| `Lines.DrainLines` | backend/app/llm/http.py:212-215 | the inner loop takes every complete line out of the buffer and leaves the unfinished rest |
| `Lines.StreamLines` | backend/app/llm/http.py:200-220 | however the bytes were chunked, the decoded lines of the whole body are yielded; it fails exactly when a cap trips on this chunking, after yielding a prefix of those lines |
| `Lines.IterSse` | backend/app/llm/http.py:225-244 | the line-by-line parser yields the messages the field grammar assigns to the lines, including a last one without its blank line |
| `Lines.SseRoundTrip` | backend/app/api/v1/llm.py:562-563 | printed frames whose fields are free of CR and LF come back as exactly those frames, through encoding, any chunking within the caps, line splitting and parsing |
| `Lines.TrimCrIs` | backend/app/llm/http.py:213 | exactly the carriage returns at the end of a line are taken off |
| `SseBlocks.ReadBlocks` | backend/app/llm/http.py:225-244 | blocks of comments, event and data fields (with or without the space) and other fields: one message for each block with data, its data lines joined by line feeds under its last event name, also for a last block without its blank line |
| `SseBlocks.AnyLinesAreRead` | backend/app/llm/http.py:225-244 | every list of lines consists of such blocks, and the parser yields their messages |
| `ClaudeStream.HandleRead` | agent/lycosa_agent/runtimes/claude_code.py:315-360 | one turn of the read loop, told from the JSON of the line: a nonempty text of a text delta is passed on as text and one of a thinking delta as reasoning, within the cap; a result line gives its text (if none was streamed), the sum of its token counts, its reason and model, or the error; every other read what it ends or passes over |
| `ClaudeStream.ParseIs` | agent/lycosa_agent/runtimes/claude_code.py:325-356 | reading a line into an event loses and invents nothing: which deltas, results and exceptions it is follows from its JSON |
| `ClaudeStream.Events` | agent/lycosa_agent/runtimes/claude_code.py:297-360 | the whole read loop yields the event stream the parsed CLI output determines |
| `ClaudeStream.AgentShape` | agent/lycosa_agent/runtimes/claude_code.py:297-394 | start, text and reasoning events, then exactly one terminal (an error, or optional fallback text, usage and finish); nothing after it; streamed text and reasoning never exceed the cap; fallback text only when no text was streamed |
| `ClaudeStream.RaisesIffMalformedReached` | agent/lycosa_agent/runtimes/claude_code.py:325-356 | the terminal is missing exactly when, before anything ends the loop, a line is reached whose nested objects are not objects, whose plan report has a utilization beyond the doubles, or which is nested too deeply for the JSON parser |
| `ClaudeStream.TerminalCanBeMissing` | agent/lycosa_agent/runtimes/claude_code.py:337-340 | CLI lines of the first two kinds, for which the loop raises and no terminal event is sent |
| `ClaudeStream.AdapterStream` | backend/app/llm/adapters/claude_subscription.py:124-164 | the adapter loop yields the meaning of each line until an error, and fails at the end unless a finish was seen |
| `ClaudeStream.InterpretJson` | backend/app/llm/adapters/claude_subscription.py:133-160 | reading back the JSON of each kind of agent event gives the event meant, or the error meant |
| `ClaudeStream.Collect` | backend/app/llm/adapters/base.py:134-160 | folding an event stream concatenates texts and reasoning and keeps the last usage and finish reason |
| `ClaudeStream.CutBody` | agent/lycosa_agent/executor.py:146-154 | any start of the NDJSON body decodes to the first m events, then at most one line that is not JSON; all events arrive exactly when at most the last line feed is missing |
| `ClaudeStream.AdaptGood` | backend/app/llm/adapters/claude_subscription.py:124-164 | over whole printed events the adapter does what each of them means, wherever it stands |
| `ClaudeStream.AdapterOutcome` | backend/app/llm/adapters/claude_subscription.py:124-164 | for every CLI output and every cut of the body: an answer if and only if the run finished, its finish line arrived and no cap tripped; otherwise an error |
| `ClaudeStream.MeaningsKeepText` | backend/app/llm/adapters/claude_subscription.py:139-142 | text and reasoning pass through the adapter unchanged and in order |
| `ClaudeStream.AnswerOfRun` | backend/app/llm/adapters/base.py:134-160 | the folded response of a finished run carries its whole text and reasoning and the counts and reason of its terminal |
| `ClaudeStream.ContentOfRun` | agent/lycosa_agent/runtimes/claude_code.py:341-394 | that text is the concatenated text deltas or, when there were none, the result text cut at the cap |
| `ClaudeAnswer.AnsweredIff` | agent/lycosa_agent/runtimes/claude_code.py:297-394 | for any CLI lines: the run answers if and only if a result line that reports success is reached, with no line before it that raises or ends the run and no more text and thinking than the cap |
| `ClaudeAnswer.ResponseOfReads` | agent/lycosa_agent/runtimes/claude_code.py:341-394 | its response has exactly the text deltas of the lines as content (or the result text, cut), the thinking deltas as reasoning, and the counts and reason of the result line |
| `ClaudeAnswer.Answer` | backend/app/llm/adapters/claude_subscription.py:119-164 | end to end, from the JSON of the CLI lines, over any chunking and any cut: the response those lines call for, or an error; a body cut before its finish line always fails |
| `ClaudeCaps.CappedAnswerCanBeTooLong` | agent/lycosa_agent/runtimes/claude_code.py:346-348 | a run within the agent's own cap whose printed body exceeds the controller's stream cap under every chunking: the two caps are not matched |
| `ClaudeCaps.ArrivesHoweverChunkedIff` | backend/app/llm/http.py:200-222 | the whole body of a run yields an answer under every chunking if and only if the run finished, the body fits the stream cap and each printed event the line cap |
| `Window.RetryAfter` | backend/app/core/window_store.py:47-48 | the least whole number of seconds, at least one, that reaches the window's edge |
| `Window.AdmitKeepsBound` | backend/app/core/window_store.py:63-71 | admitting below the limit keeps every closed interval of the window's length within the limit |
| `Window.RejectedIsFull` | backend/app/core/window_store.py:66-69 | in a bounded history a rejection means exactly `limit` hits lie in the window |
| `Window.RetryAdmittedIff` | backend/app/core/window_store.py:63-71 | with nothing admitted in between, a retry is admitted if and only if the oldest counted hit has left the window |
| `Window.RetryAfterSuffices` | backend/app/core/window_store.py:47-48 | waiting longer than Retry-After is enough, waiting until the edge is not, and waiting exactly that long is enough if and only if the wait was rounded up |
| `Window.RetryAfterCanBeOneShort` | backend/app/core/window_store.py:47-48 | a caller that waits exactly Retry-After seconds and is rejected again |
| `Window.InProcessWindowStore.Prune` | backend/app/core/window_store.py:58-61 | popping from the left leaves the filter of the bucket by the window's start |
| `Window.InProcessWindowStore.TryHit` | backend/app/core/window_store.py:63-71 | the pruned bucket decides as a filter over the whole admitted history does; a rejection leaves that history alone; calls of one window length keep it bounded |
| `Window.InProcessWindowStore.Penalty` | backend/app/core/window_store.py:73-81 | the same decision without recording a hit |
| `Window.InProcessWindowStore.Add` | backend/app/core/window_store.py:83-87 | a hit recorded whatever the limit |
| `Window.InProcessWindowStore.Clear` | backend/app/core/window_store.py:89-90 | one key's history is forgotten, the others stay |
| `Window.MixedWindowsIff` | backend/app/core/window_store.py:63-71 | the interface takes a window per call: after a call with a shorter one, a decision departs from the one over the full history if and only if the hits pruned away make the difference, and then admits too much |
| `Window.InProcessWindowStore.constructor` | backend/app/core/window_store.py:55-57 | a new store has no history |
| `Window.ShorterWindowForgets` | backend/app/core/window_store.py:63-81 | three calls on one key that end in such an admission |
| `RedisWindow.PipelineCounts` | backend/app/core/window_store.py:111-121 | what the pipeline counts: recorded hits in the window, rejected members not yet removed, and the new one |
| `RedisWindow.DecisionIff` | backend/app/core/window_store.py:111-128 | for any interleaving a hit is admitted if and only if recorded and pending rejected members in the window are below the limit: pending ones only cause more rejections, and without any the decision is the simple one |
| `RedisWindow.StepKeepsInv` | backend/app/core/window_store.py:108-152 | every pipeline, zrem, penalty, add, clear and key expiry keeps the sorted set explained by the calls that made it |
| `RedisWindow.StepKeepsLimit` | backend/app/core/window_store.py:111-128 | no step takes any window (t - W, t] over the limit |
| `RedisWindow.NeverOverLimit` | backend/app/core/window_store.py:111-152 | in every run of any number of workers, at most `limit` admitted hits lie in any window since the last clear |
| `RedisWindow.NeverOverLimitFromEmpty` | backend/app/core/window_store.py:111-152 | so in every run that starts without the key |
| `RedisWindow.PenaltyIff` | backend/app/core/window_store.py:130-141 | the reply of penalty is zero if and only if recorded and pending hits of the window are together below the limit, or there are none |
| `RedisWindow.SpuriousIff` | backend/app/core/window_store.py:117-128 | a hit is rejected for pending removals alone if and only if the recorded hits are below the limit and the pending ones make up for it |
| `RedisWindow.SpuriousRun` | backend/app/core/window_store.py:117-128 | three calls of try_hit, the last of which is rejected so |
| `RedisWindow.WaitIsExact` | backend/app/core/window_store.py:121-128 | in every run in which only try_hit records, as its callers have it: a rejection that the recorded hits alone call for is answered with exactly their wait, whatever removals are pending |
| `RedisWindow.AdvertisedWait` | backend/app/core/window_store.py:121-128 | of the interface, with `add` on the same key: the wait is never longer than the recorded hits call for, and equals it unless a pending member of the window is older by more than the rounding hides |
| `RedisWindow.AddShortensTheWait` | backend/app/core/window_store.py:121-149 | two calls of try_hit and one of add after which the next rejection advertises 1 second where the recorded hit calls for 29 |
| `Chunker.SplitLong` | backend/app/services/knowledge/loader.py:262-267 | the slicing loop terminates when overlap < size and yields the stripped slices |
| `Chunker.ChunkText` | backend/app/services/knowledge/loader.py:250-276 | the packing loop over the paragraphs of any text: every chunk fits; no visible character of the text is lost or out of order; and without overlap, or when all paragraphs fit, none is repeated |
| `Chunker.SplitSpells` | backend/app/services/knowledge/loader.py:253 | the parts of a text joined with breaks are the text, and the leftmost breaks were taken |
| `Chunker.SplitIsOnly` | backend/app/services/knowledge/loader.py:253 | no other parts have these properties |
| `Chunker.ParagraphsOfJoined` | backend/app/services/knowledge/loader.py:253 | paragraphs written with breaks between them are the paragraphs of that text |
| `Chunker.ParagraphsKeepText` | backend/app/services/knowledge/loader.py:253 | the paragraphs of a text hold its visible characters, each once and in order |
| `Chunker.SliceAt` | backend/app/services/knowledge/loader.py:262-267 | where each slice of a long paragraph begins and ends, and how many there are |
| `Chunker.NothingIsLost` | backend/app/services/knowledge/loader.py:250-276 | for any text, size and overlap: the chunks hold the text's visible characters in order, exactly so when nothing overlaps |
| `Chunker.TextChunksFit` | backend/app/services/knowledge/loader.py:250-276 | no chunk of any text is longer than `size` |
| `Chunker.SlicesSpell` | backend/app/services/knowledge/loader.py:264-267 | the first size - overlap characters of the raw slices of a paragraph, put together, are the paragraph |
| `Chunker.LongParagraphDivides` | backend/app/services/knowledge/loader.py:260-267 | a paragraph longer than `size` separates what comes before from what comes after: the three are chunked on their own |
| `Chunker.PackIsGreedy` | backend/app/services/knowledge/loader.py:268-276 | when every paragraph fits, the chunks are the joined groups of a greedy grouping |
| `Chunker.JoinOfJoined` | backend/app/services/knowledge/loader.py:268-276 | joining the chunks of a grouping rebuilds the joined paragraphs |
| `Chunker.GreedyIsOptimal` | backend/app/services/knowledge/loader.py:268-276 | no grouping of consecutive paragraphs within `size` has fewer groups |
| `Chunker.ShortParagraphs` | backend/app/services/knowledge/loader.py:250-276 | for paragraphs that fit: the chunks join back to the paragraphs exactly, and no grouping within `size` uses fewer chunks |
| `Chunker.ShortText` | backend/app/services/knowledge/loader.py:250-276 | the same of a text whose paragraphs fit: its chunks join to its paragraphs, show its visible characters, and are the fewest |
| `WorkflowSchema.ValidateReferences` | backend/app/schemas/workflow.py:102-123 | a definition is accepted if and only if no id of one step is an id of another and every reference, also one across the border of prompt and knowledge query, names an id of an earlier step |
| `WorkflowSchema.FirstSeen` | backend/app/schemas/workflow.py:107-114 | the id reported as duplicate is one seen before; none is reported exactly when none was |
| `WorkflowSchema.TopLevelIdsDistinct` | backend/app/schemas/workflow.py:106-114 | top-level ids of an accepted definition are distinct |
| `WorkflowSpec.PausingFrom` | backend/app/services/workflow.py:183-246 | from any step on, executing to the next approval and resuming decision by decision is one uninterrupted fold |
| `WorkflowSpec.ResumeWaiting` | backend/app/services/workflow.py:137-180 | resuming finds the step and the row the run waits at, and changes that row alone |
| `WorkflowSpec.PausingIsTransparent` | backend/app/services/workflow.py:105-246 | for every validated definition, every behaviour of tasks and retrieval and every sequence of decisions, start plus resumes ends with the status, context and step rows of the uninterrupted fold |
| `WorkflowSpec.RepeatedIdsAreNotTransparent` | backend/app/services/workflow.py:147-148 | two approvals of one name: the resumed run waits forever where the fold succeeds, so the validator is needed |
| `WorkflowInvariants.OnlyLastIsOpen` | backend/app/services/workflow.py:257-301 | a step row followed by another is neither running nor waiting nor a final failure |
| `WorkflowInvariants.WhatTheInvariantMeans` | backend/app/services/workflow.py:137-301 | paused exactly when one row waits, which is the last row and of the current step; at most one row runs; a finally failed row is the last |
| `WorkflowInvariants.AttemptsContinueTrace` | backend/app/services/workflow.py:249-301 | the rows of a step are attempts 1, 2, ... up to retries + 1, each but the last failed |
| `WorkflowInvariants.LastRowTells` | backend/app/services/workflow.py:290-301 | the last of those rows says whether the step completed, gave up or was left by an exception |
| `WorkflowInvariants.GoodAttemptAdds` | backend/app/services/workflow.py:331-355 | a completed step adds its own ids to the context, all of them and no others |
| `WorkflowInvariants.LastSubstepWins` | backend/app/services/workflow.py:353-354 | when substeps of one parallel step share an id, the last one's output is recorded |
| `WorkflowInvariants.AdvanceKeeps` | backend/app/services/workflow.py:191-244 | whatever a step does, the run is left ready for the next one, ended or waiting in good order |
| `WorkflowInvariants.FoldKeeps` | backend/app/services/workflow.py:183-246 | every outcome of the fold satisfies the run-state invariant |
| `WorkflowInvariants.EveryRunKeepsTheInvariant` | backend/app/services/workflow.py:105-246 | so does every run of a validated definition after any number of decisions |
| `WorkflowInvariants.PauseComesFrom` | backend/app/services/workflow.py:209-232 | a paused run stopped at an approval step with every earlier step succeeded or skipped |
| `WorkflowInvariants.AtStepReadsSafely` | backend/app/services/workflow.py:79-102 | a step about to run refers only to earlier steps that succeeded and are recorded, or were skipped and read empty |
| `WorkflowInvariants.ReferencesAreSafe` | backend/app/services/workflow.py:183-246 | that holds at every step any run of a validated definition ever reaches |
| `WorkflowInvariants.StepReadsOnlyItsReferences` | backend/app/services/workflow.py:79-96 | whether a step is skipped, what it sends out and every row it leaves depend on the context only through the references the validator checked |
| `WorkflowInvariants.ReadsSafelyIff` | backend/app/services/workflow.py:79-96 | at any step, an id reads the recorded output of an earlier step, or empty because it was skipped, if and only if an earlier step defines it; any other id reads empty |
| `WorkflowInvariants.ApprovalMessageReads` | backend/app/schemas/workflow.py:75-80 | approval messages are not validated: whenever an approval is reached in any run, a reference of its message reads safely if and only if an earlier step defines it, and empty otherwise |
| `WorkflowInvariants.ApprovalMessagesAreUnchecked` | backend/app/schemas/workflow.py:75-80 | an accepted definition whose message names a step there is not |
| `WorkflowExecutor.WorkflowRun.RunParallel` | backend/app/services/workflow.py:331-355 | substeps are rendered from one snapshot; one failure fails all and records nothing, otherwise every output is recorded |
| `WorkflowExecutor.WorkflowRun.RunAttemptOf` | backend/app/services/workflow.py:258-299 | one turn of the retry loop: a running row is committed, the attempt is made, the row is closed in place |
| `WorkflowExecutor.WorkflowRun.RunStepWithRetries` | backend/app/services/workflow.py:249-301 | the retry loop adds the rows and context changes the specification of the step gives, and commits only states that satisfy the run-state invariant |
| `WorkflowExecutor.WorkflowRun.Perform` | backend/app/services/workflow.py:234-244 | a completed step is recorded, a failed one ends the run |
| `WorkflowExecutor.WorkflowRun.ExecuteStep` | backend/app/services/workflow.py:191-244 | one turn of the executor's loop is the specified step; it adds one skipped row and nothing else if and only if the step has a condition and what it reads differs from, or does not contain, its text |
| `WorkflowMeaning.AdvanceSkipsIff` | backend/app/services/workflow.py:92-97 | the same of the specification |
| `WorkflowMeaning.RenderSpells` | backend/app/services/workflow.py:79-89 | a rendered template is its literals, the run's input and the recorded outputs, in order |
| `WorkflowMeaning.CallIsReply` | backend/app/services/workflow.py:303-329 | what a task's call sends: the rendered prompt and, unless it is empty, the rendered knowledge query |
| `WorkflowMeaning.TaskStep` | backend/app/services/workflow.py:249-301 | a task step: attempts until one is not refused, at most retries + 1, a row telling each reply, and the run goes on, fails or stays as it is by the last |
| `WorkflowMeaning.RetrieveStep` | backend/app/services/workflow.py:273-285 | a retrieve step: one search, an exception counting as a refusal |
| `WorkflowMeaning.ParallelStep` | backend/app/services/workflow.py:331-355 | a parallel step: each substep sends its own prompt from one context; all outputs are recorded and joined, or none |
| `WorkflowMeaning.ApprovalStep` | backend/app/services/workflow.py:210-231 | an approval step pauses the run at one waiting row with its message |
| `WorkflowMeaning.DecisionShows` | backend/app/services/workflow.py:137-180 | what a decision leaves: the row decided, the approval recorded and the next step executed, or the run failed |
| `WorkflowExecutor.WorkflowRun.ExecuteFrom` | backend/app/services/workflow.py:183-246 | the executor loop refines execution as a function, and every state it commits satisfies the run-state invariant |
| `WorkflowExecutor.WorkflowRun.constructor` | backend/app/services/workflow.py:105-134 | a started run is where executing from the first step leads |
| `WorkflowExecutor.WorkflowRun.Resume` | backend/app/services/workflow.py:137-180 | after every decision the stored run is exactly the uninterrupted fold under all decisions so far |
| `WorkflowExecutor.WorkflowRun.Resolve` | backend/app/services/workflow.py:149-173 | the pending row is decided in place and an approval recorded as the step's output |
| `WorkflowExecutor.DecideOneMore` | backend/app/services/workflow.py:137-180 | decisions compose: one more decision resumes where the earlier ones left the run |
| `TaskDispatch.TaskRun.Execute` | backend/app/services/orchestrator.py:322-411 | nodes are tried in order until the first success, at most max_attempts of them, with one numbered execution each that tells what became of it; fewer than both bounds only if the last one did not fail; the task succeeds with that node's output or fails with the last error |
| `TaskDispatch.TaskRun.Attempt` | backend/app/services/orchestrator.py:336-404 | an execution is committed as running and closed when its node answers |
| `TaskDispatch.RowsAreKept` | backend/app/services/orchestrator.py:336-411 | in every committed state only the last execution can be open, and only while the task runs |
| `Lease.HeldIsNotStale` | backend/app/services/workflow.py:418-420 | a row still executed is never older than the stale threshold at any moment a reaper could have looked |
| `Lease.StepKeepsInv` | backend/app/services/orchestrator.py:466-525 | every start, resume, renewal, missed renewal, crash, select and compare-and-set keeps the lease invariant |
| `Lease.LeasesAreSafe` | backend/app/services/workflow.py:393-451 | in every run of any number of workers and reapers, missing at most two renewals in a row, nothing a worker still executes is reaped, also after a pause of any length |
| `Lease.TheCheckIsExact` | backend/app/core/config.py:194-217 | the start-up check accepts exactly the settings under which that is true: stale threshold at least three intervals |
| `Lease.TwoMisses` | backend/app/core/config.py:194-204 | for every smaller threshold, a run in which two missed renewals get a live item reaped |
| `Lease.ReapedOnce` | backend/app/services/orchestrator.py:493-525 | however many reapers run at once, each orphan is claimed by one of them, with one record, and left failed with none of its child rows open |
| `Lease.SettledRowsStay` | backend/app/services/orchestrator.py:496-504 | no step changes a row that has ended, and none but a resume changes a paused one |
| `Lease.TheEndIsFinal` | backend/app/services/orchestrator.py:493-525 | a terminal state is never overwritten in any run |
| `Lease.NothingIsLeftOpen` | backend/app/services/orchestrator.py:493-525 | however a row came to its end, or to a pause, no child row of it is open |
| `Lease.OrphanWaitsOrIsLaid` | backend/app/services/orchestrator.py:493-525 | a row left behind stays exactly as it is until a reaper claims it |
| `Lease.OrphansAreReapedInTime` | backend/app/main.py:55-98 | from any good state: once the stale threshold and one reaper period have passed since its last beat, a row left behind is failed, recorded, and none of its children is open |
| `Lease.OrphansAreBounded` | backend/app/services/workflow.py:408-451 | the same for an orphan at any point of any run from the start |
| `Lease.LeaseTable.Heartbeat` | backend/app/services/knowledge/ingestion.py:65-77 | row by row: an unfinished live row beats now and keeps the rest, every other row is unchanged; the number of the former is returned |
| `Lease.HeartbeatIsRenewal` | backend/app/services/workflow.py:393-405 | rows so changed are those of the step system's renewal |
| `Lease.LeaseTable.ReapStale` | backend/app/services/knowledge/ingestion.py:80-113 | an undisturbed pass fails exactly the stale rows and adds one record for each |
| `Lease.ReapStaleIsPass` | backend/app/services/workflow.py:408-451 | in whatever order the rows are claimed, that is what a select, its claims and the end of the pass leave in the step system |
| `Leader.InTimeMeansOneLeader` | backend/app/core/leader.py:27-46 | in particular, while every EXPIRE arrives before its worker lost the lock, at most one worker leads |
| `Leader.WhyItLeads` | backend/app/core/leader.py:27-46 | whoever takes itself for the leader holds the lock, or was last told so by a renewal that came too late |
| `Leader.OneLeaderIff` | backend/app/core/leader.py:27-46 | in every run, two workers never lead at once if and only if every late EXPIRE finds no other worker's lock and no other worker is told to lead within the time to live after it |
| `Leader.TwoLeaders` | backend/app/core/leader.py:37-43 | both ways it goes wrong: a late EXPIRE over another's lock, and one on a lapsed lock that another worker then takes |
| `Gateway.BackoffBounds` | backend/app/llm/gateway.py:73-78 | a wait is at least the exponential base and what the provider asked for, at most half as long again, and capped |
| `Gateway.BackoffGrows` | backend/app/llm/gateway.py:73-78 | unasked, the wait is 0.5, 1, 2, 4, 8, 16 and then 20 seconds, plus the random part up to the cap |
| `Gateway.WithRetries` | backend/app/llm/gateway.py:96-122 | the retry loop over a real clock: its calls are a trace in which each call ends with the provider's reply or, at the deadline or the end of the budget, a timeout, and each but the last is followed by its wait; a first answer in time is returned at once |
| `Gateway.RetryTrace` | backend/app/llm/gateway.py:102-122 | such a trace for every entry, and the outcome is that of its last call |
| `Gateway.AnsweredInTime` | backend/app/llm/gateway.py:106-109 | an answer that lasts less than the deadline and what is left of the budget is what comes back, as it is and then |
| `Gateway.WhyItTimedOut` | backend/app/llm/gateway.py:106-111 | a timeout comes back only if the last call's reply is that error or would come at the deadline or the end of the budget, or later |
| `Gateway.RetryKeepsTime` | backend/app/llm/gateway.py:104-122 | calls and waits of one entry never outlive the budget |
| `Gateway.RetryCalls` | backend/app/llm/gateway.py:102-122 | between one and max_retries + 1 calls are made, and the budget check before a call never fires |
| `Gateway.RetryIsTheLastReply` | backend/app/llm/gateway.py:108-122 | what comes back is the provider's reply to the last call, or a timeout |
| `Gateway.EarlierCallsMayBeRetried` | backend/app/llm/gateway.py:116-122 | a call to an entry is repeated only after a retryable failure or a timeout |
| `Gateway.WhyItGaveUp` | backend/app/llm/gateway.py:116-122 | an entry is given up only when its last error may not be retried, the retries are used up, or waiting would exhaust the budget |
| `Gateway.Generate` | backend/app/llm/gateway.py:215-296 | over any chain: it ends within the total budget, leaves one record per tried entry in order, skipped is exactly the earlier entries with their errors, the fallback index is their number, and entries stay untried only when the budget is gone; the first entry that can be called, when it answers in time, gives the answer after one call |
| `Gateway.RedactedIsCleanIff` | backend/app/llm/gateway.py:139-157 | for every credential: no response given back, of all that a provider may send, contains it if and only if it has at least eight characters and no mark put in its place can spell it again |
| `Gateway.CleanIsUntouched` | backend/app/llm/gateway.py:133-157 | a response without it comes back as it was |
| `Gateway.StreamedShowsIff` | backend/app/llm/gateway.py:361-364 | for any provider events: in the texts streamed, put together, a credential at odds with the mark shows if and only if its characters stand one after the other in the provider's texts, none of them in an occurrence that was replaced; within one event they never do |
| `Gateway.PassOn` | backend/app/llm/gateway.py:343-364 | the events of one call are passed on after one start event naming the entry |
| `Gateway.StreamEntry` | backend/app/llm/gateway.py:339-379 | an entry is retried only after a retryable failure before its first event, at most max_retries times |
| `Gateway.Stream` | backend/app/llm/gateway.py:299-391 | the caller sees nothing, or one start event naming the entry and then each event of a single call in order, redacted: of the last one made; whatever was called before failed without an event |
| `Redaction.RedactionIsSoundIff` | backend/app/llm/gateway.py:133-136 | redaction keeps a credential out of every text if and only if it has at least eight characters and agrees with the mark at no overlap, save those where the part ahead of the mark begins an earlier occurrence |
| `Redaction.RespelledText` | backend/app/llm/gateway.py:133-136 | for every other credential of that length, the text whose redaction contains it |
| `Redaction.SpelledByMarks` | backend/app/llm/gateway.py:133-136 | two credentials the vault accepts that come back out: the mark's own word, and one that ends as the mark begins |
| `Redaction.WithoutBracketsIsPlain` | backend/app/llm/gateway.py:133-136 | a credential of at least eight characters without brackets, other than the mark's word, agrees with the mark at no overlap |
| `Redaction.StreamShowsIff` | backend/app/llm/gateway.py:361-364 | the same of any texts redacted one by one: a condition on the texts before redaction |
| `Redaction.SplitSecretSurvives` | backend/app/llm/gateway.py:133-136 | and there they can: two parts of a credential are each left alone |
| `KeyFile.PushPrefix` | backend/app/core/bootstrap.py:75-79 | the first n six-bit groups of an encoding decode to its first 6n/8 whole bytes |
| `KeyFile.PrefixDecodes` | backend/app/core/bootstrap.py:75-79 | a start of an encoding, padded, decodes to that start of the bytes, or to nothing when one symbol hangs over |
| `KeyFile.Base64RoundTrip` | backend/app/core/bootstrap.py:103 | decoding undoes encoding for any bytes |
| `KeyFile.EncodeExamples` | backend/app/core/bootstrap.py:103 | examples of the standard, with both symbols of the URL-safe alphabet |
| `KeyFile.DecodeExamples` | backend/app/core/bootstrap.py:75-79 | how leniently texts are decoded: foreign characters, missing padding, both alphabets |
| `KeyFile.StripAround` | backend/app/core/bootstrap.py:96 | white space around a stored key is taken off, and nothing else |
| `KeyFile.OnlyTheWholeKeyIsRead` | backend/app/core/bootstrap.py:75-79 | of all states of a key file being written, a reader accepts exactly the complete key and the key short of its last padding, and decodes both to the same bytes |
| `KeyFile.StepKeepsInv` | backend/app/core/bootstrap.py:82-108 | every create, partial write, close, poll and crash keeps all returned keys equal to what the file stands for |
| `KeyFile.WorkersAgree` | backend/app/core/bootstrap.py:82-108 | whatever the interleaving, the partial writes and the file's earlier content, all workers that return a key return the same 32 bytes |
| `KeyFile.WrittenIsRead` | backend/app/core/bootstrap.py:94-100 | once all but the last padding character is written, no poll fails |
| `KeyFile.KeyIsShared` | backend/app/core/bootstrap.py:91-108 | the usual course: a worker that finds the file half-written waits, and both return the key |
| `KeyFile.DeadWriterMeansGivingUp` | backend/app/core/bootstrap.py:94-101 | a file left short of 43 characters makes a worker give up at its hundredth poll |
| `KeyFile.AwaitKey` | backend/app/core/bootstrap.py:95-100 | the polling loop returns the first valid content and gives up only after a hundred invalid ones |
| `DeleteRace.DeletionIsCleanIff` | backend/app/services/knowledge/ingestion.py:207-227 | once everything has ended, no vectors are left for a deleted collection if and only if there were none at the deletion's commit or some ingestion was still running then |
| `DeleteRace.LateCommitsAreSafe` | backend/app/services/knowledge/ingestion.py:207-227 | if no ingestion commits between the delete's drop and its commit, no vectors survive |
| `DeleteRace.EarlyCommitLeavesVectors` | backend/app/api/v1/knowledge.py:98-122 | an ingestion that commits between the two leaves its vectors behind for good |
| `Routing.ResolvedIsGood` | backend/app/llm/routing.py:147-183 | every resolved target is an active account of the deployment or of the caller, never another user's, and local when privacy or the purpose asks for it |
| `Routing.ResolvedIs` | backend/app/llm/routing.py:147-183 | the route, spelled out: of own purpose, deployment purpose, own default, deployment default, the first with an entry that serves among its first five, all of those in order; none if and only if the purpose is unknown or no place has one |
| `Routing.FirstRouteIsFirst` | backend/app/llm/routing.py:172-180 | the route comes from the first of own purpose, deployment purpose, own default, deployment default that has anything usable |
| `Routing.NoRouteIffNone` | backend/app/llm/routing.py:181-183 | there is no route if and only if none of these places has anything usable |
| `Routing.SetThenResolve` | backend/app/llm/routing.py:79-119 | an accepted route resolves to exactly its entries in order, with privacy to exactly its local ones: a personal one for its owner, a deployment one for every caller without a personal one |
| `Routing.RoutingStore.ChainTargets` | backend/app/llm/routing.py:147-162 | the usable entries among the first five of a chain, in order |
| `Routing.RoutingStore.Resolve` | backend/app/llm/routing.py:165-183 | the nested loops find that route, and none exactly when there is none |
| `Routing.RoutingStore.SetPolicy` | backend/app/llm/routing.py:79-119 | stored if and only if purpose, length, rights, accounts and locality allow it, and else refused with the right status; the store keeps its cross-table invariants |
| `Routing.RoutingStore.DeletePolicy` | backend/app/llm/routing.py:122-144 | the caller's policy is removed if it may and there is one |
| `Routing.RoutingStore.CreateAccount` | backend/app/llm/accounts.py:227-321 | stored active under its owner if and only if provider, rights, scope, limit and name allow it, with the invariants kept |
| `Routing.RoutingStore.UpdateAccount` | backend/app/llm/accounts.py:358-418 | when rights, locality and name allow it, name, status and locality change, the owner never; chains stay valid |
| `Routing.RoutingStore.DeleteAccount` | backend/app/llm/accounts.py:435-459 | the account leaves the store and every chain; chains left empty are removed |
| `Routing.RoutingStore.PruneChains` | backend/app/llm/accounts.py:449-457 | each chain loses exactly the entries of the account |
| `Routing.PruningChangesNoRoute` | backend/app/llm/accounts.py:449-457 | dropping those entries changes no caller's route |

## Left out

- Finding references in template text is a regular expression's work: a template is given as its literal pieces and references, and so is the reference that the validator's joined text may have across the border of prompt and knowledge query. URL parsing, JSON text and UTF-8 are parameters, as said above.
- Workflow triggers, cancellation, two simultaneous decisions on one run (the code has no guard there), and audit text, metrics, logs and bus events. Times of rows and runs are not stored in the model of the executor.
- WorkflowExecutor.WorkflowRun.RunParallel: substeps are called one after the other; the real fan-out is concurrent, which shows only in the order of the calls, since all read one snapshot and none sees another's result.
- Lease.LeasesAreSafe: a worker takes its lease in the same step in which the row is committed; the code commits first and registers the lease immediately after. A worker that stalls longer than two missed renewals is outside the timing hypothesis.
- Lease.OrphansAreBounded: a reaper pass is taken to complete at least every `passEvery`; how often the leader gate lets a pass happen is not part of this bound.
- Lease.LeaseTable.ReapStale: an undisturbed pass. Interleaved passes, renewals and crashes are the step system's subject.
- TaskDispatch.TaskRun.Execute: the privacy refusal, knowledge injection, and the branches that hand the task to the LLM layer or a cloud provider before the attempt loop; candidate selection and the exact wording of the final error.
- RedisWindow.AdvertisedWait: the wait of `try_hit`; that of `penalty` is computed the same way, and only when it is zero is stated.
- Window.InProcessWindowStore.Clear: clearing all keys with a prefix is not modelled.
- ClaudeStream.HandleRead: what `classify_failure` answers is a parameter, and the plan usage kept for the status page is not modelled, only whether reading it raises.
- ClaudeAnswer.Answer: the mapping of the node's HTTP status to errors (`_from_agent_status`), transport failures and tool calls, which this adapter never yields.
- Lines.StreamLines: opening the response, status codes and transport errors.
- Gateway.Generate: exceptions that are not normalized provider errors; the usage row's cost and latency. A call that takes exactly its time limit counts as timed out.
- Gateway.RedactedIsCleanIff: credentials inside the arguments of tool calls.
- Gateway.StreamedShowsIff: streams with a credential that agrees with the mark where the two overlap; only its single texts are decided (`RedactedIsCleanIff`).
- Gateway.Stream: a caller that stops listening midway, and the time the waits take (this path has no budget).
- KeyFile.WorkersAgree: unreadable files and text that is not ASCII, where the code raises.
- DeleteRace.DeletionIsCleanIff: failures of the drops themselves, a worker that dies before its last drop, foreign-key conflicts between an upload and the deletion's transaction, and requests applied by the store after they were cancelled.
- Routing.RoutingStore.CreateAccount: credentials, endpoint and authentication checks; an account is its owner, provider, name, status and locality. Removing users is not modelled.
- Chunker.ChunkText: which characters count as white space is a parameter, and an overlap of at least the size, for which the slicing loop does not terminate, is excluded; the defaults are 800 and 100.
- Provider payload translation, extraction of text from files, embeddings and ranking, node selection, the desktop application, installation and migrations: other parts of the system.
