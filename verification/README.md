# A verified model of the workflow engine

The engine runs a workflow of unreliable agents and must be able to stop at any
moment and resume. This project models the parts of it where that is hardest,
in Dafny, and proves what they promise:

- **Replay.** Agent calls are memoized under structural keys in an append-only
  cache file (`Keys`, `GluedLines`, `Resume`, `Replay`). A workflow is any program
  of threads that ask agents, fork children and await them, whose next step is a
  function of what they have seen (`Histories`); it may be interrupted at any event,
  with each of the two writes of an append lost or cut at any byte. Programs that
  use scopes as the engine does are among them (`Scopes`). A printer of rows that
  the file can rely on is given (`RowPrinter`).
- **Run log.** Numbered events in a JSON-lines file that survives torn writes
  and restarts (`Utf8`, `JsonText`, `JsonLines`, `RunLog`), the checker of its
  invariants and the fold over it (`RunLogChecker`).
- **Control flow.** A big-step semantics of the node algebra with throws,
  cancellation and escalation (`Nodes`), the interpreter's loops proved against
  it (`Engine`), its laws (`NodeLaws`, `NodeFuel`, `Gates`, `Lifecycle`), and the
  worker pool as a small-step system (`WorkerPool`, `PoolThrows`).
- **Findings.** The convergence ledger over whole histories
  (`ConvergenceLedger`) and the convergence duty of reviews (`ReviewFindings`).
- **Scanners.** Quote repair and object search (`ControlScan`), section
  stripping (`DocStrip`) and data fences (`DataFence`).
- **Delegation.** One attempt as an event machine (`DelegationAttempt`) and the
  driver around it (`Delegation`).
- **Tracker and document numbers.** The git delta and the claims checked
  against it (`GitDelta`), the brackets of the trace (`Tracker`) and the number
  allocator (`DocNumbers`).

`Options` and `Seqs` hold what all modules share. Where the source updates
state in place the model does too: a class whose methods are proved equal to a
specification function on values, about which the lemmas speak.

`dafny verify dfyconfig.toml` checks everything.

## Reading the model

- Text is a sequence of Unicode characters. A log file is a sequence of bytes: what
  is written is the UTF-8 form of the text (RFC 3629), a write may be cut after any
  byte, and what is read back has one U+FFFD for every ill-formed piece, as the
  WHATWG decoder and Node's have it. The size limit of an event counts UTF-16
  units, as `line.length` and `slice` do.
- A history of a thread is what it has seen: its results, its forks, and at a join
  the histories of the children it awaited; a child has also seen what its parent
  had. Two runs are compared by histories, so a call has an identity that no
  schedule can change.
- `JSON.parse` and `JSON.stringify` are a codec about which two facts of RFC 8259
  are used: a record prints as the text of one object on one line and parses
  back, and only JSON texts parse. A row of the cache also starts with a name whose
  first character is a letter, as `"key"` does. That such a codec exists is proved
  (`RowPrinter.SomeCodecRecordsLines`); that a cut object and a glued line are no
  JSON texts is proved, too (`JsonText.CutObjectIsNoJsonText`,
  `GluedLines.DeadIsNoJson`), not assumed.
- What stages, predicates, validators, agents, the user, git and the abort signal
  do is given as functions of what they see. Regular expressions over prose,
  hashes and severity words are functions as well.
- Fuel bounds the search for a result of a node tree and nothing else
  (`NodeFuel.MoreFuel`).

Some promises in the source's comments do not hold in full. For each the model
keeps the code as it is, shows where it fails and says when it holds:

- An acknowledged event is readable exactly when its envelope fits the limit
  (`RunLog.AckedIsReadExactlyWhenItFits`), and the events stay numbered 1..n exactly
  when no acknowledged oversized event is followed by a readable one without a
  restart or a torn write between (`RunLog.NumberedExactly`; it fails in
  `RunLog.OversizedLeavesAGap`).
- A row of the cache file that was written whole is readable exactly when the file
  ended clean or the healing line break in front of it was written; when it was not,
  the row is lost in the line it glued onto, and takes a row with it that only
  lacked its line break (`GluedLines.AppendIsRecorded`, `Resume.AppendRowLoads`; it
  fails in `GluedLines.GluedRecordIsLost` and `GluedLines.LooseRecordIsLost`).
- A result is given back unchanged exactly when it has no error, or an empty error
  text beside a body text and no control: the write side tests an error for
  presence, the read side for truth (`Resume.ReplayableExactly`; it fails in
  `Resume.EmptyErrorLosesItsControl`).
- Two calls of a run share a key only if they come from different sites with the
  same `id@scope` text, and for ids without NUL some two do whenever a run has such
  calls (`Keys.KeysCollideExactly`; it fails in `Keys.AtSignsCollide`, never for ids
  without `@`, `Keys.PlainIdsNeverCollide`, and not always with NUL,
  `Keys.NulKeepsThemApart`).
- Other branches leave the key of a call alone exactly when none of their calls
  counted on its counter, which ids without NUL never do (`Keys.KeyIsLocal`; one
  does in `Keys.NulSharesACounter`).
- A FatalAbort thrown in a worker pool is masked by some schedule exactly when an
  ordinary throw can be in flight beside it (`PoolThrows.MaskedExactlyByRaces`; it
  is in `WorkerPool.OrdinaryThrowCanWin`).
- An escalation costs a retry exactly when there is a callback and a retry left,
  whatever the user answers; the comment above `runEscalation` speaks of decisions
  only (`Gates.EscalationCharges`; accepting costs one in `Gates.AcceptingIsCharged`).
- A passing gate verifies exactly those of its findings whose last error text does
  not read as deferred (`Gates.PassVerifiesExactly`; one stays deferred in
  `Gates.DeferredTextStaysDeferred`).
- An unclosed fence cannot keep a non-normative section, but opened inside one it
  hides the rest of the document (`DocStrip.UnclosedFenceHidesTheRest`).
- Stripping a text twice is stripping it once exactly when no kept line but the
  last ends in a carriage return (`DocStrip.StripTextTwice`; it fails in
  `DocStrip.DoubledCrIsStrippedAgain`).
- An error-free delegation result always has its declared keys exactly when every
  control that can be obtained without a schema violation has them
  (`Delegation.KeysAreThereExactly`; it fails in
  `Delegation.CorrectedAnswerMayLackKeys`).
- A degrade of structured results lasts exactly as long as no structured attempt
  completes before such results were rejected as unsupported
  (`Delegation.DegradationLastsExactly`); it is for good exactly when they were, or
  no structured call is in flight (`Delegation.DegradedForGoodExactly`; a call in
  flight ends it in `Delegation.InFlightSuccessRestores`).
- Document numbers collide exactly when a group is allocated in part or a slug
  ends in a dash and another's (`DocNumbers.PlacedCleanlyExactly`; both happen in
  `DocNumbers.PartOfAGroupCollides`).

## Model

| member | source | states |
|---|---|---|
| `JsonText.ValueNeutral` | src/control.ts:299-329 | A brace scanner that reads the text of any JSON value is afterwards where it was and was never shallower: strings, escapes and nesting cannot end the scan |
| `JsonText.CutObjectIsOpen` | src/control.ts:299-329 | After any proper prefix of an object's text the scanner is still inside the object |
| `JsonText.CutObjectIsNoJsonText` | src/runlog.ts:121-221 | A torn line of a log never parses: no proper prefix of an object's text is a JSON text |
| `JsonText.BrokenObjectIsNoJsonText` | src/runlog.ts:252-271 | Nor does one that ends inside a character: a proper prefix of an object's text with any character beyond ASCII behind it is no JSON text |
| `Utf8.DecodesEncoded` | src/runlog.ts:184-221 | Text written as bytes is read back as it was, whatever follows |
| `Utf8.CutDecodes` | src/runlog.ts:252-271 | Bytes cut anywhere are read as the characters that are there whole, and one U+FFFD when the cut went through a character |
| `Utf8.DecodeConcat` | src/runlog.ts:121-221 | What is appended to a file is read on its own, when the file does not end inside a character or the new bytes start with an ASCII one |
| `Utf8.SameEnd` | src/runlog.ts:162-178 | The last byte is a line feed if and only if the last character is, for every stretch of bytes |
| `ControlScan.FindLastJsonObject` | src/control.ts:299-329 | The loop returns the last of the balanced candidates |
| `ControlScan.CandidatesAreTheObjects` | src/control.ts:299-329 | In a reply of prose without braces and JSON objects the candidates are exactly the objects, in order: none cut short, none nested |
| `ControlScan.FindsTheLastObject` | src/control.ts:299-329 | The reply's last object is found whole, and nothing when there is none |
| `ControlScan.FindsTheObject` | src/control.ts:299-329 | p + print(v) + q gives back print(v) for every object v and brace-free p, q |
| `ControlScan.RepairUnescapedQuotes` | src/control.ts:150-182 | The loop with its lookahead computes the repair of the whole text |
| `ControlScan.RepairedIsWellClosed` | src/control.ts:128-182 | After the repair every closing quote is followed by a structural character or the end |
| `ControlScan.FixedExactlyWhenWellClosed` | src/control.ts:150-182 | The repair changes nothing if and only if the text was already so |
| `ControlScan.RepairIsIdempotent` | src/control.ts:150-182 | Repairing twice is repairing once |
| `ControlScan.RepairOnlyEscapesQuotes` | src/control.ts:150-182 | The repair adds backslashes before quotes and changes nothing else |
| `ControlScan.JsonTextIsFixed` | src/control.ts:143-147 | Every JSON text is left as it is |
| `JsonLines.SoundIsReliable` | src/runlog.ts:184-221 | From the two facts about JSON it follows that a line cut out of a record at any byte parses only when it is whole |
| `JsonLines.AppendCut` | src/runlog.ts:162-221 | An append cut after any byte leaves the earlier lines readable and adds its own exactly when all its bytes were written |
| `JsonLines.LandedIsRead` | src/runlog.ts:162-221 | Bytes appended to bytes are read as text appended to text, whatever was cut before and now |
| `RunLog.NextIsPastTheEvents` | src/runlog.ts:121-160 | The next number is one past the events on disk, whether it is remembered or probed from the tail, and the two tests for a clean end agree |
| `RunLog.AppendReads` | src/runlog.ts:184-221 | One append, cut at any byte: earlier events stay, and the new one is added exactly when it fits and its line was written whole |
| `RunLog.RunKeepsNumbers` | src/runlog.ts:121-221 | Any run of appends, torn writes and restarts keeps the numbers dense and every acknowledged event at its number |
| `RunLog.LogSurvivesCrashes` | src/runlog.ts:121-221 | From an empty log, after any such run the reader sees events numbered 1..n in order, nothing it saw earlier is lost, and every append that returned a number is there |
| `RunLog.AckedIsReadExactlyWhenItFits` | src/runlog.ts:195-221 | An acknowledged event is readable at its number if and only if its envelope fits the limit |
| `RunLog.NumberedExactly` | src/runlog.ts:121-221 | Over any run from an empty log, whatever fits or not, the events are numbered 1..n if and only if no acknowledged oversized event is followed by a readable one without a restart or a torn write between |
| `RunLog.OversizedLeavesAGap` | src/runlog.ts:204-219 | One oversized envelope is lost, and the next event is written past a gap |
| `RunLog.RunLogFile.TailProbe` | src/runlog.ts:121-160 | The backward scan finds the last readable number and whether the file ends clean |
| `RunLog.RunLogFile.FileEndsClean` | src/runlog.ts:162-178 | By its last byte: true exactly for an empty file or one whose text ends in a line break |
| `RunLog.RunLogFile.AppendRunEvent` | src/runlog.ts:184-221 | The append on bytes is the step the crash theorem is about: same text, cache and returned number |
| `RunLog.RunLogFile.RestartProcess` | src/runlog.ts:121-160 | A new process keeps the file and forgets the cache |
| `RunLog.RunLogFile.ReadRunEvents` | src/runlog.ts:252-271 | Reading skips what does not parse and keeps the order |
| `RunLogChecker.CheckRunLogInvariants` | src/runlog.ts:323-390 | No violation is reported if and only if the stream meets INV-L1 to INV-L6, stated without the checker's state |
| `RunLogChecker.OutcomeIsLastTerminal` | src/runlog.ts:303-321 | The fold knows exactly the stages that ended, each with the outcome after which it did not end again |
| `RunLogChecker.ReconstructStageOutcomes` | src/runlog.ts:303-321 | The loop computes that fold |
| `Keys.KeyExactly` | src/resume.ts:241-250 | Two keys are equal if and only if their `id@scope` texts and their occurrences are |
| `Keys.AtSignsCollide` | src/resume.ts:241-250 | A run of two calls with `@` in a scope and in an id, whose counters mint one key |
| `Keys.OccKeyInjective` | src/resume.ts:244-246 | The occurrence counters of different ids and scopes are different, for ids without NUL |
| `Keys.TombstoneIsNoKey` | src/resume.ts:83-91 | No call mints the tombstone's key |
| `Keys.KeyIsLocal` | src/resume.ts:241-250 | The key of a call is the one its own scope's calls alone would give it, whatever other branches did in between, if and only if none of their calls counted on its counter; without NUL in the ids none does |
| `Keys.NulSharesACounter` | src/resume.ts:244-246 | Two calls whose id and scope meet around a NUL share a counter, and the second gets another key than its scope alone would give it |
| `Keys.InterleavingsAgree` | src/resume.ts:241-250 | Any two interleavings of the same branches give the j-th call of a scope the same key, for ids without NUL |
| `Keys.KeysCollideExactly` | src/resume.ts:241-250 | In any run two calls that share a minted key come from different sites with the same `id@scope`; and for ids without NUL two calls of a run share one if and only if some two are such |
| `Keys.NulKeepsThemApart` | src/resume.ts:244-246 | With NUL in the ids two sites with the same `id@scope` may get different keys in a run |
| `Keys.PlainIdsNeverCollide` | src/resume.ts:241-250 | No two calls of a run whose ids have no `@` share a key, whatever the scopes |
| `Resume.ServedCarriesNoError` | src/resume.ts:252-304 | What the cache serves never carries an error |
| `Resume.ReplayableExactly` | src/resume.ts:252-322 | A result is persisted and served back unchanged if and only if it has no error, or an empty one beside text and no control |
| `Resume.EmptyErrorLosesItsControl` | src/resume.ts:306-309 | An empty error beside a control: the result is stored and comes back without its control |
| `GluedLines.DeadIsNoJson` | src/resume.ts:59-63 | A line that hangs inside its braces, closes a string before a character that cannot follow one, or goes on behind its object is no JSON text |
| `GluedLines.CutIsDead` | src/resume.ts:59-63 | What is left of a row cut at any byte is such a line |
| `GluedLines.WholeAndMoreIsDead` | src/resume.ts:59-63 | So is a whole row with any part of another behind it |
| `GluedLines.DeadStaysDead` | src/resume.ts:59-63 | And any part of a row glued behind such a line leaves it so: no glued line is ever readable again |
| `GluedLines.AppendIsRecorded` | src/resume.ts:64-81 | An append of two writes, the healing break lost or not and the row cut at any byte: the new row is readable if and only if all its bytes were written behind a clean end or the break, and all earlier rows stay but one without its line break that a glued row was written behind |
| `GluedLines.AppendReads` | src/resume.ts:64-81 | The same as the reader sees it: the rows before, less the one glued onto, and the new one exactly when it landed |
| `GluedLines.GluedRecordIsLost` | src/resume.ts:68-77 | A torn row, then a lost healing break and a row written whole: nothing is readable |
| `GluedLines.LooseRecordIsLost` | src/resume.ts:68-77 | A readable row without its line break, then the same: it is gone too |
| `RowPrinter.SomeCodecRecordsLines` | src/resume.ts:77-77 | There is a codec of rows that meets all that is asked of `JSON.stringify` and `JSON.parse` here: quotes, backslashes and control characters escaped, no two rows print alike, one line each |
| `Resume.AppendRowLoads` | src/resume.ts:59-81 | The file loads as the last-wins fold of its readable rows, wherever the two writes of the newest row were cut or lost |
| `Resume.StoreKeepsAgreement` | src/resume.ts:306-322 | A live call without a torn write keeps the in-memory map equal to the reloaded file, up to the tombstone |
| `Resume.FailedRunLeavesAFile` | src/resume.ts:83-91 | After a pure failure the file is not empty, so the run is discoverable |
| `Resume.MemoizingAgent.LoadResumeCache` | src/resume.ts:102-122 | The line loop fills the map with the last row of every key |
| `Resume.MemoizingAgent.BeginCall` | src/resume.ts:241-304 | The synchronous half of a call mints the next key of its scope and looks it up |
| `Resume.MemoizingAgent.FinishCall` | src/resume.ts:305-322 | The half after the live answer updates the map and the file |
| `Resume.MemoizingAgent.AppendResumeResult` | src/resume.ts:59-81 | Two writes: a line break behind an unclean end, whose failure is passed over, and the row |
| `Resume.MemoizingAgent.HealEnd` | src/resume.ts:68-76 | The first of them: only behind a last byte that is no line feed |
| `Resume.MemoizingAgent.EnsureTombstone` | src/resume.ts:83-91 | The tombstone is written only into an absent file |
| `Histories.Related` | src/nodes.ts:408-450 | Of two calls, of one run or of two runs that got the same answers, one is in the causal past of the other, or their threads may run at the same time |
| `Histories.SameTrail` | src/nodes.ts:408-450 | What a join hands over is the same in both runs |
| `Histories.DistinctKeys` | src/resume.ts:241-250 | The keys of two such calls are different |
| `Scopes.DisciplinedIsWellScoped` | src/workflow.ts:155-159 | A program that runs every branch under its own `parallel[i]` marker and awaits what it forks, with plain ids, keeps all calls that may be in flight together apart |
| `Scopes.TestAndFixIsWellScoped` | src/stages/verify/steps.ts:617-640 | So does the test block in its loop: two branches side by side, and a call outside them after the join |
| `Replay.MintsItsOwnKey` | src/resume.ts:241-250 | In any run of any program the key the counters mint for a call is a function of its causal history: own and awaited calls, no schedule and no other thread |
| `Replay.RunKeepsDisk` | src/resume.ts:231-322 | At every moment, whatever the schedule and wherever writes are cut or lost, the file would give back exactly the results marked as kept, but for calls whose row a glued write took with it |
| `Replay.ReplayIsFaithful` | src/resume.ts:220-322 | Rerun under any schedule on the file an interrupted run left: every call whose causal past that file gives back is given the same result without a live call if the file gives it back too, and not if it does not; and every such thread sees what it saw before |
| `Replay.ReplayIsComplete` | src/resume.ts:220-322 | And the rerun gets that far: when it can only wait for live answers, every history whose causal past the file gives back has been passed, and every such call in it given back |
| `Replay.FileIsTheFold` | src/resume.ts:59-122 | For every program, from a fresh process, after any mix of live calls, hits, pure failures, torn writes and lost line breaks: the file holds its old rows and then those written whole behind a clean end, less what glued rows took with them, and loads as their last-wins fold |
| `Replay.KeptExactly` | src/resume.ts:252-322 | A live result is kept if and only if it is replayable and its row is readable; a served one always is, and carries no error |
| `Replay.RunKeepsAgreement` | src/resume.ts:306-319 | For every program, without I/O failures memory and the reloaded file agree at every moment, up to the tombstone |
| `Replay.CleanRunIsKept` | src/resume.ts:220-322 | A run whose live answers were replayable is given back whole |
| `Engine.Interpreter.Run` | src/nodes.ts:180-775 | The imperative interpreter leaves the state and the result of the big-step semantics, for every tree |
| `Engine.Interpreter.RunTask` | src/nodes.ts:180-323 | A task's rows, events, skips, budget check and cancellation are those of the semantics |
| `Engine.Interpreter.RunSequence` | src/nodes.ts:332-357 | The child loop stops, continues and rethrows as the semantics does |
| `Engine.Interpreter.RunBranch` | src/nodes.ts:362-374 | A predicate that throws, holds or does not decides the branch |
| `Engine.Interpreter.RunChoose` | src/nodes.ts:381-392 | The first case that holds runs, or the otherwise branch |
| `Engine.Interpreter.RunLoop` | src/nodes.ts:462-482 | The attempt loop with while, until, times and tolerant |
| `Engine.Interpreter.RunRetry` | src/nodes.ts:492-514 | The retry loop with its last result and its filter |
| `Engine.Interpreter.RunMap` | src/nodes.ts:692-721 | The guard on concurrency, the single worker's queue, no items without a worker, and the join |
| `Engine.Interpreter.RunTryCatch` | src/nodes.ts:745-772 | Catch and finally, including a throwing finalizer |
| `Engine.Interpreter.RunGate` | src/nodes.ts:547-675 | The nested attempt and escalation loops of a gate |
| `Engine.Interpreter.AskUser` | src/escalation.ts:52-93 | The budget is charged before the user is asked; no callback and no budget are no decision |
| `NodeFuel.MoreFuel` | src/nodes.ts:462-675 | A result does not depend on how much fuel was left |
| `NodeLaws.FatalAbortSurfaces` | src/nodes.ts:332-772 | In a tree without concurrency the root throws FatalAbort if and only if one was raised anywhere: no tolerant sequence, loop, retry, gate, catch or finalizer turns it into a result |
| `NodeLaws.BudgetsAreNeverRefunded` | src/escalation.ts:52-93 | Nothing that runs gives back an escalation retry |
| `NodeLaws.EvalLaw` | src/nodes.ts:180-775 | What every tree keeps: events come in start and terminal pairs with their rows unless a FatalAbort escapes, and a tree without gates leaves ledger, feedback and retries alone |
| `Gates.GateOkExactly` | src/nodes.ts:547-675 | A gate is ok if and only if its last validator call passed or a limitation was accepted, and then the marker is set |
| `Gates.TargetRunsAreBounded` | src/nodes.ts:547-675 | A gate runs its target at most attempts x (1 + retry cap) times, whatever the user answers and whatever nodes the target is made of |
| `Gates.PassVerifiesExactly` | src/nodes.ts:590-622 | When a gate passes, its feedback is gone, and of the rows its validator's errors were recorded in on the way exactly those are verified whose last error does not read as deferred |
| `Gates.PassVerifiesAll` | src/nodes.ts:590-622 | So all are, when no reported error reads as deferred |
| `Gates.EscalationCharges` | src/escalation.ts:66-93 | An escalation takes one retry from its own gate if and only if there is a callback and a retry left |
| `Gates.AcceptingIsCharged` | src/escalation.ts:66-93 | A user who accepts the limitation at once has spent a retry |
| `Gates.DeferredTextStaysDeferred` | src/nodes.ts:590-622 | A validator error whose text reads as deferred stays deferred after a pass |
| `Lifecycle.LoggedIsPaired` | src/runlog.ts:378-388 | A stream of start and terminal pairs meets INV-L6, cut off or completed |
| `Lifecycle.FoldIsLastRow` | src/runlog.ts:303-321 | The reference fold says of every stage what its last result row says |
| `Lifecycle.TreeLogsItsOutcomes` | src/nodes.ts:180-323 | Every sequential tree whose bodies emit no stage events and whose run no FatalAbort ends logs a stream that meets INV-L6, and the fold over it equals the last row of every stage |
| `WorkerPool.Workers.Poll` | src/nodes.ts:71-76 | The head of a worker's loop takes the next function or leaves, as the pool's step says |
| `WorkerPool.Workers.Settle` | src/nodes.ts:77-82 | A settled function stores its value or stops the pool, as the pool's step says |
| `WorkerPool.RunKeepsInv` | src/nodes.ts:61-88 | Every schedule keeps every started function accounted for: running on one worker, returned in its place, or thrown |
| `WorkerPool.StaysWithinTheCap` | src/nodes.ts:61-88 | Under every schedule at most n functions are in flight and each is started at most once, in order |
| `WorkerPool.NoStartAfterStop` | src/nodes.ts:64-73 | After a throw or an abort nothing is started |
| `WorkerPool.CompletesExactlyWithWorkers` | src/nodes.ts:61-88 | A clean completion has every function's value at its index if and only if the pool had a worker or nothing to do |
| `WorkerPool.EveryScheduleEnds` | src/nodes.ts:70-87 | The effective moves of a schedule are bounded, and an unfinished pool can always move |
| `WorkerPool.ParallelIsScheduleIndependent` | src/nodes.ts:408-450 | Whatever the interleaving, a parallel node whose branches do not throw returns what its branches decide, cancelled included |
| `WorkerPool.RejectsWithAThrow` | src/nodes.ts:78-87 | What a pool rejects with was thrown by one of its functions, and is fatal when no function throws an ordinary error |
| `WorkerPool.OrdinaryThrowCanWin` | src/nodes.ts:78-87 | Two branches where an ordinary throw masks a fatal one |
| `WorkerPool.Budget.Spent` | src/workflow.ts:137-153 | One atomic reservation |
| `WorkerPool.GrantsAreExact` | src/workflow.ts:137-153 | Any interleaving of reservations grants exactly min(requests, what is left), and the count equals the grants |
| `PoolThrows.MaskedExactlyByRaces` | src/nodes.ts:61-88 | Some schedule the pool can take, all workers polling at once and each again as soon as its function returns, masks a fatal throw if and only if an ordinary and a fatal thrower can be in flight together: no more blocking functions up to both than workers. So it is for all schedules |
| `PoolThrows.OneWorkerNeverMasks` | src/nodes.ts:692-721 | A single worker, as in a map, never masks a FatalAbort |
| `ReviewFindings.PinningImpliesBlocking` | src/review-findings.ts:59-124 | Whatever pins the verdict blocks |
| `ReviewFindings.StillPinsExactly` | src/review-findings.ts:297-381 | After the duty a finding pins the verdict if and only if it did and is a live known id, a restatement, high severity or the exempted one |
| `ReviewFindings.DutyVerdict` | src/review-findings.ts:297-381 | The same for every finding of a whole round, where the exemption goes to the first eligible one |
| `ReviewFindings.OneExemption` | src/review-findings.ts:340-381 | At most one finding of a round survives by exemption |
| `ReviewFindings.DowngradedNeverPins` | src/review-findings.ts:345-372 | A downgraded finding never pins the verdict |
| `ReviewFindings.ReviewControl.EnforceReviewerConvergenceDuty` | src/review-findings.ts:297-381 | The loop rewrites the findings one by one, counts exemptions and downgrades, and does nothing before round 3 |
| `ConvergenceLedger.LeavesExactlyWhenCleared` | src/convergence-ledger.ts:492-582 | A blocking finding leaves the blocking set in a step if and only if the step is a verified or deferred record, a duty downgrade, a resolution, a verification or an explicit close of it, or a stage that demotes the row itself |
| `ConvergenceLedger.GoneWasCleared` | src/convergence-ledger.ts:492-731 | Over any history, demotions by stages included, a blocker that is gone was cleared at a moment when it still blocked |
| `ConvergenceLedger.WritersNeverClear` | src/convergence-ledger.ts:623-655 | No run of writer responses shrinks the blocking set |
| `ConvergenceLedger.HistoryKeepsLedger` | src/convergence-ledger.ts:492-558 | Over any history ids and fingerprints stay pairwise distinct, no finding is dropped or renamed, and the sightings add up to the records processed |
| `ConvergenceLedger.IdentityIsKept` | src/convergence-ledger.ts:508-545 | A row keeps id and fingerprint, and high severity is never lowered |
| `ConvergenceLedger.RecordingTwiceAddsNoRow` | src/convergence-ledger.ts:508-556 | A finding recorded again finds the row it went to |
| `ConvergenceLedger.ReviewBlockersAreRecorded` | src/convergence-ledger.ts:432-465 | What the reviews count as blocking is recorded as blocking, unless it is settled, downgraded by the duty layer or flagged otherwise |
| `ConvergenceLedger.RecordAllIsARun` | src/convergence-ledger.ts:492-558 | A batch of records is the run of its single records, so the history laws cover it |
| `ConvergenceLedger.RespondAllIsARun` | src/convergence-ledger.ts:623-655 | A batch of responses is the run of its single responses |
| `ConvergenceLedger.CarriedIsDownstream` | src/convergence-ledger.ts:584-608 | A blocker is carried out of a stage's loop if and only if its owner comes strictly later |
| `ConvergenceLedger.Ledger.RecordConvergenceFindings` | src/convergence-ledger.ts:492-558 | The loop merges by id, then by fingerprint, else appends |
| `ConvergenceLedger.Ledger.MarkAddressedFromResponses` | src/convergence-ledger.ts:623-655 | Every response reaches its finding by id or fingerprint, and the count says how many did |
| `ConvergenceLedger.Ledger.MarkVerified` | src/convergence-ledger.ts:657-669 | The active findings the predicate holds of become verified, and are counted |
| `ConvergenceLedger.Ledger.CloseAgentFailed` | src/convergence-ledger.ts:709-731 | Exactly the unverified rows of the id are closed |
| `ConvergenceLedger.Ledger.BlockingFindings` | src/convergence-ledger.ts:580-582 | The blocking rows, in order |
| `DocStrip.StripNonNormativeSections` | src/doc-validators.ts:110-150 | The scan with its skip level and open fence keeps exactly the lines that no non-normative heading covers |
| `DocStrip.StrippedIsNormative` | src/doc-validators.ts:99-150 | What is kept is a subsequence without non-normative headings, and is everything if and only if there was none |
| `DocStrip.StripTwice` | src/doc-validators.ts:110-150 | On lines twice is once |
| `DocStrip.SectionEndsOutsideFences` | src/doc-validators.ts:134-146 | A heading that outranks the section it stands in ends it if and only if no fence is open |
| `DocStrip.UnclosedFenceHidesTheRest` | src/doc-validators.ts:99-109 | A fence opened in a non-normative section and never closed hides the rest of the document |
| `DocStrip.FencedLinesAreProse` | src/doc-validators.ts:115-133 | Lines in an open fence are no headings |
| `DocStrip.LinesOfJoin` | src/doc-validators.ts:111-149 | Joining lines and splitting them again gives them back, less a final carriage return on every line but the last |
| `DocStrip.StripTextTwice` | src/doc-validators.ts:110-150 | On text twice is once if and only if no kept line but the last ends in a carriage return |
| `DocStrip.DoubledCrIsStrippedAgain` | src/doc-validators.ts:110-150 | A doubled carriage return is lost one at a time |
| `DocStrip.PlainTextStripsOnce` | src/doc-validators.ts:110-150 | So it is for every text without carriage returns |
| `DataFence.LongestBacktickRun` | src/fence.ts:12-24 | The loop returns the length of a run that occurs and that no run exceeds |
| `DataFence.FenceUntrusted` | src/fence.ts:31-34 | The fence is at least four backticks, longer than any run of the payload, and no longer than needed |
| `DataFence.FenceHolds` | src/fence.ts:26-34 | Read by section 4.5 of the CommonMark Spec 0.31.2, the block is closed by its own last row and by none before, for every payload |
| `DataFence.DataHeadingsAreProse` | src/doc-validators.ts:110-150 | The document scanner sees no heading in a fenced payload either |
| `DelegationAttempt.SettlesOnce` | src/agents/delegation-backend.ts:486-580 | Under any order of events an attempt resolves once, with the first event that concerns it; it cancels exactly on abort or timeout, its own tuple; nothing stays attached |
| `DelegationAttempt.SettledForGood` | src/agents/delegation-backend.ts:486-499 | A settled attempt never changes again |
| `DelegationAttempt.AbortedParentStaysSilent` | src/agents/delegation-backend.ts:415-423 | Under an aborted parent no request is sent |
| `DelegationAttempt.ResponseMovesAtMostOne` | src/agents/delegation-backend.ts:500-515 | Of any number of attempts on one bus a response moves at most one |
| `DelegationAttempt.CancelsNameTheirSender` | src/agents/delegation-backend.ts:544-552 | A cancel names the attempt that sent it |
| `DelegationAttempt.Attempt.Respond` | src/agents/delegation-backend.ts:500-515 | A foreign response is ignored, a rejection and an answer settle |
| `DelegationAttempt.Attempt.Abort` | src/agents/delegation-backend.ts:544-553 | Abort sends the cancel and settles |
| `DelegationAttempt.Attempt.Expire` | src/agents/delegation-backend.ts:544-570 | The timer sends the cancel and settles |
| `Delegation.Backend.BeginCall` | src/agents/delegation-backend.ts:621-632 | A call chooses its mode when it starts |
| `Delegation.Backend.ResumeCall` | src/agents/delegation-backend.ts:621-757 | From one await to the next, a call in flight beside others does what the policy says: degrade, repeat, judge, correct, return |
| `Delegation.CallsKeepTheirPolicy` | src/agents/delegation-backend.ts:621-757 | However the calls of a process interleave, each makes at most four attempts, corrects last, and an error-free result has a control without schema violations, or none when no keys were declared |
| `Delegation.ErrorFreeIsAdmissible` | src/agents/delegation-backend.ts:666-757 | Keys can be missing from an error-free answer only when it answers the correction |
| `Delegation.KeysAreThereExactly` | src/agents/delegation-backend.ts:687-745 | No error-free call lacks declared keys if and only if every control that can be obtained without a schema violation has them |
| `Delegation.AtMostFourAttempts` | src/agents/delegation-backend.ts:621-757 | Every history the policy allows has at most four attempts, corrects last and never returns to structured results |
| `Delegation.CorrectedAnswerMayLackKeys` | src/agents/delegation-backend.ts:712-745 | A control block that leaves its declared key empty twice is an error-free result |
| `Delegation.DegradationLastsExactly` | src/agents/structured-output.ts:56-73 | Over any interleaving of calls a degraded process stays so if and only if no structured attempt completes before structured results are rejected as unsupported |
| `Delegation.DegradedForGoodExactly` | src/agents/structured-output.ts:56-73 | A degrade survives whatever happens next if and only if structured results were rejected or no structured call is in flight |
| `Delegation.InFlightSuccessRestores` | src/agents/delegation-backend.ts:685-685 | Three calls fail while a fourth is in flight; when that one completes the process is no longer degraded |
| `GitDelta.DedupePreservingOrder` | src/tracking.ts:518-518 | The loop keeps every path once, at its first occurrence |
| `GitDelta.BuildGitActual` | src/tracking.ts:462-533 | Parsing, deduplication, first kind and the three lists, as one function of git's output |
| `GitDelta.DiffLineReads` | src/tracking.ts:466-491 | Every line git prints for an added, deleted, changed, renamed or copied path is read back as that change |
| `GitDelta.StatusLineReads` | src/tracking.ts:216-224 | A porcelain line for one path is read as that path, classified by its two columns |
| `GitDelta.DeltaIsAPartition` | src/tracking.ts:446-533 | The three lists are duplicate-free and disjoint, and a path is in a list if and only if git names it and the first line that does says so |
| `GitDelta.ComputeCrossCheck` | src/tracking.ts:549-584 | The loops compute the missed, verified and unclaimed lists |
| `GitDelta.ClaimsArePartitioned` | src/tracking.ts:535-584 | Every created or modified claim falls in exactly one of exempt, matched, ignored-verified and missed |
| `GitDelta.SpellingsMatch` | src/tracking.ts:119-155 | A claim spelled with backslashes, repeated separators, a leading `./` or slash or a trailing slash normalizes to git's path |
| `Tracker.ChangeTracker.ComputeEndRecord` | src/tracking.ts:360-407 | The record of a bracket's end, git unavailable and missing baseline included |
| `Tracker.ChangeTracker.BeginBracket` | src/tracking.ts:284-306 | A begin remembers its baseline and writes one start line |
| `Tracker.ChangeTracker.EndBracket` | src/tracking.ts:316-322 | An end remembers its record and writes it |
| `Tracker.ChangeTracker.ProbeEnd` | src/tracking.ts:334-338 | A probe remembers its record and writes nothing |
| `Tracker.ChangeTracker.CommitEnd` | src/tracking.ts:348-351 | A commit writes the remembered record, if there is one |
| `Tracker.BracketLeavesTwoLines` | src/tracking.ts:284-351 | Whatever other brackets do, a begin, any probes and a commit leave one start line and one end line with the last probe; without a probe the commit repeats an earlier bracket's record or writes nothing |
| `DocNumbers.Allocator.NextDocNumber` | src/prompts.ts:79-100 | The two counting loops give one past the documents of others |
| `DocNumbers.Allocator.AllocateDocs` | src/prompts.ts:161-178 | Every slug of a group gets its file's number, its reservation or the next number |
| `DocNumbers.Allocator.AllocateDoc` | src/prompts.ts:189-198 | A single document is a group of one |
| `DocNumbers.PlaceFromKeepsDense` | src/prompts.ts:161-178 | From a dense directory a group placed at the next free number keeps the numbers 1..n and gives every slug its own |
| `DocNumbers.PlacedCleanlyExactly` | src/prompts.ts:79-178 | A group is placed without a collision if and only if it is known as a whole or shadows no numbered document |
| `DocNumbers.PartOfAGroupCollides` | src/prompts.ts:79-178 | A group with one document on disk, and a slug that ends another's, get a number that is taken |
| `DocNumbers.NumbersAreStable` | src/prompts.ts:46-210 | Over any run of whole-group allocations and writes the numbers in use are exactly 1..n, one per slug, and no slug ever changes its number |

## Left out

- Process spawning, git calls, timers, file I/O and the event bus: their answers are inputs of the model.
- Prompts, rendering, dashboards, command wiring and the stages themselves: text assembly.
- `extractControl` end to end: its trailing-comma pattern also edits string contents.
- `extractControlKeys`, `countStageRounds`, `classSweepRetryFeedback`, the traceability checks and `containedRelativePath`: read-only helpers that would add easy members.
- Escalation: what a retry decision does to the worktree and the notes, the report files, and the signal that routes a run back.
- The buffering of ledger events before the run has a directory.
- Error classification, thinking levels and model choice, the watchdog and progress lines of an attempt, usage sums.
- Findings: timestamps, evidence lists, recommendations, responses and persistence of the ledger file.
- Tasks: automatic rendering, audit lines, precondition logs and the budget marker.
- Engine.Interpreter.Run: a tree has no parallel node; parallel is modelled by its pool alone, without its join and its duplicate-id guard.
- NodeLaws.FatalAbortSurfaces: speaks of trees without concurrency, because in a pool an ordinary throw can win.
- Lifecycle.TreeLogsItsOutcomes: leaves out bodies that emit their own stage events, which then end twice, and runs a FatalAbort ends, which leave a stage open.
- Gates.PassVerifiesExactly: asks that the target holds no gate and that no stage and no status has an empty name.
- Gates.TargetRunsAreBounded: the body of a stage writes rows and events only, so that it leaves ledger, feedback and retry counters alone holds by construction; the nodes of a target, nested gates included, do write them.
- RunLog.LogSurvivesCrashes: asks that the envelope without data fits the limit and that reads do not fail; a failing read falls back to number 0. One log path is modelled.
- Keys.InterleavingsAgree: asks for ids without NUL, as the counters of `Keys.NulSharesACounter` depend on the order of the branches.
- Replay.RunKeepsDisk: says nothing of calls whose row a glued write took with it; what the file then holds is in Replay.FileIsTheFold.
- Replay.ReplayIsFaithful: asks that ids have no NUL, that different sites have different `id@scope` texts, and that calls that may be in flight together come from different sites; a thread sees its own, its parents' and its awaited children's results, not what a sibling writes to shared state meanwhile.
- Replay.ReplayIsComplete: a join waits until all children have ended; that a pool rejects or cancels early and leaves siblings running is not part of it, nor is `ctx.parallel`, which starts calls of one stage under one scope.
- Scopes.DisciplinedIsWellScoped: asks for ids without `@` and NUL.
- ConvergenceLedger.HistoryKeepsLedger: asks that the rows at the start have distinct ids and fingerprints and that a recorded finding starts with one sighting.
- ReviewFindings.DutyVerdict: the vocabulary of severities and statuses is a function with the facts in `SaneVocab`.
- DocStrip.StripNonNormativeSections: the pattern of non-normative headings is a predicate known only to match headings of levels 1 to 4.
- DataFence.FenceHolds: asks that preamble and info string are single lines and the info string has no backtick; the payload is arbitrary.
- DocNumbers.NumbersAreStable: asks for one process, no deletions, a dense start, fewer than 100 documents, groups allocated together and slugs that do not end in a dash and another group's slug.
- GitDelta.SpellingsMatch: a claim of the directory `.` is not a file path.
- WorkerPool.Workers.Poll: the pool is given its functions' endings in advance; what they do to shared state is not part of it.
