# Prompt Enhancer: verified core

Prompt Enhancer rewrites prompts with model calls and decides, in code, what may happen to the
result. This project models the parts where that code carries an algorithm, a protocol or a
budget, and proves what they promise for every input, every gateway behaviour and every run.

- `RankAuc`, `Boosting`: the offline failure predictor. The tie-averaging rank-sum loop computes
  exactly the share of correctly ordered pairs; boosting never loses against any constant.
- `WorkerPermits`, `GatewayRequest`: the gateway. Callers and workers as interleaved steps over a
  semaphore of eight; one operation's retry loop under a deadline, as a class with its counters.
- `SourceWindows`, `Diagnosis`: diagnosis dispatch. Chunking, bisection, the request cap and the
  windows of an oversized question, as mutually recursive methods over shared state.
- `Quotes`, `Sentences`: the sentence splitter with its one-pass quote sweep and line tracking.
- `LedgerSpans`, `ReleaseGate`: the requirement ledger. Span algebra, in-place deletion and the
  fail-closed release flag.
- `Confinement`: the edit script, the confinement check and the judge's half of the fidelity gate.
- `Bundles`, `Receipts`: lossless review bundles and the receipts of parallel validation processes.
- `Grading`, `Attribution`, `Convergence`, `Clarification`: index-aligned grading, the attribution
  budget, the uncapped prompt loop and the pause and resume service.
- `Spans`, `Wrappers`: shared definitions.

Gateways, judges, transports, clocks, schedulers, child processes, regular expressions and
`difflib` are arbitrary functions or arbitrary sequences of events; a `requires` on them states
the only thing assumed (opcodes tile both sequences and equal blocks match; a consecutive part of
a sendable batch is sendable and no larger; connector matches lie inside the prompt). Floats are
reals, with the tolerances 1e-12 and 1e-15 kept as constants; hashes and JSON identities are
injective.

## Where the code promises less than one might expect

- A gateway operation records an accepted response exactly once while its observers stay quiet
  (`GatewayRequest.QuietObserversRecordOnce`). When the cancel hook or the end observer raises
  something unexpected after the record, the loop may try again and record a second response:
  `GatewayRequest.SecondRecordExactly` says exactly when, `GatewayRequest.TwoResponsesRecorded` is
  such a run.
- Eight hung calls shut the gateway (`WorkerPermits.HungCallsShutTheGateway`): abandoned workers
  keep their permits, which the comment on the bound intends.
- `Receipt.finish` looks at the checks only. A signal taken before the first start of a call marks
  the receipt as interrupted but leaves no failed check, so a later `finish` completes it
  (`Receipts.StoppedYetComplete`); `Receipts.Session` states exactly when a receipt completes.
- A signal taken after a check is appended and before its process is owned leaves that check
  "running" for good. `Receipts.Receipt.RunMany` states that no other check is ever left running.
- A graded output that must not score keeps its zero only if no other output shares its identity
  (candidate, model, sample, seed) and may score (`Grading.ZeroKept`, `Grading.OwnScore`).
- The fidelity judge's answers are matched to its questions by position after all batches are
  joined; only the total count is compared. Every sentence is judged by its own answer exactly if
  each batch returned as many answers as it was asked (`Confinement.AlignedExactly`); otherwise a
  sentence may pass on another answer (`Confinement.PassesUnasked`). The two gateways of the
  repository give one answer for each question (src/prompt_enhancer/gateway.py:490-501, 1787-1798 and 1966), so they
  never do this (`Confinement.OneAnswerEachIsFull`); another `Gateway` implementation might.
- A first round that passes converges at once, so a streak of passing rounds that go on always
  follows a round that did not converge (`Convergence.GoesOnByGaining`).

## Model

| member | source | states |
|---|---|---|
| `RankAuc.RocAuc` | src/prompt_enhancer/failure_prediction.py:867-892 | the result is undefined exactly without both classes and two distinct predictions, a length mismatch is an error, and otherwise the value is the share of correctly ordered positive/negative pairs with ties counting half |
| `RankAuc.PositiveRankSum` | src/prompt_enhancer/failure_prediction.py:881-889 | the tie-averaging loop over groups sums each positive's mid-rank, defined by comparing it with every other example |
| `RankAuc.BlockRank` | src/prompt_enhancer/failure_prediction.py:884-888 | the average rank of a maximal group of equal predictions equals one half plus the credit earned against all examples |
| `RankAuc.RankSumIsConcordance` | src/prompt_enhancer/failure_prediction.py:890-892 | rank sum minus the triangular number of positives is the number of concordant pairs plus half the tied ones |
| `RankAuc.PositivesAgainstPositives` | src/prompt_enhancer/failure_prediction.py:890-892 | among the positives alone the credit is always half of all ordered pairs |
| `RankAuc.SortKeepsConcordance` | src/prompt_enhancer/failure_prediction.py:874-880 | sorting does not change the pair count |
| `RankAuc.PairShareBounds` | src/prompt_enhancer/failure_prediction.py:867-892 | the area lies in [0,1] and is 1 exactly when every positive is ranked above every negative |
| `Boosting.LeafErrorIsResidualError` | src/prompt_enhancer/failure_prediction.py:785-789 | the two leaf errors the search adds up are the squared error of the residuals left after the stump |
| `Boosting.MovedLeaf` | src/prompt_enhancer/failure_prediction.py:783-789 | moving a leaf by rate times its mean lowers its squared error by exactly rate(2-rate) times length times mean squared |
| `Boosting.FittedSplitSheds` | src/prompt_enhancer/failure_prediction.py:744-803 | a fitted split lowers training error by the sum of what its leaves shed, never raising it for a rate in [0,2] |
| `Boosting.SameSplits` | src/prompt_enhancer/failure_prediction.py:761-762 | every threshold between two neighbouring values splits the training set as their midpoint does |
| `Boosting.BestStump` | src/prompt_enhancer/failure_prediction.py:744-803 | the stump is the fitted form of a split of a listed feature that separates the training values; its gain is exactly the error removed, exceeds the tolerance, and no real threshold on any feature does better by more than the tolerance |
| `Boosting.ConsiderFeature` | src/prompt_enhancer/failure_prediction.py:753-800 | trying the midpoints of one feature beats every separating real threshold of that feature |
| `Boosting.NextStump` | src/prompt_enhancer/failure_prediction.py:720-724 | an accepted stump is the best one for the current residuals and gains more than the minimum; when none is accepted no further stump would |
| `Boosting.ApplyStump` | src/prompt_enhancer/failure_prediction.py:726-727 | the running predictions grow by exactly the stump's delta on every example |
| `Boosting.FitModel` | src/prompt_enhancer/failure_prediction.py:707-741 | base is the mean label, every stump is the best one for what the stumps before it still missed and lowers training error by more than the minimum gain, and stopping early means nothing was left to gain |
| `Boosting.BoostFrom` | src/prompt_enhancer/failure_prediction.py:713-727 | every stump kept is the best one for its round and lowers the training error by more than the minimum gain, and stopping before the cap means that no further stump would |
| `Boosting.StopIsJustified` | src/prompt_enhancer/failure_prediction.py:723-724 | a search gain at or below the minimum rules out every further stump at any threshold |
| `Boosting.ErrorFalls` | src/prompt_enhancer/failure_prediction.py:707-741 | training error after n stumps plus n times the minimum gain is at most that of the base alone |
| `Boosting.ClippingHelps` | src/prompt_enhancer/failure_prediction.py:1077-1078 | clipping a score to [0,1] never moves it away from a 0/1 label |
| `Boosting.ClippedErrorBelowBase` | src/prompt_enhancer/failure_prediction.py:138-144 | the clipped model's training error is at most that of the base it started from |
| `Boosting.BoostingNeverLoses` | src/prompt_enhancer/failure_prediction.py:707-741 | on its training set the fitted, clipped model is at least as good as every constant prediction |
| `Boosting.MeanIsBestConstant` | src/prompt_enhancer/failure_prediction.py:731-731 | no constant has a smaller squared error than the base rate |
| `Boosting.AddMeaning` | src/prompt_enhancer/failure_prediction.py:153-158 | adding to the insertion-ordered dictionary changes one feature's total and keeps the features distinct |
| `Boosting.Contributions` | src/prompt_enhancer/failure_prediction.py:149-161 | regrouped per feature the contributions give the same output as predict, each feature once with the sum of its own stumps |
| `WorkerPermits.LocalKeeps` | src/prompt_enhancer/gateway.py:1194-1515 | one step of one thread changes its permit count exactly by what it takes or gives and keeps the operation well formed |
| `WorkerPermits.EveryRunIsSound` | src/prompt_enhancer/gateway.py:1176-1515 | in every interleaving free and held permits add up to eight and no operation loses or doubles a permit |
| `WorkerPermits.PermitsAreConserved` | src/prompt_enhancer/gateway.py:1176-1192 | free and held permits add up to eight, at most eight calls are in progress, and no release exceeds the semaphore's bound |
| `WorkerPermits.FinishedHasResult` | src/prompt_enhancer/gateway.py:1468-1478 | whenever the finished flag is set exactly one result exists, so reading it never fails |
| `WorkerPermits.WhyLeft` | src/prompt_enhancer/gateway.py:1279-1393 | when a caller leaves and with what: cancellation comes before the deadline, a finished transport call still reports past the deadline, and its answer also on cancellation |
| `WorkerPermits.QuietReleasedExactlyOnce` | src/prompt_enhancer/gateway.py:1429-1478 | an operation whose threads are done released its permit exactly as often as it acquired it, also after a failed start, a cancel right after acquiring or an abandoned worker |
| `WorkerPermits.QuietRestoresCapacity` | src/prompt_enhancer/gateway.py:1176-1192 | when all operations are quiet all eight permits are free |
| `WorkerPermits.LaterStepsKeep` | src/prompt_enhancer/gateway.py:1279-1393 | a caller that left stays left and a recorded result never changes |
| `WorkerPermits.HungCallsShutTheGateway` | src/prompt_enhancer/gateway.py:1176-1192 | while eight calls hang no operation that starts afterwards ever gets a permit |
| `GatewayRequest.HttpGateway.CheckCancelled` | src/prompt_enhancer/gateway.py:643-652 | the check raises exactly unless it comes out clear |
| `GatewayRequest.HttpGateway.WaitRetry` | src/prompt_enhancer/gateway.py:1517-1530 | a wait that would reach the deadline is refused before any check; any other is made only if it is due, and ends with the first check that is not clear, or after all of them |
| `GatewayRequest.HttpGateway.HttpError` | src/prompt_enhancer/gateway.py:921-996 | for every environment: a failing status is retried only if it is retryable, attempts are left, and a cancel check and a look at the clock made after it both passed; the wait before the retry lasts as long as Retry-After asks, or else base times 2^attempt |
| `GatewayRequest.HttpGateway.Record` | src/prompt_enhancer/gateway.py:1011-1029 | an accepted response is added to usage once, before anything else is looked at |
| `GatewayRequest.HttpGateway.HandOut` | src/prompt_enhancer/gateway.py:1030-1050 | a recorded response is handed out only after a later cancel check and a later deadline check passed |
| `GatewayRequest.HttpGateway.Send` | src/prompt_enhancer/gateway.py:884-1050 | the one call of an attempt: usage grows by it exactly if its reply is accepted, whatever cancellation and the clock do afterwards |
| `GatewayRequest.HttpGateway.TryOnce` | src/prompt_enhancer/gateway.py:884-1050 | one attempt makes at most one transport call, started before the deadline; attempts equal calls, and usage grows by the call exactly if its reply is accepted |
| `GatewayRequest.HttpGateway.Handle` | src/prompt_enhancer/gateway.py:1051-1169 | which exceptions end the operation and which lead to another attempt |
| `GatewayRequest.HttpGateway.Attempt` | src/prompt_enhancer/gateway.py:882-1169 | one turn of the loop ends the operation or goes on, as the run of the operation says, with usage still the accepted calls |
| `GatewayRequest.HttpGateway.Loop` | src/prompt_enhancer/gateway.py:880-1170 | for every environment: at most max_retries+1 transport calls, one for each attempt, usage exactly the accepted ones in order, and the result that of the run |
| `GatewayRequest.HttpGateway.Request` | src/prompt_enhancer/gateway.py:781-1170 | the deadline is the start plus the timeout, at least a millisecond, lowered to what the run has left; for every clock, cancellation, transport and observer: transport calls are the attempts, bounded and before that deadline; usage grows by exactly the accepted replies, in order; every wait lasts as long as the reply that has just failed asks for, or else base times 2 to the number of turns before, and none follows a status that is not retried; an answer is returned only right after its record and both later checks; a spent budget and a missing route end it with their own exception |
| `GatewayRequest.BackoffDoubles` | src/prompt_enhancer/gateway.py:951-953 | the wait without Retry-After is the base delay times 2^attempt |
| `GatewayRequest.WaitsSnoc` | src/prompt_enhancer/gateway.py:921-996 | a history in which every wait was due stays one when another event follows, if that is no wait or one that is due |
| `GatewayRequest.RefusedWaitEnds` | src/prompt_enhancer/gateway.py:951-996 | a retryable status whose Retry-After reaches the deadline ends the operation by timeout, and no further call is made |
| `GatewayRequest.OneMoreEvent` | src/prompt_enhancer/gateway.py:880-1170 | while an operation may go on, any true event keeps its history honest |
| `GatewayRequest.QuietObserversRecordOnce` | src/prompt_enhancer/gateway.py:1011-1050 | with quiet observers an accepted response is recorded exactly once and nothing is attempted after it or after a final status |
| `GatewayRequest.AnswerRecordedOnce` | src/prompt_enhancer/gateway.py:1011-1050 | a returned answer is the one recorded response |
| `GatewayRequest.UndisturbedIsPlain` | src/prompt_enhancer/gateway.py:880-1170 | without cancellation, lack of time or raising observers the replies alone decide: the first acceptable one is returned, a final one fails, anything else is tried again while attempts are left |
| `GatewayRequest.RecordedTurn` | src/prompt_enhancer/gateway.py:1011-1169 | after a record the operation goes on exactly if an observer raises, an attempt is left and the retry wait is in time and not cancelled |
| `GatewayRequest.RecordsUnfold` | src/prompt_enhancer/gateway.py:880-1170 | what an operation records is its first accepted reply and, exactly if it is reopened after it, what the rest records |
| `GatewayRequest.SecondRecordExactly` | src/prompt_enhancer/gateway.py:1011-1169 | a second response is recorded exactly if the operation is reopened after the first record and a later attempt gets an accepted reply |
| `GatewayRequest.TwoResponsesRecorded` | src/prompt_enhancer/gateway.py:1011-1169 | a cancel hook or an end observer that raises once makes one operation record two responses and return the second |
| `SourceWindows.PlanTiles` | src/prompt_enhancer/diagnosis_recovery.py:113-168 | for every prompt and every size test: at most sixteen nonempty contiguous windows, dispatched ones fit, only the last can be held |
| `SourceWindows.TilesLoseNothing` | src/prompt_enhancer/diagnosis_recovery.py:113-168 | the window texts concatenate to the whole prompt |
| `SourceWindows.LongestIsLongest` | src/prompt_enhancer/diagnosis_recovery.py:134-140 | the binary search finds the longest fitting end when fitting is monotone |
| `SourceWindows.NextCutIsBest` | src/prompt_enhancer/diagnosis_recovery.py:134-149 | a dispatched window is the longest that fits, and a window is held for its metadata exactly when not even one character fits |
| `SourceWindows.PlanIsLongest` | src/prompt_enhancer/diagnosis_recovery.py:113-168 | every window of the plan is the best cut at its place |
| `SourceWindows.StepKeeps` | src/prompt_enhancer/diagnosis_recovery.py:28-168 | no ledger operation loses a question, its original request or its recorded windows |
| `SourceWindows.RunKeeps` | src/prompt_enhancer/diagnosis_recovery.py:28-168 | the same over every sequence of operations |
| `SourceWindows.WindowedStaysUnresolved` | src/prompt_enhancer/diagnosis_recovery.py:73-93 | once windows exist no later call sequence makes the question completed |
| `SourceWindows.FailAllKeeps` | src/prompt_enhancer/diagnosis_recovery.py:63-71 | a provider error on a batch keeps everything recorded about every question |
| `SourceWindows.ObservedMeaning` | src/prompt_enhancer/diagnosis_recovery.py:73-93 | an observed answer is kept; it completes a question without windows exactly if it is usable, and otherwise makes it invalid or held unless the provider had failed |
| `Diagnosis.DiagnosisRecovery.RegisterQuestion` | src/prompt_enhancer/diagnosis_recovery.py:28-53 | registering performs exactly the ledger's register step |
| `Diagnosis.DiagnosisRecovery.HeldFor` | src/prompt_enhancer/diagnosis_recovery.py:58-61 | holding performs exactly the ledger's hold step |
| `Diagnosis.DiagnosisRecovery.Error` | src/prompt_enhancer/diagnosis_recovery.py:63-71 | an error performs exactly the ledger's fail step for each question |
| `Diagnosis.DiagnosisRecovery.Answer` | src/prompt_enhancer/diagnosis_recovery.py:73-93 | an answer performs exactly the ledger's observe step |
| `Diagnosis.DiagnosisRecovery.Windowed` | src/prompt_enhancer/diagnosis_recovery.py:95-168 | the recorded windows follow the plan for the limit in force; each that is not held has the answer to the one question of its own call, completed exactly if that call succeeded and the answer parses, or could not be asked; and only the question's own record changes |
| `Diagnosis.Diagnoser.NextWindow` | src/prompt_enhancer/diagnosis_recovery.py:115-166 | the nested binary search cuts exactly as the plan says, a window that is asked holds the answer of its own call, and the ledger is not touched |
| `Diagnosis.Diagnoser.CallGateway` | src/prompt_enhancer/diagnosis.py:901-943 | one call is logged, and the counter grows by exactly its transport attempts (by at least one without recovery, by one if they are not counted) |
| `Diagnosis.Diagnoser.HoldAll` | src/prompt_enhancer/diagnosis.py:878-900 | a blocked or exhausted diagnoser answers every question with a blank, in order, and holds each in the ledger |
| `Diagnosis.Diagnoser.Collect` | src/prompt_enhancer/diagnosis.py:968-1023 | observation i has the answer at place i of the reply, or none; after a failure, with recovery, the first one logged for question i; it is decided exactly if the call succeeded and that answer parses; the ledger is told exactly these, and undecided required questions set the incomplete flag |
| `Diagnosis.Diagnoser.Dispatch` | src/prompt_enhancer/diagnosis.py:873-1023 | for every reply: one observation per question in order, each with the answer at its own place in a call that asked it, or blank because nothing more could be asked; the first call asks exactly these questions; calls hold at most forty and fit, the counter grows by exactly what the calls cost and stays capped, only failures block |
| `Diagnosis.Diagnoser.DispatchHalves` | src/prompt_enhancer/diagnosis.py:945-950 | bisection keeps order and alignment of both halves |
| `Diagnosis.Diagnoser.AfterFailure` | src/prompt_enhancer/diagnosis.py:910-967 | an error raises only without recovery and tolerance; otherwise every question still gets its observation |
| `Diagnosis.Diagnoser.Absorb` | src/prompt_enhancer/diagnosis.py:927-967 | a tolerated failure marks the diagnosis incomplete; a single oversized question lowers the limit to half the smaller of limit and size and is cut into windows, anything else leaves the limit |
| `Diagnosis.Diagnoser.RecoverSingle` | src/prompt_enhancer/diagnosis.py:780-818 | recovering one question settles it and keeps every bound |
| `Diagnosis.Diagnoser.ObserveInChunks` | src/prompt_enhancer/diagnosis.py:758-777 | greedy packing observes all questions in order with every chunk within the limit |
| `Diagnosis.Diagnoser.ObserveDirect` | src/prompt_enhancer/diagnosis.py:750-778 | for every gateway behaviour: the counter grows by exactly what the calls cost, and the transport attempts made in fallback fit under max(8, its value before); questions that fit are sent in one call; without an exception one observation per request in request order, each with the answer at its own place in a call, and complete only if every question was usably answered |
| `Diagnosis.SourcedConcat` | src/prompt_enhancer/diagnosis.py:760-777 | observations of consecutive blocks concatenate to observations of the whole list |
| `Diagnosis.CallThenQuiet` | src/prompt_enhancer/diagnosis.py:887-943 | a call admitted by the cap keeps the counter bounded whatever follows it |
| `Diagnosis.AttemptsAreCapped` | src/prompt_enhancer/diagnosis.py:887-943 | the attempts made are at most what the counter was charged, so the cap bounds them |
| `Diagnosis.AskedSnoc` | src/prompt_enhancer/diagnosis_recovery.py:149-166 | windows asked one after the other each keep the answer of their own call |
| `Diagnosis.CoveredConcat` | src/prompt_enhancer/diagnosis.py:758-777 | coverage of consecutive blocks composes: order, limits, flags and settled questions |
| `Diagnosis.WindowsMove` | src/prompt_enhancer/diagnosis_recovery.py:95-168 | recording windows keeps everything else in the ledger and settles the question |
| `Quotes.TypographicSpans` | src/prompt_enhancer/diagnosis.py:516-521 | the stack finds exactly the pairs of typographic marks that enclose a balanced text |
| `Quotes.StraightSpans` | src/prompt_enhancer/diagnosis.py:514-515 | straight quotes pair in order, the odd one out opening nothing |
| `Quotes.QuotedSpans` | src/prompt_enhancer/diagnosis.py:507-522 | all matched quotations, ordered by their opening mark |
| `Quotes.OnlyTopMatches` | src/prompt_enhancer/diagnosis.py:517-521 | a closing mark matches the innermost open mark and no other |
| `Sentences.TerminalsAreGood` | src/prompt_enhancer/diagnosis.py:431-431 | terminal matches are ascending, disjoint and start at a mark |
| `Sentences.TerminalsExactly` | src/prompt_enhancer/diagnosis.py:431-431 | a span is a terminal exactly if it is a maximal run of marks followed by a maximal run of closers that ends at whitespace or at the end of the text |
| `Sentences.LineStartUnique` | src/prompt_enhancer/diagnosis.py:467-469 | the start of a line is determined by the last break before a position |
| `Sentences.AdvanceLine` | src/prompt_enhancer/diagnosis.py:467-470 | incremental line tracking agrees with looking from the position itself |
| `Sentences.LaterOnLineIsNoNumber` | src/prompt_enhancer/diagnosis.py:471-475 | only the first terminal of a line can follow a bare list number |
| `Sentences.SweepDecides` | src/prompt_enhancer/diagnosis.py:480-484 | the latest close seen by the sweep decides whether a position lies inside some matched quotation |
| `Sentences.TerminalBoundaries` | src/prompt_enhancer/diagnosis.py:460-487 | the single pass finds exactly the ends of terminals that are no abbreviation, list number or continuation and lie outside every quotation, stated on the whole prompt |
| `Sentences.AddBreaks` | src/prompt_enhancer/diagnosis.py:488-497 | exactly the separating runs of line breaks are added: blank lines, and breaks next to a list item |
| `Sentences.Boundaries` | src/prompt_enhancer/diagnosis.py:458-500 | the sorted boundaries are exactly the sentence ends and the separating breaks |
| `Sentences.BreaksExactly` | src/prompt_enhancer/diagnosis.py:488-497 | a maximal run of line breaks separates exactly if it is a blank line or a line next to it starts like a list item, whatever finds the run and the lines |
| `Sentences.AppendSentence` | src/prompt_enhancer/diagnosis.py:536-550 | a stretch adds at most one sentence, the exact trimmed slice, and loses no character but whitespace |
| `Sentences.SplitSentences` | src/prompt_enhancer/diagnosis.py:445-504 | ordered, disjoint, trimmed, exact slices that hold every character that is not whitespace, cut at every end of a terminal that ends a sentence, at every separating break, and only there |
| `LedgerSpans.NormalIsUnique` | src/prompt_enhancer/compound_requirements.py:824-830 | two sorted span lists with strict gaps and the same characters are equal |
| `LedgerSpans.MergeSpans` | src/prompt_enhancer/compound_requirements.py:824-830 | merging sorted spans keeps their characters and leaves strict gaps |
| `LedgerSpans.Subtract` | src/prompt_enhancer/compound_requirements.py:817-823 | the cursor loop leaves exactly the characters outside the retained spans |
| `LedgerSpans.RetainedIn` | src/prompt_enhancer/compound_requirements.py:805-816 | inside a semantic clause exactly the surviving original requirements are retained |
| `LedgerSpans.SupersededSpans` | src/prompt_enhancer/compound_requirements.py:786-830 | the result covers exactly the (extended) superseded clauses, minus active originals for semantic ones, with strict gaps |
| `LedgerSpans.ExtendedMeaning` | src/prompt_enhancer/compound_requirements.py:786-804 | which characters a rejected clause claims besides its own: the connectors around a count clause, and of the one before it all or all but the first character |
| `LedgerSpans.SpansIgnoreOrder` | src/prompt_enhancer/compound_requirements.py:786-830 | the spans do not depend on the order of the requirements |
| `LedgerSpans.Fragments` | src/prompt_enhancer/compound_requirements.py:431-440 | the fragments of an effective interpretation are exactly its span minus the deleted characters |
| `LedgerSpans.DeleteStep` | src/prompt_enhancer/compound_requirements.py:833-846 | one deletion from the right leaves the pass over everything to its right intact |
| `LedgerSpans.SameSeparator` | src/prompt_enhancer/compound_requirements.py:836-845 | the separator decided in the shrunken prompt is the one decided on the original |
| `LedgerSpans.ResolvedPrompt` | src/prompt_enhancer/compound_requirements.py:833-846 | right-to-left deletion in the shrinking prompt equals one pass over the original, with a line break exactly where a deleted stretch that held whitespace would join a word to what stands before it |
| `LedgerSpans.OnePassFrom` | src/prompt_enhancer/compound_requirements.py:833-846 | starting the pass further right only drops kept text |
| `LedgerSpans.OnePassKeepsTheRest` | src/prompt_enhancer/compound_requirements.py:833-846 | once the inserted line breaks are taken out the resolved prompt is exactly the original without the deleted characters, in order |
| `ReleaseGate.AuditAllAligned` | src/prompt_enhancer/compound_requirements.py:51-103 | however a list of audits is bisected, each result is the one given at its own place in the batch it was sent in, and fails exactly if that batch does not fit alone or the judge is unavailable |
| `ReleaseGate.AddMemberMeaning` | src/prompt_enhancer/compound_requirements.py:703-707 | adding a requirement extends its own scope's group and no other |
| `ReleaseGate.GroupAllMeaning` | src/prompt_enhancer/compound_requirements.py:668-707 | the groups hold exactly the comparable active requirements of their scopes, in order |
| `ReleaseGate.PairMeets` | src/prompt_enhancer/compound_requirements.py:711-742 | two comparable requirements of one scope meet as a pair of one group |
| `ReleaseGate.GroupsAndPairs` | src/prompt_enhancer/compound_requirements.py:711-774 | all groups are clear exactly when every applicable same-scope pair is |
| `ReleaseGate.Ledger.AuditEffective` | src/prompt_enhancer/compound_requirements.py:597-635 | exactly the standing modified meanings without a decision are audited again, each gets the judge's answer at its own place among them, and nothing else changes |
| `ReleaseGate.Ledger.PairsToAudit` | src/prompt_enhancer/compound_requirements.py:544-589 | every applicable pair is counted, and the audits asked for are exactly those of the first 32 that lack a usable one, in order |
| `ReleaseGate.RequestsAreCapped` | src/prompt_enhancer/compound_requirements.py:544-589 | however many pairs apply, at most 32 are sent for an audit |
| `ReleaseGate.RequestsServeAll` | src/prompt_enhancer/compound_requirements.py:544-589 | within the cap every applicable pair has a usable audit already or is asked about |
| `ReleaseGate.RequestsAreNeeded` | src/prompt_enhancer/compound_requirements.py:544-589 | only pairs without a decision on record are asked about |
| `ReleaseGate.NeededIsAsked` | src/prompt_enhancer/compound_requirements.py:544-589 | within the cap every pair that asks for different things, is not two counts of one kind, and has a semantic, exact-output or count requirement has a decision on record or is asked about |
| `ReleaseGate.PairTotalMeaning` | src/prompt_enhancer/compound_requirements.py:544-589 | the pairs counted against the cap are exactly those of one scope that need judging |
| `ReleaseGate.PairMeaning` | src/prompt_enhancer/compound_requirements.py:553-558 | which pairs need judging, are clear or conflict, in terms of what the two requirements ask for, their kinds and the audit recorded under their key |
| `ReleaseGate.Ledger.ConflictAudits` | src/prompt_enhancer/compound_requirements.py:535-594 | coverage stays audited exactly within the cap, then every applicable pair has an audit, and what is recorded is exactly the judge's answers to the pairs asked about |
| `ReleaseGate.Ledger.Sort` | src/prompt_enhancer/compound_requirements.py:668-707 | a question for each missing meaning, and coverage only if every effective reading was accepted |
| `ReleaseGate.Ledger.AskScope` | src/prompt_enhancer/compound_requirements.py:712-774 | a scope yields a question about a real conflict, or is audited exactly if all its pairs are clear |
| `ReleaseGate.Ledger.AskAll` | src/prompt_enhancer/compound_requirements.py:711-774 | at most one question per scope, and the early exit hides no unaudited pair |
| `ReleaseGate.Ledger.Decide` | src/prompt_enhancer/compound_requirements.py:653-783 | release is eligible exactly when the ledger is safe to release on the judge's answers and the audits recorded before, within 32 pairs; and what every question is asked about |
| `ReleaseGate.Ledger.Plan` | src/prompt_enhancer/compound_requirements.py:638-783 | release is eligible exactly when coverage is audited, contradictions are resolved, every requirement in force has its meaning, at most 32 pairs need judging, two counts of one kind differ for the whole output only, and every pair in one scope that asks for different things with a semantic, exact-output or count requirement has an audit with probability at most 0.2 and confidence at least 0.8; every new audit is the judge's answer, and every question is about a missing meaning or a clash |
| `ReleaseGate.ReleasableIsSafe` | src/prompt_enhancer/compound_requirements.py:638-783 | the conditions under which a ledger is released are the plain ones, within the cap |
| `ReleaseGate.ReleasedOnTheJudgesWord` | src/prompt_enhancer/compound_requirements.py:535-783 | in a releasable ledger each applicable pair was found free of conflict by the answer at its own place in the batch it was sent in, or by a usable audit made before |
| `Confinement.EditScript` | src/prompt_enhancer/fidelity.py:53-138 | the script accounts for every sentence once, anchors exactly the equal blocks in ascending order, and every edit does what its block says |
| `Confinement.ExactlyOnePlace` | src/prompt_enhancer/fidelity.py:53-138 | every source and every candidate sentence is in exactly one anchor or edit |
| `Confinement.OneMatch` | src/prompt_enhancer/fidelity.py:168-188 | a list of matches has one element exactly when the key names one sentence and no other |
| `Confinement.Locate` | src/prompt_enhancer/fidelity.py:163-188 | the first of identifier, place and text that names one sentence decides |
| `Confinement.DiagnosedSources` | src/prompt_enhancer/fidelity.py:159-189 | exactly the sentences named by some problem are diagnosed |
| `Confinement.CheckEdits` | src/prompt_enhancer/fidelity.py:250-290 | no failure exactly when every edit is allowed, and each failure blames a sentence of a refused edit |
| `Confinement.Confine` | src/prompt_enhancer/fidelity.py:221-312 | passes exactly when every edit is allowed and every block corresponds |
| `Confinement.ConfinementMeaning` | src/prompt_enhancer/fidelity.py:250-290 | the local checks hold exactly when every undiagnosed source sentence is kept and insertions stand at diagnosed boundaries or at the end under an authorized gap |
| `Confinement.GapOpenMeaning` | src/prompt_enhancer/fidelity.py:250-290 | between which sentences, or where, an insertion may stand |
| `Confinement.AnchorsPreserve` | src/prompt_enhancer/fidelity.py:84-96 | what is anchored appears in the candidate word for word and in original order |
| `Confinement.CheckConfinement` | src/prompt_enhancer/fidelity.py:221-312 | on two prompts: passing without restructuring or latitude is equivalent to global preservation, otherwise to the absence of correspondence errors |
| `Confinement.Collect` | src/prompt_enhancer/fidelity.py:517-529 | batches of forty bring the joined answers, or the first failure; which question an answer belongs to is `Confinement.AlignedExactly` |
| `Confinement.AlignedExactly` | src/prompt_enhancer/fidelity.py:517-529 | when the total is right, every question has the answer of its own batch and place exactly if every batch returned as many answers as it was asked |
| `Confinement.PassesUnasked` | src/prompt_enhancer/fidelity.py:436-549 | a prompt of forty diagnosed sentences, each rewritten: the rewrite is confined, and a judge that answers 39 and 2 lets it pass although it never spoke about the last sentence |
| `Confinement.OneAnswerEachIsFull` | src/prompt_enhancer/fidelity.py:517-529 | a judge that gives one answer for each question, or fails, fills every batch, so every sentence is judged by its own answer |
| `Confinement.Judge` | src/prompt_enhancer/fidelity.py:517-659 | passes exactly when every changed sentence got an answer at its place that selects a category permitted to it, with at least 0.8 on the permitted ones together, and the meaning is kept; an outage is raised |
| `Confinement.AcceptedMeaning` | src/prompt_enhancer/fidelity.py:545-577 | an answer is accepted exactly if it selects a permitted category and the probabilities of the permitted ones alone add up to at least 0.8 |
| `Confinement.OthersDoNotCount` | src/prompt_enhancer/fidelity.py:545-577 | taking out every probability outside the permitted categories never changes whether an answer is accepted |
| `Confinement.PermittedMeaning` | src/prompt_enhancer/fidelity.py:545-560 | the original is always permitted, an assumption only with a confirmed answer, a style only when authorized |
| `Confinement.Check` | src/prompt_enhancer/fidelity.py:436-659 | a confinement failure fails everything, an unchanged prompt passes, and otherwise every changed sentence must be supported by a permitted category and the meaning kept |
| `Confinement.PassedIsSupported` | src/prompt_enhancer/fidelity.py:486-505 | a candidate that passes consists of copied source sentences and sentences whose answer selects a permitted category with at least 0.8 on the permitted ones together; that is the judge's answer about that sentence if every batch was full |
| `Bundles.SplitText` | scripts/validation/bundles.py:45-59 | chunks concatenate to the text, fit the budget, and no split into consecutive in-budget chunks has fewer; an error exactly when one character cannot fit |
| `Bundles.GreedyStaysAhead` | scripts/validation/bundles.py:48-57 | after any number of chunks no other split has reached further than the greedy one |
| `Bundles.Swallowed` | scripts/validation/bundles.py:48-57 | a chunk that starts inside a greedy chunk ends no later than the next one begins |
| `Bundles.FewestChunks` | scripts/validation/bundles.py:48-59 | the greedy split has the fewest chunks |
| `Bundles.AppendChunks` | scripts/validation/bundles.py:60-69 | each chunk becomes one bundle at the index recorded for it |
| `Bundles.PlaceItem` | scripts/validation/bundles.py:42-76 | an item's text is the concatenation of its chunks at its bundle indices |
| `Bundles.PlaceEvidence` | scripts/validation/bundles.py:42-76 | all items are covered, with disjoint ascending index lists |
| `Bundles.Partition` | scripts/validation/bundles.py:13-85 | exactly which inputs fail, and otherwise every patch is reviewed whole and the evidence tiles the claim bundles losslessly |
| `Bundles.TilesExactlyOnce` | scripts/validation/bundles.py:60-76 | every claim bundle belongs to exactly one evidence item |
| `Receipts.Receipt.StartAll` | scripts/validation/receipts.py:221-258 | starting appends one check for each command up to the first that does not start; a failed start is recorded with exit code 127, and a signal before the process is owned leaves its check running |
| `Receipts.Receipt.PollAll` | scripts/validation/receipts.py:260-270 | a round passes the children that exited with zero, keeps those without an exit, and fails exactly if one reports another code |
| `Receipts.Receipt.StopAll` | scripts/validation/receipts.py:277-286 | after cleanup no check is running but a stray one; each owned one is interrupted, or cleanup-failed exactly if its group cannot be stopped |
| `Receipts.Receipt.RunMany` | scripts/validation/receipts.py:193-296 | returns exactly if every command starts and every child exits with zero before a signal or failure is seen; if it raises, a check is left running exactly if a signal came before its process was owned, none was begun exactly if a signal came first of all, and otherwise something did not pass; earlier checks are untouched |
| `Receipts.Receipt.Finish` | scripts/validation/receipts.py:298-303 | completes exactly when there are checks and all passed |
| `Receipts.Session` | scripts/validation/receipts.py:193-303 | over any sequence of calls the receipt completes exactly when something was checked and every call that appended a check succeeded |
| `Receipts.SignalFirstLeavesNoTrace` | scripts/validation/receipts.py:193-303 | a call that a signal stops before its first start does not succeed, and a receipt with an earlier success completes all the same |
| `Receipts.StoppedYetComplete` | scripts/validation/receipts.py:193-303 | such a receipt: one command passes, the next call is interrupted, and the receipt is complete |
| `Receipts.NotQuiet` | scripts/validation/receipts.py:259-270 | a signal or failure while children are owned rules out success of the call |
| `Receipts.StillNotPassed` | scripts/validation/receipts.py:273-293 | stopping what was owned leaves a check that did not pass |
| `Grading.AddOutput` | src/prompt_enhancer/grading.py:220-377 | one output is held exactly if its state is too large or its questions and the screen do not fit one chunk, and otherwise added with all its questions, both index tables still pointing at the right requests |
| `Grading.ScreenOutput` | src/prompt_enhancer/grading.py:356-376 | with the screen the output fits one chunk, or everything added for it is taken back, exactly if it does not fit |
| `Grading.BuildPlan` | src/prompt_enhancer/grading.py:220-377 | held are exactly the outputs that are too large or, with the screen, ask too much; the groups tile the requests, and the tables hold exactly the tests and hazards of the others |
| `Grading.DispatchStep` | src/prompt_enhancer/grading.py:381-411 | one chunk keeps responses aligned, whether it is oversized, incomplete or answered |
| `Grading.Dispatch` | src/prompt_enhancer/grading.py:378-428 | everything is dispatched in chunks of at most forty that tile the requests, and an output fails exactly through its own chunks |
| `Grading.ResponseOfRequest` | src/prompt_enhancer/grading.py:378-428 | response i is the answer to request i in the one chunk that holds it if that chunk fits and was answered in full, and is held otherwise, only with its output |
| `Grading.GroupIsWhole` | src/prompt_enhancer/grading.py:377-381 | a group holds all the requests of its output |
| `Grading.ScreenedTogether` | src/prompt_enhancer/grading.py:368-377 | with screening all surviving questions of an output are in one chunk |
| `Grading.PairEarns` | src/prompt_enhancer/grading.py:585-640 | a test earns by the answers to its own requests: the probability of yes, its complement for an expected no, the mass of the expected option, half the sum or the smaller of both orders, and zero when unreadable |
| `Grading.ScreenedMeaning` | src/prompt_enhancer/grading.py:430-560 | steering is detected exactly if one hazard is rated at least 0.8, and the screen is clear exactly if both are rated at most 0.2 |
| `Grading.EffectiveIsLeast` | src/prompt_enhancer/grading.py:645-656 | an output scores the least of what its tests earn, each replaced by its override if it has one, and zero without tests |
| `Grading.BaseScores` | src/prompt_enhancer/grading.py:585-656 | an identity has the score of its last output, zero if that one must not score, and zero if none may |
| `Grading.OverrideScores` | src/prompt_enhancer/grading.py:709-728 | the cascade rewrites exactly the scores of outputs that may score |
| `Grading.FinalScores` | src/prompt_enhancer/grading.py:585-728 | with a cascade each identity has the score of its last output that may score, or zero; without one it keeps the base score of its last output |
| `Grading.OwnScore` | src/prompt_enhancer/grading.py:585-728 | with distinct identities an ungradable or steering output keeps zero through the cascade and every other has its own least test score |
| `Grading.ZeroKept` | src/prompt_enhancer/grading.py:709-728 | when the zero is lost, and to whom |
| `Grading.EmptyCascadeIsBase` | src/prompt_enhancer/grading.py:585-728 | with distinct identities a cascade that overrides nothing changes nothing |
| `Attribution.Eligible` | src/prompt_enhancer/failure_attribution.py:217-230 | exactly the failed pairs of the candidates, sorted |
| `Attribution.EligibleIsStable` | src/prompt_enhancer/failure_attribution.py:217-230 | sorting keeps every pair as often as it came in, and pairs that sort alike keep their order |
| `Attribution.ReservationMeaning` | src/prompt_enhancer/failure_attribution.py:262-271 | a request reserves twice the price of its tokens, four bytes each and rounded up, and of 128 written, at least 0.00001, for each attempt |
| `Attribution.SupportedExactly` | src/prompt_enhancer/failure_attribution.py:296-364 | a record is supported exactly if all three answers are confident, calibrated and signed, the kind is known, and the first names a sentence of that prompt; it then quotes the first sentence of that number |
| `Attribution.UnresolvedReasons` | src/prompt_enhancer/failure_attribution.py:289-366 | which reply leads to which reason |
| `Attribution.Decide` | src/prompt_enhancer/failure_attribution.py:274-366 | a pair is asked exactly when neither cap, missing prices nor its size stand in the way, and the record says why |
| `Attribution.SpendingIsBounded` | src/prompt_enhancer/failure_attribution.py:280-371 | reservations stay within the dollar cap and charges exceed it by at most the last request's overrun |
| `Attribution.StatusesAddUp` | src/prompt_enhancer/failure_attribution.py:379-383 | supported, unresolved and skipped records add up to all records |
| `Attribution.AttributeFailedPairs` | src/prompt_enhancer/failure_attribution.py:203-394 | one explained record per eligible pair in order, at most pair_cap requests, bounded spending, and each record filed under its candidate |
| `Convergence.MeanInUnit` | src/prompt_enhancer/convergence.py:63-71 | the mean of probabilities is a probability, also without numbers |
| `Convergence.MeanBalances` | src/prompt_enhancer/convergence.py:63-71 | the numbers balance around the mean: their deviations from it add up to zero; without numbers it is zero |
| `Convergence.OnlyTheMeanBalances` | src/prompt_enhancer/convergence.py:63-71 | no other number is balanced like that |
| `Convergence.GoesOnByGaining` | src/prompt_enhancer/convergence.py:121-158 | which rounds pass, and a round that passes goes on exactly when its mean exceeds that of a measured round before it by more than epsilon and 1e-12 |
| `Convergence.StreakIsShort` | src/prompt_enhancer/convergence.py:121-158 | rounds in a row that pass without converging have room for epsilon each below one |
| `Convergence.FewerThanInverse` | src/prompt_enhancer/convergence.py:121-158 | fewer than 1/epsilon consecutive rounds pass without converging |
| `Convergence.RepeatWhilePassing` | src/prompt_enhancer/repeat.py:251-318 | from any history, as long as its rounds pass the uncapped loop ends by convergence within that bound |
| `Convergence.KeepBest` | src/prompt_enhancer/repeat.py:285-298 | the round whose outcome is kept is the latest of the eligible ones with the highest mean |
| `Clarification.SelectedMeaning` | src/prompt_enhancer/clarification.py:275-306 | a value is recorded for an answer exactly if the answer picks a choice, the first with its value or the first other one, and that yields the value: its label, the trimmed text, or the count a conflict asks for |
| `Clarification.PutAllMeaning` | src/prompt_enhancer/clarification.py:328-336 | recording keeps one entry per key, the last one given |
| `Clarification.ApplyAnswers` | src/prompt_enhancer/clarification.py:309-346 | accepted exactly when every question is stored well and some value is recorded for its answer; each is then recorded as answered |
| `Clarification.SkipQuestions` | src/prompt_enhancer/clarification.py:349-385 | accepted exactly when every question is stored well and none demands an answer; each then records the label of the first choice with its default value |
| `Clarification.SettledKeeps` | src/prompt_enhancer/clarification.py:328-346 | no recorded key is lost, a key no answer is about keeps its last value, and each answered question has exactly one assumption |
| `Clarification.Service.Start` | src/prompt_enhancer/clarification.py:477-501 | an existing run is returned unchanged, a new one is paused exactly when it has questions |
| `Clarification.Service.Resume` | src/prompt_enhancer/clarification.py:528-530 | each refusal has its exact cause and changes nothing; otherwise the run is settled, continued and stored |
| `Clarification.Service.Skip` | src/prompt_enhancer/clarification.py:537-539 | the same for skipping, refused exactly when an answer is demanded |
| `Clarification.Serve` | src/prompt_enhancer/clarification.py:459-545 | over any requests each reply is the one its request gets from the store the requests before it left, a stored run waits exactly while it has questions, and no key is lost |
| `Clarification.MadeQuestionIsReadable` | src/prompt_enhancer/clarification.py:169-201 | a question made for a gap can be read back and skipped |
| `Clarification.BuildPlan` | src/prompt_enhancer/clarification.py:204-261 | fails exactly when a gap to be asked about offers a choice without a value |
| `Clarification.EveryGapOnce` | src/prompt_enhancer/clarification.py:204-261 | every gap the prompt does not fill is asked about or recorded, once |
| `Clarification.EachGapIsServed` | src/prompt_enhancer/clarification.py:204-261 | a gap of high impact about which nothing definite was inferred is asked about when asking is on, and every other unfilled gap is recorded with the value proposed or as not specified, and why |
| `Clarification.OrdinaryConcat` | src/prompt_enhancer/clarification.py:169-201 | the offered choices keep their order and leave out exactly the other ones |
| `Clarification.PlansCanBeSkipped` | src/prompt_enhancer/clarification.py:349-385 | a planned run can always be skipped |

## Left out

- HTTP, sockets, stream reading, threads as OS objects, subprocesses, signals outside polling points, SQLite, web routes and disk failures: replaced by oracles and nondeterministic steps.
- The text of prompts, questions and failure messages, JSON serialization and hashing.
- The regular expressions: matches of the terminal, quote and break patterns are modelled on characters; abbreviations, continuations, list items and connectors are arbitrary predicates.
- Calibration policies, order-bias artifacts and the inside of the grading cascade: arbitrary parameters.
- The historical protocols kept for replay, and the lossless restructuring proof of the fidelity gate.
- Loading, normalization, splitting and metrics of training data other than the ROC AUC.
- Report metrics of graded panels (`metrics_from_scores`) and the mirrored levels of score tests.
- GatewayRequest.HttpGateway.Request: progress events other than the last one are assumed not to raise, how often a retry wait wakes up is an arbitrary number, and what the run has left is read once.
- WorkerPermits.EveryRunIsSound: polling and waiting are steps without a clock; deadlines and cancellation are arbitrary at each step.
- Diagnosis.Diagnoser.ObserveDirect: a gateway is assumed to reply or to raise a provider error, and the size test to accept every consecutive part of a batch it accepts.
- Sentences.SplitSentences: the early return for a blank prompt is not a separate case; the pass finds no sentence there.
- Clarification.Service.Resume: metadata, stored answers and the continuation's result are not part of the run; validation without storing is the same check.
- Convergence.KeepBest: the prompt text of clarified rounds and restored evidence are not modelled.
- Receipts.Receipt.RunMany: signals while an exit is being recorded or during the cleanup itself are not modelled.
- Diagnosis.DiagnosisRecovery.Windowed: a window's reason, error and answering model are not part of its record.
- Grading.FinalScores: calibrated screening thresholds are not modelled; the cutoffs are 0.8 and 0.2.
