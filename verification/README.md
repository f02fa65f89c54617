# Verified model of the gooru media library

A Dafny 4.11 model of the parts of gooru whose correctness rests on more than one function: the durable work queue, the query language and its compiler, the encrypted file container, the database swap, staged file deletion, relinking, keyset paging and kind facets. `dafny verify dfyconfig.toml` checks all of it.

## The components

**Durable work queue** (`QueueModel`, `QueueSpec`, `QueueStore`, `QueueInvariant`, `QueueTransactions`, `QueueRuns`, `QueueHistory`, `QueueGuarantees`, `QueueCompensation`, `QueueRules`, `QueueSchedule`, `QueueAttachment`, `QueueBudget`, `QueueMutations`, `Runner`). The tables of operations, tasks, attempts, associations and tag mutations are a value `Db`; every transaction is a function from `Db` to a new `Db` or an error, and `QueueStore.Store` carries out the same transactions statement by statement on fields it reassigns, proved equal to the functions. A run is any sequence of transactions with any arguments and any clocks: crashes are transactions that never come, stale handlers are transactions that come late. `Inv` is the inductive invariant; `Step` says what one transaction may change; `QueueRules` and `QueueSchedule` say in the columns of the rows what the transactions do, for one call and over runs. `Runner` adds the worker's step machine, many at once. Triggers, foreign keys and the partial unique index are modelled after the migrations 023, 024, 028, 031, 033, 034, 035 and 040.

**Query language** (`QueryAst`, `QueryText`, `QueryTyping`, `QuerySpelling`, `SavedSearch`, `QueryPrinting`, `QueryCompiler`, `QueryBuilder`, `QueryMultiplicity`). The syntax tree has a set semantics on a library. `QueryCompiler` is the relational term that the SQL denotes; `QueryBuilder` emits it as a token stream with bound arguments, as the builder object does, and reads it back. `QueryMultiplicity` gives the compiled queries a second meaning that counts how often a file is returned. `QueryText` holds the normalizer, the lexer, the grammar and the printer. `QueryTyping` takes a typed query as a list of pieces, each spelled in one of its ways, and `QuerySpelling` says which tree every spelling of a tree is read as; printed text is the special case of symbols and quotes. `QueryPrinting` joins the parser to saved-search expansion.

**Encrypted container** (`EncryptedFile`, `StringBatch` beside it for the shared argument buffer of the database layer). The AEAD is a pair of functions with `open(seal(x)) = x`.

**Database swap** (`DatabaseSwap`) and **staged deletion** (`StagedDeletion`). Every operation on the directory may fail, and the process may stop between any two. The swap object records every state it has been in, what of it is durable, and how many more operations may fail. The deletion object records every step, its own and those of other programs; what it can do is a relation on steps (`Enabled`), and its methods only take enabled ones.

**Relink** (`Relink`), **paging** (`Paging`, `ListingOrder`) and **facets** (`Facets`, `FacetRows`) are proved against the plain description of what they compute: the file system restricted to known contents, the sorted list, and the grouping of the files the full query selects.

## What the proofs found

- A task that exhausts its attempts enqueues its compensation in the transaction that records the failure. If the cleanup's id or dedupe key is taken, nothing is recorded: a worker's failure is lost (`FailSucceedsIff`), and lease recovery recovers nothing, for any task (`RecoverySucceedsIff`; `RecoveryCanBeObstructed` is a run of three transactions that gets there). Cancellation and producer failure roll back under the conditions of `CancelSucceedsIff` and `ProducerFailureSucceedsIff`.
- A saved-search reference with white space before the colon, `"@saved :x"`, is accepted as a saved meta-tag but never expanded, and then selects nothing (`SpacedReferenceEscapes`; `ReferenceIsExpandedIff` is the condition).
- Every query the program prints is read back as it was (`PrintedQueriesReadBack`), for printable ASCII tags without a backslash. The printer itself is not injective: a tree with the tag `-` prints as a negation (`HyphenTagIsMisread`), and `ParseUndoesFormatIff` says that this is the only exception; but the parser never builds such a tree (`ParsedIsReadable`) and expansion adds none (`ExpandedIsReadable`). This relies on the parser library comparing literals with token text whatever the token's kind; the library is not part of this model.
- A location query can return a file more than once, and listings, counts and facets built on it keep the repetition (`GroupedIsFacetsIff`; the fast paths of the facets are never affected, `ExclusionPathIsGeneral`, `HidingPathIsGeneral`). A disjunction that ends in a type: tag does so for the files that an earlier operand selects and whose kind comes from the extension; the same query with the type: tag first does not (`OrderOfOperandsMatters`; `TaggedPhotoIsReturnedTwice` is a library of one file). `@in_target:any` returns a file once per target, and in a conjunction the tag statistics decide whether it does (`StatisticsChangeRepetitions`). `RepeatsIff` is the exact condition for every query, `SingleReturnsOnce` one on the text of the query alone. Paging cuts repeated rows at page boundaries (`RepeatedRowIsCut`).
- Applying a relink plan fails when the deletions that make room orphan a content which an addition still needs: the trigger deletes the content row and the foreign key refuses the addition. Two files that traded places are the simplest case (`TradedPlacesCannotBeRelinked`). `ApplySucceedsIff` says exactly when a plan can be applied, in terms of the snapshot alone.
- Go lower-cases a cursor key that SQLite has already lower-cased. The next page is right for every page size exactly when the key does not change, or moves onwards past no row (`PageIsRightIff`). Two file names with accented capitals are enough for a file to be skipped (`NonAsciiRowIsSkipped`); ASCII keys are safe (`AsciiKeysAreFixed`).
- Encrypting a stream succeeds exactly when the container's length is a signed 64-bit number. For a plaintext just below that limit the sizes of the second pass overflow, and a seek to a negative offset fails (`EncryptStream`, `OffsetsFit`, `ExpectedSizeFits`).
- Restoring a staged file overwrites what another program put at its original path exactly when something is staged, the path was empty at the check, and the file was created between the check and the rename (`RestoreMissingOK` for one call, `ReplacementLostIff` for every step of every run, `ReplacementCanBeLost` for a run that does it). Without programs that act in that window no replacement is ever lost (`ReplacementStays`).
- A deletion replayed after it has committed brings deleted files back: `ReplayRevivesDeletedFiles` carries out the attempt, the crash after the commit, the replay that fails on one file, and the cleanup. The policy of one attempt rules the replay out.

## Model

| member | source | states |
|---|---|---|
| QueueRuns.ReachableInv | internal/database/durable_work_lifecycle.go:17-436 | In every reachable state attempts are numbered 1..attempt_count, a task runs iff its last attempt is the single open one with the lease owner as its worker, counters are exact, only active parents have active children and dedupe keys of active tasks are unique |
| QueueRuns.StepKeepsInv | internal/database/durable_work_cancellation.go:23-233 | No transaction, whatever its arguments and clock, leaves that invariant |
| QueueRuns.DefensiveErrorsUnreachable | internal/database/durable_work_lifecycle.go:353-436 | The errors for a missing attempt, a short batch, a missing lease expiry or a missing parent never occur in any run |
| QueueHistory.EveryEventIsStep | internal/database/durable_work_operation_lifecycle.go:12-154 | What one transaction may change, the postponement of a pending task included: finished rows, closed attempts and frozen descriptions stay as they are |
| QueueHistory.CancellationIsPermanent | internal/database/durable_work_cancellation.go:109-233 | A canceled operation keeps its row for ever, but for its visibility, and never has a pending or running child again, so the unguarded status updates never touch it |
| QueueHistory.OutcomeIsWrittenOnce | internal/database/durable_work_lifecycle.go:110-270 | A claim generation gets at most one outcome |
| QueueRules.NextTask | internal/database/durable_work_lifecycle.go:45-57 | A most urgent task, of the highest priority, among those the oldest, among those with the smallest id, exists iff a task of the pool is pending, available by now and has attempts left; there is only one, and the subquery selects it |
| QueueRules.ClaimTakesMostUrgent | internal/database/durable_work_lifecycle.go:17-82 | A claim takes the most urgent due task, leases it to the worker from now on, opens its next attempt and starts its operation; nothing else changes |
| QueueSchedule.ClaimSucceedsIff | internal/database/durable_work_lifecycle.go:17-82 | In every reachable state a claim with proper arguments succeeds iff its task is the most urgent due one |
| QueueSchedule.ClaimsPassOverNothing | internal/database/durable_work_lifecycle.go:50-55 | No claim of any run passes over a due task of its pool with a higher priority, or the same and more age, or the same age and a smaller id |
| QueueRules.ClaimHoldsUntil | internal/database/durable_work_lifecycle.go:17-82 | From a claim on, the worker and the claim generation hold the task exactly until the lease ends, and recovery may take it exactly from then on |
| QueueSchedule.HeldOrOpenToRecovery | internal/database/durable_work_lifecycle.go:283-351 | In every reachable state a running task is at any time either held, by its owner under its current generation alone, or open to recovery |
| QueueRules.FailureSchedulesRetry | internal/database/durable_work_lifecycle.go:202-270 | A failed task is due again exactly from the asked time on, or from now when none is asked, while attempts remain, and has failed now otherwise; its attempt is closed with the error |
| QueueSchedule.RetryWaits | internal/database/durable_work_lifecycle.go:202-270 | In every continuation the next attempt of a failed task starts no earlier than that |
| QueueSchedule.RecoveryTakesBack | internal/database/durable_work_lifecycle.go:283-425 | A recovery that succeeds takes back every task whose lease is over, to wait from now on or failed now, abandons its attempt and adds the cleanups of the exhausted ones at once; it changes no other task or attempt |
| QueueRules.CancellationRevokes | internal/database/durable_work_cancellation.go:23-73 | A canceled task ends now without an error, its open attempt is revoked, and the other tasks and attempts stay |
| QueueRules.EnqueuedRow | internal/database/durable_work.go:150-240 | A new task waits from the asked time or its creation on, with three attempts and the default pool unless it names others |
| QueueRules.EnqueuedParent | internal/database/migrations/034_background_operation_attached_progress_total.up.sql:25-57 | Its parent counts it, grows its total only when that would be exceeded, and waits again without end, error and result if it had finished |
| QueueSchedule.EndsAreStamped | internal/database/durable_work_operation_lifecycle.go:12-154 | In every reachable state a task, an attempt and an operation has an end time iff it is over, a task a start time iff it has an attempt, and no error stays on what succeeded or goes on |
| QueueSchedule.ProducerEndReleases | internal/database/migrations/040_background_operation_associations.up.sql:16-72 | When a producer ends, exactly its active auxiliaries with no work left to wait for end with it: failed, else canceled, else completed, as a scan of their children gives |
| QueueSchedule.TerminationReleases | internal/database/durable_work_cancellation.go:109-149 | A winning cancellation or producer failure changes no other operation but those auxiliaries |
| QueueSchedule.InterruptionCancels | internal/database/durable_work_recovery.go:100-138 | Cleaning up interrupted producers cancels exactly the pending operations of the kind without work, only the hidden ones if so asked; besides, only auxiliaries of theirs may end |
| QueueGuarantees.CountersAreRecounts | internal/database/durable_work_operation_lifecycle.go:52-154 | progress_completed, progress_failed and the attached count equal a full recount of the children in every reachable state |
| QueueGuarantees.BookkeepingIsRescan | internal/database/durable_work_operation_lifecycle.go:52-154 | Counting a child finishes the operation exactly when it is drained, with the status a rescan gives: failed, else canceled, else completed |
| QueueGuarantees.ResultBarrier | internal/database/durable_work_cancellation.go:125-149 | A corollary of the two guards: once an active operation holds a result, canceling it or failing its producer changes nothing |
| QueueGuarantees.ClearingIsWhole | internal/database/durable_work_clear.go:10-104 | Clearing takes exactly the visible finished operations that concern no active work, children or detached, each with all the work it concerns; other rows stay as they are, and attempts go with their tasks |
| QueueGuarantees.CancellationCompensates | internal/database/durable_work_cancellation.go:109-233 | A winning cancellation ends all work below the operation now and adds exactly one cleanup task of the given description, available as soon as the time it asks for has come and every revoked lease would have expired |
| QueueGuarantees.ProducerFailureCompensates | internal/database/durable_work_operation_failure.go:38-159 | A winning producer failure does the same, with a cleanup iff child work exists |
| QueueGuarantees.NextAttemptWaits | internal/database/durable_work_cancellation.go:205-227 | In every continuation of a run the next attempt of a held-back task starts no earlier than its horizon |
| QueueGuarantees.RecoverySucceedsIff | internal/database/durable_work_lifecycle.go:283-425 | Lease recovery succeeds iff no exhausted task's cleanup is obstructed, then adds exactly one cleanup without a descriptor of its own per exhausted task with one; otherwise nothing is recovered |
| QueueGuarantees.RecoveryCanBeObstructed | internal/database/durable_work_lifecycle.go:388-425 | A concrete run whose recovery fails |
| QueueCompensation.FailSucceedsIff | internal/database/durable_work_lifecycle.go:202-270 | A worker's failure commits iff the worker holds the lease and, on a last attempt with a descriptor, the cleanup's id and key are free; then exactly that one cleanup, as described and without a descriptor of its own, is added in the same step; otherwise nothing changes |
| QueueCompensation.CancelSucceedsIff | internal/database/durable_work_cancellation.go:109-233 | Canceling an operation commits iff it is active without a result and the cleanup can be enqueued beside what stays active; otherwise nothing changes |
| QueueCompensation.ProducerFailureSucceedsIff | internal/database/durable_work_operation_failure.go:38-159 | The same for a producer failure, whose cleanup matters only when child work exists |
| QueueCompensation.CleanupOutwaitsLeases | internal/database/durable_work_cancellation.go:205-227 | After a winning cancellation or producer failure, in every continuation that keeps the cleanup, its first attempt starts no earlier than each lease that was revoked |
| QueueAttachment.AdmissionIsBounded | internal/database/durable_work_admission.go:17-67 | An operation is admitted iff its arguments are valid, its id is new and fewer of its kind are pending than allowed; then one more is pending, and no more than allowed |
| QueueAttachment.AttachingAgainChangesNothing | internal/database/durable_work_segment_attachment.go:16-125 | After any continuation, attaching a child again with the same description reports it as existing and changes nothing |
| QueueAttachment.AuxiliaryIsNotTaken | internal/database/durable_work_association.go:52-109 | Over any run the link of a producer keeps leading to the same auxiliary while that is active |
| QueueRules.AssociationSucceedsIff | internal/database/durable_work_association.go:52-109 | When an auxiliary is bound: both operations active, the kind right, no other link to it, and the replaced one finished |
| QueueRules.SnapshotSucceedsIff | internal/database/durable_tag_mutation.go:66-186 | A target snapshot is taken once, of a hidden pending operation without work, and is stored as given with its count |
| QueueRules.FlagsAreWrittenIff | internal/database/durable_work_producer_claim.go:7-32 | When an operation can be hidden, shown or claimed by a producer, and that nothing else changes |
| QueueBudget.BudgetStep | internal/database/durable_work_lifecycle.go:17-82 | A claim lowers the remaining budget by exactly one; nothing else but inserting a task raises it, and that by at most what the task grants |
| QueueBudget.ClaimsAreBounded | internal/database/durable_work_lifecycle.go:388-425 | In every run all claims, made and still possible, are bounded by the attempts granted to the inserted tasks and their compensation descriptors |
| QueueMutations.ExecutionIsAllOrNothing | gooru/background_tag_mutation.go:189-238 | An execution commits tag changes, result and completion of the very claim generation together, or leaves no trace |
| QueueMutations.StaleHandlerLeavesNoTrace | internal/database/durable_work_lifecycle.go:156-196 | A corollary of the guard on the claim: a handler whose generation lost its lease, was canceled, recovered or reclaimed changes nothing |
| QueueMutations.OnlyExecutionsChangeTags | gooru/background_tag_mutation_managed.go:26-138 | No other transaction of the queue changes tags or mutation rows |
| QueueMutations.ExactlyOnce | internal/database/durable_tag_mutation.go:260-289 | For an id used once: a mutation's changes commit at most once, and have committed exactly when its result is set |
| QueueMutations.NoMoreCommitsThanCreations | internal/database/durable_tag_mutation.go:260-289 | In every run, however ids are used again, there are no more commits under an id than creations, and fewer while a result is missing |
| QueueMutations.ResultMeansOneCommit | internal/database/durable_tag_mutation.go:260-289 | The result is set iff the run has a committing event; it is the only one, and while the rows are kept its claim generation has the succeeded attempt and its task is completed |
| QueueMutations.DescriptionIsFrozen | internal/database/durable_tag_mutation.go:66-186 | While a mutation keeps its row, only its result changes, once, from missing to present |
| QueueMutations.CommitAppliesTheRow | gooru/background_tag_mutation.go:189-238 | If a handler reads the row at any point and its execution commits at a later one, what it read is still what the row says, and the tags change exactly as the row says |
| QueueMutations.CommitAppliesCreation | gooru/background_tag_mutation.go:307-359 | From creation to commit: a committed execution that read the row changes exactly what the mutation was created for, by content hash on exactly the targets of its creation |
| QueueMutations.RetaggingMeans | gooru/tagging.go:517-557 | Set replaces the targets' tags, add and remove touch exactly the given pairs, other contents keep theirs |
| QueueMutations.AffectedPairs | gooru/background_tag_mutation.go:307-359 | The reported count: for adding and removing the number of pairs that changed; for replacing by files that number and twice the pairs that stay; for replacing by query the number of matched files |
| QueueStore.Store.Claim | internal/database/durable_work_lifecycle.go:17-82 | The statements take the task no due task of the pool precedes by priority, age and id, with the effect of the transaction function on the whole database; they take none iff no task is due |
| QueueStore.Store.CompleteByWorker | internal/database/durable_work_lifecycle.go:110-151 | Likewise for completion under a worker id |
| QueueStore.Store.CompleteByGeneration | internal/database/durable_work_lifecycle.go:156-196 | Likewise for completion under a claim generation |
| QueueStore.Store.Fail | internal/database/durable_work_lifecycle.go:202-270 | Likewise for failure with retry or terminal cleanup |
| QueueStore.Store.Renew | internal/database/durable_work_lease.go:14-44 | Likewise for lease renewal |
| QueueStore.Store.AbandonAttempts | internal/database/durable_work_lifecycle.go:353-386 | The batched closing of attempts closes every expired generation, and fails exactly when some batch meets fewer open attempts than rows |
| QueueStore.Store.Recover | internal/database/durable_work_lifecycle.go:283-351 | Recovery over the rows in whatever order the loop meets them |
| QueueStore.Store.CancelTask | internal/database/durable_work_cancellation.go:23-73 | Cancellation of one task with its attempt and parent bookkeeping |
| QueueStore.Store.CancelOperation | internal/database/durable_work_cancellation.go:109-233 | The ordered updates of operation, attempts and tasks, then the delayed cleanup |
| QueueStore.Store.FailOperation | internal/database/durable_work_operation_failure.go:38-159 | The same for producer failure, with counters taken before the children are canceled |
| QueueStore.Store.RecordTerminal | internal/database/durable_work_operation_lifecycle.go:52-154 | The incremental counters and the finishing update |
| QueueStore.Store.Enqueue | internal/database/durable_work.go:150-240 | Insert or return the active task of the dedupe key; the triggers reject a canceled parent and reopen a finished one |
| QueueStore.Store.Clear | internal/database/durable_work_clear.go:10-104 | The three deletes, each selecting anew, remove the same operations and their children |
| QueueStore.Store.Admit | internal/database/durable_work_admission.go:17-67 | Creation bounded by the number of pending operations of the kind |
| QueueStore.Store.AttachAndReveal | internal/database/durable_work_attachment.go:33-80 | Checkpoint, task and visibility together or not at all |
| QueueStore.Store.AttachChild | internal/database/durable_work_segment_attachment.go:16-125 | Idempotent attachment that never exceeds the declared total |
| QueueStore.Store.Associate | internal/database/durable_work_association.go:52-109 | An auxiliary operation is bound to one producer and not taken from an active one |
| QueueStore.Store.CancelUnattached | internal/database/durable_work_recovery.go:100-138 | Cancellation of reservations that never got a task |
| QueueStore.Store.Postpone | internal/database/durable_work_pending.go:56-81 | A pending task without a claim is moved to a later time, anything else is left alone |
| QueueStore.Store.SetResult | internal/database/durable_work_result.go:33-87 | A result is written only while the operation is active |
| QueueStore.Store.SnapshotFiles | internal/database/durable_tag_mutation.go:66-186 | The batched snapshot stores exactly the existing targets and counts them |
| QueueStore.Store.CreateFileMutation | internal/database/durable_work_attachment.go:82-143 | Reservation, snapshot and task in one transaction |
| QueueStore.Store.ExecuteQuery | gooru/background_tag_mutation.go:189-238 | Execution on the frozen targets with result and completion |
| QueueStore.Store.ExecuteFiles | gooru/background_tag_mutation_managed.go:26-138 | Execution on analysed files with result and completion |
| Runner.WorldStaysCoherent | internal/background/runner.go:114-247 | With many runners interleaved, each owns exactly the generation it claimed, whatever else happens |
| Runner.RunnerCompletesItsGeneration | internal/background/runner.go:281-298 | Completing under the worker id is completing the claimed generation, even after recovery and reclaim by others |
| Runner.RunnerFailsItsGeneration | internal/background/runner.go:300-338 | A failure a runner manages to write closes exactly the attempt it claimed; otherwise the lease is reported lost |
| Runner.ClaimMove | internal/background/runner.go:114-174 | In every reachable world a runner that claims takes the most urgent due task and then handles the generation it opened, or nothing happens |
| Runner.RenewalMove | internal/background/runner.go:371-405 | A runner at work extends the lease of its own generation while it holds it, and learns of the loss otherwise |
| Runner.CompletionMove | internal/background/runner.go:281-298 | A finished handler's success is written iff its claim generation still holds the task; otherwise nothing is, and the runner recovers |
| StringBatch.BindRowBatches | internal/database/string_batch.go:51-78 | Batches fit the variable limit, their placeholders and arguments match, and together they bind every value once in order |
| StringBatch.PlaceholderPrefix | internal/database/string_batch.go:64-73 | The prefix cut from the shared placeholder text is the join of that many rows |
| QueryCompiler.CompileMeans | internal/query/sqlbuilder.go:65-345 | For every query, library and table of tag counts, in both modes, the compiled query returns exactly what the query means |
| QueryCompiler.CountsDoNotMatter | internal/query/sqlbuilder.go:81-134 | Statistics choose plans, never answers |
| QueryCompiler.ModesAgree | internal/query/sqlbuilder.go:26-63 | For queries of user tags and @tagged the files found by id are exactly the files of the contents found by hash |
| QueryCompiler.MediaBranchesAreKind | internal/query/sqlbuilder.go:154-207 | The split type: query selects what the CASE expression classifies |
| QueryCompiler.SortedOrdered | internal/query/sqlbuilder.go:81-134 | Positive operands are driven by increasing estimated size |
| QueryAst.AskedWithValue | internal/query/metatags.go:50-73 | A meta-tag with a value asks something only for the two names that take one, in any case, and a value that is not blank |
| QueryAst.AskedWithoutValue | internal/query/metatags.go:50-73 | Without a value only the two names that take none |
| QueryAst.AskedOfUser | internal/query/sqlbuilder.go:257-345 | A user tag asks for extension, kind, exact value, any value, no value or the key alone, by its key and what follows its first colon |
| QueryBuilder.Build | internal/query/sqlbuilder.go:26-42 | The text and arguments the builder object emits read back as the compiled term, so they select what the query means |
| QueryBuilder.SQLBuilder.BuildExpression | internal/query/sqlbuilder.go:65-79 | One expression appends exactly its own text and arguments to what is there |
| QueryBuilder.TextDeterminesTerm | internal/query/sqlbuilder.go:65-152 | Text and arguments together determine the relational term: no two queries share them |
| QueryBuilder.TextIsConstant | internal/query/sqlbuilder.go:26-345 | The text of a query is made of constant fragments: whatever a user typed is among the bound values |
| QueryMultiplicity.TimesPositive | internal/query/sqlbuilder.go:65-345 | Counting rows with UNION, UNION ALL and the joins as written, a file is returned at least once iff it is in the set the query denotes |
| QueryMultiplicity.RepeatsIff | internal/query/sqlbuilder.go:65-134 | A file is returned more than once iff the driving operand is `@in_target:any` and it is in several targets, or the last operand of a disjunction returns it through the second half of a type: query and an earlier one returns it too |
| QueryMultiplicity.SingleReturnsOnce | internal/query/sqlbuilder.go:65-207 | A condition on the text of a query under which no library and no statistics make it return a file twice |
| QueryMultiplicity.OrderOfOperandsMatters | internal/query/sqlbuilder.go:183-207 | With the type: tag last, a file is returned twice iff the other operand selects it and its kind comes from its extension; with the type: tag first, never |
| QueryMultiplicity.TaggedPhotoIsReturnedTwice | internal/query/sqlbuilder.go:183-207 | A library of one tagged photo without metadata, which the disjunction of `a` and `type:photo` returns twice |
| QueryMultiplicity.StatisticsChangeRepetitions | internal/query/sqlbuilder.go:232-243 | The same conjunction returns a file once or once per target, depending on the tag counts |
| SavedSearch.ExpandKeepsMeaning | internal/query/saved.go:22-83 | The expanded query means what interpreting the references recursively means |
| SavedSearch.ExpandedIsPlain | internal/query/saved.go:22-83 | No reference is left |
| SavedSearch.ExpansionSucceedsIff | internal/query/saved.go:15-83 | Expansion succeeds iff every reachable reference has a name that resolves and parses and no chain of references comes back to itself |
| SavedSearch.EmptyMeansAll | internal/query/saved.go:40-83 | An empty saved query means all files, for any parser that reads the stand-in text as tagged or not |
| QueryPrinting.AllFilesParses | internal/query/saved.go:68-73 | The parser does read the stand-in for an empty query so |
| QueryPrinting.EmptySearchSelectsAll | internal/query/saved.go:40-83 | So with the real parser an empty saved search selects every file |
| SavedSearch.SpacedReferenceEscapes | internal/query/saved.go:22-83 | The padded reference is left in place and selects nothing |
| SavedSearch.ReferenceIsExpandedIff | internal/query/metatags.go:50-73 | A saved meta-tag is expanded iff its name is not padded |
| QueryText.NormalizeQuerySyntax | internal/query/parser.go:106-144 | The scanning loop rewrites what is outside quotes and copies every quoted segment byte for byte; what the rewriting makes of typed text is in the next rows |
| QueryTyping.TypedTokens | internal/query/parser.go:54-144 | Typed text, with words in any case or symbols for the connectives, any white space, bare and quoted tags and the two types, is read as the tokens its pieces stand for |
| QueryTyping.TagLengthIsLongest | internal/query/parser.go:44-47 | The lexer takes the longest text that is a meta-tag with at most one value or a word of tag characters |
| QuerySpelling.SpellingIsReadBack | internal/query/parser.go:13-144 | For every tree and every spelling of disjunction, conjunction and negation, with tags bare where they can be and types for their groups, parsing the typed text gives the tree back iff no unnegated tag of it is a single hyphen |
| QuerySpelling.TypedIsRead | internal/query/parser.go:93-144 | The same for text in which every piece is spelled in its own way |
| QuerySpelling.NotExcludes | internal/query/parser.go:63-64 | For any two words that are no connectives, `a not b` is read as a and not b |
| QuerySpelling.TypesAreRead | internal/query/parser.go:71-91 | `type:img` and `type:vid` are read as the groups of their extensions |
| QuerySpelling.ImagesSelect | internal/query/parser.go:69-72 | `type:img` selects exactly the files with one of the fifteen image extensions, in any case |
| QuerySpelling.VideosSelect | internal/query/parser.go:69-72 | `type:vid` likewise with the nine video extensions |
| QuerySpelling.PrintedTextIsNormal | internal/query/parser.go:93-144 | Printed text of every tree the grammar can build passes the normalizer unchanged |
| QuerySpelling.ParseUndoesFormatIff | internal/query/saved.go:87-121 | For trees whose tags are printable ASCII without backslash, parsing the printed text gives the tree back iff no bare tag is a single hyphen |
| QuerySpelling.HyphenTagIsMisread | internal/query/parser.go:15-52 | Printing is not injective on trees: a bare hyphen tag prints as nothing readable, or as the negation of what follows |
| QueryText.ParsedIsReadable | internal/query/parser.go:15-60 | The parser never builds a tree with an unnegated hyphen tag, nor one with an empty node |
| QueryPrinting.ExpandedIsReadable | internal/query/saved.go:22-83 | Neither does the expansion of saved searches |
| QueryPrinting.PrintedQueriesReadBack | internal/serve/saved_search_composition.go:13-38 | For every query text and every set of saved searches, the printed expansion parses to the expansion, without a condition on hyphens |
| EncryptedFile.Encrypt | internal/encryptedfile/encryptedfile.go:60-112 | The sequential writer writes the container image, and fails exactly when the source is not as long as declared |
| EncryptedFile.EncryptStream | internal/encryptedfile/stream.go:21-71 | The two-pass stream writer succeeds iff the container's length fits signed 64 bits, and then leaves the same file as Encrypt under the final header; both errors are told apart |
| EncryptedFile.FinalizeStream | internal/encryptedfile/stream.go:73-131 | The second pass re-seals every chunk in place and then replaces the header; it fails iff the length overflows, and the file is complete even then unless a chunk offset overflowed too |
| EncryptedFile.OffsetsFit | internal/encryptedfile/stream.go:85-95 | A chunk offset computed in signed 64 bits is exact, or negative when it does not fit; and all fit when the container does |
| EncryptedFile.ExpectedSizeFits | internal/encryptedfile/stream.go:126-129 | The expected size is exact iff the container fits, and negative otherwise |
| EncryptedFile.WrittenFileOpens | internal/encryptedfile/encryptedfile.go:134-199 | What Encrypt writes opens and holds exactly the plaintext |
| EncryptedFile.OpenFile | internal/encryptedfile/encryptedfile.go:134-199 | A file object is returned iff the image has the magic, the version, zero reserved bytes, a header whose tag opens under its prefix and the declared length; a rejected tag is an authentication error; the object is at offset zero and meets all that reading needs |
| EncryptedFile.OpenSucceedsIff | internal/encryptedfile/encryptedfile.go:134-199 | In the bytes of the image: when it opens, which failing check gives which error, and what is then taken for prefix and size |
| EncryptedFile.WrongKeyFails | internal/encryptedfile/encryptedfile.go:169-171 | A header written under one key fails with an authentication error under any key that rejects its tag, whatever the rest of the file |
| EncryptedFile.WriteAndReadBack | internal/encryptedfile/encryptedfile.go:216-257 | From end to end: what is encrypted, opened and read at any offset is the plaintext there, as far as it reaches |
| EncryptedFile.File.ReadAt | internal/encryptedfile/encryptedfile.go:216-257 | From any cache state, exactly the plaintext slice, short only at the end of the file; on a damaged chunk the bytes before it and its error |
| EncryptedFile.File.Read | internal/encryptedfile/encryptedfile.go:201-208 | The same at the current offset, which advances by what was read |
| EncryptedFile.File.CachedChunk | internal/encryptedfile/encryptedfile.go:259-281 | The cached answer is always the decrypted chunk of the index |
| EncryptedFile.ChunksTile | internal/encryptedfile/encryptedfile.go:283-336 | Chunk ranges tile the file from the header to its end |
| EncryptedFile.SizesFit | internal/encryptedfile/encryptedfile.go:174-189 | The size arithmetic fits signed 64 bits, and the size check at opening is exact |
| EncryptedFile.NoncesDiffer | internal/encryptedfile/encryptedfile.go:358-370 | No two chunks, nor a chunk and the header, share a nonce |
| EncryptedFile.PassesShareNoNonce | internal/encryptedfile/stream.go:78-83 | No nonce of the first pass equals one of the second, for which the final prefix is drawn again until it differs |
| DatabaseSwap.Directory.MigrateToEncrypted | internal/database/encryption.go:130-234 | Every state it passes is recoverable; undisturbed it ends with the encrypted copy alone; if only one operation fails a complete database is at its path, and stays there through a crash; and when it reports success that is what every later crash leaves: the copy is durable before the backup goes |
| DatabaseSwap.Directory.RecoverEncryption | internal/database/encryption.go:94-120 | The ambiguous state is unreachable; a keyed undisturbed recovery ends with one complete database, encrypted iff the installed one was, and is idempotent; a finished encrypted database is never replaced, whatever fails; what it reports is durable if nothing was pending before |
| DatabaseSwap.Directory.RecoverInterruptedSwap | internal/database/encryption.go:286-311 | The backup is put back only when the canonical file is missing |
| DatabaseSwap.Directory.MigrateToPlaintext | internal/database/decryption.go:91-198 | The same for decryption, but for the last two: after one failed operation the database is at its path, which need not be durable, and a success is durable if nothing was pending before |
| DatabaseSwap.Directory.RecoverDecryption | internal/database/decryption.go:20-81 | The same for its recovery: the plaintext database, once installed, stays |
| DatabaseSwap.Directory.MigrateKey | internal/database/rekey.go:44-139 | The same for a change of key as for encryption, a success being durable if nothing was pending before |
| DatabaseSwap.Directory.RecoverRekey | internal/database/rekey.go:21-39 | The same for its recovery: the rekeyed database, once installed, stays |
| DatabaseSwap.AnyLife | internal/database/encryption.go:286-353 | Any number of crashed migrations and recoveries, with operations failing anywhere, followed by one undisturbed recovery, end in one complete copy; the new file, once in place for good, stays through everything, and before that until the machine stops; the last recovery keeps the format it finds |
| DatabaseSwap.NothingIsLost | internal/database/encryption.go:336-353 | In every recoverable state the canonical or the backup path holds all the data |
| StagedDeletion.Batch.Attempt | internal/serve/background_file_removals.go:188-244 | When a deletion succeeds no row, no staged entry and no tracked byte is left; undisturbed it succeeds, and a replay that fails on one file puts back the staged files before it |
| StagedDeletion.Batch.StageOne | internal/serve/background_file_removals.go:191-226 | Before the commit a tracked file is staged, already staged, or stops the batch |
| StagedDeletion.Batch.RestoreMissingOK | internal/serve/background_file_removals.go:307-320 | As a function of what other programs create before the check and in the window: when it succeeds, and that the rename takes a replacement away iff something is staged, the path is empty at the check and a file is created there in the window |
| StagedDeletion.Batch.Reconcile | internal/serve/background_file_removal_cleanup.go:141-177 | Untracked staged entries are purged, tracked ones restored, others left |
| StagedDeletion.Batch.Cleanup | internal/serve/background_file_removal_cleanup.go:70-120 | A successful cleanup leaves nothing staged and every tracked file that existed at its path; undisturbed, every file reaches its reconciled state |
| StagedDeletion.AnyDeletion | internal/serve/background_file_removal_retry_policy.go:11-34 | One attempt and any cleanups, each cut short anywhere, among other programs, are one run of enabled steps; a last cleanup purges or restores all but what a replacement blocks |
| StagedDeletion.TrackedBytesSurvive | internal/serve/background_file_removals.go:297-331 | After every run a tracked file's bytes are at exactly one of its two paths |
| StagedDeletion.ReplacementStays | internal/serve/background_file_removals.go:307-320 | Over every run a replacement stays at the original path, unless others act between a check and its rename |
| StagedDeletion.ReplacementLostIff | internal/serve/background_file_removals.go:312-319 | In every run, a step takes a replacement away iff it is the rename of a restore and a file appeared at the path since its check |
| StagedDeletion.ReplacementCanBeLost | internal/serve/background_file_removals.go:312-319 | A run of four steps that ends with the replacement gone and the tracked bytes back |
| StagedDeletion.ReplayRevivesDeletedFiles | internal/serve/background_file_removal_retry_policy.go:19-22 | A batch is deleted, the process stops after the commit, the attempt is made again, fails on file f and rolls back, the cleanup runs: every file before f lies deleted at its original path |
| Relink.Plan | internal/relink/planner.go:21-81 | Every tracked path in scope is exactly one of kept, moved and deleted; sources and targets are distinct; every known file is kept or a target; nothing is deleted or added while a copy could be moved |
| Relink.FirstMoveTarget | internal/relink/planner.go:96-107 | The first free copy in path order, or none |
| Relink.FirstMissingOldPath | internal/relink/planner.go:109-125 | The first missing unused path out of scope, or none |
| Relink.Library.ApplyRelinkChanges | gooru/sync.go:376-428 | Pre-deletes, moves, additions and the other deletes in one transaction with the orphan trigger, rolled back whole on failure |
| Relink.Split | gooru/sync.go:455-491 | The two lists of deletes split all of them by whether they make room for a target |
| Relink.NoPathConflict | gooru/sync.go:376-428 | After the pre-deletes every move and addition finds its path free |
| Relink.ApplySucceedsIff | gooru/sync.go:376-428 | The transaction succeeds iff every known content on disk has a tracked location that other known content does not overwrite |
| Relink.TradedPlacesCannotBeRelinked | internal/database/migrations/001_initial_schema.up.sql:112-119 | Two sole copies that traded places make it fail |
| Relink.RelinkRestoresAgreement | gooru/sync.go:376-428 | Otherwise the in-scope table ends equal to the files with known content, rows out of scope go only if missing and found again, and no content on disk loses its record |
| Relink.NeedsRelink | gooru/sync.go:89-236 | The pre-check answers whether a tracked file differs or an untracked copy of known content exists |
| Relink.NeedsRelinkIffPlanned | gooru/sync.go:89-236 | With content verification it says yes iff the planner proposes a change |
| Paging.ClausesAgree | internal/database/database.go:1900-1936 | Cursor clauses and sort clauses describe one strict order, and the reverse clauses its opposite |
| ListingOrder.ListingIsOrdered | internal/database/database.go:1882-1900 | For each sort and direction, of any two rows of the listing the earlier one comes first by the named column (added with its order, modified, folded path, size, folded kind) and at a tie by rising id; the listing holds exactly the selected rows |
| ListingOrder.PagesAreOrdered | internal/database/database.go:1745-1763 | Pages walked one after the other show the rows in that order, and nothing that follows comes before what was shown |
| ListingOrder.NeighboursInOrder | internal/database/file_neighbors.go:14-89 | Both windows of a file list its nearest neighbours by those columns, going round at the ends, as many as asked for or as there are |
| Paging.PagesConcatenateToListing | internal/database/database.go:1745-1763 | For every sort, direction and page size, if every row is a reliable cursor, pages walked from the last row concatenate to the sorted listing without gap or repeat |
| Paging.BeyondIsSuffixIff | internal/database/added_order.go:31-54 | What the cursor of a row selects, sorted, is the rest of the listing iff the cursor is reliable |
| Paging.PrecedingIsReversedPrefix | internal/database/file_neighbors.go:91-121 | The reverse cursor of a row in reverse order gives what precedes it, nearest first; only the row's own key must be unchanged by Go's lower case |
| Paging.ChangedKeyBreaksPaging | internal/database/database.go:1938-1959 | Of two rows with one key that Go's lower case changes, the page after the first is never the second |
| Paging.PageIsRightIff | internal/database/database.go:1912-1959 | The page after a row is right for every page size iff its key is unchanged, or moves onwards and no row lies between the two forms of the key |
| Paging.NonAsciiRowIsSkipped | internal/database/database.go:1938-1959 | For two names with accented capitals the page after the first is empty, and walking one by one never shows the second |
| Paging.RepeatedRowIsCut | internal/database/database.go:1745-1763 | A row that is selected twice is paged twice or once, depending on the page size |
| Paging.AsciiKeysAreFixed | internal/database/database.go:1938-1959 | ASCII keys never change |
| Paging.Around | internal/database/file_neighbors.go:14-89 | Both windows of the anchor, the cases of a bad count and of a missing row; only the anchor's key must be unchanged by Go's lower case |
| Paging.Fill | internal/database/file_neighbors.go:59-83 | The fill loop completes a window from the opposite end without the anchor and without repeats |
| Paging.WindowsGoRound | internal/database/file_neighbors.go:57-89 | The windows are the next and the previous min(count, n-1) rows going round |
| Facets.SubtractKindFacets | gooru/query_tag_exclusion_facets.go:9-32 | The kinds of the first list with what the second leaves of their counts, by count and then kind |
| Facets.SubtractionIsDifference | gooru/query_tag_exclusion_facets.go:9-32 | Subtracting a part's facets from the whole's gives the facets of the rest |
| Facets.FacetsAreUnique | internal/database/database.go:1168-1184 | A selection determines the whole list: kinds, counts and order |
| Facets.SimpleTagMeans | gooru/query_tag_fastpath.go:15-24 | A simple tag asks of a file exactly what its filter looks for |
| Facets.TaggedIsCarries | internal/database/tag_kind_counts.go:87-113 | The DISTINCT join selects the files whose content carries any of the tags |
| Facets.KindFacetsForExclusionQuery | gooru/query_tag_exclusion_facets.go:39-67 | The fast path is taken exactly for conjunctions of negated simple tags and gives the facets of the query |
| Facets.KindFacetsForSimpleUserTagExcluding | gooru/query_tag_include_exclusion_facets.go:10-45 | One simple tag with exclusions: the facets of the composed query, for every list of overlapping exclusions |
| Facets.SelectedIsCompiled | internal/database/database.go:1168-1184 | The files that query means are those the compiled SQL returns |
| FacetRows.GroupedIsFacetsIff | internal/database/database.go:1168-1184 | The list the general query groups by counting rows is the facets of the files it means iff it returns no file twice |
| FacetRows.ExclusionPathIsGeneral | gooru/query_tag_exclusion_facets.go:39-67 | On the exclusion path the general query gives the very same list, whatever the counts |
| FacetRows.HidingPathIsGeneral | gooru/query_tag_include_exclusion_facets.go:10-45 | And on the path of one simple tag with hidden ones |

## Left out

- SQL text, locking, contention retries and enqueue races outside a transaction: each transaction is one atomic step.
- JSON: checkpoints, results and descriptors are abstracted to whether they are present and within their size limit; error messages, result summaries, task checkpoints and task results are not modelled.
- Runner goroutines and loops: the worker is a state machine over its steps; handler timing, waiting and logging are parameters. `Runner.Fair` is an assumption on the moves: nobody else claims under a runner's id, no new runner takes an id that was used before, and no new task takes the id of one that a runner still handles.
- Follow-up tasks and file locations of a managed tag mutation, and what ends an idle auxiliary operation that gets no work after its producer has ended.
- QueueStore.Store.CancelUnattached: cancels a reservation whatever its result, as the code does; the barrier that a result forms holds only for the two operation-level calls.
- QueueMutations.ExactlyOnce: assumes that a random operation id is used for one mutation only; QueueMutations.NoMoreCommitsThanCreations does not.
- Row multiplicity where it is not the subject: the compiler theorems, the facet subtraction and the neighbours treat selections as sets; queries by content hash are not counted at all.
- Paging.PagesConcatenateToListing: for selections without repetition, see Paging.RepeatedRowIsCut.
- Typed queries: bare tags in which `not` ends a word or a type stands between word boundaries, such as `do-not`, are rewritten inside the tag, and tags typed next to each other without white space are not pieces; `QueryTyping.BareTag` says which tags can stand without quotes.
- Text is ASCII, except for cursor keys, where Go's lower case is any function: no Unicode folding elsewhere, and no numeric escapes in quoted strings.
- FTS index: a trigram index is any function that offers every file name containing a phrase of three or more characters.
- In-place rewriting of syntax tree nodes by saved-search expansion: expansion builds a new tree, so aliasing of nodes is not captured.
- The maintained tag count shortcut for plain counts (`simpleUserTagCount`), and the triggers that maintain the kind summaries: the summaries are taken as exact.
- The AEAD, key checks, key derivation and random prefixes: parameters. Seek, closing, mutexes and concurrent readers of one file are not modelled.
- Database swap: a life keeps one kind of change; the state a finished change leaves is a possible start of the next one. The canonical write-ahead log is the only sidecar; file modes are not modelled; directory operations become durable in order.
- Staged deletion: a row that is moved to another path while its file is staged is outside AnyDeletion; a row that had moved before is an error. Batches in the flat layout; the legacy one-file layout, path validation and symlink checks appear as operations that may fail. The row delete is one transaction whose error means that nothing was deleted.
- Relink: managed-storage locations, root rebasing and the directory walk; the scope is a given set of paths that contains every scanned one. Paths are their ranks in path order.
- Relink.Plan: the order of the proposed lists is the order of the loops, which no property here needs.
- Paging.Around: for selections without repetition and an anchor whose key Go's lower case leaves as it is.
- EncryptedFile.EncryptStream: the destination accepts every write; only seeking to a negative offset fails.
- HTTP handlers, authentication, configuration, the front end, hashing, media extraction and thumbnails.
