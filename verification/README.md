# Verified model of the Antiburn check runtime

This project models the parts of Antiburn that decide which agent activity a check looks at, how its
candidates are scheduled, how their input is prepared, and how the command-line runtime is published,
and proves what those parts promise. It is written for Dafny 4.11; `dafny verify dfyconfig.toml` checks
all of it.

Every state machine has three layers: a specification on values, a class or a loop that changes its
fields in the order of the Rust code and ends in the specified state, and theorems about the
specification over all inputs, runs or interleavings.

| area | modules |
|---|---|
| shared | `Text`, `KeyOrder`, `Json`, `JsonNumbers` (number grammar), `JsonEncoding` |
| event selector | `Selection` (specification), `Selector` (class), `SelectionRuns` (invariant), `SelectionHistory` (whole-run theorems), `SelectionLedger` (independent reference), `SelectionTriggers` (exact guards) |
| source pages | `SourcePages`, `SourceEngine`, `PageSurvival` |
| scheduler | `Schedule`, `Scheduler`, `ScheduleRuns` (interleavings), `ScheduleFairness`, `ScheduleLocal`, `ScheduleQueues`, `ScheduleTiming` |
| runtime publication | `Publication` (crash points), `PublicationEnds`, `Installer` (class with a write budget) |
| decision attempts | `DecisionLog`, `DecisionProtocol`, `DecisionStore` |
| input fitting | `FitPaths`, `FitTargets`, `FitReduction`, `FitSchedule`, `Fitting` (class), `FitTexts`, `FitMeaning`, `FitResults` |
| expressions | `Expressions`, `ExpressionParser` (class), `ExpressionGrammar`, `ExpressionPrinting`, `ParsedTrees`, `Lexer`, `NumberLexing`, `ExpressionText`, `LexedTexts`, `Templates` |
| values | `Decimals`, `Evaluation`, `Comparisons` |
| path filters | `Globs`, `PathFilters`, `GlobMeaning` |

Three promises hold only under a condition, and the model states the condition exactly.

- A stable entry stays resolvable at every crash point of a run exactly when no other bundle is interrupted
  at the stable entry, or the run refuses its bundle before the first write
  (`Publication.ResolvableAtEveryCrashPoint`). So a bundle that was interrupted after the switch must be
  retried before another one is accepted: the receipt's pending bundle is overwritten before ownership is
  checked again.
- An expression of height at most 32 parses exactly when it needs at most 128 parser levels
  (`ExpressionGrammar.SentencesAreAccepted`). Expressions with parentheses only where they are needed and no
  suffix after one always do (`ExpressionPrinting.PlainExpressionsParse`); nested parenthesized accesses, of
  height 1, do up to 43 (`NestedAccessIsRejected`).
- An accepted event stays accepted when valid paths are added exactly when, with a veto filter, the set stays
  complete, no added path is ignored, and the veto search of all paths and the include search up to its
  first match fit the shared budget; an include-only filter always stays (`PathFilters.MorePathsKeepAcceptance`).

Three more facts are worth knowing. The depth that the parser reports is not always the height of its tree:
`a['b']` and `a.b` give the same path with depths 2 and 1 (`ParsedTrees.BracketedKeyIsRejected`). A guard that
is dropped without an outcome keeps its key reserved, so that key is never dispatched again
(`ScheduleRuns.StrandedStays`). And the field comment on native order in `selection.rs` (lines 62-75) says
that a terminal correction keeps the first order, while the code stores the order of the newest update; the
model follows the code.

## Model

| member | source | states |
|---|---|---|
| `KeyOrder.RangeIsScannable` | crates/antiburn-checks/src/selection.rs:549-554 | The identities of one branch are exactly a contiguous range of the ordered table, so a scan that starts at the empty identity and stops at the next branch finds each of them once. |
| `Selector.SelectionState.IdentityCount` | crates/antiburn-checks/src/selection.rs:549-554 | The range scan counts exactly the tracked identities of the branch. |
| `Selector.SelectionState.Apply` | crates/antiburn-checks/src/selection.rs:145-298 | A new trigger changes the fields to the specified state and gives the specified outcome: bootstrap and filter rejections, condition, roll of the window with retirement of evicted identities, and the minimum. |
| `Selector.SelectionState.ApplyPublished` | crates/antiburn-checks/src/selection.rs:320-395 | A publication: the identity limit, the stale or duplicate update, the historical one, the first terminal value, and the correction, each with its exact new state. |
| `Selector.SelectionState.ApplyCorrection` | crates/antiburn-checks/src/selection.rs:398-476 | A correction of a terminal identity: it replaces the entry in place, excludes it, or retires the window and its coverage. |
| `Selector.SelectionState.RemoveResult` | crates/antiburn-checks/src/selection.rs:519-547 | A removal leaves a tombstone at its revision and takes the entry out of the window; stale removals change nothing. |
| `Selector.SelectionState.Retire` | crates/antiburn-checks/src/selection.rs:589-609 | The range mutation retires every terminal record of one branch except historical and removed ones, and no other record. |
| `SelectionRuns.EmptyOk` | crates/antiburn-checks/src/selection.rs:28-33 | The empty state meets the invariant. |
| `SelectionRuns.StepOk` | crates/antiburn-checks/src/selection.rs:145-298 | Every publication, correction, removal, gap, reset and restore keeps the invariant: distinct window identities within the size, every entry backed by a terminal selected record with its version and order, at most 4096 identities a branch. |
| `SelectionRuns.RunOk` | crates/antiburn-checks/src/selection.rs:320-609 | So every state of every run meets the invariant. |
| `SelectionRuns.StepKeepsOtherBranches` | crates/antiburn-checks/src/selection.rs:320-609 | A change on one branch leaves every other branch as it was. |
| `SelectionHistory.BranchesAreIndependent` | crates/antiburn-checks/src/selection.rs:320-609 | After any run a branch is as if only its own changes had been applied. |
| `SelectionHistory.ChosenMakesTerminal` | crates/antiburn-checks/src/selection.rs:320-395 | A candidate comes only from the publication that makes its identity terminal. |
| `SelectionHistory.OneCandidatePerIdentity` | crates/antiburn-checks/src/selection.rs:320-476 | In any run each branch and identity gives at most one candidate. |
| `SelectionHistory.WindowGrowth` | crates/antiburn-checks/src/selection.rs:320-609 | A change adds at most its own identity to a window, and only while that identity is not terminal. |
| `SelectionHistory.NeverReenters` | crates/antiburn-checks/src/selection.rs:320-609 | A terminal identity outside its window stays outside after every run. |
| `SelectionHistory.RevisionsNeverDecrease` | crates/antiburn-checks/src/selection.rs:320-547 | The revision of a tracked identity never decreases, and the identity stays tracked. |
| `SelectionHistory.TombstoneStep` | crates/antiburn-checks/src/selection.rs:485-547 | A tombstone is untouched by resets, restores and every change of its identity at or below its revision; such a change leaves the whole state as it is. |
| `SelectionHistory.TombstoneAbsorbs` | crates/antiburn-checks/src/selection.rs:485-547 | A tombstone survives every run without a higher revision of its identity. |
| `SelectionHistory.CandidateIsFresh` | crates/antiburn-checks/src/selection.rs:200-298 | A candidate holds the whole window of its branch, at least the minimum and at most the size, ends with its trigger, and depends on each message at the version of its record. |
| `SelectionTriggers.TriggersExactly` | crates/antiburn-checks/src/selection.rs:145-250 | A recorded publication of an identity without a terminal value gives a candidate exactly when it is no other kind, not from before the start, of the family, passes the fields, has an object context, meets the condition under the coverage flag, and, for a message, fills the window to the minimum; each other outcome has its own exact guard. |
| `SelectionTriggers.TriggerStateExactly` | crates/antiburn-checks/src/selection.rs:320-385 | What it leaves: the record and its membership, the window rolled to its newest entries, the evicted identity retired, the flags kept, the diagnostic by the filters. |
| `SelectionTriggers.CandidateExactly` | crates/antiburn-checks/src/selection.rs:195-298 | The candidate names its branch and position, freezes the messages of the window in order, and depends on their versions, the context, and the membership through its position; without a message on the context alone. |
| `SelectionTriggers.CorrectsExactly` | crates/antiburn-checks/src/selection.rs:398-476 | A later observation of a terminal identity never triggers; it invalidates the window exactly when it qualifies an excluded identity or moves a selected one in the native order. |
| `SelectionTriggers.CorrectionRecordExactly` | crates/antiburn-checks/src/selection.rs:398-476 | The exact record that it leaves, with the membership by guards on the record before. |
| `SelectionTriggers.CorrectionStateExactly` | crates/antiburn-checks/src/selection.rs:398-476 | The exact window, flags, diagnostic and other records: emptied with every terminal record barred, rewritten in place, without the entry, or as before. |
| `SelectionTriggers.NotAcceptedExactly` | crates/antiburn-checks/src/selection.rs:320-351 | A publication that is no news, or one identity too many, gives no outcome; the latter closes the branch for new identities and makes its coverage incomplete. |
| `SelectionTriggers.RemovesExactly` | crates/antiburn-checks/src/selection.rs:519-547 | The exact effect of a removal by its revision, also at the identity limit. |
| `SelectionTriggers.CoverageExactly` | crates/antiburn-checks/src/selection.rs:571-609 | A gap and a reset make coverage incomplete, only a restoration completes it; reset and restoration empty the window and bar its identities. |
| `SelectionTriggers.CoverageOfRun` | crates/antiburn-checks/src/selection.rs:320-609 | After any run the coverage that a condition reads is complete exactly when no change made a gap since the start or since the last restoration. |
| `SelectionTriggers.RollingWindow` | crates/antiburn-checks/src/selection.rs:218-246 | After any number of distinct qualifying messages the window holds the newest of them, as many as its size. |
| `SelectionTriggers.RollingCandidates` | crates/antiburn-checks/src/selection.rs:218-298 | The last of them gives a candidate exactly when there are as many as the minimum; it holds the newest messages in order. |
| `SelectionLedger.StepRefines` | crates/antiburn-checks/src/selection.rs:320-547 | One change acts on an identity as the reference ledger of published facts says. |
| `SelectionLedger.RunRefinesLedger` | crates/antiburn-checks/src/selection.rs:320-547 | After any run from the empty state, records and window entries show the newest published facts of each identity, by a definition that does not mention the selector. |
| `SourceEngine.PageEngine.ValidateSourcePage` | crates/antiburn-checks/src/engine.rs:1294-1319 | A page is accepted exactly when its cursors advance from the publication cursor and it ends at its last event. |
| `SourceEngine.PageEngine.ApplySourcePage` | crates/antiburn-checks/src/engine.rs:399-595 | An invalid page or a rejected commit changes nothing; otherwise the progress is the folded one, and the candidates are exactly the survivors of the page. |
| `SourceEngine.PageEngine.FoldEvents` | crates/antiburn-checks/src/engine.rs:431-560 | The event loop produces the specified progress, committed observations, proposals and invalidations. |
| `SourceEngine.RetainedAreSurvivors` | crates/antiburn-checks/src/engine.rs:560-577 | The indexed filter over recorded invalidations keeps exactly the proposals that no later effect invalidates. |
| `SourcePages.PageBoundaryIsInvisible` | crates/antiburn-checks/src/engine.rs:399-595 | One page or two pages with the same events give the same progress, and the candidates differ exactly by what the second page invalidates in the first. |
| `SourcePages.PageValidityComposes` | crates/antiburn-checks/src/engine.rs:1294-1319 | A page is valid exactly when its two halves are valid one after the other. |
| `SourcePages.OnePageEqualsSinglePages` | crates/antiburn-checks/src/engine.rs:399-595 | Applying a list of events as one page gives the same progress as one page an event, and its candidates are exactly the single-page candidates that no later event invalidates. |
| `SourcePages.PositionsAreConsecutive` | crates/antiburn-checks/src/engine.rs:431-540 | Accepted observations, and nothing else, take consecutive positions. |
| `SourcePages.SurvivorsAreFresh` | crates/antiburn-checks/src/engine.rs:431-577 | Every candidate that survives a page is fresh against the selector at the end of the page: each window message has the recorded version and is not removed. |
| `SourcePages.SurvivorsAreUndisturbed` | crates/antiburn-checks/src/engine.rs:431-577 | After the event of a surviving candidate, no event of its branch resets the segment, is unsafe, or invalidates the window. |
| `PageSurvival.PageKeepsExactly` | crates/antiburn-checks/src/engine.rs:431-577 | A page keeps, in order, exactly the candidates that no later event spoils: a reset or unsafe update of the branch, a correction that makes its window uncertain, another version of a message or evidence that it depends on, or their removal; stated over events and selector states. |
| `PageSurvival.UnrelatedEventsSpare` | crates/antiburn-checks/src/engine.rs:554-577 | Later events that name none of its dependencies, new messages of its branch among them, leave a candidate in the page. |
| `PageSurvival.EventIsChange` | crates/antiburn-checks/src/engine.rs:431-545 | Each event is one change of the selector or none; a candidate, a committed observation and a position come only from an observation that is news. |
| `PageSurvival.PageIsRun` | crates/antiburn-checks/src/engine.rs:431-560 | The selector after a page is that of the run of its changes, and the committed observations are those of its publications, in order. |
| `PageSurvival.ValidExactly` | crates/antiburn-checks/src/engine.rs:1294-1319 | A page is valid exactly when its cursors are new and increase and it ends at its last event; an empty page does not go back. |
| `Scheduler.SchedulerState.Enqueue` | crates/antiburn-checks/src/engine.rs:772-833 | An admission coalesces, replaces older new candidates of a windowed key, queues, or overflows after a prune, with the exact new state. |
| `Scheduler.SchedulerState.PickDue` | crates/antiburn-checks/src/engine.rs:947-1010 | The pick is due and no other due key is better by position, or by service ticket on every fourth dispatch; it finds nothing only when nothing is due. |
| `Scheduler.SchedulerState.StartLocal` | crates/antiburn-checks/src/engine_local.rs:6-140 | A local start takes the picked candidate and, for every combination of store answers, ends in the specified state and outcome. |
| `Scheduler.SchedulerState.RestorePreDispatch` | crates/antiburn-checks/src/engine.rs:1169-1192 | A claim that goes back before dispatch restores the candidate, or forgets it when stale, or remembers a failed release, and frees the guard. |
| `Scheduler.SchedulerState.PruneTerminal` | crates/antiburn-checks/src/engine.rs:835-880 | Pruning drops exactly the queued candidates that the store reports as terminal, and no queue is left empty. |
| `ScheduleRuns.NextOk` | crates/antiburn-checks/src/engine.rs:245-284 | Every atomic step keeps the invariant: slots equal unfinished guards and are at most 4, keys in flight are distinct and reserved, queues are well formed, memory is bounded. |
| `ScheduleRuns.EveryInterleavingIsBounded` | crates/antiburn-checks/src/engine.rs:772-1290 | Under every interleaving of the steps the invariant holds; queued and held candidates together never exceed 128 + 4. |
| `ScheduleRuns.IdleOk` | crates/antiburn-checks/src/engine.rs:287-300 | The idle scheduler meets the invariant. |
| `ScheduleRuns.IdleRunsAreBounded` | crates/antiburn-checks/src/engine.rs:772-1290 | So from the idle scheduler no interleaving puts more than 132 candidates into memory. |
| `Scheduler.SchedulerState.AbandonGuard` | crates/antiburn-checks/src/engine.rs:245-284 | A dropped guard gives back its slot and nothing else. |
| `ScheduleRuns.SingleFlight` | crates/antiburn-checks/src/engine.rs:947-1010 | While a guard lives, no run starts its key again. |
| `ScheduleRuns.AtomicStartsStayWithinQueueBound` | crates/antiburn-checks/src/engine.rs:772-833 | When no candidate is held during an admission, queued and held candidates together never exceed 128. |
| `ScheduleRuns.AbandonStrands` | crates/antiburn-checks/src/engine.rs:245-284 | A guard that is dropped without an outcome frees its slot and leaves its key reserved. |
| `ScheduleRuns.StrandedStays` | crates/antiburn-checks/src/engine.rs:245-284 | Such a key is never dispatched again. |
| `ScheduleQueues.QueuesExactly` | crates/antiburn-checks/src/engine.rs:772-1290 | After any action each queue holds exactly the candidates that were in it and did not leave, and the one that was offered: a coalesced one leaves for a newer one of its window, a started one for its guard, the others only by pruning, reset or revocation. |
| `ScheduleQueues.AdmissionExactly` | crates/antiburn-checks/src/engine.rs:772-832 | How an admission is answered: queued, coalesced with a candidate that was never started, or overflow at 128. |
| `ScheduleQueues.StartHoldsOldest` | crates/antiburn-checks/src/engine.rs:1007-1032 | A start takes the oldest candidate of its key, and its guard holds it. |
| `ScheduleTiming.WaitIsLastSet` | crates/antiburn-checks/src/engine.rs:1195-1250 | The time that a key waits for is the last one that a dispatch or a deferral set, unless its activation was revoked since. |
| `ScheduleTiming.ClaimIsLastKept` | crates/antiburn-checks/src/engine.rs:1034-1052 | The claim that a key has to give back first is the last one that could not be, until it is or the activation is revoked. |
| `ScheduleTiming.TicketsExactly` | crates/antiburn-checks/src/engine.rs:800-1232 | A key is given the next service ticket when its empty queue gets a candidate and when it is dispatched with more queued, and loses its ticket when its queue is found empty; no other action changes a ticket. |
| `ScheduleTiming.CooldownHolds` | crates/antiburn-checks/src/engine.rs:1215-1250 | After a dispatch no run dispatches the key again in live policy before its cooldown is over, unless it resumes its oldest candidate or the key is started, deferred or revoked in between. |
| `ScheduleTiming.DeferralHolds` | crates/antiburn-checks/src/engine.rs:1195-1201 | The same for a deferral, until the time that the store gave. |
| `ScheduleTiming.EligibleKeysStart` | crates/antiburn-checks/src/engine.rs:959-1025 | Nothing else keeps a key waiting: if a queued key of a ready branch is idle and its wait over, and a slot is free, some start can happen. |
| `ScheduleTiming.NewestGoesFirst` | crates/antiburn-checks/src/engine.rs:984-1006 | A live dispatch takes the key with the newest candidate, a replay the one whose newest candidate is oldest; equal positions go by activation and branch. |
| `ScheduleTiming.DispatchesCountInFours` | crates/antiburn-checks/src/engine.rs:1234-1240 | The engine counts its live dispatches in fours. |
| `ScheduleTiming.EveryFourthByTicket` | crates/antiburn-checks/src/engine.rs:998-1000 | Every fourth live dispatch takes a key without a service ticket, or the one with the smallest. |
| `ScheduleFairness.PickIsUnique` | crates/antiburn-checks/src/engine.rs:984-1006 | The ranking leaves the dispatcher no choice. |
| `ScheduleFairness.RunKeepsTickets` | crates/antiburn-checks/src/engine.rs:823-827 | Service tickets of pending keys stay distinct and below the counter over every run. |
| `ScheduleFairness.PassedOver` | crates/antiburn-checks/src/engine.rs:984-1245 | Every dispatch that passes over a due key brings it strictly nearer to its turn. |
| `ScheduleFairness.NoStarvation` | crates/antiburn-checks/src/engine.rs:984-1245 | A key that stays due with m smaller tickets ahead is passed over by fewer than 4(m+1) dispatches, whatever admissions, prunes, resets, revocations, failed or settled starts and completions come between. |
| `ScheduleLocal.LocalStartIsRun` | crates/antiburn-checks/src/engine_local.rs:6-140 | Whatever the store answers, a local start of the picked key is a run of scheduler actions that ends in exactly the state and guards of the start, so every theorem about interleavings covers it. |
| `ScheduleLocal.LocalStartSettles` | crates/antiburn-checks/src/engine_local.rs:6-140 | A local start keeps the invariant and gives back key and slot unless the task runs. |
| `ScheduleLocal.LocalStartIsMoves` | crates/antiburn-checks/src/engine_local.rs:6-140 | A live local start is made of the moves of the starvation bound, and counts as a dispatch exactly when its task runs. |
| `ScheduleLocal.PutOffCandidateStaysQueued` | crates/antiburn-checks/src/engine.rs:1169-1292 | Unless the store says the claim is stale, a candidate that was taken and put off is queued again or superseded by a newer one. |
| `Installer.Installation.Reconcile` | crates/antiburn-cli-runtime/src/lifecycle.rs:618-695 | The run on a mutable installation with any number of writes before a crash leaves exactly the disk and outcome of the specified write sequence. |
| `Installer.Installation.Publish` | crates/antiburn-cli-runtime/src/lifecycle.rs:504-534 | Publication checks ownership again and either refuses or performs its writes. |
| `Publication.ResolvableAtEveryCrashPoint` | crates/antiburn-cli-runtime/src/lifecycle.rs:618-695 | From a resolvable disk, every crash point of a run is resolvable exactly when no other bundle is interrupted at the stable entry or the bundle is refused before the first write. |
| `Publication.UnsafeRunLosesEntry` | crates/antiburn-cli-runtime/src/lifecycle.rs:655-672 | Otherwise the run loses the entry: pending is overwritten before the ownership check refuses. |
| `Publication.EveryCrashPointIsUsable` | crates/antiburn-cli-runtime/src/lifecycle.rs:618-695 | Under the retry rule no sequence of crashed or complete runs leaves a broken stable entry. |
| `Publication.InterruptedOnlyByOwnBundle` | crates/antiburn-cli-runtime/src/lifecycle.rs:660-690 | The retry rule asks for something only after a crash between the switch and the save that follows, and then for the bundle of that run. |
| `Publication.CompletedRun` | crates/antiburn-cli-runtime/src/lifecycle.rs:618-695 | A completed run leaves the bundle stable and active, nothing pending, and the earlier active version retained with its artifact. |
| `Publication.NothingNamedIsRemoved` | crates/antiburn-cli-runtime/src/lifecycle.rs:672-745 | After every write of any run, no artifact that the saved receipt names as active or previous is gone, and a terminal command of the user is untouched. |
| `Publication.LostEntryStaysLost` | crates/antiburn-cli-runtime/src/lifecycle.rs:497-534 | Once the receipt no longer names the stable entry, no sequence of runs makes it resolvable again. |
| `Publication.DifferentBundleAfterInterruption` | crates/antiburn-cli-runtime/src/lifecycle.rs:655-672 | A concrete loss: version two crashes after the switch and version three arrives before the retry. |
| `PublicationEnds.EndsExactly` | crates/antiburn-cli-runtime/src/lifecycle.rs:618-695 | A run is refused exactly when the payload or its artifact differs from the manifest, the stable entry is not ours, or the artifact to be removed is damaged; every other run completes. |
| `PublicationEnds.CompletedExactly` | crates/antiburn-cli-runtime/src/lifecycle.rs:618-740 | The whole disk after a completed run: receipt, stable entry, terminal command, and exactly the artifacts without the one that no receipt names any more. |
| `PublicationEnds.RecordedAsRemovedIsGone` | crates/antiburn-cli-runtime/src/lifecycle.rs:697-740 | At every crash point, a receipt that records the terminal command as removed goes with a disk that has none of the installation, and only if one was seen. |
| `DecisionStore.ValidateDecisionProgress` | crates/antiburn-checks/src/check_store.rs:185-304 | The loops over saved rows compute the specified verdict. |
| `DecisionProtocol.ReachableOk` | crates/antiburn-checks/src/check_store.rs:141-183 | Every session that the retry protocol reaches is well formed. |
| `DecisionProtocol.ValidatesSession` | crates/antiburn-checks/src/check_store.rs:185-304 | On the rows of a session, in any order, the validator answers with that session's progress, and its check of the attempt total cannot fail. |
| `DecisionProtocol.AcceptsExactlyProtocolLogs` | crates/antiburn-checks/src/check_store.rs:185-304 | A log is accepted exactly when the retry protocol can produce it, up to row order and within the size limit. |
| `DecisionProtocol.NoResendAfterUncertainty` | crates/antiburn-checks/src/check_store.rs:185-304 | An offered attempt rules out uncertain and final rows, a row for that attempt, a third attempt, and a second one without a first safe failure. |
| `DecisionProtocol.AcceptedContract` | crates/antiburn-checks/src/decision.rs:87-91 | Nothing is accepted unless the declared names are distinct identifiers, the declarations match their requirements, and the answers with the number of attempts fit. |
| `FitPaths.ParsesExactlyPaths` | crates/antiburn-checks/src/fit.rs:206-247 | The path parser accepts exactly the texts of well-formed paths of at most 2048 bytes and returns the path that the text spells. |
| `FitPaths.ParseFitPath` | crates/antiburn-checks/src/fit.rs:206-247 | The cursor loop computes that parser. |
| `FitPaths.PathsOverlap` | crates/antiburn-checks/src/fit.rs:250-253 | Two paths overlap exactly when one is a prefix of the other. |
| `Fitting.PathBytesIsTextLength` | crates/antiburn-checks/src/fit.rs:303-316 | The byte count from the segments is the length of the authored text. |
| `Json.UnescapeEscape` | crates/antiburn-checks/src/fit.rs:526-526 | Unescaping undoes the escaping of `~` and `/` (RFC 6901, section 3), and escaped names hold no separator. |
| `Json.PointerRoundTrip` | crates/antiburn-checks/src/fit.rs:526-556 | The reference tokens of a built pointer are those of its place. |
| `Json.PointerResolves` | crates/antiburn-checks/src/fit.rs:569-572 | A built pointer resolves to its place in every input in which the place exists (RFC 6901, section 4). |
| `Json.PutElsewhere` | crates/antiburn-checks/src/fit.rs:569-635 | Replacing a value leaves every place that is not inside it existing with its shape, and equal when it does not contain it. |
| `Json.PutLength` | crates/antiburn-checks/src/fit.rs:569-635 | Replacing a value changes the encoded length of the input by the difference of the two. |
| `FitTargets.TargetsAreApart` | crates/antiburn-checks/src/fit.rs:302-343 | With compatible rules that do not overlap, every target exists with its type and no target lies inside another. |
| `FitTargets.ApartPointers` | crates/antiburn-checks/src/fit.rs:302-343 | Their pointers are not prefixes of each other token by token. |
| `FitTargets.DisplayInjective` | crates/antiburn-checks/src/fit.rs:527-556 | The displayed path determines the place, so report entries cannot collide. |
| `FitReduction.TurnKeeps` | crates/antiburn-checks/src/fit.rs:569-635 | A turn keeps the shape of its target, and either shortens the encoded value or leaves it unchanged and exhausted. |
| `FitReduction.RecentTurn` | crates/antiburn-checks/src/fit.rs:577-588 | A recent turn drops one record and shortens the encoding. |
| `FitReduction.RecentCount` | crates/antiburn-checks/src/fit.rs:577-588 | After any number of turns a recent target is the suffix of the original of length max(1, n - turns). |
| `FitReduction.TextTurn` | crates/antiburn-checks/src/fit.rs:589-635 | A truncate turn keeps head, marker and tail on character boundaries with at least 256 bytes, loses at most 1024, and shortens the encoding, also on the first marker turn. |
| `FitReduction.CutKeepsWholeCharacters` | crates/antiburn-checks/src/fit.rs:603-611 | In a text of whole characters both sides of the marker are whole characters. |
| `FitReduction.UnchangedForever` | crates/antiburn-checks/src/fit.rs:344-425 | A target that its first turn does not change never changes later. |
| `FitTexts.TextTurnExactly` | crates/antiburn-checks/src/fit.rs:586-632 | One turn of any text target: it cuts exactly when more than 256 bytes are retained, the cut drops some, and the first cut costs less than it drops; it exhausts the target exactly when it does not cut or cuts to 256; head and tail are the boundaries next to the halves of the budget. |
| `FitTexts.EnclosingExists` | crates/antiburn-checks/src/fit.rs:597-609 | Every text has such a pair of boundaries for every budget, so the turn of every text is determined. |
| `FitTexts.OneByteTexts` | crates/antiburn-checks/src/fit.rs:586-632 | A text of one-byte characters whose first cut pays retains max(256, n - 1024 k) bytes after k turns, the halves around one marker, and is exhausted exactly at 256. |
| `FitSchedule.TargetsAreIndependent` | crates/antiburn-checks/src/fit.rs:344-425 | The lookup never fails for any validator, and every target and its value are what that target's own turns make of them. |
| `FitSchedule.ReportIsExact` | crates/antiburn-checks/src/fit.rs:371-390 | The report lists exactly the changed targets, once each, in expansion order with true counts. |
| `FitSchedule.UnselectedValuesStay` | crates/antiburn-checks/src/fit.rs:344-425 | A value that is not at or inside a target keeps its existence and shape, and its contents when it holds no target. |
| `FitSchedule.VisitShrinks` | crates/antiburn-checks/src/fit.rs:569-635 | A changing turn strictly shortens the encoded input and the sum of retained counts; any other turn exhausts its target and changes nothing. |
| `FitSchedule.JudgementIsCurrent` | crates/antiburn-checks/src/fit.rs:427-462 | Fitting goes on only while the current input and report are over budget, and ends in acceptance only of that very state. |
| `FitSchedule.ExhaustedIsFinal` | crates/antiburn-checks/src/fit.rs:391-425 | Once every target is exhausted no further round changes anything. |
| `Fitting.Fitter.Expand` | crates/antiburn-checks/src/fit.rs:478-567 | Expansion adds exactly the reached targets with their counts, and fails only for an incompatible value or an exceeded limit. |
| `Fitting.Fitter.Prepare` | crates/antiburn-checks/src/fit.rs:302-343 | Preparation passes exactly when the rules keep their limits, do not overlap and suit the input. |
| `Fitting.Fitter.Reduce` | crates/antiburn-checks/src/fit.rs:569-635 | The in-place edit performs the specified reduction at the target's place. |
| `Fitting.Fitter.CutPoints` | crates/antiburn-checks/src/fit.rs:603-611 | The two boundary loops find the nearest character boundaries outwards. |
| `Fitting.Fitter.Fit` | crates/antiburn-checks/src/fit.rs:288-425 | The loop, whose termination does not use the turn cap, ends at the first state of the round-robin schedule that is not over budget, or when every target is exhausted. |
| `FitResults.FittedInput` | crates/antiburn-checks/src/fit.rs:288-425 | A returned input is accepted by the validator, all targets had equal turns up to one, the report is exact, and all other values are preserved. |
| `FitResults.FirstAccepted` | crates/antiburn-checks/src/fit.rs:288-425 | Every earlier state of the schedule was over budget. |
| `FitMeaning.ReachesExactly` | crates/antiburn-checks/src/fit.rs:478-567 | A rule reaches exactly the places whose steps its segments name, each once, with their values. |
| `FitMeaning.ReachedInOrder` | crates/antiburn-checks/src/fit.rs:478-567 | It reaches them in the order of the input. |
| `FitMeaning.CompatibleExactly` | crates/antiburn-checks/src/fit.rs:478-567 | A rule suits the input exactly when every place on its way has the type that is needed there. |
| `FitMeaning.VisitsExactly` | crates/antiburn-checks/src/fit.rs:478-567 | The traversal visits every place on its way once. |
| `FitMeaning.TargetsExactly` | crates/antiburn-checks/src/fit.rs:478-567 | The targets are exactly the reached arrays of more than one record and texts of more than 256 bytes. |
| `FitMeaning.StartExactly` | crates/antiburn-checks/src/fit.rs:344-348 | The run starts with one judgement of the whole input. |
| `FitMeaning.TurnExactly` | crates/antiburn-checks/src/fit.rs:350-387 | What a turn of the schedule does: none for an exhausted target, the stop at 4096 turns, the change of the target alone, or the shorter input, whose length is charged against 64 MiB before it is judged and reported. |
| `FitMeaning.ReasonExactly` | crates/antiburn-checks/src/fit.rs:388-410 | Why a run gives up, by the rules, the places that they reach, and the report. |
| `FitMeaning.DepthExactly` | crates/antiburn-checks/src/fit_limits.rs:86-131 | The depth limit holds exactly when no place is more steps away. |
| `FitMeaning.NodesExactly` | crates/antiburn-checks/src/fit_limits.rs:86-131 | The counted nodes are the places of the input. |
| `JsonEncoding.LengthIsExact` | crates/antiburn-checks/src/fit_limits.rs:167-190 | The counted length of a value is the length of its compact encoding, written out byte by byte. |
| `ExpressionParser.Parser.ParseExpression` | crates/antiburn-checks/src/expression.rs:206-217 | The cursor-moving parser returns exactly what the parsing functions on positions define. |
| `ExpressionParser.Parser.ParseBinary` | crates/antiburn-checks/src/expression.rs:272-299 | The operator loop agrees with precedence climbing on positions, also where it stops. |
| `ExpressionParser.Parser.ParsePrimary` | crates/antiburn-checks/src/expression.rs:318-431 | Heads, property access, projection, brackets and the height limit agree. |
| `ExpressionParser.Parser.ParseCall` | crates/antiburn-checks/src/expression.rs:433-477 | Calls agree: unknown functions, argument list, closing parenthesis, arity. |
| `ExpressionGrammar.SentencesAreAccepted` | crates/antiburn-checks/src/expression.rs:206-548 | Every expression of the grammar, which names the operators of each level from `||` down to negation and keeps parentheses and suffixes as written, parses to its tree with its height as depth exactly when the height is at most 32 and the parser levels at most 128; otherwise it is rejected. |
| `ExpressionGrammar.AcceptedAreSentences` | crates/antiburn-checks/src/expression.rs:206-548 | Whatever tokens the parser accepts are an expression of the grammar, token for token, within both limits, and the result is its tree and height. |
| `ExpressionGrammar.AcceptsExactlySentences` | crates/antiburn-checks/src/expression.rs:206-548 | So the parser accepts exactly the sentences of the grammar within the limits. |
| `ExpressionGrammar.FunctionsExactly` | crates/antiburn-checks/src/expression.rs:81-110 | Function names are known in any mixture of cases, with the numbers of arguments that each takes. |
| `ExpressionPrinting.ParsingUndoesPrinting` | crates/antiburn-checks/src/expression.rs:206-510 | A normal tree is what its print parses to, with its height as depth, within the two limits; otherwise the print is rejected. |
| `ExpressionPrinting.PlainLevels` | crates/antiburn-checks/src/expression.rs:479-487 | With parentheses only where they are needed and no suffix after a parenthesis, a step of the height takes at most four parser levels. |
| `ExpressionPrinting.PlainExpressionsParse` | crates/antiburn-checks/src/expression.rs:206-510 | So such expressions are rejected exactly above height 32: the syntax limit never rejects them. |
| `ExpressionPrinting.NestedAccessIsRejected` | crates/antiburn-checks/src/expression.rs:479-548 | Outside that class it does: nested accesses on parenthesized accesses have height 1 and parse exactly up to 43 of them. |
| `ParsedTrees.ParsedTreesAreNormal` | crates/antiburn-checks/src/expression.rs:206-548 | So the result is normal and fits both limits itself; its depth is its height, or one more, and one more only if some bracket holds a string literal alone. |
| `ParsedTrees.ReprintingIsStable` | crates/antiburn-checks/src/expression.rs:206-548 | What was parsed, printed and parsed again is the same tree. |
| `ParsedTrees.BracketedKeyCounts` | crates/antiburn-checks/src/expression.rs:361-431 | A bracketed key counts in the depth although the tree is the same as for a dotted one. |
| `ParsedTrees.BracketedKeyIsRejected` | crates/antiburn-checks/src/expression.rs:384-425 | Under n negations a dotted key parses up to n = 31 and the same key in brackets up to n = 30, although the trees are equal: at 31 a tree of height 32 is rejected for the spelling of one key. |
| `Lexer.LexSource` | crates/antiburn-checks/src/expression.rs:550-667 | The index loop returns the specified tokens, or rejects. |
| `Lexer.LexString` | crates/antiburn-checks/src/expression.rs:669-693 | A string literal ends at the first quote that is not doubled. |
| `Lexer.LexNumber` | crates/antiburn-checks/src/expression.rs:695-740 | The digit loops compute the specified scan of a number. |
| `NumberLexing.LongestExists` | crates/antiburn-checks/src/expression.rs:695-740 | A number text by the grammar of RFC 8259, section 6, stands exactly where the lexer starts a number, and there is one longest. |
| `NumberLexing.TakesLongestNumber` | crates/antiburn-checks/src/expression.rs:695-740 | The lexer takes exactly the longest number text, and rejects it exactly when a decimal point or exponent without digits follows or the number is not finite. |
| `NumberLexing.WrittenInjective` | crates/antiburn-checks/src/expression.rs:695-740 | A number text is written in one way: different signs, digits or exponents give different texts. |
| `Lexer.LexedIsEnded` | crates/antiburn-checks/src/expression.rs:550-667 | Every token stream has exactly one end, at its end. |
| `ExpressionText.LexingUndoesSpelling` | crates/antiburn-checks/src/expression.rs:550-740 | Lexing any spelling of tokens, with any white space that keeps them apart, gives the tokens back. |
| `ExpressionText.NumberTextsAreWritten` | crates/antiburn-checks/src/expression.rs:695-740 | The number tokens that a source can spell are exactly the finite texts of the number grammar, indexes apart. |
| `ExpressionText.ParsingUndoesWriting` | crates/antiburn-checks/src/expression.rs:206-740 | Every spelling of an expression of the grammar, with any white space that keeps tokens apart, parses to its tree within the limits and is rejected otherwise. |
| `LexedTexts.LexedIsSpelled` | crates/antiburn-checks/src/expression.rs:550-740 | Whatever source the lexer accepts is the texts of its tokens with nothing but white space between them, and every token is a proper one. |
| `Templates.FindExpressionEnd` | crates/antiburn-checks/src/compiler.rs:1529-1547 | The quote-aware loop finds the first closing braces outside quotes. |
| `Templates.LexedIsWellScanned` | crates/antiburn-checks/src/compiler.rs:1529-1547 | Whatever follows, the scanner ends every source that the lexer accepts exactly at its end. |
| `Templates.WholeIsWrapped` | crates/antiburn-checks/src/compiler.rs:1523-1527 | A text is a whole expression exactly when it wraps a well-scanned source, which is returned verbatim. |
| `Templates.WrappedLexedSource` | crates/antiburn-checks/src/compiler.rs:1523-1527 | So wrapping any lexable source returns it verbatim. |
| `Templates.SplitsExactly` | crates/antiburn-checks/src/compiler.rs:1039-1061 | A text splits into given parts exactly when the parts alternate and render to the text. |
| `Templates.StringTemplate` | crates/antiburn-checks/src/compiler.rs:1022-1062 | The consuming loop computes that split, after the plain and whole-expression cases. |
| `Decimals.SplitUndoesWriting` | crates/antiburn-checks/src/expression_eval.rs:558-575 | Splitting a text written by the grammar of RFC 8259, section 6, gives back its sign, digits and signed exponent. |
| `Decimals.ParseIsExact` | crates/antiburn-checks/src/expression_eval.rs:558-601 | Within exact exponent arithmetic every number text of the grammar parses to a canonical decimal of the value that it denotes. |
| `Decimals.EqualityIsExact` | crates/antiburn-checks/src/expression_eval.rs:550-555 | Canonical decimals are structurally equal exactly when their values are. |
| `Decimals.CmpIsExact` | crates/antiburn-checks/src/expression_eval.rs:620-660 | Comparison is the exact order of the values. |
| `Decimals.TextsCompareExactly` | crates/antiburn-checks/src/expression_eval.rs:546-660 | Two number texts of the grammar parse to equal decimals exactly when they denote equal values, and compare like those values. |
| `Decimals.IntegralIndex` | crates/antiburn-checks/src/expression_eval.rs:413-432 | The result is k exactly when the value is the nonnegative integer k and fits the index type. |
| `Decimals.ParseDecimal` | crates/antiburn-checks/src/expression_eval.rs:558-601 | The buffer loops compute the specified parse. |
| `Evaluation.EvaluatePath` | crates/antiburn-checks/src/expression_eval.rs:199-230 | The path loop computes the selected value. |
| `Evaluation.EvaluationIsMonotone` | crates/antiburn-checks/src/expression_eval.rs:142-324 | When object members are added to the context or to bindings, what was available stays available, extended by added members only and with the same origin. |
| `Evaluation.ScalarResultsStay` | crates/antiburn-checks/src/expression_eval.rs:142-324 | So scalar results do not change and nothing becomes unavailable. |
| `Evaluation.ComparisonRefines` | crates/antiburn-checks/src/expression_eval.rs:457-531 | Comparisons, with coercion and container identity, have the same result on extended operands. |
| `Evaluation.MissingFieldIsNotRead` | crates/antiburn-checks/src/expression_eval.rs:142-324 | A scalar answer given without a field, anywhere in the context, is the same for every value that the field could have, null among them. |
| `Evaluation.MissingIsNotNull` | crates/antiburn-checks/src/expression_eval.rs:142-197 | An expression whose answer would differ between a null field and another value has no scalar answer while that field is missing. |
| `Evaluation.AnswersExactly` | crates/antiburn-checks/src/expression_eval.rs:142-197 | A comparison has an answer exactly when both operands have one, on either side; `and` and `or` also when the left one decides; a negation when its operand has one. |
| `Comparisons.NumbersCompareExactly` | crates/antiburn-checks/src/expression_eval.rs:457-548 | Values that count as numbers (null, booleans, numbers, the empty text, texts of numbers) compare as the rationals that they denote, except two texts and two nulls. |
| `Comparisons.TextsCompareExactly` | crates/antiburn-checks/src/expression_eval.rs:457-531 | Two texts compare by the bytes of their lower case. |
| `Comparisons.TwoNullsExactly` | crates/antiburn-checks/src/expression_eval.rs:457-544 | Two nulls are equal and not ordered. |
| `Comparisons.NoNumberExactly` | crates/antiburn-checks/src/expression_eval.rs:457-548 | A value that counts as no number differs from every value of another kind and is not ordered against it. |
| `Comparisons.ContainersExactly` | crates/antiburn-checks/src/expression_eval.rs:457-531 | Two containers are equal exactly when they have the same origin, and are never ordered. |
| `Comparisons.ContainersEqualAtOnePath` | crates/antiburn-checks/src/expression_eval.rs:457-511 | Two paths to containers of the context are equal exactly when they are the same path. |
| `Comparisons.TruthExactly` | crates/antiburn-checks/src/expression_eval.rs:443-455 | Null, false, the empty text and numbers that denote zero count as false, nothing else. |
| `Comparisons.LogicExactly` | crates/antiburn-checks/src/expression_eval.rs:166-197 | `and` and `or` give one of their operands, a negation the opposite truth value. |
| `Comparisons.PathsReadContext` | crates/antiburn-checks/src/expression_eval.rs:199-274 | A path reads the value at its place of the context, with that place as its origin, or is unavailable. |
| `Comparisons.BindingsHideContext` | crates/antiburn-checks/src/expression_eval.rs:199-230 | A bound name hides the context, also when its value is unavailable. |
| `Comparisons.AccessExtends` | crates/antiburn-checks/src/expression_eval.rs:276-324 | An access reads from the value of its base, its steps from left to right. |
| `Comparisons.SelectExactly` | crates/antiburn-checks/src/expression_eval.rs:232-274 | A step reads the member or the item at its place, and the length of an array. |
| `Comparisons.SelectorsExactly` | crates/antiburn-checks/src/expression_eval.rs:294-317 | A selector in brackets reads the property that its text names or the item whose position its number denotes; any other reads nothing. |
| `Comparisons.OriginsExtend` | crates/antiburn-checks/src/expression_eval.rs:232-274 | A value inside another comes from the same root at the longer path; an item that was generated alone has its own origin. |
| `Comparisons.LiteralsExactly` | crates/antiburn-checks/src/expression_eval.rs:434-441 | A literal is its own value. |
| `Comparisons.LengthCountsItems` | crates/antiburn-checks/src/expression_eval.rs:236-243 | The length of an array is the number of its items. |
| `Globs.RunIsAnyRun` | crates/antiburn-checks/src/filters.rs:141-163 | A run wildcard stands for any run of items, including none. |
| `Globs.LastItem` | crates/antiburn-checks/src/filters.rs:141-194 | What a pattern with one more item matches, by the end of the value: the step of the dynamic program. |
| `Globs.RunRow` | crates/antiburn-checks/src/filters.rs:149-153 | The forward update of the row is the row after a run wildcard. |
| `Globs.SingleRow` | crates/antiburn-checks/src/filters.rs:154-160 | The backward update of the row is the row after a single item. |
| `Globs.MatchSegment` | crates/antiburn-checks/src/filters.rs:176-194 | The in-place row decides the wildcard relation on characters. |
| `Globs.MatchPath` | crates/antiburn-checks/src/filters.rs:141-163 | The in-place row decides the wildcard relation on segments of a normalized path. |
| `PathFilters.SearchMeans` | crates/antiburn-checks/src/filters.rs:272-287 | A search finds, misses or gives up exactly as the match and the work up to the first match decide, and leaves exactly the work it did not need. |
| `PathFilters.PassesExactlyProved` | crates/antiburn-checks/src/filters.rs:198-270 | The filters pass an event exactly when a veto filter has a complete set without an ignored path, an include filter has an included path, and both searches fit the one shared budget. |
| `PathFilters.MorePathsKeepAcceptance` | crates/antiburn-checks/src/filters.rs:198-287 | When valid paths are added to an accepted event, it stays accepted exactly when a veto filter still has a complete set, no added path is ignored and the work fits; without a veto filter always. |
| `PathFilters.MorePathsKeepInclusion` | crates/antiburn-checks/src/filters.rs:198-287 | An include-only acceptance survives any number of further valid paths. |
| `PathFilters.MorePathsCanVeto` | crates/antiburn-checks/src/filters.rs:236-250 | So one further path that an ignore pattern matches takes the acceptance away. |
| `PathFilters.EvaluatePathFilters` | crates/antiburn-checks/src/filters.rs:198-270 | The method returns the specified verdict with its field and reason. |
| `PathFilters.AnyPathMatches` | crates/antiburn-checks/src/filters.rs:272-287 | The nested loops perform the specified search with its work. |
| `GlobMeaning.SegmentExactly` | crates/antiburn-checks/src/filters.rs:176-194 | A star stands for any run of characters, a question mark for one, any other character for itself. |
| `GlobMeaning.SegmentsExactly` | crates/antiburn-checks/src/filters.rs:141-174 | The segments of a text are its parts between separators. |
| `GlobMeaning.PathsExactly` | crates/antiburn-checks/src/filters.rs:141-194 | A glob matches exactly the relative paths whose segments its own stand for, a pair of stars for any run of segments. |
| `GlobMeaning.AllCostExactly` | crates/antiburn-checks/src/filters.rs:272-287 | The work of a search without a match is the bytes of the patterns times the bytes of the paths. |
| `GlobMeaning.AnswersExactly` | crates/antiburn-checks/src/filters.rs:198-270 | The answer is the first reason that holds, in the order of the code, with its field. |

## Left out

- Selector: inventories, the candidate's digest and the contents of filters and conditions are parameters; the dependency list is a set; positions and revisions are unbounded naturals.
- Selector: checkpoints in the old format, whose terminal records have an unknown membership, are outside the runs, which start from the empty state.
- Selector: an adapter gives each message the identity of its observation (`source/mod.rs`, lines 575-582); observations are well formed in that sense.
- Source pages: the store's answer to a commit is a parameter; event payloads are reduced to what the selector reads.
- Scheduler: the store's answers, the clock and the set of ready branches are parameters; ticket counters and cooldown times do not overflow.
- Scheduler: each lock-protected section is one step; the model-evaluation start is the take, restore, settle and abandon steps, and only the local start is written out as a method.
- NoStarvation: is stated for live policy, one activation and atomic starts, which is where the code gives every fourth dispatch to the oldest ticket.
- Publication: operating-system policy, temporary names, locks and manifest fields other than version and digest are assumed to pass; a digest is an injective identifier and every write is atomic.
- Decision log: the question contracts and the measured result size are parameters of the validator.
- Fitting: the validator is any function of the input, the report and the work spent; state that a caller's closure keeps beyond these is not modelled. Which of several exceeded limits is reported first is not stated.
- Fitter.Fit: the rules have field names as the path parser returns them.
- Fitting: member names are character strings and texts are bytes; that a JSON text is well-formed UTF-8 matters only to CutKeepsWholeCharacters, which assumes it.
- Lexer: works on characters; the JSON library's verdict on which number texts are finite is a parameter.
- ParsingUndoesWriting: two tokens without white space between them must not run together by a rule on the next character; a number directly before a point or an exponent letter is excluded, also where the lexer would still keep them apart. LexedIsSpelled covers every accepted source.
- Parser: diagnostics carry their kind but no text and no byte offset.
- Decimals: exponents and lengths at which 64-bit scale arithmetic saturates are excluded by a condition on the text.
- EvaluationIsMonotone: covers literals, paths, access by key, index and selector, negation and binary operators; projections (which list the members of an object, so added members change them) and calls are outside, as are the evaluation budget and the dependency traces. Case folding and the decoding of numbers from texts are parameters.
- Path filters: the syntax check of authored patterns, model and mode filters, and diagnostics limits.
- Not modelled: SQL storage, collection over SSH, configuration loading, YAML compilation apart from expression wrappers, the desktop and web interfaces, and build tooling.
