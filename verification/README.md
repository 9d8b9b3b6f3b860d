# Agent observation pipeline and context engine, verified

A Dafny model of two parts of an agent backend and proofs about them.

**Observations.** A host supervises one child process per agent run and publishes what it sees as
numbered observations. The *process host* is a machine of interleaved atomic steps: a reader thread
behind a bounded buffer, a drainer, a canceller and the child. The *fixture host* plays scripts
instead. The *observation authority* takes deliveries under a generation fence and an ordinal rule,
keeps each run's liveness, and can take an acceptance back. A *session* commits observations to
memory and to a durable log together. `Pipeline` composes host and authority; `FixturePipeline`
composes scripts, fixture host and authority; `CommitSpec` and `SessionCommit`
compose authority and durable log, and `SessionPipeline` composes all three as the session runs them.

**Context.** Discovered sources become candidate items, which are marked, sorted, coalesced by
content, optionally reordered by an enhancer, and admitted under a token budget into a bundle. A
bundle is later re-evaluated against fresh discovery. Discovery results are cached in a rebuildable
index fenced by a 128-bit digest and three generations. Two shared counters and the parser of
`git status -z` output complete it.

Modules follow that structure: `Observations`, `Authority`, `AuthorityRuns`, `DeliveryConvergence`,
`AuthorityAnswers`, `CommitSpec`, `CommitStretches`, `SessionCommit`, `ProcessHost`, `ProcessHostRuns`,
`ProcessHostProgress`, `ProcessHostEndings`, `Pipeline`, `LostTails`, `SessionPipeline`, `SessionRecord`,
`RunEndings`, `Scripts`, `ScriptTexts`, `FixtureHost`, `FixturePipeline`; then `Ordering`, `ContextItems`,
`Coalescing`, `Semantic`, `Admission`, `Assembly`, `RequiredItems`, `CoalescingRecord`, `ProposedOrder`, `Pins`,
`TraceAccounts`, `Bundle`, `InvalidationReasons`, `Freshness`, `StaleAtOnce`, `Digest`, `IndexCache`, `Counters`,
`Porcelain`. `Basics` holds the byte and option types,
`Texts` their digits. `dafny verify dfyconfig.toml` checks all of it.

Objects the backend updates in place (the authority, the session, the buffer, the fixture host, the
bundle, the index store) are classes whose methods are specified by functions on their state; loops
are methods specified by functions on values; the theorems are about those functions.

## What the code does not promise

Where an expected property is false, the code is kept and the exact condition is proved.

- A cancel that finds the buffer full drops the pending chunk but still uses up its ordinal. The
  authority then refuses the final observation as out of order, so the finished run stays reported as
  live (`LostTailIsPlayed`). Between host and authority this is the only way (`ComposedPipeline`).
- A session that drains a batch and has an append refused, or a payload too large for the store, does not
  drain the rest of it again. Nothing of that run is accepted from then on, and its end is never reported (`RefusalIsFinal`,
  `RefusedStartStrandsRun`). A run is in step exactly if neither happened: no tail was lost, and the store
  took every unit of every batch that was drained (`SessionPipelineHolds`).
- A configured chunk size above 256 KiB can block the reader for good, until a cancel
  (`OversizedChunkSticks`, `DrainAlwaysUnblocksIff`).
- Undoing a delivery that was only acknowledged as a replay destroys state (`UndoRestoresIffNew`).
- Coalescing runs before admission and ignores the mandatory mark, so a required file, or a required empty
  git state, can be missing from a dispatchable bundle (`MandatoryIsSelectedIff`,
  `RequiredCopyIsCoalescedAway`, `RequiredGitStateIsSkipped`). The copy that takes its place need not be
  mandatory, so the budget can drop the bytes altogether (`BytesAlwaysKeptIff`, `RequiredPairVanishes`).
- A pin gives a repository file an authority below that of other repository files, so pinning a file can drop
  it from the bundle (`PinsArePlaced`, `PinCanDropItsFile`).
- A freshly built bundle can be found changed at once: when two roots hold one relative path with different
  bytes, since sources are looked up by path alone, and when a selected source recorded no fingerprint,
  since the build digests its bytes and the evaluation compares with zeros (`FreshBundleIsLeftAloneIff`,
  `TwoRootsAreStaleAtOnce`, `NestedRepositoryIsStaleAtOnce`).
- Index payloads between 16 MiB and 256 MiB are refused without shedding the old row
  (`MidSizeStoreKeepsOldEntry`).
- `CatalogEnumerationChanged` is never answered, although the comment next to it describes when it would
  be, so an edit counts as unrelated only if the catalog is unchanged (`UnrelatedEditIff`).
- Git also prints a second path for a rename in the second status column. The parser does not expect it: the
  path is lost or misread as a record, and mostly everything after it is lost (`GitIsReadBackIff`,
  `UnexpectedEndsReadingIff`, `UnexpectedIsMisread`, `UnexpectedByteIsMisread`).
- A dequeue by a caller that was never admitted lets the queue exceed its limit
  (`OverfillIsReached`, `DequeueKeepsInvIff`).

## Model

| member | source | states |
|---|---|---|
| `Authority.ObservationAuthority.Apply` | crates/seyal-agent-backend/src/observation.rs:227-288 | fence first, then replay, then conflict, then the ordinal rule: the answer is the judged verdict and the new state is the accepted state, or exactly the old one |
| `Authority.ObservationAuthority.UndoApply` | crates/seyal-agent-backend/src/observation.rs:183-213 | the new state is the old one without that observation: entry removed, cursor stepped back, saved liveness record and effect count put back |
| `Authority.ObservationAuthority.SetRunLiveness` | crates/seyal-agent-backend/src/observation.rs:290-306 | termination blocks every later change; a crash blocks disconnect and reconnect; anything else is recorded |
| `Authority.ObservationAuthority.NoteCommittedTerminal` | crates/seyal-agent-backend/src/observation.rs:141-143 | the run becomes known-terminated and nothing else changes |
| `Authority.ObservationAuthority.MarkRecovered` | crates/seyal-agent-backend/src/observation.rs:147-149 | a recovered run is unknown after crash unless it had already terminated |
| `AuthorityRuns.RunsKeepInv` | crates/seyal-agent-backend/src/observation.rs:227-288 | over every sequence of deliveries, noted terminals and recoveries, each run's applied ordinals are exactly 1 .. next-1 and the effect counter is the number of applied results and outputs |
| `AuthorityRuns.AcceptedKeepsInv` | crates/seyal-agent-backend/src/observation.rs:249-288 | one newly accepted observation keeps that invariant |
| `AuthorityRuns.AcceptedCounts` | crates/seyal-agent-backend/src/observation.rs:249-288 | an acceptance adds exactly one applied entry, and one effect exactly for a result or an output |
| `AuthorityRuns.UndoRestoresIffNew` | crates/seyal-agent-backend/src/observation.rs:183-213 | taking back a delivery that was answered Ok restores the whole state if and only if the delivery was new; undoing a replay destroys state |
| `AuthorityRuns.UndoIsExactInverse` | crates/seyal-agent-backend/src/observation.rs:183-213 | any last-in-first-out mix of accepting and undoing leaves exactly the state of having accepted only the observations still kept |
| `AuthorityRuns.LivenessIsClosedForm` | crates/seyal-agent-backend/src/observation.rs:141-180 | from a fresh authority, after any operations, the liveness of every run equals a closed form of its history: terminated iff some end was applied or noted, else crashed iff some loss or recovery, else lost iff the last disconnect has no later reconnect, else live |
| `AuthorityRuns.LivenessStep` | crates/seyal-agent-backend/src/observation.rs:290-306 | one operation moves a run's liveness exactly by the event it adds to that run's history |
| `AuthorityAnswers.OkIffRecorded` | crates/seyal-agent-backend/src/observation.rs:227-288 | a delivery is answered Ok iff its run is bound under its generation and the state after it holds its kind at its ordinal; only a new acceptance changes the state |
| `AuthorityAnswers.ErrorsAre` | crates/seyal-agent-backend/src/observation.rs:227-288 | each error exactly: unknown run, other generation, a different kind at an applied ordinal, or an ordinal that is zero, beyond the next one or exhausted |
| `AuthorityAnswers.ConflictIffNotCanonical` | crates/seyal-agent-backend/src/observation.rs:238-247 | at an ordinal already reached a current delivery is Ok iff it carries the canonical kind, else a conflict, and changes nothing either way |
| `AuthorityAnswers.AdvanceFences` | crates/seyal-agent-core/src/domain.rs:432-449 | advancing a binding under its present generation fences off every delivery under that one; under another, or at the last, it changes nothing |
| `AuthorityAnswers.FreshKeepsInv` | crates/seyal-agent-backend/src/observation.rs:40-48 | a fresh authority meets the invariant that every run keeps, with no effects counted |
| `DeliveryConvergence.DrawnStep` | crates/seyal-agent-backend/src/observation.rs:227-288 | a delivery drawn from the canonical streams never conflicts, and one that is not newly accepted leaves the whole state unchanged |
| `DeliveryConvergence.DeliveriesHoldPrefix` | crates/seyal-agent-backend/src/observation.rs:227-288 | under any duplicates, reordering, replays and stale generations the applied map of every run is exactly a canonical prefix |
| `DeliveryConvergence.ReachesIffDeliveredInOrder` | crates/seyal-agent-backend/src/observation.rs:152-154 | a run's log reaches ordinal n if and only if 1 .. n were delivered in that order, with anything in between, under the current generation |
| `DeliveryConvergence.CompleteDeliveriesAgree` | crates/seyal-agent-backend/src/observation.rs:227-288 | two deliveries that each contain a run's whole stream in order agree on everything applied for it |
| `DeliveryConvergence.DifferentRunsCommute` | crates/seyal-agent-backend/src/observation.rs:227-288 | deliveries to different runs commute: same answers, same state |
| `SessionCommit.Session.UndoAppliedGroup` | crates/seyal-agent-backend/src/session/mod.rs:593-600 | undoing the kept members newest first restores the authority of before the group |
| `SessionCommit.Session.ApplyGroup` | crates/seyal-agent-backend/src/session/mod.rs:541-568 | a rejected member leaves the authority as before the group; otherwise the collected bytes are those of the newly applied, consecutive ordinals |
| `SessionCommit.Session.CommitOutputGroup` | crates/seyal-agent-backend/src/session/mod.rs:541-591 | a group commits whole or not at all, with exactly the specified answer; the one durable event is the record of exactly the newly accepted members, so store and memory stay equal |
| `CommitSpec.CommitTranscribes` | crates/seyal-agent-backend/src/session/mod.rs:516-539 | a batch gets the authority exactly as far as its answer says, and the events appended are the record of exactly what was newly accepted on the way |
| `CommitSpec.NewIsConsecutive` | crates/seyal-agent-backend/src/session/mod.rs:541-568 | what is new in a stretch of output of one run continues the run's log without a gap |
| `CommitSpec.TranscribesAppend` | crates/seyal-agent-backend/src/session/mod.rs:516-539 | records of two stretches, one after the other, are the record of both |
| `CommitSpec.NewlyAcceptedAppend` | crates/seyal-agent-backend/src/session/mod.rs:516-539 | what a batch newly accepts is what its first part does, then what its second part does from there |
| `SessionCommit.Session.CommitObservation` | crates/seyal-agent-backend/src/session/mod.rs:602-633 | one observation is applied and stored, or neither; the answer is exactly the specified one: too large, rejected, refused or committed; a replay stores nothing |
| `SessionCommit.Session.CommitBatch` | crates/seyal-agent-backend/src/session/mod.rs:516-539 | answer, point reached and events appended are the specified ones; the authority holds exactly that prefix of the batch, durable and applied output agree, and the events are the record of exactly the newly accepted observations, in order |
| `CommitStretches.UnitIsStretch` | crates/seyal-agent-backend/src/session/mod.rs:516-539 | the unit committed at once is the maximal stretch of outputs of one run, or a single other observation |
| `CommitStretches.StopsBetweenStretches` | crates/seyal-agent-backend/src/session/mod.rs:516-539 | a batch never stops inside a stretch |
| `CommitStretches.OneEventPerStretch` | crates/seyal-agent-backend/src/session/mod.rs:541-591 | each committed stretch with something new has exactly one durable event of its own, every other has none, and no event spans two |
| `SessionCommit.EventKeepsMatch` | crates/seyal-agent-backend/src/session/mod.rs:541-591 | appending the event for exactly the newly applied ordinals keeps durable and applied output equal for every run |
| `ProcessHost.ObservationBuffer.PushObservation` | crates/seyal-agent-backend/src/standalone_process_host.rs:248-269 | a push is appended, dropped under shutdown or made to wait by both limits; the byte count stays the sum of the queued outputs |
| `ProcessHost.ObservationBuffer.Drain` | crates/seyal-agent-backend/src/standalone_process_host.rs:517-524 | draining returns everything in order and resets the byte count |
| `ProcessHostRuns.ReachableIsGood` | crates/seyal-agent-backend/src/standalone_process_host.rs:272-391 | after every interleaving: stream shape, byte conservation, buffer bounds, evidence for the final observation, and a known end after a drop |
| `ProcessHostRuns.ShapedStep` | crates/seyal-agent-backend/src/standalone_process_host.rs:181-300 | published observations stay Started, then outputs at consecutive ordinals, then at most one final one, with a gap only after a dropped chunk |
| `ProcessHostRuns.ConservedStep` | crates/seyal-agent-backend/src/standalone_process_host.rs:286-327 | every byte read stays published in order, in the push in progress, or in the one dropped chunk |
| `ProcessHostRuns.BoundedStep` | crates/seyal-agent-backend/src/standalone_process_host.rs:230-269 | the byte count stays exact and within 256 KiB, the queue within 256 entries plus the final one |
| `ProcessHostRuns.EvidentStep` | crates/seyal-agent-backend/src/standalone_process_host.rs:329-409 | a success, failure or crash is only ever published with the exit status, signal or shutdown that justifies it |
| `ProcessHostEndings.FinalKindIsTold` | crates/seyal-agent-backend/src/standalone_process_host.rs:329-409 | a finished run ends with a kind iff its steps tell it: the wait result, the exit, the cancel and the pipe fix it |
| `ProcessHostEndings.SeenCodeIsTold` | crates/seyal-agent-backend/src/standalone_process_host.rs:329-409 | an exit code that was seen is published as success if zero and failure otherwise, cancelled or not |
| `ProcessHostEndings.PushDropsIff` | crates/seyal-agent-backend/src/standalone_process_host.rs:248-269 | a push drops its chunk iff shutting down with 256 entries or 256 KiB in the way, and otherwise publishes it |
| `ProcessHostProgress.DrainAlwaysUnblocksIff` | crates/seyal-agent-backend/src/standalone_process_host.rs:25-27 | every drain releases every pending push in every reachable state if and only if the chunk size fits the byte budget |
| `ProcessHostProgress.OversizedChunkSticks` | crates/seyal-agent-backend/src/standalone_process_host.rs:248-269 | a reader holding a chunk larger than the byte budget stays blocked under any draining until a cancel |
| `ProcessHostProgress.CancelledReaderFinishes` | crates/seyal-agent-backend/src/standalone_process_host.rs:286-391 | after a cancel the reader takes at most six more steps in any interleaving, and outside the pipe read always has one it can take |
| `Pipeline.ComposedPipeline` | crates/seyal-agent-backend/src/standalone_process_host.rs:272-391 | delivering drained observations straight to the authority: in every interleaving of reader, drainer, canceller, child and other runs all are answered Ok exactly unless a chunk was dropped before the final one; termination is reported only with an exit status or a shutdown, never for a lost pipe |
| `RunEndings.ReportIsTold` | crates/seyal-agent-backend/src/standalone_process_host.rs:272-409 | in every interleaving a finished, drained run that dropped nothing is reported as what its steps tell |
| `RunEndings.SeenExitTerminates` | crates/seyal-agent-backend/src/standalone_process_host.rs:329-409 | a run nobody cancelled whose child was seen to exit with a code is reported terminated once drained |
| `RunEndings.SessionReportIsTold` | crates/seyal-agent-backend/src/session/mod.rs:764-775 | the same through the session, if every batch committed |
| `SessionPipeline.SessionPipelineHolds` | crates/seyal-agent-backend/src/session/mod.rs:764-775 | committing drained batches through the session, whatever the store decides: the authority holds exactly a prefix of the stream, which is everything drained iff every batch committed; and every batch committed iff no tail was lost and the store accepted the append of every unit of every drained batch and found no single observation too large |
| `SessionPipeline.CommitsIff` | crates/seyal-agent-backend/src/session/mod.rs:516-633 | a batch in step commits iff nothing in it comes after a gap and the store takes every unit of it |
| `SessionPipeline.TurnsCommitIff` | crates/seyal-agent-backend/src/session/mod.rs:764-775 | the same over every sequence of turns from a host in step |
| `SessionRecord.SessionLogHolds` | crates/seyal-agent-backend/src/session/mod.rs:541-633 | in every interleaving, whatever the store decides, the run's durable events are the record of exactly the observations the authority holds, the first ones of the stream, in order |
| `SessionRecord.SessionReportHolds` | crates/seyal-agent-backend/src/observation.rs:249-306 | in every interleaving termination is reported iff a known end is among those observations, and only with an exit status or a shutdown; a lost pipe is reported as a lost observation, a crash only for a signalled child or a failed wait |
| `SessionRecord.ElsewhereIsRecorded` | crates/seyal-agent-backend/src/observation.rs:227-288 | an observation of another run is recorded by the same authority iff it is answered Ok, its events are the record of what was new, and the host is untouched |
| `SessionPipeline.RefusalIsFinal` | crates/seyal-agent-backend/src/session/mod.rs:771-775 | once a batch did not commit, nothing of the run is ever accepted again: log and liveness stay as they are under any continuation |
| `SessionPipeline.RefusedStartStrandsRun` | crates/seyal-agent-backend/src/session/mod.rs:771-775 | a refused first append leaves the run reported live for ever, whatever the host publishes |
| `SessionPipeline.CommitFollows` | crates/seyal-agent-backend/src/session/mod.rs:516-539 | a drained batch commits as far as the first refused append, and is rejected only at a final observation after a gap |
| `LostTails.BlockedCancelLosesTail` | crates/seyal-agent-backend/src/standalone_process_host.rs:261-300 | from every state whose reader is blocked on a full buffer, cancelling and then draining gives a final observation after a gap |
| `LostTails.BlockingIsReachable` | crates/seyal-agent-backend/src/standalone_process_host.rs:248-269 | for every chunk size such a blocked state is reached from a spawned host |
| `LostTails.LostTailIsPlayed` | crates/seyal-agent-backend/src/standalone_process_host.rs:261-300 | for every chunk size there is a play in which the authority refuses the final observation as out of order and the finished run stays reported as live |
| `Pipeline.PlaysTrack` | crates/seyal-agent-backend/src/observation.rs:227-288 | along every play the authority has applied exactly the drained part of the host's stream |
| `ScriptTexts.ParseScript` | crates/seyal-agent-backend/src/script.rs:5-21 | a text parses exactly when its bytes and lines are within the limits, every line is readable and not all are skipped; the script is the lines' steps in order, each of a kind a script can contain |
| `ScriptTexts.SplitLines` | crates/seyal-agent-backend/src/script.rs:10-10 | the lines of a text: split at line feeds, with a carriage return before one taken along |
| `ScriptTexts.TooLargeIff` | crates/seyal-agent-backend/src/script.rs:5-21 | a text is refused as too large iff it has more than 65536 bytes or 1024 lines |
| `ScriptTexts.Utf8LengthIs` | crates/seyal-agent-backend/src/script.rs:5-9 | the length counts UTF-8 bytes: one more past each of 127, 2047 and 65535 |
| `ScriptTexts.WrittenScriptParses` | crates/seyal-agent-backend/src/script.rs:5-88 | every list of one to 1024 parsable steps, written out as text within the size limit, parses back to itself |
| `Scripts.ParsableIff` | crates/seyal-agent-backend/src/script.rs:23-88 | some line of text parses to a step if and only if the step is parsable: no exact emission, no delay observation, 64-bit numbers, payload not empty and within the hex limit |
| `Scripts.HexPairIs` | crates/seyal-agent-backend/src/script.rs:75-88 | a payload byte is two hex digits, or a plus sign and one digit |
| `Scripts.LineSplits` | crates/seyal-agent-backend/src/script.rs:24-24 | splitting a line written from words at white space gives those words back |
| `Scripts.WrittenParses` | crates/seyal-agent-backend/src/script.rs:23-88 | every parsable step has a line of text, with decimal numbers and hex payload, that splits into its words and parses back to it |
| `FixtureHost.ChunksCover` | crates/seyal-agent-backend/src/execution_host.rs:211-223 | chunks are non-empty, within the bound, and concatenate to the original bytes |
| `FixtureHost.PlainPlayCarries` | crates/seyal-agent-backend/src/execution_host.rs:201-268 | playing a plain script fails as a duplicate iff a duplicate comes before any emission, else as exhausted iff it has 2^64 - 1 kinds or more; else it gives exactly the script's kinds numbered from 1 |
| `FixtureHost.PlayHasAll` | crates/seyal-agent-backend/src/execution_host.rs:201-268 | every play, exact emissions included, has one observation per new kind, per repeat and per exact emission, which stands in it as written |
| `FixtureHost.FakeExecutionHost.Execute` | crates/seyal-agent-backend/src/execution_host.rs:201-268 | the loop computes the play of the script, including its two failures |
| `FixtureHost.FakeExecutionHost.Start` | crates/seyal-agent-backend/src/execution_host.rs:330-354 | a start hands out a fresh handle whose stream is the play of the script, or the preset outcome once; other handles are untouched |
| `FixtureHost.FakeExecutionHost.Observe` | crates/seyal-agent-backend/src/execution_host.rs:356-359 | observing moves exactly the pending stream to the delivered one |
| `FixtureHost.FakeExecutionHost.SignalCancel` | crates/seyal-agent-backend/src/execution_host.rs:361-375 | a cancel appends one failure at the next ordinal, so delivered and pending together stay one numbered stream |
| `FixtureHost.FakeExecutionHost.Reap` | crates/seyal-agent-backend/src/execution_host.rs:377-383 | reaping forgets the handle and its pending stream |
| `FixturePipeline.NumberedIsAccepted` | crates/seyal-agent-backend/src/observation.rs:227-288 | a numbered stream with immediate repeats is accepted completely, and the repeats change nothing |
| `FixturePipeline.ParsedScriptEndToEnd` | crates/seyal-agent-backend/src/execution_host.rs:201-375 | for every parsed script that plays, a ready authority accepts the whole stream and then the evidence of any number of cancels; it holds exactly the script's kinds and those failures, and a cancelled run ends terminated |
| `FixturePipeline.HostStreamIsAccepted` | crates/seyal-agent-backend/src/execution_host.rs:330-383 | in every state of the fixture host, after any starts, failed plays, cancels and drains, what a plain handle delivered and still holds is accepted in full, and the run is terminated if it ends anywhere in it |
| `Ordering.SortIsSorted` | crates/seyal-agent-context/src/assemble.rs:160-175 | the stable sort yields a sorted list |
| `Ordering.SortIsPermutation` | crates/seyal-agent-context/src/assemble.rs:160-175 | the stable sort only rearranges |
| `Ordering.SortForgetsOrder` | crates/seyal-agent-context/src/assemble.rs:160-175 | without ties, sorting any permutation gives the same list |
| `Coalescing.GroupByFingerprint` | crates/seyal-agent-context/src/assemble.rs:345-359 | the fingerprint map holds, under each fingerprint present, exactly its items in input order |
| `Coalescing.CoalesceCompatible` | crates/seyal-agent-context/src/assemble.rs:340-457 | the loop over the map computes the specified pass: eligible list in selection order, conflicts and trace |
| `Coalescing.CoalescingCovers` | crates/seyal-agent-context/src/assemble.rs:340-457 | every candidate except an empty git state is represented by an eligible item with the same bytes, at least its authority and on its side of the secret threshold; if not selected itself, the trace says it was coalesced |
| `Coalescing.EligibleIsSound` | crates/seyal-agent-context/src/assemble.rs:340-457 | whatever the candidates, eligible ids are unique, eligible items are candidates, and the list is in selection order |
| `ContextItems.AuthorityLadder` | crates/seyal-agent-context/src/item.rs:93-106 | the order of the eight authorities, and which source classes get which |
| `ContextItems.EstimateIsLeast` | crates/seyal-agent-context/src/item.rs:84-90 | the estimate is the least number of four-byte tokens that holds the bytes |
| `Semantic.ProposalIsPermutation` | crates/seyal-agent-context/src/semantic.rs:38-79 | whatever ids are proposed, the proposed list holds exactly the eligible items, each once |
| `ProposedOrder.ProposalFollows` | crates/seyal-agent-context/src/semantic.rs:48-70 | proposed items come first, in the order of first mention; the rest follow in baseline order |
| `ProposedOrder.ReorderIsTakenIff` | crates/seyal-agent-context/src/semantic.rs:38-104 | a reorder is taken iff it names eligible ids only and the whole list stays sorted by authority; otherwise the baseline is used |
| `ProposedOrder.BuildFallsBackIff` | crates/seyal-agent-context/src/assemble.rs:183-214 | a build falls back iff its enhancer declines, names an unknown id, or proposes a list not sorted by authority |
| `Semantic.AcceptedReorderKeepsAuthority` | crates/seyal-agent-context/src/semantic.rs:81-104 | an accepted reorder of a list in selection order is still sorted by authority |
| `Semantic.BuildProposal` | crates/seyal-agent-context/src/semantic.rs:48-70 | the loops compute the proposed list |
| `Semantic.FindViolation` | crates/seyal-agent-context/src/semantic.rs:81-104 | a violation is found if and only if some item stands ahead of one of higher authority that preceded it |
| `Semantic.ApplySemanticOutcome` | crates/seyal-agent-context/src/semantic.rs:38-79 | unknown ids or a violation fall back to the baseline; otherwise the proposal is used |
| `Admission.AdmitWithBudget` | crates/seyal-agent-context/src/assemble.rs:463-520 | the loops compute the specified admission, trace included |
| `Admission.AdmissionIsWithinBudget` | crates/seyal-agent-context/src/assemble.rs:463-520 | the selection never costs more than the budget; mandatory items are all selected whole, or they alone exceed it and nothing is selected |
| `Admission.FitCountIsLongest` | crates/seyal-agent-context/src/assemble.rs:480-490 | the reference packing takes the longest prefix that fits whole |
| `Admission.BudgetIsTight` | crates/seyal-agent-context/src/assemble.rs:463-520 | with payload-derived estimates the selection is the mandatory items, the longest fitting prefix, at most one cut item, then only free items; if an optional item is not whole the cost is exactly the budget |
| `Admission.CutIsExactPrefix` | crates/seyal-agent-context/src/item.rs:57-90 | the cut item keeps exactly the first four bytes per token left and costs those tokens |
| `Admission.AdmissionForgetsOrder` | crates/seyal-agent-context/src/assemble.rs:463-471 | admission of a list with unique ids does not depend on its order |
| `Assembly.MarkCandidates` | crates/seyal-agent-context/src/assemble.rs:126-157 | field by field: the exact-task authority iff the path is pinned or the item had it, otherwise its own; mandatory iff it was or the path is required; nothing else changes; exactly the required paths without candidate are reported and traced |
| `Assembly.AssembleCandidates` | crates/seyal-agent-context/src/assemble.rs:126-256 | the whole build computes the specified assembly: order, eligible list, conflicts, selection, status, fallback and trace |
| `TraceAccounts.EveryCandidateIsAccountedFor` | crates/seyal-agent-context/src/assemble.rs:340-520 | whenever admission gives a dispatchable result, the trace says of every candidate that takes part that it was included, coalesced into another, left out for budget, or cut |
| `TraceAccounts.OutcomeIsTraced` | crates/seyal-agent-context/src/assemble.rs:183-256 | exactly the selected items are traced as included, each with its reason; a build fails, and is traced so, iff a required path has no candidate or the mandatory items alone exceed the budget; fallback and rejected reintroduction are traced iff they happened |
| `Assembly.AssemblyForgetsCandidateOrder` | crates/seyal-agent-context/src/assemble.rs:160-180 | with distinct ids, every permutation of the candidates gives the same pre-semantic order, eligible list, selection, status and trace |
| `Assembly.EnhancerCannotInterfere` | crates/seyal-agent-context/src/assemble.rs:183-214 | whatever the enhancer answers, eligible list, selection and status are those of a build without one, the trace differs only by the entries of the semantic step, and the reordered list is a permutation sorted by authority |
| `Pins.PinsArePlaced` | crates/seyal-agent-context/src/assemble.rs:126-157 | every eligible item with a pinned path has the exact-task authority and stands, in the eligible list and in the order admission takes, behind every item of higher authority and ahead of every one of lower |
| `Pins.PinCanDropItsFile` | crates/seyal-agent-context/src/assemble.rs:126-157 | two optional repository files of equal cost and room for one: the one with the lesser id is selected, and dropped if it is pinned |
| `CoalescingRecord.CoalescingIsRecorded` | crates/seyal-agent-context/src/assemble.rs:361-455 | a candidate that takes part is traced as dropped iff not elected, as kept apart iff secret with copies on both sides, and surfaced as a conflict iff all copies are on one side and two disagree |
| `RequiredItems.SurvivesIff` | crates/seyal-agent-context/src/assemble.rs:340-457 | a marked candidate is eligible iff it takes part and, among the copies of its bytes: with both sides of the secret threshold present it is secret or the first public one in pre-semantic order; otherwise the copies disagree or it has the least id |
| `RequiredItems.GroupElects` | crates/seyal-agent-context/src/assemble.rs:361-455 | on a list in pre-semantic order with distinct ids that guard decides exactly which members a group pushes |
| `RequiredItems.MandatoryIsAdmitted` | crates/seyal-agent-context/src/assemble.rs:463-478 | in a dispatchable admission a mandatory item is selected, unchanged, exactly when it was eligible |
| `RequiredItems.MandatoryIsSelectedIff` | crates/seyal-agent-context/src/assemble.rs:137-157 | in a dispatchable bundle a mandatory candidate is selected iff that guard holds over the marked candidates; an empty git state never is |
| `RequiredItems.RequiredGitStateIsSkipped` | crates/seyal-agent-context/src/assemble.rs:345-352 | a required empty git state is marked mandatory and missing from the dispatchable bundle |
| `RequiredItems.RequiredGitStateAlone` | crates/seyal-agent-context/src/assemble.rs:345-352 | as the only candidate and the only required path it gives a dispatchable bundle with nothing in it, at every budget |
| `RequiredItems.RequiredCopyIsCoalescedAway` | crates/seyal-agent-context/src/assemble.rs:340-457 | a required file with an agreeing copy of lesser id is missing from the dispatchable bundle |
| `RequiredItems.BytesAlwaysKeptIff` | crates/seyal-agent-context/src/assemble.rs:463-520 | some selected item holds given bytes whole at every budget that gives a dispatchable bundle iff some eligible item with them is mandatory or free, or no budget gives one |
| `RequiredItems.AnchoredIffElected` | crates/seyal-agent-context/src/assemble.rs:340-457 | such an item is eligible iff a mandatory or free one is elected among the marked candidates |
| `RequiredItems.RequiredPairVanishes` | crates/seyal-agent-context/src/assemble.rs:463-520 | two compatible copies, the required one with the greater id: at budget zero the bundle is dispatchable and empty |
| `Bundle.ContextBundle.constructor` | crates/seyal-agent-context/src/bundle.rs:64-143 | dependencies record every selected id and fingerprint; only a dispatchable bundle keeps payloads |
| `Bundle.ContextBundle.MarkStale` | crates/seyal-agent-context/src/bundle.rs:146-152 | a stale bundle keeps every item and clears every payload |
| `Bundle.ContextBundle.ApplyInvalidation` | crates/seyal-agent-context/src/invalidate.rs:115-124 | only a related reason on a dispatchable or unbuildable bundle marks it stale, and the answer says so |
| `Bundle.StillDispatchableIsCurrent` | crates/seyal-agent-context/src/invalidate.rs:19-124 | a bundle still dispatchable after evaluate-then-apply is unchanged, its generations and catalog are current, and every dependency has its item and an eligible source with the recorded bytes |
| `InvalidationReasons.ReasonIs` | crates/seyal-agent-context/src/invalidate.rs:19-112 | the whole answer as equivalences: a fence iff a generation differs; else a selected change iff some dependency lost its item, or its first eligible source or bytes, whatever the catalog; else, if the catalog differs, higher authority iff an eligible source outranks every item and is not among them, and a negative dependency otherwise; else unrelated |
| `Bundle.UnrelatedEditIff` | crates/seyal-agent-context/src/invalidate.rs:126-156 | the catalog-enumeration answer is never given, so the second way for an edit to be unrelated is dead: an edit outside the selection is unrelated iff catalog and every selected source are unchanged |
| `Bundle.InvalidationIs` | crates/seyal-agent-context/src/invalidate.rs:115-124 | a related reason makes a dispatchable or unbuildable bundle stale with empty payloads and nothing else touched; anything else leaves it as it is |
| `Bundle.UndispatchableHoldsNoPayload` | crates/seyal-agent-context/src/bundle.rs:146-156 | over every history of invalidations, a bundle that is not dispatchable holds no payload bytes, and it is dispatchable iff it was built so and no related reason ever came |
| `Freshness.FreshBundleIsLeftAloneIff` | crates/seyal-agent-context/src/invalidate.rs:19-80 | a bundle evaluated against the report it was built from is found changed iff, for some selected item, the first eligible source at its path does not record its fingerprint; otherwise it is unrelated |
| `Freshness.AgreeingBundleIsLeftAloneIff` | crates/seyal-agent-context/src/invalidate.rs:57-80 | if eligible sources of one path agree, it is unrelated iff every selected item's source recorded a fingerprint or the item digests to zeros |
| `Freshness.DiscoveryBudgetIsTight` | crates/seyal-agent-context/src/assemble.rs:463-520 | every build from a report packs tightly: mandatory items, longest fitting prefix, at most one exact cut, then only free items; and uses the budget up exactly if an optional item is not whole |
| `StaleAtOnce.TwoRootsAreStaleAtOnce` | crates/seyal-agent-context/src/invalidate.rs:64-67 | two roots that hold one path with different bytes, both fingerprinted: the bundle is found changed at once |
| `StaleAtOnce.UnrecordedIsStaleAtOnce` | crates/seyal-agent-context/src/assemble.rs:295-298 | a source without a recorded fingerprint whose bytes do not digest to zeros: the bundle is found changed at once |
| `StaleAtOnce.NestedRepositoryIsStaleAtOnce` | crates/seyal-agent-context/src/walk.rs:206-228 | a nested repository, a directory without fingerprint or bytes: the bundle is found changed at once under every request |
| `Freshness.CandidatesAreSound` | crates/seyal-agent-context/src/assemble.rs:286-326 | every materialized candidate carries an eligible source's provenance and fingerprint, an id ending in that fingerprint, and a payload-derived estimate |
| `Freshness.CandidatesRender` | crates/seyal-agent-context/src/assemble.rs:286-326 | every candidate says what its source and reading say, field by field |
| `Freshness.OriginsAre` | crates/seyal-agent-context/src/assemble.rs:286-326 | exactly the eligible sources that can be read become candidates, in the order of the report |
| `Freshness.CutIdIsNew` | crates/seyal-agent-context/src/item.rs:14-76 | the id of a cut item differs from the id of every uncut one |
| `Freshness.SelectionIsSound` | crates/seyal-agent-context/src/assemble.rs:463-520 | admission keeps ids distinct, cut item included, and keeps every item bound to its source |
| `Digest.DigestBytes` | crates/seyal-agent-context/src/digest.rs:40-57 | the loop feeds even positions to one lane and odd positions to the other and concatenates both little-endian |
| `Digest.DigestHoldsLanes` | crates/seyal-agent-context/src/digest.rs:40-57 | the first eight bytes of a digest stand for the lane of the even positions, the last eight for the other, least significant first |
| `Digest.ScaleInjective` | crates/seyal-agent-context/src/digest.rs:47-51 | multiplication by the prime modulo 2^64 is injective |
| `Digest.MixSeparates` | crates/seyal-agent-context/src/digest.rs:45-51 | one byte mixed in keeps different lanes apart, and different bytes separate equal lanes |
| `Digest.LaneDetects` | crates/seyal-agent-context/src/digest.rs:44-53 | two lanes that differ in exactly one byte end differently, whatever follows |
| `Digest.LoneChangeIsDetected` | crates/seyal-agent-context/src/digest.rs:40-57 | equal-length strings that differ at exactly one position of some parity have different digests |
| `Digest.PairChangeIsDetected` | crates/seyal-agent-context/src/digest.rs:40-57 | any change confined to two adjacent bytes changes the digest |
| `Digest.HexText` | crates/seyal-agent-context/src/digest.rs:8-14 | two lower-case digits per byte |
| `Digest.ParseHex` | crates/seyal-agent-context/src/digest.rs:16-37 | the loop accepts exactly 32 hex digits and joins them pairwise |
| `Texts.NibbleIs` | crates/seyal-agent-context/src/digest.rs:29-37 | a hex digit is worth its place among the sixteen, in either case, and nothing else is one |
| `Digest.HexRoundTrip` | crates/seyal-agent-context/src/digest.rs:8-27 | sixteen bytes survive printing and parsing |
| `Digest.ParsedHexPrintsBack` | crates/seyal-agent-context/src/digest.rs:16-37 | a text parses iff it is 32 hex digits, and printing the result gives the same digits in lower case |
| `IndexCache.AgentStore.PutContextIndex` | crates/seyal-agent-store/src/sqlite/context_index.rs:29-66 | an empty producer or a payload over 16 MiB changes nothing; otherwise the row is replaced if the store is writable |
| `IndexCache.AgentStore.DeleteContextIndex` | crates/seyal-agent-store/src/sqlite/context_index.rs:96-105 | the row is removed if the store is writable |
| `IndexCache.AgentStore.StoreIndex` | crates/seyal-agent-context/src/index.rs:95-113 | a payload over 256 MiB sheds the row; any other goes to the store as hex digests |
| `IndexCache.AgentStore.LoadIndex` | crates/seyal-agent-context/src/index.rs:116-145 | no row is a miss, unreadable digests are corrupt, a validated row is returned, any other is dropped |
| `IndexCache.RecordedReadsBack` | crates/seyal-agent-context/src/index.rs:104-137 | a stored entry reads back as itself through both hex texts |
| `IndexCache.ReportValidatesIff` | crates/seyal-agent-context/src/index.rs:37-74 | an entry built from a report validates for exactly its own work scope and three generations |
| `IndexCache.RowIsServedIff` | crates/seyal-agent-context/src/index.rs:56-145 | any row, whoever wrote it: corrupt iff a digest text does not parse; served iff producer and version are this program's, the payload digests as recorded and the generations are current; dropped otherwise |
| `IndexCache.PutIsRefusedIff` | crates/seyal-agent-store/src/sqlite/context_index.rs:29-66 | a row is refused iff it names no producer, is over 16 MiB or the store cannot write, and then nothing changes |
| `IndexCache.TamperedPayloadIsNotServed` | crates/seyal-agent-context/src/index.rs:56-74 | a stored payload changed within two adjacent bytes is an integrity mismatch, and the load misses and drops the row |
| `IndexCache.LoadHitsIffStoreStands` | crates/seyal-agent-context/src/index.rs:95-145 | over every run of stores and loads, with any writes refused, a load hits iff the latest effective event of the work scope is a successful store under the same generations; it returns that entry, and no load ever errs |
| `IndexCache.MidSizeStoreKeepsOldEntry` | crates/seyal-agent-context/src/index.rs:95-113 | a payload between 16 MiB and 256 MiB is refused but leaves the old row, which later loads still serve |
| `Counters.BuildsNeverExceedSlots` | crates/seyal-agent-context/src/assemble.rs:42-71 | in every interleaving the counter equals the live guards, at most eight, and a load is refused exactly when eight are live |
| `Counters.AdmittedNeverExceedQueue` | crates/seyal-agent-context/src/budget.rs:48-63 | in every interleaving at most 64 callers are admitted, and the raw counter exceeds them by exactly those backing out |
| `Counters.QueueStepKeepsInv` | crates/seyal-agent-context/src/budget.rs:48-55 | each atomic step keeps that account, and an add is admitted iff admitted plus backing-out callers are fewer than 64 |
| `Counters.DequeueKeepsInvIff` | crates/seyal-agent-context/src/budget.rs:57-63 | a dequeue keeps the account iff its caller is counted in it or the counter is zero |
| `Counters.StrayDequeueOverfills` | crates/seyal-agent-context/src/budget.rs:57-63 | in a full queue one dequeue by a caller never admitted lets a sixty-fifth in |
| `Counters.OverfillIsReached` | crates/seyal-agent-context/src/budget.rs:48-63 | with more than 64 callers the full queue is reached from the empty one, and overfilled so |
| `Porcelain.ScanToNul` | crates/seyal-agent-context/src/git.rs:101-104 | the scan stops at the first NUL or the end |
| `Porcelain.ParsePorcelain` | crates/seyal-agent-context/src/git.rs:89-130 | on every byte string the loop ends in bounds; a path has what the last record that names it says: ignored for `!` in either column, else untracked for `?`, else tracked, and tracked as the second path; other paths are as before |
| `Porcelain.PrintedIsReadBack` | crates/seyal-agent-context/src/git.rs:89-130 | every record list printed with a second path exactly when X is a rename or copy is read back exactly, whatever unusable bytes follow |
| `Porcelain.GitIsReadBackIff` | crates/seyal-agent-context/src/git.rs:89-130 | output with a second path for a rename or copy in either column is read back iff none is in the second column only |
| `Porcelain.UnexpectedDerails` | crates/seyal-agent-context/src/git.rs:110-120 | at the first rename in the second column only, the record loses its second path, and that path and all that follows are read as a new text |
| `Porcelain.UnexpectedEndsReadingIff` | crates/seyal-agent-context/src/git.rs:93-99 | every later record is lost iff that path has two bytes, or more with no space as the third, or one byte and no text after it that starts with a space |
| `Porcelain.UnexpectedIsMisread` | crates/seyal-agent-context/src/git.rs:94-120 | a path with a space as its third byte is read as a record of its own, which takes the next text as its second path if it starts with R or C |
| `Porcelain.UnexpectedByteIsMisread` | crates/seyal-agent-context/src/git.rs:94-120 | a path of one byte before a record with a space in its first column is read as the start of a record whose path is the rest of that record's first text, and which takes the next text too if the byte is R or C |
| `Porcelain.EverythingReadWasThere` | crates/seyal-agent-context/src/git.rs:89-130 | every byte string is the print of the records read from it, then bytes the parser stops at, up to NULs missing at its very end |

## Left out

- Process spawning, signals, pids and real clocks: child exit, end of file, read errors and expired
  waits are nondeterministic steps of the process host.
- Wake-up of waiting pushers: only what a drain or a cancel enables is proved, not that a waiting thread is
  scheduled.
- Exit evidence kept beside the stream, and reaping of the process host.
- The agent domain: it is the current binding generation of each run, and does not change during a play.
- Pipeline.ComposedPipeline: assumes the stream is shorter than 2^64 observations, because the host's ordinals
  saturate there, and delivers straight to the authority; SessionPipeline adds the commit.
- SessionPipeline.SessionPipelineHolds: the same bound on the stream; the handle the session forgets after a
  reported end is not modelled, since nothing follows it; of other runs only committed observations are, one by one.
- DeliveryConvergence.DeliveriesHoldPrefix: canonical streams are shorter than 2^64, the range of ordinals.
- AuthorityRuns.RunsKeepInv: the effect counter is unbounded, because wrapping it takes 2^64 accepted effects.
- Admission.AdmitWithBudget: token sums are unbounded, because the 64-bit sums overflow only near 2^64 tokens.
- SessionCommit.Session.CommitObservation: which payloads are oversized and whether the store accepts an append
  are inputs; the event encoding is not modelled.
- FixtureHost.FakeExecutionHost.Start: handles are unbounded, where the source saturates at 2^64.
- Digest.DigestBytes: a lane is a number below 2^64; exclusive or with a byte and wrapping multiplication are
  arithmetic on it, not bit vectors.
- Freshness.FreshBundleIsLeftAloneIff: requests without fixture items; recorded fingerprints are digest texts and
  what is read has a 64-bit length; reading a file is an arbitrary function of the source.
- Assembly.AssembleCandidates: starts from materialized candidates, so the trace entries of excluded and unreadable
  sources, which come before, are not modelled; redacted ids are marked, not digested.
- IndexCache.LoadHitsIffStoreStands: the payload encoder and the catalog fingerprint are arbitrary inputs, and
  the database is a map whose writes may be refused.
- Porcelain.ParsePorcelain: how path bytes become a path is an arbitrary function.
- Retry and deadline budgets, redaction digests, trace identifiers: single-branch code.
- File walking, symbolic links, git subprocesses, language servers, sockets, wire frames, the daemon loop and the
  terminal runtime.
