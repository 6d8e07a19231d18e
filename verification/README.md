# Verified model of the backup tool

The repository is a Go program that captures a directory tree into encrypted packs, keeps their catalogs
in a linear Git history, and copies packs and history bundles to several independent mirrors. This
project models its core in Dafny and proves what the program is for: what a completion ledger row means,
that a reset commit never appears, that history validation and catalog validation decide the same in
their fast and their simple form, that recovery finds what is there.

`dafny verify dfyconfig.toml` checks everything.

## Parts

* Publication protocol: `Model`, `Ancestry`, `Evidence`, `Stability`, `Records`, `Publication`,
  `Operations`, `StaleEvidence`, `StaleRun`. The class `Publication.Runtime` holds the durable files (transaction,
  ledger, branch) and the environment (remote branch, late pushes, mirrors). Every save may fail with or
  without effect, every create may be ambiguous, objects may be lost, other writers may push. Ghost
  evidence records what was seen on a mirror ever and since the last incident. `Operations.AnyRun` is the
  whole-run theorem over all commands.
* Capture: `CaptureSegments`, `CaptureDedup`. Recovery: `Retention`, `RecoverySearch`. Checkout: `Materialization`.
* History and catalogs: `HistoryCache`, `Transitions`, `RowMerge`, `CatalogCheck`, `Catalogs`,
  `AncestorSweep`, `ExternalSort`, `RunFiles`.
* Text formats: `Bytes`, `Canonical`, `Numbers`, `IndexText`, `ManifestText`, `PartSplitter`.
* Tables and listings: `HashTables`, `Listing`.

## Properties that fail

Every ledger row is meant to rest on evidence obtained under the current incident. Revalidating a
captured candidate after an incident (`internal/backup/incident.go:305-364`) adds the mirrors that pass
to the capture set and stamps the transaction with the new incident number, but leaves mirrors that
failed or were skipped in the set; the next commit marks data complete from that set
(`internal/backup/commit.go:228-239`) and writes their rows.

* `StaleRun.StaleRowWritten` is a run from the empty repository to such a row, for a mirror that has lost
  the part. `StaleRun.InheritedRow` goes on to a second such row, after an ordinary capture.
* The ghost sets `kept` and `stale` of `Evidence.Log` follow it mirror by mirror: `kept` are the mirrors the
  saved record keeps without a pass, `stale` those whose row was written while kept, with a capture that adds
  a part, or on top of such a row. An incident empties both; a verified or synced row is fresh again.
  `Operations.AnyRun` shows that in every run every row outside `stale` rests on evidence since the last incident.
* `StaleEvidence.RevalidatedRowExactly` is the exact condition when the audits of the revalidation are known:
  the row before is not stale, and the mirror passed or the capture adds nothing.
* Afterwards the files do not tell: `StaleEvidence.MarksHideKept`, and `StaleRun.InterruptedMarks` for a reached
  state. `StaleEvidence.FilesGuaranteeExactly` is what transaction and ledger alone guarantee: a fresh row if and
  only if there was no incident.

The external sorter is meant to give the same result for every memory setting. It reads its run files
with a scanner that drops one CR from each line (`internal/extsort/sort.go:231-239`).

* `RunFiles.SettingDecides` is an input that a unique sort accepts in one chunk and refuses in two.
* `RunFiles.SortFiles` has the exact condition: the output is a permutation of the input if and only if
  everything fits in one chunk or no line ends in a CR. All derived files of the catalog and history
  checks meet it, which their proofs show.

## Model

| member | source | states |
|---|---|---|
| Publication.Runtime.constructor | internal/backup/runtime.go:42-98 | a fresh runtime satisfies the invariant over durable files, remote, mirrors and evidence |
| Publication.Runtime.Put | internal/backup/commit.go:470-566 | a create may be acknowledged, refused or ambiguous; only an acknowledgement is evidence, and nothing else local changes |
| Publication.Runtime.Ensure | internal/backup/commit.go:568-574 | a part counts as acknowledged only after an acknowledged create or a passing audit of that key |
| Publication.Runtime.SaveTxn | internal/backup/runtime.go:221-237 | a failed save may or may not have become durable; either way the invariant holds |
| Publication.Runtime.SaveLedger | internal/backup/runtime.go:580-582 | the same for the completion ledger: rows and the ghost record of which of them are stale change together or not at all |
| Publication.Runtime.Quarantine | internal/backup/incident.go:23-42 | a new incident raises the number by one, quarantines exactly the mirror and clears every positive row in the same write, so that no stale row is left |
| Publication.Runtime.ObserveDataFailure | internal/backup/incident.go:60-112 | the ledger changes only for a conclusive failure of an object the branch head needs, and for an absent one only if the mirror acknowledged it or its row has it; if the call succeeds, every such failure leaves the mirror quarantined |
| Publication.Runtime.AuditData | internal/backup/incident.go:114-133 | a passing audit means every current pack part was seen on the mirror since the last incident |
| Publication.Runtime.ListManifests | internal/backup/metadata.go:31-95 | listed representations describe the tip and were read from the mirror |
| Publication.Runtime.AuditManifestChain | internal/backup/metadata.go:117-194 | a pass means an acceptable metadata edge for every commit from genesis, seen since the last incident |
| Publication.Runtime.AuditChain | internal/backup/incident.go:135-190 | the ledger changes only for a corrupt edge, or an absent one where the mirror acknowledged the pinned edge or the chain of its recorded revision is broken too; unless local state fails, each of these quarantines the mirror; a pass leaves the ledger alone |
| Publication.Runtime.AuditMirror | internal/backup/incident.go:192-211 | a pass means chain and data are both seen since the last incident |
| Publication.Runtime.Remark | internal/backup/commit.go:221-240 | the volatile marks of every configured mirror are recomputed from ledger and capture only |
| Records.RevalidatedGood | internal/backup/incident.go:305-364 | revalidation keeps every invariant of the transaction under the new incident number |
| Publication.Runtime.RevalidateCandidate | internal/backup/incident.go:305-364 | on success exactly the audited mirrors were added, the incident is current, what the transaction claims is backed, and the mirrors kept without a pass are exactly the rest of the capture set |
| Publication.Runtime.UploadPart | internal/backup/commit.go:488-540 | a cursor passes part i only where that mirror acknowledged it under its present object ID; with no acknowledgement every cursor stays at or before i |
| Publication.Runtime.RotateDataPart | internal/backup/commit.go:576-608 | refused once a local commit exists or a cursor has passed the part; otherwise exactly that part gets a new ID, in staging and candidate alike, data marks are withdrawn, and the saved state still satisfies the progress validator |
| Publication.Runtime.UploadDataParts | internal/backup/commit.go:470-566 | data-complete marks are set only where all parts were acknowledged or the capture and ledger say so |
| Publication.Runtime.RecordLocalCommit | internal/backup/commit.go:255-271 | the local commit is recorded over the candidate before anything is published |
| Publication.Runtime.AcceptLocally | internal/backup/commit.go:272-294 | the branch moves to the local commit by compare-and-swap and stays recoverable |
| Publication.Runtime.StageMetadata | internal/backup/commit.go:295-323 | the staged manifest describes the local commit on its base |
| Publication.Runtime.Push | internal/repository/manage.go:308-325 | sent only from the branch head; from then on the commit may land at any time, but only by a fast-forward, and nothing else that was not sent can |
| Publication.Runtime.ConfirmOrPush | internal/backup/commit.go:610-658 | success means attempted and confirmed, and confirmed means the commit is in the remote history |
| Publication.Runtime.UploadMetadataParts | internal/backup/commit.go:699-738 | metadata cursors pass only acknowledged parts; completion marks are kept |
| Publication.Runtime.UploadMetadata | internal/backup/commit.go:685-802 | rows are written only for mirrors with complete data and metadata; with metadataOnly the ledger is untouched |
| Publication.Runtime.RecordComplete | internal/backup/commit.go:760-800 | writes exactly the row for the local commit and lifts exactly that quarantine; the row is stale exactly if the one before was, or the mirror was kept without a pass and the capture adds a part |
| Publication.Runtime.RotateMetadata | internal/backup/commit.go:817-885 | nothing changes once a mirror is complete or nothing uncertain is unacknowledged; otherwise part IDs change only at uncertain parts no cursor has passed, the manifest ID only if no mirror has the manifest, hashes and cursors stay, and manifest marks are withdrawn |
| Publication.Runtime.RecordVerified | internal/backup/incident.go:213-221 | a passing audit yields exactly one row, lifts exactly one quarantine, and the row is not stale |
| Publication.Runtime.FinishSnapshot | internal/backup/commit.go:350-406 | a reported revision has a confirmed push and at least one mirror that holds all of it |
| Publication.Runtime.CommitTransaction | internal/backup/commit.go:110-348 | whatever is interrupted, the invariant holds, the record only moves forward, and a report is true |
| Evidence.ChainFromEdges | internal/backup/metadata.go:117-194 | a chain is held exactly when every edge from genesis to the commit is |
| Evidence.ExcludedStable | internal/backup/reset.go:32-82 | a commit shut out of the remote stays out whatever the environment does, late pushes included |
| Stability.GoodStable | internal/backup/commit.go:110-348 | a good transaction stays good while the environment acts and evidence grows |
| Stability.GoodAfterIncident | internal/backup/incident.go:23-42 | an incident elsewhere keeps every transaction good, with all evidence outdated |
| Stability.ReadyComplete | internal/backup/commit.go:760-800 | data and metadata claims under the current incident add up to a complete revision |
| Ancestry.HistoryLinear | internal/repository/history_validate.go:125-164 | two ancestors of one commit are ordered: accepted histories have no merges |
| Ancestry.BlockedStable | internal/backup/reset.go:48-82 | a remote that took another branch still blocks the commit after any fast-forward |
| Operations.UploadCapturedPart | internal/backup/capture.go:314-361 | the surviving mirrors are exactly ones that acknowledged the part, and none was added |
| Operations.CapturePack | internal/backup/capture.go:129-164 | every mirror left in the capture set acknowledged every recorded part |
| Operations.RevalidateCapture | internal/backup/incident.go:248-275 | the capture set is replaced by configured, captured mirrors complete for the base, each with every captured part seen since the last incident; without an incident by all of them |
| Operations.FinalizeCapture | internal/backup/capture.go:363-395 | an unchanged candidate ends the transaction; a captured part in the place of a base part is refused; otherwise the saved candidate is base and captured parts, with data marks exactly for the captured mirrors |
| Operations.CapturePlan | internal/backup/capture.go:26-120 | any interruption of a capture leaves a transaction whose claims are backed |
| Operations.Commit | internal/backup/commit.go:17-108 | the command keeps the invariant and reports only revisions that are published and held |
| Operations.VerifyPass | internal/backup/verify.go:53-88 | a pass without new incidents passes only mirrors with full evidence; a broken pass quarantined one more configured mirror |
| Operations.Verify | internal/backup/verify.go:12-103 | the restart loop always decides within one pass more than there are mirrors, the closing error being unreachable; recorded mirrors passed an incident-free pass and have fresh rows |
| Operations.CopyObject | internal/backup/sync.go:236-261 | success means the destination was seen to hold the object, since the last incident |
| Operations.RecordSync | internal/backup/sync.go:154-183 | success means both ends passed an audit of the whole revision and both rows were written together; without an incident the ledger is unchanged or has exactly those rows |
| Operations.SyncRowOk | internal/backup/sync.go:190-226 | recording a sync keeps the ledger well-formed, and a row for the audited revision is fresh |
| Operations.SyncRowMoves | internal/backup/sync.go:190-226 | only the row and quarantine of the one mirror change; a row only moves forward along the history, the quarantine is lifted only by a sync of the tip, and it fails exactly where the recorded revision left that history |
| Operations.Sync | internal/backup/sync.go:15-188 | the command keeps the invariant and the record only moves forward |
| Operations.PushRejected | internal/backup/reset.go:48-72 | a rejected push can never enter the remote history any more |
| Operations.FinishReset | internal/backup/reset.go:120-177 | clearing the transaction moves the branch back to the base and abandons a commit that can never be published |
| Operations.Reset | internal/backup/reset.go:14-87 | if the transaction is gone, its local commit is abandoned: not in the remote history, now or later |
| Operations.PrepareForwardRepair | internal/backup/forward_repair.go:12-97 | the transaction is retired only if its commit is published and one mirror holds its whole metadata chain |
| Operations.RelocatedGood | internal/backup/repair.go:119-154 | moving a part to a new object ID extends the candidate and keeps all cursors true |
| Operations.RepairDataPart | internal/backup/repair.go:14-165 | repair keeps the invariant and reports only held revisions |
| Operations.AdoptedGood | internal/backup/metadata_repair.go:163-193 | adopting the pending edge keeps cursors and marks true for the adopted representation |
| Operations.RepairMetadataEdge | internal/backup/metadata_repair.go:20-199 | success means the mirror holds the edge, seen since the last incident |
| Operations.InvariantIsSafe | internal/backup/runtime.go:358-402 | the invariant implies the safety statement: rows and quarantine disjoint, rows complete without object loss, abandoned commits unpublished, never resetting and attempted at once, cursors backed |
| Operations.AnyRun | internal/backup/commit.go:17-108 | every state of every run of add, commit, verify, sync, reset and repair, each interrupted anywhere, is safe |
| StaleEvidence.ResumeMarksKept | internal/backup/incident.go:305-364 | after a revalidation the next commit newly marks exactly the kept mirrors that are recorded complete for the base |
| StaleEvidence.KeptAreUnmarked | internal/backup/incident.go:318-362 | in the record that the revalidation itself saves, the kept mirrors are the captured ones not marked data-complete |
| StaleEvidence.RowFreshExactly | internal/backup/commit.go:760-800 | given the kept mirrors and the stale rows, the row about to be written is sure to rest on evidence since the last incident if and only if the row before it is not stale and the mirror was not kept or the capture adds no part the base lacks |
| StaleEvidence.RevalidatedRowExactly | internal/backup/incident.go:318-362 | the same in terms of the audits: the row before it is not stale, and the mirror passed the revalidation or the capture adds nothing |
| StaleEvidence.MarksHideKept | internal/backup/commit.go:470-484 | whichever captured mirrors passed, the record saved with the next marks is the same, so the files do not tell afterwards |
| StaleEvidence.FilesGuaranteeExactly | internal/backup/commit.go:760-800 | whatever was kept before, transaction and ledger guarantee a row on evidence since the last incident if and only if there was no incident |
| StaleEvidence.DueRowFresh | internal/backup/commit.go:228-239 | on top of a row that is not stale, the new row is complete on current evidence exactly when every captured part was seen on the mirror since the last incident |
| StaleRun.StaleRowWritten | internal/backup/incident.go:305-364 | a run from the empty repository in which the rule fails: an incident, a lost part, a revalidation that one mirror fails, a crash, and then a ledger row for that mirror, which lacks the part |
| StaleRun.InterruptedMarks | internal/backup/commit.go:470-484 | a reached state in which every captured mirror complete for the base is marked under the current incident, although one was kept without a pass and lacks the part |
| StaleRun.InheritedRow | internal/backup/capture.go:26-120 | the run goes on: an ordinary capture that keeps nothing writes a further row for that mirror, which still lacks the part |
| StaleRun.MarkedOnce | internal/backup/commit.go:228-253 | recomputing the marks of a record without staged parts twice is recomputing them once |
| CaptureSegments.Partition | internal/backup/transaction_files.go:350-422 | in a valid chain every captured plan position lies in exactly one segment |
| CaptureSegments.OneRow | internal/backup/dedup_index.go:152-196 | no plaintext hash has two object rows in the base and the segments together |
| CaptureSegments.ValidateCaptureSegments | internal/backup/transaction_files.go:350-422 | accepts exactly the chains that match the recorded progress, link by link |
| CaptureSegments.Capture.WriteCaptureSegment | internal/backup/transaction_files.go:274-348 | wherever it stops, the durable chain is valid; success appends the segment and its objects |
| CaptureSegments.Capture.Resume | internal/backup/dedup_index.go:152-196 | resuming knows exactly the base objects and those of recorded segments |
| CaptureSegments.Capture.ClosePack | internal/backup/capture.go:146-164 | everything before the given position becomes durable, with the open pack |
| CaptureSegments.Capture.ProcessPlanned | internal/backup/capture.go:175-292 | every captured file has its content in the base, the recorded segments or the open pack, under the same size |
| CaptureSegments.Capture.Run | internal/backup/capture.go:293-298 | a completed run covers the whole plan; any other leaves a valid chain |
| CaptureSegments.AnyRuns | internal/backup/capture.go:121-298 | any pattern of interrupted runs keeps the durable invariant |
| CaptureDedup.FewObjects | internal/backup/capture.go:175-292 | a segment has at most as many object rows as plan positions |
| CaptureDedup.RowsWithinPlan | internal/backup/dedup_index.go:152-161 | all recorded segments together have at most as many object rows as plan positions dealt with |
| CaptureDedup.ListKnown | internal/backup/dedup_index.go:172-193 | the rows to insert are those of the base and the recorded segments, at most base objects plus plan positions |
| CaptureDedup.PrepareCaptureDedup | internal/backup/dedup_index.go:152-196 | the planned table takes every row, whatever runs were interrupted, and then answers exactly as base and recorded segments do |
| Retention.KeepsStep | internal/backup/recover.go:454-484 | one more verified history keeps: either the last tip is retained and above all others, or two tips are apart |
| Retention.AmbiguousExactly | internal/backup/recover.go:404-466 | ambiguity is recorded exactly when at least two verified tips are maximal; otherwise the maximal one is the retained one |
| Retention.MaximalAbove | internal/backup/recover.go:665-688 | every verified tip lies below a maximal one |
| Retention.VerifyCandidates | internal/backup/recover.go:399-491 | verified tips are usable, in order, and cover every usable candidate |
| Retention.Retain | internal/backup/recover.go:454-481 | the retained repository is replaced or dropped so that the loop invariant holds |
| Retention.MaximalVerified | internal/backup/recover.go:665-688 | marking ancestors finds exactly the maximal tips, in order |
| Retention.SelectRecovery | internal/backup/recover.go:176-202 | a selected tip is the retained one and contains every usable tip; ambiguity means two usable tips on different branches; nothing is found only if nothing is usable |
| RecoverySearch.GroupEdges | internal/backup/recover.go:287-318 | edges are the distinct identities; alternatives are exactly the candidates of each |
| RecoverySearch.TailShort | internal/backup/recover.go:329-331 | a path never holds more edges than there are, so the path-length error is unreachable |
| RecoverySearch.Walk | internal/backup/recover.go:323-357 | the walk adds each path to its edge once, at its exact cost within the budgets, or gives up because a budget is exceeded |
| RecoverySearch.LogicalPaths | internal/backup/recover.go:358-363 | returns exactly the full-to-tip chains with contiguous sequences and matching identity, each once; it gives up if and only if the search exceeds a budget |
| RecoverySearch.RecoveryLogicalPaths | internal/backup/recover.go:287-364 | the same from the candidates, with a nonempty list of alternatives for every edge; it gives up if and only if the search over the distinct edges exceeds a budget |
| RecoverySearch.Attempt | internal/backup/metadata.go:500-534 | an attempt imports the chosen representations up to the first failure |
| RecoverySearch.MaterializeChain | internal/backup/metadata.go:464-556 | succeeds iff every edge has a usable alternative within the attempt limit; picks the first usable one everywhere; needs one attempt more than it rejects |
| RecoverySearch.WithinLimit | internal/backup/metadata.go:478-486 | the attempts stay within one plus the sum of spare alternatives |
| HistoryCache.CompactMirrorTopology | internal/repository/history_validate.go:197-258 | succeeds iff every mirror name keeps one binding, and returns the distinct rows in order |
| HistoryCache.CompactsOnce | internal/repository/history_validate.go:226-246 | the result depends only on which rows there are |
| HistoryCache.PrefixIsPast | internal/repository/history_validate.go:96-105 | where a cached commit stands at its position, the listed prefix is the cached history |
| HistoryCache.CheckLink | internal/repository/history_validate.go:129-158 | accepts exactly a genesis without parent or a valid step from the commit listed before |
| HistoryCache.TryAnchor | internal/repository/history_validate.go:96-123 | a genuine cache is used exactly when its commit still stands at its position, and leaves the run where validation from genesis would |
| HistoryCache.ValidateHistory | internal/repository/history_validate.go:91-195 | with or without a genuine cache the same histories are accepted and the same tip, transition, format, count and topology reported |
| HistoryCache.ReportsOnce | internal/repository/history_validate.go:182-185 | the report is determined by the history |
| HistoryCache.WrittenCacheIsGenuine | internal/repository/cache.go:83-107 | the cache written after acceptance is genuine |
| HistoryCache.GenuineStays | internal/repository/cache.go:66-81 | a genuine cache stays genuine while objects are added |
| HistoryCache.OneBinding | internal/repository/history_validate.go:230-246 | an accepted history never rebinds a mirror name |
| HistoryCache.AcceptedIsHistory | internal/repository/history_validate.go:126-166 | the states of an accepted history are each valid and linked by allowed steps |
| HistoryCache.AcceptedPreserves | internal/repository/stream_transition.go:87-139 | in an accepted history object rows survive unchanged in every later state, pack rows up to their object ID |
| HistoryCache.AcceptedReadable | internal/repository/pack_delta.go:109-156 | any snapshot of an accepted history can be read through any later catalog |
| AncestorSweep.ParentSeen | internal/format/metadata.go:240-250 | finds a listed proper parent iff one exists |
| AncestorSweep.ValidateIndexOrder | internal/format/metadata.go:231-254 | accepts iff paths rise strictly and none is a parent of another |
| AncestorSweep.HexOrder | internal/repository/stream_state.go:307-312 | hex encoding keeps order and identity |
| AncestorSweep.Interval | internal/repository/stream_state.go:307-312 | the interval from p/ to p0 holds exactly the paths below p |
| AncestorSweep.ActiveCounts | internal/repository/stream_state.go:423-449 | the counter is the number of opened minus closed intervals |
| AncestorSweep.SweepDecides | internal/repository/stream_state.go:423-458 | an event is refused iff it is a path below another; the ordering errors cannot happen |
| AncestorSweep.NoAncestorStream | internal/repository/stream_state.go:388-398 | events, sort and sweep accept iff no path is above another, for every sorter setting |
| Catalogs.PacksLocal | internal/format/metadata.go:389-413 | the neighbour conditions say exactly that every pack is complete, in order, and followed by a larger hash |
| Catalogs.ValidatePackSequence | internal/format/metadata.go:389-413 | the look-ahead check accepts exactly the complete catalogs |
| Catalogs.WalkPacks | internal/format/stream.go:137-173 | the one-pass check accepts exactly the same |
| Catalogs.PackKeysRise | internal/format/stream.go:137-173 | (pack, part number) rises strictly through an accepted catalog |
| Catalogs.ListPackHashes | internal/repository/stream_state.go:350-363 | each pack hash once, in order |
| CatalogCheck.CollectObjects | internal/format/metadata.go:504-513 | succeeds iff rows are valid and strictly sorted; the map looks up exactly the rows |
| CatalogCheck.ValidateCatalogs | internal/format/metadata.go:497-540 | accepts exactly the consistent catalogs |
| CatalogCheck.MergeIndexObjects | internal/repository/stream_state.go:481-511 | the merge accepts iff every reference has an object row of its size |
| CatalogCheck.MergeObjectPacks | internal/repository/stream_state.go:513-538 | the merge accepts iff every object names a listed pack |
| CatalogCheck.SortRows | internal/repository/stream_state.go:377-395 | a derived file sorted by first field keeps exactly its rows |
| CatalogCheck.ValidateStreamCatalogs | internal/repository/stream_state.go:268-406 | the bounded-memory validator accepts exactly the consistent catalogs, for every sorter setting |
| RowMerge.MergeExtension | internal/repository/stream_transition.go:249-286 | accepts iff no old row was lost or altered, and finds exactly the added rows |
| RowMerge.AddedHas | internal/repository/stream_transition.go:280-283 | added rows are those of the new catalog that the old one lacks |
| Transitions.IsRepair | internal/repository/stream_transition.go:87-139 | relocation iff only packs.tsv differs, row by row, in object IDs |
| Transitions.NotExtended | internal/repository/stream_transition.go:216-219 | a complete pack cannot gain parts, so that error is unreachable |
| Transitions.MergePacks | internal/repository/stream_transition.go:188-230 | accepts iff every old row survives; lists exactly the added packs |
| Transitions.RequireNewPackReferences | internal/repository/stream_transition.go:316-348 | accepts iff the packs named by added objects are the added packs |
| Transitions.ValidateOrdinaryExtension | internal/repository/stream_transition.go:141-247 | accepts iff rows only grow and added packs and added objects name each other |
| Transitions.MirrorIdentity | internal/repository/state.go:108-119 | accepts iff no mirror name is rebound between neighbours |
| Transitions.ValidateTransition | internal/repository/stream_transition.go:19-57 | ordinary, repair or invalid, each exactly under its condition |
| Transitions.WalkChangedPacks | internal/repository/pack_delta.go:17-94 | visits exactly the rows the candidate does not share with its base, or refuses |
| Transitions.ValidateCatalogStateForSnapshot | internal/repository/pack_delta.go:107-156 | accepts iff every snapshot row is in the alternate up to its object ID |
| Transitions.HistoryPreserves | internal/repository/stream_transition.go:19-57 | object rows survive all later states unchanged, pack rows up to their object ID |
| Transitions.SnapshotReadable | internal/repository/pack_delta.go:107-156 | any snapshot of a validated history can be read through any later catalog |
| Transitions.ChangedBetween | internal/repository/pack_delta.go:14-94 | between neighbours the walk succeeds and visits exactly the added or relocated rows |
| Materialization.Checkout.AcceptCommit | internal/repository/manage.go:285-298 | the branch moves only from where it is expected |
| Materialization.Checkout.DeleteHead | internal/repository/manage.go:300-306 | the branch is deleted only from where it is expected |
| Materialization.Checkout.ResetIndex | internal/repository/manage.go:537-551 | the index is left or moved to the target |
| Materialization.Checkout.PlaceBlobs | internal/repository/manage.go:472-506 | all seven blobs become those of the target; other files are untouched |
| Materialization.Checkout.RecoverMaterialization | internal/repository/manage.go:456-532 | without an intent nothing changes; otherwise the intent survives or worktree, branch and index stand at the target |
| Materialization.Checkout.ApplyCommit | internal/repository/manage.go:397-416 | without a durable intent nothing changed; success means the target is reached |
| Materialization.ConvergeAfterCrashes | internal/repository/manage.go:394-416 | after any crashes the first uninterrupted recovery reaches the target and a further one is a no-op |
| ExternalSort.RunRoundTrip | internal/extsort/sort.go:173-239 | a run is read back as written iff no record holds an LF or ends in a CR |
| RunFiles.Spill | internal/extsort/sort.go:62-88 | a spilled run file is the sorted chunk; a unique spill fails only on a repeated key |
| RunFiles.MergeRuns | internal/extsort/sort.go:267-328 | the merged file holds exactly the lines scanned from the run files, sorted if each of them scans sorted; it fails only on a line without a key or, if unique, on a repeated key |
| RunFiles.MergePass | internal/extsort/sort.go:136-153 | a pass writes exactly the scanned lines and strictly lowers the number of files |
| RunFiles.SortFiles | internal/extsort/sort.go:44-155 | for every memory and open-file setting the output holds the lines of all inputs less one CR per merge pass; it is a permutation of them if and only if all fit in one chunk or no line ends in a CR; then it is sorted, and unique succeeds iff all keys differ; otherwise it fails only on lines that cannot be sorted or at a pass that reads a line without a key or, if unique, a key twice |
| ExternalSort.MergeRecords | internal/extsort/sort.go:276-323 | the merge of record lists is their sorted union; a unique merge lets no repeated nonempty key through and fails only on a repeated key |
| RunFiles.SpillRuns | internal/extsort/sort.go:89-133 | the run files hold all lines, each file sorted; there is at most one exactly when all lines fit in one chunk |
| RunFiles.SurvivesExactly | internal/extsort/sort.go:231-239 | lines survive the merge passes exactly when there is none or no line ends in a CR |
| RunFiles.SettingDecides | internal/extsort/sort.go:173-239 | two lines with different keys that a unique sort accepts in one chunk and refuses in two, because the merge reads one without its CR; without unique the sort of two chunks succeeds and loses the CR |
| RunFiles.SortLines | internal/extsort/sort.go:44-155 | on lines without LF and CR, as all derived files have, every setting gives the sorted permutation and unique succeeds iff all keys differ |
| HashTables.Capacity | internal/backup/dedup_index.go:25-36 | a power of two, at least twice the entries and less than four times |
| HashTables.MaskIsRemainder | internal/backup/dedup_index.go:100-104 | masking with a capacity that is a power of two is taking the remainder |
| HashTables.WhereEmpty | internal/backup/dedup_index.go:102-126 | with fewer entries than slots the probes of every key meet an empty slot |
| HashTables.Placed | internal/backup/dedup_index.go:63-84 | filling the first empty slot of a new key adds it to the map the slots refine |
| HashTables.Table.Find | internal/backup/dedup_index.go:91-127 | ends at the key or at an empty slot; running out of slots is unreachable |
| HashTables.Table.Add | internal/backup/dedup_index.go:63-84 | extends the map, failing exactly when the planned load is used up |
| HashTables.Contains | internal/backup/dedup_index.go:86-89 | present, absent or conflict exactly as hash-to-size says |
| HashTables.Insert | internal/backup/dedup_index.go:63-84 | refines the map update, with its two failures characterized |
| HashTables.InsertAll | internal/backup/dedup_index.go:140-150 | planned inserts never fail for space, only on conflicting sizes |
| HashTables.NewObservationIndex | internal/backup/observations.go:27-102 | building over unique rows never fills the table and indexes exactly the file rows |
| HashTables.Lookup | internal/backup/observations.go:104-138 | finds a file row iff that path has one |
| Listing.MergeListingEntries | internal/s3server/server.go:1165-1198 | the strict union of both lists, whatever the repetitions |
| Listing.ListingIndex.AddListingObject | internal/s3server/server.go:1139-1163 | overflow iff the distinct keys exceed the ceiling, never because of duplicates |
| Listing.PrefixBlock | internal/s3server/server.go:1216-1229 | keys with a prefix stand together from the first key not below it |
| Listing.ListingIndex.SelectObjects | internal/s3server/server.go:1200-1232 | the first keys with the prefix after the given key, or an error iff overflowing |
| Listing.SkippedHasNone | internal/s3server/server.go:1039-1042 | a skipped namespace holds no key with the prefix |
| Listing.JoinFirst | internal/s3server/server.go:1249-1253 | the first keys of disjoint namespaces, joined and cut, are the first keys of all |
| Listing.Server.Add | internal/s3server/server.go:1026-1037 | a key goes to its namespace or is not listed |
| Listing.Server.WalkObjects | internal/s3server/server.go:1234-1254 | the first matching keys of all namespaces together |
| Listing.Server.Page | internal/s3server/server.go:981-1005 | a page is the first matching keys with a correct continuation token; an error only where a namespace overflows |
| Listing.Server.ListAll | internal/s3server/server.go:946-1005 | following tokens lists every stored key with the prefix exactly once, in order |
| Listing.Server.ListWhileAdding | internal/s3server/server.go:981-1005 | with any puts between the pages: only stored keys with the prefix, in order and so none twice, and after the last page every key stored from the start |
| Canonical.Utf8Cut | internal/format/canonical.go:120-126 | UTF-8 validity splits at any ASCII byte |
| Canonical.ScanRows | internal/format/canonical.go:100-159 | reading succeeds exactly on readable texts and returns all rows |
| Canonical.MarshalRows | internal/format/canonical.go:171-189 | printing succeeds exactly on printable rows |
| Canonical.ReadPrinted | internal/format/canonical.go:100-189 | printed rows are readable iff within the limits, and read back unchanged |
| Canonical.PrintRead | internal/format/canonical.go:100-189 | a readable text is the print of its rows; they could have been printed unless a field starts with a byte order mark |
| Numbers.ValueOrder | internal/format/canonical.go:236-264 | for digit strings of one length byte order is numeric order |
| Numbers.ParseUintExact | internal/format/canonical.go:214-249 | a text parses to n iff n is in range and the text is how n prints |
| Numbers.ParseInt64Exact | internal/format/canonical.go:225-267 | the same for signed 64-bit numbers, both limits included |
| IndexText.RowExact | internal/format/stream.go:60-95 | a row parses to an entry iff it is that entry's row |
| IndexText.RowPrintable | internal/format/metadata.go:164-172 | every valid entry's row is printable |
| IndexText.MarshalIndex | internal/format/metadata.go:174-187 | succeeds exactly on well-formed indexes |
| IndexText.WalkIndex | internal/format/stream.go:38-58 | parses all rows iff each parses and paths rise strictly |
| IndexText.ParseIndex | internal/format/metadata.go:189-201 | a text parses to exactly the well-formed index it spells |
| IndexText.RoundTrip | internal/format/metadata.go:174-201 | a printed index parses back iff it is within the limits |
| ManifestText.Validate | internal/format/manifest.go:157-204 | accepts exactly the valid manifests; the overflow test decides nothing else |
| ManifestText.ParseManifestRows | internal/format/manifest.go:95-154 | rows parse to exactly the valid manifest they describe |
| ManifestText.PartRowBytes | internal/format/manifest.go:13-17 | the exact length of a part row, at least 271 with its LF |
| ManifestText.PartCeiling | internal/format/manifest.go:13-17 | whatever fits the byte ceiling fits the part ceiling |
| ManifestText.MarshalText | internal/format/manifest.go:40-66 | succeeds iff the manifest is valid and its text fits |
| ManifestText.ParseMetadataManifest | internal/format/manifest.go:84-155 | a text parses to exactly the valid manifest it spells within the clamped limits |
| ManifestText.ManifestRoundTrip | internal/format/manifest.go:40-82 | every manifest that can be written is read back unchanged |
| ManifestText.TextRoundTrip | internal/format/manifest.go:40-155 | every accepted text is what its manifest prints as |
| PartSplitter.SplitFlatten | internal/pack/stream.go:346-398 | parts concatenate to the input; all but the last have exactly the part size, none is empty |
| PartSplitter.SplitFull | internal/pack/stream.go:346-398 | full parts and an open one are the split of their concatenation |
| PartSplitter.RecordRead | internal/pack/stream.go:203-232 | a written record is read back as its part |
| PartSplitter.WalkClosed | internal/pack/stream.go:203-293 | walking the catalog of a closed sink gives exactly one row for each part of the split input, in order, with its digests and size |
| PartSplitter.WalkParts | internal/pack/stream.go:234-293 | an intact catalog yields exactly the recorded parts; whatever is accepted is one complete pack |
| PartSplitter.PartSink.Write | internal/pack/stream.go:346-398 | appends the data whatever lengths the writes report |
| PartSplitter.PartSink.FinishPart | internal/pack/stream.go:419-455 | the open part is catalogued under its number, digests, size and ID |
| PartSplitter.PartSink.Close | internal/pack/stream.go:457-480 | the parts are the split of all bytes, independent of how they were written |

## Left out

- Cryptographic hashes, encryption, compression, tar: hashes are taken to be injective, contents abstract.
- Git object storage, bundles and fsck: commits, parents, refs, fast-forward pushes and which histories validate are kept.
- S3 client, TLS, HTTP, signatures, XML and base64 tokens: only create dispositions, audit outcomes and keys are kept.
- File system details (fsync order, locks, permissions, temporary files): replacement is atomic, failures may or may not take effect, an operation lock is held.
- Source scanning and ignore rules, restore, key-chain rules, command line, progress output: not part of this model.
- Clocks and randomness: fresh object IDs are arbitrary numbers, commits carry a stamp that makes new ones distinct.
- Mirror reconfiguration during a run: `Publication.Runtime` has one fixed list of configured mirrors.
- Publication.Runtime.SaveTxn: failure-injection checkpoints are folded into the ambiguous outcome of a save.
- Operations.Reset: does not model the variant for an initial genesis (`internal/backup/reset.go:89-118`), because it only adds an easier case.
- Operations.Verify: does not model the full content audit option, because it only strengthens the evidence of a pass.
- RunFiles.Spill: the chunk holds the lines, because the key of a record is a function of it.
- RunFiles.SortFiles: does not model the line-length limit, because callers pass limits that their derived lines meet; the loop over the merge passes is the tail-recursive `RunFiles.MergeAll`.
- RunFiles.MergeRuns: reads each file before it merges, because only the finished output is kept and any failure ends the sort.
- StaleRun.StaleRowWritten: its events state the durable steps of the commands once more as functions of the saved records, because methods with arbitrary outcomes cannot be made to take a given one.
- HistoryCache.ValidateHistory: the loop over the listed commits is the tail-recursive `HistoryCache.WalkHistory`; the enumeration is required to list parents before children, as `rev-list --topo-order --reverse` does.
- HistoryCache.TryAnchor: JSON decoding and the size bound of the cache file are not modelled, because without a cache validation starts at genesis.
- Transitions.ValidateTransition: works on parsed rows, because the field texts of canonical rows determine them (`IndexText.RowExact` shows this for index rows).
- CatalogCheck.ValidateStreamCatalogs: requires the 64-bit width of index sizes, and leaves out the overflow test of the interval counter, because that many rows cannot be stored.
- IndexText.ParseIndex: the path check through `path.Clean` is left out, because the component check implies it.
- CaptureSegments.Capture.ProcessPlanned: leaves out warning counters and their overflow tests, because they do not touch segments; mirrors are covered by `Operations.CapturePack`.
- CaptureSegments.Capture.WriteCaptureSegment: pack rows are left out, because they follow the object rows of the segment.
- RecoverySearch.MaterializeChain: whether an import succeeds is a function of edge and representation, because equivalent representations rebuild the same commits.
- RecoverySearch.LogicalPaths: the order of the paths is left out.
- Retention.VerifyCandidates: which tips have a usable path is a parameter, and the materialization budget is left out, because exceeding it only ends the command with an error.
- HashTables.Lookup: the stored digest is a function of the path, so comparing paths covers comparing digests.
- Listing.ListingIndex.AddListingObject: sizes of objects are left out, because a key never changes its object; the mutex makes every operation atomic.
- Listing.Server.Page: a page is one step, although other puts may come between its three namespaces, because each namespace is read under its own lock.
- Listing.Server.ListAll: the initial scan of the storage directory is left out, because it only fills the lists.
- PartSplitter.WalkParts: the hash of the catalog file is left out, because an intact file is stated directly.
- Materialization.Checkout.RecoverMaterialization: parsing of the intent file is left out, because it is written and replaced atomically.
- Manifest keys, mirrors.tsv, FORMAT and ignore texts: their printers and parsers would only add easier round trips.
