# Verified model of truenas-jbod-ui

A Dafny model of the parts of truenas-jbod-ui whose correctness is a property of whole runs or of all inputs, with
proofs of those properties. `dafny verify dfyconfig.toml` checks everything.

- **Segmented history** (`HistorySealing`, `MigrationDisk`, `MigrationSafety`, `MigrationRecovery`, `MigrationHost`,
  `MigrationSessions`). Sealing a segment and staging the hot database split the rows at a UTC midnight. Migration,
  rollback, cleanup and recovery are sequences of atomic file changes; a crash may fall between any two, an exception
  may be raised at any step, and recovery may itself be interrupted. A digest is taken to identify the bytes.
  `MigrationHost` has the commands as methods whose every change is checked against the guards the code has
  established, so the lemmas over change sequences apply to every run of every command.
- **History collector** (`SlotRecords`, `TopologyDebounce`, `DebounceRuns`, `DebounceLimits`, `DegradedScans`,
  `RetentionWait`). Topology debouncing and where it stops holding, admission of degraded scans, and the bounded wait
  for a backup before retention prunes.
- **Bounded traceback** (`Traceback`). The explicit-stack renderer against a recursive one, on any exception graph.
- **Bulk history reads** (`ReadPlan`, `JsonSize`). The planner, the store's second check, the row count of the executor,
  and the byte count a response states about itself, against an independent serializer and UTF-8 encoder.
- **Live settings** (`SettingsReload`, `Generations`, `ExportCache`, `SystemIds`). The reload state machine, the chain of
  settings generations, the generation-scoped LRU cache, and the identifiers of configured systems.
- **Shared scans and safe JSON** (`SummaryScans`, `ScanLoops`, `ScriptJson`).

`Wrappers` and `PythonText` hold what the modules share.

## Where the code differs from what it promises

Each of these is a lemma with the failing case, or an exact condition, in the model.

- Rows whose timestamp SQLite cannot read, or that are null, survive both deletes and end up in segment and hot
  database. The schema forbids null timestamps and the seal refuses unreadable ones, which is the exact condition
  (`SealingPartitionsExactlyWhenPlaced`).
- A crash between linking `catalog.json` and dropping its `.catalog-*` temporary is finalized by recovery, but the
  temporary stays in the directory. A later rollback restores the source, then refuses its cleanup and keeps the marker
  until the file is removed by hand (`CatalogLinkCrashLeavesUncleanDirectory`). A dry run of recovery does not look for
  such files and announces a recovery that is then refused (`DryRunMissesJsonTemporaries`).
- The guard for degraded scans looks up stored bays by the scope's enclosure, but a slot may carry an enclosure of its
  own and is then stored elsewhere, unchecked. The guard works exactly for scopes whose slots stay within them
  (`GuardProtectsExactlyWithinScope`).
- A pass that lists a slot twice confirms a change by itself. Debouncing holds exactly for passes with unique slots
  (`DebouncesExactlyUniqueSlots`).
- A record that is the first to bring extended fields for its slot is stored without being compared, a new topology
  label included (`BackfillIsStoredAtOnce`). A second sighting, or another disk, is guaranteed exactly for the records
  that are not such a backfill with a new topology (`SeenTwiceExactlyWithoutBackfill`).
- The wait for a backup is counted from the moment the newest backup went stale. When no pass ran for longer than the
  window after that, the first pass that opens the wait may prune at once (`PrunesExactlyAfterTheWindow`).
- Semaphore and scan in flight are dropped when another event loop calls. One unfinished scan per generation on a loop
  holds exactly for callers that never return to a loop they have left (`SharesPerLoopExactlyWhenNeverReturning`).
- A zoned cutoff whose instant lies outside the calendar raises an overflow in the conversion to UTC instead of the
  error for bad cutoffs (`CutoffIsTheUtcMidnightBefore`).

## Reading the model

- `julian` in the sealing modules is SQLite's reading of a timestamp text. The only facts used about it are stated where
  they are needed: it reads every UTC midnight of the calendar (`ReadsMidnights`), and for two timestamps that it
  reads it never reverses the order of their instants (`KeepsOrder`).
- A database image is its rows and a physical layout, so two images with equal rows can still have different digests;
  `Torn` is a file whose write has not finished.
- `script_safe_json_text` is documented for JSON text, and there keeps every token. For any other text the model says
  what the rewriting is read as (`RewriteReadsLeniently`): only a text that escapes one of the six characters can become
  JSON (`RewriteKeepsTokensUnlessEscaped`, `InvalidEscapeBecomesValid`).
- `raises` is the fault oracle of a command: it may raise at any of its steps. A command that raises there behaves as the
  `except` blocks of the source say.
- Times are integers. `since` of a bulk read is the instant its text names, if it names one with a time zone.
- Absent values are `Option`; exceptions are `Result`, `Option` or a result datatype.
- The store of slot states is a map by system, enclosure and slot; reading it yields what was last written.

## Model

| member | source | states |
|---|---|---|
| `HistorySealing.CutoffIsTheUtcMidnightBefore` | history_service/segment_sealer.py:37-43 | a cutoff is accepted exactly if it is zoned and its instant lies in the calendar, and then becomes the latest UTC midnight not after it; normalizing again changes nothing |
| `HistorySealing.DeletesPartition` | history_service/segment_sealer.py:173-199 | the two deletes together keep every row once, and twice exactly the rows whose timestamp SQL cannot compare |
| `HistorySealing.SealingPartitionsExactlyWhenPlaced` | history_service/segment_migration.py:358-368 | segment and hot database together hold exactly the original rows, with current slot state only in hot, if and only if SQL can place every row |
| `HistorySealing.PlacedRowsLandOnOneSide` | history_service/segment_sealer.py:183-199 | each placed row is on exactly one side, decided by the cutoff, and the row counts of the two sides add up |
| `HistorySealing.SuccessfulSealConserves` | history_service/segment_sealer.py:173-199 | a source whose timestamps are non-null and readable is partitioned without loss or duplication |
| `HistorySealing.HistoryCoverage` | history_service/segment_sealer.py:46-65 | the running scan over the three tables finds the earliest and latest instant, first occurrence on ties, or else returns exactly the error of the first unreadable timestamp |
| `HistorySealing.SealCopy` | history_service/segment_sealer.py:173-207 | succeeds exactly when some row lies before the cutoff and every timestamp is readable, with the pruned rows, their coverage and counts; otherwise the error of the first unreadable timestamp, or that nothing lies before the cutoff |
| `HistorySealing.SegmentEndsBeforeTheHotRows` | history_service/segment_sealer.py:173-207 | for a SQLite reading that keeps the order of instants, every sealed row, and the latest instant of the coverage, lies before the cutoff and before every row that stays hot |
| `HistorySealing.PruneSegment` | history_service/segment_sealer.py:183-191 | the three deletes and the removal of slot state leave the segment side |
| `HistorySealing.PruneHot` | history_service/segment_migration.py:358-368 | the three deletes leave the hot side with the slot state |
| `MigrationDisk.EveryChangeKeepsInv` | history_service/segment_migration.py:709-1228 | every guarded atomic change of migration, rollback, cleanup and recovery keeps the disk invariant, per marker phase |
| `MigrationDisk.EveryRunKeepsInv` | history_service/segment_migration.py:709-1228 | the invariant holds after every prefix of every sequence of guarded changes, so after a crash anywhere |
| `MigrationSafety.CommittedRowsAreStable` | history_service/segment_migration.py:709-831 | no atomic change other than a service write or the two rollback decisions changes the rows the history is committed to |
| `MigrationSafety.RunKeepsCommittedRows` | history_service/segment_migration.py:709-1228 | over a whole run of such changes no row is lost or added |
| `MigrationSafety.ForwardMigrationIsCrashSafe` | history_service/segment_migration.py:709-831 | after any run from an unmigrated history: without a marker either the v1 bytes and no catalog, or a complete catalog whose segment and hot rows equal the original rows; with a marker the snapshot still holds the v1 bytes |
| `MigrationSafety.RollbackIsAtomic` | history_service/segment_migration.py:914-1016 | after any run of rollbacks and recoveries: without a marker exactly the segmented state or exactly the v1 bytes; only catalogued files go, and only once the source equals the snapshot |
| `MigrationSafety.CatalogLinkCrashLeavesUncleanDirectory` | history_service/segment_migration.py:381-420 | a crash between linking the catalog and dropping its temporary is finalized by recovery, but leaves a directory that a later rollback cleanup refuses |
| `MigrationRecovery.RecoveryChangeStaysOnCourse` | history_service/segment_migration.py:1080-1228 | every recovery step keeps the digests pointing at the same outcome, or reaches it |
| `MigrationRecovery.RecoveryChangeLowersRank` | history_service/segment_migration.py:1080-1228 | every effective recovery step lowers the rank of phase, remaining files and marker |
| `MigrationRecovery.RecoveryConverges` | history_service/segment_migration.py:1038-1228 | after any recovery steps from a reachable pending state the snapshot and destiny are kept while the marker exists, a cleared marker means exactly the destined terminal state, and effective steps are bounded by the initial rank |
| `MigrationHost.ReachableIsConsistent` | history_service/segment_migration.py:1080-1200 | every reachable pending disk passes the shape checks of recovery, so it is refused exactly when a leftover blocks it |
| `MigrationHost.DryRunMissesJsonTemporaries` | history_service/segment_migration.py:1080-1200 | for reachable pending disks a dry run announces every recovery that goes through, and one that is refused exactly when a restored rollback lies beside a leftover JSON temporary |
| `MigrationHost.HistoryCommand.CreateSnapshot` | history_service/segment_migration.py:248-324 | the snapshot ends up as the exact source bytes; when a step raises it is removed again, unless the removal raises too |
| `MigrationHost.HistoryCommand.SealSegment` | history_service/segment_sealer.py:235-285 | the record is published in the marker before the segment is linked, a segment on disk is the recorded one, and no temporary is left unless removing it was the last step and raised |
| `MigrationHost.HistoryCommand.RestoreSource` | history_service/segment_migration.py:540-592 | the source becomes the expected bytes only from a snapshot that has them, by one replace |
| `MigrationHost.HistoryCommand.RemoveOrphan` | history_service/segment_migration.py:595-675 | only the recorded segment and the temporary sharing its inode are removed |
| `MigrationHost.HistoryCommand.Unwind` | history_service/segment_migration.py:815-824 | the exception cleanup restores the source, removes the recorded segment and clears the marker |
| `MigrationHost.HistoryCommand.SwitchToSegmented` | history_service/segment_migration.py:776-815 | wherever it stops, the source was replaced only after the marker recorded the replacement, the catalog linked only after that, and the marker cleared only with the catalog in place |
| `MigrationHost.HistoryCommand.Migrate` | history_service/segment_migration.py:709-831 | completes with the pruned source and one catalogued segment; without faults it completes exactly when it is applied to a clean, sealable v1 history, and otherwise unwinds to the original bytes |
| `MigrationHost.HistoryCommand.PrepareCleanup` | history_service/segment_migration.py:924-953 | the terminal marker, the only authority to delete, is published only when the source equals the snapshot and the files match the inventory; otherwise nothing changes |
| `MigrationHost.HistoryCommand.FinishCleanup` | history_service/segment_migration.py:956-976 | wherever it stops, segments are gone only with the catalog gone, and the marker only with both; it deletes only when source, snapshot and files match the inventory, and missing files are skipped |
| `MigrationHost.HistoryCommand.RollBack` | history_service/segment_migration.py:979-1021 | refuses exactly when a marker exists, the catalog does not load or the snapshot differs; without faults it completes exactly when the directory is clean, and otherwise keeps the marker |
| `MigrationHost.HistoryCommand.RecoverOrphanSnapshot` | history_service/segment_migration.py:1045-1078 | whatever raises, the snapshot is removed only when it equals the source and lies beside no other file of the protocol |
| `MigrationHost.HistoryCommand.Recover` | history_service/segment_migration.py:1038-1228 | from a reachable pending disk an applied recovery that a leftover blocks changes nothing, and every other one reaches, without faults, the terminal state the digests decide; a dry run changes nothing and announces that state unless a foreign segment temporary is there |
| `MigrationSessions.EveryForwardSessionIsCrashSafe` | history_service/segment_migration.py:709-831 | every interleaving of migrations, exceptions, crashes at any step and recoveries keeps the forward guarantees |
| `MigrationSessions.EveryRollbackSessionIsAtomic` | history_service/segment_migration.py:979-1228 | every interleaving of rollbacks, exceptions, crashes at any step and recoveries keeps rollback atomic |
| `MigrationSessions.EveryRecoverySessionConverges` | history_service/segment_migration.py:1038-1228 | over any number of recoveries, each resumed from wherever the one before was cut, the destiny of the first is kept and reached, and all of them together make at most as many effective changes as its rank |
| `SlotRecords.BuildSlotEvents` | history_service/domain.py:442-490 | the loops over groups and fields produce the specified events, none without a previous record |
| `SlotRecords.NoChanges` | history_service/domain.py:455-467 | a group has no change exactly when all its fields are equal |
| `SlotRecords.EventOfSomeGroup` | history_service/domain.py:451-469 | an event is emitted exactly if some group of fields yields it |
| `SlotRecords.TopologyEventExactlyOnChange` | history_service/domain.py:442-490 | a topology event is emitted exactly when presence is equal and the topology differs; every event names the slot |
| `TopologyDebounce.SlotCollector.PrepareRecord` | history_service/collector.py:1623-1650 | returns the record to store and updates the pending hold of its slot alone |
| `TopologyDebounce.SlotCollector.RecordSlotChanges` | history_service/collector.py:1564-1621 | one pass compares every record with the store as it was found and writes all updates in one transaction |
| `TopologyDebounce.PassTreatsSlotsIndependently` | history_service/collector.py:1564-1621 | in a pass with unique slots each slot gets exactly what its own record, hold and the mass decision determine |
| `DebounceRuns.StoredTopologyNeedsConfirmation` | history_service/collector.py:1623-1650 | after any run a pass changes a stored topology only to one it observed itself, and only if the disk changed, the slot was backfilled, or the latest earlier comparing pass had observed the same |
| `DebounceRuns.TopologyEventsFollowTheStore` | history_service/collector.py:1597-1603 | a pass emits a topology event for a stored slot exactly when its stored topology changed with equal presence and no backfill |
| `DebounceRuns.MassDegradationIsNotRecorded` | history_service/collector.py:1580-1588 | a mass loss of topology detail changes the stored topology of no degraded slot (backfills aside), emits no topology event for it and drops what it had pending |
| `DebounceRuns.FlapIsNotRecorded` | history_service/collector.py:1640-1650 | after any run, with stable disk identity and no backfill, a topology not seen in the latest comparing pass, seen once and gone again leaves the stored topology as it was and emits no topology event |
| `DebounceLimits.DebouncesExactlyUniqueSlots` | history_service/collector.py:1590-1603 | passes over a list of slots change a stored topology only with confirmation, whatever is stored, pending and scanned, if and only if no slot is listed twice |
| `DebounceLimits.BackfillIsStoredAtOnce` | history_service/collector.py:1729-1751 | in a pass with unique slots a record that is the first to bring extended fields for its slot is stored as it is, topology included, with no event for the slot |
| `DebounceLimits.SeenTwiceExactlyWithoutBackfill` | history_service/collector.py:1623-1650 | a changed topology needs a second sighting or another disk, whatever the collector has seen, if and only if the record is not a backfill that brings a new topology for the same disk |
| `DegradedScans.FindSkipReason` | history_service/collector.py:1790-1828 | the loops refuse a degraded scope exactly when some bay stored for it is contradicted by the last scanned record with its slot number |
| `DegradedScans.HistoryCollector.RecordCollection` | history_service/collector.py:361-425 | admission of every scope is decided before any write, pending holds of refused scopes are dropped, and admitted scopes are recorded in order up to a stop |
| `DegradedScans.DegradedRunsKeepIdentity` | history_service/collector.py:1790-1828 | over any run of collections, each stopped anywhere, in which no trusted source records a slot, a stored bay keeps its presence and a present one its known serial, model, gptid, logical unit and identity key |
| `DegradedScans.GuardProtectsExactlyWithinScope` | history_service/domain.py:247-250 | the guard protects every store if and only if every scanned slot is stored under the scope it was admitted for |
| `RetentionWait.RetentionGuard.Allows` | history_service/collector.py:1369-1461 | decision, anchor and published status after one pass, for every failure of clearing, reading and starting |
| `RetentionWait.RetentionGuard.StartWait` | history_service/store.py:980-1023 | the first writer wins and the effective anchor is returned |
| `RetentionWait.AnchorIsTheOpenWait` | history_service/collector.py:1463-1480 | over any run the anchor exists exactly while a wait is open, and is what the pass that opened it wrote |
| `RetentionWait.PrunesExactlyAfterTheWindow` | history_service/collector.py:1412-1448 | without a usable backup a pass may prune exactly when the anchor is readable, or can be started, and the window after the opening pass's anchor is over |
| `RetentionWait.UsableBackupClearsFirst` | history_service/collector.py:1398-1410 | with a usable backup a pass prunes exactly when the wait could be cleared, and none is open afterwards |
| `RetentionWait.RestartsDoNotExtendTheWait` | history_service/collector.py:1469-1478 | restarts and failing passes leave the anchor of an open wait where it is |
| `RetentionWait.WaitStartedAt` | history_service/collector.py:1463-1480 | the start of a wait is never later than the pass that creates it |
| `Traceback.BoundedOutput.Append` | app/logging_config.py:63-74 | the kept parts always join to everything appended, clipped with the limit marker |
| `Traceback.BoundedOutput.Mark` | app/logging_config.py:76-86 | every marker is written at most once |
| `Traceback.FormatFrames` | app/logging_config.py:92-108 | the frames up to the limit, their number, and whether any were left |
| `Traceback.Renderer.Format` | app/logging_config.py:111-207 | the explicit-stack loop terminates on every graph within depth, node, frame and output limits, enters no exception twice, and its text is the recursive rendering, clipped |
| `Traceback.PushMembers` | app/logging_config.py:164-173 | tasks pushed in reverse order perform the members in order |
| `Traceback.Visit` | app/logging_config.py:175-207 | on every graph the renderer enters each exception at most once, at most 64 of them, shows at most 128 frames, and only adds to what is written |
| `Traceback.UnmarkedIsWhole` | app/logging_config.py:149-207 | a rendering without markers shows a whole unfolding of the exception, cause or context first |
| `Traceback.WholeIsRendered` | app/logging_config.py:149-207 | a sharing-free unfolding within the limits is rendered in full, without markers |
| `Traceback.UnmarkedExactlyWhenItFits` | app/logging_config.py:111-207 | on every graph no marker is written if and only if the exception unfolds into a sharing-free tree within the limits, and then the text is its recursive cause-first rendering |
| `JsonSize.JsonStringSize` | history_service/main.py:234-244 | the counting loop gives the UTF-8 length of the quoted, escaped string, or fails with it |
| `JsonSize.SizeIsLength` | history_service/main.py:265-287 | for every value the computed size is the length of its compact UTF-8 serialization, and one fails exactly when the other does |
| `JsonSize.OneMoreDigit` | history_service/main.py:295-300 | adding its digit count to a number lengthens it by at most one digit, which one more byte does not change |
| `JsonSize.GuessBytes` | history_service/main.py:295-300 | the two-step guess is a fixed point for every size |
| `JsonSize.HistoryPayload.SetExactResponseSize` | history_service/main.py:290-301 | the returned size, also written into the budget, is that of the final payload |
| `JsonSize.HistoryPayload.BoundedResponse` | history_service/main.py:304-321 | the accounting mismatch is never raised; the body is refused exactly above the limit and a sent one states its own length |
| `ReadPlan.BuildPlan` | history_service/operation_bounds.py:198-262 | the planner's loops compute the specified plan or the first refusal |
| `ReadPlan.PlanIsSound` | history_service/operation_bounds.py:198-262 | an admitted plan has 1 to 32 distinct scopes with sorted distinct slots, distinct metrics, exact target and row projections, all within the limits, and a since in the window |
| `ReadPlan.NormalizedScopeIsSound` | history_service/operation_bounds.py:166-195 | a normalized scope has a stripped system and non-empty, strictly increasing slots, no more than were listed |
| `ReadPlan.AdmittedScopesPass` | history_service/operation_bounds.py:265-303 | each scope of an admitted plan passes the store's own check at any time exactly when since is still in the window, so always at the same clock reading |
| `ReadPlan.CountHistoryRows` | history_service/operation_bounds.py:306-315 | counts the rows of every list of events and metrics and nothing else |
| `ReadPlan.ExecutePlan` | history_service/main.py:324-347 | raises exactly when more rows come back than the plan projected, and otherwise returns their number |
| `ReadPlan.RespectfulReadsFit` | history_service/main.py:338-340 | for a sound plan, as every admitted one is, store reads that respect their per-slot limits never exceed the projection |
| `SettingsReload.ChangesAreExactlyTheDifferences` | app/config.py:1570-1576 | the listed changes are exactly the restart-only settings that differ |
| `SettingsReload.MergeIsExact` | app/config.py:1579-1591 | the merge takes exactly the listed settings from the running ones and everything else from the files |
| `SettingsReload.ConfigReloader.BeginCheck` | app/settings_reload.py:242-270 | one check up to reading the files: baseline, cleared warning, remembered rejection, missing config, or a read |
| `SettingsReload.ConfigReloader.FinishCheck` | app/settings_reload.py:280-322 | applies only settings read between two equal signatures, and reports whether the settings changed |
| `SettingsReload.StepKeepsInv` | app/settings_reload.py:242-322 | every step keeps the invariant, among it that a problem is published exactly while a rejected state is remembered |
| `SettingsReload.ReloadKeepsRestartOnly` | app/settings_reload.py:242-322 | over any run of checks and saves the running settings are the last read ones with every restart-only setting at its start-up value, the watched paths never change, and the restart notice lists exactly the edits of the latest applied check |
| `SettingsReload.AppliedFilesStoodStill` | app/settings_reload.py:242-291 | over any run, a check that applies settings had sighted every watched file as it found it again after the read, with no other read between |
| `SettingsReload.InstalledFromStillFiles` | app/settings_reload.py:242-322 | over any run the settings last installed are those of the start, saved by a writer, or read by a check whose files stood still from before to after the read |
| `Generations.SettingsGeneration.Component` | app/settings_reload.py:70-84 | a component is built once, and building it drops what was inherited under its name |
| `Generations.SettingsRuntime.Current` | app/settings_reload.py:107-126 | a new settings object gets the next number and inherits the newest instance of every name built so far |
| `Generations.SettingsRuntime.Component` | app/settings_reload.py:70-84 | building a component in any generation, also an old pinned one, keeps the chain valid |
| `Generations.BuiltAtMostOnce` | app/settings_reload.py:70-126 | over any run numbers increase one by one, settings of a generation never change and no component is built again |
| `Generations.InheritsTheLatestBuilt` | app/settings_reload.py:90-92 | after any run, what a generation inherits under a name is the instance of the latest earlier generation that had built it when its successor was created |
| `ExportCache.SnapshotExportSourceCache.Get` | app/route_support.py:318-344 | a hit, recorded as such, is exactly the last value stored under the key by the same, still current generation within the time to live; an entry the current generation cannot use is removed and that is recorded; otherwise cache and history stay as they are |
| `ExportCache.SnapshotExportSourceCache.Store` | app/route_support.py:347-370 | records the new entry and then only evictions, and keeps the most recently used keys up to the limit, the new one last; a stale generation changes nothing |
| `ExportCache.SnapshotExportSourceCache.Clear` | app/route_support.py:281-282 | a reload empties the cache |
| `ExportCache.StoreRefines` | app/route_support.py:362-368 | storing keeps the order by last use and the agreement with the last stored values |
| `ExportCache.HitRefines` | app/route_support.py:343-344 | a hit keeps both and moves the key to the end |
| `ExportCache.EvictionsKeepUses` | app/route_support.py:366-370 | evictions change neither the last value stored under any key nor when it was last used |
| `SummaryScans.HistorySummaryScans.Join` | admin_service/routes.py:147-170 | a caller joins the scan in flight exactly when it is of this generation and not done, else creates one |
| `SummaryScans.JoinedScansAreFresh` | admin_service/routes.py:147-172 | after any run, the scan a caller joined begins its store read after every history change that preceded the call, and a scan that is reading or done has begun like that |
| `SummaryScans.ScansAreShared` | admin_service/routes.py:147-172 | per adoption of an event loop at most one unfinished scan of a generation, and at most `concurrency` store reads, after any run |
| `ScanLoops.SharesPerLoopExactlyWhenNeverReturning` | admin_service/routes.py:147-172 | each event loop has at most one unfinished scan of a generation, in every run whose scans are called from these loops in this order, if and only if callers never return to a loop they have left |
| `ScanLoops.ReadsPerLoop` | admin_service/routes.py:147-172 | if callers never return to a loop they have left, at most `concurrency` store reads run at once on each loop |
| `ScanLoops.OneLoopShares` | admin_service/routes.py:147-172 | with a single event loop there is at most one unfinished scan of each generation, and at most `concurrency` store reads in all |
| `ScriptJson.RewritePreservesMeaning` | app/script_json.py:38-46 | for every grammar over JSON tokens, a valid text stays valid and keeps its value, and all its tokens |
| `ScriptJson.RewriteIsSafe` | app/script_json.py:26-35 | none of the six characters survives in any text |
| `ScriptJson.RewriteIsIdempotent` | app/script_json.py:38-46 | rewriting twice is rewriting once, and exactly the texts without unsafe characters are left alone |
| `ScriptJson.RewriteReadsLeniently` | app/script_json.py:38-46 | the tokens of a rewritten text, JSON or not, are those a lexer finds in the text itself that takes an escaped unsafe character for its escape, backslash included |
| `ScriptJson.RewriteKeepsTokensUnlessEscaped` | app/script_json.py:38-46 | any text, JSON or not, keeps its tokens or its lack of them if and only if it escapes no unsafe character or is no JSON even for the lexer that accepts those escapes |
| `ScriptJson.InvalidEscapeBecomesValid` | app/script_json.py:38-46 | for each of the six characters, the string that holds only it after a backslash is not JSON text, and rewritten it is the string of its escape, backslash included |
| `SystemIds.NormalizedIsId` | app/config.py:1416-1421 | every normalized identifier is non-empty, of lower-case letters, digits, hyphens and underscores, without either at its ends |
| `SystemIds.IdIsFixed` | app/config.py:1416-1421 | such an identifier is normalized to itself |
| `SystemIds.ChooseId` | app/config.py:1485-1489 | the suffix search terminates and takes the base, or the smallest free suffix from two |
| `SystemIds.IdentifiedAreDistinct` | app/config.py:1481-1490 | the chosen identifiers are pairwise distinct and valid |
| `SystemIds.NormalizingAgainChangesNothing` | app/config.py:1469-1536 | normalizing the renamed systems again, with the chosen default, gives the same identifiers, the same default and the same settings of it |
| `SystemIds.NormalizeSystems` | app/config.py:1469-1536 | distinct identifiers, the asked default if it is one of them and else the first, and the settings of that default system |

## Left out

- Power loss: process crashes only. Reordering of writes that were not synced is not modelled; every completed change survives.
- Permissions, ownership, modes, symbolic links and inode checks of history files, beyond the link count a catalogued segment must have; a violated check is one of the raised faults.
- Size limit, stability key and SQLite integrity checks of a seal: each raises before anything is published, which the fault oracle covers.
- Temporaries beside the source database, left by a crash before the replace: recovery never reads them.
- The activation marker, segment rotation after migration, and the segment reader itself: its view is the hot rows plus the catalogued segment rows.
- MigrationHost.HistoryCommand.Migrate: requires non-null timestamps, because the schema declares every timestamp column NOT NULL.
- Labels, summaries and JSON details of slot events: only kind, slot and changed fields are modelled.
- How slot payloads become records (text normalization, SAS address normalization, identity keys): records are the input.
- Other places that forget pending topology changes: in runs any set of slots may be forgotten between passes.
- Retention itself, its batches, the segmented retention claim and the retention interval: only the guard is modelled.
- Warning throttling of the retention guard and its log lines.
- JSON escaping of traceback metadata: file, function and class names are taken as already escaped text.
- JsonSize.HistoryPayload.SetExactResponseSize: does not model a budget dictionary that also occurs elsewhere in the payload, because payloads are values here and not shared objects.
- Which exception a failing serialization raises: size and body fail together, but a surrogate and a non-finite float are found in different orders.
- Float formatting: a float is its `repr`, an ASCII text.
- ReadPlan.BuildPlan: takes the parsed `since`; text parsing and the isoformat text of the plan are library behaviour.
- Bulk-read admission (concurrency share) and response headers.
- Parsing and validation of settings files: a check is given the loaded settings or a failed load.
- Rate limiting of checks and the log lines of the reloader; a caller that clears the settings cache by hand reloads without the merge, outside the reloader.
- Thread scheduling inside a settings generation: each locked section is one step, and the loader may return any settings object.
- Contents of cached export sources and the cache key.
- Cancellation of a running scan task by a closing event loop: its worker thread would go on reading after its semaphore is released.
- A particular grammar above JSON tokens: the result holds for every function of the tokens, and the grammar of RFC 8259 is one.
- Labels, storage views, profiles and host lists of configured systems.
- HTTP routes, templates, authentication, TLS trust, SSH and API clients, metrics and health text.
