# BallotBox: a verified model of its data pipelines

BallotBox runs elections for several organisations on a small server. Its hardest code moves records through failures,
retries and interleavings without losing, duplicating or misplacing any. This project models that code in Dafny and
proves what it keeps. Code that changes things in place is modelled by classes and by methods with loops; each method is
proved against a specification function or predicate, and the properties are lemmas about those, over all inputs, all
runs and all reachable states.

| file | what it models |
|---|---|
| `CounterCells.dfy`, `FlushItems.dfy` | the meaning of counters: a map from cells to numbers, combined by sum, or by maximum for concurrency cells |
| `CounterBuffer.dfy`, `FlushRuns.dfy` | the in-memory counter buffers, the chunked flush, and runs of flushes that fail or are cancelled while events arrive |
| `DocTree.dfy`, `CounterStores.dfy` | nested documents with dotted `$inc`/`$max`, Postgres rows with add/greatest upserts and retention, and why the two stores agree |
| `PostgresFlush.dfy` | a flush into Postgres, whose timeout can fall before or after the commit, and whole runs of them |
| `HistoryCopy.dfy`, `HistoryVerify.dfy` | the restartable, ledgered copy of history from one store to the other, and its verification |
| `ObjectIds.dfy`, `Buckets.dfy`, `LogTimes.dfy` | ids that carry the second they were made in; time buckets; entries of a log, ballots among them, and how far out of order they come |
| `Backup.dfy`, `BackupRuns.dfy`, `BackupLogs.dfy` | one full or incremental backup; runs of backups, restore plans and the round trip; logs that are written during an export, reset, or edited |
| `RestorePlan.dfy`, `RestoreOrders.dfy`, `Restore.dfy`, `BackupRestore.dfy` | what restoring a chain means; the orders in which bulks land; restoring it merged in memory, or streamed in batches; and from a run of backups to the restored database |
| `Mirror.dfy`, `MirrorRuns.dfy`, `MirrorLogs.dfy` | the warm mirror with digests and watermarks, while the live database changes between the reads of a turn; runs of syncs; logs that are written during a turn, reset, or edited |
| `Migration.dfy` | the one-way migration |
| `CandidateSections.dfy` | the sections of the official list of candidates |
| `CandidateSteps.dfy`, `CandidateList.dfy`, `CandidateHistory.dfy`, `CandidateSolo.dfy`, `CandidateSweep.dfy`, `CandidateRaces.dfy` | issuing that list by interleaved workers: their steps, what every run keeps, when a change is lost, issuers that take turns, the sweep on its own, and what goes wrong |
| `AuditChain.dfy`, `AuditRuns.dfy` | the hash chain over ballots: hashed text, verification, tamper evidence; and checkpoints made while ballots are cast |
| `Rounding.dfy`, `Percentile.dfy` | histogram percentiles |
| `SecondRing.dfy` | the per-second ring and its windows |
| `GuessBucket.dfy` | the token bucket for one-time-code guesses, with concurrent attempts |
| `CandidatePages.dfy` | splitting the list over pages |
| `BulkSms.dfy` | message parts, the split between two providers, estimates |
| `SmallGroups.dfy` | folding small groups of the public turnout into "Other" |

## What turned out false of the code

Each of these is a lemma with a run or an input, most of them beside the exact condition under which the code does keep its
promise.

- Incremental backups and the mirror read back 120 seconds. A ballot's id carries the end of its time bucket, by default of 600
  seconds, and an export or a mirror turn takes its time, a turn up to 300 seconds, while its watermark can come from the
  end of it. So an entry can commit behind a point already passed, and then it is in no backup file and not in the mirror
  until the next full one (`BackupLogs.LateEntryNotBackedUp`, `MirrorLogs.SlowTurnNotMirrored`, and without any duration
  `MirrorLogs.LateEntryNotMirrored`). All is kept in every run if and only if the time from the start to the end of the
  export or turn, with the 60 seconds that a ballot may take to commit, rounded up to whole buckets is at most 120
  seconds; for ordinary ids, if and only if that time with the time from an id to its commit is
  (`BackupLogs.BackupsIff`, `MirrorLogs.MirrorIff`, for any log `BackupLogs.LogBackupsIff`, `MirrorLogs.LogMirrorIff`).
- Undoing an edit marks its entry in `student_edit_audit` (backend/main.py:13273), which is backed up as append-only. A mark on
  an entry older than the overlap is in no backup file and not in the mirror until the next full one
  (`BackupLogs.UndoNotBackedUp`, `MirrorLogs.UndoNotMirrored`); a younger one is, exactly
  (`BackupRuns.EditedRestoredIff`, `MirrorLogs.EditedMirroredIff`).
- Resetting an election deletes its ballots, but the newest full backup with later incrementals brings them back
  (`BackupLogs.ResetComesBack`), and they stay in the mirror until the next full sync (`MirrorLogs.ResetStaysMirrored`).
  In general the chain of a collection gives its last export exactly under `BackupRuns.CaughtIff`, and the next sync by
  watermark makes the mirror equal exactly under `MirrorRuns.CaughtIff`.
- A restore does not clear a collection that the backup lists but holds empty (`Restore.EmptyNotCleared`; exact condition in
  `Restore.ReplacedIff`).
- A streamed restore sends one unordered bulk for each collection of a batch. If a batch holds two versions of a document and no
  later batch holds it again, the older one can win, as it can after an undone edit (`BackupRestore.UndoCanGoBack`); every
  outcome is as the stream says exactly if there is no such document (`Restore.StreamRestoresIff`). From end to end, a
  collection comes back as last exported exactly under `BackupRestore.RestoredBackIff`.
- A restore plan does not skip an incremental directory whose manifest is missing, although the design calls a backup
  without a manifest unfinished and to be ignored: it is refused, exactly then (`BackupRuns.RoundTrip`).
- A full backup that was uploaded but not recorded can hide a change that is undone before the next one: that one is skipped,
  and the chain keeps the other content (`BackupRuns.UnsavedFullHidesAChange`; exact condition in `BackupRuns.FullGivesIff`).
- The mirror stores the digest of a collection as it was before it was copied. A change between the two that is later undone,
  as when a flag of the settings is set and unset, stays hidden although every sync succeeded
  (`MirrorRuns.MovingTurnHidesAChange`), and so does one that a failed sync copied (`MirrorRuns.FailedSyncHidesAChange`). A
  difference can stand exactly when the saved digest is not that of the mirror (`MirrorRuns.HidesIff`), which a step brings
  about exactly if it copies something else than its digest describes, or fails after something landed
  (`MirrorRuns.TurnsHiddenIff`, along runs `MirrorRuns.NeverHiddenIff`).
- A change of the candidates can be lost. With any number of issuers, by hand or by sweep, one is lost exactly if the run is
  blind and the newest list differs (`CandidateHistory.LostIff`), and a run turns blind in exactly two ways: the last mark is cleared while the newest
  list is older, or a list read before that mark is inserted after it was cleared (`CandidateHistory.TurnsBlindIff`).
  Sweeps do overlap, for every `GET /admin/candidate-list` starts one (backend/main.py:5888) beside the periodic one
  (backend/main.py:3082). Runs are in `CandidateRaces.ManualIssueLosesAChange`,
  `CandidateRaces.OverlappingSweepsLoseAChange` and, with two sweeps before the first list, when neither
  waits for a quiet spell, `CandidateRaces.FirstListsLoseAChange`. Issuers that take turns never turn a run blind exactly if
  no list issued by hand clears the flag after a mark that it has not read (`CandidateSolo.NeverBlindIff`). Two issuers can also supersede each other
  (`CandidateRaces.IssuersCanSupersedeEachOther`).
- A ballot for several positions reads the clock more than once. If a time bucket ends in between, a later checkpoint
  leaves a ballot out and the untouched log no longer verifies, for every bucket length
  (`AuditRuns.StraddlingBallotBreaksTheChain`). A run verifies at every moment if and only if no ballot falls into a closed
  range and no checkpoint leaves out a ballot in its range (`AuditRuns.AlwaysVerifiesIff`), which a query can tell
  beforehand (`AuditRuns.SealedRangeIff`); it holds where no ballot straddles a bucket's end
  (`AuditRuns.HonestRunVerifies`).
- An attempt that read its clock before another attempt paid sets the bucket's time back, so the same seconds refill it
  twice: with two or more free guesses and any interval some run overspends, and with one none does
  (`GuessBucket.AlwaysBoundedIff`). A payment is sound exactly if its clock is no older than the bucket
  (`GuessBucket.PayRisesIff`, `GuessBucket.NeverRisesIff`), and the excess is bounded by how far the time was set back
  (`GuessBucket.SpendBound`).
- At the cap of distinct counter keys, an event of a key in use is refused while its snapshot is being written
  (`FlushRuns.KnownKeyRefused`); below the cap none ever is (`FlushRuns.AllAccepted`).
- A Postgres flush that times out after its commit is counted twice, as a whole (`PostgresFlush.TransactionIsAStep`), and nothing
  else is (`PostgresFlush.PgConservation`).
- The 900-second peak misses the first second of its window exactly when something was recorded in the running second
  (`SecondRing.PeakWindow`).
- The guess budget holds exactly if the window is not too long for the longest refill interval (`GuessBucket.BudgetIff`).
- Rebuilding documents from rows is exact only if no field path is a prefix of another (`CounterStores.RebuildExact`).

## Model

| member | source | states |
|---|---|---|
| CounterBuffer.Analytics.BufferAdd | backend/analytics.py:336-339 | adding fields to a key adds to what the key held, field by field, and touches no other key |
| CounterBuffer.Analytics.Inc | backend/analytics.py:342-351 | a new key is refused exactly when the buffer and the snapshot being written together hold the cap already; a known key always accumulates; a refusal is counted |
| CounterBuffer.Analytics.HeatAdd | backend/analytics.py:354-359 | a new heat spot is refused exactly when the heat buffer is full |
| CounterBuffer.Analytics.CountActive | backend/analytics.py:501-509 | counts per organisation the sessions seen since the cutoff, and drops exactly the others |
| CounterBuffer.Analytics.ConcDelta | backend/analytics.py:501-513 | every organisation's concurrency cell of the slot is raised to its number of active sessions and no other cell changes |
| CounterBuffer.SampleAt | backend/analytics.py:501-513 | a sample raises the field of the slot of each organisation with live sessions to their number if it was less, and touches nothing else |
| CounterBuffer.Analytics.Restore | backend/analytics.py:528-538 | merging a snapshot back adds additive cells and takes the maximum of concurrency cells, on top of what arrived meanwhile, past the cap |
| CounterBuffer.Analytics.BeginFlush | backend/analytics.py:594-603 | the flush takes the counters, and the heat only if asked, leaves empty buffers and remembers the keys it took |
| CounterBuffer.Analytics.EndFlush | backend/analytics.py:612-625 | what was not written is merged back and the remembered keys are forgotten |
| CounterBuffer.GiveBackCells | backend/analytics.py:528-538 | in cells, giving a snapshot back is merging it: nothing that it holds is lost or counted twice |
| CounterBuffer.AcceptIff | backend/analytics.py:342-351 | an event is merged into its key's cells, and nothing else changes, if the key is held or the keys held and being written are fewer than the cap; otherwise only the count of refusals changes |
| CounterBuffer.HitIff | backend/analytics.py:354-359 | the same of a heat spot and the spots held |
| CounterBuffer.AcceptBound | backend/analytics.py:342-351 | accepting an event never takes the capped keys, held or being written, over the cap |
| FlushRuns.MongoStore.WriteChunk | backend/analytics_store.py:228-251 | one chunk: written, cancelled while pausing after it, or broken with any part of it landed and all of it handed back |
| FlushRuns.MongoStore.Write | backend/analytics_store.py:217-251 | the chunk loop leaves the store, and raises with the unwritten rest, as the specification of a chunked write says |
| FlushRuns.WriteConserves | backend/analytics_store.py:217-251 | after any write, stored and handed back together are what was to be written plus exactly what landed of the broken chunk |
| FlushRuns.LandsFirst | backend/analytics_store.py:217-251 | a chunk that lands is stored, and the next one goes on with the rest |
| FlushRuns.BreaksFirst | backend/analytics_store.py:217-251 | a chunk that breaks is handed back with all the rest, although the writes that the server performed are stored |
| FlushRuns.ListBuffers | backend/analytics.py:516-525 | the operations of a flush name every counter key and every heat spot once, with its content |
| FlushRuns.FlushOnce | backend/analytics.py:579-630 | a tick that is not due changes nothing; one that is attempts a write exactly if there is something to write, and the store and the buffers end as the chunked write leaves them, the rest merged back |
| FlushRuns.FlushSteps | backend/analytics_store.py:217-251 | whatever a chunked write does is a legal run of chunk and stop steps of the interleaved model with the same store, buffers and surplus |
| FlushRuns.DueIff | backend/analytics.py:589-594 | a tick writes when forced, the first time, and once no more than a second of the period is missing |
| PostgresFlush.FlushOncePostgres | backend/analytics.py:579-630 | the same tick into Postgres, whose transaction commits, rolls back, or commits after the timeout has given up on it: then, and when it rolls back, everything goes back to the buffers |
| PostgresFlush.TransactionIsAStep | backend/analytics.py:603-625 | each of the three endings is a legal step of the interleaved runs with the same buffers, and the same content of the table up to retention; only an unseen commit leaves a surplus, which is what it wrote |
| PostgresFlush.AnyEnding | backend/analytics.py:603-625 | whenever a flush is under way each of the three endings can come |
| PostgresFlush.RunIsLegal | backend/analytics.py:579-625 | a whole run into Postgres is a legal interleaved run whose store holds what the table holds, up to retention |
| PostgresFlush.PgConservation | backend/analytics.py:528-630 | over every run of events, samples and transactions that commit, roll back or commit unseen: in every cell that retention cannot take, table, buffers and flight together hold what was accepted, with unseen commits as the only excess |
| PostgresFlush.NoUnseenNoSurplus | backend/analytics.py:603-625 | if every commit is seen there is no excess |
| FlushRuns.Conservation | backend/analytics.py:528-630 | over every run of events, samples and flushes that succeed, fail at any chunk or are cancelled: stored, buffered and in flight add up to what was accepted plus the surplus, and the maximum of the three is the maximum of all samples for concurrency cells |
| FlushRuns.AllAccepted | backend/analytics.py:336-359 | over every run in which fewer distinct counter keys than the cap, and no more spots, are sent, every event, click and sample is accepted, whatever flushes do meanwhile |
| FlushRuns.EverySentCounted | backend/analytics.py:336-630 | so stored, held and in flight together are what was sent: added up, with the surplus as the only excess, and for concurrency cells the greatest |
| FlushRuns.KnownKeyRefused | backend/analytics.py:346-351 | at the cap an event of a key that is being written is refused, although the key is known |
| FlushRuns.NoSurplus | backend/analytics_store.py:217-251 | if no broken chunk landed anything there is no surplus, so the sum is exact |
| FlushRuns.SurplusPerStop | backend/analytics_store.py:217-251 | a stopped flush adds at most the content of the one chunk that broke to the surplus of a cell |
| FlushRuns.BufferBounded | backend/analytics.py:336-351 | over every run the capped keys, held or being written, never exceed the cap, also after a failed or partial flush is merged back |
| DocTree.JoinSplit | backend/analytics_store.py:80-90 | splitting a dotted name and joining it gives the name back |
| DocTree.UpdateLook | backend/analytics.py:521-522 | a dotted increment or maximum changes the reading of its own path as meant and of no other path, when the path clashes with no other |
| DocTree.SetPathLook | backend/analytics_store.py:80-90 | writing a value at a path is read back there and leaves every other reading as it was |
| DocTree.SameReadings | backend/analytics_store.py:92-105 | two tidy documents with the same reading at every path are the same document |
| CounterStores.PostgresStore.UpsertAdd | backend/analytics_store.py:51-56 | inserts the row or adds to it, and touches no other row |
| CounterStores.PostgresStore.UpsertMax | backend/analytics_store.py:57-62 | inserts the row or keeps the greater value, and touches no other row |
| CounterStores.PostgresStore.Write | backend/analytics_store.py:354-384 | one transaction merges exactly the content of the buffers into the table, and the first one of a day, even an empty one, then deletes exactly the counter rows of days more than 400 before; without a commit nothing changes |
| CounterStores.RetentionKeepsRecent | backend/analytics_store.py:354-384 | over any run of writes the retention passes take nothing but counters of days more than 400 before the latest write |
| CounterStores.TransactIff | backend/analytics_store.py:354-384 | a committed write merges its cells, and with a retention pass no counter of a day more than 400 back is left and all else stays |
| CounterStores.WriteRefines | backend/analytics.py:516-525 | on documents without clashing paths, a flush by dotted increments and maxima is accepted by the database and is, in cells, the same merge that the rows receive |
| CounterStores.CounterDocumentsFromRows | backend/analytics_store.py:138-154 | the loop over rows groups them by key and writes each field path in row order |
| CounterStores.RebuildExact | backend/analytics_store.py:138-154 | rebuilt documents hold exactly the cells of the rows if and only if no path of a key is a prefix of another one of that key |
| CounterStores.SameCellsSameDocs | backend/analytics_store.py:92-128 | documents are determined by their flattened cells |
| CounterStores.RunRefines | backend/analytics_store.py:354-375 | along any sequence of flushes the documents and the rows hold the same cells |
| CounterStores.DocCellsIff | backend/analytics_store.py:108-128 | a document contributes exactly the counters of its key whose path in it leads to a number, each with that number |
| CounterStores.StoresAgree | backend/analytics_store.py:138-154 | from empty stores, any run of flushes leaves documents equal to those rebuilt from the rows, in whatever order the rows are read |
| CounterStores.NamesIff | backend/analytics_store.py:138-154 | the fields whose paths must not clash are those that the run writes to one document |
| DocTree.ClashIff | backend/analytics_store.py:138-154 | two paths clash exactly if one goes on where the other ends |
| CounterStores.FlattenRebuild | backend/analytics_store.py:80-154 | rebuilding the flattened rows of good documents gives the documents back |
| HistoryCopy.HistoryStore.CopyHistoryBatch | backend/analytics_store.py:424-460 | a transaction applies each document of a batch that is not in the ledger and marks it, or changes nothing if it does not commit; it counts the rows added of each kind and the documents skipped |
| HistoryCopy.FirstCounts | backend/analytics_store.py:424-460 | the first time a batch counts every row of its documents and skips none |
| HistoryCopy.RepeatCounts | backend/analytics_store.py:424-460 | repeated, it counts no row and skips every document |
| HistoryCopy.HistoryStore.CopyPage | backend/migrate_analytics_to_postgres.py:80-91 | a committed page has each of its documents in the ledger, and the table still holds live rows combined with each marked document once |
| HistoryCopy.HistoryStore.CopyCollection | backend/migrate_analytics_to_postgres.py:74-110 | the paginated scan keeps that invariant whether it is interrupted or not and whatever arrives live between pages; when it finishes every document beyond the starting id is in the ledger |
| HistoryCopy.PageIs | backend/migrate_analytics_to_postgres.py:74-110 | a page is the next documents in id order, as many as asked for if there are so many |
| HistoryCopy.RunKeepsImports | backend/analytics_store.py:424-460 | after any run of interrupted, repeated and overlapping batches and live writes, the table is the live rows combined with each marked document once |
| HistoryCopy.LedgerIff | backend/analytics_store.py:424-460 | along any run the ledger names exactly the documents of the batches that have committed, and a batch that did not commit leaves the table alone |
| HistoryCopy.ExactlyOnce | backend/migrate_analytics_to_postgres.py:74-110 | once every document was in some committed batch, the table is the live rows combined with every document exactly once, sums and maxima alike |
| HistoryVerify.AddTotals | backend/migrate_analytics_to_postgres.py:114-121 | the running totals grow by exactly the cells of each organisation, kind and field in the verified days |
| HistoryVerify.CountersMatch | backend/migrate_analytics_to_postgres.py:114-126 | the verification passes if and only if every organisation/kind/field total of the documents equals the table's |
| HistoryVerify.DistinctKeysShareNothing | backend/migrate_analytics_to_postgres.py:116-118 | documents with distinct keys share no row, so maxima sum up as well |
| HistoryVerify.ScanPasses | backend/migrate_analytics_to_postgres.py:112-137 | after an exactly-once import without live rows in the verified days all counter totals agree, and an organisation's heat total is Mongo's plus what arrived live |
| HistoryVerify.CompletedCopyVerifies | backend/migrate_analytics_to_postgres.py:72-150 | any interrupted and repeated copy that has seen every document passes both verifications, if nothing was written live into the verified days |
| HistoryVerify.CounterRowExact | backend/migrate_analytics_to_postgres.py:74-110 | after such a copy every counter row reads what was written live, combined with the number that the document of its key holds at its path |
| HistoryVerify.HeatRowExact | backend/migrate_analytics_to_postgres.py:74-110 | and every heat row what was written live and the counts of the documents of its spot |
| HistoryVerify.OneRowShows | backend/migrate_analytics_to_postgres.py:114-126 | a row that differs shows in the total of its own organisation, kind and field, if its day is verified, and in no other |
| ObjectIds.ReadSorted | backend/backup.py:283-339 | reads a collection once through in id order |
| ObjectIds.OverlapExactIff | backend/backup.py:486-490 | reading on from 120 seconds before the watermark completes what was there if and only if nothing of it was deleted and nothing before that point is missing or differs |
| ObjectIds.BeforeBack | backend/backup.py:486-490 | the overlap point is the first id of the second two minutes before |
| ObjectIds.OverlapCatchesUp | backend/backup.py:486-490 | so nothing is missed of a collection whose new ids are at most 120 seconds older than those there |
| LogTimes.LateBy | backend/main.py:1876-1885 | an entry comes at most that far out of order which its time to commit is when rounded up to whole buckets |
| LogTimes.AlwaysGrowIff | backend/main.py:1869-1885 | the entries of a log come at most 120 seconds out of order in every run if and only if that is at most 120 seconds |
| LogTimes.DisorderIs | backend/main.py:1876-1885 | for ballots it is the time rounded up to whole buckets, one bucket where a bucket is no shorter than the grace period; for ordinary ids it is the time |
| Backup.ExportCollection | backend/backup.py:283-339 | an export holds exactly the queried documents, their number, and the last id if there is one |
| Backup.Engine.ExportIncr | backend/backup.py:475-496 | exports exactly the append-only collections with something new, each from the overlap point, and moves their watermarks to the last exported id |
| Backup.Engine.ExportFull | backend/backup.py:497-503 | exports every covered collection whole and moves a watermark only for a collection that is not empty |
| Backup.Engine.BackupTenant | backend/backup.py:448-553 | one attempt: the fallback to a full, both reasons to skip, a failure before or after the first upload or between the manifest and the saved state, the manifest last, and the saved state only after it |
| Backup.AttemptLeaves | backend/backup.py:475-552 | without a recorded full an attempt uploads one; a failed attempt leaves record and watermarks, and of the bucket all, or a directory without a manifest behind it, or one that is complete |
| Backup.FullSkippedIff | backend/backup.py:511-516 | a full backup that reaches its end is skipped if and only if it is neither forced nor due for a fresh copy and every covered collection as read is what the last recorded full exported; otherwise it is uploaded |
| Backup.IncrSkippedIff | backend/backup.py:475-496 | an incremental one is skipped if and only if no append-only collection has an id beyond its watermark |
| BackupRuns.SinceExactIff | backend/backup.py:479-493 | what an incremental export gives on top of what was there is the collection as exported if and only if nothing has been deleted and nothing before the overlap point is missing or differs |
| BackupRuns.IncrExactIff | backend/backup.py:475-503 | so after any run, an incremental backup completes the chain of a collection if and only if that holds of it |
| BackupRuns.CaughtIff | backend/backup.py:475-503 | after any run the chain of a collection gives its last export if and only if that was a full one, or an incremental one of which that holds |
| BackupRuns.GrownCaught | backend/backup.py:475-503 | so it does of every collection that only full backups carry, and of a log that only grew within the overlap |
| BackupRuns.FullGivesSmall | backend/backup.py:511-548 | after a full backup that reached its end, uploaded or skipped, the chain gives every small collection as read, if no full was left unrecorded since the last recorded one |
| BackupRuns.UnsavedFullIff | backend/backup.py:537-548 | a full is unrecorded exactly if one was uploaded without its record and none has been recorded since |
| BackupRuns.FullGivesIff | backend/backup.py:511-548 | in general it does if and only if the full was uploaded or what was exported last is what was read |
| BackupRuns.UnsavedFullHidesAChange | backend/backup.py:511-548 | a run in which a full that was uploaded but not recorded, and a change undone before the next one, leave the chain giving another content than was read |
| BackupRuns.EditedRestoredIff | backend/main.py:13273-13274 | after an entry of such a log was changed, the next incremental backup completes the chain if and only if the entry is not before the overlap point |
| BackupRuns.PlanIsChain | backend/restore_core.py:83-97 | the plan from the newest complete full lists the chain of later incrementals in order, and is refused if and only if one of them has no manifest |
| BackupRuns.RefusedIff | backend/restore_core.py:83-97 | planned from a full, a restore is refused if and only if its manifest or that of a later incremental is missing; from an incremental only its own manifest is read and it is applied alone |
| BackupRuns.RoundTrip | backend/restore_core.py:83-114 | after any run of full and incremental attempts, whatever failed or was written meanwhile: the plan is refused if and only if a later incremental was left unfinished, and otherwise a collection is restored as its last completed export saw it if and only if the chain caught up with that export |
| BackupRuns.PointInTime | backend/restore_core.py:91-97 | a restore up to a moment gives what the chain by then gave, collection by collection under the same condition, however the bucket has grown since |
| BackupLogs.LogBackupsIff | backend/backup.py:283-339 | over every run of backups whose exports last at most so many seconds while entries are committed, every exported entry of a log is restored if and only if the disorder over that time is at most 120 seconds |
| BackupLogs.BackupsIff | backend/main.py:1876-1885 | the same in numbers for ballots, of any bucket, and for ordinary ids |
| BackupLogs.LateEntryNotBackedUp | backend/backup.py:486-490 | otherwise a run of commits and two backups after which an exported entry is in no backup file |
| BackupLogs.ResetComesBack | backend/main.py:6393-6393 | a run in which deleted ballots are restored |
| BackupLogs.UndoNotBackedUp | backend/main.py:13273-13280 | a run in which the mark of an undone edit is in no backup file |
| RestorePlan.MergeFile | backend/restore_core.py:108-113 | one file is merged by id, or refused at a document of another tenant |
| RestorePlan.PlanRestore | backend/restore_core.py:100-114 | the merged plan is the left-to-right merge by id of every document in the chain, and is refused if and only if some document is not the tenant's |
| RestorePlan.StreamDocs | backend/restore_core.py:100-114 | the chain carries every document of every file in order, file after file, without the organisation itself unless asked for |
| RestorePlan.LastWins | backend/restore_core.py:108-113 | of several versions of a document the last one is kept |
| Restore.Database.BulkWrite | backend/restore_core.py:221-221 | one unordered bulk replaces or inserts by id in some order of its operations and touches no other collection |
| RestoreOrders.AnyOrderIff | backend/restore_core.py:221-221 | every order of a bulk leaves the same if and only if it holds no document in two versions |
| Restore.WriteChunks | backend/restore_core.py:237-240 | writing documents that come in one version each in unordered chunks of any size is writing them at once |
| Restore.ApplyRestore | backend/restore_core.py:228-242 | every collection of the plan is emptied of the tenant's documents if asked and then holds the merged ones; other collections stay; the counts are the merged sizes |
| Restore.GroupBatch | backend/restore_core.py:212-214 | a batch is grouped by collection, each group in stream order |
| Restore.ApplyBatch | backend/restore_core.py:208-222 | a batch carries every collection from what the batches before can leave to what they and this one can leave, clearing it only at its first appearance |
| Restore.StreamApply | backend/restore_core.py:200-225 | streaming with any batch size leaves each collection as its batches, written one after the other as unordered bulks, can leave it, and returns exactly the ids of each collection |
| RestoreOrders.BatchesExactIff | backend/restore_core.py:208-222 | every outcome of a sequence of unordered batches is what they say in order if and only if wherever one holds two versions of a document a later one holds it again |
| Restore.StreamRestoresIff | backend/restore_core.py:200-225 | so every outcome of a streamed restore is as restoring the whole stream in order, if and only if that holds of its batches |
| Restore.StreamEqualsMerged | backend/restore_core.py:165-242 | for every chain the merged and the streamed restore leave the same collection, for the same collections |
| Restore.RestoreBothWays | backend/restore_core.py:165-242 | run on equal databases with any two batch sizes, both ways leave equal collections wherever the stream is settled in that sense, and matching counts and ids |
| Restore.TenantReplaced | backend/restore_core.py:60-80 | with ids unique across tenants, every collection keeps exactly the other tenants' documents, and its own tenant's are exactly the chain's, or as they were if the chain carries none of the collection |
| Restore.ReplacedIff | backend/restore_core.py:206-222 | so they are exactly the chain's if and only if the chain carries a document of the collection or the tenant had none |
| Restore.EmptyNotCleared | backend/restore_core.py:206-222 | a collection that is listed but empty in the backup keeps the documents made since |
| Restore.OthersUntouched | backend/restore_core.py:60-65 | in every outcome of a streamed restore and in the merged one, a document of another organisation, in the message usage of another key, and any other organisation's own, is kept as it was unless the chain carries its id |
| Restore.OwnCleared | backend/restore_core.py:216-220 | with replacement the tenant's own documents of a collection that the chain mentions are gone unless the chain carries their ids |
| Restore.RefusedIff | backend/restore_core.py:68-80 | a chain is refused if and only if it has a document of another organisation or another key, or platform settings for a tenant other than the global one |
| BackupRestore.StreamMerges | backend/restore_core.py:144-163 | streaming the files of a plan carries, for each collection, exactly the merge of its manifests |
| BackupRestore.ItemIff | backend/restore_core.py:144-163 | a document of a manifest is streamed under its collection with its id and owner |
| BackupRestore.AlwaysStreams | backend/restore_core.py:83-163 | every run whose newest complete full no unfinished upload has followed has such a stream, of exactly its chain |
| BackupRestore.RestoredBackIff | backend/restore_core.py:83-225 | end to end: after any run of backups, streaming the newest complete chain gives a collection back as last exported, in every database and every order of the bulks, if and only if the chain caught up with that export, the stream is settled and the export was not empty |
| BackupRestore.GrownComesBack | backend/restore_core.py:83-225 | a collection that only full backups carry, or that only grew within the overlap, is caught up with and settled in every batch size |
| BackupRestore.UndoCanGoBack | backend/restore_core.py:208-222 | after an undone edit within the overlap the chain is caught up with, and yet one batch of it can bring the entry back without its mark |
| BackupRestore.RestoreBackup | backend/restore_core.py:200-225 | the database that the streamed restore leaves holds, of every collection that is caught up with and settled, the tenant's documents as last exported, or as they were where that was empty, and everybody else's as they were |
| Mirror.Upsert | backend/backup_mirror.py:84-92 | in batches, the queried documents replace those of the mirror; a failure leaves every document as it was or as read |
| Mirror.Prune | backend/backup_mirror.py:94-100 | deletes in chunks exactly what the source no longer has |
| Mirror.Reconcile | backend/backup_mirror.py:153-154 | pruning by one view and then writing every document of a later one |
| Mirror.ReconcileAgreesIff | backend/backup_mirror.py:153-154 | this ends as the copied view, from any state, if and only if no document that the mirror had was deleted in between |
| Mirror.SyncOne | backend/backup_mirror.py:141-159 | one collection's turn, each of whose reads may see another view: watermark with overlap, fallback to reconciliation after a failure, or digest comparison; and the digests and watermarks that it leaves |
| Mirror.ListNames | backend/backup_mirror.py:136-138 | each mirrored collection once: not the system's and not the security-only ones |
| Mirror.MirroredIff | backend/backup.py:60-63 | every collection that is backed up is mirrored, and of the others all but the system's and the nine of short-lived authentication and rate-limit state |
| Mirror.SyncMirror | backend/backup_mirror.py:124-177 | a completed sync is a turn for each listed collection, full and from nothing after a change of cluster; a failed one saves nothing; the mismatches are the collections whose counts differ |
| Mirror.FullSyncAgrees | backend/backup_mirror.py:129-160 | one full sync makes every listed collection what it copied, from any mirror and any saved state, if nothing was deleted between pruning and copy |
| Mirror.FullSync | backend/backup_mirror.py:129-160 | a completed full sync of everything that is mirrored does so for all of it while the live database changes, leaves excluded collections untouched, and completes if no operation fails |
| MirrorRuns.HidesIff | backend/backup_mirror.py:151-155 | for a collection compared by digest, every next incremental sync at a standstill makes the mirror equal, whatever the collection then is, if and only if the saved digest is that of the mirror |
| MirrorRuns.TurnsHiddenIff | backend/backup_mirror.py:151-177 | a step breaks that exactly if it copies, and what its digest was computed from is not what the mirror then holds, or if it fails after anything of the collection landed |
| MirrorRuns.DescribedIff | backend/backup_mirror.py:151-155 | and a turn in which nothing is deleted between pruning and copy does not exactly if it copied what its digest was computed from |
| MirrorRuns.NeverHiddenIff | backend/backup_mirror.py:129-177 | along every run of syncs and failed syncs, to one cluster or several, it never breaks if and only if no step breaks it |
| MirrorRuns.MirrorAgreesIff | backend/backup_mirror.py:151-155 | a completed sync that copies leaves the copied view if and only if nothing that the mirror had was deleted between pruning and copy; one that skips leaves it as read if and only if the digest was that of the mirror |
| MirrorRuns.CaughtIff | backend/backup_mirror.py:142-146 | for a collection read by watermark, every next incremental sync of it as it is makes the mirror equal if and only if the mirror lacks nothing before the overlap point, in the live version, and holds nothing deleted |
| MirrorRuns.WriteCaughtIff | backend/backup_mirror.py:142-146 | a write keeps that if and only if it deletes no mirrored document, and inserts or changes none before the overlap point |
| MirrorLogs.TrailingKept | backend/backup_mirror.py:142-146 | reading from the overlap point completes a mirror of a log that lacks nothing older |
| MirrorLogs.AlwaysInv | backend/backup_mirror.py:129-177 | over every run, with failed syncs, changes of cluster and writes during turns: the watermark of a log that only grows within the overlap trails the mirror by no more than the overlap |
| MirrorLogs.MirrorAgreement | backend/backup_mirror.py:129-160 | so every completed sync leaves such a log as a read of its turn saw it |
| MirrorRuns.StillNeverHidden | backend/backup_mirror.py:129-177 | along runs of syncs that all succeed on a collection that stands still during its turns the saved digest is always that of the mirror |
| MirrorRuns.FailedSyncHidesAChange | backend/backup_mirror.py:151-155 | a run in which a failed sync and an undone change leave the mirror different after a completed incremental sync |
| MirrorRuns.MovingTurnHidesAChange | backend/backup_mirror.py:151-155 | a run of successful syncs in which a change between digest and copy that is later undone does the same |
| MirrorLogs.LogMirrorIff | backend/backup_mirror.py:141-159 | over every run of syncs, failing or not, whose turns last at most so many seconds while entries are committed, every completed sync mirrors a log as it read it if and only if the disorder over that time is at most 120 seconds |
| MirrorLogs.MirrorIff | backend/main.py:1876-1885 | the same in numbers for ballots, of any bucket, and for ordinary ids |
| MirrorLogs.SlowTurnNotMirrored | backend/backup_mirror.py:142-159 | otherwise a run of successful syncs in which the watermark, read after the copy, passes an entry that was not copied |
| MirrorLogs.LateEntryNotMirrored | backend/backup_mirror.py:142-146 | and if the disorder without any duration is too long, one whose turns all stand still |
| MirrorLogs.ResetStaysMirrored | backend/main.py:6393-6393 | a run in which deleted ballots stay in the mirror |
| MirrorLogs.EditedMirroredIff | backend/main.py:13273-13274 | after an entry of a log that otherwise only grew was changed, the next incremental sync makes the mirror equal if and only if the entry is not before the overlap point |
| MirrorLogs.UndoNotMirrored | backend/main.py:13273-13280 | a run in which the mark of an undone edit is not in the mirror |
| Migration.CollectionPlan | backend/migrate_core.py:65-71 | a plan reports for each collection how many documents the target has beyond the source, and changes nothing |
| Migration.MigrateDatabase | backend/migrate_core.py:73-119 | plan, copy, final and verify: refused at the first collection with more documents than the source unless forced; passed exactly if no listed collection differs, otherwise failed with exactly those that do; unlisted collections untouched |
| Migration.MovedAllIff | backend/migrate_core.py:73-119 | a completed pass adds and overwrites in copy mode, makes the target the source in final mode and changes nothing otherwise, and unless forced no copied collection held more than the source |
| Migration.RefusedAtIff | backend/migrate_core.py:73-119 | a refusal names the first collection that holds more than the source; those before it are copied and all others as they were |
| Migration.CompletedPassAgreesIff | backend/migrate_core.py:95-115 | a final pass always ends equal, a copy exactly if the target has no document of its own, a verification exactly if they were equal |
| Migration.RefusalCatchesSupersets | backend/migrate_core.py:92-93 | an unforced copy onto a target that holds all of the source and more is refused |
| CandidateSections.SortRows | backend/candidate_list.py:38-41 | sorts by order, position and id, keeping every candidate |
| CandidateSections.InOrderIff | backend/candidate_list.py:38-41 | in ballot order the order numbers ascend, equal ones go by the text of the position, and those of one position by id |
| CandidateSections.LessIff | backend/candidate_list.py:38-41 | texts go by the first character in which they differ, a text before its continuations |
| CandidateSections.BuildSections | backend/candidate_list.py:36-54 | sections are the positions by first appearance in ballot order, each with the listed names of that position in order |
| CandidateSections.OrderIrrelevant | backend/candidate_list.py:57-60 | the sections, and so the signature, do not depend on the order in which the database returns the candidates |
| CandidateSections.EveryCandidateOnce | backend/candidate_list.py:44-54 | every candidate with a name is listed exactly once, and there are no sections exactly if there is no such candidate |
| CandidateSections.SquashTwice | backend/candidate_list.py:45-46 | normalised text has no outer, doubled or odd blanks, and normalising again changes nothing |
| CandidateSections.SquashKeepsText | backend/candidate_list.py:45-46 | it keeps every character that is not blank, in order, and which of them are apart |
| CandidateSections.BlankAscii | backend/candidate_list.py:45-46 | of ASCII exactly the whitespace of `str.split` is blank |
| CandidateSections.BlankBeyondAscii | backend/candidate_list.py:45-46 | beyond ASCII exactly its separators are |
| CandidateSections.NamesAreCandidates | backend/candidate_list.py:44-54 | a position lists each name as often as candidates of that position have it once normalised, and nothing without a name |
| CandidateSections.NamesInOrder | backend/candidate_list.py:44-54 | the names of a position stand in the order of their candidates |
| CandidateSections.PositionsInOrder | backend/candidate_list.py:44-54 | the sections stand in the order in which their positions first appear |
| CandidateSteps.LatestOf | backend/candidate_list.py:67-69 | the current list that was issued last, and none exactly if no list is current |
| CandidateList.NothingBeforehand | backend/candidate_list.py:117-118 | no list is issued, and no sweep does anything, before a sweep is due or a list is issued by hand |
| CandidateList.IssuedInSequence | backend/candidate_list.py:81-109 | with any number of concurrent issuers, lists are numbered 1 to n in insertion order; once all have superseded, at most the newest is current, and it is exactly if no issuer of an older list came after it |
| CandidateHistory.LostIff | backend/candidate_list.py:112-147 | with any number of issuers, by hand or by sweep: a change is lost if and only if every change is marked, the run is blind and the newest list differs from the approved candidates |
| CandidateHistory.TurnsBlindIff | backend/candidate_list.py:112-147 | a run turns blind exactly where the last mark is cleared while the newest list is older, or where an issuer that read before the last mark inserts its list after that was cleared |
| CandidateHistory.ClearingReader | backend/candidate_list.py:142-146 | a sweep that clears the last mark has read the candidates after it, so its own list is not the stale one |
| CandidateSolo.TurnsBlindByHand | backend/main.py:5912-5934 | where issuers take turns, a run turns blind exactly where a list issued by hand clears the flag after a mark later than its reading |
| CandidateSolo.NeverBlindIff | backend/main.py:5912-5934 | so along a run nothing is ever blind if and only if that never happens |
| CandidateSolo.NoLostChange | backend/candidate_list.py:112-147 | where issuers take turns among any editors: at rest exactly one list is current once there is any, no list is empty and none repeats the one before, and with sweeps alone, or lists by hand cleared in time, no change is lost |
| CandidateSolo.InTurnIff | backend/candidate_list.py:112-147 | taking turns means that whatever started along the run started when everybody was idle |
| CandidateSolo.ReissuedForAChange | backend/candidate_list.py:131-142 | where issuers take turns, a list after the first is inserted only for a change: by a sweep of the names and after 120 quiet seconds, by hand of the names or the look |
| CandidateSweep.SweptAlone | backend/candidate_list.py:112-147 | a sweep that nothing interrupts issues exactly if due, and clears the flag exactly if it neither waited nor found the candidates empty |
| CandidateSweep.IssuesIff | backend/candidate_list.py:117-139 | a list is issued if and only if there are candidates and either no list is current, or the last mark is at least 120 seconds old and the current list issued last shows other names |
| CandidateSweep.ClearsIff | backend/candidate_list.py:117-147 | the flag stays if and only if there are no candidates, or a list is current and no mark is 120 seconds old |
| CandidateSweep.IssuedListsAre | backend/candidate_list.py:85-110 | an issued list has the number after the greatest one, shows what was read, is current, and is the only one that is |
| CandidateSweep.Office.Issue | backend/candidate_list.py:81-109 | without interference the next number is free, the list is inserted and is the only current one |
| CandidateSweep.Office.MaybeIssue | backend/candidate_list.py:112-147 | the sweep as written does what the steps of the interleaved model do when nobody else moves |
| CandidateRaces.ManualIssueLosesAChange | backend/main.py:5907-5929 | a run in which issuing by hand clears the flag of a change that its list does not show |
| CandidateRaces.OverlappingSweepsLoseAChange | backend/candidate_list.py:112-147 | a run in which the slower of two sweeps puts an older list in force after the flag was cleared |
| CandidateRaces.FirstListsLoseAChange | backend/candidate_list.py:126-132 | a run of two sweeps, of which none waits, that lose a change made while the first list goes out |
| CandidateRaces.IssuersCanSupersedeEachOther | backend/candidate_list.py:101-109 | a run of two issuers after which no list is current |
| AuditChain.CommitIff | backend/main.py:1976-1984 | two ballots are hashed alike if and only if id, candidate and time are equal, both or neither have the newer format, and in that the rounds are equal, a missing one being the first |
| AuditChain.FoldInjective | backend/chain_verify.py:13-21 | from one starting hash, two ranges give the same hash if and only if they commit to the same fields in the same order |
| AuditChain.FoldSameBallots | backend/chain_verify.py:13-21 | that is, if and only if their ballots agree one by one in those fields |
| AuditChain.TextIff | backend/chain_verify.py:15-20 | the texts hashed for two ballots are equal if and only if the previous hash, the version and every committed field are, as only the round label may hold a separator |
| AuditChain.RenderedIff | backend/chain_verify.py:13-21 | so with a digest free of collisions the stored hashes are equal if and only if the chains behind them are |
| AuditChain.ChainVerify | backend/chain_verify.py:5-25 | the early-exit loop says valid if and only if every checkpoint recomputes, and otherwise names the first that does not with both hashes |
| AuditChain.VerifiesIffSameBallots | backend/chain_verify.py:5-25 | beside a log that verifies, another verifies if and only if in every range its ballots agree with the first one's, one by one |
| AuditChain.AlteredIff | backend/chain_verify.py:5-25 | a log in which one ballot is altered still verifies if and only if the ballot lies in no range or no hashed field was altered |
| AuditChain.TamperEvident | backend/chain_verify.py:5-25 | with contiguous checkpoints two logs that verify agree ballot by ballot up to the last checkpoint in id, candidate and time, and in the newer format in the round |
| AuditChain.HeadIsFold | backend/chain_verify.py:5-25 | the last hash of contiguous checkpoints that verify is the fold of every ballot up to the last id from the very start |
| AuditChain.SameHeadSameBallots | backend/chain_verify.py:5-25 | so the last hash alone suffices: two logs that verify against chains with the same last hash hold the same ballots up to there, even if the checkpoints were rewritten as well |
| AuditRuns.SealedRangeIff | backend/main.py:1961-1985 | in any sorted log, what a checkpoint folds is exactly its range if and only if every unsealed ballot has a larger id |
| AuditRuns.CastSafeIff | backend/main.py:1961-1985 | beside a chain that verifies, a ballot keeps it so if and only if it lies in no closed range |
| AuditRuns.InsertSafeIff | backend/main.py:1980-2000 | a checkpoint keeps it so if and only if its ends are taken or it has folded every ballot of its range |
| AuditRuns.AlwaysVerifiesIff | backend/main.py:1944-2000 | over every run of ballots and concurrent checkpoint makers the checkpoints are contiguous, and the chain verifies at every moment if and only if every step was safe in that sense |
| AuditRuns.CastIsLater | backend/main.py:1870-1885 | a ballot committed later lies behind every range already closed |
| AuditRuns.OvertakenClashes | backend/main.py:1994-2000 | of two checkpoints computed for one range, the second finds its lower end taken |
| AuditRuns.HonestRunVerifies | backend/main.py:1944-2000 | as long as no ballot reads the clock on both sides of a bucket's end, every step is safe and the chain verifies at every moment |
| AuditRuns.StraddlingBallotBreaksTheChain | backend/main.py:5269-5276 | for every bucket of at least a minute, every ballot that does so starts a run whose untouched log does not verify, unless its id is the least of its bucket |
| Percentile.HistIndex | backend/analytics.py:246-250 | the first bucket whose edge is not exceeded, or the open one |
| Percentile.Observe | backend/perf_metrics.py:152-153 | counts a value in its bucket and in no other |
| Percentile.HistPercentile | backend/analytics.py:228-243 | nothing exactly for an empty histogram; otherwise the interpolated value of the first non-empty bucket where the running count reaches the target, or the last edge if the share exceeds one |
| Percentile.WithinIs | backend/analytics.py:236-243 | the value divides its bucket as the target divides the bucket's content |
| Percentile.PercentileInBucket | backend/analytics.py:228-250 | for any samples, increasing positive edges and share in (0, 1], the value lies in the bucket of the true rounded-up-rank smallest sample, or is the lower edge of the open bucket |
| Percentile.PercentileMonotone | backend/analytics.py:228-243 | a higher percentile is never reported lower |
| SecondRing.Ring.Record | backend/perf_metrics.py:176-186 | recording in a slot starts it afresh exactly if it stood for another second, for any clock |
| SecondRing.Ring.Value | backend/perf_metrics.py:188-192 | a reading is the slot's content exactly if the slot stands for that second |
| SecondRing.Ring.WindowSum | backend/perf_metrics.py:790-800 | the total and the number of existing seconds of the window before the running second |
| SecondRing.Ring.Peak | backend/perf_metrics.py:815-822 | the greatest reading of the window, or zero |
| SecondRing.Ring.Consecutive | backend/perf_metrics.py:825-833 | the length of the longest streak ending with the last full second, up to the limit |
| SecondRing.ReadExact | backend/perf_metrics.py:163-192 | with a clock that does not go back, a reading of the last 900 seconds is exactly what was recorded in that second, or absent, never another second's data |
| SecondRing.LagIsGreatest | backend/perf_metrics.py:176-186 | the lag of a second is the greatest that was recorded in it, or zero |
| SecondRing.WindowSumExact | backend/perf_metrics.py:790-800 | a window of up to 899 full seconds sums to what the whole event log recorded in it |
| SecondRing.PresentExact | backend/perf_metrics.py:790-800 | and the seconds that exist are those in which something was recorded |
| SecondRing.HoldsExact | backend/perf_metrics.py:825-833 | a second counts towards a streak exactly if something was recorded in it and its total satisfies the predicate |
| SecondRing.PeakWindow | backend/perf_metrics.py:815-822 | the 900-second peak is exact except for its first second, which is missing exactly when something was recorded in the running second |
| GuessBucket.RefillSplits | backend/otp_limits.py:89-90 | waiting in two parts refills as much as waiting once |
| GuessBucket.RetryAfterIsLeast | backend/otp_limits.py:93-95 | with less than one token, a whole number of seconds brings a full one if and only if it is at least the answer, which is at least one |
| GuessBucket.BudgetIff | backend/otp_limits.py:71-86 | free guesses and the refill of a window stay within the budget if and only if the window is at most the longest interval times the paid guesses |
| GuessBucket.GuessBudgetIs | backend/otp_limits.py:71-73 | the budget is the accepted share of 900 000 codes, or one guess more than the free ones if that is more |
| GuessBucket.RefillIntervalIs | backend/otp_limits.py:83-86 | the interval spreads the paid guesses evenly over the window, unless that is outside the configured bounds |
| GuessBucket.SpendBound | backend/main.py:4244-4276 | any interleaving of attempts spends at most the free guesses and one token per interval of the elapsed time, plus of the time by which writes set the bucket back |
| GuessBucket.PayRisesIff | backend/main.py:4267-4273 | paying leaves the spent guesses plus the tokens, less one per interval of the bucket's time, no higher if and only if the clock was read no earlier than the bucket was written |
| GuessBucket.NeverRisesIff | backend/main.py:4257-4273 | along a run no step raises it if and only if every payment was in order in that sense |
| GuessBucket.InOrderNeverBack | backend/main.py:4257-4273 | no time is set back if every payment was in order |
| GuessBucket.WithinBudget | backend/otp_limits.py:71-90 | then, or with a single free guess, nobody exceeds the guess budget within a window that meets the condition |
| GuessBucket.StaleClockOverspends | backend/main.py:4257-4273 | for every interval and two or more free guesses, a run that gets within one interval one guess more than the free ones and the refill |
| GuessBucket.AlwaysBoundedIff | backend/main.py:4244-4276 | every run stays within the free guesses and the refill if and only if there is a single free guess |
| CandidatePages.WrapsIsLeast | frontend/src/candidateListPages.js:17-18 | the lines of a text hold it, and one fewer would not |
| CandidatePages.TakeNames | frontend/src/candidateListPages.js:39-47 | takes at least one name and as many as fit, and stops only before one that does not |
| CandidatePages.TurnPage | frontend/src/candidateListPages.js:36-38 | a new page exactly if neither the heading nor the next name fits under what is on this one |
| CandidatePages.Layout | frontend/src/candidateListPages.js:26-56 | the blocks rejoin to the sections with names, in order and numbered through; every block has a name; a page over capacity is one block with one name; no page ends while the next name fits; for any costs and capacities |
| CandidatePages.PageOkIff | frontend/src/candidateListPages.js:26-56 | what a well-filled page is, in numbers: it fits or is one name under one heading, and the first name of the next page would have been too much |
| CandidatePages.RejoinIff | frontend/src/candidateListPages.js:26-56 | a reader takes a block only with a name, and only where a section starts at zero or carries on its title and numbering |
| CandidatePages.NamedAre | frontend/src/candidateListPages.js:26-35 | the sections on the pages are those with names |
| CandidatePages.Paginate | frontend/src/candidateListPages.js:26-56 | the same with the costs and capacities of the printed sheet |
| CandidatePages.SheetsFit | frontend/src/candidateListPages.js:6-21 | with those, every page is within its capacity if no title or name takes more than ten lines |
| CandidatePages.SheetCosts | frontend/src/candidateListPages.js:6-21 | a name costs 27 px for each 48 characters begun, a heading 36 px and 18 px for each further 36 characters begun, with twelve more characters where a section continues |
| BulkSms.PrintableAscii | backend/sms_bulk.py:21-27 | of printable ASCII all but the backtick can be sent in the basic encoding, eight characters as two units |
| BulkSms.BeyondAscii | backend/sms_bulk.py:21-27 | beyond it exactly the listed letters and signs and line breaks, and as two units the euro and the form feed |
| BulkSms.FewestParts | backend/sms_bulk.py:46-50 | the parts are the fewest that hold a long message, with less than a part left over |
| BulkSms.CharsAre | backend/sms_bulk.py:32-45 | the basic encoding is taken exactly if it has every character, and the units are the characters, those of the extension table or beyond the 16-bit plane twice |
| BulkSms.PartsAre | backend/sms_bulk.py:46-50 | no part for no text, one up to the single limit, beyond it the fewest that hold the units, and what remains is the room left in them |
| BulkSms.AppendingNeverCheaper | backend/sms_bulk.py:32-50 | a longer message never takes fewer parts, even where its last character switches the encoding |
| BulkSms.AssignProviders | backend/sms_bulk.py:246-254 | one provider for every recipient; all of them the chosen or the default one unless the send is split |
| BulkSms.SplitExact | backend/sms_bulk.py:246-254 | the first m recipients of a split send contain exactly the rounded-down share of m for the first provider |
| BulkSms.EstimateVoters | backend/sms_bulk.py:195-226 | recipients, missing phones, total parts, the number of messages by parts, and the least and the greatest length, over the voters with a phone |
| BulkSms.RecipientsAre | backend/sms_bulk.py:195-226 | the recipients are the voters with a phone, each as often as given |
| BulkSms.EstimateIff | backend/sms_bulk.py:195-226 | what an estimate says, field by field |
| BulkSms.SpansIff | backend/sms_bulk.py:195-226 | the lengths are the least and the greatest, and absent exactly if there is no recipient |
| BulkSms.EstimateSplit | backend/sms_bulk.py:257-296 | every voter is accounted for once; totals, the histogram and the least and greatest length are over the recipients with the limits of their own provider; a provider is listed exactly if it has recipients |
| BulkSms.SplitIff | backend/sms_bulk.py:257-296 | what the totals and the list of providers of a split send say, field by field; a provider is listed exactly if it is assigned someone |
| BulkSms.EstimateSend | backend/sms_bulk.py:257-296 | the totals with the limits of two providers, and the exact share at every point |
| SmallGroups.SuppressSmallGroups | backend/roster_utils.py:242-260 | without small groups all are published or nothing if there are fewer than two; otherwise "Other" takes the fewest smallest large groups that bring it to k, and nothing is published if none would be left |
| SmallGroups.PublishedIsSafe | backend/roster_utils.py:242-260 | published groups are at least two, each of at least k, with the totals of the input |
| SmallGroups.EveryGroupPlaced | backend/roster_utils.py:249-260 | each input group is published under its own name or is in "Other": every small one, and the smallest large ones |
| SmallGroups.SmallestGo | backend/roster_utils.py:249-257 | no large group that stays is smaller than one that went into "Other" |
| SmallGroups.PublishedIff | backend/roster_utils.py:252-260 | something is published if and only if a large group is left when all others make k |
| SmallGroups.AllLargeIsSafe | backend/roster_utils.py:249-251 | without small groups every group is published as it is |
| SmallGroups.FinishedOrder | backend/roster_utils.py:235-239 | "Other" comes last, the groups before it do not grow, and those of one size go by their labels |

## Left out

- CounterStores.CounterDocumentsFromRows: nested dictionaries are values here, so sharing of an inner dictionary between two documents is not modelled.
- CounterStores.StoresAgree: `_id` and `day_dt` of the documents are not part of the model.
- FlushRuns.FlushOnce: one flush at a time with a positive chunk size; overlapping flushes at shutdown or a storage switch and the write path without chunks are not modelled. One bulk write is a left-to-right fold of its operations, any subset of which may land when it breaks.
- HistoryCopy.ExactlyOnce: retention deletes are not part of these runs; `CounterStores.RetentionKeepsRecent` says what they take.
- CounterStores.RunRefines: the two stores are compared before their 400-day expiries, which the document store does on its own.
- PostgresFlush.FlushOncePostgres: one flush at a time; a pool that cannot be reached is a transaction that rolls back.
- Restore.StreamApply: the stream is a whole verified chain; an integrity error found in the middle of a stream is not modelled.
- Backup.Engine.BackupTenant: the `organizations` export, the milestone and safety kinds, assets, retention locks and checksums are not modelled; attempts carry distinct timestamps.
- Mirror.SyncMirror: a digest stands for the content it was computed from. A read of a collection that changes meanwhile is any content; for a log, it holds all that was there at its start and nothing that was not at its end.
- BackupRuns.RoundTrip: what an export sees of a collection that changes meanwhile is taken as its content; for a log, it lies between its start and its end (`BackupLogs.LogBackupsIff`).
- LogTimes.AlwaysGrowIff: an entry commits within a given time after it has read the clock, for ballots the 60 seconds of grace, and all clocks agree.
- BackupRestore.RestoreBackup: the files of a complete manifest hold its documents, as the checksums of each file confirm; how a document is written down is a parameter.
- Migration.MigrateDatabase: the guard against one and the same cluster, reserved target names and the copying of indexes are not modelled; collections do not change during the pass.
- CandidateHistory.LostIff: every change is followed by its mark, with a time later than any before; a mark that fails and is swallowed is not modelled. The signature stands for the sections it was computed from.
- AuditChain.ChainVerify: SHA-256 (section 6.2 of FIPS 180-4) is taken to have no collisions (`AuditChain.RenderedIff`); checkpoints always carry a hash.
- AuditRuns.HonestRunVerifies: ballots from before the coarse time buckets are verified but not cast in the runs; a ballot commits within the grace period after reading the clock.
- Percentile.HistPercentile: reals, without rounding of floating-point numbers.
- SecondRing.Ring.Record: the parallel arrays of the ring are one array of cells.
- GuessBucket.SpendBound: deleting the stored bucket, by an administrator, after a right guess or by expiry, is not modelled, nor a change of the interval between attempts.
- BulkSms.EstimateVoters: costs, samples and missing placeholders are not modelled; rendering a template is the voter's text.
- SmallGroups.FinishedOrder: the rounded percentage of a group is not modelled.
- HTTP routes, authentication, e-mail and message gateways, object storage, compression, threads and environment parsing are input and output or code from elsewhere.
- The minute rings, alert sinks and the tenant database wrapper would only add easy members.
