# A verified model of the node

This project models the event node in Dafny and proves what its parts promise each other: that a replay resumed from a snapshot answers what a full replay answers, that peers which pull from each other end up with the same events, that the hash chain and the event ids commit to what they are computed from, and that the rate limiter and the alert figures stay within their bounds.

`dafny verify dfyconfig.toml` checks everything.

## How it is laid out

| files | part of the node |
|---|---|
| `Basics`, `Lex`, `Bps` | events and rows, string order, basis-point arithmetic |
| `ReplaySelection`, `ReplayQueries`, `SnapshotRace`, `ReplayRuns` | which rows a replay reads, and snapshots as a cache in front of it, over whole runs |
| `HashChain`, `IngestStores`, `IngestConcurrency` | the log, the chain, the database, and concurrent ingest under its lock |
| `Storage`, `Node`, `NodeNetwork` | the database class and the node class, whose methods change them in place, and what their pulls are in the network |
| `Listing`, `SyncNetwork`, `SyncPull`, `Bootstrap` | paged listing, pulls between nodes, starting from a peer's snapshot |
| `Backoff`, `Supervisor` | retry delays, the peers file, one cycle of the sync supervisor |
| `CanonicalJson`, `JsonReader`, `KeyOrder`, `EventIdentity`, `EnvelopeText` | canonical text and a reader of it, event ids, envelope verification |
| `RateLimiter` | the sliding window in front of ingest |
| `Coverage`, `Concentration`, `Rollup`, `RollupMeaning`, `ScoreChain`, `RollupFigures` | the roll-up of alerts and its figures |
| `HumanRisk`, `HumanRiskMeaning` | the person-to-human risk score |
| `PolicyRules`, `PolicyMeaning` | policy updates, their validation and normalisation |

State that the node keeps in memory is kept the same way here: `Database`, `LocalNode`, `EventLogFiles`, `IngestRateLimiter` and `TextBuffer` are classes, and each of their methods is tied to a function on values. The theorems are about those functions, over every run, every interleaving or every input. What a replay, a snapshot, a pull, a bootstrap and a roll-up leave behind is also said field by field, without those functions (`AnswersBy`, `AttemptRecorded`, `PulledFrom`, `PeerSeeded`, `ReportMeans`); so is which entry a hash chain must have, which evidence is charged, and which envelopes and policies are accepted (`VerificationWrittenOut`, `ChargesMean`, `AcceptanceMeans`, `AcceptanceWrittenOut`). Canonical texts are read back by a JSON reader that knows nothing of the printer.

The state engine is a parameter: a step function and a closing function. Its one law, `ReplayQueries.Resumable`, is that a run closed at some time and resumed later ends where an uninterrupted run ends. `crates/state-engine/src/replay.rs:3603-3609` sorts the lines it is given by time, id and line number; the model does the same in `ReplayOrder`.

## What turned out

These properties one would expect do not hold of the code. For each, one lemma shows the failure, on one input or on all inputs of a kind, and another says exactly when the property holds.

1. The delta of a snapshot is chosen by sequence number and by timestamp, the backfill check only looks behind the snapshot. A row that arrived before the snapshot but is stamped after it is in neither, so resuming loses it (`OutOfOrderStampIsLost`). A later snapshot taken by such a query inherits the loss, although it has missed no row itself (`LossIsInherited`).
2. `create_snapshot` replays first and reads the last sequence number afterwards, without the ingest lock. An event ingested in between is claimed by the snapshot but was never replayed, and the query at its time does not answer it (`EventInBetweenIsLost`), nor one that resumes a later snapshot taken undisturbed (`LossOutlivesRace`).

   For both, one condition is exact over every run, with nothing assumed of its snapshots: a query agrees with a genesis replay if and only if it is clean, which means that it resumes nothing, or a snapshot that has missed no row, during which nothing relevant arrived, and which was taken by a clean query (`CleanIsExact`).
3. A node bootstrapped from a snapshot behind which the peer has a backfill falls back to a replay of the rows it pulled, which is not the peer's history (`BackfilledPeerIsForgotten`). A snapshot that has lost an event passes the import check and loses it for the importing node too (`LossIsImported`). For every peer that any run can reach, the answers agree if and only if the peer is faithful to its snapshot and the checkpoint holds the events it claims, or is kept from being resumed by a backfill (`FaithfulIsExact`, `BootstrapFromRunExactlyWhen`). If the node had rows of its own, those numbered up to the snapshot's sequence number count as captured, and it agrees with its own genesis replay if and only if the checkpoint holds just their events and none of them is missed (`ImportAgreesExactlyWhen`).
4. The two inserts of an event are not one transaction. If the second fails the event stays unreadable for good, and is reported as already present ever after. It does so exactly when only the second insert of a new event fails (`OrphanIsMade`, `OrphansStayOrphans`).
5. If the log or the chain head cannot be read back, ingest goes on with zero or with the genesis hash, and verification fails in every later state (`SpoilingBreaks`, `BrokenStaysBroken`). It succeeds if and only if no call of the run spoiled the chain (`VerifiesExactlyUnspoiled`).
6. Two pulls from one peer that overlap can store an older cursor over a newer one (`OverlappingPullsGoBack`), and a pull can undo the cursor that a bootstrap has set meanwhile (`OpenPullUndoesSeed`). In every run, finishing a pull lowers the cursor if and only if what last set it since the pull started was another pull that finished further on or a bootstrap that went further, and not a reset (`FinishLowersExactlyWhen`).
7. A pulled event whose ingest fails in the stores is counted as rejected and the cursor passes it, so it is never asked for again (`StorageFaultSkipsRow`). Which events of a pull are stored, and which of them can be read, is decided by the faults of the calls they were offered in (`PullStoresExactly`).
8. `ServiceCancel` and `OrderAmend` are ingested, but no replay query names them: a query reads a row of a kind if and only if it is one of the other fifteen (`IsReplayKind`, `CancelAndAmendAreNeverReplayed`).
9. Widening the window of the rate limiter brings back requests it has already dropped (`WideningForgets`). After any orderly run the limiter, reconfigured, decides as the full history would if and only if none of the dropped requests is inside the new window (`ReconfigurationAgreesExactlyWhen`).
10. Coming back after the advised retry time is not always enough: the time is rounded down (`RoundedAdviceIsTooShort`), and it waits for the oldest request only, which does not suffice once the limit has been lowered (`LoweredLimitAdviceIsTooShort`). It is enough if and only if the limit-th last of the kept requests has left the window by then (`AdviceSufficesExactlyWhen`); under one limit that is the case if and only if the wait was whole seconds or at most one (`AdviceUnderOneLimit`).
11. The failure count is cut to 32 bits before the delay is computed. That takes 2^32 failures in a row, after which the delay starts over (`WrappedCountIsForgotten`); the delay is still right if and only if the wrapped count doubles the interval to 300 or more (`CastShowsExactlyWhen`).

Two more results are facts about functions, not failures of the node, because it never calls them with the inputs in question:

- The coverage count is the least number of services that reach a target if and only if the target is positive (`CoverageIsLeast`); for zero it is one. The node asks for 5000, 8000 and 9500 only (`crates/node/src/lib.rs:3921-3925`).
- The highest severity of a roll-up is independent of the order of the alerts if and only if the top-ranking ones carry one severity (`HighestIsOrderFreeExactlyWhen`, `UnknownSeveritiesDependOnOrder`). The node names three severities only (`crates/node/src/lib.rs:6011-6017`), and for those the whole report is order-free (`RollUpIsOrderFree`).

## Model

| member | source | states |
|---|---|---|
| ReplaySelection.IsReplayKind | crates/node/src/storage.rs:79-95 | the test is membership in the fifteen kinds the replay queries name |
| ReplaySelection.FourQuadrants | crates/node/src/storage.rs:551-649 | a snapshot cuts the genesis rows into captured, backfilled, delta and missed rows, and nothing is lost or counted twice |
| ReplaySelection.SnapshotPlusDeltaRows | crates/node/src/storage.rs:551-649 | without a backfill, replaying the captured rows and then the delta is replaying the genesis rows, in replay order, if and only if no row is missed |
| ReplaySelection.SnapshotPlusDeltaInSequence | crates/node/src/storage.rs:594-649 | the same equivalence for the rows in sequence order, against the rows the snapshot replayed |
| ReplaySelection.CheckpointAgreesExactlyWhen | crates/node/src/lib.rs:3251-3273 | a checkpoint of which only the stamps are known, resumed over its delta, gives the genesis rows if and only if it holds what it claims and no row is missed |
| ReplaySelection.SortedIsUnique | crates/state-engine/src/replay.rs:3603-3609 | rows with distinct ids have one replay order only, so a delta cannot depend on how it was listed |
| ReplaySelection.CancelAndAmendAreNeverReplayed | crates/protocol-core/src/lib.rs:619-621 | a row of the two kinds that ingest supports and the queries do not name changes no selection |
| ReplayQueries.LatestReplaySeqIsMax | crates/node/src/storage.rs:517-549 | the recorded sequence number bounds all replay rows up to the time and is one of them or zero |
| ReplayQueries.LatestSnapshotIsLatest | crates/node/src/storage.rs:441-485 | the snapshot found is stored, not after the time, and no stored one is of a later time, or of the same time and created later |
| ReplayQueries.QueryAnswers | crates/node/src/lib.rs:3242-3292 | on every store a query runs exactly the rows it should, in order of stamp, id and line, from the newest snapshot if that is usable and from the start otherwise, said of the fields alone |
| ReplayQueries.RecorderIsResumable | crates/state-engine/src/replay.rs:3603-3609 | the law asked of the engine can be met |
| ReplayQueries.ResumeIsGenesis | crates/node/src/lib.rs:3242-3292 | an honest checkpoint resumed over its delta equals the genesis replay when nothing is backfilled or missed |
| ReplayQueries.GuardedQueryIsGenesis | crates/node/src/lib.rs:3242-3292 | a query whose snapshot has no missed row answers as the genesis replay, whichever branch it takes |
| ReplayRuns.GuardedRunsAgree | crates/node/src/lib.rs:2008-2045 | along every run whose snapshots are guarded and undisturbed, each stored checkpoint, also one built on an earlier snapshot, is the genesis fold of what it captured, and every guarded query agrees with genesis |
| ReplayRuns.TimeOrderedRunsAgree | crates/node/src/lib.rs:3242-3292 | if ingest order agrees with time order and no snapshot is disturbed, every query at every time agrees with genesis, without any guard |
| ReplayQueries.TimeOrderGuards | crates/node/src/lib.rs:3251-3273 | rows in time order leave no row for a snapshot to miss |
| ReplayRuns.CleanIsExact | crates/node/src/lib.rs:3242-3292 | for the engine that remembers its input, over every run of ingests and snapshots with anything arriving between their reads, a query agrees with genesis if and only if it is clean |
| ReplayRuns.CleanQueriesAgree | crates/node/src/lib.rs:3242-3292 | for every engine and every such run, a clean query agrees with genesis |
| ReplayRuns.ResumedAgreesExactlyWhen | crates/node/src/lib.rs:2008-2045 | one step back: a query that resumes a snapshot agrees if and only if the query behind the snapshot did, nothing arrived meanwhile, and no row is missed |
| ReplayRuns.ClaimsAreStable | crates/node/src/lib.rs:2008-2045 | what a snapshot claims never changes in a run: the rows there were when its number was read |
| ReplayRuns.AnswersAreStored | crates/node/src/lib.rs:3242-3292 | in every run an answer holds only stored rows stamped up to the time asked for |
| ReplayRuns.AnswersAreChronological | crates/state-engine/src/replay.rs:3603-3609 | in every run every answer, resumed or genesis, has replayed its events by rising stamp and, for one stamp, by rising id |
| ReplayRuns.OutOfOrderStampIsLost | crates/node/src/storage.rs:594-649 | two ingests and a snapshot after which the resumed answer lacks a row that genesis has |
| ReplayRuns.LossIsInherited | crates/node/src/lib.rs:2008-2045 | a second snapshot after that is resumed with no row missed, and still lacks the row |
| ReplayRuns.EventInBetweenIsLost | crates/node/src/lib.rs:2008-2045 | on an empty store, one event between the two reads is claimed and never answered at its time |
| ReplayRuns.LossOutlivesRace | crates/node/src/lib.rs:2008-2045 | a second, undisturbed and guarded snapshot at that time lacks the event as well |
| SnapshotRace.CapturedExactlyWhenUndisturbed | crates/node/src/lib.rs:2008-2033 | the rows a snapshot claims are those it replayed if and only if no event it should have replayed arrived between its two reads |
| SnapshotRace.UndisturbedSnapshotIsOk | crates/node/src/lib.rs:2008-2045 | an undisturbed snapshot holds the genesis fold of what it claims |
| SnapshotRace.ClaimedExactlyWhen | crates/node/src/lib.rs:2008-2033 | an answer made of stored rows is the replay of what the snapshot then claims if and only if it is the genesis replay and nothing it should have replayed arrived in between |
| HashChain.VerifiedMeans | crates/node/src/event_log_chain.rs:66-96 | verification succeeds if and only if every entry has its number, its line's hash and the head of the log up to it, and then returns the last chain hash |
| HashChain.VerificationWrittenOut | crates/node/src/event_log_chain.rs:66-96 | verification succeeds exactly if every entry has its number, the hash of its trimmed line and the hash of the chain hash before, a colon and that, and otherwise reports the first entry that does not, by the first thing wrong with it |
| HashChain.HeadsWrittenOut | crates/node/src/event_log_chain.rs:9-29 | the first head is the hash of the label, each next one that of the head before, a colon and the hash of the line |
| HashChain.AppendKeepsVerified | crates/node/src/event_log_chain.rs:98-128 | appending a line and its entry to a verified pair verifies to the new head |
| HashChain.HeadDeterminesLines | crates/node/src/event_log_chain.rs:19-29 | without a collision among the texts hashed, equal heads mean equal logs, the empty log included |
| HashChain.HeadIsNotGenesis | crates/node/src/event_log_chain.rs:19-29 | no log but the empty one has the genesis head |
| HashChain.HeadCommitsToLog | crates/node/src/event_log_chain.rs:66-96 | two log and chain pairs that verify to one head have equal lines, and entries equal but for the event id |
| HashChain.EventLogFiles.AppendEventLine | crates/node/src/lib.rs:1366-1366 | the log file grows by the line |
| HashChain.EventLogFiles.ReadLogLines | crates/node/src/event_log_chain.rs:52-64 | the trimmed, non-empty lines in order |
| HashChain.WhiteCharacters | crates/node/src/event_log_chain.rs:52-64 | which characters are trimmed |
| HashChain.TrimMeans | crates/node/src/event_log_chain.rs:52-64 | trimming takes white space off both ends, and nothing else |
| HashChain.EventLogFiles.AppendChainEntry | crates/node/src/event_log_chain.rs:98-120 | the chain file grows by the entry for the line |
| HashChain.EventLogFiles.VerifyChainAgainstLog | crates/node/src/event_log_chain.rs:66-96 | the loop that stops at the first misfit succeeds exactly if all entries fit, and returns the head |
| IngestStores.RunRowsOk | crates/node/src/storage.rs:223-263 | whatever fails, the replayable rows keep rising numbers and distinct ids, and each has its log line |
| IngestStores.IngestMeans | crates/node/src/lib.rs:1342-1444 | the answer of one call for every combination of faults, and what each store has afterwards |
| IngestStores.ChainedEntryMeans | crates/node/src/lib.rs:1384-1416 | the entry a call chains, what could not be read back counting as nothing |
| IngestStores.FaultlessRunsStayInStep | crates/node/src/lib.rs:1342-1444 | without faults log lines, chain entries, stored events and ordered rows correspond one to one, and the chain verifies to its head |
| IngestStores.ReingestIsIdempotent | crates/node/src/lib.rs:1345-1356 | a second ingest of an event changes nothing and reports already present |
| IngestStores.IngestIsInsertion | crates/node/src/lib.rs:1418-1444 | one ingest is one insertion into the table that replay reads |
| IngestStores.OrphanIsMade | crates/node/src/storage.rs:223-263 | an orphan arises exactly when only the second insert of a new event fails |
| IngestStores.OrphansStayOrphans | crates/node/src/lib.rs:1345-1356 | no later run makes an orphan readable, and each later ingest of it reports already present |
| IngestStores.BrokenStaysBroken | crates/node/src/lib.rs:1384-1416 | a chain that misfits its log misfits it after every further call |
| IngestStores.VerifiesExactlyUnspoiled | crates/node/src/lib.rs:1384-1416 | after any run with any faults, verification succeeds if and only if no call lost or falsified a chain entry |
| IngestConcurrency.CompleteIsIngest | crates/node/src/lib.rs:1342-1444 | the small steps of one call, taken in a row, are the call |
| IngestConcurrency.InterleavingIsSequential | crates/node/src/lib.rs:1342-1444 | every interleaving of concurrent calls gives the stores and the answers of the calls one after the other in lock order |
| IngestConcurrency.OneThreadWrites | crates/node/src/lib.rs:1344-1344 | only the holder of the lock is past its acquisition |
| IngestConcurrency.FirstCallIsAccepted | crates/node/src/lib.rs:1344-1356 | of any number of fault-free calls with one event, one stores it and the others see it |
| IngestConcurrency.EveryOrderIsARun | crates/node/src/lib.rs:1342-1444 | every list of valid calls, with any faults, is the lock order of some run |
| IngestConcurrency.CallCanBeMade | crates/node/src/lib.rs:1342-1444 | when the lock is free an idle thread can call, and gets what one ingest returns |
| Storage.Database.InsertEvent | crates/node/src/storage.rs:223-263 | what each of the two statements leaves when it or the other fails |
| Storage.Database.ListEvents | crates/node/src/storage.rs:303-368 | the loop returns the first page of the listing |
| Storage.Database.LatestReplayEventSeqAtOrBefore | crates/node/src/storage.rs:517-549 | the loop returns the maximum and bounds every replay row up to the time |
| Storage.Database.HasReplayBackfillSinceSeq | crates/node/src/storage.rs:551-592 | true exactly if some row is behind the sequence number and not after the snapshot |
| Storage.Database.ListReplayEventLines | crates/node/src/storage.rs:594-649 | exactly the matching rows, in sequence order |
| Storage.Database.FindLatestSnapshotAtOrBefore | crates/node/src/storage.rs:441-485 | the newest snapshot not after the time |
| Storage.Database.InsertSnapshot | crates/node/src/storage.rs:370-398 | the table grows by the snapshot |
| Storage.Database.EnsureEventOrderSequenceAtLeast | crates/node/src/storage.rs:651-670 | the counter is raised to the bound, never lowered |
| Storage.Database.UpsertPeerSyncState | crates/node/src/storage.rs:736-779 | replaces the state of that peer only |
| Node.LocalNode.IngestEvent | crates/node/src/lib.rs:1342-1444 | the method on files and database does what the ingest of the three stores says, fault by fault |
| Node.LocalNode.ChainEvent | crates/node/src/lib.rs:1384-1416 | the chain write, with the silent fallbacks for an unreadable log or head |
| Node.LocalNode.ReplayExecution | crates/node/src/lib.rs:3242-3292 | answers as the specified query on the contents of the database, and so as the fields of the tables say: which snapshot, which rows, in which order |
| Node.LocalNode.CreateSnapshot | crates/node/src/lib.rs:2008-2045 | the table grows by a snapshot of that time, format 5, with the answer of the query and the largest replayed number up to the time |
| Node.LocalNode.TakeInPage | crates/node/src/lib.rs:1829-1847 | ingests a page in order and tallies the answers |
| Node.LocalNode.PullAllPages | crates/node/src/lib.rs:1801-1852 | the page loop does what the recursive pull does |
| Node.LocalNode.SyncPeerPullOnce | crates/node/src/lib.rs:1774-1885 | stores and result of the pull; the stored cursor, failure count, error, time of success and next attempt, field by field; and nothing at all when the attempt comes too early |
| Node.LocalNode.SyncBootstrapFromPeer | crates/node/src/lib.rs:1590-1691 | refuses a bad or conflicting snapshot unchanged; otherwise the pull starts at the larger of old cursor and snapshot number, the counter is raised to it, every added row is numbered behind it, and an empty node ends with the database the bootstrap theorems speak of |
| Node.LocalNode.ImportAndPull | crates/node/src/lib.rs:1590-1691 | the import, the seeding and the pull, in the terms of the specified pull |
| Node.FaultlessPullIsPull | crates/node/src/lib.rs:1812-1852 | without faults a pull into the three stores is the pull into a bare log |
| Node.PullIsOnePage | crates/node/src/lib.rs:1801-1852 | stores and cursor after a pull are those after one page of all rows offered |
| Node.PullStoresExactly | crates/node/src/lib.rs:1801-1852 | for every pull, fault and id: stored afterwards if and only if it was before or some offered row of it is accepted and spared, and readable under the same condition with the second insert |
| Node.StorageFaultSkipsRow | crates/node/src/lib.rs:1829-1847 | in every pull, a row offered once under a new id is stored exactly if the faults of its call spare it, readable exactly if the second insert succeeds too, passed by the cursor in any case, and on no later page |
| Node.DueAgain | crates/node/src/lib.rs:1854-1873 | after a failure the peer is due again exactly after the backoff delay, after a success at once |
| Node.AttemptIsRecorded | crates/node/src/lib.rs:1854-1885 | what a finished attempt stores for the peer, field by field |
| Node.FailuresInARow | crates/node/src/lib.rs:1863-1873 | after k failed attempts from none on, the count is k and the wait the interval doubled k times, at most 300 seconds |
| Node.PullFromGrows | crates/node/src/lib.rs:1801-1852 | whatever fails, a pull keeps the order rows, numbers new ones behind the counter and does not lower the cursor |
| NodeNetwork.NodePullIsRun | crates/node/src/lib.rs:1774-1885 | a fault-free pull by the node is a run from Start to Finish of the network, whatever happens elsewhere meanwhile, on the cursor the node has stored |
| NodeNetwork.StoredCursorCovers | crates/node/src/lib.rs:1809-1856 | after it, every peer row up to the cursor in the database, but for those a bootstrap passed over, is stored or was refused |
| NodeNetwork.SeedingIsStep | crates/node/src/lib.rs:1651-1664 | what a bootstrap seeds is the step Seed of the network |
| Node.EmptyNodeBootstraps | crates/node/src/lib.rs:1590-1691 | a completed bootstrap of an empty node leaves the database that the equivalence speaks of |
| Listing.PageSize | crates/node/src/lib.rs:1992-2000 | every limit is clamped to 1..200, and kept inside that range |
| Listing.PageTakesFromFront | crates/node/src/storage.rs:303-368 | a page is the front of the listing, as long as the limit or the whole |
| Listing.PageIsComplete | crates/node/src/storage.rs:303-368 | a page leaves out no row up to its last one, a short page none at all |
| Listing.ListedAfterPrefix | crates/node/src/lib.rs:1985-2006 | moving the cursor to a row drops exactly the rows up to it |
| Listing.CollectEventsForMetrics | crates/node/src/lib.rs:3311-3339 | the cursor loop ends with exactly the rows of the kind up to the time, once each, in order |
| Listing.FollowingRebuilds | crates/node/src/lib.rs:3341-3357 | following the cursor of a view gives the list back, for every limit and start |
| SyncNetwork.RunKeepsOk | crates/node/src/lib.rs:1774-1885 | the invariant of all logs, cursors and pulls survives every interleaving of ingests, pulls, resets and bootstrap seedings |
| SyncNetwork.CursorCoversPeer | crates/node/src/lib.rs:1809-1854 | every peer row up to a stored cursor that no bootstrap passed over is present or was refused by the validation of the node that pulled it |
| SyncNetwork.AbandonAndReset | crates/node/src/lib.rs:1512-1546 | giving a pull up closes it and stores nothing, and after a reset the next pull reads from the start |
| SyncNetwork.FinishLowersExactlyWhen | crates/node/src/lib.rs:1854-1856 | in every run, finishing a pull lowers the stored cursor if and only if what last set it since this pull started was another pull that finished further on or a bootstrap that went further, with no reset after it |
| SyncNetwork.ExclusivePullsNeverGoBack | crates/node/src/lib.rs:1854-1856 | from the empty network on, while a peer is pulled or bootstrapped from one at a time and not reset, its cursor does not fall between any two moments of the run |
| SyncNetwork.OverlappingPullsGoBack | crates/node/src/lib.rs:1774-1885 | two pulls from one peer after which the stored cursor is lower |
| SyncNetwork.OpenPullUndoesSeed | crates/node/src/lib.rs:1653-1660 | a pull that is open during a bootstrap stores its older cursor over the seeded one |
| SyncNetwork.QuietNetworkAgrees | crates/node/src/lib.rs:1774-1885 | once every pull along a connected network has caught up, all nodes hold the same of those ids whose events every node accepts and no bootstrap has passed over |
| SyncNetwork.QuietAlikeNetworkAgrees | crates/node/src/lib.rs:1774-1885 | if all nodes validate alike and none was bootstrapped, they then hold the same ids altogether |
| SyncPull.PullKeeps | crates/node/src/lib.rs:1812-1852 | against any peer the counters balance, the cursor does not fall and the log only grows by the accepted |
| SyncPull.HonestPullCovers | crates/node/src/lib.rs:1812-1852 | against a peer whose log may grow meanwhile, everything up to the cursor has been taken in |
| SyncPull.QuietEndIsCaughtUp | crates/node/src/lib.rs:1824-1851 | a pull that ends early without error has all rows of the page last served |
| SyncPull.CompletedPullOffersTail | crates/node/src/lib.rs:1812-1852 | a completed pull is one offer of the whole tail, whatever the page size |
| SyncPull.FreshTailIsStored | crates/node/src/lib.rs:1829-1845 | rows new to a log are stored under consecutive numbers |
| Bootstrap.HonestSnapshotIsImportable | crates/node/src/lib.rs:1887-1927 | a snapshot an honest peer took passes the import check |
| Bootstrap.PulledRowsLandBehind | crates/node/src/storage.rs:651-670 | after seeding, every pulled row has a number above the snapshot's, and no backfill is seen unless the peer had one |
| Bootstrap.BootstrappedAnswer | crates/node/src/lib.rs:3242-3292 | what the bootstrapped node answers, with and without a backfill at the peer |
| Bootstrap.BootstrapAgrees | crates/node/src/lib.rs:1590-1691 | with a faithful peer it answers every time from the snapshot on as the peer's genesis replay |
| Bootstrap.TimeOrderedPeerIsFaithful | crates/node/src/lib.rs:1590-1691 | a peer whose rows are in time order is faithful |
| Bootstrap.FaithfulIsExact | crates/node/src/lib.rs:3251-3273 | for the engine that remembers events and any offered checkpoint with no event stamped after its time, the answers agree if and only if the peer is faithful and the checkpoint holds the events it claims, or is not resumed because of a backfill |
| Bootstrap.BootstrapFromRunExactlyWhen | crates/node/src/lib.rs:1590-1691 | the same condition is exact for every snapshot of every peer that a run of ingests and snapshots can reach |
| Bootstrap.LossIsImported | crates/node/src/lib.rs:1887-1927 | a peer whose snapshot raced with its only event offers it, the import check passes, and the bootstrapped node never answers the event |
| Bootstrap.BackfilledPeerIsForgotten | crates/node/src/lib.rs:3251-3273 | a peer with one event captured and one backfilled, whose bootstrapped copy answers the second only |
| Bootstrap.ImportAgreesExactlyWhen | crates/node/src/lib.rs:1590-1691 | a node with rows of its own that resumes an imported snapshot agrees with its genesis replay if and only if the checkpoint holds the events of its rows up to the snapshot's number and none is missed |
| Bootstrap.CompletedBootstrap | crates/node/src/lib.rs:1653-1676 | a pull without error that stops before the page limit completes the bootstrap |
| Backoff.DelayIsExponential | crates/node/src/lib.rs:7207-7212 | the delay is the least of 300 and the interval doubled per failure; the cap at 20 and the 64-bit saturation are never felt |
| Backoff.DelayIsMonotone | crates/node/src/lib.rs:7207-7212 | more failures never shorten it |
| Backoff.CastShowsExactlyWhen | crates/node/src/lib.rs:1864-1870 | the cut of the failure count to 32 bits leaves the delay unchanged if and only if there are fewer than 2^32 failures or the wrapped count still doubles the interval to 300 |
| Backoff.WrappedCountIsForgotten | crates/node/src/lib.rs:1864-1870 | after 2^32 failures in a row the delay is the bare interval instead of 300 |
| Supervisor.ValidatePeerConfig | crates/node/src/lib.rs:7135-7173 | accepts exactly the version-1 files with usable entries and distinct trimmed ids, returns them in order, and otherwise names the first entry that is wrong and why |
| Supervisor.DuePeers | crates/node/src/lib.rs:1724-1734 | the enabled peers whose next attempt is not in the future, in the order of the file |
| Supervisor.FileGivesOneTaskEach | crates/node/src/lib.rs:1710-1772 | from an accepted peers file on, in every state of the cycle no peer is being pulled twice, the flags are those of the tasks that hold one, and they are at most the configured number |
| Supervisor.BeginCycle | crates/node/src/lib.rs:1710-1734 | a cycle begins exactly if the file is accepted, with one task for each due peer, and no state of it has two tasks for a peer |
| Supervisor.InFlightIsBounded | crates/node/src/lib.rs:1736-1766 | in every state of every cycle the peers in flight hold permits, and are at most the configured number or one |
| Supervisor.EndedCycleIsClean | crates/node/src/lib.rs:1739-1771 | at the end every due peer was launched once, in order, no flag is set and all permits are back |
| Supervisor.RunsAreFinite | crates/node/src/lib.rs:1710-1772 | every step uses up one unit of a fixed budget |
| Supervisor.NeverStuck | crates/node/src/lib.rs:1736-1766 | until the end some step is possible, even with a parallelism of zero |
| Supervisor.CyclesEnd | crates/node/src/lib.rs:1710-1772 | a cycle over n due peers ends after exactly 5n + 1 steps |
| JsonReader.PrintedReads | crates/protocol-core/src/lib.rs:1744-1777 | an independent reader takes a printed value off the front of a text, and stops where it ends |
| JsonReader.EscapedReads | crates/protocol-core/src/lib.rs:1749-1749 | it reads an escaped string up to its closing quote as the string |
| JsonReader.PrintSplits | crates/protocol-core/src/lib.rs:1744-1777 | so a printed value followed by a delimiter can be read off a text in one way only |
| JsonReader.EscapeCharIsShortest | crates/protocol-core/src/lib.rs:1749-1749 | of all texts read as one character the printed one is the shortest, and the only one of that length but for upper-case digits |
| JsonReader.EscapeIsShortest | crates/protocol-core/src/lib.rs:1749-1749 | no text read as a string is shorter than the printed one |
| KeyOrder.TextReadsBack | crates/protocol-core/src/lib.rs:1650-1654 | the canonical text is read back as the value in key order |
| JsonReader.NumbersAreWellFormed | crates/protocol-core/src/lib.rs:1744-1777 | every number of JSON may stand in a value |
| KeyOrder.NormalDecidesEquiv | crates/protocol-core/src/lib.rs:1760-1774 | two values sort to the same value exactly if they are equal up to key order, at every depth |
| KeyOrder.TextDecidesEquiv | crates/protocol-core/src/lib.rs:1744-1777 | two values have the same canonical text if and only if they are equal up to key order |
| Lex.FirstDifferenceDecides | crates/protocol-core/src/lib.rs:1762-1763 | the order of keys is decided by the first character that differs, and a key comes before its extensions |
| KeyOrder.SortedKeys | crates/protocol-core/src/lib.rs:1762-1763 | the keys of the sorted members, in order |
| KeyOrder.WriteCanonicalJson | crates/protocol-core/src/lib.rs:1744-1777 | appends the canonical text to the buffer and leaves what was there |
| KeyOrder.WriteMembers | crates/protocol-core/src/lib.rs:1760-1774 | the loop over sorted keys prints the sorted members |
| KeyOrder.CanonicalizeValue | crates/protocol-core/src/lib.rs:1650-1654 | returns a text that equals the text of another value exactly if the two are equal up to key order |
| EventIdentity.ToCanonicalValue | crates/protocol-core/src/lib.rs:1619-1648 | inserts the fields, references and nonce only if present, into a well-formed object |
| EventIdentity.TextDecidesContent | crates/protocol-core/src/lib.rs:1619-1654 | two envelopes have the same canonical text if and only if they agree in every field, the presence of references and nonce included |
| EnvelopeText.CanonicalTextWrittenOut | crates/protocol-core/src/lib.rs:1619-1654 | the text that is hashed and signed, written out: keys in order, values quoted, optional fields only if present |
| EventIdentity.EventIdNamesContent | crates/protocol-core/src/lib.rs:1469-1477 | unless the digest collides on the two texts, ids agree exactly if contents do |
| EventIdentity.AcceptedUnderOneId | crates/protocol-core/src/lib.rs:1533-1562 | two verified envelopes share an id exactly if they share their content |
| EventIdentity.TamperingIsRefused | crates/protocol-core/src/lib.rs:1533-1562 | a verified envelope stays verified under a changed content exactly if only key order changed |
| EnvelopeText.AcceptanceMeans | crates/protocol-core/src/lib.rs:1533-1562 | an envelope is accepted exactly if version, key, signature form, time, id of the written-out text, key and signature of that text all hold |
| EnvelopeText.RefusalMeans | crates/protocol-core/src/lib.rs:1533-1562 | and is refused for the first of them that fails |
| RateLimiter.Config.Normalized | crates/node/src/ingest_rate_limit.rs:23-34 | the window becomes at least a second, the limit stays, an enabled configuration is kept |
| RateLimiter.RecentOfRecent | crates/node/src/ingest_rate_limit.rs:97-97 | pruning loses nothing that a later, no wider window could see |
| RateLimiter.PruningChangesNothing | crates/node/src/ingest_rate_limit.rs:81-124 | over every run with a clock that does not step back and windows that do not widen, each decision and each retry time is that of the full history |
| RateLimiter.HistoryIsDroppedThenBucket | crates/node/src/ingest_rate_limit.rs:97-97 | along every orderly run the history of a client is what was dropped followed by the bucket |
| RateLimiter.ReconfigurationAgreesExactlyWhen | crates/node/src/ingest_rate_limit.rs:63-66 | reconfigured after any orderly run, the limiter decides as the full history for every limit and every orderly continuation if and only if nothing dropped is inside the new window |
| RateLimiter.WideningForgets | crates/node/src/ingest_rate_limit.rs:63-66 | a widened window lets through a request that the history refuses |
| RateLimiter.AnyWindowHoldsAtMost | crates/node/src/ingest_rate_limit.rs:81-124 | a spread history has at most the limit in any window, wherever it starts |
| RateLimiter.RefusalMeansLimit | crates/node/src/ingest_rate_limit.rs:99-118 | after every run a request is let through exactly if fewer than the limit were let through in the window that ends with it, and refused exactly at the limit |
| RateLimiter.LimitHolds | crates/node/src/ingest_rate_limit.rs:81-124 | in every run under one configuration, the requests of a client that were let through are at most the limit in any window |
| RateLimiter.ClientsAreIndependent | crates/node/src/ingest_rate_limit.rs:94-96 | each client is answered as if it were alone, through reconfigurations too |
| RateLimiter.AdviceSufficesExactlyWhen | crates/node/src/ingest_rate_limit.rs:99-113 | for every refusal after every run, reconfigurations included: coming back after the advised seconds succeeds if and only if the limit-th last kept request has left the window |
| RateLimiter.AdviceUnderOneLimit | crates/node/src/ingest_rate_limit.rs:99-113 | under one configuration, if and only if the wait was whole seconds or at most one |
| RateLimiter.RoundedAdviceIsTooShort | crates/node/src/ingest_rate_limit.rs:101-109 | a wait of one and a half seconds is advised as one, and the client is refused again |
| RateLimiter.LoweredLimitAdviceIsTooShort | crates/node/src/ingest_rate_limit.rs:63-66 | after the limit was lowered, a client that follows an advice without rounding is refused again |
| RateLimiter.Retain | crates/node/src/ingest_rate_limit.rs:97-97 | the loop keeps the requests inside the window, in order |
| RateLimiter.IngestRateLimiter.SetConfig | crates/node/src/ingest_rate_limit.rs:63-66 | replaces the configuration by the normalised one and keeps the buckets |
| RateLimiter.IngestRateLimiter.Handle | crates/node/src/ingest_rate_limit.rs:81-124 | state and decision after a request, on the pruned bucket of that client |
| Bps.RatioOfPart | crates/node/src/lib.rs:3505-3511 | the share of a part is exact, at most 10000 and monotone in the part |
| Coverage.GreedyIsBest | crates/node/src/lib.rs:6284-6300 | no set of k services has more alerts than the k largest |
| Coverage.CoverageCount | crates/node/src/lib.rs:6284-6300 | the loop returns the first prefix that reaches the target, and always finds one up to 10000 |
| Coverage.CoverageIsLeast | crates/node/src/lib.rs:6284-6300 | that is the least size of any set of services reaching the target, if and only if the target is positive |
| Coverage.CoverageIsMonotone | crates/node/src/lib.rs:3920-3925 | a higher target never needs fewer services |
| Concentration.CauchySchwarz | crates/node/src/lib.rs:3884-3910 | the square of the sum is at most the number of counts times their squares, with equality exactly for equal counts |
| Concentration.HhiBounds | crates/node/src/lib.rs:3884-3898 | the index lies between an even share and 10000, and is 10000 exactly for a single service |
| Concentration.EffectiveBounds | crates/node/src/lib.rs:3904-3910 | the effective number lies between one service and all, and is all exactly for equal counts |
| Concentration.EvennessBounds | crates/node/src/lib.rs:3949-3953 | evenness is at most 1000, and 1000 exactly for equal counts |
| Concentration.PairBound | crates/node/src/lib.rs:6885-6895 | the sum of all pairwise differences is at most 2(n-1) times the total |
| Concentration.GiniBound | crates/node/src/lib.rs:6881-6905 | the coefficient is at most 10000(n-1)/n |
| Concentration.FiguresAreWholeParts | crates/node/src/lib.rs:3884-3953 | index, effective number, evenness and coefficient are the whole parts of their quotients |
| Concentration.PairsAreRanked | crates/node/src/lib.rs:6885-6895 | for ranked counts the double sum is the rank-weighted single one |
| Concentration.GiniIsZeroExactlyWhen | crates/node/src/lib.rs:6881-6905 | zero exactly for equal counts or for differences below a basis point |
| Concentration.GiniOfLeader | crates/node/src/lib.rs:6881-6905 | its value for one leader among equals |
| Concentration.NothingSaturates | crates/node/src/lib.rs:6885-6904 | below 2^56 alerts no 128-bit operation saturates or overflows |
| Concentration.InequalityGiniBps | crates/node/src/lib.rs:6881-6905 | the double loop computes the coefficient within its bound |
| Concentration.LeaderLeads | crates/node/src/lib.rs:3861-3876 | the leader's share is not below the runner-up's, so the gap does not saturate |
| Rollup.CountsAreExact | crates/node/src/lib.rs:3614-3628 | each key is listed once, in order, with the number of its alerts, and the counts add up |
| Rollup.CountsPermuted | crates/node/src/lib.rs:3614-3628 | the counts do not depend on the order of the alerts |
| Rollup.HighestIsMax | crates/node/src/lib.rs:3636-3640 | the running maximum is a severity that occurs and that none outranks |
| Rollup.HighestIsOrderFreeExactlyWhen | crates/node/src/lib.rs:3636-3640 | it is the same for every order if and only if all top-ranking alerts carry one severity |
| Rollup.UnknownSeveritiesDependOnOrder | crates/node/src/lib.rs:3636-3640 | two alerts of unknown severities whose order decides the highest |
| Rollup.RollUpIsOrderFree | crates/node/src/lib.rs:3602-3780 | for the known severities the whole report is the same for every permutation of the alerts |
| Rollup.TopIsTop | crates/node/src/lib.rs:3657-3664 | the top code has the largest count, and the first name among those |
| Rollup.CountsAddUp | crates/node/src/lib.rs:3614-3716 | per severity, per code and per service the counts sum to the total, and within a service to its own |
| Rollup.QueueIsUnique | crates/node/src/lib.rs:3748-3753 | the comparison allows one order of the queue only |
| Rollup.QueueIsRanked | crates/node/src/lib.rs:3737-3780 | the queue lists every service once under ranks 1 to n in that order, and its action counts sum to n |
| Rollup.TallyAlerts | crates/node/src/lib.rs:3614-3641 | the loop fills the maps with the counts and maxima of the specification |
| RollupMeaning.OfflineLaneAlertRollup | crates/node/src/lib.rs:3602-3780 | the report is the specified one, for every order of the alerts, and says of the alerts what it should |
| RollupMeaning.ReportHolds | crates/node/src/lib.rs:3602-3780 | for all alerts, field by field: every key counted, severities from critical down, a service calls for intervention exactly if one of its alerts is critical, and the queue is by urgency, then count, then name |
| ScoreChain.RiskBound | crates/node/src/lib.rs:6320-6336 | risk is at most 10000, and 0 for an empty queue |
| ScoreChain.AdjustedRiskBound | crates/node/src/lib.rs:3992-3996 | the adjusted risk lies between the risk and 15000, so its delta never saturates |
| ScoreChain.SlippageValues | crates/node/src/lib.rs:3968-3985 | slippage is 0, 2500 or 5000, decided by the queue size once there is risk |
| ScoreChain.AttentionBound | crates/node/src/lib.rs:4002-4041 | attention is at most 12500, readiness and stability at most 10000 and in that order |
| ScoreChain.BalanceBound | crates/node/src/lib.rs:3793-3803 | polarisation and balance are complementary shares |
| ScoreChain.RiskIsWeighted | crates/node/src/lib.rs:6320-6336 | risk is forty parts acting share, forty critical share, ten concentration and ten lead, rounded down |
| ScoreChain.LoadAdjustsRisk | crates/node/src/lib.rs:3992-3994 | by nothing up to two services, a quarter up to five, a half beyond |
| ScoreChain.ResponseTimes | crates/node/src/lib.rs:3968-3977 | half an hour to a day by quarters of the risk scale, longer by the same factors |
| ScoreChain.PressureIsWeighted | crates/node/src/lib.rs:3809-3822 | three for intervention, two for watch and one for the rest, out of three for all |
| ScoreChain.PolarizationIsShare | crates/node/src/lib.rs:3793-3798 | the gap between the two acting groups as a share of both |
| ScoreChain.AttentionIsMidway | crates/node/src/lib.rs:4002-4041 | attention, readiness and stability between their two terms |
| ScoreChain.SignalReportsAbsence | crates/node/src/lib.rs:4052-4110 | each inverse signal is what is missing of its figure to 10000 |
| ScoreChain.ScoresFollow | crates/node/src/lib.rs:4052-4728 | the chain is that of the source: all thirty-four recurrences |
| ScoreChain.AverageBetween | crates/node/src/lib.rs:4052-4060 | an average of three lies between the least and the greatest |
| ScoreChain.ScoresWithin | crates/node/src/lib.rs:4052-4728 | whatever bounds every signal bounds every score of the chain |
| ScoreChain.ScoresAreMonotone | crates/node/src/lib.rs:4052-4728 | better signals never make a worse score anywhere in the chain |
| ScoreChain.OversightIsAccountability | crates/node/src/lib.rs:4296-4325 | two scores of the chain are always the same number |
| ScoreChain.AllScoresAreBps | crates/node/src/lib.rs:4019-4728 | every score from readiness to harmony is between 0 and 10000 |
| RollupFigures.QueueCounts | crates/node/src/lib.rs:3861-3866 | the counts behind the figures are positive, add up to all alerts and rank from the largest down |
| RollupFigures.FiguresMean | crates/node/src/lib.rs:3861-3953 | what the scores start from: services by action, the gap between the two largest shares, and the figures of all counts |
| RollupFigures.FiguresAreBounded | crates/node/src/lib.rs:3861-3953 | for all alerts the concentration figures keep their bounds |
| RollupFigures.EveryFigureIsBounded | crates/node/src/lib.rs:3602-4728 | for all alerts every score of the roll-up is a basis-point figure |
| HumanRisk.GatherLoops | crates/node/src/lib.rs:2929-2988 | one delta for every interaction beyond the first with a counterparty: interactions are deltas plus distinct counterparties |
| HumanRisk.ChargedOrGrowing | crates/node/src/lib.rs:3052-3077 | an issuance with counterparties is charged or meets somebody new |
| HumanRisk.GatherDiversity | crates/node/src/lib.rs:3052-3077 | the loop charges exactly the issuances that meet nobody new |
| HumanRisk.ShortCycleWindow | crates/node/src/lib.rs:3098-3099 | truncation makes the window reach from just under a second before opening to just under 901 seconds after |
| HumanRisk.GatherDisputes | crates/node/src/lib.rs:3079-3109 | one delta per dispute settled within the window |
| HumanRisk.ClusterTotals | crates/node/src/lib.rs:3128-3175 | seven per cluster and nine per attested claim whose cohort is not new |
| HumanRisk.GatherClusters | crates/node/src/lib.rs:3128-3175 | the loop over claims yields those deltas and the cluster count |
| HumanRisk.ScoreIsSumOfComponents | crates/node/src/lib.rs:3186-3218 | the score is the sum of its four components |
| HumanRisk.TotalPermuted | crates/node/src/lib.rs:3177-3218 | the components do not depend on the order of the deltas |
| HumanRisk.Accumulate | crates/node/src/lib.rs:3186-3227 | score and components are the sums, cut at 2^63 - 1 once at the end; the history holds the cut prefix sums, which rise until they reach the bound |
| HumanRisk.ComponentsMatchCounters | crates/node/src/lib.rs:2929-3227 | each component is its points times what the counters count |
| HumanRisk.ComputeForIdentity | crates/node/src/lib.rs:2806-3240 | score, components, history and counters of one identity reconcile, saturation included: what each counter counts, and what each component charges for it |
| HumanRiskMeaning.LoopsMean | crates/node/src/lib.rs:2929-2988 | each further closed dealing with the same other party is charged at its closing, and nothing else |
| HumanRiskMeaning.DiversityMeans | crates/node/src/lib.rs:3052-3077 | charged are the issuances in which others took part, all of whom had before |
| HumanRiskMeaning.DisputesMean | crates/node/src/lib.rs:3079-3109 | charged are the disputes of own orders settled less than 901 seconds after, and less than one before, they were opened |
| HumanRiskMeaning.ClustersMean | crates/node/src/lib.rs:3128-3175 | charged are claims whose attestations span less than 301 seconds, and claims attested by just those who attested an earlier one |
| HumanRiskMeaning.ChargesMean | crates/node/src/lib.rs:2929-3175 | all that is charged for one identity, in these terms |
| HumanRiskMeaning.SortMeans | crates/node/src/lib.rs:3049-3050 | evidence is sorted by time and event id, and those of one moment stay in their order |
| HumanRiskMeaning.HistoryOrder | crates/node/src/lib.rs:3177-3184 | the history runs by time, event id, component and reason |
| PolicyRules.SortDedupIsSet | crates/policy/src/lib.rs:275-281 | sorting and deduplicating lists the set once in order, and is idempotent |
| PolicyRules.NormaliseKeeps | crates/policy/src/lib.rs:275-285 | normalising keeps the sets and every lookup, and twice is once |
| PolicyRules.SortKeepsLookup | crates/policy/src/lib.rs:282-284 | sorting the overrides never changes which one is found, even among duplicates |
| PolicyRules.LookupIsOrderFree | crates/policy/src/lib.rs:370-377 | with distinct lanes, every order of the overrides gives every lookup the same answer |
| PolicyRules.CheckLanes | crates/policy/src/lib.rs:335-364 | the loop accepts exactly distinct lanes with names and rates in range |
| PolicyRules.ValidatePolicy | crates/policy/src/lib.rs:287-367 | accepts exactly the valid policies |
| PolicyRules.PolicyFromSnapshot | crates/policy/src/lib.rs:171-273 | builds the normalised policy exactly if it is valid |
| PolicyRules.ValidateUpdate | crates/protocol-core/src/lib.rs:1304-1453 | accepts exactly the updates the envelope check describes |
| PolicyRules.AcceptedUpdatesBuild | crates/protocol-core/src/lib.rs:1304-1453 | an update is accepted if and only if its policy can be built and the checks hold that only the envelope makes |
| PolicyMeaning.AcceptanceWrittenOut | crates/protocol-core/src/lib.rs:1304-1453 | the accepted updates over their fields: positive limits, rates up to 10000, quotas with a window, named lanes once each |
| PolicyMeaning.PolicyMeans | crates/policy/src/lib.rs:171-285 | the fields of the policy built from a snapshot: those given or the defaults, sets once and in order, overrides by lane |

## Left out

- The internals of the state engine: replay is a step and a closing function under one law.
- Line numbers inside the invalid reports of a replay: a bootstrapped node gives other numbers, so the engine is taken not to look at them (`SeqBlind`).
- SHA-256, Ed25519, RFC 3339, URLs and hexadecimal decoding are parameters; collision-freeness is asked only of the texts at hand.
- SQLite, files, HTTP and the clock: the model has the contents of tables and files, the order of writes and which of them fails. Torn writes and failing reads of the database are not modelled, nor is the table of invalid events.
- JSON numbers are carried as the text they print as; their parsing is left out.
- Storage.Database.ListEvents: has no author filter, and no columns that no modelled operation reads.
- Storage.Database.InsertSnapshot: snapshots have no ids here, so the insert cannot fail on the primary key.
- Node.LocalNode.SyncBootstrapFromPeer: what is held under the snapshot's id is a parameter, the imported state stands for its hash, and the peer is taken to send the snapshot that was asked for.
- SyncNetwork.RunKeepsOk: pulls in the network model are free of storage faults, which are the subject of `StorageFaultSkipsRow`; a snapshot's sequence number is taken to be one its peer has reached, and reading and writing a peer state is one step.
- Node.LocalNode.CreateSnapshot: takes its two reads as one step; the race between them is the subject of `SnapshotRace` and `ReplayRuns`.
- Node.LocalNode.SyncPeerPullOnce: the peer's answers are given beforehand, one for each page that could be asked for; reading and writing the peer state does not fail, and cycle times and the last result are not recorded. Two concurrent calls are the subject of `SyncNetwork`.
- Concentration.NothingSaturates: for positive counts with a total below 2^56, which no list of alerts in memory reaches.
- RollupFigures.EveryFigureIsBounded: for fewer than 2^54 alerts, above which the milli figures would be cut to 64 bits.
- HumanRisk.ComputeForIdentity: takes the evidence as collected; resolving identities, looking up event times and collecting issuance from mints and rewarded milestones is done before it is handed over.
- HumanRisk.ClusterTotals: cohorts are compared as sets of roots; the source joins them with a bar, which tells them apart as long as no root contains one.
- RateLimiter.Check: calls are serialised and time does not step back; the source reads the clock before it takes the lock.
- Supervisor: tasks that panic, and a semaphore that is closed while a cycle runs.
- Rollup.RollUpIsOrderFree: the report has no action-level counts, top service or sets of affected and critical services.
- Rollup.TallyAlerts: does not fill the sets of affected and critical services.
- RollupMeaning.OfflineLaneAlertRollup: the report has no fingerprints, profile strings, action-level rows or sets of affected services.
- Supervisor.ValidatePeerConfig: bearer tokens and the read token are not part of an entry.
- PolicyRules.PolicyFromSnapshot: the optional fields of policies that are copied or defaulted without being checked, and the messages of the individual refusals.
- Bootstrap.FaithfulIsExact: a checkpoint with events stamped after its time is not considered; no node that runs this code makes one.
- The other event kinds of `validate_static`, the web client, the user interface, the key vault and the command line.
