# Verified model of the connectors control plane and the medallion pipeline

This project models two parts of the repository and proves what they promise.

**The connectors control plane** is a store of connections, sync runs and raw events. Runs and events
are handed out by claims, runs under a lease. Two indexes make creation idempotent. A write-behind layer
stores a snapshot and a table of secrets in PostgreSQL and rebuilds memory from them. A sliding-window
limiter and a router stand in front of it.

**The medallion pipeline** stages source files with watermarks (bronze), builds a dense table with one
row per site and day, fills its gaps and clamps its outliers in place (silver), and adds lag and rolling
features (gold). Its design is about two things: no source
file is lost track of, and no value looks into the future.

`dafny verify dfyconfig.toml` checks everything.

## How it is laid out

Each operation of the store is a method of a class whose fields are the maps the source keeps, proved
equal to a step on values (`ConnectorStore.dfy`); the laws are about runs of steps. JavaScript maps and
Python dictionaries iterate in insertion order and both sorts are stable, so `InsertionMap.dfy` and
`StableSort.dfy` model exactly that; `StableSortIsUnique` shows that sortedness and stability leave no
freedom, so the insertion sort there stands for any stable algorithm.

| part | files |
|---|---|
| shared | Wrappers, Sequences, StableSort, InsertionMap, TextOrder, Delimiters, PairKeys |
| store and claims | ConnectorTypes, ConnectorStore, InMemoryStore, StoreInvariant, TableQueue, ClaimLaws, LeaseLaws, RawClaimLaws, ClaimRankLaws, RunUpdateLaws, RecordLaws |
| keys and idempotency | ReplayKeys, EventKeys, IndexLaws, IdempotencyLaws, RawEventLaws, RawIngestLaws, RawIngest, SyncStateLaws |
| persistence | Persistence, ScheduleLaws, RestartLaws, SecretOrderLaws, UnflushedLookups, PersistentStore |
| limiter and router | RateLimiter, Router, RouterLaws, ParameterLaws, ConnectorRoutes, PercentEncoding, ConnectionPaths |
| bronze | Bronze, BronzeLaws, BronzePasses, BronzeCopies, BronzeAssets, RebuildLaws, BronzeRecordLaws |
| silver | Cells, Calendar, Identifier, WordLaws, SilverTable, SilverTableLaws, SourceRowLaws, DenseOrder, SilverQuality, SilverPass, NoLookahead, ColumnTurns, MissingRateLaws, ClampLaws, EarlierRows, ImputationLaws, RidgeLaws, GapLaws, ColumnLaws |
| gold | GoldFeatures, FeatureLaws, FeatureValueLaws |

## Conventions

- Times are integers in milliseconds, which stand for the canonical ISO texts that the source compares;
  dates of the calendar are checked year, month and day. The clock,
  random identifiers and claim tokens are parameters; a new identifier is assumed to be new.
- A partial update of a connection or a credential is a function on the part of the row that a patch can
  reach; one of a raw event is a function that leaves the identity fields (id, organization, connection,
  event id) alone. Sync runs and sync states are merged field by field, as their `??` and `undefined`
  rules ask.
- SHA-256 is taken to be injective: both indexes are keyed by the joined text before hashing.
- `ready()` is awaited before the first call. JSON and PostgreSQL are a write that succeeds or fails.
- The persistent store holds an in-memory store instead of inheriting from one.
- Python floats are exact reals. Median, percentile, mean, standard deviation, correlation, the ridge
  solver, number and date parsing, and the missing mechanism are a record of arbitrary functions, so
  every law holds whatever they compute.
- The list of numeric columns is a parameter of the quality pass. The regime of a column (from its
  missing rate and mechanism over the whole table) is what the no-lookahead law holds fixed.
- What Python counts as a letter, a digit or white space and how it lowers text is a parameter of the
  column names. The laws ask only what holds of Unicode: "_" is neither letter nor space, spaces and
  letters exclude each other, digits count as letters, and lowered characters are lowered already.
- A bronze file is what its digest and its inspection are during a pass; an inspection that raises is
  the absence of one.

## What the proofs found in the code

- The store has no guard on `leaseSeconds`: with zero or less a claim would hand the same runs out again
  at once (`SecondClaimIsNewIffLeased`). Its caller has one: the routes ask for 30 to 900 seconds
  (app-connectors/src/routes.ts:108-111) and the service bounds them (app-connectors/src/service.ts:766-773).
- The joined key text is not injective, and a lookup deletes the index entry of its text when that leads to
  another organization or connection. Connection ids are UUIDs and triggers an enumeration
  (app-connectors/src/routes.ts:99-103), so a collision needs an organization id that holds a pipe;
  `SharesTextIffMarked` says which events of pipe-free organizations such an id can collide with.
  - Sync runs: a creation or a lookup for a colliding request hides the stored run, whose own request then
    creates a second one (`StaysFindableIff`, `StaysFindableAfterLookupIff`, `HiddenRunIsCreatedAgain`). No
    service calls the lookup; `CollidingRequestsExist` gives requests for any two connection ids.
  - Raw events: the service looks up before it creates, so a colliding newcomer is stored, the earlier event
    stops being findable, and the earlier event is stored again when it is resent
    (`ResentEventIsStoredTwice`; `StoredOnceIff` is the exact condition). A newcomer is dropped only if the
    other event is created between its lookup and its creation (`DroppedOnlyIfFiledBetween`,
    `InterleavedEventIsDropped`).
  - Such a lookup schedules no flush, so the stored snapshot falls behind memory (`RawLookupStaysStoredIff`,
    `RunLookupStaysStoredIff`).
- The key of a sync state leaves the organization out. Two organizations that name one connection and object
  share a row, and the second inherits the watermark of the first (`OrganizationsShareARow`). While callers
  name the organization that owns the connection this does not happen (`RunKeepsOwned`).
- A raw claim with an empty connection id reads the events of the whole organization but marks only those
  without a connection. Pending events with one can block it for ever (`HandedOutIff`).
- A failed snapshot write is repaired by the next one, a failed secret write never is
  (`FailedSecretWriteIsNeverRepeated`, `LostSecretStaysNamed`). `initialize` also loads no secret without a
  snapshot row, and none with an empty reference; `RestartRebuildsIff` is the exact condition, and
  `AnyRestartIsDurable` says what any restart has, whatever was under way.
- Each call queues the row of a secret ahead of its own flush, but a flush that is already waiting reads memory
  when it starts: it stores a snapshot that names the secret before the row exists (`NamedTooSoonIff`).
- A claim keeps the old error and end time of a run, because its patch has null there.
- Three things read the whole table: the missing rate, the missing mechanism and the list of numeric columns
  (medallion_pipeline_quality.py:228-252). Later rows decide through the first
  whether an earlier gap is filled (`GapIsFilledIff`, `LookaheadWithoutTheProviso`). With the list given and
  equal regimes of the two input tables nothing looks ahead (`NoLookaheadFromTheInput`).
- Rolling features see 90 rows only; `RollingIsExactIff` says when that matters.
- Two files of one client and dataset accepted in one pass go to the same bronze path, so the first copy
  is overwritten although both are in the manifest and tracked (`CopySurvivesIff`, `NextFileTakesTheCopy`).
- The silver table is built from one copy per client and dataset, that of the latest run. Watermarks make
  accepted files disjoint in time, so of each dataset the silver table holds the days of the last accepted
  file only (`SilverReadsOnlyTheLast`). A file that holds the whole history again reaches back to the
  watermark and is refused unless reprocessing is on.
- Building the silver table raises when a daily row is dated 9999-12-31 or in January of the year 1
  (`BuildingFailsIff`).

## Model

| member | source | states |
|---|---|---|
| `InMemoryStore.InMemoryConnectorStore.CreateSyncRun` | app-connectors/src/store.ts:486-548 | the run found for the request, or the new one; the whole new state is the specified step, the stale index entry removed first |
| `InMemoryStore.InMemoryConnectorStore.FindSyncRunByIdempotency` | app-connectors/src/store.ts:455-484 | the indexed run that answers to the request, and nothing changes but a stale entry that is dropped |
| `InMemoryStore.InMemoryConnectorStore.UpdateSyncRun` | app-connectors/src/store.ts:628-659 | the merged run is stored in place, old errors and times kept where the patch has none, lock and lease resettable |
| `InMemoryStore.InMemoryConnectorStore.ClaimSyncRuns` | app-connectors/src/store.ts:661-717 | returns the leased front of the stably sorted queue and stores exactly those runs |
| `InMemoryStore.InMemoryConnectorStore.CreateRawEvent` | app-connectors/src/store.ts:316-344 | refuses a duplicate with the stored event, otherwise files event and index entry |
| `InMemoryStore.InMemoryConnectorStore.FindRawEventByEventId` | app-connectors/src/store.ts:346-373 | the indexed event that has the three parts, a stale entry dropped |
| `InMemoryStore.InMemoryConnectorStore.UpdateRawEvent` | app-connectors/src/store.ts:396-413 | patches the event of the right organization and connection, no other |
| `InMemoryStore.InMemoryConnectorStore.ClaimRawEvents` | app-connectors/src/store.ts:431-453 | takes the newest pending events up to the limit and marks exactly those |
| `InMemoryStore.InMemoryConnectorStore.UpsertSyncState` | app-connectors/src/store.ts:588-626 | the row under the key of connection and object is merged field by field with the one before, whoever owned it, and returned; the laws about it are those of SyncStateLaws below |
| `InMemoryStore.InMemoryConnectorStore.CreateConnection` | app-connectors/src/store.ts:81-123 | builds the row from the input, the catalog, a new id and the clock, files it at the end, and returns it |
| `InMemoryStore.InMemoryConnectorStore.UpdateConnection` | app-connectors/src/store.ts:136-153 | patches the details of the connection of the right organization only, and returns the new row or nothing |
| `InMemoryStore.InMemoryConnectorStore.PutSecret` | app-connectors/src/store.ts:155-158 | files the secret and makes it the latest of its connection |
| `InMemoryStore.InMemoryConnectorStore.CreateAuthorizationSession` | app-connectors/src/store.ts:183-185 | one session per connection |
| `InMemoryStore.InMemoryConnectorStore.DeleteAuthorizationSession` | app-connectors/src/store.ts:198-200 | forgets the session and its place in the order |
| `InMemoryStore.InMemoryConnectorStore.CreateAuditEvent` | app-connectors/src/store.ts:202-205 | appends the event and returns it |
| `InMemoryStore.InMemoryConnectorStore.CreateIngestCredential` | app-connectors/src/store.ts:224-260 | builds the row from the input, a new id and the clock, files it at the end, and returns it |
| `InMemoryStore.InMemoryConnectorStore.UpdateIngestCredential` | app-connectors/src/store.ts:278-300 | patches the details of the credential of the right organization and connection only, and returns the new row or nothing |
| `SyncStateLaws.UpsertTouchesOneRow` | app-connectors/src/store.ts:588-626 | an upsert leaves every other row, the order of the table and every other map as they were |
| `SyncStateLaws.FieldsFollowThePatch` | app-connectors/src/store.ts:600-624 | every nullable field keeps its value where the patch is undefined, is cleared by a null and replaced by a value; the cursor is kept or replaced, the creation time stays |
| `RecordLaws.FirstUpsertStartsEmpty` | app-connectors/src/store.ts:588-626 | without a row before, undefined and null fields are empty and the row begins now |
| `SyncStateLaws.TwoUpsertsAreOne` | app-connectors/src/store.ts:588-626 | two upserts of one row are one upsert of the overlaid patch, even when two organizations make them |
| `SyncStateLaws.SecondUpsertHidesTheFirstIff` | app-connectors/src/store.ts:550-569 | after an upsert for one triple and one for another, the first is still shown as it was, shown as the second left it, or hidden: exactly when which |
| `SyncStateLaws.OneRowPerConnectionAndObject` | app-connectors/src/store.ts:550-552 | with colon-free connection ids two rows share a key exactly when connection and object are the same |
| `SyncStateLaws.OrganizationsShareARow` | app-connectors/src/store.ts:588-626 | the failing input: two organizations that name one connection and object leave one row, owned by the second, with the watermark of the first |
| `SyncStateLaws.RunKeepsOwned` | app-connectors/src/store.ts:81-717 | over any run whose callers name the organization of the connection, every row belongs to the organization of its connection |
| `SyncStateLaws.VisibleAgreesWithScan` | app-connectors/src/store.ts:554-569 | there the lookup agrees with a scan of the table, so a triple has one row at most |
| `PairKeys.SharedKeyIff` | app-connectors/src/store.ts:550-552 | two pairs share a "::" key exactly when they are equal or one reads the separator further right |
| `PairKeys.SharedKeysExist` | app-connectors/src/store.ts:550-552 | two different pairs that do |
| `PairKeys.ColonFreeKeysDiffer` | app-api/scripts/medallion_pipeline_bronze.py:268 | with no colon in the first parts the key determines both parts |
| `RunUpdateLaws.UpdateFollowsThePatch` | app-connectors/src/store.ts:628-659 | field by field: a value replaces; null and undefined keep, except that null clears lock and lease; identity, windows and creation time stay |
| `RunUpdateLaws.UpdateTouchesOneRun` | app-connectors/src/store.ts:628-659 | every other run, the order of the table and the rest of the store stay, and an update by another organization does nothing |
| `RunUpdateLaws.UpdatedIsTakenIff` | app-connectors/src/store.ts:628-689 | after an update a claim that could hand out everything hands the run out exactly when the status, time and lease of the patch, or those kept, allow it |
| `RunUpdateLaws.RetriedFrom` | app-connectors/src/service.ts:1033-1061 | a failed run put back for a retry at t is handed out again exactly from t on |
| `RunUpdateLaws.ReleasedRunningIsLost` | app-connectors/src/store.ts:646-689 | a run whose lease is cleared while it is running, or that has ended, is in no batch |
| `RecordLaws.NewRunWaits` | app-connectors/src/store.ts:512-537 | what is in a new run: queued, available at once, eight attempts, priority 50, held by nobody |
| `RecordLaws.NewRunIsTakenFrom` | app-connectors/src/store.ts:512-541 | it is handed out exactly from its creation on |
| `RecordLaws.NewConnectionDetails` | app-connectors/src/store.ts:85-118 | each detail of a new connection: from the caller, else from the catalog, else fixed |
| `RecordLaws.ConnectionUpdateIsNarrow` | app-connectors/src/store.ts:136-153 | an update changes details and time of the connection of this organization, and nothing else |
| `RecordLaws.CredentialUpdateIsNarrow` | app-connectors/src/store.ts:278-300 | the same for a credential |
| `RecordLaws.AuditTrailIsComplete` | app-connectors/src/store.ts:202-205 | over any run of operations the audit trail only grows, by the recorded events in their order |
| `RecordLaws.SessionIsTheLast` | app-connectors/src/store.ts:183-200 | after any run a connection has the session created last, unless one was deleted since |
| `RecordLaws.LatestSecretIsTheLastPut` | app-connectors/src/store.ts:155-158 | and the reference named for it is that of the last secret put |
| `ClaimLaws.ClaimTakesTheFront` | app-connectors/src/store.ts:661-717 | a claim hands out the first min(limit, length) runs of the queue, each leased, with one more attempt, and with its old errors and end time kept |
| `ClaimLaws.ClaimTouchesOnlyItsBatch` | app-connectors/src/store.ts:701-716 | what is handed out is what is stored, every other run and the order of the map are untouched |
| `ClaimLaws.QueueHoldsClaimable` | app-connectors/src/store.ts:677-698 | the queue holds each claimable run of the organizations once, and only those |
| `ClaimLaws.QueueIsTheStableSort` | app-connectors/src/store.ts:690-698 | a sequence is the queue exactly when it is sorted by the claim order and keeps ties in table order; what that order is, field by field, BatchIsRanked says |
| `ClaimRankLaws.BatchIsRanked` | app-connectors/src/store.ts:690-698 | in the fields of the stored runs: of two runs in a batch the first has the smaller priority, or with equal ones the earlier availability, then the earlier creation, then the earlier place in the table |
| `ClaimRankLaws.LeftOutRanksAfter` | app-connectors/src/store.ts:677-699 | a run that might have been handed out and was not ranks after every run of the batch, which is then full |
| `ClaimRankLaws.WideClaimTakesIff` | app-connectors/src/store.ts:677-689 | a claim that could hand out everything hands out a run exactly when it waits and is available, or runs on a lease that is over |
| `ClaimLaws.ClaimShortensTheQueue` | app-connectors/src/store.ts:661-717 | after a claim with a real lease the queue has lost exactly its front |
| `ClaimLaws.ClaimsDrainTheQueue` | app-connectors/src/store.ts:661-717 | claims at one instant hand out the queue from the front, each run once, and all of it as soon as the limits add up to its length |
| `ClaimLaws.ClaimedAgainIffExpired` | app-connectors/src/store.ts:678-689 | a claimed run is claimable again exactly from the end of its lease |
| `ClaimLaws.SecondClaimIsNewIffLeased` | app-connectors/src/store.ts:701-716 | a second claim avoids the runs of the first exactly when the lease lasts at least one second |
| `ClaimLaws.EmptyLeaseKeepsTheQueue` | app-connectors/src/store.ts:701-716 | with a lease of zero or negative length the queue is as long and in the same order as before |
| `LeaseLaws.LeaseExcludesOtherClaims` | app-connectors/src/store.ts:628-717 | over every run of operations that respects the lease, no claim returns a held run, and it stays held |
| `LeaseLaws.ClaimExcludesUntilLeaseEnd` | app-connectors/src/store.ts:661-717 | a run claimed at t for s seconds is returned by no claim before t + 1000 s along any such run |
| `LeaseLaws.HeldRunIsNotClaimed` | app-connectors/src/store.ts:678-689 | a running run whose lease is not over is in no batch |
| `LeaseLaws.NoLeaseNeverClaimed` | app-connectors/src/store.ts:678-689 | a running run without a lease end is never claimed |
| `TableQueue.ServingDrains` | app-connectors/src/store.ts:661-717 | any claims that each serve from the front of a queue hand it out in order, each row once, and all of it once their limits add up to its length; both drain laws are instances |
| `TableQueue.TakingShortensTheQueue` | app-connectors/src/store.ts:431-453 | storing back what was taken from the front of a sorted filter leaves the rest of it, in order; both claim operations rest on it |
| `ReplayKeys.KeyMaterialInjective` | app-connectors/src/security.ts:155-163 | with no pipe in the first three parts the joined text determines all four |
| `ReplayKeys.AmbiguousIffFourthPipe` | app-connectors/src/security.ts:155-163 | the joined text stands for another request too exactly when it holds more than three pipes |
| `IdempotencyLaws.FindAgreesWithScan` | app-connectors/src/store.ts:455-484 | lookup by key answers with a run exactly when a scan of all runs finds it |
| `IdempotencyLaws.NoStaleEntries` | app-connectors/src/store.ts:472-481 | the stale-entry branches are unreachable, so a lookup changes nothing |
| `IdempotencyLaws.StepKeepsRunsIndexed` | app-connectors/src/store.ts:455-717 | every operation keeps the replay index a bijection with the runs and loses or renames no run |
| `IdempotencyLaws.RunKeepsRunsIndexed` | app-connectors/src/store.ts:455-717 | the same over every run of operations |
| `IdempotencyLaws.StoredRunStaysFindable` | app-connectors/src/store.ts:455-484 | a stored run is found by its key parts after any run of operations |
| `IdempotencyLaws.RepeatedCreationFindsTheFirst` | app-connectors/src/store.ts:486-548 | creating again with the same four parts, after any operations, finds the first run and changes nothing |
| `IdempotencyLaws.StaysFindableIff` | app-connectors/src/security.ts:155-163 | without the proviso on pipes: a stored run stays findable after a creation exactly when the keys differ or the new run asks for the same organization, connection and trigger |
| `IdempotencyLaws.StaysFindableAfterLookupIff` | app-connectors/src/store.ts:472-481 | and after a lookup exactly when the texts differ or the lookup asks for its organization, connection and trigger |
| `IdempotencyLaws.HiddenRunIsCreatedAgain` | app-connectors/src/store.ts:472-548 | so after a colliding lookup the request of the stored run creates a second run |
| `IdempotencyLaws.CollidingRequestHidesTheFirst` | app-connectors/src/store.ts:472-481 | two requests of different organizations with one joined text: the second hides the first |
| `IdempotencyLaws.CollidingRequestsExist` | app-connectors/src/security.ts:155-163 | for every pair of connections, whatever their ids, there are two such requests, and the store hides the first |
| `RawEventLaws.FindEventAgreesWithScan` | app-connectors/src/store.ts:346-373 | lookup by event id agrees with a scan of all events |
| `RawEventLaws.OneEventPerId` | app-connectors/src/store.ts:316-344 | at most one stored event per organization, connection and event id |
| `EventKeys.SharesTextIffMarked` | app-connectors/src/security.ts:155-163 | with no pipe in organization and connection, another event has the same text exactly when the event id starts with raw_event and a pipe, or holds raw_event between two pipes |
| `RawEventLaws.DuplicateIffStored` | app-connectors/src/store.ts:316-344 | with no pipe in organization and connection a creation meets the event with the same three parts, and no other |
| `RawEventLaws.LookupChangesNothing` | app-connectors/src/store.ts:362-370 | the stale-entry branch is unreachable |
| `RawEventLaws.RunKeepsEventsIndexed` | app-connectors/src/store.ts:316-453 | over every run of operations the event index stays a bijection and no event is lost or renamed |
| `RawIngest.PersistRawEvents` | app-connectors/src/service.ts:2240-2326 | the loop that looks each event up and creates what it does not find: the whole new state, the accepted events and the number of duplicates, with nothing else running meanwhile |
| `RawIngestLaws.RunKeepsLed` | app-connectors/src/store.ts:316-453 | over every run of operations, with no proviso on the ids, each index entry leads to a stored event with its text |
| `RawIngestLaws.FindsTheFindable` | app-connectors/src/store.ts:346-373 | a lookup finds exactly the event that has the three parts and that the index leads to |
| `RawIngestLaws.LookupChangesIff` | app-connectors/src/store.ts:362-370 | a lookup changes memory exactly when the entry of its text leads to an event of another organization or connection |
| `RawIngestLaws.LookupLeaves` | app-connectors/src/store.ts:362-370 | after a lookup exactly the events with another text, or with its organization and connection, are as findable as before |
| `RawIngestLaws.LookupKeepsIndexIff` | app-connectors/src/store.ts:362-370 | a full index stays full exactly when every stored event with the text of the lookup has its organization and connection |
| `RawIngestLaws.DuplicateIffKeyTaken` | app-connectors/src/store.ts:316-344 | a creation meets a stored event exactly when that event is findable and has the same text |
| `RawIngestLaws.EventIsDroppedIff` | app-connectors/src/store.ts:316-344 | a creation drops a new event, and changes nothing, exactly when a findable event has its text |
| `RawIngestLaws.FullIndexFindsAll` | app-connectors/src/store.ts:346-373 | in an indexed store the findable events are the stored ones |
| `RawIngestLaws.IngestStoresIff` | app-connectors/src/service.ts:2276-2318 | lookup, then creation, exactly: the event is stored if and only if no findable event has its three parts; it is then findable, and of the others those with another text stay so |
| `RawIngestLaws.DroppedOnlyIfFiledBetween` | app-connectors/src/service.ts:2276-2318 | whatever calls run between lookup and creation: unless one of them creates an event with the same text, the event that was not found is stored |
| `RawIngestLaws.InterleavedEventIsDropped` | app-connectors/src/service.ts:2276-2318 | for any two connections two different events that are both looked up first: the second is dropped as the first |
| `RawIngestLaws.IngestStoresTheNew` | app-connectors/src/service.ts:2240-2326 | after a series from an empty store the table holds exactly the events whose latest predecessor with the same text, if any, has another organization or connection |
| `RawIngest.AcceptedAreNew` | app-connectors/src/service.ts:2240-2326 | and exactly those are accepted |
| `RawIngestLaws.StoredOnceIff` | app-connectors/src/service.ts:2240-2326 | deduplication, exactly: no three parts are stored twice if and only if no event comes again after one with its text of another organization or connection |
| `RawIngestLaws.CleanEventsAreStoredOnce` | app-connectors/src/service.ts:2240-2326 | which never happens with no pipe in organizations and connections |
| `RawIngestLaws.ResentEventIsStoredTwice` | app-connectors/src/service.ts:2276-2318 | the failing run, for any two connections: an event, one that collides with it, and the event again; it is then stored twice |
| `UnflushedLookups.RawLookupStaysStoredIff` | app-connectors/src/persistent-store.ts:339-348 | with nothing pending and memory stored, a raw-event lookup leaves the stored snapshot unlike memory, with no write scheduled, exactly when it meets such an entry |
| `UnflushedLookups.RunLookupStaysStoredIff` | app-connectors/src/persistent-store.ts:388-406 | the same for a lookup of a sync run |
| `ClaimRankLaws.RawQueueIsNewestFirst` | app-connectors/src/store.ts:375-447 | the events a claim reads, each once: pending ones of the organization and connection, the one received later first, of two received together the one filed earlier |
| `ClaimRankLaws.EachEventHasItsToken` | app-connectors/src/store.ts:446-449 | each event of a batch for a connection gets the token of its place |
| `RawClaimLaws.RawClaimTakesItsOwn` | app-connectors/src/store.ts:431-453 | for any connection id, the empty one included: the batch is the own events among the first pending ones, in order, each marked as in processing |
| `RawClaimLaws.RawClaimLeaves` | app-connectors/src/store.ts:431-453 | for any connection id: the pending list loses exactly those |
| `RawClaimLaws.HandedOutIff` | app-connectors/src/store.ts:431-453 | for any connection id: repeating a claim hands out a pending event of its own exactly when fewer foreign events than the limit are queued before it |
| `RawClaimLaws.RawClaimTakesTheFront` | app-connectors/src/store.ts:431-453 | with a connection id a claim takes the newest pending events of the connection, oldest last |
| `RawClaimLaws.RawClaimShortensTheQueue` | app-connectors/src/store.ts:431-453 | and the pending list loses exactly its front |
| `RawClaimLaws.RawClaimsDrainTheQueue` | app-connectors/src/store.ts:431-453 | successive claims for one connection hand out its pending list in order, and all of it once their limits add up to its length |
| `RawClaimLaws.EmptyConnectionTakesOnlyUnconnected` | app-connectors/src/store.ts:431-453 | a claim with an empty connection id marks only events that have an empty one |
| `Persistence.SnapshotRebuilds` | app-connectors/src/persistent-store.ts:151-220 | hydrating from the snapshot of a keyed store rebuilds it, the order of every map included |
| `StoreInvariant.StepKeepsKeyed` | app-connectors/src/store.ts:81-717 | every operation keeps every map keyed by the key derived from its values |
| `StoreInvariant.RunKeepsKeyed` | app-connectors/src/store.ts:81-717 | the same over every run of operations |
| `Persistence.NoFlushNoChange` | app-connectors/src/persistent-store.ts:240-454 | an operation that schedules no flush changes nothing; this needs the index invariant |
| `Persistence.JobsMirrorSecrets` | app-connectors/src/persistent-store.ts:261-289 | the secret writes an operation schedules are what it does to the secrets in memory |
| `ScheduleLaws.SyncClaimFlushes` | app-connectors/src/persistent-store.ts:408-426 | one flush for each run handed out and one more; none when none is handed out |
| `ScheduleLaws.RawClaimFlushes` | app-connectors/src/persistent-store.ts:368-386 | the same for raw events |
| `ScheduleLaws.OneFlushWhenChanged` | app-connectors/src/persistent-store.ts:339-438 | a creation flushes when it files a row, an update when there is a row of the right owner |
| `SecretOrderLaws.SecretIsStoredFirst` | app-connectors/src/persistent-store.ts:261-289 | a secret put while no flush is waiting: whatever happens afterwards, the stored snapshot names it only once its row is stored, unless a secret write failed |
| `SecretOrderLaws.NamedTooSoonIff` | app-connectors/src/persistent-store.ts:222-289 | exactly: a new secret can be named by the stored snapshot before it has a row, with no write failing, if and only if a flush was waiting when it was put |
| `Persistence.RunKeepsDurable` | app-connectors/src/persistent-store.ts:222-289 | over every interleaving of calls, job starts and database answers, memory is in the database, on its way there, or waits behind a failed write |
| `Persistence.RunKeepsDurableUpTo` | app-connectors/src/persistent-store.ts:222-289 | the same with any set of references set aside, as a restart may have left some out |
| `RestartLaws.RestartRebuildsIff` | app-connectors/src/persistent-store.ts:70-289 | over whole runs that put each reference once: a quiet end is rebuilt by a restart exactly when the stored snapshot is that of memory, no secret write has failed and no reference is empty; the first holds whenever the latest snapshot write succeeded |
| `RestartLaws.RestartRebuildsMemory` | app-connectors/src/persistent-store.ts:70-205 | when nothing is pending and no write failed, a restart rebuilds memory exactly, map order included, if and only if no secret has an empty reference |
| `RestartLaws.CrashBringsBackAMoment` | app-connectors/src/persistent-store.ts:70-238 | after a crash at any point a restart finds the old row, or brings back exactly the memory of one moment of the run, apart from the secrets |
| `RestartLaws.CrashIsNoOlderThanAFlush` | app-connectors/src/persistent-store.ts:70-238 | if a flush that started at one event was answered well at a later one, a crash brings back that start or a moment after the answer, never anything older |
| `RestartLaws.AnyRestartIsDurable` | app-connectors/src/persistent-store.ts:70-205 | a restart after any crash, with whatever was under way, meets the invariant up to the references it left out; with a snapshot row and no empty reference it meets it in full, and starts runs of RestartRebuildsIff |
| `RestartLaws.CrashedRunsGoOn` | app-connectors/src/persistent-store.ts:70-289 | so after any run, a crash at any point and any further run nothing else is forgotten |
| `RestartLaws.HarmlessFlushFailure` | app-connectors/src/persistent-store.ts:222-238 | why the condition names the stored snapshot: a failed flush of unchanged memory does no harm |
| `RestartLaws.RestartIsDurable` | app-connectors/src/persistent-store.ts:70-205 | the invariant holds on an empty database, and again after any restart that rebuilt memory |
| `RestartLaws.RestartStartsRuns` | app-connectors/src/persistent-store.ts:70-149 | and such starts meet what RestartRebuildsIff asks of the start of a run |
| `RestartLaws.NextFlushRepairs` | app-connectors/src/persistent-store.ts:222-238 | a failed snapshot flush is made good by the next one that succeeds |
| `RestartLaws.LostStaysLost` | app-connectors/src/persistent-store.ts:261-289 | a secret with neither a row nor a pending write stays lost to restarts through any events that do not put it again |
| `RestartLaws.FailedSecretWriteIsNeverRepeated` | app-connectors/src/persistent-store.ts:261-289 | so a failed secret write is never repeated, whatever happens afterwards |
| `RestartLaws.LostSecretStaysNamed` | app-connectors/src/persistent-store.ts:124-149 | and the restarted runtime still names that secret as the latest of its connection |
| `PersistentStore.PostgresBackedConnectorStore.constructor` | app-connectors/src/persistent-store.ts:70-149 | a runtime starts with what the two tables rebuild, nothing pending |
| `PersistentStore.PostgresBackedConnectorStore.Hydrate` | app-connectors/src/persistent-store.ts:151-205 | clears and refills each map in the order of its list |
| `PersistentStore.PostgresBackedConnectorStore.ScheduleFlush` | app-connectors/src/persistent-store.ts:222-238 | appends one snapshot job; the snapshot is taken when it starts |
| `PersistentStore.PostgresBackedConnectorStore.StartJob` | app-connectors/src/persistent-store.ts:222-238 | the head of the queue starts, a snapshot job reading memory now |
| `PersistentStore.PostgresBackedConnectorStore.FinishJob` | app-connectors/src/persistent-store.ts:222-289 | the write that is under way ends, well or badly |
| `PersistentStore.PostgresBackedConnectorStore.CreateConnection` | app-connectors/src/persistent-store.ts:240-247 | memory changes as in the store, and one flush is scheduled |
| `PersistentStore.PostgresBackedConnectorStore.UpdateConnection` | app-connectors/src/persistent-store.ts:249-259 | a flush only when a connection was changed; the new row or nothing |
| `PersistentStore.PostgresBackedConnectorStore.PutSecret` | app-connectors/src/persistent-store.ts:261-289 | the secret row is written before the snapshot |
| `PersistentStore.PostgresBackedConnectorStore.CreateAuthorizationSession` | app-connectors/src/persistent-store.ts:291-294 | as in the store, and one flush |
| `PersistentStore.PostgresBackedConnectorStore.DeleteAuthorizationSession` | app-connectors/src/persistent-store.ts:296-299 | as in the store, and one flush |
| `PersistentStore.PostgresBackedConnectorStore.CreateAuditEvent` | app-connectors/src/persistent-store.ts:301-305 | as in the store, and one flush |
| `PersistentStore.PostgresBackedConnectorStore.CreateIngestCredential` | app-connectors/src/persistent-store.ts:307-319 | as in the store, and one flush |
| `PersistentStore.PostgresBackedConnectorStore.UpdateIngestCredential` | app-connectors/src/persistent-store.ts:321-337 | a flush only when a credential was changed; the new row or nothing |
| `PersistentStore.PostgresBackedConnectorStore.CreateRawEvent` | app-connectors/src/persistent-store.ts:339-348 | a flush only when the event is new; the event stored now or before, and which |
| `PersistentStore.PostgresBackedConnectorStore.UpdateRawEvent` | app-connectors/src/persistent-store.ts:350-366 | a flush only when an event was changed; the new event or nothing |
| `PersistentStore.PostgresBackedConnectorStore.ClaimRawEvents` | app-connectors/src/persistent-store.ts:368-386 | one flush per event marked and one for the claim, none for an empty batch |
| `PersistentStore.PostgresBackedConnectorStore.CreateSyncRun` | app-connectors/src/persistent-store.ts:388-406 | a flush only when the run is new; the run stored now or before, and which |
| `PersistentStore.PostgresBackedConnectorStore.ClaimSyncRuns` | app-connectors/src/persistent-store.ts:408-426 | one flush per run leased and one for the claim, none for an empty batch |
| `PersistentStore.PostgresBackedConnectorStore.UpdateSyncRun` | app-connectors/src/persistent-store.ts:428-438 | a flush only when a run was changed; the new run or nothing |
| `PersistentStore.PostgresBackedConnectorStore.UpsertSyncState` | app-connectors/src/persistent-store.ts:440-454 | as in the store, one flush, and the merged row |
| `RateLimiter.Limiter.ConsumeRateLimit` | app-connectors/src/server.ts:487-518 | prunes and stores the bucket of the key, and answers from it |
| `RateLimiter.RunRepresents` | app-api-ts/src/server.ts:601-632 | after any run in clock order the pruned bucket stands for the full log of admitted requests |
| `RateLimiter.AllowedIffWindowHasRoom` | app-connectors/src/server.ts:487-518 | a request is allowed exactly when fewer than maxRequests requests of the full log are in (now - windowMs, now] |
| `RateLimiter.NoWindowIsOverfull` | app-connectors/src/server.ts:487-518 | no window of that length anywhere in a run holds more than maxRequests admitted requests |
| `RateLimiter.ReadmittedWhenOldestLeaves` | app-connectors/src/server.ts:493-511 | after a refusal, with no request in between, a request is allowed exactly from the instant the oldest counted one leaves the window |
| `RateLimiter.RetryHintIsLeast` | app-connectors/src/server.ts:497-511 | the hint is between 1 and the window in seconds, and the least whole number of seconds of at least one that reaches that instant |
| `RateLimiter.RemainingCountsTheWindow` | app-connectors/src/server.ts:487-518 | an allowed request is told maxRequests less those in the window, itself included, and no waiting time; a refused one is told 0 |
| `RateLimiter.RemainingAreAllowed` | app-connectors/src/server.ts:512-517 | of the same requests made again at once exactly that many are allowed |
| `RateLimiter.ZeroPolicyHint` | app-connectors/src/server.ts:497-511 | with maxRequests below one the hint is the least whole number of seconds, at least one, that covers the window |
| `RateLimiter.ZeroPolicyNeverAllows` | app-connectors/src/server.ts:493-511 | with maxRequests below one every request is refused |
| `Calendar.DaysBetween` | app-api/scripts/medallion_pipeline_quality.py:43-49 | computes the range of days, or fails |
| `Calendar.DateRangeIsDense` | app-api/scripts/medallion_pipeline_quality.py:43-49 | a range holds each day from start to end once, in order |
| `Calendar.DateRangeFailsIff` | app-api/scripts/medallion_pipeline_quality.py:43-49 | it fails exactly when it would step past the last date |
| `Calendar.CarriesMonth` | app-api/scripts/medallion_pipeline_quality.py:34-40 | the previous month start of a day is m exactly when m starts the month before; it fails exactly in the first month of all |
| `Calendar.NextDayIsCounted` | app-api/scripts/medallion_pipeline_quality.py:43-49 | the next day is the next in the proleptic Gregorian count, with its leap years |
| `SilverTable.SilverBuild.RecordSiteBounds` | app-api/scripts/medallion_pipeline_quality.py:68-83 | widens the bounds of the site to the date |
| `SilverTable.SilverBuild.MergeSilverMetrics` | app-api/scripts/medallion_pipeline_quality.py:52-65 | the metric cells of a source row, later columns winning |
| `SilverTable.SilverBuild.IngestSourceRow` | app-api/scripts/medallion_pipeline_quality.py:86-128 | the whole new state after one source row, skipped when it has no date or site |
| `SilverTable.SilverBuild.IngestAsset` | app-api/scripts/medallion_pipeline_quality.py:131-171 | ingests the rows of a file in order |
| `SilverTable.SilverBuild.Materialize` | app-api/scripts/medallion_pipeline_quality.py:174-203 | the sorted dense keys and their rows, or a failure of the calendar |
| `SilverTable.SilverBuild.BuildSilverRows` | app-api/scripts/medallion_pipeline_quality.py:206-225 | all files in order, then the dense rows |
| `SourceRowLaws.FilesIff` | app-api/scripts/medallion_pipeline_quality.py:86-128 | a row is filed under the client of its file, its site code unless empty, and its own day, or in a monthly file the first day of its month; without date or site code nowhere |
| `SourceRowLaws.MetricsAre` | app-api/scripts/medallion_pipeline_quality.py:52-65 | it contributes a cell for each column that is not a key column, under the normalized names of dataset and column, the last column of a name deciding |
| `SourceRowLaws.NamesAre` | app-api/scripts/medallion_pipeline_quality.py:104-118 | the name a row gives to its site is that of its name column, if the file has one |
| `SilverTableLaws.BoundsAlwaysFit` | app-api/scripts/medallion_pipeline_quality.py:68-83 | the bounds of a site are dates of two of its daily rows and enclose all of them |
| `SilverTableLaws.KeptIffFiled` | app-api/scripts/medallion_pipeline_quality.py:120-128 | a key is kept exactly when some source row is filed under it |
| `SilverTableLaws.DenseKeysAreTheSpannedDays` | app-api/scripts/medallion_pipeline_quality.py:180-184 | the keys are strictly ordered by client, site and date, and are exactly the days between two daily source rows of one site |
| `SilverTableLaws.KeptValueIsTheLast` | app-api/scripts/medallion_pipeline_quality.py:120-127 | a kept value is the one of the last source row with that key and column |
| `SilverTableLaws.KeptNameIsTheLast` | app-api/scripts/medallion_pipeline_quality.py:104-118 | the name kept for a site is the last non-empty one of its daily and monthly source rows |
| `SilverTableLaws.DenseRowHolds` | app-api/scripts/medallion_pipeline_quality.py:187-201 | a dense row holds its key columns, among them the last name given to its site, and elsewhere the last monthly value of the month before or else the last daily value of the day |
| `SilverTableLaws.SilverTableIsDense` | app-api/scripts/medallion_pipeline_quality.py:174-203 | one row for each such day, in strict order, each holding exactly its expected values |
| `SilverTableLaws.MonthReachesOnlyTheNext` | app-api/scripts/medallion_pipeline_quality.py:195-200 | a monthly row changes no row outside the next calendar month of its site |
| `SilverTableLaws.MonthlyValueReaches` | app-api/scripts/medallion_pipeline_quality.py:195-200 | and its values are in every row of that month |
| `SilverTableLaws.FiledDaysAppear` | app-api/scripts/medallion_pipeline_quality.py:126-128 | every day with a daily source row has its row |
| `SilverTableLaws.BuildingFailsIff` | app-api/scripts/medallion_pipeline_quality.py:174-203 | building fails exactly when a daily source row is dated on the last day or in the first month of the calendar |
| `DenseOrder.IsoOrderIsDateOrder` | app-api/scripts/medallion_pipeline_quality.py:187-194 | ISO texts sort as the dates do |
| `TextOrder.TextLessIff` | app-api/scripts/medallion_pipeline_quality.py:841-847 | texts compare at the first place where they differ |
| `DenseOrder.DenseTableIsInOrder` | app-api/scripts/medallion_pipeline_quality.py:837-852 | the dense table is already in processing order and meets the provisos of the no-lookahead law |
| `SilverPass.CollectHierarchicalHistory` | app-api/scripts/medallion_pipeline_quality.py:492-518 | the values of earlier days in the window, in row order, same week day if asked |
| `SilverPass.ClipPrediction` | app-api/scripts/medallion_pipeline_quality.py:678-698 | the prediction clipped to the percentiles of the history |
| `SilverPass.HierarchicalMedianImpute` | app-api/scripts/medallion_pipeline_quality.py:620-675 | the first level of the hierarchy with enough values |
| `SilverPass.PredictQualityImputation` | app-api/scripts/medallion_pipeline_quality.py:717-764 | ridge, then the hierarchy, then the fallbacks, by regime |
| `SilverPass.ImputeQualityColumn` | app-api/scripts/medallion_pipeline_quality.py:767-803 | the table with its gaps filled in row order; the number filled is the number that were missing less those still missing |
| `SilverPass.ClampGroupOutliers` | app-api/scripts/medallion_pipeline_quality.py:543-564 | the group clamped in place and the number of cells changed |
| `SilverPass.ClampQualityOutliers` | app-api/scripts/medallion_pipeline_quality.py:806-815 | the same for every site group |
| `SilverPass.SeedQualityColumnFlags` | app-api/scripts/medallion_pipeline_quality.py:701-705 | the three flags of a column on every row |
| `SilverPass.ApplySilverQuality` | app-api/scripts/medallion_pipeline_quality.py:837-880 | sorts the table and passes over the columns in place |
| `Cells.GroupIndices` | app-api/scripts/medallion_pipeline_quality.py:313-326 | positions grouped by key, by first occurrence |
| `Cells.GroupsByFirstOccurrence` | app-api/scripts/medallion_pipeline_quality.py:313-326 | the keys of a grouping are listed as they first occur |
| `ColumnLaws.PassFillsAndClamps` | app-api/scripts/medallion_pipeline_quality.py:767-880 | the whole pass, for any column whose cells no other column writes: its turn finds its cells as they were, its gaps are filled, its outliers clamped, and nothing changes them afterwards |
| `GapLaws.EachRowBecomes` | app-api/scripts/medallion_pipeline_quality.py:620-803 | row by row, from the positions of the earlier rows: above 30 percent a gap stays; below 5 percent and not mar it becomes the median of the values of the site on the same weekday in the 56 days before, else of the site, else of the client, else it stays; otherwise the ridge prediction held to the history, if there is one, comes first |
| `ImputationLaws.MedianOfLevels` | app-api/scripts/medallion_pipeline_quality.py:620-675 | the hierarchical median is that of the first of these three lists of positions with a known value |
| `RidgeLaws.RidgeIsComputed` | app-api/scripts/medallion_pipeline_quality.py:329-617 | the ridge prediction is made from the at most six predictors that correlate best with the column over at least 40 samples, and from the at least 40 earlier rows of the site in which all of them and the column are known |
| `ColumnLaws.EachCellIsClamped` | app-api/scripts/medallion_pipeline_quality.py:521-564 | row by row: from 14 values on, each value becomes the nearest point of the band of 4.5 scaled median absolute deviations around the median of the at most 56 outputs of its site before it |
| `ClampLaws.EachOutputIsNearest` | app-api/scripts/medallion_pipeline_quality.py:521-564 | the same for one group, whatever its positions |
| `Cells.ValueIff` | app-api/scripts/medallion_pipeline_base.py:187-210 | a cell counts as a value if it is a number or a text that reads as one, never if it is a flag |
| `ColumnLaws.SeedAddsFlags` | app-api/scripts/medallion_pipeline_quality.py:701-705 | seeding adds the three flags where they are missing and changes nothing else |
| `ColumnLaws.MissingRateIsShare` | app-api/scripts/medallion_pipeline_quality.py:708-714 | the missing rate is the number of rows without a value over the number of rows, 0 for an empty table |
| `ColumnLaws.TableIsSorted` | app-api/scripts/medallion_pipeline_quality.py:841-847 | the pass works on the rows of the table, each once, sorted by client, site code and date text, equal ones in table order |
| `NoLookahead.SilverHasNoLookahead` | app-api/scripts/medallion_pipeline_quality.py:767-880 | two tables with the same row keys that agree before a cut agree before it after the whole pass, if the whole-table statistics lead to the same regimes |
| `ColumnTurns.NoLookaheadFromTheInput` | app-api/scripts/medallion_pipeline_quality.py:767-880 | the same with a condition on the two input tables alone: equal regimes there, no column that writes the cells of a later one, a mechanism that reads the keys and its column |
| `ColumnTurns.RegimesAreInputRegimes` | app-api/scripts/medallion_pipeline_quality.py:708-880 | the regime that a column meets in its turn is then the one of the input table, sorted or not |
| `ColumnTurns.TurnsSpare` | app-api/scripts/medallion_pipeline_quality.py:767-880 | the turns of other columns leave the cells of a column alone |
| `NoLookahead.SameImputedRow` | app-api/scripts/medallion_pipeline_quality.py:492-764 | the imputed value of a row depends on earlier rows only |
| `NoLookahead.ImputeAgrees` | app-api/scripts/medallion_pipeline_quality.py:767-803 | filling gaps in place keeps the agreement |
| `NoLookahead.ClampGroupAgrees` | app-api/scripts/medallion_pipeline_quality.py:543-564 | clamping in place keeps the agreement |
| `NoLookahead.SortingAgrees` | app-api/scripts/medallion_pipeline_quality.py:841-847 | sorting moves the rows of both tables alike |
| `NoLookahead.LaterGapsSwitchImputationOff` | app-api/scripts/medallion_pipeline_quality.py:708-714 | gaps in later rows alone can switch imputation off for a whole column |
| `MissingRateLaws.GapIsFilledIff` | app-api/scripts/medallion_pipeline_quality.py:767-880 | in the k-th column of any list whose other columns do not write its cells, and in a table in any order: a gap with a value of its site in the 56 days before is filled by the pass exactly when at most 30 percent of the column are missing in the whole table |
| `MissingRateLaws.RatesApartDisagree` | app-api/scripts/medallion_pipeline_quality.py:767-880 | so two tables that agree before a cut, hold such a gap there, and have missing rates of that column on the two sides of 30 percent disagree before the cut after the pass |
| `MissingRateLaws.LookaheadWithoutTheProviso` | app-api/scripts/medallion_pipeline_quality.py:708-803 | the failing input of the no-lookahead law without its proviso: two tables of four days, 1/4 and 3/4 missing |
| `ClampLaws.ClampOutputInBand` | app-api/scripts/medallion_pipeline_quality.py:543-564 | each output lies in the band of the at most 56 outputs before it, where there are 14 of them and their spread counts |
| `ClampLaws.QuietIffInBand` | app-api/scripts/medallion_pipeline_quality.py:521-564 | a pass changes nothing exactly when every value is in its band |
| `ClampLaws.ClampGroupTwice` | app-api/scripts/medallion_pipeline_quality.py:543-564 | a second pass over a group changes nothing and counts 0 |
| `ClampLaws.ClampGroupsTwice` | app-api/scripts/medallion_pipeline_quality.py:806-815 | the same for all groups of a column |
| `GoldFeatures.AddLagRollingFeatures` | app-api/scripts/medallion_pipeline_features.py:456-477 | the groups in order of first occurrence, each in place |
| `GoldFeatures.ApplyToGroup` | app-api/scripts/medallion_pipeline_features.py:480-500 | the rows of a group in date order, with one bounded history per column |
| `GoldFeatures.ApplyFeaturesForRow` | app-api/scripts/medallion_pipeline_features.py:503-519 | the features of every column from the histories so far, then the histories grown by the row |
| `GoldFeatures.ApplyLagValues` | app-api/scripts/medallion_pipeline_features.py:522-530 | the four lags |
| `GoldFeatures.ApplyRollingValues` | app-api/scripts/medallion_pipeline_features.py:533-548 | the three means and standard deviations |
| `FeatureLaws.TableHoldsFeatures` | app-api/scripts/medallion_pipeline_features.py:456-548 | every row of the finished table holds the features of the last 90 original values of its site before it, and its other columns unchanged |
| `FeatureLaws.EveryRowHasAPlace` | app-api/scripts/medallion_pipeline_features.py:462-477 | every row is at one place of one site |
| `FeatureLaws.SiteRowsInDateOrder` | app-api/scripts/medallion_pipeline_features.py:487 | a site is stably sorted by its date texts; what that means row by row, SiteRowsByDate says |
| `FeatureLaws.LagIsExact` | app-api/scripts/medallion_pipeline_features.py:489-530 | 90 values give the same lag as the whole history |
| `FeatureLaws.LagIsTheValueBefore` | app-api/scripts/medallion_pipeline_features.py:522-530 | the lag k of a row is the value k rows earlier at its site, null in the first k rows |
| `FeatureValueLaws.SiteRowsAreOneSite` | app-api/scripts/medallion_pipeline_features.py:462-477 | the rows of a site are all those with the client and the site code of any of them |
| `FeatureValueLaws.SiteRowsByDate` | app-api/scripts/medallion_pipeline_features.py:487 | they come by date text, rows of one date in table order |
| `FeatureValueLaws.LagColumns` | app-api/scripts/medallion_pipeline_features.py:522-530 | by name and number: the columns lag_1, lag_7, lag_14 and lag_28 hold the values 1, 7, 14 and 28 rows earlier at the site |
| `FeatureValueLaws.RollingColumns` | app-api/scripts/medallion_pipeline_features.py:533-548 | the columns rolling_mean and rolling_std of 7, 14 and 28 hold mean and deviation of that many last known values among those of the 90 rows before, or null |
| `FeatureLaws.RollingIsExactIff` | app-api/scripts/medallion_pipeline_features.py:489-548 | a rolling feature is the one over the whole history exactly when the last 90 values hold enough known ones or the whole history does not |
| `FeatureLaws.FeaturesNeverReadAhead` | app-api/scripts/medallion_pipeline_features.py:503-548 | no feature depends on its own row or a later one |
| `FeatureLaws.ClashForgetsAValue` | app-api/scripts/medallion_pipeline_features.py:503-519 | the proviso on names is needed: any clash makes a lag lose a value |
| `FeatureLaws.MetricNamesAre` | app-api/scripts/medallion_pipeline_quality.py:52-65 | every metric name is such a name |
| `FeatureLaws.MetricNamesNeverClash` | app-api/scripts/medallion_pipeline_features.py:551-572 | columns named as the silver table names its metrics never clash |
| `FeatureLaws.NameInjective` | app-api/scripts/medallion_pipeline_features.py:529 | two feature names are equal exactly when column and feature are |
| `Bronze.SpanOf` | app-api/scripts/medallion_pipeline_bronze.py:159-185 | the least and the greatest valid date; neither exactly when no date is valid |
| `Bronze.MedallionState.DetectChangedFiles` | app-api/scripts/medallion_pipeline_bronze.py:72-84 | the files whose digest is not the tracked one, in order |
| `Bronze.MedallionState.StageBronze` | app-api/scripts/medallion_pipeline_bronze.py:230-336 | manifest, quarantine and the whole new state |
| `Bronze.MedallionState.RunOnce` | app-api/scripts/medallion_pipeline.py:185-214 | one pass; answers whether anything was staged |
| `BronzeLaws.WatermarkSafety` | app-api/scripts/medallion_pipeline_bronze.py:245-312 | over any run of normal passes the dated files accepted for a client and dataset cover disjoint intervals, later ones later |
| `BronzeLaws.WatermarkIsTheMaximum` | app-api/scripts/medallion_pipeline_bronze.py:264-312 | a watermark is the maximum of their last dates, and exists exactly when there is one |
| `BronzeLaws.PassesTrack` | app-api/scripts/medallion_pipeline_bronze.py:230-336 | the invariant behind both, over every run of passes |
| `BronzeLaws.NothingIsLost` | app-api/scripts/medallion_pipeline_bronze.py:230-336 | manifest and quarantine together are the files passed in, each counted once |
| `BronzePasses.StagedXorRefused` | app-api/scripts/medallion_pipeline_bronze.py:230-336 | a file is in the manifest or in quarantine, never in both |
| `BronzePasses.OnlyRefusedAreStillChanged` | app-api/scripts/medallion_pipeline.py:185-214 | after a pass the files found changed are exactly those in quarantine, in order |
| `BronzePasses.SecondPassStagesNothing` | app-api/scripts/medallion_pipeline.py:185-214 | a second pass over the same files stages nothing, changes nothing and refuses the same files |
| `RebuildLaws.RebuildForgets` | app-api/scripts/medallion_pipeline.py:150-152 | a forced rebuild of some files leaves the same tracked files, watermarks, manifest and quarantine whatever the state held before |
| `RebuildLaws.RebuildStartsAnew` | app-api/scripts/medallion_pipeline.py:150-207 | namely those of a normal pass from nothing |
| `RebuildLaws.RebuildAcceptsAll` | app-api/scripts/medallion_pipeline.py:150-207 | over files with pairwise different keys it accepts, in order, exactly those that can be inspected |
| `RebuildLaws.OnePerDatasetHasOneKeyEach` | app-api/scripts/medallion_pipeline_bronze.py:268 | with no colon in a client, pairwise different clients or datasets have pairwise different keys |
| `RebuildLaws.SharedKeyRefusesIff` | app-api/scripts/medallion_pipeline_bronze.py:261-299 | of two files with one key the second is refused, even in a rebuild, exactly when its dates reach back into the first |
| `RebuildLaws.EmptyRebuildKeepsAll` | app-api/scripts/medallion_pipeline.py:195-201 | a forced rebuild of no files changes nothing |
| `BronzeRecordLaws.PassRecordsFit` | app-api/scripts/medallion_pipeline_bronze.py:230-336 | what manifest and quarantine say of each file after any pass: digest, rows, dates and place of an accepted one, reason, dates and watermark of a refused one |
| `BronzeCopies.CopiesCollideIff` | app-api/scripts/medallion_pipeline_bronze.py:300-312 | two copies go to one place exactly when client, dataset and run are the same |
| `BronzeCopies.CopySurvivesIff` | app-api/scripts/medallion_pipeline_bronze.py:242-312 | the copy of an accepted file survives the pass exactly when no later file of the same client and dataset is accepted |
| `BronzeCopies.OneFilePerDatasetKeepsAll` | app-api/scripts/medallion_pipeline_bronze.py:242-312 | a pass over files of pairwise different clients or datasets keeps every copy |
| `BronzeCopies.ReprocessingKeepsAllIff` | app-api/scripts/medallion_pipeline_bronze.py:242-312 | with reprocessing every copy survives exactly when no client and dataset have two files that can be inspected |
| `BronzeCopies.NextFileTakesTheCopy` | app-api/scripts/medallion_pipeline_bronze.py:264-312 | without it, a file that takes up where the one before ends is accepted and overwrites that one |
| `BronzeCopies.OtherRunsKeepTheirCopies` | app-api/scripts/medallion_pipeline_bronze.py:300-312 | copies of a run with another identifier are left alone |
| `BronzeAssets.DiscoverLatestBronzeAssets` | app-api/scripts/medallion_pipeline_bronze.py:339-378 | one asset per client and dataset, sorted by them: the first found with the greatest run identifier |
| `BronzeAssets.SilverReadsTheLatest` | app-api/scripts/medallion_pipeline_bronze.py:339-378 | after any run of normal passes the file read for a client and dataset is the last of those accepted with the greatest run identifier |
| `BronzeAssets.SilverReadsOnlyTheLast` | app-api/scripts/medallion_pipeline.py:80-81 | with run identifiers that never fall it is the last accepted file, and the days of the earlier ones lie before it and are not read |
| `Identifier.NormalizeIdentifier` | app-api/scripts/medallion_pipeline_base.py:109-126 | the loop computes the normalized identifier |
| `Identifier.NormalizeIsWellFormed` | app-api/scripts/medallion_pipeline_base.py:109-126 | for any text and alphabet: letters and digits with single inner underscores, not starting with a digit, all of them lowered |
| `Identifier.FixedIffWellFormed` | app-api/scripts/medallion_pipeline_base.py:109-126 | the texts left alone are exactly the well-formed ones that lowering leaves alone |
| `Identifier.NormalizeTwice` | app-api/scripts/medallion_pipeline_base.py:109-126 | normalizing twice is normalizing once |
| `WordLaws.NormalizeJoinsWords` | app-api/scripts/medallion_pipeline_base.py:109-126 | the identifier of any text: its words, lowered, joined by single underscores, with c_ in front of a digit, and col for none |
| `WordLaws.EveryTextIsWoven` | app-api/scripts/medallion_pipeline_base.py:109-126 | every text is made of words and gaps in this way |
| `WordLaws.StripTakesTheEnds` | app-api/scripts/medallion_pipeline_base.py:109-126 | stripping takes the characters of a kind, and all of them, off both ends |
| `WordLaws.TrimIsStrip` | app-connectors/src/store.ts:98 | the trimming of names in the store is stripping as well |
| `Identifier.AsciiMeetsTheRules` | app-api/scripts/medallion_pipeline_base.py:109-126 | on ASCII text what these laws ask of the alphabet holds |
| `Identifier.ParseRecovers` | app-api/scripts/medallion_pipeline_quality.py:52-65 | splitting a metric name at its first double underscore recovers dataset and column |
| `Identifier.MetricNamesEqualIff` | app-api/scripts/medallion_pipeline_quality.py:52-65 | two metric names are equal exactly when both parts normalize alike |
| `Identifier.MetricIsNoKeyColumn` | app-api/scripts/medallion_pipeline_quality.py:187-194 | a metric name is never a key column |
| `Router.CompileTemplate` | app-connectors/src/router.ts:17-38 | the anchored pattern and the parameter names of a template |
| `Router.MatchRoute` | app-connectors/src/router.ts:76-113 | the first route that matches, its parameters decoded, or the first parameter that does not decode |
| `RouterLaws.MatchIsSegmentWise` | app-connectors/src/router.ts:17-38 | the pattern of any template, the root one included, matches a path exactly when its segments match one by one, with the same captures |
| `RouterLaws.ChunksOfTemplate` | app-connectors/src/router.ts:17-38 | splitting a template recovers its chunks |
| `RouterLaws.FirstAcceptingWins` | app-connectors/src/router.ts:76-113 | in any table the first route that accepts a request is the one answered |
| `ParameterLaws.ParametersAreDecoded` | app-connectors/src/router.ts:84-104 | each parameter name gets its own segment, decoded; or the first name whose segment does not decode is reported |
| `RouterLaws.FirstMatchIsTheMatch` | app-connectors/src/router.ts:76-113 | in an unambiguous table the route that accepts a request is the one found |
| `RouterLaws.OrderIsIrrelevant` | app-connectors/src/router.ts:76-113 | any rearrangement of an unambiguous table finds the same match |
| `ConnectorRoutes.RoutesListedOnce` | app-connectors/src/routes.ts:424-1196 | no route is listed twice |
| `ConnectorRoutes.TableIsUnambiguous` | app-connectors/src/routes.ts:424-1196 | for every verb and path at most one entry of the route table matches |
| `PercentEncoding.DecodeEncode` | app-api-ts/src/admin-integrations.ts:251-262 | percent-decoding undoes percent-encoding of ASCII text |
| `PercentEncoding.EncodeOne` | app-api-ts/src/admin-integrations.ts:251-262 | letters, digits and nine marks stay, any other ASCII character becomes a percent sign and two upper-case hexadecimal digits |
| `PercentEncoding.EncodeAppend` | app-api-ts/src/admin-integrations.ts:251-262 | encoding goes character by character |
| `PercentEncoding.HexDigitsRead` | app-api-ts/src/admin-integrations.ts:251-262 | both cases of a hexadecimal digit are read, and nothing else |
| `ConnectionPaths.DecodeDecodesPercent` | app-api-ts/src/admin-integrations.ts:251-262 | the decoder modelled here does what the path laws ask of one |
| `ConnectionPaths.EncodedPathIsRead` | app-api-ts/src/admin-integrations.ts:264-277 | a path printed from any two ASCII identifiers is routed to the connection with those identifiers |
| `ConnectionPaths.PrintsIff` | app-api-ts/src/admin-integrations.ts:251-277 | a path is printed exactly when both trimmed identifiers have 1 to 128 letters, digits, underscores or hyphens; else the first that has not is named |
| `ConnectionPaths.PrintedPathIsRead` | app-api-ts/src/admin-integrations.ts:251-277 | a path is printed exactly when both trimmed identifiers are path segments, and it is read back as those identifiers |

## Left out

- The ownership checks, OAuth flows and exposure rules of the services: thin wrappers around the store operations modelled here.
- The list and get operations of the store: filters of one map.
- HTTP plumbing, logging, CORS and the choice of a rate-limit key: input and output.
- PostgreSQL, advisory locks, JSON, SHA-256, AES, HMAC and JWT: foreign calls.
- Weather, school holidays and the calendar columns of the gold table: network and trigonometry.
- The quality report of the silver pass and the quality gates: counts beside the table.
- The choice of the numeric columns, of the gold columns and of the missing mechanism: parameters, although the first and the last read the whole table.
- The numerics of ridge, median and percentiles, floating point and NaN: uninterpreted.
- The loops inside the ridge predictor: written as functions, since only what they read matters to the laws.
- The quarantine copies and the JSON manifests of bronze: records only. A failure of a file copy, or of the steps after staging, which would leave the state file unwritten, is not modelled.
- The discovery of source files, the listing of the bronze directory and the choice of key columns: parameters.
- Regular-expression text: a compiled pattern is a sequence of literal characters and groups, so the escaping of literals is not modelled.
- BronzeLaws.WatermarkSafety: about normal passes only, since reprocessing and forced rebuilds may lower a watermark by design.
- NoLookahead.SilverHasNoLookahead: does not cover the regimes, nor the list of numeric columns, which look at the whole table; `RatesApartDisagree` shows that it fails without the first, and a text in a later row takes a column out of the second.
- SilverPass.CollectHierarchicalHistory: has no failure where today minus 56 days leaves the calendar, in the first weeks of the year 1 (medallion_pipeline_quality.py:510), because days are plain integers there.
- RawIngest.PersistRawEvents: starts from rows that are built already; the check of the source object, the payload store, the preview and the event id derived from a hash are left out.
- ColumnLaws.PassFillsAndClamps: asks for distinct columns, which the sorted candidate set of the source is, and reads ridge predictors as the earlier turns left them.
- FeatureLaws.TableHoldsFeatures: asks for distinct candidate columns, which both lists the source uses are.
- PercentEncoding.DecodeEncode: for ASCII text only; escapes of longer UTF-8 sequences are not modelled.
- ConnectorRoutes.TableIsUnambiguous: lists the routes by verb and length instead of source order, which `OrderIsIrrelevant` shows to make no difference.
- Router.MatchRoute: decoding is a parameter; the path laws ask it to undo percent-encoding of ASCII text.
