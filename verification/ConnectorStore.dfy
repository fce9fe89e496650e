/**
 The in-memory connectors store. `StoreState` is its content as one value, `Step` says what each
 operation makes of it, and the class does the same by assigning its fields.
 */
module ConnectorStore {
  import opened Wrappers
  import opened Sequences
  import opened StableSort
  import opened TableQueue
  import opened InsertionMap
  import opened ConnectorTypes
  import opened Delimiters

  datatype StoreState = StoreState(
    connections: OrderedMap<string, Connection>,
    runs: OrderedMap<string, SyncRun>,
    syncStates: OrderedMap<string, SyncState>,
    syncReplayIndex: OrderedMap<string, string>,
    secretsByRef: map<string, SecretRecord>,
    latestSecretRefByConnection: OrderedMap<string, string>,
    authorizationSessions: OrderedMap<string, AuthorizationSession>,
    auditEvents: seq<AuditEvent>,
    ingestCredentials: OrderedMap<string, IngestCredential>,
    rawEvents: OrderedMap<string, RawEvent>,
    rawEventIndex: OrderedMap<string, string>)

  const EMPTY_STATE := StoreState(Empty(), Empty(), Empty(), Empty(), map[], Empty(), Empty(), [], Empty(), Empty(), Empty())

  /*** Sync runs ***/

  predicate AnswersTo(run: SyncRun, organizationId: string, connectionId: string, triggerType: string) {
    run.organizationId == organizationId && run.connectionId == connectionId && run.triggerType == triggerType
  }

  /** The run the replay index leads to, if it is filed there rightly. */
  function IndexedRun(st: StoreState, organizationId: string, connectionId: string, triggerType: string,
                      idempotencyKey: string): Option<SyncRun>
  {
    var replayKey := KeyMaterial(organizationId, connectionId, triggerType, idempotencyKey);
    if replayKey !in st.syncReplayIndex.at then None
    else
      var id := st.syncReplayIndex.at[replayKey];
      if id in st.runs.at && AnswersTo(st.runs.at[id], organizationId, connectionId, triggerType)
      then Some(st.runs.at[id]) else None
  }

  /** A lookup that meets a stale index entry deletes it. */
  function AfterFindRun(st: StoreState, organizationId: string, connectionId: string, triggerType: string,
                        idempotencyKey: string): StoreState
  {
    var replayKey := KeyMaterial(organizationId, connectionId, triggerType, idempotencyKey);
    if replayKey in st.syncReplayIndex.at && IndexedRun(st, organizationId, connectionId, triggerType, idempotencyKey) == None
    then st.(syncReplayIndex := st.syncReplayIndex.Delete(replayKey)) else st
  }

  function NewRun(id: string, organizationId: string, connectionId: string, triggerType: string, idempotencyKey: string,
                  now: Millis): SyncRun
  {
    SyncRun(id, organizationId, connectionId, triggerType, Queued, 0, 0, None, None, None, None, idempotencyKey,
            None, None, false, now, 0, 8, 50, None, None, now)
  }

  predicate SameRunIdentity(a: SyncRun, b: SyncRun) {
    && a.id == b.id && a.organizationId == b.organizationId && a.connectionId == b.connectionId
    && a.triggerType == b.triggerType && a.idempotencyKey == b.idempotencyKey
  }

  /** A patch that leaves the fields a run is found by alone. */
  ghost predicate KeepsRunIdentity(patch: SyncRun -> SyncRun) {
    forall run :: SameRunIdentity(run, patch(run))
  }

  function AfterCreateRun(st: StoreState, run: SyncRun): StoreState {
    var cleaned := AfterFindRun(st, run.organizationId, run.connectionId, run.triggerType, run.idempotencyKey);
    if IndexedRun(st, run.organizationId, run.connectionId, run.triggerType, run.idempotencyKey).Some? then st
    else cleaned.(runs := cleaned.runs.Set(run.id, run),
                  syncReplayIndex := cleaned.syncReplayIndex.Set(RunKey(run), run.id))
  }

  function Merge(previous: SyncRun, patch: RunUpdate): SyncRun {
    previous.(
      status := patch.status,
      recordsFetched := patch.recordsFetched.GetOr(previous.recordsFetched),
      recordsWritten := patch.recordsWritten.GetOr(previous.recordsWritten),
      errorClass := patch.errorClass.OrKeep(previous.errorClass),
      errorMessage := patch.errorMessage.OrKeep(previous.errorMessage),
      startedAt := patch.startedAt.OrKeep(previous.startedAt),
      endedAt := patch.endedAt.OrKeep(previous.endedAt),
      availableAt := patch.availableAt.GetOr(previous.availableAt),
      attempts := patch.attempts.GetOr(previous.attempts),
      maxAttempts := patch.maxAttempts.GetOr(previous.maxAttempts),
      priority := patch.priority.GetOr(previous.priority),
      lockedBy := patch.lockedBy.OrClear(previous.lockedBy),
      leaseExpiresAt := patch.leaseExpiresAt.OrClear(previous.leaseExpiresAt))
  }

  function IdOfRun(run: SyncRun): string {
    run.id
  }

  function UpdatedRun(st: StoreState, organizationId: string, runId: string, patch: RunUpdate): Option<SyncRun> {
    if runId in st.runs.at && st.runs.at[runId].organizationId == organizationId
    then Some(Merge(st.runs.at[runId], patch)) else None
  }

  function AfterUpdateRun(st: StoreState, organizationId: string, runId: string, patch: RunUpdate): StoreState {
    match UpdatedRun(st, organizationId, runId, patch)
    case None => st
    case Some(next) => st.(runs := st.runs.Set(runId, next))
  }

  predicate Claimable(run: SyncRun, organizationIds: seq<string>, now: Millis) {
    && run.organizationId in organizationIds
    && (run.status == Queued ==> run.availableAt <= now)
    && (run.status != Queued ==> run.status == Running && run.leaseExpiresAt.Some? && run.leaseExpiresAt.value <= now)
  }

  function ClaimableIn(organizationIds: seq<string>, now: Millis): SyncRun -> bool {
    run => Claimable(run, organizationIds, now)
  }

  predicate ClaimOrder(left: SyncRun, right: SyncRun) {
    if left.priority != right.priority then left.priority < right.priority
    else if left.availableAt != right.availableAt then left.availableAt < right.availableAt
    else left.createdAt <= right.createdAt
  }

  /** Everything a claim may hand out now, in the order it is handed out. */
  function ClaimQueue(runs: OrderedMap<string, SyncRun>, organizationIds: seq<string>, now: Millis): seq<SyncRun> {
    Queue(runs, ClaimableIn(organizationIds, now), ClaimOrder)
  }

  /** What a claim call asks for: whose runs, how many, for how long; and what the clock and the token source say. */
  datatype Claim = Claim(organizationIds: seq<string>, limit: int, leaseSeconds: int, now: Millis, tokens: nat -> string)

  function LeaseEnd(claim: Claim): Millis {
    claim.now + claim.leaseSeconds * 1000
  }

  function ClaimPatch(run: SyncRun, claim: Claim, token: string): RunUpdate {
    RunUpdate(Running, Some(0), Some(0), Null, Null, Of(claim.now), Null, None, Some(run.attempts + 1), None, None,
              Of(token), Of(LeaseEnd(claim)))
  }

  function ClaimedRun(run: SyncRun, claim: Claim, token: string): SyncRun {
    Merge(run, ClaimPatch(run, claim, token))
  }

  function ClaimCandidates(runs: OrderedMap<string, SyncRun>, claim: Claim): seq<SyncRun> {
    if claim.organizationIds == [] || claim.limit < 1 then []
    else SliceTo(ClaimQueue(runs, claim.organizationIds, claim.now), claim.limit)
  }

  function Lease(candidates: seq<SyncRun>, claim: Claim): seq<SyncRun> {
    if candidates == [] then []
    else
      var n := |candidates| - 1;
      Lease(candidates[..n], claim) + [ClaimedRun(candidates[n], claim, claim.tokens(n))]
  }

  function ClaimBatch(runs: OrderedMap<string, SyncRun>, claim: Claim): seq<SyncRun> {
    Lease(ClaimCandidates(runs, claim), claim)
  }

  function AfterClaimRuns(st: StoreState, claim: Claim): StoreState {
    st.(runs := SetAll(st.runs, ClaimBatch(st.runs, claim), IdOfRun))
  }

  /*** Raw events ***/

  function IdOfRawEvent(event: RawEvent): string {
    event.id
  }

  function IndexedRawEvent(st: StoreState, organizationId: string, connectionId: string, eventId: string): Option<RawEvent> {
    var replayKey := KeyMaterial(organizationId, connectionId, "raw_event", eventId);
    if replayKey !in st.rawEventIndex.at then None
    else
      var id := st.rawEventIndex.at[replayKey];
      if id in st.rawEvents.at && st.rawEvents.at[id].organizationId == organizationId
         && st.rawEvents.at[id].connectionId == connectionId
      then Some(st.rawEvents.at[id]) else None
  }

  function AfterFindRawEvent(st: StoreState, organizationId: string, connectionId: string, eventId: string): StoreState {
    var replayKey := KeyMaterial(organizationId, connectionId, "raw_event", eventId);
    if replayKey in st.rawEventIndex.at && IndexedRawEvent(st, organizationId, connectionId, eventId) == None
    then st.(rawEventIndex := st.rawEventIndex.Delete(replayKey)) else st
  }

  /** Creation, unlike lookup, does not compare the organization and connection of the indexed event. */
  function DuplicateOf(st: StoreState, event: RawEvent): Option<RawEvent> {
    if RawEventKey(event) in st.rawEventIndex.at && st.rawEventIndex.at[RawEventKey(event)] in st.rawEvents.at
    then Some(st.rawEvents.at[st.rawEventIndex.at[RawEventKey(event)]]) else None
  }

  function AfterCreateRawEvent(st: StoreState, event: RawEvent): StoreState {
    if DuplicateOf(st, event).Some? then st
    else
      var index := if RawEventKey(event) in st.rawEventIndex.at then st.rawEventIndex.Delete(RawEventKey(event))
                   else st.rawEventIndex;
      st.(rawEvents := st.rawEvents.Set(event.id, event), rawEventIndex := index.Set(RawEventKey(event), event.id))
  }

  function OwnRawEvent(st: StoreState, organizationId: string, connectionId: string, id: string): Option<RawEvent> {
    if id in st.rawEvents.at && st.rawEvents.at[id].organizationId == organizationId
       && st.rawEvents.at[id].connectionId == connectionId
    then Some(st.rawEvents.at[id]) else None
  }

  function AfterUpdateRawEvent(st: StoreState, organizationId: string, connectionId: string, id: string,
                               patch: RawEvent -> RawEvent): StoreState
  {
    match OwnRawEvent(st, organizationId, connectionId, id)
    case None => st
    case Some(previous) => st.(rawEvents := st.rawEvents.Set(id, patch(previous)))
  }

  /** An absent or empty connection id lists the whole organization. */
  function ListedIn(organizationId: string, connectionId: Option<string>): RawEvent -> bool {
    (event: RawEvent) => event.organizationId == organizationId
             && (connectionId.None? || connectionId.value == "" || event.connectionId == connectionId.value)
  }

  predicate NewestFirst(left: RawEvent, right: RawEvent) {
    left.receivedAt >= right.receivedAt
  }

  function ListRawEvents(events: OrderedMap<string, RawEvent>, organizationId: string, connectionId: Option<string>): seq<RawEvent> {
    Sort(Filter(events.Values(), ListedIn(organizationId, connectionId)), NewestFirst)
  }

  predicate IsPending(event: RawEvent) {
    event.processingStatus == Pending
  }

  datatype RawClaim = RawClaim(organizationId: string, connectionId: string, limit: int, now: Millis, tokens: nat -> string)

  function RawQueue(events: OrderedMap<string, RawEvent>, claim: RawClaim): seq<RawEvent> {
    Filter(ListRawEvents(events, claim.organizationId, Some(claim.connectionId)), IsPending)
  }

  function ClaimedRawEvent(event: RawEvent, claim: RawClaim, token: string): RawEvent {
    event.(processingStatus := Processing, claimedAt := Some(claim.now), claimedBy := Some(token), errorMessage := None)
  }

  /** The candidates that really belong to the connection named in the call, marked as taken. */
  function MarkTaken(candidates: seq<RawEvent>, claim: RawClaim): seq<RawEvent> {
    if candidates == [] then []
    else
      var n := |candidates| - 1;
      MarkTaken(candidates[..n], claim)
      + if candidates[n].connectionId == claim.connectionId
        then [ClaimedRawEvent(candidates[n], claim, claim.tokens(n))] else []
  }

  function RawBatch(events: OrderedMap<string, RawEvent>, claim: RawClaim): seq<RawEvent> {
    MarkTaken(SliceTo(RawQueue(events, claim), claim.limit), claim)
  }

  function AfterClaimRawEvents(st: StoreState, claim: RawClaim): StoreState {
    st.(rawEvents := SetAll(st.rawEvents, RawBatch(st.rawEvents, claim), IdOfRawEvent))
  }

  /*** Sync states, connections, credentials, sessions, secrets ***/

  function UpsertedSyncState(st: StoreState, organizationId: string, connectionId: string, sourceObject: string,
                             patch: SyncStateUpdate, now: Millis): SyncState
  {
    var previous := st.syncStates.Get(SyncStateKey(connectionId, sourceObject));
    SyncState(
      organizationId, connectionId, sourceObject,
      patch.watermarkText.OrClear(if previous.Some? then previous.value.watermarkText else None),
      patch.watermarkAt.OrClear(if previous.Some? then previous.value.watermarkAt else None),
      patch.cursorJson.GetOr(if previous.Some? then previous.value.cursorJson else map[]),
      patch.lastRunId.OrClear(if previous.Some? then previous.value.lastRunId else None),
      patch.updatedByWorker.OrClear(if previous.Some? then previous.value.updatedByWorker else None),
      if previous.Some? then previous.value.createdAt else now,
      now)
  }

  function AfterUpsertSyncState(st: StoreState, organizationId: string, connectionId: string, sourceObject: string,
                                patch: SyncStateUpdate, now: Millis): StoreState
  {
    st.(syncStates := st.syncStates.Set(SyncStateKey(connectionId, sourceObject),
                                        UpsertedSyncState(st, organizationId, connectionId, sourceObject, patch, now)))
  }

  /** A new connection is pending, and authorized at once when it comes with a secret; the catalog fills what the caller leaves open. */
  function NewDetails(input: ConnectionInput, catalog: Catalog): (d: ConnectionDetails)
    ensures d.authorizationState == "authorized" <==> input.secretRef.Some?
    ensures d.secretVersion.Some? <==> input.secretRef.Some?
    ensures input.sourceObjects.Some? && input.sourceObjects.value != [] ==> d.sourceObjects == input.sourceObjects.value
  {
    var entry := Lookup(catalog, input.vendor);
    ConnectionDetails(
      input.vendor,
      Trim(input.displayName),
      "pending",
      if input.secretRef.Some? then "authorized" else "not_started",
      input.runtimeEnvironment.GetOr("production"),
      input.authMode,
      input.config.GetOr(map[]),
      input.secretRef,
      if input.secretRef.Some? then Some(1) else None,
      if input.sourceObjects.Some? && input.sourceObjects.value != [] then input.sourceObjects.value
      else if entry.Some? then entry.value.sourceObjects else [],
      input.syncIntervalMinutes.GetOr(if entry.Some? then entry.value.recommendedSyncMinutes else 30),
      input.webhookEnabled.GetOr(false),
      input.baseUrl, input.externalAccountId, input.oauthScopes, None, None, None, None)
  }

  /** What the caller gave for a credential. */
  function InputOf(d: CredentialDetails): CredentialInput {
    CredentialInput(d.title, d.keyId, d.authMode, d.secretRef, d.secretVersion, d.tokenPreview, d.allowedSourceObjects,
                    d.allowedIpAddresses, d.expiresAt)
  }

  function UpdatedConnection(st: StoreState, organizationId: string, connectionId: string,
                             patch: ConnectionDetails -> ConnectionDetails, now: Millis): Option<Connection>
  {
    if connectionId in st.connections.at && st.connections.at[connectionId].organizationId == organizationId then
      var row := st.connections.at[connectionId];
      Some(row.(details := patch(row.details), updatedAt := now))
    else None
  }

  function AfterUpdateConnection(st: StoreState, organizationId: string, connectionId: string,
                                 patch: ConnectionDetails -> ConnectionDetails, now: Millis): StoreState
  {
    match UpdatedConnection(st, organizationId, connectionId, patch, now)
    case None => st
    case Some(next) => st.(connections := st.connections.Set(connectionId, next))
  }

  function UpdatedCredential(st: StoreState, organizationId: string, connectionId: string, id: string,
                             patch: CredentialDetails -> CredentialDetails, now: Millis): Option<IngestCredential>
  {
    if id in st.ingestCredentials.at && st.ingestCredentials.at[id].organizationId == organizationId
       && st.ingestCredentials.at[id].connectionId == connectionId then
      var row := st.ingestCredentials.at[id];
      Some(row.(details := patch(row.details), updatedAt := now))
    else None
  }

  function AfterUpdateIngestCredential(st: StoreState, organizationId: string, connectionId: string, id: string,
                                       patch: CredentialDetails -> CredentialDetails, now: Millis): StoreState
  {
    match UpdatedCredential(st, organizationId, connectionId, id, patch, now)
    case None => st
    case Some(next) => st.(ingestCredentials := st.ingestCredentials.Set(id, next))
  }

  /*** Every operation that can change the store ***/

  datatype Operation =
    | CreateConnection(connection: Connection)
    | UpdateConnection(organizationId: string, connectionId: string, changes: ConnectionDetails -> ConnectionDetails, now: Millis)
    | PutSecret(secret: SecretRecord)
    | CreateAuthorizationSession(session: AuthorizationSession)
    | DeleteAuthorizationSession(connectionId: string)
    | CreateAuditEvent(audit: AuditEvent)
    | CreateIngestCredential(credential: IngestCredential)
    | UpdateIngestCredential(organizationId: string, connectionId: string, id: string, credentialChanges: CredentialDetails -> CredentialDetails,
                             now: Millis)
    | CreateRawEvent(event: RawEvent)
    | FindRawEventByEventId(organizationId: string, connectionId: string, eventId: string)
    | UpdateRawEvent(organizationId: string, connectionId: string, id: string, eventPatch: RawEvent -> RawEvent)
    | ClaimRawEvents(rawClaim: RawClaim)
    | CreateSyncRun(run: SyncRun)
    | FindSyncRunByIdempotency(organizationId: string, connectionId: string, triggerType: string, idempotencyKey: string)
    | UpdateSyncRun(organizationId: string, runId: string, update: RunUpdate)
    | ClaimSyncRuns(claim: Claim)
    | UpsertSyncState(organizationId: string, connectionId: string, sourceObject: string, stateUpdate: SyncStateUpdate, now: Millis)

  function Step(st: StoreState, op: Operation): StoreState {
    match op
    case CreateConnection(c) => st.(connections := st.connections.Set(c.id, c))
    case UpdateConnection(o, c, changes, now) => AfterUpdateConnection(st, o, c, changes, now)
    case PutSecret(s) => st.(secretsByRef := st.secretsByRef[s.secretRef := s],
                             latestSecretRefByConnection := st.latestSecretRefByConnection.Set(s.connectionId, s.secretRef))
    case CreateAuthorizationSession(s) => st.(authorizationSessions := st.authorizationSessions.Set(s.connectionId, s))
    case DeleteAuthorizationSession(c) => st.(authorizationSessions := st.authorizationSessions.Delete(c))
    case CreateAuditEvent(e) => st.(auditEvents := st.auditEvents + [e])
    case CreateIngestCredential(c) => st.(ingestCredentials := st.ingestCredentials.Set(c.id, c))
    case UpdateIngestCredential(o, c, id, changes, now) => AfterUpdateIngestCredential(st, o, c, id, changes, now)
    case CreateRawEvent(e) => AfterCreateRawEvent(st, e)
    case FindRawEventByEventId(o, c, e) => AfterFindRawEvent(st, o, c, e)
    case UpdateRawEvent(o, c, id, patch) => AfterUpdateRawEvent(st, o, c, id, patch)
    case ClaimRawEvents(claim) => AfterClaimRawEvents(st, claim)
    case CreateSyncRun(run) => AfterCreateRun(st, run)
    case FindSyncRunByIdempotency(o, c, t, k) => AfterFindRun(st, o, c, t, k)
    case UpdateSyncRun(o, id, update) => AfterUpdateRun(st, o, id, update)
    case ClaimSyncRuns(claim) => AfterClaimRuns(st, claim)
    case UpsertSyncState(o, c, s, update, now) => AfterUpsertSyncState(st, o, c, s, update, now)
  }
}
