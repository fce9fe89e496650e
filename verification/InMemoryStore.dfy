/** The in-memory store as an object whose methods assign its fields. */
module InMemoryStore {
  import opened Wrappers
  import opened Sequences
  import opened StableSort
  import opened InsertionMap
  import opened ConnectorTypes
  import opened Delimiters
  import opened ConnectorStore
  import opened ClaimLaws
  import opened RawClaimLaws

  class InMemoryConnectorStore {
    var connections: OrderedMap<string, Connection>
    var runs: OrderedMap<string, SyncRun>
    var syncStates: OrderedMap<string, SyncState>
    var syncReplayIndex: OrderedMap<string, string>
    var secretsByRef: map<string, SecretRecord>
    var latestSecretRefByConnection: OrderedMap<string, string>
    var authorizationSessions: OrderedMap<string, AuthorizationSession>
    var auditEvents: seq<AuditEvent>
    var ingestCredentials: OrderedMap<string, IngestCredential>
    var rawEvents: OrderedMap<string, RawEvent>
    var rawEventIndex: OrderedMap<string, string>

    function State(): StoreState
      reads this
    {
      StoreState(connections, runs, syncStates, syncReplayIndex, secretsByRef, latestSecretRefByConnection,
                 authorizationSessions, auditEvents, ingestCredentials, rawEvents, rawEventIndex)
    }

    constructor ()
      ensures State() == EMPTY_STATE
    {
      connections, runs, syncStates, syncReplayIndex := Empty(), Empty(), Empty(), Empty();
      secretsByRef, latestSecretRefByConnection := map[], Empty();
      authorizationSessions, auditEvents, ingestCredentials := Empty(), [], Empty();
      rawEvents, rawEventIndex := Empty(), Empty();
    }

    method FindSyncRunByIdempotency(organizationId: string, connectionId: string, triggerType: string, idempotencyKey: string)
      returns (found: Option<SyncRun>)
      modifies this
      ensures State() == Step(old(State()), Operation.FindSyncRunByIdempotency(organizationId, connectionId, triggerType, idempotencyKey))
      ensures found == IndexedRun(old(State()), organizationId, connectionId, triggerType, idempotencyKey)
    {
      var replayKey := KeyMaterial(organizationId, connectionId, triggerType, idempotencyKey);
      var existingRunId := syncReplayIndex.Get(replayKey);
      if existingRunId.None? {
        return None;
      }
      var existingRun := runs.Get(existingRunId.value);
      if existingRun.None? || existingRun.value.organizationId != organizationId
         || existingRun.value.connectionId != connectionId || existingRun.value.triggerType != triggerType {
        syncReplayIndex := syncReplayIndex.Delete(replayKey);
        return None;
      }
      return existingRun;
    }

    method CreateSyncRun(organizationId: string, connectionId: string, triggerType: string, idempotencyKey: string,
                         patch: SyncRun -> SyncRun, newId: string, now: Millis) returns (created: bool, run: SyncRun)
      requires KeepsRunIdentity(patch)
      modifies this
      ensures
        var newRun := patch(NewRun(newId, organizationId, connectionId, triggerType, idempotencyKey, now));
        && State() == Step(old(State()), Operation.CreateSyncRun(newRun))
        && created == IndexedRun(old(State()), organizationId, connectionId, triggerType, idempotencyKey).None?
        && run == IndexedRun(old(State()), organizationId, connectionId, triggerType, idempotencyKey).GetOr(newRun)
    {
      var replayKey := KeyMaterial(organizationId, connectionId, triggerType, idempotencyKey);
      var existingRunId := syncReplayIndex.Get(replayKey);
      if existingRunId.Some? {
        var existingRun := runs.Get(existingRunId.value);
        if existingRun.Some? && existingRun.value.organizationId == organizationId
           && existingRun.value.connectionId == connectionId && existingRun.value.triggerType == triggerType {
          return false, existingRun.value;
        }
        syncReplayIndex := syncReplayIndex.Delete(replayKey);
      }
      run := patch(NewRun(newId, organizationId, connectionId, triggerType, idempotencyKey, now));
      assert SameRunIdentity(NewRun(newId, organizationId, connectionId, triggerType, idempotencyKey, now), run);
      runs := runs.Set(run.id, run);
      syncReplayIndex := syncReplayIndex.Set(replayKey, run.id);
      created := true;
    }

    method UpdateSyncRun(organizationId: string, runId: string, patch: RunUpdate) returns (updated: Option<SyncRun>)
      modifies this`runs
      ensures State() == Step(old(State()), Operation.UpdateSyncRun(organizationId, runId, patch))
      ensures updated == UpdatedRun(old(State()), organizationId, runId, patch)
    {
      updated := MergeIntoRun(organizationId, runId, patch);
    }

    /** The body of `UpdateSyncRun`, specified on the one field it touches. */
    method MergeIntoRun(organizationId: string, runId: string, patch: RunUpdate) returns (updated: Option<SyncRun>)
      modifies this`runs
      ensures updated.Some? <==> runId in old(runs).at && old(runs).at[runId].organizationId == organizationId
      ensures updated.Some? ==> updated.value == Merge(old(runs).at[runId], patch) && runs == old(runs).Set(runId, updated.value)
      ensures updated.None? ==> runs == old(runs)
    {
      var previous := runs.Get(runId);
      if previous.None? || previous.value.organizationId != organizationId {
        return None;
      }
      var next := Merge(previous.value, patch);
      runs := runs.Set(runId, next);
      return Some(next);
    }

    method ClaimSyncRuns(claim: Claim) returns (batch: seq<SyncRun>)
      requires KeyedBy(runs, IdOfRun)
      modifies this`runs
      ensures State() == Step(old(State()), Operation.ClaimSyncRuns(claim))
      ensures batch == ClaimBatch(old(runs), claim)
    {
      batch := [];
      if |claim.organizationIds| == 0 || claim.limit < 1 {
        return;
      }
      var eligible := Filter(runs.Values(), ClaimableIn(claim.organizationIds, claim.now));
      var candidates := SliceTo(Sort(eligible, ClaimOrder), claim.limit);
      CandidatesAreStored(runs, claim);
      batch := LeaseEach(candidates, claim);
    }

    /** The `map` over the candidates of a claim: each one is updated in place. */
    method LeaseEach(candidates: seq<SyncRun>, claim: Claim) returns (batch: seq<SyncRun>)
      requires Waiting(runs, candidates)
      modifies this`runs
      ensures batch == Lease(candidates, claim)
      ensures runs == SetAll(old(runs), batch, IdOfRun)
    {
      batch := [];
      for i := 0 to |candidates|
        invariant batch == Lease(candidates[..i], claim)
        invariant runs == SetAll(old(runs), batch, IdOfRun)
        invariant Waiting(runs, candidates[i..])
      {
        var run := candidates[i];
        assert run == candidates[i..][0] && candidates[i..][1..] == candidates[i + 1..];
        OthersKeepWaiting(runs, candidates[i..], ClaimedRun(run, claim, claim.tokens(i)));
        var updated := MergeIntoRun(run.organizationId, run.id, ClaimPatch(run, claim, claim.tokens(i)));
        if updated.Some? {
          SetAllStep(old(runs), batch, updated.value, IdOfRun);
          LeaseStep(candidates, claim, i);
          batch := batch + [updated.value];
        }
      }
      assert candidates[..|candidates|] == candidates;
    }

    method CreateRawEvent(event: RawEvent) returns (created: bool, stored: RawEvent)
      modifies this
      ensures State() == Step(old(State()), Operation.CreateRawEvent(event))
      ensures created == DuplicateOf(old(State()), event).None?
      ensures stored == DuplicateOf(old(State()), event).GetOr(event)
    {
      var replayKey := KeyMaterial(event.organizationId, event.connectionId, "raw_event", event.eventId);
      var existingId := rawEventIndex.Get(replayKey);
      if existingId.Some? {
        var existing := rawEvents.Get(existingId.value);
        if existing.Some? {
          return false, existing.value;
        }
        rawEventIndex := rawEventIndex.Delete(replayKey);
      }
      rawEvents := rawEvents.Set(event.id, event);
      rawEventIndex := rawEventIndex.Set(replayKey, event.id);
      return true, event;
    }

    method FindRawEventByEventId(organizationId: string, connectionId: string, eventId: string) returns (found: Option<RawEvent>)
      modifies this
      ensures State() == Step(old(State()), Operation.FindRawEventByEventId(organizationId, connectionId, eventId))
      ensures found == IndexedRawEvent(old(State()), organizationId, connectionId, eventId)
    {
      var replayKey := KeyMaterial(organizationId, connectionId, "raw_event", eventId);
      var existingId := rawEventIndex.Get(replayKey);
      if existingId.None? {
        return None;
      }
      var existing := rawEvents.Get(existingId.value);
      if existing.None? || existing.value.organizationId != organizationId || existing.value.connectionId != connectionId {
        rawEventIndex := rawEventIndex.Delete(replayKey);
        return None;
      }
      return existing;
    }

    method UpdateRawEvent(organizationId: string, connectionId: string, id: string, patch: RawEvent -> RawEvent)
      returns (updated: Option<RawEvent>)
      modifies this`rawEvents
      ensures State() == Step(old(State()), Operation.UpdateRawEvent(organizationId, connectionId, id, patch))
      ensures updated == match OwnRawEvent(old(State()), organizationId, connectionId, id) case None => None case Some(e) => Some(patch(e))
    {
      updated := PatchEvent(organizationId, connectionId, id, patch);
    }

    /** The body of `UpdateRawEvent`, specified on the one field it touches. */
    method PatchEvent(organizationId: string, connectionId: string, id: string, patch: RawEvent -> RawEvent)
      returns (updated: Option<RawEvent>)
      modifies this`rawEvents
      ensures updated.Some? <==> id in old(rawEvents).at && old(rawEvents).at[id].organizationId == organizationId
                                 && old(rawEvents).at[id].connectionId == connectionId
      ensures updated.Some? ==> updated.value == patch(old(rawEvents).at[id]) && rawEvents == old(rawEvents).Set(id, updated.value)
      ensures updated.None? ==> rawEvents == old(rawEvents)
    {
      var previous := rawEvents.Get(id);
      if previous.None? || previous.value.organizationId != organizationId || previous.value.connectionId != connectionId {
        return None;
      }
      var next := patch(previous.value);
      rawEvents := rawEvents.Set(id, next);
      return Some(next);
    }

    method ClaimRawEvents(claim: RawClaim) returns (batch: seq<RawEvent>)
      requires KeyedBy(rawEvents, IdOfRawEvent)
      modifies this`rawEvents
      ensures State() == Step(old(State()), Operation.ClaimRawEvents(claim))
      ensures batch == RawBatch(old(rawEvents), claim)
    {
      var pending := Filter(ListRawEvents(rawEvents, claim.organizationId, Some(claim.connectionId)), IsPending);
      var candidates := SliceTo(pending, claim.limit);
      RawCandidatesAreStored(rawEvents, claim);
      batch := TakeEach(candidates, claim);
    }

    /** The `map` over the candidates of a claim, and the `filter` that drops the updates that failed. */
    method TakeEach(candidates: seq<RawEvent>, claim: RawClaim) returns (batch: seq<RawEvent>)
      requires WaitingEvents(rawEvents, candidates, claim.organizationId)
      modifies this`rawEvents
      ensures batch == MarkTaken(candidates, claim)
      ensures rawEvents == SetAll(old(rawEvents), batch, IdOfRawEvent)
    {
      batch := [];
      for i := 0 to |candidates|
        invariant batch == MarkTaken(candidates[..i], claim)
        invariant rawEvents == SetAll(old(rawEvents), batch, IdOfRawEvent)
        invariant WaitingEvents(rawEvents, candidates[i..], claim.organizationId)
      {
        var event, token := candidates[i], claim.tokens(i);
        assert event == candidates[i..][0] && candidates[i..][1..] == candidates[i + 1..];
        OtherEventsKeepWaiting(rawEvents, candidates[i..], ClaimedRawEvent(event, claim, token), claim.organizationId);
        MarkTakenStep(candidates, claim, i);
        var updated := PatchEvent(claim.organizationId, claim.connectionId, event.id, e => ClaimedRawEvent(e, claim, token));
        if updated.Some? {
          SetAllStep(old(rawEvents), batch, updated.value, IdOfRawEvent);
          batch := batch + [updated.value];
        }
      }
      assert candidates[..|candidates|] == candidates;
    }

    method UpsertSyncState(organizationId: string, connectionId: string, sourceObject: string, patch: SyncStateUpdate, now: Millis)
      returns (next: SyncState)
      modifies this`syncStates
      ensures State() == Step(old(State()), Operation.UpsertSyncState(organizationId, connectionId, sourceObject, patch, now))
      ensures next == UpsertedSyncState(old(State()), organizationId, connectionId, sourceObject, patch, now)
    {
      var key := SyncStateKey(connectionId, sourceObject);
      var previous := syncStates.Get(key);
      var watermarkText, watermarkAt, lastRunId, updatedByWorker, createdAt := None, None, None, None, now;
      var cursorJson: map<string, string> := map[];
      if previous.Some? {
        watermarkText, watermarkAt := previous.value.watermarkText, previous.value.watermarkAt;
        cursorJson, lastRunId := previous.value.cursorJson, previous.value.lastRunId;
        updatedByWorker, createdAt := previous.value.updatedByWorker, previous.value.createdAt;
      }
      next := SyncState(
        organizationId, connectionId, sourceObject,
        patch.watermarkText.OrClear(watermarkText),
        patch.watermarkAt.OrClear(watermarkAt),
        patch.cursorJson.GetOr(cursorJson),
        patch.lastRunId.OrClear(lastRunId),
        patch.updatedByWorker.OrClear(updatedByWorker),
        createdAt,
        now);
      syncStates := syncStates.Set(key, next);
    }

    method CreateConnection(organizationId: string, input: ConnectionInput, catalog: Catalog, newId: string, now: Millis)
      returns (connection: Connection)
      modifies this`connections
      ensures State() == Step(old(State()), Operation.CreateConnection(connection))
      ensures connection == Connection(newId, organizationId, now, now, NewDetails(input, catalog))
    {
      var entry := Lookup(catalog, input.vendor);
      var sourceObjects: seq<string> := [];
      if input.sourceObjects.Some? && |input.sourceObjects.value| > 0 {
        sourceObjects := input.sourceObjects.value;
      } else if entry.Some? {
        sourceObjects := entry.value.sourceObjects;
      }
      var minutes := 30;
      if input.syncIntervalMinutes.Some? {
        minutes := input.syncIntervalMinutes.value;
      } else if entry.Some? {
        minutes := entry.value.recommendedSyncMinutes;
      }
      var authorizationState, secretVersion := "not_started", None;
      if input.secretRef.Some? {
        authorizationState, secretVersion := "authorized", Some(1);
      }
      connection := Connection(
        newId, organizationId, now, now,
        ConnectionDetails(
          input.vendor, Trim(input.displayName), "pending", authorizationState, input.runtimeEnvironment.GetOr("production"),
          input.authMode, input.config.GetOr(map[]), input.secretRef, secretVersion, sourceObjects, minutes,
          input.webhookEnabled.GetOr(false), input.baseUrl, input.externalAccountId, input.oauthScopes, None, None, None, None));
      connections := connections.Set(connection.id, connection);
    }

    method UpdateConnection(organizationId: string, connectionId: string, patch: ConnectionDetails -> ConnectionDetails, now: Millis)
      returns (updated: Option<Connection>)
      modifies this`connections
      ensures State() == Step(old(State()), Operation.UpdateConnection(organizationId, connectionId, patch, now))
      ensures updated == UpdatedConnection(old(State()), organizationId, connectionId, patch, now)
    {
      var row := connections.Get(connectionId);
      if row.None? || row.value.organizationId != organizationId {
        return None;
      }
      var next := row.value.(details := patch(row.value.details), updatedAt := now);
      connections := connections.Set(connectionId, next);
      return Some(next);
    }

    method PutSecret(secret: SecretRecord)
      modifies this`secretsByRef, this`latestSecretRefByConnection
      ensures State() == Step(old(State()), Operation.PutSecret(secret))
    {
      secretsByRef := secretsByRef[secret.secretRef := secret];
      latestSecretRefByConnection := latestSecretRefByConnection.Set(secret.connectionId, secret.secretRef);
    }

    method CreateAuthorizationSession(session: AuthorizationSession)
      modifies this`authorizationSessions
      ensures State() == Step(old(State()), Operation.CreateAuthorizationSession(session))
    {
      authorizationSessions := authorizationSessions.Set(session.connectionId, session);
    }

    method DeleteAuthorizationSession(connectionId: string)
      modifies this`authorizationSessions
      ensures State() == Step(old(State()), Operation.DeleteAuthorizationSession(connectionId))
    {
      authorizationSessions := authorizationSessions.Delete(connectionId);
    }

    method CreateAuditEvent(event: AuditEvent) returns (created: AuditEvent)
      modifies this`auditEvents
      ensures State() == Step(old(State()), Operation.CreateAuditEvent(event)) && created == event
    {
      auditEvents := auditEvents + [event];
      return event;
    }

    method CreateIngestCredential(organizationId: string, connectionId: string, input: CredentialInput, newId: string, now: Millis)
      returns (credential: IngestCredential)
      modifies this`ingestCredentials
      ensures State() == Step(old(State()), Operation.CreateIngestCredential(credential))
      ensures credential.id == newId && credential.organizationId == organizationId && credential.connectionId == connectionId
      ensures credential.createdAt == credential.updatedAt == now
      ensures credential.details.lastUsedAt == credential.details.revokedAt == None && InputOf(credential.details) == input
    {
      credential := IngestCredential(
        newId, organizationId, connectionId, now, now,
        CredentialDetails(
          input.title, input.keyId, input.authMode, input.secretRef, input.secretVersion, input.tokenPreview,
          input.allowedSourceObjects, input.allowedIpAddresses, input.expiresAt, None, None));
      ingestCredentials := ingestCredentials.Set(credential.id, credential);
    }

    method UpdateIngestCredential(organizationId: string, connectionId: string, id: string,
                                  patch: CredentialDetails -> CredentialDetails, now: Millis)
      returns (updated: Option<IngestCredential>)
      modifies this`ingestCredentials
      ensures State() == Step(old(State()), Operation.UpdateIngestCredential(organizationId, connectionId, id, patch, now))
      ensures updated == UpdatedCredential(old(State()), organizationId, connectionId, id, patch, now)
    {
      var row := ingestCredentials.Get(id);
      if row.None? || row.value.organizationId != organizationId || row.value.connectionId != connectionId {
        return None;
      }
      var next := row.value.(details := patch(row.value.details), updatedAt := now);
      ingestCredentials := ingestCredentials.Set(id, next);
      return Some(next);
    }
  }
}
