/** What every operation of the store keeps: each table is filed under the keys its rows carry. */
module StoreInvariant {
  import opened Wrappers
  import opened InsertionMap
  import opened ConnectorTypes
  import opened ConnectorStore

  function IdOfConnection(c: Connection): string { c.id }

  function KeyOfSyncState(s: SyncState): string { SyncStateKey(s.connectionId, s.sourceObject) }

  function KeyOfSession(s: AuthorizationSession): string { s.connectionId }

  function IdOfCredential(c: IngestCredential): string { c.id }

  ghost predicate Keyed(st: StoreState) {
    && KeyedBy(st.connections, IdOfConnection)
    && KeyedBy(st.runs, IdOfRun)
    && KeyedBy(st.syncStates, KeyOfSyncState)
    && KeyedBy(st.authorizationSessions, KeyOfSession)
    && KeyedBy(st.ingestCredentials, IdOfCredential)
    && KeyedBy(st.rawEvents, IdOfRawEvent)
    && st.syncReplayIndex.Valid() && st.latestSecretRefByConnection.Valid() && st.rawEventIndex.Valid()
    && SecretsByTheirRef(st.secretsByRef)
  }

  predicate SameRawIdentity(a: RawEvent, b: RawEvent) {
    a.id == b.id && a.organizationId == b.organizationId && a.connectionId == b.connectionId && a.eventId == b.eventId
  }

  /** The one thing asked of callers: a raw-event patch leaves the identity fields alone. */
  ghost predicate WellFormed(op: Operation) {
    op.UpdateRawEvent? ==> forall e :: SameRawIdentity(e, op.eventPatch(e))
  }

  predicate TouchesRuns(op: Operation) {
    op.CreateSyncRun? || op.FindSyncRunByIdempotency? || op.UpdateSyncRun? || op.ClaimSyncRuns?
  }

  predicate TouchesRawEvents(op: Operation) {
    op.CreateRawEvent? || op.FindRawEventByEventId? || op.UpdateRawEvent? || op.ClaimRawEvents?
  }

  /** The operations on other tables leave runs and raw events alone. */
  lemma StepFrame(st: StoreState, op: Operation)
    ensures !TouchesRuns(op) ==> Step(st, op).runs == st.runs && Step(st, op).syncReplayIndex == st.syncReplayIndex
    ensures !TouchesRawEvents(op) ==> Step(st, op).rawEvents == st.rawEvents && Step(st, op).rawEventIndex == st.rawEventIndex
  {
  }

  ghost predicate RunTablesFit(st: StoreState) {
    KeyedBy(st.runs, IdOfRun) && st.syncReplayIndex.Valid()
  }

  lemma CreateKeepsRunTables(st: StoreState, run: SyncRun)
    requires RunTablesFit(st)
    ensures RunTablesFit(AfterCreateRun(st, run))
  {
    SetKeeps(st.runs, IdOfRun, run);
    DeleteValid(st.syncReplayIndex, RunKey(run));
    SetValid(st.syncReplayIndex, RunKey(run), run.id);
    SetValid(st.syncReplayIndex.Delete(RunKey(run)), RunKey(run), run.id);
  }

  lemma FindKeepsRunTables(st: StoreState, o: string, c: string, t: string, k: string)
    requires RunTablesFit(st)
    ensures RunTablesFit(AfterFindRun(st, o, c, t, k))
  {
    DeleteValid(st.syncReplayIndex, KeyMaterial(o, c, t, k));
  }

  lemma UpdateKeepsRunTables(st: StoreState, o: string, runId: string, update: RunUpdate)
    requires RunTablesFit(st)
    ensures RunTablesFit(AfterUpdateRun(st, o, runId, update))
  {
    var next := UpdatedRun(st, o, runId, update);
    if next.Some? {
      SetKeeps(st.runs, IdOfRun, next.value);
    }
  }

  lemma OthersKeepRunTables(st: StoreState, op: Operation)
    requires RunTablesFit(st) && !TouchesRuns(op)
    ensures RunTablesFit(Step(st, op))
  {
    StepFrame(st, op);
  }

  lemma CreateStep(st: StoreState, op: Operation, after: StoreState)
    requires RunTablesFit(st) && op.CreateSyncRun? && after == Step(st, op)
    ensures RunTablesFit(after)
  {
    assert after == AfterCreateRun(st, op.run);
    CreateKeepsRunTables(st, op.run);
  }

  lemma FindStep(st: StoreState, op: Operation, after: StoreState)
    requires RunTablesFit(st) && op.FindSyncRunByIdempotency? && after == Step(st, op)
    ensures RunTablesFit(after)
  {
    assert after == AfterFindRun(st, op.organizationId, op.connectionId, op.triggerType, op.idempotencyKey);
    FindKeepsRunTables(st, op.organizationId, op.connectionId, op.triggerType, op.idempotencyKey);
  }

  lemma UpdateStep(st: StoreState, op: Operation, after: StoreState)
    requires RunTablesFit(st) && op.UpdateSyncRun? && after == Step(st, op)
    ensures RunTablesFit(after)
  {
    assert after == AfterUpdateRun(st, op.organizationId, op.runId, op.update);
    UpdateKeepsRunTables(st, op.organizationId, op.runId, op.update);
  }

  lemma ClaimStepIs(st: StoreState, op: Operation, batch: seq<SyncRun>)
    requires op.ClaimSyncRuns? && batch == ClaimBatch(st.runs, op.claim)
    ensures Step(st, op).runs == SetAll(st.runs, batch, IdOfRun) && Step(st, op).syncReplayIndex == st.syncReplayIndex
  {
  }

  lemma ClaimStep(st: StoreState, op: Operation, after: StoreState)
    requires RunTablesFit(st) && op.ClaimSyncRuns? && after == Step(st, op)
    ensures RunTablesFit(after)
  {
    var batch := ClaimBatch(st.runs, op.claim);
    ClaimStepIs(st, op, batch);
    SetAllKeeps(st.runs, batch, IdOfRun);
  }

  lemma KeepsRunTables(st: StoreState, op: Operation, after: StoreState)
    requires RunTablesFit(st) && after == Step(st, op)
    ensures RunTablesFit(after)
  {
    if op.CreateSyncRun? {
      CreateStep(st, op, after);
    } else if op.FindSyncRunByIdempotency? {
      FindStep(st, op, after);
    } else if op.UpdateSyncRun? {
      UpdateStep(st, op, after);
    } else if op.ClaimSyncRuns? {
      ClaimStep(st, op, after);
    } else {
      OthersKeepRunTables(st, op);
    }
  }

  lemma StepKeepsRunTables(st: StoreState, op: Operation)
    requires RunTablesFit(st)
    ensures RunTablesFit(Step(st, op))
  {
    KeepsRunTables(st, op, Step(st, op));
  }

  ghost predicate RawTablesFit(st: StoreState) {
    KeyedBy(st.rawEvents, IdOfRawEvent) && st.rawEventIndex.Valid()
  }

  lemma CreateKeepsRawTables(st: StoreState, event: RawEvent)
    requires RawTablesFit(st)
    ensures RawTablesFit(AfterCreateRawEvent(st, event))
  {
    SetKeeps(st.rawEvents, IdOfRawEvent, event);
    DeleteValid(st.rawEventIndex, RawEventKey(event));
    SetValid(st.rawEventIndex, RawEventKey(event), event.id);
    SetValid(st.rawEventIndex.Delete(RawEventKey(event)), RawEventKey(event), event.id);
  }

  lemma FindKeepsRawTables(st: StoreState, o: string, c: string, e: string)
    requires RawTablesFit(st)
    ensures RawTablesFit(AfterFindRawEvent(st, o, c, e))
  {
    DeleteValid(st.rawEventIndex, KeyMaterial(o, c, "raw_event", e));
  }

  lemma UpdateKeepsRawTables(st: StoreState, o: string, c: string, id: string, patch: RawEvent -> RawEvent)
    requires RawTablesFit(st) && forall e :: SameRawIdentity(e, patch(e))
    ensures RawTablesFit(AfterUpdateRawEvent(st, o, c, id, patch))
  {
    var own := OwnRawEvent(st, o, c, id);
    if own.Some? {
      assert SameRawIdentity(own.value, patch(own.value));
      SetKeeps(st.rawEvents, IdOfRawEvent, patch(own.value));
    }
  }

  lemma ClaimKeepsRawTables(st: StoreState, claim: RawClaim)
    requires RawTablesFit(st)
    ensures RawTablesFit(AfterClaimRawEvents(st, claim))
  {
    SetAllKeeps(st.rawEvents, RawBatch(st.rawEvents, claim), IdOfRawEvent);
  }

  lemma OthersKeepRawTables(st: StoreState, op: Operation)
    requires RawTablesFit(st) && !TouchesRawEvents(op)
    ensures RawTablesFit(Step(st, op))
  {
    StepFrame(st, op);
  }

  lemma StepKeepsRawTables(st: StoreState, op: Operation)
    requires RawTablesFit(st) && WellFormed(op)
    ensures RawTablesFit(Step(st, op))
  {
    if op.CreateRawEvent? {
      assert Step(st, op) == AfterCreateRawEvent(st, op.event);
      CreateKeepsRawTables(st, op.event);
    } else if op.FindRawEventByEventId? {
      assert Step(st, op) == AfterFindRawEvent(st, op.organizationId, op.connectionId, op.eventId);
      FindKeepsRawTables(st, op.organizationId, op.connectionId, op.eventId);
    } else if op.UpdateRawEvent? {
      assert Step(st, op) == AfterUpdateRawEvent(st, op.organizationId, op.connectionId, op.id, op.eventPatch);
      UpdateKeepsRawTables(st, op.organizationId, op.connectionId, op.id, op.eventPatch);
    } else if op.ClaimRawEvents? {
      assert Step(st, op) == AfterClaimRawEvents(st, op.rawClaim);
      ClaimKeepsRawTables(st, op.rawClaim);
    } else {
      OthersKeepRawTables(st, op);
    }
  }

  lemma StepKeepsConnections(st: StoreState, op: Operation)
    requires KeyedBy(st.connections, IdOfConnection)
    ensures KeyedBy(Step(st, op).connections, IdOfConnection)
  {
    if op.CreateConnection? {
      SetKeeps(st.connections, IdOfConnection, op.connection);
    } else if op.UpdateConnection? {
      assert Step(st, op) == AfterUpdateConnection(st, op.organizationId, op.connectionId, op.changes, op.now);
      var next := UpdatedConnection(st, op.organizationId, op.connectionId, op.changes, op.now);
      if next.Some? {
        SetKeeps(st.connections, IdOfConnection, next.value);
      }
    } else {
      assert Step(st, op).connections == st.connections;
    }
  }

  lemma StepKeepsSyncStates(st: StoreState, op: Operation)
    requires KeyedBy(st.syncStates, KeyOfSyncState)
    ensures KeyedBy(Step(st, op).syncStates, KeyOfSyncState)
  {
    if op.UpsertSyncState? {
      assert Step(st, op) == AfterUpsertSyncState(st, op.organizationId, op.connectionId, op.sourceObject, op.stateUpdate, op.now);
      var next := UpsertedSyncState(st, op.organizationId, op.connectionId, op.sourceObject, op.stateUpdate, op.now);
      SetKeeps(st.syncStates, KeyOfSyncState, next);
    } else {
      assert Step(st, op).syncStates == st.syncStates;
    }
  }

  lemma StepKeepsSessions(st: StoreState, op: Operation)
    requires KeyedBy(st.authorizationSessions, KeyOfSession)
    ensures KeyedBy(Step(st, op).authorizationSessions, KeyOfSession)
  {
    if op.CreateAuthorizationSession? {
      SetKeeps(st.authorizationSessions, KeyOfSession, op.session);
    } else if op.DeleteAuthorizationSession? {
      DeleteKeeps(st.authorizationSessions, KeyOfSession, op.connectionId);
    } else {
      assert Step(st, op).authorizationSessions == st.authorizationSessions;
    }
  }

  lemma StepKeepsCredentials(st: StoreState, op: Operation)
    requires KeyedBy(st.ingestCredentials, IdOfCredential)
    ensures KeyedBy(Step(st, op).ingestCredentials, IdOfCredential)
  {
    if op.CreateIngestCredential? {
      SetKeeps(st.ingestCredentials, IdOfCredential, op.credential);
    } else if op.UpdateIngestCredential? {
      assert Step(st, op)
          == AfterUpdateIngestCredential(st, op.organizationId, op.connectionId, op.id, op.credentialChanges, op.now);
      var next := UpdatedCredential(st, op.organizationId, op.connectionId, op.id, op.credentialChanges, op.now);
      if next.Some? {
        SetKeeps(st.ingestCredentials, IdOfCredential, next.value);
      }
    } else {
      assert Step(st, op).ingestCredentials == st.ingestCredentials;
    }
  }

  ghost predicate SecretsByTheirRef(secrets: map<string, SecretRecord>) {
    forall ref :: ref in secrets ==> secrets[ref].secretRef == ref
  }

  lemma OthersLeaveSecrets(st: StoreState, op: Operation)
    requires !op.PutSecret?
    ensures Step(st, op).secretsByRef == st.secretsByRef
    ensures Step(st, op).latestSecretRefByConnection == st.latestSecretRefByConnection
  {
  }

  lemma PutKeepsSecretTables(st: StoreState, secret: SecretRecord)
    requires st.latestSecretRefByConnection.Valid() && SecretsByTheirRef(st.secretsByRef)
    ensures var next := Step(st, PutSecret(secret));
            next.latestSecretRefByConnection.Valid() && SecretsByTheirRef(next.secretsByRef)
  {
    SetValid(st.latestSecretRefByConnection, secret.connectionId, secret.secretRef);
  }

  lemma StepKeepsSecretTables(st: StoreState, op: Operation)
    requires st.latestSecretRefByConnection.Valid() && SecretsByTheirRef(st.secretsByRef)
    ensures Step(st, op).latestSecretRefByConnection.Valid() && SecretsByTheirRef(Step(st, op).secretsByRef)
  {
    if op.PutSecret? {
      PutKeepsSecretTables(st, op.secret);
      assert op == PutSecret(op.secret);
    } else {
      OthersLeaveSecrets(st, op);
    }
  }

  lemma StepKeepsKeyed(st: StoreState, op: Operation)
    requires Keyed(st) && WellFormed(op)
    ensures Keyed(Step(st, op))
  {
    StepKeepsRunTables(st, op);
    StepKeepsRawTables(st, op);
    StepKeepsConnections(st, op);
    StepKeepsSyncStates(st, op);
    StepKeepsSessions(st, op);
    StepKeepsCredentials(st, op);
    StepKeepsSecretTables(st, op);
  }

  /** The state after a run of operations. */
  function After(st: StoreState, ops: seq<Operation>): StoreState
    decreases |ops|
  {
    if ops == [] then st else After(Step(st, ops[0]), ops[1..])
  }

  lemma {:induction false} RunKeepsKeyed(st: StoreState, ops: seq<Operation>)
    requires Keyed(st) && forall i :: 0 <= i < |ops| ==> WellFormed(ops[i])
    ensures Keyed(After(st, ops))
    decreases |ops|
  {
    if ops != [] {
      StepKeepsKeyed(st, ops[0]);
      RunKeepsKeyed(Step(st, ops[0]), ops[1..]);
    }
  }
}
