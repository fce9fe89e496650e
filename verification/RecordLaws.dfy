/** The plain records of the store: what is in a new one, what an update may change, and what whole runs leave of them. */
module RecordLaws {
  import opened Wrappers
  import opened Delimiters
  import opened InsertionMap
  import opened ConnectorTypes
  import opened ConnectorStore
  import opened StoreInvariant
  import opened SyncStateLaws
  import opened ClaimRankLaws

  /*** New runs ***/

  /** A new run waits, has made no attempt of the eight it may make, ranks in the middle, and is held by nobody. */
  lemma NewRunWaits(id: string, o: string, c: string, t: string, k: string, now: Millis)
    ensures var run := NewRun(id, o, c, t, k, now);
            && run.id == id && run.organizationId == o && run.connectionId == c && run.triggerType == t && run.idempotencyKey == k
            && run.status == Queued && run.availableAt == run.createdAt == now
            && run.attempts == 0 && run.maxAttempts == 8 && run.priority == 50
            && run.recordsFetched == run.recordsWritten == 0 && !run.forceFullSync
            && run.errorClass == run.errorMessage == run.lockedBy == None
            && run.startedAt == run.endedAt == run.sourceWindowStart == run.sourceWindowEnd == run.leaseExpiresAt == None
  {
  }

  lemma CreatedIsStored(st: StoreState, run: SyncRun)
    requires IndexedRun(st, run.organizationId, run.connectionId, run.triggerType, run.idempotencyKey).None?
    ensures Step(st, CreateSyncRun(run)).runs == st.runs.Set(run.id, run)
  {
  }

  /** A run created without a patch is handed out by a claim that could hand out everything exactly from its creation on. */
  lemma NewRunIsTakenFrom(st: StoreState, id: string, o: string, c: string, t: string, k: string, now: Millis, claim: Claim)
    requires KeyedBy(st.runs, IdOfRun) && id !in st.runs.at && IndexedRun(st, o, c, t, k).None?
    requires claim.limit > |st.runs.order| + 1 && o in claim.organizationIds
    ensures HandsOutRun(Step(st, CreateSyncRun(NewRun(id, o, c, t, k, now))).runs, claim, id) <==> now <= claim.now
  {
    var run := NewRun(id, o, c, t, k, now);
    CreatedIsStored(st, run);
    SetKeeps(st.runs, IdOfRun, run);
    WideClaimTakesIff(st.runs.Set(id, run), claim, id);
  }

  /*** First sync state ***/

  /** Without a row before, undefined and null fields are empty, and the row begins now. */
  lemma FirstUpsertStartsEmpty(st: StoreState, o: string, c: string, s: string, patch: SyncStateUpdate, now: Millis)
    requires RowAt(st, c, s).None?
    ensures var after := RowAt(Upserted(st, o, c, s, patch, now), c, s);
            && after.Some? && after.value.createdAt == after.value.updatedAt == now
            && after.value.organizationId == o && after.value.connectionId == c && after.value.sourceObject == s
            && Follows(patch.watermarkText, None, after.value.watermarkText)
            && Follows(patch.watermarkAt, None, after.value.watermarkAt)
            && Follows(patch.lastRunId, None, after.value.lastRunId)
            && Follows(patch.updatedByWorker, None, after.value.updatedByWorker)
            && after.value.cursorJson == (if patch.cursorJson.Some? then patch.cursorJson.value else map[])
  {
  }

  /*** Connections and credentials ***/

  /** The caller's value, or the one that stands in for it. */
  ghost predicate GivenElse<T(!new)>(given: Option<T>, otherwise: T, x: T) {
    (forall v :: given == Some(v) ==> x == v) && (given == None ==> x == otherwise)
  }

  /** Each detail of a new connection: from the caller, else from the catalog, else fixed. */
  lemma NewConnectionDetails(input: ConnectionInput, catalog: Catalog)
    ensures
      var d, entry := NewDetails(input, catalog), Lookup(catalog, input.vendor);
      var listed := if entry.Some? then entry.value.sourceObjects else [];
      && d.vendor == input.vendor && d.displayName == Trim(input.displayName) && d.authMode == input.authMode
      && d.status == "pending" && d.authorizationState == (if input.secretRef == None then "not_started" else "authorized")
      && d.secretRef == input.secretRef && d.secretVersion == (if input.secretRef == None then None else Some(1))
      && GivenElse(input.runtimeEnvironment, "production", d.runtimeEnvironment)
      && GivenElse(input.config, map[], d.config)
      && GivenElse(input.syncIntervalMinutes, if entry.Some? then entry.value.recommendedSyncMinutes else 30, d.syncIntervalMinutes)
      && GivenElse(input.webhookEnabled, false, d.webhookEnabled)
      && d.sourceObjects == (if input.sourceObjects == None || input.sourceObjects == Some([]) then listed else input.sourceObjects.value)
      && d.baseUrl == input.baseUrl && d.externalAccountId == input.externalAccountId && d.oauthScopes == input.oauthScopes
      && d.lastTestedAt == d.lastSuccessfulSyncAt == d.nextScheduledSyncAt == None && d.disabledReason == None
  {
  }

  /** An update changes the details by the patch and the time, of the connection of this organization, and nothing else. */
  lemma ConnectionUpdateIsNarrow(st: StoreState, o: string, c: string, changes: ConnectionDetails -> ConnectionDetails, now: Millis, other: string)
    ensures
      var after, own := Step(st, UpdateConnection(o, c, changes, now)), c in st.connections.at && st.connections.at[c].organizationId == o;
      && after == st.(connections := after.connections) && after.connections.order == st.connections.order
      && (other != c || !own ==> after.connections.Get(other) == st.connections.Get(other))
      && (own ==> c in after.connections.at
                  && var before, row := st.connections.at[c], after.connections.at[c];
                     && row.details == changes(before.details) && row.updatedAt == now
                     && row.id == before.id && row.organizationId == before.organizationId && row.createdAt == before.createdAt)
  {
  }

  lemma CredentialUpdateIsNarrow(st: StoreState, o: string, c: string, id: string, changes: CredentialDetails -> CredentialDetails, now: Millis,
                                 other: string)
    ensures
      var after := Step(st, UpdateIngestCredential(o, c, id, changes, now));
      var own := id in st.ingestCredentials.at && st.ingestCredentials.at[id].organizationId == o && st.ingestCredentials.at[id].connectionId == c;
      && after == st.(ingestCredentials := after.ingestCredentials) && after.ingestCredentials.order == st.ingestCredentials.order
      && (other != id || !own ==> after.ingestCredentials.Get(other) == st.ingestCredentials.Get(other))
      && (own ==> id in after.ingestCredentials.at
                  && var before, row := st.ingestCredentials.at[id], after.ingestCredentials.at[id];
                     && row.details == changes(before.details) && row.updatedAt == now && row.id == before.id
                     && row.organizationId == before.organizationId && row.connectionId == before.connectionId
                     && row.createdAt == before.createdAt)
  {
  }

  /*** Whole runs ***/

  function Fold<S, E>(f: (S, E) -> S, s: S, es: seq<E>): S {
    if es == [] then s else f(Fold(f, s, es[..|es| - 1]), es[|es| - 1])
  }

  lemma {:induction false} FoldFromTheFront<S, E>(f: (S, E) -> S, s: S, es: seq<E>)
    requires es != []
    ensures Fold(f, s, es) == Fold(f, f(s, es[0]), es[1..])
    decreases |es|
  {
    var n := |es| - 1;
    if n > 0 {
      FoldFromTheFront(f, s, es[..n]);
      assert es[..n][1..] == es[1..][..n - 1];
    } else {
      assert Fold(f, s, es[..0]) == s && es[1..] == [];
    }
  }

  /** What can be computed from a part of the state alone follows the run on that part. */
  lemma {:induction false} PartFollows<S(!new), E(!new), T>(f: (S, E) -> S, part: S -> T, h: (T, E) -> T, s: S, es: seq<E>)
    requires forall x, e :: part(f(x, e)) == h(part(x), e)
    ensures part(Fold(f, s, es)) == Fold(h, part(s), es)
  {
    if es != [] {
      PartFollows(f, part, h, s, es[..|es| - 1]);
    }
  }

  lemma {:induction false} AfterIsFold(st: StoreState, ops: seq<Operation>)
    ensures After(st, ops) == Fold(Step, st, ops)
    decreases |ops|
  {
    if ops != [] {
      AfterIsFold(Step(st, ops[0]), ops[1..]);
      FoldFromTheFront(Step, st, ops);
    }
  }

  function AuditOf(st: StoreState): seq<AuditEvent> {
    st.auditEvents
  }

  function AuditStep(log: seq<AuditEvent>, op: Operation): seq<AuditEvent> {
    if op.CreateAuditEvent? then log + [op.audit] else log
  }

  lemma OthersLeaveAudit(st: StoreState, op: Operation)
    requires !op.CreateAuditEvent?
    ensures Step(st, op).auditEvents == st.auditEvents
  {
  }

  lemma AuditOfStep(st: StoreState, op: Operation)
    ensures AuditOf(Step(st, op)) == AuditStep(AuditOf(st), op)
  {
    if !op.CreateAuditEvent? {
      OthersLeaveAudit(st, op);
    }
  }

  /** The audit events of a run of operations, in order. */
  function Audited(ops: seq<Operation>): seq<AuditEvent> {
    if ops == [] then []
    else
      var before, last := Audited(ops[..|ops| - 1]), ops[|ops| - 1];
      if last.CreateAuditEvent? then before + [last.audit] else before
  }

  lemma {:induction false} AuditStepsAppend(log: seq<AuditEvent>, ops: seq<Operation>)
    ensures Fold(AuditStep, log, ops) == log + Audited(ops)
  {
    if ops != [] {
      AuditStepsAppend(log, ops[..|ops| - 1]);
    }
  }

  /** The audit trail only grows, and holds what was recorded in the order it was recorded. */
  lemma AuditTrailIsComplete(st: StoreState, ops: seq<Operation>)
    ensures After(st, ops).auditEvents == st.auditEvents + Audited(ops)
  {
    forall x: StoreState, op: Operation ensures AuditOf(Step(x, op)) == AuditStep(AuditOf(x), op) {
      AuditOfStep(x, op);
    }
    PartFollows(Step, AuditOf, AuditStep, st, ops);
    AuditStepsAppend(st.auditEvents, ops);
    AfterIsFold(st, ops);
  }

  function SessionOf(c: string): StoreState -> Option<AuthorizationSession> {
    (st: StoreState) => st.authorizationSessions.Get(c)
  }

  function SessionStep(c: string): (Option<AuthorizationSession>, Operation) -> Option<AuthorizationSession> {
    (session: Option<AuthorizationSession>, op: Operation) =>
      if op.CreateAuthorizationSession? && op.session.connectionId == c then Some(op.session)
      else if op.DeleteAuthorizationSession? && op.connectionId == c then None
      else session
  }

  lemma OthersLeaveSessions(st: StoreState, op: Operation)
    requires !op.CreateAuthorizationSession? && !op.DeleteAuthorizationSession?
    ensures Step(st, op).authorizationSessions == st.authorizationSessions
  {
  }

  lemma SessionOfStep(st: StoreState, op: Operation, c: string)
    ensures SessionOf(c)(Step(st, op)) == SessionStep(c)(SessionOf(c)(st), op)
  {
    if !op.CreateAuthorizationSession? && !op.DeleteAuthorizationSession? {
      OthersLeaveSessions(st, op);
    }
  }

  /** The session a connection has after a run of operations: the last one created, unless one was deleted since. */
  function LastSession(ops: seq<Operation>, c: string, before: Option<AuthorizationSession>): Option<AuthorizationSession>
    decreases |ops|
  {
    if ops == [] then before
    else
      var last := ops[|ops| - 1];
      if last.CreateAuthorizationSession? && last.session.connectionId == c then Some(last.session)
      else if last.DeleteAuthorizationSession? && last.connectionId == c then None
      else LastSession(ops[..|ops| - 1], c, before)
  }

  lemma {:induction false} SessionStepsEnd(ops: seq<Operation>, c: string, before: Option<AuthorizationSession>)
    ensures Fold(SessionStep(c), before, ops) == LastSession(ops, c, before)
  {
    if ops != [] {
      SessionStepsEnd(ops[..|ops| - 1], c, before);
    }
  }

  lemma SessionIsTheLast(st: StoreState, ops: seq<Operation>, c: string)
    ensures After(st, ops).authorizationSessions.Get(c) == LastSession(ops, c, st.authorizationSessions.Get(c))
  {
    forall x: StoreState, op: Operation ensures SessionOf(c)(Step(x, op)) == SessionStep(c)(SessionOf(c)(x), op) {
      SessionOfStep(x, op, c);
    }
    PartFollows(Step, SessionOf(c), SessionStep(c), st, ops);
    SessionStepsEnd(ops, c, st.authorizationSessions.Get(c));
    AfterIsFold(st, ops);
  }

  function NamedFor(c: string): StoreState -> Option<string> {
    (st: StoreState) => st.latestSecretRefByConnection.Get(c)
  }

  function NameStep(c: string): (Option<string>, Operation) -> Option<string> {
    (named: Option<string>, op: Operation) => if op.PutSecret? && op.secret.connectionId == c then Some(op.secret.secretRef) else named
  }

  lemma NameOfStep(st: StoreState, op: Operation, c: string)
    ensures NamedFor(c)(Step(st, op)) == NameStep(c)(NamedFor(c)(st), op)
  {
    if !op.PutSecret? {
      OthersLeaveSecrets(st, op);
    }
  }

  /** The reference of the last secret put for a connection. */
  function LastPut(ops: seq<Operation>, c: string, before: Option<string>): Option<string>
    decreases |ops|
  {
    if ops == [] then before
    else
      var last := ops[|ops| - 1];
      if last.PutSecret? && last.secret.connectionId == c then Some(last.secret.secretRef) else LastPut(ops[..|ops| - 1], c, before)
  }

  lemma {:induction false} NameStepsEnd(ops: seq<Operation>, c: string, before: Option<string>)
    ensures Fold(NameStep(c), before, ops) == LastPut(ops, c, before)
  {
    if ops != [] {
      NameStepsEnd(ops[..|ops| - 1], c, before);
    }
  }

  lemma LatestSecretIsTheLastPut(st: StoreState, ops: seq<Operation>, c: string)
    ensures After(st, ops).latestSecretRefByConnection.Get(c) == LastPut(ops, c, st.latestSecretRefByConnection.Get(c))
  {
    forall x: StoreState, op: Operation ensures NamedFor(c)(Step(x, op)) == NameStep(c)(NamedFor(c)(x), op) {
      NameOfStep(x, op, c);
    }
    PartFollows(Step, NamedFor(c), NameStep(c), st, ops);
    NameStepsEnd(ops, c, st.latestSecretRefByConnection.Get(c));
    AfterIsFold(st, ops);
  }
}
