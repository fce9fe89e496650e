/** Sync-run idempotency: the replay index is a bijection with the runs, over every run of the store. */
module IdempotencyLaws {
  import opened Wrappers
  import opened InsertionMap
  import opened ConnectorTypes
  import opened ConnectorStore
  import opened StoreInvariant
  import opened ClaimLaws
  import opened ReplayKeys
  import opened IndexLaws

  predicate Clean(organizationId: string, connectionId: string, trigger: string) {
    PipeFree(organizationId) && PipeFree(connectionId) && PipeFree(trigger)
  }

  predicate CleanRun(run: SyncRun) {
    Clean(run.organizationId, run.connectionId, run.triggerType)
  }

  ghost predicate RunsIndexed(st: StoreState) {
    Indexed(st.runs, st.syncReplayIndex, IdOfRun, RunKey, CleanRun)
  }

  /** What is asked of a call: no "|" in the first three key parts, and a run id that was never used. */
  ghost predicate Admissible(st: StoreState, op: Operation) {
    && (op.CreateSyncRun? ==> CleanRun(op.run) && op.run.id !in st.runs.at)
    && (op.FindSyncRunByIdempotency? ==> Clean(op.organizationId, op.connectionId, op.triggerType))
  }

  predicate Matches(run: SyncRun, o: string, c: string, t: string, k: string) {
    AnswersTo(run, o, c, t) && run.idempotencyKey == k
  }

  /** Lookup by key and a scan of the whole table give the same answer. */
  lemma FindAgreesWithScan(st: StoreState, o: string, c: string, t: string, k: string, run: SyncRun)
    requires RunsIndexed(st) && Clean(o, c, t)
    ensures IndexedRun(st, o, c, t, k) == Some(run) <==> run in st.runs.Values() && Matches(run, o, c, t, k)
  {
    ValuesDistinct(st.runs, IdOfRun);
    var key := KeyMaterial(o, c, t, k);
    if key in st.syncReplayIndex.at {
      var found := st.runs.at[st.syncReplayIndex.at[key]];
      assert found in st.runs.Values();
      KeyMaterialInjective(found.organizationId, found.connectionId, found.triggerType, found.idempotencyKey, o, c, t, k);
    }
    if run in st.runs.Values() && Matches(run, o, c, t, k) {
      assert RunKey(run) == key && run.id in st.runs.at;
    }
  }

  /** The stale-entry branches are unreachable: what is indexed answers, so a lookup changes nothing. */
  lemma NoStaleEntries(st: StoreState, o: string, c: string, t: string, k: string)
    requires RunsIndexed(st) && Clean(o, c, t)
    ensures KeyMaterial(o, c, t, k) in st.syncReplayIndex.at <==> IndexedRun(st, o, c, t, k).Some?
    ensures AfterFindRun(st, o, c, t, k) == st
  {
    var key := KeyMaterial(o, c, t, k);
    if key in st.syncReplayIndex.at {
      var found := st.runs.at[st.syncReplayIndex.at[key]];
      KeyMaterialInjective(found.organizationId, found.connectionId, found.triggerType, found.idempotencyKey, o, c, t, k);
    }
  }

  /** No stored run is lost, and none changes the fields it is found by. */
  ghost predicate IdentitiesKept(before: OrderedMap<string, SyncRun>, after: OrderedMap<string, SyncRun>) {
    forall id :: id in before.at ==> id in after.at && SameRunIdentity(before.at[id], after.at[id])
  }

  lemma ClaimKeepsIdentities(runs: OrderedMap<string, SyncRun>, claim: Claim)
    requires KeyedBy(runs, IdOfRun)
    ensures SetAll(runs, ClaimBatch(runs, claim), IdOfRun).at.Keys == runs.at.Keys
    ensures IdentitiesKept(runs, SetAll(runs, ClaimBatch(runs, claim), IdOfRun))
  {
    var batch := ClaimBatch(runs, claim);
    ClaimTouchesOnlyItsBatch(runs, claim);
    forall id | id in runs.at ensures SameRunIdentity(runs.at[id], SetAll(runs, batch, IdOfRun).at[id]) {
      if i :| 0 <= i < |batch| && batch[i].id == id {
        BatchComesFromTable(runs, claim, i);
      }
    }
  }

  /** A table with the same rows up to their non-identity fields is indexed by the same index. */
  lemma SameIdentitiesSameIndex(runs: OrderedMap<string, SyncRun>, after: OrderedMap<string, SyncRun>, index: OrderedMap<string, string>)
    requires Indexes(runs, index, RunKey) && IdentitiesKept(runs, after) && after.at.Keys == runs.at.Keys
    requires forall id :: id in runs.at ==> CleanRun(runs.at[id])
    ensures Indexes(after, index, RunKey) && forall id :: id in after.at ==> CleanRun(after.at[id])
  {
    forall id | id in runs.at ensures RunKey(after.at[id]) == RunKey(runs.at[id]) {
      assert SameRunIdentity(runs.at[id], after.at[id]);
    }
  }

  ghost predicate RunsStay(st: StoreState, after: StoreState) {
    RunsIndexed(after) && IdentitiesKept(st.runs, after.runs)
  }

  lemma UpdateKeepsRunsIndexed(st: StoreState, o: string, id: string, update: RunUpdate)
    requires RunsIndexed(st)
    ensures RunsStay(st, AfterUpdateRun(st, o, id, update))
  {
    var next := UpdatedRun(st, o, id, update);
    if next.Some? {
      assert SameRunIdentity(st.runs.at[id], next.value);
      SetKeeps(st.runs, IdOfRun, next.value);
      SameIdentitiesSameIndex(st.runs, st.runs.Set(id, next.value), st.syncReplayIndex);
    }
  }

  lemma ClaimKeepsRunsIndexed(st: StoreState, claim: Claim)
    requires RunsIndexed(st)
    ensures RunsStay(st, AfterClaimRuns(st, claim))
  {
    SetAllKeeps(st.runs, ClaimBatch(st.runs, claim), IdOfRun);
    ClaimKeepsIdentities(st.runs, claim);
    SameIdentitiesSameIndex(st.runs, AfterClaimRuns(st, claim).runs, st.syncReplayIndex);
  }

  lemma CreateKeepsRunsIndexed(st: StoreState, run: SyncRun)
    requires RunsIndexed(st) && CleanRun(run) && run.id !in st.runs.at
    ensures RunsStay(st, AfterCreateRun(st, run))
  {
    NoStaleEntries(st, run.organizationId, run.connectionId, run.triggerType, run.idempotencyKey);
    if IndexedRun(st, run.organizationId, run.connectionId, run.triggerType, run.idempotencyKey).None? {
      FileRow(st.runs, st.syncReplayIndex, IdOfRun, RunKey, CleanRun, run);
    }
  }

  lemma FindKeepsRunsIndexed(st: StoreState, o: string, c: string, t: string, k: string)
    requires RunsIndexed(st) && Admissible(st, FindSyncRunByIdempotency(o, c, t, k))
    ensures RunsStay(st, AfterFindRun(st, o, c, t, k))
  {
    NoStaleEntries(st, o, c, t, k);
  }

  lemma OthersKeepRunsIndexed(st: StoreState, op: Operation)
    requires RunsIndexed(st) && !TouchesRuns(op)
    ensures RunsStay(st, Step(st, op))
  {
    StepFrame(st, op);
  }

  lemma StepKeepsRunsIndexed(st: StoreState, op: Operation)
    requires RunsIndexed(st) && Admissible(st, op)
    ensures RunsStay(st, Step(st, op))
  {
    if op.CreateSyncRun? {
      assert Step(st, op) == AfterCreateRun(st, op.run);
      CreateKeepsRunsIndexed(st, op.run);
    } else if op.FindSyncRunByIdempotency? {
      assert Step(st, op) == AfterFindRun(st, op.organizationId, op.connectionId, op.triggerType, op.idempotencyKey);
      FindKeepsRunsIndexed(st, op.organizationId, op.connectionId, op.triggerType, op.idempotencyKey);
    } else if op.UpdateSyncRun? {
      assert Step(st, op) == AfterUpdateRun(st, op.organizationId, op.runId, op.update);
      UpdateKeepsRunsIndexed(st, op.organizationId, op.runId, op.update);
    } else if op.ClaimSyncRuns? {
      assert Step(st, op) == AfterClaimRuns(st, op.claim);
      ClaimKeepsRunsIndexed(st, op.claim);
    } else {
      OthersKeepRunsIndexed(st, op);
    }
  }

  ghost predicate AdmissibleRun(st: StoreState, ops: seq<Operation>)
    decreases |ops|
  {
    ops == [] || (Admissible(st, ops[0]) && AdmissibleRun(Step(st, ops[0]), ops[1..]))
  }

  /** Over every run of operations the index stays a bijection, and a stored run keeps its identity. */
  lemma {:induction false} RunKeepsRunsIndexed(st: StoreState, ops: seq<Operation>)
    requires RunsIndexed(st) && AdmissibleRun(st, ops)
    ensures RunsIndexed(After(st, ops)) && IdentitiesKept(st.runs, After(st, ops).runs)
    decreases |ops|
  {
    if ops != [] {
      StepKeepsRunsIndexed(st, ops[0]);
      RunKeepsRunsIndexed(Step(st, ops[0]), ops[1..]);
    }
  }

  lemma EmptyStoreIsIndexed()
    ensures RunsIndexed(EMPTY_STATE)
  {
  }

  /** A stored run can be found by its key parts after any run of operations. */
  lemma StoredRunStaysFindable(st: StoreState, id: string, ops: seq<Operation>)
    requires RunsIndexed(st) && AdmissibleRun(st, ops) && id in st.runs.at
    ensures
      var run := st.runs.at[id];
      var found := IndexedRun(After(st, ops), run.organizationId, run.connectionId, run.triggerType, run.idempotencyKey);
      found.Some? && found.value.id == id
  {
    RunKeepsRunsIndexed(st, ops);
    var run, kept := st.runs.at[id], After(st, ops).runs.at[id];
    assert SameRunIdentity(run, kept) && RunKey(run) == RunKey(kept);
  }

  /**
   Idempotent creation: after any run of operations, creating again with the four key parts of an
   earlier creation finds the run stored then, and changes nothing.
   */
  lemma RepeatedCreationFindsTheFirst(st: StoreState, first: SyncRun, ops: seq<Operation>, again: SyncRun)
    requires RunsIndexed(st) && Admissible(st, CreateSyncRun(first))
    requires AdmissibleRun(Step(st, CreateSyncRun(first)), ops)
    requires Matches(again, first.organizationId, first.connectionId, first.triggerType, first.idempotencyKey)
    ensures
      var created := Step(st, CreateSyncRun(first));
      var stored := IndexedRun(created, first.organizationId, first.connectionId, first.triggerType, first.idempotencyKey);
      var found := IndexedRun(After(created, ops), again.organizationId, again.connectionId, again.triggerType, again.idempotencyKey);
      && stored.Some? && found.Some? && found.value.id == stored.value.id
      && Step(After(created, ops), CreateSyncRun(again)) == After(created, ops)
  {
    StepKeepsRunsIndexed(st, CreateSyncRun(first));
    CreatedIsFound(st, first);
    FoundAgainAfter(Step(st, CreateSyncRun(first)), first, ops);
  }

  /** A run found for a request is found for it after any further operations. */
  lemma FoundAgainAfter(created: StoreState, request: SyncRun, ops: seq<Operation>)
    requires RunsIndexed(created) && AdmissibleRun(created, ops) && CleanRun(request)
    requires IndexedRun(created, request.organizationId, request.connectionId, request.triggerType, request.idempotencyKey).Some?
    ensures
      var stored := IndexedRun(created, request.organizationId, request.connectionId, request.triggerType, request.idempotencyKey);
      var found := IndexedRun(After(created, ops), request.organizationId, request.connectionId, request.triggerType, request.idempotencyKey);
      found.Some? && found.value.id == stored.value.id
  {
    var stored := IndexedRun(created, request.organizationId, request.connectionId, request.triggerType, request.idempotencyKey).value;
    assert stored in created.runs.Values() && Matches(stored, request.organizationId, request.connectionId, request.triggerType, request.idempotencyKey) by {
      FindAgreesWithScan(created, request.organizationId, request.connectionId, request.triggerType, request.idempotencyKey, stored);
    }
    assert stored.id in created.runs.at && created.runs.at[stored.id] == stored by { ValuesDistinct(created.runs, IdOfRun); }
    StoredRunStaysFindable(created, stored.id, ops);
  }

  lemma CreatedIsFound(st: StoreState, run: SyncRun)
    ensures IndexedRun(Step(st, CreateSyncRun(run)), run.organizationId, run.connectionId, run.triggerType, run.idempotencyKey).Some?
  {
  }

  /**
   What "|" in a part can do: a stored run stays findable after a creation exactly when the new run's
   key differs from its own, or the new run asks for the very same organization, connection and trigger.
   */
  lemma StaysFindableIff(st: StoreState, stored: SyncRun, run: SyncRun)
    requires KeyedBy(st.runs, IdOfRun) && Indexes(st.runs, st.syncReplayIndex, RunKey)
    requires st.runs.Get(stored.id) == Some(stored) && run.id !in st.runs.at
    ensures
      var found := IndexedRun(Step(st, CreateSyncRun(run)), stored.organizationId, stored.connectionId, stored.triggerType, stored.idempotencyKey);
      if RunKey(run) != RunKey(stored) || AnswersTo(stored, run.organizationId, run.connectionId, run.triggerType)
      then found == Some(stored) else found == None
  {
    assert stored.id in st.runs.at && st.syncReplayIndex.at[RunKey(stored)] == stored.id;
  }

  /**
   A lookup does the same: a stored run stays findable after a lookup exactly when the keys differ, or the
   lookup asks for its organization, connection and trigger.
   */
  lemma StaysFindableAfterLookupIff(st: StoreState, stored: SyncRun, o: string, c: string, t: string, k: string)
    requires KeyedBy(st.runs, IdOfRun) && Indexes(st.runs, st.syncReplayIndex, RunKey) && st.runs.Get(stored.id) == Some(stored)
    ensures
      var found := IndexedRun(Step(st, FindSyncRunByIdempotency(o, c, t, k)),
                              stored.organizationId, stored.connectionId, stored.triggerType, stored.idempotencyKey);
      if KeyMaterial(o, c, t, k) != RunKey(stored) || AnswersTo(stored, o, c, t) then found == Some(stored) else found == None
  {
    assert st.syncReplayIndex.at[RunKey(stored)] == stored.id;
    assert Step(st, FindSyncRunByIdempotency(o, c, t, k)) == AfterFindRun(st, o, c, t, k);
  }

  lemma LookupDeletesTheEntry(st: StoreState, stored: SyncRun, o: string, c: string, t: string, k: string)
    requires Indexes(st.runs, st.syncReplayIndex, RunKey) && st.runs.Get(stored.id) == Some(stored)
    requires KeyMaterial(o, c, t, k) == RunKey(stored) && !AnswersTo(stored, o, c, t)
    ensures RunKey(stored) !in AfterFindRun(st, o, c, t, k).syncReplayIndex.at && AfterFindRun(st, o, c, t, k).runs == st.runs
  {
    assert st.syncReplayIndex.at[RunKey(stored)] == stored.id;
  }

  /** After a colliding lookup, creating the stored run's request again stores a second run for it. */
  lemma HiddenRunIsCreatedAgain(st: StoreState, stored: SyncRun, o: string, c: string, t: string, k: string, again: SyncRun)
    requires Indexes(st.runs, st.syncReplayIndex, RunKey) && st.runs.Get(stored.id) == Some(stored)
    requires KeyMaterial(o, c, t, k) == RunKey(stored) && !AnswersTo(stored, o, c, t)
    requires Matches(again, stored.organizationId, stored.connectionId, stored.triggerType, stored.idempotencyKey) && again.id != stored.id
    ensures
      var after := Step(Step(st, FindSyncRunByIdempotency(o, c, t, k)), CreateSyncRun(again));
      after.runs.Get(stored.id) == Some(stored) && after.runs.Get(again.id) == Some(again)
  {
    var looked := AfterFindRun(st, o, c, t, k);
    assert Step(st, FindSyncRunByIdempotency(o, c, t, k)) == looked;
    LookupDeletesTheEntry(st, stored, o, c, t, k);
    assert RunKey(again) == RunKey(stored);
    assert Step(looked, CreateSyncRun(again)) == AfterCreateRun(looked, again);
  }

  lemma CreateInEmptyStore(run: SyncRun)
    ensures
      var st := Step(EMPTY_STATE, CreateSyncRun(run));
      st.runs == Empty().Set(run.id, run) && st.syncReplayIndex == Empty().Set(RunKey(run), run.id)
  {
  }

  lemma FirstCreation(run: SyncRun)
    ensures
      var st := Step(EMPTY_STATE, CreateSyncRun(run));
      && KeyedBy(st.runs, IdOfRun) && Indexes(st.runs, st.syncReplayIndex, RunKey)
      && st.runs.Get(run.id) == Some(run) && st.runs.at.Keys == {run.id}
  {
    CreateInEmptyStore(run);
    SetKeeps(Empty(), IdOfRun, run);
    AddRow(Empty(), Empty(), RunKey, run.id, run);
  }

  /** The second of two different requests with one key text hides the run of the first, which stays in the table. */
  lemma CollidingRequestHidesTheFirst(first: SyncRun, second: SyncRun)
    requires RunKey(first) == RunKey(second) && first.id != second.id
    requires !AnswersTo(first, second.organizationId, second.connectionId, second.triggerType)
    ensures
      var st := Step(Step(EMPTY_STATE, CreateSyncRun(first)), CreateSyncRun(second));
      && st.runs.Get(first.id) == Some(first)
      && IndexedRun(st, first.organizationId, first.connectionId, first.triggerType, first.idempotencyKey) == None
  {
    FirstCreation(first);
    StaysFindableIff(Step(EMPTY_STATE, CreateSyncRun(first)), first, second);
  }

  /** For every pair of connections, with whatever ids, there are two such requests. */
  lemma CollidingRequestsExist(o: string, c: string, t: string, c': string, t': string, k: string, now: Millis)
    ensures
      var first := NewRun("1", o, c, t, c' + "|" + t' + "|" + k, now);
      var second := NewRun("2", o + "|" + c + "|" + t, c', t', k, now);
      var st := Step(Step(EMPTY_STATE, CreateSyncRun(first)), CreateSyncRun(second));
      && RunKey(first) == RunKey(second) && st.runs.Get(first.id) == Some(first)
      && IndexedRun(st, first.organizationId, first.connectionId, first.triggerType, first.idempotencyKey) == None
  {
    var first, second := NewRun("1", o, c, t, c' + "|" + t' + "|" + k, now), NewRun("2", o + "|" + c + "|" + t, c', t', k, now);
    OneTextTwoRequests(o, c, t, c', t', k);
    assert |first.organizationId| < |second.organizationId|;
    assert "1"[0] != "2"[0];
    CollidingRequestHidesTheFirst(first, second);
  }

  lemma OneTextTwoRequests(o: string, c: string, t: string, c': string, t': string, k: string)
    ensures KeyMaterial(o, c, t, c' + "|" + t' + "|" + k) == KeyMaterial(o + "|" + c + "|" + t, c', t', k)
  {
    KeyMaterialNests(o, c, t, c' + "|" + t' + "|" + k);
    KeyMaterialNests(o + "|" + c + "|" + t, c', t', k);
  }
}
