/** What an update makes of a sync run, field by field, and when a claim hands the run out afterwards. */
module RunUpdateLaws {
  import opened Wrappers
  import opened InsertionMap
  import opened ConnectorTypes
  import opened ConnectorStore
  import opened SyncStateLaws
  import opened ClaimRankLaws

  function Updated(st: StoreState, o: string, id: string, patch: RunUpdate): StoreState {
    Step(st, UpdateSyncRun(o, id, patch))
  }

  predicate Owns(st: StoreState, o: string, id: string) {
    id in st.runs.at && st.runs.at[id].organizationId == o
  }

  /** A value replaces, and its absence keeps. */
  ghost predicate Given<T(!new)>(value: Option<T>, before: T, after: T) {
    (value == None ==> after == before) && (forall v :: value == Some(v) ==> after == v)
  }

  /** A value replaces; null and undefined both keep. */
  ghost predicate GivenOrKept<T(!new)>(field: Field<T>, before: Option<T>, after: Option<T>) {
    (field == Undefined || field == Null ==> after == before) && (forall v :: field == Of(v) ==> after == Some(v))
  }

  /** Each field follows the patch by its own rule: only lock and lease are cleared by a null. All others stay. */
  lemma UpdateFollowsThePatch(st: StoreState, o: string, id: string, patch: RunUpdate)
    requires Owns(st, o, id)
    ensures
      id in Updated(st, o, id, patch).runs.at
      && var before, after := st.runs.at[id], Updated(st, o, id, patch).runs.at[id];
         && SameRunIdentity(after, before) && after.createdAt == before.createdAt
         && after.sourceWindowStart == before.sourceWindowStart && after.sourceWindowEnd == before.sourceWindowEnd
         && after.forceFullSync == before.forceFullSync
         && after.status == patch.status
         && Given(patch.recordsFetched, before.recordsFetched, after.recordsFetched)
         && Given(patch.recordsWritten, before.recordsWritten, after.recordsWritten)
         && GivenOrKept(patch.errorClass, before.errorClass, after.errorClass)
         && GivenOrKept(patch.errorMessage, before.errorMessage, after.errorMessage)
         && GivenOrKept(patch.startedAt, before.startedAt, after.startedAt)
         && GivenOrKept(patch.endedAt, before.endedAt, after.endedAt)
         && Given(patch.availableAt, before.availableAt, after.availableAt)
         && Given(patch.attempts, before.attempts, after.attempts)
         && Given(patch.maxAttempts, before.maxAttempts, after.maxAttempts)
         && Given(patch.priority, before.priority, after.priority)
         && Follows(patch.lockedBy, before.lockedBy, after.lockedBy)
         && Follows(patch.leaseExpiresAt, before.leaseExpiresAt, after.leaseExpiresAt)
  {
  }

  /** Every other run, the order of the table and the rest of the store stay; an update by another organization does nothing. */
  lemma UpdateTouchesOneRun(st: StoreState, o: string, id: string, patch: RunUpdate, other: string)
    ensures var after := Updated(st, o, id, patch);
            && after == st.(runs := after.runs) && after.runs.order == st.runs.order
            && (other != id ==> after.runs.Get(other) == st.runs.Get(other))
            && (!Owns(st, o, id) ==> after == st)
  {
  }

  /** After an update, a claim that could hand out everything hands out the run exactly when status, time and lease of the patch allow it. */
  lemma UpdatedIsTakenIff(st: StoreState, o: string, id: string, patch: RunUpdate, claim: Claim)
    requires KeyedBy(st.runs, IdOfRun) && Owns(st, o, id) && claim.limit > |st.runs.order|
    ensures
      var from := if patch.availableAt.Some? then patch.availableAt.value else st.runs.at[id].availableAt;
      var lease := if patch.leaseExpiresAt.Of? then Some(patch.leaseExpiresAt.value)
                   else if patch.leaseExpiresAt.Null? then None else st.runs.at[id].leaseExpiresAt;
      HandsOutRun(Updated(st, o, id, patch).runs, claim, id)
      <==> o in claim.organizationIds
           && ((patch.status == Queued && from <= claim.now)
               || (patch.status == Running && lease.Some? && lease.value <= claim.now))
  {
    var after := Updated(st, o, id, patch);
    UpdateFollowsThePatch(st, o, id, patch);
    UpdateTouchesOneRun(st, o, id, patch, "");
    UpdateKeepsKeyed(st, o, id, patch);
    WideClaimTakesIff(after.runs, claim, id);
  }

  lemma UpdateKeepsKeyed(st: StoreState, o: string, id: string, patch: RunUpdate)
    requires KeyedBy(st.runs, IdOfRun)
    ensures KeyedBy(Updated(st, o, id, patch).runs, IdOfRun)
  {
    if Owns(st, o, id) {
      UpdateFollowsThePatch(st, o, id, patch);
      SetKeeps(st.runs, IdOfRun, Updated(st, o, id, patch).runs.at[id]);
    }
  }

  /** A run put back for a retry at `t`, as the service does it, is handed out again exactly from `t` on. */
  lemma RetriedFrom(st: StoreState, o: string, id: string, error: Field<string>, message: string, failedAt: Millis, t: Millis, claim: Claim)
    requires KeyedBy(st.runs, IdOfRun) && Owns(st, o, id) && claim.limit > |st.runs.order| && o in claim.organizationIds
    ensures
      var patch := RunUpdate(Queued, None, None, error, Of(message), Undefined, Of(failedAt), Some(t), None, None, None, Null, Null);
      HandsOutRun(Updated(st, o, id, patch).runs, claim, id) <==> t <= claim.now
  {
    var patch := RunUpdate(Queued, None, None, error, Of(message), Undefined, Of(failedAt), Some(t), None, None, None, Null, Null);
    UpdatedIsTakenIff(st, o, id, patch, claim);
  }

  /** A run whose lease is cleared while it stays running is handed out by no claim, and neither is one that has ended. */
  lemma ReleasedRunningIsLost(st: StoreState, o: string, id: string, patch: RunUpdate, claim: Claim)
    requires KeyedBy(st.runs, IdOfRun) && Owns(st, o, id)
    requires (patch.status == Running && patch.leaseExpiresAt == Null) || patch.status in {Success, Failed, Canceled}
    ensures !HandsOutRun(Updated(st, o, id, patch).runs, claim, id)
  {
    UpdateFollowsThePatch(st, o, id, patch);
    UpdateKeepsKeyed(st, o, id, patch);
    if HandsOutRun(Updated(st, o, id, patch).runs, claim, id) {
      OnlyTheTakeable(Updated(st, o, id, patch).runs, claim, id);
    }
  }
}
