/** While a lease is held, no claim of a whole run of operations returns the run it protects. */
module LeaseLaws {
  import opened Wrappers
  import opened InsertionMap
  import opened ConnectorTypes
  import opened ConnectorStore
  import opened StoreInvariant
  import opened ClaimLaws

  /** Running, with a lease that lasts at least until `until`, or with no lease end at all. */
  ghost predicate Held(st: StoreState, id: string, until: Millis) {
    && id in st.runs.at
    && st.runs.at[id].status == Running
    && (st.runs.at[id].leaseExpiresAt.Some? ==> until <= st.runs.at[id].leaseExpiresAt.value)
  }

  /**
   What the other callers must respect: claims come before `until`, an update of this run keeps it
   running and does not shorten the lease below `until`, and new runs get new ids.
   */
  ghost predicate Respects(op: Operation, id: string, until: Millis) {
    && (op.ClaimSyncRuns? ==> op.claim.now < until)
    && (op.UpdateSyncRun? && op.runId == id ==>
          op.update.status == Running && (op.update.leaseExpiresAt.Of? ==> until <= op.update.leaseExpiresAt.value))
    && (op.CreateSyncRun? ==> op.run.id != id)
  }

  predicate Returns(st: StoreState, op: Operation, id: string) {
    op.ClaimSyncRuns? && exists r :: r in ClaimBatch(st.runs, op.claim) && r.id == id
  }

  /** A run whose lease is missing, or not over at `claim.now`, is not in the batch. */
  lemma HeldRunIsNotClaimed(st: StoreState, claim: Claim, id: string)
    requires KeyedBy(st.runs, IdOfRun) && Held(st, id, claim.now + 1)
    ensures forall r :: r in ClaimBatch(st.runs, claim) ==> r.id != id
  {
    var c, batch := ClaimCandidates(st.runs, claim), ClaimBatch(st.runs, claim);
    CandidatesAreStored(st.runs, claim);
    LeaseAt(c, claim);
    forall r | r in batch ensures r.id != id {
      var i :| 0 <= i < |batch| && batch[i] == r;
      assert c[i].id == r.id && Claimable(c[i], claim.organizationIds, claim.now);
    }
  }

  lemma ClaimKeepsHeld(st: StoreState, claim: Claim, id: string, until: Millis)
    requires KeyedBy(st.runs, IdOfRun) && Held(st, id, until) && claim.now < until
    ensures Held(AfterClaimRuns(st, claim), id, until)
  {
    HeldRunIsNotClaimed(st, claim, id);
    ClaimTouchesOnlyItsBatch(st.runs, claim);
  }

  lemma CreateKeepsHeld(st: StoreState, run: SyncRun, id: string, until: Millis)
    requires Held(st, id, until) && run.id != id
    ensures Held(AfterCreateRun(st, run), id, until)
  {
  }

  lemma UpdateKeepsHeld(st: StoreState, o: string, runId: string, update: RunUpdate, id: string, until: Millis)
    requires Held(st, id, until) && Respects(UpdateSyncRun(o, runId, update), id, until)
    ensures Held(AfterUpdateRun(st, o, runId, update), id, until)
  {
  }

  lemma OthersKeepHeld(st: StoreState, op: Operation, id: string, until: Millis)
    requires Held(st, id, until) && (!TouchesRuns(op) || op.FindSyncRunByIdempotency?)
    ensures Held(Step(st, op), id, until)
  {
    StepFrame(st, op);
  }

  lemma StepReturnsNoHeld(st: StoreState, op: Operation, id: string, until: Millis)
    requires KeyedBy(st.runs, IdOfRun) && Held(st, id, until) && Respects(op, id, until)
    ensures !Returns(st, op, id)
  {
    if op.ClaimSyncRuns? {
      HeldRunIsNotClaimed(st, op.claim, id);
    }
  }

  /** Held is about the runs alone. */
  lemma SameRunsHeld(st: StoreState, after: StoreState, id: string, until: Millis)
    requires Held(after, id, until) && st.runs == after.runs
    ensures Held(st, id, until)
  {
  }

  lemma StepKeepsHeld(st: StoreState, op: Operation, id: string, until: Millis)
    requires KeyedBy(st.runs, IdOfRun) && Held(st, id, until) && Respects(op, id, until)
    ensures Held(Step(st, op), id, until)
  {
    if op.ClaimSyncRuns? {
      ClaimKeepsHeld(st, op.claim, id, until);
      SameRunsHeld(Step(st, op), AfterClaimRuns(st, op.claim), id, until);
    } else if op.CreateSyncRun? {
      CreateKeepsHeld(st, op.run, id, until);
      SameRunsHeld(Step(st, op), AfterCreateRun(st, op.run), id, until);
    } else if op.UpdateSyncRun? {
      UpdateKeepsHeld(st, op.organizationId, op.runId, op.update, id, until);
      SameRunsHeld(Step(st, op), AfterUpdateRun(st, op.organizationId, op.runId, op.update), id, until);
    } else {
      OthersKeepHeld(st, op, id, until);
    }
  }

  /** Lease exclusion over any run of operations that respects the lease. */
  lemma {:induction false} LeaseExcludesOtherClaims(st: StoreState, ops: seq<Operation>, id: string, until: Millis)
    requires KeyedBy(st.runs, IdOfRun) && st.syncReplayIndex.Valid() && Held(st, id, until)
    requires forall i :: 0 <= i < |ops| ==> Respects(ops[i], id, until)
    ensures forall k :: 0 <= k < |ops| ==> !Returns(After(st, ops[..k]), ops[k], id)
    ensures Held(After(st, ops), id, until)
    decreases |ops|
  {
    if ops != [] {
      StepReturnsNoHeld(st, ops[0], id, until);
      StepKeepsHeld(st, ops[0], id, until);
      StepKeepsRunTables(st, ops[0]);
      LeaseExcludesOtherClaims(Step(st, ops[0]), ops[1..], id, until);
      forall k | 0 <= k < |ops| ensures !Returns(After(st, ops[..k]), ops[k], id) {
        if k > 0 {
          assert ops[..k][1..] == ops[1..][..k - 1];
        }
      }
    }
  }

  /** The lease a claim gives: everyone else is kept out for the seconds asked for. */
  lemma ClaimExcludesUntilLeaseEnd(st: StoreState, claim: Claim, i: nat, ops: seq<Operation>)
    requires KeyedBy(st.runs, IdOfRun) && st.syncReplayIndex.Valid() && i < |ClaimBatch(st.runs, claim)|
    requires forall k :: 0 <= k < |ops| ==> Respects(ops[k], ClaimBatch(st.runs, claim)[i].id, claim.now + 1000 * claim.leaseSeconds)
    ensures
      var taken := Step(st, ClaimSyncRuns(claim));
      forall k :: 0 <= k < |ops| ==> !Returns(After(taken, ops[..k]), ops[k], ClaimBatch(st.runs, claim)[i].id)
  {
    var id, taken := ClaimBatch(st.runs, claim)[i].id, Step(st, ClaimSyncRuns(claim));
    ClaimedRunIsHeld(st, claim, i);
    StepKeepsRunTables(st, ClaimSyncRuns(claim));
    LeaseExcludesOtherClaims(taken, ops, id, LeaseEnd(claim));
  }

  lemma BatchIsHeld(st: StoreState, claim: Claim, i: nat)
    requires KeyedBy(st.runs, IdOfRun) && i < |ClaimBatch(st.runs, claim)|
    ensures Held(AfterClaimRuns(st, claim), ClaimBatch(st.runs, claim)[i].id, LeaseEnd(claim))
  {
    var leased := ClaimBatch(st.runs, claim)[i];
    assert leased.status == Running && leased.leaseExpiresAt == Some(LeaseEnd(claim)) by {
      BatchComesFromTable(st.runs, claim, i);
    }
    StoredInBatch(st.runs, claim, i);
  }

  lemma ClaimedRunIsHeld(st: StoreState, claim: Claim, i: nat)
    requires KeyedBy(st.runs, IdOfRun) && i < |ClaimBatch(st.runs, claim)|
    ensures Held(Step(st, ClaimSyncRuns(claim)), ClaimBatch(st.runs, claim)[i].id, LeaseEnd(claim))
  {
    BatchIsHeld(st, claim, i);
    SameRunsHeld(Step(st, ClaimSyncRuns(claim)), AfterClaimRuns(st, claim), ClaimBatch(st.runs, claim)[i].id, LeaseEnd(claim));
  }

  lemma StoredInBatch(runs: OrderedMap<string, SyncRun>, claim: Claim, i: nat)
    requires KeyedBy(runs, IdOfRun) && i < |ClaimBatch(runs, claim)|
    ensures SetAll(runs, ClaimBatch(runs, claim), IdOfRun).Get(ClaimBatch(runs, claim)[i].id) == Some(ClaimBatch(runs, claim)[i])
  {
    ClaimTouchesOnlyItsBatch(runs, claim);
  }

  /** A running run with no lease end is outside the queue for good: only an update can bring it back. */
  lemma NoLeaseNeverClaimed(st: StoreState, claim: Claim, id: string)
    requires KeyedBy(st.runs, IdOfRun) && id in st.runs.at
    requires st.runs.at[id].status == Running && st.runs.at[id].leaseExpiresAt.None?
    ensures forall r :: r in ClaimBatch(st.runs, claim) ==> r.id != id
  {
    HeldRunIsNotClaimed(st, claim, id);
  }
}
