/**
 Laws of the sync-run claim queue: what one claim does, what repeated claims hand out, and which
 run no other claim may touch while a lease is held.
 */
module ClaimLaws {
  import opened Wrappers
  import opened Sequences
  import opened StableSort
  import opened InsertionMap
  import opened ConnectorTypes
  import opened ConnectorStore
  import opened TableQueue

  lemma ClaimOrderIsTotal()
    ensures TotalPreorder(ClaimOrder)
  {
  }

  /** The queue holds each claimable run once, and only those. */
  lemma QueueHoldsClaimable(runs: OrderedMap<string, SyncRun>, organizationIds: seq<string>, now: Millis)
    requires KeyedBy(runs, IdOfRun)
    ensures DistinctIds(ClaimQueue(runs, organizationIds, now), IdOfRun)
    ensures forall r :: r in ClaimQueue(runs, organizationIds, now) ==>
              r.id in runs.at && runs.at[r.id] == r && Claimable(r, organizationIds, now)
    ensures forall id :: id in runs.at && Claimable(runs.at[id], organizationIds, now) ==>
              runs.at[id] in ClaimQueue(runs, organizationIds, now)
  {
    QueueMembers(runs, ClaimableIn(organizationIds, now), ClaimOrder, IdOfRun);
    QueueIdsDiffer(runs, ClaimableIn(organizationIds, now), ClaimOrder, IdOfRun);
  }

  /** Runs still to be handled in a claim: stored as they were read, with pairwise different ids. */
  ghost predicate Waiting(runs: OrderedMap<string, SyncRun>, candidates: seq<SyncRun>) {
    && (forall i :: 0 <= i < |candidates| ==> candidates[i].id in runs.at && runs.at[candidates[i].id] == candidates[i])
    && (forall i, j :: 0 <= i < j < |candidates| ==> candidates[i].id != candidates[j].id)
  }

  lemma CandidatesAreStored(runs: OrderedMap<string, SyncRun>, claim: Claim)
    requires KeyedBy(runs, IdOfRun)
    ensures Waiting(runs, ClaimCandidates(runs, claim))
    ensures forall i :: 0 <= i < |ClaimCandidates(runs, claim)| ==>
              Claimable(ClaimCandidates(runs, claim)[i], claim.organizationIds, claim.now)
  {
    QueueHoldsClaimable(runs, claim.organizationIds, claim.now);
    var q, c := ClaimQueue(runs, claim.organizationIds, claim.now), ClaimCandidates(runs, claim);
    assert forall i :: 0 <= i < |c| ==> c[i] == q[i] && q[i] in q;
  }

  lemma OthersKeepWaiting(runs: OrderedMap<string, SyncRun>, candidates: seq<SyncRun>, next: SyncRun)
    requires Waiting(runs, candidates) && candidates != []
    ensures Waiting(runs.Set(candidates[0].id, next), candidates[1..])
  {
  }

  lemma LeaseStep(candidates: seq<SyncRun>, claim: Claim, i: nat)
    requires i < |candidates|
    ensures Lease(candidates[..i + 1], claim) == Lease(candidates[..i], claim) + [ClaimedRun(candidates[i], claim, claim.tokens(i))]
  {
    assert candidates[..i + 1][..i] == candidates[..i];
  }

  lemma {:induction false} LeaseAt(candidates: seq<SyncRun>, claim: Claim)
    ensures |Lease(candidates, claim)| == |candidates|
    ensures forall i :: 0 <= i < |candidates| ==> Lease(candidates, claim)[i] == ClaimedRun(candidates[i], claim, claim.tokens(i))
  {
    if candidates != [] {
      LeaseAt(candidates[..|candidates| - 1], claim);
    }
  }

  /** What a claim makes of a run: identity kept, one more attempt, no records yet, locked and leased. Old errors stay. */
  ghost predicate LeasedFrom(leased: SyncRun, run: SyncRun, claim: Claim, token: string) {
    && SameRunIdentity(leased, run)
    && leased.status == Running && leased.attempts == run.attempts + 1
    && leased.lockedBy == Some(token) && leased.leaseExpiresAt == Some(LeaseEnd(claim)) && leased.startedAt == Some(claim.now)
    && leased.errorClass == run.errorClass && leased.errorMessage == run.errorMessage && leased.endedAt == run.endedAt
    && leased.priority == run.priority && leased.availableAt == run.availableAt && leased.createdAt == run.createdAt
    && leased.recordsFetched == 0 && leased.recordsWritten == 0 && leased.maxAttempts == run.maxAttempts
    && leased.sourceWindowStart == run.sourceWindowStart && leased.sourceWindowEnd == run.sourceWindowEnd
    && leased.forceFullSync == run.forceFullSync
  }

  /** One claim hands out the front of the queue, in order. */
  lemma ClaimTakesTheFront(runs: OrderedMap<string, SyncRun>, claim: Claim)
    requires KeyedBy(runs, IdOfRun) && claim.limit >= 1 && claim.organizationIds != []
    ensures
      var queue, batch := ClaimQueue(runs, claim.organizationIds, claim.now), ClaimBatch(runs, claim);
      && |batch| == Min(claim.limit, |queue|)
      && forall i :: 0 <= i < |batch| ==> LeasedFrom(batch[i], queue[i], claim, claim.tokens(i))
  {
    LeaseAt(ClaimCandidates(runs, claim), claim);
  }

  /** It stores what it hands out, and leaves every other run and the order of the table alone. */
  lemma ClaimTouchesOnlyItsBatch(runs: OrderedMap<string, SyncRun>, claim: Claim)
    requires KeyedBy(runs, IdOfRun)
    ensures
      var batch := ClaimBatch(runs, claim);
      var after := SetAll(runs, batch, IdOfRun);
      && after.order == runs.order && after.at.Keys == runs.at.Keys
      && (forall i :: 0 <= i < |batch| ==> batch[i].id in after.at && after.at[batch[i].id] == batch[i])
      && (forall id :: id in runs.at && (forall i :: 0 <= i < |batch| ==> batch[i].id != id) ==> after.at[id] == runs.at[id])
  {
    BatchIsStored(runs, claim);
    SetAllAt(runs, ClaimBatch(runs, claim), IdOfRun);
  }

  lemma BatchIsStored(runs: OrderedMap<string, SyncRun>, claim: Claim)
    requires KeyedBy(runs, IdOfRun)
    ensures var batch := ClaimBatch(runs, claim);
            && (forall i :: 0 <= i < |batch| ==> IdOfRun(batch[i]) in runs.at)
            && (forall i, j :: 0 <= i < j < |batch| ==> IdOfRun(batch[i]) != IdOfRun(batch[j]))
  {
    var c, batch := ClaimCandidates(runs, claim), ClaimBatch(runs, claim);
    CandidatesAreStored(runs, claim);
    LeaseAt(c, claim);
    assert forall i :: 0 <= i < |batch| ==> IdOfRun(batch[i]) == c[i].id;
  }

  /** A claimed run may be claimed again at `t` exactly when the lease has run out by then. */
  lemma ClaimedAgainIffExpired(run: SyncRun, claim: Claim, token: string, organizationIds: seq<string>, t: Millis)
    requires run.organizationId in organizationIds
    ensures Claimable(ClaimedRun(run, claim, token), organizationIds, t) <==> LeaseEnd(claim) <= t
  {
  }

  /** After a claim with a real lease the queue has lost exactly its front. */
  lemma ClaimShortensTheQueue(runs: OrderedMap<string, SyncRun>, claim: Claim)
    requires KeyedBy(runs, IdOfRun) && claim.limit >= 1 && claim.organizationIds != [] && claim.leaseSeconds >= 1
    ensures
      var queue := ClaimQueue(runs, claim.organizationIds, claim.now);
      ClaimQueue(SetAll(runs, ClaimBatch(runs, claim), IdOfRun), claim.organizationIds, claim.now)
      == queue[Min(claim.limit, |queue|)..]
  {
    ClaimTakesTheFront(runs, claim);
    ClaimOrderIsTotal();
    TakingShortensTheQueue(runs, ClaimBatch(runs, claim), ClaimableIn(claim.organizationIds, claim.now), ClaimOrder, IdOfRun);
  }

  /** Claims made at one instant for the same organizations, each for at least one run and one second. */
  ghost predicate SameInstant(claims: seq<Claim>, organizationIds: seq<string>, now: Millis) {
    && organizationIds != []
    && forall i :: 0 <= i < |claims| ==>
         claims[i].organizationIds == organizationIds && claims[i].now == now && claims[i].limit >= 1 && claims[i].leaseSeconds >= 1
  }

  /** The same run, claimed once more. */
  predicate ClaimedFrom(handed: SyncRun, run: SyncRun) {
    SameRunIdentity(handed, run) && handed.attempts == run.attempts + 1
  }

  function LimitOf(claim: Claim): nat {
    if claim.limit < 0 then 0 else claim.limit
  }

  function QueueAt(organizationIds: seq<string>, now: Millis): OrderedMap<string, SyncRun> -> seq<SyncRun> {
    (runs: OrderedMap<string, SyncRun>) => ClaimQueue(runs, organizationIds, now)
  }

  /**
   Drain: at one instant, claims hand out the queue from the front, each run once; as soon as their
   limits add up to the length of the queue they have handed out all of it.
   */
  lemma ClaimsDrainTheQueue(runs: OrderedMap<string, SyncRun>, claims: seq<Claim>, organizationIds: seq<string>, now: Millis)
    requires KeyedBy(runs, IdOfRun) && SameInstant(claims, organizationIds, now)
    ensures HandsOut(ClaimedFrom, HandedOut(runs, claims, ClaimBatch, IdOfRun), ClaimQueue(runs, organizationIds, now),
                     TotalLimit(claims, LimitOf))
  {
    forall i, t | 0 <= i < |claims| && KeyedBy(t, IdOfRun)
      ensures Serves(t, claims[i], ClaimBatch, LimitOf, QueueAt(organizationIds, now), IdOfRun, ClaimedFrom) {
      FrontThenRest(t, claims[i]);
    }
    ServingDrains(runs, claims, ClaimBatch, LimitOf, QueueAt(organizationIds, now), IdOfRun, ClaimedFrom);
  }

  lemma FrontThenRest(runs: OrderedMap<string, SyncRun>, claim: Claim)
    requires KeyedBy(runs, IdOfRun) && claim.limit >= 1 && claim.organizationIds != [] && claim.leaseSeconds >= 1
    ensures
      var queue, batch := ClaimQueue(runs, claim.organizationIds, claim.now), ClaimBatch(runs, claim);
      && HandsOut(ClaimedFrom, batch, queue, claim.limit)
      && ClaimQueue(SetAll(runs, batch, IdOfRun), claim.organizationIds, claim.now) == queue[|batch|..]
  {
    ClaimTakesTheFront(runs, claim);
    ClaimShortensTheQueue(runs, claim);
  }

  /** The queue is the one arrangement a stable sort of the claimable runs can produce. */
  lemma QueueIsTheStableSort(runs: OrderedMap<string, SyncRun>, organizationIds: seq<string>, now: Millis, r: seq<SyncRun>)
    ensures
      var eligible := Filter(runs.Values(), ClaimableIn(organizationIds, now));
      r == ClaimQueue(runs, organizationIds, now)
      <==> (Sorted(r, ClaimOrder) && forall k :: Ties(r, ClaimOrder, k) == Ties(eligible, ClaimOrder, k))
  {
    ClaimOrderIsTotal();
    StableSortIsUnique(Filter(runs.Values(), ClaimableIn(organizationIds, now)), r, ClaimOrder);
  }

  /** What became of a run in a claim. */
  function Successor(runs: OrderedMap<string, SyncRun>): SyncRun -> SyncRun {
    (run: SyncRun) => if run.id in runs.at then runs.at[run.id] else run
  }

  /** Each run of a batch is the leased form of the stored run with its id. */
  lemma BatchComesFromTable(runs: OrderedMap<string, SyncRun>, claim: Claim, k: nat)
    requires KeyedBy(runs, IdOfRun) && k < |ClaimBatch(runs, claim)|
    ensures
      var leased := ClaimBatch(runs, claim)[k];
      leased.id in runs.at && LeasedFrom(leased, runs.at[leased.id], claim, claim.tokens(k))
      && Claimable(runs.at[leased.id], claim.organizationIds, claim.now)
  {
    CandidatesAreStored(runs, claim);
    LeaseAt(ClaimCandidates(runs, claim), claim);
  }

  predicate SameRank(a: SyncRun, b: SyncRun) {
    a.priority == b.priority && a.availableAt == b.availableAt && a.createdAt == b.createdAt
  }

  lemma EmptyLeaseKeepsRank(runs: OrderedMap<string, SyncRun>, claim: Claim, id: string)
    requires KeyedBy(runs, IdOfRun) && claim.leaseSeconds <= 0 && id in runs.at
    ensures
      var after := SetAll(runs, ClaimBatch(runs, claim), IdOfRun);
      && id in after.at && SameRank(runs.at[id], after.at[id])
      && Claimable(runs.at[id], claim.organizationIds, claim.now) == Claimable(after.at[id], claim.organizationIds, claim.now)
  {
    var batch := ClaimBatch(runs, claim);
    ClaimTouchesOnlyItsBatch(runs, claim);
    if k :| 0 <= k < |batch| && batch[k].id == id {
      BatchComesFromTable(runs, claim, k);
    }
  }

  lemma SuccessorsInPlace(runs: OrderedMap<string, SyncRun>, after: OrderedMap<string, SyncRun>)
    requires KeyedBy(runs, IdOfRun) && KeyedBy(after, IdOfRun) && after.order == runs.order && after.at.Keys == runs.at.Keys
    ensures after.Values() == Map(runs.Values(), Successor(after))
  {
    Lists(runs);
    Lists(after);
    forall i | 0 <= i < |runs.order| ensures after.Values()[i] == Map(runs.Values(), Successor(after))[i] {
      assert runs.at[runs.order[i]].id == runs.order[i];
    }
  }

  /** With a lease that is over at once, the runs a claim took stay claimable, in the same places. */
  lemma EmptyLeaseKeepsTheQueue(runs: OrderedMap<string, SyncRun>, claim: Claim)
    requires KeyedBy(runs, IdOfRun) && claim.leaseSeconds <= 0
    ensures
      var after := SetAll(runs, ClaimBatch(runs, claim), IdOfRun);
      ClaimQueue(after, claim.organizationIds, claim.now) == Map(ClaimQueue(runs, claim.organizationIds, claim.now), Successor(after))
  {
    var after := SetAll(runs, ClaimBatch(runs, claim), IdOfRun);
    var p, f, vs := ClaimableIn(claim.organizationIds, claim.now), Successor(after), runs.Values();
    assert after.Values() == Map(vs, f) by {
      ClaimTouchesOnlyItsBatch(runs, claim);
      SetAllKeeps(runs, ClaimBatch(runs, claim), IdOfRun);
      SuccessorsInPlace(runs, after);
    }
    assert forall x :: x in vs ==> p(x) == p(f(x)) && SameRank(x, f(x)) by {
      ValuesDistinct(runs, IdOfRun);
      forall x | x in vs ensures p(x) == p(f(x)) && SameRank(x, f(x)) {
        EmptyLeaseKeepsRank(runs, claim, x.id);
      }
    }
    MapCommutesWithQueue(vs, f, p);
  }

  lemma MapCommutesWithQueue(vs: seq<SyncRun>, f: SyncRun -> SyncRun, p: SyncRun -> bool)
    requires forall x :: x in vs ==> p(x) == p(f(x)) && SameRank(x, f(x))
    ensures Sort(Filter(Map(vs, f), p), ClaimOrder) == Map(Sort(Filter(vs, p), ClaimOrder), f)
  {
    FilterMap(vs, f, p, p);
    FilterMembers(vs, p);
    SortMap(Filter(vs, p), f, ClaimOrder, ClaimOrder);
  }

  lemma FirstAgainWhenLeaseIsEmpty(runs: OrderedMap<string, SyncRun>, claim: Claim)
    requires KeyedBy(runs, IdOfRun) && ClaimBatch(runs, claim) != [] && claim.leaseSeconds <= 0
    ensures
      var second := ClaimBatch(SetAll(runs, ClaimBatch(runs, claim), IdOfRun), claim);
      second != [] && second[0].id == ClaimBatch(runs, claim)[0].id
  {
    var first := ClaimBatch(runs, claim);
    var after := SetAll(runs, first, IdOfRun);
    BatchNeedsClaim(runs, claim);
    assert KeyedBy(after, IdOfRun) by { SetAllKeeps(runs, first, IdOfRun); }
    FirstIsTheFront(runs, claim);
    EmptyLeaseKeepsTheQueue(runs, claim);
    SuccessorKeepsId(after, ClaimQueue(runs, claim.organizationIds, claim.now)[0]);
    FirstIsTheFront(after, claim);
  }

  lemma SuccessorKeepsId(after: OrderedMap<string, SyncRun>, run: SyncRun)
    requires KeyedBy(after, IdOfRun)
    ensures Successor(after)(run).id == run.id
  {
  }

  lemma FirstIsTheFront(runs: OrderedMap<string, SyncRun>, claim: Claim)
    requires KeyedBy(runs, IdOfRun) && claim.limit >= 1 && claim.organizationIds != []
    ensures var queue, batch := ClaimQueue(runs, claim.organizationIds, claim.now), ClaimBatch(runs, claim);
            (queue == [] <==> batch == []) && (queue != [] ==> batch[0].id == queue[0].id)
  {
    ClaimTakesTheFront(runs, claim);
  }

  /** No run of the first batch is in the second. */
  ghost predicate NoneAgain(first: seq<SyncRun>, second: seq<SyncRun>) {
    forall i, j :: 0 <= i < |first| && 0 <= j < |second| ==> first[i].id != second[j].id
  }

  lemma BatchNeedsClaim(runs: OrderedMap<string, SyncRun>, claim: Claim)
    requires ClaimBatch(runs, claim) != []
    ensures claim.limit >= 1 && claim.organizationIds != []
  {
    LeaseAt(ClaimCandidates(runs, claim), claim);
  }

  /** Drain needs a real lease: a second claim avoids the runs of the first exactly when there is one. */
  lemma SecondClaimIsNewIffLeased(runs: OrderedMap<string, SyncRun>, claim: Claim)
    requires KeyedBy(runs, IdOfRun) && ClaimBatch(runs, claim) != []
    ensures NoneAgain(ClaimBatch(runs, claim), ClaimBatch(SetAll(runs, ClaimBatch(runs, claim), IdOfRun), claim))
            <==> claim.leaseSeconds >= 1
  {
    BatchNeedsClaim(runs, claim);
    if claim.leaseSeconds >= 1 {
      SecondClaimIsNew(runs, claim);
    } else {
      FirstAgainWhenLeaseIsEmpty(runs, claim);
    }
  }

  lemma SecondClaimIsNew(runs: OrderedMap<string, SyncRun>, claim: Claim)
    requires KeyedBy(runs, IdOfRun) && claim.limit >= 1 && claim.organizationIds != [] && claim.leaseSeconds >= 1
    ensures NoneAgain(ClaimBatch(runs, claim), ClaimBatch(SetAll(runs, ClaimBatch(runs, claim), IdOfRun), claim))
  {
    var first, queue := ClaimBatch(runs, claim), ClaimQueue(runs, claim.organizationIds, claim.now);
    var after := SetAll(runs, first, IdOfRun);
    assert KeyedBy(after, IdOfRun) by { SetAllKeeps(runs, first, IdOfRun); }
    FrontThenRest(runs, claim);
    ClaimTakesTheFront(after, claim);
    QueueHoldsClaimable(runs, claim.organizationIds, claim.now);
    ConsecutiveBatchesDiffer(first, ClaimBatch(after, claim), queue);
  }

  lemma ConsecutiveBatchesDiffer(first: seq<SyncRun>, second: seq<SyncRun>, queue: seq<SyncRun>)
    requires |first| <= |queue| && HandsOut(ClaimedFrom, first, queue, |first|) && HandsOut(ClaimedFrom, second, queue[|first|..], |second|)
    requires DistinctIds(queue, IdOfRun)
    ensures NoneAgain(first, second)
  {
    forall i, j | 0 <= i < |first| && 0 <= j < |second| ensures first[i].id != second[j].id {
      assert queue[|first|..][j] == queue[|first| + j];
    }
  }
}
