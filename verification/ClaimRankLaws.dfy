/** Which rows a claim hands out, and in which order, in terms of the fields of the stored rows. */
module ClaimRankLaws {
  import opened Wrappers
  import opened TableQueue
  import opened InsertionMap
  import opened ConnectorTypes
  import opened ConnectorStore
  import opened ClaimLaws
  import opened RawClaimLaws

  /*** Sync runs ***/

  /** Smaller priority first; then the run available earlier, then the one created earlier, then the one filed earlier. */
  ghost predicate RanksBefore(runs: OrderedMap<string, SyncRun>, a: SyncRun, b: SyncRun) {
    || a.priority < b.priority
    || (a.priority == b.priority && a.availableAt < b.availableAt)
    || (a.priority == b.priority && a.availableAt == b.availableAt && a.createdAt < b.createdAt)
    || (a.priority == b.priority && a.availableAt == b.availableAt && a.createdAt == b.createdAt && FiledBefore(runs.order, a.id, b.id))
  }

  /** Waiting and available, or running on a lease that is over. */
  ghost predicate MayBeTaken(run: SyncRun, claim: Claim) {
    && (exists o :: o in claim.organizationIds && run.organizationId == o)
    && ((run.status == Queued && run.availableAt <= claim.now)
        || (run.status == Running && exists t :: run.leaseExpiresAt == Some(t) && t <= claim.now))
  }

  lemma ClaimableIffMayBeTaken(run: SyncRun, claim: Claim)
    ensures Claimable(run, claim.organizationIds, claim.now) <==> MayBeTaken(run, claim)
  {
    if Claimable(run, claim.organizationIds, claim.now) && run.status == Running {
      assert run.leaseExpiresAt == Some(run.leaseExpiresAt.value);
    }
  }

  lemma QueueRanks(runs: OrderedMap<string, SyncRun>, claim: Claim, i: nat, j: nat)
    requires KeyedBy(runs, IdOfRun) && i < j < |ClaimQueue(runs, claim.organizationIds, claim.now)|
    ensures var queue := ClaimQueue(runs, claim.organizationIds, claim.now); RanksBefore(runs, queue[i], queue[j])
  {
    ClaimOrderIsTotal();
    QueueOrder(runs, ClaimableIn(claim.organizationIds, claim.now), ClaimOrder, IdOfRun, i, j);
  }

  /** The stored runs a batch was made from are the front of the queue. */
  lemma BatchIsTheFront(runs: OrderedMap<string, SyncRun>, claim: Claim, i: nat)
    requires KeyedBy(runs, IdOfRun) && i < |ClaimBatch(runs, claim)|
    ensures var queue, id := ClaimQueue(runs, claim.organizationIds, claim.now), ClaimBatch(runs, claim)[i].id;
            |ClaimBatch(runs, claim)| == Min(claim.limit, |queue|) && claim.limit >= 1 && claim.organizationIds != []
            && id in runs.at && runs.at[id] == queue[i]
  {
    BatchNeedsClaim(runs, claim);
    ClaimTakesTheFront(runs, claim);
    QueueHoldsClaimable(runs, claim.organizationIds, claim.now);
    var queue := ClaimQueue(runs, claim.organizationIds, claim.now);
    assert queue[i] in queue;
  }

  /** A batch is in rank order. */
  lemma BatchIsRanked(runs: OrderedMap<string, SyncRun>, claim: Claim, i: nat, j: nat)
    requires KeyedBy(runs, IdOfRun) && i < j < |ClaimBatch(runs, claim)|
    ensures var a, b := ClaimBatch(runs, claim)[i].id, ClaimBatch(runs, claim)[j].id;
            a in runs.at && b in runs.at && RanksBefore(runs, runs.at[a], runs.at[b])
  {
    BatchIsTheFront(runs, claim, i);
    BatchIsTheFront(runs, claim, j);
    QueueRanks(runs, claim, i, j);
  }

  predicate HandsOutRun(runs: OrderedMap<string, SyncRun>, claim: Claim, id: string) {
    exists k :: 0 <= k < |ClaimBatch(runs, claim)| && ClaimBatch(runs, claim)[k].id == id
  }

  /** Every run that is handed out ranks before every run that might have been and was not; and there is one only if the batch is full. */
  lemma LeftOutRanksAfter(runs: OrderedMap<string, SyncRun>, claim: Claim, id: string)
    requires KeyedBy(runs, IdOfRun) && claim.limit >= 1 && id in runs.at && MayBeTaken(runs.at[id], claim) && !HandsOutRun(runs, claim, id)
    ensures |ClaimBatch(runs, claim)| == claim.limit
    ensures forall k :: 0 <= k < |ClaimBatch(runs, claim)| ==>
              ClaimBatch(runs, claim)[k].id in runs.at && RanksBefore(runs, runs.at[ClaimBatch(runs, claim)[k].id], runs.at[id])
  {
    var queue, batch := ClaimQueue(runs, claim.organizationIds, claim.now), ClaimBatch(runs, claim);
    ClaimableIffMayBeTaken(runs.at[id], claim);
    QueueHoldsClaimable(runs, claim.organizationIds, claim.now);
    ClaimTakesTheFront(runs, claim);
    forall k | 0 <= k < |batch| ensures queue[k].id != id {
      assert batch[k].id != id;
    }
    var m :| 0 <= m < |queue| && queue[m] == runs.at[id];
    forall k | 0 <= k < |batch| ensures batch[k].id in runs.at && RanksBefore(runs, runs.at[batch[k].id], runs.at[id]) {
      BatchIsTheFront(runs, claim, k);
      QueueRanks(runs, claim, k, m);
    }
  }

  /** A claim that could hand out everything hands out a stored run exactly when it may be taken. */
  lemma WideClaimTakesIff(runs: OrderedMap<string, SyncRun>, claim: Claim, id: string)
    requires KeyedBy(runs, IdOfRun) && claim.limit > |runs.order| && id in runs.at
    ensures HandsOutRun(runs, claim, id) <==> MayBeTaken(runs.at[id], claim)
  {
    ClaimableIffMayBeTaken(runs.at[id], claim);
    InsertionMap.Lists(runs);
    if HandsOutRun(runs, claim, id) {
      var k :| 0 <= k < |ClaimBatch(runs, claim)| && ClaimBatch(runs, claim)[k].id == id;
      BatchComesFromTable(runs, claim, k);
    } else if MayBeTaken(runs.at[id], claim) {
      LeftOutRanksAfter(runs, claim, id);
      ClaimTakesTheFront(runs, claim);
    }
  }

  /** Whatever the limit, only runs that may be taken are handed out. */
  lemma OnlyTheTakeable(runs: OrderedMap<string, SyncRun>, claim: Claim, id: string)
    requires KeyedBy(runs, IdOfRun) && HandsOutRun(runs, claim, id)
    ensures id in runs.at && MayBeTaken(runs.at[id], claim)
  {
    var k :| 0 <= k < |ClaimBatch(runs, claim)| && ClaimBatch(runs, claim)[k].id == id;
    BatchComesFromTable(runs, claim, k);
    ClaimableIffMayBeTaken(runs.at[id], claim);
  }

  /*** Raw events ***/

  /** The event received later first; of two received together the one filed earlier. */
  ghost predicate NewerBefore(events: OrderedMap<string, RawEvent>, a: RawEvent, b: RawEvent) {
    a.receivedAt > b.receivedAt || (a.receivedAt == b.receivedAt && FiledBefore(events.order, a.id, b.id))
  }

  /** The events a claim reads: pending ones of the organization, and of the connection unless that is empty. */
  ghost predicate MayBeRead(event: RawEvent, claim: RawClaim) {
    && event.organizationId == claim.organizationId && event.processingStatus == Pending
    && (claim.connectionId != "" ==> event.connectionId == claim.connectionId)
  }

  /** The queue of a claim is the events it may read, each once, newest first. */
  lemma RawQueueIsNewestFirst(events: OrderedMap<string, RawEvent>, claim: RawClaim)
    requires KeyedBy(events, IdOfRawEvent)
    ensures var queue := RawQueue(events, claim);
            && (forall i, j :: 0 <= i < j < |queue| ==> NewerBefore(events, queue[i], queue[j]) && queue[i].id != queue[j].id)
            && (forall x :: x in queue <==> x.id in events.at && events.at[x.id] == x && MayBeRead(x, claim))
  {
    var queue := RawQueue(events, claim);
    RawQueueIsQueue(events, claim);
    NewestFirstIsTotal();
    QueueMembers(events, InQueue(claim), NewestFirst, IdOfRawEvent);
    QueueIdsDiffer(events, InQueue(claim), NewestFirst, IdOfRawEvent);
    forall i, j | 0 <= i < j < |queue| ensures NewerBefore(events, queue[i], queue[j]) && queue[i].id != queue[j].id {
      QueueOrder(events, InQueue(claim), NewestFirst, IdOfRawEvent, i, j);
      assert IdOfRawEvent(queue[i]) != IdOfRawEvent(queue[j]);
    }
    forall x ensures x in queue <==> x.id in events.at && events.at[x.id] == x && MayBeRead(x, claim) {
      assert InQueue(claim)(x) <==> MayBeRead(x, claim);
    }
  }

  lemma {:induction false} TokensInTurn(candidates: seq<RawEvent>, claim: RawClaim)
    requires forall i :: 0 <= i < |candidates| ==> candidates[i].connectionId == claim.connectionId
    ensures |MarkTaken(candidates, claim)| == |candidates|
    ensures forall i :: 0 <= i < |candidates| ==> MarkTaken(candidates, claim)[i].claimedBy == Some(claim.tokens(i))
  {
    if candidates != [] {
      TokensInTurn(candidates[..|candidates| - 1], claim);
    }
  }

  /** In a claim for a connection each event gets a token of its own, by its place in the batch. */
  lemma EachEventHasItsToken(events: OrderedMap<string, RawEvent>, claim: RawClaim, i: nat)
    requires KeyedBy(events, IdOfRawEvent) && claim.connectionId != "" && i < |RawBatch(events, claim)|
    ensures RawBatch(events, claim)[i].claimedBy == Some(claim.tokens(i))
  {
    OwnQueue(events, claim);
    TokensInTurn(Slice(events, claim), claim);
  }
}
