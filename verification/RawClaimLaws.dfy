/** Claims of raw events: newest first, for a connection, or with an empty connection id for those that have none. */
module RawClaimLaws {
  import opened Wrappers
  import opened Sequences
  import opened StableSort
  import opened TableQueue
  import opened InsertionMap
  import opened ConnectorTypes
  import opened ConnectorStore
  import opened StoreInvariant

  ghost predicate EventIdentitiesKept(before: OrderedMap<string, RawEvent>, after: OrderedMap<string, RawEvent>) {
    forall id :: id in before.at ==> id in after.at && SameRawIdentity(before.at[id], after.at[id])
  }

  /*** The claim queue ***/

  function InQueue(claim: RawClaim): RawEvent -> bool {
    (event: RawEvent) => event.organizationId == claim.organizationId
                         && (claim.connectionId == "" || event.connectionId == claim.connectionId) && IsPending(event)
  }

  lemma NewestFirstIsTotal()
    ensures TotalPreorder(NewestFirst)
  {
  }

  /** Listing, then keeping the pending ones, is the queue of pending events, newest first. */
  lemma RawQueueIsQueue(events: OrderedMap<string, RawEvent>, claim: RawClaim)
    ensures RawQueue(events, claim) == Queue(events, InQueue(claim), NewestFirst)
  {
    var listed := ListedIn(claim.organizationId, Some(claim.connectionId));
    NewestFirstIsTotal();
    SortFilter(Filter(events.Values(), listed), NewestFirst, IsPending);
    FilterTwice(events.Values(), listed, IsPending, InQueue(claim));
  }

  /** Events still to be handled in a claim: stored as they were read, with pairwise different ids. */
  ghost predicate WaitingEvents(events: OrderedMap<string, RawEvent>, candidates: seq<RawEvent>, organizationId: string) {
    && (forall i :: 0 <= i < |candidates| ==> candidates[i].id in events.at && events.at[candidates[i].id] == candidates[i]
                                              && candidates[i].organizationId == organizationId)
    && DistinctIds(candidates, IdOfRawEvent)
  }

  lemma RawCandidatesAreStored(events: OrderedMap<string, RawEvent>, claim: RawClaim)
    requires KeyedBy(events, IdOfRawEvent)
    ensures WaitingEvents(events, SliceTo(RawQueue(events, claim), claim.limit), claim.organizationId)
  {
    RawQueueIsQueue(events, claim);
    QueueMembers(events, InQueue(claim), NewestFirst, IdOfRawEvent);
    QueueIdsDiffer(events, InQueue(claim), NewestFirst, IdOfRawEvent);
    var queue := RawQueue(events, claim);
    assert forall i :: 0 <= i < |queue| ==> queue[i] in queue;
  }

  lemma OtherEventsKeepWaiting(events: OrderedMap<string, RawEvent>, candidates: seq<RawEvent>, next: RawEvent, organizationId: string)
    requires WaitingEvents(events, candidates, organizationId) && candidates != []
    ensures WaitingEvents(events.Set(candidates[0].id, next), candidates[1..], organizationId)
    ensures WaitingEvents(events, candidates[1..], organizationId)
  {
    forall i, j | 0 <= i < j < |candidates[1..]| ensures IdOfRawEvent(candidates[1..][i]) != IdOfRawEvent(candidates[1..][j]) {
      assert candidates[1..][i] == candidates[i + 1] && candidates[1..][j] == candidates[j + 1];
    }
    forall i | 0 <= i < |candidates[1..]| ensures candidates[1..][i].id != candidates[0].id {
      assert IdOfRawEvent(candidates[0]) != IdOfRawEvent(candidates[i + 1]);
    }
  }

  lemma MarkTakenStep(candidates: seq<RawEvent>, claim: RawClaim, i: nat)
    requires i < |candidates|
    ensures MarkTaken(candidates[..i + 1], claim) == MarkTaken(candidates[..i], claim)
              + (if candidates[i].connectionId == claim.connectionId then [ClaimedRawEvent(candidates[i], claim, claim.tokens(i))] else [])
  {
    assert candidates[..i + 1][..i] == candidates[..i];
  }

  /** The events a claim may mark: an empty connection id lists all of the organization, but marks only those without one. */
  function Own(claim: RawClaim): RawEvent -> bool {
    (event: RawEvent) => event.connectionId == claim.connectionId
  }

  function Foreign(claim: RawClaim): RawEvent -> bool {
    (event: RawEvent) => event.connectionId != claim.connectionId
  }

  /** The events a claim looks at: `limit` of them, or for a negative limit all but the last ones. */
  function Slice(events: OrderedMap<string, RawEvent>, claim: RawClaim): seq<RawEvent> {
    SliceTo(RawQueue(events, claim), claim.limit)
  }

  /** What a claim makes of an event: identity and age kept, marked as in processing with some token. */
  ghost predicate TakenFrom(taken: RawEvent, event: RawEvent, claim: RawClaim) {
    && SameRawIdentity(taken, event) && taken.receivedAt == event.receivedAt && taken.body == event.body && taken.processedAt == event.processedAt
    && taken.processingStatus == Processing && taken.claimedAt == Some(claim.now)
    && taken.errorMessage == None && exists n: nat :: taken.claimedBy == Some(claim.tokens(n))
  }

  /** One claim marks exactly its own events among those it looks at, in order. */
  lemma {:induction false} MarksItsOwn(candidates: seq<RawEvent>, claim: RawClaim)
    ensures var own, taken := Filter(candidates, Own(claim)), MarkTaken(candidates, claim);
            |taken| == |own| && forall i :: 0 <= i < |taken| ==> TakenFrom(taken[i], own[i], claim)
  {
    if candidates != [] {
      var n := |candidates| - 1;
      MarksItsOwn(candidates[..n], claim);
      FilterAppend(candidates[..n], [candidates[n]], Own(claim));
      assert candidates == candidates[..n] + [candidates[n]];
      if Own(claim)(candidates[n]) {
        assert TakenFrom(ClaimedRawEvent(candidates[n], claim, claim.tokens(n)), candidates[n], claim);
      }
    }
  }

  lemma RawClaimTakesItsOwn(events: OrderedMap<string, RawEvent>, claim: RawClaim)
    ensures var own, batch := Filter(Slice(events, claim), Own(claim)), RawBatch(events, claim);
            |batch| == |own| && forall i :: 0 <= i < |batch| ==> TakenFrom(batch[i], own[i], claim)
  {
    MarksItsOwn(Slice(events, claim), claim);
  }

  /** The events looked at and not marked stay in front; those not looked at follow. */
  function Left(queue: seq<RawEvent>, k: nat, claim: RawClaim): seq<RawEvent>
    requires k <= |queue|
  {
    Filter(queue[..k], Foreign(claim)) + queue[k..]
  }

  /** An event is marked exactly when it is an own one that the claim looked at. */
  lemma MarkedIff(events: OrderedMap<string, RawEvent>, claim: RawClaim, p: nat)
    requires KeyedBy(events, IdOfRawEvent) && p < |RawQueue(events, claim)|
    ensures var queue := RawQueue(events, claim);
            !NotIn(RawBatch(events, claim), IdOfRawEvent)(queue[p]) <==> p < |Slice(events, claim)| && Own(claim)(queue[p])
  {
    var queue, batch, own := RawQueue(events, claim), RawBatch(events, claim), Filter(Slice(events, claim), Own(claim));
    RawClaimTakesItsOwn(events, claim);
    FilterMembers(Slice(events, claim), Own(claim));
    QueueIds(events, claim);
    if p < |Slice(events, claim)| && Own(claim)(queue[p]) {
      assert Slice(events, claim)[p] == queue[p];
      assert queue[p] in own;
      var i :| 0 <= i < |own| && own[i] == queue[p];
      assert IdOfRawEvent(batch[i]) == IdOfRawEvent(queue[p]);
    }
    if !NotIn(batch, IdOfRawEvent)(queue[p]) {
      var i :| 0 <= i < |batch| && IdOfRawEvent(batch[i]) == IdOfRawEvent(queue[p]);
      assert own[i] in own;
      var q :| 0 <= q < |Slice(events, claim)| && Slice(events, claim)[q] == own[i];
      assert queue[q] == own[i] && IdOfRawEvent(queue[q]) == IdOfRawEvent(queue[p]);
    }
  }

  lemma QueueIds(events: OrderedMap<string, RawEvent>, claim: RawClaim)
    requires KeyedBy(events, IdOfRawEvent)
    ensures DistinctIds(RawQueue(events, claim), IdOfRawEvent)
  {
    RawQueueIsQueue(events, claim);
    QueueIdsDiffer(events, InQueue(claim), NewestFirst, IdOfRawEvent);
  }

  lemma BatchIsStored(events: OrderedMap<string, RawEvent>, claim: RawClaim)
    requires KeyedBy(events, IdOfRawEvent)
    ensures var batch := RawBatch(events, claim);
            DistinctIds(batch, IdOfRawEvent)
            && forall i :: 0 <= i < |batch| ==> IdOfRawEvent(batch[i]) in events.at && !InQueue(claim)(batch[i])
  {
    RawCandidatesAreStored(events, claim);
    MarkTakenMembers(events, Slice(events, claim), claim);
    RawClaimTakesItsOwn(events, claim);
  }

  /** What is left of the queue after a claim, whatever the connection id. */
  lemma RawClaimLeaves(events: OrderedMap<string, RawEvent>, claim: RawClaim)
    requires KeyedBy(events, IdOfRawEvent)
    ensures RawQueue(SetAll(events, RawBatch(events, claim), IdOfRawEvent), claim)
         == Left(RawQueue(events, claim), |Slice(events, claim)|, claim)
  {
    var batch, queue, k := RawBatch(events, claim), RawQueue(events, claim), |Slice(events, claim)|;
    RawQueueIsQueue(events, claim);
    RawQueueIsQueue(SetAll(events, batch, IdOfRawEvent), claim);
    NewestFirstIsTotal();
    BatchIsStored(events, claim);
    StoringLeavesTheOthers(events, batch, InQueue(claim), NewestFirst, IdOfRawEvent);
    forall p | 0 <= p < |queue| ensures NotIn(batch, IdOfRawEvent)(queue[p]) == (p >= k || Foreign(claim)(queue[p])) {
      MarkedIff(events, claim, p);
    }
    FilterUpTo(queue, k, NotIn(batch, IdOfRawEvent), Foreign(claim));
  }

  lemma {:induction false} FilterUpTo<T>(s: seq<T>, k: nat, p: T -> bool, q: T -> bool)
    requires k <= |s| && forall i :: 0 <= i < |s| ==> p(s[i]) == (i >= k || q(s[i]))
    ensures Filter(s, p) == Filter(s[..k], q) + s[k..]
  {
    if k == 0 {
      FilterAll(s, p);
    } else {
      FilterUpTo(s[1..], k - 1, p, q);
      assert s[..k][1..] == s[1..][..k - 1] && s[k..] == s[1..][k - 1..];
    }
  }

  /*** Claims for one connection ***/

  lemma OwnQueue(events: OrderedMap<string, RawEvent>, claim: RawClaim)
    requires KeyedBy(events, IdOfRawEvent) && claim.connectionId != ""
    ensures forall p :: 0 <= p < |RawQueue(events, claim)| ==> Own(claim)(RawQueue(events, claim)[p])
  {
    RawQueueIsQueue(events, claim);
    QueueMembers(events, InQueue(claim), NewestFirst, IdOfRawEvent);
    forall p | 0 <= p < |RawQueue(events, claim)| ensures Own(claim)(RawQueue(events, claim)[p]) {
      assert RawQueue(events, claim)[p] in RawQueue(events, claim);
    }
  }

  /** A claim for a connection takes the front of its queue: everything it looks at. */
  lemma RawClaimTakesTheFront(events: OrderedMap<string, RawEvent>, claim: RawClaim)
    requires KeyedBy(events, IdOfRawEvent) && claim.connectionId != ""
    ensures
      var queue, batch := RawQueue(events, claim), RawBatch(events, claim);
      && |batch| == |Slice(events, claim)|
      && forall i :: 0 <= i < |batch| ==> TakenFrom(batch[i], queue[i], claim)
  {
    OwnQueue(events, claim);
    RawClaimTakesItsOwn(events, claim);
    FilterAll(Slice(events, claim), Own(claim));
  }

  lemma RawClaimShortensTheQueue(events: OrderedMap<string, RawEvent>, claim: RawClaim)
    requires KeyedBy(events, IdOfRawEvent) && claim.connectionId != ""
    ensures RawQueue(SetAll(events, RawBatch(events, claim), IdOfRawEvent), claim) == RawQueue(events, claim)[|Slice(events, claim)|..]
  {
    OwnQueue(events, claim);
    RawClaimLeaves(events, claim);
    FilterNone(RawQueue(events, claim)[..|Slice(events, claim)|], Foreign(claim));
  }

  ghost predicate SameConnection(claims: seq<RawClaim>, o: string, c: string) {
    forall i :: 0 <= i < |claims| ==> claims[i].organizationId == o && claims[i].connectionId == c && claims[i].limit >= 1
  }

  function RawLimitOf(claim: RawClaim): nat {
    if claim.limit < 0 then 0 else claim.limit
  }

  /** The queue depends on the claim only through whose events it asks for. */
  function QueueFor(any: RawClaim): OrderedMap<string, RawEvent> -> seq<RawEvent> {
    (events: OrderedMap<string, RawEvent>) => RawQueue(events, any)
  }

  /**
   Drain: with nothing arriving and nothing returned to pending, claims for one connection hand out
   its pending events newest first, each once, and all of them once the limits add up to their number.
   */
  lemma RawClaimsDrainTheQueue(events: OrderedMap<string, RawEvent>, claims: seq<RawClaim>, any: RawClaim)
    requires KeyedBy(events, IdOfRawEvent) && any.connectionId != ""
    requires SameConnection(claims, any.organizationId, any.connectionId)
    ensures HandsOut(SameRawIdentity, HandedOut(events, claims, RawBatch, IdOfRawEvent), RawQueue(events, any), TotalLimit(claims, RawLimitOf))
  {
    forall i, t | 0 <= i < |claims| && KeyedBy(t, IdOfRawEvent)
      ensures Serves(t, claims[i], RawBatch, RawLimitOf, QueueFor(any), IdOfRawEvent, SameRawIdentity) {
      RawClaimServes(t, claims[i], any);
    }
    ServingDrains(events, claims, RawBatch, RawLimitOf, QueueFor(any), IdOfRawEvent, SameRawIdentity);
  }

  lemma RawClaimServes(events: OrderedMap<string, RawEvent>, claim: RawClaim, any: RawClaim)
    requires KeyedBy(events, IdOfRawEvent) && claim.connectionId == any.connectionId != "" && claim.organizationId == any.organizationId
    requires claim.limit >= 1
    ensures Serves(events, claim, RawBatch, RawLimitOf, QueueFor(any), IdOfRawEvent, SameRawIdentity)
  {
    var after := SetAll(events, RawBatch(events, claim), IdOfRawEvent);
    assert RawQueue(events, any) == RawQueue(events, claim) && RawQueue(after, any) == RawQueue(after, claim);
    RawClaimTakesTheFront(events, claim);
    RawClaimShortensTheQueue(events, claim);
  }

  /*** Claims repeated, whatever the connection id ***/

  function Iterate<T>(f: T -> T, x: T, m: nat): T {
    if m == 0 then x else f(Iterate(f, x, m - 1))
  }

  lemma {:induction false} IterateOnce<T>(f: T -> T, x: T, m: nat)
    ensures Iterate(f, f(x), m) == Iterate(f, x, m + 1)
  {
    if m > 0 {
      IterateOnce(f, x, m - 1);
    }
  }

  /** What one claim makes of the table. */
  function Round(claim: RawClaim): OrderedMap<string, RawEvent> -> OrderedMap<string, RawEvent> {
    (events: OrderedMap<string, RawEvent>) => SetAll(events, RawBatch(events, claim), IdOfRawEvent)
  }

  lemma {:induction false} IterateKeeps<T(!new)>(f: T -> T, x: T, m: nat, keeps: T -> bool)
    requires keeps(x) && forall y :: keeps(y) ==> keeps(f(y))
    ensures keeps(Iterate(f, x, m))
  {
    if m > 0 {
      IterateKeeps(f, x, m - 1, keeps);
    }
  }

  predicate Takes(events: OrderedMap<string, RawEvent>, claim: RawClaim, event: RawEvent) {
    !NotIn(RawBatch(events, claim), IdOfRawEvent)(event)
  }

  /** The claim, made for the `m`-th time after the first, hands out the event. */
  predicate TakenInRound(events: OrderedMap<string, RawEvent>, claim: RawClaim, m: nat, event: RawEvent) {
    Takes(Iterate(Round(claim), events, m), claim, event)
  }

  function ForeignBefore(queue: seq<RawEvent>, p: nat, claim: RawClaim): nat
    requires p <= |queue|
  {
    |Filter(queue[..p], Foreign(claim))|
  }

  lemma {:induction false} FilterIdempotent<T>(s: seq<T>, p: T -> bool)
    ensures Filter(Filter(s, p), p) == Filter(s, p)
  {
    FilterMembers(s, p);
    FilterAll(Filter(s, p), p);
  }

  /** Where a later event stands after a claim: moved up by the marked ones, with the same foreign events before it. */
  lemma MovesUp(queue: seq<RawEvent>, k: nat, p: nat, claim: RawClaim)
    requires k <= p < |queue|
    ensures var p' := ForeignBefore(queue, k, claim) + p - k;
            && p' < |Left(queue, k, claim)| && Left(queue, k, claim)[p'] == queue[p]
            && ForeignBefore(Left(queue, k, claim), p', claim) == ForeignBefore(queue, p, claim)
  {
    var f := Foreign(claim);
    var kept, left := Filter(queue[..k], f), Left(queue, k, claim);
    var p' := |kept| + p - k;
    assert queue[..p] == queue[..k] + queue[k..p];
    FilterAppend(queue[..k], queue[k..p], f);
    assert left[..p'] == kept + queue[k..p];
    FilterAppend(kept, queue[k..p], f);
    FilterIdempotent(queue[..k], f);
  }

  lemma ForeignGrows(queue: seq<RawEvent>, k: nat, p: nat, claim: RawClaim)
    requires k <= p <= |queue|
    ensures ForeignBefore(queue, k, claim) <= ForeignBefore(queue, p, claim)
  {
    assert queue[..p] == queue[..k] + queue[k..p];
    FilterAppend(queue[..k], queue[k..p], Foreign(claim));
  }

  lemma TakenLater(events: OrderedMap<string, RawEvent>, claim: RawClaim, m: nat, event: RawEvent)
    ensures TakenInRound(events, claim, m + 1, event) <==> TakenInRound(Round(claim)(events), claim, m, event)
  {
    IterateOnce(Round(claim), events, m);
  }

  /** An own event of the claim is at place `p` of a queue, behind `f` foreign ones. */
  predicate At(queue: seq<RawEvent>, claim: RawClaim, event: RawEvent, p: nat, f: nat) {
    p < |queue| && queue[p] == event && Own(claim)(event) && ForeignBefore(queue, p, claim) == f
  }

  /** If it is not looked at it moves up past the marked ones; the foreign ones stay before it. */
  lemma AtLater(queue: seq<RawEvent>, k: nat, claim: RawClaim, event: RawEvent, p: nat, f: nat) returns (p': nat)
    requires At(queue, claim, event, p, f) && k <= p
    ensures At(Left(queue, k, claim), claim, event, p', f)
    ensures f < k ==> p' < p
  {
    p' := ForeignBefore(queue, k, claim) + p - k;
    MovesUp(queue, k, p, claim);
    ForeignGrows(queue, k, p, claim);
  }

  ghost predicate StandsAt(events: OrderedMap<string, RawEvent>, claim: RawClaim, event: RawEvent, p: nat, f: nat) {
    KeyedBy(events, IdOfRawEvent) && At(RawQueue(events, claim), claim, event, p, f)
  }

  lemma TakenNowIff(events: OrderedMap<string, RawEvent>, claim: RawClaim, event: RawEvent, p: nat, f: nat)
    requires StandsAt(events, claim, event, p, f)
    ensures Takes(events, claim, event) <==> p < |Slice(events, claim)|
  {
    MarkedIff(events, claim, p);
  }

  lemma StandsLater(events: OrderedMap<string, RawEvent>, claim: RawClaim, event: RawEvent, p: nat, f: nat) returns (p': nat)
    requires StandsAt(events, claim, event, p, f) && claim.limit >= 1 && p >= |Slice(events, claim)|
    ensures StandsAt(Round(claim)(events), claim, event, p', f)
    ensures f < claim.limit ==> p' < p
  {
    SetAllKeeps(events, RawBatch(events, claim), IdOfRawEvent);
    RawClaimLeaves(events, claim);
    p' := AtLater(RawQueue(events, claim), |Slice(events, claim)|, claim, event, p, f);
  }

  /** With fewer foreign events before it than the limit, an own event is handed out. */
  lemma {:induction false} ComesToTheFront(events: OrderedMap<string, RawEvent>, claim: RawClaim, event: RawEvent, p: nat, f: nat)
    returns (m: nat)
    requires StandsAt(events, claim, event, p, f) && f < claim.limit
    ensures TakenInRound(events, claim, m, event)
    decreases p
  {
    TakenNowIff(events, claim, event, p, f);
    if p < |Slice(events, claim)| {
      m := 0;
    } else {
      var p' := StandsLater(events, claim, event, p, f);
      m := ComesToTheFront(Round(claim)(events), claim, event, p', f);
      TakenLater(events, claim, m, event);
      m := m + 1;
    }
  }

  lemma NotLookedAt(events: OrderedMap<string, RawEvent>, claim: RawClaim, event: RawEvent, p: nat, f: nat)
    requires StandsAt(events, claim, event, p, f) && f >= claim.limit >= 1
    ensures p >= |Slice(events, claim)| && !Takes(events, claim, event)
  {
    var queue := RawQueue(events, claim);
    assert |Filter(queue[..p], Foreign(claim))| <= p;
    TakenNowIff(events, claim, event, p, f);
  }

  /** The event is in the queue behind at least as many foreign ones as the claim looks at. */
  ghost predicate Stuck(events: OrderedMap<string, RawEvent>, claim: RawClaim, event: RawEvent, f: nat) {
    f >= claim.limit >= 1 && exists p :: StandsAt(events, claim, event, p, f)
  }

  lemma StuckStays(events: OrderedMap<string, RawEvent>, claim: RawClaim, event: RawEvent, f: nat)
    requires Stuck(events, claim, event, f)
    ensures Stuck(Round(claim)(events), claim, event, f) && !Takes(events, claim, event)
  {
    var p :| StandsAt(events, claim, event, p, f);
    NotLookedAt(events, claim, event, p, f);
    var p' := StandsLater(events, claim, event, p, f);
    assert StandsAt(Round(claim)(events), claim, event, p', f);
  }

  /** With at least as many as the limit, no number of claims reaches it. */
  lemma NeverComesToTheFront(events: OrderedMap<string, RawEvent>, claim: RawClaim, event: RawEvent, f: nat, m: nat)
    requires Stuck(events, claim, event, f)
    ensures !TakenInRound(events, claim, m, event)
  {
    ghost var keeps := (t: OrderedMap<string, RawEvent>) => Stuck(t, claim, event, f);
    forall t | keeps(t) ensures keeps(Round(claim)(t)) {
      StuckStays(t, claim, event, f);
    }
    IterateKeeps(Round(claim), events, m, keeps);
    StuckStays(Iterate(Round(claim), events, m), claim, event, f);
  }

  /**
   When the drain holds, whatever the connection id: repeating a claim hands out a pending event of its own
   exactly when fewer foreign events than the limit are queued before it. With a connection id there are none;
   with an empty one, events that have a connection stay at the front and can block it for ever.
   */
  lemma HandedOutIff(events: OrderedMap<string, RawEvent>, claim: RawClaim, p: nat)
    requires KeyedBy(events, IdOfRawEvent) && claim.limit >= 1 && p < |RawQueue(events, claim)|
    requires RawQueue(events, claim)[p].connectionId == claim.connectionId
    ensures (exists m :: TakenInRound(events, claim, m, RawQueue(events, claim)[p]))
        <==> ForeignBefore(RawQueue(events, claim), p, claim) < claim.limit
  {
    var event, f := RawQueue(events, claim)[p], ForeignBefore(RawQueue(events, claim), p, claim);
    assert StandsAt(events, claim, event, p, f);
    if f < claim.limit {
      var m := ComesToTheFront(events, claim, event, p, f);
    } else {
      forall m: nat ensures !TakenInRound(events, claim, m, event) {
        NeverComesToTheFront(events, claim, event, f, m);
      }
    }
  }

  /** Whatever the connection id, a batch holds leased forms of stored events, with distinct ids. */
  lemma {:induction false} MarkTakenMembers(events: OrderedMap<string, RawEvent>, candidates: seq<RawEvent>, claim: RawClaim)
    requires WaitingEvents(events, candidates, claim.organizationId)
    ensures forall i :: 0 <= i < |MarkTaken(candidates, claim)| ==>
              var taken := MarkTaken(candidates, claim)[i];
              && taken.id in events.at && SameRawIdentity(taken, events.at[taken.id]) && taken.connectionId == claim.connectionId
              && exists k :: 0 <= k < |candidates| && candidates[k].id == taken.id
    ensures DistinctIds(MarkTaken(candidates, claim), IdOfRawEvent)
  {
    if candidates != [] {
      var n := |candidates| - 1;
      assert WaitingEvents(events, candidates[..n], claim.organizationId);
      MarkTakenMembers(events, candidates[..n], claim);
      var earlier := MarkTaken(candidates[..n], claim);
      forall i | 0 <= i < |earlier| ensures earlier[i].id != candidates[n].id {
        var k :| 0 <= k < n && candidates[..n][k].id == earlier[i].id;
        assert IdOfRawEvent(candidates[k]) != IdOfRawEvent(candidates[n]);
      }
    }
  }

  lemma BatchKeepsIdentities(events: OrderedMap<string, RawEvent>, claim: RawClaim)
    requires KeyedBy(events, IdOfRawEvent)
    ensures
      var after := SetAll(events, RawBatch(events, claim), IdOfRawEvent);
      after.at.Keys == events.at.Keys && EventIdentitiesKept(events, after)
  {
    var batch := RawBatch(events, claim);
    RawCandidatesAreStored(events, claim);
    MarkTakenMembers(events, SliceTo(RawQueue(events, claim), claim.limit), claim);
    SetAllAt(events, batch, IdOfRawEvent);
    forall id | id in events.at ensures SameRawIdentity(events.at[id], SetAll(events, batch, IdOfRawEvent).at[id]) {
      if i :| 0 <= i < |batch| && batch[i].id == id {
        assert SetAll(events, batch, IdOfRawEvent).at[IdOfRawEvent(batch[i])] == batch[i];
      }
    }
  }

  /**
   An empty connection id reads the whole organization, but takes only events stored without a
   connection: the others fill the slice and are dropped from the batch.
   */
  lemma EmptyConnectionTakesOnlyUnconnected(events: OrderedMap<string, RawEvent>, claim: RawClaim)
    requires KeyedBy(events, IdOfRawEvent) && claim.connectionId == ""
    ensures forall i :: 0 <= i < |RawBatch(events, claim)| ==>
              RawBatch(events, claim)[i].id in events.at && events.at[RawBatch(events, claim)[i].id].connectionId == ""
  {
    RawCandidatesAreStored(events, claim);
    MarkTakenMembers(events, SliceTo(RawQueue(events, claim), claim.limit), claim);
  }
}
