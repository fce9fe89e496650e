/** Raw events: one stored event per event id, over every run of the store whose ids have no "|". */
module RawEventLaws {
  import opened Wrappers
  import opened InsertionMap
  import opened ConnectorTypes
  import opened ConnectorStore
  import opened StoreInvariant
  import opened RawClaimLaws
  import opened ReplayKeys
  import opened IndexLaws

  predicate CleanEvent(event: RawEvent) {
    PipeFree(event.organizationId) && PipeFree(event.connectionId)
  }

  ghost predicate EventsIndexed(st: StoreState) {
    Indexed(st.rawEvents, st.rawEventIndex, IdOfRawEvent, RawEventKey, CleanEvent)
  }

  /** What is asked of a call: no "|" in organization and connection, a new row id, identity-keeping patches. */
  ghost predicate AdmissibleEventOp(st: StoreState, op: Operation) {
    && WellFormed(op)
    && (op.CreateRawEvent? ==> CleanEvent(op.event) && op.event.id !in st.rawEvents.at)
    && (op.FindRawEventByEventId? ==> PipeFree(op.organizationId) && PipeFree(op.connectionId))
  }

  predicate SameEvent(event: RawEvent, o: string, c: string, e: string) {
    event.organizationId == o && event.connectionId == c && event.eventId == e
  }

  lemma TriggerIsPipeFree()
    ensures PipeFree("raw_event")
  {
  }

  /** Lookup by event id agrees with a scan of the whole table. */
  lemma FindEventAgreesWithScan(st: StoreState, o: string, c: string, e: string, event: RawEvent)
    requires EventsIndexed(st) && PipeFree(o) && PipeFree(c)
    ensures IndexedRawEvent(st, o, c, e) == Some(event) <==> event in st.rawEvents.Values() && SameEvent(event, o, c, e)
  {
    ValuesDistinct(st.rawEvents, IdOfRawEvent);
    TriggerIsPipeFree();
    var key := KeyMaterial(o, c, "raw_event", e);
    if key in st.rawEventIndex.at {
      var found := st.rawEvents.at[st.rawEventIndex.at[key]];
      assert found in st.rawEvents.Values();
      KeyMaterialInjective(found.organizationId, found.connectionId, "raw_event", found.eventId, o, c, "raw_event", e);
    }
    if event in st.rawEvents.Values() && SameEvent(event, o, c, e) {
      assert RawEventKey(event) == key && event.id in st.rawEvents.at;
    }
  }

  /** At most one stored event per organization, connection and event id. */
  lemma OneEventPerId(st: StoreState, a: RawEvent, b: RawEvent)
    requires EventsIndexed(st) && a in st.rawEvents.Values() && b in st.rawEvents.Values()
    requires SameEvent(a, b.organizationId, b.connectionId, b.eventId)
    ensures a == b
  {
    ValuesDistinct(st.rawEvents, IdOfRawEvent);
    OneRowPerKey(st.rawEvents, st.rawEventIndex, RawEventKey, a.id, b.id);
  }

  /** Without "|" in the ids the event met is the one with the same three parts, so each is stored once. */
  lemma DuplicateIffStored(st: StoreState, event: RawEvent)
    requires EventsIndexed(st) && CleanEvent(event)
    ensures DuplicateOf(st, event) == IndexedRawEvent(st, event.organizationId, event.connectionId, event.eventId)
  {
    TriggerIsPipeFree();
    var key := RawEventKey(event);
    if key in st.rawEventIndex.at {
      var found := st.rawEvents.at[st.rawEventIndex.at[key]];
      KeyMaterialInjective(found.organizationId, found.connectionId, "raw_event", found.eventId,
                           event.organizationId, event.connectionId, "raw_event", event.eventId);
    }
  }

  /** The stale-entry branch of the lookup is unreachable. */
  lemma LookupChangesNothing(st: StoreState, o: string, c: string, e: string)
    requires EventsIndexed(st) && PipeFree(o) && PipeFree(c)
    ensures AfterFindRawEvent(st, o, c, e) == st
  {
    TriggerIsPipeFree();
    var key := KeyMaterial(o, c, "raw_event", e);
    if key in st.rawEventIndex.at {
      var found := st.rawEvents.at[st.rawEventIndex.at[key]];
      KeyMaterialInjective(found.organizationId, found.connectionId, "raw_event", found.eventId, o, c, "raw_event", e);
    }
  }

  lemma SameEventsSameIndex(before: OrderedMap<string, RawEvent>, after: OrderedMap<string, RawEvent>, index: OrderedMap<string, string>)
    requires Indexes(before, index, RawEventKey) && EventIdentitiesKept(before, after) && after.at.Keys == before.at.Keys
    requires forall id :: id in before.at ==> CleanEvent(before.at[id])
    ensures Indexes(after, index, RawEventKey) && forall id :: id in after.at ==> CleanEvent(after.at[id])
  {
    forall id | id in before.at ensures RawEventKey(after.at[id]) == RawEventKey(before.at[id]) {
      assert SameRawIdentity(before.at[id], after.at[id]);
    }
  }

  ghost predicate EventsStay(st: StoreState, after: StoreState) {
    EventsIndexed(after) && EventIdentitiesKept(st.rawEvents, after.rawEvents)
  }

  lemma CreateKeepsEventsIndexed(st: StoreState, event: RawEvent)
    requires EventsIndexed(st) && CleanEvent(event) && event.id !in st.rawEvents.at
    ensures EventsStay(st, AfterCreateRawEvent(st, event))
  {
    if DuplicateOf(st, event).None? {
      assert RawEventKey(event) !in st.rawEventIndex.at;
      FileRow(st.rawEvents, st.rawEventIndex, IdOfRawEvent, RawEventKey, CleanEvent, event);
    }
  }

  lemma UpdateKeepsEventsIndexed(st: StoreState, o: string, c: string, id: string, patch: RawEvent -> RawEvent)
    requires EventsIndexed(st) && forall e :: SameRawIdentity(e, patch(e))
    ensures EventsStay(st, AfterUpdateRawEvent(st, o, c, id, patch))
  {
    var own := OwnRawEvent(st, o, c, id);
    if own.Some? {
      assert SameRawIdentity(own.value, patch(own.value));
      SetKeeps(st.rawEvents, IdOfRawEvent, patch(own.value));
      SameEventsSameIndex(st.rawEvents, st.rawEvents.Set(id, patch(own.value)), st.rawEventIndex);
    }
  }

  lemma ClaimKeepsEventsIndexed(st: StoreState, claim: RawClaim)
    requires EventsIndexed(st)
    ensures EventsStay(st, AfterClaimRawEvents(st, claim))
  {
    var batch := RawBatch(st.rawEvents, claim);
    BatchKeepsIdentities(st.rawEvents, claim);
    SetAllKeeps(st.rawEvents, batch, IdOfRawEvent);
    SameEventsSameIndex(st.rawEvents, SetAll(st.rawEvents, batch, IdOfRawEvent), st.rawEventIndex);
  }

  lemma FindKeepsEventsIndexed(st: StoreState, o: string, c: string, e: string)
    requires EventsIndexed(st) && AdmissibleEventOp(st, FindRawEventByEventId(o, c, e))
    ensures EventsStay(st, AfterFindRawEvent(st, o, c, e))
  {
    LookupChangesNothing(st, o, c, e);
  }

  lemma OthersKeepEventsIndexed(st: StoreState, op: Operation)
    requires EventsIndexed(st) && !TouchesRawEvents(op)
    ensures EventsStay(st, Step(st, op))
  {
    StepFrame(st, op);
  }

  /** Over every run of operations the index stays a bijection and no stored event is lost or renamed. */
  lemma StepKeepsEventsIndexed(st: StoreState, op: Operation)
    requires EventsIndexed(st) && AdmissibleEventOp(st, op)
    ensures EventsStay(st, Step(st, op))
  {
    if op.CreateRawEvent? {
      assert Step(st, op) == AfterCreateRawEvent(st, op.event);
      CreateKeepsEventsIndexed(st, op.event);
    } else if op.FindRawEventByEventId? {
      assert Step(st, op) == AfterFindRawEvent(st, op.organizationId, op.connectionId, op.eventId);
      FindKeepsEventsIndexed(st, op.organizationId, op.connectionId, op.eventId);
    } else if op.UpdateRawEvent? {
      assert Step(st, op) == AfterUpdateRawEvent(st, op.organizationId, op.connectionId, op.id, op.eventPatch);
      UpdateKeepsEventsIndexed(st, op.organizationId, op.connectionId, op.id, op.eventPatch);
    } else if op.ClaimRawEvents? {
      assert Step(st, op) == AfterClaimRawEvents(st, op.rawClaim);
      ClaimKeepsEventsIndexed(st, op.rawClaim);
    } else {
      OthersKeepEventsIndexed(st, op);
    }
  }

  ghost predicate AdmissibleEventRun(st: StoreState, ops: seq<Operation>)
    decreases |ops|
  {
    ops == [] || (AdmissibleEventOp(st, ops[0]) && AdmissibleEventRun(Step(st, ops[0]), ops[1..]))
  }

  lemma {:induction false} RunKeepsEventsIndexed(st: StoreState, ops: seq<Operation>)
    requires EventsIndexed(st) && AdmissibleEventRun(st, ops)
    ensures EventsIndexed(After(st, ops)) && EventIdentitiesKept(st.rawEvents, After(st, ops).rawEvents)
    decreases |ops|
  {
    if ops != [] {
      StepKeepsEventsIndexed(st, ops[0]);
      RunKeepsEventsIndexed(Step(st, ops[0]), ops[1..]);
    }
  }
}
