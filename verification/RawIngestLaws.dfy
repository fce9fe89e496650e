/**
 What the runtime does with incoming raw events: look each one up, then create it. Without any proviso on
 the ids: which events are stored, which stay findable, and when an event is stored twice.
 */
module RawIngestLaws {
  import opened Wrappers
  import opened InsertionMap
  import opened ConnectorTypes
  import opened ConnectorStore
  import opened StoreInvariant
  import opened RawClaimLaws
  import opened ReplayKeys
  import opened EventKeys
  import opened IndexLaws
  import opened RawEventLaws

  /*** An invariant that holds whatever the ids are ***/

  /** Each index entry leads to a stored event with its key text; not every stored event need have an entry. */
  ghost predicate EventsLed(st: StoreState) {
    KeyedBy(st.rawEvents, IdOfRawEvent) && st.rawEventIndex.Valid() && Leads(st.rawEvents, st.rawEventIndex, RawEventKey)
  }

  /** What is asked of a call: patches keep identities, and a new event has a new row id. */
  ghost predicate FreshEventOp(st: StoreState, op: Operation) {
    WellFormed(op) && (op.CreateRawEvent? ==> op.event.id !in st.rawEvents.at)
  }

  lemma SameIdentitiesStillLead(before: OrderedMap<string, RawEvent>, after: OrderedMap<string, RawEvent>, index: OrderedMap<string, string>)
    requires Leads(before, index, RawEventKey) && EventIdentitiesKept(before, after)
    ensures Leads(after, index, RawEventKey)
  {
    forall k | k in index.at ensures index.at[k] in after.at && RawEventKey(after.at[index.at[k]]) == k {
      assert SameRawIdentity(before.at[index.at[k]], after.at[index.at[k]]);
    }
  }

  lemma FileNewEvent(st: StoreState, event: RawEvent, after: StoreState)
    requires EventsLed(st) && event.id !in st.rawEvents.at
    requires after.rawEvents == st.rawEvents.Set(event.id, event) && after.rawEventIndex == st.rawEventIndex.Set(RawEventKey(event), event.id)
    ensures EventsLed(after)
  {
    SetKeeps(st.rawEvents, IdOfRawEvent, event);
    SetValid(st.rawEventIndex, RawEventKey(event), event.id);
    LeadsToNew(st.rawEvents, st.rawEventIndex, RawEventKey, event.id, event);
  }

  lemma CreateKeepsLed(st: StoreState, event: RawEvent)
    requires EventsLed(st) && event.id !in st.rawEvents.at
    ensures EventsLed(AfterCreateRawEvent(st, event))
  {
    if DuplicateOf(st, event).None? {
      assert RawEventKey(event) !in st.rawEventIndex.at;
      FileNewEvent(st, event, AfterCreateRawEvent(st, event));
    }
  }

  lemma FindKeepsLed(st: StoreState, o: string, c: string, e: string)
    requires EventsLed(st)
    ensures EventsLed(AfterFindRawEvent(st, o, c, e))
  {
    DeleteValid(st.rawEventIndex, KeyMaterial(o, c, "raw_event", e));
  }

  lemma UpdateKeepsLed(st: StoreState, o: string, c: string, id: string, patch: RawEvent -> RawEvent)
    requires EventsLed(st) && forall e :: SameRawIdentity(e, patch(e))
    ensures EventsLed(AfterUpdateRawEvent(st, o, c, id, patch))
  {
    var own := OwnRawEvent(st, o, c, id);
    if own.Some? {
      assert SameRawIdentity(own.value, patch(own.value));
      SetKeeps(st.rawEvents, IdOfRawEvent, patch(own.value));
      SameIdentitiesStillLead(st.rawEvents, st.rawEvents.Set(id, patch(own.value)), st.rawEventIndex);
    }
  }

  lemma ClaimKeepsLed(st: StoreState, claim: RawClaim)
    requires EventsLed(st)
    ensures EventsLed(AfterClaimRawEvents(st, claim))
  {
    var batch := RawBatch(st.rawEvents, claim);
    BatchKeepsIdentities(st.rawEvents, claim);
    SetAllKeeps(st.rawEvents, batch, IdOfRawEvent);
    SameIdentitiesStillLead(st.rawEvents, SetAll(st.rawEvents, batch, IdOfRawEvent), st.rawEventIndex);
  }

  lemma OthersKeepLed(st: StoreState, op: Operation)
    requires EventsLed(st) && !TouchesRawEvents(op)
    ensures EventsLed(Step(st, op))
  {
    StepFrame(st, op);
  }

  lemma StepKeepsLed(st: StoreState, op: Operation)
    requires EventsLed(st) && FreshEventOp(st, op)
    ensures EventsLed(Step(st, op))
  {
    if op.CreateRawEvent? {
      assert Step(st, op) == AfterCreateRawEvent(st, op.event);
      CreateKeepsLed(st, op.event);
    } else if op.FindRawEventByEventId? {
      assert Step(st, op) == AfterFindRawEvent(st, op.organizationId, op.connectionId, op.eventId);
      FindKeepsLed(st, op.organizationId, op.connectionId, op.eventId);
    } else if op.UpdateRawEvent? {
      assert Step(st, op) == AfterUpdateRawEvent(st, op.organizationId, op.connectionId, op.id, op.eventPatch);
      UpdateKeepsLed(st, op.organizationId, op.connectionId, op.id, op.eventPatch);
    } else if op.ClaimRawEvents? {
      assert Step(st, op) == AfterClaimRawEvents(st, op.rawClaim);
      ClaimKeepsLed(st, op.rawClaim);
    } else {
      OthersKeepLed(st, op);
    }
  }

  ghost predicate FreshEventRun(st: StoreState, ops: seq<Operation>)
    decreases |ops|
  {
    ops == [] || (FreshEventOp(st, ops[0]) && FreshEventRun(Step(st, ops[0]), ops[1..]))
  }

  /** Over every run of operations, with whatever ids, the entries of the index lead to events with their text. */
  lemma {:induction false} RunKeepsLed(st: StoreState, ops: seq<Operation>)
    requires EventsLed(st) && FreshEventRun(st, ops)
    ensures EventsLed(After(st, ops))
    decreases |ops|
  {
    if ops != [] {
      StepKeepsLed(st, ops[0]);
      RunKeepsLed(Step(st, ops[0]), ops[1..]);
    }
  }

  /*** Lookups ***/

  /** The event is stored and the index leads to it. */
  predicate Findable(st: StoreState, event: RawEvent) {
    st.rawEvents.Get(event.id) == Some(event) && st.rawEventIndex.Get(RawEventKey(event)) == Some(event.id)
  }

  lemma SameTextSameEvent(o: string, c: string, e: string, e': string)
    requires EventText(o, c, e) == EventText(o, c, e')
    ensures e == e'
  {
    TextInParts(o, c, e);
    TextInParts(o, c, e');
    var p := (o + "|" + c) + MARK;
    assert e == (p + e)[|p|..] && e' == (p + e')[|p|..];
  }

  /** A lookup finds exactly the findable event with the three parts. */
  lemma FindsTheFindable(st: StoreState, o: string, c: string, e: string, event: RawEvent)
    requires EventsLed(st)
    ensures IndexedRawEvent(st, o, c, e) == Some(event) <==> Findable(st, event) && SameEvent(event, o, c, e)
  {
    var key := KeyMaterial(o, c, "raw_event", e);
    if IndexedRawEvent(st, o, c, e).Some? {
      var found := IndexedRawEvent(st, o, c, e).value;
      assert RawEventKey(found) == key && found.id == st.rawEventIndex.at[key];
      SameTextSameEvent(o, c, found.eventId, e);
    }
  }

  /** The index entry of this text leads to an event of another organization or connection. */
  predicate MeetsAnother(st: StoreState, o: string, c: string, e: string) {
    var key := KeyMaterial(o, c, "raw_event", e);
    && key in st.rawEventIndex.at && st.rawEventIndex.at[key] in st.rawEvents.at
    && (st.rawEvents.at[st.rawEventIndex.at[key]].organizationId != o || st.rawEvents.at[st.rawEventIndex.at[key]].connectionId != c)
  }

  /** A lookup changes memory, though it schedules no flush, exactly when it meets such an entry, which it deletes. */
  lemma LookupChangesIff(st: StoreState, o: string, c: string, e: string)
    requires EventsLed(st)
    ensures Step(st, FindRawEventByEventId(o, c, e)) != st <==> MeetsAnother(st, o, c, e)
    ensures MeetsAnother(st, o, c, e) <==> exists x :: Findable(st, x) && RawEventKey(x) == EventText(o, c, e)
                                              && (x.organizationId != o || x.connectionId != c)
  {
    var key := KeyMaterial(o, c, "raw_event", e);
    assert Step(st, FindRawEventByEventId(o, c, e)) == AfterFindRawEvent(st, o, c, e);
    if MeetsAnother(st, o, c, e) {
      assert key !in AfterFindRawEvent(st, o, c, e).rawEventIndex.at;
      assert Findable(st, st.rawEvents.at[st.rawEventIndex.at[key]]);
    }
  }

  /** What a lookup leaves findable. */
  lemma LookupLeaves(st: StoreState, o: string, c: string, e: string, x: RawEvent)
    requires EventsLed(st)
    ensures Findable(Step(st, FindRawEventByEventId(o, c, e)), x)
            <==> Findable(st, x) && (RawEventKey(x) != EventText(o, c, e) || (x.organizationId == o && x.connectionId == c))
  {
    assert Step(st, FindRawEventByEventId(o, c, e)) == AfterFindRawEvent(st, o, c, e);
  }

  /** A lookup keeps a full index full exactly when every stored event with its text has its organization and connection. */
  lemma LookupKeepsIndexIff(st: StoreState, o: string, c: string, e: string)
    requires KeyedBy(st.rawEvents, IdOfRawEvent) && st.rawEventIndex.Valid() && Indexes(st.rawEvents, st.rawEventIndex, RawEventKey)
    ensures var after := Step(st, FindRawEventByEventId(o, c, e));
            Indexes(after.rawEvents, after.rawEventIndex, RawEventKey)
            <==> forall x :: x in st.rawEvents.Values() && RawEventKey(x) == EventText(o, c, e) ==> x.organizationId == o && x.connectionId == c
  {
    var key, after := KeyMaterial(o, c, "raw_event", e), Step(st, FindRawEventByEventId(o, c, e));
    LookupChangesIff(st, o, c, e);
    ValuesDistinct(st.rawEvents, IdOfRawEvent);
    if MeetsAnother(st, o, c, e) {
      var x := st.rawEvents.at[st.rawEventIndex.at[key]];
      assert x in st.rawEvents.Values() && RawEventKey(x) == key && after.rawEvents == st.rawEvents;
      assert key !in after.rawEventIndex.at;
    } else {
      forall x | x in st.rawEvents.Values() && RawEventKey(x) == key ensures x.organizationId == o && x.connectionId == c {
        assert st.rawEventIndex.at[key] == x.id;
      }
    }
  }

  /*** Lookup, then creation ***/

  /** A creation meets a stored event exactly when that event is findable and has the same key text. */
  lemma DuplicateIffKeyTaken(st: StoreState, event: RawEvent, e: RawEvent)
    requires EventsLed(st)
    ensures DuplicateOf(st, event) == Some(e) <==> Findable(st, e) && RawEventKey(e) == RawEventKey(event)
  {
  }

  /** A new event is dropped, and nothing changes, exactly when some findable event has its key text. */
  lemma EventIsDroppedIff(st: StoreState, event: RawEvent)
    requires EventsLed(st) && event.id !in st.rawEvents.at
    ensures Step(st, CreateRawEvent(event)) == st <==> exists e :: Findable(st, e) && RawEventKey(e) == RawEventKey(event)
  {
    var found := DuplicateOf(st, event);
    assert Step(st, CreateRawEvent(event)) == AfterCreateRawEvent(st, event);
    if found.Some? {
      DuplicateIffKeyTaken(st, event, found.value);
    } else {
      assert event.id in AfterCreateRawEvent(st, event).rawEvents.at;
    }
  }

  /** With a full index every stored event is findable. */
  lemma FullIndexFindsAll(st: StoreState, x: RawEvent)
    requires KeyedBy(st.rawEvents, IdOfRawEvent) && st.rawEventIndex.Valid() && Indexes(st.rawEvents, st.rawEventIndex, RawEventKey)
    ensures EventsLed(st) && (Findable(st, x) <==> x in st.rawEvents.Values())
  {
    ValuesDistinct(st.rawEvents, IdOfRawEvent);
  }

  /** What `persistRawEvents` does with one event: a found event is a duplicate, any other is created. */
  function Ingested(st: StoreState, event: RawEvent): StoreState {
    if IndexedRawEvent(st, event.organizationId, event.connectionId, event.eventId).Some? then st
    else Step(Step(st, FindRawEventByEventId(event.organizationId, event.connectionId, event.eventId)), CreateRawEvent(event))
  }

  predicate IsDuplicate(st: StoreState, event: RawEvent) {
    IndexedRawEvent(st, event.organizationId, event.connectionId, event.eventId).Some?
  }

  /** After the lookup nothing is in the way of the creation. */
  lemma LookupClearsTheWay(st: StoreState, event: RawEvent)
    requires EventsLed(st) && !IsDuplicate(st, event)
    ensures var looked := AfterFindRawEvent(st, event.organizationId, event.connectionId, event.eventId);
            && RawEventKey(event) !in looked.rawEventIndex.at && looked.rawEvents == st.rawEvents
            && looked.rawEventIndex.at == st.rawEventIndex.at - {RawEventKey(event)}
  {
  }

  lemma CreatedWithoutEntry(st: StoreState, event: RawEvent)
    requires RawEventKey(event) !in st.rawEventIndex.at
    ensures AfterCreateRawEvent(st, event).rawEvents == st.rawEvents.Set(event.id, event)
    ensures AfterCreateRawEvent(st, event).rawEventIndex.at == st.rawEventIndex.at[RawEventKey(event) := event.id]
  {
  }

  /** An event that is not a duplicate is always stored. */
  lemma NewEventIsStored(st: StoreState, event: RawEvent)
    requires EventsLed(st) && event.id !in st.rawEvents.at && !IsDuplicate(st, event)
    ensures Ingested(st, event).rawEvents == st.rawEvents.Set(event.id, event)
    ensures Ingested(st, event).rawEventIndex.at == st.rawEventIndex.at[RawEventKey(event) := event.id]
    ensures EventsLed(Ingested(st, event))
  {
    var o, c, e := event.organizationId, event.connectionId, event.eventId;
    var looked := AfterFindRawEvent(st, o, c, e);
    IngestedInTwoSteps(st, event);
    LookupClearsTheWay(st, event);
    CreatedWithoutEntry(looked, event);
    assert (st.rawEventIndex.at - {RawEventKey(event)})[RawEventKey(event) := event.id] == st.rawEventIndex.at[RawEventKey(event) := event.id];
    FindKeepsLed(st, o, c, e);
    CreateKeepsLed(looked, event);
  }

  lemma IngestedInTwoSteps(st: StoreState, event: RawEvent)
    requires !IsDuplicate(st, event)
    ensures Ingested(st, event)
         == AfterCreateRawEvent(AfterFindRawEvent(st, event.organizationId, event.connectionId, event.eventId), event)
  {
    var o, c, e := event.organizationId, event.connectionId, event.eventId;
    assert Step(st, FindRawEventByEventId(o, c, e)) == AfterFindRawEvent(st, o, c, e);
    assert Step(AfterFindRawEvent(st, o, c, e), CreateRawEvent(event)) == AfterCreateRawEvent(AfterFindRawEvent(st, o, c, e), event);
  }

  /**
   One event, exactly: it is stored if and only if no findable event has its three parts; then it is findable,
   and of the others exactly those with another key text stay so.
   */
  lemma IngestStoresIff(st: StoreState, event: RawEvent, x: RawEvent)
    requires EventsLed(st) && event.id !in st.rawEvents.at
    ensures var after := Ingested(st, event);
            && EventsLed(after)
            && (event.id in after.rawEvents.at <==> !exists f :: Findable(st, f) && SameEvent(f, event.organizationId, event.connectionId, event.eventId))
            && (event.id !in after.rawEvents.at ==> after == st)
            && (event.id in after.rawEvents.at ==>
                  (after.rawEvents == st.rawEvents.Set(event.id, event)
                   && (Findable(after, x) <==> x == event || (Findable(st, x) && RawEventKey(x) != RawEventKey(event)))))
  {
    var o, c, e := event.organizationId, event.connectionId, event.eventId;
    if IsDuplicate(st, event) {
      var f := IndexedRawEvent(st, o, c, e).value;
      FindsTheFindable(st, o, c, e, f);
    } else {
      forall f ensures !(Findable(st, f) && SameEvent(f, o, c, e)) {
        FindsTheFindable(st, o, c, e, f);
      }
      NewEventIsStored(st, event);
    }
  }

  /*** Other calls between lookup and creation ***/

  /** Only a creation with this text files it. */
  lemma OthersFileNothing(st: StoreState, op: Operation, key: string)
    requires key !in st.rawEventIndex.at && (op.CreateRawEvent? ==> RawEventKey(op.event) != key)
    ensures key !in Step(st, op).rawEventIndex.at
  {
    if !TouchesRawEvents(op) {
      StepFrame(st, op);
    } else if op.CreateRawEvent? {
      assert Step(st, op) == AfterCreateRawEvent(st, op.event);
    }
  }

  lemma {:induction false} RunFilesNothing(st: StoreState, ops: seq<Operation>, key: string)
    requires key !in st.rawEventIndex.at
    requires forall i :: 0 <= i < |ops| && ops[i].CreateRawEvent? ==> RawEventKey(ops[i].event) != key
    ensures key !in After(st, ops).rawEventIndex.at
    decreases |ops|
  {
    if ops != [] {
      OthersFileNothing(st, ops[0], key);
      RunFilesNothing(Step(st, ops[0]), ops[1..], key);
    }
  }

  lemma LookupFilesNothing(st: StoreState, event: RawEvent)
    requires EventsLed(st) && !IsDuplicate(st, event)
    ensures RawEventKey(event)
            !in Step(st, FindRawEventByEventId(event.organizationId, event.connectionId, event.eventId)).rawEventIndex.at
  {
    LookupClearsTheWay(st, event);
  }

  lemma CreationStores(st: StoreState, event: RawEvent)
    requires RawEventKey(event) !in st.rawEventIndex.at
    ensures Step(st, CreateRawEvent(event)).rawEvents == st.rawEvents.Set(event.id, event)
  {
    CreatedWithoutEntry(st, event);
  }

  /**
   The runtime stores the payload between lookup and creation, and other calls may run meanwhile. Unless one
   of them creates an event with the same text, the event looked up in vain is stored.
   */
  lemma DroppedOnlyIfFiledBetween(st: StoreState, event: RawEvent, ops: seq<Operation>)
    requires EventsLed(st) && !IsDuplicate(st, event)
    requires forall i :: 0 <= i < |ops| && ops[i].CreateRawEvent? ==> RawEventKey(ops[i].event) != RawEventKey(event)
    ensures var between := After(Step(st, FindRawEventByEventId(event.organizationId, event.connectionId, event.eventId)), ops);
            Step(between, CreateRawEvent(event)).rawEvents == between.rawEvents.Set(event.id, event)
  {
    var looked := Step(st, FindRawEventByEventId(event.organizationId, event.connectionId, event.eventId));
    LookupFilesNothing(st, event);
    RunFilesNothing(looked, ops, RawEventKey(event));
    CreationStores(After(looked, ops), event);
  }

  /*** A series of events ***/

  function IngestedAll(st: StoreState, events: seq<RawEvent>): StoreState
    decreases |events|
  {
    if events == [] then st else Ingested(IngestedAll(st, events[..|events| - 1]), events[|events| - 1])
  }

  predicate SameTriple(a: RawEvent, b: RawEvent) {
    SameEvent(a, b.organizationId, b.connectionId, b.eventId)
  }

  /** The last event with this key text. */
  function Latest(events: seq<RawEvent>, key: string): Option<RawEvent> {
    if events == [] then None
    else if RawEventKey(events[|events| - 1]) == key then Some(events[|events| - 1])
    else Latest(events[..|events| - 1], key)
  }

  /** The last event before this one with its key text is of another organization or connection, or there is none. */
  predicate IsNew(events: seq<RawEvent>, j: nat)
    requires j < |events|
  {
    match Latest(events[..j], RawEventKey(events[j]))
    case None => true
    case Some(last) => !SameTriple(last, events[j])
  }

  ghost predicate NewIds(events: seq<RawEvent>) {
    forall i, j :: 0 <= i < j < |events| ==> events[i].id != events[j].id
  }

  /** For this text the index leads to an event with the triple of the last one that had it. */
  ghost predicate LeadsAt(st: StoreState, events: seq<RawEvent>, key: string) {
    match Latest(events, key)
    case None => key !in st.rawEventIndex.at
    case Some(last) => key in st.rawEventIndex.at && st.rawEventIndex.at[key] in st.rawEvents.at
                       && SameTriple(st.rawEvents.at[st.rawEventIndex.at[key]], last)
  }

  ghost predicate LeadsToLatest(st: StoreState, events: seq<RawEvent>) {
    forall key :: LeadsAt(st, events, key)
  }

  /** The new events are stored, and nothing else is. */
  ghost predicate HoldsTheNew(st: StoreState, events: seq<RawEvent>) {
    && (forall j :: 0 <= j < |events| ==> (IsNew(events, j) <==> events[j].id in st.rawEvents.at))
    && (forall j :: 0 <= j < |events| && IsNew(events, j) ==> st.rawEvents.Get(events[j].id) == Some(events[j]))
    && (forall id :: id in st.rawEvents.at ==> exists j :: 0 <= j < |events| && events[j].id == id)
  }

  lemma DuplicateIffNotNew(st: StoreState, init: seq<RawEvent>, event: RawEvent)
    requires EventsLed(st) && LeadsToLatest(st, init)
    ensures IsDuplicate(st, event) <==> !IsNew(init + [event], |init|)
  {
    assert (init + [event])[..|init|] == init;
    assert LeadsAt(st, init, RawEventKey(event));
    var latest := Latest(init, RawEventKey(event));
    if latest.Some? {
      LatestHasText(init, RawEventKey(event));
      if latest.value.organizationId == event.organizationId && latest.value.connectionId == event.connectionId {
        SameTextSameEvent(event.organizationId, event.connectionId, latest.value.eventId, event.eventId);
      }
    }
  }

  lemma {:induction false} LatestHasText(events: seq<RawEvent>, key: string)
    ensures Latest(events, key).Some? ==> RawEventKey(Latest(events, key).value) == key
  {
    if events != [] {
      LatestHasText(events[..|events| - 1], key);
    }
  }

  lemma LatestOfOneMore(init: seq<RawEvent>, event: RawEvent, key: string)
    ensures Latest(init + [event], key) == if RawEventKey(event) == key then Some(event) else Latest(init, key)
  {
    assert (init + [event])[..|init|] == init;
  }

  lemma NewLeadsAt(st: StoreState, after: StoreState, init: seq<RawEvent>, event: RawEvent, key: string)
    requires LeadsAt(st, init, key) && EventsLed(st) && event.id !in st.rawEvents.at
    requires after.rawEvents == st.rawEvents.Set(event.id, event)
    requires after.rawEventIndex.at == st.rawEventIndex.at[RawEventKey(event) := event.id]
    ensures LeadsAt(after, init + [event], key)
  {
    LatestOfOneMore(init, event, key);
  }

  lemma DuplicateLeadsAt(st: StoreState, init: seq<RawEvent>, event: RawEvent, key: string)
    requires LeadsAt(st, init, key) && EventsLed(st) && IsDuplicate(st, event)
    ensures LeadsAt(st, init + [event], key)
  {
    LatestOfOneMore(init, event, key);
    if key == RawEventKey(event) {
      var found := IndexedRawEvent(st, event.organizationId, event.connectionId, event.eventId).value;
      FindsTheFindable(st, event.organizationId, event.connectionId, event.eventId, found);
    }
  }

  lemma OneMoreLeads(st: StoreState, init: seq<RawEvent>, event: RawEvent)
    requires EventsLed(st) && LeadsToLatest(st, init) && event.id !in st.rawEvents.at
    ensures LeadsToLatest(Ingested(st, event), init + [event])
  {
    var after := Ingested(st, event);
    if IsDuplicate(st, event) {
      forall key ensures LeadsAt(after, init + [event], key) {
        DuplicateLeadsAt(st, init, event, key);
      }
    } else {
      NewEventIsStored(st, event);
      forall key ensures LeadsAt(after, init + [event], key) {
        NewLeadsAt(st, after, init, event, key);
      }
    }
  }

  lemma NewInPrefix(events: seq<RawEvent>, n: nat, j: nat)
    requires j < n <= |events|
    ensures IsNew(events[..n], j) == IsNew(events, j)
  {
    assert events[..n][..j] == events[..j];
  }

  lemma OneMoreHolds(st: StoreState, init: seq<RawEvent>, event: RawEvent)
    requires EventsLed(st) && LeadsToLatest(st, init) && HoldsTheNew(st, init)
    requires forall i :: 0 <= i < |init| ==> init[i].id != event.id
    ensures event.id !in st.rawEvents.at && HoldsTheNew(Ingested(st, event), init + [event])
  {
    assert event.id !in st.rawEvents.at;
    DuplicateIffNotNew(st, init, event);
    if IsDuplicate(st, event) {
      DuplicateHolds(st, init, event);
    } else {
      NewEventIsStored(st, event);
      NewHolds(st, Ingested(st, event), init, event);
    }
  }

  lemma DuplicateHolds(st: StoreState, init: seq<RawEvent>, event: RawEvent)
    requires HoldsTheNew(st, init) && event.id !in st.rawEvents.at && !IsNew(init + [event], |init|)
    ensures HoldsTheNew(st, init + [event])
  {
    var all := init + [event];
    assert all[..|init|] == init;
    forall j | 0 <= j < |init| ensures all[j] == init[j] && IsNew(all, j) == IsNew(init, j) {
      NewInPrefix(all, |init|, j);
    }
    forall id | id in st.rawEvents.at ensures exists j :: 0 <= j < |all| && all[j].id == id {
      var j :| 0 <= j < |init| && init[j].id == id;
      assert all[j].id == id;
    }
  }

  lemma NewHoldsAt(st: StoreState, after: StoreState, init: seq<RawEvent>, event: RawEvent, j: nat)
    requires HoldsTheNew(st, init) && IsNew(init + [event], |init|) && j <= |init|
    requires after.rawEvents == st.rawEvents.Set(event.id, event) && forall i :: 0 <= i < |init| ==> init[i].id != event.id
    ensures var all := init + [event];
            && (IsNew(all, j) <==> all[j].id in after.rawEvents.at)
            && (IsNew(all, j) ==> after.rawEvents.Get(all[j].id) == Some(all[j]))
  {
    var all := init + [event];
    if j < |init| {
      assert all[..|init|] == init && all[j] == init[j];
      NewInPrefix(all, |init|, j);
    }
  }

  lemma NoOthersHeld(st: StoreState, after: StoreState, init: seq<RawEvent>, event: RawEvent, id: string) returns (j: nat)
    requires HoldsTheNew(st, init) && after.rawEvents == st.rawEvents.Set(event.id, event) && id in after.rawEvents.at
    ensures j < |init + [event]| && (init + [event])[j].id == id
  {
    if id == event.id {
      j := |init|;
    } else {
      j :| 0 <= j < |init| && init[j].id == id;
    }
  }

  lemma NewHolds(st: StoreState, after: StoreState, init: seq<RawEvent>, event: RawEvent)
    requires HoldsTheNew(st, init) && IsNew(init + [event], |init|)
    requires after.rawEvents == st.rawEvents.Set(event.id, event) && forall i :: 0 <= i < |init| ==> init[i].id != event.id
    ensures HoldsTheNew(after, init + [event])
  {
    var all := init + [event];
    forall j | 0 <= j < |all|
      ensures IsNew(all, j) <==> all[j].id in after.rawEvents.at
      ensures IsNew(all, j) ==> after.rawEvents.Get(all[j].id) == Some(all[j])
    {
      NewHoldsAt(st, after, init, event, j);
    }
    forall id | id in after.rawEvents.at ensures exists j :: 0 <= j < |all| && all[j].id == id {
      var j := NoOthersHeld(st, after, init, event, id);
    }
  }

  ghost predicate Mirrors(st: StoreState, events: seq<RawEvent>) {
    EventsLed(st) && LeadsToLatest(st, events) && HoldsTheNew(st, events)
  }

  lemma OneMoreMirrors(st: StoreState, init: seq<RawEvent>, event: RawEvent)
    requires Mirrors(st, init) && forall i :: 0 <= i < |init| ==> init[i].id != event.id
    ensures Mirrors(Ingested(st, event), init + [event])
  {
    OneMoreHolds(st, init, event);
    OneMoreLeads(st, init, event);
    if !IsDuplicate(st, event) {
      NewEventIsStored(st, event);
    }
  }

  lemma {:induction false} MirrorsAll(empty: StoreState, events: seq<RawEvent>)
    requires Mirrors(empty, []) && NewIds(events)
    ensures Mirrors(IngestedAll(empty, events), events)
    decreases |events|
  {
    if events != [] {
      var init, last := events[..|events| - 1], events[|events| - 1];
      assert events == init + [last];
      MirrorsAll(empty, init);
      OneMoreMirrors(IngestedAll(empty, init), init, last);
    }
  }

  /** From an empty store the stored events are exactly the new ones, whatever the ids. */
  lemma IngestStoresTheNew(events: seq<RawEvent>)
    requires NewIds(events)
    ensures Mirrors(IngestedAll(EMPTY_STATE, events), events)
  {
    MirrorsAll(EMPTY_STATE, events);
  }

  /*** When an event is stored twice ***/

  /** Between two events of one triple came one with the same text and another triple. */
  ghost predicate Sandwich(events: seq<RawEvent>, i: nat, k: nat, j: nat) {
    && i < k < j < |events| && SameTriple(events[i], events[j])
    && RawEventKey(events[k]) == RawEventKey(events[j]) && !SameTriple(events[k], events[j])
  }

  /** The place of the last event with this text. */
  lemma {:induction false} LatestPlace(events: seq<RawEvent>, key: string, i: nat) returns (m: nat)
    requires i < |events| && RawEventKey(events[i]) == key
    ensures i <= m < |events| && Latest(events, key) == Some(events[m]) && RawEventKey(events[m]) == key
  {
    m := |events| - 1;
    if RawEventKey(events[m]) != key {
      m := LatestPlace(events[..m], key, i);
    }
  }

  /** Some event with this triple, no later, is new. */
  lemma {:induction false} NewUpTo(events: seq<RawEvent>, i: nat) returns (f: nat)
    requires i < |events|
    ensures f <= i && SameTriple(events[f], events[i]) && IsNew(events, f)
    decreases i
  {
    f := i;
    if !IsNew(events, i) {
      var m := PlaceBefore(events, i);
      f := NewUpTo(events, m);
    }
  }

  /** An event that is not new has the triple of the last event with its text. */
  lemma PlaceBefore(events: seq<RawEvent>, i: nat) returns (m: nat)
    requires i < |events| && !IsNew(events, i)
    ensures m < i && SameTriple(events[m], events[i])
    ensures forall k :: m < k < i ==> RawEventKey(events[k]) != RawEventKey(events[i])
  {
    m := LastWith(events[..i], RawEventKey(events[i]));
    assert forall k :: 0 <= k < i ==> events[..i][k] == events[k];
  }

  lemma {:induction false} LastWith(events: seq<RawEvent>, key: string) returns (m: nat)
    requires Latest(events, key).Some?
    ensures m < |events| && Latest(events, key) == Some(events[m])
    ensures forall k :: m < k < |events| ==> RawEventKey(events[k]) != key
  {
    m := |events| - 1;
    if RawEventKey(events[m]) != key {
      m := LastWith(events[..|events| - 1], key);
    }
  }

  /** After another triple with the same text, the next event of this one is new. */
  lemma {:induction false} NewAfter(events: seq<RawEvent>, k: nat, j: nat) returns (f: nat)
    requires k < j < |events| && RawEventKey(events[k]) == RawEventKey(events[j]) && !SameTriple(events[k], events[j])
    ensures k < f <= j && SameTriple(events[f], events[j]) && IsNew(events, f)
    decreases j
  {
    f := j;
    if !IsNew(events, j) {
      var m := PlaceBefore(events, j);
      assert m > k;
      f := NewAfter(events, k, m);
    }
  }

  lemma TwoNewAreSandwiched(events: seq<RawEvent>, i: nat, j: nat) returns (k: nat)
    requires i < j < |events| && IsNew(events, j) && SameTriple(events[i], events[j])
    ensures Sandwich(events, i, k, j)
  {
    k := LatestPlace(events[..j], RawEventKey(events[j]), i);
  }

  ghost predicate StoresEachOnce(st: StoreState) {
    forall x, y :: x in st.rawEvents.Values() && y in st.rawEvents.Values() && SameTriple(x, y) ==> x == y
  }

  lemma NewIsStored(st: StoreState, events: seq<RawEvent>, j: nat)
    requires Mirrors(st, events) && j < |events| && IsNew(events, j)
    ensures events[j] in st.rawEvents.Values()
  {
    ValuesDistinct(st.rawEvents, IdOfRawEvent);
    assert st.rawEvents.Get(events[j].id) == Some(events[j]);
  }

  lemma SandwichHasTwoNew(events: seq<RawEvent>, i: nat, k: nat, j: nat) returns (f: nat, g: nat)
    requires Sandwich(events, i, k, j)
    ensures f < g < |events| && IsNew(events, f) && IsNew(events, g) && SameTriple(events[f], events[g])
  {
    f := NewUpTo(events, i);
    g := NewAfter(events, k, j);
  }

  lemma SandwichStoresTwice(st: StoreState, events: seq<RawEvent>, i: nat, k: nat, j: nat)
    requires Mirrors(st, events) && NewIds(events) && Sandwich(events, i, k, j)
    ensures !StoresEachOnce(st)
  {
    var f, g := SandwichHasTwoNew(events, i, k, j);
    NewIsStored(st, events, f);
    NewIsStored(st, events, g);
    TwoAreStored(st, events[f], events[g]);
  }

  lemma TwoAreStored(st: StoreState, x: RawEvent, y: RawEvent)
    requires x in st.rawEvents.Values() && y in st.rawEvents.Values() && SameTriple(x, y) && x.id != y.id
    ensures !StoresEachOnce(st)
  {
  }

  lemma StoredTwiceIsSandwiched(st: StoreState, events: seq<RawEvent>, x: RawEvent, y: RawEvent)
    requires Mirrors(st, events) && x in st.rawEvents.Values() && y in st.rawEvents.Values() && SameTriple(x, y) && x != y
    ensures exists i: nat, k: nat, j: nat :: Sandwich(events, i, k, j)
  {
    var i := PlaceOf(events, st, x);
    var j := PlaceOf(events, st, y);
    if i < j {
      var k := TwoNewAreSandwiched(events, i, j);
    } else {
      var k := TwoNewAreSandwiched(events, j, i);
    }
  }

  /**
   Deduplication over whole series, exactly: no two stored events have the same three parts if and only if
   no event comes again after another one with the same text but of another organization or connection.
   */
  lemma StoredOnceIff(events: seq<RawEvent>)
    requires NewIds(events)
    ensures StoresEachOnce(IngestedAll(EMPTY_STATE, events)) <==> !exists i: nat, k: nat, j: nat :: Sandwich(events, i, k, j)
  {
    IngestStoresTheNew(events);
    OnceUnlessSandwiched(IngestedAll(EMPTY_STATE, events), events);
  }

  lemma OnceUnlessSandwiched(st: StoreState, events: seq<RawEvent>)
    requires Mirrors(st, events) && NewIds(events)
    ensures StoresEachOnce(st) <==> !exists i: nat, k: nat, j: nat :: Sandwich(events, i, k, j)
  {
    if i: nat, k: nat, j: nat :| Sandwich(events, i, k, j) {
      SandwichStoresTwice(st, events, i, k, j);
    }
    if !StoresEachOnce(st) {
      var x, y :| x in st.rawEvents.Values() && y in st.rawEvents.Values() && SameTriple(x, y) && x != y;
      StoredTwiceIsSandwiched(st, events, x, y);
    }
  }

  lemma PlaceOf(events: seq<RawEvent>, st: StoreState, x: RawEvent) returns (j: nat)
    requires Mirrors(st, events) && x in st.rawEvents.Values()
    ensures j < |events| && events[j] == x && IsNew(events, j)
  {
    ValuesDistinct(st.rawEvents, IdOfRawEvent);
    j :| 0 <= j < |events| && events[j].id == x.id;
  }

  /** With no "|" in organizations and connections, every event is stored once, however often it is sent. */
  lemma CleanEventsAreStoredOnce(events: seq<RawEvent>, x: RawEvent, y: RawEvent)
    requires NewIds(events) && forall i :: 0 <= i < |events| ==> CleanEvent(events[i])
    requires x in IngestedAll(EMPTY_STATE, events).rawEvents.Values() && y in IngestedAll(EMPTY_STATE, events).rawEvents.Values()
    requires SameTriple(x, y)
    ensures x == y
  {
    StoredOnceIff(events);
    forall i: nat, k: nat, j: nat ensures !Sandwich(events, i, k, j) {
      if Sandwich(events, i, k, j) {
        TriggerIsPipeFree();
        KeyMaterialInjective(events[k].organizationId, events[k].connectionId, "raw_event", events[k].eventId,
                             events[j].organizationId, events[j].connectionId, "raw_event", events[j].eventId);
      }
    }
  }

  /**
   How an event is dropped: two series look up their events before either creates its own. For any two
   connections there are two such events, and the second is then taken for the first.
   */
  lemma InterleavedEventIsDropped(o: string, c: string, c': string, e: string, first: RawEvent, second: RawEvent)
    requires first.organizationId == o && first.connectionId == c && first.eventId == c' + "|raw_event|" + e
    requires second.organizationId == o + "|" + c + "|raw_event" && second.connectionId == c' && second.eventId == e
    requires first.id != second.id
    ensures
      var looked := Step(EMPTY_STATE, FindRawEventByEventId(first.organizationId, first.connectionId, first.eventId));
      var both := Step(looked, FindRawEventByEventId(second.organizationId, second.connectionId, second.eventId));
      var created := Step(both, CreateRawEvent(first));
      && !SameTriple(first, second) && DuplicateOf(created, second) == Some(first) && Step(created, CreateRawEvent(second)) == created
  {
    TwoEventsOneText(o, c, c', e);
    assert |second.organizationId| > |first.organizationId|;
    CreatedWithoutEntry(EMPTY_STATE, first);
  }

  /** The failing run: an event, one that collides with it, and the event again. All three are stored. */
  lemma ResentEventIsStoredTwice(o: string, c: string, c': string, e: string, first: RawEvent, second: RawEvent, again: RawEvent)
    requires first.organizationId == o && first.connectionId == c && first.eventId == c' + "|raw_event|" + e
    requires second.organizationId == o + "|" + c + "|raw_event" && second.connectionId == c' && second.eventId == e
    requires SameTriple(again, first) && first.id != second.id && first.id != again.id && second.id != again.id
    ensures var one := Ingested(EMPTY_STATE, first);
            var two := Ingested(one, second);
            var three := Ingested(two, again);
            && !IsDuplicate(EMPTY_STATE, first) && !IsDuplicate(one, second) && !IsDuplicate(two, again)
            && !Findable(two, first)
            && three.rawEvents.Get(first.id) == Some(first) && three.rawEvents.Get(again.id) == Some(again)
  {
    TwoEventsOneText(o, c, c', e);
    assert |second.organizationId| > |first.organizationId|;
    var one := Ingested(EMPTY_STATE, first);
    NewEventIsStored(EMPTY_STATE, first);
    NewEventIsStored(one, second);
    NewEventIsStored(Ingested(one, second), again);
  }
}
