/** The loop of the service that stores incoming raw events; the payload store and the preview are left out. */
module RawIngest {
  import opened Wrappers
  import opened ConnectorTypes
  import opened ConnectorStore
  import opened InMemoryStore
  import opened RawIngestLaws

  /** The events of a series that are not duplicates when their turn comes. */
  function AcceptedOf(st: StoreState, events: seq<RawEvent>): (accepted: seq<RawEvent>)
    ensures |accepted| <= |events|
    decreases |events|
  {
    if events == [] then []
    else
      var init, last := events[..|events| - 1], events[|events| - 1];
      AcceptedOf(st, init) + if IsDuplicate(IngestedAll(st, init), last) then [] else [last]
  }

  lemma LookedUpInVain(st: StoreState, event: RawEvent)
    requires !IsDuplicate(st, event)
    ensures DuplicateOf(AfterFindRawEvent(st, event.organizationId, event.connectionId, event.eventId), event) == None
  {
  }

  /** `persistRawEvents`, with nothing else running meanwhile. */
  method PersistRawEvents(store: InMemoryConnectorStore, events: seq<RawEvent>) returns (accepted: seq<RawEvent>, duplicates: nat)
    modifies store
    ensures store.State() == IngestedAll(old(store.State()), events)
    ensures accepted == AcceptedOf(old(store.State()), events) && duplicates == |events| - |accepted|
  {
    accepted, duplicates := [], 0;
    for i := 0 to |events|
      invariant store.State() == IngestedAll(old(store.State()), events[..i])
      invariant accepted == AcceptedOf(old(store.State()), events[..i]) && duplicates == i - |accepted|
    {
      assert events[..i + 1][..i] == events[..i];
      var isNew := PersistRawEvent(store, events[i]);
      if isNew {
        accepted := accepted + [events[i]];
      } else {
        duplicates := duplicates + 1;
      }
    }
    assert events[..|events|] == events;
  }

  /** One round of the loop. */
  method PersistRawEvent(store: InMemoryConnectorStore, event: RawEvent) returns (isNew: bool)
    modifies store
    ensures store.State() == Ingested(old(store.State()), event) && isNew == !IsDuplicate(old(store.State()), event)
  {
    var found := store.FindRawEventByEventId(event.organizationId, event.connectionId, event.eventId);
    if found.Some? {
      return false;
    }
    LookedUpInVain(old(store.State()), event);
    IngestedInTwoSteps(old(store.State()), event);
    var created, stored := store.CreateRawEvent(event);
    isNew := created;
  }

  /** From an empty store the accepted events are the new ones, in order. */
  lemma {:induction false} AcceptedAreNew(events: seq<RawEvent>, j: nat)
    requires NewIds(events) && j < |events|
    ensures events[j] in AcceptedOf(EMPTY_STATE, events) <==> IsNew(events, j)
    decreases |events|
  {
    var init, last := events[..|events| - 1], events[|events| - 1];
    IngestStoresTheNew(init);
    DuplicateIffNotNew(IngestedAll(EMPTY_STATE, init), init, last);
    assert events == init + [last];
    if j < |init| {
      AcceptedAreNew(init, j);
      NewInPrefix(events, |init|, j);
      assert events[j].id != last.id;
    } else {
      AcceptedComeFrom(EMPTY_STATE, init, last);
    }
  }

  lemma {:induction false} AcceptedComeFrom(st: StoreState, events: seq<RawEvent>, x: RawEvent)
    ensures x in AcceptedOf(st, events) ==> x in events
    decreases |events|
  {
    if events != [] {
      AcceptedComeFrom(st, events[..|events| - 1], x);
      assert events == events[..|events| - 1] + [events[|events| - 1]];
    }
  }
}
