/**
 The two lookups by key may delete an index entry, and schedule no write. When memory and the stored
 snapshot come apart because of that.
 */
module UnflushedLookups {
  import opened Wrappers
  import opened InsertionMap
  import opened ConnectorTypes
  import opened ConnectorStore
  import opened Persistence
  import opened RawIngestLaws

  /** The index entry of this text leads to no run of this organization, connection and trigger. */
  predicate MeetsAnotherRun(st: StoreState, o: string, c: string, t: string, k: string) {
    KeyMaterial(o, c, t, k) in st.syncReplayIndex.at && IndexedRun(st, o, c, t, k) == None
  }

  lemma DeletedDiffers(m: OrderedMap<string, string>, k: string)
    requires m.Valid() && k in m.at
    ensures m.Delete(k).Entries() != m.Entries()
  {
    DeleteValid(m, k);
    EntriesRebuild(m);
    EntriesRebuild(m.Delete(k));
    assert k !in m.Delete(k).at;
  }

  lemma RawLookupSnapshot(st: StoreState, o: string, c: string, e: string)
    requires EventsLed(st)
    ensures TakeSnapshot(AfterFindRawEvent(st, o, c, e)) == TakeSnapshot(st) <==> !MeetsAnother(st, o, c, e)
  {
    var key := KeyMaterial(o, c, "raw_event", e);
    if MeetsAnother(st, o, c, e) {
      DeletedDiffers(st.rawEventIndex, key);
      assert TakeSnapshot(AfterFindRawEvent(st, o, c, e)).rawEventIndex == st.rawEventIndex.Delete(key).Entries();
    } else {
      assert AfterFindRawEvent(st, o, c, e) == st;
    }
  }

  lemma RunLookupSnapshot(st: StoreState, o: string, c: string, t: string, k: string)
    requires st.syncReplayIndex.Valid()
    ensures TakeSnapshot(AfterFindRun(st, o, c, t, k)) == TakeSnapshot(st) <==> !MeetsAnotherRun(st, o, c, t, k)
  {
    var key := KeyMaterial(o, c, t, k);
    if MeetsAnotherRun(st, o, c, t, k) {
      DeletedDiffers(st.syncReplayIndex, key);
      assert TakeSnapshot(AfterFindRun(st, o, c, t, k)).syncReplayIndex == st.syncReplayIndex.Delete(key).Entries();
    } else {
      assert AfterFindRun(st, o, c, t, k) == st;
    }
  }

  lemma RawLookupSchedulesNothing(sys: System, o: string, c: string, e: string)
    ensures Called(sys, FindRawEventByEventId(o, c, e)) == sys.(mem := AfterFindRawEvent(sys.mem, o, c, e))
  {
    assert JobsOf(sys.mem, FindRawEventByEventId(o, c, e)) == [] && sys.queue + [] == sys.queue;
    assert Step(sys.mem, FindRawEventByEventId(o, c, e)) == AfterFindRawEvent(sys.mem, o, c, e);
  }

  lemma RunLookupSchedulesNothing(sys: System, o: string, c: string, t: string, k: string)
    ensures Called(sys, FindSyncRunByIdempotency(o, c, t, k)) == sys.(mem := AfterFindRun(sys.mem, o, c, t, k))
  {
    assert JobsOf(sys.mem, FindSyncRunByIdempotency(o, c, t, k)) == [] && sys.queue + [] == sys.queue;
    assert Step(sys.mem, FindSyncRunByIdempotency(o, c, t, k)) == AfterFindRun(sys.mem, o, c, t, k);
  }

  /**
   With nothing pending and memory stored, a lookup of a raw event leaves the stored snapshot unlike memory,
   and no write under way, exactly when it meets an event of another organization or connection.
   */
  lemma RawLookupStaysStoredIff(sys: System, o: string, c: string, e: string)
    requires EventsLed(sys.mem) && sys.queue == [] && sys.write.Idle? && RowHolds(sys.row, TakeSnapshot(sys.mem))
    ensures var after := Called(sys, FindRawEventByEventId(o, c, e));
            && after.queue == [] && after.write.Idle? && after.row == sys.row
            && (RowHolds(after.row, TakeSnapshot(after.mem)) <==> !MeetsAnother(sys.mem, o, c, e))
  {
    RawLookupSchedulesNothing(sys, o, c, e);
    RawLookupSnapshot(sys.mem, o, c, e);
  }

  /** The same for a lookup of a sync run. */
  lemma RunLookupStaysStoredIff(sys: System, o: string, c: string, t: string, k: string)
    requires sys.mem.syncReplayIndex.Valid() && sys.queue == [] && sys.write.Idle? && RowHolds(sys.row, TakeSnapshot(sys.mem))
    ensures var after := Called(sys, FindSyncRunByIdempotency(o, c, t, k));
            && after.queue == [] && after.write.Idle? && after.row == sys.row
            && (RowHolds(after.row, TakeSnapshot(after.mem)) <==> !MeetsAnotherRun(sys.mem, o, c, t, k))
  {
    RunLookupSchedulesNothing(sys, o, c, t, k);
    RunLookupSnapshot(sys.mem, o, c, t, k);
  }
}
