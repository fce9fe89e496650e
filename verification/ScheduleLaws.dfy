/** How many database writes each call schedules, in terms of what it answered. */
module ScheduleLaws {
  import opened Wrappers
  import opened ConnectorTypes
  import opened ConnectorStore
  import opened Persistence

  /** The number of snapshot writes among some jobs. */
  function CountFlushes(jobs: seq<Job>): nat {
    if jobs == [] then 0 else CountFlushes(jobs[..|jobs| - 1]) + if jobs[|jobs| - 1] == FlushSnapshot then 1 else 0
  }

  lemma {:induction false} CountOfFlushes(n: nat)
    ensures CountFlushes(Flushes(n)) == n && |Flushes(n)| == n
  {
    if n > 0 {
      CountOfFlushes(n - 1);
      assert Flushes(n)[..n - 1] == Flushes(n - 1);
    }
  }

  lemma ClaimCounts(claimed: nat)
    ensures var jobs := FlushesOfClaim(claimed);
            CountFlushes(jobs) == |jobs| == if claimed == 0 then 0 else claimed + 1
  {
    CountOfFlushes(if claimed == 0 then 0 else claimed + 1);
  }

  /** A claim flushes once for each row it hands out and once more, and not at all when it hands out none. */
  lemma SyncClaimFlushes(st: StoreState, claim: Claim)
    ensures var jobs, n := JobsOf(st, ClaimSyncRuns(claim)), |ClaimBatch(st.runs, claim)|;
            CountFlushes(jobs) == |jobs| == if n == 0 then 0 else n + 1
  {
    JobsOfSyncClaim(st, claim);
    ClaimCounts(|ClaimBatch(st.runs, claim)|);
  }

  lemma RawClaimFlushes(st: StoreState, claim: RawClaim)
    ensures var jobs, n := JobsOf(st, ClaimRawEvents(claim)), |RawBatch(st.rawEvents, claim)|;
            CountFlushes(jobs) == |jobs| == if n == 0 then 0 else n + 1
  {
    JobsOfRawClaim(st, claim);
    ClaimCounts(|RawBatch(st.rawEvents, claim)|);
  }

  /** Creations flush when they file a row, updates when there is a row of the right owner; lookups never do. */
  lemma OneFlushWhenChanged(st: StoreState, o: string, c: string, id: string, run: SyncRun, event: RawEvent, update: RunUpdate,
                            patch: RawEvent -> RawEvent)
    ensures JobsOf(st, CreateSyncRun(run))
         == if exists r :: IndexedRun(st, run.organizationId, run.connectionId, run.triggerType, run.idempotencyKey) == Some(r) then [] else [FlushSnapshot]
    ensures JobsOf(st, CreateRawEvent(event)) == if exists e :: DuplicateOf(st, event) == Some(e) then [] else [FlushSnapshot]
    ensures JobsOf(st, UpdateSyncRun(o, id, update)) == if id in st.runs.at && st.runs.at[id].organizationId == o then [FlushSnapshot] else []
    ensures JobsOf(st, UpdateRawEvent(o, c, id, patch))
         == if id in st.rawEvents.at && st.rawEvents.at[id].organizationId == o && st.rawEvents.at[id].connectionId == c
            then [FlushSnapshot] else []
  {
    var found := IndexedRun(st, run.organizationId, run.connectionId, run.triggerType, run.idempotencyKey);
    assert found.Some? ==> found == Some(found.value);
    var duplicate := DuplicateOf(st, event);
    assert duplicate.Some? ==> duplicate == Some(duplicate.value);
  }
}
