/**
 The database-backed store: the in-memory store with each mutating method overridden to schedule
 writes. It holds the in-memory store as a part, where the original inherits from it.
 */
module PersistentStore {
  import opened Wrappers
  import opened InsertionMap
  import opened ConnectorTypes
  import opened ConnectorStore
  import opened StoreInvariant
  import opened Persistence
  import opened InMemoryStore

  /** `map.clear()` and a loop of `map.set(keyOf(value), value)`. */
  method RefillByKey<V>(values: seq<V>, key: V -> string) returns (m: OrderedMap<string, V>)
    ensures m == SetAll(Empty(), values, key)
  {
    m := Empty();
    for i := 0 to |values|
      invariant m == SetAll(Empty(), values[..i], key)
    {
      SetAllStep(Empty(), values[..i], values[i], key);
      assert values[..i + 1] == values[..i] + [values[i]];
      m := m.Set(key(values[i]), values[i]);
    }
    assert values[..|values|] == values;
  }

  /** The same for a list of entries. */
  method RefillEntries(entries: seq<(string, string)>) returns (m: OrderedMap<string, string>)
    ensures m == SetEntries(Empty(), entries)
  {
    m := Empty();
    for i := 0 to |entries|
      invariant m == SetEntries(Empty(), entries[..i])
    {
      assert entries[..i + 1][..i] == entries[..i];
      m := m.Set(entries[i].0, entries[i].1);
    }
    assert entries[..|entries|] == entries;
  }

  class PostgresBackedConnectorStore {
    const mem: InMemoryConnectorStore
    var queue: seq<Job>
    var write: Write
    var row: Option<Snapshot>
    var secretRows: map<string, SecretRecord>
    ghost var snapshotFailed: bool
    ghost var secretLost: bool

    ghost function Sys(): System
      reads this, mem
    {
      System(mem.State(), queue, write, row, secretRows, snapshotFailed, secretLost)
    }

    /** A runtime that starts on the given database tables, once `ready()` has resolved. */
    constructor (row: Option<Snapshot>, secretRows: map<string, SecretRecord>)
      ensures fresh(mem)
      ensures Sys() == System(Initialized(row, secretRows), [], Idle, row, secretRows, false, false)
    {
      mem := new InMemoryConnectorStore();
      queue, write := [], Idle;
      this.row, this.secretRows := row, secretRows;
      snapshotFailed, secretLost := false, false;
      new;
      if row.Some? {
        Hydrate(row.value);
        mem.secretsByRef := map ref | ref in secretRows && ref != "" :: secretRows[ref];
      }
    }

    /** The first half of `hydrate`. */
    method HydrateSyncs(s: Snapshot)
      modifies mem`connections, mem`runs, mem`syncStates, mem`syncReplayIndex
      ensures mem.connections == SetAll(Empty(), s.connections, IdOfConnection) && mem.runs == SetAll(Empty(), s.runs, IdOfRun)
      ensures mem.syncStates == SetAll(Empty(), s.syncStates, KeyOfSyncState)
      ensures mem.syncReplayIndex == SetEntries(Empty(), s.syncReplayIndex)
    {
      mem.connections := RefillByKey(s.connections, IdOfConnection);
      mem.runs := RefillByKey(s.runs, IdOfRun);
      mem.syncStates := RefillByKey(s.syncStates, KeyOfSyncState);
      mem.syncReplayIndex := RefillEntries(s.syncReplayIndex);
    }

    /** The second half. */
    method HydrateAccess(s: Snapshot)
      modifies mem`latestSecretRefByConnection, mem`authorizationSessions, mem`auditEvents, mem`ingestCredentials, mem`rawEvents,
               mem`rawEventIndex
      ensures mem.latestSecretRefByConnection == SetEntries(Empty(), s.latestSecretRefs)
      ensures mem.authorizationSessions == SetAll(Empty(), s.authorizationSessions, KeyOfSession) && mem.auditEvents == s.auditEvents
      ensures mem.ingestCredentials == SetAll(Empty(), s.ingestCredentials, IdOfCredential)
      ensures mem.rawEvents == SetAll(Empty(), s.rawEvents, IdOfRawEvent) && mem.rawEventIndex == SetEntries(Empty(), s.rawEventIndex)
    {
      mem.latestSecretRefByConnection := RefillEntries(s.latestSecretRefs);
      mem.authorizationSessions := RefillByKey(s.authorizationSessions, KeyOfSession);
      mem.auditEvents := s.auditEvents;
      mem.ingestCredentials := RefillByKey(s.ingestCredentials, IdOfCredential);
      mem.rawEvents := RefillByKey(s.rawEvents, IdOfRawEvent);
      mem.rawEventIndex := RefillEntries(s.rawEventIndex);
    }

    method Hydrate(s: Snapshot)
      modifies mem
      ensures mem.State() == Hydrated(s, old(mem.secretsByRef))
    {
      HydrateSyncs(s);
      HydrateAccess(s);
    }

    method ScheduleFlush()
      modifies this`queue
      ensures queue == old(queue) + [FlushSnapshot]
    {
      queue := queue + [FlushSnapshot];
    }

    method ScheduleFlushes(claimed: nat)
      modifies this`queue
      ensures queue == old(queue) + FlushesOfClaim(claimed)
    {
      if claimed > 0 {
        for i := 0 to claimed
          invariant queue == old(queue) + Flushes(i)
        {
          ScheduleFlush();
        }
        ScheduleFlush();
      }
    }

    /** The head of the promise chain starts to run. */
    method StartJob()
      requires write.Idle? && queue != []
      modifies this`queue, this`write
      ensures Sys() == Started(old(Sys()))
    {
      var job := queue[0];
      queue := queue[1..];
      match job {
        case FlushSnapshot =>
          write := WritingSnapshot(
            Snapshot(mem.auditEvents, mem.authorizationSessions.Values(), mem.connections.Values(), mem.ingestCredentials.Values(),
                     mem.latestSecretRefByConnection.Entries(), mem.rawEventIndex.Entries(), mem.rawEvents.Values(),
                     mem.runs.Values(), mem.syncStates.Values(), mem.syncReplayIndex.Entries()));
        case WriteSecret(secret) =>
          write := WritingSecret(secret);
      }
    }

    /** The database answers; a failure is swallowed by the `catch` in front of the next job. */
    method FinishJob(ok: bool)
      requires !write.Idle?
      modifies this`write, this`row, this`secretRows, this`snapshotFailed, this`secretLost
      ensures Sys() == Finished(old(Sys()), ok)
    {
      match write {
        case WritingSnapshot(payload) =>
          if ok { row := Some(payload); }
          snapshotFailed := !ok;
        case WritingSecret(secret) =>
          if ok { secretRows := secretRows[secret.secretRef := secret]; }
          secretLost := secretLost || !ok;
      }
      write := Idle;
    }

    method CreateConnection(organizationId: string, input: ConnectionInput, catalog: Catalog, newId: string, now: Millis)
      returns (connection: Connection)
      modifies mem, this`queue
      ensures Sys() == Called(old(Sys()), Operation.CreateConnection(connection))
      ensures connection == Connection(newId, organizationId, now, now, NewDetails(input, catalog))
    {
      connection := mem.CreateConnection(organizationId, input, catalog, newId, now);
      ScheduleFlush();
    }

    method UpdateConnection(organizationId: string, connectionId: string, patch: ConnectionDetails -> ConnectionDetails, now: Millis)
      returns (updated: Option<Connection>)
      modifies mem, this`queue
      ensures Sys() == Called(old(Sys()), Operation.UpdateConnection(organizationId, connectionId, patch, now))
      ensures updated == UpdatedConnection(old(mem.State()), organizationId, connectionId, patch, now)
    {
      updated := mem.UpdateConnection(organizationId, connectionId, patch, now);
      if updated.Some? { ScheduleFlush(); }
    }

    method PutSecret(secret: SecretRecord)
      modifies mem, this`queue
      ensures Sys() == Called(old(Sys()), Operation.PutSecret(secret))
    {
      mem.PutSecret(secret);
      queue := queue + [WriteSecret(secret)];
      ScheduleFlush();
    }

    method CreateAuthorizationSession(session: AuthorizationSession)
      modifies mem, this`queue
      ensures Sys() == Called(old(Sys()), Operation.CreateAuthorizationSession(session))
    {
      mem.CreateAuthorizationSession(session);
      ScheduleFlush();
    }

    method DeleteAuthorizationSession(connectionId: string)
      modifies mem, this`queue
      ensures Sys() == Called(old(Sys()), Operation.DeleteAuthorizationSession(connectionId))
    {
      mem.DeleteAuthorizationSession(connectionId);
      ScheduleFlush();
    }

    method CreateAuditEvent(event: AuditEvent) returns (created: AuditEvent)
      modifies mem, this`queue
      ensures Sys() == Called(old(Sys()), Operation.CreateAuditEvent(event)) && created == event
    {
      created := mem.CreateAuditEvent(event);
      ScheduleFlush();
    }

    method CreateIngestCredential(organizationId: string, connectionId: string, input: CredentialInput, newId: string, now: Millis)
      returns (credential: IngestCredential)
      modifies mem, this`queue
      ensures Sys() == Called(old(Sys()), Operation.CreateIngestCredential(credential))
      ensures credential.id == newId && credential.organizationId == organizationId && credential.connectionId == connectionId
      ensures credential.createdAt == credential.updatedAt == now
      ensures credential.details.lastUsedAt == credential.details.revokedAt == None && InputOf(credential.details) == input
    {
      credential := mem.CreateIngestCredential(organizationId, connectionId, input, newId, now);
      ScheduleFlush();
    }

    method UpdateIngestCredential(organizationId: string, connectionId: string, id: string,
                                  patch: CredentialDetails -> CredentialDetails, now: Millis)
      returns (updated: Option<IngestCredential>)
      modifies mem, this`queue
      ensures Sys() == Called(old(Sys()), Operation.UpdateIngestCredential(organizationId, connectionId, id, patch, now))
      ensures updated == UpdatedCredential(old(mem.State()), organizationId, connectionId, id, patch, now)
    {
      updated := mem.UpdateIngestCredential(organizationId, connectionId, id, patch, now);
      if updated.Some? { ScheduleFlush(); }
    }

    method CreateRawEvent(event: RawEvent) returns (created: bool, stored: RawEvent)
      modifies mem, this`queue
      ensures Sys() == Called(old(Sys()), Operation.CreateRawEvent(event))
      ensures created == DuplicateOf(old(mem.State()), event).None?
      ensures stored == DuplicateOf(old(mem.State()), event).GetOr(event)
    {
      created, stored := mem.CreateRawEvent(event);
      if created { ScheduleFlush(); }
    }

    /** Inherited: a lookup schedules nothing, even when it drops a stale index entry. */
    method FindRawEventByEventId(organizationId: string, connectionId: string, eventId: string) returns (found: Option<RawEvent>)
      modifies mem
      ensures Sys() == Called(old(Sys()), Operation.FindRawEventByEventId(organizationId, connectionId, eventId))
      ensures found == IndexedRawEvent(old(mem.State()), organizationId, connectionId, eventId)
    {
      found := mem.FindRawEventByEventId(organizationId, connectionId, eventId);
    }

    method UpdateRawEvent(organizationId: string, connectionId: string, id: string, patch: RawEvent -> RawEvent)
      returns (updated: Option<RawEvent>)
      modifies mem, this`queue
      ensures Sys() == Called(old(Sys()), Operation.UpdateRawEvent(organizationId, connectionId, id, patch))
      ensures
        updated == match OwnRawEvent(old(mem.State()), organizationId, connectionId, id) case None => None case Some(e) => Some(patch(e))
    {
      updated := mem.UpdateRawEvent(organizationId, connectionId, id, patch);
      if updated.Some? { ScheduleFlush(); }
    }

    method ClaimRawEvents(claim: RawClaim) returns (batch: seq<RawEvent>)
      requires KeyedBy(mem.rawEvents, IdOfRawEvent)
      modifies mem, this`queue
      ensures Sys() == Called(old(Sys()), Operation.ClaimRawEvents(claim))
      ensures batch == RawBatch(old(mem.rawEvents), claim)
    {
      batch := mem.ClaimRawEvents(claim);
      ScheduleFlushes(|batch|);
      JobsOfRawClaim(old(mem.State()), claim);
    }

    method CreateSyncRun(organizationId: string, connectionId: string, triggerType: string, idempotencyKey: string,
                         patch: SyncRun -> SyncRun, newId: string, now: Millis) returns (created: bool, run: SyncRun)
      requires KeepsRunIdentity(patch)
      modifies mem, this`queue
      ensures
        var newRun := patch(NewRun(newId, organizationId, connectionId, triggerType, idempotencyKey, now));
        && Sys() == Called(old(Sys()), Operation.CreateSyncRun(newRun))
        && created == IndexedRun(old(mem.State()), organizationId, connectionId, triggerType, idempotencyKey).None?
        && run == IndexedRun(old(mem.State()), organizationId, connectionId, triggerType, idempotencyKey).GetOr(newRun)
    {
      assert SameRunIdentity(NewRun(newId, organizationId, connectionId, triggerType, idempotencyKey, now),
                             patch(NewRun(newId, organizationId, connectionId, triggerType, idempotencyKey, now)));
      created, run := mem.CreateSyncRun(organizationId, connectionId, triggerType, idempotencyKey, patch, newId, now);
      if created { ScheduleFlush(); }
    }

    method FindSyncRunByIdempotency(organizationId: string, connectionId: string, triggerType: string, idempotencyKey: string)
      returns (found: Option<SyncRun>)
      modifies mem
      ensures Sys() == Called(old(Sys()), Operation.FindSyncRunByIdempotency(organizationId, connectionId, triggerType, idempotencyKey))
      ensures found == IndexedRun(old(mem.State()), organizationId, connectionId, triggerType, idempotencyKey)
    {
      found := mem.FindSyncRunByIdempotency(organizationId, connectionId, triggerType, idempotencyKey);
    }

    method UpdateSyncRun(organizationId: string, runId: string, patch: RunUpdate) returns (updated: Option<SyncRun>)
      modifies mem, this`queue
      ensures Sys() == Called(old(Sys()), Operation.UpdateSyncRun(organizationId, runId, patch))
      ensures updated == UpdatedRun(old(mem.State()), organizationId, runId, patch)
    {
      updated := mem.UpdateSyncRun(organizationId, runId, patch);
      if updated.Some? { ScheduleFlush(); }
    }

    method ClaimSyncRuns(claim: Claim) returns (batch: seq<SyncRun>)
      requires KeyedBy(mem.runs, IdOfRun)
      modifies mem, this`queue
      ensures Sys() == Called(old(Sys()), Operation.ClaimSyncRuns(claim))
      ensures batch == ClaimBatch(old(mem.runs), claim)
    {
      batch := mem.ClaimSyncRuns(claim);
      ScheduleFlushes(|batch|);
      JobsOfSyncClaim(old(mem.State()), claim);
    }

    method UpsertSyncState(organizationId: string, connectionId: string, sourceObject: string, patch: SyncStateUpdate, now: Millis)
      returns (next: SyncState)
      modifies mem, this`queue
      ensures Sys() == Called(old(Sys()), Operation.UpsertSyncState(organizationId, connectionId, sourceObject, patch, now))
      ensures next == UpsertedSyncState(old(mem.State()), organizationId, connectionId, sourceObject, patch, now)
    {
      next := mem.UpsertSyncState(organizationId, connectionId, sourceObject, patch, now);
      ScheduleFlush();
    }
  }
}
