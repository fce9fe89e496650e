/**
 Write-behind persistence: memory, a queue of database writes, the write that is under way, and the
 two database tables. The laws say what a restart would find.
 */
module Persistence {
  import opened Wrappers
  import opened InsertionMap
  import opened ConnectorTypes
  import opened ConnectorStore
  import opened StoreInvariant
  import opened IdempotencyLaws
  import opened RawEventLaws

  datatype Snapshot = Snapshot(
    auditEvents: seq<AuditEvent>,
    authorizationSessions: seq<AuthorizationSession>,
    connections: seq<Connection>,
    ingestCredentials: seq<IngestCredential>,
    latestSecretRefs: seq<(string, string)>,
    rawEventIndex: seq<(string, string)>,
    rawEvents: seq<RawEvent>,
    runs: seq<SyncRun>,
    syncStates: seq<SyncState>,
    syncReplayIndex: seq<(string, string)>)

  function TakeSnapshot(st: StoreState): Snapshot {
    Snapshot(st.auditEvents, st.authorizationSessions.Values(), st.connections.Values(), st.ingestCredentials.Values(),
             st.latestSecretRefByConnection.Entries(), st.rawEventIndex.Entries(), st.rawEvents.Values(), st.runs.Values(),
             st.syncStates.Values(), st.syncReplayIndex.Entries())
  }

  /** Memory refilled from a snapshot; the secrets are loaded separately. */
  function Hydrated(s: Snapshot, secrets: map<string, SecretRecord>): StoreState {
    StoreState(SetAll(Empty(), s.connections, IdOfConnection),
               SetAll(Empty(), s.runs, IdOfRun),
               SetAll(Empty(), s.syncStates, KeyOfSyncState),
               SetEntries(Empty(), s.syncReplayIndex),
               secrets,
               SetEntries(Empty(), s.latestSecretRefs),
               SetAll(Empty(), s.authorizationSessions, KeyOfSession),
               s.auditEvents,
               SetAll(Empty(), s.ingestCredentials, IdOfCredential),
               SetAll(Empty(), s.rawEvents, IdOfRawEvent),
               SetEntries(Empty(), s.rawEventIndex))
  }

  /** Round trip: a keyed store is rebuilt from its snapshot, the order of every map included. */
  lemma SnapshotRebuilds(st: StoreState)
    requires Keyed(st)
    ensures Hydrated(TakeSnapshot(st), st.secretsByRef) == st
  {
    ValuesRebuild(st.connections, IdOfConnection);
    ValuesRebuild(st.runs, IdOfRun);
    ValuesRebuild(st.syncStates, KeyOfSyncState);
    EntriesRebuild(st.syncReplayIndex);
    EntriesRebuild(st.latestSecretRefByConnection);
    ValuesRebuild(st.authorizationSessions, KeyOfSession);
    ValuesRebuild(st.ingestCredentials, IdOfCredential);
    ValuesRebuild(st.rawEvents, IdOfRawEvent);
    EntriesRebuild(st.rawEventIndex);
  }

  datatype Job = FlushSnapshot | WriteSecret(secret: SecretRecord)

  datatype Write = Idle | WritingSnapshot(payload: Snapshot) | WritingSecret(secret: SecretRecord)

  /**
   `snapshotFailed`: the latest snapshot write to finish has failed. `secretLost`: some secret write has failed.
   */
  datatype System = System(
    mem: StoreState,
    queue: seq<Job>,
    write: Write,
    row: Option<Snapshot>,
    secretRows: map<string, SecretRecord>,
    snapshotFailed: bool,
    secretLost: bool)

  /** What `initialize` rebuilds: nothing at all without a snapshot row, and no secret with an empty reference. */
  function Initialized(row: Option<Snapshot>, secretRows: map<string, SecretRecord>): StoreState {
    match row
    case None => EMPTY_STATE
    case Some(s) => Hydrated(s, map ref | ref in secretRows && ref != "" :: secretRows[ref])
  }

  function Flushes(n: nat): seq<Job> {
    if n == 0 then [] else Flushes(n - 1) + [FlushSnapshot]
  }

  /** Each claimed row is an update that schedules a flush of its own, and the claim schedules one more. */
  function FlushesOfClaim(claimed: nat): seq<Job> {
    if claimed == 0 then [] else Flushes(claimed + 1)
  }

  /** The database writes an operation puts in the queue. */
  function JobsOf(st: StoreState, op: Operation): seq<Job> {
    match op
    case PutSecret(s) => [WriteSecret(s), FlushSnapshot]
    case UpdateConnection(o, c, changes, now) => if UpdatedConnection(st, o, c, changes, now).Some? then [FlushSnapshot] else []
    case UpdateIngestCredential(o, c, id, changes, now) =>
      if UpdatedCredential(st, o, c, id, changes, now).Some? then [FlushSnapshot] else []
    case CreateRawEvent(e) => if DuplicateOf(st, e).None? then [FlushSnapshot] else []
    case UpdateRawEvent(o, c, id, patch) => if OwnRawEvent(st, o, c, id).Some? then [FlushSnapshot] else []
    case ClaimRawEvents(claim) => FlushesOfClaim(|RawBatch(st.rawEvents, claim)|)
    case CreateSyncRun(run) =>
      if IndexedRun(st, run.organizationId, run.connectionId, run.triggerType, run.idempotencyKey).None? then [FlushSnapshot] else []
    case UpdateSyncRun(o, id, update) => if UpdatedRun(st, o, id, update).Some? then [FlushSnapshot] else []
    case ClaimSyncRuns(claim) => FlushesOfClaim(|ClaimBatch(st.runs, claim)|)
    case FindRawEventByEventId(_, _, _) => []
    case FindSyncRunByIdempotency(_, _, _, _) => []
    case _ => [FlushSnapshot]
  }

  /** A call of the store, the next job starting, or the database answering. */
  datatype Event = Call(op: Operation) | StartJob | FinishJob(ok: bool)

  function Called(sys: System, op: Operation): System {
    sys.(mem := Step(sys.mem, op), queue := sys.queue + JobsOf(sys.mem, op))
  }

  /** Jobs run one at a time in order; a snapshot job reads memory when it starts. */
  function Started(sys: System): System {
    if !sys.write.Idle? || sys.queue == [] then sys
    else
      match sys.queue[0]
      case FlushSnapshot => sys.(queue := sys.queue[1..], write := WritingSnapshot(TakeSnapshot(sys.mem)))
      case WriteSecret(s) => sys.(queue := sys.queue[1..], write := WritingSecret(s))
  }

  function Finished(sys: System, ok: bool): System {
    match sys.write
    case Idle => sys
    case WritingSnapshot(p) =>
      sys.(write := Idle, row := if ok then Some(p) else sys.row, snapshotFailed := !ok)
    case WritingSecret(s) =>
      sys.(write := Idle, secretRows := if ok then sys.secretRows[s.secretRef := s] else sys.secretRows,
           secretLost := sys.secretLost || !ok)
  }

  function React(sys: System, e: Event): System {
    match e
    case Call(op) => Called(sys, op)
    case StartJob => Started(sys)
    case FinishJob(ok) => Finished(sys, ok)
  }

  /*** The invariant ***/

  ghost predicate SoundMemory(st: StoreState) {
    Keyed(st) && RunsIndexed(st) && EventsIndexed(st)
  }

  /** Secrets in memory are named there, so the snapshot is not the one of an empty store. */
  ghost predicate SecretsNamed(st: StoreState) {
    st.secretsByRef != map[] ==> st.latestSecretRefByConnection.at != map[]
  }

  ghost predicate Allowed(st: StoreState, op: Operation) {
    Admissible(st, op) && AdmissibleEventOp(st, op)
  }

  /** The row stands for this snapshot; no row stands for the snapshot of an empty store. */
  ghost predicate RowHolds(row: Option<Snapshot>, s: Snapshot) {
    row.GetOr(TakeSnapshot(EMPTY_STATE)) == s
  }

  /** The secret table once the writes still to be made are made. */
  function AfterWrites(rows: map<string, SecretRecord>, jobs: seq<Job>): map<string, SecretRecord>
    decreases |jobs|
  {
    if jobs == [] then rows
    else if jobs[0].WriteSecret? then AfterWrites(rows[jobs[0].secret.secretRef := jobs[0].secret], jobs[1..])
    else AfterWrites(rows, jobs[1..])
  }

  /** The secret table, once written, holds the secrets of memory, apart from the references to ignore. */
  ghost predicate SecretsOnTheWay(sys: System, ignored: set<string>) {
    var rows := if sys.write.WritingSecret? then sys.secretRows[sys.write.secret.secretRef := sys.write.secret] else sys.secretRows;
    AfterWrites(rows, sys.queue) - ignored == sys.mem.secretsByRef - ignored
  }

  /** What is in memory is in the database, on its way there, or waiting behind a write that failed. */
  ghost predicate SnapshotOnTheWay(sys: System) {
    || FlushSnapshot in sys.queue
    || (sys.write.WritingSnapshot? && sys.write.payload == TakeSnapshot(sys.mem))
    || (!sys.write.WritingSnapshot? && (sys.snapshotFailed || RowHolds(sys.row, TakeSnapshot(sys.mem))))
  }

  /** The invariant; a restart may have left some references of the secret table out of memory. */
  ghost predicate DurableUpTo(sys: System, ignored: set<string>) {
    && SoundMemory(sys.mem)
    && SnapshotOnTheWay(sys)
    && (sys.row.None? ==> SecretsNamed(sys.mem))
    && (sys.secretLost || SecretsOnTheWay(sys, ignored))
  }

  ghost predicate Durable(sys: System) {
    DurableUpTo(sys, {})
  }

  ghost predicate AllFlushes(jobs: seq<Job>) {
    forall i :: 0 <= i < |jobs| ==> jobs[i] == FlushSnapshot
  }

  lemma {:induction false} FlushIn(n: nat)
    ensures n > 0 ==> FlushSnapshot in Flushes(n)
    ensures AllFlushes(Flushes(n))
  {
    if n > 0 {
      FlushIn(n - 1);
    }
  }

  lemma ClaimSchedulesFlush(claimed: nat)
    ensures claimed > 0 ==> FlushSnapshot in FlushesOfClaim(claimed)
  {
    FlushIn(claimed + 1);
  }

  /** An operation that schedules no flush changes nothing: this is where the index invariant is needed. */
  lemma NoFlushNoChange(st: StoreState, op: Operation)
    requires SoundMemory(st) && Allowed(st, op)
    ensures FlushSnapshot in JobsOf(st, op) || (Step(st, op) == st && JobsOf(st, op) == [])
  {
    if op.FindSyncRunByIdempotency? {
      NoStaleEntries(st, op.organizationId, op.connectionId, op.triggerType, op.idempotencyKey);
    } else if op.FindRawEventByEventId? {
      LookupChangesNothing(st, op.organizationId, op.connectionId, op.eventId);
    } else if op.ClaimSyncRuns? {
      assert Step(st, op) == AfterClaimRuns(st, op.claim) && JobsOf(st, op) == FlushesOfClaim(|ClaimBatch(st.runs, op.claim)|);
      SyncClaimFlushesIfItTakes(st, op.claim);
    } else if op.ClaimRawEvents? {
      assert Step(st, op) == AfterClaimRawEvents(st, op.rawClaim) && JobsOf(st, op) == FlushesOfClaim(|RawBatch(st.rawEvents, op.rawClaim)|);
      RawClaimFlushesIfItTakes(st, op.rawClaim);
    } else {
      UpdateFlushesIfItChanges(st, op);
    }
  }

  lemma SyncClaimFlushesIfItTakes(st: StoreState, claim: Claim)
    ensures var jobs := FlushesOfClaim(|ClaimBatch(st.runs, claim)|);
            FlushSnapshot in jobs || (AfterClaimRuns(st, claim) == st && jobs == [])
  {
    ClaimSchedulesFlush(|ClaimBatch(st.runs, claim)|);
  }

  lemma RawClaimFlushesIfItTakes(st: StoreState, claim: RawClaim)
    ensures var jobs := FlushesOfClaim(|RawBatch(st.rawEvents, claim)|);
            FlushSnapshot in jobs || (AfterClaimRawEvents(st, claim) == st && jobs == [])
  {
    ClaimSchedulesFlush(|RawBatch(st.rawEvents, claim)|);
  }

  lemma UpdateFlushesIfItChanges(st: StoreState, op: Operation)
    requires !op.ClaimSyncRuns? && !op.ClaimRawEvents? && !op.FindSyncRunByIdempotency? && !op.FindRawEventByEventId?
    ensures FlushSnapshot in JobsOf(st, op) || (Step(st, op) == st && JobsOf(st, op) == [])
  {
  }

  lemma StepKeepsSoundMemory(st: StoreState, op: Operation)
    requires SoundMemory(st) && Allowed(st, op)
    ensures SoundMemory(Step(st, op))
  {
    StepKeepsKeyed(st, op);
    StepKeepsRunsIndexed(st, op);
    StepKeepsEventsIndexed(st, op);
  }

  lemma StepKeepsSecretsNamed(st: StoreState, op: Operation)
    requires SecretsNamed(st)
    ensures SecretsNamed(Step(st, op))
  {
    if op.PutSecret? {
      assert op.secret.connectionId in Step(st, op).latestSecretRefByConnection.at;
    } else {
      OthersLeaveSecrets(st, op);
    }
  }

  /** Further writes keep two tables equal apart from the same references. */
  lemma {:induction false} WritesUpTo(a: map<string, SecretRecord>, b: map<string, SecretRecord>, jobs: seq<Job>, ignored: set<string>)
    requires a - ignored == b - ignored
    ensures AfterWrites(a, jobs) - ignored == AfterWrites(b, jobs) - ignored
    decreases |jobs|
  {
    if jobs != [] {
      if jobs[0].WriteSecret? {
        SetUpTo(a, b, jobs[0].secret, ignored);
        WritesUpTo(a[jobs[0].secret.secretRef := jobs[0].secret], b[jobs[0].secret.secretRef := jobs[0].secret], jobs[1..], ignored);
      } else {
        WritesUpTo(a, b, jobs[1..], ignored);
      }
    }
  }

  lemma SetUpTo(a: map<string, SecretRecord>, b: map<string, SecretRecord>, secret: SecretRecord, ignored: set<string>)
    requires a - ignored == b - ignored
    ensures a[secret.secretRef := secret] - ignored == b[secret.secretRef := secret] - ignored
  {
    var x, y := a[secret.secretRef := secret] - ignored, b[secret.secretRef := secret] - ignored;
    forall ref ensures ref in x <==> ref in y {
      assert ref in a - ignored <==> ref in b - ignored;
    }
    forall ref | ref in x ensures x[ref] == y[ref] {
      if ref != secret.secretRef {
        assert (a - ignored)[ref] == (b - ignored)[ref];
      }
    }
  }

  lemma {:induction false} WritesAppend(rows: map<string, SecretRecord>, a: seq<Job>, b: seq<Job>)
    ensures AfterWrites(rows, a + b) == AfterWrites(AfterWrites(rows, a), b)
    decreases |a|
  {
    if a == [] {
      assert a + b == b;
    } else {
      assert (a + b)[1..] == a[1..] + b;
      WritesAppend(if a[0].WriteSecret? then rows[a[0].secret.secretRef := a[0].secret] else rows, a[1..], b);
    }
  }

  lemma {:induction false} FlushesWriteNoSecret(rows: map<string, SecretRecord>, jobs: seq<Job>)
    requires AllFlushes(jobs)
    ensures AfterWrites(rows, jobs) == rows
  {
    if jobs != [] {
      FlushesWriteNoSecret(rows, jobs[1..]);
    }
  }

  lemma SecretThenFlush(rows: map<string, SecretRecord>, secret: SecretRecord)
    ensures AfterWrites(rows, [WriteSecret(secret), FlushSnapshot]) == rows[secret.secretRef := secret]
  {
    assert [WriteSecret(secret), FlushSnapshot][1..] == [FlushSnapshot];
    FlushesWriteNoSecret(rows[secret.secretRef := secret], [FlushSnapshot]);
  }

  /** The secret writes an operation schedules are what it does to the secrets in memory. */
  lemma JobsMirrorSecrets(st: StoreState, op: Operation)
    ensures AfterWrites(st.secretsByRef, JobsOf(st, op)) == Step(st, op).secretsByRef
  {
    if op.PutSecret? {
      SecretThenFlush(st.secretsByRef, op.secret);
      assert Step(st, op).secretsByRef == st.secretsByRef[op.secret.secretRef := op.secret];
    } else {
      var n := OtherJobsAreFlushes(st, op);
      FlushIn(n);
      FlushesWriteNoSecret(st.secretsByRef, Flushes(n));
      OthersLeaveSecrets(st, op);
    }
  }

  lemma JobsOfSyncClaim(st: StoreState, claim: Claim)
    ensures JobsOf(st, ClaimSyncRuns(claim)) == FlushesOfClaim(|ClaimBatch(st.runs, claim)|)
  {
  }

  lemma JobsOfRawClaim(st: StoreState, claim: RawClaim)
    ensures JobsOf(st, ClaimRawEvents(claim)) == FlushesOfClaim(|RawBatch(st.rawEvents, claim)|)
  {
  }

  lemma OneFlushAtMost(st: StoreState, op: Operation)
    requires !op.PutSecret? && !op.ClaimSyncRuns? && !op.ClaimRawEvents?
    ensures |JobsOf(st, op)| <= 1 && JobsOf(st, op) == Flushes(|JobsOf(st, op)|)
  {
    assert Flushes(1) == Flushes(0) + [FlushSnapshot];
  }

  /** Any other operation schedules a number of flushes and nothing else. */
  lemma OtherJobsAreFlushes(st: StoreState, op: Operation) returns (n: nat)
    requires !op.PutSecret?
    ensures JobsOf(st, op) == Flushes(n)
  {
    if op.ClaimSyncRuns? {
      JobsOfSyncClaim(st, op.claim);
      n := FlushesAreCounted(|ClaimBatch(st.runs, op.claim)|);
    } else if op.ClaimRawEvents? {
      JobsOfRawClaim(st, op.rawClaim);
      n := FlushesAreCounted(|RawBatch(st.rawEvents, op.rawClaim)|);
    } else {
      OneFlushAtMost(st, op);
      n := |JobsOf(st, op)|;
    }
  }

  lemma FlushesAreCounted(claimed: nat) returns (n: nat)
    ensures FlushesOfClaim(claimed) == Flushes(n)
  {
    n := if claimed == 0 then 0 else claimed + 1;
  }

  lemma CallKeepsDurable(sys: System, op: Operation, ignored: set<string>)
    requires DurableUpTo(sys, ignored) && Allowed(sys.mem, op)
    ensures DurableUpTo(Called(sys, op), ignored)
  {
    StepKeepsSoundMemory(sys.mem, op);
    CallKeepsSnapshot(sys, op);
    CallKeepsSecrets(sys, op, ignored);
    if sys.row.None? {
      StepKeepsSecretsNamed(sys.mem, op);
    }
  }

  lemma CallKeepsSnapshot(sys: System, op: Operation)
    requires SoundMemory(sys.mem) && SnapshotOnTheWay(sys) && Allowed(sys.mem, op)
    ensures SnapshotOnTheWay(Called(sys, op))
  {
    NoFlushNoChange(sys.mem, op);
  }

  lemma CallKeepsSecrets(sys: System, op: Operation, ignored: set<string>)
    ensures SecretsOnTheWay(sys, ignored) ==> SecretsOnTheWay(Called(sys, op), ignored)
  {
    var rows := if sys.write.WritingSecret? then sys.secretRows[sys.write.secret.secretRef := sys.write.secret] else sys.secretRows;
    JobsMirrorSecrets(sys.mem, op);
    WritesAppend(rows, sys.queue, JobsOf(sys.mem, op));
    if SecretsOnTheWay(sys, ignored) {
      WritesUpTo(AfterWrites(rows, sys.queue), sys.mem.secretsByRef, JobsOf(sys.mem, op), ignored);
    }
  }

  lemma StartKeepsDurable(sys: System, ignored: set<string>)
    requires DurableUpTo(sys, ignored)
    ensures DurableUpTo(Started(sys), ignored)
  {
    if sys.write.Idle? && sys.queue != [] {
      StartKeepsSnapshot(sys);
      StartKeepsSecrets(sys, ignored);
    }
  }

  lemma StartKeepsSnapshot(sys: System)
    requires SnapshotOnTheWay(sys) && sys.write.Idle? && sys.queue != []
    ensures SnapshotOnTheWay(Started(sys))
  {
    assert sys.queue == [sys.queue[0]] + sys.queue[1..];
  }

  lemma StartKeepsSecrets(sys: System, ignored: set<string>)
    requires sys.write.Idle? && sys.queue != []
    ensures SecretsOnTheWay(sys, ignored) ==> SecretsOnTheWay(Started(sys), ignored)
  {
  }

  lemma FinishKeepsDurable(sys: System, ok: bool, ignored: set<string>)
    requires DurableUpTo(sys, ignored)
    ensures DurableUpTo(Finished(sys, ok), ignored)
  {
    if sys.write.WritingSecret? {
      assert !ok || (SecretsOnTheWay(sys, ignored) ==> SecretsOnTheWay(Finished(sys, ok), ignored));
    }
  }

  function AfterEvents(sys: System, events: seq<Event>): System
    decreases |events|
  {
    if events == [] then sys else AfterEvents(React(sys, events[0]), events[1..])
  }

  ghost predicate AllowedRun(sys: System, events: seq<Event>)
    decreases |events|
  {
    events == []
    || ((events[0].Call? ==> Allowed(sys.mem, events[0].op)) && AllowedRun(React(sys, events[0]), events[1..]))
  }

  /** Over any interleaving of calls, job starts and database answers, nothing is forgotten. */
  lemma {:induction false} RunKeepsDurableUpTo(sys: System, events: seq<Event>, ignored: set<string>)
    requires DurableUpTo(sys, ignored) && AllowedRun(sys, events)
    ensures DurableUpTo(AfterEvents(sys, events), ignored)
    decreases |events|
  {
    if events != [] {
      match events[0] {
        case Call(op) => CallKeepsDurable(sys, op, ignored);
        case StartJob => StartKeepsDurable(sys, ignored);
        case FinishJob(ok) => FinishKeepsDurable(sys, ok, ignored);
      }
      RunKeepsDurableUpTo(React(sys, events[0]), events[1..], ignored);
    }
  }

  lemma RunKeepsDurable(sys: System, events: seq<Event>)
    requires Durable(sys) && AllowedRun(sys, events)
    ensures Durable(AfterEvents(sys, events))
  {
    RunKeepsDurableUpTo(sys, events, {});
  }
}
