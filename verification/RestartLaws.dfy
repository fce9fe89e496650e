/** What a restart finds in the database: after a quiet end, after failed writes, and after a crash at any point. */
module RestartLaws {
  import opened Wrappers
  import opened Sequences
  import opened InsertionMap
  import opened ConnectorTypes
  import opened ConnectorStore
  import opened StoreInvariant
  import opened IdempotencyLaws
  import opened RawEventLaws
  import opened Persistence

  ghost predicate Quiescent(sys: System) {
    sys.queue == [] && sys.write.Idle?
  }

  /** The secrets that `initialize` loads: none without a snapshot row, and none with an empty reference. */
  function Loaded(row: Option<Snapshot>, secretRows: map<string, SecretRecord>): map<string, SecretRecord> {
    if row.None? then map[] else map ref | ref in secretRows && ref != "" :: secretRows[ref]
  }

  lemma SnapshotIgnoresSecrets(st: StoreState, secrets: map<string, SecretRecord>)
    ensures TakeSnapshot(st.(secretsByRef := secrets)) == TakeSnapshot(st)
  {
  }

  lemma HydratedWith(st: StoreState, secrets: map<string, SecretRecord>)
    requires Keyed(st)
    ensures Hydrated(TakeSnapshot(st), secrets) == st.(secretsByRef := secrets)
  {
    SnapshotRebuilds(st);
  }

  /** A row that stands for a sound state brings back that state, with the secrets of the table. */
  lemma RestartBringsBack(st: StoreState, row: Option<Snapshot>, secretRows: map<string, SecretRecord>)
    requires Keyed(st) && RowHolds(row, TakeSnapshot(st))
    ensures Initialized(row, secretRows) == st.(secretsByRef := Loaded(row, secretRows))
  {
    HydratedWith(st, Loaded(row, secretRows));
    if row.None? {
      HydratedWith(EMPTY_STATE, map[]);
    }
  }

  /*** After a quiet end ***/

  lemma QuietSecretsAreStored(sys: System)
    requires Durable(sys) && Quiescent(sys) && !sys.secretLost
    ensures sys.secretRows == sys.mem.secretsByRef
  {
    assert SecretsOnTheWay(sys, {});
    assert sys.secretRows - {} == sys.secretRows && sys.mem.secretsByRef - {} == sys.mem.secretsByRef;
  }

  /**
   Durability: once no write is pending and neither the latest snapshot write nor any secret write failed,
   a restart rebuilds memory exactly, map order included, so the next claim returns the same batch. It does
   so exactly when no secret has an empty reference.
   */
  lemma RestartRebuildsMemory(sys: System)
    requires Durable(sys) && Quiescent(sys) && !sys.snapshotFailed && !sys.secretLost
    ensures Initialized(sys.row, sys.secretRows) == sys.mem <==> "" !in sys.mem.secretsByRef
  {
    RestartBringsBack(sys.mem, sys.row, sys.secretRows);
    QuietSecretsAreStored(sys);
    if sys.row.None? {
      assert sys.mem.latestSecretRefByConnection == Empty() by { HydratedWith(sys.mem, map[]); HydratedWith(EMPTY_STATE, map[]); }
    } else if "" in sys.mem.secretsByRef {
      assert "" !in Loaded(sys.row, sys.secretRows);
    } else {
      assert Loaded(sys.row, sys.secretRows) == sys.secretRows;
    }
  }

  /** A runtime that has just started on the given tables. */
  function Restarted(row: Option<Snapshot>, secretRows: map<string, SecretRecord>): System {
    System(Initialized(row, secretRows), [], Idle, row, secretRows, false, false)
  }

  /** The invariant holds of a runtime on an empty database, and again after any restart that rebuilt memory. */
  lemma RestartIsDurable(sys: System)
    ensures Durable(Restarted(None, map[]))
    ensures (Durable(sys) && Quiescent(sys) && !sys.snapshotFailed && !sys.secretLost && "" !in sys.mem.secretsByRef)
        ==> Durable(Restarted(sys.row, sys.secretRows))
  {
    EmptyStoreIsIndexed();
    if Durable(sys) && Quiescent(sys) && !sys.snapshotFailed && !sys.secretLost && "" !in sys.mem.secretsByRef {
      RestartRebuildsMemory(sys);
    }
  }

  /** A failed snapshot write is made good by the next one that succeeds. */
  lemma NextFlushRepairs(sys: System)
    requires sys.write.Idle? && sys.queue != [] && sys.queue[0] == FlushSnapshot
    ensures
      var after := Finished(Started(sys), true);
      RowHolds(after.row, TakeSnapshot(sys.mem)) && !after.snapshotFailed
  {
  }

  /*** Secrets whose write failed ***/

  function RefsIn(jobs: seq<Job>): set<string> {
    if jobs == [] then {} else (if jobs[0].WriteSecret? then {jobs[0].secret.secretRef} else {}) + RefsIn(jobs[1..])
  }

  function RefsOf(write: Write): set<string> {
    if write.WritingSecret? then {write.secret.secretRef} else {}
  }

  /** The references whose rows are still to be written. */
  function PendingRefs(sys: System): set<string> {
    RefsOf(sys.write) + RefsIn(sys.queue)
  }

  lemma {:induction false} RefsAppend(a: seq<Job>, b: seq<Job>)
    ensures RefsIn(a + b) == RefsIn(a) + RefsIn(b)
  {
    if a == [] {
      assert a + b == b;
    } else {
      assert (a + b)[1..] == a[1..] + b;
      RefsAppend(a[1..], b);
    }
  }

  lemma {:induction false} FlushesHaveNoRefs(jobs: seq<Job>)
    requires AllFlushes(jobs)
    ensures RefsIn(jobs) == {}
  {
    if jobs != [] {
      FlushesHaveNoRefs(jobs[1..]);
    }
  }

  function RefsPut(op: Operation): set<string> {
    if op.PutSecret? then {op.secret.secretRef} else {}
  }

  lemma RefsOfJobs(st: StoreState, op: Operation)
    ensures RefsIn(JobsOf(st, op)) == RefsPut(op)
  {
    if op.PutSecret? {
      var jobs := [WriteSecret(op.secret), FlushSnapshot];
      assert jobs[1..] == [FlushSnapshot];
      FlushesHaveNoRefs([FlushSnapshot]);
    } else {
      var n := OtherJobsAreFlushes(st, op);
      FlushIn(n);
      FlushesHaveNoRefs(Flushes(n));
    }
  }

  /** A call changes the secrets in memory, and the pending references, by the secret it puts and no other. */
  lemma CallPutsRefs(sys: System, op: Operation)
    ensures Called(sys, op).mem.secretsByRef.Keys == sys.mem.secretsByRef.Keys + RefsPut(op)
    ensures PendingRefs(Called(sys, op)) == PendingRefs(sys) + RefsPut(op)
  {
    RefsOfJobs(sys.mem, op);
    RefsAppend(sys.queue, JobsOf(sys.mem, op));
    SecretsOfStep(sys.mem, op);
  }

  lemma SecretsOfStep(st: StoreState, op: Operation)
    ensures Step(st, op).secretsByRef == if op.PutSecret? then st.secretsByRef[op.secret.secretRef := op.secret] else st.secretsByRef
  {
    if !op.PutSecret? {
      OthersLeaveSecrets(st, op);
    }
  }

  predicate PutsAgain(e: Event, ref: string) {
    e.Call? && e.op.PutSecret? && e.op.secret.secretRef == ref
  }

  /** In memory, but neither in the table nor on its way there. */
  ghost predicate Lost(sys: System, ref: string) {
    ref in sys.mem.secretsByRef && ref !in sys.secretRows && ref !in PendingRefs(sys)
  }

  lemma StartKeepsRefs(sys: System)
    ensures PendingRefs(Started(sys)) == PendingRefs(sys)
  {
  }

  lemma ReactKeepsLost(sys: System, e: Event, ref: string)
    requires Lost(sys, ref) && !PutsAgain(e, ref)
    ensures Lost(React(sys, e), ref)
  {
    match e {
      case Call(op) => CallPutsRefs(sys, op);
      case StartJob => StartKeepsRefs(sys);
      case FinishJob(ok) =>
    }
  }

  lemma {:induction false} LostStaysLost(sys: System, events: seq<Event>, ref: string)
    requires Lost(sys, ref) && forall i :: 0 <= i < |events| ==> !PutsAgain(events[i], ref)
    ensures Lost(AfterEvents(sys, events), ref)
    decreases |events|
  {
    if events != [] {
      ReactKeepsLost(sys, events[0], ref);
      LostStaysLost(React(sys, events[0]), events[1..], ref);
    }
  }

  /**
   A failed secret write is never repeated: whatever happens afterwards, as long as the secret is not put
   again, it stays in memory and no restart finds it.
   */
  lemma FailedSecretWriteIsNeverRepeated(sys: System, events: seq<Event>)
    requires sys.write.WritingSecret? && sys.write.secret.secretRef in sys.mem.secretsByRef
    requires sys.write.secret.secretRef !in sys.secretRows && sys.write.secret.secretRef !in RefsIn(sys.queue)
    requires forall i :: 0 <= i < |events| ==> !PutsAgain(events[i], sys.write.secret.secretRef)
    ensures
      var ref, after := sys.write.secret.secretRef, AfterEvents(Finished(sys, false), events);
      ref in after.mem.secretsByRef && ref !in Initialized(after.row, after.secretRows).secretsByRef
  {
    LostStaysLost(Finished(sys, false), events, sys.write.secret.secretRef);
  }

  /** The restarted runtime may still name such a secret as the latest of its connection. */
  lemma LostSecretStaysNamed(sys: System, connectionId: string, ref: string)
    requires Durable(sys) && Quiescent(sys) && !sys.snapshotFailed && Lost(sys, ref)
    requires sys.mem.latestSecretRefByConnection.Get(connectionId) == Some(ref)
    ensures var restarted := Initialized(sys.row, sys.secretRows);
            restarted.latestSecretRefByConnection.Get(connectionId) == Some(ref) && ref !in restarted.secretsByRef
  {
    RestartBringsBack(sys.mem, sys.row, sys.secretRows);
  }

  /*** Stored snapshots are snapshots of earlier moments ***/

  ghost predicate SnapshotOf(s: Snapshot, st: StoreState) {
    Keyed(st) && RunsIndexed(st) && EventsIndexed(st) && s == TakeSnapshot(st)
  }

  /** A stored or running snapshot was taken of a sound state, and each secret is stored under its reference. */
  ghost predicate Backed(sys: System) {
    && SecretsByTheirRef(sys.secretRows)
    && (sys.row.Some? ==> exists st :: SnapshotOf(sys.row.value, st))
    && (sys.write.WritingSnapshot? ==> exists st :: SnapshotOf(sys.write.payload, st))
  }

  /** An event stores what was being written, or starts to write the memory of now, or does neither. */
  lemma WhatReactStores(sys: System, e: Event)
    ensures React(sys, e).row == sys.row || (sys.write.WritingSnapshot? && React(sys, e).row == Some(sys.write.payload))
    ensures React(sys, e).write.WritingSnapshot?
        ==> React(sys, e).write == sys.write || React(sys, e).write.payload == TakeSnapshot(sys.mem)
  {
  }

  lemma ReactKeepsBacked(sys: System, e: Event)
    requires Backed(sys) && SoundMemory(sys.mem)
    ensures Backed(React(sys, e))
  {
    WhatReactStores(sys, e);
    SecretRowsByRef(sys, e);
    assert SnapshotOf(TakeSnapshot(sys.mem), sys.mem);
  }

  lemma SecretRowsByRef(sys: System, e: Event)
    requires SecretsByTheirRef(sys.secretRows)
    ensures SecretsByTheirRef(React(sys, e).secretRows)
  {
  }

  lemma {:induction false} RunKeepsBacked(sys: System, events: seq<Event>)
    requires Backed(sys) && SoundMemory(sys.mem) && AllowedRun(sys, events)
    ensures Backed(AfterEvents(sys, events))
    decreases |events|
  {
    if events != [] {
      ReactKeepsBacked(sys, events[0]);
      ReactKeepsSound(sys, events[0]);
      RunKeepsBacked(React(sys, events[0]), events[1..]);
    }
  }

  lemma OnlyCallsChangeMemory(sys: System, e: Event)
    ensures React(sys, e).mem == if e.Call? then Step(sys.mem, e.op) else sys.mem
  {
  }

  lemma ReactKeepsSound(sys: System, e: Event)
    requires SoundMemory(sys.mem) && (e.Call? ==> Allowed(sys.mem, e.op))
    ensures SoundMemory(React(sys, e).mem)
  {
    OnlyCallsChangeMemory(sys, e);
    if e.Call? {
      StepKeepsSoundMemory(sys.mem, e.op);
    }
  }

  /*** After any crash ***/

  /** The references that a restart leaves out of memory: the empty one, or all without a snapshot row. */
  function LeftOut(row: Option<Snapshot>, secretRows: map<string, SecretRecord>): set<string> {
    if row.None? then secretRows.Keys else {""}
  }

  lemma LoadedUpTo(row: Option<Snapshot>, secretRows: map<string, SecretRecord>)
    ensures Loaded(row, secretRows) - LeftOut(row, secretRows) == secretRows - LeftOut(row, secretRows)
    ensures row.Some? && "" !in secretRows ==> Loaded(row, secretRows) == secretRows
  {
  }

  lemma RestartOnRow(st: StoreState, row: Option<Snapshot>, secretRows: map<string, SecretRecord>)
    requires SnapshotOf(TakeSnapshot(st), st) && RowHolds(row, TakeSnapshot(st)) && SecretsByTheirRef(secretRows)
    ensures SoundMemory(Initialized(row, secretRows)) && RowHolds(row, TakeSnapshot(Initialized(row, secretRows)))
    ensures Initialized(row, secretRows).secretsByRef == Loaded(row, secretRows)
  {
    RestartBringsBack(st, row, secretRows);
    SnapshotIgnoresSecrets(st, Loaded(row, secretRows));
    assert SecretsByTheirRef(Loaded(row, secretRows));
  }

  lemma StateOfRow(sys: System) returns (st: StoreState)
    requires Backed(sys)
    ensures SnapshotOf(TakeSnapshot(st), st) && RowHolds(sys.row, TakeSnapshot(st))
  {
    if sys.row.None? {
      EmptyStoreIsIndexed();
      st := EMPTY_STATE;
    } else {
      st :| SnapshotOf(sys.row.value, st);
    }
  }

  /** A runtime with a sound memory that the row stands for, and with the secrets that a restart loads. */
  lemma FreshStart(mem: StoreState, row: Option<Snapshot>, secretRows: map<string, SecretRecord>)
    requires SoundMemory(mem) && RowHolds(row, TakeSnapshot(mem)) && mem.secretsByRef == Loaded(row, secretRows)
    requires SecretsByTheirRef(secretRows)
    ensures var sys := System(mem, [], Idle, row, secretRows, false, false);
            && (row.Some? ==> SnapshotOf(row.value, mem)) && DurableUpTo(sys, LeftOut(row, secretRows))
            && (row.Some? && "" !in secretRows ==> Durable(sys) && Ledger(sys))
  {
    LoadedUpTo(row, secretRows);
    if row.Some? && "" !in secretRows {
      QuietLedger(mem, row, secretRows);
    }
  }

  /**
   Whatever was under way when the process died: the restarted runtime meets the invariant, up to the
   references it left out, and so do all runs that follow. With a snapshot row and no empty reference it meets
   it in full.
   */
  lemma AnyRestartIsDurable(sys: System)
    requires Backed(sys)
    ensures var again := Restarted(sys.row, sys.secretRows);
            && Backed(again) && DurableUpTo(again, LeftOut(sys.row, sys.secretRows))
            && (sys.row.Some? && "" !in sys.secretRows ==> Durable(again) && Ledger(again))
  {
    var st := StateOfRow(sys);
    RestartOnRow(st, sys.row, sys.secretRows);
    FreshStart(Initialized(sys.row, sys.secretRows), sys.row, sys.secretRows);
  }

  /** So after any crash in any run, and any further run, whatever the first one left unfinished. */
  lemma CrashedRunsGoOn(start: System, events: seq<Event>, more: seq<Event>)
    requires Backed(start) && SoundMemory(start.mem) && AllowedRun(start, events)
    requires var crashed := AfterEvents(start, events); AllowedRun(Restarted(crashed.row, crashed.secretRows), more)
    ensures var crashed := AfterEvents(start, events);
            var now := AfterEvents(Restarted(crashed.row, crashed.secretRows), more);
            Backed(now) && DurableUpTo(now, LeftOut(crashed.row, crashed.secretRows))
  {
    var crashed := AfterEvents(start, events);
    RunKeepsBacked(start, events);
    AnyRestartIsDurable(crashed);
    RunKeepsBacked(Restarted(crashed.row, crashed.secretRows), more);
    RunKeepsDurableUpTo(Restarted(crashed.row, crashed.secretRows), more, LeftOut(crashed.row, crashed.secretRows));
  }

  /** If a restart rebuilds memory, the row stands for the snapshot of memory. */
  lemma RebuiltMeansHeld(sys: System)
    requires Backed(sys) && Initialized(sys.row, sys.secretRows) == sys.mem
    ensures RowHolds(sys.row, TakeSnapshot(sys.mem))
  {
    if sys.row.Some? {
      var st :| SnapshotOf(sys.row.value, st);
      HydratedWith(st, Loaded(sys.row, sys.secretRows));
      SnapshotIgnoresSecrets(st, Loaded(sys.row, sys.secretRows));
    }
  }

  /*** Secrets put once ***/

  ghost predicate PutOnceRun(sys: System, events: seq<Event>)
    decreases |events|
  {
    events == []
    || ((events[0].Call? && events[0].op.PutSecret? ==> events[0].op.secret.secretRef !in sys.mem.secretsByRef)
        && PutOnceRun(React(sys, events[0]), events[1..]))
  }

  /** Each pending reference is written once. */
  predicate OnceIn(jobs: seq<Job>, taken: set<string>) {
    jobs == []
    || (if jobs[0].WriteSecret? then jobs[0].secret.secretRef !in taken && OnceIn(jobs[1..], taken + {jobs[0].secret.secretRef})
        else OnceIn(jobs[1..], taken))
  }

  lemma {:induction false} OnceAppend(a: seq<Job>, b: seq<Job>, taken: set<string>)
    requires OnceIn(a, taken) && OnceIn(b, taken + RefsIn(a))
    ensures OnceIn(a + b, taken)
  {
    if a == [] {
      assert a + b == b && taken + {} == taken;
    } else {
      assert (a + b)[1..] == a[1..] + b;
      var more := if a[0].WriteSecret? then taken + {a[0].secret.secretRef} else taken;
      assert more + RefsIn(a[1..]) == taken + RefsIn(a);
      OnceAppend(a[1..], b, more);
    }
  }

  lemma {:induction false} FlushesOnce(jobs: seq<Job>, taken: set<string>)
    requires AllFlushes(jobs)
    ensures OnceIn(jobs, taken)
  {
    if jobs != [] {
      FlushesOnce(jobs[1..], taken);
    }
  }

  lemma {:induction false} OnceMeansFirst(jobs: seq<Job>, taken: set<string>)
    requires OnceIn(jobs, taken)
    ensures RefsIn(jobs) !! taken
  {
    if jobs != [] {
      OnceMeansFirst(jobs[1..], if jobs[0].WriteSecret? then taken + {jobs[0].secret.secretRef} else taken);
    }
  }

  lemma {:induction false} OnceFewer(jobs: seq<Job>, taken: set<string>, fewer: set<string>)
    requires OnceIn(jobs, taken) && fewer <= taken
    ensures OnceIn(jobs, fewer)
  {
    if jobs != [] {
      var ref := if jobs[0].WriteSecret? then {jobs[0].secret.secretRef} else {};
      assert taken + ref == if jobs[0].WriteSecret? then taken + {jobs[0].secret.secretRef} else taken;
      assert fewer + ref == if jobs[0].WriteSecret? then fewer + {jobs[0].secret.secretRef} else fewer;
      OnceFewer(jobs[1..], taken + ref, fewer + ref);
    }
  }

  /** Where each secret stands when every reference is put once; and a lost write has left some secret without a row. */
  ghost predicate Ledger(sys: System) {
    && sys.secretRows.Keys <= sys.mem.secretsByRef.Keys
    && PendingRefs(sys) <= sys.mem.secretsByRef.Keys
    && PendingRefs(sys) !! sys.secretRows.Keys
    && OnceIn(sys.queue, RefsOf(sys.write))
    && (sys.secretLost ==> exists ref :: Lost(sys, ref))
  }

  lemma CallKeepsLedger(sys: System, op: Operation)
    requires Ledger(sys) && (op.PutSecret? ==> op.secret.secretRef !in sys.mem.secretsByRef)
    ensures Ledger(Called(sys, op))
  {
    CallPutsRefs(sys, op);
    NewJobsOnce(sys, op);
    if sys.secretLost {
      var ref :| Lost(sys, ref);
      ReactKeepsLost(sys, Call(op), ref);
    }
  }

  lemma NewJobsOnce(sys: System, op: Operation)
    requires OnceIn(sys.queue, RefsOf(sys.write)) && PendingRefs(sys) <= sys.mem.secretsByRef.Keys
    requires op.PutSecret? ==> op.secret.secretRef !in sys.mem.secretsByRef
    ensures OnceIn(sys.queue + JobsOf(sys.mem, op), RefsOf(sys.write))
  {
    var taken := PendingRefs(sys);
    if op.PutSecret? {
      FlushesOnce([FlushSnapshot], taken + {op.secret.secretRef});
      assert JobsOf(sys.mem, op)[1..] == [FlushSnapshot];
      assert op.secret.secretRef !in taken;
    } else {
      var n := OtherJobsAreFlushes(sys.mem, op);
      FlushIn(n);
      FlushesOnce(Flushes(n), taken);
    }
    OnceAppend(sys.queue, JobsOf(sys.mem, op), RefsOf(sys.write));
  }

  lemma StartKeepsLedger(sys: System)
    requires Ledger(sys)
    ensures Ledger(Started(sys))
  {
    StartKeepsRefs(sys);
    if sys.secretLost {
      var ref :| Lost(sys, ref);
      ReactKeepsLost(sys, StartJob, ref);
    }
    if sys.write.Idle? && sys.queue != [] && sys.queue[0].WriteSecret? {
      assert {} + {sys.queue[0].secret.secretRef} == RefsOf(Started(sys).write);
    }
  }

  lemma FinishKeepsLedger(sys: System, ok: bool)
    requires Ledger(sys)
    ensures Ledger(Finished(sys, ok))
  {
    var after := Finished(sys, ok);
    OnceMeansFirst(sys.queue, RefsOf(sys.write));
    OnceFewer(sys.queue, RefsOf(sys.write), {});
    if sys.secretLost {
      var ref :| Lost(sys, ref);
      ReactKeepsLost(sys, FinishJob(ok), ref);
    } else if sys.write.WritingSecret? && !ok {
      assert Lost(after, sys.write.secret.secretRef);
    }
  }

  lemma {:induction false} RunKeepsLedger(sys: System, events: seq<Event>)
    requires Ledger(sys) && PutOnceRun(sys, events)
    ensures Ledger(AfterEvents(sys, events))
    decreases |events|
  {
    if events != [] {
      match events[0] {
        case Call(op) => CallKeepsLedger(sys, op);
        case StartJob => StartKeepsLedger(sys);
        case FinishJob(ok) => FinishKeepsLedger(sys, ok);
      }
      RunKeepsLedger(React(sys, events[0]), events[1..]);
    }
  }

  /**
   The exact condition, over whole runs in which every secret reference is put once: a quiet end is rebuilt
   by a restart if and only if the stored snapshot is the one of memory, no secret write has failed, and no
   reference is empty. The first part holds whenever the latest snapshot write succeeded.
   */
  lemma RestartRebuildsIff(start: System, events: seq<Event>)
    requires Durable(start) && Backed(start) && Ledger(start) && AllowedRun(start, events) && PutOnceRun(start, events)
    requires Quiescent(AfterEvents(start, events))
    ensures
      var sys := AfterEvents(start, events);
      && (Initialized(sys.row, sys.secretRows) == sys.mem
          <==> RowHolds(sys.row, TakeSnapshot(sys.mem)) && !sys.secretLost && "" !in sys.mem.secretsByRef)
      && (!sys.snapshotFailed ==> RowHolds(sys.row, TakeSnapshot(sys.mem)))
  {
    var sys := AfterEvents(start, events);
    RunKeepsDurable(start, events);
    RunKeepsBacked(start, events);
    RunKeepsLedger(start, events);
    RebuiltIff(sys);
  }

  lemma RebuiltIff(sys: System)
    requires Durable(sys) && Backed(sys) && Ledger(sys) && Quiescent(sys)
    ensures Initialized(sys.row, sys.secretRows) == sys.mem
        <==> RowHolds(sys.row, TakeSnapshot(sys.mem)) && !sys.secretLost && "" !in sys.mem.secretsByRef
  {
    if sys.secretLost {
      var ref :| Lost(sys, ref);
      LostMeansDifferent(sys, ref);
    } else if RowHolds(sys.row, TakeSnapshot(sys.mem)) && "" !in sys.mem.secretsByRef {
      RestartRebuildsMemory(sys.(snapshotFailed := false));
    } else {
      DifferentUnlessHeld(sys);
    }
  }

  lemma LostMeansDifferent(sys: System, ref: string)
    requires Lost(sys, ref)
    ensures Initialized(sys.row, sys.secretRows) != sys.mem
  {
    LoadedHasNoEmpty(sys);
    assert ref !in Initialized(sys.row, sys.secretRows).secretsByRef;
  }

  lemma DifferentUnlessHeld(sys: System)
    requires Backed(sys) && (!RowHolds(sys.row, TakeSnapshot(sys.mem)) || "" in sys.mem.secretsByRef)
    ensures Initialized(sys.row, sys.secretRows) != sys.mem
  {
    LoadedHasNoEmpty(sys);
    if Initialized(sys.row, sys.secretRows) == sys.mem {
      RebuiltMeansHeld(sys);
    }
  }

  lemma LoadedHasNoEmpty(sys: System)
    ensures "" !in Initialized(sys.row, sys.secretRows).secretsByRef
    ensures Initialized(sys.row, sys.secretRows).secretsByRef.Keys <= sys.secretRows.Keys
  {
  }

  /** A runtime on an empty database, and one after a restart that rebuilt memory, start such runs. */
  lemma RestartStartsRuns(sys: System)
    ensures Backed(Restarted(None, map[])) && Ledger(Restarted(None, map[]))
    ensures (Durable(sys) && Backed(sys) && Quiescent(sys) && !sys.secretLost && Initialized(sys.row, sys.secretRows) == sys.mem)
        ==> Backed(Restarted(sys.row, sys.secretRows)) && Ledger(Restarted(sys.row, sys.secretRows))
  {
    if Durable(sys) && Backed(sys) && Quiescent(sys) && !sys.secretLost && Initialized(sys.row, sys.secretRows) == sys.mem {
      RestartedIsReady(sys);
    }
  }

  lemma RestartedIsReady(sys: System)
    requires Durable(sys) && Backed(sys) && Quiescent(sys) && !sys.secretLost && Initialized(sys.row, sys.secretRows) == sys.mem
    ensures Backed(Restarted(sys.row, sys.secretRows)) && Ledger(Restarted(sys.row, sys.secretRows))
  {
    QuietSecretsAreStored(sys);
    QuietLedger(Initialized(sys.row, sys.secretRows), sys.row, sys.secretRows);
  }

  /** With all secrets in the table and nothing under way the ledger is balanced. */
  lemma QuietLedger(mem: StoreState, row: Option<Snapshot>, secretRows: map<string, SecretRecord>)
    requires secretRows == mem.secretsByRef
    ensures Ledger(System(mem, [], Idle, row, secretRows, false, false))
  {
  }

  /** Why the condition names the stored snapshot and not the latest write: a failed flush of unchanged memory does no harm. */
  lemma HarmlessFlushFailure(sys: System, connectionId: string)
    requires Keyed(sys.mem) && Quiescent(sys) && RowHolds(sys.row, TakeSnapshot(sys.mem))
    requires connectionId !in sys.mem.authorizationSessions.at
    ensures
      var after := Finished(Started(Called(sys, DeleteAuthorizationSession(connectionId))), false);
      Quiescent(after) && after.snapshotFailed && after.mem == sys.mem && RowHolds(after.row, TakeSnapshot(after.mem))
  {
    DeleteAbsent(sys.mem.authorizationSessions, connectionId);
    FailedFlush(sys, DeleteAuthorizationSession(connectionId));
  }

  lemma DeleteAbsent<K, V>(m: OrderedMap<K, V>, k: K)
    requires m.Valid() && k !in m.at
    ensures m.Delete(k) == m
  {
    ListedOnce(m.order, m.at.Keys);
    FilterAll(m.order, x => x != k);
    assert m.at - {k} == m.at;
  }

  lemma FailedFlush(sys: System, op: Operation)
    requires Quiescent(sys) && JobsOf(sys.mem, op) == [FlushSnapshot] && Step(sys.mem, op) == sys.mem
    ensures var after := Finished(Started(Called(sys, op)), false);
            Quiescent(after) && after.snapshotFailed && after.mem == sys.mem && after.row == sys.row
  {
    assert Called(sys, op).queue == [FlushSnapshot];
  }

  /*** Runs of any step that stores like `React` ***/

  function Folded(f: (System, Event) -> System, sys: System, events: seq<Event>): System
    decreases |events|
  {
    if events == [] then sys else Folded(f, f(sys, events[0]), events[1..])
  }

  lemma {:induction false} AfterIsFolded(sys: System, events: seq<Event>)
    ensures AfterEvents(sys, events) == Folded(React, sys, events)
    decreases |events|
  {
    if events != [] {
      AfterIsFolded(React(sys, events[0]), events[1..]);
    }
  }

  /** What a step may do to the stored row and to the write under way. */
  ghost predicate StoresAlike(sys: System, e: Event, after: System) {
    && (after.row == sys.row || (sys.write.WritingSnapshot? && after.row == Some(sys.write.payload)))
    && (after.write.WritingSnapshot? ==> after.write == sys.write || after.write.payload == TakeSnapshot(sys.mem))
    && (!sys.write.Idle? && !e.FinishJob? ==> after.write == sys.write)
    && (sys.write.WritingSnapshot? && e == FinishJob(true) ==> after.write.Idle? && after.row == Some(sys.write.payload))
    && (sys.write.Idle? && sys.queue != [] && sys.queue[0] == FlushSnapshot && e == StartJob
        ==> after.write == WritingSnapshot(TakeSnapshot(sys.mem)))
  }

  ghost predicate Storing(f: (System, Event) -> System) {
    forall sys, e :: StoresAlike(sys, e, f(sys, e))
  }

  lemma ReactStoresAlike(sys: System, e: Event)
    ensures StoresAlike(sys, e, React(sys, e))
  {
    WhatReactStores(sys, e);
  }

  lemma ReactIsStoring()
    ensures Storing(React)
  {
    forall sys: System, e: Event ensures StoresAlike(sys, e, React(sys, e)) {
      ReactStoresAlike(sys, e);
    }
  }

  lemma {:induction false} FoldedOn(f: (System, Event) -> System, sys: System, first: seq<Event>, more: seq<Event>)
    ensures Folded(f, sys, first + more) == Folded(f, Folded(f, sys, first), more)
    decreases |first|
  {
    if first == [] {
      assert first + more == more;
    } else {
      assert (first + more)[1..] == first[1..] + more;
      FoldedOn(f, f(sys, first[0]), first[1..], more);
    }
  }

  lemma OneMoreEvent(f: (System, Event) -> System, sys: System, events: seq<Event>, i: nat)
    requires i < |events|
    ensures Folded(f, sys, events[..i + 1]) == f(Folded(f, sys, events[..i]), events[i])
  {
    FoldedOn(f, sys, events[..i], [events[i]]);
    assert events[..i + 1] == events[..i] + [events[i]];
  }

  lemma RunInTwo(f: (System, Event) -> System, sys: System, events: seq<Event>, i: nat, j: nat)
    requires i <= j <= |events|
    ensures Folded(f, sys, events[..j]) == Folded(f, Folded(f, sys, events[..i]), events[i..j])
  {
    FoldedOn(f, sys, events[..i], events[i..j]);
    assert events[..j] == events[..i] + events[i..j];
  }

  /*** Crashes ***/

  ghost predicate Moment(f: (System, Event) -> System, start: System, events: seq<Event>, from: nat, s: Snapshot) {
    exists k :: from <= k <= |events| && s == TakeSnapshot(Folded(f, start, events[..k]).mem)
  }

  lemma MomentStays(f: (System, Event) -> System, start: System, events: seq<Event>, j: nat, from: nat, s: Snapshot)
    requires from <= j < |events| && Moment(f, start, events[..j], from, s)
    ensures Moment(f, start, events[..j + 1], from, s)
  {
    var k :| from <= k <= j && s == TakeSnapshot(Folded(f, start, events[..j][..k]).mem);
    assert events[..j + 1][..k] == events[..j][..k];
  }

  /** What is stored, or being stored, was stored at moment `from` or is the snapshot of a moment since. */
  ghost predicate FromMoments(f: (System, Event) -> System, start: System, events: seq<Event>, from: nat, row: Option<Snapshot>, sys: System) {
    && (sys.row == row || (sys.row.Some? && Moment(f, start, events, from, sys.row.value)))
    && (sys.write.WritingSnapshot? ==> Moment(f, start, events, from, sys.write.payload))
  }

  lemma NowIsAMoment(f: (System, Event) -> System, start: System, events: seq<Event>, from: nat)
    requires from <= |events|
    ensures Moment(f, start, events, from, TakeSnapshot(Folded(f, start, events).mem))
  {
    assert events[..|events|] == events;
  }

  lemma StoredStep(f: (System, Event) -> System, start: System, events: seq<Event>, j: nat, from: nat, row: Option<Snapshot>,
                   before: System, e: Event, after: System)
    requires from <= j < |events| && StoresAlike(before, e, after)
    requires FromMoments(f, start, events[..j], from, row, before) && Moment(f, start, events[..j], from, TakeSnapshot(before.mem))
    ensures FromMoments(f, start, events[..j + 1], from, row, after)
  {
    MomentStays(f, start, events, j, from, TakeSnapshot(before.mem));
    if after.row != row {
      MomentStays(f, start, events, j, from, after.row.value);
    }
    if before.write.WritingSnapshot? {
      MomentStays(f, start, events, j, from, before.write.payload);
    }
  }

  lemma {:induction false} StoredAreMoments(f: (System, Event) -> System, start: System, events: seq<Event>, from: nat, j: nat)
    requires Storing(f) && from <= j <= |events| && Folded(f, start, events[..from]).write.Idle?
    ensures FromMoments(f, start, events[..j], from, Folded(f, start, events[..from]).row, Folded(f, start, events[..j]))
    decreases j
  {
    if j > from {
      var before := Folded(f, start, events[..j - 1]);
      StoredAreMoments(f, start, events, from, j - 1);
      NowIsAMoment(f, start, events[..j - 1], from);
      OneMoreEvent(f, start, events, j - 1);
      StoredStep(f, start, events, j - 1, from, Folded(f, start, events[..from]).row, before, events[j - 1], f(before, events[j - 1]));
    }
  }

  /** From a moment with no write under way on, what is stored is what was stored then, or a moment since. */
  lemma StoredSince(f: (System, Event) -> System, start: System, events: seq<Event>, from: nat) returns (k: nat)
    requires Storing(f) && from <= |events| && Folded(f, start, events[..from]).write.Idle?
    ensures from <= k <= |events|
    ensures
      var row := Folded(f, start, events).row;
      row == Folded(f, start, events[..from]).row || row == Some(TakeSnapshot(Folded(f, start, events[..k]).mem))
  {
    StoredAreMoments(f, start, events, from, |events|);
    assert events[..|events|] == events;
    k := from;
    if Folded(f, start, events).row != Folded(f, start, events[..from]).row {
      k :| from <= k <= |events| && Folded(f, start, events).row.value == TakeSnapshot(Folded(f, start, events[..k]).mem);
    }
  }

  /** A restart now gives the state `st`, which is keyed and indexed, with the secrets of the table. */
  ghost predicate Rebuilt(sys: System, st: StoreState) {
    && Keyed(st) && RunsIndexed(st) && EventsIndexed(st)
    && Initialized(sys.row, sys.secretRows) == st.(secretsByRef := Loaded(sys.row, sys.secretRows))
  }

  /**
   A crash at any point: a restart finds what was stored before the run, or it brings back, apart from the
   secrets, exactly the memory of one moment of the run, keyed and indexed.
   */
  lemma CrashBringsBackAMoment(start: System, events: seq<Event>)
    requires SoundMemory(start.mem) && start.write.Idle? && AllowedRun(start, events)
    ensures
      var sys := AfterEvents(start, events);
      || sys.row == start.row
      || exists k :: 0 <= k <= |events| && Rebuilt(sys, AfterEvents(start, events[..k]).mem)
  {
    ReactIsStoring();
    var k := StoredSince(React, start, events, 0);
    AfterIsFolded(start, events);
    AfterIsFolded(start, events[..k]);
    if AfterEvents(start, events).row != start.row {
      MomentIsRebuilt(start, events, k, AfterEvents(start, events));
    }
  }

  lemma {:induction false} PrefixIsAllowed(sys: System, events: seq<Event>, k: nat)
    requires AllowedRun(sys, events) && k <= |events|
    ensures AllowedRun(sys, events[..k])
    decreases k
  {
    if k > 0 {
      assert events[..k][1..] == events[1..][..k - 1];
      PrefixIsAllowed(React(sys, events[0]), events[1..], k - 1);
    }
  }

  lemma MomentIsRebuilt(start: System, events: seq<Event>, k: nat, sys: System)
    requires SoundMemory(start.mem) && AllowedRun(start, events) && k <= |events|
    requires sys.row == Some(TakeSnapshot(AfterEvents(start, events[..k]).mem))
    ensures Rebuilt(sys, AfterEvents(start, events[..k]).mem)
  {
    PrefixIsAllowed(start, events, k);
    RunKeepsSound(start, events[..k]);
    RestartBringsBack(AfterEvents(start, events[..k]).mem, sys.row, sys.secretRows);
  }

  lemma {:induction false} RunKeepsSound(sys: System, events: seq<Event>)
    requires SoundMemory(sys.mem) && AllowedRun(sys, events)
    ensures SoundMemory(AfterEvents(sys, events).mem)
    decreases |events|
  {
    if events != [] {
      ReactKeepsSound(sys, events[0]);
      RunKeepsSound(React(sys, events[0]), events[1..]);
    }
  }

  /*** Not older than a flush that succeeded ***/

  lemma {:induction false} WriteGoesOn(f: (System, Event) -> System, sys: System, events: seq<Event>)
    requires Storing(f) && !sys.write.Idle? && forall i :: 0 <= i < |events| ==> !events[i].FinishJob?
    ensures Folded(f, sys, events).write == sys.write
    decreases |events|
  {
    if events != [] {
      assert StoresAlike(sys, events[0], f(sys, events[0]));
      WriteGoesOn(f, f(sys, events[0]), events[1..]);
    }
  }

  /** The next job is a flush, and nothing else is under way. */
  predicate FlushIsNext(sys: System) {
    sys.write.Idle? && sys.queue != [] && sys.queue[0] == FlushSnapshot
  }

  /** A job that starts at event `m` and that the database answers well at event `j - 1`. */
  predicate DoneBetween(events: seq<Event>, m: nat, j: nat) {
    && m + 1 < j <= |events| && events[m] == StartJob && events[j - 1] == FinishJob(true)
    && (forall i :: m < i < j - 1 ==> !events[i].FinishJob?)
  }

  /** Such a flush stores the memory of the moment it started. */
  lemma FlushStoresItsStart(f: (System, Event) -> System, start: System, events: seq<Event>, m: nat, j: nat)
    requires Storing(f) && DoneBetween(events, m, j) && FlushIsNext(Folded(f, start, events[..m]))
    ensures Folded(f, start, events[..j]).write.Idle?
    ensures Folded(f, start, events[..j]).row == Some(TakeSnapshot(Folded(f, start, events[..m]).mem))
  {
    var at, last := Folded(f, start, events[..m]), Folded(f, start, events[..j - 1]);
    OneMoreEvent(f, start, events, m);
    assert StoresAlike(at, StartJob, f(at, StartJob));
    RunInTwo(f, start, events, m + 1, j - 1);
    WriteGoesOn(f, f(at, StartJob), events[m + 1..j - 1]);
    OneMoreEvent(f, start, events, j - 1);
    assert StoresAlike(last, FinishJob(true), f(last, FinishJob(true)));
  }

  /** So from then on the row holds that moment, or one after the flush. */
  lemma HeldSinceFlush(f: (System, Event) -> System, start: System, events: seq<Event>, m: nat, j: nat) returns (k: nat)
    requires Storing(f) && DoneBetween(events, m, j) && FlushIsNext(Folded(f, start, events[..m]))
    ensures k == m || j <= k <= |events|
    ensures Folded(f, start, events).row == Some(TakeSnapshot(Folded(f, start, events[..k]).mem))
  {
    FlushStoresItsStart(f, start, events, m, j);
    k := StoredSince(f, start, events, j);
    if Folded(f, start, events).row == Folded(f, start, events[..j]).row {
      k := m;
    }
  }

  /**
   A crash after a flush that succeeded never brings back anything older than the moment at which that flush
   started: it brings back, apart from the secrets, that moment or one after the flush.
   */
  lemma CrashIsNoOlderThanAFlush(start: System, events: seq<Event>, m: nat, j: nat)
    requires SoundMemory(start.mem) && AllowedRun(start, events)
    requires DoneBetween(events, m, j) && FlushIsNext(AfterEvents(start, events[..m]))
    ensures exists k :: (k == m || j <= k <= |events|) && Rebuilt(AfterEvents(start, events), AfterEvents(start, events[..k]).mem)
  {
    ReactIsStoring();
    AfterIsFolded(start, events[..m]);
    var k := HeldSinceFlush(React, start, events, m, j);
    AfterIsFolded(start, events);
    AfterIsFolded(start, events[..k]);
    MomentIsRebuilt(start, events, k, AfterEvents(start, events));
  }
}
