/** The row of a secret is queued ahead of the flush of its reference: when the stored snapshot may still name a secret without a row. */
module SecretOrderLaws {
  import opened Wrappers
  import opened InsertionMap
  import opened ConnectorTypes
  import opened ConnectorStore
  import opened Persistence

  /** The stored snapshot names the secret as the latest of some connection. */
  ghost predicate RowNames(row: Option<Snapshot>, ref: string) {
    row.Some? && Names(row.value, ref)
  }

  ghost predicate Names(s: Snapshot, ref: string) {
    exists c :: (c, ref) in s.latestSecretRefs
  }

  /** A job that writes the row of this secret. */
  predicate WritesRow(job: Job, ref: string) {
    job.WriteSecret? && job.secret.secretRef == ref
  }

  /** The row is being written, or is queued with no flush ahead of it. */
  ghost predicate RowComesFirst(sys: System, ref: string) {
    || (sys.write.WritingSecret? && sys.write.secret.secretRef == ref)
    || exists k :: 0 <= k < |sys.queue| && WritesRow(sys.queue[k], ref) && forall j :: 0 <= j < k ==> sys.queue[j] != FlushSnapshot
  }

  /** Stored, or lost with a failed write, or on its way ahead of every snapshot that names it. */
  ghost predicate StoredFirst(sys: System, ref: string) {
    || ref in sys.secretRows || sys.secretLost
    || (RowComesFirst(sys, ref) && !RowNames(sys.row, ref) && (sys.write.WritingSnapshot? ==> !Names(sys.write.payload, ref)))
  }

  lemma CallKeepsStoredFirst(sys: System, op: Operation, ref: string)
    requires StoredFirst(sys, ref)
    ensures StoredFirst(Called(sys, op), ref)
  {
    var jobs := JobsOf(sys.mem, op);
    if k :| 0 <= k < |sys.queue| && WritesRow(sys.queue[k], ref) && forall j :: 0 <= j < k ==> sys.queue[j] != FlushSnapshot {
      assert (sys.queue + jobs)[k] == sys.queue[k] && forall j :: 0 <= j < k ==> (sys.queue + jobs)[j] == sys.queue[j];
    }
  }

  lemma StartKeepsStoredFirst(sys: System, ref: string)
    requires StoredFirst(sys, ref)
    ensures StoredFirst(Started(sys), ref)
  {
    if sys.write.Idle? && sys.queue != [] && !(ref in sys.secretRows || sys.secretLost) {
      var k :| 0 <= k < |sys.queue| && WritesRow(sys.queue[k], ref) && forall j :: 0 <= j < k ==> sys.queue[j] != FlushSnapshot;
      if k > 0 {
        assert sys.queue[0] != FlushSnapshot;
        assert sys.queue[1..][k - 1] == sys.queue[k] && forall j :: 0 <= j < k - 1 ==> sys.queue[1..][j] == sys.queue[j + 1];
      }
    }
  }

  lemma FinishKeepsStoredFirst(sys: System, ok: bool, ref: string)
    requires StoredFirst(sys, ref)
    ensures StoredFirst(Finished(sys, ok), ref)
  {
  }

  lemma {:induction false} RunKeepsStoredFirst(sys: System, events: seq<Event>, ref: string)
    requires StoredFirst(sys, ref)
    ensures StoredFirst(AfterEvents(sys, events), ref)
    decreases |events|
  {
    if events != [] {
      match events[0] {
        case Call(op) => CallKeepsStoredFirst(sys, op, ref);
        case StartJob => StartKeepsStoredFirst(sys, ref);
        case FinishJob(ok) => FinishKeepsStoredFirst(sys, ok, ref);
      }
      RunKeepsStoredFirst(React(sys, events[0]), events[1..], ref);
    }
  }

  /**
   A secret put while no flush is waiting: whatever happens afterwards, the stored snapshot names it only once
   its row is stored, unless some secret write has failed.
   */
  lemma SecretIsStoredFirst(sys: System, secret: SecretRecord, events: seq<Event>)
    requires FlushSnapshot !in sys.queue && !RowNames(sys.row, secret.secretRef)
    requires sys.write.WritingSnapshot? ==> !Names(sys.write.payload, secret.secretRef)
    ensures var after := AfterEvents(Called(sys, PutSecret(secret)), events);
            RowNames(after.row, secret.secretRef) ==> secret.secretRef in after.secretRows || after.secretLost
  {
    PutComesFirst(sys, secret);
    RunKeepsStoredFirst(Called(sys, PutSecret(secret)), events, secret.secretRef);
  }

  lemma PutComesFirst(sys: System, secret: SecretRecord)
    requires FlushSnapshot !in sys.queue && !RowNames(sys.row, secret.secretRef)
    requires sys.write.WritingSnapshot? ==> !Names(sys.write.payload, secret.secretRef)
    ensures StoredFirst(Called(sys, PutSecret(secret)), secret.secretRef)
  {
    var after := Called(sys, PutSecret(secret));
    var k := |sys.queue|;
    assert after.queue == sys.queue + JobsOf(sys.mem, PutSecret(secret));
    assert WritesRow(after.queue[k], secret.secretRef);
    forall j | 0 <= j < k ensures after.queue[j] != FlushSnapshot {
      assert after.queue[j] == sys.queue[j] && sys.queue[j] in sys.queue;
    }
  }

  /*** With a flush waiting ***/

  lemma EntryIsListed<K, V>(m: OrderedMap<K, V>, k: K)
    requires m.Valid() && k in m.at
    ensures (k, m.at[k]) in m.Entries()
  {
    ListedOnce(m.order, m.at.Keys);
    Lists(m);
    var i :| 0 <= i < |m.order| && m.order[i] == k;
    assert m.Entries()[i] == (k, m.at[k]);
  }

  /** Each write succeeds. */
  predicate AllSucceed(events: seq<Event>) {
    forall i :: 0 <= i < |events| ==> events[i] == StartJob || events[i] == FinishJob(true)
  }

  lemma OneJobDone(sys: System)
    requires sys.write.Idle? && sys.queue != []
    ensures
      var after := Finished(Started(sys), true);
      && after.write.Idle? && after.mem == sys.mem && after.queue == sys.queue[1..] && after.secretLost == sys.secretLost
      && (sys.queue[0] == FlushSnapshot ==> after.row == Some(TakeSnapshot(sys.mem)) && after.secretRows == sys.secretRows)
      && (sys.queue[0].WriteSecret? ==> after.secretRows == sys.secretRows[sys.queue[0].secret.secretRef := sys.queue[0].secret])
  {
  }

  lemma TwoEvents(sys: System, rest: seq<Event>)
    ensures AfterEvents(sys, [StartJob, FinishJob(true)] + rest) == AfterEvents(Finished(Started(sys), true), rest)
  {
    var events := [StartJob, FinishJob(true)] + rest;
    assert events[1..] == [FinishJob(true)] + rest && events[1..][1..] == rest;
    assert AfterEvents(sys, events) == AfterEvents(Started(sys), events[1..]);
  }

  /** The jobs up to the first flush, done one after the other. */
  lemma {:induction false} DoneToTheFlush(sys: System, n: nat, ref: string) returns (events: seq<Event>)
    requires sys.write.Idle? && n < |sys.queue| && sys.queue[n] == FlushSnapshot
    requires forall j :: 0 <= j < n ==> sys.queue[j] != FlushSnapshot && !WritesRow(sys.queue[j], ref)
    requires ref !in sys.secretRows && !sys.secretLost
    ensures AllSucceed(events)
    ensures var after := AfterEvents(sys, events);
            after.row == Some(TakeSnapshot(sys.mem)) && ref !in after.secretRows && !after.secretLost
    decreases n
  {
    var next := Finished(Started(sys), true);
    OneJobDone(sys);
    var rest := [];
    if n > 0 {
      forall j | 0 <= j < n - 1 ensures next.queue[j] != FlushSnapshot && !WritesRow(next.queue[j], ref) {
        assert next.queue[j] == sys.queue[j + 1];
      }
      assert sys.queue[0] != FlushSnapshot;
      rest := DoneToTheFlush(next, n - 1, ref);
    }
    events := [StartJob, FinishJob(true)] + rest;
    TwoEvents(sys, rest);
  }

  lemma FirstFlush(queue: seq<Job>) returns (n: nat)
    requires FlushSnapshot in queue
    ensures n < |queue| && queue[n] == FlushSnapshot && forall j :: 0 <= j < n ==> queue[j] != FlushSnapshot
  {
    n := 0;
    while queue[n] != FlushSnapshot
      invariant n < |queue| && forall j :: 0 <= j < n ==> queue[j] != FlushSnapshot
      decreases |queue| - n
    {
      assert exists m :: 0 <= m < |queue| && queue[m] == FlushSnapshot;
      n := n + 1;
    }
  }

  /** No job of the list writes the row. */
  ghost predicate NoneWrites(queue: seq<Job>, ref: string) {
    forall j :: 0 <= j < |queue| ==> !WritesRow(queue[j], ref)
  }

  /** With a flush waiting ahead of it, the same secret can be named by the stored snapshot before it has a row, with no write failing. */
  lemma WaitingFlushNamesIt(sys: System, secret: SecretRecord) returns (events: seq<Event>)
    requires sys.write.Idle? && FlushSnapshot in sys.queue && sys.mem.latestSecretRefByConnection.Valid()
    requires secret.secretRef !in sys.secretRows && !sys.secretLost && NoneWrites(sys.queue, secret.secretRef)
    ensures AllSucceed(events)
    ensures var after := AfterEvents(Called(sys, PutSecret(secret)), events);
            RowNames(after.row, secret.secretRef) && secret.secretRef !in after.secretRows && !after.secretLost
  {
    var put := Called(sys, PutSecret(secret));
    var n := FirstFlush(sys.queue);
    assert put.queue == sys.queue + JobsOf(sys.mem, PutSecret(secret));
    forall j | 0 <= j < n ensures put.queue[j] != FlushSnapshot && !WritesRow(put.queue[j], secret.secretRef) {
      assert put.queue[j] == sys.queue[j];
    }
    events := DoneToTheFlush(put, n, secret.secretRef);
    SetValid(sys.mem.latestSecretRefByConnection, secret.connectionId, secret.secretRef);
    EntryIsListed(put.mem.latestSecretRefByConnection, secret.connectionId);
    assert (secret.connectionId, secret.secretRef) in TakeSnapshot(put.mem).latestSecretRefs;
  }

  /**
   Exactly: a new secret can come to be named by the stored snapshot before its row is stored, with no write
   failing, if and only if a flush was waiting when it was put.
   */
  lemma NamedTooSoonIff(sys: System, secret: SecretRecord)
    requires sys.write.Idle? && sys.mem.latestSecretRefByConnection.Valid() && !RowNames(sys.row, secret.secretRef)
    requires secret.secretRef !in sys.secretRows && !sys.secretLost && NoneWrites(sys.queue, secret.secretRef)
    ensures (exists events :: var after := AfterEvents(Called(sys, PutSecret(secret)), events);
                              RowNames(after.row, secret.secretRef) && secret.secretRef !in after.secretRows && !after.secretLost)
            <==> FlushSnapshot in sys.queue
  {
    if FlushSnapshot in sys.queue {
      var events := WaitingFlushNamesIt(sys, secret);
    } else {
      forall events ensures var after := AfterEvents(Called(sys, PutSecret(secret)), events);
                            !(RowNames(after.row, secret.secretRef) && secret.secretRef !in after.secretRows && !after.secretLost) {
        SecretIsStoredFirst(sys, secret, events);
      }
    }
  }
}
