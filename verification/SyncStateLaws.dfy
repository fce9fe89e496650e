/**
 Sync states: what an upsert keeps, and when two upserts meet in one row. The key of a row holds the
 connection and the source object, but not the organization.
 */
module SyncStateLaws {
  import opened Wrappers
  import opened InsertionMap
  import opened ConnectorTypes
  import opened ConnectorStore
  import opened StoreInvariant
  import opened Delimiters
  import opened PairKeys

  function Upserted(st: StoreState, o: string, c: string, s: string, patch: SyncStateUpdate, now: Millis): StoreState {
    Step(st, UpsertSyncState(o, c, s, patch, now))
  }

  function RowAt(st: StoreState, c: string, s: string): Option<SyncState> {
    st.syncStates.Get(SyncStateKey(c, s))
  }

  /** `getSyncState`: a row of another organization or connection under the same key is not shown. */
  function Visible(st: StoreState, o: string, c: string, s: string): Option<SyncState> {
    var row := RowAt(st, c, s);
    if row.Some? && row.value.organizationId == o && row.value.connectionId == c then row else None
  }

  /** An upsert changes the row under its key and no other, and nothing else of the store. */
  lemma UpsertTouchesOneRow(st: StoreState, o: string, c: string, s: string, patch: SyncStateUpdate, now: Millis, c': string, s': string)
    ensures var after := Upserted(st, o, c, s, patch, now);
            && after == st.(syncStates := after.syncStates)
            && (SyncStateKey(c', s') != SyncStateKey(c, s) ==> RowAt(after, c', s') == RowAt(st, c', s'))
            && (RowAt(st, c, s).Some? ==> after.syncStates.order == st.syncStates.order)
  {
  }

  /** What a field becomes: kept when undefined, cleared by a null, replaced by a value. */
  ghost predicate Follows<T(!new)>(field: Field<T>, before: Option<T>, after: Option<T>) {
    && (field == Undefined ==> after == before)
    && (field == Null ==> after == None)
    && (forall v :: field == Of(v) ==> after == Some(v))
  }

  /** Every field of the row follows the patch; the creation time stays. */
  lemma FieldsFollowThePatch(st: StoreState, o: string, c: string, s: string, patch: SyncStateUpdate, now: Millis)
    requires RowAt(st, c, s).Some?
    ensures var (before, after) := (RowAt(st, c, s).value, RowAt(Upserted(st, o, c, s, patch, now), c, s));
            && after.Some? && after.value.createdAt == before.createdAt && after.value.updatedAt == now
            && after.value.organizationId == o && after.value.connectionId == c && after.value.sourceObject == s
            && Follows(patch.watermarkText, before.watermarkText, after.value.watermarkText)
            && Follows(patch.watermarkAt, before.watermarkAt, after.value.watermarkAt)
            && Follows(patch.lastRunId, before.lastRunId, after.value.lastRunId)
            && Follows(patch.updatedByWorker, before.updatedByWorker, after.value.updatedByWorker)
            && after.value.cursorJson == (if patch.cursorJson.Some? then patch.cursorJson.value else before.cursorJson)
  {
  }

  function Over<T>(first: Field<T>, second: Field<T>): Field<T> {
    if second.Undefined? then first else second
  }

  /** The patch that says what two patches in turn say. */
  function Overlaid(first: SyncStateUpdate, second: SyncStateUpdate): SyncStateUpdate {
    SyncStateUpdate(
      Over(first.watermarkText, second.watermarkText),
      Over(first.watermarkAt, second.watermarkAt),
      if second.cursorJson.None? then first.cursorJson else second.cursorJson,
      Over(first.lastRunId, second.lastRunId),
      Over(first.updatedByWorker, second.updatedByWorker))
  }

  /** Two upserts of one row are one upsert of the overlaid patch, whatever the organizations; the first gives the creation time. */
  lemma TwoUpsertsAreOne(st: StoreState, o: string, o': string, c: string, s: string, first: SyncStateUpdate, second: SyncStateUpdate,
                         t: Millis, t': Millis)
    ensures var once, twice := Upserted(st, o', c, s, Overlaid(first, second), t'), Upserted(Upserted(st, o, c, s, first, t), o', c, s, second, t');
            && RowAt(once, c, s).Some?
            && RowAt(twice, c, s) == Some(RowAt(once, c, s).value.(createdAt := if RowAt(st, c, s).Some? then RowAt(st, c, s).value.createdAt else t))
            && twice.syncStates.order == once.syncStates.order
  {
  }

  /**
   After an upsert for one triple and another for a second: the first is shown unchanged when the keys
   differ, shown as the second left it when organization and connection are the same, and hidden otherwise.
   */
  lemma SecondUpsertHidesTheFirstIff(st: StoreState, o: string, c: string, s: string, first: SyncStateUpdate, t: Millis,
                                     o': string, c': string, s': string, second: SyncStateUpdate, t': Millis)
    ensures var one := Upserted(st, o, c, s, first, t);
            var two := Upserted(one, o', c', s', second, t');
            && Visible(one, o, c, s).Some?
            && Visible(two, o, c, s)
               == (if SyncStateKey(c, s) != SyncStateKey(c', s') then Visible(one, o, c, s)
                   else if o == o' && c == c' then RowAt(two, c, s) else None)
  {
  }

  /** With connection ids free of ":" the row is the connection's and the object's alone, so only the organization can collide. */
  lemma OneRowPerConnectionAndObject(c: string, s: string, c': string, s': string)
    requires Without(c, ':') && Without(c', ':')
    ensures SyncStateKey(c, s) == SyncStateKey(c', s') <==> c == c' && s == s'
  {
    ColonFreeKeysDiffer(c, s, c', s');
  }

  /** Two organizations that name one connection and object share a row: the second owns it and inherits the watermark of the first. */
  lemma OrganizationsShareARow(c: string, s: string, watermark: string, t: Millis, t': Millis)
    ensures
      var silent := SyncStateUpdate(Undefined, Undefined, None, Undefined, Undefined);
      var one := Upserted(EMPTY_STATE, "A", c, s, silent.(watermarkText := Of(watermark)), t);
      var two := Upserted(one, "B", c, s, silent, t');
      && Visible(two, "A", c, s) == None && |two.syncStates.order| == 1
      && Visible(two, "B", c, s).Some? && Visible(two, "B", c, s).value.watermarkText == Some(watermark)
  {
    assert "A"[0] != "B"[0];
  }

  /*** Where each connection has one organization ***/

  /** Every row belongs to the organization of its connection, whose id has no ":". */
  ghost predicate Owned(st: StoreState, owner: string -> string) {
    && KeyedBy(st.syncStates, KeyOfSyncState)
    && forall k :: k in st.syncStates.at ==> OwnedRow(st.syncStates.at[k], owner)
  }

  predicate OwnedRow(row: SyncState, owner: string -> string) {
    row.organizationId == owner(row.connectionId) && Without(row.connectionId, ':')
  }

  predicate OwnedCall(op: Operation, owner: string -> string) {
    op.UpsertSyncState? ==> op.organizationId == owner(op.connectionId) && Without(op.connectionId, ':')
  }

  /** Over every run of operations whose callers name the organization of the connection, the rows stay its own. */
  lemma {:induction false} RunKeepsOwned(st: StoreState, ops: seq<Operation>, owner: string -> string)
    requires Owned(st, owner) && forall i :: 0 <= i < |ops| ==> OwnedCall(ops[i], owner)
    ensures Owned(After(st, ops), owner)
    decreases |ops|
  {
    if ops != [] {
      if ops[0].UpsertSyncState? {
        var op := ops[0];
        SetKeeps(st.syncStates, KeyOfSyncState,
                 UpsertedSyncState(st, op.organizationId, op.connectionId, op.sourceObject, op.stateUpdate, op.now));
      } else {
        OthersLeaveSyncStates(st, ops[0]);
      }
      RunKeepsOwned(Step(st, ops[0]), ops[1..], owner);
    }
  }

  lemma OthersLeaveSyncStates(st: StoreState, op: Operation)
    requires !op.UpsertSyncState?
    ensures Step(st, op).syncStates == st.syncStates
  {
  }

  /** There the lookup agrees with a scan, so there is one row at most per organization, connection and object. */
  lemma VisibleAgreesWithScan(st: StoreState, owner: string -> string, o: string, c: string, s: string, row: SyncState)
    requires Owned(st, owner) && Without(c, ':')
    ensures Visible(st, o, c, s) == Some(row)
        <==> row in st.syncStates.Values() && row.organizationId == o && row.connectionId == c && row.sourceObject == s
  {
    ValuesDistinct(st.syncStates, KeyOfSyncState);
    var found := RowAt(st, c, s);
    if found.Some? {
      assert KeyOfSyncState(found.value) == SyncStateKey(c, s) && OwnedRow(found.value, owner);
      OneRowPerConnectionAndObject(found.value.connectionId, found.value.sourceObject, c, s);
    }
    if row in st.syncStates.Values() && row.connectionId == c && row.sourceObject == s {
      assert KeyOfSyncState(row) in st.syncStates.at;
    }
  }
}
