/** What the silver table is built from: for each client and dataset, the copy made by its latest run. */
module BronzeAssets {
  import opened Wrappers
  import opened Sequences
  import opened StableSort
  import opened InsertionMap
  import opened TextOrder
  import opened Delimiters
  import opened Bronze
  import opened BronzeLaws
  import opened BronzeCopies

  /** A copy found in the bronze area, with the names of the directories it is in. */
  datatype Asset = Asset(client: string, dataset: string, ingestedAt: string, path: string)

  function KeyOf(): Asset -> (string, string) {
    (a: Asset) => (a.client, a.dataset)
  }

  /** The first of the copies of a client and dataset with the greatest run identifier. */
  function Newest(found: seq<Asset>, key: (string, string)): Option<Asset> {
    if found == [] then None
    else
      var newest, a := Newest(found[..|found| - 1], key), found[|found| - 1];
      if KeyOf()(a) == key && (newest.None? || TextLess(newest.value.ingestedAt, a.ingestedAt)) then Some(a) else newest
  }

  predicate KeyOrder(a: Asset, b: Asset) {
    if a.client != b.client then TextLe(a.client, b.client) else TextLe(a.dataset, b.dataset)
  }

  function ByKey(): (Asset, Asset) -> bool {
    (a: Asset, b: Asset) => KeyOrder(a, b)
  }

  lemma KeyOrderTransitive(a: Asset, b: Asset, c: Asset)
    requires KeyOrder(a, b) && KeyOrder(b, c)
    ensures KeyOrder(a, c)
  {
    if a.client == b.client == c.client {
      TextLeTransitive(a.dataset, b.dataset, c.dataset);
    } else {
      if a.client != b.client && b.client != c.client {
        TextLeTransitive(a.client, b.client, c.client);
        if a.client == c.client {
          TextLeAntisymmetric(a.client, b.client);
        }
      }
    }
  }

  lemma KeyOrderIsTotal()
    ensures TotalPreorder(ByKey())
  {
    forall a: Asset, b: Asset ensures KeyOrder(a, b) || KeyOrder(b, a) {
      TextLeTotal(a.client, b.client);
      TextLeTotal(a.dataset, b.dataset);
    }
    forall a: Asset, b: Asset, c: Asset | KeyOrder(a, b) && KeyOrder(b, c) ensures KeyOrder(a, c) {
      KeyOrderTransitive(a, b, c);
    }
  }

  lemma OneMoreFound(found: seq<Asset>, i: nat, key: (string, string))
    requires i < |found|
    ensures Newest(found[..i + 1], key)
      == var newest := Newest(found[..i], key);
         if KeyOf()(found[i]) == key && (newest.None? || TextLess(newest.value.ingestedAt, found[i].ingestedAt)) then Some(found[i]) else newest
  {
    assert found[..i + 1][..i] == found[..i];
  }

  lemma {:induction false} NewestIs(found: seq<Asset>, key: (string, string))
    ensures match Newest(found, key)
            case None => forall a :: a in found ==> KeyOf()(a) != key
            case Some(n) => n in found && KeyOf()(n) == key && forall a :: a in found && KeyOf()(a) == key ==> TextLe(a.ingestedAt, n.ingestedAt)
  {
    if found != [] {
      var init, a := found[..|found| - 1], found[|found| - 1];
      NewestIs(init, key);
      assert found == init + [a];
      TextLeReflexive(a.ingestedAt);
      if KeyOf()(a) == key && Newest(init, key).Some? {
        var n := Newest(init, key).value;
        LessIsNotGe(n.ingestedAt, a.ingestedAt);
        forall b | b in init && KeyOf()(b) == key && TextLess(n.ingestedAt, a.ingestedAt) ensures TextLe(b.ingestedAt, a.ingestedAt) {
          TextLeTransitive(b.ingestedAt, n.ingestedAt, a.ingestedAt);
        }
      }
    }
  }

  /** No copy of the same client and dataset has a greater run identifier, and none found earlier has the same one. */
  ghost predicate IsNewest(found: seq<Asset>, i: nat) {
    i < |found| && forall j :: 0 <= j < |found| && found[j].client == found[i].client && found[j].dataset == found[i].dataset ==>
      TextLe(found[j].ingestedAt, found[i].ingestedAt) && (j < i ==> TextLess(found[j].ingestedAt, found[i].ingestedAt))
  }

  lemma {:induction false} NewestAt(found: seq<Asset>, i: nat)
    requires IsNewest(found, i)
    ensures Newest(found, KeyOf()(found[i])) == Some(found[i])
  {
    var n := |found| - 1;
    if i == n {
      NewestIs(found[..n], KeyOf()(found[i]));
    } else {
      NewestAt(found[..n], i);
      LessIsNotGe(found[i].ingestedAt, found[n].ingestedAt);
    }
  }

  lemma {:induction false} NewestPlace(found: seq<Asset>, key: (string, string)) returns (i: nat)
    requires Newest(found, key).Some?
    ensures IsNewest(found, i) && found[i] == Newest(found, key).value && KeyOf()(found[i]) == key
  {
    var n := |found| - 1;
    NewestIs(found[..n], key);
    if Newest(found[..n], key) == Newest(found, key) {
      i := NewestPlace(found[..n], key);
      LessIsNotGe(found[i].ingestedAt, found[n].ingestedAt);
    } else {
      i := n;
      NewestIsAtTheEnd(found, key);
    }
  }

  lemma NewestIsAtTheEnd(found: seq<Asset>, key: (string, string))
    requires found != [] && Newest(found[..|found| - 1], key) != Newest(found, key)
    ensures IsNewest(found, |found| - 1)
  {
    var n := |found| - 1;
    NewestIs(found[..n], key);
    TextLeReflexive(found[n].ingestedAt);
    forall j | 0 <= j < n && KeyOf()(found[j]) == key ensures TextLess(found[j].ingestedAt, found[n].ingestedAt) {
      assert found[j] == found[..n][j];
      LeThenLess(found[j].ingestedAt, Newest(found[..n], key).value.ingestedAt, found[n].ingestedAt);
    }
  }

  ghost predicate FoundNewest(found: seq<Asset>, a: Asset) {
    exists i: nat :: IsNewest(found, i) && found[i] == a
  }

  lemma NewestIffFound(found: seq<Asset>, a: Asset)
    ensures Newest(found, KeyOf()(a)) == Some(a) <==> FoundNewest(found, a)
  {
    if Newest(found, KeyOf()(a)) == Some(a) {
      var i := NewestPlace(found, KeyOf()(a));
    }
    forall i: nat | IsNewest(found, i) && found[i] == a ensures Newest(found, KeyOf()(a)) == Some(a) {
      NewestAt(found, i);
    }
  }

  lemma NewestAreFound(found: seq<Asset>, assets: seq<Asset>)
    requires forall a :: a in assets <==> Newest(found, KeyOf()(a)) == Some(a)
    ensures forall a :: a in assets <==> FoundNewest(found, a)
  {
    forall a ensures a in assets <==> FoundNewest(found, a) {
      NewestIffFound(found, a);
    }
  }

  /** By client, then by dataset, each pair once. */
  ghost predicate InKeyOrder(assets: seq<Asset>) {
    forall i, j :: 0 <= i < j < |assets| ==>
      TextLess(assets[i].client, assets[j].client)
      || (assets[i].client == assets[j].client && TextLess(assets[i].dataset, assets[j].dataset))
  }

  /** `discover_latest_bronze_assets`, over the copies found in the bronze area. */
  method DiscoverLatestBronzeAssets(found: seq<Asset>) returns (assets: seq<Asset>)
    ensures InKeyOrder(assets)
    ensures forall a :: a in assets <==> FoundNewest(found, a)
    ensures forall a :: a in assets <==> Newest(found, KeyOf()(a)) == Some(a)
  {
    var latest: OrderedMap<(string, string), Asset> := Empty();
    for i := 0 to |found|
      invariant KeyedBy(latest, KeyOf())
      invariant forall k :: latest.Get(k) == Newest(found[..i], k)
    {
      var candidate := found[i];
      var key := KeyOf()(candidate);
      var current := latest.Get(key);
      if current.None? || TextLess(current.value.ingestedAt, candidate.ingestedAt) {
        SetKeeps(latest, KeyOf(), candidate);
        latest := latest.Set(key, candidate);
      }
      forall k ensures latest.Get(k) == Newest(found[..i + 1], k) {
        OneMoreFound(found, i, k);
      }
    }
    assert found[..|found|] == found;
    assets := Sort(latest.Values(), ByKey());
    KeyOrderIsTotal();
    SortSorted(latest.Values(), ByKey());
    SortedOnce(latest, assets);
    SortedByFields(assets);
    NewestAreFound(found, assets);
  }

  lemma SortedByFields(assets: seq<Asset>)
    requires Sorted(assets, ByKey()) && NoDup(Map(assets, KeyOf()))
    ensures InKeyOrder(assets)
  {
    forall i, j | 0 <= i < j < |assets|
      ensures TextLess(assets[i].client, assets[j].client)
           || (assets[i].client == assets[j].client && TextLess(assets[i].dataset, assets[j].dataset))
    {
      assert ByKey()(assets[i], assets[j]);
      assert Map(assets, KeyOf())[i] != Map(assets, KeyOf())[j];
    }
  }

  lemma SortedOnce(latest: OrderedMap<(string, string), Asset>, assets: seq<Asset>)
    requires KeyedBy(latest, KeyOf()) && assets == Sort(latest.Values(), ByKey())
    ensures NoDup(Map(assets, KeyOf()))
    ensures forall a :: a in assets <==> latest.Get(KeyOf()(a)) == Some(a)
  {
    ValuesDistinct(latest, KeyOf());
    SortNoDup(latest.Values(), ByKey());
    forall a ensures a in assets <==> latest.Get(KeyOf()(a)) == Some(a) {
      SortMember(latest.Values(), ByKey(), a);
    }
    forall i, j | 0 <= i < j < |assets| ensures KeyOf()(assets[i]) != KeyOf()(assets[j]) {
      assert assets[i] in assets && assets[j] in assets;
    }
  }

  /*** What the bronze area holds ***/

  /** The source of the last entry that was copied to `path`. */
  function LastCopied(log: seq<Entry>, path: string): Option<string> {
    if log == [] then None
    else if log[|log| - 1].bronzePath == path then Some(log[|log| - 1].source.path)
    else LastCopied(log[..|log| - 1], path)
  }

  ghost predicate OwnEntry(e: Entry) {
    Named(e.source) && e.bronzePath == BronzePath(e.source, e.ingestedAt)
  }

  ghost predicate OwnEntries(log: seq<Entry>) {
    forall i :: 0 <= i < |log| ==> OwnEntry(log[i])
  }

  ghost predicate Holds(bronze: map<string, string>, log: seq<Entry>) {
    OwnEntries(log) && forall path :: Lookup(bronze, path) == LastCopied(log, path)
  }

  lemma HoldsOneMore(bronze: map<string, string>, log: seq<Entry>, e: Entry)
    requires Holds(bronze, log) && OwnEntry(e)
    ensures Holds(bronze[e.bronzePath := e.source.path], log + [e])
  {
    assert (log + [e])[..|log|] == log;
    forall path ensures Lookup(bronze[e.bronzePath := e.source.path], path) == LastCopied(log + [e], path) {
      assert Lookup(bronze, path) == LastCopied(log, path);
    }
  }

  lemma StageOneHolds(disk: Disk, runId: string, s: Stage, source: SourceFile, before: seq<Entry>)
    requires Holds(s.bronze, before + s.manifest) && Named(source)
    ensures var t := StageOne(disk, runId, false, s, source);
            Holds(t.bronze, before + t.manifest)
  {
    var t := StageOne(disk, runId, false, s, source);
    if t.manifest != s.manifest {
      var e := t.manifest[|s.manifest|];
      HoldsOneMore(s.bronze, before + s.manifest, e);
      assert before + t.manifest == before + s.manifest + [e];
    }
  }

  lemma {:induction false} StageAllHolds(disk: Disk, runId: string, s: Stage, sources: seq<SourceFile>, before: seq<Entry>)
    requires Holds(s.bronze, before + s.manifest) && forall x :: x in sources ==> Named(x)
    ensures var t := StageAll(disk, runId, false, s, sources);
            Holds(t.bronze, before + t.manifest)
    decreases |sources|
  {
    if sources != [] {
      var n := |sources| - 1;
      StageAllHolds(disk, runId, s, sources[..n], before);
      StageOneHolds(disk, runId, StageAll(disk, runId, false, s, sources[..n]), sources[n], before);
    }
  }

  ghost predicate AllNamed(days: seq<Day>) {
    forall i, x :: 0 <= i < |days| && x in days[i].discovered ==> Named(x)
  }

  lemma {:induction false} PassesHold(s: Stage, days: seq<Day>)
    requires Holds(s.bronze, s.manifest) && AllNamed(days)
    ensures Holds(Passes(s, days).bronze, Passes(s, days).manifest)
    decreases |days|
  {
    if days != [] {
      var before, day := Passes(s, days[..|days| - 1]), days[|days| - 1];
      PassesHold(s, days[..|days| - 1]);
      var start := Stage(before.files, before.watermarks, before.bronze, [], []);
      var changed := Filter(day.discovered, IsChanged(day.disk, before.files));
      FilterMembers(day.discovered, IsChanged(day.disk, before.files));
      assert before.manifest + [] == before.manifest;
      StageAllHolds(day.disk, day.runId, start, changed, before.manifest);
    }
  }

  /*** What silver reads ***/

  predicate IsFor(e: Entry, key: (string, string)) {
    (e.source.client, e.source.dataset) == key
  }

  /** The last of the accepted files of a client and dataset with the greatest run identifier. */
  function LatestEntry(log: seq<Entry>, key: (string, string)): Option<Entry> {
    if log == [] then None
    else
      var latest, e := LatestEntry(log[..|log| - 1], key), log[|log| - 1];
      if IsFor(e, key) && (latest.None? || TextLe(latest.value.ingestedAt, e.ingestedAt)) then Some(e) else latest
  }

  ghost predicate IsLatest(log: seq<Entry>, key: (string, string), e: Entry) {
    && e in log && IsFor(e, key) && LastCopied(log, e.bronzePath) == Some(e.source.path)
    && forall x :: x in log && IsFor(x, key) ==> TextLe(x.ingestedAt, e.ingestedAt)
  }

  lemma NextIsLatest(log: seq<Entry>, key: (string, string), e: Entry)
    requires IsFor(e, key)
    requires forall x :: x in log && IsFor(x, key) ==> TextLe(x.ingestedAt, e.ingestedAt)
    ensures IsLatest(log + [e], key, e)
  {
    TextLeReflexive(e.ingestedAt);
  }

  lemma StaysLatest(log: seq<Entry>, key: (string, string), latest: Entry, e: Entry)
    requires IsLatest(log, key, latest) && OwnEntry(latest) && OwnEntry(e)
    requires IsFor(e, key) ==> !TextLe(latest.ingestedAt, e.ingestedAt)
    ensures IsLatest(log + [e], key, latest)
  {
    CopiesCollideIff(latest.source, e.source, latest.ingestedAt, e.ingestedAt);
    TextLeTotal(latest.ingestedAt, e.ingestedAt);
    assert (log + [e])[..|log|] == log;
    if IsFor(e, key) {
      TextLeReflexive(e.ingestedAt);
    }
  }

  lemma {:induction false} LatestEntryIs(log: seq<Entry>, key: (string, string))
    requires OwnEntries(log)
    ensures match LatestEntry(log, key)
            case None => forall e :: e in log ==> !IsFor(e, key)
            case Some(latest) => OwnEntry(latest) && IsLatest(log, key, latest)
  {
    if log != [] {
      var init, e := log[..|log| - 1], log[|log| - 1];
      LatestEntryIs(init, key);
      assert log == init + [e];
      var latest := LatestEntry(init, key);
      if LatestEntry(log, key) == Some(e) && IsFor(e, key) && (latest.None? || TextLe(latest.value.ingestedAt, e.ingestedAt)) {
        forall x | x in init && IsFor(x, key) ensures TextLe(x.ingestedAt, e.ingestedAt) {
          TextLeTransitive(x.ingestedAt, latest.value.ingestedAt, e.ingestedAt);
        }
        NextIsLatest(init, key, e);
      } else if latest.Some? {
        StaysLatest(init, key, latest.value, e);
      }
    }
  }

  lemma {:induction false} CopiedByAnEntry(log: seq<Entry>, path: string)
    ensures LastCopied(log, path).Some? <==> exists e :: e in log && e.bronzePath == path
  {
    if log != [] {
      CopiedByAnEntry(log[..|log| - 1], path);
      assert log == log[..|log| - 1] + [log[|log| - 1]];
    }
  }

  /** `found` lists, in any order, the copies in the bronze area under the names of their directories. */
  ghost predicate Lists(found: seq<Asset>, bronze: map<string, string>) {
    && (forall a :: a in found ==> a.path in bronze && a.path == CopyPath(a.client, a.dataset, a.ingestedAt)
                                   && Without(a.client, '/') && Without(a.dataset, '/'))
    && (forall path :: path in bronze ==> exists a :: a in found && a.path == path)
  }

  /** The file whose copy the silver table is built from. */
  function ReadFor(found: seq<Asset>, bronze: map<string, string>, key: (string, string)): Option<string> {
    match Newest(found, key)
    case None => None
    case Some(a) => Lookup(bronze, a.path)
  }

  lemma FoundForEntry(found: seq<Asset>, bronze: map<string, string>, log: seq<Entry>, e: Entry) returns (a: Asset)
    requires Lists(found, bronze) && Holds(bronze, log) && e in log
    ensures a in found && KeyOf()(a) == (e.source.client, e.source.dataset) && a.ingestedAt == e.ingestedAt && a.path == e.bronzePath
  {
    CopiedByAnEntry(log, e.bronzePath);
    assert Lookup(bronze, e.bronzePath).Some?;
    a :| a in found && a.path == e.bronzePath;
    PathsEqualIff(a.client, a.dataset, a.ingestedAt, e.source.client, e.source.dataset, e.ingestedAt);
  }

  lemma EntryForFound(found: seq<Asset>, bronze: map<string, string>, log: seq<Entry>, a: Asset) returns (e: Entry)
    requires Lists(found, bronze) && Holds(bronze, log) && a in found
    ensures e in log && KeyOf()(a) == (e.source.client, e.source.dataset) && a.ingestedAt == e.ingestedAt && a.path == e.bronzePath
  {
    CopiedByAnEntry(log, a.path);
    assert Lookup(bronze, a.path).Some?;
    e :| e in log && e.bronzePath == a.path;
    PathsEqualIff(a.client, a.dataset, a.ingestedAt, e.source.client, e.source.dataset, e.ingestedAt);
  }

  lemma ReadsTheLatestOf(found: seq<Asset>, bronze: map<string, string>, log: seq<Entry>, key: (string, string))
    requires Lists(found, bronze) && Holds(bronze, log)
    ensures ReadFor(found, bronze, key) == match LatestEntry(log, key) case None => None case Some(e) => Some(e.source.path)
  {
    LatestEntryIs(log, key);
    NewestIs(found, key);
    if LatestEntry(log, key).Some? {
      var latest := LatestEntry(log, key).value;
      var a := FoundForEntry(found, bronze, log, latest);
      var newest := Newest(found, key).value;
      var e := EntryForFound(found, bronze, log, newest);
      TextLeAntisymmetric(newest.ingestedAt, latest.ingestedAt);
    } else if Newest(found, key).Some? {
      var e := EntryForFound(found, bronze, log, Newest(found, key).value);
      assert false;
    }
  }

  /** After any run of normal passes, silver reads of each client and dataset the last file accepted by the latest run. */
  lemma SilverReadsTheLatest(days: seq<Day>, found: seq<Asset>, key: (string, string))
    requires AllNamed(days) && Lists(found, Passes(NOTHING_STAGED, days).bronze)
    ensures ReadFor(found, Passes(NOTHING_STAGED, days).bronze, key)
            == match LatestEntry(Passes(NOTHING_STAGED, days).manifest, key) case None => None case Some(e) => Some(e.source.path)
  {
    PassesHold(NOTHING_STAGED, days);
    ReadsTheLatestOf(found, Passes(NOTHING_STAGED, days).bronze, Passes(NOTHING_STAGED, days).manifest, key);
  }

  /*** Run identifiers in order ***/

  ghost predicate AllUpTo(log: seq<Entry>, r: string) {
    forall e :: e in log ==> TextLe(e.ingestedAt, r)
  }

  ghost predicate InRunOrder(log: seq<Entry>) {
    log == [] || (InRunOrder(log[..|log| - 1]) && AllUpTo(log[..|log| - 1], log[|log| - 1].ingestedAt))
  }

  ghost predicate RunsInOrder(days: seq<Day>) {
    forall i, j :: 0 <= i < j < |days| ==> TextLe(days[i].runId, days[j].runId)
  }

  lemma {:induction false} StageAllInRunOrder(disk: Disk, runId: string, s: Stage, sources: seq<SourceFile>, before: seq<Entry>)
    requires InRunOrder(before + s.manifest) && AllUpTo(before + s.manifest, runId)
    ensures var t := StageAll(disk, runId, false, s, sources);
            InRunOrder(before + t.manifest) && AllUpTo(before + t.manifest, runId)
    decreases |sources|
  {
    if sources != [] {
      var n := |sources| - 1;
      StageAllInRunOrder(disk, runId, s, sources[..n], before);
      StageOneInRunOrder(disk, runId, StageAll(disk, runId, false, s, sources[..n]), sources[n], before);
    }
  }

  lemma NextInRunOrder(log: seq<Entry>, e: Entry)
    requires InRunOrder(log) && AllUpTo(log, e.ingestedAt)
    ensures InRunOrder(log + [e]) && AllUpTo(log + [e], e.ingestedAt)
  {
    assert (log + [e])[..|log|] == log;
    TextLeReflexive(e.ingestedAt);
  }

  lemma StageOneInRunOrder(disk: Disk, runId: string, s: Stage, source: SourceFile, before: seq<Entry>)
    requires InRunOrder(before + s.manifest) && AllUpTo(before + s.manifest, runId)
    ensures var t := StageOne(disk, runId, false, s, source);
            InRunOrder(before + t.manifest) && AllUpTo(before + t.manifest, runId)
  {
    var t := StageOne(disk, runId, false, s, source);
    if t.manifest != s.manifest {
      var e := t.manifest[|s.manifest|];
      NextInRunOrder(before + s.manifest, e);
      assert before + t.manifest == before + s.manifest + [e];
    }
  }

  lemma {:induction false} PassesInRunOrder(days: seq<Day>, r: string)
    requires RunsInOrder(days) && forall i :: 0 <= i < |days| ==> TextLe(days[i].runId, r)
    ensures InRunOrder(Passes(NOTHING_STAGED, days).manifest) && AllUpTo(Passes(NOTHING_STAGED, days).manifest, r)
    decreases |days|
  {
    if days != [] {
      var before, day := Passes(NOTHING_STAGED, days[..|days| - 1]), days[|days| - 1];
      PassesInRunOrder(days[..|days| - 1], day.runId);
      var start := Stage(before.files, before.watermarks, before.bronze, [], []);
      assert before.manifest + [] == before.manifest;
      StageAllInRunOrder(day.disk, day.runId, start, Filter(day.discovered, IsChanged(day.disk, before.files)), before.manifest);
      UpToLater(Passes(NOTHING_STAGED, days).manifest, day.runId, r);
    }
  }

  lemma UpToLater(log: seq<Entry>, q: string, r: string)
    requires AllUpTo(log, q) && TextLe(q, r)
    ensures AllUpTo(log, r)
  {
    forall e | e in log ensures TextLe(e.ingestedAt, r) {
      TextLeTransitive(e.ingestedAt, q, r);
    }
  }

  lemma {:induction false} LastIsLatest(log: seq<Entry>, key: (string, string), k: nat)
    requires InRunOrder(log) && k < |log| && IsFor(log[k], key) && forall j :: k < j < |log| ==> !IsFor(log[j], key)
    ensures LatestEntry(log, key) == Some(log[k])
  {
    var n := |log| - 1;
    if k < n {
      LastIsLatest(log[..n], key, k);
    } else {
      LatestIsIn(log[..n], key);
    }
  }

  lemma {:induction false} LatestIsIn(log: seq<Entry>, key: (string, string))
    ensures LatestEntry(log, key).Some? ==> LatestEntry(log, key).value in log
  {
    if log != [] {
      LatestIsIn(log[..|log| - 1], key);
      assert log == log[..|log| - 1] + [log[|log| - 1]];
    }
  }

  /**
   With run identifiers that never fall, silver reads of each client and dataset the last accepted file and
   no other; the days of the earlier ones lie before it.
   */
  lemma SilverReadsOnlyTheLast(days: seq<Day>, found: seq<Asset>, k: nat)
    requires AllNamed(days) && RunsInOrder(days) && Lists(found, Passes(NOTHING_STAGED, days).bronze)
    requires k < |Passes(NOTHING_STAGED, days).manifest|
    requires var log := Passes(NOTHING_STAGED, days).manifest;
             forall j :: k < j < |log| ==> !SameDataset(log[k].source, log[j].source)
    ensures var s := Passes(NOTHING_STAGED, days);
            && ReadFor(found, s.bronze, (s.manifest[k].source.client, s.manifest[k].source.dataset)) == Some(s.manifest[k].source.path)
            && forall i :: 0 <= i < k && SameDataset(s.manifest[i].source, s.manifest[k].source)
                           && s.manifest[i].span.Some? && s.manifest[k].span.Some?
                 ==> s.manifest[i].span.value.last < s.manifest[k].span.value.first
  {
    var s := Passes(NOTHING_STAGED, days);
    var key := (s.manifest[k].source.client, s.manifest[k].source.dataset);
    var r := days[|days| - 1].runId;
    TextLeReflexive(r);
    PassesInRunOrder(days, r);
    LastIsLatest(s.manifest, key, k);
    SilverReadsTheLatest(days, found, key);
    forall i | 0 <= i < k && SameDataset(s.manifest[i].source, s.manifest[k].source) && s.manifest[i].span.Some? && s.manifest[k].span.Some?
      ensures s.manifest[i].span.value.last < s.manifest[k].span.value.first {
      WatermarkSafety(days, WatermarkKey(s.manifest[k].source), i, k);
    }
  }
}
