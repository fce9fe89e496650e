/** A forced rebuild: it forgets what was tracked and how far the watermarks had come, and stages every file anew. */
module RebuildLaws {
  import opened Wrappers
  import opened Sequences
  import opened PairKeys
  import opened Delimiters
  import opened Bronze
  import opened BronzeLaws
  import opened BronzePasses

  /** The same but for the copies in the bronze area. */
  ghost predicate SameButCopies(a: Stage, b: Stage) {
    a.files == b.files && a.watermarks == b.watermarks && a.manifest == b.manifest && a.quarantine == b.quarantine
  }

  lemma {:induction false} StagingIgnoresCopies(disk: Disk, runId: string, reprocess: bool, a: Stage, b: Stage, sources: seq<SourceFile>)
    requires SameButCopies(a, b)
    ensures SameButCopies(StageAll(disk, runId, reprocess, a, sources), StageAll(disk, runId, reprocess, b, sources))
    decreases |sources|
  {
    if sources != [] {
      StagingIgnoresCopies(disk, runId, reprocess, a, b, sources[..|sources| - 1]);
    }
  }

  /** Whatever the state held before, a forced rebuild of some files leaves the same tracked files, watermarks, manifest and quarantine. */
  lemma RebuildForgets(disk: Disk, runId: string, reprocess: bool, s: Stage, t: Stage, discovered: seq<SourceFile>)
    requires discovered != []
    ensures SameButCopies(Pass(disk, runId, reprocess, true, s, discovered), Pass(disk, runId, reprocess, true, t, discovered))
  {
    StagingIgnoresCopies(disk, runId, reprocess, Stage(map[], map[], s.bronze, [], []), Stage(map[], map[], t.bronze, [], []), discovered);
  }

  lemma AllAreChanged(disk: Disk, discovered: seq<SourceFile>)
    ensures Filter(discovered, IsChanged(disk, map[])) == discovered
  {
    forall x | x in discovered ensures IsChanged(disk, map[])(x) {
      var nothing: map<string, string> := map[];
      assert Lookup(nothing, x.path) == None;
    }
    FilterAll(discovered, IsChanged(disk, map[]));
  }

  /** It is the pass of a state that tracks nothing, over all the files. */
  lemma RebuildStartsAnew(disk: Disk, runId: string, reprocess: bool, s: Stage, discovered: seq<SourceFile>)
    requires discovered != []
    ensures SameButCopies(Pass(disk, runId, reprocess, true, s, discovered),
                          Pass(disk, runId, reprocess, false, Stage(map[], map[], map[], [], []), discovered))
  {
    AllAreChanged(disk, discovered);
    StagingIgnoresCopies(disk, runId, reprocess, Stage(map[], map[], s.bronze, [], []), Stage(map[], map[], map[], [], []), discovered);
  }

  /** A forced rebuild of no files changes nothing: the state is only cleared when there is something to stage. */
  lemma EmptyRebuildKeepsAll(disk: Disk, runId: string, reprocess: bool, s: Stage)
    ensures var t := Pass(disk, runId, reprocess, true, s, []);
            t.files == s.files && t.watermarks == s.watermarks && t.bronze == s.bronze && t.manifest == [] && t.quarantine == []
  {
  }

  /** The files that can be inspected. */
  function Inspectable(disk: Disk): SourceFile -> bool {
    (source: SourceFile) => disk.inspect(source).Some?
  }

  function Uninspectable(disk: Disk): SourceFile -> bool {
    (source: SourceFile) => disk.inspect(source).None?
  }

  /** Pairwise different clients or datasets. */
  ghost predicate OnePerDataset(sources: seq<SourceFile>) {
    forall p, q :: 0 <= p < q < |sources| ==> sources[p].client != sources[q].client || sources[p].dataset != sources[q].dataset
  }

  /** Pairwise different watermark keys. */
  ghost predicate OneKeyEach(sources: seq<SourceFile>) {
    forall p, q :: 0 <= p < q < |sources| ==> Pair(sources[p].client, sources[p].dataset) != Pair(sources[q].client, sources[q].dataset)
  }

  /** As long as no client has a colon in it, different clients or datasets have different keys. */
  lemma OnePerDatasetHasOneKeyEach(sources: seq<SourceFile>)
    requires OnePerDataset(sources) && forall p :: 0 <= p < |sources| ==> Without(sources[p].client, ':')
    ensures OneKeyEach(sources)
  {
    forall p, q | 0 <= p < q < |sources| ensures Pair(sources[p].client, sources[p].dataset) != Pair(sources[q].client, sources[q].dataset) {
      ColonFreeKeysDiffer(sources[p].client, sources[p].dataset, sources[q].client, sources[q].dataset);
    }
  }

  ghost predicate KeyOfOne(sources: seq<SourceFile>, k: string) {
    exists p :: 0 <= p < |sources| && WatermarkKey(sources[p]) == k
  }

  ghost predicate NoKeyTaken(watermarks: map<string, int>, sources: seq<SourceFile>) {
    forall k :: k in watermarks ==> KeyOfOne(sources, k)
  }

  lemma KeyIsNew(watermarks: map<string, int>, sources: seq<SourceFile>, n: nat)
    requires n < |sources| && OneKeyEach(sources) && NoKeyTaken(watermarks, sources[..n])
    ensures WatermarkKey(sources[n]) !in watermarks
  {
    forall p | 0 <= p < n ensures WatermarkKey(sources[..n][p]) != WatermarkKey(sources[n]) {
      assert sources[..n][p] == sources[p];
    }
  }

  /** One more file whose key has no watermark: accepted exactly when it can be inspected. */
  lemma OneMoreAnew(disk: Disk, runId: string, reprocess: bool, u: Stage, sources: seq<SourceFile>, n: nat)
    requires n < |sources| && NoKeyTaken(u.watermarks, sources[..n]) && WatermarkKey(sources[n]) !in u.watermarks
    ensures var t := StageOne(disk, runId, reprocess, u, sources[n]);
            && NoKeyTaken(t.watermarks, sources[..n + 1])
            && Staged(t) == Staged(u) + (if disk.inspect(sources[n]).Some? then [sources[n]] else [])
            && Refused(t) == Refused(u) + (if disk.inspect(sources[n]).None? then [sources[n]] else [])
  {
    var t := StageOne(disk, runId, reprocess, u, sources[n]);
    if Rejected(disk, reprocess, u.watermarks, sources[n]) {
      RefusesTheRejected(disk, runId, reprocess, u, sources[n]);
      assert Staged(t) == Staged(u);
    } else {
      StagesTheOthers(disk, runId, reprocess, u, sources[n]);
    }
    forall k | k in t.watermarks ensures KeyOfOne(sources[..n + 1], k) {
      if k in u.watermarks {
        var p :| 0 <= p < n && WatermarkKey(sources[..n][p]) == k;
        assert sources[..n + 1][p] == sources[..n][p];
      } else {
        assert sources[..n + 1][n] == sources[n];
      }
    }
  }

  /** Staging from nothing, up to some file. */
  ghost predicate StagedAnew(disk: Disk, t: Stage, sources: seq<SourceFile>) {
    && NoKeyTaken(t.watermarks, sources)
    && Staged(t) == Filter(sources, Inspectable(disk)) && Refused(t) == Filter(sources, Uninspectable(disk))
  }

  lemma StagedAnewGoesOn(disk: Disk, runId: string, reprocess: bool, u: Stage, sources: seq<SourceFile>, n: nat)
    requires n < |sources| && OneKeyEach(sources)
    requires StagedAnew(disk, u, sources[..n])
    ensures StagedAnew(disk, StageOne(disk, runId, reprocess, u, sources[n]), sources[..n + 1])
  {
    KeyIsNew(u.watermarks, sources, n);
    OneMoreAnew(disk, runId, reprocess, u, sources, n);
    assert sources[..n + 1] == sources[..n] + [sources[n]];
    FilterAppend(sources[..n], [sources[n]], Inspectable(disk));
    FilterAppend(sources[..n], [sources[n]], Uninspectable(disk));
  }

  lemma StageAllStep(disk: Disk, runId: string, reprocess: bool, s: Stage, sources: seq<SourceFile>, n: nat)
    requires n < |sources|
    ensures StageAll(disk, runId, reprocess, s, sources[..n + 1])
         == StageOne(disk, runId, reprocess, StageAll(disk, runId, reprocess, s, sources[..n]), sources[n])
  {
    assert sources[..n + 1][..n] == sources[..n];
  }

  lemma {:induction false} AllStagedAnew(disk: Disk, runId: string, reprocess: bool, s: Stage, sources: seq<SourceFile>, n: nat, t: Stage)
    requires n <= |sources| && OneKeyEach(sources)
    requires s.watermarks == map[] && s.manifest == [] && s.quarantine == []
    requires t == StageAll(disk, runId, reprocess, s, sources[..n])
    ensures StagedAnew(disk, t, sources[..n])
    decreases n
  {
    if n > 0 {
      var u := StageAll(disk, runId, reprocess, s, sources[..n - 1]);
      AllStagedAnew(disk, runId, reprocess, s, sources, n - 1, u);
      StagedAnewGoesOn(disk, runId, reprocess, u, sources, n - 1);
      StageAllStep(disk, runId, reprocess, s, sources, n - 1);
    }
  }

  /**
   A forced rebuild over files of pairwise different keys accepts, in order, exactly those that can be inspected,
   whatever the state held and whether or not reprocessing is on.
   */
  lemma RebuildAcceptsAll(disk: Disk, runId: string, reprocess: bool, s: Stage, discovered: seq<SourceFile>)
    requires discovered != [] && OneKeyEach(discovered)
    ensures var t := Pass(disk, runId, reprocess, true, s, discovered);
            Staged(t) == Filter(discovered, Inspectable(disk)) && Refused(t) == Filter(discovered, Uninspectable(disk))
  {
    assert discovered[..|discovered|] == discovered;
    AllStagedAnew(disk, runId, reprocess, Stage(map[], map[], s.bronze, [], []), discovered, |discovered|,
                  Pass(disk, runId, reprocess, true, s, discovered));
  }

  lemma StagingTwo(disk: Disk, runId: string, start: Stage, a: SourceFile, b: SourceFile)
    ensures StageAll(disk, runId, false, start, [a, b]) == StageOne(disk, runId, false, StageOne(disk, runId, false, start, a), b)
  {
    StageAllStep(disk, runId, false, start, [a, b], 0);
    StageAllStep(disk, runId, false, start, [a, b], 1);
    assert [a, b][..2] == [a, b] && [a, b][..0] == [];
  }

  /** Of two files with one key, whether of one dataset or of two, the second is refused exactly when it reaches back into the first. */
  lemma SharedKeyRefusesIff(disk: Disk, runId: string, s: Stage, a: SourceFile, b: SourceFile)
    requires Pair(a.client, a.dataset) == Pair(b.client, b.dataset) && disk.inspect(a).Some? && disk.inspect(b).Some?
    requires SpanOf(disk.inspect(a).value).Some? && SpanOf(disk.inspect(b).value).Some?
    ensures var t := Pass(disk, runId, false, true, s, [a, b]);
            Refused(t) == if SpanOf(disk.inspect(b).value).value.first <= SpanOf(disk.inspect(a).value).value.last then [b] else []
  {
    var start := Stage(map[], map[], s.bronze, [], []);
    StagingTwo(disk, runId, start, a, b);
    assert StageOne(disk, runId, false, start, a) == Accepted(disk, runId, start, a, disk.inspect(a).value);
  }
}
