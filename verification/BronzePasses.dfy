/** What a pass leaves for the next one: the files it refused, and nothing else, are still changed. */
module BronzePasses {
  import opened Wrappers
  import opened Sequences
  import opened Bronze
  import opened BronzeLaws

  /** Whether staging refuses a file, given the watermarks so far. */
  predicate Rejected(disk: Disk, reprocess: bool, watermarks: map<string, int>, x: SourceFile) {
    disk.inspect(x).None?
    || (!reprocess && Retroactive(SpanOf(disk.inspect(x).value), Lookup(watermarks, WatermarkKey(x))))
  }

  lemma RefusesTheRejected(disk: Disk, runId: string, reprocess: bool, s: Stage, x: SourceFile)
    requires Rejected(disk, reprocess, s.watermarks, x)
    ensures var t := StageOne(disk, runId, reprocess, s, x);
            t == s.(quarantine := t.quarantine) && Refused(t) == Refused(s) + [x]
  {
    var t := StageOne(disk, runId, reprocess, s, x);
    assert Refused(t) == Refused(s) + [x];
  }

  lemma StagesTheOthers(disk: Disk, runId: string, reprocess: bool, s: Stage, x: SourceFile)
    requires !Rejected(disk, reprocess, s.watermarks, x)
    ensures var t := StageOne(disk, runId, reprocess, s, x);
            t.files == s.files[x.path := disk.digest(x.path)] && Staged(t) == Staged(s) + [x] && Refused(t) == Refused(s)
  {
    var t := StageOne(disk, runId, reprocess, s, x);
    assert Staged(t) == Staged(s) + [x];
  }

  /** Without reprocessing a watermark never falls, so a refused file stays refused. */
  lemma RejectedStays(disk: Disk, runId: string, reprocess: bool, s: Stage, source: SourceFile, x: SourceFile)
    requires Rejected(disk, reprocess, s.watermarks, x)
    ensures Rejected(disk, reprocess, StageOne(disk, runId, reprocess, s, source).watermarks, x)
  {
  }

  lemma {:induction false} OtherPathsUntouched(disk: Disk, runId: string, reprocess: bool, s: Stage, sources: seq<SourceFile>, path: string)
    requires forall i :: 0 <= i < |sources| ==> sources[i].path != path
    ensures Lookup(StageAll(disk, runId, reprocess, s, sources).files, path) == Lookup(s.files, path)
    decreases |sources|
  {
    if sources != [] {
      OtherPathsUntouched(disk, runId, reprocess, s, sources[..|sources| - 1], path);
    }
  }

  lemma PathsOfPrefix(sources: seq<SourceFile>, n: nat)
    requires DistinctPaths(sources) && n < |sources|
    ensures DistinctPaths(sources[..n])
    ensures forall i :: 0 <= i < n ==> sources[i].path != sources[n].path
  {
    var paths := Map(sources, PathOf());
    assert Map(sources[..n], PathOf()) == paths[..n];
    forall i | 0 <= i < n ensures sources[i].path != sources[n].path {
      assert paths[i] != paths[n];
    }
  }

  lemma {:induction false} FilesOnce(sources: seq<SourceFile>, x: SourceFile)
    requires DistinctPaths(sources)
    ensures multiset(sources)[x] == if x in sources then 1 else 0
  {
    if sources != [] {
      var n := |sources| - 1;
      PathsOfPrefix(sources, n);
      FilesOnce(sources[..n], x);
      assert sources == sources[..n] + [sources[n]];
    }
  }

  /** Each of several files with distinct paths is either in the manifest or in quarantine, and never in both. */
  lemma StagedXorRefused(disk: Disk, runId: string, reprocess: bool, s: Stage, sources: seq<SourceFile>, x: SourceFile)
    requires DistinctPaths(sources) && x in sources && s.manifest == [] && s.quarantine == []
    ensures var t := StageAll(disk, runId, reprocess, s, sources);
            (x in Staged(t)) != (x in Refused(t))
  {
    var t := StageAll(disk, runId, reprocess, s, sources);
    NothingIsLost(disk, runId, reprocess, s, sources);
    FilesOnce(sources, x);
    assert multiset(Staged(t))[x] + multiset(Refused(t))[x] == 1 by {
      assert Staged(s) == [] && Refused(s) == [];
      assert (multiset(Staged(t)) + multiset(Refused(t)))[x] == multiset(sources)[x];
    }
    assert x in Staged(t) <==> x in multiset(Staged(t));
    assert x in Refused(t) <==> x in multiset(Refused(t));
  }

  /*** The pass after ***/

  ghost predicate AllRejected(disk: Disk, reprocess: bool, watermarks: map<string, int>, xs: seq<SourceFile>) {
    forall x :: x in xs ==> Rejected(disk, reprocess, watermarks, x)
  }

  lemma {:induction false} RefusedStayRejected(disk: Disk, runId: string, reprocess: bool, s: Stage, sources: seq<SourceFile>)
    requires AllRejected(disk, reprocess, s.watermarks, Refused(s))
    ensures var t := StageAll(disk, runId, reprocess, s, sources);
            AllRejected(disk, reprocess, t.watermarks, Refused(t))
    decreases |sources|
  {
    if sources != [] {
      var n := |sources| - 1;
      RefusedStayRejected(disk, runId, reprocess, s, sources[..n]);
      var u := StageAll(disk, runId, reprocess, s, sources[..n]);
      forall x | x in Refused(u) ensures Rejected(disk, reprocess, StageOne(disk, runId, reprocess, u, sources[n]).watermarks, x) {
        RejectedStays(disk, runId, reprocess, u, sources[n], x);
      }
      if Rejected(disk, reprocess, u.watermarks, sources[n]) {
        RefusesTheRejected(disk, runId, reprocess, u, sources[n]);
      } else {
        StagesTheOthers(disk, runId, reprocess, u, sources[n]);
      }
    }
  }

  lemma OthersAsBefore(disk: Disk, files: map<string, string>, after: map<string, string>, init: seq<SourceFile>)
    requires forall i :: 0 <= i < |init| ==> Lookup(after, init[i].path) == Lookup(files, init[i].path)
    ensures Filter(init, IsChanged(disk, after)) == Filter(init, IsChanged(disk, files))
  {
    FilterCongruent(init, IsChanged(disk, after), IsChanged(disk, files));
  }

  lemma NowTracked(disk: Disk, files: map<string, string>, after: map<string, string>, init: seq<SourceFile>, last: SourceFile)
    requires forall i :: 0 <= i < |init| ==> Lookup(after, init[i].path) == Lookup(files, init[i].path)
    requires !IsChanged(disk, after)(last)
    ensures Filter(init + [last], IsChanged(disk, after)) == Filter(init, IsChanged(disk, files))
  {
    OthersAsBefore(disk, files, after, init);
    FilterAppend(init, [last], IsChanged(disk, after));
    FilterNone([last], IsChanged(disk, after));
  }

  lemma StillChanged(disk: Disk, files: map<string, string>, init: seq<SourceFile>, last: SourceFile)
    requires IsChanged(disk, files)(last)
    ensures Filter(init + [last], IsChanged(disk, files)) == Filter(init, IsChanged(disk, files)) + [last]
  {
    FilterAppend(init, [last], IsChanged(disk, files));
    FilterAll([last], IsChanged(disk, files));
  }

  lemma LastOfChanged(disk: Disk, runId: string, reprocess: bool, u: Stage, init: seq<SourceFile>, last: SourceFile)
    requires forall i :: 0 <= i < |init| ==> init[i].path != last.path
    requires Filter(init, IsChanged(disk, u.files)) == Refused(u) && IsChanged(disk, u.files)(last)
    ensures var t := StageOne(disk, runId, reprocess, u, last);
            Filter(init + [last], IsChanged(disk, t.files)) == Refused(t)
  {
    if Rejected(disk, reprocess, u.watermarks, last) {
      RefusesTheRejected(disk, runId, reprocess, u, last);
      StillChanged(disk, u.files, init, last);
    } else {
      StagesTheOthers(disk, runId, reprocess, u, last);
      NowTracked(disk, u.files, u.files[last.path := disk.digest(last.path)], init, last);
    }
  }

  lemma {:induction false} ChangedAreRefused(disk: Disk, runId: string, reprocess: bool, s: Stage, sources: seq<SourceFile>)
    requires DistinctPaths(sources) && s.quarantine == []
    requires forall x :: x in sources ==> IsChanged(disk, s.files)(x)
    ensures var t := StageAll(disk, runId, reprocess, s, sources);
            Filter(sources, IsChanged(disk, t.files)) == Refused(t)
    decreases |sources|
  {
    if sources != [] {
      var n := |sources| - 1;
      PathsOfPrefix(sources, n);
      ChangedAreRefused(disk, runId, reprocess, s, sources[..n]);
      assert sources == sources[..n] + [sources[n]];
      OtherPathsUntouched(disk, runId, reprocess, s, sources[..n], sources[n].path);
      assert sources[n] in sources && IsChanged(disk, s.files)(sources[n]);
      LastOfChanged(disk, runId, reprocess, StageAll(disk, runId, reprocess, s, sources[..n]), sources[..n], sources[n]);
    }
  }

  function PathChanged(disk: Disk, files: map<string, string>): string -> bool {
    (path: string) => Lookup(files, path) != Some(disk.digest(path))
  }

  lemma ChangedHaveDistinctPaths(disk: Disk, files: map<string, string>, discovered: seq<SourceFile>)
    requires DistinctPaths(discovered)
    ensures DistinctPaths(Filter(discovered, IsChanged(disk, files)))
  {
    FilterMap(discovered, PathOf(), IsChanged(disk, files), PathChanged(disk, files));
    FilterNoDup(Map(discovered, PathOf()), PathChanged(disk, files));
  }

  /** The files a pass stages: all of them in a forced rebuild, the changed ones otherwise. */
  function ToStage(disk: Disk, rebuild: bool, s: Stage, discovered: seq<SourceFile>): seq<SourceFile> {
    if rebuild then discovered else Filter(discovered, IsChanged(disk, s.files))
  }

  function StartOf(rebuild: bool, s: Stage): Stage {
    if rebuild then Stage(map[], map[], s.bronze, [], []) else Stage(s.files, s.watermarks, s.bronze, [], [])
  }

  lemma UnchangedStayUnchanged(disk: Disk, runId: string, reprocess: bool, s: Stage, discovered: seq<SourceFile>, x: SourceFile)
    requires !IsChanged(disk, s.files)(x)
    ensures !IsChanged(disk, StageAll(disk, runId, reprocess, s, Filter(discovered, IsChanged(disk, s.files))).files)(x)
  {
    FilterMembers(discovered, IsChanged(disk, s.files));
    var changed := Filter(discovered, IsChanged(disk, s.files));
    forall i | 0 <= i < |changed| ensures changed[i].path != x.path {
      assert changed[i] in changed;
    }
    OtherPathsUntouched(disk, runId, reprocess, s, changed, x.path);
  }

  /** After a pass, the files found changed are exactly those it put in quarantine, in the same order. */
  lemma OnlyRefusedAreStillChanged(disk: Disk, runId: string, reprocess: bool, rebuild: bool, s: Stage, discovered: seq<SourceFile>)
    requires DistinctPaths(discovered) && (rebuild ==> discovered != [])
    ensures var t := Pass(disk, runId, reprocess, rebuild, s, discovered);
            Filter(discovered, IsChanged(disk, t.files)) == Refused(t)
  {
    var start, sources := StartOf(rebuild, s), ToStage(disk, rebuild, s, discovered);
    var t := StageAll(disk, runId, reprocess, start, sources);
    FilterMembers(discovered, IsChanged(disk, s.files));
    ChangedHaveDistinctPaths(disk, s.files, discovered);
    ChangedAreRefused(disk, runId, reprocess, start, sources);
    if !rebuild {
      forall x | x in discovered && !IsChanged(disk, s.files)(x) ensures !IsChanged(disk, t.files)(x) {
        UnchangedStayUnchanged(disk, runId, reprocess, start, discovered, x);
      }
      FilterTwice(discovered, IsChanged(disk, s.files), IsChanged(disk, t.files), IsChanged(disk, t.files));
    }
  }

  lemma {:induction false} AllRejectedStagesNothing(disk: Disk, runId: string, reprocess: bool, s: Stage, xs: seq<SourceFile>)
    requires AllRejected(disk, reprocess, s.watermarks, xs)
    ensures var t := StageAll(disk, runId, reprocess, s, xs);
            t == s.(quarantine := t.quarantine) && Refused(t) == Refused(s) + xs
    decreases |xs|
  {
    if xs != [] {
      var n := |xs| - 1;
      AllRejectedStagesNothing(disk, runId, reprocess, s, xs[..n]);
      RefusesTheRejected(disk, runId, reprocess, StageAll(disk, runId, reprocess, s, xs[..n]), xs[n]);
      assert xs == xs[..n] + [xs[n]];
    }
  }

  /** A second pass over the same files stages nothing, changes nothing, and refuses what the first refused. */
  lemma SecondPassStagesNothing(disk: Disk, runId: string, nextRunId: string, reprocess: bool, rebuild: bool, s: Stage,
      discovered: seq<SourceFile>)
    requires DistinctPaths(discovered) && (rebuild ==> discovered != [])
    ensures var t := Pass(disk, runId, reprocess, rebuild, s, discovered);
            var u := Pass(disk, nextRunId, reprocess, false, t, discovered);
            && u.manifest == [] && Refused(u) == Refused(t)
            && u.files == t.files && u.watermarks == t.watermarks && u.bronze == t.bronze
  {
    var t := Pass(disk, runId, reprocess, rebuild, s, discovered);
    OnlyRefusedAreStillChanged(disk, runId, reprocess, rebuild, s, discovered);
    RefusedStayRejected(disk, runId, reprocess, StartOf(rebuild, s), ToStage(disk, rebuild, s, discovered));
    AllRejectedStagesNothing(disk, nextRunId, reprocess, StartOf(false, t), Refused(t));
    assert Refused(StartOf(false, t)) + Refused(t) == Refused(t);
  }
}
