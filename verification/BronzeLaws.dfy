/** What staging promises over whole runs: watermarks, conservation of files, and where copies end up. */
module BronzeLaws {
  import opened Wrappers
  import opened Sequences
  import opened Bronze

  /*** Watermarks ***/

  /** An accepted file with dates, for the clients and datasets that share a watermark. */
  predicate DatedFor(e: Entry, key: string) {
    WatermarkKey(e.source) == key && e.span.Some?
  }

  /** The last date of the latest dated file accepted for a key. */
  function LatestDate(log: seq<Entry>, key: string): Option<int> {
    if log == [] then None
    else if DatedFor(log[|log| - 1], key) then Some(log[|log| - 1].span.value.last)
    else LatestDate(log[..|log| - 1], key)
  }

  /** Each dated file of a key starts after the one accepted before it ended. */
  ghost predicate Advancing(log: seq<Entry>, key: string) {
    log == []
    || (Advancing(log[..|log| - 1], key)
        && (DatedFor(log[|log| - 1], key) ==>
              (log[|log| - 1].span.value.first <= log[|log| - 1].span.value.last
               && !Retroactive(log[|log| - 1].span, LatestDate(log[..|log| - 1], key)))))
  }

  /** The watermark of a key is the one its accepted files left. */
  ghost predicate Tracks(watermarks: map<string, int>, log: seq<Entry>, key: string) {
    Lookup(watermarks, key) == LatestDate(log, key) && Advancing(log, key)
  }

  lemma {:induction false} LatestIsLast(log: seq<Entry>, key: string, i: nat)
    requires Advancing(log, key) && i < |log| && DatedFor(log[i], key)
    ensures log[i].span.value.first <= log[i].span.value.last
    ensures LatestDate(log, key).Some? && log[i].span.value.last <= LatestDate(log, key).value
  {
    var n := |log| - 1;
    if i < n {
      LatestIsLast(log[..n], key, i);
      assert log[..n][i] == log[i];
    }
  }

  lemma {:induction false} LatestIsReached(log: seq<Entry>, key: string)
    requires LatestDate(log, key).Some?
    ensures exists i :: 0 <= i < |log| && DatedFor(log[i], key) && log[i].span.value.last == LatestDate(log, key).value
  {
    var n := |log| - 1;
    if !DatedFor(log[n], key) {
      LatestIsReached(log[..n], key);
      var i :| 0 <= i < n && DatedFor(log[..n][i], key) && log[..n][i].span.value.last == LatestDate(log[..n], key).value;
      assert log[i] == log[..n][i];
    }
  }

  /** The intervals of a key are pairwise disjoint and in the order in which their files were accepted. */
  lemma {:induction false} IntervalsAreDisjoint(log: seq<Entry>, key: string, i: nat, j: nat)
    requires Advancing(log, key) && i < j < |log| && DatedFor(log[i], key) && DatedFor(log[j], key)
    ensures log[i].span.value.first <= log[i].span.value.last < log[j].span.value.first <= log[j].span.value.last
  {
    var n := |log| - 1;
    if j < n {
      assert log[..n][i] == log[i] && log[..n][j] == log[j];
      IntervalsAreDisjoint(log[..n], key, i, j);
    } else {
      assert log[..n][i] == log[i];
      LatestIsLast(log[..n], key, i);
    }
  }

  lemma AcceptedTracks(watermarks: map<string, int>, log: seq<Entry>, e: Entry, key: string)
    requires Tracks(watermarks, log, key)
    requires e.span.Some? ==> e.span.value.first <= e.span.value.last && !Retroactive(e.span, Lookup(watermarks, WatermarkKey(e.source)))
    ensures Tracks(if e.span.Some? then watermarks[WatermarkKey(e.source) := e.span.value.last] else watermarks, log + [e], key)
  {
    assert (log + [e])[..|log|] == log;
  }

  lemma StageOneTracks(disk: Disk, runId: string, s: Stage, source: SourceFile, before: seq<Entry>, key: string)
    requires Tracks(s.watermarks, before + s.manifest, key)
    ensures var t := StageOne(disk, runId, false, s, source);
            Tracks(t.watermarks, before + t.manifest, key)
  {
    var t := StageOne(disk, runId, false, s, source);
    if t.manifest != s.manifest {
      var e := t.manifest[|s.manifest|];
      if e.span.Some? {
        SpanIsOrdered(disk.inspect(source).value);
      }
      AcceptedTracks(s.watermarks, before + s.manifest, e, key);
      assert before + t.manifest == before + s.manifest + [e];
    }
  }

  lemma {:induction false} StageAllTracks(disk: Disk, runId: string, s: Stage, sources: seq<SourceFile>, before: seq<Entry>, key: string)
    requires Tracks(s.watermarks, before + s.manifest, key)
    ensures var t := StageAll(disk, runId, false, s, sources);
            Tracks(t.watermarks, before + t.manifest, key)
    decreases |sources|
  {
    if sources != [] {
      var n := |sources| - 1;
      StageAllTracks(disk, runId, s, sources[..n], before, key);
      StageOneTracks(disk, runId, StageAll(disk, runId, false, s, sources[..n]), sources[n], before, key);
    }
  }

  datatype Day = Day(disk: Disk, runId: string, discovered: seq<SourceFile>)

  /** Normal passes, one after the other; the manifest and the quarantine are those of all of them. */
  function Passes(s: Stage, days: seq<Day>): Stage
    decreases |days|
  {
    if days == [] then s
    else
      var before, day := Passes(s, days[..|days| - 1]), days[|days| - 1];
      var after := Pass(day.disk, day.runId, false, false, before, day.discovered);
      after.(manifest := before.manifest + after.manifest, quarantine := before.quarantine + after.quarantine)
  }

  /** Over any run of normal passes every watermark is the one its accepted files left. */
  lemma {:induction false} PassesTrack(s: Stage, days: seq<Day>, key: string)
    requires Tracks(s.watermarks, s.manifest, key)
    ensures Tracks(Passes(s, days).watermarks, Passes(s, days).manifest, key)
    decreases |days|
  {
    if days != [] {
      var before, day := Passes(s, days[..|days| - 1]), days[|days| - 1];
      PassesTrack(s, days[..|days| - 1], key);
      var start := Stage(before.files, before.watermarks, before.bronze, [], []);
      assert before.manifest + [] == before.manifest;
      StageAllTracks(day.disk, day.runId, start, Filter(day.discovered, IsChanged(day.disk, before.files)), before.manifest, key);
    }
  }

  const NOTHING_STAGED := Stage(map[], map[], map[], [], [])

  /**
   Watermark safety: along any run of normal passes the dated files accepted for one client and dataset
   cover disjoint intervals, later ones later, and the watermark is the maximum of their last dates.
   */
  lemma WatermarkSafety(days: seq<Day>, key: string, i: nat, j: nat)
    requires i < j < |Passes(NOTHING_STAGED, days).manifest|
    requires DatedFor(Passes(NOTHING_STAGED, days).manifest[i], key) && DatedFor(Passes(NOTHING_STAGED, days).manifest[j], key)
    ensures var s := Passes(NOTHING_STAGED, days);
            && s.manifest[i].span.value.first <= s.manifest[i].span.value.last < s.manifest[j].span.value.first
            && key in s.watermarks && s.manifest[j].span.value.last <= s.watermarks[key]
  {
    PassesTrack(NOTHING_STAGED, days, key);
    IntervalsAreDisjoint(Passes(NOTHING_STAGED, days).manifest, key, i, j);
    LatestIsLast(Passes(NOTHING_STAGED, days).manifest, key, j);
  }

  lemma WatermarkIsTheMaximum(days: seq<Day>, key: string)
    ensures var s := Passes(NOTHING_STAGED, days);
            && (key in s.watermarks <==> exists i :: 0 <= i < |s.manifest| && DatedFor(s.manifest[i], key))
            && (key in s.watermarks ==>
                  ((exists i :: 0 <= i < |s.manifest| && DatedFor(s.manifest[i], key) && s.manifest[i].span.value.last == s.watermarks[key])
                   && forall i :: 0 <= i < |s.manifest| && DatedFor(s.manifest[i], key) ==> s.manifest[i].span.value.last <= s.watermarks[key]))
  {
    var s := Passes(NOTHING_STAGED, days);
    PassesTrack(NOTHING_STAGED, days, key);
    if key in s.watermarks {
      LatestIsReached(s.manifest, key);
    }
    forall i | 0 <= i < |s.manifest| && DatedFor(s.manifest[i], key)
      ensures key in s.watermarks && s.manifest[i].span.value.last <= s.watermarks[key] {
      LatestIsLast(s.manifest, key, i);
    }
  }

  /*** Conservation ***/

  function EntrySource(): Entry -> SourceFile { (e: Entry) => e.source }

  function RecordSource(): Record -> SourceFile { (r: Record) => r.source }

  function Staged(s: Stage): seq<SourceFile> { Map(s.manifest, EntrySource()) }

  function Refused(s: Stage): seq<SourceFile> { Map(s.quarantine, RecordSource()) }

  function PathOf(): SourceFile -> string { (source: SourceFile) => source.path }

  ghost predicate DistinctPaths(sources: seq<SourceFile>) {
    NoDup(Map(sources, PathOf()))
  }

  lemma OneIsStagedOrRefused(disk: Disk, runId: string, reprocess: bool, s: Stage, source: SourceFile)
    ensures var t := StageOne(disk, runId, reprocess, s, source);
            || (Staged(t) == Staged(s) + [source] && Refused(t) == Refused(s))
            || (Staged(t) == Staged(s) && Refused(t) == Refused(s) + [source])
  {
    var t := StageOne(disk, runId, reprocess, s, source);
    if t.manifest == s.manifest {
      assert Refused(t) == Refused(s) + [source];
    } else {
      assert Staged(t) == Staged(s) + [source];
    }
  }

  lemma OneIsCounted(disk: Disk, runId: string, reprocess: bool, s: Stage, source: SourceFile)
    ensures var t := StageOne(disk, runId, reprocess, s, source);
            multiset(Staged(t)) + multiset(Refused(t)) == multiset(Staged(s)) + multiset(Refused(s)) + multiset{source}
  {
    OneIsStagedOrRefused(disk, runId, reprocess, s, source);
  }

  /** No file is lost and none is counted twice: the manifest and the quarantine together are the files passed in. */
  lemma {:induction false} NothingIsLost(disk: Disk, runId: string, reprocess: bool, s: Stage, sources: seq<SourceFile>)
    ensures var t := StageAll(disk, runId, reprocess, s, sources);
            multiset(Staged(t)) + multiset(Refused(t)) == multiset(Staged(s)) + multiset(Refused(s)) + multiset(sources)
    decreases |sources|
  {
    if sources != [] {
      var n := |sources| - 1;
      NothingIsLost(disk, runId, reprocess, s, sources[..n]);
      OneIsCounted(disk, runId, reprocess, StageAll(disk, runId, reprocess, s, sources[..n]), sources[n]);
      assert multiset(sources) == multiset(sources[..n]) + multiset{sources[n]} by {
        assert sources == sources[..n] + [sources[n]];
      }
    }
  }
}
