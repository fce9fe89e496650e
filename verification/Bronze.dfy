/** Staging of source files: what `stage_bronze` accepts, what it quarantines, and the state it keeps. */
module Bronze {
  import opened Wrappers
  import opened Sequences
  import opened PairKeys

  datatype SourceFile = SourceFile(client: string, domain: string, dataset: string, path: string)

  /** The dates a file covers, as day numbers. */
  datatype Span = Span(first: int, last: int)

  datatype Inspection = Inspection(rowsDetected: nat, parsedDates: seq<Option<int>>)

  /** The files as they are during a pass. A payload that cannot be read or lacks a key column has no inspection. */
  datatype Disk = Disk(digest: string -> string, inspect: SourceFile -> Option<Inspection>)

  datatype Entry = Entry(source: SourceFile, bronzePath: string, hash: string, rowsDetected: nat, span: Option<Span>, ingestedAt: string)

  datatype Reason = InvalidPayload | RetroactiveWatermark(watermark: int)

  datatype Record = Record(source: SourceFile, hash: string, reason: Reason, span: Option<Span>, detectedAt: string)

  datatype Stage = Stage(
    files: map<string, string>,
    watermarks: map<string, int>,
    bronze: map<string, string>,
    manifest: seq<Entry>,
    quarantine: seq<Record>)

  function ValidDates(parsed: seq<Option<int>>): seq<int> {
    if parsed == [] then []
    else (match parsed[0] case Some(d) => [d] case None => []) + ValidDates(parsed[1..])
  }

  function MinOf(days: seq<int>): (m: int)
    requires days != []
    ensures m in days && forall d :: d in days ==> m <= d
  {
    if |days| == 1 then days[0]
    else
      var rest := MinOf(days[1..]);
      assert days == [days[0]] + days[1..];
      if days[0] <= rest then days[0] else rest
  }

  function MaxOf(days: seq<int>): (m: int)
    requires days != []
    ensures m in days && forall d :: d in days ==> d <= m
  {
    if |days| == 1 then days[0]
    else
      var rest := MaxOf(days[1..]);
      assert days == [days[0]] + days[1..];
      if rest <= days[0] then days[0] else rest
  }

  lemma {:induction false} ValidDatesAre(parsed: seq<Option<int>>, day: int)
    ensures day in ValidDates(parsed) <==> Some(day) in parsed
  {
    if parsed != [] {
      ValidDatesAre(parsed[1..], day);
      assert parsed == [parsed[0]] + parsed[1..];
    }
  }

  /** The `min_date` and `max_date` of an inspection; a file without a valid date has neither. */
  function SpanOf(inspection: Inspection): (span: Option<Span>)
    ensures span.None? <==> forall day :: Some(day) !in inspection.parsedDates
    ensures span.Some? ==> Some(span.value.first) in inspection.parsedDates && Some(span.value.last) in inspection.parsedDates
    ensures span.Some? ==> forall day :: Some(day) in inspection.parsedDates ==> span.value.first <= day <= span.value.last
  {
    var days := ValidDates(inspection.parsedDates);
    assert forall day :: day in days <==> Some(day) in inspection.parsedDates by {
      forall day ensures day in days <==> Some(day) in inspection.parsedDates {
        ValidDatesAre(inspection.parsedDates, day);
      }
    }
    if days == [] then None
    else
      assert MinOf(days) in days && MaxOf(days) in days;
      Some(Span(MinOf(days), MaxOf(days)))
  }

  lemma SpanIsOrdered(inspection: Inspection)
    requires SpanOf(inspection).Some?
    ensures SpanOf(inspection).value.first <= SpanOf(inspection).value.last
  {
    assert Some(SpanOf(inspection).value.last) in inspection.parsedDates;
  }

  function WatermarkKey(source: SourceFile): string {
    Pair(source.client, source.dataset)
  }

  function CopyPath(client: string, dataset: string, runId: string): string {
    "bronze/client=" + client + "/dataset=" + dataset + "/ingested_at=" + runId + "/part-000.csv"
  }

  function BronzePath(source: SourceFile, runId: string): string {
    CopyPath(source.client, source.dataset, runId)
  }

  /** Whether a file with these dates reaches back to the watermark. */
  predicate Retroactive(span: Option<Span>, watermark: Option<int>) {
    span.Some? && watermark.Some? && span.value.first <= watermark.value
  }

  function Quarantined(disk: Disk, runId: string, s: Stage, source: SourceFile, reason: Reason, span: Option<Span>): Stage {
    s.(quarantine := s.quarantine + [Record(source, disk.digest(source.path), reason, span, runId)])
  }

  function Accepted(disk: Disk, runId: string, s: Stage, source: SourceFile, inspection: Inspection): Stage {
    var span, hash := SpanOf(inspection), disk.digest(source.path);
    Stage(
      s.files[source.path := hash],
      if span.Some? then s.watermarks[WatermarkKey(source) := span.value.last] else s.watermarks,
      s.bronze[BronzePath(source, runId) := source.path],
      s.manifest + [Entry(source, BronzePath(source, runId), hash, inspection.rowsDetected, span, runId)],
      s.quarantine)
  }

  /** One file of `stage_bronze`. */
  function StageOne(disk: Disk, runId: string, reprocess: bool, s: Stage, source: SourceFile): Stage {
    match disk.inspect(source)
    case None => Quarantined(disk, runId, s, source, InvalidPayload, None)
    case Some(inspection) =>
      var span, watermark := SpanOf(inspection), Lookup(s.watermarks, WatermarkKey(source));
      if !reprocess && Retroactive(span, watermark)
      then Quarantined(disk, runId, s, source, RetroactiveWatermark(watermark.value), span)
      else Accepted(disk, runId, s, source, inspection)
  }

  function StageAll(disk: Disk, runId: string, reprocess: bool, s: Stage, sources: seq<SourceFile>): Stage
    decreases |sources|
  {
    if sources == [] then s
    else StageOne(disk, runId, reprocess, StageAll(disk, runId, reprocess, s, sources[..|sources| - 1]), sources[|sources| - 1])
  }

  function IsChanged(disk: Disk, files: map<string, string>): SourceFile -> bool {
    (source: SourceFile) => Lookup(files, source.path) != Some(disk.digest(source.path))
  }

  /** One pass over the discovered files, from the state left by the one before. */
  function Pass(disk: Disk, runId: string, reprocess: bool, rebuild: bool, s: Stage, discovered: seq<SourceFile>): Stage {
    var start := Stage(s.files, s.watermarks, s.bronze, [], []);
    if rebuild then
      if discovered == [] then start else StageAll(disk, runId, reprocess, start.(files := map[], watermarks := map[]), discovered)
    else StageAll(disk, runId, reprocess, start, Filter(discovered, IsChanged(disk, s.files)))
  }

  /*** The same, on the state kept between passes ***/

  class MedallionState {
    var files: map<string, string>
    var watermarks: map<string, int>
    var bronze: map<string, string>
    var lastQuarantineCount: nat

    constructor ()
      ensures files == map[] && watermarks == map[] && bronze == map[] && lastQuarantineCount == 0
    {
      files, watermarks, bronze, lastQuarantineCount := map[], map[], map[], 0;
    }

    ghost function State(): Stage
      reads this
    {
      Stage(files, watermarks, bronze, [], [])
    }

    ghost predicate Holds(s: Stage)
      reads this
    {
      files == s.files && watermarks == s.watermarks && bronze == s.bronze
    }

    /** `detect_changed_files` */
    method DetectChangedFiles(disk: Disk, discovered: seq<SourceFile>) returns (changed: seq<SourceFile>)
      ensures changed == Filter(discovered, IsChanged(disk, files))
    {
      changed := [];
      var p := IsChanged(disk, files);
      for i := 0 to |discovered|
        invariant changed == Filter(discovered[..i], p)
      {
        assert discovered[..i + 1] == discovered[..i] + [discovered[i]];
        FilterAppend(discovered[..i], [discovered[i]], p);
        var source := discovered[i];
        if Lookup(files, source.path) != Some(disk.digest(source.path)) {
          changed := changed + [source];
        }
      }
      assert discovered[..|discovered|] == discovered;
    }

    /** `stage_bronze` */
    method StageBronze(disk: Disk, runId: string, reprocess: bool, changed: seq<SourceFile>)
      returns (manifest: seq<Entry>, quarantine: seq<Record>)
      modifies this
      ensures var s := StageAll(disk, runId, reprocess, old(State()), changed);
              Holds(s) && manifest == s.manifest && quarantine == s.quarantine && lastQuarantineCount == |s.quarantine|
    {
      manifest, quarantine := [], [];
      for i := 0 to |changed|
        invariant Stage(files, watermarks, bronze, manifest, quarantine)
               == StageAll(disk, runId, reprocess, old(State()), changed[..i])
      {
        assert changed[..i + 1][..i] == changed[..i];
        var source := changed[i];
        var digest := disk.digest(source.path);
        var inspected := disk.inspect(source);
        if inspected.None? {
          quarantine := quarantine + [Record(source, digest, InvalidPayload, None, runId)];
          continue;
        }
        var span := SpanOf(inspected.value);
        var key := WatermarkKey(source);
        var watermark := Lookup(watermarks, key);
        if !reprocess && watermark.Some? && span.Some? && span.value.first <= watermark.value {
          quarantine := quarantine + [Record(source, digest, RetroactiveWatermark(watermark.value), span, runId)];
          continue;
        }
        var bronzePath := BronzePath(source, runId);
        bronze := bronze[bronzePath := source.path];
        files := files[source.path := digest];
        if span.Some? {
          watermarks := watermarks[key := span.value.last];
        }
        manifest := manifest + [Entry(source, bronzePath, digest, inspected.value.rowsDetected, span, runId)];
      }
      assert changed[..|changed|] == changed;
      lastQuarantineCount := |quarantine|;
    }

    /** `run_once`: answers whether any file was staged. */
    method RunOnce(disk: Disk, runId: string, reprocess: bool, rebuild: bool, discovered: seq<SourceFile>)
      returns (staged: bool, manifest: seq<Entry>, quarantine: seq<Record>)
      modifies this
      ensures var s := Pass(disk, runId, reprocess, rebuild, old(State()), discovered);
              Holds(s) && manifest == s.manifest && quarantine == s.quarantine && staged == (s.manifest != [])
    {
      var changed := DetectChangedFiles(disk, discovered);
      if rebuild {
        changed := discovered;
      }
      if changed == [] {
        return false, [], [];
      }
      if rebuild {
        files, watermarks := map[], map[];
      }
      manifest, quarantine := StageBronze(disk, runId, reprocess, changed);
      staged := manifest != [];
    }
  }
}
