/** What the manifest and the quarantine of a pass say of each file. */
module BronzeRecordLaws {
  import opened Wrappers
  import opened Sequences
  import opened Bronze

  /** An accepted file: its digest, its rows and its dates as inspected, and the place of its copy. */
  ghost predicate EntryFits(disk: Disk, runId: string, e: Entry) {
    && disk.inspect(e.source).Some? && e.hash == disk.digest(e.source.path) && e.ingestedAt == runId
    && e.rowsDetected == disk.inspect(e.source).value.rowsDetected && e.span == SpanOf(disk.inspect(e.source).value)
    && e.bronzePath == "bronze/client=" + e.source.client + "/dataset=" + e.source.dataset + "/ingested_at=" + runId + "/part-000.csv"
  }

  /** A refused file: it could not be inspected, or its dates reach back to the watermark that is named, and reprocessing is off. */
  ghost predicate RecordFits(disk: Disk, runId: string, reprocess: bool, r: Record) {
    && r.hash == disk.digest(r.source.path) && r.detectedAt == runId
    && (disk.inspect(r.source).None? ==> r.reason == InvalidPayload && r.span == None)
    && (disk.inspect(r.source).Some? ==>
          !reprocess && r.span == SpanOf(disk.inspect(r.source).value) && r.span.Some?
          && r.reason.RetroactiveWatermark? && r.span.value.first <= r.reason.watermark)
  }

  ghost predicate AllFit(disk: Disk, runId: string, reprocess: bool, s: Stage) {
    && (forall i :: 0 <= i < |s.manifest| ==> EntryFits(disk, runId, s.manifest[i]))
    && (forall i :: 0 <= i < |s.quarantine| ==> RecordFits(disk, runId, reprocess, s.quarantine[i]))
  }

  lemma OneMoreFits(disk: Disk, runId: string, reprocess: bool, s: Stage, source: SourceFile)
    requires AllFit(disk, runId, reprocess, s)
    ensures AllFit(disk, runId, reprocess, StageOne(disk, runId, reprocess, s, source))
  {
  }

  lemma {:induction false} AllRecordsFit(disk: Disk, runId: string, reprocess: bool, s: Stage, sources: seq<SourceFile>)
    requires AllFit(disk, runId, reprocess, s)
    ensures AllFit(disk, runId, reprocess, StageAll(disk, runId, reprocess, s, sources))
    decreases |sources|
  {
    if sources != [] {
      AllRecordsFit(disk, runId, reprocess, s, sources[..|sources| - 1]);
      OneMoreFits(disk, runId, reprocess, StageAll(disk, runId, reprocess, s, sources[..|sources| - 1]), sources[|sources| - 1]);
    }
  }

  /** After any pass, whatever the state before. */
  lemma PassRecordsFit(disk: Disk, runId: string, reprocess: bool, rebuild: bool, s: Stage, discovered: seq<SourceFile>)
    ensures AllFit(disk, runId, reprocess, Pass(disk, runId, reprocess, rebuild, s, discovered))
  {
    var t := Pass(disk, runId, reprocess, rebuild, s, discovered);
    if t.manifest != [] || t.quarantine != [] {
      var start := if rebuild then Stage(map[], map[], s.bronze, [], []) else Stage(s.files, s.watermarks, s.bronze, [], []);
      AllRecordsFit(disk, runId, reprocess, start, discovered);
      AllRecordsFit(disk, runId, reprocess, start, Filter(discovered, IsChanged(disk, s.files)));
    }
  }
}
