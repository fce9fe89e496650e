/** Where `stage_bronze` copies files to, and which copies survive the pass that made them. */
module BronzeCopies {
  import opened Wrappers
  import opened Delimiters
  import opened Bronze
  import opened BronzeLaws
  import opened BronzePasses

  /** Client and dataset are names of a directory and of a file. */
  predicate Named(source: SourceFile) {
    Without(source.client, '/') && Without(source.dataset, '/')
  }

  function AfterClient(dataset: string, runId: string): string {
    "dataset=" + dataset + ['/'] + AfterDataset(runId)
  }

  function AfterDataset(runId: string): string {
    "ingested_at=" + runId + "/part-000.csv"
  }

  lemma PathInParts(client: string, dataset: string, runId: string)
    ensures CopyPath(client, dataset, runId) == "bronze/client=" + (client + ['/'] + AfterClient(dataset, runId))
  {
    var d, e := AfterClient(dataset, runId), AfterDataset(runId);
    assert "/dataset=" == ['/'] + "dataset=";
    assert "/ingested_at=" == ['/'] + "ingested_at=";
    assert CopyPath(client, dataset, runId)
        == "bronze/client=" + client + ['/'] + "dataset=" + dataset + ['/'] + "ingested_at=" + runId + "/part-000.csv";
    assert CopyPath(client, dataset, runId) == "bronze/client=" + client + ['/'] + d;
  }

  lemma SamePrefix(p: string, a: string, b: string)
    requires p + a == p + b
    ensures a == b
  {
    assert a == (p + a)[|p|..] && b == (p + b)[|p|..];
  }

  lemma SameRun(r: string, q: string)
    requires AfterDataset(r) == AfterDataset(q)
    ensures r == q
  {
    var n := |"ingested_at="|;
    assert AfterDataset(r)[n..n + |r|] == r && AfterDataset(q)[n..n + |q|] == q;
  }

  lemma NoSlashInName(dataset: string)
    requires Without(dataset, '/')
    ensures Without("dataset=" + dataset, '/')
  {
  }

  lemma PathsEqualIff(c: string, d: string, r: string, c': string, d': string, q: string)
    requires Without(c, '/') && Without(d, '/') && Without(c', '/') && Without(d', '/')
    ensures CopyPath(c, d, r) == CopyPath(c', d', q) <==> c == c' && d == d' && r == q
  {
    if CopyPath(c, d, r) == CopyPath(c', d', q) {
      PathInParts(c, d, r);
      PathInParts(c', d', q);
      SamePrefix("bronze/client=", c + ['/'] + AfterClient(d, r), c' + ['/'] + AfterClient(d', q));
      SplitAt('/', c, AfterClient(d, r), c', AfterClient(d', q));
      NoSlashInName(d);
      NoSlashInName(d');
      SplitAt('/', "dataset=" + d, AfterDataset(r), "dataset=" + d', AfterDataset(q));
      SamePrefix("dataset=", d, d');
      SameRun(r, q);
    }
  }

  ghost predicate SameDataset(a: SourceFile, b: SourceFile) {
    a.client == b.client && a.dataset == b.dataset
  }

  /** Two copies go to one place exactly when client, dataset and run are the same; the file's name plays no part. */
  lemma CopiesCollideIff(a: SourceFile, b: SourceFile, r: string, q: string)
    requires Named(a) && Named(b)
    ensures BronzePath(a, r) == BronzePath(b, q) <==> SameDataset(a, b) && r == q
  {
    PathsEqualIff(a.client, a.dataset, r, b.client, b.dataset, q);
  }

  /*** Surviving copies ***/

  /** The file at `p` is accepted: the watermarks left by the files before it do not refuse it. */
  predicate AcceptedAt(disk: Disk, runId: string, reprocess: bool, s: Stage, sources: seq<SourceFile>, p: nat)
    requires p < |sources|
  {
    !Rejected(disk, reprocess, StageAll(disk, runId, reprocess, s, sources[..p]).watermarks, sources[p])
  }

  /** The bronze area holds at the place of this file's copy the file itself. */
  predicate HasCopy(bronze: map<string, string>, runId: string, x: SourceFile) {
    Lookup(bronze, BronzePath(x, runId)) == Some(x.path)
  }

  lemma OneMoreFile(disk: Disk, runId: string, reprocess: bool, u: Stage, x: SourceFile, last: SourceFile)
    requires Named(x) && Named(last) && x.path != last.path
    ensures HasCopy(StageOne(disk, runId, reprocess, u, last).bronze, runId, x)
            <==> (HasCopy(u.bronze, runId, x) && (Rejected(disk, reprocess, u.watermarks, last) || !SameDataset(x, last)))
  {
    CopiesCollideIff(x, last, runId, runId);
  }

  lemma LastOfSources(disk: Disk, runId: string, reprocess: bool, s: Stage, sources: seq<SourceFile>, p: nat)
    requires p < |sources| - 1 && Named(sources[p]) && Named(sources[|sources| - 1]) && sources[p].path != sources[|sources| - 1].path
    ensures var n := |sources| - 1;
            HasCopy(StageAll(disk, runId, reprocess, s, sources).bronze, runId, sources[p])
            <==> (HasCopy(StageAll(disk, runId, reprocess, s, sources[..n]).bronze, runId, sources[p])
                  && (!AcceptedAt(disk, runId, reprocess, s, sources, n) || !SameDataset(sources[p], sources[n])))
  {
    var n := |sources| - 1;
    OneMoreFile(disk, runId, reprocess, StageAll(disk, runId, reprocess, s, sources[..n]), sources[p], sources[n]);
  }

  lemma LastHasItsCopy(disk: Disk, runId: string, reprocess: bool, u: Stage, last: SourceFile)
    requires !Rejected(disk, reprocess, u.watermarks, last)
    ensures HasCopy(StageOne(disk, runId, reprocess, u, last).bronze, runId, last)
  {
  }

  /** No file after `p` and before `n` of the same client and dataset is accepted. */
  ghost predicate NoneFollows(disk: Disk, runId: string, reprocess: bool, s: Stage, sources: seq<SourceFile>, p: nat, n: nat)
    requires p < n <= |sources|
  {
    forall q :: p < q < n && AcceptedAt(disk, runId, reprocess, s, sources, q) ==> !SameDataset(sources[p], sources[q])
  }

  lemma FollowsInPrefix(disk: Disk, runId: string, reprocess: bool, s: Stage, sources: seq<SourceFile>, p: nat, n: nat)
    requires p < n <= |sources|
    ensures AcceptedAt(disk, runId, reprocess, s, sources[..n], p) == AcceptedAt(disk, runId, reprocess, s, sources, p)
    ensures NoneFollows(disk, runId, reprocess, s, sources[..n], p, n) == NoneFollows(disk, runId, reprocess, s, sources, p, n)
  {
    forall q | p <= q < n
      ensures AcceptedAt(disk, runId, reprocess, s, sources[..n], q) == AcceptedAt(disk, runId, reprocess, s, sources, q) {
      assert sources[..n][..q] == sources[..q];
    }
  }

  lemma FollowsOneMore(disk: Disk, runId: string, reprocess: bool, s: Stage, sources: seq<SourceFile>, p: nat, n: nat)
    requires p < n < |sources|
    ensures NoneFollows(disk, runId, reprocess, s, sources, p, n + 1)
            <==> (NoneFollows(disk, runId, reprocess, s, sources, p, n)
                  && (!AcceptedAt(disk, runId, reprocess, s, sources, n) || !SameDataset(sources[p], sources[n])))
  {
  }

  lemma LastSourceHasItsCopy(disk: Disk, runId: string, reprocess: bool, s: Stage, sources: seq<SourceFile>)
    requires sources != [] && AcceptedAt(disk, runId, reprocess, s, sources, |sources| - 1)
    ensures HasCopy(StageAll(disk, runId, reprocess, s, sources).bronze, runId, sources[|sources| - 1])
  {
    var n := |sources| - 1;
    LastHasItsCopy(disk, runId, reprocess, StageAll(disk, runId, reprocess, s, sources[..n]), sources[n]);
  }

  /** What is true of the sources but the last is true of all. */
  lemma SurvivesOneMore(disk: Disk, runId: string, reprocess: bool, s: Stage, sources: seq<SourceFile>, p: nat, n: nat)
    requires p < n == |sources| - 1 && Named(sources[p]) && Named(sources[n]) && sources[p].path != sources[n].path
    requires HasCopy(StageAll(disk, runId, reprocess, s, sources[..n]).bronze, runId, sources[p])
             <==> NoneFollows(disk, runId, reprocess, s, sources[..n], p, n)
    ensures HasCopy(StageAll(disk, runId, reprocess, s, sources).bronze, runId, sources[p])
            <==> NoneFollows(disk, runId, reprocess, s, sources, p, |sources|)
  {
    FollowsInPrefix(disk, runId, reprocess, s, sources, p, n);
    LastOfSources(disk, runId, reprocess, s, sources, p);
    FollowsOneMore(disk, runId, reprocess, s, sources, p, n);
  }

  /**
   The copy of an accepted file is still its own after the pass exactly when no later file of the same client
   and dataset is accepted: a second such file overwrites the first one's copy.
   */
  lemma {:induction false} CopySurvivesIff(disk: Disk, runId: string, reprocess: bool, s: Stage, sources: seq<SourceFile>, p: nat)
    requires DistinctPaths(sources) && forall x :: x in sources ==> Named(x)
    requires p < |sources| && AcceptedAt(disk, runId, reprocess, s, sources, p)
    ensures HasCopy(StageAll(disk, runId, reprocess, s, sources).bronze, runId, sources[p])
            <==> NoneFollows(disk, runId, reprocess, s, sources, p, |sources|)
    decreases |sources|
  {
    var n := |sources| - 1;
    if p == n {
      LastSourceHasItsCopy(disk, runId, reprocess, s, sources);
    } else {
      PathsOfPrefix(sources, n);
      assert AcceptedAt(disk, runId, reprocess, s, sources[..n], p) by {
        FollowsInPrefix(disk, runId, reprocess, s, sources, p, n);
      }
      CopySurvivesIff(disk, runId, reprocess, s, sources[..n], p);
      SurvivesOneMore(disk, runId, reprocess, s, sources, p, n);
    }
  }

  ghost predicate AllCopiesSurvive(disk: Disk, runId: string, reprocess: bool, s: Stage, sources: seq<SourceFile>) {
    forall p :: 0 <= p < |sources| && AcceptedAt(disk, runId, reprocess, s, sources, p)
      ==> HasCopy(StageAll(disk, runId, reprocess, s, sources).bronze, runId, sources[p])
  }

  /** A pass over files of pairwise different clients or datasets keeps every copy it makes. */
  lemma OneFilePerDatasetKeepsAll(disk: Disk, runId: string, reprocess: bool, s: Stage, sources: seq<SourceFile>)
    requires DistinctPaths(sources) && forall x :: x in sources ==> Named(x)
    requires forall p, q :: 0 <= p < q < |sources| ==> !SameDataset(sources[p], sources[q])
    ensures AllCopiesSurvive(disk, runId, reprocess, s, sources)
  {
    forall p | 0 <= p < |sources| && AcceptedAt(disk, runId, reprocess, s, sources, p)
      ensures HasCopy(StageAll(disk, runId, reprocess, s, sources).bronze, runId, sources[p]) {
      CopySurvivesIff(disk, runId, reprocess, s, sources, p);
    }
  }

  /** With reprocessing, every copy survives exactly when no client and dataset have two files that can be inspected. */
  lemma ReprocessingKeepsAllIff(disk: Disk, runId: string, s: Stage, sources: seq<SourceFile>)
    requires DistinctPaths(sources) && forall x :: x in sources ==> Named(x)
    ensures AllCopiesSurvive(disk, runId, true, s, sources)
            <==> forall p, q :: 0 <= p < q < |sources| && disk.inspect(sources[p]).Some? && disk.inspect(sources[q]).Some?
                   ==> !SameDataset(sources[p], sources[q])
  {
    var t := StageAll(disk, runId, true, s, sources);
    forall p | 0 <= p < |sources| && disk.inspect(sources[p]).Some?
      ensures AcceptedAt(disk, runId, true, s, sources, p)
      ensures HasCopy(t.bronze, runId, sources[p])
              <==> forall q :: p < q < |sources| && disk.inspect(sources[q]).Some? ==> !SameDataset(sources[p], sources[q]) {
      CopySurvivesIff(disk, runId, true, s, sources, p);
      assert forall q :: p < q < |sources| ==> AcceptedAt(disk, runId, true, s, sources, q) == disk.inspect(sources[q]).Some?;
    }
    assert forall p :: 0 <= p < |sources| ==> AcceptedAt(disk, runId, true, s, sources, p) == disk.inspect(sources[p]).Some?;
  }

  lemma StageTwo(disk: Disk, runId: string, reprocess: bool, s: Stage, x: SourceFile, y: SourceFile)
    ensures StageAll(disk, runId, reprocess, s, [x, y])
         == StageOne(disk, runId, reprocess, StageOne(disk, runId, reprocess, s, x), y)
  {
    assert [x, y][..1] == [x] && [x][..0] == [];
    assert StageAll(disk, runId, reprocess, s, [x]) == StageOne(disk, runId, reprocess, StageAll(disk, runId, reprocess, s, []), x);
  }

  lemma NextIsAccepted(disk: Disk, runId: string, s: Stage, x: SourceFile, y: SourceFile)
    requires SameDataset(x, y) && !Rejected(disk, false, s.watermarks, x) && disk.inspect(y).Some?
    requires SpanOf(disk.inspect(x).value).Some? && SpanOf(disk.inspect(y).value).Some?
    requires SpanOf(disk.inspect(x).value).value.last < SpanOf(disk.inspect(y).value).value.first
    ensures !Rejected(disk, false, StageOne(disk, runId, false, s, x).watermarks, y)
  {
    assert Lookup(StageOne(disk, runId, false, s, x).watermarks, WatermarkKey(y)) == Some(SpanOf(disk.inspect(x).value).value.last);
  }

  /** Without it, a file that takes up where the one before ends is accepted, and costs that one its copy. */
  lemma NextFileTakesTheCopy(disk: Disk, runId: string, s: Stage, x: SourceFile, y: SourceFile)
    requires Named(x) && Named(y) && SameDataset(x, y) && x.path != y.path
    requires !Rejected(disk, false, s.watermarks, x) && disk.inspect(y).Some?
    requires SpanOf(disk.inspect(x).value).Some? && SpanOf(disk.inspect(y).value).Some?
    requires SpanOf(disk.inspect(x).value).value.last < SpanOf(disk.inspect(y).value).value.first
    ensures Staged(StageAll(disk, runId, false, s, [x, y])) == Staged(s) + [x, y]
    ensures !HasCopy(StageAll(disk, runId, false, s, [x, y]).bronze, runId, x)
  {
    var u := StageOne(disk, runId, false, s, x);
    StageTwo(disk, runId, false, s, x, y);
    NextIsAccepted(disk, runId, s, x, y);
    OneMoreFile(disk, runId, false, u, x, y);
    StagesTheOthers(disk, runId, false, s, x);
    StagesTheOthers(disk, runId, false, u, y);
    assert Staged(s) + [x] + [y] == Staged(s) + [x, y];
  }

  /** Copies made by a run with another identifier are left alone. */
  lemma {:induction false} OtherRunsKeepTheirCopies(disk: Disk, runId: string, reprocess: bool, s: Stage, sources: seq<SourceFile>, x: SourceFile,
      otherRun: string)
    requires (forall y :: y in sources ==> Named(y)) && Named(x) && otherRun != runId
    ensures Lookup(StageAll(disk, runId, reprocess, s, sources).bronze, BronzePath(x, otherRun)) == Lookup(s.bronze, BronzePath(x, otherRun))
    decreases |sources|
  {
    if sources != [] {
      var n := |sources| - 1;
      OtherRunsKeepTheirCopies(disk, runId, reprocess, s, sources[..n], x, otherRun);
      CopiesCollideIff(sources[n], x, runId, otherRun);
    }
  }
}
