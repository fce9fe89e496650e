/** Pattern matching is segment-wise matching, and a table of routes that differ in a literal is unambiguous. */
module RouterLaws {
  import opened Wrappers
  import opened Sequences
  import opened Delimiters
  import opened Router

  /*** Segment-wise matching ***/

  /** The parts of an absolute path between slashes. */
  function Segments(path: string): Option<seq<string>> {
    if path == "" || path[0] != '/' then None else Some(Split(path[1..], '/'))
  }

  /** A parameter takes any segment that is not empty, a literal only itself. */
  predicate Takes(chunk: string, segment: string) {
    if IsParam(chunk) then segment != "" else segment == chunk
  }

  function SegmentMatch(chunks: seq<string>, segments: seq<string>): Option<seq<string>> {
    if chunks == [] then if segments == [] then Some([]) else None
    else if segments == [] || !Takes(chunks[0], segments[0]) then None
    else
      match SegmentMatch(chunks[1..], segments[1..])
      case None => None
      case Some(groups) => Some(if IsParam(chunks[0]) then [segments[0]] + groups else groups)
  }

  /** The root template takes the path `/` alone, which reads as one empty segment. */
  function PathMatch(chunks: seq<string>, path: string): Option<seq<string>> {
    if chunks == [] then if path == "/" then Some([]) else None
    else
      match Segments(path)
      case None => None
      case Some(segments) => SegmentMatch(chunks, segments)
  }

  /** Chunks as splitting a template produces them. */
  ghost predicate AreChunks(chunks: seq<string>) {
    forall i :: 0 <= i < |chunks| ==> chunks[i] != "" && Without(chunks[i], '/')
  }

  lemma {:induction false} SplitFront(p: string)
    ensures Split(p, '/') == [p[..Run(p)]] + (if Run(p) == |p| then [] else Split(p[Run(p) + 1..], '/'))
  {
    if p != "" && p[0] != '/' {
      var n := Run(p[1..]);
      SplitFront(p[1..]);
      assert p[..n + 1] == [p[0]] + p[1..][..n];
      assert p[1..][n..] == p[n + 1..];
      if n < |p| - 1 {
        assert p[1..][n + 1..] == p[n + 2..];
      }
    }
  }

  lemma SplitOne(segment: string)
    requires Without(segment, '/')
    ensures Split(segment, '/') == [segment]
  {
    SplitFront(segment);
    assert Run(segment) == |segment|;
    assert segment[..|segment|] == segment;
  }

  lemma RunStopsAtSlash(segment: string, rest: string)
    requires Without(segment, '/')
    ensures Run(segment + ['/'] + rest) == |segment|
  {
    var p := segment + ['/'] + rest;
    assert p[|segment|] == '/';
    assert forall i :: 0 <= i < |segment| ==> p[i] == segment[i];
  }

  lemma SplitAtSlash(segment: string, rest: string)
    requires Without(segment, '/')
    ensures Split(segment + ['/'] + rest, '/') == [segment] + Split(rest, '/')
  {
    var p := segment + ['/'] + rest;
    RunStopsAtSlash(segment, rest);
    SplitFront(p);
    assert p[..|segment|] == segment && p[|segment| + 1..] == rest;
  }

  lemma {:induction false} SlashedFront(chunks: seq<string>)
    requires chunks != []
    ensures Slashed(chunks) == SlashPart(chunks[0]) + Slashed(chunks[1..])
  {
    var n := |chunks| - 1;
    if n == 0 {
      assert Slashed(chunks[..0]) == [];
      assert Slashed(chunks[1..]) == [];
    } else {
      SlashedFront(chunks[..n]);
      assert chunks[..n][1..] == chunks[1..][..n - 1];
      Associate(SlashPart(chunks[0]), Slashed(chunks[1..][..n - 1]), SlashPart(chunks[n]));
    }
  }

  lemma Associate<T>(a: seq<T>, b: seq<T>, c: seq<T>)
    ensures (a + b) + c == a + (b + c)
  {
  }

  /*** Template texts ***/

  /** The template with the given chunks. */
  function TemplateOf(chunks: seq<string>): string {
    if chunks == [] then "" else ['/'] + chunks[0] + TemplateOf(chunks[1..])
  }

  lemma TemplateTail(chunks: seq<string>)
    requires chunks != []
    ensures TemplateOf(chunks)[1..] == chunks[0] + TemplateOf(chunks[1..])
    ensures TemplateOf(chunks) == ['/'] + TemplateOf(chunks)[1..]
  {
    Associate(['/'], chunks[0], TemplateOf(chunks[1..]));
  }

  lemma {:induction false} SplitTemplate(chunks: seq<string>)
    requires chunks != [] && AreChunks(chunks)
    ensures Split(TemplateOf(chunks)[1..], '/') == chunks
  {
    TemplateTail(chunks);
    if |chunks| == 1 {
      assert chunks[0] + TemplateOf(chunks[1..]) == chunks[0];
      SplitOne(chunks[0]);
      assert chunks == [chunks[0]];
    } else {
      var tail := TemplateOf(chunks[1..])[1..];
      TemplateTail(chunks[1..]);
      SplitTemplate(chunks[1..]);
      Associate(chunks[0], ['/'], tail);
      SplitAtSlash(chunks[0], tail);
      assert chunks == [chunks[0]] + chunks[1..];
    }
  }

  /** Splitting a template recovers its chunks. */
  lemma ChunksOfTemplate(chunks: seq<string>)
    requires AreChunks(chunks)
    ensures Chunks(TemplateOf(chunks)) == chunks
  {
    if chunks != [] {
      SplitTemplate(chunks);
      FilterAll(chunks, NonEmpty());
    }
  }

  /*** One part of a pattern ***/

  predicate AtSlash(more: Regex) {
    more == [] || more[0] == Exactly('/')
  }

  lemma NoMatchInside(more: Regex, text: string)
    requires AtSlash(more) && text != "" && text[0] != '/'
    ensures Exec(more, text) == None
  {
  }

  lemma {:induction false} NoShorterCapture(more: Regex, text: string, n: nat)
    requires AtSlash(more) && n < Run(text)
    ensures ExecCapture(more, text, n) == None
  {
    if n > 0 {
      assert text[n] == text[..Run(text)][n];
      NoMatchInside(more, text[n..]);
      NoShorterCapture(more, text, n - 1);
    }
  }

  /** A group that a slash or the end follows captures the whole run, or fails. */
  lemma CaptureTakesTheRun(more: Regex, text: string)
    requires AtSlash(more)
    ensures Exec([Capture] + more, text)
         == if Run(text) == 0 then None
            else match Exec(more, text[Run(text)..]) case None => None case Some(groups) => Some([text[..Run(text)]] + groups)
  {
    assert ([Capture] + more)[1..] == more;
    if Run(text) > 0 {
      NoShorterCapture(more, text, Run(text) - 1);
    }
  }

  lemma {:induction false} LiteralTakesItself(chunk: string, more: Regex, text: string)
    ensures Exec(Literal(chunk) + more, text) == if chunk <= text then Exec(more, text[|chunk|..]) else None
  {
    if chunk == "" {
      assert Literal(chunk) + more == more;
    } else {
      assert (Literal(chunk) + more)[0] == Exactly(chunk[0]);
      assert (Literal(chunk) + more)[1..] == Literal(chunk[1..]) + more;
      if text != "" && text[0] == chunk[0] {
        LiteralTakesItself(chunk[1..], more, text[1..]);
        assert chunk <= text <==> chunk[1..] <= text[1..] by {
          assert chunk == [chunk[0]] + chunk[1..] && text == [text[0]] + text[1..];
        }
      }
    }
  }

  /** A literal that a slash or the end follows matches the run it equals, and no other. */
  lemma LiteralTakesTheRun(chunk: string, more: Regex, text: string)
    requires AtSlash(more) && Without(chunk, '/')
    ensures Exec(Literal(chunk) + more, text) == if text[..Run(text)] == chunk then Exec(more, text[Run(text)..]) else None
  {
    var n := Run(text);
    LiteralTakesItself(chunk, more, text);
    if chunk <= text && text[..n] != chunk {
      assert |chunk| < n by {
        assert text[..|chunk|] == chunk;
      }
      assert text[|chunk|] == text[..n][|chunk|] != '/';
      NoMatchInside(more, text[|chunk|..]);
    }
  }

  /*** The whole pattern ***/

  lemma AfterTheSlash(chunks: seq<string>, p: string)
    requires chunks != []
    ensures Exec(Slashed(chunks), ['/'] + p) == Exec(PartOf(chunks[0]) + Slashed(chunks[1..]), p)
  {
    SlashedFront(chunks);
    var regex, more := Slashed(chunks), PartOf(chunks[0]) + Slashed(chunks[1..]);
    assert regex[0] == Exactly('/') && regex[1..] == more;
    assert (['/'] + p)[1..] == p;
  }

  lemma SlashedAtSlash(chunks: seq<string>)
    ensures AtSlash(Slashed(chunks))
  {
    if chunks != [] {
      SlashedFront(chunks);
    }
  }

  lemma OnlyAbsolute(chunks: seq<string>, path: string)
    requires chunks != [] && Segments(path) == None
    ensures Exec(Slashed(chunks), path) == None
  {
    SlashedFront(chunks);
    assert Slashed(chunks)[0] == Exactly('/');
  }

  function FirstThen(chunk: string, segment: string, rest: Option<seq<string>>): Option<seq<string>> {
    if !Takes(chunk, segment) || rest.None? then None
    else Some(if IsParam(chunk) then [segment] + rest.value else rest.value)
  }

  lemma OnePart(chunk: string, more: Regex, p: string)
    requires AtSlash(more) && chunk != "" && Without(chunk, '/')
    ensures Exec(PartOf(chunk) + more, p) == FirstThen(chunk, p[..Run(p)], Exec(more, p[Run(p)..]))
  {
    if IsParam(chunk) {
      CaptureTakesTheRun(more, p);
    } else {
      LiteralTakesTheRun(chunk, more, p);
    }
  }

  lemma SegmentsOfRest(p: string)
    ensures var rest := p[Run(p)..];
            Split(p, '/') == [p[..Run(p)]] + (if rest == "" then [] else Segments(rest).GetOr([]))
    ensures p[Run(p)..] == "" || Segments(p[Run(p)..]).Some?
  {
    SplitFront(p);
    if Run(p) < |p| {
      assert p[Run(p)..][1..] == p[Run(p) + 1..];
    }
  }

  lemma {:induction false} SlashedIsSegmentWise(chunks: seq<string>, path: string)
    requires chunks != [] && AreChunks(chunks)
    ensures Exec(Slashed(chunks), path) == PathMatch(chunks, path)
    decreases |chunks|, 0
  {
    if Segments(path) == None {
      OnlyAbsolute(chunks, path);
    } else {
      var p := path[1..];
      assert path == ['/'] + p;
      AfterTheSlash(chunks, p);
      SlashedAtSlash(chunks[1..]);
      OnePart(chunks[0], Slashed(chunks[1..]), p);
      RestMatches(chunks, p);
      FirstSegment(chunks, p);
    }
  }

  /** What follows the first run, by the law for the remaining chunks. */
  lemma {:induction false} RestMatches(chunks: seq<string>, p: string)
    requires chunks != [] && AreChunks(chunks)
    ensures Exec(Slashed(chunks[1..]), p[Run(p)..]) == SegmentMatch(chunks[1..], Split(p, '/')[1..])
    decreases |chunks| - 1, 1
  {
    var rest := p[Run(p)..];
    SegmentsOfRest(p);
    if |chunks| == 1 {
      assert chunks[1..] == [];
    } else {
      SlashedIsSegmentWise(chunks[1..], rest);
    }
  }

  lemma FirstSegment(chunks: seq<string>, p: string)
    requires chunks != []
    ensures SegmentMatch(chunks, Split(p, '/')) == FirstThen(chunks[0], p[..Run(p)], SegmentMatch(chunks[1..], Split(p, '/')[1..]))
  {
    SplitFront(p);
  }

  lemma RootTakesTheSlash(path: string)
    ensures Exec([Exactly('/')], path) == PathMatch([], path)
  {
    if path != "" {
      assert path == [path[0]] + path[1..];
    }
  }

  /** The pattern of any template matches a path exactly when the path matches segment by segment, with the same captures. */
  lemma MatchIsSegmentWise(chunks: seq<string>, path: string)
    requires AreChunks(chunks)
    ensures Exec(Compiled(chunks), path) == PathMatch(chunks, path)
  {
    if chunks == [] {
      RootTakesTheSlash(path);
    } else {
      SlashedIsSegmentWise(chunks, path);
    }
  }

  /*** Unambiguous tables ***/

  /** No path can match both: other lengths, or two different literals at one place. */
  predicate Apart(a: seq<string>, b: seq<string>) {
    if a == [] || b == [] then a != b
    else (!IsParam(a[0]) && !IsParam(b[0]) && a[0] != b[0]) || Apart(a[1..], b[1..])
  }

  lemma {:induction false} ApartNeverBoth(a: seq<string>, b: seq<string>, segments: seq<string>)
    requires Apart(a, b) && SegmentMatch(a, segments).Some?
    ensures SegmentMatch(b, segments) == None
  {
    if a != [] && b != [] && segments != [] && Apart(a[1..], b[1..]) {
      ApartNeverBoth(a[1..], b[1..], segments[1..]);
    }
  }

  predicate Distinguishable(r: Route, q: Route) {
    r.verb != q.verb || Apart(r.chunks, q.chunks)
  }

  lemma OnlyRootTakesTheSlash(chunks: seq<string>)
    requires chunks != [] && AreChunks(chunks)
    ensures PathMatch(chunks, "/") == None
  {
    assert "/"[1..] == "";
  }

  lemma ApartNeverMatchBoth(a: seq<string>, b: seq<string>, path: string)
    requires AreChunks(a) && AreChunks(b) && Apart(a, b) && PathMatch(a, path).Some?
    ensures PathMatch(b, path) == None
  {
    if a == [] {
      OnlyRootTakesTheSlash(b);
    } else if b == [] {
      if path == "/" {
        OnlyRootTakesTheSlash(a);
      }
    } else {
      ApartNeverBoth(a, b, Segments(path).value);
    }
  }

  ghost predicate WellFormedRoute(r: Route) {
    AreChunks(r.chunks)
  }

  lemma AcceptsAtMostOne(r: Route, q: Route, verb: HttpMethod, path: string)
    requires WellFormedRoute(r) && WellFormedRoute(q) && Distinguishable(r, q) && Accepts(r, verb, path)
    ensures !Accepts(q, verb, path)
  {
    if r.verb == q.verb {
      MatchIsSegmentWise(r.chunks, path);
      MatchIsSegmentWise(q.chunks, path);
      ApartNeverMatchBoth(r.chunks, q.chunks, path);
    }
  }

  /** Any two entries of the table can be told apart, so none is listed twice. */
  ghost predicate Unambiguous(routes: seq<Route>) {
    && (forall i :: 0 <= i < |routes| ==> WellFormedRoute(routes[i]))
    && (forall i, j :: 0 <= i < |routes| && 0 <= j < |routes| && i != j ==> Distinguishable(routes[i], routes[j]))
  }

  /** In an unambiguous table, in whatever order, a route that accepts a request is the one that is found. */
  ghost predicate NoneAccepts(routes: seq<Route>, verb: HttpMethod, path: string) {
    forall i :: 0 <= i < |routes| ==> !Accepts(routes[i], verb, path)
  }

  /** Whatever the table, the first route that accepts is the one answered. */
  lemma {:induction false} FirstAcceptingWins(decode: string -> Option<string>, routes: seq<Route>, verb: HttpMethod, path: string, i: nat)
    requires i < |routes| && NoneAccepts(routes[..i], verb, path) && Accepts(routes[i], verb, path)
    ensures FirstMatch(decode, routes, verb, path) == Outcome(decode, routes[i], path)
  {
    if i > 0 {
      assert !Accepts(routes[..i][0], verb, path);
      assert routes[1..][..i - 1] == routes[..i][1..];
      FirstAcceptingWins(decode, routes[1..], verb, path, i - 1);
    }
  }

  lemma {:induction false} FirstMatchIsTheMatch(decode: string -> Option<string>, routes: seq<Route>, verb: HttpMethod, path: string, r: Route)
    requires Unambiguous(routes) && r in routes && Accepts(r, verb, path)
    ensures FirstMatch(decode, routes, verb, path) == Outcome(decode, r, path)
  {
    if routes[0] != r {
      var i :| 0 <= i < |routes| && routes[i] == r;
      AcceptsAtMostOne(r, routes[0], verb, path);
      FirstMatchIsTheMatch(decode, routes[1..], verb, path, r);
    }
  }

  lemma {:induction false} NoMatchIff(decode: string -> Option<string>, routes: seq<Route>, verb: HttpMethod, path: string)
    ensures FirstMatch(decode, routes, verb, path) == NoMatch <==> forall r :: r in routes ==> !Accepts(r, verb, path)
  {
    if routes != [] {
      NoMatchIff(decode, routes[1..], verb, path);
      assert routes == [routes[0]] + routes[1..];
    }
  }

  /** The order of an unambiguous table is irrelevant: any rearrangement finds the same match. */
  lemma OrderIsIrrelevant(decode: string -> Option<string>, routes: seq<Route>, other: seq<Route>, verb: HttpMethod, path: string)
    requires Unambiguous(routes) && Unambiguous(other) && forall r :: r in routes <==> r in other
    ensures FirstMatch(decode, routes, verb, path) == FirstMatch(decode, other, verb, path)
  {
    NoMatchIff(decode, routes, verb, path);
    NoMatchIff(decode, other, verb, path);
    if FirstMatch(decode, routes, verb, path) != NoMatch {
      var r :| r in routes && Accepts(r, verb, path);
      FirstMatchIsTheMatch(decode, routes, verb, path, r);
      FirstMatchIsTheMatch(decode, other, verb, path, r);
    }
  }
}
