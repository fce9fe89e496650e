/** Route templates compiled to anchored patterns, and the search for the first route that matches. */
module Router {
  import opened Wrappers
  import opened Sequences
  import opened Delimiters

  /*** Patterns ***/

  /** A literal character, or the group `([^/]+)`. */
  datatype Piece = Exactly(c: char) | Capture

  type Regex = seq<Piece>

  /** The length of the longest prefix without a slash. */
  function Run(text: string): (n: nat)
    ensures n <= |text| && Without(text[..n], '/') && (n < |text| ==> text[n] == '/')
  {
    if text == "" || text[0] == '/' then 0
    else
      var n := Run(text[1..]);
      assert forall i :: 0 < i < n + 1 ==> text[i] == text[1..][..n][i - 1];
      1 + n
  }

  /** The pattern against the whole text, by backtracking: what each group captured, if it matches. */
  function Exec(regex: Regex, text: string): Option<seq<string>>
    decreases |regex|, 0
  {
    if regex == [] then if text == "" then Some([]) else None
    else match regex[0]
         case Exactly(c) => if text != "" && text[0] == c then Exec(regex[1..], text[1..]) else None
         case Capture => ExecCapture(regex[1..], text, Run(text))
  }

  /** The group takes as much as it can, and gives back one character at a time. */
  function ExecCapture(rest: Regex, text: string, n: nat): Option<seq<string>>
    requires n <= |text|
    decreases |rest|, n + 1
  {
    if n == 0 then None
    else
      match Exec(rest, text[n..])
      case Some(groups) => Some([text[..n]] + groups)
      case None => ExecCapture(rest, text, n - 1)
  }

  /*** Templates ***/

  /** `s.split(c)` */
  function Split(s: string, c: char): (parts: seq<string>)
    ensures parts != []
  {
    if s == "" then [""]
    else
      var rest := Split(s[1..], c);
      if s[0] == c then [""] + rest else [[s[0]] + rest[0]] + rest[1..]
  }

  function NonEmpty(): string -> bool { (s: string) => s != "" }

  function Chunks(template: string): seq<string> {
    Filter(Split(template, '/'), NonEmpty())
  }

  predicate IsParam(chunk: string) {
    chunk != "" && chunk[0] == ':'
  }

  function Literal(chunk: string): Regex {
    seq(|chunk|, i requires 0 <= i < |chunk| => Exactly(chunk[i]))
  }

  function PartOf(chunk: string): Regex {
    if IsParam(chunk) then [Capture] else Literal(chunk)
  }

  function SlashPart(chunk: string): Regex {
    [Exactly('/')] + PartOf(chunk)
  }

  /** A slash before each part. */
  function Slashed(chunks: seq<string>): Regex {
    if chunks == [] then [] else Slashed(chunks[..|chunks| - 1]) + SlashPart(chunks[|chunks| - 1])
  }

  function Compiled(chunks: seq<string>): Regex {
    if chunks == [] then [Exactly('/')] else Slashed(chunks)
  }

  function ParamNames(chunks: seq<string>): seq<string> {
    if chunks == [] then []
    else
      var before, last := ParamNames(chunks[..|chunks| - 1]), chunks[|chunks| - 1];
      if IsParam(last) then before + [last[1..]] else before
  }

  datatype HttpMethod = Get | Post | Patch | Put | Delete

  datatype Route = Route(verb: HttpMethod, chunks: seq<string>)

  datatype Match = NoMatch | InvalidEncoding(name: string) | Matched(route: Route, params: map<string, string>)

  datatype Params = Params(values: map<string, string>) | Invalid(name: string)

  /** The first `n` parameters, decoded in turn; the first that does not decode ends the search. */
  function Decoded(decode: string -> Option<string>, names: seq<string>, values: seq<string>, n: nat): Params
    requires n <= |names| && n <= |values|
  {
    if n == 0 then Params(map[])
    else
      match Decoded(decode, names, values, n - 1)
      case Invalid(name) => Invalid(name)
      case Params(before) =>
        match decode(values[n - 1])
        case None => Invalid(names[n - 1])
        case Some(value) => Params(before[names[n - 1] := value])
  }

  predicate Accepts(route: Route, verb: HttpMethod, path: string) {
    route.verb == verb && Exec(Compiled(route.chunks), path).Some?
  }

  function Outcome(decode: string -> Option<string>, route: Route, path: string): Match
    requires Exec(Compiled(route.chunks), path).Some?
  {
    var names, values := ParamNames(route.chunks), Exec(Compiled(route.chunks), path).value;
    match Decoded(decode, names, values, if |names| <= |values| then |names| else |values|)
    case Invalid(name) => InvalidEncoding(name)
    case Params(params) => Matched(route, params)
  }

  function FirstMatch(decode: string -> Option<string>, routes: seq<Route>, verb: HttpMethod, path: string): Match {
    if routes == [] then NoMatch
    else if Accepts(routes[0], verb, path) then Outcome(decode, routes[0], path)
    else FirstMatch(decode, routes[1..], verb, path)
  }

  /*** The same, with loops ***/

  method CompileTemplate(template: string) returns (regex: Regex, paramNames: seq<string>)
    ensures regex == Compiled(Chunks(template)) && paramNames == ParamNames(Chunks(template))
  {
    var chunks := Chunks(template);
    regex, paramNames := [], [];
    for i := 0 to |chunks|
      invariant regex == Slashed(chunks[..i]) && paramNames == ParamNames(chunks[..i])
    {
      assert chunks[..i + 1][..i] == chunks[..i];
      var chunk := chunks[i];
      if IsParam(chunk) {
        paramNames := paramNames + [chunk[1..]];
      }
      regex := regex + SlashPart(chunk);
    }
    assert chunks[..|chunks|] == chunks;
    if chunks == [] {
      regex := [Exactly('/')];
    }
  }

  method MatchRoute(decode: string -> Option<string>, routes: seq<Route>, verb: HttpMethod, path: string) returns (result: Match)
    ensures result == FirstMatch(decode, routes, verb, path)
  {
    assert routes[0..] == routes;
    for r := 0 to |routes|
      invariant FirstMatch(decode, routes, verb, path) == FirstMatch(decode, routes[r..], verb, path)
    {
      var candidate := routes[r];
      assert routes[r..][1..] == routes[r + 1..];
      if candidate.verb != verb {
        continue;
      }
      var matched := Exec(Compiled(candidate.chunks), path);
      if matched.None? {
        continue;
      }
      var names, values := ParamNames(candidate.chunks), matched.value;
      var params: map<string, string> := map[];
      var i := 0;
      while i < |names| && i < |values|
        invariant i <= |names| && i <= |values|
        invariant Decoded(decode, names, values, i) == Params(params)
      {
        var value := decode(values[i]);
        if value.None? {
          InvalidStays(decode, names, values, i + 1, if |names| <= |values| then |names| else |values|);
          return InvalidEncoding(names[i]);
        }
        params := params[names[i] := value.value];
        i := i + 1;
      }
      return Matched(candidate, params);
    }
    return NoMatch;
  }

  lemma {:induction false} InvalidStays(decode: string -> Option<string>, names: seq<string>, values: seq<string>, m: nat, n: nat)
    requires m <= n <= |names| && n <= |values| && Decoded(decode, names, values, m).Invalid?
    ensures Decoded(decode, names, values, n) == Decoded(decode, names, values, m)
  {
    if m < n {
      InvalidStays(decode, names, values, m, n - 1);
    }
  }
}
