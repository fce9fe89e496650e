/** The paths the API server prints for the connectors runtime, read back by its router. */
module ConnectionPaths {
  import opened Wrappers
  import opened Delimiters
  import opened Router
  import opened RouterLaws
  import opened ConnectorRoutes
  import opened PercentEncoding

  /** `PATH_SEGMENT_PATTERN` */
  predicate IsPathSegment(s: string) {
    1 <= |s| <= 128 && forall i :: 0 <= i < |s| ==> IsPlainChar(s[i])
  }

  /** Fails with the label of the value that has unsupported characters. */
  datatype Printed = Path(path: string) | Unsupported(what: string)

  function EncodePathSegment(value: string): Option<string> {
    if !IsPathSegment(Trim(value)) then None
    else
      PlainIsUnchanged(Trim(value));
      Some(Encode(Trim(value)))
  }

  function BuildOrganizationPath(organizationId: string): Printed {
    match EncodePathSegment(organizationId)
    case None => Unsupported("organizationId")
    case Some(segment) => Path("/v1/organizations/" + segment)
  }

  function BuildConnectionPath(organizationId: string, connectionId: string): Printed {
    match BuildOrganizationPath(organizationId)
    case Unsupported(what) => Unsupported(what)
    case Path(path) =>
      match EncodePathSegment(connectionId)
      case None => Unsupported("connectionId")
      case Some(segment) => Path(path + "/connections/" + segment)
  }

  /*** Reading a printed path ***/

  function ConnectionPath(a: string, b: string): string {
    "/v1/organizations/" + a + "/connections/" + b
  }

  const CONNECTION := [V1, Organizations, TheOrgId, Connections, TheConnectionId]

  function FromConnections(b: string): string { "connections" + ['/'] + b }

  function FromOrganization(a: string, b: string): string { a + ['/'] + FromConnections(b) }

  lemma TailInParts(a: string, b: string)
    ensures a + "/connections/" + b == FromOrganization(a, b)
  {
    assert "/connections/" == ['/'] + "connections" + ['/'];
  }

  lemma PathInParts(a: string, b: string)
    ensures ConnectionPath(a, b) == ['/'] + ("v1" + ['/'] + ("organizations" + ['/'] + FromOrganization(a, b)))
  {
    TailInParts(a, b);
    assert ConnectionPath(a, b) == "/v1/organizations/" + FromOrganization(a, b);
    assert "/v1/organizations/" == ['/'] + "v1" + ['/'] + "organizations" + ['/'];
  }

  lemma TailSegments(a: string, b: string)
    requires Without(a, '/') && Without(b, '/')
    ensures Split(FromOrganization(a, b), '/') == [a, "connections", b]
  {
    SplitOne(b);
    SplitAtSlash("connections", b);
    SplitAtSlash(a, FromConnections(b));
    assert [a] + (["connections"] + [b]) == [a, "connections", b];
  }

  lemma ConnectionSegments(a: string, b: string)
    requires Without(a, '/') && Without(b, '/')
    ensures Segments(ConnectionPath(a, b)) == Some(["v1", "organizations", a, "connections", b])
  {
    var tail := FromOrganization(a, b);
    var p := "v1" + ['/'] + ("organizations" + ['/'] + tail);
    PathInParts(a, b);
    TailSegments(a, b);
    SplitAtSlash("organizations", tail);
    SplitAtSlash("v1", "organizations" + ['/'] + tail);
    assert (['/'] + p)[1..] == p;
    assert ["v1"] + (["organizations"] + [a, "connections", b]) == ["v1", "organizations", a, "connections", b];
  }

  lemma OneMoreSegment(chunk: string, chunks: seq<string>, segment: string, segments: seq<string>)
    requires Takes(chunk, segment)
    ensures SegmentMatch([chunk] + chunks, [segment] + segments) == FirstThen(chunk, segment, SegmentMatch(chunks, segments))
  {
    assert ([chunk] + chunks)[1..] == chunks && ([segment] + segments)[1..] == segments;
  }

  lemma ConnectionMatches(a: string, b: string)
    requires a != "" && b != ""
    ensures SegmentMatch(["v1", "organizations", ":orgId", "connections", ":connectionId"], ["v1", "organizations", a, "connections", b])
         == Some([a, b])
  {
    assert SegmentMatch([], []) == Some([]);
    OneMoreSegment(":connectionId", [], b, []);
    assert [b] + [] == [b];
    OneMoreSegment("connections", [":connectionId"], "connections", [b]);
    OneMoreSegment(":orgId", ["connections", ":connectionId"], a, ["connections", b]);
    assert [a] + [b] == [a, b];
    OneMoreSegment("organizations", [":orgId", "connections", ":connectionId"], "organizations", [a, "connections", b]);
    OneMoreSegment("v1", ["organizations", ":orgId", "connections", ":connectionId"], "v1", ["organizations", a, "connections", b]);
  }

  lemma OneMoreName(chunks: seq<string>, chunk: string)
    ensures ParamNames(chunks + [chunk]) == if IsParam(chunk) then ParamNames(chunks) + [chunk[1..]] else ParamNames(chunks)
  {
    assert (chunks + [chunk])[..|chunks|] == chunks;
  }

  lemma ConnectionNames()
    ensures ParamNames(["v1", "organizations", ":orgId", "connections", ":connectionId"]) == ["orgId", "connectionId"]
  {
    assert ":orgId"[1..] == "orgId" && ":connectionId"[1..] == "connectionId";
    OneMoreName([], "v1");
    assert [] + ["v1"] == ["v1"];
    OneMoreName(["v1"], "organizations");
    assert ["v1"] + ["organizations"] == ["v1", "organizations"];
    OneMoreName(["v1", "organizations"], ":orgId");
    assert ["v1", "organizations"] + [":orgId"] == ["v1", "organizations", ":orgId"];
    OneMoreName(["v1", "organizations", ":orgId"], "connections");
    assert ["v1", "organizations", ":orgId"] + ["connections"] == ["v1", "organizations", ":orgId", "connections"];
    OneMoreName(["v1", "organizations", ":orgId", "connections"], ":connectionId");
    assert ["v1", "organizations", ":orgId", "connections"] + [":connectionId"] == ["v1", "organizations", ":orgId", "connections", ":connectionId"];
    assert ParamNames(["v1", "organizations", ":orgId", "connections"]) == ["orgId"];
  }

  lemma ConnectionChunks()
    ensures Texts(CONNECTION) == ["v1", "organizations", ":orgId", "connections", ":connectionId"]
  {
  }

  lemma {:induction false} Listed(verb: HttpMethod, templates: List<seq<Word>>, t: seq<Word>)
    requires InList(t, templates)
    ensures Route(verb, Texts(t)) in RoutesIn(verb, templates)
  {
    if t != templates.first {
      Listed(verb, templates.rest, t);
    }
  }

  lemma {:induction false} ListedInFamily(families: seq<Family>, k: nat, t: seq<Word>)
    requires k < |families| && InList(t, families[k].templates)
    ensures Route(families[k].verb, Texts(t)) in RoutesOf(families)
  {
    if k == 0 {
      Listed(families[0].verb, families[0].templates, t);
    } else {
      ListedInFamily(families[1..], k - 1, t);
    }
  }

  /** Percent-decoding as RFC 3986 has it, wherever the escapes stand for ASCII characters. */
  ghost predicate DecodesPercent(decode: string -> Option<string>) {
    forall s :: Ascii(s) ==> decode(Encode(s)) == Some(s)
  }

  lemma DecodeDecodesPercent()
    ensures DecodesPercent(Decode)
  {
    forall s | Ascii(s) ensures Decode(Encode(s)) == Some(s) {
      DecodeEncode(s);
    }
  }

  lemma ConnectionRouteIsListed(verb: HttpMethod)
    requires verb == Get || verb == Patch
    ensures Route(verb, Texts(CONNECTION)) in Routes()
  {
    ListedInFamily(FAMILIES, if verb == Get then 3 else 6, CONNECTION);
  }

  lemma TwoParams(decode: string -> Option<string>, a: string, b: string, values: seq<string>)
    requires |values| == 2 && decode(values[0]) == Some(a) && decode(values[1]) == Some(b)
    ensures Decoded(decode, ["orgId", "connectionId"], values, 2) == Params(map["orgId" := a, "connectionId" := b])
  {
    var names := ["orgId", "connectionId"];
    assert Decoded(decode, names, values, 0) == Params(map[]);
    assert Decoded(decode, names, values, 1) == Params(map["orgId" := a]);
  }

  /** A path printed from two identifiers, whatever ASCII characters they hold, is routed to the connection with those identifiers. */
  lemma EncodedPathIsRead(decode: string -> Option<string>, verb: HttpMethod, a: string, b: string)
    requires (verb == Get || verb == Patch) && DecodesPercent(decode) && Ascii(a) && Ascii(b) && a != "" && b != ""
    ensures FirstMatch(decode, Routes(), verb, ConnectionPath(Encode(a), Encode(b)))
         == Matched(Route(verb, Texts(CONNECTION)), map["orgId" := a, "connectionId" := b])
  {
    var r, path := Route(verb, Texts(CONNECTION)), ConnectionPath(Encode(a), Encode(b));
    EncodedIsOneSegment(a);
    EncodedIsOneSegment(b);
    ConnectionSegments(Encode(a), Encode(b));
    ConnectionMatches(Encode(a), Encode(b));
    ConnectionNames();
    ConnectionChunks();
    ConnectionRouteIsListed(verb);
    RoutesWellFormed(r);
    MatchIsSegmentWise(r.chunks, path);
    TableIsUnambiguous();
    FirstMatchIsTheMatch(decode, Routes(), verb, path, r);
    TwoParams(decode, a, b, [Encode(a), Encode(b)]);
  }

  /** One to 128 characters: ASCII letters and digits, underscores and hyphens, by code point. */
  ghost predicate ShortAndPlain(s: string) {
    1 <= |s| <= 128
    && forall c :: c in s ==> 65 <= c as int <= 90 || 97 <= c as int <= 122 || 48 <= c as int <= 57 || c as int == 95 || c as int == 45
  }

  lemma SegmentIff(s: string)
    ensures IsPathSegment(s) <==> ShortAndPlain(s)
  {
    if ShortAndPlain(s) {
      forall i | 0 <= i < |s| ensures IsPlainChar(s[i]) {
        assert s[i] in s;
      }
    }
  }

  /** A path is printed exactly when both trimmed identifiers are short and plain; else the first that is not is named. */
  lemma PrintsIff(organizationId: string, connectionId: string)
    ensures var printed, a, b := BuildConnectionPath(organizationId, connectionId), Trim(organizationId), Trim(connectionId);
            && (printed.Path? <==> ShortAndPlain(a) && ShortAndPlain(b))
            && (printed == Unsupported("organizationId") <==> !ShortAndPlain(a))
            && (printed == Unsupported("connectionId") <==> ShortAndPlain(a) && !ShortAndPlain(b))
  {
    SegmentIff(Trim(organizationId));
    SegmentIff(Trim(connectionId));
    assert "organizationId" != "connectionId" by {
      assert |"organizationId"| == 14 && |"connectionId"| == 12;
    }
  }

  /**
   Every pair of identifiers either prints to a path that is read back as the same trimmed identifiers, or
   is rejected; it is rejected exactly when a trimmed identifier is not a path segment.
   */
  lemma PrintedPathIsRead(decode: string -> Option<string>, verb: HttpMethod, organizationId: string, connectionId: string)
    requires (verb == Get || verb == Patch) && DecodesPercent(decode)
    ensures BuildConnectionPath(organizationId, connectionId).Path?
        <==> IsPathSegment(Trim(organizationId)) && IsPathSegment(Trim(connectionId))
    ensures BuildConnectionPath(organizationId, connectionId).Path? ==>
              FirstMatch(decode, Routes(), verb, BuildConnectionPath(organizationId, connectionId).path)
              == Matched(Route(verb, Texts(CONNECTION)), map["orgId" := Trim(organizationId), "connectionId" := Trim(connectionId)])
  {
    var a, b := Trim(organizationId), Trim(connectionId);
    if IsPathSegment(a) && IsPathSegment(b) {
      PlainIsUnchanged(a);
      PlainIsUnchanged(b);
      EncodedPathIsRead(decode, verb, a, b);
      assert BuildConnectionPath(organizationId, connectionId).path == ConnectionPath(Encode(a), Encode(b));
    }
  }
}
