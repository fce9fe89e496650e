/** The routes of the connectors runtime. */
module ConnectorRoutes {
  import opened Sequences
  import opened Delimiters
  import opened Router
  import opened RouterLaws

  /** The chunks that occur in templates; those called The... are parameters. */
  datatype Word =
    TheConnectionId | TheCredentialId | TheEventId | TheOrgId | TheRawEventId | TheRunId | AccessContext |
    AuditEvents | Authorize | Catalog | Claim | Complete | Completed | Connections | Connectors | Events |
    ExecutionPlan | Failed | Health | Ingest | IngestCredentials | Organizations | Payload | Processed |
    ProviderEvents | RawEvents | Revoke | Runtime | Start | Sync | SyncRuns | SyncState | Test | V1
  {
    function Text(): string {
      match this
      case TheConnectionId => ":connectionId"
      case TheCredentialId => ":credentialId"
      case TheEventId => ":eventId"
      case TheOrgId => ":orgId"
      case TheRawEventId => ":rawEventId"
      case TheRunId => ":runId"
      case AccessContext => "access-context"
      case AuditEvents => "audit-events"
      case Authorize => "authorize"
      case Catalog => "catalog"
      case Claim => "claim"
      case Complete => "complete"
      case Completed => "completed"
      case Connections => "connections"
      case Connectors => "connectors"
      case Events => "events"
      case ExecutionPlan => "execution-plan"
      case Failed => "failed"
      case Health => "health"
      case Ingest => "ingest"
      case IngestCredentials => "ingest-credentials"
      case Organizations => "organizations"
      case Payload => "payload"
      case Processed => "processed"
      case ProviderEvents => "provider-events"
      case RawEvents => "raw-events"
      case Revoke => "revoke"
      case Runtime => "runtime"
      case Start => "start"
      case Sync => "sync"
      case SyncRuns => "sync-runs"
      case SyncState => "sync-state"
      case Test => "test"
      case V1 => "v1"
    }

    predicate IsParameter() {
      TheConnectionId? || TheCredentialId? || TheEventId? || TheOrgId? || TheRawEventId? || TheRunId?
    }
  }

  /** The templates of one verb with one number of chunks; they differ in the literal at `mark`. */
  datatype Family = Family(verb: HttpMethod, size: nat, mark: nat, templates: List<seq<Word>>)

  datatype List<T> = End | And(first: T, rest: List<T>)

  const GET_1 := Family(Get, 1, 0,
    And([Health], End))

  const GET_3 := Family(Get, 3, 2,
    And([V1, Connectors, Catalog], End))

  const GET_4 := Family(Get, 4, 3,
    And([V1, Organizations, TheOrgId, Connections],
    And([V1, Organizations, TheOrgId, SyncRuns],
    And([V1, Organizations, TheOrgId, AuditEvents], End))))

  const GET_5 := Family(Get, 5, 3,
    And([V1, Organizations, TheOrgId, Connections, TheConnectionId],
    And([V1, Organizations, TheOrgId, SyncRuns, TheRunId], End)))

  const GET_6 := Family(Get, 6, 5,
    And([V1, Organizations, TheOrgId, Connections, TheConnectionId, IngestCredentials],
    And([V1, Organizations, TheOrgId, Connections, TheConnectionId, RawEvents], End)))

  const GET_8 := Family(Get, 8, 7,
    And([V1, Organizations, TheOrgId, Connections, TheConnectionId, RawEvents, TheEventId, Payload], End))

  const PATCH_5 := Family(Patch, 5, 3,
    And([V1, Organizations, TheOrgId, Connections, TheConnectionId], End))

  const POST_4 := Family(Post, 4, 3,
    And([V1, Organizations, TheOrgId, Connections],
    And([V1, Runtime, SyncRuns, Claim], End)))

  const POST_5 := Family(Post, 5, 4,
    And([V1, Ingest, TheOrgId, TheConnectionId, Events], End))

  const POST_6 := Family(Post, 6, 5,
    And([V1, Organizations, TheOrgId, Connections, TheConnectionId, IngestCredentials],
    And([V1, Organizations, TheOrgId, Connections, TheConnectionId, Test],
    And([V1, Organizations, TheOrgId, Connections, TheConnectionId, Sync],
    And([V1, Organizations, TheOrgId, SyncRuns, TheRunId, ExecutionPlan],
    And([V1, Organizations, TheOrgId, SyncRuns, TheRunId, Completed],
    And([V1, Organizations, TheOrgId, SyncRuns, TheRunId, SyncState],
    And([V1, Organizations, TheOrgId, SyncRuns, TheRunId, Failed], End))))))))

  const POST_7 := Family(Post, 7, 6,
    And([V1, Runtime, Organizations, TheOrgId, Connections, TheConnectionId, AccessContext],
    And([V1, Runtime, Organizations, TheOrgId, Connections, TheConnectionId, ProviderEvents],
    And([V1, Organizations, TheOrgId, Connections, TheConnectionId, RawEvents, Claim],
    And([V1, Organizations, TheOrgId, Connections, TheConnectionId, Authorize, Start],
    And([V1, Organizations, TheOrgId, Connections, TheConnectionId, Authorize, Complete], End))))))

  const POST_8 := Family(Post, 8, 7,
    And([V1, Organizations, TheOrgId, Connections, TheConnectionId, IngestCredentials, TheCredentialId, Revoke],
    And([V1, Organizations, TheOrgId, Connections, TheConnectionId, RawEvents, TheRawEventId, Processed],
    And([V1, Organizations, TheOrgId, Connections, TheConnectionId, RawEvents, TheRawEventId, Failed], End))))

  predicate IsChunk(s: string) {
    s != "" && Without(s, '/')
  }

  lemma Words0()
    ensures IsChunk(":connectionId")
    ensures IsChunk(":credentialId")
    ensures IsChunk(":eventId")
    ensures IsChunk(":orgId")
    ensures IsChunk(":rawEventId")
    ensures IsChunk(":runId")
    ensures IsChunk("access-context")
    ensures IsChunk("audit-events")
    ensures IsChunk("authorize")
  {
  }

  lemma Words1()
    ensures IsChunk("catalog")
    ensures IsChunk("claim")
    ensures IsChunk("complete")
    ensures IsChunk("completed")
    ensures IsChunk("connections")
    ensures IsChunk("connectors")
    ensures IsChunk("events")
    ensures IsChunk("execution-plan")
    ensures IsChunk("failed")
  {
  }

  lemma Words2()
    ensures IsChunk("health")
    ensures IsChunk("ingest")
    ensures IsChunk("ingest-credentials")
    ensures IsChunk("organizations")
    ensures IsChunk("payload")
    ensures IsChunk("processed")
    ensures IsChunk("provider-events")
    ensures IsChunk("raw-events")
    ensures IsChunk("revoke")
  {
  }

  lemma Words3()
    ensures IsChunk("runtime")
    ensures IsChunk("start")
    ensures IsChunk("sync")
    ensures IsChunk("sync-runs")
    ensures IsChunk("sync-state")
    ensures IsChunk("test")
    ensures IsChunk("v1")
  {
  }

  lemma WordsAreChunks(w: Word)
    ensures IsChunk(w.Text())
  {
    Words0(); Words1(); Words2(); Words3();
  }

  lemma ParametersStartWithColon(w: Word)
    ensures IsParam(w.Text()) <==> w.IsParameter()
  {
  }

  /** The literal of a given length and first letter: no two share both. */
  function LiteralOf(n: nat, c: char): Word {
    if n == 2 then V1
    else if n == 4 then if c == 's' then Sync else Test
    else if n == 5 then if c == 'c' then Claim else Start
    else if n == 6 then if c == 'e' then Events else if c == 'f' then Failed else if c == 'h' then Health else if c == 'i' then Ingest else Revoke
    else if n == 7 then if c == 'c' then Catalog else if c == 'p' then Payload else Runtime
    else if n == 8 then Complete
    else if n == 9 then if c == 'a' then Authorize else if c == 'c' then Completed else if c == 'p' then Processed else SyncRuns
    else if n == 10 then if c == 'c' then Connectors else if c == 'r' then RawEvents else SyncState
    else if n == 11 then Connections
    else if n == 12 then AuditEvents
    else if n == 13 then Organizations
    else if n == 14 then if c == 'a' then AccessContext else ExecutionPlan
    else if n == 15 then ProviderEvents
    else IngestCredentials
  }

  lemma LiteralIsRead(w: Word)
    requires !w.IsParameter()
    ensures w.Text() != "" && LiteralOf(|w.Text()|, w.Text()[0]) == w
  {
  }

  lemma LiteralsDiffer(w: Word, v: Word)
    requires !w.IsParameter() && !v.IsParameter() && w.Text() == v.Text()
    ensures w == v
  {
    LiteralIsRead(w);
    LiteralIsRead(v);
  }

  predicate DifferentFromAll(w: Word, f: Family, templates: List<seq<Word>>) {
    match templates
    case End => true
    case And(t, rest) => |t| == f.size && f.mark < f.size && w != t[f.mark] && DifferentFromAll(w, f, rest)
  }

  /** Templates of one length with a literal at the mark, pairwise different there. */
  predicate Fits(f: Family, templates: List<seq<Word>>) {
    match templates
    case End => true
    case And(t, rest) =>
      |t| == f.size && f.mark < f.size && !t[f.mark].IsParameter() && DifferentFromAll(t[f.mark], f, rest) && Fits(f, rest)
  }

  predicate FitsItself(f: Family) {
    Fits(f, f.templates)
  }

  const FAMILIES := [GET_1, GET_3, GET_4, GET_5, GET_6, GET_8, PATCH_5, POST_4, POST_5, POST_6, POST_7, POST_8]

  lemma QueriesFit()
    ensures FitsItself(GET_1) && FitsItself(GET_3) && FitsItself(GET_4) && FitsItself(GET_5) && FitsItself(GET_6) && FitsItself(GET_8) && FitsItself(PATCH_5)
  {
  }

  lemma CommandsFit()
    ensures FitsItself(POST_4) && FitsItself(POST_5) && FitsItself(POST_8)
  {
  }

  lemma ManyCommandsFit()
    ensures FitsItself(POST_6)
  {
  }

  lemma RuntimeCommandsFit()
    ensures FitsItself(POST_7)
  {
  }

  lemma FamiliesFit()
    ensures forall k :: 0 <= k < |FAMILIES| ==> FitsItself(FAMILIES[k])
  {
    QueriesFit();
    CommandsFit();
    ManyCommandsFit();
    RuntimeCommandsFit();
  }

  predicate OtherShape(f: Family, g: Family) {
    f.verb != g.verb || f.size != g.size
  }

  lemma FamiliesDiffer()
    ensures forall k, l :: 0 <= k < |FAMILIES| && 0 <= l < |FAMILIES| && k != l ==> OtherShape(FAMILIES[k], FAMILIES[l])
  {
  }

  function Texts(t: seq<Word>): seq<string> {
    Map(t, (w: Word) => w.Text())
  }

  function RoutesIn(verb: HttpMethod, templates: List<seq<Word>>): seq<Route> {
    match templates
    case End => []
    case And(t, rest) => [Route(verb, Texts(t))] + RoutesIn(verb, rest)
  }

  function RoutesOf(families: seq<Family>): seq<Route> {
    if families == [] then [] else RoutesIn(families[0].verb, families[0].templates) + RoutesOf(families[1..])
  }

  /** The route table, by verb and length. The order does not matter, as shown below. */
  function Routes(): seq<Route> {
    RoutesOf(FAMILIES)
  }

  predicate InList(t: seq<Word>, templates: List<seq<Word>>) {
    match templates
    case End => false
    case And(u, rest) => t == u || InList(t, rest)
  }

  lemma {:induction false} OriginInFamily(verb: HttpMethod, templates: List<seq<Word>>, r: Route) returns (t: seq<Word>)
    requires r in RoutesIn(verb, templates)
    ensures InList(t, templates) && r == Route(verb, Texts(t))
  {
    if r == Route(verb, Texts(templates.first)) {
      t := templates.first;
    } else {
      t := OriginInFamily(verb, templates.rest, r);
    }
  }

  lemma {:induction false} Origin(families: seq<Family>, r: Route) returns (k: nat, t: seq<Word>)
    requires r in RoutesOf(families)
    ensures k < |families| && InList(t, families[k].templates) && r == Route(families[k].verb, Texts(t))
  {
    if r in RoutesIn(families[0].verb, families[0].templates) {
      k := 0;
      t := OriginInFamily(families[0].verb, families[0].templates, r);
    } else {
      k, t := Origin(families[1..], r);
      k := k + 1;
    }
  }

  lemma {:induction false} FitsOne(f: Family, templates: List<seq<Word>>, t: seq<Word>)
    requires Fits(f, templates) && InList(t, templates)
    ensures |t| == f.size && f.mark < f.size && !t[f.mark].IsParameter()
  {
    if t != templates.first {
      FitsOne(f, templates.rest, t);
    }
  }

  lemma {:induction false} DiffersFromEach(w: Word, f: Family, templates: List<seq<Word>>, t: seq<Word>)
    requires DifferentFromAll(w, f, templates) && InList(t, templates)
    ensures f.mark < |t| && w != t[f.mark]
  {
    if t != templates.first {
      DiffersFromEach(w, f, templates.rest, t);
    }
  }

  lemma {:induction false} FitsTwo(f: Family, templates: List<seq<Word>>, t: seq<Word>, u: seq<Word>)
    requires Fits(f, templates) && InList(t, templates) && InList(u, templates) && t != u
    ensures f.mark < |t| && f.mark < |u| && t[f.mark] != u[f.mark]
  {
    if t == templates.first {
      DiffersFromEach(t[f.mark], f, templates.rest, u);
    } else if u == templates.first {
      DiffersFromEach(u[f.mark], f, templates.rest, t);
    } else {
      FitsTwo(f, templates.rest, t, u);
    }
  }

  lemma {:induction false} ApartAt(a: seq<string>, b: seq<string>, i: nat)
    requires i < |a| && i < |b| && !IsParam(a[i]) && !IsParam(b[i]) && a[i] != b[i]
    ensures Apart(a, b)
  {
    if i > 0 {
      ApartAt(a[1..], b[1..], i - 1);
    }
  }

  lemma {:induction false} ApartBySize(a: seq<string>, b: seq<string>)
    requires |a| != |b|
    ensures Apart(a, b)
  {
    if a != [] && b != [] {
      ApartBySize(a[1..], b[1..]);
    }
  }

  lemma SameFamilyApart(f: Family, t: seq<Word>, u: seq<Word>)
    requires FitsItself(f) && InList(t, f.templates) && InList(u, f.templates) && t != u
    ensures Apart(Texts(t), Texts(u))
  {
    FitsOne(f, f.templates, t);
    FitsOne(f, f.templates, u);
    FitsTwo(f, f.templates, t, u);
    ParametersStartWithColon(t[f.mark]);
    ParametersStartWithColon(u[f.mark]);
    if t[f.mark].Text() == u[f.mark].Text() {
      LiteralsDiffer(t[f.mark], u[f.mark]);
    }
    ApartAt(Texts(t), Texts(u), f.mark);
  }

  lemma RoutesDistinguishable(r: Route, q: Route)
    requires r in Routes() && q in Routes() && r != q
    ensures Distinguishable(r, q)
  {
    var k, t := Origin(FAMILIES, r);
    var l, u := Origin(FAMILIES, q);
    FamiliesFit();
    if k == l {
      SameFamilyApart(FAMILIES[k], t, u);
    } else if r.verb == q.verb {
      FamiliesDiffer();
      assert OtherShape(FAMILIES[k], FAMILIES[l]);
      FitsOne(FAMILIES[k], FAMILIES[k].templates, t);
      FitsOne(FAMILIES[l], FAMILIES[l].templates, u);
      ApartBySize(r.chunks, q.chunks);
    }
  }

  lemma RoutesWellFormed(r: Route)
    requires r in Routes()
    ensures WellFormedRoute(r)
  {
    var k, t := Origin(FAMILIES, r);
    FamiliesFit();
    FitsOne(FAMILIES[k], FAMILIES[k].templates, t);
    forall i | 0 <= i < |t| ensures r.chunks[i] != "" && Without(r.chunks[i], '/') {
      WordsAreChunks(t[i]);
    }
  }

  /*** No route is listed twice ***/

  lemma FirstIsNew(verb: HttpMethod, f: Family, t: seq<Word>, rest: List<seq<Word>>)
    requires Fits(f, And(t, rest))
    ensures Route(verb, Texts(t)) !in RoutesIn(verb, rest)
  {
    var r := Route(verb, Texts(t));
    if r in RoutesIn(verb, rest) {
      var u := OriginInFamily(verb, rest, r);
      DiffersFromEach(t[f.mark], f, rest, u);
      FitsOne(f, rest, u);
      assert Texts(t)[f.mark] == Texts(u)[f.mark];
      LiteralsDiffer(t[f.mark], u[f.mark]);
      assert false;
    }
  }

  lemma {:induction false} FamilyListsOnce(verb: HttpMethod, f: Family, templates: List<seq<Word>>)
    requires Fits(f, templates)
    ensures NoDup(RoutesIn(verb, templates))
  {
    match templates
    case End =>
    case And(t, rest) =>
      FamilyListsOnce(verb, f, rest);
      FirstIsNew(verb, f, t, rest);
      NoDupConcat([Route(verb, Texts(t))], RoutesIn(verb, rest));
  }

  ghost predicate FitTogether(families: seq<Family>) {
    && (forall k :: 0 <= k < |families| ==> FitsItself(families[k]))
    && (forall k, l :: 0 <= k < |families| && 0 <= l < |families| && k != l ==> OtherShape(families[k], families[l]))
  }

  lemma OtherFamilyIsNew(families: seq<Family>, r: Route)
    requires FitTogether(families) && families != [] && r in RoutesIn(families[0].verb, families[0].templates)
    ensures r !in RoutesOf(families[1..])
  {
    var t := OriginInFamily(families[0].verb, families[0].templates, r);
    FitsOne(families[0], families[0].templates, t);
    if r in RoutesOf(families[1..]) {
      var k, u := Origin(families[1..], r);
      assert FitsItself(families[k + 1]) && OtherShape(families[0], families[k + 1]);
      FitsOne(families[k + 1], families[k + 1].templates, u);
      assert false;
    }
  }

  lemma {:induction false} FamiliesListOnce(families: seq<Family>)
    requires FitTogether(families)
    ensures NoDup(RoutesOf(families))
  {
    if families != [] {
      var first := RoutesIn(families[0].verb, families[0].templates);
      FamilyListsOnce(families[0].verb, families[0], families[0].templates);
      FamiliesListOnce(families[1..]);
      forall i | 0 <= i < |first| ensures first[i] !in RoutesOf(families[1..]) {
        OtherFamilyIsNew(families, first[i]);
      }
      NoDupConcat(first, RoutesOf(families[1..]));
    }
  }

  lemma RoutesListedOnce()
    ensures NoDup(Routes())
  {
    FamiliesFit();
    FamiliesDiffer();
    FamiliesListOnce(FAMILIES);
  }

  /** For every verb and path at most one entry of the connectors runtime's table matches. */
  lemma TableIsUnambiguous()
    ensures Unambiguous(Routes())
  {
    var routes := Routes();
    RoutesListedOnce();
    forall i | 0 <= i < |routes| ensures WellFormedRoute(routes[i]) {
      RoutesWellFormed(routes[i]);
    }
    forall i, j | 0 <= i < |routes| && 0 <= j < |routes| && i != j ensures Distinguishable(routes[i], routes[j]) {
      RoutesDistinguishable(routes[i], routes[j]);
    }
  }
}
