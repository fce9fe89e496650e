/** Building the silver table: ingesting source rows into keyed rows, then one dense row per site and day. */
module SilverTable {
  import opened Wrappers
  import opened Sequences
  import opened StableSort
  import opened InsertionMap
  import opened TextOrder
  import opened Cells
  import opened Calendar

  type SiteKey = (string, string)

  datatype DayKey = DayKey(client: string, site: string, date: Date)

  type SourceRow = OrderedMap<string, Cell>

  /** A bronze file with its resolved key columns. */
  datatype Asset = Asset(client: string, dataset: string, monthly: bool,
    dateColumn: string, siteColumn: string, nameColumn: Option<string>, rows: seq<SourceRow>)

  /** The text functions of the pipeline, and the texts it writes. */
  datatype Parsing = Parsing(
    dateOf: Cell -> Option<Date>,
    siteOf: Cell -> string,
    nameOf: Cell -> string,
    normalize: string -> string,
    coerce: Cell -> Cell,
    iso: Date -> string)

  datatype Bounds = Bounds(low: Date, high: Date)

  datatype Table = Table(daily: map<DayKey, Row>, monthly: map<DayKey, Row>, names: map<SiteKey, string>, bounds: OrderedMap<SiteKey, Bounds>)

  const EMPTY_TABLE := Table(map[], map[], map[], Empty())

  /*** One source row ***/

  predicate IsKeyColumn(a: Asset, column: string) {
    column == a.dateColumn || column == a.siteColumn || a.nameColumn == Some(column)
  }

  function MetricColumn(p: Parsing, a: Asset, column: string): string {
    p.normalize(a.dataset) + "__" + p.normalize(column)
  }

  /** `_merge_silver_metrics` over the first `n` entries of a row. */
  function Metrics(p: Parsing, a: Asset, entries: seq<(string, Cell)>, n: nat): Row
    requires n <= |entries|
  {
    if n == 0 then map[]
    else
      var (column, value) := entries[n - 1];
      var before := Metrics(p, a, entries, n - 1);
      if IsKeyColumn(a, column) then before else before[MetricColumn(p, a, column) := p.coerce(value)]
  }

  function MetricsOf(p: Parsing, a: Asset, row: SourceRow): Row {
    Metrics(p, a, row.Entries(), |row.Entries()|)
  }

  function ParsedDate(p: Parsing, a: Asset, row: SourceRow): Option<Date> {
    var raw := row.Get(a.dateColumn).GetOr(Null);
    if raw == Null then None else p.dateOf(raw)
  }

  function SiteCode(p: Parsing, a: Asset, row: SourceRow): string {
    p.siteOf(row.Get(a.siteColumn).GetOr(Null))
  }

  function SiteName(p: Parsing, a: Asset, row: SourceRow): string {
    match a.nameColumn
    case None => ""
    case Some(column) => p.nameOf(row.Get(column).GetOr(Null))
  }

  /** The key a row is filed under; rows without a date or a site code have none. */
  function KeyOf(p: Parsing, a: Asset, row: SourceRow): Option<DayKey> {
    var parsed, site := ParsedDate(p, a, row), SiteCode(p, a, row);
    if parsed.None? || site == "" then None
    else Some(DayKey(a.client, site, if a.monthly then MonthStart(parsed.value) else parsed.value))
  }

  /** `rows.setdefault(key, {}).update(metrics)` */
  function Updated(rows: map<DayKey, Row>, key: DayKey, metrics: Row): map<DayKey, Row> {
    rows[key := (if key in rows then rows[key] else map[]) + metrics]
  }

  function Earlier(a: Date, b: Date): Date { if AtMost(a, b) then a else b }

  function Later(a: Date, b: Date): Date { if AtMost(a, b) then b else a }

  function Recorded(bounds: OrderedMap<SiteKey, Bounds>, site: SiteKey, d: Date): OrderedMap<SiteKey, Bounds> {
    match bounds.Get(site)
    case None => bounds.Set(site, Bounds(d, d))
    case Some(b) => bounds.Set(site, Bounds(Earlier(b.low, d), Later(b.high, d)))
  }

  /** `_ingest_silver_source_row` */
  function Ingest(p: Parsing, t: Table, a: Asset, row: SourceRow): Table {
    match KeyOf(p, a, row)
    case None => t
    case Some(key) =>
      var site, name, metrics := (key.client, key.site), SiteName(p, a, row), MetricsOf(p, a, row);
      var names := if name == "" then t.names else t.names[site := name];
      if a.monthly then t.(names := names, monthly := Updated(t.monthly, key, metrics))
      else t.(names := names, daily := Updated(t.daily, key, metrics), bounds := Recorded(t.bounds, site, key.date))
  }

  /*** All of them ***/

  /** A source row together with the file it comes from. */
  datatype Line = Line(asset: Asset, row: SourceRow)

  function LinesOf(a: Asset): seq<Line> {
    Map(a.rows, (row: SourceRow) => Line(a, row))
  }

  function Lines(assets: seq<Asset>): seq<Line> {
    if assets == [] then [] else Lines(assets[..|assets| - 1]) + LinesOf(assets[|assets| - 1])
  }

  function IngestAll(p: Parsing, t: Table, lines: seq<Line>): Table
    decreases |lines|
  {
    if lines == [] then t
    else Ingest(p, IngestAll(p, t, lines[..|lines| - 1]), lines[|lines| - 1].asset, lines[|lines| - 1].row)
  }

  /*** Materializing ***/

  predicate KeyLe(a: DayKey, b: DayKey) {
    TextLe(a.client, b.client)
    && (a.client == b.client ==> (TextLe(a.site, b.site) && (a.site == b.site ==> AtMost(a.date, b.date))))
  }

  function KeyOrder(): (DayKey, DayKey) -> bool { (a: DayKey, b: DayKey) => KeyLe(a, b) }

  function OnDay(site: SiteKey): Date -> DayKey { (d: Date) => DayKey(site.0, site.1, d) }

  /** The days of the first `n` sites, each from its first to its last daily date. */
  function SiteDays(entries: seq<(SiteKey, Bounds)>, n: nat): Option<seq<DayKey>>
    requires n <= |entries|
  {
    if n == 0 then Some([])
    else
      var (site, b) := entries[n - 1];
      match (SiteDays(entries, n - 1), DateRange(b.low, b.high))
      case (Some(before), Some(days)) => Some(before + Map(days, OnDay(site)))
      case _ => None
  }

  function DenseKeys(t: Table): Option<seq<DayKey>> {
    match SiteDays(t.bounds.Entries(), |t.bounds.Entries()|)
    case None => None
    case Some(keys) => Some(Sort(keys, KeyOrder()))
  }

  function RowIn(rows: map<DayKey, Row>, key: DayKey): Row {
    if key in rows then rows[key] else map[]
  }

  function NameCell(t: Table, key: DayKey): Cell {
    if (key.client, key.site) in t.names then Text(t.names[(key.client, key.site)]) else Null
  }

  function KeyCells(p: Parsing, t: Table, key: DayKey): Row {
    map["client_slug" := Text(key.client), "site_code" := Text(key.site), "site_name" := NameCell(t, key), "date" := Text(p.iso(key.date))]
  }

  /** One dense row, which fails in the first month of all. */
  function DenseRow(p: Parsing, t: Table, key: DayKey): Option<Row> {
    match PreviousMonthStart(key.date)
    case None => None
    case Some(month) => Some(KeyCells(p, t, key) + RowIn(t.daily, key) + RowIn(t.monthly, DayKey(key.client, key.site, month)))
  }

  function DenseRows(p: Parsing, t: Table, keys: seq<DayKey>): Option<seq<Row>> {
    if keys == [] then Some([])
    else
      match (DenseRows(p, t, keys[..|keys| - 1]), DenseRow(p, t, keys[|keys| - 1]))
      case (Some(before), Some(row)) => Some(before + [row])
      case _ => None
  }

  /** `_materialize_silver_rows`; `None` when a date leaves the calendar. */
  function Materialized(p: Parsing, t: Table): Option<seq<Row>> {
    match DenseKeys(t)
    case None => None
    case Some(keys) => DenseRows(p, t, keys)
  }

  /*** The same, in place ***/

  class SilverBuild {
    var dailyRows: map<DayKey, Row>
    var monthlyRows: map<DayKey, Row>
    var siteNames: map<SiteKey, string>
    var siteMinMax: OrderedMap<SiteKey, Bounds>

    constructor ()
      ensures State() == EMPTY_TABLE
    {
      dailyRows, monthlyRows, siteNames, siteMinMax := map[], map[], map[], Empty();
    }

    ghost function State(): Table
      reads this
    {
      Table(dailyRows, monthlyRows, siteNames, siteMinMax)
    }

    method RecordSiteBounds(site: SiteKey, d: Date)
      modifies this`siteMinMax
      ensures siteMinMax == Recorded(old(siteMinMax), site, d)
    {
      var existing := siteMinMax.Get(site);
      if existing.None? {
        siteMinMax := siteMinMax.Set(site, Bounds(d, d));
        return;
      }
      siteMinMax := siteMinMax.Set(site, Bounds(Earlier(existing.value.low, d), Later(existing.value.high, d)));
    }

    method MergeSilverMetrics(p: Parsing, a: Asset, row: SourceRow) returns (metrics: Row)
      ensures metrics == MetricsOf(p, a, row)
    {
      metrics := map[];
      var entries := row.Entries();
      for i := 0 to |entries|
        invariant metrics == Metrics(p, a, entries, i)
      {
        var (column, value) := entries[i];
        if IsKeyColumn(a, column) {
          continue;
        }
        metrics := metrics[MetricColumn(p, a, column) := p.coerce(value)];
      }
    }

    method IngestSourceRow(p: Parsing, a: Asset, row: SourceRow)
      modifies this
      ensures State() == Ingest(p, old(State()), a, row)
    {
      var parsed := ParsedDate(p, a, row);
      if parsed.None? {
        return;
      }
      var code := SiteCode(p, a, row);
      if code == "" {
        return;
      }
      var name := SiteName(p, a, row);
      if name != "" {
        siteNames := siteNames[(a.client, code) := name];
      }
      var metrics := MergeSilverMetrics(p, a, row);
      if a.monthly {
        monthlyRows := Updated(monthlyRows, DayKey(a.client, code, MonthStart(parsed.value)), metrics);
        return;
      }
      dailyRows := Updated(dailyRows, DayKey(a.client, code, parsed.value), metrics);
      RecordSiteBounds((a.client, code), parsed.value);
    }

    method IngestAsset(p: Parsing, a: Asset)
      modifies this
      ensures State() == IngestAll(p, old(State()), LinesOf(a))
    {
      ghost var lines := LinesOf(a);
      for i := 0 to |a.rows|
        invariant State() == IngestAll(p, old(State()), lines[..i])
      {
        assert lines[..i + 1][..i] == lines[..i] && lines[i] == Line(a, a.rows[i]);
        IngestSourceRow(p, a, a.rows[i]);
      }
      assert lines[..|a.rows|] == lines;
    }

    /** The dense keys of `_materialize_silver_rows`. */
    method CollectDenseKeys() returns (denseKeys: Option<seq<DayKey>>)
      ensures denseKeys == DenseKeys(State())
    {
      var entries := siteMinMax.Entries();
      var keys := [];
      for i := 0 to |entries|
        invariant SiteDays(entries, i) == Some(keys)
      {
        var (site, b) := entries[i];
        var days := DaysBetween(b.low, b.high);
        if days.None? {
          SiteDaysFail(entries, i + 1, |entries|);
          return None;
        }
        keys := keys + Map(days.value, OnDay(site));
      }
      return Some(Sort(keys, KeyOrder()));
    }

    method Materialize(p: Parsing) returns (rows: Option<seq<Row>>)
      ensures rows == Materialized(p, State())
    {
      var collected := CollectDenseKeys();
      if collected.None? {
        return None;
      }
      var denseKeys := collected.value;
      var out := [];
      for i := 0 to |denseKeys|
        invariant DenseRows(p, State(), denseKeys[..i]) == Some(out)
      {
        DenseRowsStep(p, State(), denseKeys, i);
        var row := DenseRow(p, Table(dailyRows, monthlyRows, siteNames, siteMinMax), denseKeys[i]);
        if row.None? {
          DenseRowsFail(p, State(), denseKeys, i + 1);
          return None;
        }
        out := out + [row.value];
      }
      assert denseKeys[..|denseKeys|] == denseKeys;
      return Some(out);
    }

    method BuildSilverRows(p: Parsing, assets: seq<Asset>) returns (rows: Option<seq<Row>>)
      requires State() == EMPTY_TABLE
      modifies this
      ensures State() == IngestAll(p, EMPTY_TABLE, Lines(assets))
      ensures rows == Materialized(p, State())
    {
      for i := 0 to |assets|
        invariant State() == IngestAll(p, EMPTY_TABLE, Lines(assets[..i]))
      {
        assert assets[..i + 1][..i] == assets[..i];
        IngestInTurn(p, EMPTY_TABLE, Lines(assets[..i]), LinesOf(assets[i]));
        IngestAsset(p, assets[i]);
      }
      assert assets[..|assets|] == assets;
      rows := Materialize(p);
    }
  }

  lemma {:induction false} SiteDaysFail(entries: seq<(SiteKey, Bounds)>, m: nat, n: nat)
    requires m <= n <= |entries| && SiteDays(entries, m).None?
    ensures SiteDays(entries, n).None?
  {
    if m < n {
      SiteDaysFail(entries, m, n - 1);
    }
  }

  lemma DenseRowsStep(p: Parsing, t: Table, keys: seq<DayKey>, i: nat)
    requires i < |keys| && DenseRows(p, t, keys[..i]).Some?
    ensures DenseRows(p, t, keys[..i + 1])
         == match DenseRow(p, t, keys[i]) case None => None case Some(row) => Some(DenseRows(p, t, keys[..i]).value + [row])
  {
    assert keys[..i + 1][..i] == keys[..i];
  }

  lemma {:induction false} DenseRowsFail(p: Parsing, t: Table, keys: seq<DayKey>, m: nat)
    requires m <= |keys| && DenseRows(p, t, keys[..m]).None?
    ensures DenseRows(p, t, keys).None?
  {
    if m < |keys| {
      assert keys[..|keys| - 1][..m] == keys[..m];
      DenseRowsFail(p, t, keys[..|keys| - 1], m);
    } else {
      assert keys[..m] == keys;
    }
  }

  lemma {:induction false} IngestInTurn(p: Parsing, t: Table, first: seq<Line>, more: seq<Line>)
    ensures IngestAll(p, t, first + more) == IngestAll(p, IngestAll(p, t, first), more)
    decreases |more|
  {
    if more == [] {
      assert first + more == first;
    } else {
      var n := |more| - 1;
      assert (first + more)[..|first| + n] == first + more[..n];
      IngestInTurn(p, t, first, more[..n]);
    }
  }
}
