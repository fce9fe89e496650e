/** The silver table is dense: one row for each site and day between its first and last daily source row. */
module SilverTableLaws {
  import opened Wrappers
  import opened Sequences
  import opened StableSort
  import opened InsertionMap
  import opened TextOrder
  import opened Cells
  import opened Calendar
  import opened SilverTable

  /*** Which keys the source rows file ***/

  /** A source row of a daily or of a monthly file, filed under `k`. */
  predicate Files(p: Parsing, line: Line, monthly: bool, k: DayKey) {
    line.asset.monthly == monthly && KeyOf(p, line.asset, line.row) == Some(k)
  }

  ghost predicate Filed(p: Parsing, lines: seq<Line>, monthly: bool, k: DayKey) {
    exists i :: 0 <= i < |lines| && Files(p, lines[i], monthly, k)
  }

  function Kept(t: Table, monthly: bool): map<DayKey, Row> {
    if monthly then t.monthly else t.daily
  }

  lemma FiledMore(p: Parsing, lines: seq<Line>, last: Line, monthly: bool, k: DayKey)
    ensures Filed(p, lines + [last], monthly, k) <==> Filed(p, lines, monthly, k) || Files(p, last, monthly, k)
  {
    var more := lines + [last];
    if Filed(p, lines, monthly, k) {
      var i :| 0 <= i < |lines| && Files(p, lines[i], monthly, k);
      assert more[i] == lines[i];
    }
    if Files(p, last, monthly, k) {
      assert more[|lines|] == last;
    }
  }

  lemma {:induction false} KeptIffFiled(p: Parsing, lines: seq<Line>, monthly: bool, k: DayKey)
    ensures k in Kept(IngestAll(p, EMPTY_TABLE, lines), monthly) <==> Filed(p, lines, monthly, k)
  {
    if lines != [] {
      var n := |lines| - 1;
      KeptIffFiled(p, lines[..n], monthly, k);
      FiledMore(p, lines[..n], lines[n], monthly, k);
      assert lines == lines[..n] + [lines[n]];
    }
  }

  /*** What the bounds of a site are ***/

  predicate HoldsKey(t: Table, site: SiteKey, d: Date) {
    DayKey(site.0, site.1, d) in t.daily
  }

  /** The day lies between the bounds of its site. */
  predicate Within(bounds: OrderedMap<SiteKey, Bounds>, k: DayKey) {
    (k.client, k.site) in bounds.at
    && AtMost(bounds.at[(k.client, k.site)].low, k.date) && AtMost(k.date, bounds.at[(k.client, k.site)].high)
  }

  /** The bounds of a site are the dates of two of its daily rows, and enclose all of them. */
  ghost predicate BoundsFit(t: Table) {
    && t.bounds.Valid()
    && (forall k :: k in t.daily ==> Within(t.bounds, k))
    && (forall site :: site in t.bounds.at ==> HoldsKey(t, site, t.bounds.at[site].low) && HoldsKey(t, site, t.bounds.at[site].high))
  }

  lemma RecordedWidens(bounds: OrderedMap<SiteKey, Bounds>, key: DayKey, k: DayKey)
    ensures Within(Recorded(bounds, (key.client, key.site), key.date), key)
    ensures Within(bounds, k) ==> Within(Recorded(bounds, (key.client, key.site), key.date), k)
  {
  }

  lemma RecordedIsHeld(t: Table, u: Table, key: DayKey, s: SiteKey)
    requires BoundsFit(t) && u.daily.Keys == t.daily.Keys + {key} && u.bounds == Recorded(t.bounds, (key.client, key.site), key.date)
    requires s in u.bounds.at
    ensures HoldsKey(u, s, u.bounds.at[s].low) && HoldsKey(u, s, u.bounds.at[s].high)
  {
    if s in t.bounds.at {
      assert HoldsKey(t, s, t.bounds.at[s].low) && HoldsKey(t, s, t.bounds.at[s].high);
    }
    assert HoldsKey(u, (key.client, key.site), key.date);
  }

  lemma RecordedFits(t: Table, u: Table, key: DayKey)
    requires BoundsFit(t) && u.daily.Keys == t.daily.Keys + {key} && u.bounds == Recorded(t.bounds, (key.client, key.site), key.date)
    ensures BoundsFit(u)
  {
    var site := (key.client, key.site);
    SetValid(t.bounds, site, u.bounds.at[site]);
    forall k | k in u.daily ensures Within(u.bounds, k) {
      RecordedWidens(t.bounds, key, k);
    }
    forall s | s in u.bounds.at ensures HoldsKey(u, s, u.bounds.at[s].low) && HoldsKey(u, s, u.bounds.at[s].high) {
      RecordedIsHeld(t, u, key, s);
    }
  }

  lemma {:induction false} BoundsAlwaysFit(p: Parsing, lines: seq<Line>)
    ensures BoundsFit(IngestAll(p, EMPTY_TABLE, lines))
  {
    if lines != [] {
      var n := |lines| - 1;
      BoundsAlwaysFit(p, lines[..n]);
      var t, line := IngestAll(p, EMPTY_TABLE, lines[..n]), lines[n];
      var key := KeyOf(p, line.asset, line.row);
      if key.Some? && !line.asset.monthly {
        RecordedFits(t, Ingest(p, t, line.asset, line.row), key.value);
      }
    }
  }

  /*** The order of the keys ***/

  lemma KeyLeTotal(a: DayKey, b: DayKey)
    ensures KeyLe(a, b) || KeyLe(b, a)
  {
    TextLeTotal(a.client, b.client);
    TextLeTotal(a.site, b.site);
    if TextLe(a.client, b.client) && TextLe(b.client, a.client) {
      TextLeAntisymmetric(a.client, b.client);
    }
    if TextLe(a.site, b.site) && TextLe(b.site, a.site) {
      TextLeAntisymmetric(a.site, b.site);
    }
  }

  lemma KeyLeTransitive(a: DayKey, b: DayKey, c: DayKey)
    requires KeyLe(a, b) && KeyLe(b, c)
    ensures KeyLe(a, c)
  {
    TextLeTransitive(a.client, b.client, c.client);
    if a.client == c.client {
      TextLeAntisymmetric(a.client, b.client);
      TextLeTransitive(a.site, b.site, c.site);
      if a.site == c.site {
        TextLeAntisymmetric(a.site, b.site);
      }
    }
  }

  lemma KeyOrderIsPreorder()
    ensures TotalPreorder(KeyOrder())
  {
    forall a: DayKey, b: DayKey ensures KeyOrder()(a, b) || KeyOrder()(b, a) {
      KeyLeTotal(a, b);
    }
    forall a: DayKey, b: DayKey, c: DayKey | KeyOrder()(a, b) && KeyOrder()(b, c) ensures KeyOrder()(a, c) {
      KeyLeTransitive(a, b, c);
    }
  }

  /*** The dense keys ***/

  /** The day lies between two days with daily rows of the same site. */
  ghost predicate Spanned(p: Parsing, lines: seq<Line>, k: DayKey) {
    exists a, b :: AtMost(a, k.date) && AtMost(k.date, b)
      && Filed(p, lines, false, DayKey(k.client, k.site, a)) && Filed(p, lines, false, DayKey(k.client, k.site, b))
  }

  lemma WithinIffSpanned(p: Parsing, lines: seq<Line>, k: DayKey)
    ensures Within(IngestAll(p, EMPTY_TABLE, lines).bounds, k) <==> Spanned(p, lines, k)
  {
    var t, site := IngestAll(p, EMPTY_TABLE, lines), (k.client, k.site);
    BoundsAlwaysFit(p, lines);
    if Within(t.bounds, k) {
      var b := t.bounds.at[site];
      assert HoldsKey(t, site, b.low) && HoldsKey(t, site, b.high);
      KeptIffFiled(p, lines, false, DayKey(k.client, k.site, b.low));
      KeptIffFiled(p, lines, false, DayKey(k.client, k.site, b.high));
    }
    if Spanned(p, lines, k) {
      var x, y :| AtMost(x, k.date) && AtMost(k.date, y)
        && Filed(p, lines, false, DayKey(k.client, k.site, x)) && Filed(p, lines, false, DayKey(k.client, k.site, y));
      KeptIffFiled(p, lines, false, DayKey(k.client, k.site, x));
      KeptIffFiled(p, lines, false, DayKey(k.client, k.site, y));
    }
  }

  predicate InEntry(e: (SiteKey, Bounds), k: DayKey) {
    e.0 == (k.client, k.site) && AtMost(e.1.low, k.date) && AtMost(k.date, e.1.high)
  }

  ghost predicate InEntries(entries: seq<(SiteKey, Bounds)>, n: nat, k: DayKey)
    requires n <= |entries|
  {
    exists i :: 0 <= i < n && InEntry(entries[i], k)
  }

  ghost predicate SitesOnce(entries: seq<(SiteKey, Bounds)>) {
    forall i, j :: 0 <= i < j < |entries| ==> entries[i].0 != entries[j].0
  }

  lemma DaysOfEntry(e: (SiteKey, Bounds), days: seq<Date>)
    requires DateRange(e.1.low, e.1.high) == Some(days)
    ensures NoDup(Map(days, OnDay(e.0)))
    ensures forall k :: k in Map(days, OnDay(e.0)) <==> InEntry(e, k)
  {
    DateRangeIsDense(e.1.low, e.1.high);
    var keys := Map(days, OnDay(e.0));
    forall k | InEntry(e, k) ensures k in keys {
      var i :| 0 <= i < |days| && days[i] == k.date;
      assert keys[i] == k;
    }
    forall k | k in keys ensures InEntry(e, k) {
      assert k.date in days;
    }
  }

  /** The days of the first `n` sites: each day of each of them, once. */
  lemma {:induction false} SiteDaysHold(entries: seq<(SiteKey, Bounds)>, n: nat)
    requires n <= |entries| && SitesOnce(entries) && SiteDays(entries, n).Some?
    ensures NoDup(SiteDays(entries, n).value)
    ensures forall k :: k in SiteDays(entries, n).value <==> InEntries(entries, n, k)
  {
    if n > 0 {
      var e := entries[n - 1];
      var before, days := SiteDays(entries, n - 1).value, DateRange(e.1.low, e.1.high).value;
      SiteDaysHold(entries, n - 1);
      DaysOfEntry(e, days);
      forall k ensures k in before + Map(days, OnDay(e.0)) <==> InEntries(entries, n, k) {
        OneMoreEntry(entries, n, k);
      }
      forall j | 0 <= j < |before| ensures before[j] !in Map(days, OnDay(e.0)) {
        assert before[j] in before;
        var i :| 0 <= i < n - 1 && InEntry(entries[i], before[j]);
      }
      NoDupConcat(before, Map(days, OnDay(e.0)));
    }
  }

  lemma OneMoreEntry(entries: seq<(SiteKey, Bounds)>, n: nat, k: DayKey)
    requires 0 < n <= |entries|
    ensures InEntries(entries, n, k) <==> InEntries(entries, n - 1, k) || InEntry(entries[n - 1], k)
  {
    if InEntries(entries, n - 1, k) {
      var i :| 0 <= i < n - 1 && InEntry(entries[i], k);
      assert InEntry(entries[i], k);
    }
  }

  lemma BoundsEntries(bounds: OrderedMap<SiteKey, Bounds>, k: DayKey)
    requires bounds.Valid()
    ensures SitesOnce(bounds.Entries())
    ensures InEntries(bounds.Entries(), |bounds.Entries()|, k) <==> Within(bounds, k)
  {
    Lists(bounds);
    ListedOnce(bounds.order, bounds.at.Keys);
    var entries := bounds.Entries();
    if Within(bounds, k) {
      var i :| 0 <= i < |bounds.order| && bounds.order[i] == (k.client, k.site);
      assert InEntry(entries[i], k);
    }
    if InEntries(entries, |entries|, k) {
      var i :| 0 <= i < |entries| && InEntry(entries[i], k);
      assert entries[i].0 == bounds.order[i];
    }
  }

  ghost predicate StrictlyOrdered(keys: seq<DayKey>) {
    forall i, j :: 0 <= i < j < |keys| ==> ComesBefore(keys[i], keys[j])
  }

  /** By client, then site, then date. */
  ghost predicate ComesBefore(a: DayKey, b: DayKey) {
    TextLess(a.client, b.client)
    || (a.client == b.client && (TextLess(a.site, b.site) || (a.site == b.site && Before(a.date, b.date))))
  }

  lemma SortedKeysAreOrdered(keys: seq<DayKey>)
    requires NoDup(keys) && Sorted(keys, KeyOrder())
    ensures StrictlyOrdered(keys)
  {
    forall i, j | 0 <= i < j < |keys| ensures ComesBefore(keys[i], keys[j]) {
      assert KeyOrder()(keys[i], keys[j]) && keys[i] != keys[j];
    }
  }

  /**
   The keys of the silver table: strictly ordered by client, site and date, and exactly the days between
   two daily source rows of one site.
   */
  lemma DenseKeysAreTheSpannedDays(p: Parsing, lines: seq<Line>)
    requires DenseKeys(IngestAll(p, EMPTY_TABLE, lines)).Some?
    ensures StrictlyOrdered(DenseKeys(IngestAll(p, EMPTY_TABLE, lines)).value)
    ensures forall k :: k in DenseKeys(IngestAll(p, EMPTY_TABLE, lines)).value <==> Spanned(p, lines, k)
  {
    var t := IngestAll(p, EMPTY_TABLE, lines);
    var entries := t.bounds.Entries();
    var days := SiteDays(entries, |entries|).value;
    BoundsAlwaysFit(p, lines);
    BoundsEntries(t.bounds, DayKey("", "", FIRST_DATE));
    SiteDaysHold(entries, |entries|);
    KeyOrderIsPreorder();
    SortSorted(days, KeyOrder());
    SortNoDup(days, KeyOrder());
    SortedKeysAreOrdered(Sort(days, KeyOrder()));
    forall k ensures k in Sort(days, KeyOrder()) <==> Spanned(p, lines, k) {
      SortMember(days, KeyOrder(), k);
      BoundsEntries(t.bounds, k);
      WithinIffSpanned(p, lines, k);
    }
  }

  lemma {:induction false} RowsFollowKeys(p: Parsing, t: Table, keys: seq<DayKey>)
    requires DenseRows(p, t, keys).Some?
    ensures |DenseRows(p, t, keys).value| == |keys|
    ensures forall i :: 0 <= i < |keys| ==> DenseRow(p, t, keys[i]) == Some(DenseRows(p, t, keys).value[i])
  {
    if keys != [] {
      RowsFollowKeys(p, t, keys[..|keys| - 1]);
    }
  }

  /*** What a row holds ***/

  /** The value that the last source row filed under `k` gives to a metric column. */
  function LastValue(p: Parsing, lines: seq<Line>, monthly: bool, k: DayKey, x: string): Option<Cell> {
    if lines == [] then None
    else
      var last := lines[|lines| - 1];
      if Files(p, last, monthly, k) && x in MetricsOf(p, last.asset, last.row)
      then Some(MetricsOf(p, last.asset, last.row)[x])
      else LastValue(p, lines[..|lines| - 1], monthly, k, x)
  }

  lemma OneMoreLine(p: Parsing, t: Table, line: Line, monthly: bool, k: DayKey, x: string)
    ensures Lookup(RowIn(Kept(Ingest(p, t, line.asset, line.row), monthly), k), x)
         == if Files(p, line, monthly, k) && x in MetricsOf(p, line.asset, line.row) then Some(MetricsOf(p, line.asset, line.row)[x])
            else Lookup(RowIn(Kept(t, monthly), k), x)
  {
  }

  /** Nothing but later source rows of the same key replaces a value. */
  lemma {:induction false} KeptValueIsTheLast(p: Parsing, lines: seq<Line>, monthly: bool, k: DayKey, x: string)
    ensures Lookup(RowIn(Kept(IngestAll(p, EMPTY_TABLE, lines), monthly), k), x) == LastValue(p, lines, monthly, k, x)
  {
    if lines != [] {
      var n := |lines| - 1;
      KeptValueIsTheLast(p, lines[..n], monthly, k, x);
      OneMoreLine(p, IngestAll(p, EMPTY_TABLE, lines[..n]), lines[n], monthly, k, x);
    }
  }

  lemma {:induction false} MetricsAreMetrics(p: Parsing, a: Asset, entries: seq<(string, Cell)>, n: nat, x: string)
    requires n <= |entries| && x in Metrics(p, a, entries, n)
    ensures IsMetric(x)
  {
    var column := entries[n - 1].0;
    if x == MetricColumn(p, a, column) {
      var m := |p.normalize(a.dataset)|;
      assert x[m] == '_' && x[m + 1] == '_';
    } else {
      MetricsAreMetrics(p, a, entries, n - 1, x);
    }
  }

  lemma {:induction false} ValuesAreMetrics(p: Parsing, lines: seq<Line>, monthly: bool, k: DayKey, x: string)
    requires LastValue(p, lines, monthly, k, x).Some?
    ensures IsMetric(x)
  {
    var last := lines[|lines| - 1];
    if Files(p, last, monthly, k) && x in MetricsOf(p, last.asset, last.row) {
      MetricsAreMetrics(p, last.asset, last.row.Entries(), |last.row.Entries()|, x);
    } else {
      ValuesAreMetrics(p, lines[..|lines| - 1], monthly, k, x);
    }
  }

  /** The value of a column that is not a key: the last monthly one of the month before, or else the last daily one of the day. */
  function Expected(p: Parsing, lines: seq<Line>, k: DayKey, month: Date, x: string): Option<Cell> {
    match LastValue(p, lines, true, DayKey(k.client, k.site, month), x)
    case Some(v) => Some(v)
    case None => LastValue(p, lines, false, k, x)
  }

  /** The name a source row gives to a site; empty names, and rows without a key, give none. */
  function NameGiven(p: Parsing, line: Line, site: SiteKey): Option<string> {
    match KeyOf(p, line.asset, line.row)
    case None => None
    case Some(key) =>
      var name := SiteName(p, line.asset, line.row);
      if (key.client, key.site) == site && name != "" then Some(name) else None
  }

  function LastName(p: Parsing, lines: seq<Line>, site: SiteKey): Option<string> {
    if lines == [] then None
    else
      match NameGiven(p, lines[|lines| - 1], site)
      case Some(name) => Some(name)
      case None => LastName(p, lines[..|lines| - 1], site)
  }

  /** Daily and monthly files alike name sites, and the last name given is kept. */
  lemma {:induction false} KeptNameIsTheLast(p: Parsing, lines: seq<Line>, site: SiteKey)
    ensures Lookup(IngestAll(p, EMPTY_TABLE, lines).names, site) == LastName(p, lines, site)
  {
    if lines != [] {
      KeptNameIsTheLast(p, lines[..|lines| - 1], site);
    }
  }

  function ExpectedName(p: Parsing, lines: seq<Line>, site: SiteKey): Cell {
    match LastName(p, lines, site)
    case None => Null
    case Some(name) => Text(name)
  }

  lemma KeyColumnsOfRow(p: Parsing, lines: seq<Line>, k: DayKey, row: Row)
    requires DenseRow(p, IngestAll(p, EMPTY_TABLE, lines), k) == Some(row)
    ensures Lookup(row, "client_slug") == Some(Text(k.client)) && Lookup(row, "site_code") == Some(Text(k.site))
    ensures Lookup(row, "site_name") == Some(ExpectedName(p, lines, (k.client, k.site)))
    ensures Lookup(row, "date") == Some(Text(p.iso(k.date)))
  {
    KeyColumnOfRow(p, lines, k, row, "client_slug");
    KeyColumnOfRow(p, lines, k, row, "site_code");
    KeyColumnOfRow(p, lines, k, row, "site_name");
    KeyColumnOfRow(p, lines, k, row, "date");
    KeptNameIsTheLast(p, lines, (k.client, k.site));
  }

  lemma ValueOfRow(p: Parsing, lines: seq<Line>, k: DayKey, row: Row, x: string)
    requires DenseRow(p, IngestAll(p, EMPTY_TABLE, lines), k) == Some(row)
    requires x != "client_slug" && x != "site_code" && x != "site_name" && x != "date"
    ensures Lookup(row, x) == Expected(p, lines, k, PreviousMonthStart(k.date).value, x)
  {
    var t, mk := IngestAll(p, EMPTY_TABLE, lines), DayKey(k.client, k.site, PreviousMonthStart(k.date).value);
    KeptValueIsTheLast(p, lines, true, mk, x);
    KeptValueIsTheLast(p, lines, false, k, x);
    Layered(KeyCells(p, t, k), RowIn(t.daily, k), RowIn(t.monthly, mk), x);
  }

  /** A dense row holds its key columns, and in every other column exactly the expected value. */
  lemma DenseRowHolds(p: Parsing, lines: seq<Line>, k: DayKey, row: Row, x: string)
    requires DenseRow(p, IngestAll(p, EMPTY_TABLE, lines), k) == Some(row)
    ensures Lookup(row, "client_slug") == Some(Text(k.client)) && Lookup(row, "site_code") == Some(Text(k.site))
    ensures Lookup(row, "site_name") == Some(ExpectedName(p, lines, (k.client, k.site)))
    ensures Lookup(row, "date") == Some(Text(p.iso(k.date)))
    ensures PreviousMonthStart(k.date).Some?
    ensures (x != "client_slug" && x != "site_code" && x != "site_name" && x != "date")
        ==> Lookup(row, x) == Expected(p, lines, k, PreviousMonthStart(k.date).value, x)
  {
    KeyColumnsOfRow(p, lines, k, row);
    if x != "client_slug" && x != "site_code" && x != "site_name" && x != "date" {
      ValueOfRow(p, lines, k, row, x);
    }
  }

  lemma Layered(a: Row, b: Row, c: Row, x: string)
    ensures Lookup(a + b + c, x) == if x in c then Lookup(c, x) else if x in b then Lookup(b, x) else Lookup(a, x)
  {
  }

  lemma KeyColumnOfRow(p: Parsing, lines: seq<Line>, k: DayKey, row: Row, x: string)
    requires DenseRow(p, IngestAll(p, EMPTY_TABLE, lines), k) == Some(row)
    requires x == "client_slug" || x == "site_code" || x == "site_name" || x == "date"
    ensures Lookup(row, x) == Lookup(KeyCells(p, IngestAll(p, EMPTY_TABLE, lines), k), x)
  {
    var t, mk := IngestAll(p, EMPTY_TABLE, lines), DayKey(k.client, k.site, PreviousMonthStart(k.date).value);
    NoKeyColumn(p, lines, false, k, x);
    NoKeyColumn(p, lines, true, mk, x);
    Layered(KeyCells(p, t, k), RowIn(t.daily, k), RowIn(t.monthly, mk), x);
  }

  lemma NoKeyColumn(p: Parsing, lines: seq<Line>, monthly: bool, k: DayKey, x: string)
    requires x == "client_slug" || x == "site_code" || x == "site_name" || x == "date"
    ensures x !in RowIn(Kept(IngestAll(p, EMPTY_TABLE, lines), monthly), k)
  {
    KeptValueIsTheLast(p, lines, monthly, k, x);
    if LastValue(p, lines, monthly, k, x).Some? {
      ValuesAreMetrics(p, lines, monthly, k, x);
      MetricIsNoKey(x);
    }
  }

  /** A monthly row reaches the rows of its site in the next calendar month, and no others. */
  lemma MonthReachesOnlyTheNext(p: Parsing, t: Table, mk: DayKey, k: DayKey, replaced: Row)
    requires mk.date.day == 1
    requires !(k.client == mk.client && k.site == mk.site && MonthNumber(k.date) == MonthNumber(mk.date) + 1)
    ensures DenseRow(p, t.(monthly := t.monthly[mk := replaced]), k) == DenseRow(p, t, k)
  {
    if PreviousMonthStart(k.date).Some? {
      CarriesMonth(k.date, mk.date);
    }
  }

  lemma MonthlyValueReaches(p: Parsing, lines: seq<Line>, mk: DayKey, k: DayKey, x: string, row: Row)
    requires k.client == mk.client && k.site == mk.site && mk.date.day == 1 && MonthNumber(k.date) == MonthNumber(mk.date) + 1
    requires LastValue(p, lines, true, mk, x).Some? && DenseRow(p, IngestAll(p, EMPTY_TABLE, lines), k) == Some(row)
    ensures Lookup(row, x) == LastValue(p, lines, true, mk, x)
  {
    CarriesMonth(k.date, mk.date);
    ValuesAreMetrics(p, lines, true, mk, x);
    MetricIsNoKey(x);
    DenseRowHolds(p, lines, k, row, x);
  }

  /*** The whole table ***/

  /**
   The silver table of any source rows has exactly one row for each day between two daily source rows of a
   site, in strict order, and no source value is lost or moved: every row holds exactly its expected values.
   */
  lemma SilverTableIsDense(p: Parsing, lines: seq<Line>, i: nat, x: string)
    requires Materialized(p, IngestAll(p, EMPTY_TABLE, lines)).Some?
    requires x != "client_slug" && x != "site_code" && x != "site_name" && x != "date"
    ensures DenseKeys(IngestAll(p, EMPTY_TABLE, lines)).Some?
    ensures
      var keys, rows := DenseKeys(IngestAll(p, EMPTY_TABLE, lines)).value, Materialized(p, IngestAll(p, EMPTY_TABLE, lines)).value;
      && |rows| == |keys| && StrictlyOrdered(keys) && (forall k :: k in keys <==> Spanned(p, lines, k))
      && (i < |rows| ==>
            (Lookup(rows[i], "client_slug") == Some(Text(keys[i].client)) && Lookup(rows[i], "site_code") == Some(Text(keys[i].site))
             && Lookup(rows[i], "site_name") == Some(ExpectedName(p, lines, (keys[i].client, keys[i].site)))
             && Lookup(rows[i], "date") == Some(Text(p.iso(keys[i].date))) && PreviousMonthStart(keys[i].date).Some?
             && Lookup(rows[i], x) == Expected(p, lines, keys[i], PreviousMonthStart(keys[i].date).value, x)))
  {
    var t := IngestAll(p, EMPTY_TABLE, lines);
    var keys, rows := DenseKeys(t).value, Materialized(p, t).value;
    DenseKeysAreTheSpannedDays(p, lines);
    RowsFollowKeys(p, t, keys);
    if i < |rows| {
      DenseRowHolds(p, lines, keys[i], rows[i], x);
    }
  }

  /** Every day with a daily source row has its row. */
  lemma FiledDaysAppear(p: Parsing, lines: seq<Line>, k: DayKey)
    requires Filed(p, lines, false, k)
    ensures Spanned(p, lines, k)
  {
    assert DayKey(k.client, k.site, k.date) == k;
    assert AtMost(k.date, k.date);
  }

  /*** When the calendar runs out ***/

  /** A day whose successor, or whose previous month, is outside the calendar. */
  predicate AtTheEdge(d: Date) {
    d == LAST_DATE || (d.year == 1 && d.month == 1)
  }

  lemma {:induction false} SiteDaysFailIff(entries: seq<(SiteKey, Bounds)>, n: nat)
    requires n <= |entries|
    ensures SiteDays(entries, n).None? <==> exists i :: 0 <= i < n && entries[i].1.high == LAST_DATE
  {
    if n > 0 {
      SiteDaysFailIff(entries, n - 1);
      DateRangeFailsIff(entries[n - 1].1.low, entries[n - 1].1.high);
    }
  }

  lemma {:induction false} DenseRowsFailIff(p: Parsing, t: Table, keys: seq<DayKey>)
    ensures DenseRows(p, t, keys).None? <==> exists i :: 0 <= i < |keys| && DenseRow(p, t, keys[i]).None?
  {
    if keys != [] {
      var n := |keys| - 1;
      DenseRowsFailIff(p, t, keys[..n]);
      SomeRowFailsMore(p, t, keys);
    }
  }

  lemma SomeRowFailsMore(p: Parsing, t: Table, keys: seq<DayKey>)
    requires keys != []
    ensures var n := |keys| - 1;
            (exists i :: 0 <= i < |keys| && DenseRow(p, t, keys[i]).None?)
            <==> (exists i :: 0 <= i < n && DenseRow(p, t, keys[..n][i]).None?) || DenseRow(p, t, keys[n]).None?
  {
    var n := |keys| - 1;
    if exists i :: 0 <= i < n && DenseRow(p, t, keys[..n][i]).None? {
      var i :| 0 <= i < n && DenseRow(p, t, keys[..n][i]).None?;
      assert keys[i] == keys[..n][i];
    }
    assert forall i :: 0 <= i < n ==> keys[..n][i] == keys[i];
  }

  lemma DenseRowFailsIff(p: Parsing, t: Table, k: DayKey)
    ensures DenseRow(p, t, k).None? <==> k.date.year == 1 && k.date.month == 1
  {
    CarriesMonth(k.date, k.date);
  }

  lemma SiteAtTheEnd(p: Parsing, lines: seq<Line>, k: DayKey)
    requires Filed(p, lines, false, k) && k.date == LAST_DATE
    ensures DenseKeys(IngestAll(p, EMPTY_TABLE, lines)).None?
  {
    var t := IngestAll(p, EMPTY_TABLE, lines);
    var entries := t.bounds.Entries();
    BoundsAlwaysFit(p, lines);
    KeptIffFiled(p, lines, false, k);
    BoundsEntries(t.bounds, k);
    var i :| 0 <= i < |entries| && InEntry(entries[i], k);
    assert entries[i].1.high == LAST_DATE;
    SiteDaysFailIff(entries, |entries|);
  }

  lemma DaysFailOnlyAtTheEnd(p: Parsing, lines: seq<Line>) returns (k: DayKey)
    requires DenseKeys(IngestAll(p, EMPTY_TABLE, lines)).None?
    ensures Filed(p, lines, false, k) && k.date == LAST_DATE
  {
    var t := IngestAll(p, EMPTY_TABLE, lines);
    var entries := t.bounds.Entries();
    BoundsAlwaysFit(p, lines);
    Lists(t.bounds);
    SiteDaysFailIff(entries, |entries|);
    var i :| 0 <= i < |entries| && entries[i].1.high == LAST_DATE;
    var site := t.bounds.order[i];
    assert HoldsKey(t, site, t.bounds.at[site].high);
    k := DayKey(site.0, site.1, LAST_DATE);
    KeptIffFiled(p, lines, false, k);
  }

  lemma RowsFailOnlyAtTheStart(p: Parsing, lines: seq<Line>) returns (k: DayKey)
    requires DenseKeys(IngestAll(p, EMPTY_TABLE, lines)).Some? && Materialized(p, IngestAll(p, EMPTY_TABLE, lines)).None?
    ensures Filed(p, lines, false, k) && k.date.year == 1 && k.date.month == 1
  {
    var t := IngestAll(p, EMPTY_TABLE, lines);
    var keys := DenseKeys(t).value;
    DenseRowsFailIff(p, t, keys);
    var i :| 0 <= i < |keys| && DenseRow(p, t, keys[i]).None?;
    DenseRowFailsIff(p, t, keys[i]);
    DenseKeysAreTheSpannedDays(p, lines);
    assert keys[i] in keys;
    var a, b :| AtMost(a, keys[i].date) && AtMost(keys[i].date, b)
      && Filed(p, lines, false, DayKey(keys[i].client, keys[i].site, a)) && Filed(p, lines, false, DayKey(keys[i].client, keys[i].site, b));
    k := DayKey(keys[i].client, keys[i].site, a);
  }

  lemma SiteAtTheStart(p: Parsing, lines: seq<Line>, k: DayKey)
    requires Filed(p, lines, false, k) && k.date.year == 1 && k.date.month == 1
    requires DenseKeys(IngestAll(p, EMPTY_TABLE, lines)).Some?
    ensures Materialized(p, IngestAll(p, EMPTY_TABLE, lines)).None?
  {
    var t := IngestAll(p, EMPTY_TABLE, lines);
    var keys := DenseKeys(t).value;
    FiledDaysAppear(p, lines, k);
    DenseKeysAreTheSpannedDays(p, lines);
    var i :| 0 <= i < |keys| && keys[i] == k;
    DenseRowFailsIff(p, t, keys[i]);
    DenseRowsFailIff(p, t, keys);
  }

  /** Building the table fails exactly when some daily source row is dated on the last day of all or in the first month of all. */
  lemma BuildingFailsIff(p: Parsing, lines: seq<Line>)
    ensures Materialized(p, IngestAll(p, EMPTY_TABLE, lines)).None? <==> exists k :: Filed(p, lines, false, k) && AtTheEdge(k.date)
  {
    if Materialized(p, IngestAll(p, EMPTY_TABLE, lines)).None? {
      var k;
      if DenseKeys(IngestAll(p, EMPTY_TABLE, lines)).None? {
        k := DaysFailOnlyAtTheEnd(p, lines);
      } else {
        k := RowsFailOnlyAtTheStart(p, lines);
      }
      assert Filed(p, lines, false, k) && AtTheEdge(k.date);
    }
    if exists k :: Filed(p, lines, false, k) && AtTheEdge(k.date) {
      var k :| Filed(p, lines, false, k) && AtTheEdge(k.date);
      if k.date == LAST_DATE {
        SiteAtTheEnd(p, lines, k);
      } else if DenseKeys(IngestAll(p, EMPTY_TABLE, lines)).Some? {
        SiteAtTheStart(p, lines, k);
      }
    }
  }
}
