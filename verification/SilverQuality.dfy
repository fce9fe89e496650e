/**
 Imputation and outlier clamping of the silver table, as functions of the table. Every estimate for
 a row is computed from that row and from rows at earlier positions.
 */
module SilverQuality {
  import opened Wrappers
  import opened Sequences
  import opened StableSort
  import opened InsertionMap
  import opened TextOrder
  import opened Cells

  const TINY := 0.000000001

  function MinR(a: real, b: real): real { if b < a then b else a }

  function MaxR(a: real, b: real): real { if a < b then b else a }

  function Abs(x: real): real { if x < 0.0 then -x else x }

  function Imputed(column: string): string { column + "__imputed" }

  function ImputationMethod(column: string): string { column + "__imputation_method" }

  function Clamped(column: string): string { column + "__outlier_clamped" }

  /** The rows at those of the positions that come before `current`. */
  function PastRows(rows: seq<Row>, indices: seq<nat>, current: nat): seq<Row> {
    if indices == [] then []
    else
      var n := |indices| - 1;
      PastRows(rows, indices[..n], current)
      + if indices[n] < current && indices[n] < |rows| then [rows[indices[n]]] else []
  }

  /** The values a column has in some rows, in order, without the gaps. */
  function Known(lib: Library, past: seq<Row>, column: string): seq<real> {
    if past == [] then []
    else
      var n := |past| - 1;
      Known(lib, past[..n], column)
      + match ValueAt(lib, past[n], column) case Some(v) => [v] case None => []
  }

  /*** Hierarchical median ***/

  function Weekday(day: int): int {
    (day + 6) % 7
  }

  predicate InWindow(lib: Library, row: Row, today: int, sameDow: bool, windowDays: int) {
    match DayOf(lib, row)
    case None => false
    case Some(d) => d < today && d >= today - windowDays && (sameDow ==> Weekday(d) == Weekday(today))
  }

  /** The values of a column in the rows of the last `windowDays` days, optionally of the same weekday. */
  function History(lib: Library, past: seq<Row>, column: string, today: int, sameDow: bool, windowDays: int): seq<real> {
    if past == [] then []
    else
      var n := |past| - 1;
      History(lib, past[..n], column, today, sameDow, windowDays)
      + if InWindow(lib, past[n], today, sameDow, windowDays)
        then match ValueAt(lib, past[n], column) case Some(v) => [v] case None => [] else []
  }

  /** Same weekday at the site, else the site, else the client; the last 56 days in each case. */
  function HierarchicalMedian(lib: Library, row: Row, sitePast: seq<Row>, clientPast: seq<Row>, column: string): Option<real> {
    match DayOf(lib, row)
    case None => None
    case Some(today) =>
      var sameDow := History(lib, sitePast, column, today, true, 56);
      if sameDow != [] then Some(lib.median(sameDow))
      else
        var site := History(lib, sitePast, column, today, false, 56);
        if site != [] then Some(lib.median(site))
        else
          var client := History(lib, clientPast, column, today, false, 56);
          if client != [] then Some(lib.median(client)) else None
  }

  /*** Causal ridge regression ***/

  predicate EndsWith(s: string, suffix: string) {
    |suffix| <= |s| && s[|s| - |suffix|..] == suffix
  }

  predicate Usable(lib: Library, row: Row, target: string, column: string) {
    column != target && !EndsWith(column, "__imputed") && !EndsWith(column, "__outlier_clamped")
    && ValueAt(lib, row, column).Some?
  }

  /** The samples in which both columns are known: the predictor's values and the target's. */
  function Pairs(lib: Library, past: seq<Row>, target: string, predictor: string): (seq<real>, seq<real>) {
    if past == [] then ([], [])
    else
      var n := |past| - 1;
      var (xs, ys) := Pairs(lib, past[..n], target, predictor);
      var x, y := ValueAt(lib, past[n], predictor), ValueAt(lib, past[n], target);
      if x.Some? && y.Some? then (xs + [x.value], ys + [y.value]) else (xs, ys)
  }

  function Score(lib: Library, past: seq<Row>, target: string, predictor: string): Option<(real, string)> {
    var (xs, ys) := Pairs(lib, past, target, predictor);
    if |xs| < 40 || lib.std(xs) < TINY || lib.std(ys) < TINY then None
    else
      match lib.correlation(xs, ys)
      case None => None
      case Some(c) => Some((Abs(c), predictor))
  }

  function Scores(lib: Library, past: seq<Row>, target: string, predictors: seq<string>): seq<(real, string)> {
    if predictors == [] then []
    else
      var n := |predictors| - 1;
      Scores(lib, past, target, predictors[..n])
      + match Score(lib, past, target, predictors[n]) case Some(s) => [s] case None => []
  }

  /** `sort(reverse=True)` on (score, name) pairs. */
  predicate BestFirst(a: (real, string), b: (real, string)) {
    b.0 < a.0 || (b.0 == a.0 && TextLe(b.1, a.1))
  }

  function Features(lib: Library, row: Row, columns: seq<string>): Option<seq<real>> {
    if columns == [] then Some([])
    else
      var n := |columns| - 1;
      var before, v := Features(lib, row, columns[..n]), ValueAt(lib, row, columns[n]);
      if before.Some? && v.Some? then Some(before.value + [v.value]) else None
  }

  function Training(lib: Library, past: seq<Row>, target: string, columns: seq<string>): (seq<seq<real>>, seq<real>) {
    if past == [] then ([], [])
    else
      var n := |past| - 1;
      var (xs, ys) := Training(lib, past[..n], target, columns);
      var x, y := Features(lib, past[n], columns), ValueAt(lib, past[n], target);
      if x.Some? && y.Some? then (xs + [x.value], ys + [y.value]) else (xs, ys)
  }

  /** The prediction and its r2, or nothing when there are too few predictors or samples. */
  function CausalRidge(lib: Library, row: Row, sitePast: seq<Row>, target: string, columns: seq<string>): Option<(real, real)> {
    var usable := Filter(columns, c => Usable(lib, row, target, c));
    if |usable| < 2 then None
    else
      var ranked := Sort(Scores(lib, sitePast, target, usable), BestFirst);
      var selected := Map(SliceTo(ranked, 6), (s: (real, string)) => s.1);
      if |selected| < 2 then None
      else
        var (xs, ys) := Training(lib, sitePast, target, selected);
        var current := Features(lib, row, selected);
        if |ys| < 40 || current.None? then None else lib.ridge(xs, ys, current.value)
  }

  function ClipToHistory(lib: Library, sitePast: seq<Row>, column: string, value: real): real {
    var hist := Known(lib, sitePast, column);
    if |hist| < 20 then value
    else MaxR(lib.percentile(hist, 1.0), MinR(lib.percentile(hist, 99.0), value))
  }

  /*** Imputation ***/

  datatype Regime = NoImputation | MedianOnly | RidgeFirst

  /** All that missing rate and mechanism decide. */
  function RegimeOf(missingRate: real, mechanism: string): Regime {
    if missingRate > 0.30 then NoImputation
    else if missingRate >= 0.05 || mechanism == "mar" then RidgeFirst
    else MedianOnly
  }

  datatype Prediction = Prediction(value: real, how: string)

  function Predict(lib: Library, row: Row, sitePast: seq<Row>, clientPast: seq<Row>, column: string, columns: seq<string>,
                   regime: Regime): Option<Prediction>
  {
    if regime.NoImputation? then None
    else
      var ridge := if regime.RidgeFirst? then CausalRidge(lib, row, sitePast, column, columns) else None;
      if ridge.Some? then
        Some(Prediction(ClipToHistory(lib, sitePast, column, ridge.value.0),
                        if ridge.value.1 >= 0.15 then "causal_ridge" else "causal_ridge_low_conf"))
      else
        match HierarchicalMedian(lib, row, sitePast, clientPast, column)
        case Some(v) => Some(Prediction(v, "hierarchical_median"))
        case None => None
  }

  datatype Groups = Groups(sites: OrderedMap<(string, string), seq<nat>>, clients: OrderedMap<string, seq<nat>>)

  function GroupsOf(lib: Library, rows: seq<Row>): Groups {
    Groups(GroupBy(Map(rows, SiteKeyOf(lib))), GroupBy(Map(rows, ClientOf(lib))))
  }

  function SitePast(lib: Library, rows: seq<Row>, i: nat, groups: Groups): seq<Row>
    requires i < |rows|
  {
    PastRows(rows, groups.sites.Get(SiteKeyOf(lib)(rows[i])).GetOr([]), i)
  }

  function ClientPast(lib: Library, rows: seq<Row>, i: nat, groups: Groups): seq<Row>
    requires i < |rows|
  {
    PastRows(rows, groups.clients.Get(ClientOf(lib)(rows[i])).GetOr([]), i)
  }

  function WithImputation(row: Row, column: string, p: Prediction): Row {
    row[column := Number(p.value)][Imputed(column) := Flag(true)][ImputationMethod(column) := Text(p.how)]
  }

  function ImputedRow(lib: Library, rows: seq<Row>, i: nat, column: string, columns: seq<string>, groups: Groups, regime: Regime): Row
    requires i < |rows|
  {
    if ValueAt(lib, rows[i], column).Some? then rows[i]
    else
      match Predict(lib, rows[i], SitePast(lib, rows, i, groups), ClientPast(lib, rows, i, groups), column, columns, regime)
      case None => rows[i]
      case Some(p) => WithImputation(rows[i], column, p)
  }

  /** The table after the first `n` rows have been imputed, each one seeing the earlier ones imputed. */
  function Impute(lib: Library, rows: seq<Row>, n: nat, column: string, columns: seq<string>, groups: Groups, regime: Regime): (out: seq<Row>)
    requires n <= |rows|
    ensures |out| == |rows|
  {
    if n == 0 then rows
    else
      var before := Impute(lib, rows, n - 1, column, columns, groups, regime);
      before[n - 1 := ImputedRow(lib, before, n - 1, column, columns, groups, regime)]
  }

  /*** Clamping ***/

  predicate Judges(lib: Library, history: seq<real>) {
    |history| >= 14 && Spread(lib, history) > TINY
  }

  function DistanceFrom(m: real): real -> real {
    (x: real) => Abs(x - m)
  }

  function Spread(lib: Library, history: seq<real>): real {
    lib.median(Map(history, DistanceFrom(lib.median(history))))
  }

  function Low(lib: Library, history: seq<real>): real {
    lib.median(history) - 4.5 * (1.4826 * Spread(lib, history))
  }

  function High(lib: Library, history: seq<real>): real {
    lib.median(history) + 4.5 * (1.4826 * Spread(lib, history))
  }

  function ClampValue(lib: Library, history: seq<real>, value: real): (real, bool) {
    if !Judges(lib, history) || Low(lib, history) <= value <= High(lib, history) then (value, false)
    else (MaxR(Low(lib, history), MinR(High(lib, history), value)), true)
  }

  function WithClamp(row: Row, column: string, value: real): Row {
    row[column := Number(value)][Clamped(column) := Flag(true)]
  }

  /** One group in order, with the last 56 outputs as history: the table and how many values were clamped. */
  function ClampGroup(lib: Library, rows: seq<Row>, column: string, indices: seq<nat>, history: seq<real>): (out: (seq<Row>, nat))
    requires forall i :: 0 <= i < |indices| ==> indices[i] < |rows|
    ensures |out.0| == |rows|
    decreases |indices|
  {
    if indices == [] then (rows, 0)
    else
      match ValueAt(lib, rows[indices[0]], column)
      case None => ClampGroup(lib, rows, column, indices[1..], history)
      case Some(v) =>
        var (c, was) := ClampValue(lib, history, v);
        var next := if was then rows[indices[0] := WithClamp(rows[indices[0]], column, c)] else rows;
        var (out, n) := ClampGroup(lib, next, column, indices[1..], PushBounded(history, c, 56));
        (out, n + if was then 1 else 0)
  }

  function ClampGroups(lib: Library, rows: seq<Row>, column: string, groups: seq<seq<nat>>): (out: (seq<Row>, nat))
    requires InTable(groups, |rows|)
    ensures |out.0| == |rows|
    decreases |groups|
  {
    if groups == [] then (rows, 0)
    else
      var (first, n) := ClampGroup(lib, rows, column, groups[0], []);
      var (out, m) := ClampGroups(lib, first, column, groups[1..]);
      (out, n + m)
  }

  /*** The whole pass ***/

  function SeedRow(row: Row, column: string): Row {
    var a := if Imputed(column) in row then row else row[Imputed(column) := Flag(false)];
    var b := if ImputationMethod(column) in a then a else a[ImputationMethod(column) := Null];
    if Clamped(column) in b then b else b[Clamped(column) := Flag(false)]
  }

  function Seed(rows: seq<Row>, column: string): seq<Row> {
    Map(rows, (row: Row) => SeedRow(row, column))
  }

  function MissingCount(lib: Library, rows: seq<Row>, column: string): nat {
    if rows == [] then 0
    else MissingCount(lib, rows[..|rows| - 1], column) + if ValueAt(lib, rows[|rows| - 1], column).None? then 1 else 0
  }

  function MissingRate(lib: Library, rows: seq<Row>, column: string): real {
    MissingCount(lib, rows, column) as real / (if |rows| == 0 then 1 else |rows|) as real
  }

  function RegimeIn(lib: Library, rows: seq<Row>, column: string): Regime {
    RegimeOf(MissingRate(lib, rows, column), lib.mechanism(rows, column))
  }

  ghost predicate GroupsFit(groups: Groups, size: nat) {
    InTable(groups.sites.Values(), size)
  }

  function QualityColumn(lib: Library, rows: seq<Row>, column: string, columns: seq<string>, groups: Groups, regime: Regime): (out: seq<Row>)
    requires GroupsFit(groups, |rows|)
    ensures |out| == |rows|
  {
    ClampGroups(lib, Impute(lib, rows, |rows|, column, columns, groups, regime), column, groups.sites.Values()).0
  }

  /** The columns from `k` on, each seeing the table the earlier ones left. */
  function QualityPass(lib: Library, rows: seq<Row>, columns: seq<string>, k: nat, groups: Groups): (out: seq<Row>)
    requires k <= |columns| && GroupsFit(groups, |rows|)
    ensures |out| == |rows|
    decreases |columns| - k
  {
    if k == |columns| then rows
    else
      var seeded := Seed(rows, columns[k]);
      QualityPass(lib, QualityColumn(lib, seeded, columns[k], columns, groups, RegimeIn(lib, seeded, columns[k])), columns, k + 1, groups)
  }

  /** The regimes the pass goes through. */
  function Regimes(lib: Library, rows: seq<Row>, columns: seq<string>, k: nat, groups: Groups): (all: seq<Regime>)
    requires k <= |columns| && GroupsFit(groups, |rows|)
    ensures |all| == |columns| - k
    decreases |columns| - k
  {
    if k == |columns| then []
    else
      var seeded := Seed(rows, columns[k]);
      var regime := RegimeIn(lib, seeded, columns[k]);
      [regime] + Regimes(lib, QualityColumn(lib, seeded, columns[k], columns, groups, regime), columns, k + 1, groups)
  }

  predicate RowOrder(lib: Library, a: Row, b: Row) {
    var (ca, sa), (cb, sb) := SiteKeyOf(lib)(a), SiteKeyOf(lib)(b);
    if ca != cb then TextLe(ca, cb)
    else if sa != sb then TextLe(sa, sb)
    else TextLe(DateText(lib, a), DateText(lib, b))
  }

  function ByRowOrder(lib: Library): (Row, Row) -> bool {
    (a: Row, b: Row) => RowOrder(lib, a, b)
  }

  function SortedRows(lib: Library, table: seq<Row>): seq<Row> {
    Sort(table, ByRowOrder(lib))
  }

  lemma TableGroupsFit(lib: Library, rows: seq<Row>)
    ensures GroupsFit(GroupsOf(lib, rows), |rows|)
  {
    TableGroupsAreSeparate(Map(rows, SiteKeyOf(lib)));
  }

  /** `apply_silver_quality` for a given list of numeric columns. */
  function ApplyQuality(lib: Library, table: seq<Row>, columns: seq<string>): seq<Row> {
    var rows := SortedRows(lib, table);
    TableGroupsFit(lib, rows);
    QualityPass(lib, rows, columns, 0, GroupsOf(lib, rows))
  }

  function RegimesOf(lib: Library, table: seq<Row>, columns: seq<string>): seq<Regime> {
    var rows := SortedRows(lib, table);
    TableGroupsFit(lib, rows);
    Regimes(lib, rows, columns, 0, GroupsOf(lib, rows))
  }
}
