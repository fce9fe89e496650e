/** What the imputation of a column does to each row: which estimate fills a gap, and from which earlier rows it is made. */
module GapLaws {
  import opened Wrappers
  import opened Sequences
  import opened Cells
  import opened SilverQuality
  import opened ClampLaws
  import opened NoLookahead
  import opened MissingRateLaws
  import opened EarlierRows
  import opened ImputationLaws
  import opened RidgeLaws

  function Filled(row: Row, column: string, value: real, how: string): Row {
    row[column := Number(value)][column + "__imputed" := Flag(true)][column + "__imputation_method" := Text(how)]
  }

  /**
   Filled with the median of the first of three lists of earlier values that is not empty: those of the site on
   the same weekday, those of the site, those of the client, each from at most 56 days before. Without any the
   row is left alone.
   */
  ghost predicate FilledByMedian(lib: Library, rows: seq<Row>, i: nat, column: string, next: Row) {
    exists weekday, site, client :: FilledFromLevels(lib, rows, i, column, weekday, site, client, next)
  }

  ghost predicate FilledFromLevels(lib: Library, rows: seq<Row>, i: nat, column: string, weekday: seq<nat>, site: seq<nat>, client: seq<nat>,
                                   next: Row)
  {
    && Levels(lib, rows, i, weekday, site, client)
    && var a, b, c := ValuesAt(lib, rows, column, weekday), ValuesAt(lib, rows, column, site), ValuesAt(lib, rows, column, client);
       && (a != [] ==> next == Filled(rows[i], column, lib.median(a), "hierarchical_median"))
       && (a == [] && b != [] ==> next == Filled(rows[i], column, lib.median(b), "hierarchical_median"))
       && (a == b == [] && c != [] ==> next == Filled(rows[i], column, lib.median(c), "hierarchical_median"))
       && (a == b == c == [] ==> next == rows[i])
  }

  /** A ridge prediction held to the history: from 20 earlier values of the site on, between their first and 99th percentiles. */
  ghost predicate Held(lib: Library, rows: seq<Row>, i: nat, column: string, value: real, x: real) {
    exists mates :: Picks(mates, i, EarlierOfSite(lib, rows, i)) && HeldBy(lib, rows, column, mates, value, x)
  }

  ghost predicate HeldBy(lib: Library, rows: seq<Row>, column: string, mates: seq<nat>, value: real, x: real) {
    InRows(mates, |rows|)
    && var known := ValuesAt(lib, rows, column, mates);
       var low, high := lib.percentile(known, 1.0), lib.percentile(known, 99.0);
       if |known| < 20 then x == value else Nearest(x, low, if low < high then high else low, value)
  }

  ghost predicate FilledByRidge(lib: Library, rows: seq<Row>, i: nat, column: string, p: (real, real), next: Row) {
    i < |rows| && exists x :: Held(lib, rows, i, column, p.0, x)
                   && next == Filled(rows[i], column, x, if p.1 >= 0.15 then "causal_ridge" else "causal_ridge_low_conf")
  }

  /** What becomes of a row with a gap, given the rows before it as they have become. */
  ghost predicate GapBecomes(lib: Library, rows: seq<Row>, i: nat, column: string, columns: seq<string>, rate: real, mechanism: string,
                             next: Row)
  {
    i < |rows|
    && if rate > 0.30 then next == rows[i]
       else if rate < 0.05 && mechanism != "mar" then FilledByMedian(lib, rows, i, column, next)
       else exists r :: RidgeIs(lib, rows, i, column, columns, r)
                        && (r.Some? ==> FilledByRidge(lib, rows, i, column, r.value, next))
                        && (r.None? ==> FilledByMedian(lib, rows, i, column, next))
  }

  /*** One row ***/

  /** The row with the median, or as it was. */
  function MedianRow(lib: Library, rows: seq<Row>, i: nat, column: string): Row
    requires i < |rows|
  {
    match HierarchicalMedian(lib, rows[i], SitePast(lib, rows, i, GroupsOf(lib, rows)), ClientPast(lib, rows, i, GroupsOf(lib, rows)), column)
    case None => rows[i]
    case Some(m) => WithImputation(rows[i], column, Prediction(m, "hierarchical_median"))
  }

  function RidgeRow(lib: Library, row: Row, past: seq<Row>, column: string, p: (real, real)): Row {
    WithImputation(row, column, Prediction(ClipToHistory(lib, past, column, p.0), if p.1 >= 0.15 then "causal_ridge" else "causal_ridge_low_conf"))
  }

  lemma MedianFills(lib: Library, rows: seq<Row>, i: nat, column: string)
    requires i < |rows|
    ensures FilledByMedian(lib, rows, i, column, MedianRow(lib, rows, i, column))
  {
    var weekday, site, client := LevelsExist(lib, rows, i);
    MedianOfLevels(lib, rows, i, column, weekday, site, client);
    assert FilledFromLevels(lib, rows, i, column, weekday, site, client, MedianRow(lib, rows, i, column));
  }

  lemma ClippingHolds(lib: Library, rows: seq<Row>, i: nat, column: string, mates: seq<nat>, value: real)
    requires i < |rows| && Picks(mates, i, EarlierOfSite(lib, rows, i)) && InRows(mates, |rows|)
    ensures Held(lib, rows, i, column, value, ClipToHistory(lib, RowsAt(rows, mates), column, value))
  {
    KnownAt(lib, rows, mates, column);
    assert HeldBy(lib, rows, column, mates, value, ClipToHistory(lib, RowsAt(rows, mates), column, value));
  }

  lemma RidgeFills(lib: Library, rows: seq<Row>, i: nat, column: string, mates: seq<nat>, p: (real, real))
    requires i < |rows| && Picks(mates, i, EarlierOfSite(lib, rows, i)) && InRows(mates, |rows|)
    ensures FilledByRidge(lib, rows, i, column, p, RidgeRow(lib, rows[i], RowsAt(rows, mates), column, p))
  {
    ClippingHolds(lib, rows, i, column, mates, p.0);
  }

  function RowOf(row: Row, column: string, p: Option<Prediction>): Row {
    match p
    case None => row
    case Some(q) => WithImputation(row, column, q)
  }

  lemma PredictByCases(lib: Library, row: Row, past: seq<Row>, clients: seq<Row>, column: string, columns: seq<string>, rate: real,
                       mechanism: string, ridge: Option<(real, real)>, median: Option<real>)
    requires ridge == CausalRidge(lib, row, past, column, columns) && median == HierarchicalMedian(lib, row, past, clients, column)
    ensures
      var byMedian := if median.None? then row else WithImputation(row, column, Prediction(median.value, "hierarchical_median"));
      RowOf(row, column, Predict(lib, row, past, clients, column, columns, RegimeOf(rate, mechanism)))
      == if rate > 0.30 then row
         else if rate < 0.05 && mechanism != "mar" then byMedian
         else if ridge.Some? then RidgeRow(lib, row, past, column, ridge.value)
         else byMedian
  {
  }

  lemma ImputedByCases(lib: Library, rows: seq<Row>, i: nat, column: string, columns: seq<string>, rate: real, mechanism: string, past: seq<Row>,
                       ridge: Option<(real, real)>)
    requires i < |rows| && ValueAt(lib, rows[i], column).None? && past == SitePast(lib, rows, i, GroupsOf(lib, rows))
    requires ridge == CausalRidge(lib, rows[i], past, column, columns)
    ensures
      ImputedRow(lib, rows, i, column, columns, GroupsOf(lib, rows), RegimeOf(rate, mechanism))
      == if rate > 0.30 then rows[i]
         else if rate < 0.05 && mechanism != "mar" then MedianRow(lib, rows, i, column)
         else if ridge.Some? then RidgeRow(lib, rows[i], past, column, ridge.value)
         else MedianRow(lib, rows, i, column)
  {
    var clients := ClientPast(lib, rows, i, GroupsOf(lib, rows));
    PredictByCases(lib, rows[i], past, clients, column, columns, rate, mechanism, ridge, HierarchicalMedian(lib, rows[i], past, clients, column));
  }

  /** Whichever the ridge answer is, the row that follows from it is one the gap may become. */
  lemma CasesBecome(lib: Library, rows: seq<Row>, i: nat, column: string, columns: seq<string>, rate: real, mechanism: string,
                    r: Option<(real, real)>, byMedian: Row, next: Row)
    requires i < |rows| && RidgeIs(lib, rows, i, column, columns, r) && FilledByMedian(lib, rows, i, column, byMedian)
    requires rate > 0.30 ==> next == rows[i]
    requires rate <= 0.30 && (r.None? || (rate < 0.05 && mechanism != "mar")) ==> next == byMedian
    requires rate <= 0.30 && r.Some? && (rate >= 0.05 || mechanism == "mar") ==> FilledByRidge(lib, rows, i, column, r.value, next)
    ensures GapBecomes(lib, rows, i, column, columns, rate, mechanism, next)
  {
  }

  /** What an imputed row is, for the groups of its own table. */
  lemma RowBecomes(lib: Library, rows: seq<Row>, i: nat, column: string, columns: seq<string>, rate: real, mechanism: string)
    requires i < |rows| && ValueAt(lib, rows[i], column).None? && NoDup(columns)
    ensures GapBecomes(lib, rows, i, column, columns, rate, mechanism,
                       ImputedRow(lib, rows, i, column, columns, GroupsOf(lib, rows), RegimeOf(rate, mechanism)))
  {
    var mates := PicksExist(i, EarlierOfSite(lib, rows, i));
    SitePastListed(lib, rows, i, mates);
    MedianFills(lib, rows, i, column);
    RidgeIsComputed(lib, rows, i, mates, column, columns);
    var past := RowsAt(rows, mates);
    var ridge := CausalRidge(lib, rows[i], past, column, columns);
    ImputedByCases(lib, rows, i, column, columns, rate, mechanism, past, ridge);
    if ridge.Some? {
      RidgeFills(lib, rows, i, column, mates, ridge.value);
    }
    CasesBecome(lib, rows, i, column, columns, rate, mechanism, ridge, MedianRow(lib, rows, i, column),
                ImputedRow(lib, rows, i, column, columns, GroupsOf(lib, rows), RegimeOf(rate, mechanism)));
  }

  /*** The column ***/

  /** The table with its first rows done: each row is computed from this. */
  lemma {:induction false} DoneSoFar(lib: Library, rows: seq<Row>, column: string, columns: seq<string>, groups: Groups, regime: Regime, i: nat)
    requires i <= |rows|
    ensures Impute(lib, rows, i, column, columns, groups, regime)
         == Impute(lib, rows, |rows|, column, columns, groups, regime)[..i] + rows[i..]
  {
    var out, before := Impute(lib, rows, |rows|, column, columns, groups, regime), Impute(lib, rows, i, column, columns, groups, regime);
    forall j | 0 <= j < |rows| ensures before[j] == (out[..i] + rows[i..])[j] {
      ImputedInTurn(lib, rows, |rows|, column, columns, groups, regime, j);
      ImputedInTurn(lib, rows, i, column, columns, groups, regime, j);
    }
  }

  /**
   Imputation, row by row: a known value stays, and a gap becomes what the rows before it, as they have become,
   make of it.
   */
  lemma EachRowBecomes(lib: Library, rows: seq<Row>, column: string, columns: seq<string>, rate: real, mechanism: string, i: nat)
    requires i < |rows| && IsMetric(column) && NoDup(columns)
    ensures
      var out := Impute(lib, rows, |rows|, column, columns, GroupsOf(lib, rows), RegimeOf(rate, mechanism));
      if ValueAt(lib, rows[i], column).Some? then out[i] == rows[i]
      else GapBecomes(lib, out[..i] + rows[i..], i, column, columns, rate, mechanism, out[i])
  {
    var groups, regime := GroupsOf(lib, rows), RegimeOf(rate, mechanism);
    var before := Impute(lib, rows, i, column, columns, groups, regime);
    ImputedInTurn(lib, rows, |rows|, column, columns, groups, regime, i);
    DoneSoFar(lib, rows, column, columns, groups, regime, i);
    assert before[i] == rows[i];
    if ValueAt(lib, rows[i], column).None? {
      ImputeKeepsKeys(lib, rows, i, column, columns, groups, regime);
      SameGroups(lib, rows, before);
      RowBecomes(lib, before, i, column, columns, rate, mechanism);
    }
  }
}
