/**
 The missing rate is taken over the whole table, so gaps in later rows decide whether an earlier gap is
 filled. Like the missing mechanism and the choice of the numeric columns, it looks ahead of every row.
 */
module MissingRateLaws {
  import opened Wrappers
  import opened Sequences
  import opened StableSort
  import opened InsertionMap
  import opened TextOrder
  import opened Cells
  import opened SilverQuality
  import opened NoLookahead
  import opened ColumnTurns

  /*** When a gap is filled ***/

  lemma {:induction false} PastRowsHold(rows: seq<Row>, indices: seq<nat>, current: nat, j: nat)
    requires j in indices && j < current && j < |rows|
    ensures rows[j] in PastRows(rows, indices, current)
  {
    var n := |indices| - 1;
    if j != indices[n] {
      PastRowsHold(rows, indices[..n], current, j);
    }
  }

  lemma {:induction false} HistoryHolds(lib: Library, past: seq<Row>, row: Row, column: string, today: int)
    requires row in past && InWindow(lib, row, today, false, 56) && ValueAt(lib, row, column).Some?
    ensures History(lib, past, column, today, false, 56) != []
  {
    var n := |past| - 1;
    if row != past[n] {
      HistoryHolds(lib, past[..n], row, column, today);
    }
  }

  lemma {:induction false} ImputedInTurn(lib: Library, rows: seq<Row>, n: nat, column: string, columns: seq<string>, groups: Groups,
                                         regime: Regime, i: nat)
    requires n <= |rows| && i < |rows|
    ensures i < n ==> Impute(lib, rows, n, column, columns, groups, regime)[i]
                      == ImputedRow(lib, Impute(lib, rows, i, column, columns, groups, regime), i, column, columns, groups, regime)
    ensures i >= n ==> Impute(lib, rows, n, column, columns, groups, regime)[i] == rows[i]
  {
    if n > 0 {
      ImputedInTurn(lib, rows, n - 1, column, columns, groups, regime, i);
    }
  }

  /** A known value is never imputed, and a clamp neither makes nor fills a gap. */
  lemma {:induction false} KnownStays(lib: Library, rows: seq<Row>, n: nat, column: string, columns: seq<string>, groups: Groups,
                                      regime: Regime, j: nat)
    requires n <= |rows| && j < |rows| && ValueAt(lib, rows[j], column).Some?
    ensures Impute(lib, rows, n, column, columns, groups, regime)[j] == rows[j]
  {
    if n > 0 {
      KnownStays(lib, rows, n - 1, column, columns, groups, regime, j);
    }
  }

  lemma {:induction false} ClampKeepsGaps(lib: Library, rows: seq<Row>, column: string, indices: seq<nat>, history: seq<real>, j: nat)
    requires (forall i :: 0 <= i < |indices| ==> indices[i] < |rows|) && j < |rows|
    ensures ValueAt(lib, ClampGroup(lib, rows, column, indices, history).0[j], column).None? <==> ValueAt(lib, rows[j], column).None?
    decreases |indices|
  {
    if indices != [] {
      match ValueAt(lib, rows[indices[0]], column) {
        case None => ClampKeepsGaps(lib, rows, column, indices[1..], history, j);
        case Some(v) =>
          var (c, was) := ClampValue(lib, history, v);
          var row := rows[indices[0]];
          NameApart(column, "__outlier_clamped");
          assert ValueAt(lib, WithClamp(row, column, c), column) == Some(c);
          var next := if was then rows[indices[0] := WithClamp(row, column, c)] else rows;
          ClampKeepsGaps(lib, next, column, indices[1..], PushBounded(history, c, 56), j);
      }
    }
  }

  lemma NameApart(column: string, suffix: string)
    requires suffix != ""
    ensures column + suffix != column
  {
    assert |column + suffix| > |column|;
  }

  lemma {:induction false} ClampsKeepGaps(lib: Library, rows: seq<Row>, column: string, groups: seq<seq<nat>>, j: nat)
    requires InTable(groups, |rows|) && j < |rows|
    ensures ValueAt(lib, ClampGroups(lib, rows, column, groups).0[j], column).None? <==> ValueAt(lib, rows[j], column).None?
    decreases |groups|
  {
    if groups != [] {
      ClampKeepsGaps(lib, rows, column, groups[0], [], j);
      ClampsKeepGaps(lib, ClampGroup(lib, rows, column, groups[0], []).0, column, groups[1..], j);
    }
  }

  /** An earlier row of the same site with a value, at most 56 days before. */
  ghost predicate HasRecentValue(lib: Library, rows: seq<Row>, i: nat, column: string, j: nat) {
    && j < i < |rows| && SiteKeyOf(lib)(rows[i]) == SiteKeyOf(lib)(rows[j])
    && DayOf(lib, rows[i]).Some? && InWindow(lib, rows[j], DayOf(lib, rows[i]).value, false, 56)
    && ValueAt(lib, rows[j], column).Some?
  }

  lemma PredictsFrom(lib: Library, rows: seq<Row>, i: nat, column: string, columns: seq<string>, groups: Groups, regime: Regime, j: nat)
    requires HasRecentValue(lib, rows, i, column, j) && regime != NoImputation
    requires j in groups.sites.Get(SiteKeyOf(lib)(rows[i])).GetOr([])
    ensures Predict(lib, rows[i], SitePast(lib, rows, i, groups), ClientPast(lib, rows, i, groups), column, columns, regime).Some?
  {
    PastRowsHold(rows, groups.sites.Get(SiteKeyOf(lib)(rows[i])).GetOr([]), i, j);
    HistoryHolds(lib, SitePast(lib, rows, i, groups), rows[j], column, DayOf(lib, rows[i]).value);
  }

  /** Unless imputation is off, such a gap is filled. */
  lemma RecentValueFills(lib: Library, rows: seq<Row>, i: nat, column: string, columns: seq<string>, regime: Regime, j: nat)
    requires HasRecentValue(lib, rows, i, column, j) && ValueAt(lib, rows[i], column).None? && regime != NoImputation
    ensures ValueAt(lib, Impute(lib, rows, |rows|, column, columns, GroupsOf(lib, rows), regime)[i], column).Some?
  {
    var groups := GroupsOf(lib, rows);
    var before := Impute(lib, rows, i, column, columns, groups, regime);
    ImputedInTurn(lib, rows, |rows|, column, columns, groups, regime, i);
    ImputedInTurn(lib, rows, i, column, columns, groups, regime, i);
    KnownStays(lib, rows, i, column, columns, groups, regime, j);
    SiteHolds(lib, rows, j);
    assert HasRecentValue(lib, before, i, column, j);
    PredictsFrom(lib, before, i, column, columns, groups, regime, j);
    NameApart(column, "__imputed");
    NameApart(column, "__imputation_method");
  }

  lemma SiteHolds(lib: Library, rows: seq<Row>, j: nat)
    requires j < |rows|
    ensures j in GroupsOf(lib, rows).sites.Get(SiteKeyOf(lib)(rows[j])).GetOr([])
  {
    GroupByGroups(Map(rows, SiteKeyOf(lib)));
  }

  /*** The rate decides ***/

  lemma ColumnFillsIff(lib: Library, rows: seq<Row>, column: string, columns: seq<string>, regime: Regime, i: nat, j: nat)
    requires GroupsFit(GroupsOf(lib, rows), |rows|)
    requires HasRecentValue(lib, rows, i, column, j) && ValueAt(lib, rows[i], column).None?
    ensures ValueAt(lib, QualityColumn(lib, rows, column, columns, GroupsOf(lib, rows), regime)[i], column).Some? <==> regime != NoImputation
  {
    var groups := GroupsOf(lib, rows);
    ClampsKeepGaps(lib, Impute(lib, rows, |rows|, column, columns, groups, regime), column, groups.sites.Values(), i);
    if regime == NoImputation {
      NoImputationFillsNothing(lib, rows, |rows|, column, columns, groups);
    } else {
      RecentValueFills(lib, rows, i, column, columns, regime, j);
    }
  }

  /** Only a rate above 30 percent turns imputation off, whatever the mechanism. */
  lemma OffIff(lib: Library, rows: seq<Row>, column: string)
    ensures RegimeIn(lib, rows, column) == NoImputation <==> MissingRate(lib, rows, column) > 0.30
  {
  }

  lemma SameCellsSameRecent(lib: Library, a: seq<Row>, b: seq<Row>, i: nat, column: string, j: nat)
    requires SameCells(a, b, column) && HasRecentValue(lib, a, i, column, j) && ValueAt(lib, a[i], column).None?
    ensures HasRecentValue(lib, b, i, column, j) && ValueAt(lib, b[i], column).None?
  {
  }

  lemma SameCellsSameRate(lib: Library, a: seq<Row>, b: seq<Row>, column: string)
    requires SameCells(a, b, column)
    ensures MissingRate(lib, a, column) == MissingRate(lib, b, column)
  {
    SameCellsSameMissing(lib, a, b, column);
  }

  /** In its turn a column has its gap filled exactly when at most 30 percent of it are missing. */
  lemma TurnFillsIff(lib: Library, rows: seq<Row>, column: string, columns: seq<string>, i: nat, j: nat)
    requires GroupsFit(GroupsOf(lib, rows), |rows|) && IsMetric(column)
    requires HasRecentValue(lib, rows, i, column, j) && ValueAt(lib, rows[i], column).None?
    ensures ValueAt(lib, Turn(lib, rows, column, columns, GroupsOf(lib, rows))[i], column).Some? <==> MissingRate(lib, rows, column) <= 0.30
  {
    var seeded := Seed(rows, column);
    SeedKeepsCells(rows, column, column);
    SameGroups(lib, rows, seeded);
    SameCellsSameRecent(lib, rows, seeded, i, column, j);
    SameCellsSameRate(lib, rows, seeded, column);
    OffIff(lib, seeded, column);
    ColumnFillsIff(lib, seeded, column, columns, RegimeIn(lib, seeded, column), i, j);
  }

  /** No other column of the list writes the cells of this one. */
  ghost predicate OthersSpare(columns: seq<string>, k: nat)
    requires k < |columns|
  {
    forall m :: 0 <= m < |columns| && m != k ==> Spares(columns[m], columns[k])
  }

  /** The turn of the column fills the gap or not, and the later turns leave its cells alone. */
  lemma OwnTurnFillsIff(lib: Library, rows: seq<Row>, columns: seq<string>, k: nat, groups: Groups, i: nat, j: nat)
    requires groups == GroupsOf(lib, rows) && GroupsFit(groups, |rows|)
    requires k < |columns| && OthersSpare(columns, k) && forall c :: 0 <= c < |columns| ==> IsMetric(columns[c])
    requires HasRecentValue(lib, rows, i, columns[k], j) && ValueAt(lib, rows[i], columns[k]).None?
    ensures ValueAt(lib, QualityPass(lib, rows, columns, k, groups)[i], columns[k]).Some? <==> MissingRate(lib, rows, columns[k]) <= 0.30
  {
    NextPass(lib, rows, columns, k, groups);
    TurnFillsIff(lib, rows, columns[k], columns, i, j);
    TurnsSpare(lib, Turn(lib, rows, columns[k], columns, groups), columns, k + 1, groups, columns[k]);
  }

  lemma SortedPassFillsIff(lib: Library, rows: seq<Row>, columns: seq<string>, k: nat, groups: Groups, i: nat, j: nat)
    requires groups == GroupsOf(lib, rows) && GroupsFit(groups, |rows|)
    requires k < |columns| && OthersSpare(columns, k) && forall c :: 0 <= c < |columns| ==> IsMetric(columns[c])
    requires HasRecentValue(lib, rows, i, columns[k], j) && ValueAt(lib, rows[i], columns[k]).None?
    ensures ValueAt(lib, QualityPass(lib, rows, columns, 0, groups)[i], columns[k]).Some? <==> MissingRate(lib, rows, columns[k]) <= 0.30
  {
    var at := TurnOf(lib, rows, columns, k, groups);
    SameGroups(lib, rows, at);
    SameCellsSameRecent(lib, rows, at, i, columns[k], j);
    SameCellsSameRate(lib, rows, at, columns[k]);
    OwnTurnFillsIff(lib, at, columns, k, groups, i, j);
  }

  /**
   In the pass over any columns, of which no other writes the cells of this one, a gap with a recent value is
   filled exactly when at most 30 percent of the column are missing in the whole table.
   */
  lemma GapIsFilledIff(lib: Library, table: seq<Row>, columns: seq<string>, k: nat, i: nat, j: nat)
    requires k < |columns| && OthersSpare(columns, k) && forall c :: 0 <= c < |columns| ==> IsMetric(columns[c])
    requires HasRecentValue(lib, SortedRows(lib, table), i, columns[k], j) && ValueAt(lib, SortedRows(lib, table)[i], columns[k]).None?
    ensures |ApplyQuality(lib, table, columns)| == |SortedRows(lib, table)|
    ensures ValueAt(lib, ApplyQuality(lib, table, columns)[i], columns[k]).Some? <==> MissingRate(lib, table, columns[k]) <= 0.30
  {
    var rows := SortedRows(lib, table);
    TableGroupsFit(lib, rows);
    SortKeepsRate(lib, table, columns[k]);
    SortedPassFillsIff(lib, rows, columns, k, GroupsOf(lib, rows), i, j);
  }

  /** The pass keeps the keys of every row. */
  lemma PassKeepsKeys(lib: Library, table: seq<Row>, columns: seq<string>)
    requires forall c :: 0 <= c < |columns| ==> IsMetric(columns[c])
    ensures SameKeysThroughout(SortedRows(lib, table), ApplyQuality(lib, table, columns))
  {
    var rows := SortedRows(lib, table);
    TableGroupsFit(lib, rows);
    TurnsKeepKeys(lib, rows, columns, 0, GroupsOf(lib, rows));
  }

  lemma SortedRowsAgree(lib: Library, a: seq<Row>, b: seq<Row>, cut: string, column: string, i: nat, j: nat)
    requires AgreeBefore(lib, a, b, cut)
    requires HasRecentValue(lib, SortedRows(lib, a), i, column, j) && ValueAt(lib, SortedRows(lib, a)[i], column).None?
    requires Before(lib, SortedRows(lib, a)[i], cut) && Before(lib, SortedRows(lib, a)[j], cut)
    ensures HasRecentValue(lib, SortedRows(lib, b), i, column, j) && ValueAt(lib, SortedRows(lib, b)[i], column).None?
  {
    SortingAgrees(lib, a, b, cut);
    assert SortedRows(lib, a)[i] == SortedRows(lib, b)[i] && SortedRows(lib, a)[j] == SortedRows(lib, b)[j];
  }

  /** So two tables that agree before a cut, but whose missing rates lie on the two sides of 30 percent, no longer agree. */
  lemma RatesApartDisagree(lib: Library, a: seq<Row>, b: seq<Row>, cut: string, columns: seq<string>, k: nat, i: nat, j: nat)
    requires k < |columns| && OthersSpare(columns, k) && forall c :: 0 <= c < |columns| ==> IsMetric(columns[c])
    requires AgreeBefore(lib, a, b, cut)
    requires HasRecentValue(lib, SortedRows(lib, a), i, columns[k], j) && ValueAt(lib, SortedRows(lib, a)[i], columns[k]).None?
    requires Before(lib, SortedRows(lib, a)[i], cut) && Before(lib, SortedRows(lib, a)[j], cut)
    requires MissingRate(lib, a, columns[k]) <= 0.30 < MissingRate(lib, b, columns[k])
    ensures !AgreeBefore(lib, ApplyQuality(lib, a, columns), ApplyQuality(lib, b, columns), cut)
  {
    SortedRowsAgree(lib, a, b, cut, columns[k], i, j);
    GapIsFilledIff(lib, a, columns, k, i, j);
    GapIsFilledIff(lib, b, columns, k, i, j);
    PassKeepsKeys(lib, a, columns);
    var x, y := ApplyQuality(lib, a, columns), ApplyQuality(lib, b, columns);
    assert SameKeys(SortedRows(lib, a)[i], x[i]) && Before(lib, x[i], cut);
    assert x[i] != y[i];
  }

  /** The same for one column and tables that are in order. */
  lemma OneColumnDisagrees(lib: Library, a: seq<Row>, b: seq<Row>, cut: string, column: string, i: nat, j: nat)
    requires SortedRows(lib, a) == a && IsMetric(column) && AgreeBefore(lib, a, b, cut)
    requires HasRecentValue(lib, a, i, column, j) && ValueAt(lib, a[i], column).None? && Before(lib, a[i], cut) && Before(lib, a[j], cut)
    requires MissingRate(lib, a, column) <= 0.30 < MissingRate(lib, b, column)
    ensures !AgreeBefore(lib, ApplyQuality(lib, a, [column]), ApplyQuality(lib, b, [column]), cut)
  {
    RatesApartDisagree(lib, a, b, cut, [column], 0, i, j);
  }

  /*** Four rows ***/

  /** A library in which texts are themselves and a date is one digit. */
  function PlainLibrary(): Library {
    Library(
      s => None,
      (s: string) => if |s| == 1 then Some(s[0] as int) else None,
      (c: Cell) => if c.Text? then c.s else "",
      vs => if vs == [] then 0.0 else vs[0],
      (vs, q) => 0.0,
      vs => 0.0,
      vs => 0.0,
      (xs, ys) => None,
      (xs, ys, x) => None,
      (rows, column) => "mcar")
  }

  const LOAD := "d__load"

  function Day(date: string, load: Option<real>): Row {
    var row: Row := map["client_slug" := Text("c"), "site_code" := Text("s"), "date" := Text(date)];
    if load.Some? then row[LOAD := Number(load.value)] else row
  }

  /** Four days of one site, with a gap on the second; the last two as given. */
  function FourDays(later: Option<real>): seq<Row> {
    [Day("1", Some(5.0)), Day("2", None), Day("3", later), Day("4", later)]
  }

  lemma DayReads(date: string, load: Option<real>)
    ensures var lib, row := PlainLibrary(), Day(date, load);
            && SiteKeyOf(lib)(row) == ("c", "s") && DateText(lib, row) == date && ValueAt(lib, row, LOAD) == load
            && DayOf(lib, row) == if |date| == 1 then Some(date[0] as int) else None
  {
    LoadIsMetric();
    MetricIsNoKey(LOAD);
    var lib, row := PlainLibrary(), Day(date, load);
    assert "client_slug"[0] == 'c' && "site_code"[0] == 's' && "date"[0] == 'd';
    assert row["client_slug"] == Text("c") && row["site_code"] == Text("s") && row["date"] == Text(date);
    SiteKeyReads(lib, row);
    assert SiteKeyOf(lib)(row).0 == lib.textOf(Text("c")) && SiteKeyOf(lib)(row).1 == lib.textOf(Text("s"));
  }

  lemma SiteKeyReads(lib: Library, row: Row)
    ensures SiteKeyOf(lib)(row).0 == lib.textOf(Get(row, "client_slug"))
    ensures SiteKeyOf(lib)(row).1 == lib.textOf(Get(row, "site_code"))
  {
  }

  lemma FourDaysInOrder(later: Option<real>)
    ensures SortedRows(PlainLibrary(), FourDays(later)) == FourDays(later)
  {
    var lib, rows := PlainLibrary(), FourDays(later);
    DayReads("1", Some(5.0));
    DayReads("2", None);
    DayReads("3", later);
    DayReads("4", later);
    assert TextLe("1", "2") && TextLe("1", "3") && TextLe("1", "4") && TextLe("2", "3") && TextLe("2", "4") && TextLe("3", "4");
    forall i, j | 0 <= i < j < |rows| ensures ByRowOrder(lib)(rows[i], rows[j]) {
    }
    SortOfSorted(rows, ByRowOrder(lib));
  }

  lemma FourDaysMissing(later: Option<real>)
    ensures MissingRate(PlainLibrary(), FourDays(later), LOAD) == if later.Some? then 0.25 else 0.75
  {
    var lib, rows := PlainLibrary(), FourDays(later);
    DayReads("1", Some(5.0));
    DayReads("2", None);
    DayReads("3", later);
    DayReads("4", later);
    assert rows[..3] == [rows[0], rows[1], rows[2]] && rows[..3][..2] == [rows[0], rows[1]] && [rows[0], rows[1]][..1] == [rows[0]];
    assert MissingCount(lib, [rows[0]], LOAD) == 0;
    assert MissingCount(lib, [rows[0], rows[1]], LOAD) == 1;
    assert MissingCount(lib, rows[..3], LOAD) == if later.Some? then 1 else 2;
  }

  lemma LoadIsMetric()
    ensures IsMetric(LOAD)
  {
    assert LOAD[1] == '_' && LOAD[2] == '_';
  }

  /** The failing input: the tables agree on the first two days, and the pass fills the second day in one of them only. */
  lemma LookaheadWithoutTheProviso()
    ensures
      var lib, a, b := PlainLibrary(), FourDays(Some(7.0)), FourDays(None);
      AgreeBefore(lib, a, b, "3") && !AgreeBefore(lib, ApplyQuality(lib, a, [LOAD]), ApplyQuality(lib, b, [LOAD]), "3")
  {
    var lib, a, b := PlainLibrary(), FourDays(Some(7.0)), FourDays(None);
    LoadIsMetric();
    FourDaysInOrder(Some(7.0));
    FourDaysMissing(Some(7.0));
    FourDaysMissing(None);
    FourDaysAgree();
    OneColumnDisagrees(lib, a, b, "3", LOAD, 1, 0);
  }

  lemma FourDaysAgree()
    ensures
      var lib, a, b := PlainLibrary(), FourDays(Some(7.0)), FourDays(None);
      && AgreeBefore(lib, a, b, "3") && HasRecentValue(lib, a, 1, LOAD, 0) && ValueAt(lib, a[1], LOAD).None?
      && Before(lib, a[0], "3") && Before(lib, a[1], "3")
  {
    DayReads("1", Some(5.0));
    DayReads("2", None);
    DayReads("3", Some(7.0));
    DayReads("4", Some(7.0));
    DayReads("3", None);
    DayReads("4", None);
    assert TextLess("1", "3") && TextLess("2", "3") && !TextLess("3", "3") && !TextLess("4", "3") by {
      assert "1"[0] != "3"[0] && "2"[0] != "3"[0];
    }
  }
}
