/** The columns a row of the gold table receives, by name and number: four lags, and means and deviations of three windows. */
module FeatureValueLaws {
  import opened Wrappers
  import opened Sequences
  import opened StableSort
  import opened InsertionMap
  import opened TextOrder
  import opened Cells
  import opened GoldFeatures
  import opened FeatureLaws
  import opened ClampLaws
  import opened EarlierRows
  import ImputationLaws

  /*** The rows of a site ***/

  lemma GroupIsListed(lib: Library, rows: seq<Row>, g: nat) returns (key: (string, string))
    requires g < |SiteGroups(lib, rows)|
    ensures var group := SiteGroups(lib, rows)[g];
            Ascending(group) && forall j: nat :: j in group <==> j < |rows| && SiteKeyOf(lib)(rows[j]) == key
  {
    var keys := Map(rows, SiteKeyOf(lib));
    var sites := GroupBy(keys);
    GroupByGroups(keys);
    Lists(sites);
    key := sites.order[g];
    SiteGroupLists(lib, rows, key);
    assert sites.order[g] in sites.at;
  }

  /** The rows of a site are those with the client and the site code of any of them. */
  lemma SiteRowsAreOneSite(lib: Library, rows: seq<Row>, g: nat, p: nat, j: nat)
    requires g < |SiteGroups(lib, rows)| && p < |SiteRows(lib, rows, g)|
    ensures j in SiteRows(lib, rows, g) <==> ImputationLaws.SameSite(lib, rows, SiteRows(lib, rows, g)[p], j)
  {
    var key := GroupIsListed(lib, rows, g);
    var i := SiteRows(lib, rows, g)[p];
    SortMember(SiteGroups(lib, rows)[g], ByDate(lib, rows), i);
    SortMember(SiteGroups(lib, rows)[g], ByDate(lib, rows), j);
    assert i in SiteRows(lib, rows, g);
  }

  function DateTextAt(lib: Library, rows: seq<Row>, i: nat): string
    requires i < |rows|
  {
    lib.textOf(Get(rows[i], "date"))
  }

  /** They come by date text, and rows of one date in table order. */
  lemma SiteRowsByDate(lib: Library, rows: seq<Row>, g: nat, p: nat, q: nat)
    requires g < |SiteGroups(lib, rows)| && p < q < |SiteRows(lib, rows, g)|
    ensures SiteRows(lib, rows, g)[p] < |rows| && SiteRows(lib, rows, g)[q] < |rows|
    ensures
      var i, j := SiteRows(lib, rows, g)[p], SiteRows(lib, rows, g)[q];
      TextLess(DateTextAt(lib, rows, i), DateTextAt(lib, rows, j)) || (DateTextAt(lib, rows, i) == DateTextAt(lib, rows, j) && i < j)
  {
    var group, le := SiteGroups(lib, rows)[g], ByDate(lib, rows);
    var key := GroupIsListed(lib, rows, g);
    ByDateIsPreorder(lib, rows);
    SortSorted(group, le);
    var i, j := Sort(group, le)[p], Sort(group, le)[q];
    SortMember(group, le, i);
    SortMember(group, le, j);
    assert i in Sort(group, le) && j in Sort(group, le) && le(i, j);
    LessIsNotGe(DateTextAt(lib, rows, i), DateTextAt(lib, rows, j));
    if le(j, i) {
      var c, d := StablePlaces(group, le, p, q);
      TextLeAntisymmetric(DateTextAt(lib, rows, i), DateTextAt(lib, rows, j));
    }
  }

  /*** Its features ***/

  /** The cell `k` rows earlier at the site, read as a number. */
  function CellBefore(lib: Library, rows: seq<Row>, site: seq<nat>, i: nat, k: nat, c: string): Cell
    requires i < |site| && InRows(site, |rows|)
  {
    if i < k then Null
    else
      match ValueAt(lib, rows[site[i - k]], c)
      case None => Null
      case Some(v) => Number(v)
  }

  /** Each lag column holds the value that many rows earlier at the site, in date order. */
  lemma LagColumns(lib: Library, rows: seq<Row>, columns: seq<string>, g: nat, i: nat, c: string)
    requires NoDup(columns) && NoClash(columns) && c in columns
    requires g < |SiteGroups(lib, rows)| && i < |SiteRows(lib, rows, g)|
    ensures InRows(SiteRows(lib, rows, g), |rows|)
    ensures var site := SiteRows(lib, rows, g);
            var row := TableFeatures(lib, rows, columns)[site[i]];
            && Get(row, c + "__lag_1") == CellBefore(lib, rows, site, i, 1, c)
            && Get(row, c + "__lag_7") == CellBefore(lib, rows, site, i, 7, c)
            && Get(row, c + "__lag_14") == CellBefore(lib, rows, site, i, 14, c)
            && Get(row, c + "__lag_28") == CellBefore(lib, rows, site, i, 28, c)
  {
    LagIsTheValueBefore(lib, rows, columns, g, i, c, Lag1);
    LagIsTheValueBefore(lib, rows, columns, g, i, c, Lag7);
    LagIsTheValueBefore(lib, rows, columns, g, i, c, Lag14);
    LagIsTheValueBefore(lib, rows, columns, g, i, c, Lag28);
  }

  lemma {:induction false} NonNullOfPast(lib: Library, rows: seq<Row>, ps: seq<nat>, c: string, values: seq<Option<real>>)
    requires InRows(ps, |rows|) && |values| == |ps| && forall k :: 0 <= k < |ps| ==> values[k] == ValueAt(lib, rows[ps[k]], c)
    ensures NonNull(values) == ValuesAt(lib, rows, c, ps)
    decreases |ps|
  {
    if ps != [] {
      var n, j := |ps| - 1, ps[|ps| - 1];
      NonNullOfPast(lib, rows, ps[..n], c, values[..n]);
      assert ps == ps[..n] + [j];
      ValuesAtOne(lib, rows, c, j);
      ValuesAtAppend(lib, rows, c, ps[..n], [j]);
    }
  }

  /** The values known in the at most 90 rows before, at the site. */
  function KnownBefore(lib: Library, rows: seq<Row>, site: seq<nat>, i: nat, c: string): seq<real>
    requires i < |site| && InRows(site, |rows|)
  {
    ValuesAt(lib, rows, c, site[if i < 90 then 0 else i - 90..i])
  }

  lemma KnownBeforeIs(lib: Library, rows: seq<Row>, site: seq<nat>, i: nat, c: string)
    requires i < |site| && Positions(site, |rows|)
    ensures InRows(site, |rows|) && NonNull(LastN(Past(lib, rows, site, i, c), 90)) == KnownBefore(lib, rows, site, i, c)
  {
    var ps := site[if i < 90 then 0 else i - 90..i];
    NonNullOfPast(lib, rows, ps, c, LastN(Past(lib, rows, site, i, c), 90));
  }

  function MeanOver(lib: Library, known: seq<real>, w: nat): Cell {
    if |known| < w then Null else Number(lib.mean(LastN(known, w)))
  }

  function StdOver(lib: Library, known: seq<real>, w: nat): Cell {
    if |known| < w then Null else Number(lib.std(LastN(known, w)))
  }

  lemma RollingColumn(lib: Library, rows: seq<Row>, columns: seq<string>, g: nat, i: nat, c: string, f: Feature)
    requires NoDup(columns) && NoClash(columns) && c in columns && !f.IsLag()
    requires g < |SiteGroups(lib, rows)| && i < |SiteRows(lib, rows, g)|
    ensures InRows(SiteRows(lib, rows, g), |rows|)
    ensures var site := SiteRows(lib, rows, g);
            var known := KnownBefore(lib, rows, site, i, c);
            Get(TableFeatures(lib, rows, columns)[site[i]], c + f.Suffix())
            == if f.Mean7? || f.Mean14? || f.Mean28? then MeanOver(lib, known, f.Span()) else StdOver(lib, known, f.Span())
  {
    TableHoldsFeatures(lib, rows, columns, g, i);
    var site := SiteRows(lib, rows, g);
    AmongFeatures(lib, rows, site, i, columns, TableFeatures(lib, rows, columns)[site[i]], c, f);
    KnownBeforeIs(lib, rows, site, i, c);
  }

  /** Each rolling column holds the mean or deviation of the last 7, 14 or 28 known values among those of the 90 rows before. */
  lemma RollingColumns(lib: Library, rows: seq<Row>, columns: seq<string>, g: nat, i: nat, c: string)
    requires NoDup(columns) && NoClash(columns) && c in columns
    requires g < |SiteGroups(lib, rows)| && i < |SiteRows(lib, rows, g)|
    ensures InRows(SiteRows(lib, rows, g), |rows|)
    ensures var site := SiteRows(lib, rows, g);
            var row, known := TableFeatures(lib, rows, columns)[site[i]], KnownBefore(lib, rows, site, i, c);
            && Get(row, c + "__rolling_mean_7") == MeanOver(lib, known, 7) && Get(row, c + "__rolling_std_7") == StdOver(lib, known, 7)
            && Get(row, c + "__rolling_mean_14") == MeanOver(lib, known, 14) && Get(row, c + "__rolling_std_14") == StdOver(lib, known, 14)
            && Get(row, c + "__rolling_mean_28") == MeanOver(lib, known, 28) && Get(row, c + "__rolling_std_28") == StdOver(lib, known, 28)
  {
    RollingColumn(lib, rows, columns, g, i, c, Mean7);
    RollingColumn(lib, rows, columns, g, i, c, Std7);
    RollingColumn(lib, rows, columns, g, i, c, Mean14);
    RollingColumn(lib, rows, columns, g, i, c, Std14);
    RollingColumn(lib, rows, columns, g, i, c, Mean28);
    RollingColumn(lib, rows, columns, g, i, c, Std28);
  }
}
