/** What the quality pass makes of a column, cell by cell: first the gaps, then the outliers of each site. */
module ColumnLaws {
  import opened Wrappers
  import opened Sequences
  import opened StableSort
  import opened InsertionMap
  import opened TextOrder
  import opened Cells
  import opened SilverQuality
  import opened ClampLaws
  import opened NoLookahead
  import opened ColumnTurns
  import opened MissingRateLaws
  import opened EarlierRows
  import opened ImputationLaws
  import opened GapLaws

  /*** Sites are clamped apart ***/

  lemma {:induction false} ClampReadsItsGroup(lib: Library, a: seq<Row>, b: seq<Row>, column: string, indices: seq<nat>, history: seq<real>, j: nat)
    requires |a| == |b| && (forall i :: 0 <= i < |indices| ==> indices[i] < |a| && a[indices[i]] == b[indices[i]]) && j < |a| && a[j] == b[j]
    ensures ClampGroup(lib, a, column, indices, history).0[j] == ClampGroup(lib, b, column, indices, history).0[j]
    decreases |indices|
  {
    if indices != [] {
      match ValueAt(lib, a[indices[0]], column) {
        case None => ClampReadsItsGroup(lib, a, b, column, indices[1..], history, j);
        case Some(v) =>
          var (c, was) := ClampValue(lib, history, v);
          var row := WithClamp(a[indices[0]], column, c);
          ClampReadsItsGroup(lib, if was then a[indices[0] := row] else a, if was then b[indices[0] := row] else b, column, indices[1..],
                             PushBounded(history, c, 56), j);
      }
    }
  }

  ghost predicate AgreeOn(a: seq<Row>, b: seq<Row>, groups: seq<seq<nat>>) {
    |a| == |b| && InTable(groups, |a|) && forall g :: 0 <= g < |groups| ==> forall q :: 0 <= q < |groups[g]| ==> a[groups[g][q]] == b[groups[g][q]]
  }

  lemma RestAgrees(lib: Library, now: seq<Row>, rows: seq<Row>, column: string, groups: seq<seq<nat>>)
    requires AgreeOn(now, rows, groups) && Separate(groups) && groups != []
    ensures AgreeOn(ClampGroup(lib, now, column, groups[0], []).0, rows, groups[1..]) && Separate(groups[1..])
  {
    var next := ClampGroup(lib, now, column, groups[0], []).0;
    forall h, q | 1 <= h < |groups| && 0 <= q < |groups[h]| ensures next[groups[h][q]] == rows[groups[h][q]] {
      assert groups[h][q] !in groups[0];
      ClampLeavesOthersAlone(lib, now, column, groups[0], [], groups[h][q]);
    }
  }

  lemma FirstGroupApart(lib: Library, now: seq<Row>, rows: seq<Row>, column: string, groups: seq<seq<nat>>, j: nat)
    requires AgreeOn(now, rows, groups) && Separate(groups) && groups != [] && j in groups[0]
    ensures j < |now| && ClampGroups(lib, now, column, groups).0[j] == ClampGroup(lib, rows, column, groups[0], []).0[j]
  {
    var q :| 0 <= q < |groups[0]| && groups[0][q] == j;
    ClampReadsItsGroup(lib, now, rows, column, groups[0], [], j);
    NotInLater(groups, j);
    RestAgrees(lib, now, rows, column, groups);
    GroupsLeaveOthersAlone(lib, ClampGroup(lib, now, column, groups[0], []).0, column, groups[1..], j);
  }

  lemma {:induction false} GroupsAreClampedApart(lib: Library, now: seq<Row>, rows: seq<Row>, column: string, groups: seq<seq<nat>>, g: nat, j: nat)
    requires AgreeOn(now, rows, groups) && Separate(groups) && g < |groups| && j in groups[g]
    ensures j < |now| && ClampGroups(lib, now, column, groups).0[j] == ClampGroup(lib, rows, column, groups[g], []).0[j]
    decreases |groups|
  {
    if g == 0 {
      FirstGroupApart(lib, now, rows, column, groups, j);
    } else {
      RestAgrees(lib, now, rows, column, groups);
      GroupsAreClampedApart(lib, ClampGroup(lib, now, column, groups[0], []).0, rows, column, groups[1..], g - 1, j);
    }
  }

  /** The group of a row: the rows of its site, in table order. */
  lemma GroupOfRow(lib: Library, rows: seq<Row>, i: nat) returns (g: nat)
    requires i < |rows|
    ensures g < |GroupsOf(lib, rows).sites.Values()|
    ensures var group := GroupsOf(lib, rows).sites.Values()[g];
            Ascending(group) && forall j: nat :: j in group <==> j < |rows| && SiteKeyOf(lib)(rows[j]) == SiteKeyOf(lib)(rows[i])
  {
    var keys := Map(rows, SiteKeyOf(lib));
    var sites := GroupBy(keys);
    GroupByGroups(keys);
    SiteGroupLists(lib, rows, keys[i]);
    Lists(sites);
    ListedOnce(sites.order, sites.at.Keys);
    g :| 0 <= g < |sites.order| && sites.order[g] == keys[i];
  }

  /** The members of an ascending list before one of them. */
  lemma PrefixIsPicked(group: seq<nat>, k: nat, ps: seq<nat>, p: nat -> bool)
    requires Ascending(group) && k < |group| && Picks(ps, group[k], p) && forall j: nat :: j in group && j < group[k] <==> p(j) && j < group[k]
    ensures group[..k] == ps
  {
    forall j: nat | j in ps ensures j in group[..k] {
      var q :| 0 <= q < |group| && group[q] == j;
      assert q < k;
    }
    forall j: nat | j in group[..k] ensures j in ps {
      assert j in group && j < group[k];
    }
    SameMembersSameList(group[..k], ps);
  }

  /** Clamping, row by row: each value becomes the nearest point of the band of the at most 56 outputs of its site before it. */
  lemma EachCellIsClamped(lib: Library, rows: seq<Row>, column: string, i: nat, ps: seq<nat>)
    requires i < |rows| && Picks(ps, i, EarlierOfSite(lib, rows, i)) && InRows(ps, i) && GroupsFit(GroupsOf(lib, rows), |rows|)
    ensures
      var out := ClampGroups(lib, rows, column, GroupsOf(lib, rows).sites.Values()).0;
      RowClampedTo(lib, rows[i], column, LastN(ValuesAt(lib, out, column, ps), 56), out[i])
  {
    var groups := GroupsOf(lib, rows).sites.Values();
    var out := ClampGroups(lib, rows, column, groups).0;
    var g := GroupOfRow(lib, rows, i);
    var group := groups[g];
    assert i in group;
    var k :| 0 <= k < |group| && group[k] == i;
    PrefixIsPicked(group, k, ps, EarlierOfSite(lib, rows, i));
    TableGroupsAreSeparate(Map(rows, SiteKeyOf(lib)));
    EachOutputIsNearest(lib, rows, column, group, k);
    var single := ClampGroup(lib, rows, column, group, []).0;
    forall q | 0 <= q <= k ensures out[group[q]] == single[group[q]] {
      assert group[q] in group;
      GroupsAreClampedApart(lib, rows, rows, column, groups, g, group[q]);
    }
    SameRowsSameValues(lib, out, single, column, ps);
  }

  /*** Before a turn ***/

  /** Seeding adds the three flags where they are missing, as not imputed, by no method, not clamped, and changes nothing else. */
  lemma SeedAddsFlags(row: Row, column: string, x: string)
    ensures var flags := map[column + "__imputed" := Flag(false), column + "__imputation_method" := Null, column + "__outlier_clamped" := Flag(false)];
            var seeded := SeedRow(row, column);
            && (x in seeded <==> x in row || x in flags)
            && (x in row ==> seeded[x] == row[x]) && (x !in row && x in flags ==> seeded[x] == flags[x])
  {
    SuffixesDiffer(column);
  }

  lemma SuffixesDiffer(column: string)
    ensures Imputed(column) != ImputationMethod(column) && Imputed(column) != Clamped(column) && ImputationMethod(column) != Clamped(column)
  {
    assert |Imputed(column)| == |column| + 9 && |ImputationMethod(column)| == |column| + 19 && |Clamped(column)| == |column| + 17;
  }

  /** The share of the rows in which the column has no value; none of an empty table. */
  lemma MissingRateIsShare(lib: Library, rows: seq<Row>, column: string, gaps: seq<nat>)
    requires Picks(gaps, |rows|, Gap(lib, rows, column))
    ensures rows != [] ==> MissingRate(lib, rows, column) == |gaps| as real / |rows| as real
    ensures rows == [] ==> MissingRate(lib, rows, column) == 0.0
  {
    MissingCountIs(lib, rows, column, gaps);
  }

  function Gap(lib: Library, rows: seq<Row>, column: string): nat -> bool {
    (j: nat) => j < |rows| && ValueAt(lib, rows[j], column).None?
  }

  lemma {:induction false} MissingCountIs(lib: Library, rows: seq<Row>, column: string, gaps: seq<nat>)
    requires Picks(gaps, |rows|, Gap(lib, rows, column))
    ensures MissingCount(lib, rows, column) == |gaps|
    decreases |rows|
  {
    if rows == [] {
      SameMembersSameList(gaps, []);
    } else {
      var n := |rows| - 1;
      var fewer := PicksExist(n, Gap(lib, rows[..n], column));
      MissingCountIs(lib, rows[..n], column, fewer);
      OneMoreGap(lib, rows, column, fewer);
      PicksAreUnique(if Gap(lib, rows, column)(n) then fewer + [n] else fewer, gaps, |rows|, Gap(lib, rows, column));
    }
  }

  lemma OneMoreGap(lib: Library, rows: seq<Row>, column: string, fewer: seq<nat>)
    requires rows != [] && Picks(fewer, |rows| - 1, Gap(lib, rows[..|rows| - 1], column))
    ensures Picks(if Gap(lib, rows, column)(|rows| - 1) then fewer + [|rows| - 1] else fewer, |rows|, Gap(lib, rows, column))
  {
    var n := |rows| - 1;
    PicksBelow(fewer, n, Gap(lib, rows[..n], column));
    forall j: nat | j < n ensures Gap(lib, rows, column)(j) == Gap(lib, rows[..n], column)(j) {
    }
  }

  /** The first row comes before the second: by client, then site code, then date text. */
  ghost predicate SortsBefore(lib: Library, a: Row, b: Row) {
    var c, d := lib.textOf(Get(a, "client_slug")), lib.textOf(Get(b, "client_slug"));
    var s, t := lib.textOf(Get(a, "site_code")), lib.textOf(Get(b, "site_code"));
    var u, v := lib.textOf(Get(a, "date")), lib.textOf(Get(b, "date"));
    TextLess(c, d) || (c == d && TextLess(s, t)) || (c == d && s == t && TextLess(u, v))
  }

  ghost predicate SameSortKey(lib: Library, a: Row, b: Row) {
    forall key :: key in {"client_slug", "site_code", "date"} ==> lib.textOf(Get(a, key)) == lib.textOf(Get(b, key))
  }

  /** The pass works on the rows of the table, each once, sorted by client, site and date; equal ones stay in order. */
  lemma TableIsSorted(lib: Library, table: seq<Row>, i: nat, j: nat)
    requires i < j < |table|
    ensures multiset(SortedRows(lib, table)) == multiset(table)
    ensures var rows := SortedRows(lib, table);
            SortsBefore(lib, rows[i], rows[j])
            || (SameSortKey(lib, rows[i], rows[j])
                && exists c, d :: 0 <= c < d < |table| && table[c] == rows[i] && table[d] == rows[j])
  {
    RowOrderIsPreorder(lib);
    SortSorted(table, ByRowOrder(lib));
    var rows := SortedRows(lib, table);
    if RowOrder(lib, rows[j], rows[i]) {
      var c, d := StablePlaces(table, ByRowOrder(lib), i, j);
      TiedRows(lib, rows[i], rows[j]);
    } else {
      StrictRows(lib, rows[i], rows[j]);
    }
  }

  lemma TiedRows(lib: Library, a: Row, b: Row)
    requires RowOrder(lib, a, b) && RowOrder(lib, b, a)
    ensures SameSortKey(lib, a, b)
  {
    TextLeAntisymmetricIf(SiteKeyOf(lib)(a).0, SiteKeyOf(lib)(b).0);
    TextLeAntisymmetricIf(SiteKeyOf(lib)(a).1, SiteKeyOf(lib)(b).1);
    TextLeAntisymmetricIf(DateText(lib, a), DateText(lib, b));
  }

  lemma TextLeAntisymmetricIf(s: string, t: string)
    ensures TextLe(s, t) && TextLe(t, s) ==> s == t
  {
    if TextLe(s, t) && TextLe(t, s) {
      TextLeAntisymmetric(s, t);
    }
  }

  lemma StrictRows(lib: Library, a: Row, b: Row)
    requires RowOrder(lib, a, b) && !RowOrder(lib, b, a)
    ensures SortsBefore(lib, a, b)
  {
    LessIsNotGe(DateText(lib, a), DateText(lib, b));
  }

  /*** A turn ***/

  /** Known values stay, and each gap becomes what the rows before it, as they have become, make of it. */
  ghost predicate GapsFilled(lib: Library, rows: seq<Row>, filled: seq<Row>, column: string, columns: seq<string>, rate: real, mechanism: string) {
    && |filled| == |rows|
    && forall i :: 0 <= i < |rows| ==>
         if ValueAt(lib, rows[i], column).Some? then filled[i] == rows[i]
         else GapBecomes(lib, filled[..i] + rows[i..], i, column, columns, rate, mechanism, filled[i])
  }

  /** Each value becomes the nearest point of the band of the at most 56 values before it at its site, as they have become. */
  ghost predicate OutliersClamped(lib: Library, rows: seq<Row>, clamped: seq<Row>, column: string) {
    && |clamped| == |rows|
    && forall i, ps :: 0 <= i < |rows| && InRows(ps, i) && Picks(ps, i, EarlierOfSite(lib, rows, i)) ==>
         RowClampedTo(lib, rows[i], column, LastN(ValuesAt(lib, clamped, column, ps), 56), clamped[i])
  }

  lemma ImputeFillsGaps(lib: Library, rows: seq<Row>, column: string, columns: seq<string>, rate: real, mechanism: string)
    requires IsMetric(column) && NoDup(columns)
    ensures GapsFilled(lib, rows, Impute(lib, rows, |rows|, column, columns, GroupsOf(lib, rows), RegimeOf(rate, mechanism)), column, columns,
                       rate, mechanism)
  {
    forall i: nat | i < |rows| {
      EachRowBecomes(lib, rows, column, columns, rate, mechanism, i);
    }
  }

  lemma ClampsOutliers(lib: Library, rows: seq<Row>, column: string)
    requires GroupsFit(GroupsOf(lib, rows), |rows|)
    ensures OutliersClamped(lib, rows, ClampGroups(lib, rows, column, GroupsOf(lib, rows).sites.Values()).0, column)
  {
    forall i: nat, ps | i < |rows| && InRows(ps, i) && Picks(ps, i, EarlierOfSite(lib, rows, i)) {
      EachCellIsClamped(lib, rows, column, i, ps);
    }
  }

  /** The turn of a column, on the table with its flags seeded. */
  lemma TurnFillsAndClamps(lib: Library, rows: seq<Row>, column: string, columns: seq<string>) returns (filled: seq<Row>)
    requires IsMetric(column) && NoDup(columns) && GroupsFit(GroupsOf(lib, rows), |rows|)
    ensures
      var start := Seed(rows, column);
      && GapsFilled(lib, start, filled, column, columns, MissingRate(lib, start, column), lib.mechanism(start, column))
      && OutliersClamped(lib, filled, Turn(lib, rows, column, columns, GroupsOf(lib, rows)), column)
  {
    var start, groups := Seed(rows, column), GroupsOf(lib, rows);
    SeedKeepsCells(rows, column, column);
    SameGroups(lib, rows, start);
    filled := Impute(lib, start, |start|, column, columns, groups, RegimeIn(lib, start, column));
    ImputeFillsGaps(lib, start, column, columns, MissingRate(lib, start, column), lib.mechanism(start, column));
    ImputeKeepsKeys(lib, start, |start|, column, columns, groups, RegimeIn(lib, start, column));
    SameGroups(lib, start, filled);
    ClampsOutliers(lib, filled, column);
  }

  /*** The pass ***/

  /**
   The whole pass, for any column whose cells no other column writes. Its turn finds its cells as they were in
   the sorted table; its gaps are filled, its outliers clamped, and nothing changes its cells afterwards.
   */
  lemma PassFillsAndClamps(lib: Library, table: seq<Row>, columns: seq<string>, k: nat)
    returns (start: seq<Row>, filled: seq<Row>, clamped: seq<Row>)
    requires k < |columns| && NoDup(columns) && OthersSpare(columns, k) && forall c :: 0 <= c < |columns| ==> IsMetric(columns[c])
    ensures SameCells(SortedRows(lib, table), start, columns[k])
    ensures GapsFilled(lib, start, filled, columns[k], columns, MissingRate(lib, table, columns[k]), lib.mechanism(start, columns[k]))
    ensures OutliersClamped(lib, filled, clamped, columns[k])
    ensures SameCells(clamped, ApplyQuality(lib, table, columns), columns[k])
  {
    var rows := SortedRows(lib, table);
    TableGroupsFit(lib, rows);
    var groups := GroupsOf(lib, rows);
    var at := TurnOf(lib, rows, columns, k, groups);
    SameGroups(lib, rows, at);
    start := Seed(at, columns[k]);
    SeedKeepsCells(at, columns[k], columns[k]);
    SameCellsInTurn(rows, at, start, columns[k]);
    SortKeepsRate(lib, table, columns[k]);
    SameCellsSameRate(lib, rows, start, columns[k]);
    filled := TurnFillsAndClamps(lib, at, columns[k], columns);
    clamped := Turn(lib, at, columns[k], columns, groups);
    NextPass(lib, at, columns, k, groups);
    TurnsSpare(lib, clamped, columns, k + 1, groups, columns[k]);
  }
}
