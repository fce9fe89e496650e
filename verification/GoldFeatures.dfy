/** Lag and rolling-window features of the gold table, computed from a bounded history. */
module GoldFeatures {
  import opened Wrappers
  import opened Sequences
  import opened StableSort
  import opened InsertionMap
  import opened TextOrder
  import opened Cells

  datatype Feature = Lag1 | Lag7 | Lag14 | Lag28 | Mean7 | Std7 | Mean14 | Std14 | Mean28 | Std28 {
    function Suffix(): string {
      match this
      case Lag1 => "__lag_1"
      case Lag7 => "__lag_7"
      case Lag14 => "__lag_14"
      case Lag28 => "__lag_28"
      case Mean7 => "__rolling_mean_7"
      case Std7 => "__rolling_std_7"
      case Mean14 => "__rolling_mean_14"
      case Std14 => "__rolling_std_14"
      case Mean28 => "__rolling_mean_28"
      case Std28 => "__rolling_std_28"
    }

    predicate IsLag() { Lag1? || Lag7? || Lag14? || Lag28? }

    /** The lag, or the length of the rolling window. */
    function Span(): nat {
      match this
      case Lag1 => 1
      case Lag7 => 7
      case Lag14 => 14
      case Lag28 => 28
      case Mean7 => 7
      case Std7 => 7
      case Mean14 => 14
      case Std14 => 14
      case Mean28 => 28
      case Std28 => 28
    }
  }

  /** In the order in which a row receives them. */
  const FEATURES: seq<Feature> := [Lag1, Lag7, Lag14, Lag28, Mean7, Std7, Mean14, Std14, Mean28, Std28]

  function Name(column: string, f: Feature): string {
    column + f.Suffix()
  }

  function CellOf(v: Option<real>): Cell {
    match v
    case None => Null
    case Some(r) => Number(r)
  }

  function NonNull(values: seq<Option<real>>): seq<real> {
    if values == [] then []
    else NonNull(values[..|values| - 1]) + match values[|values| - 1] case Some(v) => [v] case None => []
  }

  /** The value of a feature, given the values of the column in the rows before. */
  function FeatureCell(lib: Library, history: seq<Option<real>>, f: Feature): Cell {
    var known := NonNull(history);
    if f.IsLag() then if |history| >= f.Span() then CellOf(history[|history| - f.Span()]) else Null
    else if |known| < f.Span() then Null
    else Number(if f.Mean7? || f.Mean14? || f.Mean28? then lib.mean(LastN(known, f.Span())) else lib.std(LastN(known, f.Span())))
  }

  /** A row with the first `n` features of a column written. */
  function Written(lib: Library, row: Row, column: string, history: seq<Option<real>>, n: nat): Row
    requires n <= 10
  {
    if n == 0 then row
    else Written(lib, row, column, history, n - 1)[Name(column, FEATURES[n - 1]) := FeatureCell(lib, history, FEATURES[n - 1])]
  }

  type Histories = map<string, seq<Option<real>>>

  function HistoryOf(h: Histories, column: string): seq<Option<real>> {
    if column in h then h[column] else []
  }

  /** A row with the features of the first `n` columns written. */
  function WithFeatures(lib: Library, row: Row, columns: seq<string>, h: Histories, n: nat): Row
    requires n <= |columns|
  {
    if n == 0 then row
    else Written(lib, WithFeatures(lib, row, columns, h, n - 1), columns[n - 1], HistoryOf(h, columns[n - 1]), 10)
  }

  /** The histories after the row's own values of the first `n` columns have been appended. */
  function Appended(lib: Library, row: Row, columns: seq<string>, h: Histories, n: nat): Histories
    requires n <= |columns|
  {
    if n == 0 then h
    else
      var before := Appended(lib, row, columns, h, n - 1);
      before[columns[n - 1] := PushBounded(HistoryOf(before, columns[n - 1]), ValueAt(lib, row, columns[n - 1]), 90)]
  }

  /** A group from its `p`-th member on. */
  function GroupRun(lib: Library, rows: seq<Row>, members: seq<nat>, p: nat, columns: seq<string>, h: Histories): (out: seq<Row>)
    requires p <= |members| && forall q :: 0 <= q < |members| ==> members[q] < |rows|
    ensures |out| == |rows|
    decreases |members| - p
  {
    if p == |members| then rows
    else
      var row := WithFeatures(lib, rows[members[p]], columns, h, |columns|);
      GroupRun(lib, rows[members[p] := row], members, p + 1, columns, Appended(lib, row, columns, h, |columns|))
  }

  function DateAt(lib: Library, rows: seq<Row>, i: nat): string {
    if i < |rows| then DateText(lib, rows[i]) else ""
  }

  function ByDate(lib: Library, rows: seq<Row>): (nat, nat) -> bool {
    (i: nat, j: nat) => TextLe(DateAt(lib, rows, i), DateAt(lib, rows, j))
  }

  /** `group_rows.sort(key=date)`, on positions. */
  function Members(lib: Library, rows: seq<Row>, group: seq<nat>): seq<nat> {
    Sort(group, ByDate(lib, rows))
  }

  lemma MembersInTable(lib: Library, rows: seq<Row>, group: seq<nat>)
    requires forall q :: 0 <= q < |group| ==> group[q] < |rows|
    ensures forall q :: 0 <= q < |Members(lib, rows, group)| ==> Members(lib, rows, group)[q] < |rows|
    ensures forall j :: j in Members(lib, rows, group) <==> j in group
  {
    forall j: nat ensures j in Members(lib, rows, group) <==> j in group {
      SortMember(group, ByDate(lib, rows), j);
    }
    forall q | 0 <= q < |Members(lib, rows, group)| ensures Members(lib, rows, group)[q] < |rows| {
      assert Members(lib, rows, group)[q] in group;
    }
  }

  function GroupFeatures(lib: Library, rows: seq<Row>, group: seq<nat>, columns: seq<string>): (out: seq<Row>)
    requires forall q :: 0 <= q < |group| ==> group[q] < |rows|
    ensures |out| == |rows|
  {
    MembersInTable(lib, rows, group);
    GroupRun(lib, rows, Members(lib, rows, group), 0, columns, map[])
  }

  function GroupsRun(lib: Library, rows: seq<Row>, groups: seq<seq<nat>>, columns: seq<string>): (out: seq<Row>)
    requires InTable(groups, |rows|)
    ensures |out| == |rows|
    decreases |groups|
  {
    if groups == [] then rows
    else GroupsRun(lib, GroupFeatures(lib, rows, groups[0], columns), groups[1..], columns)
  }

  function SiteGroups(lib: Library, rows: seq<Row>): seq<seq<nat>> {
    GroupBy(Map(rows, SiteKeyOf(lib))).Values()
  }

  /** `add_lag_rolling_features`. */
  function TableFeatures(lib: Library, rows: seq<Row>, columns: seq<string>): (out: seq<Row>)
    ensures |out| == |rows|
  {
    TableGroupsAreSeparate(Map(rows, SiteKeyOf(lib)));
    GroupsRun(lib, rows, SiteGroups(lib, rows), columns)
  }

  /*** The same, in place ***/

  const LAGS: seq<nat> := [1, 7, 14, 28]
  const WINDOWS: seq<nat> := [7, 14, 28]
  const MEANS: seq<Feature> := [Mean7, Mean14, Mean28]
  const STDS: seq<Feature> := [Std7, Std14, Std28]

  method ApplyLagValues(lib: Library, rows: array<Row>, i: nat, column: string, history: seq<Option<real>>)
    requires i < rows.Length
    modifies rows
    ensures rows[..] == old(rows[..])[i := Written(lib, old(rows[i]), column, history, 4)]
  {
    for k := 0 to |LAGS|
      invariant rows[..] == old(rows[..])[i := Written(lib, old(rows[i]), column, history, k)]
    {
      var lag, f := LAGS[k], FEATURES[k];
      assert f.IsLag() && f.Span() == lag;
      var value := if |history| >= lag then CellOf(history[|history| - lag]) else Null;
      rows[i] := rows[i][Name(column, f) := value];
    }
  }

  lemma RollingCells(lib: Library, history: seq<Option<real>>, k: nat)
    requires k < 3
    ensures var known, window := NonNull(history), WINDOWS[k];
            && FeatureCell(lib, history, MEANS[k]) == (if |known| >= window then Number(lib.mean(LastN(known, window))) else Null)
            && FeatureCell(lib, history, STDS[k]) == (if |known| >= window then Number(lib.std(LastN(known, window))) else Null)
  {
    assert MEANS[k].Span() == STDS[k].Span() == WINDOWS[k] && !MEANS[k].IsLag() && !STDS[k].IsLag();
  }

  method ApplyRollingValues(lib: Library, rows: array<Row>, i: nat, column: string, history: seq<Option<real>>)
    requires i < rows.Length
    modifies rows
    ensures rows[..] == old(rows[..])[i := Rolled(lib, old(rows[i]), column, history, 3)]
  {
    var known := NonNull(history);
    for k := 0 to |WINDOWS|
      invariant rows[..] == old(rows[..])[i := Rolled(lib, old(rows[i]), column, history, k)]
    {
      var window := WINDOWS[k];
      RollingCells(lib, history, k);
      var mean, std := Null, Null;
      if |known| >= window {
        var segment := LastN(known, window);
        mean, std := Number(lib.mean(segment)), Number(lib.std(segment));
      }
      rows[i] := rows[i][Name(column, MEANS[k]) := mean][Name(column, STDS[k]) := std];
    }
  }

  /** A row with the features of the first `k` windows written on top. */
  function Rolled(lib: Library, row: Row, column: string, history: seq<Option<real>>, k: nat): Row
    requires k <= 3
  {
    if k == 0 then row
    else
      var before := Rolled(lib, row, column, history, k - 1);
      var mean, std := MEANS[k - 1], STDS[k - 1];
      before[Name(column, mean) := FeatureCell(lib, history, mean)][Name(column, std) := FeatureCell(lib, history, std)]
  }

  lemma LagsThenWindows(lib: Library, row: Row, column: string, history: seq<Option<real>>)
    ensures Rolled(lib, Written(lib, row, column, history, 4), column, history, 3) == Written(lib, row, column, history, 10)
  {
    var start := Written(lib, row, column, history, 4);
    assert Rolled(lib, start, column, history, 1) == Written(lib, row, column, history, 6) by {
      assert Written(lib, row, column, history, 5) == start[Name(column, FEATURES[4]) := FeatureCell(lib, history, FEATURES[4])];
    }
    assert Rolled(lib, start, column, history, 2) == Written(lib, row, column, history, 8) by {
      assert Written(lib, row, column, history, 7)
          == Written(lib, row, column, history, 6)[Name(column, FEATURES[6]) := FeatureCell(lib, history, FEATURES[6])];
    }
    assert Written(lib, row, column, history, 9)
        == Written(lib, row, column, history, 8)[Name(column, FEATURES[8]) := FeatureCell(lib, history, FEATURES[8])];
  }

  /** The second loop of `_apply_lag_rolling_features_for_row`. */
  method AppendRowValues(lib: Library, row: Row, columns: seq<string>, histories: Histories) returns (after: Histories)
    ensures after == Appended(lib, row, columns, histories, |columns|)
  {
    after := histories;
    for c := 0 to |columns|
      invariant after == Appended(lib, row, columns, histories, c)
    {
      after := after[columns[c] := PushBounded(HistoryOf(after, columns[c]), ValueAt(lib, row, columns[c]), 90)];
    }
  }

  method ApplyFeaturesForRow(lib: Library, rows: array<Row>, i: nat, columns: seq<string>, histories: Histories) returns (after: Histories)
    requires i < rows.Length
    modifies rows
    ensures rows[..] == old(rows[..])[i := WithFeatures(lib, old(rows[i]), columns, histories, |columns|)]
    ensures after == Appended(lib, rows[i], columns, histories, |columns|)
  {
    for c := 0 to |columns|
      invariant rows[..] == old(rows[..])[i := WithFeatures(lib, old(rows[i]), columns, histories, c)]
    {
      var history := HistoryOf(histories, columns[c]);
      LagsThenWindows(lib, rows[i], columns[c], history);
      ApplyLagValues(lib, rows, i, columns[c], history);
      ApplyRollingValues(lib, rows, i, columns[c], history);
    }
    after := AppendRowValues(lib, rows[i], columns, histories);
  }

  method ApplyToGroup(lib: Library, rows: array<Row>, group: seq<nat>, columns: seq<string>)
    requires forall q :: 0 <= q < |group| ==> group[q] < rows.Length
    modifies rows
    ensures rows[..] == GroupFeatures(lib, old(rows[..]), group, columns)
  {
    var members := Members(lib, rows[..], group);
    MembersInTable(lib, rows[..], group);
    var histories: Histories := map[];
    ghost var goal := GroupRun(lib, rows[..], members, 0, columns, histories);
    for p := 0 to |members|
      invariant goal == GroupRun(lib, rows[..], members, p, columns, histories)
    {
      histories := ApplyFeaturesForRow(lib, rows, members[p], columns, histories);
    }
  }

  method AddLagRollingFeatures(lib: Library, rows: array<Row>, columns: seq<string>)
    modifies rows
    ensures rows[..] == TableFeatures(lib, old(rows[..]), columns)
  {
    TableGroupsAreSeparate(Map(rows[..], SiteKeyOf(lib)));
    var sites := GroupIndices(rows[..], SiteKeyOf(lib));
    var groups := sites.Values();
    ghost var goal := GroupsRun(lib, rows[..], groups, columns);
    assert groups[0..] == groups;
    for g := 0 to |groups|
      invariant InTable(groups[g..], |rows[..]|)
      invariant goal == GroupsRun(lib, rows[..], groups[g..], columns)
    {
      assert groups[g..][0] == groups[g] && groups[g..][1..] == groups[g + 1..];
      assert InTable(groups[g + 1..], |rows[..]|);
      ApplyToGroup(lib, rows, groups[g], columns);
    }
  }
}
