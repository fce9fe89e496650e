/** The quality pass as the pipeline runs it: rows are dictionaries in an array, changed in place. */
module SilverPass {
  import opened Wrappers
  import opened Sequences
  import opened InsertionMap
  import opened Cells
  import opened SilverQuality

  lemma PastRowsStep(rows: seq<Row>, indices: seq<nat>, current: nat, p: nat)
    requires p < |indices|
    ensures
      var before := PastRows(rows, indices[..p], current);
      PastRows(rows, indices[..p + 1], current)
      == if indices[p] < current && indices[p] < |rows| then before + [rows[indices[p]]] else before
  {
    assert indices[..p + 1][..p] == indices[..p];
  }

  lemma HistoryStep(lib: Library, past: seq<Row>, row: Row, column: string, today: int, sameDow: bool, windowDays: int)
    ensures
      var before := History(lib, past, column, today, sameDow, windowDays);
      History(lib, past + [row], column, today, sameDow, windowDays)
      == if InWindow(lib, row, today, sameDow, windowDays) && ValueAt(lib, row, column).Some?
         then before + [ValueAt(lib, row, column).value] else before
  {
    assert (past + [row])[..|past|] == past;
  }

  lemma KnownStep(lib: Library, past: seq<Row>, row: Row, column: string)
    ensures
      Known(lib, past + [row], column)
      == if ValueAt(lib, row, column).Some? then Known(lib, past, column) + [ValueAt(lib, row, column).value] else Known(lib, past, column)
  {
    assert (past + [row])[..|past|] == past;
  }

  /** What one more position adds to a history. */
  lemma HistoryGrows(lib: Library, rows: seq<Row>, indices: seq<nat>, current: nat, p: nat, column: string, today: int, sameDow: bool, windowDays: int)
    requires p < |indices| && indices[p] < |rows|
    ensures
      var row, before := rows[indices[p]], History(lib, PastRows(rows, indices[..p], current), column, today, sameDow, windowDays);
      History(lib, PastRows(rows, indices[..p + 1], current), column, today, sameDow, windowDays)
      == if indices[p] < current && InWindow(lib, row, today, sameDow, windowDays) && ValueAt(lib, row, column).Some?
         then before + [ValueAt(lib, row, column).value] else before
  {
    PastRowsStep(rows, indices, current, p);
    HistoryStep(lib, PastRows(rows, indices[..p], current), rows[indices[p]], column, today, sameDow, windowDays);
  }

  method CollectHierarchicalHistory(lib: Library, rows: array<Row>, current: nat, column: string, indices: seq<nat>, today: int,
                                    sameDow: bool, windowDays: int) returns (out: seq<real>)
    requires forall p :: 0 <= p < |indices| ==> indices[p] < rows.Length
    ensures out == History(lib, PastRows(rows[..], indices, current), column, today, sameDow, windowDays)
  {
    out := [];
    for p := 0 to |indices|
      invariant out == History(lib, PastRows(rows[..], indices[..p], current), column, today, sameDow, windowDays)
    {
      HistoryGrows(lib, rows[..], indices, current, p, column, today, sameDow, windowDays);
      var idx := indices[p];
      if idx >= current {
        continue;
      }
      var d := DayOf(lib, rows[idx]);
      if d.None? || d.value >= today || d.value < today - windowDays {
        continue;
      }
      if sameDow && Weekday(d.value) != Weekday(today) {
        continue;
      }
      var v := ValueAt(lib, rows[idx], column);
      if v.Some? {
        out := out + [v.value];
      }
    }
    assert indices[..|indices|] == indices;
  }

  method ClipPrediction(lib: Library, rows: array<Row>, current: nat, column: string, indices: seq<nat>, value: real) returns (clipped: real)
    requires forall p :: 0 <= p < |indices| ==> indices[p] < rows.Length
    ensures clipped == ClipToHistory(lib, PastRows(rows[..], indices, current), column, value)
  {
    var hist: seq<real> := [];
    for p := 0 to |indices|
      invariant hist == Known(lib, PastRows(rows[..], indices[..p], current), column)
    {
      PastRowsStep(rows[..], indices, current, p);
      var idx := indices[p];
      if idx >= current {
        continue;
      }
      KnownStep(lib, PastRows(rows[..], indices[..p], current), rows[idx], column);
      var v := ValueAt(lib, rows[idx], column);
      if v.Some? {
        hist := hist + [v.value];
      }
    }
    assert indices[..|indices|] == indices;
    if |hist| < 20 {
      return value;
    }
    return MaxR(lib.percentile(hist, 1.0), MinR(lib.percentile(hist, 99.0), value));
  }

  ghost predicate GroupsInTable(groups: Groups, size: nat) {
    && (forall k :: k in groups.sites.at ==> forall p :: 0 <= p < |groups.sites.at[k]| ==> groups.sites.at[k][p] < size)
    && (forall k :: k in groups.clients.at ==> forall p :: 0 <= p < |groups.clients.at[k]| ==> groups.clients.at[k][p] < size)
  }

  method HierarchicalMedianImpute(lib: Library, rows: array<Row>, current: nat, column: string, groups: Groups) returns (r: Option<real>)
    requires current < rows.Length && GroupsInTable(groups, rows.Length)
    ensures r == HierarchicalMedian(lib, rows[current], SitePast(lib, rows[..], current, groups), ClientPast(lib, rows[..], current, groups), column)
  {
    var row := rows[current];
    var today := DayOf(lib, row);
    if today.None? {
      return None;
    }
    var siteIndices := groups.sites.Get(SiteKeyOf(lib)(row)).GetOr([]);
    var sameDow := CollectHierarchicalHistory(lib, rows, current, column, siteIndices, today.value, true, 56);
    if |sameDow| > 0 {
      return Some(lib.median(sameDow));
    }
    var siteValues := CollectHierarchicalHistory(lib, rows, current, column, siteIndices, today.value, false, 56);
    if |siteValues| > 0 {
      return Some(lib.median(siteValues));
    }
    var clientIndices := groups.clients.Get(ClientOf(lib)(row)).GetOr([]);
    var clientValues := CollectHierarchicalHistory(lib, rows, current, column, clientIndices, today.value, false, 56);
    if |clientValues| > 0 {
      return Some(lib.median(clientValues));
    }
    return None;
  }

  method PredictQualityImputation(lib: Library, rows: array<Row>, current: nat, column: string, columns: seq<string>, groups: Groups,
                                  missingRate: real, mechanism: string) returns (r: Option<Prediction>)
    requires current < rows.Length && GroupsInTable(groups, rows.Length)
    ensures r == Predict(lib, rows[current], SitePast(lib, rows[..], current, groups), ClientPast(lib, rows[..], current, groups),
                         column, columns, RegimeOf(missingRate, mechanism))
  {
    if missingRate > 0.30 {
      return None;
    }
    var siteIndices := groups.sites.Get(SiteKeyOf(lib)(rows[current])).GetOr([]);
    if missingRate >= 0.05 || mechanism == "mar" {
      var ridge := CausalRidge(lib, rows[current], PastRows(rows[..], siteIndices, current), column, columns);
      if ridge.Some? {
        var clipped := ClipPrediction(lib, rows, current, column, siteIndices, ridge.value.0);
        return Some(Prediction(clipped, if ridge.value.1 >= 0.15 then "causal_ridge" else "causal_ridge_low_conf"));
      }
    }
    var median := HierarchicalMedianImpute(lib, rows, current, column, groups);
    if median.Some? {
      return Some(Prediction(median.value, "hierarchical_median"));
    }
    return None;
  }

  method ImputeQualityColumn(lib: Library, rows: array<Row>, column: string, columns: seq<string>, groups: Groups,
                             missingRate: real, mechanism: string) returns (imputed: nat, unresolved: nat)
    requires GroupsInTable(groups, rows.Length)
    modifies rows
    ensures rows[..] == Impute(lib, old(rows[..]), rows.Length, column, columns, groups, RegimeOf(missingRate, mechanism))
    ensures imputed + unresolved == MissingCount(lib, old(rows[..]), column)
    ensures unresolved == MissingCount(lib, rows[..], column)
  {
    imputed, unresolved := 0, 0;
    ghost var before, regime := rows[..], RegimeOf(missingRate, mechanism);
    for idx := 0 to rows.Length
      invariant rows[..] == Impute(lib, before, idx, column, columns, groups, regime)
      invariant forall j :: idx <= j < rows.Length ==> rows[j] == before[j]
      invariant imputed + unresolved == MissingCount(lib, before[..idx], column)
      invariant unresolved == MissingCount(lib, rows[..idx], column)
    {
      ghost var was := rows[..];
      OneMoreCounted(lib, before, idx, column);
      if ValueAt(lib, rows[idx], column).None? {
        var predicted := PredictQualityImputation(lib, rows, idx, column, columns, groups, missingRate, mechanism);
        if predicted.None? {
          unresolved := unresolved + 1;
        } else {
          ImputedCellReads(lib, rows[idx], column, predicted.value);
          rows[idx] := WithImputation(rows[idx], column, predicted.value);
          imputed := imputed + 1;
        }
      }
      assert rows[..idx] == was[..idx];
      OneMoreCounted(lib, rows[..], idx, column);
    }
    assert before[..rows.Length] == before && rows[..rows.Length] == rows[..];
  }

  lemma OneMoreCounted(lib: Library, rows: seq<Row>, idx: nat, column: string)
    requires idx < |rows|
    ensures MissingCount(lib, rows[..idx + 1], column)
         == MissingCount(lib, rows[..idx], column) + if ValueAt(lib, rows[idx], column).None? then 1 else 0
  {
    assert rows[..idx + 1][..idx] == rows[..idx];
  }

  lemma ImputedCellReads(lib: Library, row: Row, column: string, p: Prediction)
    ensures ValueAt(lib, WithImputation(row, column, p), column) == Some(p.value)
  {
    assert |Imputed(column)| != |column| && |ImputationMethod(column)| != |column|;
  }

  method ClampGroupOutliers(lib: Library, rows: array<Row>, column: string, indices: seq<nat>) returns (clamped: nat)
    requires forall p :: 0 <= p < |indices| ==> indices[p] < rows.Length
    modifies rows
    ensures (rows[..], clamped) == ClampGroup(lib, old(rows[..]), column, indices, [])
  {
    var rolling: seq<real> := [];
    clamped := 0;
    ghost var goal := ClampGroup(lib, rows[..], column, indices, []);
    assert indices[0..] == indices;
    for p := 0 to |indices|
      invariant forall q :: 0 <= q < |indices[p..]| ==> indices[p..][q] < |rows[..]|
      invariant var (out, n) := ClampGroup(lib, rows[..], column, indices[p..], rolling); goal == (out, clamped + n)
    {
      var idx := indices[p];
      assert indices[p..][0] == idx && indices[p..][1..] == indices[p + 1..];
      var value := ValueAt(lib, rows[idx], column);
      if value.None? {
        continue;
      }
      var (v, was) := ClampValue(lib, rolling, value.value);
      if was {
        ghost var before := rows[..];
        rows[idx] := WithClamp(rows[idx], column, v);
        assert rows[..] == before[idx := WithClamp(before[idx], column, v)];
        clamped := clamped + 1;
      }
      rolling := PushBounded(rolling, v, 56);
    }
  }

  method ClampQualityOutliers(lib: Library, rows: array<Row>, column: string, groups: seq<seq<nat>>) returns (clamped: nat)
    requires InTable(groups, rows.Length)
    modifies rows
    ensures (rows[..], clamped) == ClampGroups(lib, old(rows[..]), column, groups)
  {
    clamped := 0;
    ghost var goal := ClampGroups(lib, rows[..], column, groups);
    assert groups[0..] == groups;
    for g := 0 to |groups|
      invariant InTable(groups[g..], |rows[..]|)
      invariant var (out, n) := ClampGroups(lib, rows[..], column, groups[g..]); goal == (out, clamped + n)
    {
      assert groups[g..][0] == groups[g] && groups[g..][1..] == groups[g + 1..];
      assert InTable(groups[g + 1..], |rows[..]|);
      var n := ClampGroupOutliers(lib, rows, column, groups[g]);
      clamped := clamped + n;
    }
  }

  method SeedQualityColumnFlags(rows: array<Row>, column: string)
    modifies rows
    ensures rows[..] == Seed(old(rows[..]), column)
  {
    for i := 0 to rows.Length
      invariant forall j :: 0 <= j < i ==> rows[j] == SeedRow(old(rows[j]), column)
      invariant forall j :: i <= j < rows.Length ==> rows[j] == old(rows[j])
    {
      rows[i] := SeedRow(rows[i], column);
    }
  }

  lemma TableGroupsInTable(lib: Library, rows: seq<Row>)
    ensures GroupsInTable(GroupsOf(lib, rows), |rows|)
  {
    GroupByGroups(Map(rows, SiteKeyOf(lib)));
    GroupByGroups(Map(rows, ClientOf(lib)));
  }

  /** What is done to one column: seeding, imputation by the missing rate and mechanism met, clamping. */
  method ImproveColumn(lib: Library, rows: array<Row>, column: string, columns: seq<string>, groups: Groups)
    requires GroupsFit(groups, rows.Length) && GroupsInTable(groups, rows.Length)
    modifies rows
    ensures rows[..] == var seeded := Seed(old(rows[..]), column);
                        QualityColumn(lib, seeded, column, columns, groups, RegimeIn(lib, seeded, column))
  {
    SeedQualityColumnFlags(rows, column);
    var missingRate, mechanism := MissingRate(lib, rows[..], column), lib.mechanism(rows[..], column);
    var imputed, unresolved := ImputeQualityColumn(lib, rows, column, columns, groups, missingRate, mechanism);
    var clamped := ClampQualityOutliers(lib, rows, column, groups.sites.Values());
  }

  method ApplySilverQuality(lib: Library, table: seq<Row>, columns: seq<string>) returns (rows: array<Row>)
    ensures fresh(rows) && rows[..] == ApplyQuality(lib, table, columns)
  {
    var sorted := SortedRows(lib, table);
    rows := new Row[|sorted|](i requires 0 <= i < |sorted| => sorted[i]);
    assert rows[..] == sorted;
    var sites := GroupIndices(sorted, SiteKeyOf(lib));
    var clients := GroupIndices(sorted, ClientOf(lib));
    var groups := Groups(sites, clients);
    TableGroupsFit(lib, sorted);
    TableGroupsInTable(lib, sorted);
    for k := 0 to |columns|
      invariant rows.Length == |sorted|
      invariant QualityPass(lib, rows[..], columns, k, groups) == QualityPass(lib, sorted, columns, 0, groups)
    {
      ImproveColumn(lib, rows, columns[k], columns, groups);
    }
  }
}
