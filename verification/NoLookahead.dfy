/**
 No lookahead: what the quality pass writes into rows dated before a cut depends only on rows dated
 before the cut, as long as the whole-table statistics select the same regime for each column.
 */
module NoLookahead {
  import opened Wrappers
  import opened Sequences
  import opened StableSort
  import opened InsertionMap
  import opened TextOrder
  import opened Cells
  import opened SilverQuality

  predicate Before(lib: Library, row: Row, cut: string) {
    TextLess(DateText(lib, row), cut)
  }

  /** Two tables with the same row keys that agree on every row dated before the cut. */
  ghost predicate AgreeBefore(lib: Library, a: seq<Row>, b: seq<Row>, cut: string) {
    && SameKeysThroughout(a, b)
    && forall i :: 0 <= i < |a| && Before(lib, a[i], cut) ==> a[i] == b[i]
  }

  /** An earlier parsed day has a smaller text: true of ISO dates, false of mixed formats. */
  ghost predicate DatesInOrder(lib: Library, rows: seq<Row>) {
    forall i, j :: 0 <= i < |rows| && 0 <= j < |rows| && DayOf(lib, rows[i]).Some? && DayOf(lib, rows[j]).Some?
                   && DayOf(lib, rows[i]).value < DayOf(lib, rows[j]).value
                   ==> TextLess(DateText(lib, rows[i]), DateText(lib, rows[j]))
  }

  /** The table in processing order, with its groups. */
  ghost predicate Prepared(lib: Library, rows: seq<Row>, groups: Groups) {
    Sorted(rows, ByRowOrder(lib)) && DatesInOrder(lib, rows) && groups == GroupsOf(lib, rows)
  }

  /** All of this depends on the key columns only. */
  lemma PreparedCarries(lib: Library, a: seq<Row>, b: seq<Row>, groups: Groups)
    requires Prepared(lib, a, groups) && SameKeysThroughout(a, b)
    ensures Prepared(lib, b, groups)
  {
    SameGroups(lib, a, b);
    DatesCarry(lib, a, b);
    OrderCarries(lib, a, b);
  }

  lemma OrderCarries(lib: Library, a: seq<Row>, b: seq<Row>)
    requires Sorted(a, ByRowOrder(lib)) && SameKeysThroughout(a, b)
    ensures Sorted(b, ByRowOrder(lib))
  {
    forall i, j | 0 <= i < j < |b| ensures ByRowOrder(lib)(b[i], b[j]) {
      assert SameKeys(a[i], b[i]) && SameKeys(a[j], b[j]);
      assert ByRowOrder(lib)(a[i], a[j]);
    }
  }

  lemma SameGroups(lib: Library, a: seq<Row>, b: seq<Row>)
    requires SameKeysThroughout(a, b)
    ensures GroupsOf(lib, a) == GroupsOf(lib, b)
  {
    assert Map(a, SiteKeyOf(lib)) == Map(b, SiteKeyOf(lib));
    assert Map(a, ClientOf(lib)) == Map(b, ClientOf(lib));
  }

  lemma DatesCarry(lib: Library, a: seq<Row>, b: seq<Row>)
    requires DatesInOrder(lib, a) && SameKeysThroughout(a, b)
    ensures DatesInOrder(lib, b)
  {
    forall i, j | 0 <= i < |b| && 0 <= j < |b| && DayOf(lib, b[i]).Some? && DayOf(lib, b[j]).Some?
                  && DayOf(lib, b[i]).value < DayOf(lib, b[j]).value
      ensures TextLess(DateText(lib, b[i]), DateText(lib, b[j]))
    {
      assert SameKeys(a[i], b[i]) && SameKeys(a[j], b[j]);
    }
  }

  lemma SitePositions(lib: Library, rows: seq<Row>, groups: Groups, i: nat)
    requires Prepared(lib, rows, groups) && i < |rows|
    ensures
      var site := groups.sites.Get(SiteKeyOf(lib)(rows[i])).GetOr([]);
      forall p :: 0 <= p < |site| ==> site[p] < |rows| && SiteKeyOf(lib)(rows[site[p]]) == SiteKeyOf(lib)(rows[i])
  {
    GroupByGroups(Map(rows, SiteKeyOf(lib)));
    assert Map(rows, SiteKeyOf(lib))[i] == SiteKeyOf(lib)(rows[i]);
  }

  /** Within a site, earlier positions have earlier dates. */
  lemma EarlierInSite(lib: Library, rows: seq<Row>, i: nat, j: nat)
    requires Sorted(rows, ByRowOrder(lib)) && j < i < |rows| && SiteKeyOf(lib)(rows[i]) == SiteKeyOf(lib)(rows[j])
    ensures TextLe(DateText(lib, rows[j]), DateText(lib, rows[i]))
  {
    assert ByRowOrder(lib)(rows[j], rows[i]);
  }

  lemma {:induction false} SamePastRows(a: seq<Row>, b: seq<Row>, indices: seq<nat>, i: nat)
    requires |a| == |b|
    requires forall p :: 0 <= p < |indices| && indices[p] < i && indices[p] < |a| ==> a[indices[p]] == b[indices[p]]
    ensures PastRows(a, indices, i) == PastRows(b, indices, i)
  {
    if indices != [] {
      SamePastRows(a, b, indices[..|indices| - 1], i);
    }
  }

  /** A row before the cut sees the same site history in both tables. */
  lemma SameSitePast(lib: Library, a: seq<Row>, b: seq<Row>, cut: string, groups: Groups, i: nat)
    requires Prepared(lib, a, groups) && AgreeBefore(lib, a, b, cut) && i < |a| && Before(lib, a[i], cut)
    ensures SitePast(lib, a, i, groups) == SitePast(lib, b, i, groups)
  {
    var site := groups.sites.Get(SiteKeyOf(lib)(a[i])).GetOr([]);
    SitePositions(lib, a, groups, i);
    forall p | 0 <= p < |site| && site[p] < i ensures a[site[p]] == b[site[p]] {
      EarlierInSite(lib, a, i, site[p]);
      LeThenLess(DateText(lib, a[site[p]]), DateText(lib, a[i]), cut);
    }
    SamePastRows(a, b, site, i);
  }

  /** Histories that may differ, but only in rows dated `today` or later. */
  ghost predicate PastAgrees(lib: Library, a: seq<Row>, b: seq<Row>, today: int) {
    |a| == |b|
    && forall k :: 0 <= k < |a| ==> SameKeys(a[k], b[k]) && (DayOf(lib, a[k]).Some? && DayOf(lib, a[k]).value < today ==> a[k] == b[k])
  }

  lemma {:induction false} ClientPastAgrees(lib: Library, a: seq<Row>, b: seq<Row>, indices: seq<nat>, i: nat, today: int)
    requires PastAgrees(lib, a, b, today)
    ensures PastAgrees(lib, PastRows(a, indices, i), PastRows(b, indices, i), today)
  {
    if indices != [] {
      ClientPastAgrees(lib, a, b, indices[..|indices| - 1], i, today);
    }
  }

  lemma {:induction false} SameHistory(lib: Library, a: seq<Row>, b: seq<Row>, column: string, today: int, sameDow: bool, windowDays: int)
    requires PastAgrees(lib, a, b, today)
    ensures History(lib, a, column, today, sameDow, windowDays) == History(lib, b, column, today, sameDow, windowDays)
  {
    if a != [] {
      SameHistory(lib, a[..|a| - 1], b[..|b| - 1], column, today, sameDow, windowDays);
      assert SameKeys(a[|a| - 1], b[|b| - 1]);
    }
  }

  /** In both tables, the rows of days before that of a row before the cut are the same. */
  lemma EarlierDaysAgree(lib: Library, a: seq<Row>, b: seq<Row>, cut: string, i: nat)
    requires DatesInOrder(lib, a) && AgreeBefore(lib, a, b, cut) && i < |a| && Before(lib, a[i], cut) && DayOf(lib, a[i]).Some?
    ensures PastAgrees(lib, a, b, DayOf(lib, a[i]).value)
  {
    forall k | 0 <= k < |a| && DayOf(lib, a[k]).Some? && DayOf(lib, a[k]).value < DayOf(lib, a[i]).value ensures a[k] == b[k] {
      LeThenLess(DateText(lib, a[k]), DateText(lib, a[i]), cut);
    }
  }

  /** A row before the cut gets the same estimate in both tables. */
  lemma SameImputedRow(lib: Library, a: seq<Row>, b: seq<Row>, cut: string, groups: Groups, i: nat, column: string,
                       columns: seq<string>, regime: Regime)
    requires Prepared(lib, a, groups) && AgreeBefore(lib, a, b, cut) && i < |a| && Before(lib, a[i], cut)
    ensures ImputedRow(lib, a, i, column, columns, groups, regime) == ImputedRow(lib, b, i, column, columns, groups, regime)
  {
    var pa, pb := ClientPast(lib, a, i, groups), ClientPast(lib, b, i, groups);
    assert a[i] == b[i];
    assert SitePast(lib, a, i, groups) == SitePast(lib, b, i, groups) by {
      SameSitePast(lib, a, b, cut, groups, i);
    }
    assert HierarchicalMedian(lib, a[i], SitePast(lib, a, i, groups), pa, column)
        == HierarchicalMedian(lib, a[i], SitePast(lib, a, i, groups), pb, column) by {
      SameMedian(lib, a, b, cut, groups, i, column);
    }
    SamePrediction(lib, a[i], SitePast(lib, a, i, groups), pa, pb, column, columns, regime);
  }

  lemma SameMedian(lib: Library, a: seq<Row>, b: seq<Row>, cut: string, groups: Groups, i: nat, column: string)
    requires Prepared(lib, a, groups) && AgreeBefore(lib, a, b, cut) && i < |a| && Before(lib, a[i], cut)
    ensures forall sitePast :: HierarchicalMedian(lib, a[i], sitePast, ClientPast(lib, a, i, groups), column)
                            == HierarchicalMedian(lib, a[i], sitePast, ClientPast(lib, b, i, groups), column)
  {
    assert a[i] == b[i];
    if DayOf(lib, a[i]).Some? {
      var today := DayOf(lib, a[i]).value;
      EarlierDaysAgree(lib, a, b, cut, i);
      ClientPastAgrees(lib, a, b, groups.clients.Get(ClientOf(lib)(a[i])).GetOr([]), i, today);
      SameHistory(lib, ClientPast(lib, a, i, groups), ClientPast(lib, b, i, groups), column, today, false, 56);
    }
  }

  lemma SamePrediction(lib: Library, row: Row, sitePast: seq<Row>, pa: seq<Row>, pb: seq<Row>, column: string, columns: seq<string>, regime: Regime)
    requires HierarchicalMedian(lib, row, sitePast, pa, column) == HierarchicalMedian(lib, row, sitePast, pb, column)
    ensures Predict(lib, row, sitePast, pa, column, columns, regime) == Predict(lib, row, sitePast, pb, column, columns, regime)
  {
  }

  lemma ImputationKeepsKeys(lib: Library, rows: seq<Row>, i: nat, column: string, columns: seq<string>, groups: Groups, regime: Regime)
    requires i < |rows| && IsMetric(column)
    ensures SameKeys(rows[i], ImputedRow(lib, rows, i, column, columns, groups, regime))
  {
    if ValueAt(lib, rows[i], column).None? {
      var p := Predict(lib, rows[i], SitePast(lib, rows, i, groups), ClientPast(lib, rows, i, groups), column, columns, regime);
      if p.Some? {
        WritingKeepsKeys(rows[i], column, p.value);
      }
    }
  }

  lemma WritingKeepsKeys(row: Row, column: string, p: Prediction)
    requires IsMetric(column)
    ensures SameKeys(row, WithImputation(row, column, p))
  {
    MetricIsNoKey(column);
    MetricWithSuffix(column, "__imputed");
    MetricWithSuffix(column, "__imputation_method");
    MetricIsNoKey(Imputed(column));
    MetricIsNoKey(ImputationMethod(column));
  }

  lemma {:induction false} ImputeKeepsKeys(lib: Library, rows: seq<Row>, n: nat, column: string, columns: seq<string>, groups: Groups, regime: Regime)
    requires n <= |rows| && IsMetric(column)
    ensures SameKeysThroughout(rows, Impute(lib, rows, n, column, columns, groups, regime))
  {
    if n > 0 {
      ImputeKeepsKeys(lib, rows, n - 1, column, columns, groups, regime);
      ImputationKeepsKeys(lib, Impute(lib, rows, n - 1, column, columns, groups, regime), n - 1, column, columns, groups, regime);
    }
  }

  ghost predicate AgreePrepared(lib: Library, a: seq<Row>, b: seq<Row>, cut: string, groups: Groups) {
    Prepared(lib, a, groups) && AgreeBefore(lib, a, b, cut)
  }

  lemma UpdateAgrees(lib: Library, a: seq<Row>, b: seq<Row>, cut: string, i: nat, x: Row, y: Row)
    requires AgreeBefore(lib, a, b, cut) && i < |a| && SameKeys(a[i], x) && SameKeys(b[i], y)
    requires Before(lib, a[i], cut) ==> x == y
    ensures AgreeBefore(lib, a[i := x], b[i := y], cut)
  {
  }

  function RowStep(lib: Library, column: string, columns: seq<string>, groups: Groups, regime: Regime): (seq<Row>, nat) -> Row {
    (rows: seq<Row>, i: nat) => if i < |rows| then ImputedRow(lib, rows, i, column, columns, groups, regime) else map[]
  }

  lemma {:induction false} ImputeIsInTurn(lib: Library, rows: seq<Row>, n: nat, column: string, columns: seq<string>, groups: Groups, regime: Regime)
    requires n <= |rows|
    ensures Impute(lib, rows, n, column, columns, groups, regime) == InTurn(RowStep(lib, column, columns, groups, regime), rows, n)
  {
    if n > 0 {
      ImputeIsInTurn(lib, rows, n - 1, column, columns, groups, regime);
      var before := Impute(lib, rows, n - 1, column, columns, groups, regime);
      assert RowStep(lib, column, columns, groups, regime)(before, n - 1) == ImputedRow(lib, before, n - 1, column, columns, groups, regime);
    }
  }

  lemma ImputeRowAgrees(lib: Library, a: seq<Row>, b: seq<Row>, a': seq<Row>, b': seq<Row>, cut: string, groups: Groups, i: nat,
                        column: string, columns: seq<string>, regime: Regime)
    requires AgreePrepared(lib, a, b, cut, groups) && i < |a| && IsMetric(column)
    requires a' == a[i := ImputedRow(lib, a, i, column, columns, groups, regime)]
    requires b' == b[i := ImputedRow(lib, b, i, column, columns, groups, regime)]
    ensures AgreePrepared(lib, a', b', cut, groups)
  {
    var x, y := ImputedRow(lib, a, i, column, columns, groups, regime), ImputedRow(lib, b, i, column, columns, groups, regime);
    assert Before(lib, a[i], cut) ==> x == y by {
      if Before(lib, a[i], cut) {
        SameImputedRow(lib, a, b, cut, groups, i, column, columns, regime);
      }
    }
    ImputationKeepsKeys(lib, a, i, column, columns, groups, regime);
    ImputationKeepsKeys(lib, b, i, column, columns, groups, regime);
    UpdateAgrees(lib, a, b, cut, i, x, y);
    PreparedCarries(lib, a, a', groups);
  }

  ghost function Agreement(lib: Library, cut: string, groups: Groups): (seq<Row>, seq<Row>) -> bool {
    (a: seq<Row>, b: seq<Row>) => AgreePrepared(lib, a, b, cut, groups)
  }

  lemma AgreementKept(lib: Library, cut: string, groups: Groups, column: string, columns: seq<string>, regime: Regime)
    requires IsMetric(column)
    ensures KeptByEach(Agreement(lib, cut, groups), RowStep(lib, column, columns, groups, regime))
  {
    var related, step := Agreement(lib, cut, groups), RowStep(lib, column, columns, groups, regime);
    forall a, b, i: nat ensures KeptAt(related, step, a, b, i) {
      if related(a, b) && i < |a| && i < |b| {
        ImputeRowAgrees(lib, a, b, a[i := step(a, i)], b[i := step(b, i)], cut, groups, i, column, columns, regime);
      }
    }
  }

  lemma ImputeAgrees(lib: Library, a: seq<Row>, b: seq<Row>, cut: string, groups: Groups, n: nat, column: string, columns: seq<string>,
                     regime: Regime)
    requires AgreePrepared(lib, a, b, cut, groups) && n <= |a| == |b| && IsMetric(column)
    ensures AgreePrepared(lib, Impute(lib, a, n, column, columns, groups, regime), Impute(lib, b, n, column, columns, groups, regime), cut, groups)
  {
    ImputeIsInTurn(lib, a, n, column, columns, groups, regime);
    ImputeIsInTurn(lib, b, n, column, columns, groups, regime);
    AgreementKept(lib, cut, groups, column, columns, regime);
    KeptInTurn(Agreement(lib, cut, groups), RowStep(lib, column, columns, groups, regime), a, b, n);
  }

  /*** Clamping ***/

  lemma ClampKeepsKeys(row: Row, column: string, value: real)
    requires IsMetric(column)
    ensures SameKeys(row, WithClamp(row, column, value))
  {
    MetricIsNoKey(column);
    MetricWithSuffix(column, "__outlier_clamped");
    MetricIsNoKey(Clamped(column));
  }

  /** Positions of one site, so in date order. */
  ghost predicate InDateOrder(lib: Library, rows: seq<Row>, indices: seq<nat>) {
    && (forall p :: 0 <= p < |indices| ==> indices[p] < |rows|)
    && (forall p, q :: 0 <= p < q < |indices| ==> TextLe(DateText(lib, rows[indices[p]]), DateText(lib, rows[indices[q]])))
  }

  lemma DateOrderCarries(lib: Library, a: seq<Row>, b: seq<Row>, indices: seq<nat>)
    requires InDateOrder(lib, a, indices) && SameKeysThroughout(a, b)
    ensures InDateOrder(lib, b, indices)
  {
    forall p | 0 <= p < |indices| ensures DateText(lib, a[indices[p]]) == DateText(lib, b[indices[p]]) {
      assert SameKeys(a[indices[p]], b[indices[p]]);
    }
  }

  /** What a table is after the first known value of a group has been handled. */
  function ClampStep(lib: Library, rows: seq<Row>, column: string, i: nat, history: seq<real>): (seq<Row>, seq<real>)
    requires i < |rows|
  {
    match ValueAt(lib, rows[i], column)
    case None => (rows, history)
    case Some(v) =>
      var (c, was) := ClampValue(lib, history, v);
      (if was then rows[i := WithClamp(rows[i], column, c)] else rows, PushBounded(history, c, 56))
  }

  lemma ClampStepAgrees(lib: Library, a: seq<Row>, b: seq<Row>, cut: string, column: string, i: nat, ha: seq<real>, hb: seq<real>)
    requires AgreeBefore(lib, a, b, cut) && i < |a| && IsMetric(column) && (Before(lib, a[i], cut) ==> ha == hb)
    ensures
      var (a', ha') := ClampStep(lib, a, column, i, ha);
      var (b', hb') := ClampStep(lib, b, column, i, hb);
      && AgreeBefore(lib, a', b', cut) && SameKeysThroughout(a, a') && (Before(lib, a[i], cut) ==> ha' == hb')
  {
    var va, vb := ValueAt(lib, a[i], column), ValueAt(lib, b[i], column);
    if va.Some? {
      ClampKeepsKeys(a[i], column, ClampValue(lib, ha, va.value).0);
    }
    if vb.Some? {
      ClampKeepsKeys(b[i], column, ClampValue(lib, hb, vb.value).0);
    }
    var (a', ha') := ClampStep(lib, a, column, i, ha);
    var (b', hb') := ClampStep(lib, b, column, i, hb);
    assert a' == a[i := a'[i]] && b' == b[i := b'[i]];
    UpdateAgrees(lib, a, b, cut, i, a'[i], b'[i]);
  }

  /** Once a group has passed the cut it never comes back before it, so the histories need no longer agree. */
  lemma {:induction false} ClampGroupAgrees(lib: Library, a: seq<Row>, b: seq<Row>, cut: string, column: string, indices: seq<nat>,
                                            ha: seq<real>, hb: seq<real>)
    requires AgreeBefore(lib, a, b, cut) && InDateOrder(lib, a, indices) && IsMetric(column)
    requires ha == hb || forall p :: 0 <= p < |indices| ==> !Before(lib, a[indices[p]], cut)
    ensures AgreeBefore(lib, ClampGroup(lib, a, column, indices, ha).0, ClampGroup(lib, b, column, indices, hb).0, cut)
    ensures SameKeysThroughout(a, ClampGroup(lib, a, column, indices, ha).0)
    decreases |indices|
  {
    if indices != [] {
      var i, rest := indices[0], indices[1..];
      ClampStepAgrees(lib, a, b, cut, column, i, ha, hb);
      var (a', ha') := ClampStep(lib, a, column, i, ha);
      var (b', hb') := ClampStep(lib, b, column, i, hb);
      RestInDateOrder(lib, a, a', cut, indices);
      ClampGroupAgrees(lib, a', b', cut, column, rest, ha', hb');
    }
  }

  lemma RestInDateOrder(lib: Library, a: seq<Row>, a': seq<Row>, cut: string, indices: seq<nat>)
    requires InDateOrder(lib, a, indices) && indices != [] && SameKeysThroughout(a, a')
    ensures InDateOrder(lib, a', indices[1..])
    ensures !Before(lib, a[indices[0]], cut) ==> forall p :: 0 <= p < |indices[1..]| ==> !Before(lib, a'[indices[1..][p]], cut)
  {
    DateOrderCarries(lib, a, a', indices);
    if !Before(lib, a[indices[0]], cut) {
      assert SameKeys(a[indices[0]], a'[indices[0]]);
      forall p | 0 <= p < |indices[1..]| ensures !Before(lib, a'[indices[1..][p]], cut) {
        var first, later := DateText(lib, a'[indices[0]]), DateText(lib, a'[indices[p + 1]]);
        if TextLess(later, cut) {
          LeThenLess(first, later, cut);
        }
      }
    }
  }

  lemma {:induction false} ClampGroupsAgree(lib: Library, a: seq<Row>, b: seq<Row>, cut: string, column: string, groups: seq<seq<nat>>)
    requires AgreeBefore(lib, a, b, cut) && IsMetric(column) && InTable(groups, |a|)
    requires forall g :: 0 <= g < |groups| ==> InDateOrder(lib, a, groups[g])
    ensures AgreeBefore(lib, ClampGroups(lib, a, column, groups).0, ClampGroups(lib, b, column, groups).0, cut)
    ensures SameKeysThroughout(a, ClampGroups(lib, a, column, groups).0)
    decreases |groups|
  {
    if groups != [] {
      var a', b' := ClampGroup(lib, a, column, groups[0], []).0, ClampGroup(lib, b, column, groups[0], []).0;
      ClampGroupAgrees(lib, a, b, cut, column, groups[0], [], []);
      forall g | 0 <= g < |groups[1..]| ensures InDateOrder(lib, a', groups[1..][g]) {
        DateOrderCarries(lib, a, a', groups[g + 1]);
      }
      ClampGroupsAgree(lib, a', b', cut, column, groups[1..]);
    }
  }

  lemma SitesInDateOrder(lib: Library, rows: seq<Row>, groups: Groups)
    requires Prepared(lib, rows, groups)
    ensures GroupsFit(groups, |rows|)
    ensures forall g :: 0 <= g < |groups.sites.Values()| ==> InDateOrder(lib, rows, groups.sites.Values()[g])
  {
    var keys := Map(rows, SiteKeyOf(lib));
    TableGroupsAreSeparate(keys);
    GroupByGroups(keys);
    Lists(groups.sites);
    var sites := groups.sites.Values();
    forall g | 0 <= g < |sites| ensures InDateOrder(lib, rows, sites[g]) {
      assert PositionsOf(sites[g], keys, groups.sites.order[g]);
      SiteInDateOrder(lib, rows, sites[g], keys, groups.sites.order[g]);
    }
  }

  lemma SiteInDateOrder(lib: Library, rows: seq<Row>, indices: seq<nat>, keys: seq<(string, string)>, key: (string, string))
    requires Sorted(rows, ByRowOrder(lib)) && keys == Map(rows, SiteKeyOf(lib)) && PositionsOf(indices, keys, key)
    ensures InDateOrder(lib, rows, indices)
  {
    forall p, q | 0 <= p < q < |indices| ensures TextLe(DateText(lib, rows[indices[p]]), DateText(lib, rows[indices[q]])) {
      assert keys[indices[p]] == key && keys[indices[q]] == key;
      EarlierInSite(lib, rows, indices[q], indices[p]);
    }
  }

  /*** The pass ***/

  lemma SeedKeepsKeys(row: Row, column: string)
    requires IsMetric(column)
    ensures SameKeys(row, SeedRow(row, column))
  {
    MetricWithSuffix(column, "__imputed");
    MetricWithSuffix(column, "__imputation_method");
    MetricWithSuffix(column, "__outlier_clamped");
    MetricIsNoKey(Imputed(column));
    MetricIsNoKey(ImputationMethod(column));
    MetricIsNoKey(Clamped(column));
  }

  lemma SeedAgrees(lib: Library, a: seq<Row>, b: seq<Row>, cut: string, column: string)
    requires AgreeBefore(lib, a, b, cut) && IsMetric(column)
    ensures AgreeBefore(lib, Seed(a, column), Seed(b, column), cut) && SameKeysThroughout(a, Seed(a, column))
  {
    forall i | 0 <= i < |a| ensures SameKeys(a[i], Seed(a, column)[i]) && SameKeys(b[i], Seed(b, column)[i]) {
      SeedKeepsKeys(a[i], column);
      SeedKeepsKeys(b[i], column);
    }
  }

  lemma ColumnAgrees(lib: Library, a: seq<Row>, b: seq<Row>, cut: string, column: string, columns: seq<string>, groups: Groups, regime: Regime)
    requires Prepared(lib, a, groups) && GroupsFit(groups, |a|) && AgreeBefore(lib, a, b, cut) && IsMetric(column)
    ensures AgreeBefore(lib, QualityColumn(lib, a, column, columns, groups, regime), QualityColumn(lib, b, column, columns, groups, regime), cut)
    ensures SameKeysThroughout(a, QualityColumn(lib, a, column, columns, groups, regime))
  {
    var a' := Impute(lib, a, |a|, column, columns, groups, regime);
    ImputeAgrees(lib, a, b, cut, groups, |a|, column, columns, regime);
    ImputeKeepsKeys(lib, a, |a|, column, columns, groups, regime);
    PreparedCarries(lib, a, a', groups);
    SitesInDateOrder(lib, a', groups);
    ClampGroupsAgree(lib, a', Impute(lib, b, |b|, column, columns, groups, regime), cut, column, groups.sites.Values());
  }

  /** No lookahead, column after column, for prepared tables. */
  lemma {:induction false} PassAgrees(lib: Library, a: seq<Row>, b: seq<Row>, cut: string, columns: seq<string>, k: nat, groups: Groups)
    requires Prepared(lib, a, groups) && GroupsFit(groups, |a|) && AgreeBefore(lib, a, b, cut) && k <= |columns|
    requires forall c :: 0 <= c < |columns| ==> IsMetric(columns[c])
    requires Regimes(lib, a, columns, k, groups) == Regimes(lib, b, columns, k, groups)
    ensures AgreeBefore(lib, QualityPass(lib, a, columns, k, groups), QualityPass(lib, b, columns, k, groups), cut)
    decreases |columns| - k
  {
    if k < |columns| {
      var sa, sb := Seed(a, columns[k]), Seed(b, columns[k]);
      var regime := RegimeIn(lib, sa, columns[k]);
      assert Regimes(lib, a, columns, k, groups)[0] == regime && Regimes(lib, b, columns, k, groups)[0] == RegimeIn(lib, sb, columns[k]);
      SeedAgrees(lib, a, b, cut, columns[k]);
      PreparedCarries(lib, a, sa, groups);
      ColumnAgrees(lib, sa, sb, cut, columns[k], columns, groups, regime);
      var ra, rb := QualityColumn(lib, sa, columns[k], columns, groups, regime), QualityColumn(lib, sb, columns[k], columns, groups, regime);
      PreparedCarries(lib, sa, ra, groups);
      assert Regimes(lib, a, columns, k, groups)[1..] == Regimes(lib, ra, columns, k + 1, groups);
      assert Regimes(lib, b, columns, k, groups)[1..] == Regimes(lib, rb, columns, k + 1, groups);
      PassAgrees(lib, ra, rb, cut, columns, k + 1, groups);
    }
  }

  /*** From the unsorted table ***/

  lemma RowOrderTotal(lib: Library, x: Row, y: Row)
    ensures RowOrder(lib, x, y) || RowOrder(lib, y, x)
  {
    var cx, sx := SiteKeyOf(lib)(x).0, SiteKeyOf(lib)(x).1;
    var cy, sy := SiteKeyOf(lib)(y).0, SiteKeyOf(lib)(y).1;
    TextLeTotal(cx, cy);
    TextLeTotal(sx, sy);
    TextLeTotal(DateText(lib, x), DateText(lib, y));
  }

  lemma RowOrderTransitive(lib: Library, x: Row, y: Row, z: Row)
    requires RowOrder(lib, x, y) && RowOrder(lib, y, z)
    ensures RowOrder(lib, x, z)
  {
    var cx, sx := SiteKeyOf(lib)(x).0, SiteKeyOf(lib)(x).1;
    var cy, sy := SiteKeyOf(lib)(y).0, SiteKeyOf(lib)(y).1;
    var cz, sz := SiteKeyOf(lib)(z).0, SiteKeyOf(lib)(z).1;
    if cx != cy || cy != cz {
      TextLeReflexive(cx);
      TextLeReflexive(cz);
      TextLeTransitive(cx, cy, cz);
      if cx == cz {
        TextLeAntisymmetric(cx, cy);
      }
    } else if sx != sy || sy != sz {
      TextLeReflexive(sx);
      TextLeReflexive(sz);
      TextLeTransitive(sx, sy, sz);
      if sx == sz {
        TextLeAntisymmetric(sx, sy);
      }
    } else {
      TextLeTransitive(DateText(lib, x), DateText(lib, y), DateText(lib, z));
    }
  }

  lemma RowOrderIsPreorder(lib: Library)
    ensures TotalPreorder(ByRowOrder(lib))
  {
    forall x, y ensures ByRowOrder(lib)(x, y) || ByRowOrder(lib)(y, x) {
      RowOrderTotal(lib, x, y);
    }
    forall x, y, z | ByRowOrder(lib)(x, y) && ByRowOrder(lib)(y, z) ensures ByRowOrder(lib)(x, z) {
      RowOrderTransitive(lib, x, y, z);
    }
  }

  function Zip(a: seq<Row>, b: seq<Row>): seq<(Row, Row)>
    requires |a| == |b|
  {
    seq(|a|, i requires 0 <= i < |a| => (a[i], b[i]))
  }

  function Left(): ((Row, Row)) -> Row { (p: (Row, Row)) => p.0 }

  function Right(): ((Row, Row)) -> Row { (p: (Row, Row)) => p.1 }

  function ByLeft(lib: Library): ((Row, Row), (Row, Row)) -> bool {
    (p: (Row, Row), q: (Row, Row)) => RowOrder(lib, p.0, q.0)
  }

  lemma SameKeysSameOrder(lib: Library, x: Row, x': Row, y: Row, y': Row)
    requires SameKeys(x, x') && SameKeys(y, y')
    ensures RowOrder(lib, x, y) == RowOrder(lib, x', y')
  {
  }

  /** Sorting two tables with the same row keys moves their rows in the same way. */
  lemma SortingAgrees(lib: Library, a: seq<Row>, b: seq<Row>, cut: string)
    requires AgreeBefore(lib, a, b, cut)
    ensures AgreeBefore(lib, SortedRows(lib, a), SortedRows(lib, b), cut)
  {
    var z := Zip(a, b);
    var sz := Sort(z, ByLeft(lib));
    SortMap(z, Left(), ByLeft(lib), ByRowOrder(lib));
    forall p, q | p in z && q in z ensures ByLeft(lib)(p, q) == ByRowOrder(lib)(Right()(p), Right()(q)) {
      SameKeysSameOrder(lib, p.0, p.1, q.0, q.1);
    }
    SortMap(z, Right(), ByLeft(lib), ByRowOrder(lib));
    assert Map(z, Left()) == a && Map(z, Right()) == b;
    forall i | 0 <= i < |sz| ensures SameKeys(sz[i].0, sz[i].1) && (Before(lib, sz[i].0, cut) ==> sz[i].0 == sz[i].1) {
      SortMember(z, ByLeft(lib), sz[i]);
    }
  }

  lemma SortingPrepares(lib: Library, table: seq<Row>)
    requires DatesInOrder(lib, table)
    ensures Prepared(lib, SortedRows(lib, table), GroupsOf(lib, SortedRows(lib, table)))
  {
    var rows := SortedRows(lib, table);
    RowOrderIsPreorder(lib);
    SortSorted(table, ByRowOrder(lib));
    forall i | 0 <= i < |rows| ensures rows[i] in table {
      SortMember(table, ByRowOrder(lib), rows[i]);
    }
    forall i, j | 0 <= i < |rows| && 0 <= j < |rows| && DayOf(lib, rows[i]).Some? && DayOf(lib, rows[j]).Some?
                  && DayOf(lib, rows[i]).value < DayOf(lib, rows[j]).value
      ensures TextLess(DateText(lib, rows[i]), DateText(lib, rows[j]))
    {
      var k :| 0 <= k < |table| && table[k] == rows[i];
      var l :| 0 <= l < |table| && table[l] == rows[j];
    }
  }

  /**
   No lookahead. Two tables with the same row keys that agree before a cut still agree before it
   after the whole pass, provided the whole-table statistics lead to the same regimes.
   */
  lemma SilverHasNoLookahead(lib: Library, a: seq<Row>, b: seq<Row>, cut: string, columns: seq<string>)
    requires DatesInOrder(lib, a) && AgreeBefore(lib, a, b, cut)
    requires forall c :: 0 <= c < |columns| ==> IsMetric(columns[c])
    requires RegimesOf(lib, a, columns) == RegimesOf(lib, b, columns)
    ensures AgreeBefore(lib, ApplyQuality(lib, a, columns), ApplyQuality(lib, b, columns), cut)
  {
    var sa, sb := SortedRows(lib, a), SortedRows(lib, b);
    var groups := GroupsOf(lib, sa);
    assert AgreeBefore(lib, sa, sb, cut) by { SortingAgrees(lib, a, b, cut); }
    assert Prepared(lib, sa, groups) by { SortingPrepares(lib, a); }
    assert GroupsOf(lib, sb) == groups by { SameGroups(lib, sa, sb); }
    assert GroupsFit(groups, |sa|) by { TableGroupsFit(lib, sa); }
    assert Regimes(lib, sa, columns, 0, groups) == RegimesOf(lib, a, columns);
    assert Regimes(lib, sb, columns, 0, groups) == RegimesOf(lib, b, columns);
    PassAgrees(lib, sa, sb, cut, columns, 0, groups);
    assert ApplyQuality(lib, a, columns) == QualityPass(lib, sa, columns, 0, groups);
    assert ApplyQuality(lib, b, columns) == QualityPass(lib, sb, columns, 0, groups);
  }

  /*** The proviso is needed ***/

  lemma {:induction false} MissingCountOfConcat(lib: Library, rows: seq<Row>, more: seq<Row>, column: string)
    ensures MissingCount(lib, rows + more, column) == MissingCount(lib, rows, column) + MissingCount(lib, more, column)
  {
    if more == [] {
      assert rows + more == rows;
    } else {
      assert (rows + more)[..|rows + more| - 1] == rows + more[..|more| - 1];
      MissingCountOfConcat(lib, rows, more[..|more| - 1], column);
    }
  }

  lemma {:induction false} NoImputationFillsNothing(lib: Library, rows: seq<Row>, n: nat, column: string, columns: seq<string>, groups: Groups)
    requires n <= |rows|
    ensures Impute(lib, rows, n, column, columns, groups, NoImputation) == rows
  {
    if n > 0 {
      NoImputationFillsNothing(lib, rows, n - 1, column, columns, groups);
    }
  }

  /**
   Whatever happened so far, enough gaps in later rows switch imputation off for the earlier ones:
   the missing rate looks into the future.
   */
  lemma LaterGapsSwitchImputationOff(lib: Library, rows: seq<Row>, later: seq<Row>, column: string, columns: seq<string>, groups: Groups)
    requires later != [] && |later| >= |rows| && MissingCount(lib, later, column) == |later|
    ensures RegimeIn(lib, rows + later, column) == NoImputation
    ensures Impute(lib, rows + later, |rows + later|, column, columns, groups, RegimeIn(lib, rows + later, column)) == rows + later
  {
    MissingCountOfConcat(lib, rows, later, column);
    var missing, total := MissingCount(lib, rows + later, column) as real, |rows + later| as real;
    assert missing >= |later| as real && total <= 2.0 * |later| as real && total > 0.0;
    HalfIsTooMuch(missing, total);
    NoImputationFillsNothing(lib, rows + later, |rows + later|, column, columns, groups);
  }

  lemma HalfIsTooMuch(missing: real, total: real)
    requires total > 0.0 && 2.0 * missing >= total
    ensures missing / total > 0.30
  {
    assert missing / total >= 0.5 by {
      assert (missing / total) * total == missing;
    }
  }
}
