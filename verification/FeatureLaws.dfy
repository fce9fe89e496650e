/**
 What a lag or rolling feature holds: the bounded history of 90 values against the full history of a
 site, and no value from the row itself or a later one.
 */
module FeatureLaws {
  import opened Wrappers
  import opened Sequences
  import opened StableSort
  import opened InsertionMap
  import opened TextOrder
  import opened Cells
  import opened GoldFeatures
  import opened Identifier

  /*** A feature's name determines its column ***/

  /** Reads the feature back from the end of its name. */
  function FeatureNamed(name: string): Feature
    requires |name| >= 4
  {
    var n := |name|;
    if name[n - 1] == '1' then Lag1
    else if name[n - 1] == '7' then if name[n - 3] == 'g' then Lag7 else if name[n - 3] == 'n' then Mean7 else Std7
    else if name[n - 1] == '4' then if name[n - 4] == 'g' then Lag14 else if name[n - 4] == 'n' then Mean14 else Std14
    else if name[n - 4] == 'g' then Lag28 else if name[n - 4] == 'n' then Mean28 else Std28
  }

  lemma NameDetermines(column: string, f: Feature)
    ensures |Name(column, f)| >= 4 && FeatureNamed(Name(column, f)) == f
  {
    assert Name(column, f)[|column|..] == f.Suffix();
    assert FeatureNamed(f.Suffix()) == f;
  }

  lemma NameInjective(c: string, f: Feature, d: string, g: Feature)
    ensures Name(c, f) == Name(d, g) <==> c == d && f == g
  {
    if Name(c, f) == Name(d, g) {
      NameDetermines(c, f);
      NameDetermines(d, g);
      assert Name(c, f)[..|c|] == c && Name(d, g)[..|d|] == d;
    }
  }

  ghost predicate Generates(columns: seq<string>, name: string) {
    exists c, f :: c in columns && name == Name(c, f)
  }

  /** No column whose features are computed is itself the name of a feature. */
  ghost predicate NoClash(columns: seq<string>) {
    forall c :: c in columns ==> !Generates(columns, c)
  }

  /*** What one row receives ***/

  lemma {:induction false} WrittenAt(lib: Library, row: Row, column: string, history: seq<Option<real>>, n: nat, k: nat)
    requires k < n <= 10
    ensures var name := Name(column, FEATURES[k]);
            name in Written(lib, row, column, history, n)
            && Written(lib, row, column, history, n)[name] == FeatureCell(lib, history, FEATURES[k])
  {
    if k < n - 1 {
      WrittenAt(lib, row, column, history, n - 1, k);
      NamesDiffer(column, k, n - 1);
    }
  }

  lemma NamesDiffer(column: string, k: nat, n: nat)
    requires k < n < 10
    ensures Name(column, FEATURES[k]) != Name(column, FEATURES[n])
  {
    assert Rank(FEATURES[k]) == k && Rank(FEATURES[n]) == n;
    NameInjective(column, FEATURES[k], column, FEATURES[n]);
  }

  lemma {:induction false} WrittenElsewhere(lib: Library, row: Row, column: string, history: seq<Option<real>>, n: nat, x: string)
    requires n <= 10 && forall f :: x != Name(column, f)
    ensures x in Written(lib, row, column, history, n) <==> x in row
    ensures Get(Written(lib, row, column, history, n), x) == Get(row, x)
  {
    if n > 0 {
      WrittenElsewhere(lib, row, column, history, n - 1, x);
    }
  }

  function Rank(f: Feature): (k: nat)
    ensures k < 10 && FEATURES[k] == f
  {
    match f
    case Lag1 => 0
    case Lag7 => 1
    case Lag14 => 2
    case Lag28 => 3
    case Mean7 => 4
    case Std7 => 5
    case Mean14 => 6
    case Std14 => 7
    case Mean28 => 8
    case Std28 => 9
  }

  lemma {:induction false} FeatureOfRow(lib: Library, row: Row, columns: seq<string>, h: Histories, n: nat, c: string, f: Feature)
    requires n <= |columns| && c in columns[..n]
    ensures Name(c, f) in WithFeatures(lib, row, columns, h, n)
    ensures WithFeatures(lib, row, columns, h, n)[Name(c, f)] == FeatureCell(lib, HistoryOf(h, c), f)
  {
    var before := WithFeatures(lib, row, columns, h, n - 1);
    if c == columns[n - 1] {
      WrittenAt(lib, before, c, HistoryOf(h, c), 10, Rank(f));
    } else {
      FeatureOfRow(lib, row, columns, h, n - 1, c, f);
      var d := columns[n - 1];
      forall g ensures Name(c, f) != Name(d, g) {
        NameInjective(c, f, d, g);
      }
      WrittenElsewhere(lib, before, d, HistoryOf(h, d), 10, Name(c, f));
    }
  }

  lemma {:induction false} OtherColumnOfRow(lib: Library, row: Row, columns: seq<string>, h: Histories, n: nat, x: string)
    requires n <= |columns| && !Generates(columns, x)
    ensures x in WithFeatures(lib, row, columns, h, n) <==> x in row
    ensures Get(WithFeatures(lib, row, columns, h, n), x) == Get(row, x)
  {
    if n > 0 {
      OtherColumnOfRow(lib, row, columns, h, n - 1, x);
      var c := columns[n - 1];
      assert c in columns;
      WrittenElsewhere(lib, WithFeatures(lib, row, columns, h, n - 1), c, HistoryOf(h, c), 10, x);
    }
  }

  lemma {:induction false} AppendedAt(lib: Library, row: Row, columns: seq<string>, h: Histories, n: nat, c: string)
    requires n <= |columns| && NoDup(columns)
    ensures HistoryOf(Appended(lib, row, columns, h, n), c)
         == if c in columns[..n] then PushBounded(HistoryOf(h, c), ValueAt(lib, row, c), 90) else HistoryOf(h, c)
  {
    if n > 0 {
      AppendedAt(lib, row, columns, h, n - 1, c);
      assert columns[..n] == columns[..n - 1] + [columns[n - 1]];
    }
  }

  /*** What one group receives ***/

  ghost predicate Positions(members: seq<nat>, size: nat) {
    NoDup(members) && forall q :: 0 <= q < |members| ==> members[q] < size
  }

  /** The values of a column in the first `i` members of a group. */
  function Past(lib: Library, rows: seq<Row>, members: seq<nat>, i: nat, column: string): (values: seq<Option<real>>)
    requires i <= |members| && forall q :: 0 <= q < |members| ==> members[q] < |rows|
    ensures |values| == i
  {
    seq(i, k requires 0 <= k < i => ValueAt(lib, rows[members[k]], column))
  }

  ghost predicate HoldsLast90(lib: Library, rows: seq<Row>, members: seq<nat>, p: nat, columns: seq<string>, h: Histories)
    requires p <= |members| && Positions(members, |rows|)
  {
    forall c :: c in columns ==> HistoryOf(h, c) == LastN(Past(lib, rows, members, p, c), 90)
  }

  lemma HistoryAdvances(lib: Library, rows: seq<Row>, members: seq<nat>, p: nat, columns: seq<string>, h: Histories)
    requires p < |members| && Positions(members, |rows|) && NoDup(columns) && NoClash(columns)
    requires HoldsLast90(lib, rows, members, p, columns, h)
    ensures var row := WithFeatures(lib, rows[members[p]], columns, h, |columns|);
            HoldsLast90(lib, rows, members, p + 1, columns, Appended(lib, row, columns, h, |columns|))
  {
    var row := WithFeatures(lib, rows[members[p]], columns, h, |columns|);
    forall c | c in columns
      ensures HistoryOf(Appended(lib, row, columns, h, |columns|), c) == LastN(Past(lib, rows, members, p + 1, c), 90) {
      OneHistoryAdvances(lib, rows, members, p, columns, h, c);
    }
  }

  lemma OneHistoryAdvances(lib: Library, rows: seq<Row>, members: seq<nat>, p: nat, columns: seq<string>, h: Histories, c: string)
    requires p < |members| && Positions(members, |rows|) && NoDup(columns) && c in columns && !Generates(columns, c)
    requires HistoryOf(h, c) == LastN(Past(lib, rows, members, p, c), 90)
    ensures var row := WithFeatures(lib, rows[members[p]], columns, h, |columns|);
            HistoryOf(Appended(lib, row, columns, h, |columns|), c) == LastN(Past(lib, rows, members, p + 1, c), 90)
  {
    var row := WithFeatures(lib, rows[members[p]], columns, h, |columns|);
    assert columns[..|columns|] == columns;
    AppendedAt(lib, row, columns, h, |columns|, c);
    OtherColumnOfRow(lib, rows[members[p]], columns, h, |columns|, c);
    PastGrows(lib, rows, members, p, c);
  }

  lemma PastGrows(lib: Library, rows: seq<Row>, members: seq<nat>, p: nat, c: string)
    requires p < |members| && Positions(members, |rows|)
    ensures LastN(Past(lib, rows, members, p + 1, c), 90)
         == PushBounded(LastN(Past(lib, rows, members, p, c), 90), ValueAt(lib, rows[members[p]], c), 90)
  {
    var v := ValueAt(lib, rows[members[p]], c);
    PushKeepsLast(Past(lib, rows, members, p, c), v, 90);
    assert Past(lib, rows, members, p + 1, c) == Past(lib, rows, members, p, c) + [v];
  }

  /** What a group run leaves in its `i`-th member, in terms of the table it started from. */
  ghost predicate HasFeatures(lib: Library, rows: seq<Row>, members: seq<nat>, i: nat, columns: seq<string>, out: Row)
    requires i < |members| && Positions(members, |rows|)
  {
    && (forall c, f :: c in columns ==>
          (Name(c, f) in out && out[Name(c, f)] == FeatureCell(lib, LastN(Past(lib, rows, members, i, c), 90), f)))
    && (forall x :: !Generates(columns, x) ==> (x in out <==> x in rows[members[i]]) && Get(out, x) == Get(rows[members[i]], x))
  }

  lemma RowHasFeatures(lib: Library, rows: seq<Row>, members: seq<nat>, p: nat, columns: seq<string>, h: Histories)
    requires p < |members| && Positions(members, |rows|) && HoldsLast90(lib, rows, members, p, columns, h)
    ensures HasFeatures(lib, rows, members, p, columns, WithFeatures(lib, rows[members[p]], columns, h, |columns|))
  {
    var row := rows[members[p]];
    var out := WithFeatures(lib, row, columns, h, |columns|);
    assert columns[..|columns|] == columns;
    forall c, f | c in columns ensures Name(c, f) in out
        && out[Name(c, f)] == FeatureCell(lib, LastN(Past(lib, rows, members, p, c), 90), f) {
      FeatureOfRow(lib, row, columns, h, |columns|, c, f);
    }
    forall x | !Generates(columns, x) ensures (x in out <==> x in row) && Get(out, x) == Get(row, x) {
      OtherColumnOfRow(lib, row, columns, h, |columns|, x);
    }
  }

  lemma {:induction false} RunLeavesOthersAlone(lib: Library, rows: seq<Row>, members: seq<nat>, p: nat, columns: seq<string>,
      h: Histories, j: nat)
    requires p <= |members| && Positions(members, |rows|) && j < |rows|
    requires forall q :: p <= q < |members| ==> members[q] != j
    ensures GroupRun(lib, rows, members, p, columns, h)[j] == rows[j]
    decreases |members| - p
  {
    if p < |members| {
      var row := WithFeatures(lib, rows[members[p]], columns, h, |columns|);
      RunLeavesOthersAlone(lib, rows[members[p] := row], members, p + 1, columns, Appended(lib, row, columns, h, |columns|), j);
    }
  }

  /** From the `p`-th member on, with the members before it done and the later ones as in `rows`. */
  lemma {:induction false} RunFrom(lib: Library, rows: seq<Row>, now: seq<Row>, members: seq<nat>, p: nat, columns: seq<string>,
      h: Histories, i: nat)
    requires p <= i < |members| && Positions(members, |rows|) && |now| == |rows| && NoDup(columns) && NoClash(columns)
    requires HoldsLast90(lib, rows, members, p, columns, h)
    requires forall q :: p <= q < |members| ==> now[members[q]] == rows[members[q]]
    ensures HasFeatures(lib, rows, members, i, columns, GroupRun(lib, now, members, p, columns, h)[members[i]])
    decreases |members| - p
  {
    var row := WithFeatures(lib, now[members[p]], columns, h, |columns|);
    var next := now[members[p] := row];
    var after := Appended(lib, row, columns, h, |columns|);
    if i == p {
      RowHasFeatures(lib, rows, members, p, columns, h);
      RunLeavesOthersAlone(lib, next, members, p + 1, columns, after, members[p]);
    } else {
      HistoryAdvances(lib, rows, members, p, columns, h);
      RunFrom(lib, rows, next, members, p + 1, columns, after, i);
    }
  }

  /*** What the whole table receives ***/

  lemma SameMembers(lib: Library, a: seq<Row>, b: seq<Row>, group: seq<nat>)
    requires |a| == |b| && forall q :: 0 <= q < |group| ==> group[q] < |a| && DateText(lib, a[group[q]]) == DateText(lib, b[group[q]])
    ensures Members(lib, a, group) == Members(lib, b, group)
  {
    SortCongruent(group, ByDate(lib, a), ByDate(lib, b));
  }

  lemma MembersArePositions(lib: Library, rows: seq<Row>, group: seq<nat>)
    requires Ascending(group) && forall q :: 0 <= q < |group| ==> group[q] < |rows|
    ensures Positions(Members(lib, rows, group), |rows|)
  {
    MembersInTable(lib, rows, group);
    SortNoDup(group, ByDate(lib, rows));
  }

  lemma GroupLeavesOthersAlone(lib: Library, rows: seq<Row>, group: seq<nat>, columns: seq<string>, j: nat)
    requires Ascending(group) && (forall q :: 0 <= q < |group| ==> group[q] < |rows|) && j < |rows| && j !in group
    ensures GroupFeatures(lib, rows, group, columns)[j] == rows[j]
  {
    MembersArePositions(lib, rows, group);
    MembersInTable(lib, rows, group);
    var members := Members(lib, rows, group);
    forall q | 0 <= q < |members| ensures members[q] != j {
      assert members[q] in members;
    }
    RunLeavesOthersAlone(lib, rows, members, 0, columns, map[], j);
  }

  lemma {:induction false} GroupsLeaveOthersAlone(lib: Library, rows: seq<Row>, groups: seq<seq<nat>>, columns: seq<string>, j: nat)
    requires InTable(groups, |rows|) && Separate(groups) && j < |rows| && forall g :: 0 <= g < |groups| ==> j !in groups[g]
    ensures GroupsRun(lib, rows, groups, columns)[j] == rows[j]
    decreases |groups|
  {
    if groups != [] {
      GroupLeavesOthersAlone(lib, rows, groups[0], columns, j);
      GroupsLeaveOthersAlone(lib, GroupFeatures(lib, rows, groups[0], columns), groups[1..], columns, j);
    }
  }

  ghost predicate AgreeOn(a: seq<Row>, b: seq<Row>, groups: seq<seq<nat>>)
    requires |a| == |b| && InTable(groups, |a|)
  {
    forall g :: 0 <= g < |groups| ==> forall q :: 0 <= q < |groups[g]| ==> a[groups[g][q]] == b[groups[g][q]]
  }

  /** A run depends on the rows of its members only. */
  lemma {:induction false} RunAgrees(lib: Library, a: seq<Row>, b: seq<Row>, members: seq<nat>, p: nat, columns: seq<string>,
      h: Histories, j: nat)
    requires |a| == |b| && p <= |members| && (forall q :: 0 <= q < |members| ==> members[q] < |a|) && j < |a| && a[j] == b[j]
    requires forall q :: p <= q < |members| ==> a[members[q]] == b[members[q]]
    ensures GroupRun(lib, a, members, p, columns, h)[j] == GroupRun(lib, b, members, p, columns, h)[j]
    decreases |members| - p
  {
    if p < |members| {
      var row := WithFeatures(lib, a[members[p]], columns, h, |columns|);
      var after := Appended(lib, row, columns, h, |columns|);
      RunAgrees(lib, a[members[p] := row], b[members[p] := row], members, p + 1, columns, after, j);
    }
  }

  lemma FirstGroup(lib: Library, rows: seq<Row>, now: seq<Row>, groups: seq<seq<nat>>, columns: seq<string>, j: nat)
    requires |now| == |rows| && InTable(groups, |rows|) && Separate(groups) && groups != [] && AgreeOn(now, rows, groups) && j in groups[0]
    ensures GroupsRun(lib, now, groups, columns)[j] == GroupFeatures(lib, rows, groups[0], columns)[j]
  {
    var members := Members(lib, rows, groups[0]);
    SameMembers(lib, rows, now, groups[0]);
    MembersInTable(lib, rows, groups[0]);
    forall q | 0 <= q < |members| ensures now[members[q]] == rows[members[q]] {
      assert members[q] in groups[0];
    }
    RunAgrees(lib, now, rows, members, 0, columns, map[], j);
    NotInLater(groups, j);
    GroupsLeaveOthersAlone(lib, GroupFeatures(lib, now, groups[0], columns), groups[1..], columns, j);
  }

  /** What a row receives is what the run of its own group, on the original table, gives it. */
  lemma {:induction false} EveryGroup(lib: Library, rows: seq<Row>, now: seq<Row>, groups: seq<seq<nat>>, columns: seq<string>,
      g: nat, j: nat)
    requires |now| == |rows| && InTable(groups, |rows|) && Separate(groups) && AgreeOn(now, rows, groups)
    requires g < |groups| && j in groups[g]
    ensures GroupsRun(lib, now, groups, columns)[j] == GroupFeatures(lib, rows, groups[g], columns)[j]
    decreases |groups|
  {
    if g == 0 {
      FirstGroup(lib, rows, now, groups, columns, j);
    } else {
      LaterGroupsAsBefore(lib, rows, now, groups, columns);
      EveryGroup(lib, rows, GroupFeatures(lib, now, groups[0], columns), groups[1..], columns, g - 1, j);
    }
  }

  lemma LaterGroupsAsBefore(lib: Library, rows: seq<Row>, now: seq<Row>, groups: seq<seq<nat>>, columns: seq<string>)
    requires |now| == |rows| && InTable(groups, |rows|) && Separate(groups) && groups != [] && AgreeOn(now, rows, groups)
    ensures InTable(groups[1..], |rows|) && Separate(groups[1..])
    ensures AgreeOn(GroupFeatures(lib, now, groups[0], columns), rows, groups[1..])
  {
    var next := GroupFeatures(lib, now, groups[0], columns);
    forall h, q | 1 <= h < |groups| && 0 <= q < |groups[h]| ensures next[groups[h][q]] == rows[groups[h][q]] {
      GroupLeavesOthersAlone(lib, now, groups[0], columns, groups[h][q]);
    }
  }

  /** The rows of the `g`-th site, by date. */
  function SiteRows(lib: Library, rows: seq<Row>, g: nat): seq<nat>
    requires g < |SiteGroups(lib, rows)|
  {
    Members(lib, rows, SiteGroups(lib, rows)[g])
  }

  /** Every row of the finished table holds the features of the values its site had before it, and its other columns. */
  lemma TableHoldsFeatures(lib: Library, rows: seq<Row>, columns: seq<string>, g: nat, i: nat)
    requires NoDup(columns) && NoClash(columns)
    requires g < |SiteGroups(lib, rows)| && i < |SiteRows(lib, rows, g)|
    ensures Positions(SiteRows(lib, rows, g), |rows|)
    ensures var site := SiteRows(lib, rows, g);
            HasFeatures(lib, rows, site, i, columns, TableFeatures(lib, rows, columns)[site[i]])
  {
    var group, site := SiteGroups(lib, rows)[g], SiteRows(lib, rows, g);
    TableGroupsAreSeparate(Map(rows, SiteKeyOf(lib)));
    MembersArePositions(lib, rows, group);
    MembersInTable(lib, rows, group);
    assert site[i] in site;
    EveryGroup(lib, rows, rows, SiteGroups(lib, rows), columns, g, site[i]);
    RunFrom(lib, rows, rows, site, 0, columns, map[], i);
  }

  /** Every row is at one place of one site, among the rows with its own client and site code. */
  lemma EveryRowHasAPlace(lib: Library, rows: seq<Row>, j: nat)
    requires j < |rows|
    ensures exists g, i :: 0 <= g < |SiteGroups(lib, rows)| && 0 <= i < |SiteRows(lib, rows, g)| && SiteRows(lib, rows, g)[i] == j
  {
    var keys := Map(rows, SiteKeyOf(lib));
    var sites := GroupBy(keys);
    GroupByGroups(keys);
    ListedOnce(sites.order, sites.at.Keys);
    Lists(sites);
    var g :| 0 <= g < |sites.order| && sites.order[g] == keys[j];
    SortMember(SiteGroups(lib, rows)[g], ByDate(lib, rows), j);
    var i :| 0 <= i < |SiteRows(lib, rows, g)| && SiteRows(lib, rows, g)[i] == j;
  }

  lemma ByDateIsPreorder(lib: Library, rows: seq<Row>)
    ensures TotalPreorder(ByDate(lib, rows))
  {
    var le := ByDate(lib, rows);
    forall i: nat, j: nat ensures le(i, j) || le(j, i) {
      TextLeTotal(DateAt(lib, rows, i), DateAt(lib, rows, j));
    }
    forall i: nat, j: nat, k: nat | le(i, j) && le(j, k) ensures le(i, k) {
      TextLeTransitive(DateAt(lib, rows, i), DateAt(lib, rows, j), DateAt(lib, rows, k));
    }
  }

  /** A site's rows are in date order, and rows of one date stay in table order. */
  lemma SiteRowsInDateOrder(lib: Library, rows: seq<Row>, g: nat, k: nat)
    requires g < |SiteGroups(lib, rows)|
    ensures Sorted(SiteRows(lib, rows, g), ByDate(lib, rows))
    ensures Ties(SiteRows(lib, rows, g), ByDate(lib, rows), k) == Ties(SiteGroups(lib, rows)[g], ByDate(lib, rows), k)
  {
    ByDateIsPreorder(lib, rows);
    SortSorted(SiteGroups(lib, rows)[g], ByDate(lib, rows));
    SortStable(SiteGroups(lib, rows)[g], ByDate(lib, rows), k);
  }

  /*** Ninety values against the whole history ***/

  /** Lags reach back at most 28 rows, so a history of 90 values gives the same lag as the whole history. */
  lemma LagIsExact(lib: Library, history: seq<Option<real>>, f: Feature)
    requires f.IsLag()
    ensures FeatureCell(lib, LastN(history, 90), f) == FeatureCell(lib, history, f)
  {
  }

  lemma LagIsOneCell(lib: Library, history: seq<Option<real>>, f: Feature)
    requires f.IsLag()
    ensures FeatureCell(lib, LastN(history, 90), f)
         == if |history| < f.Span() then Null else CellOf(history[|history| - f.Span()])
  {
    LagIsExact(lib, history, f);
  }

  lemma {:induction false} NonNullAppend(a: seq<Option<real>>, b: seq<Option<real>>)
    ensures NonNull(a + b) == NonNull(a) + NonNull(b)
  {
    if b == [] {
      assert a + b == a;
    } else {
      var n := |b| - 1;
      NonNullAppend(a, b[..n]);
      assert (a + b)[..|a| + n] == a + b[..n];
    }
  }

  lemma KnownIsSuffix(history: seq<Option<real>>)
    ensures |NonNull(LastN(history, 90))| <= |NonNull(history)|
    ensures NonNull(LastN(history, 90)) == LastN(NonNull(history), |NonNull(LastN(history, 90))|)
  {
    var recent := LastN(history, 90);
    var earlier := history[..|history| - |recent|];
    assert history == earlier + recent;
    NonNullAppend(earlier, recent);
  }

  lemma LastOfLast<T>(s: seq<T>, m: nat, n: nat)
    requires n <= m
    ensures LastN(LastN(s, m), n) == LastN(s, n)
  {
  }

  /**
   A rolling feature is the one over the whole history exactly when the last 90 values hold enough
   known ones, or the whole history does not either.
   */
  lemma RollingIsExactIff(lib: Library, history: seq<Option<real>>, f: Feature)
    requires !f.IsLag()
    ensures (FeatureCell(lib, LastN(history, 90), f) == FeatureCell(lib, history, f))
        <==> (|NonNull(LastN(history, 90))| >= f.Span() || |NonNull(history)| < f.Span())
  {
    KnownIsSuffix(history);
    if |NonNull(LastN(history, 90))| >= f.Span() {
      LastOfLast(NonNull(history), |NonNull(LastN(history, 90))|, f.Span());
    }
  }

  lemma AmongFeatures(lib: Library, rows: seq<Row>, members: seq<nat>, i: nat, columns: seq<string>, out: Row, c: string, f: Feature)
    requires i < |members| && Positions(members, |rows|) && HasFeatures(lib, rows, members, i, columns, out) && c in columns
    ensures Get(out, Name(c, f)) == FeatureCell(lib, LastN(Past(lib, rows, members, i, c), 90), f)
  {
    assert Name(c, f) in out;
  }

  lemma LagOfPast(lib: Library, rows: seq<Row>, members: seq<nat>, i: nat, c: string, f: Feature)
    requires i < |members| && Positions(members, |rows|) && f.IsLag()
    ensures FeatureCell(lib, LastN(Past(lib, rows, members, i, c), 90), f)
         == if i < f.Span() then Null else CellOf(ValueAt(lib, rows[members[i - f.Span()]], c))
  {
    var history := Past(lib, rows, members, i, c);
    LagIsOneCell(lib, history, f);
    if i >= f.Span() {
      assert history[i - f.Span()] == ValueAt(lib, rows[members[i - f.Span()]], c);
    }
  }

  /** The `k`-th lag of a row is the value `k` rows earlier at its site, and null in the first `k` rows. */
  lemma LagIsTheValueBefore(lib: Library, rows: seq<Row>, columns: seq<string>, g: nat, i: nat, c: string, f: Feature)
    requires NoDup(columns) && NoClash(columns) && c in columns && f.IsLag()
    requires g < |SiteGroups(lib, rows)| && i < |SiteRows(lib, rows, g)|
    ensures Positions(SiteRows(lib, rows, g), |rows|)
    ensures var site := SiteRows(lib, rows, g);
            Get(TableFeatures(lib, rows, columns)[site[i]], Name(c, f))
            == (if i < f.Span() then Null else CellOf(ValueAt(lib, rows[site[i - f.Span()]], c)))
  {
    TableHoldsFeatures(lib, rows, columns, g, i);
    var site := SiteRows(lib, rows, g);
    AmongFeatures(lib, rows, site, i, columns, TableFeatures(lib, rows, columns)[site[i]], c, f);
    LagOfPast(lib, rows, site, i, c, f);
  }

  /*** No feature reads its own row or a later one ***/

  /** Two tables with the same sites and dates that agree before the `i`-th row of a site give that row the same features. */
  lemma FeaturesNeverReadAhead(lib: Library, a: seq<Row>, b: seq<Row>, columns: seq<string>, g: nat, i: nat, c: string, f: Feature)
    requires NoDup(columns) && NoClash(columns) && c in columns && SameKeysThroughout(a, b)
    requires g < |SiteGroups(lib, a)| && i < |SiteRows(lib, a, g)|
    requires forall k :: 0 <= k < i && SiteRows(lib, a, g)[k] < |a| ==> a[SiteRows(lib, a, g)[k]] == b[SiteRows(lib, a, g)[k]]
    ensures SiteRows(lib, a, g)[i] < |a|
    ensures var j := SiteRows(lib, a, g)[i];
            Get(TableFeatures(lib, a, columns)[j], Name(c, f)) == Get(TableFeatures(lib, b, columns)[j], Name(c, f))
  {
    assert Map(a, SiteKeyOf(lib)) == Map(b, SiteKeyOf(lib));
    TableGroupsAreSeparate(Map(a, SiteKeyOf(lib)));
    SameMembers(lib, a, b, SiteGroups(lib, a)[g]);
    TableHoldsFeatures(lib, a, columns, g, i);
    TableHoldsFeatures(lib, b, columns, g, i);
    assert Past(lib, a, SiteRows(lib, a, g), i, c) == Past(lib, b, SiteRows(lib, a, g), i, c);
  }

  /*** Without the proviso on names ***/

  lemma OverwrittenBeforeRemembered(lib: Library, row: Row, columns: seq<string>, c: string, d: string, f: Feature)
    requires NoDup(columns) && c in columns && d in columns && c == Name(d, f)
    ensures var first := WithFeatures(lib, row, columns, map[], |columns|);
            HistoryOf(Appended(lib, first, columns, map[], |columns|), c) == [None]
  {
    var first := WithFeatures(lib, row, columns, map[], |columns|);
    assert columns[..|columns|] == columns;
    FeatureOfRow(lib, row, columns, map[], |columns|, d, f);
    assert ValueAt(lib, first, c) == None;
    AppendedAt(lib, first, columns, map[], |columns|, c);
  }

  /** Where a column is the name of another's feature, its own first value is overwritten before it is remembered. */
  lemma ClashForgetsAValue(lib: Library, columns: seq<string>, c: string, d: string, f: Feature)
    requires NoDup(columns) && c in columns && d in columns && c == Name(d, f)
    ensures var rows: seq<Row> := [map[c := Number(5.0)], map[]];
            && ValueAt(lib, rows[0], c) == Some(5.0)
            && Get(GroupRun(lib, rows, [0, 1], 0, columns, map[])[1], Name(c, Lag1)) == Null
  {
    var rows: seq<Row> := [map[c := Number(5.0)], map[]];
    var first := WithFeatures(lib, rows[0], columns, map[], |columns|);
    OverwrittenBeforeRemembered(lib, rows[0], columns, c, d, f);
    ForgottenLag(lib, columns, Appended(lib, first, columns, map[], |columns|), c);
    SecondOfTwo(lib, rows, columns);
  }

  lemma SecondOfTwo(lib: Library, rows: seq<Row>, columns: seq<string>)
    requires |rows| == 2
    ensures var first := WithFeatures(lib, rows[0], columns, map[], |columns|);
            GroupRun(lib, rows, [0, 1], 0, columns, map[])[1]
            == WithFeatures(lib, rows[1], columns, Appended(lib, first, columns, map[], |columns|), |columns|)
  {
  }

  lemma ForgottenLag(lib: Library, columns: seq<string>, h: Histories, c: string)
    requires c in columns && HistoryOf(h, c) == [None]
    ensures Get(WithFeatures(lib, map[], columns, h, |columns|), Name(c, Lag1)) == Null
  {
    assert columns[..|columns|] == columns;
    FeatureOfRow(lib, map[], columns, h, |columns|, c, Lag1);
  }

  /** A dataset and a column identifier joined as the silver table joins them. */
  ghost predicate IsMetricName(c: string) {
    exists d, x :: SingleInner(d) && SingleInner(x) && c == d + "__" + x
  }

  lemma SuffixStartsDouble(f: Feature)
    ensures exists rest :: f.Suffix() == "__" + rest
  {
    var rest := f.Suffix()[2..];
    assert f.Suffix()[0] == '_' && f.Suffix()[1] == '_';
    assert f.Suffix() == "__" + rest;
  }

  lemma FeatureOfMetricIsNoMetric(d: string, x: string, e: string, y: string, f: Feature)
    requires SingleInner(d) && SingleInner(x) && SingleInner(e)
    ensures d + "__" + x != Name(e + "__" + y, f)
  {
    SuffixStartsDouble(f);
    var rest :| f.Suffix() == "__" + rest;
    LongerIsNoJoin(d, x, e, y, rest);
  }

  lemma MetricNamesAre(abc: Alphabet, dataset: string, column: string)
    requires Sound(abc)
    ensures IsMetricName(MetricName(abc, dataset, column))
  {
    NormalizeIsWellFormed(abc, dataset);
    NormalizeIsWellFormed(abc, column);
  }

  /** The metric columns of the silver table meet the proviso: none is the name of a feature. */
  lemma MetricNamesNeverClash(columns: seq<string>)
    requires forall c :: c in columns ==> IsMetricName(c)
    ensures NoClash(columns)
  {
    forall c, e, f | c in columns && e in columns ensures c != Name(e, f) {
      var d, x :| SingleInner(d) && SingleInner(x) && c == d + "__" + x;
      var d', y :| SingleInner(d') && SingleInner(y) && e == d' + "__" + y;
      FeatureOfMetricIsNoMetric(d, x, d', y, f);
    }
  }
}
