/**
 The columns of the quality pass take turns. What a turn leaves alone, and so which regime each column
 meets: the one of the table the pass started from, when no earlier column writes its cells.
 */
module ColumnTurns {
  import opened Wrappers
  import opened Sequences
  import opened StableSort
  import opened InsertionMap
  import opened Cells
  import opened SilverQuality
  import opened NoLookahead

  /*** What a turn writes ***/

  /** Neither the column nor one of its flags is the other column. */
  predicate Spares(column: string, other: string) {
    other != column && other != Imputed(column) && other != ImputationMethod(column) && other != Clamped(column)
  }

  lemma FlagsAreOther(column: string)
    ensures Imputed(column) != column && ImputationMethod(column) != column && Clamped(column) != column
  {
    assert |Imputed(column)| != |column| && |ImputationMethod(column)| != |column| && |Clamped(column)| != |column|;
  }

  /** The same keys, and the same cell of this column, in every row. */
  ghost predicate SameCells(a: seq<Row>, b: seq<Row>, column: string) {
    |a| == |b| && forall i :: 0 <= i < |a| ==> SameKeys(a[i], b[i]) && Get(a[i], column) == Get(b[i], column)
  }

  lemma {:induction false} ImputeSpares(lib: Library, rows: seq<Row>, n: nat, column: string, columns: seq<string>, groups: Groups,
                                        regime: Regime, other: string, i: nat)
    requires n <= |rows| && i < |rows| && Spares(column, other)
    ensures Get(Impute(lib, rows, n, column, columns, groups, regime)[i], other) == Get(rows[i], other)
  {
    if n > 0 {
      ImputeSpares(lib, rows, n - 1, column, columns, groups, regime, other, i);
    }
  }

  lemma {:induction false} ClampGroupSpares(lib: Library, rows: seq<Row>, column: string, indices: seq<nat>, history: seq<real>,
                                            other: string, i: nat)
    requires (forall q :: 0 <= q < |indices| ==> indices[q] < |rows|) && i < |rows| && Spares(column, other)
    ensures Get(ClampGroup(lib, rows, column, indices, history).0[i], other) == Get(rows[i], other)
    decreases |indices|
  {
    if indices != [] {
      match ValueAt(lib, rows[indices[0]], column) {
        case None => ClampGroupSpares(lib, rows, column, indices[1..], history, other, i);
        case Some(v) =>
          var (c, was) := ClampValue(lib, history, v);
          var next := if was then rows[indices[0] := WithClamp(rows[indices[0]], column, c)] else rows;
          ClampGroupSpares(lib, next, column, indices[1..], PushBounded(history, c, 56), other, i);
      }
    }
  }

  lemma {:induction false} ClampsSpare(lib: Library, rows: seq<Row>, column: string, groups: seq<seq<nat>>, other: string, i: nat)
    requires InTable(groups, |rows|) && i < |rows| && Spares(column, other)
    ensures Get(ClampGroups(lib, rows, column, groups).0[i], other) == Get(rows[i], other)
    decreases |groups|
  {
    if groups != [] {
      ClampGroupSpares(lib, rows, column, groups[0], [], other, i);
      ClampsSpare(lib, ClampGroup(lib, rows, column, groups[0], []).0, column, groups[1..], other, i);
    }
  }

  lemma {:induction false} ClampGroupKeepsKeys(lib: Library, rows: seq<Row>, column: string, indices: seq<nat>, history: seq<real>, i: nat)
    requires (forall q :: 0 <= q < |indices| ==> indices[q] < |rows|) && i < |rows| && IsMetric(column)
    ensures SameKeys(rows[i], ClampGroup(lib, rows, column, indices, history).0[i])
    decreases |indices|
  {
    if indices != [] {
      match ValueAt(lib, rows[indices[0]], column) {
        case None => ClampGroupKeepsKeys(lib, rows, column, indices[1..], history, i);
        case Some(v) =>
          var (c, was) := ClampValue(lib, history, v);
          ClampKeepsKeys(rows[indices[0]], column, c);
          var next := if was then rows[indices[0] := WithClamp(rows[indices[0]], column, c)] else rows;
          ClampGroupKeepsKeys(lib, next, column, indices[1..], PushBounded(history, c, 56), i);
      }
    }
  }

  lemma {:induction false} ClampsKeepKeys(lib: Library, rows: seq<Row>, column: string, groups: seq<seq<nat>>, i: nat)
    requires InTable(groups, |rows|) && i < |rows| && IsMetric(column)
    ensures SameKeys(rows[i], ClampGroups(lib, rows, column, groups).0[i])
    decreases |groups|
  {
    if groups != [] {
      ClampGroupKeepsKeys(lib, rows, column, groups[0], [], i);
      ClampsKeepKeys(lib, ClampGroup(lib, rows, column, groups[0], []).0, column, groups[1..], i);
    }
  }

  lemma SeedKeepsCells(rows: seq<Row>, column: string, other: string)
    requires IsMetric(column) && (Spares(column, other) || other == column)
    ensures SameCells(rows, Seed(rows, column), other)
  {
    FlagsAreOther(column);
    forall i | 0 <= i < |rows| ensures SameKeys(rows[i], Seed(rows, column)[i]) && Get(rows[i], other) == Get(Seed(rows, column)[i], other) {
      SeedKeepsKeys(rows[i], column);
    }
  }

  lemma ColumnKeepsKeys(lib: Library, rows: seq<Row>, column: string, columns: seq<string>, groups: Groups, regime: Regime)
    requires GroupsFit(groups, |rows|) && IsMetric(column)
    ensures SameKeysThroughout(rows, QualityColumn(lib, rows, column, columns, groups, regime))
  {
    var imputed := Impute(lib, rows, |rows|, column, columns, groups, regime);
    ImputeKeepsKeys(lib, rows, |rows|, column, columns, groups, regime);
    forall i | 0 <= i < |rows| ensures SameKeys(rows[i], QualityColumn(lib, rows, column, columns, groups, regime)[i]) {
      ClampsKeepKeys(lib, imputed, column, groups.sites.Values(), i);
    }
  }

  lemma ColumnSpares(lib: Library, rows: seq<Row>, column: string, columns: seq<string>, groups: Groups, regime: Regime, other: string)
    requires GroupsFit(groups, |rows|) && IsMetric(column) && Spares(column, other)
    ensures SameCells(rows, QualityColumn(lib, rows, column, columns, groups, regime), other)
  {
    var imputed := Impute(lib, rows, |rows|, column, columns, groups, regime);
    ColumnKeepsKeys(lib, rows, column, columns, groups, regime);
    forall i | 0 <= i < |rows| ensures Get(QualityColumn(lib, rows, column, columns, groups, regime)[i], other) == Get(rows[i], other) {
      ImputeSpares(lib, rows, |rows|, column, columns, groups, regime, other, i);
      ClampsSpare(lib, imputed, column, groups.sites.Values(), other, i);
    }
  }

  /*** Turn by turn ***/

  /** One turn: the flags are seeded, then the gaps filled and the outliers clamped. */
  function Turn(lib: Library, rows: seq<Row>, column: string, columns: seq<string>, groups: Groups): (out: seq<Row>)
    requires GroupsFit(groups, |rows|)
    ensures |out| == |rows|
  {
    QualityColumn(lib, Seed(rows, column), column, columns, groups, RegimeIn(lib, Seed(rows, column), column))
  }

  lemma TurnSpares(lib: Library, rows: seq<Row>, column: string, columns: seq<string>, groups: Groups, other: string)
    requires GroupsFit(groups, |rows|) && IsMetric(column) && Spares(column, other)
    ensures SameCells(rows, Turn(lib, rows, column, columns, groups), other)
  {
    SeedKeepsCells(rows, column, other);
    ColumnSpares(lib, Seed(rows, column), column, columns, groups, RegimeIn(lib, Seed(rows, column), column), other);
  }

  lemma TurnKeepsKeys(lib: Library, rows: seq<Row>, column: string, columns: seq<string>, groups: Groups)
    requires GroupsFit(groups, |rows|) && IsMetric(column)
    ensures SameKeysThroughout(rows, Turn(lib, rows, column, columns, groups))
  {
    SeedKeepsCells(rows, column, column);
    ColumnKeepsKeys(lib, Seed(rows, column), column, columns, groups, RegimeIn(lib, Seed(rows, column), column));
  }

  lemma SameKeysInTurn(a: seq<Row>, b: seq<Row>, c: seq<Row>)
    requires SameKeysThroughout(a, b) && SameKeysThroughout(b, c)
    ensures SameKeysThroughout(a, c)
  {
  }

  lemma SameCellsInTurn(a: seq<Row>, b: seq<Row>, c: seq<Row>, column: string)
    requires SameCells(a, b, column) && SameCells(b, c, column)
    ensures SameCells(a, c, column)
  {
  }

  lemma NextPass(lib: Library, rows: seq<Row>, columns: seq<string>, k: nat, groups: Groups)
    requires k < |columns| && GroupsFit(groups, |rows|)
    ensures QualityPass(lib, rows, columns, k, groups) == QualityPass(lib, Turn(lib, rows, columns[k], columns, groups), columns, k + 1, groups)
  {
  }

  lemma NextRegimes(lib: Library, rows: seq<Row>, columns: seq<string>, k: nat, groups: Groups)
    requires k < |columns| && GroupsFit(groups, |rows|)
    ensures Regimes(lib, rows, columns, k, groups)
         == [RegimeIn(lib, Seed(rows, columns[k]), columns[k])]
            + Regimes(lib, Turn(lib, rows, columns[k], columns, groups), columns, k + 1, groups)
  {
  }

  lemma RestOfRegimes(lib: Library, rows: seq<Row>, columns: seq<string>, k: nat, groups: Groups, next: seq<Row>, all: seq<Regime>)
    requires k < |columns| && GroupsFit(groups, |rows|) && next == Turn(lib, rows, columns[k], columns, groups)
    requires all == Regimes(lib, rows, columns, k, groups)
    ensures all != [] && GroupsFit(groups, |next|) && all[1..] == Regimes(lib, next, columns, k + 1, groups)
  {
    NextRegimes(lib, rows, columns, k, groups);
  }

  lemma RestOfPass(lib: Library, rows: seq<Row>, columns: seq<string>, k: nat, groups: Groups, next: seq<Row>, out: seq<Row>)
    requires k < |columns| && GroupsFit(groups, |rows|) && next == Turn(lib, rows, columns[k], columns, groups)
    requires out == QualityPass(lib, rows, columns, k, groups)
    ensures GroupsFit(groups, |next|) && out == QualityPass(lib, next, columns, k + 1, groups)
  {
    NextPass(lib, rows, columns, k, groups);
  }

  /** The turns from `k` on keep the keys. */
  lemma {:induction false} TurnsKeepKeys(lib: Library, rows: seq<Row>, columns: seq<string>, k: nat, groups: Groups)
    requires k <= |columns| && GroupsFit(groups, |rows|) && forall c :: k <= c < |columns| ==> IsMetric(columns[c])
    ensures SameKeysThroughout(rows, QualityPass(lib, rows, columns, k, groups))
    decreases |columns| - k
  {
    if k < |columns| {
      var next := Turn(lib, rows, columns[k], columns, groups);
      NextPass(lib, rows, columns, k, groups);
      TurnKeepsKeys(lib, rows, columns[k], columns, groups);
      TurnsKeepKeys(lib, next, columns, k + 1, groups);
      SameKeysInTurn(rows, next, QualityPass(lib, next, columns, k + 1, groups));
    }
  }

  /** Turns that do not write a column, from `k` on, leave its cells alone. */
  lemma {:induction false} TurnsSpare(lib: Library, rows: seq<Row>, columns: seq<string>, k: nat, groups: Groups, other: string)
    requires k <= |columns| && GroupsFit(groups, |rows|)
    requires forall c :: k <= c < |columns| ==> IsMetric(columns[c]) && Spares(columns[c], other)
    ensures SameCells(rows, QualityPass(lib, rows, columns, k, groups), other)
    decreases |columns| - k
  {
    if k < |columns| {
      var next := Turn(lib, rows, columns[k], columns, groups);
      NextPass(lib, rows, columns, k, groups);
      TurnSpares(lib, rows, columns[k], columns, groups, other);
      TurnsSpare(lib, next, columns, k + 1, groups, other);
      SameCellsInTurn(rows, next, QualityPass(lib, next, columns, k + 1, groups), other);
    }
  }

  /** From the table of turn `m` on, steps that keep a property reach a table at turn `k` that has it. */
  lemma {:induction false} Reached<T(!new)>(step: (T, nat) -> T, holds: (T, nat) -> bool, x: T, m: nat, k: nat) returns (y: T)
    requires m <= k && holds(x, m) && forall z, c: nat :: m <= c < k && holds(z, c) ==> holds(step(z, c), c + 1)
    ensures holds(y, k)
    decreases k - m
  {
    if m == k {
      y := x;
    } else {
      assert holds(step(x, m), m + 1);
      y := Reached(step, holds, step(x, m), m + 1, k);
    }
  }

  /** At turn `c`: the cells of column `k` are as at the start, and the rest of the pass is still to come. */
  ghost predicate AtTurn(lib: Library, rows: seq<Row>, columns: seq<string>, k: nat, groups: Groups, at: seq<Row>, c: nat)
    requires k < |columns| && GroupsFit(groups, |rows|)
  {
    && c <= |columns| && |at| == |rows| && SameCells(rows, at, columns[k])
    && QualityPass(lib, at, columns, c, groups) == QualityPass(lib, rows, columns, 0, groups)
    && Regimes(lib, at, columns, c, groups) == Regimes(lib, rows, columns, 0, groups)[c..]
  }

  lemma OneMoreTurn(lib: Library, rows: seq<Row>, columns: seq<string>, k: nat, groups: Groups, at: seq<Row>, c: nat)
    requires k < |columns| && GroupsFit(groups, |rows|) && c < k && AtTurn(lib, rows, columns, k, groups, at, c)
    requires IsMetric(columns[c]) && Spares(columns[c], columns[k])
    ensures AtTurn(lib, rows, columns, k, groups, Turn(lib, at, columns[c], columns, groups), c + 1)
  {
    var next, all := Turn(lib, at, columns[c], columns, groups), Regimes(lib, rows, columns, 0, groups);
    RestOfPass(lib, at, columns, c, groups, next, QualityPass(lib, rows, columns, 0, groups));
    RestOfRegimes(lib, at, columns, c, groups, next, all[c..]);
    assert all[c..][1..] == all[c + 1..];
    TurnSpares(lib, at, columns[c], columns, groups, columns[k]);
    SameCellsInTurn(rows, at, next, columns[k]);
  }

  /** The table when the turn of column `k` comes, if no turn before writes the column. */
  lemma TurnOf(lib: Library, rows: seq<Row>, columns: seq<string>, k: nat, groups: Groups) returns (at: seq<Row>)
    requires k < |columns| && GroupsFit(groups, |rows|)
    requires forall c :: 0 <= c < k ==> IsMetric(columns[c]) && Spares(columns[c], columns[k])
    ensures AtTurn(lib, rows, columns, k, groups, at, k)
  {
    var step := (r: seq<Row>, c: nat) => if c < k && |r| == |rows| then Turn(lib, r, columns[c], columns, groups) else r;
    var holds := (r: seq<Row>, c: nat) => AtTurn(lib, rows, columns, k, groups, r, c);
    forall r: seq<Row>, c: nat | c < k && holds(r, c) ensures holds(step(r, c), c + 1) {
      OneMoreTurn(lib, rows, columns, k, groups, r, c);
    }
    at := Reached(step, holds, rows, 0, k);
  }

  /*** The regimes, from the table the pass starts with ***/

  /** The mechanism of a column is found from the key columns and the column alone. */
  ghost predicate MechanismReads(lib: Library) {
    forall a, b, column :: SameCells(a, b, column) ==> lib.mechanism(a, column) == lib.mechanism(b, column)
  }

  lemma {:induction false} SameCellsSameMissing(lib: Library, a: seq<Row>, b: seq<Row>, column: string)
    requires SameCells(a, b, column)
    ensures MissingCount(lib, a, column) == MissingCount(lib, b, column)
  {
    if a != [] {
      SameCellsSameMissing(lib, a[..|a| - 1], b[..|b| - 1], column);
    }
  }

  lemma SameCellsSameRegime(lib: Library, a: seq<Row>, b: seq<Row>, column: string)
    requires SameCells(a, b, column) && MechanismReads(lib)
    ensures RegimeIn(lib, a, column) == RegimeIn(lib, b, column)
  {
    SameCellsSameMissing(lib, a, b, column);
  }

  /** No earlier column writes the cells of a later one. */
  ghost predicate EarlierSpareLater(columns: seq<string>) {
    forall m, k :: 0 <= m < k < |columns| ==> Spares(columns[m], columns[k])
  }

  lemma SeedKeepsRegime(lib: Library, rows: seq<Row>, column: string)
    requires MechanismReads(lib) && IsMetric(column)
    ensures RegimeIn(lib, Seed(rows, column), column) == RegimeIn(lib, rows, column)
  {
    SeedKeepsCells(rows, column, column);
    SameCellsSameRegime(lib, rows, Seed(rows, column), column);
  }

  /** So the regime of each column is the one of the table the pass starts with. */
  lemma RegimeFromTheStart(lib: Library, rows: seq<Row>, columns: seq<string>, k: nat, groups: Groups)
    requires k < |columns| && GroupsFit(groups, |rows|) && MechanismReads(lib) && EarlierSpareLater(columns)
    requires forall c :: 0 <= c < |columns| ==> IsMetric(columns[c])
    ensures k < |Regimes(lib, rows, columns, 0, groups)| && Regimes(lib, rows, columns, 0, groups)[k] == RegimeIn(lib, rows, columns[k])
  {
    var all := Regimes(lib, rows, columns, 0, groups);
    var at := TurnOf(lib, rows, columns, k, groups);
    NextRegimes(lib, at, columns, k, groups);
    assert all[k..][0] == all[k] == RegimeIn(lib, Seed(at, columns[k]), columns[k]);
    SeedKeepsRegime(lib, at, columns[k]);
    SameCellsSameRegime(lib, rows, at, columns[k]);
  }

  lemma {:induction false} MissingIsFilterCount(lib: Library, rows: seq<Row>, column: string)
    ensures MissingCount(lib, rows, column) == |Filter(rows, IsGap(lib, column))|
  {
    if rows != [] {
      var n := |rows| - 1;
      MissingIsFilterCount(lib, rows[..n], column);
      FilterAppend(rows[..n], [rows[n]], IsGap(lib, column));
      assert rows == rows[..n] + [rows[n]];
      assert Filter([rows[n]], IsGap(lib, column)) == if IsGap(lib, column)(rows[n]) then [rows[n]] else [];
    }
  }

  function IsGap(lib: Library, column: string): Row -> bool {
    (row: Row) => ValueAt(lib, row, column).None?
  }

  /** Sorting changes no missing rate. */
  lemma SortKeepsRate(lib: Library, table: seq<Row>, column: string)
    ensures MissingRate(lib, SortedRows(lib, table), column) == MissingRate(lib, table, column)
  {
    MissingIsFilterCount(lib, table, column);
    MissingIsFilterCount(lib, SortedRows(lib, table), column);
    RowOrderIsPreorder(lib);
    SortFilter(table, ByRowOrder(lib), IsGap(lib, column));
  }

  /** The regime a column starts with, from the missing rate and the mechanism of the input table. */
  function InputRegime(lib: Library, table: seq<Row>, column: string): Regime {
    RegimeOf(MissingRate(lib, table, column), lib.mechanism(SortedRows(lib, table), column))
  }

  lemma RegimesAreInputRegimes(lib: Library, table: seq<Row>, columns: seq<string>)
    requires MechanismReads(lib) && EarlierSpareLater(columns) && forall c :: 0 <= c < |columns| ==> IsMetric(columns[c])
    ensures |RegimesOf(lib, table, columns)| == |columns|
    ensures forall k :: 0 <= k < |columns| ==> RegimesOf(lib, table, columns)[k] == InputRegime(lib, table, columns[k])
  {
    var rows := SortedRows(lib, table);
    TableGroupsFit(lib, rows);
    var groups := GroupsOf(lib, rows);
    assert RegimesOf(lib, table, columns) == Regimes(lib, rows, columns, 0, groups);
    forall k | 0 <= k < |columns| ensures RegimesOf(lib, table, columns)[k] == InputRegime(lib, table, columns[k]) {
      RegimeFromTheStart(lib, rows, columns, k, groups);
      SortKeepsRate(lib, table, columns[k]);
    }
  }

  /**
   No lookahead, with a condition that can be checked before the pass: no earlier column writes the cells of a
   later one, the mechanism reads only the keys and its column, and missing rate and mechanism of each column
   in the two input tables lead to the same regime.
   */
  lemma NoLookaheadFromTheInput(lib: Library, a: seq<Row>, b: seq<Row>, cut: string, columns: seq<string>)
    requires DatesInOrder(lib, a) && AgreeBefore(lib, a, b, cut)
    requires MechanismReads(lib) && EarlierSpareLater(columns) && forall c :: 0 <= c < |columns| ==> IsMetric(columns[c])
    requires forall c :: 0 <= c < |columns| ==> InputRegime(lib, a, columns[c]) == InputRegime(lib, b, columns[c])
    ensures AgreeBefore(lib, ApplyQuality(lib, a, columns), ApplyQuality(lib, b, columns), cut)
  {
    RegimesAreInputRegimes(lib, a, columns);
    RegimesAreInputRegimes(lib, b, columns);
    SilverHasNoLookahead(lib, a, b, cut, columns);
  }
}
