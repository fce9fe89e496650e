/** Outlier clamping settles in one pass: its own output needs no clamping, and only such a table is left alone. */
module ClampLaws {
  import opened Wrappers
  import opened Sequences
  import opened Cells
  import opened SilverQuality

  /** The known values of a column at some positions, in order. */
  function ValuesAt(lib: Library, rows: seq<Row>, column: string, indices: seq<nat>): seq<real>
    requires forall i :: 0 <= i < |indices| ==> indices[i] < |rows|
  {
    if indices == [] then []
    else (match ValueAt(lib, rows[indices[0]], column) case Some(v) => [v] case None => [])
         + ValuesAt(lib, rows, column, indices[1..])
  }

  predicate InBand(lib: Library, history: seq<real>, value: real) {
    Judges(lib, history) ==> Low(lib, history) <= value <= High(lib, history)
  }

  /** Each value lies in the band of the 56 values, or fewer, right before it. */
  ghost predicate AllInBand(lib: Library, values: seq<real>) {
    forall k :: 0 <= k < |values| ==> InBand(lib, LastN(values[..k], 56), values[k])
  }

  /** The same, read from the front, with the values seen so far. */
  ghost predicate InBandAfter(lib: Library, prior: seq<real>, values: seq<real>)
    decreases |values|
  {
    values == []
    || (InBand(lib, LastN(prior, 56), values[0]) && InBandAfter(lib, prior + [values[0]], values[1..]))
  }

  lemma {:induction false} InBandAfterIsAllInBand(lib: Library, prior: seq<real>, values: seq<real>)
    ensures InBandAfter(lib, prior, values)
       <==> forall k :: |prior| <= k < |prior + values| ==> InBand(lib, LastN((prior + values)[..k], 56), (prior + values)[k])
    decreases |values|
  {
    if values != [] {
      var all := prior + values;
      InBandAfterIsAllInBand(lib, prior + [values[0]], values[1..]);
      assert prior + [values[0]] + values[1..] == all;
      assert all[..|prior|] == prior && all[|prior|] == values[0];
    }
  }

  lemma AllInBandFromFront(lib: Library, values: seq<real>)
    ensures InBandAfter(lib, [], values) <==> AllInBand(lib, values)
  {
    InBandAfterIsAllInBand(lib, [], values);
    assert [] + values == values;
  }

  lemma ClampedIsInBand(lib: Library, history: seq<real>, value: real)
    ensures InBand(lib, history, ClampValue(lib, history, value).0)
    ensures ClampValue(lib, history, value) == (value, false) <==> InBand(lib, history, value)
    ensures ClampValue(lib, history, value).1 <==> !InBand(lib, history, value)
  {
  }

  lemma {:induction false} ClampLeavesOthersAlone(lib: Library, rows: seq<Row>, column: string, indices: seq<nat>, history: seq<real>, j: nat)
    requires forall i :: 0 <= i < |indices| ==> indices[i] < |rows|
    requires j < |rows| && forall i :: 0 <= i < |indices| ==> indices[i] != j
    ensures ClampGroup(lib, rows, column, indices, history).0[j] == rows[j]
    decreases |indices|
  {
    if indices != [] {
      match ValueAt(lib, rows[indices[0]], column) {
        case None => ClampLeavesOthersAlone(lib, rows, column, indices[1..], history, j);
        case Some(v) =>
          var (c, was) := ClampValue(lib, history, v);
          var next := if was then rows[indices[0] := WithClamp(rows[indices[0]], column, c)] else rows;
          ClampLeavesOthersAlone(lib, next, column, indices[1..], PushBounded(history, c, 56), j);
      }
    }
  }

  lemma ClampedCellReads(lib: Library, row: Row, column: string, value: real)
    ensures ValueAt(lib, WithClamp(row, column, value), column) == Some(value)
  {
    assert Clamped(column) != column;
  }

  /** The output of one pass over a group is in band throughout. */
  lemma {:induction false} ClampOutputInBand(lib: Library, rows: seq<Row>, column: string, indices: seq<nat>, prior: seq<real>)
    requires forall i :: 0 <= i < |indices| ==> indices[i] < |rows|
    requires Ascending(indices)
    ensures InBandAfter(lib, prior, ValuesAt(lib, ClampGroup(lib, rows, column, indices, LastN(prior, 56)).0, column, indices))
    decreases |indices|
  {
    if indices != [] {
      var i, rest := indices[0], indices[1..];
      var out := ClampGroup(lib, rows, column, indices, LastN(prior, 56)).0;
      match ValueAt(lib, rows[i], column) {
        case None =>
          ClampOutputInBand(lib, rows, column, rest, prior);
          ClampLeavesOthersAlone(lib, rows, column, rest, LastN(prior, 56), i);
          assert [] + ValuesAt(lib, out, column, rest) == ValuesAt(lib, out, column, rest);
        case Some(v) =>
          var (c, was) := ClampValue(lib, LastN(prior, 56), v);
          var next := if was then rows[i := WithClamp(rows[i], column, c)] else rows;
          PushKeepsLast(prior, c, 56);
          ClampOutputInBand(lib, next, column, rest, prior + [c]);
          ClampLeavesOthersAlone(lib, next, column, rest, LastN(prior + [c], 56), i);
          ClampedIsInBand(lib, LastN(prior, 56), v);
          ClampedCellReads(lib, rows[i], column, c);
          assert ValueAt(lib, out[i], column) == Some(c);
          var values := ValuesAt(lib, out, column, rest);
          assert ([c] + values)[1..] == values;
      }
    }
  }

  /** A pass changes nothing, and counts nothing, exactly when the group is in band throughout. */
  lemma {:induction false} QuietIffInBand(lib: Library, rows: seq<Row>, column: string, indices: seq<nat>, prior: seq<real>)
    requires forall i :: 0 <= i < |indices| ==> indices[i] < |rows|
    ensures ClampGroup(lib, rows, column, indices, LastN(prior, 56)).1 == 0 <==> InBandAfter(lib, prior, ValuesAt(lib, rows, column, indices))
    ensures InBandAfter(lib, prior, ValuesAt(lib, rows, column, indices)) ==>
              ClampGroup(lib, rows, column, indices, LastN(prior, 56)) == (rows, 0)
    decreases |indices|
  {
    if indices != [] {
      var i, rest := indices[0], indices[1..];
      match ValueAt(lib, rows[i], column) {
        case None =>
          QuietIffInBand(lib, rows, column, rest, prior);
          assert [] + ValuesAt(lib, rows, column, rest) == ValuesAt(lib, rows, column, rest);
        case Some(v) =>
          ClampedIsInBand(lib, LastN(prior, 56), v);
          assert ([v] + ValuesAt(lib, rows, column, rest))[1..] == ValuesAt(lib, rows, column, rest);
          if InBand(lib, LastN(prior, 56), v) {
            PushKeepsLast(prior, v, 56);
            QuietIffInBand(lib, rows, column, rest, prior + [v]);
          }
      }
    }
  }

  /*** What each value becomes ***/

  /** The point of an interval that is nearest to a value. */
  ghost predicate Nearest(x: real, low: real, high: real, value: real) {
    && (low <= value <= high ==> x == value)
    && (value < low ==> x == low)
    && (low <= high < value ==> x == high)
  }

  /** How far each value is from `m`. */
  function Deviations(values: seq<real>, m: real): seq<real> {
    seq(|values|, k requires 0 <= k < |values| => if values[k] < m then m - values[k] else values[k] - m)
  }

  /**
   From 14 values on that are not all but equal: the nearest point of the band of 4.5 scaled median absolute
   deviations on either side of their median. Otherwise the value itself.
   */
  ghost predicate ClampedTo(lib: Library, history: seq<real>, value: real, x: real) {
    var m := lib.median(history);
    var mad := lib.median(Deviations(history, m));
    if |history| < 14 || mad <= 0.000000001 then x == value
    else Nearest(x, m - 4.5 * (1.4826 * mad), m + 4.5 * (1.4826 * mad), value)
  }

  /** What becomes of a row whose value is clamped to `x`: flagged if that is another value. */
  ghost predicate RowClampedTo(lib: Library, row: Row, column: string, history: seq<real>, next: Row) {
    match ValueAt(lib, row, column)
    case None => next == row
    case Some(v) => exists x :: ClampedTo(lib, history, v, x)
                      && next == (if x == v then row else row[column := Number(x)][column + "__outlier_clamped" := Flag(true)])
  }

  lemma DistancesAre(values: seq<real>, m: real)
    ensures Map(values, DistanceFrom(m)) == Deviations(values, m)
  {
    forall k | 0 <= k < |values| ensures Map(values, DistanceFrom(m))[k] == Deviations(values, m)[k] {
      assert Map(values, DistanceFrom(m))[k] == DistanceFrom(m)(values[k]);
      assert DistanceFrom(m)(values[k]) == Abs(values[k] - m);
    }
  }

  lemma ClampValueIsNearest(lib: Library, history: seq<real>, value: real)
    ensures ClampedTo(lib, history, value, ClampValue(lib, history, value).0)
    ensures ClampValue(lib, history, value).1 <==> ClampValue(lib, history, value).0 != value
  {
    DistancesAre(history, lib.median(history));
  }

  lemma FirstIsNearest(lib: Library, rows: seq<Row>, column: string, indices: seq<nat>, history: seq<real>)
    requires (forall i :: 0 <= i < |indices| ==> indices[i] < |rows|) && Ascending(indices) && indices != []
    ensures RowClampedTo(lib, rows[indices[0]], column, history, ClampGroup(lib, rows, column, indices, history).0[indices[0]])
  {
    var i, rest := indices[0], indices[1..];
    match ValueAt(lib, rows[i], column) {
      case None => ClampLeavesOthersAlone(lib, rows, column, rest, history, i);
      case Some(v) =>
        var (c, was) := ClampValue(lib, history, v);
        var next := if was then rows[i := WithClamp(rows[i], column, c)] else rows;
        ClampValueIsNearest(lib, history, v);
        ClampLeavesOthersAlone(lib, next, column, rest, PushBounded(history, c, 56), i);
    }
  }

  lemma ValuesOfPrefix(lib: Library, rows: seq<Row>, column: string, indices: seq<nat>, k: nat)
    requires (forall i :: 0 <= i < |indices| ==> indices[i] < |rows|) && 0 < k <= |indices|
    ensures ValuesAt(lib, rows, column, indices[..k])
         == (match ValueAt(lib, rows[indices[0]], column) case Some(v) => [v] case None => []) + ValuesAt(lib, rows, column, indices[1..][..k - 1])
  {
    assert indices[..k][1..] == indices[1..][..k - 1];
  }

  /** After the first position the pass goes on with a table that differs there alone, and with the output there appended. */
  lemma AfterTheFirst(lib: Library, rows: seq<Row>, column: string, indices: seq<nat>, prior: seq<real>) returns (next: seq<Row>, grown: seq<real>)
    requires (forall i :: 0 <= i < |indices| ==> indices[i] < |rows|) && Ascending(indices) && indices != []
    ensures |next| == |rows| && forall j :: 0 <= j < |rows| && j != indices[0] ==> next[j] == rows[j]
    ensures
      var out := ClampGroup(lib, rows, column, indices, LastN(prior, 56)).0;
      && out == ClampGroup(lib, next, column, indices[1..], LastN(grown, 56)).0
      && grown == prior + match ValueAt(lib, out[indices[0]], column) case Some(v) => [v] case None => []
  {
    var i, rest := indices[0], indices[1..];
    match ValueAt(lib, rows[i], column) {
      case None =>
        next, grown := rows, prior;
        ClampLeavesOthersAlone(lib, rows, column, rest, LastN(prior, 56), i);
        assert prior + [] == prior;
      case Some(v) =>
        var (c, was) := ClampValue(lib, LastN(prior, 56), v);
        next, grown := if was then rows[i := WithClamp(rows[i], column, c)] else rows, prior + [c];
        PushKeepsLast(prior, c, 56);
        ClampLeavesOthersAlone(lib, next, column, rest, LastN(grown, 56), i);
        ClampedIsInBand(lib, LastN(prior, 56), v);
        ClampedCellReads(lib, rows[i], column, c);
    }
  }

  lemma GrownByTheFirst(lib: Library, out: seq<Row>, column: string, indices: seq<nat>, k: nat, prior: seq<real>, grown: seq<real>)
    requires (forall i :: 0 <= i < |indices| ==> indices[i] < |out|) && 0 < k <= |indices|
    requires grown == prior + match ValueAt(lib, out[indices[0]], column) case Some(v) => [v] case None => []
    ensures grown + ValuesAt(lib, out, column, indices[1..][..k - 1]) == prior + ValuesAt(lib, out, column, indices[..k])
  {
    ValuesOfPrefix(lib, out, column, indices, k);
  }

  lemma {:induction false} OutputsAreNearest(lib: Library, rows: seq<Row>, column: string, indices: seq<nat>, prior: seq<real>, k: nat, out: seq<Row>,
                                             row: Row, history: seq<real>)
    requires (forall i :: 0 <= i < |indices| ==> indices[i] < |rows|) && Ascending(indices) && k < |indices|
    requires out == ClampGroup(lib, rows, column, indices, LastN(prior, 56)).0
    requires row == rows[indices[k]] && history == LastN(prior + ValuesAt(lib, out, column, indices[..k]), 56)
    ensures RowClampedTo(lib, row, column, history, out[indices[k]])
    decreases k
  {
    if k == 0 {
      FirstIsNearest(lib, rows, column, indices, LastN(prior, 56));
      assert prior + ValuesAt(lib, out, column, indices[..0]) == prior;
    } else {
      var next, grown := AfterTheFirst(lib, rows, column, indices, prior);
      assert indices[1..][k - 1] == indices[k];
      GrownByTheFirst(lib, out, column, indices, k, prior, grown);
      OutputsAreNearest(lib, next, column, indices[1..], grown, k - 1, out, row, history);
    }
  }

  /** Each value of a group becomes the nearest point of the band of the at most 56 outputs before it. */
  lemma EachOutputIsNearest(lib: Library, rows: seq<Row>, column: string, indices: seq<nat>, k: nat)
    requires (forall i :: 0 <= i < |indices| ==> indices[i] < |rows|) && Ascending(indices) && k < |indices|
    ensures
      var out := ClampGroup(lib, rows, column, indices, []).0;
      RowClampedTo(lib, rows[indices[k]], column, LastN(ValuesAt(lib, out, column, indices[..k]), 56), out[indices[k]])
  {
    var out := ClampGroup(lib, rows, column, indices, []).0;
    assert [] + ValuesAt(lib, out, column, indices[..k]) == ValuesAt(lib, out, column, indices[..k]);
    OutputsAreNearest(lib, rows, column, indices, [], k, out, rows[indices[k]], LastN(ValuesAt(lib, out, column, indices[..k]), 56));
  }

  /** Idempotence: a second pass over a group changes nothing and returns zero. */
  lemma ClampGroupTwice(lib: Library, rows: seq<Row>, column: string, indices: seq<nat>)
    requires (forall i :: 0 <= i < |indices| ==> indices[i] < |rows|) && Ascending(indices)
    ensures
      var once := ClampGroup(lib, rows, column, indices, []).0;
      && AllInBand(lib, ValuesAt(lib, once, column, indices))
      && ClampGroup(lib, once, column, indices, []) == (once, 0)
  {
    var once := ClampGroup(lib, rows, column, indices, []).0;
    ClampOutputInBand(lib, rows, column, indices, []);
    QuietIffInBand(lib, once, column, indices, []);
    AllInBandFromFront(lib, ValuesAt(lib, once, column, indices));
  }

  /*** All groups of a table ***/

  ghost predicate GroupInBand(lib: Library, rows: seq<Row>, column: string, indices: seq<nat>) {
    (forall i :: 0 <= i < |indices| ==> indices[i] < |rows|) && InBandAfter(lib, [], ValuesAt(lib, rows, column, indices))
  }

  lemma {:induction false} SameRowsSameValues(lib: Library, a: seq<Row>, b: seq<Row>, column: string, indices: seq<nat>)
    requires forall i :: 0 <= i < |indices| ==> indices[i] < |a| && indices[i] < |b| && a[indices[i]] == b[indices[i]]
    ensures ValuesAt(lib, a, column, indices) == ValuesAt(lib, b, column, indices)
  {
    if indices != [] {
      SameRowsSameValues(lib, a, b, column, indices[1..]);
    }
  }

  lemma {:induction false} GroupsLeaveOthersAlone(lib: Library, rows: seq<Row>, column: string, groups: seq<seq<nat>>, j: nat)
    requires InTable(groups, |rows|) && j < |rows| && forall g :: 0 <= g < |groups| ==> j !in groups[g]
    ensures ClampGroups(lib, rows, column, groups).0[j] == rows[j]
    decreases |groups|
  {
    if groups != [] {
      assert forall i :: 0 <= i < |groups[0]| ==> groups[0][i] != j;
      ClampLeavesOthersAlone(lib, rows, column, groups[0], [], j);
      GroupsLeaveOthersAlone(lib, ClampGroup(lib, rows, column, groups[0], []).0, column, groups[1..], j);
    }
  }

  lemma {:induction false} GroupsOutputInBand(lib: Library, rows: seq<Row>, column: string, groups: seq<seq<nat>>)
    requires InTable(groups, |rows|) && Separate(groups)
    ensures forall g :: 0 <= g < |groups| ==> GroupInBand(lib, ClampGroups(lib, rows, column, groups).0, column, groups[g])
    decreases |groups|
  {
    if groups != [] {
      var first := ClampGroup(lib, rows, column, groups[0], []).0;
      var out := ClampGroups(lib, rows, column, groups).0;
      ClampOutputInBand(lib, rows, column, groups[0], []);
      GroupsOutputInBand(lib, first, column, groups[1..]);
      forall i | 0 <= i < |groups[0]| ensures out[groups[0][i]] == first[groups[0][i]] {
        NotInLater(groups, groups[0][i]);
        GroupsLeaveOthersAlone(lib, first, column, groups[1..], groups[0][i]);
      }
      SameRowsSameValues(lib, out, first, column, groups[0]);
      forall g | 0 <= g < |groups| ensures GroupInBand(lib, out, column, groups[g]) {
        if g > 0 {
          assert groups[g] == groups[1..][g - 1];
        }
      }
    }
  }

  lemma {:induction false} QuietWhenInBand(lib: Library, rows: seq<Row>, column: string, groups: seq<seq<nat>>)
    requires InTable(groups, |rows|)
    requires forall g :: 0 <= g < |groups| ==> GroupInBand(lib, rows, column, groups[g])
    ensures ClampGroups(lib, rows, column, groups) == (rows, 0)
    decreases |groups|
  {
    if groups != [] {
      QuietIffInBand(lib, rows, column, groups[0], []);
      QuietWhenInBand(lib, rows, column, groups[1..]);
    }
  }

  /** Idempotence for a whole column: clamping every group of a table a second time changes nothing. */
  lemma ClampGroupsTwice(lib: Library, rows: seq<Row>, column: string, groups: seq<seq<nat>>)
    requires InTable(groups, |rows|) && Separate(groups)
    ensures
      var once := ClampGroups(lib, rows, column, groups).0;
      ClampGroups(lib, once, column, groups) == (once, 0)
  {
    GroupsOutputInBand(lib, rows, column, groups);
    QuietWhenInBand(lib, ClampGroups(lib, rows, column, groups).0, column, groups);
  }
}
