/**
 Earlier rows by position: the lists that the quality pass reads through its groups, restated as the
 positions before a row that have a given property.
 */
module EarlierRows {
  import opened Wrappers
  import opened Sequences
  import opened InsertionMap
  import opened Cells
  import opened SilverQuality
  import opened ClampLaws

  /** The positions before `n` that have the property, in table order. */
  ghost predicate Picks(ps: seq<nat>, n: nat, p: nat -> bool) {
    Ascending(ps) && forall j: nat :: j in ps <==> j < n && p(j)
  }

  lemma PicksBelow(ps: seq<nat>, n: nat, p: nat -> bool)
    requires Picks(ps, n, p)
    ensures forall k :: 0 <= k < |ps| ==> ps[k] < n
  {
    forall k | 0 <= k < |ps| ensures ps[k] < n {
      assert ps[k] in ps;
    }
  }

  lemma {:induction false} SameMembersSameList(a: seq<nat>, b: seq<nat>)
    requires Ascending(a) && Ascending(b) && forall j: nat :: j in a <==> j in b
    ensures a == b
  {
    assert (a != [] ==> a[0] in b) && (b != [] ==> b[0] in a);
    if a != [] {
      assert a[0] == b[0];
      forall j: nat ensures j in a[1..] <==> j in b[1..] {
        WithoutTheFirst(a, j);
        WithoutTheFirst(b, j);
      }
      SameMembersSameList(a[1..], b[1..]);
    }
  }

  lemma WithoutTheFirst(a: seq<nat>, j: nat)
    requires Ascending(a) && a != []
    ensures j in a[1..] <==> j in a && j != a[0]
  {
    assert a == [a[0]] + a[1..];
  }

  lemma PicksAreUnique(ps: seq<nat>, qs: seq<nat>, n: nat, p: nat -> bool)
    requires Picks(ps, n, p) && Picks(qs, n, p)
    ensures ps == qs
  {
    SameMembersSameList(ps, qs);
  }

  /** There is such a list. */
  lemma {:induction false} PicksExist(n: nat, p: nat -> bool) returns (ps: seq<nat>)
    ensures Picks(ps, n, p)
  {
    if n == 0 {
      ps := [];
    } else {
      var before := PicksExist(n - 1, p);
      PicksBelow(before, n - 1, p);
      ps := if p(n - 1) then before + [n - 1] else before;
    }
  }

  /** The positions of a list that have a further property. */
  function Kept(ps: seq<nat>, q: nat -> bool): seq<nat> {
    Filter(ps, q)
  }

  lemma {:induction false} KeptInOrder(ps: seq<nat>, q: nat -> bool)
    requires Ascending(ps)
    ensures Ascending(Kept(ps, q)) && forall j :: j in Kept(ps, q) <==> j in ps && q(j)
  {
    FilterMembers(ps, q);
    if ps != [] {
      KeptInOrder(ps[1..], q);
      var rest := Kept(ps[1..], q);
      forall k | 0 <= k < |rest| ensures ps[0] < rest[k] {
        assert rest[k] in ps[1..];
      }
    }
  }

  /** From an ascending list that holds all the positions with the property, the others dropped: the list of them. */
  lemma KeptIsPicked(idx: seq<nat>, q: nat -> bool, ps: seq<nat>, n: nat, p: nat -> bool)
    requires Ascending(idx) && Picks(ps, n, p) && forall j: nat :: (j in idx && q(j)) <==> (j < n && p(j))
    ensures Kept(idx, q) == ps
  {
    KeptInOrder(idx, q);
    SameMembersSameList(Kept(idx, q), ps);
  }

  lemma KeptOfOneMore(ps: seq<nat>, j: nat, q: nat -> bool)
    ensures Kept(ps + [j], q) == if q(j) then Kept(ps, q) + [j] else Kept(ps, q)
  {
    FilterAppend(ps, [j], q);
    assert Filter([j][1..], q) == [];
  }

  /*** Groups ***/

  /** A group holds the positions of its key, in order. */
  lemma GroupLists<K>(keys: seq<K>, k: K)
    ensures var idx := GroupBy(keys).Get(k).GetOr([]);
            Ascending(idx) && forall j: nat :: j in idx <==> j < |keys| && keys[j] == k
  {
    GroupByGroups(keys);
    var idx := GroupBy(keys).Get(k).GetOr([]);
    forall j: nat ensures j in idx <==> j < |keys| && keys[j] == k {
      if j in idx {
        var p :| 0 <= p < |idx| && idx[p] == j;
      }
    }
  }

  lemma SiteGroupLists(lib: Library, rows: seq<Row>, k: (string, string))
    ensures var idx := GroupsOf(lib, rows).sites.Get(k).GetOr([]);
            Ascending(idx) && forall j: nat :: j in idx <==> j < |rows| && SiteKeyOf(lib)(rows[j]) == k
  {
    GroupLists(Map(rows, SiteKeyOf(lib)), k);
  }

  lemma ClientGroupLists(lib: Library, rows: seq<Row>, k: string)
    ensures var idx := GroupsOf(lib, rows).clients.Get(k).GetOr([]);
            Ascending(idx) && forall j: nat :: j in idx <==> j < |rows| && ClientOf(lib)(rows[j]) == k
  {
    GroupLists(Map(rows, ClientOf(lib)), k);
  }

  /*** What is read at the positions ***/

  lemma {:induction false} ValuesAtAppend(lib: Library, rows: seq<Row>, column: string, a: seq<nat>, b: seq<nat>)
    requires (forall i :: 0 <= i < |a| ==> a[i] < |rows|) && forall i :: 0 <= i < |b| ==> b[i] < |rows|
    ensures forall i :: 0 <= i < |a + b| ==> (a + b)[i] < |rows|
    ensures ValuesAt(lib, rows, column, a + b) == ValuesAt(lib, rows, column, a) + ValuesAt(lib, rows, column, b)
  {
    if a == [] {
      assert a + b == b;
    } else {
      assert (a + b)[1..] == a[1..] + b;
      ValuesAtAppend(lib, rows, column, a[1..], b);
    }
  }

  function CellValues(lib: Library, row: Row, column: string): seq<real> {
    match ValueAt(lib, row, column) case Some(v) => [v] case None => []
  }

  lemma ValuesAtOne(lib: Library, rows: seq<Row>, column: string, i: nat)
    requires i < |rows|
    ensures ValuesAt(lib, rows, column, [i]) == CellValues(lib, rows[i], column)
  {
    assert ValuesAt(lib, rows, column, [i][1..]) == [];
  }

  ghost predicate InRows(ps: seq<nat>, size: nat) {
    forall k :: 0 <= k < |ps| ==> ps[k] < size
  }

  function RowsAt(rows: seq<Row>, ps: seq<nat>): seq<Row>
    requires InRows(ps, |rows|)
  {
    seq(|ps|, k requires 0 <= k < |ps| => rows[ps[k]])
  }

  lemma RowsAtOneMore(rows: seq<Row>, ps: seq<nat>, j: nat)
    requires InRows(ps, |rows|) && j < |rows|
    ensures InRows(ps + [j], |rows|) && RowsAt(rows, ps + [j]) == RowsAt(rows, ps) + [rows[j]]
  {
  }

  function BeforeRow(rows: seq<Row>, current: nat): nat -> bool {
    (j: nat) => j < current && j < |rows|
  }

  lemma KeptInRows(rows: seq<Row>, idx: seq<nat>, current: nat)
    ensures InRows(Kept(idx, BeforeRow(rows, current)), |rows|)
  {
    var ps := Kept(idx, BeforeRow(rows, current));
    FilterMembers(idx, BeforeRow(rows, current));
    forall k | 0 <= k < |ps| ensures ps[k] < |rows| {
      assert ps[k] in ps;
    }
  }

  lemma {:induction false} PastRowsAt(rows: seq<Row>, idx: seq<nat>, current: nat)
    ensures InRows(Kept(idx, BeforeRow(rows, current)), |rows|)
    ensures PastRows(rows, idx, current) == RowsAt(rows, Kept(idx, BeforeRow(rows, current)))
    decreases |idx|
  {
    var q := BeforeRow(rows, current);
    KeptInRows(rows, idx, current);
    if idx != [] {
      var n, j := |idx| - 1, idx[|idx| - 1];
      PastRowsAt(rows, idx[..n], current);
      assert idx == idx[..n] + [j];
      KeptOfOneMore(idx[..n], j, q);
      if q(j) {
        RowsAtOneMore(rows, Kept(idx[..n], q), j);
      }
    }
  }

  /** The past of a row: the rows of a group before it. */
  lemma PastIsListed(rows: seq<Row>, idx: seq<nat>, current: nat, ps: seq<nat>, p: nat -> bool)
    requires Ascending(idx) && current <= |rows| && Picks(ps, current, p) && forall j: nat :: j < current ==> (j in idx <==> p(j))
    ensures InRows(ps, |rows|) && PastRows(rows, idx, current) == RowsAt(rows, ps)
  {
    PastRowsAt(rows, idx, current);
    KeptIsPicked(idx, BeforeRow(rows, current), ps, current, p);
  }

  /*** Histories ***/

  function InWindowAt(lib: Library, rows: seq<Row>, today: int, sameDow: bool, windowDays: int): nat -> bool {
    (j: nat) => j < |rows| && InWindow(lib, rows[j], today, sameDow, windowDays)
  }

  lemma KeptStaysInRows(ps: seq<nat>, q: nat -> bool, size: nat)
    requires InRows(ps, size)
    ensures InRows(Kept(ps, q), size)
  {
    FilterMembers(ps, q);
    forall k | 0 <= k < |Kept(ps, q)| ensures Kept(ps, q)[k] < size {
      assert Kept(ps, q)[k] in ps;
    }
  }

  lemma {:induction false} HistoryAt(lib: Library, rows: seq<Row>, ps: seq<nat>, column: string, today: int, sameDow: bool, windowDays: int)
    requires InRows(ps, |rows|)
    ensures InRows(Kept(ps, InWindowAt(lib, rows, today, sameDow, windowDays)), |rows|)
    ensures History(lib, RowsAt(rows, ps), column, today, sameDow, windowDays)
         == ValuesAt(lib, rows, column, Kept(ps, InWindowAt(lib, rows, today, sameDow, windowDays)))
    decreases |ps|
  {
    var q := InWindowAt(lib, rows, today, sameDow, windowDays);
    KeptStaysInRows(ps, q, |rows|);
    if ps != [] {
      var n, j := |ps| - 1, ps[|ps| - 1];
      HistoryAt(lib, rows, ps[..n], column, today, sameDow, windowDays);
      assert ps == ps[..n] + [j];
      HistoryStepAt(lib, rows, ps[..n], j, column, today, sameDow, windowDays);
      ValuesStepAt(lib, rows, ps[..n], j, column, q);
    }
  }

  lemma HistoryStepAt(lib: Library, rows: seq<Row>, ps: seq<nat>, j: nat, column: string, today: int, sameDow: bool, windowDays: int)
    requires InRows(ps, |rows|) && j < |rows|
    ensures InRows(ps + [j], |rows|)
    ensures History(lib, RowsAt(rows, ps + [j]), column, today, sameDow, windowDays)
         == if InWindow(lib, rows[j], today, sameDow, windowDays)
            then History(lib, RowsAt(rows, ps), column, today, sameDow, windowDays) + CellValues(lib, rows[j], column)
            else History(lib, RowsAt(rows, ps), column, today, sameDow, windowDays)
  {
    RowsAtOneMore(rows, ps, j);
    HistoryOfOneMore(lib, RowsAt(rows, ps), rows[j], column, today, sameDow, windowDays);
  }

  lemma ValuesStepAt(lib: Library, rows: seq<Row>, ps: seq<nat>, j: nat, column: string, q: nat -> bool)
    requires InRows(ps, |rows|) && j < |rows|
    ensures InRows(Kept(ps, q), |rows|) && InRows(Kept(ps + [j], q), |rows|)
    ensures ValuesAt(lib, rows, column, Kept(ps + [j], q))
         == if q(j) then ValuesAt(lib, rows, column, Kept(ps, q)) + CellValues(lib, rows[j], column) else ValuesAt(lib, rows, column, Kept(ps, q))
  {
    KeptStaysInRows(ps, q, |rows|);
    KeptOfOneMore(ps, j, q);
    if q(j) {
      ValuesAtOne(lib, rows, column, j);
      ValuesAtAppend(lib, rows, column, Kept(ps, q), [j]);
    }
  }

  lemma HistoryOfOneMore(lib: Library, past: seq<Row>, row: Row, column: string, today: int, sameDow: bool, windowDays: int)
    ensures History(lib, past + [row], column, today, sameDow, windowDays)
         == if InWindow(lib, row, today, sameDow, windowDays)
            then History(lib, past, column, today, sameDow, windowDays) + CellValues(lib, row, column)
            else History(lib, past, column, today, sameDow, windowDays)
  {
    assert (past + [row])[..|past|] == past;
  }

  /** The values of a column in the rows of a list. */
  lemma {:induction false} KnownAt(lib: Library, rows: seq<Row>, ps: seq<nat>, column: string)
    requires InRows(ps, |rows|)
    ensures Known(lib, RowsAt(rows, ps), column) == ValuesAt(lib, rows, column, ps)
    decreases |ps|
  {
    if ps != [] {
      var n, j := |ps| - 1, ps[|ps| - 1];
      KnownAt(lib, rows, ps[..n], column);
      assert ps == ps[..n] + [j];
      RowsAtOneMore(rows, ps[..n], j);
      assert (RowsAt(rows, ps[..n]) + [rows[j]])[..n] == RowsAt(rows, ps[..n]);
      ValuesAtOne(lib, rows, column, j);
      ValuesAtAppend(lib, rows, column, ps[..n], [j]);
    }
  }
}
