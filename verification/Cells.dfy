/**
 Rows of the silver and gold tables: dictionaries from column names to cells. Text parsing and numpy
 are a record of functions, so that every law holds whatever they compute.
 */
module Cells {
  import opened Wrappers
  import opened Sequences
  import opened InsertionMap

  datatype Cell = Null | Number(r: real) | Flag(b: bool) | Text(s: string)

  type Row = map<string, Cell>

  datatype Library = Library(
    numberOf: string -> Option<real>,
    dayOf: string -> Option<int>,
    textOf: Cell -> string,
    median: seq<real> -> real,
    percentile: (seq<real>, real) -> real,
    mean: seq<real> -> real,
    std: seq<real> -> real,
    correlation: (seq<real>, seq<real>) -> Option<real>,
    ridge: (seq<seq<real>>, seq<real>, seq<real>) -> Option<(real, real)>,
    mechanism: (seq<Row>, string) -> string)

  /** `row.get(column)` */
  function Get(row: Row, column: string): Cell {
    if column in row then row[column] else Null
  }

  function ToFloat(lib: Library, cell: Cell): Option<real> {
    match cell
    case Null => None
    case Flag(_) => None
    case Number(r) => Some(r)
    case Text(s) => lib.numberOf(s)
  }

  function ValueAt(lib: Library, row: Row, column: string): Option<real> {
    ToFloat(lib, Get(row, column))
  }

  /** A cell counts as a value if it is a number or a text that can be read as one; a flag never does. */
  lemma ValueIff(lib: Library, row: Row, column: string, v: real)
    ensures ValueAt(lib, row, column) == Some(v)
        <==> column in row && (row[column] == Number(v) || exists s :: row[column] == Text(s) && lib.numberOf(s) == Some(v))
  {
  }

  function DayOf(lib: Library, row: Row): Option<int> {
    match Get(row, "date")
    case Text(s) => lib.dayOf(s)
    case _ => None
  }

  /** `str(row.get("date") or "")`: the text rows are sorted by. */
  function DateText(lib: Library, row: Row): string {
    lib.textOf(Get(row, "date"))
  }

  function ClientOf(lib: Library): Row -> string {
    (row: Row) => lib.textOf(Get(row, "client_slug"))
  }

  function SiteKeyOf(lib: Library): Row -> (string, string) {
    (row: Row) => (lib.textOf(Get(row, "client_slug")), lib.textOf(Get(row, "site_code")))
  }

  predicate SameKeys(a: Row, b: Row) {
    && Get(a, "client_slug") == Get(b, "client_slug")
    && Get(a, "site_code") == Get(b, "site_code")
    && Get(a, "date") == Get(b, "date")
  }

  ghost predicate SameKeysThroughout(a: seq<Row>, b: seq<Row>) {
    |a| == |b| && forall i :: 0 <= i < |a| ==> SameKeys(a[i], b[i])
  }

  /** A metric column is named `dataset__column`, so it is never one of the key columns. */
  predicate IsMetric(column: string) {
    exists i :: 0 <= i < |column| - 1 && column[i] == '_' && column[i + 1] == '_'
  }

  lemma MetricIsNoKey(column: string)
    requires IsMetric(column)
    ensures column != "client_slug" && column != "site_code" && column != "site_name" && column != "date"
  {
    var i :| 0 <= i < |column| - 1 && column[i] == '_' && column[i + 1] == '_';
    assert "client_slug"[6] == '_' && "client_slug"[7] == 's' && "client_slug"[5] == 't';
    assert "site_code"[4] == '_' && "site_code"[5] == 'c' && "site_code"[3] == 'e';
    assert "site_name"[4] == '_' && "site_name"[5] == 'n' && "site_name"[3] == 'e';
  }

  lemma MetricWithSuffix(column: string, suffix: string)
    requires IsMetric(column)
    ensures IsMetric(column + suffix)
  {
    var i :| 0 <= i < |column| - 1 && column[i] == '_' && column[i + 1] == '_';
    var c := column + suffix;
    assert c[i] == '_' && c[i + 1] == '_';
  }

  /*** Grouping ***/

  /** The positions at which each key occurs, by first occurrence. */
  function GroupBy<K>(keys: seq<K>): OrderedMap<K, seq<nat>> {
    if keys == [] then Empty()
    else
      var n := |keys| - 1;
      var before := GroupBy(keys[..n]);
      before.Set(keys[n], before.Get(keys[n]).GetOr([]) + [n])
  }

  ghost predicate Ascending(indices: seq<nat>) {
    forall i, j :: 0 <= i < j < |indices| ==> indices[i] < indices[j]
  }

  /** Ascending positions, all of them holding `k`. */
  ghost predicate PositionsOf<K>(indices: seq<nat>, keys: seq<K>, k: K) {
    Ascending(indices) && forall p :: 0 <= p < |indices| ==> indices[p] < |keys| && keys[indices[p]] == k
  }

  ghost predicate GroupsPositions<K>(groups: OrderedMap<K, seq<nat>>, keys: seq<K>) {
    && (forall k :: k in groups.at ==> PositionsOf(groups.at[k], keys, k))
    && (forall i :: 0 <= i < |keys| ==> keys[i] in groups.at && i in groups.at[keys[i]])
  }

  lemma PositionsGrow<K>(indices: seq<nat>, keys: seq<K>, k: K, next: K)
    requires PositionsOf(indices, keys, k)
    ensures PositionsOf(indices, keys + [next], k)
    ensures k == next ==> PositionsOf(indices + [|keys|], keys + [next], k)
  {
  }

  lemma OneMoreGrouped<K>(keys: seq<K>, key: K)
    ensures GroupBy(keys + [key]) == GroupBy(keys).Set(key, GroupBy(keys).Get(key).GetOr([]) + [|keys|])
  {
    assert (keys + [key])[..|keys|] == keys;
  }

  lemma GroupsStayPositions<K>(before: OrderedMap<K, seq<nat>>, keys: seq<K>, key: K, grown: seq<nat>, after: OrderedMap<K, seq<nat>>, k: K)
    requires GroupsPositions(before, keys) && grown == before.Get(key).GetOr([]) + [|keys|] && after.at == before.at[key := grown]
    requires k in after.at
    ensures PositionsOf(after.at[k], keys + [key], k)
  {
    PositionsGrow(before.Get(k).GetOr([]), keys, k, key);
  }

  lemma EachPositionIsGrouped<K>(before: OrderedMap<K, seq<nat>>, keys: seq<K>, key: K, grown: seq<nat>, after: OrderedMap<K, seq<nat>>, i: nat)
    requires GroupsPositions(before, keys) && grown == before.Get(key).GetOr([]) + [|keys|] && after.at == before.at[key := grown]
    requires i <= |keys|
    ensures (keys + [key])[i] in after.at && i in after.at[(keys + [key])[i]]
  {
    if i == |keys| {
      assert grown[|grown| - 1] == |keys|;
    } else {
      assert i in before.at[keys[i]];
    }
  }

  /** A grouping with one more position. */
  lemma GroupingGrows<K>(before: OrderedMap<K, seq<nat>>, keys: seq<K>, key: K, grown: seq<nat>, after: OrderedMap<K, seq<nat>>)
    requires GroupsPositions(before, keys) && grown == before.Get(key).GetOr([]) + [|keys|] && after.at == before.at[key := grown]
    ensures GroupsPositions(after, keys + [key])
  {
    forall k | k in after.at ensures PositionsOf(after.at[k], keys + [key], k) {
      GroupsStayPositions(before, keys, key, grown, after, k);
    }
    forall i | 0 <= i < |keys + [key]| ensures (keys + [key])[i] in after.at && i in after.at[(keys + [key])[i]] {
      EachPositionIsGrouped(before, keys, key, grown, after, i);
    }
  }

  lemma {:induction false} GroupByGroups<K>(keys: seq<K>)
    ensures GroupBy(keys).Valid() && GroupsPositions(GroupBy(keys), keys)
  {
    if keys != [] {
      var n := |keys| - 1;
      GroupByGroups(keys[..n]);
      assert keys == keys[..n] + [keys[n]];
      var before := GroupBy(keys[..n]);
      var grown := before.Get(keys[n]).GetOr([]) + [n];
      OneMoreGrouped(keys[..n], keys[n]);
      SetValid(before, keys[n], grown);
      GroupingGrows(before, keys[..n], keys[n], grown, before.Set(keys[n], grown));
    }
  }

  /** The key occurs first at this position. */
  ghost predicate OccursAt<K>(keys: seq<K>, k: K, i: nat) {
    i < |keys| && keys[i] == k && forall j :: 0 <= j < i ==> keys[j] != k
  }

  ghost predicate FirstsInOrder<K>(keys: seq<K>, a: K, b: K) {
    exists i, j :: i < j && OccursAt(keys, a, i) && OccursAt(keys, b, j)
  }

  /** The keys are listed as they first occur. */
  ghost predicate ListedAsTheyOccur<K>(order: seq<K>, keys: seq<K>) {
    && (forall i :: 0 <= i < |keys| ==> keys[i] in order) && (forall g :: 0 <= g < |order| ==> order[g] in keys)
    && forall g, h :: 0 <= g < h < |order| ==> FirstsInOrder(keys, order[g], order[h])
  }

  lemma StillOccurs<K>(keys: seq<K>, key: K, k: K, i: nat)
    requires OccursAt(keys, k, i)
    ensures OccursAt(keys + [key], k, i)
  {
  }

  lemma FirstPlace<K>(keys: seq<K>, k: K) returns (i: nat)
    requires k in keys
    ensures OccursAt(keys, k, i)
  {
    i := 0;
    while keys[i] != k
      invariant i < |keys| && forall j :: 0 <= j < i ==> keys[j] != k
      decreases |keys| - i
    {
      assert exists m :: 0 <= m < |keys| && keys[m] == k;
      i := i + 1;
    }
  }

  lemma StillInOrder<K>(keys: seq<K>, key: K, a: K, b: K)
    requires FirstsInOrder(keys, a, b)
    ensures FirstsInOrder(keys + [key], a, b)
  {
    var i, j :| i < j && OccursAt(keys, a, i) && OccursAt(keys, b, j);
    StillOccurs(keys, key, a, i);
    StillOccurs(keys, key, b, j);
  }

  lemma NewComesLast<K>(keys: seq<K>, key: K, a: K)
    requires a in keys && key !in keys
    ensures FirstsInOrder(keys + [key], a, key)
  {
    var i := FirstPlace(keys, a);
    StillOccurs(keys, key, a, i);
    assert OccursAt(keys + [key], key, |keys|);
  }

  lemma OneMoreListed<K>(order: seq<K>, keys: seq<K>, key: K)
    requires ListedAsTheyOccur(order, keys)
    ensures ListedAsTheyOccur(if key in order then order else order + [key], keys + [key])
  {
    var longer := if key in order then order else order + [key];
    forall g, h | 0 <= g < h < |longer| ensures FirstsInOrder(keys + [key], longer[g], longer[h]) {
      if h < |order| {
        StillInOrder(keys, key, order[g], order[h]);
      } else {
        assert order[g] in keys;
        NewComesLast(keys, key, order[g]);
      }
    }
    forall i | 0 <= i < |keys + [key]| ensures (keys + [key])[i] in longer {
      if i < |keys| {
        assert keys[i] in order;
      }
    }
    forall g | 0 <= g < |longer| ensures longer[g] in keys + [key] {
      if g < |order| {
        assert order[g] in keys;
      }
    }
  }

  lemma OrderOfOneMore<K>(before: OrderedMap<K, seq<nat>>, key: K, v: seq<nat>)
    requires before.Valid()
    ensures before.Set(key, v).order == if key in before.order then before.order else before.order + [key]
  {
    ListedOnce(before.order, before.at.Keys);
  }

  lemma OrderIs<K>(keys: seq<K>, key: K)
    ensures GroupBy(keys + [key]).order == if key in GroupBy(keys).order then GroupBy(keys).order else GroupBy(keys).order + [key]
  {
    assert GroupBy(keys).Valid() by {
      GroupByGroups(keys);
    }
    OneMoreGrouped(keys, key);
    OrderOfOneMore(GroupBy(keys), key, GroupBy(keys).Get(key).GetOr([]) + [|keys|]);
  }

  lemma OrderWithOneMore<K>(keys: seq<K>, key: K, more: seq<K>, order: seq<K>, longer: seq<K>)
    requires more == keys + [key] && ListedAsTheyOccur(order, keys)
    requires longer == if key in order then order else order + [key]
    ensures ListedAsTheyOccur(longer, more)
  {
    OneMoreListed(order, keys, key);
  }

  lemma {:induction false} GroupsByFirstOccurrence<K>(keys: seq<K>)
    ensures ListedAsTheyOccur(GroupBy(keys).order, keys)
  {
    if keys != [] {
      var n := |keys| - 1;
      GroupsByFirstOccurrence(keys[..n]);
      assert keys == keys[..n] + [keys[n]];
      OrderIs(keys[..n], keys[n]);
      OrderWithOneMore(keys[..n], keys[n], keys, GroupBy(keys[..n]).order, GroupBy(keys).order);
    }
  }

  ghost predicate InTable(groups: seq<seq<nat>>, size: nat) {
    forall g :: 0 <= g < |groups| ==> forall i :: 0 <= i < |groups[g]| ==> groups[g][i] < size
  }

  ghost predicate Separate(groups: seq<seq<nat>>) {
    && (forall g :: 0 <= g < |groups| ==> Ascending(groups[g]))
    && (forall g, h, j :: 0 <= g < h < |groups| && 0 <= j < |groups[h]| ==> groups[h][j] !in groups[g])
  }

  lemma NotInLater(groups: seq<seq<nat>>, i: nat)
    requires Separate(groups) && groups != [] && i in groups[0]
    ensures forall g :: 0 <= g < |groups[1..]| ==> i !in groups[1..][g]
  {
    forall g | 0 <= g < |groups[1..]| ensures i !in groups[1..][g] {
      var h := g + 1;
      assert groups[1..][g] == groups[h];
      forall j | 0 <= j < |groups[h]| ensures groups[h][j] != i {
        assert groups[h][j] !in groups[0];
      }
    }
  }

  lemma GroupsByKey<K>(keys: seq<K>)
    ensures var m := GroupBy(keys);
            && |m.Values()| == |m.order| && NoDup(m.order)
            && forall g :: 0 <= g < |m.order| ==> PositionsOf(m.Values()[g], keys, m.order[g])
  {
    var m := GroupBy(keys);
    GroupByGroups(keys);
    Lists(m);
    ListedOnce(m.order, m.at.Keys);
    forall g | 0 <= g < |m.order| ensures PositionsOf(m.Values()[g], keys, m.order[g]) {
      assert m.order[g] in m.at;
    }
  }

  lemma DifferentKeysSeparate<K>(groups: seq<seq<nat>>, order: seq<K>, keys: seq<K>)
    requires |groups| == |order| && NoDup(order) && forall g :: 0 <= g < |order| ==> PositionsOf(groups[g], keys, order[g])
    ensures InTable(groups, |keys|) && Separate(groups)
  {
    forall g, h, j | 0 <= g < h < |groups| && 0 <= j < |groups[h]| ensures groups[h][j] !in groups[g] {
      assert keys[groups[h][j]] == order[h] != order[g];
    }
  }

  /** Grouping puts each position in exactly one group. */
  lemma TableGroupsAreSeparate<K>(keys: seq<K>)
    ensures InTable(GroupBy(keys).Values(), |keys|) && Separate(GroupBy(keys).Values())
  {
    GroupsByKey(keys);
    DifferentKeysSeparate(GroupBy(keys).Values(), GroupBy(keys).order, keys);
  }

  method GroupIndices<K(==)>(rows: seq<Row>, keyOf: Row -> K) returns (groups: OrderedMap<K, seq<nat>>)
    ensures groups == GroupBy(Map(rows, keyOf))
  {
    var keys := Map(rows, keyOf);
    groups := Empty();
    for i := 0 to |rows|
      invariant groups == GroupBy(keys[..i])
    {
      assert keys[..i + 1][..i] == keys[..i];
      var key := keyOf(rows[i]);
      groups := groups.Set(key, groups.Get(key).GetOr([]) + [i]);
    }
    assert keys[..|rows|] == keys;
  }
}
