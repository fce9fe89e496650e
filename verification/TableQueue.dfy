/**
 A table read as a queue: the rows that satisfy a condition, in the order of a stable sort. Both
 claim operations take rows from the front of such a queue and store them back changed.
 */
module TableQueue {
  import opened Sequences
  import opened StableSort
  import opened InsertionMap

  function Queue<V>(table: OrderedMap<string, V>, p: V -> bool, le: (V, V) -> bool): seq<V> {
    Sort(Filter(table.Values(), p), le)
  }

  /** The queue holds each row that satisfies the condition once, and only those. */
  lemma QueueMembers<V>(table: OrderedMap<string, V>, p: V -> bool, le: (V, V) -> bool, idOf: V -> string)
    requires KeyedBy(table, idOf)
    ensures NoDup(Queue(table, p, le))
    ensures forall v :: v in Queue(table, p, le) ==> idOf(v) in table.at && table.at[idOf(v)] == v && p(v)
    ensures forall id :: id in table.at && p(table.at[id]) ==> table.at[id] in Queue(table, p, le)
  {
    var rows := Filter(table.Values(), p);
    ValuesDistinct(table, idOf);
    FilterNoDup(table.Values(), p);
    FilterMembers(table.Values(), p);
    SortNoDup(rows, le);
    forall v | v in Queue(table, p, le) ensures idOf(v) in table.at && table.at[idOf(v)] == v && p(v) {
      SortMember(rows, le, v);
    }
    forall id | id in table.at && p(table.at[id]) ensures table.at[id] in Queue(table, p, le) {
      SortMember(rows, le, table.at[id]);
    }
  }

  ghost predicate DistinctIds<V>(s: seq<V>, idOf: V -> string) {
    forall i, j :: 0 <= i < j < |s| ==> idOf(s[i]) != idOf(s[j])
  }

  lemma QueueIdsDiffer<V>(table: OrderedMap<string, V>, p: V -> bool, le: (V, V) -> bool, idOf: V -> string)
    requires KeyedBy(table, idOf)
    ensures DistinctIds(Queue(table, p, le), idOf)
  {
    QueueMembers(table, p, le, idOf);
    var queue := Queue(table, p, le);
    forall i, j | 0 <= i < j < |queue| ensures idOf(queue[i]) != idOf(queue[j]) {
      assert queue[i] in queue && queue[j] in queue;
    }
  }

  /** The one key is filed before the other. */
  ghost predicate FiledBefore<K>(order: seq<K>, x: K, y: K) {
    exists c, d :: 0 <= c < d < |order| && order[c] == x && order[d] == y
  }

  /** Of two rows in the queue the first does not come after the second, and of equal ones it is filed before it. */
  lemma QueueOrder<V(!new)>(table: OrderedMap<string, V>, p: V -> bool, le: (V, V) -> bool, idOf: V -> string, i: nat, j: nat)
    requires KeyedBy(table, idOf) && TotalPreorder(le) && i < j < |Queue(table, p, le)|
    ensures var x, y := Queue(table, p, le)[i], Queue(table, p, le)[j];
            le(x, y) && (le(y, x) ==> FiledBefore(table.order, idOf(x), idOf(y)))
  {
    var rows := Filter(table.Values(), p);
    SortSorted(rows, le);
    if le(Queue(table, p, le)[j], Queue(table, p, le)[i]) {
      var c, d := StablePlaces(rows, le, i, j);
      var a, b := PlacesBeforeFilter(table.Values(), p, c, d);
      InsertionMap.Lists(table);
      assert table.order[a] == idOf(table.Values()[a]) && table.order[b] == idOf(table.Values()[b]);
    }
  }

  function NotIn<V>(batch: seq<V>, idOf: V -> string): V -> bool {
    v => forall i :: 0 <= i < |batch| ==> idOf(batch[i]) != idOf(v)
  }

  /** The rows at the front of the queue, changed so that they no longer belong in it. */
  ghost predicate TakesFront<V>(batch: seq<V>, queue: seq<V>, p: V -> bool, idOf: V -> string) {
    && |batch| <= |queue|
    && forall i :: 0 <= i < |batch| ==> idOf(batch[i]) == idOf(queue[i]) && !p(batch[i])
  }

  lemma FrontIsStored<V>(table: OrderedMap<string, V>, batch: seq<V>, p: V -> bool, le: (V, V) -> bool, idOf: V -> string)
    requires KeyedBy(table, idOf) && TakesFront(batch, Queue(table, p, le), p, idOf)
    ensures forall i :: 0 <= i < |batch| ==> idOf(batch[i]) in table.at
    ensures DistinctIds(batch, idOf)
  {
    QueueMembers(table, p, le, idOf);
    QueueIdsDiffer(table, p, le, idOf);
    var queue := Queue(table, p, le);
    forall i | 0 <= i < |batch| ensures idOf(batch[i]) in table.at {
      assert queue[i] in queue;
    }
  }

  /** Row by row, storing the batch keeps the rows it does not take and spoils the others for the queue. */
  lemma StoringReplaces<V>(table: OrderedMap<string, V>, batch: seq<V>, p: V -> bool, idOf: V -> string)
    requires KeyedBy(table, idOf) && DistinctIds(batch, idOf)
    requires forall i :: 0 <= i < |batch| ==> idOf(batch[i]) in table.at && !p(batch[i])
    ensures
      var before, after := table.Values(), SetAll(table, batch, idOf).Values();
      && |before| == |after|
      && forall i :: 0 <= i < |before| ==> if NotIn(batch, idOf)(before[i]) then after[i] == before[i] else !p(after[i])
  {
    var after := SetAll(table, batch, idOf);
    SetAllAt(table, batch, idOf);
    SetAllKeeps(table, batch, idOf);
    Lists(table);
    Lists(after);
    forall i | 0 <= i < |table.order|
      ensures if NotIn(batch, idOf)(table.Values()[i]) then after.Values()[i] == table.Values()[i] else !p(after.Values()[i])
    {
      assert idOf(table.at[table.order[i]]) == table.order[i];
    }
  }

  /** Storing back rows that no longer belong in the queue leaves the others, in order. */
  lemma StoringLeavesTheOthers<V(!new)>(table: OrderedMap<string, V>, batch: seq<V>, p: V -> bool, le: (V, V) -> bool, idOf: V -> string)
    requires KeyedBy(table, idOf) && TotalPreorder(le) && DistinctIds(batch, idOf)
    requires forall i :: 0 <= i < |batch| ==> idOf(batch[i]) in table.at && !p(batch[i])
    ensures Queue(SetAll(table, batch, idOf), p, le) == Filter(Queue(table, p, le), NotIn(batch, idOf))
  {
    StoringReplaces(table, batch, p, idOf);
    FilterReplaced(table.Values(), SetAll(table, batch, idOf).Values(), p, NotIn(batch, idOf));
    SortFilter(Filter(table.Values(), p), le, NotIn(batch, idOf));
  }

  /** Storing back what was taken from the front leaves the rest of the queue, in order. */
  lemma TakingShortensTheQueue<V(!new)>(table: OrderedMap<string, V>, batch: seq<V>, p: V -> bool, le: (V, V) -> bool, idOf: V -> string)
    requires KeyedBy(table, idOf) && TotalPreorder(le) && TakesFront(batch, Queue(table, p, le), p, idOf)
    ensures Queue(SetAll(table, batch, idOf), p, le) == Queue(table, p, le)[|batch|..]
  {
    FrontIsStored(table, batch, p, le, idOf);
    StoringLeavesTheOthers(table, batch, p, le, idOf);
    QueueIdsDiffer(table, p, le, idOf);
    FilterDropsFront(Queue(table, p, le), |batch|, NotIn(batch, idOf));
  }

  /*** Claims, one after the other ***/

  function Min(a: int, b: int): int {
    if a < b then a else b
  }

  /** `handed` is the first `count` rows of `queue`, or all of them, each in the form that `from` allows. */
  ghost predicate HandsOut<V>(from: (V, V) -> bool, handed: seq<V>, queue: seq<V>, count: int) {
    |handed| == Min(count, |queue|) && forall i :: 0 <= i < |handed| ==> from(handed[i], queue[i])
  }

  lemma HandsOutInTurn<V>(from: (V, V) -> bool, batch: seq<V>, rest: seq<V>, queue: seq<V>, count: nat, others: nat)
    requires HandsOut(from, batch, queue, count) && HandsOut(from, rest, queue[|batch|..], others)
    ensures HandsOut(from, batch + rest, queue, count + others)
  {
    forall i | 0 <= i < |batch + rest| ensures from((batch + rest)[i], queue[i]) {
      if i >= |batch| {
        assert queue[|batch|..][i - |batch|] == queue[i];
      }
    }
  }

  /** All that a series of claims hands out, one batch after the other. */
  function HandedOut<V, C>(table: OrderedMap<string, V>, claims: seq<C>, batchOf: (OrderedMap<string, V>, C) -> seq<V>, idOf: V -> string): seq<V>
    decreases |claims|
  {
    if claims == [] then []
    else
      var batch := batchOf(table, claims[0]);
      batch + HandedOut(SetAll(table, batch, idOf), claims[1..], batchOf, idOf)
  }

  function TotalLimit<C>(claims: seq<C>, limitOf: C -> nat): nat {
    if claims == [] then 0 else limitOf(claims[0]) + TotalLimit(claims[1..], limitOf)
  }

  /** A claim hands out the front of the queue and leaves the rest of it. */
  ghost predicate Serves<V, C>(table: OrderedMap<string, V>, claim: C, batchOf: (OrderedMap<string, V>, C) -> seq<V>, limitOf: C -> nat,
                               queueOf: OrderedMap<string, V> -> seq<V>, idOf: V -> string, from: (V, V) -> bool)
  {
    var batch := batchOf(table, claim);
    HandsOut(from, batch, queueOf(table), limitOf(claim)) && queueOf(SetAll(table, batch, idOf)) == queueOf(table)[|batch|..]
  }

  /** Claims that each serve from the front hand out the queue, each row once, and all of it once their limits add up to its length. */
  lemma {:induction false} ServingDrains<V(!new), C>(table: OrderedMap<string, V>, claims: seq<C>,
      batchOf: (OrderedMap<string, V>, C) -> seq<V>, limitOf: C -> nat, queueOf: OrderedMap<string, V> -> seq<V>, idOf: V -> string,
      from: (V, V) -> bool)
    requires KeyedBy(table, idOf)
    requires forall i, t :: 0 <= i < |claims| && KeyedBy(t, idOf) ==> Serves(t, claims[i], batchOf, limitOf, queueOf, idOf, from)
    ensures HandsOut(from, HandedOut(table, claims, batchOf, idOf), queueOf(table), TotalLimit(claims, limitOf))
    decreases |claims|
  {
    if claims != [] {
      var batch := batchOf(table, claims[0]);
      assert Serves(table, claims[0], batchOf, limitOf, queueOf, idOf, from);
      SetAllKeeps(table, batch, idOf);
      ServingDrains(SetAll(table, batch, idOf), claims[1..], batchOf, limitOf, queueOf, idOf, from);
      HandsOutInTurn(from, batch, HandedOut(SetAll(table, batch, idOf), claims[1..], batchOf, idOf), queueOf(table),
                     limitOf(claims[0]), TotalLimit(claims[1..], limitOf));
    }
  }
}
