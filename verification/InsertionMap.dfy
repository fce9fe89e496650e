/**
 JavaScript's `Map` and Python's `dict`: a finite map that iterates in insertion order.
 Setting a key that is present keeps its place; deleting it forgets the place.
 */
module InsertionMap {
  import opened Wrappers
  import opened Sequences

  datatype OrderedMap<K(==), V> = OrderedMap(order: seq<K>, at: map<K, V>) {
    ghost predicate Valid() {
      ListsOnce(order, at.Keys)
    }

    function Get(k: K): Option<V> {
      if k in at then Some(at[k]) else None
    }

    function Set(k: K, v: V): OrderedMap<K, V> {
      OrderedMap(if k in at then order else order + [k], at[k := v])
    }

    function Delete(k: K): OrderedMap<K, V> {
      OrderedMap(Filter(order, x => x != k), at - {k})
    }

    function Entries(): seq<(K, V)> {
      EntriesIn(order, at)
    }

    function Values(): seq<V> {
      Map(Entries(), (e: (K, V)) => e.1)
    }
  }

  /** `order` lists every key once. */
  ghost predicate ListsOnce<K>(order: seq<K>, keys: set<K>) {
    if order == [] then keys == {}
    else order[|order| - 1] in keys && ListsOnce(order[..|order| - 1], keys - {order[|order| - 1]})
  }

  lemma {:induction false} ListedOnce<K>(order: seq<K>, keys: set<K>)
    requires ListsOnce(order, keys)
    ensures NoDup(order)
    ensures forall k :: k in order ==> k in keys
    ensures forall k :: k in keys ==> k in order
  {
    if order != [] {
      var n := |order| - 1;
      ListedOnce(order[..n], keys - {order[n]});
      assert order == order[..n] + [order[n]];
    }
  }

  lemma {:induction false} DeletedOnce<K>(order: seq<K>, keys: set<K>, k: K, others: K -> bool)
    requires ListsOnce(order, keys) && forall x :: x in order ==> others(x) == (x != k)
    ensures ListsOnce(Filter(order, others), keys - {k})
  {
    if order != [] {
      var n := |order| - 1;
      DeletedOnce(order[..n], keys - {order[n]}, k, others);
      assert order == order[..n] + [order[n]];
      FilterAppend(order[..n], [order[n]], others);
      ListedOnce(order, keys);
      var left := Filter(order[..n], others);
      if order[n] == k {
        assert keys - {k} - {k} == keys - {k};
        assert left + [] == left;
      } else {
        assert (left + [order[n]])[..|left|] == left;
        assert keys - {k} - {order[n]} == keys - {order[n]} - {k};
      }
    }
  }

  function EntriesIn<K, V>(order: seq<K>, at: map<K, V>): seq<(K, V)> {
    if order == [] then []
    else EntriesIn(order[..|order| - 1], at)
         + if order[|order| - 1] in at then [(order[|order| - 1], at[order[|order| - 1]])] else []
  }

  function Empty<K, V>(): (m: OrderedMap<K, V>)
    ensures m.Valid()
  {
    OrderedMap([], map[])
  }

  lemma SetValid<K, V>(m: OrderedMap<K, V>, k: K, v: V)
    requires m.Valid()
    ensures m.Set(k, v).Valid()
  {
    if k in m.at {
      assert m.at[k := v].Keys == m.at.Keys;
    } else {
      assert (m.order + [k])[..|m.order|] == m.order;
      assert m.at[k := v].Keys - {k} == m.at.Keys;
    }
  }

  lemma DeleteValid<K, V>(m: OrderedMap<K, V>, k: K)
    requires m.Valid()
    ensures m.Delete(k).Valid()
  {
    DeletedOnce(m.order, m.at.Keys, k, x => x != k);
    assert (m.at - {k}).Keys == m.at.Keys - {k};
  }

  lemma {:induction false} EntriesInOrder<K, V>(order: seq<K>, at: map<K, V>)
    requires forall k :: k in order ==> k in at
    ensures |EntriesIn(order, at)| == |order|
    ensures forall i :: 0 <= i < |order| ==> EntriesIn(order, at)[i] == (order[i], at[order[i]])
  {
    if order != [] {
      EntriesInOrder(order[..|order| - 1], at);
    }
  }

  /** A valid map lists its entries, and their values, in the order of its keys. */
  lemma Lists<K, V>(m: OrderedMap<K, V>)
    requires m.Valid()
    ensures |m.Entries()| == |m.Values()| == |m.order|
    ensures forall i :: 0 <= i < |m.order| ==> m.order[i] in m.at && m.Entries()[i] == (m.order[i], m.at[m.order[i]])
    ensures forall i :: 0 <= i < |m.order| ==> m.order[i] in m.at && m.Values()[i] == m.at[m.order[i]]
  {
    ListedOnce(m.order, m.at.Keys);
    assert forall i :: 0 <= i < |m.order| ==> m.order[i] in m.order;
    EntriesInOrder(m.order, m.at);
  }

  /** The keys a map was filed under are the keys its values carry. */
  ghost predicate KeyedBy<K, V>(m: OrderedMap<K, V>, key: V -> K) {
    m.Valid() && forall k :: k in m.at ==> key(m.at[k]) == k
  }

  lemma SetKeeps<K, V>(m: OrderedMap<K, V>, key: V -> K, v: V)
    requires KeyedBy(m, key)
    ensures KeyedBy(m.Set(key(v), v), key)
  {
    SetValid(m, key(v), v);
  }

  lemma DeleteKeeps<K, V>(m: OrderedMap<K, V>, key: V -> K, k: K)
    requires KeyedBy(m, key)
    ensures KeyedBy(m.Delete(k), key)
  {
    DeleteValid(m, k);
  }

  /** Setting each value in turn under its own key, on top of `m`. */
  function SetAll<K, V>(m: OrderedMap<K, V>, vs: seq<V>, key: V -> K): OrderedMap<K, V>
    decreases |vs|
  {
    if vs == [] then m
    else SetAll(m, vs[..|vs| - 1], key).Set(key(vs[|vs| - 1]), vs[|vs| - 1])
  }

  lemma SetAllStep<K, V>(m: OrderedMap<K, V>, vs: seq<V>, v: V, key: V -> K)
    ensures SetAll(m, vs + [v], key) == SetAll(m, vs, key).Set(key(v), v)
  {
    assert (vs + [v])[..|vs|] == vs;
  }

  lemma {:induction false} SetAllKeeps<K, V>(m: OrderedMap<K, V>, vs: seq<V>, key: V -> K)
    requires KeyedBy(m, key)
    ensures KeyedBy(SetAll(m, vs, key), key)
  {
    if vs != [] {
      SetAllKeeps(m, vs[..|vs| - 1], key);
      SetKeeps(SetAll(m, vs[..|vs| - 1], key), key, vs[|vs| - 1]);
    }
  }

  function SetEntries<K, V>(m: OrderedMap<K, V>, es: seq<(K, V)>): OrderedMap<K, V>
    decreases |es|
  {
    if es == [] then m
    else SetEntries(m, es[..|es| - 1]).Set(es[|es| - 1].0, es[|es| - 1].1)
  }

  /** The first `n` entries of `m`. */
  ghost function Prefix<K, V>(m: OrderedMap<K, V>, n: nat): OrderedMap<K, V>
    requires n <= |m.order|
  {
    OrderedMap(m.order[..n], map k | k in m.at && k in m.order[..n] :: m.at[k])
  }

  lemma PrefixKeys<K, V>(m: OrderedMap<K, V>, n: nat, k: K)
    requires m.Valid() && n < |m.order|
    ensures m.order[n] in m.at && m.order[n] !in m.order[..n]
    ensures k in m.order[..n + 1] <==> (k in m.order[..n] || k == m.order[n])
  {
    ListedOnce(m.order, m.at.Keys);
    assert m.order[n] in m.order;
    assert m.order[..n + 1] == m.order[..n] + [m.order[n]];
  }

  lemma PrefixStep<K, V>(m: OrderedMap<K, V>, n: nat)
    requires m.Valid() && n < |m.order|
    ensures m.order[n] in m.at
    ensures Prefix(m, n).Set(m.order[n], m.at[m.order[n]]) == Prefix(m, n + 1)
  {
    var last := m.order[n];
    PrefixKeys(m, n, last);
    assert m.order[..n + 1] == m.order[..n] + [last];
    var a, b := Prefix(m, n).at[last := m.at[last]], Prefix(m, n + 1).at;
    forall k ensures (k in a) == (k in b) {
      PrefixKeys(m, n, k);
    }
    assert a == b;
  }

  lemma WholePrefix<K, V>(m: OrderedMap<K, V>)
    requires m.Valid()
    ensures Prefix(m, |m.order|) == m
  {
    ListedOnce(m.order, m.at.Keys);
    assert m.order[..|m.order|] == m.order;
  }

  lemma {:induction false} RefileEntries<K, V>(m: OrderedMap<K, V>, n: nat)
    requires m.Valid() && n <= |m.order| && |m.Entries()| == |m.order|
    requires forall i :: 0 <= i < |m.order| ==> m.order[i] in m.at && m.Entries()[i] == (m.order[i], m.at[m.order[i]])
    ensures SetEntries(Empty(), m.Entries()[..n]) == Prefix(m, n)
  {
    if n > 0 {
      RefileEntries(m, n - 1);
      assert m.Entries()[..n][..n - 1] == m.Entries()[..n - 1];
      PrefixStep(m, n - 1);
    }
  }

  lemma {:induction false} RefileValues<K, V>(m: OrderedMap<K, V>, key: V -> K, n: nat)
    requires KeyedBy(m, key) && n <= |m.order| && |m.Values()| == |m.order|
    requires forall i :: 0 <= i < |m.order| ==> m.order[i] in m.at && m.Values()[i] == m.at[m.order[i]]
    ensures SetAll(Empty(), m.Values()[..n], key) == Prefix(m, n)
  {
    if n > 0 {
      RefileValues(m, key, n - 1);
      assert m.Values()[..n][..n - 1] == m.Values()[..n - 1];
      PrefixStep(m, n - 1);
    }
  }

  /** A map is rebuilt, order included, from its list of entries. */
  lemma EntriesRebuild<K, V>(m: OrderedMap<K, V>)
    requires m.Valid()
    ensures SetEntries(Empty(), m.Entries()) == m
  {
    Lists(m);
    RefileEntries(m, |m.order|);
    assert m.Entries()[..|m.order|] == m.Entries();
    WholePrefix(m);
  }

  /** A map is rebuilt, order included, from its values alone when they carry their keys. */
  lemma ValuesRebuild<K, V>(m: OrderedMap<K, V>, key: V -> K)
    requires KeyedBy(m, key)
    ensures SetAll(Empty(), m.Values(), key) == m
  {
    Lists(m);
    RefileValues(m, key, |m.order|);
    assert m.Values()[..|m.order|] == m.Values();
    WholePrefix(m);
  }

  /** The values of a map that is keyed by its values are pairwise distinct, and each is filed under its key. */
  lemma ValuesDistinct<K, V>(m: OrderedMap<K, V>, key: V -> K)
    requires KeyedBy(m, key)
    ensures NoDup(m.Values())
    ensures forall v :: v in m.Values() ==> key(v) in m.at && m.at[key(v)] == v
    ensures forall k :: k in m.at ==> m.at[k] in m.Values()
  {
    Lists(m);
    ListedOnce(m.order, m.at.Keys);
    var vs := m.Values();
    forall v | v in vs ensures key(v) in m.at && m.at[key(v)] == v {
      var i :| 0 <= i < |vs| && vs[i] == v;
    }
    forall k | k in m.at ensures m.at[k] in vs {
      var i :| 0 <= i < |m.order| && m.order[i] == k;
      assert vs[i] == m.at[k];
    }
  }

  /** Setting values in turn changes exactly the entries under their keys. */
  lemma {:induction false} SetAllAt<K, V>(m: OrderedMap<K, V>, vs: seq<V>, key: V -> K)
    requires forall i :: 0 <= i < |vs| ==> key(vs[i]) in m.at
    requires forall i, j :: 0 <= i < j < |vs| ==> key(vs[i]) != key(vs[j])
    ensures SetAll(m, vs, key).order == m.order
    ensures SetAll(m, vs, key).at.Keys == m.at.Keys
    ensures forall i :: 0 <= i < |vs| ==> SetAll(m, vs, key).at[key(vs[i])] == vs[i]
    ensures forall k :: k in m.at && (forall i :: 0 <= i < |vs| ==> key(vs[i]) != k) ==> SetAll(m, vs, key).at[k] == m.at[k]
  {
    if vs != [] {
      var n := |vs| - 1;
      var init := vs[..n];
      SetAllAt(m, init, key);
      assert key(vs[n]) in m.at;
      forall k | k in m.at && (forall i :: 0 <= i < |vs| ==> key(vs[i]) != k) ensures SetAll(m, vs, key).at[k] == m.at[k] {
        assert forall i :: 0 <= i < |init| ==> key(init[i]) != k;
      }
      forall i | 0 <= i < |vs| ensures SetAll(m, vs, key).at[key(vs[i])] == vs[i] {
        if i < n {
          assert vs[i] == init[i];
        }
      }
    }
  }
}
