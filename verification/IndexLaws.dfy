/** An idempotency index over a table: when it is a bijection, and what keeps it one. */
module IndexLaws {
  import opened InsertionMap

  /** Each index entry leads to a row with that key. */
  ghost predicate Leads<V>(table: OrderedMap<string, V>, index: OrderedMap<string, string>, key: V -> string) {
    forall k :: k in index.at ==> index.at[k] in table.at && key(table.at[index.at[k]]) == k
  }

  /** Each row is indexed under its key, and each index entry leads to the row with that key. */
  ghost predicate Indexes<V>(table: OrderedMap<string, V>, index: OrderedMap<string, string>, key: V -> string) {
    && (forall id :: id in table.at ==> key(table.at[id]) in index.at && index.at[key(table.at[id])] == id)
    && Leads(table, index, key)
  }

  /** Two rows with one key are one row: at most one row per key. */
  lemma OneRowPerKey<V>(table: OrderedMap<string, V>, index: OrderedMap<string, string>, key: V -> string, id: string, id': string)
    requires Indexes(table, index, key) && id in table.at && id' in table.at && key(table.at[id]) == key(table.at[id'])
    ensures id == id'
  {
  }

  lemma LeadsToNew<V>(table: OrderedMap<string, V>, index: OrderedMap<string, string>, key: V -> string, id: string, v: V)
    requires Leads(table, index, key) && id !in table.at
    ensures Leads(table.Set(id, v), index.Set(key(v), id), key)
  {
  }

  lemma AddRow<V>(table: OrderedMap<string, V>, index: OrderedMap<string, string>, key: V -> string, id: string, v: V)
    requires Indexes(table, index, key) && id !in table.at && key(v) !in index.at
    ensures Indexes(table.Set(id, v), index.Set(key(v), id), key)
  {
  }

  /** A table filed by id whose rows all meet a condition, and its index. */
  ghost predicate Indexed<V>(table: OrderedMap<string, V>, index: OrderedMap<string, string>, idOf: V -> string, key: V -> string, ok: V -> bool) {
    KeyedBy(table, idOf) && index.Valid() && Indexes(table, index, key) && forall id :: id in table.at ==> ok(table.at[id])
  }

  /** Filing a new row and its index entry keeps both maps in order. */
  lemma FileRow<V>(table: OrderedMap<string, V>, index: OrderedMap<string, string>, idOf: V -> string, key: V -> string, ok: V -> bool, v: V)
    requires Indexed(table, index, idOf, key, ok) && ok(v) && idOf(v) !in table.at && key(v) !in index.at
    ensures Indexed(table.Set(idOf(v), v), index.Set(key(v), idOf(v)), idOf, key, ok)
  {
    SetKeeps(table, idOf, v);
    SetValid(index, key(v), idOf(v));
    AddRow(table, index, key, idOf(v), v);
  }

  lemma ReplaceRow<V>(table: OrderedMap<string, V>, index: OrderedMap<string, string>, key: V -> string, id: string, v: V)
    requires Indexes(table, index, key) && id in table.at && key(table.at[id]) == key(v)
    ensures Indexes(table.Set(id, v), index, key)
  {
  }

  lemma {:induction false} ReplaceRows<V>(table: OrderedMap<string, V>, index: OrderedMap<string, string>, key: V -> string,
                                          vs: seq<V>, idOf: V -> string)
    requires Indexes(table, index, key)
    requires forall i :: 0 <= i < |vs| ==> idOf(vs[i]) in table.at && key(table.at[idOf(vs[i])]) == key(vs[i])
    ensures Indexes(SetAll(table, vs, idOf), index, key)
    ensures forall id :: id in table.at <==> id in SetAll(table, vs, idOf).at
    ensures forall id :: id in table.at ==> key(SetAll(table, vs, idOf).at[id]) == key(table.at[id])
  {
    if vs != [] {
      var n := |vs| - 1;
      ReplaceRows(table, index, key, vs[..n], idOf);
      ReplaceRow(SetAll(table, vs[..n], idOf), index, key, idOf(vs[n]), vs[n]);
    }
  }
}
