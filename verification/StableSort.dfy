/**
 The stable sort both languages provide: JavaScript's `Array.prototype.sort` and Python's `sorted`.
 `StableSortIsUnique` shows that being sorted and stable leaves no freedom, so the insertion sort
 below stands for whatever algorithm the runtime uses.
 */
module StableSort {
  import opened Sequences

  ghost predicate TotalPreorder<T(!new)>(le: (T, T) -> bool) {
    && (forall x, y :: le(x, y) || le(y, x))
    && (forall x, y, z :: le(x, y) && le(y, z) ==> le(x, z))
  }

  ghost predicate Sorted<T>(s: seq<T>, le: (T, T) -> bool) {
    forall i, j :: 0 <= i < j < |s| ==> le(s[i], s[j])
  }

  predicate Tied<T>(le: (T, T) -> bool, x: T, y: T) {
    le(x, y) && le(y, x)
  }

  /** The elements of `s` that tie with `k`, in order: what a stable sort must not reorder. */
  function Ties<T>(s: seq<T>, le: (T, T) -> bool, k: T): seq<T> {
    Filter(s, x => Tied(le, x, k))
  }

  function Insert<T>(x: T, s: seq<T>, le: (T, T) -> bool): (r: seq<T>)
    ensures |r| == |s| + 1
    ensures multiset(r) == multiset(s) + multiset{x}
  {
    if s == [] then [x]
    else if le(x, s[0]) then [x] + s
    else
      assert s == [s[0]] + s[1..];
      [s[0]] + Insert(x, s[1..], le)
  }

  function Sort<T>(s: seq<T>, le: (T, T) -> bool): (r: seq<T>)
    ensures |r| == |s|
    ensures multiset(r) == multiset(s)
  {
    if s == [] then []
    else
      assert s == [s[0]] + s[1..];
      Insert(s[0], Sort(s[1..], le), le)
  }

  lemma SortMember<T>(s: seq<T>, le: (T, T) -> bool, x: T)
    ensures x in Sort(s, le) <==> x in s
  {
    assert x in Sort(s, le) <==> x in multiset(Sort(s, le));
    assert x in s <==> x in multiset(s);
  }

  lemma {:induction false} InsertSorted<T(!new)>(x: T, s: seq<T>, le: (T, T) -> bool)
    requires TotalPreorder(le) && Sorted(s, le)
    ensures Sorted(Insert(x, s, le), le)
  {
    if s != [] && !le(x, s[0]) {
      InsertSorted(x, s[1..], le);
      var r := Insert(x, s[1..], le);
      forall y | y in r ensures le(s[0], y) {
        assert y in multiset(r);
        assert y == x || y in s[1..];
      }
    }
  }

  lemma {:induction false} SortSorted<T(!new)>(s: seq<T>, le: (T, T) -> bool)
    requires TotalPreorder(le)
    ensures Sorted(Sort(s, le), le)
  {
    if s != [] {
      SortSorted(s[1..], le);
      InsertSorted(s[0], Sort(s[1..], le), le);
    }
  }

  lemma {:induction false} FilterSorted<T(!new)>(s: seq<T>, le: (T, T) -> bool, p: T -> bool)
    requires Sorted(s, le)
    ensures Sorted(Filter(s, p), le)
  {
    if s != [] {
      FilterSorted(s[1..], le, p);
      var t := Filter(s[1..], p);
      FilterMembers(s[1..], p);
      forall i | 0 <= i < |t| ensures le(s[0], t[i]) {
        assert t[i] in s[1..];
      }
    }
  }

  lemma {:induction false} InsertFilter<T(!new)>(x: T, s: seq<T>, le: (T, T) -> bool, p: T -> bool)
    requires TotalPreorder(le) && Sorted(s, le)
    ensures Filter(Insert(x, s, le), p) == if p(x) then Insert(x, Filter(s, p), le) else Filter(s, p)
  {
    if s != [] {
      if le(x, s[0]) {
        assert ([x] + s)[1..] == s;
        if p(x) && Filter(s, p) != [] {
          FilterMembers(s, p);
          assert Filter(s, p)[0] in s;
        }
      } else {
        InsertFilter(x, s[1..], le, p);
        assert ([s[0]] + Insert(x, s[1..], le))[1..] == Insert(x, s[1..], le);
        if p(s[0]) && p(x) {
          assert Filter(s, p)[1..] == Filter(s[1..], p);
        }
        if !p(s[0]) && p(x) && Filter(s[1..], p) != [] {
          // s[0] is skipped on both sides
          assert Filter(s, p) == Filter(s[1..], p);
        }
      }
    }
  }

  /** Dropping elements before or after sorting is the same. */
  lemma {:induction false} SortFilter<T(!new)>(s: seq<T>, le: (T, T) -> bool, p: T -> bool)
    requires TotalPreorder(le)
    ensures Filter(Sort(s, le), p) == Sort(Filter(s, p), le)
  {
    if s != [] {
      SortFilter(s[1..], le, p);
      SortSorted(s[1..], le);
      InsertFilter(s[0], Sort(s[1..], le), le, p);
      if p(s[0]) {
        assert Filter(s, p)[1..] == Filter(s[1..], p);
      }
    }
  }

  lemma {:induction false} SortOfTied<T(!new)>(s: seq<T>, le: (T, T) -> bool)
    requires forall x, y :: x in s && y in s ==> le(x, y)
    ensures Sort(s, le) == s
  {
    if s != [] {
      SortOfTied(s[1..], le);
    }
  }

  /** Elements that compare equal keep their input order. */
  lemma SortStable<T(!new)>(s: seq<T>, le: (T, T) -> bool, k: T)
    requires TotalPreorder(le)
    ensures Ties(Sort(s, le), le, k) == Ties(s, le, k)
  {
    SortFilter(s, le, x => Tied(le, x, k));
    FilterMembers(s, x => Tied(le, x, k));
    SortOfTied(Ties(s, le, k), le);
  }

  /** Of two elements that compare equal, the one that comes first in the sorted sequence came first before. */
  lemma StablePlaces<T(!new)>(s: seq<T>, le: (T, T) -> bool, i: nat, j: nat) returns (c: nat, d: nat)
    requires TotalPreorder(le) && i < j < |s| && le(Sort(s, le)[j], Sort(s, le)[i])
    ensures c < d < |s| && s[c] == Sort(s, le)[i] && s[d] == Sort(s, le)[j]
  {
    var r := Sort(s, le);
    SortSorted(s, le);
    SortStable(s, le, r[i]);
    var a, b := PlacesInFilter(r, x => Tied(le, x, r[i]), i, j);
    c, d := PlacesBeforeFilter(s, x => Tied(le, x, r[i]), a, b);
  }

  /** Any sorted arrangement that keeps ties in order is the one `Sort` returns. */
  lemma {:induction false} SameTiesSame<T(!new)>(a: seq<T>, b: seq<T>, le: (T, T) -> bool)
    requires TotalPreorder(le) && Sorted(a, le) && Sorted(b, le)
    requires forall k :: Ties(a, le, k) == Ties(b, le, k)
    ensures a == b
  {
    assert a == [] ==> b == [] by {
      if b != [] {
        assert Ties(b, le, b[0])[0] == b[0];
      }
    }
    if a != [] {
      assert a[0] in b by {
        assert Ties(a, le, a[0])[0] == a[0];
        FilterMembers(b, x => Tied(le, x, a[0]));
      }
      assert b[0] in a by {
        assert Ties(b, le, b[0])[0] == b[0];
        FilterMembers(a, x => Tied(le, x, b[0]));
      }
      assert Tied(le, b[0], a[0]);
      assert Ties(a, le, a[0])[0] == a[0];
      assert Ties(b, le, a[0])[0] == b[0];
      forall k ensures Ties(a[1..], le, k) == Ties(b[1..], le, k) {
        assert Ties(a, le, k) == Ties(b, le, k);
        if Tied(le, a[0], k) {
          assert Ties(a[1..], le, k) == Ties(a, le, k)[1..];
          assert Tied(le, b[0], k);
          assert Ties(b[1..], le, k) == Ties(b, le, k)[1..];
        }
      }
      SameTiesSame(a[1..], b[1..], le);
    }
  }

  lemma StableSortIsUnique<T(!new)>(s: seq<T>, r: seq<T>, le: (T, T) -> bool)
    requires TotalPreorder(le)
    ensures r == Sort(s, le) <==> (Sorted(r, le) && forall k :: Ties(r, le, k) == Ties(s, le, k))
  {
    SortSorted(s, le);
    forall k { SortStable(s, le, k); }
    if Sorted(r, le) && forall k :: Ties(r, le, k) == Ties(s, le, k) {
      SameTiesSame(r, Sort(s, le), le);
    }
  }

  lemma MapCons<T, U>(x: T, s: seq<T>, f: T -> U)
    ensures Map([x] + s, f) == [f(x)] + Map(s, f)
  {
  }

  lemma {:induction false} InsertMap<T, U>(x: T, s: seq<T>, f: T -> U, le: (T, T) -> bool, le': (U, U) -> bool)
    requires forall i :: 0 <= i < |s| ==> le(x, s[i]) == le'(f(x), f(s[i]))
    ensures Map(Insert(x, s, le), f) == Insert(f(x), Map(s, f), le')
  {
    if s != [] {
      assert Map(s, f)[1..] == Map(s[1..], f);
      if le(x, s[0]) {
        MapCons(x, s, f);
      } else {
        InsertMap(x, s[1..], f, le, le');
        MapCons(s[0], Insert(x, s[1..], le), f);
      }
    }
  }

  /** A map that preserves the order commutes with sorting. */
  lemma {:induction false} SortMap<T, U>(s: seq<T>, f: T -> U, le: (T, T) -> bool, le': (U, U) -> bool)
    requires forall x, y :: x in s && y in s ==> le(x, y) == le'(f(x), f(y))
    ensures Map(Sort(s, le), f) == Sort(Map(s, f), le')
  {
    if s != [] {
      SortMap(s[1..], f, le, le');
      var t := Sort(s[1..], le);
      forall i | 0 <= i < |t| ensures le(s[0], t[i]) == le'(f(s[0]), f(t[i])) {
        SortMember(s[1..], le, t[i]);
      }
      InsertMap(s[0], t, f, le, le');
      assert Map(s, f)[1..] == Map(s[1..], f);
    }
  }

  lemma {:induction false} InsertCongruent<T>(x: T, s: seq<T>, le: (T, T) -> bool, le': (T, T) -> bool)
    requires forall i :: 0 <= i < |s| ==> le(x, s[i]) == le'(x, s[i])
    ensures Insert(x, s, le) == Insert(x, s, le')
  {
    if s != [] {
      InsertCongruent(x, s[1..], le, le');
    }
  }

  /** Two orders that agree on a sequence sort it alike. */
  lemma {:induction false} SortCongruent<T>(s: seq<T>, le: (T, T) -> bool, le': (T, T) -> bool)
    requires forall i, j :: 0 <= i < |s| && 0 <= j < |s| ==> le(s[i], s[j]) == le'(s[i], s[j])
    ensures Sort(s, le) == Sort(s, le')
  {
    if s != [] {
      SortCongruent(s[1..], le, le');
      var t := Sort(s[1..], le);
      forall i | 0 <= i < |t| ensures le(s[0], t[i]) == le'(s[0], t[i]) {
        SortMember(s[1..], le, t[i]);
      }
      InsertCongruent(s[0], t, le, le');
    }
  }

  lemma {:induction false} SortNoDup<T>(s: seq<T>, le: (T, T) -> bool)
    requires NoDup(s)
    ensures NoDup(Sort(s, le))
  {
    if s != [] {
      SortNoDup(s[1..], le);
      SortMember(s[1..], le, s[0]);
      InsertNoDup(s[0], Sort(s[1..], le), le);
    }
  }

  lemma {:induction false} InsertNoDup<T>(x: T, s: seq<T>, le: (T, T) -> bool)
    requires NoDup(s) && x !in s
    ensures NoDup(Insert(x, s, le))
  {
    if s != [] && !le(x, s[0]) {
      InsertNoDup(x, s[1..], le);
      var r := Insert(x, s[1..], le);
      forall i | 0 <= i < |r| ensures r[i] != s[0] {
        assert r[i] in multiset(r);
        assert r[i] == x || r[i] in s[1..];
      }
    }
  }

  /** A sequence in order already is left alone. */
  lemma {:induction false} SortOfSorted<T(!new)>(s: seq<T>, le: (T, T) -> bool)
    requires Sorted(s, le)
    ensures Sort(s, le) == s
  {
    if s != [] {
      SortOfSorted(s[1..], le);
    }
  }
}
