/** Finite sequences: the `filter`, `map`, `slice` and bounded-append operations both sources use. */
module Sequences {
  ghost predicate NoDup<T>(s: seq<T>) {
    forall i, j :: 0 <= i < j < |s| ==> s[i] != s[j]
  }

  lemma NoDupConcat<T>(a: seq<T>, b: seq<T>)
    requires NoDup(a) && NoDup(b) && forall i :: 0 <= i < |a| ==> a[i] !in b
    ensures NoDup(a + b)
  {
  }

  function Filter<T>(s: seq<T>, p: T -> bool): (r: seq<T>)
    ensures |r| <= |s|
  {
    if s == [] then []
    else if p(s[0]) then [s[0]] + Filter(s[1..], p)
    else Filter(s[1..], p)
  }

  lemma {:induction false} FilterMembers<T>(s: seq<T>, p: T -> bool)
    ensures forall x :: x in Filter(s, p) ==> x in s && p(x)
    ensures forall x :: x in s && p(x) ==> x in Filter(s, p)
  {
    if s != [] {
      FilterMembers(s[1..], p);
    }
  }

  function Map<T, U>(s: seq<T>, f: T -> U): (r: seq<U>)
    ensures |r| == |s|
    ensures forall i :: 0 <= i < |s| ==> r[i] == f(s[i])
  {
    seq(|s|, i requires 0 <= i < |s| => f(s[i]))
  }

  /** JavaScript's `slice(0, limit)`: a negative limit counts from the end. */
  function SliceTo<T>(s: seq<T>, limit: int): (r: seq<T>)
    ensures r <= s
    ensures 0 <= limit ==> |r| == if limit <= |s| then limit else |s|
    ensures limit < 0 ==> |r| == if |s| + limit < 0 then 0 else |s| + limit
  {
    if limit < 0 then s[..if |s| + limit < 0 then 0 else |s| + limit]
    else if limit <= |s| then s[..limit] else s
  }

  /** The last `n` elements, or all of them when there are fewer. */
  function LastN<T>(s: seq<T>, n: nat): seq<T> {
    if |s| <= n then s else s[|s| - n..]
  }

  /** `deque(maxlen=n).append(v)`. */
  function PushBounded<T>(s: seq<T>, v: T, n: nat): seq<T> {
    LastN(s + [v], n)
  }

  /** Appending to a deque that already holds the last `n` of `s` leaves the last `n` of the longer list. */
  lemma PushKeepsLast<T>(s: seq<T>, v: T, n: nat)
    ensures PushBounded(LastN(s, n), v, n) == LastN(s + [v], n)
  {
  }

  lemma {:induction false} FilterAppend<T>(s: seq<T>, t: seq<T>, p: T -> bool)
    ensures Filter(s + t, p) == Filter(s, p) + Filter(t, p)
  {
    if s == [] {
      assert s + t == t;
    } else {
      assert (s + t)[1..] == s[1..] + t;
      FilterAppend(s[1..], t, p);
    }
  }

  lemma {:induction false} FilterCongruent<T>(s: seq<T>, p: T -> bool, q: T -> bool)
    requires forall x :: x in s ==> p(x) == q(x)
    ensures Filter(s, p) == Filter(s, q)
  {
    if s != [] {
      FilterCongruent(s[1..], p, q);
    }
  }

  lemma {:induction false} FilterAll<T>(s: seq<T>, p: T -> bool)
    requires forall x :: x in s ==> p(x)
    ensures Filter(s, p) == s
  {
    if s != [] {
      FilterAll(s[1..], p);
    }
  }

  lemma {:induction false} FilterNone<T>(s: seq<T>, p: T -> bool)
    requires forall x :: x in s ==> !p(x)
    ensures Filter(s, p) == []
  {
    if s != [] {
      FilterNone(s[1..], p);
    }
  }

  lemma {:induction false} FilterTwice<T>(s: seq<T>, p: T -> bool, q: T -> bool, both: T -> bool)
    requires forall x :: x in s ==> both(x) == (p(x) && q(x))
    ensures Filter(Filter(s, p), q) == Filter(s, both)
  {
    if s != [] {
      FilterTwice(s[1..], p, q, both);
    }
  }

  lemma FilterDropsFront<T>(s: seq<T>, n: nat, q: T -> bool)
    requires n <= |s|
    requires forall i :: 0 <= i < n ==> !q(s[i])
    requires forall i :: n <= i < |s| ==> q(s[i])
    ensures Filter(s, q) == s[n..]
  {
    assert s == s[..n] + s[n..];
    FilterAppend(s[..n], s[n..], q);
    FilterNone(s[..n], q);
    FilterAll(s[n..], q);
  }

  /** Where `b` keeps the elements of `a` that satisfy `q` and spoils the others for `p`. */
  lemma {:induction false} FilterReplaced<T>(a: seq<T>, b: seq<T>, p: T -> bool, q: T -> bool)
    requires |a| == |b|
    requires forall i :: 0 <= i < |a| ==> if q(a[i]) then b[i] == a[i] else !p(b[i])
    ensures Filter(b, p) == Filter(Filter(a, p), q)
  {
    if a != [] {
      FilterReplaced(a[1..], b[1..], p, q);
    }
  }

  lemma {:induction false} FilterMonotone<T>(s: seq<T>, p: T -> bool, q: T -> bool)
    requires forall x :: x in s && p(x) ==> q(x)
    ensures |Filter(s, p)| <= |Filter(s, q)|
  {
    if s != [] {
      FilterMonotone(s[1..], p, q);
    }
  }

  lemma {:induction false} FilterNoDup<T>(s: seq<T>, p: T -> bool)
    requires NoDup(s)
    ensures NoDup(Filter(s, p))
  {
    if s != [] {
      FilterNoDup(s[1..], p);
      FilterMembers(s[1..], p);
    }
  }

  lemma {:induction false} FilterMap<T, U>(s: seq<T>, f: T -> U, p: T -> bool, q: U -> bool)
    requires forall x :: x in s ==> p(x) == q(f(x))
    ensures Filter(Map(s, f), q) == Map(Filter(s, p), f)
  {
    if s != [] {
      assert Map(s, f)[1..] == Map(s[1..], f);
      FilterMap(s[1..], f, p, q);
      if p(s[0]) {
        assert Map([s[0]] + Filter(s[1..], p), f) == [f(s[0])] + Map(Filter(s[1..], p), f);
      }
    }
  }

  lemma PlaceInFilter<T>(s: seq<T>, p: T -> bool, i: nat) returns (a: nat)
    requires i < |s| && p(s[i])
    ensures a < |Filter(s, p)| && Filter(s, p)[a] == s[i]
  {
    FilterMembers(s, p);
    a :| 0 <= a < |Filter(s, p)| && Filter(s, p)[a] == s[i];
  }

  /** Filtering keeps the order: two kept elements stand as before. */
  lemma {:induction false} PlacesInFilter<T>(s: seq<T>, p: T -> bool, i: nat, j: nat) returns (a: nat, b: nat)
    requires i < j < |s| && p(s[i]) && p(s[j])
    ensures a < b < |Filter(s, p)| && Filter(s, p)[a] == s[i] && Filter(s, p)[b] == s[j]
  {
    if i == 0 {
      var c := PlaceInFilter(s[1..], p, j - 1);
      a, b := 0, c + 1;
    } else {
      a, b := PlacesInFilter(s[1..], p, i - 1, j - 1);
      if p(s[0]) {
        a, b := a + 1, b + 1;
      }
    }
  }

  lemma {:induction false} PlacesBeforeFilter<T>(s: seq<T>, p: T -> bool, a: nat, b: nat) returns (i: nat, j: nat)
    requires a < b < |Filter(s, p)|
    ensures i < j < |s| && s[i] == Filter(s, p)[a] && s[j] == Filter(s, p)[b]
  {
    if !p(s[0]) {
      i, j := PlacesBeforeFilter(s[1..], p, a, b);
      i, j := i + 1, j + 1;
    } else if a > 0 {
      i, j := PlacesBeforeFilter(s[1..], p, a - 1, b - 1);
      i, j := i + 1, j + 1;
    } else {
      FilterMembers(s[1..], p);
      var y := Filter(s[1..], p)[b - 1];
      assert y in s[1..];
      i, j :| i == 0 && 1 <= j < |s| && s[j] == y;
    }
  }

  /** The first `n` elements replaced one by one, each from the sequence so far. */
  function InTurn<T>(step: (seq<T>, nat) -> T, s: seq<T>, n: nat): (r: seq<T>)
    requires n <= |s|
    ensures |r| == |s|
  {
    if n == 0 then s
    else
      var before := InTurn(step, s, n - 1);
      before[n - 1 := step(before, n - 1)]
  }

  ghost predicate KeptAt<T>(related: (seq<T>, seq<T>) -> bool, step: (seq<T>, nat) -> T, a: seq<T>, b: seq<T>, i: nat) {
    related(a, b) && i < |a| && i < |b| ==> related(a[i := step(a, i)], b[i := step(b, i)])
  }

  ghost predicate KeptByEach<T(!new)>(related: (seq<T>, seq<T>) -> bool, step: (seq<T>, nat) -> T) {
    forall a, b, i: nat :: KeptAt(related, step, a, b, i)
  }

  lemma {:induction false} KeptInTurn<T(!new)>(related: (seq<T>, seq<T>) -> bool, step: (seq<T>, nat) -> T, a: seq<T>, b: seq<T>, n: nat)
    requires KeptByEach(related, step) && related(a, b) && n <= |a| && n <= |b|
    ensures related(InTurn(step, a, n), InTurn(step, b, n))
  {
    if n > 0 {
      KeptInTurn(related, step, a, b, n - 1);
      assert KeptAt(related, step, InTurn(step, a, n - 1), InTurn(step, b, n - 1), n - 1);
    }
  }
}
