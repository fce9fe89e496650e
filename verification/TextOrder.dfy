/** Python's order on text: lexicographic by code point. */
module TextOrder {
  predicate TextLe(a: string, b: string) {
    a == "" || (b != "" && (a[0] < b[0] || (a[0] == b[0] && TextLe(a[1..], b[1..]))))
  }

  predicate TextLess(a: string, b: string) {
    TextLe(a, b) && a != b
  }

  lemma {:induction false} TextLeTotal(a: string, b: string)
    ensures TextLe(a, b) || TextLe(b, a)
  {
    if a != "" && b != "" && a[0] == b[0] {
      TextLeTotal(a[1..], b[1..]);
    }
  }

  lemma {:induction false} TextLeReflexive(a: string)
    ensures TextLe(a, a)
  {
    TextLeTotal(a, a);
  }

  lemma {:induction false} TextLeTransitive(a: string, b: string, c: string)
    requires TextLe(a, b) && TextLe(b, c)
    ensures TextLe(a, c)
  {
    if a != "" && a[0] == b[0] && b[0] == c[0] {
      TextLeTransitive(a[1..], b[1..], c[1..]);
    }
  }

  lemma {:induction false} TextLeAntisymmetric(a: string, b: string)
    requires TextLe(a, b) && TextLe(b, a)
    ensures a == b
  {
    if a != "" {
      TextLeAntisymmetric(a[1..], b[1..]);
      assert a == [a[0]] + a[1..] && b == [b[0]] + b[1..];
    }
  }

  lemma LeThenLess(a: string, b: string, c: string)
    requires TextLe(a, b) && TextLess(b, c)
    ensures TextLess(a, c)
  {
    TextLeTransitive(a, b, c);
    if a == c {
      TextLeAntisymmetric(a, b);
    }
  }

  lemma LessIsNotGe(a: string, b: string)
    ensures TextLess(a, b) <==> !TextLe(b, a)
  {
    TextLeTotal(a, b);
    if TextLe(a, b) && TextLe(b, a) {
      TextLeAntisymmetric(a, b);
    }
    TextLeReflexive(b);
  }

  /** At the first place where two texts differ the smaller one has the smaller character, or it has ended. */
  ghost predicate FirstDiffers(a: string, b: string, i: nat) {
    i <= |a| && i < |b| && a[..i] == b[..i] && (i < |a| ==> a[i] < b[i])
  }

  lemma {:induction false} TextLessIff(a: string, b: string)
    ensures TextLess(a, b) <==> exists i: nat :: FirstDiffers(a, b, i)
  {
    if b == "" {
    } else if a == "" {
      assert FirstDiffers(a, b, 0);
    } else if a[0] != b[0] {
      if a[0] < b[0] {
        assert FirstDiffers(a, b, 0);
      }
      forall i: nat | FirstDiffers(a, b, i) ensures a[0] < b[0] {
        if i > 0 {
          assert a[..i][0] == b[..i][0];
        }
      }
    } else {
      TextLessIff(a[1..], b[1..]);
      assert a == [a[0]] + a[1..] && b == [b[0]] + b[1..];
      OneFurther(a, b);
    }
  }

  lemma OneFurther(a: string, b: string)
    requires a != "" && b != "" && a[0] == b[0]
    ensures (exists i: nat :: FirstDiffers(a, b, i)) <==> exists i: nat :: FirstDiffers(a[1..], b[1..], i)
  {
    forall i: nat | FirstDiffers(a, b, i) ensures i > 0 && FirstDiffers(a[1..], b[1..], i - 1) {
      assert i > 0;
      assert a[1..][..i - 1] == a[..i][1..] && b[1..][..i - 1] == b[..i][1..];
    }
    forall i: nat | FirstDiffers(a[1..], b[1..], i) ensures FirstDiffers(a, b, i + 1) {
      assert a[..i + 1] == [a[0]] + a[1..][..i] && b[..i + 1] == [b[0]] + b[1..][..i];
    }
  }

  /** Texts that differ within a prefix of equal length compare as the prefixes do. */
  lemma {:induction false} LessByPrefix(p: string, q: string, s: string, t: string)
    requires |p| == |q| && TextLess(p, q)
    ensures TextLess(p + s, q + t)
  {
    if p[0] == q[0] {
      assert (p + s)[1..] == p[1..] + s && (q + t)[1..] == q[1..] + t;
      assert p == [p[0]] + p[1..] && q == [q[0]] + q[1..];
      LessByPrefix(p[1..], q[1..], s, t);
    }
    assert p + s != q + t by {
      assert (p + s)[..|p|] == p && (q + t)[..|p|] == q;
    }
  }

  lemma {:induction false} LessAfterPrefix(p: string, s: string, t: string)
    requires TextLess(s, t)
    ensures TextLess(p + s, p + t)
  {
    if p == "" {
      assert p + s == s && p + t == t;
    } else {
      assert (p + s)[1..] == p[1..] + s && (p + t)[1..] == p[1..] + t;
      LessAfterPrefix(p[1..], s, t);
    }
  }
}
