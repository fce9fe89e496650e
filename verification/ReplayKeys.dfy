/** The "|"-joined text behind both idempotency indexes: when two different requests share a key. */
module ReplayKeys {
  import opened ConnectorTypes
  import opened Delimiters

  predicate PipeFree(s: string) {
    Without(s, '|')
  }

  function Pipes(s: string): nat {
    if s == "" then 0 else (if s[0] == '|' then 1 else 0) + Pipes(s[1..])
  }

  lemma {:induction false} PipesOfConcat(a: string, b: string)
    ensures Pipes(a + b) == Pipes(a) + Pipes(b)
  {
    if a == "" {
      assert a + b == b;
    } else {
      assert (a + b)[1..] == a[1..] + b;
      PipesOfConcat(a[1..], b);
    }
  }

  lemma {:induction false} NoPipesIffPipeFree(s: string)
    ensures Pipes(s) == 0 <==> PipeFree(s)
  {
    if s != "" {
      NoPipesIffPipeFree(s[1..]);
      if PipeFree(s[1..]) && s[0] != '|' {
        assert forall i :: 0 < i < |s| ==> s[i] == s[1..][i - 1];
      }
      if PipeFree(s) {
        assert forall i :: 0 <= i < |s[1..]| ==> s[1..][i] == s[i + 1];
      }
    }
  }

  lemma KeyMaterialNests(o: string, c: string, t: string, m: string)
    ensures KeyMaterial(o, c, t, m) == o + "|" + (c + "|" + (t + "|" + m))
  {
  }

  /** With no "|" in the first three parts, the key determines all four. */
  lemma KeyMaterialInjective(o: string, c: string, t: string, m: string, o': string, c': string, t': string, m': string)
    requires PipeFree(o) && PipeFree(c) && PipeFree(t) && PipeFree(o') && PipeFree(c') && PipeFree(t')
    requires KeyMaterial(o, c, t, m) == KeyMaterial(o', c', t', m')
    ensures o == o' && c == c' && t == t' && m == m'
  {
    KeyMaterialNests(o, c, t, m);
    KeyMaterialNests(o', c', t', m');
    SplitAt('|', o, c + "|" + (t + "|" + m), o', c' + "|" + (t' + "|" + m'));
    SplitAt('|', c, t + "|" + m, c', t' + "|" + m');
    SplitAt('|', t, m, t', m');
  }

  lemma PipesOfKey(o: string, c: string, t: string, m: string)
    ensures Pipes(KeyMaterial(o, c, t, m)) == 3 + Pipes(o) + Pipes(c) + Pipes(t) + Pipes(m)
  {
    KeyMaterialNests(o, c, t, m);
    assert Pipes("|") == 1 by { assert "|"[1..] == ""; }
    PipesOfConcat(t, "|");
    PipesOfConcat(t + "|", m);
    PipesOfConcat(c, "|");
    PipesOfConcat(c + "|", t + "|" + m);
    PipesOfConcat(o, "|");
    PipesOfConcat(o + "|", c + "|" + (t + "|" + m));
  }

  lemma {:induction false} FirstPipe(s: string) returns (a: string, b: string)
    requires Pipes(s) > 0
    ensures s == a + "|" + b
  {
    if s[0] == '|' {
      a, b := "", s[1..];
    } else {
      a, b := FirstPipe(s[1..]);
      a := [s[0]] + a;
    }
  }

  ghost predicate Ambiguous(o: string, c: string, t: string, m: string) {
    exists o', c', t', m' :: KeyMaterial(o', c', t', m') == KeyMaterial(o, c, t, m) && (o', c', t', m') != (o, c, t, m)
  }

  lemma Witness(o: string, c: string, t: string, m: string, o': string, c': string, t': string, m': string)
    requires KeyMaterial(o', c', t', m') == KeyMaterial(o, c, t, m)
    requires |o'| != |o| || |c'| != |c| || |t'| != |t|
    ensures Ambiguous(o, c, t, m)
  {
  }

  lemma MoveFirstLeft(o: string, c: string, t: string, m: string)
    requires Pipes(o) > 0
    ensures Ambiguous(o, c, t, m)
  {
    var a, b := FirstPipe(o);
    assert KeyMaterial(a, b, c, t + "|" + m) == KeyMaterial(o, c, t, m);
    Witness(o, c, t, m, a, b, c, t + "|" + m);
  }

  lemma MoveSecondLeft(o: string, c: string, t: string, m: string)
    requires Pipes(c) > 0
    ensures Ambiguous(o, c, t, m)
  {
    var a, b := FirstPipe(c);
    assert KeyMaterial(o, a, b, t + "|" + m) == KeyMaterial(o, c, t, m);
    Witness(o, c, t, m, o, a, b, t + "|" + m);
  }

  lemma MoveThirdLeft(o: string, c: string, t: string, m: string)
    requires Pipes(t) > 0
    ensures Ambiguous(o, c, t, m)
  {
    var a, b := FirstPipe(t);
    assert KeyMaterial(o, c, a, b + "|" + m) == KeyMaterial(o, c, t, m);
    Witness(o, c, t, m, o, c, a, b + "|" + m);
  }

  lemma MoveFirstRight(o: string, c: string, t: string, m: string)
    requires Pipes(m) > 0
    ensures Ambiguous(o, c, t, m)
  {
    var a, b := FirstPipe(m);
    assert KeyMaterial(o + "|" + c, t, a, b) == KeyMaterial(o, c, t, m);
    Witness(o, c, t, m, o + "|" + c, t, a, b);
  }

  lemma FourthPipeGivesAnother(o: string, c: string, t: string, m: string)
    requires Pipes(o) > 0 || Pipes(c) > 0 || Pipes(t) > 0 || Pipes(m) > 0
    ensures Ambiguous(o, c, t, m)
  {
    if Pipes(o) > 0 {
      MoveFirstLeft(o, c, t, m);
    } else if Pipes(c) > 0 {
      MoveSecondLeft(o, c, t, m);
    } else if Pipes(t) > 0 {
      MoveThirdLeft(o, c, t, m);
    } else {
      MoveFirstRight(o, c, t, m);
    }
  }

  lemma ThreePipesStandForOne(o: string, c: string, t: string, m: string, o': string, c': string, t': string, m': string)
    requires KeyMaterial(o', c', t', m') == KeyMaterial(o, c, t, m) && Pipes(KeyMaterial(o, c, t, m)) <= 3
    ensures (o', c', t', m') == (o, c, t, m)
  {
    PipesOfKey(o, c, t, m);
    PipesOfKey(o', c', t', m');
    NoPipesIffPipeFree(o); NoPipesIffPipeFree(c); NoPipesIffPipeFree(t);
    NoPipesIffPipeFree(o'); NoPipesIffPipeFree(c'); NoPipesIffPipeFree(t');
    KeyMaterialInjective(o, c, t, m, o', c', t', m');
  }

  /** A key stands for one request only, among all four-part requests, exactly when it holds no fourth "|". */
  lemma AmbiguousIffFourthPipe(o: string, c: string, t: string, m: string)
    ensures Ambiguous(o, c, t, m) <==> Pipes(KeyMaterial(o, c, t, m)) > 3
  {
    PipesOfKey(o, c, t, m);
    if Pipes(KeyMaterial(o, c, t, m)) > 3 {
      FourthPipeGivesAnother(o, c, t, m);
    } else if Ambiguous(o, c, t, m) {
      var o', c', t', m' :| KeyMaterial(o', c', t', m') == KeyMaterial(o, c, t, m) && (o', c', t', m') != (o, c, t, m);
      ThreePipesStandForOne(o, c, t, m, o', c', t', m');
    }
  }
}
