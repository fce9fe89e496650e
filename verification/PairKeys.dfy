/** Keys made of two parts joined by "::": the sync states of the store and the watermarks of the pipeline. */
module PairKeys {
  import opened Delimiters

  function Pair(a: string, b: string): string {
    a + "::" + b
  }

  /** The same text with the separator read further right: at once, by one colon, or past some text `m`. */
  ghost predicate ReadsLater(a: string, b: string, a': string, b': string) {
    || (a' == a + ":" && b == ":" + b')
    || (exists m :: a' == a + "::" + m && b == m + "::" + b')
  }

  lemma LaterIsSame(a: string, b: string, a': string, b': string)
    requires ReadsLater(a, b, a', b')
    ensures Pair(a, b) == Pair(a', b')
  {
    if a' == a + ":" && b == ":" + b' {
      assert a + "::" + (":" + b') == (a + ":") + "::" + b';
    } else {
      var m :| a' == a + "::" + m && b == m + "::" + b';
      assert a + "::" + (m + "::" + b') == (a + "::" + m) + "::" + b';
    }
  }

  lemma LongerReadsLater(a: string, b: string, a': string, b': string)
    requires Pair(a, b) == Pair(a', b') && |a| < |a'|
    ensures ReadsLater(a, b, a', b')
  {
    var k, d := Pair(a, b), |a'| - |a|;
    assert a == k[..|a|] && a' == k[..|a'|] && b == k[|a| + 2..] && b' == k[|a'| + 2..];
    assert k[|a|] == ':' && k[|a| + 1] == ':' && k[|a'|] == ':' && k[|a'| + 1] == ':';
    if d == 1 {
      assert a' == a + ":" && b == ":" + b';
    } else {
      var m := k[|a| + 2..|a'|];
      assert a' == a + "::" + m && b == m + "::" + b';
    }
  }

  /** Two pairs share a key exactly when they are one pair or one reads the separator later than the other. */
  lemma SharedKeyIff(a: string, b: string, a': string, b': string)
    ensures Pair(a, b) == Pair(a', b')
        <==> (a == a' && b == b') || ReadsLater(a, b, a', b') || ReadsLater(a', b', a, b)
  {
    if Pair(a, b) == Pair(a', b') {
      var k := Pair(a, b);
      if |a| < |a'| {
        LongerReadsLater(a, b, a', b');
      } else if |a'| < |a| {
        LongerReadsLater(a', b', a, b);
      } else {
        assert a == k[..|a|] && a' == k[..|a|] && b == k[|a| + 2..] && b' == k[|a| + 2..];
      }
    }
    if ReadsLater(a, b, a', b') {
      LaterIsSame(a, b, a', b');
    }
    if ReadsLater(a', b', a, b) {
      LaterIsSame(a', b', a, b);
    }
  }

  lemma LaterHasColon(a: string, b: string, a': string, b': string)
    requires ReadsLater(a, b, a', b')
    ensures !Without(a', ':')
  {
    assert a'[|a|] == ':';
  }

  /** With no colon in the first parts the key determines both. */
  lemma ColonFreeKeysDiffer(a: string, b: string, a': string, b': string)
    requires Without(a, ':') && Without(a', ':')
    ensures Pair(a, b) == Pair(a', b') <==> a == a' && b == b'
  {
    SharedKeyIff(a, b, a', b');
    if ReadsLater(a, b, a', b') {
      LaterHasColon(a, b, a', b');
    }
    if ReadsLater(a', b', a, b) {
      LaterHasColon(a', b', a, b);
    }
  }

  /** Two different pairs that share a key. */
  lemma SharedKeysExist()
    ensures Pair("a", "b::c") == Pair("a::b", "c") && Pair("a", ":b") == Pair("a:", "b")
  {
    assert Pair("a", "b::c") == "a::b::c" && Pair("a", ":b") == "a:::b";
  }
}
