/**
 Column identifiers: `normalize_identifier`, and the metric names `dataset__column` built from two of them.
 What counts as a letter, a digit or white space, and how text is lowered, is Python's and a parameter.
 */
module Identifier {
  datatype Alphabet = Alphabet(lower: string -> string, isAlnum: char -> bool, isDigit: char -> bool, isSpace: char -> bool)

  function StripLeft(s: string, p: char -> bool): (r: string)
    ensures |r| <= |s| && r == s[|s| - |r|..]
    ensures r != "" ==> !p(r[0])
  {
    if s == "" || !p(s[0]) then s else StripLeft(s[1..], p)
  }

  function StripRight(s: string, p: char -> bool): (r: string)
    ensures r <= s
    ensures r != "" ==> !p(r[|r| - 1])
  {
    if s == "" || !p(s[|s| - 1]) then s else StripRight(s[..|s| - 1], p)
  }

  function Strip(s: string, p: char -> bool): string {
    StripRight(StripLeft(s, p), p)
  }

  function IsUnderscore(): char -> bool { (c: char) => c == '_' }

  predicate EndsLow(s: string) { s != "" && s[|s| - 1] == '_' }

  /** Every run of other characters becomes one underscore. */
  function Collapse(abc: Alphabet, s: string): string {
    if s == "" then ""
    else
      var before, c := Collapse(abc, s[..|s| - 1]), s[|s| - 1];
      if abc.isAlnum(c) then before + [c] else if EndsLow(before) then before else before + "_"
  }

  function Finish(abc: Alphabet, out: string): string {
    if out == "" then "col" else if abc.isDigit(out[0]) then "c_" + out else out
  }

  /** `normalize_identifier` */
  function Normalize(abc: Alphabet, s: string): string {
    Finish(abc, Strip(Collapse(abc, abc.lower(Strip(s, abc.isSpace))), IsUnderscore()))
  }

  method NormalizeIdentifier(abc: Alphabet, value: string) returns (out: string)
    requires !abc.isAlnum('_')
    ensures out == Normalize(abc, value)
  {
    var lowered := abc.lower(Strip(value, abc.isSpace));
    var chars, prevUnderscore := "", false;
    for i := 0 to |lowered|
      invariant chars == Collapse(abc, lowered[..i])
      invariant prevUnderscore == EndsLow(chars)
    {
      assert lowered[..i + 1][..i] == lowered[..i];
      var c := lowered[i];
      if abc.isAlnum(c) {
        chars := chars + [c];
        prevUnderscore := false;
        continue;
      }
      if !prevUnderscore {
        chars := chars + "_";
        prevUnderscore := true;
      }
    }
    assert lowered[..|lowered|] == lowered;
    out := Strip(chars, IsUnderscore());
    if out == "" {
      return "col";
    }
    if abc.isDigit(out[0]) {
      return "c_" + out;
    }
  }

  /*** What Python guarantees ***/

  /** An underscore is no letter, white space and letters exclude each other, digits count as letters, and c, o, l are letters. */
  ghost predicate Sound(abc: Alphabet) {
    && !abc.isAlnum('_') && !abc.isSpace('_')
    && (forall c :: abc.isSpace(c) ==> !abc.isAlnum(c))
    && (forall c :: abc.isDigit(c) ==> abc.isAlnum(c))
    && (forall c :: c in "col" ==> abc.isAlnum(c) && !abc.isDigit(c))
  }

  ghost predicate OfLowered(abc: Alphabet, s: string, t: string) {
    forall c :: c in t ==> c in abc.lower(s) || c in "_col"
  }

  /** Lowering leaves alone what is made of lowered characters. */
  ghost predicate LowersOnce(abc: Alphabet) {
    forall s, t :: OfLowered(abc, s, t) ==> abc.lower(t) == t
  }

  /*** What identifiers look like ***/

  ghost predicate NoDouble(s: string) {
    forall i :: 0 <= i < |s| - 1 ==> s[i] != '_' || s[i + 1] != '_'
  }

  /** No underscore at either end and never two together. */
  ghost predicate SingleInner(s: string) {
    s != "" && NoDouble(s) && s[0] != '_' && s[|s| - 1] != '_'
  }

  ghost predicate IdentifierChars(abc: Alphabet, s: string) {
    forall i :: 0 <= i < |s| ==> abc.isAlnum(s[i]) || s[i] == '_'
  }

  /** Letters and digits with single underscores between them, not starting with a digit. */
  ghost predicate WellFormed(abc: Alphabet, s: string) {
    SingleInner(s) && IdentifierChars(abc, s) && !abc.isDigit(s[0])
  }

  lemma {:induction false} CollapseShape(abc: Alphabet, s: string)
    requires !abc.isAlnum('_')
    ensures IdentifierChars(abc, Collapse(abc, s)) && NoDouble(Collapse(abc, s))
    ensures forall c :: c in Collapse(abc, s) ==> c in s || c == '_'
  {
    if s != "" {
      CollapseShape(abc, s[..|s| - 1]);
      assert s == s[..|s| - 1] + [s[|s| - 1]];
    }
  }

  lemma PartShape(abc: Alphabet, s: string, i: nat, j: nat)
    requires i <= j <= |s| && IdentifierChars(abc, s) && NoDouble(s)
    ensures IdentifierChars(abc, s[i..j]) && NoDouble(s[i..j])
    ensures forall c :: c in s[i..j] ==> c in s
  {
    var t := s[i..j];
    forall k | 0 <= k < |t| - 1 ensures t[k] != '_' || t[k + 1] != '_' {
      assert s[i + k] != '_' || s[i + k + 1] != '_';
    }
  }

  lemma StripLeftShape(abc: Alphabet, s: string)
    requires IdentifierChars(abc, s) && NoDouble(s)
    ensures var l := StripLeft(s, IsUnderscore());
            IdentifierChars(abc, l) && NoDouble(l) && forall c :: c in l ==> c in s
  {
    var l := StripLeft(s, IsUnderscore());
    PartShape(abc, s, |s| - |l|, |s|);
    assert l == s[|s| - |l|..|s|];
  }

  lemma StripRightShape(abc: Alphabet, s: string)
    requires IdentifierChars(abc, s) && NoDouble(s)
    ensures var r := StripRight(s, IsUnderscore());
            IdentifierChars(abc, r) && NoDouble(r) && forall c :: c in r ==> c in s
  {
    var r := StripRight(s, IsUnderscore());
    PartShape(abc, s, 0, |r|);
    assert r == s[0..|r|];
  }

  lemma StripShape(abc: Alphabet, s: string)
    requires IdentifierChars(abc, s) && NoDouble(s)
    ensures var r := Strip(s, IsUnderscore());
            IdentifierChars(abc, r) && (r != "" ==> SingleInner(r)) && forall c :: c in r ==> c in s
  {
    var l := StripLeft(s, IsUnderscore());
    StripLeftShape(abc, s);
    StripRightShape(abc, l);
    var r := StripRight(l, IsUnderscore());
    assert r != "" ==> r[0] == l[0];
  }

  lemma FinishShape(abc: Alphabet, out: string)
    requires Sound(abc) && IdentifierChars(abc, out) && (out != "" ==> SingleInner(out))
    ensures WellFormed(abc, Finish(abc, out))
    ensures forall c :: c in Finish(abc, out) ==> c in out || c in "_col"
  {
    if out == "" {
      assert forall i :: 0 <= i < |"col"| ==> "col"[i] in "col" && "col"[i] != '_';
    } else if abc.isDigit(out[0]) {
      var r := "c_" + out;
      assert r[0] in "col" && r[1] == '_';
      assert forall i :: 2 <= i < |r| ==> r[i] == out[i - 2];
      assert r[|r| - 1] == out[|out| - 1];
    }
  }

  /** Whatever the text, the identifier is well formed, and made of lowered characters. */
  lemma NormalizeIsWellFormed(abc: Alphabet, s: string)
    requires Sound(abc)
    ensures WellFormed(abc, Normalize(abc, s)) && OfLowered(abc, Strip(s, abc.isSpace), Normalize(abc, s))
  {
    var lowered := abc.lower(Strip(s, abc.isSpace));
    CollapseShape(abc, lowered);
    StripShape(abc, Collapse(abc, lowered));
    FinishShape(abc, Strip(Collapse(abc, lowered), IsUnderscore()));
  }

  lemma {:induction false} CollapseKeeps(abc: Alphabet, s: string)
    requires IdentifierChars(abc, s) && NoDouble(s)
    ensures Collapse(abc, s) == s
  {
    if s != "" {
      CollapseKeeps(abc, s[..|s| - 1]);
    }
  }

  lemma StripsNothing(abc: Alphabet, s: string)
    requires Sound(abc) && WellFormed(abc, s)
    ensures Strip(s, abc.isSpace) == s && Strip(s, IsUnderscore()) == s
  {
    assert !abc.isSpace(s[0]) && !abc.isSpace(s[|s| - 1]);
  }

  /** The texts normalization leaves alone are exactly the well-formed ones that lowering leaves alone. */
  lemma FixedIffWellFormed(abc: Alphabet, s: string)
    requires Sound(abc) && LowersOnce(abc)
    ensures Normalize(abc, s) == s <==> (WellFormed(abc, s) && abc.lower(s) == s)
  {
    NormalizeIsWellFormed(abc, s);
    if WellFormed(abc, s) && abc.lower(s) == s {
      StripsNothing(abc, s);
      CollapseKeeps(abc, s);
    }
  }

  lemma NormalizeTwice(abc: Alphabet, s: string)
    requires Sound(abc) && LowersOnce(abc)
    ensures Normalize(abc, Normalize(abc, s)) == Normalize(abc, s)
  {
    NormalizeIsWellFormed(abc, s);
    FixedIffWellFormed(abc, Normalize(abc, s));
  }

  /*** Metric names ***/

  function MetricName(abc: Alphabet, dataset: string, column: string): string {
    Normalize(abc, dataset) + "__" + Normalize(abc, column)
  }

  ghost predicate DoubleAt(s: string, i: nat) {
    i < |s| - 1 && s[i] == '_' && s[i + 1] == '_'
  }

  /** The first place of two underscores; the length when there is none. */
  function FirstDouble(s: string): (n: nat)
    ensures n <= |s|
    ensures n < |s| ==> DoubleAt(s, n)
    ensures forall i: nat :: i < n ==> !DoubleAt(s, i)
  {
    if |s| < 2 then |s|
    else if s[0] == '_' && s[1] == '_' then 0
    else
      var rest := FirstDouble(s[1..]);
      assert forall i: nat :: 0 < i ==> DoubleAt(s, i) == DoubleAt(s[1..], i - 1);
      1 + rest
  }

  /** A metric name read back into dataset and column. */
  function ParseMetric(name: string): (string, string) {
    var n := FirstDouble(name);
    if n + 2 <= |name| then (name[..n], name[n + 2..]) else (name, "")
  }

  lemma FirstDoubleOfJoin(d: string, c: string)
    requires SingleInner(d)
    ensures FirstDouble(d + "__" + c) == |d|
  {
    var s := d + "__" + c;
    assert DoubleAt(s, |d|);
    forall i: nat | i < |d| ensures !DoubleAt(s, i) {
      if i < |d| - 1 {
        assert s[i] == d[i] && s[i + 1] == d[i + 1];
      } else {
        assert s[i] == d[|d| - 1];
      }
    }
  }

  lemma ParseOfJoin(d: string, c: string)
    requires SingleInner(d)
    ensures ParseMetric(d + "__" + c) == (d, c)
  {
    FirstDoubleOfJoin(d, c);
    var s := d + "__" + c;
    assert s[..|d|] == d && s[|d| + 2..] == c;
  }

  /** Parsing at the first double underscore recovers both identifiers. */
  lemma ParseRecovers(abc: Alphabet, dataset: string, column: string)
    requires Sound(abc)
    ensures ParseMetric(MetricName(abc, dataset, column)) == (Normalize(abc, dataset), Normalize(abc, column))
  {
    NormalizeIsWellFormed(abc, dataset);
    ParseOfJoin(Normalize(abc, dataset), Normalize(abc, column));
  }

  /** Two metric names are equal exactly when dataset and column normalize alike. */
  lemma MetricNamesEqualIff(abc: Alphabet, dataset: string, column: string, dataset': string, column': string)
    requires Sound(abc)
    ensures MetricName(abc, dataset, column) == MetricName(abc, dataset', column')
        <==> Normalize(abc, dataset) == Normalize(abc, dataset') && Normalize(abc, column) == Normalize(abc, column')
  {
    ParseRecovers(abc, dataset, column);
    ParseRecovers(abc, dataset', column');
  }

  lemma JoinIsDouble(d: string, c: string)
    ensures !NoDouble(d + "__" + c)
  {
    var s := d + "__" + c;
    assert s[|d|] == '_' && s[|d| + 1] == '_';
  }

  predicate IsKeyColumn(key: string) {
    key == "client_slug" || key == "site_code" || key == "site_name" || key == "date"
  }

  lemma KeyColumnsHaveNoDouble(key: string)
    requires IsKeyColumn(key)
    ensures NoDouble(key)
  {
  }

  /** No metric overwrites a key column. */
  lemma MetricIsNoKeyColumn(abc: Alphabet, dataset: string, column: string, key: string)
    requires IsKeyColumn(key)
    ensures MetricName(abc, dataset, column) != key
  {
    KeyColumnsHaveNoDouble(key);
    JoinIsDouble(Normalize(abc, dataset), Normalize(abc, column));
  }

  /** A metric name with a second double underscore is not a metric name. */
  lemma LongerIsNoJoin(d: string, x: string, e: string, y: string, rest: string)
    requires SingleInner(d) && SingleInner(x) && SingleInner(e)
    ensures d + "__" + x != e + "__" + y + ("__" + rest)
  {
    var tail := y + "__" + rest;
    assert e + "__" + y + ("__" + rest) == e + "__" + tail;
    if d + "__" + x == e + "__" + tail {
      ParseOfJoin(d, x);
      ParseOfJoin(e, tail);
      JoinIsDouble(y, rest);
    }
  }

  /*** ASCII text ***/

  function AsciiLower(s: string): (r: string)
    ensures |r| == |s|
  {
    seq(|s|, i requires 0 <= i < |s| => if 'A' <= s[i] <= 'Z' then (s[i] as int + 32) as char else s[i])
  }

  /** Python's rules for ASCII text; other characters count as neither letter, digit nor white space. */
  function AsciiAlphabet(): Alphabet {
    Alphabet(
      (s: string) => AsciiLower(s),
      (c: char) => '0' <= c <= '9' || 'a' <= c <= 'z' || 'A' <= c <= 'Z',
      (c: char) => '0' <= c <= '9',
      (c: char) => c == ' ' || 9 as char <= c <= 13 as char || 28 as char <= c <= 31 as char)
  }

  /** On ASCII text the laws above hold without a proviso. */
  lemma AsciiMeetsTheRules()
    ensures Sound(AsciiAlphabet()) && LowersOnce(AsciiAlphabet())
  {
    var abc := AsciiAlphabet();
    forall s, t | OfLowered(abc, s, t) ensures abc.lower(t) == t {
      forall i | 0 <= i < |t| ensures !('A' <= t[i] <= 'Z') {
        assert t[i] in t;
      }
      assert AsciiLower(t) == t;
    }
  }
}
