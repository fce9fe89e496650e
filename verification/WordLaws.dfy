/** What normalization keeps of a text: its words, joined by single underscores. */
module WordLaws {
  import opened Delimiters
  import opened Identifier

  ghost predicate AllOf(s: string, p: char -> bool) {
    forall i :: 0 <= i < |s| ==> p(s[i])
  }

  ghost predicate NoneOf(s: string, p: char -> bool) {
    forall i :: 0 <= i < |s| ==> !p(s[i])
  }

  /*** Stripping ***/

  lemma {:induction false} StripLeftDrops(s: string, p: char -> bool)
    ensures AllOf(s[..|s| - |StripLeft(s, p)|], p)
  {
    if s != "" && p(s[0]) {
      StripLeftDrops(s[1..], p);
      var n := |s| - |StripLeft(s, p)|;
      forall i | 0 <= i < n ensures p(s[..n][i]) {
        if i > 0 {
          assert s[..n][i] == s[1..][..n - 1][i - 1];
        }
      }
    }
  }

  lemma {:induction false} StripRightDrops(s: string, p: char -> bool)
    ensures AllOf(s[|StripRight(s, p)|..], p)
  {
    if s != "" && p(s[|s| - 1]) {
      var n := |s| - 1;
      StripRightDrops(s[..n], p);
      var r := StripRight(s, p);
      forall i | 0 <= i < |s[|r|..]| ensures p(s[|r|..][i]) {
        if i < n - |r| {
          assert s[|r|..][i] == s[..n][|r|..][i];
        }
      }
    }
  }

  lemma Rejoined(s: string, l: string, r: string)
    requires |l| <= |s| && l == s[|s| - |l|..] && r <= l
    ensures s == s[..|s| - |l|] + r + l[|r|..]
  {
  }

  /** Stripping takes characters of the kind, and all of them, off both ends. */
  lemma StripTakesTheEnds(s: string, p: char -> bool) returns (a: string, b: string)
    ensures s == a + Strip(s, p) + b && AllOf(a, p) && AllOf(b, p)
    ensures Strip(s, p) != "" ==> !p(Strip(s, p)[0]) && !p(Strip(s, p)[|Strip(s, p)| - 1])
  {
    var l := StripLeft(s, p);
    a, b := s[..|s| - |l|], l[|StripRight(l, p)|..];
    StripLeftDrops(s, p);
    StripRightDrops(l, p);
    Rejoined(s, l, StripRight(l, p));
  }

  function Trimmed(): char -> bool { (c: char) => IsTrimmed(c) }

  lemma {:induction false} TrimStartIsStripLeft(s: string)
    ensures TrimStart(s) == StripLeft(s, Trimmed())
  {
    if s != "" && IsTrimmed(s[0]) {
      TrimStartIsStripLeft(s[1..]);
    }
  }

  lemma {:induction false} TrimEndIsStripRight(s: string)
    ensures TrimEnd(s) == StripRight(s, Trimmed())
  {
    if s != "" && IsTrimmed(s[|s| - 1]) {
      TrimEndIsStripRight(s[..|s| - 1]);
    }
  }

  /** JavaScript's `trim` is stripping as well, of the characters it counts as white space. */
  lemma TrimIsStrip(s: string)
    ensures Trim(s) == Strip(s, Trimmed())
  {
    TrimStartIsStripLeft(s);
    TrimEndIsStripRight(TrimStart(s));
  }

  /*** Words ***/

  /** Gap, word, gap, and so on, with one gap more than there are words. */
  function Woven(gaps: seq<string>, words: seq<string>): string
    requires |gaps| == |words| + 1
  {
    if words == [] then gaps[0]
    else
      var n := |words| - 1;
      Woven(gaps[..n + 1], words[..n]) + words[n] + gaps[n + 1]
  }

  function Joined(words: seq<string>): string {
    if words == [] then ""
    else if |words| == 1 then words[0]
    else Joined(words[..|words| - 1]) + "_" + words[|words| - 1]
  }

  /** Words of letters and digits; gaps without any, which only at the two ends may be empty. */
  ghost predicate WordsAndGaps(abc: Alphabet, gaps: seq<string>, words: seq<string>) {
    && |gaps| == |words| + 1
    && (forall k :: 0 <= k < |words| ==> words[k] != "" && AllOf(words[k], abc.isAlnum))
    && (forall k :: 0 <= k < |gaps| ==> NoneOf(gaps[k], abc.isAlnum))
    && (forall k :: 0 < k < |gaps| - 1 ==> gaps[k] != "")
  }

  lemma FirstWords(abc: Alphabet, gaps: seq<string>, words: seq<string>)
    requires WordsAndGaps(abc, gaps, words) && words != []
    ensures WordsAndGaps(abc, gaps[..|words|], words[..|words| - 1])
  {
  }

  lemma CollapseOne(abc: Alphabet, s: string, c: char)
    ensures Collapse(abc, s + [c])
         == (var before := Collapse(abc, s); if abc.isAlnum(c) then before + [c] else if EndsLow(before) then before else before + "_")
  {
    assert (s + [c])[..|s|] == s;
  }

  lemma LastApart(x: string, w: string)
    requires w != ""
    ensures x + w == x + w[..|w| - 1] + [w[|w| - 1]]
  {
  }

  lemma {:induction false} CollapseOfWord(abc: Alphabet, s: string, w: string)
    requires AllOf(w, abc.isAlnum)
    ensures Collapse(abc, s + w) == Collapse(abc, s) + w
    decreases |w|
  {
    if w == "" {
      assert s + w == s;
      assert Collapse(abc, s) + w == Collapse(abc, s);
    } else {
      var n := |w| - 1;
      CollapseOfWord(abc, s, w[..n]);
      CollapseOne(abc, s + w[..n], w[n]);
      LastApart(s, w);
      LastApart(Collapse(abc, s), w);
    }
  }

  lemma {:induction false} CollapseOfGap(abc: Alphabet, s: string, g: string)
    requires NoneOf(g, abc.isAlnum)
    ensures Collapse(abc, s + g) == if g == "" || EndsLow(Collapse(abc, s)) then Collapse(abc, s) else Collapse(abc, s) + "_"
    decreases |g|
  {
    if g == "" {
      assert s + g == s;
    } else {
      var n := |g| - 1;
      CollapseOfGap(abc, s, g[..n]);
      CollapseOne(abc, s + g[..n], g[n]);
      LastApart(s, g);
    }
  }

  function Mark(gap: string): string {
    if gap == "" then "" else "_"
  }

  lemma CollapseOfFirstGap(abc: Alphabet, g: string)
    requires NoneOf(g, abc.isAlnum)
    ensures Collapse(abc, g) == Mark(g)
  {
    CollapseOfGap(abc, "", g);
    assert "" + g == g;
    assert "" + "_" == "_";
  }

  lemma WordThenGap(abc: Alphabet, s: string, w: string, g: string)
    requires !abc.isAlnum('_') && w != "" && AllOf(w, abc.isAlnum) && NoneOf(g, abc.isAlnum)
    ensures Collapse(abc, s + w + g) == Collapse(abc, s) + w + Mark(g)
  {
    CollapseOfWord(abc, s, w);
    CollapseOfGap(abc, s + w, g);
    assert abc.isAlnum(w[|w| - 1]) && (Collapse(abc, s) + w)[|Collapse(abc, s) + w| - 1] == w[|w| - 1];
  }

  lemma MarksBetween(lead: string, joined: string, word: string, trail: string)
    ensures lead + joined + "_" + word + trail == lead + (joined + "_" + word) + trail
  {
  }

  /** What collapsing leaves of words and gaps. */
  function Collapsed(gaps: seq<string>, words: seq<string>): string
    requires |gaps| == |words| + 1
  {
    if words == [] then Mark(gaps[0]) else Mark(gaps[0]) + Joined(words) + Mark(gaps[|words|])
  }

  lemma CollapsedStep(abc: Alphabet, gaps: seq<string>, words: seq<string>)
    requires WordsAndGaps(abc, gaps, words) && words != []
    ensures Collapsed(gaps, words) == Collapsed(gaps[..|words|], words[..|words| - 1]) + words[|words| - 1] + Mark(gaps[|words|])
  {
    var n := |words| - 1;
    if n == 0 {
      assert words == [words[0]];
    } else {
      assert Mark(gaps[n]) == "_" && gaps[..n + 1][n] == gaps[n];
      MarksBetween(Mark(gaps[0]), Joined(words[..n]), words[n], Mark(gaps[n + 1]));
    }
  }

  /** Collapsing leaves the words with one underscore for each gap that is there. */
  lemma {:induction false} CollapseOfWoven(abc: Alphabet, gaps: seq<string>, words: seq<string>)
    requires !abc.isAlnum('_') && WordsAndGaps(abc, gaps, words)
    ensures Collapse(abc, Woven(gaps, words)) == Collapsed(gaps, words)
    decreases |words|
  {
    if words == [] {
      CollapseOfFirstGap(abc, gaps[0]);
    } else {
      var n := |words| - 1;
      FirstWords(abc, gaps, words);
      CollapseOfWoven(abc, gaps[..n + 1], words[..n]);
      WordThenGap(abc, Woven(gaps[..n + 1], words[..n]), words[n], gaps[n + 1]);
      CollapsedStep(abc, gaps, words);
    }
  }

  lemma {:induction false} JoinedEnds(abc: Alphabet, words: seq<string>)
    requires !abc.isAlnum('_') && words != [] && forall k :: 0 <= k < |words| ==> words[k] != "" && AllOf(words[k], abc.isAlnum)
    ensures Joined(words) != "" && Joined(words)[0] == words[0][0] && Joined(words)[0] != '_' && Joined(words)[|Joined(words)| - 1] != '_'
  {
    assert abc.isAlnum(words[0][0]) && abc.isAlnum(words[|words| - 1][|words[|words| - 1]| - 1]);
    if |words| > 1 {
      JoinedEnds(abc, words[..|words| - 1]);
    } else {
      assert words[|words| - 1] == words[0];
    }
  }

  lemma StripLeftOne(c: char, t: string, p: char -> bool)
    requires p(c)
    ensures StripLeft([c] + t, p) == StripLeft(t, p)
  {
    assert ([c] + t)[1..] == t;
  }

  lemma StripLeftNone(t: string, p: char -> bool)
    requires t != "" ==> !p(t[0])
    ensures StripLeft(t, p) == t
  {
  }

  lemma StripLeftMark(gap: string, t: string)
    requires t != "" && t[0] != '_'
    ensures StripLeft(Mark(gap) + t, IsUnderscore()) == t
  {
    StripLeftNone(t, IsUnderscore());
    if gap == "" {
      assert "" + t == t;
    } else {
      StripLeftOne('_', t, IsUnderscore());
    }
  }

  lemma StripRightMark(s: string, gap: string)
    requires s != "" && s[|s| - 1] != '_'
    ensures StripRight(s + Mark(gap), IsUnderscore()) == s
  {
    if gap == "" {
      assert s + "" == s;
    } else {
      assert (s + "_")[..|s|] == s;
      assert StripRight(s + "_", IsUnderscore()) == StripRight(s, IsUnderscore());
    }
  }

  lemma StripMarks(gap: string, s: string, gap': string)
    requires s != "" && s[0] != '_' && s[|s| - 1] != '_'
    ensures Strip(Mark(gap) + s + Mark(gap'), IsUnderscore()) == s
  {
    assert Mark(gap) + s + Mark(gap') == Mark(gap) + (s + Mark(gap'));
    StripLeftMark(gap, s + Mark(gap'));
    StripRightMark(s, gap');
  }

  lemma StripOneMark(gap: string)
    ensures Strip(Mark(gap), IsUnderscore()) == ""
  {
    assert "_"[1..] == "";
  }

  /**
   The identifier of a text: its words, lowered, joined by single underscores; with "c_" in front if the first
   starts with a digit, and "col" if there is no word.
   */
  lemma NormalizeJoinsWords(abc: Alphabet, s: string, gaps: seq<string>, words: seq<string>)
    requires !abc.isAlnum('_') && WordsAndGaps(abc, gaps, words) && abc.lower(Strip(s, abc.isSpace)) == Woven(gaps, words)
    ensures Normalize(abc, s)
         == if words == [] then "col" else if abc.isDigit(words[0][0]) then "c_" + Joined(words) else Joined(words)
  {
    CollapseOfWoven(abc, gaps, words);
    if words == [] {
      StripOneMark(gaps[0]);
    } else {
      JoinedEnds(abc, words);
      StripMarks(gaps[0], Joined(words), gaps[|words|]);
    }
  }

  lemma LongerGap(abc: Alphabet, gaps: seq<string>, words: seq<string>, c: char)
    requires WordsAndGaps(abc, gaps, words) && !abc.isAlnum(c)
    ensures var longer := gaps[|words| := gaps[|words|] + [c]];
            WordsAndGaps(abc, longer, words) && Woven(longer, words) == Woven(gaps, words) + [c]
  {
    var n := |words|;
    var longer := gaps[n := gaps[n] + [c]];
    if n > 0 {
      assert longer[..n] == gaps[..n];
      LastOfLonger(Woven(gaps[..n], words[..n - 1]) + words[n - 1], gaps[n], c);
    }
  }

  lemma LastOfLonger(x: string, y: string, c: char)
    ensures x + (y + [c]) == x + y + [c]
  {
  }

  lemma LongerWord(abc: Alphabet, gaps: seq<string>, words: seq<string>, c: char)
    requires WordsAndGaps(abc, gaps, words) && abc.isAlnum(c) && words != [] && gaps[|words|] == ""
    ensures var longer := words[|words| - 1 := words[|words| - 1] + [c]];
            WordsAndGaps(abc, gaps, longer) && Woven(gaps, longer) == Woven(gaps, words) + [c]
  {
    var n := |words| - 1;
    var longer := words[n := words[n] + [c]];
    assert longer[..n] == words[..n];
    var front := Woven(gaps[..n + 1], words[..n]);
    assert front + words[n] + "" == front + words[n] && front + longer[n] + "" == front + longer[n];
    LastOfLonger(front, words[n], c);
  }

  lemma NextWord(abc: Alphabet, gaps: seq<string>, words: seq<string>, c: char)
    requires WordsAndGaps(abc, gaps, words) && abc.isAlnum(c) && (words == [] || gaps[|words|] != "")
    ensures WordsAndGaps(abc, gaps + [""], words + [[c]]) && Woven(gaps + [""], words + [[c]]) == Woven(gaps, words) + [c]
  {
    var n := |words|;
    assert (gaps + [""])[..n + 1] == gaps && (words + [[c]])[..n] == words;
    assert Woven(gaps, words) + [c] + "" == Woven(gaps, words) + [c];
  }

  lemma OneMoreChar(abc: Alphabet, gaps: seq<string>, words: seq<string>, c: char) returns (gaps': seq<string>, words': seq<string>)
    requires WordsAndGaps(abc, gaps, words)
    ensures WordsAndGaps(abc, gaps', words') && Woven(gaps', words') == Woven(gaps, words) + [c]
  {
    if !abc.isAlnum(c) {
      LongerGap(abc, gaps, words, c);
      gaps', words' := gaps[|words| := gaps[|words|] + [c]], words;
    } else if words != [] && gaps[|words|] == "" {
      LongerWord(abc, gaps, words, c);
      gaps', words' := gaps, words[|words| - 1 := words[|words| - 1] + [c]];
    } else {
      NextWord(abc, gaps, words, c);
      gaps', words' := gaps + [""], words + [[c]];
    }
  }

  /** Every text is made of words and gaps. */
  lemma {:induction false} EveryTextIsWoven(abc: Alphabet, s: string) returns (gaps: seq<string>, words: seq<string>)
    ensures WordsAndGaps(abc, gaps, words) && Woven(gaps, words) == s
  {
    if s == "" {
      gaps, words := [""], [];
    } else {
      var g, w := EveryTextIsWoven(abc, s[..|s| - 1]);
      gaps, words := OneMoreChar(abc, g, w, s[|s| - 1]);
      assert s == s[..|s| - 1] + [s[|s| - 1]];
    }
  }
}
