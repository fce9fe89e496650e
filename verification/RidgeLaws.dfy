/** Which predictors and which samples the causal ridge prediction of a gap is computed from, by position and by name. */
module RidgeLaws {
  import opened Wrappers
  import opened Sequences
  import opened StableSort
  import opened TextOrder
  import opened Cells
  import opened SilverQuality
  import opened ClampLaws
  import opened EarlierRows
  import opened ImputationLaws

  predicate KnownIn(lib: Library, row: Row, columns: seq<string>) {
    forall m :: 0 <= m < |columns| ==> ValueAt(lib, row, columns[m]).Some?
  }

  /** The earlier rows of the site in which the target and all of these columns are known. */
  function Samples(lib: Library, rows: seq<Row>, i: nat, target: string, columns: seq<string>): nat -> bool {
    (j: nat) => SameSite(lib, rows, i, j) && ValueAt(lib, rows[j], target).Some? && KnownIn(lib, rows[j], columns)
  }

  /*** Samples of one predictor ***/

  function BothKnown(lib: Library, rows: seq<Row>, target: string, predictor: string): nat -> bool {
    (j: nat) => j < |rows| && ValueAt(lib, rows[j], target).Some? && ValueAt(lib, rows[j], predictor).Some?
  }

  lemma PairsOfOneMore(lib: Library, past: seq<Row>, row: Row, target: string, predictor: string)
    ensures Pairs(lib, past + [row], target, predictor)
         == (var (xs, ys) := Pairs(lib, past, target, predictor);
             if ValueAt(lib, row, target).Some? && ValueAt(lib, row, predictor).Some?
             then (xs + CellValues(lib, row, predictor), ys + CellValues(lib, row, target)) else (xs, ys))
  {
    assert (past + [row])[..|past|] == past;
  }

  lemma {:induction false} PairsAt(lib: Library, rows: seq<Row>, ps: seq<nat>, target: string, predictor: string)
    requires InRows(ps, |rows|)
    ensures var qs := Kept(ps, BothKnown(lib, rows, target, predictor));
            InRows(qs, |rows|)
            && Pairs(lib, RowsAt(rows, ps), target, predictor) == (ValuesAt(lib, rows, predictor, qs), ValuesAt(lib, rows, target, qs))
    decreases |ps|
  {
    var q := BothKnown(lib, rows, target, predictor);
    KeptStaysInRows(ps, q, |rows|);
    if ps != [] {
      var n, j := |ps| - 1, ps[|ps| - 1];
      PairsAt(lib, rows, ps[..n], target, predictor);
      assert ps == ps[..n] + [j];
      RowsAtOneMore(rows, ps[..n], j);
      PairsOfOneMore(lib, RowsAt(rows, ps[..n]), rows[j], target, predictor);
      ValuesStepAt(lib, rows, ps[..n], j, predictor, q);
      ValuesStepAt(lib, rows, ps[..n], j, target, q);
    }
  }

  lemma PairsArePicked(lib: Library, rows: seq<Row>, i: nat, mates: seq<nat>, target: string, predictor: string, ps: seq<nat>)
    requires i < |rows| && Picks(mates, i, EarlierOfSite(lib, rows, i)) && InRows(mates, |rows|)
    requires Picks(ps, i, Samples(lib, rows, i, target, [predictor])) && InRows(ps, |rows|)
    ensures Pairs(lib, RowsAt(rows, mates), target, predictor) == (ValuesAt(lib, rows, predictor, ps), ValuesAt(lib, rows, target, ps))
  {
    var q := BothKnown(lib, rows, target, predictor);
    forall j: nat ensures (j in mates && q(j)) <==> (j < i && Samples(lib, rows, i, target, [predictor])(j)) {
      assert [predictor][0] == predictor;
    }
    PairsAt(lib, rows, mates, target, predictor);
    KeptIsPicked(mates, q, ps, i, Samples(lib, rows, i, target, [predictor]));
  }

  /** The score of a predictor: the size of its correlation with the target over at least 40 samples that vary. */
  ghost predicate HasScore(lib: Library, rows: seq<Row>, i: nat, target: string, predictor: string, score: real) {
    exists ps :: Picks(ps, i, Samples(lib, rows, i, target, [predictor])) && ScoresOver(lib, rows, target, predictor, ps, score)
  }

  ghost predicate ScoresOver(lib: Library, rows: seq<Row>, target: string, predictor: string, ps: seq<nat>, score: real) {
    InRows(ps, |rows|)
    && var xs, ys := ValuesAt(lib, rows, predictor, ps), ValuesAt(lib, rows, target, ps);
       && |ps| >= 40 && lib.std(xs) >= 0.000000001 && lib.std(ys) >= 0.000000001
       && lib.correlation(xs, ys).Some?
       && score == (if lib.correlation(xs, ys).value < 0.0 then -lib.correlation(xs, ys).value else lib.correlation(xs, ys).value)
  }

  lemma {:induction false} AllKnownCount(lib: Library, rows: seq<Row>, column: string, ps: seq<nat>)
    requires InRows(ps, |rows|) && forall k :: 0 <= k < |ps| ==> ValueAt(lib, rows[ps[k]], column).Some?
    ensures |ValuesAt(lib, rows, column, ps)| == |ps|
    ensures forall k :: 0 <= k < |ps| ==> ValuesAt(lib, rows, column, ps)[k] == ValueAt(lib, rows[ps[k]], column).value
  {
    if ps != [] {
      AllKnownCount(lib, rows, column, ps[1..]);
    }
  }

  lemma SamplesKnown(lib: Library, rows: seq<Row>, i: nat, target: string, columns: seq<string>, ps: seq<nat>)
    requires Picks(ps, i, Samples(lib, rows, i, target, columns)) && InRows(ps, |rows|)
    ensures forall k :: 0 <= k < |ps| ==> ValueAt(lib, rows[ps[k]], target).Some? && KnownIn(lib, rows[ps[k]], columns)
  {
    forall k | 0 <= k < |ps| ensures ValueAt(lib, rows[ps[k]], target).Some? && KnownIn(lib, rows[ps[k]], columns) {
      assert ps[k] in ps;
    }
  }

  lemma ScoreIffHasScore(lib: Library, rows: seq<Row>, i: nat, mates: seq<nat>, target: string, predictor: string, score: real)
    requires i < |rows| && Picks(mates, i, EarlierOfSite(lib, rows, i)) && InRows(mates, |rows|)
    ensures Score(lib, RowsAt(rows, mates), target, predictor) == Some((score, predictor)) <==> HasScore(lib, rows, i, target, predictor, score)
    ensures Score(lib, RowsAt(rows, mates), target, predictor).Some? ==> Score(lib, RowsAt(rows, mates), target, predictor).value.1 == predictor
  {
    var p := Samples(lib, rows, i, target, [predictor]);
    var ps := PicksExist(i, p);
    PicksBelow(ps, i, p);
    PairsArePicked(lib, rows, i, mates, target, predictor, ps);
    SamplesKnown(lib, rows, i, target, [predictor], ps);
    AllKnownCount(lib, rows, predictor, ps) by {
      forall k | 0 <= k < |ps| ensures ValueAt(lib, rows[ps[k]], predictor).Some? {
        assert [predictor][0] == predictor;
      }
    }
    forall qs | Picks(qs, i, p) ensures qs == ps {
      PicksAreUnique(qs, ps, i, p);
    }
  }

  /*** Selection ***/

  /** A column the current row has a value for, that is neither the target nor a flag. */
  ghost predicate MayPredict(lib: Library, row: Row, target: string, column: string) {
    && column != target && ValueAt(lib, row, column).Some?
    && (forall p :: column != p + "__imputed") && (forall p :: column != p + "__outlier_clamped")
  }

  lemma EndsWithIff(s: string, suffix: string)
    ensures EndsWith(s, suffix) <==> exists p :: s == p + suffix
  {
    if EndsWith(s, suffix) {
      assert s == s[..|s| - |suffix|] + suffix;
    }
  }

  lemma UsableIffMayPredict(lib: Library, row: Row, target: string, column: string)
    ensures Usable(lib, row, target, column) <==> MayPredict(lib, row, target, column)
  {
    EndsWithIff(column, "__imputed");
    EndsWithIff(column, "__outlier_clamped");
  }

  /** A candidate and its score. */
  ghost predicate Scored(lib: Library, rows: seq<Row>, i: nat, target: string, columns: seq<string>, entry: (real, string)) {
    && i < |rows| && entry.1 in columns && MayPredict(lib, rows[i], target, entry.1)
    && HasScore(lib, rows, i, target, entry.1, entry.0)
  }

  lemma {:induction false} ScoresMembers(lib: Library, past: seq<Row>, target: string, predictors: seq<string>)
    ensures forall e :: e in Scores(lib, past, target, predictors) <==> e.1 in predictors && Score(lib, past, target, e.1) == Some(e)
    ensures NoDup(predictors) ==> NoDup(Scores(lib, past, target, predictors))
  {
    if predictors != [] {
      var n := |predictors| - 1;
      ScoresMembers(lib, past, target, predictors[..n]);
      assert predictors == predictors[..n] + [predictors[n]];
    }
  }

  lemma BestFirstIsPreorder()
    ensures TotalPreorder(BestFirst)
  {
    forall x, y ensures BestFirst(x, y) || BestFirst(y, x) {
      TextLeTotal(x.1, y.1);
    }
    forall x, y, z | BestFirst(x, y) && BestFirst(y, z) ensures BestFirst(x, z) {
      if TextLe(y.1, x.1) && TextLe(z.1, y.1) {
        TextLeTransitive(z.1, y.1, x.1);
      }
    }
  }

  /** A higher score comes first; of equal scores the greater name. */
  ghost predicate Outranks(a: (real, string), b: (real, string)) {
    a.0 > b.0 || (a.0 == b.0 && TextLe(b.1, a.1))
  }

  /** The six best candidates, or all of them when there are fewer, best first. */
  ghost predicate BestSix(lib: Library, rows: seq<Row>, i: nat, target: string, columns: seq<string>, best: seq<(real, string)>) {
    && |best| <= 6 && NoDup(best)
    && (forall k :: 0 <= k < |best| ==> Scored(lib, rows, i, target, columns, best[k]))
    && (forall k, l :: 0 <= k < l < |best| ==> Outranks(best[k], best[l]))
    && (forall e :: Scored(lib, rows, i, target, columns, e) && e !in best ==> |best| == 6 && forall k :: 0 <= k < 6 ==> Outranks(best[k], e))
  }

  function UsableBy(lib: Library, row: Row, target: string): string -> bool {
    (c: string) => Usable(lib, row, target, c)
  }

  lemma CandidatesAreScored(lib: Library, rows: seq<Row>, i: nat, mates: seq<nat>, target: string, columns: seq<string>, e: (real, string))
    requires i < |rows| && Picks(mates, i, EarlierOfSite(lib, rows, i)) && InRows(mates, |rows|)
    ensures e in Scores(lib, RowsAt(rows, mates), target, Filter(columns, UsableBy(lib, rows[i], target)))
       <==> Scored(lib, rows, i, target, columns, e)
  {
    ScoresMembers(lib, RowsAt(rows, mates), target, Filter(columns, UsableBy(lib, rows[i], target)));
    FilterMembers(columns, UsableBy(lib, rows[i], target));
    UsableIffMayPredict(lib, rows[i], target, e.1);
    ScoreIffHasScore(lib, rows, i, mates, target, e.1, e.0);
  }

  lemma SortedRanks(all: seq<(real, string)>)
    requires NoDup(all)
    ensures NoDup(Sort(all, BestFirst))
    ensures forall k, l :: 0 <= k < l < |Sort(all, BestFirst)| ==> Outranks(Sort(all, BestFirst)[k], Sort(all, BestFirst)[l])
    ensures forall e :: e in Sort(all, BestFirst) <==> e in all
  {
    BestFirstIsPreorder();
    SortSorted(all, BestFirst);
    SortNoDup(all, BestFirst);
    forall e ensures e in Sort(all, BestFirst) <==> e in all {
      SortMember(all, BestFirst, e);
    }
  }

  lemma FrontOfRanked(ranked: seq<(real, string)>, front: seq<(real, string)>, n: nat)
    requires front == SliceTo(ranked, n) && forall k, l :: 0 <= k < l < |ranked| ==> Outranks(ranked[k], ranked[l])
    ensures forall k, l :: 0 <= k < l < |front| ==> Outranks(front[k], front[l])
    ensures forall e :: e in ranked && e !in front ==> |front| == n && forall k :: 0 <= k < n ==> Outranks(front[k], e)
  {
    assert front == ranked[..|front|];
    forall e | e in ranked && e !in front ensures |front| == n && forall k :: 0 <= k < n ==> Outranks(front[k], e) {
      var m :| 0 <= m < |ranked| && ranked[m] == e;
      assert m >= |front|;
    }
  }

  lemma RankedAreBest(lib: Library, rows: seq<Row>, i: nat, mates: seq<nat>, target: string, columns: seq<string>)
    requires i < |rows| && Picks(mates, i, EarlierOfSite(lib, rows, i)) && InRows(mates, |rows|) && NoDup(columns)
    ensures
      var all := Scores(lib, RowsAt(rows, mates), target, Filter(columns, UsableBy(lib, rows[i], target)));
      BestSix(lib, rows, i, target, columns, SliceTo(Sort(all, BestFirst), 6))
  {
    var usable := Filter(columns, UsableBy(lib, rows[i], target));
    var all := Scores(lib, RowsAt(rows, mates), target, usable);
    FilterNoDup(columns, UsableBy(lib, rows[i], target));
    ScoresMembers(lib, RowsAt(rows, mates), target, usable);
    SortedRanks(all);
    FrontOfRanked(Sort(all, BestFirst), SliceTo(Sort(all, BestFirst), 6), 6);
    forall e ensures e in all <==> Scored(lib, rows, i, target, columns, e) {
      CandidatesAreScored(lib, rows, i, mates, target, columns, e);
    }
  }

  /*** Training ***/

  function ValuesIn(lib: Library, row: Row, columns: seq<string>): seq<real>
    requires KnownIn(lib, row, columns)
  {
    seq(|columns|, m requires 0 <= m < |columns| => ValueAt(lib, row, columns[m]).value)
  }

  lemma {:induction false} FeaturesAre(lib: Library, row: Row, columns: seq<string>)
    ensures Features(lib, row, columns).Some? <==> KnownIn(lib, row, columns)
    ensures KnownIn(lib, row, columns) ==> Features(lib, row, columns) == Some(ValuesIn(lib, row, columns))
  {
    if columns != [] {
      var n := |columns| - 1;
      FeaturesAre(lib, row, columns[..n]);
      assert KnownIn(lib, row, columns) <==> KnownIn(lib, row, columns[..n]) && ValueAt(lib, row, columns[n]).Some? by {
        assert columns == columns[..n] + [columns[n]];
      }
      if KnownIn(lib, row, columns) {
        assert ValuesIn(lib, row, columns) == ValuesIn(lib, row, columns[..n]) + [ValueAt(lib, row, columns[n]).value];
      }
    }
  }

  function TrainsOn(lib: Library, rows: seq<Row>, target: string, columns: seq<string>): nat -> bool {
    (j: nat) => j < |rows| && ValueAt(lib, rows[j], target).Some? && KnownIn(lib, rows[j], columns)
  }

  lemma TrainingOfOneMore(lib: Library, past: seq<Row>, row: Row, target: string, columns: seq<string>)
    ensures Training(lib, past + [row], target, columns)
         == (var (xs, ys) := Training(lib, past, target, columns);
             if ValueAt(lib, row, target).Some? && KnownIn(lib, row, columns)
             then (xs + [ValuesIn(lib, row, columns)], ys + [ValueAt(lib, row, target).value]) else (xs, ys))
  {
    assert (past + [row])[..|past|] == past;
    FeaturesAre(lib, row, columns);
  }

  /** The samples of the rows of a list. */
  ghost predicate SamplesOf(lib: Library, rows: seq<Row>, qs: seq<nat>, target: string, columns: seq<string>, xs: seq<seq<real>>, ys: seq<real>) {
    && InRows(qs, |rows|) && |xs| == |qs| == |ys|
    && forall k :: 0 <= k < |qs| ==>
         KnownIn(lib, rows[qs[k]], columns) && xs[k] == ValuesIn(lib, rows[qs[k]], columns) && ValueAt(lib, rows[qs[k]], target) == Some(ys[k])
  }

  lemma {:induction false} TrainingAt(lib: Library, rows: seq<Row>, ps: seq<nat>, target: string, columns: seq<string>)
    requires InRows(ps, |rows|)
    ensures var (xs, ys) := Training(lib, RowsAt(rows, ps), target, columns);
            SamplesOf(lib, rows, Kept(ps, TrainsOn(lib, rows, target, columns)), target, columns, xs, ys)
    decreases |ps|
  {
    var q := TrainsOn(lib, rows, target, columns);
    KeptStaysInRows(ps, q, |rows|);
    if ps != [] {
      var n, j := |ps| - 1, ps[|ps| - 1];
      TrainingAt(lib, rows, ps[..n], target, columns);
      assert ps == ps[..n] + [j];
      RowsAtOneMore(rows, ps[..n], j);
      TrainingOfOneMore(lib, RowsAt(rows, ps[..n]), rows[j], target, columns);
      KeptOfOneMore(ps[..n], j, q);
    }
  }

  lemma TrainingIsPicked(lib: Library, rows: seq<Row>, i: nat, mates: seq<nat>, target: string, columns: seq<string>, ps: seq<nat>)
    requires i < |rows| && Picks(mates, i, EarlierOfSite(lib, rows, i)) && InRows(mates, |rows|)
    requires Picks(ps, i, Samples(lib, rows, i, target, columns))
    ensures var (xs, ys) := Training(lib, RowsAt(rows, mates), target, columns); SamplesOf(lib, rows, ps, target, columns, xs, ys)
  {
    TrainingAt(lib, rows, mates, target, columns);
    KeptIsPicked(mates, TrainsOn(lib, rows, target, columns), ps, i, Samples(lib, rows, i, target, columns));
  }

  /*** The prediction ***/

  function NamesOf(best: seq<(real, string)>): seq<string> {
    seq(|best|, k requires 0 <= k < |best| => best[k].1)
  }

  /** The prediction: from at least two predictors and 40 samples in which all of them and the target are known. */
  ghost predicate RidgeFrom(lib: Library, rows: seq<Row>, i: nat, target: string, columns: seq<string>, best: seq<(real, string)>,
                            ps: seq<nat>, xs: seq<seq<real>>, ys: seq<real>, r: Option<(real, real)>)
  {
    && i < |rows| && BestSix(lib, rows, i, target, columns, best) && KnownIn(lib, rows[i], NamesOf(best))
    && Picks(ps, i, Samples(lib, rows, i, target, NamesOf(best))) && SamplesOf(lib, rows, ps, target, NamesOf(best), xs, ys)
    && r == if |best| >= 2 && |ps| >= 40 then lib.ridge(xs, ys, ValuesIn(lib, rows[i], NamesOf(best))) else None
  }

  ghost predicate RidgeIs(lib: Library, rows: seq<Row>, i: nat, target: string, columns: seq<string>, r: Option<(real, real)>) {
    exists best, ps, xs, ys :: RidgeFrom(lib, rows, i, target, columns, best, ps, xs, ys, r)
  }

  lemma BestAreKnown(lib: Library, rows: seq<Row>, i: nat, target: string, columns: seq<string>, best: seq<(real, string)>)
    requires i < |rows| && BestSix(lib, rows, i, target, columns, best)
    ensures KnownIn(lib, rows[i], NamesOf(best))
  {
    forall m | 0 <= m < |best| ensures ValueAt(lib, rows[i], NamesOf(best)[m]).Some? {
      assert Scored(lib, rows, i, target, columns, best[m]);
    }
  }

  function BestOf(lib: Library, row: Row, past: seq<Row>, target: string, columns: seq<string>): seq<(real, string)> {
    SliceTo(Sort(Scores(lib, past, target, Filter(columns, UsableBy(lib, row, target))), BestFirst), 6)
  }

  lemma {:induction false} FewScores(lib: Library, past: seq<Row>, target: string, predictors: seq<string>)
    ensures |Scores(lib, past, target, predictors)| <= |predictors|
  {
    if predictors != [] {
      FewScores(lib, past, target, predictors[..|predictors| - 1]);
    }
  }

  lemma SameUsable(lib: Library, row: Row, target: string, columns: seq<string>)
    ensures Filter(columns, c => Usable(lib, row, target, c)) == Filter(columns, UsableBy(lib, row, target))
  {
    FilterCongruent(columns, c => Usable(lib, row, target, c), UsableBy(lib, row, target));
  }

  lemma RidgeOfBest(lib: Library, row: Row, past: seq<Row>, target: string, columns: seq<string>)
    ensures
      var best := BestOf(lib, row, past, target, columns);
      var (xs, ys) := Training(lib, past, target, NamesOf(best));
      CausalRidge(lib, row, past, target, columns)
      == if |best| >= 2 && |ys| >= 40 && Features(lib, row, NamesOf(best)).Some?
         then lib.ridge(xs, ys, Features(lib, row, NamesOf(best)).value) else None
  {
    SameUsable(lib, row, target, columns);
    FewScores(lib, past, target, Filter(columns, UsableBy(lib, row, target)));
    var best := BestOf(lib, row, past, target, columns);
    assert Map(best, (s: (real, string)) => s.1) == NamesOf(best);
  }

  lemma RidgeIsComputed(lib: Library, rows: seq<Row>, i: nat, mates: seq<nat>, target: string, columns: seq<string>)
    requires i < |rows| && Picks(mates, i, EarlierOfSite(lib, rows, i)) && InRows(mates, |rows|) && NoDup(columns)
    ensures RidgeIs(lib, rows, i, target, columns, CausalRidge(lib, rows[i], RowsAt(rows, mates), target, columns))
  {
    var past := RowsAt(rows, mates);
    var best := BestOf(lib, rows[i], past, target, columns);
    var names := NamesOf(best);
    RankedAreBest(lib, rows, i, mates, target, columns);
    BestAreKnown(lib, rows, i, target, columns, best);
    FeaturesAre(lib, rows[i], names);
    var p := Samples(lib, rows, i, target, names);
    var ps := PicksExist(i, p);
    TrainingIsPicked(lib, rows, i, mates, target, names, ps);
    RidgeOfBest(lib, rows[i], past, target, columns);
    var (xs, ys) := Training(lib, past, target, names);
    assert RidgeFrom(lib, rows, i, target, columns, best, ps, xs, ys, CausalRidge(lib, rows[i], past, target, columns));
  }
}
