/** The parameters of a matched route: which segment each name gets, decoded, and which name is reported when one does not decode. */
module ParameterLaws {
  import opened Wrappers
  import opened Sequences
  import opened Router
  import opened RouterLaws

  lemma OneMoreName(chunks: seq<string>, last: string)
    ensures ParamNames(chunks + [last]) == if IsParam(last) then ParamNames(chunks) + [last[1..]] else ParamNames(chunks)
  {
    assert (chunks + [last])[..|chunks|] == chunks;
  }

  lemma {:induction false} NamesFromTheFront(chunk: string, rest: seq<string>)
    ensures ParamNames([chunk] + rest) == if IsParam(chunk) then [chunk[1..]] + ParamNames(rest) else ParamNames(rest)
    decreases |rest|
  {
    if rest == [] {
      assert [chunk] + rest == [] + [chunk];
      OneMoreName([], chunk);
    } else {
      var n := |rest| - 1;
      NamesFromTheFront(chunk, rest[..n]);
      assert [chunk] + rest == ([chunk] + rest[..n]) + [rest[n]] && rest == rest[..n] + [rest[n]];
      OneMoreName([chunk] + rest[..n], rest[n]);
      OneMoreName(rest[..n], rest[n]);
    }
  }

  /** A parameter, with its name and the segment it captures. */
  ghost predicate PlaceFits(chunks: seq<string>, segments: seq<string>, place: nat, name: string, group: string) {
    place < |chunks| && place < |segments| && IsParam(chunks[place]) && name == chunks[place][1..] && group == segments[place]
  }

  /** The places of the parameters among the chunks, in order. */
  ghost predicate Places(chunks: seq<string>, segments: seq<string>, places: seq<nat>, names: seq<string>, groups: seq<string>) {
    && |chunks| == |segments| && |places| == |names| == |groups|
    && (forall j, k :: 0 <= j < k < |places| ==> places[j] < places[k])
    && (forall k :: 0 <= k < |places| ==> PlaceFits(chunks, segments, places[k], names[k], groups[k]))
    && (forall q :: 0 <= q < |chunks| && IsParam(chunks[q]) ==> q in places)
  }

  lemma FitsLater(chunks: seq<string>, segments: seq<string>, place: nat, name: string, group: string)
    requires chunks != [] && segments != [] && PlaceFits(chunks[1..], segments[1..], place, name, group)
    ensures PlaceFits(chunks, segments, place + 1, name, group)
  {
  }

  function Shifted(places: seq<nat>): (r: seq<nat>)
    ensures |r| == |places| && forall k :: 0 <= k < |places| ==> r[k] == places[k] + 1
  {
    seq(|places|, k requires 0 <= k < |places| => places[k] + 1)
  }

  lemma ShiftedHolds(chunks: seq<string>, places: seq<nat>, q: nat)
    requires 1 <= q < |chunks| && q - 1 in places
    ensures q in Shifted(places)
  {
    var k :| 0 <= k < |places| && places[k] == q - 1;
    assert Shifted(places)[k] == q;
  }

  lemma AfterALiteral(chunks: seq<string>, segments: seq<string>, places: seq<nat>, names: seq<string>, groups: seq<string>)
    requires chunks != [] && segments != [] && Places(chunks[1..], segments[1..], places, names, groups) && !IsParam(chunks[0])
    ensures Places(chunks, segments, Shifted(places), names, groups)
  {
    forall k | 0 <= k < |places| ensures PlaceFits(chunks, segments, Shifted(places)[k], names[k], groups[k]) {
      FitsLater(chunks, segments, places[k], names[k], groups[k]);
    }
    forall q | 0 <= q < |chunks| && IsParam(chunks[q]) ensures q in Shifted(places) {
      assert IsParam(chunks[1..][q - 1]);
      ShiftedHolds(chunks, places, q);
    }
  }

  lemma EachFits(chunks: seq<string>, segments: seq<string>, places: seq<nat>, names: seq<string>, groups: seq<string>, k: nat)
    requires chunks != [] && segments != [] && Places(chunks[1..], segments[1..], places, names, groups) && IsParam(chunks[0]) && k <= |places|
    ensures PlaceFits(chunks, segments, ([0] + Shifted(places))[k], ([chunks[0][1..]] + names)[k], ([segments[0]] + groups)[k])
  {
    if k > 0 {
      FitsLater(chunks, segments, places[k - 1], names[k - 1], groups[k - 1]);
    }
  }

  lemma AfterAParameter(chunks: seq<string>, segments: seq<string>, places: seq<nat>, names: seq<string>, groups: seq<string>,
                        all: seq<nat>, allNames: seq<string>, allGroups: seq<string>)
    requires chunks != [] && segments != [] && Places(chunks[1..], segments[1..], places, names, groups) && IsParam(chunks[0])
    requires all == [0] + Shifted(places) && allNames == [chunks[0][1..]] + names && allGroups == [segments[0]] + groups
    ensures Places(chunks, segments, all, allNames, allGroups)
  {
    forall k | 0 <= k < |all| ensures PlaceFits(chunks, segments, all[k], allNames[k], allGroups[k]) {
      EachFits(chunks, segments, places, names, groups, k);
    }
    forall j, k | 0 <= j < k < |all| ensures all[j] < all[k] {
      if j > 0 {
        assert places[j - 1] < places[k - 1];
      }
    }
    forall q | 0 <= q < |chunks| && IsParam(chunks[q]) ensures q in all {
      ParameterIsListed(chunks, places, q);
    }
  }

  lemma ParameterIsListed(chunks: seq<string>, places: seq<nat>, q: nat)
    requires q < |chunks| && IsParam(chunks[q]) && forall r :: 0 <= r < |chunks[1..]| && IsParam(chunks[1..][r]) ==> r in places
    ensures q in [0] + Shifted(places)
  {
    if q == 0 {
      assert ([0] + Shifted(places))[0] == 0;
    } else {
      assert IsParam(chunks[1..][q - 1]);
      ShiftedHolds(chunks, places, q);
    }
  }

  lemma {:induction false} CapturedAtPlaces(chunks: seq<string>, segments: seq<string>) returns (places: seq<nat>)
    requires SegmentMatch(chunks, segments).Some?
    ensures Places(chunks, segments, places, ParamNames(chunks), SegmentMatch(chunks, segments).value)
  {
    if chunks == [] {
      places := [];
    } else {
      var rest := CapturedAtPlaces(chunks[1..], segments[1..]);
      assert chunks == [chunks[0]] + chunks[1..];
      NamesFromTheFront(chunks[0], chunks[1..]);
      if IsParam(chunks[0]) {
        places := [0] + Shifted(rest);
        AfterAParameter(chunks, segments, rest, ParamNames(chunks[1..]), SegmentMatch(chunks[1..], segments[1..]).value, places,
                        ParamNames(chunks), SegmentMatch(chunks, segments).value);
      } else {
        AfterALiteral(chunks, segments, rest, ParamNames(chunks[1..]), SegmentMatch(chunks[1..], segments[1..]).value);
        places := Shifted(rest);
      }
    }
  }

  /** All of the first `n` values decode, and the names stand for them. */
  ghost predicate AllDecoded(decode: string -> Option<string>, names: seq<string>, values: seq<string>, n: nat, params: map<string, string>)
    requires n <= |names| && n <= |values|
  {
    && (forall k :: 0 <= k < n ==> names[k] in params && decode(values[k]) == Some(params[names[k]]))
    && (forall name :: name in params ==> exists k :: 0 <= k < n && names[k] == name)
  }

  /** The first value that does not decode. */
  ghost predicate FirstFailure(decode: string -> Option<string>, values: seq<string>, n: nat, k: nat)
    requires n <= |values|
  {
    k < n && decode(values[k]) == None && forall j :: 0 <= j < k ==> decode(values[j]).Some?
  }

  /** Either all values decode and the names stand for them, or the name of the first that does not is answered. */
  ghost predicate DecodedRight(decode: string -> Option<string>, names: seq<string>, values: seq<string>, n: nat, r: Params)
    requires n <= |names| && n <= |values|
  {
    match r
    case Params(params) => AllDecoded(decode, names, values, n, params)
    case Invalid(name) => exists k: nat :: FirstFailure(decode, values, n, k) && name == names[k]
  }

  lemma OneMoreDecoded(decode: string -> Option<string>, names: seq<string>, values: seq<string>, n: nat, before: Params, after: Params)
    requires 0 < n <= |names| && n <= |values| && NoDup(names) && DecodedRight(decode, names, values, n - 1, before)
    requires before.Invalid? ==> after == before
    requires before.Params? && decode(values[n - 1]).None? ==> after == Invalid(names[n - 1])
    requires before.Params? && decode(values[n - 1]).Some? ==> after == Params(before.values[names[n - 1] := decode(values[n - 1]).value])
    ensures DecodedRight(decode, names, values, n, after)
  {
    if before.Invalid? {
      var k: nat :| FirstFailure(decode, values, n - 1, k) && before.name == names[k];
      assert FirstFailure(decode, values, n, k);
    } else if decode(values[n - 1]).None? {
      assert FirstFailure(decode, values, n, n - 1);
    } else {
      assert forall k :: 0 <= k < n - 1 ==> names[k] != names[n - 1];
    }
  }

  lemma {:induction false} DecodedInTurn(decode: string -> Option<string>, names: seq<string>, values: seq<string>, n: nat)
    requires n <= |names| && n <= |values| && NoDup(names)
    ensures DecodedRight(decode, names, values, n, Decoded(decode, names, values, n))
  {
    if n > 0 {
      DecodedInTurn(decode, names, values, n - 1);
      OneMoreDecoded(decode, names, values, n, Decoded(decode, names, values, n - 1), Decoded(decode, names, values, n));
    }
  }

  /** Each parameter's name stands for its segment, decoded. */
  ghost predicate AllBound(decode: string -> Option<string>, chunks: seq<string>, segments: seq<string>, params: map<string, string>) {
    |segments| == |chunks|
    && forall q :: 0 <= q < |chunks| && IsParam(chunks[q]) ==>
         decode(segments[q]).Some? && Lookup(params, chunks[q][1..]) == decode(segments[q])
  }

  /** The name is that of the first parameter whose segment does not decode. */
  ghost predicate FirstUnreadable(decode: string -> Option<string>, chunks: seq<string>, segments: seq<string>, name: string) {
    |segments| == |chunks|
    && exists q :: 0 <= q < |chunks| && IsParam(chunks[q]) && name == chunks[q][1..] && decode(segments[q]) == None
                   && forall j :: 0 <= j < q && IsParam(chunks[j]) ==> decode(segments[j]).Some?
  }

  /** The same, in terms of the chunks. */
  lemma ReadAtPlaces(decode: string -> Option<string>, chunks: seq<string>, segments: seq<string>, places: seq<nat>, names: seq<string>,
                     values: seq<string>, r: Params)
    requires Places(chunks, segments, places, names, values) && DecodedRight(decode, names, values, |names|, r)
    ensures match r
            case Params(params) => AllBound(decode, chunks, segments, params)
            case Invalid(name) => FirstUnreadable(decode, chunks, segments, name)
  {
    if r.Params? {
      forall q | 0 <= q < |chunks| && IsParam(chunks[q]) ensures Lookup(r.values, chunks[q][1..]) == decode(segments[q]) && decode(segments[q]).Some? {
        var k :| 0 <= k < |places| && places[k] == q;
        assert PlaceFits(chunks, segments, places[k], names[k], values[k]);
      }
    } else {
      var k: nat :| FirstFailure(decode, values, |names|, k) && r.name == names[k];
      assert PlaceFits(chunks, segments, places[k], names[k], values[k]);
      forall j | 0 <= j < places[k] && IsParam(chunks[j]) ensures decode(segments[j]).Some? {
        var m :| 0 <= m < |places| && places[m] == j;
        assert m < k && PlaceFits(chunks, segments, places[m], names[m], values[m]);
      }
    }
  }

  /**
   What a matched route answers, for a template with distinct parameter names: each name with its own segment,
   decoded; or, if some segment does not decode, the name of the first one.
   */
  lemma ParametersAreDecoded(decode: string -> Option<string>, r: Route, path: string)
    requires AreChunks(r.chunks) && r.chunks != [] && NoDup(ParamNames(r.chunks)) && Exec(Compiled(r.chunks), path).Some?
    ensures Segments(path).Some?
    ensures match Outcome(decode, r, path)
            case Matched(route, params) => route == r && AllBound(decode, r.chunks, Segments(path).value, params)
            case InvalidEncoding(name) => FirstUnreadable(decode, r.chunks, Segments(path).value, name)
            case NoMatch => false
  {
    MatchIsSegmentWise(r.chunks, path);
    var segments := Segments(path).value;
    var places := CapturedAtPlaces(r.chunks, segments);
    var names, values := ParamNames(r.chunks), Exec(Compiled(r.chunks), path).value;
    DecodedInTurn(decode, names, values, |names|);
    ReadAtPlaces(decode, r.chunks, segments, places, names, values, Decoded(decode, names, values, |names|));
  }
}
