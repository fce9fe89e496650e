/** The key text of a raw event: which other events can have the same one. */
module EventKeys {
  import opened ConnectorTypes
  import opened ReplayKeys

  const MARK := "|raw_event|"

  predicate StartsWithMark(e: string) {
    |e| >= 10 && e[..10] == "raw_event|"
  }

  predicate MarkAt(s: string, i: nat) {
    i + 11 <= |s| && s[i..i + 11] == MARK
  }

  /** The event id starts with "raw_event|" or contains "|raw_event|". */
  ghost predicate HoldsMark(e: string) {
    StartsWithMark(e) || exists i: nat :: MarkAt(e, i)
  }

  function EventText(o: string, c: string, e: string): string {
    KeyMaterial(o, c, "raw_event", e)
  }

  ghost predicate SharesText(o: string, c: string, e: string) {
    exists o', c', e' :: EventText(o', c', e') == EventText(o, c, e) && (o', c', e') != (o, c, e)
  }

  lemma TextInParts(o: string, c: string, e: string)
    ensures EventText(o, c, e) == (o + "|" + c) + MARK + e
  {
    var p := o + "|" + c;
    assert MARK == "|" + "raw_event" + "|";
    assert p + ("|" + "raw_event" + "|") + e == p + "|" + "raw_event" + "|" + e;
  }

  lemma MarkLetters()
    ensures |MARK| == 11 && MARK[0] == '|' && MARK[10] == '|' && forall i :: 1 <= i < 10 ==> MARK[i] != '|'
    ensures MARK[1..] == "raw_event|"
  {
  }

  /** A mark that starts inside another one starts at its last letter. */
  lemma MarksOverlapAtTheEnd(t: string, q: nat, p: nat)
    requires MarkAt(t, q) && MarkAt(t, p) && q < p
    ensures p >= q + 10
  {
    MarkLetters();
    assert t[p] == t[p..p + 11][0] == '|';
    assert forall i :: 0 <= i < 11 ==> t[q + i] == t[q..q + 11][i] == MARK[i];
    assert t[p] == t[q + (p - q)];
  }

  /** A mark that lies further right lies at the start of the event id, or inside it. */
  lemma LaterMark(p: string, e: string, q: nat)
    requires MarkAt(p + MARK + e, q) && q > |p|
    ensures HoldsMark(e)
  {
    var t := p + MARK + e;
    MarkLetters();
    assert t[|p|..|p| + 11] == MARK;
    MarksOverlapAtTheEnd(t, |p|, q);
    assert t[|p| + 11..] == e;
    if q == |p| + 10 {
      assert t[q..q + 11][1..] == t[|p| + 11..][..10] == e[..10];
    } else {
      var i := q - (|p| + 11);
      assert e[i..i + 11] == t[q..q + 11];
      assert MarkAt(e, i);
    }
  }

  lemma OnePipe(o: string, c: string)
    requires PipeFree(o) && PipeFree(c)
    ensures forall i :: 0 <= i < |o| + 1 + |c| ==> ((o + "|" + c)[i] == '|' <==> i == |o|)
  {
  }

  /** In an organization and a connection id without "|" there is no room for a mark further left. */
  lemma NoEarlierMark(o: string, c: string, e: string, o': string, c': string, e': string)
    requires PipeFree(o) && PipeFree(c) && EventText(o', c', e') == EventText(o, c, e)
    ensures |o'| + |c'| >= |o| + |c|
  {
    var p, p', q := o + "|" + c, o' + "|" + c', |o'| + 1 + |c'|;
    TextInParts(o, c, e);
    TextInParts(o', c', e');
    MarkLetters();
    OnePipe(o, c);
    var t := EventText(o, c, e);
    assert t[|o'|] == p'[|o'|] == '|' && t[q] == MARK[0] == '|';
    assert forall i :: 0 <= i < |p| ==> t[i] == p[i];
  }

  lemma SamePlaceSameEvent(o: string, c: string, e: string, o': string, c': string, e': string)
    requires PipeFree(o) && PipeFree(c) && EventText(o', c', e') == EventText(o, c, e) && |o'| + |c'| == |o| + |c|
    ensures o == o' && c == c' && e == e'
  {
    TextInParts(o, c, e);
    TextInParts(o', c', e');
    var t, n := EventText(o, c, e), |o| + 1 + |c|;
    var p, p' := o + "|" + c, o' + "|" + c';
    assert t[..n] == p == p' && t[n + 11..] == e == e';
    OnePipe(o, c);
    assert p'[|o'|] == '|';
    assert o == p[..|o|] == o' && c == p[|o| + 1..] == c';
  }

  lemma LeadingMarkGivesAnother(o: string, c: string, y: string)
    ensures EventText(o + "|" + c, "raw_event", y) == EventText(o, c, "raw_event|" + y)
  {
    assert "raw_event|" == "raw_event" + "|";
    assert o + "|" + c + "|" + "raw_event" + "|" + (("raw_event" + "|") + y)
        == (o + "|" + c) + "|" + "raw_event" + "|" + "raw_event" + "|" + y;
  }

  lemma InnerMarkGivesAnother(o: string, c: string, x: string, y: string)
    ensures EventText(o, c + MARK + x, y) == EventText(o, c, x + MARK + y)
  {
    TextInParts(o, c + MARK + x, y);
    TextInParts(o, c, x + MARK + y);
    assert o + "|" + (c + MARK + x) == (o + "|" + c) + MARK + x;
    assert ((o + "|" + c) + MARK + x) + MARK + y == (o + "|" + c) + MARK + (x + MARK + y);
  }

  lemma OtherOrganization(o: string, c: string, e: string, o': string, c': string, e': string)
    requires EventText(o', c', e') == EventText(o, c, e) && (|o'| != |o| || |c'| != |c|)
    ensures SharesText(o, c, e)
  {
  }

  lemma MarkGivesAnother(o: string, c: string, e: string)
    requires HoldsMark(e)
    ensures SharesText(o, c, e)
  {
    if StartsWithMark(e) {
      assert e == "raw_event|" + e[10..];
      LeadingMarkGivesAnother(o, c, e[10..]);
      OtherOrganization(o, c, e, o + "|" + c, "raw_event", e[10..]);
    } else {
      var i: nat :| MarkAt(e, i);
      assert e == e[..i] + MARK + e[i + 11..];
      InnerMarkGivesAnother(o, c, e[..i], e[i + 11..]);
      OtherOrganization(o, c, e, o, c + MARK + e[..i], e[i + 11..]);
    }
  }

  /** With no "|" in organization and connection, another event has the same text exactly when the event id holds the mark. */
  lemma SharesTextIffMarked(o: string, c: string, e: string)
    requires PipeFree(o) && PipeFree(c)
    ensures SharesText(o, c, e) <==> HoldsMark(e)
  {
    if HoldsMark(e) {
      MarkGivesAnother(o, c, e);
    }
    if SharesText(o, c, e) {
      var o', c', e' :| EventText(o', c', e') == EventText(o, c, e) && (o', c', e') != (o, c, e);
      NoEarlierMark(o, c, e, o', c', e');
      if |o'| + |c'| == |o| + |c| {
        SamePlaceSameEvent(o, c, e, o', c', e');
      } else {
        TextInParts(o, c, e);
        TextInParts(o', c', e');
        var q := |o'| + 1 + |c'|;
        assert EventText(o, c, e)[q..q + 11] == MARK;
        LaterMark(o + "|" + c, e, q);
      }
    }
  }

  /** Two events whose connection ids have no "|" still collide when an organization id does. */
  lemma TwoEventsOneText(o: string, c: string, c': string, e: string)
    ensures EventText(o, c, c' + "|raw_event|" + e) == EventText(o + "|" + c + "|raw_event", c', e)
  {
    TextInParts(o, c, c' + MARK + e);
    TextInParts(o + "|" + c + "|raw_event", c', e);
    assert (o + "|" + c) + MARK + (c' + MARK + e) == (o + "|" + c + "|raw_event" + "|" + c') + MARK + e;
  }
}
