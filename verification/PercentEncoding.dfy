/** Percent-encoding of ASCII text, section 2.1 of RFC 3986, as `encodeURIComponent` and `decodeURIComponent` do it. */
module PercentEncoding {
  import opened Wrappers
  import opened Delimiters

  predicate IsPlainChar(c: char) {
    'A' <= c <= 'Z' || 'a' <= c <= 'z' || '0' <= c <= '9' || c == '_' || c == '-'
  }

  /** What `encodeURIComponent` leaves alone. */
  predicate IsUnreserved(c: char) {
    IsPlainChar(c) || c == '.' || c == '!' || c == '~' || c == '*' || c == '\'' || c == '(' || c == ')'
  }

  function HexDigit(n: int): char
    requires 0 <= n < 16
  {
    if n < 10 then (48 + n) as char else (55 + n) as char
  }

  function HexValue(c: char): Option<int> {
    if '0' <= c <= '9' then Some(c as int - 48)
    else if 'A' <= c <= 'F' then Some(c as int - 55)
    else if 'a' <= c <= 'f' then Some(c as int - 87)
    else None
  }

  function Encode(s: string): string
    requires Ascii(s)
  {
    if s == "" then ""
    else if IsUnreserved(s[0]) then [s[0]] + Encode(s[1..])
    else ['%', HexDigit(s[0] as int / 16), HexDigit(s[0] as int % 16)] + Encode(s[1..])
  }

  function Prefixed(c: char, rest: Option<string>): Option<string> {
    match rest
    case None => None
    case Some(text) => Some([c] + text)
  }

  /** Fails on an escape that is cut short or not hexadecimal. Escapes of single ASCII characters only. */
  function Decode(s: string): Option<string> {
    if s == "" then Some("")
    else if s[0] != '%' then Prefixed(s[0], Decode(s[1..]))
    else if |s| < 3 then None
    else
      match (HexValue(s[1]), HexValue(s[2]))
      case (Some(h), Some(l)) => if 16 * h + l < 128 then Prefixed((16 * h + l) as char, Decode(s[3..])) else None
      case _ => None
  }

  lemma EscapeIsRead(c: char)
    requires c < 128 as char
    ensures HexValue(HexDigit(c as int / 16)) == Some(c as int / 16) && HexValue(HexDigit(c as int % 16)) == Some(c as int % 16)
  {
  }

  /** Decoding undoes encoding. */
  lemma {:induction false} DecodeEncode(s: string)
    requires Ascii(s)
    ensures Decode(Encode(s)) == Some(s)
  {
    if s != "" {
      DecodeEncode(s[1..]);
      assert s == [s[0]] + s[1..];
      var rest := Encode(s[1..]);
      if IsUnreserved(s[0]) {
        assert Encode(s)[1..] == rest;
      } else {
        EscapeIsRead(s[0]);
        assert Encode(s)[3..] == rest;
      }
    }
  }

  lemma EncodeFirst(c: char, t: string)
    requires c < 128 as char && Ascii(t)
    ensures Ascii([c] + t) && Encode([c] + t) == Encode([c]) + Encode(t)
  {
    assert ([c] + t)[1..] == t && [c][1..] == "";
    assert Encode("") == "";
  }

  lemma Regrouped(a: string, b: string, c: string)
    ensures a + (b + c) == a + b + c
  {
  }

  lemma {:induction false} EncodeAppend(s: string, t: string)
    requires Ascii(s) && Ascii(t)
    ensures Ascii(s + t) && Encode(s + t) == Encode(s) + Encode(t)
  {
    if s == "" {
      assert s + t == t;
      assert Encode(s) + Encode(t) == Encode(t);
    } else {
      EncodeAppend(s[1..], t);
      EncodeFirst(s[0], s[1..]);
      EncodeFirst(s[0], s[1..] + t);
      assert s == [s[0]] + s[1..] && s + t == [s[0]] + (s[1..] + t);
      Regrouped(Encode([s[0]]), Encode(s[1..]), Encode(t));
    }
  }

  const HEX := "0123456789ABCDEF"

  /** Both cases of a hexadecimal digit are read, and nothing else is. */
  lemma HexDigitsRead(c: char, n: int)
    requires 0 <= n < 16
    ensures HexValue(c) == Some(n) <==> c == HEX[n] || c == "0123456789abcdef"[n]
  {
  }

  /** Character by character: letters, digits and nine marks stay, and any other becomes "%" and its code in two upper-case hexadecimal digits. */
  lemma EncodeOne(c: char)
    requires c < 128 as char
    ensures Encode([c]) == if 'A' <= c <= 'Z' || 'a' <= c <= 'z' || '0' <= c <= '9' || c in "-_.!~*'()" then [c]
                           else ['%', HEX[c as int / 16], HEX[c as int % 16]]
  {
    assert [c][1..] == "";
    assert Encode("") == "";
  }

  lemma {:induction false} EncodedIsOneSegment(s: string)
    requires Ascii(s)
    ensures forall i :: 0 <= i < |Encode(s)| ==> Encode(s)[i] != '/'
    ensures s != "" ==> Encode(s) != ""
  {
    if s != "" {
      EncodedIsOneSegment(s[1..]);
    }
  }

  /** Letters, digits, "_" and "-" are left alone. */
  lemma {:induction false} PlainIsUnchanged(s: string)
    requires forall i :: 0 <= i < |s| ==> IsPlainChar(s[i])
    ensures Ascii(s) && Encode(s) == s
  {
    if s != "" {
      PlainIsUnchanged(s[1..]);
    }
  }
}
