/** The lexer of basic_json: tokens, string unescaping, number conversion, and the string escaper it inverts. */
module JsonLexer {
  import opened Bytes
  import opened JsonValue
  import opened Numbers
  import opened Options
  import Utf8

  const QUOTE: byte := 34
  const BACKSLASH: byte := 92
  const LETTER_U: byte := 117

  /** The C library's float formatting and strtod, which stay uninterpreted. */
  datatype Floats = Floats(format: uint64 -> Text, read: Text -> uint64)

  datatype Token =
    | TNull
    | TTrue
    | TFalse
    | TString(body: Text)
    | TNumber(text: Text)
    | TBeginArray
    | TEndArray
    | TBeginObject
    | TEndObject
    | TColon
    | TComma
    | TEnd
    | TError

  // ------------------------------------------------------------ strings

  predicate IsHex(c: byte) { IsDigit(c) || 65 <= c <= 70 || 97 <= c <= 102 }

  function HexValue(c: byte): (h: nat)
    requires IsHex(c)
    ensures h < 16
  {
    if IsDigit(c) then c - ZERO else if c <= 70 then c - 55 else c - 87
  }

  predicate FourHex(s: Text) { |s| >= 4 && IsHex(s[0]) && IsHex(s[1]) && IsHex(s[2]) && IsHex(s[3]) }

  /** strtoul over four hexadecimal digits. */
  function CodeUnit(s: Text): (c: nat)
    requires FourHex(s)
    ensures c <= 0xffff
  {
    0x1000 * HexValue(s[0]) + 0x100 * HexValue(s[1]) + 0x10 * HexValue(s[2]) + HexValue(s[3])
  }

  /** The character behind a backslash, for the escapes of one letter. */
  function SimpleEscape(c: byte): Option<byte> {
    if c == 34 || c == 92 || c == 47 then Some(c)
    else if c == 98 then Some(8)
    else if c == 102 then Some(12)
    else if c == 110 then Some(10)
    else if c == 114 then Some(13)
    else if c == 116 then Some(9)
    else None
  }

  /** Bytes of the UTF-8 character above 0x7f that s starts with, or 0. */
  function WideLength(s: Text): (n: nat)
    ensures n <= |s|
    ensures n > 0 ==> n >= 2 && Utf8.WellFormed(s[..n])
  {
    if |s| >= 2 && Utf8.WellFormed(s[..2]) then 2
    else if |s| >= 3 && Utf8.WellFormed(s[..3]) then 3
    else if |s| >= 4 && Utf8.WellFormed(s[..4]) then 4
    else 0
  }

  /** Bytes of the string character (RFC 7159, section 7) that s starts with, or 0. */
  function UnitLength(s: Text): (n: nat)
    ensures n <= |s|
  {
    if s == [] || s[0] < 0x20 || s[0] == QUOTE then 0
    else if s[0] == BACKSLASH then
      if |s| < 2 then 0
      else if SimpleEscape(s[1]).Some? then 2
      else if s[1] == LETTER_U && FourHex(s[2..]) then 6
      else 0
    else if s[0] < 0x80 then 1
    else WideLength(s)
  }

  /** Length of the string body up to the closing quote. */
  function StringLength(s: Text): (r: Option<nat>)
    ensures r.Some? ==> r.value < |s| && s[r.value] == QUOTE
    decreases |s|
  {
    if s != [] && s[0] == QUOTE then Some(0)
    else
      var n := UnitLength(s);
      if n == 0 then None
      else
        match StringLength(s[n..])
        case None => None
        case Some(m) => Some(n + m)
  }

  /** A sequence of string characters. */
  predicate Body(s: Text)
    decreases |s|
  {
    s == [] || (UnitLength(s) > 0 && Body(s[UnitLength(s)..]))
  }

  /** lexer::get_string on the text between the quotes. The last two errors cannot come from a scanned token. */
  function Unescape(s: Text): Result<Text>
    decreases |s|
  {
    if s == [] then Ok([])
    else if s[0] != BACKSLASH then var t :- Unescape(s[1..]); Ok([s[0]] + t)
    else if |s| < 2 then Err(AssertionFailed)
    else if s[1] != LETTER_U then
      var t :- Unescape(s[2..]);
      Ok((match SimpleEscape(s[1]) case Some(c) => [c] case None => []) + t)
    else if !FourHex(s[2..]) then Err(AssertionFailed)
    else
      var c := CodeUnit(s[2..]);
      if Utf8.HighSurrogate(c) then
        if |s| < 8 || s[6] != BACKSLASH || s[7] != LETTER_U then Err(InvalidArgument)
        else if !FourHex(s[8..]) then Err(AssertionFailed)
        else
          var u :- Utf8.ToUnicode(c, CodeUnit(s[8..]));
          var t :- Unescape(s[12..]);
          Ok(u + t)
      else if Utf8.LowSurrogate(c) then Err(InvalidArgument)
      else
        var u :- Utf8.ToUnicode(c, 0);
        var t :- Unescape(s[6..]);
        Ok(u + t)
  }

  function HexDigit(n: nat): byte
    requires n < 16
  {
    if n < 10 then ZERO + n else 87 + n
  }

  /** What escape_string writes for one byte. */
  function EscapeByte(c: byte): (s: Text)
    ensures s != []
  {
    if c == 34 || c == 92 then [BACKSLASH, c]
    else if c == 8 then [BACKSLASH, 98]
    else if c == 12 then [BACKSLASH, 102]
    else if c == 10 then [BACKSLASH, 110]
    else if c == 13 then [BACKSLASH, 114]
    else if c == 9 then [BACKSLASH, 116]
    else if c < 0x20 then [BACKSLASH, LETTER_U, ZERO, ZERO, HexDigit(c / 16), HexDigit(c % 16)]
    else [c]
  }

  function Escape(s: Text): Text {
    if s == [] then [] else EscapeByte(s[0]) + Escape(s[1..])
  }

  function ExtraSpace(s: Text): nat {
    if s == [] then 0 else |EscapeByte(s[0])| - 1 + ExtraSpace(s[1..])
  }

  // ---------------------------------------- escaping and getting strings

  lemma {:induction false} EscapeLength(s: Text)
    ensures |Escape(s)| == |s| + ExtraSpace(s)
    ensures ExtraSpace(s) == 0 ==> Escape(s) == s
  {
    if s != [] { EscapeLength(s[1..]); }
  }

  lemma {:induction false} EscapeAppend(s: Text, t: Text)
    ensures Escape(s + t) == Escape(s) + Escape(t)
  {
    hide EscapeByte;
    if s == [] {
      assert s + t == t;
    } else {
      EscapeAppend(s[1..], t);
      assert (s + t)[0] == s[0] && (s + t)[1..] == s[1..] + t;
      assert EscapeByte(s[0]) + (Escape(s[1..]) + Escape(t)) == EscapeByte(s[0]) + Escape(s[1..]) + Escape(t);
    }
  }

  /** extra_space. */
  method CountExtraSpace(s: Text) returns (n: nat)
    ensures n == ExtraSpace(s)
  {
    n := 0;
    for i := 0 to |s|
      invariant n + ExtraSpace(s[i..]) == ExtraSpace(s)
    {
      assert s[i..][1..] == s[i + 1..];
      var c := s[i];
      if c == 34 || c == 92 || c == 8 || c == 12 || c == 10 || c == 13 || c == 9 { n := n + 1; }
      else if c <= 0x1f { n := n + 5; }
    }
  }

  /** One turn of the loop of escape_string: the buffer behind pos holds backslashes. */
  method PutEscaped(result: array<byte>, pos: nat, c: byte) returns (next: nat)
    requires pos + |EscapeByte(c)| <= result.Length
    requires forall k | pos <= k < result.Length :: result[k] == BACKSLASH
    modifies result
    ensures next == pos + |EscapeByte(c)| && result[pos..next] == EscapeByte(c)
    ensures result[..pos] == old(result[..pos])
    ensures forall k | next <= k < result.Length :: result[k] == BACKSLASH
  {
    if c == 34 { result[pos + 1] := 34; next := pos + 2; }
    else if c == 92 { next := pos + 2; }
    else if c == 8 { result[pos + 1] := 98; next := pos + 2; }
    else if c == 12 { result[pos + 1] := 102; next := pos + 2; }
    else if c == 10 { result[pos + 1] := 110; next := pos + 2; }
    else if c == 13 { result[pos + 1] := 114; next := pos + 2; }
    else if c == 9 { result[pos + 1] := 116; next := pos + 2; }
    else if c <= 0x1f {
      result[pos + 1], result[pos + 2], result[pos + 3] := LETTER_U, ZERO, ZERO;
      result[pos + 4], result[pos + 5] := HexDigit(c / 16), HexDigit(c % 16);
      next := pos + 6;
    } else { result[pos] := c; next := pos + 1; }
  }

  /** escape_string: the buffer starts as backslashes and is filled exactly. */
  method EscapeString(s: Text) returns (r: Text)
    ensures r == Escape(s)
  {
    EscapeLength(s);
    var space := CountExtraSpace(s);
    if space == 0 { return s; }
    var result := new byte[|s| + space](_ => BACKSLASH);
    var pos := 0;
    var i := 0;
    assert s[..0] == [] && Escape([]) == [];
    hide Escape, EscapeByte;
    while i < |s|
      invariant i <= |s| && fresh(result) && result.Length == |Escape(s)|
      invariant pos == |Escape(s[..i])| <= result.Length && result[..pos] == Escape(s[..i])
      invariant forall k | pos <= k < result.Length :: result[k] == BACKSLASH
    {
      PrefixEscape(s, i);
      ghost var done := Escape(s[..i]);
      var next := PutEscaped(result, pos, s[i]);
      assert result[..next] == result[..pos] + result[pos..next];
      pos := next;
      i := i + 1;
    }
    assert s[..|s|] == s;
    r := result[..];
  }

  lemma PrefixEscape(s: Text, i: nat)
    requires i < |s|
    ensures Escape(s[..i + 1]) == Escape(s[..i]) + EscapeByte(s[i])
    ensures |Escape(s[..i])| + |EscapeByte(s[i])| <= |Escape(s)|
  {
    hide EscapeByte;
    assert s[..i + 1] == s[..i] + [s[i]] && s[..i + 1] + s[i + 1..] == s;
    EscapeAppend(s[..i], [s[i]]);
    EscapeAppend(s[..i + 1], s[i + 1..]);
    assert Escape([s[i]]) == EscapeByte(s[i]) + Escape([]) == EscapeByte(s[i]) by { assert [s[i]][1..] == []; }
  }

  lemma UnescapeControl(h: nat, l: nat, t: Text)
    requires h < 2 && l < 16
    ensures var r := Unescape(t); var s := [BACKSLASH, LETTER_U, ZERO, ZERO, HexDigit(h), HexDigit(l)] + t;
      Unescape(s) == if r.Ok? then Ok([16 * h + l] + r.value) else r
  {
    var s := [BACKSLASH, LETTER_U, ZERO, ZERO, HexDigit(h), HexDigit(l)] + t;
    assert s[6..] == t && s[2..][0] == ZERO && s[2..][1] == ZERO && s[2..][2] == HexDigit(h) && s[2..][3] == HexDigit(l);
    assert HexValue(HexDigit(h)) == h && HexValue(HexDigit(l)) == l;
    assert CodeUnit(s[2..]) == 16 * h + l;
    hide HexValue, HexDigit;
  }

  lemma UnescapeLetter(c: byte, x: byte, t: Text)
    requires x != LETTER_U && SimpleEscape(x) == Some(c)
    ensures var r := Unescape(t); Unescape([BACKSLASH, x] + t) == if r.Ok? then Ok([c] + r.value) else r
  {
    var s := [BACKSLASH, x] + t;
    assert s[2..] == t && s[1] == x;
    hide SimpleEscape;
  }

  lemma UnescapePlain(c: byte, t: Text)
    requires c != BACKSLASH
    ensures var r := Unescape(t); Unescape([c] + t) == if r.Ok? then Ok([c] + r.value) else r
  {
    assert ([c] + t)[1..] == t;
  }

  lemma UnescapeEscapeByte(c: byte, t: Text)
    ensures var r := Unescape(t); Unescape(EscapeByte(c) + t) == if r.Ok? then Ok([c] + r.value) else r
  {
    hide Unescape;
    var e := EscapeByte(c);
    if |e| == 1 {
      UnescapePlain(c, t);
    } else if |e| == 2 {
      UnescapeLetter(c, e[1], t);
    } else {
      assert c == 16 * (c / 16) + c % 16;
      UnescapeControl(c / 16, c % 16, t);
    }
  }

  /** get_string inverts escape_string on every byte string. */
  lemma {:induction false} UnescapeEscape(s: Text)
    ensures Unescape(Escape(s)) == Ok(s)
  {
    if s != [] {
      var t := s[1..];
      assert Escape(s) == EscapeByte(s[0]) + Escape(t);
      hide *;
      UnescapeEscape(t);
      UnescapeEscapeByte(s[0], Escape(t));
      assert s == [s[0]] + t;
    } else {
      assert Escape([]) == [];
    }
  }

  lemma UnitOfEscapedByte(c: byte, t: Text)
    requires c < 0x80
    ensures UnitLength(EscapeByte(c) + t) == |EscapeByte(c)|
    ensures (EscapeByte(c) + t)[0] != QUOTE
  {
    var e := EscapeByte(c);
    var s := e + t;
    if |e| == 6 {
      assert s[2..][..4] == e[2..];
    }
  }

  lemma {:induction false} EscapeWide(c: Text)
    requires forall b | b in c :: b >= 0x80
    ensures Escape(c) == c
  {
    if c != [] {
      assert c[0] in c && EscapeByte(c[0]) == [c[0]] && forall b | b in c[1..] :: b in c;
      hide EscapeByte;
      EscapeWide(c[1..]);
    }
  }

  lemma UnitOfWide(c: Text, t: Text)
    requires Utf8.WellFormed(c) && |c| > 1
    ensures UnitLength(c + t) == |c| && (c + t)[0] != QUOTE
    ensures forall b | b in c :: b >= 0x80
  {
    var s := c + t;
    assert s[..|c|] == c;
    assert |s| >= 2 && s[..2] == [c[0], c[1]];
    if |c| > 2 { assert s[..3] == [c[0], c[1], c[2]]; }
  }

  lemma StringLengthStep(u: Text, t: Text)
    requires u != [] && UnitLength(u + t) == |u| && (u + t)[0] != QUOTE
    ensures StringLength(u + t) == (match StringLength(t) case None => None case Some(m) => Some(|u| + m))
  {
    assert (u + t)[|u|..] == t;
    hide UnitLength;
  }

  /** The scanner finds the closing quote behind an escaped string of valid UTF-8. */
  lemma {:induction false} ScanEscaped(cs: seq<Text>, rest: Text)
    requires Utf8.Characters(cs)
    ensures StringLength(Escape(Concat(cs)) + ([QUOTE] + rest)) == Some(|Escape(Concat(cs))|)
    decreases |cs|
  {
    hide Escape, UnitLength;
    if cs == [] {
      EscapeEmpty();
      assert Escape([]) + ([QUOTE] + rest) == [QUOTE] + rest;
    } else {
      var c, t := cs[0], Concat(cs[1..]);
      ScanEscaped(cs[1..], rest);
      EscapeAppend(c, t);
      var after := Escape(t) + ([QUOTE] + rest);
      assert Escape(c) + Escape(t) + ([QUOTE] + rest) == Escape(c) + after;
      EscapedUnit(c, after);
      StringLengthStep(Escape(c), after);
    }
  }

  lemma EscapeEmpty()
    ensures Escape([]) == []
  {
  }

  lemma EscapedUnit(c: Text, after: Text)
    requires Utf8.WellFormed(c)
    ensures Escape(c) != [] && UnitLength(Escape(c) + after) == |Escape(c)| && (Escape(c) + after)[0] != QUOTE
  {
    if |c| == 1 {
      assert Escape(c) == EscapeByte(c[0]) by { assert c[1..] == []; }
      UnitOfEscapedByte(c[0], after);
    } else {
      UnitOfWide(c, after);
      EscapeWide(c);
    }
  }

  // ------------------------------------------- strings that were scanned

  lemma {:induction false} WideUnique(s: Text, n: nat)
    requires 2 <= n <= |s| && Utf8.WellFormed(s[..n])
    ensures WideLength(s) == n && s[0] >= 0x80
  {
    assert s[..n][0] == s[0] && s[..n][1] == s[1];
    assert s[..2][0] == s[0];
    if |s| >= 3 { assert s[..3][0] == s[0] && s[..3][1] == s[1]; }
  }

  /** Cutting the text behind a string character does not change it. */
  lemma UnitCut(s: Text, n: nat)
    requires 0 < UnitLength(s) <= n <= |s|
    ensures UnitLength(s[..n]) == UnitLength(s)
  {
    var u := UnitLength(s);
    if s[0] == BACKSLASH {
      if u == 6 { assert s[..n][2..][..4] == s[2..][..4]; }
    } else if s[0] >= 0x80 {
      assert s[..n][..u] == s[..u];
      WideUnique(s[..n], u);
    }
  }

  /** What the scanner finds between the quotes is a sequence of string characters. */
  lemma {:induction false} ScannedBody(s: Text)
    requires StringLength(s).Some?
    ensures Body(s[..StringLength(s).value])
    decreases |s|
  {
    var m := StringLength(s).value;
    if m > 0 {
      var n := UnitLength(s);
      assert n > 0 && StringLength(s[n..]).Some? && m == n + StringLength(s[n..]).value;
      hide UnitLength, StringLength;
      ScannedBody(s[n..]);
      UnitCut(s, m);
      hide Body;
      BodyStep(s[..m], n, s[n..][..m - n]);
    }
  }

  lemma BodyStep(s: Text, n: nat, t: Text)
    requires 0 < n <= |s| && UnitLength(s) == n && s[n..] == t && Body(t)
    ensures Body(s)
  {
    hide UnitLength;
  }

  /** A run without backslashes ends between two string characters. */
  lemma BodyTail(s: Text)
    requires Body(s) && s != []
    ensures 0 < UnitLength(s) <= |s| && Body(s[UnitLength(s)..])
  {
  }

  lemma {:induction false} BodyBehind(s: Text, e: nat)
    requires Body(s) && e <= |s| && BACKSLASH !in s[..e] && (e < |s| ==> s[e] == BACKSLASH)
    ensures Body(s[e..])
    decreases |s|
  {
    hide Body, UnitLength;
    if e == 0 {
      assert s[0..] == s;
    } else {
      BodyTail(s);
      var n := UnitLength(s);
      assert s[0] in s[..e];
      if n > e { UnitHighBytes(s, e); }
      assert s[n..][..e - n] == s[n..e] && s[..e] == s[..n] + s[n..e];
      BodyBehind(s[n..], e - n);
      assert s[n..][e - n..] == s[e..];
    }
  }

  lemma UnitHighBytes(s: Text, e: nat)
    requires s != [] && s[0] != BACKSLASH && 0 < e < UnitLength(s)
    ensures s[e] >= 0x80
  {
    var c := s[..UnitLength(s)];
    UnitOfWide(c, []);
    assert c[e] == s[e] && c[e] in c;
  }

  ghost function Prefixed(p: Text, r: Result<Text>): Result<Text> {
    if r.Ok? then Ok(p + r.value) else r
  }

  lemma PrefixedJoin(p: Text, q: Text, r: Result<Text>)
    ensures Prefixed(p, Prefixed(q, r)) == Prefixed(p + q, r)
  {
    if r.Ok? { assert p + (q + r.value) == p + q + r.value; }
  }

  lemma {:induction false} UnescapeRun(p: Text, t: Text)
    requires BACKSLASH !in p
    ensures Unescape(p + t) == Prefixed(p, Unescape(t))
  {
    if p == [] {
      assert p + t == t;
      if Unescape(t).Ok? { assert [] + Unescape(t).value == Unescape(t).value; }
    } else {
      assert p[0] in p && forall b | b in p[1..] :: b in p;
      UnescapeRun(p[1..], t);
      assert p + t == [p[0]] + (p[1..] + t) && [p[0]] + p[1..] == p;
      UnescapePlain(p[0], p[1..] + t);
      hide Unescape;
      PrefixedJoin([p[0]], p[1..], Unescape(t));
    }
  }

  /** std::find for the next backslash at or behind i. */
  method FindBackslash(s: Text, i: nat) returns (e: nat)
    requires i <= |s|
    ensures i <= e <= |s| && BACKSLASH !in s[i..e] && (e < |s| ==> s[e] == BACKSLASH)
  {
    e := i;
    while e < |s| && s[e] != BACKSLASH
      invariant i <= e <= |s| && BACKSLASH !in s[i..e]
    {
      assert s[i..e + 1] == s[i..e] + [s[e]];
      e := e + 1;
    }
  }

  /** The escape at the front of a body: its value and its length. */
  function EscapeAt(s: Text): (r: Result<(Text, nat)>)
    requires s != [] && s[0] == BACKSLASH && Body(s)
    ensures r.Ok? ==> 2 <= r.value.1 <= |s|
  {
    EscapeShape(s);
    if s[1] != LETTER_U then Ok(([SimpleEscape(s[1]).value], 2))
    else
      var c := CodeUnit(s[2..]);
      if Utf8.HighSurrogate(c) then
        if |s| < 8 || s[6] != BACKSLASH || s[7] != LETTER_U then Err(InvalidArgument)
        else
          var u :- Utf8.ToUnicode(c, CodeUnit(s[8..]));
          Ok((u, 12))
      else if Utf8.LowSurrogate(c) then Err(InvalidArgument)
      else var u :- Utf8.ToUnicode(c, 0); Ok((u, 6))
  }

  lemma EscapeShape(s: Text)
    requires s != [] && s[0] == BACKSLASH && Body(s)
    ensures |s| >= 2
    ensures s[1] == LETTER_U ==> |s| >= 6 && FourHex(s[2..]) && Body(s[6..])
    ensures s[1] != LETTER_U ==> SimpleEscape(s[1]).Some? && Body(s[2..])
    ensures s[1] == LETTER_U && |s| >= 8 && s[6] == BACKSLASH && s[7] == LETTER_U ==>
      |s| >= 12 && FourHex(s[8..]) && Body(s[12..])
  {
    if s[1] == LETTER_U && |s| >= 8 && s[6] == BACKSLASH && s[7] == LETTER_U {
      assert s[6..][2..] == s[8..] && s[6..][6..] == s[12..];
      assert s[6..][0] == BACKSLASH && s[6..][1] == LETTER_U;
    }
  }

  /** One escape of get_string, whatever follows it. */
  lemma UnescapeAt(s: Text)
    requires s != [] && s[0] == BACKSLASH && Body(s)
    ensures var r := EscapeAt(s);
      if r.Err? then r.error == InvalidArgument && Unescape(s) == Err(r.error)
      else Unescape(s) == Prefixed(r.value.0, Unescape(s[r.value.1..])) && Body(s[r.value.1..])
  {
    EscapeShape(s);
    hide Body;
  }

  /** What the loop of get_string keeps: result and the rest of the token make up the whole. */
  ghost predicate Reading(s: Text, i: nat, result: Text) {
    i <= |s| && Body(s[i..]) && Unescape(s) == Prefixed(result, Unescape(s[i..]))
  }

  lemma ReadPlain(s: Text, i: nat, e: nat, result: Text)
    requires Reading(s, i, result) && i <= e <= |s| && BACKSLASH !in s[i..e] && (e < |s| ==> s[e] == BACKSLASH)
    ensures Reading(s, e, result + s[i..e])
  {
    hide Unescape, Body;
    var t := s[i..];
    assert t[..e - i] == s[i..e] && t[e - i..] == s[e..] && s[i..e] + s[e..] == t;
    UnescapeRun(s[i..e], s[e..]);
    BodyBehind(t, e - i);
    PrefixedJoin(result, s[i..e], Unescape(s[e..]));
  }

  lemma ReadEscape(s: Text, i: nat, result: Text)
    requires Reading(s, i, result) && i < |s| && s[i] == BACKSLASH
    ensures s[i..] != [] && s[i..][0] == BACKSLASH && Body(s[i..])
    ensures match EscapeAt(s[i..])
      case Err(e) => Unescape(s) == Err(e)
      case Ok(step) => Reading(s, i + step.1, result + step.0)
  {
    hide Unescape, Body, EscapeAt;
    UnescapeAt(s[i..]);
    var r := EscapeAt(s[i..]);
    if r.Ok? {
      assert s[i..][r.value.1..] == s[i + r.value.1..];
      PrefixedJoin(result, r.value.0, Unescape(s[i + r.value.1..]));
    }
  }

  lemma ReadStart(s: Text)
    requires Body(s)
    ensures Reading(s, 0, [])
  {
    assert s[0..] == s;
    if Unescape(s).Ok? { assert [] + Unescape(s).value == Unescape(s).value; }
  }

  lemma ReadEnd(s: Text, result: Text)
    requires Reading(s, |s|, result)
    ensures Unescape(s) == Ok(result)
  {
    assert s[|s|..] == [] && result + [] == result;
  }

  /** lexer::get_string on a scanned token. */
  method GetString(s: Text) returns (r: Result<Text>)
    requires Body(s)
    ensures r == Unescape(s)
  {
    var result: Text := [];
    var i := 0;
    ReadStart(s);
    hide Unescape, Body, EscapeAt, Reading;
    while i < |s|
      invariant i <= |s| && Reading(s, i, result)
    {
      var e := FindBackslash(s, i);
      if e != i {
        ReadPlain(s, i, e, result);
        result := result + s[i..e];
        i := e;
      } else {
        ReadEscape(s, i, result);
        var step := EscapeAt(s[i..]);
        if step.Err? { return Err(step.error); }
        result := result + step.value.0;
        i := i + step.value.1;
      }
    }
    ReadEnd(s, result);
    r := Ok(result);
  }

  lemma ValidCons(c: Text, t: Text)
    requires Utf8.WellFormed(c) && Utf8.Valid(t)
    ensures Utf8.Valid(c + t)
  {
    var cs :| Utf8.Characters(cs) && Concat(cs) == t;
    assert ([c] + cs)[1..] == cs;
    assert Concat([c] + cs) == c + t;
  }

  lemma EscapeAtValid(s: Text)
    requires s != [] && s[0] == BACKSLASH && Body(s) && EscapeAt(s).Ok?
    ensures Utf8.WellFormed(EscapeAt(s).value.0)
  {
    EscapeShape(s);
    if s[1] == LETTER_U {
      var c := CodeUnit(s[2..]);
      var d := if Utf8.HighSurrogate(c) then CodeUnit(s[8..]) else 0;
      Utf8.EncodeScalarWellFormed(Utf8.Scalar(c, d));
      hide CodeUnit;
    }
  }

  /** get_string on a scanned token gives valid UTF-8, or rejects an unpaired surrogate. */
  lemma {:induction false} UnescapeValid(s: Text)
    requires Body(s)
    ensures if Unescape(s).Ok? then Utf8.Valid(Unescape(s).value) else Unescape(s) == Err(InvalidArgument)
    decreases |s|
  {
    if s == [] {
      assert Concat([]) == [] && Utf8.Characters([]);
    } else if s[0] == BACKSLASH {
      UnescapeAt(s);
      hide Unescape, EscapeAt, Body, Utf8.Valid, Utf8.WellFormed;
      if EscapeAt(s).Ok? {
        var (u, n) := EscapeAt(s).value;
        EscapeAtValid(s);
        UnescapeValid(s[n..]);
        if Unescape(s[n..]).Ok? { ValidCons(u, Unescape(s[n..]).value); }
      }
    } else {
      var n := UnitLength(s);
      assert 0 < n && Body(s[n..]);
      hide Unescape, Body, UnitLength, Utf8.Valid, Utf8.WellFormed;
      UnitValid(s);
      UnescapeValid(s[n..]);
      UnescapeRun(s[..n], s[n..]);
      assert s[..n] + s[n..] == s;
      if Unescape(s[n..]).Ok? { ValidCons(s[..n], Unescape(s[n..]).value); }
    }
  }

  lemma UnitValid(s: Text)
    requires s != [] && s[0] != BACKSLASH && UnitLength(s) > 0
    ensures Utf8.WellFormed(s[..UnitLength(s)]) && BACKSLASH !in s[..UnitLength(s)]
  {
    var c := s[..UnitLength(s)];
    if |c| > 1 { UnitOfWide(c, []); }
  }

  // ------------------------------------------------------------- numbers

  function DigitRun(s: Text): (n: nat)
    ensures n <= |s| && AllDigits(s[..n]) && (n < |s| ==> !IsDigit(s[n]))
  {
    if s == [] || !IsDigit(s[0]) then 0
    else
      var m := DigitRun(s[1..]);
      assert s[..1 + m] == [s[0]] + s[1..][..m];
      1 + m
  }

  /** Bytes of the number (RFC 7159, section 6) that s starts with, or 0; a broken fraction or exponent is left off. */
  function NumberLength(s: Text): (n: nat)
    ensures n <= |s|
  {
    if IntegerEnd(s) == 0 then 0 else ExponentEnd(s, FractionEnd(s, IntegerEnd(s)))
  }

  function IntegerEnd(s: Text): (n: nat)
    ensures n <= |s|
  {
    var first := if s != [] && s[0] == MINUS then 1 else 0;
    if |s| == first || !IsDigit(s[first]) then 0
    else if s[first] == ZERO then first + 1
    else first + DigitRun(s[first..])
  }

  function FractionEnd(s: Text, k: nat): (n: nat)
    requires k <= |s|
    ensures k <= n <= |s|
  {
    if k < |s| && s[k] == 46 && DigitRun(s[k + 1..]) > 0 then k + 1 + DigitRun(s[k + 1..]) else k
  }

  function ExponentEnd(s: Text, k: nat): (n: nat)
    requires k <= |s|
    ensures k <= n <= |s|
  {
    if k < |s| && (s[k] == 69 || s[k] == 101) then
      var d := if k + 1 < |s| && (s[k + 1] == 43 || s[k + 1] == MINUS) then k + 2 else k + 1;
      if DigitRun(s[d..]) > 0 then d + DigitRun(s[d..]) else k
    else k
  }

  function FloatValue(fs: Floats, text: Text): Json { FromDouble(fs.read(text)) }

  /** The value of a number token: an exact integer where it fits, else whatever strtod makes of it. */
  function NumberValue(fs: Floats, text: Text): Json
    requires text != []
  {
    var negative := text[0] == MINUS;
    var digits := if negative then text[1..] else text;
    if !AllDigits(digits) then FloatValue(fs, text)
    else
      var n := DigitsValue(digits, 0);
      if negative && n <= TWO63 then Integer(0 - n)
      else if !negative && n < TWO64 then Unsigned(n)
      else FloatValue(fs, text)
  }

  lemma {:induction false} DigitsGrow(s: Text, i: nat)
    requires i < |s| && AllDigits(s)
    ensures DigitsValue(s[..i + 1], 0) == DigitsValue(s[..i], 0) * 10 + (s[i] - ZERO)
  {
    assert s[..i + 1] == s[..i] + [s[i]] && s[i] in s;
    DigitsValueAppend(s[..i], s[i], 0);
  }

  lemma {:induction false} DigitsMonotone(s: Text, i: nat)
    requires i <= |s| && AllDigits(s)
    ensures DigitsValue(s[..i], 0) <= DigitsValue(s, 0)
    decreases |s| - i
  {
    if i < |s| {
      DigitsGrow(s, i);
      assert s[i] in s;
      DigitsMonotone(s, i + 1);
    } else {
      assert s[..i] == s;
    }
  }

  datatype Numeric = AsUnsigned | AsInteger | AsFloat

  /** lexer::get_number: the digit loop with its overflow test, all in 64-bit unsigned arithmetic. */
  method GetNumber(fs: Floats, text: Text) returns (r: Json)
    requires text != []
    ensures r == NumberValue(fs, text)
  {
    var negative := text[0] == MINUS;
    var start := if negative then 1 else 0;
    var max: nat := if negative then 0x7fff_ffff_ffff_ffff + 1 else 0xffff_ffff_ffff_ffff;
    var kind := if negative then AsInteger else AsUnsigned;
    ghost var digits := text[start..];
    var value: nat := 0;
    var i := start;
    while i < |text|
      invariant start <= i <= |text| && value <= max
      invariant kind != AsFloat ==> kind == if negative then AsInteger else AsUnsigned
      invariant kind != AsFloat ==> AllDigits(digits[..i - start]) && value == DigitsValue(digits[..i - start], 0)
      invariant kind == AsFloat ==> AllDigits(digits) ==> DigitsValue(digits, 0) > max
    {
      var c := text[i];
      assert c == digits[i - start] && digits[..i - start + 1] == digits[..i - start] + [c];
      if !IsDigit(c) {
        assert c in digits;
        kind := AsFloat;
        if c != 46 { break; }
      } else if kind != AsFloat {
        var digit: nat := c - ZERO;
        DigitsValueAppend(digits[..i - start], c, 0);
        if value > (max - digit) / 10 {
          kind := AsFloat;
          if AllDigits(digits) { DigitsMonotone(digits, i - start + 1); }
        } else {
          value := value * 10 + digit;
        }
      }
      i := i + 1;
    }
    assert digits[..|digits|] == digits;
    match kind
    case AsUnsigned => r := Unsigned(value);
    case AsInteger => r := if value == max then Integer(-0x8000_0000_0000_0000) else Integer(0 - value);
    case AsFloat => r := FloatValue(fs, text);
  }

  // -------------------------------------------------------------- tokens

  predicate IsBlank(c: byte) { c == 32 || c == 9 || c == 10 || c == 13 }

  function SkipBlanks(s: Text): (t: Text)
    ensures |t| <= |s| && (t != [] ==> !IsBlank(t[0]))
  {
    if s != [] && IsBlank(s[0]) then SkipBlanks(s[1..]) else s
  }

  const LITERAL_NULL: Text := [110, 117, 108, 108]
  const LITERAL_TRUE: Text := [116, 114, 117, 101]
  const LITERAL_FALSE: Text := [102, 97, 108, 115, 101]

  /** The token at the front of s and its length; a zero byte is the end of the input. */
  function TokenAt(s: Text): (r: (Token, nat))
    requires s != []
    ensures 0 < r.1 <= |s|
  {
    var c := s[0];
    if c == 0 then (TEnd, 1)
    else if c == QUOTE then
      match StringLength(s[1..])
      case Some(n) => (TString(s[1..1 + n]), n + 2)
      case None => (TError, 1)
    else if c == 44 then (TComma, 1)
    else if c == 58 then (TColon, 1)
    else if c == 91 then (TBeginArray, 1)
    else if c == 93 then (TEndArray, 1)
    else if c == 123 then (TBeginObject, 1)
    else if c == 125 then (TEndObject, 1)
    else if LITERAL_NULL <= s then (TNull, 4)
    else if LITERAL_TRUE <= s then (TTrue, 4)
    else if LITERAL_FALSE <= s then (TFalse, 5)
    else if NumberLength(s) > 0 then (TNumber(s[..NumberLength(s)]), NumberLength(s))
    else (TError, 1)
  }

  /** lexer::scan: the next token and the text behind it. */
  function Scan(s: Text): (r: (Token, Text))
    ensures |r.1| <= |s| && (r.0 != TEnd ==> |r.1| < |s|)
  {
    var t := SkipBlanks(s);
    if t == [] then (TEnd, [])
    else
      var (k, n) := TokenAt(t);
      (k, t[n..])
  }

  /** A zero byte, like the end of the text, ends the input. */
  lemma ScanEnd(s: Text)
    ensures Scan([0] + s) == (TEnd, s) && Scan([]) == (TEnd, [])
  {
    assert ([0] + s)[1..] == s;
  }

  /** A token the scanner can produce. */
  predicate Scanned(t: Token) {
    match t
    case TString(body) => Body(body)
    case TNumber(text) => text != []
    case _ => true
  }

  lemma ScanScanned(s: Text)
    ensures Scanned(Scan(s).0)
  {
    var t := SkipBlanks(s);
    if t != [] && t[0] == QUOTE && StringLength(t[1..]).Some? {
      ScannedBody(t[1..]);
      var n := StringLength(t[1..]).value;
      assert t[1..][..n] == t[1..1 + n];
    }
    hide NumberLength, StringLength, Body;
  }

  lemma {:induction false} SkipBlankRun(w: Text, t: Text)
    requires forall c | c in w :: IsBlank(c)
    ensures SkipBlanks(w + t) == SkipBlanks(t)
  {
    if w == [] {
      assert w + t == t;
    } else {
      assert w[0] in w && forall c | c in w[1..] :: c in w;
      SkipBlankRun(w[1..], t);
      assert (w + t)[1..] == w[1..] + t;
    }
  }

  /** The white space of RFC 7159, section 2, tab, line feed, carriage return and space, is skipped before any token. */
  lemma BlankSkipped(c: byte, t: Text)
    requires c in [9, 10, 13, 32]
    ensures Scan([c] + t) == Scan(t)
  {
    ScanBlanks([c], t);
    hide Scan;
  }

  lemma ScanBlanks(w: Text, t: Text)
    requires forall c | c in w :: IsBlank(c)
    ensures Scan(w + t) == Scan(t)
  {
    SkipBlankRun(w, t);
    hide TokenAt, SkipBlanks;
  }

  function Punctuation(c: byte): Token {
    if c == 44 then TComma
    else if c == 58 then TColon
    else if c == 91 then TBeginArray
    else if c == 93 then TEndArray
    else if c == 123 then TBeginObject
    else if c == 125 then TEndObject
    else TError
  }

  lemma ScanPunctuation(c: byte, t: Text)
    requires Punctuation(c) != TError
    ensures Scan([c] + t) == (Punctuation(c), t)
  {
    assert ([c] + t)[1..] == t;
    assert SkipBlanks([c] + t) == [c] + t;
  }

  /** A double-quoted, escaped string. */
  function Quoted(s: Text): Text { [QUOTE] + (Escape(s) + [QUOTE]) }

  lemma QuoteToken(x: Text, n: nat)
    requires x != [] && x[0] == QUOTE && StringLength(x[1..]) == Some(n)
    ensures Scan(x) == (TString(x[1..1 + n]), x[n + 2..])
  {
    hide StringLength, NumberLength;
    assert SkipBlanks(x) == x;
  }

  lemma ScanQuoted(s: Text, t: Text)
    requires Utf8.Valid(s)
    ensures Scan(Quoted(s) + t) == (TString(Escape(s)), t)
  {
    hide Escape, StringLength, Scan;
    var cs :| Utf8.Characters(cs) && Concat(cs) == s;
    ScanEscaped(cs, t);
    hide Concat, Utf8.Characters;
    var e, x := Escape(s), Quoted(s) + t;
    assert x == [QUOTE] + (e + ([QUOTE] + t));
    assert x[1..] == e + ([QUOTE] + t);
    QuoteToken(x, |e|);
    assert x[1..1 + |e|] == e && x[|e| + 2..] == t;
  }

  /** Text that cannot continue a number. */
  predicate Delimited(t: Text) {
    t == [] || (!IsDigit(t[0]) && t[0] != 46 && t[0] != 69 && t[0] != 101)
  }

  lemma {:induction false} DigitRunAll(d: Text, t: Text)
    requires AllDigits(d) && (t == [] || !IsDigit(t[0]))
    ensures DigitRun(d + t) == |d|
  {
    if d == [] {
      assert d + t == t;
    } else {
      assert d[0] in d && forall c | c in d[1..] :: c in d;
      DigitRunAll(d[1..], t);
      assert (d + t)[1..] == d[1..] + t;
    }
  }

  /** std::ostream << on an integer. */
  function Print(i: int): (s: Text)
    ensures s != []
  {
    if i < 0 then [MINUS] + Decimal(-i) else Decimal(i)
  }

  lemma NumberStops(s: Text, k: nat)
    requires k <= |s| && (k < |s| ==> s[k] != 46 && s[k] != 69 && s[k] != 101)
    ensures ExponentEnd(s, FractionEnd(s, k)) == k
  {
  }

  predicate NoDigit(t: Text) { t == [] || !IsDigit(t[0]) }

  lemma IntegerLength(sign: Text, d: Text, t: Text)
    requires (sign == [] || sign == [MINUS]) && d != [] && AllDigits(d) && (d[0] == ZERO ==> |d| == 1) && NoDigit(t)
    ensures IntegerEnd(sign + d + t) == |sign + d|
  {
    var s := sign + d + t;
    assert d[0] in d && s[|sign|..] == d + t && s[|sign|] == d[0];
    DigitRunAll(d, t);
    hide DigitRun;
  }

  lemma DigitsLength(sign: Text, d: Text, t: Text)
    requires (sign == [] || sign == [MINUS]) && d != [] && AllDigits(d) && (d[0] == ZERO ==> |d| == 1) && Delimited(t)
    ensures NumberLength(sign + d + t) == |sign + d|
  {
    var s := sign + d + t;
    IntegerLength(sign, d, t);
    hide FractionEnd, ExponentEnd, DigitRun, IntegerEnd;
    assert t != [] ==> s[|sign + d|] == t[0];
    NumberStops(s, |sign + d|);
  }

  lemma FractionLength(x: Text, f: Text, t: Text)
    requires f != [] && AllDigits(f) && NoDigit(t)
    ensures FractionEnd(x + ([46] + (f + t)), |x|) == |x| + 1 + |f|
  {
    var s := x + ([46] + (f + t));
    DigitRunAll(f, t);
    hide DigitRun;
    assert s[|x|] == 46 && s[|x| + 1..] == f + t;
  }

  lemma ExponentLength(x: Text, mark: Text, e: Text, t: Text)
    requires mark in [[69], [101], [69, 43], [69, 45], [101, 43], [101, 45]] && e != [] && AllDigits(e) && NoDigit(t)
    ensures ExponentEnd(x + (mark + (e + t)), |x|) == |x| + |mark| + |e|
  {
    var s, k := x + (mark + (e + t)), |x| + |mark|;
    DigitRunAll(e, t);
    assert e[0] in e;
    hide DigitRun;
    assert s[|x|] == mark[0] && s[k..] == e + t && s[k] == e[0];
    if |mark| == 2 { assert s[|x| + 1] == mark[1]; }
  }

  lemma FractionPart(x: Text, f: Text, t: Text)
    requires AllDigits(f) && NoDigit(t) && (t != [] ==> t[0] != 46)
    ensures FractionEnd(x + (Fraction(f) + t), |x|) == |x| + |Fraction(f)|
  {
    if f == [] {
      assert [] + t == t;
      assert t != [] ==> (x + t)[|x|] == t[0];
    } else {
      assert [46] + f + t == [46] + (f + t);
      FractionLength(x, f, t);
      hide FractionEnd;
    }
  }

  function Fraction(f: Text): Text { if f == [] then [] else [46] + f }

  lemma ExponentPart(x: Text, mark: Text, e: Text, t: Text)
    requires mark in [[], [69], [101], [69, 43], [69, 45], [101, 43], [101, 45]] && (mark == [] <==> e == [])
    requires AllDigits(e) && Delimited(t)
    ensures ExponentEnd(x + (mark + (e + t)), |x|) == |x| + |mark| + |e|
  {
    if mark == [] {
      assert mark + (e + t) == t;
      assert t != [] ==> (x + t)[|x|] == t[0];
    } else {
      ExponentLength(x, mark, e, t);
    }
    hide ExponentEnd;
  }

  /** The numbers of RFC 7159, section 6, with fraction and exponent of any form, are one token before any text that cannot
      continue them. */
  lemma NumberTokens(sign: Text, d: Text, f: Text, mark: Text, e: Text, t: Text)
    requires sign in [[], [45]] && d != [] && AllDigits(d) && (d[0] == 48 ==> |d| == 1) && AllDigits(f) && AllDigits(e)
    requires mark in [[], [69], [101], [69, 43], [69, 45], [101, 43], [101, 45]] && (mark == [] <==> e == []) && Delimited(t)
    ensures var s := sign + d + (if f == [] then [] else [46] + f) + (mark + e); NumberLength(s + t) == |s|
  {
    var x, frac, rest := sign + d, Fraction(f), mark + (e + t);
    assert NoDigit(rest) && (rest != [] ==> rest[0] != 46) by {
      if mark == [] { assert rest == t; } else { assert rest[0] == mark[0]; }
    }
    assert NoDigit(frac + rest);
    assert x + frac + (mark + e) + t == x + (frac + rest) == x + frac + rest;
    NumberOf(x + (frac + rest), |x|, |x + frac|, |x + frac| + |mark| + |e|) by {
      hide *;
      IntegerLength(sign, d, frac + rest);
      FractionPart(x, f, rest);
      ExponentPart(x + frac, mark, e, t);
    }
  }

  lemma NumberOf(s: Text, i: nat, j: nat, k: nat)
    requires 0 < i <= |s| && IntegerEnd(s) == i && FractionEnd(s, i) == j && ExponentEnd(s, j) == k
    ensures NumberLength(s) == k
  {
  }

  /** A dot without a digit behind it, and an exponent without one, do not belong to the number. */
  lemma BrokenNumbers(sign: Text, d: Text, t: Text)
    requires sign in [[], [45]] && d != [] && AllDigits(d) && (d[0] == 48 ==> |d| == 1) && t != [] && NoDigit(t)
    requires t[0] == 46 ==> NoDigit(t[1..])
    requires t[0] == 69 || t[0] == 101 ==> NoDigit(if |t| > 1 && (t[1] == 43 || t[1] == 45) then t[2..] else t[1..])
    ensures NumberLength(sign + d + t) == |sign + d|
  {
    var x := sign + d;
    var s := x + t;
    IntegerLength(sign, d, t);
    hide IntegerEnd;
    assert s[|x|..] == t && s[|x|] == t[0] && s[|x| + 1..] == t[1..];
    if |t| > 1 { assert s[|x| + 1] == t[1] && s[|x| + 2..] == t[2..]; }
  }

  lemma PrintLength(i: int, t: Text)
    requires Delimited(t)
    ensures NumberLength(Print(i) + t) == |Print(i)|
  {
    var sign: Text, d := if i < 0 then [MINUS] else [], Decimal(if i < 0 then -i else i);
    assert Print(i) == sign + d;
    DigitsLength(sign, d, t);
    hide Decimal, NumberLength, Print;
  }

  lemma ScanNumber(i: int, t: Text)
    requires Delimited(t)
    ensures Scan(Print(i) + t) == (TNumber(Print(i)), t)
  {
    PrintLength(i, t);
    var p := Print(i);
    var s := p + t;
    assert p[0] == MINUS || IsDigit(p[0]) by { if i >= 0 { assert Decimal(i)[0] in Decimal(i); } }
    hide NumberLength, StringLength, Print, Scan;
    assert s[0] == p[0];
    NumberToken(s);
    assert s[..|p|] == p && s[|p|..] == t;
  }

  lemma NumberToken(s: Text)
    requires s != [] && (s[0] == MINUS || IsDigit(s[0])) && NumberLength(s) > 0
    ensures Scan(s) == (TNumber(s[..NumberLength(s)]), s[NumberLength(s)..])
  {
    hide NumberLength, StringLength;
    assert SkipBlanks(s) == s;
    assert !(LITERAL_NULL <= s) && !(LITERAL_TRUE <= s) && !(LITERAL_FALSE <= s);
  }

  lemma {:induction false} PrintValue(fs: Floats, i: int)
    requires -0x8000_0000_0000_0000 <= i < 0x1_0000_0000_0000_0000
    ensures NumberValue(fs, Print(i)) == if i < 0 then Integer(i) else Unsigned(i)
  {
    var d := Decimal(if i < 0 then -i else i);
    DecimalValue(if i < 0 then -i else i);
    assert d[0] in d;
    if i < 0 { assert Print(i)[1..] == d; }
    hide Decimal, DigitsValue;
  }

  lemma ScanLiteral(s: Text, t: Text)
    requires s == LITERAL_NULL || s == LITERAL_TRUE || s == LITERAL_FALSE
    ensures Scan(s + t) == (if s == LITERAL_NULL then TNull else if s == LITERAL_TRUE then TTrue else TFalse, t)
  {
    hide NumberLength, StringLength;
    var x := s + t;
    assert x[0] == s[0] && s <= x && x[|s|..] == t;
    assert SkipBlanks(x) == x;
  }

  // ------------------------------------------------------------- spelling

  /** The literals of RFC 7159, section 3. */
  lemma Literals()
    ensures LITERAL_NULL == Ascii("null") && LITERAL_TRUE == Ascii("true") && LITERAL_FALSE == Ascii("false")
  {
  }

  /** The short escapes of RFC 7159, section 7; other control characters are written in hexadecimal, with lower-case
      letters. */
  lemma Escapes()
    ensures EscapeByte(8) == [BACKSLASH] + Ascii("b") && EscapeByte(9) == [BACKSLASH] + Ascii("t")
    ensures EscapeByte(10) == [BACKSLASH] + Ascii("n") && EscapeByte(12) == [BACKSLASH] + Ascii("f")
    ensures EscapeByte(13) == [BACKSLASH] + Ascii("r") && EscapeByte(0x1f) == [BACKSLASH] + Ascii("u001f")
    ensures EscapeByte(34) == [92, 34] && EscapeByte(92) == [92, 92] && EscapeByte(47) == [47]
  {
  }

  /** The digit for n, in either case. */
  function HexCase(n: nat, upper: bool): byte
    requires n < 16
  {
    if upper && n >= 10 then HexDigit(n) - 32 else HexDigit(n)
  }

  /** Four hexadecimal digits, each of either case, are read as the number they are the digits of. */
  lemma HexBack(a: nat, b: nat, c: nat, d: nat, upper: bool)
    requires a < 16 && b < 16 && c < 16 && d < 16
    ensures var s := [HexCase(a, upper), HexCase(b, !upper), HexCase(c, upper), HexCase(d, !upper)];
      FourHex(s) && CodeUnit(s) == ((a * 16 + b) * 16 + c) * 16 + d
  {
    HexCaseBack(a, upper);
    HexCaseBack(b, !upper);
    HexCaseBack(c, upper);
    HexCaseBack(d, !upper);
    hide HexCase, HexValue, IsHex;
  }

  lemma HexCaseBack(n: nat, upper: bool)
    requires n < 16
    ensures IsHex(HexCase(n, upper)) && HexValue(HexCase(n, upper)) == n
  {
  }

  lemma PairAlone(s: Text)
    requires |s| == 12 && s[0] == BACKSLASH == s[6] && s[1] == LETTER_U == s[7] && FourHex(s[2..]) && FourHex(s[8..])
    requires Utf8.HighSurrogate(CodeUnit(s[2..])) && Utf8.LowSurrogate(CodeUnit(s[8..]))
    ensures Unescape(s) == Utf8.ToUnicode(CodeUnit(s[2..]), CodeUnit(s[8..]))
  {
    hide FourHex, CodeUnit, Utf8.ToUnicode;
    var u := Utf8.ToUnicode(CodeUnit(s[2..]), CodeUnit(s[8..]));
    assert s[12..] == [];
    assert u.Ok? ==> u.value + [] == u.value;
  }

  /** The example of RFC 7159, section 7: the G clef from its surrogate pair, in digits of either case. */
  lemma Clef()
    ensures Unescape([92, 117, 68, 56, 51, 52, 92, 117, 100, 100, 49, 101]) == Ok([0xf0, 0x9d, 0x84, 0x9e])
    ensures [68, 56, 51, 52] == Ascii("D834") && [100, 100, 49, 101] == Ascii("dd1e")
  {
    hide Unescape;
    var s: Text := [92, 117, 68, 56, 51, 52, 92, 117, 100, 100, 49, 101];
    assert CodeUnit(s[2..]) == 0xd834 && CodeUnit(s[8..]) == 0xdd1e;
    PairAlone(s);
    hide CodeUnit;
  }

  /** Short escapes as read, the slash included, which is never written escaped. */
  lemma ShortEscapes()
    ensures SimpleEscape(98) == Some(8) && SimpleEscape(116) == Some(9) && SimpleEscape(110) == Some(10)
    ensures SimpleEscape(102) == Some(12) && SimpleEscape(114) == Some(13)
    ensures SimpleEscape(34) == Some(34) && SimpleEscape(47) == Some(47) && SimpleEscape(92) == Some(92)
    ensures forall c: byte | c !in [34, 47, 92, 98, 102, 110, 114, 116] :: SimpleEscape(c) == None
  {
  }
}
