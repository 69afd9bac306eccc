/** Serialization and parsing of basic_json (RFC 7159). */
module JsonText {
  import opened Bytes
  import opened JsonValue
  import opened JsonLexer
  import opened Numbers
  import opened Sequences
  import Utf8

  const SPACE: byte := 32
  const NEWLINE: byte := 10

  // --------------------------------------------------------------- dump

  datatype Style = Style(pretty: bool, step: nat)

  function Spaces(n: nat): (s: Text)
    ensures |s| == n && forall c | c in s :: c == SPACE
  {
    seq(n, _ => SPACE)
  }

  function Break(st: Style): Text { if st.pretty then [NEWLINE] else [] }

  /** The indentation is an unsigned int and wraps. */
  function Inner(st: Style, indent: nat): nat {
    if st.pretty then (indent + st.step) % TWO32 else indent
  }

  /** Line break, indentation and closing bracket behind the last entry of a container. */
  function Closing(st: Style, indent: nat, bracket: byte): Text {
    Break(st) + (Spaces(indent) + [bracket])
  }

  function DumpAt(fs: Floats, j: Json, st: Style, indent: nat): Text
    decreases j, 1, 0
  {
    match j
    case Null => LITERAL_NULL
    case Boolean(b) => if b then LITERAL_TRUE else LITERAL_FALSE
    case Integer(i) => Print(i)
    case Unsigned(u) => Print(u)
    case Float(bits) => fs.format(bits)
    case String(s) => Quoted(s)
    case Array(a) =>
      if a == [] then [91, 93]
      else [91] + (Break(st) + (DumpElements(fs, j, 0, st, Inner(st, indent)) + Closing(st, indent, 93)))
    case Object(m) =>
      if m == map[] then [123, 125]
      else
        [123] + (Break(st) + (DumpMembers(fs, j, SortedKeys(m.Keys), st, Inner(st, indent)) + Closing(st, indent, 125)))
  }

  function DumpElements(fs: Floats, j: Json, i: nat, st: Style, inner: nat): Text
    requires j.Array? && i <= |j.a|
    decreases j, 0, |j.a| - i
  {
    if i == |j.a| then []
    else
      Spaces(inner) + (DumpAt(fs, j.a[i], st, inner)
        + (if i + 1 == |j.a| then [] else [44] + (Break(st) + DumpElements(fs, j, i + 1, st, inner))))
  }

  function KeyText(k: Text, st: Style): Text {
    Quoted(k) + ([58] + (if st.pretty then [SPACE] else []))
  }

  function DumpMembers(fs: Floats, j: Json, ks: seq<Text>, st: Style, inner: nat): Text
    requires j.Object? && forall k | k in ks :: k in j.m
    decreases j, 0, |ks|
  {
    if ks == [] then []
    else
      Spaces(inner) + (KeyText(ks[0], st) + (DumpAt(fs, j.m[ks[0]], st, inner)
        + (if |ks| == 1 then [] else [44] + (Break(st) + DumpMembers(fs, j, ks[1..], st, inner)))))
  }

  /** The public dump: a non-negative indent selects pretty printing. */
  function Dump(fs: Floats, j: Json, indent: int): Text {
    DumpAt(fs, j, if indent >= 0 then Style(true, indent) else Style(false, 0), 0)
  }

  // -------------------------------------------------------------- parse

  function Measure(t: Token, s: Text): nat { |s| + if t.TEnd? then 0 else 1 }

  lemma ScanMeasure(s: Text)
    ensures Measure(Scan(s).0, Scan(s).1) <= |s|
  {
  }

  /** A parsed value, the token behind it and the text behind that token. */
  datatype Parsed = Parsed(value: Json, next: Token, rest: Text)

  function Behind(j: Json, s: Text): Parsed {
    var (t, r) := Scan(s);
    Parsed(j, t, r)
  }

  /** parser::parse_internal on the last token read and the text behind it. */
  function ParseValue(fs: Floats, t: Token, s: Text): (r: Result<Parsed>)
    ensures r.Ok? ==> Measure(r.value.next, r.value.rest) <= |s|
    decreases Measure(t, s), 0
  {
    ScanMeasure(s);
    match t
    case TBeginObject =>
      var (t1, s1) := Scan(s);
      ScanMeasure(s1);
      if t1.TEndObject? then Ok(Behind(Object(map[]), s1))
      else if t1.TComma? then Err(InvalidArgument)
      else ParseMembers(fs, t1, s1, map[])
    case TBeginArray =>
      var (t1, s1) := Scan(s);
      ScanMeasure(s1);
      if t1.TEndArray? then Ok(Behind(Array([]), s1))
      else if t1.TComma? then Err(InvalidArgument)
      else ParseElements(fs, t1, s1, [])
    case TNull => Ok(Behind(Null, s))
    case TTrue => Ok(Behind(Boolean(true), s))
    case TFalse => Ok(Behind(Boolean(false), s))
    case TString(body) => var x :- Unescape(body); Ok(Behind(String(x), s))
    case TNumber(text) => if text == [] then Err(AssertionFailed) else Ok(Behind(NumberValue(fs, text), s))
    case _ => Err(InvalidArgument)
  }

  /** The key and value pairs from a key on, assigned into m in turn. */
  function ParseMembers(fs: Floats, t: Token, s: Text, m: map<Text, Json>): (r: Result<Parsed>)
    ensures r.Ok? ==> Measure(r.value.next, r.value.rest) <= |s|
    decreases Measure(t, s), 1
  {
    if !t.TString? then Err(InvalidArgument)
    else
      var key :- Unescape(t.body);
      var (t1, s1) := Scan(s);
      ScanMeasure(s);
      if !t1.TColon? then Err(InvalidArgument)
      else
        var (t2, s2) := Scan(s1);
        ScanMeasure(s1);
        var p :- ParseValue(fs, t2, s2);
        var m1 := m[key := p.value];
        ScanMeasure(p.rest);
        if p.next.TComma? then
          var (t3, s3) := Scan(p.rest);
          ParseMembers(fs, t3, s3, m1)
        else if p.next.TEndObject? then Ok(Behind(Object(m1), p.rest))
        else Err(InvalidArgument)
  }

  /** The values from the token t on, pushed onto a in turn. */
  function ParseElements(fs: Floats, t: Token, s: Text, a: seq<Json>): (r: Result<Parsed>)
    ensures r.Ok? ==> Measure(r.value.next, r.value.rest) <= |s|
    decreases Measure(t, s), 1
  {
    var p :- ParseValue(fs, t, s);
    ScanMeasure(p.rest);
    if p.next.TComma? then
      var (t1, s1) := Scan(p.rest);
      ParseElements(fs, t1, s1, a + [p.value])
    else if p.next.TEndArray? then Ok(Behind(Array(a + [p.value]), p.rest))
    else Err(InvalidArgument)
  }

  /** parser::parse. */
  function Parse(fs: Floats, s: Text): Result<Json> {
    var (t, r) := Scan(s);
    var p :- ParseValue(fs, t, r);
    if p.next.TEnd? then Ok(p.value) else Err(InvalidArgument)
  }

  // ---------------------------------------------------------- round trip

  predicate NoFloat(j: Json) {
    match j
    case Float(_) => false
    case Array(a) => forall i | 0 <= i < |a| :: NoFloat(a[i])
    case Object(m) => forall k | k in m :: NoFloat(m[k])
    case _ => true
  }

  /** Every string and key is valid UTF-8. */
  ghost predicate Clean(j: Json) {
    match j
    case String(s) => Utf8.Valid(s)
    case Array(a) => forall i | 0 <= i < |a| :: Clean(a[i])
    case Object(m) => forall k | k in m :: Utf8.Valid(k) && Clean(m[k])
    case _ => true
  }

  ghost predicate Printable(j: Json) { NoFloat(j) && Clean(j) }

  /** Parsing from the start of s. */
  function ParseFrom(fs: Floats, s: Text): Result<Parsed> {
    ParseValue(fs, Scan(s).0, Scan(s).1)
  }

  lemma ScalarBack(fs: Floats, j: Json, st: Style, indent: nat, rest: Text)
    requires Printable(j) && IsPrimitive(j) && Delimited(rest)
    ensures ParseFrom(fs, DumpAt(fs, j, st, indent) + rest) == Ok(Behind(Normalize(j), rest))
  {
    hide Scan, Utf8.Valid, Print, NumberValue, Escape, Unescape, Quoted, Delimited;
    match j
    case Null => ScanLiteral(LITERAL_NULL, rest);
    case Boolean(b) => ScanLiteral(if b then LITERAL_TRUE else LITERAL_FALSE, rest);
    case Integer(i) => ScanNumber(i, rest); PrintValue(fs, i);
    case Unsigned(u) => ScanNumber(u, rest); PrintValue(fs, u);
    case String(s) => ScanQuoted(s, rest); UnescapeEscape(s);
    case _ =>
  }

  lemma BreakSpaces(st: Style, n: nat, t: Text)
    ensures Scan(Spaces(n) + t) == Scan(t)
    ensures Scan(Break(st) + t) == Scan(t)
  {
    ScanBlanks(Spaces(n), t);
    ScanBlanks(Break(st), t);
  }

  lemma ClosingJoin(st: Style, indent: nat, c: byte, rest: Text)
    ensures Closing(st, indent, c) + rest == Break(st) + (Spaces(indent) + ([c] + rest))
  {
    hide Break, Spaces;
    assert Spaces(indent) + [c] + rest == Spaces(indent) + ([c] + rest);
  }

  lemma ClosingScan(st: Style, indent: nat, c: byte, rest: Text)
    requires Punctuation(c) != TError
    ensures Scan(Closing(st, indent, c) + rest) == (Punctuation(c), rest)
  {
    hide Scan, Closing, Punctuation;
    ClosingJoin(st, indent, c, rest);
    BreakSpaces(st, indent, Spaces(indent) + ([c] + rest));
    BreakSpaces(st, indent, [c] + rest);
    ScanPunctuation(c, rest);
  }

  lemma ClosingDelimits(st: Style, indent: nat, c: byte, rest: Text)
    requires c == 93 || c == 125
    ensures Delimited(Closing(st, indent, c) + rest)
  {
    var s := Closing(st, indent, c) + rest;
    assert s != [] && s[0] == Closing(st, indent, c)[0];
    if indent > 0 { assert Spaces(indent)[0] in Spaces(indent); }
  }

  lemma {:induction false} ValueBack(fs: Floats, j: Json, st: Style, indent: nat, rest: Text)
    requires Printable(j) && Delimited(rest)
    ensures ParseFrom(fs, DumpAt(fs, j, st, indent) + rest) == Ok(Behind(Normalize(j), rest))
    decreases j, 1, 0
  {
    hide ParseFrom, DumpAt, Normalize, Behind, Clean, NoFloat;
    if j.Array? {
      if j.a == [] { EmptyBack(fs, j, st, indent, rest); } else { ArrayBack(fs, j, st, indent, rest); }
    } else if j.Object? {
      if j.m == map[] { EmptyBack(fs, j, st, indent, rest); } else { ObjectBack(fs, j, st, indent, rest); }
    } else {
      ScalarBack(fs, j, st, indent, rest);
    }
  }

  lemma ArrayOpens(fs: Floats, s: Text)
    ensures var (t, r) := Scan(s);
      if t.TEndArray? then ParseValue(fs, TBeginArray, s) == Ok(Behind(Array([]), r))
      else !t.TComma? ==> ParseValue(fs, TBeginArray, s) == ParseElements(fs, t, r, [])
  {
    hide Scan, ParseElements, Behind;
  }

  lemma ObjectOpens(fs: Floats, s: Text)
    ensures var (t, r) := Scan(s);
      if t.TEndObject? then ParseValue(fs, TBeginObject, s) == Ok(Behind(Object(map[]), r))
      else !t.TComma? ==> ParseValue(fs, TBeginObject, s) == ParseMembers(fs, t, r, map[])
  {
    hide Scan, ParseMembers, Behind;
  }

  lemma EmptyBack(fs: Floats, j: Json, st: Style, indent: nat, rest: Text)
    requires j == Array([]) || j == Object(map[])
    ensures ParseFrom(fs, DumpAt(fs, j, st, indent) + rest) == Ok(Behind(Normalize(j), rest))
  {
    var open: byte, close: byte := if j.Array? then 91 else 123, if j.Array? then 93 else 125;
    assert DumpAt(fs, j, st, indent) == [open, close];
    assert Normalize(j) == j by {
      if j.Array? { assert Normalize(j).a == []; } else { assert Normalize(j).m == map[]; }
    }
    hide Scan, Normalize, DumpAt, ParseValue, Behind;
    assert [open, close] + rest == [open] + ([close] + rest);
    ScanPunctuation(open, [close] + rest);
    ScanPunctuation(close, rest);
    if j.Array? { ArrayOpens(fs, [close] + rest); } else { ObjectOpens(fs, [close] + rest); }
  }

  lemma FirstToken(fs: Floats, t: Token, s: Text)
    requires ParseValue(fs, t, s).Ok?
    ensures !t.TEndArray? && !t.TEndObject? && !t.TComma?
  {
    hide Scan, ParseMembers, ParseElements, NumberValue, Unescape;
  }

  lemma ElementsFirst(fs: Floats, t: Token, s: Text, a: seq<Json>)
    requires ParseElements(fs, t, s, a).Ok?
    ensures ParseValue(fs, t, s).Ok?
  {
    hide Scan, ParseValue;
  }

  lemma OpenElements(fs: Floats, y: Text, x: Text)
    requires Scan(y) == Scan(x)
    ensures var r := ParseElements(fs, Scan(x).0, Scan(x).1, []); r.Ok? ==> ParseFrom(fs, [91] + y) == r
  {
    hide Scan, ParseValue, ParseElements;
    ScanPunctuation(91, y);
    ArrayOpens(fs, y);
    if ParseElements(fs, Scan(x).0, Scan(x).1, []).Ok? {
      ElementsFirst(fs, Scan(x).0, Scan(x).1, []);
      FirstToken(fs, Scan(x).0, Scan(x).1);
    }
  }

  lemma Append4(open: byte, b: Text, es: Text, close: Text, rest: Text)
    ensures [open] + (b + (es + close)) + rest == [open] + (b + (es + (close + rest)))
  {
    assert es + close + rest == es + (close + rest);
    assert b + (es + close) + rest == b + (es + (close + rest));
  }

  lemma ArrayText(fs: Floats, j: Json, st: Style, indent: nat)
    requires j.Array? && j.a != []
    ensures DumpAt(fs, j, st, indent)
      == [91] + (Break(st) + (DumpElements(fs, j, 0, st, Inner(st, indent)) + Closing(st, indent, 93)))
  {
    hide DumpElements, Inner, Closing, Break;
  }

  lemma ObjectText(fs: Floats, j: Json, st: Style, indent: nat)
    requires j.Object? && j.m != map[]
    ensures DumpAt(fs, j, st, indent) == [123] + (Break(st)
      + (DumpMembers(fs, j, SortedKeys(j.m.Keys), st, Inner(st, indent)) + Closing(st, indent, 125)))
  {
    hide DumpMembers, Inner, Closing, Break, SortedKeys;
  }

  lemma ArrayUnfold(fs: Floats, j: Json, st: Style, indent: nat, rest: Text)
    requires j.Array? && j.a != []
    ensures DumpAt(fs, j, st, indent) + rest
      == [91] + (Break(st) + (DumpElements(fs, j, 0, st, Inner(st, indent)) + (Closing(st, indent, 93) + rest)))
  {
    ArrayText(fs, j, st, indent);
    hide DumpAt, DumpElements, Inner, Closing, Break;
    Append4(91, Break(st), DumpElements(fs, j, 0, st, Inner(st, indent)), Closing(st, indent, 93), rest);
  }

  lemma ObjectUnfold(fs: Floats, j: Json, st: Style, indent: nat, rest: Text)
    requires j.Object? && j.m != map[]
    ensures DumpAt(fs, j, st, indent) + rest == [123] + (Break(st)
      + (DumpMembers(fs, j, SortedKeys(j.m.Keys), st, Inner(st, indent)) + (Closing(st, indent, 125) + rest)))
  {
    ObjectText(fs, j, st, indent);
    hide DumpAt, DumpMembers, Inner, Closing, Break, SortedKeys;
    Append4(123, Break(st), DumpMembers(fs, j, SortedKeys(j.m.Keys), st, Inner(st, indent)), Closing(st, indent, 125), rest);
  }

  lemma NormalizedWhole(j: Json)
    requires j.Array?
    ensures Array([] + NormalizedFrom(j, 0)) == Normalize(j)
  {
    assert [] + NormalizedFrom(j, 0) == Normalize(j).a;
  }

  lemma {:induction false} ArrayBack(fs: Floats, j: Json, st: Style, indent: nat, rest: Text)
    requires j.Array? && j.a != [] && Printable(j)
    ensures ParseFrom(fs, DumpAt(fs, j, st, indent) + rest) == Ok(Behind(Normalize(j), rest))
    decreases j, 0, |j.a| + 1
  {
    var inner := Inner(st, indent);
    var es, tail := DumpElements(fs, j, 0, st, inner), Closing(st, indent, 93) + rest;
    var x := es + tail;
    ArrayUnfold(fs, j, st, indent, rest);
    hide DumpAt, DumpElements, ParseFrom, Scan, Inner, Closing, Behind, ParseElements, Clean, NoFloat, Delimited, Normalize,
      NormalizedFrom;
    BreakSpaces(st, indent, x);
    ClosingScan(st, indent, 93, rest);
    ClosingDelimits(st, indent, 93, rest);
    ElementsBack(fs, j, 0, st, inner, tail, rest, []);
    OpenElements(fs, Break(st) + x, x);
    NormalizedWhole(j);
  }

  /** The text behind element i of an array. */
  function AfterElement(fs: Floats, j: Json, i: nat, st: Style, inner: nat, tail: Text): Text
    requires j.Array? && i < |j.a|
  {
    if i + 1 == |j.a| then tail else [44] + (Break(st) + (DumpElements(fs, j, i + 1, st, inner) + tail))
  }

  lemma ElementsSplit(fs: Floats, j: Json, i: nat, st: Style, inner: nat, tail: Text)
    requires j.Array? && i < |j.a|
    ensures DumpElements(fs, j, i, st, inner) + tail
      == Spaces(inner) + (DumpAt(fs, j.a[i], st, inner) + AfterElement(fs, j, i, st, inner, tail))
  {
    hide DumpAt;
    if i + 1 < |j.a| {
      var more := DumpElements(fs, j, i + 1, st, inner);
      assert [44] + (Break(st) + more) + tail == [44] + (Break(st) + (more + tail));
    }
  }

  lemma NextElement(fs: Floats, t: Token, s: Text, a: seq<Json>, v: Json, after: Text)
    requires ParseValue(fs, t, s) == Ok(Behind(v, after))
    ensures Scan(after).0 == TEndArray ==>
      ParseElements(fs, t, s, a) == Ok(Behind(Array(a + [v]), Scan(after).1))
    ensures Scan(after).0 == TComma ==>
      ParseElements(fs, t, s, a) == ParseElements(fs, Scan(Scan(after).1).0, Scan(Scan(after).1).1, a + [v])
  {
    hide Scan, ParseValue;
  }

  lemma ElementScan(fs: Floats, j: Json, i: nat, st: Style, inner: nat, tail: Text)
    requires j.Array? && i < |j.a|
    ensures Scan(DumpElements(fs, j, i, st, inner) + tail)
      == Scan(DumpAt(fs, j.a[i], st, inner) + AfterElement(fs, j, i, st, inner, tail))
  {
    ElementsSplit(fs, j, i, st, inner, tail);
    hide Scan, DumpElements, DumpAt;
    BreakSpaces(st, inner, DumpAt(fs, j.a[i], st, inner) + AfterElement(fs, j, i, st, inner, tail));
  }

  lemma CommaScan(st: Style, more: Text)
    ensures var x := [44] + (Break(st) + more); Scan(x).0 == TComma && Scan(Scan(x).1) == Scan(more) && Delimited(x)
  {
    ScanPunctuation(44, Break(st) + more);
    BreakSpaces(st, 0, more);
    hide Scan;
  }

  lemma {:induction false} ElementsBack(fs: Floats, j: Json, i: nat, st: Style, inner: nat, tail: Text, rest: Text, a: seq<Json>)
    requires j.Array? && i < |j.a| && Printable(j)
    requires Delimited(tail) && Scan(tail) == (TEndArray, rest)
    ensures var x := DumpElements(fs, j, i, st, inner) + tail;
      ParseElements(fs, Scan(x).0, Scan(x).1, a) == Ok(Behind(Array(a + NormalizedFrom(j, i)), rest))
    decreases j, 0, |j.a| - i
  {
    var e, after := j.a[i], AfterElement(fs, j, i, st, inner, tail);
    var x := DumpElements(fs, j, i, st, inner) + tail;
    ElementScan(fs, j, i, st, inner, tail);
    assert Printable(e);
    NormalizedPush(j, i, a);
    hide Scan, DumpElements, DumpAt, ParseElements, ParseValue, Normalize, NormalizedFrom, Behind, Clean, NoFloat, Delimited;
    if i + 1 < |j.a| {
      var more := DumpElements(fs, j, i + 1, st, inner) + tail;
      CommaScan(st, more);
      ValueBack(fs, e, st, inner, after);
      NextElement(fs, Scan(x).0, Scan(x).1, a, Normalize(e), after);
      ElementsBack(fs, j, i + 1, st, inner, tail, rest, a + [Normalize(e)]);
    } else {
      ValueBack(fs, e, st, inner, after);
      NextElement(fs, Scan(x).0, Scan(x).1, a, Normalize(e), after);
    }
  }

  lemma NormalizedPush(j: Json, i: nat, a: seq<Json>)
    requires j.Array? && i < |j.a|
    ensures a + NormalizedFrom(j, i) == a + [Normalize(j.a[i])] + NormalizedFrom(j, i + 1)
    ensures i + 1 == |j.a| ==> a + NormalizedFrom(j, i) == a + [Normalize(j.a[i])]
  {
    hide Normalize;
    assert NormalizedFrom(j, i) == [Normalize(j.a[i])] + NormalizedFrom(j, i + 1);
  }

  lemma MembersFirst(fs: Floats, t: Token, s: Text, m: map<Text, Json>)
    ensures ParseMembers(fs, t, s, m).Ok? ==> t.TString?
  {
  }

  lemma OpenMembers(fs: Floats, y: Text, x: Text)
    requires Scan(y) == Scan(x)
    ensures var r := ParseMembers(fs, Scan(x).0, Scan(x).1, map[]); r.Ok? ==> ParseFrom(fs, [123] + y) == r
  {
    hide Scan, ParseValue, ParseMembers;
    ScanPunctuation(123, y);
    MembersFirst(fs, Scan(x).0, Scan(x).1, map[]);
    ObjectOpens(fs, y);
  }

  lemma {:induction false} ObjectBack(fs: Floats, j: Json, st: Style, indent: nat, rest: Text)
    requires j.Object? && j.m != map[] && Printable(j)
    ensures ParseFrom(fs, DumpAt(fs, j, st, indent) + rest) == Ok(Behind(Normalize(j), rest))
    decreases j, 0, |SortedKeys(j.m.Keys)| + 1
  {
    hide SortedKeys, Break, Spaces, NormalizedAt, Printable;
    var inner, ks := Inner(st, indent), SortedKeys(j.m.Keys);
    var ms, tail := DumpMembers(fs, j, ks, st, inner), Closing(st, indent, 125) + rest;
    var x := ms + tail;
    assert ks != [] by { var k :| k in j.m; assert k in ks; }
    ObjectUnfold(fs, j, st, indent, rest);
    hide DumpAt, DumpMembers, ParseFrom, Scan, Inner, Closing, SortedKeys, Normalize, Behind, ParseMembers, Clean, NoFloat, Delimited;
    BreakSpaces(st, indent, x);
    ClosingScan(st, indent, 125, rest);
    ClosingDelimits(st, indent, 125, rest);
    MembersBack(fs, j, ks, st, inner, tail, rest, map[]);
    OpenMembers(fs, Break(st) + x, x);
    NormalizedAll(j, ks);
  }

  function AfterMember(fs: Floats, j: Json, ks: seq<Text>, st: Style, inner: nat, tail: Text): Text
    requires j.Object? && ks != [] && forall k | k in ks :: k in j.m
  {
    if |ks| == 1 then tail else [44] + (Break(st) + (DumpMembers(fs, j, ks[1..], st, inner) + tail))
  }

  /** The text from behind a key on: colon, optional space, value, and what follows. */
  function KeyTail(st: Style, value: Text): Text {
    [58] + ((if st.pretty then [SPACE] else []) + value)
  }

  lemma MembersUnfold(fs: Floats, j: Json, ks: seq<Text>, st: Style, inner: nat)
    requires j.Object? && ks != [] && forall k | k in ks :: k in j.m
    ensures var end := if |ks| == 1 then [] else [44] + (Break(st) + DumpMembers(fs, j, ks[1..], st, inner));
      DumpMembers(fs, j, ks, st, inner)
        == Spaces(inner) + (KeyText(ks[0], st) + (DumpAt(fs, j.m[ks[0]], st, inner) + end))
  {
    hide DumpAt, KeyText, Spaces, Break;
  }

  lemma AfterUnfold(b: Text, more: Text, tail: Text)
    ensures [44] + (b + more) + tail == [44] + (b + (more + tail))
  {
    assert b + more + tail == b + (more + tail);
  }

  lemma MembersSplit(fs: Floats, j: Json, ks: seq<Text>, st: Style, inner: nat, tail: Text)
    requires j.Object? && ks != [] && forall k | k in ks :: k in j.m
    ensures DumpMembers(fs, j, ks, st, inner) + tail == Spaces(inner) + (Quoted(ks[0])
      + KeyTail(st, DumpAt(fs, j.m[ks[0]], st, inner) + AfterMember(fs, j, ks, st, inner, tail)))
  {
    MembersUnfold(fs, j, ks, st, inner);
    hide DumpAt, Quoted, Break, Spaces, DumpMembers;
    var q, v := Quoted(ks[0]), DumpAt(fs, j.m[ks[0]], st, inner);
    var sp: Text := if st.pretty then [SPACE] else [];
    var end := if |ks| == 1 then [] else [44] + (Break(st) + DumpMembers(fs, j, ks[1..], st, inner));
    if |ks| > 1 { AfterUnfold(Break(st), DumpMembers(fs, j, ks[1..], st, inner), tail); } else { assert [] + tail == tail; }
    assert end + tail == AfterMember(fs, j, ks, st, inner, tail);
    hide AfterMember;
    RegroupMember(Spaces(inner), q, sp, v, end, tail);
  }

  lemma RegroupMember(w: Text, q: Text, sp: Text, v: Text, end: Text, tail: Text)
    ensures w + (q + ([58] + sp) + (v + end)) + tail == w + (q + ([58] + (sp + (v + (end + tail)))))
  {
    var x := v + (end + tail);
    Regroup(v, end, tail);
    Regroup(q + ([58] + sp), v + end, tail);
    Regroup([58], sp, x);
    Regroup(q, [58] + sp, x);
  }

  lemma NextMember(fs: Floats, t: Token, s: Text, m: map<Text, Json>, k: Text, value: Text, v: Json, after: Text)
    requires t.TString? && Unescape(t.body) == Ok(k) && Scan(s) == (TColon, value)
    requires ParseFrom(fs, value) == Ok(Behind(v, after))
    ensures Scan(after).0 == TEndObject ==>
      ParseMembers(fs, t, s, m) == Ok(Behind(Object(m[k := v]), Scan(after).1))
    ensures Scan(after).0 == TComma ==>
      ParseMembers(fs, t, s, m) == ParseMembers(fs, Scan(Scan(after).1).0, Scan(Scan(after).1).1, m[k := v])
  {
    hide Scan, ParseValue, Unescape;
  }

  lemma KeyScan(fs: Floats, w: Text, k: Text, st: Style, y: Text)
    requires Utf8.Valid(k) && forall c | c in w :: IsBlank(c)
    ensures Scan(w + (Quoted(k) + KeyTail(st, y))) == (TString(Escape(k)), KeyTail(st, y))
    ensures Scan(KeyTail(st, y)).0 == TColon && ParseFrom(fs, Scan(KeyTail(st, y)).1) == ParseFrom(fs, y)
  {
    hide Scan, ParseFrom, Escape, Quoted;
    ScanBlanks(w, Quoted(k) + KeyTail(st, y));
    ScanQuoted(k, KeyTail(st, y));
    var sp: Text := if st.pretty then [SPACE] else [];
    ScanPunctuation(58, sp + y);
    ScanBlanks(sp, y);
    ParseFromScan(fs, sp + y, y);
  }

  lemma MemberScan(fs: Floats, j: Json, ks: seq<Text>, st: Style, inner: nat, tail: Text)
    requires j.Object? && ks != [] && (forall k | k in ks :: k in j.m) && Utf8.Valid(ks[0])
    ensures var y := DumpAt(fs, j.m[ks[0]], st, inner) + AfterMember(fs, j, ks, st, inner, tail);
      Scan(DumpMembers(fs, j, ks, st, inner) + tail) == (TString(Escape(ks[0])), KeyTail(st, y))
      && Scan(KeyTail(st, y)).0 == TColon && ParseFrom(fs, Scan(KeyTail(st, y)).1) == ParseFrom(fs, y)
  {
    MembersSplit(fs, j, ks, st, inner, tail);
    hide Scan, ParseFrom, Escape, Quoted, DumpAt, DumpMembers, AfterMember, Utf8.Valid, KeyTail;
    KeyScan(fs, Spaces(inner), ks[0], st, DumpAt(fs, j.m[ks[0]], st, inner) + AfterMember(fs, j, ks, st, inner, tail));
  }

  lemma PrintableMember(j: Json, ks: seq<Text>, k: Text)
    requires j.Object? && k in ks && (forall k | k in ks :: k in j.m) && Printable(j)
    ensures Printable(j.m[k]) && Utf8.Valid(k)
  {
    hide Utf8.Valid;
  }

  lemma JoinMember(j: Json, ks: seq<Text>, m: map<Text, Json>)
    requires j.Object? && ks != [] && forall k | k in ks :: k in j.m
    ensures var next := m[ks[0] := Normalize(j.m[ks[0]])];
      m + NormalizedAt(j, ks) == if |ks| == 1 then next else next + NormalizedAt(j, ks[1..])
  {
    MembersJoin(j, ks, m);
    hide Normalize;
    if |ks| == 1 {
      var next := m[ks[0] := Normalize(j.m[ks[0]])];
      assert ks[1..] == [];
      assert next + NormalizedAt(j, []) == next;
    }
  }

  lemma AfterMemberCases(fs: Floats, j: Json, ks: seq<Text>, st: Style, inner: nat, tail: Text)
    requires j.Object? && ks != [] && forall k | k in ks :: k in j.m
    ensures AfterMember(fs, j, ks, st, inner, tail)
      == if |ks| == 1 then tail else [44] + (Break(st) + (DumpMembers(fs, j, ks[1..], st, inner) + tail))
  {
    hide DumpMembers, Break;
  }

  lemma {:induction false} MembersBack(fs: Floats, j: Json, ks: seq<Text>, st: Style, inner: nat, tail: Text, rest: Text, m: map<Text, Json>)
    requires j.Object? && ks != [] && (forall k | k in ks :: k in j.m) && Printable(j)
    requires Delimited(tail) && Scan(tail) == (TEndObject, rest)
    ensures var x := DumpMembers(fs, j, ks, st, inner) + tail;
      ParseMembers(fs, Scan(x).0, Scan(x).1, m) == Ok(Behind(Object(m + NormalizedAt(j, ks)), rest))
    decreases j, 0, |ks|
  {
    var k, after := ks[0], AfterMember(fs, j, ks, st, inner, tail);
    var v, x := j.m[k], DumpMembers(fs, j, ks, st, inner) + tail;
    PrintableMember(j, ks, k);
    JoinMember(j, ks, m);
    hide Printable, NormalizedAt, AfterMember, Scan, DumpMembers, DumpAt, ParseMembers, ParseFrom, Normalize, Behind, Escape, Unescape, Quoted, Clean, NoFloat, Utf8.Valid, Delimited, KeyTail;
    MemberScan(fs, j, ks, st, inner, tail);
    UnescapeEscape(k);
    AfterMemberCases(fs, j, ks, st, inner, tail);
    if |ks| > 1 {
      var more := DumpMembers(fs, j, ks[1..], st, inner) + tail;
      CommaScan(st, more);
      ValueBack(fs, v, st, inner, after);
      NextMember(fs, Scan(x).0, Scan(x).1, m, k, Scan(Scan(x).1).1, Normalize(v), after);
      MembersBack(fs, j, ks[1..], st, inner, tail, rest, m[k := Normalize(v)]);
    } else {
      ValueBack(fs, v, st, inner, after);
      NextMember(fs, Scan(x).0, Scan(x).1, m, k, Scan(Scan(x).1).1, Normalize(v), after);
    }
  }

  lemma ParseFromScan(fs: Floats, x: Text, y: Text)
    requires Scan(x) == Scan(y)
    ensures ParseFrom(fs, x) == ParseFrom(fs, y)
  {
  }

  // ------------------------------------------------- what a parse gives

  ghost predicate CleanMembers(m: map<Text, Json>) { forall k | k in m :: Utf8.Valid(k) && Clean(m[k]) }

  ghost predicate CleanElements(a: seq<Json>) { forall i | 0 <= i < |a| :: Clean(a[i]) }

  /** Whatever the text, a parsed document holds only valid UTF-8. */
  lemma {:induction false} ParsedClean(fs: Floats, t: Token, s: Text)
    requires Scanned(t) && ParseValue(fs, t, s).Ok?
    ensures Clean(ParseValue(fs, t, s).value.value)
    decreases Measure(t, s), 0
  {
    ScanMeasure(s);
    ScanScanned(s);
    hide Scan, Scanned, Utf8.Valid, Unescape, ParseElements, ParseMembers;
    var (t1, s1) := Scan(s);
    if t.TBeginObject? {
      ObjectOpens(fs, s);
      if !t1.TEndObject? { ParsedMembersClean(fs, t1, s1, map[]); }
    } else if t.TBeginArray? {
      ArrayOpens(fs, s);
      if !t1.TEndArray? { ParsedElementsClean(fs, t1, s1, []); }
    } else {
      ParsedScalarClean(fs, t, s);
    }
  }

  lemma ParsedScalarClean(fs: Floats, t: Token, s: Text)
    requires Scanned(t) && ParseValue(fs, t, s).Ok? && !t.TBeginObject? && !t.TBeginArray?
    ensures Clean(ParseValue(fs, t, s).value.value)
  {
    hide Scan, Body, Utf8.Valid, Unescape;
    if t.TString? { UnescapeValid(t.body); }
  }

  lemma ElementsUnfold(fs: Floats, t: Token, s: Text, a: seq<Json>)
    requires ParseElements(fs, t, s, a).Ok?
    ensures ParseValue(fs, t, s).Ok?
    ensures var p := ParseValue(fs, t, s).value; var (t1, s1) := Scan(p.rest);
      if p.next.TComma? then ParseElements(fs, t, s, a) == ParseElements(fs, t1, s1, a + [p.value])
      else ParseElements(fs, t, s, a).value.value == Array(a + [p.value])
  {
    hide Scan, ParseValue;
  }

  /** A key, a colon and a value are read; then either the next member follows or this one ends the object. */
  predicate MemberRead(fs: Floats, t: Token, s: Text, m: map<Text, Json>) {
    && t.TString? && Unescape(t.body).Ok? && Scan(s).0.TColon? && ParseFrom(fs, Scan(s).1).Ok?
    && var p := ParseFrom(fs, Scan(s).1).value;
       var m1 := m[Unescape(t.body).value := p.value];
       var r := ParseMembers(fs, t, s, m);
       if p.next.TComma? then r == ParseMembers(fs, Scan(p.rest).0, Scan(p.rest).1, m1)
       else r.Ok? && r.value.value == Object(m1)
  }

  lemma MembersStep(fs: Floats, t: Token, s: Text, m: map<Text, Json>)
    ensures ParseMembers(fs, t, s, m).Ok? ==> MemberRead(fs, t, s, m)
  {
    hide Scan, ParseValue, Unescape;
  }

  lemma {:induction false} ParsedElementsClean(fs: Floats, t: Token, s: Text, a: seq<Json>)
    requires Scanned(t) && CleanElements(a) && ParseElements(fs, t, s, a).Ok?
    ensures Clean(ParseElements(fs, t, s, a).value.value)
    decreases Measure(t, s), 1
  {
    ElementsUnfold(fs, t, s, a);
    ParsedClean(fs, t, s);
    var p := ParseValue(fs, t, s).value;
    ScanMeasure(p.rest);
    ScanScanned(p.rest);
    hide Scan, ParseValue, ParseElements, Scanned;
    if p.next.TComma? {
      ParsedElementsClean(fs, Scan(p.rest).0, Scan(p.rest).1, a + [p.value]);
    }
  }

  lemma {:induction false} ParsedMembersClean(fs: Floats, t: Token, s: Text, m: map<Text, Json>)
    requires Scanned(t) && CleanMembers(m)
    ensures ParseMembers(fs, t, s, m).Ok? ==> Clean(ParseMembers(fs, t, s, m).value.value)
    decreases Measure(t, s), 1
  {
    MembersStep(fs, t, s, m);
    if ParseMembers(fs, t, s, m).Err? { return; }
    UnescapeValid(t.body);
    var (t1, s1) := Scan(s);
    var (t2, s2) := Scan(s1);
    ScanMeasure(s);
    ScanMeasure(s1);
    ScanScanned(s1);
    ParsedClean(fs, t2, s2);
    var p := ParseValue(fs, t2, s2).value;
    ScanMeasure(p.rest);
    ScanScanned(p.rest);
    hide Scan, ParseValue, ParseMembers, Scanned, Unescape, Utf8.Valid;
    if p.next.TComma? {
      ParsedMembersClean(fs, Scan(p.rest).0, Scan(p.rest).1, m[Unescape(t.body).value := p.value]);
    }
  }

  lemma {:induction false} NormalizeClean(j: Json)
    ensures Clean(Normalize(j)) <==> Clean(j)
  {
    hide Utf8.Valid;
    match j
    case Array(a) =>
      forall i | 0 <= i < |a| ensures Clean(Normalize(a[i])) <==> Clean(a[i]) { NormalizeClean(a[i]); }
      assert forall i | 0 <= i < |a| :: Normalize(j).a[i] == Normalize(a[i]);
    case Object(m) =>
      forall k | k in m ensures Clean(Normalize(m[k])) <==> Clean(m[k]) { NormalizeClean(m[k]); }
      assert forall k | k in m :: Normalize(j).m[k] == Normalize(m[k]);
    case _ =>
  }

  lemma {:induction false} NoFloatFinite(j: Json)
    requires NoFloat(j)
    ensures AllFinite(j)
  {
    match j
    case Array(a) => forall i | 0 <= i < |a| ensures AllFinite(a[i]) { NoFloatFinite(a[i]); }
    case Object(m) => forall k | k in m ensures AllFinite(m[k]) { NoFloatFinite(m[k]); }
    case _ =>
  }

  lemma {:induction false} EqualClean(x: Json, y: Json)
    requires JsonEq(x, y) && Clean(x)
    ensures Clean(y)
    decreases y
  {
    hide Utf8.Valid;
    match y
    case Array(a) => forall i | 0 <= i < |a| ensures Clean(a[i]) { EqualClean(x.a[i], a[i]); }
    case Object(m) => forall k | k in m ensures Utf8.Valid(k) && Clean(m[k]) { EqualClean(x.m[k], m[k]); }
    case _ =>
  }

  lemma ParseClean(fs: Floats, s: Text)
    requires Parse(fs, s).Ok?
    ensures Clean(Parse(fs, s).value)
  {
    ScanScanned(s);
    ParsedClean(fs, Scan(s).0, Scan(s).1);
    hide ParseValue, Scan, Clean, Scanned;
  }

  /** Every float-free document of valid UTF-8 is parsed back from its text, for every indent. */
  lemma {:induction false} ParseDump(fs: Floats, j: Json, indent: int)
    requires NoFloat(j) && Clean(j)
    ensures Parse(fs, Dump(fs, j, indent)) == Ok(Normalize(j))
  {
    hide DumpAt, ParseValue, Clean, NoFloat, Normalize;
    var st := if indent >= 0 then Style(true, indent) else Style(false, 0);
    var s := DumpAt(fs, j, st, 0);
    assert s + [] == s;
    assert Scan([]) == (TEnd, []);
    hide Scan;
    ValueBack(fs, j, st, 0, []);
  }

  /** Parsing the text of a float-free document gives a document equal to it exactly when every string and key is
      valid UTF-8; then the result is the document itself, with non-negative integers unsigned. */
  lemma {:induction false} TextRoundTrip(fs: Floats, j: Json, indent: int)
    requires NoFloat(j)
    ensures var r := Parse(fs, Dump(fs, j, indent));
      (r.Ok? && JsonEq(r.value, j) <==> Clean(j)) && (r == Ok(Normalize(j)) <==> Clean(j))
  {
    hide Parse, Dump, NoFloat, Clean;
    var r := Parse(fs, Dump(fs, j, indent));
    if Clean(j) {
      ParseDump(fs, j, indent);
      NormalizeEq(j);
      NoFloatFinite(j);
    } else if r.Ok? {
      ParseClean(fs, Dump(fs, j, indent));
      NormalizeClean(j);
      if JsonEq(r.value, j) { EqualClean(r.value, j); }
    }
  }

  // ------------------------------------------- the stream and the parser

  /** The std::ostream that dump writes to. */
  class OutStream {
    var text: Text

    constructor ()
      ensures text == []
    {
      text := [];
    }

    /** basic_json::dump. */
    method Put(fs: Floats, j: Json, st: Style, indent: nat)
      requires indent < TWO32 && st.step < TWO32
      modifies this
      ensures text == old(text) + DumpAt(fs, j, st, indent)
      decreases j, 1
    {
      hide Escape, Quoted, Print;
      match j
      case Null => text := text + LITERAL_NULL;
      case Boolean(b) => text := text + if b then LITERAL_TRUE else LITERAL_FALSE;
      case Integer(i) => text := text + Print(i);
      case Unsigned(u) => text := text + Print(u);
      case Float(bits) => text := text + fs.format(bits);
      case String(s) => PutQuoted(s);
      case Array(a) => PutArray(fs, j, st, indent);
      case Object(m) => PutObject(fs, j, st, indent);
    }

    method PutQuoted(s: Text)
      modifies this
      ensures text == old(text) + Quoted(s)
    {
      hide Escape;
      var e := EscapeString(s);
      text := text + [QUOTE] + e + [QUOTE];
    }

    method PutArray(fs: Floats, j: Json, st: Style, indent: nat)
      requires j.Array? && indent < TWO32 && st.step < TWO32
      modifies this
      ensures text == old(text) + DumpAt(fs, j, st, indent)
      decreases j, 0, 2
    {
      ghost var was := text;
      if j.a == [] { text := text + [91, 93]; return; }
      var inner := Inner(st, indent);
      ArrayText(fs, j, st, indent);
      OuterIndent(st, indent);
      hide DumpAt, DumpElements, Closing, Break, Spaces, Inner;
      text := text + [91] + Break(st);
      PutElements(fs, j, st, inner);
      var outer := if st.pretty then (inner + TWO32 - st.step) % TWO32 else inner;
      text := text + Break(st) + Spaces(outer) + [93];
      ClosePut(was, 91, st, DumpElements(fs, j, 0, st, inner), indent, 93);
    }

    method PutElements(fs: Floats, j: Json, st: Style, inner: nat)
      requires j.Array? && inner < TWO32 && st.step < TWO32
      modifies this
      ensures text == old(text) + DumpElements(fs, j, 0, st, inner)
      decreases j, 0, 1
    {
      ghost var all := text + DumpElements(fs, j, 0, st, inner);
      hide DumpAt, DumpElements, Spaces, Break;
      for i := 0 to |j.a|
        invariant text + DumpElements(fs, j, i, st, inner) == all
      {
        ElementJoin(fs, j, i, st, inner, text);
        text := text + Spaces(inner);
        Put(fs, j.a[i], st, inner);
        if i + 1 < |j.a| { text := text + [44] + Break(st); }
      }
      NoElements(fs, j, st, inner, text);
    }

    method PutMember(fs: Floats, j: Json, k: Text, st: Style, inner: nat)
      requires j.Object? && k in j.m && inner < TWO32 && st.step < TWO32
      modifies this
      ensures var sep: Text := [58] + if st.pretty then [SPACE] else [];
        text == old(text) + Spaces(inner) + Quoted(k) + sep + DumpAt(fs, j.m[k], st, inner)
      decreases j, 0, 0
    {
      hide Spaces, Quoted, DumpAt;
      text := text + Spaces(inner);
      PutQuoted(k);
      text := text + ([58] + if st.pretty then [SPACE] else []);
      Put(fs, j.m[k], st, inner);
    }

    method PutMembers(fs: Floats, j: Json, st: Style, inner: nat)
      requires j.Object? && inner < TWO32 && st.step < TWO32
      modifies this
      ensures text == old(text) + DumpMembers(fs, j, SortedKeys(j.m.Keys), st, inner)
      decreases j, 0, 1
    {
      var ks := SortedKeys(j.m.Keys);
      ghost var all := text + DumpMembers(fs, j, ks, st, inner);
      hide DumpAt, DumpMembers, Spaces, Break, Quoted, SortedKeys;
      while ks != []
        invariant forall k | k in ks :: k in j.m
        invariant text + DumpMembers(fs, j, ks, st, inner) == all
        decreases |ks|
      {
        MemberJoin(fs, j, ks, st, inner, text);
        PutMember(fs, j, ks[0], st, inner);
        if |ks| > 1 { text := text + [44] + Break(st); }
        ks := ks[1..];
      }
      NoMembers(fs, j, st, inner, text);
    }

    method PutObject(fs: Floats, j: Json, st: Style, indent: nat)
      requires j.Object? && indent < TWO32 && st.step < TWO32
      modifies this
      ensures text == old(text) + DumpAt(fs, j, st, indent)
      decreases j, 0, 2
    {
      ghost var was := text;
      if j.m == map[] { text := text + [123, 125]; return; }
      var inner := Inner(st, indent);
      ObjectText(fs, j, st, indent);
      OuterIndent(st, indent);
      hide DumpAt, DumpMembers, Closing, Break, Spaces, Inner, SortedKeys;
      text := text + [123] + Break(st);
      PutMembers(fs, j, st, inner);
      var outer := if st.pretty then (inner + TWO32 - st.step) % TWO32 else inner;
      text := text + Break(st) + Spaces(outer) + [125];
      ClosePut(was, 123, st, DumpMembers(fs, j, SortedKeys(j.m.Keys), st, inner), indent, 125);
    }
  }

  /** Taking the step off again gives the indentation back, wrap-around included. */
  lemma OuterIndent(st: Style, indent: nat)
    requires indent < TWO32 && st.step < TWO32
    ensures indent == if st.pretty then (Inner(st, indent) + TWO32 - st.step) % TWO32 else Inner(st, indent)
  {
  }

  lemma ClosePut(was: Text, open: byte, st: Style, es: Text, indent: nat, close: byte)
    ensures was + [open] + Break(st) + es + Break(st) + Spaces(indent) + [close]
      == was + ([open] + (Break(st) + (es + Closing(st, indent, close))))
  {
    hide Break, Spaces;
    var b, x := Break(st), was + [open] + Break(st) + es;
    assert x + b + Spaces(indent) + [close] == x + (b + (Spaces(indent) + [close]));
    hide Closing;
    var end := Closing(st, indent, close);
    assert x + end == was + ([open] + (b + (es + end)));
  }

  lemma ElementJoin(fs: Floats, j: Json, i: nat, st: Style, inner: nat, o: Text)
    requires j.Array? && i < |j.a|
    ensures var o1 := o + Spaces(inner) + DumpAt(fs, j.a[i], st, inner);
      o + DumpElements(fs, j, i, st, inner) ==
        (if i + 1 < |j.a| then o1 + [44] + Break(st) else o1) + DumpElements(fs, j, i + 1, st, inner)
  {
    hide DumpAt, Spaces, Break;
    var e := DumpAt(fs, j.a[i], st, inner);
    if i + 1 < |j.a| {
      var more := DumpElements(fs, j, i + 1, st, inner);
      assert DumpElements(fs, j, i, st, inner) == Spaces(inner) + (e + ([44] + (Break(st) + more)));
      hide DumpElements;
      Flatten5(o, Spaces(inner), e, Break(st), more);
    } else {
      assert o + (Spaces(inner) + (e + [])) == o + Spaces(inner) + e + [];
    }
  }

  lemma Flatten5(o: Text, w: Text, e: Text, b: Text, more: Text)
    ensures o + (w + (e + ([44] + (b + more)))) == o + w + e + [44] + b + more
  {
    var y := [44] + (b + more);
    assert o + w + e + [44] + b + more == o + w + e + y;
    assert o + w + e + y == o + (w + (e + y));
  }

  lemma NoElements(fs: Floats, j: Json, st: Style, inner: nat, o: Text)
    requires j.Array?
    ensures o + DumpElements(fs, j, |j.a|, st, inner) == o
  {
    assert o + [] == o;
  }

  lemma NoMembers(fs: Floats, j: Json, st: Style, inner: nat, o: Text)
    requires j.Object?
    ensures o + DumpMembers(fs, j, [], st, inner) == o
  {
    assert o + [] == o;
  }

  lemma MemberJoin(fs: Floats, j: Json, ks: seq<Text>, st: Style, inner: nat, o: Text)
    requires j.Object? && ks != [] && forall k | k in ks :: k in j.m
    ensures var sep: Text := [58] + if st.pretty then [SPACE] else [];
      var o1 := o + Spaces(inner) + Quoted(ks[0]) + sep + DumpAt(fs, j.m[ks[0]], st, inner);
      o + DumpMembers(fs, j, ks, st, inner) ==
        (if |ks| > 1 then o1 + [44] + Break(st) else o1) + DumpMembers(fs, j, ks[1..], st, inner)
  {
    MembersUnfold(fs, j, ks, st, inner);
    var sep: Text := [58] + if st.pretty then [SPACE] else [];
    var q, e, more := Quoted(ks[0]), DumpAt(fs, j.m[ks[0]], st, inner), DumpMembers(fs, j, ks[1..], st, inner);
    var end := if |ks| == 1 then [] else [44] + (Break(st) + more);
    assert |ks| == 1 ==> more == [];
    assert KeyText(ks[0], st) == q + sep;
    hide DumpAt, Spaces, Break, DumpMembers, Quoted, KeyText;
    Flatten6(o, Spaces(inner), q, sep, e, end);
    FlattenEnd(o + Spaces(inner) + q + sep + e, Break(st), more);
    assert [] + more == more;
  }

  lemma Flatten6(o: Text, w: Text, q: Text, sep: Text, e: Text, end: Text)
    ensures o + (w + (q + sep + (e + end))) == o + w + q + sep + e + end
  {
    assert q + sep + (e + end) == q + sep + e + end;
    assert o + (w + (q + sep + e + end)) == o + w + (q + sep + e + end);
    assert o + w + (q + sep + e + end) == o + w + q + sep + e + end;
  }

  lemma FlattenEnd(x: Text, b: Text, more: Text)
    ensures x + ([44] + (b + more)) == x + [44] + b + more
  {
  }

  lemma ScanSuffix(s: Text)
    ensures Scan(s).1 == s[|s| - |Scan(s).1|..]
  {
    hide TokenAt;
    SkipSuffix(s);
  }

  lemma {:induction false} SkipSuffix(s: Text)
    ensures SkipBlanks(s) == s[|s| - |SkipBlanks(s)|..]
  {
    if s != [] && IsBlank(s[0]) { SkipSuffix(s[1..]); }
  }

  function ValueOf(r: Result<Parsed>): Result<Json> {
    match r case Ok(p) => Ok(p.value) case Err(e) => Err(e)
  }

  /** The parser over a buffer: the lexer's cursor and the last token. */
  class Parser {
    const fs: Floats
    const content: Text
    var cursor: nat
    var last: Token

    ghost predicate Valid()
      reads this
    {
      cursor <= |content| && Scanned(last)
    }

    ghost function Rest(): Text
      requires Valid()
      reads this
    {
      content[cursor..]
    }

    constructor (fs: Floats, content: Text)
      ensures Valid() && this.fs == fs && this.content == content && cursor == 0
    {
      this.fs, this.content, cursor, last := fs, content, 0, TEnd;
    }

    method GetToken()
      requires Valid()
      modifies this
      ensures Valid() && (last, Rest()) == Scan(old(Rest()))
    {
      ScanSuffix(Rest());
      ScanScanned(Rest());
      hide Scan, Scanned;
      var (t, r) := Scan(content[cursor..]);
      last, cursor := t, |content| - |r|;
    }

    /** parse: the whole text is one value. */
    method ParseDocument() returns (r: Result<Json>)
      requires Valid() && cursor == 0
      modifies this
      ensures r == Parse(fs, content)
    {
      hide Scan, ParseValue;
      assert content[0..] == content;
      GetToken();
      r := ParseInternal();
      if r.Ok? && !last.TEnd? { r := Err(InvalidArgument); }
    }

    method ParseInternal() returns (r: Result<Json>)
      requires Valid()
      modifies this
      ensures Valid() && r == ValueOf(ParseValue(fs, old(last), old(Rest())))
      ensures r.Ok? ==> var p := ParseValue(fs, old(last), old(Rest())).value; last == p.next && Rest() == p.rest
      decreases Measure(last, Rest()), 0
    {
      ghost var s := Rest();
      ScanMeasure(s);
      ArrayOpens(fs, s);
      ObjectOpens(fs, s);
      ScalarValue(fs, last, s);
      hide Scan, Scanned, Unescape, NumberValue, ParseElements, ParseMembers, ParseValue;
      match last
      case TBeginObject =>
        GetToken();
        ghost var s1 := Rest();
        if last.TEndObject? {
          GetToken();
          r := Ok(Object(map[]));
        } else if last.TComma? {
          CommaFirst(fs, s);
          r := Err(InvalidArgument);
        } else {
          r := ParseObject();
        }
      case TBeginArray =>
        GetToken();
        if last.TEndArray? {
          GetToken();
          r := Ok(Array([]));
        } else if last.TComma? {
          CommaFirst(fs, s);
          r := Err(InvalidArgument);
        } else {
          r := ParseArray();
        }
      case TNull => GetToken(); r := Ok(Null);
      case TTrue => GetToken(); r := Ok(Boolean(true));
      case TFalse => GetToken(); r := Ok(Boolean(false));
      case TString(body) =>
        ScannedParts(last);
        var x := GetString(body);
        if x.Err? { return Err(x.error); }
        GetToken();
        r := Ok(String(x.value));
      case TNumber(text) =>
        ScannedParts(last);
        var x := GetNumber(fs, text);
        GetToken();
        r := Ok(x);
      case _ => r := Err(InvalidArgument);
    }

    /** The do-while loop over the members, from the first key on. */
    method ParseObject() returns (r: Result<Json>)
      requires Valid()
      modifies this
      ensures Valid() && r == ValueOf(ParseMembers(fs, old(last), old(Rest()), map[]))
      ensures r.Ok? ==> var p := ParseMembers(fs, old(last), old(Rest()), map[]).value; last == p.next && Rest() == p.rest
      decreases Measure(last, Rest()), 1
    {
      hide Scan, Scanned, Unescape, ParseValue, ParseMembers;
      ghost var all := ParseMembers(fs, last, Rest(), map[]);
      var m: map<Text, Json> := map[];
      while true
        invariant Valid() && all == ParseMembers(fs, last, Rest(), m)
        invariant Measure(last, Rest()) <= old(Measure(last, Rest()))
        decreases Measure(last, Rest())
      {
        ghost var t, s := last, Rest();
        MemberCases(fs, t, s, m);
        if !last.TString? { return Err(InvalidArgument); }
        ScannedParts(last);
        var key := GetString(last.body);
        if key.Err? { return Err(key.error); }
        ScanMeasure(s);
        GetToken();
        if !last.TColon? { return Err(InvalidArgument); }
        ScanMeasure(Rest());
        GetToken();
        ghost var before := Measure(last, Rest());
        var value := ParseInternal();
        if value.Err? { return Err(value.error); }
        m := m[key.value := value.value];
        ScanMeasure(Rest());
        if !last.TComma? { break; }
        GetToken();
      }
      if !last.TEndObject? { return Err(InvalidArgument); }
      GetToken();
      r := Ok(Object(m));
    }

    /** The do-while loop over the elements. */
    method ParseArray() returns (r: Result<Json>)
      requires Valid()
      modifies this
      ensures Valid() && r == ValueOf(ParseElements(fs, old(last), old(Rest()), []))
      ensures r.Ok? ==> var p := ParseElements(fs, old(last), old(Rest()), []).value; last == p.next && Rest() == p.rest
      decreases Measure(last, Rest()), 1
    {
      hide Scan, Scanned, Unescape, ParseValue, ParseElements;
      ghost var all := ParseElements(fs, last, Rest(), []);
      var a: seq<Json> := [];
      while true
        invariant Valid() && all == ParseElements(fs, last, Rest(), a)
        invariant Measure(last, Rest()) <= old(Measure(last, Rest()))
        decreases Measure(last, Rest())
      {
        ElementCases(fs, last, Rest(), a);
        var value := ParseInternal();
        if value.Err? { return Err(value.error); }
        a := a + [value.value];
        ScanMeasure(Rest());
        if !last.TComma? { break; }
        GetToken();
      }
      if !last.TEndArray? { return Err(InvalidArgument); }
      GetToken();
      r := Ok(Array(a));
    }
  }

  lemma ScannedParts(t: Token)
    requires Scanned(t)
    ensures t.TString? ==> Body(t.body)
    ensures t.TNumber? ==> t.text != []
  {
  }

  lemma CommaFirst(fs: Floats, s: Text)
    requires Scan(s).0.TComma?
    ensures ParseValue(fs, TBeginObject, s) == Err(InvalidArgument) && ParseValue(fs, TBeginArray, s) == Err(InvalidArgument)
  {
    hide Scan, ParseElements, ParseMembers;
  }

  lemma ScalarValue(fs: Floats, t: Token, s: Text)
    ensures match t
      case TBeginObject => true
      case TBeginArray => true
      case TNull => ParseValue(fs, t, s) == Ok(Behind(Null, s))
      case TTrue => ParseValue(fs, t, s) == Ok(Behind(Boolean(true), s))
      case TFalse => ParseValue(fs, t, s) == Ok(Behind(Boolean(false), s))
      case TString(body) =>
        ParseValue(fs, t, s) == if Unescape(body).Ok? then Ok(Behind(String(Unescape(body).value), s)) else Err(Unescape(body).error)
      case TNumber(text) => text != [] ==> ParseValue(fs, t, s) == Ok(Behind(NumberValue(fs, text), s))
      case _ => ParseValue(fs, t, s) == Err(InvalidArgument)
  {
    hide Scan, ParseElements, ParseMembers, Unescape, NumberValue, Behind;
  }

  lemma ElementCases(fs: Floats, t: Token, s: Text, a: seq<Json>)
    ensures var v, r := ParseValue(fs, t, s), ParseElements(fs, t, s, a);
      if v.Err? then r == Err(v.error)
      else
        var (t1, s1) := Scan(v.value.rest);
        if v.value.next.TComma? then r == ParseElements(fs, t1, s1, a + [v.value.value])
        else if v.value.next.TEndArray? then r == Ok(Parsed(Array(a + [v.value.value]), t1, s1))
        else r == Err(InvalidArgument)
  {
    hide Scan, ParseValue;
  }

  lemma MemberCases(fs: Floats, t: Token, s: Text, m: map<Text, Json>)
    ensures var r := ParseMembers(fs, t, s, m);
      if !t.TString? then r == Err(InvalidArgument)
      else if Unescape(t.body).Err? then r == Err(Unescape(t.body).error)
      else if !Scan(s).0.TColon? then r == Err(InvalidArgument)
      else
        var v := ParseFrom(fs, Scan(s).1);
        if v.Err? then r == Err(v.error)
        else
          var (t1, s1) := Scan(v.value.rest);
          var m1 := m[Unescape(t.body).value := v.value.value];
          if v.value.next.TComma? then r == ParseMembers(fs, t1, s1, m1)
          else if v.value.next.TEndObject? then r == Ok(Parsed(Object(m1), t1, s1))
          else r == Err(InvalidArgument)
  {
    hide Scan, ParseValue, Unescape;
  }

  /** dump to a string, then parse from the string. */
  method DumpThenParse(fs: Floats, j: Json, indent: int) returns (r: Result<Json>)
    requires indent <= INT_MAX && NoFloat(j)
    ensures r.Ok? && JsonEq(r.value, j) <==> Clean(j)
  {
    TextRoundTrip(fs, j, indent);
    hide DumpAt, Parse, Clean, NoFloat, JsonEq;
    var o := new OutStream();
    if indent >= 0 { o.Put(fs, j, Style(true, indent), 0); } else { o.Put(fs, j, Style(false, 0), 0); }
    assert o.text == Dump(fs, j, indent);
    var p := new Parser(fs, o.text);
    r := p.ParseDocument();
  }
}
