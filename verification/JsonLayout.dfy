/** The layout of dump's text: blanks, line breaks and indentation, against a formatter that knows nothing of documents. */
module JsonLayout {
  import opened Bytes
  import opened JsonLexer
  import opened JsonText
  import opened JsonValue
  import opened Numbers
  import opened Sequences

  const COMPACT: Style := Style(false, 0)

  /** Reading a text byte by byte: outside strings, inside one, or behind a backslash in one. */
  datatype Mode = Plain | InString | Escaped

  function Next(mode: Mode, c: byte): Mode {
    match mode
    case Plain => if c == QUOTE then InString else Plain
    case InString => if c == QUOTE then Plain else if c == BACKSLASH then Escaped else InString
    case Escaped => InString
  }

  function EndMode(s: Text, mode: Mode): Mode {
    if s == [] then mode else EndMode(s[1..], Next(mode, s[0]))
  }

  /** The bytes outside strings. */
  function Outside(s: Text, mode: Mode): Text {
    if s == [] then [] else (if mode.Plain? then [s[0]] else []) + Outside(s[1..], Next(mode, s[0]))
  }

  function Count(c: byte, s: Text): nat {
    if s == [] then 0 else (if s[0] == c then 1 else 0) + Count(c, s[1..])
  }

  // ------------------------------------------------------- compact text

  /** A piece of text that closes its strings, holds no line break, and no blank outside strings. */
  ghost predicate Tight(s: Text) {
    EndMode(s, Plain) == Plain && NEWLINE !in s && forall c | c in Outside(s, Plain) :: !IsBlank(c)
  }

  lemma {:induction false} ModeJoin(s: Text, t: Text, mode: Mode)
    ensures EndMode(s + t, mode) == EndMode(t, EndMode(s, mode))
    ensures Outside(s + t, mode) == Outside(s, mode) + Outside(t, EndMode(s, mode))
    decreases |s|
  {
    if s == [] {
      assert s + t == t;
    } else {
      var next := Next(mode, s[0]);
      ModeJoin(s[1..], t, next);
      assert (s + t)[0] == s[0] && (s + t)[1..] == s[1..] + t;
      Regroup(if mode.Plain? then [s[0]] else [], Outside(s[1..], next), Outside(t, EndMode(s[1..], next)));
    }
  }

  lemma TightJoin(s: Text, t: Text)
    requires Tight(s) && Tight(t)
    ensures Tight(s + t)
  {
    ModeJoin(s, t, Plain);
  }

  lemma {:induction false} TightPlain(s: Text)
    requires forall c | c in s :: c != QUOTE && !IsBlank(c)
    ensures Tight(s)
  {
    if s != [] {
      assert s[0] in s && s == [s[0]] + s[1..] && forall c | c in s[1..] :: c in s;
      TightPlain(s[1..]);
    }
  }

  /** Inside a string, bytes other than the quote and the backslash change nothing. */
  lemma {:induction false} StringBytes(s: Text)
    requires forall c | c in s :: c != QUOTE && c != BACKSLASH
    ensures EndMode(s, InString) == InString && Outside(s, InString) == []
  {
    if s != [] {
      assert s[0] in s && forall c | c in s[1..] :: c in s;
      StringBytes(s[1..]);
    }
  }

  lemma EscapeByteStays(c: byte)
    ensures EndMode(EscapeByte(c), InString) == InString && Outside(EscapeByte(c), InString) == []
    ensures NEWLINE !in EscapeByte(c)
  {
    var s := EscapeByte(c);
    if s[0] == BACKSLASH {
      assert s == [BACKSLASH, s[1]] + s[2..];
      StringBytes(s[2..]);
      ModeJoin([BACKSLASH, s[1]], s[2..], InString);
      assert [BACKSLASH, s[1]][1..] == [s[1]] && [s[1]][1..] == [];
    } else {
      StringBytes(s);
    }
  }

  lemma {:induction false} EscapeStays(s: Text)
    ensures EndMode(Escape(s), InString) == InString && Outside(Escape(s), InString) == [] && NEWLINE !in Escape(s)
  {
    hide EscapeByte;
    if s != [] {
      EscapeByteStays(s[0]);
      EscapeStays(s[1..]);
      ModeJoin(EscapeByte(s[0]), Escape(s[1..]), InString);
    }
  }

  lemma TightQuoted(s: Text)
    ensures Tight(Quoted(s))
  {
    hide Escape;
    EscapeStays(s);
    var e, q := Escape(s), [QUOTE];
    assert q[1..] == [];
    ModeJoin(e, q, InString);
    assert Quoted(s)[1..] == e + q;
    assert Outside(Quoted(s), Plain) == q + ([] + []);
  }

  lemma TightPrint(i: int)
    ensures Tight(Print(i))
  {
    var s := Print(i);
    hide Decimal, Print;
    PrintBytes(i);
    forall c | c in s ensures c != QUOTE && !IsBlank(c) {}
    TightPlain(s);
  }

  lemma PrintBytes(i: int)
    ensures forall c | c in Print(i) :: c == MINUS || IsDigit(c)
  {
    var d := Decimal(if i < 0 then -i else i);
    assert forall k | 0 <= k < |d| :: IsDigit(d[k]) by { DigitsAll(d); }
  }

  lemma {:induction false} DigitsAll(d: Text)
    requires AllDigits(d)
    ensures forall k | 0 <= k < |d| :: IsDigit(d[k])
  {
  }

  lemma {:induction false} TightValue(fs: Floats, j: Json)
    requires NoFloat(j)
    ensures Tight(DumpAt(fs, j, COMPACT, 0))
    decreases j, 1, 0
  {
    hide Tight, Quoted, Print;
    match j
    case Null => TightPlain(LITERAL_NULL);
    case Boolean(b) => TightPlain(LITERAL_TRUE); TightPlain(LITERAL_FALSE);
    case Integer(i) => TightPrint(i);
    case Unsigned(u) => TightPrint(u);
    case String(s) => TightQuoted(s);
    case Array(a) =>
      TightPlain([91, 93]);
      if a != [] {
        TightElements(fs, j, 0);
        CompactArray(fs, j);
        hide DumpAt;
        TightAround(91, DumpElements(fs, j, 0, COMPACT, 0), 93);
      }
    case Object(m) =>
      TightPlain([123, 125]);
      if m != map[] {
        TightMembers(fs, j, SortedKeys(m.Keys));
        CompactObject(fs, j);
        hide DumpAt;
        TightAround(123, DumpMembers(fs, j, SortedKeys(m.Keys), COMPACT, 0), 125);
      }
  }

  lemma TightAround(open: byte, s: Text, close: byte)
    requires Tight(s) && !IsBlank(open) && open != QUOTE && !IsBlank(close) && close != QUOTE
    ensures Tight([open] + (s + [close]))
  {
    hide Tight;
    TightPlain([open]);
    TightPlain([close]);
    TightJoin(s, [close]);
    TightJoin([open], s + [close]);
  }

  lemma CompactArray(fs: Floats, j: Json)
    requires j.Array? && j.a != []
    ensures DumpAt(fs, j, COMPACT, 0) == [91] + (DumpElements(fs, j, 0, COMPACT, 0) + [93])
  {
    ArrayText(fs, j, COMPACT, 0);
    hide DumpAt, DumpElements;
    assert Break(COMPACT) == [] && Spaces(0) == [] && Closing(COMPACT, 0, 93) == [93];
    assert [] + (DumpElements(fs, j, 0, COMPACT, 0) + [93]) == DumpElements(fs, j, 0, COMPACT, 0) + [93];
  }

  lemma CompactObject(fs: Floats, j: Json)
    requires j.Object? && j.m != map[]
    ensures DumpAt(fs, j, COMPACT, 0) == [123] + (DumpMembers(fs, j, SortedKeys(j.m.Keys), COMPACT, 0) + [125])
  {
    ObjectText(fs, j, COMPACT, 0);
    hide DumpAt, DumpMembers, SortedKeys;
    assert Break(COMPACT) == [] && Spaces(0) == [] && Closing(COMPACT, 0, 125) == [125];
    var ms := DumpMembers(fs, j, SortedKeys(j.m.Keys), COMPACT, 0);
    assert [] + (ms + [125]) == ms + [125];
  }

  /** Element i of a compact array, and what is behind it. */
  lemma CompactElement(fs: Floats, j: Json, i: nat)
    requires j.Array? && i < |j.a|
    ensures DumpElements(fs, j, i, COMPACT, 0) == DumpAt(fs, j.a[i], COMPACT, 0)
      + (if i + 1 == |j.a| then [] else [44] + DumpElements(fs, j, i + 1, COMPACT, 0))
  {
    hide DumpAt;
    var more := DumpElements(fs, j, i + 1, COMPACT, 0);
    assert Break(COMPACT) == [] && Spaces(0) == [] && [] + more == more;
    var e := DumpAt(fs, j.a[i], COMPACT, 0) + (if i + 1 == |j.a| then [] else [44] + more);
    assert [] + e == e;
  }

  lemma CompactMember(fs: Floats, j: Json, ks: seq<Text>)
    requires j.Object? && ks != [] && forall k | k in ks :: k in j.m
    ensures DumpMembers(fs, j, ks, COMPACT, 0) == Quoted(ks[0]) + ([58] + (DumpAt(fs, j.m[ks[0]], COMPACT, 0)
      + (if |ks| == 1 then [] else [44] + DumpMembers(fs, j, ks[1..], COMPACT, 0))))
  {
    MembersUnfold(fs, j, ks, COMPACT, 0);
    hide DumpAt, Quoted, DumpMembers;
    var q, more := Quoted(ks[0]), DumpMembers(fs, j, ks[1..], COMPACT, 0);
    assert Break(COMPACT) == [] && Spaces(0) == [] && [] + more == more && [58] + [] == [58];
    var v := DumpAt(fs, j.m[ks[0]], COMPACT, 0) + (if |ks| == 1 then [] else [44] + more);
    Regroup(q, [58], v);
    assert [] + (q + [58] + v) == q + [58] + v;
  }

  lemma {:induction false} TightElements(fs: Floats, j: Json, i: nat)
    requires j.Array? && i <= |j.a| && NoFloat(j)
    ensures Tight(DumpElements(fs, j, i, COMPACT, 0))
    decreases j, 0, |j.a| - i
  {
    TightPlain([]);
    TightPlain([44]);
    hide Tight, DumpAt;
    if i < |j.a| {
      CompactElement(fs, j, i);
      TightValue(fs, j.a[i]);
      TightElements(fs, j, i + 1);
      hide DumpElements;
      var more := DumpElements(fs, j, i + 1, COMPACT, 0);
      TightJoin([44], more);
      TightJoin(DumpAt(fs, j.a[i], COMPACT, 0), if i + 1 == |j.a| then [] else [44] + more);
    }
  }

  lemma {:induction false} TightMembers(fs: Floats, j: Json, ks: seq<Text>)
    requires j.Object? && (forall k | k in ks :: k in j.m) && NoFloat(j)
    ensures Tight(DumpMembers(fs, j, ks, COMPACT, 0))
    decreases j, 0, |ks|
  {
    TightPlain([]);
    TightPlain([44]);
    TightPlain([58]);
    hide Tight, DumpAt, Quoted;
    if ks != [] {
      CompactMember(fs, j, ks);
      TightQuoted(ks[0]);
      TightValue(fs, j.m[ks[0]]);
      TightMembers(fs, j, ks[1..]);
      hide DumpMembers;
      var v, more := DumpAt(fs, j.m[ks[0]], COMPACT, 0), DumpMembers(fs, j, ks[1..], COMPACT, 0);
      var end := if |ks| == 1 then [] else [44] + more;
      TightJoin([44], more);
      TightJoin(v, end);
      TightJoin([58], v + end);
      TightJoin(Quoted(ks[0]), [58] + (v + end));
    }
  }

  /** Compact text, from a negative indent, holds no line break at all and no blank outside strings. */
  lemma CompactHasNoBlanks(fs: Floats, j: Json, indent: int)
    requires NoFloat(j) && indent < 0
    ensures var s := Dump(fs, j, indent); NEWLINE !in s && forall c | c in Outside(s, Plain) :: !IsBlank(c)
  {
    TightValue(fs, j);
    hide DumpAt, Outside;
  }

  // -------------------------------------------------------- pretty text

  function Indent(d: nat, step: nat): nat { d * step % TWO32 }

  /** The start of a line at nesting depth d. */
  function Line(d: nat, step: nat): Text { [NEWLINE] + Spaces(Indent(d, step)) }

  /** Re-indenting a compact text read at depth d. Strings are copied; a new line begins behind an opening bracket, unless
      its closing bracket follows at once, behind a comma, and before a closing bracket; a space goes behind a colon. */
  function Reformat(s: Text, mode: Mode, d: nat, step: nat): Text
    decreases |s|
  {
    if s == [] then []
    else
      var c, t := s[0], s[1..];
      if !mode.Plain? then [c] + Reformat(t, Next(mode, c), d, step)
      else if (c == 91 || c == 123) && t != [] && t[0] == c + 2 then [c, t[0]] + Reformat(t[1..], Plain, d, step)
      else if c == 91 || c == 123 then [c] + (Line(d + 1, step) + Reformat(t, Plain, d + 1, step))
      else if (c == 93 || c == 125) && d > 0 then Line(d - 1, step) + ([c] + Reformat(t, Plain, d - 1, step))
      else if c == 44 then [c] + (Line(d, step) + Reformat(t, Plain, d, step))
      else if c == 58 then [c, SPACE] + Reformat(t, Plain, d, step)
      else [c] + Reformat(t, Next(mode, c), d, step)
  }

  predicate Ordinary(c: byte) { c != QUOTE && c != 91 && c != 123 && c != 93 && c != 125 && c != 44 && c != 58 }

  lemma ReformatStep(c: byte, t: Text, mode: Mode, d: nat, step: nat)
    requires !mode.Plain? || Ordinary(c) || c == QUOTE
    ensures Reformat([c] + t, mode, d, step) == [c] + Reformat(t, Next(mode, c), d, step)
  {
    assert ([c] + t)[1..] == t;
    hide Line;
  }

  lemma {:induction false} PlainCopied(s: Text, t: Text, d: nat, step: nat)
    requires forall c | c in s :: Ordinary(c)
    ensures Reformat(s + t, Plain, d, step) == s + Reformat(t, Plain, d, step)
    decreases |s|
  {
    hide Reformat;
    if s == [] {
      assert s + t == t;
      assert s + Reformat(t, Plain, d, step) == Reformat(t, Plain, d, step);
    } else {
      assert s[0] in s && s + t == [s[0]] + (s[1..] + t);
      ReformatStep(s[0], s[1..] + t, Plain, d, step);
      PlainCopied(s[1..], t, d, step);
      Regroup([s[0]], s[1..], Reformat(t, Plain, d, step));
      assert [s[0]] + s[1..] == s;
    }
  }

  /** Bytes of a string are copied whatever they are. */
  lemma {:induction false} StringCopied(s: Text, t: Text, mode: Mode, d: nat, step: nat)
    requires forall k | 0 <= k < |s| :: !EndMode(s[..k], mode).Plain?
    ensures Reformat(s + t, mode, d, step) == s + Reformat(t, EndMode(s, mode), d, step)
    decreases |s|
  {
    hide Reformat;
    if s == [] {
      assert s + t == t;
      assert s + Reformat(t, mode, d, step) == Reformat(t, mode, d, step);
    } else {
      assert s[..0] == [];
      forall k | 0 <= k < |s[1..]| ensures !EndMode(s[1..][..k], Next(mode, s[0])).Plain? {
        assert s[..k + 1][1..] == s[1..][..k];
      }
      assert s + t == [s[0]] + (s[1..] + t);
      ReformatStep(s[0], s[1..] + t, mode, d, step);
      StringCopied(s[1..], t, Next(mode, s[0]), d, step);
      Regroup([s[0]], s[1..], Reformat(t, EndMode(s, mode), d, step));
      assert [s[0]] + s[1..] == s;
    }
  }

  lemma {:induction false} StaysInside(s: Text, mode: Mode)
    requires Outside(s, mode) == []
    ensures forall k | 0 <= k < |s| :: !EndMode(s[..k], mode).Plain?
  {
    forall k | 0 <= k < |s| ensures !EndMode(s[..k], mode).Plain? {
      assert s == s[..k] + s[k..];
      ModeJoin(s[..k], s[k..], mode);
      hide EndMode;
      assert Outside(s[k..], EndMode(s[..k], mode)) == [];
    }
  }

  lemma QuotedCopied(s: Text, t: Text, d: nat, step: nat)
    ensures Reformat(Quoted(s) + t, Plain, d, step) == Quoted(s) + Reformat(t, Plain, d, step)
  {
    var e, q, rest := Escape(s), [QUOTE], Reformat(t, Plain, d, step);
    hide Escape, Reformat;
    EscapeStays(s);
    StaysInside(e, InString);
    assert Quoted(s) + t == q + (e + (q + t));
    ReformatStep(QUOTE, e + (q + t), Plain, d, step);
    StringCopied(e, q + t, InString, d, step);
    ReformatStep(QUOTE, t, InString, d, step);
    assert Quoted(s) + rest == q + (e + (q + rest));
  }

  lemma FirstByte(fs: Floats, j: Json)
    requires NoFloat(j)
    ensures var s := DumpAt(fs, j, COMPACT, 0); s != [] && s[0] != 93 && s[0] != 125
  {
    hide Escape, Print, DumpElements, DumpMembers, SortedKeys;
    if j.Integer? { PrintBytes(j.i); assert Print(j.i)[0] in Print(j.i); }
    if j.Unsigned? { PrintBytes(j.u); assert Print(j.u)[0] in Print(j.u); }
  }

  lemma IndentStep(d: nat, step: nat)
    ensures Indent(d + 1, step) == Inner(Style(true, step), Indent(d, step))
  {
    var x, q := d * step, d * step / TWO32;
    assert (d + 1) * step == x + step;
    var y := x % TWO32 + step;
    assert x + step == TWO32 * (q + y / TWO32) + y % TWO32;
    ModUnique(x + step, TWO32, q + y / TWO32, y % TWO32);
  }

  /** An opening bracket with something behind it. */
  lemma ReformatOpen(c: byte, t: Text, d: nat, step: nat)
    requires (c == 91 || c == 123) && t != [] && t[0] != c + 2
    ensures Reformat([c] + t, Plain, d, step) == [c] + (Line(d + 1, step) + Reformat(t, Plain, d + 1, step))
  {
    assert ([c] + t)[1..] == t;
    hide Line;
  }

  lemma ReformatClose(c: byte, t: Text, d: nat, step: nat)
    requires c == 93 || c == 125
    ensures Reformat([c] + t, Plain, d + 1, step) == Line(d, step) + ([c] + Reformat(t, Plain, d, step))
  {
    assert ([c] + t)[1..] == t;
    hide Line;
  }

  lemma ReformatComma(t: Text, d: nat, step: nat)
    ensures Reformat([44] + t, Plain, d, step) == [44] + (Line(d, step) + Reformat(t, Plain, d, step))
    ensures Reformat([58] + t, Plain, d, step) == [58, SPACE] + Reformat(t, Plain, d, step)
  {
    assert ([44] + t)[1..] == t && ([58] + t)[1..] == t;
    hide Line;
  }

  lemma ReformatEmpty(c: byte, t: Text, d: nat, step: nat)
    requires c == 91 || c == 123
    ensures Reformat([c, c + 2] + t, Plain, d, step) == [c, c + 2] + Reformat(t, Plain, d, step)
  {
    assert ([c, c + 2] + t)[1..] == [c + 2] + t && ([c + 2] + t)[1..] == t;
    hide Line;
  }

  lemma {:induction false} ValueReformatted(fs: Floats, j: Json, d: nat, step: nat, t: Text)
    requires NoFloat(j)
    ensures Reformat(DumpAt(fs, j, COMPACT, 0) + t, Plain, d, step)
      == DumpAt(fs, j, Style(true, step), Indent(d, step)) + Reformat(t, Plain, d, step)
    decreases j, 1, 0
  {
    hide Reformat, Quoted, Print, DumpElements, DumpMembers;
    match j
    case Null => PlainCopied(LITERAL_NULL, t, d, step);
    case Boolean(b) => PlainCopied(LITERAL_TRUE, t, d, step); PlainCopied(LITERAL_FALSE, t, d, step);
    case Integer(i) => PrintBytes(i); PlainCopied(Print(i), t, d, step);
    case Unsigned(u) => PrintBytes(u); PlainCopied(Print(u), t, d, step);
    case String(s) => QuotedCopied(s, t, d, step);
    case Array(a) => if a == [] { ReformatEmpty(91, t, d, step); } else { ArrayReformatted(fs, j, d, step, t); }
    case Object(m) => if m == map[] { ReformatEmpty(123, t, d, step); } else { ObjectReformatted(fs, j, d, step, t); }
  }

  /** Brackets around entries that start with a line of their own. */
  lemma BracketsReformatted(open: byte, es: Text, close: byte, pretty: Text, d: nat, step: nat, t: Text)
    requires (open == 91 || open == 123) && close == open + 2 && es != [] && es[0] != close
    requires Spaces(Indent(d + 1, step)) + Reformat(es + ([close] + t), Plain, d + 1, step)
      == pretty + Reformat([close] + t, Plain, d + 1, step)
    ensures Reformat([open] + (es + [close]) + t, Plain, d, step)
      == [open] + ([NEWLINE] + (pretty + ([NEWLINE] + (Spaces(Indent(d, step)) + [close])))) + Reformat(t, Plain, d, step)
  {
    hide Reformat;
    var u, rest := es + ([close] + t), Reformat(t, Plain, d, step);
    assert [open] + (es + [close]) + t == [open] + u && u[0] == es[0];
    ReformatOpen(open, u, d, step);
    ReformatClose(close, t, d, step);
    var w := Spaces(Indent(d, step));
    hide Spaces;
    assert Line(d + 1, step) + Reformat(u, Plain, d + 1, step)
      == [NEWLINE] + (Spaces(Indent(d + 1, step)) + Reformat(u, Plain, d + 1, step));
    assert [NEWLINE] + w + ([close] + rest) == [NEWLINE] + (w + [close]) + rest;
    Regroup(pretty, [NEWLINE] + (w + [close]), rest);
    Regroup([NEWLINE], pretty + ([NEWLINE] + (w + [close])), rest);
    Regroup([open], [NEWLINE] + (pretty + ([NEWLINE] + (w + [close]))), rest);
  }

  lemma {:induction false} ArrayReformatted(fs: Floats, j: Json, d: nat, step: nat, t: Text)
    requires j.Array? && j.a != [] && NoFloat(j)
    ensures Reformat(DumpAt(fs, j, COMPACT, 0) + t, Plain, d, step)
      == DumpAt(fs, j, Style(true, step), Indent(d, step)) + Reformat(t, Plain, d, step)
    decreases j, 0, |j.a| + 1
  {
    hide Reformat, DumpElements;
    var st, es := Style(true, step), DumpElements(fs, j, 0, COMPACT, 0);
    CompactArray(fs, j);
    ArrayText(fs, j, st, Indent(d, step));
    IndentStep(d, step);
    CompactElement(fs, j, 0);
    FirstByte(fs, j.a[0]);
    hide DumpAt, NoFloat;
    assert es[0] == DumpAt(fs, j.a[0], COMPACT, 0)[0];
    ElementsReformatted(fs, j, 0, d + 1, step, [93] + t);
    BracketsReformatted(91, es, 93, DumpElements(fs, j, 0, st, Indent(d + 1, step)), d, step, t);
  }

  /** An entry with its value re-indented, and what follows it: nothing, or a comma and the other entries. */
  lemma EntryReformatted(e: Text, end: Text, p: Text, pend: Text, t: Text, d: nat, step: nat)
    requires Reformat(e + (end + t), Plain, d, step) == p + Reformat(end + t, Plain, d, step)
    requires Reformat(end + t, Plain, d, step) == pend + Reformat(t, Plain, d, step)
    ensures Reformat(e + end + t, Plain, d, step) == p + pend + Reformat(t, Plain, d, step)
  {
    hide Reformat;
    Regroup(e, end, t);
    Regroup(p, pend, Reformat(t, Plain, d, step));
  }

  /** A comma and the entries behind it. */
  lemma CommaReformatted(more: Text, pmore: Text, t: Text, d: nat, step: nat)
    requires Spaces(Indent(d, step)) + Reformat(more + t, Plain, d, step) == pmore + Reformat(t, Plain, d, step)
    ensures Reformat([44] + more + t, Plain, d, step) == [44] + ([NEWLINE] + pmore) + Reformat(t, Plain, d, step)
  {
    hide Reformat, Spaces;
    Regroup([44], more, t);
    ReformatComma(more + t, d, step);
    CommaJoin(Spaces(Indent(d, step)), pmore, Reformat(more + t, Plain, d, step), Reformat(t, Plain, d, step));
  }

  lemma PrettyElement(fs: Floats, j: Json, i: nat, step: nat, n: nat)
    requires j.Array? && i < |j.a|
    ensures var st := Style(true, step);
      DumpElements(fs, j, i, st, n) == Spaces(n) + (DumpAt(fs, j.a[i], st, n)
        + (if i + 1 == |j.a| then [] else [44] + ([NEWLINE] + DumpElements(fs, j, i + 1, st, n))))
  {
    hide DumpAt, Spaces;
  }

  lemma {:induction false} ElementsReformatted(fs: Floats, j: Json, i: nat, d: nat, step: nat, t: Text)
    requires j.Array? && i < |j.a| && NoFloat(j)
    ensures Spaces(Indent(d, step)) + Reformat(DumpElements(fs, j, i, COMPACT, 0) + t, Plain, d, step)
      == DumpElements(fs, j, i, Style(true, step), Indent(d, step)) + Reformat(t, Plain, d, step)
    decreases j, 0, |j.a| - i
  {
    var st, n := Style(true, step), Indent(d, step);
    CompactElement(fs, j, i);
    PrettyElement(fs, j, i, step, n);
    assert NoFloat(j.a[i]);
    hide Reformat, DumpAt, Spaces, DumpElements, Indent, NoFloat;
    var e, p := DumpAt(fs, j.a[i], COMPACT, 0), DumpAt(fs, j.a[i], st, n);
    var more, pmore := DumpElements(fs, j, i + 1, COMPACT, 0), DumpElements(fs, j, i + 1, st, n);
    var end: Text := if i + 1 == |j.a| then [] else [44] + more;
    var pend: Text := if i + 1 == |j.a| then [] else [44] + ([NEWLINE] + pmore);
    ValueReformatted(fs, j.a[i], d, step, end + t);
    if i + 1 == |j.a| {
      NothingJoined(t, Reformat(t, Plain, d, step));
    } else {
      ElementsReformatted(fs, j, i + 1, d, step, t);
      CommaReformatted(more, pmore, t, d, step);
    }
    EntryReformatted(e, end, p, pend, t, d, step);
    Regroup(Spaces(n), p + pend, Reformat(t, Plain, d, step));
  }

  lemma NothingJoined(t: Text, u: Text)
    ensures [] + t == t && [] + u == u
  {
  }

  lemma {:induction false} ObjectReformatted(fs: Floats, j: Json, d: nat, step: nat, t: Text)
    requires j.Object? && j.m != map[] && NoFloat(j)
    ensures Reformat(DumpAt(fs, j, COMPACT, 0) + t, Plain, d, step)
      == DumpAt(fs, j, Style(true, step), Indent(d, step)) + Reformat(t, Plain, d, step)
    decreases j, 0, |SortedKeys(j.m.Keys)| + 1
  {
    hide Reformat, DumpMembers, SortedKeys, Quoted;
    var st, ks := Style(true, step), SortedKeys(j.m.Keys);
    var ms := DumpMembers(fs, j, ks, COMPACT, 0);
    assert ks != [] by { var k :| k in j.m; assert k in ks; }
    CompactObject(fs, j);
    ObjectText(fs, j, st, Indent(d, step));
    IndentStep(d, step);
    CompactMember(fs, j, ks);
    hide DumpAt, NoFloat;
    assert Quoted(ks[0]) != [] && Quoted(ks[0])[0] == QUOTE by { QuotedStarts(ks[0]); }
    assert ms[0] == QUOTE;
    MembersReformatted(fs, j, ks, d + 1, step, [125] + t);
    BracketsReformatted(123, ms, 125, DumpMembers(fs, j, ks, st, Indent(d + 1, step)), d, step, t);
  }

  lemma QuotedStarts(s: Text)
    ensures Quoted(s) != [] && Quoted(s)[0] == QUOTE
  {
  }

  lemma PrettyMember(fs: Floats, j: Json, ks: seq<Text>, step: nat, n: nat)
    requires j.Object? && ks != [] && forall k | k in ks :: k in j.m
    ensures var st := Style(true, step);
      DumpMembers(fs, j, ks, st, n) == Spaces(n) + (Quoted(ks[0]) + ([58, SPACE] + (DumpAt(fs, j.m[ks[0]], st, n)
        + (if |ks| == 1 then [] else [44] + ([NEWLINE] + DumpMembers(fs, j, ks[1..], st, n))))))
  {
    var st := Style(true, step);
    MembersUnfold(fs, j, ks, st, n);
    var v := DumpAt(fs, j.m[ks[0]], st, n)
      + (if |ks| == 1 then [] else [44] + ([NEWLINE] + DumpMembers(fs, j, ks[1..], st, n)));
    hide DumpAt, Spaces, Quoted, DumpMembers;
    Regroup(Quoted(ks[0]), [58] + [SPACE], v);
    assert [58] + [SPACE] == [58, SPACE];
  }

  lemma {:induction false} MembersReformatted(fs: Floats, j: Json, ks: seq<Text>, d: nat, step: nat, t: Text)
    requires j.Object? && ks != [] && (forall k | k in ks :: k in j.m) && NoFloat(j)
    ensures Spaces(Indent(d, step)) + Reformat(DumpMembers(fs, j, ks, COMPACT, 0) + t, Plain, d, step)
      == DumpMembers(fs, j, ks, Style(true, step), Indent(d, step)) + Reformat(t, Plain, d, step)
    decreases j, 0, |ks|
  {
    var st, n := Style(true, step), Indent(d, step);
    CompactMember(fs, j, ks);
    PrettyMember(fs, j, ks, step, n);
    assert NoFloat(j.m[ks[0]]);
    hide Reformat, DumpAt, Spaces, Quoted, DumpMembers, Indent, NoFloat;
    var q, e, p := Quoted(ks[0]), DumpAt(fs, j.m[ks[0]], COMPACT, 0), DumpAt(fs, j.m[ks[0]], st, n);
    var more, pmore := DumpMembers(fs, j, ks[1..], COMPACT, 0), DumpMembers(fs, j, ks[1..], st, n);
    var end: Text := if |ks| == 1 then [] else [44] + more;
    var pend: Text := if |ks| == 1 then [] else [44] + ([NEWLINE] + pmore);
    ValueReformatted(fs, j.m[ks[0]], d, step, end + t);
    if |ks| == 1 {
      NothingJoined(t, Reformat(t, Plain, d, step));
    } else {
      MembersReformatted(fs, j, ks[1..], d, step, t);
      CommaReformatted(more, pmore, t, d, step);
    }
    EntryReformatted(e, end, p, pend, t, d, step);
    KeyReformatted(ks[0], e + end, t, d, step);
    MemberJoined(Spaces(n), q, p + pend, Reformat(t, Plain, d, step));
  }

  lemma KeyReformatted(k: Text, v: Text, t: Text, d: nat, step: nat)
    ensures Reformat(Quoted(k) + ([58] + v) + t, Plain, d, step) == Quoted(k) + ([58, SPACE] + Reformat(v + t, Plain, d, step))
  {
    hide Reformat, Quoted;
    assert Quoted(k) + ([58] + v) + t == Quoted(k) + ([58] + (v + t));
    QuotedCopied(k, [58] + (v + t), d, step);
    ReformatComma(v + t, d, step);
  }

  lemma CommaJoin(w: Text, pmore: Text, more: Text, rest: Text)
    requires w + more == pmore + rest
    ensures [44] + ([NEWLINE] + w + more) == [44] + ([NEWLINE] + pmore) + rest
  {
    assert [NEWLINE] + w + more == [NEWLINE] + (w + more);
    Regroup([NEWLINE], pmore, rest);
    Regroup([44], [NEWLINE] + pmore, rest);
  }

  lemma MemberJoined(w: Text, q: Text, p: Text, rest: Text)
    ensures w + (q + ([58, SPACE] + (p + rest))) == w + (q + ([58, SPACE] + p)) + rest
  {
    Regroup([58, SPACE], p, rest);
    Regroup(q, [58, SPACE] + p, rest);
    Regroup(w, q + ([58, SPACE] + p), rest);
  }

  /** Pretty text is the compact text re-indented. */
  lemma PrettyIsReformatted(fs: Floats, j: Json, step: nat)
    requires NoFloat(j)
    ensures Dump(fs, j, step) == Reformat(Dump(fs, j, -1), Plain, 0, step)
  {
    hide DumpAt, Reformat;
    var s := DumpAt(fs, j, COMPACT, 0);
    assert Indent(0, step) == 0;
    ValueReformatted(fs, j, 0, step, []);
    assert s + [] == s;
    assert Reformat([], Plain, 0, step) == [] by { ReformatNothing(step); }
    assert DumpAt(fs, j, Style(true, step), 0) + [] == DumpAt(fs, j, Style(true, step), 0);
  }

  lemma ReformatNothing(step: nat)
    ensures Reformat([], Plain, 0, step) == []
  {
  }

  // --------------------------------------------------- lines and entries

  /** Elements and members at any depth. */
  function Entries(j: Json): nat
    decreases j, 1, 0
  {
    match j
    case Array(a) => |a| + EntriesFrom(j, 0)
    case Object(m) => |m| + EntriesAt(j, SortedKeys(m.Keys))
    case _ => 0
  }

  function EntriesFrom(j: Json, i: nat): nat
    requires j.Array? && i <= |j.a|
    decreases j, 0, |j.a| - i
  {
    if i == |j.a| then 0 else Entries(j.a[i]) + EntriesFrom(j, i + 1)
  }

  function EntriesAt(j: Json, ks: seq<Text>): nat
    requires j.Object? && forall k | k in ks :: k in j.m
    decreases j, 0, |ks|
  {
    if ks == [] then 0 else Entries(j.m[ks[0]]) + EntriesAt(j, ks[1..])
  }

  /** Arrays and objects at any depth that are not empty. */
  function Filled(j: Json): nat
    decreases j, 1, 0
  {
    match j
    case Array(a) => (if a == [] then 0 else 1) + FilledFrom(j, 0)
    case Object(m) => (if m == map[] then 0 else 1) + FilledAt(j, SortedKeys(m.Keys))
    case _ => 0
  }

  function FilledFrom(j: Json, i: nat): nat
    requires j.Array? && i <= |j.a|
    decreases j, 0, |j.a| - i
  {
    if i == |j.a| then 0 else Filled(j.a[i]) + FilledFrom(j, i + 1)
  }

  function FilledAt(j: Json, ks: seq<Text>): nat
    requires j.Object? && forall k | k in ks :: k in j.m
    decreases j, 0, |ks|
  {
    if ks == [] then 0 else Filled(j.m[ks[0]]) + FilledAt(j, ks[1..])
  }

  lemma {:induction false} CountJoin(c: byte, s: Text, t: Text)
    ensures Count(c, s + t) == Count(c, s) + Count(c, t)
    decreases |s|
  {
    if s == [] {
      assert s + t == t;
    } else {
      assert (s + t)[1..] == s[1..] + t;
      CountJoin(c, s[1..], t);
    }
  }

  lemma {:induction false} CountNone(c: byte, s: Text)
    requires c !in s
    ensures Count(c, s) == 0
  {
    if s != [] { CountNone(c, s[1..]); }
  }

  /** Line breaks of a text are those of its parts. */
  lemma CountAround(open: byte, s: Text, n: nat, close: byte)
    requires open != NEWLINE && close != NEWLINE
    ensures Count(NEWLINE, [open] + ([NEWLINE] + (s + ([NEWLINE] + (Spaces(n) + [close]))))) == 2 + Count(NEWLINE, s)
  {
    var end := Spaces(n) + [close];
    CountJoin(NEWLINE, [open], [NEWLINE] + (s + ([NEWLINE] + end)));
    CountJoin(NEWLINE, [NEWLINE], s + ([NEWLINE] + end));
    CountJoin(NEWLINE, s, [NEWLINE] + end);
    CountJoin(NEWLINE, [NEWLINE], end);
    CountNone(NEWLINE, end);
    CountNone(NEWLINE, [open]);
    assert [NEWLINE][1..] == [];
  }

  lemma CountEntry(n: nat, key: Text, v: Text, last: bool, more: Text)
    requires NEWLINE !in key
    ensures Count(NEWLINE, Spaces(n) + (key + (v + (if last then [] else [44] + ([NEWLINE] + more)))))
      == Count(NEWLINE, v) + if last then 0 else 1 + Count(NEWLINE, more)
  {
    var end: Text := if last then [] else [44] + ([NEWLINE] + more);
    CountEnd(last, more);
    CountNone(NEWLINE, Spaces(n));
    CountNone(NEWLINE, key);
    hide Count;
    CountJoin(NEWLINE, Spaces(n), key + (v + end));
    CountJoin(NEWLINE, key, v + end);
    CountJoin(NEWLINE, v, end);
  }

  lemma CountEnd(last: bool, more: Text)
    ensures Count(NEWLINE, if last then [] else [44] + ([NEWLINE] + more)) == if last then 0 else 1 + Count(NEWLINE, more)
  {
    CountJoin(NEWLINE, [44], [NEWLINE] + more);
    CountJoin(NEWLINE, [NEWLINE], more);
    CountNone(NEWLINE, [44]);
    assert [NEWLINE][1..] == [];
  }

  lemma {:induction false} CountValue(fs: Floats, j: Json, step: nat, n: nat)
    requires NoFloat(j)
    ensures Count(NEWLINE, DumpAt(fs, j, Style(true, step), n)) == Entries(j) + Filled(j)
    decreases j, 1, 0
  {
    hide Count, Quoted, Print, DumpElements, DumpMembers, SortedKeys;
    var st := Style(true, step);
    match j
    case Null => CountNone(NEWLINE, LITERAL_NULL);
    case Boolean(b) => CountNone(NEWLINE, LITERAL_TRUE); CountNone(NEWLINE, LITERAL_FALSE);
    case Integer(i) => PrintBytes(i); CountNone(NEWLINE, Print(i));
    case Unsigned(u) => PrintBytes(u); CountNone(NEWLINE, Print(u));
    case String(s) => QuotedOneLine(s); CountNone(NEWLINE, Quoted(s));
    case Array(a) =>
      CountNone(NEWLINE, [91, 93]);
      if a != [] {
        ArrayText(fs, j, st, n);
        CountElements(fs, j, 0, step, Inner(st, n));
        hide DumpAt, Entries, Filled;
        CountAround(91, DumpElements(fs, j, 0, st, Inner(st, n)), n, 93);
        ArrayEntries(j);
      } else {
        ArrayEntries(j);
      }
    case Object(m) =>
      CountNone(NEWLINE, [123, 125]);
      ObjectEntries(j);
      if m != map[] {
        ObjectText(fs, j, st, n);
        var ks := SortedKeys(m.Keys);
        CountMembers(fs, j, ks, step, Inner(st, n));
        hide DumpAt, Entries, Filled;
        CountAround(123, DumpMembers(fs, j, ks, st, Inner(st, n)), n, 125);
      }
  }

  lemma QuotedOneLine(s: Text)
    ensures NEWLINE !in Quoted(s)
  {
    EscapeStays(s);
  }

  lemma ArrayEntries(j: Json)
    requires j.Array?
    ensures Entries(j) == |j.a| + EntriesFrom(j, 0) && Filled(j) == (if j.a == [] then 0 else 1) + FilledFrom(j, 0)
    ensures j.a == [] ==> EntriesFrom(j, 0) == 0 == FilledFrom(j, 0)
  {
  }

  lemma ObjectEntries(j: Json)
    requires j.Object?
    ensures var ks := SortedKeys(j.m.Keys);
      && |ks| == |j.m| && (j.m == map[] <==> ks == [])
      && Entries(j) == |ks| + EntriesAt(j, ks) && Filled(j) == (if ks == [] then 0 else 1) + FilledAt(j, ks)
  {
    ObjectKeys(j.m);
    hide SortedKeys, EntriesAt, FilledAt;
  }

  lemma ObjectKeys(m: map<Text, Json>)
    ensures var ks := SortedKeys(m.Keys); |ks| == |m| && (m == map[] <==> ks == [])
  {
    var ks := SortedKeys(m.Keys);
    SortedKeysDistinct(m.Keys);
    assert |m| == |m.Keys|;
    hide *;
    if ks != [] { assert ks[0] in ks; }
  }

  lemma {:induction false} CountElements(fs: Floats, j: Json, i: nat, step: nat, n: nat)
    requires j.Array? && i < |j.a| && NoFloat(j)
    ensures Count(NEWLINE, DumpElements(fs, j, i, Style(true, step), n)) == |j.a| - i - 1 + EntriesFrom(j, i) + FilledFrom(j, i)
    decreases j, 0, |j.a| - i
  {
    var st, last := Style(true, step), i + 1 == |j.a|;
    PrettyElement(fs, j, i, step, n);
    CountValue(fs, j.a[i], step, n);
    if !last { CountElements(fs, j, i + 1, step, n); }
    hide Count, DumpAt, DumpElements, Spaces, Entries, Filled;
    var v, more := DumpAt(fs, j.a[i], st, n), DumpElements(fs, j, i + 1, st, n);
    CountEntry(n, [], v, last, more);
    var end: Text := if last then [] else [44] + ([NEWLINE] + more);
    assert [] + (v + end) == v + end;
  }

  lemma {:induction false} CountMembers(fs: Floats, j: Json, ks: seq<Text>, step: nat, n: nat)
    requires j.Object? && ks != [] && (forall k | k in ks :: k in j.m) && NoFloat(j)
    ensures Count(NEWLINE, DumpMembers(fs, j, ks, Style(true, step), n)) == |ks| - 1 + EntriesAt(j, ks) + FilledAt(j, ks)
    decreases j, 0, |ks|
  {
    var st, last := Style(true, step), |ks| == 1;
    PrettyMember(fs, j, ks, step, n);
    QuotedOneLine(ks[0]);
    CountValue(fs, j.m[ks[0]], step, n);
    if !last { CountMembers(fs, j, ks[1..], step, n); }
    hide Count, DumpAt, DumpMembers, Spaces, Entries, Filled, Quoted;
    var q, v, more := Quoted(ks[0]), DumpAt(fs, j.m[ks[0]], st, n), DumpMembers(fs, j, ks[1..], st, n);
    var end: Text := if last then [] else [44] + ([NEWLINE] + more);
    CountEntry(n, q + [58, SPACE], v, last, more);
    Regroup(q, [58, SPACE], v + end);
  }

  /** Pretty text has one line break for every entry and one for the closing bracket of every container that is not empty. */
  lemma PrettyLines(fs: Floats, j: Json, step: nat)
    requires NoFloat(j)
    ensures Count(NEWLINE, Dump(fs, j, step)) == Entries(j) + Filled(j)
  {
    CountValue(fs, j, step, 0);
    hide Count, DumpAt, Entries, Filled;
  }

  // ------------------------------------------------- where an entry stands

  /** One step down into a document. */
  datatype Hop = Index(i: nat) | Key(k: Text)

  predicate Leads(j: Json, p: seq<Hop>)
    decreases |p|
  {
    p == [] || match p[0]
      case Index(i) => j.Array? && i < |j.a| && Leads(j.a[i], p[1..])
      case Key(k) => j.Object? && k in j.m && Leads(j.m[k], p[1..])
  }

  function Reached(j: Json, p: seq<Hop>): Json
    requires Leads(j, p)
    decreases |p|
  {
    if p == [] then j else Reached(Below(j, p[0]), p[1..])
  }

  function Below(j: Json, h: Hop): Json
    requires Leads(j, [h])
  {
    match h case Index(i) => j.a[i] case Key(k) => j.m[k]
  }

  /** Float-free documents are those in which no path leads to a float. */
  lemma {:induction false} NoFloatReached(j: Json, p: seq<Hop>)
    requires NoFloat(j) && Leads(j, p)
    ensures !Reached(j, p).Float?
    decreases |p|
  {
    if p != [] { NoFloatReached(Below(j, p[0]), p[1..]); }
  }

  lemma {:induction false} FloatReached(j: Json) returns (p: seq<Hop>)
    requires !NoFloat(j)
    ensures Leads(j, p) && Reached(j, p).Float?
    decreases j
  {
    p := [];
    match j
    case Array(a) =>
      var i :| 0 <= i < |a| && !NoFloat(a[i]);
      p := FloatReached(a[i]);
      p := HopFirst(j, Index(i), p);
    case Object(m) =>
      var k :| k in m && !NoFloat(m[k]);
      p := FloatReached(m[k]);
      p := HopFirst(j, Key(k), p);
    case _ =>
  }

  lemma HopFirst(j: Json, h: Hop, p: seq<Hop>) returns (q: seq<Hop>)
    requires Leads(j, [h]) && Leads(Below(j, h), p)
    ensures Leads(j, q) && Reached(j, q) == Reached(Below(j, h), p)
  {
    q := [h] + p;
    assert q[1..] == p;
  }

  /** What stands before the value of an entry: nothing in an array, the key in an object. */
  function Label(h: Hop): Text { match h case Index(_) => [] case Key(k) => Quoted(k) + [58, SPACE] }

  lemma {:induction false} ElementStands(fs: Floats, j: Json, k: nat, i: nat, step: nat, n: nat) returns (pre: Text, post: Text)
    requires j.Array? && k <= i < |j.a|
    ensures [NEWLINE] + DumpElements(fs, j, k, Style(true, step), n)
      == pre + ([NEWLINE] + Spaces(n) + DumpAt(fs, j.a[i], Style(true, step), n)) + post
    decreases i - k
  {
    var st := Style(true, step);
    PrettyElement(fs, j, k, step, n);
    hide DumpAt, Spaces, DumpElements;
    var w, v, more := Spaces(n), DumpAt(fs, j.a[k], st, n), DumpElements(fs, j, k + 1, st, n);
    if k == i {
      pre, post := [], if k + 1 == |j.a| then [] else [44] + ([NEWLINE] + more);
      ElementFlat(w, v, post);
    } else {
      pre, post := ElementStands(fs, j, k + 1, i, step, n);
      ElementFlat(w, v, [44] + ([NEWLINE] + more));
      CommaBehind([NEWLINE] + w + v, [NEWLINE] + more, pre, [NEWLINE] + w + DumpAt(fs, j.a[i], st, n), post);
      pre := [NEWLINE] + w + v + [44] + pre;
    }
  }

  lemma ElementFlat(w: Text, v: Text, end: Text)
    ensures [NEWLINE] + (w + (v + end)) == [NEWLINE] + w + v + end == [] + ([NEWLINE] + w + v) + end
  {
    Regroup(w, v, end);
    Regroup([NEWLINE], w + v, end);
  }

  lemma CommaBehind(y: Text, more: Text, pre: Text, x: Text, post: Text)
    requires more == pre + x + post
    ensures y + ([44] + more) == y + [44] + pre + x + post
  {
    Regroup(y, [44], pre + x + post);
  }

  lemma {:induction false} MemberStands(fs: Floats, j: Json, ks: seq<Text>, k: Text, step: nat, n: nat)
    returns (pre: Text, post: Text)
    requires j.Object? && k in ks && forall x | x in ks :: x in j.m
    ensures [NEWLINE] + DumpMembers(fs, j, ks, Style(true, step), n)
      == pre + ([NEWLINE] + Spaces(n) + (Quoted(k) + [58, SPACE]) + DumpAt(fs, j.m[k], Style(true, step), n)) + post
    decreases |ks|
  {
    var st := Style(true, step);
    PrettyMember(fs, j, ks, step, n);
    hide DumpAt, Spaces, DumpMembers, Quoted;
    var w, q, v := Spaces(n), Quoted(ks[0]), DumpAt(fs, j.m[ks[0]], st, n);
    var more := DumpMembers(fs, j, ks[1..], st, n);
    var y := [NEWLINE] + w + (q + [58, SPACE]) + v;
    if k == ks[0] {
      pre, post := [], if |ks| == 1 then [] else [44] + ([NEWLINE] + more);
      MemberFlat(w, q, v, post);
      NothingJoined(y, y);
    } else {
      pre, post := MemberStands(fs, j, ks[1..], k, step, n);
      MemberFlat(w, q, v, [44] + ([NEWLINE] + more));
      CommaBehind(y, [NEWLINE] + more, pre, [NEWLINE] + w + (Quoted(k) + [58, SPACE]) + DumpAt(fs, j.m[k], st, n), post);
      pre := y + [44] + pre;
    }
  }

  lemma MemberFlat(w: Text, q: Text, v: Text, end: Text)
    ensures [NEWLINE] + (w + (q + ([58, SPACE] + (v + end)))) == [NEWLINE] + w + (q + [58, SPACE]) + v + end
  {
    Regroup([58, SPACE], v, end);
    Regroup(q, [58, SPACE], v + end);
    Regroup(q + [58, SPACE], v, end);
    Regroup(w, q + [58, SPACE] + v, end);
    Regroup([NEWLINE], w + (q + [58, SPACE] + v), end);
    assert [NEWLINE] + (w + (q + [58, SPACE] + v)) == [NEWLINE] + w + (q + [58, SPACE]) + v;
  }

  /** x stands in s between pre and post. */
  predicate Between(s: Text, pre: Text, x: Text, post: Text) { s == pre + x + post }

  /** The entry x, reached by the hop h, on a line of its own at depth e. */
  function EntryAt(fs: Floats, h: Hop, x: Json, e: nat, step: nat): Text {
    Line(e, step) + Label(h) + DumpAt(fs, x, Style(true, step), Indent(e, step))
  }

  lemma ChildStands(fs: Floats, j: Json, h: Hop, d: nat, step: nat) returns (pre: Text, post: Text)
    requires Leads(j, [h])
    ensures Between(DumpAt(fs, j, Style(true, step), Indent(d, step)), pre, EntryAt(fs, h, Below(j, h), d + 1, step), post)
  {
    var st, n := Style(true, step), Indent(d + 1, step);
    IndentStep(d, step);
    if h.Index? {
      ArrayText(fs, j, st, Indent(d, step));
      pre, post := ElementStands(fs, j, 0, h.i, step, n);
      hide DumpAt, Spaces, DumpElements, Indent;
      var x, end := DumpAt(fs, j.a[h.i], st, n), Closing(st, Indent(d, step), 93);
      hide Closing;
      assert Line(d + 1, step) + Label(h) + x == [NEWLINE] + Spaces(n) + x;
      Wrapped(91, DumpElements(fs, j, 0, st, n), end, pre, [NEWLINE] + Spaces(n) + x, post);
      pre, post := [91] + pre, post + end;
    } else {
      ObjectText(fs, j, st, Indent(d, step));
      var ks := SortedKeys(j.m.Keys);
      pre, post := MemberStands(fs, j, ks, h.k, step, n);
      hide DumpAt, Spaces, DumpMembers, Indent, Quoted, SortedKeys;
      var x, end := DumpAt(fs, j.m[h.k], st, n), Closing(st, Indent(d, step), 125);
      hide Closing;
      assert Line(d + 1, step) + Label(h) + x == [NEWLINE] + Spaces(n) + (Quoted(h.k) + [58, SPACE]) + x;
      Wrapped(123, DumpMembers(fs, j, ks, st, n), end, pre, Line(d + 1, step) + Label(h) + x, post);
      pre, post := [123] + pre, post + end;
    }
  }

  lemma Wrapped(open: byte, es: Text, end: Text, pre: Text, x: Text, post: Text)
    requires [NEWLINE] + es == pre + x + post
    ensures [open] + ([NEWLINE] + (es + end)) == [open] + pre + x + (post + end)
  {
    Regroup([NEWLINE], es, end);
    assert [open] + (pre + x + post + end) == [open] + pre + x + (post + end);
  }

  /** In pretty text every entry, at any depth, stands behind a line break and exactly as many spaces as its depth times the
      indentation (modulo 2^32), in an object behind its key. */
  lemma EntryStands(fs: Floats, j: Json, p: seq<Hop>, step: nat) returns (pre: Text, post: Text)
    requires p != [] && Leads(j, p)
    ensures Dump(fs, j, step) == pre + ([NEWLINE] + Spaces(|p| * step % TWO32) + Label(p[|p| - 1])
      + DumpAt(fs, Reached(j, p), Style(true, step), |p| * step % TWO32)) + post
  {
    hide DumpAt, Spaces, Label, Leads, Reached;
    pre, post := EntryFound(fs, j, p, 0, step, p[|p| - 1], Reached(j, p), |p|);
    assert Indent(0, step) == 0;
  }

  lemma {:induction false} EntryFound(fs: Floats, j: Json, p: seq<Hop>, d: nat, step: nat, g: Hop, x: Json, e: nat)
    returns (pre: Text, post: Text)
    requires p != [] && Leads(j, p) && g == p[|p| - 1] && x == Reached(j, p) && e == d + |p|
    ensures Between(DumpAt(fs, j, Style(true, step), Indent(d, step)), pre, EntryAt(fs, g, x, e, step), post)
    decreases |p|
  {
    HopDown(j, p);
    hide DumpAt, Leads, Reached, Below, EntryAt, Indent, Between;
    var b := Below(j, p[0]);
    pre, post := ChildStands(fs, j, p[0], d, step);
    if |p| > 1 {
      var pre2, post2 := EntryFound(fs, b, p[1..], d + 1, step, g, x, e);
      pre, post := EntryDeeper(fs, j, p[0], b, g, x, d, e, step, pre, post, pre2, post2);
    }
  }

  lemma EntryDeeper(fs: Floats, j: Json, h: Hop, b: Json, g: Hop, x: Json, d: nat, e: nat, step: nat,
                    pre: Text, post: Text, pre2: Text, post2: Text) returns (front: Text, back: Text)
    requires Between(DumpAt(fs, j, Style(true, step), Indent(d, step)), pre, EntryAt(fs, h, b, d + 1, step), post)
    requires Between(DumpAt(fs, b, Style(true, step), Indent(d + 1, step)), pre2, EntryAt(fs, g, x, e, step), post2)
    ensures Between(DumpAt(fs, j, Style(true, step), Indent(d, step)), front, EntryAt(fs, g, x, e, step), back)
  {
    var z, head := EntryAt(fs, g, x, e, step), Line(d + 1, step) + Label(h);
    hide DumpAt, Label, Line, Indent;
    assert EntryAt(fs, h, b, d + 1, step) == head + (pre2 + z + post2);
    hide EntryAt;
    Deeper(pre, head, pre2, z, post2, post);
    front, back := pre + head + pre2, post2 + post;
  }

  lemma HopDown(j: Json, p: seq<Hop>)
    requires p != [] && Leads(j, p)
    ensures Leads(j, [p[0]]) && Leads(Below(j, p[0]), p[1..]) && Reached(j, p) == Reached(Below(j, p[0]), p[1..])
    ensures if |p| == 1 then Reached(j, p) == Below(j, p[0]) else p[1..] != [] && p[1..][|p[1..]| - 1] == p[|p| - 1]
  {
    assert [p[0]][1..] == [];
  }

  lemma Deeper(pre: Text, l: Text, pre2: Text, x: Text, post2: Text, post: Text)
    ensures pre + (l + (pre2 + x + post2)) + post == pre + l + pre2 + x + (post2 + post)
  {
    assert l + (pre2 + x + post2) == l + pre2 + x + post2;
    assert pre + (l + pre2 + x + post2) == pre + l + pre2 + x + post2;
  }

  /** [null] without indentation. */
  lemma CompactExample(fs: Floats)
    ensures Dump(fs, Array([Null]), -1) == [91, 110, 117, 108, 108, 93]
  {
    var j := Array([Null]);
    CompactArray(fs, j);
    CompactElement(fs, j, 0);
    assert DumpAt(fs, Null, COMPACT, 0) == [110, 117, 108, 108];
    hide DumpElements;
  }

  /** [null] with indentation 2. */
  lemma PrettyExample(fs: Floats)
    ensures Dump(fs, Array([Null]), 2) == [91, 10, 32, 32, 110, 117, 108, 108, 10, 93]
  {
    var j, st := Array([Null]), Style(true, 2);
    ArrayText(fs, j, st, 0);
    PrettyElement(fs, j, 0, 2, 2);
    assert DumpAt(fs, Null, st, 2) == [110, 117, 108, 108] && Spaces(2) == [32, 32] && Spaces(0) == [];
    assert Break(st) == [10] && Inner(st, 0) == 2 && Closing(st, 0, 93) == [10] + ([] + [93]);
    hide DumpElements, DumpAt, Break, Inner, Closing, Spaces;
  }
}
