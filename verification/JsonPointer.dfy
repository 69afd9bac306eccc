/** JSON Pointer text (RFC 6901): the in-place substring replacement, escaping, and the token splitter. */
module JsonPointer {
  import opened Bytes
  import opened Sequences

  const ESC_TILDE: Text := [126, 48]  // ~0
  const ESC_SLASH: Text := [126, 49]  // ~1

  // ----------------------------------------------------- replace_substring

  predicate OccursAt(s: Text, f: Text, p: nat) {
    p + |f| <= |s| && s[p..p + |f|] == f
  }

  /** std::string::find from a start position; None is npos. */
  method Find(s: Text, f: Text, from: nat) returns (found: bool, pos: nat)
    ensures from <= pos && (found ==> OccursAt(s, f, pos))
    ensures forall p | from <= p && (found ==> p < pos) :: !OccursAt(s, f, p)
  {
    pos := from;
    while pos + |f| <= |s|
      invariant from <= pos
      invariant forall p | from <= p < pos :: !OccursAt(s, f, p)
    {
      if s[pos..pos + |f|] == f { return true, pos; }
      pos := pos + 1;
    }
    found := false;
  }

  /** std::string::find_first_of with a one-character set. */
  method FindFirstOf(s: Text, c: byte, from: nat) returns (found: bool, pos: nat)
    ensures from <= pos && (found ==> pos < |s| && s[pos] == c)
    ensures forall p | from <= p < |s| && (found ==> p < pos) :: s[p] != c
  {
    pos := from;
    while pos < |s|
      invariant from <= pos
      invariant forall p | from <= p < pos && p < |s| :: s[p] != c
    {
      if s[pos] == c { return true, pos; }
      pos := pos + 1;
    }
    found := false;
  }

  /** Leftmost, non-overlapping replacement of f by t. */
  function ReplaceAll(s: Text, f: Text, t: Text): Text
    requires f != []
  {
    if s == [] then []
    else if f <= s then t + ReplaceAll(s[|f|..], f, t)
    else [s[0]] + ReplaceAll(s[1..], f, t)
  }

  lemma ReplaceAllMiss(s: Text, f: Text, t: Text, pos: nat)
    requires f != [] && pos < |s| && !OccursAt(s, f, pos)
    ensures ReplaceAll(s[pos..], f, t) == [s[pos]] + ReplaceAll(s[pos + 1..], f, t)
  {
    var rest := s[pos..];
    assert !(f <= rest) by { assert |f| <= |rest| ==> rest[..|f|] == s[pos..pos + |f|]; }
    assert rest[1..] == s[pos + 1..];
  }

  /** Text before the first occurrence is kept as it is. */
  lemma {:induction false} ReplaceAllSkip(s: Text, f: Text, t: Text, from: nat, n: nat)
    requires f != [] && from <= n <= |s|
    requires forall p | from <= p < n :: !OccursAt(s, f, p)
    ensures ReplaceAll(s[from..], f, t) == s[from..n] + ReplaceAll(s[n..], f, t)
    decreases n - from
  {
    hide ReplaceAll;
    if from < n {
      assert forall p | from + 1 <= p < n :: !OccursAt(s, f, p);
      assert !OccursAt(s, f, from);
      hide OccursAt;
      ReplaceAllSkip(s, f, t, from + 1, n);
      ReplaceAllMiss(s, f, t, from);
      assert s[from..n] == [s[from]] + s[from + 1..n];
    }
  }

  lemma ReplaceAllHere(s: Text, f: Text, t: Text, pos: nat)
    requires f != [] && OccursAt(s, f, pos)
    ensures ReplaceAll(s[pos..], f, t) == t + ReplaceAll(s[pos + |f|..], f, t)
  {
    assert f <= s[pos..] && s[pos..][|f|..] == s[pos + |f|..];
  }

  /** One replacement at the first occurrence after the finished prefix leaves the overall result unchanged. */
  lemma ReplaceStep(s: Text, f: Text, t: Text, done: nat, pos: nat, next: Text)
    requires f != [] && done <= pos && OccursAt(s, f, pos)
    requires forall p | done <= p < pos :: !OccursAt(s, f, p)
    requires next == s[..pos] + t + s[pos + |f|..]
    ensures next[..pos + |t|] + ReplaceAll(next[pos + |t|..], f, t) == s[..done] + ReplaceAll(s[done..], f, t)
  {
    ReplaceAllSkip(s, f, t, done, pos);
    ReplaceAllHere(s, f, t, pos);
    var rest := ReplaceAll(s[pos + |f|..], f, t);
    Regroup(s[..done] + s[done..pos], t, rest);
    Regroup(s[..done], s[done..pos], t + rest);
    assert s[..pos] == s[..done] + s[done..pos];
    assert next[..pos + |t|] == s[..pos] + t && next[pos + |t|..] == s[pos + |f|..];
  }

  method ReplaceSubstring(s0: Text, f: Text, t: Text) returns (s: Text)
    requires f != []
    ensures s == ReplaceAll(s0, f, t)
  {
    s := s0;
    ghost var done: nat := 0;  // s[..done] is final
    assert s[..0] + ReplaceAll(s[0..], f, t) == ReplaceAll(s, f, t) by { assert s[0..] == s; }
    var found, pos := Find(s, f, 0);
    while found
      invariant done <= |s| && done <= pos
      invariant found ==> OccursAt(s, f, pos)
      invariant forall p | done <= p && (found ==> p < pos) :: !OccursAt(s, f, p)
      invariant s[..done] + ReplaceAll(s[done..], f, t) == ReplaceAll(s0, f, t)
      decreases |s| - done, found
    {
      var next := s[..pos] + t + s[pos + |f|..];
      ReplaceStep(s, f, t, done, pos, next);
      s := next;
      done := pos + |t|;
      found, pos := Find(s, f, pos + |t|);
    }
    ReplaceAllSkip(s, f, t, done, |s|);
    assert s[..done] + s[done..] == s;
  }

  // --------------------------------------------------------------- escaping

  function Escape(s: Text): Text {
    ReplaceAll(ReplaceAll(s, [TILDE], ESC_TILDE), [SLASH], ESC_SLASH)
  }

  function Unescape(s: Text): Text {
    ReplaceAll(ReplaceAll(s, ESC_SLASH, [SLASH]), ESC_TILDE, [TILDE])
  }

  method EscapeText(s0: Text) returns (s: Text)
    ensures s == Escape(s0)
  {
    s := ReplaceSubstring(s0, [TILDE], ESC_TILDE);
    s := ReplaceSubstring(s, [SLASH], ESC_SLASH);
  }

  method UnescapeText(s0: Text) returns (s: Text)
    ensures s == Unescape(s0)
  {
    s := ReplaceSubstring(s0, ESC_SLASH, [SLASH]);
    s := ReplaceSubstring(s, ESC_TILDE, [TILDE]);
  }

  function EscapeByte(c: byte): Text {
    if c == TILDE then ESC_TILDE else if c == SLASH then ESC_SLASH else [c]
  }

  lemma ReplaceAllCons(c: byte, s: Text, f: Text, t: Text)
    requires f != [] && (c != f[0] || (s != [] && |f| > 1 && s[0] != f[1]))
    ensures ReplaceAll([c] + s, f, t) == [c] + ReplaceAll(s, f, t)
  {
    var x := [c] + s;
    assert x[1..] == s && x[0] == c && (s != [] ==> x[1] == s[0]);
    assert !(f <= x);
  }

  /** The two replacement passes act byte by byte. */
  lemma {:induction false} EscapeCons(c: byte, s: Text)
    ensures Escape([c] + s) == EscapeByte(c) + Escape(s)
  {
    var u := ReplaceAll(s, [TILDE], ESC_TILDE);
    assert ([c] + s)[1..] == s;
    if c == TILDE {
      assert [TILDE] <= [c] + s;
      assert ESC_TILDE + u == [TILDE] + ([ZERO] + u);
      ReplaceAllCons(TILDE, [ZERO] + u, [SLASH], ESC_SLASH);
      ReplaceAllCons(ZERO, u, [SLASH], ESC_SLASH);
    } else {
      ReplaceAllCons(c, s, [TILDE], ESC_TILDE);
      if c == SLASH {
        assert ([c] + u)[1..] == u && [SLASH] <= [c] + u;
      } else {
        ReplaceAllCons(c, u, [SLASH], ESC_SLASH);
      }
    }
  }

  lemma {:induction false} EscapeDigits(s: Text)
    requires AllDigits(s)
    ensures Escape(s) == s
  {
    if s != [] {
      EscapeCons(s[0], s[1..]);
      assert s == [s[0]] + s[1..] && IsDigit(s[0]);
      EscapeDigits(s[1..]);
    }
  }

  lemma {:induction false} UnescapeEscapeByte(c: byte, s: Text)
    ensures Unescape(EscapeByte(c) + s) == [c] + Unescape(s)
  {
    var u := ReplaceAll(s, ESC_SLASH, [SLASH]);
    if c == TILDE {
      assert ESC_TILDE + s == [TILDE] + ([ZERO] + s) && ESC_TILDE + u == [TILDE] + ([ZERO] + u);
      ReplaceAllCons(TILDE, [ZERO] + s, ESC_SLASH, [SLASH]);
      ReplaceAllCons(ZERO, s, ESC_SLASH, [SLASH]);
      assert ESC_TILDE <= ESC_TILDE + u && (ESC_TILDE + u)[2..] == u;
    } else if c == SLASH {
      assert ESC_SLASH <= ESC_SLASH + s && (ESC_SLASH + s)[2..] == s;
      ReplaceAllCons(SLASH, u, ESC_TILDE, [TILDE]);
    } else {
      ReplaceAllCons(c, s, ESC_SLASH, [SLASH]);
      ReplaceAllCons(c, u, ESC_TILDE, [TILDE]);
    }
  }

  lemma {:induction false} UnescapeEscape(s: Text)
    ensures Unescape(Escape(s)) == s
  {
    if s != [] {
      assert s == [s[0]] + s[1..];
      EscapeCons(s[0], s[1..]);
      UnescapeEscapeByte(s[0], Escape(s[1..]));
      UnescapeEscape(s[1..]);
    }
  }

  predicate BadTildeAt(s: Text, p: nat) {
    p < |s| && s[p] == TILDE && (p == |s| - 1 || (s[p + 1] != 48 && s[p + 1] != 49))
  }

  /** Every tilde is followed by 0 or 1: the check in split. */
  predicate TildesEscaped(s: Text) {
    forall p | 0 <= p < |s| :: !BadTildeAt(s, p)
  }

  lemma {:induction false} EscapeShape(s: Text)
    ensures TildesEscaped(Escape(s)) && SLASH !in Escape(s)
  {
    if s != [] {
      assert s == [s[0]] + s[1..];
      EscapeCons(s[0], s[1..]);
      EscapeShape(s[1..]);
      var h, e := EscapeByte(s[0]), Escape(s[1..]);
      forall p | 0 <= p < |h + e| ensures !BadTildeAt(h + e, p) {
        if p >= |h| { assert !BadTildeAt(e, p - |h|); }
      }
    }
  }

  /** Conversely, a slash-free text with well-formed tildes is the escape of its unescape. */
  lemma {:induction false} EscapeUnescape(s: Text)
    requires TildesEscaped(s) && SLASH !in s
    ensures Escape(Unescape(s)) == s
  {
    if s != [] {
      assert !BadTildeAt(s, 0);
      var c := if s[0] != TILDE then s[0] else if s[1] == 48 then TILDE else SLASH;
      var n := |EscapeByte(c)|;
      assert s == EscapeByte(c) + s[n..];
      forall p | 0 <= p < |s[n..]| ensures !BadTildeAt(s[n..], p) {
        assert !BadTildeAt(s, n + p);
      }
      UnescapeEscapeByte(c, s[n..]);
      EscapeCons(c, Unescape(s[n..]));
      EscapeUnescape(s[n..]);
    }
  }

  // ------------------------------------------------------ text of a pointer

  /** json_pointer::to_string: each token, escaped, behind a slash. */
  function PointerText(tokens: seq<Text>): Text {
    if tokens == [] then [] else [SLASH] + Escape(tokens[0]) + PointerText(tokens[1..])
  }

  lemma {:induction false} PointerTextAppend(p: seq<Text>, q: seq<Text>)
    ensures PointerText(p + q) == PointerText(p) + PointerText(q)
  {
    if p == [] {
      assert p + q == q;
    } else {
      assert (p + q)[1..] == p[1..] + q;
      PointerTextAppend(p[1..], q);
    }
  }

  lemma PointerTextSnoc(p: seq<Text>, t: Text)
    ensures PointerText(p + [t]) == PointerText(p) + [SLASH] + Escape(t)
  {
    PointerTextAppend(p, [t]);
    assert [t][1..] == [];
    assert PointerText([t]) == [SLASH] + Escape(t);
  }

  /** The fold of json_pointer::to_string. */
  method ToString(tokens: seq<Text>) returns (s: Text)
    ensures s == PointerText(tokens)
  {
    s := [];
    for n := 0 to |tokens|
      invariant s == PointerText(tokens[..n])
    {
      var e := EscapeText(tokens[n]);
      PointerTextSnoc(tokens[..n], tokens[n]);
      assert tokens[..n + 1] == tokens[..n] + [tokens[n]];
      s := s + [SLASH] + e;
    }
    assert tokens[..|tokens|] == tokens;
  }

  /** The text up to the next slash. */
  function TokenLength(s: Text): (n: nat)
    ensures n <= |s| && SLASH !in s[..n] && (n < |s| ==> s[n] == SLASH)
  {
    if s == [] || s[0] == SLASH then 0 else assert s[1..][..TokenLength(s[1..])] == s[1..1 + TokenLength(s[1..])]; 1 + TokenLength(s[1..])
  }

  /** Parse of a text that is empty or starts with a slash. */
  function Tokens(s: Text): Result<seq<Text>>
    decreases |s|
  {
    if s == [] then Ok([])
    else if s[0] != SLASH then Err(DomainError)
    else
      var n := TokenLength(s[1..]);
      var token := s[1..1 + n];
      if !TildesEscaped(token) then Err(DomainError)
      else
        var rest :- Tokens(s[1 + n..]);
        Ok([Unescape(token)] + rest)
  }

  method CheckTildes(token: Text) returns (ok: bool)
    ensures ok == TildesEscaped(token)
  {
    var found, pos := FindFirstOf(token, TILDE, 0);
    while found
      invariant found ==> pos < |token| && token[pos] == TILDE
      invariant forall p | 0 <= p < |token| && (found ==> p < pos) :: !BadTildeAt(token, p)
      decreases |token| - pos
    {
      if pos == |token| - 1 || (token[pos + 1] != 48 && token[pos + 1] != 49) {
        assert BadTildeAt(token, pos);
        return false;
      }
      found, pos := FindFirstOf(token, TILDE, pos + 1);
    }
    ok := true;
  }

  lemma {:induction false} TokenLengthIs(s: Text, n: nat)
    requires n <= |s| && SLASH !in s[..n] && (n < |s| ==> s[n] == SLASH)
    ensures TokenLength(s) == n
  {
    var m := TokenLength(s);
    assert forall p | 0 <= p < n :: s[p] == s[..n][p];
    assert forall p | 0 <= p < m :: s[p] == s[..m][p];
  }

  /** The tokens already read, put in front of the tokens of what is left. */
  function Continue(read: seq<Text>, rest: Result<seq<Text>>): Result<seq<Text>> {
    match rest case Ok(more) => Ok(read + more) case Err(e) => Err(e)
  }

  /** Tokens of the text after position start - 1, when its first token ends at end. */
  lemma TokensAt(s: Text, start: nat, end: nat)
    requires 1 <= start <= end <= |s| && s[start - 1] == SLASH
    requires SLASH !in s[start..end] && (end < |s| ==> s[end] == SLASH)
    ensures Tokens(s[start - 1..]) ==
      if !TildesEscaped(s[start..end]) then Err(DomainError)
      else Continue([Unescape(s[start..end])], Tokens(s[end..]))
  {
    var here := s[start - 1..];
    assert here[1..] == s[start..] && here[1..][..end - start] == s[start..end];
    TokenLengthIs(here[1..], end - start);
    assert here[1..1 + (end - start)] == s[start..end] && here[1 + (end - start)..] == s[end..];
  }

  lemma ContinueWith(read: seq<Text>, token: Text, rest: Result<seq<Text>>)
    ensures Continue(read, Continue([token], rest)) == Continue(read + [token], rest)
    ensures Continue(read, Ok([])) == Ok(read)
    ensures Continue([], rest) == rest
    ensures Continue(read, Err(DomainError)) == Err(DomainError)
  {
    if rest.Ok? {
      assert read + ([token] + rest.value) == (read + [token]) + rest.value;
      assert [] + rest.value == rest.value;
    }
    assert read + [] == read;
  }

  /** One turn of the loop: the token from start to end behind the tokens read. */
  lemma SplitTurn(s: Text, read: seq<Text>, start: nat, end: nat)
    requires 1 <= start <= end <= |s| && s[start - 1] == SLASH
    requires (forall p | start <= p < end :: s[p] != SLASH) && (end < |s| ==> s[end] == SLASH)
    requires Tokens(s) == Continue(read, Tokens(s[start - 1..]))
    ensures Tokens(s) == if !TildesEscaped(s[start..end]) then Err(DomainError)
      else if end == |s| then Ok(read + [Unescape(s[start..end])])
      else Continue(read + [Unescape(s[start..end])], Tokens(s[end..]))
  {
    hide TildesEscaped, Unescape, Continue;
    TokensAt(s, start, end);
    var token, rest := Unescape(s[start..end]), Tokens(s[end..]);
    ContinueWith(read, token, rest);
    ContinueWith(read + [token], token, rest);
    if end == |s| { assert s[end..] == []; assert rest == Ok([]); }
  }

  /** json_pointer's constructor: split, with start and slash moving over the text. */
  method Split(s: Text) returns (r: Result<seq<Text>>)
    ensures r == Tokens(s)
  {
    if s == [] { return Ok([]); }
    if s[0] != SLASH { return Err(DomainError); }
    var result: seq<Text> := [];
    var start := 1;
    var more := true;
    assert s[0..] == s;
    ContinueWith([], [], Tokens(s));
    hide *;
    while more
      invariant more ==> 1 <= start <= |s| && s[start - 1] == SLASH
      invariant more ==> Tokens(s) == Continue(result, Tokens(s[start - 1..]))
      invariant !more ==> Tokens(s) == Ok(result)
      decreases more, |s| - start
    {
      var found, slash := FindFirstOf(s, SLASH, start);
      var end := if found then slash else |s|;
      var token := s[start..end];
      SplitTurn(s, result, start, end);
      var ok := CheckTildes(token);
      if !ok { return Err(DomainError); }
      token := UnescapeText(token);
      result := result + [token];
      more := found;
      if found { start := slash + 1; }
    }
    r := Ok(result);
  }

  /** json_pointer(p.to_string()) == p, and only the text p.to_string() denotes p. */
  lemma {:induction false} PointerRoundTrip(s: Text, p: seq<Text>)
    ensures Tokens(s) == Ok(p) <==> s == PointerText(p)
  {
    if s == PointerText(p) {
      TokensOfText(p);
    }
    if Tokens(s) == Ok(p) {
      TextOfTokens(s);
    }
  }

  lemma TokensCons(e: Text, rest: Text)
    requires TildesEscaped(e) && SLASH !in e && (rest == [] || rest[0] == SLASH)
    ensures Tokens([SLASH] + e + rest) == Continue([Unescape(e)], Tokens(rest))
  {
    hide TildesEscaped, Unescape, Tokens;
    var s := [SLASH] + e + rest;
    assert s[1..1 + |e|] == e && s[1 + |e|..] == rest && s[0..] == s;
    TokensAt(s, 1, 1 + |e|);
  }

  lemma {:induction false} TokensOfText(p: seq<Text>)
    ensures Tokens(PointerText(p)) == Ok(p)
  {
    hide TildesEscaped, Unescape, Escape;
    if p != [] {
      TokensOfText(p[1..]);
      EscapeShape(p[0]);
      assert p[1..] != [] ==> PointerText(p[1..])[0] == SLASH;
      TokensCons(Escape(p[0]), PointerText(p[1..]));
      UnescapeEscape(p[0]);
      assert [p[0]] + p[1..] == p;
    }
  }

  lemma TokensSplit(s: Text, n: nat)
    requires s != [] && Tokens(s).Ok? && n == TokenLength(s[1..])
    ensures var e, rest := s[1..1 + n], s[1 + n..];
      && TildesEscaped(e) && SLASH !in e && s == [SLASH] + e + rest
      && Tokens(rest).Ok? && Tokens(s).value == [Unescape(e)] + Tokens(rest).value
  {
    assert s[1..][..n] == s[1..1 + n];
    hide TokenLength, TildesEscaped, Unescape;
  }

  lemma {:induction false} TextOfTokens(s: Text)
    requires Tokens(s).Ok?
    ensures PointerText(Tokens(s).value) == s
    decreases |s|
  {
    if s != [] {
      var n := TokenLength(s[1..]);
      var e, rest := s[1..1 + n], s[1 + n..];
      TokensSplit(s, n);
      EscapeUnescape(e);
      TextOfTokens(rest);
      hide Tokens, Escape, Unescape, TokenLength, TildesEscaped;
      var p := Tokens(s).value;
      assert p[1..] == Tokens(rest).value;
    }
  }

  /** The escapes of RFC 6901, section 3, and the order in which they are undone: ~01 stands for ~1, not for a slash. */
  lemma EscapeExamples()
    ensures Escape(Ascii("~")) == Ascii("~0") && Escape(Ascii("/")) == Ascii("~1") && Unescape(Ascii("~01")) == Ascii("~1")
  {
    assert Ascii("~") == [TILDE] && Ascii("/") == [SLASH] && Ascii("~0") == ESC_TILDE && Ascii("~1") == ESC_SLASH;
    assert Ascii("~01") == ESC_TILDE + [49] && Ascii("~1") == [TILDE] + [49];
    EscapeCons(TILDE, []);
    EscapeCons(SLASH, []);
    EscapeCons(49, []);
    EscapeCons(TILDE, [49]);
    assert Escape([]) == [];
    hide Escape, Unescape;
    assert [TILDE] + [] == [TILDE] && [SLASH] + [] == [SLASH] && [49] + [] == [49];
    assert Escape([TILDE, 49]) == ESC_TILDE + [49];
    UnescapeEscape([TILDE, 49]);
  }
}
