/** flatten and unflatten: a document as a map from pointer text to primitive value, and back. */
module JsonFlatten {
  import opened Bytes
  import opened JsonValue
  import opened JsonPointer
  import opened Numbers

  type Path = seq<Text>

  const ZERO_TOKEN: Text := [48]  // 0

  predicate IsEmptyContainer(j: Json) { (j.Array? && j.a == []) || (j.Object? && j.m == map[]) }

  /** Primitive values and empty containers have no children. */
  predicate IsLeafValue(j: Json) { IsPrimitive(j) || IsEmptyContainer(j) }

  /** A token names index n of an array exactly when it is n's decimal text. */
  predicate IsIndex(token: Text, n: nat) { DigitsValue(token, 0) < n && Decimal(DigitsValue(token, 0)) == token }

  predicate HasChild(j: Json, token: Text) {
    (j.Array? && IsIndex(token, |j.a|)) || (j.Object? && token in j.m)
  }

  function Child(j: Json, token: Text): (c: Json)
    requires HasChild(j, token)
    ensures c < j
  {
    if j.Array? then j.a[DigitsValue(token, 0)] else j.m[token]
  }

  lemma DecimalIndexes()
    ensures forall n: nat, i | 0 <= i < n :: IsIndex(Decimal(i), n)
  {
    forall n: nat, i | 0 <= i < n ensures IsIndex(Decimal(i), n) { DecimalValue(i); }
  }

  // ------------------------------------------------------------------ flatten

  function FlatValue(j: Json): Json { if IsPrimitive(j) then j else Null }

  function ChildTokens(j: Json): (ts: seq<Text>)
    requires !IsLeafValue(j)
    ensures forall t | t in ts :: HasChild(j, t)
  {
    if j.Array? then
      DecimalIndexes();
      seq(|j.a|, i requires 0 <= i < |j.a| => Decimal(i))
    else SortedKeys(j.m.Keys)
  }

  /** json_pointer::flatten: the insertions into result, in order. */
  function FlattenInto(result: map<Text, Json>, ref: Text, j: Json): map<Text, Json>
    decreases j, 1, 0
  {
    if IsLeafValue(j) then result[ref := FlatValue(j)]
    else FlattenChildren(result, ref, j, ChildTokens(j), |ChildTokens(j)|)
  }

  function FlattenChildren(result: map<Text, Json>, ref: Text, j: Json, ts: seq<Text>, n: nat): map<Text, Json>
    requires n <= |ts| && forall t | t in ts :: HasChild(j, t)
    decreases j, 0, n
  {
    if n == 0 then result
    else FlattenInto(FlattenChildren(result, ref, j, ts, n - 1), ref + [SLASH] + Escape(ts[n - 1]), Child(j, ts[n - 1]))
  }

  lemma FlattenNext(result: map<Text, Json>, ref: Text, j: Json, ts: seq<Text>, n: nat)
    requires n < |ts| && forall t | t in ts :: HasChild(j, t)
    ensures FlattenChildren(result, ref, j, ts, 0) == result
    ensures FlattenChildren(result, ref, j, ts, n + 1)
      == FlattenInto(FlattenChildren(result, ref, j, ts, n), ref + [SLASH] + Escape(ts[n]), Child(j, ts[n]))
  {
    hide Escape, Child, FlattenInto, HasChild;
  }

  lemma ArrayToken(j: Json, i: nat)
    requires j.Array? && i < |j.a|
    ensures |ChildTokens(j)| == |j.a| && ChildTokens(j)[i] == Decimal(i)
    ensures HasChild(j, Decimal(i)) && Child(j, Decimal(i)) == j.a[i] && Escape(Decimal(i)) == Decimal(i)
  {
    hide Decimal, Escape;
    EscapeDigits(Decimal(i));
    DecimalValue(i);
  }

  method Flatten(ref: Text, value: Json, before: map<Text, Json>) returns (result: map<Text, Json>)
    ensures result == FlattenInto(before, ref, value)
    decreases value
  {
    hide Decimal, Escape, SortedKeys, FlattenChildren;
    result := before;
    if value.Array? && value.a != [] {
      ghost var ts := ChildTokens(value);
      ArrayToken(value, 0);
      FlattenNext(before, ref, value, ts, 0);
      for i := 0 to |value.a|
        invariant result == FlattenChildren(before, ref, value, ts, i)
      {
        ArrayToken(value, i);
        FlattenNext(before, ref, value, ts, i);
        result := Flatten(ref + [SLASH] + Decimal(i), value.a[i], result);
      }
    } else if value.Object? && value.m != map[] {
      var ks := SortedKeys(value.m.Keys);
      assert ks != [] by { var k :| k in value.m; assert k in ks; }
      FlattenNext(before, ref, value, ks, 0);
      for i := 0 to |ks|
        invariant result == FlattenChildren(before, ref, value, ks, i)
      {
        FlattenNext(before, ref, value, ks, i);
        var key := EscapeText(ks[i]);
        result := Flatten(ref + [SLASH] + key, value.m[ks[i]], result);
      }
    } else if IsEmptyContainer(value) {
      result := result[ref := Null];
    } else {
      result := result[ref := value];
    }
  }

  // ---------------------------------------------------------------- unflatten

  function ElementOrNull(a: seq<Json>, i: nat): Json { if i < |a| then a[i] else Null }

  /** operator[](i) = v on an array: missing elements before i are filled with null. */
  function SetElement(a: seq<Json>, i: nat, v: Json): seq<Json> {
    if i < |a| then a[i := v] else a + Nulls(i - |a|) + [v]
  }

  function MemberOrNull(m: map<Text, Json>, k: Text): Json { if k in m then m[k] else Null }

  /** get_and_create(j) = v. */
  function Create(j: Json, p: Path, v: Json): Result<Json>
    decreases |p|
  {
    if p == [] then Ok(v)
    else match j
      case Null =>
        var r :- Create(Null, p[1..], v);
        Ok(if p[0] == ZERO_TOKEN then Array([r]) else Object(map[p[0] := r]))
      case Object(m) =>
        var r :- Create(MemberOrNull(m, p[0]), p[1..], v);
        Ok(Object(m[p[0] := r]))
      case Array(a) =>
        var i :- Stoi(p[0]);
        if i < 0 then Err(LengthError)
        else var r :- Create(ElementOrNull(a, i), p[1..], v); Ok(Array(SetElement(a, i, r)))
      case _ => Err(DomainError)
  }

  function UnflattenFrom(j: Json, m: map<Text, Json>, ks: seq<Text>): Result<Json>
    requires forall k | k in ks :: k in m
    decreases |ks|
  {
    if ks == [] then Ok(j)
    else if !IsPrimitive(m[ks[0]]) then Err(DomainError)
    else var p :- Tokens(ks[0]); var r :- Create(j, p, m[ks[0]]); UnflattenFrom(r, m, ks[1..])
  }

  function UnflattenSpec(value: Json): Result<Json> {
    if value.Object? then UnflattenFrom(Null, value.m, SortedKeys(value.m.Keys)) else Err(DomainError)
  }

  method Unflatten(value: Json) returns (r: Result<Json>)
    ensures r == UnflattenSpec(value)
  {
    if !value.Object? { return Err(DomainError); }
    var result := Null;
    var ks := SortedKeys(value.m.Keys);
    for i := 0 to |ks|
      invariant UnflattenSpec(value) == UnflattenFrom(result, value.m, ks[i..])
    {
      assert ks[i..][1..] == ks[i + 1..];
      if !IsPrimitive(value.m[ks[i]]) { return Err(DomainError); }
      var p := Split(ks[i]);
      if p.Err? { return Err(p.error); }
      var next := Create(result, p.value, value.m[ks[i]]);
      if next.Err? { return Err(next.error); }
      result := next.value;
    }
    r := Ok(result);
  }

  // ------------------------------------------------------ leaves of a document

  /** p leads from j to a value without children. */
  predicate IsLeaf(j: Json, p: Path)
    decreases |p|
  {
    if p == [] then IsLeafValue(j) else HasChild(j, p[0]) && IsLeaf(Child(j, p[0]), p[1..])
  }

  function LeafAt(j: Json, p: Path): Json
    requires IsLeaf(j, p)
    decreases |p|
  {
    if p == [] then FlatValue(j) else LeafAt(Child(j, p[0]), p[1..])
  }

  /** Key k of a flattened document: the text of prefix t followed by a leaf path of j. */
  predicate IsLeafText(j: Json, t: Path, k: Text) {
    Tokens(k).Ok? && t <= Tokens(k).value && IsLeaf(j, Tokens(k).value[|t|..])
  }

  function LeafOfText(j: Json, t: Path, k: Text): Json
    requires IsLeafText(j, t, k)
  {
    LeafAt(j, Tokens(k).value[|t|..])
  }

  lemma LeafTextChild(j: Json, t: Path, k: Text)
    requires !IsLeafValue(j)
    ensures IsLeafText(j, t, k) <==>
      Tokens(k).Ok? && |t| < |Tokens(k).value| && t <= Tokens(k).value && var token := Tokens(k).value[|t|];
      HasChild(j, token) && IsLeafText(Child(j, token), t + [token], k)
    ensures IsLeafText(j, t, k) ==> var token := Tokens(k).value[|t|];
      LeafOfText(j, t, k) == LeafOfText(Child(j, token), t + [token], k)
  {
    if Tokens(k).Ok? {
      var p := Tokens(k).value;
      if |t| < |p| && t <= p {
        assert p[|t|..][0] == p[|t|] && p[|t|..][1..] == p[|t| + 1..] == p[|t + [p[|t|]]|..];
        assert t + [p[|t|]] == p[..|t| + 1];
      } else if t <= p {
        assert p[|t|..] == [];
      }
    }
  }

  predicate Via(k: Text, t: Path, tokens: seq<Text>) {
    Tokens(k).Ok? && |t| < |Tokens(k).value| && Tokens(k).value[|t|] in tokens
  }

  /** What flatten adds to before: exactly one entry for each leaf that goes through one of the tokens. */
  ghost predicate Adds(after: map<Text, Json>, before: map<Text, Json>, j: Json, t: Path, tokens: seq<Text>) {
    && (forall k :: k in after <==> k in before || (IsLeafText(j, t, k) && Via(k, t, tokens)))
    && (forall k | IsLeafText(j, t, k) && Via(k, t, tokens) :: after[k] == LeafOfText(j, t, k))
    && (forall k | k in before && !(IsLeafText(j, t, k) && Via(k, t, tokens)) :: after[k] == before[k])
  }

  ghost predicate AddsAll(after: map<Text, Json>, before: map<Text, Json>, j: Json, t: Path) {
    && (forall k :: k in after <==> k in before || IsLeafText(j, t, k))
    && (forall k | IsLeafText(j, t, k) :: after[k] == LeafOfText(j, t, k))
    && (forall k | k in before && !IsLeafText(j, t, k) :: after[k] == before[k])
  }

  lemma {:induction false} FlattenAdds(before: map<Text, Json>, t: Path, j: Json)
    ensures AddsAll(FlattenInto(before, PointerText(t), j), before, j, t)
    decreases j, 1, 0
  {
    if IsLeafValue(j) {
      FlattenLeafAdds(before, t, j);
    } else {
      var ts := ChildTokens(j);
      FlattenChildrenAdds(before, t, j, ts, |ts|);
      assert ts[..|ts|] == ts;
      hide FlattenChildren, ChildTokens, Adds, AddsAll;
      AddsByAllChildren(FlattenInto(before, PointerText(t), j), before, j, t);
    }
  }

  lemma AddsByAllChildren(after: map<Text, Json>, before: map<Text, Json>, j: Json, t: Path)
    requires !IsLeafValue(j) && Adds(after, before, j, t, ChildTokens(j))
    ensures AddsAll(after, before, j, t)
  {
    hide ChildTokens, IsLeafText, LeafOfText;
    forall k | IsLeafText(j, t, k) ensures Via(k, t, ChildTokens(j)) {
      LeafTextChild(j, t, k);
      ChildTokensComplete(j, Tokens(k).value[|t|]);
    }
  }

  lemma FlattenLeafAdds(before: map<Text, Json>, t: Path, j: Json)
    requires IsLeafValue(j)
    ensures AddsAll(before[PointerText(t) := FlatValue(j)], before, j, t)
  {
    hide IsLeafText, LeafOfText, PointerText, Tokens;
    forall k ensures IsLeafText(j, t, k) <==> k == PointerText(t) {
      PointerRoundTrip(k, t);
      LeafTextLeaf(j, t, k);
    }
    LeafTextLeaf(j, t, PointerText(t));
  }

  lemma ChildTokensComplete(j: Json, token: Text)
    requires !IsLeafValue(j) && HasChild(j, token)
    ensures token in ChildTokens(j)
  {
    if j.Array? { assert ChildTokens(j)[DigitsValue(token, 0)] == token; }
  }

  lemma LeafTextLeaf(j: Json, t: Path, k: Text)
    requires IsLeafValue(j)
    ensures IsLeafText(j, t, k) <==> Tokens(k) == Ok(t)
    ensures IsLeafText(j, t, k) ==> LeafOfText(j, t, k) == FlatValue(j)
  {
    if Tokens(k).Ok? && t <= Tokens(k).value {
      var p := Tokens(k).value;
      assert p == t + p[|t|..] && t + [] == t;
    }
  }

  lemma {:induction false} FlattenChildrenAdds(before: map<Text, Json>, t: Path, j: Json, ts: seq<Text>, n: nat)
    requires !IsLeafValue(j) && n <= |ts| && forall x | x in ts :: HasChild(j, x)
    ensures Adds(FlattenChildren(before, PointerText(t), j, ts, n), before, j, t, ts[..n])
    decreases j, 0, n
  {
    hide IsLeafText, FlattenInto, LeafOfText;
    if n > 0 {
      var x := ts[n - 1];
      hide FlattenChildren, PointerText, Adds, AddsAll;
      var prev := FlattenChildren(before, PointerText(t), j, ts, n - 1);
      var after := FlattenChildren(before, PointerText(t), j, ts, n);
      FlattenChildrenAdds(before, t, j, ts, n - 1);
      PointerTextSnoc(t, x);
      FlattenNext(before, PointerText(t), j, ts, n - 1);
      FlattenAdds(prev, t + [x], Child(j, x));
      AddsStep(after, prev, before, j, t, ts[..n - 1], x);
      assert ts[..n] == ts[..n - 1] + [x];
    }
  }

  lemma ViaSnoc(t: Path, ts: seq<Text>, x: Text)
    ensures forall k :: Via(k, t, ts + [x]) <==> Via(k, t, ts) || Via(k, t, [x])
  {
  }

  lemma AddsStep(after: map<Text, Json>, prev: map<Text, Json>, before: map<Text, Json>, j: Json, t: Path, ts: seq<Text>, x: Text)
    requires !IsLeafValue(j) && HasChild(j, x)
    requires Adds(prev, before, j, t, ts) && AddsAll(after, prev, Child(j, x), t + [x])
    ensures Adds(after, before, j, t, ts + [x])
  {
    hide IsLeafText, LeafOfText, Via;
    ViaSnoc(t, ts, x);
    forall k ensures IsLeafText(Child(j, x), t + [x], k) <==> IsLeafText(j, t, k) && Via(k, t, [x]) {
      ThroughChild(j, t, x, k);
    }
    forall k | IsLeafText(j, t, k) && Via(k, t, [x]) ensures LeafOfText(Child(j, x), t + [x], k) == LeafOfText(j, t, k) {
      ThroughChild(j, t, x, k);
    }
  }

  lemma ThroughChild(j: Json, t: Path, x: Text, k: Text)
    requires !IsLeafValue(j) && HasChild(j, x)
    ensures IsLeafText(Child(j, x), t + [x], k) <==> IsLeafText(j, t, k) && Via(k, t, [x])
    ensures IsLeafText(j, t, k) && Via(k, t, [x]) ==> LeafOfText(Child(j, x), t + [x], k) == LeafOfText(j, t, k)
  {
    LeafTextChild(j, t, k);
    if IsLeafText(Child(j, x), t + [x], k) {
      var p := Tokens(k).value;
      assert p[..|t| + 1] == t + [x];
      assert p[|t|] == (t + [x])[|t|] && p[..|t|] == (t + [x])[..|t|];
    }
  }

  // ------------------------------------------------------- order of the leaves

  /** A flattened entry: the tokens of its key and its value. */
  datatype Entry = Entry(path: Path, v: Json)

  /** The order std::map gives the keys. */
  predicate Before(p: Path, q: Path) { LexLess(PointerText(p), PointerText(q)) }

  predicate Ordered(ps: seq<Entry>) {
    ps != [] ==> (forall e | e in ps[1..] :: Before(ps[0].path, e.path)) && Ordered(ps[1..])
  }

  /** ps is what unflatten reads when j was flattened: every leaf once, in key order. */
  ghost predicate Lists(ps: seq<Entry>, j: Json) {
    && Ordered(ps)
    && (forall e | e in ps :: IsLeaf(j, e.path) && e.v == LeafAt(j, e.path))
    && (forall p | IsLeaf(j, p) :: Entry(p, LeafAt(j, p)) in ps)
  }

  /** The entries that go through a child, seen from the child. */
  function Sub(ps: seq<Entry>, token: Text): seq<Entry> {
    if ps == [] then []
    else if ps[0].path != [] && ps[0].path[0] == token then [Entry(ps[0].path[1..], ps[0].v)] + Sub(ps[1..], token)
    else Sub(ps[1..], token)
  }

  lemma {:induction false} SubIn(ps: seq<Entry>, token: Text, e: Entry)
    ensures e in Sub(ps, token) <==> Entry([token] + e.path, e.v) in ps
  {
    if ps != [] {
      var h := ps[0];
      SubIn(ps[1..], token, e);
      if h == Entry([token] + e.path, e.v) { assert h.path[1..] == e.path; }
      if h.path != [] && h.path[0] == token && Entry(h.path[1..], h.v) == e { assert h.path == [token] + e.path; }
      assert Entry([token] + e.path, e.v) in ps <==> h == Entry([token] + e.path, e.v) || Entry([token] + e.path, e.v) in ps[1..];
    }
  }

  lemma {:induction false} SubNone(ps: seq<Entry>, token: Text)
    requires forall e | e in ps :: e.path == [] || e.path[0] != token
    ensures Sub(ps, token) == []
  {
    if ps != [] {
      assert ps[0] in ps;
      SubNone(ps[1..], token);
    }
  }

  lemma BeforeWithin(token: Text, p: Path, q: Path)
    ensures Before([token] + p, [token] + q) == Before(p, q)
  {
    hide PointerText;
    PointerTextAppend([token], p);
    PointerTextAppend([token], q);
    LexStripPrefix(PointerText([token]), PointerText(p), PointerText(q));
  }

  lemma {:induction false} SubOrdered(ps: seq<Entry>, token: Text)
    requires Ordered(ps)
    ensures Ordered(Sub(ps, token))
  {
    hide Before;
    if ps != [] {
      SubOrdered(ps[1..], token);
      var h := ps[0];
      if h.path != [] && h.path[0] == token {
        forall e | e in Sub(ps[1..], token) ensures Before(h.path[1..], e.path) {
          SubIn(ps[1..], token, e);
          BeforeWithin(token, h.path[1..], e.path);
          assert h.path == [token] + h.path[1..];
        }
        assert Sub(ps, token)[1..] == Sub(ps[1..], token);
      }
    }
  }

  lemma SubLists(ps: seq<Entry>, j: Json, token: Text)
    requires Lists(ps, j) && !IsLeafValue(j) && HasChild(j, token)
    ensures Lists(Sub(ps, token), Child(j, token))
  {
    hide Sub, Ordered;
    var c := Child(j, token);
    SubOrdered(ps, token);
    forall e | e in Sub(ps, token) ensures IsLeaf(c, e.path) && e.v == LeafAt(c, e.path) {
      SubIn(ps, token, e);
      LeafVia(j, token, e.path);
    }
    forall p | IsLeaf(c, p) ensures Entry(p, LeafAt(c, p)) in Sub(ps, token) {
      LeafVia(j, token, p);
      SubIn(ps, token, Entry(p, LeafAt(c, p)));
    }
  }

  lemma LeafVia(j: Json, token: Text, p: Path)
    requires HasChild(j, token)
    ensures IsLeaf(j, [token] + p) <==> IsLeaf(Child(j, token), p)
    ensures IsLeaf(j, [token] + p) ==> LeafAt(j, [token] + p) == LeafAt(Child(j, token), p)
  {
    assert ([token] + p)[1..] == p;
  }

  /** Every document has a leaf. */
  lemma {:induction false} SomeLeaf(j: Json) returns (p: Path)
    ensures IsLeaf(j, p)
    decreases j
  {
    if IsLeafValue(j) {
      p := [];
    } else {
      var token := if j.Array? then ZERO_TOKEN else Least(j.m.Keys);
      assert j.Array? ==> IsIndex(token, |j.a|) by { DecimalValue(0); }
      assert HasChild(j, token);
      var q := SomeLeaf(Child(j, token));
      LeafVia(j, token, q);
      p := [token] + q;
    }
  }

  /** Whether the entries of member k come after those of a member "0" with the given value: decided by the escaped
      key, because "/" sorts before the digits and ends the shorter key's token. */
  predicate AfterZero(k: Text, zero: Json) {
    var e := Escape(k);
    e != [] && (e[0] > ZERO || (e[0] == ZERO && |e| > 1 && (IsLeafValue(zero) || e[1] > SLASH)))
  }

  /** Member "0" is the first one unflatten visits, so it starts an array (RFC 6901 leaves this open). */
  predicate ZeroFirst(m: map<Text, Json>) {
    ZERO_TOKEN in m && forall k | k in m && k != ZERO_TOKEN :: AfterZero(k, m[ZERO_TOKEN])
  }

  lemma EscapeZero()
    ensures Escape(ZERO_TOKEN) == ZERO_TOKEN
  {
    EscapeDigits(ZERO_TOKEN);
  }

  lemma EscapeInjective(a: Text, b: Text)
    requires Escape(a) == Escape(b)
    ensures a == b
  {
    UnescapeEscape(a);
    UnescapeEscape(b);
  }

  lemma ZeroTextBefore(e: Text, p: Text, q: Text)
    requires e != ZERO_TOKEN && SLASH !in e && (p != [] ==> p[0] == SLASH) && (q != [] ==> q[0] == SLASH)
    ensures LexLess([ZERO] + p, e + q) <==>
      e != [] && (e[0] > ZERO || (e[0] == ZERO && |e| > 1 && (p == [] || e[1] > SLASH)))
  {
    hide LexLess;
    var x, y := [ZERO] + p, e + q;
    if y == [] {
      LexStep(x, [ZERO]);
    } else {
      LexStep(x, y);
      assert x[0] == ZERO && x[1..] == p;
      if e == [] {
        assert y[0] == SLASH;
      } else {
        assert y[0] == e[0] && e == [e[0]] + e[1..];
        if e[0] == ZERO {
          TailBefore(e[1..], p, q);
          assert y[1..] == e[1..] + q;
        }
      }
    }
  }

  lemma TailBefore(r: Text, p: Text, q: Text)
    requires r != [] && SLASH !in r && (p != [] ==> p[0] == SLASH)
    ensures LexLess(p, r + q) <==> p == [] || r[0] > SLASH
  {
    assert r[0] in r && (r + q)[0] == r[0];
    if p == [] { LexStep([ZERO], r + q); } else { LexStep(p, r + q); }
  }

  /** Leaf texts below "0" and below another token, compared. */
  lemma ZeroBefore(zero: Json, p: Path, k: Text, q: Path)
    requires k != ZERO_TOKEN && (p == [] <==> IsLeafValue(zero))
    ensures Before([ZERO_TOKEN] + p, [k] + q) <==> AfterZero(k, zero)
  {
    hide LexLess;
    EscapeZero();
    EscapeShape(k);
    if Escape(k) == ZERO_TOKEN { EscapeInjective(k, ZERO_TOKEN); }
    hide Escape;
    PointerTextAppend([ZERO_TOKEN], p);
    PointerTextAppend([k], q);
    assert [k][1..] == [] && [ZERO_TOKEN][1..] == [];
    assert PointerText([ZERO_TOKEN] + p) == [SLASH] + ([ZERO] + PointerText(p));
    assert PointerText([k] + q) == [SLASH] + (Escape(k) + PointerText(q));
    LexStripPrefix([SLASH], [ZERO] + PointerText(p), Escape(k) + PointerText(q));
    ZeroTextBefore(Escape(k), PointerText(p), PointerText(q));
  }

  // ----------------------------------------------------------- the rebuilding

  function Fold(j: Json, ps: seq<Entry>): Result<Json>
    decreases |ps|
  {
    if ps == [] then Ok(j) else var r :- Create(j, ps[0].path, ps[0].v); Fold(r, ps[1..])
  }

  function ElementFold(a: seq<Json>, ps: seq<Entry>, i: nat): Result<Json> {
    Fold(ElementOrNull(a, i), Sub(ps, Decimal(i)))
  }

  /** Once the value is an array, each element is rebuilt from its own entries, in any interleaving. */
  ghost predicate ArrayOutcome(r: Result<Json>, a: seq<Json>, ps: seq<Entry>, n: nat) {
    && (r.Ok? <==> forall i | 0 <= i < n :: ElementFold(a, ps, i).Ok?)
    && (r.Ok? ==> r.value.Array? && |a| <= |r.value.a| <= n)
    && (r.Ok? ==> forall e | e in ps && e.path != [] :: DigitsValue(e.path[0], 0) < |r.value.a|)
    && (r.Ok? ==> forall i | 0 <= i < n :: ElementFold(a, ps, i) == Ok(ElementOrNull(r.value.a, i)))
  }

  predicate AllIndexes(ps: seq<Entry>, n: nat) {
    forall e | e in ps :: e.path != [] && IsIndex(e.path[0], n)
  }

  lemma SetElementGet(a: seq<Json>, i: nat, v: Json, k: nat)
    ensures ElementOrNull(SetElement(a, i, v), k) == if k == i then v else ElementOrNull(a, k)
    ensures |SetElement(a, i, v)| == if i < |a| then |a| else i + 1
  {
  }

  lemma DecimalInjective(i: nat, k: nat)
    requires Decimal(i) == Decimal(k)
    ensures i == k
  {
    DecimalValue(i);
    DecimalValue(k);
  }

  lemma ElementFoldStep(a: seq<Json>, ps: seq<Entry>, i: nat, k: nat)
    requires ps != [] && ps[0].path != [] && ps[0].path[0] == Decimal(i)
    ensures var c := Create(ElementOrNull(a, i), ps[0].path[1..], ps[0].v);
      (k == i && c.Err? ==> ElementFold(a, ps, k) == c) &&
      (c.Ok? ==> ElementFold(a, ps, k) == ElementFold(SetElement(a, i, c.value), ps[1..], k))
  {
    hide Create, SetElement, ElementOrNull;
    var c := Create(ElementOrNull(a, i), ps[0].path[1..], ps[0].v);
    if c.Ok? { SetElementGet(a, i, c.value, k); }
    if k == i {
      var s := Sub(ps, Decimal(i));
      assert s == [Entry(ps[0].path[1..], ps[0].v)] + Sub(ps[1..], Decimal(i));
      assert s[1..] == Sub(ps[1..], Decimal(i));
    } else {
      if Decimal(i) == Decimal(k) { DecimalInjective(i, k); }
    }
  }

  lemma {:induction false} ArrayFold(a: seq<Json>, ps: seq<Entry>, n: nat)
    requires AllIndexes(ps, n) && |a| <= n <= INT_MAX + 1
    ensures ArrayOutcome(Fold(Array(a), ps), a, ps, n)
    decreases |ps|
  {
    hide Create, SetElement, ElementOrNull, Decimal, DigitsValue;
    if ps == [] {
      assert forall i :: Sub(ps, Decimal(i)) == [];
    } else {
      assert ps[0] in ps;
      var i := DigitsValue(ps[0].path[0], 0);
      forall k: nat { ElementFoldStep(a, ps, i, k); }
      ArrayCreate(a, i, ps[0].path, ps[0].v);
      var c := Create(ElementOrNull(a, i), ps[0].path[1..], ps[0].v);
      if c.Ok? {
        SetElementGet(a, i, c.value, i);
        ArrayFold(SetElement(a, i, c.value), ps[1..], n);
        hide Fold, ElementFold;
        assert forall e :: e in ps ==> e == ps[0] || e in ps[1..];
      } else {
        assert ElementFold(a, ps, i).Err?;
      }
    }
  }

  lemma ArrayCreate(a: seq<Json>, i: nat, p: Path, v: Json)
    requires p != [] && p[0] == Decimal(i) && i <= INT_MAX
    ensures var c := Create(ElementOrNull(a, i), p[1..], v);
      Create(Array(a), p, v) == if c.Err? then c else Ok(Array(SetElement(a, i, c.value)))
  {
    hide Stoi, ElementOrNull, SetElement;
    StoiDecimal(i);
  }

  function MemberFold(m: map<Text, Json>, ps: seq<Entry>, k: Text): Result<Json> {
    Fold(MemberOrNull(m, k), Sub(ps, k))
  }

  function Heads(ps: seq<Entry>): set<Text> { set e | e in ps && e.path != [] :: e.path[0] }

  lemma HeadsNext(ps: seq<Entry>)
    requires ps != [] && ps[0].path != []
    ensures Heads(ps) == {ps[0].path[0]} + Heads(ps[1..])
  {
    assert forall e :: e in ps <==> e == ps[0] || e in ps[1..];
    assert ps[0] in ps;
  }

  ghost predicate ObjectOutcome(r: Result<Json>, m: map<Text, Json>, ps: seq<Entry>) {
    && (r.Ok? <==> forall k :: MemberFold(m, ps, k).Ok?)
    && (r.Ok? ==> r.value.Object? && r.value.m.Keys == m.Keys + Heads(ps))
    && (r.Ok? ==> forall k | k in r.value.m :: MemberFold(m, ps, k) == Ok(r.value.m[k]))
  }

  lemma MemberFoldStep(m: map<Text, Json>, ps: seq<Entry>, k: Text)
    requires ps != [] && ps[0].path != []
    ensures var x := ps[0].path[0];
      var c := Create(MemberOrNull(m, x), ps[0].path[1..], ps[0].v);
      (k == x && c.Err? ==> MemberFold(m, ps, k) == c) &&
      (c.Ok? ==> MemberFold(m, ps, k) == MemberFold(m[x := c.value], ps[1..], k))
  {
    hide Create;
    var x := ps[0].path[0];
    if k == x {
      var s := Sub(ps, x);
      assert s == [Entry(ps[0].path[1..], ps[0].v)] + Sub(ps[1..], x);
      assert s[1..] == Sub(ps[1..], x);
    }
  }

  lemma ObjectOutcomeStep(r: Result<Json>, m: map<Text, Json>, ps: seq<Entry>, n: map<Text, Json>, qs: seq<Entry>)
    requires ObjectOutcome(r, n, qs) && m.Keys + Heads(ps) == n.Keys + Heads(qs)
    requires forall k :: MemberFold(m, ps, k) == MemberFold(n, qs, k)
    ensures ObjectOutcome(r, m, ps)
  {
    hide MemberFold, Heads;
    assert (forall k :: MemberFold(m, ps, k).Ok?) <==> (forall k :: MemberFold(n, qs, k).Ok?) by {
      if forall k :: MemberFold(m, ps, k).Ok? {
        forall k ensures MemberFold(n, qs, k).Ok? { assert MemberFold(m, ps, k).Ok?; }
      }
    }
  }

  lemma {:induction false} ObjectFold(m: map<Text, Json>, ps: seq<Entry>)
    requires forall e | e in ps :: e.path != []
    ensures ObjectOutcome(Fold(Object(m), ps), m, ps)
    decreases |ps|
  {
    if ps == [] {
      assert forall k :: Sub(ps, k) == [];
    } else {
      assert ps[0] in ps;
      var x := ps[0].path[0];
      var c := Create(MemberOrNull(m, x), ps[0].path[1..], ps[0].v);
      assert Create(Object(m), ps[0].path, ps[0].v) == if c.Err? then c else Ok(Object(m[x := c.value]));
      hide Create, MemberOrNull, MemberFold;
      forall k ensures (k == x && c.Err? ==> MemberFold(m, ps, k) == c) &&
        (c.Ok? ==> MemberFold(m, ps, k) == MemberFold(m[x := c.value], ps[1..], k))
      {
        MemberFoldStep(m, ps, k);
      }
      if c.Ok? {
        ObjectFold(m[x := c.value], ps[1..]);
        HeadsNext(ps);
        ObjectOutcomeStep(Fold(Object(m[x := c.value]), ps[1..]), m, ps, m[x := c.value], ps[1..]);
      } else {
        assert MemberFold(m, ps, x).Err?;
      }
    }
  }

  /** Starting from null, the first token decides between array and object. */
  lemma FoldFromNull(ps: seq<Entry>)
    requires ps != [] && ps[0].path != []
    ensures Fold(Null, ps) == Fold(if ps[0].path[0] == ZERO_TOKEN then Array([]) else Object(map[]), ps)
  {
    var p, v := ps[0].path, ps[0].v;
    if p[0] == ZERO_TOKEN {
      assert Decimal(0) == ZERO_TOKEN;
      ArrayCreate([], 0, p, v);
      assert forall x :: SetElement([], 0, x) == [x];
    }
  }

  // ---------------------------------------------------------------- the theorem

  /** What unflatten can give back: empty containers come back as null. */
  function Emptied(j: Json): Json {
    if IsEmptyContainer(j) then Null
    else match j
      case Array(a) => Array(seq(|a|, i requires 0 <= i < |a| => Emptied(a[i])))
      case Object(m) => Object(map k | k in m :: Emptied(m[k]))
      case _ => j
  }

  predicate HasEmpty(j: Json) {
    IsEmptyContainer(j) ||
    match j
    case Array(a) => exists i | 0 <= i < |a| :: HasEmpty(a[i])
    case Object(m) => exists k | k in m :: HasEmpty(m[k])
    case _ => false
  }

  /** No array is longer than std::stoi can index, and no object is visited through its member "0" first. */
  predicate Rebuildable(j: Json) {
    match j
    case Array(a) => |a| <= INT_MAX + 1 && forall i | 0 <= i < |a| :: Rebuildable(a[i])
    case Object(m) => !ZeroFirst(m) && forall k | k in m :: Rebuildable(m[k])
    case _ => true
  }

  /** r is a document equal to j under operator==. */
  predicate GivesBack(r: Result<Json>, j: Json) { r.Ok? && JsonEq(r.value, j) }

  /** Turning empty containers into null leaves an equal document exactly when there are none, and no NaN. */
  lemma {:induction false} EmptiedEq(j: Json)
    ensures JsonEq(Emptied(j), j) <==> !HasEmpty(j) && !HasNaN(j)
  {
    if !IsEmptyContainer(j) {
      match j
      case Array(a) =>
        var b := Emptied(j).a;
        forall i | 0 <= i < |a| ensures b[i] == Emptied(a[i]) && (JsonEq(b[i], a[i]) <==> !HasEmpty(a[i]) && !HasNaN(a[i])) {
          EmptiedEq(a[i]);
        }
      case Object(m) =>
        forall k | k in m ensures JsonEq(Emptied(m[k]), m[k]) <==> !HasEmpty(m[k]) && !HasNaN(m[k]) { EmptiedEq(m[k]); }
      case _ =>
    }
  }

  lemma LeafBase(ps: seq<Entry>, j: Json)
    requires IsLeafValue(j) && Lists(ps, j)
    ensures Fold(Null, ps) == Ok(FlatValue(j))
  {
    assert IsLeaf(j, []);
    assert ps != [];
    forall e | e in ps ensures e == Entry([], FlatValue(j)) {}
    assert ps[0] in ps;
    if ps[1..] != [] {
      assert ps[1] in ps[1..] && ps[1] in ps;
      LexIrreflexive(PointerText([]));
    }
  }

  /** An index std::stoi cannot represent makes the rebuilding of an array fail. */
  lemma {:induction false} HugeArrayFails(a: seq<Json>, ps: seq<Entry>, e: Entry)
    requires (forall x | x in ps :: x.path != []) && e in ps
    requires exists i: nat :: i > INT_MAX && e.path[0] == Decimal(i)
    ensures Fold(Array(a), ps).Err?
    decreases |ps|
  {
    hide Decimal, Stoi;
    var i: nat :| i > INT_MAX && e.path[0] == Decimal(i);
    StoiDecimal(i);
    assert ps[0] in ps;
    var r := Create(Array(a), ps[0].path, ps[0].v);
    if ps[0] != e && r.Ok? {
      assert r.value.Array?;
      HugeArrayFails(r.value.a, ps[1..], e);
    }
  }

  lemma {:induction false} ArrayStaysArray(a: seq<Json>, ps: seq<Entry>)
    requires forall e | e in ps :: e.path != []
    ensures var r := Fold(Array(a), ps); r.Ok? ==> r.value.Array?
    decreases |ps|
  {
    hide Stoi;
    if ps != [] {
      assert ps[0] in ps;
      var r := Create(Array(a), ps[0].path, ps[0].v);
      if r.Ok? { ArrayStaysArray(r.value.a, ps[1..]); }
    }
  }

  lemma NonEmptyPaths(ps: seq<Entry>, j: Json)
    requires Lists(ps, j) && !IsLeafValue(j)
    ensures ps != [] && forall e | e in ps :: e.path != [] && HasChild(j, e.path[0])
  {
    var p := SomeLeaf(j);
    assert Entry(p, LeafAt(j, p)) in ps;
  }

  /** The first entry of an array is below its element 0. */
  lemma ArrayStartsAtZero(ps: seq<Entry>, j: Json)
    requires Lists(ps, j) && j.Array? && j.a != []
    ensures ps != [] && ps[0].path != [] && ps[0].path[0] == ZERO_TOKEN
  {
    NonEmptyPaths(ps, j);
    var h := ps[0];
    assert h in ps;
    var i := DigitsValue(h.path[0], 0);
    if i != 0 {
      DecimalValue(0);
      assert HasChild(j, ZERO_TOKEN);
      var q := SomeLeaf(Child(j, ZERO_TOKEN));
      LeafVia(j, ZERO_TOKEN, q);
      var e := Entry([ZERO_TOKEN] + q, LeafAt(j, [ZERO_TOKEN] + q));
      assert e in ps && e != h;
      assert Before(h.path, e.path);
      EscapeDigits(h.path[0]);
      assert h.path == [h.path[0]] + h.path[1..];
      assert h.path[0][0] in h.path[0];
      ZeroBefore(Child(j, ZERO_TOKEN), q, h.path[0], h.path[1..]);
      LexTransitive(PointerText(h.path), PointerText(e.path), PointerText(h.path));
      LexIrreflexive(PointerText(h.path));
      assert false;
    }
  }

  /** The first entry of an object is below "0" exactly when ZeroFirst says so. */
  lemma ObjectStart(ps: seq<Entry>, j: Json)
    requires Lists(ps, j) && j.Object? && j.m != map[]
    ensures ps != [] && ps[0].path != [] && (ps[0].path[0] == ZERO_TOKEN <==> ZeroFirst(j.m))
  {
    hide AfterZero;
    NonEmptyPaths(ps, j);
    var h := ps[0];
    assert h in ps && h.path == [h.path[0]] + h.path[1..];
    var x := h.path[0];
    LeafVia(j, x, h.path[1..]);
    if x == ZERO_TOKEN {
      forall k | k in j.m && k != ZERO_TOKEN ensures AfterZero(k, j.m[ZERO_TOKEN]) {
        var q := SomeLeaf(j.m[k]);
        LeafVia(j, k, q);
        var e := Entry([k] + q, LeafAt(j, [k] + q));
        assert e in ps && e != h by { assert e.path[0] == k; }
        assert e in ps[1..];
        ZeroBefore(j.m[ZERO_TOKEN], h.path[1..], k, q);
      }
    } else if ZERO_TOKEN in j.m {
      var q := SomeLeaf(j.m[ZERO_TOKEN]);
      LeafVia(j, ZERO_TOKEN, q);
      var e := Entry([ZERO_TOKEN] + q, LeafAt(j, [ZERO_TOKEN] + q));
      assert e in ps && e != h by { assert e.path[0] == ZERO_TOKEN; }
      assert e in ps[1..];
      ZeroBefore(j.m[ZERO_TOKEN], q, x, h.path[1..]);
      if AfterZero(x, j.m[ZERO_TOKEN]) {
        LexTransitive(PointerText(h.path), PointerText(e.path), PointerText(h.path));
        LexIrreflexive(PointerText(h.path));
      }
    }
  }

  /** Rebuilding a document from its sorted entries. */
  lemma {:induction false} Rebuild(ps: seq<Entry>, j: Json)
    requires Lists(ps, j)
    ensures Fold(Null, ps) == Ok(j) <==> Rebuildable(j) && !HasEmpty(j)
    ensures Rebuildable(j) ==> Fold(Null, ps) == Ok(Emptied(j))
    ensures GivesBack(Fold(Null, ps), j) ==> Rebuildable(j)
    decreases j
  {
    if IsLeafValue(j) {
      LeafBase(ps, j);
      if j.Object? { assert !ZeroFirst(j.m); }
    } else if j.Array? {
      RebuildArray(ps, j);
    } else {
      RebuildObject(ps, j);
    }
  }

  lemma {:induction false} RebuildArray(ps: seq<Entry>, j: Json)
    requires Lists(ps, j) && j.Array? && j.a != []
    ensures Fold(Null, ps) == Ok(j) <==> Rebuildable(j) && !HasEmpty(j)
    ensures Rebuildable(j) ==> Fold(Null, ps) == Ok(Emptied(j))
    ensures GivesBack(Fold(Null, ps), j) ==> Rebuildable(j)
    decreases j, 0
  {
    hide Create, ElementFold, Sub, Ordered;
    var a, n := j.a, |j.a|;
    ArrayStartsAtZero(ps, j);
    NonEmptyPaths(ps, j);
    FoldFromNull(ps);
    hide Fold;
    var r := Fold(Array([]), ps);
    if n <= INT_MAX + 1 {
      ArrayFold([], ps, n);
      forall i | 0 <= i < n
        ensures ElementFold([], ps, i) == Ok(a[i]) <==> Rebuildable(a[i]) && !HasEmpty(a[i])
        ensures Rebuildable(a[i]) ==> ElementFold([], ps, i) == Ok(Emptied(a[i]))
        ensures GivesBack(ElementFold([], ps, i), a[i]) ==> Rebuildable(a[i])
      {
        ElementOfList(ps, j, i);
        Rebuild(Sub(ps, Decimal(i)), a[i]);
      }
      var e := LeafUnder(ps, j, n - 1);
      ArrayCases(r, j, ps);
    } else {
      var e := LeafUnder(ps, j, INT_MAX + 1);
      HugeArrayFails([], ps, e);
    }
  }

  lemma ElementOfList(ps: seq<Entry>, j: Json, i: nat)
    requires Lists(ps, j) && j.Array? && i < |j.a|
    ensures Lists(Sub(ps, Decimal(i)), j.a[i])
    ensures ElementFold([], ps, i) == Fold(Null, Sub(ps, Decimal(i)))
  {
    DecimalValue(i);
    SubLists(ps, j, Decimal(i));
  }

  lemma LeafUnder(ps: seq<Entry>, j: Json, i: nat) returns (e: Entry)
    requires Lists(ps, j) && j.Array? && i < |j.a|
    ensures e in ps && e.path != [] && e.path[0] == Decimal(i) && DigitsValue(e.path[0], 0) == i
  {
    DecimalValue(i);
    var q := SomeLeaf(j.a[i]);
    LeafVia(j, Decimal(i), q);
    e := Entry([Decimal(i)] + q, LeafAt(j, [Decimal(i)] + q));
  }

  lemma ArrayCases(r: Result<Json>, j: Json, ps: seq<Entry>)
    requires j.Array? && j.a != [] && |j.a| <= INT_MAX + 1
    requires ArrayOutcome(r, [], ps, |j.a|)
    requires forall i | 0 <= i < |j.a| ::
      (ElementFold([], ps, i) == Ok(j.a[i]) <==> Rebuildable(j.a[i]) && !HasEmpty(j.a[i])) &&
      (Rebuildable(j.a[i]) ==> ElementFold([], ps, i) == Ok(Emptied(j.a[i]))) &&
      (GivesBack(ElementFold([], ps, i), j.a[i]) ==> Rebuildable(j.a[i]))
    requires r.Ok? ==> |j.a| <= |r.value.a|
    ensures r == Ok(j) <==> Rebuildable(j) && !HasEmpty(j)
    ensures Rebuildable(j) ==> r == Ok(Emptied(j))
    ensures GivesBack(r, j) ==> Rebuildable(j)
  {
    hide ElementFold;
    var a := j.a;
    if r.Ok? {
      assert |r.value.a| == |a|;
      assert r.value.a == a <==> forall i | 0 <= i < |a| :: ElementFold([], ps, i) == Ok(a[i]);
    }
    if Rebuildable(j) {
      assert r.value.a == Emptied(j).a;
    }
  }

  lemma {:induction false} RebuildObject(ps: seq<Entry>, j: Json)
    requires Lists(ps, j) && j.Object? && j.m != map[]
    ensures Fold(Null, ps) == Ok(j) <==> Rebuildable(j) && !HasEmpty(j)
    ensures Rebuildable(j) ==> Fold(Null, ps) == Ok(Emptied(j))
    ensures GivesBack(Fold(Null, ps), j) ==> Rebuildable(j)
    decreases j, 0
  {
    hide Create;
    ObjectStart(ps, j);
    NonEmptyPaths(ps, j);
    FoldFromNull(ps);
    if ZeroFirst(j.m) {
      ArrayStaysArray([], ps);
    } else {
      hide ZeroFirst;
      ObjectFold(map[], ps);
      forall k | k in j.m
        ensures MemberFold(map[], ps, k) == Ok(j.m[k]) <==> Rebuildable(j.m[k]) && !HasEmpty(j.m[k])
        ensures Rebuildable(j.m[k]) ==> MemberFold(map[], ps, k) == Ok(Emptied(j.m[k]))
        ensures GivesBack(MemberFold(map[], ps, k), j.m[k]) ==> Rebuildable(j.m[k])
        ensures k in Heads(ps)
      {
        SubLists(ps, j, k);
        Rebuild(Sub(ps, k), j.m[k]);
        var q := SomeLeaf(j.m[k]);
        LeafVia(j, k, q);
        var e := Entry([k] + q, LeafAt(j, [k] + q));
        assert e in ps && e.path[0] == k;
      }
      forall k | k !in j.m ensures MemberFold(map[], ps, k) == Ok(Null) {
        SubNone(ps, k);
      }
      assert Heads(ps) == j.m.Keys;
      hide Rebuildable, HasEmpty, MemberFold, Fold;
      ObjectCases(Fold(Object(map[]), ps), j, ps);
    }
  }

  lemma ObjectCases(r: Result<Json>, j: Json, ps: seq<Entry>)
    requires j.Object? && j.m != map[] && !ZeroFirst(j.m)
    requires ObjectOutcome(r, map[], ps) && Heads(ps) == j.m.Keys
    requires forall k | k !in j.m :: MemberFold(map[], ps, k).Ok?
    requires forall k | k in j.m ::
      (MemberFold(map[], ps, k) == Ok(j.m[k]) <==> Rebuildable(j.m[k]) && !HasEmpty(j.m[k])) &&
      (Rebuildable(j.m[k]) ==> MemberFold(map[], ps, k) == Ok(Emptied(j.m[k]))) &&
      (GivesBack(MemberFold(map[], ps, k), j.m[k]) ==> Rebuildable(j.m[k]))
    ensures r == Ok(j) <==> Rebuildable(j) && !HasEmpty(j)
    ensures Rebuildable(j) ==> r == Ok(Emptied(j))
    ensures GivesBack(r, j) ==> Rebuildable(j)
  {
    hide MemberFold, ZeroFirst, Heads, GivesBack, Rebuildable, HasEmpty, Emptied, ObjectOutcome;
    ObjectSame(r, j, ps);
    ObjectEmptied(r, j, ps);
    ObjectGivesBack(r, j, ps);
  }

  lemma ObjectSame(r: Result<Json>, j: Json, ps: seq<Entry>)
    requires j.Object? && j.m != map[] && !ZeroFirst(j.m) && ObjectOutcome(r, map[], ps) && Heads(ps) == j.m.Keys
    requires forall k | k !in j.m :: MemberFold(map[], ps, k).Ok?
    requires forall k | k in j.m :: MemberFold(map[], ps, k) == Ok(j.m[k]) <==> Rebuildable(j.m[k]) && !HasEmpty(j.m[k])
    ensures r == Ok(j) <==> Rebuildable(j) && !HasEmpty(j)
  {
    hide MemberFold, ZeroFirst, Heads;
    var m := j.m;
    assert Rebuildable(j) && !HasEmpty(j) <==> forall k | k in m :: Rebuildable(m[k]) && !HasEmpty(m[k]);
    hide Rebuildable, HasEmpty;
    if r.Ok? {
      assert r.value.m.Keys == m.Keys;
      assert r.value.m == m <==> forall k | k in m :: MemberFold(map[], ps, k) == Ok(m[k]);
    }
  }

  lemma ObjectEmptied(r: Result<Json>, j: Json, ps: seq<Entry>)
    requires j.Object? && j.m != map[] && ObjectOutcome(r, map[], ps) && Heads(ps) == j.m.Keys
    requires forall k | k !in j.m :: MemberFold(map[], ps, k).Ok?
    requires forall k | k in j.m :: Rebuildable(j.m[k]) ==> MemberFold(map[], ps, k) == Ok(Emptied(j.m[k]))
    ensures Rebuildable(j) ==> r == Ok(Emptied(j))
  {
    hide MemberFold, ZeroFirst, Heads;
    if Rebuildable(j) {
      assert forall k | k in j.m :: MemberFold(map[], ps, k) == Ok(Emptied(j.m[k]));
      hide Rebuildable;
      assert r.value.m == Emptied(j).m;
    }
  }

  lemma ObjectGivesBack(r: Result<Json>, j: Json, ps: seq<Entry>)
    requires j.Object? && !ZeroFirst(j.m) && ObjectOutcome(r, map[], ps) && Heads(ps) == j.m.Keys
    requires forall k | k in j.m :: GivesBack(MemberFold(map[], ps, k), j.m[k]) ==> Rebuildable(j.m[k])
    ensures GivesBack(r, j) ==> Rebuildable(j)
  {
    hide MemberFold, ZeroFirst, Heads;
    if GivesBack(r, j) {
      forall k | k in j.m ensures Rebuildable(j.m[k]) {
        assert MemberFold(map[], ps, k) == Ok(r.value.m[k]) && JsonEq(r.value.m[k], j.m[k]);
      }
    }
  }

  // -------------------------------------------------- flatten, then unflatten

  /** The entries of a flattened document, as unflatten reads them. */
  function EntriesOf(m: map<Text, Json>, ks: seq<Text>): seq<Entry>
    requires forall k | k in ks :: k in m && Tokens(k).Ok?
  {
    if ks == [] then [] else [Entry(Tokens(ks[0]).value, m[ks[0]])] + EntriesOf(m, ks[1..])
  }

  lemma {:induction false} EntriesIn(m: map<Text, Json>, ks: seq<Text>, e: Entry)
    requires forall k | k in ks :: k in m && Tokens(k).Ok?
    ensures e in EntriesOf(m, ks) <==> PointerText(e.path) in ks && m[PointerText(e.path)] == e.v
  {
    hide PointerText, Tokens;
    if ks != [] {
      PointerRoundTrip(ks[0], e.path);
      PointerRoundTrip(ks[0], Tokens(ks[0]).value);
      EntriesIn(m, ks[1..], e);
    }
  }

  lemma {:induction false} EntriesOrdered(m: map<Text, Json>, ks: seq<Text>)
    requires forall k | k in ks :: k in m && Tokens(k).Ok?
    requires StrictlySorted(ks)
    ensures Ordered(EntriesOf(m, ks))
  {
    hide PointerText, Tokens, LexLess;
    if ks != [] {
      EntriesOrdered(m, ks[1..]);
      PointerRoundTrip(ks[0], Tokens(ks[0]).value);
      var es := EntriesOf(m, ks);
      assert es[1..] == EntriesOf(m, ks[1..]);
      forall e | e in es[1..] ensures Before(es[0].path, e.path) {
        EntriesIn(m, ks[1..], e);
      }
    }
  }

  lemma {:induction false} UnflattenIsFold(j: Json, m: map<Text, Json>, ks: seq<Text>)
    requires forall k | k in ks :: k in m && Tokens(k).Ok? && IsPrimitive(m[k])
    ensures UnflattenFrom(j, m, ks) == Fold(j, EntriesOf(m, ks))
    decreases |ks|
  {
    hide Create, Tokens;
    if ks != [] {
      var p := Tokens(ks[0]).value;
      var r := Create(j, p, m[ks[0]]);
      assert EntriesOf(m, ks)[1..] == EntriesOf(m, ks[1..]);
      if r.Ok? { UnflattenIsFold(r.value, m, ks[1..]); }
    }
  }

  lemma {:induction false} LeavesArePrimitive(j: Json, p: Path)
    requires IsLeaf(j, p)
    ensures IsPrimitive(LeafAt(j, p))
    decreases |p|
  {
    if p != [] { LeavesArePrimitive(Child(j, p[0]), p[1..]); }
  }

  lemma RootLeafText(j: Json, k: Text)
    ensures IsLeafText(j, [], k) <==> Tokens(k).Ok? && IsLeaf(j, Tokens(k).value)
    ensures IsLeafText(j, [], k) ==> LeafOfText(j, [], k) == LeafAt(j, Tokens(k).value) && IsPrimitive(LeafOfText(j, [], k))
  {
    hide Tokens, IsLeaf, LeafAt;
    if Tokens(k).Ok? {
      assert Tokens(k).value[0..] == Tokens(k).value;
      if IsLeaf(j, Tokens(k).value) { LeavesArePrimitive(j, Tokens(k).value); }
    }
  }

  /** The flattened object has one key per leaf. */
  lemma FlattenKeys(j: Json, m: map<Text, Json>)
    requires m == FlattenInto(map[], [], j)
    ensures forall k :: k in m <==> Tokens(k).Ok? && IsLeaf(j, Tokens(k).value)
    ensures forall k | k in m :: m[k] == LeafAt(j, Tokens(k).value) && IsPrimitive(m[k])
  {
    assert PointerText([]) == [];
    FlattenAdds(map[], [], j);
    hide FlattenInto, Tokens, IsLeaf, LeafAt, IsLeafText, LeafOfText, PointerText;
    forall k ensures k in m <==> Tokens(k).Ok? && IsLeaf(j, Tokens(k).value) { RootLeafText(j, k); }
    forall k | k in m ensures m[k] == LeafAt(j, Tokens(k).value) && IsPrimitive(m[k]) { RootLeafText(j, k); }
  }

  lemma FlattenLists(j: Json, m: map<Text, Json>)
    requires m == FlattenInto(map[], [], j)
    ensures forall k | k in m :: Tokens(k).Ok? && IsPrimitive(m[k])
    ensures Lists(EntriesOf(m, SortedKeys(m.Keys)), j)
  {
    FlattenKeys(j, m);
    hide FlattenInto, Tokens, IsLeaf, LeafAt, PointerText, EntriesOf, SortedKeys, Ordered;
    var ks := SortedKeys(m.Keys);
    EntriesOrdered(m, ks);
    forall e | e in EntriesOf(m, ks) ensures IsLeaf(j, e.path) && e.v == LeafAt(j, e.path) {
      EntriesIn(m, ks, e);
      PointerRoundTrip(PointerText(e.path), e.path);
    }
    forall p | IsLeaf(j, p) ensures Entry(p, LeafAt(j, p)) in EntriesOf(m, ks) {
      PointerRoundTrip(PointerText(p), p);
      EntriesIn(m, ks, Entry(p, LeafAt(j, p)));
    }
  }

  /** j == j.flatten().unflatten() holds under operator== exactly when j holds no empty container, no array too long for
      std::stoi, no object visited through its member "0" first, and no NaN. NaN apart the result is j itself; with empty
      containers it is j with these turned into null. */
  lemma {:induction false} FlattenUnflatten(j: Json)
    ensures var r := UnflattenSpec(Object(FlattenInto(map[], [], j)));
      && (r.Ok? && JsonEq(r.value, j) <==> Rebuildable(j) && !HasEmpty(j) && !HasNaN(j))
      && (r == Ok(j) <==> Rebuildable(j) && !HasEmpty(j))
      && (Rebuildable(j) ==> r == Ok(Emptied(j)))
  {
    var m := FlattenInto(map[], [], j);
    FlattenLists(j, m);
    hide FlattenInto, Rebuildable, HasEmpty, HasNaN, JsonEq, Emptied, Fold;
    UnflattenIsFold(Null, m, SortedKeys(m.Keys));
    Rebuild(EntriesOf(m, SortedKeys(m.Keys)), j);
    EmptiedEq(j);
  }

  /** The documentation promises j == j.flatten().unflatten() but for empty containers; {"0": null} breaks it. */
  lemma {:induction false} ZeroMemberBreaksFlatten()
    ensures var j := Object(map[ZERO_TOKEN := Null]);
      var r := UnflattenSpec(Object(FlattenInto(map[], [], j)));
      !HasEmpty(j) && JsonEq(j, j) && !(r.Ok? && JsonEq(r.value, j))
  {
    var j := Object(map[ZERO_TOKEN := Null]);
    assert ZERO_TOKEN in j.m;
    assert ZeroFirst(j.m);
    FlattenUnflatten(j);
  }

  /** A NaN comes back as it was, but compares unequal to itself. */
  lemma NaNBreaksFlatten()
    ensures UnflattenSpec(Object(FlattenInto(map[], [], Float(NAN)))) == Ok(Float(NAN)) && !JsonEq(Float(NAN), Float(NAN))
  {
    assert IsNaN(NAN);
    FlattenUnflatten(Float(NAN));
  }

  /** j.flatten().unflatten(), as computed. */
  method FlattenThenUnflatten(j: Json) returns (r: Result<Json>)
    ensures r.Ok? && JsonEq(r.value, j) <==> Rebuildable(j) && !HasEmpty(j) && !HasNaN(j)
    ensures (r == Ok(j) <==> Rebuildable(j) && !HasEmpty(j)) && (Rebuildable(j) ==> r == Ok(Emptied(j)))
  {
    FlattenUnflatten(j);
    hide FlattenInto, UnflattenSpec, Rebuildable, HasEmpty, Emptied, JsonEq, HasNaN;
    var m := Flatten([], j, map[]);
    r := Unflatten(Object(m));
  }
}
