/** JSON Patch (RFC 6902): basic_json::patch, basic_json::diff, and what the second gives to the first. */
module JsonPatch {
  import opened Bytes
  import opened JsonValue
  import opened JsonPointer
  import opened Numbers
  import opened Sequences

  type Path = seq<Text>

  // ------------------------------------------------------- pointer resolution

  /** Array index of a token, for both access modes: "-" is left to the caller. */
  function TokenIndex(token: Text): Result<int> {
    if |token| > 1 && token[0] == ZERO then Err(DomainError) else Stoi(token)
  }

  /** get_checked, one level: at(token). A negative index wraps to a huge size_t and fails the range check. */
  function ChildIndex(a: seq<Json>, token: Text): (r: Result<nat>)
    ensures r.Ok? ==> r.value < |a|
  {
    if token == [MINUS] then Err(OutOfRange)
    else
      var i :- TokenIndex(token);
      if 0 <= i < |a| then Ok(i) else Err(OutOfRange)
  }

  /** get_checked. */
  function At(j: Json, p: Path): Result<Json>
    decreases |p|
  {
    if p == [] then Ok(j)
    else match j
      case Object(m) => if p[0] in m then At(m[p[0]], p[1..]) else Err(OutOfRange)
      case Array(a) => var i :- ChildIndex(a, p[0]); At(a[i], p[1..])
      case _ => Err(OutOfRange)
  }

  /** What is done to the value a pointer resolves to. */
  datatype Edit = Assign(v: Json) | AddMember(token: Text, v: Json) | RemoveMember(token: Text)

  function Apply(e: Edit, target: Json): Result<Json> {
    match e
    case Assign(v) => Ok(v)
    case AddMember(token, v) => (
      match target
      case Null => Ok(Object(map[token := v]))
      case Object(m) => Ok(Object(m[token := v]))
      case Array(a) =>
        if token == [MINUS] then Ok(Array(a + [v]))
        else
          var i :- Stoi(token);
          if 0 <= i <= |a| then Ok(Array(a[..i] + [v] + a[i..])) else Err(OutOfRange)
      case _ => Err(AssertionFailed)
    )
    case RemoveMember(token) => (
      match target
      case Object(m) => if token in m then Ok(Object(m - {token})) else Err(OutOfRange)
      case Array(a) =>
        var i :- Stoi(token);
        if 0 <= i < |a| then Ok(Array(a[..i] + a[i + 1..])) else Err(OutOfRange)
      case _ => Ok(target)
    )
  }

  /** Edit of at(p): every step is range checked. */
  function EditChecked(j: Json, p: Path, e: Edit): Result<Json>
    decreases |p|
  {
    if p == [] then Apply(e, j)
    else match j
      case Object(m) =>
        if p[0] !in m then Err(OutOfRange)
        else var r :- EditChecked(m[p[0]], p[1..], e); Ok(Object(m[p[0] := r]))
      case Array(a) =>
        var i :- ChildIndex(a, p[0]);
        var r :- EditChecked(a[i], p[1..], e); Ok(Array(a[i := r]))
      case _ => Err(OutOfRange)
  }

  /** Edit of operator[](p), i.e. get_unchecked: null becomes a container, missing entries are created as null. */
  function EditUnchecked(j: Json, p: Path, e: Edit): Result<Json>
    decreases |p|
  {
    if p == [] then Apply(e, j)
    else
      var container :=
        if !j.Null? then j
        else if AllDigits(p[0]) || p[0] == [MINUS] then Array([])
        else Object(map[]);
      match container
      case Object(m) =>
        var r :- EditUnchecked(if p[0] in m then m[p[0]] else Null, p[1..], e);
        Ok(Object(m[p[0] := r]))
      case Array(a) =>
        var i :- if p[0] == [MINUS] then Ok(|a|) else TokenIndex(p[0]);
        if i < 0 then Err(LengthError)
        else
          var grown := if i < |a| then a else a + Nulls(i - |a| + 1);
          var r :- EditUnchecked(grown[i], p[1..], e);
          Ok(Array(grown[i := r]))
      case _ => Err(OutOfRange)
  }

  // --------------------------------------------------------------- operations

  datatype Op =
    | Add(path: Path, v: Json)
    | Remove(path: Path)
    | Replace(path: Path, v: Json)
    | Move(path: Path, from: Path)
    | Copy(path: Path, from: Path)
    | Test(path: Path, v: Json)

  function Front(p: Path): Path
    requires p != []
  {
    p[..|p| - 1]
  }

  function Last(p: Path): Text
    requires p != []
  {
    p[|p| - 1]
  }

  function AddInPlace(doc: Json, p: Path, v: Json): Result<Json>
    requires p != []
  {
    EditUnchecked(doc, Front(p), AddMember(Last(p), v))
  }

  function OperationAdd(doc: Json, p: Path, v: Json): Result<Json> {
    if p == [] then Ok(v)
    else if |p| == 1 then AddInPlace(doc, p, v)
    else var top :- At(doc, [p[0]]); AddInPlace(doc, p, v)
  }

  function OperationRemove(doc: Json, p: Path): Result<Json> {
    if p == [] then Err(DomainError) else EditChecked(doc, Front(p), RemoveMember(Last(p)))
  }

  /** One iteration of the loop in patch. */
  function Step(doc: Json, op: Op): Result<Json> {
    match op
    case Add(p, v) => OperationAdd(doc, p, v)
    case Remove(p) => OperationRemove(doc, p)
    case Replace(p, v) => EditChecked(doc, p, Assign(v))
    case Move(p, from) => var v :- At(doc, from); var d :- OperationRemove(doc, from); OperationAdd(d, p, v)
    case Copy(p, from) => var v :- At(doc, from); EditUnchecked(doc, p, Assign(v))
    case Test(p, v) =>
      match At(doc, p)
      case Ok(x) => if JsonEq(x, v) then Ok(doc) else Err(DomainError)
      case Err(OutOfRange) => Err(DomainError)
      case Err(e) => Err(e)
  }

  function ApplyAll(doc: Json, ops: seq<Op>): Result<Json>
    decreases |ops|
  {
    if ops == [] then Ok(doc) else var d :- Step(doc, ops[0]); ApplyAll(d, ops[1..])
  }

  // ------------------------------------------------------ the patch document

  const OP: Text := [111, 112]                                 // op
  const PATH: Text := [112, 97, 116, 104]                      // path
  const VALUE: Text := [118, 97, 108, 117, 101]                // value
  const FROM: Text := [102, 114, 111, 109]                     // from
  const ADD: Text := [97, 100, 100]                            // add
  const REMOVE: Text := [114, 101, 109, 111, 118, 101]         // remove
  const REPLACE: Text := [114, 101, 112, 108, 97, 99, 101]     // replace
  const MOVE: Text := [109, 111, 118, 101]                     // move
  const COPY: Text := [99, 111, 112, 121]                      // copy
  const TEST: Text := [116, 101, 115, 116]                     // test

  /** The get_value wrapper, for a string member. */
  function TextMember(m: map<Text, Json>, name: Text): Result<Text> {
    if name in m && m[name].String? then Ok(m[name].s) else Err(InvalidArgument)
  }

  function ValueMember(m: map<Text, Json>): Result<Json> {
    if VALUE in m then Ok(m[VALUE]) else Err(InvalidArgument)
  }

  function DecodeOp(j: Json): Result<Op> {
    if !j.Object? then Err(InvalidArgument)
    else
      var op :- TextMember(j.m, OP);
      var path :- TextMember(j.m, PATH);
      var p :- Tokens(path);
      if op == ADD then var v :- ValueMember(j.m); Ok(Add(p, v))
      else if op == REMOVE then Ok(Remove(p))
      else if op == REPLACE then var v :- ValueMember(j.m); Ok(Replace(p, v))
      else if op == MOVE then var f :- TextMember(j.m, FROM); var from :- Tokens(f); Ok(Move(p, from))
      else if op == COPY then var f :- TextMember(j.m, FROM); var from :- Tokens(f); Ok(Copy(p, from))
      else if op == TEST then var v :- ValueMember(j.m); Ok(Test(p, v))
      else Err(InvalidArgument)
  }

  function RunPatch(doc: Json, patch: seq<Json>): Result<Json>
    decreases |patch|
  {
    if patch == [] then Ok(doc)
    else var op :- DecodeOp(patch[0]); var d :- Step(doc, op); RunPatch(d, patch[1..])
  }

  /** basic_json::patch: a working copy, changed operation by operation; the first failure is the outcome. */
  method Patch(doc: Json, patch: Json) returns (r: Result<Json>)
    ensures r == if patch.Array? then RunPatch(doc, patch.a) else Err(InvalidArgument)
  {
    if !patch.Array? { return Err(InvalidArgument); }
    var result := doc;
    var n := 0;
    while n < |patch.a|
      invariant n <= |patch.a|
      invariant RunPatch(doc, patch.a) == RunPatch(result, patch.a[n..])
    {
      var op := DecodeOp(patch.a[n]);
      if op.Err? { return Err(op.error); }
      var next := Step(result, op.value);
      if next.Err? { return Err(next.error); }
      result := next.value;
      assert patch.a[n..][1..] == patch.a[n + 1..];
      n := n + 1;
    }
    r := Ok(result);
  }

  /** The member names of RFC 6902, section 4. */
  lemma MembersSpelled()
    ensures OP == Ascii("op") && PATH == Ascii("path") && VALUE == Ascii("value") && FROM == Ascii("from")
  {
  }

  /** The operation names of RFC 6902, section 4. */
  lemma OperationsSpelled()
    ensures ADD == Ascii("add") && REMOVE == Ascii("remove") && REPLACE == Ascii("replace")
    ensures MOVE == Ascii("move") && COPY == Ascii("copy") && TEST == Ascii("test")
  {
  }

  // ------------------------------------------------- single operations

  /** An element is found by its decimal index; "-" and an index behind the end are out_of_range, and a leading zero is
      refused with domain_error. */
  lemma ElementTokens(a: seq<Json>, i: nat, digits: Text)
    requires i <= INT_MAX && digits != []
    ensures At(Array(a), [Decimal(i)]) == if i < |a| then Ok(a[i]) else Err(OutOfRange)
    ensures At(Array(a), [[MINUS]]) == Err(OutOfRange) && At(Array(a), [[ZERO] + digits]) == Err(DomainError)
  {
    DecimalToken(i);
    hide Stoi, Decimal;
  }

  /** Writing below null makes it an array for an index, filled with nulls, or "-", and an object for any other token. */
  lemma NullGrows(i: nat, token: Text, v: Json)
    requires i <= INT_MAX && token != [MINUS] && !AllDigits(token)
    ensures EditUnchecked(Null, [Decimal(i)], Assign(v)) == Ok(Array(Nulls(i) + [v]))
    ensures EditUnchecked(Null, [[MINUS]], Assign(v)) == Ok(Array([v]))
    ensures EditUnchecked(Null, [token], Assign(v)) == Ok(Object(map[token := v]))
  {
    DecimalToken(i);
    hide Stoi, Decimal;
    NullArray(Decimal(i), i, v);
    NullArray([MINUS], 0, v);
    hide TokenIndex, Nulls;
    assert [token][1..] == [];
    assert EditUnchecked(Null, [], Assign(v)) == Ok(v);
    assert Nulls(0) + [v] == [v];
  }

  lemma NullArray(token: Text, i: nat, v: Json)
    requires if token == [MINUS] then i == 0 else AllDigits(token) && TokenIndex(token) == Ok(i)
    ensures EditUnchecked(Null, [token], Assign(v)) == Ok(Array(Nulls(i) + [v]))
  {
    hide TokenIndex;
    assert [token][1..] == [];
    assert EditUnchecked(Null, [], Assign(v)) == Ok(v);
    assert ([] + Nulls(i + 1))[i := v] == Nulls(i) + [v];
  }

  /** A test changes nothing: it passes exactly when its path leads to a value equal to the given one, and fails with
      domain_error when the value differs or is not there. */
  lemma TestMeans(doc: Json, p: Path, v: Json)
    ensures var r := Step(doc, Test(p, v));
      && (r == Ok(doc) <==> At(doc, p).Ok? && JsonEq(At(doc, p).value, v)) && (r.Ok? ==> r.value == doc)
      && (At(doc, p) == Err(OutOfRange) || (At(doc, p).Ok? && !JsonEq(At(doc, p).value, v)) ==> r == Err(DomainError))
  {
    hide At, JsonEq;
  }

  lemma MemberAt(m: map<Text, Json>, k: Text)
    ensures At(Object(m), [k]) == if k in m then Ok(m[k]) else Err(OutOfRange)
  {
    assert [k][1..] == [];
    if k in m { assert At(m[k], []) == Ok(m[k]); }
  }

  lemma ElementAt(a: seq<Json>, i: nat)
    requires i < |a| && i <= INT_MAX
    ensures At(Array(a), [Decimal(i)]) == Ok(a[i]) && ChildIndex(a, Decimal(i)) == Ok(i)
  {
    DecimalToken(i);
    hide Decimal, Stoi;
    assert [Decimal(i)][1..] == [];
    assert At(a[i], []) == Ok(a[i]);
  }

  lemma DecimalToken(i: nat)
    requires i <= INT_MAX
    ensures Decimal(i) != [MINUS] && Stoi(Decimal(i)) == Ok(i) && TokenIndex(Decimal(i)) == Ok(i)
  {
    StoiDecimal(i);
    assert Decimal(i)[0] in Decimal(i);
    hide Stoi;
  }

  /** A member moved to another name is gone from the old one; under the same name it stays. Nothing else changes. */
  lemma MoveMember(m: map<Text, Json>, k: Text, l: Text)
    ensures Step(Object(m), Move([l], [k])) == if k in m then Ok(Object((m - {k})[l := m[k]])) else Err(OutOfRange)
  {
    MemberAt(m, k);
    hide At;
    assert Front([k]) == [] && Front([l]) == [];
  }

  /** A copied member is there twice. */
  lemma CopyMember(m: map<Text, Json>, k: Text, l: Text)
    ensures Step(Object(m), Copy([l], [k])) == if k in m then Ok(Object(m[l := m[k]])) else Err(OutOfRange)
  {
    MemberAt(m, k);
    hide At;
    if k in m { AssignMember(m, l, m[k]); }
  }

  /** An element added at an index shifts the ones from there on by one; "-" adds behind the last one. */
  lemma InsertShifts(a: seq<Json>, i: nat, v: Json)
    requires i <= INT_MAX
    ensures var r := Step(Array(a), Add([Decimal(i)], v));
      if i <= |a| then r == Ok(Array(a[..i] + [v] + a[i..])) else r == Err(OutOfRange)
    ensures Step(Array(a), Add([[MINUS]], v)) == Ok(Array(a + [v]))
  {
    DecimalToken(i);
    hide Decimal, Stoi, TokenIndex;
    assert Front([Decimal(i)]) == [] && Front([[MINUS]]) == [];
  }

  /** An element moved within its array stands at the new index among the others in their order. */
  lemma MoveElement(a: seq<Json>, from: nat, to: nat)
    requires from < |a| && to < |a| <= INT_MAX
    ensures var rest := a[..from] + a[from + 1..];
      Step(Array(a), Move([Decimal(to)], [Decimal(from)])) == Ok(Array(rest[..to] + [a[from]] + rest[to..]))
  {
    ElementAt(a, from);
    hide Decimal, Stoi, TokenIndex, At, ChildIndex;
    RemoveElement(a, from);
    var rest := a[..from] + a[from + 1..];
    InsertShifts(rest, to, a[from]);
    hide OperationRemove, OperationAdd;
  }

  lemma RemoveElement(a: seq<Json>, i: nat)
    requires i < |a| <= INT_MAX
    ensures OperationRemove(Array(a), [Decimal(i)]) == Ok(Array(a[..i] + a[i + 1..]))
  {
    DecimalToken(i);
    var d := Decimal(i);
    hide Decimal, Stoi, TokenIndex;
    assert Front([d]) == [] && Last([d]) == d;
    hide Front, Last;
    assert Apply(RemoveMember(d), Array(a)) == Ok(Array(a[..i] + a[i + 1..]));
    hide Apply;
  }

  /** A copy onto an array index overwrites the element there, where RFC 6902, section 4.5, asks for an insertion; behind the
      last element it appends. */
  lemma CopyElement(a: seq<Json>, from: nat, to: nat)
    requires from < |a| && to <= |a| <= INT_MAX
    ensures Step(Array(a), Copy([Decimal(to)], [Decimal(from)]))
      == Ok(Array(if to < |a| then a[to := a[from]] else a + [a[from]]))
  {
    ElementAt(a, from);
    DecimalToken(to);
    hide Decimal, Stoi, TokenIndex, At;
    AssignElement(a, to, a[from]);
    hide EditUnchecked;
  }

  lemma AssignMember(m: map<Text, Json>, l: Text, v: Json)
    ensures EditUnchecked(Object(m), [l], Assign(v)) == Ok(Object(m[l := v]))
  {
    assert [l][1..] == [];
    assert EditUnchecked(if l in m then m[l] else Null, [], Assign(v)) == Ok(v);
  }

  lemma AssignElement(a: seq<Json>, i: nat, v: Json)
    requires i <= |a| && i <= INT_MAX
    ensures EditUnchecked(Array(a), [Decimal(i)], Assign(v)) == Ok(Array(if i < |a| then a[i := v] else a + [v]))
  {
    DecimalToken(i);
    hide Decimal, Stoi, TokenIndex;
    assert [Decimal(i)][1..] == [];
    var grown := if i < |a| then a else a + Nulls(i - |a| + 1);
    assert EditUnchecked(grown[i], [], Assign(v)) == Ok(v);
    assert i == |a| ==> grown == a + [Null] && grown[i := v] == a + [v];
  }

  predicate Generated(op: Op) { op.Add? || op.Remove? || op.Replace? }

  /** The three kinds of object diff writes. */
  function AddObject(path: Text, v: Json): Json { Object(map[OP := String(ADD), PATH := String(path), VALUE := v]) }

  function ReplaceObject(path: Text, v: Json): Json { Object(map[OP := String(REPLACE), PATH := String(path), VALUE := v]) }

  function RemoveObject(path: Text): Json { Object(map[OP := String(REMOVE), PATH := String(path)]) }

  function EncodeOp(op: Op): Json
    requires Generated(op)
  {
    match op
    case Add(p, v) => AddObject(PointerText(p), v)
    case Replace(p, v) => ReplaceObject(PointerText(p), v)
    case Remove(p) => RemoveObject(PointerText(p))
  }

  function EncodeOps(ops: seq<Op>): seq<Json>
    requires forall op | op in ops :: Generated(op)
  {
    seq(|ops|, i requires 0 <= i < |ops| => EncodeOp(ops[i]))
  }

  lemma DecodeEncode(op: Op)
    requires Generated(op)
    ensures DecodeOp(EncodeOp(op)) == Ok(op)
  {
    PointerRoundTrip(PointerText(op.path), op.path);
    var m := EncodeOp(op).m;
    assert |OP| == 2 && |PATH| == 4 && |VALUE| == 5 && |ADD| == 3 && |REMOVE| == 6 && |REPLACE| == 7;
    assert OP != PATH && OP != VALUE && PATH != VALUE;
    assert m[PATH] == String(PointerText(op.path));
  }

  /** Move, copy and test operations are read as meant too. */
  lemma DecodeOthers(p: Path, from: Path, v: Json)
    ensures var path, source := String(PointerText(p)), String(PointerText(from));
      && DecodeOp(Object(map[OP := String(MOVE), PATH := path, FROM := source])) == Ok(Move(p, from))
      && DecodeOp(Object(map[OP := String(COPY), PATH := path, FROM := source])) == Ok(Copy(p, from))
      && DecodeOp(Object(map[OP := String(TEST), PATH := path, VALUE := v])) == Ok(Test(p, v))
  {
    PointerRoundTrip(PointerText(p), p);
    PointerRoundTrip(PointerText(from), from);
    hide PointerText, Tokens;
    NamesDiffer();
  }

  lemma NamesDiffer()
    ensures OP != PATH && PATH != VALUE && VALUE != OP && FROM != OP && FROM != PATH && FROM != VALUE
    ensures TEST !in [ADD, REMOVE, REPLACE, MOVE, COPY] && COPY !in [ADD, REMOVE, REPLACE, MOVE] && MOVE !in [ADD, REMOVE, REPLACE]
  {
    assert |OP| == 2 && |PATH| == |FROM| == 4 && |VALUE| == 5 && PATH[0] != FROM[0];
    assert |ADD| == 3 && |REMOVE| == 6 && |REPLACE| == 7 && |MOVE| == |COPY| == |TEST| == 4;
    assert MOVE[0] == 109 && COPY[0] == 99 && TEST[0] == 116;
  }

  /** An object is read as an operation exactly when it has a known name, a pointer as path, and the value or the second
      pointer that the name asks for; every other failure than a bad pointer is invalid_argument. */
  lemma DecodesExactly(j: Json)
    ensures DecodeOp(j).Ok? <==>
      && j.Object? && TextMember(j.m, OP).Ok? && TextMember(j.m, PATH).Ok? && Tokens(j.m[PATH].s).Ok?
      && j.m[OP].s in [ADD, REMOVE, REPLACE, MOVE, COPY, TEST]
      && (j.m[OP].s in [ADD, REPLACE, TEST] ==> VALUE in j.m)
      && (j.m[OP].s in [MOVE, COPY] ==> TextMember(j.m, FROM).Ok? && Tokens(j.m[FROM].s).Ok?)
    ensures DecodeOp(j).Ok? ==> DecodeOp(j).value.path == Tokens(j.m[PATH].s).value
    ensures j.Object? && (forall k | k in j.m && j.m[k].String? :: Tokens(j.m[k].s).Ok?) ==>
      DecodeOp(j).Ok? || DecodeOp(j) == Err(InvalidArgument)
  {
    hide Tokens;
    NamesDiffer();
    assert |ADD| == 3 && |REMOVE| == 6 && |REPLACE| == 7;
  }

  lemma {:induction false} RunPatchIsApplyAll(doc: Json, ops: seq<Op>)
    requires forall op | op in ops :: Generated(op)
    ensures RunPatch(doc, EncodeOps(ops)) == ApplyAll(doc, ops)
    decreases |ops|
  {
    if ops != [] {
      DecodeEncode(ops[0]);
      assert EncodeOps(ops)[1..] == EncodeOps(ops[1..]);
      if Step(doc, ops[0]).Ok? {
        RunPatchIsApplyAll(Step(doc, ops[0]).value, ops[1..]);
      }
    }
  }

  // --------------------------------------------------------------------- diff

  function Below(token: Text, op: Op): (r: Op)
    requires Generated(op)
    ensures Generated(r)
  {
    match op
    case Add(p, v) => Add([token] + p, v)
    case Remove(p) => Remove([token] + p)
    case Replace(p, v) => Replace([token] + p, v)
  }

  /** The operations of a child, written from its parent. */
  function Under(token: Text, ops: seq<Op>): (r: seq<Op>)
    requires forall op | op in ops :: Generated(op)
    ensures |r| == |ops| && forall op | op in r :: Generated(op)
  {
    if ops == [] then [] else [Below(token, ops[0])] + Under(token, ops[1..])
  }

  function Min(a: nat, b: nat): nat { if a < b then a else b }

  /** The operations of diff, with paths relative to the compared values. */
  function DiffOps(s: Json, t: Json): (ops: seq<Op>)
    ensures forall op | op in ops :: Generated(op)
    decreases s, 1, 0
  {
    if JsonEq(s, t) then []
    else if KindOf(s) != KindOf(t) then [Replace([], t)]
    else match s
      case Array(a) =>
        ElementOps(s, t, Min(|a|, |t.a|)) + Removals(|t.a|, |a|) + Appends(t.a, Min(|a|, |t.a|))
      case Object(m) =>
        MemberOps(s, t, SortedKeys(m.Keys)) + NewMemberOps(m, t.m, SortedKeys(t.m.Keys))
      case _ => [Replace([], t)]
  }

  function ElementOps(s: Json, t: Json, n: nat): (ops: seq<Op>)
    requires s.Array? && t.Array? && n <= |s.a| && n <= |t.a|
    ensures forall op | op in ops :: Generated(op)
    decreases s, 0, n
  {
    if n == 0 then [] else ElementOps(s, t, n - 1) + Under(Decimal(n - 1), DiffOps(s.a[n - 1], t.a[n - 1]))
  }

  /** Surplus elements go from the highest index down. */
  function Removals(low: nat, high: nat): (ops: seq<Op>)
    ensures forall op | op in ops :: Generated(op)
  {
    if high <= low then [] else [Remove([Decimal(high - 1)])] + Removals(low, high - 1)
  }

  function Appends(c: seq<Json>, n: nat): (ops: seq<Op>)
    ensures forall op | op in ops :: Generated(op)
    decreases |c| - n
  {
    if n >= |c| then [] else [Add([Decimal(n)], c[n])] + Appends(c, n + 1)
  }

  /** The operations for one member of the source. */
  function OneMember(s: Json, t: Json, k: Text): (ops: seq<Op>)
    requires s.Object? && t.Object? && k in s.m
    ensures forall op | op in ops :: Generated(op)
    decreases s, 0, 0
  {
    if k in t.m then Under(k, DiffOps(s.m[k], t.m[k])) else [Remove([k])]
  }

  function MemberOps(s: Json, t: Json, ks: seq<Text>): (ops: seq<Op>)
    requires s.Object? && t.Object? && forall k | k in ks :: k in s.m
    ensures forall op | op in ops :: Generated(op)
    decreases s, 0, |ks|
  {
    if ks == [] then [] else OneMember(s, t, ks[0]) + MemberOps(s, t, ks[1..])
  }

  function NewMemberOps(m: map<Text, Json>, n: map<Text, Json>, ks: seq<Text>): (ops: seq<Op>)
    requires forall k | k in ks :: k in n
    ensures forall op | op in ops :: Generated(op)
  {
    if ks == [] then []
    else (if ks[0] in m then [] else [Add([ks[0]], n[ks[0]])]) + NewMemberOps(m, n, ks[1..])
  }

  // ------------------------------------------------------------------ framing

  /** Replacement of the child a token names. */
  function PutChild(j: Json, token: Text, v: Json): Json
    requires At(j, [token]).Ok?
  {
    if j.Object? then Object(j.m[token := v]) else Array(j.a[ChildIndex(j.a, token).value := v])
  }

  lemma ChildOf(j: Json, token: Text, v: Json)
    requires At(j, [token]).Ok?
    ensures At(PutChild(j, token, v), [token]) == Ok(v)
    ensures forall w :: PutChild(PutChild(j, token, v), token, w) == PutChild(j, token, w)
    ensures PutChild(j, token, At(j, [token]).value) == j
  {
  }

  /** The operation does not depend on add's check of the topmost token. */
  predicate Direct(doc: Json, op: Op) {
    Generated(op) && (!op.Replace? ==> op.path != []) && (op.Add? ==> Step(doc, op) == AddInPlace(doc, op.path, op.v))
  }

  predicate AllDirect(doc: Json, ops: seq<Op>)
    decreases |ops|
  {
    ops != [] ==> Direct(doc, ops[0]) && (Step(doc, ops[0]).Ok? ==> AllDirect(Step(doc, ops[0]).value, ops[1..]))
  }

  function Within(j: Json, token: Text, r: Result<Json>): Result<Json>
    requires At(j, [token]).Ok?
  {
    match r case Ok(v) => Ok(PutChild(j, token, v)) case Err(e) => Err(e)
  }

  lemma EditWithin(j: Json, token: Text, p: Path, e: Edit)
    requires At(j, [token]).Ok?
    ensures EditChecked(j, [token] + p, e) == Within(j, token, EditChecked(At(j, [token]).value, p, e))
    ensures EditUnchecked(j, [token] + p, e) == Within(j, token, EditUnchecked(At(j, [token]).value, p, e))
  {
    assert ([token] + p)[1..] == p;
  }

  /** An operation on a child, seen from its parent. */
  lemma StepWithin(j: Json, token: Text, op: Op)
    requires At(j, [token]).Ok? && Direct(At(j, [token]).value, op)
    ensures Step(j, Below(token, op)) == Within(j, token, Step(At(j, [token]).value, op))
    ensures Direct(j, Below(token, op))
  {
    var c, p := At(j, [token]).value, [token] + op.path;
    assert p[0] == token;
    if op.Replace? {
      EditWithin(j, token, op.path, Assign(op.v));
    } else {
      assert Front(p) == [token] + Front(op.path) && Last(p) == Last(op.path);
      EditWithin(j, token, Front(op.path), if op.Add? then AddMember(Last(p), op.v) else RemoveMember(Last(p)));
    }
  }

  lemma {:induction false} ApplyWithin(j: Json, token: Text, ops: seq<Op>)
    requires forall op | op in ops :: Generated(op)
    requires At(j, [token]).Ok? && AllDirect(At(j, [token]).value, ops)
    ensures ApplyAll(j, Under(token, ops)) == Within(j, token, ApplyAll(At(j, [token]).value, ops))
    ensures AllDirect(j, Under(token, ops))
    decreases |ops|
  {
    var c := At(j, [token]).value;
    ChildOf(j, token, c);
    if ops != [] {
      StepWithin(j, token, ops[0]);
      var r := Step(c, ops[0]);
      if r.Ok? {
        ChildOf(j, token, r.value);
        ApplyWithin(PutChild(j, token, r.value), token, ops[1..]);
      }
    }
  }

  lemma {:induction false} ApplyAppend(doc: Json, xs: seq<Op>, ys: seq<Op>)
    ensures ApplyAll(doc, xs + ys) == (match ApplyAll(doc, xs) case Ok(d) => ApplyAll(d, ys) case Err(e) => Err(e))
    ensures AllDirect(doc, xs) && (ApplyAll(doc, xs).Ok? ==> AllDirect(ApplyAll(doc, xs).value, ys)) ==> AllDirect(doc, xs + ys)
    decreases |xs|
  {
    if xs == [] {
      assert xs + ys == ys;
    } else {
      assert (xs + ys)[1..] == xs[1..] + ys;
      if Step(doc, xs[0]).Ok? {
        ApplyAppend(Step(doc, xs[0]).value, xs[1..], ys);
      }
    }
  }

  // ----------------------------------------------- what patch(diff) produces

  /** A token at an index std::stoi cannot represent occurs in the patch. */
  predicate HugeIndex(s: Json, t: Json) {
    !JsonEq(s, t) &&
    match (s, t)
    case (Array(a), Array(c)) =>
      (|a| != |c| && (|a| > INT_MAX + 1 || |c| > INT_MAX + 1)) ||
      (exists i | 0 <= i < |a| && i < |c| :: !JsonEq(a[i], c[i]) && (i > INT_MAX || HugeIndex(a[i], c[i])))
    case (Object(m), Object(n)) => exists k | k in m :: k in n && HugeIndex(m[k], n[k])
    case _ => false
  }

  /** Values that already compare equal are kept from the source; everything else is the target's. */
  function Merged(s: Json, t: Json): Json {
    if JsonEq(s, t) then s
    else match (s, t)
      case (Array(a), Array(c)) =>
        Array(seq(|c|, i requires 0 <= i < |c| => if i < |a| then Merged(a[i], c[i]) else c[i]))
      case (Object(m), Object(n)) => Object(map k | k in n :: if k in m then Merged(m[k], n[k]) else n[k])
      case _ => t
  }

  lemma {:induction false} MergedEq(s: Json, t: Json)
    ensures JsonEq(Merged(s, t), t) <==> !HasNaN(t)
    decreases t
  {
    if JsonEq(s, t) {
      if HasNaN(t) { NaNEqualsNothing(s, t); }
    } else {
      match (s, t)
      case (Array(a), Array(c)) =>
        forall i | 0 <= i < |c|
          ensures JsonEq(if i < |a| then Merged(a[i], c[i]) else c[i], c[i]) <==> !HasNaN(c[i])
        {
          if i < |a| { MergedEq(a[i], c[i]); } else { EqReflexive(c[i]); }
        }
      case (Object(m), Object(n)) =>
        forall k | k in n
          ensures JsonEq(if k in m then Merged(m[k], n[k]) else n[k], n[k]) <==> !HasNaN(n[k])
        {
          if k in m { MergedEq(m[k], n[k]); } else { EqReflexive(n[k]); }
        }
      case _ => EqReflexive(t);
    }
  }

  /** Values that do not compare equal get at least one operation. */
  lemma DiffUnfold(s: Json, t: Json)
    requires !JsonEq(s, t)
    ensures s.Array? && t.Array? ==> var n := Min(|s.a|, |t.a|);
      DiffOps(s, t) == ElementOps(s, t, n) + Removals(|t.a|, |s.a|) + Appends(t.a, n)
    ensures s.Object? && t.Object? ==>
      DiffOps(s, t) == MemberOps(s, t, SortedKeys(s.m.Keys)) + NewMemberOps(s.m, t.m, SortedKeys(t.m.Keys))
    ensures !(s.Array? && t.Array?) && !(s.Object? && t.Object?) ==> DiffOps(s, t) == [Replace([], t)]
  {
    hide JsonEq, ElementOps, Removals, Appends, MemberOps, NewMemberOps, SortedKeys;
  }

  lemma {:induction false} DiffNotEmpty(s: Json, t: Json)
    requires !JsonEq(s, t)
    ensures DiffOps(s, t) != []
    decreases s, 1, 0
  {
    DiffUnfold(s, t);
    hide DiffOps, JsonEq, ElementOps, Removals, Appends, MemberOps, NewMemberOps, SortedKeys;
    if s.Array? && t.Array? { ElementsNotEmpty(s, t); }
    else if s.Object? && t.Object? { MembersNotEmpty(s, t); }
  }

  lemma {:induction false} ElementsNotEmpty(s: Json, t: Json)
    requires s.Array? && t.Array? && !JsonEq(s, t)
    ensures var n := Min(|s.a|, |t.a|); ElementOps(s, t, n) + Removals(|t.a|, |s.a|) + Appends(t.a, n) != []
    decreases s, 0, |s.a| + 1
  {
    if |s.a| == |t.a| {
      var i :| 0 <= i < |s.a| && !JsonEq(s.a[i], t.a[i]);
      hide ElementOps, JsonEq;
      ElementNotEmpty(s, t, |s.a|, i);
    } else {
      hide ElementOps, JsonEq;
    }
  }

  lemma {:induction false} MembersNotEmpty(s: Json, t: Json)
    requires s.Object? && t.Object? && !JsonEq(s, t)
    ensures MemberOps(s, t, SortedKeys(s.m.Keys)) + NewMemberOps(s.m, t.m, SortedKeys(t.m.Keys)) != []
    decreases s, 0, |SortedKeys(s.m.Keys)| + 1
  {
    var m, n := s.m, t.m;
    var k := DifferingMember(s, t);
    hide MemberOps, NewMemberOps, SortedKeys, JsonEq;
    if k in m {
      MemberNotEmpty(s, t, SortedKeys(m.Keys), k);
    } else {
      NewMemberNotEmpty(m, n, SortedKeys(n.Keys), k);
    }
  }

  lemma DifferingMember(s: Json, t: Json) returns (k: Text)
    requires s.Object? && t.Object? && !JsonEq(s, t)
    ensures if k in s.m then k !in t.m || !JsonEq(s.m[k], t.m[k]) else k in t.m
  {
    if l :| l in s.m && (l !in t.m || !JsonEq(s.m[l], t.m[l])) {
      k := l;
    } else {
      assert s.m.Keys <= t.m.Keys;
      k :| k in t.m && k !in s.m;
    }
  }

  lemma {:induction false} ElementNotEmpty(s: Json, t: Json, n: nat, i: nat)
    requires s.Array? && t.Array? && i < n <= |s.a| && n <= |t.a| && !JsonEq(s.a[i], t.a[i])
    ensures ElementOps(s, t, n) != []
    decreases s, 0, n
  {
    if i == n - 1 { DiffNotEmpty(s.a[i], t.a[i]); } else { ElementNotEmpty(s, t, n - 1, i); }
  }

  lemma {:induction false} MemberNotEmpty(s: Json, t: Json, ks: seq<Text>, k: Text)
    requires s.Object? && t.Object? && (forall x | x in ks :: x in s.m)
    requires k in ks && (k !in t.m || !JsonEq(s.m[k], t.m[k]))
    ensures MemberOps(s, t, ks) != []
    decreases s, 0, |ks|
  {
    if ks[0] != k { MemberNotEmpty(s, t, ks[1..], k); } else if k in t.m { DiffNotEmpty(s.m[k], t.m[k]); }
  }

  lemma {:induction false} NewMemberNotEmpty(m: map<Text, Json>, n: map<Text, Json>, ks: seq<Text>, k: Text)
    requires (forall x | x in ks :: x in n) && k in ks && k !in m
    ensures NewMemberOps(m, n, ks) != []
  {
    if ks[0] != k { NewMemberNotEmpty(m, n, ks[1..], k); }
  }

  lemma TokenOfIndex(n: nat)
    ensures TokenIndex(Decimal(n)) == if n <= INT_MAX then Ok(n) else Err(OutOfRange)
    ensures Decimal(n) != [MINUS]
  {
    StoiDecimal(n);
    assert Decimal(n)[0] in Decimal(n);
  }

  /** An operation that starts at an unrepresentable index fails in std::stoi. */
  lemma HugeStep(j: Json, n: nat, op: Op)
    requires j.Array? && n > INT_MAX && Generated(op)
    ensures Step(j, Below(Decimal(n), op)) == Err(OutOfRange)
    ensures Direct(j, Below(Decimal(n), op))
  {
    var token := Decimal(n);
    TokenOfIndex(n);
    StoiDecimal(n);
    var p := [token] + op.path;
    if op.path == [] {
      assert Front(p) == [] && Last(p) == token;
    } else {
      assert Front(p) == [token] + Front(op.path);
    }
  }

  predicate HugeElement(a: seq<Json>, c: seq<Json>, i: nat)
    requires i < |a| && i < |c|
  {
    !JsonEq(a[i], c[i]) && (i > INT_MAX || HugeIndex(a[i], c[i]))
  }

  predicate HugeBefore(a: seq<Json>, c: seq<Json>, n: nat)
    requires n <= |a| && n <= |c|
  {
    exists i | 0 <= i < n :: HugeElement(a, c, i)
  }

  lemma HugeBeforeNext(a: seq<Json>, c: seq<Json>, n: nat)
    requires n < |a| && n < |c|
    ensures !HugeBefore(a, c, 0)
    ensures HugeBefore(a, c, n + 1) <==> HugeBefore(a, c, n) || HugeElement(a, c, n)
  {
    hide HugeElement;
  }

  function PartlyMerged(a: seq<Json>, c: seq<Json>, n: nat): (r: seq<Json>)
    requires n <= |a| && n <= |c|
  {
    seq(|a|, i requires 0 <= i < |a| => if i < n then Merged(a[i], c[i]) else a[i])
  }

  lemma PartlyMergedNext(a: seq<Json>, c: seq<Json>, n: nat)
    requires n < |a| && n < |c|
    ensures PartlyMerged(a, c, 0) == a
    ensures |PartlyMerged(a, c, n)| == |a| && PartlyMerged(a, c, n)[n] == a[n]
    ensures PartlyMerged(a, c, n)[n := Merged(a[n], c[n])] == PartlyMerged(a, c, n + 1)
  {
    hide Merged;
  }

  /** The element operations of one array position, applied after those of the positions before it. */
  lemma ElementStep(x: seq<Json>, n: nat, ops: seq<Op>)
    requires n < |x| && (forall op | op in ops :: Generated(op)) && AllDirect(x[n], ops)
    ensures AllDirect(Array(x), Under(Decimal(n), ops))
    ensures ApplyAll(Array(x), Under(Decimal(n), ops)) ==
      if n > INT_MAX && ops != [] then Err(OutOfRange)
      else match ApplyAll(x[n], ops) case Ok(v) => Ok(Array(x[n := v])) case Err(e) => Err(e)
  {
    TokenOfIndex(n);
    var token := Decimal(n);
    if ops == [] {
      assert x[n := x[n]] == x;
    } else if n > INT_MAX {
      HugeStep(Array(x), n, ops[0]);
    } else {
      assert At(Array(x), [token]) == Ok(x[n]);
      ApplyWithin(Array(x), token, ops);
    }
  }

  /** The operations of one position, as a function of the two elements there. */
  lemma {:induction false} ElementDiffApplies(x: seq<Json>, c: seq<Json>, n: nat)
    requires n < |x| && n < |c|
    ensures var ops := Under(Decimal(n), DiffOps(x[n], c[n]));
      AllDirect(Array(x), ops) &&
      ApplyAll(Array(x), ops) == if HugeElement(x, c, n) then Err(OutOfRange) else Ok(Array(x[n := Merged(x[n], c[n])]))
    decreases x[n], 2, 0
  {
    hide Step, ApplyAll, AllDirect, Under, HugeIndex;
    DiffApplies(x[n], c[n]);
    ElementStep(x, n, DiffOps(x[n], c[n]));
    if !JsonEq(x[n], c[n]) { DiffNotEmpty(x[n], c[n]); } else { EqualUnchanged(x[n], c[n]); }
  }

  lemma EqualUnchanged(s: Json, t: Json)
    requires JsonEq(s, t)
    ensures DiffOps(s, t) == [] && Merged(s, t) == s && !HugeIndex(s, t)
  {
  }

  lemma ApplyNone(doc: Json)
    ensures ApplyAll(doc, []) == Ok(doc) && AllDirect(doc, [])
  {
  }

  lemma {:induction false} ElementsApply(s: Json, t: Json, n: nat)
    requires s.Array? && t.Array? && n <= |s.a| && n <= |t.a|
    ensures AllDirect(s, ElementOps(s, t, n))
    ensures ApplyAll(s, ElementOps(s, t, n)) ==
      if HugeBefore(s.a, t.a, n) then Err(OutOfRange) else Ok(Array(PartlyMerged(s.a, t.a, n)))
    decreases s, 0, n
  {
    hide Step, ApplyAll, AllDirect, Under, HugeIndex, HugeElement, HugeBefore, PartlyMerged, JsonEq, Merged, DiffOps;
    if n == 0 {
      ApplyNone(s);
      ElementsBase(s.a, t.a);
    } else {
      var a, c := s.a, t.a;
      ElementsApply(s, t, n - 1);
      HugeBeforeNext(a, c, n - 1);
      PartlyMergedNext(a, c, n - 1);
      var part := PartlyMerged(a, c, n - 1);
      ElementDiffApplies(part, c, n - 1);
      SameHuge(a, part, c, n - 1);
      ApplyAppend(s, ElementOps(s, t, n - 1), Under(Decimal(n - 1), DiffOps(a[n - 1], c[n - 1])));
    }
  }

  lemma ElementsBase(a: seq<Json>, c: seq<Json>)
    ensures !HugeBefore(a, c, 0) && PartlyMerged(a, c, 0) == a
  {
  }

  lemma SameHuge(a: seq<Json>, x: seq<Json>, c: seq<Json>, n: nat)
    requires n < |a| && n < |x| && n < |c| && x[n] == a[n]
    ensures HugeElement(x, c, n) == HugeElement(a, c, n)
  {
  }

  lemma ApplyOne(doc: Json, op: Op)
    requires Direct(doc, op)
    ensures AllDirect(doc, [op])
    ensures ApplyAll(doc, [op]) == Step(doc, op)
  {
    hide Step, Direct;
    assert [op][1..] == [];
    if Step(doc, op).Ok? { ApplyNone(Step(doc, op).value); }
  }

  lemma RemoveLastApplies(x: seq<Json>, n: nat)
    requires |x| == n + 1
    ensures var ops := [Remove([Decimal(n)])];
      AllDirect(Array(x), ops) &&
      ApplyAll(Array(x), ops) == if n > INT_MAX then Err(OutOfRange) else Ok(Array(x[..n]))
  {
    hide ApplyAll, AllDirect, Stoi, Decimal;
    StoiDecimal(n);
    var op := Remove([Decimal(n)]);
    assert Front(op.path) == [] && Last(op.path) == Decimal(n);
    assert Step(Array(x), op) == Apply(RemoveMember(Decimal(n)), Array(x));
    assert n <= INT_MAX ==> x[..n] + x[n + 1..] == x[..n];
    ApplyOne(Array(x), op);
  }

  lemma {:induction false} RemovalsApply(x: seq<Json>, low: nat)
    requires low <= |x|
    ensures AllDirect(Array(x), Removals(low, |x|))
    ensures ApplyAll(Array(x), Removals(low, |x|)) ==
      if low < |x| && |x| > INT_MAX + 1 then Err(OutOfRange) else Ok(Array(x[..low]))
    decreases |x|
  {
    hide Step, ApplyAll, AllDirect, Decimal;
    if low < |x| {
      var n := |x| - 1;
      RemoveLastApplies(x, n);
      RemovalsApply(x[..n], low);
      ApplyAppend(Array(x), [Remove([Decimal(n)])], Removals(low, n));
      assert x[..n][..low] == x[..low];
    } else {
      ApplyNone(Array(x));
      assert x[..low] == x;
    }
  }

  lemma AppendOneApplies(x: seq<Json>, v: Json, n: nat)
    requires |x| == n
    ensures var ops := [Add([Decimal(n)], v)];
      AllDirect(Array(x), ops) &&
      ApplyAll(Array(x), ops) == if n > INT_MAX then Err(OutOfRange) else Ok(Array(x + [v]))
  {
    hide ApplyAll, AllDirect, Stoi, Decimal;
    StoiDecimal(n);
    TokenOfIndex(n);
    var op := Add([Decimal(n)], v);
    assert Front(op.path) == [] && Last(op.path) == Decimal(n);
    assert Step(Array(x), op) == Apply(AddMember(Decimal(n), v), Array(x));
    assert x[..n] + [v] + x[n..] == x + [v];
    ApplyOne(Array(x), op);
  }

  lemma {:induction false} AppendsApply(x: seq<Json>, c: seq<Json>)
    requires |x| <= |c|
    ensures AllDirect(Array(x), Appends(c, |x|))
    ensures ApplyAll(Array(x), Appends(c, |x|)) ==
      if |x| < |c| && |c| > INT_MAX + 1 then Err(OutOfRange) else Ok(Array(x + c[|x|..]))
    decreases |c| - |x|
  {
    hide Step, ApplyAll, AllDirect, Decimal;
    if |x| < |c| {
      var n, next := |x|, x + [c[|x|]];
      assert next + c[n + 1..] == x + c[n..];
      var first, rest := [Add([Decimal(n)], c[n])], Appends(c, n + 1);
      assert Appends(c, n) == first + rest;
      hide Appends;
      AppendOneApplies(x, c[n], n);
      AppendsApply(next, c);
      ApplyAppend(Array(x), first, rest);
    } else {
      ApplyNone(Array(x));
      assert x + c[|x|..] == x;
    }
  }

  function MembersDone(cur: map<Text, Json>, s: Json, t: Json, ks: seq<Text>): map<Text, Json>
    requires s.Object? && t.Object? && forall k | k in ks :: k in s.m
  {
    map k | k in cur && (k in ks ==> k in t.m) :: if k in ks then Merged(s.m[k], t.m[k]) else cur[k]
  }

  predicate HugeMember(m: map<Text, Json>, n: map<Text, Json>, k: Text)
    requires k in m
  {
    k in n && HugeIndex(m[k], n[k])
  }

  predicate HugeAmong(m: map<Text, Json>, n: map<Text, Json>, ks: seq<Text>)
    requires forall k | k in ks :: k in m
  {
    exists k | k in ks :: HugeMember(m, n, k)
  }

  lemma HugeAmongNext(m: map<Text, Json>, n: map<Text, Json>, ks: seq<Text>)
    requires forall k | k in ks :: k in m
    ensures ks == [] ==> !HugeAmong(m, n, ks)
    ensures ks != [] ==> (HugeAmong(m, n, ks) <==> HugeMember(m, n, ks[0]) || HugeAmong(m, n, ks[1..]))
  {
    hide HugeMember;
    if ks != [] { assert forall k :: k in ks <==> k == ks[0] || k in ks[1..]; }
  }

  function OneMemberDone(cur: map<Text, Json>, s: Json, t: Json, k: Text): map<Text, Json>
    requires s.Object? && t.Object? && k in s.m
  {
    if k in t.m then cur[k := Merged(s.m[k], t.m[k])] else cur - {k}
  }

  lemma RemoveMemberApplies(cur: map<Text, Json>, k: Text)
    requires k in cur
    ensures AllDirect(Object(cur), [Remove([k])])
    ensures ApplyAll(Object(cur), [Remove([k])]) == Ok(Object(cur - {k}))
  {
    assert Front([k]) == [] && [Remove([k])][1..] == [];
    ApplyNone(Object(cur - {k}));
  }

  lemma {:induction false} OneMemberApplies(cur: map<Text, Json>, s: Json, t: Json, k: Text)
    requires s.Object? && t.Object? && k in s.m && k in cur && cur[k] == s.m[k]
    ensures AllDirect(Object(cur), OneMember(s, t, k))
    ensures ApplyAll(Object(cur), OneMember(s, t, k)) ==
      if HugeMember(s.m, t.m, k) then Err(OutOfRange) else Ok(Object(OneMemberDone(cur, s, t, k)))
    decreases s, 0, 0
  {
    hide Step, ApplyAll, AllDirect, Under, HugeIndex, JsonEq, Merged, DiffOps;
    if k in t.m {
      DiffApplies(s.m[k], t.m[k]);
      assert At(Object(cur), [k]) == Ok(s.m[k]);
      ApplyWithin(Object(cur), k, DiffOps(s.m[k], t.m[k]));
    } else {
      RemoveMemberApplies(cur, k);
    }
  }

  lemma MembersDoneNext(cur: map<Text, Json>, s: Json, t: Json, ks: seq<Text>)
    requires s.Object? && t.Object? && (forall k | k in ks :: k in s.m && k in cur)
    requires ks != [] ==> ks[0] !in ks[1..]
    ensures ks == [] ==> MembersDone(cur, s, t, ks) == cur
    ensures ks != [] ==> MembersDone(OneMemberDone(cur, s, t, ks[0]), s, t, ks[1..]) == MembersDone(cur, s, t, ks)
  {
    hide Merged;
    if ks != [] { assert forall k :: k in ks <==> k == ks[0] || k in ks[1..]; }
  }

  lemma {:induction false} MembersApply(cur: map<Text, Json>, s: Json, t: Json, ks: seq<Text>)
    requires s.Object? && t.Object?
    requires forall k | k in ks :: k in s.m && k in cur && cur[k] == s.m[k]
    requires forall i, j | 0 <= i < j < |ks| :: ks[i] != ks[j]
    ensures AllDirect(Object(cur), MemberOps(s, t, ks))
    ensures ApplyAll(Object(cur), MemberOps(s, t, ks)) ==
      if HugeAmong(s.m, t.m, ks) then Err(OutOfRange) else Ok(Object(MembersDone(cur, s, t, ks)))
    decreases s, 0, |ks|
  {
    hide Step, ApplyAll, AllDirect, Under, HugeIndex, HugeMember, HugeAmong, JsonEq, Merged, DiffOps, MembersDone;
    HugeAmongNext(s.m, t.m, ks);
    MembersDoneNext(cur, s, t, ks);
    if ks == [] {
      ApplyNone(Object(cur));
    } else {
      var k, rest := ks[0], ks[1..];
      var next := OneMemberDone(cur, s, t, k);
      OneMemberApplies(cur, s, t, k);
      MembersApply(next, s, t, rest);
      ApplyAppend(Object(cur), OneMember(s, t, k), MemberOps(s, t, rest));
    }
  }

  function NewMembers(m: map<Text, Json>, n: map<Text, Json>, ks: seq<Text>): map<Text, Json>
    requires forall k | k in ks :: k in n
  {
    map k | k in ks && k !in m :: n[k]
  }

  lemma NewMembersNext(cur: map<Text, Json>, m: map<Text, Json>, n: map<Text, Json>, ks: seq<Text>)
    requires forall k | k in ks :: k in n
    ensures ks == [] ==> cur + NewMembers(m, n, ks) == cur
    ensures ks != [] ==>
      (if ks[0] in m then cur else cur[ks[0] := n[ks[0]]]) + NewMembers(m, n, ks[1..]) == cur + NewMembers(m, n, ks)
  {
    if ks != [] { assert forall k :: k in ks <==> k == ks[0] || k in ks[1..]; }
  }

  lemma AddMemberApplies(cur: map<Text, Json>, k: Text, v: Json)
    ensures AllDirect(Object(cur), [Add([k], v)])
    ensures ApplyAll(Object(cur), [Add([k], v)]) == Ok(Object(cur[k := v]))
  {
    assert Front([k]) == [] && [Add([k], v)][1..] == [];
    ApplyNone(Object(cur[k := v]));
  }

  lemma {:induction false} NewMembersApply(cur: map<Text, Json>, m: map<Text, Json>, n: map<Text, Json>, ks: seq<Text>)
    requires forall k | k in ks :: k in n
    ensures AllDirect(Object(cur), NewMemberOps(m, n, ks))
    ensures ApplyAll(Object(cur), NewMemberOps(m, n, ks)) == Ok(Object(cur + NewMembers(m, n, ks)))
    decreases |ks|
  {
    hide Step, ApplyAll, AllDirect, NewMembers;
    NewMembersNext(cur, m, n, ks);
    ApplyNone(Object(cur));
    if ks != [] {
      var k, rest := ks[0], ks[1..];
      if k in m {
        NewMembersApply(cur, m, n, rest);
        assert [] + NewMemberOps(m, n, rest) == NewMemberOps(m, n, rest);
      } else {
        AddMemberApplies(cur, k, n[k]);
        NewMembersApply(cur[k := n[k]], m, n, rest);
        ApplyAppend(Object(cur), [Add([k], n[k])], NewMemberOps(m, n, rest));
      }
    }
  }

  /** Running the operations of diff: either std::stoi overflows, or the merged document comes out. */
  lemma {:induction false} DiffApplies(s: Json, t: Json)
    ensures AllDirect(s, DiffOps(s, t))
    ensures ApplyAll(s, DiffOps(s, t)) == if HugeIndex(s, t) then Err(OutOfRange) else Ok(Merged(s, t))
    decreases s, 1, 0
  {
    if JsonEq(s, t) || KindOf(s) != KindOf(t) {
    } else {
      match s
      case Array(a) => ArrayDiffApplies(s, t);
      case Object(m) => ObjectDiffApplies(s, t);
      case _ =>
    }
  }

  lemma ArrayMerged(a: seq<Json>, c: seq<Json>)
    requires !JsonEq(Array(a), Array(c))
    ensures HugeIndex(Array(a), Array(c)) <==>
      (|a| != |c| && (|a| > INT_MAX + 1 || |c| > INT_MAX + 1)) || HugeBefore(a, c, Min(|a|, |c|))
    ensures Merged(Array(a), Array(c)).Array?
    ensures |c| <= |a| ==> PartlyMerged(a, c, |c|)[..|c|] == Merged(Array(a), Array(c)).a
    ensures |a| <= |c| ==> PartlyMerged(a, c, |a|) + c[|a|..] == Merged(Array(a), Array(c)).a
  {
    if i :| 0 <= i < |a| && i < |c| && !JsonEq(a[i], c[i]) && (i > INT_MAX || HugeIndex(a[i], c[i])) {
      assert HugeElement(a, c, i);
    }
  }

  lemma {:induction false} ArrayDiffApplies(s: Json, t: Json)
    requires s.Array? && t.Array? && !JsonEq(s, t)
    ensures AllDirect(s, DiffOps(s, t))
    ensures ApplyAll(s, DiffOps(s, t)) == if HugeIndex(s, t) then Err(OutOfRange) else Ok(Merged(s, t))
    decreases s, 0, |s.a| + 1
  {
    hide Step, ApplyAll, AllDirect, JsonEq, HugeIndex, HugeBefore, PartlyMerged, ElementOps, Removals, Appends, Merged;
    var a, c := s.a, t.a;
    var n := Min(|a|, |c|);
    var es, rs, qs := ElementOps(s, t, n), Removals(|c|, |a|), Appends(c, n);
    ElementsApply(s, t, n);
    ApplyAppend(s, es + rs, qs);
    ApplyAppend(s, es, rs);
    ArrayMerged(a, c);
    var part := PartlyMerged(a, c, n);
    PartlyMergedLength(a, c, n);
    if |c| <= |a| {
      RemovalsApply(part, |c|);
      AppendsApply(part[..|c|], c);
      assert part[..|c|] + c[|c|..] == part[..|c|];
    } else {
      RemovalsApply(part, |part|);
      assert part[..|part|] == part;
      NoRemovals(|c|, |a|);
      NoRemovals(|a|, |a|);
      AppendsApply(part, c);
    }
  }

  lemma PartlyMergedLength(a: seq<Json>, c: seq<Json>, n: nat)
    requires n <= |a| && n <= |c|
    ensures |PartlyMerged(a, c, n)| == |a|
  {
  }

  lemma NoRemovals(low: nat, high: nat)
    requires high <= low
    ensures Removals(low, high) == []
  {
  }

  lemma ObjectMerged(s: Json, t: Json)
    requires s.Object? && t.Object? && !JsonEq(s, t)
    ensures var ks, ls := SortedKeys(s.m.Keys), SortedKeys(t.m.Keys);
      && (HugeIndex(s, t) <==> HugeAmong(s.m, t.m, ks))
      && Merged(s, t) == Object(MembersDone(s.m, s, t, ks) + NewMembers(s.m, t.m, ls))
  {
    HugeMerged(s, t);
    MergedAt(s, t);
    DoneAt(s, t);
    hide SortedKeys, HugeIndex, HugeAmong, Merged, MembersDone, NewMembers, JsonEq, MergedMember;
    var ks, ls := SortedKeys(s.m.Keys), SortedKeys(t.m.Keys);
    SameMap(MembersDone(s.m, s, t, ks) + NewMembers(s.m, t.m, ls), Merged(s, t).m);
  }

  lemma SameMap(x: map<Text, Json>, y: map<Text, Json>)
    requires (forall k :: k in x <==> k in y) && forall k | k in x :: x[k] == y[k]
    ensures x == y
  {
  }

  /** Member k of the merged object. */
  function MergedMember(s: Json, t: Json, k: Text): Json
    requires s.Object? && t.Object? && k in t.m
  {
    if k in s.m then Merged(s.m[k], t.m[k]) else t.m[k]
  }

  lemma MergedAt(s: Json, t: Json)
    requires s.Object? && t.Object? && !JsonEq(s, t)
    ensures Merged(s, t).Object? && (forall k :: k in Merged(s, t).m <==> k in t.m)
    ensures forall k | k in t.m :: Merged(s, t).m[k] == MergedMember(s, t, k)
  {
    hide JsonEq;
  }

  lemma DoneAt(s: Json, t: Json)
    requires s.Object? && t.Object?
    ensures var done := MembersDone(s.m, s, t, SortedKeys(s.m.Keys)) + NewMembers(s.m, t.m, SortedKeys(t.m.Keys));
      && (forall k :: k in done <==> k in t.m)
      && forall k | k in t.m :: done[k] == MergedMember(s, t, k)
  {
    hide SortedKeys, Merged;
  }

  lemma HugeMerged(s: Json, t: Json)
    requires s.Object? && t.Object? && !JsonEq(s, t)
    ensures HugeIndex(s, t) <==> HugeAmong(s.m, t.m, SortedKeys(s.m.Keys))
  {
    hide SortedKeys, JsonEq;
    if k :| k in s.m && k in t.m && HugeIndex(s.m[k], t.m[k]) {
      assert k in SortedKeys(s.m.Keys) && HugeMember(s.m, t.m, k);
    }
  }

  lemma {:induction false} ObjectDiffApplies(s: Json, t: Json)
    requires s.Object? && t.Object? && !JsonEq(s, t)
    ensures AllDirect(s, DiffOps(s, t))
    ensures ApplyAll(s, DiffOps(s, t)) == if HugeIndex(s, t) then Err(OutOfRange) else Ok(Merged(s, t))
    decreases s, 0, |SortedKeys(s.m.Keys)| + 1
  {
    hide Step, ApplyAll, AllDirect, JsonEq, HugeIndex, HugeAmong, MemberOps, NewMemberOps, Merged, MembersDone, NewMembers, SortedKeys;
    var m, n := s.m, t.m;
    var ks, ls := SortedKeys(m.Keys), SortedKeys(n.Keys);
    SortedKeysDistinct(m.Keys);
    MembersApply(m, s, t, ks);
    NewMembersApply(MembersDone(m, s, t, ks), m, n, ls);
    ApplyAppend(s, MemberOps(s, t, ks), NewMemberOps(m, n, ls));
    ObjectMerged(s, t);
  }

  /** source.patch(diff(source, target)): the exact outcome, for every pair of documents. */
  lemma {:induction false} PatchOfDiff(s: Json, t: Json)
    ensures RunPatch(s, EncodeOps(DiffOps(s, t))) == if HugeIndex(s, t) then Err(OutOfRange) else Ok(Merged(s, t))
  {
    DiffApplies(s, t);
    RunPatchIsApplyAll(s, DiffOps(s, t));
  }

  // ------------------------------------------------- diff as it is computed

  function BelowPath(p: Path, op: Op): (r: Op)
    requires Generated(op)
    ensures Generated(r)
  {
    match op
    case Add(q, v) => Add(p + q, v)
    case Remove(q) => Remove(p + q)
    case Replace(q, v) => Replace(p + q, v)
  }

  /** The objects diff writes for operations relative to p. */
  function Encoded(p: Path, ops: seq<Op>): seq<Json>
    requires forall op | op in ops :: Generated(op)
  {
    if ops == [] then [] else [EncodeOp(BelowPath(p, ops[0]))] + Encoded(p, ops[1..])
  }

  lemma {:induction false} EncodedAppend(p: Path, xs: seq<Op>, ys: seq<Op>)
    requires forall op | op in xs :: Generated(op)
    requires forall op | op in ys :: Generated(op)
    ensures Encoded(p, xs + ys) == Encoded(p, xs) + Encoded(p, ys)
    decreases |xs|
  {
    hide EncodeOp, BelowPath;
    if xs == [] {
      assert xs + ys == ys;
    } else {
      assert (xs + ys)[1..] == xs[1..] + ys;
      EncodedAppend(p, xs[1..], ys);
    }
  }

  lemma {:induction false} EncodedUnder(p: Path, token: Text, ops: seq<Op>)
    requires forall op | op in ops :: Generated(op)
    ensures Encoded(p, Under(token, ops)) == Encoded(p + [token], ops)
    decreases |ops|
  {
    hide EncodeOp;
    if ops != [] {
      assert p + ([token] + ops[0].path) == p + [token] + ops[0].path;
      EncodedUnder(p, token, ops[1..]);
    }
  }

  lemma {:induction false} EncodedAtRoot(ops: seq<Op>)
    requires forall op | op in ops :: Generated(op)
    ensures Encoded([], ops) == EncodeOps(ops)
    decreases |ops|
  {
    hide EncodeOp;
    if ops != [] {
      assert [] + ops[0].path == ops[0].path;
      EncodedAtRoot(ops[1..]);
      assert EncodeOps(ops) == [EncodeOp(ops[0])] + EncodeOps(ops[1..]);
    }
  }

  lemma EncodedOne(p: Path, token: Text, v: Json)
    ensures Encoded(p, [Add([token], v)]) == [EncodeOp(Add(p + [token], v))]
    ensures Encoded(p, [Remove([token])]) == [EncodeOp(Remove(p + [token]))]
    ensures Encoded(p, [Replace([], v)]) == [EncodeOp(Replace(p, v))]
  {
    assert p + [] == p;
    assert [Add([token], v)][1..] == [] && [Remove([token])][1..] == [] && [Replace([], v)][1..] == [];
  }

  lemma IndexPath(tokens: Path, i: nat)
    ensures PointerText(tokens + [Decimal(i)]) == PointerText(tokens) + [SLASH] + Decimal(i)
  {
    EscapeDigits(Decimal(i));
    PointerTextSnoc(tokens, Decimal(i));
  }

  /** basic_json::diff with its helper argument: path is the text of tokens. */
  method Diff(source: Json, target: Json, path: Text, ghost tokens: Path) returns (result: seq<Json>)
    requires path == PointerText(tokens)
    ensures result == Encoded(tokens, DiffOps(source, target))
    decreases source, 1
  {
    hide PointerText;
    EncodedOne(tokens, [], target);
    if JsonEq(source, target) {
      result := [];
    } else if KindOf(source) != KindOf(target) {
      result := [ReplaceObject(path, target)];
    } else if source.Array? {
      result := DiffArrays(source, target, path, tokens);
    } else if source.Object? {
      result := DiffObjects(source, target, path, tokens);
    } else {
      result := [ReplaceObject(path, target)];
    }
  }

  lemma EncodedNone(p: Path, c: seq<Json>, i: nat)
    ensures Encoded(p, []) == [] && (i >= |c| ==> Appends(c, i) == [])
  {
  }

  lemma ElementEncoded(p: Path, s: Json, t: Json, i: nat)
    requires s.Array? && t.Array? && i < |s.a| && i < |t.a|
    ensures Encoded(p, ElementOps(s, t, i + 1)) ==
      Encoded(p, ElementOps(s, t, i)) + Encoded(p + [Decimal(i)], DiffOps(s.a[i], t.a[i]))
  {
    hide Encoded, DiffOps, Under, Decimal;
    EncodedUnder(p, Decimal(i), DiffOps(s.a[i], t.a[i]));
    EncodedAppend(p, ElementOps(s, t, i), Under(Decimal(i), DiffOps(s.a[i], t.a[i])));
  }

  lemma RemovalEncoded(p: Path, low: nat, i: nat)
    requires low <= i
    ensures Encoded(p, Removals(low, i + 1)) ==
      [RemoveObject(PointerText(p) + [SLASH] + Decimal(i))] + Encoded(p, Removals(low, i))
  {
    hide Encoded, Decimal, PointerText;
    IndexPath(p, i);
    EncodedOne(p, Decimal(i), Null);
    EncodedAppend(p, [Remove([Decimal(i)])], Removals(low, i));
  }

  lemma AppendEncoded(p: Path, c: seq<Json>, i: nat)
    requires i < |c|
    ensures Encoded(p, Appends(c, i)) ==
      [AddObject(PointerText(p) + [SLASH] + Decimal(i), c[i])] + Encoded(p, Appends(c, i + 1))
  {
    hide Encoded, Decimal, PointerText;
    IndexPath(p, i);
    EncodedOne(p, Decimal(i), c[i]);
    EncodedAppend(p, [Add([Decimal(i)], c[i])], Appends(c, i + 1));
  }

  /** The loop over the elements both arrays have. */
  method DiffElements(source: Json, target: Json, path: Text, ghost tokens: Path) returns (result: seq<Json>, i: nat)
    requires path == PointerText(tokens) && source.Array? && target.Array?
    ensures i == Min(|source.a|, |target.a|) && result == Encoded(tokens, ElementOps(source, target, i))
    decreases source, 0, 0
  {
    assert ElementOps(source, target, 0) == [];
    EncodedNone(tokens, [], 0);
    var a, c := source.a, target.a;
    assert Min(|a|, |c|) == if |a| < |c| then |a| else |c|;
    hide *;
    result, i := [], 0;
    while i < |a| && i < |c|
      invariant i <= |a| && i <= |c|
      invariant result == Encoded(tokens, ElementOps(source, target, i))
    {
      IndexPath(tokens, i);
      var tempDiff := Diff(a[i], c[i], path + [SLASH] + Decimal(i), tokens + [Decimal(i)]);
      ElementEncoded(tokens, source, target, i);
      result := result + tempDiff;
      i := i + 1;
    }
  }

  method DiffArrays(source: Json, target: Json, path: Text, ghost tokens: Path) returns (result: seq<Json>)
    requires path == PointerText(tokens) && source.Array? && target.Array?
    ensures var n := Min(|source.a|, |target.a|);
      result == Encoded(tokens, ElementOps(source, target, n) + Removals(|target.a|, |source.a|) + Appends(target.a, n))
    decreases source, 0, 1
  {
    hide PointerText, Decimal, DiffOps, Under, BelowPath, EncodeOp, AddObject, RemoveObject;
    EncodedNone(tokens, [], 0);
    NoRemovals(|target.a|, Min(|source.a|, |target.a|));
    hide ElementOps, Removals, Appends, Encoded;
    var a, c := source.a, target.a;
    ghost var n := Min(|a|, |c|);
    // first pass: common elements
    var i;
    result, i := DiffElements(source, target, path, tokens);
    // second pass: surplus elements of the source, in reverse order
    var endIndex := |result|;
    ghost var common := result;
    while i < |a|
      invariant n <= i && (i > n ==> i <= |a| && |c| <= i)
      invariant result == common + Encoded(tokens, Removals(|c|, i))
    {
      RemovalEncoded(tokens, |c|, i);
      result := result[..endIndex] + [RemoveObject(path + [SLASH] + Decimal(i))] + result[endIndex..];
      i := i + 1;
    }
    EncodedAppend(tokens, ElementOps(source, target, n), Removals(|c|, |a|));
    // other remaining elements of the target
    ghost var before := result;
    while i < |c|
      invariant n <= i
      invariant result + Encoded(tokens, Appends(c, i)) == before + Encoded(tokens, Appends(c, n))
    {
      AppendEncoded(tokens, c, i);
      result := result + [AddObject(path + [SLASH] + Decimal(i), c[i])];
      i := i + 1;
    }
    EncodedNone(tokens, c, i);
    EncodedAppend(tokens, ElementOps(source, target, n) + Removals(|c|, |a|), Appends(c, n));
  }

  lemma MemberEncoded(p: Path, s: Json, t: Json, k: Text, rest: seq<Op>)
    requires s.Object? && t.Object? && k in s.m && (forall op | op in rest :: Generated(op))
    ensures k in t.m ==>
      Encoded(p, OneMember(s, t, k) + rest) == Encoded(p + [k], DiffOps(s.m[k], t.m[k])) + Encoded(p, rest)
    ensures k !in t.m ==>
      Encoded(p, OneMember(s, t, k) + rest) == [RemoveObject(PointerText(p) + [SLASH] + Escape(k))] + Encoded(p, rest)
  {
    hide Encoded, DiffOps, Under, PointerText, Escape;
    EncodedAppend(p, OneMember(s, t, k), rest);
    if k in t.m {
      EncodedUnder(p, k, DiffOps(s.m[k], t.m[k]));
    } else {
      PointerTextSnoc(p, k);
      EncodedOne(p, k, Null);
    }
  }

  lemma NewMemberEncoded(p: Path, k: Text, v: Json, rest: seq<Op>)
    requires forall op | op in rest :: Generated(op)
    ensures Encoded(p, [Add([k], v)] + rest) == [AddObject(PointerText(p) + [SLASH] + Escape(k), v)] + Encoded(p, rest)
  {
    hide Encoded, PointerText, Escape;
    EncodedAppend(p, [Add([k], v)], rest);
    PointerTextSnoc(p, k);
    EncodedOne(p, k, v);
  }

  /** The pass over the source's members. */
  method DiffMembers(source: Json, target: Json, path: Text, ghost tokens: Path) returns (result: seq<Json>)
    requires path == PointerText(tokens) && source.Object? && target.Object?
    ensures result == Encoded(tokens, MemberOps(source, target, SortedKeys(source.m.Keys)))
    decreases source, 0, 0
  {
    EncodedEnd(tokens, source, target);
    hide PointerText, SortedKeys, Escape, OneMember, Encoded, AddObject, RemoveObject, DiffOps, MemberOps;
    var m, n := source.m, target.m;
    var ks := SortedKeys(m.Keys);
    ghost var all := Encoded(tokens, MemberOps(source, target, ks));
    result := [];
    while ks != []
      invariant forall k | k in ks :: k in m
      invariant result + Encoded(tokens, MemberOps(source, target, ks)) == all
      decreases |ks|
    {
      var k, rest := ks[0], ks[1..];
      var key := EscapeText(k);
      ghost var left := Encoded(tokens, MemberOps(source, target, rest));
      EncodedNext(tokens, source, target, ks);
      if k in n {
        PointerTextSnoc(tokens, k);
        var tempDiff := Diff(m[k], n[k], path + [SLASH] + key, tokens + [k]);
        Regroup(result, tempDiff, left);
        result := result + tempDiff;
      } else {
        Regroup(result, [RemoveObject(path + [SLASH] + key)], left);
        result := result + [RemoveObject(path + [SLASH] + key)];
      }
      ks := rest;
    }
    assert result + [] == result;
  }

  lemma EncodedEnd(p: Path, s: Json, t: Json)
    requires s.Object? && t.Object?
    ensures Encoded(p, MemberOps(s, t, [])) == [] == Encoded(p, NewMemberOps(s.m, t.m, []))
  {
    EncodedNone(p, [], 0);
    hide Encoded;
  }

  lemma EncodedNext(p: Path, s: Json, t: Json, ks: seq<Text>)
    requires s.Object? && t.Object? && ks != [] && forall k | k in ks :: k in s.m
    ensures var k, left := ks[0], Encoded(p, MemberOps(s, t, ks[1..]));
      Encoded(p, MemberOps(s, t, ks)) ==
        if k in t.m then Encoded(p + [k], DiffOps(s.m[k], t.m[k])) + left
        else [RemoveObject(PointerText(p) + [SLASH] + Escape(k))] + left
  {
    hide PointerText, Escape, OneMember, Encoded, RemoveObject, DiffOps;
    MemberEncoded(p, s, t, ks[0], MemberOps(s, t, ks[1..]));
  }

  lemma NewEncodedNext(p: Path, m: map<Text, Json>, n: map<Text, Json>, ks: seq<Text>)
    requires ks != [] && forall k | k in ks :: k in n
    ensures var k, left := ks[0], Encoded(p, NewMemberOps(m, n, ks[1..]));
      Encoded(p, NewMemberOps(m, n, ks)) ==
        if k in m then left else [AddObject(PointerText(p) + [SLASH] + Escape(k), n[k])] + left
  {
    hide PointerText, Escape, Encoded, AddObject;
    var k, rest := ks[0], NewMemberOps(m, n, ks[1..]);
    if k in m { assert [] + rest == rest; } else { NewMemberEncoded(p, k, n[k], rest); }
  }

  /** The pass over the target's members. */
  method DiffNewMembers(m: map<Text, Json>, n: map<Text, Json>, path: Text, ghost tokens: Path) returns (result: seq<Json>)
    requires path == PointerText(tokens)
    ensures result == Encoded(tokens, NewMemberOps(m, n, SortedKeys(n.Keys)))
  {
    EncodedEnd(tokens, Object(m), Object(n));
    hide PointerText, SortedKeys, Escape, Encoded, AddObject, NewMemberOps;
    var ks := SortedKeys(n.Keys);
    ghost var all := Encoded(tokens, NewMemberOps(m, n, ks));
    result := [];
    while ks != []
      invariant forall k | k in ks :: k in n
      invariant result + Encoded(tokens, NewMemberOps(m, n, ks)) == all
      decreases |ks|
    {
      var k := ks[0];
      NewEncodedNext(tokens, m, n, ks);
      if k !in m {
        var key := EscapeText(k);
        Regroup(result, [AddObject(path + [SLASH] + key, n[k])], Encoded(tokens, NewMemberOps(m, n, ks[1..])));
        result := result + [AddObject(path + [SLASH] + key, n[k])];
      }
      ks := ks[1..];
    }
    assert result + [] == result;
  }

  method DiffObjects(source: Json, target: Json, path: Text, ghost tokens: Path) returns (result: seq<Json>)
    requires path == PointerText(tokens) && source.Object? && target.Object?
    ensures result == Encoded(tokens,
      MemberOps(source, target, SortedKeys(source.m.Keys)) + NewMemberOps(source.m, target.m, SortedKeys(target.m.Keys)))
    decreases source, 0, 1
  {
    hide PointerText, SortedKeys, Encoded, MemberOps, NewMemberOps;
    var edits := DiffMembers(source, target, path, tokens);
    var added := DiffNewMembers(source.m, target.m, path, tokens);
    EncodedAppend(tokens, MemberOps(source, target, SortedKeys(source.m.Keys)),
                  NewMemberOps(source.m, target.m, SortedKeys(target.m.Keys)));
    result := edits + added;
  }

  /** The documented invariant source.patch(diff(source, target)) == target: it holds exactly when no index above
      INT_MAX is needed and the target holds no NaN; otherwise patch throws or the result compares unequal. */
  lemma {:induction false} DiffPatchInvariant(s: Json, t: Json)
    ensures var r := RunPatch(s, Encoded([], DiffOps(s, t)));
      (r.Ok? && JsonEq(r.value, t)) <==> (!HugeIndex(s, t) && !HasNaN(t))
  {
    EncodedAtRoot(DiffOps(s, t));
    PatchOfDiff(s, t);
    MergedEq(s, t);
  }

  /** A target array with an index above INT_MAX: diff writes an operation that patch cannot read. */
  lemma HugeIndexBreaksPatch()
    ensures RunPatch(Array([]), Encoded([], DiffOps(Array([]), Array(Nulls(INT_MAX + 2))))) == Err(OutOfRange)
  {
    var s, t := Array([]), Array(Nulls(INT_MAX + 2));
    assert |t.a| == INT_MAX + 2;
    assert HugeIndex(s, t);
    hide DiffOps, RunPatch, HugeIndex, Nulls;
    EncodedAtRoot(DiffOps(s, t));
    PatchOfDiff(s, t);
  }

  /** A NaN in the target: patch gives the target, which does not equal itself. */
  lemma NaNBreaksPatch()
    ensures var r := RunPatch(Null, Encoded([], DiffOps(Null, Float(NAN)))); r == Ok(Float(NAN)) && !JsonEq(r.value, Float(NAN))
  {
    assert IsNaN(NAN);
    hide DiffOps, RunPatch;
    EncodedAtRoot(DiffOps(Null, Float(NAN)));
    PatchOfDiff(Null, Float(NAN));
  }

  /** source.patch(diff(source, target)), as computed. */
  method DiffThenPatch(source: Json, target: Json) returns (r: Result<Json>)
    ensures r == (if HugeIndex(source, target) then Err(OutOfRange) else Ok(Merged(source, target)))
    ensures (r.Ok? && JsonEq(r.value, target)) <==> (!HugeIndex(source, target) && !HasNaN(target))
  {
    assert PointerText([]) == [];
    EncodedAtRoot(DiffOps(source, target));
    PatchOfDiff(source, target);
    MergedEq(source, target);
    hide DiffOps, Encoded, RunPatch, Merged, HugeIndex, HasNaN, JsonEq, EncodeOps;
    var d := Diff(source, target, [], []);
    r := Patch(source, Array(d));
  }
}
