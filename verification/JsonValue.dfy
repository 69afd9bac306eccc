/** The JSON document type of basic_json<> and its operator==. */
module JsonValue {
  import opened Bytes
  import opened Numbers

  type int64 = x: int | -0x8000_0000_0000_0000 <= x < 0x8000_0000_0000_0000
  type uint64 = x: int | 0 <= x < 0x1_0000_0000_0000_0000

  /** A float is its eight IEEE 754 bytes read as one number; an object is a std::map from key to value. */
  datatype Json =
    | Null
    | Boolean(b: bool)
    | Integer(i: int64)
    | Unsigned(u: uint64)
    | Float(bits: uint64)
    | String(s: Text)
    | Array(a: seq<Json>)
    | Object(m: map<Text, Json>)

  datatype Kind = KNull | KBoolean | KInteger | KUnsigned | KFloat | KString | KArray | KObject

  function KindOf(j: Json): Kind {
    match j
    case Null => KNull
    case Boolean(_) => KBoolean
    case Integer(_) => KInteger
    case Unsigned(_) => KUnsigned
    case Float(_) => KFloat
    case String(_) => KString
    case Array(_) => KArray
    case Object(_) => KObject
  }

  function Nulls(n: nat): seq<Json> { seq(n, _ => Null) }

  predicate IsPrimitive(j: Json) { !j.Array? && !j.Object? }

  // --------------------------------------------------------------- numbers

  const TWO52: nat := 0x10_0000_0000_0000
  const INFINITY: uint64 := 0x7ff0_0000_0000_0000
  const NAN: uint64 := 0x7ff8_0000_0000_0000

  /** std::isfinite. */
  predicate IsFinite(bits: nat) { bits / TWO52 % 2048 != 2047 }

  predicate IsNaN(bits: nat) { (bits / TWO52) % 2048 == 2047 && bits % TWO52 != 0 }

  /** operator== on double, from the bit patterns: NaN equals nothing, the two zeros are equal. */
  predicate DoubleEq(x: nat, y: nat) {
    !IsNaN(x) && !IsNaN(y) && (x == y || (x % TWO63 == 0 && y % TWO63 == 0))
  }

  function Log2(n: nat): nat {
    if n < 2 then 0 else 1 + Log2(n / 2)
  }

  /** Bit pattern of static_cast<double>(n): 53 significant bits, ties to even. */
  function NatToDouble(n: nat): nat {
    if n == 0 then 0
    else
      var e := Log2(n);
      var mantissa: nat :=
        if e <= 52 then n * Pow2(52 - e)
        else
          var unit := Pow2(e - 52);
          var q, r := n / unit, n % unit;
          if 2 * r > unit || (2 * r == unit && q % 2 == 1) then q + 1 else q;
      (e + 1022) * TWO52 + mantissa
  }

  function IntToDouble(i: int): nat {
    if i < 0 then TWO63 + NatToDouble(-i) else NatToDouble(i)
  }

  /** static_cast<int64_t>(u). */
  function WrapToInt64(u: uint64): int64 {
    if u < TWO63 then u else u - TWO64
  }

  // -------------------------------------------------------------- equality

  predicate JsonEq(x: Json, y: Json) {
    match (x, y)
    case (Null, Null) => true
    case (Boolean(b), Boolean(c)) => b == c
    case (Integer(i), Integer(k)) => i == k
    case (Unsigned(u), Unsigned(v)) => u == v
    case (Float(f), Float(g)) => DoubleEq(f, g)
    case (String(s), String(t)) => s == t
    case (Array(a), Array(c)) => |a| == |c| && forall i | 0 <= i < |a| :: JsonEq(a[i], c[i])
    case (Object(m), Object(n)) => m.Keys == n.Keys && forall k | k in m :: JsonEq(m[k], n[k])
    case (Integer(i), Float(f)) => DoubleEq(IntToDouble(i), f)
    case (Float(f), Integer(i)) => DoubleEq(f, IntToDouble(i))
    case (Unsigned(u), Float(f)) => DoubleEq(IntToDouble(u), f)
    case (Float(f), Unsigned(u)) => DoubleEq(f, IntToDouble(u))
    case (Unsigned(u), Integer(i)) => WrapToInt64(u) == i
    case (Integer(i), Unsigned(u)) => i == WrapToInt64(u)
    case _ => false
  }

  predicate HasNaN(j: Json) {
    match j
    case Float(f) => IsNaN(f)
    case Array(a) => exists i | 0 <= i < |a| :: HasNaN(a[i])
    case Object(m) => exists k | k in m :: HasNaN(m[k])
    case _ => false
  }

  /** A document equals itself exactly when it holds no NaN. */
  lemma {:induction false} EqReflexive(j: Json)
    ensures JsonEq(j, j) <==> !HasNaN(j)
  {
    match j
    case Array(a) =>
      forall i | 0 <= i < |a| ensures JsonEq(a[i], a[i]) <==> !HasNaN(a[i]) { EqReflexive(a[i]); }
    case Object(m) =>
      forall k | k in m ensures JsonEq(m[k], m[k]) <==> !HasNaN(m[k]) { EqReflexive(m[k]); }
    case _ =>
  }

  /** Nothing equals a document that holds a NaN. */
  lemma {:induction false} NaNEqualsNothing(x: Json, y: Json)
    requires HasNaN(y)
    ensures !JsonEq(x, y)
    decreases y
  {
    match y
    case Array(a) =>
      var i :| 0 <= i < |a| && HasNaN(a[i]);
      if x.Array? && |x.a| == |a| { NaNEqualsNothing(x.a[i], a[i]); }
    case Object(m) =>
      var k :| k in m && HasNaN(m[k]);
      if x.Object? && k in x.m { NaNEqualsNothing(x.m[k], m[k]); }
    case _ =>
  }

  lemma {:induction false} EqSymmetric(x: Json, y: Json)
    ensures JsonEq(x, y) <==> JsonEq(y, x)
    decreases x
  {
    match (x, y)
    case (Array(a), Array(c)) =>
      if |a| == |c| { forall i | 0 <= i < |a| ensures JsonEq(a[i], c[i]) <==> JsonEq(c[i], a[i]) { EqSymmetric(a[i], c[i]); } }
    case (Object(m), Object(n)) =>
      if m.Keys == n.Keys { forall k | k in m ensures JsonEq(m[k], n[k]) <==> JsonEq(n[k], m[k]) { EqSymmetric(m[k], n[k]); } }
    case _ =>
  }

  /** An int64 and a uint64 are compared modulo 2^64. */
  lemma SignedUnsigned(i: int64, u: uint64)
    ensures JsonEq(Integer(i), Unsigned(u)) <==> (u - i) % TWO64 == 0
    ensures JsonEq(Unsigned(u), Integer(i)) <==> (u - i) % TWO64 == 0
  {
  }

  /** The constructor from double: infinities and NaN become null. */
  function FromDouble(bits: uint64): Json { if IsFinite(bits) then Float(bits) else Null }

  predicate AllFinite(j: Json) {
    match j
    case Float(f) => IsFinite(f)
    case Array(a) => forall i | 0 <= i < |a| :: AllFinite(a[i])
    case Object(m) => forall k | k in m :: AllFinite(m[k])
    case _ => true
  }

  /** The value the decoders and the parser give back: a non-negative integer comes back as unsigned, a float that is not
      finite as null. */
  function Normalize(j: Json): Json {
    match j
    case Integer(i) => if i >= 0 then Unsigned(i) else j
    case Float(f) => FromDouble(f)
    case Array(a) => Array(seq(|a|, i requires 0 <= i < |a| => Normalize(a[i])))
    case Object(m) => Object(map k | k in m :: Normalize(m[k]))
    case _ => j
  }

  lemma {:induction false} NormalizeEq(j: Json)
    ensures JsonEq(Normalize(j), j) <==> AllFinite(j)
  {
    match j
    case Array(a) =>
      forall i | 0 <= i < |a| ensures JsonEq(Normalize(a[i]), a[i]) <==> AllFinite(a[i]) { NormalizeEq(a[i]); }
    case Object(m) =>
      forall k | k in m ensures JsonEq(Normalize(m[k]), m[k]) <==> AllFinite(m[k]) { NormalizeEq(m[k]); }
    case _ =>
  }

  /** The normalized elements from index i on. */
  function NormalizedFrom(j: Json, i: nat): seq<Json>
    requires j.Array? && i <= |j.a|
  {
    seq(|j.a| - i, n requires 0 <= n < |j.a| - i => Normalize(j.a[i + n]))
  }

  /** The normalized members under the keys ks. */
  function NormalizedAt(j: Json, ks: seq<Text>): map<Text, Json>
    requires j.Object? && forall k | k in ks :: k in j.m
  {
    map k | k in ks :: Normalize(j.m[k])
  }

  lemma NormalizedAll(j: Json, ks: seq<Text>)
    requires j.Object? && forall k :: k in ks <==> k in j.m
    ensures Object(map[] + NormalizedAt(j, ks)) == Normalize(j)
  {
    var m := map[] + NormalizedAt(j, ks);
    assert m == Normalize(j).m;
  }

  lemma MembersJoin(j: Json, ks: seq<Text>, m: map<Text, Json>)
    requires j.Object? && ks != [] && forall k | k in ks :: k in j.m
    ensures m[ks[0] := Normalize(j.m[ks[0]])] + NormalizedAt(j, ks[1..]) == m + NormalizedAt(j, ks)
  {
    hide Normalize;
    assert forall k :: k in ks <==> k == ks[0] || k in ks[1..];
  }
}
