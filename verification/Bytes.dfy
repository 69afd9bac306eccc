/** Byte strings, their lexicographic order, decimal text, and the error results that stand for C++ exceptions. */
module Bytes {
  import opened Numbers

  type byte = x: int | 0 <= x < 256
  type Text = seq<byte>

  /** The standard exception classes the modelled code throws; AssertionFailed is a failing `assert`. */
  datatype Error = InvalidArgument | OutOfRange | DomainError | LengthError | AssertionFailed

  datatype Result<+T> = Ok(value: T) | Err(error: Error) {
    predicate IsFailure() { Err? }

    function PropagateFailure<U>(): Result<U>
      requires Err?
    {
      Err(error)
    }

    function Extract(): T
      requires Ok?
    {
      value
    }
  }

  const ZERO: byte := 48
  const NINE: byte := 57
  const MINUS: byte := 45
  const SLASH: byte := 47
  const TILDE: byte := 126

  /** The bytes of a text in ASCII. */
  function Ascii(s: string): (t: Text)
    ensures |t| == |s|
  {
    seq(|s|, i requires 0 <= i < |s| => s[i] as int % 256)
  }

  function Concat(pieces: seq<Text>): Text {
    if pieces == [] then [] else pieces[0] + Concat(pieces[1..])
  }

  function Zeros(n: nat): (s: Text)
    ensures |s| == n && forall i | 0 <= i < n :: s[i] == 0
  {
    seq(n, _ => 0)
  }

  /** The number whose bytes are s, least significant first. */
  function LittleEndianValue(s: Text): nat {
    if s == [] then 0 else s[0] + 256 * LittleEndianValue(s[1..])
  }

  lemma {:induction false} ValueJoin(a: Text, b: Text)
    ensures LittleEndianValue(a + b) == LittleEndianValue(a) + Pow256(|a|) * LittleEndianValue(b)
  {
    if a == [] {
      assert a + b == b;
    } else {
      ValueJoin(a[1..], b);
      assert (a + b)[1..] == a[1..] + b;
      Distribute(a[0], LittleEndianValue(a[1..]), Pow256(|a| - 1), LittleEndianValue(b));
    }
  }

  lemma Distribute(x: int, y: int, p: int, v: int)
    ensures x + 256 * (y + p * v) == x + 256 * y + 256 * p * v
  {
  }

  // ---------------------------------------------------------------- order

  /** std::less<std::string>: unsigned byte-wise lexicographic order. */
  predicate LexLess(a: Text, b: Text) {
    if b == [] then false
    else if a == [] then true
    else if a[0] != b[0] then a[0] < b[0]
    else LexLess(a[1..], b[1..])
  }

  lemma LexStep(a: Text, b: Text)
    requires a != [] && b != []
    ensures LexLess(a, b) == if a[0] != b[0] then a[0] < b[0] else LexLess(a[1..], b[1..])
    ensures LexLess([], b) && !LexLess(a, [])
  {
  }

  lemma {:induction false} LexIrreflexive(a: Text)
    ensures !LexLess(a, a)
  {
    if a != [] {
      LexIrreflexive(a[1..]);
    }
  }

  lemma {:induction false} LexTransitive(a: Text, b: Text, c: Text)
    requires LexLess(a, b) && LexLess(b, c)
    ensures LexLess(a, c)
  {
    if a != [] && a[0] == b[0] && b[0] == c[0] {
      LexTransitive(a[1..], b[1..], c[1..]);
    }
  }

  lemma {:induction false} LexTotal(a: Text, b: Text)
    ensures a == b || LexLess(a, b) || LexLess(b, a)
  {
    if a != [] && b != [] && a[0] == b[0] {
      LexTotal(a[1..], b[1..]);
      assert a == [a[0]] + a[1..] && b == [b[0]] + b[1..];
    }
  }

  lemma {:induction false} LexStripPrefix(p: Text, a: Text, b: Text)
    ensures LexLess(p + a, p + b) == LexLess(a, b)
  {
    if p == [] {
      assert p + a == a && p + b == b;
    } else {
      LexStripPrefix(p[1..], a, b);
      assert (p + a)[1..] == p[1..] + a && (p + b)[1..] == p[1..] + b;
    }
  }

  lemma {:induction false} LeastExists(s: set<Text>) returns (k: Text)
    requires s != {}
    ensures k in s && forall x | x in s :: x == k || LexLess(k, x)
    decreases |s|
  {
    var e :| e in s;
    k := e;
    if s != {e} {
      assert s - {e} != {};
      var r := LeastExists(s - {e});
      LexTotal(e, r);
      k := if LexLess(e, r) then e else r;
      forall x | x in s ensures x == k || LexLess(k, x) {
        if k == e && x != e && x != r {
          LexTransitive(e, r, x);
        }
      }
    }
  }

  function Least(s: set<Text>): (k: Text)
    requires s != {}
    ensures k in s && forall x | x in s :: x == k || LexLess(k, x)
  {
    assert exists k :: k in s && forall x | x in s :: x == k || LexLess(k, x) by {
      var k := LeastExists(s);
    }
    assert forall j, k | j in s && k in s && (forall x | x in s :: x == j || LexLess(j, x)) && (forall x | x in s :: x == k || LexLess(k, x)) :: j == k by {
      forall j, k | j in s && k in s && (forall x | x in s :: x == j || LexLess(j, x)) && (forall x | x in s :: x == k || LexLess(k, x))
        ensures j == k
      {
        if j != k {
          LexTransitive(j, k, j);
          LexIrreflexive(j);
        }
      }
    }
    var k :| k in s && forall x | x in s :: x == k || LexLess(k, x);
    k
  }

  predicate StrictlySorted(ks: seq<Text>) {
    forall i, j | 0 <= i < j < |ks| :: LexLess(ks[i], ks[j])
  }

  /** The iteration order of a std::map with these keys. */
  function SortedKeys(s: set<Text>): (ks: seq<Text>)
    ensures forall k :: k in ks <==> k in s
    ensures StrictlySorted(ks)
    decreases |s|
  {
    if s == {} then []
    else
      var k := Least(s);
      assert k !in s - {k};
      [k] + SortedKeys(s - {k})
  }

  lemma {:induction false} SortedKeysDistinct(s: set<Text>)
    ensures |SortedKeys(s)| == |s|
    ensures forall i, j | 0 <= i < j < |SortedKeys(s)| :: SortedKeys(s)[i] != SortedKeys(s)[j]
    decreases |s|
  {
    if s != {} {
      SortedKeysDistinct(s - {Least(s)});
    }
    var ks := SortedKeys(s);
    forall i, j | 0 <= i < j < |ks| ensures ks[i] != ks[j] {
      LexIrreflexive(ks[i]);
    }
  }

  // -------------------------------------------------------------- decimal

  predicate IsDigit(c: byte) { ZERO <= c <= NINE }

  predicate AllDigits(s: Text) { forall c | c in s :: IsDigit(c) }

  /** std::to_string on a non-negative number. */
  function Decimal(n: nat): (s: Text)
    ensures s != [] && AllDigits(s)
    ensures n == 0 || s[0] != ZERO
    ensures n == 0 ==> s == [ZERO]
  {
    if n < 10 then [ZERO + n] else Decimal(n / 10) + [ZERO + n % 10]
  }

  /** Value of the maximal digit prefix of s, continuing from acc. */
  function DigitsValue(s: Text, acc: nat): nat {
    if s == [] || !IsDigit(s[0]) then acc else DigitsValue(s[1..], acc * 10 + (s[0] - ZERO))
  }

  lemma {:induction false} DigitsValueAppend(s: Text, c: byte, acc: nat)
    requires AllDigits(s) && IsDigit(c)
    ensures DigitsValue(s + [c], acc) == DigitsValue(s, acc) * 10 + (c - ZERO)
  {
    if s == [] {
      assert (s + [c])[1..] == [];
    } else {
      assert (s + [c])[1..] == s[1..] + [c];
      assert IsDigit(s[0]);
      DigitsValueAppend(s[1..], c, acc * 10 + (s[0] - ZERO));
    }
  }

  lemma {:induction false} DecimalValue(n: nat)
    ensures DigitsValue(Decimal(n), 0) == n
  {
    if n >= 10 {
      DecimalValue(n / 10);
      DigitsValueAppend(Decimal(n / 10), ZERO + n % 10, 0);
    }
  }

  predicate IsSpace(c: byte) { c == 32 || 9 <= c <= 13 }

  function SkipSpace(s: Text): Text {
    if s != [] && IsSpace(s[0]) then SkipSpace(s[1..]) else s
  }

  /** std::stoi: leading space and a sign are accepted, the longest digit prefix counts, the rest is ignored. */
  function Stoi(s: Text): Result<int> {
    var t := SkipSpace(s);
    var signed := t != [] && (t[0] == MINUS || t[0] == 43);
    var body := if signed then t[1..] else t;
    if body == [] || !IsDigit(body[0]) then Err(InvalidArgument)
    else
      var v: int := DigitsValue(body, 0);
      var i := if signed && t[0] == MINUS then -v else v;
      if -INT_MAX - 1 <= i <= INT_MAX then Ok(i) else Err(OutOfRange)
  }

  lemma StoiDecimal(n: nat)
    ensures Stoi(Decimal(n)) == if n <= INT_MAX then Ok(n) else Err(OutOfRange)
  {
    DecimalValue(n);
    var s := Decimal(n);
    assert s[0] in s;
    assert SkipSpace(s) == s;
  }

  predicate BlankList(ws: Text) { forall c | c in ws :: c in [9, 10, 11, 12, 13, 32] }

  lemma {:induction false} SpaceSkipped(ws: Text, s: Text)
    requires BlankList(ws)
    ensures SkipSpace(ws + s) == SkipSpace(s)
  {
    if ws == [] {
      assert ws + s == s;
    } else {
      assert ws[0] in ws && (ws + s)[1..] == ws[1..] + s;
      SpaceSkipped(ws[1..], s);
    }
  }

  lemma {:induction false} DigitsStop(s: Text, tail: Text, acc: nat)
    requires AllDigits(s) && (tail == [] || !IsDigit(tail[0]))
    ensures DigitsValue(s + tail, acc) == DigitsValue(s, acc)
  {
    if s == [] {
      assert s + tail == tail;
    } else {
      assert IsDigit(s[0]) && (s + tail)[1..] == s[1..] + tail;
      DigitsStop(s[1..], tail, acc * 10 + (s[0] - ZERO));
    }
  }

  /** std::stoi reads any number behind white space and a sign, ignores what follows the digits, and checks the range of a
      32-bit int. */
  lemma StoiReads(ws: Text, sign: Text, n: nat, tail: Text)
    requires BlankList(ws) && sign in [[], [43], [45]] && (tail == [] || !(48 <= tail[0] <= 57))
    ensures var m: int := n; var i := if sign == [45] then -m else m;
      Stoi(ws + (sign + (Decimal(n) + tail))) == if -0x8000_0000 <= i < 0x8000_0000 then Ok(i) else Err(OutOfRange)
  {
    var digits := Decimal(n) + tail;
    var t := sign + digits;
    DecimalValue(n);
    DigitsStop(Decimal(n), tail, 0);
    assert Decimal(n)[0] in Decimal(n) && digits[0] == Decimal(n)[0];
    hide Decimal, DigitsValue;
    SpaceSkipped(ws, t);
    assert SkipSpace(t) == t;
    if sign == [] { assert t == digits; } else { assert t[1..] == digits; }
    hide SkipSpace;
  }

  /** Without a digit there, std::stoi throws std::invalid_argument. */
  lemma StoiRejects(ws: Text, sign: Text, s: Text)
    requires BlankList(ws) && sign in [[], [43], [45]] && (s == [] || !(48 <= s[0] <= 57))
    requires sign == [] && s != [] ==> s[0] !in [9, 10, 11, 12, 13, 32, 43, 45]
    ensures Stoi(ws + (sign + s)) == Err(InvalidArgument)
  {
    var t := sign + s;
    SpaceSkipped(ws, t);
    assert SkipSpace(t) == t;
    if sign == [] { assert t == s; } else { assert t[1..] == s; }
    hide SkipSpace;
  }
}
