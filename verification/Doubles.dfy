/** The numbers that IEEE 754 bit patterns stand for, and integers compared with doubles. */
module Doubles {
  import opened JsonValue
  import opened Numbers

  /** 2^e. */
  function Scale(e: int): (s: real)
    ensures s > 0.0
  {
    if e >= 0 then Pow2(e) as real else 1.0 / Pow2(-e) as real
  }

  /** The number 63 bits of exponent and fraction stand for, by IEEE 754; for the infinity the next one, 2^1024. */
  function Magnitude(m: nat): real {
    var e, f := m / TWO52, m % TWO52;
    if e == 0 then f as real * Scale(-1074) else (TWO52 + f) as real * Scale(e - 1075)
  }

  /** The number a bit pattern stands for. */
  function DoubleValue(bits: nat): real {
    if bits >= TWO63 then -Magnitude(bits % TWO63) else Magnitude(bits)
  }

  // ------------------------------------------------------- equal patterns

  /** The patterns of NaN and of the finite numbers, whatever the sign. */
  lemma Patterns(bits: nat)
    requires bits < TWO64
    ensures IsNaN(bits) <==> bits % TWO63 > 0x7ff0_0000_0000_0000
    ensures IsFinite(bits) <==> bits % TWO63 < 0x7ff0_0000_0000_0000
  {
    var m := bits % TWO63;
    assert bits == m || bits == TWO63 + m;
    assert (TWO63 + m) / TWO52 == 2048 + m / TWO52 && (TWO63 + m) % TWO52 == m % TWO52;
    assert (2048 + m / TWO52) % 2048 == m / TWO52 == m / TWO52 % 2048;
  }

  lemma ScaleStep(e: int)
    ensures Scale(e + 1) == 2.0 * Scale(e)
  {
    if e < 0 {
      var p := Pow2(-e - 1) as real;
      assert Pow2(-e) as real == 2.0 * p;
      assert Scale(e + 1) == 1.0 / p by { if e == -1 { assert Pow2(0) == 1; } }
      assert 2.0 * (1.0 / (2.0 * p)) == 1.0 / p;
    }
  }

  /** Neighbouring patterns stand for numbers one unit in the last place apart, gradual underflow included. */
  lemma MagnitudeStep(m: nat)
    ensures Magnitude(m + 1) - Magnitude(m) == Scale((if m < TWO52 then 1 else m / TWO52) - 1075)
  {
    var e, f := m / TWO52, m % TWO52;
    hide *;
    assert m == e * TWO52 + f;
    if f + 1 < TWO52 {
      StepWithin(e, f);
    } else {
      assert m + 1 == (e + 1) * TWO52;
      StepCarry(e);
    }
  }

  lemma StepWithin(e: nat, f: nat)
    requires f + 1 < TWO52
    ensures Magnitude(e * TWO52 + (f + 1)) - Magnitude(e * TWO52 + f) == Scale((if e == 0 then 1 else e) - 1075)
  {
    hide *;
    if e == 0 { StepTiny(f); } else { StepNormal(e, f); }
  }

  lemma StepTiny(f: nat)
    requires f + 1 < TWO52
    ensures Magnitude(0 * TWO52 + (f + 1)) - Magnitude(0 * TWO52 + f) == Scale(-1074)
  {
    hide *;
    MagnitudeOf(0, f);
    MagnitudeOf(0, f + 1);
    UnitApart(f, Scale(-1074));
  }

  lemma StepNormal(e: nat, f: nat)
    requires e > 0 && f + 1 < TWO52
    ensures Magnitude(e * TWO52 + (f + 1)) - Magnitude(e * TWO52 + f) == Scale(e - 1075)
  {
    hide *;
    MagnitudeOf(e, f);
    MagnitudeOf(e, f + 1);
    var a := TWO52 + f;
    assert TWO52 + (f + 1) == a + 1;
    UnitApart(a, Scale(e - 1075));
  }

  lemma StepCarry(e: nat)
    ensures Magnitude((e + 1) * TWO52) - Magnitude(e * TWO52 + (TWO52 - 1)) == Scale((if e == 0 then 1 else e) - 1075)
  {
    MagnitudeOf(e, TWO52 - 1);
    MagnitudeOf(e + 1, 0);
    hide *;
    if e == 0 {
      UnitApart(TWO52 - 1, Scale(-1074));
    } else {
      ScaleStep(e - 1075);
      assert e - 1075 + 1 == e + 1 - 1075;
      CarryApart(Scale(e - 1075));
    }
  }

  lemma UnitApart(a: nat, s: real)
    ensures (a + 1) as real * s - a as real * s == s
  {
  }

  lemma CarryApart(s: real)
    ensures (TWO52 + 0) as real * (2.0 * s) - (TWO52 + (TWO52 - 1)) as real * s == s
  {
  }

  lemma MagnitudeOf(e: nat, f: nat)
    requires f < TWO52
    ensures Magnitude(e * TWO52 + f) == if e == 0 then f as real * Scale(-1074) else (TWO52 + f) as real * Scale(e - 1075)
  {
    ModUnique(e * TWO52 + f, TWO52, e, f);
    hide Scale;
  }

  lemma {:induction false} MagnitudeOrder(a: nat, b: nat)
    requires a < b
    ensures Magnitude(a) < Magnitude(b)
    decreases b - a
  {
    MagnitudeStep(b - 1);
    if a < b - 1 { MagnitudeOrder(a, b - 1); }
    hide Magnitude;
  }

  lemma Positive(m: nat)
    ensures Magnitude(m) >= 0.0 && (Magnitude(m) == 0.0 <==> m == 0)
  {
    assert Magnitude(0) == 0.0;
    if m > 0 { MagnitudeOrder(0, m); }
    hide Magnitude;
  }

  /** operator== on doubles, computed from the patterns, says whether they are numbers and stand for the same one. */
  lemma SameNumber(x: nat, y: nat)
    requires x < TWO64 && y < TWO64
    ensures DoubleEq(x, y) <==> !IsNaN(x) && !IsNaN(y) && DoubleValue(x) == DoubleValue(y)
  {
    var a, b := x % TWO63, y % TWO63;
    Signed(x);
    Signed(y);
    Positive(a);
    Positive(b);
    if a < b { MagnitudeOrder(a, b); } else if b < a { MagnitudeOrder(b, a); }
    hide Magnitude, IsNaN, DoubleValue;
  }

  lemma Signed(x: nat)
    requires x < TWO64
    ensures var m := x % TWO63;
      if x < TWO63 then x == m && DoubleValue(x) == Magnitude(m) else x == TWO63 + m && DoubleValue(x) == -Magnitude(m)
  {
    hide Magnitude;
  }

  // ------------------------------------------------- integers as doubles

  lemma {:induction false} Log2Bounds(n: nat)
    requires n > 0
    ensures Pow2(Log2(n)) <= n < 2 * Pow2(Log2(n))
  {
    if n >= 2 { Log2Bounds(n / 2); }
  }

  lemma {:induction false} Pow2Adds(a: nat, b: nat)
    ensures Pow2(a + b) == Pow2(a) * Pow2(b)
  {
    if a > 0 {
      Pow2Adds(a - 1, b);
      Twice(Pow2(a - 1), Pow2(b));
    }
  }

  lemma Twice(x: nat, y: nat)
    ensures 2 * (x * y) == 2 * x * y
  {
  }

  lemma {:induction false} Pow2Order(a: nat, b: nat)
    requires a <= b
    ensures Pow2(a) <= Pow2(b)
    decreases b - a
  {
    if a < b { Pow2Order(a, b - 1); }
  }

  lemma Pow52()
    ensures Pow2(52) == TWO52
  {
    Pow13();
    hide Pow2;
    Pow2Adds(26, 26);
    Pow2Adds(13, 13);
  }

  lemma Pow13()
    ensures Pow2(13) == 8192
  {
    assert Pow2(6) == 64;
    hide Pow2;
    Pow2Adds(6, 6);
    Pow2Adds(12, 1);
    PowOne();
  }

  lemma PowOne()
    ensures Pow2(1) == 2
  {
  }

  lemma MantissaBounds(n: nat)
    requires 0 < n < 2 * TWO52
    ensures Log2(n) <= 52 && TWO52 <= n * Pow2(52 - Log2(n)) < 2 * TWO52
  {
    var e := Log2(n);
    Log2Bounds(n);
    Pow52();
    if e > 52 { Pow2Order(53, e); }
    Pow2Adds(e, 52 - e);
    hide Log2, Pow2;
    MantissaRange(n, Pow2(e), Pow2(52 - e));
  }

  lemma MantissaRange(n: nat, p: nat, q: nat)
    requires p <= n < 2 * p && p * q == TWO52 && q > 0
    ensures TWO52 <= n * q < 2 * TWO52
  {
    MulBounds(p, n, 2 * p, q);
    assert 2 * p * q == 2 * (p * q);
  }

  /** Below 2^53 no bit is lost: the mantissa is n shifted up to 53 bits. */
  lemma NatPattern(n: nat)
    requires 0 < n < 2 * TWO52
    ensures Log2(n) <= 52
    ensures NatToDouble(n) == (Log2(n) + 1022) * TWO52 + n * Pow2(52 - Log2(n))
  {
    MantissaBounds(n);
    hide Log2, Pow2;
  }

  lemma MulBounds(a: nat, n: nat, b: nat, p: nat)
    requires a <= n < b && p > 0
    ensures a * p <= n * p < b * p
  {
  }

  /** Exponent and fraction of the pattern made from a 53-bit mantissa; rounding up to 2^53 carries into the exponent. */
  lemma Fields(e: nat, m: nat)
    requires e <= 63 && TWO52 <= m <= 2 * TWO52
    ensures var bits := (e + 1022) * TWO52 + m;
      bits < TWO63 && if m < 2 * TWO52 then bits / TWO52 == e + 1023 && bits % TWO52 == m - TWO52
                      else bits / TWO52 == e + 1024 && bits % TWO52 == 0
  {
  }

  /** The double made from an integer of up to 53 bits stands for that integer. */
  lemma NatToDoubleExact(n: nat)
    requires n < 2 * TWO52
    ensures NatToDouble(n) < TWO63 && DoubleValue(NatToDouble(n)) == n as real
  {
    if n == 0 {
      ZeroPattern();
    } else {
      var e, m := PositivePattern(n);
      hide NatToDouble, Scale, DoubleValue;
      PatternValue(e, m);
    }
  }

  lemma PositivePattern(n: nat) returns (e: nat, m: nat)
    requires 0 < n < 2 * TWO52
    ensures e <= 52 && TWO52 <= m < 2 * TWO52 && NatToDouble(n) == (e + 1022) * TWO52 + m
    ensures m as real * Scale(e - 52) == n as real
  {
    hide NatToDouble, Log2, Pow2, Scale;
    NatPattern(n);
    MantissaBounds(n);
    e := Log2(n);
    ScaleBack(n, 52 - e);
    m := n * Pow2(52 - e);
  }

  lemma ZeroPattern()
    ensures NatToDouble(0) == 0 && DoubleValue(0) == 0.0
  {
    hide Scale;
  }

  lemma PatternValue(e: nat, m: nat)
    requires e <= 63 && TWO52 <= m <= 2 * TWO52
    ensures var bits := (e + 1022) * TWO52 + m; bits < TWO63 && DoubleValue(bits) == m as real * Scale(e - 52)
  {
    Fields(e, m);
    if m == 2 * TWO52 { ScaleStep(e - 52); }
    hide Scale;
  }

  lemma ScaleBack(n: nat, k: int)
    requires k >= 0
    ensures (n * Pow2(k)) as real * Scale(-k) == n as real
  {
    assert Scale(-k) == 1.0 / Pow2(k) as real by { assert Pow2(0) == 1; }
    hide Pow2, Scale;
    Unscale(n, Pow2(k));
  }

  lemma Unscale(n: nat, p: nat)
    requires p > 0
    ensures (n * p) as real * (1.0 / p as real) == n as real
  {
    var x, y := n as real, p as real;
    assert (n * p) as real == x * y;
    assert y * (1.0 / y) == 1.0;
    assert x * y * (1.0 / y) == x * (y * (1.0 / y));
  }

  /** A longer integer is rounded to the nearest multiple q of the unit that leaves 53 bits, and to an even one from the
      middle between two. */
  lemma NatToDoubleNearest(n: nat) returns (k: nat, q: nat)
    requires 2 * TWO52 <= n < TWO64
    ensures Pow2(k + 52) <= n < Pow2(k + 53) && TWO52 <= q <= 2 * TWO52
    ensures NatToDouble(n) < TWO63 && DoubleValue(NatToDouble(n)) == (q * Pow2(k)) as real
    ensures var error := if q * Pow2(k) >= n then q * Pow2(k) - n else n - q * Pow2(k);
      2 * error <= Pow2(k) && (2 * error == Pow2(k) ==> q % 2 == 0)
  {
    hide *;
    var e := LongExponent(n);
    k := e - 52;
    var unit := Pow2(k);
    q := Rounded(n, unit);
    Powers(k);
    Quotient(n, k);
    RoundedNear(n, unit);
    LongValue(n, e);
  }

  lemma LongValue(n: nat, e: nat)
    requires n > 0 && e == Log2(n) && 53 <= e <= 63 && TWO52 <= Rounded(n, Pow2(e - 52)) <= 2 * TWO52
    ensures NatToDouble(n) < TWO63 && DoubleValue(NatToDouble(n)) == (Rounded(n, Pow2(e - 52)) * Pow2(e - 52)) as real
  {
    hide *;
    LongPattern(n, e);
    PatternValue(e, Rounded(n, Pow2(e - 52)));
    Powers(e - 52);
    RealProduct(Rounded(n, Pow2(e - 52)), Pow2(e - 52));
  }

  lemma RealProduct(a: int, b: int)
    ensures (a * b) as real == a as real * b as real
  {
  }

  lemma Powers(k: nat)
    ensures Pow2(k + 53) == 2 * Pow2(k + 52) && Scale(k) == Pow2(k) as real
  {
  }

  function Rounded(n: nat, unit: nat): nat
    requires unit > 0
  {
    var q, r := n / unit, n % unit;
    if 2 * r > unit || (2 * r == unit && q % 2 == 1) then q + 1 else q
  }

  lemma RoundedNear(n: nat, unit: nat)
    requires unit > 0
    ensures var x := Rounded(n, unit) * unit;
      var error := if x >= n then x - n else n - x;
      2 * error <= unit && (2 * error == unit ==> Rounded(n, unit) % 2 == 0)
  {
    var q, r := n / unit, n % unit;
    assert n == q * unit + r;
    assert (q + 1) * unit == q * unit + unit;
  }

  lemma LongPattern(n: nat, e: nat)
    requires n > 0 && e == Log2(n) && e > 52
    ensures NatToDouble(n) == (e + 1022) * TWO52 + Rounded(n, Pow2(e - 52))
  {
    hide Log2, Pow2;
  }

  lemma LongExponent(n: nat) returns (e: nat)
    requires 2 * TWO52 <= n < TWO64
    ensures e == Log2(n) && 53 <= e <= 63 && Pow2(e) <= n < 2 * Pow2(e)
  {
    e := Log2(n);
    Log2Bounds(n);
    Pow52();
    if e < 53 { Pow2Order(e, 52); }
    Pow64();
    if e > 63 { Pow2Order(64, e); }
  }

  lemma Pow64()
    ensures Pow2(64) == TWO64
  {
    Pow52();
    assert Pow2(6) == 64;
    hide Pow2;
    Pow2Adds(6, 6);
    Pow2Adds(52, 12);
  }

  lemma Quotient(n: nat, k: nat)
    requires Pow2(k + 52) <= n < 2 * Pow2(k + 52)
    ensures TWO52 <= Rounded(n, Pow2(k)) <= 2 * TWO52
  {
    Pow2Adds(k, 52);
    Pow52();
    var p := Pow2(k);
    hide Pow2;
    var q, r := n / p, n % p;
    assert n == p * q + r && (Rounded(n, p) == q || (Rounded(n, p) == q + 1 && r > 0));
    hide *;
    if q < TWO52 { Gap(p, TWO52, q); } else if q >= 2 * TWO52 { Gap(p, q + 1, 2 * TWO52); }
  }

  /** Below 2^53, operator== between an integer and the double made from another one says whether they are the same. */
  lemma IntegersAsDoubles(i: int64, k: int64)
    requires -2 * TWO52 < i < 2 * TWO52 && -2 * TWO52 < k < 2 * TWO52
    ensures 0 <= IntToDouble(k) < TWO64 && DoubleValue(IntToDouble(k)) == k as real
    ensures JsonEq(Integer(i), Float(IntToDouble(k))) <==> i == k
    ensures i >= 0 ==> (JsonEq(Unsigned(i), Float(IntToDouble(k))) <==> i == k)
  {
    IntPattern(i);
    IntPattern(k);
    SameNumber(IntToDouble(i), IntToDouble(k));
    hide DoubleEq, IntToDouble, DoubleValue, IsNaN;
  }

  lemma IntPattern(i: int)
    requires -2 * TWO52 < i < 2 * TWO52
    ensures var b := IntToDouble(i); 0 <= b < TWO64 && DoubleValue(b) == i as real && !IsNaN(b)
  {
    var n := if i < 0 then -i else i;
    assert IntToDouble(i) == if i < 0 then TWO63 + NatToDouble(n) else NatToDouble(n);
    hide *;
    NatToDoubleExact(n);
    SignBit(NatToDouble(n));
    NotNaN(n);
  }

  lemma SignBit(b: nat)
    requires b < TWO63
    ensures DoubleValue(TWO63 + b) == -DoubleValue(b) && IsNaN(TWO63 + b) == IsNaN(b)
  {
    assert (TWO63 + b) % TWO63 == b && TWO63 + b < TWO64;
    hide *;
    Patterns(b);
    Patterns(TWO63 + b);
    Signed(b);
    Signed(TWO63 + b);
  }

  lemma NotNaN(n: nat)
    requires n < 2 * TWO52
    ensures !IsNaN(NatToDouble(n))
  {
    if n > 0 {
      NatPattern(n);
      MantissaBounds(n);
      Fields(Log2(n), n * Pow2(52 - Log2(n)));
      hide NatToDouble, Log2, Pow2;
    }
  }
}
