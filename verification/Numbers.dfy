/** Machine bounds, powers, and the conversions between reals and integers that several components share. */
module Numbers {
  const INT_MAX: int := 0x7fff_ffff
  const TWO32: nat := 0x1_0000_0000
  const TWO63: nat := 0x8000_0000_0000_0000
  const TWO64: nat := 0x1_0000_0000_0000_0000

  function Pow2(e: nat): (p: nat)
    ensures p > 0
  {
    if e == 0 then 1 else 2 * Pow2(e - 1)
  }

  function Pow256(n: nat): (p: int)
    ensures p > 0
  {
    if n == 0 then 1 else 256 * Pow256(n - 1)
  }

  /** static_cast<int> on a double: toward zero. */
  function Trunc(x: real): int { if x >= 0.0 then x.Floor else -(-x).Floor }

  function Sum(xs: seq<real>): real {
    if xs == [] then 0.0 else Sum(xs[..|xs| - 1]) + xs[|xs| - 1]
  }

  lemma AtLeastOne(m: int, k: int)
    requires m > 0 && k >= 1
    ensures m * k >= m
  {
  }

  lemma Gap(m: int, a: int, b: int)
    requires m > 0 && a > b
    ensures m * a >= m * b + m
  {
    AtLeastOne(m, a - b);
    assert m * (a - b) == m * a - m * b;
  }

  lemma ModUnique(x: int, m: int, a: int, r: int)
    requires m > 0 && x == m * a + r && 0 <= r < m
    ensures x % m == r && x / m == a
  {
    var b, s := x / m, x % m;
    assert x == m * b + s;
    if a > b { Gap(m, a, b); } else if b > a { Gap(m, b, a); }
  }
}
