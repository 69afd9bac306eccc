/** Bars, ticks and the indicators computed from them. Prices are real numbers. */
module Market {
  import opened Numbers
  import opened Options

  /** An indicator's columns; a column that is not set yet is None. */
  type Columns = map<string, Option<real>>

  datatype Ticker = Ticker(bid: real, ask: real)

  /** OHLC: the bar and, per strategy and indicator name, the indicator's columns. */
  datatype Bar = Bar(timestamp: int, open: real, high: real, low: real, close: real, volume: real,
                     indis: map<string, map<string, Columns>>)

  datatype Indicator =
    | MovingAverage(name: string, period: nat)
    | BollingerBands(name: string, period: nat, sd: real)

  predicate WellPosed(i: Indicator) { if i.MovingAverage? then i.period >= 1 else i.period >= 2 }

  function Closes(bars: seq<Bar>): (xs: seq<real>)
    ensures |xs| == |bars|
  {
    seq(|bars|, i requires 0 <= i < |bars| => bars[i].close)
  }

  function Mean(xs: seq<real>): real
    requires xs != []
  {
    Sum(xs) / |xs| as real
  }

  // ------------------------------------------------------ moving average

  /** std::accumulate whose initial value is the int 0: the running sum is cut to an int after every addition.
      None where a partial sum leaves the int range, which is undefined. */
  function IntSum(xs: seq<real>): Option<int> {
    if xs == [] then Some(0)
    else
      match IntSum(xs[..|xs| - 1])
      case None => None
      case Some(acc) =>
        var next := Trunc(acc as real + xs[|xs| - 1]);
        if -INT_MAX - 1 <= next <= INT_MAX then Some(next) else None
  }

  /** MovingAverage::calculate's value over the closes of one period. */
  function Average(xs: seq<real>): Option<real>
    requires xs != []
  {
    match IntSum(xs)
    case None => None
    case Some(s) => Some(s as real / |xs| as real)
  }

  method AccumulateInt(xs: seq<real>) returns (r: Option<int>)
    ensures r == IntSum(xs)
  {
    var acc := 0;
    for i := 0 to |xs|
      invariant IntSum(xs[..i]) == Some(acc)
    {
      assert xs[..i + 1][..i] == xs[..i];
      var next := Trunc(acc as real + xs[i]);
      if !(-INT_MAX - 1 <= next <= INT_MAX) {
        NoneStays(xs, i + 1);
        return None;
      }
      acc := next;
    }
    assert xs[..|xs|] == xs;
    r := Some(acc);
  }

  lemma {:induction false} NoneStays(xs: seq<real>, k: nat)
    requires k <= |xs| && IntSum(xs[..k]).None?
    ensures IntSum(xs).None?
    decreases |xs| - k
  {
    if k == |xs| {
      assert xs[..k] == xs;
    } else {
      assert xs[..k + 1][..k] == xs[..k];
      NoneStays(xs, k + 1);
    }
  }

  lemma TruncBounds(x: real)
    ensures x - 1.0 < Trunc(x) as real < x + 1.0
    ensures x >= 0.0 ==> 0 <= Trunc(x) && Trunc(x) as real <= x
  {
  }

  /** Every addition loses less than one. */
  lemma {:induction false} IntSumError(xs: seq<real>)
    requires xs != [] && IntSum(xs).Some?
    ensures Sum(xs) - |xs| as real < IntSum(xs).value as real < Sum(xs) + |xs| as real
  {
    var ys, x := xs[..|xs| - 1], xs[|xs| - 1];
    if ys != [] { IntSumError(ys); }
    TruncBounds(IntSum(ys).value as real + x);
  }

  /** The sum of the closes with the fraction of each cut off. */
  function FloorSum(xs: seq<real>): int {
    if xs == [] then 0 else FloorSum(xs[..|xs| - 1]) + xs[|xs| - 1].Floor
  }

  predicate NonNegative(xs: seq<real>) { forall x | x in xs :: x >= 0.0 }

  predicate Integral(xs: seq<real>) { forall x | x in xs :: x == x.Floor as real }

  /** On integral closes of any sign nothing is cut off: the sum is exact, and defined exactly when no partial sum leaves the
      range of a 32-bit int. */
  lemma {:induction false} IntSumIntegral(xs: seq<real>)
    requires Integral(xs)
    ensures FloorSum(xs) as real == Sum(xs)
    ensures IntSum(xs) == if PartialSumsFit(xs) then Some(FloorSum(xs)) else None
  {
    if xs == [] {
      assert FloorSum([]) == 0;
    } else {
      var ys, x := xs[..|xs| - 1], xs[|xs| - 1];
      assert x in xs && forall y | y in ys :: y in xs;
      IntSumIntegral(ys);
      assert IntSum(ys).Some? ==> Trunc(FloorSum(ys) as real + x) == FloorSum(ys) + x.Floor;
      hide Sum, Trunc;
    }
  }

  /** Every sum of some first closes is in the range of an int. */
  predicate PartialSumsFit(xs: seq<real>) {
    -0x8000_0000 <= FloorSum(xs) < 0x8000_0000 && (xs == [] || PartialSumsFit(xs[..|xs| - 1]))
  }

  /** On non-negative closes the accumulated int is exactly the sum of the floors, as long as that is an int. */
  lemma {:induction false} IntSumExact(xs: seq<real>)
    requires NonNegative(xs)
    ensures IntSum(xs) == (if FloorSum(xs) <= INT_MAX then Some(FloorSum(xs)) else None) && FloorSum(xs) >= 0
  {
    if xs != [] {
      var ys, x := xs[..|xs| - 1], xs[|xs| - 1];
      assert x in xs && x >= 0.0 && forall y | y in ys :: y in xs;
      IntSumExact(ys);
      if FloorSum(ys) <= INT_MAX { assert (FloorSum(ys) as real + x).Floor == FloorSum(ys) + x.Floor; }
    }
  }

  /** The floors sum up to at most the sum, and to the sum exactly when there is no fraction. */
  lemma {:induction false} FloorSumBelow(xs: seq<real>)
    ensures FloorSum(xs) as real <= Sum(xs)
    ensures FloorSum(xs) as real == Sum(xs) <==> Integral(xs)
  {
    if xs != [] {
      var ys, x := xs[..|xs| - 1], xs[|xs| - 1];
      FloorSumBelow(ys);
      assert xs == ys + [x];
      assert Integral(xs) <==> Integral(ys) && x == x.Floor as real;
    }
  }

  /** The average set on non-negative closes, exactly: the sum of the floors over the period, undefined where that sum
      is no int. It is the mean if and only if every close is integral. */
  lemma {:induction false} AverageExact(xs: seq<real>)
    requires xs != [] && NonNegative(xs)
    ensures Average(xs) == if FloorSum(xs) <= INT_MAX then Some(FloorSum(xs) as real / |xs| as real) else None
    ensures Average(xs) == Some(Mean(xs)) <==> FloorSum(xs) <= INT_MAX && Integral(xs)
  {
    IntSumExact(xs);
    FloorSumBelow(xs);
    var n, s, t := |xs| as real, Sum(xs), FloorSum(xs) as real;
    DivideOrder(t, s, n);
    hide Integral, FloorSum, Sum;
  }

  /** The average of the one close 0.5 is 0. */
  lemma HalfAveragesToZero()
    ensures Average([0.5]) == Some(0.0) && Mean([0.5]) == 0.5
  {
    assert [0.5][..0] == [];
    assert FloorSum([0.5]) == 0 && Sum([0.5]) == 0.5;
    AverageExact([0.5]);
  }

  /** So for non-negative closes in int range the average set is in (mean - 1, mean]. */
  lemma {:induction false} AverageBounds(xs: seq<real>)
    requires xs != [] && NonNegative(xs) && FloorSum(xs) <= INT_MAX
    ensures Average(xs).Some? && Mean(xs) - 1.0 < Average(xs).value <= Mean(xs)
  {
    AverageExact(xs);
    IntSumExact(xs);
    IntSumError(xs);
    FloorSumBelow(xs);
    var n, s, t := |xs| as real, Sum(xs), IntSum(xs).value as real;
    DivideOrder(s - n, t, n);
    DivideOrder(t, s, n);
    OneLess(s, n);
  }

  lemma OneLess(s: real, n: real)
    requires n > 0.0
    ensures (s - n) / n == s / n - 1.0
  {
    Cancel(n, (s - n) / n, s / n - 1.0);
  }

  lemma Cancel(n: real, a: real, b: real)
    requires n != 0.0 && n * a == n * b
    ensures a == b
  {
    assert n * (a - b) == 0.0;
  }

  lemma DivideOrder(a: real, b: real, n: real)
    requires n > 0.0
    ensures a < b ==> a / n < b / n
    ensures a <= b ==> a / n <= b / n
  {
  }

  // ------------------------------------------------------------- Welford

  function Square(x: real): (s: real)
    ensures s >= 0.0
  {
    x * x
  }

  function SquareSum(xs: seq<real>): real {
    if xs == [] then 0.0 else SquareSum(xs[..|xs| - 1]) + Square(xs[|xs| - 1])
  }

  /** The second pass of the two-pass definition: squared deviations from c. */
  function Deviations(xs: seq<real>, c: real): (d: real)
    ensures d >= 0.0
  {
    if xs == [] then 0.0 else Deviations(xs[..|xs| - 1], c) + Square(xs[|xs| - 1] - c)
  }

  /** The sample variance of the two-pass definition. */
  function Variance(xs: seq<real>): real
    requires |xs| >= 2
  {
    Deviations(xs, Mean(xs)) / (|xs| - 1) as real
  }

  /** Squared deviations from c by the sum q of squares, the sum s and the count n. */
  function Quadratic(q: real, s: real, n: real, c: real): real { q - 2.0 * c * s + n * c * c }

  lemma Expand(q: real, s: real, n: real, x: real, c: real)
    ensures Quadratic(q, s, n, c) + Square(x - c) == Quadratic(q + Square(x), s + x, n + 1.0, c)
  {
    assert (x - c) * (x - c) == x * x - 2.0 * c * x + c * c;
    assert (n + 1.0) * c * c == n * c * c + c * c;
    assert 2.0 * c * (s + x) == 2.0 * c * s + 2.0 * c * x;
  }

  lemma {:induction false} DeviationsExpanded(xs: seq<real>, c: real)
    ensures Deviations(xs, c) == Quadratic(SquareSum(xs), Sum(xs), |xs| as real, c)
  {
    hide Quadratic, Square;
    if xs != [] {
      var ys, x := xs[..|xs| - 1], xs[|xs| - 1];
      DeviationsExpanded(ys, c);
      Expand(SquareSum(ys), Sum(ys), |ys| as real, x, c);
      assert |xs| as real == |ys| as real + 1.0;
    } else {
      EmptyQuadratic(c);
    }
  }

  lemma EmptyQuadratic(c: real)
    ensures Quadratic(0.0, 0.0, 0.0, c) == 0.0
  {
  }

  /** The update of M2: k values of mean m, one more value x, new mean p. */
  lemma UpdateIdentity(k: real, m: real, x: real, p: real)
    requires (k + 1.0) * p == k * m + x
    ensures x * x - (k + 1.0) * p * p == -k * m * m + (x - m) * (x - p)
  {
    assert (k + 1.0) * p * p == (k * m + x) * p == k * m * p + x * p;
    assert (x - m) * (x - p) == x * x - x * p - m * x + m * p;
    assert m * ((k + 1.0) * p) == m * (k * m + x);
    assert m * ((k + 1.0) * p) == k * m * p + m * p;
    assert m * (k * m + x) == k * m * m + m * x;
  }

  lemma AtMean(q: real, s: real, n: real, m: real)
    requires s == n * m
    ensures q - 2.0 * m * s + n * m * m == q - n * m * m
  {
    assert m * s == n * m * m;
  }

  /** n values of that mean in total. */
  function Total(n: real, mean: real): real { n * mean }

  /** What one value adds to M2, from the means before and after. */
  function Gain(x: real, m: real, p: real): real { (x - m) * (x - p) }

  lemma WelfordAlgebra(k: real, q: real, t: real, x: real, m: real, p: real)
    requires t == Total(k, m) && Total(k + 1.0, p) == Total(k, m) + x
    ensures Quadratic(q + Square(x), t + x, k + 1.0, p) == Quadratic(q, t, k, m) + Gain(x, m, p)
  {
    AtMean(q, t, k, m);
    AtMean(q + x * x, t + x, k + 1.0, p);
    UpdateIdentity(k, m, x, p);
  }

  /** One turn of the loop keeps M2 equal to the squared deviations from the running mean. */
  lemma WelfordStep(xs: seq<real>, x: real, m: real, p: real)
    requires Sum(xs) == Total(|xs| as real, m) && Total(|xs| as real + 1.0, p) == Total(|xs| as real, m) + x
    ensures Deviations(xs + [x], p) == Deviations(xs, m) + Gain(x, m, p)
  {
    hide Quadratic, Total, Gain, Square;
    var zs, k, q, t := xs + [x], |xs| as real, SquareSum(xs), Sum(xs);
    assert zs[..|zs| - 1] == xs;
    assert SquareSum(zs) == q + Square(x) && Sum(zs) == t + x;
    hide Deviations, SquareSum, Sum;
    DeviationsExpanded(zs, p);
    DeviationsExpanded(xs, m);
    assert |zs| as real == k + 1.0;
    WelfordAlgebra(k, q, t, x, m, p);
  }

  /** The running mean after one value more. */
  function Advance(k: real, m: real, x: real): real
    requires k >= 0.0
  {
    m + (x - m) / (k + 1.0)
  }

  lemma NextMean(k: real, m: real, x: real)
    requires k >= 0.0
    ensures Total(k + 1.0, Advance(k, m, x)) == Total(k, m) + x
  {
    var d := (x - m) / (k + 1.0);
    assert (k + 1.0) * d == x - m;
    assert (k + 1.0) * (m + d) == (k + 1.0) * m + (k + 1.0) * d;
  }

  /** What the loop variables hold after the values xs. */
  ghost predicate Running(xs: seq<real>, mean: real, m2: real) {
    Sum(xs) == Total(|xs| as real, mean) && m2 == Deviations(xs, mean)
  }

  lemma WelfordTurn(ys: seq<real>, x: real, m: real, m2: real)
    requires Running(ys, m, m2)
    ensures var p := Advance(|ys| as real, m, x); Running(ys + [x], p, m2 + Gain(x, m, p))
  {
    hide Total, Gain;
    assert (ys + [x])[..|ys|] == ys;
    assert Sum(ys + [x]) == Sum(ys) + x && |ys + [x]| as real == |ys| as real + 1.0;
    NextMean(|ys| as real, m, x);
    hide Deviations, Sum, Advance;
    WelfordStep(ys, x, m, Advance(|ys| as real, m, x));
  }

  lemma WelfordEnd(xs: seq<real>, mean: real, m2: real)
    requires |xs| >= 2 && Running(xs, mean, m2)
    ensures mean == Mean(xs) && m2 / (|xs| - 1) as real == Variance(xs) >= 0.0
  {
    MeanFromSum(Sum(xs), |xs| as real, mean);
    hide Deviations, Sum;
    DivideOrder(0.0, m2, (|xs| - 1) as real);
  }

  lemma MeanFromSum(s: real, n: real, m: real)
    requires n > 0.0 && s == n * m
    ensures s / n == m
  {
  }

  /** welfords_algorithm: one pass gives the mean and the sample variance of the two-pass definition. */
  method Welford(xs: seq<real>) returns (mean: real, variance: real)
    requires |xs| >= 2
    ensures mean == Mean(xs) && variance == Variance(xs) && variance >= 0.0
  {
    mean := 0.0;
    var n := 0;
    var m2 := 0.0;
    assert Running(xs[..0], mean, m2);
    hide Running;
    for i := 0 to |xs|
      invariant n == i && Running(xs[..i], mean, m2)
    {
      ghost var was := mean;
      n := n + 1;
      var delta := xs[i] - mean;
      WelfordTurn(xs[..i], xs[i], mean, m2);
      assert xs[..i] + [xs[i]] == xs[..i + 1] && n as real == i as real + 1.0;
      mean := mean + delta / n as real;
      assert delta * (xs[i] - mean) == Gain(xs[i], was, mean);
      m2 := m2 + delta * (xs[i] - mean);
    }
    assert xs[..|xs|] == xs;
    WelfordEnd(xs, mean, m2);
    variance := m2 / (n - 1) as real;
  }

  // ------------------------------------------------------ Bollinger bands

  datatype Bands = Bands(mavg: real, up: real, dn: real, bw: real)

  /** The four columns from the mean and the root of the variance. */
  function BandsOf(xs: seq<real>, sd: real, root: real -> real): Bands
    requires |xs| >= 2
  {
    var m, s := Mean(xs), root(Variance(xs));
    Bands(m, m + s * sd, m - s * sd, 2.0 * s * sd)
  }

  /** root gives the square root of v. */
  predicate IsRoot(root: real -> real, v: real) { root(v) >= 0.0 && root(v) * root(v) == v }

  /** The bands enclose the mean symmetrically; their squared half width is sd^2 times the variance. */
  lemma BandsOrdered(xs: seq<real>, sd: real, root: real -> real)
    requires |xs| >= 2 && sd >= 0.0 && IsRoot(root, Variance(xs))
    ensures var b := BandsOf(xs, sd, root);
      b.dn <= b.mavg <= b.up && b.bw == b.up - b.dn
      && (b.up - b.mavg) * (b.up - b.mavg) == sd * sd * Variance(xs)
  {
    var v := Variance(xs);
    var s := root(v);
    assert s * sd >= 0.0;
    assert (s * sd) * (s * sd) == (s * s) * (sd * sd) == sd * sd * v;
    hide Variance, Mean;
  }

  // ------------------------------------------------------------ calculate

  function Last(xs: seq<real>, n: nat): (r: seq<real>)
    requires n <= |xs|
    ensures |r| == n
  {
    xs[|xs| - n..]
  }

  /** Indicator::calculate over the closes of the bars in the buffer. */
  function Calculate(i: Indicator, xs: seq<real>, root: real -> real): Columns
    requires WellPosed(i)
  {
    match i
    case MovingAverage(_, p) => map["mavg" := if p <= |xs| then Average(Last(xs, p)) else None]
    case BollingerBands(_, p, sd) =>
      if p <= |xs| then
        var b := BandsOf(Last(xs, p), sd, root);
        map["mavg" := Some(b.mavg), "up" := Some(b.up), "dn" := Some(b.dn), "bw" := Some(b.bw)]
      else map["mavg" := None, "up" := None, "dn" := None, "bw" := None]
  }

  method CalculateColumns(i: Indicator, bars: seq<Bar>, root: real -> real) returns (values: Columns)
    requires WellPosed(i)
    ensures values == Calculate(i, Closes(bars), root)
  {
    var xs := Closes(bars);
    hide IntSum, Mean, Variance, Last, Closes;
    match i
    case MovingAverage(_, p) =>
      var mavg: Option<real> := None;
      if p <= |bars| {
        var sum := AccumulateInt(Last(xs, p));
        if sum.Some? { mavg := Some(sum.value as real / p as real); }
      }
      values := map["mavg" := mavg];
    case BollingerBands(_, p, sd) =>
      var mavg: Option<real>, up: Option<real>, dn: Option<real>, bw: Option<real> := None, None, None, None;
      if p <= |bars| {
        ghost var b := BandsOf(Last(xs, p), sd, root);
        var mean, variance := Welford(Last(xs, p));
        var std := root(variance);
        mavg, up, dn, bw := Some(mean), Some(mean + std * sd), Some(mean - std * sd), Some(2.0 * std * sd);
        assert mavg == Some(b.mavg) && up == Some(b.up) && dn == Some(b.dn) && bw == Some(b.bw);
      }
      values := map["mavg" := mavg, "up" := up, "dn" := dn, "bw" := bw];
  }

  /** The closes of a period are the last ones. */
  lemma LastIsEnd(xs: seq<real>, ys: seq<real>)
    ensures Last(xs + ys, |ys|) == ys
  {
  }

  /** The columns of Bollinger bands: all four set exactly from the period on, and then around the mean of the period's closes,
      up above and dn below. */
  lemma BandsColumns(i: Indicator, xs: seq<real>, root: real -> real)
    requires i.BollingerBands? && i.period >= 2 && i.sd >= 0.0
    requires i.period <= |xs| ==> IsRoot(root, Variance(Last(xs, i.period)))
    ensures var c := Calculate(i, xs, root);
      && c.Keys == {"mavg", "up", "dn", "bw"}
      && (forall k | k in c :: c[k].Some? <==> i.period <= |xs|)
      && (i.period <= |xs| ==>
            var last := Last(xs, i.period);
            && c["mavg"].value == Mean(last) && c["dn"].value <= Mean(last) <= c["up"].value
            && c["up"].value - Mean(last) == Mean(last) - c["dn"].value && c["bw"].value == c["up"].value - c["dn"].value
            && (c["up"].value - Mean(last)) * (c["up"].value - Mean(last)) == i.sd * i.sd * Variance(last))
  {
    if i.period <= |xs| { BandsOrdered(Last(xs, i.period), i.sd, root); }
    hide Mean, Variance, Last;
  }

  /** The column of a moving average, from a period of 1 on: set exactly when the period is there and its sum fits an int. */
  lemma AverageColumns(i: Indicator, xs: seq<real>, root: real -> real)
    requires i.MovingAverage? && i.period >= 1
    ensures var c := Calculate(i, xs, root);
      c.Keys == {"mavg"} && c["mavg"] == if i.period <= |xs| then Average(Last(xs, i.period)) else None
    ensures i.period <= |xs| && NonNegative(Last(xs, i.period)) ==>
      var sum := FloorSum(Last(xs, i.period));
      Calculate(i, xs, root)["mavg"] == if sum < 0x8000_0000 then Some(sum as real / i.period as real) else None
  {
    if i.period <= |xs| && NonNegative(Last(xs, i.period)) { IntSumExact(Last(xs, i.period)); }
    hide FloorSum, IntSum, Last;
  }

  /** The closes 0, 2 and 4 under two deviations: mean 2, variance 4, bands at -2 and 6. */
  lemma BandsExample(root: real -> real)
    requires root(4.0) == 2.0
    ensures IsRoot(root, 4.0) && Variance([0.0, 2.0, 4.0]) == 4.0
    ensures Calculate(BollingerBands("bbands", 3, 2.0), [9.0, 0.0, 2.0, 4.0], root)
      == map["mavg" := Some(2.0), "up" := Some(6.0), "dn" := Some(-2.0), "bw" := Some(8.0)]
  {
    var xs := [0.0, 2.0, 4.0];
    assert xs[..2] == [0.0, 2.0] && [0.0, 2.0][..1] == [0.0] && [0.0][..0] == [];
    assert Sum([0.0]) == 0.0 && Sum([0.0, 2.0]) == 2.0 && Sum(xs) == 6.0;
    assert Deviations([0.0], 2.0) == 4.0 && Deviations([0.0, 2.0], 2.0) == 4.0 && Deviations(xs, 2.0) == 8.0;
    LastIsEnd([9.0], xs);
    assert [9.0] + xs == [9.0, 0.0, 2.0, 4.0];
  }

  /** The closes 1 and 3: mean 2, sample variance 2. */
  lemma VarianceExample()
    ensures Mean([1.0, 3.0]) == 2.0 && Variance([1.0, 3.0]) == 2.0
  {
    assert [1.0, 3.0][..1] == [1.0] && [1.0][..0] == [];
    assert Sum([1.0]) == 1.0 && Deviations([1.0], 2.0) == 1.0;
  }
}
