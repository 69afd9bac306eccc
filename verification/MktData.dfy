/** The bar window: deduplicated, contiguous, bounded by the buffer's capacity, with indicators on every accepted bar. */
module MktData {
  import opened Market
  import opened Numbers
  import opened Options

  /** A strategy's name and its indicators. */
  datatype StrategySpec = StrategySpec(name: string, indicators: seq<Indicator>)

  predicate WellPosedAll(ss: seq<StrategySpec>) {
    forall s | s in ss :: forall i | i in s.indicators :: WellPosed(i)
  }

  type Indis = map<string, map<string, Columns>>

  /** indis[strategy][indicator] = columns. */
  function Put(m: Indis, strategy: string, indicator: string, c: Columns): Indis {
    m[strategy := (if strategy in m then m[strategy] else map[])[indicator := c]]
  }

  function PutAll(m: Indis, name: string, inds: seq<Indicator>, xs: seq<real>, root: real -> real): Indis
    requires forall i | i in inds :: WellPosed(i)
  {
    if inds == [] then m
    else
      var rest := inds[..|inds| - 1];
      assert forall i | i in rest :: i in inds;
      Put(PutAll(m, name, rest, xs, root), name, inds[|inds| - 1].name, Calculate(inds[|inds| - 1], xs, root))
  }

  function Annotations(m: Indis, ss: seq<StrategySpec>, xs: seq<real>, root: real -> real): Indis
    requires WellPosedAll(ss)
  {
    if ss == [] then m
    else
      var rest, s := ss[..|ss| - 1], ss[|ss| - 1];
      assert forall i | i in rest :: i in ss;
      assert s in ss;
      PutAll(Annotations(m, rest, xs, root), s.name, s.indicators, xs, root)
  }

  // ------------------------------------------------------- the window

  /** The last n entries, or all of them. */
  function LastOf<T>(s: seq<T>, n: nat): (r: seq<T>)
    ensures |r| == if |s| <= n then |s| else n
  {
    if |s| <= n then s else s[|s| - n..]
  }

  /** circular_buffer::push_back: a full buffer drops its front. */
  function PushBack<T>(s: seq<T>, x: T, capacity: nat): seq<T> { LastOf(s + [x], capacity) }

  predicate Known(bars: seq<Bar>, timestamp: int) { exists k | 0 <= k < |bars| :: bars[k].timestamp == timestamp }

  datatype Data = Data(period: int, capacity: nat, strategies: seq<StrategySpec>, root: real -> real)

  predicate Sound(d: Data) { d.capacity > 0 && WellPosedAll(d.strategies) }

  function Annotate(d: Data, window: seq<Bar>, b: Bar): Bar
    requires Sound(d)
  {
    b.(indis := Annotations(b.indis, d.strategies, Closes(window), d.root))
  }

  /** The contiguous run after an offered bar: an already known time is ignored, a gap starts a new run. */
  function RunStep(d: Data, run: seq<Bar>, b: Bar): seq<Bar>
    requires Sound(d)
  {
    if Known(LastOf(run, d.capacity), b.timestamp) then run
    else
      var kept := if run != [] && b.timestamp != run[|run| - 1].timestamp + d.period then [] else run;
      kept + [Annotate(d, PushBack(LastOf(kept, d.capacity), b, d.capacity), b)]
  }

  /** The run after all offered bars. */
  function RunOf(d: Data, offered: seq<Bar>): seq<Bar>
    requires Sound(d)
  {
    if offered == [] then [] else RunStep(d, RunOf(d, offered[..|offered| - 1]), offered[|offered| - 1])
  }

  predicate Follows(bars: seq<Bar>, period: int, k: nat)
    requires k + 1 < |bars|
  {
    bars[k + 1].timestamp == bars[k].timestamp + period
  }

  predicate Spaced(bars: seq<Bar>, period: int) {
    forall k | 0 <= k && k + 1 < |bars| :: Follows(bars, period, k)
  }

  lemma PushSpaced(kept: seq<Bar>, x: Bar, period: int)
    requires Spaced(kept, period) && (kept != [] ==> x.timestamp == kept[|kept| - 1].timestamp + period)
    ensures Spaced(kept + [x], period)
  {
    var s := kept + [x];
    forall k | 0 <= k && k + 1 < |s| ensures Follows(s, period, k) {
      if k + 1 < |kept| { assert Follows(kept, period, k); }
    }
  }

  lemma SuffixSpaced(s: seq<Bar>, n: nat, period: int)
    requires Spaced(s, period)
    ensures Spaced(LastOf(s, n), period)
  {
    var t := LastOf(s, n);
    forall k | 0 <= k && k + 1 < |t| ensures Follows(t, period, k) {
      assert Follows(s, period, |s| - |t| + k);
    }
  }

  lemma StepSpaced(d: Data, run: seq<Bar>, b: Bar)
    requires Sound(d) && Spaced(run, d.period)
    ensures Spaced(RunStep(d, run, b), d.period)
  {
    var kept := if run != [] && b.timestamp != run[|run| - 1].timestamp + d.period then [] else run;
    var x := Annotate(d, PushBack(LastOf(kept, d.capacity), b, d.capacity), b);
    assert x.timestamp == b.timestamp;
    hide Annotate, LastOf, Known, PushBack;
    PushSpaced(kept, x, d.period);
    hide Spaced;
  }

  lemma {:induction false} RunSpaced(d: Data, offered: seq<Bar>)
    requires Sound(d)
    ensures Spaced(RunOf(d, offered), d.period)
  {
    if offered != [] {
      RunSpaced(d, offered[..|offered| - 1]);
      StepSpaced(d, RunOf(d, offered[..|offered| - 1]), offered[|offered| - 1]);
      hide RunStep, Spaced;
    }
  }

  lemma LastOfPush<T>(run: seq<T>, x: T, n: nat)
    requires n > 0
    ensures LastOf(run + [x], n) == PushBack(LastOf(run, n), x, n)
    ensures PushBack(run, x, n) != [] && PushBack(run, x, n)[|PushBack(run, x, n)| - 1] == x
  {
  }

  class Window {
    const data: Data
    var bars: seq<Bar>           // the circular buffer
    ghost var offered: seq<Bar>  // every bar passed to Add

    ghost predicate Valid()
      reads this
    {
      Sound(data) && bars == LastOf(RunOf(data, offered), data.capacity)
    }

    constructor (data: Data)
      requires Sound(data)
      ensures Valid() && this.data == data && offered == []
    {
      this.data, bars, offered := data, [], [];
    }

    method Contains(timestamp: int) returns (found: bool)
      ensures found == Known(bars, timestamp)
    {
      found := false;
      for i := 0 to |bars|
        invariant found == exists k | 0 <= k < i :: bars[k].timestamp == timestamp
      {
        if bars[i].timestamp == timestamp { found := true; }
      }
    }

    /** push_back of a new bar and its indicators. */
    method Accept(bar: Bar, ghost kept: seq<Bar>)
      requires Sound(data) && bars == LastOf(kept, data.capacity)
      modifies `bars
      ensures bars == LastOf(kept + [Annotate(data, PushBack(LastOf(kept, data.capacity), bar, data.capacity), bar)], data.capacity)
    {
      LastOfPush(LastOf(kept, data.capacity), bar, data.capacity);
      hide LastOf, PushBack, Annotations;
      bars := PushBack(bars, bar, data.capacity);
      var back := |bars| - 1;
      var indis := WriteIndicators(bars);
      bars := bars[back := bar.(indis := indis)];
      BackWritten(kept, bar, bar.(indis := indis), data.capacity);
    }

    /** MktData::add for a bar, up to the strategies' own apply. */
    method Add(bar: Bar)
      requires Valid()
      modifies this
      ensures Valid() && offered == old(offered) + [bar]
    {
      ghost var run := RunOf(data, offered);
      RunUnfold(data, offered, bar);
      LastKept(run, data.capacity);
      hide RunOf, Annotate, Known, LastOf, PushBack;
      var found := Contains(bar.timestamp);
      if !found {
        if bars != [] && bar.timestamp != bars[|bars| - 1].timestamp + data.period {
          bars := [];
          EmptyWindow(data.capacity);
          Accept(bar, []);
        } else {
          Accept(bar, run);
        }
      }
      offered := offered + [bar];
    }

    /** The loops over strategies and indicators, writing into the last bar. */
    method WriteIndicators(window: seq<Bar>) returns (indis: Indis)
      requires WellPosedAll(data.strategies) && window != []
      ensures indis == Annotations(window[|window| - 1].indis, data.strategies, Closes(window), data.root)
    {
      ghost var first, xs := window[|window| - 1].indis, Closes(window);
      indis := window[|window| - 1].indis;
      var ss := data.strategies;
      for i := 0 to |ss|
        invariant WellPosedAll(ss[..i]) && indis == Annotations(first, ss[..i], xs, data.root)
      {
        var s := ss[i];
        assert s in ss;
        ghost var before := indis;
        for j := 0 to |s.indicators|
          invariant forall x | x in s.indicators[..j] :: WellPosed(x)
          invariant indis == PutAll(before, s.name, s.indicators[..j], xs, data.root)
        {
          var ind := s.indicators[j];
          assert ind in s.indicators;
          var values := CalculateColumns(ind, window, data.root);
          assert s.indicators[..j + 1][..j] == s.indicators[..j];
          indis := Put(indis, s.name, ind.name, values);
        }
        assert s.indicators[..|s.indicators|] == s.indicators;
        assert ss[..i + 1][..i] == ss[..i];
      }
      assert ss[..|ss|] == ss;
    }
  }

  lemma EmptyWindow(n: nat)
    ensures LastOf<Bar>([], n) == []
  {
  }

  lemma LastKept(run: seq<Bar>, n: nat)
    requires n > 0
    ensures (LastOf(run, n) == []) == (run == [])
    ensures run != [] ==> LastOf(run, n)[|LastOf(run, n)| - 1] == run[|run| - 1]
  {
  }

  /** Writing into the last bar of the window is appending the written bar to the run. */
  lemma BackWritten(kept: seq<Bar>, b: Bar, written: Bar, n: nat)
    requires n > 0
    ensures var w := PushBack(LastOf(kept, n), b, n); w != [] && w[|w| - 1 := written] == LastOf(kept + [written], n)
  {
    LastOfPush(kept, b, n);
    LastOfPush(kept, written, n);
  }

  lemma RunUnfold(d: Data, offered: seq<Bar>, b: Bar)
    requires Sound(d)
    ensures RunOf(d, offered + [b]) == RunStep(d, RunOf(d, offered), b)
  {
    assert (offered + [b])[..|offered|] == offered;
  }

  /** After any sequence of offered bars the window is the last min(capacity, run length) accepted bars of the current
      contiguous run, spaced by the period. */
  method AddAll(data: Data, bars: seq<Bar>) returns (w: Window)
    requires Sound(data)
    ensures w.bars == LastOf(RunOf(data, bars), data.capacity)
    ensures |w.bars| == (if |RunOf(data, bars)| <= data.capacity then |RunOf(data, bars)| else data.capacity)
    ensures Spaced(w.bars, data.period)
  {
    hide RunOf, LastOf, Spaced;
    EmptyRun(data);
    w := new Window(data);
    for i := 0 to |bars|
      invariant fresh(w) && w.Valid() && w.data == data && w.offered == bars[..i]
    {
      assert bars[..i + 1] == bars[..i] + [bars[i]];
      w.Add(bars[i]);
    }
    assert bars[..|bars|] == bars;
    RunSpaced(data, bars);
    SuffixSpaced(RunOf(data, bars), data.capacity, data.period);
  }

  lemma EmptyRun(d: Data)
    requires Sound(d)
    ensures RunOf(d, []) == [] == LastOf<Bar>([], d.capacity)
  {
  }

  // ------------------------------------------------------ indicators set

  predicate DistinctNames(ss: seq<StrategySpec>) {
    && (forall i, j | 0 <= i < j < |ss| :: ss[i].name != ss[j].name)
    && (forall s | s in ss :: forall i, j | 0 <= i < j < |s.indicators| :: s.indicators[i].name != s.indicators[j].name)
  }

  function ColumnsAt(m: Indis, strategy: string, indicator: string): Option<Columns> {
    if strategy in m && indicator in m[strategy] then Some(m[strategy][indicator]) else None
  }

  lemma {:induction false} PutAllAt(m: Indis, name: string, inds: seq<Indicator>, xs: seq<real>, root: real -> real, k: nat)
    requires (forall i | i in inds :: WellPosed(i)) && k < |inds|
    requires forall i, j | 0 <= i < j < |inds| :: inds[i].name != inds[j].name
    ensures ColumnsAt(PutAll(m, name, inds, xs, root), name, inds[k].name) == Some(Calculate(inds[k], xs, root))
    decreases |inds|
  {
    var n := |inds| - 1;
    assert inds[k] in inds;
    if k < n {
      assert forall i | i in inds[..n] :: i in inds;
      PutAllAt(m, name, inds[..n], xs, root, k);
      assert inds[..n][k].name != inds[n].name;
    }
  }

  lemma {:induction false} PutAllOther(m: Indis, name: string, inds: seq<Indicator>, xs: seq<real>, root: real -> real, other: string, ind: string)
    requires (forall i | i in inds :: WellPosed(i)) && other != name
    ensures ColumnsAt(PutAll(m, name, inds, xs, root), other, ind) == ColumnsAt(m, other, ind)
    decreases |inds|
  {
    if inds != [] {
      assert forall i | i in inds[..|inds| - 1] :: i in inds;
      PutAllOther(m, name, inds[..|inds| - 1], xs, root, other, ind);
    }
  }

  lemma {:induction false} AnnotationsAt(m: Indis, ss: seq<StrategySpec>, xs: seq<real>, root: real -> real, i: nat, k: nat)
    requires WellPosedAll(ss) && DistinctNames(ss) && i < |ss| && k < |ss[i].indicators|
    ensures ss[i] in ss && ss[i].indicators[k] in ss[i].indicators
    ensures ColumnsAt(Annotations(m, ss, xs, root), ss[i].name, ss[i].indicators[k].name)
      == Some(Calculate(ss[i].indicators[k], xs, root))
    decreases |ss|
  {
    var n, s := |ss| - 1, ss[|ss| - 1];
    assert s in ss && forall x | x in ss[..n] :: x in ss;
    var before := Annotations(m, ss[..n], xs, root);
    if i == n {
      PutAllAt(before, s.name, s.indicators, xs, root, k);
    } else {
      AnnotationsAt(m, ss[..n], xs, root, i, k);
      PutAllOther(before, s.name, s.indicators, xs, root, ss[i].name, ss[i].indicators[k].name);
    }
  }

  /** The columns of an accepted bar are calculated from the window it closes. */
  lemma {:induction false} AcceptedColumns(d: Data, run: seq<Bar>, b: Bar, i: nat, k: nat)
    requires Sound(d) && DistinctNames(d.strategies) && i < |d.strategies| && k < |d.strategies[i].indicators|
    requires !Known(LastOf(run, d.capacity), b.timestamp)
    ensures d.strategies[i] in d.strategies && d.strategies[i].indicators[k] in d.strategies[i].indicators
    ensures var next := RunStep(d, run, b); var s := d.strategies[i];
      next != [] && ColumnsAt(next[|next| - 1].indis, s.name, s.indicators[k].name)
        == Some(Calculate(s.indicators[k], Closes(LastOf(next, d.capacity)), d.root))
  {
    var kept := if run != [] && b.timestamp != run[|run| - 1].timestamp + d.period then [] else run;
    var window := PushBack(LastOf(kept, d.capacity), b, d.capacity);
    assert RunStep(d, run, b) == kept + [Annotate(d, window, b)];
    WindowCloses(d, kept, b);
    AnnotationsAt(b.indis, d.strategies, Closes(window), d.root, i, k);
    hide RunStep, Annotations, Calculate, LastOf, PushBack, Closes;
  }

  /** Non-negative closes whose accumulated sums over the last n stay in the int range. */
  ghost predicate IntRange(xs: seq<real>) { NonNegative(xs) && forall n | 0 < n <= |xs| :: FloorSum(Last(xs, n)) <= INT_MAX }

  /** The column mavg: set exactly from the period's number of closes on, and then the sum of their floors over the
      period, which is in (mean - 1, mean]. */
  ghost predicate AverageColumn(c: Columns, p: nat, xs: seq<real>) {
    && "mavg" in c
    && (c["mavg"].Some? <==> p <= |xs|)
    && (1 <= p <= |xs| ==> c["mavg"].value == FloorSum(Last(xs, p)) as real / p as real)
    && (1 <= p <= |xs| ==> Mean(Last(xs, p)) - 1.0 < c["mavg"].value <= Mean(Last(xs, p)))
  }

  lemma CalculatedAverage(i: Indicator, xs: seq<real>, root: real -> real)
    requires i.MovingAverage? && WellPosed(i) && IntRange(xs)
    ensures AverageColumn(Calculate(i, xs, root), i.period, xs)
  {
    if i.period <= |xs| {
      var last := Last(xs, i.period);
      assert forall x | x in last :: x in xs;
      hide Sum, FloorSum, Mean, Average, IntSum, Last;
      AverageExact(last);
      AverageBounds(last);
    }
    hide Sum, FloorSum, Mean, Average, IntSum, Last;
  }

  /** The bar accepted last carries, for every moving average, the column mavg; it is set if and only if the run has the
      indicator's period of bars, capacity permitting, and is then the sum of the floors of the period's closes over the period. */
  lemma AverageSet(d: Data, run: seq<Bar>, b: Bar, i: nat, k: nat)
    requires Sound(d) && DistinctNames(d.strategies) && i < |d.strategies| && k < |d.strategies[i].indicators|
    requires d.strategies[i].indicators[k].MovingAverage?
    requires !Known(LastOf(run, d.capacity), b.timestamp)
    requires IntRange(Closes(LastOf(RunStep(d, run, b), d.capacity)))
    ensures var next := RunStep(d, run, b);
      var s, p := d.strategies[i], d.strategies[i].indicators[k].period;
      var xs := Closes(LastOf(next, d.capacity));
      next != [] && |xs| == (if |next| <= d.capacity then |next| else d.capacity)
      && ColumnsAt(next[|next| - 1].indis, s.name, s.indicators[k].name).Some?
      && AverageColumn(ColumnsAt(next[|next| - 1].indis, s.name, s.indicators[k].name).value, p, xs)
  {
    var next, ind := RunStep(d, run, b), d.strategies[i].indicators[k];
    AcceptedColumns(d, run, b, i, k);
    hide RunStep, IntRange, AverageColumn, Calculate, ColumnsAt;
    CalculatedAverage(ind, Closes(LastOf(next, d.capacity)), d.root);
  }

  lemma WindowCloses(d: Data, kept: seq<Bar>, b: Bar)
    requires Sound(d)
    ensures var window := PushBack(LastOf(kept, d.capacity), b, d.capacity);
      Closes(LastOf(kept + [Annotate(d, window, b)], d.capacity)) == Closes(window)
  {
    var window := PushBack(LastOf(kept, d.capacity), b, d.capacity);
    var a := Annotate(d, window, b);
    BackWritten(kept, b, a, d.capacity);
    assert a.close == b.close;
    LastOfPush(LastOf(kept, d.capacity), b, d.capacity);
    hide Annotate, LastOf, PushBack;
  }

  // ------------------------------------------------- which bars are kept

  /** x is b with indicators written into it. */
  predicate Kept(x: Bar, b: Bar) { x.(indis := b.indis) == b }

  /** A bar that follows the run is the next bar of it. */
  predicate Continues(d: Data, run: seq<Bar>, b: Bar) { run != [] ==> b.timestamp == run[|run| - 1].timestamp + d.period }

  /** A bar of a known time is ignored, a contiguous one extends the run, any other one starts a new run; an accepted bar is
      kept as offered, with indicators written into it. */
  lemma StepCases(d: Data, run: seq<Bar>, b: Bar)
    requires d.capacity >= 1 && WellPosedAll(d.strategies)
    ensures var next, known := RunStep(d, run, b), exists x | x in LastOf(run, d.capacity) :: x.timestamp == b.timestamp;
      && (known ==> next == run)
      && (!known ==> next != [] && Kept(next[|next| - 1], b))
      && (!known ==> next[..|next| - 1] == if Continues(d, run, b) then run else [])
  {
    KnownBar(LastOf(run, d.capacity), b.timestamp);
    hide Annotations, LastOf, Known, PushBack;
  }

  lemma KnownBar(bars: seq<Bar>, timestamp: int)
    ensures Known(bars, timestamp) <==> exists x | x in bars :: x.timestamp == timestamp
  {
    if Known(bars, timestamp) {
      var k :| 0 <= k < |bars| && bars[k].timestamp == timestamp;
      assert bars[k] in bars;
    }
  }

  lemma StepContinues(d: Data, run: seq<Bar>, b: Bar)
    requires Sound(d) && d.period > 0 && Spaced(run, d.period) && Continues(d, run, b)
    ensures var next := RunStep(d, run, b); |next| == |run| + 1 && next[..|run|] == run && Kept(next[|run|], b)
  {
    NewTime(d, run, b);
    StepCases(d, run, b);
    hide RunStep, Spaced, Known, LastOf;
  }

  /** all is run with the bars behind it. */
  predicate Extends(all: seq<Bar>, run: seq<Bar>, bars: seq<Bar>) {
    |all| == |run| + |bars| && all[..|run|] == run && forall i | 0 <= i < |bars| :: Kept(all[|run| + i], bars[i])
  }

  lemma ExtendsMore(all: seq<Bar>, run: seq<Bar>, bars: seq<Bar>, next: seq<Bar>, b: Bar)
    requires Extends(all, run, bars) && |next| == |all| + 1 && next[..|all|] == all && Kept(next[|all|], b)
    ensures Extends(next, run, bars + [b])
  {
    hide Kept;
    assert forall k | 0 <= k < |all| :: next[k] == next[..|all|][k];
    assert next[..|run|] == all[..|run|];
  }

  /** Offered bars that follow each other by the period are all kept, however many there were before. */
  lemma {:induction false} ContiguousKept(d: Data, before: seq<Bar>, bars: seq<Bar>)
    requires Sound(d) && d.period > 0 && Spaced(bars, d.period) && (bars != [] ==> Continues(d, RunOf(d, before), bars[0]))
    ensures Extends(RunOf(d, before + bars), RunOf(d, before), bars)
    decreases |bars|
  {
    if bars == [] {
      assert before + bars == before;
    } else {
      PrefixSpaced(bars, d.period);
      ContiguousKept(d, before, bars[..|bars| - 1]);
      ContiguousNext(d, before, bars);
    }
  }

  lemma ContiguousNext(d: Data, before: seq<Bar>, bars: seq<Bar>)
    requires Sound(d) && d.period > 0 && bars != [] && Spaced(bars, d.period) && Continues(d, RunOf(d, before), bars[0])
    requires Extends(RunOf(d, before + bars[..|bars| - 1]), RunOf(d, before), bars[..|bars| - 1])
    ensures Extends(RunOf(d, before + bars), RunOf(d, before), bars)
  {
    hide RunOf, RunStep, Spaced, Continues, Extends, Sound;
    var rest, b, run := bars[..|bars| - 1], bars[|bars| - 1], RunOf(d, before);
    var most := RunOf(d, before + rest);
    assert before + bars == before + rest + [b] && rest + [b] == bars;
    RunUnfold(d, before + rest, b);
    RunSpaced(d, before + rest);
    NextContinues(d, run, most, bars);
    StepContinues(d, most, b);
    ExtendsMore(most, run, rest, RunStep(d, most, b), b);
  }

  lemma NextContinues(d: Data, run: seq<Bar>, most: seq<Bar>, bars: seq<Bar>)
    requires bars != [] && Extends(most, run, bars[..|bars| - 1]) && Spaced(bars, d.period) && Continues(d, run, bars[0])
    ensures Continues(d, most, bars[|bars| - 1])
  {
    var n := |bars| - 1;
    if n > 0 {
      assert Follows(bars, d.period, n - 1);
      assert Kept(most[|run| + (n - 1)], bars[..n][n - 1]);
    }
  }

  lemma PrefixSpaced(bars: seq<Bar>, period: int)
    requires bars != [] && Spaced(bars, period)
    ensures Spaced(bars[..|bars| - 1], period)
  {
    var n := |bars| - 1;
    forall k | 0 <= k && k + 1 < n ensures Follows(bars[..n], period, k) { assert Follows(bars, period, k); }
  }

  /** In a spaced run no time is as late as the next one. */
  lemma NewTime(d: Data, run: seq<Bar>, b: Bar)
    requires d.period > 0 && Spaced(run, d.period) && (run != [] ==> b.timestamp == run[|run| - 1].timestamp + d.period)
    ensures !Known(LastOf(run, d.capacity), b.timestamp)
  {
    var w := LastOf(run, d.capacity);
    forall k | 0 <= k < |w| ensures w[k].timestamp != b.timestamp {
      EarlierTime(run, d.period, |run| - |w| + k);
    }
  }

  lemma {:induction false} EarlierTime(run: seq<Bar>, period: int, k: nat)
    requires period > 0 && Spaced(run, period) && k < |run|
    ensures run[k].timestamp <= run[|run| - 1].timestamp
    decreases |run| - k
  {
    if k + 1 < |run| {
      assert Follows(run, period, k);
      EarlierTime(run, period, k + 1);
    }
  }

  /** The window is the end of the run: what was pushed last, as much as fits. */
  lemma WindowIsEnd<T>(s: seq<T>, t: seq<T>)
    ensures LastOf(s + t, |t|) == t && (forall n | n >= |s| :: LastOf(s, n) == s)
  {
  }
}
