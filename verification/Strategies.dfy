/** Signal strategies: stops, entries, and the two crossover state machines. */
module Strategies {
  import opened Market
  import opened MktData
  import opened Options

  /** Atomic<double>: what get returns before the first set is whatever was in memory. */
  datatype Cell = Cell(isSet: bool, x: real) {
    function Set(v: real): Cell { Cell(true, v) }
    function Clear(): Cell { Cell(false, 0.0) }
  }

  /** The lines a strategy logs; the entry lines carry the new stop. */
  datatype Line = Longing(stop: real) | Shorting(stop: real) | StoppedOut(stop: real)

  datatype Event = OnBar(bar: Bar) | OnTick(tick: Ticker)

  datatype Decision = Stay | EnterLong | EnterShort | Throw

  /** The state of either strategy; longOn is the crossing flag that its long entry sets. */
  datatype Trader = Trader(weight: real, signal: Cell, stop: Cell, longOn: bool, shortOn: bool, log: seq<Line>)

  predicate Fresh(s: Trader) { !s.signal.isSet && !s.stop.isSet && !s.longOn && !s.shortOn && s.log == [] }

  const STOP_PERCENTAGE: real := 0.01

  // ------------------------------------------------------- the decisions

  /** indis.at(strategy).at(indicator).at(column). */
  function Lookup(bar: Bar, strategy: string, indicator: string, column: string): Option<Option<real>> {
    match ColumnsAt(bar.indis, strategy, indicator)
    case None => None
    case Some(c) => if column in c then Some(c[column]) else None
  }

  predicate AllSet(m: map<string, Columns>) {
    forall i | i in m :: forall c | c in m[i] :: m[i][c].Some?
  }

  predicate AllIndisSet(bar: Bar, name: string) { name in bar.indis ==> AllSet(bar.indis[name]) }

  /** SMACrossover: long when the fast average is above the slow one, short when below, each once in a row. */
  function SmaDecision(name: string, bar: Bar, above: bool, below: bool): Decision {
    if !AllIndisSet(bar, name) then Stay
    else
      var fast, slow := Lookup(bar, name, "sma_fast", "mavg"), Lookup(bar, name, "sma_slow", "mavg");
      if fast.None? || slow.None? then Throw
      else
        LookupSet(bar, name, "sma_fast", "mavg");
        LookupSet(bar, name, "sma_slow", "mavg");
        if fast.value.value > slow.value.value && !above then EnterLong
        else if fast.value.value < slow.value.value && !below then EnterShort
        else Stay
  }

  /** BBands: long when the close is below the lower band, short when above the upper one, each once in a row. */
  function BandsDecision(name: string, bar: Bar, below: bool, above: bool): Decision {
    if !AllIndisSet(bar, name) then Stay
    else
      var dn, up := Lookup(bar, name, "bbands", "dn"), Lookup(bar, name, "bbands", "up");
      if dn.None? then Throw
      else
        LookupSet(bar, name, "bbands", "dn");
        if bar.close < dn.value.value && !below then EnterLong
        else if up.None? then Throw
        else
          LookupSet(bar, name, "bbands", "up");
          if bar.close > up.value.value && !above then EnterShort else Stay
  }

  lemma LookupSet(bar: Bar, name: string, indicator: string, column: string)
    requires AllIndisSet(bar, name) && Lookup(bar, name, indicator, column).Some?
    ensures Lookup(bar, name, indicator, column).value.Some?
  {
    var m := bar.indis[name];
    assert AllSet(m) && indicator in m && column in m[indicator];
  }

  // ----------------------------------------------------------- the steps

  predicate StopHit(s: Trader, t: Ticker) {
    s.stop.isSet && ((s.signal.x > 0.0 && t.bid < s.stop.x) || (s.signal.x < 0.0 && t.ask > s.stop.x))
  }

  function ProcessStop(s: Trader, t: Ticker): Trader {
    if StopHit(s, t) then s.(signal := s.signal.Set(0.0), stop := s.stop.Clear(), log := s.log + [StoppedOut(s.stop.x)]) else s
  }

  /** While flat there is nothing to stop out, whatever the stop. */
  lemma FlatIsKept(s: Trader, t: Ticker)
    requires s.signal.x == 0.0
    ensures ProcessStop(s, t) == s
  {
  }

  function FakeTick(bar: Bar): Ticker { Ticker(bar.low, bar.high) }

  function Enter(s: Trader, d: Decision, close: real): Trader {
    match d
    case EnterLong =>
      var stop := close * (1.0 - STOP_PERCENTAGE);
      s.(stop := s.stop.Set(stop), signal := s.signal.Set(s.weight), longOn := true, shortOn := false, log := s.log + [Longing(stop)])
    case EnterShort =>
      var stop := close * (1.0 + STOP_PERCENTAGE);
      s.(stop := s.stop.Set(stop), signal := s.signal.Set(-s.weight), longOn := false, shortOn := true, log := s.log + [Shorting(stop)])
    case _ => s
  }

  datatype Kind = Sma | BBandsKind

  function Decide(k: Kind, name: string, bar: Bar, longOn: bool, shortOn: bool): Decision {
    match k case Sma => SmaDecision(name, bar, longOn, shortOn) case BBandsKind => BandsDecision(name, bar, longOn, shortOn)
  }

  /** apply(bar) or apply(tick). */
  function Step(k: Kind, name: string, s: Trader, e: Event): Trader {
    match e
    case OnTick(t) => ProcessStop(s, t)
    case OnBar(bar) =>
      var s1 := ProcessStop(s, FakeTick(bar));
      Enter(s1, Decide(k, name, bar, s1.longOn, s1.shortOn), bar.close)
  }

  function Run(k: Kind, name: string, s: Trader, es: seq<Event>): Trader {
    if es == [] then s else Step(k, name, Run(k, name, s, es[..|es| - 1]), es[|es| - 1])
  }

  // ------------------------------------------------------- run invariants

  function Entries(log: seq<Line>): (r: seq<Line>)
    ensures forall x | x in r :: !x.StoppedOut?
  {
    if log == [] then []
    else
      var rest, x := Entries(log[..|log| - 1]), log[|log| - 1];
      if x.StoppedOut? then rest else rest + [x]
  }

  predicate Alternating(es: seq<Line>) { forall i | 0 < i < |es| :: es[i].Longing? != es[i - 1].Longing? }

  predicate Consistent(s: Trader) {
    && s.weight > 0.0
    && !(s.longOn && s.shortOn)
    && (s.signal.isSet <==> s.longOn || s.shortOn)
    && (s.stop.isSet <==> s.signal.isSet && s.signal.x != 0.0)
    && (s.signal.isSet ==> s.signal.x == -s.weight || s.signal.x == 0.0 || s.signal.x == s.weight)
    && (s.signal.isSet && s.signal.x > 0.0 ==> s.longOn)
    && (s.signal.isSet && s.signal.x < 0.0 ==> s.shortOn)
    && (var es := Entries(s.log);
        Alternating(es)
        && (es == [] <==> !s.longOn && !s.shortOn)
        && (es != [] ==> es[|es| - 1].Longing? == s.longOn && (s.stop.isSet ==> s.stop.x == es[|es| - 1].stop)))
  }

  lemma EntriesPush(log: seq<Line>, x: Line)
    ensures Entries(log + [x]) == if x.StoppedOut? then Entries(log) else Entries(log) + [x]
  {
    assert (log + [x])[..|log|] == log;
  }

  lemma AlternatingPush(es: seq<Line>, x: Line)
    requires Alternating(es) && (es != [] ==> x.Longing? != es[|es| - 1].Longing?)
    ensures Alternating(es + [x])
  {
  }

  lemma StopConsistent(s: Trader, t: Ticker)
    requires Consistent(s)
    ensures Consistent(ProcessStop(s, t))
  {
    EntriesPush(s.log, StoppedOut(s.stop.x));
    hide Entries, Alternating;
  }

  lemma EnterConsistent(s: Trader, d: Decision, close: real)
    requires Consistent(s) && (d == EnterLong ==> !s.longOn) && (d == EnterShort ==> !s.shortOn)
    ensures Consistent(Enter(s, d, close))
  {
    var es := Entries(s.log);
    if d == EnterLong || d == EnterShort {
      var x := if d == EnterLong then Longing(close * (1.0 - STOP_PERCENTAGE)) else Shorting(close * (1.0 + STOP_PERCENTAGE));
      EntriesPush(s.log, x);
      AlternatingPush(es, x);
    }
    hide Entries, Alternating;
  }

  lemma DecisionAllowed(k: Kind, name: string, bar: Bar, longOn: bool, shortOn: bool)
    ensures var d := Decide(k, name, bar, longOn, shortOn); (d == EnterLong ==> !longOn) && (d == EnterShort ==> !shortOn)
  {
    hide AllIndisSet, Lookup;
  }

  lemma StepConsistent(k: Kind, name: string, s: Trader, e: Event)
    requires Consistent(s)
    ensures Consistent(Step(k, name, s, e))
  {
    hide Consistent, Enter, ProcessStop, Decide;
    match e
    case OnTick(t) => StopConsistent(s, t);
    case OnBar(bar) =>
      StopConsistent(s, FakeTick(bar));
      var s1 := ProcessStop(s, FakeTick(bar));
      DecisionAllowed(k, name, bar, s1.longOn, s1.shortOn);
      EnterConsistent(s1, Decide(k, name, bar, s1.longOn, s1.shortOn), bar.close);
  }

  /** Over any interleaving of bars and ticks: never both flags, entries alternate sides even across stop-outs, a stop
      exactly with a non-zero signal and at the last entry's level, the signal in {-w, 0, w}, its side the flag's. */
  lemma {:induction false} RunConsistent(k: Kind, name: string, s: Trader, es: seq<Event>)
    requires Consistent(s)
    ensures Consistent(Run(k, name, s, es))
  {
    if es != [] {
      RunConsistent(k, name, s, es[..|es| - 1]);
      StepConsistent(k, name, Run(k, name, s, es[..|es| - 1]), es[|es| - 1]);
      hide Consistent, Step;
    }
  }

  lemma FreshConsistent(s: Trader)
    requires Fresh(s) && s.weight > 0.0
    ensures Consistent(s)
  {
  }

  /** A run from construction. */
  lemma {:induction false} FreshRun(k: Kind, name: string, s: Trader, es: seq<Event>)
    requires Fresh(s) && s.weight > 0.0
    ensures var t := Run(k, name, s, es);
      && !(t.longOn && t.shortOn)
      && Alternating(Entries(t.log))
      && (t.stop.isSet <==> t.signal.isSet && t.signal.x != 0.0)
      && (t.signal.isSet ==> t.signal.x in {-s.weight, 0.0, s.weight})
      && (t.signal.isSet && t.signal.x > 0.0 ==> t.longOn) && (t.signal.isSet && t.signal.x < 0.0 ==> t.shortOn)
  {
    FreshConsistent(s);
    RunConsistent(k, name, s, es);
    WeightKept(k, name, s, es);
    hide Run, Entries, Alternating;
  }

  lemma {:induction false} WeightKept(k: Kind, name: string, s: Trader, es: seq<Event>)
    ensures Run(k, name, s, es).weight == s.weight
  {
    hide Decide;
    if es != [] { WeightKept(k, name, s, es[..|es| - 1]); }
  }

  /** An exit is logged only when the price has gone through the stop of the last entry, on the losing side. */
  lemma {:induction false} StopOnlyWhenHit(s: Trader, t: Ticker)
    requires Consistent(s) && ProcessStop(s, t) != s
    ensures Entries(s.log) != [] && s.stop.isSet
    ensures var x := Entries(s.log)[|Entries(s.log)| - 1]; if x.Longing? then t.bid < x.stop else t.ask > x.stop
    ensures ProcessStop(s, t).signal == Cell(true, 0.0) && !ProcessStop(s, t).stop.isSet
  {
    hide Entries, Alternating;
  }

  /** The price has gone through the stop of the last entry, on its losing side, and the stop is still set. */
  predicate ThroughStop(s: Trader, t: Ticker) {
    var es := Entries(s.log);
    s.stop.isSet && es != [] && if es[|es| - 1].Longing? then t.bid < es[|es| - 1].stop else t.ask > es[|es| - 1].stop
  }

  /** What the stop leaves: flat, the stop unset, and one more line; the flags and the weight stay. */
  predicate StoppedOutFrom(s: Trader, u: Trader) {
    && u.signal == Cell(true, 0.0) && !u.stop.isSet && u.log == s.log + [StoppedOut(s.stop.x)]
    && u.longOn == s.longOn && u.shortOn == s.shortOn && u.weight == s.weight
  }

  lemma ProcessStopExact(s: Trader, t: Ticker)
    requires Consistent(s)
    ensures if ThroughStop(s, t) then StoppedOutFrom(s, ProcessStop(s, t)) else ProcessStop(s, t) == s
  {
    hide Entries, Alternating;
  }

  /** A tick stops the trader out if and only if it goes through the stop of the last entry: a long one when the bid is
      below it, a short one when the ask is above it. Any other tick changes nothing. */
  lemma {:induction false} TickStopsExactly(k: Kind, name: string, s: Trader, t: Ticker)
    requires Consistent(s)
    ensures var u := Step(k, name, s, OnTick(t)); if ThroughStop(s, t) then StoppedOutFrom(s, u) else u == s
  {
    hide Consistent, ProcessStop, ThroughStop;
    ProcessStopExact(s, t);
  }

  /** A bar first stops the trader out if and only if its low is below a long entry's stop or its high above a short
      entry's, and then enters as decided on the flags; the log shows both in this order. */
  lemma {:induction false} BarStopsExactly(k: Kind, name: string, s: Trader, bar: Bar)
    requires Consistent(s)
    ensures var u, d := Step(k, name, s, OnBar(bar)), Decide(k, name, bar, s.longOn, s.shortOn);
      var hit, enters := ThroughStop(s, Ticker(bar.low, bar.high)), d == EnterLong || d == EnterShort;
      && (hit && !enters ==> StoppedOutFrom(s, u)) && (!hit && !enters ==> u == s)
      && (enters ==> u.log == s.log + (if hit then [StoppedOut(s.stop.x)] else [])
                              + [if d == EnterLong then Longing(u.stop.x) else Shorting(u.stop.x)])
      && (enters ==> u.stop.isSet && u.signal == Cell(true, if d == EnterLong then s.weight else -s.weight))
  {
    hide Consistent, ThroughStop, Decide;
    ProcessStopExact(s, Ticker(bar.low, bar.high));
  }

  /** A short at -1 with its stop at 101 is stopped out by an ask of 103, a long one with its stop at 99 by a bid of 98. */
  lemma StopExamples()
    ensures var s := Trader(1.0, Cell(true, -1.0), Cell(true, 101.0), false, true, [Shorting(101.0)]);
      Consistent(s) && ProcessStop(s, Ticker(102.0, 103.0)).signal.x == 0.0 && ProcessStop(s, Ticker(98.0, 99.0)) == s
    ensures var s := Trader(1.0, Cell(true, 1.0), Cell(true, 99.0), true, false, [Longing(99.0)]);
      Consistent(s) && ProcessStop(s, Ticker(98.0, 98.5)).signal.x == 0.0 && ProcessStop(s, Ticker(102.0, 103.0)) == s
  {
    EntriesPush([], Shorting(101.0));
    EntriesPush([], Longing(99.0));
    assert [] + [Shorting(101.0)] == [Shorting(101.0)] && [] + [Longing(99.0)] == [Longing(99.0)];
  }

  /** Lookups fail exactly when all indicators of the strategy are set and a column it needs is missing. */
  lemma {:induction false} SmaThrows(name: string, bar: Bar, above: bool, below: bool)
    ensures SmaDecision(name, bar, above, below) == Throw <==>
      AllIndisSet(bar, name)
      && (Lookup(bar, name, "sma_fast", "mavg").None? || Lookup(bar, name, "sma_slow", "mavg").None?)
    ensures !AllIndisSet(bar, name) ==> SmaDecision(name, bar, above, below) == Stay
  {
    hide AllIndisSet, Lookup;
  }

  /** After a bar with both averages set, the flags say which average was above last. */
  lemma {:induction false} SmaFlags(name: string, s: Trader, bar: Bar)
    requires Consistent(s) && AllIndisSet(bar, name)
    requires Lookup(bar, name, "sma_fast", "mavg").Some? && Lookup(bar, name, "sma_slow", "mavg").Some?
    ensures Lookup(bar, name, "sma_fast", "mavg").value.Some? && Lookup(bar, name, "sma_slow", "mavg").value.Some?
    ensures var t := Step(Sma, name, s, OnBar(bar));
      var fast, slow := Lookup(bar, name, "sma_fast", "mavg").value.value, Lookup(bar, name, "sma_slow", "mavg").value.value;
      (fast > slow ==> t.longOn && !t.shortOn) && (fast < slow ==> t.shortOn && !t.longOn)
      && (fast == slow ==> t.longOn == s.longOn && t.shortOn == s.shortOn)
  {
    LookupSet(bar, name, "sma_fast", "mavg");
    LookupSet(bar, name, "sma_slow", "mavg");
    hide AllIndisSet, Lookup, Entries, Alternating;
  }

  /** After a bar outside the bands the flags say on which side; inside them they stay. */
  lemma {:induction false} BandsFlags(name: string, s: Trader, bar: Bar)
    requires Consistent(s) && AllIndisSet(bar, name)
    requires Lookup(bar, name, "bbands", "dn").Some? && Lookup(bar, name, "bbands", "up").Some?
    ensures Lookup(bar, name, "bbands", "dn").value.Some? && Lookup(bar, name, "bbands", "up").value.Some?
    ensures var t := Step(BBandsKind, name, s, OnBar(bar));
      var dn, up := Lookup(bar, name, "bbands", "dn").value.value, Lookup(bar, name, "bbands", "up").value.value;
      dn <= up ==>
        (bar.close < dn ==> t.longOn && !t.shortOn) && (bar.close > up ==> t.shortOn && !t.longOn)
        && (dn <= bar.close <= up ==> t.longOn == s.longOn && t.shortOn == s.shortOn)
  {
    LookupSet(bar, name, "bbands", "dn");
    LookupSet(bar, name, "bbands", "up");
    hide AllIndisSet, Lookup, Entries, Alternating;
  }

  /** An entry puts its stop one percent of the close away, on the losing side, and opens in the flag's direction. */
  lemma {:induction false} EntryStop(s: Trader, d: Decision, close: real)
    requires s.weight > 0.0 && close > 0.0 && (d == EnterLong || d == EnterShort)
    ensures var t := Enter(s, d, close); var away := close / 100.0;
      if d == EnterLong then t.signal.x > 0.0 && t.stop.x < close && close - t.stop.x == away
      else t.signal.x < 0.0 && t.stop.x > close && t.stop.x - close == away
  {
  }

  const SMA_INDICATORS: seq<Indicator> := [MovingAverage("sma_fast", 30), MovingAverage("sma_slow", 150)]

  /** With its own two averages, SMACrossover never fails a lookup on a bar accepted into the window, and stays out until
      the contiguous run, as far as the buffer holds it, has 150 bars. */
  lemma {:induction false} SmaOnWindow(d: Data, run: seq<Bar>, b: Bar, i: nat, above: bool, below: bool)
    requires Sound(d) && DistinctNames(d.strategies) && i < |d.strategies|
    requires d.strategies[i].indicators == SMA_INDICATORS && !Known(LastOf(run, d.capacity), b.timestamp)
    ensures var next := RunStep(d, run, b);
      var r := SmaDecision(d.strategies[i].name, next[|next| - 1], above, below);
      r != Throw && (|next| < 150 || d.capacity < 150 ==> r == Stay)
  {
    var s, next := d.strategies[i], RunStep(d, run, b);
    var bar := next[|next| - 1];
    AcceptedColumns(d, run, b, i, 0);
    AcceptedColumns(d, run, b, i, 1);
    hide RunStep, Average;
    var n := |Closes(LastOf(next, d.capacity))|;
    assert Lookup(bar, s.name, "sma_fast", "mavg").Some?;
    assert Lookup(bar, s.name, "sma_slow", "mavg").Some?;
    if n < 150 {
      assert ColumnsAt(bar.indis, s.name, "sma_slow").value["mavg"].None?;
      assert !AllSet(bar.indis[s.name]);
    }
    hide Lookup, AllSet;
  }

  // ------------------------------------------------------------ the classes

  /** SignalStrategy's own state. */
  class SignalStrategy {
    const name: string
    const weight: real
    var signal: Cell
    var stop: Cell
    var log: seq<Line>

    constructor (name: string, weight: real, garbage: real)
      ensures this.name == name && this.weight == weight && !signal.isSet && !stop.isSet && log == []
    {
      this.name, this.weight := name, weight;
      signal, stop, log := Cell(false, garbage), Cell(false, garbage), [];
    }

    ghost function View(longOn: bool, shortOn: bool): Trader
      reads this
    {
      Trader(weight, signal, stop, longOn, shortOn, log)
    }

    method ProcessTick(t: Ticker)
      modifies this
      ensures forall l, s :: View(l, s) == ProcessStop(old(View(l, s)), t)
    {
      if stop.isSet {
        var currentSignal, currentStop := signal.x, stop.x;
        if (currentSignal > 0.0 && t.bid < currentStop) || (currentSignal < 0.0 && t.ask > currentStop) {
          log := log + [StoppedOut(currentStop)];
          signal := signal.Set(0.0);
          stop := stop.Clear();
        }
      }
    }

    method ProcessBar(bar: Bar)
      modifies this
      ensures forall l, s :: View(l, s) == ProcessStop(old(View(l, s)), FakeTick(bar))
    {
      ProcessTick(FakeTick(bar));
    }

    method GoLong(confidence: real, newStop: real)
      modifies this
      ensures stop == Cell(true, newStop) && signal == Cell(true, weight * confidence) && log == old(log) + [Longing(newStop)]
    {
      stop := stop.Set(newStop);
      signal := signal.Set(weight * confidence);
      log := log + [Longing(newStop)];
    }

    method GoShort(confidence: real, newStop: real)
      modifies this
      ensures stop == Cell(true, newStop) && signal == Cell(true, -weight * confidence) && log == old(log) + [Shorting(newStop)]
    {
      stop := stop.Set(newStop);
      signal := signal.Set(-weight * confidence);
      log := log + [Shorting(newStop)];
    }
  }

  class SmaCrossover {
    const strategy: SignalStrategy
    var crossedAbove: bool
    var crossedBelow: bool

    ghost function View(): Trader
      reads this, strategy
    {
      strategy.View(crossedAbove, crossedBelow)
    }

    constructor (name: string, weight: real, garbage: real)
      ensures Fresh(View()) && View().weight == weight && strategy.name == name && fresh(strategy)
    {
      strategy := new SignalStrategy(name, weight, garbage);
      crossedAbove, crossedBelow := false, false;
    }

    /** SMACrossover::apply for a bar; false when std::map::at throws. */
    method ApplyBar(bar: Bar) returns (ok: bool)
      modifies this, strategy
      ensures View() == Step(Sma, strategy.name, old(View()), OnBar(bar))
      ensures ok == (SmaDecision(strategy.name, bar, old(crossedAbove), old(crossedBelow)) != Throw)
    {
      strategy.ProcessBar(bar);
      hide AllIndisSet, Lookup, ProcessStop;
      if !AllIndisSet(bar, strategy.name) { return true; }
      var fast := Lookup(bar, strategy.name, "sma_fast", "mavg");
      var slow := Lookup(bar, strategy.name, "sma_slow", "mavg");
      if fast.None? || slow.None? { return false; }
      LookupSet(bar, strategy.name, "sma_fast", "mavg");
      LookupSet(bar, strategy.name, "sma_slow", "mavg");
      if fast.value.value > slow.value.value && !crossedAbove {
        strategy.GoLong(1.0, bar.close * (1.0 - STOP_PERCENTAGE));
        crossedAbove, crossedBelow := true, false;
      } else if fast.value.value < slow.value.value && !crossedBelow {
        strategy.GoShort(1.0, bar.close * (1.0 + STOP_PERCENTAGE));
        crossedBelow, crossedAbove := true, false;
      }
      ok := true;
    }

    method ApplyTick(t: Ticker)
      modifies strategy
      ensures View() == Step(Sma, strategy.name, old(View()), OnTick(t))
    {
      strategy.ProcessTick(t);
    }
  }

  class BBandsStrategy {
    const strategy: SignalStrategy
    var crossedBelow: bool
    var crossedAbove: bool

    /** The long entry sets crossedBelow here. */
    ghost function View(): Trader
      reads this, strategy
    {
      strategy.View(crossedBelow, crossedAbove)
    }

    constructor (name: string, weight: real, garbage: real)
      ensures Fresh(View()) && View().weight == weight && strategy.name == name && fresh(strategy)
    {
      strategy := new SignalStrategy(name, weight, garbage);
      crossedBelow, crossedAbove := false, false;
    }

    /** BBands::apply for a bar; false when std::map::at throws. */
    method ApplyBar(bar: Bar) returns (ok: bool)
      modifies this, strategy
      ensures View() == Step(BBandsKind, strategy.name, old(View()), OnBar(bar))
      ensures ok == (BandsDecision(strategy.name, bar, old(crossedBelow), old(crossedAbove)) != Throw)
    {
      strategy.ProcessBar(bar);
      hide AllIndisSet, Lookup, ProcessStop;
      if !AllIndisSet(bar, strategy.name) { return true; }
      var dn := Lookup(bar, strategy.name, "bbands", "dn");
      if dn.None? { return false; }
      LookupSet(bar, strategy.name, "bbands", "dn");
      if bar.close < dn.value.value && !crossedBelow {
        strategy.GoLong(1.0, bar.close * (1.0 - STOP_PERCENTAGE));
        crossedBelow, crossedAbove := true, false;
        return true;
      }
      var up := Lookup(bar, strategy.name, "bbands", "up");
      if up.None? { return false; }
      LookupSet(bar, strategy.name, "bbands", "up");
      if bar.close > up.value.value && !crossedAbove {
        strategy.GoShort(1.0, bar.close * (1.0 + STOP_PERCENTAGE));
        crossedAbove, crossedBelow := true, false;
      }
      ok := true;
    }

    method ApplyTick(t: Ticker)
      modifies strategy
      ensures View() == Step(BBandsKind, strategy.name, old(View()), OnTick(t))
    {
      strategy.ProcessTick(t);
    }
  }

  /** A crossover strategy driven through any events. */
  method DriveSma(name: string, weight: real, garbage: real, es: seq<Event>) returns (s: SmaCrossover)
    requires weight > 0.0
    ensures Consistent(s.View()) && s.View().weight == weight
  {
    s := new SmaCrossover(name, weight, garbage);
    ghost var start := s.View();
    FreshConsistent(start);
    for i := 0 to |es|
      invariant fresh(s) && fresh(s.strategy) && s.strategy.name == name
      invariant s.View() == Run(Sma, name, start, es[..i])
    {
      assert es[..i + 1][..i] == es[..i];
      hide Step;
      match es[i]
      case OnBar(bar) => var ok := s.ApplyBar(bar);
      case OnTick(t) => s.ApplyTick(t);
    }
    assert es[..|es|] == es;
    RunConsistent(Sma, name, start, es);
    WeightKept(Sma, name, start, es);
  }
}
