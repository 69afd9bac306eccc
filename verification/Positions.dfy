/** Rebalancing the futures position towards the blended signal. */
module Positions {
  import opened Bytes
  import opened Numbers
  import opened Options

  /** A config option: absent, not a number, or a number. */
  datatype Setting = Missing | Malformed | Number(x: real)

  datatype OrderType = OpenLong | OpenShort | CloseLong | CloseShort

  /** What is known before any order: the equity in bitcoin, the last price, whether the tick is fresh. */
  datatype Inputs = Inputs(userinfo: Option<real>, recent: bool, last: real, equity: Setting, contracts: Setting)

  /** How the exchange treats one order: contracts filled, and whether limit returned true. */
  datatype Fill = Fill(filled: nat, ok: bool)

  // -------------------------------------------------------- the signal

  /** blend_signals: the sum of the signals, clamped. */
  method BlendSignals(signals: seq<real>) returns (signal: real)
    ensures -1.0 <= signal <= 1.0
    ensures -1.0 <= Sum(signals) <= 1.0 ==> signal == Sum(signals)
    ensures Sum(signals) > 1.0 ==> signal == 1.0
    ensures Sum(signals) < -1.0 ==> signal == -1.0
  {
    signal := 0.0;
    for i := 0 to |signals|
      invariant signal == Sum(signals[..i])
    {
      assert signals[..i + 1][..i] == signals[..i];
      signal := signal + signals[i];
    }
    assert signals[..|signals|] == signals;
    if signal > 1.0 { signal := 1.0; } else if signal < -1.0 { signal := -1.0; }
  }

  // ------------------------------------------------- the desired position

  function Abs(i: int): nat { if i < 0 then -i else i }

  function AbsReal(x: real): real { if x < 0.0 then -x else x }

  /** The desired contracts; None where the function returns without trading, an error where stod throws. */
  function Desired(inp: Inputs, signal: real): Result<Option<int>> {
    if inp.userinfo.None? || !inp.recent then Ok(None)
    else if !inp.equity.Missing? then
      if inp.equity.Malformed? then Err(InvalidArgument)
      else if inp.equity.x <= 20.0 then
        Ok(Some(Trunc(signal * (inp.equity.x * (inp.userinfo.value * inp.last)) / 100.0)))
      else Ok(None)
    else if !inp.contracts.Missing? then
      if inp.contracts.Malformed? then Err(InvalidArgument) else Ok(Some(Trunc(signal * inp.contracts.x)))
    else Ok(None)
  }

  /** The configured maximum, in contracts. */
  function Maximum(inp: Inputs): real
    requires inp.userinfo.Some?
  {
    if inp.equity.Number? then inp.equity.x * (inp.userinfo.value * inp.last) / 100.0
    else if inp.contracts.Number? then inp.contracts.x
    else 0.0
  }

  lemma TruncShrinks(x: real)
    ensures Abs(Trunc(x)) as real <= AbsReal(x)
    ensures x >= 0.0 ==> Trunc(x) >= 0
    ensures x <= 0.0 ==> Trunc(x) <= 0
  {
  }

  lemma ScaleDown(s: real, m: real)
    requires -1.0 <= s <= 1.0
    ensures AbsReal(s * m) <= AbsReal(m)
  {
    if m >= 0.0 {
      assert s * m <= 1.0 * m && -1.0 * m <= s * m;
    } else {
      assert s * (-m) <= 1.0 * (-m) && -1.0 * (-m) <= s * (-m);
      assert s * (-m) == -(s * m);
    }
  }

  /** Whether there is a target, no trade, or an error: userinfo and a fresh tick are needed; the equity option comes before
      the contracts option; an option that is no number throws; a leverage above 20, or no option at all, means no trade. */
  lemma DesiredCases(inp: Inputs, signal: real)
    ensures var ready := inp.userinfo.Some? && inp.recent;
      var d := Desired(inp, signal);
      && (d.Err? <==> ready && (inp.equity.Malformed? || (inp.equity.Missing? && inp.contracts.Malformed?)))
      && (d.Ok? && d.value.Some? <==>
          ready && ((inp.equity.Number? && inp.equity.x <= 20.0) || (inp.equity.Missing? && inp.contracts.Number?)))
  {
  }

  lemma TruncClose(x: real)
    ensures AbsReal(x - Trunc(x) as real) < 1.0
  {
  }

  /** The target is the signal's part of the configured maximum, cut to whole contracts: less than one contract from it,
      not beyond it and not on the other side of zero. Equity is leverage times account value, in contracts of 100. */
  lemma DesiredExact(inp: Inputs, signal: real)
    requires Desired(inp, signal).Ok? && Desired(inp, signal).value.Some?
    ensures inp.userinfo.Some?
    ensures var d, part := Desired(inp, signal).value.value, signal * Maximum(inp);
      && AbsReal(part - d as real) < 1.0 && AbsReal(d as real) <= AbsReal(part)
      && (part >= 0.0 ==> d >= 0) && (part <= 0.0 ==> d <= 0)
    ensures inp.equity.Number? ==> 100.0 * Maximum(inp) == inp.equity.x * inp.userinfo.value * inp.last
    ensures inp.equity.Missing? ==> Maximum(inp) == inp.contracts.x
  {
    TargetPart(inp, signal);
    assert inp.equity.Number? ==> inp.equity.x * (inp.userinfo.value * inp.last) == inp.equity.x * inp.userinfo.value * inp.last;
    hide Desired;
    TruncShrinks(signal * Maximum(inp));
    TruncClose(signal * Maximum(inp));
  }

  lemma TargetPart(inp: Inputs, signal: real)
    requires Desired(inp, signal).Ok? && Desired(inp, signal).value.Some?
    ensures inp.userinfo.Some? && Desired(inp, signal).value.value == Trunc(signal * Maximum(inp))
  {
    if inp.equity.Number? { Regroup(signal, inp.equity.x * (inp.userinfo.value * inp.last)); }
  }

  /** Two contracts configured, and a leverage of 5 on 1.5 bitcoin at 1000: all of it long, or half of it short. */
  lemma DesiredExamples()
    ensures var inp := Inputs(Some(1.5), true, 1000.0, Missing, Number(2.0));
      Desired(inp, 1.0) == Ok(Some(2)) && Desired(inp, -0.5) == Ok(Some(-1)) && Desired(inp, 0.25) == Ok(Some(0))
    ensures var inp := Inputs(Some(1.5), true, 1000.0, Number(5.0), Number(2.0));
      Desired(inp, 1.0) == Ok(Some(75)) && Desired(inp, -0.5) == Ok(Some(-37))
  {
    assert Trunc(2.0) == 2 && Trunc(-1.0) == -1 && Trunc(0.5) == 0 && Trunc(75.0) == 75 && Trunc(-37.5) == -37;
  }

  /** With a blended signal the desired position never exceeds the configured maximum; and leverage is at most 20. */
  lemma DesiredBounded(inp: Inputs, signal: real)
    requires -1.0 <= signal <= 1.0 && Desired(inp, signal).Ok? && Desired(inp, signal).value.Some?
    ensures inp.userinfo.Some? && inp.recent
    ensures Abs(Desired(inp, signal).value.value) as real <= AbsReal(Maximum(inp))
    ensures inp.equity.Number? ==> inp.equity.x <= 20.0
    ensures Maximum(inp) >= 0.0 && signal >= 0.0 ==> Desired(inp, signal).value.value >= 0
    ensures Maximum(inp) >= 0.0 && signal <= 0.0 ==> Desired(inp, signal).value.value <= 0
  {
    var m := Maximum(inp);
    var d := Desired(inp, signal).value.value;
    TargetPart(inp, signal);
    assert d == Trunc(signal * m);
    hide Desired, Maximum;
    TruncShrinks(signal * m);
    ScaleDown(signal, m);
    SignOf(signal, m);
  }

  lemma Regroup(s: real, e: real)
    ensures s * e / 100.0 == s * (e / 100.0)
  {
  }

  lemma SignOf(s: real, m: real)
    ensures m >= 0.0 && s >= 0.0 ==> s * m >= 0.0
    ensures m >= 0.0 && s <= 0.0 ==> s * m <= 0.0
  {
  }

  // ------------------------------------------------------------- the plan

  /** Contracts to close and to open, negative for short ones. */
  datatype Plan = Plan(close: int, open: int)

  function PlanFor(current: int, desired: int): Plan {
    if (current > 0 && desired <= 0) || (current < 0 && desired >= 0) then Plan(current, desired)
    else if Abs(desired) < Abs(current) then Plan(current - desired, 0)
    else Plan(0, desired - current)
  }

  /** The plan leads from current to desired by closing on the side held and opening on the side desired, and never does
      both for one side. */
  lemma PlanExact(current: int, desired: int)
    ensures var p := PlanFor(current, desired);
      && current - p.close + p.open == desired
      && Abs(p.close) <= Abs(current)
      && (p.close > 0 ==> current > 0) && (p.close < 0 ==> current < 0)
      && (p.open > 0 ==> desired > 0) && (p.open < 0 ==> desired < 0)
      && (p.close != 0 && p.open != 0 ==> p.close == current && p.open == desired && (current > 0) != (desired > 0))
      && Abs(p.close) + Abs(p.open) == Abs(desired - current)
  {
  }

  // ------------------------------------------------------- orders and fills

  /** Contracts held on each side. */
  datatype Position = Position(buy: nat, sell: nat)

  function Net(p: Position): int { p.buy - p.sell }

  /** An order fills at most its amount, and a close at most what is held. */
  predicate Fills(p: Position, t: OrderType, amount: nat, filled: nat) {
    filled <= amount && (t.CloseLong? ==> filled <= p.buy) && (t.CloseShort? ==> filled <= p.sell)
  }

  function Execute(p: Position, t: OrderType, filled: nat): Position
    requires t.CloseLong? ==> filled <= p.buy
    requires t.CloseShort? ==> filled <= p.sell
  {
    match t
    case OpenLong => p.(buy := p.buy + filled)
    case OpenShort => p.(sell := p.sell + filled)
    case CloseLong => p.(buy := p.buy - filled)
    case CloseShort => p.(sell := p.sell - filled)
  }

  class Account {
    var position: Position

    /** limit: whatever it returns, any part of the order may have been filled. */
    method Limit(t: OrderType, amount: nat, fill: Fill) returns (ok: bool)
      requires Fills(position, t, amount, fill.filled)
      modifies this
      ensures position == Execute(old(position), t, fill.filled) && ok == fill.ok
    {
      position := Execute(position, t, fill.filled);
      ok := fill.ok;
    }

    /** manage_positions after a successful fetch of the position; closing and opening say how the orders are filled. */
    method ManagePositions(inp: Inputs, signal: real, closing: Fill, opening: Fill) returns (r: Result<Option<int>>)
      requires var d := Desired(inp, signal);
        d.Ok? && d.value.Some? ==> FillsAllowed(position, d.value.value, closing, opening)
      modifies this
      ensures r == Desired(inp, signal)
      ensures r.Ok? && r.value.Some? ==> position == Round(old(position), r.value.value, closing, opening)
      ensures r.Err? || r.value.None? ==> position == old(position)
    {
      r := Desired(inp, signal);
      if r.Err? || r.value.None? { return; }
      var desired := r.value.value;
      assert FillsAllowed(position, desired, closing, opening);
      PlanExact(position.buy - position.sell, desired);
      hide Desired;
      var current := position.buy - position.sell;
      var contractsToClose, contractsToOpen;
      if (current > 0 && desired <= 0) || (current < 0 && desired >= 0) {
        contractsToClose, contractsToOpen := current, desired;
      } else if Abs(desired) < Abs(current) {
        contractsToClose, contractsToOpen := current - desired, 0;
      } else {
        contractsToOpen, contractsToClose := desired - current, 0;
      }
      if contractsToClose != 0 {
        var toClose := if contractsToClose >= 0 then CloseLong else CloseShort;
        var ok := Limit(toClose, Abs(contractsToClose), closing);
        if !ok { return; }
      }
      if contractsToOpen != 0 {
        var toOpen := if contractsToOpen >= 0 then OpenLong else OpenShort;
        var _ := Limit(toOpen, Abs(contractsToOpen), opening);
      }
    }
  }

  function CloseType(p: Plan): OrderType { if p.close >= 0 then CloseLong else CloseShort }

  function OpenType(p: Plan): OrderType { if p.open >= 0 then OpenLong else OpenShort }

  /** The fills do not exceed the two orders; closes cannot exceed the side held, so nothing more is asked. */
  predicate FillsAllowed(p: Position, desired: int, closing: Fill, opening: Fill) {
    var plan := PlanFor(Net(p), desired);
    (plan.close != 0 ==> closing.filled <= Abs(plan.close)) && (plan.open != 0 ==> opening.filled <= Abs(plan.open))
  }

  /** Orders may be filled completely, or not at all; a close can be, because it asks for no more than is held. */
  lemma FullFillsAllowed(p: Position, desired: int, closed: bool)
    ensures var plan := PlanFor(Net(p), desired);
      && FillsAllowed(p, desired, Fill(Abs(plan.close), closed), Fill(Abs(plan.open), true))
      && FillsAllowed(p, desired, Fill(0, closed), Fill(0, false))
      && Fills(p, CloseType(plan), Abs(plan.close), Abs(plan.close)) && Fills(p, OpenType(plan), Abs(plan.open), Abs(plan.open))
  {
    CloseWithinSide(p, desired);
  }

  /** The close order never asks for more than the side it closes holds. */
  lemma CloseWithinSide(p: Position, desired: int)
    ensures var plan := PlanFor(Net(p), desired);
      if plan.close >= 0 then plan.close <= p.buy else -plan.close <= p.sell
  {
    PlanExact(Net(p), desired);
  }

  /** The position after one round with a given target. */
  function Round(p: Position, desired: int, closing: Fill, opening: Fill): Position
    requires FillsAllowed(p, desired, closing, opening)
  {
    CloseWithinSide(p, desired);
    var plan := PlanFor(Net(p), desired);
    var p1 := if plan.close != 0 then Execute(p, CloseType(plan), closing.filled) else p;
    if plan.open == 0 || (plan.close != 0 && !closing.ok) then p1 else Execute(p1, OpenType(plan), opening.filled)
  }

  /** Which side each fill changes: closes take contracts off the side held, opens add to the desired side, and a failed
      close leaves nothing opened. */
  lemma RoundSides(p: Position, desired: int, closing: Fill, opening: Fill)
    requires FillsAllowed(p, desired, closing, opening)
    ensures var q, plan := Round(p, desired, closing, opening), PlanFor(Net(p), desired);
      && (Net(p) >= 0 && desired >= 0 ==> q.sell == p.sell) && (Net(p) <= 0 && desired <= 0 ==> q.buy == p.buy)
      && (Net(p) > 0 > desired ==> q.buy == p.buy - closing.filled && q.sell == p.sell + if closing.ok then opening.filled else 0)
      && (Net(p) < 0 < desired ==> q.sell == p.sell - closing.filled && q.buy == p.buy + if closing.ok then opening.filled else 0)
      && (plan.close != 0 && !closing.ok ==> q.buy <= p.buy && q.sell <= p.sell)
  {
    PlanExact(Net(p), desired);
    CloseWithinSide(p, desired);
  }

  /** Contracts filled in the round. */
  function Filled(p: Position, desired: int, closing: Fill, opening: Fill): nat {
    var plan := PlanFor(Net(p), desired);
    var closed := if plan.close != 0 then closing.filled else 0;
    closed + if plan.open == 0 || (plan.close != 0 && !closing.ok) then 0 else opening.filled
  }

  function Distance(p: Position, desired: int): nat { Abs(Net(p) - desired) }

  /** Whatever part of the orders is filled: the net position stays between where it was and the target, and comes closer
      by exactly the contracts filled; full fills land on the target. */
  lemma RoundApproaches(p: Position, desired: int, closing: Fill, opening: Fill)
    requires FillsAllowed(p, desired, closing, opening)
    ensures var q := Round(p, desired, closing, opening);
      && (Net(p) <= Net(q) <= desired || desired <= Net(q) <= Net(p))
      && Distance(q, desired) + Filled(p, desired, closing, opening) == Distance(p, desired)
    ensures var plan := PlanFor(Net(p), desired);
      (plan.close != 0 ==> closing.filled == Abs(plan.close) && closing.ok)
      && (plan.open != 0 ==> opening.filled == Abs(plan.open))
      ==> Net(Round(p, desired, closing, opening)) == desired
  {
    PlanExact(Net(p), desired);
    CloseWithinSide(p, desired);
  }

  // ------------------------------------------------------- repeated rounds

  predicate RoundsAllowed(p: Position, desired: int, rounds: seq<(Fill, Fill)>)
    decreases |rounds|
  {
    rounds == [] || (FillsAllowed(p, desired, rounds[0].0, rounds[0].1)
                     && RoundsAllowed(Round(p, desired, rounds[0].0, rounds[0].1), desired, rounds[1..]))
  }

  function Rounds(p: Position, desired: int, rounds: seq<(Fill, Fill)>): Position
    requires RoundsAllowed(p, desired, rounds)
    decreases |rounds|
  {
    if rounds == [] then p else Rounds(Round(p, desired, rounds[0].0, rounds[0].1), desired, rounds[1..])
  }

  function TotalFilled(p: Position, desired: int, rounds: seq<(Fill, Fill)>): nat
    requires RoundsAllowed(p, desired, rounds)
    decreases |rounds|
  {
    if rounds == [] then 0
    else
      var next := Round(p, desired, rounds[0].0, rounds[0].1);
      Filled(p, desired, rounds[0].0, rounds[0].1) + TotalFilled(next, desired, rounds[1..])
  }

  /** Over any number of rounds with a fixed target no contract is traded in vain: the distance falls by what was filled,
      so the total traded is bounded by the first distance, and the net position never leaves the interval. */
  lemma {:induction false} RoundsApproach(p: Position, desired: int, rounds: seq<(Fill, Fill)>)
    requires RoundsAllowed(p, desired, rounds)
    ensures var q := Rounds(p, desired, rounds);
      && Distance(q, desired) + TotalFilled(p, desired, rounds) == Distance(p, desired)
      && (Net(p) <= Net(q) <= desired || desired <= Net(q) <= Net(p))
    decreases |rounds|
  {
    if rounds != [] {
      var (c, o) := rounds[0];
      RoundApproaches(p, desired, c, o);
      hide Round, Filled, FillsAllowed;
      RoundsApproach(Round(p, desired, c, o), desired, rounds[1..]);
    }
  }

  /** Once on the target nothing is ordered any more. */
  lemma OnTargetRests(p: Position, closing: Fill, opening: Fill)
    ensures FillsAllowed(p, Net(p), closing, opening) && Round(p, Net(p), closing, opening) == p
  {
  }
}
