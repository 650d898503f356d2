/**
 Average-cost profit accounting of the backtest: long and short positions, partial closes and flips
 through zero. The main results are conservation laws over any sequence of fills.
 */
module Pnl {
  import opened Wrappers
  import opened RealSums

  type Asset = string

  datatype Side = Bid | Ask

  datatype Fill = Fill(asset: Asset, side: Side, size: real, price: real, fee: real)

  datatype Account = Account(
    positions: map<Asset, real>,
    avgCosts: map<Asset, real>,
    cumulativePnl: real,
    runningCapital: real,
    peakCapital: real,
    curve: seq<real>,
    roundTrips: seq<real>)

  const OPENING := Account(map[], map[], 0.0, 0.0, 0.0, [], [])

  function Get(m: map<Asset, real>, asset: Asset): real {
    if asset in m then m[asset] else 0.0
  }

  function Abs(x: real): real { if x < 0.0 then -x else x }

  function Min(x: real, y: real): real { if x <= y then x else y }

  /** Position and average cost of one asset, and the profit booked if the fill closed something. */
  datatype Leg = Leg(pos: real, avg: real, trip: Option<real>)

  function Quotient(total: real, size: real): real {
    if size == 0.0 then 0.0 else total / size
  }

  function ClosingPnl(size: real, gain: real, fee: real): real { size * gain - fee }

  /** Buying while flat or long: the fee is part of the cost. */
  function OpenLong(pos: real, avg: real, f: Fill): Leg {
    var newPos := pos + f.size;
    Leg(newPos, if newPos > 0.0 then Quotient(avg * pos + (f.price * f.size + f.fee), newPos) else 0.0, None)
  }

  function CoverShort(pos: real, avg: real, f: Fill): Leg {
    var cover := Min(f.size, Abs(pos));
    var remaining := f.size - cover;
    Reduced(pos + f.size, remaining, remaining, avg, f.price, ClosingPnl(cover, avg - f.price, f.fee))
  }

  /** Selling while flat or short: the fee lowers what was received. */
  function OpenShort(pos: real, avg: real, f: Fill): Leg {
    var newPos := pos - f.size;
    Leg(newPos, if newPos != 0.0 then Quotient(avg * Abs(pos) + f.price * f.size - f.fee, Abs(newPos)) else 0.0, None)
  }

  function CloseLong(pos: real, avg: real, f: Fill): Leg {
    var close := Min(f.size, pos);
    var remaining := f.size - close;
    Reduced(pos - f.size, remaining, -remaining, avg, f.price, ClosingPnl(close, f.price - avg, f.fee))
  }

  /** What one fill does to one asset. */
  function Trade(pos: real, avg: real, f: Fill): Leg {
    if f.side == Bid then
      if pos >= 0.0 then OpenLong(pos, avg, f) else CoverShort(pos, avg, f)
    else
      if pos <= 0.0 then OpenShort(pos, avg, f) else CloseLong(pos, avg, f)
  }

  /** After closing: what is left over flips to the other side at the fill price, else the average stays. */
  function Reduced(newPos: real, remaining: real, flipped: real, avg: real, price: real, pnl: real): Leg {
    if remaining > 0.0 then Leg(flipped, price, Some(pnl))
    else Leg(newPos, if newPos == 0.0 then 0.0 else avg, Some(pnl))
  }

  function Booked(trip: Option<real>): real {
    if trip.Some? then trip.value else 0.0
  }

  function Value(pos: real, avg: real): real { pos * avg }

  function Exposure(pos: real, avg: real): real { Abs(pos) * avg }

  /** The account once one asset's leg has been replaced. */
  function WithLeg(acc: Account, asset: Asset, leg: Leg): Account {
    var pos, avg := Get(acc.positions, asset), Get(acc.avgCosts, asset);
    var pnl := acc.cumulativePnl + Booked(leg.trip);
    var running := acc.runningCapital - Exposure(pos, avg) + Exposure(leg.pos, leg.avg);
    Account(acc.positions[asset := leg.pos], acc.avgCosts[asset := leg.avg], pnl, running,
            if running > acc.peakCapital then running else acc.peakCapital,
            acc.curve + [pnl],
            if leg.trip.Some? then acc.roundTrips + [leg.trip.value] else acc.roundTrips)
  }

  function LegOf(acc: Account, f: Fill): Leg {
    Trade(Get(acc.positions, f.asset), Get(acc.avgCosts, f.asset), f)
  }

  function ApplyFill(acc: Account, f: Fill): Account {
    WithLeg(acc, f.asset, LegOf(acc, f))
  }

  function AfterFills(fills: seq<Fill>): Account {
    if fills == [] then OPENING
    else ApplyFill(AfterFills(fills[..|fills| - 1]), fills[|fills| - 1])
  }

  lemma AfterOneMore(fills: seq<Fill>, f: Fill)
    ensures AfterFills(fills + [f]) == ApplyFill(AfterFills(fills), f)
  {
    assert (fills + [f])[..|fills|] == fills;
  }

  /** Money received for a fill, negative for money paid. */
  function CashFlow(f: Fill): real {
    if f.side == Bid then -(f.price * f.size + f.fee) else f.price * f.size - f.fee
  }

  function NetCash(fills: seq<Fill>): real {
    if fills == [] then 0.0 else NetCash(fills[..|fills| - 1]) + CashFlow(fills[|fills| - 1])
  }

  function Sum(xs: seq<real>): real {
    if xs == [] then 0.0 else Sum(xs[..|xs| - 1]) + xs[|xs| - 1]
  }

  ghost predicate PositiveSizes(fills: seq<Fill>) {
    forall f | f in fills :: f.size > 0.0
  }

  lemma QuotientTimes(total: real, size: real)
    requires size != 0.0
    ensures size * Quotient(total, size) == total
  {
  }

  /** The position always moves by the signed size, whichever branch is taken. */
  lemma TradeMovesPosition(pos: real, avg: real, f: Fill)
    ensures Trade(pos, avg, f).pos == if f.side == Bid then pos + f.size else pos - f.size
  {
  }

  function Moved(positions: map<Asset, real>, f: Fill): map<Asset, real> {
    positions[f.asset := if f.side == Bid then Get(positions, f.asset) + f.size else Get(positions, f.asset) - f.size]
  }

  lemma FillMovesPositions(acc: Account, f: Fill)
    ensures ApplyFill(acc, f).positions == Moved(acc.positions, f)
  {
    TradeMovesPosition(Get(acc.positions, f.asset), Get(acc.avgCosts, f.asset), f);
  }

  /** Profit booked by a fill is its cash flow plus the change of the position's cost value. */
  lemma TradeConserves(pos: real, avg: real, f: Fill)
    requires f.size > 0.0
    ensures var leg := Trade(pos, avg, f);
      Booked(leg.trip) == CashFlow(f) + Value(leg.pos, leg.avg) - Value(pos, avg)
  {
    var leg := Trade(pos, avg, f);
    if leg.trip == None {
      if f.side == Bid {
        QuotientTimes(avg * pos + (f.price * f.size + f.fee), leg.pos);
      } else {
        QuotientTimes(avg * Abs(pos) + f.price * f.size - f.fee, Abs(leg.pos));
      }
    }
  }

  /** Signed cost value of every position. */
  function CostValues(acc: Account): map<Asset, real> {
    map a | a in acc.positions :: Value(acc.positions[a], Get(acc.avgCosts, a))
  }

  /** Capital tied up in every position, long or short. */
  function Exposures(acc: Account): map<Asset, real> {
    map a | a in acc.positions :: Exposure(acc.positions[a], Get(acc.avgCosts, a))
  }

  lemma {:induction false} SameKeys(fills: seq<Fill>)
    ensures AfterFills(fills).positions.Keys == AfterFills(fills).avgCosts.Keys
  {
    if fills != [] { SameKeys(fills[..|fills| - 1]); }
  }

  lemma LegUpdatesCostValues(acc: Account, asset: Asset, leg: Leg)
    requires acc.positions.Keys == acc.avgCosts.Keys
    ensures Total(CostValues(WithLeg(acc, asset, leg)))
            == Total(CostValues(acc)) - Value(Get(acc.positions, asset), Get(acc.avgCosts, asset)) + Value(leg.pos, leg.avg)
  {
    assert CostValues(WithLeg(acc, asset, leg)) == CostValues(acc)[asset := Value(leg.pos, leg.avg)];
    TotalAfterUpdate(CostValues(acc), asset, Value(leg.pos, leg.avg));
  }

  lemma LegUpdatesExposures(acc: Account, asset: Asset, leg: Leg)
    requires acc.positions.Keys == acc.avgCosts.Keys
    ensures Total(Exposures(WithLeg(acc, asset, leg)))
            == Total(Exposures(acc)) - Exposure(Get(acc.positions, asset), Get(acc.avgCosts, asset)) + Exposure(leg.pos, leg.avg)
  {
    assert Exposures(WithLeg(acc, asset, leg)) == Exposures(acc)[asset := Exposure(leg.pos, leg.avg)];
    TotalAfterUpdate(Exposures(acc), asset, Exposure(leg.pos, leg.avg));
  }

  /** A leg whose booked profit is cash flow plus change in cost value keeps the account balanced. */
  lemma LegKeepsBalance(acc: Account, asset: Asset, leg: Leg, flow: real)
    requires acc.positions.Keys == acc.avgCosts.Keys
    requires Booked(leg.trip)
             == flow + Value(leg.pos, leg.avg) - Value(Get(acc.positions, asset), Get(acc.avgCosts, asset))
    ensures var acc' := WithLeg(acc, asset, leg);
      && acc'.cumulativePnl - Total(CostValues(acc')) == acc.cumulativePnl - Total(CostValues(acc)) + flow
      && acc'.cumulativePnl - Sum(acc'.roundTrips) == acc.cumulativePnl - Sum(acc.roundTrips)
  {
    LegUpdatesCostValues(acc, asset, leg);
    SumSnoc(acc.roundTrips, Booked(leg.trip));
  }

  lemma SumSnoc(xs: seq<real>, x: real)
    ensures Sum(xs + [x]) == Sum(xs) + x
  {
    assert (xs + [x])[..|xs|] == xs;
  }

  /** Realised profit is net cash flow plus the cost value of what is still held, and the sum of the round trips. */
  lemma {:induction false} PnlIsCashPlusCostValue(fills: seq<Fill>)
    requires PositiveSizes(fills)
    ensures AfterFills(fills).cumulativePnl == NetCash(fills) + Total(CostValues(AfterFills(fills)))
    ensures AfterFills(fills).cumulativePnl == Sum(AfterFills(fills).roundTrips)
  {
    if fills == [] {
      assert CostValues(OPENING) == map[];
    } else {
      var before, f := fills[..|fills| - 1], fills[|fills| - 1];
      assert f in fills;
      PnlIsCashPlusCostValue(before);
      SameKeys(before);
      var acc := AfterFills(before);
      TradeConserves(Get(acc.positions, f.asset), Get(acc.avgCosts, f.asset), f);
      LegKeepsBalance(acc, f.asset, LegOf(acc, f), CashFlow(f));
    }
  }

  /** The incrementally kept running capital is the capital tied up in all positions. */
  lemma {:induction false} RunningCapitalIsExposure(fills: seq<Fill>)
    ensures AfterFills(fills).runningCapital == Total(Exposures(AfterFills(fills)))
  {
    if fills == [] {
      assert Exposures(OPENING) == map[];
    } else {
      var acc, f := AfterFills(fills[..|fills| - 1]), fills[|fills| - 1];
      RunningCapitalIsExposure(fills[..|fills| - 1]);
      SameKeys(fills[..|fills| - 1]);
      LegUpdatesExposures(acc, f.asset, LegOf(acc, f));
    }
  }

  lemma {:induction false} PeakOverPrefixes(fills: seq<Fill>) returns (top: nat)
    ensures forall k | 0 <= k <= |fills| :: AfterFills(fills[..k]).runningCapital <= AfterFills(fills).peakCapital
    ensures top <= |fills| && AfterFills(fills[..top]).runningCapital == AfterFills(fills).peakCapital
  {
    assert fills[..|fills|] == fills;
    if fills == [] {
      top := 0;
    } else {
      var n := |fills| - 1;
      var before := fills[..n];
      top := PeakOverPrefixes(before);
      forall k | 0 <= k <= n ensures before[..k] == fills[..k] {
      }
      assert AfterFills(fills) == ApplyFill(AfterFills(before), fills[n]);
      if AfterFills(fills).runningCapital > AfterFills(before).peakCapital {
        top := n + 1;
      }
    }
  }

  /** Peak capital is the largest capital tied up after any prefix of the fills, including none. */
  lemma PeakIsLargestExposure(fills: seq<Fill>) returns (top: nat)
    ensures forall k | 0 <= k <= |fills| :: Total(Exposures(AfterFills(fills[..k]))) <= AfterFills(fills).peakCapital
    ensures top <= |fills| && Total(Exposures(AfterFills(fills[..top]))) == AfterFills(fills).peakCapital
  {
    top := PeakOverPrefixes(fills);
    forall k | 0 <= k <= |fills|
      ensures Total(Exposures(AfterFills(fills[..k]))) == AfterFills(fills[..k]).runningCapital
    {
      RunningCapitalIsExposure(fills[..k]);
    }
  }

  /** The curve has one point per fill: the profit realised up to and including it. */
  lemma {:induction false} CurveOverPrefixes(fills: seq<Fill>, k: nat)
    requires k < |fills|
    ensures |AfterFills(fills).curve| == |fills|
    ensures AfterFills(fills).curve[k] == AfterFills(fills[..k + 1]).cumulativePnl
  {
    var n := |fills| - 1;
    if n > 0 { CurveOverPrefixes(fills[..n], if k < n then k else 0); }
    if k < n {
      assert fills[..n][..k + 1] == fills[..k + 1];
    } else {
      assert fills[..n + 1] == fills;
    }
  }

  /** Positions below this size are treated as closed when marking to market. */
  const DUST := 0.000000001

  predicate IsOpen(position: real) { Abs(position) > DUST }

  /** Unrealised profit per asset: open positions with a known mid price only. */
  function Marks(positions: map<Asset, real>, avgCosts: map<Asset, real>, mids: map<Asset, real>): map<Asset, real> {
    map a | a in positions ::
      if IsOpen(positions[a]) && a in mids then Mark(positions[a], Get(avgCosts, a), mids[a]) else 0.0
  }

  function Mark(pos: real, avg: real, mid: real): real { pos * (mid - avg) }

  /** What each position is worth: the mid price where it is marked, the cost where it is not. */
  function MarketValues(acc: Account, mids: map<Asset, real>): map<Asset, real> {
    map a | a in acc.positions ::
      if !(-0.000000001 <= acc.positions[a] <= 0.000000001) && a in mids then acc.positions[a] * mids[a]
      else acc.positions[a] * Get(acc.avgCosts, a)
  }

  lemma MarkedOrAtCost(acc: Account, mids: map<Asset, real>, a: Asset)
    requires a in acc.positions
    ensures MarketValues(acc, mids)[a] == Marks(acc.positions, acc.avgCosts, mids)[a] + CostValues(acc)[a]
  {
  }

  /** Realised plus unrealised profit is cash plus the market value of the positions. */
  lemma TotalPnlIsCashPlusMarketValue(fills: seq<Fill>, mids: map<Asset, real>)
    requires PositiveSizes(fills)
    ensures var acc := AfterFills(fills);
      acc.cumulativePnl + Total(Marks(acc.positions, acc.avgCosts, mids)) == NetCash(fills) + Total(MarketValues(acc, mids))
  {
    var acc := AfterFills(fills);
    PnlIsCashPlusCostValue(fills);
    forall a | a in acc.positions
      ensures MarketValues(acc, mids)[a] == Marks(acc.positions, acc.avgCosts, mids)[a] + CostValues(acc)[a]
    {
      MarkedOrAtCost(acc, mids, a);
    }
    TotalOfSum(Marks(acc.positions, acc.avgCosts, mids), CostValues(acc), MarketValues(acc, mids));
  }

  /** The buying half of a loop turn of `_compute_pnl`, on the entries of the fill's asset. */
  method BuyOne(pos: real, avgCost: real, fill: Fill) returns (newPos: real, newAvg: real, trip: Option<real>)
    requires fill.side == Bid
    ensures Leg(newPos, newAvg, trip) == Trade(pos, avgCost, fill)
  {
    var qty := fill.size;
    newPos, newAvg, trip := pos + qty, avgCost, None;
    if pos >= 0.0 {
      var cost := fill.price * qty + fill.fee;
      newAvg := if newPos > 0.0 then Quotient(avgCost * pos + cost, newPos) else 0.0;
    } else {
      var coverQty := Min(qty, Abs(pos));
      trip := Some(ClosingPnl(coverQty, avgCost - fill.price, fill.fee));
      var remaining := qty - coverQty;
      if remaining > 0.0 {
        newPos, newAvg := remaining, fill.price;
      } else if newPos == 0.0 {
        newAvg := 0.0;
      }
    }
  }

  /** The selling half. */
  method SellOne(pos: real, avgCost: real, fill: Fill) returns (newPos: real, newAvg: real, trip: Option<real>)
    requires fill.side == Ask
    ensures Leg(newPos, newAvg, trip) == Trade(pos, avgCost, fill)
  {
    var qty := fill.size;
    newPos, newAvg, trip := pos - qty, avgCost, None;
    if pos <= 0.0 {
      newAvg := if newPos != 0.0 then Quotient(avgCost * Abs(pos) + fill.price * qty - fill.fee, Abs(newPos)) else 0.0;
    } else {
      var closeQty := Min(qty, pos);
      trip := Some(ClosingPnl(closeQty, fill.price - avgCost, fill.fee));
      var remaining := qty - closeQty;
      if remaining > 0.0 {
        newPos, newAvg := -remaining, fill.price;
      } else if newPos == 0.0 {
        newAvg := 0.0;
      }
    }
  }

  /** One turn of the loop of `_compute_pnl` on its dictionaries and accumulators. */
  method OneFill(acc: Account, fill: Fill) returns (next: Account)
    ensures next == ApplyFill(acc, fill)
  {
    var pos, avgCost := Get(acc.positions, fill.asset), Get(acc.avgCosts, fill.asset);
    next := acc.(runningCapital := acc.runningCapital - Exposure(pos, avgCost));
    var newPos, newAvg, trip;
    if fill.side == Bid {
      newPos, newAvg, trip := BuyOne(pos, avgCost, fill);
    } else {
      newPos, newAvg, trip := SellOne(pos, avgCost, fill);
    }
    next := next.(positions := next.positions[fill.asset := newPos], avgCosts := next.avgCosts[fill.asset := newAvg]);
    if trip.Some? {
      next := next.(cumulativePnl := next.cumulativePnl + trip.value, roundTrips := next.roundTrips + [trip.value]);
    }
    next := next.(curve := next.curve + [next.cumulativePnl],
                  runningCapital := next.runningCapital + Exposure(newPos, newAvg));
    if next.runningCapital > next.peakCapital {
      next := next.(peakCapital := next.runningCapital);
    }
  }

  /** `_compute_pnl`: all fills in order; without fills the curve is a single zero. */
  method ComputePnl(fills: seq<Fill>)
    returns (curve: seq<real>, positions: map<Asset, real>, avgCosts: map<Asset, real>,
             peakCapital: real, roundTrips: seq<real>)
    ensures fills == [] ==> curve == [0.0] && positions == map[] && avgCosts == map[] && peakCapital == 0.0 && roundTrips == []
    ensures fills != [] ==> var acc := AfterFills(fills);
      && curve == acc.curve && positions == acc.positions && avgCosts == acc.avgCosts
      && peakCapital == acc.peakCapital && roundTrips == acc.roundTrips
  {
    if fills == [] {
      return [0.0], map[], map[], 0.0, [];
    }
    var acc := OPENING;
    for i := 0 to |fills|
      invariant acc == AfterFills(fills[..i])
    {
      acc := OneFill(acc, fills[i]);
      assert fills[..i + 1][..i] == fills[..i];
    }
    assert fills[..|fills|] == fills;
    return acc.curve, acc.positions, acc.avgCosts, acc.peakCapital, acc.roundTrips;
  }

  /** The summation of `_compute_unrealized` over mids already looked up. */
  method ComputeUnrealized(positions: map<Asset, real>, avgCosts: map<Asset, real>, mids: map<Asset, real>)
    returns (unrealized: real)
    ensures unrealized == Total(Marks(positions, avgCosts, mids))
  {
    unrealized := 0.0;
    ghost var marks := Marks(positions, avgCosts, mids);
    ghost var left := marks;
    var todo := positions.Keys;
    while todo != {}
      invariant todo == left.Keys <= positions.Keys
      invariant forall a | a in left :: left[a] == marks[a]
      invariant unrealized + Total(left) == Total(marks)
      decreases |todo|
    {
      var asset :| asset in todo;
      TotalSplits(left, asset);
      if IsOpen(positions[asset]) && asset in mids {
        unrealized := unrealized + Mark(positions[asset], Get(avgCosts, asset), mids[asset]);
      }
      todo := todo - {asset};
      left := left - {asset};
    }
    assert left == map[];
  }
}
