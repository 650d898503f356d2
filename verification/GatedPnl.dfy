/**
 What the capital gate guarantees about the profit accounting that runs on the fills it kept. The gate
 ignores fees, the accounting folds them into average costs; they agree up to the buy fees.
 */
module GatedPnl {
  import opened RealSums
  import opened Pnl
  import opened CapitalGate

  function PositiveFee(f: Fill): real {
    if f.side == Bid && f.fee > 0.0 then f.fee else 0.0
  }

  /** Buy fees charged (rebates not counted), in total and per asset. */
  function BuyFees(fills: seq<Fill>): real {
    if fills == [] then 0.0 else BuyFees(fills[..|fills| - 1]) + PositiveFee(fills[|fills| - 1])
  }

  function FeesByAsset(fills: seq<Fill>): map<Asset, real> {
    if fills == [] then map[]
    else
      var before, f := FeesByAsset(fills[..|fills| - 1]), fills[|fills| - 1];
      before[f.asset := Get(before, f.asset) + PositiveFee(f)]
  }

  lemma {:induction false} FeesAddUp(fills: seq<Fill>)
    ensures Total(FeesByAsset(fills)) == BuyFees(fills)
  {
    if fills != [] {
      var before, f := fills[..|fills| - 1], fills[|fills| - 1];
      FeesAddUp(before);
      TotalAfterUpdate(FeesByAsset(before), f.asset, Get(FeesByAsset(before), f.asset) + PositiveFee(f));
    }
  }

  predicate IsUnits(x: real, unit: real, k: int) { x == k as real * unit }

  ghost predicate WholeUnits(x: real, unit: real) { exists k :: IsUnits(x, unit, k) }

  ghost predicate UnitSizes(fills: seq<Fill>, unit: real) {
    forall f | f in fills :: WholeUnits(f.size, unit)
  }

  lemma UnitsCombine(x: real, y: real, unit: real)
    requires WholeUnits(x, unit) && WholeUnits(y, unit)
    ensures WholeUnits(x + y, unit) && WholeUnits(x - y, unit)
  {
    var j :| IsUnits(x, unit, j);
    var k :| IsUnits(y, unit, k);
    assert IsUnits(x + y, unit, j + k) && IsUnits(x - y, unit, j - k);
  }

  /** A whole number of units that the gate would snap to zero is zero. */
  lemma SnappedUnitsAreZero(x: real, unit: real)
    requires WholeUnits(x, unit) && unit >= SNAP && Abs(x) < SNAP
    ensures x == 0.0
  {
    var k :| IsUnits(x, unit, k);
    UnitsAtLeast(k, unit);
  }

  lemma UnitsAtLeast(k: int, unit: real)
    requires unit > 0.0
    ensures k >= 1 ==> k as real * unit >= unit
    ensures k <= -1 ==> k as real * unit <= -unit
  {
  }

  /** The accounting's books and the gate's books of one asset, `fees` being its buy fees so far. */
  predicate EntryAgrees(pos: real, avg: real, gatePos: real, gateAvg: real, fees: real) {
    pos == gatePos >= 0.0 && fees >= 0.0 && Value(pos, avg) <= Value(pos, gateAvg) + fees
  }

  ghost predicate Agrees(acc: Account, g: Gate, fees: map<Asset, real>, unit: real) {
    && acc.positions.Keys == acc.avgCosts.Keys == g.positions.Keys == g.avgCosts.Keys == fees.Keys
    && forall a | a in acc.positions ::
         && EntryAgrees(acc.positions[a], acc.avgCosts[a], g.positions[a], g.avgCosts[a], fees[a])
         && WholeUnits(acc.positions[a], unit)
  }

  lemma BuyAgrees(pos: real, avg: real, gateAvg: real, fees: real, f: Fill)
    requires EntryAgrees(pos, avg, pos, gateAvg, fees) && f.side == Bid && f.size > 0.0
    ensures var leg := Trade(pos, avg, f);
      EntryAgrees(leg.pos, leg.avg, pos + f.size, Quotient(Value(pos, gateAvg) + Outlay(f), pos + f.size), fees + PositiveFee(f))
  {
    var newPos := pos + f.size;
    QuotientTimes(avg * pos + (f.price * f.size + f.fee), newPos);
    QuotientTimes(Value(pos, gateAvg) + Outlay(f), newPos);
  }

  lemma ReducedValue(x: real, x': real, p: real, g: real, fees: real)
    requires 0.0 <= x' <= x && fees >= 0.0 && Value(x, p) <= Value(x, g) + fees
    ensures Value(x', p) <= Value(x', g) + fees
  {
    var d := p - g;
    assert Value(x, p) - Value(x, g) == x * d && Value(x', p) - Value(x', g) == x' * d;
    if d <= 0.0 {
      assert x' * d <= 0.0;
    } else {
      assert x' * d <= x * d;
    }
  }

  lemma SellAgrees(pos: real, avg: real, gateAvg: real, fees: real, f: Fill)
    requires EntryAgrees(pos, avg, pos, gateAvg, fees) && f.side == Ask && 0.0 < f.size <= pos
    ensures var leg, newPos := Trade(pos, avg, f), pos - f.size;
      EntryAgrees(leg.pos, leg.avg, newPos, if newPos == 0.0 then 0.0 else gateAvg, fees)
  {
    ReducedValue(pos, pos - f.size, avg, gateAvg, fees);
  }

  lemma KeptFillAgrees(acc: Account, g: Gate, fees: map<Asset, real>, unit: real, f: Fill)
    requires Agrees(acc, g, fees, unit) && unit >= SNAP && f.size > 0.0 && WholeUnits(f.size, unit)
    requires f.side == Ask ==> f.size <= Get(g.positions, f.asset)
    ensures Agrees(ApplyFill(acc, f), Track(g, f), fees[f.asset := Get(fees, f.asset) + PositiveFee(f)], unit)
  {
    var pos, avg, gateAvg, paid := Get(acc.positions, f.asset), Get(acc.avgCosts, f.asset), Get(g.avgCosts, f.asset), Get(fees, f.asset);
    assert EntryAgrees(pos, avg, pos, gateAvg, paid);
    assert WholeUnits(pos, unit) by {
      if f.asset !in acc.positions { assert IsUnits(0.0, unit, 0); }
    }
    UnitsCombine(pos, f.size, unit);
    TradeMovesPosition(pos, avg, f);
    if f.side == Bid {
      BuyAgrees(pos, avg, gateAvg, paid, f);
    } else {
      SellAgrees(pos, avg, gateAvg, paid, f);
      if Abs(pos - f.size) < SNAP { SnappedUnitsAreZero(pos - f.size, unit); }
    }
    OtherEntriesAgree(acc, g, fees, unit, f, LegOf(acc, f));
  }

  /** Replacing the entries of one asset leaves the agreement of all others alone. */
  lemma OtherEntriesAgree(acc: Account, g: Gate, fees: map<Asset, real>, unit: real, f: Fill, leg: Leg)
    requires Agrees(acc, g, fees, unit) && WholeUnits(leg.pos, unit) && f.asset in Track(g, f).avgCosts
    requires EntryAgrees(leg.pos, leg.avg, Track(g, f).positions[f.asset], Track(g, f).avgCosts[f.asset],
                         Get(fees, f.asset) + PositiveFee(f))
    ensures Agrees(WithLeg(acc, f.asset, leg), Track(g, f), fees[f.asset := Get(fees, f.asset) + PositiveFee(f)], unit)
  {
  }

  lemma LongExposure(pos: real, avg: real)
    requires pos >= 0.0
    ensures Exposure(pos, avg) == Value(pos, avg)
  {
  }

  /** Capital tied up in the accounting exceeds the gate's figure by at most the buy fees. */
  lemma ExposureWithinDeployedPlusFees(acc: Account, g: Gate, fees: map<Asset, real>, unit: real)
    requires Agrees(acc, g, fees, unit)
    ensures Total(Exposures(acc)) <= Deployed(g) + Total(fees)
  {
    var sum := map a | a in fees :: Deployments(g)[a] + fees[a];
    forall a | a in acc.positions ensures Exposures(acc)[a] <= sum[a] {
      assert EntryAgrees(acc.positions[a], acc.avgCosts[a], g.positions[a], g.avgCosts[a], fees[a]);
      LongExposure(acc.positions[a], acc.avgCosts[a]);
      LongExposure(g.positions[a], g.avgCosts[a]);
    }
    TotalMonotone(Exposures(acc), sum);
    TotalOfSum(Deployments(g), fees, sum);
  }

  ghost predicate WithinBudget(fills: seq<Fill>, maxCapital: real, unit: real) {
    var kept := Kept(fills, maxCapital);
    && Agrees(AfterFills(kept), GateAfter(fills, maxCapital), FeesByAsset(kept), unit)
    && AfterFills(kept).peakCapital <= maxCapital + BuyFees(kept)
  }

  lemma KeptFillStaysWithinBudget(before: seq<Fill>, f: Fill, maxCapital: real, unit: real)
    requires WithinBudget(before, maxCapital, unit) && unit >= SNAP && f.size > 0.0 && WholeUnits(f.size, unit)
    requires Keeps(GateAfter(before, maxCapital), f, maxCapital)
    requires f.side == Ask ==> f.size <= Get(GateAfter(before, maxCapital).positions, f.asset)
    requires Deployed(Track(GateAfter(before, maxCapital), f)) <= maxCapital
    ensures WithinBudget(before + [f], maxCapital, unit)
  {
    var g, kept := GateAfter(before, maxCapital), Kept(before, maxCapital);
    LastFill(before, f, maxCapital);
    AgreementOneMore(kept, g, unit, f);
    PeakStaysWithin(kept, f, Track(g, f), maxCapital, unit);
  }

  lemma AgreementOneMore(kept: seq<Fill>, g: Gate, unit: real, f: Fill)
    requires Agrees(AfterFills(kept), g, FeesByAsset(kept), unit)
    requires unit >= SNAP && f.size > 0.0 && WholeUnits(f.size, unit)
    requires f.side == Ask ==> f.size <= Get(g.positions, f.asset)
    ensures Agrees(AfterFills(kept + [f]), Track(g, f), FeesByAsset(kept + [f]), unit)
  {
    AfterOneMore(kept, f);
    FeesOneMore(kept, f);
    KeptFillAgrees(AfterFills(kept), g, FeesByAsset(kept), unit, f);
  }

  lemma FeesOneMore(fills: seq<Fill>, f: Fill)
    ensures FeesByAsset(fills + [f]) == FeesByAsset(fills)[f.asset := Get(FeesByAsset(fills), f.asset) + PositiveFee(f)]
    ensures BuyFees(fills + [f]) == BuyFees(fills) + PositiveFee(f) >= BuyFees(fills)
  {
    assert (fills + [f])[..|fills|] == fills;
  }

  lemma PeakStaysWithin(kept: seq<Fill>, f: Fill, g: Gate, maxCapital: real, unit: real)
    requires Agrees(AfterFills(kept + [f]), g, FeesByAsset(kept + [f]), unit)
    requires Deployed(g) <= maxCapital && AfterFills(kept).peakCapital <= maxCapital + BuyFees(kept)
    ensures AfterFills(kept + [f]).peakCapital <= maxCapital + BuyFees(kept + [f])
  {
    ExposureWithinDeployedPlusFees(AfterFills(kept + [f]), g, FeesByAsset(kept + [f]), unit);
    FeesAddUp(kept + [f]);
    FeesOneMore(kept, f);
    RunningCapitalIsExposure(kept + [f]);
    PeakAfterFill(kept, f);
  }

  lemma LastFill(before: seq<Fill>, f: Fill, maxCapital: real)
    ensures var g, fills := GateAfter(before, maxCapital), before + [f];
      if Keeps(g, f, maxCapital)
      then GateAfter(fills, maxCapital) == Track(g, f) && Kept(fills, maxCapital) == Kept(before, maxCapital) + [f]
      else GateAfter(fills, maxCapital) == g && Kept(fills, maxCapital) == Kept(before, maxCapital)
  {
    assert (before + [f])[..|before|] == before;
  }

  lemma {:induction false} BooksAgree(fills: seq<Fill>, maxCapital: real, unit: real)
    requires PositiveFills(fills) && UnitSizes(fills, unit) && unit >= SNAP && maxCapital >= 0.0
    requires NeverOversells(fills, maxCapital)
    ensures WithinBudget(fills, maxCapital, unit)
  {
    if fills != [] {
      var n := |fills| - 1;
      var before, f := fills[..n], fills[n];
      assert f in fills && fills == before + [f];
      PrefixNeverOversells(fills, n, maxCapital);
      BooksAgree(before, maxCapital, unit);
      DeployedWithinBudget(fills, maxCapital);
      LastFill(before, f, maxCapital);
      if Keeps(GateAfter(before, maxCapital), f, maxCapital) {
        KeptFillStaysWithinBudget(before, f, maxCapital, unit);
      }
    }
  }

  lemma PeakAfterFill(fills: seq<Fill>, f: Fill)
    ensures var before, after := AfterFills(fills), AfterFills(fills + [f]);
      after.peakCapital == if after.runningCapital > before.peakCapital then after.runningCapital else before.peakCapital
  {
    assert (fills + [f])[..|fills|] == fills;
  }

  /**
   The budget holds for the gate after every fill and, up to the buy fees, for the accounting on the
   fills it kept, on every stream where no kept sell exceeds the long position.
   */
  lemma GateEnforcesBudget(fills: seq<Fill>, maxCapital: real, unit: real)
    requires PositiveFills(fills) && UnitSizes(fills, unit) && unit >= SNAP && maxCapital >= 0.0
    requires NeverOversells(fills, maxCapital)
    ensures forall k | 0 <= k <= |fills| :: Deployed(GateAfter(fills[..k], maxCapital)) <= maxCapital
    ensures AfterFills(Kept(fills, maxCapital)).peakCapital <= maxCapital + BuyFees(Kept(fills, maxCapital))
    ensures forall a | a in AfterFills(Kept(fills, maxCapital)).positions :: AfterFills(Kept(fills, maxCapital)).positions[a] >= 0.0
  {
    BooksAgree(fills, maxCapital, unit);
    forall k | 0 <= k <= |fills| ensures Deployed(GateAfter(fills[..k], maxCapital)) <= maxCapital {
      PrefixNeverOversells(fills, k, maxCapital);
      DeployedWithinBudget(fills[..k], maxCapital);
    }
  }

  lemma TrackMovesPositions(g: Gate, f: Fill)
    ensures Track(g, f).positions == Moved(g.positions, f)
  {
  }

  /** Gate and accounting always hold the same positions. */
  lemma {:induction false} SamePositions(fills: seq<Fill>, maxCapital: real)
    ensures AfterFills(Kept(fills, maxCapital)).positions == GateAfter(fills, maxCapital).positions
  {
    if fills != [] {
      var before, f := fills[..|fills| - 1], fills[|fills| - 1];
      SamePositions(before, maxCapital);
      assert fills == before + [f];
      LastFill(before, f, maxCapital);
      if Keeps(GateAfter(before, maxCapital), f, maxCapital) {
        AfterOneMore(Kept(before, maxCapital), f);
        FillMovesPositions(AfterFills(Kept(before, maxCapital)), f);
        TrackMovesPositions(GateAfter(before, maxCapital), f);
      }
    }
  }

  predicate NonNegative(positions: map<Asset, real>) {
    forall a | a in positions :: positions[a] >= 0.0
  }

  ghost predicate NeverShort(fills: seq<Fill>, maxCapital: real) {
    forall k | 0 <= k <= |fills| :: NonNegative(AfterFills(Kept(fills[..k], maxCapital)).positions)
  }

  lemma SellWithinPosition(fills: seq<Fill>, k: nat, maxCapital: real)
    requires k < |fills| && fills[k].side == Ask
    requires NonNegative(GateAfter(fills[..k + 1], maxCapital).positions)
    ensures fills[k].size <= Get(GateAfter(fills[..k], maxCapital).positions, fills[k].asset)
  {
    assert fills[..k + 1] == fills[..k] + [fills[k]];
    LastFill(fills[..k], fills[k], maxCapital);
    assert Track(GateAfter(fills[..k], maxCapital), fills[k]).positions[fills[k].asset] >= 0.0;
  }

  /** The accounting on the kept fills never goes short exactly when no kept sell exceeds the gate's long position. */
  lemma NeverShortIffNeverOversells(fills: seq<Fill>, maxCapital: real)
    requires PositiveFills(fills) && maxCapital >= 0.0
    ensures NeverShort(fills, maxCapital) <==> NeverOversells(fills, maxCapital)
  {
    forall k | 0 <= k <= |fills|
      ensures AfterFills(Kept(fills[..k], maxCapital)).positions == GateAfter(fills[..k], maxCapital).positions
    {
      SamePositions(fills[..k], maxCapital);
    }
    if NeverOversells(fills, maxCapital) {
      forall k | 0 <= k <= |fills| ensures NonNegative(GateAfter(fills[..k], maxCapital).positions) {
        PrefixNeverOversells(fills, k, maxCapital);
        DeployedWithinBudget(fills[..k], maxCapital);
      }
    } else {
      var k :| 0 <= k < |fills| && fills[k].side == Ask
               && fills[k].size > Get(GateAfter(fills[..k], maxCapital).positions, fills[k].asset);
      if NonNegative(GateAfter(fills[..k + 1], maxCapital).positions) {
        SellWithinPosition(fills, k, maxCapital);
      }
    }
  }

  /**
   Where a kept sell does exceed it, the budget is not enforced: when an entry is dropped, its exit
   still passes, and the accounting opens a short worth the whole sale, whatever the budget.
   */
  lemma OrphanedExitIgnoresBudget(entry: Fill, exit: Fill, maxCapital: real)
    requires entry.side == Bid && exit.side == Ask && entry.asset == exit.asset
    requires Outlay(entry) > maxCapital >= 0.0 && exit.size > 0.0 && exit.price * exit.size - exit.fee >= 0.0
    ensures Kept([entry, exit], maxCapital) == [exit]
    ensures AfterFills([exit]).peakCapital == exit.price * exit.size - exit.fee
  {
    assert Deployments(Gate(map[], map[])) == map[];
    LastFill([], entry, maxCapital);
    assert [] + [entry] == [entry] && [entry] + [exit] == [entry, exit];
    LastFill([entry], exit, maxCapital);
    var proceeds := exit.price * exit.size - exit.fee;
    AfterOneMore([], exit);
    assert [] + [exit] == [exit];
    FirstShort(exit, proceeds);
    FirstLegPeak(exit.asset, LegOf(OPENING, exit));
  }

  lemma FirstLegPeak(asset: Asset, leg: Leg)
    requires Exposure(leg.pos, leg.avg) >= 0.0
    ensures WithLeg(OPENING, asset, leg).peakCapital == Exposure(leg.pos, leg.avg)
  {
  }

  lemma FirstShort(exit: Fill, proceeds: real)
    requires exit.side == Ask && exit.size > 0.0 && proceeds == exit.price * exit.size - exit.fee
    ensures LegOf(OPENING, exit).pos == -exit.size
    ensures Exposure(LegOf(OPENING, exit).pos, LegOf(OPENING, exit).avg) == proceeds
  {
    QuotientTimes(proceeds, exit.size);
  }
}
