/**
 When exits free capital. An exit that is larger than the long position opens a short, and what that
 short ties up depends on its price alone; these results say exactly when the budget survives that.
 */
module GateExits {
  import opened Pnl
  import opened CapitalGate
  import opened GatedPnl

  // ---- one exit ----

  /** Capital tied up in an asset after an exit at `price`. */
  function ExposureAfter(pos: real, avg: real, f: Fill, price: real): real {
    var leg := Trade(pos, avg, f.(price := price));
    Exposure(leg.pos, leg.avg)
  }

  /** An exit within the position leaves the rest at its cost; a larger one leaves the excess at the fill price. */
  lemma ExitExposure(pos: real, avg: real, f: Fill, price: real)
    requires f.side == Ask && f.size > 0.0 && pos > 0.0
    ensures ExposureAfter(pos, avg, f, price)
            == if f.size <= pos then Value(pos - f.size, avg) else Value(f.size - pos, price)
  {
  }

  /** An exit from a long position does not tie up more capital exactly if it fits the position, or sells the
      excess for no more than the position had cost. */
  lemma ExitFreesCapitalIff(pos: real, avg: real, f: Fill)
    requires f.side == Ask && f.size > 0.0 && pos > 0.0 && avg >= 0.0
    ensures ExposureAfter(pos, avg, f, f.price) <= Exposure(pos, avg)
            <==> f.size <= pos || Value(f.size - pos, f.price) <= Value(pos, avg)
  {
    ExitExposure(pos, avg, f, f.price);
    LongExposure(pos, avg);
    if f.size <= pos { SmallerPositionSmallerValue(pos, pos - f.size, avg); }
  }

  /** It does so at every price exactly if it fits the position. */
  lemma ExitFreesAtEveryPriceIff(pos: real, avg: real, f: Fill)
    requires f.side == Ask && f.size > 0.0 && pos > 0.0 && avg >= 0.0
    ensures (forall price | price >= 0.0 :: ExposureAfter(pos, avg, f, price) <= Exposure(pos, avg)) <==> f.size <= pos
  {
    forall price | price >= 0.0 && f.size <= pos ensures ExposureAfter(pos, avg, f, price) <= Exposure(pos, avg) {
      ExitFreesCapitalIff(pos, avg, f.(price := price));
    }
    if f.size > pos {
      var price := HighPrice(pos, avg, f, Exposure(pos, avg));
    }
  }

  lemma PriceForValue(size: real, y: real) returns (price: real)
    requires size > 0.0 && y >= 0.0
    ensures price >= 0.0 && Value(size, price) == y
  {
    price := y / size;
  }

  lemma ShortExposure(pos: real, avg: real, f: Fill, price: real)
    requires f.side == Ask && f.size > 0.0 && pos <= 0.0
    ensures ExposureAfter(pos, avg, f, price) == Exposure(pos, avg) + Value(f.size, price) - f.fee
  {
    QuotientTimes(avg * Abs(pos) + price * f.size - f.fee, Abs(pos - f.size));
  }

  /** An exit beyond the long position can tie up any amount of capital. */
  lemma HighPrice(pos: real, avg: real, f: Fill, x: real) returns (price: real)
    requires f.side == Ask && f.size > 0.0 && f.size > pos
    ensures price >= 0.0 && ExposureAfter(pos, avg, f, price) > x
  {
    if pos > 0.0 {
      price := PriceForValue(f.size - pos, if x < 0.0 then 0.0 else x + 1.0);
      ExitExposure(pos, avg, f, price);
    } else {
      var y := x + f.fee - Exposure(pos, avg) + 1.0;
      price := PriceForValue(f.size, if y < 0.0 then 0.0 else y);
      ShortExposure(pos, avg, f, price);
    }
  }

  // ---- streams ----

  ghost predicate BudgetHolds(fills: seq<Fill>, maxCapital: real) {
    AfterFills(Kept(fills, maxCapital)).peakCapital <= maxCapital + BuyFees(Kept(fills, maxCapital))
  }

  predicate Repriced(f: Fill, g: Fill) {
    if f.side == Ask then g.price >= 0.0 && g == f.(price := g.price) else g == f
  }

  /** The same stream with other prices on its exits. */
  ghost predicate ExitsRepriced(fills: seq<Fill>, other: seq<Fill>) {
    |fills| == |other| && forall i | 0 <= i < |fills| :: Repriced(fills[i], other[i])
  }

  lemma RepricedStep(g: Gate, f: Fill, f': Fill, maxCapital: real)
    requires Repriced(f, f')
    ensures Keeps(g, f', maxCapital) == Keeps(g, f, maxCapital)
    ensures Track(g, f') == Track(g, f) && PositiveFee(f') == PositiveFee(f)
  {
  }

  /** The gate decides alike whatever its exits are worth. */
  lemma {:induction false} GateIgnoresExitPrices(fills: seq<Fill>, other: seq<Fill>, maxCapital: real)
    requires ExitsRepriced(fills, other)
    ensures GateAfter(other, maxCapital) == GateAfter(fills, maxCapital)
    ensures BuyFees(Kept(other, maxCapital)) == BuyFees(Kept(fills, maxCapital))
    decreases |fills|
  {
    if fills != [] {
      var n := |fills| - 1;
      GateIgnoresExitPrices(fills[..n], other[..n], maxCapital);
      assert fills == fills[..n] + [fills[n]] && other == other[..n] + [other[n]];
      RepricedStep(GateAfter(fills[..n], maxCapital), fills[n], other[n], maxCapital);
      OneMoreKept(fills[..n], fills[n], maxCapital);
      OneMoreKept(other[..n], other[n], maxCapital);
    }
  }

  lemma OneMoreKept(before: seq<Fill>, f: Fill, maxCapital: real)
    ensures var g := GateAfter(before, maxCapital);
            var keeps := Keeps(g, f, maxCapital);
            && GateAfter(before + [f], maxCapital) == (if keeps then Track(g, f) else g)
            && BuyFees(Kept(before + [f], maxCapital))
               == BuyFees(Kept(before, maxCapital)) + if keeps then PositiveFee(f) else 0.0
  {
    LastFill(before, f, maxCapital);
    FeesOneMore(Kept(before, maxCapital), f);
  }

  lemma {:induction false} PeakNeverFalls(fills: seq<Fill>, k: nat, maxCapital: real)
    requires k <= |fills|
    ensures AfterFills(Kept(fills[..k], maxCapital)).peakCapital <= AfterFills(Kept(fills, maxCapital)).peakCapital
    decreases |fills|
  {
    if k < |fills| {
      var n := |fills| - 1;
      PeakNeverFalls(fills[..n], k, maxCapital);
      assert fills[..n][..k] == fills[..k] && fills == fills[..n] + [fills[n]];
      LastFill(fills[..n], fills[n], maxCapital);
      PeakAfterFill(Kept(fills[..n], maxCapital), fills[n]);
    } else {
      assert fills[..k] == fills;
    }
  }

  lemma ExposureOfRepriced(pos: real, avg: real, f: Fill, price: real)
    ensures ExposureAfter(pos, avg, f.(price := price), price) == ExposureAfter(pos, avg, f, price)
  {
  }

  lemma ExitTiesUpMore(before: seq<Fill>, f: Fill, maxCapital: real, bound: real) returns (price: real)
    requires f.side == Ask && f.size > 0.0 && f.size > Get(GateAfter(before, maxCapital).positions, f.asset)
    ensures price >= 0.0 && AfterFills(Kept(before + [f.(price := price)], maxCapital)).peakCapital > bound
  {
    SamePositions(before, maxCapital);
    var acc := AfterFills(Kept(before, maxCapital));
    var pos, avg := Get(acc.positions, f.asset), Get(acc.avgCosts, f.asset);
    price := HighPrice(pos, avg, f, bound - acc.runningCapital + Exposure(pos, avg));
    LastFill(before, f.(price := price), maxCapital);
    AfterOneMore(Kept(before, maxCapital), f.(price := price));
    PeakAfterFill(Kept(before, maxCapital), f.(price := price));
    ExposureOfRepriced(pos, avg, f, price);
  }

  function WithPrice(fills: seq<Fill>, k: nat, price: real): seq<Fill>
    requires k < |fills|
  {
    fills[k := fills[k].(price := price)]
  }

  lemma UpToRepriced(fills: seq<Fill>, k: nat, price: real)
    requires k < |fills|
    ensures WithPrice(fills, k, price)[..k + 1] == fills[..k] + [fills[k].(price := price)]
  {
  }

  lemma OneExitRepriced(fills: seq<Fill>, k: nat, price: real)
    requires PositiveFills(fills) && k < |fills| && fills[k].side == Ask && price >= 0.0
    ensures ExitsRepriced(fills, WithPrice(fills, k, price))
  {
    var other := WithPrice(fills, k, price);
    forall i | 0 <= i < |fills| ensures Repriced(fills[i], other[i]) {
      assert fills[i] in fills;
    }
  }

  /** A single exit beyond the long position breaks the budget at some price of its own. */
  lemma OversellBreaksBudget(fills: seq<Fill>, k: nat, maxCapital: real) returns (price: real)
    requires PositiveFills(fills) && k < |fills| && fills[k].side == Ask
    requires fills[k].size > Get(GateAfter(fills[..k], maxCapital).positions, fills[k].asset)
    ensures price >= 0.0 && ExitsRepriced(fills, WithPrice(fills, k, price))
    ensures !BudgetHolds(WithPrice(fills, k, price), maxCapital)
  {
    var f, before := fills[k], fills[..k];
    assert f in fills;
    price := ExitTiesUpMore(before, f, maxCapital, maxCapital + BuyFees(Kept(fills, maxCapital)));
    var other := WithPrice(fills, k, price);
    UpToRepriced(fills, k, price);
    PeakNeverFalls(other, k + 1, maxCapital);
    OneExitRepriced(fills, k, price);
    GateIgnoresExitPrices(fills, other, maxCapital);
  }

  lemma RepricedKeepsConditions(fills: seq<Fill>, other: seq<Fill>, maxCapital: real, unit: real)
    requires PositiveFills(fills) && UnitSizes(fills, unit) && ExitsRepriced(fills, other)
    ensures PositiveFills(other) && UnitSizes(other, unit)
    ensures NeverOversells(fills, maxCapital) ==> NeverOversells(other, maxCapital)
  {
    forall g | g in other ensures g.size > 0.0 && g.price >= 0.0 && WholeUnits(g.size, unit) {
      var i :| 0 <= i < |other| && other[i] == g;
      assert fills[i] in fills && Repriced(fills[i], other[i]);
    }
    if NeverOversells(fills, maxCapital) {
      forall k | 0 <= k < |other| && other[k].side == Ask
        ensures other[k].size <= Get(GateAfter(other[..k], maxCapital).positions, other[k].asset)
      {
        assert Repriced(fills[k], other[k]);
        GateIgnoresExitPrices(fills[..k], other[..k], maxCapital);
      }
    }
  }

  lemma RepricedKeepsBudget(fills: seq<Fill>, other: seq<Fill>, maxCapital: real, unit: real)
    requires PositiveFills(fills) && UnitSizes(fills, unit) && unit >= SNAP && maxCapital >= 0.0
    requires NeverOversells(fills, maxCapital) && ExitsRepriced(fills, other)
    ensures BudgetHolds(other, maxCapital)
  {
    RepricedKeepsConditions(fills, other, maxCapital, unit);
    GateEnforcesBudget(other, maxCapital, unit);
  }

  /** The budget holds whatever the exits are worth exactly when no kept exit exceeds the long position. */
  lemma BudgetAtAllExitPricesIff(fills: seq<Fill>, maxCapital: real, unit: real)
    requires PositiveFills(fills) && UnitSizes(fills, unit) && unit >= SNAP && maxCapital >= 0.0
    ensures (forall other | ExitsRepriced(fills, other) :: BudgetHolds(other, maxCapital))
            <==> NeverOversells(fills, maxCapital)
  {
    if NeverOversells(fills, maxCapital) {
      forall other | ExitsRepriced(fills, other) ensures BudgetHolds(other, maxCapital) {
        RepricedKeepsBudget(fills, other, maxCapital, unit);
      }
    } else {
      var k :| 0 <= k < |fills| && fills[k].side == Ask
               && fills[k].size > Get(GateAfter(fills[..k], maxCapital).positions, fills[k].asset);
      var price := OversellBreaksBudget(fills, k, maxCapital);
    }
  }

  lemma LastRepriced(before: seq<Fill>, f: Fill, price: real)
    ensures WithPrice(before + [f], |before|, price) == before + [f.(price := price)]
  {
  }

  lemma RepricedExitKeepsBudget(fills: seq<Fill>, k: nat, price: real, maxCapital: real, unit: real)
    requires PositiveFills(fills) && UnitSizes(fills, unit) && unit >= SNAP && maxCapital >= 0.0
    requires NeverOversells(fills, maxCapital) && k < |fills| && fills[k].side == Ask && price >= 0.0
    ensures BudgetHolds(WithPrice(fills, k, price), maxCapital)
  {
    OneExitRepriced(fills, k, price);
    RepricedKeepsBudget(fills, WithPrice(fills, k, price), maxCapital, unit);
  }

  lemma OversizedExitBreaksBudget(before: seq<Fill>, f: Fill, maxCapital: real) returns (price: real)
    requires PositiveFills(before + [f]) && f.side == Ask
    requires f.size > Get(GateAfter(before, maxCapital).positions, f.asset)
    ensures price >= 0.0 && !BudgetHolds(before + [f.(price := price)], maxCapital)
  {
    var fills := before + [f];
    assert fills[..|before|] == before;
    price := OversellBreaksBudget(fills, |before|, maxCapital);
    LastRepriced(before, f, price);
  }

  /** After a stream that never oversells, the budget survives every price of the next exit exactly if its
      size is within the long position. */
  lemma NextExitKeepsBudgetIff(before: seq<Fill>, f: Fill, maxCapital: real, unit: real)
    requires PositiveFills(before + [f]) && UnitSizes(before + [f], unit) && unit >= SNAP && maxCapital >= 0.0
    requires NeverOversells(before, maxCapital) && f.side == Ask
    ensures (forall price | price >= 0.0 :: BudgetHolds(before + [f.(price := price)], maxCapital))
            <==> f.size <= Get(GateAfter(before, maxCapital).positions, f.asset)
  {
    if f.size <= Get(GateAfter(before, maxCapital).positions, f.asset) {
      OneMoreNeverOversells(before, f, maxCapital);
      forall price | price >= 0.0 ensures BudgetHolds(before + [f.(price := price)], maxCapital) {
        LastRepriced(before, f, price);
        RepricedExitKeepsBudget(before + [f], |before|, price, maxCapital, unit);
      }
    } else {
      var price := OversizedExitBreaksBudget(before, f, maxCapital);
    }
  }

  lemma OneMoreNeverOversells(before: seq<Fill>, f: Fill, maxCapital: real)
    requires NeverOversells(before, maxCapital)
    requires f.side == Ask ==> f.size <= Get(GateAfter(before, maxCapital).positions, f.asset)
    ensures NeverOversells(before + [f], maxCapital)
  {
    var fills := before + [f];
    forall k | 0 <= k < |fills| && fills[k].side == Ask
      ensures fills[k].size <= Get(GateAfter(fills[..k], maxCapital).positions, fills[k].asset)
    {
      assert fills[..k] == before[..k];
      if k == |before| { assert before[..k] == before; }
    }
  }
}
