/**
 What a fill books and what average cost it leaves, case by case, and what the recorded round trips of a
 whole history are: closed quantity times price gain, less the fee.
 */
module RoundTrips {
  import opened Wrappers
  import opened Pnl

  predicate Closes(pos: real, f: Fill) {
    (f.side == Bid && pos < 0.0) || (f.side == Ask && pos > 0.0)
  }

  /** Size of a position without its sign. */
  function Held(pos: real): real { if pos < 0.0 then -pos else pos }

  /** The part of a fill that meets the position it closes. */
  function ClosedQuantity(pos: real, f: Fill): real {
    if f.size <= Held(pos) then f.size else Held(pos)
  }

  /** Price gain per share closed: bought back below the average, or sold above it. */
  function PriceGain(pos: real, avg: real, f: Fill): real {
    if pos < 0.0 then avg - f.price else f.price - avg
  }

  /** Average cost after a fill against the position: unchanged by a part, none after the whole, and the
      fill's own price for what goes beyond it. */
  function AverageAfterClosing(pos: real, avg: real, f: Fill): real {
    if f.size < Held(pos) then avg else if f.size == Held(pos) then 0.0 else f.price
  }

  /** Closed quantity times price gain, less the fee. */
  function ClosingProfit(pos: real, avg: real, f: Fill): real {
    ClosedQuantity(pos, f) * PriceGain(pos, avg, f) - f.fee
  }

  /** A fill against the position books exactly that. */
  lemma ClosingTrade(pos: real, avg: real, f: Fill)
    requires f.size > 0.0 && Closes(pos, f)
    ensures Trade(pos, avg, f).trip == Some(ClosingProfit(pos, avg, f))
    ensures Trade(pos, avg, f).avg == AverageAfterClosing(pos, avg, f)
  {
    var q := if f.side == Bid then Min(f.size, Abs(pos)) else Min(f.size, pos);
    assert q == ClosedQuantity(pos, f);
    assert ClosingPnl(q, PriceGain(pos, avg, f), f.fee) == ClosingProfit(pos, avg, f);
  }

  /** A fill with the position books nothing; the total cost grows by what was paid, or received. */
  lemma OpeningTrade(pos: real, avg: real, f: Fill)
    requires f.size > 0.0 && !Closes(pos, f)
    ensures Trade(pos, avg, f).trip == None
    ensures var outlay := if f.side == Bid then f.price * f.size + f.fee else f.price * f.size - f.fee;
            (Held(pos) + f.size) * Trade(pos, avg, f).avg == avg * Held(pos) + outlay
  {
    if f.side == Bid {
      QuotientTimes(avg * pos + (f.price * f.size + f.fee), pos + f.size);
    } else {
      QuotientTimes(avg * Abs(pos) + f.price * f.size - f.fee, Abs(pos - f.size));
    }
  }

  // ---- histories ----

  /** Signed size traded in an asset. */
  function NetSize(fills: seq<Fill>, asset: Asset): real {
    if fills == [] then 0.0
    else
      var before, f := NetSize(fills[..|fills| - 1], asset), fills[|fills| - 1];
      if f.asset != asset then before else if f.side == Bid then before + f.size else before - f.size
  }

  lemma {:induction false} PositionIsNetSize(fills: seq<Fill>, asset: Asset)
    ensures Get(AfterFills(fills).positions, asset) == NetSize(fills, asset)
  {
    if fills != [] {
      PositionIsNetSize(fills[..|fills| - 1], asset);
      FillMovesPositions(AfterFills(fills[..|fills| - 1]), fills[|fills| - 1]);
    }
  }

  predicate ClosesAt(fills: seq<Fill>, k: nat)
    requires k < |fills|
  {
    Closes(NetSize(fills[..k], fills[k].asset), fills[k])
  }

  /** The fills that close, or reduce, a position. */
  function ClosingFills(fills: seq<Fill>): (ks: seq<nat>)
    ensures forall j | 0 <= j < |ks| :: ks[j] < |fills|
  {
    if fills == [] then []
    else
      var n: nat := |fills| - 1;
      ClosingFills(fills[..n]) + if ClosesAt(fills, n) then [n] else []
  }

  lemma {:induction false} ClosingFillsAreAll(fills: seq<Fill>)
    ensures forall k: nat :: k in ClosingFills(fills) <==> k < |fills| && ClosesAt(fills, k)
    ensures forall i, j | 0 <= i < j < |ClosingFills(fills)| :: ClosingFills(fills)[i] < ClosingFills(fills)[j]
  {
    if fills != [] {
      var n: nat := |fills| - 1;
      ClosingFillsAreAll(fills[..n]);
      forall k: nat | k < n ensures ClosesAt(fills[..n], k) <==> ClosesAt(fills, k) {
        assert fills[..n][..k] == fills[..k];
      }
    }
  }

  /** The profit of fill k against the position and average cost it met. */
  function TripAt(fills: seq<Fill>, k: nat): real
    requires k < |fills|
  {
    ClosingProfit(NetSize(fills[..k], fills[k].asset), Get(AfterFills(fills[..k]).avgCosts, fills[k].asset), fills[k])
  }

  function Recorded(trip: Option<real>): seq<real> { if trip.Some? then [trip.value] else [] }

  lemma TradeRecords(pos: real, avg: real, f: Fill)
    requires f.size > 0.0
    ensures Recorded(Trade(pos, avg, f).trip) == if Closes(pos, f) then [ClosingProfit(pos, avg, f)] else []
  {
    if Closes(pos, f) {
      ClosingTrade(pos, avg, f);
    } else {
      OpeningTrade(pos, avg, f);
    }
  }

  lemma LegRecords(acc: Account, asset: Asset, leg: Leg)
    ensures WithLeg(acc, asset, leg).roundTrips == acc.roundTrips + Recorded(leg.trip)
  {
  }

  lemma LastTrip(fills: seq<Fill>)
    requires fills != [] && fills[|fills| - 1].size > 0.0
    ensures var n: nat := |fills| - 1;
            AfterFills(fills).roundTrips
            == AfterFills(fills[..n]).roundTrips + if ClosesAt(fills, n) then [TripAt(fills, n)] else []
  {
    var n: nat := |fills| - 1;
    var acc, f := AfterFills(fills[..n]), fills[n];
    PositionIsNetSize(fills[..n], f.asset);
    TradeRecords(Get(acc.positions, f.asset), Get(acc.avgCosts, f.asset), f);
    LegRecords(acc, f.asset, LegOf(acc, f));
  }

  lemma EarlierTrips(fills: seq<Fill>, n: nat, k: nat)
    requires k < n <= |fills|
    ensures TripAt(fills[..n], k) == TripAt(fills, k)
  {
    assert fills[..n][..k] == fills[..k];
  }

  /** The round trips of a history are those of its closing fills, one each, in order. */
  lemma {:induction false} RoundTripsAreClosings(fills: seq<Fill>)
    requires PositiveSizes(fills)
    ensures |AfterFills(fills).roundTrips| == |ClosingFills(fills)|
    ensures forall j | 0 <= j < |ClosingFills(fills)| ::
              AfterFills(fills).roundTrips[j] == TripAt(fills, ClosingFills(fills)[j])
  {
    if fills != [] {
      var n: nat := |fills| - 1;
      assert fills[n] in fills;
      RoundTripsAreClosings(fills[..n]);
      LastTrip(fills);
      var ks := ClosingFills(fills[..n]);
      forall j | 0 <= j < |ks| ensures TripAt(fills[..n], ks[j]) == TripAt(fills, ks[j]) {
        EarlierTrips(fills, n, ks[j]);
      }
    }
  }
}
