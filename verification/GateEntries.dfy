/** Which fills the capital gate drops: exactly the entries that do not fit the budget any more. */
module GateEntries {
  import opened RealSums
  import opened Pnl
  import opened RoundTrips
  import opened CapitalGate
  import opened GatedPnl

  /** Money tied up in the gate's books: the sum of |position| * average cost. */
  ghost function TiedUp(g: Gate): real {
    Total(map a | a in g.positions :: CostHeld(g.positions[a], if a in g.avgCosts then g.avgCosts[a] else 0.0))
  }

  function CostHeld(pos: real, avg: real): real { Held(pos) * avg }

  lemma CostHeldIsExposure(pos: real, avg: real)
    ensures Exposure(pos, avg) == CostHeld(pos, avg)
  {
  }

  lemma TiedUpIsDeployed(g: Gate)
    ensures TiedUp(g) == Deployed(g)
  {
    var held := map a | a in g.positions :: CostHeld(g.positions[a], if a in g.avgCosts then g.avgCosts[a] else 0.0);
    forall a | a in g.positions ensures Deployments(g)[a] == held[a] {
      CostHeldIsExposure(g.positions[a], Get(g.avgCosts, a));
    }
    assert Deployments(g) == held;
  }

  /** A kept fill moves the gate's position by its signed size; an entry averages its price in, an exit leaves
      the average unless nothing is left. */
  lemma GateBooksOf(g: Gate, f: Fill)
    requires f.size > 0.0 && Get(g.positions, f.asset) >= 0.0
    ensures var pos, cost, g' := Get(g.positions, f.asset), Get(g.avgCosts, f.asset), Track(g, f);
            && g'.positions == g.positions[f.asset := if f.side == Bid then pos + f.size else pos - f.size]
            && (f.side == Bid ==> (pos + f.size) * g'.avgCosts[f.asset] == pos * cost + f.size * f.price)
            && (f.side == Ask ==> Get(g'.avgCosts, f.asset) == if -0.000000001 < pos - f.size < 0.000000001 then 0.0 else cost)
            && forall a | a != f.asset :: Get(g'.avgCosts, a) == Get(g.avgCosts, a)
  {
    if f.side == Bid {
      QuotientTimes(Value(Get(g.positions, f.asset), Get(g.avgCosts, f.asset)) + Outlay(f), Get(g.positions, f.asset) + f.size);
    }
  }

  /** After any stream the next fill is dropped exactly if it is a buy and what is tied up plus its own
      size * price exceeds the budget; everything else is kept. */
  lemma DroppedIffOverBudget(before: seq<Fill>, f: Fill, maxCapital: real)
    ensures Kept(before + [f], maxCapital)
            == if f.side == Bid && TiedUp(GateAfter(before, maxCapital)) + f.size * f.price > maxCapital
               then Kept(before, maxCapital) else Kept(before, maxCapital) + [f]
  {
    TiedUpIsDeployed(GateAfter(before, maxCapital));
    LastFill(before, f, maxCapital);
  }

  /** What all buys of a stream cost. */
  function BuyOutlays(fills: seq<Fill>): real {
    if fills == [] then 0.0
    else
      var f := fills[|fills| - 1];
      BuyOutlays(fills[..|fills| - 1]) + if f.side == Bid then f.size * f.price else 0.0
  }

  lemma OutlaysOneMore(before: seq<Fill>, f: Fill)
    ensures BuyOutlays(before + [f]) == BuyOutlays(before) + if f.side == Bid then Outlay(f) else 0.0
  {
    assert (before + [f])[..|before|] == before;
  }

  /** No sale exceeds what was bought and not sold before it. */
  ghost predicate ExitsFit(fills: seq<Fill>) {
    forall k | 0 <= k < |fills| && fills[k].side == Ask :: fills[k].size <= NetSize(fills[..k], fills[k].asset)
  }

  lemma PrefixFits(fills: seq<Fill>, n: nat)
    requires n <= |fills| && PositiveFills(fills) && ExitsFit(fills)
    ensures PositiveFills(fills[..n]) && ExitsFit(fills[..n])
  {
    forall k | 0 <= k < n && fills[..n][k].side == Ask
      ensures fills[..n][k].size <= NetSize(fills[..n][..k], fills[..n][k].asset)
    {
      assert fills[..n][..k] == fills[..k];
    }
  }

  lemma OutlaysGrow(fills: seq<Fill>)
    requires fills != [] && PositiveFills(fills)
    ensures BuyOutlays(fills[..|fills| - 1]) <= BuyOutlays(fills)
  {
    var f := fills[|fills| - 1];
    assert f in fills;
    ValueNonNegative(f.size, f.price);
  }

  ghost predicate PassesWhole(fills: seq<Fill>, maxCapital: real) {
    var g := GateAfter(fills, maxCapital);
    Kept(fills, maxCapital) == fills && LongOnly(g) && Deployed(g) <= BuyOutlays(fills)
  }

  lemma NextPasses(before: seq<Fill>, f: Fill, maxCapital: real)
    requires PassesWhole(before, maxCapital) && f.size > 0.0 && f.price >= 0.0
    requires BuyOutlays(before + [f]) <= maxCapital
    requires f.side == Ask ==> f.size <= NetSize(before, f.asset)
    ensures PassesWhole(before + [f], maxCapital)
  {
    var g := GateAfter(before, maxCapital);
    OutlaysOneMore(before, f);
    SamePositions(before, maxCapital);
    PositionIsNetSize(before, f.asset);
    LastFill(before, f, maxCapital);
    TrackChangesDeployed(g, f);
  }

  /** Entries that together fit the budget, and exits that fit the position, all pass. */
  lemma {:induction false} AffordableStreamPasses(fills: seq<Fill>, maxCapital: real)
    requires PositiveFills(fills) && ExitsFit(fills) && BuyOutlays(fills) <= maxCapital
    ensures PassesWhole(fills, maxCapital)
    decreases |fills|
  {
    if fills == [] {
      assert Deployments(Gate(map[], map[])) == map[];
    } else {
      var n := |fills| - 1;
      assert fills[n] in fills && fills == fills[..n] + [fills[n]];
      PrefixFits(fills, n);
      OutlaysGrow(fills);
      AffordableStreamPasses(fills[..n], maxCapital);
      NextPasses(fills[..n], fills[n], maxCapital);
    }
  }
}
