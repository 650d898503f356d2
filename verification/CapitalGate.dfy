/**
 The capital gate in front of the profit accounting: entries that would push deployed capital over
 the budget are dropped. It keeps its own, fee-free books; the results below relate the two.
 */
module CapitalGate {
  import opened RealSums
  import opened Pnl

  const UNLIMITED := 1_000_000_000.0
  const SNAP := 0.000000001

  datatype Gate = Gate(positions: map<Asset, real>, avgCosts: map<Asset, real>)

  function Deployments(g: Gate): map<Asset, real> {
    map a | a in g.positions :: Exposure(g.positions[a], Get(g.avgCosts, a))
  }

  ghost function Deployed(g: Gate): real { Total(Deployments(g)) }

  function Outlay(f: Fill): real { f.size * f.price }

  ghost predicate Keeps(g: Gate, f: Fill, maxCapital: real) {
    f.side == Bid ==> Deployed(g) + Outlay(f) <= maxCapital
  }

  /** The gate's books after a fill it lets through. */
  function Track(g: Gate, f: Fill): Gate {
    var pos, cost := Get(g.positions, f.asset), Get(g.avgCosts, f.asset);
    if f.side == Bid then
      var newPos := pos + f.size;
      Gate(g.positions[f.asset := newPos],
           g.avgCosts[f.asset := if newPos > 0.0 then Quotient(Value(pos, cost) + Outlay(f), newPos) else 0.0])
    else
      var newPos := pos - f.size;
      Gate(g.positions[f.asset := newPos],
           if Abs(newPos) < SNAP then g.avgCosts[f.asset := 0.0] else g.avgCosts)
  }

  ghost function GateAfter(fills: seq<Fill>, maxCapital: real): Gate {
    if fills == [] then Gate(map[], map[])
    else
      var g, f := GateAfter(fills[..|fills| - 1], maxCapital), fills[|fills| - 1];
      if Keeps(g, f, maxCapital) then Track(g, f) else g
  }

  /** The fills the gate lets through. */
  ghost function Kept(fills: seq<Fill>, maxCapital: real): seq<Fill> {
    if fills == [] then []
    else
      var before, f := fills[..|fills| - 1], fills[|fills| - 1];
      Kept(before, maxCapital) + if Keeps(GateAfter(before, maxCapital), f, maxCapital) then [f] else []
  }

  lemma GateOneMore(fills: seq<Fill>, i: nat, maxCapital: real)
    requires i < |fills|
    ensures var g, f := GateAfter(fills[..i], maxCapital), fills[i];
            var keeps := Keeps(g, f, maxCapital);
            && GateAfter(fills[..i + 1], maxCapital) == (if keeps then Track(g, f) else g)
            && Kept(fills[..i + 1], maxCapital) == Kept(fills[..i], maxCapital) + if keeps then [f] else []
  {
    assert fills[..i + 1][..i] == fills[..i];
  }

  /** No kept sell exceeds the long position the gate sees at that moment. */
  ghost predicate NeverOversells(fills: seq<Fill>, maxCapital: real) {
    forall k | 0 <= k < |fills| && fills[k].side == Ask ::
      fills[k].size <= Get(GateAfter(fills[..k], maxCapital).positions, fills[k].asset)
  }

  ghost predicate PositiveFills(fills: seq<Fill>) {
    forall f | f in fills :: f.size > 0.0 && f.price >= 0.0
  }

  ghost predicate LongOnly(g: Gate) {
    && g.avgCosts.Keys == g.positions.Keys
    && forall a | a in g.positions :: g.positions[a] >= 0.0 && g.avgCosts[a] >= 0.0
  }

  lemma ValueNonNegative(x: real, y: real)
    requires x >= 0.0 && y >= 0.0
    ensures Value(x, y) >= 0.0 && Exposure(x, y) == Value(x, y)
  {
  }

  lemma SmallerPositionSmallerValue(x: real, x': real, y: real)
    requires 0.0 <= x' <= x && y >= 0.0
    ensures Value(x', y) <= Value(x, y)
  {
  }

  lemma QuotientNonNegative(total: real, size: real)
    requires total >= 0.0 && size > 0.0
    ensures Quotient(total, size) >= 0.0 && Value(size, Quotient(total, size)) == total
  {
  }

  /** A kept entry adds its outlay to the deployed capital; a kept exit within the position only frees some. */
  lemma TrackChangesDeployed(g: Gate, f: Fill)
    requires LongOnly(g) && f.size > 0.0 && f.price >= 0.0
    requires f.side == Ask ==> f.size <= Get(g.positions, f.asset)
    ensures LongOnly(Track(g, f))
    ensures f.side == Bid ==> Deployed(Track(g, f)) == Deployed(g) + Outlay(f)
    ensures f.side == Ask ==> Deployed(Track(g, f)) <= Deployed(g)
  {
    var pos, cost := Get(g.positions, f.asset), Get(g.avgCosts, f.asset);
    var g' := Track(g, f);
    var newPos, newCost := g'.positions[f.asset], g'.avgCosts[f.asset];
    ValueNonNegative(f.size, f.price);
    ValueNonNegative(pos, cost);
    if f.side == Bid {
      QuotientNonNegative(Value(pos, cost) + Outlay(f), newPos);
    } else {
      SmallerPositionSmallerValue(pos, newPos, cost);
    }
    ValueNonNegative(newPos, newCost);
    assert Deployments(g') == Deployments(g)[f.asset := Exposure(newPos, newCost)];
    TotalAfterUpdate(Deployments(g), f.asset, Exposure(newPos, newCost));
  }

  /** Deployed capital, in the gate's books, never exceeds the budget. */
  lemma {:induction false} DeployedWithinBudget(fills: seq<Fill>, maxCapital: real)
    requires PositiveFills(fills) && maxCapital >= 0.0 && NeverOversells(fills, maxCapital)
    ensures LongOnly(GateAfter(fills, maxCapital))
    ensures Deployed(GateAfter(fills, maxCapital)) <= maxCapital
  {
    if fills == [] {
      assert Deployments(Gate(map[], map[])) == map[];
    } else {
      var n := |fills| - 1;
      PrefixNeverOversells(fills, n, maxCapital);
      DeployedWithinBudget(fills[..n], maxCapital);
      var g := GateAfter(fills[..n], maxCapital);
      assert fills[n] in fills;
      if Keeps(g, fills[n], maxCapital) {
        TrackChangesDeployed(g, fills[n]);
      }
    }
  }

  lemma PrefixNeverOversells(fills: seq<Fill>, n: nat, maxCapital: real)
    requires n <= |fills| && PositiveFills(fills) && NeverOversells(fills, maxCapital)
    ensures PositiveFills(fills[..n]) && NeverOversells(fills[..n], maxCapital)
  {
    forall k | 0 <= k < n && fills[..n][k].side == Ask
      ensures fills[..n][k].size <= Get(GateAfter(fills[..n][..k], maxCapital).positions, fills[..n][k].asset)
    {
      assert fills[..n][..k] == fills[..k];
    }
  }

  /** The loop of `_apply_capital_gate`, with its inner sum over all positions. */
  method ApplyCapitalGate(fills: seq<Fill>, maxCapital: real) returns (kept: seq<Fill>)
    ensures kept == if maxCapital >= 1_000_000_000.0 then fills else Kept(fills, maxCapital)
  {
    if maxCapital >= UNLIMITED {
      return fills;
    }
    var gate := Gate(map[], map[]);
    kept := [];
    for i := 0 to |fills|
      invariant gate == GateAfter(fills[..i], maxCapital)
      invariant kept == Kept(fills[..i], maxCapital)
    {
      var fill := fills[i];
      GateOneMore(fills, i, maxCapital);
      if fill.side == Bid {
        var newExposure := Outlay(fill);
        var currentDeployed := SumDeployed(gate);
        if currentDeployed + newExposure > maxCapital {
          continue;
        }
      }
      kept := kept + [fill];
      gate := Track(gate, fill);
    }
    assert fills[..|fills|] == fills;
  }

  method SumDeployed(gate: Gate) returns (sum: real)
    ensures sum == Deployed(gate)
  {
    sum := 0.0;
    var todo := gate.positions.Keys;
    ghost var left := Deployments(gate);
    while todo != {}
      invariant todo == left.Keys <= gate.positions.Keys
      invariant forall a | a in left :: left[a] == Deployments(gate)[a]
      invariant sum + Total(left) == Deployed(gate)
      decreases |todo|
    {
      var asset :| asset in todo;
      TotalSplits(left, asset);
      sum := sum + Exposure(gate.positions[asset], Get(gate.avgCosts, asset));
      todo := todo - {asset};
      left := left - {asset};
    }
    assert left == map[];
  }
}
