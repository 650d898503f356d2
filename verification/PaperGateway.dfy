/**
 The paper-trading account: cash, realised profit, fees and open positions, changed by `buy` and
 `sell` under one lock. `Ledger` is its value, `PaperGateway` the object holding it.
 */
module PaperGateways {
  import opened RealSums

  type Cid = string

  datatype Position = Position(shares: real, entryPrice: real, buyFee: real)

  datatype Ledger = Ledger(capital: real, realisedPnl: real, totalFees: real, positions: map<Cid, Position>)

  const FEE_RATE := 0.25

  /** The dynamic fee per share: rate times (p(1-p)) squared. */
  function DynamicFeeRate(price: real): real {
    var p1p := price * (1.0 - price);
    FEE_RATE * (p1p * p1p)
  }

  function BuyFee(shares: real, price: real): real { shares * DynamicFeeRate(price) * price }

  function SellFee(shares: real, price: real): real { shares * DynamicFeeRate(price) }

  /** The account after buying; `shares * price` leaves as cost, the buy fee on top. */
  function Bought(l: Ledger, cid: Cid, shares: real, price: real): Ledger {
    var fee := BuyFee(shares, price);
    Ledger(l.capital - (shares * price + fee), l.realisedPnl, l.totalFees + fee,
           l.positions[cid := Position(shares, price, fee)])
  }

  /** The account after selling `shares` of a market; a market without a position is left alone. */
  function Sold(l: Ledger, cid: Cid, shares: real, price: real): Ledger {
    if cid !in l.positions then l
    else
      var pos := l.positions[cid];
      var fee := SellFee(shares, price);
      var pnl := shares * price - shares * pos.entryPrice - fee - pos.buyFee;
      Ledger(l.capital + (shares * price - fee), l.realisedPnl + pnl, l.totalFees + fee, l.positions - {cid})
  }

  function CostOf(pos: Position): real {
    pos.shares * pos.entryPrice + pos.buyFee
  }

  function Costs(positions: map<Cid, Position>): map<Cid, real> {
    map cid | cid in positions :: CostOf(positions[cid])
  }

  /** Cash plus what the open positions cost, less the profit already taken. */
  ghost function NetInvested(l: Ledger): real {
    l.capital + Total(Costs(l.positions)) - l.realisedPnl
  }

  lemma OpeningAtCostConserves(l: Ledger, l': Ledger, cid: Cid, pos: Position)
    requires cid !in l.positions && l'.positions == l.positions[cid := pos]
    requires l'.capital == l.capital - CostOf(pos) && l'.realisedPnl == l.realisedPnl
    ensures NetInvested(l') == NetInvested(l)
  {
    assert Costs(l'.positions) == Costs(l.positions)[cid := CostOf(pos)];
    TotalAfterUpdate(Costs(l.positions), cid, CostOf(pos));
  }

  lemma ClosingReleasesCost(l: Ledger, l': Ledger, cid: Cid)
    requires cid in l.positions && l'.positions == l.positions - {cid}
    ensures NetInvested(l') - NetInvested(l)
            == (l'.capital - l.capital) - (l'.realisedPnl - l.realisedPnl) - CostOf(l.positions[cid])
  {
    TotalSplits(Costs(l.positions), cid);
    assert Costs(l'.positions) == Costs(l.positions) - {cid};
  }

  /** A buy moves money from cash into an open position and creates none. */
  lemma BuyConserves(l: Ledger, cid: Cid, shares: real, price: real)
    requires cid !in l.positions
    ensures NetInvested(Bought(l, cid, shares, price)) == NetInvested(l)
  {
    var l' := Bought(l, cid, shares, price);
    OpeningAtCostConserves(l, l', cid, l'.positions[cid]);
  }

  /** Entry cost of the shares a sale names in excess of those held. */
  function ExcessCost(shares: real, pos: Position): real { (shares - pos.shares) * pos.entryPrice }

  /** A sale is out of balance by its excess cost. */
  lemma SellImbalance(l: Ledger, cid: Cid, shares: real, price: real)
    requires cid in l.positions
    ensures NetInvested(Sold(l, cid, shares, price)) - NetInvested(l)
            == ExcessCost(shares, l.positions[cid])
  {
    ClosingReleasesCost(l, Sold(l, cid, shares, price), cid);
    SaleFlow(l, cid, shares, price);
    ExcessOverCost(shares, l.positions[cid]);
  }

  /** Cash gained beyond the booked profit: the entry cost of the shares named, and the buy fee. */
  lemma SaleFlow(l: Ledger, cid: Cid, shares: real, price: real)
    requires cid in l.positions
    ensures var l', pos := Sold(l, cid, shares, price), l.positions[cid];
            (l'.capital - l.capital) - (l'.realisedPnl - l.realisedPnl) == EntryCost(shares, pos)
  {
  }

  function EntryCost(shares: real, pos: Position): real { shares * pos.entryPrice + pos.buyFee }

  lemma ExcessOverCost(shares: real, pos: Position)
    ensures EntryCost(shares, pos) - CostOf(pos) == ExcessCost(shares, pos)
  {
  }

  lemma NoExcessIffExact(shares: real, pos: Position)
    requires pos.entryPrice != 0.0
    ensures ExcessCost(shares, pos) == 0.0 <==> shares == pos.shares
  {
  }

  /** A sale is balanced exactly when it names the number of shares the position holds. */
  lemma SellConservesIffExact(l: Ledger, cid: Cid, shares: real, price: real)
    requires cid in l.positions && l.positions[cid].entryPrice != 0.0
    ensures NetInvested(Sold(l, cid, shares, price)) == NetInvested(l) <==> shares == l.positions[cid].shares
  {
    SellImbalance(l, cid, shares, price);
    NoExcessIffExact(shares, l.positions[cid]);
  }

  lemma FeeRateBounds(p: real)
    requires 0.0 <= p <= 1.0
    ensures 0.0 <= DynamicFeeRate(p) <= 1.0 / 64.0
    ensures DynamicFeeRate(p) <= p
  {
    var q := p * (1.0 - p);
    ProductBound(p, p, 1.0 - p, 1.0);
    assert q <= 0.25 by {
      SquareIsNonNegative(p - 0.5);
    }
    ProductBound(q, 0.25, q, 0.25);
    ProductBound(q, p, q, 1.0);
  }

  lemma SquareIsNonNegative(x: real)
    ensures x * x >= 0.0
  {
  }

  lemma ProductBound(a: real, x: real, b: real, y: real)
    requires 0.0 <= a <= x && 0.0 <= b <= y
    ensures 0.0 <= a * b <= x * y
  {
    assert x * y - a * b == x * (y - b) + (x - a) * b;
  }

  /** At a price between 0 and 1 the sale proceeds cover the sell fee. */
  lemma SellNeverLowersCash(l: Ledger, cid: Cid, shares: real, price: real)
    requires shares >= 0.0 && 0.0 <= price <= 1.0
    ensures Sold(l, cid, shares, price).capital >= l.capital
  {
    FeeRateBounds(price);
    ProductBound(shares, shares, DynamicFeeRate(price), price);
  }

  // ---- any sequence of orders ----

  datatype Order = BuyOrder(cid: Cid, shares: real, price: real) | SellOrder(cid: Cid, shares: real, price: real)

  function Executed(l: Ledger, o: Order): Ledger {
    match o
    case BuyOrder(cid, shares, price) => Bought(l, cid, shares, price)
    case SellOrder(cid, shares, price) => Sold(l, cid, shares, price)
  }

  function AfterOrders(l: Ledger, orders: seq<Order>): Ledger {
    if orders == [] then l else Executed(AfterOrders(l, orders[..|orders| - 1]), orders[|orders| - 1])
  }

  /** Money received for the goods alone; a sale of a market without a position moves none. */
  function Proceeds(l: Ledger, o: Order): real {
    match o
    case BuyOrder(_, shares, price) => -(shares * price)
    case SellOrder(cid, shares, price) => if cid in l.positions then shares * price else 0.0
  }

  function Turnover(l: Ledger, orders: seq<Order>): real {
    if orders == [] then 0.0
    else
      var before := orders[..|orders| - 1];
      Turnover(l, before) + Proceeds(AfterOrders(l, before), orders[|orders| - 1])
  }

  ghost predicate SaneOrder(o: Order) { o.shares >= 0.0 && 0.0 <= o.price <= 1.0 }

  lemma OrderAccounted(l: Ledger, o: Order)
    ensures var l' := Executed(l, o);
      && l'.capital + l'.totalFees == l.capital + l.totalFees + Proceeds(l, o)
      && (SaneOrder(o) ==> l'.totalFees >= l.totalFees)
  {
    if SaneOrder(o) { FeesAreNonNegative(o.shares, o.price); }
  }

  lemma FeesAreNonNegative(shares: real, price: real)
    requires shares >= 0.0 && 0.0 <= price <= 1.0
    ensures BuyFee(shares, price) >= 0.0 && SellFee(shares, price) >= 0.0
  {
    FeeRateBounds(price);
    ChargeNonNegative(shares, DynamicFeeRate(price), price);
  }

  lemma ChargeNonNegative(shares: real, rate: real, price: real)
    requires shares >= 0.0 && rate >= 0.0 && price >= 0.0
    ensures shares * rate >= 0.0 && shares * rate * price >= 0.0
  {
    ProductBound(shares, shares, rate, rate);
    ProductBound(shares * rate, shares * rate, price, price);
  }

  /** Over any orders cash and total fees together change by the turnover: every dollar is goods or a recorded fee. */
  lemma {:induction false} CashAndFeesAreTurnover(l: Ledger, orders: seq<Order>)
    ensures AfterOrders(l, orders).capital + AfterOrders(l, orders).totalFees
            == l.capital + l.totalFees + Turnover(l, orders)
    ensures (forall o | o in orders :: SaneOrder(o)) ==> AfterOrders(l, orders).totalFees >= l.totalFees
  {
    if orders != [] {
      var before, last := orders[..|orders| - 1], orders[|orders| - 1];
      assert last in orders && forall o | o in before :: o in orders;
      CashAndFeesAreTurnover(l, before);
      OrderAccounted(AfterOrders(l, before), last);
    }
  }

  class PaperGateway {
    var capital: real
    var realisedPnl: real
    var totalFees: real
    var positions: map<Cid, Position>

    function Account(): Ledger
      reads this
    {
      Ledger(capital, realisedPnl, totalFees, positions)
    }

    constructor (initialCapital: real)
      ensures Account() == Ledger(initialCapital, 0.0, 0.0, map[])
    {
      capital, realisedPnl, totalFees, positions := initialCapital, 0.0, 0.0, map[];
    }

    method FeeRate(price: real) returns (rate: real)
      ensures rate == DynamicFeeRate(price)
    {
      var p1p := price * (1.0 - price);
      var base := 1.0;
      for i := 0 to 2
        invariant i == 0 ==> base == 1.0
        invariant i == 1 ==> base == p1p
        invariant i == 2 ==> base == p1p * p1p
      {
        base := base * p1p;
      }
      rate := FEE_RATE * base;
    }

    method Buy(cid: Cid, shares: real, fillPrice: real)
      modifies this
      ensures Account() == Bought(old(Account()), cid, shares, fillPrice)
    {
      var cost := shares * fillPrice;
      var base := FeeRate(fillPrice);
      var buyFee := shares * base * fillPrice;
      capital := capital - (cost + buyFee);
      totalFees := totalFees + buyFee;
      positions := positions[cid := Position(shares, fillPrice, buyFee)];
    }

    method Sell(cid: Cid, shares: real, fillPrice: real)
      modifies this
      ensures Account() == Sold(old(Account()), cid, shares, fillPrice)
    {
      if cid !in positions {
        return;  // already closed by the other thread
      }
      var pos := positions[cid];
      var proceeds := shares * fillPrice;
      var cost := shares * pos.entryPrice;
      var base := FeeRate(fillPrice);
      var sellFee := shares * base;
      var pnl := proceeds - cost - sellFee - pos.buyFee;
      capital := capital + (proceeds - sellFee);
      realisedPnl := realisedPnl + pnl;
      totalFees := totalFees + sellFee;
      positions := positions - {cid};
    }
  }
}
