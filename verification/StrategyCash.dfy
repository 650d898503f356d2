/** How far paper cash can fall: half-Kelly sizing never overspends, only the one-share floor can. */
module StrategyCash {
  import opened PaperGateways
  import opened StrategyEngine
  import opened StrategySafety

  /** The most a buy fee on one share can be. */
  const ONE_SHARE_FEE := 1.0 / 64.0

  /** Whether a purchase with fee rate `rate` leaves cash at worst one share's buy fee below zero. */
  predicate AffordableAt(shares: real, price: real, capital: real, rate: real) {
    && shares >= 1.0
    && (shares == 1.0 ==> price <= capital)
    && (shares > 1.0 ==> shares * price + shares * rate * price <= capital)
  }

  lemma TimesMonotone(a: real, b: real, c: real)
    requires a <= b && c >= 0.0
    ensures a * c <= b * c
  {
  }

  /** Spending on at most twice as many shares costs at most twice as much. */
  lemma CostBound(n: real, x: real, price: real)
    requires 0.0 <= n <= x + x && price >= 0.0
    ensures 0.0 <= n * price <= x * price + x * price
  {
    TimesMonotone(n, x + x, price);
  }

  lemma FeeBound(n: real, rate: real, price: real)
    requires n >= 0.0 && price >= 0.0 && 0.0 <= rate <= 1.0
    ensures n * rate * price <= n * price
  {
    var cost := n * price;
    TimesMonotone(rate, 1.0, cost);
    assert n * rate * price == rate * cost;
  }

  lemma RoundingError(x: real)
    requires x >= 0.0
    ensures x - 0.5 <= Round(x) as real <= x + 0.5
  {
  }

  /** Rounding up to a tenth of a share cannot spend more than twice the intended fifth of the capital. */
  lemma SizeAffordable(x: real, f: real, price: real, capital: real, rate: real)
    requires 0.0 < price <= capital && 0.0 <= f <= 0.2 && 0.0 <= rate <= 1.0
    requires x >= 0.0 && x * price == f * capital
    ensures AffordableAt(TradableShares(x), price, capital, rate)
  {
    RoundingError(x * 10.0);
    var n := TradableShares(x);
    if n > 1.0 {
      CostBound(n, x, price);
      FeeBound(n, rate, price);
      TimesMonotone(f, 0.2, capital);
      assert n * price <= 0.4 * capital;
      assert n * price + n * rate * price <= 0.8 * capital;
    }
  }

  lemma KellyFractionRange(price: real)
    requires price > 0.0
    ensures 0.0 <= KellyFraction(price) <= KELLY_MAX_PCT
  {
  }

  lemma QuotientTimes(y: real, price: real)
    requires price > 0.0 && y >= 0.0
    ensures y / price >= 0.0 && (y / price) * price == y
  {
  }

  /** A size above one share costs, with its fee, at most the capital it was computed from. */
  lemma KellyNeverOverspends(price: real, capital: real, rate: real)
    requires 0.0 < price <= capital && 0.0 <= rate <= 1.0
    ensures AffordableAt(KellySize(price, capital), price, capital, rate)
  {
    KellyFractionRange(price);
    TimesMonotone(0.0, KellyFraction(price), capital);
    QuotientTimes(KellyFraction(price) * capital, price);
    SizeAffordable(KellyFraction(price) * capital / price, KellyFraction(price), price, capital, rate);
  }

  /** Quotes of a binary market are prices between 0 and 1. */
  predicate InUnitRange(q: Quotes) {
    0.0 <= q.yesBid <= 1.0 && 0.0 <= q.yesAsk <= 1.0 && 0.0 <= q.noBid <= 1.0 && 0.0 <= q.noAsk <= 1.0
  }

  predicate SaneSale(shares: real, price: real) {
    shares >= 0.0 && 0.0 <= price <= 1.0
  }

  ghost predicate SanePositions(positions: map<Cid, Position>) {
    forall cid | cid in positions :: SaneSale(positions[cid].shares, positions[cid].entryPrice)
  }

  ghost predicate SanePc(capital: real, pc: WsPc) {
    match pc
    case WsIdle => true
    case HaveBook(_, q) => InUnitRange(q)
    case HaveClock(_, q, _) => InUnitRange(q)
    case Entering(_, q, _) => 0.0 < q.noAsk <= MAX_ENTRY_ASK
    case CheckingFunds(_, q, _) => 0.0 < q.noAsk <= MAX_ENTRY_ASK
    case Sizing(_, q, _) => 0.0 < q.noAsk <= MAX_ENTRY_ASK && EntryPrice(q) <= capital
    case Buying(_, _, shares, price) => 0.0 < price <= 1.0 && AffordableAt(shares, price, capital, DynamicFeeRate(price))
    case Exiting(_, q, _) => InUnitRange(q)
    case Closing(_, q) => InUnitRange(q)
    case Selling(_, shares, price) => SaneSale(shares, price)
  }

  ghost predicate SaneSweep(pc: SweepPc) {
    && (HasSnapshot(pc) ==> SanePositions(pc.snap))
    && (pc.SweepSelling? ==> 0.0 <= pc.price <= 1.0)
  }

  ghost predicate CashInv(s: State) {
    && s.ledger.capital >= -ONE_SHARE_FEE
    && (forall cid | cid in s.books :: InUnitRange(s.books[cid]))
    && SanePositions(s.ledger.positions)
    && SanePc(s.ledger.capital, s.ws)
    && SaneSweep(s.sweep)
  }

  lemma EntryPriceRange(q: Quotes)
    requires 0.0 < q.noAsk <= MAX_ENTRY_ASK
    ensures 0.0 < EntryPrice(q) <= 1.0
  {
  }

  lemma ExitPriceRange(q: Quotes)
    requires InUnitRange(q)
    ensures 0.0 <= ExitPrice(q) <= 1.0
  {
  }

  /** Only the one-share floor can push cash below zero, and then by no more than that share's fee. */
  lemma BuyFloor(l: Ledger, cid: Cid, shares: real, price: real)
    requires 0.0 < price <= 1.0 && AffordableAt(shares, price, l.capital, DynamicFeeRate(price))
    ensures var cash := Bought(l, cid, shares, price).capital;
      && (shares > 1.0 ==> cash >= 0.0)
      && (shares == 1.0 ==> cash >= -(DynamicFeeRate(price) * price))
      && cash >= -ONE_SHARE_FEE
  {
    FeeRateBounds(price);
    var rate := DynamicFeeRate(price);
    if shares == 1.0 {
      assert shares * rate * price == rate * price;
      ProductBound(rate, ONE_SHARE_FEE, price, 1.0);
    }
  }

  lemma BuyKeepsCashInv(s: State)
    requires CashInv(s) && s.ws.Buying?
    ensures CashInv(s.(ws := WsIdle, ledger := Bought(s.ledger, s.ws.cid, s.ws.shares, s.ws.price)))
  {
    BuyFloor(s.ledger, s.ws.cid, s.ws.shares, s.ws.price);
  }

  /** A sale by either thread raises cash, which keeps the other thread's purchase affordable. */
  lemma SaleKeepsCash(s: State, cid: Cid, shares: real, price: real)
    requires CashInv(s) && SaneSale(shares, price)
    ensures var l := Sold(s.ledger, cid, shares, price);
      l.capital >= s.ledger.capital && SanePositions(l.positions) && SanePc(l.capital, s.ws)
  {
    SellNeverLowersCash(s.ledger, cid, shares, price);
  }

  lemma SellingKeepsCashInv(p: Params, s: State)
    requires CashInv(s) && s.ws.Selling? && WsStep(p, s).Some?
    ensures CashInv(WsStep(p, s).value)
  {
    SaleKeepsCash(s, s.ws.cid, s.ws.shares, s.ws.price);
  }

  /** Steps that only read leave cash alone and carry the quotes they were given. */
  lemma QuietStepKeepsCashInv(p: Params, s: State)
    requires CashInv(s) && WsStep(p, s).Some?
    requires !s.ws.Sizing? && !s.ws.Buying? && !s.ws.Selling?
    ensures CashInv(WsStep(p, s).value)
  {
    if s.ws.Closing? { ExitPriceRange(s.ws.q); }
  }

  lemma WsStepKeepsCashInv(p: Params, s: State)
    requires CashInv(s) && WsStep(p, s).Some?
    ensures CashInv(WsStep(p, s).value)
  {
    if s.ws.Sizing? {
      var price := EntryPrice(s.ws.q);
      EntryPriceRange(s.ws.q);
      FeeRateBounds(price);
      KellyNeverOverspends(price, s.ledger.capital, DynamicFeeRate(price));
    } else if s.ws.Buying? {
      BuyKeepsCashInv(s);
    } else if s.ws.Selling? {
      SellingKeepsCashInv(p, s);
    } else {
      QuietStepKeepsCashInv(p, s);
    }
  }

  lemma SweepStepKeepsCashInv(s: State, cid: Cid)
    requires CashInv(s) && SweepStep(s, cid).Some?
    ensures CashInv(SweepStep(s, cid).value)
  {
    match s.sweep
    case Sweeping(now, snap, expired) =>
      if cid in s.books { ExitPriceRange(s.books[cid]); }
    case SweepSelling(now, snap, expired, closing, price) =>
      SaleKeepsCash(s, closing, snap[closing].shares, price);
    case _ =>
  }

  predicate QuotesPrices(a: Action) { a.UpdateQuotes? ==> InUnitRange(a.q) }

  lemma StepKeepsCashInv(p: Params, s: State, a: Action)
    requires CashInv(s) && QuotesPrices(a) && Step(p, s, a).Some?
    ensures CashInv(Step(p, s, a).value)
  {
    match a
    case WsContinues => WsStepKeepsCashInv(p, s);
    case SweepContinues(cid) => SweepStepKeepsCashInv(s, cid);
    case _ =>
  }

  /** With prices between 0 and 1 and no debt at the start, cash never falls below one share's buy fee. */
  lemma CashNeverFallsBelowOneShareFee(p: Params, capital: real, clock: int, actions: seq<Action>, s: State)
    requires capital >= 0.0
    requires Reaches(p, Init(capital, clock), actions, s)
    requires forall a | a in actions :: QuotesPrices(a)
    ensures s.ledger.capital >= -ONE_SHARE_FEE
    ensures s.ws.Sizing? ==> WsStep(p, s).Some?
  {
    forall m, a | CashInv(m) && QuotesPrices(a) && Step(p, m, a).Some?
      ensures CashInv(Step(p, m, a).value)
    {
      StepKeepsCashInv(p, m, a);
    }
    RunKeeps(p, Init(capital, clock), actions, s, m => CashInv(m), a => QuotesPrices(a));
    if s.ws.Sizing? {
      EntryPriceRange(s.ws.q);
    }
  }
}
