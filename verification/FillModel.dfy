/**
 Fill simulation over recorded data: a market order meets the book as it stands when the order
 arrives, a limit order waits for the first crossing trade in its window. Neither sees the future.
 */
module FillModel {
  import opened Wrappers

  datatype BookRow = BookRow(ts: int, bid: real, ask: real)
  datatype Trade = Trade(ts: int, price: real)
  datatype Signal = Signal(ts: int, isBuy: bool, size: real, limit: real)
  datatype FillRow = FillRow(ts: int, isBuy: bool, size: real, price: real, fee: real, slippage: real)

  datatype Model = Model(
    feeRate: real, exponent: nat, makerRebate: real, latencyMs: nat, slipRate: real, windowMs: nat, maxCost: real)

  function Times(rows: seq<BookRow>): (ts: seq<int>)
    ensures |ts| == |rows| && forall i | 0 <= i < |rows| :: ts[i] == rows[i].ts
  {
    seq(|rows|, i requires 0 <= i < |rows| => rows[i].ts)
  }

  function TradeTimes(trades: seq<Trade>): (ts: seq<int>)
    ensures |ts| == |trades| && forall i | 0 <= i < |trades| :: ts[i] == trades[i].ts
  {
    seq(|trades|, i requires 0 <= i < |trades| => trades[i].ts)
  }

  ghost predicate Sorted(ts: seq<int>) {
    forall i, j | 0 <= i < j < |ts| :: ts[i] <= ts[j]
  }

  /** numpy's searchsorted: how many leading entries are below x, or for side "right" not above it. */
  function SearchSorted(ts: seq<int>, x: int, right: bool): (n: nat)
    ensures n <= |ts|
    ensures Sorted(ts) ==> forall i | 0 <= i < |ts| :: i < n <==> (if right then ts[i] <= x else ts[i] < x)
  {
    if ts == [] then 0
    else if (if right then ts[0] <= x else ts[0] < x) then
      var n := SearchSorted(ts[1..], x, right);
      assert forall i | 1 <= i < |ts| :: ts[i] == ts[1..][i - 1];
      1 + n
    else 0
  }

  function Power(x: real, n: nat): real {
    if n == 0 then 1.0 else x * Power(x, n - 1)
  }

  /** Rounding to the nearest integer, ties to even. */
  function RoundHalfEven(x: real): int {
    var f := x.Floor;
    if x - f as real < 0.5 then f
    else if x - f as real > 0.5 then f + 1
    else if f % 2 == 0 then f else f + 1
  }

  function FourDecimals(x: real): real { RoundHalfEven(x * 10000.0) as real / 10000.0 }

  /** Fee per share before rounding. */
  function BaseFee(m: Model, price: real): real { m.feeRate * Power(price * (1.0 - price), m.exponent) }

  /** A buy pays its fee in shares, converted at the price. */
  function Charge(base: real, price: real, size: real, isBuy: bool): real {
    if isBuy then Converted(size * base, price) else size * base
  }

  function Converted(shares: real, price: real): real { shares * price }

  /** The taker fee. */
  function DynamicFee(m: Model, price: real, size: real, isBuy: bool): real {
    FourDecimals(Charge(BaseFee(m, price), price, size, isBuy))
  }

  function CostOfRow(m: Model, row: BookRow, hasFee: bool): real {
    row.ask - row.bid + if hasFee then 2.0 * BaseFee(m, (row.bid + row.ask) / 2.0) else 0.0
  }

  function Slipped(x: real, rate: real): real { x * (1.0 + rate) }

  function MarketPrice(m: Model, row: BookRow, isBuy: bool): real {
    if isBuy then
      var p := Slipped(row.ask, m.slipRate);
      if p < 1.0 then p else 1.0
    else
      var p := Slipped(row.bid, -m.slipRate);
      if p > 0.0 then p else 0.0
  }

  /** The fill against one book row, unless spread and round-trip fee cost too much. */
  function FillAgainst(m: Model, row: BookRow, hasFee: bool, sig: Signal): Option<FillRow> {
    if CostOfRow(m, row, hasFee) > m.maxCost then None
    else
      var price := MarketPrice(m, row, sig.isBuy);
      Some(FillRow(sig.ts, sig.isBuy, sig.size, price,
                   if hasFee then DynamicFee(m, price, sig.size, sig.isBuy) else 0.0,
                   if sig.isBuy then row.ask * m.slipRate else row.bid * m.slipRate))
  }

  /** When an order sent on a signal reaches the exchange. */
  function Arrival(m: Model, sig: Signal): int { sig.ts + m.latencyMs }

  /** A market order: the last row at or before its arrival. */
  function MarketFill(m: Model, book: seq<BookRow>, hasFee: bool, sig: Signal): Option<FillRow> {
    var rows := SearchSorted(Times(book), Arrival(m, sig), true);
    if rows == 0 then None else FillAgainst(m, book[rows - 1], hasFee, sig)
  }

  /** Row i is what the book shows at time t. */
  ghost predicate InForce(book: seq<BookRow>, i: nat, t: int) {
    i < |book| && book[i].ts <= t && (i + 1 < |book| ==> book[i + 1].ts > t)
  }

  /** A market order is filled against the book in force when its latency has passed, and not at all before
      the first row. */
  lemma MarketFillUsesBookInForce(m: Model, book: seq<BookRow>, hasFee: bool, sig: Signal)
    requires Sorted(Times(book))
    ensures Arrival(m, sig) == sig.ts + m.latencyMs
    ensures forall i: nat | InForce(book, i, Arrival(m, sig)) ::
              MarketFill(m, book, hasFee, sig) == FillAgainst(m, book[i], hasFee, sig)
    ensures (forall i: nat :: !InForce(book, i, Arrival(m, sig))) ==> MarketFill(m, book, hasFee, sig) == None
  {
    var t := Arrival(m, sig);
    var rows := SearchSorted(Times(book), t, true);
    forall i: nat | InForce(book, i, t) ensures i == rows - 1 {
      assert Times(book)[i] <= t;
      if i + 1 < |book| { assert Times(book)[i + 1] > t; }
    }
    if rows > 0 {
      assert Times(book)[rows - 1] <= t;
      assert InForce(book, rows - 1, t);
    }
  }

  /** Rows recorded after the arrival change nothing. */
  lemma MarketFillHasNoLookAhead(m: Model, book: seq<BookRow>, later: seq<BookRow>, hasFee: bool, sig: Signal)
    requires Sorted(Times(book + later)) && forall r | r in later :: r.ts > sig.ts + m.latencyMs
    ensures MarketFill(m, book + later, hasFee, sig) == MarketFill(m, book, hasFee, sig)
  {
    var t, all := Arrival(m, sig), book + later;
    assert forall i | 0 <= i < |book| :: Times(book)[i] == Times(all)[i];
    MarketFillUsesBookInForce(m, book, hasFee, sig);
    MarketFillUsesBookInForce(m, all, hasFee, sig);
    forall i: nat ensures InForce(book, i, t) <==> InForce(all, i, t) {
      if |book| <= i < |all| { assert all[i] in later; }
      if |book| == i + 1 < |all| { assert all[i + 1] in later; }
    }
    if i: nat :| InForce(book, i, t) {
      assert InForce(all, i, t);
    }
  }

  // ---- prices and fees ----

  /** An order is filled exactly if spread and two per-share fees at the mid price stay within the limit; it
      pays the quote moved against it by the slippage rate, kept inside [0, 1], and a fee only where there is one. */
  lemma FilledIffCheapEnough(m: Model, row: BookRow, hasFee: bool, sig: Signal)
    ensures FillAgainst(m, row, hasFee, sig).Some?
            <==> row.ask - row.bid + (if hasFee then 2.0 * BaseFee(m, (row.bid + row.ask) / 2.0) else 0.0) <= m.maxCost
    ensures FillAgainst(m, row, hasFee, sig).Some? ==>
              var f := FillAgainst(m, row, hasFee, sig).value;
              var moved := if sig.isBuy then Slipped(row.ask, m.slipRate) else Slipped(row.bid, -m.slipRate);
              && f.ts == sig.ts && f.isBuy == sig.isBuy && f.size == sig.size
              && f.price == (if sig.isBuy && moved > 1.0 then 1.0 else if !sig.isBuy && moved < 0.0 then 0.0 else moved)
              && (!hasFee ==> f.fee == 0.0) && (hasFee ==> f.fee == DynamicFee(m, f.price, f.size, f.isBuy))
              && (if f.isBuy then row.ask + f.slippage else row.bid - f.slippage) == moved
  {
    SlippageIsMove(if sig.isBuy then row.ask else row.bid, m.slipRate);
  }

  lemma SlippageIsMove(x: real, rate: real)
    ensures Slipped(x, rate) == x + x * rate && Slipped(x, -rate) == x - x * rate
  {
  }

  /** A limit order is filled at its own price without slippage; its fee is the taker fee's rebate, if any. */
  lemma LimitFillTerms(m: Model, trades: seq<Trade>, hasFee: bool, sig: Signal)
    ensures LimitFill(m, trades, hasFee, sig).Some? <==> FillTime(m, trades, sig).Some?
    ensures LimitFill(m, trades, hasFee, sig).Some? ==>
              var f := LimitFill(m, trades, hasFee, sig).value;
              && f.ts == FillTime(m, trades, sig).value
              && f.isBuy == sig.isBuy && f.size == sig.size && f.price == sig.limit && f.slippage == 0.0
              && f.fee + m.makerRebate * (if hasFee then DynamicFee(m, sig.limit, sig.size, sig.isBuy) else 0.0) == 0.0
  {
  }

  /** The fee of a fill is the per-share fee times the size, for a buy times the price, to the nearest four
      decimals, ties to even. */
  lemma FeeIsRounded(m: Model, price: real, size: real, isBuy: bool)
    ensures var exact := if isBuy then Converted(size * BaseFee(m, price), price) else size * BaseFee(m, price);
            && exact - 0.00005 <= DynamicFee(m, price, size, isBuy) <= exact + 0.00005
            && DynamicFee(m, price, size, isBuy) * 10000.0 == (DynamicFee(m, price, size, isBuy) * 10000.0).Floor as real
            && (exact + 0.00005 == DynamicFee(m, price, size, isBuy) || exact - 0.00005 == DynamicFee(m, price, size, isBuy) ==>
                  (DynamicFee(m, price, size, isBuy) * 10000.0).Floor % 2 == 0)
  {
    var exact := Charge(BaseFee(m, price), price, size, isBuy);
    RoundingIsMonotone(exact, exact);
    FourDecimalsAreWhole(exact);
    TiesAreEven(exact);
  }

  lemma TiesAreEven(x: real)
    ensures FourDecimals(x) == x + 0.00005 || FourDecimals(x) == x - 0.00005 ==> (FourDecimals(x) * 10000.0).Floor % 2 == 0
  {
    var n := RoundHalfEven(x * 10000.0);
    TenThousandths(n, FourDecimals(x));
    assert FourDecimals(x) == x + 0.00005 ==> n as real == x * 10000.0 + 0.5;
    assert FourDecimals(x) == x - 0.00005 ==> n as real == x * 10000.0 - 0.5;
  }

  lemma FourDecimalsAreWhole(x: real)
    ensures FourDecimals(x) * 10000.0 == (FourDecimals(x) * 10000.0).Floor as real
  {
    TenThousandths(RoundHalfEven(x * 10000.0), FourDecimals(x));
  }

  lemma TenThousandths(n: int, y: real)
    requires y == n as real / 10000.0
    ensures y * 10000.0 == n as real && y * 10000.0 == (y * 10000.0).Floor as real
  {
  }

  predicate SaneBook(row: BookRow) { 0.0 <= row.bid <= row.ask <= 1.0 }

  lemma SlippedBounds(x: real, rate: real)
    requires x >= 0.0 && rate >= 0.0
    ensures Slipped(x, rate) >= x && Slipped(x, -rate) <= x
  {
  }

  /** A market order never gets a better price than the book shows, nor one outside [0, 1]. */
  lemma MarketPriceIsNoBetter(m: Model, row: BookRow)
    requires SaneBook(row) && m.slipRate >= 0.0
    ensures row.ask <= MarketPrice(m, row, true) <= 1.0
    ensures 0.0 <= MarketPrice(m, row, false) <= row.bid
  {
    SlippedBounds(row.ask, m.slipRate);
    SlippedBounds(row.bid, m.slipRate);
  }

  lemma {:induction false} PowerNonNegative(x: real, n: nat)
    requires x >= 0.0
    ensures Power(x, n) >= 0.0
  {
    if n > 0 { PowerNonNegative(x, n - 1); }
  }

  lemma RoundingIsMonotone(x: real, y: real)
    requires x <= y
    ensures FourDecimals(x) <= FourDecimals(y)
    ensures x - 0.00005 <= FourDecimals(x) <= x + 0.00005
  {
    assert RoundHalfEven(x * 10000.0) <= RoundHalfEven(y * 10000.0);
  }

  lemma TimesNonNegative(a: real, b: real)
    requires a >= 0.0 && b >= 0.0
    ensures a * b >= 0.0
  {
  }

  lemma ConvertedAtMost(a: real, p: real)
    requires a >= 0.0 && 0.0 <= p <= 1.0
    ensures 0.0 <= Converted(a, p) <= a
  {
  }

  lemma BaseFeeNonNegative(m: Model, price: real)
    requires m.feeRate >= 0.0 && 0.0 <= price <= 1.0
    ensures BaseFee(m, price) >= 0.0
  {
    TimesNonNegative(price, 1.0 - price);
    PowerNonNegative(price * (1.0 - price), m.exponent);
    TimesNonNegative(m.feeRate, Power(price * (1.0 - price), m.exponent));
  }

  lemma BuyChargeAtMostSellCharge(base: real, price: real, size: real)
    requires base >= 0.0 && size >= 0.0 && 0.0 <= price <= 1.0
    ensures 0.0 <= Charge(base, price, size, true) <= Charge(base, price, size, false)
  {
    TimesNonNegative(size, base);
    ConvertedAtMost(size * base, price);
  }

  /** Taker fees are not negative, and buying is never charged more than selling at the same price. */
  lemma BuyFeeAtMostSellFee(m: Model, price: real, size: real)
    requires m.feeRate >= 0.0 && size >= 0.0 && 0.0 <= price <= 1.0
    ensures 0.0 <= DynamicFee(m, price, size, true) <= DynamicFee(m, price, size, false)
  {
    var base := BaseFee(m, price);
    BaseFeeNonNegative(m, price);
    BuyChargeAtMostSellCharge(base, price, size);
    RoundingIsMonotone(0.0, Charge(base, price, size, true));
    RoundingIsMonotone(Charge(base, price, size, true), Charge(base, price, size, false));
    assert FourDecimals(0.0) == 0.0;
  }

  function Goods(price: real, size: real): real { price * size }

  function Paid(f: FillRow): real { Goods(f.price, f.size) + f.fee }

  function Received(f: FillRow): real { Goods(f.price, f.size) - f.fee }

  /** Buying and selling back against one book row never makes money. */
  lemma RoundTripNeverProfits(m: Model, row: BookRow, hasFee: bool, buy: Signal, sell: Signal)
    requires SaneBook(row) && m.slipRate >= 0.0 && m.feeRate >= 0.0
    requires buy.isBuy && !sell.isBuy && buy.size == sell.size >= 0.0
    ensures var bought, sold := FillAgainst(m, row, hasFee, buy), FillAgainst(m, row, hasFee, sell);
      bought.Some? == sold.Some? && (bought.Some? ==> Received(sold.value) <= Paid(bought.value))
  {
    var bought, sold := FillAgainst(m, row, hasFee, buy), FillAgainst(m, row, hasFee, sell);
    if bought.Some? {
      MarketPriceIsNoBetter(m, row);
      BuyFeeAtMostSellFee(m, bought.value.price, buy.size);
      BuyFeeAtMostSellFee(m, sold.value.price, buy.size);
      LowerPriceReceivesLess(bought.value, sold.value);
    }
  }

  lemma LowerPriceReceivesLess(bought: FillRow, sold: FillRow)
    requires sold.price <= bought.price && bought.size == sold.size >= 0.0 && bought.fee >= 0.0 && sold.fee >= 0.0
    ensures Received(sold) <= Paid(bought)
  {
    ScaledOrder(sold.price, bought.price, bought.size);
  }

  lemma ScaledOrder(a: real, b: real, size: real)
    requires a <= b && size >= 0.0
    ensures Goods(a, size) <= Goods(b, size)
  {
  }

  predicate Crosses(trade: Trade, sig: Signal) {
    if sig.isBuy then trade.price <= sig.limit else trade.price >= sig.limit
  }

  predicate InWindow(m: Model, trade: Trade, sig: Signal) {
    sig.ts <= trade.ts <= sig.ts + m.windowMs
  }

  /** Index of the first crossing trade in [from, to), if any. */
  function FirstCrossing(trades: seq<Trade>, from: nat, to: nat, sig: Signal): (r: Option<nat>)
    requires to <= |trades|
    ensures r.Some? ==> from <= r.value < to && Crosses(trades[r.value], sig)
                        && forall i | from <= i < r.value :: !Crosses(trades[i], sig)
    ensures r.None? ==> forall i | from <= i < to :: !Crosses(trades[i], sig)
    decreases if to > from then to - from else 0
  {
    if from >= to then None
    else if Crosses(trades[from], sig) then Some(from)
    else FirstCrossing(trades, from + 1, to, sig)
  }

  /** When a limit order is filled: at the first crossing trade in its window. */
  function FillTime(m: Model, trades: seq<Trade>, sig: Signal): Option<int> {
    var hit := FirstCrossing(trades, SearchSorted(TradeTimes(trades), sig.ts, false),
                             SearchSorted(TradeTimes(trades), sig.ts + m.windowMs, true), sig);
    if hit.None? then None else Some(trades[hit.value].ts)
  }

  /** The fill of a limit order at its own price, with the maker rebate. */
  function LimitRow(m: Model, hasFee: bool, sig: Signal, ts: int): FillRow {
    FillRow(ts, sig.isBuy, sig.size, sig.limit, Rebate(m, hasFee, sig), 0.0)
  }

  function LimitFill(m: Model, trades: seq<Trade>, hasFee: bool, sig: Signal): Option<FillRow> {
    var ts := FillTime(m, trades, sig);
    if ts.None? then None else Some(LimitRow(m, hasFee, sig, ts.value))
  }

  function Rebate(m: Model, hasFee: bool, sig: Signal): real {
    if hasFee then -m.makerRebate * DynamicFee(m, sig.limit, sig.size, sig.isBuy) else 0.0
  }

  ghost predicate IsHit(m: Model, trades: seq<Trade>, i: nat, sig: Signal) {
    && i < |trades| && sig.ts <= trades[i].ts <= sig.ts + m.windowMs
    && (if sig.isBuy then trades[i].price <= sig.limit else sig.limit <= trades[i].price)
  }

  /** A fill exists exactly when a trade crosses inside the window, and then it is the earliest one. */
  lemma LimitFillIsEarliestCrossing(m: Model, trades: seq<Trade>, sig: Signal)
    requires Sorted(TradeTimes(trades))
    ensures FillTime(m, trades, sig).Some? <==> exists i: nat :: IsHit(m, trades, i, sig)
    ensures FillTime(m, trades, sig).Some? ==>
              var ts := FillTime(m, trades, sig).value;
              && (exists i: nat :: IsHit(m, trades, i, sig) && ts == trades[i].ts)
              && (forall i: nat | IsHit(m, trades, i, sig) :: ts <= trades[i].ts)
  {
    var ts := TradeTimes(trades);
    var from, to := SearchSorted(ts, sig.ts, false), SearchSorted(ts, sig.ts + m.windowMs, true);
    forall i: nat | i < |trades| ensures InWindow(m, trades[i], sig) <==> from <= i < to {
      assert ts[i] == trades[i].ts;
    }
    var hit := FirstCrossing(trades, from, to, sig);
    if hit.Some? {
      assert IsHit(m, trades, hit.value, sig);
      forall i: nat | IsHit(m, trades, i, sig) ensures trades[hit.value].ts <= trades[i].ts {
        assert hit.value <= i;
        assert ts[hit.value] <= ts[i];
      }
    }
  }

  /** Later trades change nothing: after a fill none do, before one only those inside the window could. */
  lemma LimitFillHasNoLookAhead(m: Model, trades: seq<Trade>, later: seq<Trade>, hasFee: bool, sig: Signal)
    requires Sorted(TradeTimes(trades + later))
    requires FillTime(m, trades, sig).Some? || forall t | t in later :: t.ts > sig.ts + m.windowMs
    ensures LimitFill(m, trades + later, hasFee, sig) == LimitFill(m, trades, hasFee, sig)
  {
    var all := trades + later;
    assert Sorted(TradeTimes(trades)) by {
      assert forall i | 0 <= i < |trades| :: TradeTimes(trades)[i] == TradeTimes(all)[i];
    }
    LimitFillIsEarliestCrossing(m, trades, sig);
    LimitFillIsEarliestCrossing(m, all, sig);
    if FillTime(m, trades, sig).Some? {
      var i: nat :| IsHit(m, trades, i, sig) && FillTime(m, trades, sig).value == trades[i].ts;
      assert IsHit(m, all, i, sig);
      var j: nat :| IsHit(m, all, j, sig) && FillTime(m, all, sig).value == all[j].ts;
      HitAfterExtension(m, trades, later, sig, i, j);
    } else {
      forall i: nat ensures !IsHit(m, all, i, sig) {
        if i < |trades| {
          assert !IsHit(m, trades, i, sig);
        } else if i < |all| {
          assert all[i] in later;
        }
      }
    }
  }

  /** A hit of the longer history is no earlier than the earliest hit of the shorter one. */
  lemma HitAfterExtension(m: Model, trades: seq<Trade>, later: seq<Trade>, sig: Signal, i: nat, j: nat)
    requires Sorted(TradeTimes(trades + later))
    requires IsHit(m, trades, i, sig) && forall k: nat | IsHit(m, trades, k, sig) :: trades[i].ts <= trades[k].ts
    requires IsHit(m, trades + later, j, sig)
    ensures trades[i].ts <= (trades + later)[j].ts
  {
    if j < |trades| {
      assert IsHit(m, trades, j, sig);
    } else {
      assert TradeTimes(trades + later)[i] <= TradeTimes(trades + later)[j];
    }
  }

  function Filled(fills: seq<Option<FillRow>>): seq<FillRow> {
    if fills == [] then []
    else Filled(fills[..|fills| - 1]) + if fills[|fills| - 1].Some? then [fills[|fills| - 1].value] else []
  }

  /** Filled keeps the rows there are, in order: nothing for a missing one, one for each other. */
  lemma {:induction false} FilledKeepsOrder(a: seq<Option<FillRow>>, b: seq<Option<FillRow>>)
    ensures Filled(a + b) == Filled(a) + Filled(b)
    ensures forall row :: Filled([Some(row)]) == [row]
    ensures Filled([]) == Filled([None]) == []
    decreases |b|
  {
    assert forall x: Option<FillRow> :: [x][..0] == [];
    if b == [] {
      assert a + b == a;
    } else {
      var front := b[..|b| - 1];
      FilledKeepsOrder(a, front);
      assert (a + b)[..|a + b| - 1] == a + front;
    }
  }

  function LimitFills(m: Model, trades: seq<Trade>, hasFee: bool, sigs: seq<Signal>): (r: seq<Option<FillRow>>)
    ensures |r| == |sigs|
  {
    seq(|sigs|, j requires 0 <= j < |sigs| => LimitFill(m, trades, hasFee, sigs[j]))
  }

  /** `np.argmax` over the crossing mask of a window. */
  method FindCrossing(trades: seq<Trade>, from: nat, to: nat, sig: Signal) returns (hit: Option<nat>)
    requires to <= |trades|
    ensures hit == FirstCrossing(trades, from, to, sig)
  {
    var i := from;
    while i < to
      invariant from <= i
      invariant FirstCrossing(trades, from, to, sig) == FirstCrossing(trades, i, to, sig)
    {
      if Crosses(trades[i], sig) {
        return Some(i);
      }
      i := i + 1;
    }
    return None;
  }

  method FindFill(m: Model, trades: seq<Trade>, sig: Signal) returns (ts: Option<int>)
    ensures ts == FillTime(m, trades, sig)
  {
    var s := SearchSorted(TradeTimes(trades), sig.ts, false);
    var e := SearchSorted(TradeTimes(trades), sig.ts + m.windowMs, true);
    var hit := FindCrossing(trades, s, e, sig);
    return if hit.Some? then Some(trades[hit.value].ts) else None;
  }

  /** The loop of `_window_limit`: one flag and one fill time per signal. */
  method ScanWindows(m: Model, trades: seq<Trade>, sigs: seq<Signal>, filled: array<bool>, fillTs: array<int>)
    requires filled.Length == fillTs.Length == |sigs| && forall k | 0 <= k < |sigs| :: !filled[k]
    modifies filled, fillTs
    ensures forall k | 0 <= k < |sigs| :: FillTime(m, trades, sigs[k]) == if filled[k] then Some(fillTs[k]) else None
  {
    for j := 0 to |sigs|
      invariant forall k | 0 <= k < j :: FillTime(m, trades, sigs[k]) == if filled[k] then Some(fillTs[k]) else None
      invariant forall k | j <= k < |sigs| :: !filled[k]
    {
      var ts := FindFill(m, trades, sigs[j]);
      if ts.Some? {
        fillTs[j] := ts.value;
        filled[j] := true;
      }
    }
  }

  /** All limit orders of one asset: the rows of the filled signals, in signal order. */
  method WindowLimit(m: Model, trades: seq<Trade>, hasFee: bool, sigs: seq<Signal>) returns (rows: seq<FillRow>)
    ensures rows == Filled(LimitFills(m, trades, hasFee, sigs))
  {
    var fillTs := new int[|sigs|](_ => 0);
    var filled := new bool[|sigs|](_ => false);
    ScanWindows(m, trades, sigs, filled, fillTs);
    rows := [];
    ghost var all := LimitFills(m, trades, hasFee, sigs);
    for j := 0 to |sigs|
      invariant rows == Filled(all[..j])
    {
      assert all[..j + 1][..j] == all[..j];
      if filled[j] {
        rows := rows + [LimitRow(m, hasFee, sigs[j], fillTs[j])];
      }
    }
    assert all[..|sigs|] == all;
  }
}
