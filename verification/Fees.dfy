/** The bot's fees and the backtest's are the same dynamic taker fee, before rounding. */
module Fees {
  import FillModel
  import PaperGateways

  lemma SquareIsPower(x: real)
    ensures FillModel.Power(x, 2) == x * x
  {
    assert FillModel.Power(x, 0) == 1.0 && FillModel.Power(x, 1) == x * FillModel.Power(x, 0);
    assert FillModel.Power(x, 2) == x * FillModel.Power(x, 1);
  }

  /** The rate per share, a quarter of (p (1 - p)) squared, is the backtest's at its parameters. */
  lemma SameRate(m: FillModel.Model, price: real)
    requires m.feeRate == 0.25 && m.exponent == 2
    ensures PaperGateways.DynamicFeeRate(price) == FillModel.BaseFee(m, price)
    ensures PaperGateways.DynamicFeeRate(price) == 0.25 * ((price * (1.0 - price)) * (price * (1.0 - price)))
  {
    SquareIsPower(price * (1.0 - price));
  }

  /** A sale is charged size times rate, a buy the same converted at the price, in both programs. */
  lemma PaperFeesMatchBacktest(m: FillModel.Model, price: real, shares: real)
    requires m.feeRate == 0.25 && m.exponent == 2
    ensures PaperGateways.SellFee(shares, price) == FillModel.Charge(FillModel.BaseFee(m, price), price, shares, false)
    ensures PaperGateways.BuyFee(shares, price) == FillModel.Charge(FillModel.BaseFee(m, price), price, shares, true)
    ensures PaperGateways.BuyFee(shares, price) == PaperGateways.SellFee(shares, price) * price
  {
    SameRate(m, price);
  }
}
