/** Amounts, fees and quotes as plain arithmetic, and what the functions of the two loops are in those terms. */
module Money {
  import opened Prelude
  import opened Market

  function Amount(quantity: real, price: real): real {
    quantity * price
  }

  function Fee(e: Engine, amount: real): real {
    amount * e.feeRate
  }

  /** A price, worse by the slippage. */
  function Quote(e: Engine, side: Action, price: real): real {
    price * (if side == Buy then 1.0 + e.slippageRate else 1.0 - e.slippageRate)
  }

  /** The account at a closing price: cash and what the position is worth. */
  function AccountAt(b: Book, close: real): real {
    b.cash + b.quantity * close
  }

  lemma SameMoney(e: Engine, quantity: real, price: real)
    ensures Worth(quantity, price) == Amount(quantity, price) && FeeOn(e, Worth(quantity, price)) == Fee(e, Amount(quantity, price))
    ensures BuyPrice(e, price) == Quote(e, Buy, price) && SellPrice(e, price) == Quote(e, Sell, price)
  {
  }

  lemma MarkedMeans(b: Book, close: real)
    ensures Marked(b, close) == AccountAt(b, close)
  {
  }

  // ---------------------------------------------------------------- the end of a run

  /** A position still open at the end is sold whole at the last close; the last equity point becomes the cash. */
  lemma LiquidatedMeans(e: Engine, b: Book, equity: seq<EquityPoint>, last: Bar)
    ensures var (after, points) := Liquidated(e, b, equity, last);
            if b.quantity > 0.0 then
              var price := Quote(e, Sell, last.close);
              var fee := Fee(e, Amount(b.quantity, price));
              && after.trades == b.trades + [Trade(Sell, last.time, price, b.quantity, fee, "end_of_backtest", None)]
              && after.quantity == 0.0 && after.cash == b.cash + (Amount(b.quantity, price) - fee)
              && |points| == |equity|
              && (equity != [] ==> points[..|equity| - 1] == equity[..|equity| - 1]
                                     && points[|equity| - 1] == EquityPoint(last.time, after.cash))
            else after == b && points == equity
  {
    SameMoney(e, b.quantity, SellPrice(e, last.close));
    SameMoney(e, b.quantity, last.close);
    hide Worth, FeeOn, SellPrice, Amount, Fee, Quote;
  }
}
