/** Bars, trades, indicators, and the book both backtest loops keep. Prices and cash are exact reals; time is in seconds. */
module Market {
  import opened Prelude

  datatype Bar = Bar(time: int, open: real, high: real, low: real, close: real, volume: real)

  datatype Action = Hold | Buy | Sell

  /** `evidence` is the hash of what the decision saw; only the closing liquidation has none. */
  datatype Trade = Trade(
    side: Action,
    time: int,
    price: real,
    quantity: real,
    fee: real,
    reason: string,
    evidence: Option<string>)

  datatype EquityPoint = EquityPoint(time: int, equity: real)

  datatype Risk = Risk(
    positionPct: real,
    stopLossPct: Option<real>,
    takeProfitPct: Option<real>,
    maxDrawdownPct: Option<real>,
    riskBudgetPct: Option<real>,
    dailyLossLimitPct: Option<real>,
    maxTradeGroupsPerHour: Option<int>,
    maxEntryNotional: Option<real>)

  datatype Engine = Engine(initialCash: real, feeRate: real, slippageRate: real)

  datatype Error =
    | NoBars
    | InvalidStart
    | WindowNotPositive
    | UnsupportedCondition
    | NegativeQuantity
    | BarsNotStrictlyOrdered
    | ContextRejected
    | EvaluationFailed
    | FillFailed
    | ZeroDivision

  ghost predicate RatesOk(e: Engine) {
    0.0 <= e.feeRate <= 1.0 && 0.0 <= e.slippageRate <= 1.0 && 0.0 <= e.initialCash
  }

  ghost predicate PricesOk(bars: seq<Bar>) {
    forall i :: 0 <= i < |bars| ==> 0.0 <= bars[i].open && 0.0 <= bars[i].close
  }

  function MinReal(a: real, b: real): real {
    if b < a then b else a
  }

  function MaxReal(a: real, b: real): real {
    if b > a then b else a
  }

  // ---------------------------------------------------------------- sorting

  ghost predicate InOrder(bars: seq<Bar>) {
    forall i, j :: 0 <= i < j < |bars| ==> bars[i].time <= bars[j].time
  }

  /** Places a bar behind every bar that is not later: equal timestamps keep their order. */
  function InsertBar(bars: seq<Bar>, bar: Bar): seq<Bar> {
    if bars == [] || bars[|bars| - 1].time <= bar.time then bars + [bar]
    else InsertBar(bars[..|bars| - 1], bar) + [bars[|bars| - 1]]
  }

  /** `sorted(bars, key=timestamp)`, a stable sort. */
  function SortBars(bars: seq<Bar>): seq<Bar> {
    if bars == [] then [] else InsertBar(SortBars(bars[..|bars| - 1]), bars[|bars| - 1])
  }

  lemma {:induction false} InsertBarMembers(bars: seq<Bar>, bar: Bar)
    ensures multiset(InsertBar(bars, bar)) == multiset(bars) + multiset{bar}
  {
    if bars != [] && bars[|bars| - 1].time > bar.time {
      InsertBarMembers(bars[..|bars| - 1], bar);
      assert bars == bars[..|bars| - 1] + [bars[|bars| - 1]];
    }
  }

  lemma InOrderSnoc(bars: seq<Bar>, bar: Bar)
    requires InOrder(bars) && forall b :: b in bars ==> b.time <= bar.time
    ensures InOrder(bars + [bar])
  {
  }

  lemma {:induction false} InsertBarKeepsOrder(bars: seq<Bar>, bar: Bar)
    requires InOrder(bars)
    ensures InOrder(InsertBar(bars, bar))
  {
    if bars == [] || bars[|bars| - 1].time <= bar.time {
      InOrderSnoc(bars, bar);
    } else {
      var front, last := bars[..|bars| - 1], bars[|bars| - 1];
      InsertBarKeepsOrder(front, bar);
      InsertBarMembers(front, bar);
      forall b | b in InsertBar(front, bar) ensures b.time <= last.time {
        assert b in multiset(InsertBar(front, bar));
      }
      InOrderSnoc(InsertBar(front, bar), last);
    }
  }

  /** Sorting yields the same bars in timestamp order. */
  lemma {:induction false} SortBarsSorts(bars: seq<Bar>)
    ensures InOrder(SortBars(bars)) && multiset(SortBars(bars)) == multiset(bars)
    ensures |SortBars(bars)| == |bars|
  {
    if bars != [] {
      SortBarsSorts(bars[..|bars| - 1]);
      InsertBarKeepsOrder(SortBars(bars[..|bars| - 1]), bars[|bars| - 1]);
      InsertBarMembers(SortBars(bars[..|bars| - 1]), bars[|bars| - 1]);
      assert bars == bars[..|bars| - 1] + [bars[|bars| - 1]];
    }
    assert |multiset(SortBars(bars))| == |SortBars(bars)| && |multiset(bars)| == |bars|;
  }

  /** The bars with this timestamp, in their order. */
  function AtTime(bars: seq<Bar>, time: int): seq<Bar> {
    if bars == [] then []
    else AtTime(bars[..|bars| - 1], time) + if bars[|bars| - 1].time == time then [bars[|bars| - 1]] else []
  }

  lemma {:induction false} InsertBarIsStable(bars: seq<Bar>, bar: Bar, time: int)
    ensures AtTime(InsertBar(bars, bar), time) == AtTime(bars, time) + if bar.time == time then [bar] else []
  {
    if bars == [] || bars[|bars| - 1].time <= bar.time {
      assert (bars + [bar])[..|bars|] == bars;
    } else {
      InsertBarIsStable(bars[..|bars| - 1], bar, time);
    }
  }

  /** Sorting keeps the order of bars with one timestamp, so its result is determined. */
  lemma {:induction false} SortBarsIsStable(bars: seq<Bar>, time: int)
    ensures AtTime(SortBars(bars), time) == AtTime(bars, time)
  {
    if bars != [] {
      SortBarsIsStable(bars[..|bars| - 1], time);
      InsertBarIsStable(SortBars(bars[..|bars| - 1]), bars[|bars| - 1], time);
    }
  }

  lemma InsertAtEnd(bars: seq<Bar>, bar: Bar)
    requires bars == [] || bars[|bars| - 1].time <= bar.time
    ensures InsertBar(bars, bar) == bars + [bar]
  {
  }

  /** Bars already in order are left alone, so a prefix of sorted bars sorts to itself. */
  lemma {:induction false} SortedIsFixed(bars: seq<Bar>)
    requires InOrder(bars)
    ensures SortBars(bars) == bars
  {
    if bars != [] {
      var front, last := bars[..|bars| - 1], bars[|bars| - 1];
      assert InOrder(front) && (front != [] ==> front[|front| - 1].time <= last.time);
      assert bars == front + [last];
      hide InOrder, InsertBar;
      SortedIsFixed(front);
      InsertAtEnd(front, last);
    }
  }

  lemma SortedPrefixIsFixed(bars: seq<Bar>, k: nat)
    requires k <= |bars|
    ensures |SortBars(bars)| == |bars| && SortBars(SortBars(bars)[..k]) == SortBars(bars)[..k]
  {
    SortBarsSorts(bars);
    SortedIsFixed(SortBars(bars)[..k]);
  }

  // ---------------------------------------------------------------- indicators

  function Sum(values: seq<real>): real {
    if values == [] then 0.0 else Sum(values[..|values| - 1]) + values[|values| - 1]
  }

  function Sma(values: seq<real>, window: int, index: nat): Result<Option<real>, Error>
    requires index < |values|
  {
    if window <= 0 then Err(WindowNotPositive)
    else if index + 1 < window then Ok(None)
    else Ok(Some(Sum(values[index + 1 - window..index + 1]) / window as real))
  }

  /** Gains and losses over the `steps` changes ending at `index`. */
  function Moves(values: seq<real>, steps: nat, index: nat): (moves: (real, real))
    requires steps <= index < |values|
    ensures moves.0 >= 0.0 && moves.1 >= 0.0
  {
    if steps == 0 then (0.0, 0.0)
    else
      var rest := Moves(values, steps - 1, index);
      var change := values[index - steps + 1] - values[index - steps];
      if change >= 0.0 then (rest.0 + change, rest.1) else (rest.0, rest.1 - change)
  }

  function Rsi(values: seq<real>, window: int, index: nat): Result<Option<real>, Error>
    requires index < |values|
  {
    if window <= 0 then Err(WindowNotPositive)
    else if index < window then Ok(None)
    else
      var moves := Moves(values, window, index);
      var gain := moves.0 / window as real;
      var loss := moves.1 / window as real;
      if loss == 0.0 then Ok(Some(if gain > 0.0 then 100.0 else 50.0))
      else if gain == 0.0 then Ok(Some(0.0))
      else Ok(Some(100.0 - 100.0 / (1.0 + gain / loss)))
  }

  lemma {:induction false} MovesLocal(x: seq<real>, y: seq<real>, steps: nat, index: nat)
    requires steps <= index < |x| && index < |y| && x[..index + 1] == y[..index + 1]
    ensures Moves(x, steps, index) == Moves(y, steps, index)
  {
    if steps > 0 {
      MovesLocal(x, y, steps - 1, index);
      assert x[..index + 1][index - steps + 1] == x[index - steps + 1] && x[..index + 1][index - steps] == x[index - steps];
      assert y[..index + 1][index - steps + 1] == y[index - steps + 1] && y[..index + 1][index - steps] == y[index - steps];
    }
  }

  /** Both indicators read nothing after the index they are asked about. */
  lemma IndicatorsLocal(x: seq<real>, y: seq<real>, window: int, index: nat)
    requires index < |x| && index < |y| && x[..index + 1] == y[..index + 1]
    ensures Sma(x, window, index) == Sma(y, window, index)
    ensures Rsi(x, window, index) == Rsi(y, window, index)
    ensures x[index] == y[index]
  {
    assert x[..index + 1][index] == x[index] && y[..index + 1][index] == y[index];
    if 0 < window <= index + 1 {
      assert x[index + 1 - window..index + 1] == x[..index + 1][index + 1 - window..];
      assert y[index + 1 - window..index + 1] == y[..index + 1][index + 1 - window..];
    }
    if 0 < window <= index {
      MovesLocal(x, y, window, index);
    }
  }

  // ---------------------------------------------------------------- the book

  datatype Book = Book(cash: real, quantity: real, entryPrice: real, trades: seq<Trade>)

  function Worth(quantity: real, price: real): real {
    quantity * price
  }

  function FeeOn(e: Engine, amount: real): real {
    amount * e.feeRate
  }

  /** The account marked to a closing price. */
  function Marked(b: Book, close: real): real {
    b.cash + Worth(b.quantity, close)
  }

  function BuyPrice(e: Engine, quote: real): real {
    quote * (1.0 + e.slippageRate)
  }

  function SellPrice(e: Engine, quote: real): real {
    quote * (1.0 - e.slippageRate)
  }

  function Bought(b: Book, time: int, price: real, quantity: real, fee: real, reason: string, evidence: string): Book {
    Book(b.cash - (Worth(quantity, price) + fee), quantity, price,
         b.trades + [Trade(Buy, time, price, quantity, fee, reason, Some(evidence))])
  }

  function Sold(e: Engine, b: Book, time: int, price: real, reason: string, evidence: Option<string>): Book {
    var gross := Worth(b.quantity, price);
    var fee := FeeOn(e, gross);
    Book(b.cash + (gross - fee), 0.0, 0.0, b.trades + [Trade(Sell, time, price, b.quantity, fee, reason, evidence)])
  }

  /** What `_metrics` accumulates while it walks the trades. */
  datatype Tally = Tally(wins: nat, losses: nat, profit: real, loss: real, entry: Option<Trade>)

  function Tallied(t: Tally, trade: Trade): Tally {
    if trade.side == Buy then t.(entry := Some(trade))
    else if trade.side == Sell && t.entry.Some? then
      var pnl := Worth(trade.quantity, trade.price - t.entry.value.price) - t.entry.value.fee - trade.fee;
      if pnl >= 0.0 then t.(wins := t.wins + 1, profit := t.profit + pnl, entry := None)
      else t.(losses := t.losses + 1, loss := t.loss - pnl, entry := None)
    else t
  }

  function TallyOf(trades: seq<Trade>): Tally {
    if trades == [] then Tally(0, 0, 0.0, 0.0, None)
    else Tallied(TallyOf(trades[..|trades| - 1]), trades[|trades| - 1])
  }

  /** Buys and sells strictly alternate, and each sell closes the whole quantity of the buy before it. */
  ghost predicate Alternating(trades: seq<Trade>) {
    && (forall i :: 0 <= i < |trades| ==> trades[i].side == if i % 2 == 0 then Buy else Sell)
    && (forall i :: 0 <= i < |trades| - 1 && i % 2 == 0 ==> trades[i].quantity == trades[i + 1].quantity)
  }

  /** Cash is what the tally says it is, less what the open position cost. */
  ghost predicate Balanced(initial: real, b: Book) {
    var t := TallyOf(b.trades);
    && Alternating(b.trades)
    && t.loss >= 0.0 && t.profit >= 0.0
    && (if b.quantity == 0.0 then
          && t.entry.None? && b.cash == initial + t.profit - t.loss
          && |b.trades| == 2 * (t.wins + t.losses)
        else
          && b.quantity > 0.0 && b.trades != [] && t.entry == Some(b.trades[|b.trades| - 1])
          && t.entry.value.side == Buy
          && t.entry.value.quantity == b.quantity && t.entry.value.price == b.entryPrice
          && b.cash == initial + t.profit - t.loss - Worth(b.quantity, b.entryPrice) - t.entry.value.fee
          && |b.trades| == 2 * (t.wins + t.losses) + 1)
  }

  lemma BalancedQuantity(initial: real, b: Book)
    requires Balanced(initial, b)
    ensures b.quantity >= 0.0
  {
  }

  lemma FreshBalanced(e: Engine)
    ensures Balanced(e.initialCash, Book(e.initialCash, 0.0, 0.0, []))
  {
  }

  lemma BoughtBalanced(initial: real, b: Book, time: int, price: real, quantity: real, fee: real, reason: string, evidence: string)
    requires Balanced(initial, b) && b.quantity == 0.0 && quantity > 0.0
    ensures Balanced(initial, Bought(b, time, price, quantity, fee, reason, evidence))
  {
    var after := Bought(b, time, price, quantity, fee, reason, evidence);
    assert after.trades[..|after.trades| - 1] == b.trades;
    AlternatingSnoc(b.trades, after.trades[|b.trades|]);
    hide Alternating, Worth;
  }

  lemma AlternatingSnoc(trades: seq<Trade>, trade: Trade)
    requires Alternating(trades)
    requires if |trades| % 2 == 0 then trade.side == Buy
             else trade.side == Sell && trade.quantity == trades[|trades| - 1].quantity
    ensures Alternating(trades + [trade])
  {
  }

  lemma SoldBalanced(initial: real, e: Engine, b: Book, time: int, price: real, reason: string, evidence: Option<string>)
    requires Balanced(initial, b) && b.quantity > 0.0
    ensures Balanced(initial, Sold(e, b, time, price, reason, evidence))
  {
    var after := Sold(e, b, time, price, reason, evidence);
    assert after.trades[..|after.trades| - 1] == b.trades;
    AlternatingSnoc(b.trades, after.trades[|b.trades|]);
    WorthDiffers(b.quantity, price, b.entryPrice);
    hide Alternating, Worth, FeeOn;
  }

  lemma WorthDiffers(quantity: real, price: real, other: real)
    ensures Worth(quantity, price - other) == Worth(quantity, price) - Worth(quantity, other)
  {
  }

  lemma SellPriceOk(e: Engine, quote: real)
    requires RatesOk(e) && 0.0 <= quote
    ensures SellPrice(e, quote) >= 0.0
  {
  }

  lemma FeeAtMost(e: Engine, amount: real)
    requires RatesOk(e) && amount >= 0.0
    ensures 0.0 <= FeeOn(e, amount) <= amount
  {
  }

  lemma WorthOk(quantity: real, price: real)
    requires quantity >= 0.0 && price >= 0.0
    ensures Worth(quantity, price) >= 0.0
  {
  }

  lemma SoldKeepsCash(e: Engine, b: Book, time: int, price: real, reason: string, evidence: Option<string>)
    requires RatesOk(e) && b.quantity >= 0.0 && price >= 0.0
    ensures Sold(e, b, time, price, reason, evidence).cash >= b.cash
  {
    WorthOk(b.quantity, price);
    FeeAtMost(e, Worth(b.quantity, price));
    hide Worth, FeeOn;
  }

  /** The trades that came from decisions: all but a closing liquidation. */
  function Decided(trades: seq<Trade>): seq<Trade> {
    if trades != [] && trades[|trades| - 1].evidence.None? then trades[..|trades| - 1] else trades
  }

  /** `standardize_signal_action`. */
  function StandardAction(action: Action, quantity: real): Result<Action, Error> {
    if quantity < 0.0 then Err(NegativeQuantity)
    else if action == Buy && quantity > 0.0 then Ok(Hold)
    else if action == Sell && quantity <= 0.0 then Ok(Hold)
    else Ok(action)
  }

  datatype Report = Report(trades: seq<Trade>, equity: seq<EquityPoint>)

  /** Closes an open position at the last bar and overwrites the last equity point. */
  function Liquidated(e: Engine, b: Book, equity: seq<EquityPoint>, last: Bar): (Book, seq<EquityPoint>) {
    if b.quantity > 0.0 then
      var after := Sold(e, b, last.time, SellPrice(e, last.close), "end_of_backtest", None);
      (after, if equity == [] then equity else equity[..|equity| - 1] + [EquityPoint(last.time, after.cash)])
    else (b, equity)
  }

  /** Money is conserved: what the account gained is what the round trips made, and the run ends flat. */
  ghost predicate Conserved(e: Engine, r: Report) {
    var t := TallyOf(r.trades);
    && r.equity != []
    && r.equity[|r.equity| - 1].equity - e.initialCash == t.profit - t.loss
    && t.entry.None? && Alternating(r.trades)
    && |r.trades| == 2 * (t.wins + t.losses)
  }

  lemma LiquidatedConserved(e: Engine, b: Book, equity: seq<EquityPoint>, last: Bar)
    requires Balanced(e.initialCash, b) && equity != []
    requires equity[|equity| - 1].equity == Marked(b, last.close)
    ensures var (after, points) := Liquidated(e, b, equity, last);
            Balanced(e.initialCash, after) && after.quantity == 0.0 && Conserved(e, Report(after.trades, points))
  {
    if b.quantity > 0.0 {
      SoldBalanced(e.initialCash, e, b, last.time, SellPrice(e, last.close), "end_of_backtest", None);
    } else {
      BalancedQuantity(e.initialCash, b);
      assert Marked(b, last.close) == b.cash;
    }
    hide Sold, Worth, TallyOf, Alternating;
  }

  lemma LiquidatedCash(e: Engine, b: Book, equity: seq<EquityPoint>, last: Bar)
    requires Balanced(e.initialCash, b) && equity != [] && RatesOk(e) && 0.0 <= last.close && b.cash >= 0.0
    requires equity[|equity| - 1].equity == Marked(b, last.close)
    ensures var (after, points) := Liquidated(e, b, equity, last);
            points != [] && points[|points| - 1].equity >= 0.0
  {
    BalancedQuantity(e.initialCash, b);
    hide Balanced, Sold, Worth;
    WorthOk(b.quantity, last.close);
    SellPriceOk(e, last.close);
    SoldKeepsCash(e, b, last.time, SellPrice(e, last.close), "end_of_backtest", None);
  }

  // ---------------------------------------------------------------- reports of the same run, cut short

  /** The trade is dated with one of the bars. */
  predicate DatedBy(t: Trade, bars: seq<Bar>) {
    exists j :: 0 <= j < |bars| && bars[j].time == t.time
  }

  predicate AllDated(trades: seq<Trade>, bars: seq<Bar>) {
    forall i :: 0 <= i < |trades| ==> DatedBy(trades[i], bars)
  }

  /**
   On the first `k` bars, `early` reports the decisions that `full` dates with those bars and none that it dates with
   later ones, and the same equity, up to its own liquidation.
   */
  ghost predicate SeesNoFurther(early: Report, full: Report, bars: seq<Bar>, k: nat, points: nat)
    requires k <= |bars|
  {
    && Decided(early.trades) <= Decided(full.trades)
    && AllDated(Decided(early.trades), bars[..k])
    && AllDated(Decided(full.trades)[|Decided(early.trades)|..], bars[k..])
    && |early.equity| == points + 1
    && early.equity[..points] <= full.equity
    && (Decided(early.trades) == early.trades && points + 1 < |full.equity| ==> early.equity <= full.equity)
  }

  /** The decisions of `early` are exactly those of `full` up to this time. */
  ghost predicate CutAt(early: Report, full: Report, time: int) {
    && Decided(early.trades) <= Decided(full.trades)
    && forall i :: 0 <= i < |Decided(full.trades)| ==> (i < |Decided(early.trades)| <==> Decided(full.trades)[i].time <= time)
  }

  /** One more bar with at most one more trade, dated with that bar. */
  lemma DatesGrow(early: seq<Trade>, before: seq<Trade>, after: seq<Trade>, bars: seq<Bar>, k: nat, n: nat)
    requires k < n <= |bars| && early <= before && AllDated(before[|early|..], bars[k..n - 1])
    requires after == before || (|after| == |before| + 1 && before <= after && after[|before|].time == bars[n - 1].time)
    ensures AllDated(after[|early|..], bars[k..n])
  {
    forall i | 0 <= i < |after[|early|..]| ensures DatedBy(after[|early|..][i], bars[k..n]) {
      if |early| + i < |before| {
        assert DatedBy(before[|early|..][i], bars[k..n - 1]);
        var j :| 0 <= j < |bars[k..n - 1]| && bars[k..n - 1][j].time == before[|early|..][i].time;
        assert bars[k..n][j] == bars[k..n - 1][j];
      } else {
        assert bars[k..n][n - 1 - k] == bars[n - 1];
      }
    }
  }

  lemma LiquidationSeesNoFurther(e: Engine, b0: Book, early: seq<EquityPoint>, b1: Book, full: seq<EquityPoint>, bars: seq<Bar>, k: nat)
    requires 0 < k <= |bars| && early != [] && early <= full && b0.trades <= b1.trades
    requires forall t :: t in b1.trades ==> t.evidence.Some?
    requires AllDated(b0.trades, bars[..k]) && AllDated(b1.trades[|b0.trades|..], bars[k..])
    ensures var (c0, p0) := Liquidated(e, b0, early, bars[k - 1]);
            var (c1, p1) := Liquidated(e, b1, full, bars[|bars| - 1]);
            SeesNoFurther(Report(c0.trades, p0), Report(c1.trades, p1), bars, k, |early| - 1)
  {
    hide DatedBy;
    LiquidatedDecided(e, b0, early, bars[k - 1]);
    LiquidatedDecided(e, b1, full, bars[|bars| - 1]);
  }

  lemma LiquidatedDecided(e: Engine, b: Book, equity: seq<EquityPoint>, last: Bar)
    requires forall t :: t in b.trades ==> t.evidence.Some?
    ensures Decided(Liquidated(e, b, equity, last).0.trades) == b.trades
  {
  }

  /** Where the time moves on between the two parts, the time of the last early bar separates the decisions. */
  lemma SeesNoFurtherCuts(early: Report, full: Report, bars: seq<Bar>, k: nat, points: nat)
    requires 0 < k <= |bars| && SeesNoFurther(early, full, bars, k, points)
    requires InOrder(bars) && (k < |bars| ==> bars[k - 1].time < bars[k].time)
    ensures CutAt(early, full, bars[k - 1].time)
  {
    hide Decided;
    var n := |Decided(early.trades)|;
    forall i | 0 <= i < |Decided(full.trades)| ensures i < n <==> Decided(full.trades)[i].time <= bars[k - 1].time {
      if i < n {
        assert DatedBy(Decided(early.trades)[i], bars[..k]);
      } else {
        assert DatedBy(Decided(full.trades)[n..][i - n], bars[k..]);
      }
    }
  }

  lemma SortedPricesOk(bars: seq<Bar>)
    requires PricesOk(bars)
    ensures PricesOk(SortBars(bars))
  {
    SortBarsSorts(bars);
    forall i | 0 <= i < |SortBars(bars)| ensures 0.0 <= SortBars(bars)[i].open && 0.0 <= SortBars(bars)[i].close {
      assert SortBars(bars)[i] in multiset(SortBars(bars));
      assert SortBars(bars)[i] in multiset(bars);
    }
  }
}
