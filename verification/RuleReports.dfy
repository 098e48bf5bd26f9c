/**
 A whole rule run told on its report: every trade, and every bar without one, with what called for it, and the account's
 value at each close worked out from the trades.
 */
module RuleReports {
  import opened Prelude
  import opened Market
  import opened Money
  import opened RuleBacktest
  import opened RuleSignals

  // ---------------------------------------------------------------- the report

  lemma {:induction false} LoopFollows(e: Engine, s: Strategy, bars: seq<Bar>, start: nat, k: nat)
    requires k <= |bars| && RuleLoop(e, s, bars, start, k).Ok?
    ensures Follows(e, RuleLoop(e, s, bars, start, k).value.book)
    ensures k <= start ==> RuleLoop(e, s, bars, start, k).value == InitialState(e)
  {
    hide RuleStep, Follows, BarTrades;
    if k == 0 {
      FreshFollows(e);
    } else {
      LoopFollows(e, s, bars, start, k - 1);
      if k - 1 >= start {
        StepTrades(e, s, bars, k - 1, RuleLoop(e, s, bars, start, k - 1).value);
      }
    }
  }

  lemma FreshFollows(e: Engine)
    ensures Follows(e, InitialState(e).book)
  {
  }

  lemma LoopTrades(e: Engine, s: Strategy, bars: seq<Bar>, start: nat, k: nat)
    requires start <= k < |bars| && RuleLoop(e, s, bars, start, k + 1).Ok? && RuleLoop(e, s, bars, start, k).Ok?
    ensures var b, after := RuleLoop(e, s, bars, start, k).value.book, RuleLoop(e, s, bars, start, k + 1).value.book;
            BarTrades(e, s, bars, k, b.trades, after.trades)
    ensures RuleLoop(e, s, bars, start, k + 1).value.equity
         == RuleLoop(e, s, bars, start, k).value.equity
            + [EquityPoint(bars[k].time, AccountAt(RuleLoop(e, s, bars, start, k + 1).value.book, bars[k].close))]
  {
    LoopFollows(e, s, bars, start, k);
    MarkedMeans(RuleLoop(e, s, bars, start, k + 1).value.book, bars[k].close);
    hide Follows, BarTrades, AccountAt, Marked, Proposal, Execute;
    StepTrades(e, s, bars, k, RuleLoop(e, s, bars, start, k).value);
  }

  /** What the account is worth at a close, from the trades alone. */
  function WorthAfter(initial: real, trades: seq<Trade>, close: real): real {
    CashAfter(initial, trades) + if |trades| % 2 == 1 then Amount(trades[|trades| - 1].quantity, close) else 0.0
  }

  /**
   The trades of a run, told bar by bar: `counts` says how many have been made before each evaluated bar and at the end.
   Every bar makes the trade that the trades before it and the bars up to it call for, or none if they call for none.
   */
  ghost predicate Story(e: Engine, s: Strategy, bars: seq<Bar>, start: nat, trades: seq<Trade>, counts: seq<nat>) {
    && start <= |bars| && |counts| == |bars| - start + 1 && counts[0] == 0 && counts[|bars| - start] == |trades|
    && forall i :: start <= i < |bars| ==> BarTold(e, s, bars, start, trades, counts, i)
  }

  ghost predicate BarTold(e: Engine, s: Strategy, bars: seq<Bar>, start: nat, trades: seq<Trade>, counts: seq<nat>, i: nat)
    requires start <= i < |bars| && |counts| == |bars| - start + 1
  {
    && counts[i - start] <= |trades| && counts[i - start + 1] <= |trades|
    && BarTrades(e, s, bars, i, trades[..counts[i - start]], trades[..counts[i - start + 1]])
  }

  /** One equity point for each evaluated bar: what the account is worth at its close, after its trade. */
  ghost predicate Points(e: Engine, bars: seq<Bar>, start: nat, trades: seq<Trade>, counts: seq<nat>, equity: seq<EquityPoint>) {
    && start <= |bars| && |counts| == |bars| - start + 1 && |equity| == |bars| - start
    && forall i :: start <= i < |bars| ==> PointTold(e, bars, start, trades, counts, equity, i)
  }

  ghost predicate PointTold(e: Engine, bars: seq<Bar>, start: nat, trades: seq<Trade>, counts: seq<nat>, equity: seq<EquityPoint>, i: nat)
    requires start <= i < |bars| && |counts| == |bars| - start + 1 && |equity| == |bars| - start
  {
    && counts[i - start + 1] <= |trades|
    && equity[i - start] == EquityPoint(bars[i].time, WorthAfter(e.initialCash, trades[..counts[i - start + 1]], bars[i].close))
  }

  ghost function CountsOf(e: Engine, s: Strategy, bars: seq<Bar>, start: nat): seq<nat>
    requires start <= |bars| && forall k: nat :: k <= |bars| ==> RuleLoop(e, s, bars, start, k).Ok?
  {
    seq(|bars| - start + 1, j requires 0 <= j <= |bars| - start => |RuleLoop(e, s, bars, start, start + j).value.book.trades|)
  }

  lemma AllBarsOk(e: Engine, s: Strategy, bars: seq<Bar>, start: nat)
    requires RuleLoop(e, s, bars, start, |bars|).Ok?
    ensures forall k: nat :: k <= |bars| ==> RuleLoop(e, s, bars, start, k).Ok?
  {
    forall k: nat | k <= |bars| ensures RuleLoop(e, s, bars, start, k).Ok? {
      LoopGrows(e, s, bars, start, k, |bars|);
    }
  }

  lemma FollowsWorth(e: Engine, b: Book, close: real)
    requires Follows(e, b) && b.quantity >= 0.0
    ensures AccountAt(b, close) == WorthAfter(e.initialCash, b.trades, close)
  {
  }

  /** The book after a bar, once worked out from its trades. */
  lemma BookTold(e: Engine, s: Strategy, bars: seq<Bar>, start: nat, k: nat, close: real)
    requires k <= |bars| && RuleLoop(e, s, bars, start, k).Ok?
    ensures var b := RuleLoop(e, s, bars, start, k).value.book; AccountAt(b, close) == WorthAfter(e.initialCash, b.trades, close)
  {
    LoopFollows(e, s, bars, start, k);
    LoopBalanced(e, s, bars, start, k);
    hide RuleLoop, AccountAt, WorthAfter, Follows, Balanced;
    BalancedQuantity(e.initialCash, RuleLoop(e, s, bars, start, k).value.book);
    FollowsWorth(e, RuleLoop(e, s, bars, start, k).value.book, close);
  }

  lemma BarStory(e: Engine, s: Strategy, bars: seq<Bar>, start: nat, i: nat)
    requires start <= i < |bars| && RuleLoop(e, s, bars, start, |bars|).Ok?
    requires forall k: nat :: k <= |bars| ==> RuleLoop(e, s, bars, start, k).Ok?
    ensures var st, counts := RuleLoop(e, s, bars, start, |bars|).value, CountsOf(e, s, bars, start);
            && BarTold(e, s, bars, start, st.book.trades, counts, i)
            && |st.equity| == |bars| - start && PointTold(e, bars, start, st.book.trades, counts, st.equity, i)
  {
    hide RuleLoop, BarTrades, WorthAfter, AccountAt;
    LoopTrades(e, s, bars, start, i);
    LoopGrows(e, s, bars, start, i, |bars|);
    LoopGrows(e, s, bars, start, i + 1, |bars|);
    LoopGrows(e, s, bars, start, i, i);
    BookTold(e, s, bars, start, i + 1, bars[i].close);
    var st, counts := RuleLoop(e, s, bars, start, |bars|).value, CountsOf(e, s, bars, start);
    var before, after := RuleLoop(e, s, bars, start, i).value, RuleLoop(e, s, bars, start, i + 1).value;
    assert start + (i - start) == i && start + (i - start + 1) == i + 1;
    assert counts[i - start] == |before.book.trades| && counts[i - start + 1] == |after.book.trades|;
    assert st.book.trades[..|before.book.trades|] == before.book.trades && st.book.trades[..|after.book.trades|] == after.book.trades;
    assert st.equity[i - start] == after.equity[i - start];
  }

  lemma LoopStory(e: Engine, s: Strategy, bars: seq<Bar>, start: nat)
    requires start < |bars| && RuleLoop(e, s, bars, start, |bars|).Ok?
    requires forall k: nat :: k <= |bars| ==> RuleLoop(e, s, bars, start, k).Ok?
    ensures Story(e, s, bars, start, RuleLoop(e, s, bars, start, |bars|).value.book.trades, CountsOf(e, s, bars, start))
    ensures var st := RuleLoop(e, s, bars, start, |bars|).value;
            Points(e, bars, start, st.book.trades, CountsOf(e, s, bars, start), st.equity)
  {
    hide RuleLoop, BarTold, PointTold;
    LoopFollows(e, s, bars, start, start);
    forall i: nat | start <= i < |bars|
      ensures BarTold(e, s, bars, start, RuleLoop(e, s, bars, start, |bars|).value.book.trades, CountsOf(e, s, bars, start), i)
    {
      BarStory(e, s, bars, start, i);
    }
    LoopGrows(e, s, bars, start, start, |bars|);
    var st := RuleLoop(e, s, bars, start, |bars|).value;
    BarStory(e, s, bars, start, start);
    forall i: nat | start <= i < |bars| ensures PointTold(e, bars, start, st.book.trades, CountsOf(e, s, bars, start), st.equity, i) {
      BarStory(e, s, bars, start, i);
    }
  }

  /** The report: the story's trades, and the sale of what is still held at the end, which sets the last point. */
  ghost predicate Reports(e: Engine, bars: seq<Bar>, start: nat, r: Report, trades: seq<Trade>, counts: seq<nat>) {
    exists points ::
      && Points(e, bars, start, trades, counts, points) && points != [] && bars != []
      && WindsUp(e, bars[|bars| - 1], r, trades, points)
  }

  ghost predicate WindsUp(e: Engine, last: Bar, r: Report, trades: seq<Trade>, points: seq<EquityPoint>)
    requires points != []
  {
    if |trades| % 2 == 1 then
      var price, quantity := Quote(e, Sell, last.close), trades[|trades| - 1].quantity;
      var sale := Trade(Sell, last.time, price, quantity, Fee(e, Amount(quantity, price)), "end_of_backtest", None);
      && r.trades == trades + [sale]
      && r.equity == points[..|points| - 1] + [EquityPoint(last.time, CashAfter(e.initialCash, trades + [sale]))]
    else r.trades == trades && r.equity == points
  }

  /**
   A whole run, told on its report: there is a story of its trades over the sorted bars, its equity points value the
   account by those trades, and what is still held at the end is sold at the last close.
   */
  lemma RunTold(e: Engine, s: Strategy, bars: seq<Bar>, start: int)
    requires RunRules(e, s, bars, start).Ok? && 0 <= start
    ensures exists trades, counts ::
              && Story(e, s, SortBars(bars), start, trades, counts)
              && Reports(e, SortBars(bars), start, RunRules(e, s, bars, start).value, trades, counts)
  {
    var ordered := SortBars(bars);
    AllBarsOk(e, s, ordered, start);
    var st := RuleLoop(e, s, ordered, start, |ordered|).value;
    LoopStory(e, s, ordered, start);
    LoopFollows(e, s, ordered, start, |ordered|);
    LoopBalanced(e, s, ordered, start, |ordered|);
    hide SortBars, RuleLoop, Story, Points, Liquidated, WindsUp, Balanced, Follows;
    BalancedQuantity(e.initialCash, st.book);
    WindsUpMeans(e, st.book, st.equity, ordered[|ordered| - 1]);
    assert st.equity != [] by {
      PointsSome(e, ordered, start, st.book.trades, CountsOf(e, s, ordered, start), st.equity);
    }
  }

  lemma PointsSome(e: Engine, bars: seq<Bar>, start: nat, trades: seq<Trade>, counts: seq<nat>, equity: seq<EquityPoint>)
    requires Points(e, bars, start, trades, counts, equity) && start < |bars|
    ensures equity != []
  {
  }

  lemma WindsUpMeans(e: Engine, b: Book, equity: seq<EquityPoint>, last: Bar)
    requires Follows(e, b) && b.quantity >= 0.0
    ensures equity != [] ==>
              WindsUp(e, last, Report(Liquidated(e, b, equity, last).0.trades, Liquidated(e, b, equity, last).1), b.trades, equity)
  {
    LiquidatedMeans(e, b, equity, last);
    var price := Quote(e, Sell, last.close);
    CashGrows(e.initialCash, b.trades, Trade(Sell, last.time, price, b.quantity, Fee(e, Amount(b.quantity, price)), "end_of_backtest", None));
    hide Liquidated, Quote, Fee, Amount, CashAfter;
  }

  // ---------------------------------------------------------------- what the story says of single trades

  /** Trade `j` is made on bar `i`. */
  ghost predicate MadeOn(bars: seq<Bar>, start: nat, counts: seq<nat>, j: nat, i: nat) {
    start <= i < |bars| && |counts| == |bars| - start + 1 && counts[i - start] == j && counts[i - start + 1] == j + 1
  }

  lemma CountsStep(e: Engine, s: Strategy, bars: seq<Bar>, start: nat, trades: seq<Trade>, counts: seq<nat>, i: nat)
    requires start <= i < |bars| && |counts| == |bars| - start + 1 && BarTold(e, s, bars, start, trades, counts, i)
    ensures counts[i - start + 1] == counts[i - start] || counts[i - start + 1] == counts[i - start] + 1
  {
    hide AllHold, CanBuy, NothingSells, SoldFor, Purchase, Sale, CashAfter;
    var before, after := trades[..counts[i - start]], trades[..counts[i - start + 1]];
    assert after == before || |after| == |before| + 1;
  }

  lemma {:induction false} EveryTradeIsMade(e: Engine, s: Strategy, bars: seq<Bar>, start: nat, trades: seq<Trade>, counts: seq<nat>, j: nat, k: nat)
    returns (i: nat)
    requires Story(e, s, bars, start, trades, counts) && start <= k <= |bars| && j < counts[k - start]
    ensures MadeOn(bars, start, counts, j, i) && i < k
    decreases k
  {
    hide BarTold;
    assert k > start;
    CountsStep(e, s, bars, start, trades, counts, k - 1);
    if j < counts[k - 1 - start] {
      i := EveryTradeIsMade(e, s, bars, start, trades, counts, j, k - 1);
    } else {
      i := k - 1;
    }
  }

  /**
   Every sale of a run is dated with a bar that calls for it: at or below the stop, at or above the target with the stop
   not hit, or on its exit conditions with neither; and it sells what the purchase before it bought, at that bar's close.
   */
  lemma EverySale(e: Engine, s: Strategy, bars: seq<Bar>, start: nat, trades: seq<Trade>, counts: seq<nat>, j: nat) returns (i: nat)
    requires Story(e, s, bars, start, trades, counts) && j < |trades| && j % 2 == 1
    ensures MadeOn(bars, start, counts, j, i) && trades[j] == Sale(e, s, trades[j - 1].quantity, bars, i, trades[j].reason)
    ensures trades[j].reason in {"stop_loss", "take_profit", "exit_conditions"}
    ensures trades[j].reason == "stop_loss" <==> StopHit(s, trades[j - 1].price, bars[i].close)
    ensures trades[j].reason == "take_profit" <==>
              !StopHit(s, trades[j - 1].price, bars[i].close) && TargetHit(s, trades[j - 1].price, bars[i].close)
    ensures trades[j].reason == "exit_conditions" ==> AllHold(s.exit, bars, i)
  {
    i := EveryTradeIsMade(e, s, bars, start, trades, counts, j, |bars|);
    assert BarTold(e, s, bars, start, trades, counts, i);
    hide AllHold, CashAfter, StopHit, TargetHit, Sale, Purchase, CanBuy;
    assert trades[..j][j - 1] == trades[j - 1] && trades[..j + 1][j] == trades[j];
    assert "stop_loss" != "take_profit" && "stop_loss" != "exit_conditions" && "take_profit" != "exit_conditions" by {
      assert |"stop_loss"| == 9 && |"take_profit"| == 11 && |"exit_conditions"| == 15;
    }
    SaleReason(e, s, bars, i, trades[j - 1]);
  }

  lemma SaleReason(e: Engine, s: Strategy, bars: seq<Bar>, i: nat, bought: Trade)
    requires i < |bars|
    ensures forall reason :: Sale(e, s, bought.quantity, bars, i, reason).reason == reason
  {
  }

  /** Every purchase of a run is dated with a bar on which the account is flat, all entry conditions hold and the cash pays the stake. */
  lemma EveryPurchase(e: Engine, s: Strategy, bars: seq<Bar>, start: nat, trades: seq<Trade>, counts: seq<nat>, j: nat) returns (i: nat)
    requires Story(e, s, bars, start, trades, counts) && j < |trades| && j % 2 == 0
    ensures MadeOn(bars, start, counts, j, i) && AllHold(s.entry, bars, i)
    ensures var cash := CashAfter(e.initialCash, trades[..j]);
            CanBuy(e, s, cash, bars[i].close) && trades[j] == Purchase(e, s, cash, bars, i)
  {
    i := EveryTradeIsMade(e, s, bars, start, trades, counts, j, |bars|);
    assert BarTold(e, s, bars, start, trades, counts, i);
    hide AllHold, CashAfter, StopHit, TargetHit, Sale, Purchase, CanBuy;
    assert trades[..j + 1][j] == trades[j];
  }

  /** While a position stays open over a bar, that bar's close is strictly between stop and target and its exit conditions do not all hold. */
  lemma HeldOver(e: Engine, s: Strategy, bars: seq<Bar>, start: nat, trades: seq<Trade>, counts: seq<nat>, i: nat)
    requires Story(e, s, bars, start, trades, counts) && start <= i < |bars|
    requires counts[i - start] % 2 == 1 && counts[i - start + 1] == counts[i - start]
    ensures 0 < counts[i - start] <= |trades|
    ensures var bought := trades[counts[i - start] - 1].price;
            && (s.risk.stopLossPct.Some? ==> bars[i].close > bought * (1.0 - s.risk.stopLossPct.value))
            && (s.risk.takeProfitPct.Some? ==> bars[i].close < bought * (1.0 + s.risk.takeProfitPct.value))
            && !AllHold(s.exit, bars, i)
  {
    assert BarTold(e, s, bars, start, trades, counts, i);
    var n := counts[i - start];
    assert trades[..n][n - 1] == trades[n - 1];
    hide AllHold, CashAfter, Sale, Purchase, CanBuy, SoldFor;
  }

  /** A flat bar without a purchase is one on which some entry condition fails or the stake cannot be paid. */
  lemma FlatOver(e: Engine, s: Strategy, bars: seq<Bar>, start: nat, trades: seq<Trade>, counts: seq<nat>, i: nat)
    requires Story(e, s, bars, start, trades, counts) && start <= i < |bars|
    requires counts[i - start] % 2 == 0 && counts[i - start + 1] == counts[i - start]
    ensures counts[i - start] <= |trades|
    ensures !AllHold(s.entry, bars, i) || !CanBuy(e, s, CashAfter(e.initialCash, trades[..counts[i - start]]), bars[i].close)
  {
    assert BarTold(e, s, bars, start, trades, counts, i);
    hide AllHold, CashAfter, Sale, Purchase, CanBuy, SoldFor;
  }
}
