/**
 When the rule run trades and for what, told on its report alone: bar after bar, what the trades so far and the bars up
 to that one say must happen.
 */
module RuleSignals {
  import opened Prelude
  import opened Market
  import opened Money
  import opened Indicators
  import opened RuleBacktest

  // ---------------------------------------------------------------- conditions

  /** The condition holds on a bar: an inequality between a close or a volume and its mean, or the RSI and its threshold. */
  ghost predicate Holds(c: Condition, bars: seq<Bar>, i: nat)
    requires i < |bars|
  {
    match c.kind
    case CloseAboveSma => exists mean :: IsMean(Closes(bars), c.window, i, mean) && bars[i].close > mean
    case CloseBelowSma => exists mean :: IsMean(Closes(bars), c.window, i, mean) && bars[i].close < mean
    case VolumeAboveSma => exists mean :: IsMean(Volumes(bars), c.window, i, mean) && bars[i].volume > mean
    case RsiBelow => exists rsi :: IsRsi(Closes(bars), c.window, i, rsi) && rsi < c.threshold
    case RsiAbove => exists rsi :: IsRsi(Closes(bars), c.window, i, rsi) && rsi > c.threshold
    case OtherKind => false
  }

  /** There are conditions, and all of them hold. */
  ghost predicate AllHold(cs: seq<Condition>, bars: seq<Bar>, i: nat)
    requires i < |bars|
  {
    cs != [] && forall c :: c in cs ==> Holds(c, bars, i)
  }

  lemma ConditionMeans(c: Condition, bars: seq<Bar>, i: nat)
    requires i < |bars|
    ensures ConditionMet(c, Closes(bars), Volumes(bars), i) == Ok(true) <==> Holds(c, bars, i)
  {
    var closes, volumes := Closes(bars), Volumes(bars);
    var series := if c.kind == VolumeAboveSma then volumes else closes;
    forall mean ensures Sma(series, c.window, i) == Ok(Some(mean)) <==> IsMean(series, c.window, i, mean) {
      SmaMeans(series, c.window, i, mean);
    }
    forall rsi ensures Rsi(series, c.window, i) == Ok(Some(rsi)) <==> IsRsi(series, c.window, i, rsi) {
      RsiMeans(series, c.window, i, rsi);
    }
    assert closes[i] == bars[i].close && volumes[i] == bars[i].volume;
    hide Sma, Rsi, IsMean, IsRsi, Closes, Volumes;
    if Sma(series, c.window, i).Ok? && Sma(series, c.window, i).value.Some? {
      assert IsMean(series, c.window, i, Sma(series, c.window, i).value.value);
    }
    if Rsi(series, c.window, i).Ok? && Rsi(series, c.window, i).value.Some? {
      assert IsRsi(series, c.window, i, Rsi(series, c.window, i).value.value);
    }
  }

  lemma {:induction false} AllMeans(cs: seq<Condition>, bars: seq<Bar>, i: nat)
    requires i < |bars|
    ensures AllMet(cs, Closes(bars), Volumes(bars), i) == Ok(true) <==> forall c :: c in cs ==> Holds(c, bars, i)
  {
    hide ConditionMet, Holds, Closes, Volumes;
    if cs != [] {
      ConditionMeans(cs[0], bars, i);
      AllMeans(cs[1..], bars, i);
      assert forall c :: c in cs <==> c == cs[0] || c in cs[1..];
    }
  }

  lemma ConditionsMean(cs: seq<Condition>, bars: seq<Bar>, i: nat)
    requires i < |bars|
    ensures ConditionsMet(cs, Closes(bars), Volumes(bars), i) == Ok(true) <==> AllHold(cs, bars, i)
  {
    AllMeans(cs, bars, i);
    hide AllMet, Holds, Closes, Volumes;
  }

  // ---------------------------------------------------------------- one bar

  /** A close at or below the stop, or at or above the target, of a position bought at this price. */
  predicate StopHit(s: Strategy, bought: real, close: real) {
    s.risk.stopLossPct.Some? && close <= bought * (1.0 - s.risk.stopLossPct.value)
  }

  predicate TargetHit(s: Strategy, bought: real, close: real) {
    s.risk.takeProfitPct.Some? && close >= bought * (1.0 + s.risk.takeProfitPct.value)
  }

  /** What leaves the cash for a purchase: the allowed share of it. */
  function Stake(s: Strategy, cash: real): real {
    var share := s.risk.positionPct;
    cash * (if share > 1.0 then 1.0 else if share < 0.0 then 0.0 else share)
  }

  /** Something is bought for the stake, and the cash pays it with its fee. */
  predicate CanBuy(e: Engine, s: Strategy, cash: real, close: real) {
    var price, stake := Quote(e, Buy, close), Stake(s, cash);
    price != 0.0 && stake / price > 0.0 && stake + Fee(e, stake) <= cash
  }

  /** The purchase: the stake's worth at the quoted close, the fee on the stake. */
  function Purchase(e: Engine, s: Strategy, cash: real, bars: seq<Bar>, i: nat): Trade
    requires i < |bars| && Quote(e, Buy, bars[i].close) != 0.0
  {
    var price, stake := Quote(e, Buy, bars[i].close), Stake(s, cash);
    Trade(Buy, bars[i].time, price, stake / price, Fee(e, stake), "entry_conditions", Some(s.snapshot(bars[..i + 1])))
  }

  /** The sale of a whole position at the quoted close. */
  function Sale(e: Engine, s: Strategy, quantity: real, bars: seq<Bar>, i: nat, reason: string): Trade
    requires i < |bars|
  {
    var price := Quote(e, Sell, bars[i].close);
    Trade(Sell, bars[i].time, price, quantity, Fee(e, Amount(quantity, price)), reason, Some(s.snapshot(bars[..i + 1])))
  }

  /** Why an open position is sold on a bar: the stop before the target before the exit conditions. */
  ghost predicate SoldFor(s: Strategy, bought: real, bars: seq<Bar>, i: nat, reason: string)
    requires i < |bars|
  {
    || (reason == "stop_loss" && StopHit(s, bought, bars[i].close))
    || (reason == "take_profit" && !StopHit(s, bought, bars[i].close) && TargetHit(s, bought, bars[i].close))
    || (reason == "exit_conditions" && !StopHit(s, bought, bars[i].close) && !TargetHit(s, bought, bars[i].close)
        && AllHold(s.exit, bars, i))
  }

  /** Nothing calls for a sale. */
  ghost predicate NothingSells(s: Strategy, bought: real, bars: seq<Bar>, i: nat)
    requires i < |bars|
  {
    !StopHit(s, bought, bars[i].close) && !TargetHit(s, bought, bars[i].close) && !AllHold(s.exit, bars, i)
  }

  /** The cash after some trades. */
  function CashAfter(initial: real, trades: seq<Trade>): real {
    if trades == [] then initial
    else
      var t := trades[|trades| - 1];
      var before := CashAfter(initial, trades[..|trades| - 1]);
      if t.side == Buy then before - (Amount(t.quantity, t.price) + t.fee) else before + (Amount(t.quantity, t.price) - t.fee)
  }

  /**
   What a bar does, given the trades before it. Flat, it buys exactly when every entry condition holds and the stake can
   be paid; holding, it sells the whole position exactly when something calls for it.
   */
  ghost predicate BarTrades(e: Engine, s: Strategy, bars: seq<Bar>, i: nat, before: seq<Trade>, after: seq<Trade>)
    requires i < |bars|
  {
    if |before| % 2 == 0 then
      var cash := CashAfter(e.initialCash, before);
      if AllHold(s.entry, bars, i) && CanBuy(e, s, cash, bars[i].close) then after == before + [Purchase(e, s, cash, bars, i)]
      else after == before
    else
      var bought := before[|before| - 1];
      if NothingSells(s, bought.price, bars, i) then after == before
      else exists reason :: SoldFor(s, bought.price, bars, i, reason) && after == before + [Sale(e, s, bought.quantity, bars, i, reason)]
  }

  // ---------------------------------------------------------------- the loop, bar by bar

  /** The book follows from the trades: the cash from all of them, the position from the last. */
  ghost predicate Follows(e: Engine, b: Book) {
    && b.cash == CashAfter(e.initialCash, b.trades)
    && (|b.trades| % 2 == 0 <==> b.quantity <= 0.0)
    && (|b.trades| % 2 == 1 ==>
          b.quantity == b.trades[|b.trades| - 1].quantity && b.entryPrice == b.trades[|b.trades| - 1].price)
  }

  lemma ExitMeans(s: Strategy, bought: real, bars: seq<Bar>, i: nat)
    requires i < |bars|
    ensures var r := ExitReason(s, bought, bars[i].close, Closes(bars), Volumes(bars), i);
            && (r == Ok(None) ==> NothingSells(s, bought, bars, i))
            && (r.Ok? && r.value.Some? ==> SoldFor(s, bought, bars, i, r.value.value) && !NothingSells(s, bought, bars, i))
  {
    ConditionsMean(s.exit, bars, i);
    hide ConditionsMet, AllHold, Closes, Volumes;
  }

  lemma CashGrows(initial: real, trades: seq<Trade>, t: Trade)
    ensures CashAfter(initial, trades + [t])
         == if t.side == Buy then CashAfter(initial, trades) - (Amount(t.quantity, t.price) + t.fee)
            else CashAfter(initial, trades) + (Amount(t.quantity, t.price) - t.fee)
  {
    assert (trades + [t])[..|trades|] == trades;
  }

  lemma StakeMeans(s: Strategy, b: Book)
    ensures Budget(s, b) == Stake(s, b.cash)
  {
  }

  lemma BuyMeans(e: Engine, s: Strategy, bars: seq<Bar>, i: nat, b: Book)
    requires i < |bars|
    ensures var close := bars[i].close;
            var after := Execute(e, s, b, bars[i], Buy, "entry_conditions", s.snapshot(bars[..i + 1]));
            if CanBuy(e, s, b.cash, close) then
              var t := Purchase(e, s, b.cash, bars, i);
              && after.trades == b.trades + [t] && after.quantity == t.quantity && after.entryPrice == t.price && t.quantity > 0.0
              && after.cash == b.cash - (Amount(t.quantity, t.price) + t.fee)
            else after == b
  {
    StakeMeans(s, b);
    SameMoney(e, 0.0, bars[i].close);
    var price, stake := Quote(e, Buy, bars[i].close), Stake(s, b.cash);
    if price != 0.0 {
      assert stake / price * price == stake;
    }
    assert FeeOn(e, stake) == Fee(e, stake);
    hide Budget, Stake, BuyPrice, Quote, FeeOn, Fee;
  }

  lemma SellMeans(e: Engine, s: Strategy, bars: seq<Bar>, i: nat, b: Book, reason: string)
    requires i < |bars|
    ensures var after := Execute(e, s, b, bars[i], Sell, reason, s.snapshot(bars[..i + 1]));
            var t := Sale(e, s, b.quantity, bars, i, reason);
            && after.trades == b.trades + [t] && after.quantity == 0.0
            && after.cash == b.cash + (Amount(t.quantity, t.price) - t.fee)
  {
    SameMoney(e, b.quantity, bars[i].close);
    SameMoney(e, b.quantity, SellPrice(e, bars[i].close));
    hide Worth, FeeOn, SellPrice, Quote, Fee, Amount;
  }

  lemma StepTrades(e: Engine, s: Strategy, bars: seq<Bar>, i: nat, st: RuleState)
    requires i < |bars| && Follows(e, st.book) && RuleStep(e, s, bars, i, st).Ok?
    ensures var after := RuleStep(e, s, bars, i, st).value.book;
            BarTrades(e, s, bars, i, st.book.trades, after.trades) && Follows(e, after)
  {
    var b := st.book;
    assert Closes(bars)[i] == bars[i].close;
    hide Closes, Volumes, ConditionsMet, ExitReason, Execute, AllHold, CanBuy, NothingSells, SoldFor, Marked;
    if b.quantity <= 0.0 {
      ConditionsMean(s.entry, bars, i);
      BuyMeans(e, s, bars, i, b);
      if CanBuy(e, s, b.cash, bars[i].close) {
        CashGrows(e.initialCash, b.trades, Purchase(e, s, b.cash, bars, i));
      }
      HoldsStill(e, s, b, bars[i], "conditions_not_met", s.snapshot(bars[..i + 1]));
      hide Purchase, CashAfter;
    } else {
      ExitMeans(s, b.entryPrice, bars, i);
      HoldsStill(e, s, b, bars[i], "conditions_not_met", s.snapshot(bars[..i + 1]));
      var r := ExitReason(s, b.entryPrice, bars[i].close, Closes(bars), Volumes(bars), i);
      if r.Ok? && r.value.Some? {
        SellMeans(e, s, bars, i, b, r.value.value);
        CashGrows(e.initialCash, b.trades, Sale(e, s, b.quantity, bars, i, r.value.value));
      }
      hide Sale, CashAfter;
    }
  }

  lemma HoldsStill(e: Engine, s: Strategy, b: Book, bar: Bar, reason: string, evidence: string)
    ensures Execute(e, s, b, bar, Hold, reason, evidence) == b
  {
  }
}
