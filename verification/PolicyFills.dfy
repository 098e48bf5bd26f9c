/** What a policy order is filled at and for, what queues one, and how large an entry may be. */
module PolicyFills {
  import opened Prelude
  import opened Market
  import opened Money
  import opened PolicyBacktest
  import opened PolicyHalts

  // ---------------------------------------------------------------- filling

  /** Worth less than the venue's minimum. */
  predicate Dust(quantity: real, price: real) {
    Amount(quantity, price) + 0.000000000001 < 5.0
  }

  /** The trade that fills a decision on a bar. */
  function Filling<R>(e: Engine, side: Action, bar: Bar, d: Pending<R>, quantity: real): Trade {
    var price := Quote(e, side, bar.open);
    Trade(side, bar.time, price, quantity, Fee(e, Amount(quantity, price)), d.evaluation.reason, Some(d.evaluation.contextHash))
  }

  /** The waiting entry becomes a position; its cost and fee leave the cash, and the strategy is told. */
  ghost predicate Enters<R>(e: Engine, p: Policy<R>, st: State<R>, after: State<R>, bar: Bar, quantity: real)
    requires st.pending.Some?
  {
    var t := Filling(e, Buy, bar, st.pending.value, quantity);
    && after.book == Book(st.book.cash - (Amount(quantity, t.price) + t.fee), quantity, t.price, st.book.trades + [t])
    && after.entryTimes == st.entryTimes + [bar.time]
    && p.applyFill(st.pending.value.evaluation, Buy, t.price, bar.time) == Some(after.runtime)
  }

  /** The position is sold whole; what it fetches, less the fee, comes to the cash, and the strategy is told. */
  ghost predicate Leaves<R>(e: Engine, p: Policy<R>, st: State<R>, after: State<R>, bar: Bar)
    requires st.pending.Some?
  {
    var t := Filling(e, Sell, bar, st.pending.value, st.book.quantity);
    && after.book == Book(st.book.cash + (Amount(st.book.quantity, t.price) - t.fee), 0.0, 0.0, st.book.trades + [t])
    && after.entryTimes == st.entryTimes
    && p.applyFill(st.pending.value.evaluation, Sell, t.price, bar.time) == Some(after.runtime)
  }

  /** The size an entry is filled for: what can be afforded now, at most what could be when it was decided, and no dust. */
  ghost predicate FilledFor<R>(e: Engine, p: Policy<R>, cash: real, price: real, d: Pending<R>, quantity: real) {
    exists size ::
      && IsSize(e, p, cash, price, AtrOrZero(d.evaluation), size)
      && quantity == Capped(size, d.maximum, price)
  }

  function Capped(size: real, maximum: Option<real>, price: real): real {
    var capped := if maximum.Some? && maximum.value < size then maximum.value else size;
    if Dust(capped, price) then 0.0 else capped
  }

  /** A waiting entry is filled for this quantity, or for nothing. */
  ghost predicate EntersFor<R>(e: Engine, p: Policy<R>, st: State<R>, after: State<R>, bar: Bar, quantity: real)
    requires st.pending.Some?
  {
    && FilledFor(e, p, st.book.cash, Quote(e, Buy, bar.open), st.pending.value, quantity)
    && if quantity > 0.0 then Enters(e, p, st, after, bar, quantity) else after == st.(pending := None)
  }

  /**
   A waiting order is filled on the first later bar, at that bar's open: an entry if the account is flat and the size is
   not nothing, an exit if it holds a position; in any case it no longer waits.
   */
  ghost predicate Fills<R>(e: Engine, p: Policy<R>, st: State<R>, after: State<R>, bar: Bar) {
    if st.pending.None? || bar.time <= st.pending.value.at then after == st
    else
      && after == st.(book := after.book, runtime := after.runtime, entryTimes := after.entryTimes, pending := None)
      && (if st.pending.value.action == Buy && st.book.quantity <= 0.0 then
            exists quantity :: EntersFor(e, p, st, after, bar, quantity)
          else if st.pending.value.action == Sell && st.book.quantity > 0.0 then Leaves(e, p, st, after, bar)
          else after == st.(pending := None))
  }

  lemma FillMeans<R>(e: Engine, p: Policy<R>, st: State<R>, bar: Bar)
    requires Fill(e, p, st, bar).Ok?
    ensures Fills(e, p, st, Fill(e, p, st, bar).value, bar)
  {
    if st.pending.Some? && bar.time > st.pending.value.at {
      var d := st.pending.value;
      if d.action == Buy && st.book.quantity <= 0.0 {
        EntryMeans(e, p, st, bar);
      } else if d.action == Sell && st.book.quantity > 0.0 {
        ExitMeans(e, p, st, bar);
      }
    }
    hide EntersFor, FillEntry, FillExit, Leaves;
  }

  lemma EntryMeans<R>(e: Engine, p: Policy<R>, st: State<R>, bar: Bar)
    requires st.pending.Some? && FillEntry(e, p, st, st.pending.value, bar).Ok?
    ensures exists quantity :: EntersFor(e, p, st, FillEntry(e, p, st, st.pending.value, bar).value.(pending := None), bar, quantity)
  {
    var d, price := st.pending.value, BuyPrice(e, bar.open);
    QuantityMeans(e, p, st.book.cash, price, d);
    SameMoney(e, 0.0, bar.open);
    var quantity := FillQuantity(e, p, st.book.cash, price, d).value;
    SameMoney(e, quantity, price);
    hide FillQuantity, FilledFor, Worth, FeeOn, BuyPrice, Quote, Fee, Amount;
    assert EntersFor(e, p, st, FillEntry(e, p, st, d, bar).value.(pending := None), bar, quantity);
  }

  lemma SameDust(quantity: real, price: real)
    ensures Worth(quantity, price) + TOLERANCE < MINIMUM_NOTIONAL <==> Dust(quantity, price)
  {
  }

  lemma QuantityMeans<R>(e: Engine, p: Policy<R>, cash: real, price: real, d: Pending<R>)
    requires FillQuantity(e, p, cash, price, d).Ok?
    ensures FilledFor(e, p, cash, price, d, FillQuantity(e, p, cash, price, d).value)
  {
    SizeMeans(e, p, cash, price, AtrOrZero(d.evaluation));
    var size := SizeEntry(e, p, cash, price, AtrOrZero(d.evaluation)).value;
    SameDust(if d.maximum.Some? then MinReal(size, d.maximum.value) else size, price);
    hide SizeEntry, IsSize, Worth, Dust;
    assert FillQuantity(e, p, cash, price, d).value == Capped(size, d.maximum, price);
  }

  lemma ExitMeans<R>(e: Engine, p: Policy<R>, st: State<R>, bar: Bar)
    requires st.pending.Some? && FillExit(e, p, st, st.pending.value, bar).Ok?
    ensures Leaves(e, p, st, FillExit(e, p, st, st.pending.value, bar).value.(pending := None), bar)
  {
    SameMoney(e, st.book.quantity, SellPrice(e, bar.open));
    SameMoney(e, 0.0, bar.open);
    hide Worth, FeeOn, SellPrice, Quote, Fee, Amount;
  }

  // ---------------------------------------------------------------- sizing

  /** No more than the risk budget, the share of cash, the cash with its fee, and the largest notional each buy. */
  predicate UnderLimits<R>(e: Engine, p: Policy<R>, cash: real, price: real, loss: real, size: real)
    requires p.risk.riskBudgetPct.Some? && price != 0.0 && loss != 0.0 && price * (1.0 + e.feeRate) != 0.0
  {
    && size <= cash * p.risk.riskBudgetPct.value / loss
    && size <= cash * p.risk.positionPct / price
    && size <= cash / (price * (1.0 + e.feeRate))
    && (p.risk.maxEntryNotional.Some? ==> size <= p.risk.maxEntryNotional.value / price)
  }

  /** The loss per unit should the stop be hit: the stop's distance, both fees and the slippage. */
  function LossPerUnit<R>(e: Engine, p: Policy<R>, price: real, atr: real): real {
    p.atrMultiple * atr + price * (2.0 * e.feeRate + e.slippageRate)
  }

  /** A whole number of steps of 0.00001. */
  predicate Stepped(size: real, n: nat) {
    size == n as real * 0.00001
  }

  /**
   The size of an entry: nothing without a risk budget, a price or a loss to bound; otherwise the largest whole number of
   steps under the limits, or nothing if that is worth less than the minimum.
   */
  ghost predicate IsSize<R>(e: Engine, p: Policy<R>, cash: real, price: real, atr: real, size: real) {
    var loss := LossPerUnit(e, p, price, atr);
    if p.risk.riskBudgetPct.None? || price <= 0.0 || loss <= 0.0 then size == 0.0
    else
      && price * (1.0 + e.feeRate) != 0.0
      && exists most, n: nat ::
        && Stepped(most, n)
        && (n > 0 ==> UnderLimits(e, p, cash, price, loss, most))
        && !UnderLimits(e, p, cash, price, loss, most + 0.00001)
        && size == if n == 0 || Dust(most, price) then 0.0 else most
  }

  lemma StepDownMeans(limit: real) returns (n: nat)
    ensures Stepped(StepDown(limit), n) && (n > 0 ==> StepDown(limit) <= limit) && StepDown(limit) + 0.00001 > limit
    ensures n == 0 <==> StepDown(limit) <= 0.0
  {
    var kept := MaxReal(0.0, limit);
    var share := kept / QUANTITY_STEP;
    assert share * QUANTITY_STEP == kept;
    n := share.Floor;
  }

  /** The smallest of the limits. */
  function Limit<R>(e: Engine, p: Policy<R>, cash: real, price: real, loss: real): real
    requires p.risk.riskBudgetPct.Some? && price != 0.0 && loss != 0.0 && UnitCost(e, price) != 0.0
  {
    var byRisk := MinReal(cash * p.risk.riskBudgetPct.value / loss, cash * p.risk.positionPct / price);
    var byCash := MinReal(byRisk, cash / UnitCost(e, price));
    if p.risk.maxEntryNotional.Some? then MinReal(byCash, p.risk.maxEntryNotional.value / price) else byCash
  }

  lemma LimitMeans<R>(e: Engine, p: Policy<R>, cash: real, price: real, loss: real, size: real)
    requires p.risk.riskBudgetPct.Some? && price != 0.0 && loss != 0.0 && UnitCost(e, price) != 0.0
    ensures size <= Limit(e, p, cash, price, loss) <==> UnderLimits(e, p, cash, price, loss, size)
  {
  }

  lemma LossMeans<R>(e: Engine, p: Policy<R>, price: real, atr: real)
    ensures UnitLoss(e, p, price, atr) == LossPerUnit(e, p, price, atr)
  {
  }

  /** The sizing computes exactly that size; it fails only on a division by a zero cost per unit. */
  lemma SizeMeans<R>(e: Engine, p: Policy<R>, cash: real, price: real, atr: real)
    ensures SizeEntry(e, p, cash, price, atr).Ok? ==> IsSize(e, p, cash, price, atr, SizeEntry(e, p, cash, price, atr).value)
    ensures SizeEntry(e, p, cash, price, atr).Err? ==> price * (1.0 + e.feeRate) == 0.0
  {
    LossMeans(e, p, price, atr);
    var loss := LossPerUnit(e, p, price, atr);
    hide UnitLoss, LossPerUnit, Dust;
    if p.risk.riskBudgetPct.Some? && price > 0.0 && loss > 0.0 && UnitCost(e, price) != 0.0 {
      var limit := Limit(e, p, cash, price, loss);
      var most := StepDown(limit);
      var n := StepDownMeans(limit);
      SizedBy(e, p, cash, price, atr, loss, limit);
      LimitMeans(e, p, cash, price, loss, most);
      LimitMeans(e, p, cash, price, loss, most + 0.00001);
      hide Limit, StepDown, UnderLimits, Stepped;
      assert Stepped(most, n);
    }
  }

  lemma SizedBy<R>(e: Engine, p: Policy<R>, cash: real, price: real, atr: real, loss: real, limit: real)
    requires loss == UnitLoss(e, p, price, atr) && p.risk.riskBudgetPct.Some? && price > 0.0 && loss > 0.0 && UnitCost(e, price) != 0.0
    requires limit == Limit(e, p, cash, price, loss)
    ensures var most := StepDown(limit);
            SizeEntry(e, p, cash, price, atr) == Ok(if most <= 0.0 || Dust(most, price) then 0.0 else most)
  {
    SameDust(StepDown(limit), price);
    hide UnitLoss, StepDown, Worth, Dust;
  }

  // ---------------------------------------------------------------- deciding

  /** Entries filled in the hour before the earliest fill of a decision taken now. */
  ghost function RecentEntries(times: seq<int>, now: int): set<nat> {
    set i: nat | i < |times| && times[i] > now + 60 - 3600
  }

  lemma {:induction false} RecentCounts(times: seq<int>, now: int)
    ensures |Recent(times, Cutoff(now))| == |RecentEntries(times, now)|
  {
    if times == [] {
      assert RecentEntries(times, now) == {};
    } else {
      var n := |times| - 1;
      RecentCounts(times[..n], now);
      assert RecentEntries(times, now) == RecentEntries(times[..n], now) + if times[n] > now + 60 - 3600 then {n as nat} else {};
    }
  }

  /** The entry times of that hour are kept, each as often as it was there, and no others. */
  ghost predicate Pruned(times: seq<int>, kept: seq<int>, now: int) {
    forall t: int :: multiset(kept)[t] == if t > now + 60 - 3600 then multiset(times)[t] else 0
  }

  lemma {:induction false} RecentIsPruned(times: seq<int>, now: int)
    ensures Pruned(times, Recent(times, Cutoff(now)), now)
  {
    if times != [] {
      RecentIsPruned(times[..|times| - 1], now);
      assert times == times[..|times| - 1] + [times[|times| - 1]];
    }
  }

  /** An entry is held back while a breaker is tripped, or once the hour holds as many entries as the limit. */
  ghost predicate HeldBack<R>(p: Policy<R>, st: State<R>, now: int) {
    || st.dailyHalted || st.drawdownHalted
    || (p.risk.maxTradeGroupsPerHour.Some? && |RecentEntries(st.entryTimes, now)| >= p.risk.maxTradeGroupsPerHour.value)
  }

  /** A queued decision: dated with its bar, a hold if the position does not allow it, an entry with its size at the close. */
  ghost predicate Queues<R>(e: Engine, p: Policy<R>, st: State<R>, queued: Pending<R>, v: Evaluation<R>, bar: Bar) {
    && queued.evaluation == v && queued.at == bar.time
    && queued.action == (if (v.action == Buy && st.book.quantity > 0.0) || (v.action == Sell && st.book.quantity <= 0.0) then Hold else v.action)
    && (v.action != Buy ==> queued.maximum.None?)
    && (v.action == Buy ==> queued.maximum.Some? && IsSize(e, p, st.book.cash, bar.close, AtrOrZero(v), queued.maximum.value))
  }

  /** What the strategy answers when it is first asked, without the hash of what it sees, and when it is asked for that. */
  ghost function Answer<R>(p: Policy<R>, st: State<R>, history: seq<Bar>, hashed: bool): Option<Evaluation<R>> {
    p.evaluate(history, hashed, st.book.quantity, st.book.entryPrice, st.runtime)
  }

  /**
   The strategy's answer moves its state on. On an evaluated bar it is queued exactly when it acts and, if it is an entry,
   is not held back; what waited before then gives way, and otherwise stays.
   */
  ghost predicate Decided<R>(e: Engine, p: Policy<R>, st: State<R>, after: State<R>, v: Evaluation<R>, bar: Bar, evaluating: bool) {
    && after == st.(runtime := v.stateAfter, entryTimes := after.entryTimes, pending := after.pending)
    && Pruned(st.entryTimes, after.entryTimes, bar.time)
    && if evaluating && v.action != Hold && !(v.action == Buy && HeldBack(p, st, bar.time))
       then after.pending.Some? && Queues(e, p, st, after.pending.value, v, bar)
       else after.pending == st.pending
  }

  /** The strategy is asked when a decision bar closes; for an answer that acts it is asked again. */
  ghost predicate Decides<R>(e: Engine, p: Policy<R>, st: State<R>, after: State<R>, history: seq<Bar>, bar: Bar, evaluating: bool) {
    if !p.completes(history) then after == st
    else
      && Answer(p, st, history, false).Some?
      && var acts := Answer(p, st, history, false).value.action != Hold;
         Answer(p, st, history, acts).Some? && Decided(e, p, st, after, Answer(p, st, history, acts).value, bar, evaluating)
  }

  lemma DecideMeans<R>(e: Engine, p: Policy<R>, st: State<R>, history: seq<Bar>, bar: Bar, evaluating: bool)
    requires Decide(e, p, st, history, bar, evaluating).Ok?
    ensures Decides(e, p, st, Decide(e, p, st, history, bar, evaluating).value, history, bar, evaluating)
  {
    if p.completes(history) {
      var v := Evaluate(p, st, history).value;
      assert v == Answer(p, st, history, Answer(p, st, history, false).value.action != Hold).value;
      RecentCounts(st.entryTimes, bar.time);
      RecentIsPruned(st.entryTimes, bar.time);
      SizeMeans(e, p, st.book.cash, bar.close, AtrOrZero(v));
      hide SizeEntry, IsSize, Recent, RecentEntries, Pruned, Answer;
      assert Decided(e, p, st, Decide(e, p, st, history, bar, evaluating).value, v, bar, evaluating);
    }
  }

  lemma GuardFrame<R>(p: Policy<R>, st: State<R>, bar: Bar, evaluating: bool)
    ensures var after := Guard(p, st, bar, evaluating);
            after == st.(day := after.day, dailyStart := after.dailyStart, dailyHalted := after.dailyHalted, peak := after.peak,
                         drawdownHalted := after.drawdownHalted)
  {
  }

  /**
   A bar of the run: it is admitted and later than the one before it, the waiting order is filled, the breakers see the
   account, the strategy decides, the point is recorded.
   */
  lemma BarMeans<R>(e: Engine, p: Policy<R>, bars: seq<Bar>, start: nat, k: nat) returns (filled: State<R>, guarded: State<R>)
    requires k < |bars| && Loop(e, p, bars, start, k).Ok? && Loop(e, p, bars, start, k + 1).Ok?
    ensures p.admits(bars[..k + 1]) && (k > 0 ==> bars[k].time > bars[k - 1].time)
    ensures var st, after := Loop(e, p, bars, start, k).value, Loop(e, p, bars, start, k + 1).value;
            var value := AccountAt(after.book, bars[k].close);
            && Fills(e, p, st, filled, bars[k])
            && Guards(p, filled, guarded, bars[k], value, k >= start)
            && guarded == filled.(day := guarded.day, dailyStart := guarded.dailyStart, dailyHalted := guarded.dailyHalted,
                                  peak := guarded.peak, drawdownHalted := guarded.drawdownHalted)
            && Decides(e, p, guarded, after.(equity := guarded.equity), bars[..k + 1], bars[k], k >= start)
            && after.equity == if k >= start then st.equity + [EquityPoint(bars[k].time, value)] else st.equity
  {
    var st := Loop(e, p, bars, start, k).value;
    assert Loop(e, p, bars, start, k + 1) == Step(e, p, bars, start, k, st);
    var bar := bars[k];
    filled := Fill(e, p, st, bar).value;
    guarded := Guard(p, filled, bar, k >= start);
    OneStepGuards(e, p, bars, start, k, st);
    FillMeans(e, p, st, bar);
    GuardMeans(p, filled, bar, k >= start);
    GuardFrame(p, filled, bar, k >= start);
    DecideMeans(e, p, guarded, bars[..k + 1], bar, k >= start);
    hide Loop, Fill, Guard, Decide, Fills, Guards, Marked, AccountAt, Decides;
  }
}
