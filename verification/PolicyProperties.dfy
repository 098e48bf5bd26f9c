/** What one bar of the policy loop may change, and from it no look-ahead and conservation over whole runs. */
module PolicyProperties {
  import opened Prelude
  import opened Market
  import opened PolicyBacktest

  // ---------------------------------------------------------------- one bar, part by part

  /** Nothing fills unless a decision waits; an entry fills only for a waiting buy, and is logged. */
  ghost predicate FillEffect<R>(st: State<R>, after: State<R>, bar: Bar) {
    && after.(book := st.book, runtime := st.runtime, entryTimes := st.entryTimes, pending := st.pending) == st
    && (st.pending.Some? && bar.time > st.pending.value.at ==> after.pending.None?)
    && (st.pending.None? ==> after == st)
    && (|| (after.book == st.book && after.entryTimes == st.entryTimes)
        || (&& st.pending.Some? && st.pending.value.action == Buy
            && after.entryTimes == st.entryTimes + [bar.time]
            && |after.book.trades| == |st.book.trades| + 1
            && after.book.trades[..|st.book.trades|] == st.book.trades
            && after.book.trades[|st.book.trades|].side == Buy
            && after.book.trades[|st.book.trades|].time == bar.time
            && after.book.trades[|st.book.trades|].evidence.Some?)
        || (&& st.pending.Some? && st.pending.value.action == Sell
            && after.entryTimes == st.entryTimes
            && |after.book.trades| == |st.book.trades| + 1
            && after.book.trades[..|st.book.trades|] == st.book.trades
            && after.book.trades[|st.book.trades|].side == Sell
            && after.book.trades[|st.book.trades|].time == bar.time
            && after.book.trades[|st.book.trades|].evidence.Some?))
  }

  lemma FillHasEffect<R>(e: Engine, p: Policy<R>, st: State<R>, bar: Bar)
    requires Fill(e, p, st, bar).Ok?
    ensures FillEffect(st, Fill(e, p, st, bar).value, bar)
  {
  }

  /** A queued decision is dated with its bar, and a queued entry was neither halted nor throttled. */
  ghost predicate DecideEffect<R>(p: Policy<R>, st: State<R>, after: State<R>, bar: Bar) {
    && after.(runtime := st.runtime, entryTimes := st.entryTimes, pending := st.pending) == st
    && (after.entryTimes == st.entryTimes || after.entryTimes == Recent(st.entryTimes, Cutoff(bar.time)))
    && (|| after.pending == st.pending
        || (&& after.pending.Some? && after.pending.value.at == bar.time
            && (after.pending.value.action == Buy ==>
                  && !st.dailyHalted && !st.drawdownHalted
                  && after.entryTimes == Recent(st.entryTimes, Cutoff(bar.time))
                  && !Throttled(p, after.entryTimes))))
  }

  lemma DecideHasEffect<R>(e: Engine, p: Policy<R>, st: State<R>, history: seq<Bar>, bar: Bar, evaluating: bool)
    requires Decide(e, p, st, history, bar, evaluating).Ok?
    ensures DecideEffect(p, st, Decide(e, p, st, history, bar, evaluating).value, bar)
  {
  }

  /** The four states a bar goes through: as it starts, filled, guarded, and as it ends. */
  ghost predicate BarEffect<R>(p: Policy<R>, st: State<R>, filled: State<R>, guarded: State<R>, after: State<R>, bar: Bar,
                               evaluating: bool)
  {
    && FillEffect(st, filled, bar)
    && guarded == Guard(p, filled, bar, evaluating)
    && DecideEffect(p, guarded, after.(equity := guarded.equity), bar)
    && after.equity == if evaluating then st.equity + [EquityPoint(bar.time, Marked(after.book, bar.close))] else st.equity
  }

  lemma StepHasEffect<R>(e: Engine, p: Policy<R>, bars: seq<Bar>, start: nat, index: nat, st: State<R>)
    returns (filled: State<R>, guarded: State<R>)
    requires index < |bars| && Step(e, p, bars, start, index, st).Ok?
    ensures BarEffect(p, st, filled, guarded, Step(e, p, bars, start, index, st).value, bars[index], index >= start)
    ensures Fill(e, p, st, bars[index]) == Ok(filled)
  {
    var bar := bars[index];
    filled := Fill(e, p, st, bar).value;
    guarded := Guard(p, filled, bar, index >= start);
    FillHasEffect(e, p, st, bar);
    DecideHasEffect(e, p, guarded, bars[..index + 1], bar, index >= start);
    hide Fill, Decide, FillEffect, DecideEffect, Marked, Breached;
  }

  /** A bar adds at most one trade and, once evaluation has begun, exactly one equity point. */
  lemma StepGrows<R>(e: Engine, p: Policy<R>, bars: seq<Bar>, start: nat, index: nat, st: State<R>)
    requires index < |bars| && Step(e, p, bars, start, index, st).Ok?
    ensures var after := Step(e, p, bars, start, index, st).value;
            && st.book.trades <= after.book.trades
            && st.equity <= after.equity
            && |after.equity| == |st.equity| + (if index >= start then 1 else 0)
            && |after.book.trades| <= |st.book.trades| + 1
            && (|st.book.trades| < |after.book.trades| ==> after.book.trades[|st.book.trades|].time == bars[index].time)
            && (index >= start ==> after.equity[|st.equity|] == EquityPoint(bars[index].time, Marked(after.book, bars[index].close)))
            && ((forall t :: t in st.book.trades ==> t.evidence.Some?) ==> forall t :: t in after.book.trades ==> t.evidence.Some?)
  {
    var filled, guarded := StepHasEffect(e, p, bars, start, index, st);
    hide Step, Marked, Breached, Recent;
    var after := Step(e, p, bars, start, index, st).value;
    assert after.book == filled.book;
    if filled.book != st.book {
      assert after.book.trades == st.book.trades + [after.book.trades[|st.book.trades|]];
    }
  }

  /** A run that gets through `k` bars has met them in strictly increasing time. */
  lemma {:induction false} LoopOrdered<R>(e: Engine, p: Policy<R>, bars: seq<Bar>, start: nat, k: nat)
    requires k <= |bars| && Loop(e, p, bars, start, k).Ok?
    ensures forall i, j :: 0 <= i < j < k ==> bars[i].time < bars[j].time
  {
    if k > 0 {
      LoopOrdered(e, p, bars, start, k - 1);
      assert k > 1 ==> bars[k - 2].time < bars[k - 1].time;
    }
  }

  // ---------------------------------------------------------------- no look-ahead

  lemma StepLocal<R>(e: Engine, p: Policy<R>, x: seq<Bar>, y: seq<Bar>, start: nat, index: nat, st: State<R>)
    requires index < |x| && index < |y| && x[..index + 1] == y[..index + 1]
    ensures Step(e, p, x, start, index, st) == Step(e, p, y, start, index, st)
  {
    assert x[index] == x[..index + 1][index] && y[index] == y[..index + 1][index];
    assert index > 0 ==> x[index - 1] == x[..index + 1][index - 1] && y[index - 1] == y[..index + 1][index - 1];
    hide Fill, Guard, Decide, Record;
  }

  lemma {:induction false} LoopLocal<R>(e: Engine, p: Policy<R>, x: seq<Bar>, y: seq<Bar>, start: nat, k: nat)
    requires k <= |x| && k <= |y| && x[..k] == y[..k]
    ensures Loop(e, p, x, start, k) == Loop(e, p, y, start, k)
  {
    if k > 0 {
      assert x[..k][..k - 1] == x[..k - 1] && y[..k][..k - 1] == y[..k - 1];
      hide Step;
      LoopLocal(e, p, x, y, start, k - 1);
      var before := Loop(e, p, x, start, k - 1);
      if before.Ok? {
        StepLocal(e, p, x, y, start, k - 1, before.value);
      }
    }
  }

  lemma {:induction false} LoopGrows<R>(e: Engine, p: Policy<R>, bars: seq<Bar>, start: nat, k: nat, n: nat)
    requires k <= n <= |bars| && Loop(e, p, bars, start, n).Ok?
    ensures Loop(e, p, bars, start, k).Ok?
    ensures Loop(e, p, bars, start, k).value.book.trades <= Loop(e, p, bars, start, n).value.book.trades
    ensures Loop(e, p, bars, start, k).value.equity <= Loop(e, p, bars, start, n).value.equity
    ensures |Loop(e, p, bars, start, n).value.equity| == if n <= start then 0 else n - start
    ensures forall t :: t in Loop(e, p, bars, start, n).value.book.trades ==> t.evidence.Some?
    decreases n
  {
    hide Step;
    if n > 0 {
      LoopGrows(e, p, bars, start, if k < n then k else n - 1, n - 1);
      StepGrows(e, p, bars, start, n - 1, Loop(e, p, bars, start, n - 1).value);
    }
  }

  /** What is filled after the first `k` bars is dated with a later one. */
  lemma {:induction false} LoopDates<R>(e: Engine, p: Policy<R>, bars: seq<Bar>, start: nat, k: nat, n: nat)
    requires k <= n <= |bars| && Loop(e, p, bars, start, n).Ok? && Loop(e, p, bars, start, k).Ok?
    requires Loop(e, p, bars, start, k).value.book.trades <= Loop(e, p, bars, start, n).value.book.trades
    ensures AllDated(Loop(e, p, bars, start, n).value.book.trades[|Loop(e, p, bars, start, k).value.book.trades|..], bars[k..n])
    decreases n
  {
    hide Step;
    if k < n {
      LoopGrows(e, p, bars, start, k, n - 1);
      LoopDates(e, p, bars, start, k, n - 1);
      StepGrows(e, p, bars, start, n - 1, Loop(e, p, bars, start, n - 1).value);
      var early, before := Loop(e, p, bars, start, k).value.book.trades, Loop(e, p, bars, start, n - 1).value.book.trades;
      var after := Loop(e, p, bars, start, n).value.book.trades;
      hide Loop;
      DatesGrow(early, before, after, bars, k, n);
    }
  }

  lemma FirstDates<R>(e: Engine, p: Policy<R>, bars: seq<Bar>, start: nat, k: nat)
    requires k <= |bars| && Loop(e, p, bars, start, k).Ok?
    ensures AllDated(Loop(e, p, bars, start, k).value.book.trades, bars[..k])
  {
    LoopGrows(e, p, bars, start, 0, k);
    LoopDates(e, p, bars, start, 0, k);
    var trades := Loop(e, p, bars, start, k).value.book.trades;
    assert trades[0..] == trades && bars[0..k] == bars[..k];
    hide AllDated, Step;
  }

  lemma ReportSeesNoFurther<R>(e: Engine, p: Policy<R>, ordered: seq<Bar>, start: nat, k: nat)
    requires start < k <= |ordered| && PolicyReport(e, p, ordered, start).Ok?
    ensures PolicyReport(e, p, ordered[..k], start).Ok?
    ensures SeesNoFurther(PolicyReport(e, p, ordered[..k], start).value, PolicyReport(e, p, ordered, start).value,
                          ordered, k, k - start - 1)
  {
    var n := |ordered|;
    hide Loop, Liquidated, SeesNoFurther, AllDated;
    LoopLocal(e, p, ordered, ordered[..k], start, k);
    LoopGrows(e, p, ordered, start, k, n);
    LoopGrows(e, p, ordered, start, k, k);
    LoopDates(e, p, ordered, start, k, n);
    FirstDates(e, p, ordered, start, k);
    assert ordered[k..n] == ordered[k..];
    var part, whole := Loop(e, p, ordered, start, k).value, Loop(e, p, ordered, start, n).value;
    LiquidationSeesNoFurther(e, part.book, part.equity, whole.book, whole.equity, ordered, k);
  }

  lemma ReportCuts<R>(e: Engine, p: Policy<R>, ordered: seq<Bar>, start: nat, k: nat)
    requires start < k <= |ordered| && PolicyReport(e, p, ordered, start).Ok? && InOrder(ordered)
    requires PolicyReport(e, p, ordered[..k], start).Ok?
    ensures CutAt(PolicyReport(e, p, ordered[..k], start).value, PolicyReport(e, p, ordered, start).value, ordered[k - 1].time)
  {
    LoopOrdered(e, p, ordered, start, |ordered|);
    hide Loop, Liquidated, SeesNoFurther, CutAt, InOrder;
    ReportSeesNoFurther(e, p, ordered, start, k);
    hide PolicyReport;
    SeesNoFurtherCuts(PolicyReport(e, p, ordered[..k], start).value, PolicyReport(e, p, ordered, start).value, ordered, k, k - start - 1);
  }

  /**
   No look-ahead: on the first `k` bars the run fills exactly the orders it fills on all bars up to the last of those
   bars, and marks the same equity, apart from the liquidation that ends each run.
   */
  lemma NoLookAhead<R>(e: Engine, p: Policy<R>, bars: seq<Bar>, start: int, k: nat)
    requires RunPolicy(e, p, bars, start).Ok? && start < k <= |bars|
    ensures |SortBars(bars)| == |bars|
    ensures var ordered := SortBars(bars);
            var early, full := RunPolicy(e, p, ordered[..k], start), RunPolicy(e, p, bars, start).value;
            && early.Ok?
            && SeesNoFurther(early.value, full, ordered, k, k - start - 1)
            && CutAt(early.value, full, ordered[k - 1].time)
  {
    hide SortBars, PolicyReport, SeesNoFurther, CutAt, InOrder;
    SortBarsSorts(bars);
    SortedPrefixIsFixed(bars, k);
    ReportSeesNoFurther(e, p, SortBars(bars), start, k);
    ReportCuts(e, p, SortBars(bars), start, k);
  }

  // ---------------------------------------------------------------- conservation

  lemma FillBalanced<R>(e: Engine, p: Policy<R>, st: State<R>, bar: Bar)
    requires Balanced(e.initialCash, st.book) && Fill(e, p, st, bar).Ok?
    ensures Balanced(e.initialCash, Fill(e, p, st, bar).value.book)
  {
    BalancedQuantity(e.initialCash, st.book);
    hide Balanced, Bought, Sold, BuyPrice, SellPrice, FillQuantity, FeeOn, Worth;
    if st.pending.Some? && bar.time > st.pending.value.at {
      var d := st.pending.value;
      if d.action == Buy && st.book.quantity <= 0.0 {
        var price := BuyPrice(e, bar.open);
        var quantity := FillQuantity(e, p, st.book.cash, price, d).value;
        if quantity > 0.0 {
          BoughtBalanced(e.initialCash, st.book, bar.time, price, quantity, FeeOn(e, Worth(quantity, price)),
                         d.evaluation.reason, d.evaluation.contextHash);
        }
      } else if d.action == Sell && st.book.quantity > 0.0 {
        SoldBalanced(e.initialCash, e, st.book, bar.time, SellPrice(e, bar.open), d.evaluation.reason,
                     Some(d.evaluation.contextHash));
      }
    }
  }

  /** The sizing never asks for more than the cash buys, entry fee included. */
  lemma SizeAffordable<R>(e: Engine, p: Policy<R>, cash: real, price: real, atr: real)
    requires RatesOk(e) && SizeEntry(e, p, cash, price, atr).Ok?
    ensures var quantity := SizeEntry(e, p, cash, price, atr).value;
            quantity >= 0.0 && (quantity > 0.0 ==> price > 0.0 && quantity <= cash / UnitCost(e, price))
  {
  }

  lemma AffordableCost(e: Engine, cash: real, price: real, quantity: real)
    requires RatesOk(e) && price > 0.0 && 0.0 <= quantity <= cash / UnitCost(e, price)
    ensures Worth(quantity, price) + FeeOn(e, Worth(quantity, price)) <= cash
  {
  }

  lemma FillKeepsCash<R>(e: Engine, p: Policy<R>, st: State<R>, bar: Bar)
    requires RatesOk(e) && 0.0 <= bar.open && st.book.cash >= 0.0 && st.book.quantity >= 0.0
    requires Fill(e, p, st, bar).Ok?
    ensures Fill(e, p, st, bar).value.book.cash >= 0.0
  {
    SellPriceOk(e, bar.open);
    if st.pending.Some? {
      var d := st.pending.value;
      var price := BuyPrice(e, bar.open);
      var sized := SizeEntry(e, p, st.book.cash, price, AtrOrZero(d.evaluation));
      if sized.Ok? && FillQuantity(e, p, st.book.cash, price, d).value > 0.0 {
        SizeAffordable(e, p, st.book.cash, price, AtrOrZero(d.evaluation));
        AffordableCost(e, st.book.cash, price, FillQuantity(e, p, st.book.cash, price, d).value);
      }
      hide SizeEntry, BuyPrice, SellPrice, Worth, FeeOn, UnitCost;
      SoldKeepsCash(e, st.book, bar.time, SellPrice(e, bar.open), d.evaluation.reason, Some(d.evaluation.contextHash));
    }
  }

  lemma StepBalanced<R>(e: Engine, p: Policy<R>, bars: seq<Bar>, start: nat, index: nat, st: State<R>)
    requires index < |bars| && Balanced(e.initialCash, st.book) && Step(e, p, bars, start, index, st).Ok?
    ensures Balanced(e.initialCash, Step(e, p, bars, start, index, st).value.book)
    ensures RatesOk(e) && 0.0 <= bars[index].open && st.book.cash >= 0.0 ==>
              Step(e, p, bars, start, index, st).value.book.cash >= 0.0
  {
    var filled, guarded := StepHasEffect(e, p, bars, start, index, st);
    hide Step, Balanced, FillEffect, Marked, Breached, Recent;
    FillBalanced(e, p, st, bars[index]);
    if RatesOk(e) && 0.0 <= bars[index].open && st.book.cash >= 0.0 {
      BalancedQuantity(e.initialCash, st.book);
      FillKeepsCash(e, p, st, bars[index]);
    }
  }

  lemma {:induction false} LoopBalanced<R>(e: Engine, p: Policy<R>, bars: seq<Bar>, start: nat, k: nat)
    requires k <= |bars| && Loop(e, p, bars, start, k).Ok?
    ensures Balanced(e.initialCash, Loop(e, p, bars, start, k).value.book)
    ensures RatesOk(e) && PricesOk(bars) ==> Loop(e, p, bars, start, k).value.book.cash >= 0.0
  {
    FreshBalanced(e);
    hide Balanced, Step;
    if k > 0 {
      LoopBalanced(e, p, bars, start, k - 1);
      StepBalanced(e, p, bars, start, k - 1, Loop(e, p, bars, start, k - 1).value);
    }
  }

  lemma LoopMarked<R>(e: Engine, p: Policy<R>, bars: seq<Bar>, start: nat, k: nat)
    requires start < k <= |bars| && Loop(e, p, bars, start, k).Ok?
    ensures var st := Loop(e, p, bars, start, k).value;
            st.equity != [] && st.equity[|st.equity| - 1].equity == Marked(st.book, bars[k - 1].close)
  {
  }

  lemma ReportConserves<R>(e: Engine, p: Policy<R>, ordered: seq<Bar>, start: nat)
    requires start < |ordered| && PolicyReport(e, p, ordered, start).Ok?
    ensures Conserved(e, PolicyReport(e, p, ordered, start).value)
    ensures RatesOk(e) && PricesOk(ordered) ==>
              var equity := PolicyReport(e, p, ordered, start).value.equity; equity != [] && equity[|equity| - 1].equity >= 0.0
  {
    var n := |ordered|;
    hide Loop, Balanced, Conserved, Liquidated, Marked;
    LoopBalanced(e, p, ordered, start, n);
    LoopMarked(e, p, ordered, start, n);
    var st := Loop(e, p, ordered, start, n).value;
    LiquidatedConserved(e, st.book, st.equity, ordered[n - 1]);
    if RatesOk(e) && PricesOk(ordered) {
      LiquidatedCash(e, st.book, st.equity, ordered[n - 1]);
    }
  }

  /** Conservation over a whole run, for every policy, list of bars and rate. */
  lemma PolicyConserves<R>(e: Engine, p: Policy<R>, bars: seq<Bar>, start: int)
    requires RunPolicy(e, p, bars, start).Ok?
    ensures Conserved(e, RunPolicy(e, p, bars, start).value)
  {
    hide Conserved, PolicyReport, SortBars;
    ReportConserves(e, p, SortBars(bars), start);
  }

  /** With rates in [0, 1] and no negative price, cash is never negative at any bar and neither is the final equity. */
  lemma PolicyNeverOverdraws<R>(e: Engine, p: Policy<R>, bars: seq<Bar>, start: int, k: nat)
    requires RatesOk(e) && PricesOk(bars) && RunPolicy(e, p, bars, start).Ok? && k <= |SortBars(bars)|
    ensures Loop(e, p, SortBars(bars), start, k).Ok? && Loop(e, p, SortBars(bars), start, k).value.book.cash >= 0.0
    ensures var equity := RunPolicy(e, p, bars, start).value.equity; equity != [] && equity[|equity| - 1].equity >= 0.0
  {
    SortedPricesOk(bars);
    var ordered := SortBars(bars);
    hide SortBars, Loop, Conserved, Liquidated;
    ReportConserves(e, p, ordered, start);
    LoopGrows(e, p, ordered, start, k, |ordered|);
    LoopBalanced(e, p, ordered, start, k);
  }
}
