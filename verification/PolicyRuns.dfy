/** When a policy run gets through, where it starts, and how its report follows from its last state. */
module PolicyRuns {
  import opened Prelude
  import opened Market
  import opened Money
  import opened PolicyBacktest
  import opened PolicyProperties

  // ---------------------------------------------------------------- start and end

  /** A run starts with the initial cash, no position, no waiting order and no breaker tripped. */
  lemma StartMeans<R>(e: Engine, p: Policy<R>, bars: seq<Bar>, start: nat)
    ensures Loop(e, p, bars, start, 0).Ok?
    ensures var st := Loop(e, p, bars, start, 0).value;
            && st.book.cash == e.initialCash && st.book.quantity == 0.0 && st.book.trades == [] && st.runtime == p.initialState
            && st.pending.None? && st.entryTimes == [] && st.equity == [] && !st.dailyHalted && !st.drawdownHalted
  {
  }

  /** The book's trades and the points; a position still open is sold at the last close, which sets the last point. */
  ghost predicate Closing(e: Engine, b: Book, points: seq<EquityPoint>, last: Bar, r: Report) {
    if b.quantity > 0.0 then
      var price := Quote(e, Sell, last.close);
      var fee := Fee(e, Amount(b.quantity, price));
      && r.trades == b.trades + [Trade(Sell, last.time, price, b.quantity, fee, "end_of_backtest", None)]
      && points != [] && r.equity == points[..|points| - 1] + [EquityPoint(last.time, b.cash + (Amount(b.quantity, price) - fee))]
    else r.trades == b.trades && r.equity == points
  }

  lemma ClosingMeans(e: Engine, b: Book, points: seq<EquityPoint>, last: Bar)
    requires points != []
    ensures var (after, closed) := Liquidated(e, b, points, last); Closing(e, b, points, last, Report(after.trades, closed))
  {
    LiquidatedMeans(e, b, points, last);
    hide Liquidated, Quote, Fee, Amount;
    var closed := Liquidated(e, b, points, last).1;
    if b.quantity > 0.0 {
      assert closed == closed[..|closed| - 1] + [closed[|closed| - 1]];
    }
  }

  /** A run that gets through reports its last state, closed. */
  lemma ReportMeans<R>(e: Engine, p: Policy<R>, bars: seq<Bar>, start: int)
    requires RunPolicy(e, p, bars, start).Ok?
    ensures 0 <= start < |bars| == |SortBars(bars)| && Loop(e, p, SortBars(bars), start, |bars|).Ok?
    ensures var st := Loop(e, p, SortBars(bars), start, |bars|).value;
            && |st.equity| == |bars| - start
            && Closing(e, st.book, st.equity, SortBars(bars)[|bars| - 1], RunPolicy(e, p, bars, start).value)
  {
    var ordered := SortBars(bars);
    SortBarsSorts(bars);
    hide SortBars, Loop, Closing, Liquidated, InOrder;
    var st := Loop(e, p, ordered, start, |ordered|).value;
    PointsCounted(e, p, ordered, start, |ordered|);
    ClosingMeans(e, st.book, st.equity, ordered[|ordered| - 1]);
  }

  lemma {:induction false} PointsCounted<R>(e: Engine, p: Policy<R>, bars: seq<Bar>, start: nat, k: nat)
    requires k <= |bars| && Loop(e, p, bars, start, k).Ok?
    ensures |Loop(e, p, bars, start, k).value.equity| == if k > start then k - start else 0
  {
    if k > 0 {
      PointsCounted(e, p, bars, start, k - 1);
      StepGrows(e, p, bars, start, k - 1, Loop(e, p, bars, start, k - 1).value);
      hide Step;
    }
  }

  // ---------------------------------------------------------------- getting through

  /** The evaluator always answers, and every fill is accepted. */
  ghost predicate Total<R(!new)>(p: Policy<R>) {
    && (forall history, hashed, quantity, price, runtime :: p.evaluate(history, hashed, quantity, price, runtime).Some?)
    && (forall evaluation, side, price, time :: p.applyFill(evaluation, side, price, time).Some?)
  }

  /** Every bar is admitted after the ones before it. */
  ghost predicate Admitted<R>(p: Policy<R>, ordered: seq<Bar>) {
    forall k :: 1 <= k <= |ordered| ==> p.admits(ordered[..k])
  }

  ghost predicate Increasing(ordered: seq<Bar>) {
    forall i :: 0 < i < |ordered| ==> ordered[i - 1].time < ordered[i].time
  }

  predicate DistinctTimes(bars: seq<Bar>) {
    forall i, j :: 0 <= i < j < |bars| ==> bars[i].time != bars[j].time
  }

  lemma SizesSomething<R>(e: Engine, p: Policy<R>, cash: real, price: real, atr: real)
    requires e.feeRate >= 0.0
    ensures SizeEntry(e, p, cash, price, atr).Ok?
  {
    if price > 0.0 {
      assert price * e.feeRate >= 0.0;
      assert UnitCost(e, price) == price + price * e.feeRate;
    }
    hide UnitLoss, UnitCost, StepDown, Worth, MinReal;
  }

  lemma FillGoesThrough<R(!new)>(e: Engine, p: Policy<R>, st: State<R>, bar: Bar)
    requires Total(p) && e.feeRate >= 0.0
    ensures Fill(e, p, st, bar).Ok?
  {
    if st.pending.Some? {
      SizesSomething(e, p, st.book.cash, BuyPrice(e, bar.open), AtrOrZero(st.pending.value.evaluation));
    }
    hide SizeEntry, BuyPrice, SellPrice, Worth, FeeOn;
  }

  lemma DecideGoesThrough<R(!new)>(e: Engine, p: Policy<R>, st: State<R>, history: seq<Bar>, bar: Bar, evaluating: bool)
    requires Total(p) && e.feeRate >= 0.0 && st.book.quantity >= 0.0
    ensures Decide(e, p, st, history, bar, evaluating).Ok?
  {
    assert Evaluate(p, st, history).Some?;
    var v := Evaluate(p, st, history).value;
    SizesSomething(e, p, st.book.cash, bar.close, AtrOrZero(v));
    hide SizeEntry, Evaluate, Recent, Throttled;
  }

  lemma StepGoesThrough<R(!new)>(e: Engine, p: Policy<R>, bars: seq<Bar>, start: nat, k: nat, st: State<R>)
    requires Total(p) && e.feeRate >= 0.0 && k < |bars| && Balanced(e.initialCash, st.book)
    ensures Step(e, p, bars, start, k, st).Ok? <==> p.admits(bars[..k + 1]) && (k > 0 ==> bars[k - 1].time < bars[k].time)
  {
    hide Total, Fill, Decide, Balanced, Marked, Breached;
    FillGoesThrough(e, p, st, bars[k]);
    var filled := Fill(e, p, st, bars[k]).value;
    FillBalanced(e, p, st, bars[k]);
    BalancedQuantity(e.initialCash, filled.book);
    DecideGoesThrough(e, p, Guard(p, filled, bars[k], k >= start), bars[..k + 1], bars[k], k >= start);
  }

  lemma {:induction false} LoopGoesThrough<R(!new)>(e: Engine, p: Policy<R>, bars: seq<Bar>, start: nat, k: nat)
    requires Total(p) && e.feeRate >= 0.0 && k <= |bars|
    ensures Loop(e, p, bars, start, k).Ok? <==> Admitted(p, bars[..k]) && Increasing(bars[..k])
  {
    if k == 0 {
    } else {
      LoopGoesThrough(e, p, bars, start, k - 1);
      OneMoreBar(p, bars, k - 1);
      if Loop(e, p, bars, start, k - 1).Ok? {
        LoopBalanced(e, p, bars, start, k - 1);
        StepGoesThrough(e, p, bars, start, k - 1, Loop(e, p, bars, start, k - 1).value);
      }
      hide Step, Balanced, Total, Admitted, Increasing;
    }
  }

  lemma OneMoreBar<R>(p: Policy<R>, bars: seq<Bar>, k: nat)
    requires k < |bars|
    ensures Admitted(p, bars[..k + 1]) <==> Admitted(p, bars[..k]) && p.admits(bars[..k + 1])
    ensures Increasing(bars[..k + 1]) <==> Increasing(bars[..k]) && (k > 0 ==> bars[k - 1].time < bars[k].time)
  {
    var more, less := bars[..k + 1], bars[..k];
    assert forall j :: 0 <= j <= k ==> more[..j] == less[..j];
    assert more[..k + 1] == more;
    if Admitted(p, more) {
      assert p.admits(more[..k + 1]);
    }
    assert forall i :: 0 <= i < k ==> more[i] == less[i];
    if Increasing(more) && k > 0 {
      assert more[k - 1].time < more[k].time;
    }
  }

  // ---------------------------------------------------------------- distinct times

  ghost predicate OneEach(bars: seq<Bar>) {
    forall time :: |AtTime(bars, time)| <= 1
  }

  /** No two bars have one timestamp exactly when no timestamp has two bars. */
  lemma {:induction false} DistinctCounts(bars: seq<Bar>)
    ensures DistinctTimes(bars) <==> OneEach(bars)
  {
    if bars != [] {
      var front, last := bars[..|bars| - 1], bars[|bars| - 1];
      DistinctCounts(front);
      SomeAtTime(front, last.time);
      if OneEach(bars) {
        assert |AtTime(bars, last.time)| <= 1;
        forall time ensures |AtTime(front, time)| <= 1 {
          assert |AtTime(bars, time)| <= 1;
        }
      }
      if DistinctTimes(bars) {
        forall i, j | 0 <= i < j < |front| ensures front[i].time != front[j].time {
          assert bars[i].time != bars[j].time;
        }
        forall time ensures |AtTime(bars, time)| <= 1 {
          assert |AtTime(front, time)| <= 1;
        }
      }
    }
  }

  lemma {:induction false} SomeAtTime(bars: seq<Bar>, time: int)
    ensures |AtTime(bars, time)| > 0 <==> exists i :: 0 <= i < |bars| && bars[i].time == time
  {
    if bars != [] {
      SomeAtTime(bars[..|bars| - 1], time);
    }
  }

  lemma SortedIncreases(bars: seq<Bar>)
    ensures Increasing(SortBars(bars)) <==> DistinctTimes(bars)
  {
    var ordered := SortBars(bars);
    SortBarsSorts(bars);
    DistinctCounts(bars);
    DistinctCounts(ordered);
    forall time ensures AtTime(ordered, time) == AtTime(bars, time) {
      SortBarsIsStable(bars, time);
    }
    hide SortBars, AtTime;
    InOrderIncreases(ordered);
    hide DistinctTimes, InOrder, Increasing;
  }

  lemma InOrderIncreases(ordered: seq<Bar>)
    requires InOrder(ordered)
    ensures Increasing(ordered) <==> DistinctTimes(ordered)
  {
    if Increasing(ordered) {
      forall i, j | 0 <= i < j < |ordered| ensures ordered[i].time != ordered[j].time {
        assert ordered[j - 1].time < ordered[j].time && ordered[i].time <= ordered[j - 1].time;
      }
    }
    if DistinctTimes(ordered) {
      forall i | 0 < i < |ordered| ensures ordered[i - 1].time < ordered[i].time {
        assert ordered[i - 1].time != ordered[i].time;
      }
    }
  }

  /**
   When the evaluator always answers and fills are always accepted, a run gets through exactly when there are bars, it
   starts at one of them, no two have one timestamp, and in order of time each is admitted after the ones before it.
   */
  lemma RunsExactly<R(!new)>(e: Engine, p: Policy<R>, bars: seq<Bar>, start: int)
    requires Total(p) && e.feeRate >= 0.0
    ensures RunPolicy(e, p, bars, start).Ok? <==> 0 <= start < |bars| && DistinctTimes(bars) && Admitted(p, SortBars(bars))
    ensures bars == [] ==> RunPolicy(e, p, bars, start) == Err(NoBars)
    ensures bars != [] && !(0 <= start < |bars|) ==> RunPolicy(e, p, bars, start) == Err(InvalidStart)
  {
    hide Loop, Total, Admitted, Increasing, DistinctTimes, InOrder, Liquidated, SortBars;
    var ordered := SortBars(bars);
    SortBarsSorts(bars);
    SortedIncreases(bars);
    if 0 <= start < |bars| {
      assert ordered[..|ordered|] == ordered;
      LoopGoesThrough(e, p, ordered, start, |ordered|);
      assert RunPolicy(e, p, bars, start).Ok? <==> Loop(e, p, ordered, start, |ordered|).Ok?;
    }
  }
}
