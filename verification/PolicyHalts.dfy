/** When the two circuit breakers trip, told by the account's values alone: its equity points, and its worth at the bars of a day. */
module PolicyHalts {
  import opened Prelude
  import opened Market
  import opened Money
  import opened PolicyBacktest
  import opened PolicyProperties

  // ---------------------------------------------------------------- values

  /** A value is down by the limit, a share, from an earlier one. */
  predicate Down(value: real, from: real, limit: real) {
    value <= from * (1.0 - limit)
  }

  function DayOf(bar: Bar): int {
    bar.time / 86400
  }

  /** The account at the close of bar `j`. */
  ghost function Value<R>(e: Engine, p: Policy<R>, bars: seq<Bar>, start: nat, j: nat): real
    requires j < |bars| && Loop(e, p, bars, start, j + 1).Ok?
  {
    AccountAt(Loop(e, p, bars, start, j + 1).value.book, bars[j].close)
  }

  /** The largest of a starting value and some equity points. */
  ghost function HighWater(initial: real, equity: seq<EquityPoint>): (top: real)
    ensures top >= initial && forall i :: 0 <= i < |equity| ==> top >= equity[i].equity
    ensures top == initial || exists i :: 0 <= i < |equity| && top == equity[i].equity
  {
    if equity == [] then initial
    else
      var rest := HighWater(initial, equity[..|equity| - 1]);
      if equity[|equity| - 1].equity > rest then equity[|equity| - 1].equity else rest
  }

  /** Bar `d` is the first of the day that bar `k` - 1 belongs to. */
  ghost predicate OpensDay(bars: seq<Bar>, d: nat, k: nat) {
    && d < k <= |bars|
    && (forall i :: d <= i < k ==> DayOf(bars[i]) == DayOf(bars[k - 1]))
    && (d > 0 ==> DayOf(bars[d - 1]) != DayOf(bars[k - 1]))
  }

  // ---------------------------------------------------------------- one bar

  /** What a bar does to the day, the peak and the two flags, given the account's value at its close. */
  ghost predicate Guards<R>(p: Policy<R>, st: State<R>, after: State<R>, bar: Bar, value: real, evaluating: bool) {
    var today := DayOf(bar);
    && after.day == Some(today)
    && after.dailyStart == (if st.day == Some(today) then st.dailyStart else value)
    && (after.dailyHalted <==>
          || (st.day == Some(today) && st.dailyHalted)
          || (p.risk.dailyLossLimitPct.Some? && Down(value, after.dailyStart, p.risk.dailyLossLimitPct.value)))
    && after.peak == (if evaluating && value > st.peak then value else st.peak)
    && (after.drawdownHalted <==>
          || st.drawdownHalted
          || (evaluating && p.risk.maxDrawdownPct.Some? && Down(value, after.peak, p.risk.maxDrawdownPct.value)))
  }

  lemma GuardMeans<R>(p: Policy<R>, st: State<R>, bar: Bar, evaluating: bool)
    ensures Guards(p, st, Guard(p, st, bar, evaluating), bar, AccountAt(st.book, bar.close), evaluating)
  {
  }

  /** A bar's guard sees the book the bar ends with, and that is what the bar's equity point records. */
  lemma StepGuards<R>(e: Engine, p: Policy<R>, bars: seq<Bar>, start: nat, k: nat)
    requires k < |bars| && Loop(e, p, bars, start, k).Ok? && Loop(e, p, bars, start, k + 1).Ok?
    ensures var st, after := Loop(e, p, bars, start, k).value, Loop(e, p, bars, start, k + 1).value;
            var value := Value(e, p, bars, start, k);
            && Guards(p, st, after, bars[k], value, k >= start)
            && after.equity == if k >= start then st.equity + [EquityPoint(bars[k].time, value)] else st.equity
  {
    var st := Loop(e, p, bars, start, k).value;
    assert Loop(e, p, bars, start, k + 1) == Step(e, p, bars, start, k, st);
    hide Loop;
    OneStepGuards(e, p, bars, start, k, st);
    hide Guards, Step;
  }

  lemma OneStepGuards<R>(e: Engine, p: Policy<R>, bars: seq<Bar>, start: nat, k: nat, st: State<R>)
    requires k < |bars| && Step(e, p, bars, start, k, st).Ok?
    ensures var after := Step(e, p, bars, start, k, st).value;
            var value := AccountAt(after.book, bars[k].close);
            && Guards(p, st, after, bars[k], value, k >= start)
            && after.equity == if k >= start then st.equity + [EquityPoint(bars[k].time, value)] else st.equity
  {
    hide AccountAt, Down, DayOf, Guard, Step, Guards, Marked, Recent, Throttled;
    var filled, guarded := StepHasEffect(e, p, bars, start, k, st);
    var after := Step(e, p, bars, start, k, st).value;
    GuardMeans(p, filled, bars[k], k >= start);
    GuardKeeps(p, filled, bars[k], k >= start);
    MarkedMeans(after.book, bars[k].close);
    assert after.book == filled.book && filled.equity == st.equity;
    SameGuards(p, st, filled, guarded, after, bars[k], AccountAt(after.book, bars[k].close), k >= start);
  }

  lemma GuardKeeps<R>(p: Policy<R>, st: State<R>, bar: Bar, evaluating: bool)
    ensures var after := Guard(p, st, bar, evaluating); after.book == st.book && after.equity == st.equity && after.entryTimes == st.entryTimes
  {
  }

  /** Filling before and deciding after change none of the guard's fields. */
  lemma SameGuards<R>(p: Policy<R>, st: State<R>, filled: State<R>, guarded: State<R>, after: State<R>, bar: Bar, value: real, evaluating: bool)
    requires Guards(p, filled, guarded, bar, value, evaluating)
    requires FillEffect(st, filled, bar) && DecideEffect(p, guarded, after.(equity := guarded.equity), bar)
    ensures Guards(p, st, after, bar, value, evaluating)
  {
    hide Down, DayOf, Recent, Throttled;
  }

  // ---------------------------------------------------------------- drawdown

  /** The equity point is down by the limit from the highest value so far. */
  ghost predicate DrawnDown(equity: seq<EquityPoint>, i: nat, initial: real, limit: real) {
    i < |equity| && Down(equity[i].equity, HighWater(initial, equity[..i + 1]), limit)
  }

  lemma PointAdded(equity: seq<EquityPoint>, point: EquityPoint, initial: real, limit: Option<real>)
    ensures var top := HighWater(initial, equity);
            HighWater(initial, equity + [point]) == if point.equity > top then point.equity else top
    ensures limit.Some? ==>
              ((exists i :: DrawnDown(equity + [point], i, initial, limit.value))
               <==> || (exists i :: DrawnDown(equity, i, initial, limit.value))
                    || Down(point.equity, HighWater(initial, equity + [point]), limit.value))
  {
    var more, n := equity + [point], |equity|;
    assert more[..n] == equity && more[..n + 1] == more;
    if limit.Some? {
      hide HighWater, Down;
      forall i: nat | i < n ensures DrawnDown(more, i, initial, limit.value) <==> DrawnDown(equity, i, initial, limit.value) {
        assert more[..i + 1] == equity[..i + 1];
      }
      assert DrawnDown(more, n, initial, limit.value) <==> Down(point.equity, HighWater(initial, more), limit.value);
      forall i: nat ensures DrawnDown(more, i, initial, limit.value) ==> i <= n {
      }
      forall i: nat ensures DrawnDown(equity, i, initial, limit.value) ==> i < n {
      }
      hide DrawnDown;
    }
  }

  /** The peak is the highest value so far, and the breaker knows whether some point was down by the limit. */
  ghost predicate Tracks<R>(p: Policy<R>, st: State<R>, initial: real) {
    && st.peak == HighWater(initial, st.equity)
    && (st.drawdownHalted <==>
          p.risk.maxDrawdownPct.Some? && exists i :: DrawnDown(st.equity, i, initial, p.risk.maxDrawdownPct.value))
  }

  lemma BarTracks<R>(p: Policy<R>, st: State<R>, after: State<R>, bar: Bar, value: real, evaluating: bool, initial: real)
    requires Tracks(p, st, initial) && Guards(p, st, after, bar, value, evaluating)
    requires after.equity == if evaluating then st.equity + [EquityPoint(bar.time, value)] else st.equity
    ensures Tracks(p, after, initial)
  {
    hide Down, DayOf, HighWater, DrawnDown;
    if evaluating {
      PointAdded(st.equity, EquityPoint(bar.time, value), initial, p.risk.maxDrawdownPct);
    }
  }

  lemma {:induction false} LoopTracks<R>(e: Engine, p: Policy<R>, bars: seq<Bar>, start: nat, k: nat)
    requires k <= |bars| && Loop(e, p, bars, start, k).Ok?
    ensures Tracks(p, Loop(e, p, bars, start, k).value, e.initialCash)
  {
    hide Step, Down, DayOf, AccountAt;
    if k > 0 {
      LoopGrows(e, p, bars, start, k - 1, k);
      LoopTracks(e, p, bars, start, k - 1);
      StepGuards(e, p, bars, start, k - 1);
      hide Loop, Value, HighWater, DrawnDown, Guards, Tracks;
      var st, after := Loop(e, p, bars, start, k - 1).value, Loop(e, p, bars, start, k).value;
      BarTracks(p, st, after, bars[k - 1], Value(e, p, bars, start, k - 1), k - 1 >= start, e.initialCash);
    }
  }

  /**
   The drawdown breaker has tripped exactly when a limit is set and some evaluated bar's equity point was down by it from
   the highest of the initial cash and the equity points up to that one.
   */
  lemma DrawdownExactly<R>(e: Engine, p: Policy<R>, bars: seq<Bar>, start: nat, k: nat)
    requires k <= |bars| && Loop(e, p, bars, start, k).Ok?
    ensures var st := Loop(e, p, bars, start, k).value;
            && st.peak == HighWater(e.initialCash, st.equity)
            && (st.drawdownHalted <==>
                  p.risk.maxDrawdownPct.Some? && exists i :: DrawnDown(st.equity, i, e.initialCash, p.risk.maxDrawdownPct.value))
  {
    LoopTracks(e, p, bars, start, k);
    hide Loop, HighWater, DrawnDown;
  }

  // ---------------------------------------------------------------- daily loss

  /** Bar `j` closed at or below the limit from the day's first value. */
  ghost predicate LostToday<R>(e: Engine, p: Policy<R>, bars: seq<Bar>, start: nat, d: nat, j: nat, limit: real) {
    && d < |bars| && j < |bars| && Loop(e, p, bars, start, d + 1).Ok? && Loop(e, p, bars, start, j + 1).Ok?
    && Down(Value(e, p, bars, start, j), Value(e, p, bars, start, d), limit)
  }

  /**
   The daily breaker is tripped exactly when a limit is set and some bar of the current day, up to now, closed with the
   account at or below that share of its value on the day's first bar.
   */
  lemma {:induction false} DailyExactly<R>(e: Engine, p: Policy<R>, bars: seq<Bar>, start: nat, d: nat, k: nat)
    requires k <= |bars| && Loop(e, p, bars, start, k).Ok? && OpensDay(bars, d, k)
    ensures var st := Loop(e, p, bars, start, k).value;
            && st.day == Some(DayOf(bars[k - 1]))
            && Loop(e, p, bars, start, d + 1).Ok? && st.dailyStart == Value(e, p, bars, start, d)
            && (st.dailyHalted <==>
                  p.risk.dailyLossLimitPct.Some?
                  && exists j :: d <= j < k && LostToday(e, p, bars, start, d, j, p.risk.dailyLossLimitPct.value))
    decreases k
  {
    hide Step, Loop, Down, DayOf, AccountAt, Value;
    LoopGrows(e, p, bars, start, k - 1, k);
    LoopGrows(e, p, bars, start, d + 1, k);
    StepGuards(e, p, bars, start, k - 1);
    var limit := p.risk.dailyLossLimitPct;
    if d == k - 1 {
      DayChanges(e, p, bars, start, k);
      assert limit.Some? ==>
          (LostToday(e, p, bars, start, d, d, limit.value) <==> Down(Value(e, p, bars, start, d), Value(e, p, bars, start, d), limit.value));
    } else {
      assert OpensDay(bars, d, k - 1);
      DailyExactly(e, p, bars, start, d, k - 1);
      assert limit.Some? ==>
          (LostToday(e, p, bars, start, d, k - 1, limit.value)
           <==> Down(Value(e, p, bars, start, k - 1), Value(e, p, bars, start, d), limit.value));
    }
    hide LostToday, OpensDay;
  }

  /** At the first bar of a day the recorded day is another one, or none. */
  lemma {:induction false} DayChanges<R>(e: Engine, p: Policy<R>, bars: seq<Bar>, start: nat, k: nat)
    requires 0 < k <= |bars| && Loop(e, p, bars, start, k).Ok? && OpensDay(bars, k - 1, k)
    ensures Loop(e, p, bars, start, k - 1).Ok? && Loop(e, p, bars, start, k - 1).value.day != Some(DayOf(bars[k - 1]))
  {
    hide Step, DayOf, Down, AccountAt;
    LoopGrows(e, p, bars, start, k - 1, k);
    if k > 1 {
      LoopGrows(e, p, bars, start, k - 2, k);
      StepGuards(e, p, bars, start, k - 2);
      hide Loop;
    }
  }
}
