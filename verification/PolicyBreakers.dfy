/** The entry throttle and the two circuit breakers, over every run of the policy loop. */
module PolicyBreakers {
  import opened Prelude
  import opened Market
  import opened PolicyBacktest
  import opened PolicyProperties

  /** The times of the buy fills, in order. */
  function Buys(trades: seq<Trade>): seq<int> {
    if trades == [] then []
    else
      var last := trades[|trades| - 1];
      Buys(trades[..|trades| - 1]) + if last.side == Buy then [last.time] else []
  }

  lemma BuysSnoc(trades: seq<Trade>, t: Trade)
    ensures Buys(trades + [t]) == if t.side == Buy then Buys(trades) + [t.time] else Buys(trades)
  {
  }

  ghost predicate WaitingBuy<R>(st: State<R>) {
    st.pending.Some? && st.pending.value.action == Buy
  }

  /** A waiting decision was taken on the bar just processed, so the next bar empties the slot. */
  ghost predicate Fresh<R>(st: State<R>, bars: seq<Bar>, k: nat)
    requires k <= |bars|
  {
    st.pending.Some? ==> k > 0 && st.pending.value.at == bars[k - 1].time
  }

  /** One bar, as far as entries are concerned; `times` is the entry log once the bar's fill is done. */
  ghost predicate EntryStep<R>(p: Policy<R>, st: State<R>, times: seq<int>, after: State<R>, bar: Bar) {
    && (|| (times == st.entryTimes && Buys(after.book.trades) == Buys(st.book.trades))
        || (&& WaitingBuy(st) && times == st.entryTimes + [bar.time]
            && Buys(after.book.trades) == Buys(st.book.trades) + [bar.time]))
    && (after.entryTimes == times || after.entryTimes == Recent(times, Cutoff(bar.time)))
    && (after.pending.Some? ==> after.pending.value.at == bar.time)
    && (WaitingBuy(after) ==>
          && !after.dailyHalted && !after.drawdownHalted
          && after.entryTimes == Recent(times, Cutoff(bar.time)) && !Throttled(p, after.entryTimes))
    && (st.drawdownHalted ==> after.drawdownHalted)
    && (st.dailyHalted && st.day == Some(bar.time / DAY) ==> after.dailyHalted)
    && after.day == Some(bar.time / DAY)
  }

  lemma GuardFacts<R>(p: Policy<R>, st: State<R>, bar: Bar, evaluating: bool)
    ensures var after := Guard(p, st, bar, evaluating);
            && after.book == st.book && after.pending == st.pending && after.entryTimes == st.entryTimes && after.equity == st.equity
            && (st.drawdownHalted ==> after.drawdownHalted)
            && (st.dailyHalted && st.day == Some(bar.time / DAY) ==> after.dailyHalted)
            && after.day == Some(bar.time / DAY)
  {
  }

  lemma FillBuys<R>(st: State<R>, filled: State<R>, bar: Bar)
    requires FillEffect(st, filled, bar)
    ensures || (filled.entryTimes == st.entryTimes && Buys(filled.book.trades) == Buys(st.book.trades))
            || (WaitingBuy(st) && filled.entryTimes == st.entryTimes + [bar.time]
                && Buys(filled.book.trades) == Buys(st.book.trades) + [bar.time])
  {
  }

  lemma StepEntries<R>(e: Engine, p: Policy<R>, bars: seq<Bar>, start: nat, index: nat, st: State<R>)
    returns (times: seq<int>)
    requires index < |bars| && Step(e, p, bars, start, index, st).Ok?
    requires Fresh(st, bars, index)
    ensures EntryStep(p, st, times, Step(e, p, bars, start, index, st).value, bars[index])
  {
    assert st.pending.Some? ==> bars[index].time > st.pending.value.at;
    var filled, guarded := StepHasEffect(e, p, bars, start, index, st);
    var bar := bars[index];
    hide Step, Marked, Breached, Recent, Throttled, Buys;
    times := filled.entryTimes;
    assert filled.pending.None?;
    FillBuys(st, filled, bar);
    GuardFacts(p, filled, bar, index >= start);
    hide Guard, FillEffect;
  }

  lemma {:induction false} LoopFresh<R>(e: Engine, p: Policy<R>, bars: seq<Bar>, start: nat, k: nat)
    requires k <= |bars| && Loop(e, p, bars, start, k).Ok?
    ensures Fresh(Loop(e, p, bars, start, k).value, bars, k)
    ensures var st := Loop(e, p, bars, start, k).value; st.dailyHalted || st.drawdownHalted ==> !WaitingBuy(st)
    ensures k > 0 ==> Loop(e, p, bars, start, k).value.day == Some(bars[k - 1].time / DAY)
  {
    hide Step, Recent, Throttled, Buys;
    if k > 0 {
      LoopFresh(e, p, bars, start, k - 1);
      var _ := StepEntries(e, p, bars, start, k - 1, Loop(e, p, bars, start, k - 1).value);
    }
  }

  // ---------------------------------------------------------------- circuit breakers

  /** While either breaker is tripped the next bar fills no entry: the slot cannot hold one. */
  lemma HaltedBarFillsNoEntry<R>(e: Engine, p: Policy<R>, bars: seq<Bar>, start: nat, k: nat)
    requires 0 < k <= |bars| && Loop(e, p, bars, start, k).Ok?
    requires Loop(e, p, bars, start, k - 1).Ok?
    ensures var before := Loop(e, p, bars, start, k - 1).value;
            var after := Loop(e, p, bars, start, k).value;
            && (before.dailyHalted || before.drawdownHalted ==> Buys(after.book.trades) == Buys(before.book.trades))
            && (before.drawdownHalted ==> after.drawdownHalted)
            && (before.dailyHalted && before.day == Some(bars[k - 1].time / DAY) ==> after.dailyHalted)
  {
    hide Step, Recent, Throttled, Buys;
    LoopFresh(e, p, bars, start, k - 1);
    var _ := StepEntries(e, p, bars, start, k - 1, Loop(e, p, bars, start, k - 1).value);
  }

  /** Once the drawdown breaker has tripped no later bar ever fills an entry. */
  lemma {:induction false} DrawdownHaltIsFinal<R>(e: Engine, p: Policy<R>, bars: seq<Bar>, start: nat, k: nat, n: nat)
    requires k <= n <= |bars| && Loop(e, p, bars, start, n).Ok? && Loop(e, p, bars, start, k).Ok?
    requires Loop(e, p, bars, start, k).value.drawdownHalted
    ensures Loop(e, p, bars, start, n).value.drawdownHalted
    ensures Buys(Loop(e, p, bars, start, n).value.book.trades) == Buys(Loop(e, p, bars, start, k).value.book.trades)
    decreases n
  {
    hide Step, Buys;
    if k < n {
      DrawdownHaltIsFinal(e, p, bars, start, k, n - 1);
      HaltedBarFillsNoEntry(e, p, bars, start, n);
    }
  }

  /** Once the daily breaker has tripped no entry is filled up to and including the first bar of the next day. */
  lemma {:induction false} DailyHaltHolds<R>(e: Engine, p: Policy<R>, bars: seq<Bar>, start: nat, k: nat, n: nat)
    requires 0 < k <= n <= |bars| && Loop(e, p, bars, start, n).Ok? && Loop(e, p, bars, start, k).Ok?
    requires Loop(e, p, bars, start, k).value.dailyHalted
    requires forall j :: k <= j < n - 1 ==> bars[j].time / DAY == bars[k - 1].time / DAY
    ensures Buys(Loop(e, p, bars, start, n).value.book.trades) == Buys(Loop(e, p, bars, start, k).value.book.trades)
    ensures (forall j :: k <= j < n ==> bars[j].time / DAY == bars[k - 1].time / DAY) ==>
              Loop(e, p, bars, start, n).value.dailyHalted
    decreases n
  {
    hide Step, Buys;
    if k < n {
      DailyHaltHolds(e, p, bars, start, k, n - 1);
      LoopFresh(e, p, bars, start, n - 1);
      HaltedBarFillsNoEntry(e, p, bars, start, n);
      assert n - 1 > k ==> bars[n - 2].time / DAY == bars[k - 1].time / DAY;
    }
  }

  /** The state a bar's decision is taken in. */
  ghost function DecidingState<R>(e: Engine, p: Policy<R>, bars: seq<Bar>, start: nat, k: nat): State<R>
    requires k < |bars| && Loop(e, p, bars, start, k + 1).Ok?
  {
    Guard(p, Fill(e, p, Loop(e, p, bars, start, k).value, bars[k]).value, bars[k], k >= start)
  }

  /** Whatever the breakers say, a sell decided on an open position is filled on the next bar. */
  lemma SellsPassBreakers<R>(e: Engine, p: Policy<R>, bars: seq<Bar>, start: nat, k: nat, v: Evaluation<R>)
    requires start <= k && k + 2 <= |bars| && Loop(e, p, bars, start, k + 2).Ok? && Loop(e, p, bars, start, k + 1).Ok?
    requires p.completes(bars[..k + 1]) && Evaluate(p, DecidingState(e, p, bars, start, k), bars[..k + 1]) == Some(v)
    requires v.action == Sell && DecidingState(e, p, bars, start, k).book.quantity > 0.0
    ensures var held := DecidingState(e, p, bars, start, k).book;
            Loop(e, p, bars, start, k + 2).value.book ==
              Sold(e, held, bars[k + 1].time, SellPrice(e, bars[k + 1].open), v.reason, Some(v.contextHash))
  {
    var decided := Loop(e, p, bars, start, k + 1).value;
    assert Loop(e, p, bars, start, k + 2) == Step(e, p, bars, start, k + 1, decided);
    hide Loop, Evaluate, Step, Sold, SellPrice, Guard, Fill;
    SellIsQueued(e, p, bars, start, k, v);
    LoopOrdered(e, p, bars, start, k + 2);
    SellIsFilled(e, p, bars, start, k + 1, decided);
  }

  lemma SellIsFilled<R>(e: Engine, p: Policy<R>, bars: seq<Bar>, start: nat, index: nat, st: State<R>)
    requires index < |bars| && Step(e, p, bars, start, index, st).Ok?
    requires st.pending.Some? && st.pending.value.action == Sell && bars[index].time > st.pending.value.at
    requires st.book.quantity > 0.0
    ensures var v := st.pending.value.evaluation;
            Step(e, p, bars, start, index, st).value.book ==
              Sold(e, st.book, bars[index].time, SellPrice(e, bars[index].open), v.reason, Some(v.contextHash))
  {
  }

  lemma SellIsQueued<R>(e: Engine, p: Policy<R>, bars: seq<Bar>, start: nat, k: nat, v: Evaluation<R>)
    requires start <= k < |bars| && Loop(e, p, bars, start, k + 1).Ok?
    requires p.completes(bars[..k + 1]) && Evaluate(p, DecidingState(e, p, bars, start, k), bars[..k + 1]) == Some(v)
    requires v.action == Sell && DecidingState(e, p, bars, start, k).book.quantity > 0.0
    ensures Loop(e, p, bars, start, k + 1).value.pending == Some(Pending(v, bars[k].time, Sell, None))
    ensures Loop(e, p, bars, start, k + 1).value.book == DecidingState(e, p, bars, start, k).book
  {
  }

  // ---------------------------------------------------------------- the entry throttle

  ghost predicate Increasing(times: seq<int>) {
    forall i, j :: 0 <= i < j < |times| ==> times[i] < times[j]
  }

  /** Any `m` fills after a given one reach at least an hour beyond it. */
  ghost predicate HourApart(times: seq<int>, m: nat) {
    forall j :: 0 <= j && j + m < |times| ==> times[j + m] >= times[j] + HOUR
  }

  /** How many of the times fall in the hour that begins at `from`. */
  function InHour(times: seq<int>, from: int): nat {
    if times == [] then 0
    else
      var last := times[|times| - 1];
      InHour(times[..|times| - 1], from) + if from <= last < from + HOUR then 1 else 0
  }

  lemma {:induction false} NothingRecent(times: seq<int>, cutoff: int)
    requires forall j :: 0 <= j < |times| ==> times[j] <= cutoff
    ensures Recent(times, cutoff) == []
  {
    if times != [] {
      NothingRecent(times[..|times| - 1], cutoff);
    }
  }

  lemma {:induction false} RecentIsSuffix(times: seq<int>, cutoff: int) returns (c: nat)
    requires Increasing(times)
    ensures c <= |times| && Recent(times, cutoff) == times[c..]
    ensures forall j :: 0 <= j < c ==> times[j] <= cutoff
    ensures forall j :: c <= j < |times| ==> times[j] > cutoff
  {
    if times == [] {
      c := 0;
    } else {
      var n := |times| - 1;
      if times[n] > cutoff {
        c := RecentIsSuffix(times[..n], cutoff);
        assert times[c..] == times[..n][c..] + [times[n]];
        assert forall j :: 0 <= j < n ==> times[..n][j] == times[j];
        hide Recent, Increasing;
      } else {
        NothingRecent(times[..n], cutoff);
        c := |times|;
      }
    }
  }

  lemma {:induction false} FewSince(times: seq<int>, from: int, c: nat)
    requires c <= |times| && forall j :: 0 <= j < c ==> times[j] < from
    ensures InHour(times, from) <= |times| - c
  {
    if c < |times| {
      FewSince(times[..|times| - 1], from, c);
    } else if times != [] {
      FewSince(times[..|times| - 1], from, c - 1);
    }
  }

  lemma HourApartPrefix(times: seq<int>, m: nat, n: nat)
    requires n <= |times| && HourApart(times, m)
    ensures HourApart(times[..n], m)
  {
  }

  /** Fills an hour apart in every `m` + 1 never crowd a window of an hour. */
  lemma {:induction false} HourApartBoundsWindow(times: seq<int>, m: nat, from: int)
    requires m >= 1 && Increasing(times) && HourApart(times, m)
    ensures InHour(times, from) <= m
  {
    if times != [] {
      var n := |times| - 1;
      var last := times[n];
      if from <= last < from + HOUR {
        var c := if n >= m then n - m + 1 else 0;
        forall j | 0 <= j < c ensures times[..n][j] < from {
          assert times[n - m + m] >= times[n - m] + HOUR;
          assert j < n - m ==> times[j] < times[n - m];
        }
        FewSince(times[..n], from, c);
      } else {
        HourApartPrefix(times, m, n);
        HourApartBoundsWindow(times[..n], m, from);
      }
    }
  }

  /** What the throttle keeps true at the end of a bar at time `now`. */
  ghost predicate ThrottleInv<R>(st: State<R>, m: nat, now: int) {
    ThrottleFacts(Buys(st.book.trades), m, now, st.entryTimes, WaitingBuy(st))
  }

  ghost predicate ThrottleFacts(buys: seq<int>, m: nat, now: int, log: seq<int>, waiting: bool) {
    && Increasing(buys) && HourApart(buys, m)
    && (forall i :: 0 <= i < |buys| ==> buys[i] <= now)
    && (exists c: nat :: LogFrom(log, buys, c, now))
    && (waiting ==> SlotFree(buys, m, now))
  }

  /** The log holds the buys from the `c`-th on; those before are over an hour older than any fill to come. */
  ghost predicate LogFrom(log: seq<int>, buys: seq<int>, c: nat, now: int) {
    c <= |buys| && log == buys[c..] && forall j :: 0 <= j < c ==> buys[j] <= Cutoff(now)
  }

  /** An entry filled a minute or more from now has at most `m` - 1 others in the hour before it. */
  ghost predicate SlotFree(buys: seq<int>, m: nat, now: int) {
    |buys| >= m > 0 ==> buys[|buys| - m] <= Cutoff(now)
  }

  lemma FilledInv(buys: seq<int>, m: nat, now: int, log: seq<int>, c: nat, time: int)
    requires m >= 1 && Increasing(buys) && HourApart(buys, m) && SlotFree(buys, m, now)
    requires forall i :: 0 <= i < |buys| ==> buys[i] <= now
    requires LogFrom(log, buys, c, now) && time >= now + MINUTE
    ensures Increasing(buys + [time]) && HourApart(buys + [time], m)
    ensures LogFrom(log + [time], buys + [time], c, time)
  {
  }

  lemma PrunedLog(buys: seq<int>, m: nat, log: seq<int>, c: nat, now: int) returns (d: nat)
    requires m >= 1 && Increasing(buys) && LogFrom(log, buys, c, now)
    ensures LogFrom(Recent(log, Cutoff(now)), buys, d, now)
    ensures |Recent(log, Cutoff(now))| < m ==> SlotFree(buys, m, now)
  {
    var r := RecentIsSuffix(log, Cutoff(now));
    d := c + r;
    assert log[r..] == buys[d..];
    forall j | 0 <= j < d ensures buys[j] <= Cutoff(now) {
      if j >= c {
        assert buys[j] == log[j - c];
      }
    }
  }

  lemma FactsFilled(buys: seq<int>, log: seq<int>, waiting: bool, more: seq<int>, times: seq<int>, m: nat, now: int, time: int)
    returns (c: nat)
    requires m >= 1 && ThrottleFacts(buys, m, now, log, waiting) && time >= now + MINUTE
    requires (times == log && more == buys) || (waiting && times == log + [time] && more == buys + [time])
    ensures Increasing(more) && HourApart(more, m) && LogFrom(times, more, c, time)
    ensures forall i :: 0 <= i < |more| ==> more[i] <= time
  {
    c :| LogFrom(log, buys, c, now);
    if more != buys {
      FilledInv(buys, m, now, log, c, time);
    }
    hide Increasing, HourApart;
  }

  lemma FactsStep(buys: seq<int>, log: seq<int>, waiting: bool, more: seq<int>, times: seq<int>,
                  kept: seq<int>, queued: bool, m: nat, now: int, time: int)
    requires m >= 1 && ThrottleFacts(buys, m, now, log, waiting) && time >= now + MINUTE
    requires (times == log && more == buys) || (waiting && times == log + [time] && more == buys + [time])
    requires kept == times || kept == Recent(times, Cutoff(time))
    requires queued ==> kept == Recent(times, Cutoff(time)) && |kept| < m
    ensures ThrottleFacts(more, m, time, kept, queued)
  {
    var c := FactsFilled(buys, log, waiting, more, times, m, now, time);
    var d := PrunedLog(more, m, times, c, time);
    hide Increasing, HourApart, Recent, LogFrom, SlotFree;
  }

  lemma ThrottleStep<R>(p: Policy<R>, st: State<R>, times: seq<int>, after: State<R>, bar: Bar, m: nat, now: int)
    requires EntryStep(p, st, times, after, bar) && ThrottleInv(st, m, now) && m >= 1
    requires p.risk.maxTradeGroupsPerHour == Some(m as int) && bar.time >= now + MINUTE
    ensures ThrottleInv(after, m, bar.time)
  {
    hide Buys, Recent, ThrottleFacts;
    FactsStep(Buys(st.book.trades), st.entryTimes, WaitingBuy(st), Buys(after.book.trades), times,
              after.entryTimes, WaitingBuy(after), m, now, bar.time);
  }

  lemma {:induction false} LoopThrottled<R>(e: Engine, p: Policy<R>, bars: seq<Bar>, start: nat, k: nat, m: nat)
    requires k <= |bars| && Loop(e, p, bars, start, k).Ok? && m >= 1
    requires p.risk.maxTradeGroupsPerHour == Some(m as int) && MinuteSpaced(bars)
    ensures k > 0 ==> ThrottleInv(Loop(e, p, bars, start, k).value, m, bars[k - 1].time)
  {
    hide Step;
    if k > 0 {
      var st := Loop(e, p, bars, start, k - 1).value;
      LoopThrottled(e, p, bars, start, k - 1, m);
      LoopFresh(e, p, bars, start, k - 1);
      var times := StepEntries(e, p, bars, start, k - 1, st);
      var now := if k > 1 then bars[k - 2].time else bars[0].time - MINUTE;
      if k == 1 {
        assert LogFrom(st.entryTimes, Buys(st.book.trades), 0, now);
      }
      hide EntryStep, ThrottleInv;
      ThrottleStep(p, st, times, Loop(e, p, bars, start, k).value, bars[k - 1], m, now);
    }
  }

  ghost predicate MinuteSpaced(bars: seq<Bar>) {
    forall i :: 0 <= i < |bars| - 1 ==> bars[i + 1].time >= bars[i].time + MINUTE
  }

  ghost predicate MinuteAligned(bars: seq<Bar>) {
    forall i :: 0 <= i < |bars| ==> bars[i].time % MINUTE == 0
  }

  /** Minute-aligned bars in strictly increasing time are at least a minute apart. */
  lemma AlignedIsSpaced(bars: seq<Bar>)
    requires MinuteAligned(bars) && forall i, j :: 0 <= i < j < |bars| ==> bars[i].time < bars[j].time
    ensures MinuteSpaced(bars)
  {
  }

  /** A limit of zero or less admits no entry at all. */
  lemma {:induction false} NothingAdmitted<R>(e: Engine, p: Policy<R>, bars: seq<Bar>, start: nat, k: nat)
    requires k <= |bars| && Loop(e, p, bars, start, k).Ok?
    requires p.risk.maxTradeGroupsPerHour.Some? && p.risk.maxTradeGroupsPerHour.value <= 0
    ensures Buys(Loop(e, p, bars, start, k).value.book.trades) == [] && !WaitingBuy(Loop(e, p, bars, start, k).value)
  {
    hide Step;
    if k > 0 {
      NothingAdmitted(e, p, bars, start, k - 1);
      LoopFresh(e, p, bars, start, k - 1);
      var _ := StepEntries(e, p, bars, start, k - 1, Loop(e, p, bars, start, k - 1).value);
    }
  }

  /** The closing liquidation is a sell: it adds no entry. */
  lemma LiquidationBuysNothing(e: Engine, b: Book, equity: seq<EquityPoint>, last: Bar)
    ensures Buys(Liquidated(e, b, equity, last).0.trades) == Buys(b.trades)
  {
    if b.quantity > 0.0 {
      BuysSnoc(b.trades, Liquidated(e, b, equity, last).0.trades[|b.trades|]);
    }
  }

  lemma LoopWithinLimit<R>(e: Engine, p: Policy<R>, ordered: seq<Bar>, start: nat, m: int, from: int)
    requires ordered != [] && Loop(e, p, ordered, start, |ordered|).Ok? && MinuteAligned(ordered)
    requires p.risk.maxTradeGroupsPerHour == Some(m)
    ensures InHour(Buys(Loop(e, p, ordered, start, |ordered|).value.book.trades), from) <= if m > 0 then m else 0
  {
    hide Loop;
    LoopOrdered(e, p, ordered, start, |ordered|);
    AlignedIsSpaced(ordered);
    if m > 0 {
      LoopThrottled(e, p, ordered, start, |ordered|, m);
      HourApartBoundsWindow(Buys(Loop(e, p, ordered, start, |ordered|).value.book.trades), m, from);
    } else {
      NothingAdmitted(e, p, ordered, start, |ordered|);
    }
  }

  /**
   The sliding-window throttle: on minute-aligned bars no half-open window of an hour, wherever it
   begins, holds more entry fills than the limit, although the limit is tested before the fill.
   */
  lemma EntriesThrottled<R>(e: Engine, p: Policy<R>, bars: seq<Bar>, start: int, m: int, from: int)
    requires RunPolicy(e, p, bars, start).Ok? && MinuteAligned(bars)
    requires p.risk.maxTradeGroupsPerHour == Some(m)
    ensures InHour(Buys(RunPolicy(e, p, bars, start).value.trades), from) <= if m > 0 then m else 0
  {
    var ordered := SortBars(bars);
    SortBarsSorts(bars);
    forall i | 0 <= i < |ordered| ensures ordered[i].time % MINUTE == 0 {
      assert ordered[i] in multiset(ordered);
      assert ordered[i] in multiset(bars);
    }
    hide Loop, SortBars, Buys, InHour, Liquidated;
    LoopWithinLimit(e, p, ordered, start, m, from);
    var st := Loop(e, p, ordered, start, |ordered|).value;
    LiquidationBuysNothing(e, st.book, st.equity, ordered[|ordered| - 1]);
  }
}
