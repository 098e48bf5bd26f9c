/** `BacktestEngine` as the loops it is written as, each computing exactly what its specification says. */
module BacktestEngine {
  import opened Prelude
  import opened Market
  import Rules = RuleBacktest
  import Policies = PolicyBacktest

  datatype Metrics = Metrics(
    totalReturnPct: real,
    maxDrawdownPct: real,
    winRatePct: real,
    profitFactor: real,
    tradeCount: nat,
    roundTripCount: nat)

  /** The walk over the trades that pairs each sell with the buy before it. */
  method TallyTrades(trades: seq<Trade>) returns (wins: nat, losses: nat, profit: real, loss: real)
    ensures var t := TallyOf(trades); wins == t.wins && losses == t.losses && profit == t.profit && loss == t.loss
  {
    wins, losses, profit, loss := 0, 0, 0.0, 0.0;
    var entry: Option<Trade> := None;
    for i := 0 to |trades|
      invariant Tally(wins, losses, profit, loss, entry) == TallyOf(trades[..i])
    {
      var trade := trades[i];
      assert trades[..i + 1][..i] == trades[..i];
      if trade.side == Buy {
        entry := Some(trade);
      } else if trade.side == Sell && entry.Some? {
        var pnl := Worth(trade.quantity, trade.price - entry.value.price) - entry.value.fee - trade.fee;
        if pnl >= 0.0 {
          wins, profit := wins + 1, profit + pnl;
        } else {
          losses, loss := losses + 1, loss - pnl;
        }
        entry := None;
      }
    }
    assert trades[..|trades|] == trades;
  }

  /** The highest equity up to a point. */
  function Peak(equity: seq<real>, j: nat): real
    requires j < |equity|
  {
    if j == 0 then equity[0] else MaxReal(Peak(equity, j - 1), equity[j])
  }

  /** The share of a peak that is lost. */
  function Lost(peak: real, value: real): real {
    if peak == 0.0 then 0.0 else (peak - value) / peak
  }

  function Fall(equity: seq<real>, j: nat): real
    requires j < |equity|
  {
    Lost(Peak(equity, j), equity[j])
  }

  /** The largest of the falls, or zero. */
  ghost predicate IsDrawdown(equity: seq<real>, d: real) {
    && d >= 0.0
    && (forall j :: 0 <= j < |equity| ==> Fall(equity, j) <= d)
    && (d == 0.0 || exists j :: 0 <= j < |equity| && Fall(equity, j) == d)
  }

  /** `max_drawdown_pct`, as a share and unrounded. */
  method MaxDrawdown(equity: seq<real>) returns (d: real)
    ensures IsDrawdown(equity, d)
  {
    d := 0.0;
    if equity == [] {
      return;
    }
    var peak := equity[0];
    ghost var deepest := 0;
    for i := 0 to |equity|
      invariant d >= 0.0 && peak == Peak(equity, if i == 0 then 0 else i - 1)
      invariant forall j :: 0 <= j < i ==> Fall(equity, j) <= d
      invariant d == 0.0 || (0 <= deepest < i && Fall(equity, deepest) == d)
    {
      peak := MaxReal(peak, equity[i]);
      assert Fall(equity, i) == Lost(peak, equity[i]);
      if peak != 0.0 {
        if (peak - equity[i]) / peak > d {
          deepest := i;
        }
        d := MaxReal(d, (peak - equity[i]) / peak);
      }
    }
  }

  lemma {:induction false} PeakIsHighest(equity: seq<real>, j: nat) returns (top: nat)
    requires j < |equity|
    ensures top <= j && Peak(equity, j) == equity[top]
    ensures forall i :: 0 <= i <= j ==> equity[i] <= Peak(equity, j)
  {
    if j == 0 {
      top := 0;
    } else {
      top := PeakIsHighest(equity, j - 1);
      if equity[j] > Peak(equity, j - 1) {
        top := j;
      }
    }
  }

  lemma Share(part: real, whole: real, d: real)
    requires whole > 0.0
    ensures part / whole <= d <==> part <= d * whole
    ensures part / whole == d <==> part == d * whole
  {
    var share := part / whole;
    assert share * whole == part;
    if share < d {
      assert (d - share) * whole > 0.0;
    } else if share > d {
      assert (share - d) * whole > 0.0;
    }
  }

  lemma SmallerStart(d: real, start: real, peak: real, end: real)
    requires 0.0 <= start <= peak && 0.0 <= d <= 1.0 && peak - end <= d * peak
    ensures start - end <= d * start
  {
    assert (1.0 - d) * (peak - start) >= 0.0;
  }

  lemma FallIsShare(equity: seq<real>, j: nat, d: real)
    requires j < |equity| && forall i :: 0 <= i < |equity| ==> equity[i] >= 0.0
    ensures Fall(equity, j) <= 1.0
    ensures Fall(equity, j) <= d ==> Peak(equity, j) - equity[j] <= d * Peak(equity, j)
    ensures Fall(equity, j) == d > 0.0 ==> Peak(equity, j) > 0.0 && Peak(equity, j) - equity[j] == d * Peak(equity, j)
  {
    var top := PeakIsHighest(equity, j);
    hide Peak;
    if Peak(equity, j) > 0.0 {
      Share(Peak(equity, j) - equity[j], Peak(equity, j), d);
      Share(Peak(equity, j) - equity[j], Peak(equity, j), 1.0);
    }
  }

  /**
   While the equity is not negative, the maximum drawdown is the largest share of any earlier equity ever lost: no
   later point is further below an earlier one, and some pair of points is that far apart.
   */
  lemma DrawdownIsLargestFall(equity: seq<real>, d: real)
    requires IsDrawdown(equity, d) && forall i :: 0 <= i < |equity| ==> equity[i] >= 0.0
    ensures d <= 1.0
    ensures forall i, j :: 0 <= i <= j < |equity| ==> equity[i] - equity[j] <= d * equity[i]
    ensures d > 0.0 ==> exists i, j :: 0 <= i <= j < |equity| && equity[i] > 0.0 && equity[i] - equity[j] == d * equity[i]
  {
    hide Fall, Peak;
    if d > 0.0 {
      var j :| 0 <= j < |equity| && Fall(equity, j) == d;
      FallIsShare(equity, j, d);
      var i := PeakIsHighest(equity, j);
      assert equity[i] > 0.0 && equity[i] - equity[j] == d * equity[i];
    }
    forall i, j | 0 <= i <= j < |equity| ensures equity[i] - equity[j] <= d * equity[i] {
      FallIsShare(equity, j, d);
      var top := PeakIsHighest(equity, j);
      SmallerStart(d, equity[i], equity[top], equity[j]);
    }
  }

  function Values(equity: seq<EquityPoint>): seq<real> {
    seq(|equity|, i requires 0 <= i < |equity| => equity[i].equity)
  }

  /** The metrics of these trades and equity values: what each of them is a share of. */
  ghost predicate Measures(e: Engine, trades: seq<Trade>, equity: seq<real>, m: Metrics) {
    var t := TallyOf(trades);
    var ending := if equity == [] then e.initialCash else equity[|equity| - 1];
    && m.totalReturnPct * e.initialCash == (ending - e.initialCash) * 100.0
    && IsDrawdown(equity, m.maxDrawdownPct / 100.0)
    && m.tradeCount == |trades|
    && m.roundTripCount == t.wins + t.losses
    && m.winRatePct * (t.wins + t.losses) as real == t.wins as real * 100.0
    && (t.loss != 0.0 ==> m.profitFactor * t.loss == t.profit)
    && (t.loss == 0.0 ==> m.profitFactor == t.profit)
  }

  /** `_metrics`, unrounded, without the annualised return. */
  method ComputeMetrics(e: Engine, trades: seq<Trade>, equity: seq<real>) returns (result: Result<Metrics, Error>)
    ensures e.initialCash == 0.0 <==> result == Err(ZeroDivision)
    ensures e.initialCash != 0.0 ==> result.Ok? && Measures(e, trades, equity, result.value)
  {
    hide TallyOf;
    if e.initialCash == 0.0 {
      return Err(ZeroDivision);
    }
    var ending := if equity == [] then e.initialCash else equity[|equity| - 1];
    var totalReturn := (ending / e.initialCash - 1.0) * 100.0;
    var wins, losses, profit, loss := TallyTrades(trades);
    var closed := wins + losses;
    var winRate := if closed != 0 then wins as real / closed as real * 100.0 else 0.0;
    var factor := if loss != 0.0 then profit / loss else profit;
    var drawdown := MaxDrawdown(equity);
    ReturnShare(ending, e.initialCash);
    hide IsDrawdown;
    return Ok(Metrics(totalReturn, drawdown * 100.0, winRate, factor, |trades|, closed));
  }

  lemma ReturnShare(ending: real, initial: real)
    requires initial != 0.0
    ensures (ending / initial - 1.0) * 100.0 * initial == (ending - initial) * 100.0
  {
  }

  /** For a run that conserves money the reported return is its profit less its loss, and trades pair up. */
  lemma MetricsAgree(e: Engine, r: Report, m: Metrics)
    requires Conserved(e, r) && e.initialCash != 0.0 && Measures(e, r.trades, Values(r.equity), m)
    ensures m.totalReturnPct * e.initialCash == (TallyOf(r.trades).profit - TallyOf(r.trades).loss) * 100.0
    ensures m.tradeCount == 2 * m.roundTripCount
  {
  }

  /** A run's result: its report and the metrics of that report, which need cash to start with. */
  ghost predicate Reported(e: Engine, report: Result<Report, Error>, result: Result<(Report, Metrics), Error>) {
    if report.Err? then result == Err(report.error)
    else if e.initialCash == 0.0 then result == Err(ZeroDivision)
    else
      && result.Ok? && result.value.0 == report.value
      && Measures(e, report.value.trades, Values(report.value.equity), result.value.1)
  }

  method WithMetrics(e: Engine, report: Report) returns (result: Result<(Report, Metrics), Error>)
    ensures Reported(e, Ok(report), result)
  {
    hide Measures;
    var metrics :- ComputeMetrics(e, report.trades, Values(report.equity));
    result := Ok((report, metrics));
  }

  // ---------------------------------------------------------------- the rule loop

  lemma {:induction false} RuleErrorStays(e: Engine, s: Rules.Strategy, bars: seq<Bar>, start: nat, k: nat, n: nat)
    requires k <= n <= |bars| && Rules.RuleLoop(e, s, bars, start, k).Err?
    ensures Rules.RuleLoop(e, s, bars, start, n) == Rules.RuleLoop(e, s, bars, start, k)
    decreases n
  {
    hide Rules.RuleStep;
    if k < n {
      RuleErrorStays(e, s, bars, start, k, n - 1);
    }
  }

  /** What the rules propose on a bar. */
  method Propose(s: Rules.Strategy, b: Book, closes: seq<real>, volumes: seq<real>, index: nat)
    returns (result: Result<(Action, string), Error>)
    requires index < |closes| && index < |volumes|
    ensures result == Rules.Proposal(s, b, closes, volumes, index)
  {
    hide Rules.ConditionsMet, Rules.ExitReason;
    var action, reason := Hold, "conditions_not_met";
    if b.quantity <= 0.0 {
      var met := Rules.ConditionsMet(s.entry, closes, volumes, index);
      if met.Err? {
        return Err(met.error);
      }
      if met.value {
        action, reason := Buy, "entry_conditions";
      }
    } else {
      var exit := Rules.ExitReason(s, b.entryPrice, closes[index], closes, volumes, index);
      if exit.Err? {
        return Err(exit.error);
      }
      if exit.value.Some? {
        action, reason := Sell, exit.value.value;
      }
    }
    return Ok((action, reason));
  }

  /** Buys for the budget or sells the whole position, at the bar's close. */
  method ExecuteSignal(e: Engine, s: Rules.Strategy, b: Book, bar: Bar, action: Action, reason: string, evidence: string)
    returns (after: Book)
    ensures after == Rules.Execute(e, s, b, bar, action, reason, evidence)
  {
    hide Worth, FeeOn, BuyPrice, SellPrice, Rules.Affordable, Rules.Budget;
    var cash, quantity, entryPrice, trades := b.cash, b.quantity, b.entryPrice, b.trades;
    if action == Buy {
      var budget := Rules.Budget(s, b);
      var price := BuyPrice(e, bar.close);
      var bought := Rules.Affordable(budget, price);
      var fee := FeeOn(e, budget);
      if bought > 0.0 && budget + fee <= cash {
        cash := cash - (budget + fee);
        quantity, entryPrice := bought, price;
        trades := trades + [Trade(Buy, bar.time, price, bought, fee, reason, Some(evidence))];
      }
    } else if action == Sell {
      var price := SellPrice(e, bar.close);
      var gross := Worth(quantity, price);
      var fee := FeeOn(e, gross);
      cash := cash + (gross - fee);
      trades := trades + [Trade(Sell, bar.time, price, quantity, fee, reason, Some(evidence))];
      quantity, entryPrice := 0.0, 0.0;
    }
    return Book(cash, quantity, entryPrice, trades);
  }

  /** `run`, for a strategy without a policy. */
  method Run(e: Engine, s: Rules.Strategy, bars: seq<Bar>, start: int) returns (result: Result<(Report, Metrics), Error>)
    ensures Reported(e, Rules.RunRules(e, s, bars, start), result)
  {
    var ordered := SortBars(bars);
    if ordered == [] {
      return Err(NoBars);
    }
    if !(0 <= start < |ordered|) {
      return Err(InvalidStart);
    }
    result := RunOrdered(e, s, ordered, start);
  }

  /** The loop of `run`, over sorted bars. */
  method RunOrdered(e: Engine, s: Rules.Strategy, ordered: seq<Bar>, start: nat) returns (result: Result<(Report, Metrics), Error>)
    requires start < |ordered|
    ensures Reported(e, Rules.RuleReport(e, s, ordered, start), result)
  {
    hide Measures, Rules.Proposal, Rules.Execute, Rules.Closes, Rules.Volumes, Marked;
    var closes, volumes := Rules.Closes(ordered), Rules.Volumes(ordered);
    var book := Book(e.initialCash, 0.0, 0.0, []);
    var equity: seq<EquityPoint> := [];
    for index := 0 to |ordered|
      invariant Rules.RuleLoop(e, s, ordered, start, index) == Ok(Rules.RuleState(book, equity))
    {
      if index < start {
        continue;
      }
      var bar := ordered[index];
      var proposal := Propose(s, book, closes, volumes, index);
      if proposal.Err? {
        RuleErrorStays(e, s, ordered, start, index + 1, |ordered|);
        return Err(proposal.error);
      }
      var signal := StandardAction(proposal.value.0, book.quantity);
      if signal.Err? {
        RuleErrorStays(e, s, ordered, start, index + 1, |ordered|);
        return Err(signal.error);
      }
      book := ExecuteSignal(e, s, book, bar, signal.value, proposal.value.1, s.snapshot(ordered[..index + 1]));
      equity := equity + [EquityPoint(bar.time, Marked(book, bar.close))];
    }
    hide Rules.RuleLoop, Liquidated;
    var (closed, points) := Liquidated(e, book, equity, ordered[|ordered| - 1]);
    result := WithMetrics(e, Report(closed.trades, points));
  }

  // ---------------------------------------------------------------- the policy loop

  lemma {:induction false} PolicyErrorStays<R>(e: Engine, p: Policies.Policy<R>, bars: seq<Bar>, start: nat, k: nat, n: nat)
    requires k <= n <= |bars| && Policies.Loop(e, p, bars, start, k).Err?
    ensures Policies.Loop(e, p, bars, start, n) == Policies.Loop(e, p, bars, start, k)
    decreases n
  {
    hide Policies.Step;
    if k < n {
      PolicyErrorStays(e, p, bars, start, k, n - 1);
    }
  }

  /** Fills the waiting decision, updating the local state the way the loop does. */
  method FillPending<R>(e: Engine, p: Policies.Policy<R>, st: Policies.State<R>, bar: Bar)
    returns (result: Result<Policies.State<R>, Error>)
    ensures result == Policies.Fill(e, p, st, bar)
  {
    hide Worth, FeeOn, BuyPrice, SellPrice, Policies.SizeEntry;
    var cash, quantity, entryPrice, trades := st.book.cash, st.book.quantity, st.book.entryPrice, st.book.trades;
    var runtime, entryTimes := st.runtime, st.entryTimes;
    var pending := st.pending;
    if pending.Some? && bar.time > pending.value.at {
      var d := pending.value;
      if d.action == Buy && quantity <= 0.0 {
        var price := BuyPrice(e, bar.open);
        var sizing := Policies.SizeEntry(e, p, cash, price, Policies.AtrOrZero(d.evaluation));
        if sizing.Err? {
          return Err(sizing.error);
        }
        var size := MinReal(sizing.value, if d.maximum.Some? then d.maximum.value else sizing.value);
        if Worth(size, price) + Policies.TOLERANCE < Policies.MINIMUM_NOTIONAL {
          size := 0.0;
        }
        if size > 0.0 {
          var notional := Worth(size, price);
          var fee := FeeOn(e, notional);
          cash := cash - (notional + fee);
          quantity, entryPrice := size, price;
          var next := p.applyFill(d.evaluation, Buy, price, bar.time);
          if next.None? {
            return Err(FillFailed);
          }
          runtime := next.value;
          trades := trades + [Trade(Buy, bar.time, price, size, fee, d.evaluation.reason, Some(d.evaluation.contextHash))];
          entryTimes := entryTimes + [bar.time];
        }
      } else if d.action == Sell && quantity > 0.0 {
        var price := SellPrice(e, bar.open);
        var gross := Worth(quantity, price);
        var fee := FeeOn(e, gross);
        cash := cash + (gross - fee);
        trades := trades + [Trade(Sell, bar.time, price, quantity, fee, d.evaluation.reason, Some(d.evaluation.contextHash))];
        var next := p.applyFill(d.evaluation, Sell, price, bar.time);
        if next.None? {
          return Err(FillFailed);
        }
        runtime := next.value;
        quantity, entryPrice := 0.0, 0.0;
      }
      pending := None;
    }
    return Ok(st.(book := Book(cash, quantity, entryPrice, trades), runtime := runtime, pending := pending, entryTimes := entryTimes));
  }

  /** Marks the account, rolls the day over and trips the breakers. */
  method GuardAccount<R>(p: Policies.Policy<R>, st: Policies.State<R>, bar: Bar, evaluating: bool)
    returns (after: Policies.State<R>)
    ensures after == Policies.Guard(p, st, bar, evaluating)
  {
    hide Marked, Policies.Breached;
    var marked := Marked(st.book, bar.close);
    var day, dailyStart, dailyHalted := st.day, st.dailyStart, st.dailyHalted;
    var peak, drawdownHalted := st.peak, st.drawdownHalted;
    var barDay := bar.time / Policies.DAY;
    if day != Some(barDay) {
      day, dailyStart, dailyHalted := Some(barDay), marked, false;
    }
    if Policies.Breached(p.risk.dailyLossLimitPct, dailyStart, marked) {
      dailyHalted := true;
    }
    if evaluating {
      peak := MaxReal(peak, marked);
      if Policies.Breached(p.risk.maxDrawdownPct, peak, marked) {
        drawdownHalted := true;
      }
    }
    return st.(day := day, dailyStart := dailyStart, dailyHalted := dailyHalted, peak := peak, drawdownHalted := drawdownHalted);
  }

  /** `[value for value in times if value > cutoff]`. */
  method PruneTimes(times: seq<int>, cutoff: int) returns (recent: seq<int>)
    ensures recent == Policies.Recent(times, cutoff)
  {
    recent := [];
    for i := 0 to |times|
      invariant recent == Policies.Recent(times[..i], cutoff)
    {
      assert times[..i + 1][..i] == times[..i];
      if times[i] > cutoff {
        recent := recent + [times[i]];
      }
    }
    assert times[..|times|] == times;
  }

  method DecideOnBar<R>(e: Engine, p: Policies.Policy<R>, st: Policies.State<R>, history: seq<Bar>, bar: Bar, evaluating: bool)
    returns (result: Result<Policies.State<R>, Error>)
    ensures result == Policies.Decide(e, p, st, history, bar, evaluating)
  {
    hide Policies.SizeEntry, Policies.Recent;
    if !p.completes(history) {
      return Ok(st);
    }
    var answer := p.evaluate(history, false, st.book.quantity, st.book.entryPrice, st.runtime);
    if answer.Some? && answer.value.action != Hold {
      answer := p.evaluate(history, true, st.book.quantity, st.book.entryPrice, st.runtime);
    }
    if answer.None? {
      return Err(EvaluationFailed);
    }
    var v := answer.value;
    var recent := PruneTimes(st.entryTimes, Policies.Cutoff(bar.time));
    var after := st.(runtime := v.stateAfter, entryTimes := recent);
    var blocked := v.action == Buy
      && (st.dailyHalted || st.drawdownHalted
          || (p.risk.maxTradeGroupsPerHour.Some? && |recent| >= p.risk.maxTradeGroupsPerHour.value));
    if evaluating && v.action != Hold && !blocked {
      var signal := StandardAction(v.action, st.book.quantity);
      if signal.Err? {
        return Err(signal.error);
      }
      var maximum: Option<real> := None;
      if v.action == Buy {
        var sizing := Policies.SizeEntry(e, p, st.book.cash, bar.close, Policies.AtrOrZero(v));
        if sizing.Err? {
          return Err(sizing.error);
        }
        maximum := Some(sizing.value);
      }
      after := after.(pending := Some(Policies.Pending(v, bar.time, signal.value, maximum)));
    }
    return Ok(after);
  }

  /** `_run_policy_strategy`. */
  method RunPolicyStrategy<R>(e: Engine, p: Policies.Policy<R>, bars: seq<Bar>, start: int)
    returns (result: Result<(Report, Metrics), Error>)
    ensures Reported(e, Policies.RunPolicy(e, p, bars, start), result)
  {
    var ordered := SortBars(bars);
    if ordered == [] {
      return Err(NoBars);
    }
    if !(0 <= start < |ordered|) {
      return Err(InvalidStart);
    }
    hide Measures, SortBars, Policies.Fill, Policies.Guard, Policies.Decide, Marked;
    var st := Policies.Initial(e, p);
    for index := 0 to |ordered|
      invariant Policies.Loop(e, p, ordered, start, index) == Ok(st)
    {
      var bar := ordered[index];
      var refused := Policies.Ingest(p, ordered, index);
      if refused.Some? {
        PolicyErrorStays(e, p, ordered, start, index + 1, |ordered|);
        return Err(refused.value);
      }
      var filled := FillPending(e, p, st, bar);
      if filled.Err? {
        PolicyErrorStays(e, p, ordered, start, index + 1, |ordered|);
        return Err(filled.error);
      }
      var guarded := GuardAccount(p, filled.value, bar, index >= start);
      var decided := DecideOnBar(e, p, guarded, ordered[..index + 1], bar, index >= start);
      if decided.Err? {
        PolicyErrorStays(e, p, ordered, start, index + 1, |ordered|);
        return Err(decided.error);
      }
      st := decided.value;
      if index >= start {
        st := st.(equity := st.equity + [EquityPoint(bar.time, Marked(st.book, bar.close))]);
      }
    }
    hide Policies.Loop, Liquidated;
    var (book, equity) := Liquidated(e, st.book, st.equity, ordered[|ordered| - 1]);
    result := WithMetrics(e, Report(book.trades, equity));
  }
}
