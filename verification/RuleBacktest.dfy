/** The same-bar rule loop of `BacktestEngine.run` and the metrics it reports. */
module RuleBacktest {
  import opened Prelude
  import opened Market

  datatype Kind = CloseAboveSma | CloseBelowSma | VolumeAboveSma | RsiBelow | RsiAbove | OtherKind

  datatype Condition = Condition(kind: Kind, window: int, threshold: real)

  /** `snapshot` hashes the bars a decision has seen. */
  datatype Strategy = Strategy(entry: seq<Condition>, exit: seq<Condition>, risk: Risk, snapshot: seq<Bar> -> string)

  function Closes(bars: seq<Bar>): (closes: seq<real>)
    ensures |closes| == |bars|
  {
    seq(|bars|, i requires 0 <= i < |bars| => bars[i].close)
  }

  function Volumes(bars: seq<Bar>): (volumes: seq<real>)
    ensures |volumes| == |bars|
  {
    seq(|bars|, i requires 0 <= i < |bars| => bars[i].volume)
  }

  function ConditionMet(c: Condition, closes: seq<real>, volumes: seq<real>, index: nat): Result<bool, Error>
    requires index < |closes| && index < |volumes|
  {
    match c.kind
    case CloseAboveSma =>
      var average :- Sma(closes, c.window, index);
      Ok(average.Some? && closes[index] > average.value)
    case CloseBelowSma =>
      var average :- Sma(closes, c.window, index);
      Ok(average.Some? && closes[index] < average.value)
    case VolumeAboveSma =>
      var average :- Sma(volumes, c.window, index);
      Ok(average.Some? && volumes[index] > average.value)
    case RsiBelow =>
      var value :- Rsi(closes, c.window, index);
      Ok(value.Some? && value.value < c.threshold)
    case RsiAbove =>
      var value :- Rsi(closes, c.window, index);
      Ok(value.Some? && value.value > c.threshold)
    case OtherKind => Err(UnsupportedCondition)
  }

  /** `all(...)`: stops at the first condition that is not met or raises. */
  function AllMet(cs: seq<Condition>, closes: seq<real>, volumes: seq<real>, index: nat): Result<bool, Error>
    requires index < |closes| && index < |volumes|
  {
    if cs == [] then Ok(true)
    else
      var met :- ConditionMet(cs[0], closes, volumes, index);
      if met then AllMet(cs[1..], closes, volumes, index) else Ok(false)
  }

  function ConditionsMet(cs: seq<Condition>, closes: seq<real>, volumes: seq<real>, index: nat): Result<bool, Error>
    requires index < |closes| && index < |volumes|
  {
    if cs == [] then Ok(false) else AllMet(cs, closes, volumes, index)
  }

  function ExitReason(s: Strategy, entryPrice: real, close: real, closes: seq<real>, volumes: seq<real>, index: nat)
    : Result<Option<string>, Error>
    requires index < |closes| && index < |volumes|
  {
    if s.risk.stopLossPct.Some? && close <= entryPrice * (1.0 - s.risk.stopLossPct.value) then Ok(Some("stop_loss"))
    else if s.risk.takeProfitPct.Some? && close >= entryPrice * (1.0 + s.risk.takeProfitPct.value)
      then Ok(Some("take_profit"))
    else
      var met :- ConditionsMet(s.exit, closes, volumes, index);
      Ok(if met then Some("exit_conditions") else None)
  }

  /** What the rules propose at a bar, given the position. */
  function Proposal(s: Strategy, b: Book, closes: seq<real>, volumes: seq<real>, index: nat): Result<(Action, string), Error>
    requires index < |closes| && index < |volumes|
  {
    if b.quantity <= 0.0 then
      var met :- ConditionsMet(s.entry, closes, volumes, index);
      Ok(if met then (Buy, "entry_conditions") else (Hold, "conditions_not_met"))
    else
      var reason :- ExitReason(s, b.entryPrice, closes[index], closes, volumes, index);
      Ok(if reason.Some? then (Sell, reason.value) else (Hold, "conditions_not_met"))
  }

  function Budget(s: Strategy, b: Book): real {
    b.cash * MaxReal(0.0, MinReal(s.risk.positionPct, 1.0))
  }

  /** `budget / price`, or nothing at a zero price. */
  function Affordable(budget: real, price: real): real {
    if price != 0.0 then budget / price else 0.0
  }

  /** Executes a signal at the bar it was given on. */
  function Execute(e: Engine, s: Strategy, b: Book, bar: Bar, action: Action, reason: string, evidence: string): Book {
    if action == Buy then
      var budget := Budget(s, b);
      var price := BuyPrice(e, bar.close);
      var quantity := Affordable(budget, price);
      var fee := FeeOn(e, budget);
      if quantity > 0.0 && budget + fee <= b.cash
      then Book(b.cash - (budget + fee), quantity, price,
                b.trades + [Trade(Buy, bar.time, price, quantity, fee, reason, Some(evidence))])
      else b
    else if action == Sell then
      Sold(e, b, bar.time, SellPrice(e, bar.close), reason, Some(evidence))
    else b
  }

  datatype RuleState = RuleState(book: Book, equity: seq<EquityPoint>)

  function InitialState(e: Engine): RuleState {
    RuleState(Book(e.initialCash, 0.0, 0.0, []), [])
  }

  function RuleStep(e: Engine, s: Strategy, bars: seq<Bar>, index: nat, st: RuleState): Result<RuleState, Error>
    requires index < |bars|
  {
    var bar := bars[index];
    var (proposed, reason) :- Proposal(s, st.book, Closes(bars), Volumes(bars), index);
    var action :- StandardAction(proposed, st.book.quantity);
    var book := Execute(e, s, st.book, bar, action, reason, s.snapshot(bars[..index + 1]));
    Ok(RuleState(book, st.equity + [EquityPoint(bar.time, Marked(book, bar.close))]))
  }

  /** The loop's state after the first `k` bars. */
  function RuleLoop(e: Engine, s: Strategy, bars: seq<Bar>, start: nat, k: nat): Result<RuleState, Error>
    requires k <= |bars|
  {
    if k == 0 then Ok(InitialState(e))
    else
      var before :- RuleLoop(e, s, bars, start, k - 1);
      if k - 1 < start then Ok(before) else RuleStep(e, s, bars, k - 1, before)
  }

  function RuleReport(e: Engine, s: Strategy, ordered: seq<Bar>, start: nat): Result<Report, Error>
    requires ordered != []
  {
    var st :- RuleLoop(e, s, ordered, start, |ordered|);
    var (book, equity) := Liquidated(e, st.book, st.equity, ordered[|ordered| - 1]);
    Ok(Report(book.trades, equity))
  }

  function RunRules(e: Engine, s: Strategy, bars: seq<Bar>, start: int): Result<Report, Error> {
    var ordered := SortBars(bars);
    if ordered == [] then Err(NoBars)
    else if !(0 <= start < |ordered|) then Err(InvalidStart)
    else RuleReport(e, s, ordered, start)
  }

  // ---------------------------------------------------------------- no look-ahead

  lemma ConditionLocal(c: Condition, x: seq<real>, y: seq<real>, vx: seq<real>, vy: seq<real>, index: nat)
    requires index < |x| && index < |y| && index < |vx| && index < |vy|
    requires x[..index + 1] == y[..index + 1] && vx[..index + 1] == vy[..index + 1]
    ensures ConditionMet(c, x, vx, index) == ConditionMet(c, y, vy, index)
  {
    IndicatorsLocal(x, y, c.window, index);
    IndicatorsLocal(vx, vy, c.window, index);
  }

  lemma {:induction false} ConditionsLocal(cs: seq<Condition>, x: seq<real>, y: seq<real>, vx: seq<real>, vy: seq<real>, index: nat)
    requires index < |x| && index < |y| && index < |vx| && index < |vy|
    requires x[..index + 1] == y[..index + 1] && vx[..index + 1] == vy[..index + 1]
    ensures AllMet(cs, x, vx, index) == AllMet(cs, y, vy, index)
  {
    if cs != [] {
      ConditionLocal(cs[0], x, y, vx, vy, index);
      ConditionsLocal(cs[1..], x, y, vx, vy, index);
    }
  }

  lemma SeriesLocal(x: seq<Bar>, y: seq<Bar>, index: nat)
    requires index < |x| && index < |y| && x[..index + 1] == y[..index + 1]
    ensures x[index] == y[index]
    ensures Closes(x)[..index + 1] == Closes(y)[..index + 1] && Volumes(x)[..index + 1] == Volumes(y)[..index + 1]
  {
  }

  lemma ProposalLocal(s: Strategy, b: Book, x: seq<Bar>, y: seq<Bar>, index: nat)
    requires index < |x| && index < |y| && x[..index + 1] == y[..index + 1]
    ensures Proposal(s, b, Closes(x), Volumes(x), index) == Proposal(s, b, Closes(y), Volumes(y), index)
  {
    SeriesLocal(x, y, index);
    ConditionsLocal(s.entry, Closes(x), Closes(y), Volumes(x), Volumes(y), index);
    ConditionsLocal(s.exit, Closes(x), Closes(y), Volumes(x), Volumes(y), index);
  }

  lemma StepLocal(e: Engine, s: Strategy, x: seq<Bar>, y: seq<Bar>, index: nat, st: RuleState)
    requires index < |x| && index < |y| && x[..index + 1] == y[..index + 1]
    ensures RuleStep(e, s, x, index, st) == RuleStep(e, s, y, index, st)
  {
    SeriesLocal(x, y, index);
    ProposalLocal(s, st.book, x, y, index);
    hide Proposal, Execute, Closes, Volumes, Marked;
  }

  lemma {:induction false} LoopLocal(e: Engine, s: Strategy, x: seq<Bar>, y: seq<Bar>, start: nat, k: nat)
    requires k <= |x| && k <= |y| && x[..k] == y[..k]
    ensures RuleLoop(e, s, x, start, k) == RuleLoop(e, s, y, start, k)
  {
    if k > 0 {
      assert x[..k][..k - 1] == x[..k - 1] && y[..k][..k - 1] == y[..k - 1];
      LoopLocal(e, s, x, y, start, k - 1);
      var before := RuleLoop(e, s, x, start, k - 1);
      if before.Ok? {
        StepLocal(e, s, x, y, k - 1, before.value);
      }
    }
  }

  /** The loop only ever appends trades and equity points, one point for each evaluated bar. */
  lemma {:induction false} LoopGrows(e: Engine, s: Strategy, bars: seq<Bar>, start: nat, k: nat, n: nat)
    requires k <= n <= |bars| && RuleLoop(e, s, bars, start, n).Ok?
    ensures RuleLoop(e, s, bars, start, k).Ok?
    ensures RuleLoop(e, s, bars, start, k).value.book.trades <= RuleLoop(e, s, bars, start, n).value.book.trades
    ensures RuleLoop(e, s, bars, start, k).value.equity <= RuleLoop(e, s, bars, start, n).value.equity
    ensures |RuleLoop(e, s, bars, start, n).value.equity| == if n <= start then 0 else n - start
    ensures forall t :: t in RuleLoop(e, s, bars, start, n).value.book.trades ==> t.evidence.Some?
    decreases n
  {
    if n > 0 {
      LoopGrows(e, s, bars, start, if k < n then k else n - 1, n - 1);
    }
  }

  /** What is traded after the first `k` bars is dated with a later one. */
  lemma {:induction false} LoopDates(e: Engine, s: Strategy, bars: seq<Bar>, start: nat, k: nat, n: nat)
    requires k <= n <= |bars| && RuleLoop(e, s, bars, start, n).Ok? && RuleLoop(e, s, bars, start, k).Ok?
    requires RuleLoop(e, s, bars, start, k).value.book.trades <= RuleLoop(e, s, bars, start, n).value.book.trades
    ensures AllDated(RuleLoop(e, s, bars, start, n).value.book.trades[|RuleLoop(e, s, bars, start, k).value.book.trades|..], bars[k..n])
    decreases n
  {
    if k < n {
      LoopGrows(e, s, bars, start, k, n - 1);
      LoopDates(e, s, bars, start, k, n - 1);
      var early, before := RuleLoop(e, s, bars, start, k).value.book.trades, RuleLoop(e, s, bars, start, n - 1).value.book.trades;
      var after := RuleLoop(e, s, bars, start, n).value.book.trades;
      assert after == before || (|after| == |before| + 1 && before <= after && after[|before|].time == bars[n - 1].time);
      hide RuleLoop;
      DatesGrow(early, before, after, bars, k, n);
    }
  }

  lemma ReportSeesNoFurther(e: Engine, s: Strategy, ordered: seq<Bar>, start: nat, k: nat)
    requires start < k <= |ordered| && RuleReport(e, s, ordered, start).Ok?
    ensures RuleReport(e, s, ordered[..k], start).Ok?
    ensures SeesNoFurther(RuleReport(e, s, ordered[..k], start).value, RuleReport(e, s, ordered, start).value, ordered, k, k - start - 1)
  {
    var n := |ordered|;
    hide RuleLoop, Liquidated, SeesNoFurther, AllDated;
    LoopLocal(e, s, ordered, ordered[..k], start, k);
    LoopGrows(e, s, ordered, start, k, n);
    LoopGrows(e, s, ordered, start, k, k);
    LoopGrows(e, s, ordered, start, 0, k);
    LoopDates(e, s, ordered, start, k, n);
    FirstDates(e, s, ordered, start, k);
    assert ordered[k..n] == ordered[k..];
    var part, whole := RuleLoop(e, s, ordered, start, k).value, RuleLoop(e, s, ordered, start, n).value;
    LiquidationSeesNoFurther(e, part.book, part.equity, whole.book, whole.equity, ordered, k);
  }

  lemma FirstDates(e: Engine, s: Strategy, bars: seq<Bar>, start: nat, k: nat)
    requires k <= |bars| && RuleLoop(e, s, bars, start, k).Ok?
    ensures AllDated(RuleLoop(e, s, bars, start, k).value.book.trades, bars[..k])
  {
    LoopGrows(e, s, bars, start, 0, k);
    LoopDates(e, s, bars, start, 0, k);
    var trades := RuleLoop(e, s, bars, start, k).value.book.trades;
    assert trades[0..] == trades && bars[0..k] == bars[..k];
    hide AllDated;
  }

  lemma ReportCuts(e: Engine, s: Strategy, ordered: seq<Bar>, start: nat, k: nat)
    requires start < k <= |ordered| && RuleReport(e, s, ordered, start).Ok? && InOrder(ordered)
    requires RuleReport(e, s, ordered[..k], start).Ok?
    ensures k == |ordered| || ordered[k - 1].time < ordered[k].time ==>
              CutAt(RuleReport(e, s, ordered[..k], start).value, RuleReport(e, s, ordered, start).value, ordered[k - 1].time)
  {
    hide RuleReport, SeesNoFurther, CutAt, InOrder;
    if k == |ordered| || ordered[k - 1].time < ordered[k].time {
      ReportSeesNoFurther(e, s, ordered, start, k);
      SeesNoFurtherCuts(RuleReport(e, s, ordered[..k], start).value, RuleReport(e, s, ordered, start).value, ordered, k, k - start - 1);
    }
  }

  /**
   No look-ahead: on the first `k` bars the run makes exactly the decisions it dates with those bars on all bars, and
   marks the same equity, apart from the liquidation that ends each run.
   */
  lemma NoLookAhead(e: Engine, s: Strategy, bars: seq<Bar>, start: int, k: nat)
    requires RunRules(e, s, bars, start).Ok? && start < k <= |bars|
    ensures |SortBars(bars)| == |bars|
    ensures var ordered := SortBars(bars);
            var early, full := RunRules(e, s, ordered[..k], start), RunRules(e, s, bars, start).value;
            && early.Ok?
            && SeesNoFurther(early.value, full, ordered, k, k - start - 1)
            && (k == |bars| || ordered[k - 1].time < ordered[k].time ==> CutAt(early.value, full, ordered[k - 1].time))
  {
    hide SortBars, RuleReport, SeesNoFurther, CutAt, InOrder;
    SortBarsSorts(bars);
    SortedPrefixIsFixed(bars, k);
    ReportSeesNoFurther(e, s, SortBars(bars), start, k);
    ReportCuts(e, s, SortBars(bars), start, k);
  }

  // ---------------------------------------------------------------- conservation

  /** A buy at the rules' sizing is a purchase for the budget. */
  lemma ExecuteBuys(e: Engine, s: Strategy, b: Book, bar: Bar, reason: string, evidence: string)
    ensures var budget, price := Budget(s, b), BuyPrice(e, bar.close);
            var quantity := Affordable(budget, price);
            Execute(e, s, b, bar, Buy, reason, evidence) ==
              if quantity > 0.0 && budget + FeeOn(e, budget) <= b.cash
              then Bought(b, bar.time, price, quantity, FeeOn(e, budget), reason, evidence)
              else b
  {
  }

  lemma ExecuteBalanced(e: Engine, s: Strategy, b: Book, bar: Bar, proposed: Action, action: Action, reason: string, evidence: string)
    requires Balanced(e.initialCash, b) && StandardAction(proposed, b.quantity) == Ok(action)
    ensures Balanced(e.initialCash, Execute(e, s, b, bar, action, reason, evidence))
  {
    BalancedQuantity(e.initialCash, b);
    hide Balanced, Budget, BuyPrice, SellPrice, Bought, Sold, Affordable, FeeOn;
    if action == Buy {
      var budget, price := Budget(s, b), BuyPrice(e, bar.close);
      ExecuteBuys(e, s, b, bar, reason, evidence);
      if Affordable(budget, price) > 0.0 {
        BoughtBalanced(e.initialCash, b, bar.time, price, Affordable(budget, price), FeeOn(e, budget), reason, evidence);
      }
    } else if action == Sell {
      SoldBalanced(e.initialCash, e, b, bar.time, SellPrice(e, bar.close), reason, Some(evidence));
    }
  }

  lemma ExecuteKeepsCash(e: Engine, s: Strategy, b: Book, bar: Bar, action: Action, reason: string, evidence: string)
    requires RatesOk(e) && 0.0 <= bar.close && b.cash >= 0.0 && b.quantity >= 0.0
    ensures Execute(e, s, b, bar, action, reason, evidence).cash >= 0.0
  {
    hide SellPrice, Sold, BuyPrice, Budget, FeeOn, Affordable;
    if action == Sell {
      SellPriceOk(e, bar.close);
      SoldKeepsCash(e, b, bar.time, SellPrice(e, bar.close), reason, Some(evidence));
    }
  }

  lemma StepBalanced(e: Engine, s: Strategy, bars: seq<Bar>, index: nat, st: RuleState)
    requires index < |bars| && Balanced(e.initialCash, st.book) && RuleStep(e, s, bars, index, st).Ok?
    ensures var after := RuleStep(e, s, bars, index, st).value;
            && Balanced(e.initialCash, after.book)
            && |after.equity| == |st.equity| + 1
            && after.equity[|st.equity|].equity == Marked(after.book, bars[index].close)
            && (RatesOk(e) && 0.0 <= bars[index].close && st.book.cash >= 0.0 ==> after.book.cash >= 0.0)
  {
    hide Balanced, Execute, Proposal, Closes, Volumes;
    var b, bar := st.book, bars[index];
    var (proposed, reason) := Proposal(s, b, Closes(bars), Volumes(bars), index).value;
    var action := StandardAction(proposed, b.quantity).value;
    var evidence := s.snapshot(bars[..index + 1]);
    ExecuteBalanced(e, s, b, bar, proposed, action, reason, evidence);
    if RatesOk(e) && 0.0 <= bar.close && b.cash >= 0.0 {
      ExecuteKeepsCash(e, s, b, bar, action, reason, evidence);
    }
  }

  /** Throughout the loop the book balances, and the last equity point marks it to the last bar. */
  lemma {:induction false} LoopBalanced(e: Engine, s: Strategy, bars: seq<Bar>, start: nat, k: nat)
    requires k <= |bars| && RuleLoop(e, s, bars, start, k).Ok?
    ensures var st := RuleLoop(e, s, bars, start, k).value;
            && Balanced(e.initialCash, st.book)
            && (st.equity == [] <==> k <= start)
            && (k <= start ==> st == InitialState(e))
    ensures var st := RuleLoop(e, s, bars, start, k).value;
            k > start ==> st.equity[|st.equity| - 1].equity == Marked(st.book, bars[k - 1].close)
    ensures RatesOk(e) && PricesOk(bars) ==> RuleLoop(e, s, bars, start, k).value.book.cash >= 0.0
  {
    FreshBalanced(e);
    hide Balanced, RuleStep;
    if k > 0 {
      LoopBalanced(e, s, bars, start, k - 1);
      if k - 1 >= start {
        StepBalanced(e, s, bars, k - 1, RuleLoop(e, s, bars, start, k - 1).value);
      }
    }
  }

  /** The standard signal never overrules the rules: they only propose what the position allows. */
  lemma SignalIsProposal(e: Engine, s: Strategy, bars: seq<Bar>, start: nat, k: nat)
    requires k < |bars| && RuleLoop(e, s, bars, start, k).Ok?
    ensures var b := RuleLoop(e, s, bars, start, k).value.book;
            var p := Proposal(s, b, Closes(bars), Volumes(bars), k);
            p.Ok? ==> StandardAction(p.value.0, b.quantity) == Ok(p.value.0)
  {
    LoopBalanced(e, s, bars, start, k);
    BalancedQuantity(e.initialCash, RuleLoop(e, s, bars, start, k).value.book);
    hide Balanced, RuleLoop, ConditionsMet, ExitReason;
  }

  /** Conservation over a whole run, for every list of bars, strategy and rate. */
  lemma RulesConserve(e: Engine, s: Strategy, bars: seq<Bar>, start: int)
    requires RunRules(e, s, bars, start).Ok?
    ensures Conserved(e, RunRules(e, s, bars, start).value)
  {
    var ordered := SortBars(bars);
    var n := |ordered|;
    hide Balanced, Conserved, RuleLoop, Liquidated;
    LoopBalanced(e, s, ordered, start, n);
    var st := RuleLoop(e, s, ordered, start, n).value;
    LiquidatedConserved(e, st.book, st.equity, ordered[n - 1]);
  }

  lemma LoopNeverOverdraws(e: Engine, s: Strategy, ordered: seq<Bar>, start: nat, k: nat)
    requires RatesOk(e) && PricesOk(ordered) && start < |ordered| && k <= |ordered|
    requires RuleReport(e, s, ordered, start).Ok?
    ensures RuleLoop(e, s, ordered, start, k).Ok? && RuleLoop(e, s, ordered, start, k).value.book.cash >= 0.0
    ensures var equity := RuleReport(e, s, ordered, start).value.equity; equity != [] && equity[|equity| - 1].equity >= 0.0
  {
    var n := |ordered|;
    hide Balanced, RuleLoop, Liquidated;
    LoopGrows(e, s, ordered, start, k, n);
    LoopBalanced(e, s, ordered, start, k);
    LoopBalanced(e, s, ordered, start, n);
    var st := RuleLoop(e, s, ordered, start, n).value;
    LiquidatedCash(e, st.book, st.equity, ordered[n - 1]);
  }

  /** With rates in [0, 1] and no negative price, cash is never negative at any bar and neither is the final equity. */
  lemma RulesNeverOverdraw(e: Engine, s: Strategy, bars: seq<Bar>, start: int, k: nat)
    requires RatesOk(e) && PricesOk(bars) && RunRules(e, s, bars, start).Ok? && k <= |SortBars(bars)|
    ensures RuleLoop(e, s, SortBars(bars), start, k).Ok?
    ensures RuleLoop(e, s, SortBars(bars), start, k).value.book.cash >= 0.0
    ensures var equity := RunRules(e, s, bars, start).value.equity; equity != [] && equity[|equity| - 1].equity >= 0.0
  {
    SortedPricesOk(bars);
    LoopNeverOverdraws(e, s, SortBars(bars), start, k);
  }
}
