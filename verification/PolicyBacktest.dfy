/**
 The policy loop of `BacktestEngine`: decisions wait in a one-slot queue for a later bar, entries are
 throttled, and daily-loss and drawdown breakers block further entries.
 */
module PolicyBacktest {
  import opened Prelude
  import opened Market

  /** What the strategy evaluator returns; it is dated with the bar it was asked at. */
  datatype Evaluation<R> = Evaluation(
    action: Action,
    reason: string,
    contextHash: string,
    atr: Option<real>,
    stateAfter: R)

  /**
   A policy. The market-context session is a fold over the bars ingested so far, so everything it
   yields is a function of those bars; `completes` says whether the last of them closed a decision bar.
   */
  datatype Policy<!R> = Policy(
    risk: Risk,
    atrMultiple: real,
    initialState: R,
    admits: seq<Bar> -> bool,
    completes: seq<Bar> -> bool,
    evaluate: (seq<Bar>, bool, real, real, R) -> Option<Evaluation<R>>,
    applyFill: (Evaluation<R>, Action, real, int) -> Option<R>)

  datatype Pending<R> = Pending(evaluation: Evaluation<R>, at: int, action: Action, maximum: Option<real>)

  datatype State<R> = State(
    book: Book,
    runtime: R,
    pending: Option<Pending<R>>,
    day: Option<int>,
    dailyStart: real,
    dailyHalted: bool,
    peak: real,
    drawdownHalted: bool,
    entryTimes: seq<int>,
    equity: seq<EquityPoint>)

  const MINUTE := 60
  const HOUR := 3600
  const DAY := 86400
  const QUANTITY_STEP := 0.00001
  const MINIMUM_NOTIONAL := 5.0
  const TOLERANCE := 0.000000000001

  // ---------------------------------------------------------------- sizing

  function UnitLoss<R>(e: Engine, p: Policy<R>, price: real, atr: real): real {
    p.atrMultiple * atr + price * (e.feeRate * 2.0 + e.slippageRate)
  }

  function StepDown(quantity: real): real {
    (MaxReal(0.0, quantity) / QUANTITY_STEP).Floor as real * QUANTITY_STEP
  }

  /** The price of one unit including the entry fee. */
  function UnitCost(e: Engine, price: real): real {
    price * (1.0 + e.feeRate)
  }

  /** `size_entry`, with all of the cash available as equity. */
  function SizeEntry<R>(e: Engine, p: Policy<R>, cash: real, price: real, atr: real): Result<real, Error> {
    var loss := UnitLoss(e, p, price, atr);
    if p.risk.riskBudgetPct.None? || price <= 0.0 || loss <= 0.0 then Ok(0.0)
    else if UnitCost(e, price) == 0.0 then Err(ZeroDivision)
    else
      var byRisk := MinReal(cash * p.risk.riskBudgetPct.value / loss, cash * p.risk.positionPct / price);
      var byCash := MinReal(byRisk, cash / UnitCost(e, price));
      var limit := if p.risk.maxEntryNotional.Some? then MinReal(byCash, p.risk.maxEntryNotional.value / price) else byCash;
      var quantity := StepDown(limit);
      Ok(if quantity <= 0.0 || Worth(quantity, price) + TOLERANCE < MINIMUM_NOTIONAL then 0.0 else quantity)
  }

  function AtrOrZero<R>(v: Evaluation<R>): real {
    if v.atr.Some? then v.atr.value else 0.0
  }

  // ---------------------------------------------------------------- one bar

  /** The quantity an entry is filled for: the fresh sizing, capped by the sizing at decision time. */
  function FillQuantity<R>(e: Engine, p: Policy<R>, cash: real, price: real, d: Pending<R>): Result<real, Error> {
    var sized :- SizeEntry(e, p, cash, price, AtrOrZero(d.evaluation));
    var quantity := if d.maximum.Some? then MinReal(sized, d.maximum.value) else sized;
    Ok(if Worth(quantity, price) + TOLERANCE < MINIMUM_NOTIONAL then 0.0 else quantity)
  }

  function FillEntry<R>(e: Engine, p: Policy<R>, st: State<R>, d: Pending<R>, bar: Bar): Result<State<R>, Error> {
    var price := BuyPrice(e, bar.open);
    var quantity :- FillQuantity(e, p, st.book.cash, price, d);
    if quantity > 0.0 then
      var book := Bought(st.book, bar.time, price, quantity, FeeOn(e, Worth(quantity, price)),
                         d.evaluation.reason, d.evaluation.contextHash);
      match p.applyFill(d.evaluation, Buy, price, bar.time)
      case None => Err(FillFailed)
      case Some(runtime) => Ok(st.(book := book, runtime := runtime, entryTimes := st.entryTimes + [bar.time]))
    else Ok(st)
  }

  function FillExit<R>(e: Engine, p: Policy<R>, st: State<R>, d: Pending<R>, bar: Bar): Result<State<R>, Error> {
    var price := SellPrice(e, bar.open);
    var book := Sold(e, st.book, bar.time, price, d.evaluation.reason, Some(d.evaluation.contextHash));
    match p.applyFill(d.evaluation, Sell, price, bar.time)
    case None => Err(FillFailed)
    case Some(runtime) => Ok(st.(book := book, runtime := runtime))
  }

  /** Executes the waiting decision if this bar is later than the one it was taken on, and empties the slot. */
  function Fill<R>(e: Engine, p: Policy<R>, st: State<R>, bar: Bar): Result<State<R>, Error> {
    if st.pending.None? || bar.time <= st.pending.value.at then Ok(st)
    else
      var d := st.pending.value;
      var filled :- (if d.action == Buy && st.book.quantity <= 0.0 then FillEntry(e, p, st, d, bar)
                     else if d.action == Sell && st.book.quantity > 0.0 then FillExit(e, p, st, d, bar)
                     else Ok(st));
      Ok(filled.(pending := None))
  }

  predicate Breached(limit: Option<real>, reference: real, marked: real) {
    limit.Some? && marked <= reference * (1.0 - limit.value)
  }

  /** Rolls the day over and trips the two breakers. */
  function Guard<R>(p: Policy<R>, st: State<R>, bar: Bar, evaluating: bool): State<R> {
    var marked := Marked(st.book, bar.close);
    var today := bar.time / DAY;
    var newDay := st.day != Some(today);
    var dailyStart := if newDay then marked else st.dailyStart;
    var halted := (!newDay && st.dailyHalted) || Breached(p.risk.dailyLossLimitPct, dailyStart, marked);
    var peak := if evaluating then MaxReal(st.peak, marked) else st.peak;
    var drawdown := st.drawdownHalted || (evaluating && Breached(p.risk.maxDrawdownPct, peak, marked));
    st.(day := Some(today), dailyStart := dailyStart, dailyHalted := halted, peak := peak, drawdownHalted := drawdown)
  }

  /** The entry times later than a cutoff. */
  function Recent(times: seq<int>, cutoff: int): seq<int> {
    if times == [] then []
    else Recent(times[..|times| - 1], cutoff) + if times[|times| - 1] > cutoff then [times[|times| - 1]] else []
  }

  /** An hour before the expected fill of a decision taken now. */
  function Cutoff(now: int): int {
    now + MINUTE - HOUR
  }

  predicate Throttled<R>(p: Policy<R>, recent: seq<int>) {
    p.risk.maxTradeGroupsPerHour.Some? && |recent| >= p.risk.maxTradeGroupsPerHour.value
  }

  /** Evaluates twice when the first answer is an action, as the loop does to obtain the context hash. */
  function Evaluate<R>(p: Policy<R>, st: State<R>, history: seq<Bar>): Option<Evaluation<R>> {
    var first := p.evaluate(history, false, st.book.quantity, st.book.entryPrice, st.runtime);
    if first.Some? && first.value.action != Hold
    then p.evaluate(history, true, st.book.quantity, st.book.entryPrice, st.runtime)
    else first
  }

  function Queue<R>(e: Engine, p: Policy<R>, st: State<R>, v: Evaluation<R>, bar: Bar): Result<State<R>, Error> {
    var action :- StandardAction(v.action, st.book.quantity);
    if v.action == Buy then
      var sized :- SizeEntry(e, p, st.book.cash, bar.close, AtrOrZero(v));
      Ok(st.(pending := Some(Pending(v, bar.time, action, Some(sized)))))
    else Ok(st.(pending := Some(Pending(v, bar.time, action, None))))
  }

  /** Takes a decision on a completed decision bar and queues it unless it is an entry that is blocked. */
  function Decide<R>(e: Engine, p: Policy<R>, st: State<R>, history: seq<Bar>, bar: Bar, evaluating: bool)
    : Result<State<R>, Error>
  {
    if !p.completes(history) then Ok(st)
    else match Evaluate(p, st, history)
      case None => Err(EvaluationFailed)
      case Some(v) =>
        var recent := Recent(st.entryTimes, Cutoff(bar.time));
        var after := st.(runtime := v.stateAfter, entryTimes := recent);
        var blocked := v.action == Buy && (st.dailyHalted || st.drawdownHalted || Throttled(p, recent));
        if evaluating && v.action != Hold && !blocked then Queue(e, p, after, v, bar) else Ok(after)
  }

  function Record<R>(st: State<R>, bar: Bar, evaluating: bool): State<R> {
    if evaluating then st.(equity := st.equity + [EquityPoint(bar.time, Marked(st.book, bar.close))]) else st
  }

  /** The session refuses a bar that is not later than the one before it, or that does not fit the strategy. */
  function Ingest<R>(p: Policy<R>, bars: seq<Bar>, index: nat): Option<Error>
    requires index < |bars|
  {
    if !p.admits(bars[..index + 1]) then Some(ContextRejected)
    else if index > 0 && bars[index].time <= bars[index - 1].time then Some(BarsNotStrictlyOrdered)
    else None
  }

  function Step<R>(e: Engine, p: Policy<R>, bars: seq<Bar>, start: nat, index: nat, st: State<R>): Result<State<R>, Error>
    requires index < |bars|
  {
    if Ingest(p, bars, index).Some? then Err(Ingest(p, bars, index).value)
    else
      var bar := bars[index];
      var filled :- Fill(e, p, st, bar);
      var guarded := Guard(p, filled, bar, index >= start);
      var decided :- Decide(e, p, guarded, bars[..index + 1], bar, index >= start);
      Ok(Record(decided, bar, index >= start))
  }

  function Initial<R>(e: Engine, p: Policy<R>): State<R> {
    State(Book(e.initialCash, 0.0, 0.0, []), p.initialState, None, None, e.initialCash, false, e.initialCash, false, [], [])
  }

  /** The loop's state after the first `k` bars. */
  function Loop<R>(e: Engine, p: Policy<R>, bars: seq<Bar>, start: nat, k: nat): Result<State<R>, Error>
    requires k <= |bars|
  {
    if k == 0 then Ok(Initial(e, p))
    else
      var before :- Loop(e, p, bars, start, k - 1);
      Step(e, p, bars, start, k - 1, before)
  }

  function PolicyReport<R>(e: Engine, p: Policy<R>, ordered: seq<Bar>, start: nat): Result<Report, Error>
    requires ordered != []
  {
    var st :- Loop(e, p, ordered, start, |ordered|);
    var (book, equity) := Liquidated(e, st.book, st.equity, ordered[|ordered| - 1]);
    Ok(Report(book.trades, equity))
  }

  function RunPolicy<R>(e: Engine, p: Policy<R>, bars: seq<Bar>, start: int): Result<Report, Error> {
    var ordered := SortBars(bars);
    if ordered == [] then Err(NoBars)
    else if !(0 <= start < |ordered|) then Err(InvalidStart)
    else PolicyReport(e, p, ordered, start)
  }
}
