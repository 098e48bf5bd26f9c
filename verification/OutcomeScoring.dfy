/**
 Scoring a research recommendation against the bars that followed it: what later bars can change, and how the
 stance-adjusted return relates to the adverse excursion.
 */
module OutcomeScoring {
  import opened Prelude

  /** A price is None when it is not a finite number. */
  datatype Bar = Bar(at: int, low: Option<real>, high: Option<real>, close: Option<real>)

  datatype Run = Run(market: string, symbol: string, timeframe: string, bars: seq<Bar>)

  datatype Stance = Bullish | Bearish | Neutral

  datatype Evidence = Evidence(
    market: string,
    symbol: string,
    timeframe: string,
    stance: Stance,
    horizon: nat,
    referenceAt: int,
    referencePrice: real)

  datatype ScoreError =
    | OutcomeContext
    | BenchmarkContext
    | BarsMissing
    | HorizonNotReached
    | OutcomePrice
    | CoverageMissing
    | BenchmarkPrice
    | BenchmarkZero

  datatype Score = Score(
    outcomeAt: int,
    outcomePrice: real,
    raw: real,
    adjusted: real,
    adverse: real,
    benchmark: real,
    alpha: real)

  /** What evidence validation guarantees of a recommendation. */
  predicate ValidEvidence(e: Evidence) {
    1 <= e.horizon <= 250 && e.referencePrice > 0.0
  }

  function After(bars: seq<Bar>, time: int): seq<Bar> {
    if bars == [] then []
    else After(bars[..|bars| - 1], time) + if bars[|bars| - 1].at > time then [bars[|bars| - 1]] else []
  }

  function UpTo(bars: seq<Bar>, time: int): seq<Bar> {
    if bars == [] then []
    else UpTo(bars[..|bars| - 1], time) + if bars[|bars| - 1].at <= time then [bars[|bars| - 1]] else []
  }

  function Abs(x: real): real {
    if x < 0.0 then -x else x
  }

  predicate PricesKnown(bars: seq<Bar>) {
    forall i :: 0 <= i < |bars| ==> bars[i].low.Some? && bars[i].high.Some?
  }

  function Change(price: real, reference: real): real
    requires reference > 0.0
  {
    price / reference - 1.0
  }

  function LowestChange(bars: seq<Bar>, reference: real): real
    requires bars != [] && PricesKnown(bars) && reference > 0.0
  {
    var last := Change(bars[|bars| - 1].low.value, reference);
    if |bars| == 1 then last
    else
      var rest := LowestChange(bars[..|bars| - 1], reference);
      if last < rest then last else rest
  }

  function HighestChange(bars: seq<Bar>, reference: real): real
    requires bars != [] && PricesKnown(bars) && reference > 0.0
  {
    var last := Change(bars[|bars| - 1].high.value, reference);
    if |bars| == 1 then last
    else
      var rest := HighestChange(bars[..|bars| - 1], reference);
      if last > rest then last else rest
  }

  /** The largest distance of a low or a high from the reference. */
  function LargestMove(bars: seq<Bar>, reference: real): real
    requires bars != [] && PricesKnown(bars) && reference > 0.0
  {
    var low, high := Abs(Change(bars[|bars| - 1].low.value, reference)), Abs(Change(bars[|bars| - 1].high.value, reference));
    var last := if low > high then low else high;
    if |bars| == 1 then last
    else
      var rest := LargestMove(bars[..|bars| - 1], reference);
      if last > rest then last else rest
  }

  function Pct(value: real, round: real -> real): real {
    round(value * 100.0)
  }

  /** `_adverse_excursion`. */
  function Adverse(stance: Stance, reference: real, bars: seq<Bar>, round: real -> real): real
    requires bars != [] && PricesKnown(bars) && reference > 0.0
  {
    match stance
    case Bullish => Pct(if LowestChange(bars, reference) < 0.0 then LowestChange(bars, reference) else 0.0, round)
    case Bearish => Pct(-(if HighestChange(bars, reference) > 0.0 then HighestChange(bars, reference) else 0.0), round)
    case Neutral => Pct(-LargestMove(bars, reference), round)
  }

  /** The benchmark's return between the last bar at or before the reference and the last at or before the outcome. */
  function Benchmark(bars: seq<Bar>, referenceAt: int, outcomeAt: int, round: real -> real): Result<real, ScoreError> {
    var starts, ends := UpTo(bars, referenceAt), UpTo(bars, outcomeAt);
    if starts == [] || ends == [] then Err(CoverageMissing)
    else
      var start, end := starts[|starts| - 1], ends[|ends| - 1];
      if end.at <= start.at then Err(CoverageMissing)
      else if end.close.None? || start.close.None? then Err(BenchmarkPrice)
      else if start.close.value == 0.0 then Err(BenchmarkZero)
      else Ok(Pct(end.close.value / start.close.value - 1.0, round))
  }

  /** `evaluate_recommendation_outcome`. */
  function Evaluate(e: Evidence, outcome: Run, benchmark: Run, round: real -> real): Result<Score, ScoreError>
    requires ValidEvidence(e)
  {
    if outcome.market != e.market || outcome.symbol != e.symbol || outcome.timeframe != e.timeframe then Err(OutcomeContext)
    else if benchmark.market != e.market || benchmark.timeframe != e.timeframe || benchmark.symbol == e.symbol then Err(BenchmarkContext)
    else if outcome.bars == [] then Err(BarsMissing)
    else
      var after := After(outcome.bars, e.referenceAt);
      if |after| < e.horizon then Err(HorizonNotReached)
      else
        var bars := after[..e.horizon];
        var final := bars[e.horizon - 1];
        if final.close.None? then Err(OutcomePrice)
        else if !PricesKnown(bars) then Err(OutcomePrice)
        else if benchmark.bars == [] then Err(BarsMissing)
        else
          var raw := Pct(Change(final.close.value, e.referencePrice), round);
          var against := Benchmark(benchmark.bars, e.referenceAt, final.at, round);
          if against.Err? then Err(against.error)
          else
            Ok(Score(final.at, final.close.value, raw,
                     match e.stance case Bullish => raw case Bearish => -raw case Neutral => 0.0,
                     Adverse(e.stance, e.referencePrice, bars, round), against.value, round(raw - against.value)))
  }

  // ---------------------------------------------------------------- later bars

  lemma {:induction false} AfterGrows(bars: seq<Bar>, more: seq<Bar>, time: int)
    ensures After(bars, time) <= After(bars + more, time)
  {
    if more == [] {
      assert bars + more == bars;
    } else {
      var n := |more| - 1;
      AfterGrows(bars, more[..n], time);
      assert (bars + more)[..|bars + more| - 1] == bars + more[..n];
    }
  }

  lemma {:induction false} AfterIsLater(bars: seq<Bar>, time: int)
    ensures forall i :: 0 <= i < |After(bars, time)| ==> After(bars, time)[i].at > time && After(bars, time)[i] in bars
  {
    if bars != [] {
      AfterIsLater(bars[..|bars| - 1], time);
    }
  }

  lemma {:induction false} UpToStays(bars: seq<Bar>, more: seq<Bar>, time: int)
    requires forall i :: 0 <= i < |more| ==> more[i].at > time
    ensures UpTo(bars + more, time) == UpTo(bars, time)
  {
    if more == [] {
      assert bars + more == bars;
    } else {
      var n := |more| - 1;
      UpToStays(bars, more[..n], time);
      assert (bars + more)[..|bars + more| - 1] == bars + more[..n];
    }
  }

  /** A score, once given, is not changed by bars appended to the outcome run or by benchmark bars after the outcome. */
  lemma LaterBarsChangeNothing(e: Evidence, outcome: Run, benchmark: Run, round: real -> real, more: seq<Bar>, later: seq<Bar>)
    requires ValidEvidence(e) && Evaluate(e, outcome, benchmark, round).Ok?
    requires forall i :: 0 <= i < |later| ==> later[i].at > Evaluate(e, outcome, benchmark, round).value.outcomeAt
    ensures Evaluate(e, outcome.(bars := outcome.bars + more), benchmark.(bars := benchmark.bars + later), round)
         == Evaluate(e, outcome, benchmark, round)
  {
    var after, grown := After(outcome.bars, e.referenceAt), After(outcome.bars + more, e.referenceAt);
    AfterGrows(outcome.bars, more, e.referenceAt);
    AfterIsLater(outcome.bars, e.referenceAt);
    assert grown[..e.horizon] == after[..e.horizon];
    UpToStays(benchmark.bars, later, after[e.horizon - 1].at);
    UpToStays(benchmark.bars, later, e.referenceAt);
    hide After, UpTo, Adverse, Change, PricesKnown;
  }

  // ---------------------------------------------------------------- returns against excursions

  /** Python's rounding to a fixed number of digits: monotone, and symmetric about zero. */
  ghost predicate Rounding(round: real -> real) {
    && (forall x, y :: x <= y ==> round(x) <= round(y))
    && (forall x :: round(-x) == -round(x))
  }

  lemma ChangeIsMonotone(price: real, other: real, reference: real)
    requires reference > 0.0 && price <= other
    ensures Change(price, reference) <= Change(other, reference)
  {
  }

  lemma PctIsMonotone(x: real, y: real, round: real -> real)
    requires Rounding(round) && x <= y
    ensures Pct(x, round) <= Pct(y, round)
    ensures Pct(-x, round) == -Pct(x, round)
    ensures Pct(0.0, round) == 0.0
  {
  }

  lemma FinalBar(bars: seq<Bar>, reference: real)
    requires bars != [] && PricesKnown(bars) && reference > 0.0
    ensures LowestChange(bars, reference) <= Change(bars[|bars| - 1].low.value, reference)
    ensures HighestChange(bars, reference) >= Change(bars[|bars| - 1].high.value, reference)
    ensures LargestMove(bars, reference) >= 0.0
  {
  }

  /** With low <= close <= high on the final bar, the stance-adjusted return is at least the adverse excursion, which is at most zero. */
  lemma ReturnCoversExcursion(e: Evidence, outcome: Run, benchmark: Run, round: real -> real)
    requires ValidEvidence(e) && Rounding(round)
    requires forall i :: 0 <= i < |outcome.bars| && outcome.bars[i].low.Some? && outcome.bars[i].high.Some? && outcome.bars[i].close.Some? ==>
               outcome.bars[i].low.value <= outcome.bars[i].close.value <= outcome.bars[i].high.value
    ensures var score := Evaluate(e, outcome, benchmark, round);
            score.Ok? ==> score.value.adjusted >= score.value.adverse && score.value.adverse <= 0.0
  {
    var score := Evaluate(e, outcome, benchmark, round);
    if score.Ok? {
      AfterIsLater(outcome.bars, e.referenceAt);
      var bars := After(outcome.bars, e.referenceAt)[..e.horizon];
      var final := bars[e.horizon - 1];
      assert final in outcome.bars;
      hide After, Benchmark;
      ExcursionBounds(e.stance, e.referencePrice, bars, round);
    }
  }

  lemma ExcursionBounds(stance: Stance, reference: real, bars: seq<Bar>, round: real -> real)
    requires bars != [] && PricesKnown(bars) && reference > 0.0 && Rounding(round)
    requires bars[|bars| - 1].close.Some?
    requires bars[|bars| - 1].low.value <= bars[|bars| - 1].close.value <= bars[|bars| - 1].high.value
    ensures var raw := Pct(Change(bars[|bars| - 1].close.value, reference), round);
            var adjusted := match stance case Bullish => raw case Bearish => -raw case Neutral => 0.0;
            adjusted >= Adverse(stance, reference, bars, round) && Adverse(stance, reference, bars, round) <= 0.0
  {
    var final := bars[|bars| - 1];
    var change := Change(final.close.value, reference);
    ChangeIsMonotone(final.low.value, final.close.value, reference);
    ChangeIsMonotone(final.close.value, final.high.value, reference);
    FinalBar(bars, reference);
    hide Rounding, Pct, Change, LowestChange, HighestChange, LargestMove;
    match stance
    case Bullish =>
      var worst := if LowestChange(bars, reference) < 0.0 then LowestChange(bars, reference) else 0.0;
      PctIsMonotone(worst, change, round);
      PctIsMonotone(worst, 0.0, round);
    case Bearish =>
      var worst := if HighestChange(bars, reference) > 0.0 then HighestChange(bars, reference) else 0.0;
      PctIsMonotone(-worst, -change, round);
      PctIsMonotone(change, worst, round);
      PctIsMonotone(-worst, 0.0, round);
    case Neutral =>
      PctIsMonotone(-LargestMove(bars, reference), 0.0, round);
  }
}
