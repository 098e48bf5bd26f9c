/** What a score says, as facts about single bars: the horizon bar, and the benchmark bars last known at the two times. */
module OutcomeMeaning {
  import opened Prelude
  import opened OutcomeScoring

  // ---------------------------------------------------------------- bars

  /** The positions, up to and including `i`, of the bars after a time. */
  ghost function LaterUpTo(bars: seq<Bar>, time: int, i: nat): set<nat> {
    set j: nat | j <= i && j < |bars| && bars[j].at > time
  }

  /** The bar at which the `n`-th bar after the time has come. */
  ghost predicate IsNthAfter(bars: seq<Bar>, time: int, n: nat, i: nat) {
    i < |bars| && bars[i].at > time && |LaterUpTo(bars, time, i)| == n
  }

  /** The last bar at or before the time. */
  ghost predicate IsLastKnown(bars: seq<Bar>, time: int, i: nat) {
    i < |bars| && bars[i].at <= time && forall j: nat :: i < j < |bars| ==> bars[j].at > time
  }

  lemma {:induction false} AfterCounts(bars: seq<Bar>, time: int, i: nat)
    requires i < |bars|
    ensures |After(bars[..i + 1], time)| == |LaterUpTo(bars, time, i)|
  {
    assert bars[..i + 1][..i] == bars[..i];
    if i == 0 {
      assert After(bars[..0], time) == [];
      assert LaterUpTo(bars, time, 0) == if bars[0].at > time then {0} else {};
    } else {
      AfterCounts(bars, time, i - 1);
      assert LaterUpTo(bars, time, i) == LaterUpTo(bars, time, i - 1) + if bars[i].at > time then {i} else {};
    }
  }

  /** The horizon is reached exactly when some bar is its last, and then its bars are those after the time up to there. */
  lemma {:induction false} NthAfterExists(bars: seq<Bar>, time: int, n: nat)
    requires n > 0
    ensures |After(bars, time)| >= n <==> exists i: nat :: IsNthAfter(bars, time, n, i)
    ensures forall i: nat :: IsNthAfter(bars, time, n, i) ==>
              |After(bars, time)| >= n && After(bars, time)[..n] == After(bars[..i + 1], time) && After(bars, time)[n - 1] == bars[i]
  {
    forall i: nat | IsNthAfter(bars, time, n, i)
      ensures |After(bars, time)| >= n && After(bars, time)[..n] == After(bars[..i + 1], time) && After(bars, time)[n - 1] == bars[i]
    {
      AfterCounts(bars, time, i);
      AfterGrows(bars[..i + 1], bars[i + 1..], time);
      assert bars[..i + 1] + bars[i + 1..] == bars;
      assert bars[..i + 1][..i] == bars[..i];
    }
    if |After(bars, time)| >= n {
      var i := NthAfter(bars, time, n);
      AfterCounts(bars, time, i);
      assert IsNthAfter(bars, time, n, i);
    }
  }

  lemma {:induction false} NthAfter(bars: seq<Bar>, time: int, n: nat) returns (i: nat)
    requires 0 < n <= |After(bars, time)|
    ensures i < |bars| && bars[i].at > time && |After(bars[..i + 1], time)| == n
  {
    var last := |bars| - 1;
    if |After(bars[..last], time)| >= n {
      i := NthAfter(bars[..last], time, n);
      assert bars[..last][..i + 1] == bars[..i + 1];
    } else {
      i := last;
      assert bars[..last + 1] == bars;
    }
  }

  lemma {:induction false} AfterMembers(bars: seq<Bar>, time: int)
    ensures forall b :: b in After(bars, time) <==> b in bars && b.at > time
  {
    if bars != [] {
      AfterMembers(bars[..|bars| - 1], time);
      assert bars == bars[..|bars| - 1] + [bars[|bars| - 1]];
    }
  }

  lemma {:induction false} LastKnown(bars: seq<Bar>, time: int)
    ensures UpTo(bars, time) == [] <==> forall i: nat :: !IsLastKnown(bars, time, i)
    ensures forall i: nat :: IsLastKnown(bars, time, i) ==>
              UpTo(bars, time) != [] && UpTo(bars, time)[|UpTo(bars, time)| - 1] == bars[i]
  {
    if bars != [] {
      var n := |bars| - 1;
      LastKnown(bars[..n], time);
      if bars[n].at <= time {
        assert IsLastKnown(bars, time, n);
      } else {
        assert forall i: nat :: IsLastKnown(bars, time, i) ==> IsLastKnown(bars[..n], time, i);
        assert forall i: nat :: IsLastKnown(bars[..n], time, i) ==> IsLastKnown(bars, time, i);
      }
    }
  }

  // ---------------------------------------------------------------- excursions

  /** The change of a price from the reference, as a share. */
  function Share(price: real, reference: real): real
    requires reference != 0.0
  {
    (price - reference) / reference
  }

  ghost predicate InHorizon(b: Bar, bars: seq<Bar>, time: int, i: nat) {
    i < |bars| && b in bars[..i + 1] && b.at > time
  }

  /** How far a bar goes against the stance, never below zero. */
  ghost predicate Against(stance: Stance, b: Bar, reference: real, move: real)
    requires b.low.Some? && b.high.Some? && reference > 0.0
  {
    match stance
    case Bullish => move == -Share(b.low.value, reference)
    case Bearish => move == Share(b.high.value, reference)
    case Neutral => move == Abs(Share(b.low.value, reference)) || move == Abs(Share(b.high.value, reference))
  }

  /** The largest move against the stance over the horizon, or none. */
  ghost predicate IsWorst(stance: Stance, bars: seq<Bar>, reference: real, worst: real)
    requires reference > 0.0 && PricesKnown(bars)
  {
    && worst >= 0.0
    && (forall k, move :: 0 <= k < |bars| && Against(stance, bars[k], reference, move) ==> move <= worst)
    && (worst == 0.0 || exists k :: 0 <= k < |bars| && Against(stance, bars[k], reference, worst))
  }

  lemma ShareIsChange(price: real, reference: real)
    requires reference > 0.0
    ensures Change(price, reference) == Share(price, reference)
  {
    assert (price - reference) / reference == price / reference - reference / reference;
  }

  lemma {:induction false} LowestIsLowest(bars: seq<Bar>, reference: real) returns (k: nat)
    requires bars != [] && PricesKnown(bars) && reference > 0.0
    ensures k < |bars| && LowestChange(bars, reference) == Share(bars[k].low.value, reference)
    ensures forall j :: 0 <= j < |bars| ==> LowestChange(bars, reference) <= Share(bars[j].low.value, reference)
  {
    k := |bars| - 1;
    ShareIsChange(bars[k].low.value, reference);
    if k > 0 {
      var rest := LowestIsLowest(bars[..k], reference);
      if LowestChange(bars, reference) != Share(bars[k].low.value, reference) {
        k := rest;
      }
    }
    hide Change, Share;
  }

  lemma {:induction false} HighestIsHighest(bars: seq<Bar>, reference: real) returns (k: nat)
    requires bars != [] && PricesKnown(bars) && reference > 0.0
    ensures k < |bars| && HighestChange(bars, reference) == Share(bars[k].high.value, reference)
    ensures forall j :: 0 <= j < |bars| ==> HighestChange(bars, reference) >= Share(bars[j].high.value, reference)
  {
    k := |bars| - 1;
    ShareIsChange(bars[k].high.value, reference);
    if k > 0 {
      var rest := HighestIsHighest(bars[..k], reference);
      if HighestChange(bars, reference) != Share(bars[k].high.value, reference) {
        k := rest;
      }
    }
    hide Change, Share;
  }

  lemma {:induction false} LargestIsLargest(bars: seq<Bar>, reference: real) returns (k: nat)
    requires bars != [] && PricesKnown(bars) && reference > 0.0
    ensures k < |bars|
    ensures LargestMove(bars, reference) == Abs(Share(bars[k].low.value, reference))
         || LargestMove(bars, reference) == Abs(Share(bars[k].high.value, reference))
    ensures forall j :: 0 <= j < |bars| ==>
              && LargestMove(bars, reference) >= Abs(Share(bars[j].low.value, reference))
              && LargestMove(bars, reference) >= Abs(Share(bars[j].high.value, reference))
  {
    k := |bars| - 1;
    ShareIsChange(bars[k].low.value, reference);
    ShareIsChange(bars[k].high.value, reference);
    if k > 0 {
      var rest := LargestIsLargest(bars[..k], reference);
      if LargestMove(bars, reference) != Abs(Share(bars[k].low.value, reference))
         && LargestMove(bars, reference) != Abs(Share(bars[k].high.value, reference)) {
        k := rest;
      }
    }
    hide Change, Share, Abs;
  }

  /** The adverse excursion is the largest move against the stance, as a loss in percent. */
  lemma AdverseMeans(stance: Stance, reference: real, bars: seq<Bar>, round: real -> real) returns (worst: real)
    requires bars != [] && PricesKnown(bars) && reference > 0.0
    ensures IsWorst(stance, bars, reference, worst) && Adverse(stance, reference, bars, round) == round(-worst * 100.0)
  {
    hide LowestChange, HighestChange, LargestMove, Share;
    match stance
    case Bullish =>
      var k := LowestIsLowest(bars, reference);
      var lowest := LowestChange(bars, reference);
      worst := if lowest < 0.0 then -lowest else 0.0;
      assert Against(stance, bars[k], reference, -lowest);
      assert -worst == if lowest < 0.0 then lowest else 0.0;
    case Bearish =>
      var k := HighestIsHighest(bars, reference);
      var highest := HighestChange(bars, reference);
      worst := if highest > 0.0 then highest else 0.0;
      assert Against(stance, bars[k], reference, highest);
    case Neutral =>
      var k := LargestIsLargest(bars, reference);
      worst := LargestMove(bars, reference);
      assert Against(stance, bars[k], reference, worst);
  }

  // ---------------------------------------------------------------- scores

  /** The runs are of the recommendation's market and timeframe, the outcome of its symbol and the benchmark of another. */
  predicate InContext(e: Evidence, outcome: Run, benchmark: Run) {
    && outcome.market == e.market == benchmark.market && outcome.timeframe == e.timeframe == benchmark.timeframe
    && outcome.symbol == e.symbol != benchmark.symbol
  }

  /** The horizon ends on bar `f`, whose prices and those before it are known. */
  ghost predicate Ends(e: Evidence, outcome: Run, f: nat) {
    && IsNthAfter(outcome.bars, e.referenceAt, e.horizon, f) && outcome.bars[f].close.Some?
    && forall b :: InHorizon(b, outcome.bars, e.referenceAt, f) ==> b.low.Some? && b.high.Some?
  }

  /** The benchmark is last known on bar `s` at the reference time and on a later bar `t` at the outcome time. */
  ghost predicate Spans(benchmark: Run, referenceAt: int, outcomeAt: int, s: nat, t: nat) {
    && IsLastKnown(benchmark.bars, referenceAt, s) && IsLastKnown(benchmark.bars, outcomeAt, t)
    && benchmark.bars[s].at < benchmark.bars[t].at
    && benchmark.bars[t].close.Some? && benchmark.bars[s].close.Some? && benchmark.bars[s].close.value != 0.0
  }

  lemma BenchmarkMeans(benchmark: Run, referenceAt: int, outcomeAt: int, round: real -> real)
    ensures Benchmark(benchmark.bars, referenceAt, outcomeAt, round).Ok?
       <==> exists s: nat, t: nat :: Spans(benchmark, referenceAt, outcomeAt, s, t)
    ensures forall s: nat, t: nat :: Spans(benchmark, referenceAt, outcomeAt, s, t) ==>
              Benchmark(benchmark.bars, referenceAt, outcomeAt, round)
              == Ok(round((benchmark.bars[t].close.value / benchmark.bars[s].close.value - 1.0) * 100.0))
  {
    LastKnown(benchmark.bars, referenceAt);
    LastKnown(benchmark.bars, outcomeAt);
    hide UpTo, IsLastKnown;
    if Benchmark(benchmark.bars, referenceAt, outcomeAt, round).Ok? {
      var s: nat :| IsLastKnown(benchmark.bars, referenceAt, s);
      var t: nat :| IsLastKnown(benchmark.bars, outcomeAt, t);
      assert s < |benchmark.bars| && t < |benchmark.bars| by {
        InRange(benchmark.bars, referenceAt, s);
        InRange(benchmark.bars, outcomeAt, t);
      }
      assert Spans(benchmark, referenceAt, outcomeAt, s, t);
    }
  }

  lemma InRange(bars: seq<Bar>, time: int, i: nat)
    requires IsLastKnown(bars, time, i)
    ensures i < |bars|
  {
  }

  lemma HorizonKnown(e: Evidence, outcome: Run, f: nat)
    requires ValidEvidence(e) && IsNthAfter(outcome.bars, e.referenceAt, e.horizon, f)
    ensures |After(outcome.bars, e.referenceAt)| >= e.horizon
    ensures PricesKnown(After(outcome.bars, e.referenceAt)[..e.horizon])
       <==> forall b :: InHorizon(b, outcome.bars, e.referenceAt, f) ==> b.low.Some? && b.high.Some?
  {
    NthAfterExists(outcome.bars, e.referenceAt, e.horizon);
    AfterMembers(outcome.bars[..f + 1], e.referenceAt);
    hide After, LaterUpTo, PricesKnown;
    KnownMembers(After(outcome.bars, e.referenceAt)[..e.horizon]);
  }

  lemma KnownMembers(bars: seq<Bar>)
    ensures PricesKnown(bars) <==> forall b :: b in bars ==> b.low.Some? && b.high.Some?
  {
    assert forall k :: 0 <= k < |bars| ==> bars[k] in bars;
  }

  /** A recommendation is scored exactly when its runs fit, its horizon ends, and the benchmark spans it. */
  lemma ScoredExactly(e: Evidence, outcome: Run, benchmark: Run, round: real -> real)
    requires ValidEvidence(e)
    ensures Evaluate(e, outcome, benchmark, round).Ok?
       <==> && InContext(e, outcome, benchmark)
            && exists f: nat, s: nat, t: nat ::
                 Ends(e, outcome, f) && Spans(benchmark, e.referenceAt, outcome.bars[f].at, s, t)
  {
    NthAfterExists(outcome.bars, e.referenceAt, e.horizon);
    AfterIsLater(outcome.bars, e.referenceAt);
    hide After, LaterUpTo, PricesKnown, Benchmark, Adverse, Spans, IsNthAfter, InHorizon;
    if f: nat :| IsNthAfter(outcome.bars, e.referenceAt, e.horizon, f) {
      OnlyNth(outcome.bars, e.referenceAt, e.horizon, f);
      HorizonKnown(e, outcome, f);
      BenchmarkMeans(benchmark, e.referenceAt, outcome.bars[f].at, round);
      SpansSome(benchmark, e.referenceAt, outcome.bars[f].at);
      assert Ends(e, outcome, f) <==> outcome.bars[f].close.Some? && PricesKnown(After(outcome.bars, e.referenceAt)[..e.horizon]);
      assert forall g: nat :: Ends(e, outcome, g) ==> g == f;
    }
  }

  lemma SpansSome(benchmark: Run, referenceAt: int, outcomeAt: int)
    ensures forall s: nat, t: nat :: Spans(benchmark, referenceAt, outcomeAt, s, t) ==> benchmark.bars != []
  {
  }

  lemma OnlyNth(bars: seq<Bar>, time: int, n: nat, i: nat)
    requires IsNthAfter(bars, time, n, i)
    ensures i < |bars| && forall j: nat :: IsNthAfter(bars, time, n, j) ==> j == i
  {
    forall j: nat | IsNthAfter(bars, time, n, j) ensures j == i {
      if j < i {
        assert LaterUpTo(bars, time, j) + {i} <= LaterUpTo(bars, time, i);
        Larger(LaterUpTo(bars, time, j), i, LaterUpTo(bars, time, i));
      } else if i < j {
        assert LaterUpTo(bars, time, i) + {j} <= LaterUpTo(bars, time, j);
        Larger(LaterUpTo(bars, time, i), j, LaterUpTo(bars, time, j));
      }
    }
  }

  lemma Larger(s: set<nat>, x: nat, t: set<nat>)
    requires x !in s && s + {x} <= t
    ensures |s| < |t|
  {
    assert |t - (s + {x})| == |t| - |s + {x}|;
  }

  /**
   What a score says: the price and time of the horizon bar; its return from the reference price, signed by the stance;
   the largest move against the stance on the way; the benchmark's return between the bars last known at the two times;
   and alpha, the one return less the other. All in percent, rounded.
   */
  lemma ScoreMeans(e: Evidence, outcome: Run, benchmark: Run, round: real -> real, f: nat, s: nat, t: nat)
    requires ValidEvidence(e) && InContext(e, outcome, benchmark)
    requires Ends(e, outcome, f) && Spans(benchmark, e.referenceAt, outcome.bars[f].at, s, t)
    ensures var score := Evaluate(e, outcome, benchmark, round);
            var price, start, end := outcome.bars[f].close.value, benchmark.bars[s].close.value, benchmark.bars[t].close.value;
            && score.Ok? && score.value.outcomeAt == outcome.bars[f].at && score.value.outcomePrice == price
            && score.value.raw == round((price / e.referencePrice - 1.0) * 100.0)
            && (e.stance == Bullish ==> score.value.adjusted == score.value.raw)
            && (e.stance == Bearish ==> score.value.adjusted == -score.value.raw)
            && (e.stance == Neutral ==> score.value.adjusted == 0.0)
            && score.value.benchmark == round((end / start - 1.0) * 100.0)
            && score.value.alpha == round(score.value.raw - score.value.benchmark)
    ensures exists bars, worst ::
              && PricesKnown(bars) && (forall b :: b in bars <==> InHorizon(b, outcome.bars, e.referenceAt, f))
              && IsWorst(e.stance, bars, e.referencePrice, worst)
              && Evaluate(e, outcome, benchmark, round).value.adverse == round(-worst * 100.0)
  {
    hide Evaluate, Benchmark, Adverse, Spans, Ends, IsWorst, PricesKnown, InContext;
    ScoreParts(e, outcome, benchmark, round, f, s, t);
    SpansParts(benchmark, e.referenceAt, outcome.bars[f].at, s, t);
    BenchmarkMeans(benchmark, e.referenceAt, outcome.bars[f].at, round);
    ExcursionMeans(e, outcome, f, round);
  }

  /** What the scoring puts together, once its bars are found. */
  lemma ScoreParts(e: Evidence, outcome: Run, benchmark: Run, round: real -> real, f: nat, s: nat, t: nat)
    requires ValidEvidence(e) && InContext(e, outcome, benchmark)
    requires Ends(e, outcome, f) && Spans(benchmark, e.referenceAt, outcome.bars[f].at, s, t)
    ensures f < |outcome.bars| && outcome.bars[f].close.Some?
    ensures |After(outcome.bars, e.referenceAt)| >= e.horizon && PricesKnown(After(outcome.bars, e.referenceAt)[..e.horizon])
    ensures Benchmark(benchmark.bars, e.referenceAt, outcome.bars[f].at, round).Ok?
    ensures var raw := Pct(Change(outcome.bars[f].close.value, e.referencePrice), round);
            var against := Benchmark(benchmark.bars, e.referenceAt, outcome.bars[f].at, round).value;
            Evaluate(e, outcome, benchmark, round)
            == Ok(Score(outcome.bars[f].at, outcome.bars[f].close.value, raw,
                        if e.stance == Bullish then raw else if e.stance == Bearish then -raw else 0.0,
                        Adverse(e.stance, e.referencePrice, After(outcome.bars, e.referenceAt)[..e.horizon], round),
                        against, round(raw - against)))
  {
    hide After, PricesKnown, Benchmark, Adverse, Spans, Ends, Pct, Change;
    HorizonBars(e, outcome, f);
    SpannedBenchmark(benchmark, e.referenceAt, outcome.bars[f].at, round, s, t);
  }

  lemma HorizonBars(e: Evidence, outcome: Run, f: nat)
    requires ValidEvidence(e) && Ends(e, outcome, f)
    ensures f < |outcome.bars| && outcome.bars[f].close.Some?
    ensures |After(outcome.bars, e.referenceAt)| >= e.horizon && After(outcome.bars, e.referenceAt)[e.horizon - 1] == outcome.bars[f]
    ensures PricesKnown(After(outcome.bars, e.referenceAt)[..e.horizon])
  {
    NthAfterExists(outcome.bars, e.referenceAt, e.horizon);
    HorizonKnown(e, outcome, f);
    hide After, LaterUpTo, PricesKnown;
  }

  lemma SpannedBenchmark(benchmark: Run, referenceAt: int, outcomeAt: int, round: real -> real, s: nat, t: nat)
    requires Spans(benchmark, referenceAt, outcomeAt, s, t)
    ensures benchmark.bars != [] && Benchmark(benchmark.bars, referenceAt, outcomeAt, round).Ok?
  {
    BenchmarkMeans(benchmark, referenceAt, outcomeAt, round);
    SpansSome(benchmark, referenceAt, outcomeAt);
    hide Benchmark;
  }

  lemma SpansParts(benchmark: Run, referenceAt: int, outcomeAt: int, s: nat, t: nat)
    requires Spans(benchmark, referenceAt, outcomeAt, s, t)
    ensures s < |benchmark.bars| && benchmark.bars[s].close.Some? && benchmark.bars[s].close.value != 0.0
    ensures t < |benchmark.bars| && benchmark.bars[t].close.Some?
  {
  }

  lemma ExcursionMeans(e: Evidence, outcome: Run, f: nat, round: real -> real)
    requires ValidEvidence(e) && Ends(e, outcome, f)
    requires |After(outcome.bars, e.referenceAt)| >= e.horizon && PricesKnown(After(outcome.bars, e.referenceAt)[..e.horizon])
    ensures exists bars, worst ::
              && PricesKnown(bars) && (forall b :: b in bars <==> InHorizon(b, outcome.bars, e.referenceAt, f))
              && IsWorst(e.stance, bars, e.referencePrice, worst)
              && Adverse(e.stance, e.referencePrice, After(outcome.bars, e.referenceAt)[..e.horizon], round) == round(-worst * 100.0)
  {
    NthAfterExists(outcome.bars, e.referenceAt, e.horizon);
    AfterMembers(outcome.bars[..f + 1], e.referenceAt);
    var bars := After(outcome.bars, e.referenceAt)[..e.horizon];
    assert forall b :: b in bars <==> InHorizon(b, outcome.bars, e.referenceAt, f);
    hide After, LaterUpTo, PricesKnown, Adverse, IsWorst;
    var worst := AdverseMeans(e.stance, e.referencePrice, bars, round);
  }
}
