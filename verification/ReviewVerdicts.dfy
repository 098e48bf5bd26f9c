/**
 What the stance of the deterministic review means: it is the most severe verdict over the bundle and its
 experiments, "supported" holds exactly when every check passes, and further evidence never improves it.
 */
module ReviewVerdicts {
  import opened Prelude
  import opened ReviewStance
  import opened Texts

  // ---------------------------------------------------------------- severity join

  function Level(s: Stance): nat {
    match s
    case Supported => 0
    case Caution => 1
    case Insufficient => 2
    case Blocked => 3
  }

  function LevelOf(f: Findings): nat {
    Level(StanceOf(f))
  }

  function Max(a: nat, b: nat): nat {
    if a < b then b else a
  }

  lemma BothIsJoin(a: Findings, b: Findings)
    ensures LevelOf(Both(a, b)) == Max(LevelOf(a), LevelOf(b))
  {
  }

  /** A level is reached exactly when some reference reaches it. */
  lemma {:induction false} ReviewAllIsJoin(refs: seq<Reference>, items: seq<Item>, level: nat)
    requires level > 0
    ensures LevelOf(ReviewAll(refs, items)) >= level <==> exists i :: 0 <= i < |refs| && LevelOf(Review(refs[i], items)) >= level
  {
    hide Review;
    if refs == [] {
    } else {
      var n := |refs| - 1;
      ReviewAllIsJoin(refs[..n], items, level);
      BothIsJoin(ReviewAll(refs[..n], items), Review(refs[n], items));
    }
  }

  /** The stance is the join of the bundle's own verdict and the verdicts on its references. */
  lemma StanceIsJoin(b: Bundle, digest: Body -> string, level: nat)
    requires b.body.items.Some? && level > 0
    ensures Level(Assess(b, digest).stance) >= level
       <==> || LevelOf(Opening(b, digest)) >= level
            || exists i :: 0 <= i < |References(b.body)| && LevelOf(Review(References(b.body)[i], b.body.items.value)) >= level
  {
    hide Review, Opening, Signatures, ConsistencyOf;
    BothIsJoin(Opening(b, digest), ReviewAll(References(b.body), b.body.items.value));
    ReviewAllIsJoin(References(b.body), b.body.items.value, level);
  }

  // ---------------------------------------------------------------- what "supported" means

  /** The first data-quality item is complete and bound to the reference. */
  ghost predicate QualitySound(ref: Reference, items: seq<Item>) {
    exists q: nat ::
      && q < |items| && IsQuality(items[q], ref.experimentId)
      && (forall j: nat :: j < q ==> !IsQuality(items[j], ref.experimentId))
      && items[q].value.Some? && items[q].value.value.isComplete && BindingValid(ref, items[q].value.value)
  }

  predicate OnlySelected(items: seq<Item>, experiment: string, c: nat) {
    c < |items| && forall j: nat :: j < |items| ==> (IsSelected(items[j], experiment) <==> j == c)
  }

  predicate GateSound(gate: Option<Gate>) {
    gate.Some? ==>
      && gate.value.pretest == Some(true) && gate.value.test == Some(true) && gate.value.passed == Some(true)
      && gate.value.completion == GatePassed
  }

  predicate MetricsSound(v: Value) {
    && v.validation.Some? && v.test.Some? && WindowsKnown(v.windows)
    && v.validation.value.totalReturn * v.test.value.totalReturn >= 0.0
    && v.validation.value.maxDrawdown <= MAX_DRAWDOWN && v.test.value.maxDrawdown <= MAX_DRAWDOWN
    && v.validation.value.tradeCount >= MIN_TRADES && v.test.value.tradeCount >= MIN_TRADES
    && 2 * Failures(v.windows.value) <= |v.windows.value|
  }

  /** The item is the referenced candidate. */
  predicate IsCandidate(ref: Reference, item: Item) {
    && item.id == Some(CandidatePrefix(ref.experimentId) + ref.candidateId)
    && item.value.Some? && item.value.value.candidateId == Some(ref.candidateId)
  }

  /** Exactly one selected candidate, the referenced one, past its gate and all thresholds. */
  ghost predicate CandidateSound(ref: Reference, items: seq<Item>) {
    exists c: nat :: OnlySelected(items, ref.experimentId, c) && ItemSound(ref, items[c])
  }

  predicate ItemSound(ref: Reference, item: Item) {
    IsCandidate(ref, item) && GateSound(item.value.value.gate) && MetricsSound(item.value.value)
  }

  predicate BundleSound(b: Bundle, digest: Body -> string) {
    && b.evidenceHash == digest(b.body) && b.body.boundarySafe
    && IsReference(b.body.primary) && b.body.comparisons.Some?
    && forall i :: 0 <= i < |b.body.comparisons.value| ==> IsReference(b.body.comparisons.value[i])
  }

  lemma {:induction false} FirstQuality(items: seq<Item>, experiment: string)
    ensures QualityItem(items, experiment).None? <==> forall j: nat :: j < |items| ==> !IsQuality(items[j], experiment)
    ensures forall q: nat :: q < |items| && IsQuality(items[q], experiment) && (forall j: nat :: j < q ==> !IsQuality(items[j], experiment))
              ==> QualityItem(items, experiment) == Some(items[q])
    ensures QualityItem(items, experiment).Some? ==>
              exists q: nat :: q < |items| && IsQuality(items[q], experiment) && forall j: nat :: j < q ==> !IsQuality(items[j], experiment)
  {
    hide IsQuality;
    if items != [] && !IsQuality(items[0], experiment) {
      FirstQuality(items[1..], experiment);
      forall q: nat | q < |items| && IsQuality(items[q], experiment) && forall j: nat :: j < q ==> !IsQuality(items[j], experiment)
        ensures QualityItem(items, experiment) == Some(items[q])
      {
        assert items[1..][q - 1] == items[q];
        forall j: nat | j < q - 1 ensures !IsQuality(items[1..][j], experiment) {
          assert items[1..][j] == items[j + 1];
        }
      }
      if QualityItem(items, experiment).Some? {
        var q: nat :| q < |items[1..]| && IsQuality(items[1..][q], experiment) && forall j: nat :: j < q ==> !IsQuality(items[1..][j], experiment);
        assert items[q + 1] == items[1..][q];
        forall j: nat | j < q + 1 ensures !IsQuality(items[j], experiment) {
          assert j > 0 ==> items[j] == items[1..][j - 1];
        }
      } else {
        forall j: nat | j < |items| ensures !IsQuality(items[j], experiment) {
          assert j > 0 ==> items[j] == items[1..][j - 1];
        }
      }
    }
  }

  lemma {:induction false} NoneSelected(items: seq<Item>, experiment: string)
    ensures SelectedItems(items, experiment) == [] <==> forall j: nat :: j < |items| ==> !IsSelected(items[j], experiment)
  {
    hide IsSelected;
    if items != [] {
      NoneSelected(items[1..], experiment);
      assert forall j: nat :: 0 < j < |items| ==> items[j] == items[1..][j - 1];
      assert forall j: nat :: j < |items[1..]| ==> items[1..][j] == items[j + 1];
    }
  }

  lemma {:induction false} OneSelected(items: seq<Item>, experiment: string)
    ensures |SelectedItems(items, experiment)| == 1 <==> exists c: nat :: OnlySelected(items, experiment, c)
    ensures forall c: nat :: OnlySelected(items, experiment, c) ==>
              |SelectedItems(items, experiment)| == 1 && SelectedItems(items, experiment)[0] == items[c]
  {
    hide IsSelected;
    if items != [] {
      var rest := items[1..];
      OneSelected(rest, experiment);
      NoneSelected(rest, experiment);
      assert forall j: nat :: 0 < j < |items| ==> items[j] == rest[j - 1];
      assert forall j: nat :: j < |rest| ==> rest[j] == items[j + 1];
      forall c: nat | OnlySelected(items, experiment, c)
        ensures |SelectedItems(items, experiment)| == 1 && SelectedItems(items, experiment)[0] == items[c]
      {
        if c > 0 {
          assert !IsSelected(items[0], experiment);
          assert OnlySelected(rest, experiment, c - 1);
        } else {
          assert IsSelected(items[0], experiment);
        }
      }
      if |SelectedItems(items, experiment)| == 1 {
        if IsSelected(items[0], experiment) {
          assert OnlySelected(items, experiment, 0);
        } else {
          var c: nat :| OnlySelected(rest, experiment, c);
          assert OnlySelected(items, experiment, c + 1);
        }
      }
    }
  }

  lemma SignOfProduct(x: real, n: real)
    requires n > 0.0
    ensures x * n > 0.0 <==> x > 0.0
  {
  }

  lemma MoreThanHalf(f: real, n: real)
    requires n > 0.0
    ensures f / n > FAILURE_RATIO <==> f > FAILURE_RATIO * n
  {
    var q := f / n;
    assert f == q * n;
    assert (q - FAILURE_RATIO) * n == f - FAILURE_RATIO * n;
    SignOfProduct(q - FAILURE_RATIO, n);
  }

  lemma MajorityFails(windows: seq<Option<real>>)
    requires |windows| > 0
    ensures MostFail(windows) <==> 2 * Failures(windows) > |windows|
  {
    MoreThanHalf(Failures(windows) as real, |windows| as real);
    hide Failures;
  }

  lemma QualityVerdict(ref: Reference, items: seq<Item>)
    ensures LevelOf(ReviewQuality(ref, items)) == 0 <==> QualitySound(ref, items)
  {
    hide IsQuality, BindingValid;
    FirstQuality(items, ref.experimentId);
  }

  lemma MetricsVerdict(ref: Reference, id: string, v: Value)
    ensures LevelOf(ReviewMetrics(ref, id, v)) == 0 <==> MetricsSound(v)
    ensures !ReviewMetrics(ref, id, v).blocked
  {
    if WindowsKnown(v.windows) {
      MajorityFails(v.windows.value);
    }
    hide MostFail, Failures;
  }

  lemma GateVerdict(gate: Option<Gate>, id: string)
    ensures LevelOf(ReviewGate(gate, id)) == 0 <==> GateSound(gate)
  {
    if gate.Some? && !GateConflicts(gate.value) {
      assert gate.value.pretest.value <==> gate.value.pretest == Some(true);
      assert gate.value.passed.value <==> gate.value.passed == Some(true);
      assert !gate.value.pretest.value <==> gate.value.pretest == Some(false);
      assert !gate.value.passed.value <==> gate.value.passed == Some(false);
    }
  }

  lemma ItemVerdict(ref: Reference, item: Item)
    ensures LevelOf(ReviewItem(ref, item)) == 0 <==> ItemSound(ref, item)
    ensures ReviewItem(ref, item).blocked <==> IsCandidate(ref, item) && !GateSound(item.value.value.gate)
  {
    hide MetricsSound, ReviewMetrics, ReviewGate, GateSound, CandidatePrefix;
    if IsCandidate(ref, item) {
      var v, id := item.value.value, item.id.value;
      MetricsVerdict(ref, id, v);
      GateVerdict(v.gate, id);
      GateBlocksIff(v.gate, id);
      BothIsJoin(ReviewGate(v.gate, id), ReviewMetrics(ref, id, v));
    }
  }

  lemma GateBlocksIff(gate: Option<Gate>, id: string)
    ensures ReviewGate(gate, id).blocked <==> LevelOf(ReviewGate(gate, id)) > 0
  {
  }

  lemma CandidateVerdict(ref: Reference, items: seq<Item>)
    ensures LevelOf(ReviewCandidate(ref, items)) == 0 <==> CandidateSound(ref, items)
    ensures ReviewCandidate(ref, items).blocked <==> CandidateBlocks(ref, items)
  {
    OneSelected(items, ref.experimentId);
    hide IsSelected, ReviewItem, ItemSound, IsCandidate, GateSound;
    var selected := SelectedItems(items, ref.experimentId);
    if |selected| == 1 {
      var c: nat :| OnlySelected(items, ref.experimentId, c);
      assert selected[0] == items[c];
      ItemVerdict(ref, items[c]);
    }
  }

  lemma OpeningVerdict(b: Bundle, digest: Body -> string)
    ensures LevelOf(Opening(b, digest)) == 0 <==> BundleSound(b, digest)
    ensures Opening(b, digest).blocked <==> b.evidenceHash != digest(b.body) || !b.body.boundarySafe
  {
    hide IsReference;
    NoComparisonGaps(Comparisons(b.body));
  }

  lemma {:induction false} NoComparisonGaps(comparisons: seq<Option<Reference>>)
    ensures ComparisonGaps(comparisons) == [] <==> forall i :: 0 <= i < |comparisons| ==> IsReference(comparisons[i])
  {
    hide IsReference, Decimal;
    if comparisons != [] {
      var n := |comparisons| - 1;
      NoComparisonGaps(comparisons[..n]);
      var text := "comparisonExperiments[" + Decimal(n) + "] reference is invalid.";
      assert |ComparisonGaps(comparisons)| == |ComparisonGaps(comparisons[..n])| + if IsReference(comparisons[n]) then 0 else 1;
    }
  }

  /** "supported" is issued exactly when the bundle is intact and every referenced experiment passes every check. */
  lemma SupportedExactly(b: Bundle, digest: Body -> string)
    ensures (Evaluate(b, digest).Ok? && Evaluate(b, digest).value.stance == Supported)
       <==> && b.body.items.Some? && BundleSound(b, digest)
            && forall i :: 0 <= i < |References(b.body)| ==>
                 QualitySound(References(b.body)[i], b.body.items.value) && CandidateSound(References(b.body)[i], b.body.items.value)
  {
    hide QualitySound, CandidateSound, BundleSound, Opening, Review, Signatures, ConsistencyOf, References, AssessmentError;
    if b.body.items.Some? {
      var refs, items := References(b.body), b.body.items.value;
      StanceIsJoin(b, digest, 1);
      OpeningVerdict(b, digest);
      forall i | 0 <= i < |refs|
        ensures LevelOf(Review(refs[i], items)) == 0 <==> QualitySound(refs[i], items) && CandidateSound(refs[i], items)
      {
        ReferenceVerdict(refs[i], items);
      }
      if Assess(b, digest).stance == Supported {
        NothingToReject(Assess(b, digest), KnownIds(items));
      }
    }
  }

  lemma ReferenceVerdict(ref: Reference, items: seq<Item>)
    ensures LevelOf(Review(ref, items)) == 0 <==> QualitySound(ref, items) && CandidateSound(ref, items)
  {
    hide QualitySound, CandidateSound, ReviewQuality, ReviewCandidate;
    QualityVerdict(ref, items);
    CandidateVerdict(ref, items);
    BothIsJoin(ReviewQuality(ref, items), ReviewCandidate(ref, items));
  }

  lemma NothingToReject(a: Assessment, known: set<string>)
    requires a.risks == [] && a.gaps == []
    ensures AssessmentError(a, known).None?
  {
  }

  // ---------------------------------------------------------------- what "blocked" means

  /** The first data-quality item reports incomplete data or is not bound to the reference. */
  ghost predicate QualityBlocks(ref: Reference, items: seq<Item>) {
    exists q: nat ::
      && q < |items| && IsQuality(items[q], ref.experimentId)
      && (forall j: nat :: j < q ==> !IsQuality(items[j], ref.experimentId))
      && items[q].value.Some? && !(items[q].value.value.isComplete && BindingValid(ref, items[q].value.value))
  }

  /** The only selected candidate, and the referenced one, has formal gate evidence that conflicts or failed. */
  ghost predicate CandidateBlocks(ref: Reference, items: seq<Item>) {
    exists c: nat ::
      OnlySelected(items, ref.experimentId, c) && IsCandidate(ref, items[c]) && !GateSound(items[c].value.value.gate)
  }

  lemma QualityBlocked(ref: Reference, items: seq<Item>)
    ensures ReviewQuality(ref, items).blocked <==> QualityBlocks(ref, items)
  {
    hide IsQuality, BindingValid;
    FirstQuality(items, ref.experimentId);
  }

  lemma ReferenceBlocked(ref: Reference, items: seq<Item>)
    ensures Review(ref, items).blocked <==> QualityBlocks(ref, items) || CandidateBlocks(ref, items)
  {
    hide QualityBlocks, CandidateBlocks, ReviewQuality, ReviewCandidate;
    QualityBlocked(ref, items);
    CandidateVerdict(ref, items);
  }

  lemma {:induction false} ReviewAllBlocked(refs: seq<Reference>, items: seq<Item>)
    ensures ReviewAll(refs, items).blocked
       <==> exists i :: 0 <= i < |refs| && (QualityBlocks(refs[i], items) || CandidateBlocks(refs[i], items))
  {
    hide Review, QualityBlocks, CandidateBlocks;
    if refs != [] {
      var n := |refs| - 1;
      ReviewAllBlocked(refs[..n], items);
      ReferenceBlocked(refs[n], items);
      assert forall i :: 0 <= i < n ==> refs[..n][i] == refs[i];
    }
  }

  /** "blocked" is the stance exactly when the hash or the boundary is wrong or some experiment's evidence blocks. */
  lemma BlockedExactly(b: Bundle, digest: Body -> string)
    requires b.body.items.Some?
    ensures Assess(b, digest).stance == Blocked
       <==> || b.evidenceHash != digest(b.body) || !b.body.boundarySafe
            || exists i :: 0 <= i < |References(b.body)|
                 && (QualityBlocks(References(b.body)[i], b.body.items.value) || CandidateBlocks(References(b.body)[i], b.body.items.value))
  {
    OpeningVerdict(b, digest);
    ReviewAllBlocked(References(b.body), b.body.items.value);
    hide QualityBlocks, CandidateBlocks, Opening, ReviewAll, References, Signatures, ConsistencyOf, Distinct, BundleSound;
  }
}
