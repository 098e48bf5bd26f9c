/**
 What the risks and gaps of an assessment mean: each is reported exactly when some referenced experiment's evidence, as
 it lies in the bundle, gives rise to it.
 */
module ReviewRisks {
  import opened Prelude
  import opened ReviewStance
  import opened Texts
  import opened ReviewVerdicts
  import opened ReviewConsistency

  // ---------------------------------------------------------------- evidence

  predicate IsQualityOf(item: Item, experiment: string) {
    item.kind == "data_quality" && item.id == Some("experiment:" + experiment + ":data-quality")
  }

  /** The first data-quality item of the experiment. */
  ghost predicate QualityAt(ref: Reference, items: seq<Item>, q: nat) {
    q < |items| && IsQualityOf(items[q], ref.experimentId) && forall j: nat :: j < q ==> !IsQualityOf(items[j], ref.experimentId)
  }

  /** Its data hash and range are the reference's, well-formed and in order. */
  predicate Bound(ref: Reference, v: Value) {
    && ref.dataHash.Some? && v.dataHash == ref.dataHash && |v.dataHash.value| == 64
    && (forall i :: 0 <= i < 64 ==> '0' <= v.dataHash.value[i] <= '9' || 'a' <= v.dataHash.value[i] <= 'f')
    && ref.range.Some? && v.startAt == ref.range.value.startAt && v.endAt == ref.range.value.endAt
    && v.startAt.Some? && v.startAt.value != "" && v.endAt.Some? && v.endAt.value != ""
    && NotAfter(v.startAt.value, v.endAt.value)
  }

  /** The only selected candidate. */
  ghost predicate SelectedAt(ref: Reference, items: seq<Item>, c: nat) {
    c < |items| && forall j: nat :: j < |items| ==> (Selects(items[j], ref.experimentId) <==> j == c)
  }

  /** It is the referenced one, by its id and by its value. */
  ghost predicate CandidateAt(ref: Reference, items: seq<Item>, c: nat) {
    && SelectedAt(ref, items, c)
    && items[c].id == Some("experiment:" + ref.experimentId + ":candidate:" + ref.candidateId)
    && items[c].value.Some? && items[c].value.value.candidateId == Some(ref.candidateId)
  }

  /** The three parts of a formal gate agree on whether the test passed. */
  predicate Coherent(gate: Gate) {
    && gate.pretest.Some? && gate.test.Some? && gate.passed == gate.test
    && gate.completion == if gate.test.value then GatePassed else TestFailed
  }

  // ---------------------------------------------------------------- risks

  /** Incomplete data, or data that is not the reference's. */
  predicate DataRaises(ref: Reference, v: Value, risk: Risk) {
    && risk.severity == Critical && risk.references == ["experiment:" + ref.experimentId + ":data-quality"]
    && ((risk.concern == QualityIncomplete && !v.isComplete) || (risk.concern == BindingConflict && !Bound(ref, v)))
  }

  /** Gate evidence that contradicts itself, or a gate that was not passed. */
  predicate GateRaises(gate: Option<Gate>, id: string, risk: Risk) {
    && gate.Some? && risk.severity == Critical && risk.references == [id]
    && (|| (risk.concern == GateConflict && !Coherent(gate.value))
        || (risk.concern == GateFailed && Coherent(gate.value) && !(gate.value.pretest.value && gate.value.test.value)))
  }

  /** Complete metrics that cross a threshold. */
  predicate Crosses(v: Value, id: string, risk: Risk)
    requires v.validation.Some? && v.test.Some? && v.windows.Some?
  {
    && risk.references == [id]
    && match risk.concern
       case ReturnsReverse => risk.severity == High && v.validation.value.totalReturn * v.test.value.totalReturn < 0.0
       case DrawdownExceeded => risk.severity == High && (v.validation.value.maxDrawdown > 15.0 || v.test.value.maxDrawdown > 15.0)
       case TradesTooFew => risk.severity == Medium && Few(v)
       case WindowsWeak => risk.severity == High && 2 * |Lost(v.windows.value)| > |v.windows.value|
       case _ => false
  }

  /** The evidence of the reference gives rise to the risk, which cites the item it comes from. */
  ghost predicate Raises(ref: Reference, items: seq<Item>, risk: Risk) {
    || (exists q: nat :: QualityAt(ref, items, q) && items[q].value.Some? && DataRaises(ref, items[q].value.value, risk))
    || (exists c: nat :: CandidateAt(ref, items, c) && GateRaises(items[c].value.value.gate, items[c].id.value, risk))
    || (exists c: nat :: ShowsAt(ref, items, c) && Crosses(items[c].value.value, items[c].id.value, risk))
  }

  lemma BindingMeans(ref: Reference, v: Value)
    ensures BindingValid(ref, v) <==> Bound(ref, v)
  {
    hide NotAfter;
  }

  /** The first item is where the engine finds it. */
  lemma QualityFound(ref: Reference, items: seq<Item>)
    ensures QualityItem(items, ref.experimentId).None? <==> forall q: nat :: !QualityAt(ref, items, q)
    ensures forall q: nat :: QualityAt(ref, items, q) ==> QualityItem(items, ref.experimentId) == Some(items[q])
  {
    FirstQuality(items, ref.experimentId);
    forall j: nat | j < |items| ensures IsQualityOf(items[j], ref.experimentId) <==> IsQuality(items[j], ref.experimentId) {
    }
    hide IsQuality, IsQualityOf, QualityItem;
    if QualityItem(items, ref.experimentId).Some? {
      var q: nat :| q < |items| && IsQuality(items[q], ref.experimentId) && forall j: nat :: j < q ==> !IsQuality(items[j], ref.experimentId);
      assert QualityAt(ref, items, q);
    }
  }

  lemma QualityRisks(ref: Reference, items: seq<Item>, risk: Risk)
    ensures risk in ReviewQuality(ref, items).risks
       <==> exists q: nat :: QualityAt(ref, items, q) && items[q].value.Some? && DataRaises(ref, items[q].value.value, risk)
  {
    QualityFound(ref, items);
    assert "experiment:" + ref.experimentId + ":data-quality" == QualityId(ref.experimentId);
    hide QualityItem, QualityAt, BindingValid, Bound, QualityId;
    if q: nat :| QualityAt(ref, items, q) {
      if items[q].value.Some? {
        BindingMeans(ref, items[q].value.value);
      }
    }
  }

  lemma GateRisks(gate: Option<Gate>, id: string, risk: Risk)
    ensures risk in ReviewGate(gate, id).risks <==> GateRaises(gate, id, risk)
  {
  }

  lemma MetricsRisks(ref: Reference, id: string, v: Value, risk: Risk)
    ensures risk in ReviewMetrics(ref, id, v).risks
       <==> v.validation.Some? && v.test.Some? && WindowsKnown(v.windows) && Crosses(v, id, risk)
  {
    WindowsAgree(v);
    hide WindowsKnown, MostFail, Lost, Direction;
  }

  lemma SelectedFound(ref: Reference, items: seq<Item>)
    ensures |SelectedItems(items, ref.experimentId)| == 1 <==> exists c: nat :: SelectedAt(ref, items, c)
    ensures forall c: nat :: SelectedAt(ref, items, c) ==>
              |SelectedItems(items, ref.experimentId)| == 1 && SelectedItems(items, ref.experimentId)[0] == items[c]
  {
    OneSelected(items, ref.experimentId);
    hide OnlySelected, SelectedAt, SelectedItems;
    forall c: nat ensures SelectedAt(ref, items, c) <==> OnlySelected(items, ref.experimentId, c) {
      SelectedIsOnly(ref, items, c);
    }
  }

  lemma SelectedIsOnly(ref: Reference, items: seq<Item>, c: nat)
    ensures SelectedAt(ref, items, c) <==> OnlySelected(items, ref.experimentId, c)
  {
    OnlyOne(items, ref.experimentId, c);
    hide Selects, IsSelected;
  }

  lemma OneSelectedAt(ref: Reference, items: seq<Item>, c: nat)
    requires SelectedAt(ref, items, c)
    ensures forall d: nat :: SelectedAt(ref, items, d) ==> d == c
    ensures items[c].value.Some? && items[c].id.Some?
  {
    assert Selects(items[c], ref.experimentId);
  }

  /** With one selected candidate, there is only that one to look at. */
  lemma OnlyThere(ref: Reference, items: seq<Item>, c: nat)
    requires SelectedAt(ref, items, c)
    ensures forall d: nat :: ShowsAt(ref, items, d) ==> d == c
    ensures forall d: nat :: CandidateAt(ref, items, d) ==> d == c
    ensures CandidateAt(ref, items, c) ==> items[c].id == Some("experiment:" + ref.experimentId + ":candidate:" + ref.candidateId)
    ensures CandidateAt(ref, items, c) <==> IsCandidate(ref, items[c])
    ensures items[c].value.Some? && items[c].id.Some?
    ensures var v := items[c].value.value;
            ShowsAt(ref, items, c) <==> CandidateAt(ref, items, c) && v.validation.Some? && v.test.Some? && WindowsKnown(v.windows)
  {
    OneSelectedAt(ref, items, c);
    CandidateId(ref);
    WindowsAgree(items[c].value.value);
    assert forall d: nat :: ShowsAt(ref, items, d) ==> SelectedAt(ref, items, d);
    hide CandidatePrefix, Selects, WindowsKnown, Lost, MostFail;
  }

  /** What the candidate of a reference raises. */
  ghost predicate CandidateRaises(ref: Reference, items: seq<Item>, risk: Risk) {
    || (exists c: nat :: CandidateAt(ref, items, c) && GateRaises(items[c].value.value.gate, items[c].id.value, risk))
    || (exists c: nat :: ShowsAt(ref, items, c) && Crosses(items[c].value.value, items[c].id.value, risk))
  }

  lemma ItemRisks(ref: Reference, items: seq<Item>, c: nat, risk: Risk)
    requires SelectedAt(ref, items, c)
    ensures risk in ReviewItem(ref, items[c]).risks <==> CandidateRaises(ref, items, risk)
  {
    OnlyThere(ref, items, c);
    GateRisks(items[c].value.value.gate, items[c].id.value, risk);
    MetricsRisks(ref, items[c].id.value, items[c].value.value, risk);
    ItemParts(ref, items[c]);
    hide SelectedAt, ShowsAt, CandidateAt, ReviewGate, ReviewMetrics, GateRaises, Crosses, WindowsKnown, ReviewItem, IsCandidate;
  }

  lemma ItemParts(ref: Reference, item: Item)
    requires item.id.Some? && item.value.Some?
    ensures ReviewItem(ref, item).risks
         == if IsCandidate(ref, item) then ReviewGate(item.value.value.gate, item.id.value).risks
                                           + ReviewMetrics(ref, item.id.value, item.value.value).risks
            else []
  {
    hide ReviewGate, ReviewMetrics, CandidatePrefix;
  }

  lemma CandidateRisks(ref: Reference, items: seq<Item>, risk: Risk)
    ensures risk in ReviewCandidate(ref, items).risks <==> CandidateRaises(ref, items, risk)
  {
    SelectedFound(ref, items);
    hide SelectedItems, ReviewItem;
    if c: nat :| SelectedAt(ref, items, c) {
      hide SelectedAt;
      ItemRisks(ref, items, c, risk);
    } else {
      assert forall c: nat :: ShowsAt(ref, items, c) ==> SelectedAt(ref, items, c);
      assert forall c: nat :: CandidateAt(ref, items, c) ==> SelectedAt(ref, items, c);
      hide SelectedAt, ShowsAt, CandidateAt, Crosses, GateRaises;
    }
  }

  lemma ReviewRaises(ref: Reference, items: seq<Item>, risk: Risk)
    ensures risk in Review(ref, items).risks <==> Raises(ref, items, risk)
  {
    hide ReviewQuality, ReviewCandidate, DataRaises, GateRaises, Crosses, QualityAt, CandidateAt, ShowsAt;
    QualityRisks(ref, items, risk);
    CandidateRisks(ref, items, risk);
  }

  lemma {:induction false} AllRaise(refs: seq<Reference>, items: seq<Item>, risk: Risk)
    ensures risk in ReviewAll(refs, items).risks <==> exists i :: 0 <= i < |refs| && Raises(refs[i], items, risk)
  {
    hide Review, Raises;
    if refs != [] {
      var n := |refs| - 1;
      AllRaise(refs[..n], items, risk);
      ReviewRaises(refs[n], items, risk);
      assert forall i :: 0 <= i < n ==> refs[..n][i] == refs[i];
    }
  }

  /**
   A risk is reported exactly when the hash does not match, the boundary is wrong, or the evidence of some reference
   gives rise to it, with its severity and the id of the item it comes from.
   */
  lemma RisksExactly(b: Bundle, digest: Body -> string, risk: Risk)
    requires b.body.items.Some?
    ensures risk in Assess(b, digest).risks
       <==> || (risk == Risk(Critical, HashMismatch, []) && b.evidenceHash != digest(b.body))
            || (risk == Risk(Critical, BoundaryInvalid, []) && !b.body.boundarySafe)
            || exists i :: 0 <= i < |References(b.body)| && Raises(References(b.body)[i], b.body.items.value, risk)
  {
    AllRaise(References(b.body), b.body.items.value, risk);
    OpeningRisks(b, digest, risk);
    hide References, Raises, Opening, ReviewAll, ConsistencyOf, Signatures, Distinct;
  }

  lemma OpeningRisks(b: Bundle, digest: Body -> string, risk: Risk)
    ensures risk in Opening(b, digest).risks
       <==> || (risk == Risk(Critical, HashMismatch, []) && b.evidenceHash != digest(b.body))
            || (risk == Risk(Critical, BoundaryInvalid, []) && !b.body.boundarySafe)
  {
    hide ReferenceGaps;
  }

  // ---------------------------------------------------------------- gaps

  const PRIMARY_GAP := "primaryExperiment reference is missing or invalid."
  const COMPARISONS_GAP := "comparisonExperiments must be an array of valid references."

  function ComparisonGap(i: nat): string {
    "comparisonExperiments[" + Decimal(i) + "] reference is invalid."
  }

  function QualityGap(experiment: string): string {
    experiment + " data quality evidence is missing."
  }

  function SelectionGap(experiment: string): string {
    experiment + " must have exactly one selected candidate evidence item."
  }

  function ConflictGap(experiment: string): string {
    experiment + " selected candidate reference, evidence id, and value conflict."
  }

  function ValidationGap(experiment: string): string {
    experiment + " validationMetrics evidence is missing or incomplete."
  }

  function TestGap(experiment: string): string {
    experiment + " testMetrics evidence is missing or incomplete."
  }

  function WindowsGap(experiment: string): string {
    experiment + " walkForward evidence is missing or incomplete."
  }

  /** The evidence of the reference is missing something, and this is the sentence that says so. */
  ghost predicate Lacks(ref: Reference, items: seq<Item>, gap: string) {
    || (gap == QualityGap(ref.experimentId)
        && forall q: nat :: QualityAt(ref, items, q) ==> items[q].value.None?)
    || (gap == SelectionGap(ref.experimentId)
        && forall c: nat :: !SelectedAt(ref, items, c))
    || (gap == ConflictGap(ref.experimentId)
        && exists c: nat :: SelectedAt(ref, items, c) && !CandidateAt(ref, items, c))
    || exists c: nat :: CandidateAt(ref, items, c) && LacksMetrics(ref.experimentId, items[c].value.value, gap)
  }

  predicate LacksMetrics(experiment: string, v: Value, gap: string) {
    || (gap == ValidationGap(experiment) && v.validation.None?)
    || (gap == TestGap(experiment) && v.test.None?)
    || (gap == WindowsGap(experiment)
        && (v.windows.None? || v.windows.value == [] || None in v.windows.value))
  }

  lemma QualityGaps(ref: Reference, items: seq<Item>, gap: string)
    ensures gap in ReviewQuality(ref, items).gaps
       <==> gap == QualityGap(ref.experimentId)
            && forall q: nat :: QualityAt(ref, items, q) ==> items[q].value.None?
  {
    QualityFound(ref, items);
    hide QualityItem, QualityAt, BindingValid, QualityId;
  }

  lemma MetricsGaps(ref: Reference, id: string, v: Value, gap: string)
    ensures gap in ReviewMetrics(ref, id, v).gaps <==> LacksMetrics(ref.experimentId, v, gap)
  {
    WindowsAgree(v);
    hide WindowsKnown, MostFail, Direction, Lost;
  }

  lemma CandidateGaps(ref: Reference, items: seq<Item>, gap: string)
    ensures gap in ReviewCandidate(ref, items).gaps
       <==> || (gap == SelectionGap(ref.experimentId)
                && forall c: nat :: !SelectedAt(ref, items, c))
            || (gap == ConflictGap(ref.experimentId)
                && exists c: nat :: SelectedAt(ref, items, c) && !CandidateAt(ref, items, c))
            || exists c: nat :: CandidateAt(ref, items, c) && LacksMetrics(ref.experimentId, items[c].value.value, gap)
  {
    SelectedFound(ref, items);
    hide SelectedItems, ReviewItem, LacksMetrics, CandidatePrefix, ReviewMetrics;
    SelectionGapText(ref, items);
    if c: nat :| SelectedAt(ref, items, c) {
      OnlyThere(ref, items, c);
      ItemGaps(ref, items[c]);
      MetricsGaps(ref, items[c].id.value, items[c].value.value, gap);
      hide SelectedAt, CandidateAt, IsCandidate, SelectionGap, ConflictGap, ReviewCandidate;
    } else {
      assert forall c: nat :: CandidateAt(ref, items, c) ==> SelectedAt(ref, items, c);
      hide SelectedAt, CandidateAt, SelectionGap, ConflictGap, ReviewCandidate;
    }
  }

  lemma SelectionGapText(ref: Reference, items: seq<Item>)
    ensures var selected := SelectedItems(items, ref.experimentId);
            ReviewCandidate(ref, items).gaps
            == if |selected| == 1 then ReviewItem(ref, selected[0]).gaps else [SelectionGap(ref.experimentId)]
  {
    hide SelectedItems, ReviewItem;
  }

  lemma ItemGaps(ref: Reference, item: Item)
    requires item.id.Some? && item.value.Some?
    ensures ReviewItem(ref, item).gaps
         == if IsCandidate(ref, item) then ReviewMetrics(ref, item.id.value, item.value.value).gaps else [ConflictGap(ref.experimentId)]
  {
    NoGateGaps(item.value.value.gate, item.id.value);
    hide ReviewGate, ReviewMetrics, CandidatePrefix;
  }

  lemma NoGateGaps(gate: Option<Gate>, id: string)
    ensures ReviewGate(gate, id).gaps == []
  {
  }

  lemma {:induction false} AllLack(refs: seq<Reference>, items: seq<Item>, gap: string)
    ensures gap in ReviewAll(refs, items).gaps <==> exists i :: 0 <= i < |refs| && Lacks(refs[i], items, gap)
  {
    hide ReviewQuality, ReviewCandidate, SelectedAt, CandidateAt, QualityAt, LacksMetrics, QualityGap, SelectionGap, ConflictGap;
    if refs != [] {
      var n := |refs| - 1;
      AllLack(refs[..n], items, gap);
      QualityGaps(refs[n], items, gap);
      CandidateGaps(refs[n], items, gap);
      assert forall i :: 0 <= i < n ==> refs[..n][i] == refs[i];
      assert gap in Review(refs[n], items).gaps <==> Lacks(refs[n], items, gap);
    }
    hide Lacks, Review;
  }

  lemma {:induction false} DistinctKeeps(s: seq<string>)
    ensures forall text :: text in Distinct(s) <==> text in s
  {
    if s != [] {
      DistinctKeeps(s[..|s| - 1]);
      assert s == s[..|s| - 1] + [s[|s| - 1]];
    }
  }

  /** A gap is reported exactly when it is about a reference that is no reference, or some reference's evidence lacks something. */
  lemma GapsExactly(b: Bundle, digest: Body -> string, gap: string)
    requires b.body.items.Some?
    ensures gap in Assess(b, digest).gaps
       <==> || (gap == PRIMARY_GAP && !IsReference(b.body.primary))
            || (gap == COMPARISONS_GAP && b.body.comparisons.None?)
            || (exists i: nat :: i < |Comparisons(b.body)| && !IsReference(Comparisons(b.body)[i])
                  && gap == ComparisonGap(i))
            || exists i :: 0 <= i < |References(b.body)| && Lacks(References(b.body)[i], b.body.items.value, gap)
  {
    AllLack(References(b.body), b.body.items.value, gap);
    DistinctKeeps(AllFindings(b, digest).gaps);
    InvalidComparisons(Comparisons(b.body), gap);
    hide References, Lacks, ReviewAll, ConsistencyOf, Signatures, Distinct, IsReference, ComparisonGaps, Comparisons, ComparisonGap;
  }

  lemma {:induction false} InvalidComparisons(comparisons: seq<Option<Reference>>, gap: string)
    ensures gap in ComparisonGaps(comparisons)
       <==> exists i: nat :: i < |comparisons| && !IsReference(comparisons[i])
              && gap == ComparisonGap(i)
  {
    hide IsReference, Decimal;
    if comparisons != [] {
      var n := |comparisons| - 1;
      assert ComparisonGap(n) == "comparisonExperiments[" + Decimal(n) + "] reference is invalid.";
      hide ComparisonGap;
      InvalidComparisons(comparisons[..n], gap);
      assert forall i: nat :: i < n ==> comparisons[..n][i] == comparisons[i];
    }
  }
}
