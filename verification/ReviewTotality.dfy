/**
 The deterministic review never fails on a bundle the service has checked, as long as its ids are short enough for
 the sentences that mention them.
 */
module ReviewTotality {
  import opened Prelude
  import opened ReviewStance
  import opened ReviewRecord
  import opened Texts
  import opened ReviewEngine

  const ROOM := 1900

  /** The ids leave room for the sentences and evidence ids made from them. */
  predicate Short(ref: Reference) {
    !Blank(ref.experimentId) && |ref.experimentId| + |ref.candidateId| <= ROOM
  }

  predicate TextRisk(risk: Risk) {
    |risk.references| <= 1 && forall i :: 0 <= i < |risk.references| ==> Text(risk.references[i])
  }

  /** At most so many risks and gaps, each of them well-formed. */
  predicate Sized(f: Findings, risks: nat, gaps: nat) {
    && |f.risks| <= risks && (forall i :: 0 <= i < |f.risks| ==> TextRisk(f.risks[i]))
    && |f.gaps| <= gaps && forall i :: 0 <= i < |f.gaps| ==> Text(f.gaps[i])
  }

  lemma BothSized(a: Findings, b: Findings, r: nat, g: nat, s: nat, h: nat)
    requires Sized(a, r, g) && Sized(b, s, h)
    ensures Sized(Both(a, b), r + s, g + h)
  {
    hide Text, TextRisk;
  }

  /** A sentence that starts with an id. */
  lemma SentenceIsText(id: string, rest: string)
    requires !Blank(id) && |id| + |rest| <= MAX_CHARS
    ensures Text(id + rest)
  {
    var i :| 0 <= i < |id| && !Space(id[i]);
    assert (id + rest)[i] == id[i];
  }

  /** An evidence id of an experiment. */
  lemma EvidenceIdIsText(id: string)
    requires "experiment:" <= id && |id| <= MAX_CHARS
    ensures Text(id)
  {
    assert id[0] == "experiment:"[0];
  }

  lemma QualitySized(ref: Reference, items: seq<Item>)
    requires Short(ref)
    ensures Sized(ReviewQuality(ref, items), 2, 1)
  {
    SentenceIsText(ref.experimentId, " data quality evidence is missing.");
    EvidenceIdIsText(QualityId(ref.experimentId));
    hide QualityItem, BindingValid, QualityId, Text;
  }

  lemma GateSized(gate: Option<Gate>, id: string)
    requires Text(id)
    ensures Sized(ReviewGate(gate, id), 1, 0)
  {
    hide GateConflicts;
  }

  lemma MetricsSized(ref: Reference, id: string, v: Value)
    requires Short(ref) && Text(id)
    ensures Sized(ReviewMetrics(ref, id, v), 4, 3)
  {
    SentenceIsText(ref.experimentId, " validationMetrics evidence is missing or incomplete.");
    SentenceIsText(ref.experimentId, " testMetrics evidence is missing or incomplete.");
    SentenceIsText(ref.experimentId, " walkForward evidence is missing or incomplete.");
    hide Text, WindowsKnown, MostFail, Blank;
  }

  lemma CandidateIdIsText(ref: Reference)
    requires Short(ref)
    ensures Text(CandidatePrefix(ref.experimentId) + ref.candidateId)
  {
    hide Text, Blank;
    EvidenceIdIsText(CandidatePrefix(ref.experimentId) + ref.candidateId);
  }

  lemma ItemSized(ref: Reference, item: Item)
    requires Short(ref)
    ensures Sized(ReviewItem(ref, item), 5, 3)
  {
    SentenceIsText(ref.experimentId, " selected candidate reference, evidence id, and value conflict.");
    CandidateIdIsText(ref);
    var id := CandidatePrefix(ref.experimentId) + ref.candidateId;
    hide CandidatePrefix, Text, Blank;
    if item.id == Some(id) && item.value.Some? {
      GateSized(item.value.value.gate, id);
      MetricsSized(ref, id, item.value.value);
      hide ReviewGate, ReviewMetrics, Sized;
      BothSized(ReviewGate(item.value.value.gate, id), ReviewMetrics(ref, id, item.value.value), 1, 0, 4, 3);
    }
  }

  lemma CandidateSized(ref: Reference, items: seq<Item>)
    requires Short(ref)
    ensures Sized(ReviewCandidate(ref, items), 5, 3)
  {
    SentenceIsText(ref.experimentId, " must have exactly one selected candidate evidence item.");
    hide ReviewItem, SelectedItems, Text;
    if |SelectedItems(items, ref.experimentId)| == 1 {
      ItemSized(ref, SelectedItems(items, ref.experimentId)[0]);
    }
  }

  lemma {:induction false} AllSized(refs: seq<Reference>, items: seq<Item>)
    requires forall i :: 0 <= i < |refs| ==> Short(refs[i])
    ensures Sized(ReviewAll(refs, items), 7 * |refs|, 4 * |refs|)
  {
    if refs != [] {
      var n := |refs| - 1;
      AllSized(refs[..n], items);
      QualitySized(refs[n], items);
      CandidateSized(refs[n], items);
      hide Sized, ReviewQuality, ReviewCandidate, Short;
      BothSized(ReviewQuality(refs[n], items), ReviewCandidate(refs[n], items), 2, 1, 5, 3);
      BothSized(ReviewAll(refs[..n], items), Review(refs[n], items), 7 * n, 4 * n, 7, 4);
    }
  }

  // ---------------------------------------------------------------- validation

  lemma {:induction false} DistinctMembers(s: seq<string>)
    ensures |Distinct(s)| <= |s| && forall i :: 0 <= i < |Distinct(s)| ==> Distinct(s)[i] in s
  {
    if s != [] {
      DistinctMembers(s[..|s| - 1]);
    }
  }

  lemma RiskIsText(risk: Risk, known: set<string>)
    requires TextRisk(risk)
    ensures RiskError(risk, known) in {None, Some(ReferenceUnknown)}
  {
    var wrong := (i: nat) =>
      if i >= |risk.references| then None
      else if !Text(risk.references[i]) then Some(ReferenceInvalid)
      else if risk.references[i] !in known then Some(ReferenceUnknown)
      else None;
    if FirstError(|risk.references|, wrong).Some? {
      FirstErrorIsSomeError(|risk.references|, wrong);
    }
    hide Text;
  }

  /** The only thing that can be wrong with a sized assessment is a reference to unknown evidence. */
  lemma SizedIsValid(a: Assessment, known: set<string>)
    requires |a.risks| <= MAX_ITEMS && forall i :: 0 <= i < |a.risks| ==> TextRisk(a.risks[i])
    requires |a.gaps| <= MAX_ITEMS && forall i :: 0 <= i < |a.gaps| ==> Text(a.gaps[i])
    ensures AssessmentError(a, known) in {None, Some(ReferenceUnknown)}
  {
    var risky := (i: nat) => if i < |a.risks| then RiskError(a.risks[i], known) else None;
    var empty := (i: nat) => if i < |a.gaps| && !Text(a.gaps[i]) then Some(GapInvalid) else None;
    hide RiskError, Text, TextRisk;
    if FirstError(|a.risks|, risky).Some? {
      FirstErrorIsSomeError(|a.risks|, risky);
      var i: nat :| i < |a.risks| && risky(i) == FirstError(|a.risks|, risky);
      RiskIsText(a.risks[i], known);
    }
    NoErrorIffAllPass(|a.gaps|, empty);
  }

  // ---------------------------------------------------------------- checked bundles

  /** The checked references are the primary experiment and its comparisons, and leave no gap. */
  lemma CheckedReferences(world: World, b: Bundle)
    requires BundleChecked(world, b)
    ensures ReferenceGaps(b.body) == [] && |References(b.body)| == 1 + |b.body.comparisons.value| <= 5
    ensures References(b.body)[0] == b.body.primary.value
    ensures forall i :: 0 <= i < |b.body.comparisons.value| ==> References(b.body)[i + 1] == b.body.comparisons.value[i].value
  {
    hide ItemsChecked, IsSha256;
    TrimmedIsReference(b.body.primary);
    var comparisons := b.body.comparisons.value;
    forall i | 0 <= i < |comparisons| ensures IsReference(comparisons[i]) {
      TrimmedIsReference(comparisons[i]);
    }
    hide IsReference;
    ValidAll(comparisons);
  }

  lemma TrimmedIsReference(r: Option<Reference>)
    requires r.Some? && Trimmed(r.value.experimentId) && Trimmed(r.value.candidateId)
    ensures IsReference(r)
  {
  }

  lemma {:induction false} ValidAll(comparisons: seq<Option<Reference>>)
    requires forall i :: 0 <= i < |comparisons| ==> IsReference(comparisons[i])
    ensures ComparisonGaps(comparisons) == [] && |ValidComparisons(comparisons)| == |comparisons|
    ensures forall i :: 0 <= i < |comparisons| ==> comparisons[i].Some? && ValidComparisons(comparisons)[i] == comparisons[i].value
  {
    hide Blank, Decimal;
    if comparisons != [] {
      ValidAll(comparisons[..|comparisons| - 1]);
    }
  }

  predicate ShortIds(b: Bundle) {
    forall i :: 0 <= i < |References(b.body)| ==> Short(References(b.body)[i])
  }

  /** A checked bundle with short ids is always assessed. */
  lemma CheckedIsAssessed(world: World, b: Bundle)
    requires BundleChecked(world, b) && ShortIds(b)
    ensures Evaluate(b, (body: Body) => world.sha(OfBody(body))).Ok?
  {
    var digest := (body: Body) => world.sha(OfBody(body));
    CheckedReferences(world, b);
    NeverCitesUnknown(b, digest);
    AllSized(References(b.body), b.body.items.value);
    CleanOpening(b, digest);
    DistinctMembers(AllFindings(b, digest).gaps);
    hide Opening, ReviewAll, References, Distinct, AssessmentError, Signatures, ConsistencyOf, BundleChecked, ShortIds, Text, TextRisk;
    SizedIsValid(Assess(b, digest), KnownIds(b.body.items.value));
  }

  lemma CleanOpening(b: Bundle, digest: Body -> string)
    requires ReferenceGaps(b.body) == [] && b.evidenceHash == digest(b.body) && b.body.boundarySafe
    ensures Opening(b, digest).risks == [] && Opening(b, digest).gaps == []
  {
    hide ReferenceGaps;
  }
}
