/**
 The deterministic engine as it runs: loops over comparisons and references that grow the risks, the gaps and the
 signatures, then the validation of the finished assessment.
 */
module ReviewEngine {
  import opened Prelude
  import opened ReviewStance
  import opened Texts

  /** `_review_experiment_references`. */
  method ExperimentReferences(body: Body) returns (refs: seq<Reference>, gaps: seq<string>)
    ensures refs == References(body) && gaps == ReferenceGaps(body)
  {
    gaps := [];
    if !IsReference(body.primary) {
      gaps := gaps + ["primaryExperiment reference is missing or invalid."];
    }
    if body.comparisons.None? {
      gaps := gaps + ["comparisonExperiments must be an array of valid references."];
    }
    var comparisons := Comparisons(body);
    var valid: seq<Reference> := [];
    ghost var opening := gaps;
    for i := 0 to |comparisons|
      invariant valid == ValidComparisons(comparisons[..i])
      invariant gaps == opening + ComparisonGaps(comparisons[..i])
    {
      assert comparisons[..i + 1][..i] == comparisons[..i];
      if IsReference(comparisons[i]) {
        valid := valid + [comparisons[i].value];
      } else {
        gaps := gaps + ["comparisonExperiments[" + Decimal(i) + "] reference is invalid."];
      }
    }
    assert comparisons[..|comparisons|] == comparisons;
    refs := if IsReference(body.primary) then [body.primary.value] + valid else [];
  }

  /** `validate_assessment`: the first thing wrong with the risks, then with the gaps. */
  method ValidateAssessment(a: Assessment, known: set<string>) returns (e: Option<EvidenceError>)
    ensures e == AssessmentError(a, known)
  {
    if |a.risks| > MAX_ITEMS {
      return Some(RisksInvalid);
    }
    ghost var risky := (i: nat) => if i < |a.risks| then RiskError(a.risks[i], known) else None;
    for i := 0 to |a.risks|
      invariant FirstError(i, risky).None?
    {
      e := ValidateRisk(a.risks[i], known);
      if e.Some? {
        FirstErrorStays(i + 1, |a.risks|, risky);
        return;
      }
    }
    if |a.gaps| > MAX_ITEMS {
      return Some(GapsInvalid);
    }
    ghost var empty := (i: nat) => if i < |a.gaps| && !Text(a.gaps[i]) then Some(GapInvalid) else None;
    for i := 0 to |a.gaps|
      invariant FirstError(i, empty).None?
    {
      if !Text(a.gaps[i]) {
        FirstErrorStays(i + 1, |a.gaps|, empty);
        return Some(GapInvalid);
      }
    }
    e := None;
  }

  method ValidateRisk(risk: Risk, known: set<string>) returns (e: Option<EvidenceError>)
    ensures e == RiskError(risk, known)
  {
    if |risk.references| > MAX_ITEMS {
      return Some(ReferenceInvalid);
    }
    ghost var wrong := (i: nat) =>
      if i >= |risk.references| then None
      else if !Text(risk.references[i]) then Some(ReferenceInvalid)
      else if risk.references[i] !in known then Some(ReferenceUnknown)
      else None;
    for i := 0 to |risk.references|
      invariant FirstError(i, wrong).None?
    {
      if !Text(risk.references[i]) {
        FirstErrorStays(i + 1, |risk.references|, wrong);
        return Some(ReferenceInvalid);
      }
      if risk.references[i] !in known {
        FirstErrorStays(i + 1, |risk.references|, wrong);
        return Some(ReferenceUnknown);
      }
    }
    e := None;
  }

  /** The loop over references: each adds what its two checks find. */
  method ReviewReferences(refs: seq<Reference>, items: seq<Item>) returns (found: Findings, signatures: map<string, Signature>)
    ensures found.blocked == ReviewAll(refs, items).blocked && found.risks == ReviewAll(refs, items).risks
    ensures found.gaps == ReviewAll(refs, items).gaps && signatures == Signatures(refs, items)
  {
    hide ReviewQuality, ReviewCandidate;
    var blocked, risks: seq<Risk>, gaps: seq<string> := false, [], [];
    signatures := map[];
    for i := 0 to |refs|
      invariant blocked == ReviewAll(refs[..i], items).blocked && risks == ReviewAll(refs[..i], items).risks
      invariant gaps == ReviewAll(refs[..i], items).gaps && signatures == Signatures(refs[..i], items)
    {
      assert refs[..i + 1][..i] == refs[..i];
      var quality := ReviewQuality(refs[i], items);
      var candidate := ReviewCandidate(refs[i], items);
      blocked := blocked || quality.blocked || candidate.blocked;
      risks, gaps := risks + (quality.risks + candidate.risks), gaps + (quality.gaps + candidate.gaps);
      QualityHasNoSignature(refs[i], items);
      if candidate.signature.Some? {
        signatures := signatures[refs[i].experimentId := candidate.signature.value];
      }
    }
    assert refs[..|refs|] == refs;
    found := Findings(blocked, risks, gaps, None);
  }

  /** `evaluate`: the bundle's own checks, the loop over references, the stance, and the validation of the result. */
  method EvaluateBundle(b: Bundle, digest: Body -> string) returns (r: Result<Assessment, EvidenceError>)
    ensures r == Evaluate(b, digest)
  {
    if b.body.items.None? {
      return Err(ItemsNotArray);
    }
    var items := b.body.items.value;
    var refs, gaps := ExperimentReferences(b.body);
    var blocked, risks: seq<Risk> := false, [];
    if b.evidenceHash != digest(b.body) {
      blocked, risks := true, risks + [Risk(Critical, HashMismatch, [])];
    }
    if !b.body.boundarySafe {
      blocked, risks := true, risks + [Risk(Critical, BoundaryInvalid, [])];
    }
    assert blocked == Opening(b, digest).blocked && risks == Opening(b, digest).risks && gaps == Opening(b, digest).gaps;
    hide Opening, ReviewAll, References, Signatures, ConsistencyOf, AssessmentError, KnownIds, Distinct;
    var found, signatures := ReviewReferences(refs, items);
    blocked, risks, gaps := blocked || found.blocked, risks + found.risks, gaps + found.gaps;
    var stance := if blocked then Blocked else if gaps != [] then Insufficient else if risks != [] then Caution else Supported;
    var assessment := Assessment(stance, risks, Distinct(gaps), ConsistencyOf(refs, signatures));
    assert assessment == Assess(b, digest);
    var e := ValidateAssessment(assessment, KnownIds(items));
    r := if e.Some? then Err(e.value) else Ok(assessment);
  }

  lemma QualityHasNoSignature(ref: Reference, items: seq<Item>)
    ensures ReviewQuality(ref, items).signature.None?
  {
  }

  // ---------------------------------------------------------------- citations

  predicate HasId(items: seq<Item>, id: string) {
    exists i :: 0 <= i < |items| && items[i].id == Some(id)
  }

  predicate Cites(risk: Risk, items: seq<Item>) {
    forall n :: 0 <= n < |risk.references| ==> HasId(items, risk.references[n])
  }

  predicate Cited(risks: seq<Risk>, items: seq<Item>) {
    forall k :: 0 <= k < |risks| ==> Cites(risks[k], items)
  }

  lemma {:induction false} QualityItemIsThere(items: seq<Item>, experiment: string)
    requires QualityItem(items, experiment).Some?
    ensures HasId(items, QualityId(experiment))
  {
    hide QualityId;
    if !IsQuality(items[0], experiment) {
      QualityItemIsThere(items[1..], experiment);
      var i :| 0 <= i < |items[1..]| && items[1..][i].id == Some(QualityId(experiment));
      assert items[i + 1].id == Some(QualityId(experiment));
    }
  }

  lemma {:induction false} SelectedAreThere(items: seq<Item>, experiment: string)
    ensures forall k :: 0 <= k < |SelectedItems(items, experiment)| ==> SelectedItems(items, experiment)[k] in items
  {
    hide IsSelected;
    if items != [] {
      SelectedAreThere(items[1..], experiment);
    }
  }

  lemma CitesQuality(ref: Reference, items: seq<Item>)
    ensures Cited(ReviewQuality(ref, items).risks, items)
  {
    hide QualityId, BindingValid;
    if QualityItem(items, ref.experimentId).Some? {
      QualityItemIsThere(items, ref.experimentId);
    }
  }

  predicate CitesOnly(risks: seq<Risk>, id: string) {
    forall k :: 0 <= k < |risks| ==> risks[k].references == [id]
  }

  lemma CitesGate(gate: Option<Gate>, id: string)
    ensures CitesOnly(ReviewGate(gate, id).risks, id)
  {
  }

  lemma CitesMetrics(ref: Reference, id: string, v: Value)
    ensures CitesOnly(ReviewMetrics(ref, id, v).risks, id)
  {
  }

  lemma CitesItem(ref: Reference, item: Item)
    requires item.id.Some? && item.value.Some?
    ensures CitesOnly(ReviewItem(ref, item).risks, item.id.value)
  {
    CitesGate(item.value.value.gate, item.id.value);
    CitesMetrics(ref, item.id.value, item.value.value);
    hide ReviewGate, ReviewMetrics, CandidatePrefix;
  }

  lemma CitesCandidate(ref: Reference, items: seq<Item>)
    ensures Cited(ReviewCandidate(ref, items).risks, items)
  {
    var selected := SelectedItems(items, ref.experimentId);
    SelectedAreThere(items, ref.experimentId);
    if |selected| == 1 && selected[0].id.Some? && selected[0].value.Some? {
      CitesItem(ref, selected[0]);
      var i :| 0 <= i < |items| && items[i] == selected[0];
      hide ReviewItem, IsSelected;
      assert HasId(items, selected[0].id.value);
    }
  }

  lemma CitedTogether(first: seq<Risk>, second: seq<Risk>, items: seq<Item>)
    requires Cited(first, items) && Cited(second, items)
    ensures Cited(first + second, items)
  {
  }

  lemma {:induction false} CitesAll(refs: seq<Reference>, items: seq<Item>)
    ensures Cited(ReviewAll(refs, items).risks, items)
  {
    if refs != [] {
      var n := |refs| - 1;
      CitesAll(refs[..n], items);
      CitesQuality(refs[n], items);
      CitesCandidate(refs[n], items);
      hide ReviewQuality, ReviewCandidate, Cited;
      CitedTogether(ReviewQuality(refs[n], items).risks, ReviewCandidate(refs[n], items).risks, items);
      CitedTogether(ReviewAll(refs[..n], items).risks, Review(refs[n], items).risks, items);
    }
  }

  lemma {:induction false} FirstErrorIsSomeError<E>(n: nat, check: nat -> Option<E>)
    requires FirstError(n, check).Some?
    ensures exists i: nat :: i < n && check(i) == FirstError(n, check)
  {
    if FirstError(n - 1, check).Some? {
      FirstErrorIsSomeError(n - 1, check);
      var i: nat :| i < n - 1 && check(i) == FirstError(n - 1, check);
      assert check(i) == FirstError(n, check);
    } else {
      assert check(n - 1) == FirstError(n, check);
    }
  }

  lemma CitedIsKnown(a: Assessment, items: seq<Item>)
    requires Cited(a.risks, items)
    ensures AssessmentError(a, KnownIds(items)) != Some(ReferenceUnknown)
  {
    var known := KnownIds(items);
    forall k: nat | k < |a.risks| ensures RiskError(a.risks[k], known) != Some(ReferenceUnknown) {
      RiskIsKnown(a, items, k);
    }
    var risky := (i: nat) => if i < |a.risks| then RiskError(a.risks[i], known) else None;
    var empty := (i: nat) => if i < |a.gaps| && !Text(a.gaps[i]) then Some(GapInvalid) else None;
    if FirstError(|a.risks|, risky).Some? {
      FirstErrorIsSomeError(|a.risks|, risky);
    }
    if FirstError(|a.gaps|, empty).Some? {
      FirstErrorIsSomeError(|a.gaps|, empty);
    }
    hide RiskError, Text;
  }

  lemma RiskIsKnown(a: Assessment, items: seq<Item>, k: nat)
    requires Cited(a.risks, items) && k < |a.risks|
    ensures RiskError(a.risks[k], KnownIds(items)) != Some(ReferenceUnknown)
  {
    var risk, known := a.risks[k], KnownIds(items);
    var wrong := (i: nat) =>
      if i >= |risk.references| then None
      else if !Text(risk.references[i]) then Some(ReferenceInvalid)
      else if risk.references[i] !in known then Some(ReferenceUnknown)
      else None;
    assert Cites(risk, items);
    forall n: nat | n < |risk.references| ensures wrong(n) != Some(ReferenceUnknown) {
      assert HasId(items, risk.references[n]);
      var i :| 0 <= i < |items| && items[i].id == Some(risk.references[n]);
      assert !Blank(risk.references[n]) ==> items[i].id.value in known;
    }
    if FirstError(|risk.references|, wrong).Some? {
      FirstErrorIsSomeError(|risk.references|, wrong);
    }
  }

  lemma CitesOpening(b: Bundle, digest: Body -> string, items: seq<Item>)
    ensures Cited(Opening(b, digest).risks, items)
  {
    hide ReferenceGaps;
  }

  /** The engine never cites evidence the bundle does not hold, so its own validation never fails for that reason. */
  lemma NeverCitesUnknown(b: Bundle, digest: Body -> string)
    ensures Evaluate(b, digest) != Err(ReferenceUnknown)
  {
    if b.body.items.Some? {
      var items := b.body.items.value;
      CitesAll(References(b.body), items);
      CitesOpening(b, digest, items);
      hide Opening, ReviewAll, References, Signatures, ConsistencyOf, AssessmentError, Cited, Distinct;
      CitedTogether(Opening(b, digest).risks, ReviewAll(References(b.body), items).risks, items);
      CitedIsKnown(Assess(b, digest), items);
    }
  }
}
