/**
 The deterministic review engine: what it reads from an evidence bundle, the findings of one experiment
 reference, and the stance the findings add up to.
 */
module ReviewStance {
  import opened Prelude
  import opened Texts

  // ---------------------------------------------------------------- evidence

  datatype Metrics = Metrics(totalReturn: real, maxDrawdown: real, tradeCount: real)

  datatype Completion = GatePassed | TestFailed | OtherReason

  /** The formal gate fields, present together or not at all; an entry that is not a boolean reads as None. */
  datatype Gate = Gate(pretest: Option<bool>, test: Option<bool>, completion: Completion, passed: Option<bool>)

  /** The value of an evidence item. Metrics are None unless all three numbers are finite. */
  datatype Value = Value(
    isComplete: bool,
    dataHash: Option<string>,
    startAt: Option<string>,
    endAt: Option<string>,
    selected: bool,
    candidateId: Option<string>,
    gate: Option<Gate>,
    validation: Option<Metrics>,
    test: Option<Metrics>,
    windows: Option<seq<Option<real>>>)

  datatype Item = Item(id: Option<string>, kind: string, value: Option<Value>)

  datatype Range = Range(startAt: Option<string>, endAt: Option<string>)

  datatype Reference = Reference(experimentId: string, candidateId: string, dataHash: Option<string>, range: Option<Range>)

  datatype Mode = Single | Comparison

  /** Everything the evidence hash covers. None stands for a reference that is missing or of the wrong shape. */
  datatype Body = Body(
    mode: Mode,
    lineageKey: string,
    primary: Option<Reference>,
    comparisons: Option<seq<Option<Reference>>>,
    items: Option<seq<Item>>,
    boundarySafe: bool)

  datatype Bundle = Bundle(body: Body, evidenceHash: string)

  // ---------------------------------------------------------------- assessment

  datatype Severity = Medium | High | Critical

  datatype Concern =
    | HashMismatch
    | BoundaryInvalid
    | QualityIncomplete
    | BindingConflict
    | GateConflict
    | GateFailed
    | ReturnsReverse
    | DrawdownExceeded
    | TradesTooFew
    | WindowsWeak

  datatype Risk = Risk(severity: Severity, concern: Concern, references: seq<string>)

  datatype Stance = Supported | Caution | Insufficient | Blocked

  datatype Consistency = Consistent | Mixed | Divergent | TooFew

  datatype Assessment = Assessment(stance: Stance, risks: seq<Risk>, gaps: seq<string>, consistency: Consistency)

  datatype EvidenceError =
    | ItemsNotArray
    | RisksInvalid
    | ReferenceInvalid
    | ReferenceUnknown
    | GapsInvalid
    | GapInvalid

  datatype Signature = Signature(
    validation: int, test: int, validationDrawdown: bool, testDrawdown: bool, trades: bool, windows: bool)

  const MAX_ITEMS := 50
  const MAX_CHARS := 2000
  const MIN_TRADES := 10.0
  const MAX_DRAWDOWN := 15.0
  const FAILURE_RATIO := 0.5

  // ---------------------------------------------------------------- text

  predicate Text(s: string) {
    !Blank(s) && |s| <= MAX_CHARS
  }

  predicate IsSha256(s: string) {
    |s| == 64 && forall i :: 0 <= i < |s| ==> '0' <= s[i] <= '9' || 'a' <= s[i] <= 'f'
  }

  /** Python's ordering of strings. */
  predicate NotAfter(s: string, t: string) {
    if s == "" then true
    else if t == "" then false
    else s[0] < t[0] || (s[0] == t[0] && NotAfter(s[1..], t[1..]))
  }

  function Decimal(n: nat): string {
    if n < 10 then [(n as char) + '0'] else Decimal(n / 10) + [((n % 10) as char) + '0']
  }

  function QualityId(experiment: string): string {
    "experiment:" + experiment + ":data-quality"
  }

  function CandidatePrefix(experiment: string): string {
    "experiment:" + experiment + ":candidate:"
  }

  // ---------------------------------------------------------------- one reference

  /** What one check adds: its risks and gaps, whether it blocks, and the signature of a complete experiment. */
  datatype Findings = Findings(blocked: bool, risks: seq<Risk>, gaps: seq<string>, signature: Option<Signature>)

  const NOTHING := Findings(false, [], [], None)

  function Block(concern: Concern, references: seq<string>): Findings {
    Findings(true, [Risk(Critical, concern, references)], [], None)
  }

  function Gap(text: string): Findings {
    Findings(false, [], [text], None)
  }

  function Warn(severity: Severity, concern: Concern, id: string, holds: bool): seq<Risk> {
    if holds then [Risk(severity, concern, [id])] else []
  }

  function Both(a: Findings, b: Findings): Findings {
    Findings(a.blocked || b.blocked, a.risks + b.risks, a.gaps + b.gaps, if b.signature.Some? then b.signature else a.signature)
  }

  predicate IsReference(r: Option<Reference>) {
    r.Some? && !Blank(r.value.experimentId) && !Blank(r.value.candidateId)
  }

  predicate IsQuality(item: Item, experiment: string) {
    item.id == Some(QualityId(experiment)) && item.kind == "data_quality"
  }

  predicate IsSelected(item: Item, experiment: string) {
    && item.kind == "candidate_metrics"
    && item.id.Some? && CandidatePrefix(experiment) <= item.id.value
    && item.value.Some? && item.value.value.selected
  }

  /** The first data-quality item of an experiment. */
  function QualityItem(items: seq<Item>, experiment: string): Option<Item> {
    if items == [] then None
    else if IsQuality(items[0], experiment) then Some(items[0])
    else QualityItem(items[1..], experiment)
  }

  function SelectedItems(items: seq<Item>, experiment: string): seq<Item> {
    if items == [] then []
    else (if IsSelected(items[0], experiment) then [items[0]] else []) + SelectedItems(items[1..], experiment)
  }

  predicate BindingValid(ref: Reference, quality: Value) {
    && quality.dataHash.Some? && IsSha256(quality.dataHash.value) && quality.dataHash == ref.dataHash
    && ref.range.Some?
    && quality.startAt.Some? && quality.startAt.value != "" && quality.endAt.Some? && quality.endAt.value != ""
    && NotAfter(quality.startAt.value, quality.endAt.value)
    && quality.startAt == ref.range.value.startAt && quality.endAt == ref.range.value.endAt
  }

  function ReviewQuality(ref: Reference, items: seq<Item>): Findings {
    var id := QualityId(ref.experimentId);
    match QualityItem(items, ref.experimentId)
    case None => Gap(ref.experimentId + " data quality evidence is missing.")
    case Some(item) =>
      if item.value.None? then Gap(ref.experimentId + " data quality evidence is missing.")
      else
        Both(if item.value.value.isComplete then NOTHING else Block(QualityIncomplete, [id]),
             if BindingValid(ref, item.value.value) then NOTHING else Block(BindingConflict, [id]))
  }

  predicate GateConflicts(gate: Gate) {
    || gate.pretest.None? || gate.test.None? || gate.passed.None? || gate.completion == OtherReason
    || gate.passed != gate.test
    || gate.completion != if gate.test == Some(true) then GatePassed else TestFailed
  }

  function ReviewGate(gate: Option<Gate>, id: string): Findings {
    if gate.None? then NOTHING
    else if GateConflicts(gate.value) then Block(GateConflict, [id])
    else if gate.value.pretest == Some(false) || gate.value.passed == Some(false) then Block(GateFailed, [id])
    else NOTHING
  }

  predicate WindowsKnown(windows: Option<seq<Option<real>>>) {
    windows.Some? && |windows.value| > 0 && forall i :: 0 <= i < |windows.value| ==> windows.value[i].Some?
  }

  function Failures(windows: seq<Option<real>>): nat {
    if windows == [] then 0
    else (if windows[0].Some? && windows[0].value <= 0.0 then 1 else 0) + Failures(windows[1..])
  }

  predicate MostFail(windows: seq<Option<real>>)
    requires |windows| > 0
  {
    Failures(windows) as real / |windows| as real > FAILURE_RATIO
  }

  function Direction(value: real): int {
    if value > 0.0 then 1 else if value < 0.0 then -1 else 0
  }

  function ReviewMetrics(ref: Reference, id: string, v: Value): Findings {
    var gaps := (if v.validation.None? then [ref.experimentId + " validationMetrics evidence is missing or incomplete."] else [])
              + (if v.test.None? then [ref.experimentId + " testMetrics evidence is missing or incomplete."] else [])
              + (if WindowsKnown(v.windows) then [] else [ref.experimentId + " walkForward evidence is missing or incomplete."]);
    if v.validation.None? || v.test.None? || !WindowsKnown(v.windows) then Findings(false, [], gaps, None)
    else
      var a, b := v.validation.value, v.test.value;
      var few := a.tradeCount < MIN_TRADES || b.tradeCount < MIN_TRADES;
      var weak := MostFail(v.windows.value);
      Findings(false,
               Warn(High, ReturnsReverse, id, a.totalReturn * b.totalReturn < 0.0)
               + Warn(High, DrawdownExceeded, id, a.maxDrawdown > MAX_DRAWDOWN || b.maxDrawdown > MAX_DRAWDOWN)
               + Warn(Medium, TradesTooFew, id, few)
               + Warn(High, WindowsWeak, id, weak),
               [],
               Some(Signature(Direction(a.totalReturn), Direction(b.totalReturn),
                              a.maxDrawdown > MAX_DRAWDOWN, b.maxDrawdown > MAX_DRAWDOWN, few, weak)))
  }

  /** The only selected item: it must be the referenced candidate, and then its gate and metrics are reviewed. */
  function ReviewItem(ref: Reference, item: Item): Findings {
    if item.id != Some(CandidatePrefix(ref.experimentId) + ref.candidateId) || item.value.None?
       || item.value.value.candidateId != Some(ref.candidateId)
    then Gap(ref.experimentId + " selected candidate reference, evidence id, and value conflict.")
    else
      Both(ReviewGate(item.value.value.gate, item.id.value), ReviewMetrics(ref, item.id.value, item.value.value))
  }

  function ReviewCandidate(ref: Reference, items: seq<Item>): Findings {
    var selected := SelectedItems(items, ref.experimentId);
    if |selected| != 1 then Gap(ref.experimentId + " must have exactly one selected candidate evidence item.")
    else ReviewItem(ref, selected[0])
  }

  function Review(ref: Reference, items: seq<Item>): Findings {
    Both(ReviewQuality(ref, items), ReviewCandidate(ref, items))
  }

  // ---------------------------------------------------------------- the whole bundle

  function ComparisonGaps(comparisons: seq<Option<Reference>>): seq<string> {
    if comparisons == [] then []
    else
      var n := |comparisons| - 1;
      ComparisonGaps(comparisons[..n])
      + if IsReference(comparisons[n]) then [] else ["comparisonExperiments[" + Decimal(n) + "] reference is invalid."]
  }

  function ValidComparisons(comparisons: seq<Option<Reference>>): seq<Reference> {
    if comparisons == [] then []
    else
      var n := |comparisons| - 1;
      ValidComparisons(comparisons[..n]) + if IsReference(comparisons[n]) then [comparisons[n].value] else []
  }

  function Comparisons(body: Body): seq<Option<Reference>> {
    if body.comparisons.Some? then body.comparisons.value else []
  }

  function References(body: Body): seq<Reference> {
    if IsReference(body.primary) then [body.primary.value] + ValidComparisons(Comparisons(body)) else []
  }

  function ReferenceGaps(body: Body): seq<string> {
    (if IsReference(body.primary) then [] else ["primaryExperiment reference is missing or invalid."])
    + (if body.comparisons.Some? then [] else ["comparisonExperiments must be an array of valid references."])
    + ComparisonGaps(Comparisons(body))
  }

  /** What is wrong before any experiment is looked at. */
  function Opening(b: Bundle, digest: Body -> string): Findings {
    Both(Findings(false, [], ReferenceGaps(b.body), None),
         Both(if b.evidenceHash == digest(b.body) then NOTHING else Block(HashMismatch, []),
              if b.body.boundarySafe then NOTHING else Block(BoundaryInvalid, [])))
  }

  function ReviewAll(refs: seq<Reference>, items: seq<Item>): Findings {
    if refs == [] then NOTHING
    else Both(ReviewAll(refs[..|refs| - 1], items), Review(refs[|refs| - 1], items))
  }

  /** The signature recorded for an experiment, the last one when it is referenced twice. */
  function Signatures(refs: seq<Reference>, items: seq<Item>): map<string, Signature> {
    if refs == [] then map[]
    else
      var ref := refs[|refs| - 1];
      var earlier := Signatures(refs[..|refs| - 1], items);
      var found := Review(ref, items).signature;
      if found.Some? then earlier[ref.experimentId := found.value] else earlier
  }

  function AllFindings(b: Bundle, digest: Body -> string): Findings
    requires b.body.items.Some?
  {
    Both(Opening(b, digest), ReviewAll(References(b.body), b.body.items.value))
  }

  function Conflicts(refs: seq<Reference>, signatures: map<string, Signature>, primary: Signature): nat {
    if refs == [] then 0
    else
      var id := refs[|refs| - 1].experimentId;
      Conflicts(refs[..|refs| - 1], signatures, primary)
      + if id in signatures && signatures[id] == primary then 0 else 1
  }

  function ConsistencyOf(refs: seq<Reference>, signatures: map<string, Signature>): Consistency {
    if |refs| < 2 || exists i :: 0 <= i < |refs| && refs[i].experimentId !in signatures then TooFew
    else
      var conflicts := Conflicts(refs[1..], signatures, signatures[refs[0].experimentId]);
      if conflicts == 0 then Consistent else if conflicts * 2 > |refs| - 1 then Divergent else Mixed
  }

  function StanceOf(f: Findings): Stance {
    if f.blocked then Blocked else if f.gaps != [] then Insufficient else if f.risks != [] then Caution else Supported
  }

  /** `dict.fromkeys`: first occurrences only. */
  function Distinct(s: seq<string>): seq<string> {
    if s == [] then []
    else
      var earlier := Distinct(s[..|s| - 1]);
      if s[|s| - 1] in earlier then earlier else earlier + [s[|s| - 1]]
  }

  function KnownIds(items: seq<Item>): set<string> {
    set i | 0 <= i < |items| && items[i].id.Some? && !Blank(items[i].id.value) :: items[i].id.value
  }

  // ---------------------------------------------------------------- validation

  function RiskError(risk: Risk, known: set<string>): Option<EvidenceError> {
    if |risk.references| > MAX_ITEMS then Some(ReferenceInvalid)
    else
      FirstError(|risk.references|, (i: nat) =>
        if i >= |risk.references| then None
        else if !Text(risk.references[i]) then Some(ReferenceInvalid)
        else if risk.references[i] !in known then Some(ReferenceUnknown)
        else None)
  }

  /** `validate_assessment` on the parts an assessment varies in; the fixed sentences are short texts. */
  function AssessmentError(a: Assessment, known: set<string>): Option<EvidenceError> {
    if |a.risks| > MAX_ITEMS then Some(RisksInvalid)
    else
      var risky := FirstError(|a.risks|, (i: nat) => if i < |a.risks| then RiskError(a.risks[i], known) else None);
      if risky.Some? then risky
      else if |a.gaps| > MAX_ITEMS then Some(GapsInvalid)
      else FirstError(|a.gaps|, (i: nat) => if i < |a.gaps| && !Text(a.gaps[i]) then Some(GapInvalid) else None)
  }

  function Assess(b: Bundle, digest: Body -> string): Assessment
    requires b.body.items.Some?
  {
    var refs, items := References(b.body), b.body.items.value;
    var f := AllFindings(b, digest);
    Assessment(StanceOf(f), f.risks, Distinct(f.gaps), ConsistencyOf(refs, Signatures(refs, items)))
  }

  function Evaluate(b: Bundle, digest: Body -> string): Result<Assessment, EvidenceError> {
    if b.body.items.None? then Err(ItemsNotArray)
    else
      var error := AssessmentError(Assess(b, digest), KnownIds(b.body.items.value));
      if error.Some? then Err(error.value) else Ok(Assess(b, digest))
  }
}
