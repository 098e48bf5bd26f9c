/**
 The version-2 review record: how the service writes it and how the store's validator reads it. The two were
 written apart; the lemmas at the end say exactly when a written record is accepted.
 */
module ReviewRecord {
  import opened Prelude
  import opened ReviewStance
  import opened Texts

  // ---------------------------------------------------------------- values

  datatype Provider = Local | OpenAi | Compatible | Ollama

  datatype Template = V1 | V2 | V3 | V4

  datatype Status = Completed | Failed | Skipped

  datatype ErrorCode =
    | NotConfigured
    | ProviderFailed
    | Timeout
    | HttpError
    | ResponseTooLarge
    | InvalidJson
    | InvalidSchema
    | ExecutionSemantics
    | UnknownReference

  /** A recorded provider error. A diagnostic names the rejected field; its other parts are fixed. */
  datatype Failure = Failure(code: ErrorCode, message: string, diagnostic: Option<string>)

  /** A provider's assessment, before or after validation. */
  datatype ReplyRisk = ReplyRisk(severity: string, message: string, references: seq<string>)

  datatype Reply = Reply(
    stance: string,
    summary: string,
    risks: seq<ReplyRisk>,
    invalidations: seq<string>,
    watchItems: seq<string>,
    gaps: seq<string>,
    consistency: string)

  datatype External = External(
    provider: Provider,
    model: Option<string>,
    base: Option<string>,
    template: Template,
    prompt: string,
    promptHash: string,
    evidenceHash: string,
    status: Status,
    endpointHash: Option<string>,
    requestHash: Option<string>,
    responseHash: Option<string>,
    reply: Option<Reply>,
    usage: Option<map<string, int>>,
    latency: int,
    error: Option<Failure>)

  datatype Content = Content(
    id: string,
    createdAt: string,
    mode: Mode,
    primary: Option<Reference>,
    comparisons: Option<seq<Option<Reference>>>,
    lineageKey: string,
    evidence: Bundle,
    evidenceHash: string,
    deterministic: Assessment,
    external: External,
    boundarySafe: bool)

  datatype Record = Record(content: Content, recordHash: string)

  /** The values whose canonical form is hashed. */
  datatype Canon =
    | OfText(text: string)
    | OfBody(body: Body)
    | OfRequest(provider: Provider, model: string, endpointHash: string, template: Template, promptHash: string, evidenceHash: string)
    | OfReply(reply: Reply, usage: map<string, int>)
    | OfContent(content: Content)

  /** What the model does not look inside: hashing, URL rules, text screening, prompt rendering, field-by-field checks. */
  datatype World = World(
    sha: Canon -> string,
    sanitized: string -> Option<string>,
    validated: string -> Option<string>,
    secret: string -> bool,
    redacted: string -> string,
    prompt: (Bundle, Template) -> Option<string>,
    retitled: string -> string,
    canonicalTime: string -> bool,
    referenceOk: Reference -> bool,
    itemOk: Item -> bool)

  const NOT_CONFIGURED := "The selected AI review provider is not configured."
  const EXECUTION_FAILED := "Provider execution failed."
  const REQUEST_FAILED := "Provider request failed."
  const OPENAI_BASE := "https://api.openai.com/v1"
  const OPENAI_ENDPOINT := "https://api.openai.com/v1/responses"
  const KINDS := {"experiment_context", "strategy_definition", "data_quality", "completed_klines", "candidate_metrics"}
  const MAX_DETAIL := 500

  // ---------------------------------------------------------------- text

  function Bounded(s: string): string {
    if |s| > MAX_DETAIL then s[..MAX_DETAIL] else s
  }

  predicate IsReviewId(s: string) {
    |s| == 42 && s[..10] == "ai-review-" && forall i :: 10 <= i < 42 ==> '0' <= s[i] <= '9' || 'a' <= s[i] <= 'f'
  }

  function TrimSlashes(s: string): string {
    if s != "" && s[|s| - 1] == '/' then TrimSlashes(s[..|s| - 1]) else s
  }

  // ---------------------------------------------------------------- checks both sides run

  predicate ReferenceChecked(world: World, r: Option<Reference>) {
    r.Some? && Trimmed(r.value.experimentId) && Trimmed(r.value.candidateId) && world.referenceOk(r.value)
  }

  /** References, their number, their ids and the mode. */
  predicate ReferencesChecked(world: World, mode: Mode, primary: Option<Reference>, comparisons: Option<seq<Option<Reference>>>) {
    && ReferenceChecked(world, primary) && comparisons.Some? && |comparisons.value| <= 4
    && (forall i :: 0 <= i < |comparisons.value| ==> ReferenceChecked(world, comparisons.value[i]))
    && (forall i, j :: 0 <= i < j < |comparisons.value| ==>
          comparisons.value[i].value.experimentId != comparisons.value[j].value.experimentId)
    && (forall i :: 0 <= i < |comparisons.value| ==> comparisons.value[i].value.experimentId != primary.value.experimentId)
    && (mode == Single <==> comparisons.value == [])
  }

  predicate ItemsChecked(world: World, items: seq<Item>) {
    && items != []
    && (forall i :: 0 <= i < |items| ==>
          && items[i].id.Some? && Trimmed(items[i].id.value) && items[i].kind in KINDS && items[i].value.Some?
          && world.itemOk(items[i]))
    && (forall i, j :: 0 <= i < j < |items| ==> items[i].id != items[j].id)
  }

  /** `validate_ai_review_evidence_bundle`. */
  predicate BundleChecked(world: World, b: Bundle) {
    && ReferencesChecked(world, b.body.mode, b.body.primary, b.body.comparisons)
    && IsSha256(b.body.lineageKey)
    && b.body.items.Some? && ItemsChecked(world, b.body.items.value)
    && b.body.boundarySafe
    && IsSha256(b.evidenceHash) && b.evidenceHash == world.sha(OfBody(b.body))
  }

  /** The ids of the items a prompt shows: unselected candidates only under the first template. */
  function ShownIds(items: seq<Item>, template: Template): set<string> {
    set i | 0 <= i < |items| && items[i].id.Some? && items[i].value.Some? && items[i].kind in KINDS
            && (items[i].kind == "candidate_metrics" ==> template == V1 || items[i].value.value.selected)
      :: items[i].id.value
  }

  /** `expected_ai_review_provider_endpoint` for an external provider. */
  function Endpoint(world: World, provider: Provider, base: Option<string>): Option<string> {
    if provider == Local || base.None? || world.validated(base.value) != base then None
    else if provider == OpenAi then (if base.value == OPENAI_BASE then Some(OPENAI_ENDPOINT) else None)
    else Some(TrimSlashes(base.value) + if provider == Compatible then "/chat/completions" else "/api/chat")
  }

  predicate Enumerated(s: string, allowed: set<string>) {
    Text(s) && s in allowed
  }

  predicate TextList(s: seq<string>) {
    |s| <= MAX_ITEMS && forall i :: 0 <= i < |s| ==> Text(s[i])
  }

  /** `validate_assessment` on a provider's reply. */
  predicate ReplyValid(reply: Reply, known: set<string>) {
    && Enumerated(reply.stance, {"supported", "caution", "blocked", "insufficient_evidence"})
    && Text(reply.summary)
    && Enumerated(reply.consistency, {"consistent", "mixed", "divergent", "insufficient"})
    && |reply.risks| <= MAX_ITEMS
    && (forall i :: 0 <= i < |reply.risks| ==>
          && Enumerated(reply.risks[i].severity, {"low", "medium", "high", "critical"})
          && Text(reply.risks[i].message) && TextList(reply.risks[i].references)
          && forall k :: 0 <= k < |reply.risks[i].references| ==> reply.risks[i].references[k] in known)
    && TextList(reply.invalidations) && TextList(reply.watchItems) && TextList(reply.gaps)
  }

  predicate UsageValid(usage: map<string, int>) {
    && usage.Keys <= {"inputTokens", "outputTokens", "totalTokens"}
    && forall key :: key in usage ==> usage[key] >= 0
  }

  // ---------------------------------------------------------------- the writer

  datatype ProviderStatus = ProviderStatus(configured: bool, model: Option<string>, base: Option<string>)

  /** What asking the provider comes to: a reply, a provider error as it was raised, or any other exception. */
  datatype Outcome =
    | Replied(provider: Provider, model: string, base: string, reply: Reply, usage: map<string, int>, latency: int)
    | Refused(code: ErrorCode, detail: string, diagnostic: Option<string>)
    | Crashed

  /** A registered provider; its endpoint is None when reading it raises. */
  datatype Client = Client(endpoint: Option<string>, outcome: Outcome)

  function SafeBase(world: World, status: Option<ProviderStatus>): Option<string> {
    if status.Some? && status.value.base.Some? && world.sanitized(status.value.base.value) == status.value.base
    then status.value.base else None
  }

  function ModelOf(status: Option<ProviderStatus>): Option<string> {
    if status.Some? then status.value.model else None
  }

  function Base(world: World, provider: Provider, model: Option<string>, base: Option<string>, prompt: string, evidenceHash: string)
    : External
  {
    External(provider, model, base, V4, prompt, world.sha(OfText(prompt)), evidenceHash, Skipped, None, None, None, None, None, 0, None)
  }

  function Unconfigured(base: External): External {
    base.(status := Failed, error := Some(Failure(NotConfigured, NOT_CONFIGURED, None)))
  }

  /** The detail a provider error keeps: redacted, cut and never empty. */
  function ErrorDetail(world: World, detail: string): string {
    var cut := Bounded(world.redacted(detail));
    if cut == "" then "provider_error" else cut
  }

  /** `_bounded_provider_error_message`. */
  function ErrorMessage(world: World, detail: string): string {
    var cut := Bounded(Strip(detail));
    if cut == "" || world.secret(cut) then REQUEST_FAILED else cut
  }

  predicate ProviderCode(code: ErrorCode) {
    code != NotConfigured && code != ProviderFailed
  }

  function RequestHash(world: World, x: External, model: string, endpointHash: string): string {
    world.sha(OfRequest(x.provider, model, endpointHash, x.template, x.promptHash, x.evidenceHash))
  }

  /** The outcome of a provider that was asked. */
  function Asked(world: World, base: External, model: string, ids: set<string>, outcome: Outcome, elapsed: int): External {
    var late := if elapsed > 0 then elapsed else 0;
    var crashed := base.(status := Failed, latency := late, error := Some(Failure(ProviderFailed, EXECUTION_FAILED, None)));
    match outcome
    case Crashed => crashed
    case Refused(code, detail, diagnostic) =>
      if !ProviderCode(code) then crashed
      else
        base.(status := Failed, latency := late,
              error := Some(Failure(code, ErrorMessage(world, ErrorDetail(world, detail)), diagnostic)))
    case Replied(provider, answeredModel, answeredBase, reply, usage, latency) =>
      if provider != base.provider || answeredModel != model || Some(answeredBase) != base.base
         || !ReplyValid(reply, ids) || !UsageValid(usage) || latency < 0
      then crashed
      else
        base.(status := Completed, responseHash := Some(world.sha(OfReply(reply, usage))), reply := Some(reply),
              usage := Some(usage), latency := latency)
  }

  /** `_attempt_external`. */
  function Attempt(world: World, provider: Provider, evidenceHash: string, prompt: string, ids: set<string>,
                   status: Option<ProviderStatus>, client: Option<Client>, elapsed: int): External
  {
    var safeBase := SafeBase(world, status);
    var base := Base(world, provider, ModelOf(status), safeBase, prompt, evidenceHash);
    if status.None? || !status.value.configured || client.None? || status.value.model.None? then Unconfigured(base)
    else
      var endpoint := Endpoint(world, provider, safeBase);
      if endpoint.None? then Unconfigured(base)
      else
        var model, endpointHash := status.value.model.value, world.sha(OfText(endpoint.value));
        var addressed := base.(endpointHash := Some(endpointHash), requestHash := Some(RequestHash(world, base, model, endpointHash)));
        if client.value.endpoint != endpoint
        then addressed.(status := Failed, error := Some(Failure(ProviderFailed, EXECUTION_FAILED, None)))
        else Asked(world, addressed, model, ids, client.value.outcome, elapsed)
  }

  datatype ServiceError = InvalidRequest | EvidenceConflict | PromptRejected

  /** `create_review`, up to the call of the store. */
  function Create(world: World, id: string, now: string, provider: Provider, approved: bool, b: Bundle,
                  status: Option<ProviderStatus>, client: Option<Client>, elapsed: int): Result<Record, ServiceError>
  {
    if approved == (provider == Local) then Err(InvalidRequest)
    else if !BundleChecked(world, b) then Err(EvidenceConflict)
    else
      var assessed := Evaluate(b, (body: Body) => world.sha(OfBody(body)));
      var prompt := if provider == Local then Some("") else world.prompt(b, V4);
      if assessed.Err? then Err(EvidenceConflict)
      else if prompt.None? then Err(PromptRejected)
      else
        var external :=
          if provider == Local then Base(world, Local, None, None, "", b.evidenceHash)
          else Attempt(world, provider, b.evidenceHash, prompt.value, ShownIds(b.body.items.value, V4), status, client, elapsed);
        var content := Content(id, now, b.body.mode, b.body.primary, b.body.comparisons, b.body.lineageKey, b, b.evidenceHash,
                               assessed.value, external, true);
        Ok(Record(content, world.sha(OfContent(content))))
  }

  // ---------------------------------------------------------------- the validator

  predicate FailureAccepted(world: World, error: Option<Failure>) {
    && error.Some?
    && Trimmed(error.value.message) && |error.value.message| <= MAX_DETAIL
    && (error.value.diagnostic.Some? ==> error.value.code == ExecutionSemantics)
    && !world.secret(error.value.message)
  }

  predicate NothingSent(x: External) {
    && x.endpointHash.None? && x.requestHash.None? && x.responseHash.None? && x.reply.None? && x.usage.None? && x.latency == 0
  }

  /** The prompt is the one the evidence renders to, with evidence in it; records of the first template may be transitional. */
  predicate PromptAccepted(world: World, x: External, b: Bundle, known: set<string>)
    requires b.body.items.Some?
  {
    var rendered := world.prompt(b, x.template);
    var transitional := x.template == V1 && rendered != Some(x.prompt);
    var second := world.prompt(b, V2);
    var ids := RenderedIds(world, x, b);
    && rendered.Some?
    && (if transitional then second.Some? && x.prompt == world.retitled(second.value) else x.prompt == rendered.value)
    && ids != {} && ids <= known
  }

  function RenderedIds(world: World, x: External, b: Bundle): set<string>
    requires b.body.items.Some?
  {
    ShownIds(b.body.items.value, if x.template == V1 && world.prompt(b, V1) != Some(x.prompt) then V2 else x.template)
  }

  /** `_validate_external_assessment`. */
  predicate ExternalAccepted(world: World, x: External, b: Bundle, known: set<string>)
    requires b.body.items.Some?
  {
    && x.promptHash == world.sha(OfText(x.prompt)) && x.evidenceHash == b.evidenceHash && x.latency >= 0
    && if x.status == Skipped then
         x.provider == Local && x.model.None? && x.base.None? && x.prompt == "" && NothingSent(x) && x.error.None?
       else
         && x.provider != Local
         && PromptAccepted(world, x, b, known)
         && if x.status == Failed && x.error.Some? && x.error.value.code == NotConfigured then
              && NothingSent(x)
              && (x.model.Some? ==> Trimmed(x.model.value))
              && (x.base.Some? ==> Endpoint(world, x.provider, x.base).Some?)
              && FailureAccepted(world, x.error)
            else
              && x.model.Some? && Trimmed(x.model.value)
              && AddressAccepted(world, x)
              && if x.status == Failed then
                   x.responseHash.None? && x.reply.None? && x.usage.None? && FailureAccepted(world, x.error)
                 else
                   && x.error.None?
                   && x.reply.Some? && ReplyValid(x.reply.value, RenderedIds(world, x, b))
                   && x.usage.Some? && UsageValid(x.usage.value)
                   && x.responseHash == Some(world.sha(OfReply(x.reply.value, x.usage.value)))
  }

  predicate AddressAccepted(world: World, x: External)
    requires x.model.Some?
  {
    var endpoint := Endpoint(world, x.provider, x.base);
    && endpoint.Some?
    && x.endpointHash.Some? && IsSha256(x.endpointHash.value) && x.endpointHash.value == world.sha(OfText(endpoint.value))
    && x.requestHash == Some(RequestHash(world, x, x.model.value, x.endpointHash.value))
  }

  datatype RecordError =
    | IdInvalid
    | TimeInvalid
    | ReferencesInvalid
    | LineageInvalid
    | EvidenceHashInvalid
    | BundleInvalid
    | EvidenceHashMismatch
    | BindingInvalid
    | DeterministicInvalid
    | ExternalInvalid
    | BoundaryInvalidRecord
    | RecordHashMismatch

  /** Every id in the bundle: the validator's set of known evidence. */
  function ItemIds(items: seq<Item>): set<string> {
    set i | 0 <= i < |items| && items[i].id.Some? :: items[i].id.value
  }

  /** `_normalize_authoritative_ai_review_record`: the first check that fails. */
  function Validate(world: World, record: Record): Option<RecordError> {
    var c := record.content;
    if !IsReviewId(c.id) then Some(IdInvalid)
    else if !world.canonicalTime(c.createdAt) then Some(TimeInvalid)
    else if !ReferencesChecked(world, c.mode, c.primary, c.comparisons) then Some(ReferencesInvalid)
    else if !IsSha256(c.lineageKey) then Some(LineageInvalid)
    else if !IsSha256(c.evidenceHash) then Some(EvidenceHashInvalid)
    else if !BundleChecked(world, c.evidence) then Some(BundleInvalid)
    else if c.evidenceHash != c.evidence.evidenceHash then Some(EvidenceHashMismatch)
    else if c.evidence.body.mode != c.mode || c.evidence.body.lineageKey != c.lineageKey
            || c.evidence.body.primary != c.primary || c.evidence.body.comparisons != c.comparisons
    then Some(BindingInvalid)
    else
      var known := ItemIds(c.evidence.body.items.value);
      if AssessmentError(c.deterministic, known).Some? then Some(DeterministicInvalid)
      else if !ExternalAccepted(world, c.external, c.evidence, known) then Some(ExternalInvalid)
      else if !c.boundarySafe then Some(BoundaryInvalidRecord)
      else if !IsSha256(record.recordHash) || record.recordHash != world.sha(OfContent(c)) then Some(RecordHashMismatch)
      else None
  }
}
