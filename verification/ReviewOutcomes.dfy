/** What the record says of each thing that can happen to a provider, and what it keeps of the bundle. */
module ReviewOutcomes {
  import opened Prelude
  import opened ReviewStance
  import opened ReviewRecord
  import opened Texts
  import opened ReviewAgreement

  /** Only the outcome is filled in; who was asked, and what, stays. */
  predicate SameRequest(x: External, y: External) {
    && y.provider == x.provider && y.model == x.model && y.base == x.base && y.template == x.template && y.prompt == x.prompt
    && y.promptHash == x.promptHash && y.evidenceHash == x.evidenceHash
    && y.endpointHash == x.endpointHash && y.requestHash == x.requestHash
  }

  /** A failed outcome with this error and nothing of a reply. */
  predicate FailsWith(x: External, y: External, error: Failure) {
    && SameRequest(x, y) && y.status == Failed && y.error == Some(error)
    && y.reply == x.reply && y.usage == x.usage && y.responseHash == x.responseHash
  }

  /** What a refusal is called: its own code, unless it is none that a provider may raise. */
  predicate OwnCode(code: ErrorCode) {
    code in {Timeout, HttpError, ResponseTooLarge, InvalidJson, InvalidSchema, ExecutionSemantics, UnknownReference}
  }

  /** The detail as it is shown: redacted, at most 500 characters, stripped; a fixed sentence if nothing or a secret is left. */
  predicate ShownAs(world: World, detail: string, message: string) {
    var redacted := if world.redacted(detail) == "" then "provider_error" else world.redacted(detail);
    var shown := Strip(if |redacted| > 500 then redacted[..500] else redacted);
    message == if shown == "" || world.secret(shown) then "Provider request failed." else shown
  }

  /** The answer is the asked provider's, valid, and cites only what it was shown. */
  predicate Usable(x: External, model: string, ids: set<string>, outcome: Outcome)
    requires outcome.Replied?
  {
    && outcome.provider == x.provider && outcome.model == model && x.base == Some(outcome.base) && outcome.latency >= 0
    && ReplyValid(outcome.reply, ids) && UsageValid(outcome.usage)
  }

  /**
   A usable reply is recorded as it came; a refusal keeps its code and diagnostic and shows its detail; everything else
   is a failure of the provider. Time is recorded from the reply or, on a failure, from the clock, never below zero.
   */
  lemma AskedExactly(world: World, x: External, model: string, ids: set<string>, outcome: Outcome, elapsed: int)
    ensures SameRequest(x, Asked(world, x, model, ids, outcome, elapsed))
    ensures var y := Asked(world, x, model, ids, outcome, elapsed);
            match outcome
            case Replied(_, _, _, reply, usage, latency) =>
              if Usable(x, model, ids, outcome) then
                && SameRequest(x, y) && y.status == Completed && y.reply == Some(reply) && y.usage == Some(usage)
                && y.latency == latency && y.error == x.error && y.responseHash == Some(world.sha(OfReply(reply, usage)))
              else
                FailsWith(x, y, Failure(ProviderFailed, "Provider execution failed.", None)) && IsLatency(y, elapsed)
            case Refused(code, detail, diagnostic) =>
              && IsLatency(y, elapsed)
              && (OwnCode(code) ==> exists message :: ShownAs(world, detail, message) && FailsWith(x, y, Failure(code, message, diagnostic)))
              && (!OwnCode(code) ==> FailsWith(x, y, Failure(ProviderFailed, "Provider execution failed.", None)))
            case Crashed =>
              FailsWith(x, y, Failure(ProviderFailed, "Provider execution failed.", None)) && IsLatency(y, elapsed)
  {
    hide ReplyValid, UsageValid, Strip;
    match outcome
    case Replied(_, _, _, _, _, _) =>
    case Crashed =>
    case Refused(code, detail, diagnostic) =>
      assert OwnCode(code) <==> ProviderCode(code);
      var message := ErrorMessage(world, ErrorDetail(world, detail));
      MessageShows(world, detail);
      assert OwnCode(code) ==> FailsWith(x, Asked(world, x, model, ids, outcome, elapsed), Failure(code, message, diagnostic));
  }

  lemma AskedKeeps(world: World, x: External, model: string, ids: set<string>, outcome: Outcome, elapsed: int)
    ensures SameRequest(x, Asked(world, x, model, ids, outcome, elapsed))
  {
    AskedExactly(world, x, model, ids, outcome, elapsed);
    hide Asked;
  }

  predicate IsLatency(y: External, elapsed: int) {
    y.latency == if elapsed < 0 then 0 else elapsed
  }

  lemma MessageShows(world: World, detail: string)
    ensures ShownAs(world, detail, ErrorMessage(world, ErrorDetail(world, detail)))
  {
    var cut := ErrorDetail(world, detail);
    StripTrims(cut);
    hide Strip;
    assert |"provider_error"| == 14;
  }

  /**
   What makes a reply valid: one of four stances, one of four consistencies, short non-blank texts, at most 50 of each
   kind, references to shown evidence only.
   */
  lemma ValidReply(reply: Reply, known: set<string>)
    ensures ReplyValid(reply, known)
       <==> && reply.stance in {"supported", "caution", "blocked", "insufficient_evidence"}
            && reply.consistency in {"consistent", "mixed", "divergent", "insufficient"}
            && ShortText(reply.summary) && ShortTexts(reply.invalidations) && ShortTexts(reply.watchItems) && ShortTexts(reply.gaps)
            && |reply.risks| <= 50
            && forall i :: 0 <= i < |reply.risks| ==>
                 && reply.risks[i].severity in {"low", "medium", "high", "critical"} && ShortText(reply.risks[i].message)
                 && ShortTexts(reply.risks[i].references)
                 && forall k :: 0 <= k < |reply.risks[i].references| ==> reply.risks[i].references[k] in known
  {
    EnumeratedTexts();
    assert {"supported", "caution", "blocked", "insufficient_evidence"} <= WORDS;
    assert {"consistent", "mixed", "divergent", "insufficient"} <= WORDS && {"low", "medium", "high", "critical"} <= WORDS;
    hide Space;
  }

  predicate ShortText(s: string) {
    |s| <= 2000 && exists i :: 0 <= i < |s| && !Space(s[i])
  }

  predicate ShortTexts(s: seq<string>) {
    |s| <= 50 && forall i :: 0 <= i < |s| ==> ShortText(s[i])
  }

  const WORDS := {"supported", "caution", "blocked", "insufficient_evidence", "consistent", "mixed", "divergent", "insufficient",
                  "low", "medium", "high", "critical"}

  lemma StartsText(s: string, first: char)
    requires s != "" && s[0] == first && !Space(first) && |s| <= MAX_CHARS
    ensures Text(s)
  {
  }

  lemma EnumeratedTexts()
    ensures forall s :: s in WORDS ==> Text(s)
  {
    StartsText("supported", 's');
    StartsText("caution", 'c');
    StartsText("blocked", 'b');
    StartsText("insufficient_evidence", 'i');
    StartsText("consistent", 'c');
    StartsText("mixed", 'm');
    StartsText("divergent", 'd');
    StartsText("insufficient", 'i');
    StartsText("low", 'l');
    StartsText("medium", 'm');
    StartsText("high", 'h');
    StartsText("critical", 'c');
    hide Text;
  }

  // ---------------------------------------------------------------- the whole attempt

  /** The provider can be addressed: configured, registered, with a model and a base URL of which an endpoint can be made. */
  predicate Addressable(world: World, provider: Provider, status: Option<ProviderStatus>, client: Option<Client>) {
    && status.Some? && status.value.configured && client.Some? && status.value.model.Some?
    && status.value.base.Some? && world.sanitized(status.value.base.value) == status.value.base
    && Endpoint(world, provider, status.value.base).Some?
  }

  /**
   What is recorded of an attempt: always the provider, its registered model and base URL, the prompt and both hashes.
   If it cannot be addressed, that it is not configured, and nothing was sent. Otherwise the hashes of endpoint and
   request; and a failure without delay if its own endpoint is another, or else what came of asking it.
   */
  lemma AttemptExactly(world: World, provider: Provider, evidenceHash: string, prompt: string, ids: set<string>,
                       status: Option<ProviderStatus>, client: Option<Client>, elapsed: int)
    ensures var x := Attempt(world, provider, evidenceHash, prompt, ids, status, client, elapsed);
            && x.provider == provider && x.template == V4 && x.prompt == prompt && x.promptHash == world.sha(OfText(prompt))
            && x.evidenceHash == evidenceHash
            && x.model == (if status.Some? then status.value.model else None)
            && (x.base.Some? ==> status.Some? && x.base == status.value.base && world.sanitized(x.base.value) == x.base)
            && (if !Addressable(world, provider, status, client) then
                  && NothingSent(x) && x.status == Failed
                  && x.error == Some(Failure(NotConfigured, "The selected AI review provider is not configured.", None))
                else
                  var endpoint := Endpoint(world, provider, status.value.base).value;
                  && x.base == status.value.base && x.endpointHash == Some(world.sha(OfText(endpoint)))
                  && x.requestHash == Some(world.sha(OfRequest(provider, x.model.value, x.endpointHash.value, V4, x.promptHash, evidenceHash)))
                  && (if client.value.endpoint != Some(endpoint) then
                        && x.status == Failed && x.latency == 0 && x.reply.None? && x.usage.None? && x.responseHash.None?
                        && x.error == Some(Failure(ProviderFailed, "Provider execution failed.", None))
                      else
                        exists y :: SameRequest(x, y) && y.reply.None? && y.usage.None? && y.responseHash.None? && y.error.None?
                                    && x == Asked(world, y, x.model.value, ids, client.value.outcome, elapsed)))
  {
    assert Endpoint(world, provider, None).None?;
    hide Endpoint, Asked;
    var safeBase := SafeBase(world, status);
    if Addressable(world, provider, status, client) {
      var base := Base(world, provider, ModelOf(status), safeBase, prompt, evidenceHash);
      var endpointHash := world.sha(OfText(Endpoint(world, provider, safeBase).value));
      var y := base.(endpointHash := Some(endpointHash), requestHash := Some(RequestHash(world, base, status.value.model.value, endpointHash)));
      AskedKeeps(world, y, status.value.model.value, ids, client.value.outcome, elapsed);
    }
  }

  /** An endpoint can be made of a base URL that passes its check unchanged: for OpenAI of its own only, otherwise by appending the path. */
  lemma EndpointMeans(world: World, provider: Provider, base: Option<string>, endpoint: string)
    ensures Endpoint(world, provider, base) == Some(endpoint)
       <==> && provider != Local && base.Some? && world.validated(base.value) == base
            && (provider == OpenAi ==> base.value == "https://api.openai.com/v1" && endpoint == "https://api.openai.com/v1/responses")
            && (provider == Compatible ==> exists trimmed :: Trims(base.value, trimmed) && endpoint == trimmed + "/chat/completions")
            && (provider == Ollama ==> exists trimmed :: Trims(base.value, trimmed) && endpoint == trimmed + "/api/chat")
  {
    if base.Some? {
      TrimmedSlashes(base.value);
    }
    hide TrimSlashes, Trims;
  }

  /** The text without the slashes at its end. */
  ghost predicate Trims(s: string, trimmed: string) {
    && trimmed <= s && (trimmed == "" || trimmed[|trimmed| - 1] != '/')
    && forall i :: |trimmed| <= i < |s| ==> s[i] == '/'
  }

  lemma {:induction false} TrimmedSlashes(s: string)
    ensures Trims(s, TrimSlashes(s)) && forall t :: Trims(s, t) ==> t == TrimSlashes(s)
  {
    if s != "" && s[|s| - 1] == '/' {
      TrimmedSlashes(s[..|s| - 1]);
    }
    forall t | Trims(s, t) ensures t == TrimSlashes(s) {
      var u := TrimSlashes(s);
      assert u != "" ==> u[|u| - 1] == s[|u| - 1];
      assert t != "" ==> t[|t| - 1] == s[|t| - 1];
    }
  }

  /** A written record binds the bundle, the engine's own assessment of it and the attempt, under the given id and time, sealed by its hash. */
  lemma CreatedRecord(world: World, id: string, now: string, provider: Provider, approved: bool, b: Bundle,
                      status: Option<ProviderStatus>, client: Option<Client>, elapsed: int)
    ensures var written := Create(world, id, now, provider, approved, b, status, client, elapsed);
            written.Ok? ==>
              var c := written.value.content;
              && written.value.recordHash == world.sha(OfContent(c)) && c.id == id && c.createdAt == now
              && c.evidence == b && c.evidenceHash == b.evidenceHash && c.mode == b.body.mode && c.lineageKey == b.body.lineageKey
              && c.primary == b.body.primary && c.comparisons == b.body.comparisons && c.boundarySafe
              && b.body.items.Some? && c.deterministic == Assess(b, (body: Body) => world.sha(OfBody(body)))
              && (provider == Local ==> c.external.status == Skipped && c.external.provider == Local && NothingSent(c.external))
              && (provider != Local ==>
                    && world.prompt(b, V4).Some?
                    && c.external == Attempt(world, provider, b.evidenceHash, world.prompt(b, V4).value,
                                             ShownIds(b.body.items.value, V4), status, client, elapsed))
  {
    hide Attempt, Assess, BundleChecked, AssessmentError, ShownIds;
  }

  // ---------------------------------------------------------------- what the store accepts

  /** The completed part of an accepted record: a valid reply to what was shown, under the hashes of what was asked and answered. */
  predicate ReplyIntact(world: World, x: External, shown: set<string>) {
    && x.reply.Some? && x.usage.Some? && x.error.None? && ReplyValid(x.reply.value, shown) && UsageValid(x.usage.value)
    && x.responseHash == Some(world.sha(OfReply(x.reply.value, x.usage.value)))
  }

  /** It names an endpoint that can be made of its base URL, and the request by its hash. */
  predicate RequestIntact(world: World, x: External) {
    && x.model.Some? && Endpoint(world, x.provider, x.base).Some?
    && x.endpointHash == Some(world.sha(OfText(Endpoint(world, x.provider, x.base).value)))
    && x.requestHash == Some(world.sha(OfRequest(x.provider, x.model.value, x.endpointHash.value, x.template, x.promptHash, x.evidenceHash)))
  }

  /**
   Nothing in an accepted record can be changed on its own: the record's hash is its content's, the bundle's hash its
   body's, references and mode are the bundle's, and prompt, request and reply are under their hashes.
   */
  lemma AcceptedIsIntact(world: World, record: Record)
    requires Validate(world, record).None?
    ensures var c, x := record.content, record.content.external;
            && record.recordHash == world.sha(OfContent(c))
            && c.evidenceHash == c.evidence.evidenceHash == world.sha(OfBody(c.evidence.body))
            && c.mode == c.evidence.body.mode && c.lineageKey == c.evidence.body.lineageKey
            && c.primary == c.evidence.body.primary && c.comparisons == c.evidence.body.comparisons
            && c.boundarySafe && c.evidence.body.boundarySafe && c.evidence.body.items.Some?
            && AssessmentError(c.deterministic, ItemIds(c.evidence.body.items.value)).None?
            && x.promptHash == world.sha(OfText(x.prompt)) && x.evidenceHash == c.evidenceHash && x.latency >= 0
            && (x.status == Skipped <==> x.provider == Local)
            && (x.provider == Local ==> NothingSent(x) && x.error.None? && x.prompt == "")
            && (x.status == Completed ==> RequestIntact(world, x) && ReplyIntact(world, x, RenderedIds(world, x, c.evidence)))
            && (x.status == Failed ==> x.error.Some? && x.reply.None? && x.usage.None? && x.responseHash.None?
                                         && (RequestIntact(world, x) || (NothingSent(x) && x.error.value.code == NotConfigured)))
  {
    hide AssessmentError, ReferencesChecked, ItemsChecked, ReplyValid, UsageValid, Endpoint, IsSha256, Trimmed, ItemIds, ShownIds;
  }
}
