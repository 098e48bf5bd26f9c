/**
 The record the service writes against the record the store accepts: for every valid bundle and every provider
 outcome, exactly when the two agree.
 */
module ReviewAgreement {
  import opened Prelude
  import opened ReviewStance
  import opened ReviewRecord
  import opened Texts

  /** Hashes are 64 hexadecimal digits, and the writer's own sentences pass its secret screen. */
  ghost predicate Sane(world: World) {
    && (forall c :: IsSha256(world.sha(c)))
    && !world.secret(NOT_CONFIGURED) && !world.secret(EXECUTION_FAILED) && !world.secret(REQUEST_FAILED)
  }

  /** The provider is configured, found at the expected endpoint, and asked. */
  predicate Reached(world: World, provider: Provider, status: Option<ProviderStatus>, client: Option<Client>) {
    && status.Some? && status.value.configured && client.Some? && status.value.model.Some?
    && Endpoint(world, provider, SafeBase(world, status)).Some?
    && client.value.endpoint == Endpoint(world, provider, SafeBase(world, status))
  }

  /**
   What the registry and the provider must meet: some evidence reaches the prompt, a registered model name is
   trimmed and non-empty, a registered base URL has an endpoint, and only a refusal for execution semantics
   carries a diagnostic.
   */
  predicate Fit(world: World, provider: Provider, b: Bundle, status: Option<ProviderStatus>, client: Option<Client>)
    requires b.body.items.Some?
  {
    && ShownIds(b.body.items.value, V4) != {}
    && (ModelOf(status).Some? ==> Trimmed(ModelOf(status).value))
    && (SafeBase(world, status).Some? ==> Endpoint(world, provider, SafeBase(world, status)).Some?)
    && (Reached(world, provider, status, client) ==> OutcomeFit(client.value.outcome))
  }

  predicate OutcomeFit(outcome: Outcome) {
    outcome.Refused? && ProviderCode(outcome.code) && outcome.diagnostic.Some? ==> outcome.code == ExecutionSemantics
  }

  // ---------------------------------------------------------------- text

  /** A provider error's detail is cut before it is stripped, so the message is never cut in the middle of space. */
  lemma MessageIsTrimmed(world: World, detail: string)
    requires Sane(world)
    ensures var message := ErrorMessage(world, ErrorDetail(world, detail));
            Trimmed(message) && |message| <= MAX_DETAIL && !world.secret(message)
  {
    var kept := ErrorDetail(world, detail);
    assert |kept| <= MAX_DETAIL by {
      hide Sane;
      assert |"provider_error"| == 14;
    }
    StripTrims(kept);
    FixedMessages();
    hide Strip, ErrorDetail, Trimmed;
  }

  lemma FixedMessages()
    ensures Trimmed(NOT_CONFIGURED) && |NOT_CONFIGURED| <= MAX_DETAIL
    ensures Trimmed(EXECUTION_FAILED) && |EXECUTION_FAILED| <= MAX_DETAIL
    ensures Trimmed(REQUEST_FAILED) && |REQUEST_FAILED| <= MAX_DETAIL
  {
    assert "The selected AI review pro"[0] == 'T';
  }

  // ---------------------------------------------------------------- the external part

  lemma LocalAccepted(world: World, b: Bundle)
    requires b.body.items.Some?
    ensures ExternalAccepted(world, Base(world, Local, None, None, "", b.evidenceHash), b, ItemIds(b.body.items.value))
  {
  }

  /** The unconfigured record is accepted exactly when the registered model and base URL are fit. */
  lemma UnconfiguredAccepted(world: World, x: External, b: Bundle)
    requires Sane(world) && b.body.items.Some? && x.provider != Local
    requires x == Base(world, x.provider, x.model, x.base, x.prompt, b.evidenceHash) && world.prompt(b, V4) == Some(x.prompt)
    ensures ExternalAccepted(world, Unconfigured(x), b, ItemIds(b.body.items.value))
       <==> && ShownIds(b.body.items.value, V4) != {}
            && (x.model.Some? ==> Trimmed(x.model.value))
            && (x.base.Some? ==> Endpoint(world, x.provider, x.base).Some?)
  {
    FixedMessages();
    hide Trimmed;
  }

  /** A record that names its endpoint and request, before the outcome is known. */
  predicate Addressed(world: World, x: External, b: Bundle) {
    && x.provider != Local && x.template == V4 && world.prompt(b, V4) == Some(x.prompt)
    && x.promptHash == world.sha(OfText(x.prompt)) && x.evidenceHash == b.evidenceHash
    && x.model.Some? && Endpoint(world, x.provider, x.base).Some?
    && x.endpointHash == Some(world.sha(OfText(Endpoint(world, x.provider, x.base).value)))
    && x.requestHash == Some(RequestHash(world, x, x.model.value, x.endpointHash.value))
    && x.responseHash.None? && x.reply.None? && x.usage.None? && x.latency == 0 && x.error.None?
  }

  lemma FailureIsAccepted(world: World, x: External, b: Bundle, latency: int, failure: Failure)
    requires Sane(world) && b.body.items.Some? && Addressed(world, x, b) && latency >= 0
    requires failure.code != NotConfigured
    requires Trimmed(failure.message) && |failure.message| <= MAX_DETAIL && !world.secret(failure.message)
    ensures ExternalAccepted(world, x.(status := Failed, latency := latency, error := Some(failure)), b, ItemIds(b.body.items.value))
       <==> && ShownIds(b.body.items.value, V4) != {} && Trimmed(x.model.value)
            && (failure.diagnostic.Some? ==> failure.code == ExecutionSemantics)
  {
  }

  lemma ReplyIsAccepted(world: World, x: External, b: Bundle, reply: Reply, usage: map<string, int>, latency: int)
    requires Sane(world) && b.body.items.Some? && Addressed(world, x, b) && latency >= 0
    requires ReplyValid(reply, ShownIds(b.body.items.value, V4)) && UsageValid(usage)
    ensures ExternalAccepted(world,
                             x.(status := Completed, responseHash := Some(world.sha(OfReply(reply, usage))), reply := Some(reply),
                                usage := Some(usage), latency := latency), b, ItemIds(b.body.items.value))
       <==> ShownIds(b.body.items.value, V4) != {} && Trimmed(x.model.value)
  {
  }

  lemma AskedAccepted(world: World, x: External, b: Bundle, outcome: Outcome, elapsed: int)
    requires Sane(world) && b.body.items.Some? && Addressed(world, x, b)
    ensures ExternalAccepted(world,
                             Asked(world, x, x.model.value, ShownIds(b.body.items.value, V4), outcome, elapsed),
                             b, ItemIds(b.body.items.value))
       <==> ShownIds(b.body.items.value, V4) != {} && Trimmed(x.model.value) && OutcomeFit(outcome)
  {
    hide ExternalAccepted, Addressed, ReplyValid, UsageValid, Trimmed, ErrorMessage, ErrorDetail;
    var late := if elapsed > 0 then elapsed else 0;
    FixedMessages();
    FailureIsAccepted(world, x, b, late, Failure(ProviderFailed, EXECUTION_FAILED, None));
    match outcome
    case Crashed =>
    case Refused(code, detail, diagnostic) =>
      MessageIsTrimmed(world, detail);
      if ProviderCode(code) {
        FailureIsAccepted(world, x, b, late, Failure(code, ErrorMessage(world, ErrorDetail(world, detail)), diagnostic));
      }
    case Replied(provider, model, base, reply, usage, latency) =>
      if ReplyValid(reply, ShownIds(b.body.items.value, V4)) && UsageValid(usage) && latency >= 0 {
        ReplyIsAccepted(world, x, b, reply, usage, latency);
      }
  }

  /** What `_attempt_external` writes is accepted exactly when the registry and the provider are fit. */
  lemma AttemptAccepted(world: World, provider: Provider, b: Bundle, prompt: string, status: Option<ProviderStatus>,
                        client: Option<Client>, elapsed: int)
    requires Sane(world) && b.body.items.Some? && provider != Local && world.prompt(b, V4) == Some(prompt)
    ensures ExternalAccepted(world,
                             Attempt(world, provider, b.evidenceHash, prompt, ShownIds(b.body.items.value, V4), status, client, elapsed),
                             b, ItemIds(b.body.items.value))
       <==> Fit(world, provider, b, status, client)
  {
    hide ExternalAccepted, Endpoint, Trimmed, SafeBase, Asked, ShownIds, ItemIds;
    var safeBase := SafeBase(world, status);
    var base := Base(world, provider, ModelOf(status), safeBase, prompt, b.evidenceHash);
    UnconfiguredAccepted(world, base, b);
    var endpoint := Endpoint(world, provider, safeBase);
    if status.Some? && status.value.configured && client.Some? && status.value.model.Some? && endpoint.Some? {
      var model, endpointHash := status.value.model.value, world.sha(OfText(endpoint.value));
      var x := base.(endpointHash := Some(endpointHash), requestHash := Some(RequestHash(world, base, model, endpointHash)));
      assert Addressed(world, x, b);
      FixedMessages();
      FailureIsAccepted(world, x, b, 0, Failure(ProviderFailed, EXECUTION_FAILED, None));
      AskedAccepted(world, x, b, client.value.outcome, elapsed);
    }
  }

  // ---------------------------------------------------------------- the whole record

  lemma SameKnownIds(world: World, items: seq<Item>)
    requires ItemsChecked(world, items)
    ensures KnownIds(items) == ItemIds(items)
  {
  }

  /** Whatever the external part, the rest of a written record always passes. */
  lemma RestIsAccepted(world: World, id: string, now: string, b: Bundle, deterministic: Assessment, external: External)
    requires Sane(world) && IsReviewId(id) && world.canonicalTime(now) && BundleChecked(world, b)
    requires AssessmentError(deterministic, KnownIds(b.body.items.value)).None?
    ensures var content := Content(id, now, b.body.mode, b.body.primary, b.body.comparisons, b.body.lineageKey, b, b.evidenceHash,
                                   deterministic, external, true);
            && Validate(world, Record(content, world.sha(OfContent(content)))) in {None, Some(ExternalInvalid)}
            && (Validate(world, Record(content, world.sha(OfContent(content)))).None?
                <==> ExternalAccepted(world, external, b, ItemIds(b.body.items.value)))
  {
    SameKnownIds(world, b.body.items.value);
    hide ExternalAccepted, AssessmentError, ReferencesChecked, ItemsChecked, KnownIds, ItemIds, IsReviewId, IsSha256;
  }

  /** The request can be met: its bundle is checked and assessed, and its prompt renders. */
  predicate Reviewable(world: World, provider: Provider, approved: bool, b: Bundle) {
    && approved != (provider == Local)
    && BundleChecked(world, b)
    && Evaluate(b, (body: Body) => world.sha(OfBody(body))).Ok?
    && (provider == Local || world.prompt(b, V4).Some?)
  }

  lemma AssessedIsValid(b: Bundle, digest: Body -> string)
    requires Evaluate(b, digest).Ok?
    ensures b.body.items.Some? && AssessmentError(Evaluate(b, digest).value, KnownIds(b.body.items.value)).None?
  {
  }

  /**
   A record is written exactly for a reviewable request, and accepted exactly when the provider is local or fit;
   otherwise its external part is what is refused.
   */
  lemma WriterAgreesWithValidator(world: World, id: string, now: string, provider: Provider, approved: bool, b: Bundle,
                                  status: Option<ProviderStatus>, client: Option<Client>, elapsed: int)
    requires Sane(world) && IsReviewId(id) && world.canonicalTime(now)
    ensures var written := Create(world, id, now, provider, approved, b, status, client, elapsed);
            && (written.Ok? <==> Reviewable(world, provider, approved, b))
            && (written.Ok? ==>
                  Validate(world, written.value)
                  == if provider == Local || Fit(world, provider, b, status, client) then None else Some(ExternalInvalid))
  {
    var written := Create(world, id, now, provider, approved, b, status, client, elapsed);
    if written.Ok? {
      LocalAccepted(world, b);
      if provider != Local {
        AttemptAccepted(world, provider, b, world.prompt(b, V4).value, status, client, elapsed);
      }
      AssessedIsValid(b, (body: Body) => world.sha(OfBody(body)));
      var c := written.value.content;
      hide ExternalAccepted, Attempt, Evaluate, AssessmentError, BundleChecked, Fit, KnownIds, ItemIds, ShownIds, Validate, Base;
      RestIsAccepted(world, id, now, b, c.deterministic, c.external);
    }
  }
}
