/**
 The shipped provider registry and adapters: a registry read from the environment and an adapter that turns an answer
 into an outcome always fit the record validator, so every record the service then writes is accepted.
 */
module ReviewRegistry {
  import opened Prelude
  import opened ReviewStance
  import opened ReviewRecord
  import opened Texts
  import opened ReviewAgreement
  import opened ReviewTotality

  // ---------------------------------------------------------------- the registry

  datatype Environment = Environment(
    openAiKey: string,
    openAiModel: string,
    compatibleBase: string,
    compatibleKey: string,
    compatibleModel: string,
    ollamaBase: string,
    ollamaModel: string)

  /** `value.strip() or None`. */
  function Named(value: string): Option<string> {
    if Strip(value) == "" then None else Some(Strip(value))
  }

  function ModelName(env: Environment, provider: Provider): Option<string> {
    match provider
    case Local => None
    case OpenAi => Named(env.openAiModel)
    case Compatible => Named(env.compatibleModel)
    case Ollama => Named(env.ollamaModel)
  }

  function BaseUrl(world: World, env: Environment, provider: Provider): Option<string> {
    match provider
    case Local => None
    case OpenAi => Some(OPENAI_BASE)
    case Compatible => world.validated(Strip(env.compatibleBase))
    case Ollama => world.validated(Strip(env.ollamaBase))
  }

  /** Whether `from_environment` builds the provider. */
  predicate Configured(world: World, env: Environment, provider: Provider) {
    match provider
    case Local => true
    case OpenAi => Strip(env.openAiKey) != "" && Strip(env.openAiModel) != ""
    case Compatible =>
      var base := BaseUrl(world, env, provider);
      base.Some? && base.value != "" && Strip(env.compatibleKey) != "" && Strip(env.compatibleModel) != ""
    case Ollama =>
      var base := BaseUrl(world, env, provider);
      base.Some? && base.value != "" && Strip(env.ollamaModel) != ""
  }

  function StatusOf(world: World, env: Environment, provider: Provider): ProviderStatus {
    ProviderStatus(Configured(world, env, provider), ModelName(env, provider), BaseUrl(world, env, provider))
  }

  /** The endpoint an adapter posts to. */
  function PostsTo(provider: Provider, base: string): string {
    match provider
    case Local => ""
    case OpenAi => OPENAI_ENDPOINT
    case Compatible => TrimSlashes(base) + "/chat/completions"
    case Ollama => TrimSlashes(base) + "/api/chat"
  }

  // ---------------------------------------------------------------- the adapters

  /** What `validate_assessment` says when it refuses a payload. */
  datatype Complaint = Complaint(unknownReference: bool, message: string)

  datatype Counts = Counts(input: Option<int>, output: Option<int>, total: Option<int>)

  /** What comes back from a provider: nothing usable, or a payload with the complaint it would draw if it is invalid. */
  datatype Answer =
    | Unreached(code: ErrorCode, detail: string)
    | NotJson
    | NotObject
    | Malformed(complaint: Complaint)
    | Payload(reply: Reply, complaint: Complaint, counts: Counts, latency: nat)

  /** A field that reads as an instruction to trade, and whether a diagnostic may name it. */
  datatype Rejection = Rejection(path: string, reportable: bool)

  function Counted(count: Option<int>): Option<int> {
    if count.Some? && count.value >= 0 then count else None
  }

  function Entry(key: string, count: Option<int>): map<string, int> {
    if count.Some? then map[key := count.value] else map[]
  }

  /** `_normalized_usage`; Ollama states no total. */
  function Usage(provider: Provider, c: Counts): map<string, int> {
    var input, output := Counted(c.input), Counted(c.output);
    var stated := if provider == Ollama then None else Counted(c.total);
    var total := if stated.None? && input.Some? && output.Some? then Some(input.value + output.value) else stated;
    Entry("inputTokens", input) + Entry("outputTokens", output) + Entry("totalTokens", total)
  }

  function Complain(c: Complaint): Outcome {
    Refused(if c.unknownReference then UnknownReference else InvalidSchema, c.message, None)
  }

  /** `assess` of the three adapters. A diagnostic that may not name its field is itself refused, as an ordinary exception. */
  function Assessed(world: World, env: Environment, provider: Provider, known: set<string>, screen: Reply -> Option<Rejection>,
                    answer: Answer)
    : Outcome
    requires ModelName(env, provider).Some? && BaseUrl(world, env, provider).Some?
  {
    match answer
    case Unreached(code, detail) => Refused(code, detail, None)
    case NotJson => Refused(InvalidJson, "provider_assessment_invalid_json", None)
    case NotObject => Refused(InvalidSchema, "provider_assessment_must_be_object", None)
    case Malformed(complaint) => Complain(complaint)
    case Payload(reply, complaint, counts, latency) =>
      if !ReplyValid(reply, known) then Complain(complaint)
      else if screen(reply).Some? then
        if screen(reply).value.reportable
        then Refused(ExecutionSemantics, "provider_assessment_contains_execution_semantics", Some(screen(reply).value.path))
        else Crashed
      else
        Replied(provider, ModelName(env, provider).value, BaseUrl(world, env, provider).value, reply, Usage(provider, counts), latency)
  }

  /** The registered provider, asked once. */
  function ClientOf(world: World, env: Environment, provider: Provider, known: set<string>, screen: Reply -> Option<Rejection>,
                    answer: Answer)
    : Option<Client>
  {
    if provider == Local || !Configured(world, env, provider) then None
    else
      Some(Client(Some(PostsTo(provider, BaseUrl(world, env, provider).value)), Assessed(world, env, provider, known, screen, answer)))
  }

  // ---------------------------------------------------------------- the assembled evidence

  /** The evidence items of one experiment, in the order the assembler writes them. */
  function Assembled(experiment: string, context: Value, strategy: Value, quality: Value, candidates: seq<(string, Value)>): seq<Item> {
    var prefix := "experiment:" + experiment;
    [Item(Some(prefix + ":context"), "experiment_context", Some(context)),
     Item(Some(prefix + ":strategy"), "strategy_definition", Some(strategy)),
     Item(Some(prefix + ":data-quality"), "data_quality", Some(quality))]
    + seq(|candidates|, i requires 0 <= i < |candidates| =>
        Item(Some(prefix + ":candidate:" + candidates[i].0), "candidate_metrics", Some(candidates[i].1)))
  }

  /** The bundle's evidence starts with the primary experiment's. */
  ghost predicate IsAssembled(b: Bundle) {
    && b.body.items.Some?
    && exists experiment: string, context: Value, strategy: Value, quality: Value, candidates: seq<(string, Value)> ::
         Assembled(experiment, context, strategy, quality, candidates) <= b.body.items.value
  }

  lemma AssembledIsShown(b: Bundle)
    requires IsAssembled(b)
    ensures ShownIds(b.body.items.value, V4) != {}
  {
    var experiment: string, context: Value, strategy: Value, quality: Value, candidates: seq<(string, Value)> :|
      Assembled(experiment, context, strategy, quality, candidates) <= b.body.items.value;
    var first := Assembled(experiment, context, strategy, quality, candidates)[0];
    assert b.body.items.value[0] == first;
    assert "experiment_context"[0] == 'e' && "candidate_metrics"[0] == 'c';
    assert first.id.value in ShownIds(b.body.items.value, V4);
  }

  // ---------------------------------------------------------------- properties

  /** What the URL check returns is a URL, and passes both the check and the sanitising unchanged; OpenAI's passes. */
  ghost predicate UrlsSettle(world: World) {
    && world.validated(OPENAI_BASE) == Some(OPENAI_BASE)
    && forall raw, base :: world.validated(raw) == Some(base) ==>
         base != "" && world.validated(base) == Some(base) && world.sanitized(base) == Some(base)
  }

  lemma UsageIsValid(provider: Provider, c: Counts)
    ensures UsageValid(Usage(provider, c))
  {
  }

  lemma NamedIsTrimmed(value: string)
    ensures Named(value).Some? <==> Strip(value) != ""
    ensures Named(value).Some? ==> Trimmed(Named(value).value)
  {
    StripTrims(value);
  }

  lemma ModelIsTrimmed(env: Environment, provider: Provider)
    ensures ModelName(env, provider).Some? ==> Trimmed(ModelName(env, provider).value)
  {
    NamedIsTrimmed(env.openAiModel);
    NamedIsTrimmed(env.compatibleModel);
    NamedIsTrimmed(env.ollamaModel);
    hide Named, Trimmed;
  }

  /** A registered base URL is recorded, and has exactly the endpoint the adapter posts to. */
  lemma RegisteredEndpoint(world: World, env: Environment, provider: Provider)
    requires UrlsSettle(world) && provider != Local
    ensures SafeBase(world, Some(StatusOf(world, env, provider))) == BaseUrl(world, env, provider)
    ensures BaseUrl(world, env, provider).Some? ==>
              Endpoint(world, provider, BaseUrl(world, env, provider)) == Some(PostsTo(provider, BaseUrl(world, env, provider).value))
  {
    hide TrimSlashes, Strip;
  }

  /** A provider is asked exactly when it is configured. */
  lemma ReachedIffConfigured(world: World, env: Environment, provider: Provider, known: set<string>,
                             screen: Reply -> Option<Rejection>, answer: Answer)
    requires UrlsSettle(world) && provider != Local
    ensures Reached(world, provider, Some(StatusOf(world, env, provider)), ClientOf(world, env, provider, known, screen, answer))
       <==> Configured(world, env, provider)
  {
    RegisteredEndpoint(world, env, provider);
    hide SafeBase, Endpoint, PostsTo, Assessed, BaseUrl, Strip;
  }

  lemma ShippedFits(world: World, env: Environment, provider: Provider, b: Bundle, known: set<string>,
                    screen: Reply -> Option<Rejection>, answer: Answer)
    requires UrlsSettle(world) && provider != Local && b.body.items.Some? && ShownIds(b.body.items.value, V4) != {}
    ensures Fit(world, provider, b, Some(StatusOf(world, env, provider)), ClientOf(world, env, provider, known, screen, answer))
  {
    ModelIsTrimmed(env, provider);
    RegisteredEndpoint(world, env, provider);
    ReachedIffConfigured(world, env, provider, known, screen, answer);
    hide SafeBase, Endpoint, PostsTo, ShownIds, Trimmed, Reached, ReplyValid, Usage;
  }

  /**
   With the shipped registry, adapters and assembler, whatever the environment and the answer: every record written is
   accepted; and with short ids one is written exactly when the request is approved as its provider needs, its bundle
   is checked and its prompt renders.
   */
  lemma ShippedIsAccepted(world: World, env: Environment, id: string, now: string, provider: Provider, approved: bool, b: Bundle,
                          screen: Reply -> Option<Rejection>, answer: Answer, elapsed: int)
    requires Sane(world) && UrlsSettle(world) && IsReviewId(id) && world.canonicalTime(now) && IsAssembled(b)
    ensures var known := ShownIds(b.body.items.value, V4);
            var written := Create(world, id, now, provider, approved, b, Some(StatusOf(world, env, provider)),
                                  ClientOf(world, env, provider, known, screen, answer), elapsed);
            && (written.Ok? ==> Validate(world, written.value).None?)
            && (ShortIds(b) ==>
                  (written.Ok?
                   <==> approved != (provider == Local) && BundleChecked(world, b) && (provider == Local || world.prompt(b, V4).Some?)))
  {
    var known := ShownIds(b.body.items.value, V4);
    var status, client := Some(StatusOf(world, env, provider)), ClientOf(world, env, provider, known, screen, answer);
    AssembledIsShown(b);
    if provider != Local {
      ShippedFits(world, env, provider, b, known, screen, answer);
    }
    if BundleChecked(world, b) && ShortIds(b) {
      CheckedIsAssessed(world, b);
    }
    WriterAgreesWithValidator(world, id, now, provider, approved, b, status, client, elapsed);
    hide Create, Validate, BundleChecked, Fit, Evaluate, StatusOf, ClientOf, ShownIds, IsAssembled, ShortIds, Sane, UrlsSettle;
  }

  /** What is recorded of an adapter's outcome. */
  lemma ShippedAsked(world: World, env: Environment, x: External, known: set<string>, screen: Reply -> Option<Rejection>,
                     answer: Answer, elapsed: int)
    requires ModelName(env, x.provider).Some? && BaseUrl(world, env, x.provider).Some? && x.base == BaseUrl(world, env, x.provider)
    requires x.reply.None?
    ensures var y := Asked(world, x, ModelName(env, x.provider).value, known,
                           Assessed(world, env, x.provider, known, screen, answer), elapsed);
            && y.provider == x.provider && y.model == x.model && y.base == x.base
            && (y.error.Some? ==> y.status == Failed ==> y.error.value.code != NotConfigured)
            && (y.status == Completed <==> answer.Payload? && ReplyValid(answer.reply, known) && screen(answer.reply).None?)
            && (y.status == Completed ==>
                  y.error == x.error && y.reply == Some(answer.reply) && y.usage == Some(Usage(x.provider, answer.counts))
                  && y.latency == answer.latency)
            && (y.status != Completed ==> y.status == Failed && y.reply.None? && y.error.Some?)
  {
    if answer.Payload? {
      UsageIsValid(x.provider, answer.counts);
    }
    hide ReplyValid, Usage, UsageValid, BaseUrl, ModelName, ErrorMessage, ErrorDetail;
  }

  /**
   What is recorded of a shipped provider: not configured exactly when it is not, and completed exactly when it is and
   its payload is valid and free of execution semantics, and then with that payload and its counts.
   */
  lemma ShippedOutcome(world: World, env: Environment, provider: Provider, evidenceHash: string, prompt: string, known: set<string>,
                       screen: Reply -> Option<Rejection>, answer: Answer, elapsed: int)
    requires UrlsSettle(world) && provider != Local
    ensures var x := Attempt(world, provider, evidenceHash, prompt, known, Some(StatusOf(world, env, provider)),
                             ClientOf(world, env, provider, known, screen, answer), elapsed);
            && x.provider == provider && x.model == ModelName(env, provider) && x.base == BaseUrl(world, env, provider)
            && (x.error.Some? && x.error.value.code == NotConfigured <==> !Configured(world, env, provider))
            && (x.status == Completed
                <==> Configured(world, env, provider) && answer.Payload? && ReplyValid(answer.reply, known) && screen(answer.reply).None?)
            && (x.status == Completed ==>
                  x.reply == Some(answer.reply) && x.usage == Some(Usage(provider, answer.counts)) && x.latency == answer.latency)
            && (x.status != Completed ==> x.status == Failed && x.reply.None? && x.error.Some?)
  {
    hide SafeBase, Endpoint, PostsTo, ReplyValid, Usage, UrlsSettle, BaseUrl, Configured, ModelName, RequestHash, Asked, Assessed;
    RegisteredEndpoint(world, env, provider);
    if Configured(world, env, provider) {
      ConfiguredIsNamed(world, env, provider);
      var base := Base(world, provider, ModelName(env, provider), BaseUrl(world, env, provider), prompt, evidenceHash);
      var endpointHash := world.sha(OfText(PostsTo(provider, BaseUrl(world, env, provider).value)));
      var model := ModelName(env, provider).value;
      var x := base.(endpointHash := Some(endpointHash), requestHash := Some(RequestHash(world, base, model, endpointHash)));
      ShippedAsked(world, env, x, known, screen, answer, elapsed);
    }
  }

  lemma ConfiguredIsNamed(world: World, env: Environment, provider: Provider)
    requires provider != Local && Configured(world, env, provider)
    ensures ModelName(env, provider).Some? && BaseUrl(world, env, provider).Some?
  {
  }
}
