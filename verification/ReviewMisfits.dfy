/**
 Records the service builds and its own store refuses: for every bundle it can review, one family of registries or
 providers for each part of the condition under which writer and validator agree.
 */
module ReviewMisfits {
  import opened Prelude
  import opened ReviewStance
  import opened ReviewRecord
  import opened Texts
  import opened ReviewAgreement
  import opened ReviewTotality
  import opened ReviewClash

  /** The id and the time are well-formed, and the request for this external provider can be met. */
  ghost predicate Ready(world: World, id: string, now: string, provider: Provider, b: Bundle) {
    Sane(world) && IsReviewId(id) && world.canonicalTime(now) && provider != Local && Reviewable(world, provider, true, b)
  }

  /** The record is built, and its external part is refused. */
  predicate BuiltAndRefused(world: World, written: Result<Record, ServiceError>) {
    written.Ok? && Validate(world, written.value) == Some(ExternalInvalid)
  }

  lemma MisfitIsRefused(world: World, id: string, now: string, provider: Provider, b: Bundle, status: Option<ProviderStatus>,
                        client: Option<Client>, elapsed: int)
    requires Ready(world, id, now, provider, b) && !Fit(world, provider, b, status, client)
    ensures BuiltAndRefused(world, Create(world, id, now, provider, true, b, status, client, elapsed))
  {
    WriterAgreesWithValidator(world, id, now, provider, true, b, status, client, elapsed);
    hide Create, Validate, Fit, Reviewable, Sane;
  }

  /** Evidence of unselected candidates alone: no prompt shows any of it, whatever the registry. */
  lemma UnshownIsRefused(world: World, id: string, now: string, provider: Provider, b: Bundle, status: Option<ProviderStatus>,
                         client: Option<Client>, elapsed: int)
    requires Ready(world, id, now, provider, b)
    requires forall i :: 0 <= i < |b.body.items.value| ==>
               && b.body.items.value[i].kind == "candidate_metrics"
               && (b.body.items.value[i].value.Some? ==> !b.body.items.value[i].value.value.selected)
    ensures BuiltAndRefused(world, Create(world, id, now, provider, true, b, status, client, elapsed))
  {
    hide Create, Sane, IsReviewId, BuiltAndRefused;
    MisfitIsRefused(world, id, now, provider, b, status, client, elapsed);
  }

  /** A model name with space around it, or an empty one, even if the provider is not configured. */
  lemma UntrimmedModelIsRefused(world: World, id: string, now: string, provider: Provider, b: Bundle, configured: bool, model: string,
                                base: Option<string>, client: Option<Client>, elapsed: int)
    requires Ready(world, id, now, provider, b) && !Trimmed(model)
    ensures var status := Some(ProviderStatus(configured, Some(model), base));
            BuiltAndRefused(world, Create(world, id, now, provider, true, b, status, client, elapsed))
  {
    hide Create, Sane, IsReviewId, BuiltAndRefused, ShownIds, Reached;
    MisfitIsRefused(world, id, now, provider, b, Some(ProviderStatus(configured, Some(model), base)), client, elapsed);
  }

  /** A base URL that sanitising leaves alone, of which no endpoint can be made: for OpenAI, any base but its own. */
  lemma ForeignBaseIsRefused(world: World, id: string, now: string, provider: Provider, b: Bundle, configured: bool,
                             model: Option<string>,
                             base: string, client: Option<Client>, elapsed: int)
    requires Ready(world, id, now, provider, b)
    requires world.sanitized(base) == Some(base)
    requires world.validated(base) != Some(base) || (provider == OpenAi && base != OPENAI_BASE)
    ensures var status := Some(ProviderStatus(configured, model, Some(base)));
            BuiltAndRefused(world, Create(world, id, now, provider, true, b, status, client, elapsed))
  {
    hide Create, Sane, IsReviewId, BuiltAndRefused, ShownIds, Reached, Trimmed;
    MisfitIsRefused(world, id, now, provider, b, Some(ProviderStatus(configured, model, Some(base))), client, elapsed);
  }

  /** A provider that is asked and refuses for anything but execution semantics, with a diagnostic. */
  lemma DiagnosticIsRefused(world: World, id: string, now: string, provider: Provider, b: Bundle, status: ProviderStatus,
                            endpoint: Option<string>,
                            code: ErrorCode, detail: string, field: string, elapsed: int)
    requires Ready(world, id, now, provider, b)
    requires ProviderCode(code) && code != ExecutionSemantics
    requires Reached(world, provider, Some(status), Some(Client(endpoint, Refused(code, detail, Some(field)))))
    ensures BuiltAndRefused(world, Create(world, id, now, provider, true, b, Some(status),
                                          Some(Client(endpoint, Refused(code, detail, Some(field)))), elapsed))
  {
    hide Create, Sane, IsReviewId, BuiltAndRefused, ShownIds, Trimmed;
    MisfitIsRefused(world, id, now, provider, b, Some(status), Some(Client(endpoint, Refused(code, detail, Some(field)))), elapsed);
  }

  // ---------------------------------------------------------------- bundles that are ready

  /** The context of one experiment. */
  function Context(): Item {
    Item(Some("experiment:e:context"), "experiment_context",
         Some(Value(false, None, None, None, false, None, None, None, None, None)))
  }

  /** A candidate that was not selected, and so not tested. */
  function Unselected(): Item {
    Item(Some("experiment:e:candidate:c"), "candidate_metrics",
         Some(Value(false, None, None, None, false, Some("c"), None, Some(GOOD), None, Some([Some(1.0)]))))
  }

  function Holding(world: World, item: Item): Bundle {
    Sealed(Body(Single, DataHash(64), Some(ReferenceTo("e", "c")), Some([]), Some([item]), true), (body: Body) => world.sha(OfBody(body)))
  }

  /** Either bundle is reviewable wherever its one reference and item pass their field checks and its prompt renders. */
  lemma HoldingIsReady(world: World, id: string, now: string, provider: Provider, item: Item)
    requires Sane(world) && IsReviewId(id) && world.canonicalTime(now) && provider != Local
    requires item in {Context(), Unselected()} && world.referenceOk(ReferenceTo("e", "c")) && world.itemOk(item)
    requires world.prompt(Holding(world, item), V4).Some?
    ensures Ready(world, id, now, provider, Holding(world, item))
    ensures item == Unselected() ==> ShownIds(Holding(world, item).body.items.value, V4) == {}
    ensures item == Context() ==> ShownIds(Holding(world, item).body.items.value, V4) == {"experiment:e:context"}
  {
    var b := Holding(world, item);
    HoldingIsChecked(world, item);
    ShownOfHolding(world, item);
    CheckedReferences(world, b);
    assert "e"[0] == 'e';
    hide BundleChecked, References, Evaluate, Sane, IsReviewId, ShownIds;
    CheckedIsAssessed(world, b);
  }

  lemma HoldingIsChecked(world: World, item: Item)
    requires Sane(world) && item in {Context(), Unselected()} && world.referenceOk(ReferenceTo("e", "c")) && world.itemOk(item)
    ensures BundleChecked(world, Holding(world, item))
  {
    assert "e"[0] == 'e' && "c"[0] == 'c';
    assert Trimmed("e") && Trimmed("c");
    assert "experiment:e:context"[0] == 'e' && "experiment:e:candidate:c"[0] == 'e';
    assert Trimmed(item.id.value);
  }

  lemma ShownOfHolding(world: World, item: Item)
    requires item in {Context(), Unselected()}
    ensures item == Unselected() ==> ShownIds(Holding(world, item).body.items.value, V4) == {}
    ensures item == Context() ==> ShownIds(Holding(world, item).body.items.value, V4) == {"experiment:e:context"}
  {
    assert "experiment_context"[0] == 'e' && "candidate_metrics"[0] == 'c';
    var items := Holding(world, item).body.items.value;
    assert items == [item];
    if item == Context() {
      assert items[0].id.value in ShownIds(items, V4);
    }
  }
}
