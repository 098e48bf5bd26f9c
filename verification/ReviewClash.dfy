/**
 When experiment ids clash, further evidence can improve the stance: for every clashing pair, an intact bundle
 blocked by a failed gate that a comparison turns into an insufficient one, and that the service accepts.
 */
module ReviewClash {
  import opened Prelude
  import opened ReviewStance
  import opened ReviewRecord
  import opened Texts
  import opened ReviewVerdicts
  import opened ReviewMonotone

  // ---------------------------------------------------------------- the witness

  /** A hash: 64 hexadecimal digits. */
  function DataHash(n: nat): (s: string)
    ensures |s| == n && forall i :: 0 <= i < n ==> s[i] == 'a'
  {
    if n == 0 then "" else DataHash(n - 1) + "a"
  }

  const DAY := "2024-01-01T00:00:00+00:00"
  const GOOD := Metrics(1.0, 1.0, 20.0)
  const FAILED_GATE := Gate(Some(true), Some(false), TestFailed, Some(false))

  function ReferenceTo(experiment: string, candidate: string): Reference {
    Reference(experiment, candidate, Some(DataHash(64)), Some(Range(Some(DAY), Some(DAY))))
  }

  function Selected(candidate: string, gate: Option<Gate>): Value {
    Value(false, None, None, None, true, Some(candidate), gate, Some(GOOD), Some(GOOD), Some([Some(1.0)]))
  }

  /** Complete data, bound to the reference. */
  function Quality(e: string): Item {
    Item(Some(QualityId(e)), "data_quality",
         Some(Value(true, Some(DataHash(64)), Some(DAY), Some(DAY), false, None, None, None, None, None)))
  }

  /** The selected candidate, whose formal gate failed its test. */
  function Failed(e: string): Item {
    Item(Some(CandidatePrefix(e) + "c"), "candidate_metrics", Some(Selected("c", Some(FAILED_GATE))))
  }

  /** A selected candidate of `f` by its id that also counts for `e`. */
  function Clashing(e: string, f: string): Item {
    Item(Some((if |CandidatePrefix(e)| <= |Namespace(f)| then Namespace(f) else CandidatePrefix(e)) + "x"),
         "candidate_metrics", Some(Selected("x", None)))
  }

  function Before(e: string, lineage: string): Body {
    Body(Single, lineage, Some(ReferenceTo(e, "c")), Some([]), Some([Quality(e), Failed(e)]), true)
  }

  function After(e: string, f: string, lineage: string): Body {
    Extended(Before(e, lineage), ReferenceTo(f, "d"), [Clashing(e, f)])
  }

  // ---------------------------------------------------------------- the clash

  /** The added item belongs to `f`, and the engine selects it for `e` too. */
  lemma ClashingCountsForBoth(e: string, f: string)
    requires Clash(e, f)
    ensures BelongsTo(Clashing(e, f), f) && IsSelected(Clashing(e, f), e)
  {
    assert Namespace(f) == "experiment:" + (f + ":");
    assert CandidatePrefix(e) == "experiment:" + (e + ":candidate:");
    AfterExperiment(e + ":candidate:", f + ":");
    AfterExperiment(f + ":", e + ":candidate:");
    if f + ":" <= e + ":" {
      assert e + ":candidate:" == (e + ":") + "candidate:";
      assert f + ":" <= e + ":candidate:";
    }
  }

  lemma ItemKinds(e: string, f: string, id: string)
    ensures IsQuality(Quality(e), e) && !IsQuality(Failed(e), id) && !IsQuality(Clashing(e, f), id)
    ensures IsSelected(Failed(e), e) && !IsSelected(Quality(e), id)
    ensures IsQuality(Quality(e), id) ==> id == e
  {
    assert "data_quality"[0] == 'd' && "candidate_metrics"[0] == 'c';
    if IsQuality(Quality(e), id) {
      SameQualityId(e, id);
    }
  }

  lemma SameQualityId(e: string, f: string)
    requires QualityId(e) == QualityId(f)
    ensures e == f
  {
    var k := |"experiment:"|;
    assert |e| == |f|;
    forall i | 0 <= i < |e| ensures e[i] == f[i] {
      assert QualityId(e)[k + i] == e[i] && QualityId(f)[k + i] == f[i];
    }
  }

  lemma {:induction false} NotAfterItself(s: string)
    ensures NotAfter(s, s)
  {
    if s != "" {
      NotAfterItself(s[1..]);
    }
  }

  lemma QualityIsBound(experiment: string, candidate: string, e: string)
    ensures BindingValid(ReferenceTo(experiment, candidate), Quality(e).value.value)
  {
    NotAfterItself(DAY);
    assert |DAY| == 25;
  }

  lemma QualityNeverBlocks(ref: Reference, e: string, f: string, items: seq<Item>)
    requires items <= [Quality(e), Failed(e), Clashing(e, f)]
    requires ref == ReferenceTo(ref.experimentId, ref.candidateId)
    ensures !QualityBlocks(ref, items)
  {
    hide Quality, Failed, Clashing, BindingValid, IsQuality;
    ItemKinds(e, f, ref.experimentId);
    QualityIsBound(ref.experimentId, ref.candidateId, e);
    assert Quality(e).value.value.isComplete by { QualityIsComplete(e); }
  }

  lemma QualityIsComplete(e: string)
    ensures Quality(e).value.Some? && Quality(e).value.value.isComplete
  {
  }

  /** Before: the failed gate blocks. */
  lemma BeforeBlocks(e: string)
    ensures CandidateBlocks(ReferenceTo(e, "c"), [Quality(e), Failed(e)])
  {
    ItemKinds(e, e, e);
    hide IsSelected, IsQuality;
    assert OnlySelected([Quality(e), Failed(e)], e, 1);
  }

  /** After: two candidates are selected, so the gate is not even looked at. */
  lemma AfterHides(e: string, f: string)
    requires Clash(e, f)
    ensures !CandidateBlocks(ReferenceTo(e, "c"), [Quality(e), Failed(e), Clashing(e, f)])
    ensures LevelOf(ReviewCandidate(ReferenceTo(e, "c"), [Quality(e), Failed(e), Clashing(e, f)])) == 2
  {
    var items := [Quality(e), Failed(e), Clashing(e, f)];
    ItemKinds(e, f, e);
    ClashingCountsForBoth(e, f);
    assert IsSelected(items[1], e) && IsSelected(items[2], e);
    OneSelected(items, e);
    hide IsSelected;
  }

  lemma AddedDoesNotBlock(e: string, f: string)
    ensures !CandidateBlocks(ReferenceTo(f, "d"), [Quality(e), Failed(e), Clashing(e, f)])
  {
    assert "c"[0] == 'c' && "d"[0] == 'd' && "x"[0] == 'x';
    hide OnlySelected, CandidatePrefix, GateSound;
  }

  /** A reference whose evidence does not block is insufficient at worst; a gap makes it so. */
  lemma GapWithoutBlock(ref: Reference, items: seq<Item>)
    requires !QualityBlocks(ref, items) && !CandidateBlocks(ref, items)
    ensures LevelOf(Review(ref, items)) <= 2
    ensures LevelOf(ReviewCandidate(ref, items)) == 2 ==> LevelOf(Review(ref, items)) == 2
  {
    hide QualityBlocks, CandidateBlocks, ReviewCandidate, ReviewQuality;
    ReferenceBlocked(ref, items);
    BothIsJoin(ReviewQuality(ref, items), ReviewCandidate(ref, items));
  }

  lemma WitnessReferences(e: string, f: string, lineage: string)
    requires !Blank(e)
    ensures References(Before(e, lineage)) == [ReferenceTo(e, "c")]
    ensures References(After(e, f, lineage)) == [ReferenceTo(e, "c")] + if Blank(f) then [] else [ReferenceTo(f, "d")]
    ensures After(e, f, lineage).items == Some([Quality(e), Failed(e), Clashing(e, f)]) && After(e, f, lineage).boundarySafe
  {
    assert "c"[0] == 'c' && "d"[0] == 'd';
    assert !Blank("c") && !Blank("d");
    hide Quality, Failed, Clashing;
    assert [Quality(e), Failed(e)] + [Clashing(e, f)] == [Quality(e), Failed(e), Clashing(e, f)];
    ExtendedReferences(Before(e, lineage), ReferenceTo(f, "d"), [Clashing(e, f)]);
  }

  /** The bundle with the hash of its body. */
  function Sealed(body: Body, digest: Body -> string): Bundle {
    Bundle(body, digest(body))
  }

  lemma BeforeIsBlocked(e: string, lineage: string, digest: Body -> string)
    requires !Blank(e)
    ensures Assess(Sealed(Before(e, lineage), digest), digest).stance == Blocked
  {
    var b := Sealed(Before(e, lineage), digest);
    BeforeBlocks(e);
    WitnessReferences(e, e, lineage);
    hide QualityBlocks, CandidateBlocks, References, Assess, Quality, Failed, ReferenceTo;
    BlockedExactly(b, digest);
    assert References(b.body)[0] == ReferenceTo(e, "c");
  }

  lemma AfterLevels(e: string, f: string)
    requires Clash(e, f)
    ensures LevelOf(Review(ReferenceTo(e, "c"), [Quality(e), Failed(e), Clashing(e, f)])) == 2
    ensures LevelOf(Review(ReferenceTo(f, "d"), [Quality(e), Failed(e), Clashing(e, f)])) <= 2
  {
    hide Review, ReviewCandidate, CandidateBlocks, QualityBlocks, Clash, Quality, Failed, Clashing;
    var items := [Quality(e), Failed(e), Clashing(e, f)];
    AfterHides(e, f);
    AddedDoesNotBlock(e, f);
    QualityNeverBlocks(ReferenceTo(e, "c"), e, f, items);
    QualityNeverBlocks(ReferenceTo(f, "d"), e, f, items);
    GapWithoutBlock(ReferenceTo(e, "c"), items);
    GapWithoutBlock(ReferenceTo(f, "d"), items);
  }

  /** A primary experiment with a gap, and nothing that blocks. */
  lemma InsufficientWhen(b: Bundle, digest: Body -> string, primary: Reference, rest: seq<Reference>, items: seq<Item>)
    requires References(b.body) == [primary] + rest && b.body.items == Some(items)
    requires LevelOf(Opening(b, digest)) <= 2 && LevelOf(Review(primary, items)) == 2
    requires forall i :: 0 <= i < |rest| ==> LevelOf(Review(rest[i], items)) <= 2
    ensures Assess(b, digest).stance == Insufficient
  {
    StanceIsJoin(b, digest, 2);
    StanceIsJoin(b, digest, 3);
    hide References, Assess, Review, Opening, LevelOf, Level;
    assert References(b.body)[0] == primary;
    forall i | 0 <= i < |References(b.body)| ensures LevelOf(Review(References(b.body)[i], items)) <= 2 {
      if i > 0 {
        assert References(b.body)[i] == rest[i - 1];
      }
    }
    LevelTwo(Assess(b, digest).stance);
  }

  lemma LevelTwo(s: Stance)
    requires 2 <= Level(s) < 3
    ensures s == Insufficient
  {
  }

  lemma AfterIsInsufficient(e: string, f: string, lineage: string, digest: Body -> string)
    requires !Blank(e) && Clash(e, f)
    ensures Assess(Sealed(After(e, f, lineage), digest), digest).stance == Insufficient
  {
    var b := Sealed(After(e, f, lineage), digest);
    WitnessReferences(e, f, lineage);
    assert LevelOf(Opening(b, digest)) <= 2 by {
      OpeningVerdict(b, digest);
    }
    AfterLevels(e, f);
    hide References, Assess, Review, Opening, After, Quality, Failed, Clashing, ReferenceTo, Clash;
    InsufficientWhen(b, digest, ReferenceTo(e, "c"), if Blank(f) then [] else [ReferenceTo(f, "d")],
                     [Quality(e), Failed(e), Clashing(e, f)]);
  }

  // ---------------------------------------------------------------- the exact condition

  /** An intact bundle referencing only `ids`, and evidence that belongs to the added reference. */
  ghost predicate Addition(b: Bundle, ids: set<string>, ref: Reference, more: seq<Item>, digest: Body -> string) {
    && b.body.comparisons.Some? && b.body.items.Some? && b.evidenceHash == digest(b.body)
    && (forall i :: 0 <= i < |References(b.body)| ==> References(b.body)[i].experimentId in ids)
    && (forall item :: item in more ==> BelongsTo(item, ref.experimentId))
  }

  /** The stance is no better once the bundle is extended and hashed anew. */
  ghost predicate NoBetter(b: Bundle, ref: Reference, more: seq<Item>, digest: Body -> string)
    requires b.body.comparisons.Some? && b.body.items.Some?
  {
    Level(Assess(Sealed(Extended(b.body, ref, more), digest), digest).stance) >= Level(Assess(b, digest).stance)
  }

  /** Over all bundles on these experiments and all evidence of the new one. */
  ghost predicate NeverBetter(ids: set<string>, f: string, digest: Body -> string) {
    forall b: Bundle, ref: Reference, more: seq<Item> ::
      ref.experimentId == f && Addition(b, ids, ref, more, digest) ==> NoBetter(b, ref, more, digest)
  }

  lemma WitnessIsAddition(e: string, f: string, lineage: string, digest: Body -> string)
    requires !Blank(e) && Clash(e, f)
    ensures Addition(Sealed(Before(e, lineage), digest), {e}, ReferenceTo(f, "d"), [Clashing(e, f)], digest)
  {
    WitnessReferences(e, f, lineage);
    ClashingCountsForBoth(e, f);
    hide References, Clash, Clashing, Quality, Failed, BelongsTo;
  }

  /** Every clashing pair has a bundle that improves: a blocked one becomes insufficient. */
  lemma ClashImproves(e: string, f: string, lineage: string, digest: Body -> string)
    requires !Blank(e) && Clash(e, f)
    ensures var before, after := Before(e, lineage), After(e, f, lineage);
            && Addition(Sealed(before, digest), {e}, ReferenceTo(f, "d"), [Clashing(e, f)], digest)
            && after == Extended(before, ReferenceTo(f, "d"), [Clashing(e, f)])
            && Assess(Sealed(before, digest), digest).stance == Blocked
            && Assess(Sealed(after, digest), digest).stance == Insufficient
  {
    WitnessIsAddition(e, f, lineage, digest);
    BeforeIsBlocked(e, lineage, digest);
    AfterIsInsufficient(e, f, lineage, digest);
    hide Assess, Clash, Addition, Clashing, Quality, Failed, ReferenceTo, Extended, Sealed;
  }

  lemma ReferencesNotBlank(body: Body)
    ensures forall i :: 0 <= i < |References(body)| ==> !Blank(References(body)[i].experimentId)
  {
    ValidNotBlank(Comparisons(body));
    hide ValidComparisons, Blank;
  }

  lemma {:induction false} ValidNotBlank(comparisons: seq<Option<Reference>>)
    ensures forall i :: 0 <= i < |ValidComparisons(comparisons)| ==> !Blank(ValidComparisons(comparisons)[i].experimentId)
  {
    hide Blank;
    if comparisons != [] {
      ValidNotBlank(comparisons[..|comparisons| - 1]);
    }
  }

  /** Adding evidence of `f` to bundles on `ids` never improves the stance exactly when `f` clashes with none of them. */
  lemma ClashIsExact(ids: set<string>, f: string, digest: Body -> string)
    ensures NeverBetter(ids, f, digest) <==> forall e :: e in ids && !Blank(e) ==> !Clash(e, f)
  {
    hide Assess, Clash, References, Extended, BelongsTo, NoBetter, Blank;
    if e :| e in ids && !Blank(e) && Clash(e, f) {
      ClashIsNotSafe(ids, e, f, digest);
    } else {
      forall b: Bundle, ref: Reference, more: seq<Item> | ref.experimentId == f && Addition(b, ids, ref, more, digest)
        ensures NoBetter(b, ref, more, digest)
      {
        NoClashIsSafe(b, ids, ref, more, digest);
      }
    }
  }

  lemma NoClashIsSafe(b: Bundle, ids: set<string>, ref: Reference, more: seq<Item>, digest: Body -> string)
    requires Addition(b, ids, ref, more, digest)
    requires forall e :: e in ids && !Blank(e) ==> !Clash(e, ref.experimentId)
    ensures NoBetter(b, ref, more, digest)
  {
    ReferencesNotBlank(b.body);
    hide Assess, Clash, References, Extended, Blank;
    NeverImproves(b, digest, ref, more, digest(Extended(b.body, ref, more)));
  }

  lemma ClashIsNotSafe(ids: set<string>, e: string, f: string, digest: Body -> string)
    requires e in ids && !Blank(e) && Clash(e, f)
    ensures !NeverBetter(ids, f, digest)
  {
    var b, ref, more := Sealed(Before(e, ""), digest), ReferenceTo(f, "d"), [Clashing(e, f)];
    ClashImproves(e, f, "", digest);
    hide Assess, Clash, References, Extended, Clashing, Quality, Failed, BelongsTo, Blank;
    WiderAddition(b, e, ids, ref, more, digest);
    Improves(b, ids, ref, more, digest);
  }

  lemma Improves(b: Bundle, ids: set<string>, ref: Reference, more: seq<Item>, digest: Body -> string)
    requires Addition(b, ids, ref, more, digest) && Assess(b, digest).stance == Blocked
    requires Assess(Sealed(Extended(b.body, ref, more), digest), digest).stance == Insufficient
    ensures !NeverBetter(ids, ref.experimentId, digest)
  {
    hide Assess, References, Extended, BelongsTo;
    assert !NoBetter(b, ref, more, digest);
  }

  lemma WiderAddition(b: Bundle, e: string, ids: set<string>, ref: Reference, more: seq<Item>, digest: Body -> string)
    requires e in ids && Addition(b, {e}, ref, more, digest)
    ensures Addition(b, ids, ref, more, digest)
  {
    hide References, BelongsTo;
  }

  // ---------------------------------------------------------------- the service lets it through

  /** The field-by-field checks of single references and items accept the witness's. */
  predicate Accepts(world: World, e: string, f: string) {
    && world.referenceOk(ReferenceTo(e, "c")) && world.referenceOk(ReferenceTo(f, "d"))
    && world.itemOk(Quality(e)) && world.itemOk(Failed(e)) && world.itemOk(Clashing(e, f))
  }

  lemma WitnessItems(world: World, e: string, f: string)
    requires Accepts(world, e, f)
    ensures ItemsChecked(world, [Quality(e), Failed(e)]) && ItemsChecked(world, [Quality(e), Failed(e), Clashing(e, f)])
  {
    var ids := [Quality(e).id.value, Failed(e).id.value, Clashing(e, f).id.value];
    var n := |ids[0]|;
    assert ids[0][n - 1] == "data-quality"[11] == 'y' && ids[0][0] == 'e';
    assert ids[1][|ids[1]| - 1] == 'c' && ids[1][0] == 'e';
    assert ids[2][|ids[2]| - 1] == 'x' && ids[2][0] == 'e';
    hide CandidatePrefix, QualityId, Namespace;
  }

  /** For distinct ids that clash, the service's own check accepts the bundle before and after. */
  lemma ClashPassesService(world: World, e: string, f: string, lineage: string)
    requires Trimmed(e) && Trimmed(f) && e != f && Clash(e, f) && Accepts(world, e, f)
    requires IsSha256(lineage) && forall c :: IsSha256(world.sha(c))
    ensures var before, after := Before(e, lineage), After(e, f, lineage);
            && BundleChecked(world, Bundle(before, world.sha(OfBody(before))))
            && BundleChecked(world, Bundle(after, world.sha(OfBody(after))))
  {
    WitnessItems(world, e, f);
    assert Trimmed("c") && Trimmed("d");
    hide Quality, Failed, Clashing, ItemsChecked, IsSha256;
    assert [Quality(e), Failed(e)] + [Clashing(e, f)] == [Quality(e), Failed(e), Clashing(e, f)];
    assert After(e, f, lineage).comparisons.value == [Some(ReferenceTo(f, "d"))];
  }
}
