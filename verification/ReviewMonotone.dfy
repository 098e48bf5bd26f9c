/**
 Further evidence and the stance: adding a comparison with its evidence never improves the stance of an intact
 bundle exactly when its experiment id clashes with no id already referenced.
 */
module ReviewMonotone {
  import opened Prelude
  import opened ReviewStance
  import opened ReviewRecord
  import opened Texts
  import opened ReviewVerdicts

  function Namespace(experiment: string): string {
    "experiment:" + experiment + ":"
  }

  /** The item is evidence of this experiment by its id. */
  predicate BelongsTo(item: Item, experiment: string) {
    item.id.Some? && Namespace(experiment) <= item.id.value
  }

  /**
   Evidence of `f` can be taken for evidence of `e`: `f` is `e` or ends at one of its colons, or `f` continues the
   candidate ids of `e`.
   */
  predicate Clash(e: string, f: string) {
    f + ":" <= e + ":" || e + ":candidate:" <= f + ":"
  }

  /** The bundle with one more comparison and that experiment's evidence. */
  function Extended(body: Body, ref: Reference, more: seq<Item>): Body
    requires body.comparisons.Some? && body.items.Some?
  {
    body.(mode := Comparison, comparisons := Some(body.comparisons.value + [Some(ref)]), items := Some(body.items.value + more))
  }

  // ---------------------------------------------------------------- prefixes of one id

  lemma ShorterIsPrefix(a: string, b: string, s: string)
    requires a <= s && b <= s && |a| <= |b|
    ensures a <= b
  {
  }

  lemma AfterExperiment(x: string, y: string)
    ensures "experiment:" + x <= "experiment:" + y <==> x <= y
  {
    var k := |"experiment:"|;
    assert ("experiment:" + x)[k..] == x && ("experiment:" + y)[k..] == y;
    if "experiment:" + x <= "experiment:" + y {
      forall i | 0 <= i < |x| ensures x[i] == y[i] {
        assert ("experiment:" + x)[k + i] == ("experiment:" + y)[k + i];
      }
    }
  }

  /** A colon that lies within what follows `e` lies at its start, unless the rest has a colon itself. */
  lemma ColonEndsEarly(e: string, f: string, rest: string)
    requires f + ":" <= e + ":" + rest && ':' !in rest
    ensures f + ":" <= e + ":"
  {
    var s := e + ":" + rest;
    assert s[|f|] == (f + ":")[|f|] == ':';
    assert |f| <= |e| by {
      assert forall i :: |e| < i < |s| ==> s[i] == rest[i - |e| - 1] != ':';
    }
    ShorterIsPrefix(f + ":", e + ":", s);
  }

  lemma NotItsQuality(item: Item, e: string, f: string)
    requires !Clash(e, f) && BelongsTo(item, f)
    ensures !IsQuality(item, e)
  {
    if IsQuality(item, e) {
      assert Namespace(f) == "experiment:" + (f + ":");
      assert QualityId(e) == "experiment:" + (e + ":" + "data-quality");
      AfterExperiment(f + ":", e + ":" + "data-quality");
      ColonEndsEarly(e, f, "data-quality");
    }
  }

  lemma NotItsCandidate(item: Item, e: string, f: string)
    requires !Clash(e, f) && BelongsTo(item, f)
    ensures !IsSelected(item, e)
  {
    if IsSelected(item, e) {
      var id := item.id.value;
      assert Namespace(f) == "experiment:" + (f + ":");
      assert CandidatePrefix(e) == "experiment:" + (e + ":candidate:");
      if |e + ":candidate:"| <= |f + ":"| {
        ShorterIsPrefix(CandidatePrefix(e), Namespace(f), id);
        AfterExperiment(e + ":candidate:", f + ":");
      } else {
        ShorterIsPrefix(Namespace(f), CandidatePrefix(e), id);
        AfterExperiment(f + ":", e + ":candidate:");
        assert e + ":candidate:" == (e + ":" + "candidate") + ":";
        ShorterIsPrefix(f + ":", e + ":" + "candidate", e + ":candidate:");
        ColonEndsEarly(e, f, "candidate");
      }
    }
  }

  lemma {:induction false} OthersQuality(items: seq<Item>, more: seq<Item>, experiment: string)
    requires forall item :: item in more ==> !IsQuality(item, experiment)
    ensures QualityItem(items + more, experiment) == QualityItem(items, experiment)
  {
    hide IsQuality;
    if items != [] {
      OthersQuality(items[1..], more, experiment);
      assert (items + more)[1..] == items[1..] + more;
    } else {
      FirstQuality(more, experiment);
      assert items + more == more;
    }
  }

  lemma {:induction false} OthersSelected(items: seq<Item>, more: seq<Item>, experiment: string)
    requires forall item :: item in more ==> !IsSelected(item, experiment)
    ensures SelectedItems(items + more, experiment) == SelectedItems(items, experiment)
  {
    hide IsSelected;
    if items != [] {
      OthersSelected(items[1..], more, experiment);
      assert (items + more)[1..] == items[1..] + more;
    } else {
      NoneSelected(more, experiment);
      assert items + more == more;
    }
  }

  /** Evidence of an experiment that does not clash leaves a review as it was. */
  lemma OthersEvidence(ref: Reference, items: seq<Item>, more: seq<Item>, other: string)
    requires !Clash(ref.experimentId, other) && forall item :: item in more ==> BelongsTo(item, other)
    ensures Review(ref, items + more) == Review(ref, items)
  {
    forall item | item in more ensures !IsQuality(item, ref.experimentId) && !IsSelected(item, ref.experimentId) {
      NotItsQuality(item, ref.experimentId, other);
      NotItsCandidate(item, ref.experimentId, other);
    }
    OthersQuality(items, more, ref.experimentId);
    OthersSelected(items, more, ref.experimentId);
    hide BindingValid, ReviewItem, QualityItem, SelectedItems, IsQuality, IsSelected, BelongsTo, Clash;
  }

  lemma ExtendedReferences(body: Body, ref: Reference, more: seq<Item>)
    requires body.comparisons.Some? && body.items.Some?
    ensures References(Extended(body, ref, more))
         == References(body) + if IsReference(body.primary) && IsReference(Some(ref)) then [ref] else []
    ensures ReferenceGaps(body) <= ReferenceGaps(Extended(body, ref, more))
  {
    var comparisons := body.comparisons.value + [Some(ref)];
    assert comparisons[..|comparisons| - 1] == body.comparisons.value;
    hide IsReference, Decimal;
  }

  lemma ExtendedOpening(b: Bundle, digest: Body -> string, ref: Reference, more: seq<Item>, newHash: string)
    requires b.body.comparisons.Some? && b.body.items.Some? && b.evidenceHash == digest(b.body)
    ensures LevelOf(Opening(Bundle(Extended(b.body, ref, more), newHash), digest)) >= LevelOf(Opening(b, digest))
  {
    ExtendedReferences(b.body, ref, more);
    hide ReferenceGaps, References;
  }

  /** Each reference keeps its place and its verdict. */
  lemma ExtendedVerdict(body: Body, ref: Reference, more: seq<Item>, i: nat)
    requires body.comparisons.Some? && body.items.Some? && i < |References(body)|
    requires !Clash(References(body)[i].experimentId, ref.experimentId)
    requires forall item :: item in more ==> BelongsTo(item, ref.experimentId)
    ensures i < |References(Extended(body, ref, more))|
    ensures LevelOf(Review(References(Extended(body, ref, more))[i], body.items.value + more))
         == LevelOf(Review(References(body)[i], body.items.value))
  {
    ExtendedReferences(body, ref, more);
    hide Review, References, Extended, Clash;
    OthersEvidence(References(body)[i], body.items.value, more, ref.experimentId);
  }

  /** Adding a comparison that clashes with no reference never moves an intact bundle to a better stance, whatever the new hash. */
  lemma NeverImproves(b: Bundle, digest: Body -> string, ref: Reference, more: seq<Item>, newHash: string)
    requires b.body.comparisons.Some? && b.body.items.Some? && b.evidenceHash == digest(b.body)
    requires forall item :: item in more ==> BelongsTo(item, ref.experimentId)
    requires forall i :: 0 <= i < |References(b.body)| ==> !Clash(References(b.body)[i].experimentId, ref.experimentId)
    ensures Level(Assess(Bundle(Extended(b.body, ref, more), newHash), digest).stance) >= Level(Assess(b, digest).stance)
  {
    var after := Bundle(Extended(b.body, ref, more), newHash);
    var level := Level(Assess(b, digest).stance);
    if level > 0 {
      StanceIsJoin(b, digest, level);
      StanceIsJoin(after, digest, level);
      ExtendedOpening(b, digest, ref, more, newHash);
      assert after.body.items == Some(b.body.items.value + more);
      hide Review, References, Opening, Assess, Extended, Clash;
      forall i | 0 <= i < |References(b.body)| && LevelOf(Review(References(b.body)[i], b.body.items.value)) >= level
        ensures i < |References(after.body)| && LevelOf(Review(References(after.body)[i], after.body.items.value)) >= level
      {
        ExtendedVerdict(b.body, ref, more, i);
      }
    }
  }
}
