/**
 How an assessment is read: the references it is about, the order of its time stamps, the stance its own risks and gaps
 give it, and when it is accepted.
 */
module ReviewReading {
  import opened Prelude
  import opened Texts
  import opened ReviewStance

  // ---------------------------------------------------------------- references

  /** Some character of the text is no space. */
  predicate Inked(s: string) {
    exists i :: 0 <= i < |s| && s[i] != ' ' && s[i] != '\t' && s[i] != '\n' && s[i] != '\r'
  }

  /** A reference that names an experiment and a candidate. */
  predicate Names(r: Option<Reference>) {
    r.Some? && Inked(r.value.experimentId) && Inked(r.value.candidateId)
  }

  /** The indices below `n` of comparisons that name something. */
  function Naming(comparisons: seq<Option<Reference>>, n: nat): set<nat> {
    set i: nat | i < n && i < |comparisons| && Names(comparisons[i])
  }

  lemma InkedMeans(s: string)
    ensures Inked(s) <==> !Blank(s)
  {
    if !Blank(s) {
      var i :| 0 <= i < |s| && !Space(s[i]);
      assert s[i] != ' ' && s[i] != '\t' && s[i] != '\n' && s[i] != '\r';
    }
    if Inked(s) {
      var i :| 0 <= i < |s| && s[i] != ' ' && s[i] != '\t' && s[i] != '\n' && s[i] != '\r';
      assert !Space(s[i]);
    }
  }

  lemma NamesMeans(r: Option<Reference>)
    ensures IsReference(r) <==> Names(r)
  {
    if r.Some? {
      InkedMeans(r.value.experimentId);
      InkedMeans(r.value.candidateId);
    }
  }

  lemma NamingGrows(comparisons: seq<Option<Reference>>, n: nat)
    requires n < |comparisons|
    ensures |Naming(comparisons, n + 1)| == |Naming(comparisons, n)| + if Names(comparisons[n]) then 1 else 0
  {
    var before, after := Naming(comparisons, n), Naming(comparisons, n + 1);
    hide Names;
    assert after == if Names(comparisons[n]) then before + {n} else before;
  }

  /** The k-th naming comparison is the k-th reference kept. */
  lemma {:induction false} ComparisonsKept(comparisons: seq<Option<Reference>>, n: nat)
    requires n <= |comparisons|
    ensures |ValidComparisons(comparisons[..n])| == |Naming(comparisons, n)|
    ensures forall i: nat :: i < n && Names(comparisons[i]) ==>
              |Naming(comparisons, i)| < |Naming(comparisons, n)|
              && ValidComparisons(comparisons[..n])[|Naming(comparisons, i)|] == comparisons[i].value
  {
    hide Names, IsReference;
    if n > 0 {
      ComparisonsKept(comparisons, n - 1);
      NamesMeans(comparisons[n - 1]);
      NamingGrows(comparisons, n - 1);
      assert comparisons[..n][..n - 1] == comparisons[..n - 1];
    }
    hide Naming;
  }

  /**
   The references of a bundle: none without a primary one, otherwise the primary one and then, in their order, the
   comparisons that name an experiment and a candidate.
   */
  lemma ReferencesMean(body: Body)
    ensures !Names(body.primary) ==> References(body) == []
    ensures var given := if body.comparisons.Some? then body.comparisons.value else [];
            Names(body.primary) ==>
              && |References(body)| == 1 + |Naming(given, |given|)| && References(body)[0] == body.primary.value
              && forall i: nat :: i < |given| && Names(given[i]) ==>
                   |Naming(given, i)| < |Naming(given, |given|)| && References(body)[1 + |Naming(given, i)|] == given[i].value
  {
    var given := if body.comparisons.Some? then body.comparisons.value else [];
    NamesMeans(body.primary);
    ComparisonsKept(given, |given|);
    assert given[..|given|] == given;
    hide Names, IsReference, Naming, ValidComparisons;
  }

  // ---------------------------------------------------------------- the order of time stamps

  /** One text is a prefix of the other, or smaller where they first differ. */
  ghost predicate Lexicographic(s: string, t: string) {
    || s <= t
    || exists i: nat :: FirstDifference(s, t, i) && s[i] < t[i]
  }

  predicate FirstDifference(s: string, t: string, i: nat) {
    i < |s| && i < |t| && s[..i] == t[..i] && s[i] != t[i]
  }

  lemma DifferenceBehind(s: string, t: string, i: nat)
    requires s != "" && t != "" && s[0] == t[0]
    ensures FirstDifference(s, t, i + 1) <==> FirstDifference(s[1..], t[1..], i)
  {
    if i + 1 < |s| && i + 1 < |t| {
      assert s[..i + 1] == [s[0]] + s[1..][..i] && t[..i + 1] == [t[0]] + t[1..][..i];
      assert s[1..][..i] == s[..i + 1][1..] && t[1..][..i] == t[..i + 1][1..];
    }
  }

  lemma LexicographicBehind(s: string, t: string)
    requires s != "" && t != "" && s[0] == t[0]
    ensures Lexicographic(s, t) <==> Lexicographic(s[1..], t[1..])
  {
    assert s == [s[0]] + s[1..] && t == [t[0]] + t[1..];
    if i: nat :| FirstDifference(s[1..], t[1..], i) && s[1..][i] < t[1..][i] {
      DifferenceBehind(s, t, i);
      assert s[i + 1] < t[i + 1];
    }
    if i: nat :| FirstDifference(s, t, i) && s[i] < t[i] {
      DifferenceBehind(s, t, i - 1);
      assert s[1..][i - 1] < t[1..][i - 1];
    }
  }

  lemma {:induction false} NotAfterMeans(s: string, t: string)
    ensures NotAfter(s, t) <==> Lexicographic(s, t)
  {
    if s != "" && t != "" {
      if s[0] == t[0] {
        NotAfterMeans(s[1..], t[1..]);
        LexicographicBehind(s, t);
        hide Lexicographic;
      } else {
        assert FirstDifference(s, t, 0);
      }
    }
  }

  // ---------------------------------------------------------------- the stance

  predicate HasCritical(risks: seq<Risk>) {
    exists i :: 0 <= i < |risks| && risks[i].severity == Critical
  }

  predicate Told(f: Findings) {
    f.blocked <==> HasCritical(f.risks)
  }

  lemma BothTold(a: Findings, b: Findings)
    requires Told(a) && Told(b)
    ensures Told(Both(a, b))
  {
    var risks := Both(a, b).risks;
    if HasCritical(a.risks) {
      var i :| 0 <= i < |a.risks| && a.risks[i].severity == Critical;
      assert risks[i] == a.risks[i];
    }
    if HasCritical(b.risks) {
      var i :| 0 <= i < |b.risks| && b.risks[i].severity == Critical;
      assert risks[|a.risks| + i] == b.risks[i];
    }
  }

  lemma OpeningTold(b: Bundle, digest: Body -> string)
    ensures Told(Opening(b, digest))
  {
    hide ReferenceGaps;
    var hash := if b.evidenceHash == digest(b.body) then NOTHING else Block(HashMismatch, []);
    var boundary := if b.body.boundarySafe then NOTHING else Block(BoundaryInvalid, []);
    BlockTold(HashMismatch, []);
    BlockTold(BoundaryInvalid, []);
    BothTold(hash, boundary);
    BothTold(Findings(false, [], ReferenceGaps(b.body), None), Both(hash, boundary));
  }

  lemma BlockTold(concern: Concern, references: seq<string>)
    ensures Told(Block(concern, references)) && Told(NOTHING)
  {
    assert Block(concern, references).risks[0].severity == Critical;
  }

  lemma ReviewTold(ref: Reference, items: seq<Item>)
    ensures Told(Review(ref, items))
  {
    hide QualityItem, SelectedItems, BindingValid, ReviewMetrics, Both, Told;
    QualityTold(ref, items);
    CandidateTold(ref, items);
    BothTold(ReviewQuality(ref, items), ReviewCandidate(ref, items));
  }

  lemma QualityTold(ref: Reference, items: seq<Item>)
    ensures Told(ReviewQuality(ref, items))
  {
    hide QualityItem, BindingValid, QualityId, Both, Block;
    var id := QualityId(ref.experimentId);
    BlockTold(QualityIncomplete, [id]);
    BlockTold(BindingConflict, [id]);
    if QualityItem(items, ref.experimentId).Some? && QualityItem(items, ref.experimentId).value.value.Some? {
      var v := QualityItem(items, ref.experimentId).value.value.value;
      BothTold(if v.isComplete then NOTHING else Block(QualityIncomplete, [id]),
               if BindingValid(ref, v) then NOTHING else Block(BindingConflict, [id]));
    }
  }

  lemma CandidateTold(ref: Reference, items: seq<Item>)
    ensures Told(ReviewCandidate(ref, items))
  {
    hide SelectedItems, CandidatePrefix, ReviewGate, ReviewMetrics, Both;
    var selected := SelectedItems(items, ref.experimentId);
    if |selected| == 1 && selected[0].id.Some? && selected[0].value.Some? {
      var id, v := selected[0].id.value, selected[0].value.value;
      GateTold(v.gate, id);
      MetricsTold(ref, id, v);
      BothTold(ReviewGate(v.gate, id), ReviewMetrics(ref, id, v));
    }
  }

  lemma GateTold(gate: Option<Gate>, id: string)
    ensures Told(ReviewGate(gate, id))
  {
    BlockTold(GateConflict, [id]);
    BlockTold(GateFailed, [id]);
    hide GateConflicts, Told, Block;
  }

  lemma MetricsTold(ref: Reference, id: string, v: Value)
    ensures Told(ReviewMetrics(ref, id, v))
  {
    hide WindowsKnown, MostFail, Direction;
  }

  lemma {:induction false} AllTold(refs: seq<Reference>, items: seq<Item>)
    ensures Told(ReviewAll(refs, items))
  {
    hide Review, Both, Told;
    if refs == [] {
      BlockTold(HashMismatch, []);
    } else {
      var n := |refs| - 1;
      AllTold(refs[..n], items);
      ReviewTold(refs[n], items);
      BothTold(ReviewAll(refs[..n], items), Review(refs[n], items));
    }
  }

  lemma {:induction false} DistinctKeepsSome(s: seq<string>)
    ensures Distinct(s) == [] <==> s == []
  {
    if s != [] {
      DistinctKeepsSome(s[..|s| - 1]);
    }
  }

  /** The stance can be read off the reported risks and gaps: a critical risk, else a gap, else a risk decides. */
  lemma StanceReads(b: Bundle, digest: Body -> string)
    requires b.body.items.Some?
    ensures var a := Assess(b, digest);
            && (a.stance == Blocked <==> HasCritical(a.risks))
            && (a.stance == Insufficient <==> !HasCritical(a.risks) && |a.gaps| > 0)
            && (a.stance == Caution <==> !HasCritical(a.risks) && |a.gaps| == 0 && |a.risks| > 0)
            && (a.stance == Supported <==> |a.risks| == 0 && |a.gaps| == 0)
  {
    OpeningTold(b, digest);
    AllTold(References(b.body), b.body.items.value);
    BothTold(Opening(b, digest), ReviewAll(References(b.body), b.body.items.value));
    DistinctKeepsSome(AllFindings(b, digest).gaps);
    hide Opening, ReviewAll, References, Signatures, ConsistencyOf, Distinct, Both;
  }

  // ---------------------------------------------------------------- what is issued

  /** A text that is not all space, of at most 2000 characters. */
  predicate Short(s: string) {
    Inked(s) && |s| <= 2000
  }

  /** The id belongs to an item of the bundle. */
  predicate Held(items: seq<Item>, id: string) {
    exists i :: 0 <= i < |items| && items[i].id == Some(id)
  }

  predicate Cites(risk: Risk, items: seq<Item>) {
    |risk.references| <= 50 && forall i :: 0 <= i < |risk.references| ==> Short(risk.references[i]) && Held(items, risk.references[i])
  }

  lemma ShortMeans(s: string)
    ensures Text(s) <==> Short(s)
  {
    InkedMeans(s);
  }

  lemma HeldMeans(items: seq<Item>, id: string)
    requires Text(id)
    ensures id in KnownIds(items) <==> Held(items, id)
  {
    if Held(items, id) {
      var i :| 0 <= i < |items| && items[i].id == Some(id);
      assert items[i].id.Some? && !Blank(items[i].id.value);
    }
  }

  lemma CitesMeans(risk: Risk, items: seq<Item>)
    ensures RiskError(risk, KnownIds(items)).None? <==> Cites(risk, items)
  {
    hide Text, KnownIds, Held, Short;
    if |risk.references| <= MAX_ITEMS {
      var known := KnownIds(items);
      var check := (i: nat) =>
        if i >= |risk.references| then None
        else if !Text(risk.references[i]) then Some(ReferenceInvalid)
        else if risk.references[i] !in known then Some(ReferenceUnknown)
        else None;
      NoErrorIffAllPass(|risk.references|, check);
      assert RiskError(risk, known) == FirstError(|risk.references|, check);
      forall i: nat | i < |risk.references|
        ensures check(i).None? <==> Short(risk.references[i]) && Held(items, risk.references[i])
      {
        ShortMeans(risk.references[i]);
        if Text(risk.references[i]) {
          HeldMeans(items, risk.references[i]);
        }
      }
    }
  }

  /** An assessment is issued exactly when it and its risks and gaps are short and every reference is an id of the bundle. */
  lemma AcceptedExactly(b: Bundle, digest: Body -> string)
    ensures b.body.items.None? ==> Evaluate(b, digest) == Err(ItemsNotArray)
    ensures b.body.items.Some? ==>
              var a := Assess(b, digest);
              (Evaluate(b, digest) == Ok(a) <==>
                && |a.risks| <= 50 && (forall i :: 0 <= i < |a.risks| ==> Cites(a.risks[i], b.body.items.value))
                && |a.gaps| <= 50 && (forall i :: 0 <= i < |a.gaps| ==> Short(a.gaps[i])))
    ensures Evaluate(b, digest).Ok? ==> b.body.items.Some? && Evaluate(b, digest).value == Assess(b, digest)
  {
    hide Assess, KnownIds, Cites;
    if b.body.items.Some? {
      IssuedExactly(Assess(b, digest), b.body.items.value);
    }
    hide AssessmentError;
  }

  lemma IssuedExactly(a: Assessment, items: seq<Item>)
    ensures AssessmentError(a, KnownIds(items)).None? <==>
              && |a.risks| <= 50 && (forall i :: 0 <= i < |a.risks| ==> Cites(a.risks[i], items))
              && |a.gaps| <= 50 && (forall i :: 0 <= i < |a.gaps| ==> Short(a.gaps[i]))
  {
    hide Text, KnownIds, Cites, Short, RiskError;
    var known := KnownIds(items);
    var risky := (i: nat) => if i < |a.risks| then RiskError(a.risks[i], known) else None;
    var long := (i: nat) => if i < |a.gaps| && !Text(a.gaps[i]) then Some(GapInvalid) else None;
    NoErrorIffAllPass(|a.risks|, risky);
    NoErrorIffAllPass(|a.gaps|, long);
    forall i: nat | i < |a.risks| ensures risky(i).None? <==> Cites(a.risks[i], items) {
      CitesMeans(a.risks[i], items);
    }
    forall i: nat | i < |a.gaps| ensures long(i).None? <==> Short(a.gaps[i]) {
      ShortMeans(a.gaps[i]);
    }
  }
}
