/**
 What the consistency verdict means, read off the evidence itself: for experiments that all show a complete selected
 candidate, how many of the compared ones differ from the primary in a direction or in a threshold crossed.
 */
module ReviewConsistency {
  import opened Prelude
  import opened ReviewStance
  import opened Texts
  import opened ReviewVerdicts

  // ---------------------------------------------------------------- the evidence of one experiment

  /** The item is a selected candidate of the experiment. */
  predicate Selects(item: Item, experiment: string) {
    && item.kind == "candidate_metrics" && item.value.Some? && item.value.value.selected
    && item.id.Some? && "experiment:" + experiment + ":candidate:" <= item.id.value
  }

  /** The only selected candidate is the referenced one, and its metrics and windows are complete. */
  ghost predicate ShowsAt(ref: Reference, items: seq<Item>, c: nat) {
    && c < |items| && (forall j: nat :: j < |items| ==> (Selects(items[j], ref.experimentId) <==> j == c))
    && items[c].id == Some("experiment:" + ref.experimentId + ":candidate:" + ref.candidateId)
    && Complete(items[c].value.value, ref.candidateId)
  }

  predicate Complete(v: Value, candidate: string) {
    && v.candidateId == Some(candidate) && v.validation.Some? && v.test.Some?
    && v.windows.Some? && v.windows.value != [] && None !in v.windows.value
  }

  /** The windows whose return is not positive. */
  function Lost(windows: seq<Option<real>>): set<nat> {
    set i: nat | i < |windows| && windows[i].Some? && windows[i].value <= 0.0
  }

  predicate SameSign(x: real, y: real) {
    (x > 0.0 <==> y > 0.0) && (x < 0.0 <==> y < 0.0)
  }

  /** The same directions, and the same of the drawdown, trade and window thresholds crossed. */
  predicate Alike(v: Value, w: Value)
    requires v.validation.Some? && v.test.Some? && v.windows.Some?
    requires w.validation.Some? && w.test.Some? && w.windows.Some?
  {
    && SameSign(v.validation.value.totalReturn, w.validation.value.totalReturn)
    && SameSign(v.test.value.totalReturn, w.test.value.totalReturn)
    && (v.validation.value.maxDrawdown > 15.0 <==> w.validation.value.maxDrawdown > 15.0)
    && (v.test.value.maxDrawdown > 15.0 <==> w.test.value.maxDrawdown > 15.0)
    && (Few(v) <==> Few(w))
    && (2 * |Lost(v.windows.value)| > |v.windows.value| <==> 2 * |Lost(w.windows.value)| > |w.windows.value|)
  }

  predicate Few(v: Value)
    requires v.validation.Some? && v.test.Some?
  {
    v.validation.value.tradeCount < 10.0 || v.test.value.tradeCount < 10.0
  }

  ghost predicate Shown(ref: Reference, items: seq<Item>) {
    exists c: nat :: ShowsAt(ref, items, c)
  }

  /** Both show complete evidence, and it differs. */
  ghost predicate Differs(ref: Reference, other: Reference, items: seq<Item>) {
    exists c: nat, d: nat :: ShowsAt(ref, items, c) && ShowsAt(other, items, d) && !Alike(items[c].value.value, items[d].value.value)
  }

  // ---------------------------------------------------------------- counting

  lemma {:induction false} LostCounts(windows: seq<Option<real>>)
    ensures Failures(windows) == |Lost(windows)|
  {
    if windows != [] {
      var rest := windows[1..];
      LostCounts(rest);
      var moved := set i | i in Lost(rest) :: i + 1;
      ShiftKeepsSize(Lost(rest), moved);
      var first: set<nat> := if windows[0].Some? && windows[0].value <= 0.0 then {0} else {};
      assert Lost(windows) == first + moved by {
        forall i: nat ensures i in Lost(windows) <==> i in first + moved {
          if i > 0 && i in Lost(windows) {
            assert rest[i - 1] == windows[i] && i - 1 in Lost(rest);
          }
          if i in moved {
            assert rest[i - 1] == windows[i];
          }
        }
      }
      assert first * moved == {};
    }
  }

  lemma {:induction false} ShiftKeepsSize(s: set<nat>, t: set<nat>)
    requires t == set i | i in s :: i + 1
    ensures |t| == |s|
    decreases s
  {
    if s != {} {
      var x :| x in s;
      var u := set i | i in s - {x} :: i + 1;
      ShiftKeepsSize(s - {x}, u);
      forall i: nat ensures i in t <==> i in u + {x + 1} {
        if i in t {
          assert i == x + 1 || i - 1 in s - {x};
        }
      }
      assert t == u + {x + 1};
    }
  }

  // ---------------------------------------------------------------- signatures

  lemma SelectsIsSelected(item: Item, experiment: string)
    ensures Selects(item, experiment) <==> IsSelected(item, experiment)
  {
  }

  lemma OnlyOne(items: seq<Item>, experiment: string, c: nat)
    ensures OnlySelected(items, experiment, c)
       <==> c < |items| && forall j: nat :: j < |items| ==> (Selects(items[j], experiment) <==> j == c)
  {
    forall j: nat | j < |items| ensures Selects(items[j], experiment) <==> IsSelected(items[j], experiment) {
      SelectsIsSelected(items[j], experiment);
    }
    hide Selects, IsSelected;
  }

  /** The signature that complete evidence leads to. */
  function SignatureOf(v: Value): Signature
    requires v.validation.Some? && v.test.Some? && v.windows.Some?
  {
    Signature(Direction(v.validation.value.totalReturn), Direction(v.test.value.totalReturn),
              v.validation.value.maxDrawdown > 15.0, v.test.value.maxDrawdown > 15.0,
              Few(v), 2 * |Lost(v.windows.value)| > |v.windows.value|)
  }

  lemma WindowsAgree(v: Value)
    ensures WindowsKnown(v.windows) <==> v.windows.Some? && v.windows.value != [] && None !in v.windows.value
    ensures WindowsKnown(v.windows) ==> (MostFail(v.windows.value) <==> 2 * |Lost(v.windows.value)| > |v.windows.value|)
  {
    if WindowsKnown(v.windows) {
      MajorityFails(v.windows.value);
      LostCounts(v.windows.value);
    }
    hide MostFail, Failures, Lost;
    if v.windows.Some? {
      assert forall i :: 0 <= i < |v.windows.value| ==> (v.windows.value[i].None? <==> v.windows.value[i] == None);
    }
  }

  lemma MetricsSignature(ref: Reference, id: string, v: Value)
    ensures ReviewMetrics(ref, id, v).signature
         == if v.validation.Some? && v.test.Some? && WindowsKnown(v.windows) then Some(SignatureOf(v)) else None
  {
    WindowsAgree(v);
    hide WindowsKnown, MostFail, Lost, Direction;
  }

  /** A review has a signature exactly when the evidence is complete, and then the one it leads to. */
  lemma ReviewSignature(ref: Reference, items: seq<Item>)
    ensures Review(ref, items).signature.Some? <==> exists c: nat :: ShowsAt(ref, items, c)
    ensures forall c: nat :: ShowsAt(ref, items, c) ==> ReadsAs(items[c], Review(ref, items).signature)
  {
    OneSelected(items, ref.experimentId);
    NoGateSignature(ref, items);
    hide IsSelected, Selects, ReviewItem, Review, ReadsAs, ShowsAt;
    if |SelectedItems(items, ref.experimentId)| == 1 {
      var c: nat :| OnlySelected(items, ref.experimentId, c);
      ItemSignature(ref, items, c);
    }
    forall c: nat | ShowsAt(ref, items, c) ensures OnlySelected(items, ref.experimentId, c) && ReadsAs(items[c], Review(ref, items).signature) {
      ShownIsOnly(ref, items, c);
      ItemSignature(ref, items, c);
    }
  }

  lemma ShownIsOnly(ref: Reference, items: seq<Item>, c: nat)
    requires ShowsAt(ref, items, c)
    ensures OnlySelected(items, ref.experimentId, c)
  {
    OnlyOne(items, ref.experimentId, c);
  }

  /** The item's value is complete and has this signature. */
  ghost predicate ReadsAs(item: Item, signature: Option<Signature>) {
    && item.value.Some? && item.value.value.validation.Some? && item.value.value.test.Some? && item.value.value.windows.Some?
    && signature == Some(SignatureOf(item.value.value))
  }

  /** Only the metrics leave a signature. */
  lemma NoGateSignature(ref: Reference, items: seq<Item>)
    ensures Review(ref, items).signature == ReviewCandidate(ref, items).signature
  {
    hide ReviewCandidate;
  }

  lemma ItemSignature(ref: Reference, items: seq<Item>, c: nat)
    requires OnlySelected(items, ref.experimentId, c)
    ensures ReviewItem(ref, items[c]).signature.Some? <==> ShowsAt(ref, items, c)
    ensures ShowsAt(ref, items, c) ==> ReadsAs(items[c], ReviewItem(ref, items[c]).signature)
  {
    OnlyOne(items, ref.experimentId, c);
    SelectedHasParts(items[c], ref.experimentId);
    var id, v := items[c].id.value, items[c].value.value;
    CandidateId(ref);
    hide CandidatePrefix, IsSelected, Selects, ReviewMetrics, WindowsKnown, SignatureOf, ReviewGate, OnlySelected;
    MetricsSignature(ref, id, v);
    WindowsAgree(v);
    GateHasNoSignature(v.gate, id);
  }

  lemma SelectedHasParts(item: Item, experiment: string)
    requires Selects(item, experiment)
    ensures item.id.Some? && item.value.Some?
  {
  }

  lemma CandidateId(ref: Reference)
    ensures "experiment:" + ref.experimentId + ":candidate:" + ref.candidateId == CandidatePrefix(ref.experimentId) + ref.candidateId
  {
  }

  lemma GateHasNoSignature(gate: Option<Gate>, id: string)
    ensures ReviewGate(gate, id).signature.None?
  {
  }

  lemma DirectionIsSign(x: real, y: real)
    ensures Direction(x) == Direction(y) <==> SameSign(x, y)
  {
  }

  lemma SameSignatureIsAlike(v: Value, w: Value)
    requires v.validation.Some? && v.test.Some? && v.windows.Some?
    requires w.validation.Some? && w.test.Some? && w.windows.Some?
    ensures SignatureOf(v) == SignatureOf(w) <==> Alike(v, w)
  {
    DirectionIsSign(v.validation.value.totalReturn, w.validation.value.totalReturn);
    DirectionIsSign(v.test.value.totalReturn, w.test.value.totalReturn);
    hide Direction, SameSign, Lost;
  }

  // ---------------------------------------------------------------- the verdict

  ghost predicate DistinctIds(refs: seq<Reference>) {
    forall i, j :: 0 <= i < j < |refs| ==> refs[i].experimentId != refs[j].experimentId
  }

  /** What is recorded for a reference is its own review's signature. */
  ghost predicate Recorded(signatures: map<string, Signature>, ref: Reference, items: seq<Item>) {
    var found := Review(ref, items).signature;
    && (ref.experimentId in signatures <==> found.Some?)
    && (found.Some? ==> signatures[ref.experimentId] == found.value)
  }

  lemma {:induction false} SignaturesOf(refs: seq<Reference>, items: seq<Item>)
    requires DistinctIds(refs)
    ensures forall id :: id in Signatures(refs, items) ==> exists i :: 0 <= i < |refs| && refs[i].experimentId == id
    ensures forall i :: 0 <= i < |refs| ==> Recorded(Signatures(refs, items), refs[i], items)
  {
    hide Review;
    if refs != [] {
      var n := |refs| - 1;
      SignaturesOf(refs[..n], items);
      assert refs[n].experimentId !in Signatures(refs[..n], items);
      forall i | 0 <= i < |refs| ensures Recorded(Signatures(refs, items), refs[i], items) {
        assert i < n ==> refs[..n][i] == refs[i];
      }
    }
  }

  /** The compared references that differ from the primary. */
  ghost function Differing(refs: seq<Reference>, items: seq<Item>): set<nat> {
    set i: nat | 0 < i < |refs| && Differs(refs[0], refs[i], items)
  }

  ghost predicate InConflict(ref: Reference, signatures: map<string, Signature>, primary: Signature) {
    !(ref.experimentId in signatures && signatures[ref.experimentId] == primary)
  }

  ghost function Conflicting(refs: seq<Reference>, signatures: map<string, Signature>, primary: Signature): set<nat> {
    set i: nat | i < |refs| && InConflict(refs[i], signatures, primary)
  }

  lemma {:induction false} ConflictsCount(refs: seq<Reference>, signatures: map<string, Signature>, primary: Signature)
    ensures Conflicts(refs, signatures, primary) == |Conflicting(refs, signatures, primary)|
  {
    if refs == [] {
      assert Conflicting(refs, signatures, primary) == {};
    } else {
      var n := |refs| - 1;
      ConflictsCount(refs[..n], signatures, primary);
      assert Conflicting(refs, signatures, primary)
          == Conflicting(refs[..n], signatures, primary) + if InConflict(refs[n], signatures, primary) then {n as nat} else {};
    }
  }

  lemma DiffersIff(ref: Reference, other: Reference, items: seq<Item>)
    requires Shown(ref, items) && Shown(other, items)
    ensures Review(ref, items).signature.Some? && Review(other, items).signature.Some?
    ensures Differs(ref, other, items) <==> Review(ref, items).signature != Review(other, items).signature
  {
    ReviewSignature(ref, items);
    ReviewSignature(other, items);
    hide Review, SignatureOf, Alike;
    var c: nat :| ShowsAt(ref, items, c);
    var d: nat :| ShowsAt(other, items, d);
    SameSignatureIsAlike(items[c].value.value, items[d].value.value);
    OnlyOneShown(ref, items, c);
    OnlyOneShown(other, items, d);
    hide ShowsAt;
  }

  lemma OnlyOneShown(ref: Reference, items: seq<Item>, c: nat)
    requires ShowsAt(ref, items, c)
    ensures forall d: nat :: ShowsAt(ref, items, d) ==> d == c
  {
    hide Selects;
  }

  lemma CountConflicts(refs: seq<Reference>, items: seq<Item>)
    requires DistinctIds(refs) && |refs| >= 2 && forall i :: 0 <= i < |refs| ==> Shown(refs[i], items)
    ensures refs[0].experimentId in Signatures(refs, items)
    ensures Conflicts(refs[1..], Signatures(refs, items), Signatures(refs, items)[refs[0].experimentId]) == |Differing(refs, items)|
  {
    hide Review, Shown, Differs, Signatures;
    SignaturesOf(refs, items);
    var signatures := Signatures(refs, items);
    DiffersIff(refs[0], refs[0], items);
    assert Recorded(signatures, refs[0], items);
    var primary := signatures[refs[0].experimentId];
    ConflictsCount(refs[1..], signatures, primary);
    forall i: nat | i < |refs| - 1 ensures InConflict(refs[1..][i], signatures, primary) <==> Differs(refs[0], refs[i + 1], items) {
      DiffersIff(refs[0], refs[i + 1], items);
      assert refs[1..][i] == refs[i + 1] && Recorded(signatures, refs[i + 1], items);
    }
    hide InConflict, Recorded, Conflicts;
    var moved := set i | i in Conflicting(refs[1..], signatures, primary) :: i + 1;
    ShiftKeepsSize(Conflicting(refs[1..], signatures, primary), moved);
    forall i: nat ensures i in moved <==> i in Differing(refs, items) {
      if i in Differing(refs, items) {
        assert i - 1 in Conflicting(refs[1..], signatures, primary);
      }
    }
    assert moved == Differing(refs, items);
  }

  /**
   For distinct experiments: insufficient exactly when there is nothing to compare or some reference shows no complete
   candidate; otherwise consistent exactly when no compared experiment differs from the primary, divergent exactly when
   more than half do, and mixed for the rest.
   */
  lemma ConsistencyExactly(b: Bundle, digest: Body -> string)
    requires b.body.items.Some? && DistinctIds(References(b.body))
    ensures var refs, items := References(b.body), b.body.items.value;
            var verdict, differing := Assess(b, digest).consistency, |Differing(refs, items)|;
            && (verdict == TooFew <==> |refs| < 2 || exists i :: 0 <= i < |refs| && !Shown(refs[i], items))
            && (verdict == Consistent <==> verdict != TooFew && differing == 0)
            && (verdict == Divergent <==> verdict != TooFew && 2 * differing > |refs| - 1)
            && (verdict == Mixed <==> verdict != TooFew && differing > 0 && 2 * differing <= |refs| - 1)
  {
    VerdictExactly(References(b.body), b.body.items.value);
    hide References, Differing, Shown, ConsistencyOf, AllFindings, Signatures;
  }

  lemma VerdictExactly(refs: seq<Reference>, items: seq<Item>)
    requires DistinctIds(refs)
    ensures var verdict, differing := ConsistencyOf(refs, Signatures(refs, items)), |Differing(refs, items)|;
            && (verdict == TooFew <==> |refs| < 2 || exists i :: 0 <= i < |refs| && !Shown(refs[i], items))
            && (verdict == Consistent <==> verdict != TooFew && differing == 0)
            && (verdict == Divergent <==> verdict != TooFew && 2 * differing > |refs| - 1)
            && (verdict == Mixed <==> verdict != TooFew && differing > 0 && 2 * differing <= |refs| - 1)
  {
    hide Shown, Differing, Signatures, Conflicts, DistinctIds;
    forall i | 0 <= i < |refs| ensures Shown(refs[i], items) <==> refs[i].experimentId in Signatures(refs, items) {
      ShownIsRecorded(refs, items, i);
    }
    if |refs| >= 2 && forall i :: 0 <= i < |refs| ==> Shown(refs[i], items) {
      CountConflicts(refs, items);
    }
  }

  lemma ShownIsRecorded(refs: seq<Reference>, items: seq<Item>, i: nat)
    requires DistinctIds(refs) && i < |refs|
    ensures Shown(refs[i], items) <==> refs[i].experimentId in Signatures(refs, items)
  {
    SignaturesOf(refs, items);
    ReviewSignature(refs[i], items);
    hide Review, Signatures, ShowsAt;
    assert Recorded(Signatures(refs, items), refs[i], items);
  }
}
