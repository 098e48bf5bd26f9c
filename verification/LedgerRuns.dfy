/** Replacement, deletion, and the properties that hold in every state any run of transactions reaches. */
module LedgerRuns {
  import opened Prelude
  import opened Ledger
  import opened LedgerChains
  import opened LedgerEffects
  import opened LedgerInvariant

  // ---------------------------------------------------------------- replacing a run

  lemma KeptReviews(c: Codec, table: map<string, Review>, a: Archive, after: map<string, Review>)
    requires TableOk(c, table) && ReviewsOk(c, a) && Written(WithoutRun(table, a.runId), a, after)
    requires forall r :: r in a.legacy + a.authoritative ==> r.id !in WithoutRun(table, a.runId) && after[r.id] == r
    ensures TableOk(c, after)
    ensures forall id :: id in table && table[id].runId != a.runId ==> id in after && after[id] == table[id]
    ensures forall r :: r in a.authoritative ==> r.id in after && after[r.id] == r
  {
  }

  /** Preserved decisions were checked against the reviews that replace theirs, so they stay bound. */
  lemma PreservedRowsOk(c: Codec, db: Db, a: Archive, after: map<string, Review>)
    requires Inv(c, db) && ReviewsOk(c, a)
    requires DecisionArchiveError(c, Within(db.rows, AuthoritativeIdsOfRun(db.reviews, a.runId)), a.authoritative).None?
    requires forall id :: id in db.reviews && db.reviews[id].runId != a.runId ==> id in after && after[id] == db.reviews[id]
    requires forall r :: r in a.authoritative ==> r.id in after && after[r.id] == r
    ensures RowsOk(c, after, db.rows)
  {
    var current := AuthoritativeIdsOfRun(db.reviews, a.runId);
    var kept := Within(db.rows, current);
    WithoutMembers(db.rows, current);
    DecisionArchiveIff(c, kept, a.authoritative);
    forall d | d in db.rows
      ensures d.reviewId in after && after[d.reviewId].Authoritative? && BindingError(d, after[d.reviewId]).None?
    {
      if d.reviewId in current {
        assert d in kept;
        var r :| r in a.authoritative && r.id == d.reviewId;
        assert BindingError(d, r).None?;
      }
    }
  }

  ghost function Cleared(db: Db, a: Archive): seq<Decision> {
    Without(db.rows, AuthoritativeIdsOfRun(db.reviews, a.runId) + Ids(a.authoritative))
  }

  lemma ClearedRows(c: Codec, db: Db, a: Archive)
    requires Inv(c, db)
    ensures Distinct(Cleared(db, a)) && AllLinked(Cleared(db, a))
    ensures forall rid :: rid in Ids(a.authoritative) ==> Chain(Cleared(db, a), rid) == []
  {
    var gone := AuthoritativeIdsOfRun(db.reviews, a.runId) + Ids(a.authoritative);
    DeleteByReviewsKeepsInv(c, db, gone);
    forall rid | rid in Ids(a.authoritative) ensures Chain(Cleared(db, a), rid) == [] {
      ChainOfWithout(db.rows, gone, rid);
    }
  }

  lemma ClearedSameOwner(db: Db, a: Archive)
    requires SameRecords(db.rows, a.decisions, AuthoritativeIdsOfRun(db.reviews, a.runId))
    ensures SameOwner(Cleared(db, a), a.decisions)
  {
    WithoutMembers(db.rows, AuthoritativeIdsOfRun(db.reviews, a.runId) + Ids(a.authoritative));
  }

  /** Deleting every decision of the replaced reviews makes room for the archived chains. */
  lemma ClearedAcceptsArchive(c: Codec, db: Db, a: Archive)
    requires Inv(c, db) && ReviewsOk(c, a) && DecisionsOk(c, a)
    requires SameRecords(db.rows, a.decisions, AuthoritativeIdsOfRun(db.reviews, a.runId))
    ensures Distinct(AppliedRows(Cleared(db, a), a))
    ensures AllCompatible(Cleared(db, a), a.authoritative, a.decisions)
    ensures ApplyDecisions(c, Cleared(db, a), a.authoritative, a.decisions) == Ok(AppliedRows(Cleared(db, a), a))
  {
    ClearedRows(c, db, a);
    ClearedSameOwner(db, a);
    forall r | r in a.authoritative
      ensures ValidatedRows(c, Cleared(db, a), r).Ok? && Compatible(Chain(Cleared(db, a), r.id), Chain(a.decisions, r.id))
    {
      ValidatedRowsIff(c, Cleared(db, a), r);
    }
    AppliedInserts(c, Cleared(db, a), a);
  }

  ghost predicate ReplaceAccepted(c: Codec, db: Db, a: Archive, preserve: bool) {
    var current := AuthoritativeIdsOfRun(db.reviews, a.runId);
    && ReviewsOk(c, a) && DecisionsOk(c, a)
    && OwnershipError(db.reviews, a, Some(a.runId)).None?
    && (if preserve then DecisionArchiveError(c, Within(db.rows, current), a.authoritative).None?
        else SameRecords(db.rows, a.decisions, current))
  }

  lemma PreflightReplaceIff(c: Codec, db: Db, a: Archive, preserve: bool)
    requires Inv(c, db)
    ensures PreflightReplace(c, db, a, preserve).None? <==> ReplaceAccepted(c, db, a, preserve)
  {
    var current := AuthoritativeIdsOfRun(db.reviews, a.runId);
    ArchiveIff(c, a);
    WithoutMembers(db.rows, current);
    GlobalIdIff(c, db.rows, a.decisions, current);
  }

  /** The preflight of a replace is exact, in either preserve mode: what it accepts commits. */
  lemma PreflightReplaceIsExact(c: Codec, db: Db, a: Archive, preserve: bool)
    requires Inv(c, db)
    ensures match PreflightReplace(c, db, a, preserve)
            case Some(e) => ReplaceArchive(c, db, a, preserve) == Err(e)
            case None => ReplaceArchive(c, db, a, preserve).Ok?
  {
    hide Inv, PreflightReplace, ReviewsOk, DecisionsOk, OwnershipError, DecisionArchiveError, WriteArchive, ApplyDecisions,
         AppliedRows, Distinct, AllCompatible, SameRecords;
    PreflightReplaceIff(c, db, a, preserve);
    if PreflightReplace(c, db, a, preserve).None? {
      WriteReplaceIff(c, db.reviews, a);
      if !preserve {
        ClearedAcceptsArchive(c, db, a);
      }
    }
  }

  lemma ReplaceKeepsInv(c: Codec, db: Db, a: Archive, preserve: bool)
    requires Inv(c, db) && ReplaceArchive(c, db, a, preserve).Ok?
    ensures Inv(c, ReplaceArchive(c, db, a, preserve).value)
  {
    PreflightReplaceIff(c, db, a, preserve);
    WriteReplaceIff(c, db.reviews, a);
    var after := ReplaceArchive(c, db, a, preserve).value;
    KeptReviews(c, db.reviews, a, after.reviews);
    if preserve {
      PreservedRowsOk(c, db, a, after.reviews);
    } else {
      ClearedKeepsInv(c, db, a, after.reviews);
    }
  }

  lemma ClearedKeepsInv(c: Codec, db: Db, a: Archive, table: map<string, Review>)
    requires Inv(c, db) && ReplaceAccepted(c, db, a, false) && TableOk(c, table)
    requires forall id :: id in db.reviews && db.reviews[id].runId != a.runId ==> id in table && table[id] == db.reviews[id]
    requires forall r :: r in a.authoritative ==> r.id in table && table[r.id] == r
    ensures ApplyDecisions(c, Cleared(db, a), a.authoritative, a.decisions) == Ok(AppliedRows(Cleared(db, a), a))
    ensures Inv(c, Db(table, AppliedRows(Cleared(db, a), a)))
  {
    ClearedRows(c, db, a);
    ClearedAcceptsArchive(c, db, a);
    WithoutMembers(db.rows, AuthoritativeIdsOfRun(db.reviews, a.runId) + Ids(a.authoritative));
    assert RowsOk(c, table, Cleared(db, a));
    AppliedRowsOk(c, table, Cleared(db, a), a);
    AppliedLinked(c, Cleared(db, a), a);
  }

  // ---------------------------------------------------------------- deletions

  lemma DeleteByReviewsKeepsInv(c: Codec, db: Db, ids: set<string>)
    requires Inv(c, db)
    ensures Inv(c, DeleteByReviews(db, ids))
  {
    WithoutMembers(db.rows, ids);
    WithoutDistinct(db.rows, ids);
    forall rid ensures Linked(Chain(Without(db.rows, ids), rid)) {
      ChainOfWithout(db.rows, ids, rid);
    }
  }

  /** Deleting a run's reviews on their own is safe exactly when none of them still has a decision. */
  lemma DeleteByRunIff(c: Codec, db: Db, runId: string)
    requires Inv(c, db)
    ensures Inv(c, DeleteByRun(db, runId)) <==> Within(db.rows, AuthoritativeIdsOfRun(db.reviews, runId)) == []
  {
    var current := AuthoritativeIdsOfRun(db.reviews, runId);
    var kept := Within(db.rows, current);
    WithoutMembers(db.rows, current);
    if kept != [] {
      assert kept[0] in kept && kept[0].reviewId !in DeleteByRun(db, runId).reviews;
    } else {
      forall d | d in db.rows ensures d.reviewId !in current {
        assert d !in kept;
      }
    }
  }

  /**
   Under every codec, for every review and first decision it accepts: recording the review and appending the decision
   leaves a good state, and a bare delete of the review's run orphans the decision.
   */
  lemma DeleteByRunCanOrphan(c: Codec, r: Review, request: Request, freshId: string, now: string)
    requires AuthoritativeOk(c, r) && c.requestOk(request) && request.supersedes == None
    requires DecisionError(c, NewDecision(c, r, request, freshId, now)).None?
    ensures var db := Run(c, EMPTY, [RecordV2Op(r), AppendOp(r.id, request, freshId, now)]);
            && db == Db(map[r.id := r], [NewDecision(c, r, request, freshId, now)])
            && Inv(c, db) && !Inv(c, DeleteByRun(db, r.runId))
  {
    var record, append := RecordV2Op(r), AppendOp(r.id, request, freshId, now);
    var ops := [record, append];
    assert ops[..1] == [record] && [record][..0] == [];
    assert Run(c, EMPTY, [record]) == Step(c, Run(c, EMPTY, []), record) == Step(c, EMPTY, record);
    var one := Run(c, EMPTY, [record]);
    assert one == Db(map[r.id := r], []);
    assert Inv(c, one);
    hide Run;
    assert Run(c, EMPTY, ops) == Step(c, one, append);
    OneDecision(c, one, append);
    DeleteByRunIff(c, Step(c, one, append), r.runId);
  }

  lemma OneDecision(c: Codec, one: Db, append: Op)
    requires Inv(c, one) && one.rows == [] && append.AppendOp? && append.request.supersedes == None
    requires append.reviewId in one.reviews && one.reviews[append.reviewId].Authoritative?
    requires c.requestOk(append.request)
    requires DecisionError(c, NewDecision(c, one.reviews[append.reviewId], append.request, append.freshId, append.now)).None?
    ensures Inv(c, Step(c, one, append))
    ensures Within(Step(c, one, append).rows, AuthoritativeIdsOfRun(Step(c, one, append).reviews, one.reviews[append.reviewId].runId)) != []
  {
    AppendCommitsIff(c, one, append.reviewId, append.request, append.freshId, append.now);
    AppendEffect(c, one, append.reviewId, append.request, append.freshId, append.now);
    hide Inv;
    var two := Step(c, one, append);
    var current := AuthoritativeIdsOfRun(two.reviews, one.reviews[append.reviewId].runId);
    WithoutMembers(two.rows, current);
    assert two.rows[0] in Within(two.rows, current);
  }

  // ---------------------------------------------------------------- every run

  lemma StepKeepsInv(c: Codec, db: Db, op: Op)
    requires Inv(c, db) && CollisionFree(c)
    ensures Inv(c, Step(c, db, op))
  {
    hide Inv, CollisionFree;
    match op
    case AppendOp(rid, request, freshId, now) => AppendEffect(c, db, rid, request, freshId, now);
    case RestoreOp(d) => RestoreEffect(c, db, d);
    case RecordLegacyOp(r) => RecordsKeepInv(c, db, r);
    case RecordV2Op(r) => RecordsKeepInv(c, db, r);
    case ApplyArchiveOp(a) => if ApplyArchive(c, db, a).Ok? { ApplyKeepsInv(c, db, a); }
    case ReplaceArchiveOp(a, preserve) => if ReplaceArchive(c, db, a, preserve).Ok? { ReplaceKeepsInv(c, db, a, preserve); }
    case DeleteByReviewsOp(ids) => DeleteByReviewsKeepsInv(c, db, ids);
  }

  /** Every state reachable from the empty ledger is good. */
  lemma {:induction false} EveryRunIsSafe(c: Codec, ops: seq<Op>)
    requires CollisionFree(c)
    ensures Inv(c, Run(c, EMPTY, ops))
  {
    if ops != [] {
      EveryRunIsSafe(c, ops[..|ops| - 1]);
      StepKeepsInv(c, Run(c, EMPTY, ops[..|ops| - 1]), ops[|ops| - 1]);
    }
  }

  lemma LinkedUnique(chain: seq<Decision>, i: nat, j: nat)
    requires Linked(chain) && Distinct(chain) && i < j < |chain|
    ensures chain[i].supersedes != chain[j].supersedes
  {
  }

  /** Two stored decisions of one review never supersede the same predecessor. */
  lemma UniqueSuccessor(c: Codec, db: Db, x: Decision, y: Decision)
    requires Inv(c, db) && x in db.rows && y in db.rows
    requires x.reviewId == y.reviewId && x.supersedes == y.supersedes
    ensures x == y
  {
    var chain := Chain(db.rows, x.reviewId);
    assert x in chain && y in chain by { ChainMembers(db.rows, x.reviewId); }
    ChainDistinct(db.rows, x.reviewId);
    var i: nat :| i < |chain| && chain[i] == x;
    var j: nat :| j < |chain| && chain[j] == y;
    if i < j {
      LinkedUnique(chain, i, j);
    } else if j < i {
      LinkedUnique(chain, j, i);
    }
  }

  predicate Additive(op: Op) {
    !op.ReplaceArchiveOp? && !op.DeleteByReviewsOp?
  }

  lemma AppendExtends(c: Codec, db: Db, op: Op, rid: string)
    requires Inv(c, db) && op.AppendOp?
    ensures Chain(db.rows, rid) <= Chain(Step(c, db, op).rows, rid)
    ensures Step(c, db, op).reviews == db.reviews
  {
    AppendEffect(c, db, op.reviewId, op.request, op.freshId, op.now);
    hide Inv, Append, Chain;
    var result := Append(c, db, op.reviewId, op.request, op.freshId, op.now);
    if result.Ok? {
      ChainOfInsert(db.rows, result.value.1, rid);
    }
  }

  lemma RestoreExtends(c: Codec, db: Db, d: Decision, rid: string)
    requires Inv(c, db)
    ensures Chain(db.rows, rid) <= Chain(Step(c, db, RestoreOp(d)).rows, rid)
    ensures Step(c, db, RestoreOp(d)).reviews == db.reviews
  {
    RestoreEffect(c, db, d);
    hide Inv, Restore, Chain;
    ChainOfInsert(db.rows, d, rid);
  }

  lemma ApplyExtends(c: Codec, db: Db, a: Archive, rid: string)
    requires Inv(c, db) && CollisionFree(c) && ApplyArchive(c, db, a).Ok?
    ensures Chain(db.rows, rid) <= Chain(ApplyArchive(c, db, a).value.rows, rid)
    ensures rid in db.reviews && db.reviews[rid].Authoritative? ==>
              rid in ApplyArchive(c, db, a).value.reviews && ApplyArchive(c, db, a).value.reviews[rid] == db.reviews[rid]
  {
    PreflightApplyIsExact(c, db, a);
    PreflightApplyIff(c, db, a);
    hide ApplyArchive, PreflightApply, CollisionFree, Chain;
    ChainAfterApply(c, db.rows, a, rid);
    WrittenTable(c, db.reviews, a, ApplyArchive(c, db, a).value.reviews);
  }

  /** Without replace and delete a step only ever extends chains and never alters a stored v2 review. */
  lemma StepExtends(c: Codec, db: Db, op: Op, rid: string)
    requires Inv(c, db) && CollisionFree(c) && Additive(op)
    ensures Chain(db.rows, rid) <= Chain(Step(c, db, op).rows, rid)
    ensures rid in db.reviews && db.reviews[rid].Authoritative? ==>
              rid in Step(c, db, op).reviews && Step(c, db, op).reviews[rid] == db.reviews[rid]
  {
    hide Inv, CollisionFree, Chain, Append, Restore, ApplyArchive;
    match op
    case AppendOp(_, _, _, _) => AppendExtends(c, db, op, rid);
    case RestoreOp(d) => RestoreExtends(c, db, d, rid);
    case RecordLegacyOp(r) =>
    case RecordV2Op(r) =>
    case ApplyArchiveOp(a) => if ApplyArchive(c, db, a).Ok? { ApplyExtends(c, db, a, rid); }
  }

  lemma {:induction false} RunExtends(c: Codec, db: Db, ops: seq<Op>, rid: string)
    requires Inv(c, db) && CollisionFree(c) && forall op :: op in ops ==> Additive(op)
    ensures Inv(c, Run(c, db, ops))
    ensures Chain(db.rows, rid) <= Chain(Run(c, db, ops).rows, rid)
    ensures rid in db.reviews && db.reviews[rid].Authoritative? ==>
              rid in Run(c, db, ops).reviews && Run(c, db, ops).reviews[rid] == db.reviews[rid]
  {
    if ops != [] {
      var front, last := ops[..|ops| - 1], ops[|ops| - 1];
      RunExtends(c, db, front, rid);
      StepKeepsInv(c, Run(c, db, front), last);
      StepExtends(c, Run(c, db, front), last, rid);
    }
  }

  /**
   Among all clients racing on one predecessor at most one append wins: once an append naming it has
   committed, every later append naming it fails and leaves the ledger as it was.
   */
  lemma SingleSuccessor(c: Codec, db: Db, first: Op, between: seq<Op>, second: Op)
    requires Inv(c, db) && CollisionFree(c) && forall op :: op in between ==> Additive(op)
    requires first.AppendOp? && second.AppendOp?
    requires first.reviewId == second.reviewId && first.request.supersedes == second.request.supersedes
    requires Append(c, db, first.reviewId, first.request, first.freshId, first.now).Ok?
    ensures var later := Run(c, Step(c, db, first), between);
            Append(c, later, second.reviewId, second.request, second.freshId, second.now).Err?
            && Step(c, later, second) == later
  {
    hide CollisionFree, Distinct, AllLinked, RowsOk, TableOk;
    var rid := first.reviewId;
    var won := Step(c, db, first);
    AppendEffect(c, db, rid, first.request, first.freshId, first.now);
    var d := Append(c, db, rid, first.request, first.freshId, first.now).value.1;
    ChainOfInsert(db.rows, d, rid);
    RunExtends(c, won, between, rid);
    var later := Run(c, won, between);
    AppendEffect(c, later, rid, second.request, second.freshId, second.now);
    var chain := Chain(later.rows, rid);
    ChainDistinct(later.rows, rid);
    var k := |Chain(db.rows, rid)|;
    assert Chain(won.rows, rid)[..k] == Chain(db.rows, rid);
    assert chain[..k] == Chain(db.rows, rid) && k < |chain|;
    TailMovesOn(chain, k);
  }

  /** A decision followed by another is never again the tail. */
  lemma TailMovesOn(chain: seq<Decision>, k: nat)
    requires Distinct(chain) && k < |chain|
    ensures Tail(chain) != Tail(chain[..k])
  {
  }
}
