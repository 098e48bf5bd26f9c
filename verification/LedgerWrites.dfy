/** What each transaction leaves in the two tables, row by row, and exactly when it commits. */
module LedgerWrites {
  import opened Prelude
  import opened Ledger
  import opened LedgerChains
  import opened LedgerEffects
  import opened LedgerInvariant
  import opened LedgerRuns

  // ---------------------------------------------------------------- rows

  /** The record's fields pass their checks and its hash is its digest. */
  ghost predicate Sealed(c: Codec, d: Decision) {
    c.decisionFieldsOk(d) && d.recordHash == c.decisionDigest(d.(recordHash := ""))
  }

  /** The decision names this review's hashes. */
  ghost predicate Names(d: Decision, r: Review) {
    r.Authoritative? && d.reviewId == r.id && d.reviewHash == r.recordHash && d.evidenceHash == r.evidenceHash
  }

  /** In a good state every decision is sealed and names the stored v2 review it belongs to, itself sealed. */
  lemma RowsAreSealed(c: Codec, db: Db, d: Decision)
    requires Inv(c, db) && d in db.rows
    ensures Sealed(c, d) && d.reviewId in db.reviews && Names(d, db.reviews[d.reviewId])
    ensures var r := db.reviews[d.reviewId]; c.reviewFieldsOk(r) && r.recordHash == c.reviewDigest(r.(recordHash := ""))
  {
  }

  /** The decision says what the request said, about this review. */
  ghost predicate Answers(d: Decision, request: Request, r: Review, freshId: string, now: string) {
    && Names(d, r) && d.id == freshId && d.createdAt == now
    && d.operator == request.operator && d.status == request.status && d.rationale == request.rationale
    && d.supersedes == request.supersedes
  }

  /**
   An append commits exactly when its request passes and names the last decision of a stored v2 review, the id is
   unused, and what the request says can be sealed; then that is stored, as the only new row.
   */
  lemma AppendRecord(c: Codec, db: Db, rid: string, request: Request, freshId: string, now: string)
    requires Inv(c, db)
    ensures Append(c, db, rid, request, freshId, now).Ok? <==>
            && c.requestOk(request) && rid in db.reviews && db.reviews[rid].Authoritative?
            && request.supersedes == Tail(Chain(db.rows, rid))
            && (forall e :: e in db.rows ==> e.id != freshId)
            && exists d :: Answers(d, request, db.reviews[rid], freshId, now) && Sealed(c, d)
    ensures Append(c, db, rid, request, freshId, now).Ok? ==>
              var (after, d) := Append(c, db, rid, request, freshId, now).value;
              && after == Db(db.reviews, db.rows + [d])
              && Answers(d, request, db.reviews[rid], freshId, now) && Sealed(c, d)
  {
    AppendCommitsIff(c, db, rid, request, freshId, now);
    AppendEffect(c, db, rid, request, freshId, now);
    if rid in db.reviews && db.reviews[rid].Authoritative? {
      var built := NewDecision(c, db.reviews[rid], request, freshId, now);
      assert db.reviews[rid].id == rid;
      assert Answers(built, request, db.reviews[rid], freshId, now) && (Sealed(c, built) <==> DecisionError(c, built).None?);
      hide Inv, Chain;
      forall d | Answers(d, request, db.reviews[rid], freshId, now) && Sealed(c, d) ensures d == built {
        assert d.(recordHash := "") == built.(recordHash := "");
      }
    }
    hide Inv, Chain, Sealed, Answers, NewDecision;
  }

  lemma StoredRow(c: Codec, db: Db, id: string)
    requires Inv(c, db)
    ensures FindRow(db.rows, id).None? <==> id !in DecisionIds(db.rows)
    ensures FindRow(db.rows, id).None? <==> forall e :: e in db.rows ==> e.id != id
    ensures FindRow(db.rows, id).Some? ==> var e := FindRow(db.rows, id).value; e in db.rows && e.id == id && DecisionError(c, e).None?
  {
    FindRowFinds(db.rows, id);
  }

  /**
   A restore commits exactly when the record is sealed, names a stored v2 review, and either its id is stored with its
   hash, or its id is new and it supersedes the last decision of its review.
   */
  lemma RestoreCommitsIff(c: Codec, db: Db, d: Decision)
    requires Inv(c, db)
    ensures Restore(c, db, d).Ok? <==>
            && Sealed(c, d) && d.reviewId in db.reviews && Names(d, db.reviews[d.reviewId])
            && (if exists e :: e in db.rows && e.id == d.id then exists e :: e in db.rows && e.id == d.id && e.recordHash == d.recordHash
                else d.supersedes == Tail(Chain(db.rows, d.reviewId)))
  {
    StoredRow(c, db, d.id);
    var found := FindRow(db.rows, d.id);
    if found.Some? {
      OnlyRow(db, found.value);
    }
    if d.reviewId in db.reviews && db.reviews[d.reviewId].Authoritative? {
      var r := db.reviews[d.reviewId];
      assert r.id == d.reviewId;
      ReadsSucceed(c, db, r);
      if found.None? && DecisionError(c, d).None? && BindingError(d, r).None? && d.supersedes == Tail(Chain(db.rows, d.reviewId)) {
        InsertedReads(c, db, d);
      }
    }
    hide Inv, Chain, ValidatedRows, FindRow;
  }

  lemma InsertedReads(c: Codec, db: Db, d: Decision)
    requires Inv(c, db) && DecisionError(c, d).None? && d.id !in DecisionIds(db.rows)
    requires d.reviewId in db.reviews && db.reviews[d.reviewId].Authoritative? && db.reviews[d.reviewId].id == d.reviewId
    requires BindingError(d, db.reviews[d.reviewId]).None? && d.supersedes == Tail(Chain(db.rows, d.reviewId))
    ensures Insert(db.rows, d) == Ok(db.rows + [d])
    ensures ValidatedRows(c, db.rows + [d], db.reviews[d.reviewId]).Ok?
  {
    hide Inv, Chain, ValidatedRows;
    InsertKeepsInv(c, db, d);
    ReadsSucceed(c, db.(rows := db.rows + [d]), db.reviews[d.reviewId]);
  }

  lemma OnlyRow(db: Db, d: Decision)
    requires Distinct(db.rows) && d in db.rows
    ensures forall e :: e in db.rows && e.id == d.id ==> e == d
  {
  }

  // ---------------------------------------------------------------- reviews

  /** A legacy record commits exactly when it passes and no v2 row has its id; then it is stored and nothing else changes. */
  lemma RecordLegacyIff(c: Codec, db: Db, r: Review)
    ensures RecordLegacy(c, db, r).Ok? <==>
            r.Legacy? && c.reviewFieldsOk(r) && (r.id in db.reviews ==> db.reviews[r.id].Legacy?)
    ensures RecordLegacy(c, db, r).Ok? ==>
              var after := RecordLegacy(c, db, r).value;
              && after.rows == db.rows && after.reviews.Keys == db.reviews.Keys + {r.id} && after.reviews[r.id] == r
              && forall id :: id in db.reviews && id != r.id ==> after.reviews[id] == db.reviews[id]
  {
  }

  /**
   A v2 record commits exactly when it is sealed and its id is new or stored with its hash; then a new one is stored,
   a known one returned as stored, and nothing else changes.
   */
  lemma RecordV2Iff(c: Codec, db: Db, r: Review)
    ensures RecordV2(c, db, r).Ok? <==>
            && r.Authoritative? && c.reviewFieldsOk(r) && r.recordHash == c.reviewDigest(r.(recordHash := ""))
            && (r.id in db.reviews ==> db.reviews[r.id].Authoritative? && db.reviews[r.id].recordHash == r.recordHash)
    ensures RecordV2(c, db, r).Ok? ==>
              var (after, stored) := RecordV2(c, db, r).value;
              && after.rows == db.rows && after.reviews.Keys == db.reviews.Keys + {r.id} && after.reviews[r.id] == stored
              && stored == (if r.id in db.reviews then db.reviews[r.id] else r)
              && forall id :: id in db.reviews ==> after.reviews[id] == db.reviews[id]
  {
  }

  // ---------------------------------------------------------------- archives

  /** The reviews of the archive are stored as archived, those of `others` as they were, and there are no more. */
  ghost predicate Holds(a: Archive, before: map<string, Review>, others: set<string>, after: map<string, Review>) {
    && (forall r :: r in a.legacy + a.authoritative ==> r.id in after && after[r.id] == r)
    && (forall id :: id in others && id in before && id !in Ids(a.legacy + a.authoritative) ==> id in after && after[id] == before[id])
    && (forall id :: id in after && id !in Ids(a.legacy + a.authoritative) ==> id in others && id in before)
  }

  /** A committed apply stores every archived review as archived, every other one stays, and rows are only added. */
  lemma ApplyEffect(c: Codec, db: Db, a: Archive)
    requires Inv(c, db) && CollisionFree(c) && ApplyArchive(c, db, a).Ok?
    ensures var after := ApplyArchive(c, db, a).value;
            Holds(a, db.reviews, db.reviews.Keys, after.reviews) && db.rows <= after.rows
  {
    hide ApplyArchive, PreflightApply, CollisionFree, Inv, AppliedRows, Holds;
    PreflightApplyIsExact(c, db, a);
    PreflightApplyIff(c, db, a);
    var after := ApplyArchive(c, db, a).value;
    assert db.rows <= AppliedRows(db.rows, a) by {
      AppliedExtends(db.rows, a);
    }
    AppliedReviews(c, db, a, after.reviews);
  }

  lemma AppliedExtends(rows: seq<Decision>, a: Archive)
    ensures rows <= AppliedRows(rows, a)
  {
  }

  lemma AppliedReviews(c: Codec, db: Db, a: Archive, after: map<string, Review>)
    requires Inv(c, db) && CollisionFree(c) && ReviewsOk(c, a) && Written(db.reviews, a, after)
    requires forall r :: r in a.legacy + a.authoritative ==> MayWrite(db.reviews, r, None)
    ensures Holds(a, db.reviews, db.reviews.Keys, after)
  {
    hide CollisionFree, ReviewsOk, TableOk;
    WrittenTable(c, db.reviews, a, after);
    ArchiveIds(a);
    assert forall id :: id in Ids(a.legacy) ==> id in after && after[id] in a.legacy by {
      assert forall r :: r in a.legacy ==> r.id in after && after[r.id] == r;
    }
  }

  lemma ArchiveIds(a: Archive)
    ensures Ids(a.legacy + a.authoritative) == Ids(a.legacy) + Ids(a.authoritative)
  {
    assert forall r :: r in a.legacy + a.authoritative <==> r in a.legacy || r in a.authoritative;
  }

  ghost function OtherRuns(reviews: map<string, Review>, runId: string): set<string> {
    set id | id in reviews && reviews[id].runId != runId
  }

  /**
   A committed replace, in either mode, leaves of the archive's run exactly the archived reviews and of every other run
   what was there. Preserving, no decision changes. Not preserving, every archived v2 review has exactly its archived
   chain, the other v2 reviews of the run have none, and every other chain is as it was.
   */
  lemma ReplaceEffect(c: Codec, db: Db, a: Archive, preserve: bool)
    requires Inv(c, db) && ReplaceArchive(c, db, a, preserve).Ok?
    ensures var after := ReplaceArchive(c, db, a, preserve).value;
            && Holds(a, db.reviews, OtherRuns(db.reviews, a.runId), after.reviews)
            && (forall r :: r in a.legacy + a.authoritative ==> r.runId == a.runId)
            && (forall id :: id in OtherRuns(db.reviews, a.runId) ==> id !in Ids(a.legacy + a.authoritative))
            && (preserve ==> after.rows == db.rows)
            && (!preserve ==>
                  forall rid :: Chain(after.rows, rid) ==
                    if rid in Ids(a.authoritative) then Chain(a.decisions, rid)
                    else if rid in db.reviews && db.reviews[rid].Authoritative? && db.reviews[rid].runId == a.runId then []
                    else Chain(db.rows, rid))
  {
    hide Inv, ReplaceArchive, Chain, DecisionsOk, Holds, AppliedRows, Written, WithoutRun, ReviewsOk;
    ReplacedTables(c, db, a, preserve);
    ArchiveIds(a);
    var after := ReplaceArchive(c, db, a, preserve).value;
    ReplacedReviews(db.reviews, a, after.reviews);
    if !preserve {
      forall rid
        ensures Chain(after.rows, rid) ==
          if rid in Ids(a.authoritative) then Chain(a.decisions, rid)
          else if rid in AuthoritativeIdsOfRun(db.reviews, a.runId) then []
          else Chain(db.rows, rid)
      {
        ReplacedChain(c, db, a, rid);
      }
    }
  }

  lemma ReplacedTables(c: Codec, db: Db, a: Archive, preserve: bool)
    requires Inv(c, db) && ReplaceArchive(c, db, a, preserve).Ok?
    ensures var after := ReplaceArchive(c, db, a, preserve).value;
            && ReviewsOk(c, a) && (forall r :: r in a.legacy + a.authoritative ==> r.runId == a.runId)
            && Written(WithoutRun(db.reviews, a.runId), a, after.reviews)
            && (forall r :: r in a.legacy + a.authoritative ==> r.id !in WithoutRun(db.reviews, a.runId) && after.reviews[r.id] == r)
            && after.rows == if preserve then db.rows else AppliedRows(Cleared(db, a), a)
  {
    hide Inv, PreflightReplace, WriteArchive, DecisionsOk, Written, SameRecords, AppliedRows, ApplyDecisions, AllCompatible, Distinct;
    PreflightReplaceIff(c, db, a, preserve);
    WriteReplaceIff(c, db.reviews, a);
    if !preserve {
      ClearedAcceptsArchive(c, db, a);
    }
  }

  lemma ReplacedReviews(before: map<string, Review>, a: Archive, after: map<string, Review>)
    requires Written(WithoutRun(before, a.runId), a, after)
    requires forall r :: r in a.legacy + a.authoritative ==> r.id !in WithoutRun(before, a.runId) && after[r.id] == r
    ensures Holds(a, before, OtherRuns(before, a.runId), after)
    ensures forall id :: id in OtherRuns(before, a.runId) ==> id !in Ids(a.legacy + a.authoritative)
  {
    ArchiveIds(a);
  }

  /** The chain of one review once the replaced ones are cleared and the archive is applied. */
  lemma ReplacedChain(c: Codec, db: Db, a: Archive, rid: string)
    requires ReviewsOk(c, a)
    ensures Chain(AppliedRows(Cleared(db, a), a), rid) ==
            if rid in Ids(a.authoritative) then Chain(a.decisions, rid)
            else if rid in AuthoritativeIdsOfRun(db.reviews, a.runId) then []
            else Chain(db.rows, rid)
  {
    hide Chain;
    ChainAfterApply(c, Cleared(db, a), a, rid);
    ChainOfWithout(db.rows, AuthoritativeIdsOfRun(db.reviews, a.runId) + Ids(a.authoritative), rid);
    if rid in Ids(a.authoritative) {
      assert Chain(Cleared(db, a), rid) == [];
      BeyondNothing(a.decisions, rid);
    } else {
      assert Chain(Cleared(db, a), rid) + [] == Chain(Cleared(db, a), rid);
    }
  }

  lemma BeyondNothing(ds: seq<Decision>, rid: string)
    ensures [] + Beyond(ds, rid, 0) == Chain(ds, rid)
  {
  }

  // ---------------------------------------------------------------- deletions

  /** Deleting by review empties exactly those chains and touches no review. */
  lemma DeleteByReviewsEffect(db: Db, ids: set<string>, rid: string)
    ensures DeleteByReviews(db, ids).reviews == db.reviews
    ensures Chain(DeleteByReviews(db, ids).rows, rid) == if rid in ids then [] else Chain(db.rows, rid)
  {
    ChainOfWithout(db.rows, ids, rid);
  }

  /** Deleting a run removes exactly its reviews, of either kind, and touches no decision. */
  lemma DeleteByRunEffect(db: Db, runId: string)
    ensures DeleteByRun(db, runId).rows == db.rows
    ensures forall id :: id in DeleteByRun(db, runId).reviews <==> id in db.reviews && db.reviews[id].runId != runId
    ensures forall id :: id in DeleteByRun(db, runId).reviews ==> DeleteByRun(db, runId).reviews[id] == db.reviews[id]
  {
  }
}
