/**
 The ledger's safety over whole runs: every review's decisions form one linked chain bound to the
 stored v2 review, ids are unique across the table, and archive preflights predict their writes.
 */
module LedgerInvariant {
  import opened Prelude
  import opened Ledger
  import opened LedgerChains
  import opened LedgerEffects

  /** Every decision is a valid record bound to a stored authoritative review. */
  ghost predicate RowsOk(c: Codec, table: map<string, Review>, rows: seq<Decision>) {
    forall d :: d in rows ==>
      && DecisionError(c, d).None?
      && d.reviewId in table && table[d.reviewId].Authoritative?
      && BindingError(d, table[d.reviewId]).None?
  }

  ghost predicate AllLinked(rows: seq<Decision>) {
    forall rid :: Linked(Chain(rows, rid))
  }

  ghost predicate Inv(c: Codec, db: Db) {
    && TableOk(c, db.reviews)
    && Distinct(db.rows)
    && RowsOk(c, db.reviews, db.rows)
    && AllLinked(db.rows)
  }

  /** In a good state every validating read succeeds. */
  lemma ReadsSucceed(c: Codec, db: Db, r: Review)
    requires Inv(c, db) && r.Authoritative?
    requires r.id in db.reviews ==> db.reviews[r.id].Authoritative? ==>
      r.recordHash == db.reviews[r.id].recordHash && r.evidenceHash == db.reviews[r.id].evidenceHash
    ensures ValidatedRows(c, db.rows, r) == Ok(Chain(db.rows, r.id))
  {
    ValidatedRowsIff(c, db.rows, r);
    ChainMembers(db.rows, r.id);
  }

  lemma LinkedSnoc(ds: seq<Decision>, d: Decision)
    requires Linked(ds) && d.supersedes == Tail(ds)
    ensures Linked(ds + [d])
  {
  }

  // ---------------------------------------------------------------- appends

  lemma InsertKeepsInv(c: Codec, db: Db, d: Decision)
    requires Inv(c, db)
    requires DecisionError(c, d).None? && d.id !in DecisionIds(db.rows)
    requires d.reviewId in db.reviews && db.reviews[d.reviewId].Authoritative?
    requires BindingError(d, db.reviews[d.reviewId]).None?
    requires d.supersedes == Tail(Chain(db.rows, d.reviewId))
    ensures Inv(c, db.(rows := db.rows + [d]))
  {
    assert forall e :: e in db.rows ==> e.id in DecisionIds(db.rows);
    forall rid ensures Linked(Chain(db.rows + [d], rid)) {
      ChainOfInsert(db.rows, d, rid);
      if rid == d.reviewId {
        LinkedSnoc(Chain(db.rows, rid), d);
      } else {
        assert Chain(db.rows, rid) + [] == Chain(db.rows, rid);
      }
    }
  }

  /** A committed append inserts one row, at the tail of its review's chain, or changes nothing. */
  lemma AppendEffect(c: Codec, db: Db, rid: string, request: Request, freshId: string, now: string)
    requires Inv(c, db)
    ensures var result := Append(c, db, rid, request, freshId, now);
            result.Ok? ==>
              var (after, d) := result.value;
              && Inv(c, after)
              && after == db.(rows := db.rows + [d])
              && d.reviewId == rid && d.supersedes == request.supersedes == Tail(Chain(db.rows, rid))
              && d.id !in DecisionIds(db.rows)
              && rid in db.reviews && db.reviews[rid].Authoritative?
  {
    var result := Append(c, db, rid, request, freshId, now);
    if result.Ok? {
      InsertKeepsInv(c, db, result.value.1);
    }
  }

  /** An append naming the current tail commits unless the request, the built record or the fresh id is refused. */
  lemma AppendCommitsIff(c: Codec, db: Db, rid: string, request: Request, freshId: string, now: string)
    requires Inv(c, db)
    ensures Append(c, db, rid, request, freshId, now).Ok? <==>
            && c.requestOk(request)
            && rid in db.reviews && db.reviews[rid].Authoritative?
            && request.supersedes == Tail(Chain(db.rows, rid))
            && DecisionError(c, NewDecision(c, db.reviews[rid], request, freshId, now)).None?
            && freshId !in DecisionIds(db.rows)
  {
    if rid in db.reviews && db.reviews[rid].Authoritative? {
      ReadsSucceed(c, db, db.reviews[rid]);
    }
  }

  /** A restore either confirms the row already stored or extends its review's chain by exactly that record. */
  lemma RestoreEffect(c: Codec, db: Db, d: Decision)
    requires Inv(c, db)
    ensures Restore(c, db, d).Ok? ==>
              var (after, stored) := Restore(c, db, d).value;
              && Inv(c, after)
              && d.reviewId in db.reviews && db.reviews[d.reviewId].Authoritative?
              && (if d.id in DecisionIds(db.rows) then
                    after == db && stored in db.rows && stored.id == d.id && stored.recordHash == d.recordHash
                  else
                    && stored == d && after == db.(rows := db.rows + [d])
                    && d.supersedes == Tail(Chain(db.rows, d.reviewId)))
  {
    FindRowFinds(db.rows, d.id);
    if Restore(c, db, d).Ok? && d.id !in DecisionIds(db.rows) {
      InsertKeepsInv(c, db, d);
    }
  }

  // ---------------------------------------------------------------- reviews

  lemma RecordsKeepInv(c: Codec, db: Db, r: Review)
    requires Inv(c, db)
    ensures RecordLegacy(c, db, r).Ok? ==> Inv(c, RecordLegacy(c, db, r).value)
    ensures RecordV2(c, db, r).Ok? ==> Inv(c, RecordV2(c, db, r).value.0)
  {
  }

  // ---------------------------------------------------------------- archives

  /** The rows an accepted archive leaves behind. */
  ghost function AppliedRows(rows: seq<Decision>, a: Archive): seq<Decision> {
    rows + Additions(rows, a.authoritative, a.decisions, |a.authoritative|)
  }

  /** Exactly what a good state must satisfy for an archive to be applied. */
  ghost predicate Acceptable(c: Codec, db: Db, a: Archive) {
    && ReviewsOk(c, a) && DecisionsOk(c, a)
    && (forall r :: r in a.legacy + a.authoritative ==> MayWrite(db.reviews, r, None))
    && SameRecords(db.rows, a.decisions, {})
    && (forall r :: r in a.authoritative ==> ValidatedRows(c, db.rows, r).Ok?)
    && AllCompatible(db.rows, a.authoritative, a.decisions)
  }

  lemma PreflightApplyIff(c: Codec, db: Db, a: Archive)
    requires Inv(c, db)
    ensures PreflightApply(c, db, a).None? <==> Acceptable(c, db, a)
  {
    ArchiveIff(c, a);
    if ArchiveError(c, a).None? {
      OwnershipIff(db.reviews, a, None);
      GlobalIdIff(c, db.rows, a.decisions, {});
      PrefixesIff(c, db.rows, a);
    }
  }

  /** The inserts of an accepted archive never meet their own primary key. */
  lemma AppliedInserts(c: Codec, rows: seq<Decision>, a: Archive)
    requires ReviewsOk(c, a) && DecisionsOk(c, a) && Distinct(rows)
    requires SameOwner(rows, a.decisions)
    requires forall r :: r in a.authoritative ==> ValidatedRows(c, rows, r).Ok?
    requires AllCompatible(rows, a.authoritative, a.decisions)
    ensures Distinct(AppliedRows(rows, a))
    ensures ApplyDecisions(c, rows, a.authoritative, a.decisions) == Ok(AppliedRows(rows, a))
  {
    PrefixesIff(c, rows, a);
    AdditionsAreNew(rows, a.authoritative, a.decisions, |a.authoritative|);
    InsertChainsOk(c, rows, a.authoritative, a.decisions, |a.authoritative|);
  }

  lemma AcceptableInserts(c: Codec, db: Db, a: Archive)
    requires Inv(c, db) && Acceptable(c, db, a)
    ensures Distinct(AppliedRows(db.rows, a))
    ensures ApplyDecisions(c, db.rows, a.authoritative, a.decisions) == Ok(AppliedRows(db.rows, a))
  {
    SameRecordsSameOwner(db.rows, a.decisions);
    AppliedInserts(c, db.rows, a);
  }

  lemma AcceptedApplies(c: Codec, db: Db, a: Archive)
    requires Inv(c, db) && PreflightApply(c, db, a).None?
    ensures ApplyArchive(c, db, a).Ok?
    ensures ApplyArchive(c, db, a).value.rows == AppliedRows(db.rows, a)
    ensures Written(db.reviews, a, ApplyArchive(c, db, a).value.reviews)
  {
    PreflightApplyIff(c, db, a);
    AcceptableInserts(c, db, a);
    WriteApplyIff(c, db.reviews, a);
  }

  lemma RefusedFails(c: Codec, db: Db, a: Archive)
    requires PreflightApply(c, db, a).Some?
    ensures ApplyArchive(c, db, a) == Err(PreflightApply(c, db, a).value)
  {
    if ArchiveError(c, a).None? {
      ArchiveIff(c, a);
      WriteApplyIff(c, db.reviews, a);
    }
  }

  /** The preflight of an apply is exact: the apply commits when it accepts, and otherwise fails with the same error. */
  lemma PreflightApplyIsExact(c: Codec, db: Db, a: Archive)
    requires Inv(c, db)
    ensures match PreflightApply(c, db, a)
            case Some(e) => ApplyArchive(c, db, a) == Err(e)
            case None =>
              && ApplyArchive(c, db, a).Ok?
              && ApplyArchive(c, db, a).value.rows == AppliedRows(db.rows, a)
              && Written(db.reviews, a, ApplyArchive(c, db, a).value.reviews)
  {
    if PreflightApply(c, db, a).None? {
      AcceptedApplies(c, db, a);
    } else {
      RefusedFails(c, db, a);
    }
  }

  lemma ChainAfterApply(c: Codec, rows: seq<Decision>, a: Archive, rid: string)
    requires ReviewsOk(c, a)
    ensures Chain(AppliedRows(rows, a), rid) ==
            Chain(rows, rid) + if rid in Ids(a.authoritative) then Beyond(a.decisions, rid, |Chain(rows, rid)|) else []
  {
    ChainAfterAdditions(rows, a.authoritative, a.decisions, |a.authoritative|, rid);
    ListedAll(a.authoritative, rid);
  }

  /** A stored chain continued by the unseen part of a compatible archived chain is linked. */
  lemma LinkedContinuation(existing: seq<Decision>, incoming: seq<Decision>)
    requires Linked(existing) && Linked(incoming) && Compatible(existing, incoming)
    ensures Linked(existing + Drop(incoming, |existing|))
  {
    var all := existing + Drop(incoming, |existing|);
    forall i | 0 <= i < |all| ensures all[i].supersedes == Tail(all[..i]) {
      if i < |existing| {
        assert all[..i] == existing[..i];
      } else {
        assert all[i] == incoming[i];
        assert i > 0 ==> all[..i][i - 1] == all[i - 1] && incoming[..i][i - 1] == incoming[i - 1];
      }
    }
  }

  lemma AppliedLinked(c: Codec, rows: seq<Decision>, a: Archive)
    requires ReviewsOk(c, a) && DecisionsOk(c, a) && AllLinked(rows)
    requires AllCompatible(rows, a.authoritative, a.decisions)
    ensures AllLinked(AppliedRows(rows, a))
  {
    forall rid ensures Linked(Chain(AppliedRows(rows, a), rid)) {
      ChainAfterApply(c, rows, a, rid);
      if rid in Ids(a.authoritative) {
        var r :| r in a.authoritative && r.id == rid;
        LinkedContinuation(Chain(rows, rid), Chain(a.decisions, rid));
      } else {
        assert Chain(rows, rid) + [] == Chain(rows, rid);
      }
    }
  }

  /** Archived decisions are bound to the reviews the write leaves in the table. */
  lemma AppliedRowsOk(c: Codec, table: map<string, Review>, rows: seq<Decision>, a: Archive)
    requires ReviewsOk(c, a) && DecisionsOk(c, a) && RowsOk(c, table, rows)
    requires forall r :: r in a.authoritative ==> r.id in table && table[r.id] == r
    ensures RowsOk(c, table, AppliedRows(rows, a))
  {
    AdditionsMembers(rows, a.authoritative, a.decisions, |a.authoritative|);
    forall d | d in Additions(rows, a.authoritative, a.decisions, |a.authoritative|)
      ensures DecisionError(c, d).None? && d.reviewId in table && table[d.reviewId].Authoritative?
      ensures BindingError(d, table[d.reviewId]).None?
    {
      var r :| r in a.authoritative && r.id == d.reviewId;
      assert BindingError(d, r).None?;
    }
  }

  /** Equal record hashes mean equal evidence hashes, because the digest covers the evidence hash. */
  lemma SameHashSameReview(c: Codec, a: Review, b: Review)
    requires CollisionFree(c) && AuthoritativeOk(c, a) && AuthoritativeOk(c, b) && a.recordHash == b.recordHash
    ensures a == b
  {
  }

  /** After an apply every stored v2 review is as before and every archived one is stored as archived. */
  lemma WrittenTable(c: Codec, before: map<string, Review>, a: Archive, after: map<string, Review>)
    requires CollisionFree(c) && TableOk(c, before) && ReviewsOk(c, a) && Written(before, a, after)
    requires forall r :: r in a.legacy + a.authoritative ==> MayWrite(before, r, None)
    ensures TableOk(c, after)
    ensures forall id :: id in before && before[id].Authoritative? ==> id in after && after[id] == before[id]
    ensures forall r :: r in a.authoritative ==> r.id in after && after[r.id] == r
  {
    forall r | r in a.authoritative ensures r.id in after && after[r.id] == r {
      assert r in a.legacy + a.authoritative && r.id in Ids(a.authoritative);
      if r.id in before {
        SameHashSameReview(c, before[r.id], r);
      }
    }
    forall id | id in before && before[id].Authoritative? ensures id in after && after[id] == before[id] {
      forall r | r in a.legacy ensures r.id != id {
        assert r in a.legacy + a.authoritative && MayWrite(before, r, None);
      }
    }
    forall id | id in after ensures after[id].id == id && (after[id].Authoritative? ==> AuthoritativeOk(c, after[id])) {
      if id in Ids(a.legacy) {
        var r :| r in a.legacy && r.id == id;
      } else if id in Ids(a.authoritative) {
        var r :| r in a.authoritative && r.id == id;
      }
    }
  }

  lemma ApplyKeepsInv(c: Codec, db: Db, a: Archive)
    requires Inv(c, db) && CollisionFree(c) && ApplyArchive(c, db, a).Ok?
    ensures Inv(c, ApplyArchive(c, db, a).value)
  {
    PreflightApplyIsExact(c, db, a);
    PreflightApplyIff(c, db, a);
    var after := ApplyArchive(c, db, a).value;
    WrittenTable(c, db.reviews, a, after.reviews);
    AcceptableInserts(c, db, a);
    AppliedLinked(c, db.rows, a);
    AppliedRowsOk(c, after.reviews, db.rows, a);
  }
}
