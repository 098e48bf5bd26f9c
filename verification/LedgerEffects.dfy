/** What archive writes do to the two tables, and when their inserts can fail. */
module LedgerEffects {
  import opened Prelude
  import opened Ledger
  import opened LedgerChains

  // ---------------------------------------------------------------- the review table

  ghost predicate TableOk(c: Codec, table: map<string, Review>) {
    forall id :: id in table ==> table[id].id == id && (table[id].Authoritative? ==> AuthoritativeOk(c, table[id]))
  }

  /** What a valid archive guarantees about its reviews. */
  ghost predicate ReviewsOk(c: Codec, a: Archive) {
    && (forall r :: r in a.legacy ==> LegacyOk(c, r) && r.runId == a.runId)
    && (forall r :: r in a.authoritative ==> AuthoritativeOk(c, r) && r.runId == a.runId)
    && DistinctReviews(a.legacy) && DistinctReviews(a.authoritative)
    && (forall id :: id in Ids(a.legacy) ==> id !in Ids(a.authoritative))
  }

  ghost predicate DecisionsOk(c: Codec, a: Archive)
    requires ReviewsOk(c, a)
  {
    && Distinct(a.decisions)
    && (forall d :: d in a.decisions ==> DecisionError(c, d).None?)
    && (forall d :: d in a.decisions ==> d.reviewId in Ids(a.authoritative))
    && Bound(a.decisions, a.authoritative)
    && (forall r :: r in a.authoritative ==> Linked(Chain(a.decisions, r.id)))
  }

  lemma ArchiveIff(c: Codec, a: Archive)
    ensures ReviewArchiveError(c, a).None? <==> ReviewsOk(c, a)
    ensures ArchiveError(c, a).None? <==> ReviewsOk(c, a) && DecisionsOk(c, a)
  {
    ReviewIdCount(a.legacy);
    ReviewIdCount(a.authoritative);
    assert Ids(a.legacy) * Ids(a.authoritative) == {} <==> forall id :: id in Ids(a.legacy) ==> id !in Ids(a.authoritative) by {
      assert forall id :: id in Ids(a.legacy) * Ids(a.authoritative) <==> id in Ids(a.legacy) && id in Ids(a.authoritative);
    }
    if ReviewArchiveError(c, a).None? {
      forall r | r in a.legacy || r in a.authoritative ensures r.runId == a.runId {
        assert r in a.legacy + a.authoritative;
      }
    }
    if ReviewsOk(c, a) {
      DecisionArchiveIff(c, a.decisions, a.authoritative);
    }
  }

  /** One incoming review may be written over what the table holds under its id. */
  ghost predicate MayWrite(table: map<string, Review>, r: Review, replaceRun: Option<string>) {
    r.id in table ==>
      && table[r.id].runId == r.runId
      && (replaceRun == Some(r.runId)
          || (table[r.id].Legacy? == r.Legacy? && (r.Authoritative? ==> table[r.id].recordHash == r.recordHash)))
  }

  lemma OwnershipIff(table: map<string, Review>, a: Archive, replaceRun: Option<string>)
    ensures OwnershipError(table, a, replaceRun).None? <==>
            forall r :: r in a.legacy + a.authoritative ==> MayWrite(table, r, replaceRun)
  {
    var incoming := a.legacy + a.authoritative;
    var check := OwnershipCheck(table, incoming, replaceRun);
    NoErrorIffAllPass(|incoming|, check);
    assert forall i: nat :: i < |incoming| ==> (check(i).None? <==> MayWrite(table, incoming[i], replaceRun));
    if FirstError(|incoming|, check).None? {
      forall r | r in incoming ensures MayWrite(table, r, replaceRun) {
        var i: nat :| i < |incoming| && incoming[i] == r;
        assert check(i).None?;
      }
    }
  }

  lemma {:induction false} PutLegacyEffect(table: map<string, Review>, legacy: seq<Review>)
    requires DistinctReviews(legacy)
    ensures PutLegacy(table, legacy).Keys == table.Keys + Ids(legacy)
    ensures forall r :: r in legacy ==> PutLegacy(table, legacy)[r.id] == r
    ensures forall id :: id in table && id !in Ids(legacy) ==> PutLegacy(table, legacy)[id] == table[id]
  {
    if legacy != [] {
      var front, last := legacy[..|legacy| - 1], legacy[|legacy| - 1];
      assert legacy == front + [last];
      DistinctReviewsSnoc(front, last);
      hide DistinctReviews;
      PutLegacyEffect(table, front);
    }
  }

  /** An authoritative insert meets either no row or the very same record. */
  ghost predicate Insertable(table: map<string, Review>, reviews: seq<Review>) {
    forall r :: r in reviews ==>
      && r.Authoritative?
      && (r.id in table ==> table[r.id].Authoritative? && table[r.id].recordHash == r.recordHash)
  }

  lemma {:induction false} PutAuthoritativeEffect(table: map<string, Review>, reviews: seq<Review>)
    requires DistinctReviews(reviews) && Insertable(table, reviews)
    ensures PutAuthoritative(table, reviews).Ok?
    ensures var t := PutAuthoritative(table, reviews).value;
            && t.Keys == table.Keys + Ids(reviews)
            && (forall id :: id in table ==> t[id] == table[id])
            && (forall r :: r in reviews && r.id !in table ==> t[r.id] == r)
  {
    if reviews != [] {
      var front, last := reviews[..|reviews| - 1], reviews[|reviews| - 1];
      assert reviews == front + [last];
      DistinctReviewsSnoc(front, last);
      hide DistinctReviews;
      PutAuthoritativeEffect(table, front);
    }
  }

  /** The review table after a write: archived rows in, stored v2 rows untouched, all else unchanged. */
  ghost predicate Written(before: map<string, Review>, a: Archive, after: map<string, Review>) {
    && after.Keys == before.Keys + Ids(a.legacy) + Ids(a.authoritative)
    && (forall r :: r in a.legacy ==> after[r.id] == r)
    && (forall r :: r in a.authoritative ==> after[r.id] == if r.id in before then before[r.id] else r)
    && (forall id :: id in before && id !in Ids(a.legacy) ==> after[id] == before[id])
  }

  lemma WriteApplyIff(c: Codec, table: map<string, Review>, a: Archive)
    requires ReviewsOk(c, a)
    ensures WriteArchive(table, a, None).Ok? <==> OwnershipError(table, a, None).None?
    ensures WriteArchive(table, a, None).Err? ==> Some(WriteArchive(table, a, None).error) == OwnershipError(table, a, None)
    ensures WriteArchive(table, a, None).Ok? ==> Written(table, a, WriteArchive(table, a, None).value)
  {
    OwnershipIff(table, a, None);
    if OwnershipError(table, a, None).None? {
      PutLegacyEffect(table, a.legacy);
      var t := PutLegacy(table, a.legacy);
      forall r | r in a.authoritative
        ensures r.id !in Ids(a.legacy) && (r.id in t ==> t[r.id].Authoritative? && t[r.id].recordHash == r.recordHash)
        ensures r.id in t <==> r.id in table
      {
        assert r in a.legacy + a.authoritative && MayWrite(table, r, None);
        assert r.id in Ids(a.authoritative);
      }
      PutAuthoritativeEffect(t, a.authoritative);
    }
  }

  /** Once the ownership check has passed, replacing a run's reviews cannot fail. */
  lemma WriteReplaceIff(c: Codec, table: map<string, Review>, a: Archive)
    requires ReviewsOk(c, a)
    requires OwnershipError(table, a, Some(a.runId)).None?
    ensures WriteArchive(table, a, Some(a.runId)).Ok?
    ensures var after := WriteArchive(table, a, Some(a.runId)).value;
            && Written(WithoutRun(table, a.runId), a, after)
            && (forall r :: r in a.legacy + a.authoritative ==> r.id !in WithoutRun(table, a.runId) && after[r.id] == r)
  {
    OwnershipIff(table, a, Some(a.runId));
    var kept := WithoutRun(table, a.runId);
    PutLegacyEffect(kept, a.legacy);
    var t := PutLegacy(kept, a.legacy);
    forall r | r in a.legacy + a.authoritative ensures r.id !in kept {
      assert MayWrite(table, r, Some(a.runId));
    }
    forall r | r in a.authoritative ensures r.id !in t {
      assert r in a.legacy + a.authoritative && r.id in Ids(a.authoritative);
    }
    PutAuthoritativeEffect(t, a.authoritative);
  }

  // ---------------------------------------------------------------- the decision table

  /** The part of an archived chain beyond a given length. */
  ghost function Beyond(ds: seq<Decision>, rid: string, n: nat): (more: seq<Decision>)
    ensures forall d :: d in more ==> d in ds && d.reviewId == rid
  {
    ChainMembers(ds, rid);
    Drop(Chain(ds, rid), n)
  }

  /** The decisions an archive adds for its first `n` reviews. */
  ghost function Additions(rows: seq<Decision>, reviews: seq<Review>, ds: seq<Decision>, n: nat): seq<Decision>
    requires n <= |reviews|
  {
    if n == 0 then []
    else
      var rid := reviews[n - 1].id;
      Additions(rows, reviews, ds, n - 1) + Beyond(ds, rid, |Chain(rows, rid)|)
  }

  /** Stored and archived chains agree, by id and hash, as far as both go. */
  ghost predicate Compatible(existing: seq<Decision>, incoming: seq<Decision>) {
    forall i :: 0 <= i < |existing| && i < |incoming| ==>
      existing[i].id == incoming[i].id && existing[i].recordHash == incoming[i].recordHash
  }

  ghost predicate AllCompatible(rows: seq<Decision>, reviews: seq<Review>, ds: seq<Decision>) {
    forall r :: r in reviews ==> Compatible(Chain(rows, r.id), Chain(ds, r.id))
  }

  lemma {:induction false} InsertAllOk(rows: seq<Decision>, ds: seq<Decision>)
    requires Distinct(rows + ds)
    ensures InsertAll(rows, ds) == Ok(rows + ds)
  {
    if ds == [] {
      assert rows + ds == rows;
    } else {
      var front, last := ds[..|ds| - 1], ds[|ds| - 1];
      var all := rows + ds;
      assert rows + front == all[..|all| - 1];
      InsertAllOk(rows, front);
      forall d | d in rows + front ensures d.id != last.id {
        var i :| 0 <= i < |rows + front| && (rows + front)[i] == d;
        assert all[i].id != all[|all| - 1].id;
      }
      assert rows + front + [last] == all;
    }
  }

  lemma {:induction false} AllAtOneReview(ds: seq<Decision>, rid: string, other: string)
    requires forall d :: d in ds ==> d.reviewId == rid
    ensures Chain(ds, other) == if other == rid then ds else []
  {
    if ds != [] {
      AllAtOneReview(ds[..|ds| - 1], rid, other);
      assert ds == ds[..|ds| - 1] + [ds[|ds| - 1]];
    }
  }

  /** One of the first `n` reviews has this id. */
  ghost predicate Listed(reviews: seq<Review>, n: nat, rid: string)
    requires n <= |reviews|
  {
    exists i :: 0 <= i < n && reviews[i].id == rid
  }

  lemma ListedStep(reviews: seq<Review>, n: nat, rid: string)
    requires 0 < n <= |reviews|
    ensures Listed(reviews, n, rid) <==> Listed(reviews, n - 1, rid) || rid == reviews[n - 1].id
    ensures DistinctReviews(reviews) ==> !Listed(reviews, n - 1, reviews[n - 1].id)
  {
  }

  lemma ListedAll(reviews: seq<Review>, rid: string)
    ensures Listed(reviews, |reviews|, rid) <==> rid in Ids(reviews)
  {
  }

  lemma {:induction false} AdditionsMembers(rows: seq<Decision>, reviews: seq<Review>, ds: seq<Decision>, n: nat)
    requires n <= |reviews|
    ensures forall d :: d in Additions(rows, reviews, ds, n) ==> d in ds && Listed(reviews, n, d.reviewId)
  {
    if n > 0 {
      var rid := reviews[n - 1].id;
      AdditionsMembers(rows, reviews, ds, n - 1);
      forall d | d in Additions(rows, reviews, ds, n) ensures d in ds && Listed(reviews, n, d.reviewId) {
        ListedStep(reviews, n, d.reviewId);
      }
    }
  }

  lemma ChainOfAppended(front: seq<Decision>, more: seq<Decision>, last: string, rid: string)
    requires forall d :: d in more ==> d.reviewId == last
    ensures rid != last ==> Chain(front + more, rid) == Chain(front, rid)
    ensures rid == last && Chain(front, rid) == [] ==> Chain(front + more, rid) == more
  {
    ChainOfConcat(front, more, rid);
    AllAtOneReview(more, last, rid);
    assert Chain(front, rid) + [] == Chain(front, rid);
  }

  /** Each review gains exactly the archived decisions beyond the stored ones. */
  lemma {:induction false} AdditionsOfReview(rows: seq<Decision>, reviews: seq<Review>, ds: seq<Decision>, n: nat, rid: string)
    requires n <= |reviews| && DistinctReviews(reviews)
    ensures Chain(Additions(rows, reviews, ds, n), rid) ==
            if Listed(reviews, n, rid) then Beyond(ds, rid, |Chain(rows, rid)|) else []
  {
    assert Chain([], rid) == [] && !Listed(reviews, 0, rid);
    hide Chain, Beyond, Listed, DistinctReviews;
    if n > 0 {
      var last := reviews[n - 1].id;
      var front := Additions(rows, reviews, ds, n - 1);
      var more := Beyond(ds, last, |Chain(rows, last)|);
      AdditionsOfReview(rows, reviews, ds, n - 1, rid);
      ChainOfAppended(front, more, last, rid);
      ListedStep(reviews, n, rid);
    }
  }

  lemma ChainAfterAdditions(rows: seq<Decision>, reviews: seq<Review>, ds: seq<Decision>, n: nat, rid: string)
    requires n <= |reviews| && DistinctReviews(reviews)
    ensures Chain(rows + Additions(rows, reviews, ds, n), rid) ==
            Chain(rows, rid) + if Listed(reviews, n, rid) then Beyond(ds, rid, |Chain(rows, rid)|) else []
  {
    ChainOfConcat(rows, Additions(rows, reviews, ds, n), rid);
    AdditionsOfReview(rows, reviews, ds, n, rid);
  }

  lemma DistinctConcat(a: seq<Decision>, b: seq<Decision>)
    requires Distinct(a) && Distinct(b) && forall x, y :: x in a && y in b ==> x.id != y.id
    ensures Distinct(a + b)
  {
  }

  lemma BeyondDistinct(ds: seq<Decision>, rid: string, n: nat)
    requires Distinct(ds)
    ensures Distinct(Beyond(ds, rid, n))
  {
    var chain := Chain(ds, rid);
    ChainDistinct(ds, rid);
    if n <= |chain| {
      assert forall i :: 0 <= i < |chain| - n ==> chain[n..][i] == chain[n + i];
    }
  }

  lemma DisjointByReview(front: seq<Decision>, more: seq<Decision>, ds: seq<Decision>, last: string)
    requires Distinct(ds) && Distinct(front) && Distinct(more)
    requires forall x :: x in front ==> x in ds && x.reviewId != last
    requires forall y :: y in more ==> y in ds && y.reviewId == last
    ensures Distinct(front + more)
  {
  }

  lemma {:induction false} AdditionsDistinct(rows: seq<Decision>, reviews: seq<Review>, ds: seq<Decision>, n: nat)
    requires n <= |reviews| && DistinctReviews(reviews) && Distinct(ds)
    ensures Distinct(Additions(rows, reviews, ds, n))
  {
    if n > 0 {
      var last := reviews[n - 1].id;
      var front := Additions(rows, reviews, ds, n - 1);
      var more := Beyond(ds, last, |Chain(rows, last)|);
      AdditionsDistinct(rows, reviews, ds, n - 1);
      AdditionsMembers(rows, reviews, ds, n - 1);
      BeyondDistinct(ds, last, |Chain(rows, last)|);
      ListedStep(reviews, n, last);
      hide Distinct, Chain, Beyond, Listed, DistinctReviews;
      DisjointByReview(front, more, ds, last);
    }
  }

  /** A stored row with an archived decision's id belongs to the same review. */
  ghost predicate SameOwner(rows: seq<Decision>, ds: seq<Decision>) {
    forall e, x :: e in rows && x in ds && e.id == x.id ==> e.reviewId == x.reviewId
  }

  lemma BeyondPositions(existing: seq<Decision>, incoming: seq<Decision>, e: Decision, x: Decision)
    requires Distinct(incoming) && Compatible(existing, incoming)
    requires e in existing && x in Drop(incoming, |existing|)
    ensures e.id != x.id
  {
  }

  /** What is beyond the common prefix cannot already be stored. */
  lemma BeyondPrefixIsNew(rows: seq<Decision>, ds: seq<Decision>, rid: string, e: Decision, x: Decision)
    requires Distinct(ds) && SameOwner(rows, ds) && Compatible(Chain(rows, rid), Chain(ds, rid))
    requires e in rows && x in Beyond(ds, rid, |Chain(rows, rid)|)
    ensures e.id != x.id
  {
    if e.reviewId == rid {
      ChainMembers(rows, rid);
      ChainDistinct(ds, rid);
      BeyondPositions(Chain(rows, rid), Chain(ds, rid), e, x);
    }
  }

  lemma {:induction false} AdditionsAreNew(rows: seq<Decision>, reviews: seq<Review>, ds: seq<Decision>, n: nat)
    requires n <= |reviews| && DistinctReviews(reviews) && Distinct(rows) && Distinct(ds)
    requires SameOwner(rows, ds) && AllCompatible(rows, reviews, ds)
    ensures Distinct(rows + Additions(rows, reviews, ds, n))
  {
    var adds := Additions(rows, reviews, ds, n);
    AdditionsDistinct(rows, reviews, ds, n);
    AdditionsMembers(rows, reviews, ds, n);
    forall e, x | e in rows && x in adds ensures e.id != x.id {
      ChainMembers(adds, x.reviewId);
      AdditionsOfReview(rows, reviews, ds, n, x.reviewId);
      var i :| 0 <= i < n && reviews[i].id == x.reviewId;
      assert reviews[i] in reviews;
      BeyondPrefixIsNew(rows, ds, x.reviewId, e, x);
    }
    DistinctConcat(rows, adds);
  }

  lemma DistinctPrefix(ds: seq<Decision>, n: nat)
    requires n <= |ds| && Distinct(ds)
    ensures Distinct(ds[..n])
  {
  }

  /** Before its own turn a review's rows are as they were, and read as they did. */
  lemma OwnRowsUntouched(c: Codec, rows: seq<Decision>, reviews: seq<Review>, ds: seq<Decision>, n: nat)
    requires 0 < n <= |reviews| && DistinctReviews(reviews) && reviews[n - 1].Authoritative?
    ensures var before := rows + Additions(rows, reviews, ds, n - 1);
            && Chain(before, reviews[n - 1].id) == Chain(rows, reviews[n - 1].id)
            && ValidatedRows(c, before, reviews[n - 1]) == ValidatedRows(c, rows, reviews[n - 1])
  {
    var before := rows + Additions(rows, reviews, ds, n - 1);
    ChainAfterAdditions(rows, reviews, ds, n - 1, reviews[n - 1].id);
    ListedStep(reviews, n, reviews[n - 1].id);
    hide Chain, Additions, Listed, DistinctReviews;
    assert Chain(rows, reviews[n - 1].id) + [] == Chain(rows, reviews[n - 1].id);
  }

  lemma AdditionsStep(rows: seq<Decision>, reviews: seq<Review>, ds: seq<Decision>, n: nat)
    requires 0 < n <= |reviews|
    ensures var front := Additions(rows, reviews, ds, n - 1);
            && rows + Additions(rows, reviews, ds, n) == (rows + front) + Beyond(ds, reviews[n - 1].id, |Chain(rows, reviews[n - 1].id)|)
            && (Distinct(rows + Additions(rows, reviews, ds, n)) ==> Distinct(rows + front))
  {
    var front, all := Additions(rows, reviews, ds, n - 1), rows + Additions(rows, reviews, ds, n);
    assert all == (rows + front) + Beyond(ds, reviews[n - 1].id, |Chain(rows, reviews[n - 1].id)|);
    assert rows + front == all[..|rows + front|];
    if Distinct(all) {
      DistinctPrefix(all, |rows + front|);
    }
  }

  /** One round of the inserting loop, given that the rounds before it went through. */
  lemma InsertRound(c: Codec, rows: seq<Decision>, reviews: seq<Review>, ds: seq<Decision>, n: nat)
    requires 0 < n <= |reviews| && DistinctReviews(reviews) && reviews[n - 1].Authoritative?
    requires ValidatedRows(c, rows, reviews[n - 1]).Ok?
    requires Distinct(rows + Additions(rows, reviews, ds, n))
    requires InsertChains(c, rows, reviews, ds, n - 1) == Ok(rows + Additions(rows, reviews, ds, n - 1))
    ensures InsertChains(c, rows, reviews, ds, n) == Ok(rows + Additions(rows, reviews, ds, n))
  {
    assert ValidatedRows(c, rows, reviews[n - 1]) == Ok(Chain(rows, reviews[n - 1].id));
    hide Distinct, Chain, ValidatedRows, InsertAll, DistinctReviews, Additions;
    AdditionsStep(rows, reviews, ds, n);
    OwnRowsUntouched(c, rows, reviews, ds, n);
    InsertAllOk(rows + Additions(rows, reviews, ds, n - 1), Beyond(ds, reviews[n - 1].id, |Chain(rows, reviews[n - 1].id)|));
  }

  lemma InsertNone(c: Codec, rows: seq<Decision>, reviews: seq<Review>, ds: seq<Decision>)
    ensures InsertChains(c, rows, reviews, ds, 0) == Ok(rows + Additions(rows, reviews, ds, 0))
  {
    assert rows + Additions(rows, reviews, ds, 0) == rows;
  }

  /** With unique ids and readable chains, the inserting loop runs to the end. */
  lemma {:induction false} InsertChainsOk(c: Codec, rows: seq<Decision>, reviews: seq<Review>, ds: seq<Decision>, n: nat)
    requires n <= |reviews| && DistinctReviews(reviews)
    requires forall r :: r in reviews ==> r.Authoritative? && ValidatedRows(c, rows, r).Ok?
    requires Distinct(rows + Additions(rows, reviews, ds, n))
    ensures InsertChains(c, rows, reviews, ds, n) == Ok(rows + Additions(rows, reviews, ds, n))
  {
    hide Distinct, Chain, ValidatedRows, InsertChains, DistinctReviews, Additions;
    if n == 0 {
      InsertNone(c, rows, reviews, ds);
    } else {
      assert reviews[n - 1] in reviews;
      AdditionsStep(rows, reviews, ds, n);
      InsertChainsOk(c, rows, reviews, ds, n - 1);
      InsertRound(c, rows, reviews, ds, n);
    }
  }

  // ---------------------------------------------------------------- the prefix check

  lemma CompatibleIff(existing: seq<Decision>, incoming: seq<Decision>)
    ensures FirstError(Min(|existing|, |incoming|), ZipCheck(existing, incoming)).None? <==> Compatible(existing, incoming)
  {
    var n, check := Min(|existing|, |incoming|), ZipCheck(existing, incoming);
    NoErrorIffAllPass(n, check);
    assert forall i: nat :: i < n ==>
      (check(i).None? <==> existing[i].id == incoming[i].id && existing[i].recordHash == incoming[i].recordHash);
    if FirstError(n, check).None? {
      forall i | 0 <= i < |existing| && i < |incoming|
        ensures existing[i].id == incoming[i].id && existing[i].recordHash == incoming[i].recordHash
      {
        assert check(i).None?;
      }
    }
  }

  /** Behind a matching prefix a linked chain always continues from the stored tail: the extra check never fires. */
  lemma ContinuationIsLinked(existing: seq<Decision>, incoming: seq<Decision>)
    requires Compatible(existing, incoming) && Linked(incoming) && |incoming| > |existing|
    ensures incoming[|existing|].supersedes == Tail(existing)
  {
  }

  lemma PrefixErrorIff(c: Codec, rows: seq<Decision>, r: Review, incoming: seq<Decision>)
    requires r.Authoritative? && Linked(incoming)
    ensures PrefixError(c, rows, r, incoming).None? <==>
            ValidatedRows(c, rows, r).Ok? && Compatible(Chain(rows, r.id), incoming)
  {
    var existing := Chain(rows, r.id);
    CompatibleIff(existing, incoming);
    if Compatible(existing, incoming) && |incoming| > |existing| {
      ContinuationIsLinked(existing, incoming);
    }
  }

  lemma PrefixesIff(c: Codec, rows: seq<Decision>, a: Archive)
    requires ReviewsOk(c, a) && DecisionsOk(c, a)
    ensures PrefixesError(c, rows, a.authoritative, a.decisions).None? <==>
            && (forall r :: r in a.authoritative ==> ValidatedRows(c, rows, r).Ok?)
            && AllCompatible(rows, a.authoritative, a.decisions)
  {
    var reviews, ds := a.authoritative, a.decisions;
    var check := PrefixCheck(c, rows, reviews, ds);
    NoErrorIffAllPass(|reviews|, check);
    forall i: nat | i < |reviews|
      ensures check(i).None? <==>
              ValidatedRows(c, rows, reviews[i]).Ok? && Compatible(Chain(rows, reviews[i].id), Chain(ds, reviews[i].id))
    {
      assert reviews[i] in reviews;
      PrefixErrorIff(c, rows, reviews[i], Chain(ds, reviews[i].id));
    }
    if FirstError(|reviews|, check).None? {
      forall r | r in reviews
        ensures ValidatedRows(c, rows, r).Ok? && Compatible(Chain(rows, r.id), Chain(ds, r.id))
      {
        var i: nat :| i < |reviews| && reviews[i] == r;
        assert check(i).None?;
      }
    }
  }

  /** What the global id check accepts: a stored row with an archived id is the same record of the same review. */
  ghost predicate SameRecord(e: Decision, x: Decision) {
    && e.recordHash == x.recordHash && e.reviewId == x.reviewId
    && e.reviewHash == x.reviewHash && e.evidenceHash == x.evidenceHash
  }

  /** Stored rows with an archived id are the archived records, except for reviews about to be replaced. */
  ghost predicate SameRecords(rows: seq<Decision>, ds: seq<Decision>, replaceIds: set<string>) {
    forall e, x :: e in rows && x in ds && e.id == x.id ==> e.reviewId in replaceIds || SameRecord(e, x)
  }

  lemma SameRecordsSameOwner(rows: seq<Decision>, ds: seq<Decision>)
    requires SameRecords(rows, ds, {})
    ensures SameOwner(rows, ds)
  {
  }

  lemma GlobalIdIff(c: Codec, rows: seq<Decision>, ds: seq<Decision>, replaceIds: set<string>)
    requires Distinct(rows) && forall e :: e in rows ==> DecisionError(c, e).None?
    ensures GlobalIdError(c, rows, ds, replaceIds).None? <==> SameRecords(rows, ds, replaceIds)
  {
    var check := GlobalIdCheck(c, rows, ds, replaceIds);
    NoErrorIffAllPass(|ds|, check);
    forall i: nat | i < |ds|
      ensures check(i).None? <==>
              forall e :: e in rows && e.id == ds[i].id ==> e.reviewId in replaceIds || SameRecord(e, ds[i])
    {
      FindRowFinds(rows, ds[i].id);
      forall e | e in rows && e.id == ds[i].id ensures FindRow(rows, ds[i].id) == Some(e) {
        FindRowUnique(rows, e);
      }
    }
    if FirstError(|ds|, check).None? {
      forall e, x | e in rows && x in ds && e.id == x.id ensures e.reviewId in replaceIds || SameRecord(e, x) {
        var i: nat :| i < |ds| && ds[i] == x;
        assert check(i).None?;
      }
    }
  }
}
