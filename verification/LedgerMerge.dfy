/** Applying an archive is a join: idempotent, and independent of the order in which archives arrive. */
module LedgerMerge {
  import opened Prelude
  import opened Ledger
  import opened LedgerChains
  import opened LedgerEffects
  import opened LedgerInvariant

  // ---------------------------------------------------------------- chains under the prefix order

  ghost predicate Comparable<T>(x: seq<T>, y: seq<T>) {
    x <= y || y <= x
  }

  ghost function Longer<T>(x: seq<T>, y: seq<T>): seq<T> {
    if |y| > |x| then y else x
  }

  /** If each archive joins in turn, either order works and both give the same chain. */
  lemma LongerCommutes<T>(s: seq<T>, x: seq<T>, y: seq<T>)
    requires Comparable(s, x) && Comparable(Longer(s, x), y)
    ensures Comparable(s, y) && Comparable(Longer(s, y), x)
    ensures Longer(Longer(s, x), y) == Longer(Longer(s, y), x)
  {
  }

  /** Without digest collisions, agreeing in ids and hashes is being the same record. */
  lemma SameHashSameDecision(c: Codec, x: Decision, y: Decision)
    requires CollisionFree(c) && DecisionError(c, x).None? && DecisionError(c, y).None? && x.recordHash == y.recordHash
    ensures x == y
  {
  }

  lemma CompatibleIsComparable(c: Codec, existing: seq<Decision>, incoming: seq<Decision>)
    requires CollisionFree(c)
    requires forall d :: d in existing || d in incoming ==> DecisionError(c, d).None?
    ensures Compatible(existing, incoming) <==> Comparable(existing, incoming)
    ensures Compatible(existing, incoming) ==> existing + Drop(incoming, |existing|) == Longer(existing, incoming)
  {
    if Compatible(existing, incoming) {
      forall i | 0 <= i < |existing| && i < |incoming| ensures existing[i] == incoming[i] {
        assert existing[i] in existing && incoming[i] in incoming;
        SameHashSameDecision(c, existing[i], incoming[i]);
      }
    }
  }

  // ---------------------------------------------------------------- one archive

  lemma HasMember<T>(s: seq<T>)
    ensures s != [] ==> exists x :: x in s
  {
    if s != [] {
      assert s[0] in s;
    }
  }

  /** An archive has no decisions for a review it does not carry. */
  lemma NoStrayDecisions(c: Codec, a: Archive, rid: string)
    requires ReviewsOk(c, a) && DecisionsOk(c, a) && rid !in Ids(a.authoritative)
    ensures Chain(a.decisions, rid) == []
  {
    ChainMembers(a.decisions, rid);
    HasMember(Chain(a.decisions, rid));
  }

  /** Stored and archived chain of one review: comparable if the archive was accepted, and joined by the write. */
  lemma ApplyIsJoin(c: Codec, db: Db, a: Archive, rid: string)
    requires Inv(c, db) && CollisionFree(c) && ApplyArchive(c, db, a).Ok?
    ensures Comparable(Chain(db.rows, rid), Chain(a.decisions, rid))
    ensures Chain(ApplyArchive(c, db, a).value.rows, rid) == Longer(Chain(db.rows, rid), Chain(a.decisions, rid))
  {
    hide ApplyArchive, PreflightApply, Written, CollisionFree, Chain;
    PreflightApplyIsExact(c, db, a);
    PreflightApplyIff(c, db, a);
    ChainAfterApply(c, db.rows, a, rid);
    ChainMembers(db.rows, rid);
    ChainMembers(a.decisions, rid);
    if rid in Ids(a.authoritative) {
      var r :| r in a.authoritative && r.id == rid;
      CompatibleIsComparable(c, Chain(db.rows, rid), Chain(a.decisions, rid));
    } else {
      NoStrayDecisions(c, a, rid);
      assert Chain(db.rows, rid) + [] == Chain(db.rows, rid);
    }
  }

  ghost predicate Owned(table: map<string, Review>, a: Archive) {
    forall r :: r in a.legacy + a.authoritative ==> MayWrite(table, r, None)
  }

  /** No review has stored and archived decisions that fork. */
  ghost predicate NoForks(rows: seq<Decision>, a: Archive) {
    forall r :: r in a.authoritative ==> Comparable(Chain(rows, r.id), Chain(a.decisions, r.id))
  }

  lemma OwnedReviewReads(c: Codec, db: Db, a: Archive, r: Review)
    requires Inv(c, db) && CollisionFree(c) && ReviewsOk(c, a) && DecisionsOk(c, a)
    requires r in a.authoritative && MayWrite(db.reviews, r, None)
    ensures ValidatedRows(c, db.rows, r).Ok?
    ensures Compatible(Chain(db.rows, r.id), Chain(a.decisions, r.id)) <==>
            Comparable(Chain(db.rows, r.id), Chain(a.decisions, r.id))
  {
    if r.id in db.reviews {
      SameHashSameReview(c, db.reviews[r.id], r);
    }
    ReadsSucceed(c, db, r);
    ChainMembers(db.rows, r.id);
    ChainMembers(a.decisions, r.id);
    CompatibleIsComparable(c, Chain(db.rows, r.id), Chain(a.decisions, r.id));
  }

  lemma NoForksIff(c: Codec, db: Db, a: Archive)
    requires Inv(c, db) && CollisionFree(c) && ReviewsOk(c, a) && DecisionsOk(c, a) && Owned(db.reviews, a)
    ensures NoForks(db.rows, a) <==> AllCompatible(db.rows, a.authoritative, a.decisions)
    ensures forall r :: r in a.authoritative ==> ValidatedRows(c, db.rows, r).Ok?
  {
    forall r | r in a.authoritative
      ensures ValidatedRows(c, db.rows, r).Ok?
      ensures Compatible(Chain(db.rows, r.id), Chain(a.decisions, r.id)) <==>
              Comparable(Chain(db.rows, r.id), Chain(a.decisions, r.id))
    {
      assert r in a.legacy + a.authoritative;
      OwnedReviewReads(c, db, a, r);
    }
  }

  /** A valid archive that owns its reviews and reuses no decision id is refused exactly when some chain forks. */
  lemma AppliesIff(c: Codec, db: Db, a: Archive)
    requires Inv(c, db) && CollisionFree(c)
    ensures ApplyArchive(c, db, a).Ok? <==>
            && ReviewsOk(c, a) && DecisionsOk(c, a) && Owned(db.reviews, a)
            && SameRecords(db.rows, a.decisions, {}) && NoForks(db.rows, a)
  {
    PreflightApplyIsExact(c, db, a);
    PreflightApplyIff(c, db, a);
    if ReviewsOk(c, a) && DecisionsOk(c, a) && Owned(db.reviews, a) {
      NoForksIff(c, db, a);
    }
  }

  lemma StillOwned(table: map<string, Review>, a: Archive, after: map<string, Review>)
    requires Owned(table, a) && Written(table, a, after)
    requires forall r :: r in a.authoritative ==> r.id in after && after[r.id] == r
    ensures Owned(after, a)
  {
  }

  /** A successful apply leaves a good state that holds everything the archive holds. */
  lemma AfterApply(c: Codec, db: Db, a: Archive)
    requires Inv(c, db) && CollisionFree(c) && ApplyArchive(c, db, a).Ok?
    ensures var after := ApplyArchive(c, db, a).value;
            && Inv(c, after)
            && Written(db.reviews, a, after.reviews)
            && (forall id :: id in db.reviews && db.reviews[id].Authoritative? ==>
                  id in after.reviews && after.reviews[id] == db.reviews[id])
            && (forall r :: r in a.authoritative ==> r.id in after.reviews && after.reviews[r.id] == r)
  {
    ApplyKeepsInv(c, db, a);
    PreflightApplyIsExact(c, db, a);
    PreflightApplyIff(c, db, a);
    WrittenTable(c, db.reviews, a, ApplyArchive(c, db, a).value.reviews);
  }

  /** The decisions stored after an apply are those stored before and those archived. */
  lemma AppliedMembers(c: Codec, db: Db, a: Archive)
    requires Inv(c, db) && CollisionFree(c) && ApplyArchive(c, db, a).Ok?
    ensures forall d :: d in ApplyArchive(c, db, a).value.rows <==> d in db.rows || d in a.decisions
  {
    PreflightApplyIsExact(c, db, a);
    PreflightApplyIff(c, db, a);
    var after := ApplyArchive(c, db, a).value;
    AdditionsMembers(db.rows, a.authoritative, a.decisions, |a.authoritative|);
    forall d | d in a.decisions ensures d in after.rows {
      ApplyIsJoin(c, db, a, d.reviewId);
      ChainMembers(a.decisions, d.reviewId);
      ChainMembers(after.rows, d.reviewId);
      InLonger(Chain(db.rows, d.reviewId), Chain(a.decisions, d.reviewId), d);
    }
  }

  lemma InLonger<T>(x: seq<T>, y: seq<T>, d: T)
    requires Comparable(x, y) && d in y
    ensures d in Longer(x, y)
  {
  }

  lemma {:induction false} NothingToAdd(rows: seq<Decision>, reviews: seq<Review>, ds: seq<Decision>, n: nat)
    requires n <= |reviews|
    requires forall r :: r in reviews ==> |Chain(rows, r.id)| >= |Chain(ds, r.id)|
    ensures Additions(rows, reviews, ds, n) == []
  {
    if n > 0 {
      NothingToAdd(rows, reviews, ds, n - 1);
      assert reviews[n - 1] in reviews;
    }
  }

  lemma JoinedHasNoForks(c: Codec, db: Db, a: Archive)
    requires Inv(c, db) && CollisionFree(c) && ApplyArchive(c, db, a).Ok?
    ensures NoForks(ApplyArchive(c, db, a).value.rows, a)
    ensures forall r :: r in a.authoritative ==>
              |Chain(ApplyArchive(c, db, a).value.rows, r.id)| >= |Chain(a.decisions, r.id)|
  {
    forall r | r in a.authoritative
      ensures Comparable(Chain(ApplyArchive(c, db, a).value.rows, r.id), Chain(a.decisions, r.id))
      ensures |Chain(ApplyArchive(c, db, a).value.rows, r.id)| >= |Chain(a.decisions, r.id)|
    {
      ApplyIsJoin(c, db, a, r.id);
    }
  }

  lemma JoinedSameRecords(c: Codec, db: Db, a: Archive)
    requires Inv(c, db) && CollisionFree(c) && ApplyArchive(c, db, a).Ok?
    ensures SameRecords(ApplyArchive(c, db, a).value.rows, a.decisions, {})
  {
    hide Inv, CollisionFree, ApplyArchive, ReviewsOk, Owned, NoForks;
    AppliesIff(c, db, a);
    AppliedMembers(c, db, a);
    forall e, x | e in a.decisions && x in a.decisions && e.id == x.id ensures e == x {
    }
  }

  lemma ReappliedCommits(c: Codec, db: Db, a: Archive)
    requires Inv(c, db) && CollisionFree(c) && ApplyArchive(c, db, a).Ok?
    ensures ApplyArchive(c, ApplyArchive(c, db, a).value, a).Ok?
  {
    var after := ApplyArchive(c, db, a).value;
    AppliesIff(c, db, a);
    AfterApply(c, db, a);
    StillOwned(db.reviews, a, after.reviews);
    JoinedHasNoForks(c, db, a);
    JoinedSameRecords(c, db, a);
    AppliesIff(c, after, a);
  }

  lemma WrittenTwice(table: map<string, Review>, a: Archive, after: map<string, Review>, again: map<string, Review>)
    requires Written(table, a, after) && Written(after, a, again)
    ensures again == after
  {
  }

  /** Applying the same archive again commits and changes neither table. */
  lemma ApplyIsIdempotent(c: Codec, db: Db, a: Archive)
    requires Inv(c, db) && CollisionFree(c) && ApplyArchive(c, db, a).Ok?
    ensures var after := ApplyArchive(c, db, a).value; ApplyArchive(c, after, a) == Ok(after)
  {
    var after := ApplyArchive(c, db, a).value;
    AfterApply(c, db, a);
    ReappliedCommits(c, db, a);
    PreflightApplyIsExact(c, after, a);
    JoinedHasNoForks(c, db, a);
    NothingToAdd(after.rows, a.authoritative, a.decisions, |a.authoritative|);
    assert after.rows + [] == after.rows;
    WrittenTwice(db.reviews, a, after.reviews, ApplyArchive(c, after, a).value.reviews);
  }

  // ---------------------------------------------------------------- two archives

  /** The same authoritative reviews and the same chain for every review; only rowids may interleave differently. */
  ghost predicate SameLedger(x: Db, y: Db) {
    && x.reviews.Keys == y.reviews.Keys
    && (forall id :: id in x.reviews && (x.reviews[id].Authoritative? || y.reviews[id].Authoritative?) ==>
          x.reviews[id] == y.reviews[id])
    && (forall rid :: Chain(x.rows, rid) == Chain(y.rows, rid))
  }

  lemma SecondOwnsFirst(c: Codec, db: Db, a: Archive, b: Archive)
    requires Inv(c, db) && CollisionFree(c) && ApplyArchive(c, db, a).Ok?
    requires ApplyArchive(c, ApplyArchive(c, db, a).value, b).Ok?
    ensures Owned(db.reviews, b)
  {
    var after := ApplyArchive(c, db, a).value;
    AppliesIff(c, db, a);
    AfterApply(c, db, a);
    AppliesIff(c, after, b);
    forall r | r in b.legacy + b.authoritative ensures MayWrite(db.reviews, r, None) {
      assert MayWrite(after.reviews, r, None);
      if r.id in db.reviews && r.id in Ids(a.legacy) {
        var l :| l in a.legacy && l.id == r.id;
        assert l in a.legacy + a.authoritative && MayWrite(db.reviews, l, None);
      }
    }
  }

  /** What was accepted on top of another archive is accepted without it. */
  lemma SecondAppliesAlone(c: Codec, db: Db, a: Archive, b: Archive)
    requires Inv(c, db) && CollisionFree(c) && ApplyArchive(c, db, a).Ok?
    requires ApplyArchive(c, ApplyArchive(c, db, a).value, b).Ok?
    ensures ApplyArchive(c, db, b).Ok?
  {
    var after := ApplyArchive(c, db, a).value;
    AfterApply(c, db, a);
    AppliesIff(c, after, b);
    SecondOwnsFirst(c, db, a, b);
    assert SameRecords(db.rows, b.decisions, {}) by { AppliedMembers(c, db, a); }
    forall r | r in b.authoritative ensures Comparable(Chain(db.rows, r.id), Chain(b.decisions, r.id)) {
      ApplyIsJoin(c, db, a, r.id);
      LongerCommutes(Chain(db.rows, r.id), Chain(a.decisions, r.id), Chain(b.decisions, r.id));
    }
    AppliesIff(c, db, b);
  }

  /** A review table, an archive it admits, and the table that archive leaves. */
  ghost predicate Stage(table: map<string, Review>, a: Archive, after: map<string, Review>) {
    && Owned(table, a) && Written(table, a, after)
    && (forall id :: id in Ids(a.legacy) ==> id !in Ids(a.authoritative))
    && (forall r :: r in a.legacy ==> r.Legacy?)
    && (forall r :: r in a.authoritative ==> r.Authoritative?)
    && (forall r :: r in a.authoritative ==> r.id in after && after[r.id] == r)
    && (forall id :: id in table && table[id].Authoritative? ==> id in after && after[id] == table[id])
  }

  lemma ApplyIsStage(c: Codec, db: Db, a: Archive)
    requires Inv(c, db) && CollisionFree(c) && ApplyArchive(c, db, a).Ok?
    ensures Stage(db.reviews, a, ApplyArchive(c, db, a).value.reviews)
  {
    AppliesIff(c, db, a);
    AfterApply(c, db, a);
  }

  /** An id is stored after a stage as: an archived review, or whatever was stored before. */
  lemma StageCases(table: map<string, Review>, a: Archive, after: map<string, Review>, id: string)
    requires Stage(table, a, after) && id in after
    ensures (exists r :: r in a.legacy + a.authoritative && r.id == id && after[id] == r && MayWrite(table, r, None))
            || (id in table && after[id] == table[id] && id !in Ids(a.legacy) && id !in Ids(a.authoritative))
  {
  }

  lemma StageStores(table: map<string, Review>, a: Archive, after: map<string, Review>, r: Review)
    requires Stage(table, a, after) && r in a.legacy + a.authoritative
    ensures r.id in after && after[r.id] == r && MayWrite(table, r, None)
  {
  }

  lemma OwnedEitherWay(table: map<string, Review>, a: Archive, ta: map<string, Review>,
                       b: Archive, tb: map<string, Review>)
    requires Stage(table, a, ta) && Stage(table, b, tb) && Owned(ta, b)
    ensures Owned(tb, a)
  {
    forall r | r in a.legacy + a.authoritative ensures MayWrite(tb, r, None) {
      StageStores(table, a, ta, r);
      if r.id in tb {
        StageCases(table, b, tb, r.id);
        if q :| q in b.legacy + b.authoritative && q.id == r.id && tb[r.id] == q && MayWrite(table, q, None) {
          assert MayWrite(ta, q, None);
        }
      }
    }
  }

  lemma SameReviewsEitherWay(table: map<string, Review>, a: Archive, ta: map<string, Review>, tab: map<string, Review>,
                             b: Archive, tb: map<string, Review>, tba: map<string, Review>)
    requires Stage(table, a, ta) && Stage(ta, b, tab) && Stage(table, b, tb) && Stage(tb, a, tba)
    ensures tab.Keys == tba.Keys
    ensures forall id :: id in tab && (tab[id].Authoritative? || tba[id].Authoritative?) ==> tab[id] == tba[id]
  {
    forall id | id in tab && (tab[id].Authoritative? || tba[id].Authoritative?) ensures tab[id] == tba[id] {
      AuthoritativeOrigin(table, a, ta, b, tab, id);
      AuthoritativeOrigin(table, b, tb, a, tba, id);
    }
  }

  /** A stored v2 review comes from the first table or from one of the two archives, and is stored in both orders. */
  lemma AuthoritativeOrigin(table: map<string, Review>, a: Archive, ta: map<string, Review>,
                            b: Archive, tab: map<string, Review>, id: string)
    requires Stage(table, a, ta) && Stage(ta, b, tab) && id in tab
    ensures tab[id].Authoritative? ==>
              || (id in table && table[id] == tab[id])
              || (exists r :: r in a.authoritative && r.id == id && r == tab[id])
              || (exists r :: r in b.authoritative && r.id == id && r == tab[id])
    ensures id in table && table[id].Authoritative? ==> tab[id] == table[id]
    ensures forall r :: r in a.authoritative && r.id == id ==> tab[id] == r
    ensures forall r :: r in b.authoritative && r.id == id ==> tab[id] == r
  {
  }

  lemma SameRecordsEitherWay(rows: seq<Decision>, ads: seq<Decision>, ra: seq<Decision>,
                             bds: seq<Decision>, rb: seq<Decision>)
    requires SameRecords(rows, ads, {}) && SameRecords(ra, bds, {})
    requires forall d :: d in ads ==> d in ra
    requires forall d :: d in rb ==> d in rows || d in bds
    ensures SameRecords(rb, ads, {})
  {
  }

  lemma FirstSameRecords(c: Codec, db: Db, a: Archive, b: Archive)
    requires Inv(c, db) && CollisionFree(c) && ApplyArchive(c, db, a).Ok? && ApplyArchive(c, db, b).Ok?
    requires ApplyArchive(c, ApplyArchive(c, db, a).value, b).Ok?
    ensures SameRecords(ApplyArchive(c, db, b).value.rows, a.decisions, {})
  {
    var da, dx := ApplyArchive(c, db, a).value, ApplyArchive(c, db, b).value;
    AppliesIff(c, db, a);
    AfterApply(c, db, a);
    AppliesIff(c, da, b);
    assert forall d :: d in a.decisions ==> d in da.rows by { AppliedMembers(c, db, a); }
    assert forall d :: d in dx.rows ==> d in db.rows || d in b.decisions by { AppliedMembers(c, db, b); }
    SameRecordsEitherWay(db.rows, a.decisions, da.rows, b.decisions, dx.rows);
  }

  lemma FirstAppliesSecond(c: Codec, db: Db, a: Archive, b: Archive)
    requires Inv(c, db) && CollisionFree(c) && ApplyArchive(c, db, a).Ok?
    requires ApplyArchive(c, ApplyArchive(c, db, a).value, b).Ok?
    ensures ApplyArchive(c, db, b).Ok?
    ensures ApplyArchive(c, ApplyArchive(c, db, b).value, a).Ok?
    ensures forall rid :: Chain(ApplyArchive(c, ApplyArchive(c, db, a).value, b).value.rows, rid) ==
                          Longer(Longer(Chain(db.rows, rid), Chain(b.decisions, rid)), Chain(a.decisions, rid))
  {
    SecondAppliesAlone(c, db, a, b);
    FirstSameRecords(c, db, a, b);
    AfterApply(c, db, a);
    AfterApply(c, db, b);
    var da := ApplyArchive(c, db, a).value;
    var dx := ApplyArchive(c, db, b).value;
    assert Owned(dx.reviews, a) by {
      ApplyIsStage(c, db, a);
      ApplyIsStage(c, db, b);
      ApplyIsStage(c, da, b);
      OwnedEitherWay(db.reviews, a, da.reviews, b, dx.reviews);
    }
    forall rid
      ensures Comparable(Chain(dx.rows, rid), Chain(a.decisions, rid))
      ensures Chain(ApplyArchive(c, da, b).value.rows, rid) ==
              Longer(Longer(Chain(db.rows, rid), Chain(b.decisions, rid)), Chain(a.decisions, rid))
    {
      ApplyIsJoin(c, db, a, rid);
      ApplyIsJoin(c, da, b, rid);
      ApplyIsJoin(c, db, b, rid);
      LongerCommutes(Chain(db.rows, rid), Chain(a.decisions, rid), Chain(b.decisions, rid));
    }
    AppliesIff(c, db, a);
    AppliesIff(c, dx, a);
  }

  lemma BothOrdersSameReviews(c: Codec, db: Db, a: Archive, b: Archive)
    requires Inv(c, db) && CollisionFree(c)
    requires ApplyArchive(c, db, a).Ok? && ApplyArchive(c, ApplyArchive(c, db, a).value, b).Ok?
    requires ApplyArchive(c, db, b).Ok? && ApplyArchive(c, ApplyArchive(c, db, b).value, a).Ok?
    ensures var x := ApplyArchive(c, ApplyArchive(c, db, a).value, b).value.reviews;
            var y := ApplyArchive(c, ApplyArchive(c, db, b).value, a).value.reviews;
            && x.Keys == y.Keys
            && (forall id :: id in x && (x[id].Authoritative? || y[id].Authoritative?) ==> x[id] == y[id])
  {
    var da, dx := ApplyArchive(c, db, a).value, ApplyArchive(c, db, b).value;
    AfterApply(c, db, a);
    AfterApply(c, db, b);
    ApplyIsStage(c, db, a);
    ApplyIsStage(c, db, b);
    ApplyIsStage(c, da, b);
    ApplyIsStage(c, dx, a);
    SameReviewsEitherWay(db.reviews, a, da.reviews, ApplyArchive(c, da, b).value.reviews,
                         b, dx.reviews, ApplyArchive(c, dx, a).value.reviews);
  }

  /** If two archives apply one after the other, they apply in the other order too, with the same result. */
  lemma ApplyCommutes(c: Codec, db: Db, a: Archive, b: Archive)
    requires Inv(c, db) && CollisionFree(c) && ApplyArchive(c, db, a).Ok?
    requires ApplyArchive(c, ApplyArchive(c, db, a).value, b).Ok?
    ensures ApplyArchive(c, db, b).Ok? && ApplyArchive(c, ApplyArchive(c, db, b).value, a).Ok?
    ensures SameLedger(ApplyArchive(c, ApplyArchive(c, db, a).value, b).value,
                       ApplyArchive(c, ApplyArchive(c, db, b).value, a).value)
  {
    FirstAppliesSecond(c, db, a, b);
    BothOrdersSameReviews(c, db, a, b);
    AfterApply(c, db, b);
    var dx := ApplyArchive(c, db, b).value;
    forall rid
      ensures Chain(ApplyArchive(c, dx, a).value.rows, rid) ==
              Longer(Longer(Chain(db.rows, rid), Chain(b.decisions, rid)), Chain(a.decisions, rid))
    {
      ApplyIsJoin(c, db, b, rid);
      ApplyIsJoin(c, dx, a, rid);
    }
  }
}
