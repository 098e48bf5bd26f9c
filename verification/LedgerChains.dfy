/** How the selections of the decision table behave under insertion and deletion. */
module LedgerChains {
  import opened Prelude
  import opened Ledger

  ghost predicate Distinct(rows: seq<Decision>) {
    forall i, j :: 0 <= i < j < |rows| ==> rows[i].id != rows[j].id
  }

  /** Each decision supersedes the one just before it and the first supersedes nothing. */
  ghost predicate Linked(ds: seq<Decision>) {
    forall i :: 0 <= i < |ds| ==> ds[i].supersedes == Tail(ds[..i])
  }

  lemma {:induction false} ChainOfConcat(a: seq<Decision>, b: seq<Decision>, rid: string)
    ensures Chain(a + b, rid) == Chain(a, rid) + Chain(b, rid)
  {
    if b == [] {
      assert a + b == a;
    } else {
      var s := a + b;
      assert s[..|s| - 1] == a + b[..|b| - 1];
      ChainOfConcat(a, b[..|b| - 1], rid);
    }
  }

  lemma ChainOfInsert(rows: seq<Decision>, d: Decision, rid: string)
    ensures Chain(rows + [d], rid) == Chain(rows, rid) + if d.reviewId == rid then [d] else []
  {
  }

  lemma {:induction false} ChainMembers(rows: seq<Decision>, rid: string)
    ensures forall d :: d in Chain(rows, rid) <==> d in rows && d.reviewId == rid
  {
    if rows != [] {
      ChainMembers(rows[..|rows| - 1], rid);
      assert rows == rows[..|rows| - 1] + [rows[|rows| - 1]];
    }
  }

  lemma {:induction false} WithoutMembers(rows: seq<Decision>, ids: set<string>)
    ensures forall d :: d in Without(rows, ids) <==> d in rows && d.reviewId !in ids
    ensures forall d :: d in Within(rows, ids) <==> d in rows && d.reviewId in ids
  {
    if rows != [] {
      WithoutMembers(rows[..|rows| - 1], ids);
      assert rows == rows[..|rows| - 1] + [rows[|rows| - 1]];
    }
  }

  lemma {:induction false} ChainOfWithout(rows: seq<Decision>, ids: set<string>, rid: string)
    ensures Chain(Without(rows, ids), rid) == if rid in ids then [] else Chain(rows, rid)
  {
    if rows != [] {
      var front, last := rows[..|rows| - 1], rows[|rows| - 1];
      ChainOfWithout(front, ids, rid);
      ChainOfInsert(Without(front, ids), last, rid);
      assert Without(front, ids) + [] == Without(front, ids);
    }
  }

  lemma {:induction false} ChainDistinct(rows: seq<Decision>, rid: string)
    requires Distinct(rows)
    ensures Distinct(Chain(rows, rid))
  {
    if rows != [] {
      ChainDistinct(rows[..|rows| - 1], rid);
      ChainMembers(rows[..|rows| - 1], rid);
    }
  }

  lemma {:induction false} WithoutDistinct(rows: seq<Decision>, ids: set<string>)
    requires Distinct(rows)
    ensures Distinct(Without(rows, ids)) && Distinct(Within(rows, ids))
  {
    if rows != [] {
      WithoutDistinct(rows[..|rows| - 1], ids);
      WithoutMembers(rows[..|rows| - 1], ids);
    }
  }

  lemma {:induction false} FindRowFinds(rows: seq<Decision>, id: string)
    ensures FindRow(rows, id).Some? <==> id in DecisionIds(rows)
    ensures FindRow(rows, id).Some? ==> FindRow(rows, id).value in rows && FindRow(rows, id).value.id == id
  {
    if rows != [] {
      var last := rows[|rows| - 1];
      FindRowFinds(rows[..|rows| - 1], id);
      assert rows == rows[..|rows| - 1] + [last];
      assert DecisionIds(rows) == DecisionIds(rows[..|rows| - 1]) + {last.id};
    }
  }

  lemma FindRowUnique(rows: seq<Decision>, d: Decision)
    requires Distinct(rows) && d in rows
    ensures FindRow(rows, d.id) == Some(d)
  {
  }

  lemma {:induction false} FindReviewFinds(reviews: seq<Review>, id: string)
    ensures FindReview(reviews, id).Some? <==> id in Ids(reviews)
    ensures FindReview(reviews, id).Some? ==> FindReview(reviews, id).value in reviews && FindReview(reviews, id).value.id == id
  {
    if reviews != [] {
      var last := reviews[|reviews| - 1];
      FindReviewFinds(reviews[..|reviews| - 1], id);
      assert reviews == reviews[..|reviews| - 1] + [last];
      assert Ids(reviews) == Ids(reviews[..|reviews| - 1]) + {last.id};
    }
  }

  lemma DistinctSnoc(front: seq<Decision>, last: Decision)
    ensures Distinct(front + [last]) <==> Distinct(front) && last.id !in DecisionIds(front)
    ensures DecisionIds(front + [last]) == DecisionIds(front) + {last.id}
  {
    var rows := front + [last];
    if Distinct(rows) {
      forall i, j | 0 <= i < j < |front| ensures front[i].id != front[j].id {
        assert rows[i].id != rows[j].id;
      }
      forall d | d in front ensures d.id != last.id {
        var i :| 0 <= i < |front| && front[i] == d;
        assert rows[i].id != rows[|front|].id;
      }
    } else if Distinct(front) {
      var i, j :| 0 <= i < j < |rows| && rows[i].id == rows[j].id;
      assert j == |front| && front[i] in front;
    }
  }

  /** Python's `len({...}) == len(...)` is the absence of duplicates. */
  lemma {:induction false} DecisionIdCount(rows: seq<Decision>)
    ensures |DecisionIds(rows)| <= |rows|
    ensures |DecisionIds(rows)| == |rows| <==> Distinct(rows)
  {
    if rows != [] {
      var front, last := rows[..|rows| - 1], rows[|rows| - 1];
      hide Distinct;
      DecisionIdCount(front);
      assert rows == front + [last];
      DistinctSnoc(front, last);
    }
  }

  ghost predicate DistinctReviews(reviews: seq<Review>) {
    forall i, j :: 0 <= i < j < |reviews| ==> reviews[i].id != reviews[j].id
  }

  lemma DistinctReviewsSnoc(front: seq<Review>, last: Review)
    ensures DistinctReviews(front + [last]) <==> DistinctReviews(front) && last.id !in Ids(front)
    ensures Ids(front + [last]) == Ids(front) + {last.id}
  {
    var reviews := front + [last];
    if DistinctReviews(reviews) {
      forall i, j | 0 <= i < j < |front| ensures front[i].id != front[j].id {
        assert reviews[i].id != reviews[j].id;
      }
      forall r | r in front ensures r.id != last.id {
        var i :| 0 <= i < |front| && front[i] == r;
        assert reviews[i].id != reviews[|front|].id;
      }
    } else if DistinctReviews(front) {
      var i, j :| 0 <= i < j < |reviews| && reviews[i].id == reviews[j].id;
      assert j == |front| && front[i] in front;
    }
  }

  lemma {:induction false} ReviewIdCount(reviews: seq<Review>)
    ensures |Ids(reviews)| <= |reviews|
    ensures |Ids(reviews)| == |reviews| <==> DistinctReviews(reviews)
  {
    if reviews != [] {
      var front, last := reviews[..|reviews| - 1], reviews[|reviews| - 1];
      hide DistinctReviews;
      ReviewIdCount(front);
      assert reviews == front + [last];
      DistinctReviewsSnoc(front, last);
    }
  }

  /** The validating read succeeds exactly on a readable, bound, linked chain, and returns it. */
  lemma ValidatedRowsIff(c: Codec, rows: seq<Decision>, r: Review)
    requires r.Authoritative?
    ensures ValidatedRows(c, rows, r).Ok? <==>
            && (forall d :: d in Chain(rows, r.id) ==> DecisionError(c, d).None? && BindingError(d, r).None?)
            && Linked(Chain(rows, r.id))
  {
    var ds := Chain(rows, r.id);
    var check := RowCheck(c, ds, r);
    NoErrorIffAllPass(|ds|, check);
    assert forall i: nat :: i < |ds| ==> (check(i).None? <==>
        DecisionError(c, ds[i]).None? && BindingError(ds[i], r).None? && ds[i].supersedes == Tail(ds[..i]));
    if FirstError(|ds|, check).None? {
      forall i | 0 <= i < |ds|
        ensures ds[i].supersedes == Tail(ds[..i]) && DecisionError(c, ds[i]).None? && BindingError(ds[i], r).None?
      {
        assert check(i).None?;
      }
    }
  }

  lemma LinkedIff(chain: seq<Decision>)
    ensures FirstError(|chain|, SupersedesCheck(chain)).None? <==> Linked(chain)
  {
    var check := SupersedesCheck(chain);
    NoErrorIffAllPass(|chain|, check);
    assert forall k: nat :: k < |chain| ==> (check(k).None? <==> chain[k].supersedes == Tail(chain[..k]));
    if FirstError(|chain|, check).None? {
      forall k | 0 <= k < |chain| ensures chain[k].supersedes == Tail(chain[..k]) {
        assert check(k).None?;
      }
    }
  }

  lemma ChainsLinkedIff(ds: seq<Decision>, reviews: seq<Review>)
    ensures FirstError(|reviews|, ArchiveChainCheck(ds, reviews)).None? <==>
            forall r :: r in reviews ==> Linked(Chain(ds, r.id))
  {
    var check := ArchiveChainCheck(ds, reviews);
    NoErrorIffAllPass(|reviews|, check);
    forall i: nat | i < |reviews|
      ensures check(i).None? <==> Linked(Chain(ds, reviews[i].id))
    {
      LinkedIff(Chain(ds, reviews[i].id));
    }
    if FirstError(|reviews|, check).None? {
      forall r | r in reviews ensures Linked(Chain(ds, r.id)) {
        var i: nat :| i < |reviews| && reviews[i] == r;
        assert check(i).None?;
      }
    }
  }

  lemma RecordsValidIff(c: Codec, ds: seq<Decision>)
    ensures FirstError(|ds|, ArchiveRecordCheck(c, ds)).None? <==> forall d :: d in ds ==> DecisionError(c, d).None?
  {
    var check := ArchiveRecordCheck(c, ds);
    NoErrorIffAllPass(|ds|, check);
    assert forall i: nat :: i < |ds| ==> check(i) == DecisionError(c, ds[i]);
    if FirstError(|ds|, check).None? {
      forall d | d in ds ensures DecisionError(c, d).None? {
        var i: nat :| i < |ds| && ds[i] == d;
        assert check(i).None?;
      }
    }
  }

  lemma ReviewsPresentIff(ds: seq<Decision>, reviews: seq<Review>)
    ensures FirstError(|ds|, MissingReviewCheck(ds, reviews)).None? <==> forall d :: d in ds ==> d.reviewId in Ids(reviews)
  {
    var check := MissingReviewCheck(ds, reviews);
    NoErrorIffAllPass(|ds|, check);
    assert forall i: nat :: i < |ds| ==> (check(i).None? <==> ds[i].reviewId in Ids(reviews));
    if FirstError(|ds|, check).None? {
      forall d | d in ds ensures d.reviewId in Ids(reviews) {
        var i: nat :| i < |ds| && ds[i] == d;
        assert check(i).None?;
      }
    }
  }

  /** Every decision is bound to the archived review it names. */
  ghost predicate Bound(ds: seq<Decision>, reviews: seq<Review>)
    requires forall r :: r in reviews ==> r.Authoritative?
  {
    forall d, r :: d in ds && r in reviews && d.reviewId == r.id ==> BindingError(d, r).None?
  }

  lemma BoundIff(ds: seq<Decision>, reviews: seq<Review>)
    requires DistinctReviews(reviews) && forall r :: r in reviews ==> r.Authoritative?
    requires forall d :: d in ds ==> d.reviewId in Ids(reviews)
    ensures FirstError(|ds|, ArchiveBindingCheck(ds, reviews)).None? <==> Bound(ds, reviews)
  {
    var check := ArchiveBindingCheck(ds, reviews);
    NoErrorIffAllPass(|ds|, check);
    forall i: nat | i < |ds|
      ensures FindReview(reviews, ds[i].reviewId).Some?
      ensures FindReview(reviews, ds[i].reviewId).value in reviews
      ensures FindReview(reviews, ds[i].reviewId).value.id == ds[i].reviewId
      ensures check(i) == BindingError(ds[i], FindReview(reviews, ds[i].reviewId).value)
    {
      assert ds[i] in ds;
      FindReviewFinds(reviews, ds[i].reviewId);
    }
    if FirstError(|ds|, check).None? {
      forall d, r | d in ds && r in reviews && d.reviewId == r.id ensures BindingError(d, r).None? {
        var i: nat :| i < |ds| && ds[i] == d;
        assert check(i).None?;
        assert FindReview(reviews, d.reviewId).value == r;
      }
    }
    if Bound(ds, reviews) {
      forall i: nat | i < |ds| ensures check(i).None? {
        assert ds[i] in ds && FindReview(reviews, ds[i].reviewId).value in reviews;
      }
    }
  }

  /** An archive's decisions are accepted exactly when ids are unique and every review's chain is bound and linked. */
  lemma DecisionArchiveIff(c: Codec, ds: seq<Decision>, reviews: seq<Review>)
    requires DistinctReviews(reviews) && forall r :: r in reviews ==> r.Authoritative?
    ensures DecisionArchiveError(c, ds, reviews).None? <==>
            && Distinct(ds)
            && (forall d :: d in ds ==> DecisionError(c, d).None?)
            && (forall d :: d in ds ==> d.reviewId in Ids(reviews))
            && Bound(ds, reviews)
            && (forall r :: r in reviews ==> Linked(Chain(ds, r.id)))
  {
    DecisionIdCount(ds);
    RecordsValidIff(c, ds);
    ReviewsPresentIff(ds, reviews);
    ChainsLinkedIff(ds, reviews);
    if forall d :: d in ds ==> d.reviewId in Ids(reviews) {
      BoundIff(ds, reviews);
    }
  }
}
