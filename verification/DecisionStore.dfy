/**
 The two stores as an object over its tables. Each public method is one transaction: it validates,
 writes step by step, and on any failure puts back the tables it started from.
 */
module DecisionStore {
  import opened Prelude
  import opened Ledger

  lemma {:induction false} PutErrorStays(table: map<string, Review>, reviews: seq<Review>, i: nat)
    requires i <= |reviews| && PutAuthoritative(table, reviews[..i]).Err?
    ensures PutAuthoritative(table, reviews) == PutAuthoritative(table, reviews[..i])
    decreases |reviews|
  {
    if i == |reviews| {
      assert reviews[..i] == reviews;
    } else {
      assert reviews[..|reviews| - 1][..i] == reviews[..i];
      PutErrorStays(table, reviews[..|reviews| - 1], i);
    }
  }

  lemma {:induction false} InsertErrorStays(rows: seq<Decision>, ds: seq<Decision>, i: nat)
    requires i <= |ds| && InsertAll(rows, ds[..i]).Err?
    ensures InsertAll(rows, ds) == InsertAll(rows, ds[..i])
    decreases |ds|
  {
    if i == |ds| {
      assert ds[..i] == ds;
    } else {
      assert ds[..|ds| - 1][..i] == ds[..i];
      InsertErrorStays(rows, ds[..|ds| - 1], i);
    }
  }

  lemma {:induction false} ChainsErrorStays(c: Codec, rows: seq<Decision>, reviews: seq<Review>, ds: seq<Decision>, i: nat, n: nat)
    requires i <= n <= |reviews| && InsertChains(c, rows, reviews, ds, i).Err?
    ensures InsertChains(c, rows, reviews, ds, n) == InsertChains(c, rows, reviews, ds, i)
    decreases n
  {
    if i < n {
      ChainsErrorStays(c, rows, reviews, ds, i, n - 1);
    }
  }

  lemma ChainStep(ds: seq<Decision>, i: nat, id: string)
    requires i < |ds|
    ensures Chain(ds[..i + 1], id) ==
            if id == ds[i].reviewId then Chain(ds[..i], id) + [ds[i]] else Chain(ds[..i], id)
  {
    assert ds[..i + 1][..i] == ds[..i];
    assert Chain(ds[..i], id) + [] == Chain(ds[..i], id);
  }

  /** The buckets hold the chains of the first `i` decisions. */
  ghost predicate Grouped(buckets: map<string, seq<Decision>>, ds: seq<Decision>, i: nat)
    requires i <= |ds|
  {
    forall id :: id in buckets ==> buckets[id] == Chain(ds[..i], id)
  }

  lemma GroupedStep(buckets: map<string, seq<Decision>>, ds: seq<Decision>, i: nat)
    requires i < |ds| && Grouped(buckets, ds, i) && ds[i].reviewId in buckets
    ensures Grouped(buckets[ds[i].reviewId := buckets[ds[i].reviewId] + [ds[i]]], ds, i + 1)
  {
    forall id | id in buckets
      ensures Chain(ds[..i + 1], id) == if id == ds[i].reviewId then buckets[id] + [ds[i]] else buckets[id]
    {
      ChainStep(ds, i, id);
    }
  }

  class Store {
    const codec: Codec
    var reviews: map<string, Review>
    var rows: seq<Decision>

    constructor (codec: Codec)
      ensures this.codec == codec && Tables() == EMPTY
    {
      this.codec := codec;
      reviews, rows := map[], [];
    }

    ghost function Tables(): Db
      reads this
    {
      Db(reviews, rows)
    }

    // -------------------------------------------------------------- reading

    method SelectValidated(r: Review) returns (result: Result<seq<Decision>, Error>)
      requires r.Authoritative?
      ensures result == ValidatedRows(codec, rows, r)
    {
      var selected := Chain(rows, r.id);
      ghost var check := RowCheck(codec, selected, r);
      var decisions: seq<Decision> := [];
      var expected: Option<string> := None;
      for i := 0 to |selected|
        invariant decisions == selected[..i] && expected == Tail(decisions)
        invariant FirstError(i, check).None?
      {
        var decision := selected[i];
        var failure: Option<Error> := None;
        if DecisionError(codec, decision).Some? {
          failure := Some(DecisionRecordConflict);
        } else if BindingError(decision, r).Some? {
          failure := BindingError(decision, r);
        } else if decision.supersedes != expected {
          failure := Some(DecisionConflict);
        }
        assert failure == check(i) == FirstError(i + 1, check);
        if failure.Some? {
          FirstErrorStays(i + 1, |selected|, check);
          return Err(failure.value);
        }
        decisions := decisions + [decision];
        expected := Some(decision.id);
      }
      assert selected[..|selected|] == selected;
      return Ok(decisions);
    }

    /** `list_by_review`; its last element is what `latest` returns. */
    method ListByReview(reviewId: string) returns (result: Result<seq<Decision>, Error>)
      ensures match AuthoritativeReview(Tables(), reviewId)
              case Err(e) => result == Err(e)
              case Ok(r) => result == ValidatedRows(codec, rows, r)
    {
      var review := AuthoritativeReview(Db(reviews, rows), reviewId);
      if review.Err? {
        return Err(review.error);
      }
      result := SelectValidated(review.value);
    }

    // -------------------------------------------------------------- validating an archive

    method GroupByReview(ds: seq<Decision>, incoming: seq<Review>) returns (grouped: Result<map<string, seq<Decision>>, Error>)
      ensures FirstError(|ds|, MissingReviewCheck(ds, incoming)) == if grouped.Err? then Some(grouped.error) else None
      ensures grouped.Ok? ==> grouped.value.Keys == Ids(incoming)
      ensures grouped.Ok? ==> forall r :: r in incoming ==> grouped.value[r.id] == Chain(ds, r.id)
    {
      ghost var check := MissingReviewCheck(ds, incoming);
      var byReview: map<string, seq<Decision>> := map id | id in Ids(incoming) :: [];
      assert Grouped(byReview, ds, 0);
      hide Chain;
      for i := 0 to |ds|
        invariant byReview.Keys == Ids(incoming)
        invariant Grouped(byReview, ds, i)
        invariant FirstError(i, check).None?
      {
        var d := ds[i];
        if d.reviewId !in byReview {
          assert FirstError(i + 1, check) == Some(DecisionReviewMissing);
          FirstErrorStays(i + 1, |ds|, check);
          return Err(DecisionReviewMissing);
        }
        GroupedStep(byReview, ds, i);
        byReview := byReview[d.reviewId := byReview[d.reviewId] + [d]];
      }
      assert ds[..|ds|] == ds;
      return Ok(byReview);
    }

    method CheckLinks(chain: seq<Decision>) returns (failure: Option<Error>)
      ensures failure == FirstError(|chain|, SupersedesCheck(chain))
    {
      ghost var check := SupersedesCheck(chain);
      var predecessor: Option<string> := None;
      for i := 0 to |chain|
        invariant predecessor == Tail(chain[..i])
        invariant FirstError(i, check).None?
      {
        if chain[i].supersedes != predecessor {
          assert FirstError(i + 1, check) == Some(DecisionConflict);
          FirstErrorStays(i + 1, |chain|, check);
          return Some(DecisionConflict);
        }
        predecessor := Some(chain[i].id);
        assert chain[..i + 1][i] == chain[i];
      }
      return None;
    }

    method CheckBindings(ds: seq<Decision>, incoming: seq<Review>) returns (failure: Option<Error>)
      ensures failure == FirstError(|ds|, ArchiveBindingCheck(ds, incoming))
    {
      ghost var check := ArchiveBindingCheck(ds, incoming);
      for i := 0 to |ds|
        invariant FirstError(i, check).None?
      {
        var review := FindReview(incoming, ds[i].reviewId);
        if review.None? || !review.value.Authoritative? {
          failure := Some(DecisionReviewMissing);
        } else {
          failure := BindingError(ds[i], review.value);
        }
        assert failure == FirstError(i + 1, check);
        if failure.Some? {
          FirstErrorStays(i + 1, |ds|, check);
          return;
        }
      }
      return None;
    }

    method CheckRecords(ds: seq<Decision>) returns (failure: Option<Error>)
      ensures failure == FirstError(|ds|, ArchiveRecordCheck(codec, ds))
    {
      ghost var check := ArchiveRecordCheck(codec, ds);
      for i := 0 to |ds|
        invariant FirstError(i, check).None?
      {
        failure := DecisionError(codec, ds[i]);
        assert failure == FirstError(i + 1, check);
        if failure.Some? {
          FirstErrorStays(i + 1, |ds|, check);
          return;
        }
      }
      return None;
    }

    method CheckDecisionArchive(ds: seq<Decision>, incoming: seq<Review>) returns (failure: Option<Error>)
      ensures failure == DecisionArchiveError(codec, ds, incoming)
    {
      failure := CheckRecords(ds);
      if failure.Some? {
        return;
      }
      if |DecisionIds(ds)| != |ds| {
        return Some(DecisionIdDuplicate);
      }
      var grouped := GroupByReview(ds, incoming);
      if grouped.Err? {
        return Some(grouped.error);
      }
      failure := CheckBindings(ds, incoming);
      if failure.Some? {
        return;
      }
      ghost var check := ArchiveChainCheck(ds, incoming);
      for i := 0 to |incoming|
        invariant FirstError(i, check).None?
      {
        assert incoming[i] in incoming;
        failure := CheckLinks(grouped.value[incoming[i].id]);
        assert failure == FirstError(i + 1, check);
        if failure.Some? {
          FirstErrorStays(i + 1, |incoming|, check);
          return;
        }
      }
      return None;
    }

    method CheckArchive(a: Archive) returns (failure: Option<Error>)
      ensures failure == ArchiveError(codec, a)
    {
      failure := ReviewArchiveError(codec, a);
      if failure.None? {
        failure := CheckDecisionArchive(a.decisions, a.authoritative);
      }
    }

    // -------------------------------------------------------------- checking against the tables

    method CheckOwnership(a: Archive, replaceRun: Option<string>) returns (failure: Option<Error>)
      ensures failure == OwnershipError(reviews, a, replaceRun)
    {
      var incoming := a.legacy + a.authoritative;
      ghost var check := OwnershipCheck(reviews, incoming, replaceRun);
      for i := 0 to |incoming|
        invariant FirstError(i, check).None?
      {
        var r := incoming[i];
        failure := None;
        if r.id in reviews {
          var existing := reviews[r.id];
          if existing.runId != r.runId {
            failure := Some(ArchiveOwnerConflict);
          } else if replaceRun.Some? && existing.runId == replaceRun.value {
            failure := None;
          } else if existing.Legacy? != r.Legacy? {
            failure := Some(ArchiveOwnerConflict);
          } else if r.Authoritative? && existing.recordHash != r.recordHash {
            failure := Some(ReviewRecordConflict);
          }
        }
        assert failure == FirstError(i + 1, check);
        if failure.Some? {
          FirstErrorStays(i + 1, |incoming|, check);
          return;
        }
      }
      return None;
    }

    method CheckGlobalIds(ds: seq<Decision>, replaceIds: set<string>) returns (failure: Option<Error>)
      ensures failure == GlobalIdError(codec, rows, ds, replaceIds)
    {
      ghost var check := GlobalIdCheck(codec, rows, ds, replaceIds);
      for i := 0 to |ds|
        invariant FirstError(i, check).None?
      {
        var row := FindRow(rows, ds[i].id);
        failure := None;
        if row.Some? {
          var existing := row.value;
          if DecisionError(codec, existing).Some? {
            failure := Some(DecisionRecordConflict);
          } else if existing.reviewId !in replaceIds
            && (existing.recordHash != ds[i].recordHash || existing.reviewId != ds[i].reviewId
                || existing.reviewHash != ds[i].reviewHash || existing.evidenceHash != ds[i].evidenceHash)
          {
            failure := Some(DecisionRecordConflict);
          }
        }
        assert failure == FirstError(i + 1, check);
        if failure.Some? {
          FirstErrorStays(i + 1, |ds|, check);
          return;
        }
      }
      return None;
    }

    method CheckPrefix(r: Review, incoming: seq<Decision>) returns (failure: Option<Error>)
      requires r.Authoritative?
      ensures failure == PrefixError(codec, rows, r, incoming)
    {
      var selected := SelectValidated(r);
      if selected.Err? {
        return Some(selected.error);
      }
      var existing := selected.value;
      var common := Min(|existing|, |incoming|);
      ghost var check := ZipCheck(existing, incoming);
      for i := 0 to common
        invariant FirstError(i, check).None?
      {
        if existing[i].id != incoming[i].id || existing[i].recordHash != incoming[i].recordHash {
          assert FirstError(i + 1, check) == Some(DecisionRecordConflict);
          FirstErrorStays(i + 1, common, check);
          return Some(DecisionRecordConflict);
        }
      }
      if |incoming| > |existing| && incoming[|existing|].supersedes != Tail(existing) {
        return Some(DecisionConflict);
      }
      return None;
    }

    method CheckPrefixes(incoming: seq<Review>, ds: seq<Decision>) returns (failure: Option<Error>)
      ensures failure == PrefixesError(codec, rows, incoming, ds)
    {
      ghost var check := PrefixCheck(codec, rows, incoming, ds);
      for i := 0 to |incoming|
        invariant FirstError(i, check).None?
      {
        failure := None;
        if incoming[i].Authoritative? {
          failure := CheckPrefix(incoming[i], Chain(ds, incoming[i].id));
        }
        assert failure == FirstError(i + 1, check);
        if failure.Some? {
          FirstErrorStays(i + 1, |incoming|, check);
          return;
        }
      }
      return None;
    }

    // -------------------------------------------------------------- writing inside a transaction

    method InsertDecision(d: Decision) returns (failure: Option<Error>)
      modifies this`rows
      ensures match Insert(old(rows), d)
              case Ok(after) => failure.None? && rows == after
              case Err(e) => failure == Some(e) && rows == old(rows)
    {
      if d.id in DecisionIds(rows) {
        return Some(IntegrityError);
      }
      rows := rows + [d];
      return None;
    }

    method InsertDecisions(ds: seq<Decision>) returns (failure: Option<Error>)
      modifies this`rows
      ensures match InsertAll(old(rows), ds)
              case Ok(after) => failure.None? && rows == after
              case Err(e) => failure == Some(e)
    {
      for i := 0 to |ds|
        invariant InsertAll(old(rows), ds[..i]) == Ok(rows)
      {
        assert ds[..i + 1][..i] == ds[..i];
        failure := InsertDecision(ds[i]);
        if failure.Some? {
          InsertErrorStays(old(rows), ds, i + 1);
          return;
        }
      }
      assert ds[..|ds|] == ds;
      return None;
    }

    /** `_apply_decisions_in_transaction`: check every prefix, then insert what each chain lacks. */
    method InsertMissing(incoming: seq<Review>, ds: seq<Decision>) returns (failure: Option<Error>)
      modifies this`rows
      ensures match ApplyDecisions(codec, old(rows), incoming, ds)
              case Ok(after) => failure.None? && rows == after
              case Err(e) => failure == Some(e)
    {
      failure := CheckPrefixes(incoming, ds);
      if failure.Some? {
        return;
      }
      for i := 0 to |incoming|
        invariant InsertChains(codec, old(rows), incoming, ds, i) == Ok(rows)
      {
        if incoming[i].Authoritative? {
          var selected := SelectValidated(incoming[i]);
          if selected.Err? {
            ChainsErrorStays(codec, old(rows), incoming, ds, i + 1, |incoming|);
            return Some(selected.error);
          }
          failure := InsertDecisions(Drop(Chain(ds, incoming[i].id), |selected.value|));
          if failure.Some? {
            ChainsErrorStays(codec, old(rows), incoming, ds, i + 1, |incoming|);
            return;
          }
        }
      }
      return None;
    }

    method UpsertLegacy(legacy: seq<Review>)
      modifies this`reviews
      ensures reviews == PutLegacy(old(reviews), legacy)
    {
      for i := 0 to |legacy|
        invariant reviews == PutLegacy(old(reviews), legacy[..i])
      {
        assert legacy[..i + 1][..i] == legacy[..i];
        reviews := reviews[legacy[i].id := legacy[i]];
      }
      assert legacy[..|legacy|] == legacy;
    }

    method InsertAuthoritative(incoming: seq<Review>) returns (failure: Option<Error>)
      modifies this`reviews
      ensures match PutAuthoritative(old(reviews), incoming)
              case Ok(after) => failure.None? && reviews == after
              case Err(e) => failure == Some(e)
    {
      for i := 0 to |incoming|
        invariant PutAuthoritative(old(reviews), incoming[..i]) == Ok(reviews)
      {
        var r := incoming[i];
        assert incoming[..i + 1][..i] == incoming[..i];
        if r.id !in reviews {
          reviews := reviews[r.id := r];
        } else if !(reviews[r.id].Authoritative? && r.Authoritative? && reviews[r.id].recordHash == r.recordHash) {
          PutErrorStays(old(reviews), incoming, i + 1);
          return Some(ReviewRecordConflict);
        }
      }
      assert incoming[..|incoming|] == incoming;
      return None;
    }

    /** `write_archive_records_in_transaction`. */
    method WriteReviews(a: Archive, replaceRun: Option<string>) returns (failure: Option<Error>)
      modifies this`reviews
      ensures match WriteArchive(old(reviews), a, replaceRun)
              case Ok(after) => failure.None? && reviews == after
              case Err(e) => failure == Some(e)
    {
      failure := CheckOwnership(a, replaceRun);
      if failure.Some? {
        return;
      }
      if replaceRun.Some? {
        reviews := WithoutRun(reviews, replaceRun.value);
      }
      UpsertLegacy(a.legacy);
      failure := InsertAuthoritative(a.authoritative);
    }

    method RollBack(savedReviews: map<string, Review>, savedRows: seq<Decision>)
      modifies this
      ensures reviews == savedReviews && rows == savedRows
    {
      reviews, rows := savedReviews, savedRows;
    }

    // -------------------------------------------------------------- transactions

    method AppendDecision(reviewId: string, request: Request, freshId: string, now: string)
      returns (result: Result<Decision, Error>)
      modifies this
      ensures match Append(codec, old(Tables()), reviewId, request, freshId, now)
              case Ok((after, d)) => result == Ok(d) && Tables() == after
              case Err(e) => result == Err(e) && Tables() == old(Tables())
    {
      if !codec.requestOk(request) {
        return Err(InvalidRequest);
      }
      var review := AuthoritativeReview(Db(reviews, rows), reviewId);
      if review.Err? {
        return Err(review.error);
      }
      var selected := SelectValidated(review.value);
      if selected.Err? {
        return Err(selected.error);
      }
      if request.supersedes != Tail(selected.value) {
        return Err(DecisionConflict);
      }
      var record := NewDecision(codec, review.value, request, freshId, now);
      if DecisionError(codec, record).Some? {
        return Err(DecisionError(codec, record).value);
      }
      var failure := InsertDecision(record);
      if failure.Some? {
        return Err(DecisionRecordConflict);
      }
      return Ok(record);
    }

    method RestoreDecision(d: Decision) returns (result: Result<Decision, Error>)
      modifies this
      ensures match Restore(codec, old(Tables()), d)
              case Ok((after, stored)) => result == Ok(stored) && Tables() == after
              case Err(e) => result == Err(e) && Tables() == old(Tables())
    {
      if DecisionError(codec, d).Some? {
        return Err(DecisionError(codec, d).value);
      }
      var savedReviews, savedRows := reviews, rows;
      var review := AuthoritativeReview(Db(reviews, rows), d.reviewId);
      if review.Err? {
        return Err(review.error);
      }
      if BindingError(d, review.value).Some? {
        return Err(BindingError(d, review.value).value);
      }
      var row := FindRow(rows, d.id);
      if row.Some? {
        if DecisionError(codec, row.value).Some? || row.value.recordHash != d.recordHash {
          return Err(DecisionRecordConflict);
        }
        var selected := SelectValidated(review.value);
        return if selected.Err? then Err(selected.error) else Ok(row.value);
      }
      if d.supersedes != Tail(Chain(rows, d.reviewId)) {
        return Err(DecisionConflict);
      }
      var failure := InsertDecision(d);
      if failure.Some? {
        return Err(DecisionRecordConflict);
      }
      var selected := SelectValidated(review.value);
      if selected.Err? {
        RollBack(savedReviews, savedRows);
        return Err(selected.error);
      }
      return Ok(d);
    }

    method RecordLegacyReview(r: Review) returns (failure: Option<Error>)
      modifies this`reviews
      ensures match RecordLegacy(codec, old(Tables()), r)
              case Ok(after) => failure.None? && Tables() == after
              case Err(e) => failure == Some(e) && Tables() == old(Tables())
    {
      if !LegacyOk(codec, r) {
        return Some(ReviewInvalid);
      }
      if r.id in reviews && reviews[r.id].Authoritative? {
        return Some(ReviewRecordConflict);
      }
      reviews := reviews[r.id := r];
      return None;
    }

    method RecordV2Review(r: Review) returns (result: Result<Review, Error>)
      modifies this`reviews
      ensures match RecordV2(codec, old(Tables()), r)
              case Ok((after, stored)) => result == Ok(stored) && Tables() == after
              case Err(e) => result == Err(e) && Tables() == old(Tables())
    {
      if !AuthoritativeOk(codec, r) {
        return Err(ReviewInvalid);
      }
      if r.id in reviews {
        var existing := reviews[r.id];
        if existing.Authoritative? && existing.recordHash == r.recordHash {
          return Ok(existing);
        }
        return Err(ReviewRecordConflict);
      }
      reviews := reviews[r.id := r];
      return Ok(r);
    }

    method PreflightArchiveApply(a: Archive) returns (failure: Option<Error>)
      ensures failure == PreflightApply(codec, Tables(), a)
    {
      failure := CheckArchive(a);
      if failure.None? {
        failure := CheckOwnership(a, None);
      }
      if failure.None? {
        failure := CheckGlobalIds(a.decisions, {});
      }
      if failure.None? {
        failure := CheckPrefixes(a.authoritative, a.decisions);
      }
    }

    method ApplyArchiveAtomic(a: Archive) returns (failure: Option<Error>)
      modifies this
      ensures match ApplyArchive(codec, old(Tables()), a)
              case Ok(after) => failure.None? && Tables() == after
              case Err(e) => failure == Some(e) && Tables() == old(Tables())
    {
      failure := CheckArchive(a);
      if failure.Some? {
        return;
      }
      var savedReviews, savedRows := reviews, rows;
      failure := WriteReviews(a, None);
      if failure.None? {
        failure := CheckGlobalIds(a.decisions, {});
      }
      if failure.None? {
        failure := InsertMissing(a.authoritative, a.decisions);
      }
      if failure.Some? {
        RollBack(savedReviews, savedRows);
      }
    }

    /** `_preflight_archive_replace_in_transaction`. */
    method CheckReplace(a: Archive, preserve: bool) returns (failure: Option<Error>)
      ensures failure == ReplaceError(codec, Tables(), a, preserve)
    {
      var current := AuthoritativeIdsOfRun(reviews, a.runId);
      failure := CheckOwnership(a, Some(a.runId));
      if failure.Some? {
        return;
      }
      if preserve {
        var preserved := Within(rows, current);
        if exists d :: d in preserved && DecisionError(codec, d).Some? {
          return Some(DecisionRecordConflict);
        }
        failure := CheckDecisionArchive(preserved, a.authoritative);
      } else {
        failure := CheckGlobalIds(a.decisions, current);
      }
    }

    method PreflightArchiveReplace(a: Archive, preserve: bool) returns (failure: Option<Error>)
      ensures failure == PreflightReplace(codec, Tables(), a, preserve)
    {
      failure := CheckArchive(a);
      if failure.None? {
        failure := CheckReplace(a, preserve);
      }
    }

    method ReplaceArchiveAtomic(a: Archive, preserve: bool) returns (failure: Option<Error>)
      modifies this
      ensures match ReplaceArchive(codec, old(Tables()), a, preserve)
              case Ok(after) => failure.None? && Tables() == after
              case Err(e) => failure == Some(e) && Tables() == old(Tables())
    {
      failure := CheckArchive(a);
      if failure.Some? {
        return;
      }
      var savedReviews, savedRows := reviews, rows;
      failure := CheckReplace(a, preserve);
      if failure.None? {
        if !preserve {
          rows := Without(rows, AuthoritativeIdsOfRun(reviews, a.runId) + Ids(a.authoritative));
        }
        failure := WriteReviews(a, Some(a.runId));
      }
      if failure.None? && !preserve {
        failure := InsertMissing(a.authoritative, a.decisions);
      }
      if failure.Some? {
        RollBack(savedReviews, savedRows);
      }
    }

    method DeleteDecisionsOf(ids: set<string>)
      modifies this`rows
      ensures Tables() == DeleteByReviews(old(Tables()), ids)
    {
      rows := Without(rows, ids);
    }

    method DeleteReviewsOfRun(runId: string)
      modifies this`reviews
      ensures Tables() == DeleteByRun(old(Tables()), runId)
    {
      reviews := WithoutRun(reviews, runId);
    }
  }
}
