/**
 The AI-review ledger: the table of reviews and the append-only table of decisions, and every
 operation of the two stores as a function from the tables to either the new tables or an error.
 An error leaves the tables as they were: that is the rollback of the enclosing transaction.
 */
module Ledger {
  import opened Prelude

  /** A row of `ai_review_runs`; the columns a v2 row adds are the authoritative ones. */
  datatype Review =
    | Legacy(id: string, runId: string, body: string)
    | Authoritative(id: string, runId: string, evidenceHash: string, body: string, recordHash: string)

  /** A row of `ai_review_decisions`, which is also the stored JSON record. */
  datatype Decision = Decision(
    id: string,
    reviewId: string,
    createdAt: string,
    operator: string,
    status: string,
    rationale: string,
    supersedes: Option<string>,
    reviewHash: string,
    evidenceHash: string,
    recordHash: string)

  /** What a client asks for when it appends a decision. */
  datatype Request = Request(operator: string, status: string, rationale: string, supersedes: Option<string>)

  /** The canonical digest and the field checks, whose inner workings the ledger never relies on. */
  datatype Codec = Codec(
    decisionDigest: Decision -> string,
    reviewDigest: Review -> string,
    decisionFieldsOk: Decision -> bool,
    reviewFieldsOk: Review -> bool,
    requestOk: Request -> bool)

  datatype Archive = Archive(
    runId: string,
    legacy: seq<Review>,
    authoritative: seq<Review>,
    decisions: seq<Decision>)

  /** Both tables; decisions are in rowid order. */
  datatype Db = Db(reviews: map<string, Review>, rows: seq<Decision>)

  datatype Error =
    | InvalidRequest
    | ReviewNotFound
    | ReviewNotAuthoritative
    | ReviewInvalid
    | ReviewRecordConflict
    | ReviewIdDuplicate
    | AuthoritativeIdDuplicate
    | AuthorityConflict
    | ArchiveRunIdMismatch
    | ArchiveOwnerConflict
    | DecisionInvalid
    | DecisionHashMismatch
    | DecisionIdDuplicate
    | DecisionReviewMissing
    | ReviewHashMismatch
    | EvidenceHashMismatch
    | DecisionConflict
    | DecisionRecordConflict
    | IntegrityError

  // ---------------------------------------------------------------- records

  function DecisionError(c: Codec, d: Decision): Option<Error> {
    if !c.decisionFieldsOk(d) then Some(DecisionInvalid)
    else if d.recordHash != c.decisionDigest(d.(recordHash := "")) then Some(DecisionHashMismatch)
    else None
  }

  predicate LegacyOk(c: Codec, r: Review) {
    r.Legacy? && c.reviewFieldsOk(r)
  }

  predicate AuthoritativeOk(c: Codec, r: Review) {
    r.Authoritative? && c.reviewFieldsOk(r) && r.recordHash == c.reviewDigest(r.(recordHash := ""))
  }

  function BindingError(d: Decision, r: Review): Option<Error>
    requires r.Authoritative?
  {
    if d.reviewHash != r.recordHash then Some(ReviewHashMismatch)
    else if d.evidenceHash != r.evidenceHash then Some(EvidenceHashMismatch)
    else None
  }

  /** No two records share a digest; the only thing ever assumed of the digest. */
  ghost predicate CollisionFree(c: Codec) {
    && (forall a: Decision, b: Decision ::
          c.decisionDigest(a.(recordHash := "")) == c.decisionDigest(b.(recordHash := ""))
          ==> a.(recordHash := "") == b.(recordHash := ""))
    && (forall a: Review, b: Review :: a.Authoritative? && b.Authoritative? &&
          c.reviewDigest(a.(recordHash := "")) == c.reviewDigest(b.(recordHash := ""))
          ==> a.(recordHash := "") == b.(recordHash := ""))
  }

  // ---------------------------------------------------------------- selections

  /** The decisions of one review, in rowid order. */
  function Chain(rows: seq<Decision>, reviewId: string): seq<Decision> {
    if rows == [] then []
    else
      var last := rows[|rows| - 1];
      Chain(rows[..|rows| - 1], reviewId) + if last.reviewId == reviewId then [last] else []
  }

  /** What is left after `delete ... where ai_review_id in (ids)`. */
  function Without(rows: seq<Decision>, ids: set<string>): seq<Decision> {
    if rows == [] then []
    else
      var last := rows[|rows| - 1];
      Without(rows[..|rows| - 1], ids) + if last.reviewId in ids then [] else [last]
  }

  /** What `select ... where ai_review_id in (ids) order by rowid` returns. */
  function Within(rows: seq<Decision>, ids: set<string>): seq<Decision> {
    if rows == [] then []
    else
      var last := rows[|rows| - 1];
      Within(rows[..|rows| - 1], ids) + if last.reviewId in ids then [last] else []
  }

  /** The row with a given primary key. */
  function FindRow(rows: seq<Decision>, id: string): Option<Decision> {
    if rows == [] then None
    else if rows[|rows| - 1].id == id then Some(rows[|rows| - 1])
    else FindRow(rows[..|rows| - 1], id)
  }

  function Ids(reviews: seq<Review>): set<string> {
    set r | r in reviews :: r.id
  }

  function DecisionIds(rows: seq<Decision>): set<string> {
    set d | d in rows :: d.id
  }

  /** The authoritative reviews of a run. */
  function AuthoritativeIdsOfRun(reviews: map<string, Review>, runId: string): set<string> {
    set id | id in reviews && reviews[id].Authoritative? && reviews[id].runId == runId
  }

  function Tail(ds: seq<Decision>): Option<string> {
    if ds == [] then None else Some(ds[|ds| - 1].id)
  }

  function Drop<T>(s: seq<T>, n: nat): seq<T> {
    if n <= |s| then s[n..] else []
  }

  // ---------------------------------------------------------------- checks

  /** Row `i` of a review's chain: readable, bound to the review, superseding the row before it. */
  function RowCheck(c: Codec, ds: seq<Decision>, r: Review): nat -> Option<Error>
    requires r.Authoritative?
  {
    (i: nat) =>
      if i >= |ds| then None
      else if DecisionError(c, ds[i]).Some? then Some(DecisionRecordConflict)
      else if BindingError(ds[i], r).Some? then BindingError(ds[i], r)
      else if ds[i].supersedes != Tail(ds[..i]) then Some(DecisionConflict)
      else None
  }

  function ValidatedRows(c: Codec, rows: seq<Decision>, r: Review): Result<seq<Decision>, Error>
    requires r.Authoritative?
  {
    var ds := Chain(rows, r.id);
    match FirstError(|ds|, RowCheck(c, ds, r))
    case Some(e) => Err(e)
    case None => Ok(ds)
  }

  function ArchiveRecordCheck(c: Codec, ds: seq<Decision>): nat -> Option<Error> {
    (i: nat) => if i < |ds| then DecisionError(c, ds[i]) else None
  }

  function MissingReviewCheck(ds: seq<Decision>, reviews: seq<Review>): nat -> Option<Error> {
    (i: nat) => if i < |ds| && ds[i].reviewId !in Ids(reviews) then Some(DecisionReviewMissing) else None
  }

  function FindReview(reviews: seq<Review>, id: string): Option<Review> {
    if reviews == [] then None
    else if reviews[|reviews| - 1].id == id then Some(reviews[|reviews| - 1])
    else FindReview(reviews[..|reviews| - 1], id)
  }

  function ArchiveBindingCheck(ds: seq<Decision>, reviews: seq<Review>): nat -> Option<Error> {
    (i: nat) =>
      if i >= |ds| then None
      else match FindReview(reviews, ds[i].reviewId)
        case None => Some(DecisionReviewMissing)
        case Some(r) => if r.Authoritative? then BindingError(ds[i], r) else Some(DecisionReviewMissing)
  }

  function SupersedesCheck(ds: seq<Decision>): nat -> Option<Error> {
    (i: nat) => if i < |ds| && ds[i].supersedes != Tail(ds[..i]) then Some(DecisionConflict) else None
  }

  function ArchiveChainCheck(ds: seq<Decision>, reviews: seq<Review>): nat -> Option<Error> {
    (i: nat) =>
      if i >= |reviews| then None
      else
        var chain := Chain(ds, reviews[i].id);
        FirstError(|chain|, SupersedesCheck(chain))
  }

  /** `validate_ai_review_decision_archive_records`. */
  function DecisionArchiveError(c: Codec, ds: seq<Decision>, reviews: seq<Review>): Option<Error> {
    var invalid := FirstError(|ds|, ArchiveRecordCheck(c, ds));
    if invalid.Some? then invalid
    else if |DecisionIds(ds)| != |ds| then Some(DecisionIdDuplicate)
    else
      var missing := FirstError(|ds|, MissingReviewCheck(ds, reviews));
      if missing.Some? then missing
      else
        var unbound := FirstError(|ds|, ArchiveBindingCheck(ds, reviews));
        if unbound.Some? then unbound
        else FirstError(|reviews|, ArchiveChainCheck(ds, reviews))
  }

  /** `validate_ai_review_archive_records`. */
  function ReviewArchiveError(c: Codec, a: Archive): Option<Error> {
    if exists r :: r in a.legacy && !LegacyOk(c, r) then Some(ReviewInvalid)
    else if exists r :: r in a.authoritative && !AuthoritativeOk(c, r) then Some(ReviewInvalid)
    else if |Ids(a.legacy)| != |a.legacy| then Some(ReviewIdDuplicate)
    else if |Ids(a.authoritative)| != |a.authoritative| then Some(AuthoritativeIdDuplicate)
    else if Ids(a.legacy) * Ids(a.authoritative) != {} then Some(AuthorityConflict)
    else if exists r :: r in a.legacy + a.authoritative && r.runId != a.runId then Some(ArchiveRunIdMismatch)
    else None
  }

  function ArchiveError(c: Codec, a: Archive): Option<Error> {
    var e := ReviewArchiveError(c, a);
    if e.Some? then e else DecisionArchiveError(c, a.decisions, a.authoritative)
  }

  function OwnershipCheck(table: map<string, Review>, incoming: seq<Review>, replaceRun: Option<string>)
    : nat -> Option<Error>
  {
    (i: nat) =>
      if i >= |incoming| || incoming[i].id !in table then None
      else
        var existing := table[incoming[i].id];
        if existing.runId != incoming[i].runId then Some(ArchiveOwnerConflict)
        else if replaceRun == Some(existing.runId) then None
        else if existing.Legacy? != incoming[i].Legacy? then Some(ArchiveOwnerConflict)
        else if incoming[i].Authoritative? && existing.recordHash != incoming[i].recordHash
          then Some(ReviewRecordConflict)
        else None
  }

  /** `validate_archive_ownership_in_transaction`. */
  function OwnershipError(table: map<string, Review>, a: Archive, replaceRun: Option<string>): Option<Error> {
    var incoming := a.legacy + a.authoritative;
    FirstError(|incoming|, OwnershipCheck(table, incoming, replaceRun))
  }

  function GlobalIdCheck(c: Codec, rows: seq<Decision>, ds: seq<Decision>, replaceIds: set<string>)
    : nat -> Option<Error>
  {
    (i: nat) =>
      if i >= |ds| then None
      else match FindRow(rows, ds[i].id)
        case None => None
        case Some(existing) =>
          if DecisionError(c, existing).Some? then Some(DecisionRecordConflict)
          else if existing.reviewId in replaceIds then None
          else if existing.recordHash != ds[i].recordHash || existing.reviewId != ds[i].reviewId
                  || existing.reviewHash != ds[i].reviewHash || existing.evidenceHash != ds[i].evidenceHash
            then Some(DecisionRecordConflict)
          else None
  }

  /** `_validate_global_decision_ids`. */
  function GlobalIdError(c: Codec, rows: seq<Decision>, ds: seq<Decision>, replaceIds: set<string>): Option<Error> {
    FirstError(|ds|, GlobalIdCheck(c, rows, ds, replaceIds))
  }

  function ZipCheck(existing: seq<Decision>, incoming: seq<Decision>): nat -> Option<Error> {
    (i: nat) =>
      if i < |existing| && i < |incoming|
         && (existing[i].id != incoming[i].id || existing[i].recordHash != incoming[i].recordHash)
      then Some(DecisionRecordConflict)
      else None
  }

  /** The prefix comparison for one review. */
  function PrefixError(c: Codec, rows: seq<Decision>, r: Review, incoming: seq<Decision>): Option<Error>
    requires r.Authoritative?
  {
    match ValidatedRows(c, rows, r)
    case Err(e) => Some(e)
    case Ok(existing) =>
      var clash := FirstError(Min(|existing|, |incoming|), ZipCheck(existing, incoming));
      if clash.Some? then clash
      else if |incoming| > |existing| && incoming[|existing|].supersedes != Tail(existing) then Some(DecisionConflict)
      else None
  }

  function PrefixCheck(c: Codec, rows: seq<Decision>, reviews: seq<Review>, ds: seq<Decision>): nat -> Option<Error> {
    (i: nat) =>
      if i < |reviews| && reviews[i].Authoritative?
      then PrefixError(c, rows, reviews[i], Chain(ds, reviews[i].id))
      else None
  }

  /** `_validate_decision_prefixes`. */
  function PrefixesError(c: Codec, rows: seq<Decision>, reviews: seq<Review>, ds: seq<Decision>): Option<Error> {
    FirstError(|reviews|, PrefixCheck(c, rows, reviews, ds))
  }

  // ---------------------------------------------------------------- writes

  /** One `insert`; the primary key makes a second row with the same id fail. */
  function Insert(rows: seq<Decision>, d: Decision): Result<seq<Decision>, Error> {
    if d.id in DecisionIds(rows) then Err(IntegrityError) else Ok(rows + [d])
  }

  function InsertAll(rows: seq<Decision>, ds: seq<Decision>): Result<seq<Decision>, Error> {
    if ds == [] then Ok(rows)
    else
      var before :- InsertAll(rows, ds[..|ds| - 1]);
      Insert(before, ds[|ds| - 1])
  }

  /** The inserting half of `_apply_decisions_in_transaction`, for the first `n` reviews. */
  function InsertChains(c: Codec, rows: seq<Decision>, reviews: seq<Review>, ds: seq<Decision>, n: nat)
    : Result<seq<Decision>, Error>
    requires n <= |reviews|
  {
    if n == 0 then Ok(rows)
    else
      var before :- InsertChains(c, rows, reviews, ds, n - 1);
      var r := reviews[n - 1];
      if !r.Authoritative? then Ok(before)
      else
        var existing :- ValidatedRows(c, before, r);
        InsertAll(before, Drop(Chain(ds, r.id), |existing|))
  }

  function ApplyDecisions(c: Codec, rows: seq<Decision>, reviews: seq<Review>, ds: seq<Decision>)
    : Result<seq<Decision>, Error>
  {
    match PrefixesError(c, rows, reviews, ds)
    case Some(e) => Err(e)
    case None => InsertChains(c, rows, reviews, ds, |reviews|)
  }

  function PutLegacy(table: map<string, Review>, legacy: seq<Review>): map<string, Review> {
    if legacy == [] then table
    else
      var last := legacy[|legacy| - 1];
      PutLegacy(table, legacy[..|legacy| - 1])[last.id := last]
  }

  function PutAuthoritative(table: map<string, Review>, reviews: seq<Review>): Result<map<string, Review>, Error> {
    if reviews == [] then Ok(table)
    else
      var before :- PutAuthoritative(table, reviews[..|reviews| - 1]);
      var r := reviews[|reviews| - 1];
      if r.id !in before then Ok(before[r.id := r])
      else if before[r.id].Authoritative? && r.Authoritative? && before[r.id].recordHash == r.recordHash then Ok(before)
      else Err(ReviewRecordConflict)
  }

  function WithoutRun(table: map<string, Review>, runId: string): map<string, Review> {
    map id | id in table && table[id].runId != runId :: table[id]
  }

  /** `write_archive_records_in_transaction`. */
  function WriteArchive(table: map<string, Review>, a: Archive, replaceRun: Option<string>)
    : Result<map<string, Review>, Error>
  {
    match OwnershipError(table, a, replaceRun)
    case Some(e) => Err(e)
    case None =>
      var kept := if replaceRun.Some? then WithoutRun(table, replaceRun.value) else table;
      PutAuthoritative(PutLegacy(kept, a.legacy), a.authoritative)
  }

  // ---------------------------------------------------------------- operations

  function AuthoritativeReview(db: Db, reviewId: string): Result<Review, Error> {
    if reviewId !in db.reviews then Err(ReviewNotFound)
    else if !db.reviews[reviewId].Authoritative? then Err(ReviewNotAuthoritative)
    else Ok(db.reviews[reviewId])
  }

  /** The record `append` builds from a request, the stored review, a fresh id and the clock. */
  function NewDecision(c: Codec, r: Review, request: Request, freshId: string, now: string): Decision
    requires r.Authoritative?
  {
    var unsigned := Decision(freshId, r.id, now, request.operator, request.status, request.rationale,
                             request.supersedes, r.recordHash, r.evidenceHash, "");
    unsigned.(recordHash := c.decisionDigest(unsigned))
  }

  function Append(c: Codec, db: Db, reviewId: string, request: Request, freshId: string, now: string)
    : Result<(Db, Decision), Error>
  {
    if !c.requestOk(request) then Err(InvalidRequest)
    else
      var r :- AuthoritativeReview(db, reviewId);
      var chain :- ValidatedRows(c, db.rows, r);
      if request.supersedes != Tail(chain) then Err(DecisionConflict)
      else
        var d := NewDecision(c, r, request, freshId, now);
        if DecisionError(c, d).Some? then Err(DecisionError(c, d).value)
        else match Insert(db.rows, d)
          case Err(_) => Err(DecisionRecordConflict)
          case Ok(rows) => Ok((db.(rows := rows), d))
  }

  function Restore(c: Codec, db: Db, d: Decision): Result<(Db, Decision), Error> {
    if DecisionError(c, d).Some? then Err(DecisionError(c, d).value)
    else
      var r :- AuthoritativeReview(db, d.reviewId);
      if BindingError(d, r).Some? then Err(BindingError(d, r).value)
      else match FindRow(db.rows, d.id)
        case Some(existing) =>
          if DecisionError(c, existing).Some? || existing.recordHash != d.recordHash then Err(DecisionRecordConflict)
          else
            var _ :- ValidatedRows(c, db.rows, r);
            Ok((db, existing))
        case None =>
          if d.supersedes != Tail(Chain(db.rows, d.reviewId)) then Err(DecisionConflict)
          else match Insert(db.rows, d)
            case Err(_) => Err(DecisionRecordConflict)
            case Ok(rows) =>
              var _ :- ValidatedRows(c, rows, r);
              Ok((db.(rows := rows), d))
  }

  /** `AiReviewRunStore.record`: a legacy record is an upsert that never touches a v2 row. */
  function RecordLegacy(c: Codec, db: Db, r: Review): Result<Db, Error> {
    if !LegacyOk(c, r) then Err(ReviewInvalid)
    else if r.id in db.reviews && db.reviews[r.id].Authoritative? then Err(ReviewRecordConflict)
    else Ok(db.(reviews := db.reviews[r.id := r]))
  }

  /** `AiReviewRunStore.record_v2`: insert, or confirm the row already there. */
  function RecordV2(c: Codec, db: Db, r: Review): Result<(Db, Review), Error> {
    if !AuthoritativeOk(c, r) then Err(ReviewInvalid)
    else if r.id !in db.reviews then Ok((db.(reviews := db.reviews[r.id := r]), r))
    else if db.reviews[r.id].Authoritative? && db.reviews[r.id].recordHash == r.recordHash
      then Ok((db, db.reviews[r.id]))
    else Err(ReviewRecordConflict)
  }

  function PreflightApply(c: Codec, db: Db, a: Archive): Option<Error> {
    if ArchiveError(c, a).Some? then ArchiveError(c, a)
    else if OwnershipError(db.reviews, a, None).Some? then OwnershipError(db.reviews, a, None)
    else if GlobalIdError(c, db.rows, a.decisions, {}).Some? then GlobalIdError(c, db.rows, a.decisions, {})
    else PrefixesError(c, db.rows, a.authoritative, a.decisions)
  }

  function ApplyArchive(c: Codec, db: Db, a: Archive): Result<Db, Error> {
    if ArchiveError(c, a).Some? then Err(ArchiveError(c, a).value)
    else
      var reviews :- WriteArchive(db.reviews, a, None);
      match GlobalIdError(c, db.rows, a.decisions, {})
      case Some(e) => Err(e)
      case None =>
        var rows :- ApplyDecisions(c, db.rows, a.authoritative, a.decisions);
        Ok(Db(reviews, rows))
  }

  /** `_preflight_archive_replace_in_transaction`, after the archive itself has been validated. */
  function ReplaceError(c: Codec, db: Db, a: Archive, preserve: bool): Option<Error> {
    var current := AuthoritativeIdsOfRun(db.reviews, a.runId);
    var owner := OwnershipError(db.reviews, a, Some(a.runId));
    if owner.Some? then owner
    else if preserve then
      var kept := Within(db.rows, current);
      if exists d :: d in kept && DecisionError(c, d).Some? then Some(DecisionRecordConflict)
      else DecisionArchiveError(c, kept, a.authoritative)
    else GlobalIdError(c, db.rows, a.decisions, current)
  }

  function PreflightReplace(c: Codec, db: Db, a: Archive, preserve: bool): Option<Error> {
    if ArchiveError(c, a).Some? then ArchiveError(c, a) else ReplaceError(c, db, a, preserve)
  }

  function ReplaceArchive(c: Codec, db: Db, a: Archive, preserve: bool): Result<Db, Error> {
    if PreflightReplace(c, db, a, preserve).Some? then Err(PreflightReplace(c, db, a, preserve).value)
    else
      var current := AuthoritativeIdsOfRun(db.reviews, a.runId);
      var kept := if preserve then db.rows else Without(db.rows, current + Ids(a.authoritative));
      var reviews :- WriteArchive(db.reviews, a, Some(a.runId));
      if preserve then Ok(Db(reviews, kept))
      else
        var rows :- ApplyDecisions(c, kept, a.authoritative, a.decisions);
        Ok(Db(reviews, rows))
  }

  /** `delete_by_reviews`. */
  function DeleteByReviews(db: Db, ids: set<string>): Db {
    db.(rows := Without(db.rows, ids))
  }

  /** `AiReviewRunStore.delete_by_run`. */
  function DeleteByRun(db: Db, runId: string): Db {
    db.(reviews := WithoutRun(db.reviews, runId))
  }

  // ---------------------------------------------------------------- runs

  datatype Op =
    | AppendOp(reviewId: string, request: Request, freshId: string, now: string)
    | RestoreOp(decision: Decision)
    | RecordLegacyOp(review: Review)
    | RecordV2Op(review: Review)
    | ApplyArchiveOp(archive: Archive)
    | ReplaceArchiveOp(archive: Archive, preserve: bool)
    | DeleteByReviewsOp(ids: set<string>)

  /** One transaction: it commits its new tables or rolls back to the old ones. */
  function Step(c: Codec, db: Db, op: Op): Db {
    match op
    case AppendOp(rid, request, freshId, now) =>
      (match Append(c, db, rid, request, freshId, now) case Ok(p) => p.0 case Err(_) => db)
    case RestoreOp(d) => (match Restore(c, db, d) case Ok(p) => p.0 case Err(_) => db)
    case RecordLegacyOp(r) => (match RecordLegacy(c, db, r) case Ok(d) => d case Err(_) => db)
    case RecordV2Op(r) => (match RecordV2(c, db, r) case Ok(p) => p.0 case Err(_) => db)
    case ApplyArchiveOp(a) => (match ApplyArchive(c, db, a) case Ok(d) => d case Err(_) => db)
    case ReplaceArchiveOp(a, preserve) => (match ReplaceArchive(c, db, a, preserve) case Ok(d) => d case Err(_) => db)
    case DeleteByReviewsOp(ids) => DeleteByReviews(db, ids)
  }

  /** Any interleaving of any number of clients is some sequence of transactions. */
  function Run(c: Codec, db: Db, ops: seq<Op>): Db {
    if ops == [] then db else Step(c, Run(c, db, ops[..|ops| - 1]), ops[|ops| - 1])
  }

  const EMPTY := Db(map[], [])
}
