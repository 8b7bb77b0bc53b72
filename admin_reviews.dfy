// The review administration handlers: a partial update of any review
// field, status included, and the delete. Both keep the company's stored
// aggregates in step with its approved reviews.

module AdminReviews {
  import opened Common
  import opened Reviews
  import Users
  import Numbers
  import Aggregates
  import ReviewRepository
  import CompanyRepository
  import Companies
  import AdminUsers

  const ReviewNotFound: string := "Отзыв не найден"
  const Invalid: string := "Ошибка валидации"
  const RatingFailed: string := "Ошибка при обновлении рейтинга компании"
  const ReviewDeleted: string := "Отзыв успешно удален"
  const UpdateFailed: string := "Ошибка при обновлении отзыва"
  const RereadFailed: string := "Ошибка при получении обновленного отзыва"
  const DeleteFailed: string := "Ошибка при удалении отзыва"

  /** The body of an update: an absent field is left as it is. */
  datatype ReviewPatch = ReviewPatch(
    position: Option<string>,
    rating: Option<real>,
    pros: Option<string>,
    cons: Option<string>,
    isFormerEmployee: Option<bool>,
    isRecommended: Option<bool>,
    status: Option<string>,
    moderationComment: Option<string>)

  /** The binding tags: a given position has 2 to 100 characters, a given
      rating lies in [1, 5], a given status is one of the three. */
  predicate ValidPatch(p: ReviewPatch)
  {
    && (p.position.Some? ==> 2 <= |p.position.value| <= 100)
    && (p.rating.Some? ==> 1.0 <= p.rating.value <= 5.0)
    && (p.status.Some? ==> ParseStatus(p.status.value).Some?)
  }

  function OrKeep<T>(given: Option<T>, stored: T): T
  {
    if given.Some? then given.value else stored
  }

  /** The text fields and flags the patch gives. */
  function PatchedFields(row: ReviewRow, p: ReviewPatch): ReviewRow
  {
    row.(position := OrKeep(p.position, row.position),
         rating := OrKeep(p.rating, row.rating),
         pros := OrKeep(p.pros, row.pros),
         cons := OrKeep(p.cons, row.cons),
         isFormerEmployee := OrKeep(p.isFormerEmployee, row.isFormerEmployee),
         isRecommended := OrKeep(p.isRecommended, row.isRecommended))
  }

  /** A given status, stamped with the approval time when it is
      "approved". */
  function PatchedStatus(row: ReviewRow, p: ReviewPatch, now: int): ReviewRow
    requires ValidPatch(p)
  {
    if p.status.None? then row
    else
      var r := row.(status := ParseStatus(p.status.value).value);
      if p.status.value == "approved" then r.(approvedAt := Some(now)) else r
  }

  /** The review the handler writes back: every given field replaces the
      stored one, a given "approved" stamps the approval time, a given
      comment is stored, and the update time is always `now`. */
  function Patched(row: ReviewRow, p: ReviewPatch, now: int): (r: ReviewRow)
    requires ValidPatch(p)
  {
    var s := PatchedStatus(PatchedFields(row, p), p, now);
    var c := if p.moderationComment.Some? then s.(moderationComment := p.moderationComment) else s;
    c.(updatedAt := now)
  }

  /** The patch changes only what it names: the id, author, company,
      employment, city, useful count and creation time stay, and a field
      the patch omits keeps its value. */
  lemma PatchedKeepsTheRest(row: ReviewRow, p: ReviewPatch, now: int)
    requires ValidPatch(p)
    ensures var r := Patched(row, p, now);
      && (r.id, r.userID, r.companyID, r.usefulCount, r.createdAt) == (row.id, row.userID, row.companyID, row.usefulCount, row.createdAt)
      && (r.employmentTypeID, r.employmentPeriodID, r.cityID) == (row.employmentTypeID, row.employmentPeriodID, row.cityID)
      && (p.position.None? ==> r.position == row.position)
      && (p.rating.None? ==> r.rating == row.rating)
      && (p.pros.None? ==> r.pros == row.pros)
      && (p.cons.None? ==> r.cons == row.cons)
      && (p.status.None? ==> r.status == row.status && r.approvedAt == row.approvedAt)
      && (p.moderationComment.None? ==> r.moderationComment == row.moderationComment)
    ensures var r := Patched(row, p, now);
      && (p.status.Some? ==> StatusName(r.status) == p.status.value)
      && (r.status == Approved && row.status != Approved ==> r.approvedAt == Some(now))
  {
    if p.status.Some? {
      StatusNamesRoundTrip(ParseStatus(p.status.value).value, p.status.value);
    }
  }

  /** When the update handler recomputes the company's aggregates, as the
      handler has it: only when the review ends up approved. */
  predicate RecomputesAsWritten(before: ReviewStatus, after: ReviewStatus)
  {
    after == Approved
  }

  /** When the aggregates must be recomputed: whenever the review is
      approved before or after, since either way the set of approved
      reviews changes. */
  predicate Recomputes(before: ReviewStatus, after: ReviewStatus)
  {
    before == Approved || after == Approved
  }

  /** Withdrawing an approval as written leaves a company that was in sync
      with its reviews out of sync: its stored count still includes the
      review that is no longer approved. */
  lemma WithdrawnApprovalLeavesStaleCount()
    ensures var row := ReviewRow(1, 1, 7, "Инженер", None, None, None, 5.0, "", "", false, true,
                                 Approved, None, 0, 0, 0, Some(0));
      var after := row.(status := Rejected);
      && !RecomputesAsWritten(row.status, after.status)
      && Recomputes(row.status, after.status)
      && Aggregates.ReviewsCount([row], 7) == 1
      && Aggregates.ReviewsCount([after], 7) == 0
  {
    var row := ReviewRow(1, 1, 7, "Инженер", None, None, None, 5.0, "", "", false, true,
                         Approved, None, 0, 0, 0, Some(0));
    assert Aggregates.Approved([row], 7) == [row];
    assert Aggregates.Approved([row.(status := Rejected)], 7) == [];
  }

  /** If the aggregates are not recomputed, they stay correct: a review
      that is approved neither before nor after, or that belongs to another
      company, does not move them. */
  lemma UnrecomputedStaysInSync(companies: seq<Companies.CompanyRow>, rows: seq<ReviewRow>,
                                k: int, row: ReviewRow, c: int)
    requires 0 <= k < |rows|
    requires !Recomputes(rows[k].status, row.status) || (rows[k].companyID != c && row.companyID != c)
    ensures CompanyRepository.InSync(companies, rows[k := row], c) <==> CompanyRepository.InSync(companies, rows, c)
  {
    Aggregates.ApprovedAfterWrite(rows, k, row, c);
  }

  /** The handler's field-by-field overwrite of the loaded review. */
  method ApplyPatch(row: ReviewRow, patch: ReviewPatch, now: int) returns (review: ReviewRow)
    requires ValidPatch(patch)
    ensures review == Patched(row, patch, now)
  {
    review := PatchFields(row, patch);
    review := PatchStatus(review, patch, now);
    if patch.moderationComment.Some? {
      review := review.(moderationComment := Some(patch.moderationComment.value));
    }
    review := review.(updatedAt := now);
  }

  /** The overwrite of the review's own fields, one given field at a time. */
  method PatchFields(row: ReviewRow, patch: ReviewPatch) returns (review: ReviewRow)
    ensures review == PatchedFields(row, patch)
  {
    review := PatchJob(row, patch);
    review := PatchVerdict(review, patch);
  }

  /** The position, rating and pros, where given. */
  method PatchJob(row: ReviewRow, patch: ReviewPatch) returns (review: ReviewRow)
    ensures review == row.(position := OrKeep(patch.position, row.position),
      rating := OrKeep(patch.rating, row.rating), pros := OrKeep(patch.pros, row.pros))
  {
    review := row;
    if patch.position.Some? {
      review := review.(position := patch.position.value);
    }
    if patch.rating.Some? {
      review := review.(rating := patch.rating.value);
    }
    if patch.pros.Some? {
      review := review.(pros := patch.pros.value);
    }
  }

  /** The cons and the two flags, where given. */
  method PatchVerdict(row: ReviewRow, patch: ReviewPatch) returns (review: ReviewRow)
    ensures review == row.(cons := OrKeep(patch.cons, row.cons),
      isFormerEmployee := OrKeep(patch.isFormerEmployee, row.isFormerEmployee),
      isRecommended := OrKeep(patch.isRecommended, row.isRecommended))
  {
    review := row;
    if patch.cons.Some? {
      review := review.(cons := patch.cons.value);
    }
    if patch.isFormerEmployee.Some? {
      review := review.(isFormerEmployee := patch.isFormerEmployee.value);
    }
    if patch.isRecommended.Some? {
      review := review.(isRecommended := patch.isRecommended.value);
    }
  }

  /** The overwrite of the status, stamped when it is "approved". */
  method PatchStatus(row: ReviewRow, patch: ReviewPatch, now: int) returns (review: ReviewRow)
    requires ValidPatch(patch)
    ensures review == PatchedStatus(row, patch, now)
  {
    review := row;
    if patch.status.Some? {
      review := review.(status := ParseStatus(patch.status.value).value);
      if patch.status.value == "approved" {
        review := review.(approvedAt := Some(now));
      }
    }
  }

  /** After one review of a company is rewritten, every company that was
      in sync stays in sync, provided the company is recomputed whenever
      Recomputes says so. */
  lemma SyncAfterUpdate(companies: seq<Companies.CompanyRow>, rows: seq<ReviewRow>, k: int, written: ReviewRow,
                        now: int, recompute: bool, after: seq<Companies.CompanyRow>, rows': seq<ReviewRow>)
    requires 0 <= k < |rows| && written.companyID == rows[k].companyID && rows' == rows[k := written]
    requires !recompute ==> !Recomputes(rows[k].status, written.status)
    requires after == if recompute then CompanyRepository.RecomputeRow(companies, written.companyID, rows', now) else companies
    ensures forall c :: CompanyRepository.InSync(companies, rows, c) ==> CompanyRepository.InSync(after, rows', c)
  {
    forall c | CompanyRepository.InSync(companies, rows, c)
      ensures CompanyRepository.InSync(after, rows', c)
    {
      SyncOneAfterUpdate(companies, rows, k, written, now, recompute, c);
    }
  }

  lemma SyncOneAfterUpdate(companies: seq<Companies.CompanyRow>, rows: seq<ReviewRow>, k: int, written: ReviewRow,
                           now: int, recompute: bool, c: int)
    requires 0 <= k < |rows| && written.companyID == rows[k].companyID
    requires !recompute ==> !Recomputes(rows[k].status, written.status)
    requires CompanyRepository.InSync(companies, rows, c)
    ensures var after := if recompute then CompanyRepository.RecomputeRow(companies, written.companyID, rows[k := written], now)
                         else companies;
      CompanyRepository.InSync(after, rows[k := written], c)
  {
    if recompute {
      CompanyRepository.RecomputeSyncs(companies, written.companyID, rows[k := written], now, c);
      if c != written.companyID {
        UnrecomputedStaysInSync(companies, rows, k, written, c);
      }
    } else {
      UnrecomputedStaysInSync(companies, rows, k, written, c);
    }
  }

  /** After one review is deleted and its company recomputed, every company
      that was in sync stays in sync. */
  lemma SyncAfterDelete(companies: seq<Companies.CompanyRow>, rows: seq<ReviewRow>, k: int, now: int, c: int)
    requires 0 <= k < |rows|
    requires CompanyRepository.InSync(companies, rows, c)
    ensures CompanyRepository.InSync(
      CompanyRepository.RecomputeRow(companies, rows[k].companyID, rows[..k] + rows[k + 1..], now),
      rows[..k] + rows[k + 1..], c)
  {
    CompanyRepository.RecomputeSyncs(companies, rows[k].companyID, rows[..k] + rows[k + 1..], now, c);
    if c != rows[k].companyID {
      Aggregates.ApprovedAfterDrop(rows, k, c);
    }
  }

  /** The second half of UpdateReview: the patched review is written and,
      when Recomputes asks for it, its company is recomputed; `ok` is false
      when that recomputation fails, which leaves the companies as they
      were. */
  method WriteBack(reviews: ReviewRepository.ReviewStore, companies: CompanyRepository.CompanyStore,
                   stored: ReviewRow, review: ReviewRow, now: int, failure: CompanyRepository.Failure)
    returns (ok: bool)
    requires reviews.Valid() && companies.Valid()
    requires ReviewRepository.Find(reviews.rows, review.id) == Some(stored)
    requires review.companyID == stored.companyID
    modifies reviews, companies
    ensures reviews.Valid() && companies.Valid()
    ensures reviews.rows == ReviewRepository.Replace(old(reviews.rows), review)
    ensures reviews.usefulMarks == old(reviews.usefulMarks) && reviews.benefits == old(reviews.benefits)
    ensures !ok ==> companies.rows == old(companies.rows)
    ensures !Recomputes(stored.status, review.status) ==> ok && companies.rows == old(companies.rows)
    ensures Recomputes(stored.status, review.status) ==> (ok <==> failure == CompanyRepository.NoFailure)
    ensures ok && Recomputes(stored.status, review.status) ==>
      CompanyRepository.InSync(companies.rows, reviews.rows, review.companyID)
    ensures ok ==>
      forall c :: old(CompanyRepository.InSync(companies.rows, reviews.rows, c)) ==>
        CompanyRepository.InSync(companies.rows, reviews.rows, c)
  {
    ghost var before := reviews.rows;
    ghost var companiesBefore := companies.rows;
    var k := ReviewRepository.FindIndex(reviews.rows, review.id);
    ReviewRepository.ReplaceOne(reviews.rows, k, review);
    ghost var written := ReviewRepository.Overwrite(before[k], review);
    reviews.Update(review);
    assert reviews.rows == before[k := written];

    var recompute := Recomputes(stored.status, review.status);
    if recompute {
      var outcome := companies.UpdateRating(review.companyID, reviews.rows, reviews.categoryRatings, now, failure);
      if outcome.Fail? {
        return false;
      }
      CompanyRepository.RecomputeSyncs(companiesBefore, review.companyID, reviews.rows, now, review.companyID);
    }
    assert written.companyID == stored.companyID && written.status == review.status;
    assert companies.rows == if recompute then CompanyRepository.RecomputeRow(companiesBefore, written.companyID, reviews.rows, now)
                             else companiesBefore;
    SyncAfterUpdate(companiesBefore, before, k, written, now, recompute, companies.rows, reviews.rows);
    return true;
  }

  /** UpdateReview: 403 for a non-admin, 400 for an id that is not a
      number or a body that fails its binding tags, 404 for an unknown
      review, 500 when the update fails; otherwise the patched review is
      written and, when it was or now is approved, its company's aggregates
      are recomputed, a failure of which answers 500 after the review is
      written, as does a failure of the final re-read (`rereadFails`). */
  method UpdateReview(reviews: ReviewRepository.ReviewStore, companies: CompanyRepository.CompanyStore,
                      caller: Option<Users.Role>, idText: string, patch: ReviewPatch, now: int,
                      updateFails: bool, failure: CompanyRepository.Failure, rereadFails: bool)
    returns (reply: Reply)
    requires reviews.Valid() && companies.Valid()
    modifies reviews, companies
    ensures reviews.Valid() && companies.Valid()
    ensures !AdminUsers.IsAdmin(caller) ==> reply == Reply(Forbidden, AdminUsers.NoRights)
    ensures AdminUsers.IsAdmin(caller) && Numbers.Atoi(idText).None? ==> reply == Reply(BadRequest, AdminUsers.BadID)
    ensures AdminUsers.IsAdmin(caller) && Numbers.Atoi(idText).Some? && !ValidPatch(patch) ==> reply == Reply(BadRequest, Invalid)
    ensures AdminUsers.IsAdmin(caller) && Numbers.Atoi(idText).Some? && ValidPatch(patch) ==>
      var found := ReviewRepository.Find(old(reviews.rows), Numbers.Atoi(idText).value);
      && (found.None? ==> reply == Reply(NotFound, ReviewNotFound))
      && (found.Some? && updateFails ==> reply == Reply(InternalError, UpdateFailed))
      && (reply.status == Ok <==>
            && found.Some? && !updateFails
            && (Recomputes(found.value.status, Patched(found.value, patch, now).status) ==>
                  failure == CompanyRepository.NoFailure)
            && !rereadFails)
    ensures reply.status == Ok ==> AdminUsers.IsAdmin(caller)
    ensures Written(reply, RereadFailed) ==>
      && Numbers.Atoi(idText).Some? && ValidPatch(patch)
      && ReviewRepository.Find(old(reviews.rows), Numbers.Atoi(idText).value).Some?
      && reviews.rows == ReviewRepository.Replace(old(reviews.rows),
           Patched(ReviewRepository.Find(old(reviews.rows), Numbers.Atoi(idText).value).value, patch, now))
    ensures !Written(reply, RereadFailed) ==> reviews.rows == old(reviews.rows) && companies.rows == old(companies.rows)
    ensures reply.status == Ok ==>
      forall c :: old(CompanyRepository.InSync(companies.rows, reviews.rows, c)) ==>
        CompanyRepository.InSync(companies.rows, reviews.rows, c)
  {
    if !AdminUsers.IsAdmin(caller) {
      return Reply(Forbidden, AdminUsers.NoRights);
    }
    var parsed := Numbers.Atoi(idText);
    if parsed.None? {
      return Reply(BadRequest, AdminUsers.BadID);
    }
    if !ValidPatch(patch) {
      return Reply(BadRequest, Invalid);
    }
    var id := parsed.value;
    var found := reviews.GetByID(id);
    if found.Failure? {
      return Reply(NotFound, ReviewNotFound);
    }
    var review := ApplyPatch(found.value, patch, now);
    PatchedKeepsTheRest(found.value, patch, now);
    if updateFails {
      return Reply(InternalError, UpdateFailed);
    }
    var ok := WriteBack(reviews, companies, found.value, review, now, failure);
    if !ok {
      return Reply(InternalError, RatingFailed);
    }
    if rereadFails {
      return Reply(InternalError, RereadFailed);
    }
    return Reply(Ok, "");
  }

  /** Whether a reply comes after the handler's write: a success, a failed
      recompute, or a failure of the step named `late` that follows both. */
  predicate Written(reply: Reply, late: string)
  {
    reply.status == Ok || reply == Reply(InternalError, RatingFailed) || reply == Reply(InternalError, late)
  }

  /** DeleteReview: 403 for a non-admin, 400 for an id that is not a
      number, 404 for an unknown review, 500 when the delete fails;
      otherwise the review is deleted and its company's aggregates are
      recomputed, whatever its status, a failure of which answers 500
      after the review is deleted. */
  method DeleteReview(reviews: ReviewRepository.ReviewStore, companies: CompanyRepository.CompanyStore,
                      caller: Option<Users.Role>, idText: string, now: int, deleteFails: bool,
                      failure: CompanyRepository.Failure)
    returns (reply: Reply)
    requires reviews.Valid() && companies.Valid()
    modifies reviews, companies
    ensures reviews.Valid() && companies.Valid()
    ensures !AdminUsers.IsAdmin(caller) ==> reply == Reply(Forbidden, AdminUsers.NoRights)
    ensures AdminUsers.IsAdmin(caller) && Numbers.Atoi(idText).None? ==> reply == Reply(BadRequest, AdminUsers.BadID)
    ensures AdminUsers.IsAdmin(caller) && Numbers.Atoi(idText).Some? ==>
      var found := ReviewRepository.Find(old(reviews.rows), Numbers.Atoi(idText).value);
      && (found.None? ==> reply == Reply(NotFound, ReviewNotFound))
      && (found.Some? && deleteFails ==> reply == Reply(InternalError, DeleteFailed))
      && (found.Some? && !deleteFails && failure != CompanyRepository.NoFailure ==>
            reply == Reply(InternalError, RatingFailed))
      && (reply.status == Ok <==> found.Some? && !deleteFails && failure == CompanyRepository.NoFailure)
    ensures Written(reply, RatingFailed) ==>
      && AdminUsers.IsAdmin(caller) && Numbers.Atoi(idText).Some?
      && ReviewRepository.Find(old(reviews.rows), Numbers.Atoi(idText).value).Some?
      && reviews.rows == ReviewRepository.Remove(old(reviews.rows), Numbers.Atoi(idText).value)
    ensures !Written(reply, RatingFailed) ==> reviews.rows == old(reviews.rows) && companies.rows == old(companies.rows)
    ensures reply.status == Ok ==> reply.msg == ReviewDeleted
    ensures reply.status == Ok ==>
      forall c :: old(CompanyRepository.InSync(companies.rows, reviews.rows, c)) ==>
        CompanyRepository.InSync(companies.rows, reviews.rows, c)
  {
    if !AdminUsers.IsAdmin(caller) {
      return Reply(Forbidden, AdminUsers.NoRights);
    }
    var parsed := Numbers.Atoi(idText);
    if parsed.None? {
      return Reply(BadRequest, AdminUsers.BadID);
    }
    var id := parsed.value;
    var found := reviews.GetByID(id);
    if found.Failure? {
      return Reply(NotFound, ReviewNotFound);
    }
    if deleteFails {
      return Reply(InternalError, DeleteFailed);
    }
    var companyID := found.value.companyID;
    ghost var before := reviews.rows;
    ghost var companiesBefore := companies.rows;
    var k := ReviewRepository.FindIndex(reviews.rows, id);
    ReviewRepository.RemoveOne(reviews.rows, k);
    reviews.Delete(id);
    assert reviews.rows == before[..k] + before[k + 1..];
    var outcome := companies.UpdateRating(companyID, reviews.rows, reviews.categoryRatings, now, failure);
    if outcome.Fail? {
      return Reply(InternalError, RatingFailed);
    }
    forall c | CompanyRepository.InSync(companiesBefore, before, c)
      ensures CompanyRepository.InSync(companies.rows, reviews.rows, c)
    {
      SyncAfterDelete(companiesBefore, before, k, now, c);
    }
    return Reply(Ok, ReviewDeleted);
  }
}
