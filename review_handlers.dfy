// The public review endpoints: submitting a review, reading one, the
// company and moderation listings, approval and rejection by moderators,
// and the useful marks users put on reviews.

module ReviewHandlers {
  import opened Common
  import opened Reviews
  import Users
  import Numbers
  import Pagination
  import Query
  import Aggregates
  import Companies
  import ReviewRepository
  import CompanyRepository
  import CityRepository
  import Lookups
  import AdminUsers
  import AdminReviews

  const AuthRequired: string := "Требуется авторизация"
  const Invalid: string := "Ошибка валидации"
  const InvalidParams: string := "Ошибка валидации параметров"
  const CompanyNotFound: string := "Компания не найдена"
  const CityNotFound: string := "Указанный город не найден"
  const PeriodNotFound: string := "Указанный период работы не найден"
  const TypeNotFound: string := "Указанный тип занятости не найден"
  const SaveFailed: string := "Ошибка при сохранении отзыва"
  const RatingsFailed: string := "Ошибка при сохранении рейтингов по категориям"
  const BenefitsFailed: string := "Ошибка при сохранении льгот"
  const Submitted: string := "Отзыв отправлен на модерацию"
  const Hidden: string := "Отзыв не найден или ожидает модерации"
  const ReviewNotFound: string := "Отзыв не найден"
  const NoListingRights: string := "Недостаточно прав для просмотра отзывов на модерации"
  const NoModerationRights: string := "Недостаточно прав для модерации отзывов"
  const WrongStatus: string := "Неверный статус модерации"
  const ReasonRequired: string := "Необходимо указать причину отклонения отзыва"
  const AlreadyModerated: string := "Отзыв уже прошел модерацию"
  const ApprovedMessage: string := "Отзыв успешно одобрен"
  const RejectedMessage: string := "Отзыв отклонен"
  const NotApproved: string := "Нельзя отметить как полезный неодобренный отзыв"
  const AlreadyMarked: string := "Вы уже отметили этот отзыв как полезный"
  const Marked: string := "Отзыв отмечен как полезный"
  const NotMarked: string := "Вы не отмечали этот отзыв как полезный"
  const Unmarked: string := "Отметка 'полезно' удалена"
  const UnmarkFailed: string := "Ошибка при удалении отметки 'полезно'"
  const MarkFailed: string := "Ошибка при добавлении отметки 'полезно'"

  /** The moderation gate: the stored role is moderator or admin. */
  predicate IsModerator(caller: Option<Users.Role>)
  {
    caller == Some(Users.RoleModerator) || caller == Some(Users.RoleAdmin)
  }

  // ---------------------------------------------------------------------
  // Creating a review

  /** The category-rating rows of review `id` for the categories in `keys`. */
  function RatingRows(id: int, ratings: map<int, real>, keys: set<int>): (r: map<(int, int), real>)
    ensures forall p :: p in r <==> p.0 == id && p.1 in keys && p.1 in ratings
    ensures forall p :: p in r ==> r[p] == ratings[p.1]
  {
    map c | c in keys && c in ratings :: (id, c) := ratings[c]
  }

  /** The benefit rows of review `id`, one per listed benefit type, in order. */
  function BenefitRows(id: int, ids: seq<int>): (r: seq<(int, int)>)
    ensures |r| == |ids|
    ensures forall k :: 0 <= k < |ids| ==> r[k] == (id, ids[k])
  {
    seq(|ids|, k requires 0 <= k < |ids| => (id, ids[k]))
  }

  /** A review that is not approved counts in no company's aggregates, so
      adding one keeps every company in sync. */
  lemma AppendUnapprovedKeepsSync(companies: seq<Companies.CompanyRow>, rows: seq<ReviewRow>,
                                  row: ReviewRow, c: int)
    requires row.status != Approved
    ensures CompanyRepository.InSync(companies, rows + [row], c) <==> CompanyRepository.InSync(companies, rows, c)
  {
    Aggregates.ApprovedAppend(rows, [row], c);
    assert Aggregates.Approved([row], c) == [];
    assert Aggregates.Approved(rows + [row], c) == Aggregates.Approved(rows, c);
  }

  /** The inserts of a new review: the review under the next id, the
      category ratings of `keys` and the listed benefits. A pending review
      leaves every company's aggregates as they were. */
  method Save(reviews: ReviewRepository.ReviewStore, companies: seq<Companies.CompanyRow>, row: ReviewRow,
              ratings: map<int, real>, keys: set<int>, benefitIDs: seq<int>)
    returns (id: int)
    requires reviews.Valid() && row.status == Pending && keys <= ratings.Keys
    modifies reviews
    ensures reviews.Valid()
    ensures id == old(reviews.nextID) && ReviewRepository.Find(old(reviews.rows), id).None?
    ensures reviews.rows == old(reviews.rows) + [row.(id := id)]
    ensures reviews.categoryRatings == old(reviews.categoryRatings) + RatingRows(id, ratings, keys)
    ensures reviews.benefits == old(reviews.benefits) + BenefitRows(id, benefitIDs)
    ensures reviews.usefulMarks == old(reviews.usefulMarks)
    ensures forall c :: CompanyRepository.InSync(companies, old(reviews.rows), c) ==>
      CompanyRepository.InSync(companies, reviews.rows, c)
  {
    ghost var before := reviews.rows;
    id := reviews.Create(row);
    AddRatings(reviews, id, ratings, keys);
    AddBenefits(reviews, id, benefitIDs);
    forall c | CompanyRepository.InSync(companies, before, c)
      ensures CompanyRepository.InSync(companies, reviews.rows, c)
    {
      AppendUnapprovedKeepsSync(companies, before, row.(id := id), c);
    }
  }

  /** The AddCategoryRating loop over the categories `keys` of the input:
      one row per category, an existing row for the same pair
      overwritten. */
  method AddRatings(reviews: ReviewRepository.ReviewStore, id: int, ratings: map<int, real>, keys: set<int>)
    requires keys <= ratings.Keys
    modifies reviews
    ensures reviews.categoryRatings == old(reviews.categoryRatings) + RatingRows(id, ratings, keys)
    ensures reviews.rows == old(reviews.rows) && reviews.nextID == old(reviews.nextID)
    ensures reviews.benefits == old(reviews.benefits) && reviews.usefulMarks == old(reviews.usefulMarks)
  {
    ghost var before := reviews.categoryRatings;
    var remaining := keys;
    ghost var done: set<int> := {};
    while remaining != {}
      invariant remaining + done == keys
      invariant reviews.categoryRatings == before + RatingRows(id, ratings, done)
      invariant reviews.rows == old(reviews.rows) && reviews.nextID == old(reviews.nextID)
      invariant reviews.benefits == old(reviews.benefits) && reviews.usefulMarks == old(reviews.usefulMarks)
      decreases |remaining|
    {
      Reviews.NonEmptyHasElement(remaining);
      var c :| c in remaining;
      reviews.AddCategoryRating(id, c, ratings[c]);
      RatingRowsStep(before, id, ratings, done, c);
      remaining := remaining - {c};
      done := done + {c};
    }
  }

  /** One more category: its row added to those already written. */
  lemma RatingRowsStep(before: map<(int, int), real>, id: int, ratings: map<int, real>, done: set<int>, c: int)
    requires c in ratings
    ensures (before + RatingRows(id, ratings, done))[(id, c) := ratings[c]] == before + RatingRows(id, ratings, done + {c})
  {
    var lhs := (before + RatingRows(id, ratings, done))[(id, c) := ratings[c]];
    var rhs := before + RatingRows(id, ratings, done + {c});
    assert lhs.Keys == rhs.Keys;
    forall p | p in lhs.Keys
      ensures lhs[p] == rhs[p]
    {
    }
  }

  /** The AddBenefit loop: one row per listed benefit type, in order. */
  method AddBenefits(reviews: ReviewRepository.ReviewStore, id: int, ids: seq<int>)
    modifies reviews
    ensures reviews.benefits == old(reviews.benefits) + BenefitRows(id, ids)
    ensures reviews.rows == old(reviews.rows) && reviews.nextID == old(reviews.nextID)
    ensures reviews.categoryRatings == old(reviews.categoryRatings) && reviews.usefulMarks == old(reviews.usefulMarks)
  {
    for i := 0 to |ids|
      invariant reviews.benefits == old(reviews.benefits) + BenefitRows(id, ids[..i])
      invariant reviews.rows == old(reviews.rows) && reviews.nextID == old(reviews.nextID)
      invariant reviews.categoryRatings == old(reviews.categoryRatings) && reviews.usefulMarks == old(reviews.usefulMarks)
    {
      reviews.AddBenefit(id, ids[i]);
      assert BenefitRows(id, ids[..i + 1]) == BenefitRows(id, ids[..i]) + [(id, ids[i])];
    }
    assert ids[..|ids|] == ids;
  }

  /** Whether every row a review input refers to exists. */
  predicate References(companies: seq<Companies.CompanyRow>, cities: seq<CityRepository.City>,
                       periods: seq<Lookups.Entry>, types: seq<Lookups.Entry>, input: ReviewInput)
  {
    && CompanyRepository.FindByID(companies, input.companyID).Some?
    && CityRepository.FindByID(cities, input.cityID).Some?
    && Lookups.FindByID(periods, input.employmentPeriodID).Some?
    && Lookups.FindByID(types, input.employmentTypeID).Some?
  }

  /** The existence checks of CreateReview, in the handler's order: the
      first id that names no row gives its 404, and none is given when all
      four exist. */
  method CheckReferences(companies: CompanyRepository.CompanyStore, cities: CityRepository.CityStore,
                         periods: Lookups.LookupStore, types: Lookups.LookupStore, given: ReviewInput)
    returns (missing: Option<Reply>)
    ensures missing.None? <==> References(companies.rows, cities.rows, periods.rows, types.rows, given)
    ensures CompanyRepository.FindByID(companies.rows, given.companyID).None? ==>
      missing == Some(Reply(NotFound, CompanyNotFound))
    ensures (CompanyRepository.FindByID(companies.rows, given.companyID).Some?
             && CityRepository.FindByID(cities.rows, given.cityID).None?) ==>
      missing == Some(Reply(NotFound, CityNotFound))
    ensures (CompanyRepository.FindByID(companies.rows, given.companyID).Some?
             && CityRepository.FindByID(cities.rows, given.cityID).Some?
             && Lookups.FindByID(periods.rows, given.employmentPeriodID).None?) ==>
      missing == Some(Reply(NotFound, PeriodNotFound))
    ensures (CompanyRepository.FindByID(companies.rows, given.companyID).Some?
             && CityRepository.FindByID(cities.rows, given.cityID).Some?
             && Lookups.FindByID(periods.rows, given.employmentPeriodID).Some?
             && Lookups.FindByID(types.rows, given.employmentTypeID).None?) ==>
      missing == Some(Reply(NotFound, TypeNotFound))
  {
    // Each repository's only failure here is the missing row; the handler
    // maps that text to 404 (MissingLookupTextsAgree for the lookups).
    var company := companies.GetByID(given.companyID);
    if company.Failure? {
      return Some(Reply(NotFound, CompanyNotFound));
    }
    var city := cities.GetByID(given.cityID);
    if city.Failure? {
      return Some(Reply(NotFound, CityNotFound));
    }
    var period := periods.GetByID(given.employmentPeriodID);
    if period.Failure? {
      return Some(Reply(NotFound, PeriodNotFound));
    }
    var kind := types.GetByID(given.employmentTypeID);
    if kind.Failure? {
      return Some(Reply(NotFound, TypeNotFound));
    }
    return None;
  }

  /** Where the inserts of CreateReview stop. The review insert can fail;
      a category-rating insert can fail once the categories `written` are
      stored (Go ranges over the map in no fixed order); a benefit insert
      can fail once the first `written` benefits are stored. A point of
      failure the input does not reach is no failure. */
  datatype SaveFault =
    | NoFault
    | ReviewInsertFails
    | RatingInsertFails(written: set<int>)
    | BenefitInsertFails(count: nat)

  /** Whether the fault strikes an input with these ratings and benefits. */
  predicate Strikes(fault: SaveFault, given: ReviewInput)
  {
    match fault
    case NoFault => false
    case ReviewInsertFails => true
    case RatingInsertFails(written) => written < given.categoryRatings.Keys
    case BenefitInsertFails(count) => count < |given.benefitTypeIDs|
  }

  /** The categories whose ratings are stored before the handler answers. */
  function StoredCategories(fault: SaveFault, given: ReviewInput): (keys: set<int>)
    ensures keys <= given.categoryRatings.Keys
    ensures fault.RatingInsertFails? && Strikes(fault, given) ==> keys < given.categoryRatings.Keys
    ensures !(fault.RatingInsertFails? && Strikes(fault, given)) ==> keys == given.categoryRatings.Keys
  {
    if fault.RatingInsertFails? && Strikes(fault, given) then fault.written else given.categoryRatings.Keys
  }

  /** The benefits stored before the handler answers: none after a failed
      rating insert, a proper prefix after a failed benefit insert. */
  function StoredBenefits(fault: SaveFault, given: ReviewInput): (ids: seq<int>)
    ensures fault.RatingInsertFails? && Strikes(fault, given) ==> ids == []
    ensures fault.BenefitInsertFails? && Strikes(fault, given) ==>
      |ids| < |given.benefitTypeIDs| && ids == given.benefitTypeIDs[..|ids|]
    ensures !Strikes(fault, given) ==> ids == given.benefitTypeIDs
  {
    if fault.RatingInsertFails? && Strikes(fault, given) then []
    else if fault.BenefitInsertFails? && Strikes(fault, given) then given.benefitTypeIDs[..fault.count]
    else given.benefitTypeIDs
  }

  /** The message of the 500 a striking fault answers with. */
  function FaultMessage(fault: SaveFault): string
  {
    match fault
    case RatingInsertFails(_) => RatingsFailed
    case BenefitInsertFails(_) => BenefitsFailed
    case _ => SaveFailed
  }

  /** CreateReview: 401 without a user, 400 for a body that fails its
      binding tags, 404 for a company, city, employment period or type
      that does not exist (checked in that order), 500 when the review
      insert fails, all changing nothing. Once the review is stored, a
      failed rating or benefit insert answers 500 with the review and the
      rows written so far kept; otherwise every category rating and
      benefit is stored and 201 says the review awaits moderation. No
      company's aggregates move. */
  method CreateReview(reviews: ReviewRepository.ReviewStore, companies: CompanyRepository.CompanyStore,
                      cities: CityRepository.CityStore, periods: Lookups.LookupStore, types: Lookups.LookupStore,
                      userID: Option<int>, input: Option<ReviewInput>, now: int, fault: SaveFault)
    returns (reply: Reply, created: Option<ReviewRow>)
    requires reviews.Valid()
    modifies reviews
    ensures reviews.Valid()
    ensures userID.None? ==> reply == Reply(Unauthorized, AuthRequired)
    ensures userID.Some? && (input.None? || !ValidInput(input.value)) ==> reply == Reply(BadRequest, Invalid)
    ensures (userID.Some? && input.Some? && ValidInput(input.value)
             && CompanyRepository.FindByID(companies.rows, input.value.companyID).None?) ==>
      reply == Reply(NotFound, CompanyNotFound)
    ensures (userID.Some? && input.Some? && ValidInput(input.value)
             && CompanyRepository.FindByID(companies.rows, input.value.companyID).Some?
             && CityRepository.FindByID(cities.rows, input.value.cityID).None?) ==>
      reply == Reply(NotFound, CityNotFound)
    ensures (userID.Some? && input.Some? && ValidInput(input.value)
             && CompanyRepository.FindByID(companies.rows, input.value.companyID).Some?
             && CityRepository.FindByID(cities.rows, input.value.cityID).Some?
             && Lookups.FindByID(periods.rows, input.value.employmentPeriodID).None?) ==>
      reply == Reply(NotFound, PeriodNotFound)
    ensures (userID.Some? && input.Some? && ValidInput(input.value)
             && CompanyRepository.FindByID(companies.rows, input.value.companyID).Some?
             && CityRepository.FindByID(cities.rows, input.value.cityID).Some?
             && Lookups.FindByID(periods.rows, input.value.employmentPeriodID).Some?
             && Lookups.FindByID(types.rows, input.value.employmentTypeID).None?) ==>
      reply == Reply(NotFound, TypeNotFound)
    ensures userID.Some? && input.Some? && ValidInput(input.value)
            && References(companies.rows, cities.rows, periods.rows, types.rows, input.value) ==>
      && (Strikes(fault, input.value) ==> reply == Reply(InternalError, FaultMessage(fault)))
      && (!Strikes(fault, input.value) ==> reply == Reply(Created, Submitted))
    ensures reply.status == Created <==>
      userID.Some? && input.Some? && ValidInput(input.value)
      && References(companies.rows, cities.rows, periods.rows, types.rows, input.value) && !Strikes(fault, input.value)
    ensures created.Some? <==> reply.status == Created
    ensures reply.status == Created ==>
      && created.value == SubmittedRow(old(reviews.nextID), userID.value, input.value, now)
      && 1.0 <= created.value.rating <= 5.0
    ensures Stored(companies.rows, cities.rows, periods.rows, types.rows, userID, input, fault) ==>
      var given := input.value;
      var id := old(reviews.nextID);
      && ReviewRepository.Find(old(reviews.rows), id).None?
      && reviews.rows == old(reviews.rows) + [SubmittedRow(id, userID.value, given, now)]
      && reviews.categoryRatings == old(reviews.categoryRatings)
           + RatingRows(id, given.categoryRatings, StoredCategories(fault, given))
      && reviews.benefits == old(reviews.benefits) + BenefitRows(id, StoredBenefits(fault, given))
    ensures !Stored(companies.rows, cities.rows, periods.rows, types.rows, userID, input, fault) ==>
      && reviews.rows == old(reviews.rows)
      && reviews.categoryRatings == old(reviews.categoryRatings) && reviews.benefits == old(reviews.benefits)
    ensures reviews.usefulMarks == old(reviews.usefulMarks)
    ensures forall c :: old(CompanyRepository.InSync(companies.rows, reviews.rows, c)) ==>
      CompanyRepository.InSync(companies.rows, reviews.rows, c)
  {
    created := None;
    if userID.None? {
      return Reply(Unauthorized, AuthRequired), None;
    }
    if input.None? || !ValidInput(input.value) {
      return Reply(BadRequest, Invalid), None;
    }
    var given := input.value;
    var missing := CheckReferences(companies, cities, periods, types, given);
    if missing.Some? {
      return missing.value, None;
    }

    reply, created := Submit(reviews, companies.rows, userID.value, given, now, fault);
  }

  /** The writes of CreateReview once its checks pass: the review, then its
      category ratings, then its benefits, stopping where the fault strikes. */
  method Submit(reviews: ReviewRepository.ReviewStore, companies: seq<Companies.CompanyRow>, userID: int,
                given: ReviewInput, now: int, fault: SaveFault)
    returns (reply: Reply, created: Option<ReviewRow>)
    requires reviews.Valid() && ValidInput(given)
    modifies reviews
    ensures reviews.Valid()
    ensures Strikes(fault, given) ==> reply == Reply(InternalError, FaultMessage(fault)) && created.None?
    ensures !Strikes(fault, given) ==>
      && reply == Reply(Created, Submitted)
      && created == Some(SubmittedRow(old(reviews.nextID), userID, given, now))
      && 1.0 <= created.value.rating <= 5.0
    ensures fault != ReviewInsertFails ==>
      var id := old(reviews.nextID);
      && ReviewRepository.Find(old(reviews.rows), id).None?
      && reviews.rows == old(reviews.rows) + [SubmittedRow(id, userID, given, now)]
      && reviews.categoryRatings == old(reviews.categoryRatings)
           + RatingRows(id, given.categoryRatings, StoredCategories(fault, given))
      && reviews.benefits == old(reviews.benefits) + BenefitRows(id, StoredBenefits(fault, given))
    ensures fault == ReviewInsertFails ==>
      && reviews.rows == old(reviews.rows)
      && reviews.categoryRatings == old(reviews.categoryRatings) && reviews.benefits == old(reviews.benefits)
    ensures reviews.usefulMarks == old(reviews.usefulMarks)
    ensures forall c :: CompanyRepository.InSync(companies, old(reviews.rows), c) ==>
      CompanyRepository.InSync(companies, reviews.rows, c)
  {
    var review := NewReview(userID, given, now);
    if fault == ReviewInsertFails {
      return Reply(InternalError, SaveFailed), None;
    }
    var row := review.Row();
    var keys := StoredCategories(fault, given);
    var benefitIDs := StoredBenefits(fault, given);
    var id := Save(reviews, companies, row, given.categoryRatings, keys, benefitIDs);
    assert row.(id := id) == SubmittedRow(id, userID, given, now);
    if Strikes(fault, given) {
      return Reply(InternalError, FaultMessage(fault)), None;
    }
    review.id := id;
    created := Some(review.Row());
    assert created.value == row.(id := id);
    return Reply(Created, Submitted), created;
  }

  /** The row a submitted review is stored as: pending, not useful to
      anyone yet, rated the rounded mean of its category ratings. */
  ghost function SubmittedRow(id: int, userID: int, given: ReviewInput, now: int): ReviewRow
  {
    ReviewRow(id, userID, given.companyID, given.position,
      Some(given.employmentTypeID), Some(given.employmentPeriodID), Some(given.cityID), RoundTenth(Mean(given.categoryRatings)),
      given.pros, given.cons, given.isFormerEmployee, false, Pending, None, 0, now, now, None)
  }

  /** Whether CreateReview gets as far as inserting the review. */
  predicate Stored(companies: seq<Companies.CompanyRow>, cities: seq<CityRepository.City>,
                   periods: seq<Lookups.Entry>, types: seq<Lookups.Entry>,
                   userID: Option<int>, input: Option<ReviewInput>, fault: SaveFault)
  {
    && userID.Some? && input.Some? && ValidInput(input.value)
    && References(companies, cities, periods, types, input.value)
    && fault != ReviewInsertFails
  }

  // ---------------------------------------------------------------------
  // Reading reviews

  /** GetReview: 400 for an id that is not a number; an unknown review and
      one that is not approved both answer 404 with the same message, so a
      pending or rejected review cannot be told from a missing one. */
  method GetReview(reviews: ReviewRepository.ReviewStore, idText: string)
    returns (reply: Reply, review: Option<ReviewRow>)
    ensures Numbers.Atoi(idText).None? ==> reply == Reply(BadRequest, AdminUsers.BadID)
    ensures review.Some? <==>
      && Numbers.Atoi(idText).Some?
      && ReviewRepository.Find(reviews.rows, Numbers.Atoi(idText).value).Some?
      && ReviewRepository.Find(reviews.rows, Numbers.Atoi(idText).value).value.status == Approved
    ensures review.Some? ==>
      reply == Reply(Ok, "") && review.value == ReviewRepository.Find(reviews.rows, Numbers.Atoi(idText).value).value
    ensures review.None? && Numbers.Atoi(idText).Some? ==> reply == Reply(NotFound, Hidden)
  {
    var id := Numbers.Atoi(idText);
    if id.None? {
      return Reply(BadRequest, AdminUsers.BadID), None;
    }
    var r := reviews.GetByID(id.value);
    if r.Failure? {
      return Reply(NotFound, Hidden), None;
    }
    if r.value.status != Approved {
      return Reply(NotFound, Hidden), None;
    }
    return Reply(Ok, ""), Some(r.value);
  }

  /** What the binding tags of ReviewFilter admit: positive ids, ratings
      between one and five, a known sort column and order, a page of at
      least one and a limit of at most 100, zero meaning "not given". */
  predicate ValidFilter(f: Query.ReviewFilter)
  {
    && (f.companyID.Some? ==> f.companyID.value >= 1)
    && (f.userID.Some? ==> f.userID.value >= 1)
    && (f.cityID.Some? ==> f.cityID.value >= 1)
    && (f.minRating.Some? ==> 1.0 <= f.minRating.value <= 5.0)
    && (f.maxRating.Some? ==> 1.0 <= f.maxRating.value <= 5.0)
    && f.sortBy in {"", "rating", "created_at", "useful_count"}
    && f.sortOrder in {"", "asc", "desc"}
    && f.page >= 0
    && 0 <= f.limit <= 100
  }

  /** The defaults the listing handlers fill in: page 1, ten rows, newest
      first by creation time unless `order` says otherwise. */
  function WithDefaults(f: Query.ReviewFilter, order: string): (r: Query.ReviewFilter)
    requires ValidFilter(f)
    ensures r.page >= 1 && 1 <= r.limit <= 100
    ensures f.page >= 1 ==> r.page == f.page
    ensures f.limit >= 1 ==> r.limit == f.limit
    ensures r.sortBy in {"rating", "created_at", "useful_count"}
    ensures r.sortOrder == (if f.sortOrder == "" then order else f.sortOrder)
    ensures r.(page := f.page, limit := f.limit, sortBy := f.sortBy, sortOrder := f.sortOrder) == f
  {
    f.(page := if f.page <= 0 then 1 else f.page,
       limit := if f.limit <= 0 then 10 else f.limit,
       sortBy := if f.sortBy == "" then "created_at" else f.sortBy,
       sortOrder := if f.sortOrder == "" then order else f.sortOrder)
  }

  /** The filter GetCompanyReviews hands to the repository: the defaults,
      newest first, and only the approved reviews of that company. */
  function CompanyFilter(f: Query.ReviewFilter, companyID: int): (r: Query.ReviewFilter)
    requires ValidFilter(f)
  {
    WithDefaults(f, "desc").(status := Some(Approved), companyID := Some(companyID))
  }

  /** A company listing's first two conditions are always status =
      'approved' and the company's id, whatever the query string said. */
  lemma CompanyFilterForcesApproved(f: Query.ReviewFilter, companyID: int)
    requires ValidFilter(f)
    ensures var conds := Query.ReviewConditions(CompanyFilter(f, companyID));
      |conds| >= 2 && conds[0] == (Query.StatusIs, [Query.TextArg("approved")])
      && conds[1] == (Query.CompanyIs, [Query.IntArg(companyID)])
  {
  }

  /** A listing reply: the query sent, and the pagination block computed
      from the count the database returns. */
  datatype Listed = Listed(query: Query.Listing, total: nat, page: int, limit: int, pages: int)

  /** GetCompanyReviews: 400 for a company id that is not a number, 404
      for an unknown company, 400 for a query string that fails its
      binding tags; otherwise the approved reviews of that company, newest
      first unless the order is "asc", with `pages` the ceiling of the
      total over the limit. `total` is what the count query returns. */
  method GetCompanyReviews(companies: CompanyRepository.CompanyStore, idText: string,
                           filter: Option<Query.ReviewFilter>, total: nat)
    returns (reply: Reply, listed: Option<Listed>)
    ensures Numbers.Atoi(idText).None? ==> reply == Reply(BadRequest, AdminUsers.BadID)
    ensures (Numbers.Atoi(idText).Some?
             && CompanyRepository.FindByID(companies.rows, Numbers.Atoi(idText).value).None?) ==>
      reply == Reply(NotFound, CompanyNotFound)
    ensures (Numbers.Atoi(idText).Some?
             && CompanyRepository.FindByID(companies.rows, Numbers.Atoi(idText).value).Some?
             && (filter.None? || !ValidFilter(filter.value))) ==>
      reply == Reply(BadRequest, InvalidParams)
    ensures listed.Some? <==> reply.status == Ok
    ensures listed.Some? <==>
      && Numbers.Atoi(idText).Some?
      && CompanyRepository.FindByID(companies.rows, Numbers.Atoi(idText).value).Some?
      && filter.Some? && ValidFilter(filter.value)
    ensures listed.Some? ==>
      var id := Numbers.Atoi(idText).value;
      var q := listed.value.query;
      && reply == Reply(Ok, "")
      && |Query.Shape(q.conds)| >= 2
      && Query.Shape(q.conds)[0] == (Query.StatusIs, [Query.TextArg("approved")])
      && Query.Shape(q.conds)[1] == (Query.CompanyIs, [Query.IntArg(id)])
      && Query.Window(q, filter.value.page, filter.value.limit)
      && q.direction == Pagination.DescUnlessAsc(filter.value.sortOrder)
      && listed.value.page == q.page && listed.value.limit == q.limit
      && listed.value.total == total
      && listed.value.pages * listed.value.limit >= total
      && (total > 0 ==> (listed.value.pages - 1) * listed.value.limit < total)
  {
    var id := Numbers.Atoi(idText);
    if id.None? {
      return Reply(BadRequest, AdminUsers.BadID), None;
    }
    var company := companies.GetByID(id.value);
    if company.Failure? {
      return Reply(NotFound, CompanyNotFound), None;
    }
    if filter.None? || !ValidFilter(filter.value) {
      return Reply(BadRequest, InvalidParams), None;
    }
    var f := CompanyFilter(filter.value, id.value);
    CompanyFilterForcesApproved(filter.value, id.value);
    var q := Query.ReviewListing(f);
    var pages := Pagination.PageCount(total, f.limit);
    Pagination.PageCountIsCeiling(total, f.limit);
    return Reply(Ok, ""), Some(Listed(q, total, f.page, f.limit, pages));
  }

  /** GetPendingReviews: 403 unless the caller is a moderator or an
      admin, 400 for a query string that fails its binding tags; otherwise
      the pending reviews, oldest first unless the order is "desc". */
  method GetPendingReviews(caller: Option<Users.Role>, filter: Option<Query.ReviewFilter>, total: nat)
    returns (reply: Reply, listed: Option<Listed>)
    ensures !IsModerator(caller) ==> reply == Reply(Forbidden, NoListingRights)
    ensures IsModerator(caller) && (filter.None? || !ValidFilter(filter.value)) ==> reply == Reply(BadRequest, InvalidParams)
    ensures listed.Some? <==> reply.status == Ok
    ensures listed.Some? <==> IsModerator(caller) && filter.Some? && ValidFilter(filter.value)
    ensures listed.Some? ==>
      var q := listed.value.query;
      && reply == Reply(Ok, "")
      && Query.Shape(q.conds) == Query.PendingConditions(filter.value)
      && Query.Window(q, filter.value.page, filter.value.limit)
      && q.direction == Pagination.AscUnlessDesc(filter.value.sortOrder)
      && listed.value.page == q.page && listed.value.limit == q.limit
      && listed.value.total == total
      && listed.value.pages * listed.value.limit >= total
      && (total > 0 ==> (listed.value.pages - 1) * listed.value.limit < total)
  {
    if !IsModerator(caller) {
      return Reply(Forbidden, NoListingRights), None;
    }
    if filter.None? || !ValidFilter(filter.value) {
      return Reply(BadRequest, InvalidParams), None;
    }
    var f := WithDefaults(filter.value, "asc").(status := Some(Pending));
    var q := Query.PendingListing(f);
    var pages := Pagination.PageCount(total, f.limit);
    Pagination.PageCountIsCeiling(total, f.limit);
    return Reply(Ok, ""), Some(Listed(q, total, f.page, f.limit, pages));
  }

  // ---------------------------------------------------------------------
  // Moderation

  /** The body of an approve or reject request; binding admits only the
      statuses approved and rejected. */
  datatype ModerationInput = ModerationInput(status: ReviewStatus, comment: string)

  predicate ValidModeration(input: Option<ModerationInput>)
  {
    input.Some? && input.value.status != Pending
  }

  /** The row an approval writes: approved now, the comment kept when
      none is given. */
  function Approval(stored: ReviewRow, comment: string, now: int): ReviewRow
  {
    stored.(status := Approved, updatedAt := now, approvedAt := Some(now),
      moderationComment := if comment != "" then Some(comment) else stored.moderationComment)
  }

  /** The row a rejection writes: rejected now with the given reason; the
      approval time is left alone. */
  function Rejection(stored: ReviewRow, comment: string, now: int): ReviewRow
  {
    stored.(status := Rejected, updatedAt := now, moderationComment := Some(comment))
  }

  /** Approving a pending review of a company adds exactly one to that
      company's review count, and leaves every other company's count as it
      was. */
  lemma ApprovalCountsOnce(rows: seq<ReviewRow>, k: int, comment: string, now: int, c: int)
    requires 0 <= k < |rows| && rows[k].status == Pending
    ensures var after := rows[k := Approval(rows[k], comment, now)];
      && (c == rows[k].companyID ==> Aggregates.ReviewsCount(after, c) == Aggregates.ReviewsCount(rows, c) + 1)
      && (c != rows[k].companyID ==> Aggregates.ReviewsCount(after, c) == Aggregates.ReviewsCount(rows, c))
  {
    var approved := Approval(rows[k], comment, now);
    if c == rows[k].companyID {
      Aggregates.ApprovalAddsOne(rows, k, approved, c);
    } else {
      Aggregates.ApprovedAfterWrite(rows, k, approved, c);
    }
  }

  /** Rejecting a pending review moves no company's aggregates. */
  lemma RejectionCountsNothing(rows: seq<ReviewRow>, k: int, comment: string, now: int, c: int)
    requires 0 <= k < |rows| && rows[k].status == Pending
    ensures Aggregates.Approved(rows[k := Rejection(rows[k], comment, now)], c) == Aggregates.Approved(rows, c)
  {
    Aggregates.ApprovedAfterWrite(rows, k, Rejection(rows[k], comment, now), c);
  }

  /** The checks approval and rejection share before the review is read:
      the role, the id, the body, and that the body asks for `wanted`. */
  predicate ModerationAccepted(caller: Option<Users.Role>, idText: string, input: Option<ModerationInput>,
                               wanted: ReviewStatus)
  {
    IsModerator(caller) && Numbers.Atoi(idText).Some? && ValidModeration(input) && input.value.status == wanted
  }

  /** The moderation checks pass and the review they name is still pending. */
  predicate Moderates(rows: seq<ReviewRow>, caller: Option<Users.Role>, idText: string, input: Option<ModerationInput>,
                      wanted: ReviewStatus)
  {
    && ModerationAccepted(caller, idText, input, wanted)
    && (wanted == Rejected ==> input.value.comment != "")
    && ReviewRepository.Find(rows, Numbers.Atoi(idText).value).Some?
    && ReviewRepository.Find(rows, Numbers.Atoi(idText).value).value.status == Pending
  }

  /** ApproveReview: 403 unless the caller moderates, 400 for a bad id, a
      body that fails binding or one that does not ask for approval, 404
      for an unknown review, 400 for a review that is no longer pending,
      500 when the update fails; otherwise the review is approved and its
      company's aggregates are recomputed, whose failure answers 500 after
      the review is written. */
  method ApproveReview(reviews: ReviewRepository.ReviewStore, companies: CompanyRepository.CompanyStore,
                       caller: Option<Users.Role>, idText: string, input: Option<ModerationInput>, now: int,
                       updateFails: bool, failure: CompanyRepository.Failure)
    returns (reply: Reply)
    requires reviews.Valid() && companies.Valid()
    modifies reviews, companies
    ensures reviews.Valid() && companies.Valid()
    ensures !IsModerator(caller) ==> reply == Reply(Forbidden, NoModerationRights)
    ensures IsModerator(caller) && Numbers.Atoi(idText).None? ==> reply == Reply(BadRequest, AdminUsers.BadID)
    ensures IsModerator(caller) && Numbers.Atoi(idText).Some? && !ValidModeration(input) ==> reply == Reply(BadRequest, Invalid)
    ensures (IsModerator(caller) && Numbers.Atoi(idText).Some? && ValidModeration(input)
             && input.value.status != Approved) ==>
      reply == Reply(BadRequest, WrongStatus)
    ensures (ModerationAccepted(caller, idText, input, Approved)
             && ReviewRepository.Find(old(reviews.rows), Numbers.Atoi(idText).value).None?) ==>
      reply == Reply(NotFound, ReviewNotFound)
    ensures (ModerationAccepted(caller, idText, input, Approved)
             && ReviewRepository.Find(old(reviews.rows), Numbers.Atoi(idText).value).Some?
             && ReviewRepository.Find(old(reviews.rows), Numbers.Atoi(idText).value).value.status != Pending) ==>
      reply == Reply(BadRequest, AlreadyModerated)
    ensures Moderates(old(reviews.rows), caller, idText, input, Approved) && updateFails ==>
      reply == Reply(InternalError, AdminReviews.UpdateFailed)
    ensures Moderates(old(reviews.rows), caller, idText, input, Approved) && !updateFails ==>
      var stored := ReviewRepository.Find(old(reviews.rows), Numbers.Atoi(idText).value).value;
      && reviews.rows == ReviewRepository.Replace(old(reviews.rows), Approval(stored, input.value.comment, now))
      && (reply.status == Ok <==> failure == CompanyRepository.NoFailure)
      && (reply.status == Ok ==>
            reply.msg == ApprovedMessage && CompanyRepository.InSync(companies.rows, reviews.rows, stored.companyID))
      && (reply.status != Ok ==> reply == Reply(InternalError, AdminReviews.RatingFailed) && companies.rows == old(companies.rows))
    ensures !(Moderates(old(reviews.rows), caller, idText, input, Approved) && !updateFails) ==>
      reviews.rows == old(reviews.rows) && companies.rows == old(companies.rows)
    ensures reply.status == Ok <==>
      Moderates(old(reviews.rows), caller, idText, input, Approved) && !updateFails && failure == CompanyRepository.NoFailure
    ensures reply.status == Ok ==>
      forall c :: old(CompanyRepository.InSync(companies.rows, reviews.rows, c)) ==>
        CompanyRepository.InSync(companies.rows, reviews.rows, c)
    ensures reviews.usefulMarks == old(reviews.usefulMarks) && reviews.benefits == old(reviews.benefits)
  {
    if !IsModerator(caller) {
      return Reply(Forbidden, NoModerationRights);
    }
    var id := Numbers.Atoi(idText);
    if id.None? {
      return Reply(BadRequest, AdminUsers.BadID);
    }
    if !ValidModeration(input) {
      return Reply(BadRequest, Invalid);
    }
    if input.value.status != Approved {
      return Reply(BadRequest, WrongStatus);
    }
    var found := reviews.GetByID(id.value);
    if found.Failure? {
      return Reply(NotFound, ReviewNotFound);
    }
    var stored := found.value;
    if stored.status != Pending {
      return Reply(BadRequest, AlreadyModerated);
    }
    if updateFails {
      return Reply(InternalError, AdminReviews.UpdateFailed);
    }
    var review := new Review.FromRow(stored);
    review.ApproveReview(input.value.comment, now);
    var row := review.Row();
    assert row == Approval(stored, input.value.comment, now);
    var ok := AdminReviews.WriteBack(reviews, companies, stored, row, now, failure);
    if !ok {
      return Reply(InternalError, AdminReviews.RatingFailed);
    }
    return Reply(Ok, ApprovedMessage);
  }

  /** RejectReview: the checks of ApproveReview, asking for rejection, and
      400 before the review is read when no reason is given, 500 when the
      update fails; the review is then rejected with that reason and no
      aggregate is recomputed, which keeps every company in sync. */
  method RejectReview(reviews: ReviewRepository.ReviewStore, companies: CompanyRepository.CompanyStore,
                      caller: Option<Users.Role>, idText: string, input: Option<ModerationInput>, now: int,
                      updateFails: bool)
    returns (reply: Reply)
    requires reviews.Valid() && companies.Valid()
    modifies reviews
    ensures reviews.Valid()
    ensures !IsModerator(caller) ==> reply == Reply(Forbidden, NoModerationRights)
    ensures IsModerator(caller) && Numbers.Atoi(idText).None? ==> reply == Reply(BadRequest, AdminUsers.BadID)
    ensures IsModerator(caller) && Numbers.Atoi(idText).Some? && !ValidModeration(input) ==> reply == Reply(BadRequest, Invalid)
    ensures (IsModerator(caller) && Numbers.Atoi(idText).Some? && ValidModeration(input)
             && input.value.status != Rejected) ==>
      reply == Reply(BadRequest, WrongStatus)
    ensures ModerationAccepted(caller, idText, input, Rejected) && input.value.comment == "" ==>
      reply == Reply(BadRequest, ReasonRequired)
    ensures (ModerationAccepted(caller, idText, input, Rejected) && input.value.comment != ""
             && ReviewRepository.Find(old(reviews.rows), Numbers.Atoi(idText).value).None?) ==>
      reply == Reply(NotFound, ReviewNotFound)
    ensures (ModerationAccepted(caller, idText, input, Rejected) && input.value.comment != ""
             && ReviewRepository.Find(old(reviews.rows), Numbers.Atoi(idText).value).Some?
             && ReviewRepository.Find(old(reviews.rows), Numbers.Atoi(idText).value).value.status != Pending) ==>
      reply == Reply(BadRequest, AlreadyModerated)
    ensures Moderates(old(reviews.rows), caller, idText, input, Rejected) && updateFails ==>
      reply == Reply(InternalError, AdminReviews.UpdateFailed)
    ensures reply.status == Ok <==> Moderates(old(reviews.rows), caller, idText, input, Rejected) && !updateFails
    ensures reply.status == Ok ==>
      var stored := ReviewRepository.Find(old(reviews.rows), Numbers.Atoi(idText).value).value;
      && reply.msg == RejectedMessage
      && reviews.rows == ReviewRepository.Replace(old(reviews.rows), Rejection(stored, input.value.comment, now))
    ensures reply.status != Ok ==> reviews.rows == old(reviews.rows)
    ensures forall c :: old(CompanyRepository.InSync(companies.rows, reviews.rows, c)) ==>
      CompanyRepository.InSync(companies.rows, reviews.rows, c)
    ensures reviews.usefulMarks == old(reviews.usefulMarks) && reviews.benefits == old(reviews.benefits)
  {
    if !IsModerator(caller) {
      return Reply(Forbidden, NoModerationRights);
    }
    var id := Numbers.Atoi(idText);
    if id.None? {
      return Reply(BadRequest, AdminUsers.BadID);
    }
    if !ValidModeration(input) {
      return Reply(BadRequest, Invalid);
    }
    if input.value.status != Rejected {
      return Reply(BadRequest, WrongStatus);
    }
    if input.value.comment == "" {
      return Reply(BadRequest, ReasonRequired);
    }
    var found := reviews.GetByID(id.value);
    if found.Failure? {
      return Reply(NotFound, ReviewNotFound);
    }
    var stored := found.value;
    if stored.status != Pending {
      return Reply(BadRequest, AlreadyModerated);
    }
    if updateFails {
      return Reply(InternalError, AdminReviews.UpdateFailed);
    }
    var review := new Review.FromRow(stored);
    review.RejectReview(input.value.comment, now);
    var row := review.Row();
    assert row == Rejection(stored, input.value.comment, now);
    WriteUnrecomputed(reviews, companies.rows, stored, row);
    return Reply(Ok, RejectedMessage);
  }

  /** The UPDATE of a review whose change moves no aggregate (it is
      approved neither before nor after): every company in sync stays in
      sync without a recomputation. */
  method WriteUnrecomputed(reviews: ReviewRepository.ReviewStore, companies: seq<Companies.CompanyRow>,
                           stored: ReviewRow, row: ReviewRow)
    requires reviews.Valid()
    requires ReviewRepository.Find(reviews.rows, row.id) == Some(stored)
    requires ReviewRepository.Overwrite(stored, row) == row
    requires !AdminReviews.Recomputes(stored.status, row.status)
    modifies reviews
    ensures reviews.Valid()
    ensures reviews.rows == ReviewRepository.Replace(old(reviews.rows), row)
    ensures reviews.usefulMarks == old(reviews.usefulMarks) && reviews.benefits == old(reviews.benefits)
    ensures forall c :: CompanyRepository.InSync(companies, old(reviews.rows), c) ==>
      CompanyRepository.InSync(companies, reviews.rows, c)
  {
    ghost var before := reviews.rows;
    var k := ReviewRepository.FindIndex(reviews.rows, row.id);
    ReviewRepository.ReplaceOne(reviews.rows, k, row);
    reviews.Update(row);
    assert reviews.rows == before[k := row];
    forall c | CompanyRepository.InSync(companies, before, c)
      ensures CompanyRepository.InSync(companies, reviews.rows, c)
    {
      AdminReviews.UnrecomputedStaysInSync(companies, before, k, row, c);
    }
  }

  // ---------------------------------------------------------------------
  // Useful marks

  /** How many users marked review `id` as useful. */
  function MarkCount(marks: set<(int, int)>, id: int): nat
  {
    |set p | p in marks && p.1 == id|
  }

  /** The useful count of every row with id `id` equals its number of marks. */
  predicate CountsMarks(rows: seq<ReviewRow>, marks: set<(int, int)>, id: int)
  {
    forall k :: 0 <= k < |rows| && rows[k].id == id ==> rows[k].usefulCount == MarkCount(marks, id)
  }

  /** A new mark adds one to the review's number of marks. */
  lemma MarkCountAdd(marks: set<(int, int)>, user: int, id: int)
    requires (user, id) !in marks
    ensures MarkCount(marks + {(user, id)}, id) == MarkCount(marks, id) + 1
  {
    var before := set p | p in marks && p.1 == id;
    var after := set p | p in marks + {(user, id)} && p.1 == id;
    assert after == before + {(user, id)};
  }

  /** Removing an existing mark takes one from the review's number of marks. */
  lemma MarkCountRemove(marks: set<(int, int)>, user: int, id: int)
    requires (user, id) in marks
    ensures MarkCount(marks - {(user, id)}, id) + 1 == MarkCount(marks, id)
  {
    var before := set p | p in marks && p.1 == id;
    var after := set p | p in marks - {(user, id)} && p.1 == id;
    assert before == after + {(user, id)};
  }

  /** Why the handlers below lose the useful count: a successful mark or
      unmark changes the set of marks and leaves every row as it was, so a
      review whose count agreed with its marks no longer does. */
  lemma CountDriftsAsWritten(rows: seq<ReviewRow>, marks: set<(int, int)>, user: int, k: int)
    requires 0 <= k < |rows|
    ensures var id := rows[k].id;
      && ((user, id) !in marks && CountsMarks(rows, marks, id) ==> !CountsMarks(rows, marks + {(user, id)}, id))
      && ((user, id) in marks && CountsMarks(rows, marks, id) ==> !CountsMarks(rows, marks - {(user, id)}, id))
  {
    var id := rows[k].id;
    if (user, id) !in marks {
      MarkCountAdd(marks, user, id);
    } else {
      MarkCountRemove(marks, user, id);
    }
  }

  /** MarkReviewAsUseful as written: 400 for a bad id, 401 without a user,
      404 for an unknown review, 400 for a review that is not approved or
      that the user already marked, 500 when the insert fails; otherwise the
      mark is added. The review's useful count is not touched. */
  method MarkReviewAsUseful(reviews: ReviewRepository.ReviewStore, userID: Option<int>, idText: string,
                            insertFails: bool)
    returns (reply: Reply)
    modifies reviews
    ensures Numbers.Atoi(idText).None? ==> reply == Reply(BadRequest, AdminUsers.BadID)
    ensures Numbers.Atoi(idText).Some? && userID.None? ==> reply == Reply(Unauthorized, AuthRequired)
    ensures (Numbers.Atoi(idText).Some? && userID.Some?
             && ReviewRepository.Find(reviews.rows, Numbers.Atoi(idText).value).None?) ==>
      reply == Reply(NotFound, ReviewNotFound)
    ensures (Numbers.Atoi(idText).Some? && userID.Some?
             && ReviewRepository.Find(reviews.rows, Numbers.Atoi(idText).value).Some?
             && ReviewRepository.Find(reviews.rows, Numbers.Atoi(idText).value).value.status != Approved) ==>
      reply == Reply(BadRequest, NotApproved)
    ensures reply.status == Ok <==>
      && Numbers.Atoi(idText).Some? && userID.Some?
      && ReviewRepository.Find(reviews.rows, Numbers.Atoi(idText).value).Some?
      && ReviewRepository.Find(reviews.rows, Numbers.Atoi(idText).value).value.status == Approved
      && (userID.value, Numbers.Atoi(idText).value) !in old(reviews.usefulMarks)
      && !insertFails
    ensures (Numbers.Atoi(idText).Some? && userID.Some?
             && ReviewRepository.Find(reviews.rows, Numbers.Atoi(idText).value).Some?
             && ReviewRepository.Find(reviews.rows, Numbers.Atoi(idText).value).value.status == Approved) ==>
      && ((userID.value, Numbers.Atoi(idText).value) in old(reviews.usefulMarks) ==> reply == Reply(BadRequest, AlreadyMarked))
      && ((userID.value, Numbers.Atoi(idText).value) !in old(reviews.usefulMarks) && insertFails ==>
            reply == Reply(InternalError, MarkFailed))
    ensures reply.status == Ok ==>
      reply.msg == Marked
      && reviews.usefulMarks == old(reviews.usefulMarks) + {(userID.value, Numbers.Atoi(idText).value)}
    ensures reply.status != Ok ==> reviews.usefulMarks == old(reviews.usefulMarks)
    ensures reviews.rows == old(reviews.rows) && reviews.nextID == old(reviews.nextID)
    ensures reviews.categoryRatings == old(reviews.categoryRatings) && reviews.benefits == old(reviews.benefits)
  {
    var id := Numbers.Atoi(idText);
    if id.None? {
      return Reply(BadRequest, AdminUsers.BadID);
    }
    if userID.None? {
      return Reply(Unauthorized, AuthRequired);
    }
    var found := reviews.GetByID(id.value);
    if found.Failure? {
      return Reply(NotFound, ReviewNotFound);
    }
    if found.value.status != Approved {
      return Reply(BadRequest, NotApproved);
    }
    var marked := reviews.HasUserMarkedReviewAsUseful(userID.value, id.value);
    if marked {
      return Reply(BadRequest, AlreadyMarked);
    }
    if insertFails {
      return Reply(InternalError, MarkFailed);
    }
    reviews.AddUsefulMark(userID.value, id.value);
    return Reply(Ok, Marked);
  }

  /** RemoveUsefulMark as written: 400 for a bad id, 401 without a user,
      404 for an unknown review (approved or not), 400 when the user has no
      mark on it, 500 when the delete fails; otherwise the mark is deleted.
      The review's useful count is not touched. */
  method RemoveUsefulMark(reviews: ReviewRepository.ReviewStore, userID: Option<int>, idText: string,
                          deleteFails: bool)
    returns (reply: Reply)
    modifies reviews
    ensures Numbers.Atoi(idText).None? ==> reply == Reply(BadRequest, AdminUsers.BadID)
    ensures Numbers.Atoi(idText).Some? && userID.None? ==> reply == Reply(Unauthorized, AuthRequired)
    ensures (Numbers.Atoi(idText).Some? && userID.Some?
             && ReviewRepository.Find(reviews.rows, Numbers.Atoi(idText).value).None?) ==>
      reply == Reply(NotFound, ReviewNotFound)
    ensures reply.status == Ok <==>
      && Numbers.Atoi(idText).Some? && userID.Some?
      && ReviewRepository.Find(reviews.rows, Numbers.Atoi(idText).value).Some?
      && (userID.value, Numbers.Atoi(idText).value) in old(reviews.usefulMarks)
      && !deleteFails
    ensures (Numbers.Atoi(idText).Some? && userID.Some?
             && ReviewRepository.Find(reviews.rows, Numbers.Atoi(idText).value).Some?) ==>
      && ((userID.value, Numbers.Atoi(idText).value) !in old(reviews.usefulMarks) ==> reply == Reply(BadRequest, NotMarked))
      && ((userID.value, Numbers.Atoi(idText).value) in old(reviews.usefulMarks) && deleteFails ==>
            reply == Reply(InternalError, UnmarkFailed))
    ensures reply.status == Ok ==>
      reply.msg == Unmarked
      && reviews.usefulMarks == old(reviews.usefulMarks) - {(userID.value, Numbers.Atoi(idText).value)}
    ensures reply.status != Ok ==> reviews.usefulMarks == old(reviews.usefulMarks)
    ensures reviews.rows == old(reviews.rows) && reviews.nextID == old(reviews.nextID)
    ensures reviews.categoryRatings == old(reviews.categoryRatings) && reviews.benefits == old(reviews.benefits)
  {
    var id := Numbers.Atoi(idText);
    if id.None? {
      return Reply(BadRequest, AdminUsers.BadID);
    }
    if userID.None? {
      return Reply(Unauthorized, AuthRequired);
    }
    var found := reviews.GetByID(id.value);
    if found.Failure? {
      return Reply(NotFound, ReviewNotFound);
    }
    var marked := reviews.HasUserMarkedReviewAsUseful(userID.value, id.value);
    if !marked {
      return Reply(BadRequest, NotMarked);
    }
    if deleteFails {
      return Reply(InternalError, UnmarkFailed);
    }
    var removed := reviews.RemoveUsefulMark(userID.value, id.value);
    if removed.Fail? {
      // The store fails only when no mark exists, which was just checked.
      assert false;
    }
    return Reply(Ok, Unmarked);
  }

  /** The corrected mark: MarkReviewAsUseful followed by the repository's
      increment of the useful count, so a review whose count agreed with
      its marks still does. */
  method MarkReviewAsUsefulCounted(reviews: ReviewRepository.ReviewStore, userID: Option<int>, idText: string,
                                   insertFails: bool)
    returns (reply: Reply)
    requires reviews.Valid()
    modifies reviews
    ensures reviews.Valid()
    ensures reply.status == Ok <==>
      && Numbers.Atoi(idText).Some? && userID.Some?
      && ReviewRepository.Find(old(reviews.rows), Numbers.Atoi(idText).value).Some?
      && ReviewRepository.Find(old(reviews.rows), Numbers.Atoi(idText).value).value.status == Approved
      && (userID.value, Numbers.Atoi(idText).value) !in old(reviews.usefulMarks)
      && !insertFails
    ensures reply.status == Ok ==>
      var id := Numbers.Atoi(idText).value;
      && reviews.usefulMarks == old(reviews.usefulMarks) + {(userID.value, id)}
      && reviews.rows == ReviewRepository.AdjustUseful(old(reviews.rows), id, 1)
      && (old(CountsMarks(reviews.rows, reviews.usefulMarks, id)) ==> CountsMarks(reviews.rows, reviews.usefulMarks, id))
    ensures reply.status != Ok ==> reviews.usefulMarks == old(reviews.usefulMarks) && reviews.rows == old(reviews.rows)
  {
    ghost var rows0 := reviews.rows;
    ghost var marks0 := reviews.usefulMarks;
    reply := MarkReviewAsUseful(reviews, userID, idText, insertFails);
    if reply.status == Ok {
      var id := Numbers.Atoi(idText).value;
      reviews.MarkReviewAsUseful(id);
      MarkCountAdd(marks0, userID.value, id);
      forall k | 0 <= k < |reviews.rows| && reviews.rows[k].id == id && CountsMarks(rows0, marks0, id)
        ensures reviews.rows[k].usefulCount == MarkCount(reviews.usefulMarks, id)
      {
        ReviewRepository.AdjustUsefulEffect(rows0, id, 1, k);
      }
    }
  }

  /** The corrected unmark: RemoveUsefulMark followed by a decrement of the
      useful count, so a review whose count agreed with its marks still
      does. */
  method RemoveUsefulMarkCounted(reviews: ReviewRepository.ReviewStore, userID: Option<int>, idText: string,
                                 deleteFails: bool)
    returns (reply: Reply)
    requires reviews.Valid()
    modifies reviews
    ensures reviews.Valid()
    ensures reply.status == Ok <==>
      && Numbers.Atoi(idText).Some? && userID.Some?
      && ReviewRepository.Find(old(reviews.rows), Numbers.Atoi(idText).value).Some?
      && (userID.value, Numbers.Atoi(idText).value) in old(reviews.usefulMarks)
      && !deleteFails
    ensures reply.status == Ok ==>
      var id := Numbers.Atoi(idText).value;
      && reviews.usefulMarks == old(reviews.usefulMarks) - {(userID.value, id)}
      && reviews.rows == ReviewRepository.AdjustUseful(old(reviews.rows), id, -1)
      && (old(CountsMarks(reviews.rows, reviews.usefulMarks, id)) ==> CountsMarks(reviews.rows, reviews.usefulMarks, id))
    ensures reply.status != Ok ==> reviews.usefulMarks == old(reviews.usefulMarks) && reviews.rows == old(reviews.rows)
  {
    ghost var rows0 := reviews.rows;
    ghost var marks0 := reviews.usefulMarks;
    reply := RemoveUsefulMark(reviews, userID, idText, deleteFails);
    if reply.status == Ok {
      var id := Numbers.Atoi(idText).value;
      reviews.UnmarkReviewAsUseful(id);
      MarkCountRemove(marks0, userID.value, id);
      forall k | 0 <= k < |reviews.rows| && reviews.rows[k].id == id && CountsMarks(rows0, marks0, id)
        ensures reviews.rows[k].usefulCount == MarkCount(reviews.usefulMarks, id)
      {
        ReviewRepository.AdjustUsefulEffect(rows0, id, -1, k);
      }
    }
  }
}
