// The company repository as an in-memory model of the companies table and
// the company_category_ratings table, with the transactional rating
// recomputation.

module CompanyRepository {
  import opened Common
  import opened Companies
  import Reviews
  import Aggregates

  function FindByID(rows: seq<CompanyRow>, id: int): (r: Option<CompanyRow>)
    ensures r.Some? ==> r.value in rows && r.value.id == id
    ensures r.None? <==> forall k :: 0 <= k < |rows| ==> rows[k].id != id
  {
    if |rows| == 0 then None else if rows[0].id == id then Some(rows[0]) else FindByID(rows[1..], id)
  }

  function FindBySlug(rows: seq<CompanyRow>, slug: string): (r: Option<CompanyRow>)
    ensures r.Some? ==> r.value in rows && r.value.slug == slug
    ensures r.None? <==> forall k :: 0 <= k < |rows| ==> rows[k].slug != slug
  {
    if |rows| == 0 then None else if rows[0].slug == slug then Some(rows[0]) else FindBySlug(rows[1..], slug)
  }

  function FindByName(rows: seq<CompanyRow>, name: string): (r: Option<CompanyRow>)
    ensures r.Some? ==> r.value in rows && r.value.name == name
    ensures r.None? <==> forall k :: 0 <= k < |rows| ==> rows[k].name != name
  {
    if |rows| == 0 then None else if rows[0].name == name then Some(rows[0]) else FindByName(rows[1..], name)
  }

  /** The company's aggregates after UpdateRating: count, mean, percentage
      recomputed from the approved reviews and updated_at set to `now`. */
  function WithAggregates(c: CompanyRow, reviews: seq<Reviews.ReviewRow>, now: int): CompanyRow
  {
    c.(reviewsCount := Aggregates.ReviewsCount(reviews, c.id),
       averageRating := Aggregates.AverageRating(reviews, c.id),
       recommendationPercent := Aggregates.RecommendationPercentage(reviews, c.id),
       updatedAt := now)
  }

  /** The first statement of UpdateRating on the table: only the row with
      that id changes. */
  function RecomputeRow(rows: seq<CompanyRow>, companyID: int, reviews: seq<Reviews.ReviewRow>, now: int): (r: seq<CompanyRow>)
    ensures |r| == |rows|
  {
    seq(|rows|, k requires 0 <= k < |rows| => if rows[k].id == companyID then WithAggregates(rows[k], reviews, now) else rows[k])
  }

  /** `DELETE FROM company_category_ratings WHERE company_id = companyID`. */
  function DropCompany(ratings: map<(int, int), real>, companyID: int): map<(int, int), real>
  {
    map p | p in ratings && p.0 != companyID :: ratings[p]
  }

  /** The INSERT ... SELECT of the per-category means: one row per category. */
  function MeanRows(companyID: int, means: map<int, real>): map<(int, int), real>
  {
    map c | c in means :: (companyID, c) := means[c]
  }

  /** The delete followed by the insert. */
  function RebuildCategories(ratings: map<(int, int), real>, companyID: int, means: map<int, real>): map<(int, int), real>
  {
    DropCompany(ratings, companyID) + MeanRows(companyID, means)
  }

  /** After the rebuild the company has a category rating exactly for the
      categories with a mean, holding that mean, and no other company's
      category ratings changed. */
  lemma RebuildCategoriesEffect(ratings: map<(int, int), real>, companyID: int, means: map<int, real>, p: (int, int))
    ensures p.0 == companyID ==> (p in RebuildCategories(ratings, companyID, means) <==> p.1 in means)
    ensures p.0 == companyID && p.1 in means ==> RebuildCategories(ratings, companyID, means)[p] == means[p.1]
    ensures p.0 != companyID ==> (p in RebuildCategories(ratings, companyID, means) <==> p in ratings)
    ensures p.0 != companyID && p in ratings ==> RebuildCategories(ratings, companyID, means)[p] == ratings[p]
  {
    var added := MeanRows(companyID, means);
    if p.0 == companyID && p.1 in means {
      var c := p.1;
      assert c in means && p == (companyID, c);
      assert p in added;
    }
    if p in added {
      var c :| c in means && p == (companyID, c);
    }
  }

  /** The company rows with id `companyID` hold the aggregates of the
      reviews table. */
  predicate InSync(companies: seq<CompanyRow>, reviews: seq<Reviews.ReviewRow>, companyID: int)
  {
    forall k :: 0 <= k < |companies| && companies[k].id == companyID ==>
      && companies[k].reviewsCount == Aggregates.ReviewsCount(reviews, companyID)
      && companies[k].averageRating == Aggregates.AverageRating(reviews, companyID)
      && companies[k].recommendationPercent == Aggregates.RecommendationPercentage(reviews, companyID)
  }

  /** Recomputing a company brings it in sync with the reviews it was
      computed from and leaves every other company as it was. */
  lemma RecomputeSyncs(companies: seq<CompanyRow>, companyID: int, reviews: seq<Reviews.ReviewRow>, now: int, c: int)
    ensures InSync(RecomputeRow(companies, companyID, reviews, now), reviews, companyID)
    ensures c != companyID ==>
      (InSync(RecomputeRow(companies, companyID, reviews, now), reviews, c) <==> InSync(companies, reviews, c))
  {
    var after := RecomputeRow(companies, companyID, reviews, now);
    if c != companyID {
      assert forall k :: 0 <= k < |companies| && companies[k].id == c ==> after[k] == companies[k];
    }
  }

  /** Which statement of the UpdateRating transaction fails, if any. The
      database's own failures are not modelled, so this is an input. */
  datatype Failure = NoFailure | UpdateFails | DeleteFails | InsertFails | CommitFails

  class CompanyStore {
    /** The companies table, in insertion order. */
    var rows: seq<CompanyRow>
    var nextID: int
    /** company_category_ratings: (company id, category id) to the mean. */
    var categoryRatings: map<(int, int), real>

    predicate Valid()
      reads this
    {
      && nextID >= 1
      && (forall k :: 0 <= k < |rows| ==> 1 <= rows[k].id < nextID)
      && (forall i, j :: 0 <= i < j < |rows| ==> rows[i].id != rows[j].id)
    }

    constructor ()
      ensures Valid() && rows == [] && categoryRatings == map[]
    {
      rows, nextID, categoryRatings := [], 1, map[];
    }

    /** Create: inserts the company under a fresh id and returns the id. */
    method Create(company: CompanyRow) returns (id: int)
      requires Valid()
      modifies this
      ensures Valid()
      ensures id == old(nextID) && FindByID(old(rows), id).None?
      ensures rows == old(rows) + [company.(id := id)]
      ensures categoryRatings == old(categoryRatings)
    {
      id := nextID;
      assert forall k :: 0 <= k < |rows| ==> rows[k].id != id;
      rows := rows + [company.(id := id)];
      nextID := nextID + 1;
    }

    /** GetByID: the stored company, or "компания не найдена". */
    method GetByID(id: int) returns (r: Result<CompanyRow>)
      ensures r.Success? <==> FindByID(rows, id).Some?
      ensures r.Success? ==> r.value == FindByID(rows, id).value
      ensures r.Failure? ==> r.msg == "компания не найдена"
    {
      var found := FindByID(rows, id);
      if found.None? {
        return Failure("компания не найдена");
      }
      return Success(found.value);
    }

    /** GetBySlug: the company with that slug, or "компания не найдена". */
    method GetBySlug(slug: string) returns (r: Result<CompanyRow>)
      ensures r.Success? <==> FindBySlug(rows, slug).Some?
      ensures r.Success? ==> r.value == FindBySlug(rows, slug).value
      ensures r.Failure? ==> r.msg == "компания не найдена"
    {
      var found := FindBySlug(rows, slug);
      if found.None? {
        return Failure("компания не найдена");
      }
      return Success(found.value);
    }

    /** GetByName: the company with that name, or "компания не найдена". */
    method GetByName(name: string) returns (r: Result<CompanyRow>)
      ensures r.Success? <==> FindByName(rows, name).Some?
      ensures r.Success? ==> r.value == FindByName(rows, name).value
      ensures r.Failure? ==> r.msg == "компания не найдена"
    {
      var found := FindByName(rows, name);
      if found.None? {
        return Failure("компания не найдена");
      }
      return Success(found.value);
    }

    /** Update: writes every column but the id and created_at into the row
        with `company.id`. */
    method Update(company: CompanyRow)
      requires Valid()
      modifies this
      ensures Valid()
      ensures |rows| == |old(rows)|
      ensures forall k :: 0 <= k < |rows| ==>
        rows[k] == if old(rows)[k].id == company.id then company.(createdAt := old(rows)[k].createdAt) else old(rows)[k]
      ensures categoryRatings == old(categoryRatings)
    {
      var before := rows;
      rows := seq(|before|, k requires 0 <= k < |before| =>
        if before[k].id == company.id then company.(createdAt := before[k].createdAt) else before[k]);
    }

    /** AddCategoryRating: insert, or overwrite the rating on conflict. */
    method AddCategoryRating(companyID: int, categoryID: int, rating: real)
      modifies this
      ensures categoryRatings == old(categoryRatings)[(companyID, categoryID) := rating]
      ensures rows == old(rows) && nextID == old(nextID)
    {
      categoryRatings := categoryRatings[(companyID, categoryID) := rating];
    }

    /** UpdateRating: in one transaction, recompute the company's count,
        mean and recommendation percentage from the approved reviews, delete
        its category ratings and insert the per-category means of the
        approved reviews. Any failing statement rolls everything back. */
    method UpdateRating(companyID: int, reviews: seq<Reviews.ReviewRow>, reviewRatings: map<(int, int), real>,
                        now: int, failure: Failure) returns (r: Outcome)
      requires Valid()
      modifies this
      ensures Valid()
      ensures r.Done? <==> failure == NoFailure
      ensures r.Done? ==> rows == RecomputeRow(old(rows), companyID, reviews, now)
      ensures r.Done? ==> (categoryRatings ==
        RebuildCategories(old(categoryRatings), companyID, Aggregates.CategoryMeans(reviews, reviewRatings, companyID)))
      ensures r.Fail? ==> rows == old(rows) && categoryRatings == old(categoryRatings)
      ensures nextID == old(nextID)
    {
      var txRows := RecomputeRow(rows, companyID, reviews, now);
      if failure == UpdateFails {
        return Fail("ошибка при обновлении рейтинга компании");
      }
      var txRatings := DropCompany(categoryRatings, companyID);
      if failure == DeleteFails {
        return Fail("ошибка при удалении рейтингов компании по категориям");
      }
      var means := Aggregates.CategoryMeans(reviews, reviewRatings, companyID);
      txRatings := txRatings + MeanRows(companyID, means);
      if failure == InsertFails {
        return Fail("ошибка при обновлении рейтингов компании по категориям");
      }
      if failure == CommitFails {
        return Fail("ошибка при коммите транзакции");
      }
      rows, categoryRatings := txRows, txRatings;
      return Done;
    }
  }

  /** A successful UpdateRating leaves the company row holding exactly the
      aggregates of its approved reviews, and its category ratings exactly
      the per-category means. */
  lemma UpdateRatingStoresAggregates(rows: seq<CompanyRow>, companyID: int, reviews: seq<Reviews.ReviewRow>,
                                     ratings: map<(int, int), real>, reviewRatings: map<(int, int), real>,
                                     now: int, k: int, c: int)
    requires 0 <= k < |rows| && rows[k].id == companyID
    ensures var row := RecomputeRow(rows, companyID, reviews, now)[k];
      && row.reviewsCount == Aggregates.ReviewsCount(reviews, companyID)
      && row.averageRating == Aggregates.AverageRating(reviews, companyID)
      && row.recommendationPercent == Aggregates.RecommendationPercentage(reviews, companyID)
      && row.updatedAt == now
      && (row.name, row.slug, row.createdAt) == (rows[k].name, rows[k].slug, rows[k].createdAt)
    ensures var means := Aggregates.CategoryMeans(reviews, reviewRatings, companyID);
      ((companyID, c) in RebuildCategories(ratings, companyID, means) <==>
        exists r :: r in reviews && r.status == Reviews.Approved && r.companyID == companyID && (r.id, c) in reviewRatings)
  {
    var means := Aggregates.CategoryMeans(reviews, reviewRatings, companyID);
    RebuildCategoriesEffect(ratings, companyID, means, (companyID, c));
    Aggregates.CategoryMeansDomain(reviews, reviewRatings, companyID, c);
  }
}
