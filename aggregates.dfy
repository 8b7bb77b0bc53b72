// The aggregates UpdateRating stores on a company, computed from the
// reviews table: the number of approved reviews, their mean rating, the
// share of them that recommend the company, and per rating category the
// mean of the approved reviews' category ratings. Floating point is
// replaced by exact rationals; rounding is not modelled.

module Aggregates {
  import opened Reviews

  /** The company's approved reviews, in table order. */
  function Approved(rows: seq<ReviewRow>, companyID: int): seq<ReviewRow>
  {
    if |rows| == 0 then []
    else
      var head := if rows[0].status == Reviews.Approved && rows[0].companyID == companyID then [rows[0]] else [];
      head + Approved(rows[1..], companyID)
  }

  function RatingSum(rs: seq<ReviewRow>): real
  {
    if |rs| == 0 then 0.0 else rs[0].rating + RatingSum(rs[1..])
  }

  function RecommendedCount(rs: seq<ReviewRow>): nat
  {
    if |rs| == 0 then 0 else (if rs[0].isRecommended then 1 else 0) + RecommendedCount(rs[1..])
  }

  /** reviews_count: COUNT(*) over the approved reviews. */
  function ReviewsCount(rows: seq<ReviewRow>, companyID: int): nat
  {
    |Approved(rows, companyID)|
  }

  /** average_rating: AVG(rating) over the approved reviews, 0 when none. */
  function AverageRating(rows: seq<ReviewRow>, companyID: int): real
  {
    var a := Approved(rows, companyID);
    if |a| == 0 then 0.0 else RatingSum(a) / (|a| as real)
  }

  /** recommendation_percentage: 100 * recommended / approved, 0 when none. */
  function RecommendationPercentage(rows: seq<ReviewRow>, companyID: int): real
  {
    var a := Approved(rows, companyID);
    if |a| == 0 then 0.0 else (RecommendedCount(a) as real) * 100.0 / (|a| as real)
  }

  /** The ratings that the reviews `rs` gave in `category`. */
  function CategoryScores(rs: seq<ReviewRow>, ratings: map<(int, int), real>, category: int): seq<real>
  {
    if |rs| == 0 then []
    else
      var head := if (rs[0].id, category) in ratings then [ratings[(rs[0].id, category)]] else [];
      head + CategoryScores(rs[1..], ratings, category)
  }

  function Sum(xs: seq<real>): real
  {
    if |xs| == 0 then 0.0 else xs[0] + Sum(xs[1..])
  }

  predicate HasReview(rs: seq<ReviewRow>, reviewID: int) {
    exists k :: 0 <= k < |rs| && rs[k].id == reviewID
  }

  /** The categories some review of `rs` was rated in. */
  function RatedCategories(rs: seq<ReviewRow>, ratings: map<(int, int), real>): set<int>
  {
    set p | p in ratings.Keys && HasReview(rs, p.0) :: p.1
  }

  /** The company_category_ratings rows of the company: one per category
      its approved reviews were rated in, holding the mean of those ratings. */
  function CategoryMeans(rows: seq<ReviewRow>, ratings: map<(int, int), real>, companyID: int): map<int, real>
  {
    var a := Approved(rows, companyID);
    map c | c in RatedCategories(a, ratings) ::
      var xs := CategoryScores(a, ratings, c); if |xs| == 0 then 0.0 else Sum(xs) / (|xs| as real)
  }

  // ---- what the aggregates depend on ----

  /** A row is counted exactly when it is an approved review of the company. */
  lemma {:induction false} ApprovedMembership(rows: seq<ReviewRow>, companyID: int, x: ReviewRow)
    ensures x in Approved(rows, companyID) <==> x in rows && x.status == Reviews.Approved && x.companyID == companyID
  {
    if |rows| > 0 {
      ApprovedMembership(rows[1..], companyID, x);
      assert rows == [rows[0]] + rows[1..];
    }
  }

  lemma {:induction false} ApprovedAppend(xs: seq<ReviewRow>, ys: seq<ReviewRow>, companyID: int)
    ensures Approved(xs + ys, companyID) == Approved(xs, companyID) + Approved(ys, companyID)
  {
    if |xs| > 0 {
      ApprovedAppend(xs[1..], ys, companyID);
      assert (xs + ys)[1..] == xs[1..] + ys;
    } else {
      assert xs + ys == ys;
    }
  }

  /** A pending or rejected review, or a review of another company, never
      moves any aggregate: inserting it anywhere leaves them all as they
      were. */
  lemma IgnoresOtherRows(before: seq<ReviewRow>, row: ReviewRow, after: seq<ReviewRow>,
                         ratings: map<(int, int), real>, companyID: int)
    requires row.status != Reviews.Approved || row.companyID != companyID
    ensures Approved(before + [row] + after, companyID) == Approved(before + after, companyID)
    ensures ReviewsCount(before + [row] + after, companyID) == ReviewsCount(before + after, companyID)
    ensures AverageRating(before + [row] + after, companyID) == AverageRating(before + after, companyID)
    ensures RecommendationPercentage(before + [row] + after, companyID) == RecommendationPercentage(before + after, companyID)
    ensures CategoryMeans(before + [row] + after, ratings, companyID) == CategoryMeans(before + after, ratings, companyID)
  {
    ApprovedAppend(before + [row], after, companyID);
    ApprovedAppend(before, [row], companyID);
    ApprovedAppend(before, after, companyID);
    assert Approved([row], companyID) == [];
  }

  /** Replacing one not yet approved review of the company by an approved
      review of it adds exactly one to its review count. */
  lemma ApprovalAddsOne(rows: seq<ReviewRow>, i: int, approved: ReviewRow, companyID: int)
    requires 0 <= i < |rows| && rows[i].status != Reviews.Approved && rows[i].companyID == companyID
    requires approved.status == Reviews.Approved && approved.companyID == companyID
    ensures ReviewsCount(rows[i := approved], companyID) == ReviewsCount(rows, companyID) + 1
  {
    var rows' := rows[i := approved];
    assert rows == rows[..i] + [rows[i]] + rows[i + 1..];
    assert rows' == rows[..i] + [approved] + rows[i + 1..];
    ApprovedAppend(rows[..i] + [rows[i]], rows[i + 1..], companyID);
    ApprovedAppend(rows[..i], [rows[i]], companyID);
    ApprovedAppend(rows[..i] + [approved], rows[i + 1..], companyID);
    ApprovedAppend(rows[..i], [approved], companyID);
  }

  /** Rewriting one row leaves a company's approved reviews as they were
      when neither the old nor the new row is an approved review of it. */
  lemma ApprovedAfterWrite(rows: seq<ReviewRow>, k: int, row: ReviewRow, companyID: int)
    requires 0 <= k < |rows|
    requires rows[k].status != Reviews.Approved || rows[k].companyID != companyID
    requires row.status != Reviews.Approved || row.companyID != companyID
    ensures Approved(rows[k := row], companyID) == Approved(rows, companyID)
  {
    assert rows == rows[..k] + [rows[k]] + rows[k + 1..];
    assert rows[k := row] == rows[..k] + [row] + rows[k + 1..];
    IgnoresOtherRows(rows[..k], rows[k], rows[k + 1..], map[], companyID);
    IgnoresOtherRows(rows[..k], row, rows[k + 1..], map[], companyID);
  }

  /** Dropping one row leaves a company's approved reviews as they were
      when the row is not an approved review of it. */
  lemma ApprovedAfterDrop(rows: seq<ReviewRow>, k: int, companyID: int)
    requires 0 <= k < |rows|
    requires rows[k].status != Reviews.Approved || rows[k].companyID != companyID
    ensures Approved(rows[..k] + rows[k + 1..], companyID) == Approved(rows, companyID)
  {
    assert rows == rows[..k] + [rows[k]] + rows[k + 1..];
    IgnoresOtherRows(rows[..k], rows[k], rows[k + 1..], map[], companyID);
  }

  // ---- bounds ----

  lemma {:induction false} RecommendedAtMost(rs: seq<ReviewRow>)
    ensures RecommendedCount(rs) <= |rs|
  {
    if |rs| > 0 {
      RecommendedAtMost(rs[1..]);
    }
  }

  lemma {:induction false} RatingSumBounds(rs: seq<ReviewRow>, lo: real, hi: real)
    requires forall k :: 0 <= k < |rs| ==> lo <= rs[k].rating <= hi
    ensures (|rs| as real) * lo <= RatingSum(rs) <= (|rs| as real) * hi
  {
    if |rs| > 0 {
      RatingSumBounds(rs[1..], lo, hi);
      Reviews.Distribute((|rs| - 1) as real, lo);
      Reviews.Distribute((|rs| - 1) as real, hi);
    }
  }

  /** The recommendation percentage is always between 0 and 100. */
  lemma PercentageBounds(rows: seq<ReviewRow>, companyID: int)
    ensures 0.0 <= RecommendationPercentage(rows, companyID) <= 100.0
  {
    var a := Approved(rows, companyID);
    if |a| > 0 {
      RecommendedAtMost(a);
      var r := RecommendedCount(a) as real;
      var n := |a| as real;
      assert r * 100.0 <= n * 100.0;
      Reviews.QuotientBounds(r * 100.0, n, 0.0, 100.0);
    }
  }

  /** With approved ratings between 1 and 5, the average is between 1 and
      5 as soon as there is one approved review. */
  lemma AverageBounds(rows: seq<ReviewRow>, companyID: int)
    requires forall k :: 0 <= k < |rows| ==> 1.0 <= rows[k].rating <= 5.0
    requires ReviewsCount(rows, companyID) > 0
    ensures 1.0 <= AverageRating(rows, companyID) <= 5.0
  {
    var a := Approved(rows, companyID);
    forall k | 0 <= k < |a|
      ensures 1.0 <= a[k].rating <= 5.0
    {
      ApprovedMembership(rows, companyID, a[k]);
    }
    RatingSumBounds(a, 1.0, 5.0);
    Reviews.QuotientBounds(RatingSum(a), |a| as real, 1.0, 5.0);
  }

  /** A category has a company rating exactly when an approved review of
      the company was rated in it. */
  lemma CategoryMeansDomain(rows: seq<ReviewRow>, ratings: map<(int, int), real>, companyID: int, c: int)
    ensures c in CategoryMeans(rows, ratings, companyID) <==>
      exists r :: r in rows && r.status == Reviews.Approved && r.companyID == companyID && (r.id, c) in ratings
  {
    var a := Approved(rows, companyID);
    if c in CategoryMeans(rows, ratings, companyID) {
      var p :| p in ratings.Keys && HasReview(a, p.0) && p.1 == c;
      var k :| 0 <= k < |a| && a[k].id == p.0;
      ApprovedMembership(rows, companyID, a[k]);
    }
    if exists r :: r in rows && r.status == Reviews.Approved && r.companyID == companyID && (r.id, c) in ratings {
      var r :| r in rows && r.status == Reviews.Approved && r.companyID == companyID && (r.id, c) in ratings;
      ApprovedMembership(rows, companyID, r);
      var k :| 0 <= k < |a| && a[k] == r;
      assert HasReview(a, r.id);
      assert (r.id, c) in ratings.Keys;
    }
  }
}
