// The review entity: its moderation status, the row the reviews table
// holds, the in-memory object that handlers load, change field by field
// and write back, and the constructor that derives a new review's overall
// rating from its per-category ratings.

module Reviews {
  import opened Common

  datatype ReviewStatus = Pending | Approved | Rejected

  /** The text stored in the status column. */
  function StatusName(s: ReviewStatus): string
  {
    match s
    case Pending => "pending"
    case Approved => "approved"
    case Rejected => "rejected"
  }

  /** Reading a status column or an `oneof=pending approved rejected` field. */
  function ParseStatus(t: string): (r: Option<ReviewStatus>)
    ensures r.Some? ==> StatusName(r.value) == t
  {
    if t == "pending" then Some(Pending)
    else if t == "approved" then Some(Approved)
    else if t == "rejected" then Some(Rejected)
    else None
  }

  /** The three statuses have three distinct spellings, and nothing else parses. */
  lemma StatusNamesRoundTrip(s: ReviewStatus, t: string)
    ensures ParseStatus(StatusName(s)) == Some(s)
    ensures ParseStatus(t).None? <==> t !in {"pending", "approved", "rejected"}
  {
  }

  /** One row of the reviews table. Times are instants on an abstract clock;
      `isRecommended` is the is_recommended column that the repository and
      the company aggregates read. */
  datatype ReviewRow = ReviewRow(
    id: int,
    userID: int,
    companyID: int,
    position: string,
    employmentTypeID: Option<int>,
    employmentPeriodID: Option<int>,
    cityID: Option<int>,
    rating: real,
    pros: string,
    cons: string,
    isFormerEmployee: bool,
    isRecommended: bool,
    status: ReviewStatus,
    moderationComment: Option<string>,
    usefulCount: int,
    createdAt: int,
    updatedAt: int,
    approvedAt: Option<int>)

  /** The body of a create-review request. */
  datatype ReviewInput = ReviewInput(
    companyID: int,
    position: string,
    employmentTypeID: int,
    employmentPeriodID: int,
    cityID: int,
    categoryRatings: map<int, real>,
    pros: string,
    cons: string,
    benefitTypeIDs: seq<int>,
    isFormerEmployee: bool)

  /** What the binding tags of ReviewInput guarantee before a handler runs. */
  predicate ValidInput(input: ReviewInput) {
    && input.companyID >= 1
    && 2 <= |input.position| <= 100
    && input.employmentTypeID >= 1
    && input.employmentPeriodID >= 1
    && input.cityID >= 1
    && |input.categoryRatings| >= 1
    && (forall c :: c in input.categoryRatings ==> 1.0 <= input.categoryRatings[c] <= 5.0)
    && |input.pros| >= 10
    && |input.cons| >= 10
    && (forall k :: 0 <= k < |input.benefitTypeIDs| ==> input.benefitTypeIDs[k] >= 1)
  }

  /** The sum of the ratings stored under `keys`. */
  ghost function SumOver(m: map<int, real>, keys: set<int>): real
    requires keys <= m.Keys
  {
    if keys == {} then 0.0
    else
      NonEmptyHasElement(keys);
      var k :| k in keys;
      m[k] + SumOver(m, keys - {k})
  }

  lemma NonEmptyHasElement(s: set<int>)
    requires s != {}
    ensures exists x :: x in s
  {
    if forall x :: x !in s {
      assert false;
    }
  }

  /** The mean of a map's values, 0 for an empty map. */
  ghost function Mean(m: map<int, real>): real
  {
    if |m| == 0 then 0.0 else SumOver(m, m.Keys) / (|m| as real)
  }

  /** The sum does not depend on which key is taken out first. */
  lemma {:induction false} SumOverRemove(m: map<int, real>, keys: set<int>, x: int)
    requires keys <= m.Keys && x in keys
    ensures SumOver(m, keys) == m[x] + SumOver(m, keys - {x})
    decreases |keys|
  {
    var k :| k in keys && SumOver(m, keys) == m[k] + SumOver(m, keys - {k});
    if k != x {
      SumOverRemove(m, keys - {k}, x);
      SumOverRemove(m, keys - {x}, k);
      assert keys - {k} - {x} == keys - {x} - {k};
    }
  }

  /** Ratings between lo and hi sum to between |keys| * lo and |keys| * hi. */
  lemma SumOverBounds(m: map<int, real>, keys: set<int>, lo: real, hi: real)
    requires keys <= m.Keys
    requires forall k :: k in keys ==> lo <= m[k] <= hi
    ensures (|keys| as real) * lo <= SumOver(m, keys) <= (|keys| as real) * hi
  {
    SumOverAtLeast(m, keys, lo);
    SumOverAtMost(m, keys, hi);
    RepeatIsProduct(|keys|, lo);
    RepeatIsProduct(|keys|, hi);
  }

  /** n copies of x added up. */
  ghost function Repeat(n: nat, x: real): real
  {
    if n == 0 then 0.0 else Repeat(n - 1, x) + x
  }

  lemma {:induction false} RepeatIsProduct(n: nat, x: real)
    ensures Repeat(n, x) == (n as real) * x
  {
    if n > 0 {
      RepeatIsProduct(n - 1, x);
      Distribute((n - 1) as real, x);
    }
  }

  lemma {:induction false} SumOverAtLeast(m: map<int, real>, keys: set<int>, lo: real)
    requires keys <= m.Keys
    requires forall k :: k in keys ==> lo <= m[k]
    ensures Repeat(|keys|, lo) <= SumOver(m, keys)
    decreases |keys|
  {
    if keys != {} {
      NonEmptyHasElement(keys);
      var k :| k in keys;
      assert |keys| == |keys - {k}| + 1;
      SumOverAtLeast(m, keys - {k}, lo);
      SumOverRemove(m, keys, k);
    }
  }

  lemma {:induction false} SumOverAtMost(m: map<int, real>, keys: set<int>, hi: real)
    requires keys <= m.Keys
    requires forall k :: k in keys ==> m[k] <= hi
    ensures SumOver(m, keys) <= Repeat(|keys|, hi)
    decreases |keys|
  {
    if keys != {} {
      NonEmptyHasElement(keys);
      var k :| k in keys;
      assert |keys| == |keys - {k}| + 1;
      SumOverAtMost(m, keys - {k}, hi);
      SumOverRemove(m, keys, k);
    }
  }

  lemma Distribute(n: real, x: real)
    ensures (n + 1.0) * x == n * x + x
  {
  }

  /** A valid review input has between one and five stars on average. */
  lemma MeanOfValidInput(input: ReviewInput)
    requires ValidInput(input)
    ensures 1.0 <= Mean(input.categoryRatings) <= 5.0
  {
    var m := input.categoryRatings;
    SumOverBounds(m, m.Keys, 1.0, 5.0);
    assert |m| == |m.Keys|;
    QuotientBounds(SumOver(m, m.Keys), |m| as real, 1.0, 5.0);
  }

  lemma QuotientBounds(s: real, n: real, lo: real, hi: real)
    requires n > 0.0 && n * lo <= s <= n * hi
    ensures lo <= s / n <= hi
  {
    var q := s / n;
    assert q * n == s;
  }

  /** math.Round: the nearest integer, halves away from zero. */
  function RoundHalfAway(x: real): (n: int)
    ensures x - 0.5 <= n as real <= x + 0.5
  {
    if x >= 0.0 then (x + 0.5).Floor else -((-x + 0.5).Floor)
  }

  /** math.Round(x*10) / 10: x to one decimal place. */
  function RoundTenth(x: real): real
  {
    RoundHalfAway(x * 10.0) as real / 10.0
  }

  /** Rounding to a tenth moves a value by at most half a tenth, and keeps
      a mean of one to five stars between one and five. */
  lemma RoundTenthBounds(x: real)
    ensures x - 0.05 <= RoundTenth(x) <= x + 0.05
    ensures 1.0 <= x <= 5.0 ==> 1.0 <= RoundTenth(x) <= 5.0
  {
    var n := RoundHalfAway(x * 10.0);
    if 1.0 <= x <= 5.0 {
      assert 9.5 <= n as real <= 50.5;
      assert 10 <= n <= 50;
    }
  }

  /** One step of the summing loop: a key moves from the remaining keys to
      the summed ones, adding its rating to the sum and one to the count. */
  lemma SumOverAdd(m: map<int, real>, remaining: set<int>, done: set<int>, k: int)
    requires remaining + done == m.Keys && remaining !! done && k in remaining
    ensures (remaining - {k}) + (done + {k}) == m.Keys && (remaining - {k}) !! (done + {k})
    ensures |remaining - {k}| < |remaining|
    ensures SumOver(m, done + {k}) == SumOver(m, done) + m[k]
    ensures |done + {k}| == |done| + 1
  {
    SumOverRemove(m, done + {k}, k);
    assert done + {k} - {k} == done;
  }

  /** The loop of NewReview: the total and the count of the category
      ratings. */
  method SumRatings(ratings: map<int, real>) returns (total: real, count: nat)
    ensures total == SumOver(ratings, ratings.Keys)
    ensures count == |ratings|
  {
    total := 0.0;
    count := 0;
    var remaining := ratings.Keys;
    ghost var done: set<int> := {};
    while remaining != {}
      invariant remaining + done == ratings.Keys && remaining !! done
      invariant total == SumOver(ratings, done)
      invariant count == |done|
      decreases |remaining|
    {
      NonEmptyHasElement(remaining);
      var k :| k in remaining;
      SumOverAdd(ratings, remaining, done, k);
      total := total + ratings[k];
      count := count + 1;
      done := done + {k};
      remaining := remaining - {k};
    }
    assert done == ratings.Keys;
    assert |ratings| == |ratings.Keys|;
  }

  /** NewReview's rating: the mean of the category ratings rounded to one
      decimal, or 0 when there are none. */
  method AverageRating(ratings: map<int, real>) returns (avg: real)
    ensures avg == RoundTenth(Mean(ratings))
    ensures |ratings| == 0 ==> avg == 0.0
    ensures (forall c :: c in ratings ==> 1.0 <= ratings[c] <= 5.0) && |ratings| > 0 ==> 1.0 <= avg <= 5.0
  {
    var total, count := SumRatings(ratings);
    avg := 0.0;
    if count > 0 {
      avg := total / (count as real);
      avg := RoundHalfAway(avg * 10.0) as real / 10.0;
    } else {
      assert RoundTenth(0.0) == 0.0;
    }
    if (forall c :: c in ratings ==> 1.0 <= ratings[c] <= 5.0) && |ratings| > 0 {
      SumOverBounds(ratings, ratings.Keys, 1.0, 5.0);
      QuotientBounds(total, count as real, 1.0, 5.0);
      RoundTenthBounds(Mean(ratings));
    }
  }

  /** A review as handlers hold it: loaded from a row, changed field by
      field, and written back with the repository's Update. */
  class Review {
    var id: int
    var userID: int
    var companyID: int
    var position: string
    var employmentTypeID: Option<int>
    var employmentPeriodID: Option<int>
    var cityID: Option<int>
    var rating: real
    var pros: string
    var cons: string
    var isFormerEmployee: bool
    var isRecommended: bool
    var status: ReviewStatus
    var moderationComment: Option<string>
    var usefulCount: int
    var createdAt: int
    var updatedAt: int
    var approvedAt: Option<int>

    /** The row this object writes back. */
    function Row(): ReviewRow
      reads this
    {
      ReviewRow(id, userID, companyID, position, employmentTypeID, employmentPeriodID, cityID,
        rating, pros, cons, isFormerEmployee, isRecommended, status, moderationComment,
        usefulCount, createdAt, updatedAt, approvedAt)
    }

    /** Scanning a row into a fresh object. */
    constructor FromRow(row: ReviewRow)
      ensures Row() == row
    {
      id, userID, companyID, position := row.id, row.userID, row.companyID, row.position;
      employmentTypeID, employmentPeriodID, cityID := row.employmentTypeID, row.employmentPeriodID, row.cityID;
      rating, pros, cons := row.rating, row.pros, row.cons;
      isFormerEmployee, isRecommended, status := row.isFormerEmployee, row.isRecommended, row.status;
      moderationComment, usefulCount := row.moderationComment, row.usefulCount;
      createdAt, updatedAt, approvedAt := row.createdAt, row.updatedAt, row.approvedAt;
    }

    /** Approval: status approved, UpdatedAt and ApprovedAt set to `now`;
        an empty comment keeps the previous one. */
    method ApproveReview(comment: string, now: int)
      modifies this
      ensures Row() == old(Row()).(status := Approved, updatedAt := now, approvedAt := Some(now),
        moderationComment := if comment != "" then Some(comment) else old(moderationComment))
    {
      status := Approved;
      if comment != "" {
        moderationComment := Some(comment);
      }
      updatedAt := now;
      approvedAt := Some(now);
    }

    /** Rejection: status rejected and UpdatedAt set to `now`; ApprovedAt is
        left alone and an empty comment keeps the previous one. */
    method RejectReview(comment: string, now: int)
      modifies this
      ensures Row() == old(Row()).(status := Rejected, updatedAt := now,
        moderationComment := if comment != "" then Some(comment) else old(moderationComment))
    {
      status := Rejected;
      if comment != "" {
        moderationComment := Some(comment);
      }
      updatedAt := now;
    }
  }

  /** NewReview: a pending review by `userID` with no useful marks, created
      and updated at `now`, whose rating is the mean of its category ratings.
      The id is assigned when the row is inserted. */
  method NewReview(userID: int, input: ReviewInput, now: int) returns (r: Review)
    ensures fresh(r)
    ensures r.Row() == ReviewRow(0, userID, input.companyID, input.position,
      Some(input.employmentTypeID), Some(input.employmentPeriodID), Some(input.cityID),
      RoundTenth(Mean(input.categoryRatings)), input.pros, input.cons, input.isFormerEmployee, false,
      Pending, None, 0, now, now, None)
    ensures ValidInput(input) ==> 1.0 <= r.rating <= 5.0
  {
    var avg := AverageRating(input.categoryRatings);
    r := new Review.FromRow(ReviewRow(0, userID, input.companyID, input.position,
      Some(input.employmentTypeID), Some(input.employmentPeriodID), Some(input.cityID),
      avg, input.pros, input.cons, input.isFormerEmployee, false,
      Pending, None, 0, now, now, None));
  }
}
