// The review repository as an in-memory model of its tables: the reviews
// table, the per-category ratings of each review, the benefits a review
// lists, and the useful marks users put on reviews.

module ReviewRepository {
  import opened Common
  import opened Reviews
  import Query

  /** The row with id `id`, if any. */
  function Find(rows: seq<ReviewRow>, id: int): (r: Option<ReviewRow>)
    ensures r.Some? ==> r.value in rows && r.value.id == id
    ensures r.None? <==> forall k :: 0 <= k < |rows| ==> rows[k].id != id
  {
    if |rows| == 0 then None
    else if rows[0].id == id then Some(rows[0])
    else Find(rows[1..], id)
  }

  /** What the repository's UPDATE writes into a stored row: every SET
      column comes from `given`; the id, author, company, useful count and
      creation time stay as stored. */
  function Overwrite(stored: ReviewRow, given: ReviewRow): ReviewRow
  {
    stored.(position := given.position, employmentTypeID := given.employmentTypeID,
      employmentPeriodID := given.employmentPeriodID, cityID := given.cityID, rating := given.rating,
      pros := given.pros, cons := given.cons, isFormerEmployee := given.isFormerEmployee,
      isRecommended := given.isRecommended, status := given.status,
      moderationComment := given.moderationComment, updatedAt := given.updatedAt,
      approvedAt := given.approvedAt)
  }

  /** `UPDATE reviews SET ... WHERE id = given.id` on a list of rows. */
  function Replace(rows: seq<ReviewRow>, given: ReviewRow): (r: seq<ReviewRow>)
    ensures |r| == |rows|
  {
    seq(|rows|, k requires 0 <= k < |rows| => if rows[k].id == given.id then Overwrite(rows[k], given) else rows[k])
  }

  /** `DELETE FROM reviews WHERE id = id` on a list of rows. */
  function Remove(rows: seq<ReviewRow>, id: int): (r: seq<ReviewRow>)
    ensures |r| <= |rows|
  {
    if |rows| == 0 then []
    else if rows[0].id == id then Remove(rows[1..], id)
    else [rows[0]] + Remove(rows[1..], id)
  }

  /** An update touches only the row with the given id, and on that row
      only the SET columns: the author, company, useful count and creation
      time survive, and after the update the row reads back the given
      values. */
  lemma ReplaceEffect(rows: seq<ReviewRow>, given: ReviewRow, k: int)
    requires 0 <= k < |rows|
    ensures rows[k].id != given.id ==> Replace(rows, given)[k] == rows[k]
    ensures var r := Replace(rows, given)[k];
      && r.id == rows[k].id && r.userID == rows[k].userID && r.companyID == rows[k].companyID
      && r.usefulCount == rows[k].usefulCount && r.createdAt == rows[k].createdAt
    ensures rows[k].id == given.id ==>
      Replace(rows, given)[k] == given.(userID := rows[k].userID, companyID := rows[k].companyID,
        usefulCount := rows[k].usefulCount, createdAt := rows[k].createdAt)
  {
  }

  /** A delete removes exactly the rows with that id and keeps the others
      in order. */
  lemma {:induction false} RemoveEffect(rows: seq<ReviewRow>, id: int, x: ReviewRow)
    ensures x in Remove(rows, id) <==> x in rows && x.id != id
  {
    if |rows| > 0 {
      RemoveEffect(rows[1..], id, x);
      assert rows == [rows[0]] + rows[1..];
    }
  }

  /** A row the lookup finds sits at some index of the table. */
  lemma {:induction false} FindIndex(rows: seq<ReviewRow>, id: int) returns (k: int)
    requires Find(rows, id).Some?
    ensures 0 <= k < |rows| && rows[k] == Find(rows, id).value
  {
    if rows[0].id == id {
      k := 0;
    } else {
      var j := FindIndex(rows[1..], id);
      k := j + 1;
    }
  }

  /** `UPDATE reviews SET useful_count = useful_count + delta WHERE id = id`. */
  function AdjustUseful(rows: seq<ReviewRow>, id: int, delta: int): (r: seq<ReviewRow>)
    ensures |r| == |rows|
  {
    seq(|rows|, k requires 0 <= k < |rows| =>
      if rows[k].id == id then rows[k].(usefulCount := rows[k].usefulCount + delta) else rows[k])
  }

  /** Adjusting the useful count changes that one column of the rows with
      the id, and nothing else. */
  lemma AdjustUsefulEffect(rows: seq<ReviewRow>, id: int, delta: int, k: int)
    requires 0 <= k < |rows|
    ensures AdjustUseful(rows, id, delta)[k].id == rows[k].id
    ensures rows[k].id != id ==> AdjustUseful(rows, id, delta)[k] == rows[k]
    ensures rows[k].id == id ==>
      AdjustUseful(rows, id, delta)[k] == rows[k].(usefulCount := rows[k].usefulCount + delta)
  {
  }

  predicate UniqueIds(rows: seq<ReviewRow>)
  {
    forall i, j :: 0 <= i < j < |rows| ==> rows[i].id != rows[j].id
  }

  /** With unique ids, an update rewrites exactly the row holding the id. */
  lemma ReplaceOne(rows: seq<ReviewRow>, k: int, given: ReviewRow)
    requires UniqueIds(rows) && 0 <= k < |rows| && rows[k].id == given.id
    ensures Replace(rows, given) == rows[k := Overwrite(rows[k], given)]
  {
  }

  /** With unique ids, a delete drops exactly the row holding the id. */
  lemma {:induction false} RemoveOne(rows: seq<ReviewRow>, k: int)
    requires UniqueIds(rows) && 0 <= k < |rows|
    ensures Remove(rows, rows[k].id) == rows[..k] + rows[k + 1..]
  {
    if k == 0 {
      RemoveAbsent(rows[1..], rows[0].id);
      assert rows[..0] + rows[1..] == rows[1..];
    } else {
      RemoveOne(rows[1..], k - 1);
      assert rows[1..][..k - 1] == rows[1..k];
      assert rows[1..][k - 1 + 1..] == rows[k + 1..];
      assert rows[..k] == [rows[0]] + rows[1..k];
    }
  }

  lemma {:induction false} RemoveAbsent(rows: seq<ReviewRow>, id: int)
    requires forall k :: 0 <= k < |rows| ==> rows[k].id != id
    ensures Remove(rows, id) == rows
  {
    if |rows| > 0 {
      RemoveAbsent(rows[1..], id);
      assert rows == [rows[0]] + rows[1..];
    }
  }

  /** The model of the review tables. */
  class ReviewStore {
    /** The reviews table, in insertion order. */
    var rows: seq<ReviewRow>
    /** The id the next insert receives (the table's serial). */
    var nextID: int
    /** review_category_ratings: (review id, category id) to the rating. */
    var categoryRatings: map<(int, int), real>
    /** review_benefits: (review id, benefit type id) pairs, duplicates allowed. */
    var benefits: seq<(int, int)>
    /** useful_marks: (user id, review id) pairs, unique. */
    var usefulMarks: set<(int, int)>

    /** Ids are positive, below the serial, and unique. */
    predicate Valid()
      reads this
    {
      && nextID >= 1
      && (forall k :: 0 <= k < |rows| ==> 1 <= rows[k].id < nextID)
      && (forall i, j :: 0 <= i < j < |rows| ==> rows[i].id != rows[j].id)
    }

    constructor ()
      ensures Valid() && rows == [] && nextID == 1
      ensures categoryRatings == map[] && benefits == [] && usefulMarks == {}
    {
      rows, nextID := [], 1;
      categoryRatings, benefits, usefulMarks := map[], [], {};
    }

    /** Create: inserts the row under a fresh id and returns that id. */
    method Create(review: ReviewRow) returns (id: int)
      requires Valid()
      modifies this
      ensures Valid()
      ensures id == old(nextID) && nextID == id + 1
      ensures Find(old(rows), id).None?
      ensures rows == old(rows) + [review.(id := id)]
      ensures categoryRatings == old(categoryRatings) && benefits == old(benefits) && usefulMarks == old(usefulMarks)
    {
      id := nextID;
      assert forall k :: 0 <= k < |rows| ==> rows[k].id != id;
      rows := rows + [review.(id := id)];
      nextID := nextID + 1;
    }

    /** GetByID: the stored row, or "отзыв не найден". */
    method GetByID(id: int) returns (r: Result<ReviewRow>)
      ensures r.Success? <==> Find(rows, id).Some?
      ensures r.Success? ==> r.value == Find(rows, id).value && r.value in rows && r.value.id == id
      ensures r.Failure? ==> r.msg == "отзыв не найден"
    {
      var found := Find(rows, id);
      if found.None? {
        return Failure("отзыв не найден");
      }
      return Success(found.value);
    }

    /** Update: writes the SET columns of the row with `review.id`; no row
        with that id is not an error. */
    method Update(review: ReviewRow)
      requires Valid()
      modifies this
      ensures Valid()
      ensures rows == Replace(old(rows), review)
      ensures nextID == old(nextID) && categoryRatings == old(categoryRatings)
      ensures benefits == old(benefits) && usefulMarks == old(usefulMarks)
    {
      rows := Replace(rows, review);
    }

    /** Delete: removes the row with that id; no such row is not an error. */
    method Delete(id: int)
      requires Valid()
      modifies this
      ensures Valid()
      ensures rows == Remove(old(rows), id)
      ensures nextID == old(nextID) && categoryRatings == old(categoryRatings)
      ensures benefits == old(benefits) && usefulMarks == old(usefulMarks)
    {
      RemoveKeepsIds(rows, id, nextID);
      rows := Remove(rows, id);
    }

    /** AddCategoryRating: insert, or overwrite the rating on conflict. */
    method AddCategoryRating(reviewID: int, categoryID: int, rating: real)
      modifies this
      ensures categoryRatings == old(categoryRatings)[(reviewID, categoryID) := rating]
      ensures rows == old(rows) && nextID == old(nextID)
      ensures benefits == old(benefits) && usefulMarks == old(usefulMarks)
    {
      categoryRatings := categoryRatings[(reviewID, categoryID) := rating];
    }

    /** AddBenefit: a plain insert. */
    method AddBenefit(reviewID: int, benefitTypeID: int)
      modifies this
      ensures benefits == old(benefits) + [(reviewID, benefitTypeID)]
      ensures rows == old(rows) && nextID == old(nextID)
      ensures categoryRatings == old(categoryRatings) && usefulMarks == old(usefulMarks)
    {
      benefits := benefits + [(reviewID, benefitTypeID)];
    }

    /** MarkReviewAsUseful: adds one to the review's useful count. No
        handler calls it. */
    method MarkReviewAsUseful(reviewID: int)
      requires Valid()
      modifies this
      ensures Valid()
      ensures rows == AdjustUseful(old(rows), reviewID, 1)
      ensures nextID == old(nextID) && categoryRatings == old(categoryRatings)
      ensures benefits == old(benefits) && usefulMarks == old(usefulMarks)
    {
      rows := AdjustUseful(rows, reviewID, 1);
    }

    /** The decrement the corrected removal of a useful mark needs; the
        repository has no such method. */
    method UnmarkReviewAsUseful(reviewID: int)
      requires Valid()
      modifies this
      ensures Valid()
      ensures rows == AdjustUseful(old(rows), reviewID, -1)
      ensures nextID == old(nextID) && categoryRatings == old(categoryRatings)
      ensures benefits == old(benefits) && usefulMarks == old(usefulMarks)
    {
      rows := AdjustUseful(rows, reviewID, -1);
    }

    /** AddUsefulMark: insert, doing nothing on conflict, so adding a mark
        the user already has succeeds and changes nothing. */
    method AddUsefulMark(userID: int, reviewID: int)
      modifies this
      ensures usefulMarks == old(usefulMarks) + {(userID, reviewID)}
      ensures (userID, reviewID) in old(usefulMarks) ==> usefulMarks == old(usefulMarks)
      ensures rows == old(rows) && nextID == old(nextID)
      ensures categoryRatings == old(categoryRatings) && benefits == old(benefits)
    {
      usefulMarks := usefulMarks + {(userID, reviewID)};
    }

    /** RemoveUsefulMark: deletes that mark; no affected row is the error
        "отметка 'полезно' не найдена". */
    method RemoveUsefulMark(userID: int, reviewID: int) returns (r: Outcome)
      modifies this
      ensures r.Done? <==> (userID, reviewID) in old(usefulMarks)
      ensures r.Fail? ==> r.msg == "отметка 'полезно' не найдена"
      ensures usefulMarks == old(usefulMarks) - {(userID, reviewID)}
      ensures rows == old(rows) && nextID == old(nextID)
      ensures categoryRatings == old(categoryRatings) && benefits == old(benefits)
    {
      var affected := (userID, reviewID) in usefulMarks;
      usefulMarks := usefulMarks - {(userID, reviewID)};
      if !affected {
        return Fail("отметка 'полезно' не найдена");
      }
      return Done;
    }

    /** HasUserMarkedReviewAsUseful: whether the mark exists. */
    method HasUserMarkedReviewAsUseful(userID: int, reviewID: int) returns (marked: bool)
      ensures marked <==> (userID, reviewID) in usefulMarks
    {
      marked := (userID, reviewID) in usefulMarks;
    }

    /** GetUsefulMarksByReviews: for an empty id list an empty map and no
        query; otherwise the query with the user as $1 and the ids from $2
        on, whose result rows fill the map with true, one entry per id in
        the list that the user marked. */
    method GetUsefulMarksByReviews(userID: int, reviewIDs: seq<int>) returns (result: map<int, bool>)
      ensures forall id :: id in result <==> id in reviewIDs && (userID, id) in usefulMarks
      ensures forall id :: id in result ==> result[id]
      ensures |reviewIDs| == 0 ==> result == map[]
    {
      result := map[];
      var q := Query.UsefulMarksQuery(userID, reviewIDs);
      if q.None? {
        return;
      }
      var i := 0;
      while i < |reviewIDs|
        invariant 0 <= i <= |reviewIDs|
        invariant forall id :: id in result <==> id in reviewIDs[..i] && (userID, id) in usefulMarks
        invariant forall id :: id in result ==> result[id]
      {
        if (userID, reviewIDs[i]) in usefulMarks {
          result := result[reviewIDs[i] := true];
        }
        assert reviewIDs[..i + 1] == reviewIDs[..i] + [reviewIDs[i]];
        i := i + 1;
      }
      assert reviewIDs[..i] == reviewIDs;
    }
  }

  lemma {:induction false} RemoveKeepsIds(rows: seq<ReviewRow>, id: int, bound: int)
    requires forall k :: 0 <= k < |rows| ==> 1 <= rows[k].id < bound
    requires forall i, j :: 0 <= i < j < |rows| ==> rows[i].id != rows[j].id
    ensures forall k :: 0 <= k < |Remove(rows, id)| ==> 1 <= Remove(rows, id)[k].id < bound
    ensures forall i, j :: 0 <= i < j < |Remove(rows, id)| ==> Remove(rows, id)[i].id != Remove(rows, id)[j].id
  {
    if |rows| > 0 {
      RemoveKeepsIds(rows[1..], id, bound);
      var rest := Remove(rows[1..], id);
      forall x | x in rest
        ensures x.id != rows[0].id
      {
        RemoveEffect(rows[1..], id, x);
      }
    }
  }
}
