// Pagination and sort-order arithmetic that every listing repeats:
// page and limit defaults, the row offset of a page, the page count
// reported to clients, and the two ways the repositories read a sort order.

module Pagination {

  const DefaultPage: int := 1
  const DefaultLimit: int := 10

  /** A non-positive page means the first page. */
  function NormalisePage(page: int): (p: int)
    ensures p >= 1
    ensures page >= 1 ==> p == page
  {
    if page <= 0 then DefaultPage else page
  }

  /** A non-positive limit means ten rows per page. */
  function NormaliseLimit(limit: int): (l: int)
    ensures l >= 1
    ensures limit >= 1 ==> l == limit
  {
    if limit <= 0 then DefaultLimit else limit
  }

  /** The number of rows before page `page`: (page - 1) * limit. */
  function Offset(page: int, limit: int): (o: int)
    requires page >= 1 && limit >= 1
    ensures o >= 0
  {
    (page - 1) * limit
  }

  /** The "pages" field of a listing: (total + limit - 1) / limit with Go's
      truncating division, which on these non-negative operands is
      Dafny's division. */
  function PageCount(total: int, limit: int): int
    requires total >= 0 && limit >= 1
  {
    (total + limit - 1) / limit
  }

  /** The page count is the ceiling of total / limit: enough pages to hold
      every row, and no page more than that. */
  lemma PageCountIsCeiling(total: int, limit: int)
    requires total >= 0 && limit >= 1
    ensures PageCount(total, limit) * limit >= total
    ensures total > 0 ==> (PageCount(total, limit) - 1) * limit < total
    ensures total == 0 ==> PageCount(total, limit) == 0
  {
    var q := PageCount(total, limit);
    var r := (total + limit - 1) % limit;
    assert total + limit - 1 == q * limit + r;
  }

  /** Every row of a listing lies on exactly one page, and that page is
      within the reported page count. */
  lemma RowOnOnePage(i: int, total: int, limit: int)
    requires 0 <= i < total && limit >= 1
    ensures var p := i / limit + 1;
      1 <= p <= PageCount(total, limit) && Offset(p, limit) <= i < Offset(p, limit) + limit
    ensures forall p :: p >= 1 && Offset(p, limit) <= i < Offset(p, limit) + limit ==> p == i / limit + 1
  {
    var p := i / limit + 1;
    RowOnItsPage(i, limit);
    PageWithinCount(i, total, limit);
    forall q | q >= 1 && Offset(q, limit) <= i < Offset(q, limit) + limit
      ensures q == p
    {
      DivUnique(i, limit, q - 1);
    }
  }

  /** Row i lies on page i / limit + 1. */
  lemma RowOnItsPage(i: int, limit: int)
    requires i >= 0 && limit >= 1
    ensures Offset(i / limit + 1, limit) <= i < Offset(i / limit + 1, limit) + limit
  {
    var d := i / limit;
    assert Offset(d + 1, limit) == d * limit;
    assert i == d * limit + i % limit;
  }

  /** The page of a row before `total` is within the page count. */
  lemma PageWithinCount(i: int, total: int, limit: int)
    requires 0 <= i < total && limit >= 1
    ensures 1 <= i / limit + 1 <= PageCount(total, limit)
  {
    PageCountIsCeiling(total, limit);
    RowOnItsPage(i, limit);
    var n := PageCount(total, limit);
    var p := i / limit + 1;
    if n < p {
      MulMonotone(n, p - 1, limit);
    }
  }

  lemma MulMonotone(a: int, b: int, c: int)
    requires a <= b && c >= 0
    ensures a * c <= b * c
  {
  }

  /** The quotient is the only d with d * limit <= i < d * limit + limit. */
  lemma DivUnique(i: int, limit: int, d: int)
    requires limit >= 1 && d * limit <= i < d * limit + limit
    ensures d == i / limit
  {
    var m := i / limit;
    if d < m {
      MulMonotone(d + 1, m, limit);
    } else if d > m {
      MulMonotone(m + 1, d, limit);
    }
  }

  datatype Direction = Asc | Desc

  /** getReviews, GetByUser, the suggestion list: DESC unless "asc". */
  function DescUnlessAsc(order: string): (d: Direction)
    ensures d == Asc <==> order == "asc"
  {
    if order == "asc" then Asc else Desc
  }

  /** GetPending and the company, city and industry lists: ASC unless "desc". */
  function AscUnlessDesc(order: string): (d: Direction)
    ensures d == Desc <==> order == "desc"
  {
    if order == "desc" then Desc else Asc
  }

  /** `LIMIT limit OFFSET Offset(page, limit)` on an ordered result: the
      rows of that page, fewer on the last page, none past the end. */
  function PageRows<T>(rows: seq<T>, page: int, limit: int): (r: seq<T>)
    requires page >= 1 && limit >= 1
    ensures |r| <= limit
    ensures forall k :: 0 <= k < |r| ==> Offset(page, limit) + k < |rows| && r[k] == rows[Offset(page, limit) + k]
    ensures |r| == if Offset(page, limit) >= |rows| then 0
                   else if |rows| - Offset(page, limit) < limit then |rows| - Offset(page, limit)
                   else limit
  {
    var lo := if Offset(page, limit) < |rows| then Offset(page, limit) else |rows|;
    var hi := if Offset(page, limit) + limit < |rows| then Offset(page, limit) + limit else |rows|;
    rows[lo..hi]
  }
}
