// The public city endpoints: the filtered, paginated city list and the
// autocomplete search, which clamps its limit to at most 100 rows and
// always asks for the first page.

module CityHandlers {
  import opened Common
  import opened Text
  import Numbers
  import Pagination
  import Query
  import Ordering
  import CityRepository

  const InvalidParams: string := "Ошибка валидации параметров"
  const ListFailed: string := "Ошибка при получении городов"
  const QueryMissing: string := "Не указан поисковый запрос"
  const SearchFailed: string := "Ошибка при поиске городов"

  /** The autocomplete limit when none is given, and its ceiling. */
  const DefaultSearchLimit: int := 20
  const MaxSearchLimit: int := 100

  /** What the binding tags of CityFilter admit: a sort by name or region,
      an order asc or desc, a page of at least one and a limit between one
      and 100, zero and "" meaning "not given". */
  predicate ValidFilter(f: Query.CityFilter)
  {
    && f.sortBy in {"", "name", "region"}
    && f.sortOrder in {"", "asc", "desc"}
    && f.page >= 0
    && 0 <= f.limit <= 100
  }

  /** The filter GetCities completes with its defaults: page 1, ten rows,
      by name, ascending. */
  function WithDefaults(f: Query.CityFilter): (r: Query.CityFilter)
    ensures r.page >= 1 && r.limit >= 1
    ensures f.page >= 1 ==> r.page == f.page
    ensures f.limit >= 1 ==> r.limit == f.limit
    ensures r.sortBy != "" && r.sortOrder != ""
    ensures (r.search, r.country) == (f.search, f.country)
  {
    f.(page := if f.page <= 0 then 1 else f.page,
       limit := if f.limit <= 0 then 10 else f.limit,
       sortBy := if f.sortBy == "" then "name" else f.sortBy,
       sortOrder := if f.sortOrder == "" then "asc" else f.sortOrder)
  }

  /** A filter with nothing given lists the first ten cities by name,
      ascending; on a valid filter the defaults never change what the
      repository would have done with the bare filter. */
  lemma DefaultsAgreeWithRepository(rows: seq<CityRepository.City>, f: Query.CityFilter)
    requires ValidFilter(f)
    ensures CityRepository.Listed(rows, WithDefaults(f)) == CityRepository.Listed(rows, f)
    ensures f.sortBy == "" && f.sortOrder == "" && f.page == 0 && f.limit == 0 ==>
      CityRepository.Listed(rows, WithDefaults(f))
        == Pagination.PageRows(Ordering.SortBy(CityRepository.Filter(rows, f), CityRepository.CityName), 1, 10)
  {
    assert CityRepository.Filter(rows, WithDefaults(f)) == CityRepository.Filter(rows, f) by {
      FilterIgnoresOrder(rows, f, WithDefaults(f));
    }
  }

  /** The WHERE clause only looks at the search text and the country. */
  lemma {:induction false} FilterIgnoresOrder(rows: seq<CityRepository.City>, f: Query.CityFilter, g: Query.CityFilter)
    requires (f.search, f.country) == (g.search, g.country)
    ensures CityRepository.Filter(rows, f) == CityRepository.Filter(rows, g)
  {
    if |rows| > 0 {
      FilterIgnoresOrder(rows[1..], f, g);
    }
  }

  /** The defaults filled in one field at a time, as the handler does. */
  method FillDefaults(given: Query.CityFilter) returns (f: Query.CityFilter)
    ensures f == WithDefaults(given)
  {
    f := given;
    if f.page <= 0 {
      f := f.(page := 1);
    }
    if f.limit <= 0 {
      f := f.(limit := 10);
    }
    if f.sortBy == "" {
      f := f.(sortBy := "name");
    }
    if f.sortOrder == "" {
      f := f.(sortOrder := "asc");
    }
  }

  /** A page listed under the defaults holds at most the limit, and only
      cities of the table that match the filter as the client gave it. */
  lemma ListedUnderDefaults(rows: seq<CityRepository.City>, f: Query.CityFilter)
    ensures |CityRepository.Listed(rows, WithDefaults(f))| <= WithDefaults(f).limit
    ensures forall c :: c in CityRepository.Listed(rows, WithDefaults(f)) ==> c in rows && CityRepository.Matches(c, f)
  {
    CityRepository.ListedMatches(rows, WithDefaults(f));
  }

  /** The body of a successful city list. */
  datatype CityList = CityList(
    cities: seq<CityRepository.City>,
    total: nat,
    page: int,
    limit: int,
    pages: int)

  /** The list a successful GetCities answers with keeps to the limit,
      holds only matching cities of the table, and counts its pages as the
      ceiling of the matches over the limit. */
  lemma ListedPage(rows: seq<CityRepository.City>, given: Query.CityFilter)
    ensures var f := WithDefaults(given);
      var total := |CityRepository.Filter(rows, f)|;
      var l := CityList(CityRepository.Listed(rows, f), total, f.page, f.limit, Pagination.PageCount(total, f.limit));
      && |l.cities| <= l.limit
      && (forall c :: c in l.cities ==> c in rows && CityRepository.Matches(c, given))
      && l.pages * l.limit >= l.total
      && (l.total > 0 ==> (l.pages - 1) * l.limit < l.total)
  {
    var f := WithDefaults(given);
    ListedUnderDefaults(rows, given);
    Pagination.PageCountIsCeiling(|CityRepository.Filter(rows, f)|, f.limit);
  }

  /** GetCities: 400 for a query string that fails its binding tags, 500
      when the listing fails; otherwise the requested page of the matching
      cities under the defaults, the number of all matches and the page
      count, the ceiling of that number over the limit. */
  method GetCities(cities: CityRepository.CityStore, filter: Option<Query.CityFilter>, listFails: bool)
    returns (reply: Reply, list: Option<CityList>)
    ensures filter.None? || !ValidFilter(filter.value) ==> reply == Reply(BadRequest, InvalidParams) && list.None?
    ensures filter.Some? && ValidFilter(filter.value) && listFails ==>
      reply == Reply(InternalError, ListFailed) && list.None?
    ensures list.Some? <==> reply == Reply(Ok, "")
    ensures list.Some? <==> filter.Some? && ValidFilter(filter.value) && !listFails
    ensures list.Some? ==>
      var f := WithDefaults(filter.value);
      var l := list.value;
      && l.cities == CityRepository.Listed(cities.rows, f)
      && l.total == |CityRepository.Filter(cities.rows, f)|
      && (l.page, l.limit) == (f.page, f.limit)
      && |l.cities| <= l.limit
      && (forall c :: c in l.cities ==> c in cities.rows && CityRepository.Matches(c, filter.value))
      && l.pages * l.limit >= l.total
      && (l.total > 0 ==> (l.pages - 1) * l.limit < l.total)
  {
    if filter.None? || !ValidFilter(filter.value) {
      return Reply(BadRequest, InvalidParams), None;
    }
    var f := FillDefaults(filter.value);
    var page, total := cities.GetAll(f);
    if listFails {
      return Reply(InternalError, ListFailed), None;
    }
    var pages := Pagination.PageCount(total, f.limit);
    ListedPage(cities.rows, filter.value);
    return Reply(Ok, ""), Some(CityList(page, total, f.page, f.limit, pages));
  }

  /** The limit of a search: 20 unless the parameter is a positive
      integer, and then that integer but at most 100. */
  method SearchLimit(limitParam: string) returns (limit: int)
    ensures 1 <= limit <= MaxSearchLimit
    ensures Numbers.PositiveParam(limitParam) == 0 ==> limit == DefaultSearchLimit
    ensures Numbers.PositiveParam(limitParam) > 0 ==>
      limit == if Numbers.PositiveParam(limitParam) > MaxSearchLimit then MaxSearchLimit else Numbers.PositiveParam(limitParam)
  {
    limit := DefaultSearchLimit;
    if limitParam != "" {
      var parsed := Numbers.Atoi(limitParam);
      if parsed.Some? && parsed.value > 0 {
        limit := parsed.value;
        if limit > MaxSearchLimit {
          limit := MaxSearchLimit;
        }
      }
    }
  }

  /** SearchCities: 400 for an empty query, 500 when the listing fails;
      otherwise the first page of cities whose name or region contains the
      query, by name, at most the search limit of them. */
  method SearchCities(cities: CityRepository.CityStore, query: string, limitParam: string, searchFails: bool)
    returns (reply: Reply, found: Option<seq<CityRepository.City>>)
    ensures query == "" ==> reply == Reply(BadRequest, QueryMissing) && found.None?
    ensures query != "" && searchFails ==> reply == Reply(InternalError, SearchFailed) && found.None?
    ensures found.Some? <==> reply == Reply(Ok, "")
    ensures found.Some? <==> query != "" && !searchFails
    ensures found.Some? ==>
      var p := Numbers.PositiveParam(limitParam);
      var limit := if p == 0 then DefaultSearchLimit else if p > MaxSearchLimit then MaxSearchLimit else p;
      found.value == CityRepository.Listed(cities.rows, Query.CityFilter(query, "", "", "", 1, limit))
    ensures found.Some? ==> |found.value| <= MaxSearchLimit
    ensures found.Some? ==> forall c :: c in found.value ==>
      c in cities.rows && (ILike(c.name, query) || ILike(c.region, query))
  {
    if query == "" {
      return Reply(BadRequest, QueryMissing), None;
    }
    var limit := SearchLimit(limitParam);
    var f := Query.CityFilter(query, "", "", "", 1, limit);
    var page, _ := cities.GetAll(f);
    if searchFails {
      return Reply(InternalError, SearchFailed), None;
    }
    CityRepository.ListedMatches(cities.rows, f);
    return Reply(Ok, ""), Some(page);
  }
}
