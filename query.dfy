// Query building in the listing repositories: each active filter appends a
// condition whose placeholders are numbered by a running counter, its
// values are appended to the argument list, LIMIT and OFFSET take the next
// two numbers, and the count query gets the filter arguments alone. The
// SQL text itself is not modelled; a condition records which column it
// tests, the values it binds and the placeholder numbers it uses.

module Query {
  import opened Common
  import opened Pagination
  import Reviews

  /** A bound argument of a query. */
  datatype Arg = IntArg(i: int) | TextArg(t: string) | RealArg(r: real) | BoolArg(b: bool)

  /** The column (or column group) a WHERE condition tests. */
  datatype Column =
    | StatusIs | CompanyIs | UserIs | RatingAtLeast | RatingAtMost | FormerEmployeeIs | CityIs
    | NameLike | IndustryIn | SizeIs | AverageRatingAtLeast | ReviewCityLike
    | NameOrRegionLike | CountryIs | TypeIs

  /** One condition: the column, the values it binds, and the placeholder
      number of each value. NameOrRegionLike mentions its one placeholder
      twice in the SQL text (name ILIKE $k OR region ILIKE $k). */
  datatype Condition = Condition(column: Column, values: seq<Arg>, placeholders: seq<int>)

  /** A listing query: its conditions, the arguments of the count query and
      of the data query, the LIMIT and OFFSET placeholder numbers, and the
      page window and sort order it applies. */
  datatype Listing = Listing(
    conds: seq<Condition>,
    countArgs: seq<Arg>,
    args: seq<Arg>,
    limitPlaceholder: int,
    offsetPlaceholder: int,
    page: int,
    limit: int,
    offset: int,
    sortBy: string,
    direction: Direction)

  /** The numbers lo, lo + 1, ..., hi - 1. */
  function Range(lo: int, hi: int): (r: seq<int>)
    requires lo <= hi
    ensures |r| == hi - lo && forall k :: 0 <= k < |r| ==> r[k] == lo + k
  {
    seq(hi - lo, k requires 0 <= k < hi - lo => lo + k)
  }

  /** All placeholder numbers of the conditions, in the order they appear. */
  function Flat(conds: seq<Condition>): seq<int>
  {
    if |conds| == 0 then [] else Flat(conds[..|conds| - 1]) + conds[|conds| - 1].placeholders
  }

  /** The column and values of each condition, without the numbering. */
  function Shape(conds: seq<Condition>): seq<(Column, seq<Arg>)>
  {
    if |conds| == 0 then [] else Shape(conds[..|conds| - 1]) + [(conds[|conds| - 1].column, conds[|conds| - 1].values)]
  }

  /** All bound values of the conditions, in the order they appear. */
  function Values(conds: seq<Condition>): seq<Arg>
  {
    if |conds| == 0 then [] else Values(conds[..|conds| - 1]) + conds[|conds| - 1].values
  }

  /** Every condition binds as many values as it has placeholders. */
  predicate Matched(conds: seq<Condition>)
  {
    |conds| == 0 || (Matched(conds[..|conds| - 1]) && |conds[|conds| - 1].values| == |conds[|conds| - 1].placeholders|)
  }

  /** The conditions number their placeholders first, first + 1, ... with
      no gap and no repeat up to the last argument, and their values, in
      order, are the arguments from position first on. */
  predicate Numbered(conds: seq<Condition>, args: seq<Arg>, first: int)
  {
    && 1 <= first <= |args| + 1
    && Matched(conds)
    && Flat(conds) == Range(first, |args| + 1)
    && Values(conds) == args[first - 1..]
  }

  /** LIMIT and OFFSET come right after the filter arguments, and the count
      query is given exactly the filter arguments. */
  predicate WellFormed(q: Listing, first: int)
  {
    && Numbered(q.conds, q.countArgs, first)
    && q.args == q.countArgs + [IntArg(q.limit), IntArg(q.offset)]
    && q.limitPlaceholder == |q.countArgs| + 1
    && q.offsetPlaceholder == |q.countArgs| + 2
  }

  /** The page window after the defaults: page 1 and limit 10 for
      non-positive values, offset (page - 1) * limit. */
  predicate Window(q: Listing, page: int, limit: int)
  {
    && q.page == NormalisePage(page)
    && q.limit == NormaliseLimit(limit)
    && q.offset == Offset(q.page, q.limit)
  }

  /** Under a numbering, placeholder $p of any condition is bound to
      args[p - 1], the value the condition tests at that position. */
  lemma {:induction false} NumberedBinds(conds: seq<Condition>, args: seq<Arg>, first: int, i: int, j: int)
    requires Numbered(conds, args, first)
    requires 0 <= i < |conds| && 0 <= j < |conds[i].placeholders|
    ensures |conds[i].values| == |conds[i].placeholders|
    ensures 1 <= conds[i].placeholders[j] <= |args|
    ensures args[conds[i].placeholders[j] - 1] == conds[i].values[j]
    decreases |conds|
  {
    var n := |conds| - 1;
    var init := conds[..n];
    var prefix := NumberedInit(conds, args, first);
    if i < n {
      assert conds[i] == init[i];
      NumberedBinds(init, prefix, first, i, j);
    } else {
      NumberedLast(conds, args, first, j);
    }
  }

  /** Dropping the last condition leaves a numbering of a prefix of the
      arguments. */
  lemma NumberedInit(conds: seq<Condition>, args: seq<Arg>, first: int) returns (prefix: seq<Arg>)
    requires Numbered(conds, args, first) && |conds| > 0
    ensures Numbered(conds[..|conds| - 1], prefix, first)
    ensures prefix == args[..|prefix|]
  {
    var n := |conds| - 1;
    var init, last := conds[..n], conds[n];
    MatchedLengths(init);
    var a := |Flat(init)|;
    prefix := args[..first - 1 + a];
    assert Flat(conds) == Flat(init) + last.placeholders;
    assert Values(conds) == Values(init) + last.values;
    assert Flat(init) == Flat(conds)[..a];
    assert Values(init) == Values(conds)[..a];
    assert Values(init) == prefix[first - 1..];
  }

  /** The last condition's placeholders are bound to its values. */
  lemma NumberedLast(conds: seq<Condition>, args: seq<Arg>, first: int, j: int)
    requires Numbered(conds, args, first) && |conds| > 0
    requires 0 <= j < |conds[|conds| - 1].placeholders|
    ensures |conds[|conds| - 1].values| == |conds[|conds| - 1].placeholders|
    ensures 1 <= conds[|conds| - 1].placeholders[j] <= |args|
    ensures args[conds[|conds| - 1].placeholders[j] - 1] == conds[|conds| - 1].values[j]
  {
    var n := |conds| - 1;
    var init, last := conds[..n], conds[n];
    MatchedLengths(init);
    var a := |Flat(init)|;
    assert Flat(conds) == Flat(init) + last.placeholders;
    assert Values(conds) == Values(init) + last.values;
    assert last.placeholders[j] == Flat(conds)[a + j];
    assert last.values[j] == Values(conds)[a + j];
  }

  /** Matched conditions bind as many values as they have placeholders. */
  lemma {:induction false} MatchedLengths(conds: seq<Condition>)
    requires Matched(conds)
    ensures |Values(conds)| == |Flat(conds)|
  {
    if |conds| > 0 {
      MatchedLengths(conds[..|conds| - 1]);
    }
  }

  /** Appending a condition whose values take the next |vs| numbers keeps
      the numbering intact. */
  lemma ExtendNumbered(conds: seq<Condition>, args: seq<Arg>, first: int, column: Column, vs: seq<Arg>)
    requires Numbered(conds, args, first)
    ensures Numbered(conds + [Condition(column, vs, Range(|args| + 1, |args| + |vs| + 1))], args + vs, first)
  {
    var c := Condition(column, vs, Range(|args| + 1, |args| + |vs| + 1));
    var conds' := conds + [c];
    assert conds'[..|conds|] == conds;
    assert Flat(conds') == Range(first, |args| + |vs| + 1);
    assert (args + vs)[first - 1..] == args[first - 1..] + vs;
  }

  lemma NumberedEmpty(args: seq<Arg>)
    ensures Numbered([], args, |args| + 1)
  {
    assert Flat([]) == Range(|args| + 1, |args| + 1);
  }

  /** The value a filter field binds, or None when the field is unset. */
  function IntOpt(o: Option<int>): (v: Option<Arg>)
    ensures v.Some? <==> o.Some?
  {
    if o.Some? then Some(IntArg(o.value)) else None
  }

  /** A city id filter that only a positive id turns on. */
  function PositiveOpt(o: Option<int>): (v: Option<Arg>)
    ensures v.Some? <==> o.Some? && o.value > 0
  {
    if o.Some? && o.value > 0 then Some(IntArg(o.value)) else None
  }

  function RealOpt(o: Option<real>): (v: Option<Arg>)
    ensures v.Some? <==> o.Some?
  {
    if o.Some? then Some(RealArg(o.value)) else None
  }

  function BoolOpt(o: Option<bool>): (v: Option<Arg>)
    ensures v.Some? <==> o.Some?
  {
    if o.Some? then Some(BoolArg(o.value)) else None
  }

  function StatusOpt(o: Option<Reviews.ReviewStatus>): (v: Option<Arg>)
    ensures v.Some? <==> o.Some?
  {
    if o.Some? then Some(TextArg(Reviews.StatusName(o.value))) else None
  }

  /** A text filter: on when non-empty, bound as given. */
  function TextOpt(t: string): (v: Option<Arg>)
    ensures v.Some? <==> t != ""
  {
    if t != "" then Some(TextArg(t)) else None
  }

  /** A substring search: on when non-empty, bound as the ILIKE pattern %t%. */
  function LikeOpt(t: string): (v: Option<Arg>)
    ensures v.Some? <==> t != ""
  {
    if t != "" then Some(TextArg("%" + t + "%")) else None
  }

  /** The condition a filter field contributes: none when unset. */
  function Opt(column: Column, v: Option<Arg>): seq<(Column, seq<Arg>)>
  {
    if v.Some? then [(column, [v.value])] else []
  }

  lemma ShapeAppend(conds: seq<Condition>, c: Condition)
    ensures Shape(conds + [c]) == Shape(conds) + [(c.column, c.values)]
  {
    assert (conds + [c])[..|conds|] == conds;
  }

  /** One `if filter set { add condition; append argument; argID++ }` step:
      when the field is set its condition takes the next placeholder and
      its value the next argument; otherwise nothing changes. */
  method AddIf(conds: seq<Condition>, args: seq<Arg>, ghost first: int, column: Column, v: Option<Arg>)
    returns (conds': seq<Condition>, args': seq<Arg>)
    requires Numbered(conds, args, first)
    ensures Numbered(conds', args', first)
    ensures Shape(conds') == Shape(conds) + Opt(column, v)
    ensures args' == args + (if v.Some? then [v.value] else [])
  {
    conds', args' := conds, args;
    if v.Some? {
      ShapeAppend(conds, Condition(column, [v.value], [|args| + 1]));
      ExtendNumbered(conds, args, first, column, [v.value]);
      assert Range(|args| + 1, |args| + 2) == [|args| + 1];
      conds' := conds + [Condition(column, [v.value], [|args| + 1])];
      args' := args + [v.value];
    }
  }

  /** The tail every listing shares: defaults for page and limit, the
      offset, LIMIT and OFFSET as the two placeholders after the filters,
      and the filter arguments alone for the count query. */
  method Paginate(conds: seq<Condition>, args: seq<Arg>, ghost first: int, page: int, limit: int,
                  sortBy: string, direction: Direction) returns (q: Listing)
    requires Numbered(conds, args, first)
    ensures WellFormed(q, first) && Window(q, page, limit)
    ensures q.conds == conds && q.countArgs == args
    ensures q.sortBy == sortBy && q.direction == direction
  {
    var p := NormalisePage(page);
    var l := NormaliseLimit(limit);
    var offset := Offset(p, l);
    q := Listing(conds, args, args + [IntArg(l), IntArg(offset)], |args| + 1, |args| + 2,
      p, l, offset, sortBy, direction);
  }

  /** Listing of reviews (getReviews). */
  datatype ReviewFilter = ReviewFilter(
    companyID: Option<int>,
    userID: Option<int>,
    status: Option<Reviews.ReviewStatus>,
    cityID: Option<int>,
    minRating: Option<real>,
    maxRating: Option<real>,
    isFormerEmployee: Option<bool>,
    sortBy: string,
    sortOrder: string,
    page: int,
    limit: int)

  /** The conditions getReviews adds, in its fixed order. */
  function ReviewConditions(f: ReviewFilter): seq<(Column, seq<Arg>)>
  {
    Opt(StatusIs, StatusOpt(f.status)) + Opt(CompanyIs, IntOpt(f.companyID)) + Opt(UserIs, IntOpt(f.userID))
    + Opt(RatingAtLeast, RealOpt(f.minRating)) + Opt(RatingAtMost, RealOpt(f.maxRating))
    + Opt(FormerEmployeeIs, BoolOpt(f.isFormerEmployee)) + Opt(CityIs, IntOpt(f.cityID))
  }

  /** getReviews: filters in the order status, company, user, minimum and
      maximum rating, former employee, city, numbered from $1; sort column
      created_at unless given; DESC unless the order is "asc". */
  method ReviewListing(f: ReviewFilter) returns (q: Listing)
    ensures WellFormed(q, 1)
    ensures Shape(q.conds) == ReviewConditions(f)
    ensures Window(q, f.page, f.limit)
    ensures q.sortBy == (if f.sortBy != "" then f.sortBy else "created_at")
    ensures q.direction == DescUnlessAsc(f.sortOrder)
  {
    var conds: seq<Condition> := [];
    var args: seq<Arg> := [];
    NumberedEmpty([]);
    assert Shape(conds) == [];
    conds, args := AddIf(conds, args, 1, StatusIs, StatusOpt(f.status));
    ghost var s := Opt(StatusIs, StatusOpt(f.status));
    assert Shape(conds) == s;
    conds, args := AddIf(conds, args, 1, CompanyIs, IntOpt(f.companyID));
    s := s + Opt(CompanyIs, IntOpt(f.companyID));
    conds, args := AddIf(conds, args, 1, UserIs, IntOpt(f.userID));
    s := s + Opt(UserIs, IntOpt(f.userID));
    conds, args := AddIf(conds, args, 1, RatingAtLeast, RealOpt(f.minRating));
    s := s + Opt(RatingAtLeast, RealOpt(f.minRating));
    conds, args := AddIf(conds, args, 1, RatingAtMost, RealOpt(f.maxRating));
    s := s + Opt(RatingAtMost, RealOpt(f.maxRating));
    conds, args := AddIf(conds, args, 1, FormerEmployeeIs, BoolOpt(f.isFormerEmployee));
    s := s + Opt(FormerEmployeeIs, BoolOpt(f.isFormerEmployee));
    conds, args := AddIf(conds, args, 1, CityIs, IntOpt(f.cityID));
    s := s + Opt(CityIs, IntOpt(f.cityID));
    assert Shape(conds) == s;
    var sortBy := if f.sortBy != "" then f.sortBy else "created_at";
    q := Paginate(conds, args, 1, f.page, f.limit, sortBy, DescUnlessAsc(f.sortOrder));
  }

  /** The conditions GetByUser adds after its fixed user_id = $1. */
  function UserReviewConditions(f: ReviewFilter): seq<(Column, seq<Arg>)>
  {
    Opt(StatusIs, StatusOpt(f.status)) + Opt(CompanyIs, IntOpt(f.companyID))
    + Opt(RatingAtLeast, RealOpt(f.minRating)) + Opt(CityIs, PositiveOpt(f.cityID))
  }

  /** GetByUser: the user id is $1 and the filters status, company, minimum
      rating and a positive city id are numbered from $2; the filter's own
      user id, maximum rating and former-employee flag are ignored. */
  method UserReviewListing(userID: int, f: ReviewFilter) returns (q: Listing)
    ensures WellFormed(q, 2)
    ensures q.countArgs[0] == IntArg(userID)
    ensures Shape(q.conds) == UserReviewConditions(f)
    ensures Window(q, f.page, f.limit)
    ensures q.sortBy == (if f.sortBy != "" then f.sortBy else "created_at")
    ensures q.direction == DescUnlessAsc(f.sortOrder)
  {
    var conds: seq<Condition> := [];
    var args: seq<Arg> := [IntArg(userID)];
    NumberedEmpty(args);
    assert Shape(conds) == [];
    conds, args := AddIf(conds, args, 2, StatusIs, StatusOpt(f.status));
    ghost var s := Opt(StatusIs, StatusOpt(f.status));
    assert Shape(conds) == s;
    conds, args := AddIf(conds, args, 2, CompanyIs, IntOpt(f.companyID));
    s := s + Opt(CompanyIs, IntOpt(f.companyID));
    conds, args := AddIf(conds, args, 2, RatingAtLeast, RealOpt(f.minRating));
    s := s + Opt(RatingAtLeast, RealOpt(f.minRating));
    conds, args := AddIf(conds, args, 2, CityIs, PositiveOpt(f.cityID));
    s := s + Opt(CityIs, PositiveOpt(f.cityID));
    assert Shape(conds) == s;
    var sortBy := if f.sortBy != "" then f.sortBy else "created_at";
    q := Paginate(conds, args, 2, f.page, f.limit, sortBy, DescUnlessAsc(f.sortOrder));
  }

  /** The conditions GetPending adds to its fixed status = 'pending'. */
  function PendingConditions(f: ReviewFilter): seq<(Column, seq<Arg>)>
  {
    Opt(CompanyIs, IntOpt(f.companyID)) + Opt(CityIs, PositiveOpt(f.cityID))
  }

  /** GetPending: company and a positive city id numbered from $1; ASC
      unless the order is "desc". */
  method PendingListing(f: ReviewFilter) returns (q: Listing)
    ensures WellFormed(q, 1)
    ensures Shape(q.conds) == PendingConditions(f)
    ensures Window(q, f.page, f.limit)
    ensures q.sortBy == (if f.sortBy != "" then f.sortBy else "created_at")
    ensures q.direction == AscUnlessDesc(f.sortOrder)
  {
    var conds: seq<Condition> := [];
    var args: seq<Arg> := [];
    NumberedEmpty([]);
    conds, args := AddIf(conds, args, 1, CompanyIs, IntOpt(f.companyID));
    conds, args := AddIf(conds, args, 1, CityIs, PositiveOpt(f.cityID));
    var sortBy := if f.sortBy != "" then f.sortBy else "created_at";
    q := Paginate(conds, args, 1, f.page, f.limit, sortBy, AscUnlessDesc(f.sortOrder));
  }

  /** Listing of companies (the company repository's GetAll). */
  datatype CompanyFilter = CompanyFilter(
    search: string,
    industries: seq<int>,
    size: string,
    minRating: Option<real>,
    city: string,
    cityID: Option<int>,
    sortBy: string,
    sortOrder: string,
    page: int,
    limit: int)

  function IntArgs(ids: seq<int>): (r: seq<Arg>)
    ensures |r| == |ids| && forall k :: 0 <= k < |ids| ==> r[k] == IntArg(ids[k])
  {
    seq(|ids|, k requires 0 <= k < |ids| => IntArg(ids[k]))
  }

  /** The IN condition over a list of ids: none for an empty list. */
  function InOpt(column: Column, ids: seq<int>): seq<(Column, seq<Arg>)>
  {
    if |ids| > 0 then [(column, IntArgs(ids))] else []
  }

  function CompanyConditions(f: CompanyFilter): seq<(Column, seq<Arg>)>
  {
    Opt(NameLike, LikeOpt(f.search)) + InOpt(IndustryIn, f.industries) + Opt(SizeIs, TextOpt(f.size))
    + Opt(AverageRatingAtLeast, RealOpt(f.minRating)) + Opt(ReviewCityLike, LikeOpt(f.city))
    + Opt(CityIs, IntOpt(f.cityID))
  }

  /** The industries step of the company GetAll: for a non-empty list, one
      placeholder per id, in input order, continuing the running count,
      each id appended to the arguments. */
  method AddInList(conds: seq<Condition>, args: seq<Arg>, ghost first: int, column: Column, ids: seq<int>)
    returns (conds': seq<Condition>, args': seq<Arg>)
    requires Numbered(conds, args, first)
    ensures Numbered(conds', args', first)
    ensures Shape(conds') == Shape(conds) + InOpt(column, ids)
    ensures args' == args + IntArgs(ids)
  {
    conds', args' := conds, args;
    if |ids| > 0 {
      var placeholders: seq<int> := [];
      var argID := |args| + 1;
      var i := 0;
      while i < |ids|
        invariant 0 <= i <= |ids|
        invariant args' == args + IntArgs(ids[..i])
        invariant argID == |args'| + 1
        invariant placeholders == Range(|args| + 1, argID)
      {
        placeholders := placeholders + [argID];
        args' := args' + [IntArg(ids[i])];
        argID := argID + 1;
        assert ids[..i + 1] == ids[..i] + [ids[i]];
        i := i + 1;
      }
      assert ids[..i] == ids;
      ExtendNumbered(conds, args, first, column, IntArgs(ids));
      ShapeAppend(conds, Condition(column, IntArgs(ids), placeholders));
      conds' := conds + [Condition(column, IntArgs(ids), placeholders)];
    } else {
      assert IntArgs(ids) == [];
    }
  }

  /** The sort switch of the company listing: four known keys, and the
      name column for anything else. */
  function CompanySortColumn(sortBy: string): (col: string)
    ensures col in {"c.name", "c.average_rating", "c.reviews_count", "c.created_at"}
    ensures sortBy == "rating" ==> col == "c.average_rating"
    ensures sortBy == "reviews_count" ==> col == "c.reviews_count"
    ensures sortBy == "created_at" ==> col == "c.created_at"
    ensures sortBy !in {"rating", "reviews_count", "created_at"} ==> col == "c.name"
  {
    if sortBy == "rating" then "c.average_rating"
    else if sortBy == "reviews_count" then "c.reviews_count"
    else if sortBy == "created_at" then "c.created_at"
    else "c.name"
  }

  /** The company GetAll: search, industries, size, minimum rating, city
      name and city id, numbered from $1; ASC unless the order is "desc". */
  method CompanyListing(f: CompanyFilter) returns (q: Listing)
    ensures WellFormed(q, 1)
    ensures Shape(q.conds) == CompanyConditions(f)
    ensures Window(q, f.page, f.limit)
    ensures q.sortBy == CompanySortColumn(f.sortBy)
    ensures q.direction == AscUnlessDesc(f.sortOrder)
  {
    var conds: seq<Condition> := [];
    var args: seq<Arg> := [];
    NumberedEmpty([]);
    assert Shape(conds) == [];
    conds, args := AddIf(conds, args, 1, NameLike, LikeOpt(f.search));
    ghost var s := Opt(NameLike, LikeOpt(f.search));
    assert Shape(conds) == s;
    conds, args := AddInList(conds, args, 1, IndustryIn, f.industries);
    s := s + InOpt(IndustryIn, f.industries);
    conds, args := AddIf(conds, args, 1, SizeIs, TextOpt(f.size));
    s := s + Opt(SizeIs, TextOpt(f.size));
    conds, args := AddIf(conds, args, 1, AverageRatingAtLeast, RealOpt(f.minRating));
    s := s + Opt(AverageRatingAtLeast, RealOpt(f.minRating));
    conds, args := AddIf(conds, args, 1, ReviewCityLike, LikeOpt(f.city));
    s := s + Opt(ReviewCityLike, LikeOpt(f.city));
    conds, args := AddIf(conds, args, 1, CityIs, IntOpt(f.cityID));
    s := s + Opt(CityIs, IntOpt(f.cityID));
    assert Shape(conds) == s;
    q := Paginate(conds, args, 1, f.page, f.limit, CompanySortColumn(f.sortBy), AscUnlessDesc(f.sortOrder));
  }

  /** Listing of cities. */
  datatype CityFilter = CityFilter(search: string, country: string, sortBy: string, sortOrder: string, page: int, limit: int)

  function CityConditions(f: CityFilter): seq<(Column, seq<Arg>)>
  {
    Opt(NameOrRegionLike, LikeOpt(f.search)) + Opt(CountryIs, TextOpt(f.country))
  }

  /** The city GetAll: the search pattern is one argument used for both
      name and region, the country takes the next placeholder; sort by name
      unless given, ASC unless "desc". */
  method CityListing(f: CityFilter) returns (q: Listing)
    ensures WellFormed(q, 1)
    ensures Shape(q.conds) == CityConditions(f)
    ensures Window(q, f.page, f.limit)
    ensures q.sortBy == (if f.sortBy != "" then f.sortBy else "name")
    ensures q.direction == AscUnlessDesc(f.sortOrder)
  {
    var conds: seq<Condition> := [];
    var args: seq<Arg> := [];
    NumberedEmpty([]);
    conds, args := AddIf(conds, args, 1, NameOrRegionLike, LikeOpt(f.search));
    conds, args := AddIf(conds, args, 1, CountryIs, TextOpt(f.country));
    var sortBy := if f.sortBy != "" then f.sortBy else "name";
    q := Paginate(conds, args, 1, f.page, f.limit, sortBy, AscUnlessDesc(f.sortOrder));
  }

  /** Listing of industries. */
  datatype IndustryFilter = IndustryFilter(search: string, sortBy: string, sortOrder: string, page: int, limit: int)

  /** The industry GetAll: an optional name search as $1; sort by name
      unless given, ASC unless "desc". */
  method IndustryListing(f: IndustryFilter) returns (q: Listing)
    ensures WellFormed(q, 1)
    ensures Shape(q.conds) == Opt(NameLike, LikeOpt(f.search))
    ensures Window(q, f.page, f.limit)
    ensures q.sortBy == (if f.sortBy != "" then f.sortBy else "name")
    ensures q.direction == AscUnlessDesc(f.sortOrder)
  {
    var conds: seq<Condition> := [];
    var args: seq<Arg> := [];
    NumberedEmpty([]);
    conds, args := AddIf(conds, args, 1, NameLike, LikeOpt(f.search));
    var sortBy := if f.sortBy != "" then f.sortBy else "name";
    q := Paginate(conds, args, 1, f.page, f.limit, sortBy, AscUnlessDesc(f.sortOrder));
  }

  /** Listing of suggestions. */
  datatype SuggestionFilter = SuggestionFilter(kind: string, sortOrder: string, page: int, limit: int)

  /** The suggestion GetAll: with a type filter the type is $1 and LIMIT and
      OFFSET are $2 and $3, without it they are $1 and $2; always ordered by
      creation time, DESC unless "asc". */
  method SuggestionListing(f: SuggestionFilter) returns (q: Listing)
    ensures WellFormed(q, 1)
    ensures Shape(q.conds) == Opt(TypeIs, TextOpt(f.kind))
    ensures (q.limitPlaceholder, q.offsetPlaceholder) == (if f.kind != "" then (2, 3) else (1, 2))
    ensures Window(q, f.page, f.limit)
    ensures q.sortBy == "created_at"
    ensures q.direction == DescUnlessAsc(f.sortOrder)
  {
    var conds: seq<Condition> := [];
    var args: seq<Arg> := [];
    NumberedEmpty([]);
    conds, args := AddIf(conds, args, 1, TypeIs, TextOpt(f.kind));
    q := Paginate(conds, args, 1, f.page, f.limit, "created_at", DescUnlessAsc(f.sortOrder));
  }

  /** An IN list over ids: one placeholder per id, numbered from `first`,
      bound to the ids in order. */
  method InList(ids: seq<int>, first: int) returns (placeholders: seq<int>, args: seq<Arg>)
    requires first >= 1
    ensures placeholders == Range(first, first + |ids|)
    ensures args == IntArgs(ids)
  {
    placeholders, args := [], [];
    var i := 0;
    while i < |ids|
      invariant 0 <= i <= |ids|
      invariant placeholders == Range(first, first + i)
      invariant args == IntArgs(ids[..i])
    {
      placeholders := placeholders + [first + i];
      args := args + [IntArg(ids[i])];
      assert ids[..i + 1] == ids[..i] + [ids[i]];
      i := i + 1;
    }
    assert ids[..i] == ids;
  }

  /** GetByIDs: no query at all for an empty list; otherwise $1..$n bound
      to the ids. */
  method IdListQuery(ids: seq<int>) returns (r: Option<(seq<int>, seq<Arg>)>)
    ensures r.None? <==> |ids| == 0
    ensures r.Some? ==> r.value.0 == Range(1, |ids| + 1) && r.value.1 == IntArgs(ids)
  {
    if |ids| == 0 {
      return None;
    }
    var placeholders, args := InList(ids, 1);
    r := Some((placeholders, args));
  }

  /** GetUsefulMarksByReviews: the user id is $1 and the review ids take
      $2..$(n+1); an empty id list sends no query. */
  method UsefulMarksQuery(userID: int, reviewIDs: seq<int>) returns (r: Option<(seq<int>, seq<Arg>)>)
    ensures r.None? <==> |reviewIDs| == 0
    ensures r.Some? ==> r.value.0 == Range(2, |reviewIDs| + 2) && r.value.1 == [IntArg(userID)] + IntArgs(reviewIDs)
  {
    if |reviewIDs| == 0 {
      return None;
    }
    var placeholders, args := InList(reviewIDs, 2);
    r := Some((placeholders, [IntArg(userID)] + args));
  }
}
