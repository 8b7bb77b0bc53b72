// The public company handlers: the filtered company list, one company by
// id or slug, and company creation by an administrator, with the parser
// of the `industries` query parameter.

module CompanyHandlers {
  import opened Common
  import opened Text
  import Users
  import Numbers
  import Pagination
  import Query
  import Slug
  import Companies
  import CompanyRepository
  import IndustryRepository
  import CityRepository

  const AuthRequired: string := "Требуется авторизация"
  const Invalid: string := "Ошибка валидации"
  const InvalidParams: string := "Ошибка валидации параметров"
  const ListFailed: string := "Ошибка при получении компаний"
  const CompanyNotFound: string := "Компания не найдена"
  const NoCreateRights: string := "Недостаточно прав для создания компании"
  const NameTaken: string := "Компания с таким названием уже существует"
  const IndustriesMissing: string := "Одна или несколько указанных отраслей не существуют"
  const CityMissing: string := "Указанный город не существует"
  const SaveFailed: string := "Ошибка при сохранении компании"
  const SlugFailed: string := "Ошибка при обновлении slug компании"
  const LinkFailed: string := "Ошибка при добавлении отрасли к компании"
  const RereadFailed: string := "Ошибка при получении информации о созданной компании"

  // ---------------------------------------------------------------------
  // The `industries` query parameter

  /** Each comma-separated piece, trimmed of white space, as a number. */
  function Converted(pieces: seq<string>): (r: seq<Option<int>>)
    ensures |r| == |pieces|
  {
    seq(|pieces|, k requires 0 <= k < |pieces| => Numbers.Atoi(TrimSpace(pieces[k])))
  }

  /** No list if one piece is not a number, otherwise the positive ids in
      order (zero and negative ids are dropped). */
  function KeepPositive(vals: seq<Option<int>>): (r: Option<seq<int>>)
    ensures r.Some? ==> |r.value| <= |vals| && forall k :: 0 <= k < |r.value| ==> r.value[k] > 0
    decreases |vals|
  {
    if |vals| == 0 then Some([])
    else
      var init := KeepPositive(vals[..|vals| - 1]);
      var last := vals[|vals| - 1];
      if init.None? || last.None? then None
      else if last.value > 0 then Some(init.value + [last.value])
      else init
  }

  /** One piece that is not a number fails the whole list... */
  lemma {:induction false} BadPieceFails(vals: seq<Option<int>>, k: int)
    requires 0 <= k < |vals| && vals[k].None?
    ensures KeepPositive(vals).None?
    decreases |vals|
  {
    if k < |vals| - 1 {
      assert vals[..|vals| - 1][k] == vals[k];
      BadPieceFails(vals[..|vals| - 1], k);
    }
  }

  /** ...and only such a piece does. */
  lemma {:induction false} GoodPiecesParse(vals: seq<Option<int>>)
    requires forall k :: 0 <= k < |vals| ==> vals[k].Some?
    ensures KeepPositive(vals).Some?
    decreases |vals|
  {
    if |vals| > 0 {
      assert forall k :: 0 <= k < |vals| - 1 ==> vals[..|vals| - 1][k] == vals[k];
      GoodPiecesParse(vals[..|vals| - 1]);
    }
  }

  /** parseIndustriesParam: with a comma, the pieces of the split; without
      one, the whole text as one number, not trimmed. */
  function IndustriesParam(text: string): (r: Option<seq<int>>)
    ensures r.Some? ==> forall k :: 0 <= k < |r.value| ==> r.value[k] > 0
  {
    if ',' in text then KeepPositive(Converted(Split(text, ',')))
    else
      match Numbers.Atoi(text)
      case None => None
      case Some(id) => Some(if id > 0 then [id] else [])
  }

  /** The parser's loop: each piece trimmed and converted, the first bad
      piece failing the whole parameter. */
  method ParseIndustries(text: string) returns (r: Option<seq<int>>)
    ensures r == IndustriesParam(text)
  {
    if ',' !in text {
      var id := Numbers.Atoi(text);
      if id.None? {
        return None;
      }
      if id.value > 0 {
        return Some([id.value]);
      }
      return Some([]);
    }
    r := ConvertPieces(Split(text, ','));
  }

  /** The loop over the comma-separated pieces. */
  method ConvertPieces(pieces: seq<string>) returns (r: Option<seq<int>>)
    ensures r == KeepPositive(Converted(pieces))
  {
    ghost var vals := Converted(pieces);
    var ids: seq<int> := [];
    for i := 0 to |pieces|
      invariant KeepPositive(vals[..i]) == Some(ids)
    {
      var id := Numbers.Atoi(TrimSpace(pieces[i]));
      assert id == vals[i];
      if id.None? {
        BadPieceFails(vals, i);
        return None;
      }
      assert vals[..i + 1][..i] == vals[..i] && vals[..i + 1][i] == vals[i];
      if id.value > 0 {
        ids := ids + [id.value];
      }
    }
    assert vals[..|pieces|] == vals;
    return Some(ids);
  }

  /** The decimal texts of a list of ids. */
  function Decimals(ids: seq<int>): (r: seq<string>)
    ensures |r| == |ids|
  {
    seq(|ids|, k requires 0 <= k < |ids| => Numbers.Itoa(ids[k]))
  }

  /** Each id's decimal text converts back to the id. */
  lemma DecimalsConvert(ids: seq<int>)
    requires forall k :: 0 <= k < |ids| ==> 0 < ids[k] && Numbers.IsInt64(ids[k])
    ensures Converted(Decimals(ids)) == seq(|ids|, k requires 0 <= k < |ids| => Some(ids[k]))
  {
    forall k | 0 <= k < |ids|
      ensures Converted(Decimals(ids))[k] == Some(ids[k])
    {
      var piece := Numbers.Itoa(ids[k]);
      assert forall m :: 0 <= m < |piece| ==> !IsSpace(piece[m]);
      Numbers.AtoiItoa(ids[k]);
    }
  }

  lemma {:induction false} KeepPositiveAll(ids: seq<int>)
    requires forall k :: 0 <= k < |ids| ==> 0 < ids[k]
    ensures KeepPositive(seq(|ids|, k requires 0 <= k < |ids| => Some(ids[k]))) == Some(ids)
    decreases |ids|
  {
    if |ids| > 0 {
      var n := |ids| - 1;
      KeepPositiveAll(ids[..n]);
      var vals := seq(|ids|, k requires 0 <= k < |ids| => Some(ids[k]));
      assert vals[..n] == seq(n, k requires 0 <= k < n => Some(ids[..n][k]));
      assert ids == ids[..n] + [ids[n]];
    }
  }

  /** The list a client writes, ids joined with commas, reads back as those
      ids: the parameter round-trips for every non-empty list of positive
      ids. */
  lemma IndustriesRoundTrip(ids: seq<int>)
    requires |ids| >= 1
    requires forall k :: 0 <= k < |ids| ==> 0 < ids[k] && Numbers.IsInt64(ids[k])
    ensures IndustriesParam(Join(Decimals(ids), ",")) == Some(ids)
  {
    var pieces := Decimals(ids);
    var text := Join(pieces, ",");
    assert forall k :: 0 <= k < |pieces| ==> ',' !in pieces[k];
    if |ids| == 1 {
      Numbers.AtoiItoa(ids[0]);
      assert ids == [ids[0]];
    } else {
      assert text == pieces[0] + "," + Join(pieces[1..], ",");
      assert text[|pieces[0]|] == ',';
      SplitJoin(pieces, ',');
      DecimalsConvert(ids);
      KeepPositiveAll(ids);
    }
  }

  // ---------------------------------------------------------------------
  // GetCompanies

  /** The query string of the list, each parameter "" when absent. */
  datatype CompanyParams = CompanyParams(
    search: string,
    industries: string,
    size: string,
    city: string,
    cityID: string,
    sortBy: string,
    sortOrder: string,
    page: string,
    limit: string)

  /** The body of a successful list. */
  datatype CompanyList = CompanyList(
    filter: Query.CompanyFilter,
    query: Query.Listing,
    sizes: map<string, string>,
    total: nat,
    pages: int)

  /** GetCompanies: 400 for an `industries` parameter that does not parse,
      500 when the list query fails; otherwise the filter built from the
      query string (numbers that are not positive integers ignored, page 1,
      limit 10, by rating, descending unless given) and the listing of it. */
  method GetCompanies(params: CompanyParams, total: nat, listFails: bool)
    returns (reply: Reply, list: Option<CompanyList>)
    ensures params.industries != "" && IndustriesParam(params.industries).None? ==>
      reply == Reply(BadRequest, InvalidParams) && list.None?
    ensures (params.industries == "" || IndustriesParam(params.industries).Some?) && listFails ==>
      reply == Reply(InternalError, ListFailed) && list.None?
    ensures list.Some? <==> reply == Reply(Ok, "")
    ensures list.Some? <==> (params.industries == "" || IndustriesParam(params.industries).Some?) && !listFails
    ensures list.Some? ==>
      var f := list.value.filter;
      var q := list.value.query;
      && f == FilterOf(params, if params.industries == "" then [] else IndustriesParam(params.industries).value)
      && Query.Shape(q.conds) == Query.CompanyConditions(f)
      && Query.Window(q, f.page, f.limit)
      && q.sortBy == Query.CompanySortColumn(f.sortBy)
      && q.direction == Pagination.AscUnlessDesc(f.sortOrder)
      && list.value.sizes == Companies.CompanySizes
      && list.value.total == total
      && list.value.pages == Pagination.PageCount(total, f.limit)
  {
    var industries: seq<int> := [];
    if params.industries != "" {
      var parsed := ParseIndustries(params.industries);
      if parsed.None? {
        return Reply(BadRequest, InvalidParams), None;
      }
      industries := parsed.value;
    }
    var f := BuildFilter(params, industries);
    var q := Query.CompanyListing(f);
    if listFails {
      return Reply(InternalError, ListFailed), None;
    }
    var pages := Pagination.PageCount(total, f.limit);
    return Reply(Ok, ""), Some(CompanyList(f, q, Companies.CompanySizes, total, pages));
  }

  /** The filter of a list request: a page, limit or city id is taken
      only when it is a positive integer, page 1 and limit 10 otherwise;
      the order is by rating, descending, unless given; the other texts
      are taken as they are, and no minimum rating is set. */
  function FilterOf(params: CompanyParams, industries: seq<int>): (f: Query.CompanyFilter)
    ensures f.page >= 1 && f.limit >= 1
    ensures f.cityID.Some? ==> f.cityID.value >= 1
    ensures f.sortBy == (if params.sortBy != "" then params.sortBy else "rating")
    ensures f.sortOrder == (if params.sortOrder != "" then params.sortOrder else "desc")
    ensures f.industries == industries && f.minRating.None?
    ensures (f.search, f.size, f.city) == (params.search, params.size, params.city)
  {
    var page := Numbers.PositiveParam(params.page);
    var limit := Numbers.PositiveParam(params.limit);
    var cityID := Numbers.PositiveParam(params.cityID);
    Query.CompanyFilter(params.search, industries, params.size, None, params.city,
      if cityID > 0 then Some(cityID as int) else None,
      if params.sortBy != "" then params.sortBy else "rating",
      if params.sortOrder != "" then params.sortOrder else "desc",
      if page > 0 then page else 1,
      if limit > 0 then limit else 10)
  }

  /** The numbers of the filter: a positive integer given as page, limit
      or city id is taken, anything else is not. */
  lemma FilterNumbers(params: CompanyParams, industries: seq<int>)
    ensures var f := FilterOf(params, industries);
      && (Numbers.Atoi(params.page).Some? && Numbers.Atoi(params.page).value > 0 <==> f.page == Numbers.PositiveParam(params.page) != 0)
      && (Numbers.Atoi(params.page).Some? && Numbers.Atoi(params.page).value > 0 ==> f.page == Numbers.Atoi(params.page).value)
      && (Numbers.Atoi(params.limit).Some? && Numbers.Atoi(params.limit).value > 0 ==> f.limit == Numbers.Atoi(params.limit).value)
      && (f.cityID.Some? <==> Numbers.Atoi(params.cityID).Some? && Numbers.Atoi(params.cityID).value > 0)
      && (f.cityID.Some? ==> f.cityID == Numbers.Atoi(params.cityID))
  {
  }

  /** The filter GetCompanies fills from the query string, then completes
      with its defaults. */
  method BuildFilter(params: CompanyParams, industries: seq<int>) returns (f: Query.CompanyFilter)
    ensures f == FilterOf(params, industries)
  {
    var cityID := Numbers.PositiveParam(params.cityID);
    var page := Numbers.PositiveParam(params.page);
    var limit := Numbers.PositiveParam(params.limit);
    f := Query.CompanyFilter(params.search, industries, params.size, None, params.city,
      if cityID > 0 then Some(cityID as int) else None, params.sortBy, params.sortOrder, page, limit);
    if f.page <= 0 {
      f := f.(page := 1);
    }
    if f.limit <= 0 {
      f := f.(limit := 10);
    }
    if f.sortBy == "" {
      f := f.(sortBy := "rating");
    }
    if f.sortOrder == "" {
      f := f.(sortOrder := "desc");
    }
  }

  // ---------------------------------------------------------------------
  // GetCompany

  /** The company GetCompany answers with: a path segment that parses as a
      number is looked up as an id only, anything else as a slug. */
  function Lookup(rows: seq<Companies.CompanyRow>, idOrSlug: string): (r: Option<Companies.CompanyRow>)
    ensures r.Some? ==> r.value in rows
    ensures Numbers.Atoi(idOrSlug).Some? ==> r == CompanyRepository.FindByID(rows, Numbers.Atoi(idOrSlug).value)
    ensures Numbers.Atoi(idOrSlug).None? ==> r == CompanyRepository.FindBySlug(rows, idOrSlug)
  {
    match Numbers.Atoi(idOrSlug)
    case Some(id) => CompanyRepository.FindByID(rows, id)
    case None => CompanyRepository.FindBySlug(rows, idOrSlug)
  }

  /** GetCompany: the company, or 404 "Компания не найдена". */
  method GetCompany(companies: CompanyRepository.CompanyStore, idOrSlug: string)
    returns (reply: Reply, company: Option<Companies.CompanyRow>)
    ensures company == Lookup(companies.rows, idOrSlug)
    ensures company.Some? <==> reply == Reply(Ok, "")
    ensures company.None? <==> reply == Reply(NotFound, CompanyNotFound)
  {
    var id := Numbers.Atoi(idOrSlug);
    var found: Result<Companies.CompanyRow>;
    if id.Some? {
      found := companies.GetByID(id.value);
    } else {
      found := companies.GetBySlug(idOrSlug);
    }
    if found.Failure? {
      return Reply(NotFound, CompanyNotFound), None;
    }
    return Reply(Ok, ""), Some(found.value);
  }

  /** Every id in decimal reaches its company. */
  lemma IdReachesCompany(rows: seq<Companies.CompanyRow>, id: int)
    requires 0 <= id && Numbers.IsInt64(id)
    ensures Lookup(rows, Numbers.Itoa(id)) == CompanyRepository.FindByID(rows, id)
  {
    Numbers.AtoiItoa(id);
  }

  /** A unique slug whose name part is not empty is never a number, so it
      is looked up as a slug. */
  lemma SlugIsNotNumber(name: string, id: int)
    requires id >= 0 && Slug.GenerateSlug(name) != ""
    ensures Numbers.Atoi(Slug.GenerateUniqueSlug(name, id)).None?
  {
    var g := Slug.GenerateSlug(name);
    var s := Slug.GenerateUniqueSlug(name, id);
    assert s == g + "-" + Numbers.Itoa(id);
    assert s[0] == g[0] && Slug.IsSlugRune(g[0]);
    assert s[|g|] == '-';
    assert !Numbers.AllDigits(s);
  }

  /** Such a slug reaches its company (the first with that slug). */
  lemma SlugReachesCompany(rows: seq<Companies.CompanyRow>, name: string, id: int)
    requires id >= 0 && Slug.GenerateSlug(name) != ""
    ensures Lookup(rows, Slug.GenerateUniqueSlug(name, id))
         == CompanyRepository.FindBySlug(rows, Slug.GenerateUniqueSlug(name, id))
  {
    SlugIsNotNumber(name, id);
  }

  /** A name with no letter or digit a slug keeps, such as "++", has an
      empty slug. */
  lemma PunctuationNameHasEmptySlug()
    ensures Slug.GenerateSlug("++") == ""
  {
    var lower := ToLower("++");
    assert lower == "++";
    if '+' in Slug.TransliterationMap {
      Slug.TableIsCyrillic('+');
    }
    assert Slug.Translit('+') == "-";
    assert Slug.TransliterateAll("+") == "-";
    assert Slug.TransliterateAll("++") == "--";
    assert Slug.DashRuns("--") == "-";
    assert Slug.CollapseDashes("-") == "-";
  }

  /** As written, the company created under the name "++" with id 7 gets
      the slug "-7", which parses as the number -7: its slug reaches no
      company in a table whose ids are positive, although a row carries
      it. */
  lemma SlugUnreachableAsWritten(rows: seq<Companies.CompanyRow>)
    requires forall k :: 0 <= k < |rows| ==> rows[k].id >= 1
    requires exists k :: 0 <= k < |rows| && rows[k].slug == Slug.GenerateUniqueSlug("++", 7)
    ensures Slug.GenerateUniqueSlug("++", 7) == "-7"
    ensures CompanyRepository.FindBySlug(rows, "-7").Some?
    ensures Lookup(rows, "-7").None?
  {
    PunctuationSlug();
    MinusSevenIsNumber();
  }

  lemma PunctuationSlug()
    ensures Slug.GenerateUniqueSlug("++", 7) == "-7"
  {
    PunctuationNameHasEmptySlug();
    assert Numbers.Itoa(7) == "7";
  }

  lemma MinusSevenIsNumber()
    ensures Numbers.Atoi("-7") == Some(-7)
  {
    assert "-7"[1..] == "7";
    assert Numbers.DigitsValue("7") == 7;
  }

  /** The corrected lookup: a number that names no company falls back to
      the slug lookup. */
  function LookupWithFallback(rows: seq<Companies.CompanyRow>, idOrSlug: string): (r: Option<Companies.CompanyRow>)
    ensures r.Some? ==> r.value in rows
    ensures CompanyRepository.FindBySlug(rows, idOrSlug).Some? ==> r.Some?
    ensures Lookup(rows, idOrSlug).Some? ==> r == Lookup(rows, idOrSlug)
  {
    var byID := if Numbers.Atoi(idOrSlug).Some? then CompanyRepository.FindByID(rows, Numbers.Atoi(idOrSlug).value) else None;
    if byID.Some? then byID else CompanyRepository.FindBySlug(rows, idOrSlug)
  }

  /** Every stored slug reaches a company under the corrected lookup. */
  lemma EverySlugReachable(rows: seq<Companies.CompanyRow>, k: int)
    requires 0 <= k < |rows|
    ensures LookupWithFallback(rows, rows[k].slug).Some?
  {
    assert CompanyRepository.FindBySlug(rows, rows[k].slug).Some?;
  }

  /** GetCompany with the corrected lookup. */
  method GetCompanyWithFallback(companies: CompanyRepository.CompanyStore, idOrSlug: string)
    returns (reply: Reply, company: Option<Companies.CompanyRow>)
    ensures company == LookupWithFallback(companies.rows, idOrSlug)
    ensures company.Some? <==> reply == Reply(Ok, "")
    ensures company.None? <==> reply == Reply(NotFound, CompanyNotFound)
  {
    var id := Numbers.Atoi(idOrSlug);
    var found: Result<Companies.CompanyRow> := Failure("компания не найдена");
    if id.Some? {
      found := companies.GetByID(id.value);
    }
    if found.Failure? {
      found := companies.GetBySlug(idOrSlug);
    }
    if found.Failure? {
      return Reply(NotFound, CompanyNotFound), None;
    }
    return Reply(Ok, ""), Some(found.value);
  }

  // ---------------------------------------------------------------------
  // CreateCompany

  /** The binding tags of the create body: a name of 2 to 255 runes, one of
      the four sizes, a city id of at least 1 when given, and at least one
      industry id, each at least 1. */
  predicate ValidInput(input: Companies.CompanyInput)
  {
    && 2 <= |input.name| <= 255
    && input.size in Companies.SizeValues
    && (input.cityID.Some? ==> input.cityID.value >= 1)
    && |input.industries| >= 1
    && (forall k :: 0 <= k < |input.industries| ==> input.industries[k] >= 1)
  }

  /** The industries check as written: as many industries found as ids
      listed. */
  predicate IndustryCountMatches(rows: seq<IndustryRepository.Industry>, ids: seq<int>)
  {
    |IndustryRepository.Selected(rows, ids)| == |ids|
  }

  /** What the industries check is meant to establish: every listed id
      names an industry. */
  predicate IndustriesExist(rows: seq<IndustryRepository.Industry>, ids: seq<int>)
  {
    forall k :: 0 <= k < |ids| ==> exists x :: x in rows && x.id == ids[k]
  }

  /** As written, listing an existing industry twice is refused as if it
      did not exist: one row is found for two ids. */
  lemma DuplicateIndustryRefusedAsWritten(x: IndustryRepository.Industry)
    ensures IndustriesExist([x], [x.id, x.id])
    ensures !IndustryCountMatches([x], [x.id, x.id])
  {
    assert IndustryRepository.Selected([x], [x.id, x.id]) == [x];
  }

  /** The corrected check: each listed id is among the industries found. */
  method CheckIndustries(industries: IndustryRepository.IndustryStore, ids: seq<int>) returns (ok: bool)
    ensures ok <==> IndustriesExist(industries.rows, ids)
  {
    var found := industries.GetByIDs(ids);
    ok := true;
    for i := 0 to |ids|
      invariant ok <==> IndustriesExist(industries.rows, ids[..i])
    {
      var hit := HasID(found, ids[i]);
      ExistStep(industries.rows, found, ids, i);
      ok := ok && hit;
    }
    assert ids[..|ids|] == ids;
  }

  /** The inner scan of the check: whether an industry found has the id. */
  method HasID(found: seq<IndustryRepository.Industry>, id: int) returns (hit: bool)
    ensures hit <==> exists m :: 0 <= m < |found| && found[m].id == id
  {
    hit := false;
    for j := 0 to |found|
      invariant hit <==> exists m :: 0 <= m < j && found[m].id == id
    {
      if found[j].id == id {
        hit := true;
      }
    }
  }

  /** One more id exists exactly when the ids before it do and one of the
      industries found has it. */
  lemma ExistStep(rows: seq<IndustryRepository.Industry>, found: seq<IndustryRepository.Industry>, ids: seq<int>, i: int)
    requires 0 <= i < |ids|
    requires forall x :: x in found <==> x in rows && x.id in ids
    ensures IndustriesExist(rows, ids[..i + 1]) <==>
      IndustriesExist(rows, ids[..i]) && exists m :: 0 <= m < |found| && found[m].id == ids[i]
  {
    assert forall k :: 0 <= k < i ==> ids[..i + 1][k] == ids[..i][k];
    assert ids[..i + 1][i] == ids[i];
    if exists x :: x in rows && x.id == ids[i] {
      var x :| x in rows && x.id == ids[i];
      assert x in found;
      var m :| 0 <= m < |found| && found[m] == x;
    }
    if exists m :: 0 <= m < |found| && found[m].id == ids[i] {
      var m :| 0 <= m < |found| && found[m].id == ids[i];
      assert found[m] in found;
    }
  }

  /** The row CreateCompany stores for an input under the new id: the new
      company with its unique slug. */
  function CreatedRow(input: Companies.CompanyInput, id: int, now: int): (c: Companies.CompanyRow)
    ensures c.id == id && c.name == input.name
    ensures c.slug == Slug.GenerateUniqueSlug(input.name, id)
    ensures c.reviewsCount == 0 && c.createdAt == now
  {
    Companies.NewCompany(input, now).(id := id, slug := Slug.GenerateUniqueSlug(input.name, id))
  }

  /** Every gate of CreateCompany after the role check passes. */
  predicate Admitted(companies: seq<Companies.CompanyRow>, industries: seq<IndustryRepository.Industry>,
                     cities: seq<CityRepository.City>, input: Option<Companies.CompanyInput>)
  {
    && input.Some? && ValidInput(input.value)
    && CompanyRepository.FindByName(companies, input.value.name).None?
    && IndustryCountMatches(industries, input.value.industries)
    && (input.value.cityID.Some? ==> CityRepository.FindByID(cities, input.value.cityID.value).Some?)
  }

  /** Where the writes of CreateCompany stop: the insert, the slug
      update, the link of the industry after the first `count` linked,
      or the final re-read of the stored company. A link failure the
      input does not reach is no failure. */
  datatype CreateFault =
    | NoFault
    | InsertFails
    | SlugUpdateFails
    | LinkFails(count: nat)
    | RereadFails

  /** Whether the fault strikes an input with these industries. */
  predicate Strikes(fault: CreateFault, ids: seq<int>)
  {
    match fault
    case NoFault => false
    case LinkFails(count) => count < |ids|
    case _ => true
  }

  /** The 500 message of each point of failure. */
  function FaultMessage(fault: CreateFault): string
  {
    match fault
    case SlugUpdateFails => SlugFailed
    case LinkFails(_) => LinkFailed
    case RereadFails => RereadFailed
    case _ => SaveFailed
  }

  /** The row left in the table once the insert went through: with the
      provisional slug (the name) when the slug update failed, with the
      unique slug otherwise. */
  function StoredRow(fault: CreateFault, given: Companies.CompanyInput, id: int, now: int): (c: Companies.CompanyRow)
    ensures fault == SlugUpdateFails ==> c.slug == given.name
    ensures fault != SlugUpdateFails ==> c == CreatedRow(given, id, now)
    ensures c.id == id
  {
    if fault == SlugUpdateFails then Companies.NewCompany(given, now).(id := id) else CreatedRow(given, id, now)
  }

  /** The industries linked before the handler answers: none when the slug
      update failed, a proper prefix when a link failed, all otherwise. */
  function LinkedIDs(fault: CreateFault, ids: seq<int>): (linked: seq<int>)
    ensures fault == SlugUpdateFails ==> linked == []
    ensures fault.LinkFails? && Strikes(fault, ids) ==> |linked| < |ids| && linked == ids[..|linked|]
    ensures fault != SlugUpdateFails && !(fault.LinkFails? && Strikes(fault, ids)) ==> linked == ids
  {
    if fault == SlugUpdateFails then []
    else if fault.LinkFails? && Strikes(fault, ids) then ids[..fault.count]
    else ids
  }

  /** CreateCompany: 401 without a role, 403 for a role other than admin,
      400 for a body that fails its tags, 409 for a taken name, 400 when
      the industries found do not match the ids, 400 for an unknown city,
      500 when the insert fails, all changing nothing. Once the company is
      inserted, a failed slug update, industry link or re-read answers 500
      with the writes made so far kept; otherwise the company is stored
      with its unique slug, linked to each listed industry, and answered
      with 201. */
  method CreateCompany(companies: CompanyRepository.CompanyStore, industries: IndustryRepository.IndustryStore,
                       cities: CityRepository.CityStore, caller: Option<Users.Role>,
                       input: Option<Companies.CompanyInput>, now: int, fault: CreateFault)
    returns (reply: Reply, created: Option<Companies.CompanyRow>)
    requires companies.Valid()
    modifies companies, industries
    ensures companies.Valid()
    ensures caller.None? ==> reply == Reply(Unauthorized, AuthRequired)
    ensures caller.Some? && caller.value != Users.RoleAdmin ==> reply == Reply(Forbidden, NoCreateRights)
    ensures caller == Some(Users.RoleAdmin) && (input.None? || !ValidInput(input.value)) ==>
      reply == Reply(BadRequest, Invalid)
    ensures caller == Some(Users.RoleAdmin) && input.Some? && ValidInput(input.value)
            && CompanyRepository.FindByName(old(companies.rows), input.value.name).Some? ==>
      reply == Reply(Conflict, NameTaken)
    ensures caller == Some(Users.RoleAdmin) && input.Some? && ValidInput(input.value)
            && CompanyRepository.FindByName(old(companies.rows), input.value.name).None?
            && !IndustryCountMatches(old(industries.rows), input.value.industries) ==>
      reply == Reply(BadRequest, IndustriesMissing)
    ensures caller == Some(Users.RoleAdmin) && input.Some? && ValidInput(input.value)
            && CompanyRepository.FindByName(old(companies.rows), input.value.name).None?
            && IndustryCountMatches(old(industries.rows), input.value.industries)
            && input.value.cityID.Some?
            && CityRepository.FindByID(cities.rows, input.value.cityID.value).None? ==>
      reply == Reply(BadRequest, CityMissing)
    ensures caller == Some(Users.RoleAdmin) && Admitted(old(companies.rows), old(industries.rows), cities.rows, input) ==>
      && (Strikes(fault, input.value.industries) ==> reply == Reply(InternalError, FaultMessage(fault)))
      && (!Strikes(fault, input.value.industries) ==> reply == Reply(Created, ""))
    ensures created.Some? <==> reply == Reply(Created, "")
    ensures created.Some? <==>
      && caller == Some(Users.RoleAdmin) && Admitted(old(companies.rows), old(industries.rows), cities.rows, input)
      && !Strikes(fault, input.value.industries)
    ensures created.Some? ==> created.value == CreatedRow(input.value, old(companies.nextID), now)
    ensures caller == Some(Users.RoleAdmin) && Admitted(old(companies.rows), old(industries.rows), cities.rows, input)
            && fault != InsertFails ==>
      var id := old(companies.nextID);
      && CompanyRepository.FindByID(old(companies.rows), id).None?
      && companies.rows == old(companies.rows) + [StoredRow(fault, input.value, id, now)]
      && industries.links == old(industries.links) + set x | x in LinkedIDs(fault, input.value.industries) :: (id, x)
    ensures !(caller == Some(Users.RoleAdmin) && Admitted(old(companies.rows), old(industries.rows), cities.rows, input)
              && fault != InsertFails) ==>
      companies.rows == old(companies.rows) && industries.links == old(industries.links)
    ensures industries.rows == old(industries.rows) && industries.nextID == old(industries.nextID)
  {
    if caller.None? {
      return Reply(Unauthorized, AuthRequired), None;
    }
    if caller.value != Users.RoleAdmin {
      return Reply(Forbidden, NoCreateRights), None;
    }
    if input.None? || !ValidInput(input.value) {
      return Reply(BadRequest, Invalid), None;
    }
    var given := input.value;
    var refusal := Vet(companies, industries, cities, given);
    if refusal.Some? {
      return refusal.value, None;
    }
    if fault == InsertFails {
      return Reply(InternalError, SaveFailed), None;
    }
    var row := Insert(companies, industries, given, now, fault);
    if Strikes(fault, given.industries) {
      return Reply(InternalError, FaultMessage(fault)), None;
    }
    return Reply(Created, ""), Some(row);
  }

  /** The writing half of CreateCompany: the insert with its slug, the
      industry links, and the re-read of the stored company, each stopping
      at the fault. */
  method Insert(companies: CompanyRepository.CompanyStore, industries: IndustryRepository.IndustryStore,
                given: Companies.CompanyInput, now: int, fault: CreateFault)
    returns (row: Companies.CompanyRow)
    requires companies.Valid() && fault != InsertFails
    modifies companies, industries
    ensures companies.Valid()
    ensures row == StoredRow(fault, given, old(companies.nextID), now)
    ensures CompanyRepository.FindByID(old(companies.rows), row.id).None?
    ensures companies.rows == old(companies.rows) + [row]
    ensures industries.links == old(industries.links) + set x | x in LinkedIDs(fault, given.industries) :: (row.id, x)
    ensures industries.rows == old(industries.rows) && industries.nextID == old(industries.nextID)
  {
    var id := StoreCompany(companies, given, now, fault == SlugUpdateFails);
    row := StoredRow(fault, given, id, now);
    if fault == SlugUpdateFails {
      return;
    }
    LinkIndustries(industries, id, LinkedIDs(fault, given.industries));
    if Strikes(fault, given.industries) {
      return;
    }
    var reread := companies.GetByID(id);
    FindAppended(old(companies.rows), CreatedRow(given, id, now));
    row := reread.value;
  }

  /** A row appended under an id the table did not hold is what a lookup
      of that id finds. */
  lemma FindAppended(rows: seq<Companies.CompanyRow>, row: Companies.CompanyRow)
    requires CompanyRepository.FindByID(rows, row.id).None?
    ensures CompanyRepository.FindByID(rows + [row], row.id) == Some(row)
  {
    var all := rows + [row];
    assert all[|rows|].id == row.id;
    var found := CompanyRepository.FindByID(all, row.id).value;
    var k :| 0 <= k < |all| && all[k] == found;
    assert k == |rows|;
  }

  /** The checks of CreateCompany against the stored data, in order: the
      name is free, every listed industry was found, the city exists. */
  method Vet(companies: CompanyRepository.CompanyStore, industries: IndustryRepository.IndustryStore,
             cities: CityRepository.CityStore, given: Companies.CompanyInput)
    returns (refusal: Option<Reply>)
    ensures CompanyRepository.FindByName(companies.rows, given.name).Some? ==>
      refusal == Some(Reply(Conflict, NameTaken))
    ensures CompanyRepository.FindByName(companies.rows, given.name).None?
            && !IndustryCountMatches(industries.rows, given.industries) ==>
      refusal == Some(Reply(BadRequest, IndustriesMissing))
    ensures CompanyRepository.FindByName(companies.rows, given.name).None?
            && IndustryCountMatches(industries.rows, given.industries)
            && given.cityID.Some? && CityRepository.FindByID(cities.rows, given.cityID.value).None? ==>
      refusal == Some(Reply(BadRequest, CityMissing))
    ensures refusal.None? <==>
      && CompanyRepository.FindByName(companies.rows, given.name).None?
      && IndustryCountMatches(industries.rows, given.industries)
      && (given.cityID.Some? ==> CityRepository.FindByID(cities.rows, given.cityID.value).Some?)
  {
    var existing := companies.GetByName(given.name);
    if existing.Success? {
      return Some(Reply(Conflict, NameTaken));
    }
    var found := industries.GetByIDs(given.industries);
    if |found| != |given.industries| {
      return Some(Reply(BadRequest, IndustriesMissing));
    }
    if given.cityID.Some? {
      var city := cities.GetByID(given.cityID.value);
      if city.Failure? {
        return Some(Reply(BadRequest, CityMissing));
      }
    }
    return None;
  }

  /** The insert and the slug update of CreateCompany: the new company is
      appended under the next id, then, unless that update fails, its slug
      is rewritten to the unique slug, which touches that row only. */
  method StoreCompany(companies: CompanyRepository.CompanyStore, given: Companies.CompanyInput, now: int,
                      slugFails: bool)
    returns (id: int)
    requires companies.Valid()
    modifies companies
    ensures companies.Valid()
    ensures id == old(companies.nextID) && CompanyRepository.FindByID(old(companies.rows), id).None?
    ensures slugFails ==> companies.rows == old(companies.rows) + [Companies.NewCompany(given, now).(id := id)]
    ensures !slugFails ==> companies.rows == old(companies.rows) + [CreatedRow(given, id, now)]
  {
    var company := Companies.NewCompany(given, now);
    ghost var before := companies.rows;
    id := companies.Create(company);
    if slugFails {
      return;
    }
    var row := company.(id := id, slug := Slug.GenerateUniqueSlug(company.name, id));
    companies.Update(row);
    assert companies.rows == before + [row] by {
      assert forall k :: 0 <= k < |before| ==> before[k].id != id;
    }
  }

  /** The linking loop of CreateCompany: one company_industries link per
      listed industry. */
  method LinkIndustries(industries: IndustryRepository.IndustryStore, id: int, ids: seq<int>)
    modifies industries
    ensures industries.links == old(industries.links) + set x | x in ids :: (id, x)
    ensures industries.rows == old(industries.rows) && industries.nextID == old(industries.nextID)
  {
    for i := 0 to |ids|
      invariant industries.links == old(industries.links) + set x | x in ids[..i] :: (id, x)
      invariant industries.rows == old(industries.rows) && industries.nextID == old(industries.nextID)
    {
      industries.AddCompanyIndustry(id, ids[i]);
      assert ids[..i + 1] == ids[..i] + [ids[i]];
      assert (set x | x in ids[..i + 1] :: (id, x)) == (set x | x in ids[..i] :: (id, x)) + {(id, ids[i])};
    }
    assert ids[..|ids|] == ids;
  }
}
