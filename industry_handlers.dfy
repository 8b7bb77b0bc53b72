// The industry endpoints: the paginated industry list, the industries of
// one company, and the colour change an administrator may make.

module IndustryHandlers {
  import opened Common
  import opened Text
  import Users
  import Numbers
  import Ordering
  import Pagination
  import Query
  import Companies
  import CompanyRepository
  import IndustryRepository

  const InvalidParams: string := "Ошибка валидации параметров"
  const ListFailed: string := "Ошибка при получении отраслей"
  const BadID: string := "Неверный формат ID"
  const CompanyNotFound: string := "Компания не найдена"
  const NoColorRights: string := "Недостаточно прав для изменения цвета индустрии"
  const IndustryNotFound: string := "Индустрия не найдена"
  const Invalid: string := "Ошибка валидации данных"
  const NotHex: string := "Цвет должен быть в формате HEX (например, #FF5733)"
  const ColorFailed: string := "Ошибка при обновлении цвета индустрии"
  const Recolored: string := "Цвет индустрии успешно обновлен"
  const RereadFailed: string := "Ошибка при получении обновленной индустрии"

  // ---------------------------------------------------------------------
  // GetIndustries

  /** What the binding tags of IndustryFilter admit: a sort by name only,
      an order asc or desc, a page of at least one and a limit between one
      and 100, zero and "" meaning "not given". */
  predicate ValidFilter(f: Query.IndustryFilter)
  {
    && f.sortBy in {"", "name"}
    && f.sortOrder in {"", "asc", "desc"}
    && f.page >= 0
    && 0 <= f.limit <= 100
  }

  /** The filter GetIndustries completes with its defaults: page 1, ten
      rows, by name, ascending. */
  function WithDefaults(f: Query.IndustryFilter): (r: Query.IndustryFilter)
    ensures r.page >= 1 && r.limit >= 1
    ensures f.page >= 1 ==> r.page == f.page
    ensures f.limit >= 1 ==> r.limit == f.limit
    ensures r.sortBy != "" && r.sortOrder != ""
    ensures r.search == f.search
  {
    f.(page := if f.page <= 0 then 1 else f.page,
       limit := if f.limit <= 0 then 10 else f.limit,
       sortBy := if f.sortBy == "" then "name" else f.sortBy,
       sortOrder := if f.sortOrder == "" then "asc" else f.sortOrder)
  }

  /** The defaults filled in one field at a time, as the handler does. */
  method FillDefaults(given: Query.IndustryFilter) returns (f: Query.IndustryFilter)
    ensures f == WithDefaults(given)
  {
    f := given;
    if f.page <= 0 {
      f := f.(page := 1);
    }
    if f.limit <= 0 {
      f := f.(limit := 10);
    }
    if f.sortBy == "" {
      f := f.(sortBy := "name");
    }
    if f.sortOrder == "" {
      f := f.(sortOrder := "asc");
    }
  }

  /** With no order given the page comes in name order, and the defaults
      list what the repository would have listed for the bare filter. */
  lemma DefaultsListInNameOrder(rows: seq<IndustryRepository.Industry>, f: Query.IndustryFilter)
    ensures IndustryRepository.Listed(rows, WithDefaults(f)) == IndustryRepository.Listed(rows, f)
    ensures f.sortOrder != "desc" ==>
      Ordering.SortedBy(IndustryRepository.Listed(rows, WithDefaults(f)), IndustryRepository.IndustryName)
  {
    if f.sortOrder != "desc" {
      IndustryRepository.ListedAscSorted(rows, WithDefaults(f));
    }
  }

  /** The body of a successful industry list. */
  datatype IndustryList = IndustryList(
    industries: seq<IndustryRepository.Industry>,
    total: nat,
    page: int,
    limit: int,
    pages: int)

  /** A page listed under the defaults holds at most the limit, and only
      industries whose name matches the search. */
  lemma ListedUnderDefaults(rows: seq<IndustryRepository.Industry>, f: Query.IndustryFilter)
    ensures |IndustryRepository.Listed(rows, WithDefaults(f))| <= WithDefaults(f).limit
    ensures forall x :: x in IndustryRepository.Listed(rows, WithDefaults(f)) ==>
      x in rows && IndustryRepository.Matches(x, f.search)
  {
    IndustryRepository.ListedMatches(rows, WithDefaults(f));
  }

  /** The list a successful GetIndustries answers with: the requested
      page under the defaults, kept to the limit and holding only matching
      industries of the table, the number of all matches, and the pages
      counted as the ceiling of the matches over the limit. */
  method ListPage(industries: IndustryRepository.IndustryStore, given: Query.IndustryFilter)
    returns (l: IndustryList)
    ensures var f := WithDefaults(given);
      && l.industries == IndustryRepository.Listed(industries.rows, f)
      && l.total == |IndustryRepository.Filter(industries.rows, f.search)|
      && (l.page, l.limit) == (f.page, f.limit)
      && |l.industries| <= l.limit
      && (forall x :: x in l.industries ==> x in industries.rows && IndustryRepository.Matches(x, given.search))
      && l.pages * l.limit >= l.total
      && (l.total > 0 ==> (l.pages - 1) * l.limit < l.total)
  {
    var f := FillDefaults(given);
    var page, total := industries.GetAll(f);
    ListedUnderDefaults(industries.rows, given);
    Pagination.PageCountIsCeiling(total, f.limit);
    l := IndustryList(page, total, f.page, f.limit, Pagination.PageCount(total, f.limit));
  }

  /** GetIndustries: 400 for a query string that fails its binding tags,
      500 when the listing fails; otherwise the requested page of the
      matching industries under the defaults, the number of all matches and
      the page count, the ceiling of that number over the limit. */
  method GetIndustries(industries: IndustryRepository.IndustryStore, filter: Option<Query.IndustryFilter>, listFails: bool)
    returns (reply: Reply, list: Option<IndustryList>)
    ensures filter.None? || !ValidFilter(filter.value) ==> reply == Reply(BadRequest, InvalidParams) && list.None?
    ensures filter.Some? && ValidFilter(filter.value) && listFails ==>
      reply == Reply(InternalError, ListFailed) && list.None?
    ensures list.Some? <==> reply == Reply(Ok, "")
    ensures list.Some? <==> filter.Some? && ValidFilter(filter.value) && !listFails
    ensures list.Some? ==>
      var f := WithDefaults(filter.value);
      var l := list.value;
      && l.industries == IndustryRepository.Listed(industries.rows, f)
      && l.total == |IndustryRepository.Filter(industries.rows, f.search)|
      && (l.page, l.limit) == (f.page, f.limit)
      && |l.industries| <= l.limit
      && (forall x :: x in l.industries ==> x in industries.rows && IndustryRepository.Matches(x, f.search))
      && l.pages * l.limit >= l.total
      && (l.total > 0 ==> (l.pages - 1) * l.limit < l.total)
  {
    if filter.None? || !ValidFilter(filter.value) {
      return Reply(BadRequest, InvalidParams), None;
    }
    if listFails {
      return Reply(InternalError, ListFailed), None;
    }
    var l := ListPage(industries, filter.value);
    return Reply(Ok, ""), Some(l);
  }

  // ---------------------------------------------------------------------
  // GetCompanyIndustries

  /** GetCompanyIndustries: 400 for an id that is not a number, 404 for an
      unknown company; otherwise exactly the industries linked to that
      company, by name. */
  method GetCompanyIndustries(companies: CompanyRepository.CompanyStore,
                              industries: IndustryRepository.IndustryStore, idText: string)
    returns (reply: Reply, linked: Option<seq<IndustryRepository.Industry>>)
    ensures Numbers.Atoi(idText).None? ==> reply == Reply(BadRequest, BadID) && linked.None?
    ensures Numbers.Atoi(idText).Some? && CompanyRepository.FindByID(companies.rows, Numbers.Atoi(idText).value).None? ==>
      reply == Reply(NotFound, CompanyNotFound) && linked.None?
    ensures linked.Some? <==> reply == Reply(Ok, "")
    ensures linked.Some? <==>
      Numbers.Atoi(idText).Some? && CompanyRepository.FindByID(companies.rows, Numbers.Atoi(idText).value).Some?
    ensures linked.Some? ==>
      && (forall x :: x in linked.value <==>
            x in industries.rows && (Numbers.Atoi(idText).value, x.id) in industries.links)
      && Ordering.SortedBy(linked.value, IndustryRepository.IndustryName)
  {
    var id := Numbers.Atoi(idText);
    if id.None? {
      return Reply(BadRequest, BadID), None;
    }
    var company := companies.GetByID(id.value);
    if company.Failure? {
      return Reply(NotFound, CompanyNotFound), None;
    }
    var found := industries.GetByCompanyID(id.value);
    return Reply(Ok, ""), Some(found);
  }

  // ---------------------------------------------------------------------
  // UpdateIndustryColor

  /** A colour the handler takes: four to seven runes (the binding tags)
      starting with '#'. */
  predicate ValidColor(color: string)
  {
    4 <= |color| <= 7 && HasPrefix(color, "#")
  }

  /** A valid colour is '#' followed by three to six more runes, such as
      "#FFF" or "#FF5733"; any such string is valid. */
  lemma ValidColorShape(color: string)
    ensures ValidColor(color) <==> exists rest: string :: color == "#" + rest && 3 <= |rest| <= 6
  {
    if ValidColor(color) {
      assert color == "#" + color[1..];
    }
  }

  /** Whether every check of UpdateIndustryColor passes: an admin caller,
      a numeric id that names an industry, and a colour of four to seven
      characters starting with "#". */
  predicate Recolors(rows: seq<IndustryRepository.Industry>, caller: Option<Users.Role>, idText: string,
                     color: Option<string>)
  {
    && caller == Some(Users.RoleAdmin) && Numbers.Atoi(idText).Some?
    && IndustryRepository.FindByID(rows, Numbers.Atoi(idText).value).Some?
    && color.Some? && ValidColor(color.value)
  }

  /** UpdateIndustryColor: 403 unless the caller is an admin, 400 for an id
      that is not a number, 404 for an unknown industry (before the body is
      looked at), 400 for a missing body or a colour that is not four to
      seven runes starting with '#', 500 when the update fails, changing
      nothing; otherwise the colour of that industry and nothing else
      changes, and the updated row is returned, unless re-reading it fails
      (500 with the colour kept). */
  method UpdateIndustryColor(industries: IndustryRepository.IndustryStore, caller: Option<Users.Role>,
                             idText: string, color: Option<string>, updateFails: bool, rereadFails: bool)
    returns (reply: Reply, updated: Option<IndustryRepository.Industry>)
    requires industries.Valid()
    modifies industries
    ensures industries.Valid()
    ensures industries.links == old(industries.links) && industries.nextID == old(industries.nextID)
    ensures caller != Some(Users.RoleAdmin) ==> reply == Reply(Forbidden, NoColorRights)
    ensures caller == Some(Users.RoleAdmin) && Numbers.Atoi(idText).None? ==> reply == Reply(BadRequest, BadID)
    ensures caller == Some(Users.RoleAdmin) && Numbers.Atoi(idText).Some?
            && IndustryRepository.FindByID(old(industries.rows), Numbers.Atoi(idText).value).None? ==>
      reply == Reply(NotFound, IndustryNotFound)
    ensures caller == Some(Users.RoleAdmin) && Numbers.Atoi(idText).Some?
            && IndustryRepository.FindByID(old(industries.rows), Numbers.Atoi(idText).value).Some? ==>
      (color.None? || !(4 <= |color.value| <= 7) ==> reply == Reply(BadRequest, Invalid))
      && (color.Some? && 4 <= |color.value| <= 7 && !HasPrefix(color.value, "#") ==> reply == Reply(BadRequest, NotHex))
    ensures updated.Some? <==> reply == Reply(Ok, Recolored)
    ensures Recolors(old(industries.rows), caller, idText, color) ==>
      && (updateFails ==> reply == Reply(InternalError, ColorFailed))
      && (!updateFails && rereadFails ==> reply == Reply(InternalError, RereadFailed))
    ensures updated.Some? <==> Recolors(old(industries.rows), caller, idText, color) && !updateFails && !rereadFails
    ensures Recolors(old(industries.rows), caller, idText, color) && !updateFails ==>
      industries.rows == IndustryRepository.Recolor(old(industries.rows), Numbers.Atoi(idText).value, color.value)
    ensures !(Recolors(old(industries.rows), caller, idText, color) && !updateFails) ==>
      industries.rows == old(industries.rows)
    ensures updated.Some? ==>
      updated.value == IndustryRepository.FindByID(old(industries.rows), Numbers.Atoi(idText).value).value.(color := color.value)
  {
    if caller != Some(Users.RoleAdmin) {
      return Reply(Forbidden, NoColorRights), None;
    }
    var id := Numbers.Atoi(idText);
    if id.None? {
      return Reply(BadRequest, BadID), None;
    }
    var existing := industries.GetByID(id.value);
    if existing.Failure? {
      return Reply(NotFound, IndustryNotFound), None;
    }
    if color.None? || !(4 <= |color.value| <= 7) {
      return Reply(BadRequest, Invalid), None;
    }
    if !HasPrefix(color.value, "#") {
      return Reply(BadRequest, NotHex), None;
    }
    if updateFails {
      return Reply(InternalError, ColorFailed), None;
    }
    var done := industries.UpdateColor(id.value, color.value);
    if done.Fail? {
      // The store fails only for an id no row has, which was just checked.
      assert false;
      return Reply(InternalError, ColorFailed), None;
    }
    if rereadFails {
      return Reply(InternalError, RereadFailed), None;
    }
    var after := industries.GetByID(id.value);
    RecolorFinds(old(industries.rows), id.value, color.value);
    return Reply(Ok, Recolored), Some(after.value);
  }

  /** After a colour change the row with that id is the old row with the
      new colour. */
  lemma {:induction false} RecolorFinds(rows: seq<IndustryRepository.Industry>, id: int, color: string)
    requires IndustryRepository.FindByID(rows, id).Some?
    ensures IndustryRepository.FindByID(IndustryRepository.Recolor(rows, id, color), id)
      == Some(IndustryRepository.FindByID(rows, id).value.(color := color))
  {
    var after := IndustryRepository.Recolor(rows, id, color);
    assert after[0] == if rows[0].id == id then rows[0].(color := color) else rows[0];
    if rows[0].id != id {
      assert after[1..] == IndustryRepository.Recolor(rows[1..], id, color);
      RecolorFinds(rows[1..], id, color);
    }
  }
}
