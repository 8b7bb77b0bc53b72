// The industries table and the company_industries link table: the
// filtered, ordered and paginated listing, lookup by id and by a list of
// ids, the industries of a company, idempotent linking, unlinking, and the
// colour update that reports an unknown id.

module IndustryRepository {
  import opened Common
  import opened Text
  import Ordering
  import Pagination
  import Query

  datatype Industry = Industry(id: int, name: string, color: string)

  /** The not-found error of GetByID and UpdateColor. */
  const NotFoundMessage: string := "отрасль не найдена"

  function FindByID(rows: seq<Industry>, id: int): (r: Option<Industry>)
    ensures r.Some? ==> r.value in rows && r.value.id == id
    ensures r.None? <==> forall k :: 0 <= k < |rows| ==> rows[k].id != id
  {
    if |rows| == 0 then None else if rows[0].id == id then Some(rows[0]) else FindByID(rows[1..], id)
  }

  /** The first industry with exactly that name. */
  function FindByName(rows: seq<Industry>, name: string): (r: Option<Industry>)
    ensures r.Some? ==> r.value in rows && r.value.name == name
    ensures r.None? <==> forall k :: 0 <= k < |rows| ==> rows[k].name != name
  {
    if |rows| == 0 then None else if rows[0].name == name then Some(rows[0]) else FindByName(rows[1..], name)
  }

  predicate IdsBelow(rows: seq<Industry>, nextID: int)
  {
    && (forall k :: 0 <= k < |rows| ==> 1 <= rows[k].id < nextID)
    && (forall i, j :: 0 <= i < j < |rows| ==> rows[i].id != rows[j].id)
  }

  function IndustryName(x: Industry): string { x.name }

  /** Whether an industry's name matches the search; an empty search
      matches every industry. */
  predicate Matches(x: Industry, search: string)
  {
    search == "" || ILike(x.name, search)
  }

  /** The rows whose name matches the search, in table order. */
  function Filter(rows: seq<Industry>, search: string): (r: seq<Industry>)
    ensures |r| <= |rows|
  {
    if |rows| == 0 then []
    else
      var head := if Matches(rows[0], search) then [rows[0]] else [];
      head + Filter(rows[1..], search)
  }

  lemma {:induction false} FilterEffect(rows: seq<Industry>, search: string, x: Industry)
    ensures x in Filter(rows, search) <==> x in rows && Matches(x, search)
  {
    if |rows| > 0 {
      FilterEffect(rows[1..], search, x);
      assert rows == [rows[0]] + rows[1..];
    }
  }

  /** ORDER BY name, DESC only for "desc" (the filter admits no other sort
      column). */
  function Ordered(rows: seq<Industry>, sortOrder: string): seq<Industry>
  {
    var asc := Ordering.SortBy(rows, IndustryName);
    if Pagination.AscUnlessDesc(sortOrder) == Pagination.Asc then asc else Ordering.Reverse(asc)
  }

  /** What GetAll returns: the requested page of the ordered matches. */
  function Listed(rows: seq<Industry>, f: Query.IndustryFilter): seq<Industry>
  {
    Pagination.PageRows(Ordered(Filter(rows, f.search), f.sortOrder),
      Pagination.NormalisePage(f.page), Pagination.NormaliseLimit(f.limit))
  }

  /** Every listed industry matches the search, and a page holds at most
      the limit, ten by default. */
  lemma ListedMatches(rows: seq<Industry>, f: Query.IndustryFilter)
    ensures |Listed(rows, f)| <= Pagination.NormaliseLimit(f.limit)
    ensures f.limit <= 0 ==> |Listed(rows, f)| <= 10
    ensures forall x :: x in Listed(rows, f) ==> x in rows && Matches(x, f.search)
  {
    var matched := Filter(rows, f.search);
    var asc := Ordering.SortBy(matched, IndustryName);
    Ordering.ReverseSameElements(asc);
    var ordered := Ordered(matched, f.sortOrder);
    assert multiset(ordered) == multiset(matched);
    forall x | x in Listed(rows, f)
      ensures x in rows && Matches(x, f.search)
    {
      assert x in ordered;
      assert x in multiset(matched);
      FilterEffect(rows, f.search, x);
    }
  }

  /** An ascending page is in name order. */
  lemma ListedAscSorted(rows: seq<Industry>, f: Query.IndustryFilter)
    requires Pagination.AscUnlessDesc(f.sortOrder) == Pagination.Asc
    ensures Ordering.SortedBy(Listed(rows, f), IndustryName)
  {
    var matched := Filter(rows, f.search);
    Ordering.SortBySorted(matched, IndustryName);
    assert Ordered(matched, f.sortOrder) == Ordering.SortBy(matched, IndustryName);
    PageSorted(Ordering.SortBy(matched, IndustryName), Pagination.NormalisePage(f.page), Pagination.NormaliseLimit(f.limit));
  }

  /** A page of a list in name order is in name order. */
  lemma PageSorted(s: seq<Industry>, page: int, limit: int)
    requires page >= 1 && limit >= 1
    requires Ordering.SortedBy(s, IndustryName)
    ensures Ordering.SortedBy(Pagination.PageRows(s, page, limit), IndustryName)
  {
    var r := Pagination.PageRows(s, page, limit);
    var lo := Pagination.Offset(page, limit);
    forall i, j | 0 <= i < j < |r|
      ensures Ordering.StrLe(IndustryName(r[i]), IndustryName(r[j]))
    {
      assert r[i] == s[lo + i] && r[j] == s[lo + j];
    }
  }

  /** The rows whose id is in `ids`, in table order. */
  function Selected(rows: seq<Industry>, ids: seq<int>): (r: seq<Industry>)
    ensures |r| <= |rows|
  {
    if |rows| == 0 then []
    else
      var head := if rows[0].id in ids then [rows[0]] else [];
      head + Selected(rows[1..], ids)
  }

  lemma {:induction false} SelectedEffect(rows: seq<Industry>, ids: seq<int>, x: Industry)
    ensures x in Selected(rows, ids) <==> x in rows && x.id in ids
  {
    if |rows| > 0 {
      SelectedEffect(rows[1..], ids, x);
      assert rows == [rows[0]] + rows[1..];
    }
  }

  /** The industries linked to the company, in table order. */
  function OfCompany(rows: seq<Industry>, links: set<(int, int)>, companyID: int): (r: seq<Industry>)
    ensures |r| <= |rows|
  {
    if |rows| == 0 then []
    else
      var head := if (companyID, rows[0].id) in links then [rows[0]] else [];
      head + OfCompany(rows[1..], links, companyID)
  }

  lemma {:induction false} OfCompanyEffect(rows: seq<Industry>, links: set<(int, int)>, companyID: int, x: Industry)
    ensures x in OfCompany(rows, links, companyID) <==> x in rows && (companyID, x.id) in links
  {
    if |rows| > 0 {
      OfCompanyEffect(rows[1..], links, companyID, x);
      assert rows == [rows[0]] + rows[1..];
    }
  }

  /** `UPDATE industries SET color WHERE id`. */
  function Recolor(rows: seq<Industry>, id: int, color: string): (r: seq<Industry>)
    ensures |r| == |rows|
  {
    seq(|rows|, k requires 0 <= k < |rows| => if rows[k].id == id then rows[k].(color := color) else rows[k])
  }

  /** The colour update touches only the colour of the row with that id. */
  lemma RecolorEffect(rows: seq<Industry>, id: int, color: string, k: int)
    requires 0 <= k < |rows|
    ensures Recolor(rows, id, color)[k].id == rows[k].id
    ensures Recolor(rows, id, color)[k].name == rows[k].name
    ensures Recolor(rows, id, color)[k].color == (if rows[k].id == id then color else rows[k].color)
  {
  }

  /** `UPDATE industries SET name, color WHERE id`. */
  function Rewrite(rows: seq<Industry>, given: Industry): (r: seq<Industry>)
    ensures |r| == |rows|
  {
    seq(|rows|, k requires 0 <= k < |rows| => if rows[k].id == given.id then given else rows[k])
  }

  /** `DELETE FROM industries WHERE id`. */
  function Remove(rows: seq<Industry>, id: int): seq<Industry>
  {
    if |rows| == 0 then []
    else
      var head := if rows[0].id == id then [] else [rows[0]];
      head + Remove(rows[1..], id)
  }

  lemma {:induction false} RemoveEffect(rows: seq<Industry>, id: int, x: Industry)
    ensures x in Remove(rows, id) <==> x in rows && x.id != id
  {
    if |rows| > 0 {
      RemoveEffect(rows[1..], id, x);
      assert rows == [rows[0]] + rows[1..];
    }
  }

  lemma {:induction false} RemoveKeepsIds(rows: seq<Industry>, id: int, nextID: int)
    requires IdsBelow(rows, nextID)
    ensures IdsBelow(Remove(rows, id), nextID)
  {
    if |rows| > 0 {
      RemoveKeepsIds(rows[1..], id, nextID);
      forall x | x in Remove(rows[1..], id)
        ensures x.id != rows[0].id
      {
        RemoveEffect(rows[1..], id, x);
        var k :| 0 <= k < |rows[1..]| && rows[1..][k] == x;
        assert rows[k + 1] == x;
      }
    }
  }

  /** The industries table with the company_industries links, as
      (company, industry) pairs. */
  class IndustryStore {
    var rows: seq<Industry>
    var nextID: int
    var links: set<(int, int)>

    predicate Valid()
      reads this
    {
      nextID >= 1 && IdsBelow(rows, nextID)
    }

    constructor ()
      ensures Valid() && rows == [] && links == {}
    {
      rows, nextID, links := [], 1, {};
    }

    /** GetAll: the page of the ordered matching industries and the number
        of all matches. */
    method GetAll(f: Query.IndustryFilter) returns (page: seq<Industry>, total: nat)
      ensures page == Listed(rows, f)
      ensures total == |Filter(rows, f.search)|
      ensures forall x :: x in page ==> x in rows && Matches(x, f.search)
    {
      ListedMatches(rows, f);
      var matched := Filter(rows, f.search);
      total := |matched|;
      page := Pagination.PageRows(Ordered(matched, f.sortOrder),
        Pagination.NormalisePage(f.page), Pagination.NormaliseLimit(f.limit));
    }

    /** GetByID: the industry, or "отрасль не найдена". */
    method GetByID(id: int) returns (r: Result<Industry>)
      ensures r.Success? <==> FindByID(rows, id).Some?
      ensures r.Success? ==> r.value == FindByID(rows, id).value
      ensures r.Failure? ==> r.msg == NotFoundMessage
    {
      var found := FindByID(rows, id);
      if found.None? {
        return Failure(NotFoundMessage);
      }
      return Success(found.value);
    }

    /** GetByIDs: an empty list answers `[]` without a query; otherwise the
        rows whose id is listed, by name, fetched with one placeholder per
        id. */
    method GetByIDs(ids: seq<int>) returns (r: seq<Industry>)
      ensures |ids| == 0 ==> r == []
      ensures forall x :: x in r <==> x in rows && x.id in ids
      ensures |r| == |Selected(rows, ids)|
      ensures Ordering.SortedBy(r, IndustryName)
    {
      var query := Query.IdListQuery(ids);
      if query.None? {
        if |Selected(rows, ids)| > 0 {
          SelectedEffect(rows, ids, Selected(rows, ids)[0]);
        }
        return [];
      }
      var selected := Selected(rows, ids);
      Ordering.SortBySorted(selected, IndustryName);
      r := Ordering.SortBy(selected, IndustryName);
      forall x
        ensures x in r <==> x in rows && x.id in ids
      {
        assert x in r <==> x in multiset(selected);
        SelectedEffect(rows, ids, x);
      }
    }

    /** GetByCompanyID: the company's industries by name. */
    method GetByCompanyID(companyID: int) returns (r: seq<Industry>)
      ensures forall x :: x in r <==> x in rows && (companyID, x.id) in links
      ensures Ordering.SortedBy(r, IndustryName)
    {
      var linked := OfCompany(rows, links, companyID);
      Ordering.SortBySorted(linked, IndustryName);
      r := Ordering.SortBy(linked, IndustryName);
      forall x
        ensures x in r <==> x in rows && (companyID, x.id) in links
      {
        assert x in r <==> x in multiset(linked);
        OfCompanyEffect(rows, links, companyID, x);
      }
    }

    /** AddCompanyIndustry: ON CONFLICT DO NOTHING, so an existing link
        leaves the table as it was. */
    method AddCompanyIndustry(companyID: int, industryID: int)
      modifies this
      ensures links == old(links) + {(companyID, industryID)}
      ensures (companyID, industryID) in old(links) ==> links == old(links)
      ensures rows == old(rows) && nextID == old(nextID)
    {
      links := links + {(companyID, industryID)};
    }

    /** RemoveCompanyIndustry: drops that link only; a missing link is not
        an error. */
    method RemoveCompanyIndustry(companyID: int, industryID: int)
      modifies this
      ensures links == old(links) - {(companyID, industryID)}
      ensures forall p :: p in old(links) && p != (companyID, industryID) ==> p in links
      ensures rows == old(rows) && nextID == old(nextID)
    {
      links := links - {(companyID, industryID)};
    }

    /** UpdateColor: "отрасль не найдена" when no row was affected, else the
        colour of that row. */
    method UpdateColor(id: int, color: string) returns (r: Outcome)
      requires Valid()
      modifies this
      ensures Valid()
      ensures r.Done? <==> FindByID(old(rows), id).Some?
      ensures r.Fail? ==> r.msg == NotFoundMessage && rows == old(rows)
      ensures r.Done? ==> rows == Recolor(old(rows), id, color)
      ensures links == old(links) && nextID == old(nextID)
    {
      if FindByID(rows, id).None? {
        return Fail(NotFoundMessage);
      }
      rows := Recolor(rows, id, color);
      return Done;
    }

    /** The lookup by exact name the administration handlers call (its
        repository method is not part of the source): the first row of that
        name. */
    method GetByName(name: string) returns (r: Option<Industry>)
      ensures r == FindByName(rows, name)
    {
      r := FindByName(rows, name);
    }

    /** The insert the administration handlers call (its repository method
        is not part of the source): a fresh id. */
    method Create(name: string, color: string) returns (id: int)
      requires Valid()
      modifies this
      ensures Valid()
      ensures id == old(nextID) && FindByID(old(rows), id).None?
      ensures rows == old(rows) + [Industry(id, name, color)]
      ensures links == old(links)
    {
      id := nextID;
      assert forall k :: 0 <= k < |rows| ==> rows[k].id != id;
      rows := rows + [Industry(id, name, color)];
      nextID := nextID + 1;
    }

    /** The update of name and colour the administration handlers call. */
    method Update(given: Industry)
      requires Valid()
      modifies this
      ensures Valid()
      ensures rows == Rewrite(old(rows), given) && nextID == old(nextID) && links == old(links)
    {
      rows := Rewrite(rows, given);
    }

    /** The delete the administration handlers call: it either fails with
        the given error and changes nothing, or removes the row and its
        links. */
    method Delete(id: int, failure: Option<string>) returns (r: Outcome)
      requires Valid()
      modifies this
      ensures Valid()
      ensures failure.Some? ==> r == Fail(failure.value) && rows == old(rows) && links == old(links)
      ensures failure.None? ==> r == Done && rows == Remove(old(rows), id)
      ensures failure.None? ==> links == set p | p in old(links) && p.1 != id
      ensures nextID == old(nextID)
    {
      if failure.Some? {
        return Fail(failure.value);
      }
      RemoveKeepsIds(rows, id, nextID);
      rows := Remove(rows, id);
      links := set p | p in links && p.1 != id;
      return Done;
    }
  }
}
