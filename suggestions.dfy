// The suggestions table: insert, the listing filtered by type and ordered
// by creation time, count and delete by id.

module SuggestionRepository {
  import opened Common
  import Ordering
  import Pagination
  import Query

  datatype Suggestion = Suggestion(id: int, kind: string, text: string, createdAt: int)

  /** Rows of that type, in table order; an empty type keeps every row. */
  function OfKind(rows: seq<Suggestion>, kind: string): (r: seq<Suggestion>)
    ensures |r| <= |rows|
  {
    if |rows| == 0 then []
    else
      var head := if kind == "" || rows[0].kind == kind then [rows[0]] else [];
      head + OfKind(rows[1..], kind)
  }

  lemma {:induction false} OfKindEffect(rows: seq<Suggestion>, kind: string, x: Suggestion)
    ensures x in OfKind(rows, kind) <==> x in rows && (kind == "" || x.kind == kind)
  {
    if |rows| > 0 {
      OfKindEffect(rows[1..], kind, x);
      assert rows == [rows[0]] + rows[1..];
    }
  }

  /** Creation times never decrease along the table. */
  predicate Chronological(rows: seq<Suggestion>)
  {
    forall i, j :: 0 <= i < j < |rows| ==> rows[i].createdAt <= rows[j].createdAt
  }

  /** A sub-sequence of a chronological table is chronological. */
  lemma {:induction false} OfKindChronological(rows: seq<Suggestion>, kind: string)
    requires Chronological(rows)
    ensures Chronological(OfKind(rows, kind))
  {
    if |rows| > 0 {
      OfKindChronological(rows[1..], kind);
      var rest := OfKind(rows[1..], kind);
      forall x | x in rest
        ensures rows[0].createdAt <= x.createdAt
      {
        OfKindEffect(rows[1..], kind, x);
        var k :| 0 <= k < |rows[1..]| && rows[1..][k] == x;
        assert rows[k + 1] == x;
      }
      var r := OfKind(rows, kind);
      forall i, j | 0 <= i < j < |r|
        ensures r[i].createdAt <= r[j].createdAt
      {
        if kind == "" || rows[0].kind == kind {
          assert r == [rows[0]] + rest;
          if i == 0 {
            assert r[j] == rest[j - 1];
            assert r[j] in rest;
          } else {
            assert r[i] == rest[i - 1] && r[j] == rest[j - 1];
          }
        }
      }
    }
  }

  /** `ORDER BY created_at`, DESC unless "asc": on a chronological table the
      ascending order is the table order. */
  function Ordered(rows: seq<Suggestion>, sortOrder: string): seq<Suggestion>
  {
    if Pagination.DescUnlessAsc(sortOrder) == Pagination.Asc then rows else Ordering.Reverse(rows)
  }

  /** What GetAll returns. */
  function Listed(rows: seq<Suggestion>, f: Query.SuggestionFilter): seq<Suggestion>
  {
    Pagination.PageRows(Ordered(OfKind(rows, f.kind), f.sortOrder),
      Pagination.NormalisePage(f.page), Pagination.NormaliseLimit(f.limit))
  }

  /** Every listed suggestion has the requested type, a page holds at most
      the limit, and without "asc" the newest come first. */
  lemma ListedOfKind(rows: seq<Suggestion>, f: Query.SuggestionFilter)
    requires Chronological(rows)
    ensures |Listed(rows, f)| <= Pagination.NormaliseLimit(f.limit)
    ensures forall x :: x in Listed(rows, f) ==> x in rows && (f.kind == "" || x.kind == f.kind)
    ensures f.sortOrder != "asc" ==>
      forall i, j :: 0 <= i < j < |Listed(rows, f)| ==> Listed(rows, f)[i].createdAt >= Listed(rows, f)[j].createdAt
  {
    var matched := OfKind(rows, f.kind);
    OfKindChronological(rows, f.kind);
    Ordering.ReverseSameElements(matched);
    var ordered := Ordered(matched, f.sortOrder);
    assert multiset(ordered) == multiset(matched);
    var page := Listed(rows, f);
    forall x | x in page
      ensures x in rows && (f.kind == "" || x.kind == f.kind)
    {
      assert x in ordered;
      assert x in multiset(matched);
      OfKindEffect(rows, f.kind, x);
    }
    if f.sortOrder != "asc" {
      ReverseNewestFirst(matched);
      PageNewestFirst(ordered, Pagination.NormalisePage(f.page), Pagination.NormaliseLimit(f.limit));
    }
  }

  /** Creation times never increase along the list. */
  predicate NewestFirst(rows: seq<Suggestion>)
  {
    forall i, j :: 0 <= i < j < |rows| ==> rows[i].createdAt >= rows[j].createdAt
  }

  lemma ReverseNewestFirst(rows: seq<Suggestion>)
    requires Chronological(rows)
    ensures NewestFirst(Ordering.Reverse(rows))
  {
    var r := Ordering.Reverse(rows);
    forall i, j | 0 <= i < j < |r|
      ensures r[i].createdAt >= r[j].createdAt
    {
      ReverseAt(rows, i);
      ReverseAt(rows, j);
    }
  }

  lemma PageNewestFirst(rows: seq<Suggestion>, page: int, limit: int)
    requires page >= 1 && limit >= 1
    requires NewestFirst(rows)
    ensures NewestFirst(Pagination.PageRows(rows, page, limit))
  {
    var r := Pagination.PageRows(rows, page, limit);
    var lo := Pagination.Offset(page, limit);
    forall i, j | 0 <= i < j < |r|
      ensures r[i].createdAt >= r[j].createdAt
    {
      assert r[i] == rows[lo + i] && r[j] == rows[lo + j];
    }
  }

  lemma {:induction false} ReverseAt<T>(s: seq<T>, k: int)
    requires 0 <= k < |s|
    ensures Ordering.Reverse(s)[k] == s[|s| - 1 - k]
  {
    if k < |s| - 1 {
      ReverseAt(s[1..], k);
    }
  }

  /** `DELETE FROM suggestions WHERE id`. */
  function Remove(rows: seq<Suggestion>, id: int): seq<Suggestion>
  {
    if |rows| == 0 then []
    else
      var head := if rows[0].id == id then [] else [rows[0]];
      head + Remove(rows[1..], id)
  }

  lemma {:induction false} RemoveEffect(rows: seq<Suggestion>, id: int, x: Suggestion)
    ensures x in Remove(rows, id) <==> x in rows && x.id != id
  {
    if |rows| > 0 {
      RemoveEffect(rows[1..], id, x);
      assert rows == [rows[0]] + rows[1..];
    }
  }

  /** Removing rows keeps the rest in chronological order. */
  lemma {:induction false} RemoveChronological(rows: seq<Suggestion>, id: int)
    requires Chronological(rows)
    ensures Chronological(Remove(rows, id))
  {
    if |rows| > 0 {
      RemoveChronological(rows[1..], id);
      var rest := Remove(rows[1..], id);
      var r := Remove(rows, id);
      if rows[0].id != id {
        forall j | 1 <= j < |r|
          ensures r[0].createdAt <= r[j].createdAt
        {
          assert r[j] == rest[j - 1];
          assert r[j] in rest;
          RemoveEffect(rows[1..], id, r[j]);
          var k :| 0 <= k < |rows[1..]| && rows[1..][k] == r[j];
          assert rows[k + 1] == r[j];
        }
        forall i, j | 1 <= i < j < |r|
          ensures r[i].createdAt <= r[j].createdAt
        {
          assert r[i] == rest[i - 1] && r[j] == rest[j - 1];
        }
      }
    }
  }

  /** The suggestions table; rows are inserted with the current time. */
  class SuggestionStore {
    var rows: seq<Suggestion>
    var nextID: int

    predicate Valid()
      reads this
    {
      && nextID >= 1
      && (forall k :: 0 <= k < |rows| ==> 1 <= rows[k].id < nextID)
      && Chronological(rows)
    }

    constructor ()
      ensures Valid() && rows == []
    {
      rows, nextID := [], 1;
    }

    /** Create: a fresh id, stamped `now`; the clock does not run
        backwards. */
    method Create(kind: string, text: string, now: int) returns (id: int)
      requires Valid()
      requires forall k :: 0 <= k < |rows| ==> rows[k].createdAt <= now
      modifies this
      ensures Valid()
      ensures id == old(nextID) && forall k :: 0 <= k < |old(rows)| ==> old(rows)[k].id != id
      ensures rows == old(rows) + [Suggestion(id, kind, text, now)]
    {
      id := nextID;
      rows := rows + [Suggestion(id, kind, text, now)];
      nextID := nextID + 1;
    }

    /** GetAll: the page of the listing and the number of rows of that
        type. */
    method GetAll(f: Query.SuggestionFilter) returns (page: seq<Suggestion>, total: nat)
      requires Valid()
      ensures page == Listed(rows, f)
      ensures total == |OfKind(rows, f.kind)|
      ensures forall x :: x in page ==> x in rows && (f.kind == "" || x.kind == f.kind)
    {
      ListedOfKind(rows, f);
      var matched := OfKind(rows, f.kind);
      total := |matched|;
      page := Pagination.PageRows(Ordered(matched, f.sortOrder),
        Pagination.NormalisePage(f.page), Pagination.NormaliseLimit(f.limit));
    }

    method Count() returns (n: nat)
      ensures n == |rows|
    {
      n := |rows|;
    }

    /** Delete: removes the suggestion with that id; an unknown id is not
        an error. */
    method Delete(id: int)
      requires Valid()
      modifies this
      ensures Valid()
      ensures rows == Remove(old(rows), id) && nextID == old(nextID)
      ensures forall x :: x in rows <==> x in old(rows) && x.id != id
    {
      RemoveChronological(rows, id);
      forall x
        ensures x in Remove(rows, id) <==> x in rows && x.id != id
      {
        RemoveEffect(rows, id, x);
      }
      rows := Remove(rows, id);
    }
  }
}
