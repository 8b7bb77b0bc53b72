// The four reference-data tables that share one repository layout: rating
// categories, benefit types, employment types and employment periods. Each
// row is an id, a name and a description; a row may be deleted only while
// nothing refers to it.

module Lookups {
  import opened Common
  import opened Text
  import Numbers
  import Ordering
  import Reviews

  datatype Kind = RatingCategory | BenefitType | EmploymentType | EmploymentPeriod

  /** One row of a reference-data table. */
  datatype Entry = Entry(id: int, name: string, description: string)

  /** The text of database/sql's "no rows" error. */
  const NoRows: string := "sql: no rows in result set"

  /** The noun each repository uses in its messages, in the genitive. */
  function Noun(kind: Kind): string
  {
    match kind
    case RatingCategory => "категории рейтинга"
    case BenefitType => "типа бенефита"
    case EmploymentType => "типа занятости"
    case EmploymentPeriod => "периода работы"
  }

  /** GetByID wraps every error, the absent row included. */
  function GetByIDError(kind: Kind): string
  {
    "ошибка при получении " + Noun(kind) + " по ID: " + NoRows
  }

  /** GetByName's answer when no row holds the name. */
  function NameNotFound(kind: Kind): string
  {
    match kind
    case RatingCategory => "категория не найдена"
    case BenefitType => "тип бенефита не найден"
    case EmploymentType => "тип занятости не найден"
    case EmploymentPeriod => "период не найден"
  }

  /** Whether the struct GetByName scans into lacks the created_at and
      updated_at fields its query selects: the rating-category,
      benefit-type and employment-type structs hold only id, name and
      description. The employment-period struct is not part of this model
      and is taken to hold the timestamps. */
  predicate ScanRejectsTimestamps(kind: Kind)
  {
    kind != EmploymentPeriod
  }

  function StructName(kind: Kind): string
  {
    match kind
    case RatingCategory => "RatingCategory"
    case BenefitType => "BenefitType"
    case EmploymentType => "EmploymentType"
    case EmploymentPeriod => "EmploymentPeriod"
  }

  /** The error of a strict scan meeting a selected column the struct has
      no field for, wrapped by GetByName. */
  function ScanError(kind: Kind): string
  {
    var noun := match kind
      case RatingCategory => "категории"
      case BenefitType => "типа бенефита"
      case EmploymentType => "типа занятости"
      case EmploymentPeriod => "периода";
    "ошибка при получении " + noun + ": missing destination name created_at in *models." + StructName(kind)
  }

  /** GetByName as the repositories have it: the absent name is reported
      as not found, and a present one fails the scan wherever the struct
      lacks the timestamps; a successful scan fills no description, since
      the query does not select it. */
  function GetByNameAsWritten(kind: Kind, rows: seq<Entry>, name: string): (r: Result<Entry>)
    ensures FindByName(rows, name).None? ==> r == Failure(NameNotFound(kind))
    ensures ScanRejectsTimestamps(kind) ==> r.Failure?
    ensures r.Success? ==> r.value.name == name && r.value.description == "" && r.value.id == FindByName(rows, name).value.id
  {
    match FindByName(rows, name)
    case None => Failure(NameNotFound(kind))
    case Some(e) =>
      if ScanRejectsTimestamps(kind) then Failure(ScanError(kind)) else Success(e.(description := ""))
  }

  /** A rating category that exists is nevertheless not found by name as
      written, while the corrected lookup finds it. */
  lemma GetByNameAsWrittenMissesExisting()
    ensures var rows := [Entry(1, "Зарплата", "")];
      && FindByName(rows, "Зарплата").Some?
      && GetByNameAsWritten(RatingCategory, rows, "Зарплата").Failure?
  {
  }

  /** The reference check failing in the database. */
  function CheckError(kind: Kind, err: string): string
  {
    var noun := if kind == RatingCategory then "категории" else Noun(kind);
    "ошибка при проверке использования " + noun + ": " + err
  }

  /** The subject of Delete's refusal. */
  function InUseSubject(kind: Kind): string
  {
    match kind
    case RatingCategory => "категория"
    case BenefitType => "тип бенефита"
    case EmploymentType => "тип занятости"
    case EmploymentPeriod => "период работы"
  }

  /** Where the row is used; the employment tables report how many reviews
      use it. */
  function InUsePlace(kind: Kind, count: int): string
  {
    match kind
    case RatingCategory => "рейтингах и не может быть удалена"
    case BenefitType => "отзывах и не может быть удален"
    case EmploymentType => Numbers.Itoa(count) + " отзывах и не может быть удален"
    case EmploymentPeriod => Numbers.Itoa(count) + " отзывах и не может быть удален"
  }

  /** The refusal of Delete. */
  function InUseMessage(kind: Kind, count: int): string
  {
    InUseSubject(kind) + " " + InUseWord + " в " + InUsePlace(kind, count)
  }

  const InUseWord := "используется"

  /** Every refusal of Delete carries the word the delete handlers look
      for, so a refused delete is always told apart from a failed one. */
  lemma InUseMessageMarked(kind: Kind, count: int)
    ensures Contains(InUseMessage(kind, count), "используется")
  {
    var a, w, b := InUseSubject(kind) + " ", InUseWord, " в " + InUsePlace(kind, count);
    assert InUseMessage(kind, count) == a + w + b;
    InfixContained(a, w, b);
  }

  /** The first row with that id. */
  function FindByID(rows: seq<Entry>, id: int): (r: Option<Entry>)
    ensures r.Some? ==> r.value in rows && r.value.id == id
    ensures r.None? <==> forall k :: 0 <= k < |rows| ==> rows[k].id != id
  {
    if |rows| == 0 then None else if rows[0].id == id then Some(rows[0]) else FindByID(rows[1..], id)
  }

  /** The first row with that name. */
  function FindByName(rows: seq<Entry>, name: string): (r: Option<Entry>)
    ensures r.Some? ==> r.value in rows && r.value.name == name
    ensures r.None? <==> forall k :: 0 <= k < |rows| ==> rows[k].name != name
  {
    if |rows| == 0 then None else if rows[0].name == name then Some(rows[0]) else FindByName(rows[1..], name)
  }

  /** `UPDATE ... SET name, description WHERE id`. */
  function Rename(rows: seq<Entry>, given: Entry): (r: seq<Entry>)
    ensures |r| == |rows|
  {
    seq(|rows|, k requires 0 <= k < |rows| =>
      if rows[k].id == given.id then rows[k].(name := given.name, description := given.description) else rows[k])
  }

  /** `DELETE ... WHERE id`. */
  function Remove(rows: seq<Entry>, id: int): seq<Entry>
  {
    if |rows| == 0 then []
    else
      var head := if rows[0].id == id then [] else [rows[0]];
      head + Remove(rows[1..], id)
  }

  /** Update writes name and description into the row with that id and
      nothing else anywhere. */
  lemma RenameEffect(rows: seq<Entry>, given: Entry, k: int)
    requires 0 <= k < |rows|
    ensures Rename(rows, given)[k].id == rows[k].id
    ensures rows[k].id != given.id ==> Rename(rows, given)[k] == rows[k]
    ensures rows[k].id == given.id ==> Rename(rows, given)[k] == given
  {
  }

  /** Delete removes exactly the rows with that id, keeping the rest. */
  lemma {:induction false} RemoveEffect(rows: seq<Entry>, id: int, x: Entry)
    ensures x in Remove(rows, id) <==> x in rows && x.id != id
  {
    if |rows| > 0 {
      RemoveEffect(rows[1..], id, x);
      assert rows == [rows[0]] + rows[1..];
    }
  }

  /** No two rows share a name. */
  predicate UniqueNames(rows: seq<Entry>)
  {
    forall i, j :: 0 <= i < j < |rows| ==> rows[i].name != rows[j].name
  }

  /** Ids are positive, below the serial, and unique. */
  predicate IdsBelow(rows: seq<Entry>, nextID: int)
  {
    && (forall k :: 0 <= k < |rows| ==> 1 <= rows[k].id < nextID)
    && (forall i, j :: 0 <= i < j < |rows| ==> rows[i].id != rows[j].id)
  }

  /** Removing rows keeps ids in range and unique, and names unique. */
  lemma RemoveKeeps(rows: seq<Entry>, id: int, nextID: int)
    ensures IdsBelow(rows, nextID) ==> IdsBelow(Remove(rows, id), nextID)
    ensures UniqueNames(rows) ==> UniqueNames(Remove(rows, id))
  {
    if IdsBelow(rows, nextID) {
      RemoveKeepsIds(rows, id, nextID);
    }
    if UniqueNames(rows) {
      RemoveKeepsNames(rows, id);
    }
  }

  /** The rows left by a delete are rows of the table. */
  lemma RemoveTail(rows: seq<Entry>, id: int)
    requires |rows| > 0
    ensures forall x :: x in Remove(rows[1..], id) ==> exists k :: 1 <= k < |rows| && rows[k] == x
  {
    forall x | x in Remove(rows[1..], id)
      ensures exists k :: 1 <= k < |rows| && rows[k] == x
    {
      RemoveEffect(rows[1..], id, x);
      var k :| 0 <= k < |rows[1..]| && rows[1..][k] == x;
      assert rows[k + 1] == x;
    }
  }

  lemma {:induction false} RemoveKeepsIds(rows: seq<Entry>, id: int, nextID: int)
    requires IdsBelow(rows, nextID)
    ensures IdsBelow(Remove(rows, id), nextID)
  {
    if |rows| > 0 {
      RemoveKeepsIds(rows[1..], id, nextID);
      RemoveTail(rows, id);
      var rest := Remove(rows[1..], id);
      var r := Remove(rows, id);
      assert r == (if rows[0].id == id then [] else [rows[0]]) + rest;
      forall i, j | 0 <= i < j < |r|
        ensures r[i].id != r[j].id
      {
        if rows[0].id != id && i == 0 {
          assert r[j] == rest[j - 1] && r[j] in rest;
        }
      }
      forall k | 0 <= k < |r|
        ensures 1 <= r[k].id < nextID
      {
        if rows[0].id != id && k > 0 {
          assert r[k] == rest[k - 1];
        }
      }
    }
  }

  lemma {:induction false} RemoveKeepsNames(rows: seq<Entry>, id: int)
    requires UniqueNames(rows)
    ensures UniqueNames(Remove(rows, id))
  {
    if |rows| > 0 {
      RemoveKeepsNames(rows[1..], id);
      RemoveTail(rows, id);
      var rest := Remove(rows[1..], id);
      var r := Remove(rows, id);
      assert r == (if rows[0].id == id then [] else [rows[0]]) + rest;
      forall i, j | 0 <= i < j < |r|
        ensures r[i].name != r[j].name
      {
        if rows[0].id != id && i == 0 {
          assert r[j] == rest[j - 1] && r[j] in rest;
        }
      }
    }
  }

  /** The tables that may refer to a reference-data row. */
  datatype References = References(
    reviews: seq<Reviews.ReviewRow>,
    reviewCategoryRatings: map<(int, int), real>,
    companyCategoryRatings: map<(int, int), real>,
    reviewBenefits: seq<(int, int)>)

  /** `SELECT COUNT(*) FROM <ratings> WHERE category_id = id`. */
  function CountCategory(ratings: map<(int, int), real>, id: int): nat
  {
    |set p | p in ratings && p.1 == id|
  }

  lemma CountCategoryPositive(ratings: map<(int, int), real>, id: int)
    ensures CountCategory(ratings, id) > 0 <==> exists p :: p in ratings && p.1 == id
  {
    var s := set p | p in ratings && p.1 == id;
    if exists p :: p in ratings && p.1 == id {
      var p :| p in ratings && p.1 == id;
      assert p in s;
    }
    if |s| > 0 {
      var p :| p in s;
    }
  }

  /** How many elements of `s` satisfy `p`. */
  function CountWhere<T>(s: seq<T>, p: T -> bool): nat
  {
    if |s| == 0 then 0 else (if p(s[0]) then 1 else 0) + CountWhere(s[1..], p)
  }

  lemma {:induction false} CountWherePositive<T>(s: seq<T>, p: T -> bool)
    ensures CountWhere(s, p) > 0 <==> exists k :: 0 <= k < |s| && p(s[k])
  {
    if |s| > 0 {
      CountWherePositive(s[1..], p);
      if exists k :: 0 <= k < |s| && p(s[k]) {
        var k :| 0 <= k < |s| && p(s[k]);
        if k > 0 {
          assert s[1..][k - 1] == s[k];
        }
      }
      if exists k :: 0 <= k < |s[1..]| && p(s[1..][k]) {
        var k :| 0 <= k < |s[1..]| && p(s[1..][k]);
        assert s[k + 1] == s[1..][k];
      }
    }
  }

  /** The counts the reference check of each table reads: two for rating
      categories (review ratings, then company ratings), one otherwise. */
  function UsageCounts(kind: Kind, refs: References, id: int): (counts: seq<nat>)
    ensures |counts| >= 1
    ensures kind != RatingCategory ==> |counts| == 1
  {
    match kind
    case RatingCategory => [CountCategory(refs.reviewCategoryRatings, id), CountCategory(refs.companyCategoryRatings, id)]
    case BenefitType => [CountWhere(refs.reviewBenefits, (b: (int, int)) => b.1 == id)]
    case EmploymentType => [CountWhere(refs.reviews, (r: Reviews.ReviewRow) => r.employmentTypeID == Some(id))]
    case EmploymentPeriod => [CountWhere(refs.reviews, (r: Reviews.ReviewRow) => r.employmentPeriodID == Some(id))]
  }

  /** Whether some row of another table refers to the row `id`. */
  predicate Referenced(kind: Kind, refs: References, id: int)
  {
    match kind
    case RatingCategory =>
      (exists p :: p in refs.reviewCategoryRatings && p.1 == id)
      || (exists p :: p in refs.companyCategoryRatings && p.1 == id)
    case BenefitType =>
      exists k :: 0 <= k < |refs.reviewBenefits| && refs.reviewBenefits[k].1 == id
    case EmploymentType =>
      exists k :: 0 <= k < |refs.reviews| && refs.reviews[k].employmentTypeID == Some(id)
    case EmploymentPeriod =>
      exists k :: 0 <= k < |refs.reviews| && refs.reviews[k].employmentPeriodID == Some(id)
  }

  /** Some count is positive exactly when some row refers to the entry. */
  lemma UsageMeansReference(kind: Kind, refs: References, id: int)
    ensures (exists i :: 0 <= i < |UsageCounts(kind, refs, id)| && UsageCounts(kind, refs, id)[i] > 0)
      <==> Referenced(kind, refs, id)
  {
    var counts := UsageCounts(kind, refs, id);
    match kind
    case RatingCategory =>
      CountCategoryPositive(refs.reviewCategoryRatings, id);
      CountCategoryPositive(refs.companyCategoryRatings, id);
      assert (exists i :: 0 <= i < |counts| && counts[i] > 0) <==> counts[0] > 0 || counts[1] > 0;
    case BenefitType =>
      CountWherePositive(refs.reviewBenefits, (b: (int, int)) => b.1 == id);
      assert (exists i :: 0 <= i < |counts| && counts[i] > 0) <==> counts[0] > 0;
    case EmploymentType =>
      CountWherePositive(refs.reviews, (r: Reviews.ReviewRow) => r.employmentTypeID == Some(id));
      assert (exists i :: 0 <= i < |counts| && counts[i] > 0) <==> counts[0] > 0;
    case EmploymentPeriod =>
      CountWherePositive(refs.reviews, (r: Reviews.ReviewRow) => r.employmentPeriodID == Some(id));
      assert (exists i :: 0 <= i < |counts| && counts[i] > 0) <==> counts[0] > 0;
  }

  /** The key the listing orders by. */
  function EntryName(e: Entry): string
  {
    e.name
  }

  /** One reference-data table. */
  class LookupStore {
    const kind: Kind
    var rows: seq<Entry>
    var nextID: int

    predicate Valid()
      reads this
    {
      nextID >= 1 && IdsBelow(rows, nextID)
    }

    constructor (kind: Kind)
      ensures Valid() && this.kind == kind && rows == []
    {
      this.kind := kind;
      rows, nextID := [], 1;
    }

    /** GetAll: every row, ordered by name. */
    method GetAll() returns (r: seq<Entry>)
      ensures multiset(r) == multiset(rows)
      ensures Ordering.SortedBy(r, EntryName)
    {
      r := Ordering.SortBy(rows, EntryName);
      Ordering.SortBySorted(rows, EntryName);
    }

    /** GetByID: the row, or the wrapped "no rows" error. */
    method GetByID(id: int) returns (r: Result<Entry>)
      ensures r.Success? <==> FindByID(rows, id).Some?
      ensures r.Success? ==> r.value == FindByID(rows, id).value
      ensures r.Failure? ==> r.msg == GetByIDError(kind)
    {
      var found := FindByID(rows, id);
      if found.None? {
        return Failure(GetByIDError(kind));
      }
      return Success(found.value);
    }

    /** GetByName: the row with that name, or the table's "not found". */
    method GetByName(name: string) returns (r: Result<Entry>)
      ensures r.Success? <==> FindByName(rows, name).Some?
      ensures r.Success? ==> r.value == FindByName(rows, name).value
      ensures r.Failure? ==> r.msg == NameNotFound(kind)
    {
      var found := FindByName(rows, name);
      if found.None? {
        return Failure(NameNotFound(kind));
      }
      return Success(found.value);
    }

    /** Count: the number of rows. */
    method Count() returns (n: nat)
      ensures n == |rows|
    {
      n := |rows|;
    }

    /** Create: inserts name and description under a fresh id. */
    method Create(name: string, description: string) returns (id: int)
      requires Valid()
      modifies this
      ensures Valid()
      ensures id == old(nextID) && FindByID(old(rows), id).None?
      ensures rows == old(rows) + [Entry(id, name, description)]
    {
      id := nextID;
      assert forall k :: 0 <= k < |rows| ==> rows[k].id != id;
      rows := rows + [Entry(id, name, description)];
      nextID := nextID + 1;
    }

    /** Update: name and description of the row with `given.id`; no such
        row is not an error. */
    method Update(given: Entry)
      requires Valid()
      modifies this
      ensures Valid()
      ensures rows == Rename(old(rows), given) && nextID == old(nextID)
    {
      rows := Rename(rows, given);
    }

    /** Delete: refused while another table refers to the row, the state
        unchanged; otherwise removes the row. `checkError` is a failure of
        the reference query. */
    method Delete(id: int, refs: References, checkError: Option<string>) returns (r: Outcome)
      requires Valid()
      modifies this
      ensures Valid()
      ensures nextID == old(nextID)
      ensures checkError.Some? ==> r == Fail(CheckError(kind, checkError.value))
      ensures checkError.None? ==> (r.Done? <==> !Referenced(kind, refs, id))
      ensures checkError.None? && r.Fail? ==> exists n :: r.msg == InUseMessage(kind, n)
      ensures kind != RatingCategory && checkError.None? && r.Fail? ==>
        r.msg == InUseMessage(kind, UsageCounts(kind, refs, id)[0])
      ensures r.Fail? ==> rows == old(rows)
      ensures r.Done? ==> rows == Remove(old(rows), id)
    {
      if checkError.Some? {
        return Fail(CheckError(kind, checkError.value));
      }
      var counts := UsageCounts(kind, refs, id);
      UsageMeansReference(kind, refs, id);
      if kind == RatingCategory {
        var found := FirstInUse(counts);
        if found.Some? {
          return Fail(InUseMessage(kind, found.value));
        }
      } else if counts[0] > 0 {
        return Fail(InUseMessage(kind, counts[0]));
      }
      RemoveKeeps(rows, id, nextID);
      rows := Remove(rows, id);
      return Done;
    }
  }
}
