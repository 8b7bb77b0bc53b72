// The city importer: a semicolon-separated file whose header names the
// name, region and country columns (in English or Russian, in any case),
// whose rows are trimmed, filtered and completed, and whose cities are
// inserted with ON CONFLICT DO NOTHING. Reading the file is left to the
// CSV reader: the model receives the header and each record already
// split, or a read error in their place.

module ImportCities {
  import opened Common
  import opened Text

  /** A city as the importer reads it. */
  datatype City = City(name: string, region: string, country: string)

  /** The role of a header column. */
  datatype Role = NameRole | RegionRole | CountryRole | NoRole

  const HeaderTooShort: string := "Неверный формат CSV. Требуются столбцы: name, region, country"
  const ColumnsMissing: string := "Не найдены обязательные столбцы: name, region, country"
  const HeaderUnreadable: string := "Ошибка чтения заголовка"

  /** A header cell, trimmed and lower-cased, and matched against the
      aliases of each column. */
  function RoleOf(cell: string): Role
  {
    var key := ToLower(TrimSpace(cell));
    if key == "name" || key == "город" then NameRole
    else if key == "region" || key == "регион" || key == "область" then RegionRole
    else if key == "country" || key == "страна" then CountryRole
    else NoRole
  }

  /** The role of every header cell, in header order. */
  function RolesOf(header: seq<string>): (roles: seq<Role>)
    ensures |roles| == |header|
  {
    seq(|header|, i requires 0 <= i < |header| => RoleOf(header[i]))
  }

  /** The position of the last cell of that role, or -1. */
  function LastOf(roles: seq<Role>, role: Role): int
  {
    if |roles| == 0 then -1
    else if roles[|roles| - 1] == role then |roles| - 1
    else LastOf(roles[..|roles| - 1], role)
  }

  /** LastOf finds the last cell of the role, and -1 means there is none. */
  lemma {:induction false} LastOfFinds(roles: seq<Role>, role: Role)
    ensures -1 <= LastOf(roles, role) < |roles|
    ensures LastOf(roles, role) >= 0 ==> roles[LastOf(roles, role)] == role
    ensures forall j :: LastOf(roles, role) < j < |roles| ==> roles[j] != role
    ensures LastOf(roles, role) == -1 <==> forall j :: 0 <= j < |roles| ==> roles[j] != role
  {
    if |roles| > 0 && roles[|roles| - 1] != role {
      var init := roles[..|roles| - 1];
      LastOfFinds(init, role);
      assert forall j :: 0 <= j < |init| ==> init[j] == roles[j];
    }
  }

  /** The column positions of name, region and country. */
  datatype Columns = Columns(name: nat, region: nat, country: nat)

  /** The columns a header names, when it names all three. */
  predicate Names(roles: seq<Role>, cols: Columns)
  {
    && cols.name < |roles| && cols.region < |roles| && cols.country < |roles|
    && roles[cols.name] == NameRole && roles[cols.region] == RegionRole && roles[cols.country] == CountryRole
    && (forall j :: cols.name < j < |roles| ==> roles[j] != NameRole)
    && (forall j :: cols.region < j < |roles| ==> roles[j] != RegionRole)
    && (forall j :: cols.country < j < |roles| ==> roles[j] != CountryRole)
  }

  /** Whether every column has a cell in the header. */
  predicate Complete(roles: seq<Role>)
  {
    LastOf(roles, NameRole) >= 0 && LastOf(roles, RegionRole) >= 0 && LastOf(roles, CountryRole) >= 0
  }

  /** The positions the header check settles on: the last cell of each role. */
  function ColumnsOf(roles: seq<Role>): Columns
    requires Complete(roles)
  {
    Columns(LastOf(roles, NameRole), LastOf(roles, RegionRole), LastOf(roles, CountryRole))
  }

  /** A complete header names its columns at their last cells, and an
      incomplete one lacks a column altogether. */
  lemma CompleteNames(roles: seq<Role>)
    ensures Complete(roles) ==> Names(roles, ColumnsOf(roles))
    ensures !Complete(roles) <==>
      || (forall j :: 0 <= j < |roles| ==> roles[j] != NameRole)
      || (forall j :: 0 <= j < |roles| ==> roles[j] != RegionRole)
      || (forall j :: 0 <= j < |roles| ==> roles[j] != CountryRole)
  {
    LastOfFinds(roles, NameRole);
    LastOfFinds(roles, RegionRole);
    LastOfFinds(roles, CountryRole);
  }

  /** The header check: fewer than three cells is refused; otherwise each
      cell's role sets that column's position, so the last matching cell
      wins, and a role no cell has is refused. */
  method FindColumns(header: seq<string>) returns (r: Result<Columns>)
    ensures |header| < 3 ==> r == Failure(HeaderTooShort)
    ensures |header| >= 3 ==> (r.Success? <==> Complete(RolesOf(header)))
    ensures |header| >= 3 && r.Failure? ==> r.msg == ColumnsMissing
    ensures r.Success? ==> r.value == ColumnsOf(RolesOf(header)) && Names(RolesOf(header), r.value)
  {
    if |header| < 3 {
      return Failure(HeaderTooShort);
    }
    ghost var roles := RolesOf(header);
    var nameIdx, regionIdx, countryIdx := -1, -1, -1;
    for i := 0 to |header|
      invariant nameIdx == LastOf(roles[..i], NameRole)
      invariant regionIdx == LastOf(roles[..i], RegionRole)
      invariant countryIdx == LastOf(roles[..i], CountryRole)
    {
      assert roles[..i + 1][..i] == roles[..i];
      var role := RoleOf(header[i]);
      assert roles[i] == role;
      match role
      case NameRole => nameIdx := i;
      case RegionRole => regionIdx := i;
      case CountryRole => countryIdx := i;
      case NoRole =>
    }
    assert roles[..|header|] == roles;
    if nameIdx == -1 || regionIdx == -1 || countryIdx == -1 {
      return Failure(ColumnsMissing);
    }
    CompleteNames(roles);
    return Success(Columns(nameIdx, regionIdx, countryIdx));
  }

  /** max over a non-empty list (the importer always passes three
      values): an element of the list that no element exceeds. */
  method Max(nums: seq<int>) returns (result: int)
    requires |nums| > 0
    ensures result in nums
    ensures forall k :: 0 <= k < |nums| ==> nums[k] <= result
  {
    result := nums[0];
    for i := 1 to |nums|
      invariant result in nums[..i]
      invariant forall k :: 0 <= k < i ==> nums[k] <= result
    {
      if nums[i] > result {
        result := nums[i];
      }
    }
    assert nums[..|nums|] == nums;
  }

  /** What one record becomes: nothing for a read error, for too few
      fields, or for an empty name or country after trimming; otherwise the
      trimmed city, its region defaulting to its name. */
  function Accept(record: Option<seq<string>>, cols: Columns): Option<City>
  {
    if record.None? then None
    else
      var fields := record.value;
      if |fields| <= cols.name || |fields| <= cols.region || |fields| <= cols.country then None
      else
        var name := TrimSpace(fields[cols.name]);
        var region := TrimSpace(fields[cols.region]);
        var country := TrimSpace(fields[cols.country]);
        if name == "" || country == "" then None
        else Some(City(name, if region == "" then name else region, country))
  }

  /** The cities of the accepted records, in record order. */
  function Accepted(records: seq<Option<seq<string>>>, cols: Columns): seq<City>
  {
    if |records| == 0 then []
    else
      var last := Accept(records[|records| - 1], cols);
      Accepted(records[..|records| - 1], cols) + (if last.Some? then [last.value] else [])
  }

  /** Every imported city has a name, a region and a country, none of them
      with white space at either end. */
  predicate Clean(c: City)
  {
    && c.name != "" && c.region != "" && c.country != ""
    && !IsSpace(c.name[0]) && !IsSpace(c.name[|c.name| - 1])
    && !IsSpace(c.region[0]) && !IsSpace(c.region[|c.region| - 1])
    && !IsSpace(c.country[0]) && !IsSpace(c.country[|c.country| - 1])
  }

  /** Accepted records give clean cities, and the region of a row with an
      empty region cell is the city's name. */
  lemma AcceptClean(record: Option<seq<string>>, cols: Columns)
    ensures Accept(record, cols).Some? ==> Clean(Accept(record, cols).value)
    ensures Accept(record, cols).Some? && TrimSpace(record.value[cols.region]) == "" ==>
      Accept(record, cols).value.region == Accept(record, cols).value.name
  {
  }

  lemma {:induction false} AcceptedClean(records: seq<Option<seq<string>>>, cols: Columns)
    ensures forall c :: c in Accepted(records, cols) ==> Clean(c)
  {
    if |records| > 0 {
      AcceptedClean(records[..|records| - 1], cols);
      AcceptClean(records[|records| - 1], cols);
    }
  }

  /** Filtering keeps the order of the file: the cities of two stretches of
      records are the cities of the first followed by those of the
      second. */
  lemma {:induction false} AcceptedAppend(a: seq<Option<seq<string>>>, b: seq<Option<seq<string>>>, cols: Columns)
    ensures Accepted(a + b, cols) == Accepted(a, cols) + Accepted(b, cols)
    decreases |b|
  {
    if |b| > 0 {
      var last := b[|b| - 1];
      assert (a + b)[..|a + b| - 1] == a + b[..|b| - 1];
      AcceptedAppend(a, b[..|b| - 1], cols);
    } else {
      assert a + b == a;
    }
  }

  /** The row loop: each record is skipped or appended in turn. */
  method ReadRows(records: seq<Option<seq<string>>>, cols: Columns) returns (cities: seq<City>)
    ensures cities == Accepted(records, cols)
    ensures forall c :: c in cities ==> Clean(c)
  {
    cities := [];
    for i := 0 to |records|
      invariant cities == Accepted(records[..i], cols)
    {
      assert records[..i + 1][..i] == records[..i];
      var record := records[i];
      if record.None? {
        continue;
      }
      var m := Max([cols.name, cols.region, cols.country]);
      assert [cols.name, cols.region, cols.country][0] <= m;
      assert [cols.name, cols.region, cols.country][1] <= m;
      assert [cols.name, cols.region, cols.country][2] <= m;
      if |record.value| <= m {
        assert m in [cols.name, cols.region, cols.country];
        continue;
      }
      var name := TrimSpace(record.value[cols.name]);
      var region := TrimSpace(record.value[cols.region]);
      var country := TrimSpace(record.value[cols.country]);
      if name == "" || country == "" {
        continue;
      }
      if region == "" {
        region := name;
      }
      cities := cities + [City(name, region, country)];
    }
    assert records[..|records|] == records;
    AcceptedClean(records, cols);
  }

  /** The insert loop: ON CONFLICT (name, region, country) DO NOTHING, so
      the table ends up holding what it held and every imported city, each
      once. */
  method InsertAll(table: set<City>, cities: seq<City>) returns (after: set<City>)
    ensures forall c :: c in after <==> c in table || c in cities
  {
    after := table;
    for i := 0 to |cities|
      invariant forall c :: c in after <==> c in table || c in cities[..i]
    {
      assert cities[..i + 1] == cities[..i] + [cities[i]];
      after := after + {cities[i]};
    }
    assert cities[..|cities|] == cities;
  }

  /** The whole import: an unreadable header, a short header or a missing
      column stops it before anything is inserted; otherwise the accepted
      cities are added to the table. */
  method Import(header: Option<seq<string>>, records: seq<Option<seq<string>>>, table: set<City>)
    returns (r: Result<set<City>>)
    ensures header.None? ==> r == Failure(HeaderUnreadable)
    ensures header.Some? && |header.value| < 3 ==> r == Failure(HeaderTooShort)
    ensures r.Success? <==> header.Some? && |header.value| >= 3 && Complete(RolesOf(header.value))
    ensures r.Success? ==>
      forall c :: c in r.value <==> c in table || c in Accepted(records, ColumnsOf(RolesOf(header.value)))
  {
    if header.None? {
      return Failure(HeaderUnreadable);
    }
    var cols := FindColumns(header.value);
    if cols.Failure? {
      return Failure(cols.msg);
    }
    var cities := ReadRows(records, cols.value);
    var after := InsertAll(table, cities);
    return Success(after);
  }
}
