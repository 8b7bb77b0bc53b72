// How a city is shown to people: "name, region, country" with the region
// left out when it is empty or repeats the name, the country left out
// when empty, and Kazakh cities shown without their region.

module CityFormat {
  import opened Common
  import opened Text
  import CityRepository

  const Kazakhstan: string := "Казахстан"

  /** The region is shown only when it says something the name does not. */
  predicate ShowsRegion(c: CityRepository.City)
  {
    c.region != "" && c.region != c.name
  }

  /** The parts FormatCity joins: the name, then the region when it is
      shown, then the country when it is not empty. */
  function PartsOf(c: CityRepository.City): seq<string>
  {
    [c.name] + (if ShowsRegion(c) then [c.region] else []) + (if c.country != "" then [c.country] else [])
  }

  /** FormatCity: "" for no city, and its parts joined by ", " otherwise. */
  function FormatCity(city: Option<CityRepository.City>): (r: string)
    ensures city.None? ==> r == ""
    ensures city.Some? ==> HasPrefix(r, city.value.name)
    ensures city.Some? && (ShowsRegion(city.value) || city.value.country != "") ==> HasPrefix(r, city.value.name + ", ")
    ensures city.Some? && !ShowsRegion(city.value) && city.value.country == "" ==> r == city.value.name
  {
    match city
    case None => ""
    case Some(c) =>
      var parts := PartsOf(c);
      if |parts| == 1 then Join(parts, ", ")
      else if |parts| == 2 then JoinTwo(parts[0], parts[1], ", "); Join(parts, ", ")
      else JoinThree(parts[0], parts[1], parts[2], ", "); Join(parts, ", ")
  }

  /** The display text always starts with the name, and it reads back:
      when no field holds a comma, splitting it at the commas gives the
      name, then each shown part after its one-space separator. */
  lemma FormatCityReadsBack(c: CityRepository.City)
    requires ',' !in c.name && ',' !in c.region && ',' !in c.country
    ensures HasPrefix(FormatCity(Some(c)), c.name)
    ensures Split(FormatCity(Some(c)), ',')
      == [c.name] + (if ShowsRegion(c) then [" " + c.region] else []) + (if c.country != "" then [" " + c.country] else [])
  {
    var spaced := [c.name] + (if ShowsRegion(c) then [" " + c.region] else []) + (if c.country != "" then [" " + c.country] else []);
    var s := FormatCity(Some(c));
    if ShowsRegion(c) && c.country != "" {
      assert PartsOf(c) == [c.name, c.region, c.country];
      JoinThree(c.name, c.region, c.country, ", ");
      JoinThree(c.name, " " + c.region, " " + c.country, ",");
      Respace(c.name + ", " + c.region, c.country);
      Respace(c.name, c.region);
    } else if ShowsRegion(c) {
      assert PartsOf(c) == [c.name, c.region];
      JoinTwo(c.name, c.region, ", ");
      JoinTwo(c.name, " " + c.region, ",");
      Respace(c.name, c.region);
    } else if c.country != "" {
      assert PartsOf(c) == [c.name, c.country];
      JoinTwo(c.name, c.country, ", ");
      JoinTwo(c.name, " " + c.country, ",");
      Respace(c.name, c.country);
    } else {
      assert PartsOf(c) == [c.name];
    }
    assert s == Join(spaced, ",");
    SplitJoin(spaced, ',');
  }

  /** ", " is "," followed by a space. */
  lemma Respace(a: string, b: string)
    ensures a + ", " + b == a + "," + (" " + b)
  {
    assert ", " == [',', ' '];
  }

  lemma JoinTwo(a: string, b: string, sep: string)
    ensures Join([a, b], sep) == a + sep + b
  {
    assert [a, b][1..] == [b];
  }

  lemma JoinThree(a: string, b: string, c: string, sep: string)
    ensures Join([a, b, c], sep) == a + sep + b + sep + c
  {
    assert [a, b, c][1..] == [b, c];
    JoinTwo(b, c, sep);
  }

  /** A review's location line (the review and its joined city may be
      missing): its city's display text, or "". */
  datatype ReviewPlace = ReviewPlace(city: Option<CityRepository.City>)

  /** FormatLocationInfo: "" for no review or a review without a city,
      and FormatCity of its city otherwise. */
  function FormatLocationInfo(review: Option<ReviewPlace>): (s: string)
    ensures review.None? || review.value.city.None? ==> s == ""
    ensures review.Some? && review.value.city.Some? ==> s == FormatCity(review.value.city)
    ensures s != "" ==> review.Some? && review.value.city.Some? && HasPrefix(s, review.value.city.value.name)
  {
    if review.None? then ""
    else if review.value.city.Some? then FormatCity(review.value.city)
    else ""
  }

  /** GetDisplayCityName: Kazakh cities as "name, country", every other
      city as FormatCity shows it. */
  function GetDisplayCityName(city: Option<CityRepository.City>): string
  {
    match city
    case None => ""
    case Some(c) => if c.country == Kazakhstan then c.name + ", " + c.country else FormatCity(city)
  }

  /** A Kazakh city is shown exactly as FormatCity shows it with the region
      blanked out, so its region never appears on its own; any other city
      is shown by FormatCity unchanged. */
  lemma DisplayHidesKazakhRegion(c: CityRepository.City)
    ensures c.country == Kazakhstan ==>
      GetDisplayCityName(Some(c)) == FormatCity(Some(c.(region := "")))
    ensures c.country != Kazakhstan ==> GetDisplayCityName(Some(c)) == FormatCity(Some(c))
  {
    if c.country == Kazakhstan {
      var r := c.(region := "");
      assert PartsOf(r) == [c.name, c.country];
      JoinTwo(c.name, c.country, ", ");
    }
  }

  /** GetCityName: "" for an id that is not positive, without looking the
      city up; otherwise the city's name, or "" when there is no such
      city. */
  method GetCityName(cities: CityRepository.CityStore, cityID: int) returns (name: string)
    ensures cityID <= 0 ==> name == ""
    ensures cityID > 0 && CityRepository.FindByID(cities.rows, cityID).None? ==> name == ""
    ensures cityID > 0 && CityRepository.FindByID(cities.rows, cityID).Some? ==>
      name == CityRepository.FindByID(cities.rows, cityID).value.name
    ensures name != "" ==> exists k :: 0 <= k < |cities.rows| && cities.rows[k].id == cityID && cities.rows[k].name == name
  {
    if cityID <= 0 {
      return "";
    }
    var city := cities.GetByID(cityID);
    if city.Failure? {
      return "";
    }
    return city.value.name;
  }
}
