// The company entity: its row in the companies table, the body of a
// create-company request, the size classes, and the constructor that
// builds a new company before it is stored.

module Companies {
  import opened Common

  /** One row of the companies table. */
  datatype CompanyRow = CompanyRow(
    id: int,
    name: string,
    slug: string,
    size: string,
    logo: string,
    website: string,
    email: string,
    phone: string,
    address: string,
    cityID: Option<int>,
    reviewsCount: int,
    averageRating: real,
    recommendationPercent: real,
    createdAt: int,
    updatedAt: int)

  /** The body of a create-company request. */
  datatype CompanyInput = CompanyInput(
    name: string,
    size: string,
    logo: string,
    website: string,
    email: string,
    phone: string,
    address: string,
    cityID: Option<int>,
    industries: seq<int>)

  /** The values the `oneof` tag of the size field accepts. */
  const SizeValues: set<string> := {"small", "medium", "large", "enterprise"}

  /** CompanySizes: each size class with its description. */
  const CompanySizes: map<string, string> := map[
    "small" := "до 50 сотрудников",
    "medium" := "50-200 сотрудников",
    "large" := "200-1000 сотрудников",
    "enterprise" := "более 1000 сотрудников"]

  /** NewCompany: the slug is provisionally the name, the aggregates start
      at zero, the creation and update times are both `now`, and every
      other field is the input's. The id is assigned on insert. */
  function NewCompany(input: CompanyInput, now: int): (c: CompanyRow)
    ensures c.slug == c.name == input.name
    ensures c.reviewsCount == 0 && c.averageRating == 0.0 && c.recommendationPercent == 0.0
    ensures c.createdAt == c.updatedAt == now
    ensures (c.size, c.logo, c.website, c.email, c.phone, c.address, c.cityID)
      == (input.size, input.logo, input.website, input.email, input.phone, input.address, input.cityID)
  {
    CompanyRow(0, input.name, input.name, input.size, input.logo, input.website, input.email,
      input.phone, input.address, input.cityID, 0, 0.0, 0.0, now, now)
  }
}
