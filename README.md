# Review platform backend — a verified model

This project models the rules of a company-review service written in Go:
- Users register and sign in with refresh tokens.
- They submit reviews of employers, which moderators approve or reject.
- They mark approved reviews as useful.
- Administrators manage users, reviews and the reference tables (cities, industries, rating categories, benefit types, employment types and periods).
- A company's stored aggregates (review count, mean rating, recommendation share, per-category means) are rebuilt from its approved reviews.
- A start-up routine applies SQL migrations.
- A script imports cities from a CSV file.

Each database table is a field of a repository class (`seq` of rows, `set` of links), and each repository method changes those fields as its SQL statement does. Handlers are methods over the stores. Their outcomes are a `Reply` (HTTP status and message) and the new state of the stores they touch. Pure utilities are functions with lemmas:
- slugs;
- query-parameter parsing;
- placeholder numbering;
- pagination arithmetic;
- city formatting;
- the phone validator.

Loops in the source (the importer's column scan and row filter, the migration loops, the rating and benefit inserts, the industry check) are methods with loop invariants, proved against the functions that specify them.

Modules follow the source tree:
- models: `Reviews`, `Users`, `Companies`;
- repositories: `ReviewRepository`, `CompanyRepository`, `UserRepository`, `TokenRepository`, `CityRepository`, `IndustryRepository`, `Lookups`, `SuggestionRepository`;
- handlers: `Auth`, `ReviewHandlers`, `CompanyHandlers`, `CityHandlers`, `IndustryHandlers`, `UserHandlers`, `AdminUsers`, `AdminReviews`, `AdminCities`, `AdminIndustries`, `AdminLookups`;
- `Middleware`;
- utilities: `Slug`, `CityFormat`, `Validators`, `Numbers`, `Pagination`, `Query`, `Ordering`, `Text`;
- `ImportCities`;
- `Migrations`.

Many handler and store properties are stated for every company together. For example, a store is "in sync" for a company when its stored aggregates equal the aggregates computed from the current reviews. Every handler that changes reviews, in its corrected form where the source is wrong, is proved to keep every company in sync on success. The corrected forms are AdminReviews.UpdateReview, which also recomputes when an approved review leaves that status, and ReviewHandlers.MarkReviewAsUsefulCounted and RemoveUsefulMarkCounted, which keep the useful count in step with the marks. The handlers as written are kept beside them, with the lemmas that show where they drift.

## Model

| member | source | states |
|---|---|---|
| Common.FirstInUse | internal/repository/city_repository.go:199-207 | the reference-check loop reports the count of the first table that still references the row: that count is positive and every earlier count is zero; it reports none exactly when every count is zero |
| Numbers.Atoi | internal/handlers/admin.go:222-226 | strconv.Atoi as the id parsers use it: a sign and digits only, None for any other text or a value outside 64 bits |
| Numbers.AtoiItoa | internal/handlers/admin.go:222-226 | every 64-bit id printed with %d parses back to itself, so a path id survives the round trip |
| Pagination.NormalisePage | internal/repository/city_repository.go:63-65 | a non-positive page becomes page 1 and a positive page is kept |
| Pagination.NormaliseLimit | internal/repository/city_repository.go:66-68 | a non-positive limit becomes 10 and a positive limit is kept |
| Pagination.Offset | internal/repository/city_repository.go:70 | the offset of a normalised page is (page - 1) * limit and never negative |
| Pagination.PageCountIsCeiling | internal/handlers/user.go:165 | the "pages" field (total + limit - 1) / limit is the least page count that holds every row |
| Pagination.RowOnOnePage | internal/handlers/city.go:77 | every row before the total lies on exactly one page, and that page is within the reported page count |
| Pagination.DescUnlessAsc | internal/repository/review_repository.go:237-240 | the review lists sort descending unless the order is exactly "asc" |
| Pagination.AscUnlessDesc | internal/repository/city_repository.go:58-61 | the city, industry and company lists sort ascending unless the order is exactly "desc" |
| Pagination.PageRows | internal/repository/city_repository.go:70-79 | LIMIT/OFFSET returns the rows of the page in order from the offset: none when the offset is past the end, the rows left when fewer than limit remain, otherwise exactly limit rows |
| Query.AddIf | internal/repository/review_repository.go:182-186 | a set filter field adds its condition with the next placeholder and appends its value as that placeholder's argument; an unset field changes nothing |
| Query.Paginate | internal/repository/review_repository.go:241-258 | page and limit take their defaults, LIMIT and OFFSET are the two placeholders after the filters, bound to the limit and (page - 1) * limit, and the count query binds the filter arguments alone |
| Query.ReviewListing | internal/repository/review_repository.go:172-258 | getReviews binds status, company, user, minimum and maximum rating, former-employee flag and city from $1 in that order, each placeholder to its own value; sorts by created_at unless given, descending unless "asc" |
| Query.UserReviewListing | internal/repository/review_repository.go:334-402 | GetByUser binds the user id as $1 and the other filters from $2; the filter's own user id, maximum rating and former-employee flag are ignored |
| Query.PendingListing | internal/repository/review_repository.go:478-534 | GetPending binds company and a positive city id from $1 and sorts ascending unless "desc" |
| Query.AddInList | internal/repository/company_repository.go:245-255 | a non-empty industry list takes one placeholder per id, in input order, continuing the running count, each bound to its id |
| Query.CompanySortColumn | internal/repository/company_repository.go:287-300 | "rating", "reviews_count" and "created_at" select c.average_rating, c.reviews_count and c.created_at, and every other key, "name" included, sorts by c.name |
| Query.CompanyListing | internal/repository/company_repository.go:227-323 | the company GetAll binds search, industries, size, minimum rating, city name and city id from $1 in that order, then LIMIT and OFFSET |
| Query.CityListing | internal/repository/city_repository.go:24-79 | one search argument serves both the name and the region ILIKE, the country takes the next placeholder, sort by name unless given, ascending unless "desc" |
| Query.IndustryListing | internal/repository/industry_repository.go:24-73 | an optional name search is $1, sort by name unless given, ascending unless "desc" |
| Query.SuggestionListing | internal/repository/suggestion_repository.go:43-83 | with a type filter the type is $1 and LIMIT/OFFSET are $2/$3, without it $1/$2; ordered by creation time, descending unless "asc" |
| Query.InList | internal/repository/industry_repository.go:114-126 | an IN list has one placeholder per id, numbered from its start, bound to the ids in order |
| Query.IdListQuery | internal/repository/industry_repository.go:109-126 | GetByIDs sends no query for an empty list and otherwise binds $1..$n to the ids |
| Query.UsefulMarksQuery | internal/repository/review_repository.go:791-809 | GetUsefulMarksByReviews sends no query for an empty list; otherwise the user id is $1 and the review ids take $2..$(n+1) |
| Query.NumberedBinds | internal/repository/review_repository.go:178-222 | under the running argID numbering, placeholder $p of every condition is bound to args[p - 1], the value that condition tests |
| Reviews.ParseStatus | internal/models/review.go:11-15 | a status column or oneof field parses only from "pending", "approved" and "rejected", each to its own status |
| Reviews.StatusNamesRoundTrip | internal/models/review.go:11-15 | the three statuses have three distinct spellings, each parses back to its status, and no other text parses |
| Reviews.RoundTenthBounds | internal/models/review.go:124-128 | rounding the mean to one decimal moves it by at most 0.05 and keeps a mean between 1 and 5 within 1 and 5 |
| Reviews.MeanOfValidInput | internal/models/review.go:82-93 | a valid review input, with every category rated 1 to 5, has a mean between 1 and 5 |
| Reviews.SumRatings | internal/models/review.go:117-122 | the rating loop adds up every category rating once and counts them |
| Reviews.AverageRating | internal/models/review.go:117-128 | the review rating is the mean of the category ratings rounded to one decimal, 0 with no ratings, and between 1 and 5 when every rating is |
| Reviews.Review.ApproveReview | internal/models/review.go:148-156 | approval sets the status to approved and both the update and approval times to now; only a non-empty comment replaces the moderation comment; nothing else changes |
| Reviews.Review.RejectReview | internal/models/review.go:158-164 | rejection sets the status to rejected and the update time to now, leaves the approval time, and only a non-empty comment replaces the comment |
| Reviews.NewReview | internal/models/review.go:114-146 | a new review is pending, has no useful marks, is created and updated now, copies the input, and its rating is the rounded mean (between 1 and 5 for a valid input) |
| Aggregates.ApprovedMembership | internal/repository/company_repository.go:378-395 | a review row counts towards a company's aggregates exactly when it is an approved review of that company |
| Aggregates.IgnoresOtherRows | internal/repository/company_repository.go:378-395 | a pending or rejected review, or one of another company, never moves any aggregate wherever it sits |
| Aggregates.ApprovalAddsOne | internal/repository/company_repository.go:385-389 | approving one not yet approved review of the company raises its reviews_count by exactly one |
| Aggregates.ApprovedAfterWrite | internal/repository/company_repository.go:378-395 | rewriting a row that is an approved review of the company neither before nor after leaves its approved reviews unchanged |
| Aggregates.ApprovedAfterDrop | internal/repository/company_repository.go:378-395 | deleting a row that is not an approved review of the company leaves its approved reviews unchanged |
| Aggregates.PercentageBounds | internal/repository/company_repository.go:390-394 | the recommendation percentage is always between 0 and 100 |
| Aggregates.AverageBounds | internal/repository/company_repository.go:380-384 | with every rating from 1 to 5, the average rating is between 1 and 5 once the company has an approved review |
| Aggregates.CategoryMeansDomain | internal/repository/company_repository.go:413-420 | a category gets a company rating exactly when an approved review of the company was rated in it |
| Companies.NewCompany | internal/models/company.go:71-92 | a new company has its name as provisional slug, zero aggregates, creation and update time now, and every other field from the input |
| Reviews.RoundHalfAway | internal/models/review.go:127 | math.Round: the nearest integer, so the result is within one half of its argument |
| CompanyRepository.RecomputeRow | internal/repository/company_repository.go:378-399 | the aggregate UPDATE rewrites only the row with that id, and sets its count, average, percentage and update time from the approved reviews |
| CompanyRepository.RebuildCategoriesEffect | internal/repository/company_repository.go:403-422 | after the delete and re-insert the company has a category rating exactly for the categories with a mean, holding that mean, and no other company's ratings change |
| CompanyRepository.RecomputeSyncs | internal/repository/company_repository.go:378-399 | recomputing a company brings it in line with its approved reviews and leaves every other company as it was |
| CompanyRepository.CompanyStore.Create | internal/repository/company_repository.go:24-67 | inserts the company under a fresh id and returns that id; nothing else changes |
| CompanyRepository.CompanyStore.GetByID | internal/repository/company_repository.go:69-112 | the stored company with that id, or the error "компания не найдена" when there is none |
| CompanyRepository.CompanyStore.GetBySlug | internal/repository/company_repository.go:114-157 | the company with that slug, or "компания не найдена" |
| CompanyRepository.CompanyStore.GetByName | internal/repository/company_repository.go:159-177 | the company with that exact name, or "компания не найдена" |
| CompanyRepository.CompanyStore.Update | internal/repository/company_repository.go:179-211 | writes every column but the id and created_at into the row with the company's id, and touches no other row |
| CompanyRepository.CompanyStore.AddCategoryRating | internal/repository/company_repository.go:433-446 | inserts the category rating, or overwrites it on conflict |
| CompanyRepository.CompanyStore.UpdateRating | internal/repository/company_repository.go:371-431 | in one transaction recomputes the aggregates and rebuilds the category ratings; any failing statement rolls everything back |
| CompanyRepository.UpdateRatingStoresAggregates | internal/repository/company_repository.go:378-422 | after a successful UpdateRating the row holds exactly the aggregates of the approved reviews, and the category ratings exactly their per-category means |
| ReviewRepository.ReplaceEffect | internal/repository/review_repository.go:610-642 | an update touches only the row with the given id and only its SET columns: the author, company, useful count and creation time survive |
| ReviewRepository.RemoveEffect | internal/repository/review_repository.go:644-656 | a delete removes exactly the rows with that id and keeps the others in order |
| ReviewRepository.AdjustUsefulEffect | internal/repository/review_repository.go:721-734 | the useful-count update changes that one column of the row with the id and nothing else |
| ReviewRepository.ReplaceOne | internal/repository/review_repository.go:610-642 | with unique ids an update rewrites exactly the row that holds the id |
| ReviewRepository.RemoveOne | internal/repository/review_repository.go:644-656 | with unique ids a delete drops exactly the row that holds the id |
| ReviewRepository.ReviewStore.Create | internal/repository/review_repository.go:24-67 | inserts the row under a fresh id and returns that id |
| ReviewRepository.ReviewStore.GetByID | internal/repository/review_repository.go:69-143 | the stored row, or the error "отзыв не найден" |
| ReviewRepository.ReviewStore.Update | internal/repository/review_repository.go:610-642 | writes the SET columns of the row with the review's id; no such row is not an error |
| ReviewRepository.ReviewStore.Delete | internal/repository/review_repository.go:644-656 | removes the row with that id; no such row is not an error |
| ReviewRepository.ReviewStore.AddCategoryRating | internal/repository/review_repository.go:658-671 | inserts the category rating of the review, or overwrites it on conflict |
| ReviewRepository.ReviewStore.AddBenefit | internal/repository/review_repository.go:673-685 | appends the benefit row |
| ReviewRepository.ReviewStore.MarkReviewAsUseful | internal/repository/review_repository.go:721-734 | adds one to the review's useful count and changes nothing else |
| ReviewRepository.ReviewStore.AddUsefulMark | internal/repository/review_repository.go:736-749 | inserts the mark, doing nothing on conflict, so adding an existing mark changes nothing |
| ReviewRepository.ReviewStore.RemoveUsefulMark | internal/repository/review_repository.go:751-772 | deletes the mark; when there was none it fails with "отметка 'полезно' не найдена" and changes nothing |
| ReviewRepository.ReviewStore.HasUserMarkedReviewAsUseful | internal/repository/review_repository.go:774-789 | true exactly when the user's mark on that review exists |
| ReviewRepository.ReviewStore.GetUsefulMarksByReviews | internal/repository/review_repository.go:791-827 | an empty id list gives an empty map without a query; otherwise the map holds true for exactly the listed reviews the user marked |
| ReviewRepository.ReviewStore.UnmarkReviewAsUseful | internal/repository/review_repository.go:721-734 | the decrement that mirrors MarkReviewAsUseful: useful_count of that review drops by one and nothing else changes (the repository has only the increment) |
| CityRepository.RewriteEffect | internal/repository/city_repository.go:165-186 | an update changes name, region and country of the row with that id and no other row |
| CityRepository.RemoveEffect | internal/repository/city_repository.go:210-215 | a delete removes exactly the rows with that id and keeps the rest |
| CityRepository.FilterEffect | internal/repository/city_repository.go:30-49 | a city passes the WHERE clause exactly when its name or region contains the search case-insensitively and its country equals a given country |
| CityRepository.ListedMatches | internal/repository/city_repository.go:24-94 | every listed city matches the filter and a page holds at most the limit, ten by default |
| CityRepository.CityStore.GetAll | internal/repository/city_repository.go:24-94 | the page of the ordered matching cities, and the number of all matching cities |
| CityRepository.CityStore.GetByID | internal/repository/city_repository.go:96-113 | the city with that id, or "город не найден" |
| CityRepository.CityStore.Create | internal/repository/city_repository.go:142-163 | inserts the city under a fresh id |
| CityRepository.CityStore.Update | internal/repository/city_repository.go:165-186 | writes name, region and country into the row with the city's id |
| CityRepository.CityStore.Delete | internal/repository/city_repository.go:188-218 | refuses, changing nothing, while a company or a user names the city; otherwise removes it; a failing check query is an error |
| IndustryRepository.FilterEffect | internal/repository/industry_repository.go:33-38 | an industry passes the WHERE clause exactly when its name contains the search case-insensitively; an empty search keeps all |
| IndustryRepository.ListedMatches | internal/repository/industry_repository.go:24-88 | every listed industry matches the search and a page holds at most the limit, ten by default |
| IndustryRepository.ListedAscSorted | internal/repository/industry_repository.go:52-71 | an ascending page is in name order |
| IndustryRepository.SelectedEffect | internal/repository/industry_repository.go:109-135 | GetByIDs returns exactly the rows whose id is listed |
| IndustryRepository.OfCompanyEffect | internal/repository/industry_repository.go:137-153 | an industry belongs to a company's list exactly when a link joins them |
| IndustryRepository.RecolorEffect | internal/repository/industry_repository.go:184-206 | the colour update changes only the colour of the row with that id |
| IndustryRepository.IndustryStore.GetAll | internal/repository/industry_repository.go:24-88 | the page of the ordered matching industries and the number of all matches |
| IndustryRepository.IndustryStore.GetByID | internal/repository/industry_repository.go:90-107 | the industry, or "отрасль не найдена" |
| IndustryRepository.IndustryStore.GetByIDs | internal/repository/industry_repository.go:109-135 | an empty list answers [] without a query; otherwise the rows whose id is listed, in name order |
| IndustryRepository.IndustryStore.GetByCompanyID | internal/repository/industry_repository.go:137-153 | the company's linked industries in name order |
| IndustryRepository.IndustryStore.AddCompanyIndustry | internal/repository/industry_repository.go:155-168 | adds the link; an existing link leaves the table as it was |
| IndustryRepository.IndustryStore.RemoveCompanyIndustry | internal/repository/industry_repository.go:170-182 | drops that link only; a missing link is not an error |
| IndustryRepository.IndustryStore.UpdateColor | internal/repository/industry_repository.go:184-206 | fails with "отрасль не найдена" and changes nothing when no row has the id; otherwise recolours that row |
| IndustryRepository.IndustryStore.GetByName | internal/handlers/admin.go:876 | the first industry with exactly that name, or none |
| IndustryRepository.IndustryStore.Create | internal/handlers/admin.go:887 | inserts the industry under a fresh id |
| IndustryRepository.IndustryStore.Update | internal/handlers/admin.go:952 | writes name and colour into the row with the industry's id |
| IndustryRepository.IndustryStore.Delete | internal/handlers/admin.go:994 | either fails with the given error and changes nothing, or removes the row and its company links |
| Lookups.GetByNameAsWritten | internal/repository/rating_category_repository.go:54-71 | GetByName as written: an absent name is "not found", and a present one fails its scan wherever the struct lacks the selected timestamp columns |
| Lookups.GetByNameAsWrittenMissesExisting | internal/repository/rating_category_repository.go:56-63 | a rating category that exists is not found by name as written, while the corrected lookup finds it |
| Lookups.InUseMessageMarked | internal/repository/rating_category_repository.go:145-147 | every refusal of a delete carries the word "используется" the delete handlers test for |
| Lookups.RenameEffect | internal/repository/rating_category_repository.go:105-125 | an update writes name and description into the row with that id and nothing else anywhere |
| Lookups.RemoveEffect | internal/repository/rating_category_repository.go:150-154 | a delete removes exactly the rows with that id and keeps the rest |
| Lookups.RemoveKeeps | internal/repository/rating_category_repository.go:150-154 | removing rows keeps ids in range and unique, and names unique |
| Lookups.UsageCounts | internal/repository/rating_category_repository.go:127-133 | the reference check reads two counts for rating categories (review ratings, then company ratings) and one for the other lookups |
| Lookups.UsageMeansReference | internal/repository/rating_category_repository.go:127-148 | some count is positive exactly when some row refers to the entry |
| Lookups.LookupStore.GetAll | internal/repository/rating_category_repository.go:22-36 | every row, ordered by name |
| Lookups.LookupStore.GetByID | internal/repository/rating_category_repository.go:38-52 | the row with that id, or the wrapped "no rows" error |
| Lookups.LookupStore.GetByName | internal/repository/rating_category_repository.go:54-71 | the row with that name, or the table's "not found" message |
| Lookups.LookupStore.Count | internal/repository/rating_category_repository.go:73-81 | the number of rows |
| Lookups.LookupStore.Create | internal/repository/rating_category_repository.go:83-103 | inserts name and description under a fresh id |
| Lookups.LookupStore.Update | internal/repository/rating_category_repository.go:105-125 | writes name and description into the row with the entry's id; no such row is not an error |
| Lookups.LookupStore.Delete | internal/repository/rating_category_repository.go:127-157 | refused while another table refers to the row, with the state unchanged; a failing check query is an error; otherwise removes the row |
| UserRepository.ReplaceEffect | internal/repository/user_repository.go:91-115 | an update never changes an id, an email or a creation time, leaves other users alone, and makes the matching row read back phone, names, role, hash and update time |
| UserRepository.RemoveEffect | internal/repository/user_repository.go:117-124 | a delete removes exactly the user with that id |
| UserRepository.RemoveKeepsOrder | internal/repository/user_repository.go:117-124 | a delete keeps the table ordered by id and within the serial |
| UserRepository.RoleCountPositive | internal/repository/user_repository.go:136-144 | the count by role is positive exactly when some user holds the role, and never exceeds the number of users |
| UserRepository.RoleCountUpdate | internal/repository/user_repository.go:91-115 | changing one user's role moves the role counts by that user alone |
| UserRepository.RoleCountRemove | internal/repository/user_repository.go:117-124 | deleting a user removes its role from the counts and nothing else |
| UserRepository.ReplaceOne | internal/repository/user_repository.go:91-115 | with unique ids an update rewrites exactly the row holding the id |
| UserRepository.PagesInOrder | internal/repository/user_repository.go:154-161 | ORDER BY id with LIMIT/OFFSET: a page holds at most limit users, and every user on an earlier page has a smaller id than every user on a later one |
| UserRepository.OffsetSign | internal/repository/user_repository.go:153 | with a non-negative limit the offset (page - 1) * limit is negative exactly when the page is below 1 and the limit positive |
| UserRepository.UserStore.Create | internal/repository/user_repository.go:23-51 | inserts the user under a fresh id and returns it |
| UserRepository.UserStore.GetByID | internal/repository/user_repository.go:53-70 | the user with that id, or "пользователь не найден" |
| UserRepository.UserStore.GetByEmail | internal/repository/user_repository.go:72-89 | the user with that email, or "пользователь не найден" |
| UserRepository.UserStore.Update | internal/repository/user_repository.go:91-115 | writes the SET columns into the row with the user's id |
| UserRepository.UserStore.Delete | internal/repository/user_repository.go:117-124 | removes the user with that id; none is not an error |
| UserRepository.UserStore.Count | internal/repository/user_repository.go:126-134 | the number of users |
| UserRepository.UserStore.CountByRole | internal/repository/user_repository.go:136-144 | the number of users holding that role |
| UserRepository.UserStore.GetAll | internal/repository/user_repository.go:146-170 | the total and the users ordered by id from offset (page - 1) * limit, at most limit of them; a negative limit or offset is refused by the database |
| Users.ParseRole | internal/models/user.go:12-16 | only "user", "moderator" and "admin" name a role, each its own |
| Users.RoleNamesRoundTrip | internal/models/user.go:12-16 | every role's name parses back to it, and every accepted string is a role's name |
| Users.NewUser | internal/models/user.go:86-103 | a failed hash is an error; otherwise the user has the input's contact data, the hash, role user and equal creation and update times |
| Users.ProfileHidesSecrets | internal/models/user.go:110-119 | the profile shows neither the hash nor the role: users differing only there show the same profile, whose fields are the user's own |
| Users.NewRefreshToken | internal/models/user.go:121-129 | a refresh token belongs to the user, is created now and expires the given duration later |
| Users.NewPasswordResetToken | internal/models/user.go:131-139 | a reset token belongs to the user and expires exactly 24 hours after its creation |
| TokenRepository.WithoutTokenEffect | internal/repository/refresh_token_repository.go:68-80 | deleting by token removes exactly the rows holding that token |
| TokenRepository.WithoutUserEffect | internal/repository/refresh_token_repository.go:82-94 | deleting by user removes exactly that user's rows |
| TokenRepository.TokenGone | internal/repository/refresh_token_repository.go:68-80 | after deleting by token no row holds it, so a lookup of it fails |
| TokenRepository.UserGone | internal/repository/refresh_token_repository.go:82-94 | after deleting by user no row belongs to that user |
| TokenRepository.WithoutTokenKeepsOne | internal/repository/password_reset_repository.go:71-83 | removing rows keeps at most one reset token per user |
| TokenRepository.RefreshTokenStore.Create | internal/repository/refresh_token_repository.go:23-47 | stores the token under the next id |
| TokenRepository.RefreshTokenStore.GetByToken | internal/repository/refresh_token_repository.go:49-66 | the row with that token, or "refresh токен не найден" |
| TokenRepository.RefreshTokenStore.DeleteByToken | internal/repository/refresh_token_repository.go:68-80 | removes the rows with that token; none is fine |
| TokenRepository.RefreshTokenStore.DeleteByUserID | internal/repository/refresh_token_repository.go:82-94 | removes every token of the user |
| TokenRepository.PasswordResetStore.Create | internal/repository/password_reset_repository.go:23-50 | deletes the user's reset tokens, then inserts the new one; a failed delete inserts nothing, a failed insert leaves the delete done |
| TokenRepository.PasswordResetStore.GetByToken | internal/repository/password_reset_repository.go:52-69 | the row with that token, or "токен сброса пароля не найден" |
| TokenRepository.PasswordResetStore.DeleteByToken | internal/repository/password_reset_repository.go:71-83 | removes the rows with that token |
| TokenRepository.PasswordResetStore.DeleteByUserID | internal/repository/password_reset_repository.go:85-97 | removes every reset token of the user |
| SuggestionRepository.OfKindEffect | internal/repository/suggestion_repository.go:49-53 | a suggestion passes the type filter exactly when its type is the requested one, and an empty type keeps every row |
| SuggestionRepository.OfKindChronological | internal/repository/suggestion_repository.go:49-81 | the rows of one type of a chronological table are chronological |
| SuggestionRepository.ListedOfKind | internal/repository/suggestion_repository.go:43-92 | every listed suggestion has the requested type, a page holds at most the normalised limit (10 when none is given), and without "asc" the newest come first |
| SuggestionRepository.RemoveEffect | internal/repository/suggestion_repository.go:94-101 | a delete removes exactly the suggestion with that id and keeps the rest |
| SuggestionRepository.RemoveChronological | internal/repository/suggestion_repository.go:94-101 | a delete keeps the remaining rows in chronological order |
| SuggestionRepository.SuggestionStore.Create | internal/repository/suggestion_repository.go:20-41 | inserts the suggestion under a fresh id, stamped now |
| SuggestionRepository.SuggestionStore.GetAll | internal/repository/suggestion_repository.go:43-92 | the page of the listing and the number of rows of that type |
| SuggestionRepository.SuggestionStore.Count | internal/repository/suggestion_repository.go:103-111 | the number of suggestions |
| SuggestionRepository.SuggestionStore.Delete | internal/repository/suggestion_repository.go:94-101 | removes the suggestion with that id; an unknown id is not an error |
| Auth.Register | internal/handlers/auth.go:43-98 | 400 for a missing body or one failing its tags (email, phone, password of 8 or more, equal confirmation); 500 for a failed lookup, 409 for a taken email, 500 for a failed hash or insert, all storing nothing; once the user is stored it stays stored, a failed signing or token insert answers 500 without a token, and 201 stores exactly one refresh token for the new user and answers its profile |
| Auth.Login | internal/handlers/auth.go:111-149 | 400 for a missing or invalid body; an unknown email and a wrong password get the same 401; a failed signing or token insert is 500; 200 exactly when the password verifies and both go through, storing exactly one refresh token for that user; otherwise no token is stored |
| Auth.RefreshToken | internal/handlers/auth.go:162-213 | 400 without a token; 401 for an unknown or expired token or one whose user is gone, changing nothing; 500 when the delete fails, changing nothing; once the presented token is deleted, a failed signing or insert answers 500 with the old token gone; on 200 the old token is replaced by one new token for the same user |
| Auth.RefreshTwice | internal/handlers/auth.go:172-190 | a refresh token is redeemable once: presenting it again right after a successful refresh is refused as unknown |
| Auth.Logout | internal/handlers/auth.go:225-243 | 400 without a token, 500 when the delete fails, changing nothing; otherwise the presented refresh token is removed (an unknown one is no error) and no longer found |
| Auth.ForgotPassword | internal/handlers/auth.go:256-296 | 400 for an invalid email or a mismatched confirmation, 404 for an unknown email, 500 for a failed hash or update, all changing nothing; once the hash is rewritten it stays rewritten, and the user's refresh tokens are all revoked unless the revoke fails (500, tokens kept); 200 exactly when both go through |
| Auth.ResetRevokesAll | internal/handlers/auth.go:280-290 | after a successful reset the user holds no refresh token and keeps its email with the new hash |
| Middleware.BearerExactly | internal/middleware/auth.go:34-38 | a header is accepted exactly when it is "Bearer", one space and a token without spaces, and the token is what follows the space |
| Middleware.AuthMiddleware | internal/middleware/auth.go:23-54 | a missing header, a malformed one or an invalid token aborts with 401; otherwise the user id, the role and the authenticated flag are set from the claims |
| Middleware.OptionalAuth | internal/middleware/auth.go:56-91 | never stops a request; the authenticated flag is true exactly when a well-formed header carries a valid token |
| Middleware.RequireAuth | internal/middleware/auth.go:93-110 | passes only when the flag is present and is the boolean true |
| Middleware.AuthGatesAgree | internal/middleware/auth.go:23-110 | behind either authentication middleware, RequireAuth passes exactly the requests with a valid token, whatever the context held before |
| Middleware.RequireRole | internal/middleware/auth.go:112-144 | no role in the context is 401, a role of the wrong type 500; otherwise the request passes exactly when its role is one of the allowed ones |
| AdminUsers.GetUsers | internal/handlers/admin.go:152-198 | 403 for a non-admin, 500 when the listing fails; otherwise page and limit default to 1 and 10, the page is the stored users from the offset, it holds at most limit users, and the page count is the ceiling of total over limit |
| AdminUsers.UpdateUserRole | internal/handlers/admin.go:252-311 | 403, 400 for a bad id or body, 404 for an unknown user, 400 for a role outside the three; demoting an administrator answers 500 when the count fails and 400 when it is the only one; 500 when the update fails; 200 exactly when none of these hold, changing only that user's role and update time; an administrator always remains |
| AdminUsers.DeleteUser | internal/handlers/admin.go:327-372 | 403, 400 for a bad id, 400 for the caller's own account, 404 for an unknown user; deleting an administrator answers 500 when the count fails and 400 when it is the last; 500 when the delete fails; 200 exactly when none of these hold, removing exactly that user; the caller's row and an administrator always survive |
| AdminLookups.RefusalMarked | internal/handlers/admin.go:515-519 | every in-use refusal of the repository carries the text the delete handler looks for, so a referenced row is always answered 400 |
| AdminLookups.DuplicateAdmittedAsWritten | internal/handlers/admin.go:400-404 | as written, the failing name lookup hides an existing rating category, benefit type or employment type, so a second row of that name would be admitted |
| AdminLookups.AppendKeepsUniqueNames | internal/handlers/admin.go:400-411 | inserting a name no row holds keeps names unique |
| AdminLookups.RenameKeepsUniqueNames | internal/handlers/admin.go:463-475 | renaming to a name no other row holds keeps names unique |
| AdminLookups.CreateLookup | internal/handlers/admin.go:387-420 | 403, 400 for a body that does not bind or a name already held; 201 exactly when the insert goes through, with the new row appended; names stay unique |
| AdminLookups.UpdateLookup | internal/handlers/admin.go:437-480 | 403, 400 for a bad id or body, 404 for an unknown id; 200 exactly when no other row holds the name and the write goes through, with only that row renamed; names stay unique |
| AdminLookups.DeleteLookup | internal/handlers/admin.go:496-526 | 403, 400 for a bad id, 404 for an unknown id; a row still referenced is answered 400 with the repository's message, a failing check 500; 200 exactly when the row is unreferenced, and only then is it removed |
| AdminReviews.PatchedKeepsTheRest | internal/handlers/admin.go:570-608 | the patch touches only the fields it carries; a status it carries is written, and a review newly approved gets the approval time |
| AdminReviews.WithdrawnApprovalLeavesStaleCount | internal/handlers/admin.go:615-620 | as written, turning an approved review to rejected skips the recomputation although its company's approved count drops from 1 to 0 |
| AdminReviews.UnrecomputedStaysInSync | internal/handlers/admin.go:615-620 | a rewrite that is approved neither before nor after, or of another company, leaves a company's aggregates correct |
| AdminReviews.ApplyPatch | internal/handlers/admin.go:570-608 | the field-by-field overwrite of the loaded review is the patched review |
| AdminReviews.SyncAfterUpdate | internal/handlers/admin.go:610-620 | after a review is rewritten and its company recomputed whenever the review was or is approved, every company whose aggregates were correct still has correct aggregates |
| AdminReviews.SyncAfterDelete | internal/handlers/admin.go:664-675 | after a review is deleted and its company recomputed, every company in sync stays in sync |
| AdminReviews.WriteBack | internal/handlers/admin.go:610-620 | the patched review is written; the company is recomputed exactly when needed, and a failed recomputation leaves the companies unchanged |
| AdminReviews.UpdateReview | internal/handlers/admin.go:543-629 | 403, 400 for a bad id or body, 404 for an unknown review, 500 when the update fails, all changing nothing; once written the patched review stays written even when the recomputation or the re-read then fails (500); 200 exactly when every step goes through, and then every company whose aggregates were correct keeps them correct |
| AdminReviews.DeleteReview | internal/handlers/admin.go:645-678 | 403, 400 for a bad id, 404 for an unknown review, 500 when the delete fails, all changing nothing; once deleted the review stays deleted even when the recomputation fails (500); 200 exactly when both go through, and then every company's correct aggregates stay correct |
| AdminCities.FilterKeepsMatching | internal/repository/city_repository.go:30-49 | the search keeps every row when every row matches |
| AdminCities.CrowdedListing | internal/handlers/admin.go:706 | on eleven cities whose names contain "B", the search the handler issues lists only the first ten |
| AdminCities.FirstPageMissesClash | internal/handlers/admin.go:706-716 | as written, a city "B" in country "K" beyond the first search page is not seen, so a duplicate "B" in "K" would be admitted |
| AdminCities.FindClash | internal/handlers/admin.go:712-717 | the loop reports a clash exactly when some candidate has the same name and country (and another id on update) |
| AdminCities.AppendKeepsUniquePlaces | internal/handlers/admin.go:712-727 | inserting a city whose name and country no row holds keeps (name, country) pairs unique |
| AdminCities.RewriteKeepsUniquePlaces | internal/handlers/admin.go:776-795 | rewriting a city to a pair no other row holds keeps pairs unique |
| AdminCities.RemoveKeepsUniquePlaces | internal/handlers/admin.go:818-848 | deleting keeps pairs unique |
| AdminCities.CreateCity | internal/handlers/admin.go:693-734 | 403, 400 for a body that does not bind, 400 when the pair is taken; 201 exactly when the pair is free and neither query fails, with the new city appended; pairs stay unique |
| AdminCities.UpdateCity | internal/handlers/admin.go:751-802 | 403, 400 for a bad id or body, 404 for an unknown id, 400 only when another city holds the pair; on success only that city is rewritten; pairs stay unique |
| AdminCities.DeleteCity | internal/handlers/admin.go:818-848 | 403, 400 for a bad id, 404 for an unknown id, 400 with the repository's message while a company or user refers to the city; 200 exactly when nothing refers to it, and only then is it removed |
| AdminIndustries.Edited | internal/handlers/admin.go:947-950 | the update writes the new name, and the new colour only when one is given |
| AdminIndustries.AppendKeepsUniqueNames | internal/handlers/admin.go:876-888 | inserting an industry whose name no row holds keeps names unique |
| AdminIndustries.RewriteKeepsUniqueNames | internal/handlers/admin.go:938-951 | renaming to a name no other industry holds keeps names unique |
| AdminIndustries.RemoveKeepsUniqueNames | internal/handlers/admin.go:974-1004 | deleting keeps names unique |
| AdminIndustries.CreateIndustry | internal/handlers/admin.go:863-896 | 403, 400 for a body that does not bind or a name already held; 201 exactly when the name is free and the insert goes through; names stay unique and the company links are untouched |
| AdminIndustries.UpdateIndustry | internal/handlers/admin.go:913-958 | 403, 400 for a bad id or body, 404 for an unknown id, 400 only when another industry holds the name; on success only that industry is rewritten |
| AdminIndustries.DeleteIndustry | internal/handlers/admin.go:974-1004 | 403, 400 for a bad id, 404 for an unknown id, 400 for an in-use refusal and 500 for another failure; 200 removes the industry and its links |
| ReviewHandlers.RatingRows | internal/handlers/review.go:105-111 | one rating row per given category, keyed by the new review's id, carrying that category's rating |
| ReviewHandlers.BenefitRows | internal/handlers/review.go:113-119 | one benefit row per listed benefit type, in order, all for the new review |
| ReviewHandlers.AddRatings | internal/handlers/review.go:105-111 | the rating loop adds exactly one row for each category it reaches, with that category's rating, and touches nothing else |
| ReviewHandlers.AddBenefits | internal/handlers/review.go:113-119 | the benefit loop adds exactly one row per listed benefit type and touches nothing else |
| ReviewHandlers.StoredCategories | internal/handlers/review.go:105-111 | the categories rated before the handler answers: a proper subset of the given ones when a rating insert fails, all of them otherwise |
| ReviewHandlers.StoredBenefits | internal/handlers/review.go:105-119 | the benefits stored before the handler answers: none after a failed rating insert, a proper prefix after a failed benefit insert, all of them when nothing fails |
| ReviewHandlers.AppendUnapprovedKeepsSync | internal/handlers/review.go:97-103 | storing a review that is not approved changes no company's aggregates, so they stay correct |
| ReviewHandlers.CreateReview | internal/handlers/review.go:44-127 | 401 without a user, 400 for a missing body or one failing its tags, 404 for an unknown company, city, employment period or employment type, in that order, and 500 when the review insert fails, all storing nothing; once the review is stored it stays, with the category ratings and benefits written before a failed insert (500); 201 exactly when every insert goes through, storing a pending review rated at the rounded mean of its category ratings (between 1 and 5), one rating row per category and one benefit row per benefit; no company's aggregates are disturbed |
| ReviewHandlers.Submit | internal/handlers/review.go:95-127 | the writes after the checks: a failed review insert stores nothing; otherwise the review is stored as pending, rated between 1 and 5, with the ratings and benefits reached before a failing insert; 201 with the stored row exactly when nothing fails; no company in sync leaves it |
| ReviewHandlers.GetReview | internal/handlers/review.go:141-163 | 400 for an id that is not a number; a review is shown exactly when it exists and is approved, otherwise 404 |
| ReviewHandlers.WithDefaults | internal/handlers/review.go:207-218 | page 1, limit 10, sort column created_at and the given order default are filled in where the query leaves them empty, and nothing else changes |
| ReviewHandlers.CompanyFilterForcesApproved | internal/handlers/review.go:220-225 | the company listing always filters on status approved and on the company, ahead of any other condition |
| ReviewHandlers.GetCompanyReviews | internal/handlers/review.go:185-240 | 400 for a bad id, 404 for an unknown company, 400 for invalid parameters; otherwise the query lists approved reviews of that company, newest first unless "asc", in the requested window, with the page count the ceiling of total over limit |
| ReviewHandlers.GetPendingReviews | internal/handlers/review.go:256-300 | 403 unless moderator or admin, 400 for invalid parameters; otherwise the query lists pending reviews, oldest first unless "desc", with the page count the ceiling of total over limit |
| ReviewHandlers.ApprovalCountsOnce | internal/handlers/review.go:353-366 | approving a pending review adds one to its company's approved count and to no other company's |
| ReviewHandlers.RejectionCountsNothing | internal/handlers/review.go:440-448 | rejecting a pending review changes no company's approved reviews |
| ReviewHandlers.ApproveReview | internal/handlers/review.go:318-382 | 403, 400 for a bad id, a body that fails its tags or a status other than approved, 404 for an unknown review, 400 for a review already moderated, 500 when the update fails, all changing nothing; otherwise the review becomes approved with the approval time and stays so; a failed recomputation answers 500 with the companies unchanged; 200 exactly when both go through, and then every company whose aggregates were correct keeps them correct |
| ReviewHandlers.RejectReview | internal/handlers/review.go:400-459 | 403, 400 for a bad id, a bad body, a status other than rejected or an empty reason, 404 for an unknown review, 400 for a review already moderated, 500 when the update fails, all changing nothing; 200 exactly when none of these hold, and then the review becomes rejected with the reason as comment and no company's aggregates move |
| ReviewHandlers.CountDriftsAsWritten | internal/handlers/review.go:513-516 | as written, adding or removing a mark leaves useful_count behind: a count that agreed with the marks no longer agrees |
| ReviewHandlers.MarkReviewAsUseful | internal/handlers/review.go:475-521 | 400 for a bad id, 401 without a user, 404 for an unknown review, 400 for a review that is not approved or already marked by that user, 500 when the insert fails; 200 exactly when none of these hold, adding exactly that mark; the reviews themselves are untouched |
| ReviewHandlers.RemoveUsefulMark | internal/handlers/review.go:537-578 | 400 for a bad id, 401 without a user, 404 for an unknown review, 400 when the user has no mark on it, 500 when the delete fails; 200 exactly when none of these hold, removing exactly that mark |
| ReviewHandlers.MarkReviewAsUsefulCounted | internal/repository/review_repository.go:721-749 | with the counter increment beside the mark, a useful_count that agreed with the marks still agrees after the mark |
| ReviewHandlers.RemoveUsefulMarkCounted | internal/repository/review_repository.go:751-772 | with a decrement beside the removal, a useful_count that agreed with the marks still agrees after the removal |
| CompanyHandlers.KeepPositive | internal/handlers/company.go:297-305 | a parsed list is no longer than the pieces and holds only positive ids |
| CompanyHandlers.BadPieceFails | internal/handlers/company.go:298-301 | one piece that is not a number makes the whole parameter invalid |
| CompanyHandlers.GoodPiecesParse | internal/handlers/company.go:296-305 | a list whose every piece is a number parses |
| CompanyHandlers.IndustriesParam | internal/handlers/company.go:292-317 | the parsed industries are all positive |
| CompanyHandlers.ParseIndustries | internal/handlers/company.go:292-317 | the loop over the pieces computes the industries parameter |
| CompanyHandlers.IndustriesRoundTrip | internal/handlers/company.go:292-317 | joining positive ids with commas and parsing the result gives the ids back |
| CompanyHandlers.FilterOf | internal/handlers/company.go:54-116 | page and limit at least 1, a city id only when positive, sort rating and order desc by default, and the text parameters passed through |
| CompanyHandlers.FilterNumbers | internal/handlers/company.go:81-93 | a page, limit or city id is taken exactly when it parses as a positive number |
| CompanyHandlers.BuildFilter | internal/handlers/company.go:54-116 | the parameter reading computes FilterOf |
| CompanyHandlers.GetCompanies | internal/handlers/company.go:51-142 | 400 for an industries parameter that does not parse, 500 when the listing fails; otherwise the filter, the query shape, window, sort column and direction, the size table and the page count that ceiling total over limit |
| CompanyHandlers.Lookup | internal/handlers/company.go:162-167 | a parameter that parses as a number is looked up as an id, anything else as a slug |
| CompanyHandlers.GetCompany | internal/handlers/company.go:156-179 | the company found by id or slug with 200, otherwise 404 |
| CompanyHandlers.IdReachesCompany | internal/handlers/company.go:162-164 | a company's decimal id always reaches it |
| CompanyHandlers.SlugIsNotNumber | internal/utils/slug.go:33-36 | a unique slug whose base is not empty never parses as a number |
| CompanyHandlers.SlugReachesCompany | internal/handlers/company.go:162-167 | such a slug is always looked up as a slug |
| CompanyHandlers.SlugUnreachableAsWritten | internal/handlers/company.go:162-167 | as written, a company named "++" with id 7 gets the slug "-7", which parses as a number, so its slug never reaches it |
| CompanyHandlers.LookupWithFallback | internal/handlers/company.go:162-167 | the corrected lookup finds every company whose slug is asked for, and agrees with the original lookup wherever that one finds a company |
| CompanyHandlers.EverySlugReachable | internal/handlers/company.go:162-167 | with the fallback, every stored slug reaches a company |
| CompanyHandlers.GetCompanyWithFallback | internal/handlers/company.go:156-179 | GetCompany with the corrected lookup |
| CompanyHandlers.DuplicateIndustryRefusedAsWritten | internal/handlers/company.go:232-241 | as written, listing an existing industry twice is refused as missing, because one row is found for two ids |
| CompanyHandlers.CheckIndustries | internal/handlers/company.go:232-241 | the corrected check accepts exactly when every listed id names an industry |
| CompanyHandlers.CreatedRow | internal/handlers/company.go:259-269 | the stored company has the new id, the given name, the unique slug of name and id, no reviews yet and the creation time |
| CompanyHandlers.Vet | internal/handlers/company.go:223-257 | the checks in order: 409 for a taken name, 400 when fewer industries are found than listed, 400 for an unknown city; no refusal exactly when all pass |
| CompanyHandlers.StoreCompany | internal/handlers/company.go:261-273 | the company is appended under a fresh id; its slug is rewritten to the unique slug, and keeps the provisional name when the slug update fails |
| CompanyHandlers.LinkIndustries | internal/handlers/company.go:275-281 | one link from the new company to each listed industry, nothing else |
| CompanyHandlers.StoredRow | internal/handlers/company.go:261-273 | the row left once the insert went through: with the provisional slug (the name) when the slug update failed, with the unique slug otherwise |
| CompanyHandlers.LinkedIDs | internal/handlers/company.go:267-281 | the industries linked before the handler answers: none when the slug update failed, a proper prefix when a link failed, all listed ones otherwise |
| CompanyHandlers.CreateCompany | internal/handlers/company.go:194-290 | 401 without a role, 403 for a role other than admin, 400 for a bad body, then the checks of Vet; a failed insert stores nothing; once inserted the company stays, with the provisional slug after a failed slug update, and linked to the industries reached before a failed link; the failed step answers its own 500; 201 exactly when every check and step goes through, with the company appended and linked to all its industries |
| Slug.TableIsCyrillic | internal/utils/slug.go:38-49 | every key of the transliteration table is a Cyrillic letter |
| Slug.Translit | internal/utils/slug.go:58-66 | a rune of [a-z0-9] or a dash is kept as it is |
| Slug.TranslitTableFirst | internal/utils/slug.go:58-66 | a rune becomes its table entry if it has one, itself if it is a letter, digit, space, dash or underscore, and a dash otherwise |
| Slug.Transliterate | internal/utils/slug.go:51-69 | the rune loop computes the transliteration, and leaves a text of slug runes and dashes unchanged |
| Slug.KeepsSlugRunes | internal/utils/slug.go:51-69 | transliteration leaves a text of slug runes and dashes unchanged |
| Slug.SkipNonSlug | internal/utils/slug.go:24 | skipping a run of other runes stops at a slug rune |
| Slug.DashRuns | internal/utils/slug.go:24 | replacing each run of runes outside [a-z0-9] by one dash leaves only slug runes and single dashes |
| Slug.CollapseIdentity | internal/utils/slug.go:26 | collapsing dash runs changes nothing when no two dashes are adjacent |
| Slug.TrimDashes | internal/utils/slug.go:28 | the trimmed text is a slice of the input with no dash at either end, and a text without end dashes is unchanged |
| Slug.GenerateSlug | internal/utils/slug.go:19-31 | a slug is made of [a-z0-9] and single dashes, and neither starts nor ends with a dash |
| Slug.SlugFixedPoint | internal/utils/slug.go:19-31 | a text already shaped like a slug is its own slug |
| Slug.GenerateSlugIdempotent | internal/utils/slug.go:19-31 | slugging a slug gives it back |
| Slug.AsciiNameLowered | internal/utils/slug.go:19-31 | a name of ASCII letters and digits slugs to its lower-case form |
| Slug.GenerateUniqueSlug | internal/utils/slug.go:33-36 | the unique slug ends with a dash and the decimal id |
| Slug.UniqueSlugsDiffer | internal/utils/slug.go:33-36 | two companies with different ids never share a unique slug |
| CityHandlers.WithDefaults | internal/handlers/city.go:52-63 | page 1, limit 10, sort name and order asc fill the parameters left empty; search and country pass through |
| CityHandlers.DefaultsAgreeWithRepository | internal/handlers/city.go:52-65 | the defaults the handler fills in are the ones the repository would apply, so an empty query lists the first ten matching cities by name |
| CityHandlers.FilterIgnoresOrder | internal/repository/city_repository.go:30-44 | which cities match depends only on search and country |
| CityHandlers.FillDefaults | internal/handlers/city.go:52-63 | the handler's if-chain computes WithDefaults |
| CityHandlers.ListedUnderDefaults | internal/handlers/city.go:65-79 | a page under the defaults holds at most limit cities, each a stored city matching the filter |
| CityHandlers.GetCities | internal/handlers/city.go:45-80 | 400 for invalid parameters, 500 when the listing fails; otherwise the listed page, the number of matches, and a page count that is the ceiling of total over limit |
| CityHandlers.ListedPage | internal/handlers/city.go:52-79 | the page listed under the defaults holds at most the limit and only table cities matching the given filter; the page count is the least count whose pages cover all matches |
| CityHandlers.SearchLimit | internal/handlers/city.go:101-111 | the limit is 20 unless a positive number is given, and never above 100 |
| CityHandlers.SearchCities | internal/handlers/city.go:94-128 | 400 for an empty query, 500 when the search fails; otherwise the stored cities matching the query by name or region, sorted by name, the first page of them limited to the limit parameter when positive (20 when absent or not positive, at most 100) |
| IndustryHandlers.WithDefaults | internal/handlers/industry.go:52-63 | page 1, limit 10, sort name and order asc fill the parameters left empty; the search passes through |
| IndustryHandlers.FillDefaults | internal/handlers/industry.go:52-63 | the handler's if-chain computes WithDefaults |
| IndustryHandlers.DefaultsListInNameOrder | internal/handlers/industry.go:52-65 | the defaults agree with the repository's, and unless "desc" is asked for the listing is in name order |
| IndustryHandlers.ListedUnderDefaults | internal/handlers/industry.go:65-79 | a page holds at most limit industries, each stored and matching the search |
| IndustryHandlers.GetIndustries | internal/handlers/industry.go:45-80 | 400 for invalid parameters, 500 when the listing fails; otherwise the page, the number of matches and the ceiling page count |
| IndustryHandlers.ListPage | internal/handlers/industry.go:52-79 | the page listed under the defaults holds at most the limit and only table industries matching the search; the page count is the least count whose pages cover all matches |
| IndustryHandlers.GetCompanyIndustries | internal/handlers/industry.go:94-119 | 400 for a bad id, 404 for an unknown company; otherwise exactly the industries linked to the company, in name order |
| IndustryHandlers.UpdateIndustryColor | internal/handlers/industry.go:141-190 | 403 for a non-admin, 400 for a bad id, 404 for an unknown industry, 400 for a colour outside 4 to 7 characters or without a leading "#", 500 when the update fails, all changing nothing; a failed re-read answers 500 with the colour kept; otherwise only that industry's colour changes and the updated industry is answered |
| IndustryHandlers.RecolorFinds | internal/handlers/industry.go:174-184 | after the recolouring the industry read back is the old one with the new colour |
| UserHandlers.GetProfile | internal/handlers/user.go:41-55 | 401 without a user or for an unknown one; otherwise the profile of exactly the caller |
| UserHandlers.PatchedKeepsIdentity | internal/handlers/user.go:88-106 | the update changes only the fields given and the update time; id, email, role and creation time never change |
| UserHandlers.UpdateStoresPatch | internal/handlers/user.go:106-112 | the write replaces the caller's row and no other |
| UserHandlers.UpdateProfile | internal/handlers/user.go:69-115 | 401 without a user, 400 for a bad body, 401 for an unknown user, 500 when hashing or writing fails; otherwise the patched row is stored and its profile answered |
| UserHandlers.GetUserReviews | internal/handlers/user.go:130-168 | 401 without a user, 400 for invalid parameters; otherwise the query lists the caller's own reviews in the normalised window, with the ceiling page count |
| Validators.MatchesDigitsExactly | internal/utils/validators.go:22 | the pattern ^[0-9]{n}$ matches exactly the strings of n ASCII digits |
| Validators.PhoneRule | internal/utils/validators.go:16-24 | a phone is valid exactly when it is empty or eleven ASCII digits |
| CityFormat.FormatCity | internal/utils/city.go:11-27 | nothing for no city; otherwise the name, followed by ", " and more when a region differing from the name or a country is present |
| CityFormat.FormatCityReadsBack | internal/utils/city.go:11-27 | for parts without commas, splitting the formatted text at commas gives back the name, the shown region and the country |
| CityFormat.FormatLocationInfo | internal/utils/city.go:42-52 | the formatted city of the review, or nothing when there is no review or no city |
| CityFormat.DisplayHidesKazakhRegion | internal/utils/city.go:54-64 | a city in Kazakhstan is shown as name and country only; any other as FormatCity |
| CityFormat.GetCityName | internal/utils/city.go:29-40 | nothing for an id that is not positive or unknown; otherwise the name of the stored city with that id |
| ImportCities.LastOfFinds | scripts/import_cities.go:58-69 | the index the column loop settles on is the last cell of that role, and -1 exactly when no cell has it |
| ImportCities.CompleteNames | scripts/import_cities.go:58-73 | a header with all three roles names each column at its last cell; one that lacks a role altogether is incomplete, and only such a header is |
| ImportCities.FindColumns | scripts/import_cities.go:54-73 | fewer than three cells is refused as too short; otherwise the header is accepted exactly when all three roles occur, and the columns are the last cell of each role |
| ImportCities.Max | scripts/import_cities.go:147-155 | the result is one of the numbers and no number exceeds it |
| ImportCities.AcceptClean | scripts/import_cities.go:89-111 | an accepted row gives a city whose name, region and country are non-empty with no white space at either end, and an empty region becomes the name |
| ImportCities.AcceptedClean | scripts/import_cities.go:75-112 | every imported city is clean |
| ImportCities.AcceptedAppend | scripts/import_cities.go:75-112 | filtering keeps file order: the cities of two stretches of rows are those of the first followed by those of the second |
| ImportCities.ReadRows | scripts/import_cities.go:75-112 | the row loop skips unreadable, short and incomplete rows and keeps the others in order, all clean |
| ImportCities.InsertAll | scripts/import_cities.go:122-137 | afterwards the table holds exactly what it held plus every imported city (ON CONFLICT DO NOTHING) |
| ImportCities.Import | scripts/import_cities.go:49-145 | an unreadable header, a short header or a missing column stops the import before any insert; it succeeds exactly when the header has all three columns, and then the table gains exactly the accepted cities |
| Migrations.LastDot | internal/db/init.go:109 | the position of the last dot, or -1 when there is none |
| Migrations.SqlExtension | internal/db/init.go:109 | the extension is ".sql" exactly when the name ends in ".sql" |
| Migrations.SqlNames | internal/db/init.go:106-112 | the names kept are exactly those of the entries that are files ending in ".sql" |
| Migrations.FilesAreTheSqlFiles | internal/db/init.go:106-113 | the migration list is sorted and holds exactly the .sql files of the directory |
| Migrations.PendingIsUnapplied | internal/db/init.go:38-44 | a file is applied by the run exactly when it is a migration file absent from the history |
| Migrations.PendingSorted | internal/db/init.go:38-44 | the pending migrations are applied in file-name order |
| Migrations.RecordAllAdds | internal/db/init.go:166 | recording with ON CONFLICT DO NOTHING keeps the history free of duplicates and adds exactly the recorded names |
| Migrations.RecordAllAppends | internal/db/init.go:166 | recording a name that is new appends it |
| Migrations.SecondRunIdle | internal/db/init.go:18-47 | after a run that applies everything pending, every file is in the history and a second run has nothing to apply |
| Migrations.NothingPending | internal/db/init.go:38-44 | when every file is in the history nothing is pending |
| Migrations.RunCompletes | internal/db/init.go:33-44 | a complete run leaves every migration file of the directory recorded and nothing pending |
| Migrations.Applicable | internal/db/init.go:38-44 | the loop gets through exactly the pending migrations before the first one that fails |
| Migrations.Database.ApplyMigration | internal/db/init.go:148-178 | a failure at any step leaves the history and the executed scripts as they were and names the step and the file; otherwise the script runs and its name is recorded |
| Migrations.Database.EnsureBasicStructure | internal/db/init.go:49-98 | a failing CREATE TABLE fails; the schema file runs when the count query fails or finds no row, and on success the schema file is in the history |
| Migrations.Database.ReadHistory | internal/db/init.go:125-132 | the loop over the history rows reads the set of applied file names |
| Migrations.Database.GetMigrationStates | internal/db/init.go:100-146 | an unreadable directory, a failing history query or a failing row scan is an error; a missing history table counts as nothing applied; otherwise one state per sorted .sql file, applied exactly when its name is in the history |
| Migrations.Database.ApplyPending | internal/db/init.go:38-44 | the pending migrations run in order up to the first failure; each one that ran is recorded, and the outcome is success exactly when none failed |
| Migrations.Database.InitDatabase | internal/db/init.go:18-47 | a failed ping or a missing directory fails before anything changes; on success the schema file is recorded, and with a readable history every migration file is recorded and nothing remains pending |

## Left out

- Scope: HTTP routing, JSON encoding, gin's context plumbing, configuration, logging, Swagger annotations and `fmt.Printf` traces are not modelled. Request binding is a predicate over an optional body: `None` stands for a body that does not decode, and the predicate checks the body's binding tags. The `email` tag is an oracle parameter `isEmail`, since the validator's address grammar is not part of this model.
- Crypto and time as parameters: bcrypt hashing and comparison, JWT signing and validation, UUID generation and `time.Now` are oracles whose outcomes are parameters.
- Driver failures as parameters: every failing write a handler meets is a parameter. It is a bool flag, a `CompanyRepository.Failure` for the rating recomputation, or a fault datatype (`ReviewHandlers.SaveFault`, `CompanyHandlers.CreateFault`) that names the statement where a run of writes stops. The ensures state the rows written before the failure, which the source leaves in place. The wrapped `%w` error text of a driver failure is not modelled. Only the messages the handlers branch on or answer with are.
- Read failures: a failing SELECT that a handler answers with 500, changing nothing, is not modelled; the model reads the stored rows. By member:
  - ReviewHandlers.GetReview, ApproveReview, RejectReview, MarkReviewAsUseful, RemoveUsefulMark: a GetByID error other than "not found" (internal/handlers/review.go:152, 346, 433, 492, 554).
  - ReviewHandlers.MarkReviewAsUseful, RemoveUsefulMark: a failing HasUserMarkedReviewAsUseful (internal/handlers/review.go:504, 561).
  - ReviewHandlers.CreateReview: a failing company, city, period or type check (internal/handlers/review.go:62-92).
  - ReviewHandlers.GetCompanyReviews, GetPendingReviews: a failing company check or listing (internal/handlers/review.go:196, 227, 287); the listing is given as its query and total.
  - CompanyHandlers.GetCompany: an error other than "not found" (internal/handlers/company.go:173).
  - CompanyHandlers.Vet: a failing name, industry or city check (internal/handlers/company.go:228, 234, 249).
  - IndustryHandlers.GetCompanyIndustries, UpdateIndustryColor: a failing company or industry check or listing (internal/handlers/industry.go:105, 112, 158).
- Lookups that fail like a missing row: Auth.Login and Auth.RefreshToken answer any failing user or token lookup exactly as an unknown one, and the admin handlers answer any GetByID error with 404 (internal/handlers/admin.go:272, 347, 563, 659). The model reads the stored row, so these coincide with the missing row.
- Concurrency: requests run one at a time, and each repository call is atomic. Races between concurrent requests, such as two registrations of one email, are not modelled.
- SQL as effects: the SQL text is not modelled. Each statement is modelled by its effect on the rows.
  - The listing queries are modelled by their condition list, the placeholder numbers and the bound arguments.
  - `ORDER BY` on text sorts by code point. Collation is not modelled.
  - `ILIKE '%x%'` is case-insensitive containment over Latin and Cyrillic letters.
- Floats as exact reals: `float64` is an exact real. `math.Round` is rounding half away from zero on reals. Where floating-point rounding could change a result, the model does not capture it.
- Aggregates.*: the averages the database computes in `UpdateRating` are exact quotients. Any rounding the column types apply is not modelled.
- Integers are unbounded, except where a parameter is parsed. `strconv.Atoi` is modelled with its 64-bit range check.
- Unicode: `unicode.IsLetter` and `strings.ToLower` are modelled on Latin and Cyrillic letters only. The NFD decomposition and mark removal that `Transliterate` applies before its table lookup are not modelled, so accented Latin letters are not reduced to their base letter.
- ImportCities: reading the file and the CSV reader's quoting rules are left to the reader. The model gets the header and each record already split, or a read error in their place.
- ImportCities.InsertAll: an insert error is logged and skipped in the source. The model assumes every insert succeeds, and the transaction's commit failure is not modelled.
- Migrations: file contents are not modelled, and the applied_at timestamps are not kept. A failure inside a migration's transaction is modelled as leaving the history unchanged, which is what a rollback gives.
- ForgotPassword: `ForgotPasswordInput` in internal/models/user.go:60-62 declares only `Email`, yet the handler reads `Password` and `PasswordConfirm` from it (internal/handlers/auth.go:263-274), so the source as given does not compile. Auth.ForgotPasswordInput takes the handler's reading: the email carries `required,email` and is checked at binding, and the two password fields carry no tags.
- Register: the explicit confirmation check (internal/handlers/auth.go:50-53) is unreachable, because the `eqfield=Password` tag already refuses a mismatch at binding with "Ошибка валидации". Auth.Register states that "Пароли не совпадают" is never answered.
- IndustryRepository.IndustryStore.GetByName, Create, Update, Delete: the admin handlers call these, but their bodies are not in internal/repository/industry_repository.go. They are modelled on the lookup stores. Delete's removal of the company links assumes an `ON DELETE CASCADE` on the link table, which is not part of this model.
- Not in the core, not modelled:
  - `GetStatistics` and the single-user `GetUser` in internal/handlers/admin.go are read-only aggregations.
  - `LoadUserMiddleware` in internal/middleware/auth.go.
  - The suggestion and health handlers, the rate limiter and the router.
- The database schema, including any unique constraints and triggers, is not part of this model. The findings below assume no constraint or trigger does the work the Go code omits.

## Findings

| source | as written | input that shows it | evidently intended | confidence | as-written member | corrected member |
|---|---|---|---|---|---|---|
| internal/repository/rating_category_repository.go:54-71 | `GetByName` selects created_at and updated_at into a struct without those fields (likewise for benefit and employment types), so a present name fails its scan. The create and update handlers (internal/handlers/admin.go:400-404) treat that error as "name free". | a rating category "Зарплата" exists, and an administrator creates another "Зарплата" | a taken name is refused with 400 | not executed; medium (depends on the struct tags of the three models) | AdminLookups.DuplicateAdmittedAsWritten | AdminLookups.CreateLookup |
| internal/handlers/admin.go:706-716 | the duplicate check of CreateCity and UpdateCity scans only the first page (ten rows) of the name search | ten cities "AB" in country "K" come first by name, then the city "B" in "K"; an administrator creates "B" in "K" | every existing city is checked | not executed; high | AdminCities.FirstPageMissesClash | AdminCities.CreateCity |
| internal/handlers/admin.go:615-620 | UpdateReview recomputes the company only when the new status is approved | an approved review of company 7 is set to rejected; the stored count stays 1 while the company has no approved review | recompute when the review was or is approved | not executed; high | AdminReviews.WithdrawnApprovalLeavesStaleCount | AdminReviews.UpdateReview |
| internal/handlers/review.go:513-516 | adding or removing a useful mark never touches useful_count. The increment in internal/repository/review_repository.go:721-734 is never called. | a user marks an approved review whose useful_count equals its number of marks | useful_count follows the marks | not executed; medium (a database trigger could maintain it) | ReviewHandlers.CountDriftsAsWritten | ReviewHandlers.MarkReviewAsUsefulCounted |
| internal/handlers/company.go:162-167 | GetCompany tries `strconv.Atoi` first, so a slug that parses as a number is looked up as an id | a company named "++" with id 7 gets the slug "-7", and GET /companies/-7 looks up id -7 | every company is reachable by its slug | not executed; high | CompanyHandlers.SlugUnreachableAsWritten | CompanyHandlers.GetCompanyWithFallback |
| internal/handlers/company.go:232-241 | the industries check compares the number of rows found with the number of ids listed | an existing industry's id listed twice | each listed id names an industry | not executed; low (refusing duplicates may be meant) | CompanyHandlers.DuplicateIndustryRefusedAsWritten | CompanyHandlers.CheckIndustries |

CompanyHandlers.CreateCompany keeps the industry check as written, because refusing duplicate ids may be intended. The corrected check is CompanyHandlers.CheckIndustries. For each of the other rows, the corrected member is what the rest of the model uses.
