# Reviews service: a verified model

This project models the server side of a short-let reviews dashboard. The server answers
review queries by calling a vendor API (Hostaway). In development, an in-process mock of
that vendor serves a fixed table of reviews. The model covers five parts.

- **The mocked vendor** (`HostawayMock`): a table of reviews held by `ReviewStore`, with
  three operations.
  - The list query parses the URL's search parameters and sorts a copy of the table in
    place, when a sort key is given. It then filters the copy and pages the result.
  - The single-review lookup.
  - The status update. This is the one change made to the table in place.
- **The parameter helpers** (`Func`): the two transforms that turn a raw query value into
  a list of strings or of integers, and `validateDto`'s choice of the first message.
- **The list query** (`ReviewsQuery`): how raw query values become a `ReviewsQueryDto`,
  the rule each field obeys, and the validator's errors in field order. The review
  enumerations and record shape are in `HostawayReview`.
- **The router** (`ReviewsRouter`): how the validated query is serialised into search
  parameters, and how each of the three handlers classifies a request into a response.
  The vendor is an oracle from the call made to the reply received.
- **The dashboard's hour formatter** (`ManagerUtils`).

Supporting modules:

- `JsRuntime`: the JavaScript semantics the code relies on.
  - Numbers with NaN and infinities.
  - `parseInt` results and `Array.prototype.slice`, including negative and NaN positions.
  - The truncating `%`, `trim`, `split`, `join`, `indexOf` and `toLowerCase`.
  - `String(n)`.
  - The host parsers (`parseInt`, `Number`, `new Date`) and `Date.prototype.toString` are
    fields of a `Runtime` value. They are parameters, not definitions.
- `SearchParams`: `URLSearchParams` as a sequence of pairs. It has `get`, `getAll`, `set`
  and `append`, and the class the router fills.
- `ReviewOrder`: the sort. It is a stable insertion sort, given once as a function (`Sort`)
  and once in place on an array (`SortInPlace`). It is proved a permutation, sorted, stable
  and commuting with filtering.

Dates are integer time values. `None` stands for an Invalid Date.

## Model

| member | source | states |
|---|---|---|
| HostawayReview.ParseType | server/src/dtos/hostaway/hostaway-review.dto.ts:9-12 | a string names a review type exactly when it is "host-to-guest" or "guest-to-host"; parsing gives back the type whose code it is |
| HostawayReview.ParseCategory | server/src/dtos/hostaway/hostaway-review.dto.ts:23-27 | only "cleanliness", "communication" and "respect_house_rules" are categories; parsing inverts the code |
| HostawayReview.ParseChannel | server/src/dtos/hostaway/hostaway-review.dto.ts:29-45 | an integer is parsed to the channel whose code it is, and to nothing when no channel has that code |
| HostawayReview.ChannelCodesAre | server/src/dtos/hostaway/hostaway-review.dto.ts:29-45 | the channel codes are exactly 2000, 2002, 2005, 2007, 2009, 2010, 2013 and 2015 to 2022, and no two channels share a code |
| HostawayReview.CategoryNames | server/src/util/setup-hostaway-mock.ts:190 | a review's category names are its category records' names, in order; a review without records has none |
| JsRuntime.SliceIndex | server/src/util/setup-hostaway-mock.ts:212-215 | `slice` resolves a position to an index within the length: NaN is 0, a non-negative position is clamped to the length, and a negative one counts back from the end, stopping at 0 |
| JsRuntime.SliceNonNegative | server/src/util/setup-hostaway-mock.ts:212-215 | for non-negative positions, `slice` is the clamped subsequence, and empty when the start is not before the end |
| JsRuntime.TrimStart | server/src/util/func.ts:23 | drops a leading run of whitespace only, and leaves a string that does not start with whitespace |
| JsRuntime.TrimEnd | server/src/util/func.ts:23 | drops a trailing run of whitespace only, and leaves a string that does not end with whitespace |
| JsRuntime.Trim | server/src/util/func.ts:23 | `trim` gives a slice of the string with no whitespace at either end and only whitespace around it; an already trimmed string is unchanged |
| JsRuntime.NumberToString | server/src/routers/reviews.router.ts:38-40 | `toString` writes a safe integer (at most 2^53 - 1 in magnitude) as its exact numeral; any other finite number is the host's text (a fraction, a large integer's shortest round-trip digits, or exponent notation); NaN and the infinities are their names |
| JsRuntime.ParsedIntToString | server/src/routers/reviews.router.ts:38 | a `parseInt` result that is a safe integer is written as its exact numeral, a larger one as the host writes it, and NaN as "NaN" |
| JsRuntime.SecondPiece | server/src/util/setup-hostaway-mock.ts:24 | `url.split(base)[1]` is undefined exactly when `base` does not occur. Otherwise it is the text after the first occurrence, up to the next occurrence or the end: no occurrence starts inside it, and one starts right after it unless it runs to the end |
| SearchParams.Get | server/src/util/setup-hostaway-mock.ts:110-128 | `get` is null exactly when the key is absent, and otherwise gives a value stored under the key |
| SearchParams.GetAll | server/src/util/setup-hostaway-mock.ts:117-126 | `getAll` is empty exactly when the key is absent |
| SearchParams.GetAllFirstIsGet | server/src/util/setup-hostaway-mock.ts:110-128 | when `getAll` lists values, its first value is what `get` returns |
| SearchParams.GetAllAppend | server/src/routers/reviews.router.ts:38 | the values of a key in two concatenated lists are the values of the first followed by those of the second |
| SearchParams.SetPairValues | server/src/routers/reviews.router.ts:40 | after `set`, the key has exactly the one value set, and every other key keeps its values |
| SearchParams.UrlSearchParams.Append | server/src/routers/reviews.router.ts:38 | `append` adds the pair at the end |
| SearchParams.UrlSearchParams.Set | server/src/routers/reviews.router.ts:40 | `set` on a key not yet present adds the pair at the end |
| Func.ListOf | server/src/util/func.ts:17-24 | null, undefined and "" give no list; an array is kept as it is; a string containing ',' gives its split pieces, each trimmed (at least two, without commas); any other string becomes a one-element list, untrimmed |
| Func.CommaListRoundTrip | server/src/util/func.ts:22-23 | a comma-separated string whose pieces carry no surrounding whitespace is split into exactly its pieces, and joining them with ',' gives the string back |
| Func.CommaListOfPieces | server/src/util/func.ts:22-23 | comma-free pieces joined with ',', spaces around them allowed, come back as the pieces, each trimmed |
| Func.IntListOf | server/src/util/func.ts:34-43 | the integer list exists exactly when the string list does; it has the same length, and each element is `parseInt` of the string at the same position, with NaN kept in place |
| Func.TransformStringToStringArray | server/src/util/func.ts:14-29 | returns the derived list; when there is one it is written into both `param.obj[param.key]` and `param.value`, and otherwise the parameter is unchanged |
| Func.TransformStringToIntArray | server/src/util/func.ts:31-48 | returns the integer list, written back in the same way |
| Func.ValidateDto | server/src/util/func.ts:4-12 | passes exactly when there are no errors. Otherwise it gives the first error's first constraint message with the whole result, or "Validation error." when that error has no constraints. It throws exactly when those constraints are an empty object |
| ReviewsQuery.ParseSortBy | server/src/dtos/request/reviews-query.dto.ts:20-23 | only "Rating" and "submittedAt" are sort keys |
| ReviewsQuery.ParseSortOrder | server/src/dtos/request/reviews-query.dto.ts:25-28 | only "asc" and "desc" are sort directions |
| ReviewsQuery.ChannelList | server/src/dtos/request/reviews-query.dto.ts:47 | `channels` is undefined exactly when the transform derives no list; otherwise it is the transform's integer list |
| ReviewsQuery.CategoryList | server/src/dtos/request/reviews-query.dto.ts:75 | `categories` is undefined exactly when the transform derives no list; otherwise it is the transform's string list |
| ReviewsQuery.Instantiate | server/src/dtos/request/reviews-query.dto.ts:30-119 | `plainToInstance` field by field: `listingId`, `minRating` and `limit` go through `Number`, `from` and `to` through `new Date`, `channels` and `categories` through their transforms, `type`, `sortBy` and `sortOrder` are kept as given, and absent `sortBy`, `sortOrder` and `offset` take "submittedAt", "desc" and 0 |
| ReviewsQuery.InstantiateFields | server/src/dtos/request/reviews-query.dto.ts:30-119 | after conversion an optional field is defined exactly when the query supplies it (the list fields only when their transform derives a list); absent `sortBy`, `sortOrder` and `offset` take their initialisers, and supplied enumeration fields are kept unchanged |
| ReviewsQuery.Valid | server/src/dtos/request/reviews-query.dto.ts:31-117 | the query is valid when every supplied field obeys its decorator: whole finite numbers for `listingId`, `limit` and `offset`; enumeration members for `type`, `sortBy` and `sortOrder`, and for every element of `channels` and `categories`; valid dates for `from` and `to`; `minRating` at least 0 and at most 0 |
| ReviewsQuery.Checks | server/src/dtos/request/reviews-query.dto.ts:30-119 | one verdict per property, in declaration order from `listingId` to `offset`, each failing exactly when its decorator's rule does, with the decorator's constraint name and message |
| ReviewsQuery.RatingCheck | server/src/dtos/request/reviews-query.dto.ts:69-73 | `minRating` fails exactly when it is given and not both at least 0 and at most 0; the failure carries the "1 - 10" message |
| ReviewsQuery.Failures | server/src/util/func.ts:5 | the validation result is empty exactly when no property fails |
| ReviewsQuery.FailuresAppend | server/src/util/func.ts:5 | every failing property is reported, in declaration order: the errors of two runs of verdicts are the first run's followed by the second's |
| ReviewsQuery.FailuresOfOne | server/src/util/func.ts:5 | one verdict contributes its error exactly when it failed |
| ReviewsQuery.FailuresComeFromFailedChecks | server/src/util/func.ts:5-8 | each reported error belongs to a failed property, and the first belongs to the first failed property |
| ReviewsQuery.FieldErrors | server/src/dtos/request/reviews-query.dto.ts:30-119 | the validator reports no error exactly when the query is `Valid`, and every error it reports carries at least one constraint |
| ReviewsQuery.FailedChecksCarryConstraints | server/src/dtos/request/reviews-query.dto.ts:30-119 | every failed rule reports at least one violated constraint |
| ReviewsQuery.ValidIffNoCheckFails | server/src/dtos/request/reviews-query.dto.ts:30-119 | a query is valid exactly when no property's rule fails |
| ReviewsQuery.ValidationOutcome | server/src/util/func.ts:4-12 | on a converted query, `validateDto` never throws and passes exactly when every rule holds; a bad `listingId` supplies the message |
| ReviewsQuery.OnlySuppliedFieldsFail | server/src/dtos/request/reviews-query.dto.ts:38-117 | every field is optional: an error only ever names a field the query supplied |
| ReviewsQuery.EmptyQueryDefaults | server/src/dtos/request/reviews-query.dto.ts:87-118 | an empty query converts to sortBy "submittedAt", sortOrder "desc" and offset 0, with everything else undefined, and passes validation |
| ReviewsQuery.MinRatingAcceptsOnlyZero | server/src/dtos/request/reviews-query.dto.ts:70-71 | `Min(0)` together with `Max(0)` accepts a number exactly when it is 0 |
| ReviewsQuery.RatingInRangeAcceptsDoubledStars | customer/listings/listing.js:466-470 | the doubled star ratings 2 to 10 sent by the client satisfy the 1-to-10 rule the message describes, and are rejected by the declared rule |
| ReviewsQuery.ChannelCodeOf | server/src/dtos/request/reviews-query.dto.ts:48-51 | a parsed value passes the channel rule exactly when it is the code of some channel |
| ReviewsQuery.ChannelsRule | server/src/dtos/request/reviews-query.dto.ts:47-53 | a channel list is valid exactly when every element names a channel, so a NaN element makes it invalid |
| ReviewOrder.Compare | server/src/util/setup-hostaway-mock.ts:150-160 | the comparison is 0 when either key is NaN (an unparsable date); otherwise it is positive exactly when the two are out of order for the direction |
| ReviewOrder.Key | server/src/util/setup-hostaway-mock.ts:150-160 | the sort key is the rating, or the submission time, which is NaN when the date does not parse |
| ReviewOrder.Sort | server/src/util/setup-hostaway-mock.ts:146-162 | `working.sort(comparator)` as a stable insertion sort; the result has as many reviews as the table |
| ReviewOrder.InsertIsPermutation | server/src/util/setup-hostaway-mock.ts:152-155 | inserting one review adds exactly that review |
| ReviewOrder.SortIsPermutation | server/src/util/setup-hostaway-mock.ts:146-155 | sorting the copy neither loses nor invents a review |
| ReviewOrder.InsertSorted | server/src/util/setup-hostaway-mock.ts:152-155 | inserting into a sorted list keeps it sorted |
| ReviewOrder.SortSorted | server/src/util/setup-hostaway-mock.ts:149-162 | with every key defined, the sorted copy is in order for the key and direction |
| ReviewOrder.Filter | server/src/util/setup-hostaway-mock.ts:165 | the filter keeps exactly the elements that satisfy the predicate, and no more than there were |
| ReviewOrder.FilterSortCommute | server/src/util/setup-hostaway-mock.ts:145-165 | with every key defined, filtering the sorted table equals sorting the filtered table: the survivors keep their sorted order |
| ReviewOrder.SortOrderedIsIdentity | server/src/util/setup-hostaway-mock.ts:149-162 | a list already in order for the key and direction is left as it is |
| ReviewOrder.SortIsStable | server/src/util/setup-hostaway-mock.ts:149-162 | reviews with equal keys keep their input order |
| ReviewOrder.SortInPlace | server/src/util/setup-hostaway-mock.ts:152-160 | the in-place sort of the array leaves exactly the sorted sequence of its old contents |
| ReviewOrder.InsertInPlace | server/src/util/setup-hostaway-mock.ts:152-160 | one insertion step: the prefix becomes the old prefix with the next element inserted, and the rest of the array is unchanged |
| ReviewOrder.ShiftGreater | server/src/util/setup-hostaway-mock.ts:152-160 | the shifting loop moves each element that sorts after the inserted one up by one place and stops right after the last one that does not |
| ReviewOrder.InsertPlacement | server/src/util/setup-hostaway-mock.ts:152-155 | in a sorted list, an element goes after everything that sorts before or level with it and before everything that sorts after it |
| HostawayMock.GetUrlId | server/src/util/setup-hostaway-mock.ts:22-33 | an id exists exactly when text follows the base URL and `parseInt` reads a number other than 0 or NaN from it (after a leading '/'); the id is that number |
| HostawayMock.GetUrlIdOfReviewPath | server/src/util/setup-hostaway-mock.ts:22-33 | the id of a review's own URL comes back out |
| HostawayMock.GetUrlIdOfPath | server/src/util/setup-hostaway-mock.ts:22-33 | the same for any base URL that starts with neither a digit nor '/' |
| HostawayMock.GetUrlIdWithoutSuffix | server/src/util/setup-hostaway-mock.ts:24-25 | nothing after the base URL, or a URL without the base, gives no id |
| HostawayMock.ListParamIsGetAll | server/src/util/setup-hostaway-mock.ts:117-126 | a list parameter is exactly `getAll` when that is non-empty, and absent otherwise; the comma split never runs |
| HostawayMock.OrderOf | server/src/util/setup-hostaway-mock.ts:149-151 | a sort happens exactly when `sortBy` is truthy; it is by rating exactly when `sortBy` lowercases to "rating", and ascending exactly when `sortOrder` lowercases to "asc" |
| HostawayMock.ParseQuery | server/src/util/setup-hostaway-mock.ts:110-143 | `fetchMockedReviews` reads offset, limit, listing id and minimum rating with `parseInt(_, 10)`, dates with `new Date`, each only when its parameter is non-empty; channels as numbers when `Number` reads them and as text otherwise; categories as given; the sort from `sortBy` and `sortOrder` |
| HostawayMock.ParseQueryFields | server/src/util/setup-hostaway-mock.ts:110-143 | each filter is set exactly when its parameter is present and non-empty; a list filter is set exactly when the key has values, one element per value |
| HostawayMock.ChannelMatches | server/src/util/setup-hostaway-mock.ts:177-181 | a numeric channel matches a review whose channel id equals it; a textual one matches when the review's channel id written out equals it |
| HostawayMock.Matches | server/src/util/setup-hostaway-mock.ts:165-206 | a review is kept when it is published or the caller is an admin, and every supplied filter holds: listing id (a NaN id keeps nothing), type, some channel, minimum rating (NaN keeps all), some category, and the date bounds, which drop reviews whose own date does not parse |
| HostawayMock.Page | server/src/util/setup-hostaway-mock.ts:208-215 | `slice`: the page is the matches from the resolved offset up to the resolved `offset + limit` (NaN when either is NaN), empty when that end is not after the start; without a limit it is every match from the offset on |
| HostawayMock.FetchReviewsSound | server/src/util/setup-hostaway-mock.ts:165-222 | the status is success; every returned review is in the table and passes every supplied filter; a public caller sees only published reviews; the count is the number of matches, at least the page size |
| HostawayMock.FilteredIsExactlyTheMatches | server/src/util/setup-hostaway-mock.ts:165-206 | a review is among the matches exactly when it is in the table and passes every filter |
| HostawayMock.FilteredIsSortedMatches | server/src/util/setup-hostaway-mock.ts:145-206 | with a sort key defined on every review, the matches are the sorted list of the matching reviews |
| HostawayMock.NoSortKeepsTableOrder | server/src/util/setup-hostaway-mock.ts:149 | without `sortBy` the matches come in table order |
| HostawayMock.PageWindow | server/src/util/setup-hostaway-mock.ts:208-215 | for a non-negative offset and limit, the page is the matches from offset to offset + limit (or to the end), and empty for an offset at or past the end |
| HostawayMock.PageFromEnd | server/src/util/setup-hostaway-mock.ts:208-215 | a negative offset, which validation lets through, counts back from the end: without a limit the page is the last matches; with a limit, the end is offset + limit, itself counted back from the end when negative |
| HostawayMock.PageOddLimit | server/src/util/setup-hostaway-mock.ts:208-215 | a limit that validation lets through but is not a count: NaN gives an empty page, and a negative limit `-m` gives nothing when `m` is at most the offset, and otherwise stops the page `m - offset` matches before the end |
| HostawayMock.OffsetEcho | server/src/util/setup-hostaway-mock.ts:208-222 | the response's offset is the parsed `offset`, or 0 when none is given |
| HostawayMock.Find | server/src/util/setup-hostaway-mock.ts:85 | the lookup finds nothing exactly when no review has the id; otherwise it gives the first review with it |
| HostawayMock.FindIndex | server/src/util/setup-hostaway-mock.ts:246 | the first position holding the id, or -1 exactly when no review has it |
| HostawayMock.PatchTarget | server/src/util/setup-hostaway-mock.ts:246-247 | the written index test: a target is a row after the first one that holds the id |
| HostawayMock.FirstReviewIsNeverPatched | server/src/util/setup-hostaway-mock.ts:247 | the first review's id is found at index 0, and the update refuses it |
| HostawayMock.PatchTargetIntended | server/src/util/setup-hostaway-mock.ts:246-247 | the intended target is any row that holds the id |
| HostawayMock.PatchTargetIntendedFindsEveryId | server/src/util/setup-hostaway-mock.ts:246-247 | the intended target exists exactly when some review has the id, and agrees with the written one except at the first row |
| HostawayMock.ReviewStore.FetchReviews | server/src/util/setup-hostaway-mock.ts:103-223 | copying the table into an array and sorting, filtering and paging it gives the specified response; the table is not modified |
| HostawayMock.ReviewStore.FetchReview | server/src/util/setup-hostaway-mock.ts:78-95 | null exactly when the URL has no id. Otherwise a success with offset 0, holding the first review with the id and count 1. There is no result and count 0 when there is no such review, or when a public caller asks for an unpublished one |
| HostawayMock.ReviewStore.PatchStatus | server/src/util/setup-hostaway-mock.ts:231-263 | nothing for a non-admin. A failure, with the table unchanged, for a missing id or status or a refused row. Otherwise the row holding the id gets the given status, nothing else in the table changes, and that row is returned with count 1 |
| HostawayMock.PatchChangesOnlyOneStatus | server/src/util/setup-hostaway-mock.ts:256 | writing a status into one row keeps every other row and every other field of that row |
| ReviewsRouter.EntryPairs | server/src/routers/reviews.router.ts:36-41 | an entry contributes one pair per text under its key: none when skipped, one for a scalar, one per element of an array |
| ReviewsRouter.Entries | server/src/routers/reviews.router.ts:34-43 | `Object.entries(queryDto)` with each value as the text sent: numbers through `String`, dates as their text or "Invalid Date", channel codes as numerals, lists as arrays, undefined fields skipped |
| ReviewsRouter.EntriesFollowDeclaration | server/src/routers/reviews.router.ts:35 | the entries are the eleven declared properties, in declaration order |
| ReviewsRouter.EntriesSkipUndefined | server/src/routers/reviews.router.ts:36 | an entry is skipped exactly when its property is undefined, and `sortBy`, `sortOrder` and `offset` are always sent |
| ReviewsRouter.EntriesDistinct | server/src/routers/reviews.router.ts:35 | no two entries share a key |
| ReviewsRouter.QueryPairsKeys | server/src/routers/reviews.router.ts:34-43 | a key that no entry has gets no values |
| ReviewsRouter.GetAllOfQueryPairs | server/src/routers/reviews.router.ts:34-43 | with distinct keys, reading a key back gives exactly its entry's texts, in order |
| ReviewsRouter.GetAllOfEntryPairs | server/src/routers/reviews.router.ts:38 | an array entry's pairs read back as its elements, in order |
| ReviewsRouter.BuildQueryParams | server/src/routers/reviews.router.ts:34-43 | the loop of `set` and `append` calls produces exactly the entries' pairs, in order |
| ReviewsRouter.AppendEach | server/src/routers/reviews.router.ts:37-38 | appending an array value adds one pair per element under the key, in order, after the pairs already there |
| ReviewsRouter.GetAllOfEntries | server/src/routers/reviews.router.ts:35 | each field of the validated query is read back as the texts it was sent as |
| ReviewsRouter.ChannelsRoundTrip | server/src/util/setup-hostaway-mock.ts:117-134 | the mock reads a valid channel list back as the same channel numbers, in order |
| ReviewsRouter.ChannelsSent | server/src/routers/reviews.router.ts:38 | the channels are sent as their numerals, in order |
| ReviewsRouter.ChannelNumerals | server/src/util/setup-hostaway-mock.ts:117-132 | channel numerals under "channels" are parsed back as those numbers |
| ReviewsRouter.CategoriesRoundTrip | server/src/util/setup-hostaway-mock.ts:124-126 | the mock reads the category list back unchanged |
| ReviewsRouter.ListOutcome | server/src/routers/reviews.router.ts:59-89 | the vendor's success gives 200 with the vendor record; any other status gives 400 "HostawayError"; a thrown error or missing body gives 500 "InternalServerError" "Failed to fetch reviews", with the error text (the TypeError's for a missing body) only in the data |
| ReviewsRouter.ListReviews | server/src/routers/reviews.router.ts:17-90 | an invalid query gives 400 "ValidationError" with the first message and the errors, and no vendor call; a valid one is sent as its serialised pairs, and the reply decides the response |
| ReviewsRouter.PatchOutcome | server/src/routers/reviews.router.ts:146-176 | success gives 200 "Review status updated successfully"; any other status gives 404 "NotFoundError"; a throw or missing body gives 500 "InternalServerError" "Failed to update review status" with the error text in the data |
| ReviewsRouter.InvalidId | server/src/routers/reviews.router.ts:113 | an id is refused when it is empty or `Number` reads it as NaN |
| ReviewsRouter.StatusText | server/src/routers/reviews.router.ts:101 | the raw `status` as interpolated into the URL: "undefined" when absent, the value itself, or a repeated value's elements joined with ',' |
| ReviewsRouter.PatchUrl | server/src/routers/reviews.router.ts:136-137 | the update goes to the vendor's reviews URL, then '/', the id, and `?status=` with the status text |
| ReviewsRouter.PatchReview | server/src/routers/reviews.router.ts:98-178 | a header other than "Bearer admin" gives 403, whatever the id. An admin's empty or non-numeric id gives 400 "Please provide a valid review ID". An invalid query then gives 400 "ValidationError" with the first message and the whole error list. The vendor is called exactly when all checks and validation pass, at the review's URL with the status text |
| ReviewsRouter.ValidatedPatch | server/src/routers/reviews.router.ts:121-176 | after the header and id checks: an invalid query gets 400 with the first message and the error list and no call; a valid one is sent to the review's URL and the reply decides |
| ReviewsRouter.AnyStatusIsForwarded | server/src/routers/reviews.router.ts:123-137 | `status` is not a field of the validated query, so any status text reaches the vendor URL unchanged |
| ReviewsRouter.GetOutcome | server/src/routers/reviews.router.ts:199-241 | success gives 200 "Review retrieved successfully"; any other status, or a thrown error with a 404 response, gives 404 "Review not found"; other throws and a missing body give 500 "InternalServerError" "Failed to fetch review", with the error text (the TypeError's for a missing body) in the data |
| ReviewsRouter.GetReview | server/src/routers/reviews.router.ts:181-243 | an empty or non-numeric id gives 400 and no vendor call; otherwise the review's URL is fetched and the reply decides the response |
| ReviewsRouter.ThrownErrorsAreInternal | server/src/routers/reviews.router.ts:81-89 | each handler answers a thrown error with 500 and its own fixed message; the error text appears only under `data.error` |
| ReviewsRouter.NullLookupIsInternal | server/src/routers/reviews.router.ts:199-241 | a null body from the vendor (the mock's answer for an id it cannot read) becomes 500 "InternalServerError" with the TypeError's text |
| ManagerUtils.DisplayHour | manager/listings/utils.js:53 | for a non-negative hour the number is in 1..12 and agrees with the hour modulo 12 |
| ManagerUtils.ConvertTo12Hour | manager/listings/utils.js:51-55 | the label is the number immediately followed by the two-letter period, which is "PM" exactly from hour 12 on |
| ManagerUtils.From12Hour | manager/listings/utils.js:51-55 | reading a label back gives an hour of the day, when it gives one |
| ManagerUtils.FormatRoundTrip | manager/listings/utils.js:51-55 | every hour from 0 to 23 is read back from its label |
| ManagerUtils.FormatInjective | manager/listings/utils.js:51-55 | distinct hours of the day get distinct labels |
| ManagerUtils.MidnightAndNoon | manager/listings/utils.js:52-54 | hour 0 is "12AM" and hour 12 is "12PM" |
| ManagerUtils.HalfDays | manager/listings/utils.js:52-54 | hours h and h + 12 (for h below 12) share the number and differ only in the period |

## Left out

- The axios interceptors (server/src/util/setup-hostaway-mock.ts:266-353) only route a request to a mock handler. The handlers are modelled directly, and the router's vendor is an oracle.
- Express wiring, `async`/`await` and `res.status().json` are not modelled. Only the status, name, message and data of each response are.
- `server/src/routers/listings.router.ts`, the listing mocks and `config.ts` are not part of this model.
- class-transformer's conversion is modelled field by field by `ReviewsQuery.Instantiate`. class-validator's rules are the `Valid` predicate, and its error list is `FieldErrors`.
  - ReviewsQuery.Instantiate: a repeated number or date field (an array after conversion) is shown as NaN or an Invalid Date. The same rules reject both forms.
  - ReviewsQuery.Instantiate: query keys that the DTO does not declare are dropped. `ReviewsRouter.Entries` therefore does not serialise them.
  - ReviewsRouter.Entries: the entries follow the DTO's declaration order. The order of `Object.entries` across keys is not modelled, and the mock reads each key on its own.
  - ReviewsQuery.RatingCheck: the order of the `max` and `min` constraints inside one error is taken as `max` first. Both carry the same message.
- `parseInt`, `Number`, `new Date` and `Date.prototype.toString` are parameters (`JsRuntime.Runtime`). The round-trip lemmas state what they assume of them.
- `Number.prototype.toString` of a finite number other than a safe integer is also a parameter. That covers fractions, exponent notation, and integers beyond 2^53 - 1, which JavaScript writes with the double's shortest round-trip digits.
- JsRuntime.NumberToString: numbers are exact reals. Rounding to a double is not modelled, so the text of an integer beyond 2^53 - 1 in magnitude is only the host's, not a numeral the model derives.
- JsRuntime.ParsedIntToString: a `parseInt` result is an exact integer. A large numeral is not rounded to a double, and its text beyond 2^53 - 1 in magnitude is left to the host.
- HostawayMock.ChannelMatches: `String(review.channelId)` is written as the exact numeral. That is JavaScript's text only for safe integers. The channel codes are four-digit numbers such as 2018.
- URL text encoding is not modelled. The list call carries its search parameters as pairs, and the update call carries its URL as text.
- ReviewOrder.Sort: when some dates do not parse, JavaScript's sort order is left to the engine. The model then gives the insertion sort's result, and the sortedness lemmas require every key to be defined.
- HostawayMock.ChannelMatches: a numeric channel filter compares as a real number, and a textual one as the review's channel written out.
- HostawayMock.ReviewStore.PatchStatus: the status text is read from the request's search parameters, which are a parameter. Decoding them from the URL is not modelled.
- `getStarRating` (floating point with `toFixed`) and the DOM helpers in manager/listings/utils.js are not modelled. Nor is the front end: rendering, events, calendar and booking.
- The initial table of reviews is the `ReviewStore` constructor's argument.
- ManagerUtils.ConvertTo12Hour: only integer hours are modelled. A fractional JavaScript number is not.

## Findings

| source | as written | input that shows it | evidently intended | confidence | as-written member | corrected member |
|---|---|---|---|---|---|---|
| server/src/util/setup-hostaway-mock.ts:247 | `!reviewIndex` also rejects index 0, so the first review of the table can never have its status updated | a table whose first review has id 1, patched with id 1 and status "awaiting" | reject only a missing review (index -1) | high; not executed | HostawayMock.FirstReviewIsNeverPatched | HostawayMock.PatchTargetIntendedFindsEveryId |
| server/src/dtos/request/reviews-query.dto.ts:70-71 | `Min(0)` and `Max(0)` accept only 0, although the message says "1 - 10", and the client sends doubled star ratings | `minRating=4` (two stars) is rejected with 400 | accept ratings from 1 to 10 | high; not executed | ReviewsQuery.MinRatingAcceptsOnlyZero | ReviewsQuery.RatingInRangeAcceptsDoubledStars |

Both rows keep the code as written in the store and the validator (`PatchStatus` uses `PatchTarget`, and `Valid` uses Min 0 / Max 0). The corrected definitions stand beside them with their properties proved.
