# SlimLink core in Dafny

SlimLink is a URL shortener. A client posts a long URL, optionally with a custom short code. The service stores a row in a `urls` table, counts clicks on the short code, and lists the links page by page on a dashboard. This project models the logic behind that and proves what it promises:

- **`IdGenerator`** (`id_generator.dfy`). `generateSecureString` draws random bytes in batches. It masks each byte down to the smallest all-ones mask that covers the alphabet's indices, and keeps the byte only when it indexes the alphabet. The method is written as the same nested `while`/`for` loop over an input byte stream. The `while` loop is the method `Collect` and the `for` loop over one batch is `DrawBatch`. Together they are proved to return exactly the first `length` characters that the stream's whole batches yield. The `IDGenerator` class holds a mutable alphabet and default length and validates both.
- **`LinkStore`** (`link_store.dfy`). The `Database` class holds the `urls` table as a sequence of rows plus the next value of the `id` sequence. The statements that change rows (`addUrl`, `deleteUrl`, `deleteUrlById`, `updateClickStats`, `updateRedirectUrl`) are methods. Each is tied to a function saying what its SQL does to the table. The read-only queries are functions that read the object. Errors are the datatype `DbError` (`DatabaseError`, `NotFoundError`, `ValidationError`).
- **`Pagination`** (`pagination.dfy`). The page metadata computed by both the `GET /api/links` handler and the dashboard action: `total_pages`, `current_page`, `has_next` and `has_prev`.
- **`LinksRoute`** (`links_route.dfy`). The `POST /api/links` handler as a method on the store: validation, then the bounded `do … while` allocation loop of at most ten generated codes, then `addUrl`. Also what it decides, as a function with lemmas, and the `GET` handler's defaults and outcome.
- **`DashboardActions`** (`dashboard_actions.dfy`). The dashboard's `getLinks(page)` page-to-offset arithmetic.
- **`LinkTable`** (`link_table.dfy`). The table's `formatTimeAgo` and its "Showing X to Y of Z results" caption.
- **`Common`** (`common.dfy`). `Option`, `Result`, `String.prototype.trim` (by the counts of leading and trailing whitespace), and the JavaScript blank-string test `!s || s.trim().length === 0` used throughout.

Randomness, the clock and the regular expression are parameters:

- `crypto.getRandomValues` becomes an input sequence of bytes.
- `NOW()` and `new Date()` become a `now` timestamp, or the elapsed milliseconds.
- The URL regular expression becomes a predicate `isValidUrl`, of which only the `http://`/`https://` prefix is known.
- The codes `gen.generate()` returns become a function `candidate` from attempt number to code.

## Model

| member | source | states |
|---|---|---|
| Common.Trim | src/service/database.ts:208 | `trim()` keeps the infix of the string that follows its leading whitespace and has only whitespace after it; that infix is empty exactly for an all-whitespace string, and otherwise starts and ends with a character that is not whitespace |
| Common.LeadingSpace | src/service/database.ts:208 | where `trim()` starts: every character before it is whitespace, and the one at it is not |
| Common.TrailingSpaceStart | src/service/database.ts:208 | where `trim()` stops: every character from it on is whitespace, and the one before it is not |
| Common.BlankIffTrimEmpty | src/service/database.ts:208 | a string is blank (missing, or `s.trim().length === 0`) exactly when trimming leaves nothing |
| IdGenerator.FloorLog2 | src/lib/IDGenerator.ts:24 | `floor(log2 x)` as an integer: the k with 2^k <= x < 2^(k+1) |
| IdGenerator.Mask | src/lib/IDGenerator.ts:24 | the mask is 2^k - 1 for k = floor(log2(n-1)) + 1; it covers index n-1, and mask + 1 < 2n, so at least half of the masked values index the alphabet |
| IdGenerator.Masked | src/lib/IDGenerator.ts:34 | `bytes[i] & mask` never exceeds the mask or the byte |
| IdGenerator.MaskedIsRemainder | src/lib/IDGenerator.ts:34 | `byte & mask` never exceeds the mask or the byte, leaves a byte within the mask unchanged, and is periodic in mask + 1 |
| IdGenerator.BatchSize | src/lib/IDGenerator.ts:25 | `-~(1.6 * mask * length / n)` is at least one byte per batch |
| IdGenerator.FullBatches | src/lib/IDGenerator.ts:29-31 | the bytes a stream delivers in whole batches: at most the stream, and less than one batch short of it |
| IdGenerator.Batches | src/lib/IDGenerator.ts:29-31 | the bytes delivered are a whole number k of batches: exactly k * step, with k * step <= total < (k + 1) * step |
| IdGenerator.Drawn | src/lib/IDGenerator.ts:33-38 | each byte adds at most one character: the first k bytes draw at most k |
| IdGenerator.DrawnNext | src/lib/IDGenerator.ts:34-37 | one more byte appends the character its masked value indexes, or nothing when that value is past the alphabet |
| IdGenerator.DrawnInAlphabet | src/lib/IDGenerator.ts:34-36 | every drawn character is a character of the alphabet, and one of its first 256 |
| IdGenerator.DrawnMonotone | src/lib/IDGenerator.ts:33-38 | characters are appended in draw order: the draw from fewer bytes is a prefix of the draw from more |
| IdGenerator.DrawnIgnoresLater | src/lib/IDGenerator.ts:33-38 | the first k draws depend only on the first k bytes |
| IdGenerator.DrawnAppend | src/lib/IDGenerator.ts:29-39 | drawing two streams one after the other yields the first stream's characters followed by the second's |
| IdGenerator.DrawnKeepsPrefix | src/lib/IDGenerator.ts:37 | once n characters are drawn, later bytes never change them |
| IdGenerator.Sampled | src/lib/IDGenerator.ts:29-39 | the characters of the stream's whole batches: at most one a byte, every one of them from the alphabet |
| IdGenerator.IndexReachable | src/lib/IDGenerator.ts:34-36 | each of the alphabet's first 256 characters is drawn by the byte equal to its index |
| IdGenerator.IndexBeyondByteUnreachable | src/lib/IDGenerator.ts:34-36 | a character found in the alphabet only past index 255 is never drawn, although alphabets of up to 1024 characters pass validation |
| IdGenerator.GenerateSecureString | src/lib/IDGenerator.ts:23-41 | a batch larger than the 65536 bytes `getRandomValues` fills is the QuotaExceeded error; otherwise an id is returned exactly when the whole batches of the stream yield at least `length` characters, else EntropyExhausted; the id is the first `length` of them |
| IdGenerator.UrlSafeQuotaBound | src/lib/IDGenerator.ts:24-31 | for the URL-safe alphabet the mask is 63, and the batch exceeds the 65536-byte quota exactly for lengths of 41611 and more |
| IdGenerator.Collect | src/lib/IDGenerator.ts:27-40 | the `while` loop, batch after batch: an id exactly when the whole batches draw at least `length` characters, and then the first `length` of them |
| IdGenerator.DrawBatch | src/lib/IDGenerator.ts:33-39 | the `for` loop over one batch: stops with a full id made of the first `length` characters drawn up to the batch's end, or returns everything drawn through the batch |
| IdGenerator.AssertValidLength | src/lib/IDGenerator.ts:67-71 | accepts exactly the integers >= 1; otherwise the TypeError "length must be an integer >= 1" |
| IdGenerator.AssertValidAlphabet | src/lib/IDGenerator.ts:73-83 | accepts exactly lengths 2..1024; too short and too large each raise their own TypeError |
| IdGenerator.Configure | src/lib/IDGenerator.ts:54-65 | the constructor checks the length (default 6) first, then a non-empty alphabet, whose rejection is the alphabet's own TypeError; a missing or empty alphabet selects the URL-safe default; the stored length is the one given |
| IdGenerator.UrlSafeAlphabetValid | src/lib/IDGenerator.ts:4-5 | the default alphabet has 64 characters and passes validation |
| IdGenerator.IDGenerator.Init | src/lib/IDGenerator.ts:50-52 | a generator holds a valid alphabet and a length >= 1 |
| IdGenerator.IDGenerator.Create | src/lib/IDGenerator.ts:54-65 | `new IDGenerator(options)` fails exactly when the configuration is rejected; otherwise it holds that configuration |
| IdGenerator.IDGenerator.Numeric | src/lib/IDGenerator.ts:99-101 | succeeds exactly for a valid length (default 6), with the alphabet "0123456789" and that length stored |
| IdGenerator.IDGenerator.AlphaNumeric | src/lib/IDGenerator.ts:106-112 | succeeds exactly for a valid length, with the 62-character upper, lower and digit alphabet and that length stored (default 6) |
| IdGenerator.IDGenerator.UrlSafe | src/lib/IDGenerator.ts:117-119 | succeeds exactly for a valid length, with the URL-safe alphabet and that length stored (default 6, as for the shared `gen`) |
| IdGenerator.IDGenerator.Generate | src/lib/IDGenerator.ts:89-93 | an invalid `length ?? this.length` is the TypeError; a valid one whose batch exceeds the 65536-byte quota is QuotaExceeded; otherwise an id is returned exactly when the stream's whole batches draw that many characters, and it is the first that many of them; an id has only alphabet characters; the stored length is not modified |
| IdGenerator.IDGenerator.SetDefaultLength | src/lib/IDGenerator.ts:124-127 | stores the length exactly when it is valid; a rejected length leaves the stored length and the alphabet unchanged |
| IdGenerator.IDGenerator.SetAlphabet | src/lib/IDGenerator.ts:133-140 | `undefined` restores the URL-safe alphabet; any string, `""` included, is validated first and stored only when valid; the length is unchanged |
| LinkStore.FirstWithCode | src/service/database.ts:130-135 | finds a row exactly when some row has the code; it is the first such row in table order |
| LinkStore.FirstWithId | src/service/database.ts:159-165 | finds a row exactly when some row has the id; it is a row of the table with that id |
| LinkStore.WithoutCode | src/service/database.ts:251-255 | `DELETE … WHERE "shortUrl" = code` keeps exactly the rows with other codes; nothing is removed exactly when no row matches; ids stay distinct |
| LinkStore.WithoutId | src/service/database.ts:282-286 | `DELETE … WHERE id = id` keeps exactly the rows with other ids; nothing is removed exactly when no row matches; ids stay distinct |
| LinkStore.Clicked | src/service/database.ts:313-319 | the click update changes only the rows with the code: one more click and `lastClicked = now`; every other row is as it was |
| LinkStore.Redirected | src/service/database.ts:353-358 | the redirect update changes only `redirectUrl` of the rows with the code |
| LinkStore.InsertDesc | src/service/database.ts:396 | inserting one row into an ordered list adds exactly that row |
| LinkStore.InsertDescSorted | src/service/database.ts:396 | insertion keeps a list in descending order |
| LinkStore.SortDesc | src/service/database.ts:394-399 | `ORDER BY column DESC` yields the same rows (as a multiset), in descending order |
| LinkStore.Window | src/service/database.ts:397-398 | `LIMIT limit OFFSET offset` yields min(limit, rows - offset) rows, not fewer than zero, namely the rows from the offset on, each row taken no more often than the list holds it |
| LinkStore.WindowOfSorted | src/service/database.ts:394-399 | a window of a descending list is descending and holds only rows of the list |
| LinkStore.ClickedRows | src/service/database.ts:469 | `WHERE "lastClicked" IS NOT NULL` keeps exactly the rows clicked at least once, each no more often than the table holds it |
| LinkStore.CheckLimit | src/service/database.ts:387-389 | a limit is accepted exactly within 1..100 |
| LinkStore.Database.constructor | src/service/database.ts:492 | the store starts as a freshly deployed table: no rows, and the id sequence at 1 |
| LinkStore.Database.GetUrl | src/service/database.ts:124-150 | a blank code is a ValidationError; otherwise a row is returned exactly when one has the code, and it has that code |
| LinkStore.Database.GetUrlById | src/service/database.ts:153-180 | an id of 0 or below is a ValidationError; otherwise a row is returned exactly when one has the id |
| LinkStore.Database.HasCode | src/service/database.ts:183-203 | true exactly when the code is not blank, the query succeeds and a row has the code; blank codes and failed queries give false |
| LinkStore.Database.GetUrlCount | src/service/database.ts:416-428 | `COUNT(*)`: the number of rows |
| LinkStore.Database.GetUrlsPaginated | src/service/database.ts:382-413 | a limit outside 1..100 and then a negative offset are ValidationErrors; otherwise min(limit, rows - offset) rows, newest first, drawn from the table without repetition (multiset inclusion); the page is the window at the offset of the table sorted by `createdAt` descending |
| LinkStore.Database.GetMostClickedUrls | src/service/database.ts:431-458 | a limit outside 1..100 is a ValidationError; otherwise min(limit, rows) rows, most clicked first, drawn from the table without repetition (multiset inclusion) |
| LinkStore.Database.GetRecentlyClickedUrls | src/service/database.ts:461-489 | a limit outside 1..100 is a ValidationError; otherwise exactly min(limit, clicked rows) rows, all clicked at least once, most recent click first, drawn from the clicked rows without repetition (multiset inclusion) |
| LinkStore.Database.AddUrl | src/service/database.ts:206-242 | a blank code, a blank URL and an existing code are ValidationErrors, in that order, and leave the table unchanged; otherwise exactly one row (next id, 0 clicks, no click time, `now`) is appended; codes stay unique when `hasCode` answered truthfully |
| LinkStore.Database.DeleteUrl | src/service/database.ts:245-273 | a blank code is a ValidationError, no matching row a NotFoundError, both leaving the table unchanged; otherwise exactly the matching rows are removed and the result is true |
| LinkStore.Database.DeleteUrlById | src/service/database.ts:276-304 | an id <= 0 is a ValidationError, an unknown id a NotFoundError; otherwise exactly the row with the id is removed |
| LinkStore.Database.UpdateClickStats | src/service/database.ts:307-338 | a blank code is a ValidationError, a missing code a NotFoundError; otherwise the matching row gains exactly one click and `lastClicked = now`, and nothing else changes |
| LinkStore.Database.UpdateRedirectUrl | src/service/database.ts:341-379 | both strings must be non-blank; a missing code is a NotFoundError; otherwise only `redirectUrl` of the matching row changes, and the returned row is that row as updated |
| LinkStore.InsertKeepsCodesUnique | src/service/database.ts:215-223 | inserting a row whose code is absent keeps codes unique |
| LinkStore.DeleteKeepsWellFormed | src/service/database.ts:251-255 | deleting by code keeps ids distinct, positive and below the sequence's next value |
| LinkStore.DeleteByIdKeepsWellFormed | src/service/database.ts:282-286 | deleting by id keeps the table well formed |
| LinkStore.ClickedKeepsWellFormed | src/service/database.ts:313-319 | a click changes no id and keeps counters non-negative |
| LinkStore.RedirectedKeepsWellFormed | src/service/database.ts:353-358 | a redirect changes no id and no counter |
| LinkStore.RedirectedFirst | src/service/database.ts:353-364 | the row `RETURNING *` yields first is the first matching row with the new URL |
| LinkStore.PrefixIsTop | src/service/database.ts:439-440 | the first k rows of a descending list rank at least as high as every row left out |
| LinkStore.MostClickedAreTop | src/service/database.ts:437-443 | `getMostClickedUrls` returns the most clicked rows: no row left out has more clicks than the last row returned |
| LinkStore.WindowIsBand | src/service/database.ts:394-399 | a window of a descending list is a contiguous band of it: every row outside ranks at least as high as its first row or no higher than its last |
| LinkStore.PageIsBand | src/service/database.ts:394-399 | a page of `getUrlsPaginated` holds neighbours in creation order: no row of the table left off it was created strictly between its first and last rows |
| LinkStore.RecentlyClickedAreTop | src/service/database.ts:467-474 | `getRecentlyClickedUrls` returns the most recently clicked rows: no clicked row left out was clicked later than the last row returned |
| Pagination.CeilDiv | src/app/api/links/route.ts:29 | `Math.ceil(a / b)`: the fewest b-sized pages that hold a rows |
| Pagination.Metadata | src/app/api/links/route.ts:23-33 | the response carries back the rows, the row count, the limit and the offset it was computed from |
| Pagination.MetadataMeaning | src/app/api/links/route.ts:23-33 | `total_pages` pages hold every row and one fewer would not; there are no pages exactly when there are no rows; `has_next` iff `offset + limit < total`; `has_prev` iff `offset > 0` |
| Pagination.NextPageExists | src/app/api/links/route.ts:29-31 | a page with a next page has `current_page < total_pages` |
| Pagination.PrevPageExists | src/app/api/links/route.ts:30-32 | `has_prev` iff `current_page > 1` |
| LinksRoute.FirstFree | src/app/api/links/route.ts:96-114 | the attempt whose code the loop keeps: below ten, its code free and every earlier attempt's taken; none only when all ten are taken |
| LinksRoute.StoreErrorResponse | src/app/api/links/route.ts:133-147 | a store ValidationError is a 400 with its message; any other store error is a 500 "Failed to create short URL" with the message as details |
| LinksRoute.BlankUrlRejected | src/app/api/links/route.ts:58-60 | a missing or blank `url` is a 400 "URL is required" |
| LinksRoute.AcceptedUrlHasScheme | src/app/api/links/route.ts:6-11 | a URL that fails `isValidUrl` is a 400; every accepted URL begins with `http://` or `https://` |
| LinksRoute.CustomCodeDecision | src/app/api/links/route.ts:75-93 | a custom code is used exactly when it matches `[a-zA-Z0-9]{3,20}` and is free; otherwise 400 or 409 |
| LinksRoute.EmptyCodeIsAbsent | src/app/api/links/route.ts:75 | `code: ""` is decided exactly as a request without a code |
| LinksRoute.GeneratedCodeDecision | src/app/api/links/route.ts:96-114 | without a custom code the first free candidate among the first ten is used; if all ten are taken the answer is a 500 |
| LinksRoute.PostDecision | src/app/api/links/route.ts:57-115 | a code is chosen only for a non-blank URL that passed `isValidUrl`, and never one the store holds; every early response is a 400, 409 or 500 |
| LinksRoute.Post | src/app/api/links/route.ts:53-132 | the response and the new table follow the decision: every rejection leaves the table unchanged; a success appends exactly one row with the URL and a previously free code (201) and advances the id sequence by one, which no other outcome touches; codes stay unique |
| LinksRoute.OrDefault | src/app/api/links/route.ts:17-18 | a missing, unparsable or zero parameter (a falsy `parseInt` result) takes the default |
| LinksRoute.Get | src/app/api/links/route.ts:13-51 | every failure is the 500 "Failed to fetch URLs"; a listed page has a limit within 1..100, a non-negative offset and the table's row count as total |
| LinksRoute.GetOutcome | src/app/api/links/route.ts:13-51 | 200 exactly when the defaulted limit is in 1..100 and the offset is not negative, otherwise 500; the page carries the limit, offset, row count and metadata |
| LinksRoute.GetDefaults | src/app/api/links/route.ts:17-18 | with no parameters, or zeros, the first ten rows are listed |
| DashboardActions.GetLinks | src/shared/components/dashboard/actions/get.action.ts:25-42 | succeeds exactly for page >= 1, with limit 10, offset (page-1)*10 and the table's row count; a page of 0 or below fails with the store's offset ValidationError |
| DashboardActions.GetLinksPage | src/shared/components/dashboard/actions/get.action.ts:25-42 | for page >= 1: limit 10, offset (page-1)*10, `current_page == page`, `has_prev` iff page > 1, `has_next` iff page*10 < total, `total_pages = ceil(total/10)` |
| DashboardActions.NextPageBelowCount | src/shared/components/dashboard/actions/get.action.ts:37-39 | a page with a next page is below the page count |
| DashboardActions.NonPositivePageRejected | src/shared/components/dashboard/actions/get.action.ts:26-29 | page <= 0 gives a negative offset, which the store rejects with ValidationError "Offset cannot be negative" |
| LinkTable.FormatTimeAgo | src/shared/components/dashboard/ui/LinkTable.tsx:50-67 | "Never" exactly for a null or empty date; any "… ago" count is at least 1 |
| LinkTable.Text | src/shared/components/dashboard/ui/LinkTable.tsx:51-66 | every "… ago" text has at least five characters and ends in " ago" |
| LinkTable.JustNowExactly | src/shared/components/dashboard/ui/LinkTable.tsx:56-60 | "Just now" exactly when less than a minute elapsed, future times included |
| LinkTable.MinutesExactly | src/shared/components/dashboard/ui/LinkTable.tsx:61 | minutes are shown exactly from 1 minute to under an hour, as whole minutes 1..59 |
| LinkTable.HoursExactly | src/shared/components/dashboard/ui/LinkTable.tsx:62-63 | hours are shown exactly from 1 hour to under a day, as whole hours 1..23 |
| LinkTable.DaysExactly | src/shared/components/dashboard/ui/LinkTable.tsx:64 | days are shown exactly from 1 day to under 7, as whole days 1..6 |
| LinkTable.OnDateExactly | src/shared/components/dashboard/ui/LinkTable.tsx:66 | the locale date is shown exactly for an unparsable date or 7 days or more |
| LinkTable.SuffixPlural | src/shared/components/dashboard/ui/LinkTable.tsx:61-64 | the unit takes an "s" exactly when the count is above one, and the text ends in " ago" |
| LinkTable.AgoTextPlural | src/shared/components/dashboard/ui/LinkTable.tsx:61-64 | an "… ago" text starts with the count's digits, ends in " ago", and is plural exactly when the count is above one |
| LinkTable.RangeCaption | src/shared/components/dashboard/ui/LinkTable.tsx:221-222 | the caption starts at 0 for an empty page and at 1 or more otherwise; it ends at no more than the total or page*10 |
| LinkTable.CaptionMatchesPage | src/shared/components/dashboard/ui/LinkTable.tsx:221-222 | for the page `getLinks` returns, a non-empty caption runs from offset+1 to offset+rows shown; an empty one reads "0 to total" |

## Left out

- IdGenerator.Mask: the mask is computed with an integer floor-log2, not `Math.log(n - 1) / Math.LN2` in floating point with a 32-bit shift. They agree for alphabets of 2..1024 characters unless floating-point rounding at an exact power of two differs.
- IdGenerator.BatchSize: computed on exact rationals. Floating-point rounding of `1.6 * mask * length` and the 32-bit truncation of `-~` are not modelled.
- IdGenerator.MaskedIsRemainder: `byte & mask` is written as repeated subtraction of mask + 1. The lemma states bounds and periodicity rather than equality with `%`.
- IdGenerator.GenerateSecureString: `crypto.getRandomValues` is an input byte sequence consumed in whole batches. The source's `while (true)` ends only with probability one; the model fails with `EntropyExhausted` when the stream runs out. The `QuotaExceededError` that `getRandomValues` throws for a batch over 65536 bytes is the `QuotaExceeded` failure; the source does not catch it, so it reaches the caller of `generate`.
- IdGenerator.ValidLength: JavaScript numbers are modelled as reals, so the test `!Number.isInteger(n) || n < 1` (src/lib/IDGenerator.ts:68) is not modelled for NaN, Infinity or non-number arguments. Lengths are counted in characters, not UTF-16 code units.
- LinksRoute.AcceptedUrlHasScheme: `URL_REGEX` is not reimplemented, because it relies on backtracking and `\b`. `isValidUrl` is a parameter, and the lemma assumes only that accepted URLs start with `http://` or `https://`.
- LinksRoute.OrDefault: `parseInt`'s digit scanning is not modelled. The caller passes its result, with None standing for NaN.
- LinksRoute.Post: the `hasCode` probes are assumed to succeed. A probe failure is modelled only inside `AddUrl`, through its `probeFails` flag. JSON parsing errors and the generic 500 fallback are not modelled. Neither is the set of fields copied into the 201 body.
- LinksRoute.Get: the "Internal server error" branch for errors that are not DatabaseErrors is not modelled, since every store error here is a DatabaseError.
- Driver failures: every store method turns a failure of the SQL driver into a DatabaseError (src/service/database.ts:144, 174, 236, 267, 298, 332, 373, 407, 422, 452, 483, in `getUrl`, `getUrlById`, `addUrl`, `deleteUrl`, `deleteUrlById`, `updateClickStats`, `updateRedirectUrl`, `getUrlsPaginated`, `getUrlCount`, `getMostClickedUrls` and `getRecentlyClickedUrls`). The model's store never fails this way, so no member returns a DatabaseError. Two branches are therefore unreachable in the model: the 500 "Failed to create short URL" of `StoreErrorResponse` in `POST`, and the 500 "Failed to fetch URLs" of `GET` for a transport failure (its 500 for a rejected limit or offset is reached).
- LinkStore.Database.AddUrl: the "no data returned" DatabaseError (src/service/database.ts:226-228) is not modelled. The swallowed failure of the `hasCode` probe is modelled, as the flag `probeFails`.
- No unique-constraint violation is caught at the `INSERT` (src/service/database.ts:220-224): a duplicate code is kept out only by the `hasCode` check before it, which the model follows.
- LinkStore.SortDesc: SQL leaves the order of rows with equal keys unspecified. The model uses a stable insertion sort, so its tie order is one of the orders SQL permits.
- LinkStore.Database.GetUrlsPaginated: the JavaScript default parameter values (limit 10, offset 0; limit 10 for the two other listings) are not modelled. Callers pass both.
- `getUrls`, `pingDb` and `pingDbX`: health and debugging queries outside the core; not modelled.
- getErrorMessage, getErrorCode and getErrorDetail: the dynamic error-shape sniffing and `console.error` logging are not modelled. Errors are the closed datatype `DbError`.
- Concurrency: the check-then-insert race between `hasCode` and `INSERT` is not modelled. Each operation runs alone on the table.
- LinkTable.FormatTimeAgo: `new Date()`, date parsing and `toLocaleDateString` are not modelled. The caller passes the elapsed milliseconds, or None for an unparsable date, and the locale text.
- DashboardActions.GetLinks: `page` is an integer. A fractional page, which JavaScript would accept, is not modelled.
- React rendering, clipboard and fetch plumbing, and src/lib/generate_id.ts are not part of this model.
