# URL shortener link registry, modelled in Dafny

This project models the core of a small URL shortener:
- an Express backend that keeps a `links` table of short codes and their target URLs;
- a React frontend that lists, filters, creates and deletes those links and shows per-link stats.

The backend model covers five parts:
- **Registry** is the `links` table held in memory by the class `Registry.LinkStore`. Its fields are:
  - a map from code to row;
  - the codes in newest-first order, standing for `ORDER BY created_at DESC`;
  - a creation counter that supplies `id` and `created_at`;
  - the log of emitted `click_updated` events.

  Its operations are the handlers of `/api/links`:
  - create, with a custom code or a generated one;
  - list;
  - get by code;
  - delete.
- **Redirect** is the `GET /:code` handler. It checks the code's format, looks the code up, adds one click, emits one event and replies 302.
- **Validate** holds the code-format predicate `^[A-Za-z0-9]{6,8}$`, written as an anchored bounded-repetition matcher, and the http/https URL check over an abstract parser.
- **CodeGenerator** is `generateCode(length = 6)`, a loop over a 62-character alphabet. `Math.random()` is replaced by a caller-supplied stream of reals in [0, 1).
- **LinkModel** holds the row, the API view with `shortUrl`, the HTTP responses and the event.

The frontend model covers four parts:
- **LinksTable**: the case-insensitive search filter and which part of the table renders.
- **Dashboard**: the list state. A create prepends the new link; a successful delete removes links by code; a load replaces the list or records an error.
- **LinkForm**: the error map built by `validate()` and the submitted payload.
- **StatsPage**: the `/code/<code>` path parser, the stats loader and the `click_updated` reload rule.

Two modules support the rest:
- **Builtins**: JavaScript's `filter`, `includes`, ASCII `toLowerCase` and `||` on strings, with their properties.
- **Scenarios**: end-to-end runs of the documented behaviours.
  - Create, visit, then get shows one click.
  - A repeated custom code answers 409.
  - A deleted code gives 404 and can be registered again.

The three backend operations that change the table (`Registry.LinkStore.Create`, `Registry.LinkStore.Delete` and `Redirect.Visit`) preserve `LinkStore.Valid()`:
- Every row is filed under its own valid code.
- Every row has a valid http(s) URL.
- Ids are unique.
- The order lists every row strictly newest first.

Across any run of operations, a row that survives keeps its id, code, URL and creation stamp, and its click count never decreases (`Registry.EvolvesAlong`).

## Model

| member | source | states |
|---|---|---|
| Validate.RepeatMatchIff | backend/src/utils/validate.js:2 | the anchored `{lo,hi}` repetition of `[A-Za-z0-9]` accepts exactly the strings of class characters whose length lies in [lo, hi] |
| Validate.IsValidCode | backend/src/utils/validate.js:2-12 | a code is valid iff its length is 6 to 8 and every character is a letter or a digit |
| Validate.RejectedCodes | backend/src/utils/validate.js:2 | strings of length 5 or 9 and strings containing `-` or `_` are rejected; sample valid and invalid codes |
| Validate.IsValidUrl | backend/src/utils/validate.js:20-31 | `isValidUrl`: a parse failure gives false, and an accepted URL always parsed; its exact acceptance rule is `Validate.IsValidUrlIff` |
| Validate.IsValidUrlIff | backend/src/utils/validate.js:20-31 | a URL is accepted iff it parses and its scheme is exactly `http` or `https`; a parse failure gives false |
| CodeGenerator.RandomIndex | backend/src/utils/generateCode.js:15 | `Math.floor(Math.random() * ALPHANUM.length)` is always an index below 62 |
| CodeGenerator.AlphabetIndex | backend/src/utils/generateCode.js:2 | every letter or digit has a position in the alphabet layout |
| CodeGenerator.AlphanumAt | backend/src/utils/generateCode.js:2 | the character at each alphabet position is the expected upper-case letter, lower-case letter or digit |
| CodeGenerator.AlphabetCharInjective | backend/src/utils/generateCode.js:2 | distinct alphabet positions hold distinct characters |
| CodeGenerator.AlphanumOnlyAlnum | backend/src/utils/generateCode.js:2 | every character of `ALPHANUM` is a letter or a digit |
| CodeGenerator.AlnumInAlphanum | backend/src/utils/generateCode.js:2 | every letter and digit occurs in `ALPHANUM` at its alphabet position |
| CodeGenerator.AlphanumMember | backend/src/utils/generateCode.js:2 | a character is in `ALPHANUM` iff it is in `[A-Za-z0-9]` |
| CodeGenerator.AlphanumIsTheCodeAlphabet | backend/src/utils/generateCode.js:2 | `ALPHANUM` has 62 pairwise distinct characters and holds exactly the class `[A-Za-z0-9]` |
| CodeGenerator.CodeFrom | backend/src/utils/generateCode.js:14-16 | one alphabet character per random value, so the length equals the number of values |
| CodeGenerator.GenerateCode | backend/src/utils/generateCode.js:10-18 | the loop's result is `CodeFrom` of the first `length` values: exactly `length` characters, all from `ALPHANUM`; the default length is 6 |
| CodeGenerator.GeneratedCodeIsValid | backend/src/utils/generateCode.js:10-18 | a generated code of 6 to 8 characters passes `isValidCode` |
| LinkModel.BaseUrl | backend/src/routes/links.js:88 | a non-empty `BASE_URL` is used as is; an unset or empty one falls through to `http://localhost:` with a non-empty `PORT`, and an unset or empty `PORT` to port 4000 |
| LinkModel.ShortUrl | backend/src/routes/links.js:90 | the short URL is the base URL, then `/`, then the code; `LinkModel.ShortUrlDeterminesCode` reads the code back |
| LinkModel.ViewOf | backend/src/routes/links.js:118-121 | a view keeps the whole row and adds its `shortUrl` |
| LinkModel.ShortUrlDeterminesCode | backend/src/routes/links.js:90 | stripping the base URL and `/` from a short URL gives its code back, so distinct codes never share a short URL |
| Registry.PlanCreate | backend/src/routes/links.js:48-76 | rejection with 400 happens iff the URL is missing, empty or invalid, or a truthy custom code is malformed; the URL is checked first and gets `Invalid or missing URL`, a malformed code `Code must match [A-Za-z0-9]{6,8}`; a truthy valid code is used as given, and a code is generated iff the code is absent or empty |
| Registry.Candidates | backend/src/routes/links.js:18-20 | every candidate drawn by `generateUniqueCode` has 6 characters and is a valid code |
| Registry.FirstUnused | backend/src/routes/links.js:14-31 | the chosen code is the first candidate not in the table, has length 6 and is valid; there is none exactly when every candidate is taken |
| Registry.Without | backend/src/routes/links.js:172-175 | the index after a delete holds exactly the other codes, and no more than before |
| Registry.WithoutKeepsNewestFirst | backend/src/routes/links.js:172-175 | removing a code from a newest-first index leaves the rest newest first |
| Registry.Listing | backend/src/routes/links.js:118-121 | one view per listed code, in the same order, each carrying that row and its `shortUrl` |
| Registry.EvolvesAlong | backend/src/routes/redirect.js:43 | along any run of store states, each step of which evolves, the last state evolves from the first: surviving rows keep id, code, URL and creation stamp, and clicks never decrease |
| Registry.LinkStore.constructor | backend/src/routes/links.js:88 | the store starts empty, with counter 0 and no events, satisfies `Valid()`, and takes its base URL from `BASE_URL` and `PORT` by `LinkModel.BaseUrl` |
| Registry.LinkStore.GenerateUniqueCode | backend/src/routes/links.js:14-31 | the loop returns exactly the first candidate absent from the table, or none when the random supply runs out |
| Registry.LinkStore.Insert | backend/src/routes/links.js:79-96 | adds exactly one row with the given code and URL, the next counter value as id and creation stamp, 0 clicks and no last click; puts the code first in the order; answers 201 with the row and `shortUrl = baseUrl + "/" + code` |
| Registry.LinkStore.Create | backend/src/routes/links.js:46-102 | 400 for an invalid URL or custom code, and 409 for a taken custom code, each with the table unchanged; otherwise inserts the custom or first unused generated code; no code available gives 500 with no change; keeps `Valid()` and evolves the table |
| Registry.LinkStore.List | backend/src/routes/links.js:109-128 | every view is a stored row with its `shortUrl`, every stored row appears, and views are strictly newest first by `created_at` |
| Registry.LinkStore.Get | backend/src/routes/links.js:135-161 | status 200 with the row and its `shortUrl` iff the code is stored, otherwise 404 `Code not found` |
| Registry.LinkStore.Delete | backend/src/routes/links.js:168-188 | a stored code is removed alone and 204 is sent; an absent code gives 404 with no change; afterwards a get of the code is 404 |
| Redirect.Clicked | backend/src/routes/redirect.js:43 | a visited row has one more click and `last_clicked_at = now`, and keeps its id, code, URL and creation stamp |
| Redirect.UpdateById | backend/src/routes/redirect.js:42-45 | the UPDATE by id keeps the table's codes, changes no row it does not match, and lets every row persist |
| Redirect.UpdateHitsOneRow | backend/src/routes/redirect.js:42-45 | with unique ids, the update by id changes only the visited row: one more click, `last_clicked_at` set to now, other fields kept |
| Redirect.FormatCheckLosesNothing | backend/src/routes/redirect.js:24-26 | a code failing the format check is never in the table, so the early 404 never hides a stored link |
| Redirect.Visit | backend/src/routes/redirect.js:19-57 | a malformed or unknown code gives 404 `Not found` with nothing changed and no event; a stored code gets one more click and `last_clicked_at = now`, with every other row, the order and the counter kept; one `click_updated {code}` event is appended; the reply is a 302 to the stored `target_url` |
| Builtins.Filter | frontend/src/components/LinksTable.jsx:40 | `filter` returns only elements that pass the test, keeps every element value that passes, and is no longer than its input; the counts of each element are `Builtins.FilterCounts` |
| Builtins.FilterCounts | frontend/src/components/LinksTable.jsx:40 | every occurrence of a passing element is kept and every occurrence of a failing one is dropped, so filtering is exact on counts, not only on membership |
| Builtins.FilterIsSubsequence | frontend/src/components/LinksTable.jsx:40 | a filtered array is an order-preserving subsequence of the original |
| Builtins.FilterPairwise | backend/src/routes/links.js:172-175 | a filtered sequence keeps any order relation that held between its elements |
| Builtins.FilterKeepsAll | frontend/src/components/LinksTable.jsx:40 | a test every element passes keeps the whole array |
| Builtins.FilterCongruent | frontend/src/components/LinksTable.jsx:40 | two tests that agree on every element filter identically |
| Builtins.Includes | frontend/src/components/LinksTable.jsx:43-44 | `s.includes(t)` implies `t` is no longer than `s`; its exact meaning is `Builtins.IncludesIff` |
| Builtins.IncludesIff | frontend/src/components/LinksTable.jsx:43-44 | `s.includes(t)` iff `t` occurs in `s` at some position |
| Builtins.IncludesEmpty | frontend/src/components/LinksTable.jsx:41-44 | every string includes the empty string |
| Builtins.Lower | frontend/src/components/LinksTable.jsx:41-44 | lowering keeps the length and lowers each ASCII letter in place |
| Builtins.LowerCaseVariants | frontend/src/components/LinksTable.jsx:41-44 | two strings lower to the same value iff they differ only in letter case; lowering is idempotent |
| LinksTable.Filtered | frontend/src/components/LinksTable.jsx:40-46 | a null list gives no links; otherwise a link is kept iff it is listed and passes the lowered-substring test, and nothing is added |
| LinksTable.Panels | frontend/src/components/LinksTable.jsx:93-113 | the spinner shows iff loading with no error, and the table iff not loading, no error and some link passes the filter; see `LinksTable.PanelsExclusive` |
| Builtins.OrElse | backend/src/routes/links.js:88 | `a \|\| b` on strings gives one of the two, `a` whenever it is non-empty, and a non-empty result iff either is non-empty |
| LinksTable.FilteredKeepsIff | frontend/src/components/LinksTable.jsx:40-46 | a link is shown iff it is listed and the lowered filter occurs in its lowered code or its lowered target URL |
| LinksTable.FilteredIsSubsequence | frontend/src/components/LinksTable.jsx:40 | the shown links keep the list's order; a null list shows nothing |
| LinksTable.EmptyFilterKeepsAll | frontend/src/components/LinksTable.jsx:41 | a null or empty filter shows every link |
| LinksTable.FilterIgnoresCase | frontend/src/components/LinksTable.jsx:41-44 | filters that differ only in letter case show the same links |
| LinksTable.PanelsExclusive | frontend/src/components/LinksTable.jsx:93-113 | the empty state shows iff nothing is loading, there is no error and no link passes the filter; at most one part renders |
| Dashboard.Prepended | frontend/src/pages/Dashboard.jsx:46 | `[newLink, ...prev]`: the new link first, then the old list as it was |
| Dashboard.WithoutCode | frontend/src/pages/Dashboard.jsx:51 | the links kept are exactly the old ones with another code, and no more than before |
| Dashboard.PrependedSpec | frontend/src/pages/Dashboard.jsx:45-47 | after a create the new link is first and the old list follows unchanged |
| Dashboard.WithoutCodeSpec | frontend/src/pages/Dashboard.jsx:51 | after a delete no link has the code, every other link remains as often as before, and the order is kept |
| Dashboard.DashboardState.constructor | frontend/src/pages/Dashboard.jsx:11-14 | the list starts empty, not loading, with no error and an empty filter |
| Dashboard.DashboardState.LoadLinks | frontend/src/pages/Dashboard.jsx:17-30 | a successful fetch replaces the list and clears the error; a failure keeps the list and sets the message or `Failed to load links`; loading ends false |
| Dashboard.DashboardState.HandleCreated | frontend/src/pages/Dashboard.jsx:45-47 | the new link is prepended to the list |
| Dashboard.DashboardState.HandleDelete | frontend/src/pages/Dashboard.jsx:49-52 | the code's links are removed only after the delete succeeds; when it throws, the list is unchanged and the error propagates |
| LinkForm.FormErrors | frontend/src/components/LinkForm.jsx:23-34 | the URL error is present iff the URL is empty or invalid, and a code error always carries the code message; see `LinkForm.FormErrorRules` |
| LinkForm.PayloadOf | frontend/src/components/LinkForm.jsx:45 | `code: code \|\| undefined`: the URL as typed, no code for an empty code field, the typed code otherwise |
| LinkForm.FormErrorRules | frontend/src/components/LinkForm.jsx:23-36 | an empty URL gets `URL is required`; an invalid one gets the http(s) message; a code error appears iff a non-empty code is malformed; validation passes iff no error is set |
| LinkForm.FormAgreesWithServer | frontend/src/components/LinkForm.jsx:39-45 | the form submits exactly the requests for which the server's own checks do not answer 400 |
| LinkForm.LinkFormState.constructor | frontend/src/components/LinkForm.jsx:17-20 | the form starts with empty fields, no errors and not submitting |
| LinkForm.LinkFormState.Validate | frontend/src/components/LinkForm.jsx:23-37 | stores the error map, and reports success iff it is empty |
| LinkForm.LinkFormState.HandleSubmit | frontend/src/components/LinkForm.jsx:39-56 | nothing is sent when validation fails; otherwise `{ url, code: code \|\| undefined }` is sent; success clears url, code and errors and passes the link on; failure keeps the fields; submitting ends false |
| StatsPage.MatchStatsPath | frontend/src/pages/StatsPage.jsx:35 | a captured code is the whole rest of the path after `/code/`; its exact rule is `StatsPage.MatchStatsPathIff` |
| StatsPage.ShouldReload | frontend/src/pages/StatsPage.jsx:64 | reload iff a code is known and equals the event's code |
| StatsPage.MatchStatsPathIff | frontend/src/pages/StatsPage.jsx:35-36 | the path yields code `c` iff it is exactly `/code/` followed by `c` and `c` is a valid code |
| StatsPage.RejectedStatsPaths | frontend/src/pages/StatsPage.jsx:35-37 | a trailing slash, a further segment or a 9-character code gives no match |
| StatsPage.ReloadsForOwnPath | frontend/src/pages/StatsPage.jsx:63-65 | a page opened at a path reloads on an event iff the event's code is the code in that path |
| StatsPage.StatsPageState.constructor | frontend/src/pages/StatsPage.jsx:26-29 | no code, no link, not loading, no error |
| StatsPage.StatsPageState.ReadLocation | frontend/src/pages/StatsPage.jsx:34-38 | a matching path sets the code to the captured group; any other path sets `Invalid stats URL` and leaves the code null |
| StatsPage.StatsPageState.LoadStats | frontend/src/pages/StatsPage.jsx:41-55 | no load while the code is null; a success stores the link and leaves the error; a failure sets the message or `Failed to load stats`; loading ends false |
| StatsPage.StatsPageState.OnClickUpdated | frontend/src/pages/StatsPage.jsx:58-68 | reloads iff a code is known and the event's code equals it; otherwise nothing changes |
| Scenarios.CreateVisitGet | backend/src/routes/redirect.js:42-52 | with `BASE_URL` and `PORT` unset, a created generated-code link answers 201 with a valid 6-character code, 0 clicks and short URL `http://localhost:4000/<code>`; a visit redirects to its URL; its stats then show 1 click at the visit time |
| Scenarios.DuplicateCustomCode | backend/src/routes/links.js:64-72 | a second create with the same custom code answers 409 and the first row's URL stays |
| Scenarios.DeleteFreesCode | backend/src/routes/links.js:168-188 | after a delete, get answers 404 and the same code can be created again |

## Left out

- Database and server plumbing are not part of this model. That covers the connection pool and the Express and Socket.IO wiring in `backend/src/db.js` and `backend/src/index.js`, and the health route. The table is an in-memory map, and each handler runs atomically, one at a time.
- Concurrency is not modelled. The source checks a code with a SELECT and inserts it later, and its redirect does a SELECT and then an UPDATE. Two requests can interleave between those steps, so the source offers no race-freedom, and the model claims none. The backend code never creates the `links` table, so no unique constraint on `code` appears in it. A bounded retry behind an atomic insert would close the race on codes; the source has neither, and the model follows the source.
- Database failures are not modelled: every handler's `catch` that answers 500 is left out. The one 500 the model produces is the exhausted code supply described below.
- Registry.LinkStore.GenerateUniqueCode: the source loops until it finds a free code. The model draws candidates from a finite stream of random values and returns none when the stream runs out. `Create` then answers with the 500 body the source uses for internal errors, although the source itself never answers there but keeps looping. Probability is not modelled.
- Randomness is not modelled: `Math.random()` is any given value in [0, 1), and `Math.random` itself is a parameter.
- Values as the database assigns them are not modelled exactly:
  - `id` and `created_at` both come from one store counter. Creation order is therefore strict, which is stronger than `NOW()` ordering.
  - The backend code never creates the `links` table, so the initial `total_clicks` 0 and `last_clicked_at` null, which the model gives a new row, are column defaults that appear nowhere in the code.
  - `NOW()` at a visit is the `now` parameter.
- Socket.IO delivery is not modelled; an emitted event is an append to the store's event log. The `socket.on`/`off` subscriptions in the dashboard and the stats page appear only as the reload methods.
- URL parsing is abstract. `new URL(...)` is the basic URL parser of the WHATWG URL Standard, section 4.4 ("URL parsing"). It is a function returning the scheme or nothing, and only the http/https decision is modelled.
- Builtins.Lower: `toLowerCase` is modelled for ASCII letters only; full Unicode case mapping is not modelled.
- `timeAgo` in the links table and the stats page is not modelled. It depends on the wall clock, floating-point division and locale formatting.
- Dashboard.DashboardState.LoadLinks: the intermediate `loading = true` state is not observable in the model, since the fetch is a parameter. The same holds for StatsPage.StatsPageState.LoadStats and LinkForm.LinkFormState.HandleSubmit.
- Notifications, the delete confirmation dialog and the copy buttons are not modelled; they are UI feedback only.
- `frontend/src/api.js` is not part of this model. Each API call is a parameter carrying the call's result, or the message it threw with.
- The frontend's own `isValidUrl` and `CODE_REGEX` in `LinkForm.jsx`, and the redirect handler's `CODE_REGEX`, are textually the same rules as `validate.js`. The model reuses `Validate.IsValidUrl` and `Validate.IsValidCode` for them.
- Request bodies are modelled as JSON objects whose `url` and `code` fields are strings or absent. `express.json()` accepts any JSON value there. `CODE_REGEX.test` and `new URL` convert a non-string value to a string first, so a body such as `"code": 12345678` passes the checks in `links.js`, and the raw value is passed on to the INSERT. How the database driver stores such a value is outside the repository. Non-string fields are not modelled, and `Registry.LinkStore.Valid()` (every stored code and URL is valid) is claimed for string fields only.
- The handlers read `BASE_URL` and `PORT` from the environment on every request. The model reads them once, when the store is created (`Registry.LinkStore.constructor`), so the environment is taken to stay fixed while the server runs.
