# Simple Recipe App — a Dafny model

The application has two halves:

- **Server** (`server/index.js`): an Express server with a DuckDB file.
  - It proxies two calls to TheMealDB: text search and random pick.
  - `mapMeal` normalises each upstream meal to `{id, title, thumb, source}`.
  - It keeps a `favorites` table with list, upsert, title update and delete handlers.
- **Page** (`client/src/App.jsx`): a React page. It shows search results, the random pick and the favorites. It saves, renames and removes favorites through the server.

This project models the logic of both halves:

- `js_values.dfy` (`JsValues`): the JavaScript values the program handles. It models truthiness, `||` and `??`, `?.` versus `.` property access (the latter throws on null/undefined), and `String.prototype.trim` with the ECMA-262 whitespace set.
- `http.dfy` (`Http`): a handler's reply. It is 200 with a JSON body, or 400 or 500 with an `{error}` message.
- `catalog.dfy` (`Catalog`): `mapMeal` and the search and random handlers. The upstream exchange (`fetch` plus `r.json()`) is I/O. Each handler takes its outcome as a parameter: a parsed body, a network failure or an invalid-JSON failure.
- `favorites.dfy` (`Favorites`): the favorites table as a map from primary key to row, and a `Store` class owning that table and a clock.
  - The clock stands for `CURRENT_TIMESTAMP`.
  - Its methods are the four CRUD handlers. `List` builds the `ORDER BY saved_at DESC` answer by repeatedly taking the newest unlisted row.
  - Whether the storage engine fails is a boolean parameter of each handler.
  - Lemmas cover the listing: its length, its head, its uniqueness when timestamps differ, and the position of re-saved and renamed favorites.
- `client.dfy` (`Client`): the pure parts of the page:
  - the `save` payload;
  - the display fallbacks of `RecipeCard` and of the favorites list;
  - the guards applied to server responses;
  - when the Search and Random buttons are enabled;
  - the edit guard.
- `interplay.dfy` (`Interplay`): what one half does with what the other sends. For example, a normalised meal with a non-empty string id and name is accepted by the server once the page saves it. Likewise, the client's blank-query and empty-title guards agree with the server's answers.

The server never reads the upstream HTTP status. A non-success reply with a JSON body is handled like a success, and the model does the same. A search or random pick fails with a 500 when the request itself fails, when the body is not JSON or is `null` (reading `j.meals` then throws), or, for a search, when `q` is present but not a string (a missing `q` becomes "" and is answered `[]`): a repeated `q` parameter arrives as an array, which has no `trim`.

A null element in an upstream `meals` array is a failure too: `mapMeal` reads `m.idMeal` without `?.`, so such an element turns a search into a 500.

## Model

| member | source | states |
|---|---|---|
| JsValues.Get | index.js:47 | `v.key` throws exactly when `v` is null or undefined; otherwise it is the own property or undefined |
| JsValues.OrCoalesceDiffer | App.jsx:52-55 | `a \|\| b` and `a ?? b` differ exactly when `a` is present but falsy ("", 0, false) and `b` is another value |
| JsValues.TrimStart | index.js:43 | the result is a suffix of the input, what was cut is whitespace, and it starts with a non-whitespace character |
| JsValues.TrimEnd | index.js:43 | the result is a prefix of the input, what was cut is whitespace, and it ends with a non-whitespace character |
| JsValues.Trim | index.js:43 | `trim()` gives "" exactly for an all-whitespace string; otherwise both ends are non-whitespace |
| JsValues.TrimIsSlice | index.js:43 | `trim()` is the slice between the leading and the trailing whitespace of the input |
| JsValues.TrimIdempotent | index.js:43 | a property of `trim()` alone: trimming twice equals trimming once |
| Catalog.FirstTruthy | index.js:35-36 | `a \|\| b \|\| d` is the first truthy operand, else the default |
| Catalog.MapMeal | index.js:31-38 | a null/undefined meal throws; `id`/`title` are copied as they are; `thumb` and `source` are the first truthy alias or "", so they are always truthy or exactly "" |
| Catalog.MapMeals | index.js:47 | `meals.map(mapMeal)` succeeds exactly when no element is null/undefined, keeps the length, and maps each element in place |
| Catalog.QueryText | index.js:43 | `(q \|\| "").trim()` throws exactly for a truthy non-string; a string query gives its trimmed text and a falsy one gives ""; the text is empty exactly for a missing, empty or all-whitespace query |
| Catalog.Search | index.js:41-53 | a blank query is answered `[]` without an upstream call; otherwise the trimmed text is sent; 500 "search failed" exactly on a `q` that is present but not a string, a failed exchange, a null body or a null meal; otherwise the normalised `meals` in order, or `[]` when `meals` is not an array; never 400 |
| Catalog.SearchReply | index.js:45-48 | the reply to a non-blank query: 500 "search failed" exactly on a failed exchange, a null body or a null meal; otherwise the normalised `meals` in order, or `[]` when `meals` is not an array; never 400 |
| Catalog.BlankQueryShortCircuits | index.js:43-44 | a missing, null or whitespace-only query gives `[]` and no upstream call, whatever the upstream would say |
| Catalog.Random | index.js:55-65 | 200 exactly when the exchange succeeded with a non-null body; the pick is present exactly when `meals` is an array with a truthy first element, and is that element normalised; otherwise `null`; errors are 500 "random failed" |
| Favorites.PostRequest | index.js:77-89 | 400 "id and title required" exactly when `id` or `title` is falsy (a missing body counts as `{}`); an accepted request has non-empty string id and title; `thumb`/`source` default to "" only when absent (null is stored as NULL); values that cannot be bound give 500 "save failed"; a request is accepted exactly when `id` and `title` are non-empty strings and `thumb`/`source` (after the defaults) are strings or null |
| Favorites.PutRequest | index.js:101-105 | 400 "title required" exactly when `title` is falsy; accepted exactly for a non-empty string title, which is the one bound |
| Favorites.Upserted | index.js:80-87 | after the upsert the keys are the old keys plus `id`; that row has the new title, thumb and source; its `saved_at` is kept if the id existed, else it is now; every other row is unchanged |
| Favorites.Renamed | index.js:104 | only the title of row `id` changes; keys are kept; an absent id changes nothing |
| Favorites.Deleted | index.js:117 | exactly row `id` is removed; the other rows are unchanged; an absent id changes nothing |
| Favorites.Store.Open | index.js:20-28 | opening keeps the existing rows and establishes the store invariant (no empty id or title, no row from the future) |
| Favorites.Store.Tick | index.js:26 | time advances, rows are untouched and the invariant is kept |
| Favorites.Store.Upsert | index.js:76-97 | a rejected body is answered with its 400/500 and changes nothing; a storage failure gives 500 "save failed" and changes nothing; otherwise `{ok: true}` and the table becomes `Upserted` at the current clock; the invariant is kept |
| Favorites.Store.UpdateTitle | index.js:100-113 | a rejected body or a storage failure ("update failed") changes nothing; otherwise `{ok: true}` and the table becomes `Renamed`, also for an absent id; the invariant is kept |
| Favorites.Store.Delete | index.js:116-123 | a storage failure gives 500 "delete failed" and changes nothing; otherwise `{ok: true}` and the table becomes `Deleted`, also for an absent id |
| Favorites.Store.Newest | index.js:69 | returns an id among the given ones whose `saved_at` is the latest |
| Favorites.Store.List | index.js:68-73 | 500 "read failed" exactly on a storage failure; otherwise every row exactly once, as stored, with `saved_at` never increasing |
| Favorites.SaveTwiceLatestWins | index.js:83-86 | two saves of one id equal a single save of the second payload at the first save's time |
| Favorites.SaveAfterTickListedFirst | index.js:76-97 | on a valid store, a first-time save made after time has passed is listed first, with its fields and the current time |
| Favorites.ListingLength | index.js:69 | a listing has as many entries as the table has rows |
| Favorites.ListingHeadIsNewest | index.js:69 | the first listed favorite is at least as new as every row |
| Favorites.ListingTail | index.js:69 | without its first entry, a listing lists the rest of the table |
| Favorites.ListingUnique | index.js:69 | when no two rows share a `saved_at`, there is exactly one listing |
| Favorites.NewSaveListedFirst | index.js:80-87 | a first-time save made after every existing row is listed first, with the saved fields and the current time |
| Favorites.EditKeepsOrder | index.js:69 | a change that keeps ids and `saved_at` keeps the listing order; each entry shows its new row |
| Favorites.ResaveKeepsPosition | index.js:83-86 | re-saving an existing id does not move it in the listing, because `saved_at` is not refreshed |
| Favorites.RenameKeepsPosition | index.js:104 | renaming does not move a favorite in the listing |
| Favorites.SingleRowListing | index.js:69 | a one-row table has exactly one listing, that row |
| Client.FirstDefined | App.jsx:52-55 | `a ?? b ?? d` is the first operand that is neither null nor undefined, else the default |
| Client.FirstDefinedIgnoresDefault | App.jsx:186 | when some alias is present the default plays no part, and the result is present |
| Client.Coalesce2 | App.jsx:52 | the two-alias `??` chain, grouped left to right, equals `FirstDefined` |
| Client.Coalesce3 | App.jsx:53 | the three-alias `??` chain, grouped left to right, equals `FirstDefined` |
| Client.SavePayload | App.jsx:51-56 | a null item throws; each field is the first present alias (`id`/`idMeal`, `title`/`name`/`strMeal`, `thumb`/`image`/`strMealThumb`, `source`/`link`) or "", so all four are present |
| Client.CardDisplay | App.jsx:186-188 | a card shows the same alias chains, with "(no title)" for a missing title |
| Client.FavoriteDisplay | App.jsx:138-140 | a null favorite throws; otherwise it is displayed by the same chains as a card |
| Client.DisplayAgreesWithPayload | App.jsx:186-188 | a card shows the thumb and link that saving it posts, and the title it posts, unless every title alias is missing ("(no title)" shown, "" posted) |
| Client.ArrayOrEmpty | App.jsx:16 | an array response is kept as it is; anything else becomes `[]` |
| Client.TruthyOrNull | App.jsx:30 | `data \|\| null` keeps a truthy response unchanged and turns every falsy one into null |
| Client.SearchEnabled | App.jsx:110 | Search is enabled exactly when nothing is loading and the query has a non-whitespace character |
| Client.RandomEnabled | App.jsx:113 | Random is enabled exactly when nothing is loading, so whenever Search is |
| Client.EditTitle | App.jsx:161-162 | an edit is sent exactly for a non-empty answer, and carries that answer |
| Interplay.RecipeJsonFields | index.js:48 | a serialised recipe gives back its four fields and nothing else |
| Interplay.SaveOfRecipe | App.jsx:51-56 | saving a received recipe posts its own four fields, with "" for a missing one |
| Interplay.SaveOfNormalisedMeal | App.jsx:51-56 | saving a normalised meal posts its `idMeal`/`strMeal` (or "") and exactly the thumb and source `mapMeal` chose |
| Interplay.NormalisedMealIsAccepted | index.js:77-89 | a meal with non-empty string id and name, and string-or-missing link fields, is accepted under that id and title with non-NULL thumb and source |
| Interplay.StringPayloadAccepted | index.js:77-89 | four strings with non-empty id and title are bound as sent |
| Interplay.EmptyIdIsKeptAndRefused | App.jsx:52 | an empty-string `id` is posted as it is (not replaced by `idMeal`), and the server refuses it with 400 |
| Interplay.EditSentIffAccepted | App.jsx:161-163 | the page sends an edit exactly when the server would accept its title |
| Interplay.SearchButtonMatchesServer | App.jsx:110 | with Search enabled, the server sends the trimmed query upstream; with it disabled and nothing loading, the server would answer `[]` without an upstream call |
| Interplay.RandomPickKept | App.jsx:30 | the page keeps the random pick the server sent, recipe or null |
| Interplay.SearchResultsKept | App.jsx:16 | a non-blank search whose upstream body has no null meal succeeds, and the page then holds the upstream meals normalised, in upstream order, or nothing when `meals` is not an array |
| Interplay.ListedFavoritesKept | App.jsx:43 | after a successful listing the page holds one entry per stored row, in the newest-first order the server sent |
| Interplay.StoredFavoriteDisplay | App.jsx:138-140 | a stored favorite shows its own title, never "(no title)"; a NULL thumb or source shows as "" |

## Left out

- HTTP transport, routing, the JSON body parser and server start-up (index.js:8-9, 126-129). Each handler is a function or method of its inputs.
- The data directory and database file creation (index.js:12-17): file-system I/O.
- The upstream `fetch` and `r.json()`: I/O. Their outcome is a parameter (parsed body, network failure, invalid JSON).
- `encodeURIComponent`: the query text sent upstream is modelled before URL encoding.
- The upstream HTTP status is not modelled, because the server never reads it.
- DuckDB internals: statement preparation, storage I/O (a boolean "storage fails" parameter), and the particular cause of a failure. A failed statement is assumed to change nothing.
- `CURRENT_TIMESTAMP`: modelled as the store's integer clock, advanced by `Store.Tick`. Timestamp precision and serialisation are not modelled; `saved_at` is sent as a number.
- Favorites.BindText: only strings and null are bound. DuckDB's implicit casts of numbers, booleans, arrays and objects to TEXT are modelled as a failed statement (500).
- Favorites.PostRequest: a non-string truthy `id`, `title`, `thumb` or `source` gives 500 "save failed", not the cast DuckDB may perform (see BindText).
- Favorites.PutRequest: a non-string truthy `title` gives 500 "update failed", not the cast DuckDB may perform (see BindText).
- JavaScript numbers are integers. Floating point, NaN and -0 are not modelled; `0` is the only falsy number.
- Property access reads own properties only; inherited properties (the prototype chain) are not modelled.
- JSON serialisation is modelled only as dropping keys whose value is undefined.
- React state, rendering, effects, `alert` and `prompt` (the prompt's answer is a parameter), and styles: UI and I/O. The client's `!r.ok` checks only raise alerts.
- Asynchronous ordering, overlapping requests and concurrent clients: concurrency.
- Console logging.
- The page builds `/api/favorites/${id}` without URL encoding, so an id containing `/`, `?` or `#` reaches a different route. Routing is not modelled, and the store methods take the id as the server decodes it.
- `Favorites.Store.List` orders rows with equal `saved_at` in some order it picks. DuckDB's own tie order is not modelled, and `IsListing` allows any tie order.
