# Single-movie scrape route, modelled in Dafny

This project models the single-movie scrape-and-save route of a movie
catalogue back end (`app/api/movie/route.js`). The route takes a URL, refuses
it when the movie is already stored, scrapes the movie page into a record,
and saves the record together with its categories and tags. It has three
parts:

- **Extraction** (`scrapeMovieData`), module `Scrape` in `scrape.dfy`. A fetched
  page is represented by what the route's CSS selectors read from it: the
  datatype `Page`. It holds an optional canonical `href`, the texts and
  attributes of the scalar fields, the iframes with their optional
  `data-src`/`src`, the "Quality Links" headings with the `href`s of the
  anchors that follow them, and the genre and tag texts. `Extract` turns that
  into a `MovieData` record, or into `None`, which stands for the route's
  `null`. The loops of the source are the methods `CollectVideoUrls`,
  `CollectDownloadUrls` and `CollectTexts`, and `ScrapeMovieData` is the whole
  function. Each is proved equal to its specification function.
- **Persistence** (`saveMovieData`), module `Catalog` in `catalog.dfy`. The
  store is a map from slug to movie row plus two name tables, one for
  categories and one for tags. Each table maps a unique name to a row id.
  `Save` is the specification. The classes `NameTable` and `CatalogStore`
  change that state step by step, and their methods are proved to produce
  what `Save` describes.
- **The `POST` handler**, module `MovieRoute` in `route.dfy`. `Post` is the
  decision flow as a function of the store, the request body, the fetched
  page and the clock reading. `HandlePost` runs it against a `CatalogStore`.

The JavaScript operations the route relies on are written out in module
`Strings` (`strings.dfy`), following their JavaScript meaning:

- `split` with a one-character separator keeps empty pieces, and
  `"".split("/")` is `[""]`;
- `slice(-2, -1)[0]` is `undefined` when there are fewer than two pieces;
- `trim` removes exactly ECMAScript's WhiteSpace and LineTerminator characters;
- `parseInt` of an empty string is `NaN`, modelled as `None`;
- `a || b` falls through on `undefined` and on `""`;
- a missing token renders as `"undefined"` inside a template literal.

The network fetch and the clock are inputs. The outcome of `axios.get(url)`
is passed in as `Option<Page>`, with `None` standing for a fetch that throws.
The value of `new Date().toISOString()` is passed in as the string `now`.

Points where the model had to choose:

- `POST` looks up the slug derived from the request URL (line 18). The record
  is saved under the slug derived from the page's canonical link (lines
  68-71). The two can differ. The model keeps them apart, as the code does.
  `PostTwice` shows the effect.
  Posting the same URL again after a success returns 400 when the two slugs
  agree, whatever the second fetch returns. When they differ and the page is
  served unchanged, it returns the duplicate-slug 500 instead. Neither
  changes the store. (If the page's canonical link has changed in between,
  the second request saves a second movie.)
- When the request URL has no `/`, its derived slug is `undefined`. The model
  takes `findUnique({ where: { slug: undefined } })` to throw, since a unique
  lookup needs a unique field. The handler's catch then answers 500; this is
  `LibraryError(SlugLookup)`.
- When the canonical `href` has no `/`, the record's slug is `undefined`. The
  model takes `create` to reject a row without its required unique slug. This
  is `CreateRejected`, again a 500.
- The category and tag upserts finish before the movie `create` runs. So when
  `create` fails, for a duplicate slug or for any other reason, the new
  category and tag rows stay. `Save` models this.
- Row ids come from a counter per table. This stands for id generation in
  the store: an existing row keeps its id and a new row gets an id no other
  row had.

## Model

| member | source | states |
|---|---|---|
| `Strings.JoinSplit` | app/api/movie/route.js:68-71 | joining the pieces of `split` with the separator gives back the original string |
| `Strings.SplitJoin` | app/api/movie/route.js:98-99 | splitting a join of separator-free words gives back exactly those words |
| `Strings.SplitPiecesFree` | app/api/movie/route.js:68-71 | no piece produced by `split` contains the separator |
| `Strings.TrimSpec` | app/api/movie/route.js:73-76 | `trim` leaves no white space at either end, and what it removes at both ends is white space |
| `Strings.TrimUnpadded` | app/api/movie/route.js:98 | `trim` leaves a string with no edge white space unchanged |
| `Strings.ParseDigits` | app/api/movie/route.js:83-87 | `parseInt` of a digit string is `NaN` exactly when the string is empty |
| `Strings.DecimalValueShowNat` | app/api/movie/route.js:83-87 | reading the decimal rendering of a number gives the number back |
| `Strings.DigitsOnlyAppend` | app/api/movie/route.js:86 | removing the non-digits distributes over concatenation, so the digits keep their order |
| `Scrape.SlugOfShape` | app/api/movie/route.js:68-71 | for `prefix + slug + "/" + last`, where `prefix` is empty or ends in `/` and neither `slug` nor `last` has a `/`, the slug is `slug` |
| `Scrape.SlugOfNone` | app/api/movie/route.js:68-71 | the slug is `undefined` exactly when the href has no `/` |
| `Scrape.SlugOfNoSlash` | app/api/movie/route.js:68-71 | a derived slug never contains `/` |
| `Scrape.SlugOfTrailingSlash` | app/api/movie/route.js:18 | the slug of `https://h/cat/slug/` is `slug` |
| `Scrape.ViewsNaN` | app/api/movie/route.js:83-87 | the view count is `NaN` exactly when the text has no digit |
| `Scrape.ViewsIgnoreNonDigit` | app/api/movie/route.js:83-87 | inserting a non-digit anywhere in the text does not change the view count |
| `Scrape.ViewsOfNumber` | app/api/movie/route.js:83-87 | the decimal rendering of `n`, surrounded by non-digit text, gives the view count `n` |
| `Scrape.ViewsWithSeparator` | app/api/movie/route.js:83-87 | `"1,234 views"` gives 1234 |
| `Scrape.VideoUrlsSpec` | app/api/movie/route.js:90-93 | there is one entry per iframe, in document order; each entry is `data-src` when that is truthy, else `src` |
| `Scrape.CollectVideoUrls` | app/api/movie/route.js:90-93 | the `.each`/`push` loop builds exactly the specified video URL list |
| `Scrape.HeadingKeyWords` | app/api/movie/route.js:97-99 | for a trimmed heading of four or more words, the key is word 3, then `_`, then word 1 |
| `Scrape.HeadingKeyNoProvider` | app/api/movie/route.js:97-107 | for a heading of two or three words, the key is `undefined_` followed by word 1 |
| `Scrape.AssignKeys` | app/api/movie/route.js:107 | a sequence of `obj[key] = value` assignments leaves exactly the assigned keys |
| `Scrape.AssignLastWins` | app/api/movie/route.js:107 | a key holds the value of its last assignment |
| `Scrape.DownloadUrlsKeys` | app/api/movie/route.js:96-108 | every heading's key is in `download_urls`, and every key comes from some heading |
| `Scrape.DownloadUrlsLastWins` | app/api/movie/route.js:96-108 | a key holds the link list of the last heading with that key |
| `Scrape.DownloadUrlsSameKey` | app/api/movie/route.js:96-108 | for two headings with the same key, only the second one's links remain |
| `Scrape.CollectDownloadUrls` | app/api/movie/route.js:96-108 | the nested loops build exactly the specified dictionary |
| `Scrape.TrimAllSpec` | app/api/movie/route.js:110-120 | the genre and tag lists have one trimmed text per element, in document order |
| `Scrape.CollectTexts` | app/api/movie/route.js:110-120 | the `.each`/`push` loops build exactly the specified trimmed list |
| `Scrape.Extract` | app/api/movie/route.js:61-147 | extraction gives `null` exactly when the fetch failed or the canonical `href` is missing; `director` and `duration` are always `"N/A"` |
| `Scrape.ExtractFields` | app/api/movie/route.js:66-141 | in a successful record, the slug comes from the canonical `href`; `modified_date` is the meta content when truthy, else `now`; `views` is `NaN` iff there are no digits; the video list, the download keys and the genre and tag lists are as specified |
| `Scrape.ScrapeMovieData` | app/api/movie/route.js:61-147 | the imperative extraction returns exactly `Extract`'s result |
| `Catalog.GetOrCreateAllKeys` | app/api/movie/route.js:152-171 | after the upserts, the table's names are the old names plus the listed names |
| `Catalog.GetOrCreateAllKeeps` | app/api/movie/route.js:156 | existing rows keep their ids (`update: {}`), and new rows get ids not handed out before |
| `Catalog.GetOrCreateAllIds` | app/api/movie/route.js:152-171 | the i-th resolved id is the id of the i-th name's row |
| `Catalog.GetOrCreateAllValid` | app/api/movie/route.js:152-171 | the upserts keep ids unique and below the counter |
| `Catalog.GetOrCreateAllExisting` | app/api/movie/route.js:154-158 | upserting names that all exist changes nothing |
| `Catalog.SaveNames` | app/api/movie/route.js:150-171 | whatever the outcome, every genre and tag name has a row, existing rows are unchanged, and no other name is added |
| `Catalog.SaveOutcome` | app/api/movie/route.js:174-203 | `create` succeeds exactly when the record's slug is present and new; a taken slug gives the duplicate error with the title; a failure leaves the movies unchanged |
| `Catalog.SaveAdds` | app/api/movie/route.js:174-195 | a successful save adds exactly one movie, under its slug and with the record's fields, and leaves every other movie as it was |
| `Catalog.SaveConnects` | app/api/movie/route.js:188-193 | the new movie is connected to a category or tag row exactly when that row's name is among the record's genres or tags |
| `Catalog.ConnectedExactly` | app/api/movie/route.js:188-193 | in a table with unique ids, the ids of a name list identify exactly those names |
| `Catalog.SavePreservesValid` | app/api/movie/route.js:150-195 | saving keeps the tables consistent, keeps movies filed under their own slugs, and keeps every connection pointing at an existing row |
| `Catalog.SaveDuplicateUnchanged` | app/api/movie/route.js:198-200 | saving a record whose names all exist and whose slug is taken changes nothing and reports the duplicate |
| `Catalog.NameTable.Upsert` | app/api/movie/route.js:154-158 | one upsert returns the existing row's id unchanged, or creates a row with a fresh id |
| `Catalog.UpsertAll` | app/api/movie/route.js:152-171 | the upserts over a name list produce the table and ids that `GetOrCreateAll` specifies |
| `Catalog.CatalogStore.IsStored` | app/api/movie/route.js:17-19 | `findUnique` by slug finds a row exactly when the slug is stored |
| `Catalog.CatalogStore.SaveMovieData` | app/api/movie/route.js:150-205 | the stateful save keeps the store valid and produces the state and result that `Save` specifies |
| `MovieRoute.PostStatus` | app/api/movie/route.js:9-50 | the status is always 201, 400 or 500, and it is 201 exactly when the reply is a message |
| `MovieRoute.PostMissingUrl` | app/api/movie/route.js:13-15 | a missing or empty URL gets 400 "URL is required" and leaves the store unchanged |
| `MovieRoute.PostAlreadyScraped` | app/api/movie/route.js:17-26 | a URL whose slug is stored gets 400 "Movie already scraped" and leaves the store unchanged |
| `MovieRoute.PostScrapeFailed` | app/api/movie/route.js:29-36 | a failed extraction gets 500 "Failed to scrape data" and leaves the store unchanged |
| `MovieRoute.PostCreated` | app/api/movie/route.js:38-45 | the answer is 201 exactly when the URL's slug and the record's slug are both new and extraction succeeded; the store then holds the record's slug and one movie more |
| `MovieRoute.PostChangesOnlyAfterExtraction` | app/api/movie/route.js:9-50 | the store changes only when the URL checks pass and extraction yields a record |
| `MovieRoute.PostOnlyAdds` | app/api/movie/route.js:9-50 | a stored movie is never changed or removed, and at most one is added |
| `MovieRoute.PostPreservesValid` | app/api/movie/route.js:9-50 | the handler keeps the store valid |
| `MovieRoute.PostTwice` | app/api/movie/route.js:17-45 | re-posting a URL that was just saved, with the page served unchanged, leaves the store unchanged: 400 when the URL's slug equals the canonical slug, the duplicate-slug 500 otherwise |
| `MovieRoute.PostAgainSameSlug` | app/api/movie/route.js:17-26 | after a success whose URL slug equals the canonical slug, the same URL gets 400 "Movie already scraped" with the store unchanged, whatever the page and clock are the second time |
| `MovieRoute.HandlePost` | app/api/movie/route.js:9-50 | the stateful handler keeps the store valid and gives the response and new state that `Post` specifies |

## Left out

- The HTTP fetch (`axios.get`) is network I/O. Its outcome is an input of type `Option<Page>`; a non-2xx status, a timeout and a DNS failure are all the same `None`.
- HTML parsing and CSS selector matching (cheerio) are a foreign library. The model starts from what the selectors return (`Page`), so it does not capture which elements `:contains`, `:first-child` or `.next().find("a")` pick.
- The clock (`new Date().toISOString()`) is the parameter `now`.
- Prisma internals (transactions, unique constraints, P2002 codes, connection failures) are abstracted as maps with explicit duplicate checks. The store's own error messages become `LibraryError`. A database failure other than the ones named above is not modelled.
- The `Promise.all` fan-out of the upserts is modelled as sequential upserts in list order. Concurrent upserts of the same name racing each other (which could raise a unique-constraint error reported as "Duplicate slug found") are not modelled.
- `Scrape.DownloadUrls`: a JavaScript object keeps its keys in insertion order. The model is an unordered `map`, so key order is not captured. A key equal to `__proto__` would set the object's prototype rather than add an entry; that is not modelled either.
- `Strings.DecimalValue`: `parseInt` of more than about 15 digits loses precision, and one of more than about 309 digits gives `Infinity`, because JavaScript numbers are doubles. The model's view count is an unbounded `nat`.
- Schema validation of the movie row is left out, beyond the required slug. In particular, a `NaN` view count is stored as `None`; what the database does with it is not modelled.
- A request whose `url` is truthy but not a string, such as a number, makes `url.split` throw and gets 500. The model's `url` is a string or missing.
- `console.time`, `console.log` and `console.error` are logging. The unused `redis`, `faker` and `useSWR` imports are left out too.
- `GET` in `app/api/movie/route.js` is a plain listing pass-through.
- `app/api/json/route.js` (seeding the link table through `createMany` with `skipDuplicates`) and `app/api/user/route.js` (user CRUD) are not part of this model. The batch crawl and the paginated listing are not among the modelled files either.
