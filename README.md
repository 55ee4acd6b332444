# Manga reader backend: caches, page list, chapter listing and ordering

This project models the logic of `main.py`, a Flask backend that proxies a manga catalog API
for a browser reader. The rest of the program is web glue. The parts modelled are:

- **The expiring fetch cache**, used twice. `cover_cache` maps a manga id to
  `(ts, ctype, content)` and is updated by the `/cover/<manga_id>` route. `page_cache` maps a
  chapter id, then a page index, to the same tuple and is updated by `fetch_page`. An entry
  younger than `CACHE_TTL` (one day) is served from memory. Otherwise the image is fetched and
  stored with the clock reading taken *before* the fetch. A failed fetch stores nothing.
  `FetchCache.GetOrFetch` is the shared get-or-fetch step. `CoverCache` and `PageCache` are
  classes whose `map` fields the route methods update in place.
- **The page list of a chapter and the page route.** `get_chapter_pages` turns the at-home
  server's file names into `base/data/hash/file` URLs and rejects a 404 or an empty list with
  a `ValueError`. `serve_chapter_page` answers 404 for such an error and for an index outside
  the list, and otherwise goes through the page cache (`ChapterPages`).
- **The chapter listing loop** `get_chapters`. It asks for pages of 100 chapters, advances
  `offset` by each page's length, and stops at the first empty or short page
  (`ChapterList`).
- **Chapter ordering.** The chapter page sorts by `safe_chapter_num`, with +infinity for a
  missing or unparseable number, using Python's stable `sorted`. `current_index` is the first
  position of the requested chapter, or 0 if it is absent (`ChapterOrder`).
- **The random-title trim** `rstrip(" - Mangapill!")` (`RandomTitle`).

Time, every HTTP answer, the image host and Python's `float()` on strings are inputs of the
model:

- `now: real` stands for `time.time()`.
- An at-home answer (`AtHome`), a sequence of listing answers (`Batches`) and the outcome of
  `get_cover` are passed in as values.
- `host: string -> Result<Payload, Upstream>` stands for `requests.get(url)` followed by
  `raise_for_status`. This lets the contracts say which URL is fetched.
- `parse: string -> Option<real>` stands for `float()`. `None` means it raises.

An exception that escapes a handler (`raise_for_status`) is the `ServerError` reply or the
`UpstreamError` failure.

## Model

| member | source | states |
|---|---|---|
| `FetchCache.GetOrFetch` | main.py:169-183 | A fresh hit returns the stored pair and changes nothing. A miss returns the fetch outcome. A successful miss stores `(now, ctype, content)`. A failure leaves the map as it was. A successful reply is what the map now holds, and it is fresh. Keys are never removed and no other key changes. |
| `FetchCache.HitSkipsFetch` | main.py:172-175 | On a fresh hit the step does not depend on the fetch outcome, so no upstream request is made. |
| `FetchCache.SecondRequestWithinTtlServedFromCache` | main.py:171-183 | After a successful miss at `t1`, a request at `t2` with `t2 - t1 < CACHE_TTL` gets the same payload from memory, whatever the upstream would answer now. |
| `FetchCache.ExpiredEntryIsRefetched` | main.py:172-182 | Once `CACHE_TTL` has passed since the stored fetch, the next request returns the new fetch outcome and a success overwrites the entry with the new time. |
| `FetchCache.CoverReply` | main.py:177-183 | The cover route answers with the image exactly on success. It answers 404 exactly when `get_cover` found no cover, and 5xx when a request raised. |
| `FetchCache.CoverCache.constructor` | main.py:11 | The cover cache starts empty. |
| `FetchCache.CoverCache.ProxyCover` | main.py:169-183 | The new `cover_cache` and the reply are those of `GetOrFetch` keyed by manga id. A fresh hit leaves the cache unchanged. "No cover" answers 404 and caches nothing. |
| `FetchCache.FetchPageStep` | main.py:107-121 | The chapter always has an inner map afterwards. Other chapters and other pages are untouched. A fresh hit changes nothing. A miss returns the fetch outcome. A failure's only effect is the lazily created, possibly empty, inner map. No page is removed, and only `page_index` can be added, and only on success. A success is stored fresh, stamped with `now` on a miss. |
| `FetchCache.PageCache.constructor` | main.py:12 | The page cache starts empty. |
| `FetchCache.PageCache.FetchPage` | main.py:107-121 | The new `page_cache` and the result are those of `FetchPageStep` for the outcome of fetching `url`. |
| `ChapterPages.PageUrl` | main.py:101-103 | A page URL is the chapter's `base/data/hash/` prefix followed by the file name, and the file name is recovered by dropping the prefix. |
| `ChapterPages.GetChapterPages` | main.py:85-104 | Returns a list exactly when the server answered with at least one file. A 404 and an empty file list give a `ValueError` with the source's message. A body that does not decode as JSON gives the decoder's error, which is also a `ValueError`. Another failure propagates. The list has one URL per file, in order, and the i-th URL is the data prefix plus the i-th file. |
| `ChapterPages.PageReply` | main.py:281-282 | A fetched page is sent as an image. A raised fetch becomes a server error. |
| `ChapterPages.ServeChapterPage` | main.py:271-282 | A `ValueError` answers 404 with its text. An index `< 0` or `>= len(urls)` answers "Page not found" with 404. In both cases the cache is unchanged. Otherwise the page cache is consulted for exactly `urls[page_index]`, which is in bounds. |
| `ChapterList.StopAt` | main.py:61-72 | The loop ends at the first answer that raised, was empty, or was shorter than `limit`. Every earlier answer was a full page. |
| `ChapterList.Listing` | main.py:46-74 | `get_chapters`' result. It fails exactly when the answer that ends the loop raised. Otherwise it holds at least 100 items for every full page read before the last one. |
| `ChapterList.GetChapters` | main.py:46-74 | The result is the in-order concatenation of the pages read up to and including the stopping one, or the failure that stopped it. Its loop keeps `offset` equal to the number of chapters gathered so far. |
| `ChapterList.ListingOfPages` | main.py:46-74 | Serving a listing in pages of 100, the last one short or empty, and reading it back returns the whole listing in order. |
| `ChapterOrder.SafeChapterNum` | main.py:247-252 | The key is a number exactly when the chapter has a number that parses, and then it is that value. Otherwise it is +infinity. |
| `ChapterOrder.ChaptersSorted` | main.py:254 | `chapters_sorted` is a permutation of the chapters, ordered by `safe_chapter_num`. |
| `ChapterOrder.SortPermutes` | main.py:254 | The sorted list is a permutation of the input. |
| `ChapterOrder.SortSorts` | main.py:254 | The sorted list is ordered by key. |
| `ChapterOrder.SortKeepsTies` | main.py:254 | The sort is stable: for every key, the chapters carrying it appear in input order. |
| `ChapterOrder.ChaptersSortedSpec` | main.py:247-254 | `chapters_sorted` is a permutation, ordered by key, and stable. Every numbered chapter comes before every chapter keyed +infinity. |
| `ChapterOrder.MixedChapterNumbers` | main.py:247-254 | Chapters numbered "3", "1", "abc", "" sort as 1, 3, "abc", "". |
| `ChapterOrder.CurrentIndex` | main.py:255-256 | Returns the least position whose id is the requested chapter's, or 0 when no chapter has that id. |
| `RandomTitle.RStrip` | main.py:129 | The result is a prefix of the input. Everything removed is in the character set. The result is empty or ends with a character outside the set. |
| `RandomTitle.TitleAsWritten` | main.py:129 | The route's title is a prefix of the page title. Everything cut off is in the set of characters of `" - Mangapill!"`. What remains is empty or ends outside that set. |
| `RandomTitle.RStripUnique` | main.py:129 | Those three properties determine `rstrip`'s result. |
| `RandomTitle.GintamaLosesLetter` | main.py:129 | As written, the title "Gintama - Mangapill!" becomes "Gintam". |
| `RandomTitle.RemoveSuffix` | main.py:129 | Removing a suffix yields a prefix of the input: either the input itself or the part before that suffix. |
| `RandomTitle.RemoveSuffixRoundTrip` | main.py:129 | Removing a suffix from `title + suffix` gives back `title`. |
| `RandomTitle.Title` | main.py:129 | The intended title of a page titled `name + " - Mangapill!"` is `name`. |
| `RandomTitle.GintamaKeepsName` | main.py:129 | The intended trim turns "Gintama - Mangapill!" into "Gintama". |

## Left out

- Flask routing, `render_template`, `jsonify` and `Response`, and the index, search, manga and random routes' JSON and HTML reshaping (main.py:133-166, 186-219, 285-292). These are framework glue. The cover and page routes are modelled only as far as their replies: image, 404 with a message, or server error. The body format is not modelled: the cover route's 404 body is the JSON `{"error": "No cover"}`, the page route's is plain text.
- `search_manga`, `get_chapter` and the metadata requests of `chapter_page`, including its "Manga not found" 404 (main.py:18-23, 77-82, 224-245). These are plain request-and-reshape code with no state.
- `get_chapter_pages` reading a JSON body that lacks `baseUrl`, `chapter`, `hash` or `data` (main.py:94-96) raises `KeyError`, which is not a `ValueError`. The model folds it into `HttpFailure`, which gives a server error, as in the source.
- `get_cover` (main.py:26-43): its two requests and its cover URL are not modelled. Its outcome (a payload, None, or a raised error) is an input of `ProxyCover`.
- Every HTTP request and `raise_for_status`: each is an input outcome. `get_chapters` receives its answers as a sequence indexed by request number. The model does not connect the `offset` sent with the answer received, which the server decides.
- `time.time()` is the `now` parameter. Timestamps are exact reals, so IEEE double rounding in `now - ts` is not modelled.
- Python's `float()` on strings is the `parse` parameter. NaN keys, which break `sorted`'s ordering, and the strings "inf" and "-inf" are not modelled as numbers.
- Python's Timsort is modelled as a stable insertion sort. A stable sort by key has only one possible result, so the output is the same.
- `ServeChapterPage` accepts any integer index. Flask's `<int:...>` converter only passes non-negative ones, so the `< 0` branch is kept only because the source has it.
- The retry loop of `random_manga` (main.py:125-127) depends only on the network for termination. The BeautifulSoup parsing (main.py:128) and the markdown rendering (main.py:201) are foreign libraries.
- Concurrent requests: the two dictionaries are shared without locking, and the model is sequential.

## Findings

| source | as written | input that shows it | evidently intended | confidence | as-written member | corrected member |
|---|---|---|---|---|---|---|
| main.py:129 | `rstrip(" - Mangapill!")` removes the longest trailing run of the characters ` `, `-`, `M`, `a`, `n`, `g`, `p`, `i`, `l`, `!`, not the literal text | page title "Gintama - Mangapill!" gives "Gintam" | remove the literal site suffix, giving "Gintama" | high that title letters from that set are lost; medium on the exact suffix the site puts in its titles; not executed | `RandomTitle.GintamaLosesLetter` | `RandomTitle.Title` |
