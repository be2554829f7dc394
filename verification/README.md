# JywaNonton core, modelled in Dafny

JywaNonton is a streaming front end for short dramas. An Express server relays the upstream
"Melolo" API. A browser client keeps a watch history, bookmarks and a hero carousel. A service
worker caches static files. This project models four parts of it and proves properties of the
model:

- **Upstream client and normaliser** (`lib/melolo.js`), in the modules `Identity`, `Upstream` and `Melolo`:
  - the identifier generators;
  - the merge of request parameters and headers;
  - the image proxy rewrite;
  - the flattening of search sections;
  - the reshaping of a drama's detail, with its tag parse and author backfill;
  - the first-match episode lookup;
  - the choice of the best stream, with its base 64 decoding.
- **API routes** (`routes/api.js`), in the module `Routes`:
  - the checks for required parameters;
  - the 500 wrapper;
  - the `/episodes` and `/stream` reshapes;
  - the `/dubbed` classification and page default;
  - the authorisation and validation order of `/admin/notice`.
- **Client state** (`public/js/app.js`), in the module `App`:
  - the watch history as a bounded most-recently-used list;
  - bookmark toggling;
  - the carousel index arithmetic;
  - `formatDuration`;
  - the reels list;
  - the fallback episode list of the detail view.
- **Service worker** (`public/sw.js`), in the module `ServiceWorker`:
  - install-time precaching;
  - activate-time deletion of stale caches;
  - the cache-first fetch handler.

Supporting modules carry the platform behaviour the core relies on:

- `Js`: JavaScript values, truthiness, `||`, property reads that throw on `null`/`undefined`, `String`, `Number`, `==`, `===`, `parseInt`, `Object.values`.
- `Text`: decimal numerals, whitespace trimming, `includes`, ASCII lower-casing.
- `Utf8`, `Uri` and `Base64`: UTF-8; `encodeURIComponent`/`decodeURIComponent`; `Buffer`'s base 64 reading (section 4 of RFC 4648).
- `Seqs`: `filter`, `findIndex` and `flatMap`, with the order they keep.
- `Base`: `Option` and `Result`.

How each side of the source is modelled:

- **Pure parts are functions.**
- **Step-by-step code is methods**, each proved equal to a specification function:
  - `GenerateRandomId`;
  - the nested `forEach` of `search` (`Search`/`PushSummaries`);
  - `detail` (`Detail`, `ParseTags`, `ResolveAuthor`);
  - `linkStream` (`LinkStream`);
  - the `/dubbed` handler.
- **In-place state is a class with fields:**
  - the client's `state` is `App.Client`;
  - the browser's Cache Storage is `ServiceWorker.CacheStorage`, a list of cache names in creation order plus a map from name to cache.

Things the model receives as parameters:

- **Randomness and the clock.** Each `Math.random()` is a draw in [0, 1) passed in, and `Date.now()` is a clock reading passed in.
- **Upstream replies.** Each is a `Result<Value>` parameter.
- **`JSON.parse`.** It is a parameter `string -> Option<Value>`.
- **The network in the service worker.** A fetch is a parameter that answers a URL with an optional response.

## Model

| member | source | states |
|---|---|---|
| Identity.Scale | lib/melolo.js:6 | `Math.floor(Math.random() * k)` is a whole number below `k` |
| Identity.GenerateRandomId | lib/melolo.js:4-11 | the id has `length` characters, or 1 when `length` < 1. All are decimal digits. The first is 1-9, taken from the first draw. Each later digit comes from its own draw. |
| Identity.VariantNibble | lib/melolo.js:22 | `r & 0x3 \| 0x8` is 8 plus the low two bits of `r`, one of 8, 9, a, b |
| Identity.Fill | lib/melolo.js:14-24 | the template replace keeps the length and every non-placeholder character. Each `x` becomes a lower-case hex digit; each `y` becomes one of 8, 9, a, b. |
| Identity.UuidTemplatePlaceholders | lib/melolo.js:20 | the UUID template has 36 characters, 31 of them placeholders |
| Identity.UuidTemplateLayout | lib/melolo.js:20 | the template has hyphens at 8, 13, 18 and 23, `4` at 14, `y` at 19, and `x` everywhere else |
| Identity.OpenUdid | lib/melolo.js:13-17 | 16 lower-case hex digits |
| Identity.Uuid | lib/melolo.js:19-25 | 36 characters: hyphens at 8, 13, 18 and 23; version `4` at 14; one of 8, 9, a, b at 19; lower-case hex digits elsewhere |
| Identity.Rticket | lib/melolo.js:27-29 | a decimal numeral naming a second at least the current one and less than 1000 seconds later |
| Identity.NewClientIdentity | lib/melolo.js:43-77 | `iid` and `device_id` are 19 digits with no leading zero; `openudid` and `cdid` come from their generators |
| Upstream.MergeParams | lib/melolo.js:83-87 | the keys are those of the static and call parameters plus `_rticket`. `_rticket` is this call's ticket, whatever either map says. A call parameter overrides a static one; every other key keeps its static value. |
| Upstream.MergeHeaders | lib/melolo.js:91-94 | the keys are the union of static and custom headers; custom wins, the rest keep their static value |
| Upstream.CommonParamsIdentity | lib/melolo.js:43-77 | the generated identity sits under `iid`, `device_id`, `openudid` and `cdid` |
| Upstream.RequestCarriesIdentity | lib/melolo.js:80-97 | the url is the base url followed by the endpoint and the ticket is this call's. The identity is present unless the call overrides it, and every call parameter is passed as given. |
| Upstream.Request | lib/melolo.js:98-103 | the result is Ok exactly when the transport delivered, carrying the response body. Otherwise the message is the fixed prefix followed by the error response's body, or by the transport message when there was no response. |
| Uri.Encode | lib/melolo.js:108 | `encodeURIComponent` output holds only unreserved characters and `%`, and is no shorter than its input |
| Uri.DecodeEncodeChar | lib/melolo.js:108 | decoding one encoded character, whatever follows it, yields that character first |
| Uri.DecodeEncode | lib/melolo.js:108 | `decodeURIComponent(encodeURIComponent(s)) == s` for every well-formed string, that is, every sequence of Unicode scalar values |
| Utf8.EncodeChar | lib/melolo.js:283 | 1 to 4 bytes, whose lead byte announces their number, followed by continuation bytes; one byte exactly for ASCII |
| Utf8.DecodeOneEncodeChar | lib/melolo.js:283 | decoding a character's bytes, whatever follows them, gives back the character and its byte count |
| Utf8.DecodeEncode | lib/melolo.js:283 | strict UTF-8 decoding undoes encoding |
| Utf8.DecodeLossyEncode | lib/melolo.js:283 | `toString('utf-8')` of well-formed bytes gives back the string |
| Utf8.LossyStrayContinuation | lib/melolo.js:283 | a stray continuation byte becomes U+FFFD and decoding goes on after it |
| Base64.AlphabetChar | lib/melolo.js:283 | the encoder's character for a 6-bit value reads back as that value and is never `=` |
| Base64.GroupRoundTrip | lib/melolo.js:283 | three octets survive the trip through four 6-bit groups |
| Base64.FromEncodeSextets | lib/melolo.js:283 | the octets read from the 6-bit groups of `bs` are `bs` |
| Base64.SextetsOfAlphabet | lib/melolo.js:283 | the decoder reads back the values of alphabet text followed by `=` padding |
| Base64.DecodeEncode | lib/melolo.js:283 | `Buffer.from(Encode(bs), 'base64')` is `bs` |
| Base64.DecodeToTextEncode | lib/melolo.js:283 | base 64 text of the UTF-8 of `s` decodes to `s` |
| Js.Prop | lib/melolo.js:129 | reading a property throws exactly on `null`/`undefined` and otherwise gives the member or `undefined` |
| Js.Values | lib/melolo.js:279 | `Object.values` gives an array's items, or an object's member values in their order |
| Js.StringToNumberOfNumeral | lib/melolo.js:230 | `Number` of a decimal numeral is its value |
| Js.RadixLiteralNumber | lib/melolo.js:230 | `Number("0x3")` is 3, so `3 == "0x3"` holds. A sign before a radix prefix makes NaN. |
| Js.PointLiteralNumber | lib/melolo.js:230 | a point with no digits after it still reads as the whole number before it |
| Js.FractionLiteralNumber | lib/melolo.js:230 | a literal with a non-zero fraction reads as no integer |
| Js.ExponentLiteralNumber | lib/melolo.js:230 | an exponent scales the digits before it: `Number("1e3")` is 1000 |
| Js.LooseEqualsNumeral | lib/melolo.js:230 | for any value that is neither a string nor an object, `x == "n"` holds exactly when `x == n` does |
| Js.LooseEqualsSymmetric | lib/melolo.js:230 | `==` is symmetric |
| Js.RadixPrefix | routes/api.js:297 | the longest prefix of digits in the radix |
| Js.ParseIntNumeral | routes/api.js:297 | `parseInt` of a numeral followed by anything but a digit or `x` is the numeral's value |
| Text.TrimStart | routes/api.js:297 | drops exactly the leading whitespace: the result is a suffix, starts with a non-space, and all that was dropped is space |
| Text.AsciiLower | routes/api.js:282 | same length; each `A`-`Z` lower-cased and every other character kept |
| Text.Contains | public/sw.js:61-66 | `includes` holds exactly when the text occurs at some position |
| Seqs.FilterKeeps | public/js/app.js:373 | `filter` keeps exactly the elements that pass the test |
| Seqs.FilterSubsequence | public/js/app.js:373 | `filter` keeps the elements' order |
| Seqs.FilterAppend | public/js/app.js:1299-1301 | filtering distributes over concatenation |
| Seqs.FirstIndex | lib/melolo.js:230 | the first position whose element passes the test; None exactly when none passes |
| Seqs.FirstIndexCongruent | lib/melolo.js:230 | tests that agree on every element find the same position |
| Seqs.FlatMapLayout | lib/melolo.js:128-141 | item `j` of element `i`'s list lands right after the lists of the elements before `i` |
| Melolo.ProxyUrl | lib/melolo.js:106-109 | a falsy url is returned unchanged; any other becomes a string starting with `/api/proxy-image?url=` |
| Melolo.ProxyUrlDecodes | lib/melolo.js:106-109 | the query after the proxy path holds only unreserved characters and `%`, and decodes back to the url's text |
| Melolo.SummariesOf | lib/melolo.js:130-140 | one summary per book, in order; fails exactly when a book is `null`/`undefined` |
| Melolo.SectionSummaries | lib/melolo.js:129-142 | a section without a books array contributes nothing. A section fails exactly when it is not readable, because it is `null` or holds a `null` book. Otherwise it gives its books' summaries. |
| Melolo.FlattenSections | lib/melolo.js:127-144 | a successful flattening is the concatenation, in section order, of every section's book summaries |
| Melolo.FlattenSucceeds | lib/melolo.js:127-144 | the flattening succeeds exactly when every section is readable |
| Melolo.FlattenLayout | lib/melolo.js:128-141 | book `j` of section `i` is at position (books of the sections before `i`) + `j` of the result |
| Melolo.SummariesErrorPersists | lib/melolo.js:130-140 | once a book throws, the later books do not change the outcome |
| Melolo.FlattenErrorPersists | lib/melolo.js:128-143 | once a section throws, the later sections do not change the outcome |
| Melolo.PushSummaries | lib/melolo.js:130-141 | the inner loop pushes every book's summary after the earlier results, or stops with the first error |
| Melolo.Search | lib/melolo.js:113-146 | the nested loops give the flattened sections of `json?.data?.search_data`, nothing when that is not an array, or the upstream error |
| Melolo.EpisodesOf | lib/melolo.js:180-188 | one episode per video, in order; fails exactly when a video is `null`/`undefined` |
| Melolo.TagsOf | lib/melolo.js:170-178 | tags are non-empty only when the schema is truthy and parses to an array. With no `null` category they are the categories' names, one per category. A `null` category makes the `map` throw, and the tags stay empty. |
| Melolo.DetailOf | lib/melolo.js:148-221 | a falsy id fails with `Book ID required`; an upstream error passes through. Otherwise it succeeds exactly when the video list maps. The episodes are that mapping, the author is truthy, and the id is `series_id_str`, or the given id when that is falsy. The tags are `TagsOf` the `category_schema`, the cover is the proxied `series_cover`, and the title, introduction and episode count are copied. |
| Melolo.DetailAuthor | lib/melolo.js:191-213 | the author named by the detail is kept, and the backfill cannot change anything. Otherwise the first search hit's author is adopted only when the hit matches by id or title and names one. In every other case the author is `Misterius`. |
| Melolo.Detail | lib/melolo.js:148-221 | the step-by-step `detail` gives exactly `DetailOf` |
| Melolo.ParseTags | lib/melolo.js:170-178 | the tags reassigned inside the `try` are exactly `TagsOf` |
| Melolo.ResolveAuthor | lib/melolo.js:191-206 | the author reassigned by the backfill step is exactly `AuthorOf` |
| Melolo.InsertBySize | lib/melolo.js:279 | inserting one variant gives one more element and the same elements |
| Melolo.InsertSorted | lib/melolo.js:279 | insertion keeps the list sorted by descending size |
| Melolo.SortBySize | lib/melolo.js:279 | the sort is a permutation, ordered by descending size |
| Melolo.FirstLargest | lib/melolo.js:279-281 | the first position holding the largest size |
| Melolo.SortHead | lib/melolo.js:279-281 | the stable sort's head is the first variant of largest size |
| Melolo.Defined | lib/melolo.js:279 | the variants other than `undefined`, which the sort moves last, all taken from the list |
| Melolo.Variants | lib/melolo.js:275-280 | when variants are ranked there is at least one, and none is `null`/`undefined` |
| Melolo.StreamOf | lib/melolo.js:248-295 | a falsy id fails with `Video ID required`; an upstream error passes through; otherwise status is true. The url is `main_url` when there are no variants, and otherwise the url chosen from the first variant of largest size. |
| Melolo.LinkStream | lib/melolo.js:248-295 | the step-by-step `linkStream` gives exactly `StreamOf` |
| Melolo.EncodedTextNotHttp | lib/melolo.js:282 | base 64 text of UTF-8 never starts with `http`, so an encoded url is always decoded |
| Melolo.ChosenUrlDecodes | lib/melolo.js:281-285 | a variant whose url is the base 64 of the UTF-8 of `u` yields `u` |
| Melolo.FindEpisode | lib/melolo.js:230 | the first episode whose index loosely equals `index`; None exactly when none does |
| Melolo.LookupEpisode | lib/melolo.js:227-245 | not found exactly when no episode matches. A found result carries the id, index, name and cover of the first matching episode, and its play url is what `linkStream` gives for that id. A failure is the stream's error for that episode. |
| Melolo.GetEpisodeOf | lib/melolo.js:223-246 | a detail error passes through. The result is not found exactly when the detail succeeds and no episode matches. A found result is the first episode of the detail whose index matches, with its stream url. Once the detail succeeds, the answer is `LookupEpisode` of its episodes, so a stream error is that episode's stream error. |
| Melolo.FindEpisodeNumeral | lib/melolo.js:230 | when no episode index is a string or an object, looking up `"n"` finds what looking up `n` finds |
| Melolo.GetEpisodeByNumeral | lib/melolo.js:223-246 | `getEpisode(id, "n")` answers exactly as `getEpisode(id, n)` does when episode indexes are numbers |
| Melolo.EpisodeCoverProxiedOnce | lib/melolo.js:187 | the corrected episode cover is a proxy path whose query decodes to the upstream cover url |
| Melolo.EpisodeCoverAsWrittenProxiesTwice | lib/melolo.js:243 | the cover as written is a proxy path whose query decodes to another proxy path, never to the upstream cover url |
| Routes.HandleRequest | routes/api.js:18-26 | a result is sent as it is; a thrown error becomes a 500 with the fixed text and the error's message |
| Routes.ParamTruthy | routes/api.js:137-138 | a query parameter passes the `!param` check exactly when it is present and non-empty |
| Routes.SearchRoute | routes/api.js:136-140 | without `query` the answer is 400 with its message; otherwise it is the wrapped `search` |
| Routes.DetailRoute | routes/api.js:160-164 | without `bookId` the answer is 400; otherwise it is the wrapped `detail` |
| Routes.EpisodesRoute | routes/api.js:184-191 | without `bookId` the answer is 400. Otherwise it is the detail's episodes, or a 500 with the detail's error. |
| Routes.EpisodeRoute | routes/api.js:217-221 | without both `bookId` and `index` the answer is 400; otherwise it is the wrapped `getEpisode` |
| Routes.StreamRoute | routes/api.js:239-246 | without `videoId` the answer is 400. Otherwise it is the stream's play url, or a 500 with its error. |
| Routes.MissingParameterSkipsUpstream | routes/api.js:136-246 | with a required parameter missing, no upstream reply can change any route's answer: neither the main reply, nor the author backfill, nor the stream reply of `/episode` |
| Routes.PageNumber | routes/api.js:297 | a non-zero parsed integer is kept. A page that does not parse, or parses to 0, is page 1, so the page is never 0. |
| Routes.PageNumberAbsent | routes/api.js:297 | an absent page is 1 |
| Routes.PageNumberOfNumeral | routes/api.js:297 | the numeral `n` gives page `n`, or 1 for `0` |
| Routes.Dubbed | routes/api.js:272-300 | a missing `classify` gives 400, and so does any value that, lower-cased, is not `terpopuler` or `terbaru`; no call is made in either case. Otherwise the call carries code 1 or 2 and the page number. |
| Routes.AdminNotice | routes/api.js:418-435 | a wrong key gives 403 before the body is read. A `null` body gives 500; a falsy `id` or a non-boolean `active` gives 400. The notice is written exactly when every check passes, and a failed write gives 500. |
| App.FindEntry | public/js/app.js:357 | the entry found is the first in the history with the same book id; none means no entry has it |
| App.Saved | public/js/app.js:373-377 | the new entry is first and there are at most 10 entries. Then come the other books' entries, in order, cut to fit. No later entry shares the new book id, and each comes from the old history. |
| App.SavedKeepsOrder | public/js/app.js:373-377 | the entries after the new one are a subsequence of the old history |
| App.ProgressRule | public/js/app.js:357-361 | restarting at 0 the episode already recorded, with positive progress, keeps that progress; any other call records the given progress |
| App.ToggleFlips | public/js/app.js:1296-1302 | toggling flips membership of the id and leaves every other id's unchanged |
| App.ToggleTwice | public/js/app.js:1296-1302 | toggling twice restores every id's membership, and the very list when the id was absent |
| App.NextIndex | public/js/app.js:496 | the next index is within the slides |
| App.PrevIndex | public/js/app.js:502 | the previous index is within the slides |
| App.PrevUndoesNext | public/js/app.js:495-505 | previous after next, and next after previous, return to the index |
| App.Client.constructor | public/js/app.js:128-140 | the state starts with the stored history and bookmarks and an empty carousel |
| App.Client.SaveHistory | public/js/app.js:352-382 | a falsy drama changes nothing; otherwise the history becomes `Saved` with the new entry; nothing else changes |
| App.Client.ToggleBookmark | public/js/app.js:1291-1303 | `isBookmarked(id)` flips and no other id's does |
| App.Client.InitCarousel | public/js/app.js:468-488 | no dramas changes nothing; otherwise the first five are the slides and the index is 0 |
| App.Client.NextSlide | public/js/app.js:495-499 | the index advances, wrapping around |
| App.Client.PrevSlide | public/js/app.js:501-505 | the index steps back, wrapping around |
| App.Client.GoToSlide | public/js/app.js:507-511 | the index becomes the chosen one |
| App.JsRemainder | public/js/app.js:710 | `%` on a non-negative dividend is the mathematical remainder. On a negative dividend it is never positive. It always lies strictly between `-d` and `d`. |
| App.JsRemainderOdd | public/js/app.js:710 | negating the dividend negates the remainder |
| App.FormatDuration | public/js/app.js:707-712 | 0 seconds is `0:00`, and every result has at least four characters |
| App.FormatDurationReadsBack | public/js/app.js:707-712 | for whole seconds, the minutes before the colon times 60 plus the two digits after it give back the count |
| App.MinutesSecondsReadBack | public/js/app.js:709-711 | `m:ss` reads back as its minutes and seconds |
| App.TwoDigits | public/js/app.js:711 | seconds below 60, padded, are two digits reading back as themselves |
| App.EpisodeItems | public/js/app.js:714-720 | a truthy `episodes` value with a positive `length` is used as it is, such as a non-empty array or string. Otherwise there are `chapterCount` placeholders, none when that is not a positive number, numbered from 1. |
| App.ReelsList | public/js/app.js:975 | the requested drama first, then at most five recommendations of other dramas in their order; fails exactly when a recommendation is `null` |
| ServiceWorker.JsonIsStorable | public/sw.js:60-67 | a url containing `.json` passes the extension test through `.js` |
| ServiceWorker.FirstMatch | public/sw.js:54 | the response from the first cache, in creation order, that holds the url; None exactly when no cache holds it |
| ServiceWorker.PrecachedHoldsAssets | public/sw.js:21 | after `addAll` every asset maps to its fetched response, and every other entry is unchanged |
| ServiceWorker.AddAll | public/sw.js:21 | `addAll` succeeds exactly when every asset fetch is ok, and then stores them all |
| ServiceWorker.CacheStorage.Open | public/sw.js:19 | the named cache exists afterwards; a missing one is created empty at the end of the order |
| ServiceWorker.CacheStorage.Delete | public/sw.js:35 | the name and its cache are removed, and the rest is unchanged |
| ServiceWorker.CacheStorage.Install | public/sw.js:17-25 | the current cache exists afterwards, appended to the order if it was new. When every asset fetched, it holds the precache; otherwise it keeps what it had. |
| ServiceWorker.CacheStorage.Activate | public/sw.js:28-42 | every cache but `jywanonton-v2` is deleted; that one, if present, is kept with its contents |
| ServiceWorker.CacheStorage.ClearIfOld | public/sw.js:32-37 | one name of the snapshot: deleted unless it is the current cache |
| ServiceWorker.CacheStorage.HandleFetch | public/sw.js:45-77 | non-GET and `/api` requests are not intercepted. A hit answers from the cache without the network. A miss answers from the network and stores the response exactly when the url passes the extension test, appending the current cache to the order if it was new. |
| ServiceWorker.CacheStorage.Put | public/sw.js:68-71 | the url maps to the response in the current cache, opened first if missing; nothing else changes |
| ServiceWorker.DeleteStep | public/sw.js:33-35 | deleting a stale name advances the activation's name list by one step |
| ServiceWorker.KeepStep | public/sw.js:33 | keeping the current name advances it by one step as well |
| ServiceWorker.ActivatedNames | public/sw.js:31-37 | after activation at most `jywanonton-v2` is left |

## Left out

- **Network, files and timers.** Network calls, file writes, timers and `localStorage` are not modelled. Their outcomes are parameters.
- **The image proxy route.** The `/proxy-image` route fetches and transcodes images through foreign libraries. The `/notice` read is file I/O. Neither is modelled.
- **Server setup.** `index.js` only configures Express, CORS and the API documentation.
- **Browser machinery.** DOM rendering, templates, event listeners, observers, gestures and the install prompt are not modelled. Neither are Promises, `skipWaiting` and `clients.claim`.
- **The fixed-query wrappers.** `latest`, `trendings`, `foryou`, `vip`, `populersearch`, `randomdrama` and `dubindo` (lib/melolo.js:299-336) only call `search` with fixed arguments. `dubindo` ignores its arguments, and `Routes.Dubbed` answers with a plain search reply.
- **Per-endpoint request payloads.** The payloads and stub headers sent by each endpoint are constants and are not modelled. Maps are unordered, so the order of request keys is not modelled either.
- **`JSON.parse` and `JSON.stringify`.** `JSON.parse` is a parameter. The error body of a failed request arrives already stringified.
- **Response envelopes.** The `{success, data}` envelope of each route is not modelled. A route's answer is the value inside it.
- **Repeated query parameters.** Express would turn these into arrays. The model reads one string per name.
- **Object identity.** Responses are values, and `cache.put` stores the response itself rather than a clone.
- **Rejected cache writes.** A rejected `cache.put` is not modelled, and neither is the order in which its un-awaited promise completes.
- Melolo.SizeOf: a variant whose `size` is not a number sorts as size 0. JavaScript would make the comparator return NaN, which leaves the order to the engine.
- **Floating point.** Durations are whole seconds (App.FormatDuration, App.FormatDurationReadsBack); `Math.floor` of a fractional count is not modelled. Progress percentages and seeking are not modelled.
- Uri.DecodeEncode: proved only for well-formed strings. A string of the model is a sequence of Unicode scalar values. A JavaScript string is a sequence of UTF-16 code units and may hold a lone surrogate, for instance from a `\uD800` escape in an upstream reply. Such strings are not modelled.
- Uri.Encode: never fails. `encodeURIComponent` throws a URIError on a lone surrogate (lib/melolo.js:108), and that error is not modelled.
- Melolo.ProxyUrl: never fails, for the same reason. For such a url, `getProxyUrl` would throw inside `search` (lib/melolo.js:135), so `/search` would answer 500. It would also throw inside `detail` (lib/melolo.js:187, 216) and `getEpisode` (lib/melolo.js:243).
- Js.Length: a string's `length` counts Unicode scalar values, where JavaScript counts UTF-16 code units. Js.Values of a string likewise gives one entry per scalar value, where JavaScript gives one per code unit.
- Text.AsciiLower: `toLowerCase` is modelled on ASCII letters only.
- **Numbers in the value model.** They are integers. `Number` of a string with a non-zero fraction gives no integer, and is read as NaN. Against an integer it compares as NaN would. `Infinity` is read as NaN. Integers are unbounded, so neither rounding above 2^53 nor overflow to `Infinity` is modelled.
- Base64.DecodeEncode: only the standard encoder's output is proved to read back. Text in the URL-safe alphabet and text with stray characters is decoded as `Buffer` does, but nothing is proved about it.
- Utf8.DecodeLossy: an ill-formed sequence becomes one U+FFFD per byte. `Buffer` sometimes replaces a maximal ill-formed prefix with a single U+FFFD.
- Melolo.LookupEpisode: the cover of a found episode follows the corrected definition in the Findings table, `EpisodeCoverProxiedOnce`. It does not follow the double proxying of lib/melolo.js:243, which `EpisodeCoverAsWrittenProxiesTwice` models. The same holds for Melolo.GetEpisodeOf.

## Findings

| source | as written | input that shows it | evidently intended | confidence | as-written member | corrected member |
|---|---|---|---|---|---|---|
| lib/melolo.js:243 | `getEpisode` passes the episode cover through `getProxyUrl` again, although `detail` already proxied it at lib/melolo.js:187 | any video whose `cover` is truthy, e.g. `"https://c/x.jpg"`: the image route is handed `/api/proxy-image?url=https%3A%2F%2Fc%2Fx.jpg` instead of the cover url | the cover proxied once, so that the image route's query decodes to the upstream cover url | not executed | Melolo.EpisodeCoverAsWrittenProxiesTwice | Melolo.EpisodeCoverProxiedOnce |
