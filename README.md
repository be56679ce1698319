# DTZ-Scraper reconciliation, modelled in Dafny

DTZ-Scraper keeps a Google spreadsheet of dumpert.nl videos up to date. Every
15 seconds, `updater` reads the rows of the first worksheet. It seeds an
in-memory change cache and hands the rows whose `dumpert-link` starts with
`https://` to `fetchData`. For each such row, `fetchData` does three things:

- It resolves the link to a media identifier with `getIdFromUrl`.
- It fetches that identifier from the dumpert.nl mobile API.
- It copies the first item of the response onto the row's output columns: titel, uploaddatum, views, kudos, nsfw, lengte, thumbnail and media-url.

The change cache maps a row's `nummer` to the last link handled for it. A row
whose cached link equals its current link is skipped.

The project has five modules, one per file:

- `wrappers.dfy` (`Wrappers`): the `Option` type.
- `link_resolver.dfy` (`LinkResolver`): `getIdFromUrl`.
  - The regular expression is modelled as a total function over strings.
  - It is proved equal to an independent description of the accepted links: `https://www`, one wildcard character, `dumpert`, one wildcard character, `nl/mediabase/`, a hex run, `/`, a hex run, `/`, anything.
  - The proof goes both ways: every link of that shape resolves, and every resolved link has that shape.
- `metadata_mapper.dfy` (`MetadataMapper`): the column mapping of `fetchData` as pure functions.
  - The nsfw token and the `HH:mm:ss` duration each come with a reader that proves them round trips.
  - The `youtube:` rewrite uses a model of `String.prototype.replace` with a string pattern.
  - The 720p, then tablet, then mobile fallback is proved against a declarative "best variant" predicate.
- `reconciliation.dfy` (`Reconciliation`): one turn of the `fetchData` loop as a function of the cache and a row value (`Step`).
  - The whole pass is a fold of that step (`Walk` and `Pass`).
  - The seeding of `updater` and the whole run (`Reconcile`) are also here.
  - Its lemmas state the skip rule, the cache rule, isolation between rows, which rows are left alone, and when a pass stops early.
- `updater.dfy` (`Updater`): the imperative program.
  - `Row` is a class whose column fields the loop assigns in place.
  - `Reconciler` holds the `cache` field and runs the `fetchData` loop and the two seeding loops.
  - Each method is proved to compute exactly the functions of `Reconciliation`.

The network and the date library are parameters:

- `api: string -> Response` gives the outcome of `request.get` plus `JSON.parse` for a full API URL: a rejection, an unparsable body, or a parsed body.
- `renderDate: string -> string` stands for `moment(date).format("YYYY-MM-DD HH:mm")`.

Points where the code decides the behaviour:

- **Both dots are wildcards.** Both dots of `www.dumpert.nl` in the pattern are unescaped. The pattern has no `u` flag, so each dot matches one UTF-16 code unit that is not a line terminator (`\n`, `\r`, U+2028 or U+2029).
  - The model's strings are sequences of Unicode scalar values. A wildcard character is therefore one of the Basic Multilingual Plane (below U+10000) other than a line terminator.
  - A character beyond the Basic Multilingual Plane, such as an emoji, is two code units in JavaScript, so the single dot cannot match it and the link gives null.
  - Anywhere else in the matched prefix such a character meets a literal or a hex class, which it fails both as one character and as two code units.
- **No end anchor.** The pattern has no `$`, so only the prefix up to the slash after the second group has to match.
- **Dead null check.** The check `matches.length === 1` can never be true for this pattern.
- **An empty `items` array or an empty first `media` list is not assumed away.** `body.items[0]` is then undefined, or `item.media[0]` is. Both cases are reachable and throw a TypeError inside the async loop. Nothing catches it, so the rest of the pass is abandoned (status `Aborted`).
  - An empty `media` list fails only at index.js:69. By then titel, uploaddatum, views, kudos and nsfw are already written to the row object, and the model keeps that partial write.
- **A rejected request also ends the pass.** `request.get` is awaited outside the `try`.
- **Cache truthiness.** The cache test treats an empty cached link as absent. Seeding checks every row against the cache as it was before the `forEach` writes anything.
- **The cache is a plain object.** `cache` is the literal `{}`, so it inherits the properties of `Object.prototype`. The model holds the cache's own entries as a map and the twelve inherited names as `InheritedKeys`.
  - A nummer such as `constructor` or `toString` with no own entry reads as a truthy value that is never `===` a link. Seeding never writes it, and the first pass does not skip it. That pass fetches it whenever its link resolves, and stores an own entry unless the pass aborts at that row.
  - Assigning a string to `cache["__proto__"]` goes through the inherited setter, which ignores it (`Assign`). A row whose nummer is `__proto__` is never skipped, so every pass fetches it again whenever its link resolves.

## Model

| member | source | states |
|---|---|---|
| LinkResolver.HexRunLength | index.js:22 | the greedy `[0-9a-fA-F]+` run: all hex, and the next character, if any, is not a hex digit |
| LinkResolver.IsWildcardChar | index.js:22 | definition: the characters an unescaped `.` matches without the `u` flag, those below U+10000 that are not line terminators |
| LinkResolver.HasLinkPrefix | index.js:22 | definition: `https://www`, a wildcard, `dumpert`, a wildcard and `nl/mediabase/` at the start of the string |
| LinkResolver.GroupsId | index.js:22-29 | an id built from the two groups is hex digits around exactly one underscore, non-empty on both sides |
| LinkResolver.IdFromUrl | index.js:21-30 | a non-null result is such a media id and is shorter than the URL |
| LinkResolver.IdFromUrlComplete | index.js:22-29 | every link `https://www` c1 `dumpert` c2 `nl/mediabase/` hex1 `/` hex2 `/` tail yields `hex1_hex2`, when c1 and c2 are characters of the Basic Multilingual Plane other than line terminators |
| LinkResolver.IdFromUrlSound | index.js:22-29 | every non-null result comes from a link of that shape, and is `hex1_hex2` for its groups |
| LinkResolver.IdFromUrlRejectsShort | index.js:22-27 | a string too short for the prefix, two groups and two slashes gives null; the empty string is one of them |
| LinkResolver.IdFromUrlRejectsOneGroup | index.js:22-27 | a single hex segment, with or without its slash, gives null |
| LinkResolver.IdFromUrlRejectsMissingTrailingSlash | index.js:22-27 | two hex groups without the slash after the second give null |
| LinkResolver.IdFromUrlRejectsNonHex | index.js:22-27 | a character that is neither hex nor `/` after the first hex run gives null |
| LinkResolver.IdFromUrlRejectsOtherPrefix | index.js:22-27 | any other text where `https://www`, `dumpert` or `nl/mediabase/` must stand gives null |
| LinkResolver.IdFromUrlRejectsAstralWildcard | index.js:22-27 | a character beyond the Basic Multilingual Plane where either dot stands gives null, whatever follows |
| LinkResolver.IdFromUrlRejectsEmoji | index.js:22-27 | `https://www` U+1F600 `dumpert.nl/mediabase/ab/cd/` gives null |
| MetadataMapper.NsfwRoundTrip | index.js:68 | the nsfw column reads back as the item's flag: "Ja" exactly for true, "Nee" for false |
| MetadataMapper.NsfwToken | index.js:68 | definition: "Ja" for a truthy flag, "Nee" otherwise |
| MetadataMapper.FormatClock | index.js:69 | lengte is eight characters `dd:dd:dd` |
| MetadataMapper.ClockRoundTrip | index.js:69 | lengte reads back as the duration modulo 86400 seconds, also for negative durations |
| MetadataMapper.ClockWrapsDaily | index.js:69 | durations a whole day apart render the same lengte |
| MetadataMapper.ClockExamples | index.js:69 | 3725 seconds renders as "01:02:05" and -5 seconds as "23:59:55" |
| MetadataMapper.IndexOf | index.js:74 | the first index where the pattern occurs, or none when it occurs nowhere |
| MetadataMapper.ReplaceFirst | index.js:74 | definition: `String.prototype.replace` with a string pattern, which replaces only the first occurrence |
| MetadataMapper.SingleVariantUrl | index.js:72-77 | definition: the media-url for a track with one variant |
| MetadataMapper.SingleVariantUrlRewrite | index.js:72-77 | a single `youtube:` uri becomes the watch URL followed by the rest of the uri; any other single uri is kept as is |
| MetadataMapper.SingleVariantUrlExample | index.js:73-74 | `youtube:abc123` becomes `https://youtube.com/watch?v=abc123` |
| MetadataMapper.FindVersion | index.js:80 | `find` returns the first variant with the wanted label, or none when no variant has it |
| MetadataMapper.SelectMediaUrl | index.js:72-93 | one variant: its rewritten uri; otherwise the uri of the best-ranked variant (720p, then tablet, then mobile, first of its label); no wanted label: the previous media-url |
| MetadataMapper.BestVariantUnique | index.js:80-87 | at most one variant is the best one, so the fallback chain has a single answer |
| MetadataMapper.SelectMediaUrlPrefers720p | index.js:80 | among several variants, the uri of the first 720p variant is taken, wherever it stands |
| MetadataMapper.SelectMediaUrlPrefersTablet | index.js:80-84 | among several variants with no 720p one, the uri of the first tablet variant is taken, whether mobile variants come before or after it |
| MetadataMapper.SelectMediaUrlFallsBackToMobile | index.js:80-91 | among several variants with neither a 720p nor a tablet one, the uri of the first mobile variant is taken |
| MetadataMapper.SelectMediaUrlIgnoresCurrent | index.js:72-93 | when a variant is chosen, the result does not depend on the previous media-url |
| MetadataMapper.MapHeader | index.js:64-68 | definition: the titel, uploaddatum, views, kudos and nsfw columns written from an item |
| MetadataMapper.MapItem | index.js:64-93 | definition: every column written from an item that has a first media track |
| MetadataMapper.MapItemReadsBack | index.js:64-70 | after mapping: titel, views, kudos and thumbnail equal the item's; nsfw reads back as its flag; lengte reads back as its duration modulo a day |
| MetadataMapper.MapItemIdempotent | index.js:64-93 | mapping the same item onto an already mapped row changes nothing |
| MetadataMapper.MapItemIgnoresPrevious | index.js:64-93 | when a variant is chosen, the mapped columns do not depend on the row's previous values |
| Reconciliation.ApiUrl | index.js:47 | definition: the mobile API URL requested for a media id |
| Reconciliation.Crashes | index.js:62-69 | definition: a successful body whose `items[0]` or whose first item's `media[0]` is missing, which throws a TypeError |
| Reconciliation.Aborts | index.js:47-69 | definition: a rejected request or a crashing body, the outcomes no handler catches |
| Reconciliation.ResponseFor | index.js:41-50 | definition: the response a row's link leads to when it resolves to an id |
| Reconciliation.HasEntry | index.js:36 | definition: `cache[nummer]` is truthy, an own non-empty entry or an inherited property |
| Reconciliation.IsCached | index.js:36 | definition: the skip test, truthy and `===` the row's link |
| Reconciliation.Assign | index.js:43 | definition: `cache[nummer] = link`, which stores an own entry except through the inherited `__proto__` setter |
| Reconciliation.Step | index.js:34-104 | definition: one turn of the loop on a cache and a row value |
| Reconciliation.Resolved | index.js:41-104 | definition: the turn after the cache check, once the link has been resolved |
| Reconciliation.ResolvedRules | index.js:41-104 | after the cache check, for every resolver outcome: which statuses advance the cache, which leave the row untouched, when the id's URL is fetched, when the pass aborts, and what an update writes and saves |
| Reconciliation.ResolvedIgnoresCache | index.js:41-104 | after the cache check, the outcome, the row and the calls do not depend on the cache |
| Reconciliation.StepSkipRule | index.js:36-38 | a row is skipped exactly when its cache entry is truthy and equals its link; a skipped row has no call and no change |
| Reconciliation.StepCacheRule | index.js:36-95 | every row handled without an exception leaves `Assign(cache, nummer, link)`: the link stored under the nummer, except under `__proto__`; an aborted row leaves the cache as it was |
| Reconciliation.StepRowRule | index.js:36-60 | nummer and link are never written; a skipped, unresolvable, unparsable or unsuccessful row is not written at all |
| Reconciliation.StepFetchRule | index.js:41-47 | an uncached row is fetched exactly when its link resolves, first from the API URL of its id; no call exactly for skipped and unresolvable rows |
| Reconciliation.StepAbortRule | index.js:47-69 | a row aborts the pass exactly when it is uncached, its link resolves, and the response is a rejection or a successful body without a first item or first media track |
| Reconciliation.StepUpdateRule | index.js:62-103 | an updated row holds the mapped first item and is fetched, then saved, once |
| Reconciliation.StepLocal | index.js:36-104 | a row's outcome, columns and calls depend on the cache only through its own nummer's entry |
| Reconciliation.RowStepRules | index.js:34-104 | the loop body keeps keys, advances the cache, skips cached rows and is local to its nummer |
| Reconciliation.Walk | index.js:32-105 | definition: the loop over the rows for any row step, stopping at the first aborted row |
| Reconciliation.Pass | index.js:32-105 | definition: fetchData as that loop over the row step |
| Reconciliation.PassKeepsKeys | index.js:32-105 | a pass keeps the number of rows and every row's nummer and link |
| Reconciliation.PassStatuses | index.js:32-105 | a pass reaches a prefix of the rows, all of them unless aborted, and stops exactly after its first aborted row |
| Reconciliation.PassLeavesUnreached | index.js:32-105 | rows after the row where a pass stopped keep their values |
| Reconciliation.PassFrame | index.js:32-105 | cache entries of nummers that no row carries are left as they were |
| Reconciliation.PassCacheAdvances | index.js:32-105 | after a completed pass, the cache maps every nummer other than `__proto__` to the link of the last row carrying it |
| Reconciliation.PassOverCachedRows | index.js:34-38 | a pass over rows that are all cached calls nothing and changes nothing |
| Reconciliation.PassRowAt | index.js:32-105 | with distinct nummers, every row reached ends as if it were the only row: a parse failure or an unsuccessful body in one row does not touch another |
| Reconciliation.PassCompletes | index.js:32-105 | unless some row's response is a rejection or a crashing body, the pass reaches every row |
| Reconciliation.SecondPassSkipsAll | index.js:32-105 | with distinct nummers, none of them `__proto__`, and non-empty links, a pass right after a completed one skips every row and calls nothing |
| Reconciliation.PassNeverStoresProto | index.js:43-95 | a pass from a cache without a `__proto__` entry never gets one |
| Reconciliation.ProtoRowNeverSkipped | index.js:36-47 | a row whose nummer is `__proto__` is never skipped, leaves the cache as it was, and fetches its id again whenever its link resolves |
| Reconciliation.IsFetchable | index.js:143 | definition: the link is non-empty and starts with `https://` |
| Reconciliation.SeedEligible | index.js:135 | definition: a fetchable link, no truthy cache entry and a non-empty lengte |
| Reconciliation.FetchableRows | index.js:142-144 | the rows passed to fetchData are exactly those whose link is non-empty and starts with `https://` |
| Reconciliation.SeedCandidates | index.js:134-136 | the seed candidates are exactly the rows with such a link, no truthy cache entry and a non-empty lengte |
| Reconciliation.ApplySeedsFrame | index.js:137-139 | the seeding writes touch only the candidates' nummers |
| Reconciliation.ApplySeedsCovers | index.js:137-139 | a candidate whose nummer no other candidate maps to another link ends up with its link in the cache, unless its nummer is `__proto__` with no own entry |
| Reconciliation.ApplySeedsSource | index.js:137-139 | every seeded entry is the old entry or the link of a candidate with that nummer |
| Reconciliation.ApplySeeds | index.js:137-139 | definition: the forEach that writes each candidate's link under its nummer |
| Reconciliation.Seed | index.js:133-139 | definition: the filter and then the forEach, against the cache before seeding |
| Reconciliation.SeedKeepsEntries | index.js:133-139 | seeding leaves every truthy cache entry as it was, own or inherited |
| Reconciliation.SeedSkipsInheritedKeys | index.js:133-139 | a nummer that names an inherited property and has no own entry is never seeded |
| Reconciliation.SeedOnlyFromEligible | index.js:133-139 | every entry seeding adds or changes is the link of an eligible row with that nummer |
| Reconciliation.SeedCoversEligible | index.js:133-139 | with distinct nummers, every eligible row is seeded with its link |
| Reconciliation.FreshStartFetchesNothing | index.js:133-144 | the first run with an empty cache, distinct nummers, and every fetchable row holding a lengte and a nummer that is not an inherited property name, fetches nothing and changes no row |
| Reconciliation.Reconcile | index.js:133-144 | definition: one run of updater once the rows are read, seeding and then fetchData on the fetchable rows |
| Updater.Row.WriteHeader | index.js:64-68 | the row's titel, uploaddatum, views, kudos and nsfw become the item's header columns; the rest is unchanged |
| Updater.Row.WriteMedia | index.js:69-93 | lengte, thumbnail and media-url become those chosen from the first media track; the rest is unchanged |
| Updater.Reconciler.constructor | index.js:18 | the cache starts empty |
| Updater.Reconciler.ProcessRow | index.js:34-104 | the loop body changes the cache and the row exactly as the row step does, and issues its calls |
| Updater.Reconciler.ProcessRowAt | index.js:34-104 | the loop body at one index changes only that row among the rows |
| Updater.Reconciler.Store | index.js:43 | `cache[key] = value` leaves the cache that `Assign` gives |
| Updater.Reconciler.Advance | index.js:34-104 | one turn of the loop keeps the invariant that the state so far, followed by a pass over the rest, is the whole pass |
| Updater.Reconciler.FetchData | index.js:32-105 | the loop leaves the cache, the rows and the calls of the pass, and aborts exactly when the pass does |
| Updater.Reconciler.SeedCache | index.js:133-139 | the cache becomes the seeded cache of the rows |
| Updater.Reconciler.WriteSeeds | index.js:137-139 | the forEach writes each candidate's link under its nummer, in order |
| Updater.Reconciler.Update | index.js:133-144 | a run leaves the cache, the fetchable rows and the calls of `Reconcile`; the fetchable rows are exactly the fetchable ones; other rows are unchanged |
| Updater.Reconciler.SeedAndSelect | index.js:133-144 | the seeding and the filter before fetchData: the seeded cache, and exactly the fetchable row objects, in order and without repeats |
| Updater.SelectFetchable | index.js:142-144 | `rows.filter` keeps exactly the row objects with a fetchable link, in order and without repeats |
| Updater.SelectSeeds | index.js:134-136 | the seeding filter keeps exactly the eligible row objects, in order |
| Updater.FetchableObjectsSnapshot | index.js:142-144 | filtering the row objects and then reading them gives the filtered row values |
| Updater.FetchableObjectsMembers | index.js:142-144 | a row object is kept exactly when it has a fetchable link |
| Updater.SeedObjectsSpec | index.js:134-136 | filtering the row objects for seeding and then reading them gives the seed candidates |

## Left out

- HTTP and JSON parsing are the `api` parameter, a fixed function of the URL. A body that parses to `null` or to a non-object is not modelled. A server that answers the same URL differently within one pass is not modelled either.
- `moment` is left out. `moment(item.date).format(...)` is the `renderDate` parameter. Durations use whole seconds, with no daylight-saving shift and no fractional seconds.
- The Google Sheets calls are left out because they are foreign library I/O. This covers authentication, `getInfo`, `getRows` and the result of `row.save`. A save is recorded as a `Save(nummer)` call; its callback only logs.
- The `setInterval` schedule is left out, and with it passes that overlap because a pass outlives its 15-second interval. A run is one call of `Update`.
- Console logging, timestamps and `dotenv` are left out. They do not affect the cache or the rows.
- Updater.Reconciler.FetchData: requires the row objects to be distinct. `getRows` returns a fresh object per row, and aliased rows are not modelled.
- Row storage: the rows are a sequence of row objects, not a JavaScript array. No operation adds, removes or reorders rows.
- Item fields: views and kudos are unbounded integers rather than JavaScript numbers. `stats.views_total`, `stats.kudos_total` and `stills.still` are flattened into the item.
- Malformed bodies are not modelled: a successful body without an `items` key, an item without a `media` key, `stats` or `stills`, and a first media track without `variants`. In the source the first two throw at index.js:64 or index.js:69 and abort the pass; the `Response` and `Item` types cannot represent any of them.
- Strings are sequences of Unicode scalar values. A JavaScript string holding a lone surrogate code unit has no counterpart in the model.
- The regular expression is modelled by its unique greedy match rather than by backtracking. The hex groups are followed by `/`, which is not a hex digit, so backtracking cannot produce another match.
