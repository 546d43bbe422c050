# Station catalogue, gateway and sandbox: a Dafny model

This project models the parts of the services that hold algorithms and
invariants, and proves what they promise:

- the station catalogue of `radio-service-rs`: fetching, fingerprints, stream
  validation, the Postgres tables, the inverted index, queries and paging, and
  the caches of several instances over one database;
- its sliding-window rate limiter and the favourites list;
- the gateway's bounded cache, contact limits, sessions with signed CSRF proofs,
  and canonical cache keys;
- the path algebra of `terminal-service-rs`.

Code that changes state step by step is a class or a method with loops, proved
against a specification function; the lemmas are about those functions and about
whole runs. `dafny verify dfyconfig.toml` checks everything.

## Reading order

| file | what it is about |
|---|---|
| `Stations`, `RadioBrowser`, `Fingerprint`, `Refresh` | stations, where they come from, fingerprints, one refresh from fetch to commit |
| `StreamValidation` | probes in any order, verdicts kept in a table |
| `StationTables`, `PersistedPayload` | the tables, transactions, the two-SELECT load, cleaning what was loaded |
| `StationIndex`, `StationQuery`, `StationPaging` | building the index, answering from it, paging through answers |
| `IndexCache`, `Config`, `Catalogue` | why a cached index may be reused; the checks of the settings; several instances interleaving over one database |
| `RateLimiter`, `GatewayCache`, `ContactLimits` | limiters and caches over whole runs |
| `CsrfProof`, `Session`, `CacheKey` | the gateway's codecs and its session rule |
| `Favorites`, `FavoritesJson` | the favourites list and its stored form |
| `SandboxPaths` | virtual, real and displayed paths |
| `Laws` | the laws asked of hasher, lower-casing and collation can be met |
| `Sequences`, `Text`, `Wrappers` | shared vocabulary |

## What the proofs found

- **Several instances stay coherent.** With settings the service starts with, any
  number of instances and any interleaving, an idle instance whose marker equals
  the database stamp never holds anything but the current payload
  (`Catalogue.CachesAreCoherent`). The start-up check of `refresh_lock_key` is what
  this rests on: `Catalogue.CoherentExactly` says what a blank key would cost. No
  such run can happen, since the service refuses a blank key
  (radio-service-rs/src/config.rs:392-397).
- **Paging stops at six digits.** The service derives offsets that its own
  parser rejects once they exceed 999,999. Following the pages is complete if and
  only if the last page starts at or below that offset. With the pager's page size
  of 40, that is a catalogue of at most a million stations; a longer one is cut off.
- **Repeated tokens repeat results.** A station that yields one token twice
  appears twice in an answer taken from the index; `StationQuery.SelectedIsScanExactly`
  says exactly when the answer is the scan's.
- **The validation cache is transparent for servers that answer by URL**: if a
  stream found through a redirect is found at its own URL too, no run ever shows
  that there is a cache, whatever the change stamps. For servers that serve a
  stream only to those they have redirected there, a bar in a change stamp can
  mislead it; for all servers at once it is transparent if and only if signatures
  tell URLs apart, and bar-free stamps are enough.
- **The fetch does not compare the records of its pages.** Distinct ids are the
  upstream's doing. A repetition within one chunk of 500 makes the insert fail, one
  across chunks overwrites a row silently: the last station of each id remains
  (`StationTables.InsertedRows`). Torn reads are excluded in that case as well.
- **The contact limiter's bound is `2 * limit - 1`**, not `2 * limit`, for any
  half-open interval of window length, and it is attained.
- **Some hypotheses are not needed**: MAC payloads are unambiguous for nonces
  with colons too, and displayed paths are unambiguous for any home directory.

## Modelling choices

- SHA-256, the JSON serialiser, HMAC, Unicode lower-casing, ASCII upper-casing,
  the URL sanitisers, the block list, the upstream and the stream probe are
  function parameters. The laws needed of them are predicates: `Fingerprint.Lawful`
  (both injective, newline-free records, colon-free digests) and
  `StationQuery.LowerLaws`; `Laws` shows something that obeys each. That digests
  do not collide is the usual idealisation of SHA-256. The MAC needs no law.
- Clock readings are parameters. A session request has three: for looking the
  session up, for checking expiries, and for renewing. A run assumes a clock that
  does not go back.
- A transaction is one atomic step, each SELECT is one atomic step, and the
  advisory lock is an exclusive flag whose release takes a step of its own.
  Database time stamps increase strictly from commit to commit. The state row
  exists from the start because the migrations insert it.
- An instance handles one request at a time; instances interleave at every
  database access, and any request may fail at any step. A background refresh
  is such a request.
- Iteration orders that the code cannot choose (hash maps, completion
  order, equal names in a SELECT, equal expiries in an eviction) are left open.
- A 64-bit float is its bit pattern, which nothing calculates with. JSON field
  names are constructors. Query strings in `CacheKey` are UTF-8 bytes, one
  character each. `USIZE_RANGE` is that of a 64-bit target.

## Model

| member | source | states |
|---|---|---|
| RadioBrowser.PushPage | radio-service-rs/src/radio_browser.rs:157-166 | the inner loop appends a page's surviving records and cuts the list off at the configured limit |
| RadioBrowser.FetchPayloadFromHost | radio-service-rs/src/radio_browser.rs:97-187 | a fetched payload is the first `limit` survivors of the delivered pages, fingerprinted as it stands, and the paging stopped for one of its three reasons; a failure is a failing page before that, or no survivor |
| RadioBrowser.FetchedExactly | radio-service-rs/src/radio_browser.rs:248-323 | the fetch itself guarantees trimmed lists and the right fingerprint; the invariant the catalogue needs holds exactly when the upstream's ids are distinct and newline-free |
| RadioBrowser.NormalizedExactly | radio-service-rs/src/radio_browser.rs:248-323 | a record becomes a station if and only if it passed its check, has an id and no TLS error, and its stream is acceptable and not blocked; the station carries its fields, lists split at commas and trimmed |
| RadioBrowser.PagesTile | radio-service-rs/src/radio_browser.rs:126-140 | the pages asked for lie end to end and stop at the configured limit |
| Refresh.RunRefresh | radio-service-rs/src/refresh.rs:13-43 | fetch, validate, assign, persist: the answer and the tables for every fetch and every failure of the database, with the table invariant kept |
| Refresh.RefreshCommitsGenuine | radio-service-rs/src/refresh.rs:13-43 | a refresh of what a fetch delivers succeeds unless the database fails, and commits a genuine payload under the fingerprint of the stations before validation |
| Fingerprint.BuildStationsFingerprint | radio-service-rs/src/stations/fingerprint.rs:6-26 | feeding the hasher record by record in id order digests the newline-terminated records of the sorted list |
| Fingerprint.BuildStationsOrderFingerprint | radio-service-rs/src/stations/fingerprint.rs:28-35 | feeding the ids one by one digests the newline-terminated ids in list order |
| Fingerprint.SetFingerprintExact | radio-service-rs/src/stations/fingerprint.rs:6-26 | lists with distinct ids have one set fingerprint if and only if they are permutations of each other |
| Fingerprint.OrderFingerprintExact | radio-service-rs/src/stations/fingerprint.rs:28-35 | order fingerprints agree if and only if the id sequences are equal |
| Fingerprint.CacheKeyExact | radio-service-rs/src/stations/models.rs:56-68 | cache keys agree if and only if the stored fingerprints and the id sequences do |
| Laws.LawfulHasherExists | radio-service-rs/src/stations/fingerprint.rs:6-35 | the laws asked of digest and serialiser can be met: an escaping digest and an escaped record obey them |
| Laws.LowerAsciiIsLawful | radio-service-rs/src/stations/processed.rs:141-148 | so can the laws asked of lower-casing |
| StreamValidation.StreamValidator.ProbeAll | radio-service-rs/src/stream_validation.rs:66-77 | every station is processed exactly once, in an order nobody controls |
| StreamValidation.Tally | radio-service-rs/src/stream_validation.rs:79-107 | the loop over arrived outcomes collects the accepted, counts drops and reasons, and keeps for each key some requested cache update |
| StreamValidation.StreamValidator.Validate | radio-service-rs/src/stream_validation.rs:44-118 | for every completion order the report is the in-order filter-map of the input with its drop and reason counts, from an empty table that of the probes alone, and the table takes a step; a disabled validator lets everything through |
| StreamValidation.ArrivalOrderIrrelevant | radio-service-rs/src/stream_validation.rs:109-110 | sorting the survivors by position restores the input order from any arrival order |
| StreamValidation.PairsRearranged | radio-service-rs/src/stream_validation.rs:84-110 | the accepted stations, as a multiset, do not depend on the arrival order |
| StreamValidation.ReasonsRearranged | radio-service-rs/src/stream_validation.rs:331-334 | the reason counts do not depend on the arrival order |
| StreamValidation.Conservation | radio-service-rs/src/stream_validation.rs:82-118 | accepted plus dropped is the input length, and the reason counts sum to the drops |
| StreamValidation.ReasonsAddUp | radio-service-rs/src/stream_validation.rs:331-334 | the sum of all reason counts is the number of drops |
| StreamValidation.HonestRowsChangeNothing | radio-service-rs/src/stream_validation.rs:120-160 | with rows that record true verdicts, a validation reports what it would report without any rows |
| StreamValidation.CacheIsTransparent | radio-service-rs/src/stream_validation.rs:120-160 | over every run from an empty table, each validation reports what one without a cache would, although successes are stored under the final URL |
| StreamValidation.FreshReport | radio-service-rs/src/stream_validation.rs:120-160 | without rows, a report lists in order exactly the stations whose probe found a stream, each at the URL it was found at, as HLS if it was or was found to be, otherwise unchanged; the others are dropped and counted by their probes' reasons |
| StreamValidation.RunReportsProbes | radio-service-rs/src/stream_validation.rs:44-118 | over every run from an empty table each report says that, if signatures tell URLs apart or redirects agree |
| StreamValidation.RememberedExactly | radio-service-rs/src/stream_validation.rs:378-388 | a remembered verdict stands in for a probe if and only if it is no older than its lifetime and has the same signature |
| StreamValidation.StoredExactly | radio-service-rs/src/stream_validation.rs:353-376 | a verdict is stored under the URL it is about, with the probe's time and the lifetime of its kind |
| StreamValidation.FoundUntilExpiry | radio-service-rs/src/stream_validation.rs:236-302 | what is written is found again by whoever wants the URL, until its lifetime has passed |
| StreamValidation.SignatureTells | radio-service-rs/src/stations/mod.rs:17-23 | without bars in the stamps, signatures agree if and only if URLs and stamps do, no stamp and an empty one being alike |
| StreamValidation.BarFreeStampsSeparate | radio-service-rs/src/stations/mod.rs:17-23 | change stamps without the separator make signatures tell URLs apart |
| StreamValidation.AgreeingRedirectsAreTransparent | radio-service-rs/src/stream_validation.rs:120-160 | if streams found through redirects are found at their own URLs, then over every run, whatever the stamps, each validation reports what one without a cache would |
| StreamValidation.MisleadingRun | radio-service-rs/src/stream_validation.rs:353-399 | for any two stations with one signature and different URLs, and a server that serves the second URL only to those it has redirected there, a two-step run in which the cache answers wrongly |
| StreamValidation.TransparentExactly | radio-service-rs/src/stream_validation.rs:353-399 | the cache is transparent over all runs and all probes if and only if signatures tell URLs apart |
| StreamValidation.ValidationOnlyRewritesStreams | radio-service-rs/src/stream_validation.rs:390-399 | validation drops stations and rewrites stream URL and HLS flag, in order, and nothing else |
| StationTables.StationStorage.InsertStations | radio-service-rs/src/stations/storage.rs:200-278 | the chunk loop is the recursive insert, failing on a chunk that names one row twice |
| StationTables.ChunksAreOneUpsert | radio-service-rs/src/stations/storage.rs:200-278 | an insert in chunks of 500 that goes through is one upsert of everything |
| StationTables.InsertSucceedsExactly | radio-service-rs/src/stations/storage.rs:200-278 | the insert goes through if and only if no chunk repeats an id |
| StationTables.InsertedRows | radio-service-rs/src/stations/storage.rs:200-278 | after an insert that goes through, the row of each inserted id is its last station, and other rows are as before |
| StationTables.ListsEverything | radio-service-rs/src/stations/storage.rs:74-115 | when the ids written were distinct, what is read back by name is every station written, once |
| StationTables.RowReadsBack | radio-service-rs/src/stations/storage.rs:290-332 | a row is read back as the station written, with blanks around languages and tags trimmed and empty ones gone |
| StationTables.ListsWhatWasWritten | radio-service-rs/src/stations/storage.rs:290-332 | clean stations with distinct ids come back as they were written, each once |
| StationTables.HeaderRoundTrip | radio-service-rs/src/stations/storage.rs:56-72 | a header brings back all of its payload but the stations |
| StationTables.StationStorage.PersistPayload | radio-service-rs/src/stations/storage.rs:117-198 | the transaction commits the tables of the atomic specification or leaves them alone, with its errors, and keeps the table invariant |
| StationTables.PersistConsistent | radio-service-rs/src/stations/storage.rs:117-198 | on consistent tables every transaction, whatever its payload, leaves exactly the rows of the new payload or the old ones; it succeeds if and only if the fingerprint is current, or there is a schema version and no chunk repeats an id |
| StationTables.PersistedIsCurrent | radio-service-rs/src/stations/storage.rs:117-198 | changed or not, after a persist the current fingerprint is the payload's and the stamp is the commit time |
| StationTables.StationStorage.SelectStations | radio-service-rs/src/stations/storage.rs:74-115 | the stations SELECT returns every row of the payload once, by name, ties in any order |
| StationTables.StationStorage.LoadLatestPayload | radio-service-rs/src/stations/storage.rs:35-115 | with any transactions between its two SELECTs, a load yields a written payload with the stations kept for it, by name, or with none; clean stations with distinct ids come back as they were written |
| StationTables.SelectsFromExact | radio-service-rs/src/stations/storage.rs:74-103 | on consistent tables, selecting a payload id gives the last station of each of its ids by name if it is current, else nothing |
| StationTables.LogsOnlyGrow | radio-service-rs/src/stations/storage.rs:117-198 | over every run a payload id keeps its meaning |
| StationTables.NoTornReads | radio-service-rs/migrations/001_create_station_tables.sql:18-20 | for every run of transactions, whatever their payloads, and every pair of read points, the stations read are all those kept for the header's payload id, or none |
| PersistedPayload.Sanitize | radio-service-rs/src/stations/persisted.rs:64-116 | the loop computes the sanitised payload, and the `changed` flag is set if and only if something other than the total differs |
| PersistedPayload.SanitizedStems | radio-service-rs/src/stations/persisted.rs:12-62 | each sanitised station stems from an original one |
| PersistedPayload.SanitizedDistinct | radio-service-rs/src/stations/persisted.rs:64-116 | sanitising keeps ids distinct |
| PersistedPayload.EmptyIsRejected | radio-service-rs/src/stations/persisted.rs:85-87 | an empty read is never served |
| PersistedPayload.SanitizedExactly | radio-service-rs/src/stations/persisted.rs:12-62 | a station is kept if and only if it is online and its stream acceptable; only its URLs and lists are sanitised |
| PersistedPayload.PayloadExactly | radio-service-rs/src/stations/persisted.rs:64-116 | what a sanitised payload is, field by field |
| PersistedPayload.SanitizeSettles | radio-service-rs/src/stations/persisted.rs:64-116 | when URL sanitisers leave alone what they let through, sanitising twice is sanitising once |
| StationIndex.AddStation | radio-service-rs/src/stations/processed.rs:31-85 | the body of the indexing loop extends every table by one station's view |
| StationIndex.Build | radio-service-rs/src/stations/processed.rs:22-105 | whatever the iteration order of its hash maps, `build` returns one index, a function of the stations' ids, names, countries, codes, languages and tags |
| StationIndex.SortedNamesUnique | radio-service-rs/src/stations/processed.rs:95-97 | the country list does not depend on iteration order |
| StationIndex.GenreListUnique | radio-service-rs/src/stations/processed.rs:87-93 | the genre list does not depend on the hash map's iteration order |
| StationIndex.GenreCountExact | radio-service-rs/src/stations/processed.rs:56-71 | a genre is counted as often as its index list is long |
| StationIndex.GenresLabelled | radio-service-rs/src/stations/processed.rs:56-71 | every label is a tag that yields its token, counted at least once |
| StationIndex.GenresRanked | radio-service-rs/src/stations/processed.rs:87-93 | the genre list shows the labels most frequent first, then by label, at most two hundred |
| StationIndex.CountriesListed | radio-service-rs/src/stations/processed.rs:33-46 | the country list holds exactly the trimmed country names, in order |
| StationIndex.IndexOfExact | radio-service-rs/src/stations/processed.rs:31-71 | a token is indexed if and only if some station yields it, and its list is its positions |
| StationIndex.PositionsExact | radio-service-rs/src/stations/processed.rs:31-71 | positions come in order, and each as often as its station yields the token |
| StationIndex.IdIndexExact | radio-service-rs/src/stations/processed.rs:125-127 | the id index finds the last station with the id, if and only if there is one |
| StationQuery.RetainCommon | radio-service-rs/src/stations/processed.rs:150-165 | the loop with its early exit keeps of the first list exactly what all lists contain |
| StationQuery.IntersectLists | radio-service-rs/src/stations/processed.rs:150-165 | the result is the first shortest list restricted to the common elements, or every position when there are no lists |
| StationQuery.IntersectionExact | radio-service-rs/src/stations/processed.rs:150-165 | the intersection is in order and in range, contains what all lists contain, and repeats what the shortest list repeats |
| StationQuery.SearchMatches | radio-service-rs/src/stations/processed.rs:129-133 | the search retains exactly the positions whose search text contains the lower-cased needle |
| StationQuery.RetainFiltered | radio-service-rs/src/http.rs:504-511 | the filter loop keeps exactly the positions in range whose stations match the filters |
| StationQuery.CandidatesCover | radio-service-rs/src/http.rs:468-497 | every candidate list contains every matching station, and a missing token means that none matches |
| StationQuery.IndexRefinesScan | radio-service-rs/src/http.rs:461-622 | the selected positions are in order, in range, as a set those a linear scan selects, repeated as the shortest candidate list repeats them; the early return agrees with the general path |
| StationQuery.FiltersSelect | radio-service-rs/src/http.rs:577-622 | without a search, a position is selected if and only if its station has the country by name or code, the language, the tag and the genre asked for, ignoring ASCII case |
| StationQuery.SearchFinds | radio-service-rs/src/stations/processed.rs:129-133 | a station passes a search if the needle is a slice of its lower-cased name, country, or a tag or language; and only then when the needle has no space |
| StationQuery.SearchSelects | radio-service-rs/src/http.rs:461-622 | a query with a search selects every station that meets its filters and mentions the needle; nothing else when the needle has no space |
| StationQuery.SelectedIsScanExactly | radio-service-rs/src/http.rs:461-622 | the selection is the scan's very sequence if and only if the shortest candidate list names each match once |
| StationQuery.SelectedIsScan | radio-service-rs/src/http.rs:461-622 | without stations that yield a token twice, selecting through the index is scanning |
| StationQuery.RepeatedTagIsRepeated | radio-service-rs/src/stations/processed.rs:56-71 | a station that carries a tag twice is selected twice |
| StationQuery.SelectPositions | radio-service-rs/src/http.rs:468-511 | the candidate lists, intersection, search and filter loops compute the selection, with `None` for the early returns |
| StationQuery.ProjectStations | radio-service-rs/src/http.rs:461-575 | the response holds the requested page of the selection, projected, with its counts and what it repeats of query, payload and settings |
| StationPaging.Normalized | radio-service-rs/src/http.rs:1538-1620 | the query is accepted if and only if every parameter is acceptable, and asks for what the parameters say, in normal form |
| StationPaging.TakeNumbers | radio-service-rs/src/http.rs:1557-1593 | limit, offset and page are parsed, clamped and combined, or reported |
| StationPaging.TakeTexts | radio-service-rs/src/http.rs:1595-1620 | filters and search are trimmed, bounded and lower-cased, or reported |
| StationPaging.LimitOfNumber | radio-service-rs/src/http.rs:1561-1577 | a number of one to five digits is the page size, up to the maximum; zero and longer numbers are refused |
| StationPaging.LimitOfOthers | radio-service-rs/src/http.rs:1557-1577 | nothing is the default, `all` the maximum, anything else refused |
| StationPaging.RequestedExactly | radio-service-rs/src/http.rs:1561-1577 | the response repeats the number asked for, unclamped, or `all` |
| StationPaging.OffsetWins | radio-service-rs/src/http.rs:1579-1587 | a given offset wins over a page |
| StationPaging.TextExactly | radio-service-rs/src/http.rs:1658-1719 | a text is trimmed and lower-cased, blanks are none, and too long a text is refused |
| StationPaging.PageIsEchoed | radio-service-rs/src/http.rs:1538-1620 | a page asked for by number without an offset is echoed as that page |
| StationPaging.OffsetsFit | radio-service-rs/src/http.rs:1508-1620 | with a maximum page size of at most the word range over a million, neither the offset nor the end of a page overflows |
| StationPaging.OffsetRoundTrip | radio-service-rs/src/http.rs:1669-1686 | a printed offset is read back if it is at most 999,999, and rejected otherwise |
| StationPaging.FollowFrom | dioxus-app/src/radio.rs:491-507 | a walk from any page start is complete if and only if the offset of its last page can be asked for; otherwise it is a proper part |
| StationPaging.PagesAreComplete | dioxus-app/src/radio.rs:491-507 | following the pages from the start gives every selected position once, in order, in the least number of pages, if and only if the last page starts at or below 999,999; else a proper part in fewer pages |
| StationPaging.PagerExactly | dioxus-app/src/radio.rs:491-507 | with the pager's own page size, every match is delivered if and only if there are at most a million |
| StationPaging.LongCatalogueIsCutOff | dioxus-app/src/radio.rs:491-507 | a million and one stations with distinct ids, asked for without filters, are not all delivered |
| IndexCache.FetchedIsGenuine | radio-service-rs/src/radio_browser.rs:176-186 | a fetched payload is genuine: its fingerprint is that of a fetched list its stations derive from |
| IndexCache.ValidatedIsGenuine | radio-service-rs/src/refresh.rs:15-28 | validation leaves a payload genuine under its stale fingerprint |
| IndexCache.LoadedIsGenuine | radio-service-rs/src/app_state.rs:346-351 | reading back and sanitising leaves it genuine |
| IndexCache.KeyDeterminesViews | radio-service-rs/src/stations/models.rs:56-68 | genuine payloads with one cache key show the index the same stations |
| IndexCache.CachedIndexIsRight | radio-service-rs/src/app_state.rs:311-336 | hit or miss, `ensure_processed` returns the index `build` would return on the given stations, and the cache stays sound |
| IndexCache.SecondIsHit | radio-service-rs/src/app_state.rs:311-336 | the next request for the same stations is served from the cache |
| IndexCache.KeyAloneIsNotEnough | radio-service-rs/src/app_state.rs:311-336 | without that derivation the key does not determine the index |
| Catalogue.NextOk | radio-service-rs/src/app_state.rs:338-589 | every step of every instance keeps the cluster invariant |
| Catalogue.RunOk | radio-service-rs/src/app_state.rs:338-589 | the invariant holds in every reachable state |
| Catalogue.CommitOk | radio-service-rs/src/app_state.rs:420-446 | a commit moves the stamp past every marker and is made by the one instance past the lock |
| Catalogue.AnswersAreIndexed | radio-service-rs/src/app_state.rs:338-390 | over every run, each answer is a genuine payload with exactly the index `build` gives it |
| Catalogue.MemoryAnswersAreFresh | radio-service-rs/src/app_state.rs:338-344 | the memory entry a synchronised request may be answered from has the fingerprint that was current when it synchronised |
| Catalogue.LoadedAnswersAreWhole | radio-service-rs/src/app_state.rs:346-377 | an answer from the database is the payload one commit wrote, its very stations by name, sanitised, whatever was committed during the load |
| Catalogue.RefreshKeepsItsEntry | radio-service-rs/src/app_state.rs:420-446 | a refresh caches what is current, and its own commit does not make the next request drop it |
| Catalogue.CachesAreCoherent | radio-service-rs/src/config.rs:391-434 | for all settings the service starts with and every number of instances, over every run, an entry that looks current between requests is current |
| Catalogue.LockIsHeldExactly | radio-service-rs/src/app_state.rs:420-446 | over every run with a lock key, an instance has the lock if and only if it is between taking it and answering |
| Catalogue.RefreshIsPossible | radio-service-rs/src/app_state.rs:653-698 | from every reachable state in which no instance is past the lock, every idle instance can refresh, commit, answer and be in step with the database, and then none is past the lock again |
| Catalogue.TwoRefreshes | radio-service-rs/src/app_state.rs:653-698 | a run in which two instances refresh and commit one after the other |
| Config.StartsExactly | radio-service-rs/src/config.rs:391-434 | the service starts if and only if the lock key is not blank and every counted setting is above zero |
| Catalogue.IncoherentRun | radio-service-rs/src/config.rs:392-397 | why a blank lock key is refused: were it not, two instances would have a run that ends with a stale entry that looks current |
| Catalogue.CoherentExactly | radio-service-rs/src/app_state.rs:523-541 | apart from the check of the settings, the caches are coherent over every run if and only if there is a lock key, or at most one instance, or no memory cache |
| Catalogue.AppState.constructor | radio-service-rs/src/app_state.rs:222-272 | an instance starts with empty caches and no marker |
| Catalogue.AppState.EnsureCacheStateSync | radio-service-rs/src/app_state.rs:474-498 | a stamp other than the marker becomes the marker and clears both caches |
| Catalogue.AppState.UpdateCacheStateMarker | radio-service-rs/src/app_state.rs:500-504 | the marker is replaced and no cache cleared |
| Catalogue.AppState.StoreInMemory | radio-service-rs/src/app_state.rs:448-459 | the payload is kept until the lifetime has passed, unless the lifetime is zero |
| Catalogue.AppState.GetMemoryCacheEntry | radio-service-rs/src/app_state.rs:506-521 | the entry is returned if and only if it exists and has not expired |
| Catalogue.AppState.EnsureIndex | radio-service-rs/src/app_state.rs:311-336 | the cached index is returned on a hit, else a new one is built and cached |
| Catalogue.AppState.FinishRefresh | radio-service-rs/src/app_state.rs:430-446 | marker, memory and index are updated as one step of the cluster |
| RateLimiter.RateLimiter.constructor | radio-service-rs/src/app_state.rs:73-79 | a limit of zero is read as one |
| RateLimiter.RateLimiter.Check | radio-service-rs/src/app_state.rs:81-143 | over every run, a request is admitted if and only if fewer than the limit of earlier admitted requests of its key are within the window; remaining count and reset instant are exact; buckets hold just what still counts, and none is empty |
| RateLimiter.PopStale | radio-service-rs/src/app_state.rs:88-94 | popping from the front removes exactly the stale times |
| RateLimiter.Sweep | radio-service-rs/src/app_state.rs:85-101 | every bucket loses its stale times and empty buckets go |
| RateLimiter.NoIntervalExceedsLimit | radio-service-rs/src/app_state.rs:81-143 | no closed interval of window length holds more than the limit of admissions of a key |
| RateLimiter.RecentAtMostLimit | radio-service-rs/src/app_state.rs:81-143 | at any time at most the limit of admissions are within the window |
| RateLimiter.KeysAreIndependent | radio-service-rs/src/app_state.rs:81-143 | requests of other keys change no decision |
| RateLimiter.DeniedUntilReset | radio-service-rs/src/app_state.rs:112-129 | after a denial every request of the key up to the reported reset instant is denied, whatever else arrives |
| RateLimiter.AdmittedAfterReset | radio-service-rs/src/app_state.rs:112-129 | the first request of the key after that instant is admitted |
| GatewayCache.MemoryCache.constructor | api-gateway-service/src/cache.rs:62-67 | at least ten entries are allowed |
| GatewayCache.MemoryCache.Prune | api-gateway-service/src/cache.rs:69-80 | the loop ends with room for one entry, having dropped the expired ones and evicted only entries that expire no later than those kept |
| GatewayCache.MemoryCache.Get | api-gateway-service/src/cache.rs:82-86 | a lookup prunes and returns what is kept under the key |
| GatewayCache.MemoryCache.Set | api-gateway-service/src/cache.rs:88-98 | a write prunes and then stores the value with its expiry |
| GatewayCache.PruneOk | api-gateway-service/src/cache.rs:69-80 | pruning keeps the run invariant: a missing live key has been displaced by enough rivals |
| GatewayCache.RunOk | api-gateway-service/src/cache.rs:61-99 | the invariant holds over every run |
| GatewayCache.LookupGuarantee | api-gateway-service/src/cache.rs:61-99 | with one lifetime, the bound is never exceeded, a hit is the last unexpired write, a live key hits with at most `max_entries - 2` rivals written no earlier, and misses with `max_entries - 1` written later |
| GatewayCache.LookupExactly | api-gateway-service/src/cache.rs:61-99 | when no two keys were last written at one instant, a lookup hits if and only if the key is live and fewer than `max_entries - 1` rivals are |
| ContactLimits.ContactStore.CheckRateLimit | api-gateway-service/src/contact.rs:379-426 | the upsert counts within the open window or starts one, and lets a call through while the count is within the limit; a store that does not answer lets everything through |
| ContactLimits.ContactStore.CheckDuplicate | api-gateway-service/src/contact.rs:428-462 | the conditional upsert claims a fingerprint that is not held and refuses one that is; a store that does not answer refuses nothing |
| ContactLimits.WindowHoldsLimit | api-gateway-service/src/contact.rs:379-426 | each window lets through the lesser of its calls and the limit |
| ContactLimits.TwoWindowsBound | api-gateway-service/src/contact.rs:379-426 | no half-open interval of window length sees more than `2 * limit - 1` of a client's calls let through |
| ContactLimits.BoundIsAttained | api-gateway-service/src/contact.rs:379-426 | for every limit and every window of two ticks or more, a run attains that bound |
| ContactLimits.ClaimsAreApart | api-gateway-service/src/contact.rs:428-462 | a submission goes through if and only if the last accepted one with its fingerprint is a window old, so accepted ones are that far apart |
| CsrfProof.DecodeEncode | api-gateway-service/src/session.rs:643-687 | hexadecimal decoding inverts encoding |
| CsrfProof.RoundTripExactly | api-gateway-service/src/session.rs:643-687 | verifying a built proof returns its nonce and expiry if and only if the nonce has no dot |
| CsrfProof.PayloadExactly | api-gateway-service/src/session.rs:643-659 | MAC payloads agree if and only if nonces do and expiries do, all non-positive ones counting as one |
| CsrfProof.MacDeterminesResult | api-gateway-service/src/session.rs:661-687 | accepted proofs checked against one MAC payload give one result, whatever form they have |
| CsrfProof.AcceptedExactly | api-gateway-service/src/session.rs:661-687 | a proof is accepted if and only if it is of version 1, its expiry a number, and its fourth field the MAC of its nonce and expiry in hexadecimal |
| CsrfProof.AcceptedIsSigned | api-gateway-service/src/session.rs:672-681 | an accepted proof carries that MAC, and yields its own fields |
| CsrfProof.OtherMacRefuses | api-gateway-service/src/session.rs:672-681 | a proof accepted under one MAC is refused under any that differs on what it signs |
| CsrfProof.EncodeDecode | api-gateway-service/src/session.rs:672-681 | what decodes is the hexadecimal form of the result, in either case |
| Session.SessionManager.IssueSession | api-gateway-service/src/session.rs:89-111 | a new session joins the history with a proof that vouches for its nonce |
| Session.SessionManager.GetSession | api-gateway-service/src/session.rs:405-416 | a session past its expiry is removed on sight, any other returned |
| Session.SessionManager.LoadByToken | api-gateway-service/src/session.rs:561-573 | exactly an unexpired record is found by token, and it is vouched for; an expired one goes, with its proof |
| Session.SessionManager.LoadByProof | api-gateway-service/src/session.rs:575-585 | likewise by proof |
| Session.SessionManager.Conclude | api-gateway-service/src/session.rs:242-298 | behind the expiry check, a request without a verified proof is accepted if and only if its method is safe |
| Session.SessionManager.LateCheck | api-gateway-service/src/session.rs:242-278 | what passes the late check carries a proof that verifies and a token equal to its nonce |
| Session.SessionManager.ValidateUnverified | api-gateway-service/src/session.rs:185-298 | without a proof that verifies, the status is decided by the expiry the request is held to and by its method |
| Session.SessionManager.ValidateSession | api-gateway-service/src/session.rs:113-298 | for every request the branches give exactly the status of the short rule on the whole history, the history stays ruled, and an accepted request is handed a proof that vouches for its nonce |
| Session.DeadlineIsLastTouch | api-gateway-service/src/session.rs:89-298 | a session's deadline is its lifetime after the last issue or acceptance, if there was one |
| Session.LiveByDeadline | api-gateway-service/src/session.rs:405-429 | a session lives at an instant if and only if that is within its lifetime of its last touch |
| Session.UnsafeAcceptedExactly | api-gateway-service/src/session.rs:113-298 | over every run, an unsafe request is accepted if and only if its session lives, its proof verifies and its token is absent or the proof's nonce |
| Session.AcceptedCarriesMac | api-gateway-service/src/session.rs:113-298 | over every run, an accepted unsafe request carries the MAC of its nonce and expiry, and its token, if it has one, is that nonce |
| Session.StatusMeans | api-gateway-service/src/session.rs:113-298 | 401 if and only if there is no live session, 403 if and only if there is one and the request shows the wrong token for its proof or lacks a proof it needs |
| Session.SafeAcceptedExactly | api-gateway-service/src/session.rs:113-298 | over every run, a safe request is accepted if and only if its session lives and it shows a proof, or no proof of it verifies and the expiry it is held to has not passed when it is checked |
| Session.HandedProofWorks | api-gateway-service/src/session.rs:113-298 | a client that sends back what it was handed is accepted while its session lives |
| CacheKey.DecodeEncode | api-gateway-service/src/routing.rs:182-191 | percent-encoding loses nothing |
| CacheKey.SerializedInjective | api-gateway-service/src/routing.rs:182-191 | the serialised form determines the parameter list |
| CacheKey.SortKeepsNamed | api-gateway-service/src/routing.rs:181 | the stable sort keeps each name's values in order |
| CacheKey.SortedDetermined | api-gateway-service/src/routing.rs:181 | a list sorted by name is determined by what each name carries |
| CacheKey.CacheKeyIsCanonical | api-gateway-service/src/routing.rs:167-192 | two queries for one target share a key if and only if every name carries the same values in the same order |
| CacheKey.KeysTellApart | api-gateway-service/src/routing.rs:167-192 | when services have no colon and paths no question mark, any two keys agree if and only if service, path and parameters do; no query is an empty query |
| Favorites.DedupeEntries | radio-service-rs/src/favorites.rs:168-190 | the loop keeps the first six distinct acceptable ids, in order |
| Favorites.DedupedIsNormal | radio-service-rs/src/favorites.rs:168-190 | whatever the input, the result is short, distinct and acceptable |
| Favorites.DedupedOfTidy | radio-service-rs/src/favorites.rs:168-190 | a tidy list is only cut off behind its sixth entry |
| Favorites.SanitizedIdIsFixed | radio-service-rs/src/favorites.rs:200-213 | sanitising an id twice is sanitising it once |
| Favorites.LookupIsById | radio-service-rs/src/http.rs:703-712 | with distinct ids, looking a station up through the index finds the station with the id, if there is one |
| Favorites.BuildResponse | radio-service-rs/src/http.rs:624-661 | entries are refreshed from live stations, those with nothing to show dropped, and the list is to be stored if and only if a snapshot changed |
| Favorites.RefreshAllExactly | radio-service-rs/src/http.rs:624-661 | refreshing keeps in order the entries with a live station or a snapshot; the live station replaces the snapshot, and without one the snapshot stays |
| Favorites.IdExactly | radio-service-rs/src/favorites.rs:200-213 | an id is its trimmed text, of three to 128 permitted characters |
| Favorites.PlaceEntry | radio-service-rs/src/http.rs:1176-1191 | the entry goes in at the slot or behind the last, and is refused only without a place |
| Favorites.Upsert | radio-service-rs/src/http.rs:1115-1203 | a put leaves the old list without the id, with it at `min(slot, length)`, cut to six and refreshed, or one of three errors |
| Favorites.PutIsNormal | radio-service-rs/src/http.rs:1115-1203 | a put leaves a normal list |
| Favorites.PutIsKept | radio-service-rs/src/http.rs:1115-1203 | what was put is in the list, also when the last entry had to go |
| Favorites.ConflictExactly | radio-service-rs/src/http.rs:1176-1191 | a put conflicts if and only if it names no slot and six other favourites are stored |
| FavoritesJson.SummaryRoundTrip | radio-service-rs/src/favorites.rs:84-106 | a station snapshot is decoded as it was encoded |
| FavoritesJson.EntryRoundTrip | radio-service-rs/src/favorites.rs:107-127 | so is an entry |
| FavoritesJson.ReadsBackWhatWasWritten | radio-service-rs/src/favorites.rs:129-190 | a written list reads back unchanged through the recursive normaliser and the deduper |
| FavoritesJson.AnyJsonReadsNormal | radio-service-rs/src/favorites.rs:129-190 | whatever JSON is stored, reading it gives a normal list |
| FavoritesJson.OlderFormsRead | radio-service-rs/src/favorites.rs:129-162 | bare ids are read as favourites saved now; lists are found under `entries`, else `items`, at any depth; anything else is none |
| FavoritesJson.FavoritesStore.Read | radio-service-rs/src/favorites.rs:23-40 | an unexpired row gives the list last written, any other the empty list |
| FavoritesJson.FavoritesStore.Write | radio-service-rs/src/favorites.rs:42-64 | the list is stored for thirty days |
| FavoritesJson.FavoritesStore.RefreshTtl | radio-service-rs/src/favorites.rs:66-82 | an unexpired row is prolonged and its contents kept |
| FavoritesJson.FavoritesStore.Get | radio-service-rs/src/http.rs:1052-1100 | a get shows the refreshed list and stores it only if a snapshot changed |
| FavoritesJson.FavoritesStore.Put | radio-service-rs/src/http.rs:1115-1203 | over every run the stored list stays normal; a put changes it as specified or leaves it alone with its error |
| FavoritesJson.FavoritesStore.Delete | radio-service-rs/src/http.rs:1205-1266 | a delete leaves the refreshed list without the id, and rewrites it only if something changed |
| SandboxPaths.NormalizeVirtual | terminal-service-rs/src/sandbox.rs:66-92 | the stack loop computes the walk over the segments, with its two errors |
| SandboxPaths.NormalizeIdempotent | terminal-service-rs/src/sandbox.rs:66-92 | normalising yields canonical paths, and normalising again changes nothing |
| SandboxPaths.CanonicalExactly | terminal-service-rs/src/sandbox.rs:66-92 | a path is canonical if and only if it normalises to itself |
| SandboxPaths.ResolveWalksOn | terminal-service-rs/src/sandbox.rs:102-117 | resolving relative input walks on from where the current path stands |
| SandboxPaths.UpUndoesDown | terminal-service-rs/src/sandbox.rs:66-117 | going into a directory adds its name, going up takes the last one off, and above the root there is only the root |
| SandboxPaths.ResolveComposes | terminal-service-rs/src/sandbox.rs:102-117 | from any directory, resolving `a/b` is resolving `a` and then `b`, errors included |
| SandboxPaths.RealPathStaysInside | terminal-service-rs/src/sandbox.rs:119-126 | the real path is the root's components followed by the canonical parts, so the escape check never fires |
| SandboxPaths.RealPathIdentifies | terminal-service-rs/src/sandbox.rs:119-126 | two virtual paths reach one place if and only if they normalise alike |
| SandboxPaths.DisplayExpands | terminal-service-rs/src/sandbox.rs:128-138 | a displayed path stands for the path it was made from, for any home |
| SandboxPaths.DisplayIdentifies | terminal-service-rs/src/sandbox.rs:128-138 | two paths are displayed alike if and only if they normalise alike |
| SandboxPaths.TildeExactly | terminal-service-rs/src/sandbox.rs:128-138 | a path is shown with a tilde if and only if it is the home directory or below it, component by component |

## Left out

- Catalogue.CachesAreCoherent: is about one request in flight per instance and strictly increasing commit stamps; with two in flight, a slow reader can overwrite a newer memory entry of its own instance.
- Catalogue.RunOk: takes every fetch to deliver distinct newline-free ids, which `RadioBrowser.FetchedExactly` shows is exactly what the service takes on trust; a commit that the database refuses ends the request.
- GatewayCache.LookupGuarantee: is about one lifetime for all writes, which is what the only caller uses (api-gateway-service/src/proxy.rs:229); entries with different lifetimes are not ranked.
- StreamValidation.CacheIsTransparent: takes the probe to be a fixed function of the URL; a stream that comes and goes is not modelled, nor is the HTTP exchange behind the probe.
- Session.SessionManager.GetSession: the in-memory stores are modelled; the Postgres stores, which drop a session at its expiry instant rather than after it, are not, and neither are store errors or the periodic cleanup.
- ContactLimits.ContactStore.CheckRateLimit: the 32-bit range of the SQL count is not modelled. The column is an `INTEGER` (radio-service-rs/migrations/005_create_gateway_postgres_state.sql:25) and the service reads the returned count as a 64-bit integer (api-gateway-service/src/contact.rs:385). By the type rules of sqlx such a value may fail to decode; every call would then take the branch of a store that does not answer, which is modelled and lets everything through. How the driver decodes is not part of this model.
- RateLimiter.RateLimiter.Check: reports the reset as a clock instant; its conversion to epoch seconds is left out.
- SandboxPaths.RealPathStaysInside: is about path components; symbolic links and an empty root are left out.
- StationPaging.Normalized: counts characters the way the model's strings do, and leaves out the `force_refresh` flag.
- StationTables.StationStorage.PersistPayload: leaves out the 32-bit range of stored numbers and the time stamps of the payload row beyond `updated_at`.
- The rotation over upstream hosts, the clicks reported to the upstream, and URL sanitising itself: one-branch code, or code whose meaning lies in the `url` crate.
- Playlist rewriting, stream proxying, CORS, header copying, IP block lists, Turnstile and mail: plumbing or finite checks.
- HTTP serving, logging, metrics, configuration parsing and shutdown: input and output.
- `radio-service-rs/src/cache` and `api-gateway-service/src/redis_client.rs`: neither is part of its crate.
- `dioxus-app` apart from the pager's next-offset rule: user interface.
- `decode_until_stable` and target routing of the gateway: prefix tests that would only add easy members.
