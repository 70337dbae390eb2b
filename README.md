# aonbas2srv core: caches, tram API client, stop parsing, one-time payloads

This project models the core of the aonbas2srv backend in Dafny. The backend serves
Barcelona tram data (TRAM operator open-data API and GTFS Realtime feeds) and proves
properties of that model. The modelled parts are:

- **`CacheService`** (`cache_service.dfy`, module `Cache`):
  - a string cache of at most ten entries in insertion order; the eldest entry is
    evicted when an eleventh key arrives;
  - per-entry time to live in epoch milliseconds, and a one-year default;
  - `put(key, null)` as removal, and the tram access token under its fixed key;
  - an unbounded feed cache whose expiry is counted in whole epoch seconds.

  The class `CacheService` holds both caches as fields. Its methods are proved to act
  as the specification functions `Lookup`, `Store`, `Remove` and `LookupFeed` do on the
  cache as a value (`ApiMap`). The properties (bounded size, read-back before expiry,
  eviction of the oldest, the last ten of a run of fresh keys) are lemmas about those
  functions.
- **`TramApiClient`** (`fetcher.dfy`, `catalog.dfy`, `resolver.dfy`, `feed_merge.dfy`,
  `tram_api_client.dfy`):
  - the retry loop of one HTTP request (three attempts, 500 ms then 1000 ms of backoff,
    interrupt handling);
  - the paging of the stop listings of networks "1" and "2";
  - `normalizeToArray`;
  - de-duplication of stops by upper-cased gtfs code, else by id, first seen wins;
  - the four-stage `getStop` resolver;
  - the merge of the trip-update and vehicle-position feeds, cached for 30 seconds;
  - the set of static stop identifiers and the stop ids of the real-time feed missing
    from it;
  - the debug list of gtfs codes and its comma-joined sample.

  The loops of the source are `method`s with loop invariants, proved equal to
  specification functions. The class `TramApiClient` is proved to act on the shared
  `CacheService` as those functions say.
- **`Stop`** (`stop.dfy`, module `StopDto`):
  - the tolerant JSON reader with its key synonyms (`getString`, `getInt`,
    `getDouble`, `extractDescription`);
  - the fallback to the JSON library's plain binding when the tolerant reader throws;
  - `toJson`, and the round trip of a stop through `toJson` then `fromJson`.
- **`OtpService`** (`otp_service.dfy`, module `OtpStore`): one-time payloads stored as
  JSON under `"otp:" + id` with the default time to live, read back by id and removed
  by id.

Supporting modules:

- `Wrappers`: `Option`, `Result`, and `Try` for a call that may throw.
- `Text`: Java's `trim`, `toUpperCase`, `equalsIgnoreCase`, `contains`,
  `Integer.parseInt`, `String.valueOf(int)` and the regular-expression sanitiser, on
  ASCII.
- `JsonModel`: the JSON tree, Gson's `getAsString`/`getAsInt`, and the serialiser.
- `GtfsRealtime`: the feed message fields the core reads.

The network is an `Upstream` value. It says what the n-th attempt at a URL gives and
whether the sleep after it is interrupted. The JSON text parser is a `Parser`
parameter. The clock is a `now` parameter in epoch milliseconds.

## Model

| member | source | states |
|---|---|---|
| Cache.NewApiEntry | src/main/java/dev/x341/aonbas2srv/services/CacheService.java:179-191 | the entry keeps the value and is expired at every time from `now + ttlSeconds * 1000` on and at no earlier time; in particular it is live when created exactly when the time to live is positive |
| Cache.NewGtfsEntry | src/main/java/dev/x341/aonbas2srv/services/CacheService.java:134-146 | a feed entry keeps the feed and is expired at time t exactly when t's epoch second reaches the creation second plus the time to live |
| Cache.Remove | src/main/java/dev/x341/aonbas2srv/services/CacheService.java:62-63 | removal keeps the cache bounded and leaves the key absent |
| Cache.LookupAbsent | src/main/java/dev/x341/aonbas2srv/services/CacheService.java:55-67 | reading a key the cache does not hold gives null and changes nothing |
| Cache.LookupSemantics | src/main/java/dev/x341/aonbas2srv/services/CacheService.java:55-67 | `get` gives a value exactly when a live entry is there, gives that entry's value, removes the key read when its entry has expired and changes nothing otherwise |
| Cache.InsertFresh | src/main/java/dev/x341/aonbas2srv/services/CacheService.java:28-44 | adding a new key appends it to the insertion order and keeps the last ten keys |
| Cache.PutKeepsBounded | src/main/java/dev/x341/aonbas2srv/services/CacheService.java:28-44 | every put leaves at most ten keys, each listed once in the eviction order |
| Cache.GetAfterPut | src/main/java/dev/x341/aonbas2srv/services/CacheService.java:77-85 | a value put is read back unchanged, with the cache unchanged, at any time before its expiry |
| Cache.ReadAfterExpiryRemoves | src/main/java/dev/x341/aonbas2srv/services/CacheService.java:55-67 | a value put reads as null at any time from its expiry on, and that read removes exactly its key |
| Cache.ZeroTtlReadsAbsent | src/main/java/dev/x341/aonbas2srv/services/CacheService.java:179-191 | with a time to live of zero or less, the value is absent from the moment it is put, and reading it removes it |
| Cache.PutNullRemoves | src/main/java/dev/x341/aonbas2srv/services/CacheService.java:77-82 | `put(key, null)` makes the key unreadable, removes exactly that key, and keeps the order of the others |
| Cache.PutNewKeyWhenFullEvictsOldest | src/main/java/dev/x341/aonbas2srv/services/CacheService.java:28-44 | on a full cache, a new key evicts exactly the eldest key and is appended |
| Cache.PutExistingKeepsOrder | src/main/java/dev/x341/aonbas2srv/services/CacheService.java:28-44 | overwriting a cached key keeps its place in the eviction order (insertion order, not access order) |
| Cache.PutAllFreshKeepsLastTen | src/main/java/dev/x341/aonbas2srv/services/CacheService.java:28-44 | a run of puts of keys never held leaves exactly the ten most recently inserted keys, in order |
| Cache.ElevenFreshKeysEvictTheFirst | src/main/java/dev/x341/aonbas2srv/services/CacheService.java:16 | after eleven fresh keys the first one can no longer be read |
| Cache.FeedReadBackUntilExpiry | src/main/java/dev/x341/aonbas2srv/services/CacheService.java:153-176 | a feed put is read back, with the cache unchanged, until its epoch second of expiry; from then on it is absent and the read removes its key |
| Cache.CacheService.constructor | src/main/java/dev/x341/aonbas2srv/services/CacheService.java:27-47 | both caches start empty |
| Cache.CacheService.RemoveEntry | src/main/java/dev/x341/aonbas2srv/services/CacheService.java:62 | the string cache after the removal is `Remove` of the one before; feeds untouched |
| Cache.CacheService.Get | src/main/java/dev/x341/aonbas2srv/services/CacheService.java:55-67 | value and new state are those of `Lookup`; feeds untouched |
| Cache.CacheService.Put | src/main/java/dev/x341/aonbas2srv/services/CacheService.java:77-85 | the new string cache is `Store` of the old one (removal for null, insertion with eviction otherwise) |
| Cache.CacheService.PutDefault | src/main/java/dev/x341/aonbas2srv/services/CacheService.java:94-96 | `put(key, value)` is `put(key, value, 31536000)` |
| Cache.CacheService.PutTramAccessToken | src/main/java/dev/x341/aonbas2srv/services/CacheService.java:105-114 | null removes the token key; a token is stored under it for a year |
| Cache.CacheService.GetTramAccessToken | src/main/java/dev/x341/aonbas2srv/services/CacheService.java:121-124 | the token is what `get` of the token key gives |
| Cache.CacheService.Clear | src/main/java/dev/x341/aonbas2srv/services/CacheService.java:128-131 | the string cache is emptied; cached feeds stay |
| Cache.CacheService.GetGtfsRt | src/main/java/dev/x341/aonbas2srv/services/CacheService.java:153-165 | the feed and new feed cache are those of `LookupFeed`; the string cache is untouched |
| Cache.CacheService.PutGtfsRt | src/main/java/dev/x341/aonbas2srv/services/CacheService.java:173-176 | the feed cache gets the new entry under the key and nothing else changes; no capacity bound |
| OtpStore.OtpKeyInjective | src/main/java/dev/x341/aonbas2srv/services/OtpService.java:22 | distinct ids never share a cache key |
| OtpStore.FromJsonToJson | src/main/java/dev/x341/aonbas2srv/dto/OtpDto.java:43-62 | every DTO is bound back to itself from its serialised tree |
| OtpStore.DecodeSerialised | src/main/java/dev/x341/aonbas2srv/dto/OtpDto.java:43-62 | decoding the serialised text gives the DTO back, given a parser that reads the text as the tree it was written from |
| OtpStore.FetchAfterCreate | src/main/java/dev/x341/aonbas2srv/services/OtpService.java:37-66 | an OTP is fetched by its id, equal to the created DTO, at any time within a year of its creation |
| OtpStore.FetchMissing | src/main/java/dev/x341/aonbas2srv/services/OtpService.java:53-59 | without a live entry, fetching gives null |
| OtpStore.DeleteReportsPresence | src/main/java/dev/x341/aonbas2srv/services/OtpService.java:74-81 | removal reports true exactly when a live entry was there; when false, only the expired entry the read dropped is gone |
| OtpStore.FetchAfterDelete | src/main/java/dev/x341/aonbas2srv/services/OtpService.java:74-81 | after a removal that reports true the id is no longer fetched and no other key is touched |
| OtpStore.OtpService.constructor | src/main/java/dev/x341/aonbas2srv/services/OtpService.java:24-27 | the service shares the given cache |
| OtpStore.OtpService.CreateOtp | src/main/java/dev/x341/aonbas2srv/services/OtpService.java:37-45 | the DTO and the new cache are those of `Create`: id, type, payload and the clock, stored under `"otp:" + id` for a year |
| OtpStore.OtpService.GetOtp | src/main/java/dev/x341/aonbas2srv/services/OtpService.java:53-66 | the result and the new cache are those of `Fetch`; unparsable text reads as null |
| OtpStore.OtpService.RemoveOtp | src/main/java/dev/x341/aonbas2srv/services/OtpService.java:74-81 | the result and the new cache are those of `Delete` |
| Fetcher.ExecuteCharacterised | src/main/java/dev/x341/aonbas2srv/services/apiclients/TramApiClient.java:325-343 | attempt by attempt: a response (of any status) is returned exactly when it is the first thing an attempt got; transport failure needs three failed attempts; an interrupt ends at its sleep; the sleeps are 500 then 1000 ms |
| Fetcher.AnyResponseReturnedAtOnce | src/main/java/dev/x341/aonbas2srv/services/apiclients/TramApiClient.java:329-331 | a first-attempt response, successful or not, is returned without sleeping |
| Fetcher.TwoFailuresThenSuccess | src/main/java/dev/x341/aonbas2srv/services/apiclients/TramApiClient.java:325-343 | two transport failures then a response: the response after sleeps of 500 and 1000 ms |
| Fetcher.ExecuteRequest | src/main/java/dev/x341/aonbas2srv/services/apiclients/TramApiClient.java:325-343 | the `while (true)` loop gives the exchange `Execute` specifies |
| Fetcher.Accepted | src/main/java/dev/x341/aonbas2srv/services/apiclients/TramApiClient.java:74-76 | a body is accepted exactly when the response arrived, is successful and has a body; a transport failure passes through |
| Catalog.NormalizeToArray | src/main/java/dev/x341/aonbas2srv/services/apiclients/TramApiClient.java:351-373 | null gives no elements, an array its elements, a primitive itself |
| Catalog.ContainerKeyPreferred | src/main/java/dev/x341/aonbas2srv/services/apiclients/TramApiClient.java:356-360 | the first container key (in the order data, stops, items, results, features) that holds an array decides |
| Catalog.DataBeforeStops | src/main/java/dev/x341/aonbas2srv/services/apiclients/TramApiClient.java:357-359 | `{"stops": a, "data": b}` gives b |
| Catalog.ObjectWithoutArrays | src/main/java/dev/x341/aonbas2srv/services/apiclients/TramApiClient.java:355-368 | an object without array members is taken as the single element |
| Catalog.FirstArrayMemberFallback | src/main/java/dev/x341/aonbas2srv/services/apiclients/TramApiClient.java:363-365 | without a container key, the first array-valued member in object order is taken |
| Catalog.PagesBeforeLastAreFull | src/main/java/dev/x341/aonbas2srv/services/apiclients/TramApiClient.java:66-87 | every page requested before the last came back full |
| Catalog.LastPageEndsRun | src/main/java/dev/x341/aonbas2srv/services/apiclients/TramApiClient.java:66-87 | the last page requested is empty, short or failed, and its failure is the run's |
| Catalog.PagedCount | src/main/java/dev/x341/aonbas2srv/services/apiclients/TramApiClient.java:66-87 | a run holds at least 100 elements per request but the last, plus the last page's; exactly that when pages hold at most 100 |
| Catalog.RequestsPerNetwork | src/main/java/dev/x341/aonbas2srv/services/apiclients/TramApiClient.java:66-87 | against an upstream that honours the page size, a network costs `total / 100 + 1` requests |
| Catalog.CombinedOrder | src/main/java/dev/x341/aonbas2srv/services/apiclients/TramApiClient.java:120-142 | network "1"'s elements then network "2"'s; the first failure is the outcome |
| Catalog.RequestPage | src/main/java/dev/x341/aonbas2srv/services/apiclients/TramApiClient.java:71-80 | one page request: executed, checked, parsed and normalised as `FetchPage` says |
| Catalog.FetchNetwork | src/main/java/dev/x341/aonbas2srv/services/apiclients/TramApiClient.java:68-86 | the paging loop gives what `PagesFrom` specifies |
| Catalog.FetchCombined | src/main/java/dev/x341/aonbas2srv/services/apiclients/TramApiClient.java:66-87 | the loop over the networks gives `Combined` |
| Catalog.DecodeAll | src/main/java/dev/x341/aonbas2srv/services/apiclients/TramApiClient.java:92-93 | each element is decoded with `Stop.fromJson`, position by position, and a decoded entry is null exactly where the element is a JSON null |
| Catalog.DedupFailsOnKeyless | src/main/java/dev/x341/aonbas2srv/services/apiclients/TramApiClient.java:89-101 | de-duplication fails exactly when some non-null stop has no gtfs code and a null id, and then with the unboxing failure |
| Catalog.DedupKept | src/main/java/dev/x341/aonbas2srv/services/apiclients/TramApiClient.java:89-101 | the kept stops are input stops in input order under pairwise distinct keys |
| Catalog.DedupCovers | src/main/java/dev/x341/aonbas2srv/services/apiclients/TramApiClient.java:89-101 | every non-null stop's key is among the kept ones |
| Catalog.DedupEarliest | src/main/java/dev/x341/aonbas2srv/services/apiclients/TramApiClient.java:89-101 | each kept stop is the first of its key: first seen wins |
| Catalog.DedupFailureSticks | src/main/java/dev/x341/aonbas2srv/services/apiclients/TramApiClient.java:89-101 | once the loop has thrown, later stops change nothing |
| Catalog.CaseVariantsCollapse | src/main/java/dev/x341/aonbas2srv/services/apiclients/TramApiClient.java:96-99 | two gtfs codes differing only in case leave one stop, the first |
| Catalog.Deduplicate | src/main/java/dev/x341/aonbas2srv/services/apiclients/TramApiClient.java:89-101 | the loop filling the insertion-ordered map gives `Dedup` of the decoded elements |
| Catalog.CatalogRoundTrip | src/main/java/dev/x341/aonbas2srv/services/apiclients/TramApiClient.java:56-62 | a cached catalogue reads back as the stops it was written from, in order |
| StopDto.GetString | src/main/java/dev/x341/aonbas2srv/dto/Stop.java:72-77 | null exactly when no synonym is present and non-null; otherwise the reading of the first present synonym |
| StopDto.ReadIntIsAsInt | src/main/java/dev/x341/aonbas2srv/dto/Stop.java:82-84 | the `parseInt(getAsString())` retry never rescues a value `getAsInt` rejected |
| StopDto.GetInt | src/main/java/dev/x341/aonbas2srv/dto/Stop.java:79-89 | null exactly when no synonym yields an int; otherwise the first synonym that does (an unreadable one is skipped) |
| StopDto.GetCoordinate | src/main/java/dev/x341/aonbas2srv/dto/Stop.java:91-98 | 0 when no synonym yields a number; otherwise the first synonym that does |
| StopDto.DescriptionThrowsOnlyOnUnreadableLanguage | src/main/java/dev/x341/aonbas2srv/dto/Stop.java:100-111 | the description read throws exactly when it is an object whose first present language entry is not readable as a string |
| StopDto.DescriptionStringKept | src/main/java/dev/x341/aonbas2srv/dto/Stop.java:103 | a string description is kept verbatim |
| StopDto.DescriptionPrefersCatalan | src/main/java/dev/x341/aonbas2srv/dto/Stop.java:106-107 | in a description object the `ca` entry wins wherever it stands |
| StopDto.FromJsonNullOnlyForNull | src/main/java/dev/x341/aonbas2srv/dto/Stop.java:43-65 | `fromJson` returns null exactly for JSON null |
| StopDto.GetToJson | src/main/java/dev/x341/aonbas2srv/dto/Stop.java:114-116 | the serialised stop holds under each key exactly the non-null field written there |
| StopDto.StringFieldsRead | src/main/java/dev/x341/aonbas2srv/dto/Stop.java:48-59 | name, gtfs code and image read back from a serialised stop |
| StopDto.DescriptionFieldRead | src/main/java/dev/x341/aonbas2srv/dto/Stop.java:49 | the description reads back from a serialised stop |
| StopDto.CoordinateFieldsRead | src/main/java/dev/x341/aonbas2srv/dto/Stop.java:51-52 | latitude and longitude read back from a serialised stop |
| StopDto.IntFieldsRead | src/main/java/dev/x341/aonbas2srv/dto/Stop.java:54-60 | outbound code, return code, order and id read back from a serialised stop |
| StopDto.FromJsonToJson | src/main/java/dev/x341/aonbas2srv/dto/Stop.java:43-65 | `fromJson(toJson(s))` is s, field for field |
| StopDto.StopIdTextRead | src/main/java/dev/x341/aonbas2srv/dto/Stop.java:60 | an id given as decimal text under `stopId` is read as that number |
| StopDto.GtfsCodeUnderLastSynonym | src/main/java/dev/x341/aonbas2srv/dto/Stop.java:57 | a gtfs code only under `code` is still found |
| StopDto.SynonymSampleThrows | src/main/java/dev/x341/aonbas2srv/dto/Stop.java:57 | an object under `code` makes the tolerant reader throw |
| StopDto.SynonymSampleBinds | src/main/java/dev/x341/aonbas2srv/dto/Stop.java:62 | the plain binding of that object keeps only the canonically named fields |
| StopDto.ThrowingSynonymFallsBackToCanonicalNames | src/main/java/dev/x341/aonbas2srv/dto/Stop.java:61-63 | when the tolerant reader throws, the result is the plain binding: the synonym `lat` is lost |
| StopLookup.PartialMatchIsContainment | src/main/java/dev/x341/aonbas2srv/services/apiclients/TramApiClient.java:199-209 | stage 4's prefix and suffix tests add nothing to containment of the upper-cased query in the code or name |
| StopLookup.CodeStageIsCaseInsensitive | src/main/java/dev/x341/aonbas2srv/services/apiclients/TramApiClient.java:182-186 | stage 2 matches exactly when the trimmed code equals the query ignoring case |
| StopLookup.ScanFromCharacterised | src/main/java/dev/x341/aonbas2srv/services/apiclients/TramApiClient.java:174-209 | a stage gives null exactly when every stop passes; otherwise the first stop that matches, or the failure of its test |
| StopLookup.ScanFindsFirstMatch | src/main/java/dev/x341/aonbas2srv/services/apiclients/TramApiClient.java:174-209 | a stage's stop is a catalogue stop its test accepts, with every stop before it passing |
| StopLookup.Resolve | src/main/java/dev/x341/aonbas2srv/services/apiclients/TramApiClient.java:165-167 | a null or blank query gives null |
| StopLookup.ResolveIsFirstAnswer | src/main/java/dev/x341/aonbas2srv/services/apiclients/TramApiClient.java:169-209 | a non-blank query is answered by its stages tried in order, the first non-null answer winning |
| StopLookup.ResolveIsSound | src/main/java/dev/x341/aonbas2srv/services/apiclients/TramApiClient.java:164-214 | a resolved stop is in the catalogue and matches some stage of the query |
| StopLookup.ResolveNoneIffEveryStageNone | src/main/java/dev/x341/aonbas2srv/services/apiclients/TramApiClient.java:164-214 | null comes back exactly when every stage finds nothing |
| StopLookup.ResolveNoneMeansNoMatch | src/main/java/dev/x341/aonbas2srv/services/apiclients/TramApiClient.java:164-214 | null comes back exactly when no catalogue stop matches at any stage |
| StopLookup.ResolveFailsOnNullId | src/main/java/dev/x341/aonbas2srv/services/apiclients/TramApiClient.java:176 | the only failure is the null-id unboxing of stage 1, at the first stop stage 1 stops at |
| StopLookup.ScanNeverFailsAfterStageOne | src/main/java/dev/x341/aonbas2srv/services/apiclients/TramApiClient.java:181-209 | stages 2 to 4 cannot throw |
| StopLookup.IdMatchTakesPriority | src/main/java/dev/x341/aonbas2srv/services/apiclients/TramApiClient.java:173-179 | the query "7" finds the stop with id 7 before any code match |
| StopLookup.IdHitResolves | src/main/java/dev/x341/aonbas2srv/services/apiclients/TramApiClient.java:164-179 | a query whose trimmed text parses as a non-zero int resolves to the first stop with that id when every stop before it is null or has a non-null id other than that one |
| StopLookup.IdScanFinds | src/main/java/dev/x341/aonbas2srv/services/apiclients/TramApiClient.java:173-179 | the id stage stops at the first stop whose id equals the parsed query |
| StopLookup.ResolveTakesIdHit | src/main/java/dev/x341/aonbas2srv/services/apiclients/TramApiClient.java:173-179 | an id hit is the answer |
| StopLookup.CodeMatchIgnoresCase | src/main/java/dev/x341/aonbas2srv/services/apiclients/TramApiClient.java:181-186 | without an id hit, the first code equal to the query up to case and surrounding blanks is found |
| StopLookup.GtfsCodesAreStopIds | src/main/java/dev/x341/aonbas2srv/services/apiclients/TramApiClient.java:217-222 | every code `listAllGtfsCodes` lists is also a static identifier given by `getAllStopIds` whenever that call succeeds |
| StopLookup.AppendedIsJoin | src/main/java/dev/x341/aonbas2srv/services/apiclients/TramApiClient.java:226-233 | with no empty part, the builder's text is the parts joined with ", " |
| StopLookup.SampleCodes | src/main/java/dev/x341/aonbas2srv/services/apiclients/TramApiClient.java:224-234 | the sample holds min(limit, size) distinct codes of the set, and the text is the builder's text of them |
| StopLookup.SampleOfCatalogueIsJoined | src/main/java/dev/x341/aonbas2srv/services/apiclients/TramApiClient.java:224-234 | a sample of catalogue codes is written joined with ", " |
| StopLookup.StopIdsCharacterised | src/main/java/dev/x341/aonbas2srv/services/apiclients/TramApiClient.java:281-290 | the identifiers are read exactly when every stop and its id is there (else the null failure), and are exactly the non-empty gtfs codes and non-zero decimal ids |
| FeedMerge.NetworkIdIgnoresCase | src/main/java/dev/x341/aonbas2srv/services/apiclients/TramApiClient.java:241 | network "1" exactly for TRAMBESOS in any case, "2" otherwise |
| FeedMerge.MergeCharacterised | src/main/java/dev/x341/aonbas2srv/services/apiclients/TramApiClient.java:243-271 | the merge succeeds exactly when both feeds can be had, holds the trip entities then the vehicle entities, under a version "2" header stamped with the epoch second |
| FeedMerge.TripTransportFailureComesFirst | src/main/java/dev/x341/aonbas2srv/services/apiclients/TramApiClient.java:252-253 | a trip request that gets nowhere is the outcome |
| FeedMerge.ChecksBeforeDecoding | src/main/java/dev/x341/aonbas2srv/services/apiclients/TramApiClient.java:255-261 | both responses are checked before either body is decoded |
| FeedMerge.MergedFeedServedForThirtySeconds | src/main/java/dev/x341/aonbas2srv/services/apiclients/TramApiClient.java:236-276 | a merged feed is served from the cache, whatever the upstream does, within 30 epoch seconds; a failed merge caches nothing |
| FeedMerge.RealtimeStopIdsCharacterised | src/main/java/dev/x341/aonbas2srv/services/apiclients/TramApiClient.java:298-305 | the collected ids are exactly the stop ids that trip updates mention |
| FeedMerge.MissingCharacterised | src/main/java/dev/x341/aonbas2srv/services/apiclients/TramApiClient.java:295-308 | a missing id is exactly a trip-update stop id that is neither a gtfs code nor the id of a catalogue stop |
| TramClient.CatalogAllOrNothing | src/main/java/dev/x341/aonbas2srv/services/apiclients/TramApiClient.java:53-106 | a failed catalogue request writes no catalogue to the cache |
| TramClient.FetchedLinesServedFromCache | src/main/java/dev/x341/aonbas2srv/services/apiclients/TramApiClient.java:35-50 | fetched lines are then served from the cache, whatever the upstream does, for a year |
| TramClient.FetchedCatalogServedFromCache | src/main/java/dev/x341/aonbas2srv/services/apiclients/TramApiClient.java:53-106 | a fetched catalogue is then served from the cache, whatever the upstream does, for a year |
| TramClient.StopStepResolves | src/main/java/dev/x341/aonbas2srv/services/apiclients/TramApiClient.java:164-214 | null or blank input gives null and leaves the cache alone; a returned stop is in the catalogue and matches some stage; null means no stop matches any stage |
| TramClient.AfterResolveKeepsAnswer | src/main/java/dev/x341/aonbas2srv/services/apiclients/TramApiClient.java:211-213 | the log's second catalogue read does not change the resolver's answer |
| TramClient.TramApiClient.constructor | src/main/java/dev/x341/aonbas2srv/services/apiclients/TramApiClient.java:29-32 | the client shares the given cache |
| TramClient.TramApiClient.GetLines | src/main/java/dev/x341/aonbas2srv/services/apiclients/TramApiClient.java:35-50 | result and cache as `LinesStep`: the cached text, else the body, cached for a year |
| TramClient.TramApiClient.DecodeCached | src/main/java/dev/x341/aonbas2srv/services/apiclients/TramApiClient.java:56-62 | the cached text decoded as `DecodeCatalog` says |
| TramClient.TramApiClient.GetCatalog | src/main/java/dev/x341/aonbas2srv/services/apiclients/TramApiClient.java:53-106 | result and cache as `CatalogStep` |
| TramClient.TramApiClient.GetStops | src/main/java/dev/x341/aonbas2srv/services/apiclients/TramApiClient.java:53-106 | result and cache as `CatalogStep` for the line's listing |
| TramClient.TramApiClient.GetAllStops | src/main/java/dev/x341/aonbas2srv/services/apiclients/TramApiClient.java:109-161 | result and cache as `CatalogStep` for the full listing |
| TramClient.TramApiClient.ListAllGtfsCodes | src/main/java/dev/x341/aonbas2srv/services/apiclients/TramApiClient.java:217-222 | the gtfs codes of the full catalogue, or its failure |
| TramClient.TramApiClient.GetStop | src/main/java/dev/x341/aonbas2srv/services/apiclients/TramApiClient.java:164-214 | result and cache as `StopStep` |
| TramClient.TramApiClient.GetGtfsrtData | src/main/java/dev/x341/aonbas2srv/services/apiclients/TramApiClient.java:236-276 | result and feed cache as `FeedStep`; the string cache untouched |
| TramClient.TramApiClient.GetAllStopIds | src/main/java/dev/x341/aonbas2srv/services/apiclients/TramApiClient.java:281-290 | the static identifiers of the full catalogue, or the failure |
| TramClient.TramApiClient.FindMissingStaticStopsInGtfsRt | src/main/java/dev/x341/aonbas2srv/services/apiclients/TramApiClient.java:295-308 | the static ids first, then the feed; the result is the feed's trip-update stop ids minus the static ids, or the first failure |
| TramClient.TramApiClient.ClearAllApiCache | src/main/java/dev/x341/aonbas2srv/services/apiclients/TramApiClient.java:311-314 | the string cache is emptied; feeds stay |
| TramClient.TramApiClient.GetStopsCache | src/main/java/dev/x341/aonbas2srv/services/apiclients/TramApiClient.java:317-319 | the live cached text of the full catalogue |

## Left out

- HTTP, the JSON text parser and the protobuf decoder are not modelled: they are
  parameters. The upstream is a function from URL and attempt number to a response or
  an `IOException`, and from URL and attempt number to whether the backoff sleep is
  interrupted. A body carries its text and the decoder's reading of its bytes. The
  JSON serialiser, by contrast, is written out (`Render`).
- The clock is a parameter `now`. Each operation reads it once, so the few milliseconds
  between two reads of `System.currentTimeMillis()` inside one call are not modelled.
- `UUID.randomUUID()` in `createOtp` is the `id` parameter. The random key the
  de-duplication gives a stop with neither gtfs code nor id is `Surrogate(index)`,
  which is unique per position, as the random key is meant to be.
- Thread interruption is part of the upstream value. Concurrency is left out: the
  caches are not synchronised in the source, and the model has one caller at a time.
- Logging (`AOBLogger`) is left out. The code sample `getStop` logs on a miss is
  computed (`SampleCodes`) and dropped.
- Termination: the paging loop of the source runs as long as the upstream returns full
  pages. The model takes ghost bounds per network (`AllEnd`) saying some page ends the
  paging, and an upstream that pages forever is not modelled. The catalogue reads,
  `getAllStopIds` and `findMissingStaticStopsInGtfsRt` ask for the bounds only on a
  cache miss; `getStop` (`StopStep`, `GetStop`) asks for them
  in every case, since it may read the catalogue twice.
- Catalog.RequestsPerNetwork: the request count is stated for an upstream that never
  returns more than 100 items per page. The code stops only on an empty page or one
  with fewer than 100 items, so the count is `total / 100 + 1`: a multiple of 100
  costs one final empty request, and an empty listing costs one. A count of
  `ceil(total / 100)` would hold only if the code stopped after a full last page.
- Coordinates are integers: JSON numbers are integral in this model, and
  `getAsDouble` is read as that integer. Floating-point parsing and rounding are left
  out.
- Case mapping (`toUpperCase`, `equalsIgnoreCase`) and the sanitiser cover ASCII only.
  Locale-dependent and non-ASCII case mappings are left out.
- `HashSet` iteration order in `listAllGtfsCodesString` is unspecified in Java. The
  sample is any choice of distinct codes, so the model fixes no order.
- Duplicate member names in a JSON object: Gson's `JsonObject` keeps one entry per
  name (the last value, at the first name's position), so the source never sees a
  repeated name. The model's tree can hold repeats, and its readers then differ:
  `JsonModel.Get`, behind the tolerant reader, takes the first occurrence, while
  `StopDto.BindMembers` and `OtpStore.BindMembers` apply every member in order, so the
  last value wins and an unbindable earlier occurrence makes the binding throw. On
  objects with distinct member names, which is what Gson's parser produces, both agree
  with the source; the parser parameter is not required to produce only such objects.
- Cache.NewApiEntry: the `long` overflow of `now + ttlSeconds * 1000` is not modelled;
  it needs a clock past the year 292 million.
- `TramService` and the other services, controllers, the Netty HTTP handler
  (`HttpServerHandler`) and the configuration are outside this core.
- `OtpDto.toBytes` and `fromBytes` (UTF-8 wrapping of the JSON text) are not modelled;
  strings are sequences of characters.
