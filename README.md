# Explore-with-me statistics, modelled in Dafny

This project models the statistics part of the Explore-with-me services:

- **Stats server.** It records hits and answers aggregated view counts.
  - `HitDto` validation, the `HitMapper` conversions, and `StatsServiceImpl.create` / `get`.
  - The two JPQL queries of `StatsRepository`. Filter by a closed time window and a uri list, group by (app, uri), count ip values (all or distinct), order by count descending.
- **Stats clients.** They post hits and read counts.
  - The RestTemplate client of the `stat_svc_client` module.
  - The RestClient client. The repository has it twice: the standalone `statsclient.config` one and the `stats-client` module. `saveHit` and `getStats` are the same in both.
  - The two `StatsClientHelper`s, which turn an event into `/events/{id}` queries.
- **Category service** of the main service. It keeps a table of categories with unique names.

Every HTTP call is an `Exchange`. That is the answer the server gave: a status with a payload, or no answer at all. Every reading of the clock is a parameter: `now`, and `yearAgo` for one year before now. `EndToEnd` joins the two sides:

- the server reads back exactly the body `saveHit` posts;
- `getEventViews` against the server's answer gives the largest number of distinct visitor ips any app recorded for that event's uri in the window.

Modules, one per file:

| file | module | source |
|---|---|---|
| wrappers.dfy | `Wrappers` | `Option` and `Result` |
| text.dfy | `Text` | `@NotBlank` trimming, `String.join`/comma splitting, `Long` printing |
| hit_dto.dfy | `HitDtos` | `HitDto` and its constraints |
| hit.dfy | `Hits` | the `Hit` entity |
| hit_mapper.dfy | `HitMapper` | `HitMapper` |
| stats_repository.dfy | `StatsRepository` | the two queries |
| stats_service.dfy | `StatsService` | `StatsServiceImpl` (a class over the hits table) |
| wire.dfy | `Wire` | what the clients put on the wire and read from it |
| stat_svc_client.dfy | `StatSvcClient` | RestTemplate `StatsClientImpl` |
| rest_stats_client.dfy | `RestStatsClient` | both RestClient `StatsClientImpl`s |
| client_helpers.dfy | `SvcClientHelper`, `StandaloneClientHelper` | the two `StatsClientHelper`s |
| category_service.dfy | `CategoryService` | `CategoryServiceImpl` (a class over the category table) |
| end_to_end.dfy | `EndToEnd` | clients against the server |

## Model

| member | source | states |
|---|---|---|
| Text.NotBlankIffVisible | stats/stats-dto/src/main/java/ru/practicum/HitDto.java:15-23 | `@NotBlank` holds exactly for a non-null string with a character above U+0020 |
| Text.SplitJoin | stat_svc_client/src/main/java/ru/practicum/statsclient/impl/StatsClientImpl.java:64-65 | joining a non-empty list of comma-free uris with "," and splitting at commas gives the list back |
| Text.SplitEmptyJoin | stat_svc_client/src/main/java/ru/practicum/statsclient/impl/StatsClientImpl.java:64 | the model's `Split` of the joined empty list is [""], not [], so `Join` and `Split` do not invert on the empty list; the clients send uris only for a non-empty list |
| Text.LongToStringRoundTrip | stat_svc_client/src/main/java/ru/practicum/statsclient/StatsClientHelper.java:22 | the decimal text of a Long parses back to that Long |
| Text.LongToStringInjective | src/main/java/ru/practicum/statsclient/StatsClientHelper.java:27 | two different ids never print the same |
| HitDtos.ValidIffVisible | stats/stats-dto/src/main/java/ru/practicum/HitDto.java:15-23 | a DTO is valid exactly when app, uri and ip are each non-null with a visible character |
| HitDtos.IpFormatNotEnforced | stats/stats-dto/src/main/java/ru/practicum/HitDto.java:21-23 | the IPv4 pattern is a formatting hint, not a constraint: ip "localhost" is valid |
| HitDtos.UnconstrainedFields | stats/stats-dto/src/main/java/ru/practicum/HitDto.java:13-26 | id and timestamp, null or not, never cause a violation |
| HitMapper.ToHit | stats/stats-server/src/main/java/ru/practicum/mapper/HitMapper.java:13-21 | id, app, ip and uri are copied; a supplied timestamp is kept, a null one becomes now; the hit always has a timestamp |
| HitMapper.ToHitDto | stats/stats-server/src/main/java/ru/practicum/mapper/HitMapper.java:23-31 | all five fields are copied unchanged |
| HitMapper.DtoRoundTrip | stats/stats-server/src/main/java/ru/practicum/mapper/HitMapper.java:13-31 | toHitDto(toHit(d)) == d when d has a timestamp |
| HitMapper.DtoRoundTripStamps | stats/stats-server/src/main/java/ru/practicum/mapper/HitMapper.java:19 | without a timestamp, the round trip gives d stamped with now |
| HitMapper.HitRoundTrip | stats/stats-server/src/main/java/ru/practicum/mapper/HitMapper.java:13-31 | toHit(toHitDto(h)) == h when h has a timestamp |
| StatsRepository.SortByHitsDesc | stats/stats-server/src/main/java/ru/practicum/repository/StatsRepository.java:19 | ORDER BY hits DESC: the result is sorted by hits, largest first, and is a permutation of its input |
| StatsRepository.FindUniqueStatsByUrisAndTimestampBetween | stats/stats-server/src/main/java/ru/practicum/repository/StatsRepository.java:13-25 | sorted by hits descending; one row per (app, uri) of a hit in [start, end] whose uri is admitted, and no other rows; each row's hits is the number of distinct non-null ips of its group |
| StatsRepository.FindStatsByUrisAndTimestampBetween | stats/stats-server/src/main/java/ru/practicum/repository/StatsRepository.java:27-39 | the same rows and order, with hits the number of the group's qualifying hits that have an ip, duplicates included |
| StatsRepository.GroupKeysAreQualifyingKeys | stats/stats-server/src/main/java/ru/practicum/repository/StatsRepository.java:16-18 | the one-pass grouping lists each key of a qualifying hit exactly once |
| StatsRepository.RawCountIsCountedRows | stats/stats-server/src/main/java/ru/practicum/repository/StatsRepository.java:28 | the running COUNT(ip) equals the number of qualifying rows of the group with a non-null ip |
| StatsRepository.IpsOfIsDistinctIps | stats/stats-server/src/main/java/ru/practicum/repository/StatsRepository.java:14 | the running COUNT(DISTINCT ip) set equals the set of ips of the group's qualifying rows |
| StatsRepository.AggregateShape | stats/stats-server/src/main/java/ru/practicum/repository/StatsRepository.java:14-19 | grouping, counting and ordering give sorted rows with distinct keys, exactly the qualifying keys, each with its group's count |
| StatsRepository.DistinctAtMostRaw | stats/stats-server/src/main/java/ru/practicum/repository/StatsRepository.java:14 | a group has no more distinct ips than counted rows |
| StatsRepository.UniqueAtMostNonUnique | stats/stats-server/src/main/java/ru/practicum/repository/StatsRepository.java:13-39 | for the same arguments and group, the unique count is at most the plain count |
| StatsRepository.CountsArePositive | stats/stats-server/src/main/java/ru/practicum/repository/StatsRepository.java:14-28 | when every qualifying hit has an ip, every row of either query has hits >= 1 |
| StatsRepository.NullIpGroupCountsZero | stats/stats-server/src/main/java/ru/practicum/repository/StatsRepository.java:28-32 | a group whose only hit has a null ip is still listed, with hits 0 |
| StatsRepository.EmptyIffNothingQualifies | stats/stats-server/src/main/java/ru/practicum/repository/StatsRepository.java:16-17 | either query returns the empty list exactly when no stored hit passes the WHERE clause |
| StatsRepository.QualifyingHitIsReported | stats/stats-server/src/main/java/ru/practicum/repository/StatsRepository.java:16-18 | a qualifying hit with an ip puts its (app, uri) in the result with hits >= 1 |
| StatsRepository.BoundsAreInclusive | stats/stats-server/src/main/java/ru/practicum/repository/StatsRepository.java:16 | a hit stamped exactly at start or at end is counted |
| StatsRepository.SingleVisitorCountsOnce | stats/stats-server/src/main/java/ru/practicum/repository/StatsRepository.java:14 | many hits from one ip give a distinct count of one |
| StatsRepository.RunStatsQuery | stats/stats-server/src/main/java/ru/practicum/repository/StatsRepository.java:14 | the constructor expression `new StatsDto(app, uri, COUNT(...))` resolves exactly when StatsDto has an (String, String, Long) constructor; then the rows are the distinct-ip or the plain query's as unique selects, and otherwise the query fails with that signature |
| StatsRepository.ProjectionResolvesOnlyWhenCorrected | stats/stats-dto/src/main/java/ru/practicum/StatsDto.java:8-21 | with the constructors StatsDto declares (only the no-argument one that @Data gives) both queries fail on every store and window; with the (app, uri, hits) constructor they always answer |
| StatsService.StatsServiceImpl.Create | stats/stats-server/src/main/java/ru/practicum/service/StatsServiceImpl.java:30-35 | appends exactly one row and keeps the earlier rows unchanged; the row is toHit of the DTO with a fresh id; the returned DTO has that id, the input's app/uri/ip, and the supplied timestamp or now |
| StatsService.StatsServiceImpl.Get | stats/stats-server/src/main/java/ru/practicum/service/StatsServiceImpl.java:38-48 | with the (app, uri, hits) constructor the query needs: fails with the ValidationException exactly when start is after end (start == end is accepted); otherwise gives the distinct-ip query when unique holds and the plain query when it does not; reads the store only |
| StatsService.StatsServiceImpl.GetAsWritten | stats/stats-server/src/main/java/ru/practicum/service/StatsServiceImpl.java:38-48 | `get` as written always fails: with the ValidationException for an inverted window, and with the query's unresolved constructor for every other window |
| StatsService.QueryFailsWhereRowsExist | stats/stats-server/src/main/java/ru/practicum/service/StatsServiceImpl.java:43-47 | for a stored hit with an ip inside the window, the corrected `get` reports its (app, uri) while the written one fails |
| StatsService.RecordThenQuery | stats/stats-server/src/main/java/ru/practicum/service/StatsServiceImpl.java:30-48 | a hit created and then queried in a window and uri list that admit it is reported with hits >= 1 |
| StatsService.RepeatedVisitorScenario | stats/stats-server/src/main/java/ru/practicum/service/StatsServiceImpl.java:38-48 | two hits from one ip and one from another: unique gives 2, plain gives 3 |
| StatsService.ScenarioCounts | stats/stats-server/src/main/java/ru/practicum/repository/StatsRepository.java:13-39 | the two query results for that three-hit store |
| Wire.Available | stat_svc_client/src/main/java/ru/practicum/statsclient/impl/StatsClientImpl.java:108-115 | `isAvailable` is true exactly for a 2xx health answer, so false when the call fails or answers any other status; the RestClient health call (src/main/java/ru/practicum/statsclient/config/StatsClientImpl.java, lines 101-112) is the same |
| Wire.OptionalParamsCarryArguments | src/main/java/ru/practicum/statsclient/config/StatsClientImpl.java:67-73 | uris is sent exactly when the list is present and non-empty, unique exactly when present, in that order |
| Wire.StatsQueryCarriesArguments | stat_svc_client/src/main/java/ru/practicum/statsclient/impl/StatsClientImpl.java:58-72 | the query names are start, end, then uris and unique when sent; looking each up gives back start, end, the uris list (split at commas) and unique |
| Wire.VariablesAgreeWithLookup | stat_svc_client/src/main/java/ru/practicum/statsclient/impl/StatsClientImpl.java:58-72 | the RestTemplate variables map holds exactly the query's names, each with the value the query gives it |
| Wire.WrapToLong | stat_svc_client/src/main/java/ru/practicum/statsclient/impl/StatsClientImpl.java:96 | `longValue` of an integer is a 64-bit value congruent to it modulo 2^64 (its low 64 bits), and is the integer itself when it fits |
| Wire.TruncateToLong | stat_svc_client/src/main/java/ru/practicum/statsclient/impl/StatsClientImpl.java:96 | `longValue` of a fractional number rounds toward zero inside the long range and saturates at LongMin and LongMax outside it |
| Wire.FirstHitsIsFirstMatch | stat_svc_client/src/main/java/ru/practicum/statsclient/impl/StatsClientImpl.java:92-104 | the count read is the hits of the first map whose uri equals the argument and whose hits is a number, whatever its app; 0 when no entry matches |
| Wire.EventUriRoundTrip | stat_svc_client/src/main/java/ru/practicum/statsclient/StatsClientHelper.java:22 | "/events/" + eventId can be read back to the id (or to null), and is never "/events" |
| Wire.EventUriInjective | src/main/java/ru/practicum/statsclient/StatsClientHelper.java:27 | two events never share a uri |
| Wire.EventViewsCall | stat_svc_client/src/main/java/ru/practicum/statsclient/StatsClientHelper.java:21-27 | the query is for the event's own uri with unique true; start is the event date, or one year ago when there is none; end is now |
| StatSvcClient.SaveReport | stat_svc_client/src/main/java/ru/practicum/statsclient/impl/StatsClientImpl.java:41-51 | the hit is logged as saved exactly on a 2xx answer with a readable body; another non-error status with a readable body is logged with that status; an error status, an unreadable body or a failed call is logged as an error and never thrown |
| StatSvcClient.SaveHit | stat_svc_client/src/main/java/ru/practicum/statsclient/impl/StatsClientImpl.java:33-52 | the body has exactly the keys app, uri, ip and timestamp: the three arguments unchanged and the call time; the outcome is SaveReport of the answer |
| StatSvcClient.BuildStatsRequest | stat_svc_client/src/main/java/ru/practicum/statsclient/impl/StatsClientImpl.java:58-72 | the URL template and the variables map are exactly those of the ordered query start, end, [uris], [unique] |
| StatSvcClient.StatsAsWritten | stat_svc_client/src/main/java/ru/practicum/statsclient/impl/StatsClientImpl.java:74-84 | as written: null exactly on a 2xx answer whose body is the JSON null; otherwise a non-empty list only from a 2xx array body |
| StatSvcClient.Stats | stat_svc_client/src/main/java/ru/practicum/statsclient/impl/StatsClientImpl.java:74-84 | the parsed array on a 2xx answer with an array body, and the empty list in every other case |
| StatSvcClient.NullBodyReturnsNull | stat_svc_client/src/main/java/ru/practicum/statsclient/impl/StatsClientImpl.java:77-78 | status 200 with body `null`: the written code returns null, the corrected one [] |
| StatSvcClient.StatsAsWrittenAgreesOtherwise | stat_svc_client/src/main/java/ru/practicum/statsclient/impl/StatsClientImpl.java:74-84 | on every other answer the written and the corrected results agree |
| StatSvcClient.GetStatsAsWritten | stat_svc_client/src/main/java/ru/practicum/statsclient/impl/StatsClientImpl.java:54-85 | sends the ordered query and returns StatsAsWritten of the answer |
| StatSvcClient.GetStats | stat_svc_client/src/main/java/ru/practicum/statsclient/impl/StatsClientImpl.java:54-85 | sends the ordered query and returns Stats of the answer |
| StatSvcClient.GetViewsForUri | stat_svc_client/src/main/java/ru/practicum/statsclient/impl/StatsClientImpl.java:87-105 | the URL template and variables are those of the query with exactly [uri] and the given unique; the count is the first matching entry's hits in the corrected list, so 0 for no match, a failed call or a null list |
| RestStatsClient.SaveReport | src/main/java/ru/practicum/statsclient/config/StatsClientImpl.java:44-56 | logged as saved exactly on a 2xx answer, whatever its body; another non-error status is logged with that status; an error status or a failed call is caught and logged as an error |
| RestStatsClient.SaveHit | src/main/java/ru/practicum/statsclient/config/StatsClientImpl.java:35-58 | the body has exactly app, uri, ip unchanged and the call time; the outcome is SaveReport of the answer; the stats-client module's copy (lines 39-62 of its StatsClientImpl.java) is the same |
| RestStatsClient.Stats | src/main/java/ru/practicum/statsclient/config/StatsClientImpl.java:77-86 | the array of any non-error answer as a list; the empty list for a null or non-array body, an error status or a failed call; the same for the stats-client module (lines 81-90) |
| RestStatsClient.GetStats | src/main/java/ru/practicum/statsclient/config/StatsClientImpl.java:60-87 | the query parameters are start, end, then uris and unique when sent; the result is Stats of the answer; the same for the stats-client module (lines 64-91) |
| RestStatsClient.ExtractHitsFromStats | src/main/java/ru/practicum/statsclient/config/StatsClientImpl.java:114-126 | the hits of the first map whose uri equals the argument and whose hits is a number; 0 when there is none |
| RestStatsClient.GetViewsForUri | src/main/java/ru/practicum/statsclient/config/StatsClientImpl.java:89-98 | queries with exactly [uri] and the given unique, and extracts that uri's count from the list |
| SvcClientHelper.RecordEventView | stat_svc_client/src/main/java/ru/practicum/statsclient/StatsClientHelper.java:13-15 | one saveHit with app, uri and ip unchanged |
| SvcClientHelper.RecordEventListViews | stat_svc_client/src/main/java/ru/practicum/statsclient/StatsClientHelper.java:17-19 | one saveHit with uri "/events" |
| SvcClientHelper.GetEventViews | stat_svc_client/src/main/java/ru/practicum/statsclient/StatsClientHelper.java:21-27 | sends EventViewsCall's query as URL template and variables and returns the client's count for the event's uri unchanged |
| SvcClientHelper.IsStatsServiceAvailable | stat_svc_client/src/main/java/ru/practicum/statsclient/StatsClientHelper.java:29-31 | true exactly when the client's health call answers 2xx |
| StandaloneClientHelper.RecordEventView | src/main/java/ru/practicum/statsclient/StatsClientHelper.java:18-20 | one saveHit with app, uri and ip unchanged |
| StandaloneClientHelper.RecordEventListViews | src/main/java/ru/practicum/statsclient/StatsClientHelper.java:22-24 | one saveHit with uri "/events" |
| StandaloneClientHelper.GetEventViews | src/main/java/ru/practicum/statsclient/StatsClientHelper.java:26-31 | sends EventViewsCall's query and returns the client's count for the event's uri unchanged |
| StandaloneClientHelper.IsStatsServiceAvailable | src/main/java/ru/practicum/statsclient/StatsClientHelper.java:33-35 | true exactly when the client's health call answers 2xx |
| CategoryService.CategoryServiceImpl.FindAll | main-service/src/main/java/ru/practicum/categories/service/impl/CategoryServiceImpl.java:30-35 | every stored category exactly once, with its name; from and size play no part |
| CategoryService.CategoryServiceImpl.FindById | main-service/src/main/java/ru/practicum/categories/service/impl/CategoryServiceImpl.java:37-45 | NotFoundException exactly for a missing id; otherwise that category |
| CategoryService.CategoryServiceImpl.Create | main-service/src/main/java/ru/practicum/categories/service/impl/CategoryServiceImpl.java:47-58 | a name already present fails with a constraint error and the table is unchanged; otherwise exactly one category under a fresh id is added, and names stay distinct |
| CategoryService.CategoryServiceImpl.DeleteById | main-service/src/main/java/ru/practicum/categories/service/impl/CategoryServiceImpl.java:60-73 | a missing id is NotFound, checked before references; a category events reference is kept and reported; otherwise only that id is removed |
| CategoryService.CategoryServiceImpl.UpdateById | main-service/src/main/java/ru/practicum/categories/service/impl/CategoryServiceImpl.java:75-91 | a missing id is NotFound; then a name held by any category, its own included, is a constraint error; otherwise only that category's name changes |
| CategoryService.RenameToOwnNameScenario | main-service/src/main/java/ru/practicum/categories/service/impl/CategoryServiceImpl.java:84-87 | renaming a category to its current name is refused |
| EndToEnd.SavedHitIsReadAsSent | stat_svc_client/src/main/java/ru/practicum/statsclient/impl/StatsClientImpl.java:35-41 | the server reads the posted body as a DTO with the sent app, uri, ip and timestamp and no id; it is valid exactly when the three strings are not blank; the stored hit keeps the client's time |
| EndToEnd.ViewsAreTopCount | stat_svc_client/src/main/java/ru/practicum/statsclient/impl/StatsClientImpl.java:92-99 | read from rows sorted by hits, the count is at least every row's count for that uri, and is 0 or one of them |
| EndToEnd.EventUriCommaFree | stat_svc_client/src/main/java/ru/practicum/statsclient/StatsClientHelper.java:22 | an event uri has no comma, so it reaches the server intact |
| EndToEnd.TopCountIsDistinctVisitors | stats/stats-server/src/main/java/ru/practicum/repository/StatsRepository.java:13-25 | the count read for one uri out of the distinct-ip rows is at least every app's number of distinct visitors of that uri, equals one of them or 0, and is positive exactly when some hit for the uri in the window has an ip |
| EndToEnd.EventViewsCountDistinctVisitors | stat_svc_client/src/main/java/ru/practicum/statsclient/StatsClientHelper.java:21-27 | against the server, whose controller reads start, end, the comma-split uris and unique (false unless sent as true) from the query, both clients read the same count: 0 for an inverted window; otherwise the largest number of distinct ips any app recorded for the event's uri in the window, positive exactly when such a hit has an ip |

## Left out

- HTTP transport, base URLs and percent-encoding are not modelled. A call is an `Exchange`: status and payload, or no answer. Query parameters are an unencoded ordered list, or the RestTemplate template plus variables map.
- The `"${stats-server.url}"` base URL of the stats-client module's default constructor is not modelled; no base URL is.
- The server's conversion of the uris text to a list (Spring's StringToCollectionConverter) is modelled by `Text.Split`, which differs from it in two ways: the empty text gives [""] instead of an empty list, and fields are not trimmed. Event uris are non-empty and contain no spaces, so `EndToEnd.EventViewsCountDistinctVisitors` is unaffected.
- Jackson parsing is not modelled. A body is already parsed `Json`, or `Unparsable`. Numbers are integers or reals; the precision of `Double` is not modelled.
- `DateTimeFormatter` is not modelled: a time is an integer on both sides, so formatting and parsing round-trip trivially. Truncation to whole seconds is not modelled.
- `LocalDateTime.now()` and `minusYears(1)` are parameters (`now`, `yearAgo`); calendar arithmetic is not modelled.
- Controllers are left out except how the stats controller reads a query, in `EndToEnd.StatsAnswer`: start and end required, uris split at commas, `unique` false unless sent. Spring also trims each split uri; that is not modelled.
- Both `ErrorHandler` classes are left out. Errors are datatype variants. The status an inverted window gets is a parameter, required only to be an error status. The service throws `jakarta.validation.ValidationException`, which the server's handler does not list.
- Log message texts are not modelled; only which kind of log line `saveHit` writes (`SaveLog`).
- The clients' `NullPointerException` paths are not modelled: `start`, `end` and `uri` are never null in the model. The source catches such exceptions and returns the empty list or 0.
- StatsService.StatsServiceImpl.Create: saving a DTO that already carries an id is modelled as an insert under a fresh id. JPA would merge with an existing row.
- `Hit` equality by id only is not modelled: rows are values in a sequence.
- An empty `uris` list on the server (`uri IN ()`) is modelled as admitting no uri. Neither client sends one.
- StatsRepository.CountsArePositive: requires that every qualifying hit has an ip. COUNT(ip) skips null ips, so a group of null-ip hits is listed with 0 (`StatsRepository.NullIpGroupCountsZero`).
- The database leaves the order of rows with equal counts open. The model fixes it to the order in which the groups first occur.
- Counts are unbounded naturals; a 64-bit `COUNT` overflow is not modelled. `EndToEnd.EventViewsCountDistinctVisitors` requires no more than 2^63 - 1 stored hits.
- Transactions and concurrent writers are not modelled; every operation is sequential.
- CategoryService.CategoryServiceImpl.FindAll: the repository's row order is not modelled. Any order of the stored categories is allowed.
- The event repository is a parameter of `DeleteById`: the set of category ids that events hold.
- `NewCategoryDto` validation and the name collation of `existsByName` are not modelled; names compare as exact strings.
- `CategoryMapper.toCategory` is not part of the repository's mapper. It is modelled as a new category with the DTO's name and no id.
- `CompilationServiceImpl` and `CompilationMapper` have no behaviour to model: empty method bodies and an empty DTO.
- Configuration classes, test-harness classes and logging set-up are not modelled.

## Findings

| source | as written | input that shows it | evidently intended | confidence | as-written member | corrected member |
|---|---|---|---|---|---|---|
| stat_svc_client/src/main/java/ru/practicum/statsclient/impl/StatsClientImpl.java:77-78 | a 2xx answer whose body is the JSON literal `null` is read by Jackson as a null list, and `getStats` returns that null | status 200, body `null` | the empty list, as `getStats` returns for every other failure and as the RestClient client returns for a null body | not executed; medium | StatSvcClient.GetStatsAsWritten, StatSvcClient.StatsAsWritten, StatSvcClient.NullBodyReturnsNull | StatSvcClient.GetStats, StatSvcClient.Stats |
| stats/stats-server/src/main/java/ru/practicum/repository/StatsRepository.java:14 | both queries (lines 14 and 28) write `SELECT new ru.practicum.StatsDto(app, uri, COUNT(...) AS hits)` calls a (String, String, Long) constructor that StatsDto does not declare: its @Data gives only the no-argument constructor, and `app` and `uri` have no alias to set by name; the query is refused at start-up or when `get` runs, and no rows reach a client | any GET /stats with start not after end, even over a store holding a matching hit | the (app, uri, hits) rows the repository's return type and both clients read | not executed; medium (a Lombok setting outside these files could add the constructor) | StatsRepository.RunStatsQuery, StatsService.StatsServiceImpl.GetAsWritten, StatsService.QueryFailsWhereRowsExist | StatsService.StatsServiceImpl.Get, StatsRepository.ProjectionResolvesOnlyWhenCorrected |

For the StatsDto row: the rest of the model, the end-to-end lemmas included, uses the corrected `get`, whose queries build the (app, uri, hits) rows they describe.

For the null-body row: `getViewsForUri` uses the written `getStats`. Iterating a null list throws inside its own try block, which returns 0. So its count equals the count from the corrected list (`StatSvcClient.GetViewsForUri`). The null reaches only the callers of `getStats` itself.
