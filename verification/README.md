# Verified model of the Kafka management platform's algorithms

This project models the parts of the platform that make claims over every input or every run, and proves those claims:
how metrics are printed and read back, how keywords become LIKE patterns, how request limiters forget idle callers, how topic
rows are brought to a Kafka snapshot, how the caches relate to the tables behind them, how the pool, the fan-outs and the
token refresh behave under every interleaving, and how consumer lag is added up.

`dafny verify dfyconfig.toml` checks everything.

## How it is organised

| file | what it models | main results |
|---|---|---|
| `Text.dfy` | the string operations of Go's `strings` package | appending to, splitting and replacing in strings |
| `Sums.dfy` | sums over the elements of a finite set, whatever the order | removing, splitting, comparing, re-indexing |
| `VictoriaMetrics.dfy` | the metric printer, and a reader of the Prometheus text format ("Text format details") written from the format alone | `RoundTrip` |
| `JmxClient.dfy` | the platform's own metric parser | `SubmatchIsTheMatch`, `TextSaysIs`, `PrintParseRoundTrip` |
| `TopicSearch.dfy` | LIKE (section 8.5 of ISO/IEC 9075-2, escape character `\`) and the keyword searches | `LikeIsContains`, `SearchesAreContains`, `UnescapedIsContains` |
| `TokenBucket.dfy` | the token bucket of `golang.org/x/time/rate` over the reals, and the reference table that never drops a limiter | `WindowBound`, `RefusedIff` |
| `Limiters.dfy` | what both limiter tables share: looking a limiter up and asking it are two steps, and cleanups come between them | `InvisibleIff`, `WindowWithDrops`, `TwiceTheBurst` |
| `IPRateLimit.dfy` | the limiter per address, which drops full limiters | `IpInvisibleIff`, `IpWindow`, `IpTwiceTheBurst` |
| `RateLimit.dfy` | the limiter per user, which drops entries not looked up for ten minutes | `StaleInvisibleIff`, `NineMinutes`, `MiddlewareRefusesIff` |
| `JoinedKeys.dfy` | keys made by joining fields with a separator | `StepsCollideIff`, `HostsCollideIff`, `NamesCollideIff`, `ClustersCollideIff` |
| `TopicSync.dfy` | the worker's and the service's topic synchronisation | `FailuresContained`, `Converges`, `WorkerAndServiceAgree`, `OnlyAlwaysFailingDiverge` |
| `MemoryCache.dfy` | the cache with time-to-live and capacity | `LookupIsLatest`, `WhatIsLost`, `CapacityIff`, `LostIffOwed` |
| `TokenBlacklist.dfy` | revoked tokens in memory and in the database | `RevokedStaysRevoked`, `MemoryRefuses`, `RevokedWasAdded`, `MistakenIff` |
| `HostMapping.dfy` | host-name mappings, written through and refreshed | `NeverAbsent`, `WhenReadersFallThrough`, `StepCoherentIff`, `RunResolvesAsDb` |
| `BatchQuery.dfy` | batched metric queries: deduplication, cache, goroutines | `BatchIsNaive` |
| `AdminClientPool.dfy` | the pool of Kafka admin clients | `PoolInvariant`, `ExpiresUnused`, `WhatInstallDoes`, `BlockedIff` |
| `FanOut.dfy` | semaphore and WaitGroup over the clusters | `RoundComplete`, `EveryScheduleReturns`, `EveryRound` |
| `TokenRefresh.dfy` | the single-flight token refresh of the browser client | `RunAsReplied`, `SendsAreBounded`, `EveryScheduleSettles` |
| `LagAccounting.dfy` | consumer lag per group, for all groups, and per topic | `RowsShown`, `TotalLagIsTheSum`, `AllAgreesWithSingle`, `ServiceAgreesIff` |
| `GroupDetails.dfy` | adding up lag rows read from VictoriaMetrics | `EntriesAre`, `LagIsPreserved` |

A class models an object that the source updates in place, with one method per locked section (or per stretch between two
awaits), proved against a specification of the state before and after. Where several callers interleave, a state machine takes
those sections as its steps, and the theorems are about all its runs. Databases, Kafka and VictoriaMetrics are snapshots or
oracles; whether a call to them fails is a parameter. So are the clock, the hash and the conversion of floats to text.

## What the proofs say about the code

Some claims hold only under a condition; the lemmas give the exact condition, or a run that shows the failure.

- The printer's text reads back as the same metrics exactly when names are valid and no metric has its own label `app`
  (`VictoriaMetrics.RoundTrip`). The platform's own parser does not undo escapes and splits at commas: it gets the metrics back
  exactly when metric names are valid, label names are trimmed and free of commas, equal signs, closing braces and line feeds,
  values are finite, and label values are free of quotes, commas, closing braces, backslashes and line feeds
  (`JmxClient.PrintParseRoundTrip`).
- The host-mapping list (internal/repository/host_mapping_repository.go:81) builds its pattern without escaping, which is right
  exactly for keywords without wildcards (`TopicSearch.UnescapedIsContains`).
- A request asks its limiter after the table's lock was released, so a cleanup can drop the limiter in between. No request can
  tell the table from one that never drops, at any point of a run, exactly if no cleanup drops a limiter that is still to be
  asked (`Limiters.InvisibleIff`, `IPRateLimit.IpInvisibleIff`). Otherwise a window lets through at most burst + rate × width
  requests and those that ask a dropped limiter (`IPRateLimit.IpWindow`), which can make twice the burst at one moment, for
  every number of requests per minute (`IPRateLimit.IpTwiceTheBurst`).
- Forgetting a user's limiter after ten minutes is invisible exactly when what the time from lookup to asking leaves of the ten
  minutes refills a burst (`RateLimit.StaleInvisibleIff`). The middleware refills one in a minute: it forgets nothing as long as
  requests ask within nine minutes of their lookup, and no longer delay is safe (`RateLimit.NineMinutes`).
- An update that renames a host mapping while the read of the old row fails leaves the old key in the cache until the next
  refresh, and nothing else breaks coherence (`HostMapping.StepCoherentIff`). During a refresh a reader can miss a host exactly
  if its mapping moves from the global key to the cluster's own key (`HostMapping.WhenReadersFallThrough`).
- A live entry of an unlimited cache can be lost before it expires, without anybody touching its key, exactly if some `Get` that
  found the key expired still owes its delete (`MemoryCache.LostIffOwed`). A `Set` keeps the capacity exactly unless the entry to
  evict has the empty key (`MemoryCache.CapacityIff`); no caller in the repository uses an empty key.
- A database hit is cached for the full 24 hours, so a token can be refused for almost 48 hours and the time from the read of the
  database to the refill of memory (`TokenBlacklist.RevokedWasAdded`, `RefillOverstays`). Every refusal of a token follows an
  addition of that token exactly if it is not `db:` and the hash of another token (`TokenBlacklist.MistakenIff`); the middleware
  checks the raw token before validating it (internal/middleware/auth.go:62).
- An answer served from the metrics cache was given at most 30 seconds and the time from VictoriaMetrics' answer to the `Set`
  before (`BatchQuery.BatchIsNaive`).
- Two hosts can share an access-list key, if no other field but the principal has a colon, exactly if one ends with a colon and the
  other, as IPv6 addresses may; two resource names with their patterns exactly if one name, its pattern and their colons begin the
  other name (`JoinedKeys.HostsCollideIff`, `NamesCollideIff`).
- The topic service and the exporter agree on a topic's lag exactly if they count the same partitions: the service ignores
  the sign of an offset, so a partition reported without a commit counts more than its whole log there; the exporter ignores a
  block's error (`LagAccounting.ServiceAgreesIff`).
- The third check in `createClient` never finds another client, because one creation per cluster runs at a time
  (`AdminClientPool.PoolInvariant`). A full pool evicts nothing exactly if a least recently used client has the id 0
  (`AdminClientPool.BlockedIff`); cluster ids are handed out by the database from 1 on.
- The comment on `SearchInNames` and `Search` calls escaping a protection against injection; what it does is make wildcards
  literal. The comments on the two key builders call them complete matches; they are, if no field but the principal has a colon
  (`JoinedKeys.AclKeyInjective`).

Two assumptions come from libraries that are not part of this repository: axios keeps the `_retry` flag when a request is sent
again with its own configuration, and `singleflight` runs one creation per key at a time.

## Model

| member | source | states |
|---|---|---|
| VictoriaMetrics.EscapeIsOnePass | pkg/victoriametrics/client.go:239-245 | the three replacement passes equal one character-wise escape, so none touches what an earlier one produced |
| VictoriaMetrics.ReadEscaped | pkg/victoriametrics/client.go:239-245 | an escaped value has no raw line feed, and a reader that stops at the first bare quote gets the value back: the escape has a left inverse |
| VictoriaMetrics.EscapePlain | pkg/victoriametrics/client.go:239-245 | a value without backslash, quote and line feed is printed as it is |
| VictoriaMetrics.EscapeInjective | pkg/victoriametrics/client.go:239-245 | different values are printed differently |
| VictoriaMetrics.ReadLineBack | pkg/victoriametrics/client.go:73-92 | one printed line, labels in any order, reads back as the metric plus `app="kmanager"`, or is malformed if the metric has a label `app` of its own |
| VictoriaMetrics.ReadTextBack | pkg/victoriametrics/client.go:70-92 | for valid names the whole text reads back as all metrics in order, unless one has a label `app` |
| VictoriaMetrics.RoundTrip | pkg/victoriametrics/client.go:70-92 | a reader of the text format gets exactly the metrics back, each with the injected label, if and only if every name is valid and no metric has a label `app` |
| VictoriaMetrics.LineIs | pkg/victoriametrics/client.go:73-92 | whatever the names and values, a line is the name, the labels joined by commas and led by `app="kmanager"`, a space and the value |
| VictoriaMetrics.WriteLabels | pkg/victoriametrics/client.go:78-88 | the inner loop builds the text of all labels of a metric, each once, in some order |
| VictoriaMetrics.WriteBatch | pkg/victoriametrics/client.go:70-92 | the loop over metrics builds the specified text for some order of each label map, and that text obeys the round trip |
| VictoriaMetrics.Write | pkg/victoriametrics/client.go:49-67 | nothing is sent when disabled; batches of 5000 go out until one is refused; the error names that batch's range; every body is the text of its batch, and reads back as it exactly if the batch is printable |
| VictoriaMetrics.ChunksCover | pkg/victoriametrics/client.go:54-61 | the batches of 5000 put together are the metrics, none missing, repeated or moved |
| JmxClient.SubmatchIsTheMatch | internal/service/monitor/jmx_client.go:16 | a line matches the regular expression in at most one way, and the submatches found left to right are that one |
| JmxClient.MatchIsFound | internal/service/monitor/jmx_client.go:16 | name, label block, white space and value of a matching line are found again |
| JmxClient.ParseLabels | internal/service/monitor/jmx_client.go:304-330 | key k has value v exactly if the last part `k=v` (the key trimmed of space, the value of quotes) says so; parts without `=` count for nothing |
| JmxClient.ParsePrometheusMetrics | internal/service/monitor/jmx_client.go:254-302 | each line whose trimmed form matches the regular expression, with a number that parses or NaN, +Inf or -Inf, gives exactly one metric, with the name, the labels the block says and the value or its substitute; the metrics keep the order of the lines, and no other line gives one |
| JmxClient.TextSaysIs | internal/service/monitor/jmx_client.go:254-302 | what is returned is what the lines say, and they say one thing only |
| JmxClient.WithoutLabels | internal/service/monitor/jmx_client.go:266-298 | a line without a label block, or with an empty one, gives exactly the metric without labels |
| JmxClient.LabelsSayIs | internal/service/monitor/jmx_client.go:304-330 | the labels read from a block are those its parts say, and no others |
| JmxClient.UnquotedIffPlain | internal/service/monitor/jmx_client.go:325 | stripping quotes gives a printed value back exactly when it needed no escaping |
| JmxClient.LabelsBack | internal/service/monitor/jmx_client.go:304-330 | the labels read from a printed block without closing braces inside are right exactly when every value is clean |
| JmxClient.BraceBreaksMatch | internal/service/monitor/jmx_client.go:16 | a closing brace in a label value makes the parser skip the line |
| JmxClient.LineSurvives | internal/service/monitor/jmx_client.go:261-299 | a printed line whose names the parser can read parses to the same metric exactly when its value is finite and its label values are clean |
| JmxClient.ReadableRoundTrip | internal/service/monitor/jmx_client.go:254-330 | the same for metrics with readable names; never more metrics come back than were printed |
| JmxClient.ParsedReadable | internal/service/monitor/jmx_client.go:254-330 | whatever the text, every metric the parser returns has readable names |
| JmxClient.PrintParseRoundTrip | internal/service/monitor/jmx_client.go:254-330 | for all metrics: parsing what `writeBatch` printed gives the same names, values and labels plus `app`, if and only if every name is readable, every value finite and every label value clean |
| TopicSearch.EscapeLikeIsOnePass | internal/repository/topic_repository.go:147-152 | the three replacement passes equal one character-wise escape |
| TopicSearch.EscapedMatchesPrefix | internal/repository/topic_repository.go:147-152 | an escaped keyword followed by `%` matches exactly the names that start with the keyword |
| TopicSearch.LeadingPercent | internal/repository/topic_repository.go:161 | a leading `%` matches if the rest matches from some position on |
| TopicSearch.LikeIsContains | internal/repository/topic_repository.go:147-161 | a name matches `%` + escaped keyword + `%` if and only if it contains the keyword |
| TopicSearch.SearchesAreContains | internal/repository/topic_repository.go:155-193 | topic search, search within names and user search return exactly the rows that contain the keyword, cluster and name filters included, each as often as the table has it and in its order |
| TopicSearch.UnescapedIsContains | internal/repository/host_mapping_repository.go:81 | an unescaped pattern is right for all names if and only if the keyword has no `\`, `%` or `_` |
| TokenBucket.AdvanceTwice | internal/middleware/ratelimit.go:123 | refilling in two steps is refilling in one, and tokens grow by at most rate times time |
| TokenBucket.SameAnswers | internal/middleware/ratelimit.go:123 | equivalent buckets answer a request alike and stay equivalent |
| TokenBucket.FullIsNew | internal/middleware/ratelimit.go:105-109 | a full bucket cannot be told from a newly created one |
| TokenBucket.AdmittedBound | internal/middleware/ratelimit.go:113-130 | from any table, a key gets at most its tokens plus rate times time through |
| TokenBucket.WindowBound | internal/middleware/ratelimit.go:113-130 | in every window of every trace the table that never drops lets at most burst + rate × width requests of a key through |
| TokenBucket.RefusedIff | internal/middleware/ratelimit.go:113-130 | for every trace: a request is let through if and only if that keeps every window that ends with it within burst + rate × width |
| Limiters.CleanRunIsKeepRun | internal/middleware/wrapper.go:193-245 | while no cleanup drops a limiter that is still to be asked, every decision is that of a table that never drops |
| Limiters.StrayRun | internal/middleware/wrapper.go:193-245 | in every trace the requests that ask a limiter in the table are decided as if those that ask a dropped one did not exist |
| Limiters.WindowWithDrops | internal/middleware/wrapper.go:193-245 | every trace and window: at most burst + rate × width requests of a key get through, and those that ask a dropped limiter |
| Limiters.InvisibleIff | internal/middleware/wrapper.go:193-245 | dropping is invisible at every point of a trace, whatever requests come then, if and only if no cleanup drops a limiter that is still to be asked |
| Limiters.TwiceTheBurst | internal/middleware/wrapper.go:193-245 | for every limit and moment there is a trace that lets twice the burst of one key through at that moment |
| IPRateLimit.IPRateLimiter.constructor | internal/middleware/wrapper.go:176-185 | an empty table; the burst is the number of requests per minute |
| IPRateLimit.IPRateLimiter.GetLimiter | internal/middleware/wrapper.go:216-235 | an existing limiter stays, a missing one starts full |
| IPRateLimit.IPRateLimiter.Allow | internal/middleware/wrapper.go:244 | the decision is that of the limiter looked up, in the table or not, which alone changes |
| IPRateLimit.IPRateLimiter.Cleanup | internal/middleware/wrapper.go:199-207 | only entries found full at some moment of the round are dropped; the others are brought up to date; every entry full at its start is dropped |
| IPRateLimit.IpInvisibleIff | internal/middleware/wrapper.go:176-245 | for every rate and trace: dropping is invisible if and only if no cleanup drops an address while a limiter looked up for it is still to be asked |
| IPRateLimit.IpForgetsNothing | internal/middleware/wrapper.go:176-245 | in such traces no decision changes, and every window obeys burst + rate × width |
| IPRateLimit.IpRefusesIff | internal/middleware/wrapper.go:176-245 | in such traces a request of an address is let through if and only if that keeps every window that ends with it within its bound |
| IPRateLimit.IpWindow | internal/middleware/wrapper.go:176-245 | in all traces a window lets through at most burst + rate × width requests of an address, and those that ask a dropped limiter |
| IPRateLimit.IpTwiceTheBurst | internal/middleware/wrapper.go:176-245 | for every rate, at any moment twice the burst of an address can get through |
| RateLimit.RateLimiter.constructor | internal/middleware/ratelimit.go:32-44 | an empty table with the given rate and burst |
| RateLimit.RateLimiter.GetLimiter | internal/middleware/ratelimit.go:85-110 | the key's limiter exists and counts as accessed now; other entries are unchanged |
| RateLimit.RateLimiter.Allow | internal/middleware/ratelimit.go:123 | the decision is that of the limiter looked up, in the table or not, which alone changes |
| RateLimit.RateLimiter.CleanupStaleEntries | internal/middleware/ratelimit.go:72-82 | exactly the entries not looked up for ten minutes are dropped; no limiter changes |
| RateLimit.StaleIsFull | internal/middleware/ratelimit.go:76-80 | an entry not looked up for ten minutes and last asked within the delay of its lookup is full, if the rest of the ten minutes refills a burst |
| RateLimit.StaleIsClean | internal/middleware/ratelimit.go:72-82 | then a cleanup drops full limiters only, and none that is still to be asked |
| RateLimit.StaleRunIsKeepRun | internal/middleware/ratelimit.go:72-130 | then every trace of lookups, asks and cleanups is decided as by a table that never drops anything |
| RateLimit.StaleInvisibleIff | internal/middleware/ratelimit.go:72-130 | for every limit and delay: dropping changes no decision of any trace whose requests ask within the delay of their lookup, if and only if the burst is 0 or rate × (600 s − delay) ≥ burst |
| RateLimit.MiddlewareForgetsNothing | internal/middleware/ratelimit.go:113-130 | with the middleware's limits and requests that ask within nine minutes no decision changes, and a window of w seconds admits at most 100 + 100/60·w requests of a key, across cleanups |
| RateLimit.MiddlewareRefusesIff | internal/middleware/ratelimit.go:113-130 | with the middleware's limits and requests that ask within nine minutes, a request is let through if and only if that keeps every window that ends with it within 100 + 100/60·w, across cleanups |
| RateLimit.NineMinutes | internal/middleware/ratelimit.go:113-130 | with the middleware's limits dropping is invisible for a delay if and only if it is at most nine minutes |
| JoinedKeys.IntTextInjective | internal/service/monitor/prometheus.go:632 | `%d` prints different integers differently |
| JoinedKeys.BatchKeyInjective | internal/service/monitor/prometheus.go:632 | with pipe-free steps two items share a key if and only if they ask the same, even with pipes in the query |
| JoinedKeys.SameStepInjective | internal/service/monitor/prometheus.go:632 | items with equal steps never clash, with pipes or without |
| JoinedKeys.StepsCollideIff | internal/service/monitor/prometheus.go:632 | two steps let different queries share a key if and only if one ends with a pipe and the other, and what comes before can be taken for times |
| JoinedKeys.AclKeyInjective | internal/worker/sync_worker.go:411-419 | the seven-field key determines all fields if all but the principal are colon-free |
| JoinedKeys.HostsCollideIff | internal/worker/sync_worker.go:411-419 | with colons in principal and host only, two hosts can share a key between different entries if and only if one ends with a colon and the other |
| JoinedKeys.NamesCollideIff | internal/worker/sync_worker.go:411-419 | with colons in principal and resource name only, two names with their patterns can share a key between different entries if and only if one name, its pattern and their colons begin the other name |
| JoinedKeys.AclKeyCollides | internal/worker/sync_worker.go:411-419 | an example with a colon in the host |
| JoinedKeys.CacheKeyInjective | internal/service/hostmapping/service.go:24-26 | for colon-free cluster names the cache key determines hostname and cluster |
| JoinedKeys.ClustersCollideIff | internal/service/hostmapping/service.go:24-26 | two cluster names can share a key if and only if one, with its colon, begins like the other |
| TopicSync.TopicRepository.Update | internal/repository/topic_repository.go:47-49 | the saved row replaces the one with its id, or is inserted if there is none (under a new id if it has none), unless the write fails or the unique index refuses it; ids and keys stay unique |
| TopicSync.TopicRepository.Create | internal/repository/topic_repository.go:42-44 | a new row under the next id, unless the write fails or the unique index refuses it |
| TopicSync.TopicRepository.Delete | internal/repository/topic_repository.go:52-54 | exactly the rows with the id are gone, unless the write fails |
| TopicSync.TopicsByName | internal/worker/sync_worker.go:278-281 | the cluster's rows by name |
| TopicSync.WorkerSyncOne | internal/worker/sync_worker.go:286-325 | one name is settled: right, or untouched if its write failed; only a divergent name is written |
| TopicSync.WorkerUpdateAll | internal/worker/sync_worker.go:286-325 | after the loop all snapshot names are settled, each divergent one written once, and the map holds the rows that are left |
| TopicSync.WorkerDeleteRest | internal/worker/sync_worker.go:328-333 | the rows that are left are deleted, or kept if the delete failed |
| TopicSync.WorkerSyncTopics | internal/worker/sync_worker.go:264-336 | every name of the cluster is settled, other clusters are untouched, and exactly the divergent names are written, each once |
| TopicSync.ServiceSyncOne | internal/service/topic/topic_service.go:532-557 | one name is settled; it is always written |
| TopicSync.ServiceUpdateAll | internal/service/topic/topic_service.go:532-557 | after the first pass all snapshot names are settled, each written once |
| TopicSync.ServiceDeleteRest | internal/service/topic/topic_service.go:560-571 | the second pass deletes exactly the rows whose name is not in the snapshot, or keeps those whose delete failed |
| TopicSync.ServiceSyncTopics | internal/service/topic/topic_service.go:518-571 | every name of the cluster is settled and written once, other clusters are untouched |
| TopicSync.FailuresContained | internal/worker/sync_worker.go:286-333 | after a run exactly those names diverge that did before and whose write failed; failed names keep their old row; other clusters are untouched |
| TopicSync.Converges | internal/worker/sync_worker.go:264-336 | without a failed write on a divergent name the cluster has exactly the snapshot's names; a row that was there has the snapshot's numbers and status synced, the worker's time stamp if it was not right, and keeps all else; a new row has no description and no configuration, and the worker's time stamp |
| TopicSync.NothingLeftToDo | internal/worker/sync_worker.go:286-333 | a worker's run on rows that are right writes nothing and changes nothing |
| TopicSync.WorkerAndServiceAgree | internal/service/topic/topic_service.go:518-571 | worker and service leave the same rows, ignoring timestamps and fresh ids, for all rows, snapshots and failures |
| TopicSync.OnlyAlwaysFailingDiverge | internal/worker/sync_worker.go:264-336 | over any sequence of runs a name still diverges exactly if it did at the start and its write failed every time |
| MemoryCache.MemoryCache.constructor | internal/cache/cache.go:38-50 | an empty cache |
| MemoryCache.MemoryCache.Lookup | internal/cache/cache.go:59-77 | the value if present and not expired, and whether a delete is owed |
| MemoryCache.MemoryCache.Get | internal/cache/cache.go:58-78 | without interference, the value if present and not expired, an expired entry being removed |
| MemoryCache.MemoryCache.Set | internal/cache/cache.go:81-104 | the entry with its expiration is stored; above capacity expired entries go, and if that is not enough one with the earliest expiration |
| MemoryCache.MemoryCache.Delete | internal/cache/cache.go:107-113 | the key is gone, all else stays |
| MemoryCache.MemoryCache.Clear | internal/cache/cache.go:116-122 | the cache is empty |
| MemoryCache.MemoryCache.EvictExpired | internal/cache/cache.go:125-132 | exactly the expired entries go; also the background cleanup's body (lines 161-168) |
| MemoryCache.MemoryCache.EvictOldest | internal/cache/cache.go:135-151 | an entry with the earliest expiration goes, unless its key is the empty string |
| MemoryCache.SetKeepsCapacity | internal/cache/cache.go:95-101 | with non-empty keys a set keeps the cache within its capacity |
| MemoryCache.SetKeepsLive | internal/cache/cache.go:95-101 | a set drops no live entry as long as the live entries fit, the new one included |
| MemoryCache.SetDropsOne | internal/cache/cache.go:95-151 | when they do not fit, exactly one of those that expire first goes, none if the empty key is chosen |
| MemoryCache.CapacityIff | internal/cache/cache.go:95-151 | for every cache within its capacity: all outcomes of a set stay within it if and only if not too many entries are live or none of the earliest of them has the empty key |
| MemoryCache.EmptyKeyOverflows | internal/cache/cache.go:148 | an example: with the empty key a cache of one comes to hold two |
| MemoryCache.EvictedIsEarliest | internal/cache/cache.go:95-101 | a live entry that a set pushes out expires no later than any that stays, and it is the only one |
| MemoryCache.RunKeepsInv | internal/cache/cache.go:58-173 | in every interleaving each cached entry is the latest set of its key, and a latest entry that is missing was lost or has expired |
| MemoryCache.RunKeepsCapacity | internal/cache/cache.go:80-104 | a run that sets no empty key never holds more than maxItems entries |
| MemoryCache.LookupIsLatest | internal/cache/cache.go:58-78 | in every interleaving a hit is the value of the latest set not followed by delete or clear and not expired, and a miss means there is none or it was lost |
| MemoryCache.WhatIsLost | internal/cache/cache.go:58-113 | in every run an entry is lost only to a set when more entries are alive than fit, or to a late delete of its key |
| MemoryCache.NothingLost | internal/cache/cache.go:58-113 | an unlimited cache loses no entry of a key unless a late delete of that key happens |
| MemoryCache.LostIffOwed | internal/cache/cache.go:58-113 | from any state of an unlimited cache a live entry can be lost before it expires, without a set or delete of its key and without clearing, if and only if a Get still owes a delete of that key |
| MemoryCache.LateDeleteLosesFreshEntry | internal/cache/cache.go:67-74 | an example run in which the late delete of an expired lookup removes a fresh entry |
| TokenBlacklist.BlacklistRepository.Create | internal/repository/token_blacklist_repository.go:30-32 | a new row unless the write fails or the hash is there already |
| TokenBlacklist.BlacklistRepository.LoadActive | internal/repository/token_blacklist_repository.go:56-62 | exactly the rows that have not expired |
| TokenBlacklist.BlacklistRepository.DeleteExpired | internal/repository/token_blacklist_repository.go:48-53 | exactly the expired rows go |
| TokenBlacklist.TokenBlacklistCache.IsBlacklisted | internal/cache/cache.go:274-293 | true exactly if memory has an entry that has not expired, or the database can be read and has an active row; a database hit is stored in memory with the full time-to-live, at the later moment of the store; the three parts are steps of the state machine |
| TokenBlacklist.TokenBlacklistCache.AddToBlacklist | internal/cache/cache.go:296-317 | the entry is stored in memory with its time-to-live, then the row in the database, whose failure is not an error |
| TokenBlacklist.TokenBlacklistCache.LoadFromDB | internal/cache/cache.go:320-343 | memory afterwards holds what it held, or active rows under their hash with the time they have left; if it has room for them, all of them and nothing is pushed out |
| TokenBlacklist.TokenBlacklistCache.CleanupExpired | internal/cache/cache.go:346-360 | exactly the expired rows go |
| TokenBlacklist.RunKeepsInv | internal/cache/cache.go:274-360 | in every run, every entry and row stems from an addition that is not too old, and a row that was inserted stays while it counts |
| TokenBlacklist.RevokedStaysRevoked | internal/cache/cache.go:274-317 | once a token was inserted into the database, every check within 24 hours that misses memory and can read the database answers true, whatever memory forgot |
| TokenBlacklist.MemoryRefuses | internal/cache/cache.go:274-300 | a token added to memory, and not forgotten since, is refused by memory for 24 hours, whether the database was written or not, unless it begins with `db:` and the rows are loaded in between |
| TokenBlacklist.RevokedWasAdded | internal/cache/cache.go:274-343 | in every run a refusal of a token that is not `db:` and the hash of another one follows an addition of that very token less than 48 hours and the time from read to refill before |
| TokenBlacklist.RefillOverstays | internal/cache/cache.go:285-289 | a run that uses up the 48 hours and the time from read to refill |
| TokenBlacklist.PrefixedTokenMistaken | internal/cache/cache.go:333 | for every such token a run in which it is refused without having been added |
| TokenBlacklist.MistakenIff | internal/cache/cache.go:274-343 | every refusal of a token, in every run, follows an addition of it if and only if the token is not `db:` and the hash of another token |
| HostMapping.ResolvesAsDb | internal/service/hostmapping/service.go:52-67 | with a coherent cache and colon-free cluster names the resolver answers what the table says: the cluster's row, else the global row, else the hostname |
| HostMapping.Service.ResolveForCluster | internal/service/hostmapping/service.go:52-67 | the two lookups and the fallback |
| HostMapping.Service.Create | internal/service/hostmapping/service.go:70-77 | on success the row is in the table and its address under its key; otherwise nothing changes |
| HostMapping.Service.Update | internal/service/hostmapping/service.go:80-96 | on success the row is saved, its old key dropped if the old row could be read and had another key, and its address stored |
| HostMapping.Service.Delete | internal/service/hostmapping/service.go:99-112 | on success the row and its key are gone; otherwise nothing changes |
| HostMapping.Service.ListMappings | internal/service/hostmapping/service.go:140-145 | the new content is coherent with the table |
| HostMapping.Service.StoreAll | internal/service/hostmapping/service.go:155-158 | the stores, one by one, add all of the new content |
| HostMapping.Service.DeleteRest | internal/service/hostmapping/service.go:159-164 | the deletes, one by one, leave exactly the new content |
| HostMapping.Service.RefreshCache | internal/service/hostmapping/service.go:130-165 | a complete refresh makes the cache coherent, first all stores, then all deletes; a failed listing changes nothing |
| HostMapping.DuringRefresh | internal/service/hostmapping/service.go:147-165 | at every moment every address is the old or the new one; nothing old is missing before the last store, nothing new after it |
| HostMapping.NeverAbsent | internal/service/hostmapping/service.go:147-165 | a key mapped before and after is never absent and has its old or new address |
| HostMapping.WhenReadersFallThrough | internal/service/hostmapping/service.go:52-67 | a host mapped before and after can be missed by the two lookups if and only if its mapping moves from the global key to the cluster's |
| HostMapping.StepCoherentIff | internal/service/hostmapping/service.go:70-112 | every operation keeps the cache coherent if and only if it is not a renaming update whose read of the old row fails |
| HostMapping.RefreshRestores | internal/service/hostmapping/service.go:130-165 | from any cache content one complete refresh restores coherence |
| HostMapping.TableAfter | internal/service/hostmapping/service.go:70-112 | a create or update is refused exactly if another row has the hostname and cluster; otherwise it changes one row only, a delete removes exactly the row with the id, and a refresh changes none |
| HostMapping.NewAddressAnswers | internal/service/hostmapping/service.go:70-96 | after a create or update that is not refused the resolver answers the new address for that host and cluster, and no other key gets another address |
| HostMapping.RunResolvesAsDb | internal/service/hostmapping/service.go:52-168 | after every sequential run without such an update the resolver answers what the table says |
| BatchQuery.Dedup | internal/service/monitor/prometheus.go:624-650 | distinct keys, each item's key among them, and each entry lists exactly the ids that asked for it, in order |
| BatchQuery.IdsInOrder | internal/service/monitor/prometheus.go:624-650 | the ids of an entry are those of the items with its key, each once, in the request's order |
| BatchQuery.IdsDisjoint | internal/service/monitor/prometheus.go:624-650 | with distinct ids no id is served by two goroutines |
| BatchQuery.StoreKeepsSound | internal/service/monitor/prometheus.go:684 | storing an answer some time after it was given keeps every cached answer right for its query, and not older than that time when stored |
| BatchQuery.RunKeepsInv | internal/service/monitor/prometheus.go:652-695 | in every interleaving, with other users of the cache, each answer obtained is right and at most 30 seconds and the time from answer to store old, and each key is asked at most once |
| BatchQuery.BatchIsNaive | internal/service/monitor/prometheus.go:608-697 | the response has exactly the request's ids, each with VictoriaMetrics' answer, or the error payload, to its own query, given during the request or at most 30 seconds and the time from answer to store before it began |
| BatchQuery.NeverStuck | internal/service/monitor/prometheus.go:658-695 | a goroutine that is not done can step, and each of its steps brings the request nearer to its end |
| AdminClientPool.AdminClientPool.constructor | pkg/kafka/pool.go:33-45 | an empty pool |
| AdminClientPool.AdminClientPool.Find | pkg/kafka/pool.go:49-58 | a pooled client is found, its stamp is now, its handle and every other entry are unchanged |
| AdminClientPool.AdminClientPool.Install | pkg/kafka/pool.go:90-115 | an existing client is stamped and the new one closed; a full pool evicts one and refuses, leaving the new one neither pooled nor closed; otherwise the new one is pooled with the stamp now and nothing else changes |
| AdminClientPool.AdminClientPool.Close | pkg/kafka/pool.go:137-146 | the client, if there is one, is closed once and removed |
| AdminClientPool.AdminClientPool.CloseAll | pkg/kafka/pool.go:149-157 | every client is closed once and the pool is empty |
| AdminClientPool.AdminClientPool.CleanupExpired | pkg/kafka/pool.go:184-198 | exactly the clients idle for longer than the limit are closed, each once, and removed |
| AdminClientPool.AdminClientPool.CleanupOldest | pkg/kafka/pool.go:201-220 | a least recently used client is closed and removed, unless its id is 0 |
| AdminClientPool.StepKeepsInv | pkg/kafka/pool.go:48-227 | every step of every caller keeps the pool invariant, and the third check never finds another client |
| AdminClientPool.PoolInvariant | pkg/kafka/pool.go:48-227 | in every interleaving: at most maxConns clients, one per id, all open, none closed twice, and dialled = pooled + waiting + closed + refused |
| AdminClientPool.StampIsLastUse | pkg/kafka/pool.go:48-135 | in every run the stamp of a pooled client is the time of its last use or of its installation |
| AdminClientPool.ExpiresUnused | pkg/kafka/pool.go:184-198 | in every run the cleanup removes a client if and only if its last use is longer ago than the limit |
| AdminClientPool.WhatInstallDoes | pkg/kafka/pool.go:90-115 | in every run an install is refused exactly when the pool is full; then one client goes that was last used no later than any other, and otherwise the new one is pooled and all others stay |
| AdminClientPool.RetrySucceeds | pkg/kafka/pool.go:103-115 | a refusal evicts and closes a least recently used client, so an immediate second try whose dial succeeds is pooled |
| AdminClientPool.BlockedIff | pkg/kafka/pool.go:90-115 | for every full pool: an install can be refused without evicting anything if and only if a least recently used client has the id 0 |
| AdminClientPool.ZeroIdBlocks | pkg/kafka/pool.go:201-219 | an example: a client under the id 0 blocks a pool of one |
| FanOut.Concurrency | internal/collector/collector.go:57-60 | there is always at least one slot |
| FanOut.Sequential | internal/collector/collector.go:160-179 | success and fail of a sequential collection add up to the number of clusters |
| FanOut.SequentialCounts | internal/collector/collector.go:160-179 | success is the number of clusters collected, fail that of those that failed, and total the sum of the metrics |
| FanOut.UpdateTally | internal/collector/collector.go:167-178 | a cluster is counted once, in whatever order goroutines get there |
| FanOut.StepKeepsInv | internal/collector/collector.go:160-181 | every step keeps slots, WaitGroup and counters equal to what the goroutines' phases say, and is one of the steps left |
| FanOut.NeverStuck | internal/collector/collector.go:160-181 | with a slot to give, some step is possible until the wait is over; for the collector's and the worker's order of taking a slot and adding to the WaitGroup |
| FanOut.Bounded | internal/collector/collector.go:161-165 | never are more clusters collected at once than there are slots |
| FanOut.RoundComplete | internal/collector/collector.go:160-181 | when the wait is over every slot is free, every cluster was collected exactly once, and the counters say how many clusters were collected, how many failed, and how many metrics there were |
| FanOut.EveryScheduleReturns | internal/worker/sync_worker.go:152-167 | no schedule is longer than 5n + 1 steps, and one that cannot go on has returned |
| FanOut.EveryRound | internal/collector/collector.go:120-125 | round after round on the same semaphore, each starts with every slot free and counts like a sequential collection |
| TokenRefresh.Interceptor.OnReply | frontend/src/services/api.ts:37-60 | settle, join the refresh in flight, or post one; the retry flag and the shared promise afterwards |
| TokenRefresh.Interceptor.OnRefreshDone | frontend/src/services/api.ts:62-65 | the shared promise is cleared |
| TokenRefresh.StepKeepsInv | frontend/src/services/api.ts:37-82 | every step keeps the invariant and lowers the bound on the steps left |
| TokenRefresh.RunAsReplied | frontend/src/services/api.ts:37-82 | on every schedule a request waits, posts a refresh or is sent again only if its first reply was a 401 and its url is not for authentication; it is settled with the last reply it got, the only one if it did not wait |
| TokenRefresh.WhatAReplyDoes | frontend/src/services/api.ts:37-60 | such a 401 makes its request wait for the refresh in flight, or for a new one exactly if there is none; every other reply settles its request and changes nothing else |
| TokenRefresh.SendsAreBounded | frontend/src/services/api.ts:37-82 | on every schedule at most one refresh is in flight, a request is sent at most twice and posts at most one refresh, authentication endpoints once and none, and n requests cost at most 3n sends |
| TokenRefresh.EveryScheduleSettles | frontend/src/services/api.ts:37-82 | every schedule that cannot go on has settled every request: those that waited were sent again exactly if their refresh succeeded and else got their 401; the browser is at the login page exactly if a refresh failed or it was there before |
| LagAccounting.CollectTopic | internal/service/monitor/kafka_exporter.go:204-212 | the offsets that are not negative, each partition asked for |
| LagAccounting.Collect | internal/service/monitor/kafka_exporter.go:318-331 | the committed offsets of a group, all of them among the partitions asked for, none of the earlier ones lost |
| LagAccounting.GetTopicPartitionOffsets | pkg/kafka/admin_client.go:373-393 | for every asked topic exactly the asked partitions that answer, with their log ends |
| LagAccounting.SumTopic | internal/service/monitor/kafka_exporter.go:362-417 | one row for each counted partition and the sums of current offset, end offset and lag |
| LagAccounting.SumTopics | internal/service/monitor/kafka_exporter.go:362-423 | an entry for each topic with a counted partition, and the running total |
| LagAccounting.ToSlice | internal/service/monitor/kafka_exporter.go:258-263 | every entry once, in some order, and the sum of their lags |
| LagAccounting.SliceIsComplete | internal/service/monitor/kafka_exporter.go:258-263 | the sum over the slice and the running total are the same number |
| LagAccounting.GetConsumerGroupInfo | internal/service/monitor/kafka_exporter.go:169-272 | an error for an unknown or broken group or unreadable offsets; otherwise the group's entry as specified by the cluster's log ends |
| LagAccounting.GatherOffsets | internal/service/monitor/kafka_exporter.go:308-332 | the offsets of every readable group, all their partitions among those asked for |
| LagAccounting.GroupEntry | internal/service/monitor/kafka_exporter.go:345-433 | the entry of one group; without offsets, one without topics |
| LagAccounting.GetAllConsumerGroupLags | internal/service/monitor/kafka_exporter.go:272-437 | exactly one entry for each description without an error, in their order, each as specified by the cluster's log ends although these are asked for once for all groups together |
| LagAccounting.LagBound | internal/service/monitor/kafka_exporter.go:236-251 | a topic's lag is at least end minus current, with equality if and only if no partition is ahead of its log end |
| LagAccounting.TotalLagIsTheSum | internal/service/monitor/kafka_exporter.go:258-263 | the total is the sum of the topic lags and the sum over all partitions with a committed offset that is not negative of max(0, end − current) |
| LagAccounting.TopicsDetermined | internal/service/monitor/kafka_exporter.go:225-256 | the topics, their sums and their partition rows are determined by the snapshot, up to order |
| LagAccounting.AllAgreesWithSingle | internal/service/monitor/kafka_exporter.go:272-437 | on one snapshot the all-groups entry and the single-group answer have the same total, topics, sums and partitions |
| LagAccounting.RowsShown | internal/service/monitor/kafka_exporter.go:225-256 | a row is shown exactly if its partition has a committed offset that is not negative, with that offset, its log end (0 if missing) and how far it is behind |
| LagAccounting.TopicsShown | internal/service/monitor/kafka_exporter.go:225-256 | a topic is listed exactly if it has such a partition; topics and partitions are listed once |
| LagAccounting.TopicSums | internal/service/monitor/kafka_exporter.go:225-256 | a topic's current offset, end offset and lag are the sums over its rows |
| LagAccounting.TopicGroupLag | internal/service/topic/topic_service.go:380-399 | the service's loop adds up the listed partitions that answer and have an error-free block |
| LagAccounting.ServiceLagIsTheSum | internal/service/topic/topic_service.go:380-399 | the service's number is the sum, over the committed partitions that are listed, answer and have no error, of how far each is behind, whatever the sign of its offset |
| LagAccounting.ServiceAgreesIff | internal/service/topic/topic_service.go:380-399 | service and exporter agree for all log ends if and only if each committed offset is non-negative exactly when its block is error-free and its partition listed |
| GroupDetails.ParseCGDetails | internal/service/monitor/prometheus.go:1112-1163 | distinct keys, exactly those of the rows that count, each with the sum of its rows |
| GroupDetails.EntriesAre | internal/service/monitor/prometheus.go:1112-1163 | there is one entry for a cluster, group and topic exactly if some row has these labels, and its lag is the sum of the sample values of all such rows |
| GroupDetails.LagIsPreserved | internal/service/monitor/prometheus.go:1125-1163 | the entries of the result add up to the rows that count |

## Left out

- Handlers, routing, SQL, Kafka and HTTP calls, files, Kerberos, logging, configuration: input and output. VictoriaMetrics is modelled as accepting or refusing a body, and as an oracle for queries.
- Cryptography, passwords, session tokens, base64: library calls. The token hash is taken as injective.
- Floats: the conversion to text is a parameter with the law that a printed value parses back exactly; rounding in the token bucket is not modelled, nor are NaN and infinities beyond what the printer and the parser do with them.
- Machine integers: offsets, lags and times are unbounded, so 64-bit overflow is not modelled; `requestsPerMinute` is not negative.
- Requests ask limiters in the order of their time stamps; in the source two requests may read the clock in one order and reach the limiter in the other.
- Loading the blacklist is one step, so all entries are stored at the moment the rows are read; a failed `LoadActive` ends it and changes nothing. A missing repository behaves like one whose reads and writes all fail. Adding a token again while its row is still there fails, because of the unique index.
- Other users of the shared caches and the keys they write; for batched queries they are one arbitrary step that stores only right answers.
- Searches: counting, paging and ordering, and collations that ignore case. The host-mapping list's other columns work like the first.
- Topic synchronisation: the service's counters, which are only logged; listing errors, which end the run before anything is written.
- Access-list synchronisation and how enumerations are rendered in its keys; the dash-joined access-list key, which is ambiguous.
- Host-mapping writes that overlap a refresh: they do not take its lock, and may be undone until the next one.
- The pool's cleanup goroutine and its stop channel, and what callers do with a client after it was closed.
- The retry loop around the synchronisation of one cluster, and what collecting a cluster does.
- The lag in seconds, members and states of groups beyond copying them, and the choice of groups for a topic.
- The cache of the dashboard query and its key, the dashboard's fallbacks, validators, mapping tables, role checks, audit fields, the user interface.
- The answers 400 to a malformed or empty batch; two items with the same id, or steps with a pipe, beyond `JoinedKeys.StepsCollideIff`.
- IPRateLimit.IPRateLimiter.Cleanup: a round is one step for the requests, so one that asks its limiter during a round asks before or after it; in the source the round's older time stamp can set such a limiter's clock back, which refills a little of it twice.
- TopicSearch.SearchesAreContains: the rows found, without their order, offset, limit and total count.
- LagAccounting.GroupEntry: without the lag in seconds.
- LagAccounting.GetAllConsumerGroupLags: without the lag in seconds.
- LagAccounting.AllAgreesWithSingle: without the lag in seconds, which only the all-groups computation fills.
- LagAccounting.TopicGroupLag: a listing of partitions that fails is an empty list, as in the source; groups are not filtered.
- FanOut.EveryScheduleReturns: assumes that collecting a cluster ends; the worker's goroutines count nothing, so their counters are to be ignored.
- TokenRefresh.EveryScheduleSettles: assumes nothing about replies, but a schedule on which a reply never comes is one that can still go on.
