# Trace stats and service discovery, modelled in Dafny

This project models four pieces of sequential logic from the Datadog agent.

- **The trace-stats concentrator** (`pkg/trace/stats/concentrator.go`). It covers:
  - bucket alignment (`alignTs`);
  - which span kinds get stats;
  - the container-ID gate of `NewStatsInput`;
  - the payload key `addNow` builds, with env and hostname falling back to the agent's own;
  - how every span of every trace goes to the span concentrator;
  - the agent identity `flushNow` stamps on what it writes;
  - the flush loop, a two-event machine: a tick writes a non-forced flush, exit writes one forced flush and stops.

  The concentrator is a class whose `Add`, `AddNow`, `FlushNow` and `Run` methods append to its record of additions, flush requests and written payloads.
- **Span aggregation keys** (`pkg/trace/stats/aggregation_test.go`). It covers:
  - the HTTP status code: the metric wins over the meta value, and an unparsable value gives 0;
  - peer-tag eligibility: client, producer and consumer, in any casing;
  - peer-tag resolution: configured order, "name:value", absent or empty tags skipped;
  - the peer-tag hash, which is 0 when nothing is resolved;
  - `IsTraceRoot`.

  The implementation file is not part of this model, so the functions carry the tabulated behaviour as contracts. The 64-bit hash is a caller-supplied function of the resolved tag list.
- **The client-stats aggregator** (`pkg/trace/stats/client_stats_aggregator_test.go`). It covers:
  - the aggregator's own time grid (`alignAggTs`);
  - clamping of skewed client timestamps, recorded in `AgentTimeShift`;
  - version data filled in from container tags;
  - the "distributions" copies a fresh bucket emits once a second payload arrives;
  - the per-key summed counts;
  - the "counts" payloads a merged bucket is demoted to when it is flushed;
  - the flush schedule against `oldestBucketStart` and `bucketDuration`.

  The aggregator is a class over a map from aligned bucket time (nanoseconds) to buckets, plus the sequence of written payloads. Its constants are parameters (`AggregatorConfig`). `pkg/trace/stats/client_stats_aggregator.go` is not part of this model, so the behaviour is the one its tests pin down.
- **Linux service discovery** (`pkg/collector/corechecks/servicediscovery/impl_linux.go`). The class `LinuxImpl` keeps three pid-keyed tables: potential services, alive services and ignored pids. `DiscoverServices` updates them in place from two inputs:
  - a process snapshot, or a procfs error;
  - the system probe's answer: no connection, a failed query, or the services with open ports.

  Each phase of the cycle is a method whose loop is proved against a pure specification (`Cycle`):
  - promotion;
  - the candidate scan;
  - the alive/heartbeat check;
  - the ignore pruning.

  Go iterates maps in an unspecified order. So each event list is specified as "every service of this table, each exactly once, in some order" (`ListsOnce`).

Modules: `Common` (options, Go's lower-casing, truncating remainder and `ParseUint`), `Pb` (payload records), `Aggregation`, `Concentrator`, `ClientStats` (pure bucket logic), `ClientStatsAggregator` (the aggregator class), `ServiceDiscovery`.

## Model

| member | source | states |
|---|---|---|
| Concentrator.AlignTs | pkg/trace/stats/concentrator.go:188-190 | the result is a multiple of the bucket size; for ts ≥ 0 it is ≤ ts and within one bucket of it; a negative ts is rounded toward zero (Go's truncating `%`) |
| Concentrator.AlignTsIdempotent | pkg/trace/stats/concentrator.go:188-190 | aligning an aligned timestamp changes nothing |
| Concentrator.AlignTsSameBucket | pkg/trace/stats/concentrator.go:188-190 | every non-negative timestamp of a bucket aligns to that bucket's start |
| Concentrator.SpanKindTable | pkg/trace/stats/concentrator.go:109-117 | a missing `span.kind` and "internal" get no stats; "SERVER" and "Consumer" do (lower-casing first) |
| Concentrator.ComputeStatsForSpanKind | pkg/trace/stats/concentrator.go:109-117 | a span without `span.kind` gets no stats; every kind that carries peer tags gets stats |
| Concentrator.PeerTagKindsAreStatsKinds | pkg/trace/stats/concentrator.go:109-117 | the peer-tag kinds are exactly the stats kinds other than server |
| Concentrator.NewStatsInput | pkg/trace/stats/concentrator.go:127-141 | always no traces; with client-computed stats the container ID is empty; otherwise it is kept iff (`enable_cid_stats` or a known Fargate orchestrator) and not `disable_cid_stats` |
| Concentrator.ContainerGateTable | pkg/trace/stats/concentrator.go:132-140 | the four flag combinations and the client-computed case, row by row |
| Concentrator.PayloadKeyFor | pkg/trace/stats/concentrator.go:153-169 | hostname and env differ from the tracer's only when the tracer left them empty, and then are the agent's; version, container, SHA and image tag are copied |
| Concentrator.SpanAdditions | pkg/trace/stats/concentrator.go:170-172 | one addition per span, in order, each with the same key, container, tags, origin and weight |
| Concentrator.Concentrator.constructor | pkg/trace/stats/concentrator.go:51-69 | bucket size, env, hostname and version come from the configuration; nothing added, flushed or written |
| Concentrator.Concentrator.AddNow | pkg/trace/stats/concentrator.go:152-173 | the additions grow by exactly the chunk's span additions under the payload key; nothing else changes |
| Concentrator.Concentrator.InputAdditionsSnoc | pkg/trace/stats/concentrator.go:144-148 | one more trace appends its own additions after the earlier traces' |
| Concentrator.Concentrator.InputAdditionsCount | pkg/trace/stats/concentrator.go:144-148 | `Add` makes one addition per span of all traces |
| Concentrator.Concentrator.InputAdditionsKeys | pkg/trace/stats/concentrator.go:144-169 | every addition carries the input's container and its trace's key, whose env and host are never empty when the agent's are not |
| Concentrator.Concentrator.Add | pkg/trace/stats/concentrator.go:144-148 | the additions grow by the traces' additions in order; flushes and writes unchanged |
| Concentrator.Concentrator.Stamp | pkg/trace/stats/concentrator.go:181-184 | the written payload holds the flushed buckets and the agent hostname, env and version fixed at construction |
| Concentrator.Concentrator.FlushNow | pkg/trace/stats/concentrator.go:181-184 | one flush request at `now` with the given force, and the stamped payload |
| Concentrator.Handled | pkg/trace/stats/concentrator.go:90-99 | the handled events are a prefix of the stream; all but the last are ticks; either the whole stream or up to an exit |
| Concentrator.HandledStopsAtFirstExit | pkg/trace/stats/concentrator.go:90-99 | with the first exit at k, the loop handles exactly events 0..k |
| Concentrator.OnlyLastFlushForced | pkg/trace/stats/concentrator.go:90-99 | no flush but the last is forced, and the last is forced iff the stream had an exit |
| Concentrator.Concentrator.Handle | pkg/trace/stats/concentrator.go:91-98 | a tick writes one non-forced flush and continues; exit writes one forced flush and stops |
| Concentrator.Concentrator.Run | pkg/trace/stats/concentrator.go:90-99 | the flushes and writes are those of the handled events, in order; additions unchanged |
| Concentrator.Concentrator.WrittenIsStamped | pkg/trace/stats/concentrator.go:181-184 | every written payload carries the agent identity fixed at construction |
| Aggregation.PeerTagsHash | pkg/trace/stats/aggregation_test.go:141-149 | the hash is 0 for no resolved tags and the hasher's value otherwise |
| Aggregation.GetStatusCode | pkg/trace/stats/aggregation_test.go:21-49 | an in-range metric is the code; without a metric a non-zero code is the decimal value of the meta string, and a non-numeric meta string gives 0 |
| Aggregation.StatusCodeMetricWins | pkg/trace/stats/aggregation_test.go:37-43 | a status-code metric decides the code whatever the meta map says |
| Aggregation.StatusCodeFromMeta | pkg/trace/stats/aggregation_test.go:25-30 | without a metric, any 32-bit code written in decimal in meta is read back exactly |
| Aggregation.StatusCodeTable | pkg/trace/stats/aggregation_test.go:21-49 | the five rows: nothing → 0, "200" → 200, metric 302 → 302, metric beats meta, "x" → 0 |
| Aggregation.ShouldCalculateStatsOnPeerTags | pkg/trace/stats/aggregation_test.go:175-188 | an eligible kind is never empty, server or internal in any casing |
| Aggregation.PeerTagEligibilityIgnoresCase | pkg/trace/stats/aggregation_test.go:175-188 | eligibility depends on the kind only up to case |
| Aggregation.PeerTagEligibilityTable | pkg/trace/stats/aggregation_test.go:176-183 | client, consumer, CLIENT and cLient are eligible |
| Aggregation.PeerTagEligibilityProducerCase | pkg/trace/stats/aggregation_test.go:177-181 | producer, PRODUCER and pRoducer are eligible |
| Aggregation.PeerTagIneligibilityTable | pkg/trace/stats/aggregation_test.go:182-185 | server, internal and "" are not eligible |
| Aggregation.MatchingPeerTags | pkg/trace/stats/aggregation_test.go:131-159 | at most one entry per configured tag, each the "name:value" of a configured tag present with a non-empty value |
| Aggregation.MatchingPeerTagsThree | pkg/trace/stats/aggregation_test.go:131-139 | three configured tags resolve to their pieces concatenated in configured order |
| Aggregation.PresentCountSplit | pkg/trace/stats/aggregation_test.go:151-159 | the present tags of a list split at any point into those before and after |
| Aggregation.PresentCountPrefix | pkg/trace/stats/aggregation_test.go:151-159 | the present count grows by one exactly at each present tag |
| Aggregation.MatchingPeerTagsOrder | pkg/trace/stats/aggregation_test.go:131-159 | the i-th configured tag, when present, sits right after the present tags before it, as "name:value" |
| Aggregation.MatchingPeerTagsLength | pkg/trace/stats/aggregation_test.go:131-159 | the resolved list has one entry per present configured tag |
| Aggregation.MatchingPeerTagsEmpty | pkg/trace/stats/aggregation_test.go:141-149 | nothing resolves exactly when every configured tag is absent or empty |
| Aggregation.NewAggregationFromSpan | pkg/trace/stats/aggregation_test.go:67-160 | key fields copied from the span; status code by `GetStatusCode`; trace root iff no parent; tags resolved only when configured and the kind is eligible; hash 0 when nothing is resolved, the hasher's value otherwise |
| Aggregation.PeerTagsHashDependsOnTagsOnly | pkg/trace/stats/aggregation_test.go:101-119 | two eligible spans resolving the same tags get the same hash |
| Aggregation.NewAggregationTable | pkg/trace/stats/aggregation_test.go:67-99 | empty span with peer tags off and with them on (nothing resolved, hash 0), peer tags off (kind kept, nothing resolved), and an empty kind with peer tags on (service kept, nothing resolved) |
| Aggregation.NewAggregationPeerService | pkg/trace/stats/aggregation_test.go:101-119 | a client or producer span with only peer.service resolves that one tag, hashed |
| Aggregation.PeerTagsConsumer | pkg/trace/stats/aggregation_test.go:121-130 | a consumer span resolves its two messaging tags and skips the absent database ones |
| Aggregation.PeerTagsAllResolved | pkg/trace/stats/aggregation_test.go:131-139 | three matching tags resolve in configured order, hashed |
| Aggregation.PeerTagsNoneResolved | pkg/trace/stats/aggregation_test.go:141-149 | all tags empty: nothing resolved, hash 0 |
| Aggregation.PeerTagsEmptySkipped | pkg/trace/stats/aggregation_test.go:151-159 | empty tags are skipped, the non-empty one resolves |
| Aggregation.IsTraceRootTable | pkg/trace/stats/aggregation_test.go:191-215 | no parent → TRUE, a parent → FALSE |
| ClientStats.AlignAgg | pkg/trace/stats/client_stats_aggregator_test.go:227-237 | the aligned time is on the offset grid, and the input lies in the bucket-wide window it starts |
| ClientStats.AlignAggOnGrid | pkg/trace/stats/client_stats_aggregator_test.go:239-277 | a grid time aligns to itself |
| ClientStats.AlignAggShift | pkg/trace/stats/client_stats_aggregator_test.go:184-193 | shifting a time by whole buckets shifts its aligned time equally |
| ClientStats.AlignAggMono | pkg/trace/stats/client_stats_aggregator_test.go:184-193 | alignment is monotonic |
| ClientStats.AlignAggWithin | pkg/trace/stats/client_stats_aggregator_test.go:202-210 | every time in the bucket window after a Unix-grid point aligns to that point plus the offset |
| ClientStats.SameAggregatorBucket | pkg/trace/stats/client_stats_aggregator_test.go:202-221 | times less than a bucket after a grid point share one bucket; one nanosecond before lands in the previous bucket |
| ClientStats.AggregatorNotAligned | pkg/trace/stats/client_stats_aggregator_test.go:227-237 | an aggregator time is never on the client-bucket grid, while `alignTs` always is |
| ClientStats.BucketTime | pkg/trace/stats/client_stats_aggregator_test.go:239-277 | a start is moved iff it is before the oldest bucket or after now; before → oldest bucket; after → current bucket; otherwise its own aligned bucket |
| ClientStats.BucketTimeInWindow | pkg/trace/stats/client_stats_aggregator_test.go:239-277 | every client bucket lands on the grid between the oldest and the current bucket |
| ClientStats.ShiftBucket | pkg/trace/stats/client_stats_aggregator_test.go:268-270 | a moved bucket starts at the aggregator time, with start minus shift equal to the declared start; an unmoved bucket is unchanged |
| ClientStats.FutureStartClamped | pkg/trace/stats/client_stats_aggregator_test.go:244-248 | a start h ahead is stored at the current bucket with shift −h |
| ClientStats.PastStartClamped | pkg/trace/stats/client_stats_aggregator_test.go:249-253 | a start h behind (beyond the horizon) is moved forward by h − oldestBucketStart + bucketDuration |
| ClientStats.TagValue | pkg/trace/stats/client_stats_aggregator_test.go:483-659 | "" when no tag starts with "name:"; otherwise the value of the first tag that does; a non-empty result is the value of a "name:value" tag of the list |
| ClientStats.SetVersionData | pkg/trace/stats/client_stats_aggregator_test.go:483-659 | only image tag and SHA can change; set values are kept; an empty one is filled with the container tag's value whenever the payload has a container and the lookup succeeds; with both set, no container or a failed lookup the payload is unchanged |
| ClientStats.VersionDataTable | pkg/trace/stats/client_stats_aggregator_test.go:531-656 | none set → both from the container; all set → payload unchanged; the payload's values override the container's |
| ClientStats.Trim | pkg/trace/stats/client_stats_aggregator_test.go:114-129 | marked "distributions", everything else kept except hits, errors and duration, which are zeroed; nil stats stay nil |
| ClientStats.TrimIdempotent | pkg/trace/stats/client_stats_aggregator_test.go:114-129 | trimming twice is trimming once |
| ClientStats.NewBucketAggregationKey | pkg/trace/stats/client_stats_aggregator_test.go:661-674 | every key field copied from the grouped stat, peer-tag hash of its tags |
| ClientStats.NewBucketAggregationKeyPeerTags | pkg/trace/stats/client_stats_aggregator_test.go:661-674 | no peer tags → hash 0; peer.service tag → the hash of that list |
| ClientStats.CountsFor | pkg/trace/stats/client_stats_aggregator_test.go:388-403 | a key with no entry has no counts |
| ClientStats.CountsForEntry | pkg/trace/stats/client_stats_aggregator_test.go:388-403 | with distinct keys, each entry holds the counts looked up under its key |
| ClientStats.AddToEntries | pkg/trace/stats/client_stats_aggregator_test.go:388-403 | the stat's counts are added to its key's, every other key (the default key included) is untouched, keys stay distinct |
| ClientStats.AddStats | pkg/trace/stats/client_stats_aggregator_test.go:388-403 | each key ends with its old counts plus the total of the non-nil stats under it |
| ClientStats.EntriesFor | pkg/trace/stats/client_stats_aggregator_test.go:388-403 | a payload key with no group has no entries |
| ClientStats.AddToGroups | pkg/trace/stats/client_stats_aggregator_test.go:388-403 | the payload key's entries absorb the stats, other groups unchanged, groups stay well formed |
| ClientStats.BucketAdd | pkg/trace/stats/client_stats_aggregator_test.go:376-387 | the bucket becomes merged at the same time; the second payload emits both trimmed copies, first first; later ones emit their own |
| ClientStats.MergedAfterTwo | pkg/trace/stats/client_stats_aggregator_test.go:376-387 | two payloads or more make a merged bucket at its creation time |
| ClientStats.MergedBucketSums | pkg/trace/stats/client_stats_aggregator_test.go:388-403 | for every payload key and aggregation key, the merged counts are the sum of what all payloads reported there |
| ClientStats.MergedBucketGroups | pkg/trace/stats/client_stats_aggregator_test.go:388-403 | one group per payload key received, no aggregation key twice within a group |
| ClientStats.EmittedAreTrimmedCopies | pkg/trace/stats/client_stats_aggregator_test.go:376-387 | every payload of a merged bucket was emitted exactly once as a trimmed copy, in arrival order |
| ClientStats.TrimAll | pkg/trace/stats/client_stats_aggregator_test.go:114-129 | the copies are the trims of the payloads, index by index |
| ClientStats.CountsPayload | pkg/trace/stats/client_stats_aggregator_test.go:131-173 | the counts payload's key is the group's key with the container cleared; one "counts" bucket at the aggregator time with one stat per entry, carrying that entry's counts |
| ClientStats.BucketFlush | pkg/trace/stats/client_stats_aggregator_test.go:184-193 | a single payload goes out unchanged; a merged bucket gives one counts payload per group |
| ClientStats.DemotedShape | pkg/trace/stats/client_stats_aggregator_test.go:131-173 | counts payload: "counts", client identity, container and sequence cleared, one bucket at the aggregator time with the client duration and no shift, one stat per entry holding that entry's counts, its key's service, name, resource, status code, type, synthetics flag, span kind and trace-root flag, and its peer tags, with no DB type, top-level hits or summaries |
| ClientStats.DemotedCountsAreSums | pkg/trace/stats/client_stats_aggregator_test.go:388-403 | each demoted stat carries the sum of everything reported under its pair of keys |
| ClientStatsAggregator.Emit | pkg/trace/stats/client_stats_aggregator_test.go:65-72 | nothing for no payloads; otherwise one client-computed payload with the agent identity |
| ClientStatsAggregator.AddClientBucket | pkg/trace/stats/client_stats_aggregator_test.go:376-387 | the bucket's time is in the map and the other buckets are untouched; a new time stores the single shifted payload and writes nothing; an existing time becomes the `BucketAdd` of the shifted payload, and what that emits is written as one more payload |
| ClientStatsAggregator.AddClientBucketsMonotone | pkg/trace/stats/client_stats_aggregator_test.go:196-225 | adding never loses a bucket and never rewrites what was written |
| ClientStatsAggregator.AddIntoNew | pkg/trace/stats/client_stats_aggregator_test.go:376-387 | a one-bucket payload landing at a time not yet open opens it with the stored payload and writes nothing |
| ClientStatsAggregator.AddIntoOpen | pkg/trace/stats/client_stats_aggregator_test.go:376-387 | a one-bucket payload landing at an open time is merged by `BucketAdd` and what that emits is written |
| ClientStatsAggregator.SameBucketPayloads | pkg/trace/stats/client_stats_aggregator_test.go:376-403 | payloads passed to `Add` that land in one new bucket leave it as `BucketOf` the stored payloads and write exactly what that bucket emits |
| ClientStatsAggregator.WritesCarryEmitted | pkg/trace/stats/client_stats_aggregator_test.go:376-387 | one write per arrival after the first, each client-computed with the agent identity, together carrying every emitted copy in order |
| ClientStatsAggregator.MergedAtOneTime | pkg/trace/stats/client_stats_aggregator_test.go:376-403 | two or more payloads in one new bucket: the writes carry the trimmed copy of every stored payload in arrival order, and the bucket holds, per payload key and aggregation key, the sum of what they reported |
| ClientStatsAggregator.AddPayload | pkg/trace/stats/client_stats_aggregator_test.go:196-225 | adding a payload with no client buckets changes nothing; otherwise no open bucket is lost and what was written stays written |
| ClientStatsAggregator.Stored | pkg/trace/stats/client_stats_aggregator_test.go:239-277 | a stored payload keeps one client bucket and the payload key of the version-filled payload |
| ClientStatsAggregator.AddClientBucketsSnoc | pkg/trace/stats/client_stats_aggregator_test.go:196-225 | one more client bucket is added to the state the earlier ones left |
| ClientStatsAggregator.Unswept | pkg/trace/stats/client_stats_aggregator_test.go:184-193 | what a sweep leaves is the buckets off the swept grid points |
| ClientStatsAggregator.GridGap | pkg/trace/stats/client_stats_aggregator_test.go:184-193 | there is no grid point between two consecutive ones |
| ClientStatsAggregator.EmptyFlushWritesNothing | pkg/trace/stats/client_stats_aggregator_test.go:181-182 | flushing an empty aggregator writes nothing |
| ClientStatsAggregator.FlushTs | pkg/trace/stats/client_stats_aggregator_test.go:175-194 | the flush time is on the aggregator grid, and less its offset it lies in (now − oldestBucketStart, now − oldestBucketStart + bucketDuration] |
| ClientStatsAggregator.Sweep | pkg/trace/stats/client_stats_aggregator_test.go:184-193 | the flushes of the buckets met on the grid, in time order; every written payload is client-computed and carries the agent's env, hostname and version |
| ClientStatsAggregator.SweepWritesNothingOffGrid | pkg/trace/stats/client_stats_aggregator_test.go:181-193 | a sweep that meets no bucket on its grid writes nothing |
| ClientStatsAggregator.SweepWritesGridFlushes | pkg/trace/stats/client_stats_aggregator_test.go:184-193 | every payload a sweep writes is the flush of a bucket it meets on its grid |
| ClientStatsAggregator.SweepOneBucket | pkg/trace/stats/client_stats_aggregator_test.go:184-193 | a lone grid bucket is written and removed iff it starts before the sweep's end |
| ClientStatsAggregator.EmptyFlushAfter | pkg/trace/stats/client_stats_aggregator_test.go:184-193 | a sweep starting after the only bucket writes nothing |
| ClientStatsAggregator.Aggregator.constructor | pkg/trace/stats/client_stats_aggregator_test.go:175-182 | no buckets, nothing written, oldest bucket at the flush time of now |
| ClientStatsAggregator.Aggregator.AddBucket | pkg/trace/stats/client_stats_aggregator_test.go:376-387 | the new map and writes are those of `AddClientBucket`, keeping the grid invariant |
| ClientStatsAggregator.Aggregator.Add | pkg/trace/stats/client_stats_aggregator_test.go:196-225 | version data filled in, then the payload's buckets added in order, as `AddClientBuckets`; with the oldest bucket not after now, no bucket opens before it |
| ClientStatsAggregator.Aggregator.AddBuckets | pkg/trace/stats/client_stats_aggregator_test.go:196-225 | the loop over a payload's client buckets gives exactly `AddClientBuckets` |
| ClientStatsAggregator.Aggregator.FlushBucket | pkg/trace/stats/client_stats_aggregator_test.go:184-193 | a present bucket's flush is written and the bucket deleted |
| ClientStatsAggregator.Aggregator.FlushOnTime | pkg/trace/stats/client_stats_aggregator_test.go:184-193 | buckets on the grid from the oldest up to the flush time are written in time order and deleted; the flush time becomes the oldest bucket, and, provided no bucket was older than the previous oldest bucket, no bucket older than it remains |
| ClientStatsAggregator.UnsweptNotBefore | pkg/trace/stats/client_stats_aggregator_test.go:184-193 | a sweep from the oldest open bucket leaves no bucket before where it stopped |
| ClientStatsAggregator.AddClientBucketsNotBefore | pkg/trace/stats/client_stats_aggregator_test.go:239-277 | with the oldest bucket on the grid and not after now, adding client buckets opens none before it |
| ClientStatsAggregator.SweepAdvance | pkg/trace/stats/client_stats_aggregator_test.go:184-193 | writing the current grid point's flush advances the sweep one step |
| ClientStatsAggregator.UnsweptStep | pkg/trace/stats/client_stats_aggregator_test.go:184-193 | one grid step removes exactly the bucket at that step |
| ClientStatsAggregator.UnsweptEnd | pkg/trace/stats/client_stats_aggregator_test.go:184-193 | stopping at the first grid point at or past the flush time leaves what a sweep up to it leaves |
| ClientStatsAggregator.FlushTimes | pkg/trace/stats/client_stats_aggregator_test.go:184-193 | the flush at t stops before the bucket of t; at t + oldestBucketStart − bucketDuration exactly at it; at t + oldestBucketStart just past it |
| ClientStatsAggregator.RetentionSpansTwoBuckets | pkg/trace/stats/client_stats_aggregator_test.go:184-193 | the retention window spans at least two buckets |
| ClientStatsAggregator.AlignAggShiftBy | pkg/trace/stats/client_stats_aggregator_test.go:184-193 | shifting by a multiple of the width shifts the aligned time equally |
| ClientStatsAggregator.SameOffsetDiff | pkg/trace/stats/client_stats_aggregator_test.go:184-193 | two grid times are a whole number of buckets apart |
| ClientStatsAggregator.AddUnmoved | pkg/trace/stats/client_stats_aggregator_test.go:184-185 | a one-bucket payload added at its own start becomes the single unmoved bucket at the aligned time |
| ClientStatsAggregator.FlushTimeScenario | pkg/trace/stats/client_stats_aggregator_test.go:175-194 | nothing written at t or at t + oldestBucketStart − bucketDuration; at t + oldestBucketStart the payload is written unchanged and no bucket is left |
| ServiceDiscovery.MarkIgnored | pkg/collector/corechecks/servicediscovery/impl_linux.go:53-56 | the listed names become ignored, other entries are kept |
| ServiceDiscovery.MarkEachIgnored | pkg/collector/corechecks/servicediscovery/impl_linux.go:54-56 | the merge loop gives exactly `MarkIgnored` |
| ServiceDiscovery.LinuxImpl.constructor | pkg/collector/corechecks/servicediscovery/impl_linux.go:53-76 | the configuration plus the Linux defaults as ignored; all three tables empty |
| ServiceDiscovery.AliveProcMap | pkg/collector/corechecks/servicediscovery/impl_linux.go:187-190 | keys are the pids of the list; each entry is a listed process with that pid |
| ServiceDiscovery.AliveProcMapCount | pkg/collector/corechecks/servicediscovery/impl_linux.go:174-190 | `aliveProcsCount` is the number of distinct pids, and every process is in the table |
| ServiceDiscovery.LinuxImpl.AliveProcs | pkg/collector/corechecks/servicediscovery/impl_linux.go:182-192 | an error iff the process list failed; otherwise the table `AliveProcMap` |
| ServiceDiscovery.GetServiceInfo | pkg/collector/corechecks/servicediscovery/impl_linux.go:194-226 | fails iff the stat file cannot be read; otherwise pid, ports, name and heartbeat time are those of the process, the service and now |
| ServiceDiscovery.StartTimeSeconds | pkg/collector/corechecks/servicediscovery/impl_linux.go:207 | start time is boot time plus ticks/100 rounded down, wrapping only past 64 bits |
| ServiceDiscovery.Due | pkg/collector/corechecks/servicediscovery/impl_linux.go:160 | with a positive period, due only once the period has elapsed; always due once the period plus a minute (less one nanosecond) has elapsed, since the elapsed time is truncated to whole minutes |
| ServiceDiscovery.DueIffElapsed | pkg/collector/corechecks/servicediscovery/impl_linux.go:160 | with a period of whole minutes, a heartbeat is due iff the period has elapsed |
| ServiceDiscovery.NotDueRightAway | pkg/collector/corechecks/servicediscovery/impl_linux.go:160 | a service stamped now is not due |
| ServiceDiscovery.PromotedAmong | pkg/collector/corechecks/servicediscovery/impl_linux.go:110-116 | promoted pids are exactly the visited potentials still alive |
| ServiceDiscovery.PromoteStep | pkg/collector/corechecks/servicediscovery/impl_linux.go:110-116 | visiting one more potential promotes it, stamped now, iff it is alive |
| ServiceDiscovery.PromoteAdvance | pkg/collector/corechecks/servicediscovery/impl_linux.go:110-116 | one more visited potential extends the alive table and the start events by that service, stamped now, exactly when its process runs |
| ServiceDiscovery.LinuxImpl.PromotePotentials | pkg/collector/corechecks/servicediscovery/impl_linux.go:110-117 | alive potentials join the alive table stamped now, each with one start event; potentials cleared; ignored pids unchanged |
| ServiceDiscovery.CandidateStep | pkg/collector/corechecks/servicediscovery/impl_linux.go:120-152 | only the reported pid can change; a pid that is ignored, alive or not running is skipped; otherwise an unreadable stat or an ignored name adds it to the ignored pids and leaves potentials alone, and a readable stat under a kept name records its info as a potential and leaves ignored pids alone |
| ServiceDiscovery.Candidates | pkg/collector/corechecks/servicediscovery/impl_linux.go:120-153 | ignored pids only grow, and only by reported pids; every new potential is a reported pid that is running, was not alive and was not ignored when the scan began |
| ServiceDiscovery.CandidatesFound | pkg/collector/corechecks/servicediscovery/impl_linux.go:120-153 | every new potential holds the info read for a report of its pid under a name that is not ignored |
| ServiceDiscovery.CandidatesRecord | pkg/collector/corechecks/servicediscovery/impl_linux.go:120-153 | with every pid reported once, each reported pid that is running, not alive, not ignored and not yet potential ends as a potential holding its info when its stat is readable and its name is kept, and as an ignored pid otherwise |
| ServiceDiscovery.CandidatesBounds | pkg/collector/corechecks/servicediscovery/impl_linux.go:120-153 | new potentials are running pids that are not alive; new ignored pids are running pids |
| ServiceDiscovery.LinuxImpl.ScanServices | pkg/collector/corechecks/servicediscovery/impl_linux.go:120-153 | the tables after the loop are `Candidates` over the reported services in order; the alive table unchanged |
| ServiceDiscovery.CandidatesDisjoint | pkg/collector/corechecks/servicediscovery/impl_linux.go:117-153 | with distinct reported pids, no pid is both potential and ignored |
| ServiceDiscovery.CheckedAmong | pkg/collector/corechecks/servicediscovery/impl_linux.go:156-164 | visited services stay iff their process runs |
| ServiceDiscovery.StoppedAmong | pkg/collector/corechecks/servicediscovery/impl_linux.go:157-159 | stopped services are the visited ones whose process is gone |
| ServiceDiscovery.BeatenAmong | pkg/collector/corechecks/servicediscovery/impl_linux.go:160-163 | beaten services are among the visited running ones |
| ServiceDiscovery.CheckStep | pkg/collector/corechecks/servicediscovery/impl_linux.go:156-164 | checking one more service drops and stops it when dead, stamps and beats it when due, else leaves it |
| ServiceDiscovery.LinuxImpl.CheckAlive | pkg/collector/corechecks/servicediscovery/impl_linux.go:156-164 | dead services deleted with one stop event each; due ones stamped now with one heartbeat event each |
| ServiceDiscovery.LinuxImpl.PruneIgnored | pkg/collector/corechecks/servicediscovery/impl_linux.go:167-171 | ignored pids are cut down to the running ones |
| ServiceDiscovery.LinuxImpl.DiscoverServices | pkg/collector/corechecks/servicediscovery/impl_linux.go:78-180 | the procfs, connection and query failures give their error codes and change nothing; otherwise the tables take one `Cycle` and the result reports them, the distinct pid count and the start/stop/heartbeat events |
| ServiceDiscovery.Cycle | pkg/collector/corechecks/servicediscovery/impl_linux.go:106-171 | after a cycle the alive services are exactly the previously alive or potential ones still running; the ignored pids include the old set's running pids and lie within the old set plus the reported pids, all running; an alive service that was not potential and not due keeps its entry; every potential is a reported running pid, neither alive after promotion nor ignored before, holding the info read for a report of it under a kept name |
| ServiceDiscovery.CycleRecordsCandidates | pkg/collector/corechecks/servicediscovery/impl_linux.go:106-153 | with every pid reported once, a cycle turns each reported running pid that is neither alive after promotion nor ignored into a potential holding its info when its stat is readable and its name is kept, and into an ignored pid otherwise |
| ServiceDiscovery.CycleKeysAreAlive | pkg/collector/corechecks/servicediscovery/impl_linux.go:117-171 | after a cycle all three tables hold running pids only |
| ServiceDiscovery.CyclePotentialsNotAlive | pkg/collector/corechecks/servicediscovery/impl_linux.go:110-164 | after a cycle no potential is alive |
| ServiceDiscovery.CyclePotentialsNotIgnored | pkg/collector/corechecks/servicediscovery/impl_linux.go:117-153 | with distinct reported pids, after a cycle no potential is ignored |
| ServiceDiscovery.RepeatedPidBothPotentialAndIgnored | pkg/collector/corechecks/servicediscovery/impl_linux.go:120-153 | a pid reported twice, kept name then ignored name, ends up both potential and ignored |
| ServiceDiscovery.PromotedNotBeaten | pkg/collector/corechecks/servicediscovery/impl_linux.go:110-163 | a service promoted in a cycle gets no heartbeat in that cycle |
| ServiceDiscovery.StoppedOrKept | pkg/collector/corechecks/servicediscovery/impl_linux.go:156-164 | every alive service is either stopped or kept, never both |

## Left out

- The goroutine, ticker, wait group and exit channel of `Start`, `Run` and `Stop`. The loop is modelled over a finite sequence of tick and exit events, and the span concentrator's answer to each flush is part of the event.
- The span concentrator itself (`addSpan`, `Flush`). It is not part of this model: additions and flush requests are recorded, and flushed buckets are an input.
- `Flush` reads the wall clock. The time is a parameter of `FlushNow`.
- The float sampling weight. It is carried as an opaque real value and never computed.
- The float-to-integer conversion of a status-code metric. The model takes the metric as an integer.
- The FNV-1a hash of peer tags. Its joining scheme is not visible, so the hash is a caller-supplied function, with 0 for no tags.
- OK and error summaries. They are opaque sequences.
- Logging, statsd, the panic watchdog and error telemetry.
- The procfs reads, the system-probe connection and `procfs.NewDefaultFS`. Their results are inputs, and the boot time is a constructor parameter. `newLinuxImpl`'s own procfs error is not modelled.
- `newLinuxImpl` writes the defaults into the caller's map. The model builds a new map, so that aliasing is not captured.
- `DiscoverServices` hands back references to its own maps. The result holds copies.
- `LinuxImpl.constructor`: `heartbeatTime` is a constructor parameter, because its value is defined outside the modelled file.
- `GetServiceInfo`: the service is stamped with the cycle's `now`, although the source reads the clock a second time.
- `ServiceDiscovery.Due`: `time.Time.Sub` saturates at the 64-bit limits. The model's durations are unbounded integers.
- Go's map iteration order is unspecified. The service-discovery event lists are specified as each service once in some order, and the loops pick keys nondeterministically.
- `ClientStats.BucketFlush`: a merged bucket's counts payloads, and the stats inside each, come out in first-arrival order of their payload and aggregation keys. The aggregator reads them from Go maps, so the program may emit them in any order; the model fixes one of those orders, and its contents are what the tests compare element by element.
- `ClientStats.MergedBucketSums`: hits, errors, durations and top-level hits are unbounded naturals, so the sums it and `ClientStats.DemotedCountsAreSums` state do not wrap at 2^64 as Go's uint64 fields do.
- `ClientStats.ShiftBucket`: bucket start, duration and time shift are unbounded integers, so the unsigned 64-bit arithmetic on a bucket's start and the signed 64-bit time shift do not wrap.
- The client-stats aggregator's writer mutex and the tests' protobuf string comparisons. Payloads are compared as values.
- Every `...Table` and `...Case` lemma checks the test rows it cites. Each row whose expected value is a concrete FNV hash is stated against the hasher instead.
- `ClientStatsAggregator.MergedAtOneTime` covers payloads added at one `now` with no flush in between, each carrying one client bucket. Payloads with several buckets, and buckets that span a flush, rely on `AddClientBuckets` and `FlushOnTime` alone.

