# Verified models of the SigNoz OpenTelemetry collector

This project models the stateful cores of the SigNoz distribution of the OpenTelemetry collector in Dafny and proves
what they keep over every input, every run and every interleaving. `dafny verify dfyconfig.toml` checks everything.

Code that edits objects or runs loops is a class or a method with a loop here, proved against a function or a state
machine; the laws are lemmas about that function or machine. Concurrent code is a state machine whose runs are sequences
of labels, one label per atomic step, so that a statement about all runs is one about all interleavings. Disks, clocks,
the network and foreign components appear as parameters that succeed or fail.

| component | files | what is proved |
|---|---|---|
| JSON path promotion | `Promotion`, `PromotionPlaces`, `PromotionInPlace` | what a path resolves to; the result does not depend on map iteration order; promoted values and the pruned body partition the leaves; no walked map is left behind empty |
| tail sampler | `TailSampler`, `TailSamplerProof`, `TailSamplerDelivery`, `TailSamplerEviction`, `TailSamplerOverload`, `TailSamplerGroups`, `TailSamplerProcessor` | table, eviction queue and counter agree; eviction is oldest first; the spans of a trace are forwarded exactly once unless that trace is evicted undecided, what becomes of one that is, and for exactly which loads none is |
| ClickHouse logs push | `LogsPipeline`, `LogsPipelineProof`, `LogsPipelineResults`, `LogsPipelineHang` | no send on a closed channel; every record appended exactly once; one fingerprint per bucket and resource; termination, and for exactly which batches a push can hang |
| span metrics | `MetricKeys`, `Decimals`, `DimensionsCache`, `SpanHistograms`, `SpanKeys`, `SpanLabels`, `SpanKeyLaws`, `SpanMetrics` | time-bucket keys read back; what keys and labels say; exactly when spans that share a key have the same labels, types included, and for exactly which dimensions they always do; an LRU cache that loses nothing before it is cleared; builds never fail and export every histogram with its labels and times; delta conservation |
| JSON type walk | `KeyCheck`, `TypeInference`, `FoundTypes`, `TypeWalk`, `TypeWalkers` | which types are found under which paths, and exactly when the walk fails; the key cache and the order of workers never change the answer |
| log pipeline | `ValueRoundTrip`, `LogRecords`, `StableGroups`, `LogGrouping`, `LogGroupingResults` | when values and records survive the way to stanza entries and back; grouping is stable and loses nothing |
| OpAMP configuration | `OpampConfig` | rollback, skipping and reporting over every run, and what failing calls break |
| query_log scraping | `QueryLogScraper` | gap-free intervals, every row pushed once, exact waits, exactly when 32 bits suffice |
| Kafka claims | `KafkaClaim` | at-least-once marking at every moment, balanced pauses |
| small cores | `Flatten`, `LabelHash`, `IndexExpr` | flattening loses nothing; the label hash is well defined and its steps injective; when an index expression reads back |

`PData`, `Sums`, `Words` (64-bit words) and `DottedPaths` (dotted keys and their segments) hold what several of these share.

## Where the code and its comments disagree

- `exporter/clickhouselogsexporter/exporter.go:560` says that after an error both producer and consumer exit through the
  cancelled context. The goroutines' sends do not watch the context, so after an error in the consumer the push can hang:
  `LogsPipelineHang.AppendErrorCanStrandThePush` gives such a run for every large enough batch, and
  `LogsPipelineHang.EveryPushReturnsExactly` says for which batches no run hangs.
- `processor/signoztailsampler/processor.go:154` speaks of removing the held batches at a decision; they are copied and
  stay with the trace. A second decision for the same trace therefore forwards them again
  (`TailSamplerOverload.EvictedUndecidedIsForwardedTwice`; `TailSamplerEviction.ForwardedOncePerVerdict` is the law).
- `exporter/clickhouselogsexporter/promoted.go:20` says that a nested map goes away when all its entries are extracted.
  A map on the walk that was empty from the start goes away too (`Promotion.EmptyMapGoes`, with a body of one entry in `Promotion.EmptyUserGoes`).
- The pattern at `cmd/signozschemamigrator/schema_migrator/index_operations.go:30` asks for three closing parentheses
  where line 19 prints two, so expressions of a type other than String never read back
  (`IndexExpr.OtherTypesAreNotRead`).
- In `opamp/server_client.go:287-297` a status call that fails keeps the no-operation flag up although the new
  configuration runs (`OpampConfig.UnconfirmedIsMisreported` is such a run). The report then stays wrong until a different configuration is confirmed
  (`OpampConfig.ReportIsRightExactly`), and sending the same one again does not help
  (`OpampConfig.ResendingDoesNotHelp`).

## Model

| member | source | states |
|---|---|---|
| Promotion.LiteralStable | exporter/clickhouselogsexporter/promoted.go:59-70 | Handling a path never makes another path a literal key of the level, nor stops it from being one, nor changes its value |
| Promotion.ResolveStable | exporter/clickhouselogsexporter/promoted.go:56-93 | What a path resolves to under literal preference is the same before and after another path is handled |
| Promotion.PruneCommutes | exporter/clickhouselogsexporter/promoted.go:56-93 | Handling two different paths gives the same body in either order, removed maps included |
| Promotion.PruneAllConfluent | exporter/clickhouselogsexporter/promoted.go:30-33 | Any two iteration orders of the set of promoted paths leave the same body |
| Promotion.PruneSetAnyOrder | exporter/clickhouselogsexporter/promoted.go:30-33 | The pruned body is a function of the body and the set alone |
| Promotion.SpotIsResolved | exporter/clickhouselogsexporter/promoted.go:38-51 | A path resolves exactly when it has a place, the value there is what it resolves to, and the keys of the place spell the path |
| PromotionPlaces.ResolvesNowhereExactly | exporter/clickhouselogsexporter/promoted.go:56-93 | A path resolves to nothing exactly when none of its places holds a value that is not a map; its places are its first segments as nested keys, any number of them, and the rest of it as one key |
| PromotionPlaces.ResolvesAtFirstPlace | exporter/clickhouselogsexporter/promoted.go:59-82 | And otherwise to the value at the first place that holds one, fewest nested keys first |
| PromotionPlaces.OnRouteExactly | exporter/clickhouselogsexporter/promoted.go:73-92 | A map is on the way of a path exactly when its keys are the first segments of the path and no place with fewer nested keys holds a value |
| Promotion.PruneTakesOneLeaf | exporter/clickhouselogsexporter/promoted.go:56-93 | Handling one path takes away the leaf it resolves to and leaves every other leaf in place unchanged |
| Promotion.LeavesPartitioned | exporter/clickhouselogsexporter/promoted.go:30-33 | After any sequence of different paths a leaf is gone exactly when the path its place spells was handled and resolves there |
| Promotion.PromotionPartitionsLeaves | exporter/clickhouselogsexporter/promoted.go:22-36 | Every leaf of the original is either promoted under its path or at its own place in the pruned body, and every promoted value is the leaf its path resolves to |
| PromotionPlaces.PromotionSplits | exporter/clickhouselogsexporter/promoted.go:22-36 | The whole of it by places alone: the promoted map has a path exactly when a place of it holds a value, with the value of the first such place; and a value stays in the body exactly when no promoted path has it at its first such place |
| Promotion.EmptiedMapsRemoved | exporter/clickhouselogsexporter/promoted.go:86-92 | No map that a path walks into is left behind empty, and a map that none walks into is as it was |
| Promotion.PromotionRemovesEmptiedMaps | exporter/clickhouselogsexporter/promoted.go:20-21 | The same for the set of paths, in whatever order they are handled |
| Promotion.EmptyMapGoes | exporter/clickhouselogsexporter/promoted.go:83-92 | A path that leads into a map that was empty from the start takes it away, with nothing extracted |
| PromotionInPlace.BodyMap.HandleSinglePath | exporter/clickhouselogsexporter/promoted.go:56-93 | The in-place edit leaves the pruned tree and records the resolved value under the full path, and touches no other object |
| PromotionInPlace.BodyMap.DescendInto | exporter/clickhouselogsexporter/promoted.go:83-85 | The recursive call changes only the nested map; the entries beside it keep their values |
| PromotionInPlace.ExtractEach | exporter/clickhouselogsexporter/promoted.go:30-33 | The loop over the set in any order gives the promoted map of the original body and its pruned body |
| PromotionInPlace.BuildPromotedAndPruneBody | exporter/clickhouselogsexporter/promoted.go:22-36 | The promoted map and the body left are those of the pruning, which splits the values as their places say; a body that is not a map promotes nothing and stays as it is |
| TailSamplerProof.DroppedIdIsOnTable | processor/signoztailsampler/processor.go:360-371 | In every interleaving an id taken off the queue is on the trace map, so the error branch is never reached |
| TailSamplerProof.IndexAgreement | processor/signoztailsampler/processor.go:282-309 | After every run, between arrivals: the ids on the map are those in the queue, each once, the counter is the size of the map, and it is at most the configured number of traces |
| TailSamplerProof.EvictionIsOldestFirst | processor/signoztailsampler/processor.go:300-308 | Over every run the ids evicted, followed by those still queued, are those queued at the start followed by those queued since, in order |
| TailSamplerProof.BatchWaits | processor/signoztailsampler/internal/idbatcher/id_batcher.go:121-133 | Over every run a batch of ids is taken for decision exactly as many ticks after the one that closed it as there are batches in the pipeline, which is the configured wait |
| TailSamplerProof.IdsAreBatched | processor/signoztailsampler/internal/idbatcher/id_batcher.go:105-119 | Every id handed to the batcher is in exactly one batch, in the order of handing over: a closed one, the current one, or on its way |
| TailSamplerDelivery.InvAlways | processor/signoztailsampler/processor.go:136-164 | For each trace: conservation of its spans between arrival, goroutines, the held batches, the ticker and the forwarded spans is kept by every step of every run in which that trace is not evicted undecided, whatever happens to others |
| TailSamplerDelivery.ExactlyOnce | processor/signoztailsampler/processor.go:311-338 | In every run in which a trace is never evicted undecided: none of its spans is forwarded twice, none is forwarded if it is not sampled, and if it is sampled every settled span has been forwarded exactly once |
| TailSamplerEviction.FewTracesAreNeverEvicted | processor/signoztailsampler/processor.go:298-308 | While no more different traces arrive than the configured number, no trace is ever evicted undecided: the proviso of exactly-once delivery holds for each |
| TailSamplerOverload.ManyTracesCanBeEvicted | processor/signoztailsampler/processor.go:298-308 | For every larger set of traces there is a run in which only these arrive and an undecided one is evicted |
| TailSamplerOverload.LoadIsSafeExactly | processor/signoztailsampler/processor.go:298-308 | So no run over a set of traces evicts an undecided one if and only if the set is no larger than the configured number |
| TailSamplerEviction.LostForever | processor/signoztailsampler/processor.go:300-308 | An undecided entry that is off the table and not with the ticker stays so for ever, and nothing of it is forwarded, whatever happens |
| TailSamplerEviction.EvictedUndecidedIsLost | processor/signoztailsampler/processor.go:300-308 | In every run: what a trace held when it was evicted undecided is never forwarded in any continuation, unless the ticker was evaluating it at that moment |
| TailSamplerEviction.ForwardedOncePerVerdict | processor/signoztailsampler/processor.go:143-163 | In every run, with evictions of any kind: when the work on an entry has settled, each span it held has been forwarded as often as the entry was decided Sampled, and each span that came after a decision once |
| TailSamplerEviction.HeldSpanForwardedOnceExactly | processor/signoztailsampler/processor.go:143-163 | So held spans are forwarded exactly once if and only if their entry is decided Sampled exactly once |
| TailSamplerOverload.EvictedUndecidedIsForwardedTwice | processor/signoztailsampler/processor.go:300-308 | A run with two such decisions: a trace is evicted undecided and arrives again, the spans held after the eviction are forwarded twice and those from before it never |
| TailSamplerGroups.GroupsArrive | processor/signoztailsampler/processor.go:269-341 | Over the groups of a batch, in any order, each trace is handed exactly the spans of its group and no other trace any |
| TailSamplerProcessor.Processor.constructor | processor/signoztailsampler/processor.go:115-127 | Starts empty, with as many empty decision batches as configured, in the initial state of the state machine |
| TailSamplerProcessor.Processor.MakeDecision | processor/signoztailsampler/processor.go:181-243 | The decision is NotSampled exactly when some policy answers that and none before it Sampled, in the order of the policies and each asked about this trace; otherwise Sampled |
| TailSamplerProcessor.Processor.AddToCurrentBatch | processor/signoztailsampler/internal/idbatcher/id_batcher.go:105-119 | The id goes to the end of the current decision batch |
| TailSamplerProcessor.Processor.DropTrace | processor/signoztailsampler/processor.go:360-374 | The trace leaves the map, on which it always is, and the counter goes down by one |
| TailSamplerProcessor.Processor.EvictOldest | processor/signoztailsampler/processor.go:304-306 | The oldest id leaves the full queue and its trace the map |
| TailSamplerProcessor.Processor.Post | processor/signoztailsampler/processor.go:298-308 | The id is queued; exactly when the queue was full the oldest trace makes room |
| TailSamplerProcessor.Processor.Deliver | processor/signoztailsampler/processor.go:311-338 | Spans of an undecided trace are held, those of a sampled one forwarded at once, those of another dropped |
| TailSamplerProcessor.Processor.ProcessGroup | processor/signoztailsampler/processor.go:275-339 | The whole effect of the spans of one trace, known or new, on the table, the queue and the current batch; every step is one of the state machine |
| TailSamplerProcessor.Processor.ProcessTraces | processor/signoztailsampler/processor.go:269-341 | The groups of a batch, taken in any order, have their effects one after the other; every trace has been handed exactly the spans of its group; table, queue and counter agree |
| TailSamplerProcessor.Processor.CloseCurrentAndTakeFirstBatch | processor/signoztailsampler/internal/idbatcher/id_batcher.go:121-133 | Gives the oldest batch and queues the current one behind the others |
| TailSamplerProcessor.Processor.SamplingPolicyOnTick | processor/signoztailsampler/processor.go:136-164 | Every trace of the oldest batch that is on the table is decided by the policies, in order, on what it holds, and forwarded exactly when that is Sampled; all other traces, the table and the queue are unchanged |
| TailSamplerProcessor.Processor.BatchDecides | processor/signoztailsampler/processor.go:142-163 | With the ids of a batch different, an entry is decided once if its id is in the batch and on the table, and otherwise left alone |
| TailSamplerProcessor.Processor.DecideTrace | processor/signoztailsampler/processor.go:143-163 | The trace gets the verdict of the policies, and what it holds is forwarded exactly when that is Sampled; a missing trace is passed over; no decided trace becomes undecided |
| TailSamplerProcessor.Processor.Agreement | processor/signoztailsampler/processor.go:282-309 | Between calls the table, the eviction queue and the counter agree |
| LogsPipelineProof.SendsAreOpen | exporter/clickhouselogsexporter/exporter.go:708-729 | A goroutine that is about to send finds the channel open |
| LogsPipelineProof.InvAlways | exporter/clickhouselogsexporter/exporter.go:553-746 | Every interleaving keeps the counters, the channel, the registry of fingerprints and the account of every record |
| LogsPipelineResults.ChannelSafety | exporter/clickhouselogsexporter/exporter.go:556-568 | In every run, errors and cancellation included: no panic, the channel closes at most once and only after every goroutine is past its send, the limiter is respected, no record is appended twice, and none whose own time, or else observed time, or else time of handling, is before the oldest allowed one |
| LogsPipelineResults.DeliveredExactlyOnce | exporter/clickhouselogsexporter/exporter.go:553-746 | A push that returns without error or cancellation has appended every record that is not too old exactly once, in a row with its observed time or else the clock, its time or else that, and the half-hour bucket of the latter; rows of the same bucket and resource carry one fingerprint, which the registry holds |
| LogsPipelineProof.RegistryExtends | exporter/clickhouselogsexporter/exporter.go:220-235 | A fingerprint once stored for a bucket and resource stays, whoever else computes one |
| LogsPipelineProof.NewFingerprint | exporter/clickhouselogsexporter/exporter.go:230-234 | A fingerprint that becomes known is the one computed for the record at hand, under its bucket and resource |
| LogsPipelineResults.RunsAreBounded | exporter/clickhouselogsexporter/exporter.go:575-746 | No run goes on for ever: its length is bounded by a rank of the state it starts in |
| LogsPipelineResults.HaltedShape | exporter/clickhouselogsexporter/exporter.go:708-743 | A push that can go no further without having returned has lost its consumer, a full channel and a goroutine waiting to send |
| LogsPipelineResults.CleanPushReturns | exporter/clickhouselogsexporter/exporter.go:736-746 | Without errors and cancellation a run that can go no further has returned |
| LogsPipelineResults.ReturnsIffChannelHasRoom | exporter/clickhouselogsexporter/exporter.go:576-634 | Once the consumer is gone, barring further failures, the push returns exactly when the channel has room for all rows still to be sent |
| LogsPipelineHang.StuckForever | exporter/clickhouselogsexporter/exporter.go:708-743 | With the consumer gone, the channel full and open and a goroutine waiting to send, no continuation returns, whatever else fails or is cancelled |
| LogsPipelineHang.AppendErrorCanStrandThePush | exporter/clickhouselogsexporter/exporter.go:560-561 | For every batch with at least two more non-expired records than the channel holds, a run in which one append error strands the push for ever, against what the comment says |
| LogsPipelineHang.CancellationCanStrandThePush | exporter/clickhouselogsexporter/exporter.go:576-634 | For every batch with more non-expired records than the channel holds, a run in which a cancellation strands the push for ever |
| LogsPipelineHang.EveryPushReturnsExactly | exporter/clickhouselogsexporter/exporter.go:553-746 | With failures and cancellation at any point, every run that can go no further has returned if and only if the batch has no more non-expired records than the channel holds |
| LogsPipelineHang.EveryPushReturnsExactlyIfOnlyAppendsFail | exporter/clickhouselogsexporter/exporter.go:553-746 | The same when only appends can fail, with one record more |
| MetricKeys.ParseFormatInt | processor/signozspanmetricsprocessor/processor.go:75-100 | A 64-bit number is printed in decimal with its sign and no zeros before it, and reads back as itself |
| Decimals.DigitsExactly | processor/signozspanmetricsprocessor/processor.go:93-100 | Printing a number with one more digit appends that digit |
| MetricKeys.ParsesIntExactly | processor/signozspanmetricsprocessor/processor.go:75-91 | A text reads as a number exactly when it is an optional sign, any zeros and its digits, and the number has 64 bits |
| MetricKeys.JoinedApart | processor/signozspanmetricsprocessor/processor.go:1238-1248 | Values in a key have one NUL between them and nothing else |
| MetricKeys.JoinedInjective | processor/signozspanmetricsprocessor/processor.go:1238-1248 | Keys of NUL-free values are equal exactly when the value sequences are |
| MetricKeys.TruncateBounds | processor/signozspanmetricsprocessor/processor.go:93-100 | A bucket starts at or before the span start, and that is before its end; buckets are counted from the start of year 1 |
| MetricKeys.BucketKeyRoundTrip | processor/signozspanmetricsprocessor/processor.go:75-100 | A delta key read back gives the start of its bucket rounded down to a second, which is the bucket start exactly when that is a whole second, as with every whole-second interval; the bucket holds the span start |
| MetricKeys.DeltaKeysEqual | processor/signozspanmetricsprocessor/processor.go:102-115 | Two delta keys are equal exactly when their buckets start in the same second and the values are equal; with whole-second intervals different buckets never share a key |
| MetricKeys.CumulativeKeyTimes | processor/signozspanmetricsprocessor/processor.go:75-91 | A cumulative key gives the processor start and the present unless its service name reads as a number, which is then taken for a time |
| DimensionsCache.Cache.Add | processor/signozspanmetricsprocessor/internal/cache/cache.go:58-60 | The key, new, live or set aside before, is usable and most recent; when the cache was full the least recently used entry is set aside and stays retrievable |
| DimensionsCache.Cache.Get | processor/signozspanmetricsprocessor/internal/cache/cache.go:63-75 | Finds every entry that is live or set aside, brings it back as most recent, and loses none |
| DimensionsCache.UsedExactly | processor/signozspanmetricsprocessor/internal/cache/cache.go:58-75 | Using a key moves it to the front and keeps the order of the others; a new one comes before them, and out of a full cache the last one falls |
| DimensionsCache.Cache.RemoveEvictedItems | processor/signozspanmetricsprocessor/internal/cache/cache.go:50-55 | Only what was set aside is cleared |
| DimensionsCache.Cache.Purge | processor/signozspanmetricsprocessor/internal/cache/cache.go:88-91 | Nothing can be looked up afterwards, evicted entries included |
| SpanHistograms.SearchFindsBucket | processor/signozspanmetricsprocessor/processor.go:1076-1083 | With ascending bounds the bucket of a latency is the first whose upper bound is not below it |
| SpanHistograms.SearchFloat64s | processor/signozspanmetricsprocessor/processor.go:1081-1083 | The binary search finds that bucket |
| SpanHistograms.SummaryMeaning | processor/signozspanmetricsprocessor/processor.go:1071-1086 | A histogram's count is the number of latencies and the sum of its buckets, and each bucket counts the latencies that belong in it |
| SpanHistograms.BucketsExactly | processor/signozspanmetricsprocessor/processor.go:1081-1083 | With ascending bounds each bucket counts the latencies above all bounds before its own and not above that one |
| SpanHistograms.Family.Observe | processor/signozspanmetricsprocessor/processor.go:1071-1086 | One span is added to the histogram of its key and to no other; the key gets the labels of the span exactly when it has none yet, and no other key's labels change |
| SpanHistograms.Family.Collect | processor/signozspanmetricsprocessor/processor.go:638-667 | A data point per histogram in memory with its key's labels and the times read from the key, or nothing exactly when some key has no labels |
| SpanHistograms.Family.Finish | processor/signozspanmetricsprocessor/processor.go:589-622 | In delta mode every histogram and all labels leave memory; otherwise exactly the histograms with evicted labels do, and the others stay as they are |
| SpanKeys.TrackBounded | processor/signozspanmetricsprocessor/processor.go:1250-1278 | Besides the overflow names the table of services and operations outgrows its configured sizes by at most one |
| SpanLabels.NamesAreKept | processor/signozspanmetricsprocessor/processor.go:1250-1263 | A service goes under its own name until more services are tracked than configured, and an operation until its service has more |
| SpanLabels.TrackEntersNames | processor/signozspanmetricsprocessor/processor.go:1273-1277 | A key enters one operation under one service and nothing else changes |
| SpanLabels.LabelsSay | processor/signozspanmetricsprocessor/processor.go:1175-1208 | The labels say service, operation, kind and status by name, each dimension as the span has it, or else the stable status attribute, the resource or the default, with its mark when the resource has it too, and nothing more |
| SpanLabels.CustomLabelsSay | processor/signozspanmetricsprocessor/processor.go:1210-1236 | The same for external and database calls: service, address and status, the dimensions, and nothing more |
| SpanLabels.KeysSay | processor/signozspanmetricsprocessor/processor.go:1264-1272 | The values of a key are service, operation, kind and status, and then the texts of the dimensions |
| SpanLabels.CustomKeysSay | processor/signozspanmetricsprocessor/processor.go:1285-1290 | Those of a custom key are service, status, the address if there is one, and the texts |
| SpanLabels.KeyPartsRead | processor/signozspanmetricsprocessor/processor.go:1291-1303 | What a dimension adds to a key is the text of its label, and nothing when it has none; in a custom key the marked text as well when it has the mark |
| SpanLabels.KeysBegin | processor/signozspanmetricsprocessor/processor.go:93-115 | A key begins with the second in which its bucket starts in delta mode, and with its first value otherwise |
| SpanKeys.LabelsEqualExactly | processor/signozspanmetricsprocessor/processor.go:1188-1200 | For any dimensions whose labels have different names, labels are equal exactly when the fixed ones are and the spans agree on every dimension: on its value, type included, and on whether the resource has it |
| SpanKeys.SharedKeyLabelsExactly | processor/signozspanmetricsprocessor/processor.go:1268-1272 | Two spans with one key of NUL-free texts have the same labels exactly when, for the table the labels are made from, their service and operation are the same, and they agree on every dimension, type included |
| SpanKeys.SharedCustomKeyLabelsExactly | processor/signozspanmetricsprocessor/processor.go:1285-1303 | Two external or database calls with one key of NUL-free texts have the same labels exactly when they agree on every dimension |
| SpanKeyLaws.KeysTellExactly | processor/signozspanmetricsprocessor/processor.go:1268-1272 | With attributes of any type, equal texts in the keys always mean agreement on every dimension exactly when no dimension is configured, even for resources without the dimensions: a number and its numeral as a string have one text and two labels |
| SpanKeyLaws.KeysTellForStringsExactly | processor/signozspanmetricsprocessor/processor.go:1268-1272 | For strings it is the same: a resource that repeats a span's attribute changes the labels and not the key |
| SpanKeyLaws.KeysTellStringsOfSpansExactly | processor/signozspanmetricsprocessor/processor.go:1311-1328 | For span attributes that are all strings and resources without the dimensions, keys tell exactly when no two dimensions without a default can be absent independently: at most one has none, or two of which one stands in for the other |
| SpanKeyLaws.CustomTextsOfBareResource | processor/signozspanmetricsprocessor/processor.go:1292-1300 | For resources without the dimensions custom keys have the same texts, so that holds for them too |
| SpanKeyLaws.CustomKeysTellExactly | processor/signozspanmetricsprocessor/processor.go:1292-1300 | With attributes of any type custom keys tell exactly when no dimension is configured |
| SpanKeyLaws.CustomKeysTellForStringsExactly | processor/signozspanmetricsprocessor/processor.go:1292-1300 | For strings, with any resources, custom keys tell exactly when at most one dimension is configured: the mark for one can read as the text of the next |
| SpanMetrics.Processor.BuildMetricKey | processor/signozspanmetricsprocessor/processor.go:102-115 | The key is that of the table as it was before the span, and the table grows by the span's names within its bounds |
| SpanMetrics.Processor.AggregateMetricsForSpan | processor/signozspanmetricsprocessor/processor.go:969-1030 | A span that is not skipped is observed once in the latency and call families and once in each other family it is a call of, each under its own key and labels, the labels from the table as the key has left it; a skipped one nowhere |
| SpanMetrics.SpanFacts | processor/signozspanmetricsprocessor/processor.go:969-1024 | In the fields of a span: it is aggregated exactly when it is not excluded and started within the window; its latency times a million is end minus start, or zero when it ends before it starts; it is an external call exactly when a client made it to a known address, and a database call exactly when it names a database system and is no server span |
| SpanMetrics.LatencyIsObserved | processor/signozspanmetricsprocessor/processor.go:990-993 | A span in the window adds one observation to the latency family, under the key of the latency dimensions and the table before it, with labels from the table after it unless the key had some |
| SpanMetrics.CallIsObserved | processor/signozspanmetricsprocessor/processor.go:1001-1004 | And one to the call family, under the key of the call dimensions and the next table |
| SpanMetrics.ExternalCallIsObserved | processor/signozspanmetricsprocessor/processor.go:1006-1017 | A client call to a known address adds one to the external family, under service, status, address and the external dimensions |
| SpanMetrics.DbCallIsObserved | processor/signozspanmetricsprocessor/processor.go:1019-1024 | A call that names a database system, but not of a server span, adds one to the database family |
| SpanMetrics.Processor.AggregateResource | processor/signozspanmetricsprocessor/processor.go:1035-1052 | The spans of a resource with a service name are aggregated in order in all four families, with the collector id among the resource attributes; without one nothing is |
| SpanMetrics.ResourceIsRead | processor/signozspanmetricsprocessor/processor.go:1036-1051 | The spans of a resource go under the text of its service name, empty for one that is no string, with its attributes and the collector id; without a service name nothing is aggregated |
| SpanMetrics.Processor.AggregateMetrics | processor/signozspanmetricsprocessor/processor.go:1032-1054 | The same for a batch: table, observations and labels of all families afterwards |
| SpanMetrics.BatchGrows | processor/signozspanmetricsprocessor/processor.go:969-1054 | A batch adds one observation for each span that is aggregated, in each family that it belongs to, in order, and each latency times a million is end minus start, or zero; it never changes the labels of a key that has some. Which spans these are is said by their fields |
| SpanMetrics.Processor.CollectAll | processor/signozspanmetricsprocessor/processor.go:561-587 | All data points of all families with labels and times, or nothing exactly when some key of some family has no labels |
| SpanMetrics.Processor.BuildMetrics | processor/signozspanmetricsprocessor/processor.go:561-623 | Never fails whatever the caches have evicted, and exports every histogram in memory as it stands with the labels and times of its key; in delta mode none is left, otherwise exactly those whose labels are still held |
| SpanMetrics.DeltaConservation | processor/signozspanmetricsprocessor/processor.go:1056-1069 | At any time the spans aggregated under a key are those in emitted points plus those in memory, and the buckets in memory sum to the count |
| DottedPaths.SplitDotted | pkg/keycheck/keycheck.go:54-71 | Splitting at the dots gives back dot-free segments that were joined |
| DottedPaths.DottedSegments | pkg/keycheck/keycheck.go:54-71 | Joining the segments of a key gives the key |
| KeyCheck.SegmentTestsThatRemain | pkg/keycheck/keycheck.go:74-91 | For a segment without digits and foreign symbols the UUID, base64 and timestamp tests never fire |
| KeyCheck.CardinalExactly | pkg/keycheck/cardinality.go:15-25 | A key counts as generated exactly when it has a character other than letters, underscore, dot, colon, at sign and hyphen, or a segment of more than 256 characters, of sixteen or more letters a to f, or of 26 capitals without I, L, O and U |
| FoundTypes.InferExactly | exporter/jsontypeexporter/exporter.go:161-268 | The inference fails exactly when it gets to an empty value, or looks at an array element that is empty or an array. Otherwise it finds exactly: String for strings and bytes, Bool, Int and Float64 for these, and for arrays the type of their elements, Array(Dynamic) when they are of different kinds; under the paths that lead there through keys that do not look generated and array elements that are maps, with a key for every level of depth |
| FoundTypes.SpelledInPieces | exporter/jsontypeexporter/exporter.go:148-159 | Such a path is spelled with a dot before every key, between backticks when it has a colon, an at sign or a hyphen, and brackets for every element |
| FoundTypes.ArrayNamedExactly | exporter/jsontypeexporter/exporter.go:214-251 | An array of one kind of elements is named by that kind, JSON for maps and Nullable for scalars, and one of several kinds Array(Dynamic) |
| TypeInference.ArrayMaskExactly | exporter/jsontypeexporter/exporter.go:214-251 | An array is Array(Dynamic) exactly when its elements are not all of the kind of the first, and otherwise of that kind |
| TypeInference.StopsAtFirstMismatch | exporter/jsontypeexporter/exporter.go:241-244 | Nothing after the first element of another kind is looked at |
| TypeInference.InferKeysStep | exporter/jsontypeexporter/exporter.go:178-201 | The types of a map are the union over its keys in whatever order they are taken, and it fails exactly when one of them does |
| TypeWalk.TypeSet.Insert | exporter/jsontypeexporter/types.go:40-74 | Exactly the types named by the bits of the mask are added, for that path only |
| TypeWalk.Exporter.SkipsKey | exporter/jsontypeexporter/exporter.go:186-193 | The cached answer is the uncached one, whatever the cache holds |
| TypeWalk.Exporter.Walk | exporter/jsontypeexporter/exporter.go:161-268 | The walk with the cache succeeds exactly when nothing it gets to is an error, and then adds exactly the types there are to find under their paths, as the inference says |
| TypeWalk.Exporter.WalkKeys | exporter/jsontypeexporter/exporter.go:171-206 | The same for the keys of a map in any order |
| TypeWalk.Exporter.WalkEach | exporter/jsontypeexporter/exporter.go:214-252 | The same for the loop over array elements, which records the mask of the pure inference |
| TypeWalkers.AdvanceKeepsTypes | exporter/jsontypeexporter/exporter.go:161-268 | One step of one worker neither loses nor invents types, whatever other workers have put into the shared cache |
| TypeWalkers.BatchIsCacheFree | exporter/jsontypeexporter/exporter.go:83-145 | In every interleaving of the workers of a batch, from any reachable cache, a batch that ends without an error has collected exactly the types that its records have, each by itself, under their paths; and there is an error only if some record is one by itself |
| ValueRoundTrip.RoundTripExactly | processor/signozlogspipelineprocessor/utils.go:53-106 | A value survives the way to a plain value and back exactly when nothing in it is empty and no key in it has the internal prefix |
| ValueRoundTrip.OnePassSettles | processor/signozlogspipelineprocessor/utils.go:53-106 | After one pass a second one changes nothing |
| ValueRoundTrip.AsRawSaysSame | processor/signozlogspipelineprocessor/processor.go:156-187 | A plain value is of the kind of the value it was made from, with its content, at every place inside |
| ValueRoundTrip.UpsertBecomes | processor/signozlogspipelineprocessor/utils.go:53-106 | A plain value becomes the value that says the same, but for nil and other types, which are printed, unsigned integers, which keep their 64 bits, and keys with the internal prefix, which go |
| ValueRoundTrip.UpsertToMap | processor/signozlogspipelineprocessor/utils.go:53-60 | Every key without the internal prefix is written with its converted value, in any iteration order |
| ValueRoundTrip.UpsertToAttributeVal | processor/signozlogspipelineprocessor/utils.go:62-106 | The recursive write, case by case, gives the converted value, unsigned 64-bit numbers wrapping to signed ones |
| ValueRoundTrip.UnsignedKeptExactly | processor/signozlogspipelineprocessor/utils.go:82-91 | An unsigned number keeps its value exactly when it fits in 63 bits |
| LogRecords.FieldsBack | processor/signozlogspipelineprocessor/processor.go:156-187 | Field by field, what a record is after both conversions: times, severities 0 to 24, ids and the low flag byte are kept, an empty severity text is filled in, the dropped attributes count and the event name are lost |
| LogRecords.EntryTells | processor/signozlogspipelineprocessor/processor.go:156-187 | Field by field, what the entry of a record says: signed times, the clock for a missing observed one, ids that are not all zero, the low flag byte |
| LogRecords.RecordTells | processor/signozlogspipelineprocessor/utils.go:119-156 | Field by field, what the record of any entry says: times modulo 2^64, ids with zeros before them or cut, the first flag, and a text for a severity without one |
| LogRecords.DefaultTextNames | processor/signozlogspipelineprocessor/utils.go:125-129 | Those texts are TRACE, DEBUG, INFO, WARN, ERROR and FATAL for four numbers each, with 2 to 4 after the name for all but the first |
| LogRecords.RecordRoundTripExactly | processor/signozlogspipelineprocessor/utils.go:119-156 | A record comes through unchanged exactly under a condition on its fields, among them that nothing is counted as dropped and there is no event name |
| StableGroups.MembersAreOwn | processor/signozlogspipelineprocessor/utils.go:22-48 | A group is never empty and holds exactly the members with its key, in their order |
| StableGroups.GroupKeysDistinct | processor/signozlogspipelineprocessor/utils.go:26-29 | No two groups share a key |
| StableGroups.GroupStands | processor/signozlogspipelineprocessor/utils.go:38-48 | The members of a group are those of the sequence with its key, at increasing places |
| StableGroups.GroupsInOrder | processor/signozlogspipelineprocessor/utils.go:26-29 | Groups are in the order in which their keys first appear |
| StableGroups.GroupsWeighTheSame | processor/signozlogspipelineprocessor/utils.go:22-48 | The groups are a rearrangement of the sequence |
| StableGroups.GroupsOfConcat | processor/signozlogspipelineprocessor/utils.go:22-48 | Grouping what is grouped already gives the same groups |
| StableGroups.IndexAfterPut | processor/signozlogspipelineprocessor/utils.go:26-41 | An index map that points at every group still does after a member is added |
| LogGrouping.AddToScopes | processor/signozlogspipelineprocessor/utils.go:38-47 | The record is appended to the one scope logs of its name, made when missing, and the scope index still points right |
| LogGrouping.AddEntry | processor/signozlogspipelineprocessor/utils.go:22-48 | One entry keeps both index maps pointing at the groups and adds its record to the group of its resource hash and scope name |
| LogGrouping.ConvertEntriesToPlogs | processor/signozlogspipelineprocessor/utils.go:15-51 | The output is the two-level grouping of the entries by resource hash and scope name |
| LogGrouping.GroupingIsStable | processor/signozlogspipelineprocessor/utils.go:15-51 | Every pair of resource hash and scope name of an entry owns exactly one scope logs, which holds the records of exactly its entries in order, and none is empty |
| LogGrouping.GroupingSays | processor/signozlogspipelineprocessor/utils.go:15-51 | By the places of entries alone: resource logs in the order in which their hashes appear, with the converted attributes of the first of their entries and nothing else; in them scope logs in the order of their names, with nothing but a name and the converted records of exactly the entries of that hash and name, in order; every entry is in one |
| LogGroupingResults.RecordsAreRearranged | processor/signozlogspipelineprocessor/utils.go:15-51 | The records of the output are a rearrangement of the converted entries |
| LogGroupingResults.AttributesAreOwnExactly | processor/signozlogspipelineprocessor/utils.go:23-31 | Every record sits under its own resource attributes exactly when resources that hash alike have alike attributes |
| LogGroupingResults.PlogToEntries | processor/signozlogspipelineprocessor/processor.go:133-154 | The entries are those of the records, resource by resource, scope by scope, in order |
| LogGroupingResults.EntryStands | processor/signozlogspipelineprocessor/processor.go:133-154 | The entry of a record stands after those of everything before it, and tells of that record, its resource attributes and its scope name |
| LogGroupingResults.TidyLogsKeepTheirShape | processor/signozlogspipelineprocessor/processor.go:95-130 | Through a pipeline without operators tidy logs keep their resources, scopes and records in order; the conversions show, and of a scope only the name is left, of a resource only the attributes |
| LogGroupingResults.UntouchedLogsComeBackExactly | processor/signozlogspipelineprocessor/processor.go:95-130 | Logs come out of a pipeline without operators as they went in exactly when they are tidy, scopes have nothing but a name, resources nothing but attributes, and all parts convert back unchanged |
| OpampConfig.Client.ReloadFile | opamp/server_client.go:301-340 | The in-place reload with its rollback gives the state and result of the state machine under every pattern of failures |
| OpampConfig.Client.Start | opamp/server_client.go:182-191 | Start reloads the no-operation configuration with the flag up, and no remote configuration counts as received |
| OpampConfig.Client.ApplyRemoteConfig | opamp/config_manager.go:167-193 | Skipping, reloading, hashing and the first-received flag, under every pattern of failures |
| OpampConfig.Client.GetEffectiveConfig | opamp/server_client.go:148-161 | The initial configuration while the flag is up and the file afterwards; it fails exactly when the file is needed and cannot be read |
| OpampConfig.Client.OnRemoteConfigHandler | opamp/server_client.go:273-298 | The flag comes down exactly after a change whose status call succeeded |
| OpampConfig.FailedReload | opamp/server_client.go:312-339 | A reload takes hold exactly when every step succeeds; one that fails leaves the file as before exactly under a condition on the failing write; the collector goes on as it was when the copy or the write fails, and after a failed restart runs what is in the file, or is down; nothing else of the client changes |
| OpampConfig.UnreadFile | opamp/config_manager.go:176-190 | A changed configuration that runs but cannot be read back counts as a change and an error: the hash becomes that of the empty text, and no configuration counts as received for it |
| OpampConfig.FailedApply | opamp/config_manager.go:176-180 | A failed reload is an error, not a change, and leaves hash and flags alone |
| OpampConfig.SkippedApply | opamp/config_manager.go:170-174 | An unchanged configuration is no change, no error, and nothing is done |
| OpampConfig.AppliedAndTold | opamp/server_client.go:273-298 | Over every run with a working disk, whatever restarts and status calls do: what is applied is the last configuration the collector restarted on, and the no-operation flag is up exactly until a new one is confirmed by a status call |
| OpampConfig.FileOkAlways | opamp/config_manager.go:167-193 | Over every such run, once a configuration is applied the file is that one and the hash that of the file |
| OpampConfig.SkipsExactlyUnchanged | opamp/config_manager.go:170-174 | A configuration is skipped exactly when one has been applied, which is the one in the file, and hashes alike |
| OpampConfig.ReportsLastAccepted | opamp/server_client.go:148-161 | If every status call arrives, the reported configuration is always the last one the collector restarted on, and the initial one before that: never the no-operation one |
| OpampConfig.ReportIsRightExactly | opamp/server_client.go:287-297 | With a working disk and no hash collision, over runs with any restarts and status calls, the report is right if and only if nothing was accepted, or some new configuration was confirmed, or the last accepted one is the initial one |
| OpampConfig.UnconfirmedIsMisreported | opamp/server_client.go:287-297 | One message whose configuration runs and whose status call fails leaves the initial configuration reported |
| OpampConfig.ResendingDoesNotHelp | opamp/server_client.go:287-297 | Sending the last accepted configuration again is skipped and changes nothing, so a wrong report stays wrong |
| OpampConfig.FailedReloadHidesTheFile | opamp/server_client.go:312-339 | After any failed reload the last good configuration is skipped as unchanged, and the file holds something else exactly when a failing write, or a failing restore, left something else in it |
| QueryLogScraper.QueryLogsToPlogs | receiver/clickhousesystemtablesreceiver/receiver.go:191-215 | Succeeds exactly when every row converts, and then gives a group per host with its records in order |
| QueryLogScraper.Receiver.constructor | receiver/clickhousesystemtablesreceiver/receiver.go:53-63 | The first interval starts at the server clock of the start |
| QueryLogScraper.Receiver.ScrapeAndPushQueryLogs | receiver/clickhousesystemtablesreceiver/receiver.go:168-189 | Succeeds exactly when the query, the conversion and the consumer do |
| QueryLogScraper.Receiver.ScrapeQueryLogIfReady | receiver/clickhousesystemtablesreceiver/receiver.go:102-166 | The new start, the pushed interval, the wait and the error of one attempt in 32-bit arithmetic |
| QueryLogScraper.ReadyExactly | receiver/clickhousesystemtablesreceiver/receiver.go:112-117 | The readiness test means what it should, whatever the clock shows, exactly when the end of the delay fits in 32 bits |
| QueryLogScraper.RunsAreIdeal | receiver/clickhousesystemtablesreceiver/receiver.go:102-166 | While the clock leaves room, whole runs in 32 bits are those with unbounded integers |
| QueryLogScraper.ScrapesAreGapFree | receiver/clickhousesystemtablesreceiver/receiver.go:112-151 | Over every run of successes, failures and early attempts the pushed intervals are adjacent and cover exactly what lies between the first and the present start, each scraped after its end and the delay; each push has, host by host, the records of exactly the rows of the table with event times in its interval, in order |
| QueryLogScraper.WaitIsExact | receiver/clickhousesystemtablesreceiver/receiver.go:117-165 | After an early or successful attempt the wait is the shortest after which the next interval has ended and its delay passed; after a failed one, or without a clock, it is the interval |
| QueryLogScraper.EveryRowPushedOnce | receiver/clickhousesystemtablesreceiver/receiver.go:168-189 | Over every run, however records are weighed, the pushed logs weigh what the rows of the table with event times from the first start up to the present one weigh: each is pushed once and no other is |
| KafkaClaim.Handler.WithMemoryLimiter | receiver/signozkafkareceiver/kafka_receiver.go:461-496 | The retry loop has the effects and the outcome of the specification for every pattern of answers |
| KafkaClaim.Handler.Take | receiver/signozkafkareceiver/kafka_receiver.go:578-641 | The marks, calls and commits for one message, in order, under every setting |
| KafkaClaim.Handler.ConsumeClaim | receiver/signozkafkareceiver/kafka_receiver.go:571-650 | The marks, calls and commits of a whole claim, the deferred commit included |
| KafkaClaim.RetryBalances | receiver/signozkafkareceiver/kafka_receiver.go:475-495 | The retry loop never pauses, resumes exactly once unless the session ends or it still waits, and every answer but the last is that memory is high |
| KafkaClaim.LimiterBalances | receiver/signozkafkareceiver/kafka_receiver.go:461-496 | Pauses equal resumes exactly when the call returns an answer; it succeeds exactly when the last call of the next component did |
| KafkaClaim.LimitedExactly | receiver/signozkafkareceiver/kafka_receiver.go:461-496 | The calls one by one: one, unless memory is high; then a pause, a call on every tick while it stays high, and at last a call with another answer and a resumption, or the end of the session |
| KafkaClaim.DeliversExactly | receiver/signozkafkareceiver/kafka_receiver.go:461-496 | A message is delivered exactly when it unmarshals and the first call succeeds, or memory is high until a call succeeds |
| KafkaClaim.OneExactly | receiver/signozkafkareceiver/kafka_receiver.go:578-641 | The effects of one message in order: a mark first, or after the calls of a delivered or, on error, a failed message; a commit after a delivered one without autocommit; and what the claim does next |
| KafkaClaim.ClaimExactly | receiver/signozkafkareceiver/kafka_receiver.go:571-650 | A claim has these effects of its messages in turn, up to the first that is not delivered, and the final commit; it ends without an error exactly when there is no such message |
| KafkaClaim.MarkedIsDelivered | receiver/signozkafkareceiver/kafka_receiver.go:571-650 | With After and without OnError, at every moment the marked messages are a prefix of the claimed ones, each of them delivered, none at or past the first failure |
| KafkaClaim.MarksExactly | receiver/signozkafkareceiver/kafka_receiver.go:590-634 | Under every setting, how many messages a claim marks: the delivered ones, and the failing one unless marking is after delivery and not on error |
| KafkaClaim.CommitsLast | receiver/signozkafkareceiver/kafka_receiver.go:573-575 | Without autocommit a claim that returns has committed after everything it marked; with autocommit it never commits |
| Flatten.FlattenJSON | utils/flatten/flatten.go:9-42 | The result has the flat key of every leaf, and under each key the kept value of a leaf with that key, in any iteration order |
| Flatten.FlattenValue | utils/flatten/flatten.go:17-39 | The same for one value under its full key |
| Flatten.LeavesAreAt | utils/flatten/flatten.go:17-39 | The leaves are the paths that lead to a scalar |
| Flatten.FlatKeyGrows | utils/flatten/flatten.go:12-32 | Each step of a path adds its key, or the digits of its index, after a dot unless nothing is before it |
| Flatten.KeysAreDistinct | utils/flatten/flatten.go:12-15 | When all keys are non-empty and dot-free but for one that is not harmful, different leaves have different flat keys |
| Flatten.NothingIsLost | utils/flatten/flatten.go:9-42 | For such data there are as many flat keys as leaves, and each leaf's key holds its value, an integer as the same number in floating point |
| Flatten.FlatIsFixed | utils/flatten/flatten.go:9-42 | Flattening any flattened result without a prefix is the identity |
| Flatten.OddKeyCollidesExactly | utils/flatten/flatten.go:12-15 | One odd key among non-empty dot-free ones can make two leaves share a flat key exactly when it is empty and there is no prefix, or has a dot and only non-empty segments |
| LabelHash.UpdateInjective | utils/fingerprint/hash.go:24-28 | For a fixed byte the update is one-to-one on 64-bit states |
| LabelHash.FoldInjective | utils/fingerprint/hash.go:15-21 | For a fixed string it is too: a common suffix never merges different states |
| LabelHash.HashAdd | utils/fingerprint/hash.go:15-21 | The loop folds the string into the state and stays within 64 bits |
| LabelHash.UpdateExactly | utils/fingerprint/hash.go:24-28 | A byte goes into the low byte of the state by exclusive or, bit by bit, and the state is multiplied by the 64-bit FNV prime modulo 2^64 |
| LabelHash.NoLabels | utils/fingerprint/hash.go:33-35 | Without labels the fingerprint is the 64-bit FNV offset |
| LabelHash.OneLabel | utils/fingerprint/hash.go:45-50 | A label is hashed as its name, the byte 255, its value and the byte 255 |
| LabelHash.StreamJoins | utils/fingerprint/hash.go:45-50 | Labels are hashed one after the other |
| LabelHash.LessExactly | utils/fingerprint/hash.go:42-42 | Names are ordered by the first byte in which they differ, a shorter one before its extensions |
| LabelHash.SortedIsUnique | utils/fingerprint/hash.go:42-42 | There is one way to list different names in order |
| LabelHash.FingerprintHash | utils/fingerprint/hash.go:32-52 | Whatever order the names are read in, the sum is that of the label stream in name order |
| LabelHash.FingerprintIsWellDefined | utils/fingerprint/hash.go:30-52 | Any two such runs on the same labels give the same value |
| LabelHash.StreamIsInjective | utils/fingerprint/hash.go:45-50 | Labels without the separator byte can be read off the hashed bytes, so only the hash itself can make label sets collide |
| IndexExpr.JsonSubColumnIndexExprFormat | cmd/signozschemamigrator/schema_migrator/index_operations.go:313-328 | The loop over the parts gives the quoted path in the text for the type |
| IndexExpr.JSONSubColumnIndexExpr | cmd/signozschemamigrator/schema_migrator/index_operations.go:330-333 | The same for a column and a path |
| IndexExpr.QuotedExactly | cmd/signozschemamigrator/schema_migrator/index_operations.go:314-320 | Quoting works on the parts between dots: one with a colon, an at sign or a hyphen loses the backticks at its ends and stands between two, any other stays |
| IndexExpr.UnfoldExactly | cmd/signozschemamigrator/schema_migrator/index_operations.go:337-377 | What is read is the leftmost match, of the shortest path without a newline before a comma, white space, the type in quotes and three closing parentheses at the end; first with the function for lower case, then without |
| IndexExpr.FindProps | cmd/signozschemamigrator/schema_migrator/index_operations.go:22-32 | A match has no newline in its path and stands before three closing parentheses |
| IndexExpr.LazyFindsPath | cmd/signozschemamigrator/schema_migrator/index_operations.go:24-26 | The lazy group of the String pattern finds the whole printed path, whatever commas and quotes are in it |
| IndexExpr.OtherTypesAreNotRead | cmd/signozschemamigrator/schema_migrator/index_operations.go:28-31 | A printed expression of a type other than String never reads back |
| IndexExpr.ReadBackExactly | cmd/signozschemamigrator/schema_migrator/index_operations.go:337-377 | Reading back gives the quoted path and the type exactly when the type is String and there is no newline in the column or path |
| IndexExpr.QuotedAgain | cmd/signozschemamigrator/schema_migrator/index_operations.go:314-320 | Quoting is idempotent, so printing what was read back gives the same expression |

## Left out

- A pdata map is modelled as a finite map: the order of its keys and duplicate keys are not part of the model.
- Text is modelled as sequences of characters: lengths in bytes (as `len` counts them in the key length limit) and invalid UTF-8 are not, except in `LabelHash`, which works on bytes.
- `fmt.Sprintf`, JSON and YAML encoding, regular expression engines, ClickHouse, Kafka, OpAMP and file access are foreign; what they give back is a parameter. The two patterns of `index_operations.go` are modelled by what they match.
- Floating point: latencies, sums and flattened numbers are exact reals or integers.
- Tail sampler: the grouping of spans by trace id is given as a map; `ConsumeTraces` only repeats `processTraces`; the batcher's input channel is unbounded; shutdown, priorities and the policies themselves; the copy into a zero-length slice at processor.go:90, which drops every configured policy, is why the policy list is arbitrary here.
- Logs push: the early return at exporter.go:644-646 for a resource that cannot be serialized; preparing and sending the batches and the fingerprint cache before and after; several pushes that share one limiter.
- Logs push: after an append error the other appends of the same row are not told apart.
- Span metrics: the exponential histogram and its foreign summary, exemplars, span exclusion patterns, the derivation of a remote address, and the logging of cardinality; one clock reading stands for a whole batch or export.
- SpanKeys.LabelsEqualExactly: does not speak of configurations in which two labels have the same name, such as a dimension configured twice or named like the marked form of another, because there the later label replaces the earlier one; nor do the two laws of shared keys that rest on it.
- SpanKeyLaws.KeysTellStringsOfSpansExactly: leaves out dimensions of the same name, which the code rejects among the configured ones; the built-in `http.status_code`, `db.system` and `db.name` can still repeat one of them.
- SpanKeyLaws.CustomKeysTellForStringsExactly: leaves these out too; the condition differs there, because dimensions of one name read the same attributes.
- Span metrics: what Double, Bytes, Slice and Map values print as is a parameter.
- SpanMetrics.Processor.AggregateMetricsForSpan: does not claim that a key's labels equal the values in the key at the overflow threshold, because the labels are built from the table after the key has grown it.
- MetricKeys.CumulativeKeyTimes: does not exclude numeric service names, because the code reads them as times.
- JSON type walk: cancellation of the parent context, and writing the types to the database.
- Log pipeline: references to entities in a resource, which the conversions lose as well; the stanza operators between the two conversions; one clock reading stands for all records of a batch without an observed time.
- OpAMP: reading the instance id, building the no-operation configuration, messages that arrive while Start still runs.
- query_log scraping: the table is given as a whole, as it is once the delay has passed, and in the order in which the query returns its rows; the ticker and shutdown.
- Kafka: the three handlers for traces, metrics and logs are one, as their loops are the same; rebalancing and offsets inside the client library; telemetry.
- SQL builders, migrations, factories, configuration structures, license checks and metrics about the collector itself: no invariants to speak of.
