# Verified model of Chronik Stream

A Dafny model of the parts of Chronik Stream in which state, concurrency or
arithmetic make correctness hard to see: the columnar layer (vector indexes, hot
buffers, live Parquet tables, JSON schema inference), partition assignment, the
configuration manager and backup retention. `dafny verify dfyconfig.toml` checks
everything.

Each component follows one pattern. Step functions say what an operation does to a
value; classes and methods with the original's loops are proved equal to those step
functions; lemmas then state what holds after every run, in every interleaving or for
every input, and what the step functions compute in terms that do not mention them. Automatic induction is off throughout, so every induction is written out.

| file | component |
|---|---|
| `Base`, `Sequences`, `Text`, `RealArithmetic` | results and options, sequences and sorting, splitting and joining text, sums and products of reals |
| `LiveParquet` | the table provider that re-lists Parquet segments while queries run |
| `VectorIndex`, `VectorSearch`, `VectorTopics`, `VectorManager`, `SnapshotNames` | the two-tier vector index of a partition, its search, topic-wide search, the manager with rebuild thresholds, snapshots |
| `Distances`, `DistanceLaws`, `Quantizer`, `QuantizedDistances`, `TopK` | distances and truncated vectors, what the metrics mean, scalar quantization and its error, nearest-neighbour selection |
| `EmbeddingPipeline`, `EmbeddingContents` | concurrent embedding of message batches, what it stores and counts |
| `LogRecords`, `HotBuffer`, `HotReads`, `InterleavedReads`, `PartitionPruning`, `Ownership` | log records and their rows, rows not yet flushed to Parquet, what reads of them serve, reads that are not atomic, partition pruning, which node answers for a partition |
| `HotVectorIndex`, `HotVectorBatcher`, `Utf8` | recent vectors, the micro-batcher that feeds them, text truncation |
| `PartitionAssignment` | replicas and leaders |
| `ConfigValues`, `ConfigChanges`, `ConfigManager` | nested configuration values, what subscribers are told about changes, the manager and its lookup cache |
| `JsonSchema`, `SchemaConfig` | schema inference and its text form |
| `Retention` | which backups a policy keeps |

## Where the code falls short of what it is meant to do

These are results of the model. The code is modelled as it is, an input shows the
failure, and a lemma says exactly when the property holds.

- Topic search with DotProduct merges similarities in ascending order, so it returns the
  least similar candidates; even when all candidates fit, the ranking is reversed. It is
  right exactly when all of them tie (`DotTopicSearchIff`).
- With truncated vectors, Cosine distances of the pending tier divide by the norm of the
  whole stored vector, those of the graph by the truncated norm (`TruncatedCosineAgreesIff`).
- Trimming the hot vector index is by offset distance, not by count as its comment says,
  and can keep far fewer vectors than the capacity (`TrimKeepsCapacityIff`).
- Partition pruning loses partitions when an IN list holds, beside a literal it converts,
  one it cannot convert or another column (`PruningIsSafeIff`, `ColumnInListIsNotCovered`) and counts rows twice when a partition is named twice and not ruled
  out (`PruningKeepsAllCountsIff`).
- A flush notification between a read's lookup of the flushed offset and the moment it
  stores its rows leaves duplicated or missing rows until the cache entry expires
  (`RaceIsExactIff`, `OvertakenReadIsWrong`).
- A configuration update leaves cached entries below the updated path in place
  (`SetKeepsCoherenceIff`). A changed scalar is announced to subscribers twice, and so are
  two changes whose paths read the same, as with a key that contains a dot
  (`NoUpdateTwiceIff`). An announced path leads back to the change only if no key on it
  contains a dot and it does not descend below an empty top-level key (`TextLeadsBackIff`).
- A schema whose field names contain separators does not survive its config string
  (`ConfigRoundTripIff`).
- Retention lists an id twice for some backups exactly when the policy's periods are not
  apart (`PolicyNeverTwiceIff`; periods in order are, and some others), and a schedule takes
  the backups of schedules whose names extend its own with a dash (`MatchesOtherIff`).
- Indexes whose model name is empty or contains a slash are not restored after a restart
  (`RestartRestores`, `LostModelsIff`).

## Assumptions

- Floating-point numbers are reals: no rounding, no NaN. The square root is a parameter
  of which at most `IsSqrt` is assumed.
- The HNSW graph is an oracle: exact where the nearest neighbours are promised, and merely
  sound (no invented neighbour) in `SoundSearch`.
- The embedding provider is a function of the batch, and the hot cache does not change
  while a call to the pipeline runs. Adding vectors to the manager does not fail. What the
  pipeline stores (`MessagesAreStored`) is said of providers that answer text by text.
- Reading the write-ahead log returns consecutive whole batches starting with the one
  that contains the requested offset.
- Clocks, directory listings, hash-map orders, validators, calendars and provider replies
  are parameters; every statement holds for all of them.
- Topic names are single path components, as topic validation at creation demands
  (`TopicIsComponent`), so each topic has a directory of its own.
- A snapshot write that fails leaves an older file as it was, and older files were written
  under their own index's name.
- Tasks interleave at the points where the original awaits or takes a lock, except that a
  flush notification, which takes two map locks one after the other, is one step.

## Model

| member | source | states |
|---|---|---|
| `LiveParquet.BoundedStaleness` | crates/chronik-columnar/src/live_parquet.rs:144-183 | Under every interleaving of calls with a clock that never goes back, and whatever paths the source answers, a call that read `now` returns the table of a resolution that took place and began less than one refresh interval before `now`, even when a slow call overwrote a newer listing; that table has one URL per parseable path, in path order, there is none exactly if no path parses, and an error exactly if the constructor refuses that list |
| `LiveParquet.NoSegmentStaysInvisible` | crates/chronik-columnar/src/live_parquet.rs:144-183 | A usable segment that every resolution finds from some instant on is in the table of every call made one interval later |
| `LiveParquet.ServedFromListingIsRecent` | crates/chronik-columnar/src/live_parquet.rs:144-156 | In every run, a listing that is still fresh at `now` holds the answer of a resolution that began less than an interval before `now`, and the table over it |
| `LiveParquet.RunInv` | crates/chronik-columnar/src/live_parquet.rs:144-183 | In every run the recorded refresh time never exceeds the time at which the resolution behind the stored paths began, and the stored table is the table over the stored paths |
| `LiveParquet.ApplyKeepsInv` | crates/chronik-columnar/src/live_parquet.rs:144-183 | Each atomic step of each concurrent call (start, fast path, resolve, commit, return) keeps that invariant |
| `LiveParquet.LiveTable.TryServe` | crates/chronik-columnar/src/live_parquet.rs:144-154 | The fast path answers from the stored table exactly when the listing is fresh |
| `LiveParquet.LiveTable.CommitResolved` | crates/chronik-columnar/src/live_parquet.rs:158-183 | Storing a resolved listing: unchanged paths keep the table, changed ones rebuild it, a failed build changes nothing, and the recorded time is when the call started, not when it finished |
| `LiveParquet.BuildTable` | crates/chronik-columnar/src/live_parquet.rs:116-140 | The outcome for any paths: no table exactly if none parses; otherwise a table over the parse results, one per parseable path and in order, or an error exactly if the constructor refuses them |
| `LiveParquet.TableOverMeans` | crates/chronik-columnar/src/live_parquet.rs:116-140 | The same of the table function that every run is stated with |
| `LiveParquet.UrlsAreDetermined` | crates/chronik-columnar/src/live_parquet.rs:122-130 | One URL per parseable path in path order: only one list is that |
| `LiveParquet.ServedIffRecent` | crates/chronik-columnar/src/live_parquet.rs:144-156 | A call is answered from the listing, without a resolution, exactly while the listing was refreshed less than an interval ago |
| `LiveParquet.CommitMeans` | crates/chronik-columnar/src/live_parquet.rs:158-183 | After a resolution the listing has its paths and the returned table and counts as refreshed at the start of the call, unless it is recent with those paths; a table for the same paths is not rebuilt; an error changes nothing |
| `LiveParquet.Urls` | crates/chronik-columnar/src/live_parquet.rs:116-130 | The URLs are exactly those of the parseable paths |
| `EmbeddingPipeline.ConcurrentEqualsSerial` | crates/chronik-columnar/src/vector_index.rs:1980-2182 | For every order in which concurrent embedding batches start and finish, the final index and all statistics equal those of the serial path |
| `EmbeddingPipeline.EveryMessageAccounted` | crates/chronik-columnar/src/vector_index.rs:1964-2191 | embedded + failed never exceeds the number of messages, and equals it when every successful provider call gives one right-sized vector per text |
| `EmbeddingContents.MessagesAreStored` | crates/chronik-columnar/src/vector_index.rs:1964-2191 | For a provider that answers text by text, after every schedule: what was stored stays, every other stored vector is the cached vector or the embedding of the text of some message, under the offset of that message, and every message that is cached or whose batch was answered has its offset stored if its vector has the right size |
| `EmbeddingContents.StatisticsAddUp` | crates/chronik-columnar/src/vector_index.rs:1964-2191 | After every schedule: batches plus errors are the chunks, errors are those of the failed calls in batch order, tokens the sum of what the answers report, failed the messages that failed calls asked for, embedded the right-sized vectors handed to the index |
| `EmbeddingContents.BatchEntriesMean` | crates/chronik-columnar/src/vector_index.rs:2074-2082 | A batch hands the index exactly the entries (offset, vector) of the messages it delivers, each vector with its own offset |
| `EmbeddingContents.MissingMeans` | crates/chronik-columnar/src/vector_index.rs:2200-2227 | The provider gets exactly the occurrences of messages whose offset is not cached |
| `EmbeddingContents.SplitAppend` | crates/chronik-columnar/src/vector_index.rs:2200-2227 | Splitting hits from misses keeps the order of the messages |
| `EmbeddingPipeline.AfterEventsInv` | crates/chronik-columnar/src/vector_index.rs:1994-2138 | At every moment of every schedule at most the configured number of tasks hold a permit, and each collected result is its batch's own, collected once |
| `EmbeddingPipeline.EveryOrderHappens` | crates/chronik-columnar/src/vector_index.rs:1996-2138 | A task gives its permit back before it is collected, so whatever the limit, every order of the batches is the order of collection in some complete schedule |
| `EmbeddingPipeline.SortingRestoresOrder` | crates/chronik-columnar/src/vector_index.rs:2126-2140 | Sorting the collected results by batch index gives batch order, whatever order they arrived in |
| `EmbeddingPipeline.AbsorbIsSerialStep` | crates/chronik-columnar/src/vector_index.rs:2142-2182 | Applying one collected result changes index and statistics exactly as the serial path does for that batch |
| `EmbeddingPipeline.StepAccounts` | crates/chronik-columnar/src/vector_index.rs:2230-2372 | One batch adds at most its own size to embedded + failed, and exactly that for a dependable provider |
| `EmbeddingPipeline.RunAccounts` | crates/chronik-columnar/src/vector_index.rs:2230-2372 | The same over any list of batches |
| `EmbeddingPipeline.SplitCacheHits` | crates/chronik-columnar/src/vector_index.rs:2200-2227 | The loop separates the messages whose vector is cached from those that need embedding, both in batch order |
| `EmbeddingPipeline.SplitSizes` | crates/chronik-columnar/src/vector_index.rs:2200-2227 | Cached and missing messages together are as many as the batch, and cached vectors have the right size if the cache holds only such |
| `EmbeddingPipeline.ProcessSerially` | crates/chronik-columnar/src/vector_index.rs:2230-2372 | The serial loop over batches computes the serial reference run |
| `EmbeddingPipeline.ApplyCollected` | crates/chronik-columnar/src/vector_index.rs:2139-2182 | The collecting loop applies the results sorted by batch index |
| `VectorIndex.Run` | crates/chronik-columnar/src/vector_index.rs:532-690 | After any sequence of adds, builds and save-then-load the invariant holds and the stored vectors are exactly the first right-sized vector added for each offset, in order of addition |
| `VectorIndex.ApplyKeepsInv` | crates/chronik-columnar/src/vector_index.rs:532-690 | One operation keeps the invariant: ids unique across both tiers and equal to the known set, graph present exactly when the built tier is non-empty and covering it, quantized shadows mirroring both tiers, last offset stored |
| `VectorIndex.AddKeepsInv` | crates/chronik-columnar/src/vector_index.rs:532-558 | Adding fails exactly for a wrong size, ignores a known offset, and otherwise appends to the pending tier |
| `VectorIndex.BuildKeepsInv` | crates/chronik-columnar/src/vector_index.rs:596-690 | Building moves everything to the built tier and loses, adds and reorders nothing |
| `VectorIndex.ReloadKeepsInv` | crates/chronik-columnar/src/vector_index.rs:1553-1699 | Save then load restores vectors, known offsets, last offset and configuration |
| `VectorIndex.LoadKeepsInv` | crates/chronik-columnar/src/vector_index.rs:1620-1699 | The same for any snapshot with distinct ids, including old ones without a set of known offsets |
| `VectorIndex.OffsetRoundTrip` | crates/chronik-columnar/src/vector_index.rs:532-558 | Offsets and unsigned ids convert into each other without loss, negative offsets included |
| `VectorIndex.PartitionIndex.AddVector` | crates/chronik-columnar/src/vector_index.rs:532-558 | The mutable index changes as the specification says and stays valid |
| `VectorIndex.PartitionIndex.BuildGraph` | crates/chronik-columnar/src/vector_index.rs:596-690 | The same for building: pending tier empty afterwards, contents unchanged |
| `VectorIndex.InsertIds` | crates/chronik-columnar/src/vector_index.rs:611-614 | The dedup loop adds exactly the ids of the merged vectors |
| `VectorSearch.SearchFindsNearest` | crates/chronik-columnar/src/vector_index.rs:731-792 | With an exact graph, full vectors and no quantization, two-tier search returns the k nearest of everything stored, however it is split between the tiers |
| `VectorSearch.AnswerIsNearest` | crates/chronik-columnar/src/vector_index.rs:731-792 | In plain terms: of two stored vectors of which search returns only one, that one is no farther from the query: its difference is no longer, its dot product for its norm no smaller, or its dot product no smaller |
| `VectorSearch.AnswerIsRanked` | crates/chronik-columnar/src/vector_index.rs:731-792 | And of two that are returned the first in the list is no farther |
| `VectorSearch.AnswerIsStored` | crates/chronik-columnar/src/vector_index.rs:731-792 | Every hit is the offset of a stored vector with its own distance or, for DotProduct, similarity |
| `VectorSearch.TwoTierTopK` | crates/chronik-columnar/src/vector_index.rs:731-792 | In every mode without re-scoring the answer is the top k of what the two tiers rank |
| `VectorSearch.SplitDoesNotMatter` | crates/chronik-columnar/src/vector_index.rs:731-792 | Two indexes that store the same vectors return the same distances |
| `VectorSearch.RebuildKeepsAnswers` | crates/chronik-columnar/src/vector_index.rs:596-690 | A rebuild or a restart changes no distance of any answer |
| `VectorSearch.TruncatedSearchFindsNearest` | crates/chronik-columnar/src/vector_index.rs:731-792 | With truncated (Matryoshka) vectors the answer is the top k by the distance between the first d components of query and vector, d being the search dimensions, for Euclidean and DotProduct |
| `VectorSearch.SearchReachesEverything` | crates/chronik-columnar/src/vector_index.rs:731-825 | Asked for as many hits as are stored, search returns every stored offset exactly once, for any metric, quantization, truncation and re-scoring |
| `VectorSearch.AdaptiveSearchRescores` | crates/chronik-columnar/src/vector_index.rs:799-825 | Re-scoring keeps every candidate, gives it its full-length distance, and returns the k nearest of those |
| `VectorSearch.PendingScoreIsClose` | crates/chronik-columnar/src/vector_index.rs:762-775 | The distance that ranks a quantized pending vector is within a computed bound of the distance to that vector moved into the trained bounds, for Euclidean, DotProduct and Cosine |
| `VectorSearch.RescoredKeepsAll` | crates/chronik-columnar/src/vector_index.rs:799-825 | No candidate is dropped by re-scoring and each gets the distance of the stored vector |
| `VectorSearch.SoundSearch` | crates/chronik-columnar/src/vector_index.rs:731-862 | With a graph that may miss neighbours, search in every mode returns at most k hits in order, each a stored vector and none twice, with its tier's distance or, after re-scoring, its full-length distance |
| `VectorSearch.RankedTopK` | crates/chronik-columnar/src/vector_index.rs:731-825 | In every mode the answer is the top k of what it is chosen from: everything stored, or the re-scored candidates |
| `VectorSearch.SearchSize` | crates/chronik-columnar/src/vector_index.rs:731-825 | In every mode search returns min(k, stored) hits |
| `VectorSearch.ScanningIsExact` | crates/chronik-columnar/src/vector_index.rs:828-862 | The assumptions on the graph can be met: a graph that scans is exact and sound |
| `TopK.SelectIsTopK` | crates/chronik-columnar/src/vector_index.rs:865-883 | Sort and truncate returns the k smallest of the pool, in order, as many as there can be |
| `TopK.TopKOfTopK` | crates/chronik-columnar/src/vector_index.rs:776-792 | A pool may be replaced by its own top k without changing the top k of the whole |
| `TopK.MergedTopK` | crates/chronik-columnar/src/vector_index.rs:1124-1149 | Merging per-partition top-k answers gives the top k over all partitions |
| `TopK.TopKDistancesUnique` | crates/chronik-columnar/src/vector_index.rs:865-883 | Two correct answers differ only in how ties are broken |
| `TopK.RelabelTopK` | crates/chronik-columnar/src/vector_index.rs:1124-1149 | Relabelling candidates with their partition keeps an answer correct |
| `Distances.TruncatedQueryAgrees` | crates/chronik-columnar/src/vector_index.rs:910-934 | Scanning full vectors with a truncated query gives the truncated distance, for Euclidean and DotProduct |
| `Distances.TruncatedCosineAgreesIff` | crates/chronik-columnar/src/vector_index.rs:910-934 | For Cosine this holds exactly when the dot product is zero or the cut-off tail of the stored vector is zero |
| `Distances.TruncatedCosineDisagrees` | crates/chronik-columnar/src/vector_index.rs:910-934 | A stored vector on which the two cosine distances differ |
| `DistanceLaws.EuclideanIsMetric` | crates/chronik-columnar/src/vector_index.rs:264-270 | Euclidean distance of equally long vectors is not negative, zero exactly for equal vectors, symmetric, and obeys the triangle inequality |
| `DistanceLaws.EuclideanSquared` | crates/chronik-columnar/src/vector_index.rs:264-270 | Its square is the squared norm of the difference, which is the sum of the squared norms minus twice the dot product |
| `DistanceLaws.CosineIsAngle` | crates/chronik-columnar/src/vector_index.rs:278-288 | One minus the Cosine distance, times both norms, is the dot product; a zero vector is at distance one from everything |
| `DistanceLaws.CosineWithinTwo` | crates/chronik-columnar/src/vector_index.rs:278-288 | Cosine distance lies between 0 and 2, for vectors of any lengths |
| `DistanceLaws.CosineOfSelf` | crates/chronik-columnar/src/vector_index.rs:278-288 | A non-zero vector is at Cosine distance 0 from itself and 2 from its negation |
| `DistanceLaws.CosineOfMultiple` | crates/chronik-columnar/src/vector_index.rs:278-288 | The same for any positive and any negative multiple |
| `DistanceLaws.CosineOrderIff` | crates/chronik-columnar/src/vector_index.rs:278-288 | Of two non-zero vectors the nearer by Cosine is the one with the larger dot product for its norm |
| `DistanceLaws.DistanceOrders` | crates/chronik-columnar/src/vector_index.rs:910-934 | For all three metrics the computed distances order vectors as the metric means it |
| `DistanceLaws.DotIsBilinear` | crates/chronik-columnar/src/vector_index.rs:295-298 | The dot product is symmetric, linear in each argument, and the coordinate on unit vectors |
| `DistanceLaws.Schwarz` | crates/chronik-columnar/src/vector_index.rs:910-934 | The squared dot product is at most the product of the squared norms, also where the vectors differ in length |
| `VectorTopics.TopicSearchFindsNearest` | crates/chronik-columnar/src/vector_index.rs:1124-1149 | For Euclidean and Cosine the topic-wide answer is the k nearest over all partitions in every mode; where an index re-scores, over its re-scored candidates |
| `VectorTopics.TopicAnswerIsNearest` | crates/chronik-columnar/src/vector_index.rs:1124-1149 | In plain terms: of two vectors stored in any partitions of which the topic search returns only one, that one is no farther from the query |
| `VectorTopics.TopicAnswerIsStored` | crates/chronik-columnar/src/vector_index.rs:1124-1149 | Every hit names the partition and the offset of a stored vector, with its own distance |
| `VectorTopics.DotTopicSearchIff` | crates/chronik-columnar/src/vector_index.rs:785-789 | For DotProduct the ascending merge returns the k most similar, best first, if and only if all candidates tie; as a set, if and only if they tie or the stored vectors, counting at most k per partition, are at most k |
| `VectorTopics.DotTopicSearchFails` | crates/chronik-columnar/src/vector_index.rs:1124-1149 | Two partitions with one vector each: asked for one hit the less similar is returned, asked for more it is ranked first |
| `VectorTopics.SimilarityMergeIff` | crates/chronik-columnar/src/vector_index.rs:1140-1149 | The condition for the set, for any candidate lists |
| `VectorTopics.OrderedMergeIff` | crates/chronik-columnar/src/vector_index.rs:1140-1149 | The condition for the ranked answer, for any candidate lists: all of them tie |
| `Quantizer.FitBounds` | crates/chronik-columnar/src/vector_index.rs:358-385 | The training and widening loops compute per-dimension minimum and maximum, widened where a dimension hardly varies |
| `Quantizer.FitBrackets` | crates/chronik-columnar/src/vector_index.rs:358-385 | Every training component lies inside the trained bounds, and every range is positive |
| `Quantizer.RoundsDown` | crates/chronik-columnar/src/vector_index.rs:388-404 | Quantize then dequantize loses less than range/255, always downward |
| `Quantizer.TrainingVectorError` | crates/chronik-columnar/src/vector_index.rs:388-404 | The same for every component of every training vector |
| `Quantizer.QuantizeUndoesDequantize` | crates/chronik-columnar/src/vector_index.rs:388-404 | Dequantize then quantize is the identity on bytes |
| `Quantizer.FitIsTight` | crates/chronik-columnar/src/vector_index.rs:358-385 | The trained bounds are the smallest and the largest component of each dimension; where they are nearly equal the upper one is the lower plus one; without vectors they are 0 and 1 |
| `Quantizer.QuantizeClamps` | crates/chronik-columnar/src/vector_index.rs:388-396 | Components outside the bounds are quantized like the nearest bound |
| `Quantizer.QuantizedDotError` | crates/chronik-columnar/src/vector_index.rs:443-450 | The dot product with any covered vector is off by at most the sum of abs(query_i) * range_i / 255 after quantizing |
| `Quantizer.AsymmetricDotError` | crates/chronik-columnar/src/vector_index.rs:443-450 | The same for the vectors the quantizer was trained on |
| `QuantizedDistances.AsymmetricDot` | crates/chronik-columnar/src/vector_index.rs:443-450 | The loop computes minus the dot product with the dequantized vector, up to the shorter length |
| `QuantizedDistances.AsymmetricEuclidean` | crates/chronik-columnar/src/vector_index.rs:432-440 | The loop computes the Euclidean distance to the dequantized vector, up to the shorter length |
| `QuantizedDistances.AsymmetricCosine` | crates/chronik-columnar/src/vector_index.rs:409-429 | The loop with its three sums computes the Cosine distance to the dequantized vector, up to the shorter length |
| `QuantizedDistances.DotProductError` | crates/chronik-columnar/src/vector_index.rs:443-450 | It is off by at most the sum of abs(query_i) * range_i / 255 from the true one, for any vector moved into the bounds |
| `QuantizedDistances.EuclideanError` | crates/chronik-columnar/src/vector_index.rs:432-440 | It is off by at most the length of the vector of steps range_i / 255 |
| `QuantizedDistances.CosineError` | crates/chronik-columnar/src/vector_index.rs:409-429 | It lies between 0 and 2, and as a dot product is off by at most the sum of abs(query_i) * range_i / 255 |
| `SnapshotNames.FilenameRoundTrip` | crates/chronik-columnar/src/vector_index.rs:1509-1535 | A snapshot file name parses back to its partition and model exactly when the model name is not empty |
| `SnapshotNames.FilenameInjective` | crates/chronik-columnar/src/vector_index.rs:1509-1515 | No two (partition, model) pairs share a file name |
| `SnapshotNames.FormatRoundTrip` | crates/chronik-columnar/src/vector_index.rs:1522-1535 | Every 32-bit partition number survives printing and parsing |
| `SnapshotNames.FilenameExamples` | crates/chronik-columnar/src/vector_index.rs:1509-1515 | The names as they stand in a directory: `12.idx` and `-7_mini.idx` |
| `SnapshotNames.FilenameIsComponentIff` | crates/chronik-columnar/src/vector_index.rs:1509-1515 | A snapshot name is one path component exactly when the model name has no slash and no NUL |
| `SnapshotNames.TopicIsComponent` | crates/chronik-protocol/src/create_topics/topic_validator.rs:24-40 | Every topic name that passes validation is one path component |
| `VectorManager.RunSettles` | crates/chronik-columnar/src/vector_index.rs:1014-1073 | After every call of every run the pending tier is below 100 when nothing is built, and otherwise below 5000 and below a tenth of the built tier |
| `VectorManager.IngestSettles` | crates/chronik-columnar/src/vector_index.rs:566-589 | One call from any valid state ends below the rebuild thresholds |
| `VectorManager.RebuildsUnlessSettled` | crates/chronik-columnar/src/vector_index.rs:566-589 | The thresholds ask for a rebuild exactly when the pending tier has 100 vectors with nothing built, 5000, or a tenth of the built ones |
| `VectorManager.IngestStores` | crates/chronik-columnar/src/vector_index.rs:1014-1073 | A batch adds exactly the right-sized vectors whose offset is new, the first for each offset, drops nothing, rebuild or not, and counts the right-sized ones |
| `VectorManager.RebuildCostIsLinear` | crates/chronik-columnar/src/vector_index.rs:500-503 | Over any run whose rebuilds start from at most 50000 built vectors, all rebuilds together re-index at most 11 times the final built size |
| `VectorManager.RebuildCost` | crates/chronik-columnar/src/vector_index.rs:596-609 | Over any run at all: 10000 times the re-indexed vectors is at most 110000 b + b*b for b built vectors |
| `VectorManager.AddAllCounts` | crates/chronik-columnar/src/vector_index.rs:1032-1042 | A batch of right-sized vectors is counted in full, duplicates included |
| `VectorManager.AddEach` | crates/chronik-columnar/src/vector_index.rs:1032-1042 | The add loop computes the batch specification |
| `VectorManager.VectorIndexManager.AddVectors` | crates/chronik-columnar/src/vector_index.rs:1014-1073 | Only the addressed index changes; it is created on first use with the configuration of its topic or the default one; an empty batch does nothing |
| `VectorManager.VectorIndexManager.SearchModel` | crates/chronik-columnar/src/vector_index.rs:1087-1111 | One error for a missing index, another for a wrong query size, otherwise the answer of the index |
| `VectorManager.VectorIndexManager.SearchAll` | crates/chronik-columnar/src/vector_index.rs:1124-1149 | In whatever order the map is visited, the answer is the sorted and truncated gathering of the matching indexes |
| `VectorManager.GatheredFromMatching` | crates/chronik-columnar/src/vector_index.rs:1124-1149 | What is gathered is the answers of exactly the indexes of that topic and model |
| `VectorManager.ManagerFindsNearest` | crates/chronik-columnar/src/vector_index.rs:1124-1149 | End to end: for Euclidean and Cosine the manager's answer is the k nearest over exactly the indexes of that topic and model, each taken once |
| `VectorManager.ManagerAnswerIsNearest` | crates/chronik-columnar/src/vector_index.rs:1124-1149 | In plain terms: of two vectors of the topic and the model, under any partitions, of which the answer names only one, that one is no farther from the query |
| `VectorManager.MatchingIsExact` | crates/chronik-columnar/src/vector_index.rs:1130-1142 | The indexes gathered from are exactly those of the topic and the model |
| `VectorManager.VectorIndexManager.SaveAll` | crates/chronik-columnar/src/vector_index.rs:1704-1728 | Over whatever the directories hold, the files of exactly the indexes whose write the disk takes are replaced by their snapshots, all others stay, and the number is counted |
| `VectorManager.VectorIndexManager.LoadAll` | crates/chronik-columnar/src/vector_index.rs:1734-1792 | The loading loop over any directory listing: unparseable names and unreadable files are passed over, topics are registered on first load |
| `VectorManager.RestartRestores` | crates/chronik-columnar/src/vector_index.rs:1704-1792 | Saving all over older files and loading into a fresh manager brings back exactly the indexes that have a readable file and a named model: those that were written whole, the others as an older file has them; and registers exactly their topics |
| `VectorManager.FreshRestartRestores` | crates/chronik-columnar/src/vector_index.rs:1704-1792 | From empty directories exactly the indexes come back whose file could be written and read and whose model name is not empty, with vectors, known offsets, last offset and configuration |
| `VectorManager.DirectoryIsLoaded` | crates/chronik-columnar/src/vector_index.rs:1734-1792 | Any directory of proper snapshots is loaded exactly: one index per readable file under a named model, in any listing order |
| `VectorManager.LostModelsIff` | crates/chronik-columnar/src/vector_index.rs:1586-1600 | On a disk that takes every path component, exactly the indexes are lost whose model name is empty or has a slash or a NUL in it |
| `VectorManager.LostModels` | crates/chronik-columnar/src/vector_index.rs:1586-1600 | On any disk that refuses names of several components those are lost |
| `VectorManager.LostExamples` | crates/chronik-columnar/src/vector_index.rs:1586-1600 | An index of the model `a/b` and one of the empty model name are lost |
| `HotBuffer.HotAndColdAreExact` | crates/chronik-columnar/src/hot_buffer.rs:553-723 | After any run of appends, reads, cache hits and flush notifications, the rows a read serves continue the cold rows to a gap-free prefix of the rows of the log, of which there is one for each entry, in order, each offset once |
| `LogRecords.ExpandMeans` | crates/chronik-columnar/src/hot_buffer.rs:818-896 | Expanding a log with nothing flushed gives exactly one row per entry of the own batches and of the single records, in log order, with its offset, timestamp, type code, key and value (empty if absent), and fails exactly when an own batch does not decode |
| `LogRecords.RowsAreDetermined` | crates/chronik-columnar/src/hot_buffer.rs:818-896 | The entries of a log determine its rows |
| `LogRecords.WellFormedIff` | crates/chronik-columnar/src/hot_buffer.rs:818-896 | A log is well formed exactly if it decodes and its entries carry the offsets 0, 1, 2, ... |
| `HotReads.ReadServesEntries` | crates/chronik-columnar/src/hot_buffer.rs:553-623 | An enabled read that finds no fresh rows cached serves every entry of what the log returned after the flushed offset, once per entry, and nothing else; it fails exactly when the log does or a batch does not decode |
| `HotReads.ReadReachesSliceEnd` | crates/chronik-columnar/src/hot_buffer.rs:553-623 | After any run such a read completes the cold rows to the rows of the log up to the end of the slice that the log returned |
| `HotReads.ReadStores` | crates/chronik-columnar/src/hot_buffer.rs:600-620 | It caches just the rows it serves, as of now, and leaves other partitions alone |
| `HotReads.CachedRowsAreServed` | crates/chronik-columnar/src/hot_buffer.rs:564-575 | Cached rows are served unchanged, whatever happens to logs and other partitions, until they expire, are flushed or are cleared |
| `HotReads.TopicTableServesAll` | crates/chronik-columnar/src/hot_buffer.rs:629-723 | The topic table fails exactly if the visit of some partition does, and otherwise holds, for exactly the partitions with hot rows, what a visit of that partition alone returns |
| `HotBuffer.TopicViewIsExact` | crates/chronik-columnar/src/hot_buffer.rs:629-723 | The same for each partition of the topic-wide table |
| `HotBuffer.TopicTableContinues` | crates/chronik-columnar/src/hot_buffer.rs:629-723 | The topic table holds only requested, non-empty partitions, each continuing its cold part, and building it keeps the invariant |
| `HotBuffer.RunInv` | crates/chronik-columnar/src/hot_buffer.rs:553-736 | In every run each cached entry continues the cold part of its partition |
| `HotBuffer.ApplyKeepsInv` | crates/chronik-columnar/src/hot_buffer.rs:553-736 | Each single step keeps that invariant |
| `LogRecords.HotSlice` | crates/chronik-columnar/src/hot_buffer.rs:811-896 | Expanding a slice of the log that may start with a batch straddling the flush boundary gives the rows from the first hot one on, without a gap |
| `LogRecords.ExpandFilters` | crates/chronik-columnar/src/hot_buffer.rs:818-896 | Dropping flushed rows while expanding equals expanding everything and dropping afterwards, errors included |
| `LogRecords.ExpandRecords` | crates/chronik-columnar/src/hot_buffer.rs:818-896 | The record loop computes that expansion |
| `LogRecords.ExpandBatch` | crates/chronik-columnar/src/hot_buffer.rs:850-867 | The batch loop computes the rows of one batch |
| `HotBuffer.HotDataBuffer.GetMemTable` | crates/chronik-columnar/src/hot_buffer.rs:553-623 | Cache and answer change as the specification of a read says |
| `HotBuffer.HotDataBuffer.GetTopicMemTable` | crates/chronik-columnar/src/hot_buffer.rs:629-723 | The loop over partitions: one whose log cannot be read or that has no hot rows is left out, an undecodable record fails the call |
| `HotBuffer.HotDataBuffer.Visit` | crates/chronik-columnar/src/hot_buffer.rs:650-707 | One partition of that loop |
| `HotBuffer.HotDataBuffer.SetFlushedOffset` | crates/chronik-columnar/src/hot_buffer.rs:730-736 | Records the offset and drops the cached rows |
| `InterleavedReads.RaceIsExactIff` | crates/chronik-columnar/src/hot_buffer.rs:553-736 | With reads split at their awaits, every cached entry is exact after every step of a run if and only if no read stores rows after a flush has moved the boundary the read started from |
| `InterleavedReads.CachedIsExactIff` | crates/chronik-columnar/src/hot_buffer.rs:650-707 | In every interleaving the rows a cache hit serves are exact if and only if the first offset of the entry is the one after the flushed offset |
| `InterleavedReads.InterleavedReadIff` | crates/chronik-columnar/src/hot_buffer.rs:664-693 | Rows fetched before a flush and judged after it are exact if and only if there are none or the flush moved nothing |
| `InterleavedReads.StepIsExactIff` | crates/chronik-columnar/src/hot_buffer.rs:553-736 | One step of any kind keeps all cached entries exact if and only if it does not store overtaken rows |
| `InterleavedReads.OvertakenIsServed` | crates/chronik-columnar/src/hot_buffer.rs:650-707 | Whenever overtaken rows are stored, every read until the entry expires serves them, and they do not complete the cold rows |
| `InterleavedReads.RaceRunInv` | crates/chronik-columnar/src/hot_buffer.rs:553-736 | In every interleaving of appends, flushes and split reads, cached and pending rows are pieces of the partition's log |
| `InterleavedReads.UninterruptedIsAtomic` | crates/chronik-columnar/src/hot_buffer.rs:553-723 | A split read that nothing comes between does what a read in one step does |
| `InterleavedReads.OvertakenReadIsWrong` | crates/chronik-columnar/src/hot_buffer.rs:664-707 | Two rows, a read, and a flush of the first before the read stores: every later read until the entry expires serves the first row a second time |
| `PartitionPruning.PruningIsSafeIff` | crates/chronik-columnar/src/hot_buffer.rs:238-270 | Pruned scan then filter returns the same rows as full scan then filter, on every table and filter semantics, exactly when the extracted partitions cover all that the filters allow |
| `PartitionPruning.CoveredKeepsRows` | crates/chronik-columnar/src/hot_buffer.rs:238-270 | The sufficient direction on a given table |
| `PartitionPruning.PlainFiltersAreCovered` | crates/chronik-columnar/src/hot_buffer.rs:433-469 | Reversed equality, IN lists of convertible literals, negated IN, contradictory filters and 64-bit literals are covered |
| `PartitionPruning.MixedListIsNotCovered` | crates/chronik-columnar/src/hot_buffer.rs:433-469 | An IN list mixing a convertible and an unconvertible literal is not |
| `PartitionPruning.ColumnInListIsNotCovered` | crates/chronik-columnar/src/hot_buffer.rs:433-469 | Nor is one that mixes a literal and another column |
| `PartitionPruning.PruningKeepsCountsIff` | crates/chronik-columnar/src/hot_buffer.rs:238-270 | On one table row counts are kept exactly when no partition extracted more than once has a passing row |
| `PartitionPruning.PruningKeepsAllCountsIff` | crates/chronik-columnar/src/hot_buffer.rs:238-270 | On all tables and semantics the counts are kept if and only if the filters are covered and rule out every partition they extract more than once |
| `PartitionPruning.DistinctTargetsKeepCounts` | crates/chronik-columnar/src/hot_buffer.rs:238-270 | Pairwise distinct extracted partitions keep the multiset of rows |
| `PartitionPruning.RepeatedEqualityCountsTwice` | crates/chronik-columnar/src/hot_buffer.rs:433-469 | The same partition named by two filters is counted twice |
| `PartitionPruning.MatchConverts` | crates/chronik-columnar/src/hot_buffer.rs:474-483 | A literal that matches a partition converts to it, also where 64 bits are cut to 32 |
| `PartitionPruning.EqualityNamesPartition` | crates/chronik-columnar/src/hot_buffer.rs:433-452 | An equality with a literal that converts, either way round, names just that partition |
| `PartitionPruning.ConvertsIff` | crates/chronik-columnar/src/hot_buffer.rs:474-483 | Converted are exactly the non-null literals of five integer types, to their low 32 bits |
| `PartitionPruning.AnswerCounts` | crates/chronik-columnar/src/hot_buffer.rs:238-270 | How often a row appears in the pruned and in the full answer |
| `PartitionPruning.ExtractPartitionFilters` | crates/chronik-columnar/src/hot_buffer.rs:433-469 | The extraction loop computes the list of targets |
| `PartitionPruning.ExtractList` | crates/chronik-columnar/src/hot_buffer.rs:454-465 | The loop over one IN list keeps its convertible literals |
| `PartitionAssignment.RunIsValid` | crates/chronik-common/src/partition_assignment.rs:75-237 | After every run of assigning, changing leaders, adding and removing topics, each leader is one of its duplicate-free, non-empty replicas, also when adding a topic stopped half way |
| `PartitionAssignment.HistoryDecides` | crates/chronik-common/src/partition_assignment.rs:75-237 | After every run a partition has the replicas of the last operation that placed it and the leader of the last that chose one, or is gone with its topic; other partitions play no part |
| `PartitionAssignment.AddTopicSucceedsIff` | crates/chronik-common/src/partition_assignment.rs:173-219 | Adding a topic succeeds exactly if both counts are positive, there are enough nodes, and no row has a node twice |
| `PartitionAssignment.RowIsCircle` | crates/chronik-common/src/partition_assignment.rs:357-395 | The replicas of partition p are consecutive nodes in a circle, from the p-th on |
| `PartitionAssignment.AssignKeepsValid` | crates/chronik-common/src/partition_assignment.rs:75-108 | Assigning succeeds exactly for a non-empty duplicate-free list and keeps validity |
| `PartitionAssignment.DuplicateTestIsExact` | crates/chronik-common/src/partition_assignment.rs:75-108 | Sorting, removing repeats and comparing lengths detects duplicates exactly |
| `PartitionAssignment.LeadershipIsBalanced` | crates/chronik-common/src/partition_assignment.rs:357-395 | Round robin over distinct nodes gives every node the rounded-down or rounded-up share of leaderships |
| `PartitionAssignment.CopiesAreBalanced` | crates/chronik-common/src/partition_assignment.rs:357-395 | Every node holds between rf times the rounded-down and rf times the rounded-up share of copies |
| `PartitionAssignment.RowsAreDistinct` | crates/chronik-common/src/partition_assignment.rs:357-395 | A row of replicas has no node twice |
| `PartitionAssignment.AssignRoundRobin` | crates/chronik-common/src/partition_assignment.rs:357-395 | No nodes and too few nodes are errors, a negative replication factor too; otherwise the rows are the rotated node lists |
| `PartitionAssignment.AddTopicSucceeds` | crates/chronik-common/src/partition_assignment.rs:173-219 | On distinct nodes adding a topic succeeds, places every partition on its row with the first node as leader, and touches no other topic |
| `PartitionAssignment.Assignment.AssignPartition` | crates/chronik-common/src/partition_assignment.rs:75-108 | State and error as specified; an error leaves the state unchanged |
| `PartitionAssignment.Assignment.ChangeLeader` | crates/chronik-common/src/partition_assignment.rs:135-161 | The same for changing a leader |
| `PartitionAssignment.Assignment.AddTopicPartitions` | crates/chronik-common/src/partition_assignment.rs:173-219 | The loop over partitions, stopping at the first rejection |
| `PartitionAssignment.Assignment.Validate` | crates/chronik-common/src/partition_assignment.rs:307-329 | Reports no error exactly when every assignment is valid |
| `Ownership.EachPartitionOnce` | crates/chronik-columnar/src/hot_buffer.rs:300-319 | After any run of assignments, if each node answers for the partitions it leads and every replica holds its partitions, the gathered answers are the whole table and the per-node counts add up to its count |
| `Ownership.AnswersDisjoint` | crates/chronik-columnar/src/hot_buffer.rs:217-220 | Two nodes never answer for the same partition, for any replication factor |
| `Ownership.AnsweredByLeader` | crates/chronik-columnar/src/hot_buffer.rs:387-407 | A partition is answered by its leader, completely, and by nobody else |
| `Ownership.CountsAddUp` | crates/chronik-columnar/src/hot_buffer.rs:300-319 | The sum of the counts is the count of the gathered rows |
| `Ownership.HoldingIsNotOwning` | crates/chronik-columnar/src/hot_buffer.rs:300-319 | Answering for everything held counts replicated rows twice |
| `HotVectorIndex.RunIsValid` | crates/chronik-columnar/src/hot_vector_index.rs:122-229 | In every run of adds, evictions and trims the offset map inverts the vector list and the bounds are the tight minimum and maximum |
| `HotVectorIndex.AddKeepsValid` | crates/chronik-columnar/src/hot_vector_index.rs:122-142 | Adding keeps that, is refused exactly for a wrong size, ignores a stored offset and otherwise appends |
| `HotVectorIndex.EvictKeepsLater` | crates/chronik-columnar/src/hot_vector_index.rs:189-212 | Eviction keeps exactly the later offsets and reports how many it dropped |
| `HotVectorIndex.EvictKeepsOrder` | crates/chronik-columnar/src/hot_vector_index.rs:189-212 | It does not reorder what it keeps |
| `HotVectorIndex.GetCachedIsExact` | crates/chronik-columnar/src/hot_vector_index.rs:144-148 | A vector is found exactly if its offset is stored, and it is the stored one |
| `HotVectorIndex.TrimFits` | crates/chronik-columnar/src/hot_vector_index.rs:214-229 | After trimming the store fits its capacity, for sparse and out-of-order offsets too |
| `HotVectorIndex.TrimKeepsNewest` | crates/chronik-columnar/src/hot_vector_index.rs:219-229 | A trim of an over-full store keeps exactly the offsets less than `capacity` below the largest, any other trim changes nothing |
| `HotVectorIndex.TrimKeepsCapacityIff` | crates/chronik-columnar/src/hot_vector_index.rs:219-229 | A trim leaves exactly the capacity if and only if the newest `capacity` offsets are all stored |
| `HotVectorIndex.SparseTrimKeepsTooFew` | crates/chronik-columnar/src/hot_vector_index.rs:219-229 | Three adds of sparse offsets with room for two: after a trim only one is left |
| `HotVectorIndex.ThresholdNeverSaturates` | crates/chronik-columnar/src/hot_vector_index.rs:219-229 | The saturating subtraction in the trim threshold never saturates on an over-full store |
| `HotVectorIndex.IndexInverts` | crates/chronik-columnar/src/hot_vector_index.rs:122-142 | Distinct offsets: map and list are inverse to each other |
| `HotVectorIndex.BoundsAreTight` | crates/chronik-columnar/src/hot_vector_index.rs:122-142 | The bounds are attained and bracket every offset |
| `HotVectorIndex.DropUpTo` | crates/chronik-columnar/src/hot_vector_index.rs:189-212 | The eviction loop rebuilds list, map and bounds in one pass |
| `HotVectorIndex.HotVectorPartition.AddVector` | crates/chronik-columnar/src/hot_vector_index.rs:122-142 | The mutable partition changes as specified and stays valid |
| `HotVectorIndex.HotVectorPartition.EvictUpTo` | crates/chronik-columnar/src/hot_vector_index.rs:189-212 | The same for eviction |
| `HotVectorIndex.HotVectorPartition.TrimToCapacity` | crates/chronik-columnar/src/hot_vector_index.rs:219-229 | The same for trimming |
| `HotVectorIndex.SearchFindsNearest` | crates/chronik-columnar/src/hot_vector_index.rs:152-185 | Search of one partition returns the k nearest, for all three metrics |
| `HotVectorIndex.SearchTopic` | crates/chronik-columnar/src/hot_vector_index.rs:332-358 | Topic search returns the k nearest over all partitions, for all three metrics, and nothing for a query of the wrong size |
| `HotVectorIndex.GatheredIsTopK` | crates/chronik-columnar/src/hot_vector_index.rs:332-358 | Sorting and truncating the per-partition answers is the topic-wide top k |
| `HotVectorIndex.AnswerIsNearest` | crates/chronik-columnar/src/hot_vector_index.rs:332-358 | In plain terms: of two stored vectors of which the answer names only one, that one is no farther from the query, in difference, angle or dot product |
| `HotVectorIndex.AnswerIsStored` | crates/chronik-columnar/src/hot_vector_index.rs:332-358 | Every hit names the partition and the offset of a stored vector, with its distance |
| `HotVectorBatcher.NothingLostNothingReordered` | crates/chronik-columnar/src/hot_vector_batcher.rs:134-232 | In every run: accepted items are flushed in order of acceptance with the rest waiting behind them, queue and batches stay within their bounds, overflow drops only what it counts, a batch is dropped whole exactly if the provider fails or gives the wrong number of vectors and otherwise each item is added exactly if its vector has the right size, and the counters count batches, provider errors and added vectors |
| `HotVectorBatcher.AddedIsFoundUntilEvicted` | crates/chronik-columnar/src/hot_vector_index.rs:295-310 | In every run an item whose fate is Added is found in the hot index under its offset, unless a later step evicted up to that offset or trimmed it away |
| `HotVectorBatcher.CachedCameFromProvider` | crates/chronik-columnar/src/hot_vector_index.rs:295-310 | In every run whatever the hot index returns for an offset is a vector the provider gave for an item with that partition and offset |
| `HotVectorBatcher.ShutdownDrains` | crates/chronik-columnar/src/hot_vector_batcher.rs:187-232 | When the worker has exited, every accepted item was flushed |
| `HotVectorBatcher.FlushStartsIff` | crates/chronik-columnar/src/hot_vector_batcher.rs:187-232 | A worker that is not waiting starts a flush exactly when the batch is full, on a tick with something buffered, and when the senders are gone, and flushes all it has |
| `HotVectorBatcher.ShutdownCompletes` | crates/chronik-columnar/src/hot_vector_batcher.rs:187-232 | From every state of every run, once the senders are gone the worker can flush everything accepted and exit |
| `HotVectorBatcher.EnqueueTakesIff` | crates/chronik-columnar/src/hot_vector_batcher.rs:134-160 | An item is taken exactly while the queue has room; otherwise it is counted and dropped, and after the close nothing happens |
| `HotVectorBatcher.WorkerCatchesUp` | crates/chronik-columnar/src/hot_vector_batcher.rs:187-232 | From every state of every run, taking items, ticks and provider replies alone flush everything accepted |
| `HotVectorBatcher.RunInv` | crates/chronik-columnar/src/hot_vector_batcher.rs:134-232 | The invariant behind both holds in every run |
| `HotVectorBatcher.ApplyKeepsInv` | crates/chronik-columnar/src/hot_vector_batcher.rs:187-232 | Each step of producers and worker keeps it |
| `HotVectorBatcher.AddVectors` | crates/chronik-columnar/src/hot_vector_batcher.rs:315-352 | The flush loop adds the vectors to the hot index one by one, gives each item its fate and counts those the index took |
| `HotVectorBatcher.PrepareTexts` | crates/chronik-columnar/src/hot_vector_batcher.rs:250-269 | Each text sent is the longest prefix of its message that ends at a character boundary and fits two bytes per token; short texts are sent whole |
| `Utf8.TruncateToByteBudget` | crates/chronik-columnar/src/hot_vector_batcher.rs:239-248 | The backward loop stops at the last character boundary within the budget |
| `Utf8.TruncationKeepsWholeChars` | crates/chronik-columnar/src/hot_vector_batcher.rs:239-248 | On UTF-8 text that is the longest prefix of whole characters that fits, giving up at most three bytes |
| `Utf8.BoundaryIsWholeChars` | crates/chronik-columnar/src/hot_vector_batcher.rs:239-248 | Every boundary of encoded text is the end of a character |
| `Utf8.WholeCharsAreBoundary` | crates/chronik-columnar/src/hot_vector_batcher.rs:239-248 | Every end of a character is a boundary |
| `Utf8.EncodeRoundTrip` | crates/chronik-columnar/src/hot_vector_batcher.rs:239-248 | Decoding undoes encoding, and the encoding has as many bytes as section 3 of RFC 3629 gives it |
| `ConfigManager.RunCoherentIff` | crates/chronik-config/src/manager.rs:78-196 | In a run of load, get and set the cache agrees with the configuration after every step if and only if every successful set finds the cached entries strictly below its path equal to what the new value holds there |
| `ConfigManager.SetKeepsCoherenceIff` | crates/chronik-config/src/manager.rs:165-196 | The same condition for one set |
| `ConfigManager.OnlyEntriesBelowGoStale` | crates/chronik-config/src/manager.rs:165-196 | After one set from a coherent state a disagreeing entry lies strictly below the set path |
| `ConfigManager.SetEntry` | crates/chronik-config/src/manager.rs:165-196 | What one set does to any cache entry and to the value at any path, at, above, below or beside the set path |
| `ConfigManager.StaleRead` | crates/chronik-config/src/manager.rs:127-142 | Read a child, overwrite its parent, read again: the old child comes back |
| `ConfigManager.GetIsCurrent` | crates/chronik-config/src/manager.rs:127-142 | From a coherent state a read answers with the current configuration and stays coherent |
| `ConfigManager.StaleIsAbove` | crates/chronik-config/src/manager.rs:241-250 | Invalidation removes exactly the path and the paths above it |
| `ConfigManager.ApplyCoherentIff` | crates/chronik-config/src/manager.rs:78-196 | One operation keeps coherence exactly when it is harmless; get and load always are |
| `ConfigManager.LastProviderWins` | crates/chronik-config/src/manager.rs:78-100 | After loading, a path holds what the last provider that speaks of it says, failed providers being skipped |
| `ConfigManager.SetSucceedsIff` | crates/chronik-config/src/manager.rs:165-196 | An update goes through exactly if the configuration is an object and the updated one passes the validators; then the path holds the value; otherwise nothing changes |
| `ConfigManager.RunStaysValid` | crates/chronik-config/src/manager.rs:78-196 | In every run whose updates and loads are checked by the same validators the configuration always passes them |
| `ConfigManager.Manager.GetValue` | crates/chronik-config/src/manager.rs:127-142 | Cache and answer as specified |
| `ConfigManager.Manager.SetValue` | crates/chronik-config/src/manager.rs:165-196 | Configuration, cache and result as specified, errors included |
| `ConfigManager.Manager.InvalidateCache` | crates/chronik-config/src/manager.rs:241-250 | The loop over parent paths |
| `ConfigManager.Manager.LoadAll` | crates/chronik-config/src/manager.rs:78-118 | Merge in provider order, validate, store, clear the cache; a rejected configuration changes nothing |
| `ConfigValues.GetAfterSet` | crates/chronik-config/src/manager.rs:298-334 | Reading at or below a path just set reads from the new value |
| `ConfigValues.SetFrame` | crates/chronik-config/src/manager.rs:298-334 | Setting a path changes nothing at paths that lead elsewhere, also where a scalar on the way is replaced |
| `ConfigValues.GetPath` | crates/chronik-config/src/types.rs:70-84 | The loop over segments computes the recursive lookup |
| `ConfigValues.MergeLookup` | crates/chronik-config/src/manager.rs:278-295 | After a merge the overlay wins wherever it holds a value, hides what is below its scalars, and elsewhere the base shows through |
| `ConfigValues.MergeConfigs` | crates/chronik-config/src/manager.rs:278-295 | The merge loop computes this, in any order of entries |
| `ConfigChanges.ChangesAreTruthful` | crates/chronik-config/src/manager.rs:337-386 | Every reported change is a real difference with the old value and the new one, Null standing for a removal |
| `ConfigChanges.UpdatesAreTruthful` | crates/chronik-config/src/manager.rs:253-266 | Every update sent is of a path whose old and new value differ and are the ones sent, Null standing for a removal |
| `ConfigChanges.DifferencesAreReported` | crates/chronik-config/src/manager.rs:337-386 | Every path at which two configurations differ has a reported prefix |
| `ConfigChanges.NoChangesIffEqual` | crates/chronik-config/src/manager.rs:337-386 | Nothing is reported exactly when the configurations are equal |
| `ConfigChanges.FindReports` | crates/chronik-config/src/manager.rs:337-386 | The exact number of changes reported at every path: none where the sides agree or lack a common parent, one for an added or removed key and for two objects that differ, two for any other difference, one less at the root |
| `ConfigChanges.NoUpdateTwiceIff` | crates/chronik-config/src/manager.rs:253-266 | Subscribers, who receive paths as text, never get the same update twice if and only if no value that is not an object on both sides differs below the root and no two reported paths read the same and carry the same values |
| `ConfigChanges.NoUpdateTwiceWithCleanKeys` | crates/chronik-config/src/manager.rs:253-266 | Where keys are non-empty and free of dots, if and only if no such value differs |
| `ConfigChanges.DottedKeyAnnouncedTwice` | crates/chronik-config/src/manager.rs:253-266 | Adding the key `a.b` and, below `a`, the key `b` with the same value announces one update twice, although no change repeats |
| `ConfigChanges.NoChangeTwiceIff` | crates/chronik-config/src/manager.rs:337-386 | Told apart by their keys, no change is reported twice if and only if every path below the root that both sides have differs only between objects |
| `ConfigChanges.ScalarChangeReportedTwice` | crates/chronik-config/src/manager.rs:337-386 | Changing the value of one key from 1 to 2 is announced twice |
| `ConfigChanges.TextIsPathIff` | crates/chronik-config/src/manager.rs:350-372 | The reported path text is the dotted path exactly when it does not descend below an empty top-level key |
| `ConfigChanges.TextLeadsBackIff` | crates/chronik-config/src/manager.rs:348-352 | Splitting the announced text gives back the changed path exactly when no key on it contains a dot and it does not descend below an empty top-level key |
| `ConfigChanges.EmptyKeyIsLost` | crates/chronik-config/src/manager.rs:350-372 | The key `a` below an empty top-level key is announced as `a`, which is another key |
| `ConfigChanges.CollectChanges` | crates/chronik-config/src/manager.rs:337-386 | The comparison, which builds path texts as it descends, announces exactly the specified changes |
| `ConfigChanges.NotifyChanges` | crates/chronik-config/src/manager.rs:253-266 | Everything found from the root is sent, in order |
| `ConfigChanges.CollectPresent` | crates/chronik-config/src/manager.rs:345-366 | Its loop over the new map |
| `ConfigChanges.CollectKey` | crates/chronik-config/src/manager.rs:354-365 | One entry of that loop, with the search below it |
| `ConfigChanges.CollectRemoved` | crates/chronik-config/src/manager.rs:368-378 | Its loop over the old map |
| `JsonSchema.WidenIsJoin` | crates/chronik-columnar/src/json_schema.rs:57-66 | Widening is the least upper bound of two types, so commutative, associative and idempotent |
| `JsonSchema.InferPermutation` | crates/chronik-columnar/src/json_schema.rs:92-151 | Up to 100 samples give the same schema in every order, whatever order the maps are walked in |
| `JsonSchema.InferDescribes` | crates/chronik-columnar/src/json_schema.rs:92-151 | At most 100 messages are looked at. Each listed field has a type that fits all its values (one kind, or numbers that are not all integers; anything else is text) and is the least such, its number of occurrences, and is nullable iff a valid sample lacks it; the list is by falling occurrence, then name, cut to the limit or 64, and nothing left off comes before it |
| `JsonSchema.ScanMeans` | crates/chronik-columnar/src/json_schema.rs:104-125 | The scan holds, for exactly the fields that occur, the join of their types and how many samples have them |
| `JsonSchema.JoinTypeMeans` | crates/chronik-columnar/src/json_schema.rs:57-66 | What a column type says of the values seen: boolean, array, object or integer exactly if all are, decimal exactly if all are numbers and one is a decimal |
| `JsonSchema.LexLessMeans` | crates/chronik-columnar/src/json_schema.rs:143-147 | Names are ordered as strings are: a proper prefix first, otherwise by the first difference |
| `JsonSchema.InferSchema` | crates/chronik-columnar/src/json_schema.rs:92-151 | The sampling loops compute the specified schema |
| `JsonSchema.TallyObject` | crates/chronik-columnar/src/json_schema.rs:116-124 | The loop over one object |
| `SchemaConfig.ConfigRoundTripIff` | crates/chronik-columnar/src/json_schema.rs:162-232 | A schema survives the config string, up to occurrence counts, if and only if it has fields and no name contains a comma or a colon or starts with white space |
| `SchemaConfig.ParsedNameIsClean` | crates/chronik-columnar/src/json_schema.rs:187-226 | Names read back never contain a separator or leading white space |
| `SchemaConfig.ParseEntryIff` | crates/chronik-columnar/src/json_schema.rs:187-226 | An entry is understood exactly if, trimmed, it is what some field without a colon in its name is written as |
| `SchemaConfig.TrimMeans` | crates/chronik-columnar/src/json_schema.rs:194-197 | Trimming removes exactly the white space at both ends |
| `SchemaConfig.ConfigStringExample` | crates/chronik-columnar/src/json_schema.rs:162-184 | The text form as it stands in a topic configuration, with the names of the types |
| `SchemaConfig.ParseConfigString` | crates/chronik-columnar/src/json_schema.rs:187-232 | The parsing loop, which passes over malformed entries |
| `SchemaConfig.CommaIsLost` | crates/chronik-columnar/src/json_schema.rs:162-232 | A field name with a comma does not survive |
| `Retention.KeepsExactly` | crates/chronik-backup/src/scheduler.rs:453-527 | With unique ids and newest-first input a backup is kept if and only if it is at or after the first cutoff, the newest of its day from the daily cutoff to the first, of its week from the weekly to the daily, of its month from the monthly to the weekly, of its year from the yearly to the monthly, or among the newest few |
| `Retention.DeletesExactly` | crates/chronik-backup/src/scheduler.rs:415-527 | Applying a policy deletes exactly the backups of the schedule that it does not keep, its periods counted in days, weeks of 7, months of 30 and years of 365 days |
| `Retention.OfScheduleIsExact` | crates/chronik-backup/src/scheduler.rs:415-424 | The backups of a schedule, newest first: exactly those found whose id starts with its name and a dash |
| `Retention.NothingInvented` | crates/chronik-backup/src/scheduler.rs:453-527 | Every kept id is the id of a given backup |
| `Retention.NeverTwiceIff` | crates/chronik-backup/src/scheduler.rs:453-527 | For all backup lists with unique ids no id is listed twice, if and only if the cutoffs leave no instant in two windows |
| `Retention.PolicyNeverTwiceIff` | crates/chronik-backup/src/scheduler.rs:453-527 | A policy never lists an id twice, whatever the backups and the time, if and only if ten comparisons of its five periods hold |
| `Retention.DisjointSlotsIff` | crates/chronik-backup/src/scheduler.rs:460-508 | Those comparisons of the cutoffs hold exactly when no instant lies in two windows |
| `Retention.OrderIsNotNeeded` | crates/chronik-backup/src/scheduler.rs:453-527 | A policy without monthly and yearly backups is not in order and still never lists an id twice |
| `Retention.NoIdTwice` | crates/chronik-backup/src/scheduler.rs:453-527 | The sufficient direction on a given list |
| `Retention.OrderedIsDisjoint` | crates/chronik-backup/src/scheduler.rs:460-508 | Ordered cutoffs give disjoint windows |
| `Retention.OrderedPolicyIff` | crates/chronik-backup/src/scheduler.rs:65-78 | The cutoffs are ordered exactly when the policy's periods are, in days |
| `Retention.UnorderedPolicyListsTwice` | crates/chronik-backup/src/scheduler.rs:453-527 | A policy that keeps daily backups for longer than weekly ones lists a backup twice |
| `Retention.RetentionIsSafe` | crates/chronik-backup/src/scheduler.rs:415-450 | Applying the policy deletes only backups that match the schedule, never one in the keep-all window, and leaves at least min(minimum, n) |
| `Retention.MatchesOtherIff` | crates/chronik-backup/src/scheduler.rs:309-309 | A backup of another schedule is taken for one's own exactly when the other name is the own name followed by a dash and more |
| `Retention.TakesOtherSchedule` | crates/chronik-backup/src/scheduler.rs:421-424 | The schedule `daily` takes a backup of the schedule `daily-full` for its own |
| `Retention.ListingIsNewestFirst` | crates/chronik-backup/src/manager.rs:357-358 | The listing the policy sees is newest first |
| `Retention.IdentifyBackupsToKeep` | crates/chronik-backup/src/scheduler.rs:453-527 | The six loops compute the specified list |
| `Retention.KeepRecent` | crates/chronik-backup/src/scheduler.rs:460-467 | The keep-all loop |
| `Retention.KeepFirstPerBucket` | crates/chronik-backup/src/scheduler.rs:470-480 | A bucket loop with its set of served buckets keeps the first backup of each bucket |
| `Retention.ApplyRetention` | crates/chronik-backup/src/scheduler.rs:415-450 | Filter by schedule, guard by the minimum, and mark for deletion what is not kept |

## Left out

- HNSW construction and search, DataFusion planning, Arrow, Parquet, bincode and JSON parsing: foreign libraries, replaced by oracles or by the values they produce.
- Floating-point rounding and NaN ordering: reals have neither; in particular two configurations that differ only in NaN values compare equal here.
- A panicking embedding task: the original drops its batch without counting it; the model's tasks always return.
- Manual `build_partition_index` and `build_topic_indexes` calls: outside the rebuild cost bound, which counts automatic rebuilds.
- HotBuffer.HotAndColdAreExact: takes reads as atomic; `InterleavedReads` says exactly when split reads keep it.
- HotVectorBatcher.AddedIsFoundUntilEvicted: a flushed batch is added in one step; an eviction between two of its vectors is not modelled.
- LiveParquet.BoundedStaleness: compares with the clock value the call read at its start, as the code does, not with the time it returns.
- ConfigManager.RunCoherentIff: get, set and load are atomic steps; a set racing with a get between lookup and cache insertion is not modelled.
- ConfigChanges.DifferencesAreReported: the root of two differing objects has no path of its own; `NoChangesIffEqual` covers it.
- JsonSchema.InferPermutation: beyond 100 samples only the first 100 are looked at, so their order matters there.
- Retention.RetentionIsSafe: the original only counts what it would delete; the model returns those ids.
- Calendar arithmetic (dates, ISO weeks, months, years) and dates before the earliest representable one: bucket functions are parameters and instants are unbounded integers.
- Character counts and previews of message texts in the vector index: no effect on the state modelled.
- Filtered search by partition and offset range, search by text, statistics, metrics, Flight service, CLI, benchmarks, file watchers, environment providers: reporting, I/O or field copying.
- The caches of query embeddings and Flight streams: they would repeat the configuration and hot-buffer caches with easier statements.
- Backup creation, recovery, migration, encryption, compression and the cron parser: object-store I/O and placeholders.
- SQL text rewriting: substring edits with no parsed meaning to preserve.
- Serialization of partition assignments to JSON: a direct field copy.
