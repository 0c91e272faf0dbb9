# Verification of the CloudWatch agent's data paths

This project models the parts of the Amazon CloudWatch agent that decide what reaches the backend, and proves what they
conserve, in which order, and when something can be lost.

* **Metric statistics.** Samples are folded into weighted distributions (`Reals`, `Buckets`, `Samples`, `Distributions`,
  `Statistics`), aggregated per series and time window (`Aggregation`), split into SEH1 chunks of bounded size (`Resizing`), expanded over
  rolled-up dimension sets (`Rollups`, `Datums`), and packed into bounded upload batches per entity (`Entities`,
  `Batching`, `PublishLoop`). `Otel` is the conversion to histogram points and back.
* **EMF metric rules.** `MetricRules`, `RuleNamespaces` and `RuleDedup`: filtering, overlap detection, merging, and the swap
  removal in the rules' own arrays. A rule denotes the combinations of its metrics with its dimension sets.
* **Log tailer.** `Tailer` is the loop over lines, ticks and stops; `TailerRuns` holds what is true of whole runs and of
  the offset saver.
* **Caches and queues.** The rollup cache (`Rollups`), the endpoint client over its object store (`Endpoints`), the
  drop-oldest queue with its router and close protocol (`Publishing`), and the delta calculator over an expiring map
  (`Deltas`).
* `Common`, `Strings` and `KeyValues` hold shared notions: map iteration in an arbitrary order, sorting, joining and
  splitting, and maps rendered as sorted "name:value" pairs.

Conventions. Floating-point values are exact reals. Where Go ranges over a map, the model visits the keys in an arbitrary
order and the results are proved not to depend on it. Clocks, jitter, random evictions, regular expressions, timestamps and
filters are parameters or arbitrary choices. Concurrent code (publisher, endpoint client) is a state machine whose steps are
the lock regions and channel or semaphore operations, and results hold for every sequence of steps. The two distribution
types run the same code over different bucket keys, so both are the class `Distribution`, whose `kind` says which. Results
about a distribution hold for whatever statistics and buckets it has; its ghost field `entries` is the list of accepted
samples, and `Valid()` says that the distribution is exactly that of its entries.

Where the code falls short of the obvious reading:

* Lines that end at the same offset, such as the pieces into which the reader splits a long line, share a position. The
  saved offset can then cover a line that is still buffered. `EventCoversLater` gives the exact condition,
  `RepeatedOffsetCovered` an instance.
* `Replace` on the object store empties it without setting the flag, so an empty list (or a bad first object) goes
  unnoticed by the endpoint client: `EveryRun` in `Endpoints` gives the exact condition, `EmptyReplaceUnnoticed` an instance.
* Merging rules takes one namespace for all merged rules, the first one visited. `HarmlessExactly` says when every order of
  visiting keeps all pairs, `ConflictNever` when none does, `RewrittenKeeps` when a given order does; `NamespaceLost` is an
  instance.
* A histogram point holds whole counts, so a restored distribution may count more samples than its buckets hold, or have a
  sum but no samples. `CountConservedExactly` and `RunConserves` say exactly what is then lost, `FractionsLost` and
  `FractionLeftOut` are instances.
* The value of a metric whose distribution has buckets, but none with a positive count and a supported value, is sent
  although the distribution had refused it: `NoChunk` gives the exact condition, `StaleValueSent` an instance.
* Sorted and joined keys collide. `CollidesExactly`, `EntityCollidesExactly`, `KeyTellsExactly` and `CacheInvisibleExactly`
  say exactly when, `UncleanValuesCollide` and `UncleanCacheVisible` are instances.

## Model

| member | source | states |
|---|---|---|
| `Buckets.Floor` | metric/distribution/seh1/seh1_distribution.go:208-215 | the hand-written floor (truncate, then correct negatives) is the mathematical floor |
| `Buckets.FloorLog` | metric/distribution/seh1/seh1_distribution.go:200-206 | the bucket index b of a positive value satisfies 1.1^b <= v < 1.1^(b+1) |
| `Buckets.FloorLogUnique` | metric/distribution/seh1/seh1_distribution.go:200-206 | no other index satisfies it |
| `Buckets.FloorOfLog` | metric/distribution/seh1/seh1_distribution.go:200-215 | the bucket number is the int16 of that floor of the base-1.1 logarithm |
| `Buckets.MaxValueIsTwoTo` | metric/distribution/distribution.go:13-18 | the largest accepted value is 2^360 |
| `Buckets.FloorLogRange` | metric/distribution/seh1/seh1_distribution.go:200-206 | every positive float64 up to 2^360 has an index between -8592 and 2880 |
| `Buckets.BucketNumberExact` | metric/distribution/seh1/seh1_distribution.go:200-206 | the int16 conversion never wraps on accepted values, and only zero gets the bucket of zero |
| `Buckets.BucketNumberMonotone` | metric/distribution/seh1/seh1_distribution.go:200-206 | a larger float64 never gets a smaller bucket number, whether it is accepted or not |
| `Buckets.MidpointError` | metric/distribution/seh1/seh1_distribution.go:55-70 | the reported midpoint r of v's bucket satisfies v^2/1.1 < r^2 <= 1.1 v^2 |
| `Samples.SumPermutation` | metric/distribution/regular/regular_distribution.go:71-101 | count, sum and every bucket weight do not depend on the order of entries |
| `Samples.ListingSum` | metric/distribution/regular/regular_distribution.go:52-60 | listing each value once with its whole weight changes no count, sum or bucket weight |
| `Distributions.Distribution.constructor` | metric/distribution/regular/regular_distribution.go:25-34 | a new distribution is empty: no samples, maximum 0, minimum MaxFloat64, and fits the empty list of entries |
| `Distributions.Distribution.AddEntryWithUnit` | metric/distribution/regular/regular_distribution.go:71-101 | whatever the distribution holds, an accepted entry moves count, sum, extremes and its bucket; which weights and values are refused, and that a refusal changes nothing; the first unit stays; statistics that are exactly those of the entries stay so |
| `Distributions.Distribution.AddDistributionWithWeight` | metric/distribution/regular/regular_distribution.go:112-147 | whatever both distributions hold, and also for a merge into itself: counts, sums and buckets times w add up and extremes combine, or nothing changes if count times w is not positive or the types differ; distributions of entries stay such, with the source's entries times w |
| `Distributions.Distribution.AddBuckets` | metric/distribution/seh1/seh1_distribution.go:126-134 | the bucket loop adds the weighted counts in any visiting order, even when both distributions are the same object |
| `Distributions.Distribution.AddDistribution` | metric/distribution/seh1/seh1_distribution.go:119-121 | weight one, for any source; the entries are appended |
| `Distributions.Distribution.CanAdd` | metric/distribution/seh1/seh1_distribution.go:189-198 | true exactly when there is room or the value's bucket is present |
| `Distributions.Distribution.Values` | metric/distribution/regular/regular_distribution.go:52-60 | every value with a bucket, each once |
| `Distributions.EntryKeeps` | metric/distribution/seh1/seh1_distribution.go:81-112 | one accepted entry moves count, sum, minimum, maximum and its bucket to those of the longer list of entries |
| `Distributions.MergeDescribed` | metric/distribution/seh1/seh1_distribution.go:123-158 | count and sum add, minimum and maximum combine |
| `Distributions.StateDetermined` | metric/distribution/regular/regular_distribution.go:71-147 | two distributions whose values have the same weights agree on count, sum, extremes and all buckets, however they were built |
| `Distributions.MergeOrderIrrelevant` | metric/distribution/regular/regular_distribution.go:108-147 | merging is commutative and associative on the weights that determine the state |
| `Distributions.MergeIsAddingEachValue` | metric/distribution/regular/regular_distribution.go:112-147 | merging with weight w equals adding each source value once with its count times w |
| `Statistics.ValidTotal` | metric/distribution/regular/regular_distribution.go:36-60 | for a distribution built from entries, count, sum and bucket counts are the sums over the entries |
| `Statistics.PlusTotal` | metric/distribution/seh1/seh1_distribution.go:123-158 | merging any statistics adds count, sum and every bucket |
| `Statistics.FoldPermuted` | metric/distribution/seh1/seh1_distribution.go:123-158 | merging any statistics that all have samples gives the same count, sum, extremes and buckets in every order; so does merging some that hold nothing with others no less inclusive than those |
| `Resizing.Resize` | plugins/outputs/cloudwatch/util.go:81-107 | for any statistics and buckets: an SEH1 distribution is returned as it is; a regular one becomes new, well-formed SEH1 chunks that list every supported value with a positive count once, with that count, in ascending order, no bucket split, all but the last full |
| `Resizing.EntriesUsable` | plugins/outputs/cloudwatch/util.go:81-107 | every distribution built from float64 values can be resized, and be converted to a histogram point if its count is in range |
| `Resizing.Fill` | plugins/outputs/cloudwatch/util.go:95-102 | the loop keeps the closed chunks and the open one such a chunking of the values so far, also where it refuses values |
| `Resizing.ChunkingConserves` | plugins/outputs/cloudwatch/util.go:93-106 | sample count, sum and every bucket weight over all chunks are those of the values taken |
| `Resizing.CountConservedExactly` | plugins/outputs/cloudwatch/util.go:93-106 | the chunks keep the distribution's sample count (or sum) if and only if that is the total of its positive, supported buckets |
| `Resizing.EntriesConserved` | plugins/outputs/cloudwatch/util.go:93-106 | for a distribution built from entries every value is taken, and sample count, sum and every bucket weight are conserved |
| `Resizing.FractionsLost` | plugins/outputs/cloudwatch/util.go:93-106 | half a sample in each of two buckets, sent through a histogram point: the restored count is one and resizing leaves nothing |
| `Resizing.ChunkingExtremes` | plugins/outputs/cloudwatch/util.go:93-106 | overall minimum and maximum are those of a distribution built from entries |
| `Resizing.ChunkRangesAscend` | plugins/outputs/cloudwatch/util.go:93-106 | chunks cover ascending disjoint value ranges and share no bucket |
| `Resizing.ChunkCount` | plugins/outputs/cloudwatch/util.go:93-106 | with L >= 1 the number of chunks is exactly the number of distinct SEH1 buckets of the values taken over L, rounded up; with L < 1 one empty chunk comes first and each bucket has its own |
| `Otel.ConvertToOtel` | metric/distribution/regular/regular_distribution.go:149-161 | the point carries the statistics, and each bucket once with its count rounded down |
| `Otel.ConvertFromOtel` | metric/distribution/seh1/seh1_distribution.go:176-187 | the statistics are replaced and each bound overwrites its bucket; counts without a bound are not read |
| `Otel.LastBoundDecides` | metric/distribution/seh1/seh1_distribution.go:182-186 | of several bounds for a bucket the last decides its count, and a bucket without a bound keeps its own |
| `Otel.BoundBack` | metric/distribution/seh1/seh1_distribution.go:168-186 | every bucket key is recovered from its bound, also through the int16 conversion |
| `Otel.RoundTrip` | metric/distribution/regular/regular_distribution.go:149-174 | into a new distribution everything survives but the fractions of the counts; a distribution of entries with whole counts comes back identical, with the same entries |
| `Otel.FloorTotals` | metric/distribution/regular/regular_distribution.go:149-161 | each bucket loses less than one, and the total of n buckets at most n-1 after rounding |
| `Otel.RestoredDrift` | metric/distribution/regular/regular_distribution.go:149-174 | the sample count of the restored distribution exceeds the total of its own buckets by 0 to n-1 |
| `Aggregation.DurationAggregator.Aggregate` | plugins/outputs/cloudwatch/aggregator.go:131-166 | a datum with timestamp, name and unit, and a distribution that may hold anything, adds exactly its contribution under its series and the window that its time lies in, a partial one nothing; the first datum of a key stays the one that is kept, unchanged but for its distribution; held distributions stay apart, and the aggregator takes hold of nothing but the datum and its distribution |
| `Aggregation.DurationAggregator.First` | plugins/outputs/cloudwatch/aggregator.go:140-155 | the first datum of a key is kept, with a new distribution of its value if it has none |
| `Aggregation.DurationAggregator.Update` | plugins/outputs/cloudwatch/aggregator.go:156-166 | a later datum is merged into the kept distribution only; one without samples is left out |
| `Aggregation.DurationAggregator.Flush` | plugins/outputs/cloudwatch/aggregator.go:183-188 | every held datum is sent exactly once, with what was held for its key, whose series and window are its own, and nothing is held afterwards |
| `Aggregation.Aggregating` | plugins/outputs/cloudwatch/aggregator.go:126-188 | the loop over any sequence of datums and ticks: what is held and what each flush sent, still unchanged at the end, are those of the run of events, and every datum sent is of the series and window it is sent for |
| `Aggregation.SameKeyExactly` | plugins/outputs/cloudwatch/aggregator.go:137-140 | two complete datums are held under one key if and only if they are of one series and lie between the same two neighbouring multiples of the duration |
| `Aggregation.HeldByWindow` | plugins/outputs/cloudwatch/aggregator.go:126-188 | in every run, what is held for a series and a window is the fold of the contributions of exactly the datums of that series with a time in that window since the last tick |
| `Aggregation.AggregatingByWindow` | plugins/outputs/cloudwatch/aggregator.go:126-188 | the same of the loop itself: datums of different windows never share an aggregate |
| `Aggregation.TickFlushes` | plugins/outputs/cloudwatch/aggregator.go:183-188 | a tick flushes exactly what is held, window by window, and leaves nothing |
| `Aggregation.HeldIsFold` | plugins/outputs/cloudwatch/aggregator.go:126-188 | in every run, what is held for a key is the fold of everything received for it since the last flush |
| `Aggregation.ArrivalOrderIrrelevant` | plugins/outputs/cloudwatch/aggregator.go:156-166 | in two runs whose contributions to a key differ only in order, and all have samples (or hold nothing, the others being no less inclusive), the aggregate is the same in count, sum, extremes and buckets |
| `Aggregation.RunConserves` | plugins/outputs/cloudwatch/aggregator.go:126-188 | over a whole run, received sample count, sum and bucket weights equal those flushed, those held, and those of contributions without samples that came to a held key |
| `Aggregation.NothingLeftOut` | plugins/outputs/cloudwatch/aggregator.go:126-188 | contributions with samples, or with nothing to add, are never left out, so flushed plus held equals received |
| `Aggregation.FractionLeftOut` | plugins/outputs/cloudwatch/aggregator.go:156-166 | a restored distribution of less than one sample has a sum but no count, and its sum is lost when its key is held |
| `Datums.Payload` | plugins/outputs/cloudwatch/util.go:109-137 | the estimated encoded size, over all combinations of present and missing parts |
| `Datums.PayloadParts` | plugins/outputs/cloudwatch/util.go:21-60 | what each part adds to the size of any datum, in numbers: 97 and the texts for a dimension, 34 and the text for a name, 42 for resolution and unit, 104 for a value with its count and 246 for the statistics instead of 47 for a single value |
| `Datums.BuildMetricDatum` | plugins/outputs/cloudwatch/cloudwatch.go:421-489 | row after row, one for every dimension set (the original unless dropped, then the rollups), the datums of a row carry that dimension set, the name, the unit in force, the storage resolution, and the buckets and statistics of one chunk each, at most the allowed number of values; in each row the sample counts and sums add up to those of a distribution built from entries; where there is no chunk, exactly without a distribution or if none of its values is taken, each row is one datum with the metric's own supported value; a distribution without buckets gives none |
| `Datums.ReportsOf` | plugins/outputs/cloudwatch/cloudwatch.go:425-434 | each report gives its chunk's extremes, count, sum and buckets; for a distribution built from entries the counts and sums add up to its own |
| `Datums.ReportedExactly` | plugins/outputs/cloudwatch/cloudwatch.go:425-434 | the reported count and sum are those of the positive, supported buckets; the count is the distribution's if and only if these add up to it |
| `Datums.NoChunk` | plugins/outputs/cloudwatch/cloudwatch.go:443-465 | resizing leaves nothing of a regular distribution with buckets if and only if the limit is at least one and no bucket has a positive count and a supported value |
| `Datums.StaleValueSent` | plugins/outputs/cloudwatch/aggregator.go:140-166 | an unsupported value and then a restored distribution whose buckets lost their fractions, through the aggregator and the datum builder: the refused value is sent |
| `Batching.MetricDatumBatch.constructor` | plugins/outputs/cloudwatch/cloudwatch.go:223-232 | a new batch is empty and its size is the per-request constant |
| `Batching.MetricDatumBatch.Append` | plugins/outputs/cloudwatch/cloudwatch.go:192-194 | partition, size and count stay those of the datums in the batch |
| `Batching.MetricDatumBatch.Clear` | plugins/outputs/cloudwatch/cloudwatch.go:234-239 | the batch is empty and its partition is a new map |
| `Batching.Pusher.Push` | plugins/outputs/cloudwatch/cloudwatch.go:190-200 | all datums are logged in order; batches already sent keep their contents; every batch sent here has the allowed number of datums or 999000 bytes, and was not full before its last datum |
| `Batching.Pusher.Send` | plugins/outputs/cloudwatch/cloudwatch.go:195-199 | the partition goes out and is never touched again |
| `Batching.Pusher.Tick` | plugins/outputs/cloudwatch/cloudwatch.go:201-207 | only a batch that is not empty is sent, only when due, and a due one leaves nothing behind |
| `Batching.BatchLimits` | plugins/outputs/cloudwatch/cloudwatch.go:241-243 | a sent batch is not empty, holds at most the allowed number of datums, and without its last datum is below the payload threshold |
| `Batching.SizeAdds` | plugins/outputs/cloudwatch/cloudwatch.go:192-194 | the size of a batch is that of an empty one and what each datum adds |
| `Batching.ArrivalOrderKept` | plugins/outputs/cloudwatch/cloudwatch.go:169-212 | per entity, the sent batches and then the current one hold all its datums in arrival order |
| `Batching.PushMetricDatum` | plugins/outputs/cloudwatch/cloudwatch.go:169-212 | over any sequence of metrics and ticks, per entity the sent batches and then the current one hold exactly the datums that arrived, in order |
| `Batching.ArrivedAt` | plugins/outputs/cloudwatch/cloudwatch.go:182-190 | the datums of each metric arrive together, after those of the metrics before it and before those of the metrics after it; a tick brings none |
| `PublishLoop.GetFirstPushMs` | plugins/outputs/cloudwatch/cloudwatch.go:251-263 | the first push lies between now and one interval later, and comes the jitter after a whole number of intervals |
| `PublishLoop.OnFull` | plugins/outputs/cloudwatch/cloudwatch.go:285-299 | an interval above a second is halved but not below a second, others stay; the remaining time is halved with it |
| `PublishLoop.OneRound` | plugins/outputs/cloudwatch/cloudwatch.go:283-312 | one round keeps these bounds; a push is made exactly when due, after a cut at half the remaining time, and the next one is one interval after the due time |
| `PublishLoop.PushBounds` | plugins/outputs/cloudwatch/cloudwatch.go:285-312 | a cut never puts a push off, a due push happens all the same, and one that was not due happens only if it was a millisecond away |
| `PublishLoop.Publish` | plugins/outputs/cloudwatch/cloudwatch.go:269-321 | with a clock that never goes back, every round keeps min(1s, F) <= interval <= F and the next push at most F away; the interval is cut only in the first full round since a push and restored only by a push after a calm period; every due push happens |
| `PublishLoop.NeverFull` | plugins/outputs/cloudwatch/cloudwatch.go:269-321 | with a buffer that is never full the interval is F after every round of every run |
| `Entities.EntityAttributesToString` | plugins/outputs/cloudwatch/util.go:158-173 | the same text for every order in which the map is visited; nil is empty and a nil value an empty one |
| `Entities.EntityToString` | plugins/outputs/cloudwatch/util.go:139-156 | both texts joined by a bar, or nothing when both are empty |
| `Entities.StringToEntityAttributes` | plugins/outputs/cloudwatch/util.go:198-209 | each pair is cut at its first colon, pairs without one are skipped, later pairs win |
| `Entities.StringToEntity` | plugins/outputs/cloudwatch/util.go:175-196 | the first two parts are read, and a text without a bar gives an empty entity |
| `Entities.EntityRoundTrip` | plugins/outputs/cloudwatch/util.go:139-209 | reading the rendered entity gives both maps back when names hold no colon, semicolon or bar and values no semicolon or bar |
| `Entities.PartitionKeysDistinct` | plugins/outputs/cloudwatch/util.go:139-173 | such entities share a partition key exactly when their maps are equal |
| `Entities.EntityCollidesExactly` | plugins/outputs/cloudwatch/util.go:139-173 | an entity shares its partition key with a different one if and only if one of its two parts holds two colons or the key can be cut at another bar into parts that are empty or hold a colon |
| `Entities.KeyOfCleanEntity` | plugins/outputs/cloudwatch/util.go:139-173 | a text is the partition key of a clean entity if and only if it is empty or has two parts, not both empty, each of sorted pairs with different names |
| `Entities.UncleanEntityCollides` | plugins/outputs/cloudwatch/util.go:139-173 | as a special case, an entity that is not clean shares its key with a clean one if and only if its key is such a text |
| `Entities.UncleanValuesCollide` | plugins/outputs/cloudwatch/util.go:158-173 | a value that holds a semicolon can give two different entities the same key |
| `Rollups.ContainsAll` | internal/util/collections/collections.go:84-92 | true exactly for a subset |
| `Rollups.SetEqual` | internal/util/collections/collections.go:94-100 | equal sizes and one inclusion decide equality |
| `Rollups.UniqueGroups` | processor/rollupprocessor/processor.go:175-196 | the distinct groups, sorted, in order of first appearance |
| `Rollups.GetUniqueRollupList` | plugins/outputs/cloudwatch/cloudwatch.go:587-611 | the same list as the rollup processor's |
| `Rollups.UniqueGroupsMeaning` | processor/rollupprocessor/processor.go:175-196 | each result is sorted without repetition, no two are equal as sets, and as sets they are exactly the groups given |
| `Rollups.BuildRollup` | processor/rollupprocessor/processor.go:151-173 | one attribute map per group that is smaller than the attributes, contained in them and free of repetitions |
| `Rollups.RestrictTo` | processor/rollupprocessor/processor.go:159-171 | the length test after the early break accepts exactly the groups that are contained and free of repetitions |
| `Rollups.ProcessRollup` | plugins/outputs/cloudwatch/cloudwatch.go:553-585 | the original dimensions and then one entry per group that is smaller and contained, in group order |
| `Rollups.RollupsAgree` | plugins/outputs/cloudwatch/cloudwatch.go:553-585 | on uniquely named dimensions and groups without repetition both implementations produce the same attribute maps in the same order |
| `Rollups.LastOfNameDecides` | plugins/outputs/cloudwatch/cloudwatch.go:557-561 | of several dimensions with one name the last decides the value |
| `Rollups.RollupCache.Key` | processor/rollupprocessor/cache.go:31-39 | sorted pairs joined by bars, whatever the visiting order; the no-op cache has one key |
| `Rollups.RollupDataPoints` | processor/rollupprocessor/processor.go:116-149 | unless the metric is dropped, every data point stands in the output in order, directly before its own copies, and otherwise only the copies do; each copy has the value of its point and one attribute map of its rollup; with any cache, under any hits, misses and evictions, the output is the one without a cache, for all attribute maps of which those with equal keys roll up alike; for any attribute maps, a cache that forgets nothing serves what was stored first under the key |
| `Rollups.RollupMeaning` | processor/rollupprocessor/processor.go:151-172 | the attribute maps of a rollup are exactly those of the groups without repetition that are smaller than the attributes and contained in them, each with the values of its names |
| `Rollups.RollupConcat` | processor/rollupprocessor/processor.go:151-172 | the maps of a rollup stand in the order of the groups, at most one for each group |
| `Rollups.CachedRollup` | processor/rollupprocessor/processor.go:134-142 | the rollup of the attributes or the entry found under their key; the former if attributes with equal keys roll up alike |
| `Rollups.CleanUnambiguous` | processor/rollupprocessor/cache.go:31-39 | attribute names without colon or bar and values without bar meet that condition, because their keys are injective |
| `Rollups.CacheInvisibleExactly` | processor/rollupprocessor/processor.go:116-149 | a cache that forgets nothing changes no output over these attribute maps if and only if those with equal keys roll up alike |
| `Rollups.KeyTellsExactly` | processor/rollupprocessor/processor.go:134-142 | attributes share their key with others that some groups roll up differently if and only if the key can be cut at a bar into two ordered pairs with different names; so does every map of two attributes |
| `Rollups.UncleanCacheVisibleExactly` | processor/rollupprocessor/processor.go:134-142 | as a special case for given groups, attributes that hold separators share a key with clean ones that roll up differently if and only if the parts of their key are sorted pairs with different names that roll up differently |
| `KeyValues.RenderingExists` | processor/rollupprocessor/cache.go:31-39 | the sorted, joined pairs are the same text for every order in which the map is visited |
| `KeyValues.RenderRoundTrip` | plugins/outputs/cloudwatch/util.go:158-209 | splitting and cutting the rendered pairs gives the map back |
| `KeyValues.RenderInjective` | processor/rollupprocessor/cache.go:31-39 | different clean maps are rendered differently |
| `KeyValues.CollidesExactly` | processor/rollupprocessor/cache.go:31-39 | any map is rendered like a different one if and only if its rendering holds two colons |
| `KeyValues.Renderings` | processor/rollupprocessor/cache.go:31-39 | the renderings are exactly the empty text and those that hold a colon |
| `KeyValues.RenderingOfTwo` | processor/rollupprocessor/cache.go:31-39 | a text is the rendering of a map of two pairs or more if and only if it can be cut at a separator into two ordered pairs with different names |
| `KeyValues.CleanRendering` | processor/rollupprocessor/cache.go:31-39 | a text is the rendering of a clean map if and only if it is empty or its parts are sorted pairs with different names, and then of the map they read as |
| `KeyValues.UncleanCollidesExactly` | processor/rollupprocessor/cache.go:31-39 | as a special case, a map that is not clean is rendered like a clean one if and only if the parts of its rendering are such pairs, and then like the map they read as |
| `Rollups.UncleanCacheVisible` | processor/rollupprocessor/processor.go:116-149 | a value that holds a bar: rolling up two data points with a cache gives another output than without |
| `MetricRules.CleanupRules` | internal/structuredlogscommon/utils.go:12-40 | the kept rules denote exactly the pairs whose metric is a field and whose dimensions are all tags; no kept rule is empty |
| `MetricRules.GetOverlapMetrics` | internal/structuredlogscommon/utils.go:42-62 | exactly the metrics carried by two or more rules are listed, each with exactly the rules that carry it |
| `MetricRules.MergeDimensions` | internal/structuredlogscommon/utils.go:77-91 | the union of the dimension sets without repetition, whether anything was repeated, and the first namespace that is not empty |
| `MetricRules.MergeDuplicateMetrics` | internal/structuredlogscommon/utils.go:73-104 | a metric gets a merged rule exactly when a dimension set repeats, the rule lists the union, and its namespace is the first one, not empty, of the rules visited so far |
| `RuleDedup.RemoveOne` | internal/structuredlogscommon/utils.go:114-120 | swap removal in place takes away exactly one occurrence |
| `RuleDedup.RemoveMerged` | internal/structuredlogscommon/utils.go:112-121 | one occurrence of each merged metric is gone and nothing else, in any order of removal |
| `RuleDedup.GetDeduppedRules` | internal/structuredlogscommon/utils.go:106-128 | the merged rules, then the rewritten rules that still have metrics, although the rewriting happens in the rules' own arrays |
| `RuleDedup.DedupRules` | internal/structuredlogscommon/utils.go:130-144 | for any rules: pairs are kept in every order of visiting if no other namespace comes into play; for rules without repetitions they are kept if and only if the order of visiting agrees, a pair is lost in every order where two namespaces conflict, and no pair is emitted twice |
| `RuleDedup.AttachMetricRuleWithDedup` | internal/structuredlogscommon/common.go:108-114 | filtering and rewriting together: exactly the available original pairs, for rules of one namespace or filtered rules among which no other namespace comes into play; none twice |
| `RuleDedup.PairsKept` | internal/structuredlogscommon/utils.go:106-128 | where namespaces agree, a pair is denoted after the rewriting exactly when it was before |
| `RuleDedup.NothingRepeated` | internal/structuredlogscommon/utils.go:106-128 | no pair is emitted twice after the rewriting |
| `RuleNamespaces.MergingDecides` | internal/structuredlogscommon/utils.go:73-104 | whether a metric is merged can be told from the rules: two rules carry it and they list a dimension set twice |
| `RuleNamespaces.HarmlessExactly` | internal/structuredlogscommon/utils.go:73-128 | in every order of visiting each merged rule gets the namespace of its rules (for rules without repetitions: all pairs are kept) if and only if every rule with an overlapping metric has no namespace or that of the rules that denote pairs of merged metrics |
| `RuleNamespaces.ConflictNever` | internal/structuredlogscommon/utils.go:73-128 | if two rules that denote pairs of merged metrics have different namespaces, no order of visiting keeps all pairs |
| `RuleDedup.RewrittenKeeps` | internal/structuredlogscommon/utils.go:106-128 | for rules without repetitions pairs are kept if and only if each of them has the namespace in use when its merged metric was visited |
| `RuleDedup.NamespaceLost` | internal/structuredlogscommon/utils.go:73-128 | two rules of different namespaces that share a metric and a dimension set, given to dedupRules: a pair is lost, whatever the order of visiting |
| `Tailer.Moved` | plugins/inputs/logfile/tailersrc.go:37-42 | the new position is never before the old one, and is the same only for the same offset; the sequence goes up by one exactly when the offset goes back |
| `Tailer.RunTail` | plugins/inputs/logfile/tailersrc.go:202-277 | every good line is handled in order, and after any inputs each handled line is kept in a group or the buffer, blank, or overflow that directly follows the lines of a full message; every message is exactly the join of its lines, cut with the suffix where it is too long; for every group that the filters let through, in order, one event has its message as the timestamp function leaves it, the time found there, and its position; a group that neither the timer nor the end of the lines flushed ends before a starting line; the timer needs five ticks per flush and never lets a buffer wait longer; a closed channel leaves no buffer; it stops at the first stop or close |
| `Tailer.PublishEvent` | plugins/inputs/logfile/tailersrc.go:279-327 | an empty buffer publishes nothing; otherwise one event with the message, its time and the current position, unless it is filtered |
| `TailerRuns.PositionsOrdered` | plugins/inputs/logfile/tailersrc.go:33-42 | positions of handled lines never go back, whatever truncations happen |
| `TailerRuns.EventsOrdered` | plugins/inputs/logfile/tailersrc.go:202-277 | emitted events carry non-decreasing positions |
| `TailerRuns.EventCovers` | plugins/inputs/logfile/tailersrc.go:235-272 | unless the next line ends at the same offset, an event's position covers exactly the lines handled before it, never a buffered one |
| `TailerRuns.EventCoversNext` | plugins/inputs/logfile/tailersrc.go:235-272 | an event's position covers the next line if and only if that line ends at the same offset as the one before |
| `TailerRuns.EventCoversLater` | plugins/inputs/logfile/tailersrc.go:235-272 | an event's position covers some later line if and only if the line right after it ends at the same offset |
| `TailerRuns.RepeatedOffsetCovered` | plugins/inputs/logfile/tailersrc.go:240-261 | two lines with the same offset, given to the tailer: the event of the first covers the second, still buffered, line |
| `TailerRuns.SavedPositionSafe` | plugins/inputs/logfile/tailersrc.go:171-179 | if the acknowledged events are a prefix, every line at or before the position of an acknowledged event was acknowledged, refused by the filters, empty or overflow of a full event, unless the line right after that event ends at the same offset |
| `TailerRuns.RunSaveState` | plugins/inputs/logfile/tailersrc.go:372-417 | the saver holds the latest acknowledged position; what it writes are acknowledged positions that never move backwards, none twice before the final save and none by a failed write; after a good save the last one written is the one it holds |
| `TailerRuns.SaverSafe` | plugins/inputs/logfile/tailersrc.go:372-417 | tailer and saver together: every position the saver holds or writes is safe to restart from in this sense, unless the line right after each acknowledged event with that position ends at the same offset |
| `TailerRuns.MessagesBounded` | plugins/inputs/logfile/tailersrc.go:247-256 | with lines of at most the maximum size, so are all messages and the buffer |
| `TailerRuns.CutMessage` | plugins/inputs/logfile/tailersrc.go:250-256 | a message that was cut has the maximum size, begins like the joined lines and ends with the suffix |
| `TailerRuns.KeptLinesReproduced` | plugins/inputs/logfile/tailersrc.go:235-272 | groups and buffer hold all kept lines once and in order |
| `TailerRuns.NothingLost` | plugins/inputs/logfile/tailersrc.go:235-272 | if no message fills up, the exact joins of the groups and the buffer reproduce all (non-empty) lines in order |
| `TailerRuns.EventsReproduceLines` | plugins/inputs/logfile/tailersrc.go:235-300 | if messages are left alone, none is filtered and none fills up, the messages of the events and then the buffer, joined, are all (non-empty) lines joined |
| `TailerRuns.TailReproduces` | plugins/inputs/logfile/tailersrc.go:202-300 | end to end: splitting the joined messages and the buffer gives back the lines that came in, in order |
| `TailerRuns.JoinLinesSplit` | plugins/inputs/logfile/tailersrc.go:247-256 | lines without a line break are recovered from their join |
| `TailerRuns.StartOpensEvent` | plugins/inputs/logfile/tailersrc.go:235-272 | in every run a (non-empty) line that starts an event is kept, never dropped as overflow, and is the first line of its message |
| `Publishing.NonBlockingFifoQueue.Enqueue` | internal/publisher/nonblockingfifoqueue.go:40-49 | the value is appended; a full queue loses its oldest value |
| `Publishing.NonBlockingFifoQueue.Dequeue` | internal/publisher/nonblockingfifoqueue.go:29-38 | the oldest value is taken, or nothing from an empty queue |
| `Publishing.EveryRun` | internal/publisher/publisher.go:51-108 | in every run each request is exactly one of dropped, queued, held or dispatched; the queue is the tail of what was enqueued within its bound; dispatch is in enqueue order; at most `concurrency` workers run |
| `Publishing.InvReaches` | internal/publisher/publisher.go:66-108 | the protocol invariant holds after any interleaving |
| `Publishing.CleanClose` | internal/publisher/publisher.go:66-80 | when Close meets no timeout no worker publishes, and everything left was enqueued after the router last found the queue empty |
| `Publishing.NoPublishAfterClose` | internal/publisher/publisher.go:66-108 | after such a Close nothing is dispatched by any later step |
| `Publishing.CloseCompletes` | internal/publisher/publisher.go:66-108 | after Close was called, and unless it times out, every schedule without further requests is finite, with an explicit bound, and where no step is left Close has returned cleanly |
| `Publishing.CanCloseCleanly` | internal/publisher/publisher.go:66-108 | from every reachable state in which Close was called some schedule lets it return cleanly |
| `Endpoints.ObjStore.Refreshed` | internal/k8sCommon/k8sclient/obj_store.go:30-41 | reading the flag returns and clears it |
| `Endpoints.ObjStore.Add` | internal/k8sCommon/k8sclient/obj_store.go:43-63 | a good object is stored and sets the flag, a bad one changes nothing |
| `Endpoints.ObjStore.Delete` | internal/k8sCommon/k8sclient/obj_store.go:71-86 | the object is removed and the flag set, or nothing changes |
| `Endpoints.ObjStore.List` | internal/k8sCommon/k8sclient/obj_store.go:89-98 | exactly the stored objects |
| `Endpoints.ObjStore.Replace` | internal/k8sCommon/k8sclient/obj_store.go:122-137 | the contents become the good objects before the first bad one; the flag is set only if there is at least one |
| `Endpoints.EpClient.Refresh` | internal/k8sCommon/k8sclient/endpoint.go:81-123 | both maps are derived from the listed objects |
| `Endpoints.EpClient.PodKeyToServiceNames` | internal/k8sCommon/k8sclient/endpoint.go:57-67 | refreshes exactly when the flag was set |
| `Endpoints.EpClient.ServiceToPodNum` | internal/k8sCommon/k8sclient/endpoint.go:69-79 | refreshes exactly when the flag was set |
| `Endpoints.Collect` | internal/k8sCommon/k8sclient/endpoint.go:87-110 | for each pod the names of the services that list it, for each service (by name and namespace) with pods a pod count |
| `Endpoints.InvStep` | internal/k8sCommon/k8sclient/endpoint.go:57-123 | every atomic step of writers and readers keeps the maps derived from a version of the store that never goes back |
| `Endpoints.EveryRun` | internal/k8sCommon/k8sclient/endpoint.go:57-123 | in every interleaving the maps come from some past version and versions never go back; in a quiet state the version is the current one if and only if no emptying of the store was missed, and the maps are right if and only if that holds or they are empty anyway |
| `Endpoints.EmptyReplaceUnnoticed` | internal/k8sCommon/k8sclient/obj_store.go:122-137 | replacing the contents by nothing leaves the maps naming a service that is gone |
| `Deltas.MapWithExpiry.CleanUp` | internal/mapWithExpiry/mapWIthExpiry.go:23-29 | exactly the entries younger than the time to live remain |
| `Deltas.MapWithExpiry.Get` | internal/mapWithExpiry/mapWIthExpiry.go:31-37 | the stored content, expired or not |
| `Deltas.MapWithExpiry.Set` | internal/mapWithExpiry/mapWIthExpiry.go:39-41 | the content is stored with the current time |
| `Deltas.MapWithExpiry.Delete` | internal/mapWithExpiry/mapWIthExpiry.go:47-49 | the entry is gone |
| `Deltas.DeltaCalculator.Calculate` | plugins/inputs/prometheus/delta_calculator.go:27-63 | one sample: an invalid one forgets the series, the first is only remembered, later ones give the difference or, after a reset or with an old timestamp, the value itself; stale series are cleaned up |
| `Deltas.CalculateAll` | plugins/inputs/prometheus/delta_calculator.go:27-63 | over any sequence of samples, with invalid ones: a series is remembered exactly if its last sample is valid and was younger than five minutes at every clean-up since, and then by that sample; a valid sample of a remembered series emits the growth, or its value if that fell or time did not advance, and every other sample nothing |
| `Deltas.RemembersNext` | plugins/inputs/prometheus/delta_calculator.go:27-63 | one more sample keeps this, for its own series and for every other |
| `Deltas.NothingAfterInvalid` | plugins/inputs/prometheus/delta_calculator.go:30-37 | whatever other series do, the first sample of a series after an invalid one, or the very first, emits nothing |
| `Deltas.Remembered` | plugins/inputs/prometheus/delta_calculator.go:41-60 | however other series interleave, the calculator remembers the last value of a series in a steady stretch |
| `Deltas.DeltasAddUp` | plugins/inputs/prometheus/delta_calculator.go:27-63 | the emitted deltas of every steady stretch of a series, from the start or from an invalid sample on, add up to last minus first plus the values seen just before each reset |

## Left out

- Otel.ConvertToOtel: negative counts and counts of 2^64 and more are excluded, because the conversion to an unsigned integer is then implementation-defined.
- Distributions.Distribution.AddEntryWithUnit: NaN and rounding are not modelled, because values are exact reals.
- Aggregation.DurationAggregator.Aggregate: a datum or distribution that is already held must not be passed in again, and all distributions are of the aggregator's kind; otherwise in-place updates would reach two keys at once. A datum has a value or a distribution, because the source panics on neither.
- Aggregation.DurationAggregator.First: the textual aggregation key is a pair of the rendered series and the window start; the rendering of the series is not modelled.
- PublishLoop.Publish: flush intervals below a millisecond are excluded, because the source then divides by zero.
- Rollups.RollupDataPoints: attribute values are strings; values of other types that print alike are not modelled.
- Tailer.RunTail: a truncation suffix longer than the maximum event size is excluded, because the source panics on it; the sender buffer with file-descriptor release is not modelled.
- Publishing.CloseCompletes: the queue's bound and the concurrency are positive; with no worker a request would be held for ever.
- Deltas.MapWithExpiry.Get: the clock is a parameter of each sample instead of being read.
- Resizing.Resize: bucket values are numbers, not NaN or infinite: not positive, or between 2^-1074 and 2^1024, as every finite float64 is.
- RuleDedup.DedupRules: the difference between nil and empty dimension lists in reflect.DeepEqual is not modelled.
- TailerRuns.SaverSafe: that the acknowledged events form a prefix of the emitted ones is a premise, because the order of acknowledgements is up to the outputs.
- Unit conflict logging, default-unit tables and unit-name conversion: finite and easy.
- Routing of datums to one aggregator per interval, and the high-resolution flag set there: easy.
- The PutMetricData call with its retries and back-off, and all other AWS, Kubernetes and Prometheus clients: I/O.
- Reading lines from disk, decoding and regular expressions in the tailer: lines, start-of-event tests and filters are inputs.
- The endpoint slice watcher, configuration translation and merging, the wizard and the command-line programs.
