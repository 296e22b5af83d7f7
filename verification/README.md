# Query-backend model

Dafny models of the parts of SigNoz's query backend whose correctness is least visible in the code, with
proofs about all inputs, all runs or all interleavings. `dafny verify dfyconfig.toml` checks everything.

* **The query cache** (`TimeWindows`, `Sorting`, `MissingRanges`, `SeriesMerge`, `QueryStore`, `BucketCache`,
  `CachedQuery`, `CacheExactness`, `CacheProtocol`). The store is a function from a series and an interval to
  an aggregate, so a direct query has a meaning of its own and the cache is compared with it. Lookup, merge
  and storing are methods over a class holding the entries; what each promises is a predicate (`IsLookup`,
  `IsMerge`, `IsStored`) that a second model reuses, in which any number of clients interleave the lookup, the
  queries, the read and the write inside `Put`, failures and eviction. Transparency on every complete step
  interval holds in every run. It does not extend to the last interval of a window that ends off the grid: a
  stored bucket serves that interval whole. `CacheExactness` says exactly when the answer is the direct one on
  every point and every partial flag; for a store computed from events that can be read off the entry.
* **The service registry** (`DependencyGraph`, `ServiceRegistry`). Building it, and the starter and watcher
  goroutines as a transition system over their program counters and over counts of channel closes. Safety
  is stated on the channels. Two things one might expect of the labels and of the order fail, and the lemmas
  say exactly when: a FAILED service can still turn RUNNING while its watcher is there, and Starts come in
  dependency order exactly when nothing depends on a service that may be healthy before its Start.
* **The filter compiler** (`FilterCompiler`, `FilterExactness`, `FilterSplit`, `FilterErrors`). Expressions are compiled with
  some conditions skipped because another clause enforces them. The condition under which a compiled clause
  is weaker, or stronger, than the filter follows the polarity of NOT; it is proved sufficient for every
  expression and exact for expressions that use no test twice. The same is done for the pair of clauses that
  the main query and the resource sub-query send. Exactly which filters are rejected is a separate result.
* **Windowed lists** (`StepIntervals`, `TimeSlices`, `WindowedList`). The slicing loop in wrapping 64-bit
  arithmetic: exactly when a subtraction wraps, what the slices then are, and exactly when the loop ends. The
  page read slice by slice against one ordered scan with one limit and one offset, and which rows a cursor
  skips from one page to the next.
* **Smaller algorithms.** The single-row edit distance against chains of edits (`EditDistance`); the
  contradiction detector, with what each report proves (`ContradictionChecks`, `Contradictions`,
  `ContradictionReports`); the scalar
  table as a full outer join (`ScalarTable`); key deduplication as a join (`DuplicateKeys`); string quoting
  and its reading back (`Quoting`).

Hypotheses, where a result needs them, are stated in the lemma: fixed data and unshifted queries for the
cache; a fingerprint that names one store and one step; a row that answers a resource test alike in both
tables; canonical numerals and, under NOT, comparable values for the contradiction detector.

Where the code and its comments or names disagree, the code was followed. `makeBuckets` promises slices of
the window, which it gives only when no subtraction wraps: a wrapped one is appended the wrong way round, and
the loop need not end. A cursor steps over whole milliseconds, so a next page can miss rows. IN and BETWEEN
conditions that cannot be built are dropped without an error. A text cell compares equal to every number, so
the default table order need not be one. For meters, the minimum step can exceed the recommended one. An IN operand
written without parentheses is recorded as an empty list by the contradiction detector.

## Model

| member | source | states |
|---|---|---|
| MissingRanges.FindMissingRanges | pkg/querier/bucket_cache.go:202-398 | for any buckets the ranges lie in the window and with the buckets cover it; with a window of at least one step and buckets on the grid, in any order and overlapping, they are exactly the leading partial interval and the rest of the window minus the buckets, ordered and disjoint |
| MissingRanges.SearchOnGrid | pkg/querier/bucket_cache.go:256-316 | the step-aligned search meets that contract and every boundary is on the grid or the request's own |
| MissingRanges.SearchPlainly | pkg/querier/bucket_cache.go:319-398 | without alignment, for buckets of non-empty spans: exactly the uncovered instants, whatever the flux boundary |
| MissingRanges.NoIntervalIsSplit | pkg/querier/bucket_cache.go:256-313 | a step interval inside the window is inside a reported range or disjoint from it |
| MissingRanges.CoverageIgnoresOrder | pkg/querier/bucket_cache.go:235-254 | sorting the buckets changes neither their coverage nor their shape |
| SeriesMerge.AppendNew | pkg/querier/bucket_cache.go:486-506 | appends exactly the samples with new timestamps |
| SeriesMerge.AppendNewMeaning | pkg/querier/querier.go:1027-1040 | no timestamp repeats, what was there stays, nothing new is lost |
| SeriesMerge.MergeSeries | pkg/querier/bucket_cache.go:460-558 | one series per identity, sorted, whose point map is that of the sources in order, the first one winning |
| SeriesMerge.MergedMapMeaning | pkg/querier/querier.go:959-1047 | the accumulated map holds exactly the sources' points |
| SeriesMerge.SortKeepsPoints | pkg/querier/querier.go:1063-1074 | sorting distinct timestamps changes no lookup |
| SeriesMerge.OrderIndependentIffAgreeing | pkg/querier/querier.go:959-1091 | the point map is the same for every order of the sources if and only if sources of one series never disagree on a timestamp |
| SeriesMerge.MergedAsOften | pkg/querier/bucket_cache.go:486-510 | a merged series lists a timestamp exactly as often as the first of its sources that lists it |
| SeriesMerge.NoRepeatIff | pkg/querier/bucket_cache.go:486-510 | it lists none twice if and only if every timestamp that a source lists twice was listed by an earlier source of the series |
| QueryStore.PartialFlag | pkg/querier/consume.go:75-101 | the code's divisions and branches give the flag that the next row characterises |
| QueryStore.PartialIffCut | pkg/querier/consume.go:75-101 | on the grid a point is flagged partial exactly when the window cuts its interval |
| QueryStore.DirectIsComplete | pkg/querier/consume.go:75-101 | a complete interval's point does not depend on the window |
| QueryStore.UnflaggedIsComplete | pkg/querier/consume.go:75-101 | an unflagged point is the point of its whole interval |
| BucketCacheModel.BucketCache.GetMissRanges | pkg/querier/bucket_cache.go:40-94 | what is served is the point map of the overlapping buckets cut to the window; what is missing meets the contract of the range search |
| BucketCacheModel.BucketCache.Put | pkg/querier/bucket_cache.go:97-192 | when nothing is stored, and otherwise the new entry: the fresh bucket, rounded inwards to the grid and trimmed, deduplicated with the old buckets, other entries untouched |
| BucketCacheModel.FilterRelevantBuckets | pkg/querier/bucket_cache.go:401-424 | the buckets that overlap the window, earliest start first |
| BucketCacheModel.MergeAndDeduplicate | pkg/querier/bucket_cache.go:644-678 | one bucket per span, the last one given, sorted by start |
| BucketCacheModel.StoredMeaning | pkg/querier/bucket_cache.go:644-678 | storing invents no bucket, loses no span, and keeps the fresh bucket |
| BucketCacheModel.TrimResultToFluxBoundary | pkg/querier/bucket_cache.go:700-751 | drops partial samples and samples past the boundary, keeps every series |
| BucketCacheModel.FilteredMeaning | pkg/querier/bucket_cache.go:769-825 | filtering samples filters the point map |
| CachedQuery.Querier.ExecuteWithCache | pkg/querier/querier.go:738-838 | from a sound cache and a store that answers or fails: the answer is faithful on every complete interval, the cache stays sound, other entries are untouched, a non-empty window never dereferences a missing merge, a failure changes nothing |
| CachedQuery.Querier.MergeResults | pkg/querier/querier.go:895-956 | cached and fresh results become their first-wins merge; one fresh result alone is returned as it is |
| CachedQuery.FreshBucketOk | pkg/querier/bucket_cache.go:111-168 | what is made of a sound answer is a sound bucket: non-empty, on the grid, no partial point, every point of its span |
| CachedQuery.StoredEntryOk | pkg/querier/bucket_cache.go:175-176 | storing keeps an entry sound |
| CachedQuery.ServedMeaning | pkg/querier/bucket_cache.go:72-94 | a sound entry serves only complete points, and all of those its buckets cover |
| CachedQuery.CombinedIsOk | pkg/querier/querier.go:826-828 | served and fresh points together are the store's on every complete interval |
| CachedQuery.ExecutedIsOk | pkg/querier/querier.go:742-838 | the same for each of the three ways an answer comes about |
| CachedQuery.ShortWindowNotCached | pkg/querier/bucket_cache.go:139-166 | a window shorter than a step never reaches the entry |
| CachedQuery.WindowNotEmpty | pkg/querier/querier.go:742-758 | a non-empty window is never both unserved and without missing ranges |
| CacheExactness.ExactIffTailUntouched | pkg/querier/querier.go:738-838 | a merged answer equals the direct one on every point and flag if and only if the window ends on the grid or the stored buckets keep out of its last, cut interval |
| CacheExactness.HeadPoint | pkg/querier/bucket_cache.go:259-269 | the leading cut interval is always asked afresh and agrees with the direct query |
| CacheExactness.TailPoint | pkg/querier/bucket_cache.go:769-825 | when the last, cut interval agrees |
| CacheExactness.ExactIffNothingListed | pkg/querier/querier.go:738-838 | for a store where an interval has an aggregate if some part of it has: a merged answer is the direct one if and only if the window ends on the grid or no stored bucket that overlaps it lists a point at its last step boundary |
| CacheExactness.TailServedWhole | pkg/querier/bucket_cache.go:769-825 | a stored bucket over the cut last interval serves its whole point, which the direct query never gives |
| CacheExactness.TailCanDiffer | pkg/querier/querier.go:738-838 | for any store, step and two windows: a request answered and stored, then one that ends inside an interval the first held whole, differ from the direct answer there |
| CacheProtocol.StepKeepsInv | pkg/querier/bucket_cache.go:97-192 | every interleaved step of any number of clients, failures and evictions included, keeps every bucket sound |
| CacheProtocol.EveryAnswerIsFaithful | pkg/querier/querier.go:738-838 | in every run every answer has exactly the store's points on complete intervals |
| CacheProtocol.LostUpdatesOnlyLose | pkg/querier/bucket_cache.go:124-191 | a stale write never brings in a bucket that no earlier Put made |
| CacheProtocol.LostExactly | pkg/querier/bucket_cache.go:124-191 | in every run a stored bucket disappears exactly by eviction, by a write whose fresh bucket takes its span, or by a write whose read had not seen it |
| DependencyGraph.TopologicalRank | pkg/factory/registry.go:214-235 | a ranking, or none exactly when there is a cycle |
| DependencyGraph.LeftoverHasCycle | pkg/factory/registry.go:233-249 | nodes that only wait for each other contain a cycle |
| ServiceRegistry.NewRegistry | pkg/factory/registry.go:30-79 | accepts exactly a logger and at least one service with distinct names whose dependencies, self and unknown ones dropped, have no cycle; each rejection names its reason |
| ServiceRegistry.StepKeepsInv | pkg/factory/registry.go:81-133 | the per-service invariant survives every step of every goroutine |
| ServiceRegistry.StartWaitsForDependencies | pkg/factory/registry.go:84-112 | in every interleaving a service that never becomes healthy keeps every transitive dependent from entering Start and from becoming healthy |
| ServiceRegistry.ChannelsCloseOnce | pkg/factory/state.go:58-69 | no healthyC and no startReturnedC is closed twice |
| ServiceRegistry.AwaitHealthyMeansHealthy | pkg/factory/registry.go:173-190 | nil means every service is healthy; a failure names a service that has returned |
| ServiceRegistry.NoStuckDependent | pkg/factory/registry.go:84-112 | at rest no starter is left waiting, sends on startC aside |
| ServiceRegistry.RunsSettle | pkg/factory/registry.go:81-133 | every run has boundedly many service steps and ends with each dependent of an unhealthy service failed and its Start not entered |
| ServiceRegistry.FailedIsFinalIff | pkg/factory/registry.go:114-130 | after any run a FAILED service can still turn RUNNING if and only if its watcher has not finished |
| ServiceRegistry.NeverStartedStaysFailed | pkg/factory/registry.go:84-112 | a service failed by a dependency or by cancellation stays FAILED and is never started, in every continuation |
| ServiceRegistry.FailedCanTurnRunning | pkg/factory/registry.go:114-130 | in any accepted graph any service can come to be FAILED with RUNNING still to come |
| ServiceRegistry.StartsInOrderIff | pkg/factory/registry.go:84-123 | for a set of services that may signal before their Start: in every run Starts come in dependency order if and only if nothing depends on one of them |
| ServiceRegistry.StartedBeforeDependents | pkg/factory/registry.go:84-123 | a service that signals only from within Start has its Start entered before all that depend on it, directly or through others, whatever those signal |
| ServiceRegistry.DependentCanStartFirst | pkg/factory/service.go:14-72 | in any accepted graph, for any dependency that may signal early, some run enters the dependent's Start first |
| FilterCompiler.FilterVisitor.Accept | pkg/querybuilder/where_clause_visitor.go:239-367 | the visitor returns the specified clause and adds the specified number of errors |
| FilterCompiler.FilterVisitor.VisitOrExpression | pkg/querybuilder/where_clause_visitor.go:239-263 | one unevaluable branch makes the OR unevaluable and stops the visit |
| FilterCompiler.FilterVisitor.AcceptComparison | pkg/querybuilder/where_clause_visitor.go:370-648 | the comparison's clause over the keys that are kept and can be built |
| FilterCompiler.PrepareWhereClause | pkg/querybuilder/where_clause_visitor.go:97-179 | resource skipping is off when an OR occurs; errors reject; Skip becomes TRUE |
| FilterCompiler.VisitAnd | pkg/querybuilder/where_clause_visitor.go:266-291 | an AND skips exactly when all members do, and otherwise means the members kept |
| FilterCompiler.VisitOr | pkg/querybuilder/where_clause_visitor.go:239-263 | an OR skips exactly when some branch does, and otherwise means all branches |
| FilterCompiler.VisitComparison | pkg/querybuilder/where_clause_visitor.go:378-412 | a compiled comparison is the AND or the OR over exactly the kept keys, by the operator's sign |
| FilterCompiler.Directions | pkg/querybuilder/where_clause_visitor.go:239-307 | for every expression, options and row: the polarity condition implies that the clause is weaker, or stronger, than the expression |
| FilterCompiler.PreparedIsWeaker | pkg/querybuilder/where_clause_visitor.go:97-179 | a prepared clause loses no row under that condition |
| FilterExactness.WeakerIffWeak | pkg/querybuilder/where_clause_visitor.go:239-307 | with no test used twice, a clause keeps every row of the filter if and only if the condition holds |
| FilterExactness.StrongerIffStrong | pkg/querybuilder/where_clause_visitor.go:239-307 | and lets no other row through if and only if the dual condition holds |
| FilterSplit.WithoutOr | pkg/querybuilder/where_clause_visitor.go:376-391 | without an OR, the main clause and the resource clause together equal the filter if and only if the filter is a conjunction of its two parts in the stated sense |
| FilterSplit.WithoutOrHolds | pkg/telemetryresourcefilter/condition_builder.go:56-58 | the sufficient direction for every expression, tests repeated or not |
| FilterSplit.WithOr | pkg/querybuilder/where_clause_visitor.go:122-128 | with an OR, they equal the filter if and only if the resource clause is weaker than it |
| FilterSplit.WithOrHolds | pkg/telemetryresourcefilter/statement_builder.go:129-145 | the sufficient direction for every expression |
| FilterSplit.NegatedMixedAnd | pkg/querybuilder/where_clause_visitor.go:294-307 | a negated AND of a kept and a skipped member never splits well |
| FilterSplit.MixedKeys | pkg/querybuilder/where_clause_visitor.go:378-391 | a name with keys on both sides splits well exactly under a negative operator |
| FilterSplit.ResolvedKeysMix | pkg/querybuilder/where_clause_visitor.go:955-980 | key resolution leaves a mixed name exactly when resource keys meet keys of a third context and no attribute |
| FilterSplit.WithoutTheOverride | pkg/querybuilder/where_clause_visitor.go:122-128 | an OR that each clause skips a branch of would restrict nothing, were resource skipping left on |
| FilterErrors.RejectedIff | pkg/querybuilder/where_clause_visitor.go:97-179 | a filter is rejected if and only if a leaf that is visited has an unknown name, a malformed operand, or, outside IN and BETWEEN, a condition that cannot be built |
| FilterErrors.FailedConditions | pkg/querybuilder/where_clause_visitor.go:478-491 | in every filter an IN or BETWEEN that cannot be built counts as no restriction, with no error |
| StepIntervals.ToNanoSecs | pkg/querybuilder/time.go:22-34 | the digit loop computes the scaled epoch |
| StepIntervals.NineteenDigits | pkg/querybuilder/time.go:22-34 | below 10^19 nothing overflows and a non-zero result has 19 digits |
| StepIntervals.NormalisedTwice | pkg/querybuilder/time.go:22-34 | normalising is idempotent |
| StepIntervals.UnitDoesNotMatter | pkg/querybuilder/time.go:22-34 | seconds, milliseconds, microseconds and nanoseconds of one instant normalise alike |
| StepIntervals.OrderIff | pkg/querybuilder/time.go:22-34 | below 10^19 two epochs compare, once normalised, as the shorter with zeros appended to the other's length compares with the other |
| StepIntervals.OrderKeptIff | pkg/querybuilder/time.go:22-34 | so the order of two epochs is kept if and only if it is that order too; always for equal lengths |
| StepIntervals.TwentyDigitsVanish | pkg/querybuilder/time.go:22-34 | an epoch of 20 digits becomes 0 |
| StepIntervals.MinimumStep | pkg/querybuilder/time.go:38-64 | the minimum step is positive, at most the recommended one, and leaves fewer than 3000 intervals |
| StepIntervals.MetricStep | pkg/querybuilder/time.go:109-155 | for metrics, fewer than 600 |
| StepIntervals.MeterStep | pkg/querybuilder/time.go:66-107 | for meters the minimum exceeds the recommendation if and only if a 300th of the window is more than 24 whole hours that are 1 to 11 over whole days |
| StepIntervals.MeterMinimumCanExceed | pkg/querybuilder/time.go:66-107 | a window of 312 and a half days, for which it does |
| StepIntervals.ChosenStepIsBounded | pkg/querier/querier.go:184-195 | whatever step was requested, the step used is positive and leaves fewer than 3000 intervals |
| TimeSlices.MakeBuckets | pkg/querier/list_range.go:10-36 | the slices the loop appends, wrapped or not, up to the pass that leaves it; none exactly when no pass does |
| TimeSlices.UnwrappedSlices | pkg/querier/list_range.go:22-35 | without a wrapped subtraction they are the slices of the window |
| TimeSlices.WrapsIffInverted | pkg/querier/list_range.go:22-35 | a subtraction wraps if and only if some slice is appended whose end is before its start |
| TimeSlices.StopsIff | pkg/querier/list_range.go:22-35 | the loop ends if and only if, modulo 2^64, the end less what some 1 to 51 slices reach is at most the start |
| TimeSlices.OffGridNeverStops | pkg/querier/list_range.go:22-35 | from zero it never ends for an end that is not a multiple of 8192 ns |
| TimeSlices.SlicingCanGoOn | pkg/querier/list_range.go:10-36 | such a request: from the epoch to a millisecond in November 2023 |
| TimeSlices.SlicingCanWrap | pkg/querier/list_range.go:10-36 | a window with a start other than zero in which a subtraction wraps |
| TimeSlices.SlicesPartition | pkg/querier/list_range.go:22-35 | every instant of the window is in exactly one slice |
| TimeSlices.SlicesAreAdjacent | pkg/querier/list_range.go:22-35 | adjacent and newest first, from end to start |
| TimeSlices.SlicesDouble | pkg/querier/list_range.go:22-35 | each slice is twice the one before, the last at most that |
| TimeSlices.SliceCount | pkg/querier/list_range.go:22-35 | as few slices as can reach back that far, so logarithmically many |
| TimeSlices.WrapsIff | pkg/querier/list_range.go:22-26 | a subtraction wraps exactly when the slice that reaches the start would also pass zero |
| TimeSlices.RecentWindowsDoNotWrap | pkg/querier/list_range.go:10-36 | none wraps when the end plus an hour is at most twice the start |
| TimeSlices.FromZeroStopsIff | pkg/querier/list_range.go:22-35 | from zero it ends for at most 51 ends in all, those that are exactly what some number of slices reach |
| WindowedList.BuilderQuery.ExecuteWindowList | pkg/querier/builder_query.go:279-421 | for the window moved by the cursor and cut to the traces, the rows are one limit and one offset applied to the slices' scans, so in an ordinary window to one scan of it, and a full page names the next cursor; the spec is left with offset 0 and the last slice's positive limit |
| WindowedList.BuilderQuery.ReadSlice | pkg/querier/builder_query.go:364-397 | a slice is queried with offset 0 and a positive limit, the rows still needed, and the page is then that of the slice read whole |
| WindowedList.BuilderQuery.Collect | pkg/querier/builder_query.go:385-394 | the rows of one slice extend the page, the client's offset skipped once |
| WindowedList.PageOfWindow | pkg/querier/builder_query.go:352-398 | scanning the slices in visiting order is scanning the window once, in either direction; without a wrap those are the slices that are made |
| WindowedList.SlicesOfMillis | pkg/querier/builder_query.go:352-398 | in milliseconds of thirteen digits, without a wrap, the slices that are made yield exactly the rows of the window |
| WindowedList.CursorDown | pkg/querier/builder_query.go:286-298 | newest first, the page after a cursor repeats no row and misses exactly the rows after the page before that are not earlier than the millisecond before the cursor's |
| WindowedList.CursorUp | pkg/querier/builder_query.go:286-298 | oldest first, it misses exactly those of the cursor's own millisecond |
| WindowedList.CursorCanMiss | pkg/querier/builder_query.go:286-298 | two rows of one millisecond, one of them on the page: the next page misses the other, in either direction |
| WindowedList.ClampLosesNothing | pkg/querier/builder_query.go:313-350 | cutting the window to the range of the traces a filter names, or answering nothing, loses no row of theirs |
| EditDistance.Levenshtein | pkg/querybuilder/having_expression_validator.go:464-485 | the single row computes the recursive distance |
| EditDistance.DistanceIsLeast | pkg/querybuilder/having_expression_validator.go:463-485 | the distance is the least number of single-character insertions, deletions and substitutions, so the diagonal on equal characters is optimal |
| EditDistance.DistanceIsMetric | pkg/querybuilder/having_expression_validator.go:464-485 | zero exactly on equal strings, symmetric, and subject to the triangle inequality |
| EditDistance.ClosestMatch | pkg/querybuilder/having_expression_validator.go:453-461 | the first candidate with the least distance, or "" and -1 |
| Contradictions.Detector.Visit | pkg/querybuilder/never_true.go:106-343 | the walk leaves the specified constraints and reports and restores the NOT contexts |
| Contradictions.Detector.VisitBranches | pkg/querybuilder/never_true.go:127-149 | an OR with several branches leaves the constraint set as it was |
| Contradictions.Detector.CheckContradictions | pkg/querybuilder/never_true.go:403-413 | adds exactly the findings on fields with at least two constraints |
| Contradictions.DetectContradictions | pkg/querybuilder/never_true.go:36-83 | exactly the reports found on the way and at the end, each once |
| ContradictionChecks.FindContradictions | pkg/querybuilder/never_true.go:416-645 | exactly the kinds of clash present in the constraints |
| ContradictionChecks.CheckRangeContradictions | pkg/querybuilder/never_true.go:688-763 | true exactly when no real number meets all numeric bounds |
| ContradictionChecks.HasCommonIntersection | pkg/querybuilder/never_true.go:648-685 | true exactly when some real number is in all numeric ranges |
| ContradictionChecks.FindingIsRight | pkg/querybuilder/never_true.go:460-583 | constraints with a finding that is not a heuristic are met by no value and no absence |
| ContradictionReports.ChoicesCover | pkg/querybuilder/never_true.go:127-149 | a filter matches exactly what some choice of its OR branches matches |
| ContradictionReports.ReportIsRight | pkg/querybuilder/never_true.go:36-83 | a report that is not a heuristic means that some choice of branches matches no row whose values are comparable wherever a range operator is negated |
| ContradictionReports.ReportIsFinal | pkg/querybuilder/never_true.go:36-83 | without an OR outside negation, that the whole filter matches no such row |
| ContradictionReports.PushedMeaning | pkg/querybuilder/never_true.go:865-910 | for every filter, pushing NOT down to negated operators admits no row more, and loses none whose values are comparable wherever a range operator is negated |
| ContradictionReports.NegatedRangesAreMisread | pkg/querybuilder/never_true.go:378-400 | without that: two negated range comparisons are reported as an empty range, yet a row without the field matches both |
| ContradictionReports.NegatedAndIsMisread | pkg/querybuilder/never_true.go:152-180 | a negated AND that every row matches is reported |
| ContradictionReports.BareInIsMisread | pkg/querybuilder/never_true.go:365-375 | so is a satisfiable IN without parentheses |
| ContradictionReports.TwoSpellingsAreMisread | pkg/querybuilder/never_true.go:460-471 | so is one number in two spellings |
| ScalarTable.MergeScalarData | pkg/querier/postprocess.go:748-861 | one merged row per key in order of first appearance, its cells the newest values given |
| ScalarTable.RowsAreTheKeys | pkg/querier/postprocess.go:793-824 | the rows are the distinct group keys of all queries |
| ScalarTable.CellsAreTheQuerys | pkg/querier/postprocess.go:826-845 | a cell is the last value its own query gives for the key, or n/a |
| ScalarTable.OrdersIffComparable | pkg/querier/postprocess.go:909-937 | the comparison orders a set of cells if and only if no text in it stands beside two different numbers |
| ScalarTable.SortedIsUnique | pkg/querier/postprocess.go:905-907 | where it does, descending with equal rows in their old order is one result, which every stable sort gives |
| ScalarTable.SortByFirstAggregation | pkg/querier/postprocess.go:890-937 | a permutation by the first aggregation column, if any; descending, n/a last, equal rows in their old order, wherever the comparison orders the column |
| DuplicateKeys.QuerySpec.AdjustDuplicateKeys | pkg/querybuilder/collision.go:13-81 | each list becomes the joined keys at the first occurrences of their names, directions kept |
| DuplicateKeys.JoinMeaning | pkg/querybuilder/collision.go:83-100 | a context or data type survives exactly when all keys of the name agree on it |
| DuplicateKeys.JoinIgnoresOrder | pkg/querybuilder/collision.go:83-100 | whatever the order in which the keys are met |
| DuplicateKeys.RebuiltMeaning | pkg/querybuilder/collision.go:37-77 | no name twice, none lost, none new, in the order in which the names first occur |
| DuplicateKeys.AdjustedTwice | pkg/querybuilder/collision.go:13-81 | adjusting is idempotent |
| Quoting.QuotedIsReadBack | pkg/querier/format.go:145-150 | a quoted string is read back unchanged, for every string |
| Quoting.ReadingsAgreeIff | pkg/querybuilder/where_clause_visitor.go:1003-1016 | the two replacements read a token as its escapes say exactly when no escaped backslash stands before a bare quote |
| Quoting.ReadingsCanDiffer | pkg/querybuilder/where_clause_visitor.go:1003-1016 | a double-quoted token on which they do not |

## Left out

- Drivers, statement builders' SQL text, PromQL, HTTP, JSON encoding and logging; warnings and statistics carried next to results.
- Parsing: expressions start as trees, and AND, OR and NOT in SQL have their boolean meaning. The three-valued logic of absent columns is not modelled.
- Concurrency inside one `executeWithCache`: its range queries write separate slots, so they run in order here.
- Unsigned wrap-around in the cache's millisecond arithmetic; windows are natural numbers there. Time slicing and step bounds do model it.
- Changing data: cached points win merges and trimming keeps a point at the boundary itself, so nothing is claimed about freshness.
- Query shifts (`ShiftBy`), which `createRangedQuery` applies to an already shifted window.
- Fingerprints: one opaque key per query; the interleaving model has one fingerprint.
- Series grouping by joined label values; a series identity is opaque.
- Windows shorter than one step: answered and never stored, but two ranges may cut one interval, so nothing is promised about their partial points.
- Payloads without buckets for non-time-series results; the cache stores none.
- The mutex of `setState` and `startErr` updates: each critical section is one step.
- The stop path of the registry (`Stop`, `Wait`) and its signal handling.
- FilterCompiler.FilterVisitor.Accept: does not model the errors of single arguments of function calls, or numbers that do not parse; a call is one opaque test, and an operand is usable, unrestricting or malformed.
- FilterExactness.WeakerIffWeak: does not cover expressions that use a test twice, because two occurrences can cancel and no condition on the shape is then exact.
- FilterExactness.StrongerIffStrong: has the same restriction.
- FilterSplit.WithoutOr: has the same restriction; the sufficient direction is proved without it.
- FilterSplit.WithOr: has the same restriction; the sufficient direction is proved without it.
- WindowedList.BuilderQuery.ExecuteWindowList: takes ties in the order to be resolved alike by every query, and the cursor as decoded; slices after a wrapped subtraction are passed on as they are, and nothing is said of the rows they repeat.
- ContradictionChecks.FindContradictions: does not model LIKE, REGEXP and CONTAINS constraints; reports carry a field and a kind, not the message.
- ContradictionReports.ReportIsRight: claims nothing about the three kinds of report that are heuristics (overlapping IN and NOT IN lists, an equal value inside a NOT BETWEEN, a BETWEEN sampled at three points), does not cover a negated AND of several members or an IN without parentheses, for which counterexamples are given, claims nothing about rows in which a negated range comparison finds no comparable value, for which one is given too, and takes numerals to be written in one way.
- ScalarTable.MergeScalarData: takes the row key to be injective, and the queries in name order.
- ScalarTable.SortByFirstAggregation: promises only a permutation for a column on which the comparison is no order.
- DuplicateKeys.QuerySpec.AdjustDuplicateKeys: does not model the list of actions it returns.
- Sorting is a stand-in for the library sort, and `TopologicalRank` for the graph library; only their contracts matter.
- `deduplicateRows`, the formula step, alert links, anomaly detection and migrations.
