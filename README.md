# mini-prometheus core in Dafny

This project models the core of mini-prometheus, a small Prometheus-like
scraper written in Go. Three parts are modelled, and properties are proved
about each:

- **The value layer** (`pkg/model`):
  - labels, their `(name, value)` order, their sorted copy and their
    canonical rendering `name=value,...`;
  - metrics, their rendering `name{labels}` and their fingerprint, the
    64-bit FNV-1a hash of that rendering;
  - samples, and appending to a sample list.
- **The in-memory time-series store** (`pkg/storage/memory.go`): a class
  whose one field maps fingerprints to series. It supports append, an
  instant query with a five-minute lookback window, an inclusive range
  query, and delete.
- **Configuration handling** (`pkg/config/config.go`):
  - validation, an ordered chain of checks where the first failure wins;
  - processing: defaults resolved per job, global and static label maps
    merged, and target URLs built with the scheme-prefix rule.

Files:

- `Wrappers.dfy`: `Option` and `Result`.
- `Primitives.dfy`: Go's fixed-width integers, int64 subtraction with
  wrap-around, and Go's byte-wise string order.
- `Labels.dfy`: `label.go`. `Sorted` copies the labels into a fresh array
  and sorts it in place through `Swap`; `String` fills a builder in a loop.
- `Metrics.dfy`: `metric.go`. FNV-1a is a fold over the bytes.
- `Samples.dfy`: `sample.go`.
- `Storage.dfy`: `memory.go`. `MemoryStorage` is a class whose `series`
  map is updated by `Append` and `Delete`. The two query scans are loops.
- `Config.dfy`: `config.go`. `Validate` and `Process` are methods with
  loops, proved against specification functions.

Modelling choices:

- Go strings in `pkg/model` are byte sequences, so they are modelled as
  `seq<byte>`, and Go's `<` on them as the byte-lexicographic `BytesLess`.
- A nil `*Metric` or `*Sample` argument is `None`.
- A `float64` sample value is only copied, never computed on, so it is kept
  as its 64-bit pattern.
- Durations are int64 nanoseconds.
- Go's `sort.Sort` (pdqsort) is modelled by an insertion sort. This is
  exact, not an approximation: label order is a strict total order, and
  `SortedUnique` proves that only one arrangement of a multiset of labels is
  sorted.
- On equal in-window timestamps, the instant query keeps the first sample
  in append order, because the scan replaces its pick only on a strictly
  greater timestamp.
- The window start `timestamp - lookback` is computed with int64
  wrap-around, as Go does.

Points where the code is easy to misread, and what the model does:

- Both bounds of a range query are inclusive (`pkg/storage/memory.go:92`).
- Repeated label names are kept, and labels with one name are ordered by
  value (`pkg/model/label_test.go:31-38`).
- `memory.go:81` returns `ErrTimeRange`, which `pkg/storage/errors.go` does
  not declare (it declares `ErrOutOfOrder`). The model calls it `TimeRange`.
- `pkg/model/sample.go:4` names the timestamp field `TimeStamp`, while
  `memory.go` reads `Timestamp`. The model has one field, `timestamp`.
- `pkg/storage/memory.go:9` uses `model.Series`, which
  `pkg/model/label.go`, `metric.go` and `sample.go` do not declare. It is
  modelled as a metric plus its samples in append order.
- Label order is the predicate `Labels.Less` (`pkg/model/label.go:42-47`):
  by name, then by value, each with Go's string `<`.
- `MemoryStorage.Valid()` holds when every key is the fingerprint of its
  series' metric and no series is empty. It is a proved invariant only:
  the constructor establishes it, and `Append` and `Delete` preserve it. No
  operation requires it, as no Go method checks it.
- The FNV-1a rounds are modelled on integers. The xor of a byte touches
  only the low eight bits of the state, and each round has an inverse
  (`FnvUnstep`), because the FNV prime is odd and so invertible modulo
  2^64.
- Specification functions with no row of their own, each stated through
  the lemmas and methods that cite the same lines:
  - `Labels.Join` (`pkg/model/label.go:25-32`) joins `name=value` pairs
    with commas;
  - `Metrics.XorByte` and `Metrics.Xor` (`pkg/model/metric.go:19-23`) xor
    a byte into the low eight bits of the hash state;
  - `Config.MergeLabels` (`pkg/config/config.go:107-118`) is the global
    labels overridden by the static config's;
  - `Config.BuildTargets` (`pkg/config/config.go:119-124`) is the built
    URLs of the targets, in order, skipping those that fail;
  - `Config.ProcessStatic` (`pkg/config/config.go:106-129`) is one static
    config with merged labels and built targets.
- `Config.MergeLabelsIdempotent` and `Config.ProcessJobStable` are side
  facts. Go processes each job once, so no Go code depends on them; they
  show that processing settles after one pass.

## Model

| member | source | states |
|---|---|---|
| Primitives.WrapInt64 | pkg/storage/memory.go:59 | an in-range value is unchanged; otherwise the result is congruent to the exact value modulo 2^64 (two's-complement wrap) |
| Primitives.SubInt64 | pkg/storage/memory.go:59 | int64 `a - b` is the exact difference when it fits, and the difference plus 2^64 when it underflows |
| Primitives.BytesLessIrreflexive | pkg/model/label.go:42-47 | no string is below itself under Go's string `<` |
| Primitives.BytesLessAsymmetric | pkg/model/label.go:42-47 | Go's string `<` never holds both ways |
| Primitives.BytesLessTransitive | pkg/model/label.go:42-47 | Go's string `<` is transitive |
| Primitives.BytesLessTotal | pkg/model/label.go:42-47 | any two strings are equal or ordered one way or the other |
| Labels.LessIrreflexive | pkg/model/label.go:42-47 | no label is less than itself |
| Labels.LessAsymmetric | pkg/model/label.go:42-47 | label `Less` never holds both ways |
| Labels.LessTransitive | pkg/model/label.go:42-47 | label `Less` (name first, then value) is transitive |
| Labels.LessTotal | pkg/model/label.go:42-47 | distinct labels are always ordered: `Less` is a strict total order |
| Labels.NotLessTransitive | pkg/model/label.go:42-47 | the non-decreasing relation used by `sort.IsSorted` is transitive |
| Labels.SortedAt | pkg/model/label.go:14-19 | in a sorted list no later label is less than an earlier one, for any two positions |
| Labels.SortedHeadIsLeast | pkg/model/label.go:14-19 | no label of a sorted list is less than its first label |
| Labels.SortedUnique | pkg/model/label.go:14-19 | two sorted arrangements of the same multiset of labels are equal, so any correct sort gives `Sorted`'s result |
| Labels.Insert | pkg/model/label.go:14-19 | inserting into a sorted list keeps it sorted and adds exactly one occurrence of the label |
| Labels.SortedLabels | pkg/model/label.go:14-19 | the reference sort: a sorted permutation of its input |
| Labels.Swap | pkg/model/label.go:49-51 | exchanges the labels at positions i and j, changes nothing else, and keeps the multiset |
| Labels.InsertLast | pkg/model/label.go:17 | one pass of the in-place sort: the first i+1 slots become sorted and hold the same labels as before, the slots after i are unchanged, and the array's multiset is kept |
| Labels.Sorted | pkg/model/label.go:14-19 | the result has the input's length and multiset and is non-decreasing by (name, value); the input is a value and is left as it was |
| Labels.JoinShape | pkg/model/label.go:25-32 | a non-empty rendering is the first pair followed by `,pair` for each further label: no leading or trailing separator |
| Labels.Canonical | pkg/model/label.go:22-34 | the rendering is empty exactly when there are no labels, and otherwise holds at least 2n - 1 bytes: a `=` for each label and a `,` between neighbours |
| Labels.String | pkg/model/label.go:22-34 | the builder loop renders the sorted labels' `name=value` pairs joined by `,`; empty labels give the empty string |
| Labels.CanonicalPermutationInvariant | pkg/model/label.go:23 | any two arrangements of the same labels render the same |
| Labels.CanonicalOfSorted | pkg/model/label.go:23 | the rendering of any arrangement is the join of its sorted arrangement |
| Labels.StringOrdersByName | pkg/model/label_test.go:11-18 | two labels given in the wrong order are rendered in name order |
| Labels.StringKeepsRepeatedName | pkg/model/label_test.go:31-38 | a repeated name is kept, with its labels ordered by value |
| Labels.StringOfEmptyAndSingle | pkg/model/label_test.go:19-30 | no labels render as `""`; one label renders as `host=A` |
| Labels.StringOfTwoLabels | pkg/model/label_test.go:11-18 | `region=us` followed by `host=A` renders as `host=A,region=us` |
| Labels.StringOfTwoLabelsInOrder | pkg/model/label_test.go:11-18 | `host=A` followed by `region=us`, the test's own order, renders as `host=A,region=us` |
| Labels.StringOfRepeatedName | pkg/model/label_test.go:31-38 | `host=X`, `host=A`, `region=us` render as `host=A,host=X,region=us` |
| Metrics.Render | pkg/model/metric.go:14-16 | the rendering is the name, `{`, the canonical labels and `}`, in that order |
| Metrics.XorTwice | pkg/model/metric.go:19-23 | xoring the same byte into the hash state twice gives the state back |
| Metrics.XorBitsTwice | pkg/model/metric.go:19-23 | bitwise exclusive or with b, done twice, is the identity |
| Metrics.MulPrimeInverse | pkg/model/metric.go:19-23 | multiplying by the FNV prime modulo 2^64 is undone by multiplying by its inverse, and the reverse |
| Metrics.FnvStep | pkg/model/metric.go:19-23 | one FNV-1a round (xor the byte, multiply by the prime modulo 2^64) is undone by `FnvUnstep`, so two states never meet after the same byte |
| Metrics.FnvRedo | pkg/model/metric.go:19-23 | undoing a round and redoing it gives the state back: each round is a bijection on 64-bit states |
| Metrics.Fnv1a | pkg/model/metric.go:19-23 | the state after hashing the bytes, unwound byte by byte from the last, gives back the start state |
| Metrics.FnvUndoRedo | pkg/model/metric.go:19-23 | hashing the bytes again from the unwound state gives the state back, so hashing a fixed byte string is a bijection on states |
| Metrics.FnvStatesDiffer | pkg/model/metric.go:19-23 | hashing the same bytes from two different states never ends in the same state |
| Metrics.Fingerprint | pkg/model/metric.go:19-23 | the fingerprint is the state that, unwound over the rendering's bytes, leads back to the FNV-1a 64 offset basis; with `FnvUndoRedo` this fixes it uniquely |
| Metrics.XorBitsOfOffsetAndA | pkg/model/metric.go:19-23 | the low byte of the offset basis, 0x25, xored with the byte of `a`, 0x61, is 0x44 |
| Metrics.XorOfOffsetAndA | pkg/model/metric.go:19-23 | xoring `a` into the offset basis changes only its low byte, giving 0xcbf29ce484222344 |
| Metrics.FnvOfA | pkg/model/metric.go:19-23 | the FNV-1a 64 hash of the one-byte string `a` is 0xaf63dc4c8601ec8c, the published known answer |
| Metrics.FnvConcat | pkg/model/metric.go:19-23 | hashing `a + b` is hashing `a` and continuing from that state with `b`, as successive writes to one hasher do |
| Metrics.FnvSnoc | pkg/model/metric.go:19-23 | each byte is one xor-then-multiply-mod-2^64 round applied to the state after the earlier bytes |
| Metrics.FingerprintPermutationInvariant | pkg/model/metric_test.go:49-63 | metrics with equal names and the same labels in any order render the same and have equal fingerprints |
| Metrics.RenderSeparatesValues | pkg/model/metric_test.go:64-72 | metrics that differ only in the value of the label sorting last render differently |
| Metrics.RenderOfTestMetric | pkg/model/metric_test.go:15-25 | `cpu_total` with `host=A`, `region=us` renders as `cpu_total{host=A,region=us}` |
| Metrics.RenderOfEmptyLabels | pkg/model/metric_test.go:26-33 | `cpu_total` with no labels renders as `cpu_total{}` |
| Metrics.RenderOfNearMissPair | pkg/model/metric_test.go:64-72 | the `region=tw` and `region=en` metrics render differently |
| Samples.Append | pkg/model/sample.go:10-12 | the result is one longer, ends with the new sample and keeps the old samples in order before it; appending to nothing gives one sample |
| Storage.Latest | pkg/storage/memory.go:59-69 | the kept index is in the window and has the greatest in-window timestamp, every earlier in-window sample has a strictly smaller one, and there is none exactly when no sample is in the window |
| Storage.Lookback | pkg/storage/memory.go:59-73 | a lookback answer holds at most one sample; it is empty exactly when nothing is in [t - lookback, t], and otherwise is a stored in-window sample with the greatest in-window timestamp |
| Storage.LookbackWindowInclusive | pkg/storage/memory.go:59-64 | a sample is found exactly when t - 300000 <= timestamp <= t: both window ends are inclusive |
| Storage.LookbackWrapsNearMinimum | pkg/storage/memory.go:59 | when t - lookback underflows int64, the window start wraps above t and the query finds nothing |
| Storage.QueryAfterAppend | pkg/storage/memory_test.go:134-156 | after a sample at T is appended, a query at T returns a sample at T; it is the appended one unless an earlier sample has the same timestamp |
| Storage.Filter | pkg/storage/memory.go:90-96 | the range result contains a sample exactly when the series holds it and start <= timestamp <= end, and is never longer than the series |
| Storage.FilterConcat | pkg/storage/memory.go:91-95 | filtering keeps stored order: it distributes over concatenation |
| Storage.FilterCounts | pkg/storage/memory.go:91-95 | each in-range sample is kept as often as it is stored, and no out-of-range sample is kept |
| Storage.AppendAt | pkg/storage/memory.go:30-36 | an existing series gains the sample at its end and keeps its metric, a new key gets a series of the metric and the single sample, and no other key changes |
| Storage.AppendTo | pkg/storage/memory.go:30-36 | under the metric's fingerprint, the series ends with the new sample after the stored ones, keeps its stored metric or is created with m, and every other series is kept |
| Storage.AppendAllSamples | pkg/storage/memory_test.go:428-466 | k appends for one metric leave exactly those k samples, in order, after the stored ones, and no other series changes |
| Storage.LatestIn | pkg/storage/memory.go:61-69 | the scan loop computes `Latest`: it keeps the first sample whose in-window timestamp exceeds every earlier pick |
| Storage.FilterIn | pkg/storage/memory.go:90-95 | the scan loop computes `Filter`: it appends each in-range sample in stored order |
| Storage.AppendToValid | pkg/storage/memory.go:30-36 | an append keeps every key equal to the fingerprint of its series' metric and every series non-empty |
| Storage.MemoryStorage.constructor | pkg/storage/memory.go:13-17 | a new store is empty and well formed |
| Storage.MemoryStorage.Append | pkg/storage/memory.go:21-38 | a nil metric is reported before a nil sample, and either failure leaves the store unchanged; otherwise the store becomes `AppendTo` of the old one and stays well formed |
| Storage.MemoryStorage.Query | pkg/storage/memory.go:40-45 | a nil metric is `NilMetric`, an unknown fingerprint is `SeriesNotFound`, and otherwise the stored metric with the lookback answer for the five-minute window; the store is not changed |
| Storage.MemoryStorage.QueryWithLookback | pkg/storage/memory.go:51-74 | an unknown fingerprint is `SeriesNotFound`; otherwise the stored metric with at most the one sample `Latest` picks in [t - lookback, t] |
| Storage.MemoryStorage.QueryRange | pkg/storage/memory.go:76-97 | `NilMetric`, then `TimeRange` when start > end (even for an absent series), then `SeriesNotFound`; otherwise the stored metric with exactly its in-range samples in stored order |
| Storage.MemoryStorage.Delete | pkg/storage/memory.go:99-108 | a nil metric is `NilMetric`; otherwise exactly the metric's key is removed and every other series is kept, whether or not the key was present (so a second delete changes nothing); the store stays well formed |
| Config.FirstWithoutTargets | pkg/config/config.go:57-61 | the first static config with no targets, if any: none exactly when all have targets |
| Config.JobError | pkg/config/config.go:43-61 | a job has an error exactly when it fails one of the per-job checks |
| Config.Validate | pkg/config/config.go:38-64 | no error exactly when the configuration passes every check; the global timeout check comes first; otherwise the error is that of the first failing job |
| Config.TimeoutAloneIsRejected | pkg/config/config.go:48-51 | the job timeout check uses the job's own values, so a job that sets a timeout but no interval is rejected |
| Config.WithScheme | pkg/config/config.go:138-140 | the result always starts with `http://` or `https://`, and is the target itself or `http://` plus the target |
| Config.BuildTargetUrl | pkg/config/config.go:137-147 | the URL is joined from `http://` plus the target when the target has neither scheme, and from the target itself otherwise |
| Config.SchemePrefixRule | pkg/config/config.go:138-140 | `http://` is prefixed exactly when the target starts with neither `http://` nor `https://`, and otherwise the target is unchanged |
| Config.WithSchemeIdempotent | pkg/config/config.go:138-140 | adding the scheme twice is adding it once |
| Config.WithSchemeExamples | pkg/config/config_test.go:384-404 | `localhost:9090` gains `http://`; `http://` and `https://` targets are kept |
| Config.ProcessStatics | pkg/config/config.go:104-130 | the processed static configs keep count and order, each merged and built on its own |
| Config.ProcessJob | pkg/config/config.go:84-131 | a processed job keeps its name and its number of static configs |
| Config.ProcessedDurations | pkg/config/config.go:73-80 | interval and timeout are the job's value if set, else the global value if set, else 15s and 10s; never zero |
| Config.ProcessedMetricsPath | pkg/config/config.go:89-93 | the metrics path is the job's own if set, else `/metrics`; never empty |
| Config.ProcessedStaticConfigs | pkg/config/config.go:104-130 | static config j keeps its position; its labels are the merge and its targets are built with the resolved path |
| Config.MergeLabelsOverrides | pkg/config/config.go:107-118 | static-config labels override global external labels key by key, keys of both survive, and no labels on either side give an empty map |
| Config.MergeLabelsIdempotent | pkg/config/config.go:107-118 | merging the global labels in again changes nothing |
| Config.BuildTargetsConcat | pkg/config/config.go:119-124 | built targets keep the target order |
| Config.BuildTargetsSound | pkg/config/config.go:119-124 | there are no more URLs than targets, and each URL is the built URL of some target |
| Config.BuildTargetsAllBuild | pkg/config/config.go:119-124 | when every target builds, the URLs correspond to the targets one for one |
| Config.ProcessJobStable | pkg/config/config.go:84-131 | processing a processed job again keeps its durations, path and labels |
| Config.JobNames | pkg/config/config.go:132 | the set holds exactly the names of the jobs |
| Config.ProcessAll | pkg/config/config.go:72-135 | every processed job is stored under its own name |
| Config.ProcessAllKeys | pkg/config/config.go:132 | the result's keys are exactly the job names |
| Config.ProcessAllLastWins | pkg/config/config.go:132 | under a name is stored the last job with that name, processed |
| Config.CopyLabels | pkg/config/config.go:109-117 | the map-copy loop yields the destination overridden by the source |
| Config.RealTargets | pkg/config/config.go:119-124 | the target loop computes `BuildTargets` |
| Config.ProcessStaticConfigs | pkg/config/config.go:104-131 | the static-config loop computes `ProcessStatics`: one processed config per original, in order |
| Config.ProcessStaticConfig | pkg/config/config.go:106-129 | the static-config loop body yields the processed static config |
| Config.ProcessScrapeConfig | pkg/config/config.go:85-132 | the job loop body yields the processed job from the defaulted global values |
| Config.Process | pkg/config/config.go:72-135 | the loop builds `ProcessAll`: every job processed, keyed by name, the last job of a name winning |

## Left out

- The scrape scheduler, the parser pipeline and the response body record
  (`pkg/scrape`). They are goroutines, tickers, HTTP and channels; the
  decode step there is an empty stub.
- The configuration loader and its error wrappers (`loader.go`,
  `config/errors.go`). They are file I/O, YAML decoding and message
  wrapping. Validation errors carry the values their messages print, not
  the message text.
- The `Storage` interface in `pkg/storage/storage.go`. Its `Query`
  signature does not match `MemoryStorage`, which is modelled directly.
- The store's `sync.RWMutex`. Operations are modelled as atomic and
  sequential, and the concurrent-append test reduces to
  `AppendAllSamples`.
- Floating point. Sample values are opaque 64-bit patterns.
- `url.Parse`, `path.Join` and `URL.String` inside `buildTargetUrl`. They
  are the function parameter `urlJoin`; only the scheme-prefix rule is
  modelled concretely.
- `Labels.Len`: it is the sequence length `|l|` and needs no member.
- Go's nil-versus-empty distinction for maps and slices. It matters only to
  `reflect.DeepEqual` in tests.
- `NewConfig`, the constructor of an empty configuration.
- `GlobalConfig.EvaluationInterval` is carried as a field and validated
  nowhere; nothing in the core reads it, so no member states anything
  about it.
- Fingerprint: the model does not prove that the hash values of the
  near-miss pair differ. Only their renderings are proved distinct; the
  concrete 64-bit hash values are not computed.
- QueryAfterAppend: requires T - 300000 not to underflow int64. Below that
  bound the window wraps, and `LookbackWrapsNearMinimum` shows the query
  then finds nothing.
- Aliasing of a metric's labels: a metric is an immutable value. In Go, `Append`
  stores `*m` (`pkg/storage/memory.go:34`), which copies the struct but
  shares the caller's `Labels` slice, and the queries hand that slice back
  (`memory.go:71`, `73`, `96`). A caller that later changes those labels
  changes the stored metric, and its key no longer matches its
  fingerprint. The model does not capture this aliasing, so `Valid()`
  (key equals fingerprint) holds in the model where Go can break it.
