# Historic events research: a Dafny model of the event-detection core

This project models the core of a system that finds notable "events" in the
yearly usage of words in a large n-gram corpus, and proves properties of the
model. The model has five parts.

- **The word-indexed time-series store.** It has three streams:
  - an index of 32-byte `db_entry` records;
  - a blob of word bytes;
  - a table of 16-byte `time_entry` rows.

  These are modelled as sequences (`StoreTypes`, `StoreCodec`). The writer
  (`DictionaryWriter`) coalesces the records of a word and drops rare words.
  It keeps every index record pointing just past the bytes and rows written
  before it. The two sorters (`SorterC`, `SorterCpp`, sharing `SortStage`)
  re-emit the records in `strcmp` order of their words and recompute only
  the two offsets. The C reader (`DictionaryReader`) supplies the
  overflow-safe bounds check, the comparator and the per-year totals. The
  Python reader (`NgramDatabase`) decodes the same byte layout and builds
  sparse and dense series.
- **The moving averages.** There are three revisions of the running-sum
  smoother: `series.c` (`Series`), the one in `relevance.cpp`
  (`RelevanceSeries`) and the one in `dictionary.py` (`NgramDatabase`). Each
  is proved to keep "running sum = sum of the current window" where the
  source promises it.
- **The detectors.**
  - The Gaussian detector has three parts: the prefix-sum moment tables and
    their algebra (`GaussianModel`, `MomentAlgebra`); the candidate order and
    window scan (`GaussianFinder`); and the greedy disjoint selection
    (`GaussianRelevance`, `RelevanceGaussians`).
  - The numerical-discrepancy detector is the back-pointer decomposition of
    `MaxSequences` followed by the worklist of `Discrepancy`.
  - Kleinberg burst detection is the Viterbi programme of `Viterbi` and
    `Kleinberg`.
  - The double-change counter is `DoubleChange`.
- **The drivers.** These are the word loops and emission filters of
  `relevance.cpp` (`RelevanceLookup`) and `process.cpp` (`Process`).
- **The scripts.**
  - the bounded array and string concatenation of the C utilities
    (`StaticArrays`, `Util`);
  - the summary-to-document grouping of `zeitgeist.py` (`Zeitgeist`);
  - the range compression and topic parsing of `topics.py` (`Topics`);
  - the graph passes of the lexical chainer in `galley.py` (`Galley`);
  - the year handling of the site's `views.py` (`Views`);
  - the Python string and list operations these scripts rely on
    (`PyStrings`).

The modelling follows the source's own form:

- Fields updated in place are classes with `modifies` clauses:
  - the writer;
  - the C reader;
  - the Python `NgramDatabase`;
  - the static array;
  - the lexical chainer.
- Algorithms with loops are methods proved against specification functions.
- Pure code is functions and lemmas.

Some things are parameters, so every property holds for every choice of
them:

- the file and system calls; their outcomes are parameters (the index read,
  each `read_table`, each seek, how many elements each `fwrite` of the
  writer can put out, and how many rows each time-table `fwrite` of the
  sorters can put out);
- `log`, `sqrt` and the Gaussian density;
- Python's `int()` and `float()` on a token;
- WordNet's `synsets`.

Doubles are reals. C's fixed-width integers are written out where they
matter:

- the `uint32_t` offsets wrap modulo 2^32;
- the `uint64_t` totals wrap modulo 2^64;
- the year is stored modulo 2^16.

Where the headers and the implementation disagree, the model follows the
implementation:

- `MAX_YEARS` is 509 in `dictionary_reader.h:7` and 520 in
  `dictionary_writer.h:9`, so the reader works with 509 years and the
  writer with 520.
- `numerical_discrepancy.h:7-8` declares the interval score as an `int`,
  but the implementation computes and passes a `double`.
- `fit_gaussians` at `process.cpp:101-106` compares the first component of
  each (index, count) pair with 1750. That component is a series index
  below 509, so the function, as written, never writes a line
  (`Process.NoGaussianLines`).

## Model

| member | source | states |
|---|---|---|
| Bytes.StrLen | c-events/src/c/util.c:11-12 | `strlen` of a buffer is the index of its first NUL (or the whole buffer): everything before it is a C string |
| Bytes.StrLenOfCString | c-events/src/c/sorter.c:56 | a word without NUL has `strlen` equal to its length |
| Bytes.StrCmp | c-events/src/c/dictionary_reader.c:91 | the sign of `strcmp` is always -1, 0 or 1 |
| Bytes.StrCmpZeroIffEqual | c-events/src/c/dictionary_writer.c:67 | `strcmp` is zero exactly when the two words are equal (both directions) |
| Bytes.StrCmpAntisymmetric | c-events/src/c/dictionary_reader.c:91 | swapping the arguments of `strcmp` negates its sign |
| Bytes.StrCmpTransitive | c-events/src/cpp/relevance.cpp:366 | the order `strcmp` induces is transitive, so sorting and searching by it are well defined |
| StaticArrays.StaticArray.Contents | c-events/include/static_array.h:17-20 | the entries in use are the first `size` slots, never more than 513 |
| StaticArrays.StaticArray.constructor | c-events/include/static_array.h:4 | a fresh buffer of exactly `STATIC_ARRAY_SIZE` = 513 entries |
| StaticArrays.StaticArray.Init | c-events/src/c/static_array.c:3-6 | `sa_init` empties the array |
| StaticArrays.StaticArray.Append | c-events/src/c/static_array.c:8-18 | below capacity the entry goes into slot `size` and the contents grow by exactly that entry; at capacity nothing changes |
| StaticArrays.AppendAll | c-events/src/c/static_array.c:8-18 | appending a sequence keeps every entry that fits and drops exactly those beyond capacity 513 |
| StaticArrays.AppendEach | c-events/src/c/static_array.c:8-18 | repeated `sa_append` calls leave the contents equal to `AppendAll` of the entries |
| Util.Concatenation | c-events/src/c/util.c:6-21 | the buffer holds `left`, then `right`, then a NUL, so its `strlen` is the sum of the lengths and its string is `left + right` |
| Util.StrLenOfTerminated | c-events/src/c/util.c:17 | a C string followed by its terminator has `strlen` equal to its length |
| Util.Concatenate | c-events/src/c/util.c:6-21 | `concatenate` returns NULL when `malloc` fails and otherwise a fresh buffer with exactly the `Concatenation` contents |
| StoreTypes.OffsetsFollowAppend | c-events/src/c/dictionary_writer.c:69-72 | appending a record whose offsets point just past the data already written keeps every record's offsets equal to the wrapped prefix sums of the lengths before it |
| StoreTypes.FlattenLength | c-events/src/c/sorter.c:56-70 | the concatenated word stream is exactly as long as the sum of the word lengths |
| StoreTypes.RunningStep | c-events/src/c/dictionary_writer.c:70-71 | advancing the `uint32_t` offsets by a word and a table (with 32-bit wrap) keeps them equal to the wrapped byte positions of the two streams |
| StoreCodec.LittleEndian | script-events/dictionary.py:54 | n little-endian bytes decode to a value below 256^n |
| StoreCodec.ToLittleEndian | script-events/dictionary.py:54 | encoding a value below 256^n gives n bytes that decode back to it |
| StoreCodec.LittleEndianBytes | script-events/dictionary.py:54 | encoding the value of some bytes gives exactly those bytes (the other round trip) |
| StoreCodec.DecodeDbEntry | script-events/dictionary.py:51-55 | `struct.unpack('IIHHQQ')` of 32 bytes yields fields within the C field widths |
| StoreCodec.EncodeDbEntry | c-events/src/c/dictionary_writer.c:35 | `fwrite` of a `db_entry` puts out exactly 32 bytes |
| StoreCodec.DbEntryRoundTrip | c-events/include/dictionary_types.h:12-19 | every index record the C writer puts out is read back unchanged by the Python reader |
| StoreCodec.DbEntryBytes | script-events/dictionary.py:54 | decoding reads every byte of a record but the 4 padding bytes |
| StoreCodec.DecodeTimeEntry | script-events/dictionary.py:71-73 | `struct.unpack('QIHH')` of 16 bytes yields fields within the C field widths |
| StoreCodec.EncodeTimeEntry | c-events/src/c/dictionary_writer.c:51 | `fwrite` of a `time_entry` puts out exactly 16 bytes |
| StoreCodec.TimeEntryRoundTrip | c-events/include/dictionary_types.h:21-25 | every time row the C writer puts out is read back unchanged (match count, volume count, year) |
| StoreCodec.TimeEntryBytes | script-events/dictionary.py:72 | decoding a row reads every byte but the 2 tail padding bytes |
| Windows.SumRangeNonNegative | c-events/src/c/series.c:24-41 | a window of non-negative values has a non-negative sum |
| Windows.SumRangeDropFirst | c-events/src/c/series.c:29-31 | subtracting the leaving value of a window gives the sum of the shorter window |
| Windows.MaxFromZero | c-events/src/c/series.c:15-22 | the `max_value` scan from 0 returns a bound on every value that is 0 or one of the values |
| DictionaryWriter.Row | c-events/src/c/dictionary_writer.c:82-85 | the stored row keeps the counts and the year modulo 2^16 (the `int` to `uint16_t` conversion) |
| DictionaryWriter.WrittenAppend | c-events/src/c/dictionary_writer.c:35-57 | writing a record placed just past the streams, then its word and its rows, keeps every stream described by its records |
| DictionaryWriter.WrittenOffsets | c-events/src/c/dictionary_writer.c:35-72 | in written streams the word stream is as long as all word lengths, the time stream as all table lengths, and each record's offsets are the wrapped prefix sums before it |
| DictionaryWriter.InitState | c-events/src/c/dictionary_writer.c:8-16 | the zeroed writer has empty streams and satisfies the writer invariant |
| DictionaryWriter.FlushWritesIffFrequent | c-events/src/c/dictionary_writer.c:27-31 | a flush writes exactly when the total match count reaches 2^14, then returns the word's length; otherwise it returns 0 and changes nothing |
| DictionaryWriter.FlushWritesRecord | c-events/src/c/dictionary_writer.c:31-59 | a written record carries the word's length and the table's size and is followed by exactly that word and those rows |
| DictionaryWriter.FlushKeepsValid | c-events/src/c/dictionary_writer.c:23-60 | a flush keeps the streams described by their records |
| DictionaryWriter.UpdateKeepsInvariant | c-events/src/c/dictionary_writer.c:62-86 | every update keeps the writer well formed, its buffered offsets just past everything written and its word count equal to the number of records |
| DictionaryWriter.UpdateNewWord | c-events/src/c/dictionary_writer.c:67-77 | a word change flushes the buffered word; when that wrote a record the offsets advance by the word length and 16 bytes per row and the count by one, otherwise nothing is written; the totals and the table restart from the incoming record |
| DictionaryWriter.UpdateSameWord | c-events/src/c/dictionary_writer.c:78-85 | another record of the same word adds its counts modulo 2^64, appends its row and writes nothing |
| DictionaryWriter.FirstUpdateWritesNothing | c-events/src/c/dictionary_writer.c:12 | the first update after initialisation writes nothing, as the empty buffered word has total 0 |
| DictionaryWriter.Writer.constructor | c-events/src/c/dictionary_writer.c:8-16 | `init_dictionary` leaves the zeroed state |
| DictionaryWriter.FlushOutcomeMeaning | c-events/src/c/dictionary_writer.c:27-59 | a flush exits exactly when the word is frequent and one of its three writes cannot take everything; otherwise it ends in `FlushState`; an exit keeps the buffer and leaves each stream a prefix of the complete flush's, holding less in total |
| DictionaryWriter.Writer.Flush | c-events/src/c/dictionary_writer.c:23-60 | `flush_dictionary` ends as `FlushOutcome` says for the given write capacities; when it does not exit, the writer is in `FlushState`, keeps its invariant and returns `FlushedLength` |
| DictionaryWriter.Writer.StartWord | c-events/src/c/dictionary_writer.c:67-77 | the word-change branch exits exactly when its flush does, in the flush's exit state; otherwise it moves the writer to `BeginRecord` and keeps the invariant |
| DictionaryWriter.Writer.BeginUpdate | c-events/src/c/dictionary_writer.c:67-81 | the branch on `strcmp` exits only on a word change whose flush exits; otherwise it moves the writer to `BeginRecord` for both the new-word and the same-word case |
| DictionaryWriter.Writer.Update | c-events/src/c/dictionary_writer.c:62-86 | `update_dictionary` exits exactly when a word change's flush exits, leaving the flush's exit state and the table untouched; otherwise it moves the writer to `UpdateState`, keeps the invariant, and changes only the table slot it fills |
| DictionaryWriter.BeginKeepsInvariant | c-events/src/c/dictionary_writer.c:62-76 | the flush on a word change and the start of the new word keep the writer well formed, with the offsets just past everything written |
| Sorting.Insert | c-events/src/c/sorter.c:45 | inserting adds exactly one element: the result is a permutation of the input plus it |
| Sorting.Sort | c-events/src/c/sorter.c:45 | the library sort returns a permutation of its input (same multiset, same length) |
| Sorting.InsertLocallySorted | c-events/src/cpp/gaussian_finder.cpp:47 | for an asymmetric comparator, inserting into a locally sorted sequence keeps it locally sorted |
| Sorting.SortLocallySorted | c-events/src/cpp/gaussian_finder.cpp:47 | for any asymmetric comparator the sorted output has no adjacent inversion |
| Sorting.LocallySortedIsSorted | c-events/src/cpp/sorter.cpp:62 | when "not less" is transitive (as for `strcmp`) no adjacent inversion means no inversion at all |
| Sorting.InsertNoDuplicates | c-events/src/c/sorter.c:45 | inserting a new element into distinct elements keeps them distinct |
| Sorting.SortNoDuplicates | c-events/src/c/sorter.c:45 | sorting distinct elements yields distinct elements |
| Series.Significant | c-events/src/c/series.c:5-11 | `get_significant_value` keeps a value that reaches a 150th of the maximum and replaces any other by 0 |
| Series.SignificantValues | c-events/src/c/series.c:26 | the series of significant values, position by position |
| Series.WindowCount | c-events/src/c/series.c:24-33 | `window_size` stays in [0, 2w + 1] and is full exactly when 2w < i <= size |
| Series.RunningSumIsWindowSum | c-events/src/c/series.c:24-35 | for a series without negative values the running sum is the sum of the significant values in the current window (the reset never acts) |
| Series.StepIsWindowSum | c-events/src/c/series.c:25-35 | one loop step moves the window sum of significant values along by one |
| Series.SmoothedIsWindowMean | c-events/src/c/series.c:36-39 | for a series without negative values each output is the mean of the significant values of the 2w + 1 values centred on it |
| Series.MaxValue | c-events/src/c/series.c:15-22 | the first loop returns the largest value or 0, whichever is larger |
| Series.OutAfterWritten | c-events/src/c/series.c:33-40 | after i steps exactly the positions whose window lies inside the series and ends before step i have been written, each with its output |
| Series.SmoothStep | c-events/src/c/series.c:25-40 | one step updates the sum and count as `StepSum`/`WindowCount` say and writes the centre slot only when the window is full |
| Series.SmoothifySeries | c-events/src/c/series.c:13-42 | `smoothify_series` writes exactly the positions whose window lies inside the series, with the smoothed value, and leaves every other slot of `out` unchanged |
| MomentAlgebra.CentralSecond | c-events/src/c/gaussian_model.c:59 | the second moment about a centre c equals E2 - 2c·E1 + c²·E0 over the moments about 0, for any weights and window |
| MomentAlgebra.CentralFourth | c-events/src/c/gaussian_model.c:60-64 | the fourth moment about c equals E4 - 4c·E3 + 6c²·E2 - 4c³·E1 + c⁴·E0, the expansion `compute_kurtosis` uses |
| MomentAlgebra.WeightedSquaresNonNegative | c-events/src/c/gaussian_model.c:59 | a second moment of non-negative weights about any centre is not negative |
| GaussianModel.Powers | c-events/src/c/gaussian_model.c:23-29 | the column values of `partial_sums`: position k raised to e |
| GaussianModel.Moments | c-events/src/c/gaussian_model.c:40-46 | the column values of a moments table: series[k] times k^e |
| GaussianModel.FillRow | c-events/src/c/gaussian_model.c:24-28 | one outer step sets row i + 1 to row i plus weight·i^(j+1) in column j and changes no other row |
| GaussianModel.ClearFirstRow | c-events/src/c/gaussian_model.c:20-21 | row 0 of a table becomes all zeros |
| GaussianModel.FillTable | c-events/src/c/gaussian_model.c:20-29 | the initialiser loop leaves row m, column j equal to the sum of the column's first m values |
| GaussianModel.InitPartialSums | c-events/src/c/gaussian_model.c:15-30 | `init_partial_sums` leaves row m, column j equal to the sum of k^(j+1) over k < m |
| GaussianModel.InitPartialMoments | c-events/src/c/gaussian_model.c:32-47 | `init_partial_moments` leaves row m, column j equal to the sum of series[k]·k^(j+1) over k < m |
| GaussianModel.QueryMomentIsWindowSum | c-events/src/c/gaussian_model.c:92-96 | `query_moment` of a prefix table is the sum of its column over [left, right] |
| GaussianModel.QueryMoments | c-events/src/c/gaussian_model.c:104 | a query of the moments table is the window sum of series[k]·k^(order+1) |
| GaussianModel.QueryPowers | c-events/src/c/gaussian_model.c:105 | a query of `partial_sums` is the window sum of k^(order+1) |
| GaussianModel.ShiftedMomentSum | c-events/src/c/gaussian_model.c:107 | a window moment of the values above `min_value` is the moments-table sum minus `min_value` times the powers-table sum |
| GaussianModel.FullMomentSums | c-events/src/c/gaussian_model.c:98-108 | over filled tables `query_full_moment` is the window moment of the series |
| GaussianModel.FullMomentIsShifted | c-events/src/c/gaussian_model.c:98-108 | the full moment of order o is the (o+1)-th moment about 0 of the year positions weighted by series[k] - `min_value`, over `min_sum` |
| GaussianModel.ZeroOrderTerms | c-events/src/cpp/gaussian_finder.cpp:31 | the zeroth-moment weight of a position is its value minus `min_value` |
| GaussianModel.ShiftedTotal | c-events/src/cpp/gaussian_finder.cpp:31 | the values above x sum to the window's total minus its length times x |
| GaussianModel.TotalWeight | c-events/src/cpp/gaussian_finder.cpp:31 | `min_sum` as `select_gaussians` computes it is the total weight of the window, so the normalised weights sum to 1 |
| GaussianModel.ShapeOf | c-events/src/c/gaussian_model.c:58-69 | the kurtosis has a value exactly when the variance is not 0 (the C division would give inf or NaN otherwise) |
| GaussianModel.KurtosisIsWindowShape | c-events/src/c/gaussian_model.c:49-70 | over filled tables `compute_kurtosis` depends only on the window of the series |
| GaussianModel.VarianceFormula | c-events/src/c/gaussian_model.c:59 | the expanded second central moment over the weight is the `sigma_2` of `compute_kurtosis` |
| GaussianModel.FourthMomentFormula | c-events/src/c/gaussian_model.c:60-64 | the expanded fourth central moment over the weight is the `m_4` of `compute_kurtosis` |
| GaussianModel.NormalisedVariance | c-events/src/c/gaussian_model.c:59 | the variance formula holds for raw moments divided by the total weight |
| GaussianModel.NormalisedFourthMoment | c-events/src/c/gaussian_model.c:60-64 | the m_4 formula holds for raw moments divided by the total weight |
| GaussianModel.ShapeVariance | c-events/src/c/gaussian_model.c:59 | for normalised raw moments of any weights, `sigma_2` is the weighted second moment about the weighted mean |
| GaussianModel.ShapeFourthMoment | c-events/src/c/gaussian_model.c:60-64 | for normalised raw moments of any weights, `m_4` is the weighted fourth moment about the weighted mean |
| GaussianModel.WindowShapeIsNormalised | c-events/src/c/gaussian_model.c:58-64 | each window moment is the raw moment of the shifted values over their total, which is `min_sum` |
| GaussianModel.WindowShapeMoments | c-events/src/c/gaussian_model.c:58-64 | the mean, variance and m_4 of a window are the weighted mean of its years and their weighted second and fourth central moments, weight series[k] - `min_value` out of `min_sum` |
| GaussianModel.KurtosisMoments | c-events/src/c/gaussian_model.c:49-70 | over filled tables `compute_kurtosis` yields the weighted mean, variance and fourth central moment of the window |
| GaussianModel.WindowVarianceNonNegative | c-events/src/c/gaussian_model.c:59 | when `min_value` is at most every value of the window the variance is not negative |
| GaussianModel.VarianceNonNegative | c-events/src/c/gaussian_model.c:67 | the variance `compute_kurtosis` takes the square root of is not negative when `min_value` is the window's minimum |
| GaussianModel.MassNonNegative | c-events/src/cpp/gaussian_finder.cpp:31 | `min_sum` is not negative when `min_value` is at most every value of the window |
| GaussianModel.Gaps | c-events/src/c/gaussian_model.c:83-85 | position k contributes its normalised value minus the density at k - mean |
| GaussianModel.AbsPrefixSumsNonNegative | c-events/src/c/gaussian_model.c:86 | a sum of absolute values is not negative |
| GaussianModel.ComputeEmd | c-events/src/c/gaussian_model.c:72-90 | `compute_emd` is the sum over the window of the absolute running differences between the window's normalised values and the density, and is never negative |
| GaussianFinder.DistanceDecides | c-events/include/gaussian_finder.h:21-22 | when two distances are at least EPSILON apart the smaller one comes first |
| GaussianFinder.IncreaseDecides | c-events/include/gaussian_finder.h:23-24 | otherwise, with increases at least EPSILON apart, the larger increase comes first |
| GaussianFinder.WindowDecides | c-events/include/gaussian_finder.h:25-32 | otherwise the left end and then the right end decide exactly |
| GaussianFinder.LessIrreflexive | c-events/include/gaussian_finder.h:19-34 | no entry is less than itself |
| GaussianFinder.LessAsymmetric | c-events/include/gaussian_finder.h:19-34 | `operator<` never holds in both directions |
| GaussianFinder.LessIncomparable | c-events/include/gaussian_finder.h:19-34 | two entries neither of which is less than the other have the same window and keys that agree within EPSILON |
| GaussianFinder.RunningMinBounds | c-events/src/cpp/gaussian_finder.cpp:23-28 | the running `min_value` is at most every value seen and is one of them unless still DBL_MAX |
| GaussianFinder.WindowCandidatesLabelled | c-events/src/cpp/gaussian_finder.cpp:41 | every pushed entry carries the window it was found in |
| GaussianFinder.RowCandidatesWindows | c-events/src/cpp/gaussian_finder.cpp:25-30 | each entry of one left end comes from a window of at least five years starting there |
| GaussianFinder.CandidatesWindows | c-events/src/cpp/gaussian_finder.cpp:22-30 | every candidate window has inf <= left, right < sup and 4 <= right - left <= 50, and its entry is what that window gives |
| GaussianFinder.CandidateEntry | c-events/src/cpp/gaussian_finder.cpp:31-41 | the entry of a window that passes both tests holds the window, mean, sigma, distance and increase the body computes |
| GaussianFinder.CandidateProperties | c-events/src/cpp/gaussian_finder.cpp:31-41 | a candidate has positive `min_sum`, passes |kurtosis| < .05, its distance is `compute_emd` of the window in [0, .3), and mean and sigma are the weighted mean and root of the weighted variance of its years |
| GaussianFinder.CandidateIncreasePositive | c-events/src/cpp/gaussian_finder.cpp:37-38 | for a non-negative series a candidate's increase is positive, or +inf when the window's minimum is 0 |
| GaussianFinder.IncreasePositive | c-events/src/cpp/gaussian_finder.cpp:38 | `min_sum * max_probability / min_value` is positive, or +inf exactly when `min_value` is 0 |
| GaussianFinder.TryWindow | c-events/src/cpp/gaussian_finder.cpp:30-43 | the inner-loop body pushes exactly the `Candidate` of the window |
| GaussianFinder.ScanRow | c-events/src/cpp/gaussian_finder.cpp:23-45 | the inner loop pushes the candidates of the windows starting at `left`, in order of the right end |
| GaussianFinder.ScanWindows | c-events/src/cpp/gaussian_finder.cpp:22-46 | the two loops push all candidates, row by row |
| GaussianFinder.SortedCandidates | c-events/src/cpp/gaussian_finder.cpp:19-47 | the result is the candidates sorted by `operator<`: a permutation of them with no adjacent inversion |
| GaussianFinder.SelectGaussians | c-events/src/cpp/gaussian_finder.cpp:11-48 | `select_gaussians` returns a permutation of the candidates of windows right <= left + 50, locally sorted by the entry order |
| GaussianRelevance.TruncTowardZero | c-events/src/cpp/gaussian_finder.cpp:68 | the `(int)` conversion drops the fractional part, moving toward zero |
| GaussianRelevance.CappedIncrease | c-events/src/cpp/gaussian_finder.cpp:67 | `min(increase, 1.0)` is at most 1, is 1 for +inf or any increase above 1, and keeps an increase of at most 1 |
| GaussianRelevance.BaseCountBounds | c-events/src/cpp/gaussian_finder.cpp:67-68 | the base count is at most 10, exactly 10 for an increase of 1 or more, and not negative for a non-negative increase |
| GaussianRelevance.PushedCounts | c-events/src/cpp/gaussian_finder.cpp:81-82 | every pushed pair has a year of the range and that year's positive count |
| GaussianRelevance.PushedIncreasing | c-events/src/cpp/gaussian_finder.cpp:72-83 | the years pushed for one candidate are strictly increasing |
| GaussianRelevance.PushedComplete | c-events/src/cpp/gaussian_finder.cpp:72-83 | every year of the range with a positive count is pushed |
| GaussianRelevance.MarkNext | c-events/src/cpp/gaussian_finder.cpp:73 | marking one more year extends the marked range by exactly that year |
| GaussianRelevance.UsedIsCovered | c-events/src/cpp/gaussian_finder.cpp:53-73 | a year is marked used exactly when an accepted candidate covers it (both directions) |
| GaussianRelevance.AcceptedIffDisjoint | c-events/src/cpp/gaussian_finder.cpp:59-65 | the greedy rule: a candidate is accepted exactly when no year of its range is covered by an earlier accepted candidate |
| GaussianRelevance.AcceptedDisjoint | c-events/src/cpp/gaussian_finder.cpp:59-73 | the ranges of accepted candidates never overlap |
| GaussianRelevance.StepKeepsCountsUsed | c-events/src/cpp/gaussian_finder.cpp:72-83 | after each candidate every pushed pair is for a used year |
| GaussianRelevance.DistinctAppend | c-events/src/cpp/gaussian_finder.cpp:82 | appending increasing pairs for unused years to pairs for used years keeps the years distinct |
| GaussianRelevance.CountsMeaning | c-events/src/cpp/gaussian_finder.cpp:50-86 | every pushed count is positive and belongs to a used year, no year is pushed twice, and each count is what the accepted candidate covering that year gives it |
| GaussianRelevance.UnwidenedCounts | c-events/src/cpp/gaussian_finder.cpp:78-79 | without widening (`DBL_MAX`) every pushed count is the candidate's base count, between 1 and 10 |
| GaussianRelevance.ScanFree | c-events/src/cpp/gaussian_finder.cpp:59-64 | the validity scan returns true exactly when no year of [left, right] is used |
| GaussianRelevance.CountYear | c-events/src/cpp/gaussian_finder.cpp:74-80 | the count computed for one year is `YearCountOf` that year |
| GaussianRelevance.MarkYears | c-events/src/cpp/gaussian_finder.cpp:72-83 | the marking loop sets exactly the candidate's years to used and pushes the positive counts of those years in order |
| GaussianRelevance.RelevantGaussians | c-events/src/cpp/gaussian_finder.cpp:50-86 | `relevant_gaussians` returns exactly the pairs of the greedy selection `Relevant` over all candidates |
| GaussianRelevance.StepKeepsUsedMeansCovered | c-events/src/cpp/gaussian_finder.cpp:59-73 | each candidate keeps the used years equal to the years the accepted candidates cover |
| GaussianRelevance.StepKeepsDisjoint | c-events/src/cpp/gaussian_finder.cpp:59-73 | each candidate keeps the accepted ranges pairwise disjoint |
| RelevanceSeries.VariantSum | c-events/src/cpp/relevance.cpp:315-327 | once step w has run the running sum of this revision is never negative, whatever the input |
| RelevanceSeries.VariantSumIsWindowSum | c-events/src/cpp/relevance.cpp:315-327 | for a series without negative values the running sum is exactly the sum of the current window |
| RelevanceSeries.VariantStepIsWindowSum | c-events/src/cpp/relevance.cpp:316-327 | one step moves the window sum along by one position |
| RelevanceSeries.VariantOutIsMean | c-events/src/cpp/relevance.cpp:328-330 | for a series without negative values each output is the mean of the 5 values centred on it |
| RelevanceSeries.VariantAfterWritten | c-events/src/cpp/relevance.cpp:324-331 | after j steps exactly the positions whose window lies inside the series and ends before step j have been written |
| RelevanceSeries.VariantStepOf | c-events/src/cpp/relevance.cpp:316-331 | one step updates the sum and count and writes the centre slot only when the window is full |
| RelevanceSeries.SmoothifyVariant | c-events/src/cpp/relevance.cpp:309-333 | `smoothify_series` writes exactly the positions in [2, 506] with their smoothed value and leaves every other slot unchanged |
| RelevanceSeries.AverageMatchCount | c-events/src/cpp/relevance.cpp:47-53 | `average_match_count` is the sum of the match counts over [start, end) divided by `end - start` |
| RelevanceSeries.AverageBounds | c-events/src/cpp/relevance.cpp:47-53 | the average lies between any lower and upper bound of the values it averages |
| RelevanceSeries.SumRangeBounds | c-events/src/cpp/relevance.cpp:50-51 | a window sum lies between its length times any lower bound and its length times any upper bound |
| RelevanceGaussians.CappedCountBounds | c-events/src/cpp/relevance.cpp:281-286 | the cap `if (count > 10)` never changes the count, which is at most 10, and not negative for a non-negative increase |
| RelevanceGaussians.YearValueAtPeak | c-events/src/cpp/relevance.cpp:288-291 | at the window's mean the painted value is the capped count, as the density there is the peak density |
| RelevanceGaussians.Paint | c-events/src/cpp/relevance.cpp:289-292 | painting a window writes `YearValue` in its years and keeps every other count |
| RelevanceGaussians.PaintNext | c-events/src/cpp/relevance.cpp:291 | painting one more year updates exactly that year |
| RelevanceGaussians.FitStepKeepsUsedIsAccepted | c-events/src/cpp/relevance.cpp:270-295 | each candidate keeps the used years equal to the years the accepted windows cover |
| RelevanceGaussians.FitStepKeepsDisjoint | c-events/src/cpp/relevance.cpp:273-279 | each candidate keeps the accepted windows pairwise disjoint |
| RelevanceGaussians.FitStepKeepsCountsPainted | c-events/src/cpp/relevance.cpp:289-292 | each candidate keeps every year holding the value of the accepted window covering it, or the caller's count |
| RelevanceGaussians.FittedInvariants | c-events/src/cpp/relevance.cpp:270-295 | after every prefix of candidates: used years are covered years, accepted windows are disjoint, and counts are painted by the accepted windows over the caller's |
| RelevanceGaussians.FittedAcceptsFree | c-events/src/cpp/relevance.cpp:273-279 | the greedy rule: a candidate is accepted exactly when none of its years is covered by an earlier accepted window |
| RelevanceGaussians.PaintYears | c-events/src/cpp/relevance.cpp:289-292 | the marking loop marks exactly the window's years as used and paints exactly those counts |
| RelevanceGaussians.SelectWindows | c-events/src/cpp/relevance.cpp:270-295 | the selection loop leaves the counts of the greedy selection `Fitted` over all sorted candidates |
| RelevanceGaussians.CandidatesInRange | c-events/src/cpp/relevance.cpp:243-246 | every window the scan finds ends below `sup`, inside the bitset |
| RelevanceGaussians.FitGaussians | c-events/src/cpp/relevance.cpp:234-296 | `fit_gaussians` scans windows with right < left + 50, sorts them and leaves the counts of the greedy selection |
| RelevanceGaussians.GaussianModelRow | c-events/src/cpp/relevance.cpp:298-307 | the emitted row is zeros painted by `fit_gaussians(series, 2, MAX_YEARS - 2)` |
| RelevanceGaussians.GaussianModelRowMeaning | c-events/src/cpp/relevance.cpp:298-307 | in the emitted row the accepted windows are pairwise disjoint and each year holds the value of the accepted window covering it, or 0 |
| RelevanceLookup.BSearch | c-events/src/cpp/relevance.cpp:430-431 | a found index lies in the range and holds the key |
| RelevanceLookup.BSearchMissing | c-events/src/cpp/relevance.cpp:362-367 | on words sorted by `strcmp` the search misses only keys absent from the range |
| RelevanceLookup.BSearchFinds | c-events/src/cpp/relevance.cpp:430-434 | on sorted words `bsearch` finds a key exactly when the key is present (both directions) |
| RelevanceLookup.BinarySearch | c-events/src/cpp/relevance.cpp:430-431 | the `bsearch` loop returns `BSearch` of the whole array |
| RelevanceLookup.RunHandlesQueries | c-events/src/cpp/relevance.cpp:429-439 | every index `handle_entry` runs on holds one of the query words |
| RelevanceLookup.RunStopsAtError | c-events/src/cpp/relevance.cpp:435-437 | a failing run stops at the handled index that gave its code, every earlier one having succeeded; a successful run had no failure |
| RelevanceLookup.RunComplete | c-events/src/cpp/relevance.cpp:429-439 | a run without failure on sorted words handles every query word the reader holds |
| RelevanceLookup.RelevanceMain | c-events/src/cpp/relevance.cpp:418-445 | `main` handles nothing and returns the code when `init_dictreader` fails, and otherwise ends as `Run` says |
| DoubleChange.ChangeCountMeaning | c-events/src/cpp/relevance.cpp:85-97 | the count is the unique value that is at most 9, passes every level below it and fails the next one |
| DoubleChange.FlatIsZero | c-events/src/cpp/relevance.cpp:87-92 | a flat positive neighbourhood (a = b = c) counts 0 |
| DoubleChange.CountChanges | c-events/src/cpp/relevance.cpp:85-97 | the count loop returns the count `IsChangeCount` describes |
| DoubleChange.CountAtBounds | c-events/src/cpp/relevance.cpp:79-100 | every count lies in [0, 9] and only inner positions passing the guard a >= 0, b >= 1e-4, c >= 0 can be non-zero |
| DoubleChange.DoubleChangeRow | c-events/src/cpp/relevance.cpp:75-103 | `double_change_series_to_csv` emits a row of MAX_YEARS counts, position j holding `CountAt(series, j)` |
| DoubleChange.LinesUpToFields | c-events/src/cpp/process.cpp:29-56 | every summary line is for the word, an inner position, and carries its positive count in [1, 9] |
| DoubleChange.LinesUpToComplete | c-events/src/cpp/process.cpp:52-53 | every position with a positive count gets a line |
| DoubleChange.LinesUpToOrdered | c-events/src/cpp/process.cpp:29-56 | the lines come in strictly increasing year order |
| DoubleChange.DoubleChangeLines | c-events/src/cpp/process.cpp:29-56 | `process_series_double_change` writes exactly the lines of `LinesUpTo` for positions [2, MAX_YEARS - 3] |
| DoubleChange.CountFromMeaning | c-events/src/cpp/relevance.cpp:85-97 | the loop continued from a level whose predecessors all passed stops at the first failing level, at most 9 |
| Process.RangeLinesMeaning | c-events/src/cpp/process.cpp:69-75 | a range with score at least 1 starting in 1750 or later gives one line per year of [left, right], in order, each with the truncated score; a range failing either gate gives none |
| Process.LinearLinesFrom | c-events/src/cpp/process.cpp:67-76 | every line written comes from a range that passed both gates, carries a year of that range and its truncated score, at least 1 |
| Process.LinearLinesComplete | c-events/src/cpp/process.cpp:67-76 | every year of every range passing both gates is written |
| Process.RangeLinesHas | c-events/src/cpp/process.cpp:72-74 | each year of a passing range has its line |
| Process.WriteRange | c-events/src/cpp/process.cpp:72-74 | the inner loop writes exactly `RangeLines` of the range |
| Process.ProcessSeries | c-events/src/cpp/process.cpp:58-77 | `process_series` writes exactly the lines of the ranges held in the static array, in order |
| Process.GaussianLines | c-events/src/cpp/process.cpp:101-106 | the lines written are exactly the pairs whose first component is at least 1750 (both directions) |
| Process.NoGaussianLines | c-events/src/cpp/process.cpp:104 | the first component of every pair is a series index below 509, so the test `year >= 1750` never passes and no line is written |
| Process.GaussianLinesEarly | c-events/src/cpp/process.cpp:104 | pairs that all lie below 1750 give no line |
| Process.FitGaussians | c-events/src/cpp/process.cpp:92-107 | `fit_gaussians` as `main` calls it (inf 2, sup 507, widening 2) writes nothing to the summary |
| Process.RunProcessesUnskipped | c-events/src/cpp/process.cpp:154-171 | the words read are in increasing index order and each passes both filters (no '_', total match count at least 2^20) |
| Process.RunMeaning | c-events/src/cpp/process.cpp:154-171 | a run without error has read every word passing both filters, each read succeeding; a failing run ends at the index whose read failed, with its code |
| Process.ProcessMain | c-events/src/cpp/process.cpp:146-189 | `main` reads nothing and returns the code when `init_dictreader` fails, and otherwise ends as `Run` says |
| DictionaryReader.IsInWordBoundsIff | c-events/src/c/dictionary_reader.c:79-84 | the check accepts exactly the words that start inside the blob and end within it; the subtraction never wraps and a zero-length word at the very end is rejected |
| DictionaryReader.NumWords | c-events/src/c/dictionary_reader.c:49 | `num_words` is the number of whole 32-byte records the main file holds |
| DictionaryReader.IwCompare | c-events/src/c/dictionary_reader.c:86-92 | `iw_compare` is -1, 0 or 1 and is 0 exactly when the two words are equal |
| DictionaryReader.IwCompareAntisymmetric | c-events/src/c/dictionary_reader.c:86-92 | swapping the arguments negates the comparison |
| DictionaryReader.StoredTotals | c-events/src/c/dictionary_reader.c:130-132 | the stored row keeps the match count and reduces the `int` page and volume counts modulo 2^32 (the `uint32_t` cast) |
| DictionaryReader.StoreAll | c-events/src/c/dictionary_reader.c:119-133 | storing chunks keeps the table at MAX_YEARS rows |
| DictionaryReader.LastFor | c-events/src/c/dictionary_reader.c:129-132 | the chunk found for a year is one of the chunks and has that year; none is found exactly when no chunk has the year |
| DictionaryReader.StoreAllLastWins | c-events/src/c/dictionary_reader.c:118-133 | every slot of the loaded table holds the last chunk given for its year, and a year no chunk mentions keeps its previous value |
| DictionaryReader.LastForCons | c-events/src/c/dictionary_reader.c:119-133 | a later chunk for a year overrides an earlier one |
| DictionaryReader.Reader.constructor | c-events/include/dictionary_reader.h:13-20 | a reader with a totals table of MAX_YEARS rows, no files open and no blob |
| DictionaryReader.Reader.LoadFrequencies | c-events/src/c/dictionary_reader.c:94-139 | `load_frequencies` returns 1 and changes nothing when the file cannot be opened or has no line; otherwise it returns 0 and the table is `StoreAll` of the chunks |
| DictionaryReader.Reader.Init | c-events/src/c/dictionary_reader.c:12-71 | `init_dictreader` returns the open error, or 1 after any failing step with files closed and the blob freed, or 0 with both held, `num_words` set and the blob equal to the word file; the totals table is zeroed and loaded |
| DictionaryReader.Reader.Destroy | c-events/src/c/dictionary_reader.c:73-77 | `destroy_dictreader` frees the blob and closes the files, leaving the rest of the reader unchanged |
| DictionaryReader.Zeros | c-events/src/c/dictionary_reader.c:24 | the `memset` table: MAX_YEARS rows of zeros |
| NgramDatabase.ParseInts | script-events/dictionary.py:43 | `map(int, ...)` gives one integer per field, each the parse of its field, and fails exactly when some field is not an integer |
| NgramDatabase.ParseRow | script-events/dictionary.py:43-44 | a chunk becomes a totals entry exactly when all its comma-separated fields parse and there are at least four; the entry's year is the first field |
| NgramDatabase.AddRowsMeaning | script-events/dictionary.py:40-45 | after a line's chunks load, every entry is still stored under its own year, no year is lost, and every non-blank chunk parsed and has its year in the table |
| NgramDatabase.AddLinesMeaning | script-events/dictionary.py:38-45 | after the whole totals file loads, every entry is stored under its own year and every non-blank chunk of every line is in the table |
| NgramDatabase.ReadWord | script-events/dictionary.py:56-57 | seeking and reading `word_length` bytes gives at most that many bytes, and exactly the word's bytes when they lie inside the file |
| NgramDatabase.Records | script-events/dictionary.py:50-54 | the records read are all the whole 32-byte records of the index file, a partial one at the end excluded |
| NgramDatabase.RecordsMeaning | script-events/dictionary.py:51-54 | record k is the `IIHHQQ` decoding of bytes [32k, 32k + 32) of the index file |
| NgramDatabase.IndexOfRecordsMeaning | script-events/dictionary.py:55-60 | `db_words` and `word_indices` hold exactly the words of the records; a word's index is its last record, a later duplicate overwriting an earlier one, and its `NgramWord` is built from that record |
| NgramDatabase.IndexRecord | script-events/dictionary.py:51-60 | one pass of the index loop enters the record at `pos` into both dicts, keeping them equal to `IndexOfRecords` of the records read so far, one more than before |
| NgramDatabase.ReadIndex | script-events/dictionary.py:47-60 | the index loop fills both dicts from all whole records, and fails with `struct.error` exactly when the file ends inside a record |
| NgramDatabase.RowsFrom | script-events/dictionary.py:69-76 | a successful read of a word's time table gives one pair per row |
| NgramDatabase.RowsFromMeaning | script-events/dictionary.py:69-77 | a successful read means the table lies in the time file, every row's year is in the totals with a non-zero match count, and pair k is row k's year with its match count over that total |
| NgramDatabase.SparseSeries | script-events/dictionary.py:64-77 | an unknown word gives the empty list; a known word's series, when it reads, has `time_length` pairs |
| NgramDatabase.DenseAfter | script-events/dictionary.py:81-83 | the dense list keeps 509 entries |
| NgramDatabase.DenseMeaning | script-events/dictionary.py:81-83 | when every year is in [1500, 2008] the fill succeeds and each position holds the count of the last pair for its year, or 0 when there is none |
| NgramDatabase.DenseFails | script-events/dictionary.py:82-83 | once one assignment raises `IndexError`, the whole call raises it |
| NgramDatabase.SmoothSum | script-events/dictionary.py:89-97 | `smoothing_sum` is never negative after a step, as it is reset to 0 whenever it drops below |
| NgramDatabase.SmoothOutputs | script-events/dictionary.py:98-99 | one value is appended per step from step w on, each the running sum over the number of values in the window |
| NgramDatabase.SmoothSumIsWindowSum | script-events/dictionary.py:89-97 | for a series without negative values the running sum is the sum of the 2w+1 values of the window, clipped to the series |
| NgramDatabase.SmoothedMeans | script-events/dictionary.py:84-100 | the smoothed list has 509 values, and for a series without negative values each is the mean of the values within w of it, edge windows dividing by the number of values they hold |
| NgramDatabase.UnknownWordIsZero | script-events/dictionary.py:66-67 | an unknown word's unsmoothed series is 509 zeros |
| NgramDatabase.SmoothedWindows | script-events/dictionary.py:84-100 | on the 509-year series a window in [-254, -1] raises `ZeroDivisionError`, one in [-508, -255] raises `IndexError`, one of -509 or less gives [], and a non-negative one gives 509 means |
| NgramDatabase.Smooth | script-events/dictionary.py:85-100 | the smoothing loop, for a window of either sign, returns the means `SmoothOutputs` describes for w >= 0, and for w < 0 the empty list, the `IndexError` or the `ZeroDivisionError` of its first step, as `Smoothed` says |
| NgramDatabase.Database.constructor | script-events/dictionary.py:33-35 | a reader with no totals, no words and no time file yet |
| NgramDatabase.Database.LoadLine | script-events/dictionary.py:40-45 | the chunks of one line are added to `total_counts`, or the error of the first bad chunk is returned |
| NgramDatabase.Database.LoadTotals | script-events/dictionary.py:37-45 | the totals loop sets `total_counts` from all lines, or returns the first error raised |
| NgramDatabase.Database.LoadIndex | script-events/dictionary.py:47-60 | the index loop sets both dicts from the records and fails with `struct.error` on a partial record |
| NgramDatabase.Database.GetSparseSeries | script-events/dictionary.py:64-77 | `get_sparse_series` returns the sparse series of the stored dicts and time file |
| NgramDatabase.Database.GetTimeSeries | script-events/dictionary.py:79-102 | `get_time_series` returns the dense series when the window is 0 and otherwise its smoothing for that window, negative windows included, or the error the reading or the smoothing raises |
| NgramDatabase.Open | script-events/dictionary.py:30-62 | `NgramDatabase(...)` raises the totals error, or `struct.error` from the index, or returns a fresh reader whose totals, dicts and time file are those loaded |
| PyStrings.Split | script-events/dictionary.py:40 | `str.split(sep)` gives at least one piece, and exactly one when the separator does not occur |
| PyStrings.SplitPieces | script-events/dictionary.py:40 | no piece of a split contains the separator |
| PyStrings.SplitJoin | script-events/dictionary.py:40-43 | joining the pieces of a split with the separator gives the string back |
| PyStrings.JoinSplit | script-events/topics.py:46-52 | splitting a join of separator-free pieces gives the pieces back |
| PyStrings.LStrip | script-events/dictionary.py:41 | `lstrip()` removes exactly the leading whitespace: the result is a suffix, everything removed is whitespace, and the result does not start with whitespace |
| PyStrings.RStrip | script-events/topics.py:108 | `rstrip()` removes exactly the trailing whitespace: the result is a prefix, everything removed is whitespace, and the result does not end with whitespace |
| PyStrings.TokensMeaning | script-events/topics.py:57 | `split()` gives non-empty tokens free of whitespace which together are the string's non-whitespace characters in order |
| PyStrings.TokensRStrip | script-events/zeitgeist.py:38 | `line.rstrip().split()` gives the same tokens as `line.split()` |
| PyStrings.TokensTrailingSpace | script-events/zeitgeist.py:38 | a trailing whitespace character does not change the tokens |
| PyStrings.PyIndex | website/main/views.py:29 | `list[i]` for a list of n elements accepts exactly -n <= i < n, a negative index counting from the end |
| PyStrings.NatToString | script-events/topics.py:50 | `str(n)` of a natural number is a non-empty string of decimal digits |
| PyStrings.NatToStringValue | script-events/topics.py:50 | the digits of `str(n)` read back as n |
| PyStrings.IntToString | script-events/topics.py:50 | `str(i)` is never empty |
| Topics.Interval | script-events/topics.py:32-44 | the run (a, b) stands for b - a + 1 integers, none when a > b |
| Topics.IntervalExtend | script-events/topics.py:37-41 | a value one above the end of a run extends it by that value |
| Topics.RunsAfterInvariant | script-events/topics.py:36-41 | after each value, the closed runs and the open one are maximal and together spell the values read so far |
| Topics.RunStepOpen | script-events/topics.py:37-40 | a value that is not one above the previous closes the open run and starts a new one, keeping the invariant |
| Topics.RunStepExtend | script-events/topics.py:37-41 | a value one above the previous extends the open run, keeping the invariant |
| Topics.RangeListMeaning | script-events/topics.py:32-44 | `to_range_list` cuts any list into non-empty runs of consecutive integers, no run continuing the one before; the runs spell the list back, and there are none exactly when the list is empty |
| Topics.RangeList | script-events/topics.py:32-44 | `to_range_list` gives no runs exactly for the empty list, and every run (a, b) has a <= b |
| Topics.ToRangeList | script-events/topics.py:32-44 | the loop returns the ranges `RangeListMeaning` describes |
| Topics.RangeToStr | script-events/topics.py:46-50 | `range_to_str` is never empty, and for non-negative bounds it holds a '-' exactly when the run has two different ends |
| Topics.NoDashNonNegative | script-events/topics.py:46-50 | `str(i)` of a non-negative integer holds no '-' |
| Topics.RangeToStrParse | script-events/topics.py:46-50 | for non-negative bounds the text reads back as the run: a proper run splits at '-' into its two bounds, a one-value run is its value |
| Topics.AfterLastSlash | script-events/topics.py:12 | the base name begins just after the last '/', and holds no '/' |
| Topics.StripSlashes | script-events/topics.py:14 | the head of a path without trailing slashes is a prefix that does not end with '/' |
| Topics.LastDirectory | script-events/topics.py:11-16 | `get_last_directory` never holds a '/' |
| Topics.LastDirectoryOfPath | script-events/topics.py:11-16 | the last directory of `dir/name` and of `dir/name/` is `name` |
| Topics.BestAfterMeaning | script-events/topics.py:20-29 | the running maximum bounds every entry that parses; the chosen entry is '' when none is above `-sys.maxint - 1`, and otherwise the first entry with the largest value |
| Topics.GetTopicDirectory | script-events/topics.py:18-30 | `get_topic_directory` joins the directory and the entry with the largest integer name |
| Topics.TopicWordsMeaning | script-events/topics.py:52-63 | when the summary parses, the current topic is that of the last line of three or more tokens, and each topic's list holds, in order, the first tokens of the one- and two-token lines under it |
| Topics.ExtractTopicWords | script-events/topics.py:52-63 | `extract_topic_words` returns those lists, or `ValueError` when a topic line's second token is not an integer |
| Topics.TopicWordsFail | script-events/topics.py:60 | once a topic line fails to parse, the whole call raises `ValueError` |
| Topics.ArgMax | script-events/topics.py:73-74 | `max` of the (value, index) pairs picks a largest value, and the last position holding it |
| Topics.ParseFloats | script-events/topics.py:73 | `float()` gives one number per field, each the parse of its field |
| Topics.RowTopic | script-events/topics.py:70-75 | a row adds, when it parses, the year `1500 + year_map[index]` under a topic whose value is the largest of the row |
| Topics.TopicYearsMeaning | script-events/topics.py:65-76 | when the distributions parse, each topic holds, in order, the years of exactly the rows whose most probable topic it is |
| Topics.ExtractTopicYears | script-events/topics.py:65-76 | `extract_topic_years` returns those lists or the first error a row raises |
| Topics.TopicYearsFail | script-events/topics.py:69-75 | once a row raises, the whole call raises that error |
| Zeitgeist.IsValidWord | script-events/zeitgeist.py:17-18 | a word is valid exactly when it is non-empty, starts with an ASCII letter and holds neither '.' nor ',' at any position |
| Zeitgeist.Find | script-events/zeitgeist.py:26 | `word in word_map`: a position found holds the word, and none is found exactly when no item has it |
| Zeitgeist.FilterMeaning | script-events/zeitgeist.py:20-32 | `filter_word_pairs` keeps one item per distinct word without an underscore, each with the largest multiplicity given for its word, and every such word gets an item |
| Zeitgeist.FilterStepNew | script-events/zeitgeist.py:30-31 | a word not yet in the dict is added with its multiplicity |
| Zeitgeist.FilterStepRaise | script-events/zeitgeist.py:27-29 | a known word given a larger multiplicity takes it |
| Zeitgeist.FilterStepKeep | script-events/zeitgeist.py:27-28 | a known word given no larger multiplicity keeps its own |
| Zeitgeist.FilterWordPairs | script-events/zeitgeist.py:20-32 | the loop returns the items `FilterMeaning` describes |
| Zeitgeist.Repeat | script-events/zeitgeist.py:59-60 | `for _ in xrange(mult)` repeats a value mult times, none for a multiplicity of 0 or less |
| Zeitgeist.ExpandCount | script-events/zeitgeist.py:58-60 | each word occurs in a year's word list as often as its items' multiplicities add up to |
| Zeitgeist.YearDocumentCounts | script-events/zeitgeist.py:53-62 | a year index before 250 has an empty document; from 250 on, each word of the year's filtered pairs occurs exactly its largest multiplicity times, and no other word occurs |
| Zeitgeist.ExpandPairs | script-events/zeitgeist.py:58-60 | the inner loops produce the expansion of the filtered pairs |
| Zeitgeist.YearDocuments | script-events/zeitgeist.py:53-62 | `year_documents` gives 509 documents, each that of its year |
| Zeitgeist.LineEntryMeaning | script-events/zeitgeist.py:37-50 | a line of fewer than two tokens or with an invalid word adds nothing; an added pair is the first token with the third token's multiplicity, or 1, at the list position of the second token's year; a year outside the list adds nothing (its `IndexError` is caught) and only `ValueError` escapes |
| Zeitgeist.SummaryAfter | script-events/zeitgeist.py:35 | the index is a list of 509 lists |
| Zeitgeist.SummarySound | script-events/zeitgeist.py:34-51 | every pair of a loaded index has a valid word and came from a line that adds it at that position |
| Zeitgeist.SummaryComplete | script-events/zeitgeist.py:34-51 | every pair a line adds is in the index at its year's position |
| Zeitgeist.IndexSummary | script-events/zeitgeist.py:34-51 | `index_summary` returns the index those lemmas describe, or the first `ValueError` |
| Zeitgeist.AfterFailure | script-events/zeitgeist.py:43-45 | a line whose year or multiplicity is not an integer ends the whole read with `ValueError` |
| Zeitgeist.FindDoc | script-events/zeitgeist.py:70-71 | the list found for a word is that word's, and none is found exactly when no list has it |
| Zeitgeist.AddItemsMeaning | script-events/zeitgeist.py:69-77 | one year's items keep one list per word, open a list for each new word, and add each word's multiplicity to that year's count in its own list only |
| Zeitgeist.WordDocumentsDistinct | script-events/zeitgeist.py:64-78 | `word_documents` keeps one list per word |
| Zeitgeist.WordDocumentsWords | script-events/zeitgeist.py:64-78 | a word has a list exactly when it is among the filtered pairs of some year index from 250 on |
| Zeitgeist.WordDocumentsCounts | script-events/zeitgeist.py:64-78 | in a word's list, every year index from 250 on appears as often as the word's multiplicity among that year's filtered pairs, and no other year appears |
| Zeitgeist.WordDocumentYearCount | script-events/zeitgeist.py:64-78 | the list of a word filtered in year index y (from 250 on) holds y exactly as many times as the largest multiplicity given for the word that year |
| Zeitgeist.AddItemTo | script-events/zeitgeist.py:70-77 | one item of the inner loop updates the lists and keeps the dict `words` pointing at each word's list |
| Zeitgeist.FindAppendItem | script-events/zeitgeist.py:67-73 | the first occurrence of a word in a stream with one more item is its old first occurrence, or the new item's position when the word was absent and the item has it |
| Zeitgeist.FindFirst | script-events/zeitgeist.py:67-73 | the position `Find` returns is the first one holding the word |
| Zeitgeist.AddItemFirstSeen | script-events/zeitgeist.py:69-75 | one item keeps the lists in first-seen order of the items visited: a known word keeps its list's place, a new word's list goes last, its first occurrence being the new item |
| Zeitgeist.KnownItemFirstSeen | script-events/zeitgeist.py:69-70 | an item of a word that already has a list keeps every list's word and place and hence the first-seen order |
| Zeitgeist.NewItemFirstSeen | script-events/zeitgeist.py:71-74 | an item of a word without a list appends that word's list after all others and keeps the first-seen order |
| Zeitgeist.NewItemPositions | script-events/zeitgeist.py:71-74 | the old lists' first occurrences are unchanged, and the new list's word first occurs at the new item |
| Zeitgeist.NewItemComplete | script-events/zeitgeist.py:71-74 | every word of the longer stream has a list once the new one is appended |
| Zeitgeist.AddItemsFirstSeen | script-events/zeitgeist.py:68-77 | one year's items keep the lists in first-seen order of the stream extended by those items |
| Zeitgeist.WordDocumentsFirstSeen | script-events/zeitgeist.py:64-78 | the lists of `word_documents` hold exactly the words visited, and list i comes before list j exactly as i's word is first met (by year index, then item position) before j's |
| Zeitgeist.YearFirstSeen | script-events/zeitgeist.py:66-77 | one year of the outer loop keeps the first-seen order, whether it is before index 250 (nothing changes) or not |
| Zeitgeist.YearShape | script-events/zeitgeist.py:66-68 | a year from index 250 on adds its filtered items to the lists and to the stream; an earlier one adds nothing |
| Zeitgeist.AscendingAppend | script-events/zeitgeist.py:76-77 | appending copies of the current year after years no later keeps a list's years ascending |
| Zeitgeist.AddItemYears | script-events/zeitgeist.py:69-77 | one item of year y keeps every list's years ascending and within [250, y] |
| Zeitgeist.AddItemsYears | script-events/zeitgeist.py:68-77 | one year's items keep every list's years ascending and within [250, y] |
| Zeitgeist.WordDocumentsYearsWithin | script-events/zeitgeist.py:64-78 | after n years every list's years ascend and lie in [250, n) |
| Zeitgeist.WordDocumentsYearsSorted | script-events/zeitgeist.py:64-78 | within every list of `word_documents` the year indices never go down, and all lie in [250, n) |
| Zeitgeist.WordDocuments | script-events/zeitgeist.py:64-78 | `word_documents` returns the lists the lemmas above describe: one per word, in first-seen order, each with its years in ascending order and each year as often as the word's multiplicity there |
| Zeitgeist.HistoryRowsFields | script-events/zeitgeist.py:102-107 | the history rows are numbered 1, 2, ... over the non-empty documents only, each with its document and its calendar year |
| Zeitgeist.HistoryRowsOrdered | script-events/zeitgeist.py:104-107 | the history rows come in year order |
| Zeitgeist.HistoryRowsComplete | script-events/zeitgeist.py:104-107 | every non-empty document has a row |
| Zeitgeist.HistoryRows | script-events/zeitgeist.py:101-107 | the history loop of `main` produces those rows |
| Zeitgeist.FilterStep | script-events/zeitgeist.py:20-32 | each pair keeps one item per word without an underscore seen so far, with the largest multiplicity given for it |
| Zeitgeist.FindDocUnique | script-events/zeitgeist.py:70-71 | with one list per word, the lookup finds the list of each word at its own position |
| Zeitgeist.AddItemMeaning | script-events/zeitgeist.py:70-77 | adding an item keeps one list per word, opens a list for its word, and adds its multiplicity to its word's count of its year only |
| Galley.ComputeDistance | script-events/galley.py:6-17 | every relation type has distance 1.0 |
| Galley.AddTo | script-events/galley.py:94 | adding to one edge set changes that set only, by exactly the new edge |
| Galley.RemoveFrom | script-events/galley.py:99 | removing from one edge set changes that set only, by exactly that edge |
| Galley.AddEdgeOf | script-events/galley.py:93-95 | `add_edge` keeps the occurrences and senses, puts the edge in the first endpoint's set and its reverse in the second's, and only adds edges |
| Galley.AddEdgeMeaning | script-events/galley.py:92-95 | `add_edge` puts the edge in the first endpoint's set and its reverse in the second's, keeps the graph symmetric, and changes no other set |
| Galley.RemoveEdgeOf | script-events/galley.py:98-100 | `remove_edge` only removes edges, and the edge is gone from the first endpoint's set |
| Galley.RemoveEdgeMeaning | script-events/galley.py:97-100 | on a symmetric graph without self-loops, `remove_edge` finds both the edge and its reverse present, removes just those two, and keeps the graph symmetric |
| Galley.SumDistances | script-events/galley.py:176 | `sum(map(itemgetter(2), edge_list))` is the sum of the distances of the edge set |
| Galley.SetSumOfOnes | script-events/galley.py:176 | when every distance is 1.0 a sense's score is its number of edges |
| Galley.FirstBest | script-events/galley.py:177-183 | the chosen position has a largest score, and every earlier position a strictly smaller one |
| Galley.FirstBestUnique | script-events/galley.py:177-183 | those two properties determine the choice: a tie keeps the earlier sense |
| Galley.ChooseBest | script-events/galley.py:177-183 | the loop picks the first sense with the largest score |
| Galley.SenseScore | script-events/galley.py:173-176 | `scores[sense]` is the sum of the distances of that sense's edges over all the word's occurrences |
| Galley.ChooseSense | script-events/galley.py:169-183 | the sense chosen for a word is the first of its senses with the highest score, and one of its senses |
| Galley.ChooseSenses | script-events/galley.py:167-185 | the `wsd` loop gives every indexed word its best sense and leaves the choices of other words as they were |
| Galley.AddVertexEdge | script-events/galley.py:123-125 | `WordVertex.add_edge` makes each word a neighbour of the other, has a vertex for exactly the old vertices and the two words, and only adds neighbours |
| Galley.AddVertexEdgeMeaning | script-events/galley.py:122-125 | `WordVertex.add_edge` links both words to each other, changes no other vertex, and keeps the graph symmetric |
| Galley.VisitNeighbours | script-events/galley.py:62-66 | every neighbour of the node not yet visited is appended to the queue and to the result and marked visited; the queue and the unvisited nodes shrink together |
| Galley.Bfs | script-events/galley.py:53-68 | `bfs` returns the root first, then distinct nodes not visited before, each a neighbour of an earlier one; all returned nodes are added to `visited`, and every neighbour of a returned node is visited at the end |
| Galley.RemovedUnchosenTransitive | script-events/galley.py:187-202 | edges removed over two stages of pruning all had an end at a sense that was not chosen |
| Galley.RemovedAtUnchosen | script-events/galley.py:193-202 | emptying the list of an unchosen sense removes only edges with an end at an unchosen sense |
| Galley.PrunedWord | script-events/galley.py:188-202 | after the pass over a word, its occurrences have edges only at their chosen sense, and the words already pruned stay so |
| Galley.TrimmedWord | script-events/galley.py:205-214 | after the pass over a word, its occurrences' chosen lists hold at most 100 edges, and the words already trimmed stay so |
| Galley.CondensePosition | script-events/galley.py:221-227 | the edges of one occurrence's chosen list link the word, both ways, to exactly the other words they reach |
| Galley.CondenseEdge | script-events/galley.py:224-227 | an edge to another word links the two words both ways, and an edge to the same word adds nothing |
| Galley.CondenseWord | script-events/galley.py:221-227 | the occurrences of one word link it, both ways, to exactly the other words their chosen lists reach |
| Galley.CondenseGraph | script-events/galley.py:216-228 | `condense_graph` has one vertex per indexed word, each linked to exactly the words its chosen sense reaches and the words reaching it, without self-links and symmetric |
| Galley.CondensedGraph | script-events/galley.py:216-228 | the complete condensed graph has no loops, stays within its vertices and is symmetric |
| Galley.LexicalChainer.constructor | script-events/galley.py:135-138 | a chainer without occurrences, index or chosen senses, whose empty graph is consistent |
| Galley.LexicalChainer.Wsd | script-events/galley.py:167-185 | `wsd` chooses for every indexed word the first of its senses with the highest score, and keeps other words' choices |
| Galley.LexicalChainer.AddEdge | script-events/galley.py:92-95 | `add_edge` on the chainer's graph, keeping it symmetric and without self-loops |
| Galley.LexicalChainer.RemoveEdge | script-events/galley.py:97-100 | `remove_edge` on the chainer's graph, keeping it symmetric and only removing edges |
| Galley.LexicalChainer.ClearList | script-events/galley.py:199-202 | the `while edge_list` loop empties one list, removing only edges of that list and their reverses |
| Galley.LexicalChainer.PruneSense | script-events/galley.py:193-202 | an unchosen sense of a word loses every edge at every occurrence of the word, and only edges with an end at an unchosen sense are removed |
| Galley.LexicalChainer.PruneWord | script-events/galley.py:188-202 | after one word every sense other than its chosen one has no edge at any of its occurrences |
| Galley.LexicalChainer.Prune | script-events/galley.py:187-202 | `prune_disambiguation_graph` leaves edges only at chosen senses, removes only edges with an end at an unchosen sense, and keeps the graph symmetric |
| Galley.LexicalChainer.TrimWord | script-events/galley.py:205-214 | after one word, each of its occurrences' chosen lists holds at most 100 edges |
| Galley.LexicalChainer.Trim | script-events/galley.py:204-214 | `trim_disambiguation_graph` leaves no chosen list with more than 100 edges and only removes edges |
| Galley.LexicalChainer.ChainerCondensable | script-events/galley.py:216-228 | a consistent chainer's edges all end at occurrences of indexed words, as `condense_graph` needs |
| Galley.LexicalChainer.Condense | script-events/galley.py:216-228 | `condense_graph` has one vertex per indexed word; two words are linked exactly when a chosen list of either reaches the other; no word is linked to itself and links go both ways |
| Viterbi.BestMeaning | c-events/src/cpp/kleinberg.cpp:89-102 | the inner loop picks nothing exactly when no predecessor has a finite cost; otherwise the pick is a reachable predecessor whose cost plus the climbing penalty is minimal, and the lowest such index |
| Viterbi.Start | c-events/src/cpp/kleinberg.cpp:70-75 | the costs before the first year: one per state, 0 for state 0 and the sentinel for the others |
| Viterbi.Layer | c-events/src/cpp/kleinberg.cpp:89-117 | one year gives one new cost per state |
| Viterbi.Dp | c-events/src/cpp/kleinberg.cpp:85-119 | the DP keeps one cost per state in every year |
| Viterbi.PsiRow | c-events/src/cpp/kleinberg.cpp:116 | one stored predecessor per state |
| Viterbi.PsiTable | c-events/src/cpp/kleinberg.cpp:116 | one row of predecessors per year |
| Viterbi.PsiTableAppend | c-events/src/cpp/kleinberg.cpp:85-119 | each year appends its row to the predecessor table |
| Viterbi.DpAt | c-events/src/cpp/kleinberg.cpp:107-114 | a state's new cost is the cheapest arrival plus its emission cost, or the sentinel when there is no arrival |
| Viterbi.StateZeroReachable | c-events/src/cpp/kleinberg.cpp:107-110 | state 0 always has a finite cost, so the `exit` for a missing predecessor is never reached |
| Viterbi.AllReachable | c-events/src/cpp/kleinberg.cpp:92-114 | after the first year every state has a finite cost |
| Viterbi.DpLowerBound | c-events/src/cpp/kleinberg.cpp:85-119 | no state sequence from state 0 is cheaper than the DP cost of its final state |
| Viterbi.PsiTableIs | c-events/src/cpp/kleinberg.cpp:116 | every stored predecessor is a state, and the table holds the DP's choices |
| Viterbi.StateAt | c-events/src/cpp/kleinberg.cpp:123-127 | backtracking stays among the states |
| Viterbi.Trail | c-events/src/cpp/kleinberg.cpp:122-127 | backtracking from year i pushes one state per later year plus the final one |
| Viterbi.Forward | c-events/src/cpp/kleinberg.cpp:128 | the recovered states in forward order: one per year plus the initial one |
| Viterbi.ForwardSteps | c-events/src/cpp/kleinberg.cpp:121-128 | the recovered states end in the final state, stay among the states, and each earlier one is the stored predecessor of the next |
| Viterbi.MinPosition | c-events/src/cpp/kleinberg.cpp:21-26 | `find_min_position` returns a position of the vector |
| Viterbi.MinPositionMeaning | c-events/src/cpp/kleinberg.cpp:21-26 | no entry is below the one at that position, and every earlier entry is above it: `min_element` returns the first minimum |
| Viterbi.Decoded | c-events/src/cpp/kleinberg.cpp:121-128 | the decoded sequence has one state per year plus the initial one |
| Viterbi.ForwardStepCost | c-events/src/cpp/kleinberg.cpp:93-112 | following a stored predecessor adds exactly the DP's step to the path cost |
| Viterbi.ForwardCost | c-events/src/cpp/kleinberg.cpp:121-128 | every prefix of the recovered states is a state sequence whose cost is the DP cost of its last state |
| Viterbi.DecodedOptimal | c-events/src/cpp/kleinberg.cpp:39-131 | the decoded states start in state 0 and no state sequence of the same length costs less |
| Viterbi.DecodedSteps | c-events/src/cpp/kleinberg.cpp:121-127 | the last decoded state is the first cheapest final state, and each earlier one the stored predecessor of the next |
| Kleinberg.InitLnSums | c-events/src/cpp/kleinberg.cpp:14-19 | `init_ln_sums` keeps what the vector held and appends ln 1 + ... + ln i for every i up to the maximum |
| Kleinberg.FactorialPositive | c-events/src/cpp/kleinberg.cpp:88 | every factorial is positive |
| Kleinberg.LnSumIsLnFactorial | c-events/src/cpp/kleinberg.cpp:14-19 | for a true logarithm the table holds ln i!, so `choose` is the log of a binomial coefficient |
| Kleinberg.LnSumTelescopes | c-events/src/cpp/kleinberg.cpp:16-18 | the running sums telescope to ln i! |
| Kleinberg.Total | c-events/src/cpp/kleinberg.cpp:53-57 | the `unsigned int` totals are the sums of the counts modulo 2^32 |
| Kleinberg.Pow2 | c-events/src/cpp/kleinberg.cpp:64-65 | a power of two is at least 1 |
| Kleinberg.ScaledDoubles | c-events/src/cpp/kleinberg.cpp:65 | each rung doubles the scaled count |
| Kleinberg.RungCount | c-events/src/cpp/kleinberg.cpp:64-66 | the ladder from state j holds more than j states |
| Kleinberg.Alphas | c-events/src/cpp/kleinberg.cpp:62-66 | the ladder has at least one state |
| Kleinberg.RungStep | c-events/src/cpp/kleinberg.cpp:64-65 | doubling a rate gives the next rate, and it stays at most 1 exactly when R * 2^(j+1) <= D |
| Kleinberg.LadderMeaning | c-events/src/cpp/kleinberg.cpp:62-66 | the ladder starts at R / D, doubles from state to state, every doubled rate but the last's is at most 1 and the last's exceeds 1, and every rate is positive |
| Kleinberg.RungCountContinues | c-events/src/cpp/kleinberg.cpp:64 | below the count the doubled rate was at most 1 |
| Kleinberg.RungCountStops | c-events/src/cpp/kleinberg.cpp:64 | at the count the doubled rate exceeds 1 |
| Kleinberg.StateLadder | c-events/src/cpp/kleinberg.cpp:62-66 | the ladder loop returns the rates `LadderMeaning` describes |
| Kleinberg.EmissionRow | c-events/src/cpp/kleinberg.cpp:86-88 | the emission cost of every state in year i is `choose - r ln(alpha_j) - nr ln(1 - alpha_j)`, with nr the `unsigned` difference |
| Kleinberg.DecodedStates | c-events/src/cpp/kleinberg.cpp:121-128 | one decoded state per year plus the initial one |
| Kleinberg.BestPredecessor | c-events/src/cpp/kleinberg.cpp:90-102 | the inner loop returns the cheapest reachable predecessor, lowest index on ties |
| Kleinberg.ViterbiLayer | c-events/src/cpp/kleinberg.cpp:89-117 | the loop over states produces the next costs and the predecessor row of the DP |
| Kleinberg.TrailReversed | c-events/src/cpp/kleinberg.cpp:128 | reversing the backtracking trail gives the states in forward order |
| Kleinberg.Backtrack | c-events/src/cpp/kleinberg.cpp:121-128 | the backtracking appends the recovered states in forward order, after the reversed earlier contents of the vector |
| Kleinberg.BatchViterbi | c-events/src/cpp/kleinberg.cpp:39-131 | `batch_viterbi` returns false, changing nothing, exactly for empty or unequal-length inputs or equal `unsigned` totals; otherwise true with the decoded states appended |
| Kleinberg.InitialCosts | c-events/src/cpp/kleinberg.cpp:70-75 | both cost vectors get one entry per state, the first holding the starting costs |
| Kleinberg.ForwardPass | c-events/src/cpp/kleinberg.cpp:85-119 | the loop over the years ends with the DP's costs and predecessor table |
| Kleinberg.ForwardYear | c-events/src/cpp/kleinberg.cpp:86-118 | one year turns the DP's costs into the next year's costs and row |
| MaxSequences.PrefixDifference | c-events/src/cpp/numerical_discrepancy.cpp:34-36 | the difference of two entries of the prefix sums is the total of the values between them |
| MaxSequences.SumRangePositive | c-events/src/cpp/numerical_discrepancy.cpp:40-43 | a run of strictly positive values has a positive total |
| MaxSequences.FindLower | c-events/src/cpp/numerical_discrepancy.cpp:52-59 | the back-pointer scan from the interval below the top finds an interval on that chain whose left prefix sum is below the top's, exactly when the chain holds one; otherwise it ends at the sentinel n |
| MaxSequences.SeedRun | c-events/src/cpp/numerical_discrepancy.cpp:41-43 | the seed interval extends from a positive value to the end of its run of positive values |
| MaxSequences.MergeTarget | c-events/src/cpp/numerical_discrepancy.cpp:48-60 | the lookup keeps the back pointers well formed and changes only the top one; when nothing is found the top becomes the new infinity index; a cached or found target lies below the top |
| MaxSequences.Settle | c-events/src/cpp/numerical_discrepancy.cpp:47-71 | the merge loop keeps a decomposition: the intervals below the merge point are unchanged, the top one runs from the merge target's start to the new run's end, and a merge happens only when the target's right prefix sum is below the new one |
| MaxSequences.MergeKeepsDecomposition | c-events/src/cpp/numerical_discrepancy.cpp:61-64 | extending the target to the top interval's end and dropping everything above it keeps every interval scoring and all of them ordered and disjoint |
| MaxSequences.CoveredAt | c-events/src/cpp/numerical_discrepancy.cpp:44 | a position inside any interval of the stack counts as covered |
| MaxSequences.CoveredWitness | c-events/src/cpp/numerical_discrepancy.cpp:44 | a covered position lies inside some interval of the stack, which the lemma returns |
| MaxSequences.PushRun | c-events/src/cpp/numerical_discrepancy.cpp:40-72 | one pass of the for loop at a positive value: the run from i to its end si is pushed and settled; the result is still a decomposition of the positions up to si with one back pointer per interval, and every positive value up to si lies inside an interval |
| MaxSequences.StepCovers | c-events/src/cpp/numerical_discrepancy.cpp:44-72 | after the push and the merges every positive value before the run stays covered and every position of the run is covered |
| MaxSequences.SettleCoversAt | c-events/src/cpp/numerical_discrepancy.cpp:61-64 | for one position: a position inside an absorbed interval lies inside the merged interval, which runs from the lowest absorbed start to the highest absorbed end |
| MaxSequences.PushCovers | c-events/src/cpp/numerical_discrepancy.cpp:44 | pushing an interval keeps every covered position covered and covers the interval's own positions |
| MaxSequences.SettleCovers | c-events/src/cpp/numerical_discrepancy.cpp:61-64 | merging only widens: after the merges every position the stack covered before is still covered |
| MaxSequences.PushKeepsDecomposition | c-events/src/cpp/numerical_discrepancy.cpp:44 | pushing a scoring run after the last interval keeps the decomposition |
| MaxSequences.PrefixSums | c-events/src/cpp/numerical_discrepancy.cpp:34-36 | sums is 0 followed by the n prefix sums of v |
| MaxSequences.ComputeMaxSequences | c-events/src/cpp/numerical_discrepancy.cpp:29-81 | sums are the prefix sums, and every interval starts a positive run, ends one, has a positive total, and the intervals are increasing and disjoint, and every strictly positive value lies inside one of them |
| MaxSequences.Rightmost | c-events/src/cpp/numerical_discrepancy.cpp:38-72 | the top of the stack ends last |
| MaxSequences.Gapped | c-events/src/cpp/numerical_discrepancy.cpp:38-72 | two intervals of the decomposition are separated by at least one year that belongs to neither |
| Discrepancy.Burstiness | c-events/src/cpp/numerical_discrepancy.cpp:92-93 | one burstiness value per year of the range |
| Discrepancy.BurstinessSum | c-events/src/cpp/numerical_discrepancy.cpp:89-93 | the burstiness total of a window is its share of the range total less its share of the range length |
| Discrepancy.BurstinessBalanced | c-events/src/cpp/numerical_discrepancy.cpp:89-93 | the burstiness values of a range sum to 0 |
| Discrepancy.AnalyzeBurstiness | c-events/src/cpp/numerical_discrepancy.cpp:83-97 | the sums are the prefix sums of the burstiness of the range, and the intervals are its decomposition into positive-scoring, run-bounded, ordered disjoint intervals |
| Discrepancy.AddToPair | c-events/src/cpp/numerical_discrepancy.cpp:11-14 | shifting an interval by the offset keeps its length and puts both ends at or after the offset |
| Discrepancy.AppendIndices | c-events/src/cpp/numerical_discrepancy.cpp:16-26 | the old intervals are kept, and one entry per index follows: the pair shifted by the offset and scored by the difference of the shared prefix sums |
| Discrepancy.TopScoreIsBurstiness | c-events/src/cpp/numerical_discrepancy.cpp:22-23 | a score read from the top-level prefix sums is the burstiness total of the interval over the top-level range |
| Discrepancy.TopLevel | c-events/src/cpp/numerical_discrepancy.cpp:105-108 | the top-level analysis yields intervals inside the range, scored by their top-level burstiness, positive and pairwise disjoint |
| Discrepancy.SubValid | c-events/src/cpp/numerical_discrepancy.cpp:113-119 | each interval of the re-analysis of a valid interval lies inside it and, scored from the top-level sums, still has a positive score |
| Discrepancy.SwapRemove | c-events/src/cpp/numerical_discrepancy.cpp:114-115 | swap-removing drops one interval |
| Discrepancy.SwapRemoveFacts | c-events/src/cpp/numerical_discrepancy.cpp:114-115 | every remaining interval comes from a position other than the removed one, the intervals before it are unchanged, and the years from it on shrink by its length |
| Discrepancy.SwapRemoveApart | c-events/src/cpp/numerical_discrepancy.cpp:114-115 | removing an interval keeps the rest pairwise disjoint and disjoint from the removed one |
| Discrepancy.SubShorter | c-events/src/cpp/numerical_discrepancy.cpp:117-119 | the re-analysis of a range of two years or more covers fewer years than the range |
| Discrepancy.SubIntervals | c-events/src/cpp/numerical_discrepancy.cpp:113-119 | the re-analysis of a valid interval gives valid, pairwise disjoint intervals inside it with fewer years in total |
| Discrepancy.SplitApart | c-events/src/cpp/numerical_discrepancy.cpp:113-119 | replacing an interval by disjoint intervals inside it keeps the list pairwise disjoint |
| Discrepancy.SplitLength | c-events/src/cpp/numerical_discrepancy.cpp:113-119 | replacing an interval by shorter ones keeps the prefix before it and lowers the years from it on, so the worklist terminates |
| Discrepancy.SplitWorklist | c-events/src/cpp/numerical_discrepancy.cpp:110-123 | one resplit keeps the worklist invariant and decreases the years still to be examined |
| Discrepancy.AppendSplit | c-events/src/cpp/numerical_discrepancy.cpp:117-119 | the re-analysis appends to the list valid intervals inside the split one with fewer years in total, keeping what was there |
| Discrepancy.Resplit | c-events/src/cpp/numerical_discrepancy.cpp:112-119 | a long interval is replaced and the worklist invariant holds, with the positions before it unchanged |
| Discrepancy.FitDiscrepancy | c-events/src/cpp/numerical_discrepancy.cpp:99-124 | on return every interval lies in [w, MAX_YEARS - w), has a positive score equal to its top-level burstiness total, the intervals are pairwise disjoint, and each is shorter than 32 years |
| Discrepancy.DiscrepancyScore | c-events/src/cpp/numerical_discrepancy.cpp:126-136 | the score is never negative, positive exactly when the base is not negative, and then the base lies in [score - 1, score) |
| Discrepancy.Painted | c-events/src/cpp/numerical_discrepancy.cpp:149-157 | one count per year |
| Discrepancy.PaintedMeaning | c-events/src/cpp/numerical_discrepancy.cpp:149-157 | with disjoint intervals a year's count is non-zero only as the positive score of an interval covering it, every year of an interval with a positive score carries that score, and no count is negative |
| Discrepancy.PaintInterval | c-events/src/cpp/numerical_discrepancy.cpp:154-155 | the years of the interval get the score and every other count is unchanged |
| Discrepancy.FillCounts | c-events/src/cpp/numerical_discrepancy.cpp:149-157 | the counts are those of zeroed counts painted by the intervals in order |
| Discrepancy.ComputeRelevance | c-events/src/cpp/numerical_discrepancy.cpp:143-158 | the intervals are those of fit_discrepancy with window 2 and the counts are the painted positive scores |
| SortStage.Indexed | c-events/src/c/sorter.c:40-43 | entry i holds record position i and the i-th word of the reader |
| SortStage.SortedWords | c-events/src/c/sorter.c:45 | the sorted tags keep the length, every word is the word of the record its tag names, and every position with its word occurs |
| SortStage.QSort | c-events/src/c/sorter.c:45 | the array ends as the iw_compare sort of its old contents |
| SortStage.SortedWordsDistinct | c-events/src/c/sorter.c:40-45 | no record position occurs twice among the sorted tags, so they are a permutation of the positions |
| SortStage.SortedWordsOrdered | c-events/src/c/sorter.c:45 | after the sort the words are in non-decreasing strcmp order |
| SortStage.EmittedFields | c-events/src/c/sorter.c:55-60 | each output record is its tagged word's input record in every field but the two offsets |
| SortStage.EmittedStreams | c-events/src/c/sorter.c:60-62 | the word stream is the tagged words end to end and the time stream their rows end to end |
| SortStage.EmittedOffsets | c-events/src/c/sorter.c:58-59 | the offsets of each output record are the wrapped 32-bit sums of the word lengths and of 16 bytes per row written before it |
| SortStage.PassesRunning | c-events/src/c/sorter.c:70-71 | after each pass the running offsets are the wrapped positions in the word and time streams |
| SortStage.PassesEmitted | c-events/src/c/sorter.c:47-74 | after i full passes the streams hold the first i tagged words' records, words and rows in the emitted layout |
| SortStage.EmitPartial | c-events/src/c/sorter.c:58-68 | a pass whose time write is short still leaves record, word and the rows written in the emitted layout |
| SortStage.PassesLayout | c-events/src/c/sorter.c:47-74 | after i passes record k is the k-th tagged word's record with relocated offsets, and the streams are its words and rows end to end |
| SortStage.FirstFalse | c-events/src/c/sorter.c:47 | the loop stop: every pass before it completes and the pass at it does not |
| SorterC.Passed | c-events/src/c/sorter.c:51-63 | one flag per tagged word: whether its read_table succeeds and its time write takes every row |
| SorterC.ReadRows | c-events/src/c/sorter.c:51 | one table of rows per record position |
| SorterC.WriteLoopResult | c-events/src/c/sorter.c:47-74 | the loop ends with error 0 with everything out, or with the read_table error and the passes before it, or with error 2 after a short time write with the written part of the rows out |
| SorterC.WriteLoopReadFailure | c-events/src/c/sorter.c:51-53 | a failed read_table ends the loop with its error and the earlier passes' output |
| SorterC.WriteLoopShortWrite | c-events/src/c/sorter.c:62-68 | a short time write ends the loop with error 2 after its record, its word and the rows written |
| SorterC.WriteLoopComplete | c-events/src/c/sorter.c:47-74 | when every pass completes the error is 0 and all passes are out |
| SorterC.CompleteRunLayout | c-events/src/c/sorter.c:47-74 | a loop ending with error 0 has emitted every record once in strcmp order of the words, with relocated offsets, and the words and rows end to end |
| SorterC.EmitEntry | c-events/src/c/sorter.c:55-62 | the record gets the running offsets in the database and in the main stream, the word goes to the word stream and as many rows as the write can take to the time stream |
| SorterC.WriteSorted | c-events/src/c/sorter.c:47-74 | the error and the three streams are those of the write loop, and no record of the database changes except in its offsets |
| SorterC.WritePass | c-events/src/c/sorter.c:48-71 | one pass either ends the loop with its outcome or completes and moves on, records changing only in their offsets |
| SorterC.TagAndSort | c-events/src/c/sorter.c:40-45 | the tags are the reader's words with their positions in iw_compare order |
| SorterC.SortBinaryData | c-events/src/c/sorter.c:12-82 | a failed reader returns its error and tears nothing down; failed output files return their error after tearing down the reader; otherwise both are torn down and the error and streams are those of the write loop over the sorted words |
| SorterCpp.MaterialisedWord | c-events/src/cpp/sorter.cpp:54-57 | the copy holds at most word_length bytes of the blob from word_offset, stopping at the first NUL |
| SorterCpp.Materialised | c-events/src/cpp/sorter.cpp:46-60 | one copied word per record |
| SorterCpp.MaterialiseWords | c-events/src/cpp/sorter.cpp:46-60 | the check succeeds exactly when every record's word lies in the blob, and then the tags are the copied words with their positions |
| SorterCpp.Passed | c-events/src/cpp/sorter.cpp:72-90 | one flag per tagged word: whether its seek succeeds, its time read is full and its time write takes every row |
| SorterCpp.WriteLoopStops | c-events/src/cpp/sorter.cpp:72-90 | a failed seek or short read exits with the earlier passes' output; a short write exits after its record, word and written rows |
| SorterCpp.WriteLoopComplete | c-events/src/cpp/sorter.cpp:64-96 | when every pass completes the process does not exit and all passes are out |
| SorterCpp.EmitEntry | c-events/src/cpp/sorter.cpp:81-85 | the record gets the running offsets in the database and in the main stream, the word goes to the word stream and as many rows as the write can take to the time stream |
| SorterCpp.WriteSorted | c-events/src/cpp/sorter.cpp:64-96 | whether the process exits and the three streams are those of the write loop, records changing only in their offsets |
| SorterCpp.SortBinaryData | c-events/src/cpp/sorter.cpp:14-105 | reader and output-file errors return like sorter.c; a short index read returns 1 after tearing both down; a word out of bounds exits with nothing written; otherwise the write loop over the sorted copies decides between an exit and a return of 0 with both torn down |
| SorterCpp.CompleteRunLayout | c-events/src/cpp/sorter.cpp:64-96 | a run that does not exit has emitted every record once in the order of the tags, with relocated offsets and all its rows, and the words and rows end to end |
| Views.GetActualYear | website/main/views.py:10-16 | the result lies in [1500, 2008], a year in that range is kept, and no year of the range is nearer to the request |
| Views.GetActualYearMonotone | website/main/views.py:10-16 | clamping keeps the order of two years and clamping twice is clamping once |
| Views.NormaliseYears | website/main/views.py:43-46 | both years are clamped and the end is raised to the start when it lies before it, so 1500 <= start <= end <= 2008; years already in order in the range are kept |
| Views.PySlice | website/main/views.py:56 | Python's `s[lo:hi]` for bounds that are not negative: both are cut to the length, the slice is empty when hi is not above lo, and entry k is `s[lo + k]` |
| Views.YearWindow | website/main/views.py:56 | the window of a 509-entry series holds end - start + 1 entries, entry k being the one of year start + k |
| Views.Trunc | website/main/views.py:29 | `int()` of a float rounds toward zero |
| Views.RowSeries | website/main/views.py:24-30 | `row_to_series` gives a 509-entry list or an `IndexError` |
| Views.RowSeriesAfter | website/main/views.py:24-30 | a partly converted row is a 509-entry list or an `IndexError` |
| Views.RowSeriesSucceeds | website/main/views.py:24-30 | the conversion succeeds exactly when every index has data and is a valid Python index of a 509-entry list |
| Views.RowSeriesDense | website/main/views.py:24-30 | for distinct columns in range the series holds the truncated `data[i]` at column `indices[i]` and 0 everywhere else |
| Views.RowToSeries | website/main/views.py:24-30 | the loop gives the series or the `IndexError` of the conversion |

## Left out

- Output only to files or the terminal: `print_series`, `append_csv`, `print_relevance_csv`, `print_summary_txt` and the CSV formatting. The model keeps the rows or lines these would write.
- A failed `fopen` of an output file is not modelled: `append_csv` in `relevance.cpp` (lines 61-65) and `main` of `process.cpp` for `data/zeitgeist/summary.txt` (lines 140-144) call `exit(EXIT_FAILURE)` then. `Process.ProcessMain` starts after that open and so takes it to succeed.
- `compute_summary` of `numerical_discrepancy.cpp`: it sorts the same intervals and prints them, so it adds nothing to `Discrepancy.ComputeRelevance`.
- `get_file_size`, `get_file_size64` and `file_exists` of `util.c`: file-system queries, whose outcomes are parameters of the reader.
- `linear_model_series_to_csv` and `normalize_generate_ranges`: they rely on the GSL minimiser, which is a black box. `process_series` takes the ranges it produces as a parameter.
- `read_table`, `table_to_series`, `numerical_discrepancy_processor` and the reader's `words` and `database` fields: their code is not part of this model. They are parameters with the contracts their callers rely on.
- `log`, `sqrt` and `gsl_ran_gaussian_pdf` are function parameters. Doubles are reals, so rounding, NaN and infinities are not modelled.
- `GaussianRelevance.RelevantGaussians`: requires that the density does not vanish at the peak of a candidate when a widening is used. The source would then divide by zero and produce an infinite count.
- `RelevanceGaussians.FitGaussians`: requires the density to be non-zero at every peak (`PeakNonZero`), for the same reason.
- `RelevanceSeries.AverageMatchCount`: requires a non-empty range, because the source divides by its length.
- `GaussianRelevance.TruncTowardZero`: the `(int)` conversion truncates toward zero, and its 32-bit range is not modelled.
- `Kleinberg.BatchViterbi`: requires both wrapped totals to be non-zero when the input is decodable. When `total_relevant` wraps to 0 and `total_docs` does not, the first rate is 0.0 and the doubling loop `while (alphas.back() * s <= 1.0)` at `kleinberg.cpp:64-65` never ends, so the source does not terminate. When `total_docs` is 0 and `total_relevant` is not, the rate is `+inf` and the costs are infinite or NaN. Neither behaviour is modelled.
- `Discrepancy.FitDiscrepancy`: requires the total of the analysed range to be non-zero, because the burstiness divides by it.
- `Discrepancy.FitDiscrepancy`: the model starts from an empty list of intervals, which is what its only caller passes.
- `Kleinberg.BatchViterbi`: when the wrapped `total_relevant` exceeds `total_docs`, the first rate is above 1, so the ladder has one state and `log(1 - alpha)` is NaN. The cost of the first year is then NaN. With a second year, no cost compares below `DBL_MAX`, so the `exit` at `kleinberg.cpp:107-110` is reached. `Decodable` does not exclude this input. The model has no NaN, because `ln` is an arbitrary function, so it decodes such input instead of exiting. `Viterbi.StateZeroReachable` (the exit is never reached) holds of the model only.
- `Kleinberg.BatchViterbi` and `Kleinberg.EmissionRow`: when R / D is 2^-k, the doubling loop at `kleinberg.cpp:64-65` stops with a top rate of exactly 1.0. That state's `log(1 - alpha)` is then -inf, so its cost is +inf (NaN when d == r) and it is never chosen. In the model `ln(0.0)` is an arbitrary value, so the decoded states can differ from the source's for such input.
- `MaxSequences.ComputeMaxSequences`: proves the decomposition into positive-scoring, run-bounded, ordered and disjoint intervals. The optimality of the Ruzzo–Tompa algorithm (that these are the maximal scoring subsequences) is not proved.
- `Sorting.Sort` stands for `qsort` and `std::sort`: it is an insertion sort with the same comparator. Which of several equal elements comes first is not the library's order.
- `GaussianFinder.SortedCandidates`: the candidate comparator compares with a tolerance of 1e-6, so it is not a strict weak order. The contract states a permutation with no adjacent inversion, not full sortedness.
- `SorterC.EmitEntry` and `SorterCpp.EmitEntry`: the `fwrite` of the index record and of the word (lines 60-61 of `sorter.c`, lines 83-84 of `sorter.cpp`) are taken to write in full. Only the time-table write's count is a parameter. The source ignores the return values of those two writes, so a short write there would go unnoticed and leave the output truncated; the model does not capture that.
- `SorterC.SortBinaryData` and `SorterCpp.SortBinaryData`: require at most `MAX_ENTRIES` = 2^20 index records. The source never checks this. `sorter.c` fills `words[MAX_ENTRIES]` for every record (lines 40-43). `sorter.cpp` reads all records into `database[MAX_ENTRIES]` (line 38) and fills `words[MAX_ENTRIES]` (lines 46-59). A main file with more records overflows these fixed arrays, and the model excludes that case.
- `SorterCpp.SortBinaryData`: requires every index record's `time_length` to be at most 509. The writer produces tables of up to 520 rows, and lines 65 and 77 of `sorter.cpp` read `time_length` rows unchecked into `struct time_entry table[MAX_YEARS]` of 509 entries. A longer table overflows that stack buffer, and the model excludes this case.
- `DictionaryReader.Reader.LoadFrequencies`: takes the totals line already cut into (year, match count, page count, volume count) chunks. It does not model the `strtok` tokenising on `" ,\t"` and `",\t"`, the `atoi` and `strtoull` conversions, the cut that `fgets` makes at `BUFFER_SIZE` = 11000 bytes, or the NULL token that a trailing incomplete quadruple hands to `strtoull`. It also requires every year to lie in [1500, 2008]; the source stores at `year - MIN_YEAR` without a check.
- `DictionaryWriter.Writer.Flush`: a short `fwrite` count is taken to mean that the stream's error indicator is set, as section 7.21.8.2 of ISO C11 allows a short count only on a write error. So every short write of the record, the word or the rows exits. The bytes a failed write puts out are modelled as the first elements it can take.
- `DictionaryWriter.Writer.Update`: requires a non-empty word of at most 1008 bytes, counts that fit their C types and room in the time table. The source checks none of these. `strtok` never yields an empty token, but with an empty word the flush would report 0 bytes although it wrote rows.
- `StoreCodec` fixes the little-endian, naturally aligned x86 layout, which is the one the Python reader's format strings read.
- Python exceptions are `Result` values. Only the ones the scripts raise on their inputs are modelled: `IndexError`, `KeyError`, the `ValueError` of `int()` and `float()`, `struct.error`, and the `ZeroDivisionError` of a year whose total match count is 0 and of a smoothing window in [-254, -1].
- `Zeitgeist`: dict iteration follows insertion order.
- `Galley`: the model iterates over sets and dicts in an arbitrary order, so the properties hold for every order.
- `process_topics` and the `main` functions of the scripts, the command-line handling, directory listing and file opening: the model takes file contents and listings as its inputs.
- `build_disambiguation_graph`, `build_chains` and the `find_*siblings` helpers of `galley.py`: they query WordNet, which is abstract here. The scoring and printing at the end of the file is also left out.
- `Galley.LexicalChainer.AddEdge`: requires distinct endpoint senses. Removing a self-loop in the source would raise `KeyError`.
- `Galley.LexicalChainer.Trim` and `Galley.LexicalChainer.TrimWord`: prove that each list ends with at most 100 edges, and that only edges are removed. They do not prove that a list of more than 100 edges ends empty: removing earlier lists also removes reverse edges, so a list can shrink below the limit before its turn.
- `Views`: the Django request parsing, the JSON response and the rescaling of the series are left out.
- The progress output of the sorters and drivers (`printf` of percentages and counters) is left out. `destroy_dictfiles` and `destroy_dictreader` appear only as flags saying which resources were torn down.
