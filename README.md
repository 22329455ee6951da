# Differential-privacy release layer of the telemetry benchmark

This project models the release layer of a telemetry analytics benchmark in Dafny. Twelve benchmark queries are first exported from the database as baseline CSV tables. Two mechanisms then release a noised copy of every baseline at each epsilon of a fixed grid:

- a Gaussian mechanism, giving (epsilon, delta)-differential privacy;
- a Laplace mechanism, giving pure epsilon-differential privacy.

Each release is scored against its baseline with one of five utility metrics. One summary row is written per (query, epsilon).

The model covers:

- **The configuration** (`DpConfig`, `dp_config.py`):
  - the epsilon grid, the delta constant and the base seed;
  - the sensitivity registry `QUERY_META`, as a map from query number to a `Meta` descriptor, with its iteration order;
  - the L1 and L2 sensitivity norms;
  - the Laplace and Gaussian scale functions, with their sentinels at epsilon = 0 and epsilon = inf;
  - the output-directory naming.
- **Tables** (`Tables`): a column-keyed `Table` value. The DataFrame the mechanisms copy and then update in place is a `Frame` object.
- **Post-processing** (`PostProcessing`, `post_process`): clamping, the percentage rescale and the per-row distribution rescale. Each step is a specification function plus an in-place method with its loop.
- **Noise injection** (`NoiseInjection`):
  - a seeded generator, reduced to a stream of standard samples and a position in it;
  - the column-by-column noise loop shared by both executors.
- **The executors** (`Mechanisms`): `apply_gaussian_dp`, which finds the query number by filename lookup, and `apply_laplace_dp`, which is handed it.
- **The metrics** (`Metrics`):
  - A: z-score top sets and their IoU;
  - B: TVD and MAE;
  - C: Kendall's tau and top-k overlap;
  - D: top-1 accuracy;
  - E: KL divergence per row;
  - the dispatcher with its "unknown metric type" record.
- **The release drivers** (`ReleaseDriver`): `run_gaussian_mechanism` and `run_laplace_mechanism`. Both follow the same scheme:
  - the nested loops run over registry entries and epsilons;
  - a missing baseline is skipped;
  - each epsilon gets a fresh generator seeded with `RANDOM_SEED + eps_idx`;
  - one summary row is appended per release.
- **The baseline exporter** (`ExportBaseline`, `export_baseline.py`):
  - the title-to-filename derivation;
  - the successful/failed bookkeeping of `export_queries`, with running the SQL and saving the CSV abstracted as one outcome per query.

The metric functions and `post_process` appear verbatim in both mechanism files, so they are modelled once. The rows below cite the Gaussian file, except that type D, type E and the dispatcher cite the Laplace file. The same code sits at these places in the other file:

| piece | Gaussian file | Laplace file |
|---|---|---|
| metric A | 75-123 | 76-107 |
| metric B | 126-158 | 110-136 |
| metric C | 161-191 | 139-165 |
| metric D | 194-222 | 168-190 |
| metric E | 225-254 | 193-217 |
| `post_process` | 262-290 | 224-250 |
| `compute_metric` | 297-321 | 257-274 |

The drivers are modelled once, parameterised by the mechanism. They differ in two ways:

- how the executor finds the query number;
- the summary `delta` field: `DEFAULT_DELTA` for the Gaussian mechanism, `"N/A"` for the Laplace mechanism.

## Inputs the model takes as parameters

These are passed in as parameters rather than modelled:

- **Library numerics.** `np.sqrt`, `np.log`, `scipy.stats.kendalltau` and `scipy.special.kl_div` are fields of a `Library` value. Two predicates state the only facts the proofs use:
  - `Sound(lib)`: `sqrt` is the non-negative square root; `ln(1) = 0`, and `ln` is positive above 1;
  - `KlSound(lib)`, required only by the KL lemmas: `kl_div(x, x) = 0`, and `kl_div(x, y) >= 0` on positive arguments.
- **The random generator.** `np.random.default_rng(seed)` becomes `seedStream(seed)`, the generator's stream of standard samples. A sample with scale `b` is `b` times the next standard sample.
- **The file system.**
  - The baseline directory is a map from CSV filename to table. The exporter's output directory starts from `dir0`, whatever earlier runs left there, since it is created with `exist_ok=True` and never cleared.
  - The export's database calls are a function from query number to an `Outcome`: the result table, or the exception message.
  - The connection attempt is a Boolean.
- **The registry.** Operations take the registry as a parameter and require `RegistryValid`. `DpConfig.ShippedRegistryValid` proves that the shipped `Registry` satisfies it.

## Model

The paths in the source column are relative to the repository root.

| member | source | states |
|---|---|---|
| DpConfig.UnitSensitivities | src/dp_mechanisms/dp_config.py:287-302 | The comprehension `{col: 1.0 for col in cols}` gives one entry per column, in order, each with sensitivity 1.0. |
| DpConfig.Filenames | src/dp_mechanisms/dp_gaussian_mechanism.py:354 | The filename list has one entry per key of the iteration order, and entry i is the filename of the i-th query. |
| DpConfig.ShippedRegistryValid | src/dp_mechanisms/dp_config.py:99-378 | The iteration order lists each key of `QUERY_META` exactly once. Every entry is well formed: its sensitivity keys are its `numeric_cols`, without repeats and with positive values; its z-score, percentage, rank and distribution selectors lie within `numeric_cols`, and the winner column does not; the metric type names a selector it declares. No two queries share a filename. |
| DpConfig.QueryOrderLists | src/dp_mechanisms/dp_config.py:99-378 | The registry's iteration order has no repeats, is strictly ascending, and lists exactly the registry's keys. |
| DpConfig.RegistryWellFormed | src/dp_mechanisms/dp_config.py:99-378 | Every registry entry satisfies `WellFormedMeta`: distinct columns, sensitivities covering the noise-bearing columns with positive values, and selectors placed. |
| DpConfig.Columns8Distinct | src/dp_mechanisms/dp_config.py:249-303 | Query 8's 30 noise-bearing columns, and its 30 sensitivity keys in dictionary order, contain no repeats. |
| DpConfig.Keys8 | src/dp_mechanisms/dp_config.py:287-302 | The merged dictionary of query 8 is keyed by the 28 web categories followed by `number_of_systems` and `days`. |
| DpConfig.FilenamesDistinct | src/dp_mechanisms/dp_config.py:99-378 | The twelve registry filenames are pairwise distinct. |
| DpConfig.GetL1Sensitivity | src/dp_mechanisms/dp_config.py:385-390 | The L1 sensitivity is non-negative, and zero when the sensitivity dictionary is empty. |
| DpConfig.L1NormAppend | src/dp_mechanisms/dp_config.py:390 | The L1 norm is the running sum of the declared sensitivities: adding one entry adds its value. |
| DpConfig.SensitivityAtMostL1 | src/dp_mechanisms/dp_config.py:385-390 | No single column's sensitivity exceeds the L1 sensitivity of its query. |
| DpConfig.SensitivityKeysCoverColumns | src/dp_mechanisms/dp_config.py:99-378 | In a well-formed entry, a column has a sensitivity exactly when it is one of the `numeric_cols`. |
| DpConfig.L1OfQuery6 | src/dp_mechanisms/dp_config.py:203-216 | Query 6 declares no sensitivity, so its L1 sensitivity is 0. |
| DpConfig.L2Norm | src/dp_mechanisms/dp_config.py:398-399 | The L2 norm is non-negative, its square is the sum of the squared sensitivities, and it is 0 for an empty dictionary. |
| DpConfig.GetL2Sensitivity | src/dp_mechanisms/dp_config.py:393-399 | The L2 sensitivity of a query is non-negative, squares to the sum of its squared sensitivities, and is 0 for an empty dictionary. |
| DpConfig.L2OfQuery6 | src/dp_mechanisms/dp_config.py:203-216 | Query 6's L2 sensitivity is 0. |
| DpConfig.GaussianSigma | src/dp_mechanisms/dp_config.py:406-419 | Sigma is 0 at epsilon = inf and the infinite sentinel at epsilon = 0. Otherwise sigma times epsilon equals l2 times sqrt(2 ln(1.25 / delta)). |
| DpConfig.LaplaceScale | src/dp_mechanisms/dp_config.py:422-434 | The scale is 0 at epsilon = inf and the infinite sentinel at epsilon = 0. Otherwise b times epsilon equals l1. |
| DpConfig.LaplaceScaleExample | src/dp_mechanisms/dp_config.py:422-434 | laplace_scale(5.0, 2.5) is exactly 2.0. |
| DpConfig.GaussianSigmaExample | src/dp_mechanisms/dp_config.py:406-419 | gaussian_sigma(2.0, 1.0, 1e-6) is 2 sqrt(2 ln(1.25 / 1e-6)). |
| DpConfig.GaussianFactorPositive | src/dp_mechanisms/dp_config.py:419 | The factor sqrt(2 ln(1.25 / delta)) is positive for every delta in (0, 1.25). |
| DpConfig.DefaultDeltaFactorPositive | src/dp_mechanisms/dp_config.py:55 | The configured delta 1e-6 gives a positive Gaussian factor. |
| DpConfig.LaplaceScaleLinearAndMonotone | src/dp_mechanisms/dp_config.py:434 | For finite epsilon > 0, the Laplace scale is additive and homogeneous in the sensitivity, and non-increasing in epsilon. |
| DpConfig.GaussianSigmaLinearAndMonotone | src/dp_mechanisms/dp_config.py:419 | For finite epsilon > 0 and delta in (0, 1.25), sigma is additive and homogeneous in the sensitivity, and non-increasing in epsilon. |
| DpConfig.EpsilonGridOrdered | src/dp_mechanisms/dp_config.py:64-76 | The epsilon grid is strictly increasing, its finite values are positive, and inf occurs exactly at its last position. |
| DpConfig.ReprReal | src/dp_mechanisms/dp_config.py:463 | `str` of a finite float never starts with `i`, so no finite label can be `inf`. |
| DpConfig.EpsStringInf | src/dp_mechanisms/dp_config.py:463 | The epsilon label is `inf` exactly for epsilon = inf. |
| DpConfig.EpsilonLabels | src/dp_mechanisms/dp_config.py:463 | The grid labels include `0.01`, `1.0`, `50.0` and `inf`, as Python's `str` writes them. |
| DpConfig.BuildOutputDir | src/dp_mechanisms/dp_config.py:441-464 | The function succeeds exactly when the mechanism is gaussian or laplace and the database is mini or full. On success the leaf is `eps_inf` exactly when epsilon = inf, and `eps_` followed by `str(epsilon)` otherwise. |
| ReleaseDriver.OutputDirBuilt | src/dp_mechanisms/dp_gaussian_mechanism.py:463 | When the database name is one the command line accepts (`mini` or `full`), the driver's `build_output_dir` call succeeds at every epsilon. |
| DpConfig.OutputBasesDistinct | src/dp_mechanisms/dp_config.py:458-461 | Two accepted calls share a base directory exactly when they name the same mechanism and database: four pairs, four bases. |
| Tables.Frame.Value | src/dp_mechanisms/dp_gaussian_mechanism.py:345 | The frame's current contents, as a table value. |
| Tables.Frame.constructor | src/dp_mechanisms/dp_laplace_mechanism.py:372 | A frame built from a table holds that table. |
| Tables.Frame.Copy | src/dp_mechanisms/dp_gaussian_mechanism.py:345 | `DataFrame.copy()` returns a fresh frame with the same contents and leaves the original alone. |
| PostProcessing.ClampValues | src/dp_mechanisms/dp_gaussian_mechanism.py:273 | `clip(lower=0.0)` keeps the length. It leaves non-negative values alone, sends negative values to 0, and yields a non-negative column. |
| PostProcessing.Clamped | src/dp_mechanisms/dp_gaussian_mechanism.py:270-273 | Clamping keeps the rows and the column names. Every listed numeric column becomes non-negative, every unlisted column is kept, and numeric columns stay numeric. |
| PostProcessing.ClampIdempotent | src/dp_mechanisms/dp_gaussian_mechanism.py:273 | Clamping twice is clamping once. |
| PostProcessing.ClampStep | src/dp_mechanisms/dp_gaussian_mechanism.py:271-273 | One turn of the clamping loop clamps the next listed column and nothing else. |
| PostProcessing.ClampInPlace | src/dp_mechanisms/dp_gaussian_mechanism.py:270-273 | The in-place loop over `numeric_cols` leaves the frame equal to `Clamped` of its old contents. |
| PostProcessing.RescaledPct | src/dp_mechanisms/dp_gaussian_mechanism.py:275-280 | The percentage rescale keeps the rows, the column names and every column other than the percentage column, and keeps numeric columns numeric. |
| PostProcessing.RescalePctInPlace | src/dp_mechanisms/dp_gaussian_mechanism.py:275-280 | Step 2 in place leaves the frame equal to `RescaledPct` of its old contents. |
| PostProcessing.NormalizedRows | src/dp_mechanisms/dp_gaussian_mechanism.py:282-288 | The row rescale keeps the rows, the column names and every non-distribution column, and keeps numeric columns numeric. |
| PostProcessing.NormalizeStep | src/dp_mechanisms/dp_gaussian_mechanism.py:285-288 | One turn of the row loop rescales row k exactly when its distribution sum is positive. |
| PostProcessing.NormalizeRowsInPlace | src/dp_mechanisms/dp_gaussian_mechanism.py:282-288 | The in-place loop over the rows leaves the frame equal to `NormalizedRows` over all of its rows. |
| PostProcessing.NormalizedRowValues | src/dp_mechanisms/dp_gaussian_mechanism.py:285-288 | After the loop has passed row i, that row holds its values as percentages of their sum when the sum was positive, and is unchanged otherwise. |
| PostProcessing.BeforeRowStep | src/dp_mechanisms/dp_gaussian_mechanism.py:270-280 | Steps 1 and 2 keep the rows and the column names. They leave the distribution columns numeric and the table well formed. |
| PostProcessing.PostProcessed | src/dp_mechanisms/dp_gaussian_mechanism.py:262-290 | `post_process` keeps the rows and the column names, keeps numeric columns numeric, and returns a well-formed table. |
| PostProcessing.PostProcess | src/dp_mechanisms/dp_gaussian_mechanism.py:262-290 | The method copies the noisy frame, so the input is untouched. It runs the three in-place steps and returns a fresh frame holding `PostProcessed` of the input. |
| PostProcessing.DeclaredColumnsNonNegative | src/dp_mechanisms/dp_gaussian_mechanism.py:262-290 | After post-processing, every declared numeric column the table carries is numeric and non-negative. |
| PostProcessing.BeforeRowStepNonNegative | src/dp_mechanisms/dp_gaussian_mechanism.py:270-280 | After steps 1 and 2, every declared numeric column the table carries is non-negative. |
| PostProcessing.NormalizedNonNegative | src/dp_mechanisms/dp_gaussian_mechanism.py:282-288 | The row rescale keeps a non-negative numeric column non-negative. |
| PostProcessing.PctColumnSumsTo100 | src/dp_mechanisms/dp_gaussian_mechanism.py:275-280 | If the present percentage column has a positive clamped total, it sums to 100 after post-processing. Otherwise it keeps its clamped values. |
| PostProcessing.DistRowsSumTo100 | src/dp_mechanisms/dp_gaussian_mechanism.py:282-288 | A row whose distribution values sum to a positive number sums to 100 afterwards. Any other row is left with the values step 3 found. |
| PostProcessing.PostProcessIdentity | src/dp_mechanisms/dp_laplace_mechanism.py:224-250 | Over the reals, post-processing is the identity on a table whose declared columns are non-negative, whose percentage column sums to 100 and whose distribution rows each sum to 100. |
| NoiseInjection.Rng.constructor | src/dp_mechanisms/dp_gaussian_mechanism.py:444 | A freshly seeded generator starts at position 0 of its stream. |
| NoiseInjection.Rng.Draw | src/dp_mechanisms/dp_gaussian_mechanism.py:365 | Drawing `size` samples returns the next `size` stream values, scaled, and advances the position by `size`. |
| NoiseInjection.Samples | src/dp_mechanisms/dp_laplace_mechanism.py:315 | A draw of `size` samples has length `size`. |
| NoiseInjection.AddToColumn | src/dp_mechanisms/dp_gaussian_mechanism.py:366 | `df[col] + noise` adds sample i to row i of that column, keeps it numeric, and leaves every other column, the rows and the column names as they were. |
| NoiseInjection.CountPresent | src/dp_mechanisms/dp_gaussian_mechanism.py:361-363 | The number of listed columns the table carries is between 0 and the list's length. It equals the length when all are present and 0 when none is. |
| NoiseInjection.ConsumedBlocks | src/dp_mechanisms/dp_gaussian_mechanism.py:361-366 | The loop consumes one block of `rows` samples per present column visited. |
| NoiseInjection.InjectedFrom | src/dp_mechanisms/dp_gaussian_mechanism.py:361-366 | The rest of the noise loop keeps the rows and the column names, keeps the table well formed, and keeps the listed columns numeric. |
| NoiseInjection.Injected | src/dp_mechanisms/dp_gaussian_mechanism.py:361-366 | The noise loop keeps the rows and the column names, and keeps the listed present columns numeric. |
| NoiseInjection.InjectedFromStep | src/dp_mechanisms/dp_gaussian_mechanism.py:361-366 | One iteration adds the next block of samples to a present column, and skips a missing one without drawing. |
| NoiseInjection.AddNoise | src/dp_mechanisms/dp_gaussian_mechanism.py:361-366 | The in-place loop leaves the frame equal to `Injected` of its old contents. It advances the generator by exactly (present declared columns) times rows samples. |
| NoiseInjection.InjectedKeepsUnlisted | src/dp_mechanisms/dp_laplace_mechanism.py:311-316 | A column outside the declared list is left exactly as it was. |
| NoiseInjection.InjectedKeepsNumeric | src/dp_mechanisms/dp_laplace_mechanism.py:311-316 | A numeric column stays numeric through the noise loop. |
| NoiseInjection.InjectedColumnFrom | src/dp_mechanisms/dp_gaussian_mechanism.py:361-366 | In a duplicate-free list, row i of the j-th listed column receives sample i of the block after those taken by the present columns visited before it. |
| NoiseInjection.InjectedColumn | src/dp_mechanisms/dp_gaussian_mechanism.py:361-366 | Column order from the start of the list. Row i of the j-th declared column, if present, becomes its true value plus the scaled standard sample at position `pos + (present columns before j) * rows + i`. |
| NoiseInjection.DrawCount | src/dp_mechanisms/dp_gaussian_mechanism.py:361-366 | A release draws at most (declared columns) times rows samples, and exactly that many when every declared column is present. |
| Mechanisms.FirstIndex | src/dp_mechanisms/dp_gaussian_mechanism.py:354 | `list.index(x)` returns a position holding x, and no earlier position holds x. |
| Mechanisms.FirstIndexOfDistinct | src/dp_mechanisms/dp_gaussian_mechanism.py:354 | In a list without repeats, `index` finds each element at its own position. |
| Mechanisms.QueryNumberOf | src/dp_mechanisms/dp_gaussian_mechanism.py:353-355 | The filename lookup returns a registry key, listed in the iteration order, whose entry carries the filename. |
| Mechanisms.FilenameLookupRecoversQuery | src/dp_mechanisms/dp_gaussian_mechanism.py:353-355 | In a valid registry, the lookup applied to a query's own filename returns that query's number. |
| Mechanisms.GaussianScaleCalibrated | src/dp_mechanisms/dp_gaussian_mechanism.py:353-356 | The Gaussian executor's sigma times epsilon is the L2 sensitivity of the looked-up query times sqrt(2 ln(1.25 / delta)). |
| Mechanisms.NoisyRelease | src/dp_mechanisms/dp_gaussian_mechanism.py:361-369 | Noise followed by post-processing keeps the rows and the column names. |
| Mechanisms.GaussianRelease | src/dp_mechanisms/dp_gaussian_mechanism.py:328-371 | The Gaussian release keeps the rows and the column names. |
| Mechanisms.ApplyGaussianDp | src/dp_mechanisms/dp_gaussian_mechanism.py:328-371 | At epsilon = inf or with no declared columns, the result equals the input and draws nothing. Otherwise the noisy frame is `GaussianRelease` of the input with sigma from the looked-up query. The generator then advances by exactly (present declared columns) times rows. The input frame is untouched. |
| Mechanisms.LaplaceNoiseScale | src/dp_mechanisms/dp_laplace_mechanism.py:304-306 | The Laplace executor's scale b is non-negative, and b times epsilon is `get_l1_sensitivity(query_num)`. |
| Mechanisms.LaplaceRelease | src/dp_mechanisms/dp_laplace_mechanism.py:281-321 | The Laplace release keeps the rows and the column names, and is the input itself in the no-noise case. |
| Mechanisms.ApplyLaplaceDp | src/dp_mechanisms/dp_laplace_mechanism.py:281-321 | At epsilon = inf or with no declared columns, the result is an unchanged copy and draws nothing. Otherwise it is `LaplaceRelease` with scale `laplace_scale(get_l1_sensitivity(query_num), epsilon)`, and the generator advances by (present declared columns) times rows. The input frame is untouched. |
| Mechanisms.ReleaseKeepsUndeclared | src/dp_mechanisms/dp_laplace_mechanism.py:311-319 | Every column outside the declared columns is identical in a noisy release and in the true table. |
| Mechanisms.ReleaseNonNegative | src/dp_mechanisms/dp_gaussian_mechanism.py:361-369 | Every declared column a noisy release carries is numeric and non-negative, for either mechanism. |
| Mechanisms.ReleaseKeepsNumeric | src/dp_mechanisms/dp_gaussian_mechanism.py:361-369 | A numeric column of the true table is numeric in the release. |
| Metrics.AbsDiffs | src/dp_mechanisms/dp_gaussian_mechanism.py:145 | `np.abs(a[:n] - b[:n])` has n non-negative entries. |
| Metrics.Deviations | src/dp_mechanisms/dp_gaussian_mechanism.py:94 | The squared deviations from the mean have one entry per value. |
| Metrics.VariancePositive | src/dp_mechanisms/dp_gaussian_mechanism.py:93-94 | A column with at least two distinct values has positive population variance. |
| Metrics.ZScores | src/dp_mechanisms/dp_gaussian_mechanism.py:93-101 | The z-scores have one entry per value, and all are 0 for a column without two distinct values. |
| Metrics.TopSetOfZScores | src/dp_mechanisms/dp_gaussian_mechanism.py:93-106 | Without any square root, the z-score top set is the rows above the mean when the column has two distinct values. For a constant column it is empty. |
| Metrics.IoUBounds | src/dp_mechanisms/dp_gaussian_mechanism.py:108-110 | IoU lies in [0, 1] and is 1.0 exactly when the two top sets agree, which includes both being empty. |
| Metrics.LInf | src/dp_mechanisms/dp_gaussian_mechanism.py:113 | `l_inf_zscore` is NaN exactly when the lengths differ, and non-negative otherwise. |
| Metrics.MetricAOf | src/dp_mechanisms/dp_gaussian_mechanism.py:75-123 | The record is of type A. Its IoU lies in [0, 1] and is 1.0 exactly when the flagged sets agree. `l_inf` is NaN exactly on a length mismatch. The two set sizes are the sizes of the flagged sets. |
| Metrics.MetricAIdentical | src/dp_mechanisms/dp_gaussian_mechanism.py:75-123 | Identical columns score IoU 1.0 and `l_inf` 0. |
| Metrics.Normalized | src/dp_mechanisms/dp_gaussian_mechanism.py:140-141 | The defensive normalisation keeps the length. |
| Metrics.NormalizedDistribution | src/dp_mechanisms/dp_gaussian_mechanism.py:140-141 | A non-negative column with a positive total normalises to a non-negative column summing to 1. |
| Metrics.TvdBounds | src/dp_mechanisms/dp_gaussian_mechanism.py:143-145 | TVD lies in [0, 1] for non-negative columns with positive totals. |
| Metrics.Mae | src/dp_mechanisms/dp_gaussian_mechanism.py:148-150 | `mae_pct` is NaN exactly when there are no rows to compare, and non-negative otherwise. |
| Metrics.MetricBOf | src/dp_mechanisms/dp_gaussian_mechanism.py:126-158 | The record is of type B with a non-negative TVD. Its MAE is NaN exactly when there are no rows, and non-negative otherwise. |
| Metrics.MetricBIdentical | src/dp_mechanisms/dp_gaussian_mechanism.py:126-158 | Identical columns are at TVD 0, with MAE 0 when there is a row. |
| Metrics.BestFrom | src/dp_mechanisms/dp_gaussian_mechanism.py:180-181 | Returns the index of a largest value not yet taken among the first i, and nothing only when all of them are taken. |
| Metrics.TopK | src/dp_mechanisms/dp_gaussian_mechanism.py:180-181 | `set(np.argsort(-v)[:k])` has exactly k indices, all in range, and no index left out holds a larger value than one taken. |
| Metrics.TopKAccuracy | src/dp_mechanisms/dp_gaussian_mechanism.py:179-182 | `top_k_acc` lies in [0, 1] and is 1.0 when k = 0. |
| Metrics.MetricCOf | src/dp_mechanisms/dp_gaussian_mechanism.py:161-191 | The record is of type C with k = min(3, n). `top_k_acc` lies in [0, 1] and is 1.0 when k = 0. Tau is the library's Kendall tau on the first n values of each column. |
| Metrics.MetricCIdentical | src/dp_mechanisms/dp_gaussian_mechanism.py:161-191 | The same rank column gives top-k accuracy 1.0. |
| Metrics.MatchCount | src/dp_mechanisms/dp_laplace_mechanism.py:182 | The number of matching winners is at most n, and equals n when every row matches. |
| Metrics.MetricDOf | src/dp_mechanisms/dp_laplace_mechanism.py:168-190 | Top-1 accuracy is NaN exactly when either table lacks the winner column. Otherwise it lies in [0, 1], and it is 1.0 when n = 0. |
| Metrics.MetricDIdentical | src/dp_mechanisms/dp_laplace_mechanism.py:168-190 | An unchanged winner column scores exactly 1.0. |
| Metrics.Clipped | src/dp_mechanisms/dp_laplace_mechanism.py:205-206 | `np.clip(p, 1e-10, None)` keeps the length and puts every entry at or above 1e-10. |
| Metrics.ClippedDistribution | src/dp_mechanisms/dp_laplace_mechanism.py:205-206 | The clipped and normalised row has only positive entries. |
| Metrics.KlValues | src/dp_mechanisms/dp_laplace_mechanism.py:200-208 | `kl_values` has one entry per row of the shorter table. |
| Metrics.KlRowNonNegative | src/dp_mechanisms/dp_laplace_mechanism.py:208 | Under the library facts, each row's KL sum is non-negative. |
| Metrics.KlRowIdentical | src/dp_mechanisms/dp_laplace_mechanism.py:208 | Identical rows have KL sum 0. |
| Metrics.MetricEOf | src/dp_mechanisms/dp_laplace_mechanism.py:193-217 | Both fields are NaN exactly when there are no rows. Otherwise the mean is at most the maximum. |
| Metrics.ComputeMetricE | src/dp_mechanisms/dp_laplace_mechanism.py:193-217 | The row loop appending to `kl_values` returns exactly `MetricEOf`. |
| Metrics.MetricENonNegative | src/dp_mechanisms/dp_laplace_mechanism.py:193-217 | The mean and maximum KL divergence are non-negative whenever they are numbers. |
| Metrics.MetricEIdentical | src/dp_mechanisms/dp_laplace_mechanism.py:193-217 | A release whose distribution columns equal the true ones scores mean and maximum 0. |
| Metrics.MetricOf | src/dp_mechanisms/dp_laplace_mechanism.py:257-274 | Tags A to E yield the record of that metric type, in both directions. Any other tag yields the record (tag, "unknown metric type") rather than an exception. |
| Metrics.ComputeMetric | src/dp_mechanisms/dp_laplace_mechanism.py:257-274 | The dispatcher returns `MetricOf`. |
| ReleaseDriver.GridEpsilonPositive | src/dp_mechanisms/dp_laplace_mechanism.py:384 | Every finite epsilon the loop visits is positive, so the noisy branch never divides by zero. |
| ReleaseDriver.Release | src/dp_mechanisms/dp_laplace_mechanism.py:394-400 | One iteration's release keeps the rows and the column names, and is the baseline itself in the no-noise case. |
| ReleaseDriver.ReleaseScorable | src/dp_mechanisms/dp_laplace_mechanism.py:394-403 | A release of a usable baseline can be scored against it without raising. |
| ReleaseDriver.ReleaseScoresLike | src/dp_mechanisms/dp_laplace_mechanism.py:394-403 | A noisy release keeps every selector column the metric reads numeric. |
| ReleaseDriver.ApplyMechanism | src/dp_mechanisms/dp_gaussian_mechanism.py:447-453 | The executor call, dispatched on the mechanism with the configured delta, returns `Release` on a fresh generator's stream. |
| ReleaseDriver.ReleaseRow | src/dp_mechanisms/dp_laplace_mechanism.py:384-427 | One epsilon iteration uses a fresh generator seeded with `RANDOM_SEED + i` and returns `RowFor` for that iteration. |
| ReleaseDriver.QueryRows | src/dp_mechanisms/dp_laplace_mechanism.py:384-427 | A present query contributes one row per epsilon of the grid. |
| ReleaseDriver.RunQuery | src/dp_mechanisms/dp_laplace_mechanism.py:384-427 | The epsilon loop appends exactly `QueryRows`: one row per epsilon, in grid order. |
| ReleaseDriver.Blocks | src/dp_mechanisms/dp_laplace_mechanism.py:358-370 | A query has a block exactly when it is in the registry and its baseline file exists. |
| ReleaseDriver.SummaryStep | src/dp_mechanisms/dp_laplace_mechanism.py:358-372 | One step of the outer loop appends the visited entry's block, or nothing when its baseline is missing. |
| ReleaseDriver.VisitEntry | src/dp_mechanisms/dp_laplace_mechanism.py:358-427 | A pass over registry entry k extends the accumulated rows from the first k entries' blocks to the first k + 1 entries' blocks. |
| ReleaseDriver.RunMechanism | src/dp_mechanisms/dp_laplace_mechanism.py:353-427 | The nested loops return `all_summary_rows` as `Summary`: the blocks of the present queries, in registry order. |
| ReleaseDriver.RowsOfConcat | src/dp_mechanisms/dp_laplace_mechanism.py:358-427 | With a duplicate-free order, the rows of query q in the accumulated summary are its block when q has one, and none otherwise. |
| ReleaseDriver.RowsPerQuery | src/dp_mechanisms/dp_laplace_mechanism.py:358-427 | In the summary, a query whose baseline exists has exactly its `QueryRows`, one per epsilon. A query whose baseline is missing has none. |
| ReleaseDriver.QueryRowFields | src/dp_mechanisms/dp_laplace_mechanism.py:384-425 | Row i of a query carries its number, its file, the seed `RANDOM_SEED + i` and the baseline's row count. Its epsilon label is `inf` exactly at the last grid position. Its delta field is "N/A" for Laplace and 1e-6 for Gaussian. |
| ReleaseDriver.InfRowScoresBaseline | src/dp_mechanisms/dp_laplace_mechanism.py:301-302 | At epsilon = inf the row scores the baseline against itself. |
| ReleaseDriver.UnperturbedRowsScoreBaseline | src/dp_mechanisms/dp_laplace_mechanism.py:301-302 | A query with no declared columns is released unchanged at every epsilon, so every row scores the baseline against itself. |
| ReleaseDriver.WinnerRowsExact | src/dp_mechanisms/dp_laplace_mechanism.py:175-185 | A type D query with no declared columns reports top-1 accuracy 1.0 in every row when the baseline has the winner column. |
| ReleaseDriver.Query6RowsExact | src/dp_mechanisms/dp_config.py:203-216 | Query 6, the most popular browser per country, reports top-1 accuracy 1.0 at every epsilon. |
| ExportBaseline.LowerChar | src/export_baseline.py:357 | A lower-cased character is not an upper-case letter. |
| ExportBaseline.Lower | src/export_baseline.py:357 | `lower()` keeps the length. |
| ExportBaseline.Replace | src/export_baseline.py:357 | `replace` of one character by another keeps the length. |
| ExportBaseline.FileChar | src/export_baseline.py:357 | Each title character becomes a character that is neither a space, a slash nor an upper-case letter. Spaces and slashes become `_`, and any other character is lower-cased. |
| ExportBaseline.Stem | src/export_baseline.py:357 | The stem has the title's length and maps it character by character. |
| ExportBaseline.FilenameIsStem | src/export_baseline.py:357 | The three chained string passes equal the per-character stem followed by `.csv`. |
| ExportBaseline.FilenameShape | src/export_baseline.py:357 | A derived filename is four characters longer than the title and ends in `.csv`. It contains no space and no slash. Spaces and slashes become `_`, and every other character is the title's own, lower-cased. |
| ExportBaseline.FilenameCollision | src/export_baseline.py:357 | In general the derivation is not injective: "a b" and "A/B" give the same file. |
| ExportBaseline.TitlesMatchRegistry | src/export_baseline.py:44-320 | The twelve `QUERIES` titles have the registry's keys. Each is saved under the filename `QUERY_META` declares for the same number. |
| ExportBaseline.TitlesInjective | src/export_baseline.py:44-320 | No two of the twelve queries write the same CSV file. |
| ExportBaseline.ExportOrderSorted | src/export_baseline.py:352 | `sorted(QUERIES.keys())` is strictly ascending and lists exactly the keys. |
| ExportBaseline.FailedNumbers | src/export_baseline.py:376 | The query numbers of the failures, one per failure, in order. |
| ExportBaseline.ExportQueries | src/export_baseline.py:325-381 | Nothing is run when the connection fails, and the output directory keeps what it held. Otherwise the loop returns the log after every pass over the order. |
| ExportBaseline.ExportPartition | src/export_baseline.py:352-376 | Each visited query is in `successful` exactly when it was exported and in `failed` exactly when it raised, with its message. No other number appears, and the two lists together have one entry per pass. |
| ExportBaseline.ExportAscending | src/export_baseline.py:352-376 | Over an ascending order, both lists ascend. |
| ExportBaseline.ExportUntouched | src/export_baseline.py:32-35 | A file that no visited export writes is in the output directory exactly when it was there before the run, with the same table. |
| ExportBaseline.ExportWritten | src/export_baseline.py:357-368 | With distinct filenames, a visited query that was exported has its table under its filename. Any other entry's file is there exactly when it was there before the run, unchanged. |
| ExportBaseline.ExportComplete | src/export_baseline.py:352-376 | A complete export over an ascending order with distinct filenames reports every entry according to its outcome, in ascending order. An exported entry's file holds its table. A failed entry's file is whatever the directory held before the run. |
| ExportBaseline.ShippedFilenamesUnique | src/export_baseline.py:44-320 | The shipped titles in the shipped order have pairwise distinct filenames. |
| ExportBaseline.ShippedExport | src/export_baseline.py:325-381 | Once connected, the shipped export reports the queries in ascending number, each in the list its outcome calls for. An exported query's table is saved under the filename the registry declares. A query that raised leaves that file as it was before the run: absent when the directory was fresh. |

## Left out

- **Noise distributions and the DP guarantee.** The model neither states nor proves the distributions of `rng.normal` and `rng.laplace`, privacy itself, or the expected monotonicity of utility in epsilon. Noise is a stream of standard samples, one scaled sample per row and column.
- **Floating point.** All arithmetic is over the reals, so IEEE rounding, overflow and `round(x, 4)` / `round(x, 6)` in the metric records are not modelled. Metric records carry the unrounded values.
- **NaN values in tables.** `_ensure_series` drops NaNs and re-indexes. Tables are taken to be complete, so it is the identity here, and the NaN-carrying branches of pandas arithmetic are not modelled.
- **Library numerics.** `sqrt`, `ln`, `kendalltau` and `kl_div` are abstract, constrained only by `Sound` and `KlSound`. The magnitudes of z-scores, `l_inf`, tau and KL values are therefore not computed.
- **Tie order of `np.argsort`.** `Metrics.TopK` picks the lowest index among ties. The proved properties (size k, nothing left out is larger) hold for any tie order.
- **Type A, both columns empty:** `np.max` of an empty array raises there. `Metrics.MetricAOf` requires one of the two columns to have a row, and the driver's `Usable` precondition carries this.
- **Column-type and presence errors:**
  - `astype(float)` on a text column raises;
  - `df[dist_cols]` raises when a distribution column is missing from a frame with rows;
  - the metric functions raise when their selector column is missing.

  These raising paths are not modelled. `PostProcessing.Ready` and `ReleaseDriver.Usable` exclude them as preconditions.
- PostProcessing.Ready: requires the distribution columns to be numeric columns even when the frame has no rows. The source reads them only inside its row loops (`post_process` and metric E), so an empty frame with a missing distribution column does not raise there. The type-E clause of `Metrics.MetricInputs` is stronger in the same way.
- **Epsilon = 0 and delta = 0.** The executors do not guard against epsilon = 0 and would hand the generator an infinite scale, and delta = 0 divides by zero. The noisy branch of the executors requires finite epsilon > 0 and delta != 0. Every epsilon of the grid satisfies this (`ReleaseDriver.GridEpsilonPositive`). The scale functions themselves model the epsilon = 0 sentinel.
- **Column order of a DataFrame.** Tables are maps from column name to column. The order of columns in a written CSV is not modelled.
- **`group_col`.** It is informational and never read by the core, so it is omitted from `Meta`.
- **I/O and process plumbing:**
  - CSV reads and writes, `mkdir`, `print`, `argparse`, timestamps and OS path joining are not modelled.
  - The baseline directory is a map from filename to table.
  - The noisy CSV each iteration writes is not modelled.
  - The summary CSV is the returned row sequence.
  - The driver's call to `build_output_dir` is not modelled; its result only names where the noisy CSV goes. `DpConfig.BuildOutputDir` models the function itself. The driver takes any database name, which it only writes into the summary rows. The command line's `choices` restrict it to `mini` or `full`, and `ReleaseDriver.OutputDirBuilt` shows that the call's assertions hold for those names.
- **Output paths.** `DpConfig.BuildOutputDir` returns the symbolic pair (base directory name, `eps_` leaf), not the joined absolute path under the repository root.
- **`str(float)`.** `DpConfig.ReprReal` writes positional notation with up to 17 fraction digits. It does not model Python's shortest-repr algorithm or scientific notation, neither of which the grid's values need. `DpConfig.EpsilonLabels` proves the labels of three grid values plus `inf`.
- **`str.lower()`.** `ExportBaseline.LowerChar` lower-cases ASCII letters only. The titles are ASCII.
- **The database side of `export_queries`:**
  - the SQL text is not modelled;
  - the DuckDB connection is a Boolean;
  - executing a query and saving its CSV are one `Outcome` per query;
  - the closing summary printout is not modelled.
- **DuckDB loading scripts.** The database-creation scripts are not part of this model.
- **Literal forms.** Registry filenames and query titles are written as concatenations of their words: the same strings, in a form the verifier evaluates cheaply.
- **Frame identity.** `Tables.Frame.Copy` models `copy()` as a fresh object with equal contents. Pandas' copy-on-write and index objects are not modelled.
