# geowrangler raster zonal statistics, modelled in Dafny

`geowrangler/raster_zonal_stats.py` computes zonal statistics of a raster over vector
areas of interest through one of two engines:

- `create_raster_zonal_stats` wraps `rasterstats.zonal_stats`. It cleans the caller's
  `extra_args` in place: it removes `stats`, `geojson_out`, `categorical`,
  `categorical_map`, `prefix` and `add_stats`, and fills a `nodata` of `None` with the
  raster's own nodata value. It calls the engine with the statistics of one
  aggregation under the prefix `<column>_`, then renames the engine's columns to the
  requested output names.
- `create_exactextract_zonal_stats` wraps `exactextract.exact_extract`. It decides whether
  the engine's answer is returned raw. It drops aggregation specs whose band is above the
  raster's band count, asks the engine once for the sorted union of all requested
  statistics, and renames single-band columns to `band_1_<func>`. It then copies every
  result column `band_<band>_<func>` under its output name: the default name, `<prefix>_<func>`,
  or an explicit list. Finally it selects those output columns in spec order.

The model keeps the configuration and naming logic, and reduces each data frame to its
column names:

- `Args` holds `extra_args` as a Python dict edited in place: a class whose `entries` map
  `pop` and item assignment reassign. Both entry points take it by reference and edit it as
  the source does.
- `Text` holds Python's decimal formatting of integers, Python's ordering of strings,
  and `sorted` on a set of strings.
- `RasterStats` models the rasterstats entry point.
- `ExactExtractPlan` models the exactextract planning: the raw-result decision, spec
  validation, the operation list and the naming policy.
- `ExactExtractResults` models the result table and the column copying and selection.
  It maps each column name to the engine statistic whose values the column holds.
- `Wrappers` holds `Option` and `Result`.

The engines, `rasterio.open` and the band count are parameters.

Each entry point is modelled as written: `RasterStats.CreateRasterZonalStats` and
`ExactExtractResults.CreateExactExtractZonalStats`. Beside each is a corrected entry point
for the defects listed under Findings: `RasterStats.CreateRasterZonalStatsCorrected` and
`ExactExtractResults.CreateExactExtractZonalStatsCorrected`. Rows below that describe a
corrected member say so.

## Model

| member | source | states |
|---|---|---|
| Args.ArgDict.Pop | geowrangler/raster_zonal_stats.py:50-51 | `pop` returns the key's value and removes exactly that key |
| Args.ArgDict.Put | geowrangler/raster_zonal_stats.py:72 | item assignment sets one key and leaves the others |
| Text.IntToString | geowrangler/raster_zonal_stats.py:241 | `f"{band}"` is a minus sign exactly for a negative band, followed by digits |
| Text.NatToString | geowrangler/raster_zonal_stats.py:241 | the decimal text of a natural number is non-empty and all digits |
| Text.IntToStringRoundTrip | geowrangler/raster_zonal_stats.py:241 | the `f"{band}"` text of any integer parses back to that integer |
| Text.Below | geowrangler/raster_zonal_stats.py:217 | Python's string `<`, code point by code point; a string is never below itself |
| Text.BelowTransitive | geowrangler/raster_zonal_stats.py:217 | Python's string `<` is transitive |
| Text.BelowTotal | geowrangler/raster_zonal_stats.py:217 | any two different strings are ordered one way or the other |
| Text.Least | geowrangler/raster_zonal_stats.py:217 | a non-empty set of strings has an element before all the others |
| Text.SortedStrings | geowrangler/raster_zonal_stats.py:217 | `sorted(set)` is strictly ascending and holds exactly the set's elements, each once |
| Text.SortedUnique | geowrangler/raster_zonal_stats.py:217 | two strictly ascending lists with the same elements are equal, so `sorted` has one answer |
| RasterStats.Normalised | geowrangler/raster_zonal_stats.py:50-72 | the stripped keys are gone; `nodata` is present iff it was, and a `None` becomes the raster's nodata; every other key and value is kept |
| RasterStats.PopIfPresent | geowrangler/raster_zonal_stats.py:50-51 | the guarded `pop` removes the key when present and changes nothing else |
| RasterStats.StripKeys | geowrangler/raster_zonal_stats.py:50-65 | the six guarded removals leave the dict minus exactly those six keys |
| RasterStats.FillNodata | geowrangler/raster_zonal_stats.py:67-72 | a `nodata` of `None` is replaced by the raster's nodata; otherwise the dict is unchanged |
| RasterStats.NormaliseExtraArgs | geowrangler/raster_zonal_stats.py:50-72 | the caller's dict, edited in place, becomes its normalised form |
| RasterStats.DefaultExtraArgs | geowrangler/raster_zonal_stats.py:32-38 | the default has `nodata=None`, none of the stripped keys, and no keyword the call spells out |
| RasterStats.SharedDefaultCalls | geowrangler/raster_zonal_stats.py:30-72 | two calls of the entry point without `extra_args` share one default dict: the second engine call still receives the first raster's nodata |
| RasterStats.CallArgs | geowrangler/raster_zonal_stats.py:50-91 | corrected: the engine's keyword arguments are the normalised copy with `category_map` also stripped, and the caller's dict is left alone |
| RasterStats.SharedDefaultCallsCorrected | geowrangler/raster_zonal_stats.py:30-38 | corrected: through the corrected entry point, each default call receives its own raster's nodata |
| RasterStats.Clashes | geowrangler/raster_zonal_stats.py:82-91 | the keywords that reach the call twice are exactly the dict's keys that the call also spells out |
| RasterStats.CategoryMapClashes | geowrangler/raster_zonal_stats.py:56-91 | a caller's `category_map` survives normalisation and reaches the call twice |
| RasterStats.ClashesOnlyOnInputs | geowrangler/raster_zonal_stats.py:82-91 | after the corrected normalisation only `vectors` or `raster` can reach the call twice, and nothing does when the caller passes neither |
| RasterStats.RenameMap | geowrangler/raster_zonal_stats.py:77-81 | `renamed_columns` never maps a name to itself |
| RasterStats.RenameMapKeys | geowrangler/raster_zonal_stats.py:77-81 | a key is in `renamed_columns` iff it is `<prefix><func>` for some position whose output name differs |
| RasterStats.RenameMapValue | geowrangler/raster_zonal_stats.py:77-81 | a key maps to the output name of the last position that renames it |
| RasterStats.RenameColumns | geowrangler/raster_zonal_stats.py:94 | `rename` keeps the number of columns, replaces each mapped label by its new name and keeps every other label |
| RasterStats.RenamedEngineColumnsAreOutputs | geowrangler/raster_zonal_stats.py:77-94 | with distinct statistics, renaming the engine's `<column>_<func>` columns gives exactly the output names, in order |
| RasterStats.CreateRasterZonalStats | geowrangler/raster_zonal_stats.py:22-94 | the caller's dict is normalised in place; the call fails with exactly the keywords that reach it twice, among them a caller's `category_map`; otherwise the engine receives the statistics, the prefix `<column>_` and the edited dict, and the kept columns are the renamed engine columns, equal to the outputs under the engine's convention |
| RasterStats.CreateRasterZonalStatsCorrected | geowrangler/raster_zonal_stats.py:22-94 | corrected: the caller's dict is left alone and the engine receives a normalised copy without `category_map`; only `vectors` or `raster` can reach the call twice; the kept columns are as in the entry point as written |
| ExactExtractPlan.WithDefaultOutput | geowrangler/raster_zonal_stats.py:186-187 | an absent `output` becomes `"pandas"`, everything else is kept, and neither the raw decision nor the `gdal` refusal changes |
| ExactExtractPlan.DecideRawResults | geowrangler/raster_zonal_stats.py:185-200 | fails with `ValueError` iff `output` is `"gdal"`; otherwise raw iff `output` is present and not `"pandas"`, or `include_cols` or `include_geom` is present |
| ExactExtractPlan.ValidAggs | geowrangler/raster_zonal_stats.py:107-121 | the kept specs are specs of the input with a band at most the band count, and no more of them than in the input |
| ExactExtractPlan.ValidateAggs | geowrangler/raster_zonal_stats.py:107-121 | the loop returns the kept specs, and the specs it skips with a warning are exactly those with a band above the band count |
| ExactExtractPlan.SkippedAggsSplit | geowrangler/raster_zonal_stats.py:112-118 | kept and skipped specs together account for every spec of the input |
| ExactExtractPlan.ValidAggsAppend | geowrangler/raster_zonal_stats.py:107-121 | each spec is kept or dropped on its own: validation distributes over concatenation |
| ExactExtractPlan.ValidAggsCount | geowrangler/raster_zonal_stats.py:107-121 | a spec with a valid band occurs as often as in the input, any other not at all |
| ExactExtractPlan.ValidAggsOrder | geowrangler/raster_zonal_stats.py:107-121 | the kept specs sit at strictly increasing positions of the input |
| ExactExtractPlan.ValidAggsIdempotent | geowrangler/raster_zonal_stats.py:107-121 | validating twice gives the result of validating once |
| ExactExtractPlan.ValidAggsKeepsAll | geowrangler/raster_zonal_stats.py:107-121 | nothing is dropped iff every band is at most the band count |
| ExactExtractPlan.RequestedFuncs | geowrangler/raster_zonal_stats.py:214-216 | the union of the specs' statistics: every requested statistic and nothing else |
| ExactExtractPlan.Operations | geowrangler/raster_zonal_stats.py:217 | `sorted(all_operations)` is strictly ascending and holds exactly the requested statistics |
| ExactExtractPlan.AllOperations | geowrangler/raster_zonal_stats.py:214-217 | the operation list is strictly ascending, and a statistic is in it iff some spec requests it |
| ExactExtractPlan.OperationsHaveNoDuplicates | geowrangler/raster_zonal_stats.py:214-217 | the engine is asked for each statistic once |
| ExactExtractPlan.BandColumn | geowrangler/raster_zonal_stats.py:241 | `band_<n>_<func>` starts with `band_` and ends with the statistic |
| ExactExtractPlan.ResultColumns | geowrangler/raster_zonal_stats.py:241 | one result column per statistic, and different statistics get different columns |
| ExactExtractPlan.OutputNames | geowrangler/raster_zonal_stats.py:241-255 | with no output, the names are the result columns; with a prefix `p`, name `i` is `p_` followed by statistic `i`; with a list, the list itself; the assertion fails iff the list's length differs from `func`'s |
| ExactExtractPlan.BandColumnParts | geowrangler/raster_zonal_stats.py:241 | a default name `band_<n>_<func>` reads back to its band number and statistic |
| ExactExtractPlan.OutColumns | geowrangler/raster_zonal_stats.py:239-260 | `out_cols` has one name per requested statistic, and can only fail with a length mismatch |
| ExactExtractPlan.OutColumnsShape | geowrangler/raster_zonal_stats.py:239-260 | `out_cols` has one name per requested statistic, and fails only with a length mismatch, iff some spec's list has the wrong length |
| ExactExtractResults.EngineTable | geowrangler/raster_zonal_stats.py:226 | the engine's table has exactly the engine's columns, each holding its own statistic |
| ExactExtractResults.SingleBandRename | geowrangler/raster_zonal_stats.py:229-231 | on a single band every engine column `c` becomes the default name `band_1_c` |
| ExactExtractResults.ResultTable | geowrangler/raster_zonal_stats.py:225-233 | the post-processing starts from the engine's columns, each holding its own statistic, renamed to `band_1_<c>` exactly when the band count is 1 |
| ExactExtractResults.Loc | geowrangler/raster_zonal_stats.py:263 | `loc[:, cols]` returns the named columns in the order named, each holding a statistic of the table |
| ExactExtractResults.AssignColumns | geowrangler/raster_zonal_stats.py:258-259 | the in-place assignments keep every column, add every output name, and only copy statistics already in the table |
| ExactExtractResults.AssignAll | geowrangler/raster_zonal_stats.py:240-260 | the in-place loop extends `out_cols` by each spec's output names in spec order, keeps them all in the table, and only copies statistics already in it |
| ExactExtractResults.SelectionAsWritten | geowrangler/raster_zonal_stats.py:239-263 | every column the source selects holds one of the engine's statistics |
| ExactExtractResults.AssignSpecColumns | geowrangler/raster_zonal_stats.py:258-259 | the inner loop as written performs the assignments pair by pair on the edited table |
| ExactExtractResults.SelectOutputColumnsAsWritten | geowrangler/raster_zonal_stats.py:239-263 | the loops as written compute the as-written selection |
| ExactExtractResults.SelectionAsWrittenLayout | geowrangler/raster_zonal_stats.py:239-263 | as written, a successful selection carries the `out_cols` names, each spec's output names in spec order, one per requested statistic |
| ExactExtractResults.SelectionAsWrittenSucceeds | geowrangler/raster_zonal_stats.py:252-259 | as written, the selection succeeds when every list length is right and every result column is in the engine's table |
| ExactExtractResults.AssignAllSucceeds | geowrangler/raster_zonal_stats.py:240-260 | the in-place loop succeeds when lengths are right and every result column is already in the table |
| ExactExtractResults.AssignColumnsSucceeds | geowrangler/raster_zonal_stats.py:258-259 | the in-place assignments succeed when every result column is in the table |
| ExactExtractResults.SelectionAsWrittenFailure | geowrangler/raster_zonal_stats.py:252-259 | as written, a failure is a spec's length-mismatch assertion or a `KeyError` for a result column the engine's table lacks |
| ExactExtractResults.AssignAllFailure | geowrangler/raster_zonal_stats.py:240-260 | a failure of the in-place loop is a length mismatch or a result column missing from the table it started with |
| ExactExtractResults.AssignColumnsFailure | geowrangler/raster_zonal_stats.py:258-259 | a failed assignment names a result column that was not in the table |
| ExactExtractResults.SwappedNamesLoseAColumn | geowrangler/raster_zonal_stats.py:258-259 | as written, output names `band_1_sum`, `band_1_mean` for `mean`, `sum` give two columns holding the mean |
| ExactExtractResults.SwapTableIsSingleBandAnswer | geowrangler/raster_zonal_stats.py:225-231 | the example's table is the single-band result table for an engine answering `["mean", "sum"]` |
| ExactExtractResults.SwappedNamesKeepBothColumns | geowrangler/raster_zonal_stats.py:238-259 | corrected: copied from the engine's table, the same spec keeps the mean and the sum |
| ExactExtractResults.Selection | geowrangler/raster_zonal_stats.py:238-263 | corrected: the selection with every copy read from the engine's table holds only the engine's statistics |
| ExactExtractResults.SelectOutputColumns | geowrangler/raster_zonal_stats.py:238-263 | corrected: the copy-and-select loops compute the corrected selection, with each copy read from the engine's table |
| ExactExtractResults.SelectionLayout | geowrangler/raster_zonal_stats.py:238-263 | corrected: a successful corrected selection carries the `out_cols` names, one per requested statistic, and column `k` holds the `k`-th result column |
| ExactExtractResults.SelectionNames | geowrangler/raster_zonal_stats.py:260-263 | corrected: the selected column names are `out_cols`, spec by spec |
| ExactExtractResults.SelectionSources | geowrangler/raster_zonal_stats.py:238-263 | corrected: each selected column holds the statistic of its result column |
| ExactExtractResults.CopyColumnsLayout | geowrangler/raster_zonal_stats.py:238-259 | corrected: one spec's copies carry its output names and each holds its own result column |
| ExactExtractResults.SelectionSucceeds | geowrangler/raster_zonal_stats.py:252-259 | corrected: with list lengths right and every result column in the table, the selection succeeds |
| ExactExtractResults.CopyColumnsSucceeds | geowrangler/raster_zonal_stats.py:258-259 | corrected: copies succeed when every result column is in the table |
| ExactExtractResults.SelectionFailure | geowrangler/raster_zonal_stats.py:252-259 | corrected: a failure is a spec's length-mismatch assertion or a `KeyError` for a requested result column the table lacks |
| ExactExtractResults.CopyColumnsFailure | geowrangler/raster_zonal_stats.py:258-259 | corrected: a failed copy names a result column that is not in the table |
| ExactExtractResults.AsWrittenAgreesWithoutRenaming | geowrangler/raster_zonal_stats.py:239-263 | when no spec renames its columns, the as-written loop and the corrected one select the same columns |
| ExactExtractResults.AssignAllWithoutRenaming | geowrangler/raster_zonal_stats.py:240-260 | without renaming, the in-place loop leaves the table as the engine returned it |
| ExactExtractResults.AssignInPlace | geowrangler/raster_zonal_stats.py:258-259 | assigning each column to itself changes nothing, and fails exactly where copying fails |
| ExactExtractResults.CopiesWithoutRenaming | geowrangler/raster_zonal_stats.py:243-263 | without renaming, every selected column holds its own statistic |
| ExactExtractResults.NamesAreResultColumns | geowrangler/raster_zonal_stats.py:243-244 | without renaming, `out_cols` is the list of result columns |
| ExactExtractResults.CreateExactExtractZonalStats | geowrangler/raster_zonal_stats.py:185-263 | sets the default `output`; fails on `"gdal"`; otherwise returns the engine's answer to the sorted operations of the valid specs when raw, and otherwise the as-written selection of their output columns from the (single-band renamed) result table |
| ExactExtractResults.CreateExactExtractZonalStatsCorrected | geowrangler/raster_zonal_stats.py:185-263 | corrected: as the entry point, but the output columns are the corrected selection |
| ExactExtractResults.PostprocessingFollowsPolicyAsWritten | geowrangler/raster_zonal_stats.py:223-263 | as written, with an engine that follows its naming convention, bands of at least 1 and list lengths right, post-processing succeeds with `out_cols` as names, one per requested statistic |
| ExactExtractResults.PostprocessingFollowsPolicy | geowrangler/raster_zonal_stats.py:223-263 | corrected: under the same conditions, the corrected selection succeeds with `out_cols` as names and each column holding its own band and statistic |
| ExactExtractResults.ConventionCoversResults | geowrangler/raster_zonal_stats.py:223-241 | under the convention, every result column of a valid spec is in the result table |
| ExactExtractResults.RequestedFuncInTable | geowrangler/raster_zonal_stats.py:223-241 | under the convention, every requested statistic of a valid spec has its result column in the table |
| ExactExtractResults.ConventionNamesColumn | geowrangler/raster_zonal_stats.py:223-233 | under the convention, each band's column of a requested statistic is in the result table |

## Left out

- Reading the areas of interest, `rasterio.open`, the engines themselves, the join with the
  areas of interest by index, and `DataFrame.from_records` are not modelled. The engines are
  parameters: for rasterstats, the column names of its records; for exactextract, a
  function from the operation list and the options to the column names of its answer. The
  band count and the raster's nodata are parameters too.
- The statistic values themselves, which the engines compute in floating point, are not
  modelled. A column is known only by the statistic it holds, and rows are not modelled.
- Warnings are not modelled: the skipped-spec warning, the weights warning, the CRS
  mismatch warning and the raw-results warning. `ValidateAggs` returns the skipped specs
  in place of the warning.
- The `print` of the selected column names is not modelled.
- `_fix_agg`, `_expand_aggs` and `_fillnas` are not part of this model. `FixedAgg` stands
  for what `_fix_agg` returns, an aggregation whose output list is as long as its
  statistics (`WellFormed`). Filling missing values happens after the renaming.
- RasterStats.NormaliseExtraArgs: a `nodata` that is popped and assigned again moves to the
  end of the dict's insertion order. The model's dict is a map and has no order.
- ExactExtractPlan.OutputNames: an `output` key present with `None`, or with a list that
  holds non-strings, leaves `agg_out_cols` undefined or stale. Such specs are outside the
  model: the output is absent, a string prefix, or a list of strings.
- A spec's band and statistics are taken as an integer and a list of strings. `json.dumps`
  of a spec is not modelled.
- RasterStats.CreateRasterZonalStats: on a keyword clash the model's error carries every
  keyword that reaches the call twice; Python's `TypeError` names only the first duplicate it
  meets while merging `**extra_args`.
- The download helpers in `geowrangler/datasets/utils.py` are network and file I/O with a
  progress bar, and are not part of this model.

## Findings

| source | as written | input that shows it | evidently intended | confidence | as-written member | corrected member |
|---|---|---|---|---|---|---|
| geowrangler/raster_zonal_stats.py:30-72 | the default `extra_args` dict is built once, and the normalisation edits it in place | two calls without `extra_args`, on rasters with nodata `-1` and then `0`: the second call keeps `nodata=-1` | each call uses its own raster's nodata | not executed | RasterStats.SharedDefaultCalls | RasterStats.SharedDefaultCallsCorrected |
| geowrangler/raster_zonal_stats.py:58-88 | the normalisation strips `categorical_map`, but the engine's option, which the call spells out, is `category_map` | `extra_args={"category_map": {...}}`: `category_map` reaches the call twice and Python raises `TypeError` | the caller's category map is stripped like the other options the call sets | not executed | RasterStats.CategoryMapClashes | RasterStats.ClashesOnlyOnInputs |
| geowrangler/raster_zonal_stats.py:258-259 | each `results[o] = results[r]` reads the table as the earlier assignments left it | single band, `func=["mean", "sum"]`, `output=["band_1_sum", "band_1_mean"]`: both selected columns hold the mean | each output column is a copy of its own result column | not executed | ExactExtractResults.SwappedNamesLoseAColumn | ExactExtractResults.SwappedNamesKeepBothColumns |

The entry points as written show each defect:

- `RasterStats.CreateRasterZonalStats` edits the caller's dict and fails on `category_map`.
- `RasterStats.SharedDefaultCalls` runs that entry point twice on the default dict.
- `ExactExtractResults.CreateExactExtractZonalStats` selects through the in-place loop, so
  the swap example arrives at it through `ExactExtractResults.SwapTableIsSingleBandAnswer`.

The corrected entry points use the corrected members:

- `RasterStats.CreateRasterZonalStatsCorrected` normalises a copy and strips
  `category_map` (`RasterStats.CallArgs`).
- `ExactExtractResults.CreateExactExtractZonalStatsCorrected` copies every column from the
  engine's table (`ExactExtractResults.SelectOutputColumns`).
