# Electricity demand forecast: a verified model of the pipeline's pure logic

This project is a Dafny model of the data handling in the electricity-demand-forecast
repository. The model is functional: frames are sequences of rows under a list of labelled
columns, dates are proleptic Gregorian triples, and quartiles and means are exact `real`s.
Every failure the Python code can end in is a `Result` error named after its exception.

The model covers two groups of logic.

- **Feature pipeline** (`src/training/data_preprocessing.py`, `src/transform.py`):
  - the interquartile-range outlier filter;
  - calendar features (year, month, day, weekday name, quarter, ISO 8601 week, weekend flag);
  - the trailing rolling mean and deviation, with pandas' `dropna`;
  - the `random_feature` noise column;
  - the supervised transform (`lag` column, first row dropped, `period` removed);
  - one-hot encoding in fit mode and in transform mode;
  - pruning of the features ranked below the noise column;
  - fold averaging in `train`, and the assembly of the artifact bundle;
  - inference preparation against a saved schema.
- **Ingestion helpers** (`parser/db_store.py`, `src/eia_request.py`, `src/db_store.py`):
  - URL templating and placeholder substitution;
  - the two offset pagination plans;
  - the weather-payload transpose and the schema strings;
  - table set-up;
  - the connection guard of `DatabaseHandler`.

One module per component, one file per module:

- `base.dfy` (Base): `Option`, `Result` and the error kinds.
- `strings.dfy` (Strings): join/split, integer rendering and parsing, `str.replace`.
- `calendar.dfy` (Calendar): the Gregorian calendar and date features, ISO weeks, `strftime`.
- `sorting.dfy` (Sorting): a stable insertion sort by key.
- `frames.dfy` (Frames): frames, label lookup, `drop`, `df[schema]`, `rename`, column assignment.
- `outliers.dfy` (Outliers): type-7 quartiles and the IQR filter.
- `features.dfy` (Features): `extract_features` and the noise column.
- `supervised.dfy` (Supervised): `transform_to_supervised`.
- `encoding.dfy` (Encoding): the one-hot encoder and `encode_categorical`.
- `pruning.dfy` (Pruning): `remove_redundant_features`.
- `crossval.dfy` (CrossValidation): the time-series folds and the fold averages of `train`.
- `training.dfy` (Training): the training flow of `main` up to the artifact bundle.
- `inference.dfy` (Inference): `prepare_for_inference`.
- `urls.dfy` (Urls): `construct_url` and `generate_url`, and reading their fields back.
- `paging.dfy` (Paging): the page plans of both downloaders, and the request loops.
- `payloads.dfy` (Payloads): rows and schema strings from payloads, and table set-up.
- `dbhandler.dfy` (DbHandler): `parse_api_url` and the connection state of `DatabaseHandler`.

Two facts about the code shape the model:

- The encoder is scikit-learn's default `OneHotEncoder`, which raises on a category it did
  not learn; `Encoding.Apply` reports `UnknownCategory`.
- `main` saves four artifacts, `[ohe, features_to_drop, schema, most_recent_vals]`;
  `Training.Artifacts` has them in that order.

`src/transform.py` repeats the preprocessing functions of
`src/training/data_preprocessing.py`, with a `random_feature` column added after the NaN
drop. Each function is modelled once: `Features.ExtractFeaturesWithNoise` is the
`src/transform.py` variant. Apart from that column, the two files differ in three ways:
- the date-part casts: signed in one file, unsigned in the other;
- the `lag` cast: `int64` at data_preprocessing.py:128, `uint64` at transform.py:157;
- prefect's `@task`/`@flow` decorators, which wrap only the `src/transform.py` functions.

The two "## Left out" lines on casts and on prefect say what the model does with each.

## Model

| member | source | states |
|---|---|---|
| Outliers.FilterByIqr | src/training/data_preprocessing.py:48-58 | The output is an order-preserving subsequence of the input. For non-empty input, a row is kept exactly when its value lies in `[Q1 - 1.5 IQR, Q3 + 1.5 IQR]`, with the quartiles taken over the whole input, and every copy of a repeated in-band row is kept (the output's multiset is the input's, restricted to the band). Empty input gives empty output. |
| Outliers.KeepInBand | src/training/data_preprocessing.py:57-58 | The boolean mask keeps, in order, every row inside the band and only those rows, duplicates included: each row occurs in the output as often as in the input when in the band, and not at all otherwise. |
| Outliers.QuartilesOrdered | src/training/data_preprocessing.py:48-54 | Q1 <= Q3, so the IQR is not negative and the band contains `[Q1, Q3]`. |
| Outliers.Q1 | src/training/data_preprocessing.py:48 | No contract of its own: pandas' linear interpolation at position `(n - 1) / 4` of the sorted values. Outliers.QuartilesOrdered and Outliers.FilterByIqr state what the filter makes of it. |
| Outliers.Q3 | src/training/data_preprocessing.py:49 | No contract of its own: the interpolation at position `3 (n - 1) / 4`. Outliers.QuartilesOrdered and Outliers.FilterByIqr state what the filter makes of it. |
| Outliers.InterquartileRowsSurvive | src/training/data_preprocessing.py:48-58 | Every row whose value lies between the quartiles survives the filter. |
| Outliers.NonEmptyInputKeepsARow | src/training/data_preprocessing.py:48-58 | A non-empty input keeps at least one row. |
| Calendar.Quarter | src/training/data_preprocessing.py:91 | The quarter is in 1..4 and holds the date's month (months 3q-2 .. 3q). |
| Calendar.IsWeekend | src/training/data_preprocessing.py:95 | The flag is 0 or 1, and it is 1 exactly on Saturdays and Sundays. |
| Calendar.IsoWeek | src/training/data_preprocessing.py:92 | The week number lies in 1..53. |
| Calendar.IsoWeekIsThursdayRule | src/training/data_preprocessing.py:92 | The week computed from the ordinal day and weekday equals the ISO 8601 rule: a week belongs to the year holding its Thursday, and week 1 holds that year's first Thursday. |
| Calendar.PrevDay | src/db_store.py:73 | `today - timedelta(1)` is the day numbered one less; it overflows only on 0001-01-01. |
| Calendar.PrevDayWeekday | src/db_store.py:73 | The previous day falls on the previous weekday. |
| Calendar.FormatIso | src/db_store.py:74 | `strftime('%Y-%m-%d')` gives ten characters with dashes at positions 4 and 7. |
| Calendar.FormatIsoRoundTrip | src/db_store.py:74 | Parsing the formatted date gives the date back. |
| Features.DateCellsFit | src/training/data_preprocessing.py:77-95 | Each observation gives one cell per extracted column, each of the column's kind. |
| Features.ExtractFeatures | src/training/data_preprocessing.py:77-105 | The frame is well formed, with the date columns (and in training the two rolling columns) in pandas' order. Inference keeps one row per observation. Training keeps `n - w + 1` rows when `w >= 2` and `n >= w`, and none otherwise. |
| Features.DropNaSkipsLead | src/training/data_preprocessing.py:105 | When exactly the leading rows hold a NaN, `dropna` keeps all later rows, in order. |
| Features.DropNa | src/training/data_preprocessing.py:105 | Never more rows than the input, and as many exactly when no row holds a NaN. Features.DropNaSkipsLead states which rows survive. |
| Features.InferenceRowsAligned | src/training/data_preprocessing.py:97-105 | Without rolling statistics, row `k` holds the date features of observation `k`: nothing is dropped and order is kept. |
| Features.TrainingRowsAligned | src/training/data_preprocessing.py:97-105 | In training, row `k` holds the date features of observation `k + w - 1`; the first `w - 1` observations have no full window. |
| Features.RollingWindow | src/training/data_preprocessing.py:99-102 | Row `k`'s `rolling_mean` is the mean of its own value and the `w - 1` values before it. Its `rolling_std` is the supplied deviation of the same window. |
| Features.RollingMean | src/training/data_preprocessing.py:99 | No contract of its own. Features.RollingWindow states which window it averages, and Features.TrainingRowsAligned that the first `w - 1` rows are dropped as NaN. |
| Features.RollingStd | src/training/data_preprocessing.py:102 | No contract of its own. Features.RollingWindow states which window it measures, and Features.TrainingRowsAligned that the first `w - 1` rows are dropped as NaN. |
| Features.WithRandomFeature | src/transform.py:132-134 | Appends `random_feature` last, with one value in `[0, 1)` per row. Every other cell is unchanged. |
| Features.ExtractFeaturesWithNoise | src/transform.py:102-136 | The noise column follows the NaN drop: same rows, same cells, and `random_feature` appended to the columns. |
| Supervised.TransformToSupervised | src/training/data_preprocessing.py:122-131 | KeyError when `value` or `period` is missing. Otherwise `n - 1` rows, where row `j`'s `lag` is input row `j`'s `value` and every other cell comes from input row `j + 1`. The columns are the input's plus `lag`, without `period`. |
| Supervised.Shift | src/training/data_preprocessing.py:122-125 | `shift()` then the drop of the row holding NaN: a `lag` column of `value`'s kind, and the cells of the next row. |
| Supervised.ShiftedCell | src/training/data_preprocessing.py:122-131 | Every cell of a supervised row other than `lag` comes from the next input row. |
| Supervised.Tail | src/training/data_preprocessing.py:125 | Dropping the first row moves every cell up one row. |
| Frames.Drop | src/transform.py:298 | `drop(columns=...)`: KeyError exactly when a label is not a column. Otherwise the remaining columns, in their original order, each with its own cells. |
| Frames.Project | src/training/data_preprocessing.py:173 | `df[schema]`: exactly the schema's columns, in schema order, with their cells. A missing label is a KeyError naming it, never a filled-in column. |
| Frames.Rename | src/training/data_preprocessing.py:170 | `rename(columns=...)` relabels the one column and keeps rows and kinds. An absent label is ignored. |
| Frames.SetColumn | src/transform.py:134 | Column assignment overwrites an existing column in place or appends a new one. The assigned cells are read back, and every other cell is unchanged. |
| Encoding.Uniques | src/training/data_preprocessing.py:154-155 | The learned categories are the column's distinct values, ascending. |
| Encoding.Fit | src/training/data_preprocessing.py:154-155 | Fitting learns one entry per categorical column, in column order, its categories exactly the column's values. It fails with no samples exactly when there are categorical columns but no rows. |
| Encoding.FirstUnknown | src/training/data_preprocessing.py:157 | Reports an unknown category exactly when some row's category was not learned, and names that column and category. |
| Encoding.Apply | src/training/data_preprocessing.py:157-161 | Errors: an unfitted encoder, a different list, or order, of categorical columns, an unseen category. On success, one row per input row, and the other columns first with their own cells, followed by the indicator columns. |
| Encoding.EncodeCategorical | src/training/data_preprocessing.py:145-162 | A missing encoder is a fresh unfitted one. Fit mode refits on this frame and then transforms. Transform mode uses the given encoder. The returned frame is that encoder's transform. |
| Encoding.FitThenApply | src/training/data_preprocessing.py:154-157 | Transforming the frame an encoder was fitted on never meets an unknown category. |
| Encoding.FitThenReapply | src/training/data_preprocessing.py:154-158 | Re-applying the returned encoder in transform mode reproduces the same frame and encoder. |
| Encoding.EncodedLayout | src/training/data_preprocessing.py:158-161 | The encoded labels are the other columns in their relative order, then the indicator labels; the other columns keep their cells. |
| Encoding.OneHotLabels | src/training/data_preprocessing.py:158 | Categorical column `k` contributes labels `<column>_<category>`, one per learned category in ascending order, at its own offset. |
| Encoding.OneHotExact | src/training/data_preprocessing.py:155-161 | In every row, the indicators of each categorical column hold exactly one 1.0, under the row's own category, and 0.0 elsewhere. |
| Encoding.ApplyKnown | src/training/data_preprocessing.py:157 | A successful transform means every row's category was among the learned ones. |
| Encoding.ApplyKeepsLookup | src/training/data_preprocessing.py:161 | A non-categorical column keeps its cells under its own label. |
| Pruning.ByImportance | src/transform.py:283-284 | `sort_values(ascending=False)` gives the same rows (a permutation) in non-increasing order of importance. |
| Pruning.Below | src/transform.py:292-293 | The selection holds exactly the rows whose importance is strictly below the threshold. |
| Pruning.ToDrop | src/transform.py:283-295 | `to_drop` ends with `random_feature`. With distinct feature names, the entries before it name exactly the features whose importance is strictly below `random_feature`'s, so a feature tied with it is kept. They come in non-increasing order of importance. |
| Pruning.RemoveRedundantFeatures | src/transform.py:273-300 | It fails with IndexError when there is no `random_feature`, and with a length mismatch when the importances do not match the columns. Otherwise it returns `X` without `to_drop`, together with `to_drop`. |
| Pruning.ToDropAreColumns | src/transform.py:294-298 | Every label in `to_drop` is a column, so the final `drop` cannot fail. |
| Pruning.RedundantThreshold | src/transform.py:287-293 | The selection `importance < threshold` lists a feature exactly when its importance is strictly below `random_feature`'s. |
| Pruning.RedundantDescending | src/transform.py:283-293 | The selected features keep the descending sort's order: non-increasing importance. |
| Pruning.ToDropDistinct | src/transform.py:292-295 | No feature is listed twice. |
| Pruning.PrunedColumns | src/transform.py:292-298 | Each feature is kept exactly when it is not `random_feature` and its importance is at or above the threshold. Survivors stay in their original order. |
| Sorting.SortBy | src/transform.py:283 | The result is sorted by key and is a permutation of the input. |
| CrossValidation.FoldAverages | src/transform.py:214-247 | Records one train error and one test error per fold, in order, and returns their means. No folds is a ZeroDivision. |
| CrossValidation.FoldAveragesBetween | src/transform.py:246-247 | Each average lies between the smallest and the largest fold error. |
| Training.SupervisedLayout | src/transform.py:345-349 | The supervised frame always exists, with the thirteen training columns, and has one row per observation after the first seven. |
| Training.TrainRejectsShortSeries | src/transform.py:346-350 | Seven observations or fewer leave no supervised rows, and fitting the encoder fails. |
| Training.TrainOutcome | src/transform.py:350-363 | For a series with supervised rows, the run succeeds exactly when there are more than 16 observations (at least 10 rows for `TimeSeriesSplit(n_splits=9)`) and one importance per model input (10 plus one per learned category). Otherwise the split raises for too few samples, or the pruning reports the mismatch. |
| Training.AssemblePrunes | src/transform.py:353-363 | Once the last row has both statistics, the assembly fails when there are fewer rows than the ten folds need, and otherwise succeeds or fails exactly as the pruning of `X` does. |
| Training.Assemble | src/transform.py:353-370 | No contract of its own. Training.AssemblePrunes, Training.AssembleDropped and Training.AssembledSchema state when it succeeds and what it saves. |
| Training.AssembleDropped | src/transform.py:353-370 | A successful assembly had more rows than the nine splits, and saves a `features_to_drop` that ends with `random_feature` and shares no label with the schema. |
| Training.Train | src/transform.py:346-370 | A successful run saves a `features_to_drop` that ends with `random_feature` and shares no label with the schema. When it succeeds is Training.TrainOutcome's contract. |
| Training.TrainingRun | src/transform.py:339-371 | `main` from the loaded series to the artifacts: the IQR filter, then Training.Train. A success saves the same `features_to_drop` facts. What the filter keeps is Outliers.FilterByIqr's contract. |
| CrossValidation.TimeSeriesSplit | src/transform.py:217-222 | `TimeSeriesSplit(n_splits).split` refuses fewer than two splits and fewer rows than `n_splits + 1`. Otherwise there are `n_splits` folds whose test blocks of `n / (n_splits + 1)` rows follow one another up to the last row, each fold training on every row before its block. |
| CrossValidation.TestBlocksPartition | src/transform.py:217-222 | Every row from the first test row on is tested in a fold, the one its offset from the first test row selects, and that fold trains only on earlier rows. |
| CrossValidation.TestBlocksDisjoint | src/transform.py:217-222 | No row is tested in two folds. |
| Training.InputWidth | src/transform.py:353 | `X` has the ten numeric features other than `value`, plus one indicator per learned category. |
| Training.AssembledSchema | src/transform.py:353-370 | The bundle holds, in order: the encoder; `to_drop` ending with `random_feature`; and the schema, which is `X`'s labels without `to_drop` — distinct, with neither `value` nor `random_feature`, and exactly the inputs ranked at or above the noise column. |
| Training.PrunedSchema | src/transform.py:363-364 | The schema taken from the pruned frame is distinct, lacks `random_feature` and every dropped feature, and is exactly the inputs ranked at or above the threshold. |
| Training.TrainRecent | src/transform.py:356 | `most_recent_vals` is the rolling mean and deviation of the last seven observations. |
| Training.TrainLast | src/transform.py:356 | `most_recent_vals` is the rolling statistics of the last supervised row. |
| Training.TrainEncoder | src/transform.py:350 | The saved encoder is the one fitted on the supervised frame, over `timezone` and `day_of_week`. |
| Training.TrainSchema | src/transform.py:363-370 | The saved schema names each kept input once, never `value` or `random_feature`, and shares no label with `to_drop`, which ends with `random_feature`. |
| Inference.Lagged | src/training/data_preprocessing.py:169-170 | Inference extraction followed by the rename: one row per observation, with `value` relabelled `lag`. |
| Inference.LaggedValue | src/training/data_preprocessing.py:170 | Each observation's own value is its row's `lag`. |
| Inference.WithCarry | src/training/data_preprocessing.py:172 | Both carried statistics are on every row, and every other cell is unchanged. |
| Inference.PrepareForInference | src/training/data_preprocessing.py:164-174 | An encoder error is passed on. On success the columns are exactly the schema, in order, with one row per observation. |
| Inference.PreparedOutcome | src/training/data_preprocessing.py:171-173 | Once encoding succeeds, preparation succeeds exactly when every schema label is offered. Otherwise it is a KeyError naming a schema label that is not offered. |
| Inference.PreparedIsProjection | src/training/data_preprocessing.py:169-174 | Preparation is `df[schema]` of the encoded frame with the carried statistics. |
| Inference.PreparedCells | src/training/data_preprocessing.py:170-173 | On every prepared row, `lag` is the observation's value and the rolling statistics are the carried ones. |
| Inference.TrainedSchemaOffered | src/transform.py:363-370 | A successful run saves a fitted encoder and a schema whose every label inference offers. |
| Inference.TrainThenPrepare | src/training/data_preprocessing.py:164-174 | With a run's own artifacts, preparation succeeds whenever the encoder accepts the observations. It yields exactly the saved schema, one row per observation. |
| Urls.ConstructUrl | parser/db_store.py:209-235 | UnboundLocalError exactly for an API other than the three. `weather_latest` is one fixed URL, whatever the parameters. |
| Urls.DemandUrlFields | parser/db_store.py:216-221 | The demand URL's fields, read back, are the caller's dates, offset, page length and key, with sub-region ZONJ and ascending period order. |
| Urls.WeatherHistUrlFields | parser/db_store.py:223-228 | The archive URL's fields, read back, are the fixed coordinates, series and time zone around the caller's two dates. |
| Urls.GenerateUrlFields | src/eia_request.py:60 | The fields are start, end, offset, length and key in that order, with descending period order. Offset and length parse back to the integers given. |
| Urls.GenerateUrl | src/eia_request.py:60 | No contract of its own. Urls.GenerateUrlFields reads its fields back. |
| Paging.TruncDiv | parser/db_store.py:304 | `int(a / b)` truncates toward zero and raises ZeroDivision exactly when `b == 0`. |
| Paging.LoaderPages | parser/db_store.py:303-304 | The loader plans `total / chunk + 1` pages, and a zero page length is a ZeroDivision. |
| Paging.EiaPages | src/eia_request.py:94 | The downloader plans `total / chunk` pages, and a zero page length is a ZeroDivision. |
| Paging.Offsets | parser/db_store.py:308-326 | One offset per planned request, none below the first. |
| Paging.OffsetsIncrease | parser/db_store.py:326 | With a positive page length the offsets strictly increase. |
| Paging.LoaderCovers | parser/db_store.py:304-326 | The loader's pages reach past the last row, and every row lies in a planned page. |
| Paging.LoaderLastPageEmpty | parser/db_store.py:304-312 | When the page length divides the row count, the last planned page starts at the end of the data and is empty. |
| Paging.FaithfulBatches | parser/db_store.py:309-326 | Against a server that serves its rows faithfully, the loop fails with IndexError exactly when a planned page is empty. Otherwise it inserts every row served. |
| Paging.LoaderBatches | parser/db_store.py:309-326 | On success, one batch per planned offset, and every planned request was answered with a non-empty page. |
| Paging.LoaderLoad | parser/db_store.py:301-326 | A zero page length is a ZeroDivision. With a positive page length, a success gives `total / chunk + 1` batches, one per planned page. |
| Paging.LoaderFailsOnDivisor | parser/db_store.py:304-314 | As written, a divisible row count makes the loader fail on its last, empty page. |
| Paging.LoaderFailsAt10000 | parser/db_store.py:304-314 | As written, 10000 rows at the configured 5000 per page fail on the third request. |
| Paging.CeilPlanExact | parser/db_store.py:304 | The ceiling plan serves every row once, and none of its pages is empty. |
| Paging.CorrectedLoaderSucceeds | parser/db_store.py:309-326 | With the ceiling plan the loop succeeds for every row count and inserts every row. |
| Paging.EiaMissesTail | src/eia_request.py:94-112 | The downloader requests only `total - total % chunk` rows, and fewer rows than one page give no request. |
| Paging.Collected | src/eia_request.py:102-111 | One frame per well-formed response, so never more frames than requests. There are none exactly when no response is well formed. |
| Paging.OutputFile | src/eia_request.py:114 | The path ends with `<start>-<end>.bin`, and begins with the folder whenever the start date is not an absolute path. |
| Paging.EiaDownload | src/eia_request.py:87-123 | Without a first response nothing happens, and a zero page length is a ZeroDivision. Otherwise the pages are requested at offsets `0, chunk, 2 chunk, ...` regardless of failures, with their URLs. The file is written exactly when a frame was kept. |
| Paging.RequestPages | src/eia_request.py:98-112 | The loop's offsets are the plan's, and it keeps the frame of every well-formed response. |
| Payloads.Zip | parser/db_store.py:330 | `zip(*columns)`: row `i` is entry `i` of every column, in key order, and the row count is the shortest column's length. |
| Payloads.ZipRoundTrip | parser/db_store.py:330 | Transposing equal-length columns twice gives them back. |
| Payloads.WeatherBatch | parser/db_store.py:329-331 | The weather rows are the transpose of the `daily` values. |
| Payloads.DemandBatch | parser/db_store.py:312-314 | One tuple of values per record. The schema has no `-`. An empty page is an IndexError. |
| Payloads.DemandSchema | parser/db_store.py:314 | The `-` replacement acts key by key and leaves no `-`. |
| Payloads.SchemaString | parser/db_store.py:314 | On the demand path, with `-` replaced, the schema string holds no `-`. Payloads.SchemaSplit and Payloads.DemandSchema state the rest. |
| Payloads.SchemaSplit | parser/db_store.py:331 | Splitting the schema string at its commas gives the keys back, each after the first behind one space. |
| Payloads.LookupSchema | parser/db_store.py:112 | `tab_schemas.get(key, -1)` is `-1` exactly for an unknown key. |
| Payloads.SetupAndCreateTable | parser/db_store.py:110-118 | Succeeds exactly when the server is reachable and the key is known. An existing table is swallowed and leaves the tables unchanged. |
| Payloads.SetupIdempotent | parser/db_store.py:110-118 | Setting up a table twice is setting it up once. |
| DbHandler.StripRender | src/db_store.py:71 | Removing line breaks from a template removes them from its text only, and keeps its placeholders. |
| DbHandler.ReplaceIsFill | src/db_store.py:80-81 | Replacing a placeholder's text fills every hole of that name and no other. |
| Strings.ReplaceAll | src/db_store.py:71-81 | No contract of its own: `str.replace`, leftmost and non-overlapping, with an empty pattern inserting the replacement around every character. DbHandler.StripRender, DbHandler.ReplaceIsFill and Payloads.DemandSchema state what its uses rely on. |
| DbHandler.EndDate | src/db_store.py:72-78 | `today` becomes yesterday as `YYYY-MM-DD`, which overflows only on the first calendar day. Any other value is used as given. |
| DbHandler.ParseApiUrl | src/db_store.py:63-82 | Fails exactly when the end date overflows. |
| DbHandler.ParseApiUrlSteps | src/db_store.py:71-81 | Line breaks are removed first, then `<END_DATE>`, then the five placeholders in dict order, each at every occurrence. |
| DbHandler.ParseApiUrlResolves | src/db_store.py:63-82 | When no configured value holds a `<`, the result is the template with its line breaks dropped and every known placeholder resolved. |
| DbHandler.NoPlaceholderLeft | src/db_store.py:64-82 | When the template uses only the six placeholders and no value holds a `<`, no placeholder survives. |
| DbHandler.ValueRewritten | src/db_store.py:72-81 | A value that is itself a later placeholder is rewritten in turn: a start date of `<API_KEY>` comes out as the key. |
| DbHandler.Connect | src/db_store.py:28-35 | Opens a connection only when there is none. An unreachable server raises OperationalError. |
| DbHandler.ConnectIdempotent | src/db_store.py:28-35 | Connecting twice is connecting once. |
| DbHandler.CloseKeepsConnection | src/db_store.py:102-104 | As written, the later `close` shadows the first: the connection stays, and `connect` opens none. |
| DbHandler.Close | src/db_store.py:102-104 | No contract of its own: as written, `close` does nothing. DbHandler.CloseKeepsConnection states the consequence. |
| DbHandler.CloseConnection | src/db_store.py:37-40 | The first `close` forgets the connection. |
| DbHandler.CloseThenConnect | src/db_store.py:37-40 | After that close, `connect` opens a fresh connection. |
| DbHandler.CreateTable | src/db_store.py:42-61 | Without a connection nothing changes. On success the table exists. No other table changes, and a failure changes none. |
| DbHandler.DuplicateLeavesClosed | src/db_store.py:53-56 | As written, after DuplicateTable the handler keeps a closed connection, so `connect` does nothing and every later `create_table` fails. |
| DbHandler.CreateTableCorrected | src/db_store.py:53-56 | Same outcome and tables, but DuplicateTable also forgets the closed connection. |
| DbHandler.DuplicateThenReconnect | src/db_store.py:53-56 | After the corrected DuplicateTable, reconnecting gives a handler that can create tables again. |

## Left out

- Database and HTTP effects are not modelled: connections, SQL execution, `requests.get`, JSON decoding, pickling and file writes. Responses, row counts and table sets are parameters, and a failed or malformed response is a value of `Paging.Response`.
- Configuration loading (argparse, hydra, `eval` of the schema name) is left out. Its results are parameters.
- Model fitting is left out: XGBoost, Optuna search and MLflow tracking. The model's `feature_importances_` and the per-fold errors are inputs. Only the fold split, the averaging and the pruning are modelled. The second `train` call at line 368 and the search's five-way split run on the same rows, so they cannot fail where the first split succeeds.
- Observations arrive already parsed: `period` is a `Calendar.Day` in years 1..9999, `timezone` a string and `value` an integer. The failures of `astype('datetime64[ns]')` on unparsable strings and on dates outside 1677-09-21..2262-04-11 (data_preprocessing.py:78) are not modelled. NULL cells are not modelled either: `astype('int64')` raising on a NULL `value` (line 80), and `dropna` removing a row with a NULL `timezone` (line 105).
- `rolling_std`'s sample deviation needs a square root. It is a caller-supplied function of the window.
- `random.random()` draws are a supplied stream of values in `[0, 1)`.
- Integer casts (`int8`, `uint8`, `int16`, `uint16`, `int64`, `uint64`) are not modelled. Every date part and flag fits all of them: years 1..9999, months, days, quarters, weeks and the 0/1 weekend flag. `value` is an unbounded integer, so the `int64` range of `astype('int64')` is not enforced.
- Supervised.TransformToSupervised: `lag` keeps the previous `value` unchanged. transform.py:157 casts it to `uint64`, which would wrap a negative value to `value + 2^64`; the model does not wrap, because daily electricity demand in megawatt-hours is never negative. For non-negative values the two agree.
- Prefect's orchestration in `src/transform.py` is not modelled. Every `@task` there (lines 22, 61, 87, 138, 163, 193, 252) and the `tune_hyperparameters` flow (line 302) retry three times after a failure. The pure steps modelled here fail the same way on each retry, so the retries do not change their outcome. `main`'s flow also stops with a time-out after 900 seconds (line 339); `Training.TrainingRun` has no notion of time and returns its result whatever the run time.
- Paging.TruncDiv: `int(total_rows / chunk_len)` goes through a float. The model truncates the exact quotient, so it does not model rounding for row counts above 2^53.
- The wrappers around services are not part of this model: `src/training/train.py`, `src/train.py`, `src/hp_optimization.py`, the registry scripts, the apps, `src/predict.py` and `src/main_flow.py` (both call their functions with the wrong arguments), `parser/eia_request.py`, and the module-level `main()` call of `src/transform.py`.
- Inference.PrepareForInference: requires a valid encoder (categories ascending and distinct per column). A pickled encoder from another source is not modelled.
- Payloads.SetupAndCreateTable: the `tab_schemas` SQL text is a map parameter, and creating the table is assumed to create exactly `tab_name`.
- The insert outcome of `populate_table` is not modelled. `UniqueViolation` is swallowed and the offset advances all the same, so it does not affect the page plan.
- Paging.EiaDownload: the first response is an `Option<nat>` row count, and the server's page for an offset is a function of that offset.
- Pruning.ByImportance: pandas' default sort leaves the order of equal importances open. The model uses a stable insertion sort, and its contract promises only a non-increasing permutation.
- `DatabaseHandler.request_data`, `insert` and `query` are left out: they are an HTTP call and two empty stubs.

## Findings

| source | as written | input that shows it | evidently intended | confidence | as-written member | corrected member |
|---|---|---|---|---|---|---|
| parser/db_store.py:304 | plans `int(total_rows / chunk_len) + 1` pages, then reads `data_list[0]` of each page (line 314) | 10000 rows with pages of 5000: the third request, at offset 10000, returns no records and line 314 raises IndexError | one page per started block of rows: `ceil(total_rows / chunk_len)` | not executed; medium (it assumes the API answers an offset past the end with an empty list) | Paging.LoaderFailsAt10000 | Paging.CorrectedLoaderSucceeds |
| src/eia_request.py:94 | plans `int(total_rows / chunk_len)` pages | 7 rows with pages of 5: one request, so rows 5 and 6 are never downloaded; with 3 rows, no request at all | `ceil(total_rows / chunk_len)` pages, covering every row | not executed; high | Paging.EiaMissesTail | Paging.CeilPlanExact |
| src/db_store.py:102-104 | a second `close` with an empty body replaces the one at lines 37-40 | `connect()`, `close()`, `connect()`: the first connection stays open and the second `connect` does nothing | close the connection and set `conn` to None | not executed; high | DbHandler.CloseKeepsConnection | DbHandler.CloseThenConnect |
| src/db_store.py:53-56 | on DuplicateTable it closes the connection but keeps it in `self.conn` | `create_table` of an existing table, then `connect()` and `create_table` of a new one: `connect` sees a connection and does nothing, and the cursor of the closed connection fails | also reset `conn` to None, so that `connect` can reopen | not executed; medium | DbHandler.DuplicateLeavesClosed | DbHandler.DuplicateThenReconnect |
