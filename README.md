# PEC footfall forecasting, modelled in Dafny

This project models the core of a footfall forecaster for Aadhaar enrolment centres (PECs). The forecaster predicts how many visitors each PIN code's centre gets per day.

The model covers five parts of the Python repository:

- **Column repair** (`FeatureEngineer._validate_and_fix_columns`, module `Reconcile`). The raw daily table has its synonym columns renamed. A missing `center_type` is inferred from footfall, and a missing district or state gets its default. Centre-type spellings are made canonical. The repair raises when a required column is still absent.
- **Feature table** (`engineer_features` and the four `_add_*` steps, module `Features`). Rows are sorted by (pincode, date). Each row then gets:
  - calendar flags and holiday flags;
  - first-appearance codes for state and district;
  - per-PIN lags and rolling statistics;
  - interaction columns.

  `dropna` then removes every row with a missing value.
- **Inference** (`PECPredictor`, module `Inference`). One feature row is rebuilt for a (PIN code, date) request: the stored row on the fast path, otherwise the last 60 earlier observations with cold-start values and a zero fill. The row is run through an opaque regressor, rounded and clamped at 0. The same step is repeated over a week, a month, or a list of PIN codes.
- **Real-data adapter** (`load_real_data.py`, module `RealData`). It covers the column mapping, the PIN zero-padding, the centre-type table, name cleaning, the group-by sum, the minimum-days warning, and `validate_data_for_modeling`.
- **Training contract** (`PECDemandModel`, module `Training`) and the **generator panel** (`DataGeneratorPanel`, module `Panel`). The first covers feature selection by exclusion, the positional train/test split and the `feature_names` bookkeeping. The second is the PIN-code registry and holiday list that the panel edits in place.

Shared building blocks:

- `Calendar`: a proleptic Gregorian calendar on day numbers counted from 0001-01-01.
- `IsoDate`: `strftime`/`strptime` with `%Y-%m-%d`.
- `Text`: ASCII `strip`, `upper`, `lower`, `title`, `zfill`, `str`/`int`, and Python's string order.
- `Seqs`: sum, mean, max, min, sample variance, `tail`, `unique`/`factorize`, filter, and a stable sort.
- `Tables`: CSV cells, frames, feature values and exceptions.
- `Wrappers`: `Option` and `Result`.

How the model represents things:

- Dates are day numbers. Floats are `real`.
- A standard deviation is kept exact as `Sqrt(variance)`.
- Float division by zero gives `Infinity`; a missing value is `NaN`.
- An exception is an `Err` carrying the Python exception's type and key.

The panel's registry and the trained model object are classes whose methods update their fields.

## Model

| member | source | states |
|---|---|---|
| Reconcile.AbsentMembers | src/feature_engineering.py:43-44 | The missing-column list holds exactly the listed names that are not columns of the frame. |
| Reconcile.MissingRequired | src/feature_engineering.py:163-164 | The list of required columns a frame lacks is empty exactly when all six required columns are present. |
| Reconcile.RenameAll | src/feature_engineering.py:95-99 | The in-place rename loop ends with the frame of the synonym renames applied in mapping order, and its counter equals the number of renames applied. |
| Reconcile.Renamed | src/feature_engineering.py:44-99 | The frame after step 1; RenameAll and RenameIfMissing state it. |
| Reconcile.RenameIfMissing | src/feature_engineering.py:44-99 | Step 1 renames synonyms only when a required column is missing, and counts each rename as a fixed issue. |
| Reconcile.ValidateAndFixColumns | src/feature_engineering.py:25-176 | The step-by-step repair returns exactly the repaired frame and fix count of `Repair`, or the same exception. |
| Reconcile.Repair | src/feature_engineering.py:25-176 | A repair that succeeds keeps the row count; the only exceptions are a TypeError from inferring types or a ValueError naming missing columns. |
| Reconcile.RepairError | src/feature_engineering.py:104-117 | When inferring the centre type fails, the whole repair fails with that TypeError. |
| Reconcile.RepairOk | src/feature_engineering.py:104-176 | Otherwise the repair is the final check on the finished frame, with the fixes of every step added up. |
| Reconcile.Conclude | src/feature_engineering.py:162-167 | The final check succeeds exactly when every required column is present, and otherwise raises naming the missing ones. |
| Reconcile.TypeFromFootfall | src/feature_engineering.py:108-113 | The centre type guessed from a footfall is always one of Urban, Rural and Semi-Urban. |
| Reconcile.InferredTypes | src/feature_engineering.py:104-113 | The centre types inferred row by row from a footfall column; InferredCenterTypes states them. |
| Reconcile.WithCenterType | src/feature_engineering.py:104-117 | The centre-type column is added (appended last) only when absent. The step fails with TypeError exactly when it must infer from a footfall column holding a non-number. |
| Reconcile.WithDefault | src/feature_engineering.py:119-127 | A missing column is appended, filled with its default; a present column is left alone. |
| Reconcile.AsTextOfText | src/feature_engineering.py:129-131 | `astype(str)` leaves a column that is already text unchanged. |
| Reconcile.NormalizedType | src/feature_engineering.py:133-160 | Every centre type after respelling and the Urban default is canonical. |
| Reconcile.AnyInvalidTypeAt | src/feature_engineering.py:155-160 | An issue is counted exactly when some value is neither a listed spelling nor canonical. |
| Reconcile.WithTextPincodes | src/feature_engineering.py:129-131 | Only the pincode column changes, to its text form; column order and every other column are kept. |
| Reconcile.WithCanonicalTypes | src/feature_engineering.py:133-160 | Only the centre-type column changes, each value normalised; column order and every other column are kept. |
| Reconcile.Finish | src/feature_engineering.py:119-160 | Steps 2 to 4 on a frame with a centre-type column; FinishColumns and FinishCells state them. |
| Reconcile.Complete | src/feature_engineering.py:104-167 | Steps 2 to 4 and the final check after renaming; RepairError and RepairOk state it. |
| Reconcile.FinishColumns | src/feature_engineering.py:119-127 | The last steps append exactly the missing default columns and add no other. |
| Reconcile.FinishCells | src/feature_engineering.py:119-160 | The last steps give each column its stated cells: defaults filled, PIN codes as text, centre types normalised, the rest unchanged. |
| Reconcile.ReconciledShape | src/feature_engineering.py:129-167 | A repaired frame has every required column, only text PIN codes and only canonical centre types. |
| Reconcile.NormalizedTypeCases | src/feature_engineering.py:133-160 | A listed spelling maps to its canonical type, a canonical type stays, and anything else becomes Urban. |
| Reconcile.InferredCenterTypes | src/feature_engineering.py:104-113 | Without a centre-type column, each repaired row's type comes from its own footfall: above 150 Urban, below 100 Rural, otherwise Semi-Urban. |
| Reconcile.DefaultCenterType | src/feature_engineering.py:114-117 | Without a footfall column either, every row's centre type is Urban. |
| Reconcile.DefaultDistrictAndState | src/feature_engineering.py:119-127 | A district or state column that is missing after renaming is filled with 'Unknown District' or 'Unknown State'. |
| Reconcile.NoRenameWhenComplete | src/feature_engineering.py:44-46 | With every required column present nothing is renamed, and the repaired frame keeps the column order. |
| Reconcile.RenamesKeepRequired | src/feature_engineering.py:94-99 | Renaming never replaces a required column that is already present: its cells come through unchanged. |
| Reconcile.SynonymsOfRequired | src/feature_engineering.py:50-92 | The only synonym that is itself a required name is `center_type`, and it maps onto itself. |
| Reconcile.ReconcileErrors | src/feature_engineering.py:102-167 | The repair fails exactly when date, pincode or footfall is still missing after renaming, or when a type must be inferred from a non-number. |
| Reconcile.MissingOnlyCore | src/feature_engineering.py:162-167 | Only date, pincode and footfall can be reported missing, because the other required columns are always supplied. |
| Reconcile.ReconcileIdempotent | src/feature_engineering.py:25-176 | Repairing a repaired frame gives the same frame and fixes nothing. |
| Reconcile.FinishOfRepaired | src/feature_engineering.py:119-160 | On a complete frame with text PIN codes and canonical types, the last steps change nothing and count no fixes. |
| Features.ParseDates | src/feature_engineering.py:191-192 | Parsing the date column succeeds exactly when every cell parses, and each cell becomes its day. |
| Features.Observations | src/feature_engineering.py:202-216 | Reading the rows succeeds exactly when every row's footfall is a number, and yields each row's observation. |
| Features.ObsLeTotalPreorder | src/feature_engineering.py:200 | The (pincode, date) order is total and transitive. |
| Features.SortedRows | src/feature_engineering.py:200 | The sorted rows are in (pincode, date) order and are a permutation of the input. |
| Features.FeatureRows | src/feature_engineering.py:202-216 | One feature row per sorted row, row `k` holding the features of row `k`; the rows it keeps are stated by DropnaRows. |
| Features.RowOf | src/feature_engineering.py:202-216 | All features of one sorted row: temporal, geographic, lag, change and interaction columns; its values are stated by DropnaKeepsFromThirtieth, TemporalRanges and InteractionFlags. |
| Features.HasNoNaN | src/feature_engineering.py:220 | The `dropna` test: a row survives when none of its possibly missing columns is NaN; DropnaKeepsFromThirtieth says when that holds. |
| Features.TemporalOf | src/feature_engineering.py:240-288 | The calendar columns of a date; TemporalRanges states their ranges and agreement. |
| Features.IsHolidayOn | src/feature_engineering.py:271 | A day is a holiday when its `%Y-%m-%d` text is in the holiday list. |
| Features.AfterHoliday | src/feature_engineering.py:274 | The previous same-PIN row's holiday flag, false on a group's first row; stated by DayAfterHolidayFromPreviousRow. |
| Features.GeoOf | src/feature_engineering.py:290-310 | The geographic columns of a row; FactorizeCodes, CenterTypeCodes and TypeCodeFlags state them. |
| Features.LagsOf | src/feature_engineering.py:314-376 | The lag and rolling columns of a row; LagIsEarlierRow, WindowRows and LagsPresent state them. |
| Features.Rolling | src/feature_engineering.py:329-374 | A rolling statistic computed per PIN code and then shifted down one row frame-wide; RollingUsesHistory and FirstRowOfGroup state what it holds. |
| Features.FeaturesOf | src/feature_engineering.py:200-220 | The feature table keeps the repaired column order, fails exactly when some footfall is not a number, and then only with pandas' DataError from the first rolling statistic, and holds no row with a missing value (which rows it holds: FeaturesOfRows). |
| Features.TextFootfallIsDataError | src/feature_engineering.py:329-333 | With the centre type given, a footfall of text `abc` passes the repair and the lag shifts, and the first rolling mean fails with DataError. |
| Features.EngineerFeatures | src/feature_engineering.py:178-238 | `engineer_features` raises KeyError('date') exactly when the raw table has no date column; no kept row has a missing value (which rows are kept: EngineerFeaturesRows). |
| Features.EngineerFeaturesRows | src/feature_engineering.py:178-238 | When the dates parse, the repair succeeds and footfalls are counts, the saved rows are exactly the feature rows of the (pincode, date)-sorted rows that have at least 30 earlier rows of their PIN code, in sorted order. |
| Features.RepairedTypesCanonical | src/feature_engineering.py:133-160 | Every row read from a repaired table has a canonical centre type. |
| Features.WithColumns | src/feature_engineering.py:240-396 | Assigning columns keeps the existing ones in front and adds exactly the new names. |
| Features.ColumnsOfTable | src/feature_engineering.py:202-216 | The feature table's columns start with the repaired columns in order, and hold those plus the engineered ones and nothing else. |
| Features.GroupStart | src/feature_engineering.py:320-326 | A row's group start is the first row of its run of rows with the same PIN code. |
| Features.GroupIsRun | src/feature_engineering.py:200 | In the sorted table every row comes right after the earlier rows of its PIN code. |
| Features.HistoryIsRun | src/feature_engineering.py:320-347 | A row's history is the footfalls from its group start up to the row, so its length is the row's position in the group. |
| Features.LagIsEarlierRow | src/feature_engineering.py:320-326 | `lag_k` is the footfall k rows earlier when that row has the same PIN code, and missing otherwise (a row offset, not a calendar one). |
| Features.RollingUsesHistory | src/feature_engineering.py:329-374 | Once a row has an earlier row of its PIN code, each rolling feature is the statistic of the last w values of that history (no leakage). |
| Features.WindowRows | src/feature_engineering.py:329-374 | The rolling window is the footfalls of the min(w, n) rows just before the row, all of its PIN code, never the row itself. |
| Features.FirstRowOfGroup | src/feature_engineering.py:329-347 | Before `dropna`, a PIN code's first row gets the previous PIN code's rolling mean (the shift is frame-wide), yet is always dropped. |
| Features.RollingPresent | src/feature_engineering.py:329-374 | With two or more earlier rows of its PIN code, no rolling feature of a row is missing. |
| Features.MeanThirtyNonNegative | src/feature_engineering.py:343-347 | Footfalls being counts, the 30-day mean is a number and never negative. |
| Features.LagsPresent | src/feature_engineering.py:320-394 | With at least 30 earlier rows of its PIN code, no lag feature and not the lag ratio is missing. |
| Features.DropnaKeepsFromThirtieth | src/feature_engineering.py:218-220 | `dropna` keeps a row exactly when it has at least 30 earlier rows of its PIN code, so each PIN code loses its first 30 rows. |
| Features.Kept | src/feature_engineering.py:218-220 | Reference for `dropna`'s output: the feature rows, in table order, of the rows with at least 30 earlier rows of their PIN code. |
| Features.DropnaRows | src/feature_engineering.py:218-220 | Dropping the rows with a missing value from the feature rows leaves exactly `Kept`, row for row and in order. |
| Features.DropnaCondition | src/feature_engineering.py:220 | In a sorted table of counts with canonical types, a feature row has no missing value exactly when its row has at least 30 earlier rows of its PIN code. |
| Features.FeaturesOfRows | src/feature_engineering.py:200-220 | With counts for footfalls and canonical types, the feature table is the repaired columns with exactly the `Kept` rows of the sorted observations. |
| Features.RowPresent | src/feature_engineering.py:218-220 | A row whose lag features are present and whose centre type is canonical has no missing value. |
| Features.ConstantRolling | src/feature_engineering.py:329-374 | A window of equal footfalls c has mean, max and min c and standard deviation 0. |
| Features.ConstantHistory | src/feature_engineering.py:314-374 | With a constant footfall c on the 30 rows before it, every lag and rolling value of a row is c and the deviation is 0. |
| Features.ConstantRatio | src/feature_engineering.py:394 | With that constant history the lag ratio is c / (c + 1), e.g. 100/101 for a constant 100. |
| Features.DayAfterHolidayFromPreviousRow | src/feature_engineering.py:271-274 | `is_day_after_holiday` is set exactly when the previous row of the same PIN code is a holiday, and is 0 on a group's first row. |
| Features.TemporalRanges | src/feature_engineering.py:240-288 | The calendar features stay in range and agree with one another: day name matches day of week, quarter covers the month, week of month is in 1..5, first week means day ≤ 7, and the date round-trips. |
| Features.InteractionFlags | src/feature_engineering.py:378-391 | Each interaction column is 1 exactly when both of its conditions hold. |
| Features.FactorizeCodes | src/feature_engineering.py:304-307 | Two rows share a state (district) code exactly when they share the state (district), and codes lie below the number of distinct values. |
| Features.CenterTypeCodes | src/feature_engineering.py:294-301 | The type code is Rural 0, Semi-Urban 1, Urban 2 (missing for any other text); `is_urban` and `is_rural` are never both 1. |
| Features.TypeCodeFlags | src/feature_engineering.py:294-301 | For every type text, the code is present exactly for canonical types and agrees with the urban and rural flags. |
| Inference.PincodeInfo | src/predict.py:331-342 | The info table holds exactly the PIN codes of the history. |
| Inference.InfoFromFirstRow | src/predict.py:336-341 | A PIN code's info is taken from its first row in the history. |
| Inference.GetPincodeInfo | src/predict.py:331-342 | The loop of `_get_pincode_info` builds exactly the info table. |
| Inference.PinHistory | src/predict.py:200-203 | A PIN code's rows of the history, sorted by date; PinHistorySpec states it. |
| Inference.RecentFootfalls | src/predict.py:283 | The footfalls of the last 60 rows dated before the target; RecentIsEarlier and NoEarlierRows state it. |
| Inference.PinHistorySpec | src/predict.py:200-203 | A PIN code's history is in date order and holds exactly the history rows of that PIN code. |
| Inference.KnownPinHasHistory | src/predict.py:200-206 | A PIN code of the info table has a non-empty history. |
| Inference.RecentIsEarlier | src/predict.py:283 | The inference window holds at most 60 footfalls, each from a row of the PIN code dated strictly before the target. |
| Inference.NoEarlierRows | src/predict.py:283-296 | With no observation before the target the window is empty, so the cold-start values apply. |
| Inference.StdOrTenAsWritten | src/predict.py:318 | `std() or 10` as written: a zero deviation becomes 10 and a missing one stays missing; AsWrittenStdMissing says when. |
| Inference.StdOrTen | src/predict.py:318 | The corrected deviation fallback is never missing. |
| Inference.RecentLagsAsWritten | src/predict.py:279-322 | `_calculate_lag_features` as written: the cold-start values for an empty window, otherwise lags, means, max, min and the as-written deviation; stated by AsWrittenStdMissing, ShortHistory and AgreesWithTraining. |
| Inference.RecentLags | src/predict.py:279-322 | The same lag features with the corrected deviation fallback; RecentLagsPresent states that none is missing. |
| Inference.AsWrittenAgreesWithIntended | src/predict.py:279-322 | The as-written and corrected lag features are equal exactly when the window does not hold a single observation. |
| Inference.SingleObservationStd | src/predict.py:318 | As written, one earlier observation leaves `rolling_std_7` missing; the corrected fallback gives 10. |
| Inference.GeneralCategoryIsText | src/predict.py:267 | As written, without a stored row the `pincode_category` entry of the vector is the requested PIN code as text. |
| Inference.CategoryFeature | src/predict.py:267 | The `pincode_category` feature is the built category label. |
| Inference.IntendedCategoryOfDigits | src/train_model.py:39 | A digit-only PIN code reads back from CSV as the integer its digits write, as the training column holds it. |
| Inference.AsWrittenStdMissing | src/predict.py:314-320 | As written, the deviation is missing exactly when the window holds a single observation. |
| Inference.RecentLagsPresent | src/predict.py:279-322 | With the corrected fallback, no lag feature built at inference is ever missing. |
| Inference.ShortHistory | src/predict.py:298-312 | With fewer than k observations, `lag_k` is the mean of all of them and the window is the whole history. |
| Inference.ConstantWindow | src/predict.py:285-320 | A window of equal footfalls c gives every lag and statistic c, with the deviation falling back to 10; with two or more values the code as written gives the same. |
| Inference.AgreesWithTraining | src/predict.py:283-320 | When the inference window is a training row's history of at least 30 rows, every lag, rolling mean, max and min that the code as written builds equals the training table's value. |
| Inference.StdAgrees | src/predict.py:318 | For a window that is not constant, the inference deviation equals the training one. |
| Inference.TypeCodeOrOne | src/predict.py:243-246 | The centre-type code follows the training map, and is 1 for an unknown type. |
| Inference.EncodeCategorical | src/predict.py:324-329 | A value not in the historical column is encoded as 0. |
| Inference.EncodeFirstAppearance | src/predict.py:324-329 | A value is encoded as the number of distinct values seen before its first appearance. |
| Inference.General | src/predict.py:219-266 | The feature groups the general path builds, as written: the target's calendar columns with both holiday flags 0, the PIN code's geographic codes, the as-written lag features and the interactions; HolidayFlagsZero and GeneralStdMissing state them. |
| Inference.GeneralStdMissing | src/predict.py:279-322 | On the general path `rolling_std_7` is missing exactly when the PIN code has a single observation before the target; otherwise the built lags are the corrected ones. |
| Inference.Feature | src/predict.py:221-266 | The value the general path's dictionary holds under each feature name, or none for a name it does not build; HolidayFlagsZero and GeneralPath use it. |
| Inference.HolidayFlagsZero | src/predict.py:233-235 | On the general path both holiday flags and the weekend-holiday interaction are always 0. |
| Inference.ZeroColumns | src/predict.py:269-275 | The zero fill adds, as 0, exactly the trained features that the built dictionary lacks. |
| Inference.ZeroFill | src/predict.py:269-275 | The zero-fill loop produces exactly those added columns. |
| Inference.Reindex | src/predict.py:277 | The reindexed vector has one value per trained feature name. |
| Inference.Select | src/predict.py:215-217 | Selecting the trained features from a stored row gives each named column, in the trained order. |
| Inference.StoredIndex | src/predict.py:210-213 | The lookup finds the first history row for the (PIN code, date) request, or reports that there is none. |
| Inference.FeatureVector | src/predict.py:190-277 | Every built vector has exactly one value per trained feature; its entries are stated by FastPath and GeneralPath, and on the general path it follows the code as written, deviation fallback included. |
| Inference.VectorExists | src/predict.py:200-206 | A known PIN code always gets a feature vector. |
| Inference.FastPath | src/predict.py:208-217 | When a stored row for the request exists, the vector is exactly that row's trained columns. |
| Inference.StoredNotAfterLast | src/predict.py:208-213 | A stored row for the request means the target is not after the PIN code's last date, so the fast path's date test passes. |
| Inference.GeneralPath | src/predict.py:219-277 | Without a stored row, each trained feature is the value the code as written builds, or 0 when the general path does not build it. |
| Inference.BuildFeatures | src/predict.py:190-277 | The step-by-step builder returns exactly FeatureVector, which follows the code as written: the stored row's trained columns when there is one, otherwise the general path's as-written features zero-filled. |
| Inference.RoundHalfEven | src/predict.py:81 | Rounding lands within half a unit of the value and picks the even integer on a tie. |
| Inference.Prediction | src/predict.py:50-83 | A prediction is missing exactly when the PIN code is unknown. |
| Inference.PredictionNearModel | src/predict.py:80-81 | A known PIN code's prediction is within half a unit of the regressor's output, or 0 when that output rounds below 0. |
| Inference.PredictSingleDay | src/predict.py:50-83 | `predict_single_day` returns exactly the specified prediction. |
| Inference.PredictionsCover | src/predict.py:96-111 | A known PIN code gets one row per day for consecutive days in order; an unknown one gets none. |
| Inference.RowsAll | src/predict.py:100-109 | When every day succeeds there is one row per day, with its date, day name and prediction. |
| Inference.PredictWeek | src/predict.py:85-111 | `predict_week` returns the successful predictions for the seven days from the start. |
| Inference.PredictDays | src/predict.py:98-109 | The day loop returns the successful predictions for each day from the start, in order. |
| Inference.MonthPredictions | src/predict.py:126-131 | The month request fails exactly for a year outside 1..9999, a month outside 1..12, or December 9999. |
| Inference.MonthCoversEveryDay | src/predict.py:126-146 | For a known PIN code and any month from January 1 to November 9999, the rows are days 1 to the last day of the month, in order, with 31 December included. |
| Inference.PredictMonth | src/predict.py:113-146 | `predict_month` returns exactly the specified month rows, or the same error. |
| Inference.MonthEnd | src/predict.py:128-131 | The month's last day is the day before the next month's first, and after December comes next year's 1 January. |
| Inference.Compared | src/predict.py:171-183 | The results list in request order: one entry per requested PIN code that has a prediction and info; ComparedAreKnown states it. |
| Inference.ComparedAreKnown | src/predict.py:171-183 | Exactly the requested known PIN codes are compared, each with its prediction and info. |
| Inference.ComparePincodes | src/predict.py:160-188 | The comparison is sorted by predicted footfall, descending, and is a permutation of the results. With no result at all, sorting raises KeyError. |
| RealData.RenameColumns | src/load_real_data.py:50-61 | The column names after the UIDAI mapping; RenameColumnsSpec states it. |
| RealData.RenameColumnsSpec | src/load_real_data.py:50-61 | Renaming gives each UIDAI name its expected name and leaves unlisted names and positions alone. |
| RealData.RenamedExportComplete | src/load_real_data.py:50-61 | An export with all six UIDAI columns has every expected column once renamed. |
| RealData.PadPin | src/load_real_data.py:71 | A padded PIN code is at least six characters long. |
| RealData.PadPinSpec | src/load_real_data.py:71 | A PIN code of six or more characters is kept; a shorter unsigned one gets leading zeros up to six, and its text is a suffix of the result. |
| RealData.CenterTypeOf | src/load_real_data.py:75-87 | The mapped centre type is always Urban, Rural or Semi-Urban. |
| RealData.CenterTypeCaseInsensitive | src/load_real_data.py:86 | Spellings that differ only in letter case map alike. |
| RealData.CenterTypeIdempotent | src/load_real_data.py:75-87 | Mapping an already-mapped centre type changes nothing. |
| RealData.CleanName | src/load_real_data.py:90-91 | `strip` then `title` of a district or state name; CleanNameIdempotent, TitleSpec and StripSpec state it. |
| RealData.CleanNameIdempotent | src/load_real_data.py:90-91 | Stripping and title-casing a cleaned name changes nothing. |
| RealData.AddToSums | src/load_real_data.py:93-96 | Adding a row raises its key's sum, and the total, by its footfall. |
| RealData.AddToKeys | src/load_real_data.py:93-96 | Adding a row adds its key if new, and keeps keys unique. |
| RealData.Aggregate | src/load_real_data.py:93-96 | The summing part of the group-by, one entry per key; AggregateSpec states it. |
| RealData.AggregateSpec | src/load_real_data.py:93-96 | After the summing each key occurs once, the keys are the input's, each sum is the input rows' sum, and the total is preserved. |
| RealData.EntryLeTotalPreorder | src/load_real_data.py:94 | The group-by's key order (date, PIN code, district, state, centre type) is total and transitive. |
| RealData.GroupBy | src/load_real_data.py:94-96 | The group-by's output is sorted by key and is a permutation of the sums. |
| RealData.PermutedKeys | src/load_real_data.py:94-96 | Sorting the sums keeps exactly their keys, and keeps them unique. |
| RealData.TotalSorted | src/load_real_data.py:94-96 | Sorting the sums keeps the total footfall. |
| RealData.Load | src/load_real_data.py:63-140 | The loaded rows and the too-few-days warning; LoadTotals and LoadWarning state them. |
| RealData.LoadTotals | src/load_real_data.py:63-96 | The loaded rows are sorted by key, have unique keys (exactly those of the cleaned export rows), each with the footfall of the export rows that clean to it, and the export's total. |
| RealData.LoadWarning | src/load_real_data.py:133-140 | The too-few-days warning is given exactly when the export covers fewer than 60 distinct days. |
| RealData.Latest | src/load_real_data.py:189 | The newest date is a row's date and no row is newer. |
| RealData.Coverage | src/load_real_data.py:184 | The number of distinct dates of one PIN code. |
| RealData.LowCoveragePins | src/load_real_data.py:184-185 | The PIN codes with fewer than 30 distinct dates; LowIff states it. |
| RealData.Issues | src/load_real_data.py:175-197 | The issues recorded, in check order; NoIssuesIff, MissingIff and LowIff state them. |
| RealData.NoIssuesIff | src/load_real_data.py:175-209 | Validation passes exactly when every required column is present, every PIN code has at least 30 distinct days, the newest row is at most 90 days old, and no footfall is negative. |
| RealData.MissingIff | src/load_real_data.py:177-181 | No column is reported missing exactly when all six are present. |
| RealData.LowIff | src/load_real_data.py:183-187 | No PIN code is reported sparse exactly when each has at least 30 distinct days. |
| RealData.ValidateForModeling | src/load_real_data.py:158-209 | The check raises KeyError for a missing date, pincode or footfall column (in that order), and otherwise returns whether no issue was recorded. |
| Training.FeatureColumns | src/train_model.py:96 | The columns not in the exclusion list, in table order; FeatureColumnsSpec and FeatureColumnsOrder state them. |
| Training.FeatureColumnsSpec | src/train_model.py:88-96 | The features are exactly the table's columns that are not excluded. |
| Training.FeatureColumnsOrder | src/train_model.py:96 | Selection keeps the table's column order. |
| Training.PrepareData | src/train_model.py:84-104 | Preparing fails exactly when the table has no footfall column. |
| Training.SplitIndex | src/train_model.py:49 | `int(len(df) * (1 - test_size))`, truncated toward zero; SplitProportion and SplitAtMinusN use it. |
| Training.Trunc | src/train_model.py:49 | `int()` of a float truncates toward zero. |
| Training.SliceBound | src/train_model.py:52-55 | A slice bound within the table is the cut itself and never passes the table's end. |
| Training.SplitRows | src/train_model.py:49-57 | The split fails exactly when `iloc[split_index]` or `iloc[split_index - 1]` names no row, that is unless -n < split_index < n. |
| Training.SplitAtMinusN | src/train_model.py:49-57 | A one-row table with test_size 2 has split_index -1 = -n: `iloc[-1]` works, `iloc[-2]` raises IndexError. |
| Training.SplitPartition | src/train_model.py:49-55 | A successful split trains on a prefix, tests on the rest, and puts every row in exactly one part, with a non-empty test part. |
| Training.SplitProportion | src/train_model.py:49 | With a test share in (0, 1] and rows present, the training part holds the first floor(n·(1 − test_size)) rows. |
| Training.EmptyTableFails | src/train_model.py:50 | An empty table stops training with IndexError. |
| Training.SplitIsNotByDate | src/train_model.py:49-55 | The split is positional: two observations sorted by (pincode, date), 110001 on day 5 and 110002 on day 1, split at 0.5 so that the later-dated row trains and the earlier-dated one tests. |
| Training.DemandModel.TrainModel | src/train_model.py:25-82 | Without a date column training raises KeyError('date') and changes nothing; without footfall, KeyError('footfall'). Otherwise it sets `feature_names` to the selected columns (even if the split then fails), then raises the split's IndexError or sets the model to the fit on the training rows. |
| Training.DemandModel.SaveModel | src/train_model.py:242-263 | The saved metadata's feature names are exactly the trained feature columns in order, and the model type is XGBoost Regressor. |
| Panel.TypeOfChoice | data_generator_panel.py:182-189 | Choice '2' is Rural, '3' is Semi-Urban, anything else Urban. |
| Panel.IntOr | data_generator_panel.py:192-250 | `int()` of the answer, or the fallback where `int()` raises ValueError. |
| Panel.NewEntry | data_generator_panel.py:182-202 | A new entry always has a valid centre type. |
| Panel.Edited | data_generator_panel.py:229-252 | The entry after the edit answers; EditedFields and EditedSpec state it. |
| Panel.EditedFields | data_generator_panel.py:229-252 | Each answer acts on its own field: a non-blank district or state replaces that field, choices 1-3 set Urban, Rural or Semi-Urban and any other choice keeps the type, and an integer footfall replaces the base footfall while anything else keeps it. |
| Panel.EditedSpec | data_generator_panel.py:213-252 | Blank answers keep an entry, answering twice is answering once, and a valid type stays valid. |
| Panel.RemoveFirst | data_generator_panel.py:419-425 | `list.remove` of a holiday: one fewer element when the date is listed; RemoveFirstCount states which one goes. |
| Panel.RemoveFirstCount | data_generator_panel.py:419-425 | Removing a date takes away one copy of it, if it is listed, and keeps everything else. |
| Panel.RemoveFirstAbsent | data_generator_panel.py:419-425 | Removing an unlisted date changes nothing. |
| Panel.RemoveFirstNoDuplicates | data_generator_panel.py:419-425 | A duplicate-free list stays duplicate-free and no longer holds the date. |
| Panel.Merged | data_generator_panel.py:445-457 | The holiday list after an import; MergedSpec states it. |
| Panel.MergedSpec | data_generator_panel.py:445-457 | Importing only appends: the old list is a prefix, every imported date is listed, nothing else is added, and a duplicate-free list stays duplicate-free. |
| Panel.FirstInvalid | data_generator_panel.py:300-316 | The bulk import stops at the first row whose base footfall is not an integer. |
| Panel.Upserted | data_generator_panel.py:300-314 | The registry after the imported rows are stored; UpsertedOther and UpsertedLast state it. |
| Panel.UpsertedOther | data_generator_panel.py:300-314 | A PIN code no imported row names keeps its entry and is not added. |
| Panel.UpsertedLast | data_generator_panel.py:300-314 | A PIN code the rows name ends with the values of the last row naming it. |
| Panel.Registry.constructor | data_generator_panel.py:16-19 | The panel starts with the generator's PIN codes and holidays. |
| Panel.Registry.AddPincode | data_generator_panel.py:161-205 | A six-digit PIN code that is not yet listed is inserted with its entry; otherwise nothing changes. Holidays are untouched. |
| Panel.Registry.EditPincode | data_generator_panel.py:207-255 | An unknown PIN code changes nothing; a known one gets its edited entry and no other entry changes. |
| Panel.Registry.DeletePincode | data_generator_panel.py:257-282 | The key is removed exactly when it is listed and the stripped, lower-cased confirmation is 'yes'. |
| Panel.Registry.BulkImportPincodes | data_generator_panel.py:284-318 | A missing column raises KeyError before anything is stored. Otherwise the rows before the first base footfall `int()` rejects are upserted, with later rows overwriting earlier ones. A full import returns the row count, and a rejected footfall stops the import with an error. |
| Panel.Registry.AddHoliday | data_generator_panel.py:392-411 | A date `strptime` rejects is an error; a valid one is appended only if not listed, so the list stays duplicate-free. |
| Panel.Registry.DeleteHoliday | data_generator_panel.py:413-427 | Deletion removes the first copy of a listed date and reports whether one was there. |
| Panel.Registry.ImportHolidays | data_generator_panel.py:429-459 | Each stripped date not yet listed is appended once, in file order; the count is the number appended; a missing date column raises KeyError. |
| Calendar.DayNumber | src/feature_engineering.py:244-286 | The day number of a civil date; DayNumberRoundTrip and DaysBeforeYearClosed state it. |
| Calendar.CivilFromDays | src/feature_engineering.py:256-265 | The civil date pandas' `.dt` accessors read off a day; CivilFromDaysValid states it. |
| Calendar.CivilFromDaysValid | src/feature_engineering.py:256-265 | Every day number names a valid civil date that numbers back to it. |
| Calendar.DayNumberRoundTrip | src/feature_engineering.py:256-265 | Numbering a valid date and converting back gives the date. |
| Calendar.DayOfWeek | src/feature_engineering.py:244 | The day of week is in 0..6; that it is the weekday with Monday 0 is stated by DayOfWeekAgreesWithSakamoto and FirstDayMonday. |
| Calendar.DayOfWeekAgreesWithSakamoto | src/feature_engineering.py:244 | For every valid date, the day of week equals Sakamoto's independent weekday formula shifted so that Monday is 0. |
| Calendar.DayNumberBySakamoto | src/feature_engineering.py:244 | A valid date's day number is one less than Sakamoto's sum plus a multiple of 7. |
| Calendar.DaysBeforeYearClosed | src/feature_engineering.py:244-286 | The days before a year are 365 per year plus one per Gregorian leap year (every 4th, not every 100th, every 400th). |
| Calendar.LeapStep | src/feature_engineering.py:244-286 | The leap-year count grows by one exactly at a leap year. |
| Calendar.DayName | src/feature_engineering.py:247 | The English name of the day of week; WeekdayNamesCycle and KnownWeekdays state what it gives. |
| Calendar.FirstDayMonday | src/feature_engineering.py:247 | 0001-01-01, day 0, is named Monday. |
| Calendar.KnownWeekdays | src/feature_engineering.py:247 | 2024-01-01 is named Monday and 2025-01-26 Sunday. |
| Calendar.WeekdayNamesCycle | src/feature_engineering.py:247 | Names repeat every seven days, and the seven days of a week all have different names. |
| Calendar.DayOfYear | src/feature_engineering.py:286 | The day of year is in 1..366; its value is stated by DayOfYearOfDate. |
| Calendar.DayOfYearOfDate | src/feature_engineering.py:286 | For every valid date, the day of year is the days of the months before it plus its day of month. |
| Calendar.SplitOfDate | src/feature_engineering.py:256-286 | A valid date's day number lies in its own year, at the offset of its month and day. |
| Calendar.NextMonthStart | src/predict.py:126-131 | Days within a month are consecutive, the next month follows the last day, and 1 January follows 31 December. |
| IsoDate.ParseFormatRoundTrip | data_generator_panel.py:398-403 | Formatting a date as YYYY-MM-DD and parsing it back gives the date. |
| IsoDate.ParsedIsFormattable | data_generator_panel.py:398-403 | Every text that parses is a date that formats back to a text parsing to the same date. |
| IsoDate.ParseIso | data_generator_panel.py:398-403 | A parsed date is a valid civil date with a four-digit year. |
| Text.Strip | data_generator_panel.py:166 | `strip()` of ASCII whitespace; StripSpec states it. |
| Text.StripSpec | data_generator_panel.py:166 | Stripping cuts only whitespace from the ends and leaves no whitespace at either end. |
| Text.StripIdempotent | data_generator_panel.py:166 | Stripping twice is stripping once. |
| Text.Title | src/load_real_data.py:90-91 | `title()` on ASCII letters; TitleSpec states it. |
| Text.TitleSpec | src/load_real_data.py:90-91 | Title-casing upper-cases each word's first letter and lower-cases the other letters, leaving non-letters alone. |
| Text.TitleIdempotent | src/load_real_data.py:90-91 | Title-casing twice is title-casing once. |
| Text.ParseInt | data_generator_panel.py:192 | `int()` of ASCII decimal text, none where Python raises ValueError; ParseIntOfIntToString states its round trip. |
| Text.ParseIntOfIntToString | src/feature_engineering.py:129-131 | Printing an integer and parsing it back gives it back. |
| Text.ZFill | src/load_real_data.py:71 | `zfill()`; ZFillUnsigned and ZFillSigned state it. |
| Text.ZFillUnsigned | src/load_real_data.py:71 | Zero-filling unsigned text only prepends zeros. |
| Text.ZFillSigned | src/load_real_data.py:71 | Zero-filling signed text keeps the sign in front and puts the zeros after it. |
| Text.StrLeTotal | src/feature_engineering.py:200 | Python's string order is total. |
| Text.StrLeTransitive | src/feature_engineering.py:200 | Python's string order is transitive. |
| Text.StrLeAntisymmetric | src/feature_engineering.py:200 | Python's string order is antisymmetric. |
| Seqs.SortBy | src/feature_engineering.py:200 | A stable insertion sort; SortBySpec states it. |
| Seqs.SortBySpec | src/feature_engineering.py:200 | The stable sort's output is ordered and a permutation of the input. |
| Seqs.DistinctCount | src/feature_engineering.py:304-307 | The number of distinct values is the size of the set of values. |
| Seqs.CodeIsFirstAppearanceRank | src/feature_engineering.py:304-307 | A factorize code counts the distinct values seen before the value's first appearance. |
| Seqs.CodeOrder | src/feature_engineering.py:304-307 | A value that first appears later gets a larger code. |
| Seqs.ConstantVariance | src/feature_engineering.py:350-354 | The sample variance of two or more equal values is 0. |
| Seqs.SampleVariance | src/feature_engineering.py:350-354 | The sample variance exists exactly for two or more values and is never negative. |
| Seqs.MaxOf | src/feature_engineering.py:363-367 | The maximum is an element and no element exceeds it. |
| Seqs.MinOf | src/feature_engineering.py:370-374 | The minimum is an element and no element is below it. |
| Seqs.TailOfTail | src/predict.py:283-320 | The last m of the last n values (m ≤ n) are the last m values. |
| Seqs.Filter | src/predict.py:200-202 | Boolean-mask selection, keeping order; FilterMembers states it. |
| Seqs.Select | src/feature_engineering.py:220 | Reference for a row selection: the elements whose flag is set, in order. |
| Seqs.FilterIsSelect | src/feature_engineering.py:220 | Filtering by a condition equals selecting by flags that agree with it. |
| Seqs.FilterMembers | src/predict.py:200-206 | Filtering keeps exactly the elements satisfying the condition. |
| Tables.Rename | src/feature_engineering.py:94-99 | Renaming onto an absent name keeps the column's place and cells under the new name. |
| Tables.SetColumn | src/feature_engineering.py:119-131 | Assigning a column replaces it in place, or appends it last. |
| Tables.ReplacedMembers | src/feature_engineering.py:94-99 | Renaming swaps one name for the other in the set of column names. |

## Left out

- Reading and writing files is not modelled: CSV, Excel and JSON loading, `to_csv`, joblib, and the saved XGBoost model. Tables arrive as given rows or frames.
- Console output (`print`), `input()`, the menus, `clear_screen`, and the panel's config save and load are not modelled. The panel's typed answers are method parameters.
- The regressor and its fitting are not modelled: XGBoost is an opaque function from a feature vector to a real, and `fit` is a parameter.
- Training metrics (MAE, RMSE, R², MAPE), `_evaluate_model`, the plots, and the timestamps in the saved metadata are not modelled.
- Floating point is modelled as exact reals. Each standard deviation is kept as an exact `Sqrt(variance)` and not evaluated.
- Rounding is Python/NumPy round-half-even on the real value; float32 output precision is not modelled.
- `datetime.now()` / `pd.Timestamp.now()` becomes the `today` parameter of `ValidateForModeling`.
- Only date text in `YYYY-MM-DD` form is parsed (`strptime` rules for `%Y-%m-%d`). Other formats `pd.to_datetime` accepts are treated as parse failures. Timestamps are whole days, and the pandas Timestamp range is not modelled.
- Inference.FeatureVector requires `Valid(p)`: every history row holds every trained feature. The metadata and the table come from the same training run. A history table lacking a trained column (a KeyError in the source) is not modelled.
- Inference.PredictMonth: the source's `while current_date <= end_date` loop is modelled as a loop over a day count from the 1st. Both visit the same days, as MonthCoversEveryDay and MonthEnd show.
- Inference.PincodeInfo: the info table is a map, so the insertion order of the source's dict is not modelled. The order appears only in the five PINs printed for an unknown PIN code.
- The summary statistics `predict_month` prints are not modelled, and neither is `main`.
- Inference.GeneralPath: the `else 1.0` branch of the lag ratio (src/predict.py:261-264) is unreachable. `_calculate_lag_features` always sets `footfall_lag_7` and `footfall_rolling_mean_30`, so the model computes the ratio directly.
- Features.EngineerFeaturesRows: the holiday list of `FeatureEngineer.__init__` is a parameter, and the 25 literal dates are not checked to be canonical `%Y-%m-%d` text.
- Reconcile.ValidateAndFixColumns returns a new frame. The in-place change to the caller's frame is not modelled; `engineer_features` reassigns the result anyway.
- Duplicate column names that pandas would create when a rename targets an existing column are not modelled. Renames apply only onto absent names, as the source's guard ensures.
- Panel.Registry.ImportHolidays: when an exception is raised partway through the file, the dates already appended stay in the source. The model only raises KeyError for a missing column, before any append. Malformed dates are not validated on import, as in the source.
- Inference.Prediction: on the general path `pincode_category` is the PIN code as text (src/predict.py:267), while training reads that column back from CSV as integers (src/train_model.py:39). The predictions, and PredictionsCover and MonthCoversEveryDay, assume a regressor that accepts that text label. XGBoost may instead raise ValueError there, and the model does not raise it. The Findings table records the mismatch.
- IsoDate.ParseIso accepts ASCII digits only, while the `\d` of `_strptime` also matches other Unicode decimal digits.
- Missing (NaN) cells and non-integer numbers are not modelled: a cell is text, an integer or a day, and so are the cells of pincode rows, raw export rows and history rows. A table whose footfall column holds floats is outside the model.
- Features.FeaturesOf: `dropna` also drops rows whose district, state or centre type is NaN. Since cells cannot be missing, only the lag and rolling columns decide which rows survive.
- RealData.GroupBy: pandas' `groupby` drops keys holding NaN (`dropna=True`). Cells cannot be missing, so every row keeps its key.
- Text.Strip, Text.Upper, Text.Lower, Text.Title, Text.ZFill, Text.ParseInt work on ASCII only. Unicode whitespace, Unicode case mapping and non-ASCII digits are not modelled.
- Panel.ValidPin and Panel.Registry.AddPincode test PIN codes with ASCII digits only, while `str.isdigit()` also accepts other Unicode digits.
- RealData.Load: an export that lacks a UIDAI column raises KeyError in the source. The model takes rows that always hold every column, so that error is not modelled.
- Inference.PinHistory: uses a stable sort. `sort_values('date')` uses quicksort, which pandas does not promise to be stable on equal dates, so the order of same-day rows may differ.
- The model follows the code where the two differ: `engineer_features` reads `date` before the column repair runs. A date synonym therefore never helps, and the model raises KeyError('date') as the code does.
- Not modelled: `app.py`, `menu.py`, `run_pipeline.py`, the visualizations, `src/data_generator.py` (random footfall) and `src/validate_robustness.py`. Also left out: the panel's view, export, generate, reset and statistics screens.

## Findings

| source | as written | input that shows it | evidently intended | confidence | as-written member | corrected member |
|---|---|---|---|---|---|---|
| src/predict.py:318 | `pin_history.tail(7)['footfall'].std() or 10` keeps NaN when the window holds one observation, since NaN is truthy; the prediction chain keeps this behaviour (GeneralStdMissing) and RecentLags holds the correction | a PIN code with exactly one observation before the target date | 10 whenever the deviation is zero or undefined | not executed | Inference.SingleObservationStd | Inference.RecentLagsPresent |
| src/predict.py:267 | `features['pincode_category'] = pincode` puts the PIN code as text where training read the column back from CSV as integers | a known PIN code with no stored row for the target date | the integer the PIN code's digits write, as in the training table | not executed | Inference.GeneralCategoryIsText | Inference.IntendedCategoryOfDigits |
