# Learning-hours dashboard core, modelled in Dafny

This project models the data core of a Streamlit dashboard. The dashboard reports
learning hours for the member companies of a group and for their employees. The
model covers three Python modules:

- `modules/change_group_analyzer.py` sorts people into five *change groups* by
  their learning hours in two comparison years:
  - 지속 저학습군: persistently low;
  - 지속 고학습군: persistently high;
  - 상승군: rising;
  - 하락군: falling;
  - 불규칙군: irregular.

  It also summarises each group per year. The default thresholds are
  0.5 / 1.5 / 0.1 / -0.1.
- `modules/file_uploader.py` prepares an uploaded table in four steps:
  1. It renames columns to their standard names through the alias table
     `COLUMN_ALIASES`.
  2. It validates the renamed table against the file type's required columns.
  3. It converts minutes to hours and `yyyymm` month codes to months.
  4. It stores the table and its file-type description in the session's
     `uploaded_data` dictionary.
- `modules/data_loader.py` contains:
  - the seven getters that read `uploaded_data`;
  - the preprocessing of the annual table and of the per-person table;
  - the sorted list of member companies.

## Modules

- **`Tables`** (`tables.dfy`) defines what a pandas DataFrame is in this model:
  - `Value` is a cell: `Int`, `Real`, `Text` or `Missing` (NaN/None).
  - `Table` is a value with column labels and rows.
  - `Frame` is a class for a DataFrame *object*. The source changes these objects
    in place (`df[col] = ...`, `df.columns = ...`) and shares them between the
    session and its callers.
- **`Sorting`** holds the generic parts:
  - an insertion sort by a total preorder, proved sorted and a permutation;
  - pandas `unique` (every value once);
  - lexicographic string order, the order `sorted()` uses on `str`.
- **`ChangeGroups`** (`change_groups.dfy`) models the analyser:
  - The input is a typed observation table: person, year, hours, each possibly
    missing.
  - A year cell is an integer, a float or a text, so the `isinstance(col, int)`
    filter is explicit.
  - The table carries the dtype of its year column (`YearType`: int64,
    float64 or object). pandas fixes the dtype when it reads the upload, and a
    selection of rows such as the dashboard's company filter keeps it.
    `InferredYearType` is the dtype of a freshly read column: float64 once a
    numeric column has a missing or fractional cell. In a float64 column no
    pivot label is an integer.
  - The pivot table is described by functions: its index is the sorted distinct
    person IDs, and a cell sums hours with NaN counted as 0.
  - Classification is a method with a loop, proved against the rule chain
    `Classify`.
- **`FileUploader`** (`file_uploader.dfy`) models:
  - `str.strip` with Python's whitespace set;
  - the alias table as Python evaluates its literal: the second `'학습시간'` key
    replaces the first entry's alias list but keeps its position;
  - the column map built by `normalize_columns`, as a function and as the loop
    that computes it;
  - validation, with its messages;
  - the two conversions;
  - the `Session` class that holds `uploaded_data`.
- **`DataLoader`** (`data_loader.dfy`) models the getters over a `Session`, the two
  preprocessors as methods over `Frame` objects, and the company list.

Two behaviours of the code are modelled as written:

- **`save_to_session` normalises twice.** It validates `normalize_columns` of the
  already normalised table, but stores the table normalised once. An alias that
  maps onto another alias is therefore followed twice for validation and once
  for storage. For example, `네트웍스` becomes `이수인원`, and `이수인원` is
  itself an alias of `학습자수`. `Prepared` states which table is validated and
  which is stored.
- **`preprocess_individual_data` changes its argument in place.** It converts
  the caller's `학습시간` column before any copy is made. It also adds `조직` to
  the caller's object when no year filter made a copy first. This happens even
  when the call then raises `KeyError` because `학습시간` is absent.
  `IndividualCallerAfter` states what the caller's object holds afterwards.

## Model

| member | source | states |
|---|---|---|
| ChangeGroups.LoadThresholds | modules/change_group_analyzer.py:11-28 | no config, or a config without the section, gives 0.5 / 1.5 / 0.1 / -0.1; otherwise the configured section |
| ChangeGroups.PivotIndex | modules/change_group_analyzer.py:56-61 | the pivot index holds exactly the persons of rows with a person and a year, each once, in ascending order |
| ChangeGroups.InferredYearType | modules/change_group_analyzer.py:56-64 | the dtype of a freshly read year column: object iff a cell is text, float64 iff a numeric column has a missing or fractional cell, otherwise int64; every cell fits the dtype |
| ChangeGroups.AsFloat | modules/change_group_analyzer.py:56-64 | an integer year read from a float64 column becomes the float label of the same value; everything else is unchanged |
| ChangeGroups.YearLabels | modules/change_group_analyzer.py:56-64 | the rows as the pivot labels them, by the table's dtype: same persons, hours and missing years; in a float64 column no year is an integer; int64 and object columns unchanged |
| ChangeGroups.NoIntYears | modules/change_group_analyzer.py:64 | rows without an integer year give no integer year column |
| ChangeGroups.FloatColumnUnclassifiable | modules/change_group_analyzer.py:56-66 | a float64 year column makes the classification `{}` and leaves the statistics without years |
| ChangeGroups.MissingYearGivesNoGroups | modules/change_group_analyzer.py:56-66 | (A, 2024, 10), (A, 2025, 20), (B, missing, 5) is read as float64 and classified as `{}` |
| ChangeGroups.TwoIntYearsClassified | modules/change_group_analyzer.py:56-72 | A's two rows read as a file of their own are int64 and pass every early exit |
| ChangeGroups.SelectionKeepsUploadType | modules/change_group_analyzer.py:56-66 | A's two rows selected from that upload keep float64 and give `{}`; the same rows read on their own do not |
| ChangeGroups.CellHours | modules/change_group_analyzer.py:56-61 | the pivot cell with `aggfunc='sum'` and `fillna(0)`: the hours of p's rows in year y, a missing hours cell adding nothing |
| ChangeGroups.ColumnMean | modules/change_group_analyzer.py:83-84 | a column's mean over the pivot persons |
| ChangeGroups.Unclassifiable | modules/change_group_analyzer.py:39-72 | the early exits: no table, a missing 연도, 학습시간 or 개인ID column, no integer year label, fewer than two years from 2022 on |
| ChangeGroups.AvailableYears | modules/change_group_analyzer.py:64-69 | exactly the integer year columns from 2022 on, strictly ascending |
| ChangeGroups.ComparisonYears | modules/change_group_analyzer.py:74-80 | 2024 and 2025 when both are available, otherwise the two largest available years; the first is below the second |
| ChangeGroups.PersonsCoverYears | modules/change_group_analyzer.py:56-69 | a pivot with a year column has at least one person, so the column means are defined |
| ChangeGroups.Compare | modules/change_group_analyzer.py:82-85 | with two available years the comparison has a non-empty index |
| ChangeGroups.OverallMeanFromTotals | modules/change_group_analyzer.py:82-85 | the overall mean is the two years' total hours over twice the number of persons |
| ChangeGroups.ColumnMeansFromTotals | modules/change_group_analyzer.py:82-85 | over persons that cover every grouped row, the mean of the two column means is the two years' total hours over twice their number |
| ChangeGroups.ChangeRate | modules/change_group_analyzer.py:88 | rate times (a + 1) equals 100 (b - a); for a > -1 the rate is positive iff b > a and negative iff b < a; at a = -1 it is +inf, -inf, or 0 after fillna |
| ChangeGroups.RuleChain | modules/change_group_analyzer.py:107-127 | each group holds iff its rule holds and no earlier rule does: low in both years, high in both years, rate >= increase, rate <= decrease, else irregular |
| ChangeGroups.IsLow | modules/change_group_analyzer.py:108-109 | below the overall mean times the low threshold |
| ChangeGroups.IsHigh | modules/change_group_analyzer.py:110-111 | above the overall mean times the high threshold |
| ChangeGroups.Classify | modules/change_group_analyzer.py:107-127 | the five-rule chain, first match wins, with its meaning stated by RuleChain |
| ChangeGroups.GroupName | modules/change_group_analyzer.py:94-100 | the five dict labels, in dict order |
| ChangeGroups.PersonGroup | modules/change_group_analyzer.py:102-127 | the group of a person, from its two pivot cells and the baseline |
| ChangeGroups.Members | modules/change_group_analyzer.py:102-127 | the persons of a scan in one group, in scan order |
| ChangeGroups.HighBothIsPersistentlyHigh | modules/change_group_analyzer.py:114-121 | with non-negative mean and low <= high thresholds, persistently high iff high in both years |
| ChangeGroups.RateGroupsFollowTheTrend | modules/change_group_analyzer.py:122-125 | with non-negative hours and thresholds of the usual signs, rising implies more hours and falling fewer |
| ChangeGroups.LowIsStrict | modules/change_group_analyzer.py:108-109 | exactly the low bound is not low; just below it is |
| ChangeGroups.SmoothedRateExample | modules/change_group_analyzer.py:88 | from 0 to 50 hours the +1 smoothing gives 5000 %, classified rising under the defaults |
| ChangeGroups.ClassifyStep | modules/change_group_analyzer.py:102-127 | one loop step keeps the five lists equal to the members of each group among the persons scanned so far |
| ChangeGroups.GroupPersons | modules/change_group_analyzer.py:94-127 | the loop over the pivot index yields five named lists, in the source's order, each the persons of that group in index order |
| ChangeGroups.ClassifyChangeGroups | modules/change_group_analyzer.py:30-131 | empty result iff the table is missing or empty, a column is missing, no integer years, or fewer than two years from 2022; otherwise the classification |
| ChangeGroups.MembersCount | modules/change_group_analyzer.py:102-127 | a person occurs in a group's list as often as in the scan when the group is theirs, otherwise never |
| ChangeGroups.EveryPersonListedOnce | modules/change_group_analyzer.py:102-127 | every person of the pivot is listed exactly once, in their own group, and nobody else is listed |
| ChangeGroups.MembersWithin | modules/change_group_analyzer.py:102-127 | a group's members come from the scanned persons |
| ChangeGroups.MembersOrdered | modules/change_group_analyzer.py:102 | a strictly ascending scan gives strictly ascending group lists |
| ChangeGroups.ListsAscending | modules/change_group_analyzer.py:102 | every group list is strictly ascending by person ID |
| ChangeGroups.SizesAddUp | modules/change_group_analyzer.py:102-127 | the group sizes of a scan add up to its length |
| ChangeGroups.GroupSizesAddUp | modules/change_group_analyzer.py:94-127 | the five group sizes add up to the number of persons in the pivot |
| ChangeGroups.ColumnSumSplit | modules/change_group_analyzer.py:56-61 | a pivot column's sum splits into the first row's contribution and the rest |
| ChangeGroups.RowSpreadOnce | modules/change_group_analyzer.py:56-61 | a row adds its hours to exactly one pivot cell |
| ChangeGroups.RowSpreadNone | modules/change_group_analyzer.py:56-61 | a row whose person is outside the index adds nothing |
| ChangeGroups.ColumnSumIsYearTotal | modules/change_group_analyzer.py:56-61 | a pivot column sums to the year's total hours (missing hours count 0) |
| ChangeGroups.ColumnSumEmpty | modules/change_group_analyzer.py:56-61 | a pivot of no rows sums to zero |
| ChangeGroups.GroupHoursAddUp | modules/change_group_analyzer.py:56-127 | the groups' hours in any year add up to that year's total hours |
| ChangeGroups.InPivot | modules/change_group_analyzer.py:158 | the persons of the index that are in the member list, and only those |
| ChangeGroups.InPivotSameMembership | modules/change_group_analyzer.py:158 | the selection depends only on which index persons are members |
| ChangeGroups.InPivotOfMembers | modules/change_group_analyzer.py:158 | selecting a group's own members from the index returns that list unchanged |
| ChangeGroups.YearMeans | modules/change_group_analyzer.py:169-171 | one entry per available year, holding the group's mean hours for that year |
| ChangeGroups.MeansByYear | modules/change_group_analyzer.py:169-171 | the loop over the years computes those means |
| ChangeGroups.MeanChangeRate | modules/change_group_analyzer.py:174-179 | present iff 2024 and 2025 are available and the 2024 mean is positive |
| ChangeGroups.MeanChangeRateMeaning | modules/change_group_analyzer.py:174-179 | rate times the 2024 mean is 100 times the change; positive iff the 2025 mean is larger |
| ChangeGroups.GroupStatOf | modules/change_group_analyzer.py:153-181 | none iff the list is empty or names nobody in the pivot; otherwise the label, the list's length as the count, one mean per available year over the pivot members, and a rate iff 2024 and 2025 are available and the 2024 mean is positive |
| ChangeGroups.StatsRows | modules/change_group_analyzer.py:153-181 | at most one row per group, each with a positive count and one mean per available year; its content is stated by `StatsRowsAreSummary` and `StatisticsOfClassification` |
| ChangeGroups.GroupRow | modules/change_group_analyzer.py:153-181 | one group's row, or none when it has no members or none in the pivot |
| ChangeGroups.Summary | modules/change_group_analyzer.py:153-181 | the statistics of groups whose members all appear in the pivot |
| ChangeGroups.StatsRowsAreSummary | modules/change_group_analyzer.py:153-181 | when every list lies within the index, the pivot filter changes nothing |
| ChangeGroups.GetChangeGroupStatistics | modules/change_group_analyzer.py:133-183 | None iff the table is missing or empty, the groups are empty, or a column is missing; KeyError iff 개인ID is absent; otherwise the rows above |
| ChangeGroups.NoStatsInput | modules/change_group_analyzer.py:135-149 | the cases in which the statistics are `None` |
| ChangeGroups.StatisticsOfClassification | modules/change_group_analyzer.py:133-183 | for the analyser's own classification every non-empty group gets its row |
| FileUploader.StripLeft | modules/file_uploader.py:128 | removes exactly the leading whitespace |
| FileUploader.StripRight | modules/file_uploader.py:128 | removes exactly the trailing whitespace |
| FileUploader.Strip | modules/file_uploader.py:128 | the result is the slice of the input between its leading and its trailing whitespace, and neither starts nor ends with whitespace |
| FileUploader.StripIdempotent | modules/file_uploader.py:128 | stripping twice equals stripping once |
| FileUploader.LowerChar | modules/file_uploader.py:110 | changes exactly the upper-case ASCII letters, each to its lower-case letter; the result is never upper-case |
| FileUploader.Lower | modules/file_uploader.py:110 | same length, every character lower-cased by LowerChar |
| FileUploader.LowerIdempotent | modules/file_uploader.py:110-122 | lower-casing twice equals lower-casing once |
| FileUploader.DictFromPairs | modules/file_uploader.py:73-101 | a dict literal's keys end up distinct |
| FileUploader.DictFromPairsDistinct | modules/file_uploader.py:73-101 | a literal with distinct keys is kept as written |
| FileUploader.DictFromPairsKeys | modules/file_uploader.py:73-101 | a dict display's keys are its literal's keys, each once, in the order of their first occurrence |
| FileUploader.DictFromPairsValues | modules/file_uploader.py:73-101 | every key of a dict display holds the value of the last pair with that key |
| FileUploader.DictFromPairsRepeat | modules/file_uploader.py:73-101 | repeating a key at the end keeps its position with the new value |
| FileUploader.EffectiveAliases | modules/file_uploader.py:73-101 | 19 entries; 학습시간 stays fourth with the later list, which includes 학습시간(분) |
| FileUploader.KeyIndex | modules/file_uploader.py:109-110 | every key is present and leads back to a column with that key |
| FileUploader.KeyIndexLast | modules/file_uploader.py:110 | when several columns share a key, the dict comprehension keeps the last of them |
| FileUploader.LowerExisting | modules/file_uploader.py:110 | every stripped lower-case label leads back to a column |
| FileUploader.Matches | modules/file_uploader.py:117-122 | an alias matches exactly or by its lower-case form |
| FileUploader.Resolve | modules/file_uploader.py:115-124 | a matching alias resolves to an existing column |
| FileUploader.FirstMatch | modules/file_uploader.py:115-124 | the first alias that matches exactly or by lower case, and no earlier one |
| FileUploader.Claim | modules/file_uploader.py:115-124 | none iff no alias matches; otherwise an existing column |
| FileUploader.FirstMatchAt | modules/file_uploader.py:115-124 | when no alias before position j matches and the one at j does, the search stops at j |
| FileUploader.FindClaim | modules/file_uploader.py:115-124 | the alias loop with its break finds that column |
| FileUploader.EntryClaim | modules/file_uploader.py:111-124 | a standard name already in the header claims nothing; otherwise the entry claims an existing column iff one of its aliases matches |
| FileUploader.ClaimsOf | modules/file_uploader.py:111-124 | one (standard name, claimed column) pair per entry of the alias table, in table order |
| FileUploader.MapOfClaims | modules/file_uploader.py:111-124 | every claimed column is a key of `col_map` |
| FileUploader.MapOfClaimsSource | modules/file_uploader.py:111-124 | every key of `col_map` was claimed, for the standard name it maps to |
| FileUploader.MapOfClaimsLastWins | modules/file_uploader.py:111-124 | a column claimed several times maps to the standard name of its last claim |
| FileUploader.ColumnMapOver | modules/file_uploader.py:107-124 | every claimed column is mapped, and only existing columns, each to a standard name of the table that is absent from the header |
| FileUploader.ColumnMapOverLastWins | modules/file_uploader.py:111-124 | a column claimed by several standard names is renamed to the last of them |
| FileUploader.ColumnMap | modules/file_uploader.py:107-124 | `col_map` for a header, over the effective alias table |
| FileUploader.BuildColumnMap | modules/file_uploader.py:107-124 | the loop over the alias table builds that map |
| FileUploader.ColumnMapTargets | modules/file_uploader.py:111-124 | the map sends existing columns to absent standard names |
| FileUploader.PresentStandardSkipped | modules/file_uploader.py:112-114 | a standard name already present is never a target |
| FileUploader.RenameAll | modules/file_uploader.py:125-126 | each column is renamed by the map or kept |
| FileUploader.StripAll | modules/file_uploader.py:128 | each label is stripped |
| FileUploader.NormalizedColumns | modules/file_uploader.py:103-128 | same number of labels, each stripped; a mapped column gets its stripped standard name, others their stripped label |
| FileUploader.NormalizeColumnsOver | modules/file_uploader.py:103-135 | for any alias table: a missing or empty table is returned as is; otherwise labels are renamed by the map and stripped; a rename yields a new object and leaves the argument unchanged; with no rename the argument is relabelled in place |
| FileUploader.NormalizeColumns | modules/file_uploader.py:103-135 | a missing or empty table is returned as is; otherwise labels are normalised; a rename yields a new object and leaves the argument unchanged; with no rename the argument is relabelled in place |
| FileUploader.MissingColumns | modules/file_uploader.py:269 | exactly the required columns that are absent |
| FileUploader.Join | modules/file_uploader.py:271 | `', '.join` of the missing column names |
| FileUploader.ValidateFileStructure | modules/file_uploader.py:263-272 | "file empty" for a missing or empty table; valid iff every required column is present after normalisation; otherwise the message lists the missing columns |
| FileUploader.NothingMissing | modules/file_uploader.py:269-272 | nothing missing iff every required column is present |
| FileUploader.MinutesToHours | modules/file_uploader.py:290 | each cell becomes its number over 60, with non-numbers as 0 |
| FileUploader.NumberOrZero | modules/file_uploader.py:290 | `to_numeric(errors='coerce').fillna(0)` of one cell |
| FileUploader.ConvertMinutes | modules/file_uploader.py:288-290 | only when 학습시간 is present and the upload had 학습시간(분); only that column changes |
| FileUploader.LastTwoDigits | modules/file_uploader.py:300-302 | the value re-read from the last two characters of its decimal text |
| FileUploader.YearMonthToMonth | modules/file_uploader.py:297-302 | yyyymm gives mm |
| FileUploader.ShortValuesKept | modules/file_uploader.py:300-302 | a value of at most two characters is kept |
| FileUploader.MaxNumber | modules/file_uploader.py:298 | the largest numeric cell, skipping non-numbers; none iff there is no number |
| FileUploader.MonthCell | modules/file_uploader.py:300-302 | each cell becomes missing or an integer of at most two digits |
| FileUploader.Integral | modules/file_uploader.py:300 | `astype('Int64')` accepts the cell: missing, text made missing, or a whole number |
| FileUploader.MonthsApply | modules/file_uploader.py:296-300 | a 월 column whose largest number exceeds 12 and whose numbers are whole |
| FileUploader.ConvertMonths | modules/file_uploader.py:295-302 | only when 월 is present, its maximum is above 12 and every number is whole (a fractional one makes the cast raise and the handler keeps the column); then each 월 cell becomes its last two digits and no other column changes |
| FileUploader.MonthsAfterConversion | modules/file_uploader.py:295-302 | after the conversion a yyyymm cell holds its month |
| FileUploader.ConvertMinutesInPlace | modules/file_uploader.py:288-290 | the object now holds the converted table |
| FileUploader.ConvertMonthsInPlace | modules/file_uploader.py:295-302 | the object now holds the converted table |
| FileUploader.Prepared | modules/file_uploader.py:280-302 | stored iff the upload is non-empty and validation of the re-normalised table passes; the stored table has the once-normalised labels and all rows |
| FileUploader.PrepareFrame | modules/file_uploader.py:280-302 | a new object holding the prepared table, or null when it is not stored |
| FileUploader.Outcome | modules/file_uploader.py:279-307 | an upload is stored iff it loaded and was prepared |
| FileUploader.Outcomes | modules/file_uploader.py:279-307 | one outcome per upload, in order |
| FileUploader.SavedViewLastWins | modules/file_uploader.py:306-307 | a key holds the table of the last upload that stored it |
| FileUploader.SavedViewKeepsUntouched | modules/file_uploader.py:279-307 | keys that no stored upload writes keep their previous entries |
| FileUploader.Session.Store | modules/file_uploader.py:306-307 | stores the table under the key and the file type under key + "_info" |
| FileUploader.Session.SaveOne | modules/file_uploader.py:280-309 | the session gains one upload's outcome and nothing else |
| FileUploader.Session.SaveToSession | modules/file_uploader.py:274-309 | creates uploaded_data if absent, then applies every upload's outcome in order |
| Tables.FilterRows | modules/data_loader.py:84 | boolean indexing keeps the columns and only rows of the table |
| Tables.FilterRowsMembers | modules/data_loader.py:84 | exactly the marked rows are kept |
| Tables.FilterRowsNone | modules/data_loader.py:84 | with nothing marked no row is kept |
| Tables.ToNumeric | modules/data_loader.py:65 | to_numeric with errors='coerce' leaves a number or a missing value; numbers and missing values are unchanged |
| Tables.WithColumn | modules/data_loader.py:88 | the column is replaced, or appended when new; every other cell is unchanged |
| Tables.Column | modules/data_loader.py:81-84 | `df[name]`: one cell per row |
| Tables.Frame.SetColumns | modules/file_uploader.py:128 | `df.columns = labels`: the object holds the new labels and the same rows |
| Tables.Frame.SetColumn | modules/data_loader.py:88 | the object now holds the table with that column set |
| Sorting.Sort | modules/data_loader.py:59 | a permutation of the input |
| Sorting.SortSorted | modules/data_loader.py:59 | sorted by any total preorder |
| Sorting.Dedup | modules/data_loader.py:99 | unique keeps every value once and nothing else; the order is left open |
| Sorting.SortStrings | modules/data_loader.py:99 | sorted() of distinct strings: the same strings, strictly ascending |
| Sorting.SortInts | modules/change_group_analyzer.py:69 | sorted() of distinct integers: the same integers, strictly ascending |
| Sorting.LexLeTotalPreorder | modules/data_loader.py:99 | string order is total and transitive |
| Sorting.LexLe | modules/data_loader.py:99 | Python's order on `str`: lexicographic by code point |
| Sorting.LexLeFirstDifference | modules/data_loader.py:99 | strings that first differ at a position are ordered by their characters there |
| DataLoader.Get | modules/data_loader.py:10-50 | the object stored under the key, or null when uploaded_data or the key is absent |
| DataLoader.GetAnnualLearningData | modules/data_loader.py:10-14 | the entry under annual_learning |
| DataLoader.GetMonthlyLearningData | modules/data_loader.py:16-20 | the entry under monthly_learning |
| DataLoader.GetIndividualData | modules/data_loader.py:22-26 | the entry under individual_raw |
| DataLoader.GetPopularCardsData | modules/data_loader.py:28-32 | the entry under popular_cards |
| DataLoader.GetSearchKeywordsData | modules/data_loader.py:34-38 | the entry under search_keywords |
| DataLoader.GetAreaStatusData | modules/data_loader.py:40-44 | the entry under area_status |
| DataLoader.GetIndividualFullRawData | modules/data_loader.py:46-50 | the entry under individual_full_raw |
| DataLoader.GetterKeysAreNotInfoKeys | modules/file_uploader.py:307 | no "_info" key written by save_to_session is a getter key |
| DataLoader.GetAfterSave | modules/data_loader.py:10-50 | after a save, a getter returns the last stored upload for its key |
| DataLoader.Numeric | modules/data_loader.py:65 | the column converted cell by cell |
| DataLoader.CoerceColumn | modules/data_loader.py:75-76 | only the named column is converted; a table without it is unchanged |
| DataLoader.CoerceColumns | modules/data_loader.py:62-65 | the loop over the numeric columns keeps labels and row count; its cells are stated by `CoerceColumnsCells` |
| DataLoader.CoerceColumnsCells | modules/data_loader.py:62-65 | each listed column present is converted; other columns are unchanged |
| DataLoader.YearLeTotalPreorder | modules/data_loader.py:58-59 | the year order (numbers, then text, then missing last) is total and transitive |
| DataLoader.YearLe | modules/data_loader.py:58-59 | `sort_values` order: numbers by value, then texts in string order, missing last |
| DataLoader.SortByYear | modules/data_loader.py:58-59 | the rows are permuted; their order by year is stated by `AnnualSortedByYear` |
| DataLoader.AnnualPrepared | modules/data_loader.py:52-67 | same labels and row count; sorted by year with converted columns, as `AnnualSortedByYear` and `CoerceColumnsCells` state |
| DataLoader.AnnualSortedByYear | modules/data_loader.py:57-66 | the result is sorted by year; columns not converted keep the sorted rows' cells |
| DataLoader.AnnualWithoutYearKeepsOrder | modules/data_loader.py:58-66 | without 연도 the row order and other cells are kept |
| DataLoader.AnnualNumericCells | modules/data_loader.py:61-65 | after preprocessing, no numeric column holds text |
| DataLoader.PreprocessAnnualData | modules/data_loader.py:52-67 | None for None; otherwise the prepared table; sorting makes a new object and the argument is unchanged; without 연도 the argument itself is converted and returned |
| DataLoader.DistinctYears | modules/data_loader.py:81 | exactly the distinct years, each once |
| DataLoader.MaxText | modules/data_loader.py:83 | the largest text in string order, none iff no cell is a text |
| DataLoader.KeepsLatestOnly | modules/data_loader.py:80-81 | a 연도 column with more than one distinct value |
| DataLoader.LatestMask | modules/data_loader.py:83-84 | with numbers, the cells equal to the largest number; without numbers, the text cells that are largest in string order |
| DataLoader.LatestYearRows | modules/data_loader.py:79-84 | keeps the labels; which rows it keeps is stated by `LatestYearOnly` |
| DataLoader.WithOrganisation | modules/data_loader.py:87-88 | keeps the row count; the 조직 column is stated by `OrganisationCopied` |
| DataLoader.DropMissingHours | modules/data_loader.py:91 | keeps the labels; which rows it keeps is stated by `NoRowWithoutHours` |
| DataLoader.IndividualPrepared | modules/data_loader.py:69-93 | KeyError iff 학습시간 is absent |
| DataLoader.IndividualCallerAfter | modules/data_loader.py:74-88 | the caller's object keeps its rows |
| DataLoader.PreprocessIndividualData | modules/data_loader.py:69-93 | None for None; otherwise a new object with the prepared table, or KeyError iff 학습시간 is absent; the argument is left as IndividualCallerAfter says |
| DataLoader.LatestYearOnly | modules/data_loader.py:79-84 | with several years, exactly the rows of the largest year are kept: the largest number, or in a column without numbers the largest text; none when every year is missing |
| DataLoader.TextYearsKeepLatest | modules/data_loader.py:81-84 | a column of "2024년" and "2025년" keeps the "2025년" row |
| DataLoader.OneYearKeepsAllRows | modules/data_loader.py:81 | one distinct year keeps the table as it is |
| DataLoader.OrganisationCopied | modules/data_loader.py:87-88 | 조직 is copied from 사업부 when missing, and never overwritten |
| DataLoader.OrganisationKeepsColumns | modules/data_loader.py:87-88 | adding 조직 moves no column and changes no cell |
| DataLoader.NoRowWithoutHours | modules/data_loader.py:91 | no kept row lacks hours, and every row with hours is kept |
| DataLoader.CoercedHoursNotText | modules/data_loader.py:75-76 | after conversion no hours cell is text |
| DataLoader.HoursAreNumbers | modules/data_loader.py:75-91 | every row of the result has numeric hours |
| DataLoader.Texts | modules/data_loader.py:99 | exactly the text cells' strings |
| DataLoader.GetCompanyList | modules/data_loader.py:95-100 | [] without the annual table or its 멤버사명 column; otherwise exactly the company names, each once, ascending |

## Left out

- Reading config.yaml: `LoadThresholds` takes the parsed configuration as a
  parameter; file access and YAML parsing are outside the model.
- Floating point: hours, means and rates are exact reals, so rounding effects of
  IEEE doubles are not modelled.
- ChangeGroups.GetChangeGroupStatistics: `round(..., 1)` of the means and the
  rate is not applied; the statistics hold the exact values.
- ChangeGroups.GetChangeGroupStatistics: the returned DataFrame is a sequence of
  `GroupStat` records; the column layout is not modelled.
- String-to-number parsing in `pd.to_numeric`: a text cell always becomes
  missing, so numeric strings such as "12" are not parsed.
- FileUploader.Lower: maps ASCII A-Z only; the Unicode case mapping of
  `str.lower` is not modelled.
- Column dtypes: `astype('Int64')` and `astype(str)` are modelled by their effect
  on the cell values only.
- Duplicate column labels: tables are assumed to have distinct labels
  wherever lookups by name happen (pandas would return several columns).
- Streamlit output: `st.caption`, `st.warning` and `st.error` messages are left
  out.
- `load_uploaded_file` (reading Excel and CSV files) is not part of this model;
  an upload is given as its loaded table or as a failed load.
- The `try` block around the minutes conversion has no exception to catch in the
  model, since coercion and `fillna` cannot fail on the modelled cells.
- The `expected_columns` parameter of `normalize_columns` is unused by the source
  and is left out.
- DataLoader.Get: returns null for an entry that holds a file-type description.
  The source would return the description, but no getter key ends in "_info".
- DataLoader.GetAreaStatusData: no file type writes `area_status`, so after
  save_to_session this getter finds nothing unless the session was filled
  otherwise.
- Mixed-type comparisons: `sort_values`, `max` and `sorted` raise TypeError on
  columns that mix numbers and text. The model orders numbers before text,
  compares text lexicographically and takes the maximum over the numbers only.
- DataLoader.GetCompanyList: lists the text company names only. A 멤버사명
  column with a blank cell puts NaN among the names, and `sorted()` then raises
  TypeError; the model counts a missing cell as a non-name and lists the rest.
- DataLoader.SortByYear: the order among rows with equal years is not stated,
  because pandas' default sort is not stable.
- DataLoader.LatestMask: in a year column of texts with missing cells, the
  maximum is taken over the texts, the missing cells skipped.
- Other modules of the dashboard (charts, EDA, authentication, PDF export,
  generated insights, the app pages) are not part of this model.
