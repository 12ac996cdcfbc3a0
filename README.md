# CEAPS expense cleaning and daily series, modelled in Dafny

This project models the core of a pipeline that cleans the CEAPS expense-reimbursement
records of Brazilian senators and turns them into a daily series for forecasting.

Three steps are modelled.

- **Cleaning, newer version** (`format_data` and `ceaps_data_wrangling` in
  `src/data_wrangling.py`).
  - Duplicate rows are dropped from the caller's frame in place.
  - Missing payee and detail cells get their sentinels.
  - The reimbursed amount has its commas turned into dots and every other non-digit
    character removed, then it is cast to a number. One bad amount makes the whole cast raise.
  - A date is kept only when it matches the strict `dd/mm/yyyy` pattern, and is then parsed.
- **Cleaning, older version** (`format_data` in `data_wrangling.py`).
  - Every column is coerced, and a value that cannot be read becomes NaN or NaT.
  - Duplicates are counted and dropped.
  - Rows whose date does not fall in their ANO year are counted and dropped.
- **Series preparation** (`forecasting_timeseries_preparation` and
  `_apply_stationarity_transformations` in `src/forecasting_timeseries_preparation.py`).
  - The DATA column is parsed in place.
  - Amounts are summed and counted per day.
  - A transformed column is added when the series is not stationary.
  - The series is sorted by day.

Frames whose rows the source changes in place are classes with a `seq` of rows:
`Frames.Frame`, `TimeSeriesPreparation.ExpenseFrame` and `TimeSeriesPreparation.DailyFrame`.
Their methods are loops or state updates. `Frame.DropDuplicates` and `Frame.CountDuplicates`
are loops proved against the specification function `Dedup`. `Frame.DropRows` is proved
against `Without`. The other methods state their new state or result through `Normalize`,
`ConvertAll`, `GroupByDate`, `WithStationary` and `SortByDate`, which they call. Lemmas prove
what those functions mean.

Module layout:

| file | module | content |
|---|---|---|
| `basics.dfy` | `Basics` | Option, Result, masks, element sets |
| `lexical.dfy` | `Lexical` | digits, `\w`, comma replacement, Python `float()` and pandas `to_numeric` on text |
| `dates.dfy` | `Dates` | calendar, Timestamp range, strptime `%d/%m/%Y`, ISO text |
| `frames.dfy` | `Frames` | positional row removal, `drop_duplicates`, `duplicated`, the `Frame` class |
| `records.dfy` | `Records` | the eleven CEAPS columns |
| `data_wrangling.dfy` | `DataWrangling` | newer cleaning |
| `legacy_wrangling.dfy` | `LegacyWrangling` | older cleaning |
| `timeseries.dfy` | `TimeSeriesPreparation` | daily series preparation |

Three behaviours of the code are worth knowing:

- An amount written with a thousands separator, such as `"1.234,56"`, becomes
  `"1.234.56"`. The float cast then raises for the whole batch; it is not read as 1234.56
  (`DataWrangling.ThousandsSeparatorAborts`).
- Duplicates are dropped before the cleaning. Rows that differed only in how their amount
  was written can therefore come out of the cleaning equal
  (`DataWrangling.NormalizedRowsCanRepeat`).
- The older version does not strip currency signs. `"R$ 10,00"` becomes NaN there
  (`LegacyWrangling.CurrencyAmountIsNaN`), while the newer version reads it as 10
  (`DataWrangling.CleanLocaleAmount`).

## Model

| member | source | states |
|---|---|---|
| DataWrangling.FillMissing | src/data_wrangling.py:143-153 | definition of the four fills on one row; afterwards CNPJ_CPF, FORNECEDOR, DOCUMENTO and DETALHAMENTO are all present |
| DataWrangling.FillWith | src/data_wrangling.py:144-153 | definition: a missing cell gets the sentinel, a present cell is kept, and the result is never missing |
| DataWrangling.FillMissingSpec | src/data_wrangling.py:143-153 | after the two fills, CNPJ_CPF, FORNECEDOR, DOCUMENTO and DETALHAMENTO are present, present values are never overwritten, missing ones get "Não Identificado" / "Não identificado" / "Sem detalhamento", every other column is unchanged, and filling again changes nothing |
| DataWrangling.KeepAmountChars | src/data_wrangling.py:159-161 | definition of the regex deletion of every character but digits and dots; never longer than its input |
| DataWrangling.CleanAmountText | src/data_wrangling.py:156-161 | definition of the two replacements on one amount, comma to dot and then the deletion; never longer than its input |
| DataWrangling.KeepAmountCharsOnly | src/data_wrangling.py:159-161 | the regex deletion leaves only digits and dots |
| DataWrangling.KeepAmountCharsFixed | src/data_wrangling.py:159-161 | text already made of digits and dots is left as it is |
| DataWrangling.KeepAmountCharsAppend | src/data_wrangling.py:159-161 | deleting characters commutes with concatenation |
| DataWrangling.KeepAmountCharsDropsAll | src/data_wrangling.py:159-161 | text without digits or dots is deleted entirely |
| DataWrangling.CleanAmountTextCharset | src/data_wrangling.py:156-161 | the cleaned amount holds only digits and dots |
| DataWrangling.CleanAmountTextIdempotent | src/data_wrangling.py:156-161 | cleaning an amount twice is the same as cleaning it once |
| DataWrangling.CleanAmountCommaPositions | src/data_wrangling.py:156-161 | the two replacements equal keeping the digits, dots and commas, then turning each comma into a dot |
| DataWrangling.KeepCentsText | src/data_wrangling.py:159-161 | "whole.cc" digit text survives the deletion unchanged |
| DataWrangling.CleanLocaleText | src/data_wrangling.py:156-161 | "whole,cc" behind a prefix without digits, dots or commas (such as "R$ ") is cleaned to "whole.cc" |
| DataWrangling.CleanLocaleAmount | src/data_wrangling.py:156-162 | such an amount is cast to whole + cc/100 |
| DataWrangling.AmountsToFloat | src/data_wrangling.py:162 | the float cast succeeds if and only if every cleaned amount is missing or decimal text; it then converts each row's amount and nothing else; on failure a row whose amount fails exists |
| DataWrangling.AmountToFloat | src/data_wrangling.py:162 | definition of `float()` on one cleaned cell: NaN stays NaN, text that reads as a decimal becomes a number, and any other text raises, carrying that cell's text |
| DataWrangling.MatchesDatePattern | src/data_wrangling.py:166-169 | definition of `str.match` with the date pattern: day 01-31, "/", month 01-12, "/", four digits, and no word character after them; a match is at least ten characters with slashes at positions 2 and 5 |
| DataWrangling.ToDate | src/data_wrangling.py:170-172 | definition of `to_datetime(format="%d/%m/%Y", errors="coerce")` on one cell, which the older step also uses (data_wrangling.py:46); a day it gives is a Timestamp day and comes from a present cell |
| DataWrangling.CleanDate | src/data_wrangling.py:166-172 | definition of the two DATA steps on one cell; a day it gives is a Timestamp day and comes from a present cell |
| DataWrangling.FilterDate | src/data_wrangling.py:166-169 | definition: a DATA text is kept exactly when it matches the date pattern; otherwise, and for a missing cell, the cell becomes missing |
| DataWrangling.ParseMatchingText | src/data_wrangling.py:166-172 | on text the pattern accepts, the day-first parse gives the day named by the three fixed-width fields when nothing follows the year and that day exists, and NaT otherwise |
| DataWrangling.CleanDateSound | src/data_wrangling.py:166-172 | every text the cleaning reads as a day is that day written "dd/mm/yyyy" |
| DataWrangling.CleanDateComplete | src/data_wrangling.py:166-172 | every Timestamp day written "dd/mm/yyyy" passes the pattern and is read back as that day |
| DataWrangling.CleanDateExact | src/data_wrangling.py:166-172 | a date survives the two DATA steps if and only if its text is exactly that day's "dd/mm/yyyy" text |
| DataWrangling.NoCleanDate | src/data_wrangling.py:170-172 | text naming a day beyond the length of its month becomes NaT |
| DataWrangling.LeapDayKept | src/data_wrangling.py:166-172 | "29/02/2024" is kept as 29 February 2024 |
| DataWrangling.FebruaryThirtyFirstRejected | src/data_wrangling.py:166-172 | "31/02/2021" becomes NaT |
| DataWrangling.CommonYearLeapDayRejected | src/data_wrangling.py:166-172 | "29/02/2023" becomes NaT |
| DataWrangling.ShortFieldsRejected | src/data_wrangling.py:166-172 | "1/2/2021", "01/2/2021" and a missing cell become NaT |
| DataWrangling.Normalize | src/data_wrangling.py:131-172 | definition of the cleaning after duplicate removal: fills, amount text, float cast, date steps; on success one row per input row |
| DataWrangling.NormalizeSpec | src/data_wrangling.py:131-172 | the cleaning succeeds if and only if every amount is a number once cleaned; then every row is kept in order, with the other text columns as they were, the filled columns present, the amount equal to its cleaned text's value, and the date equal to the day its strict "dd/mm/yyyy" text names (NaT otherwise) |
| DataWrangling.ThousandsSeparatorText | src/data_wrangling.py:156-161 | "1.234,56" is cleaned to "1.234.56" |
| DataWrangling.ThousandsSeparatorAborts | src/data_wrangling.py:156-162 | one "1.234,56" amount makes the whole cleaning raise |
| DataWrangling.TenReais | src/data_wrangling.py:156-162 | "10,00" and "10.00" both clean to "10.00", which is read as 10 |
| DataWrangling.TenReaisValue | src/data_wrangling.py:162 | "10.00" is cast to 10 |
| DataWrangling.NormalizedRowsCanRepeat | src/data_wrangling.py:123-172 | two distinct rows survive duplicate removal and still come out of the cleaning equal |
| DataWrangling.NormalizeSamePrepared | src/data_wrangling.py:131-172 | rows that agree once filled and their amount text cleaned come out of the cleaning equal |
| DataWrangling.FormatData | src/data_wrangling.py:116-174 | the caller's frame loses its duplicate rows in place, and the result is the cleaning of the deduplicated rows or the float cast's error |
| DataWrangling.CeapsDataWrangling | src/data_wrangling.py:177-185 | the same as `format_data`, for the frame it is given |
| Frames.Without | data_wrangling.py:58 | definition: removing the flagged rows leaves as many rows as there are unflagged ones |
| Frames.WithoutSnoc | data_wrangling.py:58 | removal by flags proceeds row by row: a new last row is kept exactly when it is not flagged |
| Frames.WithoutIsSubsequence | data_wrangling.py:58 | the remaining rows keep their order |
| Frames.WithoutKeeps | data_wrangling.py:58 | every unflagged row remains |
| Frames.WithoutMember | data_wrangling.py:58 | every remaining row is an unflagged row of the input |
| Frames.WithoutDistinct | data_wrangling.py:58 | removing rows from rows without repetitions leaves rows without repetitions |
| Frames.DuplicatedMask | data_wrangling.py:52 | definition: `duplicated()` has one flag per row |
| Frames.Dedup | src/data_wrangling.py:123 | definition of `drop_duplicates()` with keep="first": the rows `duplicated()` does not flag; never more rows than its input |
| Frames.DedupSnoc | src/data_wrangling.py:123 | `drop_duplicates` keeps a row exactly when no equal row came before |
| Frames.DedupKeepsEveryValue | src/data_wrangling.py:123 | duplicate removal keeps every distinct row and invents none |
| Frames.DedupNoDuplicates | src/data_wrangling.py:123 | after duplicate removal no row occurs twice |
| Frames.DedupIsSubsequence | src/data_wrangling.py:123 | duplicate removal keeps the first occurrences in their order |
| Frames.DedupOfDistinct | src/data_wrangling.py:123 | rows without repetitions are left as they are |
| Frames.DedupIdempotent | src/data_wrangling.py:123 | removing duplicates twice is the same as once |
| Frames.DuplicateCount | data_wrangling.py:52-53 | the number of rows `duplicated()` flags is the number `drop_duplicates` removes, and what remains is one row per distinct value |
| Frames.Frame.DropDuplicates | src/data_wrangling.py:123 | the frame's rows become their duplicate-free version, in place |
| Frames.Frame.CountDuplicates | data_wrangling.py:52 | `duplicated().sum()` is the number of rows minus the number of distinct rows |
| Basics.CountTrue | data_wrangling.py:52-56 | definition of `mask.sum()` (`duplicated().sum()`, `wrong_date.shape[0]`): never more than the rows |
| Basics.CountTruePositions | data_wrangling.py:52-56 | `mask.sum()` is the number of positions whose flag is set |
| Frames.Frame.DropRows | data_wrangling.py:58 | the frame's rows become those not flagged, in order, in place |
| Lexical.ReplaceComma | src/data_wrangling.py:156-158 | definition: the replacement keeps the length of the text |
| Lexical.ReplaceCommaAt | src/data_wrangling.py:156-158 | each comma becomes a dot and every other character is kept |
| Lexical.ReplaceCommaAppend | src/data_wrangling.py:156-158 | the replacement distributes over concatenation |
| Lexical.ReplaceCommaNoComma | src/data_wrangling.py:156-158 | text without commas is unchanged |
| Lexical.ReplaceDecimalComma | data_wrangling.py:48 | "a,b" with comma-free parts becomes "a.b" |
| Lexical.ReplaceCommaAfterSign | data_wrangling.py:48 | a leading minus sign is kept by the replacement |
| Lexical.ParseDecimal | src/data_wrangling.py:162 | definition of Python `float()` on text of digits and dots; a value it gives is never negative |
| Lexical.ParseNumber | data_wrangling.py:48 | definition of `to_numeric` on one text, an optional sign and then decimal text; a negative value comes only from a leading minus |
| Lexical.ParseDecimalAccepts | src/data_wrangling.py:162 | the cast of cleaned text succeeds if and only if the text has only digits and dots, at most one dot, and at least one digit |
| Lexical.TwoDotsRejected | src/data_wrangling.py:162 | text holding two dots is never a number |
| Lexical.ParseDigits | src/data_wrangling.py:162 | digits alone are read as the number they write |
| Lexical.ParseDecimalParts | src/data_wrangling.py:162 | "a.b" is read as a plus b divided by 10 to the number of digits of b |
| Lexical.ParseCentsText | src/data_wrangling.py:162 | "whole.cc" is read as whole + cc/100 |
| Lexical.ParseNegated | data_wrangling.py:48 | `to_numeric` reads "-t" as the negation of what it reads "t" as |
| Lexical.UnsignedNumber | data_wrangling.py:48 | text without a leading sign is read as plain decimal text |
| Lexical.ParseNumberOfInt | data_wrangling.py:39-40 | every integer Python writes is read back by `to_numeric` as that integer |
| Dates.ParseDayFirst | data_wrangling.py:46 | definition of strptime "%d/%m/%Y" with coerce on one text; a day it gives is a Timestamp day, read from at least eight characters |
| Dates.ParseDayFirstSplit | data_wrangling.py:46 | "%d/%m/%Y" splits the text at its first two slashes and reads the three fields |
| Dates.ParseDayFirstRoundTrip | data_wrangling.py:46 | every Timestamp day written "dd/mm/yyyy" is parsed back as that day |
| Dates.ParseIso | src/forecasting_timeseries_preparation.py:98 | definition of `to_datetime` on "yyyy-mm-dd" text; a day it gives is a Timestamp day, read from exactly ten characters |
| Dates.ParseIsoRoundTrip | src/forecasting_timeseries_preparation.py:98 | the "yyyy-mm-dd" text of a Timestamp day is parsed back as that day |
| Dates.ParseIsoExact | src/forecasting_timeseries_preparation.py:98 | ISO text is read as a day only when it is exactly that day's ISO text |
| Dates.BeforeTotal | src/forecasting_timeseries_preparation.py:107 | days are totally ordered: equal, or one strictly before the other, never both ways |
| Dates.BeforeTransitive | src/forecasting_timeseries_preparation.py:107 | the order of days is transitive |
| LegacyWrangling.ToNumeric | data_wrangling.py:39-40 | definition of `to_numeric(errors="coerce")` on one cell; a value it gives comes from a present cell, and a negative one from a leading minus |
| LegacyWrangling.CoerceAmount | data_wrangling.py:48 | definition of the VALOR_REEMBOLSADO step, comma to dot and then `to_numeric`; a value it gives comes from a present cell |
| LegacyWrangling.Coerce | data_wrangling.py:39-49 | definition of the eleven column assignments on one row; a date it gives is a Timestamp day of a present DATA cell, and an amount comes from a present cell |
| LegacyWrangling.AsStr | data_wrangling.py:41-45 | definition: `astype(str)` keeps text and writes a missing cell as "nan" |
| LegacyWrangling.CoerceAll | data_wrangling.py:39-49 | definition: the eleven column assignments are applied to every row, one coerced row per input row |
| LegacyWrangling.ToNumericOfInt | data_wrangling.py:39-40 | a year or month Python wrote as an integer is read back as that integer |
| LegacyWrangling.CoerceLocaleAmount | data_wrangling.py:48 | "whole,cc" is read as whole + cc/100 |
| LegacyWrangling.CoerceNegativeAmount | data_wrangling.py:48 | a leading minus sign negates the amount |
| LegacyWrangling.ThousandsSeparatorIsNaN | data_wrangling.py:48 | "1.234,56" becomes NaN in the older step instead of raising, since it has two dots once its comma is replaced |
| LegacyWrangling.CurrencyAmountIsNaN | data_wrangling.py:48 | "R$ 10,00" becomes NaN instead of raising |
| LegacyWrangling.CoercionMergesMissingAndNan | data_wrangling.py:41-53 | a missing text cell and the text "nan" coerce to the same row, so distinct raw rows are dropped as duplicates |
| LegacyWrangling.ShortDateAccepted | data_wrangling.py:46 | a one-digit day and month such as "1/2/2021" are parsed by the older step and rejected by the newer one |
| LegacyWrangling.WrongYearMask | data_wrangling.py:56 | definition: a row is flagged exactly when its date is NaT, its ANO is NaN, or the date's year differs from ANO |
| LegacyWrangling.KeepMatchingYear | data_wrangling.py:56-58 | definition of the wrong-year removal, by position; never more rows than its input |
| LegacyWrangling.KeepMatchingYearSpec | data_wrangling.py:56-58 | the rows left are exactly the rows whose date falls in their year, in their order, and as many rows are removed as are flagged |
| LegacyWrangling.LegacyOutputSpec | data_wrangling.py:39-58 | the older step leaves every coerced row whose date is in its year, once, and nothing else |
| LegacyWrangling.FormatData | data_wrangling.py:32-60 | the frame holds the deduplicated coerced rows without the wrong-year rows; the two printed counts are the duplicates removed and the rows flagged |
| LegacyWrangling.LabelDropLosesMatchingRow | data_wrangling.py:56-58 | with labels repeated across concatenated files, the drop by label removes a matching row that the positional removal keeps |
| LegacyWrangling.KeepLabelsNotInPositional | data_wrangling.py:58 | dropping by label equals dropping by position when label membership matches the flags row by row |
| LegacyWrangling.DropByLabelWhenUnique | data_wrangling.py:58 | with unique labels, the drop by label removes exactly the flagged rows |
| LegacyWrangling.DropByLabel | data_wrangling.py:58 | definition of `drop(wrong_date.index)` as written: every flagged row is removed, every remaining row is an input row whose label no flagged row carries, and every row whose label no flagged row carries remains |
| TimeSeriesPreparation.ConvertCell | src/forecasting_timeseries_preparation.py:98 | definition of `to_datetime` on one DATA cell; on success no text is left, and only a text cell can fail |
| TimeSeriesPreparation.ConvertCellExact | src/forecasting_timeseries_preparation.py:98 | a DATA text becomes a day if and only if it is that day's ISO text |
| TimeSeriesPreparation.ConvertAll | src/forecasting_timeseries_preparation.py:98 | the conversion succeeds if and only if every cell converts; then each row changes only in DATA and no text is left; on failure a failing cell exists |
| TimeSeriesPreparation.ExpenseFrame.ConvertDates | src/forecasting_timeseries_preparation.py:98 | DATA is converted in place, or the frame is left unchanged and the error is returned |
| TimeSeriesPreparation.GroupByDate | src/forecasting_timeseries_preparation.py:101 | definition of the per-day sum and count, adding one dated row at a time; never more rows than input rows |
| TimeSeriesPreparation.KeysCons | src/forecasting_timeseries_preparation.py:101 | the days of a series are its first day and the days of the rest |
| TimeSeriesPreparation.AddAtKeys | src/forecasting_timeseries_preparation.py:101 | adding an amount adds its day to the days of the series |
| TimeSeriesPreparation.AscendingCons | src/forecasting_timeseries_preparation.py:101 | a day before every day of an ascending series can go in front of it |
| TimeSeriesPreparation.AddAtAfter | src/forecasting_timeseries_preparation.py:101 | adding an amount keeps every day after a bound the series and the new day are after |
| TimeSeriesPreparation.AddAtAscending | src/forecasting_timeseries_preparation.py:101 | adding an amount keeps the days strictly ascending |
| TimeSeriesPreparation.AddAtCells | src/forecasting_timeseries_preparation.py:101 | adding an amount changes that day's sum and count only, by the amount (0 if NaN) and by one (0 if NaN) |
| TimeSeriesPreparation.AddAtTotals | src/forecasting_timeseries_preparation.py:101 | adding an amount adds it to the total sum and count and sets no stationary cell |
| TimeSeriesPreparation.GroupByDateTable | src/forecasting_timeseries_preparation.py:101-102 | the grouping is ascending, its days are the days present, and each day's sum and count and the totals equal their definitions over the input rows |
| TimeSeriesPreparation.AscendingLookup | src/forecasting_timeseries_preparation.py:101 | in an ascending series the table entry of a row's day is that row |
| TimeSeriesPreparation.AscendingAbsent | src/forecasting_timeseries_preparation.py:101 | a day before every day of an ascending series has sum 0 and count 0 |
| TimeSeriesPreparation.AscendingCardinality | src/forecasting_timeseries_preparation.py:101 | an ascending series has one row per day |
| TimeSeriesPreparation.GroupByDateRows | src/forecasting_timeseries_preparation.py:101-102 | each grouped row holds the sum and the count of its day's amounts |
| TimeSeriesPreparation.GroupByDateSpec | src/forecasting_timeseries_preparation.py:101-102 | one row per day present, in ascending order; a day has a row if and only if some input row has it; each row holds its day's sum and count; counts add up to the dated non-NaN amounts and sums to their total |
| TimeSeriesPreparation.AllMissingDay | src/forecasting_timeseries_preparation.py:101 | a day whose amounts are all NaN keeps a row with sum 0 and count 0 |
| TimeSeriesPreparation.DayColumn | src/forecasting_timeseries_preparation.py:101 | definition: the DATA column lists the days of the rows in order |
| TimeSeriesPreparation.WithStationary | src/forecasting_timeseries_preparation.py:77-80 | definition: assigning the stationary column sets that cell of every row and nothing else |
| TimeSeriesPreparation.AmountSeries | src/forecasting_timeseries_preparation.py:69 | definition: the series tested first is the daily sums, row by row |
| TimeSeriesPreparation.DiffColumn | src/forecasting_timeseries_preparation.py:77 | definition: `diff(periods=1)` is NaN in the first row and the change from the previous row elsewhere |
| TimeSeriesPreparation.LogColumn | src/forecasting_timeseries_preparation.py:80 | definition: the log column holds the log of each row's sum |
| TimeSeriesPreparation.StationarySeries | src/forecasting_timeseries_preparation.py:82 | definition: the series tested second is the stationary column, NaN where a row has no cell |
| TimeSeriesPreparation.AsWrittenIgnoresCriticalValue | src/forecasting_timeseries_preparation.py:49 | with a negative 1% critical value, the check as written depends only on the p-value and the sign of the statistic |
| TimeSeriesPreparation.StationarityCounterexample | src/forecasting_timeseries_preparation.py:49 | statistic -1.0, p-value 0.03 and 1% critical value -3.43 pass the check as written and fail the intended one |
| TimeSeriesPreparation.IsStationaryStricter | src/forecasting_timeseries_preparation.py:49 | whatever the intended check accepts, the written one accepts too, with the statistic below the critical value |
| TimeSeriesPreparation.IsStationaryAsWritten | src/forecasting_timeseries_preparation.py:49 | definition of the check as written, `crit < [4]` read as "below 4": it accepts only with a p-value within the threshold and a negative statistic |
| TimeSeriesPreparation.IsStationary | src/forecasting_timeseries_preparation.py:36-59 | definition of `is_stationary` with the comparison as intended, the test itself a parameter: it accepts only with a p-value within the threshold and a statistic below the 1% critical value |
| TimeSeriesPreparation.DailyFrame.Columns | src/forecasting_timeseries_preparation.py:102 | definition: the columns are DATA, VALOR_REEMBOLSADO, COUNT, then VALOR_REEMBOLSADO_stationary once it has been added; the rename is a fixed list of names, so no lemma is needed beside it |
| TimeSeriesPreparation.DailyFrame.ApplyStationarityTransformations | src/forecasting_timeseries_preparation.py:63-89 | keeps every row holding a stationary cell exactly when the column exists; a stationary series is returned unchanged; otherwise the stationary column ends up holding the log of each sum (the difference is overwritten), the verdict says whether that column passes the test, and days, sums, counts and row count never change |
| TimeSeriesPreparation.DailyFrame.SortValues | src/forecasting_timeseries_preparation.py:107 | a new frame holds the rows sorted by day, with the same columns, and still holds a stationary cell in a row exactly when the column exists |
| TimeSeriesPreparation.SortByDate | src/forecasting_timeseries_preparation.py:107 | definition of `sort_values("DATA")` as an insertion sort by day; as many rows as its input |
| TimeSeriesPreparation.InsertByDateMultiset | src/forecasting_timeseries_preparation.py:107 | inserting adds exactly one row |
| TimeSeriesPreparation.InsertByDateBound | src/forecasting_timeseries_preparation.py:107 | inserting keeps every day not before a bound both sides respect |
| TimeSeriesPreparation.InsertByDateSorted | src/forecasting_timeseries_preparation.py:107 | inserting into rows sorted by day keeps them sorted |
| TimeSeriesPreparation.SortByDateSpec | src/forecasting_timeseries_preparation.py:107 | sorting orders the rows by day and is a permutation of them |
| TimeSeriesPreparation.SortByDateColumn | src/forecasting_timeseries_preparation.py:107 | sorting keeps every row's stationary cell, so the rows hold a stationary cell exactly when the column exists, before and after |
| TimeSeriesPreparation.SortOfAscending | src/forecasting_timeseries_preparation.py:107 | a series already in ascending order is left as it is |
| TimeSeriesPreparation.WithStationaryAscending | src/forecasting_timeseries_preparation.py:77-80 | adding the stationary column keeps the days in order |
| TimeSeriesPreparation.PrepareForecastingSeries | src/forecasting_timeseries_preparation.py:92-108 | the preparation raises when a DATA text is not a day, leaving the frame unchanged; otherwise DATA is converted in place, and the result has one row per day present, ascending, with that day's sum and count, and the log column present exactly when the sums fail the stationarity test |

## Left out

- Reading the CSV files, encoding detection, argument parsing, printing, `to_csv`, and model
  training are I/O or external libraries and are not modelled.
- `read_csv` type inference is not modelled. Every raw cell is text or missing, and the cast to
  pandas `string` in `src/data_wrangling.py:131-141` is the identity on that text.
- Floating-point arithmetic is not modelled. Amounts are exact reals, and sums do not round.
- The logarithm is symbolic (`LogOf`), so a log of zero or of a negative sum is not evaluated.
- The augmented Dickey-Fuller test (`adfuller`, from statsmodels) is a parameter returning the
  statistic, p-value and 1% critical value. The model does not compute it.
- `is_stationary`'s `print_results` branch is printing only and is not modelled.
- Python's `\w` is modelled for code points up to U+00FF. Word characters above that, which
  the `\b` after the year would also reject, are treated as non-word characters.
- `to_numeric` accepts more than the model: surrounding whitespace, exponents, "inf" and
  "nan" text. The model reads an optional sign and decimal text only.
- `float()` in the cast to float64 accepts more than the model: whitespace, exponents, "inf"
  and underscores between digits. Cleaned amounts hold only digits and dots, so these forms
  cannot reach it.
- `pd.to_datetime` without a format also infers formats other than ISO "yyyy-mm-dd", and
  accepts times of day. The model reads ISO dates and raises on any other text.
- TimeSeriesPreparation.PrepareForecastingSeries: assumes the augmented Dickey-Fuller test never
  raises. `adfuller` raises on a constant series, on a series too short for its lag, and on a
  log column holding a non-finite value (the log of a daily sum of 0 or less). The model has
  none of these error paths, so it succeeds whenever every DATA text converts.
- TimeSeriesPreparation.Expense: holds only DATA and VALOR_REEMBOLSADO. The other columns
  play no part in the grouping and are dropped by it.
- LegacyWrangling.FormatData: the source changes the caller's frame in place throughout and
  returns it. That covers the column assignments at data_wrangling.py:39-49,
  `drop_duplicates(inplace=True)` at :53 and `drop(..., inplace=True)` at :58. The model
  leaves the caller's rows unchanged. It builds a new frame of coerced rows, and the duplicate
  and wrong-year removals act in place on that frame. None of the in-place updates of the
  caller's frame, and no aliasing of it, is captured.
- LegacyWrangling.FormatData: drops the flagged rows by position, which is the corrected
  behaviour. The behaviour as written is `LegacyWrangling.DropByLabel` (see Findings).
- TimeSeriesPreparation.DailyFrame.ApplyStationarityTransformations: uses the intended
  stationarity check `IsStationary` rather than the one written (see Findings).
- The column rename at src/forecasting_timeseries_preparation.py:102 is a fixed list of names
  (`DailyFrame.Columns`). Rows hold their cells as datatype fields, so the names have no
  further behaviour to prove.
- Pandas index labels are modelled only for the label drop. Elsewhere rows are positions.

## Findings

| source | as written | input that shows it | evidently intended | confidence | as-written member | corrected member |
|---|---|---|---|---|---|---|
| data_wrangling.py:56-58 | `data.drop(wrong_date.index)` drops by index label, and the frame built by concatenating the per-file frames repeats the labels 0, 1, 2, ... of each file | file 1 row 0 has a date outside its year, file 2 row 0 is correct: both carry label 0 and both are dropped | drop only the rows whose date is outside their year | not executed | LegacyWrangling.DropByLabel, LegacyWrangling.LabelDropLosesMatchingRow | LegacyWrangling.FormatData, LegacyWrangling.KeepMatchingYearSpec, LegacyWrangling.DropByLabelWhenUnique |
| src/forecasting_timeseries_preparation.py:49 | `result[4]["1%"] < [4]` compares the 1% critical value with the list `[4]`; on numpy's float64 this broadcasts to "below 4", so the test passes whenever p <= 0.05 and the statistic is negative (a plain Python float would raise TypeError instead) | statistic -1.0, p-value 0.03, 1% critical value -3.43 | the statistic must be below the 1% critical value | not executed | TimeSeriesPreparation.IsStationaryAsWritten, TimeSeriesPreparation.StationarityCounterexample | TimeSeriesPreparation.IsStationary, TimeSeriesPreparation.IsStationaryStricter |
