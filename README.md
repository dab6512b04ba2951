# One-screen dashboards: a Dafny model of the page pipeline

Two Streamlit pages, `app.py` and `entod_current_month_dashboard.py`, load
one spreadsheet into a pandas DataFrame and run the same script over it:

1. every `object` column whose values all parse as dates becomes a
   `datetime64` column;
2. every column gets a multiselect drop-down listing "ALL" and then its
   distinct values, sorted (day labels `YYYY-MM-DD` for a date column);
   `app.py` keeps the first `MAX_UNIQUE = 100` of them;
3. "ALL" among the picks leaves a column unconstrained, otherwise the rows
   whose cell is among the picks are kept (picked days become midnight
   timestamps);
4. the page shows the number of rows, the sum of a chosen numeric column
   and the ten groups of a chosen text column with the largest sums.

The entod page also strips surrounding whitespace from every text column
before step 1, does not cap the drop-downs, draws a trend of the value
summed per timestamp of a chosen date column and a pie of the same ten
groups, and shows the filtered table with numbers written with two
decimals.

The model is row-major. A `Frame` is a column list, a dtype per column
and rows mapping column names to cells. A `Cell` is missing (NaN/NaT), a
string, an integer or a timestamp (a civil day and a second of the day).
The data itself lives in a `DataFrame` class whose `SetColumn` method is
`df[col] = ...`. The loops that rewrite columns in place are module-level
methods that take a `DataFrame` and are proved against functions on
`Frame`s:
- type promotion (`Pipeline.PromoteDatetimeColumns`);
- stripping (`EntodDashboard.StripObjectColumns`);
- number formatting (`EntodDashboard.FormatNumberColumns`).

The filter loop (`Filters.ApplyFilters`) rebinds a list of rows, and the
loop that builds `filter_values` (`Pipeline.CollectLoop`) walks the column
list; both are methods over sequences.

Some members only define a pandas primitive and carry no claim of their
own: `Frames.Column` (`df[col]`), `Frames.SetCells` (assigning a column),
`Frames.MapCells` (`Series.map`), `Frames.DataFrame.ColumnCells`,
`Catalogs.MapDayText` (`dt.strftime` over a column), `Catalogs.Truncate`
(`[:MAX_UNIQUE]`) and `Aggregates.SumsFor` (the per-group sums). The claims
about them are made by the members that use them, such as
`Frames.ColumnAfterSetCells`, `Frames.RewriteEachSpec`,
`Catalogs.CappedCatalogKeepsSmallest` and `Aggregates.GroupTable`.

The widgets are parameters of the page:
- a multiselect returns the ticked positions;
- a selectbox returns the chosen position;
- `pd.to_datetime` is a function from a cell to a timestamp, NaT or failure.

Python's `sorted` raises `TypeError` when it compares a string with a
number or with NaN. The model returns `Failure(Unorderable)` from the
catalog in that case, and the whole page fails.

Modules:
- `Text` (`str` order, `strip`, `str(int)`)
- `Calendar` (day labels)
- `Cells`
- `Sorting`
- `Frames` (including `DataFrame`)
- `Catalogs` (drop-down contents and pick normalisation)
- `Filters`
- `Aggregates` (group sums, top ten, trend)
- `Pipeline` (shared script)
- `AppDashboard`
- `EntodDashboard`

A date pick is compared as a midnight timestamp (`pd.to_datetime` of the
label). So a row whose timestamp carries a time of day never passes an
explicit date selection. `Filters.DateSelectionMatchesMidnightOnly`
states this exactly as the code behaves, and
`Pipeline.DateEntryMatchesMidnightOnly` states it for the entries the
page builds from the user's picks.

## Model

| member | source | states |
|---|---|---|
| Text.StrLessIrreflexive | app.py:44 | no string sorts before itself |
| Text.StrLessTransitive | app.py:44 | the string order `sorted` uses is transitive |
| Text.StrLessAsymmetric | app.py:44 | two strings never sort before each other |
| Text.StrLessTotal | app.py:44 | any two different strings are ordered one way or the other |
| Text.StrLessConcat | app.py:36 | comparing concatenations with equal-length heads compares the heads, then the tails |
| Text.Strip | entod_current_month_dashboard.py:134 | the stripped string has no whitespace at either end and is no longer than the input |
| Text.StripIsTrimmedInfix | entod_current_month_dashboard.py:134 | strip removes exactly a whitespace prefix and a whitespace suffix, so the result is an infix of the input |
| Text.StripIdempotent | entod_current_month_dashboard.py:134 | stripping a stripped string changes nothing |
| Text.TrimStart | entod_current_month_dashboard.py:134 | `lstrip` never lengthens a string |
| Text.TrimStartSpec | entod_current_month_dashboard.py:134 | `lstrip` leaves a suffix of the input that does not start with whitespace, and what it removed is all whitespace |
| Text.TrimEnd | entod_current_month_dashboard.py:134 | `rstrip` never lengthens a string |
| Text.TrimEndSpec | entod_current_month_dashboard.py:134 | `rstrip` leaves a prefix of the input that does not end with whitespace, and what it removed is all whitespace |
| Text.StripOfTrimmed | entod_current_month_dashboard.py:134 | stripping a string with no surrounding whitespace gives it back unchanged |
| Text.NatDigits | entod_current_month_dashboard.py:260 | the decimal digits of a natural number are a non-empty digit string |
| Text.NatDigitsRoundTrip | entod_current_month_dashboard.py:260 | reading back the digits of n gives n |
| Text.IntToStringRoundTrip | entod_current_month_dashboard.py:134 | `str(n)` of an integer reads back as n, signs included |
| Text.IntToStringTrimmed | entod_current_month_dashboard.py:134 | `str(n)` of an integer has no surrounding whitespace |
| Text.Pad | app.py:36 | a zero-padded field has the requested width and only digits |
| Text.PadRoundTrip | app.py:36 | a zero-padded field reads back as its number |
| Text.PadOrder | app.py:36 | zero-padded fields of one width sort as strings exactly as their numbers do |
| Calendar.DayLabel | app.py:36 | a `%Y-%m-%d` label is ten characters long |
| Calendar.DayLabelRoundTrip | app.py:36-40 | `pd.to_datetime` of a day's label gives that day back |
| Calendar.DayLabelInjective | app.py:36 | different days have different labels, so `unique()` over labels is unique over days |
| Calendar.DayLabelOrder | app.py:36 | sorting day labels as strings sorts the days chronologically |
| Cells.LessIrreflexive | app.py:44 | no cell sorts before itself |
| Cells.LessTransitive | app.py:44 | the order `sorted` uses on cells is transitive |
| Cells.LessAsymmetric | app.py:44 | two cells never sort before each other |
| Cells.LessTotal | app.py:44 | two different cells that Python can compare are ordered one way or the other |
| Cells.Midnight | app.py:40 | a picked day becomes the timestamp of that same day at second 0 |
| Cells.StrOf | entod_current_month_dashboard.py:134 | `astype(str)` keeps a string, writes NaN as "nan", writes a number as digits that read back as it, and writes a timestamp as 19 characters whose first ten are its day's label |
| Cells.StripCell | entod_current_month_dashboard.py:134 | `astype(str).str.strip()` of a cell is a string with no surrounding whitespace: the stripped string for a string cell, and `str()` of the cell, already free of surrounding whitespace, for any other cell |
| Cells.StripCellIdempotent | entod_current_month_dashboard.py:134 | stripping a stripped cell changes nothing |
| Cells.FormatNumber | entod_current_month_dashboard.py:260 | `f"{x:.2f}"` always produces a string |
| Cells.FormatNumberRoundTrip | entod_current_month_dashboard.py:260 | an integer formatted with two decimals is its digits followed by ".00" and reads back as 100 n hundredths |
| Cells.FormatNumberOfMissing | entod_current_month_dashboard.py:260 | NaN is written "nan" by the two-decimal format |
| Cells.ParsedCell | app.py:27 | a parsed cell is a timestamp or NaT, so it fits a datetime column |
| Sorting.AscendingHasNoDups | app.py:44 | a strictly ascending list has no repeated value |
| Sorting.NoDupsCardinality | entod_current_month_dashboard.py:159 | a list without repeats has as many elements as its set |
| Sorting.Insert | app.py:44 | inserting into an ascending list keeps it ascending and adds exactly the new value |
| Sorting.SortedDistinct | app.py:44 | `sorted(s.unique())` is strictly ascending and holds exactly the values of s |
| Sorting.SortedDistinctCount | entod_current_month_dashboard.py:159 | `sorted(s.unique())` has one entry per distinct value |
| Sorting.Distinct | app.py:74 | the distinct values: no repeats, the same values |
| Frames.ColumnsOfKind | app.py:60 | `select_dtypes` lists exactly the columns of that dtype, without repeats |
| Frames.ColumnAfterSetCells | app.py:27 | after `df[col] = cells`, reading `df[col]` gives those cells back, and every other column reads as before |
| Frames.RewriteEach | entod_current_month_dashboard.py:133-134 | rewriting columns one after another keeps the column list and the row count |
| Frames.RewriteEachSpec | entod_current_month_dashboard.py:133-134 | after the rewrite loop, exactly the listed columns hold h of their old cells with the new dtype; everything else is unchanged |
| Frames.RewriteEachWellFormed | entod_current_month_dashboard.py:133-134 | rewriting existing columns into cells that fit the new dtype keeps the frame well formed |
| Frames.RewriteEachIdempotent | entod_current_month_dashboard.py:133-134 | running the rewrite loop twice with an idempotent h equals running it once |
| Frames.DataFrame.constructor | entod_current_month_dashboard.py:258 | `copy()` holds the given table |
| Frames.DataFrame.SetColumn | app.py:27 | `df[col] = cells` sets that column's dtype and cells, appends an unknown name, and keeps a well-formed frame well formed |
| Frames.RewriteColumns | entod_current_month_dashboard.py:133-134 | the in-place rewrite loop leaves the DataFrame equal to the functional rewrite of its old value |
| Catalogs.DayText | app.py:36 | `strftime('%Y-%m-%d')` of a cell is a string exactly when the cell is a timestamp, and then it is the label of that timestamp's day; NaT gives NaN |
| Catalogs.DropMissing | app.py:44 | `dropna()` keeps exactly the non-missing cells |
| Catalogs.Catalog | app.py:36-37 | the drop-down fails exactly when `sorted` would raise; otherwise it is "ALL", then strictly ascending values of the column, at most cap of them |
| Catalogs.UncappedCatalogComplete | entod_current_month_dashboard.py:151-152 | without a cap, every value of the column is listed, once, so the size is the distinct count plus one |
| Catalogs.CappedCatalogKeepsSmallest | app.py:44-45 | with a cap, min(cap, distinct count) values are listed, and every value left out is greater than every value kept |
| Catalogs.TextCatalogComplete | entod_current_month_dashboard.py:159 | a column of strings always sorts, and every one of its strings is listed |
| Catalogs.ValueCatalogHasNoMissing | app.py:44 | a non-date drop-down never lists NaN |
| Catalogs.DateCatalogIsChronological | app.py:36 | a date drop-down lists labels of days that occur in the column, in chronological order, or NaN alone |
| Catalogs.DateCatalogEntriesAreDays | app.py:36 | every value of a date drop-down is NaN or the label of a day that occurs in the column |
| Catalogs.DateCatalogInOrder | app.py:36 | the labels of a date drop-down name days in strictly increasing order |
| Catalogs.DayLabelsOrdered | app.py:36 | two labels of a date column that sort one before the other name days in that order |
| Catalogs.DateCatalogEntriesArePicks | app.py:36-38 | every entry of a date drop-down is "ALL", NaN or a valid day label |
| Catalogs.PickStamp | app.py:40 | `pd.to_datetime` of a picked label is midnight of the day it names; NaN becomes NaT |
| Catalogs.Normalize | app.py:39-50 | no constraint exactly when "ALL" is picked; otherwise the picks themselves for a non-date column, and for a date column each pick's own `pd.to_datetime`, position by position |
| Filters.Select | app.py:57 | filtering never adds rows |
| Filters.SelectedRowsMatch | app.py:57 | every row kept is an input row that passes every constraint |
| Filters.MatchesConcat | app.py:55-57 | passing the constraints a + b is passing both a and b |
| Filters.SelectThenSelect | app.py:55-57 | filtering by a, then by b, is filtering by a + b |
| Filters.SelectSameMatches | app.py:55-57 | constraint lists that accept the same rows select the same rows |
| Filters.SelectKeepsMatchingRowsInOrder | app.py:57 | the result is exactly the matching rows, as a strictly increasing list of positions in the input |
| Filters.SelectIdempotent | app.py:57 | filtering the filtered rows again changes nothing |
| Filters.EmptySelectionSelectsNothing | app.py:47-48 | a column whose picks are empty (no "ALL") empties the table |
| Filters.SelectCountMonotone | app.py:55-57 | when every row a accepts is accepted by b, b keeps at least as many rows |
| Filters.WideningNeverLowersRowCount | app.py:55-57 | widening any column's selection never lowers the Rows figure |
| Filters.DateSelectionMatchesMidnightOnly | app.py:40 | a row passes a date column's explicit selection iff its timestamp is midnight of a picked day, or it is NaT and NaN was picked |
| Filters.ApplyFilters | app.py:54-57 | the filter loop yields exactly the rows passing every constraint, in their original order |
| Filters.FilterStep | app.py:56-57 | one more constrained column narrows the rows by `isin`; an unconstrained one changes nothing |
| Filters.SelectAll | app.py:54 | with no constraints every row is kept |
| Aggregates.GroupKeys | app.py:74 | the groups are the distinct non-missing values of the group column |
| Aggregates.GroupTable | app.py:73-76 | one entry per distinct non-missing key that occurs, each with the value summed over the rows of that key |
| Aggregates.SumOverKeysStep | app.py:74-75 | a row adds its value to the group sums once if its key is one of the groups |
| Aggregates.SumOverKeysIsKeyedTotal | app.py:74-75 | the sums over all groups add up to the total over the rows that have a key |
| Aggregates.SumEntriesOfSums | app.py:74-75 | summing the table's entries is summing the group sums of its keys |
| Aggregates.GroupSumsAddUp | app.py:74-75 | the group sums add up to the total of the value over the rows whose group key is not NaN |
| Aggregates.InsertDesc | app.py:77 | inserting into a non-increasing list keeps it non-increasing, and the result holds the old entries plus the new one, counted with multiplicity |
| Aggregates.InsertDescKeepsKeysDistinct | app.py:77 | inserting an entry with a new key keeps the keys distinct |
| Aggregates.SortDesc | app.py:77 | `sort_values(ascending=False)` is non-increasing and a permutation of its input (the same multiset of entries) |
| Aggregates.SortedPrefix | app.py:77-78 | a prefix of a sorted list with distinct keys keeps both properties, and no entry it leaves behind has a larger sum than one it keeps |
| Aggregates.TopNIsTopN | app.py:77-78 | `head(n)` of the descending sort is a top-n list: min(n, size) distinct entries, non-increasing, none left out larger |
| Aggregates.TopTenSpec | app.py:72-79 | the chart has at most ten distinct groups, sums non-increasing, each the exact sum of its group, no group left out larger |
| Aggregates.StampsOrderable | entod_current_month_dashboard.py:235 | the non-missing cells of a datetime column are timestamps, which can be sorted |
| Aggregates.TrendSpec | entod_current_month_dashboard.py:235 | one point per timestamp occurring in the rows, in time order, each the value summed over the rows at that timestamp |
| Pipeline.ParseColumn | app.py:27-29 | `pd.to_datetime` of a column succeeds exactly when every cell parses, and then holds each cell's timestamp or NaT |
| Pipeline.ToDatetime | app.py:27 | the per-cell conversion always yields a timestamp or NaT |
| Pipeline.DatetimeOf | app.py:27 | one converted cell fits a datetime column |
| Pipeline.PromoteEach | app.py:24-29 | the promotion loop keeps the column list and the row count |
| Pipeline.PromotedColumns | app.py:24-29 | the promoted columns are exactly the listed columns whose conversion succeeds, without repeats |
| Pipeline.PromoteEachRewritesPromotedColumns | app.py:24-29 | the promotion loop equals rewriting exactly the convertible `object` columns to datetime |
| Pipeline.PromotionSpec | app.py:24-29 | a column becomes datetime iff it was `object` and every cell parses, its cells then parsed; every other column is unchanged; promoted columns leave the group-by candidates; the frame stays well formed |
| Pipeline.PromoteDatetimeColumns | app.py:24-29 | the in-place promotion loop leaves the DataFrame equal to the promoted frame |
| Pipeline.Picked | app.py:38 | every pick is one of the drop-down's options |
| Pipeline.ColumnSelection | app.py:35-51 | a column's entry exists exactly when its drop-down can be built, and it names that column |
| Pipeline.Collect | app.py:34-51 | on success there is one entry per column |
| Pipeline.CollectEntries | app.py:34-51 | the loop succeeds iff every column's entry does, and then lists those entries in column order |
| Pipeline.CollectFailsFrom | app.py:34-51 | once a column fails, the whole loop fails with that error |
| Pipeline.CollectLoop | app.py:34-51 | the catalog loop computes the entries, or the first error |
| Pipeline.BuildFilterValues | app.py:33-51 | `filter_values` is the selections of the DataFrame's columns |
| Pipeline.ColumnSelectionOfDate | app.py:36-50 | a date column's picks are all "ALL", NaN or day labels, and its entry is exactly their normalisation |
| Pipeline.SelectionsEntry | app.py:34-51 | the k-th entry of `filter_values` is the entry built for the k-th column |
| Pipeline.DateEntryIsNormalized | app.py:36-51 | on the page, a date column's entry is the normalisation of that column's own picks, position by position |
| Pipeline.SelectionsSpec | app.py:39-51 | each entry names its column and is unconstrained iff "ALL" was picked; a non-date column is constrained by its picks, a date column by the normalisation of its picks (each the midnight of its day or NaT, position by position) |
| Pipeline.DateEntryMatchesMidnightOnly | app.py:36-57 | on the page, a row passes a date column's explicit selection iff its timestamp is midnight of a day the user picked, or it is NaT and NaN was picked |
| Pipeline.SelectionsSucceed | app.py:34-51 | the catalog loop succeeds exactly when every column's drop-down can be sorted |
| Pipeline.ChooseColumn | app.py:61 | `selectbox(...) if options else None` is None iff there are no options, and otherwise one of them |
| Pipeline.ValueColumn | app.py:60-61 | `value_col` is None iff there is no numeric column, and otherwise a numeric column |
| Pipeline.GroupColumn | app.py:62-63 | `group_col` is None iff there is no `object` column, and otherwise an `object` column |
| AppDashboard.AppPage | app.py:24-79 | the page script leaves the DataFrame promoted and produces the page of the functional pipeline |
| AppDashboard.AppPageFailsOnlyOnUnsortable | app.py:36-44 | the page fails exactly when some column's drop-down values cannot be sorted |
| AppDashboard.AppPageSpec | app.py:54-79 | the table is the rows passing every selection; Rows counts them; Sum is shown iff `value_col` is truthy and totals it; the chart is drawn iff both columns are truthy, and is a top-ten list of exact group sums over an unpromoted text column |
| EntodDashboard.StripObjectColumns | entod_current_month_dashboard.py:133-134 | the strip loop leaves the DataFrame equal to the stripped frame |
| EntodDashboard.StrippedWellFormed | entod_current_month_dashboard.py:133-134 | stripping keeps the frame well formed and every dtype |
| EntodDashboard.StrippedCells | entod_current_month_dashboard.py:133-134 | each text-column cell becomes its stripped string, "nan" where it was NaN; other columns are unchanged |
| EntodDashboard.StripMissing | entod_current_month_dashboard.py:134 | a NaN cell becomes the string "nan" |
| EntodDashboard.StrippedTextColumn | entod_current_month_dashboard.py:134 | a stripped text column holds only strings, "nan" where a cell was missing |
| EntodDashboard.StripTwiceIsStripOnce | entod_current_month_dashboard.py:133-134 | running the strip loop again changes nothing |
| EntodDashboard.StrippedMissingIsListed | entod_current_month_dashboard.py:159-160 | after stripping, a missing text cell is listed as "nan" in its column's drop-down |
| EntodDashboard.UnpromotedColumnKept | entod_current_month_dashboard.py:136-142 | a stripped text column that `pd.to_datetime` cannot convert reaches the drop-downs with its dtype and cells unchanged |
| EntodDashboard.PreparedMissingIsListed | entod_current_month_dashboard.py:133-160 | on the table after stripping and promotion, a missing cell of a text column that stays text is listed as "nan" in that column's drop-down |
| EntodDashboard.FormatNumberColumns | entod_current_month_dashboard.py:258-260 | the formatting loop leaves the copy equal to the formatted frame |
| EntodDashboard.ExportSpec | entod_current_month_dashboard.py:257-260 | the export table keeps columns and rows; numeric columns become text whose values read back as the original numbers; other columns are unchanged |
| EntodDashboard.PreparedWellFormed | entod_current_month_dashboard.py:133-142 | stripping then promotion keeps the table well formed |
| EntodDashboard.TrendColumn | entod_current_month_dashboard.py:232-234 | the trend column is None iff there is no date column, and otherwise a date column |
| EntodDashboard.DateColumnsFit | entod_current_month_dashboard.py:232-235 | a date column holds timestamps or NaT in the rows the filter keeps |
| EntodDashboard.EntodPage | entod_current_month_dashboard.py:133-260 | the page script leaves the DataFrame stripped and promoted and produces the page of the functional pipeline |
| EntodDashboard.EntodDropDowns | entod_current_month_dashboard.py:149-166 | the page fails exactly when some column cannot be sorted; every drop-down lists every distinct value once |
| EntodDashboard.ViewSpec | entod_current_month_dashboard.py:199-260 | Rows counts the filtered rows; Sum totals `value_col`; bar and pie show the same top ten; the trend is shown iff there is a date column and `value_col` is truthy; the table is the formatted filtered rows |
| EntodDashboard.EntodPageSpec | entod_current_month_dashboard.py:168-260 | the page's figures are those of ViewSpec for the rows passing every selection and the chosen columns, and the trend column holds timestamps in those rows |

## Left out

- Numbers are integers. Floating point, `mean()` (the Avg figure), `round(..., 2)` and the rounding of `.2f` on fractions are not modelled.
- Cells.FormatNumber: renders integers only, so the two decimals are always "00".
- Reading the file (`read_excel`, `read_csv`), caching, page configuration, CSS, HTML figure boxes and `red_section_box` are not modelled. The page starts from the loaded table.
- Plotly charts and the CSV download bytes are not modelled. The model stops at the data handed to them: the top-ten entries, the trend entries and the tables.
- Streamlit widgets are parameters:
  - a multiselect returns ticked positions; positions past the end are dropped;
  - a selectbox returns a position, which wraps round.
- Pipeline.ParseColumn: `pd.to_datetime` is a parameter per cell. Its parsing rules are not modelled, and neither is its inference of one format for a whole column.
- Aggregates.SortDesc: the order among equal sums (`sort_values` is not stable by default) is not promised. Every contract about the top ten is stated through `IsTopN`, which leaves ties open.
- Aggregates.GroupTable: the order of the groups before the sort is not modelled.
- The `category` dtype is not modelled. Group-by candidates are the `object` columns only.
- A mixed `object` column (strings with numbers) sorts with `TypeError` and fails the page, as `sorted` does. Grouping such a column is modelled as grouping by cell value.
- Column names are strings. Non-string column labels from a spreadsheet are not modelled.
- Python truthiness of a column name is modelled as "present and not the empty string".
- Cells: `Missing` stands for NaN and NaT only. A `None` cell, which `astype(str)` writes as "None", and a NaT inside an `object` column, written "NaT", are not modelled; blanks read from a spreadsheet are NaN.
- Cells.Fits: an `object` column holds strings, numbers and NaN, never timestamps. A date column that `read_excel` leaves as `object` because one cell is text (timestamps beside "pending") cannot be represented. In the source such a column fails `pd.to_datetime` and then makes `sorted` raise `TypeError`.
- Calendar.Second: a timestamp has whole seconds. Sub-second parts, which still decide the exact `isin` match and the trend's grouping, are not modelled.
- Boolean columns have no dtype in the model. A `bool` column is neither numeric nor `object` for the column choosers, and its drop-down is not modelled.
