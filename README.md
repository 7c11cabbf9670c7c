# Employee compensation importer and dashboard, modelled in Dafny

The system has two parts.

- **The importer** (`import_data.py`) reads an employee workbook into a pandas data frame. It strips and renames the column headings and normalises five columns in place:
  - ExperienceYears: a range "a-b" becomes its midpoint rounded to one decimal.
  - Compensation: thousands separators are removed, then the value is read as a number.
  - Status: one of the words "Active" or "Inactive".
  - LastWorkingDay: a date or nothing.
  - Role: one known misspelling is corrected.

  It then offers every row to the database. It counts successes and failures, and a failed row never stops the ones after it.
- **The dashboard** (`app.py`) reads the Employees table and narrows it step by step:
  - optionally to the active employees only;
  - then to one Role, or to "All".

  On what is left it shows:
  - the mean Compensation at a chosen Location;
  - the mean per Location;
  - an export set filtered by chosen Roles and Locations;
  - counts of employees per experience range, optionally broken down by Location or Role.

The project has six files:

- `wrappers.dfy`: `Option` and `Result`.
- `sequences.dfy`: subsequences and first occurrence.
- `strings.dfy`: the Python string operations the scripts use (`strip`, `upper`, `lower`, `split`, deleting a character).
- `numbers.dfy`: decimal number reading (`float`, `pd.to_numeric`) and `round(x, 1)`, on exact reals.
- `importer.dfy`: `import_data.py`.
  - The data frame is a class whose methods change its headings and columns in place.
  - The per-row insert loop is a method with counters, proved against a recursive specification `Replay`.
  - `ImportWorkbook` runs the whole script. It is proved to produce exactly the rows of the pure description `PrepareRows` and the report of `Replay`, or the KeyError pandas raises.
- `dashboard.dfy`: `app.py`.
  - Every filter is a selection by a boolean mask.
  - Each figure and table is a function of the working set.
  - `RunDashboard` threads the working set through the page in the script's order.

The database is a parameter:
- `existing` is the rows already committed.
- `accept(attempt, committed, row)` is the database's verdict on one insert: `attempt` counts the inserts tried before it, so the same row can fail once and succeed later.

The date library is a parameter too: `toDate`.

## Model

| member | source | states |
|---|---|---|
| Strings.Trim | import_data.py:10 | `strip()`: the result has no surrounding whitespace, is no longer than the input, and is empty exactly when the input is all whitespace |
| Strings.TrimPadded | import_data.py:10 | stripping whitespace-padded text that itself has no surrounding whitespace gives that text |
| Strings.TrimAbsorbs | import_data.py:43 | extra surrounding whitespace does not change the result of stripping |
| Strings.TrimIdempotent | import_data.py:10 | stripping twice is stripping once |
| Strings.TrimDecompose | import_data.py:10 | every string is its leading whitespace, its stripped form, then its trailing whitespace |
| Strings.ToUpper | import_data.py:43 | `upper()` maps every character by itself and keeps the length |
| Strings.ToLower | app.py:25 | `lower()` maps every character by itself and keeps the length |
| Strings.UpperTrim | import_data.py:43 | upper-casing and stripping can be done in either order |
| Strings.Split | import_data.py:27 | `split('-')` gives one piece more than there are hyphens, and no piece holds a hyphen |
| Strings.SplitJoin | import_data.py:27 | joining the pieces with the separator gives back the original text |
| Strings.SplitTwo | import_data.py:27 | text with exactly one hyphen splits into the parts before and after it |
| Strings.RemoveAll | import_data.py:39 | `replace(',', '')` keeps every other character, removes every comma, and changes nothing in text without commas |
| Strings.RemoveAllSubsequence | import_data.py:39 | comma removal keeps the other characters in their order |
| Strings.RemoveAllIdempotent | import_data.py:39 | removing commas twice is removing them once |
| Numbers.ParseNum | import_data.py:27 | `float`: all-whitespace text is not a number, and a negative result needs a '-' in the text |
| Numbers.ToNumeric | import_data.py:40 | `pd.to_numeric` with `errors='coerce'`: a number it reads is the one `float` reads, text `float` rejects is NaN, and text holding non-ASCII whitespace is NaN |
| Numbers.ToNumericAsciiPadding | import_data.py:40 | text padded with ASCII whitespace only reads as `float` reads it |
| Numbers.ToNumericShowNat | import_data.py:40 | the decimal notation of a whole number reads back as that number |
| Numbers.ParseNumRejectsComma | import_data.py:39-40 | text holding a comma is never a number, which is why the commas are deleted first |
| Numbers.ParseShowNat | import_data.py:40 | the decimal notation of a whole number reads back as that number |
| Numbers.Round1 | import_data.py:28 | `round(x, 1)`: the result is a whole number of tenths within 0.05 of `x`, and is never negative for a non-negative `x` |
| Numbers.Round1Nearest | import_data.py:28 | no whole number of tenths is closer to `x` than the rounded value |
| Numbers.Round1Exact | import_data.py:28 | a value with at most one decimal is left as it is |
| Numbers.Round1Tie | import_data.py:28 | a value exactly halfway between two tenths goes to the tenth whose last digit is even: 1.25 gives 1.2 and 1.35 gives 1.4 |
| Importer.CleanColumnName | import_data.py:10-21 | a cleaned heading never has surrounding whitespace; a heading whose stripped form is in the map becomes a database column name; any other heading comes out merely stripped |
| Importer.CleanColumns | import_data.py:10-21 | every heading is stripped, then renamed through the fixed map |
| Importer.ColumnMapFacts | import_data.py:13-21 | every heading the map renames is already stripped and becomes a database column name |
| Importer.ColumnNamePadding | import_data.py:10-21 | a map heading with whitespace around it is still renamed |
| Importer.ColumnNamePassThrough | import_data.py:10-21 | a stripped heading absent from the map passes through unchanged |
| Importer.CleanColumnNameIdempotent | import_data.py:10-21 | cleaning a heading twice is cleaning it once |
| Importer.DataFrame.FromSheet | import_data.py:7 | the frame holds the worksheet's headings and its cells column by column |
| Importer.DataFrame.StripColumns | import_data.py:10 | every heading is replaced by its stripped form, and the cells are untouched |
| Importer.DataFrame.RenameColumns | import_data.py:13-21 | every heading is replaced by its renaming, and the cells are untouched |
| Importer.DataFrame.Apply | import_data.py:36 | `df[name] = df[name].apply(f)` changes exactly column `name`; a missing column is reported, as pandas' KeyError, and nothing changes |
| Importer.DataFrame.Rows | import_data.py:72-79 | `iterrows()` gives one row per frame row |
| Importer.ApplyColumnCell | import_data.py:36 | after applying `f` to a column, each cell under that label is `f` of its old value and every other cell is unchanged |
| Importer.ConvertExperience | import_data.py:24-34 | a number cell keeps its value, negative ones included; a hyphenated text gives None or a non-negative whole number of tenths; a blank or a date-time gives None |
| Importer.ExperienceRange | import_data.py:26-28 | "a-b" with both ends numbers gives `round((a + b) / 2, 1)` |
| Importer.ExperienceBadEnd | import_data.py:27-34 | "a-b" with an end that is not a number gives None |
| Importer.ExperienceTwoParts | import_data.py:26-28 | text with exactly one hyphen whose two ends are numbers `a` and `b` gives `round((a + b) / 2, 1)` |
| Importer.ExperienceTooManyParts | import_data.py:27 | two or more hyphens, as in "1-2-3", give None |
| Importer.ExperienceLeadingHyphen | import_data.py:27 | a leading hyphen, as in "-1", gives None |
| Importer.ExperiencePlain | import_data.py:32 | text without a hyphen is read as one number, and None when that fails |
| Importer.WholeRangeMidpoint | import_data.py:28 | the midpoint of two whole numbers needs no rounding |
| Importer.Midpoint | import_data.py:27-28 | the rounded midpoint exists exactly when both ends are numbers; it is a non-negative whole number of tenths lying between the ends, give or take 0.05 |
| Importer.CleanCompensation | import_data.py:39-40 | a number cell keeps its value; a blank or a date-time gives None; text is read by `pd.to_numeric` after every comma is deleted |
| Importer.CompensationWithCommas | import_data.py:39-40 | a whole number written with commas anywhere, as in "1,200,000", is read as that number |
| Importer.NormaliseStatus | import_data.py:43 | the status is always exactly "Active" or "Inactive" |
| Importer.StatusIgnoresCaseAndPadding | import_data.py:43 | surrounding whitespace and letter case do not change the status |
| Importer.StatusMarker | import_data.py:43 | "Y", "YES" or "ACTIVE" in any letter case, padded with any whitespace, is "Active" |
| Importer.StatusOnlyMarkers | import_data.py:43 | "Active" only for a text that is such a padded marker; every other cell is "Inactive" |
| Importer.StatusNonMarkers | import_data.py:43 | a blank, "N" and the empty text are "Inactive" |
| Importer.ParseDate | import_data.py:46-52 | a blank gives None and a date cell its own date |
| Importer.CorrectRole | import_data.py:57 | the correction changes exactly "Senir Associate", and changes it to "Senior Associate"; every other Role cell is left as it is |
| Importer.ExperienceCellIdempotent | import_data.py:36 | normalising ExperienceYears a second time changes nothing |
| Importer.CompensationCellIdempotent | import_data.py:39-40 | normalising Compensation a second time changes nothing |
| Importer.StatusCellIdempotent | import_data.py:43 | normalising Status a second time changes nothing |
| Importer.DateCellIdempotent | import_data.py:54 | normalising LastWorkingDay a second time changes nothing |
| Importer.CorrectRoleIdempotent | import_data.py:57 | correcting Role a second time changes nothing |
| Importer.NormaliseRow | import_data.py:36-57 | a cleaned worksheet row is a normal row (numbers or blanks, "Active" or "Inactive", a date or a blank), and its Name and Location are the worksheet's cells unchanged |
| Importer.NormaliseRows | import_data.py:36-57 | one cleaned row per worksheet row, in order, each normalised on its own and each a normal row |
| Importer.PrepareRows | import_data.py:36-79 | if the clean-up fails, the error names a database column that the cleaned headings lack; if it succeeds, there is one row per worksheet row |
| Importer.PreparedRowsAreNormal | import_data.py:36-57 | every row sent to the database has ExperienceYears and Compensation a number or blank, Status "Active" or "Inactive", and LastWorkingDay a date or blank |
| Importer.CleanedRows | import_data.py:36-57 | the five column-by-column passes produce the same rows as normalising each worksheet row on its own |
| Importer.Kept | import_data.py:83-89 | the committed rows are taken from the attempted rows in order, and there are as many as there were successes |
| Importer.KeptAppend | import_data.py:83-89 | the committed rows of two blocks of attempts are those of the first block followed by those of the second |
| Importer.KeptOne | import_data.py:83-89 | one attempted row is committed exactly when its insert succeeded; with KeptAppend this pins the committed rows to exactly the successful ones, in order |
| Importer.Replay | import_data.py:69-92 | each row is offered once, numbered by its attempt; one outcome per row; success plus failed is the number of rows; success counts the successful outcomes |
| Importer.ReplayTable | import_data.py:83-89 | the table afterwards is the old table followed by exactly the rows that succeeded, in order |
| Importer.ReplayAttempt | import_data.py:72-92 | row `k` is attempted exactly once, as attempt `k`, after the rows before it, against the table holding exactly the earlier rows that succeeded; a failure never stops later rows |
| Importer.InsertAll | import_data.py:69-92 | the counter loop, offering row `k` as attempt `k`, produces exactly `Replay`'s report, with success plus failed equal to the number of rows |
| Importer.ImportWorkbook | import_data.py:7-92 | the script either stops with the KeyError `PrepareRows` names, before anything is inserted, or inserts exactly `PrepareRows`' rows in order with `Replay`'s outcome |
| Dashboard.Where | app.py:25 | a masked selection is never longer than what it selects from, and the mask keeps every row it holds |
| Dashboard.WhereSubsequence | app.py:25 | a masked selection keeps rows in order and adds none |
| Dashboard.WhereAppend | app.py:25 | selecting from two blocks of rows is selecting from each block in turn |
| Dashboard.WhereCount | app.py:25 | a selection holds every copy of a row the mask keeps, as often as the input does, and no copy of any other row |
| Dashboard.WhereMembers | app.py:25 | a row is selected exactly when it is present and the mask keeps it |
| Dashboard.WhereIdempotent | app.py:39 | applying the same mask again changes nothing |
| Dashboard.WhereCommute | app.py:70-73 | two masks can be applied in either order |
| Dashboard.Load | app.py:24-25 | never longer than the table; with inactive employees included it is the whole table, without them every row it holds has Status "active" in some letter case |
| Dashboard.LoadSelects | app.py:24-25 | with inactive employees included the loaded set is the whole table; without, it is exactly the rows whose Status lower-cased is "active"; either way it is in order and adds nothing; without inactive employees every active row is kept as often as the table holds it |
| Dashboard.FilterRole | app.py:38-39 | never longer than the working set; "All" leaves it unchanged, any other choice leaves only rows with that Role |
| Dashboard.FilterRoleSelects | app.py:38-39 | "All" leaves the working set unchanged; any other choice keeps exactly the rows with that Role, in order, each as often as the working set holds it; filtering twice is filtering once |
| Dashboard.Present | app.py:36 | `dropna()`: a value is kept exactly when it occurs in the column |
| Dashboard.Distinct | app.py:66-67 | `unique()`: the same values, each exactly once |
| Dashboard.Values | app.py:36 | `dropna().unique()`: each present value of the column exactly once |
| Dashboard.RoleOptions | app.py:36-37 | the choices are "All" followed by exactly the Roles the working set holds |
| Dashboard.RoleChoiceNonEmpty | app.py:37-39 | choosing an offered Role never empties a non-empty working set |
| Dashboard.ImportedStatusShown | app.py:25 | a row whose Status the importer wrote is loaded, with inactive employees excluded, exactly when the importer wrote "Active" |
| Dashboard.Mean | app.py:47 | `mean()` has no value exactly when there is nothing to average |
| Dashboard.MeanBounds | app.py:47 | the mean lies between the smallest and the largest value |
| Dashboard.HeadlineMean | app.py:42-47 | with no Location to choose there is no headline figure |
| Dashboard.HeadlineMissing | app.py:46-47 | there is no headline figure exactly when no row at the chosen Location has a Compensation |
| Dashboard.Tallies | app.py:51 | one tally for exactly each Location some row holds, counting no more values than there are rows |
| Dashboard.TalliesMatch | app.py:51 | the one-pass per-location totals are the sum and count of the Compensation values at each Location, and a Location has a total exactly when some row is there |
| Dashboard.LocationMeans | app.py:51 | one bar for exactly each Location some working row holds |
| Dashboard.LocationMeansHeadline | app.py:51 | the per-location chart has a bar for exactly each present Location, and each bar equals the headline figure for that Location |
| Dashboard.Export | app.py:70-73 | never longer than the working set, and every exported row has a chosen Role and a chosen Location |
| Dashboard.ExportSelects | app.py:70-73 | the export set is exactly the rows whose Role and Location are both chosen, in order, each as often as the working set holds it; an empty choice exports nothing |
| Dashboard.ExportDefaults | app.py:66-73 | the default choices export the whole working set |
| Dashboard.Bucket | app.py:100-103 | a value gets a range exactly when it is present and not negative |
| Dashboard.BucketInRange | app.py:100-103 | value `x` goes to range `i` exactly when the lower edge of range `i` is at most `x` and `x` is below its upper edge |
| Dashboard.RangesDisjoint | app.py:100-103 | no value lies in two ranges |
| Dashboard.BucketMonotone | app.py:100-103 | a larger value never goes to a lower range |
| Dashboard.Ranges | app.py:103 | the added ExperienceRange column has one entry per row, that row's range |
| Dashboard.RangeCounts | app.py:109 | one count per range, empty ranges included |
| Dashboard.RangeCountsTotal | app.py:109 | the counts add up to the number of rows that have a range |
| Dashboard.RangeSplitsByPresence | app.py:112 | a range's rows are those with a value of the breakdown column plus those without one |
| Dashboard.Breakdown | app.py:112 | six lines, one per range, each with one count per value of the column; each count is the number of rows in that range with that value, and is at most the range's count |
| Dashboard.BreakdownTotal | app.py:112 | each range's breakdown counts add up to that range's rows that have a value of the chosen column; those without one drop out |
| Dashboard.WorkingSelects | app.py:24-39 | after both filters the working set holds a row exactly when it passes both, as often as the table holds it |
| Dashboard.ChartTotals | app.py:108-112 | the experience chart conserves its counts, with and without a breakdown |
| Dashboard.MeansAreHeadlines | app.py:46-51 | every per-location bar equals the headline figure for its Location |
| Dashboard.HeadlineHasRow | app.py:46-47 | a headline figure needs a row at the chosen Location |
| Dashboard.RunDashboard | app.py:24-112 | the working set is the table after the status and Role filters; the headline, per-location bars, export set, range column and chart are the functions above applied to it; the working set is in table order and holds each passing row as often as the table does; each per-location bar equals the headline figure for that Location; a headline figure needs a working row at the chosen Location; the export set is in working-set order; the experience chart conserves its counts |

## Left out

- Database access is a parameter: the connection, cursor, SQL text, `commit` and the dashboard's query.
  - `accept` says whether one insert succeeds, given how many inserts were tried before it and the rows committed before it.
  - The dashboard starts from the table as a sequence of rows.
  - Why an insert fails, and whether a failed insert leaves anything behind, is not modelled.
- `pd.read_excel` is a parameter. The worksheet arrives as headings and cells, and a cell is blank, text, a number or a date-time. Boolean cells and formulas are not modelled.
- `pd.to_datetime` is the parameter `toDate`. Only its blank and date-cell cases are stated, as `ParseDate` does.
- Streamlit widgets become parameters: the checkbox, the select boxes, the multiselects and the radio button. The page rendering, `st.cache_data` and the Plotly charts are left out. Only the tables behind the charts are modelled.
- `to_csv(...).encode('utf-8')` and the download are not modelled: the CSV text format is library behaviour.
- The "Employee Details" and export tables show a column projection of the working set. That projection is rendering and is not modelled.
- The `print` output of the importer is not modelled.
- Numbers are exact reals, not binary floats.
  - Round1: rounds the exact value half to even. Python rounds the nearest binary float, so `round(0.15, 1)` is `0.1` there but `0.2` here.
  - NaN appears only as None.
  - The `:,.2f` formatting of the headline figure is not modelled.
- Numbers.ParseNum: accepts only optional surrounding whitespace, one optional sign, digits, and at most one decimal point with digits on at least one side. `float` accepts more, such as exponents, "inf", "nan" and underscores. Those inputs read as None here.
- Numbers.ToNumeric: pandas' own number reader also accepts exponents and "inf", and treats "nan" as missing. Those inputs read as None here. Like the model, it rejects underscores.
- Strings.ToUpper: maps one character to one character: the ASCII letters, plus 'ı' and 'ſ', which Python upper-cases to 'I' and 'S'. Python's full Unicode mapping is not modelled. That includes the mappings that change the length, such as 'ß' to "SS" and the ligatures 'ﬁ', 'ﬀ' and 'ﬆ' to "FI", "FF" and "ST". None of the left-out mappings yields "Y", "YES" or "ACTIVE", so the Status decision is unaffected.
- Strings.ToLower: maps the ASCII capitals only. Python also lower-cases the Kelvin sign to 'k'. Every other non-ASCII capital lower-cases to text holding a non-ASCII character: 'İ', for one, becomes 'i' followed by a combining dot. None of these can make a Status equal "active".
- Strings.Trim: treats as whitespace the characters Python's `str.isspace` reports among the ASCII and common Unicode spaces.
- Importer.CleanCompensation: assumes a number cell reads back as itself from its `str` form.
- Importer.DataFrame.Apply: with two columns of the same name, pandas' `df[name]` is itself a frame. The model acts on the first such column instead.
- Dashboard.LocationMeans: the per-location chart is a map, so the order in which `groupby` sorts the Locations is not modelled.
- Dashboard.RangeCounts: one count per range, zero counts included. This relies on `groupby` with `observed=False` on the categorical range column.
- Dashboard.Breakdown: the broken-down table is a count for every range and every value of the column, zero counts included. This relies on `groupby` with `observed=False` on the categorical range column. Its row order is not modelled.
- Dashboard.RoleOptions: which option Streamlit preselects is not modelled. The chosen Role, Location and export lists are free parameters.

In these cases the model follows the code:
- A negative ExperienceYears falls in no experience range. A negative number cell keeps its value, because `float(-5.0)` is `-5.0`.
- Compensation read from text such as "-100" is negative. Normalised values are therefore not always non-negative.
- A Role literally named "All" cannot be selected on its own: choosing either "All" option leaves the working set unchanged.
- With no Location present, the select box returns None and the headline figure is None. No Location is chosen.
