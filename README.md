# Transport KPI monitor: trip-report pipeline

A model of the data pipeline inside the Streamlit dashboard `main.py`. An uploaded trip
report (one Excel sheet, one row per trip) goes through three stages:

- **Cleaning and validation** (`process_data`). An empty sheet is rejected. Columns whose
  header contains "Unnamed" anywhere are dropped, and so are columns with every cell empty.
  If a required column is absent, the mandatory business columns ("Tractor", "Fecha",
  "Unidad de negocios", "Viaje", "Precio Cliente", "Distancia total") that are missing are
  reported. The unit column is the one right of "Tractor". Rows whose date does not parse
  are dropped. Price and distance are coerced to numbers, with 0 for unparsable values. A
  year-month "Month_Period" column is added. Failures are values of `Parser.Outcome`, not exceptions.
- **Scope filter and aggregation**. The rows of one business unit and one month are kept
  and grouped by the unit column. Each unit gets its trip count, revenue, distance and last
  trip date. Its inactivity (days without a trip) is measured against the latest date of
  the whole selection.
- **Bands and semaphore styles**. These are the chart categories and the colours the table
  styles select.

The modules follow these stages:

- `Sheet`: the table as headers plus rows of cells, with column lookup, selection and
  assignment.
- `Parser`: `process_data`.
- `Aggregator`: the filter and the groupby.
- `Categorizer`: the bands and styles.
- `Dashboard`: how the page chains the three stages together.
- `Wrappers`: the `Option` type.

Each pandas step is a function from one table value to the next. A column assignment is
`Sheet.SetColumn`: it overwrites the column in place if it exists, and appends it
otherwise.

Values pandas computes that are not written in `main.py` are parameters: the fields of
`Parser.Coercions`. They are day-first date parsing, numeric parsing and the year-month
text of a date. The sidebar selections of lines 91-92 are parameters of `Dashboard.Run`.

Three consequences of `main.py` as written:

- On a boundary value, the bands split as follows: 3 trips is "3-5" and 5 trips is still
  "3-5"; 4,000,000 is ">= $4M"; 5000 km is "5k-8k" and 8000 km is still "5k-8k". So 3,
  4,000,000 and 5000 fall into the higher of their two neighbouring bands, while 5 and 8000
  stay in the middle band (lines 130-132). The styles of lines 153-162 use the same
  comparisons.
- Negative revenues and distances are kept as they are and take part in every sum and
  band; nothing in lines 39-132 rejects them.
- A unit has zero inactivity exactly when a row carrying the selection's latest date has a
  unit. groupby leaves out rows whose unit is missing (line 103), but line 100 takes the
  latest date over all rows of the selection. `Aggregator.ZeroInactivity` states this
  condition, and `Aggregator.LatestRowWithoutUnit` shows that a later row without a unit makes
  every unit's inactivity positive.

## Model

| member | source | states |
|---|---|---|
| Sheet.ContainsText | main.py:51 | `str.contains`: holds exactly when the pattern occurs in the text at some position |
| Sheet.IndexOf | main.py:61 | `list.index`: the first position carrying the name; none exactly when the name is absent |
| Sheet.Select | main.py:51 | `loc[:, mask]`: the chosen columns in the given order, every row kept, each cell taken from its original column |
| Sheet.SetColumn | main.py:65-71 | `df[name] = values`: the header row is unchanged if the column exists and gains the name on the right otherwise; the column then holds the values row by row; every other cell is unchanged |
| Parser.ToDate | main.py:65 | a missing cell coerces to NaT and a date cell to its own day |
| Parser.NumberOrZero | main.py:67-68 | a number is kept unchanged, a missing cell becomes 0, any other cell becomes its parsed value or 0 |
| Parser.KeptAmong | main.py:51 | the kept positions are exactly the columns whose header lacks "Unnamed" and that have a non-empty cell, in strictly increasing (original) order |
| Parser.CleanColumns | main.py:51 | the cleaned table keeps every row, and its headers are those of the kept columns, in their original order |
| Parser.CleanHeadersKept | main.py:51 | no cleaned header contains "Unnamed", and every cleaned column has a non-empty cell |
| Parser.CleanCells | main.py:51 | every cell of the cleaned table is the cell of the same row under a raw column with the same header |
| Parser.CleanHeaders | main.py:51 | a header survives cleaning exactly when some column carrying it is kept |
| Parser.EmptyColumnDropped | main.py:51 | a column whose every cell is empty is not kept |
| Parser.MissingFrom | main.py:55 | the missing list holds exactly the required names absent from the headers, in required order; it is empty exactly when all are present |
| Parser.UnitColumnIndex | main.py:60-62 | the unit column exists exactly when "Tractor" occurs before the last column; it is the one right of the first "Tractor" |
| Parser.DropMissing | main.py:66 | `dropna(subset=...)`: keeps exactly the rows with a value in the column, each as often as before and in the same order |
| Parser.ParseDateColumn | main.py:65 | the date column becomes its coerced value, NaT where it does not parse; headers, row count and every other cell are unchanged |
| Parser.DropUndated | main.py:66 | the survivors all have a date and are exactly the rows of the input with a date, as a multiset and in order |
| Parser.FillNumber | main.py:67-68 | the column becomes a number in every row (parsed value or 0); no row is dropped; every other cell is unchanged |
| Parser.AddPeriod | main.py:71 | "Month_Period" holds the year-month of each row's date, overwriting an existing column or appended as a new one; every other cell and the row count are unchanged |
| Parser.Measure | main.py:65-68 | the coercions keep the header row and never add rows |
| Parser.Process | main.py:39-75 | the empty-file error is returned exactly for a sheet with no rows or no columns, before any column check |
| Parser.ProcessValidated | main.py:59-73 | once no required column is missing, the outcome is the critical error when the unit-column lookup fails, and otherwise a processed table with the header right of "Tractor" as unit column |
| Parser.MissingReported | main.py:54-57 | the run fails for missing columns exactly when a required name is absent after cleaning; the error lists exactly those names, in required order |
| Parser.EmptyRequiredReported | main.py:51-57 | a required column present in the report but with every cell empty is reported missing |
| Parser.UnitColumnLookup | main.py:60-75 | with every required column present, the result is the critical error exactly when "Tractor" is the last column; otherwise the unit column is the header right of the first "Tractor" |
| Parser.MeasureShape | main.py:65-68 | after the coercions every row has a date, and price and distance are numbers |
| Parser.CoerceShape | main.py:65-71 | the coerced table has every required column and "Month_Period"; each row holds a date, the year-month of that date, and numeric price and distance; no row is added and no header lost |
| Parser.ProcessedShape | main.py:65-73 | a successful run returns such a table, with no more rows than the report, and its unit column among the headers |
| Parser.CoerceCount | main.py:65-71 | exactly as many rows survive as have a parsable date |
| Parser.SurvivorCount | main.py:65-68 | a successful run keeps exactly as many rows as the cleaned report has parsable dates; price and distance drop none |
| Parser.NoParsableDates | main.py:65-66 | when no "Fecha" cell parses, a successful run returns a table without rows |
| Parser.OnlyDistanceMissingFrom | main.py:55 | headers lacking only "Distancia total" give the missing list ["Distancia total"] |
| Parser.OnlyDistanceMissing | main.py:54-57 | when only "Distancia total" is absent, the error names exactly that column |
| Aggregator.LayoutOf | main.py:95-107 | the columns the aggregation reads are located exactly when all are present, each at a position carrying its name |
| Aggregator.InScope | main.py:95 | a missing selected business unit, a missing business unit in the row or a missing period in the row never matches, since NaN equals nothing |
| Aggregator.Scope | main.py:95 | the filter keeps exactly the rows with the selected business unit and month, each as often as before and in order; a missing selection matches nothing |
| Aggregator.Units | main.py:103 | the group keys are distinct and non-missing, each is the unit of a row, and every row with a unit has its key |
| Aggregator.Group | main.py:103 | a group holds exactly the rows of its unit, each as often as in the scope |
| Aggregator.TripCount | main.py:104 | `count` is the number of rows whose trip cell is present, the length of the rows left by dropping missing trip ids; it never exceeds the rows and is zero exactly when every trip cell is empty |
| Aggregator.ColumnSum | main.py:105-106 | `sum` skips missing values: over non-negative numbers it is non-negative, and over rows whose values are all 0 or missing it is 0 |
| Aggregator.LatestDay | main.py:100 | the latest date is at least every row's date and is the date of some row |
| Aggregator.Summarize | main.py:103-111 | a unit's summary: trips the non-missing trip count of its group (so at most its rows), revenue and distance the sums over its group, last trip the maximum of its dates, inactivity at least 0 and equal to the report date minus the last trip |
| Aggregator.Summaries | main.py:103-108 | one summary per key, in key order |
| Aggregator.Summary | main.py:100-111 | a non-empty selection always gives a summary table |
| Aggregator.Aggregate | main.py:95-111 | the "no data" state is shown exactly when no row is in the selection |
| Aggregator.SummaryKeys | main.py:103-111 | summaries follow the keys' order and have inactivity at least 0 |
| Aggregator.SummaryUnits | main.py:103-111 | the summary of a selection has one row per distinct unit of the selection and no other, each with inactivity at least 0 |
| Aggregator.SummaryZeroInactivity | main.py:100-111 | some unit has zero inactivity exactly when a latest-dated row of the selection has a unit |
| Aggregator.ReportUnits | main.py:103-111 | the same for the rows of the whole table: units distinct and non-missing, each owning a selected row, every selected row with a unit represented, inactivity at least 0 |
| Aggregator.ReportDate | main.py:100 | the report date is the latest date of the selected rows |
| Aggregator.ZeroInactivity | main.py:100-111 | some unit has zero inactivity exactly when a selected row carrying the report date has a unit |
| Aggregator.LatestRowWithoutUnit | main.py:100-111 | when a row without a unit is later than every row with one, every unit's inactivity is positive, and the summary is non-empty when some row has a unit |
| Aggregator.ZeroInactivityWhenAllKeyed | main.py:100-111 | when every selected row has a unit, some unit has zero inactivity |
| Aggregator.GroupSumsPartition | main.py:103-106 | summing group by group over distinct keys equals summing over the rows of those keys |
| Aggregator.TotalsConserved | main.py:103-120 | the units' revenues (and distances) add up to the total over the selected rows that have a unit, and to the selection's total revenue of line 120 when every row has a unit |
| Categorizer.TripsBandOf | main.py:130 | the band `TripsLabel` shows as "< 3" exactly below 3, "3-5" exactly from 3 to 5 inclusive, "> 5" exactly above 5 |
| Categorizer.RevenueBandOf | main.py:131 | the band `RevenueLabel` shows as "< $4M" exactly below 4,000,000 and ">= $4M" exactly from 4,000,000 up |
| Categorizer.DistanceBandOf | main.py:132 | the band `DistanceLabel` shows as "< 5k" exactly below 5000, "5k-8k" exactly from 5000 to 8000 inclusive, "> 8k" exactly above 8000 |
| Categorizer.TripsColour | main.py:153 | always a colour: red exactly below 3, yellow exactly from 3 to 5, green exactly above 5 |
| Categorizer.RevenueColour | main.py:156 | red or green, green exactly from 4,000,000 up |
| Categorizer.DistanceColour | main.py:159 | never yellow: red exactly below 5000, no style exactly from 5000 to 8000, green exactly above 8000 |
| Categorizer.InactivityColour | main.py:162 | red or no style, red exactly above 7 days |
| Categorizer.CategorizeAll | main.py:130-132 | every summary row gets the trips, revenue and distance band of its own values |
| Categorizer.StyleAll | main.py:153-162 | every table row gets the styles of its own values |
| Categorizer.BandBoundaries | main.py:130-162 | 3 and 5 trips are "3-5", 6 is "> 5"; 4,000,000 is ">= $4M"; 5000 and 8000 km are "5k-8k"; 7 idle days are not flagged and 8 are |
| Categorizer.BandsMonotone | main.py:130-132 | a larger value never falls into a lower band |
| Categorizer.ColoursFollowBands | main.py:130-162 | the trips and revenue styles colour exactly their chart bands; the distance style leaves exactly the 5k-8k band plain; inactivity is red exactly above 7 days |
| Categorizer.LabelsDistinct | main.py:130-143 | `TripsLabel`, `RevenueLabel` and `DistanceLabel` give different bands different chart labels |
| Dashboard.CleanedLayout | main.py:95-107 | every column the aggregation reads is found in a processed table, and every row of it has a date |
| Dashboard.Run | main.py:80-132 | the view is an error exactly when processing fails, and that error is the processing outcome; after a successful run, "no data" is shown exactly when no row of the processed table is in the selection; a shown summary is the aggregation of the processed table, with the bands and styles of each of its units |
| Dashboard.NoDatesNoData | main.py:65-98 | a report that passes validation and in which no date parses shows "no data" for every selection |
| Dashboard.ShownSummary | main.py:95-120 | a shown summary has distinct units with inactivity at least 0; when every selected row has a unit, one unit has zero inactivity and the revenues add up to the selection total |

## Left out

- `check_password`, `st.session_state` and `st.secrets` (main.py:6-27): session state and a secret comparison.
- Streamlit widgets, headings, metrics, charts, warnings and table rendering: presentation only.
- `pd.read_excel` decoding and the Excel export: file I/O and a foreign library. The model starts from the decoded header row and cells.
- `@st.cache_data`: a framework cache. It does not change what `process_data` returns.
- Day-first date parsing, numeric parsing and year-month formatting: these are pandas internals, modelled as the abstract `Parser.Coercions`.
- Parser.ParseDateColumn: each cell is parsed on its own. pandas 2.x (needed for `Styler.map` at line 153) infers one date format from the first non-missing string of the column, and with `errors='coerce'` strings of another format become NaT. So whether line 66 drops a row can depend on other rows' cells, which the model does not capture.
- Time of day in dates: a date is a whole day number. With a time of day, `.dt.days` of line 111 rounds down.
- Floating point: revenue and distance are exact reals. Number formatting and the revenue mean of lines 120-123 and 150 are display only.
- The CSS strings of the stylers: each rule is modelled by the colour it selects.
- The `"error" in processing_result` test of line 83: the outcome datatype replaces it.
- The header renaming of line 114 and the `*_Cat` column assignments: the summary fields and the band functions carry the same values.
- Aggregator.Units: pandas sorts the group keys. The model keeps each unit once, ordered by its last appearance in the selection. Summary row order is not modelled.
- Duplicate headers: pandas renames them on reading. The model looks up the first column with a given name.
- A unit column that is also an aggregated column, such as "Viaje" right of "Tractor": pandas' behaviour there is not modelled. The model reads the column as key and values alike.
- `Parser.Critical`: only the failed lookup right of "Tractor" is modelled. Other exceptions pandas might raise inside the `try` of line 44 are not, and neither is the text of the message.
- Dashboard.Run: the sidebar's `sorted(df["Unidad de negocios"].unique())` at line 91 runs outside the `try` of `process_data`. It raises a `TypeError` when the processed business-unit column mixes text with a missing cell (such as "Norte" and a blank), or text with numbers or dates. The page then stops with a traceback before line 95. The model does not capture this: on such a table it still returns "no data" or a summary.
- `Categorizer.TripsBandOf` takes any integer. Every trip count the aggregation produces is a natural number.
