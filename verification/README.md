# Housing-price index and COVID-19 case-rate loader, in Dafny

This project models the data-preparation core of a small dashboard that puts two Canadian
data sets on one map:

- daily COVID-19 case rates per 100k population, by province;
- the monthly New Housing Price Index (NHPI), by province.

The dashboard's `load_data` turns the two files into one flat list of records keyed by
(province code, date). The model covers four parts of it:

- **Date conversion** (`convert_day`). Three encodings are accepted: `M/D/Y`, `Y-M` (day 1)
  and `Y-M-D`. The display string `string_date` is the key components joined by `-`, with no
  zero padding. The model includes the Python string built-ins these rely on: `str.split`,
  `'-'.join`, `int()` and `str()`.
- **The two-phase merge.**
  - Phase 1: case-rate rows write `[total, active, 0]` at their key. The last row for a key
    wins.
  - Phase 2: every "House only" price row is spread over each day of its month in the
    month-length table. An existing record gets only its price slot replaced. A missing day
    gets a new record `[0, 0, value]`.
- **Flattening.** The nested store becomes one record per key. Provinces come in the order
  they were first inserted, and within a province the dates come in insertion order.
- **The calendar tables.** This covers the month-length table, which has no leap day, the
  cumulative month marks of the day slider, and the callback loop that turns a day-of-year
  slider value back into a (month, day) pair.

Modules, in dependency order:

- `Results`: `Option` and `Result`.
- `Sequences`: the first position of an element in a sequence.
- `PyText`: split, join, `int()` and `str()`.
- `Dates`: `ConvertDay` and `StringDate`.
- `Calendar`: the month tables, the slider marks and the day-of-year loop.
- `OrderedMaps`: a dict that remembers insertion order.
- `Provinces`: the 13-entry province table.
- `Records`: the row, record and store types.
- `CaseRates`: phase 1.
- `HousePrices`: phase 2.
- `Flatten`: the flattening pass.
- `Loader`: the whole pipeline and its end-to-end properties.

The store is a nested insertion-ordered map from province code to an insertion-ordered map from
date to `Rec(total, active, hpi)`. It is nested because that is how the code holds it, and a
single flat key sequence could not reproduce the grouped order the flattener emits.

Every Python exception that aborts a load is a `Failure` value. The error reported is the one
Python would raise first, because the model evaluates in Python's order:

- Phase 1 reads both floats, then converts the date.
- Phase 2 reads the value, converts the date, looks up the month length, then looks up the
  province's table.

Where the code's behaviour is easy to misread, the model follows the code:

- The flattener iterates the store's provinces in insertion order. That is the order in which
  each province first appears in the case-rate file, not the order of the province table.
- `convert_day` ignores pieces beyond the third instead of rejecting them.
- A price row for a province with no case-rate rows raises `KeyError`. The model reports this
  as `NoCaseRates`; it does not create the province.
- An empty rate cell in the case-rate file is a `ValueError` (`float('')`). Only price rows
  treat an empty cell as 0.

The table's leap-day gap is kept and stated as a property: no price row ever reaches
February 29 (`HousePrices.LeapDayNeverPriced`).

## Model

| member | source | states |
|---|---|---|
| PyText.JoinSplit | main.py:47-50 | joining the pieces of `s.split(sep)` with `sep` gives back `s`, and no piece contains the separator |
| PyText.SplitJoin | main.py:47-50 | splitting the join of one or more separator-free pieces gives back exactly those pieces (the inverse direction of `JoinSplit`) |
| PyText.ParseIntToString | main.py:105 | `int(str(n)) == n` for every integer `n` |
| PyText.IntToStringAlphabet | main.py:105 | the text of an integer contains no non-digit character except the leading `-` of a negative number, so it never contains `/`, and contains `-` only when negative |
| Dates.ConvertDaySlash | main.py:46-48 | a text with `/` converts exactly when it has at least three pieces and the first three are integer literals; the result is (piece 2, piece 0, piece 1), and fewer than three pieces is a missing component |
| Dates.ConvertDayDash | main.py:49-52 | a text without `/` converts exactly when it has two integer pieces, plus an integer third piece when there are more than two; two pieces give day 1; a single piece fails as missing component or as not an integer, in Python's order |
| Dates.StringDateRoundTrip | main.py:105 | for non-negative components, converting the display string of a date gives back the same date key |
| Dates.SlashDateRoundTrip | main.py:46-48 | a `M/D/Y` text written from any three integers converts back to `(Y, M, D)` |
| Dates.MonthOnlyIsFirstDay | main.py:49-51 | a `Y-M` text converts to day 1 of that month |
| Dates.ExampleMonthOnly | main.py:36-37 | `'2018-05'` converts to `(2018, 5, 1)` |
| Dates.ExampleFullDate | main.py:39-40 | `'2003-05-17'` converts to `(2003, 5, 17)` |
| Dates.ExampleSlashDate | main.py:42-43 | `'1/31/2020'` converts to `(2020, 1, 31)` |
| Dates.ExampleStringDate | main.py:105 | the display string of 2020-03-15 is `2020-3-15`, without zero padding |
| Calendar.MonthDays | main.py:132-133 | the table has a length exactly for months 1..12 (a `KeyError` elsewhere), and every length is 28..31 |
| Calendar.YearLength | main.py:132-133 | the month lengths add up to a 365-day year |
| Calendar.DayOfYearInjective | main.py:215-218 | two valid (month, day) pairs with the same day of year are equal, so the loop's answer is the only one |
| Calendar.SliderMarks | main.py:136-140 | the marks sit exactly at the twelve running totals of month lengths, each labelled with the month it ends, and the last one is `Dec` at 365 |
| Calendar.MonthAndDay | main.py:215-218 | for a slider value in 1..365 the loop ends at a valid month and a day within that month's length, and the days of the earlier months plus that day equal the value; above 365 it runs off the table (`KeyError`); below 1 the value is returned as a day of January |
| OrderedMaps.Put | main.py:72-74 | dict assignment: the key maps to the new value, every other key is unchanged, an existing key keeps its place, and a new key is appended to the iteration order |
| Provinces.CodeLeadsBackToName | main.py:122-124 | every known province name has a code in 1..13, and that code names the same province |
| Provinces.NameLeadsBackToCode | main.py:264-267 | the name the reverse lookup finds for a code of the table has that code, so reading the table either way gives back what was looked up |
| Provinces.CodesAreOneToThirteen | main.py:122-124 | a code names a province exactly when it lies in 1..13 |
| Provinces.CodesAreDistinct | main.py:122-124 | no two provinces share a code |
| Provinces.AggregatesAreNotProvinces | main.py:70-71 | the national aggregate and the repatriated-travellers rows are not provinces and are filtered out |
| CaseRates.CaseStep | main.py:71-74 | a row for an unknown region changes nothing; a retained row fails exactly when a rate or its date cannot be read; otherwise its own key gets `[total, active, 0]`, every other key is unchanged, and a new province is appended to the province order |
| CaseRates.CasesLastWriteWins | main.py:69-74 | after phase 1 every key holds the record of the last row for that key, and keys no row writes keep what they had |
| CaseRates.CasesSucceedIff | main.py:69-74 | phase 1 succeeds exactly when every retained row is readable; rows of unknown regions are never read |
| CaseRates.CasesProvinces | main.py:71-73 | existing provinces keep their places, and a province is in the store after phase 1 exactly when it was there before or some row is retained for it |
| CaseRates.CasesProvinceOrder | main.py:72-73 | the provinces phase 1 adds are ordered by the position of their first retained row |
| CaseRates.CaseStepDates | main.py:72-74 | one case-rate row leaves the date order of every other province alone and appends its date to its own province only when that date is new there |
| CaseRates.CasesDates | main.py:69-74 | after phase 1 each province lists its dates in the order in which the first row for each date was read, after the dates it already had |
| HousePrices.SetHpiHere | main.py:92-95 | one day of the broadcast gets the row's value, keeping its rates if the day had a record and zero rates otherwise; only a new day is appended to the date order |
| HousePrices.SetHpiElsewhere | main.py:92-95 | one day of the broadcast leaves every other date unchanged |
| HousePrices.BroadcastInside | main.py:90-95 | every day 1..n of the month ends with the row's value, keeps its rates if it had a record, and gets zero rates otherwise |
| HousePrices.BroadcastOutside | main.py:90-95 | dates outside days 1..n of the month are unchanged by the broadcast |
| HousePrices.NewDaysAscending | main.py:90-95 | the days the broadcast adds are exactly the days 1..n of the month that had no record, in increasing order of day |
| HousePrices.BroadcastKeys | main.py:90-95 | the broadcast keeps the existing date order and appends the month's new days in increasing order |
| HousePrices.PriceStep | main.py:83-95 | a row outside the province/"House only" filter changes nothing; a retained row fails exactly when its value or date cannot be read, its month has no length, or its province has no case-rate records; success keeps the provinces and their order |
| HousePrices.LoadPrices | main.py:82-95 | phase 2 never adds or reorders provinces |
| HousePrices.PriceStepEffect | main.py:84-95 | after one successful price row, each key it covers holds the row's value (an empty cell counts as 0), with its old rates or zero rates if it was new; every other key is unchanged |
| HousePrices.PricesLastWriteWins | main.py:82-95 | after phase 2 a key no row covers is unchanged, and a covered key holds the value of the last row covering it together with its phase-1 rates, or zero rates if it had none |
| HousePrices.PricesKeepRates | main.py:92-93 | phase 2 never changes a total or active rate of an existing record |
| HousePrices.PricesSucceedIff | main.py:82-95 | phase 2 succeeds exactly when every retained row is readable and its province already has case-rate records |
| HousePrices.PriceStepDates | main.py:90-95 | one price row leaves the date order of every other province alone and appends the missing days of its month, in increasing order, to its own province |
| HousePrices.PricesDates | main.py:82-95 | after phase 2 each province lists its earlier dates, then the missing days of each covering row's month in file order |
| HousePrices.LeapDayNeverPriced | main.py:132-133 | the month-length table has no February 29, so phase 2 leaves that day of every year and province as it was |
| Flatten.FlattenTable | main.py:100-109 | one output record per date of a province, in date order, with the province code, the date, its display string and slots 2, 0 and 1 as hpi, total and active |
| Flatten.FlattenFrom | main.py:98-109 | every output record comes from a stored record at its key, carries that record's slots, and has the display string of its date |
| Flatten.FlattenComplete | main.py:98-109 | every stored record has an output record |
| Flatten.FlattenOrder | main.py:99-100 | output records are grouped by province in the store's province order, and within a province follow the date insertion order |
| Flatten.FlattenOncePerKey | main.py:98-109 | no (province, date) key is emitted twice |
| Loader.StoreMatchesFiles | main.py:63-95 | after both phases each key holds the rates of its last case-rate row (zero if none) and the value of the last price row covering it (zero if none); keys neither file reaches are absent |
| Loader.LoadSucceedsIff | main.py:63-95 | the load succeeds exactly when every retained case-rate row is readable and every retained price row is readable and names a province that has case-rate rows |
| Loader.LoadDataSound | main.py:56-111 | every output record carries exactly the record the two files determine for its key, and its date's display string |
| Loader.LoadDataComplete | main.py:56-111 | every key that either file reaches has an output record |
| Loader.StoreDateOrder | main.py:69-95 | the final store lists each province's dates in the order of the first case-rate row for each date, followed by the days each retained price row adds, row by row and day by day |
| Loader.LoadDataOrder | main.py:69-100 | output provinces follow the order of their first case-rate row, and within one province the dates follow the order `StoreDateOrder` describes, each date once |
| Loader.ExampleStore | main.py:63-95 | a worked store: the aggregate row and the other-category row are dropped; Ontario is the only province; March 15 keeps its rates and gains the index; every other March day gets the index with zero rates; every other key, April included, is absent |
| Loader.ExampleLoad | main.py:63-109 | the worked load's data set: 31 Ontario records, first March 15 (displayed `2020-3-15`, with its rates and the index), then the other March days in increasing order with the index and zero rates |

## Left out

- File and CSV reading: opening the files, skipping headers and selecting columns. Rows are
  already decoded records (`CaseRow`, `PriceRow`) that hold only the columns the loader reads.
- Floating-point parsing and arithmetic. A numeric cell is `Blank`, `Num(real)` or
  `NotNumeric`, and `float()` either gives its value or fails. Python's `int` 0 and `float`
  0.0, both used as zero slots, are both modelled as the real 0.
- `int()` on text with surrounding whitespace, underscores or non-ASCII digits. Such text is
  treated as not an integer, though Python accepts it.
- The pandas DataFrame built from the output, and its filtering and sorting.
- The Dash/Plotly layout, figures, colour scales and callbacks. The only part kept is the
  day-of-year loop of the map callback.
- GeoJSON loading and the `possible_years` helper.
- The chart callback, except its reverse lookup from code to province name, which is
  `ProvinceName`. The loop keeps the last matching name and `ProvinceName` the first; codes are
  distinct (`TableIsOneToOne`), so they agree.
- Determinism of the load is not stated as a lemma. Every operation here is a mathematical
  function of its inputs, so two loads of the same rows are equal by construction.
- CaseRates.LoadCases: its contract carries only the well-formedness of the store. What it
  computes is stated by `CasesLastWriteWins`, `CasesSucceedIff` and `CasesProvinces`.
- Loader.LoadStore: its contract carries only the well-formedness of the store. What it
  computes is stated by `StoreMatchesFiles` and `LoadSucceedsIff`.
