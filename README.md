# Service-cost calculator: a verified model of its cost engine

`app.py` is a Streamlit page that prices a service agreement for a tractor
model. It reads the model's service sheet, a semicolon-separated Latin-1 export
with one row per part, fluid or other item and one column per maintenance
interval ("500 timer", "1000 timer", ...). The user picks an interval as the
end point of the agreement. The page then adds up what every earlier interval
costs and divides the total by the operating hours to get a fixed price per
hour.

This project models that engine in Dafny and proves what it promises:

- `text.dfy` (module `Text`): cells and the Python string primitives the engine
  uses. Those are `isdigit`, `lower`, `strip` and substring tests, taken over
  Latin-1, the encoding the sheets are read with.
- `numbers.dfy` (`Numbers`): the number cleaner `rens_tal`. It keeps digits,
  `,` and `.`, turns `,` into `.`, and parses the result as `float()` does,
  with 0 as the fallback. It also models `int()` on the digits of an interval
  label.
- `sheet.dfy` (`Sheet`): the header-row scan, the second read with that row as
  header, trimmed column names and cell lookup.
- `intervals.dfy` (`Intervals`): the interval columns, the cutoff read from the
  chosen label, and the history of intervals strictly below it.
- `sections.dfy` (`Sections`): for each interval, how the active rows split
  into parts, fluids and miscellaneous items. The split uses the "Væsker"
  marker row and the miscellaneous keywords.
- `costs.dfy` (`Costs`): the prices of each section, the miscellaneous-items
  list `div_list` with its fixed surcharge, the labour hours, and the loop that
  accumulates `t_res`, `t_fluid`, `t_div` and `t_arb`.
- `calculator.dfy` (`Calculator`): one whole calculation, with every way the
  script stops with an exception.
- `examples.dfy` (`Examples`): worked cells for `rens_tal`.
- `wrappers.dfy` (`Wrappers`): `Option` and `Result`.

Some behaviours of the code that a reader may not expect:

- The code has no thousands-separator rule. `"1.250,50"` becomes `"1.250.50"`,
  which reads as 0, and `"1.250"` reads as 1.25.
- A miscellaneous item counts its column-H price once. Its quantity is not
  multiplied in.
- The header row and the interval columns are both recognised by the Danish
  word "timer", in any letter case.
- The history holds only the intervals strictly below the chosen one; the
  chosen interval itself is never costed.
- The sections are found by keywords in the description column: "Væsker",
  "Arbejd" and the four miscellaneous keywords. The "Arbejd" row supplies the
  standard hours but is not removed from the section it falls in.
- When the chosen interval is the smallest, the history is empty. The script
  then fails at `st.columns(0)` before any cost is shown; no cost of 0 is
  reported.

Python's `float` is modelled by `real`. Cells are `NA` (a missing value) or
text. A numeric cell is taken in the text form `str()` gives it.

## Model

| member | source | states |
|---|---|---|
| Numbers.Clean | app.py:20-25 | rens_tal never fails and never returns a negative number, whatever the cell holds |
| Numbers.CleanOfMissing | app.py:21 | a missing cell (pd.isna) reads as 0.0 |
| Numbers.KeepNumeric | app.py:22 | every character the filter keeps is an isdigit character, `,` or `.` |
| Numbers.KeepNumericKeepsExactly | app.py:22 | a character survives the filter iff it occurs in the cell and is an isdigit character, `,` or `.` |
| Numbers.CommaToDot | app.py:23 | every `,` becomes `.`, and nothing else changes |
| Numbers.ParseFloat | app.py:24 | float() of a text of digits and points, when it does not raise, is never negative |
| Numbers.CleanOfManySeparators | app.py:22-25 | two or more separators among `,` and `.` read as 0.0 |
| Numbers.CleanWithoutDigits | app.py:22-25 | text without any digit reads as 0.0 |
| Numbers.CleanIgnoresOtherCharacters | app.py:22 | inserting a character other than a digit, `,` or `.` anywhere does not change the value |
| Numbers.CleanReadsWholeNumber | app.py:22-24 | the decimal text of any natural number n reads back as exactly n |
| Numbers.CleanReadsDecimal | app.py:22-24 | digits, one `,` or `.`, then digits f read as n + f / 10^len(f) |
| Numbers.ParseIntOfNatText | app.py:79 | int() reads the digits of a number back exactly |
| Numbers.DigitsOf | app.py:79 | the digit filter keeps only isdigit characters, superscripts included |
| Numbers.DigitsOfKeepsExactly | app.py:79 | a character survives the digit filter iff it is an isdigit character of the label |
| Numbers.DigitsOfConcat | app.py:79 | the filter works piece by piece, so the label's digits are kept in their order |
| Numbers.DigitsOfPlainText | app.py:79 | text without isdigit characters contributes nothing, and a run of ASCII digits is kept whole |
| Intervals.HourCountOfLabel | app.py:79-80 | a label made of digit-free text around the numeral of n, such as "500 timer", has hour count n |
| Examples.HourCountExample | app.py:79 | "500 timer" reads as 500 hours |
| Examples.CommaDecimalExample | app.py:20-25 | "450,00" reads as 450 |
| Examples.ThousandsSeparatorExample | app.py:20-25 | "1.250,50" reads as 0 |
| Examples.LonePointExample | app.py:20-25 | "1.250" reads as 1.25 |
| Examples.SignDroppedExample | app.py:20-25 | "-75" reads as 75: the sign is dropped |
| Examples.NoDigitsExample | app.py:20-25 | "Se note" reads as 0 |
| Sheet.FindHeaderRow | app.py:62-66 | the header index is the smallest row with a cell containing "timer" in any letter case, and 0 when no row has one |
| Sheet.Reframe | app.py:68 | column j is named by row h's cell j, or "Unnamed: j" when that cell is missing, and the rows after row h are the data |
| Sheet.Columns | app.py:69 | there is one trimmed name per header cell, in order |
| Sheet.ColumnNameIsTrimmed | app.py:69 | each column name is a slice of its header cell; everything cut off is whitespace, and the name is empty or starts and ends with a non-space |
| Text.StripDrops | app.py:69 | str.strip() removes exactly the leading and trailing whitespace and nothing else: the result is a slice whose first and last characters are not whitespace |
| Sheet.ColumnIndex | app.py:107 | a column is looked up by name, at its first position |
| Text.ContainsAfterStrip | app.py:69 | stripping whitespace from a name never removes an occurrence of a word that has no whitespace |
| Intervals.HeaderRowNamesAnInterval | app.py:62-75 | the header row the scan finds yields at least one interval column |
| Intervals.IntervalColumns | app.py:75 | the interval columns are the names containing "timer" once lower-cased, in sheet order (iff, and a subsequence) |
| Intervals.History | app.py:80 | hist_int keeps, in order, exactly the interval columns whose hour count is strictly below the cutoff; a label without digits fails the whole list |
| Intervals.SelectHistory | app.py:79-80 | the cutoff is the chosen label's hour count; the chosen interval is never in the history; every member is an interval below the cutoff; an error happens exactly when a label has no readable digits; the history is History of the interval columns at that cutoff, so every interval below the cutoff is in it |
| Intervals.HistoryOfAscending | app.py:80 | with ascending hour counts, the history of the k-th interval is exactly the intervals before it |
| Sections.FirstMention | app.py:101-102 | v_s is the first row whose description contains "Væsker" in any letter case |
| Sections.SectionRows | app.py:107-125 | each section is exactly its set of rows, in increasing order: active rows split by div_mask, below v_s for parts, above v_s and with a non-blank description for fluids |
| Sections.SectionsPartitionActiveRows | app.py:107-125 | parts, fluids and misc share no row, hold only active rows, and the marker row is in neither parts nor fluids |
| Sections.SectionSizesBelow | app.py:107-125 | the three sections together hold at most as many rows as are active |
| Sections.NoMarkerMeansNoFluids | app.py:101-125 | on a sheet of at most 9999 data rows without a "Væsker" row (v_s = 9999) there are no fluids, and a row is a part iff it is active and not misc |
| Costs.PartsCostIsMarkedUp | app.py:144 | c_res is (1 + avance/100) times the plain price × quantity sum |
| Costs.IntervalCostBounds | app.py:144-146 | c_res and c_fluid are non-negative and c_div is at least the 500 surcharge |
| Costs.MiscList | app.py:132-140 | div_list has one entry per misc row, in order, with the cleaned column-H price, followed by exactly one fixed 500 entry |
| Costs.ItemsTotalOfMiscList | app.py:140-146 | the sum over div_list is the column-H prices of the misc rows, quantities ignored, plus exactly one 500 |
| Costs.StandardHours | app.py:89-93 | std_t is rens_tal of the interval's cell in the first row mentioning "Arbejd", and 0 when no row does; never negative |
| Costs.LaborHours | app.py:90-95 | bruger_timer has exactly the history's intervals as keys, each holding the typed hours or else the default |
| Costs.Aggregate | app.py:104-151 | the four accumulators equal the sums over the history of c_res, c_fluid, c_div and hours × rate; with an empty history all stay 0 |
| Costs.SumOfScaledSums | app.py:144-148 | multiplying every line by one factor multiplies the total over all intervals by it |
| Costs.PartsTotalIsMarkedUp | app.py:144-148 | t_res is (1 + avance/100) times the price × quantity total of the history's parts |
| Costs.MiscTotalAtLeastSurcharges | app.py:140-150 | each interval adds exactly one 500, so t_div is at least 500 × the number of intervals |
| Costs.SubtotalsNonNegative | app.py:144-151 | with markup, hours and rate non-negative, no subtotal is negative |
| Costs.CostPerHour | app.py:154 | cph × cutoff is the total when the cutoff is positive, and cph is 0 when the cutoff is 0 |
| Calculator.MissingColumnOf | app.py:137-145 | a KeyError arises iff 'Antal' or the price-list column is missing; when both are missing (and the price list is not 'Antal' itself), 'Antal' is reported iff the first interval has misc rows, otherwise the price list |
| Calculator.Summary | app.py:153-154 | total_omk is the sum of the four subtotals and cph spreads it over the cutoff |
| Calculator.Price | app.py:87-154 | a non-empty history either fails on the first missing column or gives hours, subtotals and totals as above, with t_div at least 500 per interval |
| Calculator.Calculate | app.py:72-154 | fewer than eight columns fail; no interval column shows nothing; an unreadable label fails; an empty history fails; a missing 'Antal' or price-list column fails with exactly the column the first interval's lookups raise on (as MissingColumnOf decides); otherwise the report is the history's costs, with total = sum of subtotals and cph × cutoff = total |

## Left out

- The Streamlit page is not modelled: sidebar widgets, tabs, expanders, tables, metrics, the logo and the HTML contract. The widget values are inputs: the price list, markup, hourly rate, chosen interval and typed hours.
- File access is not modelled: listing the sheet folder and both `read_csv` calls. The model starts from the raw rows (`FindHeaderRow`) and from the table re-read with the header row (`Reframe`).
- `read_csv` details are not modelled: dtype inference, blank-line skipping, `.1` suffixes on duplicate column names, and rows longer than the header. A short row's missing cells read as missing values.
- Duplicate column names after trimming are not modelled. In pandas, `df[name]` then returns several columns and the calculation behaves differently.
- A description column with no text at all is not modelled. pandas gives it a numeric dtype, and `.str.contains` raises AttributeError.
- Floating-point rounding, overflow to infinity and the `,.2f` display are not modelled; amounts are `real`.
- Characters outside Latin-1 are not modelled. Every cell is decoded as Latin-1, and `isdigit`, `lower`, `strip` and case-insensitive matching are modelled on that range only.
- Costs.SubtotalsNonNegative: requires the typed hours and the hourly rate to be non-negative. Neither the hours inputs (app.py:95) nor `timepris` (app.py:49) has a lower bound, so a negative entry can make `t_arb` negative.
- Sections.NoMarkerMeansNoFluids: stated for sheets of at most 9999 data rows. On a longer sheet without a marker, the rows after index 9999 that pass the fluid tests are fluids, and row 9999 is in neither parts nor fluids; `Sections.SectionRows` still gives every section exactly.
- The catch-all `except` is modelled only as the `Failed` outcome. Its error text is not modelled.
- `service_ark/app.py` is not part of this model. It maps model names to file names and displays them, with no computation.
