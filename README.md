# 1brc aggregation: a Dafny model

This project models the single-threaded "one billion row challenge" program
of the repository (`main.go`). The program reads a file of
`city;temperature` lines. It keeps a map from city to a running
Measurement (count, sum, minimum, maximum). It then prints
`{city=min/avg/max city=min/avg/max ...}` with the cities in ascending
string order.

The model has seven modules, one per part of `main.go`, and a module `Wrappers` (wrappers.dfy) with the shared `Option` and `Result` types:

- `Measurements` (measurements.dfy) covers the Measurement record, `NewMeasurement` and `MergeMeasurement`.
- `Lines` (lines.dfy) covers `ParseLine`: `strings.SplitN(line, ";", 2)`, the search for a character that it rests on, and the call to the number parser.
- `Aggregation` (aggregation.dfy) covers the `for sc.Scan()` loop that fills the map. Its specification is `Summarize`, a fold of `Update` over the parsed lines. Reference definitions (`Cities`, `ValuesOf`, `SeqMin`, `SeqMax`, `SeqSum`) are proved to agree with it.
- `Keys` (keys.dfy) covers collecting the map's keys, Go's string order, and an in-place sort of the key array.
- `Decimal` (decimal.dfy) and `Report` (report.dfy) cover the output loop and the `%.1f` text of the minimum and the maximum.
- `Program` (program.dfy) composes the whole of `main`.

Modelling choices:

- A temperature is an integer number of tenths. The input has one fractional digit, and the minimum and maximum depend only on order.
- `strconv.ParseFloat` is a library routine. It is a parameter `parse: string -> Option<int>` of the model, where `None` means ParseFloat returned an error (the source then panics).
- `Decimal.ParseTenths` is one concrete parser for the input's own number format `-?[0-9]+(\.[0-9])?`.
- The average text, Go's `%.1f` formatting of the float64 quotient `Sum/float64(Total)`, is a parameter `avg`; nothing about it is constrained.
- The input file is the sequence of its lines.
- A panic is the `Err` outcome of `Run`. The source prints no part of the report in that case, because every panic happens before the first print.

Behaviour of `main.go` the model keeps as written:

- A blank line, or any line without `;`, makes the program panic; no line is skipped. A number ParseFloat rejects panics as well.
- The braces and the separating spaces are written with Go's builtin `print`, which goes to standard error; the entries go to standard output (see Findings).

## Model

| member | source | states |
|---|---|---|
| `Measurements.NewMeasurement` | main.go:19-21 | one observation: count 1 and sum v; on every finite v the clamped min and max are v itself; the result always has min <= max |
| `Measurements.MergeMeasurement` | main.go:32-38 | count +1, sum +v, new min is the smaller of the old min and v, new max the larger; preserves count >= 1 and min <= max |
| `Measurements.MergeCommutes` | main.go:32-38 | folding two observations in either order gives the same Total, Min and Max (and, in the model's exact arithmetic, the same Sum) |
| `Lines.FirstIndex` | main.go:24 | the position of the first occurrence of a character (the `;` SplitN looks for), or -1 exactly when there is none; no occurrence before it |
| `Lines.SplitOnce` | main.go:24 | SplitN(s, ";", 2): one piece (the line) exactly when there is no `;`; otherwise a `;`-free head and a tail with head + ";" + tail == s |
| `Lines.ParseLine` | main.go:23-30 | fails with MissingSeparator exactly when the line has no `;`, and with BadNumber exactly when the parser rejects the text after the first `;`; on success the city is the `;`-free text before the first `;` and the value is the parse of everything after it |
| `Lines.ParseLineJoin` | main.go:23-30 | the converse of ParseLine: a `;`-free city, `;` and any accepted text (which may hold further `;`) parse back to that city and value |
| `Aggregation.Summarize` | main.go:47-57 | the map after the loop has seen the records in order, a fold of Update; every entry has count >= 1 and min <= max |
| `Aggregation.ParseAll` | main.go:49-51 | success gives one record per line, each ParseLine's result; failure names the first rejected line, with every earlier line accepted |
| `Aggregation.Update` | main.go:52-56 | one iteration: the current city's entry is created by NewMeasurement or merged by MergeMeasurement; the key set grows by that city only; every other entry is unchanged |
| `Aggregation.AggregateLines` | main.go:47-57 | the loop: on the first rejected line the run fails with that line and reason; otherwise the final map is the fold Summarize of all parsed lines |
| `Aggregation.SummarizeKeys` | main.go:47-57 | the map has a key exactly for each city that occurs in the input |
| `Aggregation.SummarizeEntry` | main.go:47-57 | each entry's Total is the number of lines of that city and Sum the sum of its values; when all values are finite, Min and Max are the least and greatest of its values |
| `Aggregation.ExtremaObserved` | main.go:47-57 | when all values are finite, every value of a city lies between its Min and Max, and both Min and Max are values observed for that city |
| `Keys.LessIsFirstDifference` | main.go:60 | `Keys.Less`, Go's string `<` used by slices.Sort, holds exactly when after a common prefix `a` ends while `b` goes on, or `a`'s first differing character is smaller |
| `Keys.LessIrreflexive` | main.go:60 | Go's string order is irreflexive |
| `Keys.LessTransitive` | main.go:60 | Go's string order is transitive |
| `Keys.LessTotal` | main.go:60 | any two different strings are ordered one way or the other |
| `Keys.CollectKeys` | main.go:59 | slices.Collect(maps.Keys(data)): each key of the map exactly once, and nothing else |
| `Keys.SortKeys` | main.go:60 | slices.Sort in place: the array ends sorted and is a permutation of its old contents |
| `Keys.SortedPermutationIsAscending` | main.go:59-60 | sorting the duplicate-free key list gives a strictly ascending list of exactly the map's keys |
| `Keys.AscendingUnique` | main.go:59-60 | only one strictly ascending list holds a given set of keys |
| `Decimal.FormatTenths` | main.go:65 | `%.1f` of a value in tenths: a `-` exactly for negative values, then digits, `.` and one digit |
| `Decimal.FormatTenthsRoundTrip` | main.go:65 | the `%.1f` text of a minimum or maximum reads back, in the input's number format, as that value |
| `Decimal.FormatTenthsInjective` | main.go:65 | different values never print alike |
| `Report.ReportUsesStoredEntries` | main.go:64 | every key of the report is in the map, so `data[key]` (`Report.Lookup`, Go's map index with its zero value) gives the stored entry to every printed entry; for a map of Valid entries no printed entry is the zero Measurement |
| `Report.EntryReadsBack` | main.go:65 | `Report.Entry`, the `%s=%.1f/%.1f/%.1f` text of one key, reads back: the text before the first `=` is the key (for a key without `=`), the text up to the next `/` parses as the minimum, and the text after the last `/` as the maximum |
| `Report.JoinSpacesLength` | main.go:63-69 | a join of n entries is n - 1 characters longer than their concatenation (that each separator is one space is `Report.JoinSpacesSplit`) |
| `Report.JoinSpacesSplit` | main.go:63-69 | at every boundary between consecutive entries there is exactly one space |
| `Report.ReportLength` | main.go:62-70 | an empty map prints `{}` and a newline; with n entries the text is n - 1 characters longer than the entries plus the braces and the newline |
| `Report.Render` | main.go:62-70 | the output loop on one stream: `{`, the entries in key order joined by single spaces with none after the last, then `}` and a newline |
| `Report.RenderAsWritten` | main.go:62-70 | the output loop as written, as the sequence of writes to standard output (fmt.Printf) and standard error (builtin print) |
| `Report.AsWrittenStreams` | main.go:62-70 | in emission order those writes spell the report, but standard output gets only the entries run together, and standard error gets `{`, the n - 1 spaces and `}` with a newline |
| `Report.AsWrittenStdoutIsNotTheReport` | main.go:62-70 | for every input, standard output as written differs from the report |
| `Program.PrintSummary` | main.go:59-70 | the printed text is the report of the map for a strictly ascending list of exactly its keys |
| `Program.Run` | main.go:40-71 | a rejected line makes the run fail with that line, before any part of the report is printed; otherwise the output is the report of the aggregated map in ascending key order |
| `Program.ReportDeterministic` | main.go:59-70 | the report depends on the map alone, not on the order in which the map hands out its keys |
| `Program.WorkedNumbers` | main.go:25 | `12.3`, `7.8` and `-2.0` read as 123, 78 and -20 tenths |
| `Program.WorkedSummary` | main.go:47-57 | the lines Paris 12.3, Paris 7.8, Oslo -2.0 give the map Paris (sum 201, min 78, max 123, count 2) and Oslo (-20, -20, -20, 1) |

## Left out

- File opening and the line scanner: `os.Open` and `bufio.Scanner` (main.go:41-50). The input is a sequence of lines. The scanner's 64 KiB line limit and the unchecked `sc.Err()` (the loop silently ends at an over-long line) are not modelled.
- `strconv.ParseFloat` (main.go:25) is a library call. It is the parameter `parse`. Only the input format's own numbers have a concrete reader (`Decimal.ParseTenths`). Exponents, hexadecimal floats and more than one fractional digit are outside the model.
- Float64 arithmetic. Values are exact integers in tenths, so the sum is exact and has no float64 rounding. Negative zero, infinities and NaN are not modelled. An integer beyond ±MaxFloat64 is where NewMeasurement's clamp acts, as in the source.
- The average `Sum/float64(Total)` and its `%.1f` rounding (main.go:65) are the parameter `avg`. No rounding behaviour is proved.
- `%.1f` of the minimum and maximum is modelled as the exact tenths text (`Decimal.FormatTenths`). The source prints the float64 nearest to value/10 rounded to one decimal. That gives the same text while the value has few enough digits, except for negative zero: an input `-0.0` is kept by ParseFloat, `min` and `max`, and `%.1f` prints it as `-0.0`, while the model's value 0 prints as `0.0`.
- `Aggregation.SummarizeEntry`: Min and Max are stated for all-finite inputs only. For an infinite value the source's clamp in NewMeasurement makes the first Min or Max a clamped copy.
- `Measurements.MergeCommutes`: the Sum part holds only because the model's sum is an exact integer; the source's float64 `+=` of Sum can round differently in the two orders.
- `Program.PrintSummary`: returns the corrected single-stream report produced by `Report.Render`. Which stream each piece reaches, as main.go:62-70 is written, is modelled by `Report.RenderAsWritten` and `Report.AsWrittenStreams` and not in this member's contract.
- The panic itself: an unrecovered Go panic writes `panic: ...` and a goroutine trace to standard error and exits with status 2. The model's `Err` outcome records only which line failed and why.
- `Program.Run`: its output is the corrected single-stream report, not the source's split of the text between standard output and standard error (see Findings).
- `Total` is a Go `int` (64-bit). Its overflow needs more than 2^63 lines and is not modelled.
- `slices.Sort` is a library call. `Keys.SortKeys` is an insertion sort with the same contract (sorted, permutation), not Go's pattern-defeating quicksort.
- Go compares strings by UTF-8 bytes; the model compares characters. The two orders agree on well-formed UTF-8, and malformed bytes are not modelled.
- The benchmark file main_test.go calls a `run` function that `main.go` does not define. It has no behaviour to model.

## Findings

| source | as written | input that shows it | evidently intended | confidence | as-written member | corrected member |
|---|---|---|---|---|---|---|
| main.go:62-70 | `{`, the separating spaces and `}\n` use Go's builtin `print`, which writes to standard error; only the entries (fmt.Printf) reach standard output | any input, e.g. no lines: standard output is empty instead of `{}\n`; one city A: standard output is `A=1.0/1.0/1.0` with no braces | the whole report on standard output, as one line | high (not executed) | `Report.AsWrittenStdoutIsNotTheReport` | `Report.Render` |

On a terminal both streams show in the same window, so the report looks right there. It is wrong once standard output is redirected or piped.
