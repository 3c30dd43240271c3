# Sentral timetable scraper, modelled in Dafny

The scraper reads a school's Sentral timetable page and produces one day of it.
It finds the column of the first candidate day the page shows, which is
"today" moved by each offset in turn. A second-week column drops the first 12
period rows and moves back by 5; a first-week column reads every period row,
the second week's included. It then reads one period per row from the cell in
that column.
It then compares the next day's periods with the previous day's by subject.

The model has these modules:

- `Timetable` (`timetable.dfy`): the `Period` and `TimetableDayData` records
  (`Period`, `Day`), `Period::none` (`NonePeriod`), and the parsed page. A
  `Document` holds the inner HTML of every `th.timetable-date`, and every `tr`
  as a `Row`: its `th.timetable-period` labels and its child nodes. An
  element child carries its classes and the text nodes of its first
  `div.timetable-class`. The two filter chains that build the header list and
  the period-row list are `DateHeaders` and `PeriodRows`.
- `Calendar` (`calendar.dfy`): proleptic Gregorian dates with unbounded years.
  It has `date + Duration::days(n)` (`AddDays`), chrono's weekday
  (`Weekday`) and its `Display` names (`WeekdayName`), and the `%d/%m/%Y`
  rendering (`Format`) with a parser that reads it back.
- `Text` (`text.dfy`): `str::trim` over Unicode White_Space, and `contains`.
- `Seqs` (`seqs.dfy`): an order-keeping `Filter` and a first-occurrence search.
- `Scraper` (`scraper.dfy`): `scrape_timetable`.
  - The specification is the function `Scrape`, built from `Locate` (the
    first offset shown and its header), `ReadDay` (the rebasing),
    `ExtractPeriods` (the rows in order), `ExtractRow`, `CellResult` and
    `ClassPeriod` (the four fields of a class block).
  - The procedure is the method `ScrapeTimetable`. It is built from
    `LocateColumn` (the labelled `'date_loop` with its `break`), `ReadRows`
    (the `drain(0..12)` rebasing), `ExtractRows` (the `'row_loop`) and
    `WalkRow` (the walk over one row's children).
  - Each method is proved equal to its specification function.
- `Diff` (`diff.dfy`): the two loops in `main` that collect `new_periods` and
  `old_periods`. They are `CollectUnmatched` and `CompareDays`, proved equal to
  the function `Unmatched`.
- `Scenarios` (`scenarios.dfy`): whole runs on a small two-week page.

A run ends in one of three ways:

- `Done(day)`: the day was produced.
- `DateNotFound`: the error `scrape_timetable` returns through `?`.
- `Panicked(reason)`: one of the three panics. They are `drain(0..12)` on fewer
  than 12 rows, `unwrap` on a missing `div.timetable-class`, and `unwrap` on a
  missing text node.

Facts about the code that a reader of it might not expect:

- **The day after, not today.** With today 2024-03-06 and offsets
  `[1, 2, 3]`, the code formats today + 1, "07/03/2024". On a page whose
  headers run `05/03/2024 … 16/03/2024` that is column 2, not the column of
  "06/03/2024" (`Scenarios.LocateWeekOne`). With today 2024-03-13 it finds
  "14/03/2024" at column 7, drops the first 12 rows and reads column 2
  (`Scenarios.LocateWeekTwo`, `Scenarios.ScrapeWeekTwo`).
- **Short rows are skipped.** A period row without a day cell at the column
  adds nothing to the day; it is not an error (`ExtractRow` is `Skip`).
  - A row cannot lack its label: rows without a `th.timetable-period` are
    filtered out first (main.rs:173), so the `unwrap` at main.rs:209 never
    fails.
  - A missing class block or text node is a panic (`unwrap`), not a
    returned error.
- **Field positions.** The code reads subject, class id, classroom and
  teacher at text nodes 2, 3, 6 and 8 of the class block (main.rs:225-228).
- **Only the second week is cut.** A second-week column drops the first 12
  period rows. A first-week column drops none, so on a two-week page it also
  reads the second week's rows at the same column: their classes end up in the
  first-week day (`Scenarios.FirstWeekReadsSecondWeek`).
- **"None" is a string.** `Period::none` always gives empty classroom, class
  id and teacher. A class block gives them only when those text nodes are
  blank (main.rs:226-228 trims them to ""). With subject text "None" it is
  then the placeholder itself (`Scenarios.BlankClassIsPlaceholder`). A class
  whose subject text is "None" but whose other nodes are not blank keeps its
  classroom and teacher (`Scenarios.SubjectTextNone`), yet the comparison
  treats it as a placeholder.
- **Placeholders in the comparison.** A placeholder is reported when the
  other day has no periods (see Findings).

## Model

| member | source | states |
|---|---|---|
| Timetable.NonePeriod | main.rs:25-33 | the placeholder has subject "None", empty classroom, class id and teacher, and keeps the slot's label |
| Timetable.DateHeadersAreDateCells | main.rs:174 | the header list holds exactly the date cells containing '/', each as often as on the page, in page order (it distributes over appending cells) |
| Timetable.PeriodRowsAreLabelled | main.rs:173 | the period rows are exactly the rows with a period label, in page order, so each has a first label to read |
| Text.TrimStartDrops | main.rs:225-228 | trimming the start removes a whitespace-only prefix and leaves a suffix that does not start with whitespace |
| Text.TrimEndDrops | main.rs:225-228 | trimming the end removes a whitespace-only suffix and leaves a prefix that does not end with whitespace |
| Text.TrimIsInnerSlice | main.rs:225-228 | a trimmed text is a slice of the original with only whitespace outside it, and it does not begin or end with whitespace |
| Text.TrimIdempotent | main.rs:209 | trimming twice is trimming once |
| Text.TrimFixed | main.rs:209 | a text that neither begins nor ends with whitespace is its own trim |
| Calendar.AddDays | main.rs:183 | adding days to a valid date gives a valid date |
| Calendar.NextPrevInverse | main.rs:183 | the day after and the day before undo each other |
| Calendar.DayNumberAdd | main.rs:183 | adding n days moves the day count from 0001-01-01 by exactly n |
| Calendar.AddDaysInjective | main.rs:183 | different offsets from the same day give different days |
| Calendar.WeekdayAfter | main.rs:190 | the weekday of today + n is today's weekday moved by n, modulo 7 |
| Calendar.ZeroPadExact | main.rs:184 | a number below 10^w is printed as exactly w decimal digits that read back as the number |
| Calendar.FormatHasSlash | main.rs:184 | every formatted date contains '/', so the header filter keeps any cell equal to a candidate |
| Calendar.ParseFormat | main.rs:184 | a date of a four-digit year, formatted as DD/MM/YYYY, parses back to the same date |
| Calendar.FormatInjective | main.rs:184 | two dates of four-digit years with the same text are the same date, so a header matches at most one candidate day |
| Scraper.LocateFrom | main.rs:180-194 | a hit found from offset k on names an offset at or after k and a header that exists |
| Scraper.LocateFromFirst | main.rs:180-194 | from offset k on, the search finds nothing exactly when no later candidate is shown, and otherwise returns the first shown candidate and the first header equal to it |
| Scraper.LocateFirst | main.rs:180-194 | offset priority: the chosen header equals the date of the first offset any header shows, no earlier offset is shown, no earlier header shows that date, and there is no match exactly when no offset's date is shown |
| Scraper.LocateColumn | main.rs:176-194 | the labelled date loop returns no column exactly when the search finds none, and otherwise the search's column, that header's text and the weekday name of the matched offset's day |
| Scraper.CandidateShownIffInDateCells | main.rs:174 | a candidate date is in the header list exactly when it is among the page's date cells |
| Scraper.ScrapeNotFound | main.rs:196 | the run returns the error exactly when no offset's date is among the page's date cells |
| Scraper.ScrapeDate | main.rs:186-190 | a produced day's date is a date cell equal to some offset's date, no earlier offset's date is on the page, and its weekday is computed from that offset |
| Scraper.ReadDayFirstWeek | main.rs:198-201 | a column up to 4 reads every period row at that column: the day is produced exactly when no row panics; every period comes from a row, and every row whose cell gives a period puts it in the day |
| Scraper.ReadDayDrainPanics | main.rs:197-198 | a column above 4 with fewer than 12 period rows panics in the drain |
| Scraper.ReadDayRebasing | main.rs:197-201 | a column above 4 with at least 12 rows reads rows 12 onward at the column minus 5: the day is produced exactly when none of those panics; every period comes from one of them, and each of them whose cell gives a period puts it in the day; for columns 5 to 9 the day is the one the rows after the first 12 give at the column minus 5, so their order is kept |
| Scraper.FirstWeekIgnored | main.rs:198-201 | for a column above 4, replacing the first 12 rows by any other 12 leaves the outcome unchanged: they are never read |
| Scraper.ExtractPeriodsMembership | main.rs:207-234 | the periods of rows read at one column are exactly theirs: each period comes from a row, and each row's period is among them |
| Scraper.ExtractPeriodsNoPanic | main.rs:207-234 | the row loop finishes exactly when no row's selected cell panics |
| Scraper.ExtractPeriodsSplitAt | main.rs:207-234 | every row is read in order: the result is the rows before row i, then row i's own contribution, then the rows after |
| Scraper.ClassPeriodTrimmed | main.rs:223-230 | subject, class id, classroom and teacher are text nodes 2, 3, 6 and 8 with whitespace, and only whitespace, cut from both ends |
| Scraper.CellResult | main.rs:218-230 | the selected cell never gives nothing; an inactive cell gives the placeholder; otherwise it panics exactly when there is no class block (`MissingClassBlock`) or at most 8 text nodes (`MissingTextNode`), and else gives subject, class id, classroom and teacher as text nodes 2, 3, 6 and 8 trimmed; an emitted period carries the row's label |
| Scraper.ExtractRow | main.rs:209-216 | a row gives nothing exactly when it has no day cell at the column, and an emitted period's number is the row's first label trimmed |
| Scraper.ExtractPeriods | main.rs:207-234 | the rows give at most one period each |
| Scraper.ExtractPeriodsSnoc | main.rs:207-208 | one more row adds that row's result after the others |
| Scraper.ExtractPeriodsAppend | main.rs:207-234 | reading two runs of rows is reading the first and then the second; the first panic wins |
| Scraper.ExtractPeriodsPrefixFails | main.rs:207-234 | a panic in the first n rows is the result of all rows: later rows are never read |
| Scraper.ExtractPeriodsFromRows | main.rs:207-234 | every extracted period is what some row's selected cell gives |
| Scraper.SelectedCell | main.rs:211-216 | the day cell reached after `column` earlier day cells is the one a row's result comes from |
| Scraper.TooFewCells | main.rs:211-216 | a row with at most `column` day cells gives nothing |
| Scraper.WalkRow | main.rs:211-233 | the walk over a row's children gives the row's specified result |
| Scraper.ExtractRows | main.rs:207-234 | the row loop returns the specified periods in row order, or the first row's panic |
| Scraper.ReadRows | main.rs:198-234 | the rebasing and row loop give the specified day or panic for the located column |
| Scraper.ScrapeTimetable | main.rs:166-237 | the whole procedure returns exactly the specified outcome: the day, the error or the panic |
| Diff.AnyCoversRule | main.rs:122 | `any` finds a match exactly when the other day has the subject, or the period is a placeholder and the other day has a period |
| Diff.UnmatchedCount | main.rs:120-124 | a period is reported as often as it occurs when the other day lacks its subject and, for a placeholder, has no periods; otherwise never |
| Diff.UnmatchedAppend | main.rs:120-124 | reports keep the day's order |
| Diff.UnmatchedSubjects | main.rs:118-131 | the reported subjects are the day's subjects minus the other day's and minus "None"; against an empty day they are all of the day's subjects |
| Diff.UnmatchedSelf | main.rs:118-131 | a day compared with itself reports nothing in either list |
| Diff.UnmatchedAgainstEmpty | main.rs:122 | against a day with no periods every period is reported, placeholders included |
| Diff.PlaceholderNotReported | main.rs:122 | against a day with a period, a placeholder is never reported |
| Diff.CollectUnmatched | main.rs:120-124 | the push loop, with `any` as an inner loop, collects exactly the unmatched periods in order |
| Diff.CompareDays | main.rs:118-131 | the new periods are the next day's unmatched against the previous day, and the old periods the reverse, so swapping the days swaps the lists |
| Diff.PlaceholderReportedAgainstEmpty | main.rs:122 | as written, a placeholder slot against an empty previous day is reported; the intended rule reports nothing |
| Diff.IntendedUnmatchedRule | main.rs:122 | the intended rule reports each real subject the other day lacks, never a placeholder, and equals the code whenever the other day has a period |
| Scenarios.TwoWeekHeadersFiltered | main.rs:174 | on the sample page only the day-name cell is dropped from the headers |
| Scenarios.ThursdaysOfMarch | main.rs:190 | 2024-03-07 and 2024-03-14 are Thursdays |
| Scenarios.DayAfterMarchSixth | main.rs:183-184 | the day after 2024-03-06 is "07/03/2024", a "Thu" |
| Scenarios.DayAfterMarchThirteenth | main.rs:183-184 | the day after 2024-03-13 is "14/03/2024", a "Thu" |
| Scenarios.LocateWeekOne | main.rs:180-194 | today 2024-03-06, offsets [1, 2, 3]: offset 1 matches at column 2 |
| Scenarios.LocateWeekTwo | main.rs:180-194 | today 2024-03-13, offsets [1, 2, 3]: offset 1 matches at column 7 |
| Scenarios.InactiveCellScenario | main.rs:218-220 | an inactive selected cell gives the placeholder with the row's label " 1 " trimmed to "1" |
| Scenarios.BlockTrims | main.rs:225-228 | the sample block's texts trim to their words |
| Scenarios.ClassCellScenario | main.rs:223-230 | a class block gives subject, class id, classroom and teacher from text nodes 2, 3, 6 and 8, trimmed |
| Scenarios.WeekOneRows | main.rs:173 | a row without a period label is not a period row |
| Scenarios.ReadWeekOne | main.rs:207-234 | two period rows read at column 2 give one period each, in row order |
| Scenarios.ScrapeWeekOne | main.rs:166-237 | the first-week run gives day "07/03/2024", "Thu", with the placeholder and the class |
| Scenarios.ReadWeekTwo | main.rs:198-201 | column 7 drops the first 12 rows and reads the rest at column 2 |
| Scenarios.ScrapeWeekTwo | main.rs:166-237 | the second-week run gives day "14/03/2024", "Thu", with only the second week's class |
| Scenarios.ScrapeWeekTwoTooFewRows | main.rs:199 | a second-week column on a page with 11 period rows panics in the drain |
| Scenarios.FirstWeekReadsSecondWeek | main.rs:197-201 | on a page with 12 first-week rows and one second-week row, column 2 drops nothing: the second week's class is in the first-week day |
| Scenarios.BlankClassIsPlaceholder | main.rs:218-230 | a class block with subject text "None" and blank class id, classroom and teacher nodes gives exactly the placeholder |
| Scenarios.SubjectTextNone | main.rs:225-230 | a class whose subject text is "None" has the placeholder's subject but is not a placeholder |

## Left out

- Logging in, the HTTP requests, the random session id and cookies (main.rs:50-107, 242-249): network and randomness.
- `scrape_daily_link` (main.rs:157-164): it reads an unrelated page for a link and feeds only the network requests.
- Console output and the wait for Enter (main.rs:110-116, 132-154): I/O. This includes skipping "None" subjects when printing.
- HTML parsing and CSS selectors. The `scraper` crate is not part of this model. The page is given already parsed, as the date cells' inner HTML, each row's period labels and each row's child nodes in document order.
- The wall clock: `Utc::today()` is the parameter `today`.
- chrono's year range (about ±262,000) and the panic when `today + offset` leaves it. Years are unbounded here.
- Scraper.WalkRow: it stops at the selected cell. The source keeps walking the row after a class cell, but no later child has the same index, so nothing else is pushed.
- Scraper.ExtractPeriods: the panics end the model's run with `Panicked`. In the source they unwind the program.
- The calls in `main` (main.rs:90-107): offsets `[1, 2, 3]` for the next day and `[0, -1, -2, -3]` for the previous day. When the previous day is not on the page, a second page is fetched. This is network sequencing around two runs of `ScrapeTimetable`.

## Findings

| source | as written | input that shows it | evidently intended | confidence | as-written member | corrected member |
|---|---|---|---|---|---|---|
| main.rs:122 | the "None" test sits inside the `any` closure, so it applies only when the other day has at least one period | next day has one inactive slot (subject "None", label "1") and the previous day has no periods: `new_periods` holds that placeholder and " + None" is printed | a placeholder is never reported, whatever the other day holds: the `== "None"` test exists only to keep placeholders out, and the day listing skips "None" subjects (main.rs:113) | medium, not executed | Diff.PlaceholderReportedAgainstEmpty | Diff.IntendedUnmatchedRule |

`Diff.IntendedUnmatched` is the corrected rule. `CompareDays` keeps the code's
rule. The two agree on every pair of days where the other day has a period
(`Diff.IntendedUnmatchedRule`).
