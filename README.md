# Benefit entitlement calculation, modelled in Dafny

This project models the calculation core of a small Streamlit application
(`app.py`). The application computes each employee's monthly leave-benefit
entitlement from a spreadsheet of absences. The core has three parts, applied
in sequence:

- **Business-day counter** (`contar_dias_uteis`). An absence is charged the
  days from its first day up to, but not including, the return date. A day
  counts only when it falls Monday to Friday and is not a holiday. A missing
  date charges nothing. So does a leave and return on the same day (an
  attendance declaration).
- **Description builder** (`criar_descricao_afastamento`). A row charged no
  day has no description. Otherwise the description reads
  `"{kind} DE {n} DIA(S) - {dd/mm} A {dd/mm/yyyy}"`:
  - the kind comes from keywords in the upper-cased reason, with TRE first,
    then NOJO, then ALEITAMENTO, and otherwise a medical certificate;
  - the last date shown is the day before the return.
- **Aggregation**:
  - rows are grouped by registration number (`MAT.`), in ascending order;
  - each group keeps the first name given, sums its days and joins its
    descriptions with `" & "`;
  - the entitlement is the month's work days less the total, clipped at zero;
  - employees with nothing charged are removed.

Modules, one file each:

| file | module | contents |
|---|---|---|
| `wrappers.dfy` | `Wrappers` | `Option`, for spreadsheet cells that may be empty |
| `calendar.dfy` | `Calendar` | days as proleptic Gregorian ordinals (day 1 is Monday 1 January of year 1, as in Python's `date.toordinal`), the day of the week, and the conversion to and from (year, month, day) |
| `text.dfy` | `Text` | decimal and zero-padded number text, ASCII upper-casing, substring search and `str.join` |
| `records.dfy` | `Records` | the absence row, the row with its two computed columns (`Charged`), and the result line (`Entitlement`) |
| `business_days.dfy` | `BusinessDays` | the counter: a specification function and the day-by-day loop proved equal to it |
| `justification.dfy` | `Justification` | classification and the description text |
| `benefits.dfy` | `Benefits` | the per-employee aggregation and the result table |

`Benefits.Report(sheet, holidays, workDays)` models the whole pipeline. It is
`Summarize(Annotate(sheet, holidays), workDays)`:
- `Annotate` adds the two computed columns to every row;
- `Summarize` groups, sums, joins and filters.

The lemmas about the table are stated over any annotated table. Those that
need every description to be well formed require `AllConsistent`, which
`Annotate` ensures. `ReportOfSheet` states the result of `Report` in terms
of the sheet's own rows: for each employee, the days charged over the
employee's rows and the descriptions built for them, in sheet order.

## Model

| member | source | states |
|---|---|---|
| Calendar.Weekday | app.py:37 | the day of the week lies in 0..6; `MondayToWednesday` and `FridayToMonday` fix 0 as Monday and 4 as Friday, as `weekday()` numbers them |
| Calendar.WeekdayCycle | app.py:37-41 | advancing one day advances the day of the week by one, modulo 7; seven days later is the same day of the week |
| Calendar.YearStep | app.py:69-70 | the closed formula for the days before a year grows by exactly the length of each year, leap years included |
| Calendar.OrdinalOf | app.py:69-70 | the day number of a calendar date, as `toordinal` gives it; no contract of its own, its properties are the rows `OrdinalWithinYear`, `OrdinalOfInjective`, `OrdinalOfCivil` and `CivilRoundTrip` |
| Calendar.OrdinalWithinYear | app.py:69-70 | the ordinal of a valid date lies strictly after the days of the earlier years and within the days of its own year |
| Calendar.OrdinalOfInjective | app.py:69-70 | two valid dates with the same ordinal are the same date |
| Calendar.CivilFromOrdinal | app.py:69-70 | converting an ordinal back to a calendar date always gives a valid date |
| Calendar.OrdinalOfCivil | app.py:69-70 | the date found for an ordinal has that ordinal |
| Calendar.CivilRoundTrip | app.py:69-70 | converting a valid date to its ordinal and back gives the same date |
| Calendar.DayBefore | app.py:70 | the calendar day before a date; no contract of its own, its properties are the rows `DayBeforeOrdinal` and `PreviousDay` |
| Calendar.DayBeforeOrdinal | app.py:70 | the calendar day before a valid date (also across month and year ends) is valid and has an ordinal one less |
| Calendar.PreviousDay | app.py:70 | subtracting one day from the return date gives the calendar day before it |
| Text.DecimalString | app.py:67 | the text of a number is non-empty decimal digits, has no leading zero, and reads back as the number |
| Text.Pad2 | app.py:69-70 | a day or month field is exactly two digits and reads back as the number |
| Text.Upper | app.py:55 | upper-casing keeps the length and maps every character through the ASCII upper-case mapping |
| Text.UpperIdempotent | app.py:55 | upper-casing an upper-cased text changes nothing |
| Text.Contains | app.py:57-61 | a keyword longer than the text never occurs in it; `ContainsIff` ties the search to occurrence at some position |
| Text.ContainsIff | app.py:57-61 | the substring test succeeds exactly when the keyword occurs at some position |
| Text.MissingCharNotContained | app.py:57-61 | a text that lacks one of the keyword's characters does not contain the keyword |
| Text.Join | app.py:171 | a non-empty join starts with the first part; `JoinAppend` states that the other parts follow in order |
| Text.JoinAppend | app.py:171 | joining two non-empty lists is joining each and putting the separator between them, so every part follows the one before it, in order |
| Text.JoinInjective | app.py:171 | when no part is empty or holds an ampersand, the `" & "` join can be split back into exactly its parts |
| BusinessDays.BusinessDaysIn | app.py:35-41 | the count of business days in a range is at most the number of days in the range, and zero for an empty range |
| BusinessDays.ChargeableDays | app.py:24-29 | a missing date, or leave and return on the same day, charges nothing; a positive charge needs both dates with the start before the return, and is at most the number of days between them |
| BusinessDays.CountBusinessDays | app.py:19-43 | the day-by-day loop returns exactly the chargeable days |
| BusinessDays.BusinessDaysInIsSetSize | app.py:34-41 | the count is the number of days d with start <= d < return that are Monday to Friday and not holidays |
| BusinessDays.BusinessDaysSplit | app.py:35-41 | counting over two adjacent ranges adds up |
| BusinessDays.ZeroIffNoBusinessDay | app.py:35-41 | the count is zero exactly when no day of the range is a business day |
| BusinessDays.WeekendRangeCountsZero | app.py:36-37 | a range that lies entirely on a weekend is charged nothing |
| BusinessDays.HolidayRangeCountsZero | app.py:38-40 | a range whose every day is a holiday is charged nothing |
| BusinessDays.ExtendReturnByOneDay | app.py:35-41 | moving the return one day later adds exactly one when the newly included day is a non-holiday weekday, and nothing otherwise |
| BusinessDays.ReturnDayNeverCounted | app.py:34-35 | the return day itself is never charged: declaring it a holiday changes nothing |
| BusinessDays.SameCountOutsideRange | app.py:39 | only the holidays inside the range matter to the count |
| BusinessDays.FullWeekHasFiveBusinessDays | app.py:36-37 | without holidays, any seven consecutive days hold exactly five business days |
| BusinessDays.MondayToWednesday | app.py:19-43 | 4 March 2024 is a Monday, and leave from it with return on Wednesday 6 March is charged 2 days |
| BusinessDays.FridayToMonday | app.py:19-43 | 8 March 2024 is a Friday, and leave from it with return on Monday 11 March is charged 1 day |
| BusinessDays.HolidayInsideRange | app.py:38-40 | a holiday on Tuesday 5 March 2024 takes one day off the Monday-to-Wednesday absence |
| Justification.Label | app.py:57-64 | every kind of leave has a non-empty label without an ampersand |
| Justification.ReasonText | app.py:55 | a reason cell that holds text reads as that text, and an empty cell (NaN) reads "nan" |
| Justification.Classify | app.py:54-64 | the kind is TRE exactly when the upper-cased reason contains TRE; LICENÇA NOJO exactly when it contains NOJO but not TRE; ALEITAMENTO MATERNO exactly when it contains ALEITAMENTO but neither of the others; a medical certificate otherwise |
| Justification.ClassifyByOccurrence | app.py:55-64 | the kind of leave is decided by whether TRE, NOJO or ALEITAMENTO occur in the upper-cased reason, in that priority, with a medical certificate otherwise |
| Justification.ClassifyIgnoresCase | app.py:55 | reasons that differ only in letter case get the same kind, and upper-casing the reason first changes nothing |
| Justification.ClassifyInsideWord | app.py:57 | a keyword inside a longer word counts: "Estresse" reads as TRE |
| Justification.ClassifyPriority | app.py:57-59 | TRE wins over NOJO when both occur |
| Justification.ClassifyEmptyReason | app.py:55-64 | an empty reason cell reads "nan" and is classified as a medical certificate |
| Justification.DaysText | app.py:67 | the day count text is exactly "1 DIA" when the count is 1; otherwise it is the number followed by " DIA" and one more character, an "S" |
| Justification.DaysTextPlural | app.py:67 | any count other than one reads "{N} DIAS" |
| Justification.DayMonthText | app.py:69 | the first date is five characters: two digits that read back as the day, "/", and two digits that read back as the month |
| Justification.DayMonthYearText | app.py:70 | the last date is the day/month text, "/", then digits that read back as the year |
| Justification.Period | app.py:69-70 | the period shows the first day, " A ", then the day before the return, with its year |
| Justification.Describe | app.py:46-72 | there is no description exactly when no day is charged; a description is non-empty, free of ampersands, and starts with the kind of leave followed by " DE " |
| Justification.PeriodOfDates | app.py:69-70 | for dates given in the calendar, the period shows the first date and the calendar day before the return date |
| Justification.DescribeOfDates | app.py:72 | for dates given in the calendar, the description is the kind, " DE ", the day count text, " - ", and the period |
| Justification.DescribeTwoDays | app.py:46-72 | leave on 4 March 2024, back on 6 March, with an empty reason, charged 2 days, reads "ATESTADO MÉDICO DE 2 DIAS - 04/03 A 05/03/2024" |
| Justification.DescribeOneDay | app.py:46-72 | leave on 8 March 2024, back on 11 March, with reason "nojo - TRE", charged 1 day, reads "TRE DE 1 DIA - 08/03 A 10/03/2024" |
| Benefits.ChargeRow | app.py:147-157 | a computed row keeps the id and name, carries the chargeable days, and its description is the one built for the row with those days: present exactly when it is charged, non-empty and free of ampersands |
| Benefits.Annotate | app.py:147-157 | every row of the sheet gets its computed columns, in order, and the whole table is consistent |
| Benefits.InsertSorted | app.py:163 | adding a key keeps the keys strictly ascending, and the result holds exactly the old keys and the new one |
| Benefits.EmployeeIds | app.py:163-166 | the groups are the registration numbers that occur in some row, each once and in ascending order; rows without a number form no group |
| Benefits.FirstName | app.py:164 | the `first` aggregation of the names; no contract of its own, its property is the row `FirstNameIsFirst` |
| Benefits.TotalDays | app.py:165 | the `sum` aggregation of the days; no contract of its own, its properties are the rows `TotalDaysAppend`, `TotalDaysZeroIff` and `PositiveTotalHasRow` |
| Benefits.Descriptions | app.py:160-171 | the descriptions joined for an employee; no contract of its own, its properties are the rows `DescriptionsAppend`, `DescriptionsWellFormed` and `DescriptionsNonEmptyIff` |
| Benefits.FirstNameIsFirst | app.py:164 | the employee's name is the first name given among the employee's rows, and it is absent only when none of them has one |
| Benefits.TotalDaysAppend | app.py:165 | an employee's total is a sum over the rows: splitting the sheet splits the total |
| Benefits.TotalDaysZeroIff | app.py:165 | an employee's total is zero exactly when none of the employee's rows is charged a day |
| Benefits.PositiveTotalHasRow | app.py:165 | an employee with a positive total has a row in the sheet |
| Benefits.DescriptionsAppend | app.py:170-172 | the descriptions joined for an employee follow the row order: splitting the sheet splits the list |
| Benefits.DescriptionsWellFormed | app.py:160-171 | every description joined for an employee is non-empty and free of ampersands |
| Benefits.DescriptionsNonEmptyIff | app.py:160-180 | an employee has some description to join exactly when the employee's total is positive |
| Benefits.EntitledDays | app.py:185-186 | the entitlement is at most the month's work days; it is the work days less the total when the total fits, and zero otherwise |
| Benefits.EntitledDaysAntitone | app.py:185-186 | charging more days never raises the entitlement |
| Benefits.Entries | app.py:163-166 | the grouped table has one line per listed employee, in the listed order, each the employee's grouped line |
| Benefits.Entry | app.py:163-186 | the grouped line of one employee; no contract of its own, `SummaryLine` states what a result line holds |
| Benefits.Grouped | app.py:163-186 | the grouped table before the filter; no contract of its own, its properties are the rows `Entries` and `EmployeeIds` |
| Benefits.WithDiscount | app.py:189 | the filter keeps exactly the lines with a positive total |
| Benefits.Summarize | app.py:163-189 | the grouped and filtered table; no contract of its own, its properties are the rows from `ReportAscending` to `ReportConservesDays` |
| Benefits.Report | app.py:146-189 | the result table of a sheet; no contract of its own, its properties are the row `ReportOfSheet` and, through `Annotate`, the rows about `Summarize` |
| Benefits.ReportAscending | app.py:163-189 | each employee appears at most once in the result, in ascending order of registration number |
| Benefits.SummaryLine | app.py:163-189 | a line of the result is its employee's grouped line: first name, summed days, clipped entitlement and joined descriptions, with a positive total |
| Benefits.ReportMembership | app.py:189 | an employee is in the result exactly when some row carries the number and the employee's total is positive |
| Benefits.ReportJustification | app.py:168-180 | every line of the result has a non-empty justification, the `" & "` join of the employee's descriptions |
| Benefits.JustificationAppend | app.py:170-171 | when both parts of a split sheet describe an employee, the employee's justification is the first part's text, `" & "`, then the second part's text |
| Benefits.JustificationSplits | app.py:171 | a justification splits back at `" & "` into exactly the employee's descriptions |
| Benefits.ReportEntitlementBounds | app.py:185-186 | every entitlement in the result lies between zero and the month's work days, and is the work days less the total, clipped at zero |
| Benefits.ReportConservesDays | app.py:163-189 | the totals of the result add up to the days charged over all rows with a registration number: no day is lost or counted twice |
| Benefits.TotalOfSheet | app.py:147-165 | grouping the annotated sheet sums, over the employee's rows, the chargeable days of each |
| Benefits.DescriptionsOfSheet | app.py:147-171 | grouping the annotated sheet collects the description built for each of the employee's charged rows, in sheet order |
| Benefits.ReportOfSheet | app.py:146-189 | for a sheet of absences, an employee has a result line exactly when the employee's rows are charged some day, and that line holds those days summed, the clipped entitlement, and the descriptions of those rows joined with `" & "` in sheet order, never empty |
| Benefits.TwoRowsOneEmployee | app.py:163-189 | two rows of employee 100 charged 2 and 3 days, with 21 work days, give one line: total 5, entitlement 16, the two descriptions joined in row order |

## Left out

- The Streamlit page, sidebar widgets, metrics, tabs, tables, charts, detail view and footer are user interface only. So are the detail-view labels for rows charged no day.
- Reading and writing Excel files, and the download, are file I/O through libraries outside the model.
- Date parsing, column-name stripping and the check for missing columns are input loading. The model takes rows whose dates are already day numbers.
- The statistics (mean, median, minimum, maximum, histogram) are floating-point display values.
- The name and registration-number filters of the results table only filter the display.
- The catch-all exception report is not modelled.
- Times of day are not modelled. Every date is a whole calendar day, so the counter compares days, not timestamps.
- Text.Upper: maps only the ASCII letters, where Python's `str.upper` maps every cased letter. A reason with a non-ASCII letter that upper-cases to an ASCII one, such as the dotless ı (which becomes I), could contain a keyword in Python but not in the model.
- Calendar.CivilFromOrdinal: covers every year from 1 on, without an upper bound. Python's `date` stops at year 9999, and pandas timestamps cover only the years 1677 to 2262. Years below 1000, whose `%Y` text depends on the platform, are written without padding.
- Justification.ReasonText: models a reason cell as text or empty. A numeric reason cell, which `str()` would render as its number, is not modelled.
- Justification.Describe: requires a start before the return whenever days are charged. Its only caller, through the counter, guarantees that.
- Records.Absence: models the registration number as an integer. Text or mixed-type numbers, and the float conversion pandas applies to a column with empty cells, are not modelled.
- The holiday list comes from the sidebar widgets. It is a parameter of the model.
- The month's work days come from a widget limited to 1..31. The model accepts any natural number.
