# HR employee import, HR reports and two report widgets — a Dafny model

This project models four pieces of a Laravel/React HR application:

- **The employee CSV import** of `EmployeeController`. The import first refuses a missing file, a plan whose employee quota is spent, and an unreadable file. It then finds the first non-blank row, which is the header, and sanitises the header cells. The header must contain every column of the import table. After that, every later row is classified and either created or recorded as an error. No data row or a missing column refuses the whole file. Related helpers are modelled too:
  - the column table and the template download;
  - the active/inactive status toggle;
  - the plan-availability lookup that seeds the quota.
- **The HR report helpers** of `HrReportController`:
  - the `per_page` clamp;
  - the date-range resolution (Carbon's `subMonths` overflow included);
  - the monthly turnover series and the turnover totals;
  - the "recent eight" hires and separations;
  - the query filters;
  - the CSV exports: the termination export goes through `generateExcelResponse`, and the turnover export through its own callback of the same shape, both modelled by `WriteCsv`.
- **The export button** (`export-button.tsx`). It keeps the filters that are not `undefined`, `null` or `''` and serialises them as `application/x-www-form-urlencoded`, as `URLSearchParams` does. The link it builds is the export route, `?`, and that query.
- **The media picker** (`MediaPicker.tsx`):
  - the URL shown for a stored path;
  - the extension test for PDFs and the file-icon choice;
  - the path kept when a full URL is selected (parsed the way WHATWG URL parses special schemes);
  - clearing.

Modules, one per file:

| file | module | contents |
|---|---|---|
| `prelude.dfy` | `Prelude` | Option, PHP `trim`, ASCII `strtolower`, `ucfirst`, decimal strings |
| `calendar.dfy` | `Calendar` | dates, moments, month keys, Carbon start/end of month, `subMonths`, `addMonth` |
| `php_numeric.dfy` | `PhpNumeric` | PHP numeric strings and the `(int)` cast |
| `employee_rows.dfy` | `ImportRows` | column table, sanitising, row mapping, entity lookup, gender/status, toggle, plan quota, template |
| `employee_import.dfy` | `EmployeeImport` | the import as a function: row classification, settling a row, the scan, the refusals |
| `import_loop.dfy` | `ImportLoop` | the import as the source runs it: the `$results` ledger object and the row loops, proved equal to the function |
| `import_facts.dfy` | `ImportFacts` | properties of a completed import |
| `report_records.dfy` | `ReportRecords` | the records the reports read |
| `report_range.dfy` | `ReportRange` | `perPage`, `resolveDateRange`, turnover totals |
| `report_series.dfy` | `TurnoverSeries` | `buildTurnoverSeries` |
| `report_recent.dfy` | `RecentRecords` | `sortByDesc(...)->take(8)` lists |
| `report_filters.dfy` | `ReportFilters` | the query builder class and the `apply*Filters` helpers |
| `report_export.dfy` | `ReportExport` | CSV export documents |
| `export_button.dfy` | `ExportButton` | `handleExport`, `URLSearchParams` and its inverse |
| `media_picker.dfy` | `MediaPicker` | display URL, extension, icons, select, clear |

Code and its documentation comment disagree in one place. The comment of `handleSelect` says the path may keep its leading `/`. The code always strips one leading `/`, and the model follows the code.

## Model

| member | source | states |
|---|---|---|
| ImportLoop.Import | app/Http/Controllers/EmployeeController.php:761-950 | the imperative import (ledger object, header loop, row loop) returns exactly the outcome of the functional import RunImport, which stores every created employee with the gender as line 910 writes it |
| ImportLoop.ImportRowsOf | app/Http/Controllers/EmployeeController.php:778-946 | with quota left, reading the rows gives the functional ImportCsv outcome |
| ImportLoop.FindHeader | app/Http/Controllers/EmployeeController.php:791-812 | the header row is the first row that is not blank |
| ImportLoop.ScanRows | app/Http/Controllers/EmployeeController.php:791-930 | the data-row loop ends in the state the scan function ScanFrom computes (row number, results, quota, duplicate store, created drafts, whether it stopped at the plan limit) |
| ImportLoop.ProcessRow | app/Http/Controllers/EmployeeController.php:808-929 | one row: a blank row only advances the row number; any other is counted, classified and settled exactly as Step defines |
| ImportLoop.ProcessDataRow | app/Http/Controllers/EmployeeController.php:814-929 | a non-blank row: processed goes up by one, the row is mapped and sanitised, and the ledger, quota, code store and created list end as Settle gives for the classifier's verdict |
| ImportLoop.SettleRow | app/Http/Controllers/EmployeeController.php:832-929 | settling a verdict: the plan-limit break stops the loop, a refusal is recorded as an error, a success bumps created and uses one unit of quota |
| ImportLoop.SanitizeValues | app/Http/Controllers/EmployeeController.php:815-818 | every mapped value is replaced by its sanitised form |
| ImportLoop.Ledger.constructor | app/Http/Controllers/EmployeeController.php:782-787 | the results start as zero processed, created and skipped, with no errors |
| ImportLoop.Ledger.CountProcessed | app/Http/Controllers/EmployeeController.php:814 | processed goes up by one and nothing else changes |
| ImportLoop.Ledger.CountCreated | app/Http/Controllers/EmployeeController.php:923-924 | created goes up by one and nothing else changes |
| ImportLoop.Ledger.RecordImportError | app/Http/Controllers/EmployeeController.php:1126-1133 | the error (row number, message) is appended and skipped goes up by one |
| EmployeeImport.WithError | app/Http/Controllers/EmployeeController.php:1126-1133 | recording an error appends it last, adds one to skipped and keeps processed and created |
| EmployeeImport.BuildDraft | app/Http/Controllers/EmployeeController.php:873-917 | the draft has the row's employee_id and name, status inactive iff the row says so, the resolved references, gender 'female' as line 910 writes it, the two dates as parseDateValue reads them, and the employment type and national id as given |
| EmployeeImport.Settle | app/Http/Controllers/EmployeeController.php:832-929 | a verdict settles as exactly one of created or skipped. The scan stops iff the verdict is the plan-limit break. A row is created iff it is ready and the create succeeds, and then its draft and code are added. Errors, drafts and codes only grow |
| EmployeeImport.Step | app/Http/Controllers/EmployeeController.php:808-929 | a row advances the row number; a blank row changes nothing else; any other is processed and ends created or skipped |
| EmployeeImport.ScanFrom | app/Http/Controllers/EmployeeController.php:791-930 | a stopped scan stays put; the row number never goes back; errors, drafts and codes only grow |
| EmployeeImport.RunImport | app/Http/Controllers/EmployeeController.php:761-779 | no file refuses with the no-file error; a file with the quota spent refuses with the limit error; a completed import came from a readable file with quota left |
| EmployeeImport.ImportCsv | app/Http/Controllers/EmployeeController.php:791-946 | no data iff there is no non-blank row; any other refusal names a non-empty list of missing columns; a completed import had a header holding every column of the table |
| EmployeeImport.Classify | app/Http/Controllers/EmployeeController.php:820-917 | a row that is ready carries the row's employee_id, which is not yet taken, and there is quota left. Its draft stores the gender 'female' whatever the cell says, as line 910 is written |
| EmployeeImport.FirstNonBlank | app/Http/Controllers/EmployeeController.php:791-812 | the index of the first non-blank row at or after i; every row before it is blank |
| EmployeeImport.RunImportRefusals | app/Http/Controllers/EmployeeController.php:764-779 | the refusals come in the source's order: no file, quota spent, unreadable, no data row, missing columns (listed exactly: the required columns missing from the sanitised header). The import completes iff none applies |
| EmployeeImport.RunImportReadsCsv | app/Http/Controllers/EmployeeController.php:768-776 | a readable file with quota left is imported from its rows alone |
| EmployeeImport.RunImportMissing | app/Http/Controllers/EmployeeController.php:792-806 | a header lacking a required column refuses the file, naming those columns |
| EmployeeImport.RunImportScans | app/Http/Controllers/EmployeeController.php:791-946 | a complete header leads to the scan of the rows after it, starting at row number 1 with the plan's quota |
| ImportFacts.ClassifyFirstFailure | app/Http/Controllers/EmployeeController.php:820-872 | a row is ready iff no check fails. A refused row names the first failing check in the source's order. The missing-values error lists the missing required columns. A ready row carries its employee_id and resolved shift |
| ImportFacts.CompletedImport | app/Http/Controllers/EmployeeController.php:791-946 | created + skipped == processed. There is one error per skipped row, on non-blank rows, in ascending row order. Created never exceeds the plan's remaining quota. The new codes are distinct and not previously taken. Only the last error can be the plan-limit stop. Without that stop, every non-blank data row is processed |
| ImportFacts.ScanIgnoresRest | app/Http/Controllers/EmployeeController.php:832-835 | once the plan-limit break has happened, rows after it do not change the result |
| ImportFacts.ScanCounts | app/Http/Controllers/EmployeeController.php:808-814 | without the break, processed grows by the number of non-blank rows and the row number by every row |
| ImportFacts.StepBlank | app/Http/Controllers/EmployeeController.php:808-812 | a blank row changes nothing but the row number |
| ImportFacts.ScanBalanced | app/Http/Controllers/EmployeeController.php:814-929 | every processed row ends as exactly one of created or skipped |
| ImportFacts.ScanQuotaKept | app/Http/Controllers/EmployeeController.php:832-835 | the quota left plus rows created stays equal to the starting quota, and never goes negative |
| ImportFacts.ScanCodesKept | app/Http/Controllers/EmployeeController.php:837-840 | the duplicate store is the existing codes plus the created ones, and each created code is new |
| ImportFacts.ScanErrorRows | app/Http/Controllers/EmployeeController.php:808-929 | the errors are on non-blank rows, in ascending row order |
| ImportFacts.ScanStopMarked | app/Http/Controllers/EmployeeController.php:832-835 | the scan has stopped iff the last error is the plan-limit error, and no earlier error is |
| ImportRows.ImportColumns | app/Http/Controllers/EmployeeController.php:952-972 | the import table: the thirteen column names, each flagged required |
| ImportRows.AllColumnsRequired | app/Http/Controllers/EmployeeController.php:778-779 | the required columns are every column of the table, shift_id and status included |
| ImportRows.RequiredNames | app/Http/Controllers/EmployeeController.php:778-779 | a name is required iff some entry of the table has it and is flagged required |
| ImportRows.RequiredColumns | app/Http/Controllers/EmployeeController.php:778-779 | the required columns are all of the table's names |
| ImportRows.SanitizeHeader | app/Http/Controllers/EmployeeController.php:1010-1015 | the cell with every U+FEFF removed, then cut to a span whose outside is all trim characters and whose ends are not, then ASCII lower-cased. So no byte-order mark, no surrounding trim character, no upper-case ASCII letter |
| ImportRows.SanitizeHeaderIdempotent | app/Http/Controllers/EmployeeController.php:1010-1015 | sanitising a header twice is sanitising it once |
| ImportRows.SanitizeHeaderReadsName | app/Http/Controllers/EmployeeController.php:1010-1015 | byte-order marks anywhere and trim characters around a name do not change the lower-cased column name a header cell reads as |
| ImportRows.SanitizeHeaderExample | app/Http/Controllers/EmployeeController.php:1010-1015 | a cell holding a byte-order mark, a space, Name and a tab reads as the column name 'name' |
| ImportRows.SanitizeHeaders | app/Http/Controllers/EmployeeController.php:795-796 | the header row is sanitised cell by cell |
| ImportRows.SanitizeCell | app/Http/Controllers/EmployeeController.php:1017-1028 | null or blank after trimming becomes null; otherwise the trimmed text. Never the empty string |
| ImportRows.SanitizeCellIdempotent | app/Http/Controllers/EmployeeController.php:1017-1028 | sanitising a cell twice is sanitising it once |
| ImportRows.IsRowEmpty | app/Http/Controllers/EmployeeController.php:1030-1038 | true iff every cell trims to the empty string |
| ImportRows.MapRowValues | app/Http/Controllers/EmployeeController.php:1040-1047 | the map's keys are the header's names. Each value is the cell under the last column of that name, or null past the row's end |
| ImportRows.MappedRowData | app/Http/Controllers/EmployeeController.php:815-818 | the mapped and sanitised row is the row data the classifier reads |
| ImportRows.SanitizeRow | app/Http/Controllers/EmployeeController.php:815-818 | the same keys, each value sanitised |
| ImportRows.MissingColumns | app/Http/Controllers/EmployeeController.php:797-801 | exactly the required names absent from the header; empty iff every required name is present |
| ImportRows.MissingValues | app/Http/Controllers/EmployeeController.php:820-830 | exactly the required names with no value in the row; empty iff every one has a value |
| ImportRows.FirstWithId | app/Http/Controllers/EmployeeController.php:1062-1066 | an owned entity with that id, or None iff there is none |
| ImportRows.FirstWithName | app/Http/Controllers/EmployeeController.php:1069-1071 | an owned entity whose lower-cased name matches, or None iff there is none |
| ImportRows.ResolveOwnedEntityId | app/Http/Controllers/EmployeeController.php:1049-1074 | null or blank gives null; any id given is the id of an entity whose owner is in the company scope |
| ImportRows.ResolveOwnedEntityIdSpec | app/Http/Controllers/EmployeeController.php:1049-1074 | blank gives null. A numeric value naming an owned id gives that id. Otherwise there is a case-insensitive match on an owned entity's name (id 0 counts as no match). Null means both lookups failed |
| ImportRows.NormalizeGender | app/Http/Controllers/EmployeeController.php:862-865 | an empty or falsy value gives null; otherwise male, female or other, keeping a value that already is one of those |
| ImportRows.StoredGenderAlwaysFemale | app/Http/Controllers/EmployeeController.php:910 | as written, the stored gender is 'female' whatever the row says |
| ImportRows.TemplateMaleStoredFemale | app/Http/Controllers/EmployeeController.php:862-910 | the template's own 'M' sample normalises to 'other' and is stored as 'female' |
| ImportRows.StoredGender | app/Http/Controllers/EmployeeController.php:862-910 | corrected: M/male store male, F/female store female, any other filled value stores other, empty stores null |
| ImportRows.NormalizeStatus | app/Http/Controllers/EmployeeController.php:867-869 | active or inactive; inactive iff the value lower-cases to 'inactive' |
| ImportRows.ParseDateValue | app/Http/Controllers/EmployeeController.php:1076-1087 | a falsy value gives null; otherwise whatever parsing gives, null on failure |
| ImportRows.ToggleStatus | app/Http/Controllers/EmployeeController.php:566-583 | permission is denied iff the employee's creator is outside the company. Otherwise the new status is ToggledStatus(current): inactive iff the current one is active, and active in every other case; the update succeeds iff the save does not throw, and a thrown exception gives a failure whose message is UpdateFailureMessage of the exception's message |
| ImportRows.UpdateFailureMessage | app/Http/Controllers/EmployeeController.php:581 | the exception's message when it is truthy for PHP's `?:`, otherwise 'Failed to update employee status'; never '' or '0' |
| ImportRows.ToggledStatus | app/Http/Controllers/EmployeeController.php:577 | active becomes inactive; anything else becomes active |
| ImportRows.ToggleTwiceRestores | app/Http/Controllers/EmployeeController.php:577 | toggling an active or inactive status twice restores it |
| ImportRows.SeedQuota | app/Http/Controllers/EmployeeController.php:1116-1123 | remaining is max minus current, floored at zero; zero iff the plan is full |
| ImportRows.PlanAvailability | app/Http/Controllers/EmployeeController.php:1089-1124 | no quota exactly when not SaaS, without a user, for the super admin, or when the company account (the user itself, or its creator) is missing or has no plan. Otherwise the quota is that company's plan maximum against the current employee count |
| ImportRows.TemplateRows | app/Http/Controllers/EmployeeController.php:736-759 | the template: the column names, then one row per sample, each cell the sample's value or '' |
| ImportRows.TemplateHeaderAccepted | app/Http/Controllers/EmployeeController.php:736-759 | the template's header is already sanitised and passes the import's column check |
| PhpNumeric.IsNumericLayout | app/Http/Controllers/EmployeeController.php:1062 | is_numeric accepts a string iff it has the layout: leading white space, one optional sign, digits with an optional '.' and fraction (at least one digit in all), an optional exponent with sign and digits, trailing white space |
| PhpNumeric.LayoutParses | app/Http/Controllers/EmployeeController.php:1062 | a string with that layout parses to the number it spells: sign, digits, fraction length, exponent |
| PhpNumeric.PrefixHasLayout | app/Http/Controllers/EmployeeController.php:1063 | the prefix that a numeric read takes has that layout (without the trailing white space), and the read number is the one it spells |
| PhpNumeric.IntCastOfLayout | app/Http/Controllers/EmployeeController.php:1063 | the cast of a numeric string is the integer part of the exact decimal number its layout spells; PHP's rounding to a double first is not modelled (see Left out) |
| PhpNumeric.NumericToIntTruncates | app/Http/Controllers/EmployeeController.php:1063 | the integer has the number's sign and is its value truncated toward zero: mantissa × 10^shift, or the largest whole m with m × 10^-shift <= mantissa |
| PhpNumeric.IntCastReadsPrefix | app/Http/Controllers/HrReportController.php:788 | text after the leading number is ignored: the leading number is itself numeric and casts to the same integer |
| PhpNumeric.IntCastOfDigits | app/Http/Controllers/HrReportController.php:788 | a string of digits casts to its decimal value, with no 64-bit cap (see Left out) |
| PhpNumeric.IntCastWithoutDigits | app/Http/Controllers/HrReportController.php:788 | a string with no digit anywhere casts to 0 |
| PhpNumeric.IntCastWithoutLeadingNumber | app/Http/Controllers/HrReportController.php:788 | a string that does not open with white space, an optional sign and a digit (or '.' and a digit) casts to 0, whatever follows |
| PhpNumeric.LayoutOpensNumber | app/Http/Controllers/HrReportController.php:788 | any string with a numeric layout on a prefix opens with a number |
| PhpNumeric.IntCastLettersFirst | app/Http/Controllers/HrReportController.php:788 | "abc12" casts to 0 |
| PhpNumeric.IntCastTruncates | app/Http/Controllers/HrReportController.php:788 | "2.9" casts to 2 |
| PhpNumeric.IntCastTruncatesNegative | app/Http/Controllers/HrReportController.php:788 | "-2.9" casts to -2 |
| PhpNumeric.IntCastExponent | app/Http/Controllers/HrReportController.php:788 | "1e2" casts to 100 |
| PhpNumeric.IntCastPrefix | app/Http/Controllers/HrReportController.php:788 | "12abc" casts to 12 |
| ReportRange.PerPage | app/Http/Controllers/HrReportController.php:786-790 | between 5 and 100; 10 when the parameter is absent |
| ReportRange.PerPageClamps | app/Http/Controllers/HrReportController.php:786-790 | the cast value when it lies in 5..100, else the nearer bound |
| ReportRange.PerPageNotNumber | app/Http/Controllers/HrReportController.php:788-789 | a value that does not open with a number ("abc12" included) gives the minimum, 5 |
| ReportRange.PerPageDigits | app/Http/Controllers/HrReportController.php:788-789 | a string of digits gives its value clamped to 5..100 |
| ReportRange.DefaultStartAsWritten | app/Http/Controllers/HrReportController.php:796 | as written: midnight on the first of a month, which is five months back when today's day exists in the month five back, and four months back when it overflows |
| ReportRange.DefaultStartAsWrittenSkipsMonth | app/Http/Controllers/HrReportController.php:796 | on 31 July the default start is 1 March: four months back, not five |
| ReportRange.DefaultStartsAgree | app/Http/Controllers/HrReportController.php:796 | on days 1 to 28 of a month the as-written and corrected starts agree |
| ReportRange.DefaultStart | app/Http/Controllers/HrReportController.php:796 | corrected: midnight on the first of the month five months before now |
| ReportRange.RequestedStart | app/Http/Controllers/HrReportController.php:794-796 | the start of the given day, or, with no date_from, the default start as line 796 writes it |
| ReportRange.RequestedEnd | app/Http/Controllers/HrReportController.php:798-800 | the last second of date_to's day when given, otherwise EndOfMonth of now |
| ReportRange.ResolveDateRange | app/Http/Controllers/HrReportController.php:792-807 | a valid window with start <= end, from the start of a day to the end of a day. Its days are the requested ones (the defaults as written when absent), swapped when given the wrong way round |
| ReportRange.ResolveDateRangeKeepsOrderedWindow | app/Http/Controllers/HrReportController.php:792-807 | a window given in order keeps the requested days |
| ReportRange.DefaultWindow | app/Http/Controllers/HrReportController.php:796-800 | with no dates: from the as-written default start to the end of the current month, six calendar months, or five when the day overflows; on days 1 to 28 the start is the corrected one |
| ReportRange.DoubleAverageHeadcount | app/Http/Controllers/HrReportController.php:610 | twice the average headcount: start plus current when that is at least 2, otherwise 2 (the max with 1) |
| ReportRange.Turnover | app/Http/Controllers/HrReportController.php:605-613 | separations are resignations plus terminations. The rate is 0 iff there are none; otherwise it is separations / average headcount × 100, kept exact |
| ReportRange.TurnoverSmallHeadcount | app/Http/Controllers/HrReportController.php:610-613 | an average headcount below one counts as one: one hundred percent per separation |
| TurnoverSeries.BuildTurnoverSeries | app/Http/Controllers/HrReportController.php:838-879 | the loop produces the series function over the months from the start's month to the end's |
| TurnoverSeries.Series | app/Http/Controllers/HrReportController.php:861-878 | one entry per month of the window, consecutive months in order |
| TurnoverSeries.SeriesTotals | app/Http/Controllers/HrReportController.php:846-878 | summed over the series, hires and separations equal the records dated in the window's months: each record is counted once, in its own month |
| TurnoverSeries.Buckets | app/Http/Controllers/HrReportController.php:846-859 | only months with at least one record have a bucket |
| TurnoverSeries.BucketsCount | app/Http/Controllers/HrReportController.php:846-865 | a month's bucket (0 when absent) is the number of records dated in that month |
| TurnoverSeries.AllInWindowCounted | app/Http/Controllers/HrReportController.php:846-878 | when every dated record lies in the window, the series counts all of them |
| TurnoverSeries.EmptyWindow | app/Http/Controllers/HrReportController.php:861 | an empty window counts nothing |
| RecentRecords.SortByDateDesc | app/Http/Controllers/HrReportController.php:615-663 | a permutation of the records, latest first; null dates sort last |
| RecentRecords.Latest | app/Http/Controllers/HrReportController.php:615-663 | min(n, 8) of the records, latest first |
| RecentRecords.LatestLeavesOutOnlyEarlier | app/Http/Controllers/HrReportController.php:615-663 | a record left out is no later than any record kept |
| RecentRecords.RecentHires | app/Http/Controllers/HrReportController.php:615-629 | at most eight hires (eight when there are that many), drawn from the hires, latest joining first |
| RecentRecords.SeparationEvents | app/Http/Controllers/HrReportController.php:631-659 | the resignations' rows (by last working day) and then the terminations' rows (by termination date) |
| RecentRecords.RecentSeparations | app/Http/Controllers/HrReportController.php:631-663 | at most eight separations (eight when there are that many), drawn from the merged rows, latest first |
| RecentRecords.RecentSeparationsDrawn | app/Http/Controllers/HrReportController.php:631-663 | each listed separation is the row of one of the resignations or terminations |
| ReportFilters.Select | app/Http/Controllers/HrReportController.php:697-756 | a row is selected iff it is a row of the input that meets every condition; the selected rows are the input's rows at increasing positions, in input order |
| ReportFilters.Query.constructor | app/Http/Controllers/HrReportController.php:138-144 | a new query has no conditions |
| ReportFilters.Query.Where | app/Http/Controllers/HrReportController.php:697-756 | a where appends a condition |
| ReportFilters.Filled | app/Http/Controllers/HrReportController.php:697-756 | present and holding a character that is not a PHP trim character |
| ReportFilters.ApplyEmployeeFilters | app/Http/Controllers/HrReportController.php:697-714 | the query gains the employee, branch and department conditions of the filled filters |
| ReportFilters.ApplyDateFilter | app/Http/Controllers/HrReportController.php:738-746 | the query gains the date_from and date_to conditions on the column |
| ReportFilters.ApplyLeaveDateFilters | app/Http/Controllers/HrReportController.php:748-756 | the query gains start_date >= date_from and end_date <= date_to |
| ReportFilters.ApplyStatusFilter | app/Http/Controllers/HrReportController.php:142-144 | the query gains status = value unless the status is empty or 'all' |
| ReportFilters.EmployeeFilterMeaning | app/Http/Controllers/HrReportController.php:697-714 | a row passes iff it belongs to the filled employee and its profile has the filled branch and department |
| ReportFilters.DateFilterMeaning | app/Http/Controllers/HrReportController.php:738-746 | a row passes iff its date lies on or after date_from and on or before date_to, each when given |
| ReportFilters.LeaveDateFilterMeaning | app/Http/Controllers/HrReportController.php:748-756 | a leave passes iff it starts on or after date_from and ends on or before date_to, each when given |
| ReportFilters.NoDatesNoFilter | app/Http/Controllers/HrReportController.php:738-756 | no date given, no date condition |
| ReportFilters.StatusFilterMeaning | app/Http/Controllers/HrReportController.php:142-144 | an empty or 'all' status keeps every row; any other keeps exactly the rows with that status |
| ReportFilters.SatisfiesAppend | app/Http/Controllers/HrReportController.php:697-756 | conditions added to a query are joined by AND |
| ReportFilters.LeaveReportQuery | app/Http/Controllers/HrReportController.php:138-144 | the leave report's query holds the employee filters, then the leave dates, then the status |
| ReportFilters.LeaveReportRows | app/Http/Controllers/HrReportController.php:138-144 | a leave is in the report iff it passes all three filters |
| ReportExport.CsvDocument | app/Http/Controllers/HrReportController.php:1460-1480 | the file is the header line, then one line per record in order, each the mapper's row |
| ReportExport.WriteCsv | app/Http/Controllers/HrReportController.php:1469-1477 | the callback's loop writes exactly that document |
| ReportExport.CsvDocumentWidth | app/Http/Controllers/HrReportController.php:1460-1480 | when every mapped row is as wide as the header, so is every line |
| ReportExport.HireRow | app/Http/Controllers/HrReportController.php:1389-1401 | a hire's row is eight cells with Type 'New Hire' |
| ReportExport.ResignationRow | app/Http/Controllers/HrReportController.php:1403-1415 | a resignation's row is eight cells with Type 'Resignation' |
| ReportExport.TerminationRow | app/Http/Controllers/HrReportController.php:1417-1429 | a termination's row is eight cells with Type 'Termination' |
| ReportExport.StatusCell | app/Http/Controllers/HrReportController.php:1413 | a null status is written 'Pending'; any other status keeps its length and text, with only its first character upper-cased |
| ReportExport.TurnoverRows | app/Http/Controllers/HrReportController.php:1387-1429 | every hire's row, then every resignation's, then every termination's, each in query order |
| ReportExport.TurnoverTypeColumn | app/Http/Controllers/HrReportController.php:1387-1429 | the Type column is 'New Hire' exactly on the first block, 'Resignation' exactly on the second, 'Termination' exactly on the third |
| ReportExport.TurnoverFileWidth | app/Http/Controllers/HrReportController.php:1436-1455 | the file has one line per record plus the header, each eight cells wide |
| ReportExport.ExportTurnoverReport | app/Http/Controllers/HrReportController.php:1358-1457 | the turnover file: the header, then the three blocks of rows, every line eight cells |
| ReportExport.TerminationExportRow | app/Http/Controllers/HrReportController.php:1339-1355 | a termination's export row is as wide as the header |
| ReportExport.ExportTerminationReport | app/Http/Controllers/HrReportController.php:1302-1356 | the termination file: the eleven-column header, then each termination's row, in order |
| ExportButton.HandleExport | resources/js/pages/hr/reports/components/export-button.tsx:15-25 | the link is the route, '?', and the serialised kept filters, in the filters' order |
| ExportButton.JsString | resources/js/pages/hr/reports/components/export-button.tsx:20 | String(value): a string is itself; the result is empty iff the value is the empty string |
| ExportButton.Kept | resources/js/pages/hr/reports/components/export-button.tsx:19 | a value is kept iff it is not undefined, not null, and its string is not empty |
| ExportButton.Serialize | resources/js/pages/hr/reports/components/export-button.tsx:24 | an empty list serialises to ''; otherwise the query starts with the first pair's encoded name, '=' and encoded value |
| ExportButton.KeptParams | resources/js/pages/hr/reports/components/export-button.tsx:18-22 | never more parameters than filters |
| ExportButton.KeptParamsMembers | resources/js/pages/hr/reports/components/export-button.tsx:18-22 | a parameter is kept iff some filter with a value that is not undefined, null or '' gives that key and value's string |
| ExportButton.KeptParamsAppend | resources/js/pages/hr/reports/components/export-button.tsx:18-22 | filters are kept one by one: the kept parameters of f + g are those of f, then those of g |
| ExportButton.AllKept | resources/js/pages/hr/reports/components/export-button.tsx:18-22 | when every value is kept, every filter becomes one parameter, in order |
| ExportButton.EmptyValuesDropped | resources/js/pages/hr/reports/components/export-button.tsx:19 | undefined, null and '' are dropped; 0 and false are kept as "0" and "false" |
| ExportButton.NothingKept | resources/js/pages/hr/reports/components/export-button.tsx:24 | with nothing kept the link is the route followed by a bare '?' |
| ExportButton.SearchParams.constructor | resources/js/pages/hr/reports/components/export-button.tsx:16 | a new URLSearchParams has no entries |
| ExportButton.SearchParams.Append | resources/js/pages/hr/reports/components/export-button.tsx:20 | append adds the pair last |
| ExportButton.EncodeByte | resources/js/pages/hr/reports/components/export-button.tsx:24 | the encoding of a byte never contains '&' or '=' |
| ExportButton.EncodeText | resources/js/pages/hr/reports/components/export-button.tsx:24 | an encoded name or value never contains '&' or '=' |
| ExportButton.DecodeEncodeBytes | resources/js/pages/hr/reports/components/export-button.tsx:24 | percent-decoding the form encoding of any UTF-8 bytes gives those bytes back |
| ExportButton.ParseSerialize | resources/js/pages/hr/reports/components/export-button.tsx:24 | parsing the serialised query gives back every pair, as bytes, in order |
| MediaPicker.GetDisplayUrl | resources/js/components/MediaPicker.tsx:68-88 | '' stays ''. A URL starting with 'http' is unchanged. Anything else becomes the origin followed by a path that starts with '/' and ends with the value |
| MediaPicker.DisplayUrlRules | resources/js/components/MediaPicker.tsx:76-87 | a path starting with '/' gets the origin; one containing storage/media gets the origin and '/'; any other gets origin/storage/media/ |
| MediaPicker.DisplayUrlIdempotent | resources/js/components/MediaPicker.tsx:68-88 | with an http origin, a displayed URL displays as itself |
| MediaPicker.Extension | resources/js/components/MediaPicker.tsx:56 | the text after the last '.', or the whole value when there is none |
| MediaPicker.ExtensionUnique | resources/js/components/MediaPicker.tsx:56 | that property determines the extension uniquely |
| MediaPicker.ExtensionOfDisplayUrl | resources/js/components/MediaPicker.tsx:68-94 | a value with a '.' has the same extension as its display URL |
| MediaPicker.ExtensionLower | resources/js/components/MediaPicker.tsx:56 | lower-casing commutes with taking the extension |
| MediaPicker.IsPdf | resources/js/components/MediaPicker.tsx:54-58 | isPdf holds iff the value ends in pdf in any letter case, either as the whole value or after a final '.' |
| MediaPicker.PdfIconIffPdf | resources/js/components/MediaPicker.tsx:54-100 | the PDF icon is shown iff isPdf holds |
| MediaPicker.GetFileIcon | resources/js/components/MediaPicker.tsx:92-106 | no icon for '' or an image extension; an icon otherwise |
| MediaPicker.FileIconIgnoresCase | resources/js/components/MediaPicker.tsx:92-106 | the icon does not depend on letter case |
| MediaPicker.CsvIsSpreadsheet | resources/js/components/MediaPicker.tsx:102 | a .csv file gets the spreadsheet icon |
| MediaPicker.Pathname | resources/js/components/MediaPicker.tsx:36-39 | no scheme gives a failed parse. An http or https URL's pathname starts after the host |
| MediaPicker.HandleSelect | resources/js/components/MediaPicker.tsx:32-48 | a value not starting with 'http' is kept. Otherwise a failed parse is None, and a parsed URL gives its pathname with one leading '/' removed |
| MediaPicker.SelectOfOrigin | resources/js/components/MediaPicker.tsx:32-48 | selecting scheme://host/path keeps path |
| MediaPicker.SelectThenDisplay | resources/js/components/MediaPicker.tsx:32-88 | a selected storage/media URL displays again as origin/path |
| MediaPicker.HandleClear | resources/js/components/MediaPicker.tsx:50-52 | clearing sets the value to '' |
| MediaPicker.ClearedShowsNothing | resources/js/components/MediaPicker.tsx:50-70 | a cleared value displays as '' and has no icon and is not a PDF |
| Calendar.SubMonths | app/Http/Controllers/HrReportController.php:796 | n months back: the day is kept when the target month has it; otherwise the month after the target, with the day reduced by the target month's length, as Carbon's default overflow does |
| Calendar.StartOfMonth | app/Http/Controllers/HrReportController.php:796 | midnight on the first of the same month: same year and month, and no later than any moment of that month |
| Calendar.EndOfMonth | app/Http/Controllers/HrReportController.php:800 | the last second of the last day of the same month: same year and month, and no earlier than any moment of that month |
| Calendar.NextMonth | app/Http/Controllers/HrReportController.php:876 | the first of the next month |
| Calendar.FirstOfMonthOrder | app/Http/Controllers/HrReportController.php:865 | comparing month starts is comparing month keys |
| Calendar.MonthKeyOrder | app/Http/Controllers/HrReportController.php:846-865 | date order implies month-key order, and a smaller month key means an earlier date |
| Calendar.StartOfDay | app/Http/Controllers/HrReportController.php:795 | midnight of the same day, never after the moment |
| Calendar.EndOfDay | app/Http/Controllers/HrReportController.php:799 | the last second of the same day, never before the moment |
| Prelude.Trim | app/Http/Controllers/EmployeeController.php:1026 | PHP trim: a contiguous slice of the input whose outside is all trim characters and whose ends are not; empty iff the input is all trim characters |
| Prelude.TrimIdempotent | app/Http/Controllers/EmployeeController.php:1026 | trimming twice is trimming once |
| Prelude.TrimPadding | app/Http/Controllers/EmployeeController.php:1026 | trim characters around a text whose ends are not trim characters are exactly what trim removes |
| Prelude.Lower | app/Http/Controllers/EmployeeController.php:1071 | strtolower on ASCII, character by character |
| Prelude.LowerIdempotent | app/Http/Controllers/EmployeeController.php:1071 | lower-casing twice is lower-casing once |

## Left out

- The source runs one `while` loop over the rows, with a header branch and a data branch. The model runs one loop to find the header (`FindHeader`) and a second loop over the rows after it (`ScanRows`). The two forms do the same work in the same order.
- Each row's branch, department, designation and shift lookups happen before classification and are passed in as `Refs`. The lookups themselves are modelled (`ResolveOwnedEntityId`). The model does not capture that the source skips the later lookups once an earlier one fails, because they have no effect on the result.
- Database writes:
  - The transaction that creates the user and the employee is an oracle `create` keyed by row number: it either succeeds or fails with a message.
  - The rollback, the role assignment and the password hashing are not modelled; they are persistence and I/O.
- `Carbon::parse` of a cell or request date is a parameter (`parse`), and the request's dates are given already parsed. Carbon's parsing grammar is out of scope.
- `ReportRange.Turnover`: the rate is kept as an exact fraction. PHP's `round(…, 2)` on floats is not modelled. The per-month `turnover_rate` of the series is floating point and is left out for the same reason.
- `fputcsv` quoting, the BOM-less stream and the HTTP headers of the downloads are I/O. A written line is modelled as its cells.
- The `search` and `leave_type_id` filters of the leave report, and the `termination_type` column filter, are SQL `LIKE`/join conditions with no effect on the modelled properties.
- SQL type coercion in `where` comparisons is not modelled. `whereBetween` on the report queries is modelled by the records' dates lying in the window.
- `employeeProfileQuery` and the other report actions (absence, lateness, training, warnings, contracts) are outside this model. The other employee CRUD actions are too.
- PhpNumeric.IntCastOfLayout: the model casts the exact decimal value. PHP first converts a numeric string with a '.', an exponent, or an integer too large for 64 bits into the nearest double, and then casts that double. So `"0.99999999999999999"` casts to 1 in PHP and to 0 in the model. A value beyond the 64-bit integer range is capped at the largest or smallest integer in PHP; the model does not cap it (PHP floats and integer widths are not modelled). This reaches the id lookup of `resolveOwnedEntityId`.
- PhpNumeric.IntCastOfDigits: PHP integers are 64 bits wide, so a digit string beyond 9223372036854775807 does not cast to its own value in PHP: it is capped at that bound. The model's integers are unbounded and state no cap. `PerPageDigits` is unaffected, because its clamp to 100 hides the cap.
- PHP strings are byte strings and the model's strings are sequences of Unicode characters. Trimming, lower-casing and comparison are modelled on characters, so a multi-byte character counts as one.
- ImportRows.SanitizeHeader: `preg_replace` with the `/u` flag returns null on invalid UTF-8, so such a header cell sanitises to `''`. The model has no invalid UTF-8 and does not capture that case.
- ImportRows.FirstWithName / EmployeeImport.Classify: the `employee_id` duplicate check and the `LOWER(name)` match compare under the column's database collation, which may ignore case or accents. The model compares strings exactly.
- `Object.entries` lists integer-like keys first in ascending order. The model takes the filters in their given order.
- `String(value)` is modelled for strings, integers and booleans. The formatting of non-integral numbers, arrays and objects is left out (JavaScript number formatting).
- `Pathname` models WHATWG URL parsing for the special schemes `http`/`https` only. It does not model percent-encoding of the path, dot-segment removal, host and port validation, userinfo, or non-special schemes. `new URL` throwing is modelled as `None`.
- RecentRecords.SortByDateDesc / RecentRecords.Latest: `sortByDesc` is stable. The model proves that the order is a latest-first permutation, not the order among equal dates.
- The React state (`useState`, the preview modal, `onChange` wiring) is UI plumbing. `onChange(x)` is modelled as returning `x`.
- The date-range defaulting uses `Carbon::now()`, which is a parameter `now`.
- ReportRange.PerPage: an empty `?per_page=` is turned into null by the framework's empty-string middleware before the controller sees it, which gives 10. That middleware is not part of this model: the caller passes None for an empty parameter, and `PerPage(Some(""))` is 5.
- ImportRows.ToggleStatus: when the employee has no user, `$user->status` raises a PHP `Error`, which `catch (\Exception $e)` does not catch. That path is not modelled; the model takes the user's current status as given. The save is an oracle `update` that returns the exception's message when it throws.
- ImportRows.FirstWithName: the database compares `LOWER(name)`, which lower-cases non-ASCII letters too. The model lower-cases ASCII letters only, so it can differ for names with non-ASCII capitals.

## Findings

| source | as written | input that shows it | evidently intended | confidence | as-written member | corrected member |
|---|---|---|---|---|---|---|
| app/Http/Controllers/EmployeeController.php:862-910 | the employee's gender is stored as the constant 'female'. The normalised gender is computed but never used. The sample row's 'M' would normalise to 'other' anyway. The model's import stores the gender as written (StoredGenderAsWritten); StoredGender is the corrected definition | a row with gender 'M' (the template's own first sample) is stored as 'female' | store the normalised gender, with M/F read as male/female | not executed | ImportRows.StoredGenderAlwaysFemale | ImportRows.StoredGender |
| app/Http/Controllers/HrReportController.php:796 | `Carbon::now()->subMonths(5)->startOfMonth()` lets the day overflow before taking the month start | now = 31 July 2026: 31 February overflows to 3 March, so the window starts on 1 March, four months back | the first day of the month five months back (1 February). The model's date-range resolution uses the start as written | not executed | ReportRange.DefaultStartAsWrittenSkipsMonth | ReportRange.DefaultStart |
