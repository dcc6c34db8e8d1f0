# Sajodaerim data shaping, modelled in Dafny

Sajodaerim is a restaurant franchise's back-office toolkit. Crawlers collect
data from several sources:

- point-of-sale sales from the KIS back office;
- store orders from the Sajo order system;
- search-ad campaigns and keyword volumes from the Naver search-ad API;
- place reviews from Naver.

Report generators turn the stored data into JSON reports. Three browser
dashboards render those reports:

- the sales dashboard;
- the order report dashboard;
- the search-ad keyword table.

This project models the data shaping between those ends. It covers:

- which rows a collector keeps;
- how a run's rows are merged into the stored ones;
- how records are cleaned, grouped and totalled;
- how dates are read, formatted and bucketed into weeks and months;
- how price histories are analysed and ranked;
- how the dashboards filter, sort, total and mark what they show.

Browser, network and file I/O are left out.

The project is one Dafny module per file:

| file | module | what it is |
|---|---|---|
| wrappers.dfy | `Wrappers` | `Option`, for Python's `None` and JavaScript's `null`/`undefined` |
| seqs.dfy | `Seqs` | filtering, sums, first-seen de-duplication, grouping and partition sums |
| text.dfy | `Text` | ASCII case folding, substring search, `str.replace`/`str.strip`, decimal digits |
| sorting.dfy | `Sorting` | stable sort under a total preorder (Python `sorted`, JavaScript `Array.prototype.sort`), Python string order |
| calendar.dfy | `Calendar` | Gregorian day numbers, weekdays, the ISO 8601 week date (ISO 8601:2004 section 4.1.4), the dashboard's Sunday-week number |
| pydates.dfy | `PyDates` | `datetime.strptime` for `%Y%m%d` and `%Y-%m-%d`, the sales report's date formatting and week/month keys |
| pynum.dfy | `PyNum` | Python's `int(...)`, the `int(v or 0)` idiom, `parse_int` and `parse_volume` |
| sales_report.dfy | `SalesReport` | the sales report generator |
| kis.dfy | `KisSales` | the POS collector's row extraction and merge |
| sajo.dfy | `SajoOrders` | the order crawler's record cleaning, file split and price export |
| price_analysis.dfy | `PriceAnalysis` | the price-change analysis shared by the order crawler and the order report |
| order_report.dfy | `OrderReport` | the order report generator |
| reviews.dfy | `Reviews` | the review collector's date reading, period check, negative classifier, merge and statistics |
| ads_api.dfy | `AdsCollect` | the search-ad collector's walk over campaigns, ad groups and keywords |
| ads_dashboard.dfy | `AdsDashboard` | the keyword table: filters, sort, selection, bid edits, bid recommendation |
| sales_dashboard.dfy | `SalesDashboard` | the sales dashboard: store-name mapping, weeks, period/store filters, order rate, store table |
| report_dashboard.dfy | `ReportDashboard` | the order report dashboard: period tables, store shares, price cards |

The modelling choices are:

- **Dictionaries.** Python and JavaScript dictionaries keep keys in insertion order. They are modelled as first-seen key sequences (`Seqs.Distinct`) plus a per-key value.
- **Sorts.** Every sort is stable and is modelled as a stable insertion sort (Sorting.SortByStable). Its comparator must be a total preorder.
- **Locale order.** The Korean `localeCompare` is a parameter: any total preorder on strings.
- **Python `int(text)`.** Characters below U+007F are kept. Of the rest, Unicode whitespace becomes a space, a decimal digit of any script becomes its ASCII digit, and anything else can never be read. Then only ASCII whitespace (space and \t to \r) is stripped, and what is left must be an optional sign and digits with single underscores between them. More than 4300 digits are refused. So the separators \x1c to \x1f, which `str.strip()` removes, make `int` refuse the text.
- **Python digits.** In `re` patterns and in `strptime`, `\d` matches a decimal digit of any script (Unicode category Nd). `strptime`'s `%Y` is four such digits, its `%m` takes ASCII digits only, and its `%d` takes a Unicode second digit after '1' or '2'. `str.isdigit()` also accepts digits that are not decimal, such as '²'. Both follow Unicode 15.0.
- **Numbers.** Integers are unbounded. Percentages and shares are exact reals; display rounding is modelled only where a mark or a class depends on it.

## Model

| member | source | states |
|---|---|---|
| PyNum.Trunc | generate_sales_report.py:34-35 | `int(float)` rounds toward zero: the result lies within 1 of the input, on the same side of zero. |
| PyNum.PyIntOfStrRoundTrip | generate_sales_report.py:36-37 | Python's `int(text)` reads back the decimal rendering of every integer of at most 4300 digits. |
| PyNum.TooManyDigits | generate_sales_report.py:36-39 | `int(text)` refuses a run of more than 4300 digits, so `parse_int` gives 0 for it. |
| PyNum.CommaRejected | generate_sales_report.py:36-39 | Python's `int(text)` refuses any text that still holds a comma. This is why both parsers strip commas first. |
| PyNum.ForeignRejected | generate_sales_report.py:36-39 | `int(text)` refuses text holding any character outside its syntax: only whitespace, digits of any script, signs and underscores can appear. |
| PyNum.SeparatorRejected | generate_sales_report.py:36-39 | The ASCII separators \x1c to \x1f, which `str.strip()` treats as whitespace, make `int(text)` refuse the text. |
| PyNum.UnicodeDigitsRead | generate_sales_report.py:36-37 | `int(text)` reads decimal digits of any script, mixed or not, as the number they spell. |
| PyNum.FullWidthRead | generate_sales_report.py:36-37 | Full-width digits such as "１２" read as 12. |
| PyNum.ParseIntGrouped | generate_sales_report.py:36-37 | `parse_int` reads comma-grouped amounts ("1,234,567") as the grouped number. |
| PyNum.ParseIntGroupedNegative | generate_sales_report.py:36-37 | `parse_int` reads negative comma-grouped amounts (refunds) as their negative value. |
| PyNum.ParseIntNoBreakSpace | generate_sales_report.py:36-37 | `parse_int` skips Unicode whitespace, such as a no-break or ideographic space, around a grouped amount. |
| PyNum.ParseIntRejects | generate_sales_report.py:36-39 | A character `int` cannot read, other than a comma, makes `parse_int` give 0. |
| PyNum.ParseIntBlank | generate_sales_report.py:36-39 | Empty text, and a lone comma, make `parse_int` give 0. |
| PyNum.NegativeDigitsRead | generate_sales_report.py:36-37 | A minus sign followed by digits reads as the negated digit value. |
| PyNum.IntOrZeroAgrees | generate_report.py:103-106 | Wherever `int(v or 0)` reads a value, `parse_int` reads the same value. |
| PyNum.VolumeAgreesWithParseInt | scripts/naver_ads_api.py:111-123 | On text without `<` and without the separators \x1c to \x1f, `parse_volume` and `parse_int` agree, although only `parse_volume` strips before reading. |
| PyNum.VolumeSeparatorDiffers | scripts/naver_ads_api.py:117-123 | Where the two disagree: for a separator \x1c to \x1f before a number, `parse_volume` strips it and reads the number, while `parse_int` refuses the text and gives 0. |
| PyNum.VolumeBelowTen | scripts/naver_ads_api.py:117-119 | The API's "< 10" volume counts as 5. |
| PyDates.Strptime | generate_sales_report.py:50-60 | `strptime` with `%Y%m%d` or `%Y-%m-%d` only ever yields a valid calendar date. Its `\d` takes a decimal digit of any script, so the year may be written in full-width or other Unicode digits. |
| PyDates.FullWidthYearAccepted | generate_sales_report.py:53-56 | A year written in full-width digits ("２０２４0105") is read as the ASCII year. |
| PyDates.StrptimeRoundTrip | generate_sales_report.py:42-60 | Both renderings of every valid date parse back to that date. |
| PyDates.UnpaddedAccepted | generate_sales_report.py:55-56 | `strptime` also accepts unpadded month and day digits ("2024-1-5"). |
| PyDates.FormatDate | generate_sales_report.py:42-47 | `format_date` turns an 8-character date into the 10-character dashed form and leaves any other text alone. |
| PyDates.FormatDateCompact | generate_sales_report.py:42-47 | Formatting a compact `YYYYMMDD` date gives its dashed `YYYY-MM-DD` rendering. |
| PyDates.FormatDateOnlyAddsDashes | generate_sales_report.py:42-47 | `format_date` changes nothing but dashes. |
| PyDates.MonthKey | generate_sales_report.py:63-70 | `get_month_key` gives a `YYYY-MM` key exactly when the date has at least six characters once dashes are removed. |
| PyDates.MonthKeyIgnoresFormat | generate_sales_report.py:63-70 | The month key does not depend on whether the date was formatted first. |
| PyDates.MonthKeyOfDate | generate_sales_report.py:63-70 | Both renderings of a date give its padded year and month as the key. |
| PyDates.WeekKey | generate_sales_report.py:50-60 | `get_week_key` only ever gives the ISO week key of some valid date. |
| PyDates.WeekKeyOfDate | generate_sales_report.py:50-60 | Both renderings of a date give the key of its ISO year and week. |
| PyDates.WeekKeyByLength | generate_sales_report.py:53-56 | The format is chosen by length, so an unpadded dashed date gets no week key. |
| PyDates.IsoKeyInjective | generate_sales_report.py:57-58 | Different ISO weeks give different `YYYY-Www` keys. |
| Sorting.SortByStable | generate_report.py:34 | Sorting is stable: the elements that tie under the comparator leave in the order they came in, so price points of the same date keep their history order. |
| PyDates.CompactOrder | generate_sales_report.py:194 | Sorting compact date strings sorts the dates chronologically. |
| PyDates.DashedOrder | generate_sales_report.py:194 | Sorting dashed date strings sorts the dates chronologically. |
| PyDates.IsoKeyOrder | generate_sales_report.py:292 | For four-digit years, sorting week keys sorts ISO weeks by year, then week. Line 58 writes the year unpadded, so the order is only promised for years 1000..9999. |
| Calendar.IsoCalendar | generate_sales_report.py:56-57 | `isocalendar()`: a day lies in its week of the ISO year, counted from that year's week-1 Monday and before the next year's. The year is within one of the calendar year and the week is 1..53. |
| Calendar.IsoCalendarUnique | generate_sales_report.py:56-57 | The ISO year and week are the only ones whose range holds the day. |
| Calendar.IsoWeekSameMonday | generate_sales_report.py:56-57 | Two days share an ISO week exactly when they share their Monday. |
| Calendar.OrdinalOrder | generate_sales_report.py:194 | Date order is day-number order. |
| Calendar.JsWeekCountsSundayWeeks | docs/sales.js:276-284 | The dashboard's week number counts Sunday-to-Saturday weeks from the one holding 1 January of the year `new Date(year, 0, 1)` builds. From year 100 on it lies in 1..54. For years 0..99 that 1 January is in 1900+year, so the number is negative. |
| Calendar.JsWeekSameSundayWeek | docs/sales.js:276-284 | Within a year, two days get the same dashboard week exactly when they fall in the same Sunday-started week. |
| Calendar.WeekRulesDisagree | docs/sales.js:276-284 | The report and the dashboard number weeks differently: 1 January 2023 is ISO week 52 of 2022 but dashboard week 1 of 2023. |
| Calendar.JsWeekReaches54 | docs/sales.js:276-284 | The dashboard's week number reaches 54 (31 December 2000). |
| SalesReport.RowAmountsOfShown | generate_sales_report.py:148-157 | A row whose figures are numbers or comma-grouped text carries their values. A net sales of 0 is replaced by hall + delivery + packaging. |
| SalesReport.RowTotalFallback | generate_sales_report.py:151-157 | A missing, empty or unreadable net sales figure falls back to hall + delivery + packaging. |
| SalesReport.GenerateReport | generate_sales_report.py:73-351 | The report counts every input row. Its day and store counts are the lengths of its day and store lists. No rows give the empty report. |
| SalesReport.StoreTotalsAddUp | generate_sales_report.py:168-174 | Each store total is the sum over its rows, so the store list adds up to the report total for every measure. |
| SalesReport.DailyTotalsAddUp | generate_sales_report.py:177-183 | The daily list adds up to the report total for every measure. |
| SalesReport.SummaryCounts | generate_sales_report.py:326-342 | The summary totals every kept row and counts all input rows, the distinct stores and the distinct dates. |
| SalesReport.BucketsAddUp | generate_sales_report.py:207-238 | The week or month buckets add up to the totals of the dates that have a key, and their day counts add up to the number of those dates. |
| SalesReport.WeeklyMonthlyCoverAll | generate_sales_report.py:207-238 | When every kept date is well formed, the weekly and the monthly lists each add up to the report total and to its day count. |
| SalesReport.DailyOrdered | generate_sales_report.py:194 | The daily list runs in strictly increasing date-string order. |
| SalesReport.DailyChronological | generate_sales_report.py:194 | When the dates share one rendering, the daily list is chronological. |
| SalesReport.SummaryRange | generate_sales_report.py:332-335 | The date range exists exactly when some date does. It is the formatted least and greatest date. |
| SalesReport.MonthListReversed | generate_sales_report.py:348 | `month_list` is the monthly list's keys in reverse order. |
| SalesReport.StoreNameIsFirst | generate_sales_report.py:141-145 | A store's name is the one on its first kept row. |
| SalesReport.StoreDaysBounded | generate_sales_report.py:168-174 | A store trades on at least one and at most all of the report's days. |
| SalesReport.DayStoresBounded | generate_sales_report.py:177-183 | A day has at least one and at most all of the report's stores. |
| SalesReport.DetailAddsUp | generate_sales_report.py:273-288 | A day's per-store detail adds up to that day's totals. |
| SalesReport.DetailMapEntries | generate_sales_report.py:273-288 | The detail map holds each day's detail under its formatted date, when no later raw date formats the same. |
| SalesReport.DetailMapKeys | generate_sales_report.py:273-288 | The detail map's keys are exactly the formatted dates. |
| SalesReport.DetailKeyShared | generate_sales_report.py:273-288 | The compact and dashed renderings of a date share a detail key, so one overwrites the other. |
| SalesReport.CountedRowsDecide | generate_sales_report.py:130-136 | The report depends only on the rows that are not skipped. |
| SalesReport.SkippedRowIgnored | generate_sales_report.py:130-136 | A row with no date or no store code changes nothing but the record count. |
| KisSales.SkippedIff | kis_crawler.py:159-165 | A row is skipped exactly when its date is the header, a subtotal line or the grand-total line. |
| KisSales.ExtractIff | kis_crawler.py:148-173 | Extraction keeps exactly the sales rows, in sheet order. |
| KisSales.AddedFresh | kis_crawler.py:201-213 | Merging adds only new rows whose key was not stored, and never two rows with one key. |
| KisSales.AddedCovers | kis_crawler.py:201-213 | After a merge, every incoming row's key is stored. |
| KisSales.AddedFirst | kis_crawler.py:201-213 | Of several new rows with one key, the first one is added. |
| KisSales.AddedOnlyFirst | kis_crawler.py:201-213 | Only the first new row with each key is added. |
| KisSales.ExistingWin | kis_crawler.py:201-213 | Without `force`, every stored row survives the merge. |
| KisSales.ForceReplaces | kis_crawler.py:194-198 | With `force`, the rows on the run's dates come from the run only. |
| KisSales.ForceKeepsOthers | kis_crawler.py:194-198 | With `force`, every stored row on a date the run did not fetch stays, as often as it was stored. |
| KisSales.MergeUniqueKeys | kis_crawler.py:192-220 | A merge keeps date-and-store keys unique. |
| KisSales.MergeSorted | kis_crawler.py:218 | The merged rows are ordered by date, then store code. |
| SajoOrders.CleanNumber | sajo_crawler.py:170 | A cleaned number has no commas and no surrounding spaces. |
| SajoOrders.CleanStore | sajo_crawler.py:175 | A cleaned store name has no `■` marker. |
| SajoOrders.OrderCodeShape | sajo_crawler.py:168 | The order-code test's `lstrip('-').isdigit()` part holds exactly when the cell is leading dashes followed by a non-empty run of digits in the sense of `str.isdigit()`: decimal digits of any script, and also digits such as '²' that are not decimal. |
| PyNum.IsDigitBeyondAscii | sajo_crawler.py:168 | `str.isdigit()` accepts full-width digits ("１２３４５"), and it accepts "1234²", which `int()` refuses. |
| SajoOrders.ParsedFromRows | sajo_crawler.py:164-186 | Each parsed record comes from an order row of the table. |
| SajoOrders.RecordComplete | sajo_crawler.py:172-186 | Every record carries every column. |
| SajoOrders.RecordClean | sajo_crawler.py:172-186 | A record has the page's date, comma-free numbers and a store name without the marker. |
| SajoOrders.CleanStoreMarker | sajo_crawler.py:175 | Cleaning removes the leading marker and its space. |
| SajoOrders.CleanNumberGrouped | sajo_crawler.py:170 | A comma-grouped amount cleans to digits that read as the amount. |
| SajoOrders.ParsedPrice | sajo_crawler.py:270-275 | A grouped unit price reads as its amount, and an empty one as 0. |
| SajoOrders.GroupByKeys | sajo_crawler.py:228-244 | The per-category and per-store groups have distinct keys, are non-empty, and hold only records with their key. |
| SajoOrders.GroupByCovers | sajo_crawler.py:228-244 | Every record is in the group for its key. |
| SajoOrders.GroupBySizes | sajo_crawler.py:228-244 | The groups together hold every record once. |
| SajoOrders.LastWriteWins | sajo_crawler.py:207-210 | `save_csv` writes in mode 'w': a file holds the last group written under its name. |
| SajoOrders.DistinctNamesKeepGroups | sajo_crawler.py:207-210 | When no two groups share a file name, every group's file holds that group. |
| SajoOrders.SafeKeyFiles | sajo_crawler.py:228-244 | When no category or store name holds a character the sanitizer replaces, there is one file per key and it holds exactly that key's records. |
| SajoOrders.CollidingKeysOverwrite | sajo_crawler.py:232-233 | Names differing only in an unsafe character ("a/b", "a_b") share a file, and the second group overwrites the first. |
| SajoOrders.MissingKeyIsOther | sajo_crawler.py:230 | A record without the column goes to the "other" file. |
| SajoOrders.ProductKeySplit | sajo_crawler.py:248-252 | The product key tells apart products that differ in code or name, given codes without `_`. |
| SajoOrders.ProductFileSorted | sajo_crawler.py:248-260 | A product group holds exactly its product's records, in date order. |
| SajoOrders.SafeProductFiles | sajo_crawler.py:246-260 | When every product key is at most 80 characters and free of the replaced characters, each product file holds exactly its product's records, in date order. |
| SajoOrders.LongProductKeysCollide | sajo_crawler.py:257 | Product keys that agree on their first 80 characters get the same file name. |
| SajoOrders.SafeNameSpec | sajo_crawler.py:233 | A sanitized name keeps its length, holds no unsafe file-name character, and leaves safe names alone. |
| SajoOrders.SafeProductName | sajo_crawler.py:257 | A product file name is at most 80 characters. |
| SajoOrders.SafeProductNameSpec | sajo_crawler.py:257 | A product file name is the first 80 characters of the sanitized name, holding no unsafe character. |
| SajoOrders.ExportEntry | sajo_crawler.py:282-315 | An exported product's figures are the analysis of its dated history. It has a record with a positive price. |
| SajoOrders.ExportComplete | sajo_crawler.py:282-315 | Every product with a dated, positive-price record is exported. |
| SajoOrders.ExportOrdered | sajo_crawler.py:318 | The export lists each product once, by absolute change percentage, largest first. |
| SajoOrders.ExportDefined | sajo_crawler.py:269-278 | The export completes exactly when every record carries a code, a name and a category, the columns it reads by key (otherwise Python raises `KeyError`). |
| SajoOrders.CollectedComplete | sajo_crawler.py:362-384 | The records collected over a run's days all carry every column, so the export always completes. |
| PriceAnalysis.AnalyzedIff | generate_report.py:35-38 | A product is analysed exactly when its history has a positive price. |
| PriceAnalysis.AnalysisBounds | generate_report.py:40-43 | The first and last prices lie between the positive minimum and maximum, which occur in the history. The count is the history length and the change is last minus first. |
| PriceAnalysis.FirstAndLastByDate | generate_report.py:34-41 | The first and last prices are those of the earliest and latest positive-price points. |
| PriceAnalysis.DateSpan | generate_report.py:57-58 | The first and last dates bracket every point's date. |
| PriceAnalysis.AnalysisPct | generate_report.py:45-49 | The change percentage is the change relative to a positive first price. |
| PriceAnalysis.ChangePctSign | generate_report.py:45-49 | The percentage has the sign of the change. |
| PriceAnalysis.RankOrdered | generate_report.py:69 | Ranking keeps every analysis, ordered by absolute percentage, largest first. |
| PriceAnalysis.Min | generate_report.py:42 | `min` is an element no greater than any other. |
| PriceAnalysis.Max | generate_report.py:43 | `max` is an element no smaller than any other. |
| OrderReport.ReadNumbersOfWritten | generate_report.py:103-106 | Quantity, price and total given as numbers or decimal text read as their values; missing, null or empty ones read as 0. |
| OrderReport.ForeignZeroesItem | generate_report.py:103-108 | A character `int` cannot read in any of the three zeroes all three. |
| OrderReport.CommaZeroesItem | generate_report.py:103-108 | A comma in any of the three zeroes the whole item. |
| OrderReport.GenerateReport | generate_report.py:73-211 | The summary counts all records. It has a date range exactly when there are records, and its store and product counts match the lists. No records give no sales. |
| OrderReport.DailyAddsUp | generate_report.py:124-126 | The days add up to the total sales, the total quantity and the record count. |
| OrderReport.DailyOrdered | generate_report.py:166-193 | Days are strictly increasing by date, and every record's date is a day. |
| OrderReport.DateRange | generate_report.py:187-190 | The range exists exactly when there are records, and it brackets every record's date. |
| OrderReport.TotalSalesIsRecordTotal | generate_report.py:191 | Total sales is the sum of every record's total. |
| OrderReport.BreakdownAddsUp | generate_report.py:129-140 | The store or category breakdown plus the records without a name add up to the total sales and quantity. |
| OrderReport.BreakdownOrdered | generate_report.py:194-203 | The breakdown holds one entry per name, by total, largest first. |
| OrderReport.BreakdownEntries | generate_report.py:194-203 | Each entry has a non-empty name and that name's sums. |
| OrderReport.BreakdownDistinct | generate_report.py:194-203 | No name appears twice. |
| OrderReport.BreakdownCovers | generate_report.py:194-203 | Every named record's name is listed. |
| OrderReport.StoreDetailAddsUp | generate_report.py:170-176 | A store's detail totals are its days' sums and its breakdown entry. |
| OrderReport.CatalogCodes | generate_report.py:115-121 | The product list has one entry per non-empty code and covers every code. |
| OrderReport.CatalogLookup | generate_report.py:115-121 | A product's information comes from the first record with its code. |
| OrderReport.HistoryExactly | generate_report.py:143-148 | A code's history holds exactly the dates and prices of its records with a positive price. |
| OrderReport.ChangesComplete | generate_report.py:30-67 | Every priced code gets its analysis. |
| OrderReport.ChangeOfSpec | generate_report.py:51-67 | A change entry is its code's history analysis, under the catalog name. |
| OrderReport.AnalyzeChangesOrdered | generate_report.py:69 | Changes cover every priced code, ordered by absolute percentage, largest first. |
| OrderReport.AnalyzeChangesContents | generate_report.py:30-69 | Every change entry is a priced code's analysis. |
| OrderReport.PriceChangesCapped | generate_report.py:204 | The report keeps the 300 largest changes: a prefix of the ranking, no smaller than anything cut. |
| OrderReport.PriceChangesNamed | generate_report.py:51-56 | Every listed change carries its catalog product's name. |
| OrderReport.StorePriceChangesKeys | generate_report.py:159-164 | A store has its own price changes exactly when one of its records is priced. |
| OrderReport.EmptyAgrees | generate_report.py:214-233 | Building from no records gives the empty report. |
| OrderReport.ReportTotals | generate_report.py:180-203 | The summary's total sales equals the store breakdown plus storeless records, and the category breakdown plus uncategorised records. |
| OrderReport.Cap | generate_report.py:204 | Slicing `[:n]` keeps a prefix of length min(n, size). |
| Reviews.ParseDateDefined | scripts/naver_review_crawler.py:95-116 | A date is read exactly when the text holds at least two runs of `\d` digits, which are decimal digits of any script. |
| Reviews.FullWidthYearRead | scripts/naver_review_crawler.py:95-116 | A year in full-width digits ("２０２４.1.5") is read as 2024. |
| Reviews.ParseDateRoundTrip | scripts/naver_review_crawler.py:95-109 | A dashed date with a year of 100 or more reads as itself. |
| Reviews.ParseDateYears | scripts/naver_review_crawler.py:103-114 | A two-digit year is taken as 20xx, and a bare month and day take the current year. |
| Reviews.InRangeSpec | scripts/naver_review_crawler.py:199-219 | A readable date is in range exactly when no given bound excludes it. |
| Reviews.InRangeLenient | scripts/naver_review_crawler.py:199-219 | An empty or unreadable date counts as in range. |
| Reviews.InRangeDashed | scripts/naver_review_crawler.py:199-219 | For padded dates, the period check is string order. |
| Reviews.IsNegativeIff | scripts/naver_review_crawler.py:222-237 | A review is negative exactly when a phrase occurs in its content or in one of its tags. |
| Reviews.IsNegativeIgnoresCase | scripts/naver_review_crawler.py:224-236 | The classifier ignores letter case. |
| Reviews.MergeKeeps | scripts/naver_review_crawler.py:535-558 | The merge keeps every stored review, adds exactly the appended ones and reports how many were added. |
| Reviews.MergeAddsFresh | scripts/naver_review_crawler.py:545-550 | Every added review has an id that was not stored. |
| Reviews.MergeNewestFirst | scripts/naver_review_crawler.py:552-556 | Merged reviews are ordered newest first by visit or write date. |
| Reviews.TallyCounts | scripts/naver_review_crawler.py:580-619 | Each statistic counts the dated reviews in its window, and the negative count counts the dated negative reviews. |
| Reviews.StatsWindows | scripts/naver_review_crawler.py:601-615 | Last and this week together cover 14 days, last and this month 60. Today and yesterday fall within this week, which falls within this month. |
| Reviews.UndatedSkipped | scripts/naver_review_crawler.py:584-591 | An undated or unreadable review changes no statistic. |
| Reviews.ChangeSpec | scripts/naver_review_crawler.py:622-625 | `calc_change` is 100 or 0 from a zero base. Otherwise it is the percentage change, signed like the difference. |
| Reviews.NegativeCountSpec | scripts/naver_review_crawler.py:517-524 | A store's negative count counts its flagged visitor and blog reviews. |
| Reviews.NegativeCountClassified | scripts/naver_review_crawler.py:517-524 | When flags come from the classifier, the count is the classifier's count. |
| Reviews.StatsNegativeBound | scripts/naver_review_crawler.py:617-619 | The negative statistic never exceeds the flagged reviews. |
| AdsCollect.Collect | scripts/naver_ads_api.py:157-194 | The collector lists every ad group and keyword tagged with owner names, the distinct keyword texts, and counts including the active keywords. |
| AdsCollect.QueryTextsDistinct | scripts/naver_ads_api.py:182-186 | The query list is built from the first occurrence of each non-empty text. |
| AdsCollect.ActiveCountSpec | scripts/naver_ads_api.py:188-189 | The active count counts unlocked keywords. |
| AdsCollect.KeywordTextsSpec | scripts/naver_ads_api.py:182-186 | The query list holds each non-empty keyword text once, in first-seen order. |
| AdsCollect.ActivePartition | scripts/naver_ads_api.py:188-194 | Active and locked keywords partition the keywords. |
| AdsCollect.KeywordTotal | scripts/naver_ads_api.py:166-194 | The keyword count is the sum of the ad groups' keyword counts. |
| AdsCollect.KeywordsTagged | scripts/naver_ads_api.py:166-180 | Every keyword is tagged with its own campaign and ad group names. |
| AdsCollect.KeywordStatsSpec | scripts/naver_ads_api.py:215-226 | A keyword's statistics come from the last reply entry naming it, with volumes parsed. |
| AdsCollect.KeywordStatsKeys | scripts/naver_ads_api.py:215-217 | Only non-empty keywords named in the reply get statistics. |
| AdsDashboard.FindAdgroup | docs/ads.js:283 | `find` yields a group with the id, or nothing exactly when none has it. |
| AdsDashboard.FindAdgroupFirst | docs/ads.js:283 | `find` yields the first group with the id. |
| AdsDashboard.FiltersSubseq | docs/ads.js:271-311 | Every filter keeps an order-preserving sub-list, and an empty filter keeps everything. |
| AdsDashboard.CampaignIff | docs/ads.js:281-286 | The campaign filter keeps exactly the keywords whose first matching ad group is in the campaign. |
| AdsDashboard.StatusIff | docs/ads.js:292-296 | "active" keeps the unlocked keywords and "paused" the locked ones. |
| AdsDashboard.SearchIff | docs/ads.js:298-305 | The search keeps the keywords whose lower-cased fields contain the lower-cased term. |
| AdsDashboard.FilteredFromKeywords | docs/ads.js:271-311 | A shown keyword satisfies every active filter. |
| AdsDashboard.SortKeywordsSpec | docs/ads.js:313-353 | The sort is a permutation ordered by the chosen column and direction, and an unknown column keeps the order. |
| AdsDashboard.VisibleRows | docs/ads.js:271-311 | The rows shown are exactly the rows the filters keep. |
| AdsDashboard.HandleSort | docs/ads.js:355-365 | Clicking the current column flips the direction, and a new column starts ascending for text columns and descending for numbers. |
| AdsDashboard.SelectAll | docs/ads.js:580-593 | Select-all selects exactly the visible keywords, and clearing selects none. |
| AdsDashboard.BidInput | docs/ads.js:479-495 | An edit records a bid exactly when it is a non-zero value different from the current one. Other keywords are untouched. |
| AdsDashboard.BidInputUndo | docs/ads.js:479-495 | Typing the original bid back removes the pending edit. |
| AdsDashboard.SaveAfterInput | docs/ads.js:640-646 | Saving is enabled after a real edit and disabled when the only edit is undone. |
| AdsDashboard.ApplyBulkBid | docs/ads.js:611-624 | A bulk bid below 70 is refused, and otherwise sets every selected keyword's bid. |
| AdsDashboard.ApplyBulkBidIdempotent | docs/ads.js:611-624 | Applying the same bulk bid twice is the same as once. |
| AdsDashboard.Clamp | docs/ads.js:626-638 | Bids are clamped to 70..100000 and in-range bids are kept. |
| AdsDashboard.Adjusted | docs/ads.js:626-638 | An adjusted bid is within range and a multiple of 10. |
| AdsDashboard.AdjustBulkBid | docs/ads.js:626-638 | Adjusting touches exactly the selected visible keywords, giving each a rounded, clamped bid. |
| AdsDashboard.AdjustedIdentity | docs/ads.js:626-638 | A multiplier of 1 keeps a valid bid. |
| AdsDashboard.AdjustedMonotone | docs/ads.js:626-638 | A larger multiplier never gives a smaller bid. |
| AdsDashboard.RecommendSpec | docs/ads.js:967-981 | Without a rank-3 bid there is no advice. Inside 80%–150% of it the bid is adequate; below, raise; above, lower. |
| AdsDashboard.LowerTarget | docs/ads.js:974-976 | The lowered bid (120% of rank 3) is adequate and below a bid above 150%. |
| AdsDashboard.RecommendSettles | docs/ads.js:967-981 | Following a recommendation makes the bid adequate. |
| AdsDashboard.SuggestionRowsSpec | docs/ads.js:912-926 | The suggestion table lists exactly the visible keywords with data, by search volume, largest first. |
| SalesDashboard.Lookup | docs/sales.js:47-49 | Forward mapping yields a mapped name, or nothing exactly when unmapped. |
| SalesDashboard.ReverseLookup | docs/sales.js:52-54 | Reverse mapping yields an order name, or nothing exactly when unmapped. |
| SalesDashboard.MappingInjective | docs/sales.js:27-44 | The store mapping is one-to-one. |
| SalesDashboard.StoreNamesRoundTrip | docs/sales.js:27-54 | Mapping an order name to POS and back returns it, and unmapped names pass through. |
| SalesDashboard.PosNamesRoundTrip | docs/sales.js:27-54 | Mapping a mapped POS name to order and back returns it. |
| SalesDashboard.WeekOf | docs/sales.js:276-284 | Only the empty text has no key. Any other text either gets the invalid date's NaN week or a year in 0..9999. From year 100 on the week number is in 1..54; below 100 it is negative. |
| SalesDashboard.StandardDashed | docs/sales.js:277 | `new Date` reads the `YYYY-MM-DD` rendering of every valid date as that date. |
| SalesDashboard.InvalidDateKey | docs/sales.js:277-283 | A non-empty text `new Date` cannot read gets the key "NaN-WNaN". |
| SalesDashboard.WeekOfDashed | docs/sales.js:276-284 | A dashed date's week is its year and Sunday-week number. That number is negative for years below 100. |
| SalesDashboard.KeyOfInjective | docs/sales.js:283 | Distinct weeks, with negative week numbers and the NaN week included, have distinct key texts. |
| SalesDashboard.WeekKeyInjective | docs/sales.js:276-284 | Two date texts have the same week key exactly when they have the same week, the NaN week included. |
| SalesDashboard.WeekListSpec | docs/sales.js:250-273 | The week list has each date's week once, the NaN week included exactly when some non-empty date is unreadable. Without the NaN week it is strictly newest first. |
| SalesDashboard.PeriodDaysSpec | docs/sales.js:303-309 | No period keeps every day; otherwise exactly the days in the period are kept, in order. |
| SalesDashboard.InvalidWeekKeepsUnreadDays | docs/sales.js:303-309 | The "NaN-WNaN" week keeps exactly the non-empty days that `new Date` cannot read. |
| SalesDashboard.DetailRows | docs/sales.js:312-336 | With a store selected, only its rows are counted. |
| SalesDashboard.TallySpec | docs/sales.js:312-336 | Per-store totals cover each store code once, in first-seen order, summing its rows. |
| SalesDashboard.StoreListSpec | docs/sales.js:312-336 | The store list has one entry per code, with that code's sums. |
| SalesDashboard.SelectedStoreOnly | docs/sales.js:315-320 | Selecting a store lists only that store. |
| SalesDashboard.FindByName | docs/sales.js:341-343 | `find` by name yields a row with the name, or nothing exactly when none has it. |
| SalesDashboard.DailyViewSpec | docs/sales.js:339-360 | Without a store the days pass through, and with one each day shows that store's figures. |
| SalesDashboard.Summarize | docs/sales.js:363-369 | The summary sums each column over the days and counts them. |
| SalesDashboard.OrderByPosSpec | docs/sales.js:658-685 | A POS store has an order total exactly when some mapped order store has positive orders in the period, and the total is their sum. |
| SalesDashboard.Rate | docs/sales.js:692-705 | The order rate is orders as a percentage of sales, and 0 without sales. |
| SalesDashboard.RateRowsSpec | docs/sales.js:692-705 | Exactly the stores with sales or orders get a row, one per listed store, ordered by rate, highest first. |
| SalesDashboard.RateBandsDescend | docs/sales.js:797-799 | Down the rate table (sorted at docs/sales.js:705), the band of the rows with orders never rises: high rows come before mid rows, and mid rows before low rows. |
| SalesDashboard.RateDisplay | docs/sales.js:797-799 | A row without orders is unmatched. Otherwise the rate is high from 40%, low below 30%, and mid between. |
| SalesDashboard.HandleSort | docs/sales.js:865-878 | Clicking the current column flips the direction, and a new column starts ascending only for the name. |
| SalesDashboard.StoreTableSpec | docs/sales.js:816-862 | The table shows exactly the matching stores, ordered by the chosen column and direction. |
| ReportDashboard.RoundTenths | docs/app.js:265 | `toFixed(1)` lands within a twentieth of the value and keeps its sign. |
| ReportDashboard.RoundTenthsSign | docs/app.js:265-266 | The rounded change is positive from +0.05 and negative from -0.05. |
| ReportDashboard.Growth | docs/app.js:265 | Growth is the change as a percentage of the previous total. |
| ReportDashboard.ChangeFrom | docs/app.js:264-265 | A row has a number exactly when the previous total is non-zero. It is not a number exactly when both totals are zero. |
| ReportDashboard.PeriodChanges | docs/app.js:262-266 | The first row has no previous row, and each later row is compared with the one before. |
| ReportDashboard.ChangeTrendIff | docs/app.js:262-299 | A row is marked rising exactly when it grew by at least 0.05%, and falling when it shrank that much. After a zero total the sign decides. |
| ReportDashboard.FirstRowPlain | docs/app.js:264-266 | The first row is never marked. |
| ReportDashboard.Share | docs/app.js:312 | A store's share is its percentage of the total, and 0 without a positive total. |
| ReportDashboard.ShareWhole | docs/app.js:312 | The whole total is a 100% share. |
| ReportDashboard.ShareAdd | docs/app.js:312 | Shares add up. |
| ReportDashboard.Lines | docs/app.js:311-321 | Each line has its rank and the store's share. |
| ReportDashboard.RatioTotalScaled | docs/app.js:307-312 | The listed shares add up to the share of the listed total. |
| ReportDashboard.StoreTableSpec | docs/app.js:413-419 | A searched table lists matching stores, ranked from 1, with shares adding up to 100% (0 without sales). |
| ReportDashboard.SearchStoresSpec | docs/app.js:413-419 | The store search keeps exactly the stores whose lower-cased name contains the lower-cased term. |
| ReportDashboard.CardTrendOfHistory | docs/app.js:336-337 | A card is up exactly when the last price is above the first, and down exactly when below, matching the percentage's sign. |
| ReportDashboard.SearchPricesSpec | docs/app.js:383-390 | The price search keeps exactly the matching cards, in order. An empty query keeps all, and the query's case does not matter. |
| ReportDashboard.SortPricesSpec | docs/app.js:393-410 | Each sort choice is a permutation ordered by its key, and an unknown choice keeps the order. |
| ReportDashboard.SortPricesIdempotent | docs/app.js:393-410 | Sorting twice by the same choice is sorting once. |

## Left out

- Browser rendering, charts, modals and tabs (`docs/*.js` rendering code) are left out: only the data each view computes is modelled.
- Selenium and BeautifulSoup scraping (`setup_driver`, logins, page navigation, "more" clicking) are left out: they are I/O. The tables they read are inputs.
- File and JSON I/O (`load_*`, `save_*`, `save_csv`) are left out: the model works on the decoded values. For the order crawler's file split, only the name each group is written under and which group a file ends up holding are modelled (SajoOrders.WriteFiles). The CSV encoding itself is not.
- The search-ad API's HMAC request signing and HTTP calls are left out: they are foreign calls. Campaigns, ad groups, keywords and the volume reply are inputs.
- The review id (an MD5 of review fields) is left out: a review's id is an input field.
- The wall clock is a parameter: the review statistics' "today" and the current year of month-day dates.
- `docs/ai-chat.js` and `docs/review.js` are not part of this model.
- `new Date("YYYY-MM-DD")` is UTC midnight of that day, but `getFullYear`, `getDay` and `new Date(year, 0, 1)` read and build local time (docs/sales.js:278-282). The week key is modelled for time zones at or east of UTC, such as Korea's, where the local date is the date written in the string. West of UTC the source gives the previous day's week, so "2024-01-01" gets a 2023 key there.
- Calendar.JsWeekCountsSundayWeeks: the week number lies in 1..54 only from year 100 on. For years 0..99, `new Date(year, 0, 1)` builds a day in 1900+year, and the number is negative.
- SalesDashboard.WeekOf: a week's year can be 0..99, with a negative week number (see Calendar.JsWeekCountsSundayWeeks), and the key can be "NaN-WNaN". `new Date` is fixed by the ECMAScript standard only for its date-time string format. The model reads the `YYYY-MM-DD` form of a real day as that day. Any other text (such as "2024/01/05") goes to the engine's parser, which is a parameter. That parameter yields a day in years 0..9999 or nothing. Engines that read other years, or times of day, are not modelled.
- SalesDashboard.WeekList: with the NaN week present the comparator is inconsistent, and the ECMAScript standard leaves the order to the engine. That order is a parameter (a ranking of weeks), so only the list's contents are stated then.
- Reviews.ParseDate: reads the value of every digit run. Python's `int()` would raise past 4300 digits.
- ReportDashboard.PeriodChanges: the report generator never writes `weekly` or `monthly` (generate_report.py), so with its output the period tables are empty. The model states how they would be computed.
- Locale collation (`localeCompare(.., 'ko')`) is a parameter: any total preorder.
- Case folding covers ASCII letters only, because the names are Korean and Korean has no case.
- JSON `null` and missing fields are read as `""`, 0 or `false` where the source's `.get(.., default)` or `|| 0` does the same.
- Floating point is left out: percentages and shares are exact reals.
- JSON NaN and Infinity are left out: a JSON float is an exact real in `PyNum.Scalar`, so these values cannot be represented. Python's `json` would read them. Then `int(value)` in `parse_int` raises ValueError for NaN and OverflowError for Infinity (generate_sales_report.py:33-34), and the try at generate_report.py:104-108 catches only the first. The crawlers never write these values.
- The "store" field of a price history point is left out: `PriceAnalysis.PricePoint` keeps the date and price only. Each point carries the store (generate_report.py:143-147), but no view reads it.
- Rounding of percentages is left out because it works on binary floating point. This covers Python's `round(.., 2)` on `change_pct` (generate_report.py:47, sajo_crawler.py:297), `round(.., 1)` in `calc_change` (scripts/naver_review_crawler.py:625), and `toFixed(1)` on card and store percentages. The exact values are modelled.
- PriceAnalysis.RankOrdered: orders by the exact absolute percentage. The source sorts by the value already rounded to 2 places, so products whose changes round alike keep their input order there. For example, 100000 → 100011 and 100000 → 100014 both round to 0.01%.
- OrderReport.AnalyzeChangesOrdered: the same holds for the order report's change list. Its order is proved for the exact percentages, not for the rounded sort key.
- OrderReport.PriceChangesCapped: which changes make the 300-entry cut is proved for the exact percentages. With the rounded key, near-ties at the cut can fall the other way.
- SajoOrders.ExportOrdered: the price-change export is ordered by the exact percentage, not by the rounded `변동률` the crawler sorts on.
- SajoOrders.GroupByKeys: states the groups, not the files. Names that sanitize alike ("a/b" and "a_b") share one file, and `save_csv` overwrites it (SajoOrders.CollidingKeysOverwrite). The files equal the groups only under SajoOrders.SafeKeyFiles' condition.
- SajoOrders.GroupByCovers: every record is in its key's group, but its file can be overwritten by a later group with a colliding name.
- SajoOrders.GroupBySizes: the groups hold every record once; the files need not, because of colliding names.
- SajoOrders.ProductFileSorted: states the product group. Product file names can collide through the sanitizer, the `()` replacement and the 80-character cut (SajoOrders.LongProductKeysCollide). The files equal the groups only under SajoOrders.SafeProductFiles' condition.
- SajoOrders.ByRecordDate: a record without a date sorts as "". The crawler would raise `KeyError` there, but collected records always carry a date (SajoOrders.CollectedComplete).
- PyNum: Python's `int(text)` is modelled after CPython 3.12 with the default 4300-digit limit. Setting the limit through `PYTHONINTMAXSTRDIGITS` or `sys.set_int_max_str_digits` is not modelled. Decimal digits and whitespace follow Unicode 15.0.
- ReportDashboard.RoundTenths: only the distance bound and the sign are stated, not the half-way tie rule of `toFixed`.
- KisSales.MergeCount: only the merged length and multiset are stated. Merge order is given by KisSales.MergeSorted.
- The ad dashboard's `applyChanges` only reports the pending edits; sending them is not part of the source. The store select, default period and top-10 chart of the sales dashboard are rendering.
- SalesDashboard: only the monthly and weekly period types are modelled; the source offers no other type.
- Dictionary key order in JSON output is left out where nothing downstream depends on it (for example the order report's `store_details`).
- SalesDashboard.TallySpec: JavaScript's `Object.values` lists integer-like keys first, in numeric order, before other keys in insertion order. The model keeps every store code in first-seen order; the two agree unless a store code is a canonical integer.
- KisSales: a JSON `null` date or shop code is treated like a missing one, and both sort as `""`. With a `null` among string dates, Python's sort would raise `TypeError` instead.
- AdsDashboard.BidInput: the row's original bid is a number; an original that `parseInt` reads as `NaN` is not modelled.
