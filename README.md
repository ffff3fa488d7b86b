# hh-parser run engine in Dafny

This project models the run-processing engine of hh-parser, a scraper of
vacancy listings on hh.ru. The engine exists in two copies:

- The class-based copy in `hh_parser/lib/parser.py`:
  - `HhParser` builds the page URLs from a parameter dictionary, fetches every
    result page, extracts one record per listing block and tabulates the run.
  - `HhParserResultsProcessor` turns the run's table into four tables:
    - `parsing_results`: the statistics of the run;
    - `current_jobs`: the ranking;
    - `unique_jobs`: the new vacancies;
    - `unique_closed_jobs`: the vacancies that disappeared, with their lifetime in days.
- The older flat copy:
  - `lib/data_fetcher.py` does the fetching;
  - `lib/data_etl.py` computes the same tables and writes them, in order, to the
    snapshot database.

Code that both copies share modulo naming is modelled once, in shared modules:

- `Salary`: the salary-text branch chain.
- `RunStats`: the min/max pools, the mean and median, and the missing-salary share.
- `Ranking` and `Sorting`: the sort by `(mean, max, min)` descending and the row numbering.
- `Reconcile`: the outer-join-and-filter reconciliation against the stored tables.
- `PublicationDate`: the Russian month-name date normaliser.
- `Extraction`: the record defaults of `_get_data_from_divs`.
- `RunTable`: the empty-result check, the date column and the sort by date.
- `Calendar`: `strptime('%d.%m.%Y')` and `toordinal()` day numbers.
- `PyStr`: Python `str.split`, `join`, `replace`, `int()` and `str()`.

Three modules hold what each copy does on its own, together with lemmas that
relate the copies:

- `HhParserEngine` for `parser.py`;
- `DataFetcher` for `data_fetcher.py`;
- `DataEtl` for `data_etl.py`.

Some code that changes state in place is modelled imperatively:

- the loops that fill the pools and the salary columns;
- the date-normaliser loop, which rewrites tokens in place;
- the page-URL loops;
- the extraction loop;
- the in-place sort of an array;
- the `HhParserResults` object being filled;
- the sequence of table writes in `set_etl_data_to_bd`.

Each of these methods is proved against a specification function, and the
properties are proved about those functions.

Several parts of the environment become parameters:

- The web site is a function from URL to `Option<Page>`; `None` is a failed request.
- A page is its pager labels and its regular and premium listing blocks.
- The clock is a `DateTime` value.
- The user's title regex is a predicate `string -> bool`.
- `quote(search_text)` is a given string.
- The stored tables are what `get_table` read: `Missing` or some rows.

## Model

| member | source | states |
|---|---|---|
| Salary.Classify | hh_parser/lib/parser.py:319-340 | The salary branch chain, tried in the source's order: a first token "от" or "до" reads the second token, a first token with one `-` is a range, the exact text "Не указано" is unspecified, and anything else is a fixed amount. It fails with `MissingToken` where `split()[0]` or `split()[1]` raises and with `NotAnInteger` where `int()` raises. The statistics loop at lines 269-287 runs the same chain. |
| Salary.PathsAgreeExceptOpenEnded | hh_parser/lib/parser.py:269-288 | The ranking path and the statistics path agree on ranges and fixed values. "от N" ranks as (N, N) but feeds only the min pool. "до N" ranks as (0, N) but feeds only the max pool. "Не указано" ranks as (0, 0) and feeds neither pool. The same holds in lib/data_etl.py:70-88 and 135-156. |
| Salary.ClassifyRendered | hh_parser/lib/parser.py:319-340 | Every salary family is recovered from its canonical text followed by any whitespace-led suffix. The marker is recovered only when exactly the marker is given. |
| Salary.ClassifyOpenEnded | hh_parser/lib/parser.py:321-327 | "от N …" classifies as From(N) and "до N …" as UpTo(N), for every integer N. |
| Salary.ClassifyFork | hh_parser/lib/parser.py:329-332 | A first token "A-B" classifies as Fork(A, B). |
| Salary.ClassifyMarker | hh_parser/lib/parser.py:334-336 | "Не указано" classifies as NotSpecified. |
| Salary.ClassifyFixed | hh_parser/lib/parser.py:338-340 | A first token "N" classifies as Fixed(N). |
| Salary.NotSpecifiedIffMarker | hh_parser/lib/parser.py:334 | A text classifies as NotSpecified exactly when it equals "Не указано". |
| Salary.ClassifyRejectsWord | hh_parser/lib/parser.py:339 | A first word that is not a keyword, not a range and not an integer raises the `int()` error for that word. |
| Salary.ClassifyRejectsBareKeyword | hh_parser/lib/parser.py:321-322 | A bare "от" or "до" raises at `split()[1]`. |
| PyStr.SplitWhitespace | hh_parser/lib/parser.py:271 | `split()`: the maximal runs of non-whitespace characters, in order. No token is empty or holds whitespace. |
| PyStr.SplitOn | hh_parser/lib/parser.py:277 | `split(sep)` for one character: at least one part, and no part holds `sep`. |
| PyStr.JoinSplitOn | hh_parser/lib/parser.py:175 | Joining the parts of `split(c)` with `c` gives the text back. |
| PyStr.ParseInt | hh_parser/lib/parser.py:272 | `int()` of a text: optional surrounding whitespace, an optional sign, and decimal digits with single underscores between digits. `None` where Python raises `ValueError`. |
| PyStr.IntToStr | hh_parser/lib/parser.py:183 | `str()` of an integer: a `-` for a negative number, then the decimal digits, most significant first. |
| PyStr.ParseIntOfIntToStr | hh_parser/lib/parser.py:183-184 | `int()` reads back every integer that `str()` writes. |
| Calendar.DayNumberMonotone | hh_parser/lib/parser.py:392 | A date that is earlier has a smaller day number, so day differences follow calendar order. |
| Calendar.ParseDayMonthYear | hh_parser/lib/parser.py:184 | What `strptime('%d.%m.%Y')` accepts is always a valid calendar date. |
| Calendar.ParseFormattedDate | hh_parser/lib/parser.py:184 | Every valid date with a four-digit year reads back from its `dd.mm.YYYY` text. |
| PublicationDate.DateDictIsMonths | hh_parser/lib/parser.py:161-174 | The k-th genitive month name maps to the two-digit text that `%m` reads as k. |
| PublicationDate.DateDictKeys | hh_parser/lib/parser.py:161-174 | The dictionary's keys are exactly the twelve month names. |
| PublicationDate.TranslateMonths | lib/data_fetcher.py:121-126 | A month name becomes its two-digit number. Every other token is left unchanged. |
| PublicationDate.TranslateAll | hh_parser/lib/parser.py:175-180 | The in-place token rewrite translates each token by itself, keeping the count and the order. |
| PublicationDate.ProcessDate | hh_parser/lib/parser.py:155-187 | The loop, the year append and the fallback to the previous year compute the normalised date. The result fails exactly where `strptime` raises. |
| PublicationDate.NormalisedDate | hh_parser/lib/parser.py:155-187 | The normalised date: the text split on spaces, month names replaced by their numbers, and the clock's year appended; the previous year is used instead when that date is after the clock. It is `None` exactly when the text with the current year is not a `d.m.Y` date, where `strptime` raises. `lib/data_fetcher.py:101-134` is the same function. |
| PublicationDate.ParsedYearIsAppended | hh_parser/lib/parser.py:183 | When the joined text parses, its year is the year that was appended. |
| PublicationDate.NeverAfterClock | lib/data_fetcher.py:129-131 | A normalised date that still parses is never after the clock's date. |
| PublicationDate.ListingTokens | lib/data_fetcher.py:121-126 | A listing date "D month" splits and translates to `[str(D), mm]`. |
| PublicationDate.RecoversRecentDate | lib/data_fetcher.py:121-134 | The normaliser recovers exactly the publication date when one of these holds: the date is in the clock's year and not after the clock; or the date is in the previous year, its day and month form a valid date in the clock's year (so not 29 February before a non-leap year), and that date is after the clock. The clock's year is at least 1001, so `%Y` reads it. |
| PublicationDate.FallbackNotRevalidated | lib/data_fetcher.py:130-131 | The previous-year fallback is not checked again. "29 февраля" seen on 2024-02-10 gives the string "29.02.2023", which is not a date. |
| Extraction.PageCount | hh_parser/lib/parser.py:89-90 | The page count is the integer on the last pager label. It fails when there are no labels or when the last label is not an integer. |
| Extraction.Company | hh_parser/lib/parser.py:200-201 | A missing employer becomes "Не определено"; a present one is kept as is. |
| Extraction.SalaryText | hh_parser/lib/parser.py:206-207 | A salary text holds no non-breaking space. A missing compensation becomes "Не указано". |
| Extraction.DateText | hh_parser/lib/parser.py:203-204 | The publication-date text given to the normaliser holds no non-breaking space. |
| Extraction.Kept | hh_parser/lib/parser.py:196-198 | The blocks kept are exactly those whose title passes the title check. |
| Extraction.DataFromDivs | hh_parser/lib/parser.py:189-211 | The extraction loop computes the specified records, or fails where the date normaliser raises. |
| Extraction.DataOf | hh_parser/lib/parser.py:194-211 | The records of the blocks, in order: blocks whose title fails the title check are skipped, and each kept block gives one record with its normalised date. It is `None` from the first kept block whose date does not normalise. |
| Extraction.RecordsOfKeptBlocks | lib/data_fetcher.py:144-176 | Each kept block gives one record, in page order. The record carries the block's title and link, the company or its default, the cleaned salary or its default, and the normalised date. |
| Extraction.DataOfFailsIff | lib/data_fetcher.py:161-163 | Extraction fails exactly when some kept block's date does not normalise. |
| Extraction.RecordsAreClean | lib/data_fetcher.py:149-170 | Every record's title passes the title check, and no record's salary holds a non-breaking space. |
| Extraction.DefaultSalaryIsMarker | lib/data_fetcher.py:166-167 | The default salary of a block without compensation classifies as NotSpecified. |
| RunStats.FillPools | hh_parser/lib/parser.py:269-288 | The pool loop gives the specified pools, or the first failing row's error. |
| RunStats.SalaryStatsOf | hh_parser/lib/parser.py:289-293 | The run's four statistics: the mean and median of both pools together, then the mean of each pool. It fails with the first unclassifiable row's error, and with `EmptyPool` where either pool is empty, which gives pandas a NaN. |
| RunStats.FindSalaryMeanAndMedian | hh_parser/lib/parser.py:265-299 | The four statistics of the run are specified over its pools. The same function is at lib/data_etl.py:60-104. |
| RunStats.ClassifyAllOkIff | hh_parser/lib/parser.py:269-288 | The run's rows classify without error exactly when each row's salary text classifies. The families are then those of the rows, in order. |
| RunStats.ClassifyAllFailsAtFirst | hh_parser/lib/parser.py:269-288 | The loop stops with the error of the first row whose text does not classify. |
| RunStats.MinPoolMembers | hh_parser/lib/parser.py:271-287 | The min pool holds exactly the low bounds of the from, range and fixed rows. |
| RunStats.MaxPoolMembers | hh_parser/lib/parser.py:274-288 | The max pool holds exactly the high bounds of the up-to, range and fixed rows. |
| RunStats.MinPoolEmptyIff | hh_parser/lib/parser.py:271-287 | The min pool is empty exactly when no row feeds it. |
| RunStats.MaxPoolEmptyIff | hh_parser/lib/parser.py:274-288 | The max pool is empty exactly when no row feeds it. |
| RunStats.StatsNeedRows | hh_parser/lib/parser.py:289-293 | Statistics exist only for a non-empty run all of whose salary texts classify. |
| RunStats.EmptyPoolIff | hh_parser/lib/parser.py:290-293 | For a classifiable run, the statistics fail on an empty pool exactly when no row feeds the min pool or no row feeds the max pool. |
| RunStats.SalaryMeanIsWeighted | hh_parser/lib/parser.py:289-293 | `salary_mean` over `min ++ max` is the size-weighted mean of `min_salary_mean` and `max_salary_mean`. |
| RunStats.CombinedMean | hh_parser/lib/parser.py:289-290 | The mean of two concatenated pools is the size-weighted mean of their means. |
| RunStats.StatsWithinBounds | lib/data_etl.py:91-97 | All four statistics lie within any bounds of the pooled salaries. |
| RunStats.MeanBounds | hh_parser/lib/parser.py:290 | A mean lies within any bounds of its pool. |
| RunStats.MedianBounds | hh_parser/lib/parser.py:291 | A median lies within any bounds of its pool. |
| RunStats.MedianIgnoresOrder | hh_parser/lib/parser.py:291 | The median depends only on the multiset of pooled values. |
| RunStats.SortAscSorted | hh_parser/lib/parser.py:291 | The median's ascending order is sorted and a permutation of the pool. |
| RunStats.SortedUnique | hh_parser/lib/parser.py:291 | Two ascending sequences with the same elements are equal. |
| RunStats.JobsWithoutSalaryPercent | hh_parser/lib/parser.py:258-263 | The share lies between 0 and 100. It is 0 exactly when no row is "Не указано" and 100 exactly when every row is. The same function is at lib/data_etl.py:45-58. |
| RunStats.MarkerCountNoneIff | hh_parser/lib/parser.py:260 | The count of "Не указано" rows is 0 exactly when no row has that text. |
| RunStats.MarkerCountAllIff | lib/data_etl.py:52 | The count of "Не указано" rows equals the row count exactly when every row has that text. |
| RunStats.MarkerRowsAreUnspecified | hh_parser/lib/parser.py:282-283 | The rows the percentage counts are exactly the NotSpecified rows, which the pools skip. |
| Ranking.RankKeyOrdersByMean | hh_parser/lib/parser.py:344-345 | Comparing the integer key compares `(mean_salary, max_salary, min_salary)` lexicographically. |
| Ranking.RankedRowsMatch | hh_parser/lib/parser.py:319-343 | Rows built from the classification of their own texts carry the key those texts give. |
| Ranking.FillColumns | hh_parser/lib/parser.py:319-340 | The column loop, for any classifier, fails exactly at the first failing row. Otherwise it gives each row the `(min, max)` of its family. |
| Ranking.SalaryColumns | lib/data_etl.py:135-158 | The column loop fails exactly when the run does not classify, with the first error. Otherwise row k gets the ranking bounds of its family. |
| Ranking.SortAndNumber | hh_parser/lib/parser.py:344-346 | The output is a permutation of the rows, sorted with the highest key first, and numbered 1..n. |
| Ranking.RankAndNumber | lib/data_etl.py:160-162 | The same rows, highest salary key first, numbered 1..n in order. |
| Ranking.Numbered | hh_parser/lib/parser.py:346 | Row k of the output is numbered k + 1 and keeps the k-th vacancy. |
| Ranking.RankingTopIsMax | hh_parser/lib/parser.py:345 | The first row of a ranking has the highest salary key of the run. |
| Ranking.GetCurrentJobs | hh_parser/lib/parser.py:314-348 | `current_jobs` fails exactly when some text does not classify, with the first error. Otherwise it is a permutation of the run, sorted by key descending and numbered 1..n. The same function is at lib/data_etl.py:124-165. |
| Sorting.SortDescending | hh_parser/lib/parser.py:345 | The in-place sort leaves the array sorted by key, descending, and a permutation of what it held. |
| Sorting.ProjectPermutation | hh_parser/lib/parser.py:347 | Rearranging rows rearranges each selected column the same way. |
| Reconcile.RowsOrEmpty | hh_parser/lib/parser.py:354-357 | A missing stored table reads as no rows; an existing one reads as its rows. |
| Reconcile.NewUnique | hh_parser/lib/parser.py:375-381 | The new unique rows are exactly the run's rows whose href the stored table lacks, each with the publication date the run read for it. |
| Reconcile.ClosureCandidates | hh_parser/lib/parser.py:383-392 | Each stored row whose href the run lacks is closed on the run's day, and nothing else is. |
| Reconcile.NewClosed | hh_parser/lib/parser.py:394-413 | The new closures are exactly the candidates whose href the stored closed table lacks. Rows found only in that table are never emitted. |
| Reconcile.ClosureFields | hh_parser/lib/parser.py:386-392 | A closure keeps the stored publication date and closes on the run's day. Its `date_diff` is the difference in days. Its href is stored but gone from the run. |
| Reconcile.Close | hh_parser/lib/parser.py:386-392 | The closure of a stored row: its href and publication date, closed on the run's day, with `date_diff` the number of days between the two. |
| Reconcile.LifetimeNonNegative | hh_parser/lib/parser.py:392 | A vacancy published no later than the run has a non-negative lifetime. |
| Reconcile.ColdStart | hh_parser/lib/parser.py:354-358 | With nothing stored, every row of the run is new and nothing closes. |
| Reconcile.NewClosedOfEmpty | hh_parser/lib/parser.py:396-408 | With no closed table stored, every candidate is emitted. |
| Reconcile.NewUniqueIdempotent | lib/data_etl.py:184-186 | Once the new rows are stored, the same run finds nothing new. |
| Reconcile.NewClosedIdempotent | lib/data_etl.py:235-240 | Once the new closures are stored, the same candidates add nothing. |
| Reconcile.ClosuresIgnoreNewRows | lib/data_etl.py:248-251 | Computing closures from `unique_jobs` after the new unique rows were appended gives the same closures as from the table before the write. |
| Reconcile.UniqueTableStaysDistinct | lib/data_etl.py:250 | Appending the new unique rows keeps the stored table free of repeated hrefs, if the run shows each href once. |
| Reconcile.ClosedTableStaysDistinct | lib/data_etl.py:251 | Appending the new closures keeps the closed table free of repeated hrefs, when the stored `unique_jobs` holds each href once. |
| Reconcile.StoredHrefsAfterRun | lib/data_etl.py:250 | After a run is stored, `unique_jobs` knows every href it knew and every href the run showed. |
| RunTable.PageRecords | hh_parser/lib/parser.py:117-122 | A page's records are its regular blocks' records followed by its premium blocks' records. It fails only where the date normaliser raises. |
| RunTable.ReadPage | hh_parser/lib/parser.py:114-122 | The two extraction calls on a page compute its specified records. |
| RunTable.ToJob | hh_parser/lib/parser.py:133 | A record's date is read exactly when it is a `d.m.Y` date. The other fields carry over. |
| RunTable.ToJobs | hh_parser/lib/parser.py:133 | The date column is read exactly when every record's date reads, row by row. |
| RunTable.Tabulate | hh_parser/lib/parser.py:128-133 | An empty result stops with "No results found". A non-empty table keeps its length or stops on an unreadable date column. |
| RunTable.SortByDateDescending | hh_parser/lib/parser.py:134 | The rows are a permutation of the table with the latest date first. |
| HhParserEngine.UrlWithParamsReadsBack | hh_parser/lib/parser.py:80 | A URL built from plain parameters splits back into the address and the parameters, key by key. |
| HhParserEngine.UrlWithParams | hh_parser/lib/parser.py:80 | The URL, then `?`, then the `key=value` items in dictionary order, joined with `&`. |
| HhParserEngine.UrlWithParamsInjective | hh_parser/lib/parser.py:80 | Different plain parameter lists give different URLs. |
| HhParserEngine.SetParamTwice | hh_parser/lib/parser.py:93 | Assigning `page` twice leaves only the second value. |
| HhParserEngine.PageList | hh_parser/lib/parser.py:84-94 | The list is the start URL, then the URLs of pages 1 to N. |
| HhParserEngine.CollectPages | hh_parser/lib/parser.py:109-126 | The page loop collects the specified records. The first failed request or bad date stops it. |
| HhParserEngine.Collected | hh_parser/lib/parser.py:109-126 | The records of the listed pages, in order, each page's regular blocks before its premium ones. It fails with `RequestFailed` at the first page that is not answered, or with the first date that does not normalise. |
| HhParserEngine.RunRows | hh_parser/lib/parser.py:101-133 | The unsorted table of a run: build the URL list, collect the pages and tabulate. It fails at the first of these steps that fails. |
| HhParserEngine.HhParserResults.constructor | hh_parser/lib/parser.py:56-69 | A results object holds the data, and every other field is None. |
| HhParserEngine.NewResults | hh_parser/lib/parser.py:138-144 | A new results object holds the sorted table and a copy of the search settings. The processor tables are still unset. |
| HhParserEngine.HhParser.constructor | hh_parser/lib/parser.py:21-40 | The parser stores its settings and the six URL parameters in order, with `page` equal to "0". |
| HhParserEngine.HhParser.UrlsPagesWithVacancies | hh_parser/lib/parser.py:82-99 | It returns the start URL plus pages 1..N, or a failure when the request fails or the pager is unreadable. The object's own `page` parameter is left at N. |
| HhParserEngine.HhParser.Run | hh_parser/lib/parser.py:101-144 | It fails exactly as the specified run does. Otherwise it returns a fresh results object with the run's rows, non-empty and latest first, and with the settings copied in. The object's `page` parameter is left at the last page's number, as the shared parameter dictionary is in the source, and is unchanged where the URL list cannot be built. |
| HhParserEngine.ParsingResultsOf | hh_parser/lib/parser.py:301-311 | `parsing_results` holds the statistics of the run, its share without salary between 0 and 100, and its non-zero row count. |
| HhParserEngine.HhParserResultsProcessor.constructor | hh_parser/lib/parser.py:237-245 | The processor keeps the results object and what was read of the stored tables. |
| HhParserEngine.HhParserResultsProcessor.Run | hh_parser/lib/parser.py:250-256 | It fails exactly when the statistics fail, and then changes nothing. Otherwise it stores `parsing_results`, a ranking of the run, the new unique rows and the new closures into the results object, and returns that object. |
| HhParserEngine.ProcessTables | hh_parser/lib/parser.py:252-255 | The four tables of a run are as specified. Only the statistics can fail, and when they succeed the ranking does too. |
| HhParserEngine.SetPageOfInitial | hh_parser/lib/parser.py:33-40 | Setting `page` on a fresh dictionary replaces its last entry and keeps the order. |
| HhParserEngine.PageUrlsDiffer | hh_parser/lib/parser.py:92-94 | Two different page numbers give two different URLs. |
| HhParserEngine.FreshPageListDistinct | hh_parser/lib/parser.py:84-94 | On a new parser the start URL is page 0, and the page list holds no URL twice. |
| DataFetcher.FetcherPageUrlInjective | lib/data_fetcher.py:52-53 | Formatted page URLs are equal exactly when their page numbers are. |
| DataFetcher.FetcherPageList | lib/data_fetcher.py:51-55 | The list is pages 0..N-1, and at least page 0. |
| DataFetcher.FetcherUrlsFor | lib/data_fetcher.py:41-58 | The URLs visited are never empty and always start with the base URL, whatever the pager shows. |
| DataFetcher.HhParser.constructor | lib/data_fetcher.py:17-25 | The parser keeps its settings. |
| DataFetcher.HhParser.PageUrls | lib/data_fetcher.py:36-58 | The URL loop gives the specified list, base URL first and with no duplicates. |
| DataFetcher.HhParser.Parse | lib/data_fetcher.py:27-86 | It fails only with "No results found" or an unreadable date column. Otherwise the rows are the lenient collection, non-empty and latest first. |
| DataFetcher.PageUrlsAgree | lib/data_fetcher.py:36-37 | The formatted URL equals the class-based copy's URL for the same settings and page. |
| DataFetcher.PageListsAgree | lib/data_fetcher.py:51-55 | The class-based copy's list is this copy's list plus page N, and the lists are equal when N ≤ 0. |
| DataFetcher.CollectedAgree | lib/data_fetcher.py:61-73 | Where the strict copy collects without failing, the lenient copy collects the same records. |
| DataFetcher.FetcherCollected | lib/data_fetcher.py:61-73 | The records of the listed pages, in order. A page that is not answered, or whose extraction raises, adds nothing. |
| DataFetcher.FetcherRows | lib/data_fetcher.py:61-82 | The unsorted table of this copy's run: collect every listed page leniently, then tabulate. |
| DataFetcher.FailedPageSkipped | lib/data_fetcher.py:61-73 | When a listed page's request fails, this copy collects exactly the other pages' records, in order, while the class-based copy stops the run, with `RequestFailed` unless an earlier page already failed. |
| DataFetcher.FailedPageStops | hh_parser/lib/parser.py:109-126 | A listed page whose request fails makes the class-based run fail, with `RequestFailed` unless an earlier page already failed. |
| DataFetcher.FailedPageRun | lib/data_fetcher.py:61-82 | A run of this copy with an unanswered listed page tabulates exactly the other pages' records. |
| DataFetcher.FetcherCollectedAppend | lib/data_fetcher.py:61-73 | The records collected from two URL lists in sequence are those of the first followed by those of the second. |
| DataEtl.ClockPart | lib/data_etl.py:35 | `%m%d_%H%M%S` is 11 characters long. |
| DataEtl.TimestampInjective | lib/data_etl.py:35 | Two clock readings give the same timestamp exactly when they are equal. |
| DataEtl.ReportFileNameShape | lib/data_etl.py:29-35 | The name holds no space. It is the search text with spaces turned into `-`, then `_`, the timestamp and `.xlsx`. |
| DataEtl.ReportFileName | lib/data_etl.py:29-35 | The search text, `_`, the `%Y%m%d_%H%M%S` timestamp and `.xlsx`, with every space turned into `-`. |
| DataEtl.ReportFileNamesDiffer | lib/data_etl.py:35 | For the same search, two names are equal exactly when the clock readings are. |
| DataEtl.SnapshotStore.constructor | lib/data_etl.py:26-27 | The store starts with the two snapshot tables as read, and no rows in the other two tables. |
| DataEtl.ClosuresAfterUniqueWrite | lib/data_etl.py:198-209 | Reading `unique_jobs` again after the unique write gives the same closures. |
| DataEtl.DataEtl.constructor | lib/data_etl.py:16-27 | The processor keeps the run's table, the search text and the store. |
| DataEtl.DataEtl.GetDfForMainTable | lib/data_etl.py:106-122 | The main-table row is the one the class-based copy computes. It fails exactly when the statistics fail. |
| DataEtl.DataEtl.SetEtlDataToBd | lib/data_etl.py:245-251 | It fails exactly when the statistics fail, and then writes nothing. Otherwise it appends the `parsing_results` row, replaces `current_jobs` by a ranking, and appends the new unique rows and the new closures. Those are the class-based copy's tables, computed from the store as it was. If neither snapshot table held an href twice before, and the run shows each href once, neither holds an href twice after. |
| DataEtl.DataEtl.WriteRun | lib/data_etl.py:248-251 | The four writes, in the source's order, produce the tables stated above. |
| DataEtl.DataEtl.StoreCurrentJobs | lib/data_etl.py:249 | `current_jobs` is replaced by a ranking of the run. |
| DataEtl.DataEtl.StoreSnapshotTables | lib/data_etl.py:250-251 | The unique write happens, then the closure write reads it back. Both append what the class-based copy computes, and, if neither table held an href twice before and the run shows each href once, neither holds one twice after. |
| DataEtl.StoreStaysValid | lib/data_etl.py:250-251 | Both snapshot tables stay free of repeated hrefs, if neither held an href twice before and the run shows each href once. |
| DataEtl.SecondStoreAddsNothing | lib/data_etl.py:245-251 | Storing the same run again at the same date appends no unique rows and no closures. |

## Left out

- Floating point and rounding. The means, the median and the percentage are exact reals. Python's `round` is not modelled: banker's rounding to an integer for the statistics, and two decimals for the percentage.
- An empty pool. Its mean is NaN, and `round(NaN)` raises. The model has this as the error `EmptyPool`, not as a precondition.
- An empty run table reaching the processor. `len(df) == 0` would make the percentage divide by zero. `run` and `parse` raise before that can happen, so the model asks for a non-empty table. The statistics then fail on empty pools first.
- Row visiting order in the statistics loops. They read `df.loc[i]` by label on the date-sorted table, which visits rows in extraction order. The model visits them in table order. The pools hold the same values either way, and `MedianIgnoresOrder` shows that the median does not depend on the order. The means are sums over the same values. Which row's error is reported first could differ.
- Join mechanics. The outer merge and the null filter are modelled as membership by href. The row order of pandas output is not modelled: each output keeps the order of the table that drives it. Row duplication caused by repeated hrefs is not modelled either. The distinctness lemmas take a run without repeated hrefs as a hypothesis.
- Dates. `pd.to_datetime(dayfirst=True)` is modelled as `%d.%m.%Y` parsing. Stored and closing dates are day numbers, and `date_diff` is their difference. `%Y` of years below 1000 is written as `str(year)`.
- The clock. The several calls to `datetime.now()` in one run are modelled as one clock value. Comparing `strptime(...)` with `now()` compares the parsed date with today's date.
- The site. It is a deterministic function from URL to page. The first page of `parser.py` is fetched twice, once by the URL generator and once by the page loop, and both fetches see the same page.
- HTML and the title regex. BeautifulSoup lookups are given fields, with `None` where `find` finds nothing for the employer and the salary. The regex is a predicate. A block without a title link, or without a publication-date span, raises `AttributeError` in both copies (hh_parser/lib/parser.py:196, 204; lib/data_fetcher.py:146, 163); the model's blocks always carry both. The href lookups differ. In hh_parser/lib/parser.py:202, `.get('href')` raises nothing, and a link without an href gives a record whose href is `None`, which reaches the table and the merge. In lib/data_fetcher.py:159, `['href']` raises `KeyError`, which the `except` at lib/data_fetcher.py:72-73 turns into dropping the whole page. The model's href is always a string, so neither the `None` href nor the dropped page is modelled.
- `quote()` and text encoding. The percent-encoded search text is a given string. There is no Unicode normalisation. `int()` reads ASCII digits only.
- `__exponential_backoff`. The retries, `time.sleep` and `random` are reduced to one request outcome.
- Timing. `parse_duration`/`time_parse` and the log messages are not modelled.
- The database connectors, the mail clients, `save_report_file` and the report formatting, the configuration and the entry points. The stored tables are inputs and outputs of type `seq`.
- The `try`/`except Exception` of `data_fetcher.parse`. It is modelled as skipping the page or keeping only the base URL. Only the errors the model names, a failed date or pager read, are distinguished.
- Ranking.FillColumns and RunStats.FillPools take the classifier as a parameter. Their wrappers fix it to `Classify`, so the statements hold for the source's branch chain.
