/**
 * The class-based engine: `HhParser` builds the page URLs from a dictionary
 * of query parameters, fetches every page and extracts its records, and
 * `HhParserResultsProcessor` fills the four tables of a run into the
 * `HhParserResults` object. The site is a function from URL to page (`None`
 * for a failed request), the stored tables are what `get_table` read, and the
 * clock is a parameter.
 */
module HhParserEngine {
  import opened Wrappers
  import PyStr
  import opened Calendar
  import opened Jobs
  import Extraction
  import RunStats
  import Ranking
  import Reconcile
  import RunTable

  const BaseUrl: string := "https://hh.ru/search/vacancy"

  /** A dictionary of query parameters in insertion order, each value as `f'{v}'` formats it. */
  type Params = seq<(string, string)>

  function Pair(p: (string, string)): string {
    p.0 + "=" + p.1
  }

  function Pairs(ps: Params): (items: seq<string>)
    ensures |items| == |ps| && forall k :: 0 <= k < |ps| ==> items[k] == Pair(ps[k])
  {
    if ps == [] then [] else Pairs(ps[..|ps| - 1]) + [Pair(ps[|ps| - 1])]
  }

  /** `_get_url_with_params`: the URL, `?`, and the `key=value` items joined with `&`. */
  function UrlWithParams(url: string, params: Params): string {
    url + "?" + PyStr.Join(Pairs(params), "&")
  }

  /** Text that needs no escaping in a query: no `?`, `&` or `=`. */
  predicate PlainText(s: string) {
    '?' !in s && '&' !in s && '=' !in s
  }

  predicate PlainParams(ps: Params) {
    forall k :: 0 <= k < |ps| ==> PlainText(ps[k].0) && PlainText(ps[k].1)
  }

  lemma PairReadsBack(p: (string, string))
    requires PlainText(p.0) && PlainText(p.1)
    ensures PyStr.SplitOn(Pair(p), '=') == [p.0, p.1]
    ensures '&' !in Pair(p) && '?' !in Pair(p)
  {
    assert Pair(p) == p.0 + ['='] + p.1;
    PyStr.SplitOnAtSep(p.0, '=', p.1);
    PyStr.SplitOnWithoutSep(p.0, '=');
    PyStr.SplitOnWithoutSep(p.1, '=');
  }

  /**
   * A URL built from plain parameters reads back: split at `?` it gives the
   * address and the query, the query split at `&` gives one item per
   * parameter, and each item split at `=` gives its key and value.
   */
  lemma UrlWithParamsReadsBack(url: string, ps: Params)
    requires '?' !in url && |ps| >= 1 && PlainParams(ps)
    ensures var halves := PyStr.SplitOn(UrlWithParams(url, ps), '?');
      && |halves| == 2 && halves[0] == url
      && var items := PyStr.SplitOn(halves[1], '&');
      && |items| == |ps|
      && forall k :: 0 <= k < |ps| ==> PyStr.SplitOn(items[k], '=') == [ps[k].0, ps[k].1]
  {
    var items := Pairs(ps);
    forall k | 0 <= k < |ps|
      ensures PyStr.SplitOn(items[k], '=') == [ps[k].0, ps[k].1] && '&' !in items[k] && '?' !in items[k]
    {
      PairReadsBack(ps[k]);
    }
    var query := PyStr.Join(items, "&");
    PyStr.JoinAvoids(items, "&", '?');
    assert UrlWithParams(url, ps) == url + ['?'] + query;
    PyStr.SplitOnAtSep(url, '?', query);
    PyStr.SplitOnWithoutSep(url, '?');
    PyStr.SplitOnWithoutSep(query, '?');
    PyStr.SplitOnJoin(items, '&');
  }

  /** Different plain parameter lists give different URLs. */
  lemma UrlWithParamsInjective(url: string, ps: Params, qs: Params)
    requires '?' !in url && |ps| >= 1 && |qs| >= 1 && PlainParams(ps) && PlainParams(qs)
    requires UrlWithParams(url, ps) == UrlWithParams(url, qs)
    ensures ps == qs
  {
    UrlWithParamsReadsBack(url, ps);
    UrlWithParamsReadsBack(url, qs);
    var items := PyStr.SplitOn(PyStr.SplitOn(UrlWithParams(url, ps), '?')[1], '&');
    forall k | 0 <= k < |ps| ensures ps[k] == qs[k] {
      assert [ps[k].0, ps[k].1] == PyStr.SplitOn(items[k], '=') == [qs[k].0, qs[k].1];
    }
  }

  predicate HasKey(ps: Params, key: string) {
    exists k :: 0 <= k < |ps| && ps[k].0 == key
  }

  function Replace(ps: Params, key: string, value: string): (r: Params)
    ensures |r| == |ps|
    ensures forall k :: 0 <= k < |ps| ==> r[k] == (if ps[k].0 == key then (key, value) else ps[k])
  {
    if ps == [] then []
    else Replace(ps[..|ps| - 1], key, value) + [if ps[|ps| - 1].0 == key then (key, value) else ps[|ps| - 1]]
  }

  /** `params[key] = value` on a dictionary: an existing key keeps its place, a new one goes last. */
  function SetParam(ps: Params, key: string, value: string): Params {
    if HasKey(ps, key) then Replace(ps, key, value) else ps + [(key, value)]
  }

  /** Assigning a key twice leaves the second value. */
  lemma SetParamTwice(ps: Params, key: string, a: string, b: string)
    ensures SetParam(SetParam(ps, key, a), key, b) == SetParam(ps, key, b)
  {
    if HasKey(ps, key) {
      var k :| 0 <= k < |ps| && ps[k].0 == key;
      ReplaceTwice(ps, key, a, b, k);
    } else {
      AppendThenReplace(ps, key, a, b);
    }
  }

  lemma ReplaceTwice(ps: Params, key: string, a: string, b: string, k: int)
    requires 0 <= k < |ps| && ps[k].0 == key
    ensures HasKey(Replace(ps, key, a), key)
    ensures Replace(Replace(ps, key, a), key, b) == Replace(ps, key, b)
  {
    var s := Replace(ps, key, a);
    assert s[k].0 == key;
    var t := Replace(s, key, b);
    var u := Replace(ps, key, b);
    forall j | 0 <= j < |ps| ensures t[j] == u[j] {
    }
  }

  lemma AppendThenReplace(ps: Params, key: string, a: string, b: string)
    requires !HasKey(ps, key)
    ensures Replace(ps + [(key, a)], key, b) == ps + [(key, b)]
  {
    var s := ps + [(key, a)];
    var t := Replace(s, key, b);
    forall j | 0 <= j < |s| ensures t[j] == (ps + [(key, b)])[j] {
      if j < |ps| {
        assert ps[j].0 != key;
      }
    }
  }

  lemma SetParamPlain(ps: Params, key: string, value: string)
    requires PlainParams(ps) && PlainText(key) && PlainText(value)
    ensures PlainParams(SetParam(ps, key, value)) && |SetParam(ps, key, value)| >= 1
  {
    if HasKey(ps, key) {
      var k :| 0 <= k < |ps| && ps[k].0 == key;
    }
  }

  /** `__url_params` as `__init__` sets it. */
  function InitialParams(searchPeriod: int, area: int, quotedText: string): Params {
    [("search_period", PyStr.IntToStr(searchPeriod)), ("clusters", "true"), ("area", PyStr.IntToStr(area)),
     ("text", quotedText), ("enable_snippets", "true"), ("page", "0")]
  }

  /** The URL of page `page`, the other parameters as in `params`. */
  function PageUrl(params: Params, page: int): string {
    UrlWithParams(BaseUrl, SetParam(params, "page", PyStr.IntToStr(page)))
  }

  /** The start URL from `params`, then the URLs of pages 1 to `n`. */
  function PageList(params: Params, n: int): (urls: seq<string>)
    ensures |urls| == (if n > 0 then n else 0) + 1
    ensures urls[0] == UrlWithParams(BaseUrl, params)
    ensures forall k :: 1 <= k < |urls| ==> urls[k] == PageUrl(params, k)
    decreases if n > 0 then n else 0
  {
    if n <= 0 then [UrlWithParams(BaseUrl, params)] else PageList(params, n - 1) + [PageUrl(params, n)]
  }

  /** The parameters after the page loop wrote pages 1 to `n` into them. */
  function ParamsAfterPages(params: Params, n: int): Params {
    if n > 0 then SetParam(params, "page", PyStr.IntToStr(n)) else params
  }

  /** What `_get_urls_pages_with_vacancies` yields from the parameters `params`. */
  function PageUrlsFor(params: Params, site: string -> Option<Extraction.Page>): Result<seq<string>, RunTable.RunError> {
    match site(UrlWithParams(BaseUrl, params))
    case None => Err(RunTable.RequestFailed)
    case Some(page) =>
      match Extraction.PageCount(page.pager)
      case Err(e) => Err(RunTable.PagerFailed(e))
      case Ok(n) => Ok(PageList(params, n))
  }

  /** The records of the pages `urls`, in order; the first failed request or bad date stops the run. */
  function Collected(urls: seq<string>, site: string -> Option<Extraction.Page>, titleOk: string -> bool, today: Date)
    : Result<seq<ParsedJob>, RunTable.RunError>
  {
    if urls == [] then Ok([])
    else
      match Collected(urls[..|urls| - 1], site, titleOk, today)
      case Err(e) => Err(e)
      case Ok(rows) =>
        match site(urls[|urls| - 1])
        case None => Err(RunTable.RequestFailed)
        case Some(page) =>
          match RunTable.PageRecords(page, titleOk, today)
          case Err(e) => Err(e)
          case Ok(more) => Ok(rows + more)
  }

  lemma {:induction false} CollectedErrStays(urls: seq<string>, i: nat, site: string -> Option<Extraction.Page>,
                                             titleOk: string -> bool, today: Date)
    requires i <= |urls|
    requires Collected(urls[..i], site, titleOk, today).Err?
    ensures Collected(urls, site, titleOk, today) == Collected(urls[..i], site, titleOk, today)
    decreases |urls| - i
  {
    if i < |urls| {
      assert urls[..i + 1][..i] == urls[..i];
      CollectedErrStays(urls, i + 1, site, titleOk, today);
    } else {
      assert urls[..i] == urls;
    }
  }

  /** The page loop of `run`: each page fetched and its records appended, the first failure stopping it. */
  method CollectPages(urls: seq<string>, site: string -> Option<Extraction.Page>, titleOk: string -> bool, now: DateTime)
    returns (r: Result<seq<ParsedJob>, RunTable.RunError>)
    ensures r == Collected(urls, site, titleOk, now.date)
  {
    var raw: seq<ParsedJob> := [];
    var i := 0;
    while i < |urls|
      invariant 0 <= i <= |urls|
      invariant Collected(urls[..i], site, titleOk, now.date) == Ok(raw)
    {
      assert urls[..i + 1][..i] == urls[..i];
      var response := site(urls[i]);
      if response.None? {
        CollectedErrStays(urls, i + 1, site, titleOk, now.date);
        assert urls[..|urls|] == urls;
        return Err(RunTable.RequestFailed);
      }
      var records := RunTable.ReadPage(response.value, titleOk, now);
      if records.Err? {
        CollectedErrStays(urls, i + 1, site, titleOk, now.date);
        assert urls[..|urls|] == urls;
        return Err(records.error);
      }
      raw := raw + records.value;
      i := i + 1;
    }
    assert urls[..i] == urls;
    r := Ok(raw);
  }

  /** The unsorted table a run with parameters `params` produces. */
  function RunRows(params: Params, site: string -> Option<Extraction.Page>, titleOk: string -> bool, today: Date)
    : Result<seq<Job>, RunTable.RunError>
  {
    match PageUrlsFor(params, site)
    case Err(e) => Err(e)
    case Ok(urls) =>
      match Collected(urls, site, titleOk, today)
      case Err(e) => Err(e)
      case Ok(raw) => RunTable.Tabulate(raw)
  }

  /** `HhParser.HhParserResults`: the run's table and what the processor adds to it. */
  class HhParserResults {
    const data: seq<Job>
    var area: Option<int>
    var searchPeriod: Option<int>
    var searchText: Option<string>
    var searchRegex: Option<string>
    var parsingResults: Option<ParsingResults>
    var currentJobs: Option<seq<CurrentJob>>
    var uniqueJobs: Option<seq<UniqueJob>>
    var uniqueClosedJobs: Option<seq<ClosedJob>>

    constructor(data: seq<Job>)
      ensures this.data == data
      ensures area == None && searchPeriod == None && searchText == None && searchRegex == None
      ensures parsingResults == None && currentJobs == None && uniqueJobs == None && uniqueClosedJobs == None
    {
      this.data := data;
      area := None;
      searchPeriod := None;
      searchText := None;
      searchRegex := None;
      parsingResults := None;
      currentJobs := None;
      uniqueJobs := None;
      uniqueClosedJobs := None;
    }
  }

  /** A results object for `data`, with the search settings of the run copied into it. */
  method NewResults(data: seq<Job>, area: int, searchPeriod: int, searchText: string, searchRegex: string)
    returns (results: HhParserResults)
    ensures fresh(results) && results.data == data
    ensures results.area == Some(area) && results.searchPeriod == Some(searchPeriod)
    ensures results.searchText == Some(searchText) && results.searchRegex == Some(searchRegex)
    ensures results.parsingResults == None && results.currentJobs == None
    ensures results.uniqueJobs == None && results.uniqueClosedJobs == None
  {
    results := new HhParserResults(data);
    results.area := Some(area);
    results.searchPeriod := Some(searchPeriod);
    results.searchText := Some(searchText);
    results.searchRegex := Some(searchRegex);
  }

  class HhParser {
    const area: int
    const searchPeriod: int
    const searchText: string
    const searchRegex: string
    /** `quote(search_text)`, the percent-encoded query text. */
    const quotedText: string
    /** Whether `re.search(search_regex, title, flags=re.IGNORECASE)` matches. */
    const titleCheck: string -> bool
    /** `__url_params`; the page loop writes its `page` entry through an alias. */
    var urlParams: Params

    constructor(area: int, searchPeriod: int, searchText: string, searchRegex: string,
                quotedText: string, titleCheck: string -> bool)
      ensures this.area == area && this.searchPeriod == searchPeriod
      ensures this.searchText == searchText && this.searchRegex == searchRegex
      ensures this.quotedText == quotedText && this.titleCheck == titleCheck
      ensures urlParams == InitialParams(searchPeriod, area, quotedText)
    {
      this.area := area;
      this.searchPeriod := searchPeriod;
      this.searchText := searchText;
      this.searchRegex := searchRegex;
      this.quotedText := quotedText;
      this.titleCheck := titleCheck;
      urlParams := InitialParams(searchPeriod, area, quotedText);
    }

    /**
     * `_get_urls_pages_with_vacancies`: the start URL from the current
     * parameters, then pages 1 to the pager's last number. The loop sets
     * `page` in the object's own dictionary, so a later call starts from the
     * last page written.
     */
    method UrlsPagesWithVacancies(site: string -> Option<Extraction.Page>) returns (r: Result<seq<string>, RunTable.RunError>)
      modifies this
      ensures r == PageUrlsFor(old(urlParams), site)
      ensures r.Ok? ==> urlParams == ParamsAfterPages(old(urlParams), |r.value| - 1)
      ensures r.Err? ==> urlParams == old(urlParams)
    {
      var startUrl := UrlWithParams(BaseUrl, urlParams);
      var urls := [startUrl];
      var response := site(startUrl);
      if response.None? {
        return Err(RunTable.RequestFailed);
      }
      var pageCount := Extraction.PageCount(response.value.pager);
      if pageCount.Err? {
        return Err(RunTable.PagerFailed(pageCount.error));
      }
      ghost var start := urlParams;
      var i := 0;
      while i < pageCount.value
        invariant 0 <= i <= (if pageCount.value > 0 then pageCount.value else 0)
        invariant urls == PageList(start, i)
        invariant urlParams == ParamsAfterPages(start, i)
      {
        SetParamTwice(start, "page", PyStr.IntToStr(i), PyStr.IntToStr(i + 1));
        urlParams := SetParam(urlParams, "page", PyStr.IntToStr(i + 1));
        assert urlParams == ParamsAfterPages(start, i + 1);
        urls := urls + [UrlWithParams(BaseUrl, urlParams)];
        assert urls == PageList(start, i + 1);
        i := i + 1;
      }
      assert |urls| - 1 == i;
      r := Ok(urls);
    }

    /**
     * `run`: fetch and extract every page, stop on an empty result, read the
     * dates and sort the rows latest first, then copy the search settings
     * into the results.
     */
    method Run(site: string -> Option<Extraction.Page>, now: DateTime) returns (r: Result<HhParserResults, RunTable.RunError>)
      modifies this
      ensures r.Err? <==> RunRows(old(urlParams), site, titleCheck, now.date).Err?
      ensures r.Err? ==> r.error == RunRows(old(urlParams), site, titleCheck, now.date).error
      ensures r.Ok? ==>
        && fresh(r.value)
        && multiset(r.value.data) == multiset(RunRows(old(urlParams), site, titleCheck, now.date).value)
        && |r.value.data| > 0
        && (forall p, q :: 0 <= p < q < |r.value.data| ==> r.value.data[p].date >= r.value.data[q].date)
      ensures r.Ok? ==>
        && r.value.area == Some(area) && r.value.searchPeriod == Some(searchPeriod)
        && r.value.searchText == Some(searchText) && r.value.searchRegex == Some(searchRegex)
        && r.value.parsingResults == None && r.value.currentJobs == None
        && r.value.uniqueJobs == None && r.value.uniqueClosedJobs == None
      ensures PageUrlsFor(old(urlParams), site).Ok? ==>
        urlParams == ParamsAfterPages(old(urlParams), |PageUrlsFor(old(urlParams), site).value| - 1)
      ensures PageUrlsFor(old(urlParams), site).Err? ==> urlParams == old(urlParams)
    {
      ghost var params := urlParams;
      ghost var expected := RunRows(params, site, titleCheck, now.date);
      var urls := UrlsPagesWithVacancies(site);
      if urls.Err? {
        assert expected == Err(urls.error);
        return Err(urls.error);
      }
      var raw := CollectPages(urls.value, site, titleCheck, now);
      if raw.Err? {
        assert expected == Err(raw.error);
        return Err(raw.error);
      }
      var table := RunTable.Tabulate(raw.value);
      assert expected == table;
      if table.Err? {
        return Err(table.error);
      }
      var sorted := RunTable.SortByDateDescending(table.value);
      var results := NewResults(sorted, area, searchPeriod, searchText, searchRegex);
      r := Ok(results);
    }
  }

  /** The `parsing_results` row of a run (its parse duration is not modelled). */
  datatype ParsingResults = ParsingResults(
    jobsWithoutSalary: real,
    stats: RunStats.SalaryStats,
    jobsCount: int,
    date: Date)

  /** The `parsing_results` row for a run whose statistics exist. */
  function ParsingResultsOf(jobs: seq<Job>, today: Date): (row: ParsingResults)
    requires RunStats.SalaryStatsOf(jobs).Ok?
    ensures row.jobsCount == |jobs| > 0
    ensures row.stats == RunStats.SalaryStatsOf(jobs).value
    ensures 0.0 <= row.jobsWithoutSalary <= 100.0
  {
    RunStats.StatsNeedRows(jobs);
    ParsingResults(RunStats.JobsWithoutSalaryPercent(jobs), RunStats.SalaryStatsOf(jobs).value, |jobs|, today)
  }

  /** The `unique_jobs` rows a run adds. */
  function UniqueJobsOf(jobs: seq<Job>, storedUnique: Reconcile.TableRead<UniqueJob>): seq<UniqueJob> {
    Reconcile.NewUnique(Reconcile.RowsOrEmpty(storedUnique), DatesAndHrefs(jobs))
  }

  /** The `unique_closed_jobs` rows a run adds, closing on `today`. */
  function ClosedJobsOf(jobs: seq<Job>, storedUnique: Reconcile.TableRead<UniqueJob>,
                        storedClosed: Reconcile.TableRead<ClosedJob>, today: Date): seq<ClosedJob>
    requires ValidDate(today)
  {
    Reconcile.NewClosed(Reconcile.RowsOrEmpty(storedClosed),
      Reconcile.ClosureCandidates(Reconcile.RowsOrEmpty(storedUnique), DatesAndHrefs(jobs), DayNumber(today)))
  }

  class HhParserResultsProcessor {
    const parsed: HhParserResults
    /** What `get_table('unique_jobs')` read: `None` when the table does not exist. */
    const storedUnique: Reconcile.TableRead<UniqueJob>
    /** What `get_table('unique_closed_jobs')` read. */
    const storedClosed: Reconcile.TableRead<ClosedJob>

    constructor(parsed: HhParserResults, storedUnique: Reconcile.TableRead<UniqueJob>,
                storedClosed: Reconcile.TableRead<ClosedJob>)
      ensures this.parsed == parsed && this.storedUnique == storedUnique && this.storedClosed == storedClosed
    {
      this.parsed := parsed;
      this.storedUnique := storedUnique;
      this.storedClosed := storedClosed;
    }

    /**
     * `run`: `parsing_results`, then `current_jobs`, `unique_jobs` and
     * `unique_closed_jobs`, each stored into the results object. Only the
     * statistics can fail, and then nothing is stored; when they succeed
     * every salary text classified, so the ranking succeeds too.
     */
    method Run(now: DateTime) returns (r: Result<HhParserResults, RunStats.StatsError>)
      requires ValidDate(now.date)
      modifies parsed`parsingResults, parsed`currentJobs, parsed`uniqueJobs, parsed`uniqueClosedJobs
      ensures r.Err? <==> RunStats.SalaryStatsOf(parsed.data).Err?
      ensures r.Err? ==> r.error == RunStats.SalaryStatsOf(parsed.data).error && unchanged(parsed)
      ensures r.Ok? ==>
        && r.value == parsed
        && parsed.parsingResults == Some(ParsingResultsOf(parsed.data, now.date))
        && parsed.currentJobs.Some? && Ranking.IsRanking(parsed.currentJobs.value, parsed.data)
        && parsed.uniqueJobs == Some(UniqueJobsOf(parsed.data, storedUnique))
        && parsed.uniqueClosedJobs == Some(ClosedJobsOf(parsed.data, storedUnique, storedClosed, now.date))
    {
      var tables := ProcessTables(parsed.data, storedUnique, storedClosed, now);
      if tables.Err? {
        return Err(tables.error);
      }
      parsed.parsingResults := Some(tables.value.parsingResults);
      parsed.currentJobs := Some(tables.value.currentJobs);
      parsed.uniqueJobs := Some(tables.value.uniqueJobs);
      parsed.uniqueClosedJobs := Some(tables.value.uniqueClosedJobs);
      r := Ok(parsed);
    }
  }

  /** The four tables of a run. */
  datatype RunTables = RunTables(
    parsingResults: ParsingResults,
    currentJobs: seq<CurrentJob>,
    uniqueJobs: seq<UniqueJob>,
    uniqueClosedJobs: seq<ClosedJob>)

  /**
   * The four steps of the processor's `run` on the run's rows, before they
   * are stored: `_get_parsing_results_df` (the share of rows without
   * salary and the statistics; only the statistics can fail, and they are
   * taken first here so that the share is only asked of a non-empty table),
   * `_get_current_jobs_df`, `_get_unique_jobs_df` and
   * `_get_unique_closed_jobs_df`.
   */
  method ProcessTables(data: seq<Job>, storedUnique: Reconcile.TableRead<UniqueJob>,
                       storedClosed: Reconcile.TableRead<ClosedJob>, now: DateTime)
    returns (r: Result<RunTables, RunStats.StatsError>)
    requires ValidDate(now.date)
    ensures r.Err? <==> RunStats.SalaryStatsOf(data).Err?
    ensures r.Err? ==> r.error == RunStats.SalaryStatsOf(data).error
    ensures r.Ok? ==>
      && r.value.parsingResults == ParsingResultsOf(data, now.date)
      && Ranking.IsRanking(r.value.currentJobs, data)
      && r.value.uniqueJobs == UniqueJobsOf(data, storedUnique)
      && r.value.uniqueClosedJobs == ClosedJobsOf(data, storedUnique, storedClosed, now.date)
  {
    var stats := RunStats.FindSalaryMeanAndMedian(data);
    if stats.Err? {
      return Err(stats.error);
    }
    RunStats.StatsNeedRows(data);
    var withoutSalary := RunStats.JobsWithoutSalaryPercent(data);
    var row := ParsingResults(withoutSalary, stats.value, |data|, now.date);
    var current := Ranking.GetCurrentJobs(data);
    assert current.Ok?;
    var prior := Reconcile.RowsOrEmpty(storedUnique);
    var unique := Reconcile.NewUnique(prior, DatesAndHrefs(data));
    var candidates := Reconcile.ClosureCandidates(prior, DatesAndHrefs(data), DayNumber(now.date));
    var closed := Reconcile.NewClosed(Reconcile.RowsOrEmpty(storedClosed), candidates);
    r := Ok(RunTables(row, current.value, unique, closed));
  }

  // ---------------------------------------------------------------------------
  // Properties

  /** On a fresh parameter dictionary, setting `page` replaces its last entry. */
  lemma SetPageOfInitial(searchPeriod: int, area: int, quotedText: string, value: string)
    ensures SetParam(InitialParams(searchPeriod, area, quotedText), "page", value) ==
      InitialParams(searchPeriod, area, quotedText)[5 := ("page", value)]
  {
    var params := InitialParams(searchPeriod, area, quotedText);
    assert params[5].0 == "page";
    var r := Replace(params, "page", value);
    assert |r| == 6;
    forall k | 0 <= k < 6 ensures r[k] == params[5 := ("page", value)][k] {
    }
  }

  lemma InitialPlain(searchPeriod: int, area: int, quotedText: string, value: string)
    requires PlainText(quotedText) && PlainText(value)
    ensures PlainParams(InitialParams(searchPeriod, area, quotedText)[5 := ("page", value)])
  {
    PyStr.IntToStrChars(searchPeriod);
    PyStr.IntToStrChars(area);
  }

  /** Two different page numbers give two different URLs. */
  lemma PageUrlsDiffer(searchPeriod: int, area: int, quotedText: string, i: int, j: int)
    requires PlainText(quotedText) && i != j
    ensures PageUrl(InitialParams(searchPeriod, area, quotedText), i) != PageUrl(InitialParams(searchPeriod, area, quotedText), j)
  {
    var params := InitialParams(searchPeriod, area, quotedText);
    var si := PyStr.IntToStr(i);
    var sj := PyStr.IntToStr(j);
    SetPageOfInitial(searchPeriod, area, quotedText, si);
    SetPageOfInitial(searchPeriod, area, quotedText, sj);
    PyStr.IntToStrChars(i);
    PyStr.IntToStrChars(j);
    InitialPlain(searchPeriod, area, quotedText, si);
    InitialPlain(searchPeriod, area, quotedText, sj);
    var pi := params[5 := ("page", si)];
    var pj := params[5 := ("page", sj)];
    if UrlWithParams(BaseUrl, pi) == UrlWithParams(BaseUrl, pj) {
      UrlWithParamsInjective(BaseUrl, pi, pj);
      assert pi[5] == pj[5];
      PyStr.IntToStrInjective(i, j);
    }
  }

  /** On a new parser the start URL is page 0 and the page list holds no URL twice. */
  lemma FreshPageListDistinct(searchPeriod: int, area: int, quotedText: string, n: int)
    requires PlainText(quotedText)
    ensures var urls := PageList(InitialParams(searchPeriod, area, quotedText), n);
      forall i, j :: 0 <= i < j < |urls| ==> urls[i] != urls[j]
  {
    var params := InitialParams(searchPeriod, area, quotedText);
    var urls := PageList(params, n);
    SetPageOfInitial(searchPeriod, area, quotedText, "0");
    assert PyStr.IntToStr(0) == "0";
    assert params[5 := ("page", "0")] == params;
    assert urls[0] == PageUrl(params, 0);
    forall i, j | 0 <= i < j < |urls| ensures urls[i] != urls[j] {
      assert urls[i] == PageUrl(params, i);
      PageUrlsDiffer(searchPeriod, area, quotedText, i, j);
    }
  }
}
