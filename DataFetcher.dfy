/**
 * The older copy of the engine, `HhParser.parse` of the settings-based
 * module. It builds the page URLs by formatting one string per page, keeps a
 * URL only once, and is lenient where the class-based copy is strict: a
 * failed pager read leaves only the first page, and a page whose request
 * fails or whose records raise is skipped instead of stopping the run.
 * Extraction, the date normaliser, the table step and the sort are shared
 * with the class-based copy.
 */
module DataFetcher {
  import opened Wrappers
  import PyStr
  import opened Calendar
  import opened Jobs
  import Extraction
  import RunTable
  import HhParserEngine

  /** Everything of a page URL before the page number. */
  function QueryPrefix(searchPeriod: int, area: int, quotedText: string): string {
    "https://hh.ru/search/vacancy?search_period=" + PyStr.IntToStr(searchPeriod) + "&clusters=true&area=" +
    PyStr.IntToStr(area) + "&text=" + quotedText + "&enable_snippets=true&page="
  }

  /** The formatted URL of page `page`; `base_url` is page 0. */
  function FetcherPageUrl(searchPeriod: int, area: int, quotedText: string, page: int): string {
    QueryPrefix(searchPeriod, area, quotedText) + PyStr.IntToStr(page)
  }

  /** Page URLs differ exactly when their page numbers do. */
  lemma FetcherPageUrlInjective(searchPeriod: int, area: int, quotedText: string, i: int, j: int)
    ensures FetcherPageUrl(searchPeriod, area, quotedText, i) == FetcherPageUrl(searchPeriod, area, quotedText, j) <==> i == j
  {
    var prefix := QueryPrefix(searchPeriod, area, quotedText);
    if FetcherPageUrl(searchPeriod, area, quotedText, i) == FetcherPageUrl(searchPeriod, area, quotedText, j) {
      var si := PyStr.IntToStr(i);
      var sj := PyStr.IntToStr(j);
      assert prefix + si == prefix + sj;
      assert si == (prefix + si)[|prefix|..];
      assert sj == (prefix + sj)[|prefix|..];
      PyStr.IntToStrInjective(i, j);
    }
  }

  /** Pages 0 to `n` − 1, and at least the first page. */
  function FetcherPageList(searchPeriod: int, area: int, quotedText: string, n: int): (urls: seq<string>)
    ensures |urls| == (if n > 1 then n else 1)
    ensures forall k :: 0 <= k < |urls| ==> urls[k] == FetcherPageUrl(searchPeriod, area, quotedText, k)
  {
    seq(if n > 1 then n else 1, k => FetcherPageUrl(searchPeriod, area, quotedText, k))
  }

  /** One round of the URL loop: page `i` is new unless it is page 0, and keeping it once extends the list by one page. */
  lemma PageListStep(searchPeriod: int, area: int, quotedText: string, i: nat, urls: seq<string>)
    requires urls == FetcherPageList(searchPeriod, area, quotedText, i)
    ensures FetcherPageUrl(searchPeriod, area, quotedText, i) in urls <==> i == 0
    ensures FetcherPageList(searchPeriod, area, quotedText, i + 1) ==
      if i == 0 then urls else urls + [FetcherPageUrl(searchPeriod, area, quotedText, i)]
  {
    var url := FetcherPageUrl(searchPeriod, area, quotedText, i);
    if i == 0 {
      assert urls[0] == url;
    } else {
      forall k | 0 <= k < i ensures urls[k] != url {
        FetcherPageUrlInjective(searchPeriod, area, quotedText, k, i);
      }
    }
    var next := FetcherPageList(searchPeriod, area, quotedText, i + 1);
    if i > 0 {
      assert next == urls + [url];
    }
  }

  /**
   * The URLs the run visits: the first page asks for the pager, and when it
   * fails, when the pager has no links or when the last label is no number,
   * the run goes on with the first page alone.
   */
  function FetcherUrlsFor(searchPeriod: int, area: int, quotedText: string, site: string -> Option<Extraction.Page>)
    : (urls: seq<string>)
    ensures |urls| >= 1 && urls[0] == FetcherPageUrl(searchPeriod, area, quotedText, 0)
  {
    var base := FetcherPageUrl(searchPeriod, area, quotedText, 0);
    match site(base)
    case None => [base]
    case Some(page) =>
      match Extraction.PageCount(page.pager)
      case Err(_) => [base]
      case Ok(n) => FetcherPageList(searchPeriod, area, quotedText, n)
  }

  /** The records of the pages `urls`; a page whose request fails or whose records raise adds nothing. */
  function FetcherCollected(urls: seq<string>, site: string -> Option<Extraction.Page>, titleOk: string -> bool,
                            today: Date): seq<ParsedJob>
  {
    if urls == [] then []
    else
      FetcherCollected(urls[..|urls| - 1], site, titleOk, today) +
      match site(urls[|urls| - 1])
      case None => []
      case Some(page) =>
        match RunTable.PageRecords(page, titleOk, today)
        case Err(_) => []
        case Ok(more) => more
  }

  /** The unsorted table the run produces. */
  function FetcherRows(searchPeriod: int, area: int, quotedText: string, site: string -> Option<Extraction.Page>,
                       titleOk: string -> bool, today: Date): Result<seq<Job>, RunTable.RunError>
  {
    RunTable.Tabulate(FetcherCollected(FetcherUrlsFor(searchPeriod, area, quotedText, site), site, titleOk, today))
  }

  class HhParser {
    const searchPeriod: int
    const area: int
    const searchText: string
    const regex: string
    /** `quote(search_text)`. */
    const quotedText: string
    /** Whether `re.search(regex, title, flags=re.IGNORECASE)` matches. */
    const titleCheck: string -> bool

    constructor(searchPeriod: int, area: int, searchText: string, regex: string,
                quotedText: string, titleCheck: string -> bool)
      ensures this.searchPeriod == searchPeriod && this.area == area
      ensures this.searchText == searchText && this.regex == regex
      ensures this.quotedText == quotedText && this.titleCheck == titleCheck
    {
      this.searchPeriod := searchPeriod;
      this.area := area;
      this.searchText := searchText;
      this.regex := regex;
      this.quotedText := quotedText;
      this.titleCheck := titleCheck;
    }

    /**
     * The first part of `parse`: `base_url`, then page `i` for every `i`
     * below the pager's last number, each URL kept once. Page 0 is already
     * there, so the list is pages 0 to N − 1.
     */
    method PageUrls(site: string -> Option<Extraction.Page>) returns (urls: seq<string>)
      ensures urls == FetcherUrlsFor(searchPeriod, area, quotedText, site)
      ensures forall p, q :: 0 <= p < q < |urls| ==> urls[p] != urls[q]
    {
      var baseUrl := FetcherPageUrl(searchPeriod, area, quotedText, 0);
      urls := [baseUrl];
      var response := site(baseUrl);
      if response.Some? {
        var pageCount := Extraction.PageCount(response.value.pager);
        if pageCount.Ok? {
          var i := 0;
          while i < pageCount.value
            invariant 0 <= i <= (if pageCount.value > 0 then pageCount.value else 0)
            invariant urls == FetcherPageList(searchPeriod, area, quotedText, i)
          {
            var url := FetcherPageUrl(searchPeriod, area, quotedText, i);
            PageListStep(searchPeriod, area, quotedText, i, urls);
            if url !in urls {
              urls := urls + [url];
            }
            i := i + 1;
          }
          if pageCount.value <= 0 {
            assert urls == FetcherPageList(searchPeriod, area, quotedText, pageCount.value);
          }
        }
      }
      forall p, q | 0 <= p < q < |urls| ensures urls[p] != urls[q] {
        FetcherPageUrlInjective(searchPeriod, area, quotedText, p, q);
      }
    }

    /**
     * `parse`: visit every page URL, append the records of each page that
     * answers and extracts, stop on an empty result, read the dates and sort
     * the rows latest first. Only an empty result or an unreadable date
     * column stops this copy.
     */
    method Parse(site: string -> Option<Extraction.Page>, now: DateTime) returns (r: Result<seq<Job>, RunTable.RunError>)
      ensures r.Err? <==> FetcherRows(searchPeriod, area, quotedText, site, titleCheck, now.date).Err?
      ensures r.Err? ==> r.error == FetcherRows(searchPeriod, area, quotedText, site, titleCheck, now.date).error
      ensures r.Err? ==> r.error == RunTable.NoResults || r.error == RunTable.DateColumnUnreadable
      ensures r.Ok? ==>
        && multiset(r.value) == multiset(FetcherRows(searchPeriod, area, quotedText, site, titleCheck, now.date).value)
        && |r.value| > 0
        && forall p, q :: 0 <= p < q < |r.value| ==> r.value[p].date >= r.value[q].date
    {
      var urls := PageUrls(site);
      var jobsAll: seq<ParsedJob> := [];
      var i := 0;
      while i < |urls|
        invariant 0 <= i <= |urls|
        invariant jobsAll == FetcherCollected(urls[..i], site, titleCheck, now.date)
      {
        assert urls[..i + 1][..i] == urls[..i];
        var response := site(urls[i]);
        if response.Some? {
          var records := RunTable.ReadPage(response.value, titleCheck, now);
          if records.Ok? {
            jobsAll := jobsAll + records.value;
          }
        }
        i := i + 1;
      }
      assert urls[..i] == urls;
      var table := RunTable.Tabulate(jobsAll);
      if table.Err? {
        return Err(table.error);
      }
      var sorted := RunTable.SortByDateDescending(table.value);
      r := Ok(sorted);
    }
  }

  // ---------------------------------------------------------------------------
  // Properties

  /** The formatted page URL is the one the class-based copy builds from its fresh parameters. */
  lemma PageUrlsAgree(searchPeriod: int, area: int, quotedText: string, page: int)
    ensures HhParserEngine.PageUrl(HhParserEngine.InitialParams(searchPeriod, area, quotedText), page) ==
      FetcherPageUrl(searchPeriod, area, quotedText, page)
    ensures HhParserEngine.UrlWithParams(HhParserEngine.BaseUrl, HhParserEngine.InitialParams(searchPeriod, area, quotedText)) ==
      FetcherPageUrl(searchPeriod, area, quotedText, 0)
  {
    HhParserEngine.SetPageOfInitial(searchPeriod, area, quotedText, PyStr.IntToStr(page));
    ParamsUrl(searchPeriod, area, quotedText, PyStr.IntToStr(page));
    assert PyStr.IntToStr(0) == "0";
    assert HhParserEngine.InitialParams(searchPeriod, area, quotedText)[5 := ("page", "0")] ==
      HhParserEngine.InitialParams(searchPeriod, area, quotedText);
    ParamsUrl(searchPeriod, area, quotedText, "0");
  }

  lemma ParamsUrl(searchPeriod: int, area: int, quotedText: string, page: string)
    ensures HhParserEngine.UrlWithParams(HhParserEngine.BaseUrl,
      HhParserEngine.InitialParams(searchPeriod, area, quotedText)[5 := ("page", page)]) ==
      QueryPrefix(searchPeriod, area, quotedText) + page
  {
    // The literal parts of the formatted URL, as the parameter names and separators make them up.
    assert "search_period" + "=" == "search_period=";
    assert "clusters" + "=" + "true" == "clusters=true";
    assert "area" + "=" == "area=";
    assert "text" + "=" == "text=";
    assert "enable_snippets" + "=" + "true" == "enable_snippets=true";
    assert "page" + "=" == "page=";
    assert "&" + "clusters=true" + "&" + "area=" == "&clusters=true&area=";
    assert "&" + "text=" == "&text=";
    assert "&" + "enable_snippets=true" + "&" + "page=" == "&enable_snippets=true&page=";
    assert HhParserEngine.BaseUrl + "?" + "search_period=" == "https://hh.ru/search/vacancy?search_period=";
    var sp := PyStr.IntToStr(searchPeriod);
    var ar := PyStr.IntToStr(area);
    var ps := HhParserEngine.InitialParams(searchPeriod, area, quotedText)[5 := ("page", page)];
    var items := HhParserEngine.Pairs(ps);
    assert items == [HhParserEngine.Pair(ps[0]), HhParserEngine.Pair(ps[1]), HhParserEngine.Pair(ps[2]),
                     HhParserEngine.Pair(ps[3]), HhParserEngine.Pair(ps[4]), HhParserEngine.Pair(ps[5])];
    JoinSix(items[0], items[1], items[2], items[3], items[4], items[5], "&");
    Regroup(HhParserEngine.BaseUrl, "search_period=", sp, "clusters=true", "area=", ar, "text=", quotedText,
            "enable_snippets=true", "page=", page);
  }

  /** `Join` of six items, written out. */
  lemma JoinSix(a: string, b: string, c: string, d: string, e: string, f: string, sep: string)
    ensures PyStr.Join([a, b, c, d, e, f], sep) == a + sep + (b + sep + (c + sep + (d + sep + (e + sep + f))))
  {
    var items := [a, b, c, d, e, f];
    assert PyStr.Join([f], sep) == f;
    assert [e, f][1..] == [f];
    assert PyStr.Join([e, f], sep) == e + sep + f;
    assert [d, e, f][1..] == [e, f];
    assert PyStr.Join([d, e, f], sep) == d + sep + (e + sep + f);
    assert [c, d, e, f][1..] == [d, e, f];
    assert PyStr.Join([c, d, e, f], sep) == c + sep + (d + sep + (e + sep + f));
    assert [b, c, d, e, f][1..] == [c, d, e, f];
    assert PyStr.Join([b, c, d, e, f], sep) == b + sep + (c + sep + (d + sep + (e + sep + f)));
    assert items[1..] == [b, c, d, e, f];
  }

  /** Concatenation regrouped around the ten interpolated pieces of the formatted URL. */
  lemma Regroup(base: string, k0: string, v0: string, s1: string, k2: string, v2: string,
                k3: string, v3: string, s4: string, k5: string, v5: string)
    ensures base + "?" + (k0 + v0 + "&" + (s1 + "&" + (k2 + v2 + "&" + (k3 + v3 + "&" + (s4 + "&" + (k5 + v5)))))) ==
      (base + "?" + k0) + v0 + ("&" + s1 + "&" + k2) + v2 + ("&" + k3) + v3 + ("&" + s4 + "&" + k5) + v5
  {
  }

  /**
   * The class-based copy visits one page more: its list is this copy's
   * pages 0 to N − 1 followed by page N, or the same single page when the
   * pager's number is not positive.
   */
  lemma PageListsAgree(searchPeriod: int, area: int, quotedText: string, n: int)
    ensures n >= 1 ==> (HhParserEngine.PageList(HhParserEngine.InitialParams(searchPeriod, area, quotedText), n) ==
      FetcherPageList(searchPeriod, area, quotedText, n) + [FetcherPageUrl(searchPeriod, area, quotedText, n)])
    ensures n <= 0 ==> (HhParserEngine.PageList(HhParserEngine.InitialParams(searchPeriod, area, quotedText), n) ==
      FetcherPageList(searchPeriod, area, quotedText, n))
  {
    var params := HhParserEngine.InitialParams(searchPeriod, area, quotedText);
    var strict := HhParserEngine.PageList(params, n);
    var lenient := FetcherPageList(searchPeriod, area, quotedText, n);
    PageUrlsAgree(searchPeriod, area, quotedText, 0);
    forall k | 0 <= k < |strict| ensures strict[k] == FetcherPageUrl(searchPeriod, area, quotedText, k) {
      PageUrlsAgree(searchPeriod, area, quotedText, k);
    }
    if n >= 1 {
      assert strict == lenient + [FetcherPageUrl(searchPeriod, area, quotedText, n)];
    } else {
      assert strict == lenient;
    }
  }

  /** Where the strict copy collects without failing, the lenient copy collects the same records from the same URLs. */
  lemma {:induction false} CollectedAgree(urls: seq<string>, site: string -> Option<Extraction.Page>,
                                          titleOk: string -> bool, today: Date)
    requires HhParserEngine.Collected(urls, site, titleOk, today).Ok?
    ensures HhParserEngine.Collected(urls, site, titleOk, today).value == FetcherCollected(urls, site, titleOk, today)
  {
    if urls != [] {
      CollectedAgree(urls[..|urls| - 1], site, titleOk, today);
    }
  }

  /** The lenient collector is a concatenation of per-page contributions. */
  lemma {:induction false} FetcherCollectedAppend(a: seq<string>, b: seq<string>, site: string -> Option<Extraction.Page>,
                                                  titleOk: string -> bool, today: Date)
    ensures FetcherCollected(a + b, site, titleOk, today) ==
            FetcherCollected(a, site, titleOk, today) + FetcherCollected(b, site, titleOk, today)
    decreases |b|
  {
    if b == [] {
      assert a + b == a;
    } else {
      var b' := b[..|b| - 1];
      assert (a + b)[..|a + b| - 1] == a + b';
      assert (a + b)[|a + b| - 1] == b[|b| - 1];
      FetcherCollectedAppend(a, b', site, titleOk, today);
    }
  }

  /**
   * A page of the list the site does not answer: the lenient copy collects
   * exactly what the other pages give, in order, while the strict copy stops
   * the run, with `RequestFailed` unless an earlier page already failed.
   */
  lemma FailedPageSkipped(urls: seq<string>, k: nat, site: string -> Option<Extraction.Page>,
                          titleOk: string -> bool, today: Date)
    requires k < |urls| && site(urls[k]).None?
    ensures FetcherCollected(urls, site, titleOk, today) ==
            FetcherCollected(urls[..k] + urls[k + 1..], site, titleOk, today)
    ensures HhParserEngine.Collected(urls, site, titleOk, today).Err?
    ensures HhParserEngine.Collected(urls[..k], site, titleOk, today).Ok? ==>
            HhParserEngine.Collected(urls, site, titleOk, today) == Err(RunTable.RequestFailed)
  {
    var pre, post := urls[..k], urls[k + 1..];
    var mid := pre + [urls[k]];
    assert urls == mid + post;
    assert mid[..|mid| - 1] == pre && mid[|mid| - 1] == urls[k];
    assert FetcherCollected(mid, site, titleOk, today) == FetcherCollected(pre, site, titleOk, today);
    FetcherCollectedAppend(mid, post, site, titleOk, today);
    FetcherCollectedAppend(pre, post, site, titleOk, today);
    FailedPageStops(urls, k, site, titleOk, today);
  }

  /** The strict half: a page of the list the site does not answer stops the run. */
  lemma FailedPageStops(urls: seq<string>, k: nat, site: string -> Option<Extraction.Page>,
                        titleOk: string -> bool, today: Date)
    requires k < |urls| && site(urls[k]).None?
    ensures HhParserEngine.Collected(urls, site, titleOk, today).Err?
    ensures HhParserEngine.Collected(urls[..k], site, titleOk, today).Ok? ==>
            HhParserEngine.Collected(urls, site, titleOk, today) == Err(RunTable.RequestFailed)
  {
    var head := urls[..k + 1];
    assert head[..|head| - 1] == urls[..k] && head[|head| - 1] == urls[k];
    assert HhParserEngine.Collected(head, site, titleOk, today).Err?;
    HhParserEngine.CollectedErrStays(urls, k + 1, site, titleOk, today);
  }

  /**
   * The whole run of this copy when one listed page is not answered: the
   * table is that of the other pages' records.
   */
  lemma FailedPageRun(searchPeriod: int, area: int, quotedText: string, site: string -> Option<Extraction.Page>,
                      titleOk: string -> bool, today: Date, k: nat)
    requires k < |FetcherUrlsFor(searchPeriod, area, quotedText, site)|
    requires site(FetcherUrlsFor(searchPeriod, area, quotedText, site)[k]).None?
    ensures var urls := FetcherUrlsFor(searchPeriod, area, quotedText, site);
            FetcherRows(searchPeriod, area, quotedText, site, titleOk, today) ==
            RunTable.Tabulate(FetcherCollected(urls[..k] + urls[k + 1..], site, titleOk, today))
  {
    FailedPageSkipped(FetcherUrlsFor(searchPeriod, area, quotedText, site), k, site, titleOk, today);
  }
}
