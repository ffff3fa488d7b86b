/**
 * The end of a run, the same in both copies: the records of all pages become
 * a table, an empty table stops the run with `RuntimeError('No results
 * found')`, the date column is read as dates, and the rows are sorted by
 * date, latest first.
 */
module RunTable {
  import opened Wrappers
  import opened Calendar
  import opened Jobs
  import opened Sorting
  import Extraction

  /** The ways a run can stop. */
  datatype RunError =
    | RequestFailed          // a page request failed: RuntimeError('Request failed')
    | PagerFailed(cause: Extraction.PagerError)
    | DateNotNormalised      // `strptime` in the date normaliser raised ValueError
    | NoResults              // RuntimeError('No results found')
    | DateColumnUnreadable   // `pd.to_datetime` raised on the date column

  /** The records of a page: its regular blocks, then its premium blocks. */
  function PageRecords(page: Extraction.Page, titleOk: string -> bool, today: Date): (r: Result<seq<ParsedJob>, RunError>)
    ensures r.Err? ==> r.error == DateNotNormalised
  {
    match Extraction.DataOf(page.regular, titleOk, today)
    case None => Err(DateNotNormalised)
    case Some(regular) =>
      match Extraction.DataOf(page.premium, titleOk, today)
      case None => Err(DateNotNormalised)
      case Some(premium) => Ok(regular + premium)
  }

  /** A page's records, as the two calls of `_get_data_from_divs` give them. */
  method ReadPage(page: Extraction.Page, titleOk: string -> bool, now: DateTime) returns (r: Result<seq<ParsedJob>, RunError>)
    ensures r == PageRecords(page, titleOk, now.date)
  {
    var regular := Extraction.DataFromDivs(page.regular, titleOk, now);
    if regular.None? {
      return Err(DateNotNormalised);
    }
    var premium := Extraction.DataFromDivs(page.premium, titleOk, now);
    if premium.None? {
      return Err(DateNotNormalised);
    }
    r := Ok(regular.value + premium.value);
  }

  /** One record with its date read: `None` where `to_datetime` cannot read it. */
  function ToJob(p: ParsedJob): (r: Option<Job>)
    ensures r.Some? <==> ParseDayMonthYear(p.date).Some?
    ensures r.Some? ==> r.value == Job(DayNumber(ParseDayMonthYear(p.date).value), p.title, p.salary, p.company, p.href)
  {
    match ParseDayMonthYear(p.date)
    case None => None
    case Some(d) => Some(Job(DayNumber(d), p.title, p.salary, p.company, p.href))
  }

  /** `df['date'] = pd.to_datetime(df['date'], dayfirst=True)` on the whole table. */
  function ToJobs(ps: seq<ParsedJob>): (r: Option<seq<Job>>)
    ensures r.Some? <==> forall k :: 0 <= k < |ps| ==> ToJob(ps[k]).Some?
    ensures r.Some? ==> |r.value| == |ps| && forall k :: 0 <= k < |ps| ==> ToJob(ps[k]) == Some(r.value[k])
  {
    if ps == [] then Some([])
    else
      match ToJobs(ps[..|ps| - 1])
      case None => None
      case Some(front) =>
        match ToJob(ps[|ps| - 1])
        case None => None
        case Some(j) => Some(front + [j])
  }

  /** The run's table before the sort: stops on no records, or on a date column it cannot read. */
  function Tabulate(raw: seq<ParsedJob>): (r: Result<seq<Job>, RunError>)
    ensures r.Ok? ==> |r.value| == |raw| > 0
    ensures r.Err? ==> r.error == NoResults || r.error == DateColumnUnreadable
    ensures raw == [] ==> r == Err(NoResults)
  {
    if raw == [] then Err(NoResults)
    else
      match ToJobs(raw)
      case None => Err(DateColumnUnreadable)
      case Some(jobs) => Ok(jobs)
  }

  /** The sort key of `sort_values(by='date')`. */
  function ByDate(j: Job): Key {
    Key(j.date, 0, 0)
  }

  /** `sort_values(by='date', ascending=False)`: the same rows, latest first. */
  method SortByDateDescending(jobs: seq<Job>) returns (sorted: seq<Job>)
    ensures multiset(sorted) == multiset(jobs)
    ensures forall p, q :: 0 <= p < q < |sorted| ==> sorted[p].date >= sorted[q].date
  {
    var a := new Job[|jobs|](k requires 0 <= k < |jobs| => jobs[k]);
    assert a[..] == jobs;
    SortDescending(a, ByDate);
    sorted := a[..];
  }
}
