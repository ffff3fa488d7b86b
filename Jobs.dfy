/**
 * The records a run passes between its stages.
 */
module Jobs {
  import opened Wrappers

  /**
   * One vacancy as the extractor builds it from a listing block: every field
   * is still text, the publication date in `dd.mm.YYYY` form.
   */
  datatype ParsedJob = ParsedJob(title: string, company: string, salary: string, date: string, href: string)

  /**
   * One row of the run's table after `pd.to_datetime` has read the date
   * column: `date` is the day number (`toordinal()`) of the publication date.
   */
  datatype Job = Job(date: int, title: string, salary: string, company: string, href: string)

  /** The `(date, href)` projection both snapshot tables are joined on. */
  datatype UniqueJob = UniqueJob(date: int, href: string)

  /** A closed vacancy: when it was published, when it was seen missing, and the lifetime in days. */
  datatype ClosedJob = ClosedJob(href: string, publicationDate: int, closingDate: int, dateDiff: int)

  /** A row of the `current_jobs` table: its rank and the vacancy. */
  datatype CurrentJob = CurrentJob(row: int, job: Job)

  function Salaries(jobs: seq<Job>): (s: seq<string>)
    ensures |s| == |jobs| && forall i :: 0 <= i < |jobs| ==> s[i] == jobs[i].salary
  {
    if jobs == [] then [] else Salaries(jobs[..|jobs| - 1]) + [jobs[|jobs| - 1].salary]
  }

  function UniqueOf(j: Job): UniqueJob {
    UniqueJob(j.date, j.href)
  }

  /** `df[['date', 'href']]`. */
  function DatesAndHrefs(jobs: seq<Job>): (s: seq<UniqueJob>)
    ensures |s| == |jobs| && forall i :: 0 <= i < |jobs| ==> s[i] == UniqueOf(jobs[i])
  {
    if jobs == [] then [] else DatesAndHrefs(jobs[..|jobs| - 1]) + [UniqueOf(jobs[|jobs| - 1])]
  }
}
