/**
 * The `current_jobs` table: every row of the run gets `min_salary` and
 * `max_salary` columns from its salary text, the rows are sorted by
 * `(mean_salary, max_salary, min_salary)` descending, and numbered from 1.
 * Both copies of the engine build it the same way.
 */
module Ranking {
  import opened Wrappers
  import opened Salary
  import opened Jobs
  import opened Sorting
  import RunStats

  /** A row with the two salary columns the loop appends. */
  datatype Ranked = Ranked(job: Job, minSalary: int, maxSalary: int)

  /** The `mean_salary` column. */
  function MeanSalary(r: Ranked): real {
    (r.minSalary + r.maxSalary) as real / 2.0
  }

  /** The sort key; the sum of the two columns orders the rows as their mean does. */
  function RankKey(r: Ranked): Key {
    Key(r.minSalary + r.maxSalary, r.maxSalary, r.minSalary)
  }

  /** Comparing keys is comparing `(mean_salary, max_salary, min_salary)` lexicographically. */
  lemma RankKeyOrdersByMean(a: Ranked, b: Ranked)
    ensures AtLeast(RankKey(a), RankKey(b)) <==>
      || MeanSalary(a) > MeanSalary(b)
      || (MeanSalary(a) == MeanSalary(b) && a.maxSalary > b.maxSalary)
      || (MeanSalary(a) == MeanSalary(b) && a.maxSalary == b.maxSalary && a.minSalary >= b.minSalary)
  {
    var sa, sb := a.minSalary + a.maxSalary, b.minSalary + b.maxSalary;
    assert MeanSalary(a) == sa as real / 2.0 && MeanSalary(b) == sb as real / 2.0;
    assert MeanSalary(a) > MeanSalary(b) <==> sa > sb;
    assert MeanSalary(a) == MeanSalary(b) <==> sa == sb;
  }

  /** The key the ranking gives a salary text; a text that does not classify never reaches the sort. */
  function SalaryKey(j: Job): Key {
    SalaryKeyWith(j, Classify)
  }

  /** The key a classifier gives a salary text. */
  function SalaryKeyWith(j: Job, classify: string -> Result<Family, SalaryError>): Key {
    match classify(j.salary)
    case Ok(f) => Key(RankBounds(f).0 + RankBounds(f).1, RankBounds(f).1, RankBounds(f).0)
    case Err(_) => Key(0, 0, 0)
  }

  function RankedJob(r: Ranked): Job {
    r.job
  }

  function RowJob(c: CurrentJob): Job {
    c.job
  }

  /** A ranked row whose columns are the ones its salary text gives. */
  predicate KeyMatches(r: Ranked) {
    KeyMatchesWith(r, Classify)
  }

  predicate KeyMatchesWith(r: Ranked, classify: string -> Result<Family, SalaryError>) {
    SalaryKeyWith(r.job, classify) == RankKey(r)
  }

  /** The rows with the columns of the families `fs` stand for, in the run's order. */
  function RankedRows(jobs: seq<Job>, fs: seq<Family>): (rows: seq<Ranked>)
    requires |fs| == |jobs|
    ensures |rows| == |jobs|
    ensures forall k :: 0 <= k < |jobs| ==> rows[k] == Ranked(jobs[k], RankBounds(fs[k]).0, RankBounds(fs[k]).1)
  {
    seq(|jobs|, k requires 0 <= k < |jobs| => Ranked(jobs[k], RankBounds(fs[k]).0, RankBounds(fs[k]).1))
  }

  /** Rows built from the classification of their own salary texts carry the keys those texts give. */
  lemma RankedRowsMatch(jobs: seq<Job>, fs: seq<Family>)
    requires RunStats.ClassifyAll(jobs) == Ok(fs)
    ensures |fs| == |jobs|
    ensures forall k :: 0 <= k < |jobs| ==> KeyMatches(RankedRows(jobs, fs)[k]) && RankedRows(jobs, fs)[k].job == jobs[k]
  {
    RunStats.ClassifyAllOkIff(jobs);
    var rows := RankedRows(jobs, fs);
    forall k | 0 <= k < |jobs| ensures KeyMatches(rows[k]) {
      assert Classify(jobs[k].salary) == Ok(fs[k]);
    }
  }

  /**
   * The loop of `_get_current_jobs_df` / `_get_df_for_jobs_table` that fills
   * the `min_salary` and `max_salary` lists: it fails exactly when some salary
   * text does not classify, with the first such row's error, and otherwise
   * gives every row the columns of its family.
   */
  method SalaryColumns(jobs: seq<Job>) returns (r: Result<seq<Ranked>, SalaryError>)
    ensures r.Err? <==> RunStats.ClassifyAll(jobs).Err?
    ensures r.Err? ==> r.error == RunStats.ClassifyAll(jobs).error
    ensures r.Ok? ==> (|RunStats.ClassifyAll(jobs).value| == |jobs| &&
      r.value == RankedRows(jobs, RunStats.ClassifyAll(jobs).value))
  {
    r := FillColumns(jobs, Classify);
  }

  /** The loop itself, for any classifier. */
  method FillColumns(jobs: seq<Job>, classify: string -> Result<Family, SalaryError>)
    returns (r: Result<seq<Ranked>, SalaryError>)
    ensures r.Err? <==> RunStats.FirstError(RunStats.Verdicts(jobs, classify)).Err?
    ensures r.Err? ==> r.error == RunStats.FirstError(RunStats.Verdicts(jobs, classify)).error
    ensures r.Ok? ==> (|RunStats.FirstError(RunStats.Verdicts(jobs, classify)).value| == |jobs| &&
      r.value == RankedRows(jobs, RunStats.FirstError(RunStats.Verdicts(jobs, classify)).value))
  {
    var minSalary: seq<int> := [];
    var maxSalary: seq<int> := [];
    ghost var rs := RunStats.Verdicts(jobs, classify);
    ghost var fs: seq<Family> := [];
    var i := 0;
    while i < |jobs|
      invariant 0 <= i <= |jobs|
      invariant RunStats.FirstError(rs[..i]) == Ok(fs)
      invariant |fs| == |minSalary| == |maxSalary| == i
      invariant forall k :: 0 <= k < i ==> minSalary[k] == RankBounds(fs[k]).0 && maxSalary[k] == RankBounds(fs[k]).1
    {
      var c := classify(jobs[i].salary);
      assert c == rs[i];
      if c.Err? {
        RunStats.FirstErrorAfterPrefix(rs, i);
        return Err(c.error);
      }
      // the `if`/`elif` chain on the salary family
      var (low, high) := RankBounds(c.value);
      minSalary := minSalary + [low];
      maxSalary := maxSalary + [high];
      RunStats.FirstErrorStep(rs, i, fs);
      fs := fs + [c.value];
      i := i + 1;
    }
    assert rs[..i] == rs;
    RunStats.FirstErrorOk(rs);
    r := Ok(seq(|jobs|, k requires 0 <= k < |jobs| => Ranked(jobs[k], minSalary[k], maxSalary[k])));
  }

  /**
   * `sort_values(['mean_salary', 'max_salary', 'min_salary'], ascending=False)`
   * followed by `df['row'] = list(range(1, len(df) + 1))`: the same rows,
   * highest key first, numbered 1..n.
   */
  method RankAndNumber(rows: seq<Ranked>) returns (out: seq<CurrentJob>)
    requires forall k :: 0 <= k < |rows| ==> KeyMatches(rows[k])
    ensures |out| == |rows| && forall k :: 0 <= k < |out| ==> out[k].row == k + 1
    ensures multiset(Project(out, RowJob)) == multiset(Project(rows, RankedJob))
    ensures forall p, q :: 0 <= p < q < |out| ==> AtLeast(SalaryKey(out[p].job), SalaryKey(out[q].job))
  {
    out := SortAndNumber(rows, Classify);
  }

  /** The sort and the numbering, for any classifier the rows' keys agree with. */
  method SortAndNumber(rows: seq<Ranked>, classify: string -> Result<Family, SalaryError>) returns (out: seq<CurrentJob>)
    requires forall k :: 0 <= k < |rows| ==> KeyMatchesWith(rows[k], classify)
    ensures |out| == |rows| && forall k :: 0 <= k < |out| ==> out[k].row == k + 1
    ensures multiset(Project(out, RowJob)) == multiset(Project(rows, RankedJob))
    ensures forall p, q :: 0 <= p < q < |out| ==> AtLeast(SalaryKeyWith(out[p].job, classify), SalaryKeyWith(out[q].job, classify))
  {
    var a := new Ranked[|rows|](k requires 0 <= k < |rows| => rows[k]);
    assert a[..] == rows;
    SortDescending(a, RankKey);
    var sorted := a[..];
    assert forall p :: 0 <= p < |sorted| ==> KeyMatchesWith(sorted[p], classify) by {
      forall p | 0 <= p < |sorted| ensures KeyMatchesWith(sorted[p], classify) {
        assert sorted[p] in multiset(rows);
      }
    }
    assert multiset(Project(sorted, RankedJob)) == multiset(Project(rows, RankedJob)) by {
      ProjectPermutation(sorted, rows, RankedJob);
    }
    out := Numbered(sorted);
  }

  /** `df['row'] = list(range(1, len(df) + 1))` on the sorted rows. */
  function Numbered(sorted: seq<Ranked>): (out: seq<CurrentJob>)
    ensures |out| == |sorted| && forall k :: 0 <= k < |out| ==> out[k] == CurrentJob(k + 1, sorted[k].job)
    ensures Project(out, RowJob) == Project(sorted, RankedJob)
  {
    var out := seq(|sorted|, k requires 0 <= k < |sorted| => CurrentJob(k + 1, sorted[k].job));
    assert Project(out, RowJob) == Project(sorted, RankedJob);
    out
  }

  /**
   * `out` ranks `jobs`: the same rows rearranged, numbered 1..n in order,
   * and sorted with the highest salary key first.
   */
  predicate IsRanking(out: seq<CurrentJob>, jobs: seq<Job>) {
    && |out| == |jobs|
    && (forall k :: 0 <= k < |out| ==> out[k].row == k + 1)
    && multiset(Project(out, RowJob)) == multiset(jobs)
    && (forall p, q :: 0 <= p < q < |out| ==> AtLeast(SalaryKey(out[p].job), SalaryKey(out[q].job)))
  }

  /** The first row of a ranking has the highest salary key of the run. */
  lemma RankingTopIsMax(out: seq<CurrentJob>, jobs: seq<Job>, j: Job)
    requires IsRanking(out, jobs)
    requires j in jobs
    ensures AtLeast(SalaryKey(out[0].job), SalaryKey(j))
  {
    var col := Project(out, RowJob);
    assert j in multiset(col);
    var k :| 0 <= k < |col| && col[k] == j;
    assert out[k].job == j;
  }

  /**
   * `_get_current_jobs_df` / `_get_df_for_jobs_table`. On success the table
   * holds the run's rows, rearranged, sorted by salary key with the highest
   * first, and numbered 1..n in that order; it fails exactly when some salary
   * text does not classify, with the first such row's error.
   */
  method GetCurrentJobs(jobs: seq<Job>) returns (r: Result<seq<CurrentJob>, SalaryError>)
    ensures r.Err? <==> RunStats.ClassifyAll(jobs).Err?
    ensures r.Err? ==> r.error == RunStats.ClassifyAll(jobs).error
    ensures r.Ok? ==> IsRanking(r.value, jobs)
  {
    var columns := SalaryColumns(jobs);
    if columns.Err? {
      return Err(columns.error);
    }
    var rows := columns.value;
    RankedRowsMatch(jobs, RunStats.ClassifyAll(jobs).value);
    assert Project(rows, RankedJob) == jobs;
    var out := RankAndNumber(rows);
    r := Ok(out);
  }
}
