/**
 * The statistics a run stores in `parsing_results`: the share of rows without
 * a salary, and the mean and median salaries over the min and max pools.
 * Both copies of the engine compute them the same way; means and the median
 * are exact rationals here (floating point and `round` are not modelled).
 */
module RunStats {
  import opened Wrappers
  import opened Salary
  import opened Jobs

  // ---------------------------------------------------------------------------
  // Classifying every row

  /** The classifier's verdict on each row. */
  function ClassifyEach(jobs: seq<Job>): (rs: seq<Result<Family, SalaryError>>)
    ensures |rs| == |jobs| && forall i :: 0 <= i < |jobs| ==> rs[i] == Classify(jobs[i].salary)
  {
    Verdicts(jobs, Classify)
  }

  /**
   * The verdicts of a classifier on each row. The loops over the rows are
   * proved for any classifier, so that their proofs do not depend on how a
   * salary text is read; they are then run with `Classify`.
   */
  function Verdicts(jobs: seq<Job>, classify: string -> Result<Family, SalaryError>): (rs: seq<Result<Family, SalaryError>>)
    ensures |rs| == |jobs| && forall i :: 0 <= i < |jobs| ==> rs[i] == classify(jobs[i].salary)
  {
    if jobs == [] then [] else Verdicts(jobs[..|jobs| - 1], classify) + [classify(jobs[|jobs| - 1].salary)]
  }

  /**
   * The values of a sequence of verdicts taken in order, or the first error:
   * what a loop gives that raises on the first row it cannot handle.
   */
  function FirstError<T, E>(rs: seq<Result<T, E>>): Result<seq<T>, E> {
    if rs == [] then Ok([])
    else
      match FirstError(rs[..|rs| - 1])
      case Err(e) => Err(e)
      case Ok(vs) =>
        match rs[|rs| - 1]
        case Err(e) => Err(e)
        case Ok(v) => Ok(vs + [v])
  }

  /** Without an error the values are the verdicts' values, one per verdict. */
  lemma {:induction false} FirstErrorOk<T, E>(rs: seq<Result<T, E>>)
    ensures FirstError(rs).Ok? <==> forall i :: 0 <= i < |rs| ==> rs[i].Ok?
    ensures FirstError(rs).Ok? ==>
      (|FirstError(rs).value| == |rs| && forall i :: 0 <= i < |rs| ==> rs[i] == Ok(FirstError(rs).value[i]))
  {
    if rs != [] {
      var init := rs[..|rs| - 1];
      FirstErrorOk(init);
      assert forall i :: 0 <= i < |init| ==> init[i] == rs[i];
    }
  }

  /** An error is the one of the earliest failing verdict. */
  lemma {:induction false} FirstErrorAt<T, E>(rs: seq<Result<T, E>>, i: nat)
    requires i < |rs| && rs[i].Err?
    requires forall k :: 0 <= k < i ==> rs[k].Ok?
    ensures FirstError(rs) == Err(rs[i].error)
    decreases |rs|
  {
    var init := rs[..|rs| - 1];
    if i == |rs| - 1 {
      FirstErrorOk(init);
      assert forall k :: 0 <= k < |init| ==> init[k] == rs[k];
    } else {
      FirstErrorAt(init, i);
    }
  }

  /** An error after an error-free prefix is the error of the whole sequence. */
  lemma FirstErrorAfterPrefix<T, E>(rs: seq<Result<T, E>>, i: nat)
    requires i < |rs| && rs[i].Err?
    requires FirstError(rs[..i]).Ok?
    ensures FirstError(rs) == Err(rs[i].error)
  {
    FirstErrorOk(rs[..i]);
    assert forall k :: 0 <= k < i ==> rs[..i][k] == rs[k];
    FirstErrorAt(rs, i);
  }

  /** Extending an error-free prefix by one error-free verdict extends the values. */
  lemma FirstErrorStep<T, E>(rs: seq<Result<T, E>>, i: nat, vs: seq<T>)
    requires i < |rs| && rs[i].Ok?
    requires FirstError(rs[..i]) == Ok(vs)
    ensures FirstError(rs[..i + 1]) == Ok(vs + [rs[i].value])
  {
    assert rs[..i + 1][..i] == rs[..i];
  }

  /**
   * The salary family of every row, in order. The source loops over the rows
   * and the first row whose text does not classify raises; that row's error
   * is the result.
   */
  function ClassifyAll(jobs: seq<Job>): Result<seq<Family>, SalaryError> {
    FirstError(ClassifyEach(jobs))
  }

  /** The run classifies as a whole exactly when every row does; then row i has family i. */
  lemma ClassifyAllOkIff(jobs: seq<Job>)
    ensures ClassifyAll(jobs).Ok? <==> forall i :: 0 <= i < |jobs| ==> Classify(jobs[i].salary).Ok?
    ensures ClassifyAll(jobs).Ok? ==>
      (|ClassifyAll(jobs).value| == |jobs| &&
       forall i :: 0 <= i < |jobs| ==> Classify(jobs[i].salary) == Ok(ClassifyAll(jobs).value[i]))
  {
    FirstErrorOk(ClassifyEach(jobs));
  }

  /** A failure is the failure of the earliest row that does not classify. */
  lemma ClassifyAllFailsAtFirst(jobs: seq<Job>, i: nat)
    requires i < |jobs| && Classify(jobs[i].salary).Err?
    requires forall k :: 0 <= k < i ==> Classify(jobs[k].salary).Ok?
    ensures ClassifyAll(jobs) == Err(Classify(jobs[i].salary).error)
  {
    FirstErrorAt(ClassifyEach(jobs), i);
  }

  // ---------------------------------------------------------------------------
  // The pools

  /** `salaries_min` after the loop: the min-pool contributions of the rows, in order. */
  function MinPool(fs: seq<Family>): seq<int> {
    if fs == [] then [] else MinPool(fs[..|fs| - 1]) + MinContribution(fs[|fs| - 1])
  }

  /** `salaries_max` after the loop. */
  function MaxPool(fs: seq<Family>): seq<int> {
    if fs == [] then [] else MaxPool(fs[..|fs| - 1]) + MaxContribution(fs[|fs| - 1])
  }

  /** Both pools, or the error of the first row that does not classify. */
  function PoolsOf(jobs: seq<Job>): Result<(seq<int>, seq<int>), SalaryError> {
    PoolsWith(jobs, Classify)
  }

  function PoolsWith(jobs: seq<Job>, classify: string -> Result<Family, SalaryError>)
    : Result<(seq<int>, seq<int>), SalaryError>
  {
    var fs :- FirstError(Verdicts(jobs, classify));
    Ok((MinPool(fs), MaxPool(fs)))
  }

  /** Whether a family puts a value into the min pool: "от N", a range, a fixed value. */
  predicate FeedsMin(f: Family) {
    f.From? || f.Fork? || f.Fixed?
  }

  /** Whether a family puts a value into the max pool: "до N", a range, a fixed value. */
  predicate FeedsMax(f: Family) {
    f.UpTo? || f.Fork? || f.Fixed?
  }

  /** The min pool holds exactly the lower bounds of the rows that feed it. */
  lemma {:induction false} MinPoolMembers(fs: seq<Family>)
    ensures forall x :: x in MinPool(fs) <==>
      exists i :: 0 <= i < |fs| && FeedsMin(fs[i]) && x == RankBounds(fs[i]).0
  {
    if fs != [] {
      var init := fs[..|fs| - 1];
      MinPoolMembers(init);
      assert forall i :: 0 <= i < |init| ==> init[i] == fs[i];
      forall x | x in MinPool(fs)
        ensures exists i :: 0 <= i < |fs| && FeedsMin(fs[i]) && x == RankBounds(fs[i]).0
      {
        if x !in MinPool(init) {
          assert FeedsMin(fs[|fs| - 1]) && x == RankBounds(fs[|fs| - 1]).0;
        }
      }
    }
  }

  /** The max pool holds exactly the upper bounds of the rows that feed it. */
  lemma {:induction false} MaxPoolMembers(fs: seq<Family>)
    ensures forall x :: x in MaxPool(fs) <==>
      exists i :: 0 <= i < |fs| && FeedsMax(fs[i]) && x == RankBounds(fs[i]).1
  {
    if fs != [] {
      var init := fs[..|fs| - 1];
      MaxPoolMembers(init);
      assert forall i :: 0 <= i < |init| ==> init[i] == fs[i];
      forall x | x in MaxPool(fs)
        ensures exists i :: 0 <= i < |fs| && FeedsMax(fs[i]) && x == RankBounds(fs[i]).1
      {
        if x !in MaxPool(init) {
          assert FeedsMax(fs[|fs| - 1]) && x == RankBounds(fs[|fs| - 1]).1;
        }
      }
    }
  }

  /** The min pool is empty exactly when no row is "от N", a range or a fixed value. */
  lemma {:induction false} MinPoolEmptyIff(fs: seq<Family>)
    ensures MinPool(fs) == [] <==> forall i :: 0 <= i < |fs| ==> !FeedsMin(fs[i])
  {
    if fs != [] {
      var init := fs[..|fs| - 1];
      MinPoolEmptyIff(init);
      assert forall i :: 0 <= i < |init| ==> init[i] == fs[i];
    }
  }

  /** The max pool is empty exactly when no row is "до N", a range or a fixed value. */
  lemma {:induction false} MaxPoolEmptyIff(fs: seq<Family>)
    ensures MaxPool(fs) == [] <==> forall i :: 0 <= i < |fs| ==> !FeedsMax(fs[i])
  {
    if fs != [] {
      var init := fs[..|fs| - 1];
      MaxPoolEmptyIff(init);
      assert forall i :: 0 <= i < |init| ==> init[i] == fs[i];
    }
  }

  // ---------------------------------------------------------------------------
  // Sums, means and medians

  function Sum(xs: seq<int>): int {
    if xs == [] then 0 else Sum(xs[..|xs| - 1]) + xs[|xs| - 1]
  }

  /** `pd.Series(xs).mean()` on a non-empty pool, exactly. */
  function Mean(xs: seq<int>): real
    requires |xs| > 0
  {
    Sum(xs) as real / |xs| as real
  }

  lemma {:induction false} SumAppend(a: seq<int>, b: seq<int>)
    ensures Sum(a + b) == Sum(a) + Sum(b)
    decreases |b|
  {
    if b == [] {
      assert a + b == a;
    } else {
      var b' := b[..|b| - 1];
      assert (a + b)[..|a + b| - 1] == a + b';
      SumAppend(a, b');
    }
  }

  lemma {:induction false} SumBounds(xs: seq<int>, lo: int, hi: int)
    requires forall i :: 0 <= i < |xs| ==> lo <= xs[i] <= hi
    ensures |xs| * lo <= Sum(xs) <= |xs| * hi
  {
    if xs != [] {
      var init := xs[..|xs| - 1];
      assert forall i :: 0 <= i < |init| ==> init[i] == xs[i];
      SumBounds(init, lo, hi);
    }
  }

  /** A mean lies between any bounds of its pool. */
  lemma MeanBounds(xs: seq<int>, lo: int, hi: int)
    requires |xs| > 0
    requires forall i :: 0 <= i < |xs| ==> lo <= xs[i] <= hi
    ensures lo as real <= Mean(xs) <= hi as real
  {
    SumBounds(xs, lo, hi);
    var n := |xs| as real;
    assert n * lo as real <= Sum(xs) as real <= n * hi as real;
    assert Mean(xs) * n == Sum(xs) as real;
  }

  /** The mean of `min ++ max` is the size-weighted mean of the two pools' means. */
  lemma CombinedMean(mn: seq<int>, mx: seq<int>)
    requires |mn| > 0 && |mx| > 0
    ensures Mean(mn + mx) == (|mn| as real * Mean(mn) + |mx| as real * Mean(mx)) / (|mn| + |mx|) as real
  {
    var a, b := |mn| as real, |mx| as real;
    assert Mean(mn + mx) == (Sum(mn) + Sum(mx)) as real / (a + b) by {
      SumAppend(mn, mx);
    }
    ScaledMean(mn);
    ScaledMean(mx);
  }

  /** A mean times its pool's size is the pool's sum. */
  lemma ScaledMean(xs: seq<int>)
    requires |xs| > 0
    ensures |xs| as real * Mean(xs) == Sum(xs) as real
  {
    TimesQuotient(Sum(xs) as real, |xs| as real);
  }

  lemma TimesQuotient(s: real, n: real)
    requires n != 0.0
    ensures n * (s / n) == s
  {
  }

  predicate SortedAsc(s: seq<int>) {
    forall i, j :: 0 <= i < j < |s| ==> s[i] <= s[j]
  }

  function Insert(x: int, s: seq<int>): seq<int> {
    if s == [] then [x]
    else if x <= s[0] then [x] + s
    else [s[0]] + Insert(x, s[1..])
  }

  lemma {:induction false} InsertElements(x: int, s: seq<int>)
    ensures multiset(Insert(x, s)) == multiset(s) + multiset{x}
  {
    if s != [] {
      if x <= s[0] {
        assert multiset([x] + s) == multiset{x} + multiset(s);
      } else {
        InsertElements(x, s[1..]);
        assert s == [s[0]] + s[1..];
        assert multiset([s[0]] + Insert(x, s[1..])) == multiset{s[0]} + multiset(Insert(x, s[1..]));
      }
    }
  }
  /** A value no larger than the head of an ascending sequence can be put in front of it. */
  lemma ConsSorted(a: int, r: seq<int>)
    requires SortedAsc(r)
    requires forall k :: 0 <= k < |r| ==> a <= r[k]
    ensures SortedAsc([a] + r)
  {
    var c := [a] + r;
    forall i, j | 0 <= i < j < |c| ensures c[i] <= c[j] {
      assert c[j] == r[j - 1];
      if i > 0 {
        assert c[i] == r[i - 1];
      }
    }
  }

  /** Inserting keeps every lower bound of the value and of the sequence. */
  lemma InsertLowerBound(x: int, s: seq<int>, b: int)
    requires b <= x && forall k :: 0 <= k < |s| ==> b <= s[k]
    ensures forall k :: 0 <= k < |Insert(x, s)| ==> b <= Insert(x, s)[k]
  {
    var r := Insert(x, s);
    InsertElements(x, s);
    forall k | 0 <= k < |r| ensures b <= r[k] {
      assert r[k] in multiset(r);
      if r[k] != x {
        assert r[k] in multiset(s);
        var m :| 0 <= m < |s| && s[m] == r[k];
      }
    }
  }

  lemma {:induction false} InsertSorted(x: int, s: seq<int>)
    requires SortedAsc(s)
    ensures SortedAsc(Insert(x, s))
  {
    if s != [] && x > s[0] {
      var tail := s[1..];
      assert SortedAsc(tail);
      InsertSorted(x, tail);
      InsertLowerBound(x, tail, s[0]);
      ConsSorted(s[0], Insert(x, tail));
    } else if s != [] {
      ConsSorted(x, s);
    }
  }

  /** The pool in ascending order, as `median()` sorts it. */
  function SortAsc(xs: seq<int>): seq<int> {
    if xs == [] then [] else Insert(xs[0], SortAsc(xs[1..]))
  }

  lemma {:induction false} SortAscSorted(xs: seq<int>)
    ensures SortedAsc(SortAsc(xs)) && multiset(SortAsc(xs)) == multiset(xs)
  {
    if xs != [] {
      SortAscSorted(xs[1..]);
      InsertSorted(xs[0], SortAsc(xs[1..]));
      InsertElements(xs[0], SortAsc(xs[1..]));
      assert xs == [xs[0]] + xs[1..];
    }
  }

  /** `pd.Series(xs).median()` on a non-empty pool: the middle value, or the mean of the two middle values. */
  function Median(xs: seq<int>): real
    requires |xs| > 0
  {
    var s := SortAsc(xs);
    SortAscSorted(xs);
    assert |s| == |multiset(s)| == |xs|;
    var n := |s|;
    if n % 2 == 1 then s[n / 2] as real else (s[n / 2 - 1] + s[n / 2]) as real / 2.0
  }

  /** Two ascending sequences with the same elements are equal. */
  lemma {:induction false} SortedUnique(s: seq<int>, t: seq<int>)
    requires SortedAsc(s) && SortedAsc(t) && multiset(s) == multiset(t)
    ensures s == t
  {
    assert |s| == |multiset(s)| == |t|;
    if s != [] {
      assert s[0] == t[0] by {
        assert s[0] in multiset(s) && t[0] in multiset(t);
        SortedHeadIsLeast(s, t[0]);
        SortedHeadIsLeast(t, s[0]);
      }
      assert multiset(s[1..]) == multiset(t[1..]) by {
        MultisetTail(s);
        MultisetTail(t);
      }
      assert SortedAsc(s[1..]) && SortedAsc(t[1..]) by {
        SortedTail(s);
        SortedTail(t);
      }
      SortedUnique(s[1..], t[1..]);
      assert s == [s[0]] + s[1..] && t == [t[0]] + t[1..];
    }
  }

  lemma SortedTail(s: seq<int>)
    requires SortedAsc(s) && s != []
    ensures SortedAsc(s[1..])
  {
    forall i, j | 0 <= i < j < |s| - 1 ensures s[1..][i] <= s[1..][j] {
      assert s[1..][i] == s[i + 1] && s[1..][j] == s[j + 1];
    }
  }

  lemma SortedHeadIsLeast(s: seq<int>, y: int)
    requires SortedAsc(s) && s != [] && y in multiset(s)
    ensures s[0] <= y
  {
    var m :| 0 <= m < |s| && s[m] == y;
    if m > 0 {
      assert s[0] <= s[m];
    }
  }

  lemma MultisetTail(s: seq<int>)
    requires s != []
    ensures multiset(s[1..]) == multiset(s) - multiset{s[0]}
  {
    assert s == [s[0]] + s[1..];
  }

  /** The median depends only on the pool's values, not on the order the rows were visited in. */
  lemma MedianIgnoresOrder(xs: seq<int>, ys: seq<int>)
    requires |xs| > 0 && multiset(xs) == multiset(ys)
    ensures |ys| > 0 && Median(xs) == Median(ys)
  {
    assert |xs| == |multiset(xs)| == |ys|;
    SortAscSorted(xs);
    SortAscSorted(ys);
    SortedUnique(SortAsc(xs), SortAsc(ys));
  }

  /** A median lies between any bounds of its pool. */
  lemma MedianBounds(xs: seq<int>, lo: int, hi: int)
    requires |xs| > 0
    requires forall i :: 0 <= i < |xs| ==> lo <= xs[i] <= hi
    ensures lo as real <= Median(xs) <= hi as real
  {
    var s := SortAsc(xs);
    SortAscSorted(xs);
    forall k | 0 <= k < |s| ensures lo <= s[k] <= hi {
      assert s[k] in multiset(xs);
    }
  }

  // ---------------------------------------------------------------------------
  // The statistics of a run

  datatype SalaryStats = SalaryStats(salaryMean: real, salaryMedian: real, minSalaryMean: real, maxSalaryMean: real)

  datatype StatsError =
    | Unparsable(cause: SalaryError)   // a row's salary text made `split()` or `int()` raise
    | EmptyPool                        // `round()` of the NaN an empty pool's mean gives raises

  /** The four statistics of two pools; mean and median of the combined pool `min ++ max`. */
  function StatsOfPools(mn: seq<int>, mx: seq<int>): Result<SalaryStats, StatsError> {
    if |mn| == 0 || |mx| == 0 then Err(EmptyPool)
    else Ok(SalaryStats(Mean(mn + mx), Median(mn + mx), Mean(mn), Mean(mx)))
  }

  /** What `_find_salary_mean_and_median` / `find_salary_mean_and_median` compute for a run's rows. */
  function SalaryStatsOf(jobs: seq<Job>): Result<SalaryStats, StatsError> {
    match PoolsOf(jobs)
    case Err(e) => Err(Unparsable(e))
    case Ok((mn, mx)) => StatsOfPools(mn, mx)
  }

  /**
   * `_find_salary_mean_and_median` / `find_salary_mean_and_median`: fill the
   * pools, then take the statistics.
   */
  method FindSalaryMeanAndMedian(jobs: seq<Job>) returns (r: Result<SalaryStats, StatsError>)
    ensures r == SalaryStatsOf(jobs)
  {
    var pools := FillPools(jobs, Classify);
    if pools.Err? {
      return Err(Unparsable(pools.error));
    }
    r := StatsOfPools(pools.value.0, pools.value.1);
  }

  /**
   * The loop over the rows: each family appends to the pools as the source's
   * branches do; the first row whose text does not classify raises.
   */
  method FillPools(jobs: seq<Job>, classify: string -> Result<Family, SalaryError>)
    returns (r: Result<(seq<int>, seq<int>), SalaryError>)
    ensures r == PoolsWith(jobs, classify)
  {
    var salariesMin: seq<int> := [];
    var salariesMax: seq<int> := [];
    ghost var rs := Verdicts(jobs, classify);
    ghost var fs: seq<Family> := [];
    var i := 0;
    while i < |jobs|
      invariant 0 <= i <= |jobs|
      invariant FirstError(rs[..i]) == Ok(fs)
      invariant salariesMin == MinPool(fs) && salariesMax == MaxPool(fs)
    {
      var c := classify(jobs[i].salary);
      assert c == rs[i];
      if c.Err? {
        FirstErrorAfterPrefix(rs, i);
        return Err(c.error);
      }
      match c.value {
      case From(n) =>
        salariesMin := salariesMin + [n];
      case UpTo(n) =>
        salariesMax := salariesMax + [n];
      case Fork(low, high) =>
        salariesMin := salariesMin + [low];
        salariesMax := salariesMax + [high];
      case NotSpecified =>
      case Fixed(n) =>
        salariesMin := salariesMin + [n];
        salariesMax := salariesMax + [n];
      }
      FirstErrorStep(rs, i, fs);
      assert (fs + [c.value])[..|fs|] == fs;
      fs := fs + [c.value];
      i := i + 1;
    }
    assert rs[..i] == rs;
    r := Ok((salariesMin, salariesMax));
  }

  /** Statistics exist only for a run with rows, all of whose salary texts classify. */
  lemma StatsNeedRows(jobs: seq<Job>)
    requires SalaryStatsOf(jobs).Ok?
    ensures |jobs| > 0 && ClassifyAll(jobs).Ok?
  {
    assert ClassifyEach([]) == [];
  }

  /** The statistics fail on an empty pool exactly when every row is "до"/unspecified, or every row is "от"/unspecified. */
  lemma EmptyPoolIff(jobs: seq<Job>)
    requires ClassifyAll(jobs).Ok?
    ensures var fs := ClassifyAll(jobs).value;
      SalaryStatsOf(jobs) == Err(EmptyPool) <==>
        (forall i :: 0 <= i < |fs| ==> !FeedsMin(fs[i])) || (forall i :: 0 <= i < |fs| ==> !FeedsMax(fs[i]))
  {
    var fs := ClassifyAll(jobs).value;
    MinPoolEmptyIff(fs);
    MaxPoolEmptyIff(fs);
  }

  /** `salary_mean` is the size-weighted mean of `min_salary_mean` and `max_salary_mean`. */
  lemma SalaryMeanIsWeighted(mn: seq<int>, mx: seq<int>)
    requires StatsOfPools(mn, mx).Ok?
    ensures var st := StatsOfPools(mn, mx).value;
      st.salaryMean == (|mn| as real * st.minSalaryMean + |mx| as real * st.maxSalaryMean) / (|mn| + |mx|) as real
  {
    var st := StatsOfPools(mn, mx).value;
    assert st.salaryMean == Mean(mn + mx) && st.minSalaryMean == Mean(mn) && st.maxSalaryMean == Mean(mx);
    CombinedMean(mn, mx);
  }

  /** Every statistic lies within any bounds of the salaries in the two pools. */
  lemma StatsWithinBounds(mn: seq<int>, mx: seq<int>, lo: int, hi: int)
    requires StatsOfPools(mn, mx).Ok?
    requires forall i :: 0 <= i < |mn| ==> lo <= mn[i] <= hi
    requires forall i :: 0 <= i < |mx| ==> lo <= mx[i] <= hi
    ensures var st := StatsOfPools(mn, mx).value;
      && lo as real <= st.salaryMean <= hi as real
      && lo as real <= st.salaryMedian <= hi as real
      && lo as real <= st.minSalaryMean <= hi as real
      && lo as real <= st.maxSalaryMean <= hi as real
  {
    var all := mn + mx;
    forall i | 0 <= i < |all| ensures lo <= all[i] <= hi {
      if i >= |mn| {
        assert all[i] == mx[i - |mn|];
      }
    }
    MeanBounds(all, lo, hi);
    MedianBounds(all, lo, hi);
    MeanBounds(mn, lo, hi);
    MeanBounds(mx, lo, hi);
  }

  // ---------------------------------------------------------------------------
  // The share of rows without a salary

  /** `df.loc[df['salary'] == 'Не указано']['salary'].count()`. */
  function MarkerCount(jobs: seq<Job>): (n: nat)
    ensures n <= |jobs|
  {
    if jobs == [] then 0
    else MarkerCount(jobs[..|jobs| - 1]) + (if jobs[|jobs| - 1].salary == NotSpecifiedText then 1 else 0)
  }

  lemma {:induction false} MarkerCountNoneIff(jobs: seq<Job>)
    ensures MarkerCount(jobs) == 0 <==> forall i :: 0 <= i < |jobs| ==> jobs[i].salary != NotSpecifiedText
  {
    if jobs != [] {
      var init := jobs[..|jobs| - 1];
      MarkerCountNoneIff(init);
      assert forall i :: 0 <= i < |init| ==> init[i] == jobs[i];
    }
  }

  lemma {:induction false} MarkerCountAllIff(jobs: seq<Job>)
    ensures MarkerCount(jobs) == |jobs| <==> forall i :: 0 <= i < |jobs| ==> jobs[i].salary == NotSpecifiedText
  {
    if jobs != [] {
      var init := jobs[..|jobs| - 1];
      MarkerCountAllIff(init);
      assert forall i :: 0 <= i < |init| ==> init[i] == jobs[i];
    }
  }

  /**
   * `_find_jobs_without_salary` / `find_jobs_without_salary` before rounding.
   * The row count is never zero: the run stops on an empty result first.
   */
  function JobsWithoutSalaryPercent(jobs: seq<Job>): (p: real)
    requires |jobs| > 0
    ensures 0.0 <= p <= 100.0
    ensures p == 0.0 <==> forall i :: 0 <= i < |jobs| ==> jobs[i].salary != NotSpecifiedText
    ensures p == 100.0 <==> forall i :: 0 <= i < |jobs| ==> jobs[i].salary == NotSpecifiedText
  {
    MarkerCountNoneIff(jobs);
    MarkerCountAllIff(jobs);
    PercentOf(MarkerCount(jobs) as real, |jobs| as real);
    (MarkerCount(jobs) as real / |jobs| as real) * 100.0
  }

  /** The percentage `c / n * 100` of a part `c` of a positive whole `n`. */
  lemma PercentOf(c: real, n: real)
    requires 0.0 <= c <= n && n > 0.0
    ensures 0.0 <= (c / n) * 100.0 <= 100.0
    ensures (c / n) * 100.0 == 0.0 <==> c == 0.0
    ensures (c / n) * 100.0 == 100.0 <==> c == n
  {
    var q := c / n;
    assert q * n == c;
    assert (q - 1.0) * n == c - n && (0.0 - q) * n == 0.0 - c;
    if q > 1.0 {
      ProductPositive(q - 1.0, n);
    }
    if q < 0.0 {
      ProductPositive(0.0 - q, n);
    }
  }

  lemma ProductPositive(a: real, b: real)
    requires a > 0.0 && b > 0.0
    ensures a * b > 0.0
  {
  }

  /** Counts of `NotSpecified` families. */
  function NotSpecifiedCount(fs: seq<Family>): nat {
    if fs == [] then 0 else NotSpecifiedCount(fs[..|fs| - 1]) + (if fs[|fs| - 1].NotSpecified? then 1 else 0)
  }

  /** The rows the percentage counts are exactly the rows the pools skip. */
  lemma {:induction false} MarkerRowsAreUnspecified(jobs: seq<Job>)
    requires ClassifyAll(jobs).Ok?
    ensures MarkerCount(jobs) == NotSpecifiedCount(ClassifyAll(jobs).value)
  {
    if jobs != [] {
      var init := jobs[..|jobs| - 1];
      var rs := ClassifyEach(jobs);
      assert ClassifyEach(init) == rs[..|rs| - 1];
      FirstErrorOk(rs);
      MarkerRowsAreUnspecified(init);
      NotSpecifiedIffMarker(jobs[|jobs| - 1].salary);
      assert forall i :: 0 <= i < |init| ==> init[i] == jobs[i];
    }
  }
}
