/**
 * The older copy of the processor, `DataEtl` of the settings-based module:
 * the report file name, and the four tables a run writes to the snapshot
 * store. The statistics, the ranking and the reconciliation are the shared
 * ones; what is particular to this copy is the order of the writes, in which
 * `unique_jobs` is already extended when the closures read it again.
 */
module DataEtl {
  import opened Wrappers
  import PyStr
  import opened Calendar
  import opened Jobs
  import RunStats
  import Ranking
  import Reconcile
  import HhParserEngine

  // ---------------------------------------------------------------------------
  // The report file name

  /** `strftime('%m%d_%H%M%S')`: eleven characters after the year. */
  function ClockPart(t: DateTime): (s: string)
    requires ValidDateTime(t)
    ensures |s| == 11
  {
    Pad2(t.date.month) + Pad2(t.date.day) + "_" + Pad2(t.hour) + Pad2(t.minute) + Pad2(t.second)
  }

  /** `strftime('%Y%m%d_%H%M%S')`, the year written as `str()` writes it. */
  function Timestamp(t: DateTime): string
    requires ValidDateTime(t)
  {
    PyStr.NatToStr(t.date.year) + ClockPart(t)
  }

  /** `get_report_file_name`: the search text, `_`, the timestamp and `.xlsx`, every space turned into `-`. */
  function ReportFileName(searchText: string, now: DateTime): string
    requires ValidDateTime(now)
  {
    PyStr.ReplaceChar(searchText + "_" + Timestamp(now) + ".xlsx", ' ', "-")
  }

  lemma Pad2Injective(a: int, b: int)
    requires 0 <= a < 100 && 0 <= b < 100
    requires Pad2(a) == Pad2(b)
    ensures a == b
  {
    assert Pad2(a)[0] == Pad2(b)[0] && Pad2(a)[1] == Pad2(b)[1];
    assert a / 10 == b / 10 && a % 10 == b % 10;
  }

  lemma Pad2HasNoSpace(n: int)
    requires 0 <= n < 100
    ensures ' ' !in Pad2(n)
  {
  }

  lemma TimestampHasNoSpace(t: DateTime)
    requires ValidDateTime(t)
    ensures ' ' !in Timestamp(t)
  {
    Pad2HasNoSpace(t.date.month);
    Pad2HasNoSpace(t.date.day);
    Pad2HasNoSpace(t.hour);
    Pad2HasNoSpace(t.minute);
    Pad2HasNoSpace(t.second);
    assert ' ' !in PyStr.NatToStr(t.date.year);
  }

  /** Two readings of the clock give the same timestamp only when they are the same reading. */
  lemma TimestampInjective(a: DateTime, b: DateTime)
    requires ValidDateTime(a) && ValidDateTime(b)
    ensures Timestamp(a) == Timestamp(b) <==> a == b
  {
    if Timestamp(a) == Timestamp(b) {
      var ya := PyStr.NatToStr(a.date.year);
      var yb := PyStr.NatToStr(b.date.year);
      var ca := ClockPart(a);
      var cb := ClockPart(b);
      assert |ya| == |yb|;
      assert ya == Timestamp(a)[..|ya|] && yb == Timestamp(b)[..|yb|];
      PyStr.NatToStrInjective(a.date.year, b.date.year);
      assert ca == Timestamp(a)[|ya|..] && cb == Timestamp(b)[|yb|..];
      ClockPartInjective(a, b);
    }
  }

  lemma ClockPartInjective(a: DateTime, b: DateTime)
    requires ValidDateTime(a) && ValidDateTime(b)
    requires ClockPart(a) == ClockPart(b)
    ensures a.date.month == b.date.month && a.date.day == b.date.day
    ensures a.hour == b.hour && a.minute == b.minute && a.second == b.second
  {
    var ca := ClockPart(a);
    var cb := ClockPart(b);
    assert ca[0..2] == Pad2(a.date.month) && cb[0..2] == Pad2(b.date.month);
    assert ca[2..4] == Pad2(a.date.day) && cb[2..4] == Pad2(b.date.day);
    assert ca[5..7] == Pad2(a.hour) && cb[5..7] == Pad2(b.hour);
    assert ca[7..9] == Pad2(a.minute) && cb[7..9] == Pad2(b.minute);
    assert ca[9..11] == Pad2(a.second) && cb[9..11] == Pad2(b.second);
    Pad2Injective(a.date.month, b.date.month);
    Pad2Injective(a.date.day, b.date.day);
    Pad2Injective(a.hour, b.hour);
    Pad2Injective(a.minute, b.minute);
    Pad2Injective(a.second, b.second);
  }

  /**
   * The name holds no space, ends in `.xlsx`, and is the search text with its
   * spaces replaced, `_`, and the timestamp: the replacement never touches
   * the timestamp.
   */
  lemma ReportFileNameShape(searchText: string, now: DateTime)
    requires ValidDateTime(now)
    ensures ' ' !in ReportFileName(searchText, now)
    ensures ReportFileName(searchText, now) ==
      PyStr.ReplaceChar(searchText, ' ', "-") + "_" + Timestamp(now) + ".xlsx"
  {
    var ts := Timestamp(now);
    TimestampHasNoSpace(now);
    PyStr.ReplaceCharAppend(searchText + "_" + ts, ".xlsx", ' ', "-");
    PyStr.ReplaceCharAppend(searchText + "_", ts, ' ', "-");
    PyStr.ReplaceCharAppend(searchText, "_", ' ', "-");
    PyStr.ReplaceCharAbsent(ts, ' ', "-");
    PyStr.ReplaceCharAbsent("_", ' ', "-");
    PyStr.ReplaceCharAbsent(".xlsx", ' ', "-");
  }

  /** Runs of the same search at different seconds write different report files. */
  lemma ReportFileNamesDiffer(searchText: string, a: DateTime, b: DateTime)
    requires ValidDateTime(a) && ValidDateTime(b)
    ensures ReportFileName(searchText, a) == ReportFileName(searchText, b) <==> a == b
  {
    ReportFileNameShape(searchText, a);
    ReportFileNameShape(searchText, b);
    if ReportFileName(searchText, a) == ReportFileName(searchText, b) {
      var prefix := PyStr.ReplaceChar(searchText, ' ', "-") + "_";
      var ta := Timestamp(a);
      var tb := Timestamp(b);
      assert prefix + ta + ".xlsx" == prefix + tb + ".xlsx";
      assert |ta| == |tb|;
      assert ta == (prefix + ta + ".xlsx")[|prefix|..|prefix| + |ta|];
      assert tb == (prefix + tb + ".xlsx")[|prefix|..|prefix| + |tb|];
      TimestampInjective(a, b);
    }
  }

  // ---------------------------------------------------------------------------
  // The snapshot store and the writes of a run

  /** The four tables of the database, as `get_table` reads them and `set_table` writes them. */
  class SnapshotStore {
    var parsingResults: seq<HhParserEngine.ParsingResults>
    var currentJobs: seq<CurrentJob>
    var uniqueJobs: Reconcile.TableRead<UniqueJob>
    var uniqueClosedJobs: Reconcile.TableRead<ClosedJob>

    constructor(uniqueJobs: Reconcile.TableRead<UniqueJob>, uniqueClosedJobs: Reconcile.TableRead<ClosedJob>)
      ensures this.parsingResults == [] && this.currentJobs == []
      ensures this.uniqueJobs == uniqueJobs && this.uniqueClosedJobs == uniqueClosedJobs
    {
      parsingResults := [];
      currentJobs := [];
      this.uniqueJobs := uniqueJobs;
      this.uniqueClosedJobs := uniqueClosedJobs;
    }

    /** Neither snapshot table holds an href twice. */
    predicate NoRepeatedHrefs()
      reads this`uniqueJobs, this`uniqueClosedJobs
    {
      Reconcile.HrefsDistinct(Reconcile.RowsOrEmpty(uniqueJobs)) &&
      Reconcile.ClosedHrefsDistinct(Reconcile.RowsOrEmpty(uniqueClosedJobs))
    }
  }

  /** `set_table(df, name, if_exists='append')`: the rows after the stored ones; a missing table is created. */
  function Appended<T>(t: Reconcile.TableRead<T>, rows: seq<T>): Reconcile.TableRead<T> {
    Reconcile.Rows(Reconcile.RowsOrEmpty(t) + rows)
  }

  /**
   * Reading `unique_jobs` back after the run's new rows were appended gives
   * the same closures as the table before the write: the new rows all carry
   * hrefs the run shows, and those never close.
   */
  lemma ClosuresAfterUniqueWrite(data: seq<Job>, storedUnique: Reconcile.TableRead<UniqueJob>,
                                 storedClosed: Reconcile.TableRead<ClosedJob>, today: Date)
    requires ValidDate(today)
    ensures HhParserEngine.ClosedJobsOf(data, Appended(storedUnique, HhParserEngine.UniqueJobsOf(data, storedUnique)),
                                        storedClosed, today) ==
            HhParserEngine.ClosedJobsOf(data, storedUnique, storedClosed, today)
  {
    Reconcile.ClosuresIgnoreNewRows(Reconcile.RowsOrEmpty(storedUnique), DatesAndHrefs(data), DayNumber(today));
  }

  class DataEtl {
    /** The run's table, `parsing_results[0]`. */
    const data: seq<Job>
    const searchText: string
    /** The database behind `ConnPostgreSQL`. */
    const store: SnapshotStore

    constructor(data: seq<Job>, searchText: string, store: SnapshotStore)
      ensures this.data == data && this.searchText == searchText && this.store == store
    {
      this.data := data;
      this.searchText := searchText;
      this.store := store;
    }

    /**
     * `_get_df_for_main_table`: the share of rows without salary, the
     * statistics, the row count and the run's date. Only the statistics can
     * fail; they are taken first here so that the share is only asked of a
     * non-empty table.
     */
    method GetDfForMainTable(now: DateTime) returns (r: Result<HhParserEngine.ParsingResults, RunStats.StatsError>)
      ensures r.Err? <==> RunStats.SalaryStatsOf(data).Err?
      ensures r.Err? ==> r.error == RunStats.SalaryStatsOf(data).error
      ensures r.Ok? ==> r.value == HhParserEngine.ParsingResultsOf(data, now.date)
    {
      var stats := RunStats.FindSalaryMeanAndMedian(data);
      if stats.Err? {
        return Err(stats.error);
      }
      RunStats.StatsNeedRows(data);
      var withoutSalary := RunStats.JobsWithoutSalaryPercent(data);
      r := Ok(HhParserEngine.ParsingResults(withoutSalary, stats.value, |data|, now.date));
    }

    /**
     * `set_etl_data_to_bd`: append the `parsing_results` row, replace
     * `current_jobs`, append the new unique rows, then read `unique_jobs`
     * again and append the new closures. The stored tables end up as the
     * class-based copy computes them from the tables as they were; when the
     * statistics fail nothing is written.
     */
    method SetEtlDataToBd(now: DateTime) returns (r: Result<(), RunStats.StatsError>)
      requires ValidDate(now.date)
      modifies store`parsingResults, store`currentJobs, store`uniqueJobs, store`uniqueClosedJobs
      ensures r.Err? <==> RunStats.SalaryStatsOf(data).Err?
      ensures r.Err? ==> r.error == RunStats.SalaryStatsOf(data).error && unchanged(store)
      ensures r.Ok? ==>
        && store.parsingResults == old(store.parsingResults) + [HhParserEngine.ParsingResultsOf(data, now.date)]
        && Ranking.IsRanking(store.currentJobs, data)
        && store.uniqueJobs == Appended(old(store.uniqueJobs), HhParserEngine.UniqueJobsOf(data, old(store.uniqueJobs)))
        && store.uniqueClosedJobs == Appended(old(store.uniqueClosedJobs),
             HhParserEngine.ClosedJobsOf(data, old(store.uniqueJobs), old(store.uniqueClosedJobs), now.date))
      ensures old(store.NoRepeatedHrefs()) && Reconcile.HrefsDistinct(DatesAndHrefs(data)) ==> store.NoRepeatedHrefs()
    {
      var main := GetDfForMainTable(now);
      if main.Err? {
        return Err(main.error);
      }
      RunStats.StatsNeedRows(data);
      WriteRun(now, main.value);
      r := Ok(());
    }

    /** The four writes of `set_etl_data_to_bd` once the `parsing_results` row `results` is computed. */
    method WriteRun(now: DateTime, results: HhParserEngine.ParsingResults)
      requires ValidDate(now.date)
      requires RunStats.ClassifyAll(data).Ok?
      modifies store`parsingResults, store`currentJobs, store`uniqueJobs, store`uniqueClosedJobs
      ensures store.parsingResults == old(store.parsingResults) + [results]
      ensures Ranking.IsRanking(store.currentJobs, data)
      ensures store.uniqueJobs == Appended(old(store.uniqueJobs), HhParserEngine.UniqueJobsOf(data, old(store.uniqueJobs)))
      ensures store.uniqueClosedJobs == Appended(old(store.uniqueClosedJobs),
        HhParserEngine.ClosedJobsOf(data, old(store.uniqueJobs), old(store.uniqueClosedJobs), now.date))
      ensures old(store.NoRepeatedHrefs()) && Reconcile.HrefsDistinct(DatesAndHrefs(data)) ==> store.NoRepeatedHrefs()
    {
      store.parsingResults := store.parsingResults + [results];
      StoreCurrentJobs();
      StoreSnapshotTables(now);
    }

    /** The second write of `set_etl_data_to_bd`: the ranked `current_jobs` table replaces the stored one. */
    method StoreCurrentJobs()
      requires RunStats.ClassifyAll(data).Ok?
      modifies store`currentJobs
      ensures Ranking.IsRanking(store.currentJobs, data)
    {
      var current := Ranking.GetCurrentJobs(data);
      assert current.Ok?;
      store.currentJobs := current.value;
    }

    /**
     * The last two writes of `set_etl_data_to_bd`: the new unique rows
     * (`_get_df_for_unique_jobs_table`) are appended, then `unique_jobs` is
     * read again for `_get_df_for_closed_unique_jobs_table` and the new
     * closures are appended. A missing table reads as no rows. Neither table
     * comes to hold an href twice.
     */
    method StoreSnapshotTables(now: DateTime)
      requires ValidDate(now.date)
      modifies store`uniqueJobs, store`uniqueClosedJobs
      ensures store.uniqueJobs == Appended(old(store.uniqueJobs), HhParserEngine.UniqueJobsOf(data, old(store.uniqueJobs)))
      ensures store.uniqueClosedJobs == Appended(old(store.uniqueClosedJobs),
        HhParserEngine.ClosedJobsOf(data, old(store.uniqueJobs), old(store.uniqueClosedJobs), now.date))
      ensures old(store.NoRepeatedHrefs()) && Reconcile.HrefsDistinct(DatesAndHrefs(data)) ==> store.NoRepeatedHrefs()
    {
      ghost var priorUnique := store.uniqueJobs;
      ghost var priorClosed := store.uniqueClosedJobs;
      store.uniqueJobs := Appended(store.uniqueJobs, HhParserEngine.UniqueJobsOf(data, store.uniqueJobs));
      ClosuresAfterUniqueWrite(data, priorUnique, store.uniqueClosedJobs, now.date);
      store.uniqueClosedJobs := Appended(store.uniqueClosedJobs,
        HhParserEngine.ClosedJobsOf(data, store.uniqueJobs, store.uniqueClosedJobs, now.date));
      if Reconcile.HrefsDistinct(Reconcile.RowsOrEmpty(priorUnique)) &&
         Reconcile.ClosedHrefsDistinct(Reconcile.RowsOrEmpty(priorClosed)) &&
         Reconcile.HrefsDistinct(DatesAndHrefs(data)) {
        StoreStaysValid(data, priorUnique, priorClosed, now.date);
      }
    }
  }

  /**
   * A run keeps both snapshot tables free of repeated hrefs, as long as the
   * run shows each href once.
   */
  lemma StoreStaysValid(data: seq<Job>, storedUnique: Reconcile.TableRead<UniqueJob>,
                        storedClosed: Reconcile.TableRead<ClosedJob>, today: Date)
    requires ValidDate(today)
    requires Reconcile.HrefsDistinct(Reconcile.RowsOrEmpty(storedUnique))
    requires Reconcile.ClosedHrefsDistinct(Reconcile.RowsOrEmpty(storedClosed))
    requires Reconcile.HrefsDistinct(DatesAndHrefs(data))
    ensures Reconcile.HrefsDistinct(Reconcile.RowsOrEmpty(
      Appended(storedUnique, HhParserEngine.UniqueJobsOf(data, storedUnique))))
    ensures Reconcile.ClosedHrefsDistinct(Reconcile.RowsOrEmpty(
      Appended(storedClosed, HhParserEngine.ClosedJobsOf(data, storedUnique, storedClosed, today))))
  {
    var prior := Reconcile.RowsOrEmpty(storedUnique);
    Reconcile.UniqueTableStaysDistinct(prior, DatesAndHrefs(data));
    Reconcile.ClosedTableStaysDistinct(Reconcile.RowsOrEmpty(storedClosed), prior, DatesAndHrefs(data), DayNumber(today));
  }

  /** Storing a run a second time, with the same clock, appends no unique rows and no closures. */
  lemma SecondStoreAddsNothing(data: seq<Job>, storedUnique: Reconcile.TableRead<UniqueJob>,
                               storedClosed: Reconcile.TableRead<ClosedJob>, today: Date)
    requires ValidDate(today)
    ensures var unique := Appended(storedUnique, HhParserEngine.UniqueJobsOf(data, storedUnique));
      var closed := Appended(storedClosed, HhParserEngine.ClosedJobsOf(data, storedUnique, storedClosed, today));
      HhParserEngine.UniqueJobsOf(data, unique) == [] &&
      HhParserEngine.ClosedJobsOf(data, unique, closed, today) == []
  {
    var unique := Appended(storedUnique, HhParserEngine.UniqueJobsOf(data, storedUnique));
    var prior := Reconcile.RowsOrEmpty(storedUnique);
    var current := DatesAndHrefs(data);
    var candidates := Reconcile.ClosureCandidates(prior, current, DayNumber(today));
    var closedRows := Reconcile.RowsOrEmpty(storedClosed);
    Reconcile.NewUniqueIdempotent(prior, current);
    Reconcile.ClosuresIgnoreNewRows(prior, current, DayNumber(today));
    assert Reconcile.ClosureCandidates(Reconcile.RowsOrEmpty(unique), current, DayNumber(today)) == candidates;
    Reconcile.NewClosedIdempotent(closedRows, candidates);
  }
}
