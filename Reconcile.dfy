/**
 * Reconciling a run against the stored snapshot tables. Both copies of the
 * engine join the run's `(date, href)` pairs with the stored `unique_jobs`
 * table on `href` (a full outer join) and keep, for `unique_jobs`, the rows
 * the stored side lacks and, for the closures, the rows the run lacks; those
 * closures are then joined with the stored `unique_closed_jobs` table and the
 * ones already recorded there are dropped. An outer join followed by a
 * null-filter on one side is a filter by href membership; it is written so
 * here, each output in the order of the table that drives it.
 */
module Reconcile {
  import opened Jobs

  /** What reading a stored table gives: nothing (the table does not exist yet) or its rows. */
  datatype TableRead<T> = Missing | Rows(rows: seq<T>)

  /** A missing table and an empty one are both read as no rows. */
  function RowsOrEmpty<T>(t: TableRead<T>): (rows: seq<T>)
    ensures t.Missing? ==> rows == []
    ensures t.Rows? ==> rows == t.rows
  {
    match t
    case Missing => []
    case Rows(rows) => rows
  }

  function Hrefs(s: seq<UniqueJob>): set<string> {
    set u | u in s :: u.href
  }

  function ClosedHrefs(s: seq<ClosedJob>): set<string> {
    set c | c in s :: c.href
  }

  /** No two rows share an href. */
  predicate HrefsDistinct(s: seq<UniqueJob>) {
    forall i, j :: 0 <= i < j < |s| ==> s[i].href != s[j].href
  }

  predicate ClosedHrefsDistinct(s: seq<ClosedJob>) {
    forall i, j :: 0 <= i < j < |s| ==> s[i].href != s[j].href
  }

  /**
   * `_get_unique_jobs_df` / `_get_df_for_unique_jobs_table`: the run's rows
   * whose href the stored table does not hold, each with the publication date the run read for it.
   */
  function NewUnique(prior: seq<UniqueJob>, current: seq<UniqueJob>): (out: seq<UniqueJob>)
    ensures forall u :: u in out <==> u in current && u.href !in Hrefs(prior)
    ensures |out| <= |current|
  {
    if current == [] then []
    else
      (if current[0].href in Hrefs(prior) then [] else [current[0]]) + NewUnique(prior, current[1..])
  }

  /** The closure of a stored row that the run no longer shows, on day `runDay`. */
  function Close(u: UniqueJob, runDay: int): ClosedJob {
    ClosedJob(u.href, u.date, runDay, runDay - u.date)
  }

  /**
   * The first half of `_get_unique_closed_jobs_df` /
   * `_get_df_for_closed_unique_jobs_table`: every stored unique row whose
   * href the run does not show, closed on the run's day, with its lifetime
   * in days.
   */
  function ClosureCandidates(prior: seq<UniqueJob>, current: seq<UniqueJob>, runDay: int): (out: seq<ClosedJob>)
    ensures forall u :: u in prior && u.href !in Hrefs(current) ==> Close(u, runDay) in out
    ensures forall c :: c in out ==> exists u :: u in prior && u.href !in Hrefs(current) && c == Close(u, runDay)
    ensures |out| <= |prior|
  {
    if prior == [] then []
    else
      (if prior[0].href in Hrefs(current) then [] else [Close(prior[0], runDay)])
      + ClosureCandidates(prior[1..], current, runDay)
  }

  /**
   * The second half: the candidates whose href the stored
   * `unique_closed_jobs` table does not hold yet; rows only that table holds
   * are never emitted.
   */
  function NewClosed(priorClosed: seq<ClosedJob>, candidates: seq<ClosedJob>): (out: seq<ClosedJob>)
    ensures forall c :: c in out <==> c in candidates && c.href !in ClosedHrefs(priorClosed)
    ensures |out| <= |candidates|
  {
    if candidates == [] then []
    else
      (if candidates[0].href in ClosedHrefs(priorClosed) then [] else [candidates[0]])
      + NewClosed(priorClosed, candidates[1..])
  }

  // ---------------------------------------------------------------------------
  // Properties of a run

  /** A closure's fields: published on the stored date, closed on the run's day, lifetime the difference. */
  lemma ClosureFields(prior: seq<UniqueJob>, current: seq<UniqueJob>, runDay: int, c: ClosedJob)
    requires c in ClosureCandidates(prior, current, runDay)
    ensures c.closingDate == runDay && c.dateDiff == c.closingDate - c.publicationDate
    ensures c.href in Hrefs(prior) && c.href !in Hrefs(current)
  {
    var u :| u in prior && u.href !in Hrefs(current) && c == Close(u, runDay);
  }

  /** A vacancy published no later than the run's day has a non-negative lifetime. */
  lemma LifetimeNonNegative(prior: seq<UniqueJob>, current: seq<UniqueJob>, runDay: int, c: ClosedJob)
    requires forall u :: u in prior ==> u.date <= runDay
    requires c in ClosureCandidates(prior, current, runDay)
    ensures c.dateDiff >= 0
  {
    var u :| u in prior && u.href !in Hrefs(current) && c == Close(u, runDay);
  }

  /** With nothing stored, every row of the run is new and nothing closes. */
  lemma {:induction false} ColdStart(current: seq<UniqueJob>, runDay: int)
    ensures NewUnique([], current) == current
    ensures ClosureCandidates([], current, runDay) == []
  {
    if current != [] {
      ColdStart(current[1..], runDay);
    }
  }

  lemma {:induction false} NewClosedOfEmpty(candidates: seq<ClosedJob>)
    ensures NewClosed([], candidates) == candidates
  {
    if candidates != [] {
      NewClosedOfEmpty(candidates[1..]);
    }
  }

  lemma {:induction false} NewUniqueAppendPrior(prior: seq<UniqueJob>, extra: seq<UniqueJob>, current: seq<UniqueJob>)
    requires forall u :: u in current ==> u.href in Hrefs(prior) || u.href in Hrefs(extra)
    ensures NewUnique(prior + extra, current) == []
  {
    if current != [] {
      assert current[0] in current;
      assert Hrefs(prior + extra) == Hrefs(prior) + Hrefs(extra);
      NewUniqueAppendPrior(prior, extra, current[1..]);
    }
  }

  /** Once the new rows are stored, the same run finds nothing new. */
  lemma NewUniqueIdempotent(prior: seq<UniqueJob>, current: seq<UniqueJob>)
    ensures NewUnique(prior + NewUnique(prior, current), current) == []
  {
    var added := NewUnique(prior, current);
    forall u | u in current ensures u.href in Hrefs(prior) || u.href in Hrefs(added) {
      if u.href !in Hrefs(prior) {
        assert u in added;
      }
    }
    NewUniqueAppendPrior(prior, added, current);
  }

  lemma {:induction false} NewClosedAppendPrior(priorClosed: seq<ClosedJob>, extra: seq<ClosedJob>, candidates: seq<ClosedJob>)
    requires forall c :: c in candidates ==> c.href in ClosedHrefs(priorClosed) || c.href in ClosedHrefs(extra)
    ensures NewClosed(priorClosed + extra, candidates) == []
  {
    if candidates != [] {
      assert candidates[0] in candidates;
      assert ClosedHrefs(priorClosed + extra) == ClosedHrefs(priorClosed) + ClosedHrefs(extra);
      NewClosedAppendPrior(priorClosed, extra, candidates[1..]);
    }
  }

  /** Once the new closures are stored, the same candidates add nothing. */
  lemma NewClosedIdempotent(priorClosed: seq<ClosedJob>, candidates: seq<ClosedJob>)
    ensures NewClosed(priorClosed + NewClosed(priorClosed, candidates), candidates) == []
  {
    var added := NewClosed(priorClosed, candidates);
    forall c | c in candidates ensures c.href in ClosedHrefs(priorClosed) || c.href in ClosedHrefs(added) {
      if c.href !in ClosedHrefs(priorClosed) {
        assert c in added;
      }
    }
    NewClosedAppendPrior(priorClosed, added, candidates);
  }

  lemma {:induction false} ClosureCandidatesAppend(prior: seq<UniqueJob>, extra: seq<UniqueJob>, current: seq<UniqueJob>, runDay: int)
    requires forall u :: u in extra ==> u.href in Hrefs(current)
    ensures ClosureCandidates(prior + extra, current, runDay) == ClosureCandidates(prior, current, runDay)
  {
    if prior == [] {
      ClosuresOfCurrentRows(extra, current, runDay);
      assert [] + extra == extra;
    } else {
      assert (prior + extra)[0] == prior[0];
      assert (prior + extra)[1..] == prior[1..] + extra;
      ClosureCandidatesAppend(prior[1..], extra, current, runDay);
    }
  }

  lemma {:induction false} ClosuresOfCurrentRows(rows: seq<UniqueJob>, current: seq<UniqueJob>, runDay: int)
    requires forall u :: u in rows ==> u.href in Hrefs(current)
    ensures ClosureCandidates(rows, current, runDay) == []
  {
    if rows != [] {
      assert rows[0] in rows;
      ClosuresOfCurrentRows(rows[1..], current, runDay);
    }
  }

  /**
   * Storing the new unique rows before computing the closures (the order
   * `set_etl_data_to_bd` writes in) gives the same closures as computing
   * them from the table as it was.
   */
  lemma ClosuresIgnoreNewRows(prior: seq<UniqueJob>, current: seq<UniqueJob>, runDay: int)
    ensures ClosureCandidates(prior + NewUnique(prior, current), current, runDay)
         == ClosureCandidates(prior, current, runDay)
  {
    var added := NewUnique(prior, current);
    forall u | u in added ensures u.href in Hrefs(current) {
      assert u in current;
    }
    ClosureCandidatesAppend(prior, added, current, runDay);
  }

  lemma {:induction false} NewUniqueDistinct(prior: seq<UniqueJob>, current: seq<UniqueJob>)
    requires HrefsDistinct(current)
    ensures HrefsDistinct(NewUnique(prior, current))
  {
    if current != [] {
      var rest := NewUnique(prior, current[1..]);
      assert HrefsDistinct(current[1..]) by {
        forall i, j | 0 <= i < j < |current[1..]| ensures current[1..][i].href != current[1..][j].href {
          assert current[1..][i] == current[i + 1] && current[1..][j] == current[j + 1];
        }
      }
      NewUniqueDistinct(prior, current[1..]);
      forall k | 0 <= k < |rest| ensures rest[k].href != current[0].href {
        assert rest[k] in current[1..];
        var m :| 0 <= m < |current[1..]| && current[1..][m] == rest[k];
        assert current[m + 1] == rest[k];
      }
    }
  }

  /**
   * The stored `unique_jobs` table keeps one row per href: appending a run's
   * new rows to a table without repeated hrefs leaves none repeated, as long
   * as the run itself shows each href once.
   */
  lemma UniqueTableStaysDistinct(prior: seq<UniqueJob>, current: seq<UniqueJob>)
    requires HrefsDistinct(prior) && HrefsDistinct(current)
    ensures HrefsDistinct(prior + NewUnique(prior, current))
  {
    var added := NewUnique(prior, current);
    var s := prior + added;
    NewUniqueDistinct(prior, current);
    forall i, j | 0 <= i < j < |s| ensures s[i].href != s[j].href {
      if j >= |prior| {
        assert s[j] == added[j - |prior|];
        assert s[j] in added;
        if i < |prior| {
          assert s[i] == prior[i];
          assert s[i] in prior;
        } else {
          assert s[i] == added[i - |prior|];
        }
      }
    }
  }

  /** A row put before href-distinct rows that do not hold its href keeps them distinct. */
  lemma ConsClosedDistinct(head: seq<ClosedJob>, rest: seq<ClosedJob>)
    requires |head| <= 1 && ClosedHrefsDistinct(rest)
    requires head != [] ==> forall k :: 0 <= k < |rest| ==> rest[k].href != head[0].href
    ensures ClosedHrefsDistinct(head + rest)
  {
    var s := head + rest;
    forall i, j | 0 <= i < j < |s| ensures s[i].href != s[j].href {
      assert s[j] == rest[j - |head|];
      if i >= |head| {
        assert s[i] == rest[i - |head|];
      }
    }
  }

  /** The rows after the first of href-distinct rows are href-distinct. */
  lemma ClosedTailDistinct(s: seq<ClosedJob>)
    requires s != [] && ClosedHrefsDistinct(s)
    ensures ClosedHrefsDistinct(s[1..])
  {
    forall i, j | 0 <= i < j < |s[1..]| ensures s[1..][i].href != s[1..][j].href {
      assert s[1..][i] == s[i + 1] && s[1..][j] == s[j + 1];
    }
  }

  lemma UniqueTailDistinct(s: seq<UniqueJob>)
    requires s != [] && HrefsDistinct(s)
    ensures HrefsDistinct(s[1..])
  {
    forall i, j | 0 <= i < j < |s[1..]| ensures s[1..][i].href != s[1..][j].href {
      assert s[1..][i] == s[i + 1] && s[1..][j] == s[j + 1];
    }
  }

  lemma {:induction false} NewClosedDistinct(priorClosed: seq<ClosedJob>, candidates: seq<ClosedJob>)
    requires ClosedHrefsDistinct(candidates)
    ensures ClosedHrefsDistinct(NewClosed(priorClosed, candidates))
  {
    if candidates != [] {
      var head := if candidates[0].href in ClosedHrefs(priorClosed) then [] else [candidates[0]];
      var rest := NewClosed(priorClosed, candidates[1..]);
      ClosedTailDistinct(candidates);
      NewClosedDistinct(priorClosed, candidates[1..]);
      forall k | 0 <= k < |rest| ensures rest[k].href != candidates[0].href {
        assert rest[k] in candidates[1..];
        var m :| 0 <= m < |candidates[1..]| && candidates[1..][m] == rest[k];
        assert candidates[m + 1] == rest[k];
      }
      ConsClosedDistinct(head, rest);
    }
  }

  lemma {:induction false} ClosureCandidatesDistinct(prior: seq<UniqueJob>, current: seq<UniqueJob>, runDay: int)
    requires HrefsDistinct(prior)
    ensures ClosedHrefsDistinct(ClosureCandidates(prior, current, runDay))
  {
    if prior != [] {
      var head := if prior[0].href in Hrefs(current) then [] else [Close(prior[0], runDay)];
      var rest := ClosureCandidates(prior[1..], current, runDay);
      UniqueTailDistinct(prior);
      ClosureCandidatesDistinct(prior[1..], current, runDay);
      forall k | 0 <= k < |rest| ensures rest[k].href != prior[0].href {
        assert rest[k] in rest;
        var u :| u in prior[1..] && u.href !in Hrefs(current) && rest[k] == Close(u, runDay);
        var m :| 0 <= m < |prior[1..]| && prior[1..][m] == u;
        assert prior[m + 1] == u;
      }
      ConsClosedDistinct(head, rest);
    }
  }

  /**
   * The stored `unique_closed_jobs` table keeps one row per href, when the
   * `unique_jobs` table it is computed from does.
   */
  lemma ClosedTableStaysDistinct(priorClosed: seq<ClosedJob>, prior: seq<UniqueJob>, current: seq<UniqueJob>, runDay: int)
    requires ClosedHrefsDistinct(priorClosed) && HrefsDistinct(prior)
    ensures ClosedHrefsDistinct(priorClosed + NewClosed(priorClosed, ClosureCandidates(prior, current, runDay)))
  {
    var added := NewClosed(priorClosed, ClosureCandidates(prior, current, runDay));
    var s := priorClosed + added;
    ClosureCandidatesDistinct(prior, current, runDay);
    NewClosedDistinct(priorClosed, ClosureCandidates(prior, current, runDay));
    forall i, j | 0 <= i < j < |s| ensures s[i].href != s[j].href {
      if j >= |priorClosed| {
        assert s[j] == added[j - |priorClosed|];
        assert s[j] in added;
        if i < |priorClosed| {
          assert s[i] == priorClosed[i];
          assert s[i] in priorClosed;
        } else {
          assert s[i] == added[i - |priorClosed|];
        }
      }
    }
  }

  /** After a run is stored, the `unique_jobs` table knows every href it knew and every href the run showed. */
  lemma StoredHrefsAfterRun(prior: seq<UniqueJob>, current: seq<UniqueJob>)
    ensures Hrefs(prior + NewUnique(prior, current)) == Hrefs(prior) + Hrefs(current)
  {
    var added := NewUnique(prior, current);
    forall h | h in Hrefs(current) ensures h in Hrefs(prior + added) {
      var u :| u in current && u.href == h;
      if h !in Hrefs(prior) {
        assert u in added;
        assert u in prior + added;
      } else {
        var v :| v in prior && v.href == h;
        assert v in prior + added;
      }
    }
    forall h | h in Hrefs(prior + added) ensures h in Hrefs(prior) + Hrefs(current) {
      var u :| u in prior + added && u.href == h;
      if u !in prior {
        assert u in current;
      }
    }
  }
}
