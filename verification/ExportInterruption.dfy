/**
 An exception inside `confirm_replacement_ready`, after the ready commit: the worker's handler counts
 a failure and resets a job that is already ready to pending or failed.  The protocol's runs leave
 this out; here its effect on the downloads is stated for every state of a swap.
 */
module ExportInterruption {
  import opened ExportJobs
  import opened ExportProtocol
  import opened ExportRuns
  import opened ExportContinuity

  /** What the handler's two commits leave of the table, with nobody else in between. */
  function Interrupted(s: State, last: bool, now: int): Rows
    requires s.worker.InSwap()
  {
    var u := if last then SetStatus(Failed) else SetStatus(Pending).(clearLease := true);
    Updated(Counted(s.rows, s.worker.job), s.worker.job, u, now)
  }

  /** The downloads that survive are exactly those of other jobs. */
  lemma InterruptedDownloads(s: State, last: bool, now: int, t: Tenant)
    requires s.worker.InSwap() && s.worker.job in s.rows
    ensures Downloadable(Interrupted(s, last, now), t, now) == Downloadable(s.rows, t, now) - {s.worker.job}
  {
    var rows := Interrupted(s, last, now);
    assert rows.Keys == s.rows.Keys && forall i :: i in rows && i != s.worker.job ==> rows[i] == s.rows[i];
  }

  /** Of those, exactly the one whose object the swap has just deleted is not backed. */
  lemma SurvivorBacked(s: State, now: int, t: Tenant, id: Id)
    requires Inv(s) && s.worker.InSwap() && s.clock <= now && id in Downloadable(s.rows, t, now)
    ensures s.rows[id].key.value in s.store <==> !JustPurged(s.worker, id)
  {
    if JustPurged(s.worker, id) {
      assert s.rows[id].key == s.worker.read.key;
    }
  }

  /**
   After an interrupted swap the query has an answer exactly when the tenant has another download than
   the job swapped in, answers only with such a job, and an answer can be downloaded exactly when
   the swap had not deleted its object.
   */
  lemma InterruptedSwap(s: State, last: bool, now: int, t: Tenant)
    requires Inv(s) && s.worker.InSwap() && s.clock <= now
    ensures var rows := Interrupted(s, last, now);
            && ((exists id :: Answers(rows, t, now, id)) <==> Downloadable(s.rows, t, now) - {s.worker.job} != {})
            && forall id :: Answers(rows, t, now, id) ==>
                 && id in Downloadable(s.rows, t, now) && id != s.worker.job && id in rows
                 && rows[id].key == s.rows[id].key
                 && (rows[id].key.value in s.store <==> !JustPurged(s.worker, id))
  {
    var rows := Interrupted(s, last, now);
    InterruptedDownloads(s, last, now, t);
    QueryAnswers(rows, t, now);
    var ids := Downloadable(s.rows, t, now);
    forall id | Answers(rows, t, now, id)
      ensures id in ids && (s.rows[id].key.value in s.store <==> !JustPurged(s.worker, id))
    {
      SurvivorBacked(s, now, t, id);
    }
  }

  /** Everything the query may answer has its object, and there is an answer. */
  ghost predicate Served(rows: Rows, store: set<Key>, t: Tenant, now: int) {
    && (exists id :: Answers(rows, t, now, id))
    && forall id :: Answers(rows, t, now, id) ==> id in rows && rows[id].key.Some? && rows[id].key.value in store
  }

  /** There is an answer, and every answer is a row whose object is gone. */
  ghost predicate Lost(rows: Rows, store: set<Key>, t: Tenant, now: int) {
    && (exists id :: Answers(rows, t, now, id))
    && forall id :: Answers(rows, t, now, id) ==> id in rows && rows[id].key.Some? && rows[id].key.value !in store
  }

  /** While a swap is covered, its tenant is served. */
  lemma CoveredSwapServes(s: State, t: Tenant)
    requires Inv(s) && SwapOk(s) && Covered(s) && s.rows[s.worker.job].tenant == t
    ensures Served(s.rows, s.store, t, s.clock)
  {
    var n := s.worker.job;
    assert JobOk(s, n);
    assert n in Downloadable(s.rows, t, s.clock);
    QueryAnswers(s.rows, t, s.clock);
    forall id | Answers(s.rows, t, s.clock, id) ensures id == n {
      SwapAnswers(s, id);
    }
  }

  /**
   A tenant with nothing but the job just made ready and the one it replaces loses its download when
   an exception strikes after the delete.
   */
  lemma LastDownloadLost(s: State, last: bool, t: Tenant)
    requires Inv(s) && s.worker.Purged? && s.worker.deleted
    requires Downloadable(s.rows, t, s.clock) == {s.worker.prev, s.worker.job}
    ensures Lost(Interrupted(s, last, s.clock), s.store, t, s.clock)
  {
    var n, p := s.worker.job, s.worker.prev;
    InterruptedSwap(s, last, s.clock, t);
    assert p in {p, n} - {n};
    forall id | id in {p, n} && id != n ensures JustPurged(s.worker, id) {
    }
  }

  /** Such a swap is reached by two requests a cooldown apart. */
  lemma InterruptedSwapLosesDownload(last: bool) returns (s: State)
    ensures Reaches(Init(0), s) && s.worker.InSwap() && Served(s.rows, s.store, 0, s.clock)
    ensures Lost(Interrupted(s, last, s.clock), s.store, 0, s.clock)
  {
    s := TwoJobsReachPurge();
    ReachedOk(s);
    assert Downloadable(s.rows, 0, s.clock) == {0, 1};
    CoveredSwapServes(s, 0);
    LastDownloadLost(s, last, 0);
  }

  lemma ReachedOk(s: State)
    requires Reaches(Init(0), s)
    ensures Inv(s) && SwapOk(s)
  {
    var states, events :| Run(states, events) && states[0] == Init(0) && states[|events|] == s;
    RunKeepsSwap(states, events, |events|);
  }
}
