/**
 Continuity of downloads: once a tenant has a downloadable export, the download query keeps
 answering, through every interleaving and at every point of every swap, until the last expiry;
 and every answer is backed by an object unless a swap has been left open for a whole cooldown.
 */
module ExportContinuity {
  import opened Common
  import opened ExportJobs
  import opened ExportProtocol
  import opened ExportRuns

  /** The swap under way is still covered by the cooldown its job started when it became ready. */
  predicate Covered(s: State) {
    && s.worker.InSwap() && s.worker.job in s.rows && s.rows[s.worker.job].cooldownUntil.Some?
    && s.clock < s.rows[s.worker.job].cooldownUntil.value
  }

  /**
   A job being swapped in expires last and keeps its key until then.  While it is covered it is also
   the tenant's newest download and is not being replaced itself.
   */
  ghost predicate SwapOk(s: State) {
    s.worker.InSwap() ==>
      var n := s.worker.job;
      && n in s.rows
      && LastToExpire(s, n)
      && (Covered(s) ==> NewestDownload(s, n))
      && OlderStamp(s, n)
  }

  /** Job `n` keeps its key until it expires, after its cooldown and after every other ready job. */
  ghost predicate LastToExpire(s: State, n: Id)
    requires n in s.rows
  {
    && s.rows[n].cooldownUntil.Some? && s.rows[n].expiresAt.Some?
    && s.rows[n].cooldownUntil.value <= s.rows[n].expiresAt.value
    && (!s.rows[n].Expired(s.clock) ==> s.rows[n].key.Some?)
    && forall j :: j in s.rows && s.rows[j].status == Ready && s.rows[j].expiresAt.Some?
         ==> s.rows[j].expiresAt.value <= s.rows[n].expiresAt.value
  }

  /** The job being replaced was stamped ready before the job that replaces it. */
  ghost predicate OlderStamp(s: State, n: Id)
    requires n in s.rows
  {
    forall p :: s.rows[n].replaced == Some(p) && p in Downloadable(s.rows, s.rows[n].tenant, s.clock) ==>
      ReadyTime(s.rows[p]) < ReadyTime(s.rows[n])
  }

  ghost predicate NewestDownload(s: State, n: Id)
    requires n in s.rows
  {
    && s.rows[n].replacement.None?
    && forall j :: j in Downloadable(s.rows, s.rows[n].tenant, s.clock) && j != n ==>
         ReadyTime(s.rows[j]) < ReadyTime(s.rows[n])
  }

  lemma DownloadableShrinks(s: State, s': State, f: Effect, t: Tenant, j: Id)
    requires RowsOk(s) && s.clock < s'.clock && RowEffect(s.rows, s'.rows, s'.clock, f)
    requires j in Downloadable(s'.rows, t, s'.clock)
    ensures !(f.Confirm? && f.id == j) ==> j in Downloadable(s.rows, t, s.clock)
    ensures !(f.Confirm? && f.id == j) && !(f.Open? && f.current == Some(j)) ==> s'.rows[j] == s.rows[j]
  {
    assert j in s.rows ==> JobOk(s, j);
  }

  lemma ConfirmOpensSwap(s: State, e: Event)
    requires Inv(s) && Enabled(s, e) && e.action.MarkReady?
    ensures SwapOk(Apply(s, e))
  {
    var s' := Apply(s, e);
    var n := s.worker.job;
    StepEffect(s, e);
    assert JobOk(s, n);
    forall j | j in s'.rows && j != n ensures s'.rows[j] == s.rows[j] && JobOk(s, j) {
    }
  }

  /**
   Nobody takes the key of an unexpired job being swapped in; and while it is covered, no request of
   its tenant is accepted.
   */
  lemma OpenSwapIsQuiet(s: State, e: Event)
    requires Inv(s) && SwapOk(s) && Enabled(s, e) && s.worker.InSwap()
    ensures RowEffect(s.rows, Apply(s, e).rows, e.now, EffectOf(s, e))
    ensures var f, n := EffectOf(s, e), s.worker.job;
            && !f.Confirm? && (f.Progress? ==> f.id != n)
            && (f.Clear? && f.id == n ==> s.rows[n].Expired(e.now))
            && (f.Open? && e.now < s.rows[n].cooldownUntil.value ==>
                  f.tenant != s.rows[n].tenant && f.current != Some(n))
            && (f.Open? && f.current.Some? ==> s.rows[n].replaced != f.current)
  {
    StepEffect(s, e);
    assert JobOk(s, s.worker.job);
    if e.action.Request? && e.action.current.Some? {
      OldJobIsNotCurrent(s, e);
    }
  }

  /** A request never picks the job being replaced: its successor was created later and expires later. */
  lemma OldJobIsNotCurrent(s: State, e: Event)
    requires Inv(s) && SwapOk(s) && Enabled(s, e) && s.worker.InSwap() && e.action.Request? && e.action.current.Some?
    ensures JobOk(s, e.action.current.value) && s.rows[s.worker.job].replaced != e.action.current
  {
    var n, c := s.worker.job, e.action.current.value;
    assert JobOk(s, c) && JobOk(s, n);
    assert s.rows[n].tenant == e.action.tenant ==> n in ReadyRows(s.rows, e.action.tenant, e.now);
  }

  lemma QuietKeepsNewest(s: State, s': State, f: Effect, n: Id)
    requires Inv(s) && n in s.rows && NewestDownload(s, n) && s.clock < s'.clock
    requires RowEffect(s.rows, s'.rows, s'.clock, f)
    requires !f.Confirm? && (f.Clear? || f.Progress? ==> f.id != n)
    requires f.Open? ==> f.tenant != s.rows[n].tenant && f.current != Some(n)
    ensures n in s'.rows && NewestDownload(s', n)
  {
    assert s'.rows[n] == s.rows[n];
    forall j | j in Downloadable(s'.rows, s'.rows[n].tenant, s'.clock) && j != n
      ensures ReadyTime(s'.rows[j]) < ReadyTime(s'.rows[n])
    {
      DownloadableShrinks(s, s', f, s.rows[n].tenant, j);
      assert s'.rows[j] == s.rows[j];
    }
  }

  lemma QuietKeepsSwap(s: State, s': State, f: Effect)
    requires Inv(s) && SwapOk(s) && s.worker.InSwap() && s'.worker.InSwap() && s'.worker.job == s.worker.job
    requires s.clock < s'.clock && RowEffect(s.rows, s'.rows, s'.clock, f)
    requires !f.Confirm? && (f.Progress? ==> f.id != s.worker.job)
    requires f.Clear? && f.id == s.worker.job ==> s.rows[s.worker.job].Expired(s'.clock)
    requires f.Open? && s'.clock < s.rows[s.worker.job].cooldownUntil.value ==>
               f.tenant != s.rows[s.worker.job].tenant && f.current != Some(s.worker.job)
    requires f.Open? && f.current.Some? ==> s.rows[s.worker.job].replaced != f.current
    ensures SwapOk(s')
  {
    var n := s.worker.job;
    QuietKeepsExpiry(s, s', f, n);
    if Covered(s') {
      QuietKeepsNewest(s, s', f, n);
    }
    QuietKeepsStamp(s, s', f, n);
  }

  lemma QuietKeepsExpiry(s: State, s': State, f: Effect, n: Id)
    requires Inv(s) && n in s.rows && s.rows[n].status == Ready && LastToExpire(s, n) && s.clock < s'.clock
    requires RowEffect(s.rows, s'.rows, s'.clock, f) && !f.Confirm? && (f.Progress? ==> f.id != n)
    requires f.Clear? && f.id == n ==> s.rows[n].Expired(s'.clock)
    ensures n in s'.rows && s'.rows[n].cooldownUntil == s.rows[n].cooldownUntil && LastToExpire(s', n)
  {
    assert JobOk(s, n);
    forall j | j in s'.rows && s'.rows[j].status == Ready
      ensures j in s.rows && s.rows[j].status == Ready && s'.rows[j].expiresAt == s.rows[j].expiresAt
    {
    }
  }

  lemma QuietKeepsStamp(s: State, s': State, f: Effect, n: Id)
    requires Inv(s) && n in s.rows && s.rows[n].status == Ready && OlderStamp(s, n) && s.clock < s'.clock
    requires RowEffect(s.rows, s'.rows, s'.clock, f) && !f.Confirm? && (f.Progress? ==> f.id != n)
    requires f.Open? && f.current.Some? ==> s.rows[n].replaced != f.current
    ensures n in s'.rows && OlderStamp(s', n)
  {
    assert JobOk(s, n);
    assert ReadyTime(s.rows[n]) <= ReadyTime(s'.rows[n]);
    forall p | s'.rows[n].replaced == Some(p) && p in Downloadable(s'.rows, s'.rows[n].tenant, s'.clock)
      ensures ReadyTime(s'.rows[p]) < ReadyTime(s'.rows[n])
    {
      DownloadableShrinks(s, s', f, s.rows[n].tenant, p);
      assert s'.rows[p] == s.rows[p];
    }
  }

  lemma StepKeepsSwap(s: State, e: Event)
    requires Inv(s) && SwapOk(s) && Enabled(s, e)
    ensures SwapOk(Apply(s, e))
  {
    if e.action.MarkReady? {
      ConfirmOpensSwap(s, e);
    } else if Apply(s, e).worker.InSwap() {
      OnlyMarkReadyOpensSwap(s, e);
      OpenSwapIsQuiet(s, e);
      QuietKeepsSwap(s, Apply(s, e), EffectOf(s, e));
    }
  }

  lemma OnlyMarkReadyOpensSwap(s: State, e: Event)
    requires WorkerOk(s) && Enabled(s, e) && !e.action.MarkReady? && Apply(s, e).worker.InSwap()
    ensures s.worker.InSwap() && Apply(s, e).worker.job == s.worker.job
  {
  }

  /** During a covered swap the query answers with the job that has just become ready. */
  lemma SwapAnswers(s: State, id: Id)
    requires Inv(s) && SwapOk(s) && Covered(s)
    requires Answers(s.rows, s.rows[s.worker.job].tenant, s.clock, id)
    ensures id == s.worker.job
  {
    var n := s.worker.job;
    var ids := Downloadable(s.rows, s.rows[n].tenant, s.clock);
    assert JobOk(s, n);
    assert n in ids;
    var latest: Id :| Heads(s.rows, ids, latest) &&
                      (if BeingReplaced(s.rows, latest) && ids != {latest}
                       then Heads(s.rows, ids - {latest}, id) else id == latest);
    assert ReadyTime(s.rows[n]) <= ReadyTime(s.rows[latest]);
  }

  /** The worker has deleted the object of `id` but not cleared its row, and has been at it for a whole cooldown. */
  predicate StalledOn(s: State, id: Id) {
    JustPurged(s.worker, id) && !Covered(s)
  }

  /** Whatever the query answers is there to be downloaded, unless the swap that purges it has stalled. */
  lemma AnswersAreBacked(s: State, t: Tenant, id: Id)
    requires Inv(s) && SwapOk(s) && Answers(s.rows, t, s.clock, id) && !StalledOn(s, id)
    ensures id in s.rows && s.rows[id].key.Some? && s.rows[id].key.value in s.store
  {
    QueryAnswers(s.rows, t, s.clock);
    assert JobOk(s, id);
    if s.worker.Purged? && s.rows[s.worker.job].tenant == t && Covered(s) {
      SwapAnswers(s, id);
    } else if s.worker.Purged? {
      assert JobOk(s, s.worker.job);
    }
  }

  /** Some job of the tenant keeps its key until `horizon` at least, and is not the one being replaced. */
  ghost predicate Lasting(s: State, t: Tenant, horizon: int, i: Id) {
    && i in s.rows && s.rows[i].tenant == t && s.rows[i].status == Ready && s.rows[i].key.Some?
    && s.rows[i].expiresAt.Some? && s.rows[i].expiresAt.value >= horizon
    && (s.worker.InSwap() && s.worker.job in s.rows ==> s.rows[s.worker.job].replaced != Some(i))
  }

  /** A lasting job is not expired before the horizon, and its object is there, so nothing clears it. */
  lemma LastingUntouched(s: State, e: Event, t: Tenant, horizon: int, i: Id)
    requires Inv(s) && Enabled(s, e) && Lasting(s, t, horizon, i) && e.now < horizon
    ensures var f := EffectOf(s, e);
            RowEffect(s.rows, Apply(s, e).rows, e.now, f) && (f.Clear? || f.Progress? || f.Confirm? ==> f.id != i)
  {
    StepEffect(s, e);
    assert JobOk(s, i);
  }

  lemma UntouchedStaysLasting(s: State, s': State, f: Effect, t: Tenant, horizon: int, i: Id)
    requires Inv(s) && Lasting(s, t, horizon, i) && RowEffect(s.rows, s'.rows, s'.clock, f)
    requires f.Clear? || f.Progress? || f.Confirm? ==> f.id != i
    requires s'.worker.InSwap() ==> s'.worker.job in s.rows && s.rows[s'.worker.job].replaced != Some(i)
    ensures Lasting(s', t, horizon, i)
  {
    assert JobOk(s, i);
    assert s'.worker.InSwap() ==> s'.rows[s'.worker.job].replaced == s.rows[s'.worker.job].replaced;
  }

  lemma SuccessorLasts(s: State, e: Event, t: Tenant, horizon: int, i: Id)
    requires Inv(s) && Enabled(s, e) && Lasting(s, t, horizon, i) && e.now < horizon
    requires e.action.MarkReady? && s.rows[s.worker.job].replaced == Some(i)
    ensures Lasting(Apply(s, e), t, horizon, s.worker.job)
  {
    StepEffect(s, e);
    assert JobOk(s, i) && JobOk(s, s.worker.job);
  }

  /** The successor that replaces a lasting job lasts longer; any other step leaves the lasting job alone. */
  lemma StepKeepsLasting(s: State, e: Event, t: Tenant, horizon: int, i: Id) returns (k: Id)
    requires Inv(s) && Enabled(s, e) && Lasting(s, t, horizon, i) && e.now < horizon
    ensures Lasting(Apply(s, e), t, horizon, k)
  {
    if e.action.MarkReady? && s.rows[s.worker.job].replaced == Some(i) {
      k := s.worker.job;
      SuccessorLasts(s, e, t, horizon, i);
    } else {
      k := i;
      LastingUntouched(s, e, t, horizon, i);
      if !e.action.MarkReady? && Apply(s, e).worker.InSwap() {
        OnlyMarkReadyOpensSwap(s, e);
      }
      UntouchedStaysLasting(s, Apply(s, e), EffectOf(s, e), t, horizon, i);
    }
  }

  lemma {:induction false} RunKeepsSwap(states: seq<State>, events: seq<Event>, n: nat)
    requires Run(states, events) && states[0] == Init(states[0].clock) && n < |states|
    ensures Inv(states[n]) && SwapOk(states[n])
  {
    RunKeepsInv(states, events, n);
    if n > 0 {
      RunKeepsSwap(states, events, n - 1);
      assert StepAt(states, events, n - 1);
      StepKeepsSwap(states[n - 1], events[n - 1]);
    }
  }

  lemma {:induction false} RunKeepsLasting(states: seq<State>, events: seq<Event>, m: nat, n: nat,
        t: Tenant, horizon: int, i: Id)
    returns (k: Id)
    requires Run(states, events) && states[0] == Init(states[0].clock)
    requires m <= n < |states| && states[n].clock < horizon
    requires Lasting(states[m], t, horizon, i)
    ensures Lasting(states[n], t, horizon, k)
    decreases n
  {
    k := i;
    if m < n {
      assert StepAt(states, events, n - 1);
      k := RunKeepsLasting(states, events, m, n - 1, t, horizon, i);
      RunKeepsSwap(states, events, n - 1);
      k := StepKeepsLasting(states[n - 1], events[n - 1], t, horizon, k);
    }
  }

  /** A downloadable job, or the one about to take its place, lasts until the downloadable job expires. */
  lemma DownloadableLasts(s: State, t: Tenant, i: Id) returns (k: Id)
    requires Inv(s) && SwapOk(s) && i in Downloadable(s.rows, t, s.clock)
    ensures Lasting(s, t, s.rows[i].expiresAt.value, k)
  {
    k := i;
    if s.worker.InSwap() && s.rows[s.worker.job].replaced == Some(i) {
      k := s.worker.job;
      assert JobOk(s, k) && JobOk(s, i);
    }
  }

  /**
   Export continuity.  From the moment a job is downloadable until its expiry, at every step of every
   run, the download query has an answer, and every answer it may give is backed by an object unless
   the worker has been stalled for a whole cooldown between deleting that object and clearing its row.
   */
  lemma Continuity(states: seq<State>, events: seq<Event>, m: nat, n: nat, t: Tenant, i: Id)
    requires Run(states, events) && states[0] == Init(states[0].clock) && m <= n < |states|
    requires i in Downloadable(states[m].rows, t, states[m].clock)
    requires states[n].clock < states[m].rows[i].expiresAt.value
    ensures exists id :: Answers(states[n].rows, t, states[n].clock, id)
    ensures forall id: Id :: Answers(states[n].rows, t, states[n].clock, id) && !StalledOn(states[n], id) ==>
              id in states[n].rows && states[n].rows[id].key.Some? && states[n].rows[id].key.value in states[n].store
  {
    RunKeepsSwap(states, events, m);
    RunKeepsSwap(states, events, n);
    var k := DownloadableLasts(states[m], t, i);
    k := RunKeepsLasting(states, events, m, n, t, states[m].rows[i].expiresAt.value, k);
    assert k in Downloadable(states[n].rows, t, states[n].clock);
    QueryAnswers(states[n].rows, t, states[n].clock);
    forall id: Id | Answers(states[n].rows, t, states[n].clock, id) && !StalledOn(states[n], id)
      ensures id in states[n].rows && states[n].rows[id].key.Some? && states[n].rows[id].key.value in states[n].store
    {
      AnswersAreBacked(states[n], t, id);
    }
  }

  // ---- The exception is real ----

  /** Some downloadable job heads the list, is itself being replaced, and `id` heads the list without it. */
  ghost predicate NextBehindReplaced(s: State, t: Tenant, id: Id) {
    var ids := Downloadable(s.rows, t, s.clock);
    exists latest: Id :: latest != id && Heads(s.rows, ids, latest) && BeingReplaced(s.rows, latest)
                         && Heads(s.rows, ids - {latest}, id)
  }

  /**
   When the query answers with a job whose object is gone: exactly when that job is the old one of a
   stalled swap and is next in line behind a job that is itself being replaced.
   */
  lemma LostExactly(s: State, t: Tenant, id: Id)
    requires Inv(s) && SwapOk(s) && id in s.rows && s.rows[id].key.Some?
    ensures Answers(s.rows, t, s.clock, id) && s.rows[id].key.value !in s.store <==>
            StalledOn(s, id) && NextBehindReplaced(s, t, id)
  {
    if Answers(s.rows, t, s.clock, id) && s.rows[id].key.value !in s.store {
      LostBehindReplaced(s, t, id);
    }
    if StalledOn(s, id) && NextBehindReplaced(s, t, id) {
      var ids := Downloadable(s.rows, t, s.clock);
      var latest: Id :| latest != id && Heads(s.rows, ids, latest) && BeingReplaced(s.rows, latest)
                        && Heads(s.rows, ids - {latest}, id);
      assert ids != {latest};
    }
  }

  lemma LostBehindReplaced(s: State, t: Tenant, id: Id)
    requires Inv(s) && SwapOk(s) && Answers(s.rows, t, s.clock, id) && id in s.rows
    requires s.rows[id].key.Some? && s.rows[id].key.value !in s.store
    ensures StalledOn(s, id) && NextBehindReplaced(s, t, id)
  {
    if !StalledOn(s, id) {
      AnswersAreBacked(s, t, id);
    } else {
      var n, ids := s.worker.job, Downloadable(s.rows, t, s.clock);
      QueryAnswers(s.rows, t, s.clock);
      assert JobOk(s, n) && JobOk(s, id);
      assert n in ids && ReadyTime(s.rows[id]) < ReadyTime(s.rows[n]);
      var latest: Id :| Heads(s.rows, ids, latest) &&
                        (if BeingReplaced(s.rows, latest) && ids != {latest}
                         then Heads(s.rows, ids - {latest}, id) else id == latest);
      assert ReadyTime(s.rows[n]) <= ReadyTime(s.rows[latest]);
    }
  }

  /**
   A run in which the worker stops for exactly one cooldown between deleting the old object and
   clearing the old row.  The tenant's next request is accepted, and the query then answers with the
   old job, unexpired, whose object is gone.
   */
  lemma StalledSwapLosesDownload() returns (s: State)
    ensures Reaches(Init(0), s) && StalledOn(s, 0) && Answers(s.rows, 0, s.clock, 0)
    ensures s.rows[0].Unexpired(s.clock) && s.rows[0].key.Some? && s.rows[0].key.value !in s.store
    ensures s.worker.job in s.rows && s.rows[s.worker.job].cooldownUntil == Some(s.clock)
  {
    var b4 := TwoJobsReachPurge();
    s := ThirdRequestAccepted(b4);
  }

  lemma TwoJobsReachPurge() returns (b4: State)
    ensures Reaches(Init(0), b4) && b4 == SwapPurged()
  {
    ReachesItself(Init(0));
    var a0 := Event(1, Request(0, 0, None));
    ReachesNext(Init(0), Init(0), a0);
    var a1 := Apply(Init(0), a0);
    var a2 := BuildsAndMarks(Init(0), a1, 0, 0);
    var a3 := Event(7, ReadPrevious);
    ReachesNext(Init(0), a2, a3);
    var b0 := Apply(a2, a3);
    var first := FirstJob();
    assert b0 == State(map[0 := first], {0}, {0}, Idle, 7);
    b4 := SecondSwapPurges(b0, first);
  }

  const T1 := 6 + COOLDOWN
  const T2 := T1 + 5 + COOLDOWN

  /** The first job before it is replaced. */
  function FirstJob(): Job {
    Job(0, Ready, 0, MAX_ATTEMPTS, None, Some(0), Some(6), Some(6 + EXPORT_TTL), Some(6 + COOLDOWN), None, None, 1)
  }

  /** The same job linked to its replacement, and the job that replaces it. */
  function OldJob(): Job {
    Job(0, Ready, 0, MAX_ATTEMPTS, None, Some(0), Some(T1), Some(6 + EXPORT_TTL), Some(6 + COOLDOWN), None, Some(1), 1)
  }

  function NewJob(): Job {
    Job(0, Ready, 0, MAX_ATTEMPTS, None, Some(1), Some(T1 + 5), Some(T1 + 5 + EXPORT_TTL), Some(T2), Some(0), None, T1)
  }

  /** The second job is ready, the object of the first is deleted, its row not yet cleared. */
  function SwapPurged(): State {
    State(map[0 := OldJob(), 1 := NewJob()], {1}, {0, 1}, Purged(1, 0, OldJob(), true), T1 + 7)
  }

  lemma SecondSwapPurges(b0: State, first: Job) returns (b4: State)
    requires first == FirstJob()
    requires b0 == State(map[0 := first], {0}, {0}, Idle, 7) && Reaches(Init(0), b0)
    ensures Reaches(Init(0), b4) && b4 == SwapPurged()
  {
    var e1 := Event(T1, Request(0, 1, Some(0)));
    assert ReadyRows(b0.rows, 0, T1) == {0};
    ReachesNext(Init(0), b0, e1);
    var b1 := Apply(b0, e1);
    assert b1.rows == map[0 := OldJob(), 1 := Job(0, Pending, 0, MAX_ATTEMPTS, None, None, None, None,
                                                  Some(T1 + COOLDOWN), Some(0), None, T1)];
    var b2 := BuildsAndMarks(Init(0), b1, 1, 1);
    assert b2 == State(map[0 := OldJob(), 1 := NewJob()], {0, 1}, {0, 1}, Marked(1), T1 + 5);
    b4 := MarkedPurges(b2);
  }

  lemma MarkedPurges(b2: State) returns (b4: State)
    requires Reaches(Init(0), b2) && b2 == State(map[0 := OldJob(), 1 := NewJob()], {0, 1}, {0, 1}, Marked(1), T1 + 5)
    ensures Reaches(Init(0), b4) && b4 == SwapPurged()
  {
    var e2 := Event(T1 + 6, ReadPrevious);
    ReachesNext(Init(0), b2, e2);
    var b3 := Apply(b2, e2);
    var e3 := Event(T1 + 7, PurgePrevious(true));
    ReachesNext(Init(0), b3, e3);
    b4 := Apply(b3, e3);
    assert {0, 1} - {0} == {1};
  }

  lemma ThirdRequestAccepted(b4: State) returns (s: State)
    requires Reaches(Init(0), b4) && b4 == SwapPurged()
    ensures Reaches(Init(0), s) && StalledOn(s, 0) && Answers(s.rows, 0, s.clock, 0)
    ensures s.rows[0].Unexpired(s.clock) && s.rows[0].key.Some? && s.rows[0].key.value !in s.store
    ensures s.worker.job in s.rows && s.rows[s.worker.job].cooldownUntil == Some(s.clock)
  {
    var e4 := Event(T2, Request(0, 2, Some(1)));
    assert ReadyRows(b4.rows, 0, T2) == {0, 1};
    ReachesNext(Init(0), b4, e4);
    s := Apply(b4, e4);
    assert Downloadable(s.rows, 0, T2) == {0, 1};
    assert Heads(s.rows, {0, 1}, 1) && BeingReplaced(s.rows, 1);
    assert {0, 1} - {1} == {0};
    assert Heads(s.rows, {0, 1} - {1}, 0);
  }
}
