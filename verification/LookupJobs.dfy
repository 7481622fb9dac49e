/**
 Lookup jobs (backend/app/repositories/mailbox_lookup_repository.py) and the cleanup pass over jobs
 and delivery logs (backend/app/services/mailbox_cleanup.py).  Every operation is one step, except
 that cancelling reads the job twice and other operations may run between its two reads.
 */
module LookupJobs {
  import opened Common
  import DeliveryLog

  datatype Status = Pending | Processing | Completed | Failed | Timeout

  datatype Job = Job(
    tenant: string, status: Status, expiresAt: int, startedAt: Option<int>, completedAt: Option<int>,
    executor: Option<string>, resultType: Option<string>, errorCode: Option<string>, errorDetail: Option<string>,
    dispatchError: Option<string>)

  type Id = nat
  type Table = map<Id, Job>

  predicate Terminal(s: Status) {
    s.Completed? || s.Failed? || s.Timeout?
  }

  predicate Allowed(from: Status, to: Status) {
    match from
    case Pending => to.Processing? || to.Failed? || to.Timeout?
    case Processing => to.Completed? || to.Failed? || to.Timeout? || to.Pending?
    case _ => false
  }

  /** The optional arguments of a transition. */
  datatype Notes = Notes(
    resultType: Option<string>, errorCode: Option<string>, errorDetail: Option<string>, dispatchError: Option<string>)

  function Or<T>(a: Option<T>, b: Option<T>): Option<T> {
    if a.Some? then a else b
  }

  function Moved(j: Job, to: Status, now: int): Job {
    match to
    case Processing => j.(status := to, startedAt := Some(now), errorCode := None, errorDetail := None)
    case Pending => j.(status := to, executor := None, startedAt := None, completedAt := None)
    case Completed => j.(status := to, completedAt := Some(now), errorCode := None, errorDetail := None)
    case _ => j.(status := to, completedAt := Some(now))
  }

  function Annotated(j: Job, to: Status, n: Notes): Job {
    var dispatch := if to.Pending? then Or(n.dispatchError, n.errorDetail) else n.dispatchError;
    j.(resultType := Or(n.resultType, j.resultType), errorCode := Or(n.errorCode, j.errorCode),
       errorDetail := Or(n.errorDetail, j.errorDetail), dispatchError := Or(dispatch, j.dispatchError))
  }

  function Transitioned(j: Job, to: Status, now: int, n: Notes): Job {
    if Allowed(j.status, to) then Annotated(Moved(j, to, now), to, n) else j
  }

  predicate Active(j: Job) {
    j.status.Pending? || j.status.Processing?
  }

  function Cancelled(j: Job, now: int): Job {
    j.(status := Failed, completedAt := Some(now), errorCode := Some("user_cancelled"),
       errorDetail := Some("User restarted codigo flow"))
  }

  predicate Stale(j: Job, now: int) {
    j.expiresAt <= now && Active(j)
  }

  function TimedOut(j: Job, now: int): Job {
    j.(status := Timeout, completedAt := Some(now), errorCode := Some("timeout"),
       errorDetail := Some("Job expired before processing"))
  }

  function Expired(t: Table, now: int): (r: Table)
    ensures r.Keys == t.Keys
  {
    map id | id in t :: if Stale(t[id], now) then TimedOut(t[id], now) else t[id]
  }

  function Deleted(t: Table, cutoff: int): Table {
    map id | id in t && t[id].expiresAt > cutoff :: t[id]
  }

  function StaleIds(t: Table, now: int): set<Id> {
    set id | id in t && Stale(t[id], now)
  }

  function OldIds(t: Table, cutoff: int): set<Id> {
    set id | id in t && t[id].expiresAt <= cutoff
  }

  function New(tenant: string, expiresAt: int): Job {
    Job(tenant, Pending, expiresAt, None, None, None, None, None, None, None)
  }

  predicate Visible(t: Table, id: Id, tenant: Option<string>) {
    id in t && (tenant.None? || t[id].tenant == tenant.value)
  }

  predicate CanCancel(t: Table, id: Id, tenant: Option<string>) {
    Visible(t, id, tenant) && Active(t[id])
  }

  // ---- Runs ----

  /** `cancels` holds, per cancel call past its unlocked read, the job and tenant it was called with. */
  datatype State = State(jobs: Table, used: set<Id>, cancels: map<nat, (Id, Option<string>)>)

  datatype Event =
    | Create(id: Id, tenant: string, expiresAt: int)
    | Transition(id: Id, to: Status, now: int, notes: Notes)
    | CancelRead(call: nat, id: Id, scope: Option<string>)
    | CancelCommit(call: nat, now: int)
    | ExpireStale(now: int)
    | DeleteExpired(cutoff: int)

  predicate Enabled(s: State, e: Event) {
    match e
    case Create(id, _, _) => id !in s.used
    case Transition(id, _, _, _) => id in s.jobs
    case CancelCommit(call, _) => call in s.cancels
    case _ => true
  }

  function Apply(s: State, e: Event): State
    requires Enabled(s, e)
  {
    match e
    case Create(id, tenant, expiresAt) =>
      s.(jobs := s.jobs[id := New(tenant, expiresAt)], used := s.used + {id})
    case Transition(id, to, now, notes) => s.(jobs := s.jobs[id := Transitioned(s.jobs[id], to, now, notes)])
    case CancelRead(call, id, scope) =>
      if CanCancel(s.jobs, id, scope) then s.(cancels := s.cancels[call := (id, scope)]) else s
    case CancelCommit(call, now) =>
      var (id, scope) := s.cancels[call];
      var rest := s.(cancels := s.cancels - {call});
      if CanCancel(s.jobs, id, scope)
      then rest.(jobs := s.jobs[id := Cancelled(s.jobs[id], now)]) else rest
    case ExpireStale(now) => s.(jobs := Expired(s.jobs, now))
    case DeleteExpired(cutoff) => s.(jobs := Deleted(s.jobs, cutoff))
  }

  ghost predicate StepAt(states: seq<State>, events: seq<Event>, n: nat)
    requires |states| == |events| + 1 && n < |events|
  {
    Enabled(states[n], events[n]) && states[n + 1] == Apply(states[n], events[n])
  }

  ghost predicate Run(states: seq<State>, events: seq<Event>) {
    && |states| == |events| + 1
    && states[0] == State(map[], {}, map[])
    && forall n :: 0 <= n < |events| ==> StepAt(states, events, n)
  }

  /** A completion time exactly in the terminal states; a start time in processing and none in pending. */
  ghost predicate JobOk(j: Job) {
    && (j.completedAt.Some? <==> Terminal(j.status))
    && (j.status.Processing? ==> j.startedAt.Some?)
    && (j.status.Pending? ==> j.startedAt.None?)
  }

  ghost predicate Inv(s: State) {
    s.jobs.Keys <= s.used && forall id :: id in s.jobs ==> JobOk(s.jobs[id])
  }

  /** What one step may do to one job. */
  ghost predicate Evolves(s: State, next: State, id: Id) {
    && (id in s.used ==> id in next.used && (id in next.jobs ==> id in s.jobs))
    && (id in s.jobs && id in next.jobs ==> next.jobs[id].tenant == s.jobs[id].tenant)
    && (id in s.jobs && id in next.jobs && Terminal(s.jobs[id].status) ==> next.jobs[id] == s.jobs[id])
  }

  lemma TransitionOk(j: Job, to: Status, now: int, n: Notes)
    requires JobOk(j)
    ensures JobOk(Transitioned(j, to, now, n))
    ensures Terminal(j.status) ==> Transitioned(j, to, now, n) == j
    ensures Transitioned(j, to, now, n).expiresAt == j.expiresAt && Transitioned(j, to, now, n).tenant == j.tenant
  {
  }

  lemma StepKeepsInv(s: State, e: Event)
    requires Inv(s) && Enabled(s, e)
    ensures Inv(Apply(s, e))
  {
    if e.Transition? {
      TransitionOk(s.jobs[e.id], e.to, e.now, e.notes);
    }
  }

  lemma StepEvolves(s: State, e: Event, id: Id)
    requires Inv(s) && Enabled(s, e)
    ensures Evolves(s, Apply(s, e), id)
  {
    if e.Transition? {
      TransitionOk(s.jobs[e.id], e.to, e.now, e.notes);
    }
  }

  lemma {:induction false} RunKeepsInv(states: seq<State>, events: seq<Event>, n: nat)
    requires Run(states, events) && n < |states|
    ensures Inv(states[n])
  {
    if n > 0 {
      RunKeepsInv(states, events, n - 1);
      assert StepAt(states, events, n - 1);
      StepKeepsInv(states[n - 1], events[n - 1]);
    }
  }

  /** Completed, failed and timeout are absorbing: the row never changes again, and once deleted it stays deleted. */
  lemma {:induction false} TerminalIsFinal(states: seq<State>, events: seq<Event>, m: nat, n: nat, id: Id)
    requires Run(states, events) && m <= n < |states|
    requires id in states[m].jobs && Terminal(states[m].jobs[id].status)
    ensures id in states[n].used
    ensures id in states[n].jobs ==> states[n].jobs[id] == states[m].jobs[id]
    ensures forall k :: m <= k <= n && id in states[n].jobs ==> id in states[k].jobs
  {
    RunKeepsInv(states, events, m);
    if m < n {
      TerminalIsFinal(states, events, m, n - 1, id);
      RunKeepsInv(states, events, n - 1);
      assert StepAt(states, events, n - 1);
      StepEvolves(states[n - 1], events[n - 1], id);
    }
  }

  /** A job keeps its tenant as long as it exists. */
  lemma {:induction false} TenantKept(states: seq<State>, events: seq<Event>, m: nat, n: nat, id: Id)
    requires Run(states, events) && m <= n < |states| && id in states[m].used
    ensures id in states[n].used
    ensures id in states[n].jobs ==> id in states[m].jobs && states[n].jobs[id].tenant == states[m].jobs[id].tenant
  {
    if m < n {
      TenantKept(states, events, m, n - 1, id);
      RunKeepsInv(states, events, n - 1);
      assert StepAt(states, events, n - 1);
      StepEvolves(states[n - 1], events[n - 1], id);
    }
  }

  /**
   The unlocked first read of a cancel never changes its outcome, however stale it is by the second:
   a job that exists and cannot be cancelled at the first read cannot be cancelled at any later one.
   So the two reads together succeed exactly when the locked read alone would.
   */
  lemma TwoReadsAreOne(states: seq<State>, events: seq<Event>, m: nat, n: nat, id: Id, scope: Option<string>)
    requires Run(states, events) && m <= n < |states| && id in states[m].used
    ensures CanCancel(states[m].jobs, id, scope) && CanCancel(states[n].jobs, id, scope) <==>
            CanCancel(states[n].jobs, id, scope)
  {
    TenantKept(states, events, m, n, id);
    if id in states[n].jobs && !Active(states[m].jobs[id]) {
      TerminalIsFinal(states, events, m, n, id);
    }
  }

  /**
   For an id that does not exist yet at the first read this fails: the cancel gives up, while the
   locked read alone would find the job created in between.
   */
  lemma CancelBeforeCreate(id: Id, tenant: string, expiresAt: int) returns (states: seq<State>, events: seq<Event>)
    ensures Run(states, events) && |events| == 1 && id !in states[0].used
    ensures !CanCancel(states[0].jobs, id, None) && CanCancel(states[1].jobs, id, None)
  {
    var s, e := State(map[], {}, map[]), Create(id, tenant, expiresAt);
    states, events := [s, Apply(s, e)], [e];
  }

  // ---- A cleanup pass with other operations between its steps ----

  /** Every job that expires by the cutoff is terminal. */
  ghost predicate DueTerminal(s: State, cutoff: int) {
    forall id :: id in s.jobs && s.jobs[id].expiresAt <= cutoff ==> Terminal(s.jobs[id].status)
  }

  /** The step creates a job that has expired by the cutoff. */
  predicate CreatesDue(e: Event, cutoff: int) {
    e.Create? && e.expiresAt <= cutoff
  }

  lemma StepKeepsDue(s: State, e: Event, cutoff: int)
    requires Inv(s) && Enabled(s, e) && DueTerminal(s, cutoff) && !CreatesDue(e, cutoff)
    ensures DueTerminal(Apply(s, e), cutoff)
  {
    if e.Transition? {
      TransitionOk(s.jobs[e.id], e.to, e.now, e.notes);
    }
  }

  lemma {:induction false} DueBetween(states: seq<State>, events: seq<Event>, a: nat, n: nat, cutoff: int)
    requires Run(states, events) && a < n < |states| && events[a].ExpireStale? && cutoff <= events[a].now
    requires forall k :: a < k < n ==> !CreatesDue(events[k], cutoff)
    ensures DueTerminal(states[n], cutoff)
  {
    assert StepAt(states, events, n - 1);
    if a + 1 < n {
      DueBetween(states, events, a, n - 1, cutoff);
      RunKeepsInv(states, events, n - 1);
      StepKeepsDue(states[n - 1], events[n - 1], cutoff);
    }
  }

  /**
   Over every run: a delete at `b` after an expiry at `a` only removes jobs that are terminal by then,
   whatever creates, transitions, cancels and other passes fall between, as long as its cutoff is not
   after the clock of the expiry and no job is created already expired by the cutoff.
   */
  lemma PassDeletesTerminal(states: seq<State>, events: seq<Event>, a: nat, b: nat, id: Id)
    requires Run(states, events) && a < b < |events| && events[a].ExpireStale? && events[b].DeleteExpired?
    requires events[b].cutoff <= events[a].now
    requires forall k :: a < k < b ==> !CreatesDue(events[k], events[b].cutoff)
    requires id in states[b].jobs && id !in states[b + 1].jobs
    ensures Terminal(states[b].jobs[id].status) && states[b].jobs[id].expiresAt <= events[b].cutoff
  {
    DueBetween(states, events, a, b, events[b].cutoff);
    assert StepAt(states, events, b);
  }

  // ---- The repository object ----

  /** The transitions the repository allows. */
  const TRANSITIONS: set<(Status, Status)> := {
    (Pending, Processing), (Pending, Failed), (Pending, Timeout),
    (Processing, Completed), (Processing, Failed), (Processing, Timeout), (Processing, Pending)
  }

  /** A note is written if it is given; otherwise the column has what the new status leaves there. */
  predicate Noted(note: Option<string>, rest: Option<string>, column: Option<string>) {
    column == if note.Some? then note else rest
  }

  /** Job `j` after an allowed transition to `to`, column by column. */
  ghost predicate MovedTo(j: Job, to: Status, now: int, n: Notes, j': Job) {
    && j'.status == to && j'.tenant == j.tenant && j'.expiresAt == j.expiresAt
    && j'.startedAt == (if to.Processing? then Some(now) else if to.Pending? then None else j.startedAt)
    && j'.completedAt == (if Terminal(to) then Some(now) else if to.Pending? then None else j.completedAt)
    && j'.executor == (if to.Pending? then None else j.executor)
    && Noted(n.resultType, j.resultType, j'.resultType)
    && Noted(n.errorCode, if to.Processing? || to.Completed? then None else j.errorCode, j'.errorCode)
    && Noted(n.errorDetail, if to.Processing? || to.Completed? then None else j.errorDetail, j'.errorDetail)
    && Noted(if to.Pending? && n.dispatchError.None? then n.errorDetail else n.dispatchError,
             j.dispatchError, j'.dispatchError)
  }

  lemma TransitionedIs(j: Job, to: Status, now: int, n: Notes)
    ensures Allowed(j.status, to) <==> (j.status, to) in TRANSITIONS
    ensures if Allowed(j.status, to) then MovedTo(j, to, now, n, Transitioned(j, to, now, n))
            else Transitioned(j, to, now, n) == j
  {
  }

  /** Timed out if it had expired in an active state, and else left alone. */
  ghost predicate Swept(j: Job, j': Job, now: int) {
    if j.expiresAt <= now && (j.status.Pending? || j.status.Processing?)
    then Closed(j, j', Timeout, now, "timeout", "Job expired before processing")
    else j' == j
  }

  /** A cancel past its first read. */
  predicate InProgress(s: State, call: nat, id: Id, scope: Option<string>) {
    call in s.cancels && s.cancels[call] == (id, scope)
  }

  /** Only status, completion time and the two error columns have changed. */
  ghost predicate Closed(j: Job, j': Job, status: Status, now: int, code: string, detail: string) {
    j' == j.(status := status, completedAt := Some(now), errorCode := Some(code), errorDetail := Some(detail))
  }

  class Jobs {
    var jobs: Table

    constructor ()
      ensures jobs == map[]
    {
      jobs := map[];
    }

    /** False is the error that reports a transition that is not allowed. */
    method TransitionStatus(id: Id, to: Status, now: int, notes: Notes) returns (ok: bool)
      requires id in jobs
      modifies this
      ensures ok <==> (old(jobs)[id].status, to) in TRANSITIONS
      ensures id in jobs && jobs - {id} == old(jobs) - {id}
      ensures if ok then MovedTo(old(jobs)[id], to, now, notes, jobs[id]) else jobs[id] == old(jobs)[id]
      ensures jobs == old(jobs)[id := Transitioned(old(jobs)[id], to, now, notes)]
    {
      var j := jobs[id];
      TransitionedIs(j, to, now, notes);
      if !Allowed(j.status, to) {
        assert jobs == jobs[id := j];
        return false;
      }
      j := j.(status := to);
      if to.Processing? {
        j := j.(startedAt := Some(now), errorCode := None, errorDetail := None);
      } else if to.Pending? {
        j := j.(executor := None, startedAt := None, completedAt := None);
      } else {
        j := j.(completedAt := Some(now));
        if to.Completed? {
          j := j.(errorCode := None, errorDetail := None);
        }
      }
      var dispatch := notes.dispatchError;
      if notes.resultType.Some? {
        j := j.(resultType := notes.resultType);
      }
      if notes.errorCode.Some? {
        j := j.(errorCode := notes.errorCode);
      }
      if notes.errorDetail.Some? {
        j := j.(errorDetail := notes.errorDetail);
        if to.Pending? && dispatch.None? {
          dispatch := notes.errorDetail;
        }
      }
      if dispatch.Some? {
        j := j.(dispatchError := dispatch);
      }
      jobs := jobs[id := j];
      return true;
    }

    method RecoverProcessingJob(id: Id, now: int, error: Option<string>) returns (ok: bool)
      requires id in jobs
      modifies this
      ensures id in jobs && (ok <==> old(jobs)[id].status.Processing?)
      ensures ok ==> jobs[id].status.Pending? && jobs[id].startedAt.None? && jobs[id].executor.None?
      ensures ok ==> jobs[id].dispatchError == Or(error, old(jobs)[id].dispatchError)
      ensures !ok ==> jobs[id] == old(jobs)[id]
      ensures jobs - {id} == old(jobs) - {id}
    {
      ok := TransitionStatus(id, Pending, now, Notes(None, None, None, error));
    }

    /**
     `elsewhere` is the table as other transactions leave it between the unlocked and the locked read.
     The call is the two cancel steps of the runs: it gets past its first read exactly when that read
     leaves a cancel in progress, and its second read is the commit.
     */
    method CancelActiveJobIfPresent(id: Id, scope: Option<string>, now: int, elsewhere: Table) returns (ok: bool)
      modifies this
      ensures ok <==> CanCancel(old(jobs), id, scope) && CanCancel(elsewhere, id, scope)
      ensures !CanCancel(old(jobs), id, scope) ==> jobs == old(jobs)
      ensures CanCancel(old(jobs), id, scope) ==>
        jobs == if ok then elsewhere[id := Cancelled(elsewhere[id], now)] else elsewhere
      ensures ok ==>
        && id in jobs && jobs - {id} == elsewhere - {id}
        && Closed(elsewhere[id], jobs[id], Failed, now, "user_cancelled", "User restarted codigo flow")
      ensures forall s: State, call: nat :: s.jobs == old(jobs) && call !in s.cancels ==>
        var next := Apply(s, CancelRead(call, id, scope));
        if CanCancel(old(jobs), id, scope) then InProgress(next, call, id, scope) else next == s
      ensures CanCancel(old(jobs), id, scope) ==> forall s: State, call: nat ::
        InProgress(s, call, id, scope) && s.jobs == elsewhere ==> Apply(s, CancelCommit(call, now)).jobs == jobs
    {
      if !CanCancel(jobs, id, scope) {
        return false;
      }
      jobs := elsewhere;
      if !CanCancel(jobs, id, scope) {
        return false;
      }
      jobs := jobs[id := Cancelled(jobs[id], now)];
      return true;
    }

    /** Marks the selected jobs one by one. */
    method ExpireStaleJobs(now: int) returns (count: nat)
      modifies this
      ensures jobs == Expired(old(jobs), now)
      ensures jobs.Keys == old(jobs).Keys && forall id :: id in jobs ==> Swept(old(jobs)[id], jobs[id], now)
      ensures count == |StaleIds(old(jobs), now)|
    {
      ghost var before := jobs;
      var stale := StaleIds(jobs, now);
      count := |stale|;
      while stale != {}
        invariant stale <= jobs.Keys == before.Keys
        invariant forall id :: id in stale ==> Stale(before[id], now) && jobs[id] == before[id]
        invariant forall id :: id in before && id !in stale ==> jobs[id] == Expired(before, now)[id]
        decreases |stale|
      {
        var id :| id in stale;
        jobs := jobs[id := TimedOut(jobs[id], now)];
        stale := stale - {id};
      }
      assert jobs == Expired(before, now);
    }

    method DeleteExpiredJobs(cutoff: int) returns (count: nat)
      modifies this
      ensures jobs == Deleted(old(jobs), cutoff)
      ensures count == |OldIds(old(jobs), cutoff)|
    {
      ghost var before := jobs;
      var doomed := OldIds(jobs, cutoff);
      count := |doomed|;
      while doomed != {}
        invariant doomed <= jobs.Keys <= before.Keys
        invariant forall id :: id in jobs ==> jobs[id] == before[id]
        invariant forall id :: id in before ==> (id in jobs <==> before[id].expiresAt > cutoff || id in doomed)
        invariant forall id :: id in doomed ==> before[id].expiresAt <= cutoff
        decreases |doomed|
      {
        var id :| id in doomed;
        jobs := jobs - {id};
        doomed := doomed - {id};
      }
      assert jobs == Deleted(before, cutoff);
    }
  }

  /** One cleanup pass; each of its three steps reads the clock. */
  method RunCleanupOnce(jobs: Jobs, log: DeliveryLog.Log, ttl: int, retention: int, now1: int, now2: int, now3: int)
    returns (expired: nat, deleted: nat, deletedLogs: nat)
    modifies jobs, log
    ensures jobs.jobs == Deleted(Expired(old(jobs.jobs), now1), now2 - ttl)
    ensures log.rows == DeliveryLog.Kept(old(log.rows), now3 - retention)
    ensures expired == |StaleIds(old(jobs.jobs), now1)|
    ensures |jobs.jobs| + deleted == |old(jobs.jobs)|
    ensures |log.rows| + deletedLogs == |old(log.rows)|
  {
    expired := jobs.ExpireStaleJobs(now1);
    ghost var middle := jobs.jobs;
    deleted := jobs.DeleteExpiredJobs(now2 - ttl);
    DeletedCount(middle, now2 - ttl);
    deletedLogs := log.DeleteOlderThan(now3 - retention);
  }

  lemma DeletedCount(t: Table, cutoff: int)
    ensures |Deleted(t, cutoff)| + |OldIds(t, cutoff)| == |t|
  {
    var gone := OldIds(t, cutoff);
    assert t.Keys == Deleted(t, cutoff).Keys + gone;
    assert Deleted(t, cutoff).Keys !! gone;
  }

  // ---- What a cleanup pass deletes ----

  /** No job is deleted before it is terminal. */
  ghost predicate DeletesOnlyTerminal(t: Table, now1: int, now2: int, ttl: int) {
    var marked := Expired(t, now1);
    forall id :: id in marked && id !in Deleted(marked, now2 - ttl) ==> Terminal(marked[id].status)
  }

  /**
   On every table the pass deletes only terminal jobs exactly when its second clock reading is at
   most the time to live after the first; with one reading, exactly when the time to live is not negative.
   */
  lemma CleanupSafeIff(now1: int, now2: int, ttl: int)
    ensures (forall t: Table :: DeletesOnlyTerminal(t, now1, now2, ttl)) <==> now2 - now1 <= ttl
  {
    if now2 - now1 <= ttl {
      forall t: Table ensures DeletesOnlyTerminal(t, now1, now2, ttl) {
        forall id | id in Expired(t, now1) && id !in Deleted(Expired(t, now1), now2 - ttl)
          ensures Terminal(Expired(t, now1)[id].status)
        {
          assert t[id].expiresAt <= now1;
        }
      }
    } else {
      SlowPassDeletesPending(now1, now2, ttl);
    }
  }

  /** A pass that takes longer than the time to live deletes a pending job it never marked. */
  lemma SlowPassDeletesPending(now1: int, now2: int, ttl: int)
    requires now2 - now1 > ttl
    ensures exists t: Table :: !DeletesOnlyTerminal(t, now1, now2, ttl)
  {
    var t: Table := map[0 := New("", now2 - ttl)];
    assert 0 in Expired(t, now1) && 0 !in Deleted(Expired(t, now1), now2 - ttl);
    assert Expired(t, now1)[0] == t[0];
    assert !DeletesOnlyTerminal(t, now1, now2, ttl);
  }
}
