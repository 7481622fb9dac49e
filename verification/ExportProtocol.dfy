/**
 The export lifecycle as a state machine: tenants' requests and cancels, the single worker loop of
 backend/app/services/export_worker.py, the swap of confirm_replacement_ready in its separate
 commits, cleanup and reconciliation, in every interleaving.

 A step is one committed statement or one storage operation and reads the clock once; the clock is
 strictly increasing.  `request_export` is one step.  Rows are never purged, database writes
 succeed, and the store loses nothing by itself; a delete may fail.  An exception may strike an
 attempt at any point between its first checkpoint and its post-upload checkpoint.
 */
module ExportProtocol {
  import opened Common
  import opened ExportJobs

  datatype Worker =
    | Idle
    | Starting(job: Id, attempt: nat)              // before the first checkpoint of an attempt
    | Building(job: Id, attempt: nat)              // past it: reading and building
    | Uploaded(job: Id, attempt: nat, key: Key)    // before the post-upload checkpoint
    | Confirming(job: Id, key: Key)                // past it, before the ready commit
    | Marked(job: Id)                              // ready committed, previous job not yet read
    | Swapping(job: Id, prev: Id, read: Job)       // previous job read, its object not yet deleted
    | Purged(job: Id, prev: Id, read: Job, deleted: bool)  // delete tried, row not yet cleared
    | Raised(job: Id, attempt: nat)                // exception caught
    | GivingUp(job: Id)                            // last attempt counted
    | Backoff(job: Id, attempt: nat, left: nat)
  {
    predicate Holds(id: Id) { !Idle? && job == id }

    /** Between the ready commit and the end of the swap. */
    predicate InSwap() { Marked? || Swapping? || Purged? }

    /** Holding a job that is not ready yet. */
    predicate Working() { !Idle? && !InSwap() }
  }

  /** `minted` collects every key ever generated. */
  datatype State = State(rows: Rows, store: set<Key>, minted: set<Key>, worker: Worker, clock: int)

  datatype Action =
    | Request(tenant: Tenant, id: Id, current: Option<Id>)
    | Cancel(id: Id)
    | Claim(id: Id)
    | Checkpoint
    | TenantMissing
    | Upload(key: Key)
    | Throw
    | CheckUpload(deleted: bool)
    | MarkReady
    | ReadPrevious
    | PurgePrevious(deleted: bool)
    | ClearPrevious
    | CountFailure
    | GiveUp
    | BackoffSecond
    | Retry
    | CleanupDelete(id: Id)
    | CleanupClear(id: Id)
    | Reconcile(id: Id)

  datatype Event = Event(now: int, action: Action)

  function Power5(n: nat): (r: nat)
    ensures r > 0
  {
    if n == 0 then 1 else 5 * Power5(n - 1)
  }

  function BackoffSeconds(attempt: nat): nat { 5 * Power5(attempt) }

  ghost predicate Enabled(s: State, e: Event) {
    var w := s.worker;
    && e.now > s.clock
    && match e.action
       case Request(t, id, current) =>
         id !in s.rows && !WithinCooldown(s.rows, t, e.now) && CurrentReady(s.rows, t, e.now, current)
       case Cancel(id) => true
       case Claim(id) => w.Idle? && id in s.rows && Claimable(s.rows[id], e.now)
       case Checkpoint => (w.Starting? || w.Building?) && w.job in s.rows
       case TenantMissing => w.Building?
       case Upload(key) => w.Building? && key !in s.minted
       case Throw => w.Building? || w.Uploaded?
       case CheckUpload(_) => w.Uploaded? && w.job in s.rows
       case MarkReady => w.Confirming?
       case ReadPrevious => w.Marked? && w.job in s.rows
       case PurgePrevious(_) => w.Swapping? && w.read.key.Some?
       case ClearPrevious => w.Purged?
       case CountFailure => w.Raised? && w.job in s.rows
       case GiveUp => w.GivingUp?
       case BackoffSecond => w.Backoff? && w.left > 0 && w.job in s.rows
       case Retry => w.Backoff? && w.left == 0
       case CleanupDelete(id) =>
         id in s.rows && s.rows[id].status == Ready && s.rows[id].Expired(e.now) && s.rows[id].key.Some?
       case CleanupClear(id) =>
         id in s.rows && s.rows[id].status == Ready && s.rows[id].Expired(e.now)
       case Reconcile(id) =>
         id in s.rows && s.rows[id].status == Ready && s.rows[id].key.Some? && s.rows[id].key.value !in s.store
  }

  /** The rows after `request_export`: the new job, and the link from the job it will replace. */
  function Requested(rows: Rows, t: Tenant, id: Id, current: Option<Id>, now: int): Rows {
    var rows' := Created(rows, id, t, MAX_ATTEMPTS, now + COOLDOWN, current, now);
    if current.Some? && current.value in rows then
      var c := rows[current.value];
      Updated(rows', current.value, Update(c.status, c.key, c.expiresAt, false, None, Some(id)), now)
    else rows'
  }

  function Apply(s: State, e: Event): State
    requires Enabled(s, e)
  {
    var w := s.worker;
    var s := s.(clock := e.now);
    match e.action
    case Request(t, id, current) => s.(rows := Requested(s.rows, t, id, current, e.now))
    case Cancel(id) => s.(rows := CancelledRows(s.rows, id))
    case Claim(id) => s.(rows := ClaimedRows(s.rows, id, e.now), worker := Starting(id, 0))
    case Checkpoint =>
      s.(worker := if s.rows[w.job].status == Cancelled then Idle else Building(w.job, w.attempt))
    case TenantMissing => s.(rows := Updated(s.rows, w.job, SetStatus(Failed), e.now), worker := Idle)
    case Upload(key) =>
      s.(store := s.store + {key}, minted := s.minted + {key}, worker := Uploaded(w.job, w.attempt, key))
    case Throw => s.(worker := Raised(w.job, w.attempt))
    case CheckUpload(deleted) =>
      if s.rows[w.job].status == Cancelled then
        s.(store := if deleted then s.store - {w.key} else s.store, worker := Idle)
      else s.(worker := Confirming(w.job, w.key))
    case MarkReady =>
      s.(rows := Updated(s.rows, w.job, Readied(w.key, e.now), e.now),
         worker := Marked(w.job))
    case ReadPrevious =>
      var p := s.rows[w.job].replaced;
      s.(worker := if p.Some? && p.value in s.rows && s.rows[p.value].key.Some?
                   then Swapping(w.job, p.value, s.rows[p.value]) else Idle)
    case PurgePrevious(deleted) =>
      s.(store := if deleted then s.store - {w.read.key.value} else s.store,
         worker := Purged(w.job, w.prev, w.read, deleted))
    case ClearPrevious =>
      s.(rows := Updated(s.rows, w.prev, Emptied(w.read), e.now),
         worker := Idle)
    case CountFailure =>
      s.(rows := Counted(s.rows, w.job),
         worker := if w.attempt + 1 >= s.rows[w.job].maxAttempts then GivingUp(w.job)
                   else Backoff(w.job, w.attempt, BackoffSeconds(w.attempt)))
    case GiveUp => s.(rows := Updated(s.rows, w.job, SetStatus(Failed), e.now), worker := Idle)
    case BackoffSecond =>
      s.(worker := if s.rows[w.job].status == Cancelled then Idle else Backoff(w.job, w.attempt, w.left - 1))
    case Retry =>
      s.(rows := Updated(s.rows, w.job, SetStatus(Pending).(clearLease := true), e.now),
         worker := Starting(w.job, w.attempt + 1))
    case CleanupDelete(id) => s.(store := s.store - {s.rows[id].key.value})
    case CleanupClear(id) =>
      s.(rows := Updated(s.rows, id, Update(Ready, None, s.rows[id].expiresAt, false, None, None), e.now))
    case Reconcile(id) =>
      s.(rows := Updated(s.rows, id, Update(Ready, None, s.rows[id].expiresAt, false, None, None), e.now))
  }

  function Init(clock: int): State { State(map[], {}, {}, Idle, clock) }

  /** `states` is what happens when `events` are taken one after the other. */
  ghost predicate Run(states: seq<State>, events: seq<Event>) {
    |states| == |events| + 1 && forall n :: 0 <= n < |events| ==> StepAt(states, events, n)
  }

  ghost predicate StepAt(states: seq<State>, events: seq<Event>, n: int)
    requires |states| == |events| + 1 && 0 <= n < |events|
  {
    Enabled(states[n], events[n]) && states[n + 1] == Apply(states[n], events[n])
  }

  // ---- What every step keeps ----

  ghost predicate JobOk(s: State, id: Id)
    requires id in s.rows
  {
    var j := s.rows[id];
    && j.createdAt <= s.clock
    && j.maxAttempts > 0
    && j.cooldownUntil.Some? && j.cooldownUntil.value <= s.clock + COOLDOWN
    && (j.key.Some? ==> j.status == Ready && j.key.value in s.minted)
    && (j.status == Ready ==> j.readyAt.Some? && j.readyAt.value <= s.clock
                              && j.expiresAt.Some? && j.expiresAt.value <= s.clock + EXPORT_TTL)
    && (j.status != Ready ==> j.replacement.None?)
    && (j.replaced.Some? ==> j.replaced.value != id && j.replaced.value in s.rows
                             && s.rows[j.replaced.value].tenant == j.tenant
                             && s.rows[j.replaced.value].status == Ready
                             && s.rows[j.replaced.value].createdAt < j.createdAt)
  }

  ghost predicate RowsOk(s: State) {
    && (forall id :: id in s.rows ==> JobOk(s, id))
    && (forall i, j :: i in s.rows && j in s.rows && i != j ==> s.rows[i].createdAt != s.rows[j].createdAt)
    && (forall i, j :: i in s.rows && j in s.rows && i != j && s.rows[i].key.Some? ==> s.rows[i].key != s.rows[j].key)
    && s.store <= s.minted
  }

  /** A key held by the worker is stored and belongs to no row. */
  ghost predicate KeyPrivate(s: State, k: Key) {
    k in s.store && forall id :: id in s.rows ==> s.rows[id].key != Some(k)
  }

  ghost predicate WorkerOk(s: State) {
    var w := s.worker;
    && (!w.Idle? ==> w.job in s.rows)
    && (w.Working() ==> s.rows[w.job].status != Ready)
    && (w.InSwap() ==> s.rows[w.job].status == Ready)
    && (w.Uploaded? || w.Confirming? ==> KeyPrivate(s, w.key))
    && (w.Swapping? || w.Purged? ==>
          && w.prev != w.job && s.rows[w.job].replaced == Some(w.prev) && w.prev in s.rows
          && w.read.key.Some? && w.read.status == Ready
          && w.read.expiresAt == s.rows[w.prev].expiresAt
          && (s.rows[w.prev].key == w.read.key || s.rows[w.prev].key.None?))
    && (w.Purged? && w.deleted && w.read.key.Some? ==> w.read.key.value !in s.store)
    && (forall id, k :: (w.Swapping? || w.Purged?) && id in s.rows && id != w.prev && s.rows[id].key == Some(k) ==>
          w.read.key != Some(k))
  }

  /** The object of `id` has just been deleted in a swap whose last commit is still to come. */
  predicate JustPurged(w: Worker, id: Id) {
    w.Purged? && w.deleted && w.prev == id
  }

  /** Every key of an unexpired ready job is backed by an object, except the one just being purged. */
  ghost predicate Backed(s: State) {
    forall id :: id in s.rows && s.rows[id].key.Some? && !s.rows[id].Expired(s.clock)
      && !JustPurged(s.worker, id)
      ==> s.rows[id].key.value in s.store
  }

  ghost predicate Inv(s: State) { RowsOk(s) && WorkerOk(s) && Backed(s) }

  // ---- The five ways a step can change the table ----

  datatype Effect =
    | Same
    | Progress(id: Id)                                        // a job that is not ready stays not ready
    | Confirm(id: Id, key: Key)                               // a job becomes ready
    | Clear(id: Id)                                           // a ready job loses its key
    | Open(tenant: Tenant, id: Id, current: Option<Id>)       // a new job

  function EffectOf(s: State, e: Event): Effect {
    var w := s.worker;
    match e.action
    case Request(t, id, current) => Open(t, id, current)
    case Cancel(id) => if id in s.rows && s.rows[id].Active() then Progress(id) else Same
    case Claim(id) => Progress(id)
    case TenantMissing => if w.Idle? then Same else Progress(w.job)
    case CountFailure => if w.Idle? then Same else Progress(w.job)
    case GiveUp => if w.Idle? then Same else Progress(w.job)
    case Retry => if w.Idle? then Same else Progress(w.job)
    case MarkReady => if w.Confirming? then Confirm(w.job, w.key) else Same
    case ClearPrevious => if w.Purged? then Clear(w.prev) else Same
    case CleanupClear(id) => Clear(id)
    case Reconcile(id) => Clear(id)
    case _ => Same
  }

  ghost predicate RowEffect(rows: Rows, rows': Rows, now: int, f: Effect) {
    match f
    case Same => rows' == rows
    case Progress(id) =>
      && id in rows && rows[id].status != Ready
      && rows'.Keys == rows.Keys && (forall j :: j in rows && j != id ==> rows'[j] == rows[j])
      && rows'[id].status != Ready
      && rows'[id] == rows[id].(status := rows'[id].status, attempts := rows'[id].attempts,
                                leaseExpires := rows'[id].leaseExpires)
    case Confirm(id, key) =>
      && id in rows && rows[id].status != Ready
      && rows'.Keys == rows.Keys && (forall j :: j in rows && j != id ==> rows'[j] == rows[j])
      && rows'[id] == rows[id].(status := Ready, key := Some(key), readyAt := Some(now),
                                expiresAt := Some(now + EXPORT_TTL),
                                cooldownUntil := Some(now + COOLDOWN), leaseExpires := None)
    case Clear(id) =>
      && id in rows && rows[id].status == Ready
      && rows'.Keys == rows.Keys && (forall j :: j in rows && j != id ==> rows'[j] == rows[j])
      && rows'[id] == rows[id].(key := None, readyAt := Some(now))
    case Open(t, id, current) =>
      && id !in rows
      && (current.Some? ==> current.value in rows && rows[current.value].status == Ready
                            && rows[current.value].tenant == t)
      && rows'.Keys == rows.Keys + {id}
      && rows'[id] == Job(t, Pending, 0, MAX_ATTEMPTS, None, None, None, None, Some(now + COOLDOWN), current, None, now)
      && (forall j :: j in rows && current != Some(j) ==> rows'[j] == rows[j])
      && (current.Some? ==> rows'[current.value] == rows[current.value].(readyAt := Some(now), replacement := Some(id)))
  }

  lemma StepEffect(s: State, e: Event)
    requires RowsOk(s) && WorkerOk(s) && Enabled(s, e)
    ensures RowEffect(s.rows, Apply(s, e).rows, e.now, EffectOf(s, e))
  {
    match EffectOf(s, e)
    case Same => SameEffect(s, e);
    case Progress(id) => ProgressEffect(s, e);
    case Confirm(id, key) => ConfirmEffect(s, e);
    case Clear(id) => ClearEffect(s, e);
    case Open(t, id, current) => RequestEffect(s, e);
  }

  lemma SameEffect(s: State, e: Event)
    requires WorkerOk(s) && Enabled(s, e) && EffectOf(s, e).Same?
    ensures RowEffect(s.rows, Apply(s, e).rows, e.now, EffectOf(s, e))
  {
  }

  lemma ProgressEffect(s: State, e: Event)
    requires WorkerOk(s) && Enabled(s, e) && EffectOf(s, e).Progress?
    ensures RowEffect(s.rows, Apply(s, e).rows, e.now, EffectOf(s, e))
  {
  }

  lemma ConfirmEffect(s: State, e: Event)
    requires RowsOk(s) && WorkerOk(s) && Enabled(s, e) && EffectOf(s, e).Confirm?
    ensures RowEffect(s.rows, Apply(s, e).rows, e.now, EffectOf(s, e))
  {
    assert JobOk(s, s.worker.job);
  }

  lemma RequestEffect(s: State, e: Event)
    requires RowsOk(s) && WorkerOk(s) && Enabled(s, e) && e.action.Request?
    ensures RowEffect(s.rows, Apply(s, e).rows, e.now, EffectOf(s, e))
  {
    if e.action.current.Some? {
      assert JobOk(s, e.action.current.value);
    }
  }

  lemma ClearEffect(s: State, e: Event)
    requires RowsOk(s) && WorkerOk(s) && Enabled(s, e) && EffectOf(s, e).Clear?
    ensures RowEffect(s.rows, Apply(s, e).rows, e.now, EffectOf(s, e))
  {
    assert s.worker.Purged? ==> JobOk(s, s.worker.job);
    assert JobOk(s, EffectOf(s, e).id);
  }

  lemma EffectKeepsJobs(s: State, s': State, f: Effect)
    requires RowsOk(s) && s.clock < s'.clock && s.minted <= s'.minted
    requires RowEffect(s.rows, s'.rows, s'.clock, f)
    requires f.Confirm? ==> f.key in s'.minted
    ensures forall id :: id in s'.rows ==> JobOk(s', id)
  {
    forall id | id in s'.rows ensures JobOk(s', id) {
      assert id in s.rows ==> JobOk(s, id);
    }
  }

  lemma EffectKeepsKeys(s: State, rows': Rows, now: int, f: Effect)
    requires RowsOk(s) && RowEffect(s.rows, rows', now, f)
    requires f.Confirm? ==> forall id :: id in s.rows ==> s.rows[id].key != Some(f.key)
    ensures forall i, j :: i in rows' && j in rows' && i != j && rows'[i].key.Some? ==> rows'[i].key != rows'[j].key
  {
    forall i | i in rows' ensures rows'[i].key.Some? ==> (f.Confirm? && f.id == i && rows'[i].key == Some(f.key))
                                                         || (i in s.rows && rows'[i].key == s.rows[i].key)
    {
    }
  }

  lemma EffectKeepsCreation(s: State, rows': Rows, now: int, f: Effect)
    requires RowsOk(s) && s.clock < now && RowEffect(s.rows, rows', now, f)
    ensures forall i, j :: i in rows' && j in rows' && i != j ==> rows'[i].createdAt != rows'[j].createdAt
  {
    forall i | i in rows'
      ensures if i in s.rows then rows'[i].createdAt == s.rows[i].createdAt <= s.clock
              else f.Open? && f.id == i && rows'[i].createdAt == now
    {
      assert i in s.rows ==> JobOk(s, i);
    }
  }

  lemma EffectKeepsRows(s: State, s': State, f: Effect)
    requires RowsOk(s) && s.clock < s'.clock && s.minted <= s'.minted && s'.store <= s'.minted
    requires RowEffect(s.rows, s'.rows, s'.clock, f)
    requires f.Confirm? ==> f.key in s'.minted && forall id :: id in s.rows ==> s.rows[id].key != Some(f.key)
    ensures RowsOk(s')
  {
    EffectKeepsJobs(s, s', f);
    EffectKeepsKeys(s, s'.rows, s'.clock, f);
    EffectKeepsCreation(s, s'.rows, s'.clock, f);
  }

  lemma StepKeepsRows(s: State, e: Event)
    requires RowsOk(s) && WorkerOk(s) && Enabled(s, e)
    ensures RowsOk(Apply(s, e))
  {
    StepEffect(s, e);
    EffectKeepsRows(s, Apply(s, e), EffectOf(s, e));
  }

  predicate ByOthers(a: Action) {
    a.Request? || a.Cancel? || a.CleanupClear? || a.Reconcile? || a.CleanupDelete?
  }

  /** A step of somebody else leaves the worker's view in order. */
  lemma OthersKeepWorker(s: State, e: Event)
    requires RowsOk(s) && WorkerOk(s) && Enabled(s, e)
    requires ByOthers(e.action)
    ensures WorkerOk(Apply(s, e))
  {
    StepEffect(s, e);
    EffectKeepsWorker(s, Apply(s, e), EffectOf(s, e));
  }

  /** A change by somebody else keeps tenants, links and ready states, and adds no key. */
  lemma EffectFrame(rows: Rows, rows': Rows, now: int, f: Effect, i: Id)
    requires RowEffect(rows, rows', now, f) && !f.Confirm? && i in rows
    ensures i in rows' && rows'[i].replaced == rows[i].replaced && rows'[i].tenant == rows[i].tenant
    ensures rows'[i].status == Ready <==> rows[i].status == Ready
    ensures rows[i].status == Ready ==> rows'[i].expiresAt == rows[i].expiresAt
    ensures rows'[i].key == rows[i].key || rows'[i].key.None?
  {
  }

  lemma EffectKeepsWorker(s: State, s': State, f: Effect)
    requires RowsOk(s) && WorkerOk(s) && s'.worker == s.worker && !f.Confirm?
    requires RowEffect(s.rows, s'.rows, s'.clock, f)
    requires s'.store <= s.store
    requires forall k :: k in s.store && k !in s'.store ==> exists id :: id in s.rows && s.rows[id].key == Some(k)
    ensures WorkerOk(s')
  {
    var w := s.worker;
    forall i | i in s'.rows && s'.rows[i].key.Some? ensures i in s.rows && s'.rows[i].key == s.rows[i].key {
      if i in s.rows {
        EffectFrame(s.rows, s'.rows, s'.clock, f, i);
      }
    }
    if !w.Idle? {
      EffectFrame(s.rows, s'.rows, s'.clock, f, w.job);
    }
    if w.Swapping? || w.Purged? {
      assert JobOk(s, w.job);
      EffectFrame(s.rows, s'.rows, s'.clock, f, w.prev);
    }
  }

  /** The worker's steps outside a swap. */
  lemma AttemptKeepsWorker(s: State, e: Event)
    requires RowsOk(s) && WorkerOk(s) && Enabled(s, e) && !ByOthers(e.action)
    requires !s.worker.InSwap() && !e.action.MarkReady?
    ensures WorkerOk(Apply(s, e))
  {
    StepEffect(s, e);
  }

  lemma MarkReadyKeepsWorker(s: State, e: Event)
    requires RowsOk(s) && WorkerOk(s) && Enabled(s, e) && e.action.MarkReady?
    ensures WorkerOk(Apply(s, e))
  {
    StepEffect(s, e);
  }

  lemma SwapKeepsWorker(s: State, e: Event)
    requires RowsOk(s) && WorkerOk(s) && Enabled(s, e) && !ByOthers(e.action) && s.worker.InSwap()
    ensures WorkerOk(Apply(s, e))
  {
    assert JobOk(s, s.worker.job);
  }

  lemma OwnKeepsWorker(s: State, e: Event)
    requires RowsOk(s) && WorkerOk(s) && Enabled(s, e) && !ByOthers(e.action)
    ensures WorkerOk(Apply(s, e))
  {
    if e.action.MarkReady? {
      MarkReadyKeepsWorker(s, e);
    } else if s.worker.InSwap() {
      SwapKeepsWorker(s, e);
    } else {
      AttemptKeepsWorker(s, e);
    }
  }

  lemma StepKeepsWorker(s: State, e: Event)
    requires RowsOk(s) && WorkerOk(s) && Enabled(s, e)
    ensures WorkerOk(Apply(s, e))
  {
    if ByOthers(e.action) {
      OthersKeepWorker(s, e);
    } else {
      OwnKeepsWorker(s, e);
    }
  }

  lemma ShrinkKeepsBacked(s: State, e: Event)
    requires Inv(s) && Enabled(s, e)
    requires e.action.CleanupDelete? || e.action.PurgePrevious? || e.action.CheckUpload?
    ensures Backed(Apply(s, e))
  {
  }

  lemma GrowthKeepsBacked(s: State, s': State, f: Effect)
    requires Inv(s) && s.clock < s'.clock && s.store <= s'.store
    requires RowEffect(s.rows, s'.rows, s'.clock, f)
    requires f.Confirm? ==> f.key in s'.store
    requires s.worker.Purged? ==> s'.worker == s.worker || (f.Clear? && f.id == s.worker.prev)
    ensures Backed(s')
  {
    forall id | id in s'.rows && s'.rows[id].key.Some? && !s'.rows[id].Expired(s'.clock)
                && !JustPurged(s'.worker, id)
      ensures s'.rows[id].key.value in s'.store
    {
      if !(f.Confirm? && f.id == id) {
        assert id in s.rows && JobOk(s, id);
        assert s'.rows[id].key == s.rows[id].key && s'.rows[id].expiresAt == s.rows[id].expiresAt;
      }
    }
  }

  lemma StepKeepsBacked(s: State, e: Event)
    requires Inv(s) && Enabled(s, e)
    ensures Backed(Apply(s, e))
  {
    if e.action.CleanupDelete? || e.action.PurgePrevious? || e.action.CheckUpload? {
      ShrinkKeepsBacked(s, e);
    } else {
      StepEffect(s, e);
      GrowthKeepsBacked(s, Apply(s, e), EffectOf(s, e));
    }
  }

  lemma StepKeepsInv(s: State, e: Event)
    requires Inv(s) && Enabled(s, e)
    ensures Inv(Apply(s, e))
  {
    StepKeepsRows(s, e);
    StepKeepsWorker(s, e);
    StepKeepsBacked(s, e);
  }

  /** Every reachable state of every run. */
  lemma {:induction false} RunKeepsInv(states: seq<State>, events: seq<Event>, n: nat)
    requires Run(states, events) && states[0] == Init(states[0].clock) && n < |states|
    ensures Inv(states[n])
  {
    if n > 0 {
      RunKeepsInv(states, events, n - 1);
      assert StepAt(states, events, n - 1);
      StepKeepsInv(states[n - 1], events[n - 1]);
    }
  }
}
