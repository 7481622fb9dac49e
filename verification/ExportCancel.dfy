/**
 What a cancel achieves: exactly when it is final, and exactly which uploaded objects are left
 behind for good.
 */
module ExportCancel {
  import opened Common
  import opened ExportJobs
  import opened ExportProtocol
  import opened ExportRuns

  // ---- When a cancel is final ----

  /**
   The worker's next step writes the job's status without looking at it: the ready commit, or the
   reset after a backoff.
   */
  predicate Overrides(w: Worker, id: Id) {
    w.Holds(id) && (w.Confirming? || (w.Backoff? && w.left == 0))
  }

  /**
   A job that the worker cannot bring back: the worker is done with it, or is at a point from which
   it meets a checkpoint, gives up, or checks again before it resets the job.
   */
  predicate Doomed(s: State, id: Id) {
    && id in s.rows
    && match s.rows[id].status
       case Cancelled => s.worker.Holds(id) ==> s.worker.Working() && !Overrides(s.worker, id)
       case Failed => !s.worker.Holds(id)
       case _ => false
  }

  lemma StepKeepsDoomed(s: State, e: Event, id: Id)
    requires Inv(s) && Enabled(s, e) && Doomed(s, id)
    ensures Doomed(Apply(s, e), id)
  {
    if s.worker.Holds(id) {
      HeldStaysDoomed(s, e, id);
    } else {
      ReleasedStaysDoomed(s, e, id);
    }
  }

  lemma HeldStaysDoomed(s: State, e: Event, id: Id)
    requires Inv(s) && Enabled(s, e) && Doomed(s, id) && s.worker.Holds(id)
    ensures Doomed(Apply(s, e), id)
  {
  }

  lemma ReleasedStaysDoomed(s: State, e: Event, id: Id)
    requires Inv(s) && Enabled(s, e) && Doomed(s, id) && !s.worker.Holds(id)
    ensures Doomed(Apply(s, e), id)
  {
    StepEffect(s, e);
  }

  lemma {:induction false} RunKeepsDoomed(states: seq<State>, events: seq<Event>, m: nat, n: nat, id: Id)
    requires Run(states, events) && Inv(states[0]) && m <= n < |states| && Doomed(states[m], id)
    ensures Inv(states[n]) && Doomed(states[n], id)
    decreases n
  {
    InvReached(states, events, n);
    if m < n {
      RunKeepsDoomed(states, events, m, n - 1, id);
      assert StepAt(states, events, n - 1);
      StepKeepsDoomed(states[n - 1], events[n - 1], id);
    }
  }

  /** Whatever happens from here, the job is never active or ready again. */
  ghost predicate StaysDown(s: State, id: Id) {
    forall s' :: Reaches(s, s') ==> id in s'.rows && (s'.rows[id].status == Cancelled || s'.rows[id].status == Failed)
  }

  lemma DoomedStaysDown(s: State, id: Id)
    requires Inv(s) && Doomed(s, id)
    ensures StaysDown(s, id)
  {
    forall s' | Reaches(s, s')
      ensures id in s'.rows && (s'.rows[id].status == Cancelled || s'.rows[id].status == Failed)
    {
      var states, events :| Run(states, events) && states[0] == s && states[|events|] == s';
      RunKeepsDoomed(states, events, 0, |events|, id);
    }
  }

  /** The override brings a cancelled job back in one step. */
  lemma OverrideRevives(s: State, id: Id)
    requires Inv(s) && id in s.rows && Overrides(s.worker, id)
    ensures !StaysDown(s, id)
  {
    var e := Event(s.clock + 1, if s.worker.Confirming? then MarkReady else Retry);
    ReachesItself(s);
    ReachesNext(s, s, e);
    assert Apply(s, e).rows[id].status == if s.worker.Confirming? then Ready else Pending;
  }

  /**
   A cancel that succeeds is final in every continuation exactly when the worker is not, for that
   job, past the post-upload checkpoint or at the end of a backoff.
   */
  lemma CancelFinalIff(s: State, e: Event, id: Id)
    requires Inv(s) && Enabled(s, e) && e.action == Cancel(id) && id in s.rows && s.rows[id].Active()
    ensures StaysDown(Apply(s, e), id) <==> !Overrides(s.worker, id)
  {
    var s' := Apply(s, e);
    StepKeepsInv(s, e);
    if Overrides(s.worker, id) {
      OverrideRevives(s', id);
    } else {
      assert Doomed(s', id);
      DoomedStaysDown(s', id);
    }
  }

  /**
   In particular a cancel between an attempt's first checkpoint and its post-upload checkpoint never
   ends with the job ready.
   */
  lemma CancelIsFinal(states: seq<State>, events: seq<Event>, m: nat, n: nat, id: Id)
    requires Run(states, events) && states[0] == Init(states[0].clock) && m < n < |states|
    requires events[m].action == Cancel(id) && id in states[m].rows && states[m].rows[id].Active()
    requires !Overrides(states[m].worker, id)
    ensures id in states[n].rows && (states[n].rows[id].status == Cancelled || states[n].rows[id].status == Failed)
    ensures Doomed(states[n], id)
  {
    RunKeepsInv(states, events, 0);
    InvReached(states, events, m);
    assert StepAt(states, events, m);
    assert Doomed(states[m + 1], id);
    RunKeepsDoomed(states, events, m + 1, n, id);
  }

  /** A reachable cancel that succeeds after the post-upload checkpoint: the job ends ready. */
  lemma CancelLostAtConfirm() returns (s: State, e: Event, s': State)
    ensures Reaches(Init(0), s) && Enabled(s, e) && e.action == Cancel(0) && 0 in s.rows && s.rows[0].Active()
    ensures s.worker.Confirming? && Reaches(Apply(s, e), s') && 0 in s'.rows && s'.rows[0].status == Ready
  {
    s := FirstRequest();
    s := Claims(Init(0), s, 0);
    s := Uploads(Init(0), s, 0);
    s := Confirms(Init(0), s);
    e := Event(s.clock + 1, Cancel(0));
    var c := Apply(s, e);
    ReachesItself(c);
    ReachesNext(c, c, Event(c.clock + 1, MarkReady));
    s' := Apply(c, Event(c.clock + 1, MarkReady));
  }

  /** The one-second steps of a backoff, for a job that is not cancelled. */
  lemma {:induction false} Naps(from: State, s: State) returns (s': State)
    requires Reaches(from, s) && s.worker.Backoff? && s.worker.job in s.rows && s.rows[s.worker.job].status != Cancelled
    ensures Reaches(from, s') && s'.rows == s.rows && s'.worker == s.worker.(left := 0)
    decreases s.worker.left
  {
    s' := s;
    if s.worker.left > 0 {
      var e := Event(s.clock + 1, BackoffSecond);
      ReachesNext(from, s, e);
      s' := Naps(from, Apply(s, e));
    }
  }

  /** From a building worker: an exception, counted, with attempts left. */
  lemma Fails(from: State, s: State) returns (s': State)
    requires Reaches(from, s) && s.worker.Building? && s.worker.job in s.rows
    requires s.worker.attempt + 1 < s.rows[s.worker.job].maxAttempts
    ensures Reaches(from, s') && s'.rows == Counted(s.rows, s.worker.job)
    ensures s'.worker == Backoff(s.worker.job, s.worker.attempt, BackoffSeconds(s.worker.attempt))
  {
    var e1, e2 := Event(s.clock + 1, Throw), Event(s.clock + 2, CountFailure);
    ReachesNext(from, s, e1);
    var s1 := Apply(s, e1);
    ReachesNext(from, s1, e2);
    s' := Apply(s1, e2);
  }

  /** A reachable cancel that succeeds after the last check of a backoff: the job is pending again. */
  lemma CancelLostInBackoff() returns (s: State, e: Event, s': State)
    ensures Reaches(Init(0), s) && Enabled(s, e) && e.action == Cancel(0) && 0 in s.rows && s.rows[0].Active()
    ensures s.worker.Backoff? && Reaches(Apply(s, e), s') && 0 in s'.rows && s'.rows[0].status == Pending
  {
    s := FirstRequest();
    s := Claims(Init(0), s, 0);
    s := Fails(Init(0), s);
    s := Naps(Init(0), s);
    e := Event(s.clock + 1, Cancel(0));
    var c := Apply(s, e);
    ReachesItself(c);
    ReachesNext(c, c, Event(c.clock + 1, Retry));
    s' := Apply(c, Event(c.clock + 1, Retry));
  }

  // ---- Which objects are left behind ----

  /** The worker is about to store this key in a row, or to delete its object. */
  predicate Refers(w: Worker, k: Key) {
    || ((w.Uploaded? || w.Confirming?) && w.key == k)
    || ((w.Swapping? || w.Purged?) && w.read.key == Some(k))
  }

  ghost predicate OnNoRow(rows: Rows, k: Key) {
    forall id :: id in rows ==> rows[id].key != Some(k)
  }

  /** An object that nothing refers to any more. */
  ghost predicate Orphan(s: State, k: Key) {
    k in s.store && k in s.minted && OnNoRow(s.rows, k) && !Refers(s.worker, k)
  }

  /** A row gets a key only from the worker's ready commit. */
  lemma StepKeepsOffRows(s: State, e: Event, k: Key)
    requires Inv(s) && Enabled(s, e) && OnNoRow(s.rows, k) && !Refers(s.worker, k)
    ensures OnNoRow(Apply(s, e).rows, k)
  {
    StepEffect(s, e);
  }

  lemma StepKeepsUnreferred(s: State, e: Event, k: Key)
    requires Inv(s) && Enabled(s, e) && Orphan(s, k)
    ensures !Refers(Apply(s, e).worker, k)
  {
  }

  lemma StepKeepsStored(s: State, e: Event, k: Key)
    requires Inv(s) && Enabled(s, e) && Orphan(s, k)
    ensures k in Apply(s, e).store && k in Apply(s, e).minted
  {
  }

  lemma StepKeepsOrphan(s: State, e: Event, k: Key)
    requires Inv(s) && Enabled(s, e) && Orphan(s, k)
    ensures Orphan(Apply(s, e), k)
  {
    StepKeepsOffRows(s, e, k);
    StepKeepsUnreferred(s, e, k);
    StepKeepsStored(s, e, k);
  }

  /** An orphan stays one for ever: no step deletes it or refers to it again. */
  lemma {:induction false} OrphanForever(states: seq<State>, events: seq<Event>, m: nat, n: nat, k: Key)
    requires Run(states, events) && Inv(states[0]) && m <= n < |states| && Orphan(states[m], k)
    ensures Orphan(states[n], k)
    decreases n
  {
    if m < n {
      OrphanForever(states, events, m, n - 1, k);
      InvReached(states, events, n - 1);
      assert StepAt(states, events, n - 1);
      StepKeepsOrphan(states[n - 1], events[n - 1], k);
    }
  }

  /** An object that is gone stays gone: keys are fresh. */
  lemma {:induction false} GoneForGood(states: seq<State>, events: seq<Event>, m: nat, n: nat, k: Key)
    requires Run(states, events) && m <= n < |states| && k in states[m].minted && k !in states[m].store
    ensures k in states[n].minted && k !in states[n].store
    decreases n
  {
    if m < n {
      GoneForGood(states, events, m, n - 1, k);
      assert StepAt(states, events, n - 1);
    }
  }

  /** The step that ends the upload of a cancelled attempt. */
  lemma UploadEnds(s: State, e: Event, id: Id)
    requires Inv(s) && Enabled(s, e) && Doomed(s, id) && s.worker.Uploaded? && s.worker.Holds(id)
    requires Apply(s, e).worker != s.worker
    ensures s.worker.key in Apply(s, e).minted
    ensures if e.action == Throw || e.action == CheckUpload(false) then Orphan(Apply(s, e), s.worker.key)
            else e.action == CheckUpload(true) && s.worker.key !in Apply(s, e).store
  {
  }

  /**
   What becomes of the object of a cancelled attempt, at every state after the worker has left the
   upload: it is there if and only if an exception struck before the post-upload checkpoint or the
   checkpoint's delete failed.
   */
  lemma CancelledUpload(states: seq<State>, events: seq<Event>, m: nat, u: nat, n: nat, id: Id)
    requires Run(states, events) && states[0] == Init(states[0].clock) && m < u < n < |states|
    requires events[m].action == Cancel(id) && id in states[m].rows && states[m].rows[id].Active()
    requires !Overrides(states[m].worker, id)
    requires states[u].worker.Uploaded? && states[u].worker.Holds(id) && states[u + 1].worker != states[u].worker
    ensures states[u].worker.key in states[n].store <==>
              events[u].action == Throw || events[u].action == CheckUpload(false)
  {
    var k := states[u].worker.key;
    CancelIsFinal(states, events, m, u, id);
    RunKeepsInv(states, events, 0);
    InvReached(states, events, u);
    assert StepAt(states, events, u);
    UploadEnds(states[u], events[u], id);
    if events[u].action == Throw || events[u].action == CheckUpload(false) {
      OrphanForever(states, events, u + 1, n, k);
    } else {
      GoneForGood(states, events, u + 1, n, k);
    }
  }

  /** So once the checkpoint's delete succeeds, nothing of the attempt of a doomed job remains at any later state. */
  lemma CancelledUploadRemoved(states: seq<State>, events: seq<Event>, m: nat, u: nat, n: nat, id: Id)
    requires Run(states, events) && states[0] == Init(states[0].clock) && m <= u < n < |states|
    requires Doomed(states[m], id) && states[u].worker.Uploaded? && states[u].worker.Holds(id)
    requires events[u].action == CheckUpload(true)
    ensures states[u].worker.key !in states[n].store
  {
    RunKeepsInv(states, events, 0);
    RunKeepsDoomed(states, events, m, u, id);
    assert StepAt(states, events, u);
    UploadEnds(states[u], events[u], id);
    GoneForGood(states, events, u + 1, n, states[u].worker.key);
  }

  /** A step drops the last reference to an object that is still stored. */
  predicate Abandons(s: State, e: Event, k: Key) {
    var w := s.worker;
    match e.action
    case Throw => w.Uploaded? && w.key == k
    case CheckUpload(deleted) =>
      w.Uploaded? && w.key == k && !deleted && w.job in s.rows && s.rows[w.job].status == Cancelled
    case ClearPrevious => w.Purged? && w.read.key == Some(k) && k in s.store
    case CleanupClear(id) => id in s.rows && s.rows[id].key == Some(k) && k in s.store && !Refers(w, k)
    case _ => false
  }

  /**
   How objects come to be left behind: an exception after the upload, a failed delete at the
   post-upload checkpoint, a failed delete in a swap, or a cleanup that clears a row whose object is
   still there.  No other step leaves one.
   */
  lemma OrphanedExactly(s: State, e: Event, k: Key)
    requires Inv(s) && Enabled(s, e) && !Orphan(s, k)
    ensures Orphan(Apply(s, e), k) <==> Abandons(s, e, k)
  {
    StepEffect(s, e);
    if Abandons(s, e, k) {
      AbandonedIsOrphan(s, e, k);
    } else if Orphan(Apply(s, e), k) {
      OrphanWasAbandoned(s, e, k);
    }
  }

  lemma AbandonedIsOrphan(s: State, e: Event, k: Key)
    requires Inv(s) && Enabled(s, e) && Abandons(s, e, k)
    requires RowEffect(s.rows, Apply(s, e).rows, e.now, EffectOf(s, e))
    ensures Orphan(Apply(s, e), k)
  {
    assert e.action.CleanupClear? ==> JobOk(s, e.action.id);
  }

  lemma OrphanWasAbandoned(s: State, e: Event, k: Key)
    requires Inv(s) && Enabled(s, e) && !Orphan(s, k) && Orphan(Apply(s, e), k)
    requires RowEffect(s.rows, Apply(s, e).rows, e.now, EffectOf(s, e))
    ensures Abandons(s, e, k)
  {
    if id :| id in s.rows && s.rows[id].key == Some(k) {
      RowWasCleared(s, e, k, id);
    } else {
      WorkerLetGo(s, e, k);
    }
  }

  lemma RowWasCleared(s: State, e: Event, k: Key, id: Id)
    requires Inv(s) && Enabled(s, e) && Orphan(Apply(s, e), k) && id in s.rows && s.rows[id].key == Some(k)
    requires RowEffect(s.rows, Apply(s, e).rows, e.now, EffectOf(s, e))
    ensures Abandons(s, e, k)
  {
    assert JobOk(s, id);
    assert id in Apply(s, e).rows && Apply(s, e).rows[id].key != Some(k);
    assert EffectOf(s, e).Clear? && EffectOf(s, e).id == id;
  }

  lemma WorkerLetGo(s: State, e: Event, k: Key)
    requires Inv(s) && Enabled(s, e) && OnNoRow(s.rows, k) && !Orphan(s, k) && Orphan(Apply(s, e), k)
    ensures Abandons(s, e, k)
  {
    if e.action.MarkReady? {
      ReadyKeyOnRow(s, e);
    }
  }

  lemma ReadyKeyOnRow(s: State, e: Event)
    requires Inv(s) && Enabled(s, e) && e.action.MarkReady?
    ensures !OnNoRow(Apply(s, e).rows, s.worker.key)
  {
    ConfirmEffect(s, e);
    assert Apply(s, e).rows[s.worker.job].key == Some(s.worker.key);
  }

  // ---- A leak without a failed delete ----

  predicate FailsDelete(a: Action) {
    a == CheckUpload(false) || a == PurgePrevious(false) || a.CleanupClear?
  }

  /** A run from the empty table to `s` in which no delete fails. */
  ghost predicate CleanRun(states: seq<State>, events: seq<Event>, s: State) {
    && Run(states, events) && states[0] == Init(0) && states[|events|] == s
    && forall n :: 0 <= n < |events| ==> !FailsDelete(events[n].action)
  }

  lemma Extend(states: seq<State>, events: seq<Event>, s: State, a: Action)
    returns (states': seq<State>, events': seq<Event>)
    requires CleanRun(states, events, s) && Enabled(s, Event(s.clock + 1, a)) && !FailsDelete(a)
    ensures CleanRun(states', events', Apply(s, Event(s.clock + 1, a)))
  {
    var e := Event(s.clock + 1, a);
    states', events' := states + [Apply(s, e)], events + [e];
    forall n | 0 <= n < |events'| ensures StepAt(states', events', n) {
      assert n < |events| ==> StepAt(states, events, n);
    }
  }

  /**
   A run without any failed delete that leaves the object of a cancelled job behind: an exception
   between the upload and the checkpoint.  In the end the worker is idle.
   */
  lemma CancelledUploadLeaks() returns (states: seq<State>, events: seq<Event>, s: State)
    ensures CleanRun(states, events, s) && s.worker == Idle
    ensures 0 in s.rows && s.rows[0].status == Cancelled && Orphan(s, 0)
  {
    states, events, s := UploadedRun();
    states, events := Extend(states, events, s, Cancel(0));
    s := Apply(s, Event(5, Cancel(0)));
    states, events := Extend(states, events, s, Throw);
    s := Apply(s, Event(6, Throw));
    states, events := Extend(states, events, s, CountFailure);
    s := Apply(s, Event(7, CountFailure));
    states, events := Extend(states, events, s, BackoffSecond);
    s := Apply(s, Event(8, BackoffSecond));
  }

  lemma UploadedRun() returns (states: seq<State>, events: seq<Event>, s: State)
    ensures CleanRun(states, events, s)
    ensures s == State(ClaimedRows(map[0 := FirstRow()], 0, 2), {0}, {0}, Uploaded(0, 0, 0), 4)
  {
    s := Init(0);
    states, events := [s], [];
    states, events := Extend(states, events, s, Request(0, 0, None));
    s := Apply(s, Event(1, Request(0, 0, None)));
    assert s == State(map[0 := FirstRow()], {}, {}, Idle, 1);
    states, events := Extend(states, events, s, Claim(0));
    s := Apply(s, Event(2, Claim(0)));
    states, events := Extend(states, events, s, Checkpoint);
    s := Apply(s, Event(3, Checkpoint));
    states, events := Extend(states, events, s, Upload(0));
    s := Apply(s, Event(4, Upload(0)));
  }
}
