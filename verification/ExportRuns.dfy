/** Reachable states of the export protocol, and the stretches of runs that the examples are built from. */
module ExportRuns {
  import opened Common
  import opened ExportJobs
  import opened ExportProtocol

  /** `to` can be reached from `from` by a run. */
  ghost predicate Reaches(from: State, to: State) {
    exists states, events :: Run(states, events) && states[0] == from && states[|events|] == to
  }

  lemma ReachesItself(s: State)
    ensures Reaches(s, s)
  {
    var events: seq<Event> := [];
    assert Run([s], events) && [s][|events|] == s;
  }

  lemma ReachesNext(from: State, s: State, e: Event)
    requires Reaches(from, s) && Enabled(s, e)
    ensures Reaches(from, Apply(s, e))
  {
    var states, events :| Run(states, events) && states[0] == from && states[|events|] == s;
    var states', events' := states + [Apply(s, e)], events + [e];
    forall n | 0 <= n < |events'| ensures StepAt(states', events', n) {
      assert n < |events| ==> StepAt(states, events, n);
    }
    assert Run(states', events') && states'[0] == from && states'[|events'|] == Apply(s, e);
  }

  /** What holds at the start and is kept by every step holds wherever a run gets to. */
  lemma {:induction false} InvReached(states: seq<State>, events: seq<Event>, n: nat)
    requires Run(states, events) && Inv(states[0]) && n < |states|
    ensures Inv(states[n])
  {
    if n > 0 {
      InvReached(states, events, n - 1);
      assert StepAt(states, events, n - 1);
      StepKeepsInv(states[n - 1], events[n - 1]);
    }
  }

  /** From an idle worker: one job claimed and past its first checkpoint. */
  lemma Claims(from: State, s: State, id: Id) returns (s': State)
    requires Reaches(from, s) && s.worker == Idle && id in s.rows && Claimable(s.rows[id], s.clock + 1)
    ensures Reaches(from, s')
    ensures s' == State(ClaimedRows(s.rows, id, s.clock + 1), s.store, s.minted, Building(id, 0), s.clock + 2)
  {
    var e1, e2 := Event(s.clock + 1, Claim(id)), Event(s.clock + 2, Checkpoint);
    ReachesNext(from, s, e1);
    var s1 := Apply(s, e1);
    ReachesNext(from, s1, e2);
    s' := Apply(s1, e2);
  }

  lemma Uploads(from: State, s: State, key: Key) returns (s': State)
    requires Reaches(from, s) && s.worker.Building? && key !in s.minted
    ensures Reaches(from, s')
    ensures s' == State(s.rows, s.store + {key}, s.minted + {key},
                        Uploaded(s.worker.job, s.worker.attempt, key), s.clock + 1)
  {
    var e := Event(s.clock + 1, Upload(key));
    ReachesNext(from, s, e);
    s' := Apply(s, e);
  }

  lemma Confirms(from: State, s: State) returns (s': State)
    requires Reaches(from, s) && s.worker.Uploaded?
    requires s.worker.job in s.rows && s.rows[s.worker.job].status != Cancelled
    ensures Reaches(from, s')
    ensures s' == State(s.rows, s.store, s.minted, Confirming(s.worker.job, s.worker.key), s.clock + 1)
  {
    var e := Event(s.clock + 1, CheckUpload(true));
    ReachesNext(from, s, e);
    s' := Apply(s, e);
  }

  lemma Marks(from: State, s: State) returns (s': State)
    requires Reaches(from, s) && s.worker.Confirming? && s.worker.job in s.rows
    ensures Reaches(from, s')
    ensures s'.worker == Marked(s.worker.job) && s'.clock == s.clock + 1 && s'.store == s.store && s'.minted == s.minted
    ensures s'.rows == s.rows[s.worker.job := s.rows[s.worker.job].(
      status := Ready, key := Some(s.worker.key), readyAt := Some(s.clock + 1),
      expiresAt := Some(s.clock + 1 + EXPORT_TTL),
      cooldownUntil := Some(s.clock + 1 + COOLDOWN), leaseExpires := None)]
  {
    var e := Event(s.clock + 1, MarkReady);
    ReachesNext(from, s, e);
    s' := Apply(s, e);
  }

  /** From an idle worker: one claimed job built, uploaded and marked ready in five steps. */
  lemma BuildsAndMarks(from: State, s: State, id: Id, key: Key) returns (s': State)
    requires Reaches(from, s) && s.worker == Idle
    requires id in s.rows && Claimable(s.rows[id], s.clock + 1) && key !in s.minted
    ensures Reaches(from, s') && s'.worker == Marked(id) && s'.clock == s.clock + 5
    ensures s'.store == s.store + {key} && s'.minted == s.minted + {key}
    ensures s'.rows == s.rows[id := s.rows[id].(status := Ready, key := Some(key), readyAt := Some(s.clock + 5),
                                                 expiresAt := Some(s.clock + 5 + EXPORT_TTL),
                                                 cooldownUntil := Some(s.clock + 5 + COOLDOWN), leaseExpires := None)]
  {
    s' := Claims(from, s, id);
    s' := Uploads(from, s', key);
    s' := Confirms(from, s');
    s' := Marks(from, s');
  }

  /** A tenant's first request, at time one. */
  function FirstRow(): Job {
    Job(0, Pending, 0, MAX_ATTEMPTS, None, None, None, None, Some(1 + COOLDOWN), None, None, 1)
  }

  lemma FirstRequest() returns (s: State)
    ensures Reaches(Init(0), s) && s == State(map[0 := FirstRow()], {}, {}, Idle, 1)
  {
    var e := Event(1, Request(0, 0, None));
    ReachesItself(Init(0));
    ReachesNext(Init(0), Init(0), e);
    s := Apply(Init(0), e);
  }
}
