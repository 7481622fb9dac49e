/**
 Two further guarantees over every run of the export protocol: the spacing of accepted requests and
 the single artifact kept by a tenant that waits for its export.
 */
module ExportGuarantees {
  import opened Common
  import opened ExportJobs
  import opened ExportProtocol

  // ---- Cooldown ----

  /** A job's cooldown never moves earlier. */
  lemma CooldownNeverEarlier(s: State, e: Event, id: Id)
    requires Inv(s) && Enabled(s, e) && id in s.rows
    ensures var s' := Apply(s, e);
            && id in s'.rows && s'.rows[id].tenant == s.rows[id].tenant
            && s.rows[id].cooldownUntil.Some? && s'.rows[id].cooldownUntil.Some?
            && s.rows[id].cooldownUntil.value <= s'.rows[id].cooldownUntil.value
  {
    StepEffect(s, e);
    assert JobOk(s, id);
  }

  lemma {:induction false} RunKeepsCooldown(states: seq<State>, events: seq<Event>, m: nat, n: nat, id: Id)
    requires Run(states, events) && states[0] == Init(states[0].clock) && m <= n < |states| && id in states[m].rows
    ensures id in states[n].rows && states[n].rows[id].tenant == states[m].rows[id].tenant
    ensures states[m].rows[id].cooldownUntil.Some? && states[n].rows[id].cooldownUntil.Some?
    ensures states[m].rows[id].cooldownUntil.value <= states[n].rows[id].cooldownUntil.value
    decreases n
  {
    RunKeepsInv(states, events, m);
    assert JobOk(states[m], id);
    if m < n {
      RunKeepsCooldown(states, events, m, n - 1, id);
      RunKeepsInv(states, events, n - 1);
      assert StepAt(states, events, n - 1);
      CooldownNeverEarlier(states[n - 1], events[n - 1], id);
    }
  }

  /** The tenant for which event `e` starts a cooldown: an accepted request or a completion. */
  predicate StartsCooldown(s: State, e: Event, t: Tenant) {
    || (e.action.Request? && e.action.tenant == t)
    || (e.action.MarkReady? && s.worker.Confirming? && s.worker.job in s.rows && s.rows[s.worker.job].tenant == t)
  }

  lemma CooldownStarted(s: State, e: Event, t: Tenant) returns (id: Id)
    requires Inv(s) && Enabled(s, e) && StartsCooldown(s, e, t)
    ensures var s' := Apply(s, e);
            id in s'.rows && s'.rows[id].tenant == t && s'.rows[id].cooldownUntil == Some(e.now + COOLDOWN)
  {
    StepEffect(s, e);
    id := if e.action.Request? then e.action.id else s.worker.job;
  }

  /** No request is accepted within 24 hours of an earlier accepted request or an earlier completion. */
  lemma RequestsAreSpaced(states: seq<State>, events: seq<Event>, m: nat, n: nat, t: Tenant)
    requires Run(states, events) && states[0] == Init(states[0].clock) && m < n < |events|
    requires StartsCooldown(states[m], events[m], t)
    requires events[n].action.Request? && events[n].action.tenant == t
    ensures events[n].now >= events[m].now + COOLDOWN
  {
    RunKeepsInv(states, events, m);
    assert StepAt(states, events, m) && StepAt(states, events, n);
    var id := CooldownStarted(states[m], events[m], t);
    RunKeepsCooldown(states, events, m + 1, n, id);
  }

  /** A cooldown of the tenant that lasts until `until` was started by an event before `n`. */
  ghost predicate CooldownFrom(states: seq<State>, events: seq<Event>, n: nat, t: Tenant, until: int)
    requires |states| == |events| + 1 && n < |states|
  {
    exists m :: 0 <= m < n && StartsCooldown(states[m], events[m], t) && until == events[m].now + COOLDOWN
  }

  lemma CooldownStep(s: State, e: Event, id: Id)
    requires Inv(s) && Enabled(s, e) && id in Apply(s, e).rows
    ensures var s' := Apply(s, e);
            || (id in s.rows && s'.rows[id].tenant == s.rows[id].tenant
                && s'.rows[id].cooldownUntil == s.rows[id].cooldownUntil)
            || (StartsCooldown(s, e, s'.rows[id].tenant) && s'.rows[id].cooldownUntil == Some(e.now + COOLDOWN))
  {
    StepEffect(s, e);
  }

  lemma {:induction false} CooldownHasSource(states: seq<State>, events: seq<Event>, n: nat, id: Id)
    requires Run(states, events) && states[0] == Init(states[0].clock) && n < |states| && id in states[n].rows
    ensures states[n].rows[id].cooldownUntil.Some?
    ensures CooldownFrom(states, events, n, states[n].rows[id].tenant, states[n].rows[id].cooldownUntil.value)
  {
    if n > 0 {
      RunKeepsInv(states, events, n - 1);
      assert StepAt(states, events, n - 1);
      CooldownStep(states[n - 1], events[n - 1], id);
      if StartsCooldown(states[n - 1], events[n - 1], states[n].rows[id].tenant)
         && states[n].rows[id].cooldownUntil == Some(events[n - 1].now + COOLDOWN)
      {
      } else {
        CooldownHasSource(states, events, n - 1, id);
        var until := states[n].rows[id].cooldownUntil.value;
        var m :| 0 <= m < n - 1 && StartsCooldown(states[m], events[m], states[n].rows[id].tenant)
                 && until == events[m].now + COOLDOWN;
      }
    }
  }

  /**
   In every run a tenant is refused exactly during the 24 hours after one of its own accepted requests
   or completions.
   */
  lemma RefusedIff(states: seq<State>, events: seq<Event>, n: nat, t: Tenant, now: int)
    requires Run(states, events) && states[0] == Init(states[0].clock) && n < |states|
    ensures WithinCooldown(states[n].rows, t, now) <==>
              exists m :: 0 <= m < n && StartsCooldown(states[m], events[m], t) && now < events[m].now + COOLDOWN
  {
    if WithinCooldown(states[n].rows, t, now) {
      var id :| id in states[n].rows && states[n].rows[id].tenant == t && states[n].rows[id].cooldownUntil.Some?
                && states[n].rows[id].cooldownUntil.value > now;
      CooldownHasSource(states, events, n, id);
      var m :| 0 <= m < n && StartsCooldown(states[m], events[m], t)
               && states[n].rows[id].cooldownUntil.value == events[m].now + COOLDOWN;
    }
    if m :| 0 <= m < n && StartsCooldown(states[m], events[m], t) && now < events[m].now + COOLDOWN {
      RunKeepsInv(states, events, m);
      assert StepAt(states, events, m);
      var id := CooldownStarted(states[m], events[m], t);
      RunKeepsCooldown(states, events, m + 1, n, id);
    }
  }

  // ---- A pending job can always be claimed ----

  /** A pending job that the worker does not hold has never been tried. */
  ghost predicate Untried(s: State, id: Id) {
    id in s.rows && s.rows[id].status == Pending && !s.worker.Holds(id) ==>
      s.rows[id].attempts == 0 && s.rows[id].leaseExpires.None?
  }

  lemma OthersKeepUntried(s: State, e: Event, id: Id)
    requires Enabled(s, e) && Untried(s, id) && ByOthers(e.action)
    ensures Untried(Apply(s, e), id)
  {
  }

  lemma OwnKeepsUntried(s: State, e: Event, id: Id)
    requires WorkerOk(s) && Enabled(s, e) && Untried(s, id) && !ByOthers(e.action)
    ensures Untried(Apply(s, e), id)
  {
  }

  lemma StepKeepsUntried(s: State, e: Event, id: Id)
    requires Inv(s) && Enabled(s, e) && Untried(s, id)
    ensures Untried(Apply(s, e), id)
  {
    if ByOthers(e.action) {
      OthersKeepUntried(s, e, id);
    } else {
      OwnKeepsUntried(s, e, id);
    }
  }

  lemma {:induction false} RunKeepsUntried(states: seq<State>, events: seq<Event>, n: nat, id: Id)
    requires Run(states, events) && states[0] == Init(states[0].clock) && n < |states|
    ensures Inv(states[n]) && Untried(states[n], id)
  {
    RunKeepsInv(states, events, n);
    if n > 0 {
      RunKeepsUntried(states, events, n - 1, id);
      assert StepAt(states, events, n - 1);
      StepKeepsUntried(states[n - 1], events[n - 1], id);
    }
  }

  /** Whenever the worker is idle, exactly the pending jobs can be claimed: none is stuck. */
  lemma PendingIsClaimable(states: seq<State>, events: seq<Event>, n: nat, id: Id, now: int)
    requires Run(states, events) && states[0] == Init(states[0].clock) && n < |states|
    requires states[n].worker == Idle && id in states[n].rows
    ensures Claimable(states[n].rows[id], now) <==> states[n].rows[id].status == Pending
  {
    RunKeepsUntried(states, events, n, id);
    assert JobOk(states[n], id);
  }

  // ---- A tenant that asks only when nothing is under way keeps one artifact ----

  /** Job `n` of the tenant is pending, processing, or in the worker's hands before its ready commit. */
  predicate UnderWay(s: State, t: Tenant, n: Id) {
    n in s.rows && s.rows[n].tenant == t && (s.rows[n].Active() || (s.worker.Holds(n) && s.worker.Working()))
  }

  predicate SwapOf(s: State, t: Tenant) {
    s.worker.InSwap() && s.worker.job in s.rows && s.rows[s.worker.job].tenant == t
  }

  /** None of the tenant's jobs is pending, processing or held by the worker. */
  ghost predicate Quiet(s: State, t: Tenant) {
    forall n :: n in s.rows && s.rows[n].tenant == t ==> !s.rows[n].Active() && !s.worker.Holds(n)
  }

  ghost predicate Keyed(s: State, t: Tenant, i: Id) { i in Downloadable(s.rows, t, s.clock) }

  /** A job under way was created last and will replace whatever is keyed. */
  ghost predicate WillReplace(s: State, t: Tenant, n: Id)
    requires n in s.rows
  {
    && (forall i: Id :: Keyed(s, t, i) ==> s.rows[n].replaced == Some(i))
    && (forall j :: j in s.rows && s.rows[j].tenant == t ==> s.rows[j].createdAt <= s.rows[n].createdAt)
  }

  ghost predicate SingleInv(s: State, t: Tenant) {
    && (forall n: Id :: UnderWay(s, t, n) ==> WillReplace(s, t, n) && !SwapOf(s, t))
    && (!SwapOf(s, t) ==>
          forall i: Id, j :: Keyed(s, t, i) && j in ReadyRows(s.rows, t, s.clock) ==>
            s.rows[j].createdAt <= s.rows[i].createdAt)
    && (SwapOf(s, t) ==>
          && (forall i: Id :: Keyed(s, t, i) ==> i == s.worker.job || s.rows[s.worker.job].replaced == Some(i))
          && (forall j :: j in s.rows && s.rows[j].tenant == t ==>
                s.rows[j].createdAt <= s.rows[s.worker.job].createdAt))
  }

  lemma EffectAddsNothing(s: State, s': State, f: Effect, t: Tenant)
    requires RowsOk(s) && s.clock < s'.clock && RowEffect(s.rows, s'.rows, s'.clock, f)
    requires !f.Confirm? && (f.Open? ==> f.tenant != t)
    ensures forall i :: i in ReadyRows(s'.rows, t, s'.clock) ==> i in ReadyRows(s.rows, t, s.clock)
    ensures forall i: Id :: Keyed(s', t, i) ==> Keyed(s, t, i)
    ensures forall n :: n in s'.rows && s'.rows[n].tenant == t ==> n in s.rows && s.rows[n].tenant == t
    ensures forall n :: n in s.rows ==> n in s'.rows && s'.rows[n].createdAt == s.rows[n].createdAt
                                        && s'.rows[n].replaced == s.rows[n].replaced
  {
    forall i | i in s.rows
      ensures i in s'.rows && s'.rows[i].tenant == s.rows[i].tenant && s'.rows[i].expiresAt == s.rows[i].expiresAt
              && (s'.rows[i].key == s.rows[i].key || s'.rows[i].key.None?)
              && (s'.rows[i].status == Ready <==> s.rows[i].status == Ready)
              && s'.rows[i].createdAt == s.rows[i].createdAt && s'.rows[i].replaced == s.rows[i].replaced
    {
    }
  }

  /** Apart from a request and a ready commit, a step puts no job under way. */
  lemma NobodyStarts(s: State, e: Event, t: Tenant, n: Id)
    requires Inv(s) && Enabled(s, e) && !e.action.MarkReady?
    requires e.action.Request? ==> e.action.tenant != t
    requires UnderWay(Apply(s, e), t, n)
    ensures UnderWay(s, t, n)
  {
    StepEffect(s, e);
    if e.action.Request? && e.action.current.Some? {
      assert JobOk(s, e.action.current.value);
    }
  }

  /** The tenant's keyed jobs, ready jobs and jobs under way can only become fewer; links and dates stay. */
  ghost predicate NothingNew(s: State, s': State, t: Tenant) {
    && (forall i: Id :: Keyed(s', t, i) ==> Keyed(s, t, i))
    && (forall i :: i in ReadyRows(s'.rows, t, s'.clock) ==> i in ReadyRows(s.rows, t, s.clock))
    && (forall n: Id :: UnderWay(s', t, n) ==> UnderWay(s, t, n))
    && (forall n :: n in s'.rows && s'.rows[n].tenant == t ==> n in s.rows && s.rows[n].tenant == t)
    && (forall n :: n in s.rows ==> n in s'.rows && s'.rows[n].createdAt == s.rows[n].createdAt
                                    && s'.rows[n].replaced == s.rows[n].replaced)
  }

  lemma StepAddsNothing(s: State, e: Event, t: Tenant)
    requires Inv(s) && Enabled(s, e) && !e.action.MarkReady?
    requires e.action.Request? ==> e.action.tenant != t
    ensures NothingNew(s, Apply(s, e), t)
  {
    StepEffect(s, e);
    EffectAddsNothing(s, Apply(s, e), EffectOf(s, e), t);
    forall n: Id | UnderWay(Apply(s, e), t, n) ensures UnderWay(s, t, n) {
      NobodyStarts(s, e, t, n);
    }
  }

  lemma NothingNewKeepsSingle(s: State, s': State, t: Tenant)
    requires SingleInv(s, t) && NothingNew(s, s', t)
    requires SwapOf(s', t) <==> SwapOf(s, t)
    requires SwapOf(s, t) ==> s'.worker.job == s.worker.job
    ensures SingleInv(s', t)
  {
    forall n: Id | UnderWay(s', t, n) ensures WillReplace(s', t, n) {
      assert WillReplace(s, t, n);
    }
  }

  lemma OrdinaryKeepsSingle(s: State, e: Event, t: Tenant)
    requires Inv(s) && Enabled(s, e) && SingleInv(s, t) && !e.action.MarkReady?
    requires e.action.Request? ==> e.action.tenant != t
    requires SwapOf(Apply(s, e), t) <==> SwapOf(s, t)
    ensures SingleInv(Apply(s, e), t)
  {
    StepAddsNothing(s, e, t);
    NothingNewKeepsSingle(s, Apply(s, e), t);
  }

  /** Closing a swap leaves only the new job keyed. */
  lemma ClosingKeepsSingle(s: State, e: Event, t: Tenant)
    requires Inv(s) && Enabled(s, e) && SingleInv(s, t) && !e.action.MarkReady? && !e.action.Request?
    requires SwapOf(s, t) && !SwapOf(Apply(s, e), t)
    ensures SingleInv(Apply(s, e), t)
  {
    StepAddsNothing(s, e, t);
    var s', n := Apply(s, e), s.worker.job;
    StepEffect(s, e);
    assert JobOk(s, n);
    forall i: Id | Keyed(s', t, i) ensures i == n {
      assert Keyed(s, t, i);
    }
  }

  /** The request picks the keyed job, if there is one, as the job to replace. */
  lemma RequestReplacesKeyed(s: State, e: Event, t: Tenant, i: Id)
    requires Inv(s) && Enabled(s, e) && SingleInv(s, t) && !SwapOf(s, t)
    requires e.action.Request? && e.action.tenant == t && Keyed(Apply(s, e), t, i)
    ensures Keyed(s, t, i) && e.action.current == Some(i)
  {
    StepEffect(s, e);
    assert i in s.rows && JobOk(s, i);
    assert Keyed(s, t, i) && i in ReadyRows(s.rows, t, e.now);
  }

  lemma RequestKeepsSingle(s: State, e: Event, t: Tenant)
    requires Inv(s) && Enabled(s, e) && SingleInv(s, t)
    requires e.action.Request? && e.action.tenant == t && Quiet(s, t)
    ensures SingleInv(Apply(s, e), t)
  {
    StepEffect(s, e);
    assert !SwapOf(s, t);
    forall i: Id | Keyed(Apply(s, e), t, i) ensures Keyed(s, t, i) && e.action.current == Some(i) {
      RequestReplacesKeyed(s, e, t, i);
    }
    OpenKeepsSingle(s, Apply(s, e), EffectOf(s, e), t);
  }

  lemma OpenFrame(s: State, s': State, f: Effect, j: Id)
    requires RowsOk(s) && s.clock < s'.clock && RowEffect(s.rows, s'.rows, s'.clock, f) && f.Open? && j in s.rows
    ensures j != f.id && j in s'.rows
    ensures s'.rows[j].createdAt == s.rows[j].createdAt < s'.clock == s'.rows[f.id].createdAt
    ensures s'.rows[j].tenant == s.rows[j].tenant && s'.rows[j].status == s.rows[j].status
    ensures s'.rows[j].expiresAt == s.rows[j].expiresAt
  {
    assert JobOk(s, j);
  }

  lemma OpenKeepsSingle(s: State, s': State, f: Effect, t: Tenant)
    requires RowsOk(s) && SingleInv(s, t) && Quiet(s, t) && !SwapOf(s, t) && s'.worker == s.worker && s.clock < s'.clock
    requires WorkerOk(s) && RowEffect(s.rows, s'.rows, s'.clock, f) && f.Open? && f.tenant == t
    requires forall i: Id :: Keyed(s', t, i) ==> Keyed(s, t, i) && f.current == Some(i)
    ensures SingleInv(s', t)
  {
    forall j: Id | j in s'.rows && j != f.id
      ensures j in s.rows && s'.rows[j].createdAt < s'.rows[f.id].createdAt && !UnderWay(s', t, j)
    {
      OpenFrame(s, s', f, j);
    }
    forall j | j in ReadyRows(s'.rows, t, s'.clock)
      ensures j in ReadyRows(s.rows, t, s.clock) && s'.rows[j].createdAt == s.rows[j].createdAt
    {
      OpenFrame(s, s', f, j);
    }
    if !s.worker.Idle? {
      OpenFrame(s, s', f, s.worker.job);
    }
    assert !SwapOf(s', t);
    forall n: Id | UnderWay(s', t, n) ensures WillReplace(s', t, n) {
      assert n == f.id;
    }
  }

  lemma OneUnderWay(s: State, t: Tenant, n: Id, m: Id)
    requires RowsOk(s) && SingleInv(s, t)
    ensures UnderWay(s, t, n) && UnderWay(s, t, m) ==> n == m
  {
    assert UnderWay(s, t, n) ==> WillReplace(s, t, n);
    assert UnderWay(s, t, m) ==> WillReplace(s, t, m);
  }

  lemma MarkReadyKeepsSingle(s: State, e: Event, t: Tenant)
    requires Inv(s) && Enabled(s, e) && SingleInv(s, t) && e.action.MarkReady?
    ensures SingleInv(Apply(s, e), t)
  {
    StepEffect(s, e);
    ConfirmKeepsSingle(s, Apply(s, e), EffectOf(s, e), t);
  }

  lemma ConfirmKeepsSingle(s: State, s': State, f: Effect, t: Tenant)
    requires Inv(s) && SingleInv(s, t) && s.worker.Confirming? && s.clock < s'.clock
    requires f.Confirm? && f.id == s.worker.job && RowEffect(s.rows, s'.rows, s'.clock, f) && s'.worker == Marked(f.id)
    ensures SingleInv(s', t)
  {
    forall m: Id
      ensures UnderWay(s', t, m) ==> m != f.id && UnderWay(s, t, m) && (s.rows[f.id].tenant != t || m == f.id)
    {
      OneUnderWay(s, t, f.id, m);
    }
    forall i: Id | Keyed(s', t, i) ensures i == f.id || Keyed(s, t, i) {
    }
    forall i | i in ReadyRows(s'.rows, t, s'.clock) ensures i == f.id || i in ReadyRows(s.rows, t, s.clock) {
    }
    assert s.rows[f.id].tenant == t ==> UnderWay(s, t, f.id) && WillReplace(s, t, f.id);
    assert SwapOf(s', t) <==> s.rows[f.id].tenant == t;
    assert !SwapOf(s, t);
    forall m: Id | UnderWay(s', t, m) ensures WillReplace(s', t, m) {
      assert WillReplace(s, t, m);
    }
  }

  lemma StepKeepsSingle(s: State, e: Event, t: Tenant)
    requires Inv(s) && Enabled(s, e) && SingleInv(s, t)
    requires e.action.Request? && e.action.tenant == t ==> Quiet(s, t)
    ensures SingleInv(Apply(s, e), t)
  {
    if e.action.MarkReady? {
      MarkReadyKeepsSingle(s, e, t);
    } else if e.action.Request? && e.action.tenant == t {
      RequestKeepsSingle(s, e, t);
    } else {
      SwapOnlyCloses(s, e, t);
      if SwapOf(s, t) && !SwapOf(Apply(s, e), t) {
        ClosingKeepsSingle(s, e, t);
      } else {
        OrdinaryKeepsSingle(s, e, t);
      }
    }
  }

  lemma SwapOnlyCloses(s: State, e: Event, t: Tenant)
    requires Inv(s) && Enabled(s, e) && !e.action.MarkReady?
    ensures SwapOf(Apply(s, e), t) ==> SwapOf(s, t)
    ensures e.action.Request? ==> (SwapOf(Apply(s, e), t) <==> SwapOf(s, t))
  {
    StepEffect(s, e);
  }

  ghost predicate DisciplinedRun(states: seq<State>, events: seq<Event>, t: Tenant) {
    && Run(states, events) && states[0] == Init(states[0].clock)
    && forall n :: 0 <= n < |events| && events[n].action.Request? && events[n].action.tenant == t ==>
         Quiet(states[n], t)
  }

  lemma {:induction false} RunKeepsSingle(states: seq<State>, events: seq<Event>, t: Tenant, n: nat)
    requires DisciplinedRun(states, events, t) && n < |states|
    ensures Inv(states[n]) && SingleInv(states[n], t)
  {
    RunKeepsInv(states, events, n);
    if n > 0 {
      RunKeepsSingle(states, events, t, n - 1);
      assert StepAt(states, events, n - 1);
      StepKeepsSingle(states[n - 1], events[n - 1], t);
    }
  }

  /**
   If the tenant only asks while none of its jobs is under way, then whenever the worker is not in
   the middle of a swap for it, at most one unexpired ready job keeps a key, and the download query
   answers with exactly that job.
   */
  lemma OneArtifact(states: seq<State>, events: seq<Event>, t: Tenant, n: nat, i: Id, j: Id)
    requires DisciplinedRun(states, events, t) && n < |states| && !SwapOf(states[n], t)
    requires Keyed(states[n], t, i)
    ensures Keyed(states[n], t, j) ==> i == j
    ensures Answers(states[n].rows, t, states[n].clock, j) <==> i == j
  {
    var s := states[n];
    RunKeepsSingle(states, events, t, n);
    forall k: Id | Keyed(s, t, k) ensures k == i {
      assert s.rows[k].createdAt == s.rows[i].createdAt;
    }
    assert Downloadable(s.rows, t, s.clock) == {i};
    QueryAnswers(s.rows, t, s.clock);
  }
}
