/**
 The executor's lease table (worker/app/runtime.py) and the handler that launches an execution
 after its acceptance (worker/app/main.py).  The run below interleaves any number of executions;
 accepting and releasing are single steps because both hold the runtime's lock.
 */
module ExecutorRuntime {
  import opened Common

  type Uuid = string

  datatype Command = Command(job: Option<Uuid>, lease: Option<Uuid>, callbackUrl: Option<string>)
  datatype Context = Context(callbackUrl: string, job: Uuid, lease: Uuid)

  datatype Status = Accepted | Duplicate | Conflict | Busy
  datatype Acceptance = Invalid | Acceptance(lease: Uuid, status: Status)

  type Table = map<Uuid, Uuid>

  // ---- The table ----

  function StatusOf(active: Table, capacity: nat, job: Uuid, lease: Uuid): Status {
    if job in active then (if active[job] == lease then Duplicate else Conflict)
    else if |active| >= capacity then Busy
    else Accepted
  }

  function Reserved(active: Table, capacity: nat, job: Uuid, lease: Uuid): Table {
    if StatusOf(active, capacity, job, lease).Accepted? then active[job := lease] else active
  }

  function Released(active: Table, job: Uuid, lease: Uuid): Table {
    if job in active && active[job] == lease then active - {job} else active
  }

  // ---- Executions ----

  datatype Phase = Running | Sending | Releasing | Done

  const INTERNAL_ERROR := "executor_internal_error"

  /** `sent` lists the outcomes of its callback attempts; `cut` says that the task was cancelled in its pipeline. */
  datatype Execution = Execution(job: Uuid, lease: Uuid, phase: Phase, sent: seq<string>, cut: bool)

  datatype State = State(active: Table, runs: seq<Execution>)

  /** A pipeline ends with its outcome, or with none if it raises; a callback that raises ends like one that returns. */
  datatype Event =
    | Accept(job: Uuid, lease: Uuid)
    | PipelineEnd(i: nat, outcome: Option<string>)
    | CallbackEnd(i: nat)
    | Cancel(i: nat)
    | Release(i: nat)

  predicate Enabled(s: State, e: Event) {
    match e
    case Accept(_, _) => true
    case PipelineEnd(i, _) => i < |s.runs| && s.runs[i].phase.Running?
    case CallbackEnd(i) => i < |s.runs| && s.runs[i].phase.Sending?
    case Cancel(i) => i < |s.runs| && (s.runs[i].phase.Running? || s.runs[i].phase.Sending?)
    case Release(i) => i < |s.runs| && s.runs[i].phase.Releasing?
  }

  function Apply(capacity: nat, s: State, e: Event): State
    requires Enabled(s, e)
  {
    match e
    case Accept(job, lease) =>
      State(Reserved(s.active, capacity, job, lease),
            if StatusOf(s.active, capacity, job, lease).Accepted?
            then s.runs + [Execution(job, lease, Running, [], false)] else s.runs)
    case PipelineEnd(i, outcome) =>
      var report := if outcome.Some? then outcome.value else INTERNAL_ERROR;
      s.(runs := s.runs[i := s.runs[i].(phase := Sending, sent := s.runs[i].sent + [report])])
    case CallbackEnd(i) =>
      s.(runs := s.runs[i := s.runs[i].(phase := Releasing)])
    case Cancel(i) =>
      s.(runs := s.runs[i := s.runs[i].(phase := Releasing, cut := s.runs[i].phase.Running?)])
    case Release(i) =>
      State(Released(s.active, s.runs[i].job, s.runs[i].lease), s.runs[i := s.runs[i].(phase := Done)])
  }

  ghost predicate StepAt(capacity: nat, states: seq<State>, events: seq<Event>, n: nat)
    requires |states| == |events| + 1 && n < |events|
  {
    Enabled(states[n], events[n]) && states[n + 1] == Apply(capacity, states[n], events[n])
  }

  ghost predicate Run(capacity: nat, states: seq<State>, events: seq<Event>) {
    && |states| == |events| + 1
    && states[0] == State(map[], [])
    && forall n :: 0 <= n < |events| ==> StepAt(capacity, states, events, n)
  }

  // ---- What every interleaving keeps ----

  predicate Open(s: State, i: int) {
    0 <= i < |s.runs| && !s.runs[i].phase.Done?
  }

  ghost function OpenRuns(s: State): set<int> {
    set i | 0 <= i < |s.runs| && Open(s, i)
  }

  /** Every unfinished execution holds the slot of its job under its lease. */
  ghost predicate Backed(s: State) {
    forall i: int :: Open(s, i) ==> s.runs[i].job in s.active && s.active[s.runs[i].job] == s.runs[i].lease
  }

  /** No job has two unfinished executions. */
  ghost predicate Exclusive(s: State) {
    forall i: int, j: int :: Open(s, i) && Open(s, j) && s.runs[i].job == s.runs[j].job ==> i == j
  }

  ghost predicate HasRun(s: State, job: Uuid) {
    exists i: int :: Open(s, i) && s.runs[i].job == job
  }

  /** No slot is held by nobody. */
  ghost predicate NoLeak(s: State) {
    forall job :: job in s.active ==> HasRun(s, job)
  }

  /** The table against the unfinished executions: a bijection from jobs to executions that agrees on leases. */
  ghost predicate Corresponds(s: State) {
    Backed(s) && Exclusive(s) && NoLeak(s) && |OpenRuns(s)| == |s.active|
  }

  /** One callback attempt by the time the slot is given back, unless the task was cancelled first. */
  ghost predicate Sends(x: Execution) {
    match x.phase
    case Running => |x.sent| == 0 && !x.cut
    case Sending => |x.sent| == 1 && !x.cut
    case _ => |x.sent| == if x.cut then 0 else 1
  }

  ghost predicate Inv(capacity: nat, s: State) {
    && Corresponds(s)
    && |s.active| <= capacity
    && AllSend(s)
  }

  ghost predicate AllSend(s: State) {
    forall i :: 0 <= i < |s.runs| ==> Sends(s.runs[i])
  }

  lemma StepKeepsSends(capacity: nat, s: State, e: Event)
    requires AllSend(s) && Enabled(s, e)
    ensures AllSend(Apply(capacity, s, e))
  {
  }

  lemma AcceptKeepsBacked(s: State, next: State, x: Execution)
    requires Backed(s) && Exclusive(s) && x.phase.Running? && x.job !in s.active
    requires next == State(s.active[x.job := x.lease], s.runs + [x])
    ensures Backed(next) && Exclusive(next)
  {
    assert forall i: int :: Open(next, i) <==> Open(s, i) || i == |s.runs|;
  }

  lemma AcceptKeepsNoLeak(s: State, next: State, x: Execution)
    requires NoLeak(s) && x.phase.Running? && x.job !in s.active
    requires next == State(s.active[x.job := x.lease], s.runs + [x])
    ensures NoLeak(next) && OpenRuns(next) == OpenRuns(s) + {|s.runs|}
  {
    assert Open(next, |s.runs|);
    forall k | k in s.active ensures HasRun(next, k) {
      assert HasRun(s, k);
      var i: int :| Open(s, i) && s.runs[i].job == k;
      assert Open(next, i) && next.runs[i].job == k;
    }
    assert forall i: int :: Open(next, i) <==> Open(s, i) || i == |s.runs|;
  }

  lemma AcceptKeeps(capacity: nat, s: State, job: Uuid, lease: Uuid)
    requires Inv(capacity, s)
    ensures Inv(capacity, Apply(capacity, s, Accept(job, lease)))
  {
    if StatusOf(s.active, capacity, job, lease).Accepted? {
      var x := Execution(job, lease, Running, [], false);
      var next := State(s.active[job := lease], s.runs + [x]);
      AcceptKeepsBacked(s, next, x);
      AcceptKeepsNoLeak(s, next, x);
      StepKeepsSends(capacity, s, Accept(job, lease));
    }
  }

  /** A step inside one execution changes neither its identity nor whether it is open. */
  ghost predicate SameShape(s: State, next: State) {
    && next.active == s.active && |next.runs| == |s.runs|
    && forall i :: 0 <= i < |s.runs| ==>
      && next.runs[i].job == s.runs[i].job && next.runs[i].lease == s.runs[i].lease
      && (next.runs[i].phase.Done? <==> s.runs[i].phase.Done?)
  }

  lemma SameShapeKeeps(s: State, next: State)
    requires SameShape(s, next) && Corresponds(s)
    ensures Corresponds(next)
  {
    forall i: int ensures Open(next, i) <==> Open(s, i) {
    }
    assert OpenRuns(next) == OpenRuns(s);
    forall i: int | Open(next, i)
      ensures next.runs[i].job in next.active && next.active[next.runs[i].job] == next.runs[i].lease
    {
      assert Open(s, i);
    }
    forall i: int, j: int | Open(next, i) && Open(next, j) && next.runs[i].job == next.runs[j].job ensures i == j {
      assert Open(s, i) && Open(s, j);
    }
    forall k | k in next.active ensures HasRun(next, k) {
      assert HasRun(s, k);
      var i: int :| Open(s, i) && s.runs[i].job == k;
      assert Open(next, i) && next.runs[i].job == k;
    }
  }

  lemma InnerKeeps(capacity: nat, s: State, e: Event)
    requires Inv(capacity, s) && Enabled(s, e) && (e.PipelineEnd? || e.CallbackEnd? || e.Cancel?)
    ensures Inv(capacity, Apply(capacity, s, e))
  {
    InnerShape(capacity, s, e);
    SameShapeKeeps(s, Apply(capacity, s, e));
    StepKeepsSends(capacity, s, e);
  }

  lemma InnerShape(capacity: nat, s: State, e: Event)
    requires Enabled(s, e) && (e.PipelineEnd? || e.CallbackEnd? || e.Cancel?)
    ensures SameShape(s, Apply(capacity, s, e))
  {
  }

  lemma ReleaseKeepsBacked(s: State, next: State, r: nat)
    requires Backed(s) && Exclusive(s) && Open(s, r)
    requires next == State(s.active - {s.runs[r].job}, s.runs[r := s.runs[r].(phase := Done)])
    ensures Backed(next) && Exclusive(next)
  {
    assert forall i: int :: Open(next, i) <==> Open(s, i) && i != r;
  }

  lemma ReleaseKeepsNoLeak(s: State, next: State, r: nat)
    requires NoLeak(s) && Open(s, r)
    requires next == State(s.active - {s.runs[r].job}, s.runs[r := s.runs[r].(phase := Done)])
    ensures NoLeak(next) && OpenRuns(next) == OpenRuns(s) - {r}
  {
    forall k | k in next.active ensures HasRun(next, k) {
      assert HasRun(s, k);
      var i: int :| Open(s, i) && s.runs[i].job == k;
      assert Open(next, i) && next.runs[i].job == k;
    }
    assert forall i: int :: Open(next, i) <==> Open(s, i) && i != r;
  }

  lemma ReleaseKeeps(capacity: nat, s: State, r: nat)
    requires Inv(capacity, s) && Enabled(s, Release(r))
    ensures Inv(capacity, Apply(capacity, s, Release(r)))
  {
    assert Open(s, r);
    var next := State(s.active - {s.runs[r].job}, s.runs[r := s.runs[r].(phase := Done)]);
    assert next == Apply(capacity, s, Release(r));
    ReleaseKeepsBacked(s, next, r);
    ReleaseKeepsNoLeak(s, next, r);
    assert next.active.Keys == s.active.Keys - {s.runs[r].job};
    StepKeepsSends(capacity, s, Release(r));
  }

  lemma StepKeeps(capacity: nat, s: State, e: Event)
    requires Inv(capacity, s) && Enabled(s, e)
    ensures Inv(capacity, Apply(capacity, s, e))
  {
    match e
    case Accept(job, lease) => AcceptKeeps(capacity, s, job, lease);
    case Release(i) => ReleaseKeeps(capacity, s, i);
    case _ => InnerKeeps(capacity, s, e);
  }

  lemma {:induction false} RunKeepsInv(capacity: nat, states: seq<State>, events: seq<Event>, n: nat)
    requires Run(capacity, states, events) && n < |states|
    ensures Inv(capacity, states[n])
  {
    if n == 0 {
      assert OpenRuns(states[0]) == {};
    } else {
      RunKeepsInv(capacity, states, events, n - 1);
      assert StepAt(capacity, states, events, n - 1);
      StepKeeps(capacity, states[n - 1], events[n - 1]);
    }
  }

  /** Executions are never dropped, keep their identity, and a finished one stays finished. */
  lemma {:induction false} RunsPersist(capacity: nat, states: seq<State>, events: seq<Event>, m: nat, n: nat, i: nat)
    requires Run(capacity, states, events) && m <= n < |states| && i < |states[m].runs|
    ensures i < |states[n].runs|
    ensures states[n].runs[i].job == states[m].runs[i].job && states[n].runs[i].lease == states[m].runs[i].lease
    ensures states[m].runs[i].phase.Done? ==> states[n].runs[i].phase.Done?
  {
    if m < n {
      RunsPersist(capacity, states, events, m, n - 1, i);
      assert StepAt(capacity, states, events, n - 1);
    }
  }

  /**
   From its acceptance until it is finished an execution holds the slot of its job under its own
   lease, at every moment in between: nobody takes the slot over or frees it.
   */
  lemma LeaseHeldThroughout(capacity: nat, states: seq<State>, events: seq<Event>, m: nat, k: nat, n: nat, i: nat)
    requires Run(capacity, states, events) && m <= k <= n < |states|
    requires i < |states[m].runs|
    requires i < |states[n].runs| && !states[n].runs[i].phase.Done?
    ensures states[m].runs[i].job in states[k].active
    ensures states[k].active[states[m].runs[i].job] == states[m].runs[i].lease
  {
    RunsPersist(capacity, states, events, m, k, i);
    RunsPersist(capacity, states, events, k, n, i);
    RunKeepsInv(capacity, states, events, k);
    assert Open(states[k], i);
  }

  /** The number of unfinished executions is the size of the table, so it never exceeds the capacity. */
  lemma NeverOverCapacity(capacity: nat, states: seq<State>, events: seq<Event>, n: nat)
    requires Run(capacity, states, events) && n < |states|
    ensures |OpenRuns(states[n])| == |states[n].active| <= capacity
  {
    RunKeepsInv(capacity, states, events, n);
  }

  ghost predicate Cancelled(events: seq<Event>, i: nat) {
    exists k :: 0 <= k < |events| && events[k] == Cancel(i)
  }

  lemma {:induction false} CutOnlyByCancel(capacity: nat, states: seq<State>, events: seq<Event>, n: nat, i: nat)
    requires Run(capacity, states, events) && n < |states| && i < |states[n].runs| && states[n].runs[i].cut
    ensures Cancelled(events, i)
  {
    if n > 0 {
      assert StepAt(capacity, states, events, n - 1);
      if events[n - 1] == Cancel(i) {
        assert Cancelled(events, i);
      } else {
        CutOnlyByCancel(capacity, states, events, n - 1, i);
      }
    }
  }

  /** The pipeline of execution `i` ended with `report`, or raised and `report` is the internal error. */
  predicate EndedWith(e: Event, i: nat, report: string) {
    e == PipelineEnd(i, Some(report)) || (e == PipelineEnd(i, None) && report == INTERNAL_ERROR)
  }

  ghost predicate PipelineEnded(events: seq<Event>, n: nat, i: nat, report: string) {
    exists k :: 0 <= k < n && k < |events| && EndedWith(events[k], i, report)
  }

  /** What an execution has sent is how its pipeline ended. */
  lemma {:induction false} SentAsEnded(capacity: nat, states: seq<State>, events: seq<Event>, n: nat, i: nat)
    requires Run(capacity, states, events) && n < |states| && i < |states[n].runs| && |states[n].runs[i].sent| == 1
    ensures PipelineEnded(events, n, i, states[n].runs[i].sent[0])
  {
    if n > 0 {
      assert StepAt(capacity, states, events, n - 1);
      RunKeepsInv(capacity, states, events, n - 1);
      var e := events[n - 1];
      if e.PipelineEnd? && e.i == i {
        assert Sends(states[n - 1].runs[i]);
        assert EndedWith(events[n - 1], i, states[n].runs[i].sent[0]);
      } else {
        SentAsEnded(capacity, states, events, n - 1, i);
        var k :| 0 <= k < n - 1 && k < |events| && EndedWith(events[k], i, states[n - 1].runs[i].sent[0]);
      }
    }
  }

  /**
   A finished execution attempted exactly one callback, with the outcome its pipeline ended with or
   the internal error if it raised; or none, when it was cancelled before its pipeline ended.
   */
  lemma FinishedSentOnce(capacity: nat, states: seq<State>, events: seq<Event>, n: nat, i: nat)
    requires Run(capacity, states, events) && n < |states| && i < |states[n].runs| && states[n].runs[i].phase.Done?
    ensures |states[n].runs[i].sent| == if states[n].runs[i].cut then 0 else 1
    ensures !states[n].runs[i].cut ==> PipelineEnded(events, n, i, states[n].runs[i].sent[0])
    ensures !Cancelled(events, i) ==> !states[n].runs[i].cut
  {
    RunKeepsInv(capacity, states, events, n);
    assert Sends(states[n].runs[i]);
    if !states[n].runs[i].cut {
      SentAsEnded(capacity, states, events, n, i);
    }
    if states[n].runs[i].cut {
      CutOnlyByCancel(capacity, states, events, n, i);
    }
  }

  /** What a request is told, in terms of the executions in progress. */
  lemma AcceptanceMeaning(capacity: nat, states: seq<State>, events: seq<Event>, n: nat, job: Uuid, lease: Uuid)
    requires Run(capacity, states, events) && n < |states|
    ensures var s, r := states[n], StatusOf(states[n].active, capacity, job, lease);
            && (r.Duplicate? <==> exists i: int :: Open(s, i) && s.runs[i].job == job && s.runs[i].lease == lease)
            && (r.Conflict? <==> exists i: int :: Open(s, i) && s.runs[i].job == job && s.runs[i].lease != lease)
            && (r.Busy? <==> (forall i: int :: Open(s, i) ==> s.runs[i].job != job) && |OpenRuns(s)| >= capacity)
  {
    RunKeepsInv(capacity, states, events, n);
    var s := states[n];
    if job in s.active {
      assert HasRun(s, job);
      var i: int :| Open(s, i) && s.runs[i].job == job;
      assert s.active[job] == s.runs[i].lease;
    }
  }

  // ---- The object ----

  datatype Reply<T> = Returned(value: T) | Raised | CancelledError

  datatype Callback = Callback(url: string, job: Uuid, lease: Uuid, outcome: string)

  /** How an execution ends for its caller; a failed callback is only logged. */
  datatype Ending = Ended | CallbackFailed | TaskCancelled

  class Runtime {
    const capacity: nat
    var active: Table
    var sent: seq<Callback>

    constructor (capacity: nat)
      ensures active == map[] && sent == [] && this.capacity == capacity
    {
      this.capacity := capacity;
      active := map[];
      sent := [];
    }

    method Accept(command: Command, context: Context) returns (r: Acceptance)
      modifies this
      ensures sent == old(sent)
      ensures r.Invalid? <==>
        !(command.job == Some(context.job) && command.lease == Some(context.lease) &&
          command.callbackUrl == Some(context.callbackUrl))
      ensures r.Invalid? ==> active == old(active)
      ensures !r.Invalid? ==>
        && active == Reserved(old(active), capacity, context.job, context.lease)
        && r.status == StatusOf(old(active), capacity, context.job, context.lease)
        && r.lease == if context.job in old(active) then old(active)[context.job] else context.lease
    {
      if command.job.None? || command.lease.None? || command.callbackUrl.None?
         || context.job != command.job.value || context.lease != command.lease.value
         || context.callbackUrl != command.callbackUrl.value
      {
        return Invalid;
      }
      var job, lease := command.job.value, command.lease.value;
      if job in active {
        return Acceptance(active[job], if active[job] == lease then Duplicate else Conflict);
      }
      if |active| >= capacity {
        return Acceptance(lease, Busy);
      }
      active := active[job := lease];
      return Acceptance(lease, Accepted);
    }

    method Free(job: Uuid, lease: Uuid)
      modifies this
      ensures active == Released(old(active), job, lease) && sent == old(sent)
    {
      if job in active && active[job] == lease {
        active := active - {job};
      }
    }

    /**
     One callback with the pipeline's outcome or the internal error; then the slot is given back,
     unless another lease holds it by now, however pipeline and callback ended.  A callback that raises is
     reported and forgotten; a cancelled task gives its slot back and stays cancelled.
     */
    method Execute(command: Command, context: Context, pipeline: Reply<string>, callback: Reply<bool>)
      returns (r: Ending)
      modifies this
      ensures command.job.None? || command.lease.None? ==> active == old(active) && sent == old(sent) && r.Ended?
      ensures command.job.Some? && command.lease.Some? ==>
        && (forall j :: j in active <==>
              j in old(active) && !(j == command.job.value && old(active)[j] == command.lease.value))
        && (forall j :: j in active ==> active[j] == old(active)[j])
        && (r.TaskCancelled? <==> pipeline.CancelledError? || callback.CancelledError?)
        && (r.CallbackFailed? <==> !pipeline.CancelledError? && callback.Raised?)
        && (pipeline.CancelledError? ==> sent == old(sent))
        && (pipeline.Returned? ==>
              sent == old(sent)
                      + [Callback(context.callbackUrl, command.job.value, command.lease.value, pipeline.value)])
        && (pipeline.Raised? ==>
              sent == old(sent)
                      + [Callback(context.callbackUrl, command.job.value, command.lease.value, INTERNAL_ERROR)])
    {
      if command.job.None? || command.lease.None? {
        return Ended;
      }
      if pipeline.CancelledError? {
        Free(command.job.value, command.lease.value);
        return TaskCancelled;
      }
      var outcome := if pipeline.Returned? then pipeline.value else INTERNAL_ERROR;
      sent := sent + [Callback(context.callbackUrl, command.job.value, command.lease.value, outcome)];
      match callback {
        case Returned(_) => r := Ended;
        case Raised => r := CallbackFailed;
        case CancelledError => r := TaskCancelled;
      }
      Free(command.job.value, command.lease.value);
    }
  }

  /** The HTTP handler: an execution is scheduled exactly when the table reserved a slot for it. */
  method Handle(runtime: Runtime, command: Command) returns (status: int, scheduled: bool)
    modifies runtime
    ensures scheduled <==> status == 202
    ensures status == 422 <==> command.job.None? || command.lease.None? || command.callbackUrl.None?
    ensures status == 422 ==> runtime.active == old(runtime.active)
    ensures status != 422 ==>
      var answer := StatusOf(old(runtime.active), runtime.capacity, command.job.value, command.lease.value);
      && status == (if answer.Accepted? then 202 else if answer.Busy? then 429 else 409)
      && runtime.active == Reserved(old(runtime.active), runtime.capacity, command.job.value, command.lease.value)
  {
    if command.job.None? || command.lease.None? || command.callbackUrl.None? {
      return 422, false;
    }
    var context := Context(command.callbackUrl.value, command.job.value, command.lease.value);
    var acceptance := runtime.Accept(command, context);
    match acceptance.status {
      case Busy => return 429, false;
      case Duplicate => return 409, false;
      case Conflict => return 409, false;
      case Accepted => return 202, true;
    }
  }
}
