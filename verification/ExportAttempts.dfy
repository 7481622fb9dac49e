/**
 The retries of one claimed job over the runs of the export protocol, whatever else interleaves:
 how it ends, how many attempts it counts and how long it backs off.
 */
module ExportAttempts {
  import opened ExportJobs
  import opened ExportProtocol

  /** Seconds slept after `k` failed attempts that were each followed by a retry. */
  function BackoffTotal(k: nat): nat { if k == 0 then 0 else BackoffTotal(k - 1) + BackoffSeconds(k - 1) }

  lemma {:induction false} BackoffTotalClosedForm(k: nat)
    ensures 4 * BackoffTotal(k) == Power5(k + 1) - 5
  {
    if k > 0 {
      BackoffTotalClosedForm(k - 1);
      assert Power5(k + 1) == 5 * Power5(k);
      assert Power5(k) == 5 * Power5(k - 1);
    }
  }

  lemma BackoffBound(k: nat, n: nat)
    requires k < n
    ensures 4 * BackoffTotal(k) <= Power5(n) - 5
  {
    BackoffTotalClosedForm(k);
    PowerMonotone(k + 1, n);
  }

  lemma {:induction false} PowerMonotone(a: nat, b: nat)
    requires a <= b
    ensures Power5(a) <= Power5(b)
  {
    if a < b {
      PowerMonotone(a, b - 1);
    }
  }

  // ---- One claim, from the claim to the idle worker ----

  /** The worker is in an attempt before its ready commit, after `fails` failures and `naps` backoff seconds. */
  predicate Trying(w: Worker, max: nat, fails: nat, naps: nat) {
    match w
    case Starting(_, a) => a == fails < max && naps == BackoffTotal(fails)
    case Building(_, a) => a == fails < max && naps == BackoffTotal(fails)
    case Uploaded(_, a, _) => a == fails < max && naps == BackoffTotal(fails)
    case Confirming(_, _) => fails < max && naps == BackoffTotal(fails)
    case Raised(_, a) => a == fails < max && naps == BackoffTotal(fails)
    case GivingUp(_) => 0 < fails == max && naps == BackoffTotal(fails - 1)
    case Backoff(_, a, left) => a + 1 == fails < max && naps + left == BackoffTotal(fails)
    case _ => false
  }

  /** The job is still in the worker's hands; its counter shows the failures of this claim on top of `base`. */
  ghost predicate OnTrack(s: State, id: Id, base: nat, max: nat, fails: nat, naps: nat) {
    && id in s.rows && s.worker.Holds(id)
    && s.rows[id].attempts == base + fails && s.rows[id].maxAttempts == max && s.rows[id].status != Cancelled
    && if s.worker.InSwap() then s.rows[id].status == Ready && fails < max && naps == BackoffTotal(fails)
       else Trying(s.worker, max, fails, naps)
  }

  /** The worker has let go of the job: ready after a success, or failed after all attempts. */
  ghost predicate Settled(s: State, id: Id, base: nat, max: nat, fails: nat, naps: nat) {
    && s.worker.Idle? && id in s.rows && s.rows[id].attempts == base + fails
    && match s.rows[id].status
       case Ready => fails < max && naps == BackoffTotal(fails)
       case Failed => 0 < fails == max && naps == BackoffTotal(fails - 1)
       case _ => false
  }

  function Failures(a: Action): nat { if a.CountFailure? then 1 else 0 }

  function Seconds(a: Action): nat { if a.BackoffSecond? then 1 else 0 }

  lemma ClaimStarts(s: State, e: Event, id: Id)
    requires Inv(s) && Enabled(s, e) && e.action == Claim(id)
    ensures OnTrack(Apply(s, e), id, s.rows[id].attempts, s.rows[id].maxAttempts, 0, 0)
  {
    assert JobOk(s, id);
  }

  /** Nobody else touches the job's counter, and only a cancel of this very job its status. */
  lemma OthersKeepTrack(s: State, e: Event, id: Id, base: nat, max: nat, fails: nat, naps: nat)
    requires Inv(s) && Enabled(s, e) && OnTrack(s, id, base, max, fails, naps)
    requires ByOthers(e.action) && e.action != Cancel(id)
    ensures OnTrack(Apply(s, e), id, base, max, fails, naps)
  {
    StepEffect(s, e);
  }

  lemma AttemptKeepsTrack(s: State, e: Event, id: Id, base: nat, max: nat, fails: nat, naps: nat)
    requires Inv(s) && Enabled(s, e) && OnTrack(s, id, base, max, fails, naps)
    requires !ByOthers(e.action) && !e.action.TenantMissing? && !s.worker.InSwap()
    ensures var s', f, n := Apply(s, e), fails + Failures(e.action), naps + Seconds(e.action);
            OnTrack(s', id, base, max, f, n) || Settled(s', id, base, max, f, n)
  {
  }

  lemma SwapKeepsTrack(s: State, e: Event, id: Id, base: nat, max: nat, fails: nat, naps: nat)
    requires Inv(s) && Enabled(s, e) && OnTrack(s, id, base, max, fails, naps)
    requires !ByOthers(e.action) && s.worker.InSwap()
    ensures OnTrack(Apply(s, e), id, base, max, fails, naps) || Settled(Apply(s, e), id, base, max, fails, naps)
    ensures Failures(e.action) == 0 == Seconds(e.action)
  {
    StepEffect(s, e);
  }

  lemma StepKeepsTrack(s: State, e: Event, id: Id, base: nat, max: nat, fails: nat, naps: nat)
    requires Inv(s) && Enabled(s, e) && OnTrack(s, id, base, max, fails, naps)
    requires e.action != Cancel(id) && !e.action.TenantMissing?
    ensures var s', f, n := Apply(s, e), fails + Failures(e.action), naps + Seconds(e.action);
            OnTrack(s', id, base, max, f, n) || Settled(s', id, base, max, f, n)
  {
    if ByOthers(e.action) {
      OthersKeepTrack(s, e, id, base, max, fails, naps);
    } else if s.worker.InSwap() {
      SwapKeepsTrack(s, e, id, base, max, fails, naps);
    } else {
      AttemptKeepsTrack(s, e, id, base, max, fails, naps);
    }
  }

  /** How many of the events from `m` up to `n` count under `weight`. */
  function Tally(weight: Action -> nat, events: seq<Event>, m: nat, n: nat): nat
    requires m <= n <= |events|
  {
    if m == n then 0 else Tally(weight, events, m, n - 1) + weight(events[n - 1].action)
  }

  /**
   From the claim of event `m` up to state `n` the worker was never idle, nobody cancelled the job,
   and its tenant existed.
   */
  ghost predicate OneClaim(states: seq<State>, events: seq<Event>, m: nat, n: nat, id: Id) {
    && Run(states, events) && states[0] == Init(states[0].clock) && m < n < |states|
    && events[m].action == Claim(id)
    && (forall k :: m < k < n ==> !states[k].worker.Idle?)
    && (forall k :: m < k < n ==> events[k].action != Cancel(id) && !events[k].action.TenantMissing?)
  }

  ghost predicate Underway(s: State, id: Id, base: nat, max: nat, fails: nat, naps: nat) {
    OnTrack(s, id, base, max, fails, naps) || Settled(s, id, base, max, fails, naps)
  }

  lemma FirstState(states: seq<State>, events: seq<Event>, m: nat, n: nat, id: Id)
    requires OneClaim(states, events, m, n, id)
    ensures id in states[m].rows
    ensures Underway(states[m + 1], id, states[m].rows[id].attempts, states[m].rows[id].maxAttempts, 0, 0)
  {
    RunKeepsInv(states, events, m);
    assert StepAt(states, events, m);
    ClaimStarts(states[m], events[m], id);
  }

  lemma LastStep(states: seq<State>, events: seq<Event>, m: nat, n: nat, id: Id) returns (s: State, e: Event)
    requires OneClaim(states, events, m, n, id) && m + 1 < n
    ensures s == states[n - 1] && e == events[n - 1] && Enabled(s, e) && states[n] == Apply(s, e)
    ensures Inv(s) && !s.worker.Idle? && e.action != Cancel(id) && !e.action.TenantMissing?
  {
    s, e := states[n - 1], events[n - 1];
    RunKeepsInv(states, events, n - 1);
    assert StepAt(states, events, n - 1);
  }

  lemma NextState(states: seq<State>, events: seq<Event>, m: nat, n: nat, id: Id, base: nat, max: nat,
        fails: nat, naps: nat)
    requires OneClaim(states, events, m, n, id) && m + 1 < n
    requires Underway(states[n - 1], id, base, max, fails, naps)
    ensures Underway(states[n], id, base, max,
                     fails + Failures(events[n - 1].action), naps + Seconds(events[n - 1].action))
  {
    var s, e := LastStep(states, events, m, n, id);
    UnderwayStep(s, e, id, base, max, fails, naps);
  }

  lemma UnderwayStep(s: State, e: Event, id: Id, base: nat, max: nat, fails: nat, naps: nat)
    requires Inv(s) && Enabled(s, e) && Underway(s, id, base, max, fails, naps) && !s.worker.Idle?
    requires e.action != Cancel(id) && !e.action.TenantMissing?
    ensures Underway(Apply(s, e), id, base, max, fails + Failures(e.action), naps + Seconds(e.action))
  {
    assert !Settled(s, id, base, max, fails, naps);
    StepKeepsTrack(s, e, id, base, max, fails, naps);
  }

  lemma {:induction false} ClaimProgress(states: seq<State>, events: seq<Event>, m: nat, n: nat, id: Id)
    requires OneClaim(states, events, m, n, id)
    ensures id in states[m].rows
    ensures Underway(states[n], id, states[m].rows[id].attempts, states[m].rows[id].maxAttempts,
                     Tally(Failures, events, m + 1, n), Tally(Seconds, events, m + 1, n))
  {
    FirstState(states, events, m, n, id);
    if m + 1 < n {
      ClaimProgress(states, events, m, n - 1, id);
      NextState(states, events, m, n, id, states[m].rows[id].attempts, states[m].rows[id].maxAttempts,
                Tally(Failures, events, m + 1, n - 1), Tally(Seconds, events, m + 1, n - 1));
    }
  }

  /**
   When the worker is idle again the claimed job is ready or failed, whatever requests, cleanups and
   other tenants' cancels interleaved.  Its counter has grown by exactly the failures counted, fewer
   than the maximum if it is ready and all of them if it failed; and the one-second backoff steps
   taken are exactly those between these attempts, at most (5^n - 5) / 4.
   */
  lemma ClaimSettles(states: seq<State>, events: seq<Event>, m: nat, n: nat, id: Id)
    requires OneClaim(states, events, m, n, id) && states[n].worker.Idle?
    ensures id in states[m].rows && id in states[n].rows
    ensures var max := states[m].rows[id].maxAttempts;
            var f, k := Tally(Failures, events, m + 1, n), Tally(Seconds, events, m + 1, n);
            && states[n].rows[id].attempts == states[m].rows[id].attempts + f
            && (states[n].rows[id].status == Ready || states[n].rows[id].status == Failed)
            && (states[n].rows[id].status == Ready ==> f < max && k == BackoffTotal(f))
            && (states[n].rows[id].status == Failed ==> f == max && f > 0 && k == BackoffTotal(f - 1))
            && 4 * k <= Power5(max) - 5
  {
    ClaimProgress(states, events, m, n, id);
    var max, f := states[m].rows[id].maxAttempts, Tally(Failures, events, m + 1, n);
    BackoffBound(if f < max then f else f - 1, max);
  }
}
