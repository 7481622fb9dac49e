/**
 The step-up limiter: a pruned, self-expiring sorted set of failures per actor
 (backend/app/services/step_up_limiter.py) and its client (backend/app/services/master_step_up.py).
 Clocks count microseconds; scores are whole seconds.  Each operation reads the clock once and
 its pipeline runs as one step; members of the sorted set never collide.
 */
module StepUpLimiter {
  import opened Common

  const WINDOW := 900
  const MAX_ATTEMPTS := 3

  /** `int(time.time())`. */
  function Seconds(clock: nat): nat { clock / 1_000_000 }

  function Micros(seconds: nat): nat { seconds * 1_000_000 }

  // ---- The stored set ----

  /** The scores under one key and the moment the key expires; Redis keeps no empty set. */
  datatype Bucket = Absent | Bucket(scores: seq<nat>, expiresAt: nat)

  function Scores(b: Bucket): seq<nat> {
    if b.Absent? then [] else b.scores
  }

  /** The key as Redis sees it at `clock`: gone once expired. */
  function Fetch(b: Bucket, clock: nat): Bucket {
    if b.Bucket? && clock < b.expiresAt then b else Absent
  }

  /** The scores above `low`. */
  function Above(low: int, scores: seq<nat>): (r: seq<nat>)
    ensures |r| <= |scores|
    ensures forall s :: s in r <==> s in scores && s > low
  {
    if scores == [] then []
    else
      var n := |scores| - 1;
      Above(low, scores[..n]) + if scores[n] > low then [scores[n]] else []
  }

  function Prune(b: Bucket, low: int): Bucket {
    var kept := Above(low, Scores(b));
    if kept == [] then Absent else b.(scores := kept)
  }

  function Expire(b: Bucket, at: nat): Bucket {
    if b.Absent? then Absent else b.(expiresAt := at)
  }

  /** `_do_get_count`. */
  function Checked(b: Bucket, clock: nat): Bucket {
    Expire(Prune(Fetch(b, clock), Seconds(clock) - WINDOW), clock + Micros(WINDOW))
  }

  function CountAt(b: Bucket, clock: nat): nat {
    |Scores(Prune(Fetch(b, clock), Seconds(clock) - WINDOW))|
  }

  /** `_do_record_failure`. */
  function Recorded(b: Bucket, clock: nat): Bucket {
    var added := Bucket(Scores(Fetch(b, clock)) + [Seconds(clock)], 0);
    Expire(Prune(added, Seconds(clock) - WINDOW), clock + Micros(WINDOW))
  }

  // ---- Agreement with an unpruned log ----

  lemma {:induction false} AboveTwice(low: int, high: int, scores: seq<nat>)
    requires low <= high
    ensures Above(high, Above(low, scores)) == Above(high, scores)
  {
    if scores != [] {
      var n := |scores| - 1;
      AboveTwice(low, high, scores[..n]);
      if scores[n] > low {
        AboveAppend(high, Above(low, scores[..n]), scores[n]);
      } else {
        assert Above(low, scores) == Above(low, scores[..n]);
        assert Above(high, scores) == Above(high, scores[..n]);
      }
    }
  }

  lemma AboveAppend(low: int, scores: seq<nat>, s: nat)
    ensures Above(low, scores + [s]) == Above(low, scores) + if s > low then [s] else []
  {
    assert (scores + [s])[..|scores|] == scores;
  }

  /** Nothing is left above a bound that exceeds every score. */
  lemma AboveNone(low: int, scores: seq<nat>)
    requires forall s :: s in scores ==> s <= low
    ensures Above(low, scores) == []
  {
    if r :| r in Above(low, scores) {
      assert r in scores && r > low;
    }
    assert Above(low, scores) != [] ==> Above(low, scores)[0] in Above(low, scores);
  }

  /**
   The stored set against the log of failures since the last reset: it holds exactly the log
   above some bound that has already left the window, and expires after all of them have.
   */
  ghost predicate Agrees(b: Bucket, log: seq<nat>, clock: nat, low: int) {
    && low <= Seconds(clock) - WINDOW
    && Scores(b) == Above(low, log)
    && (b.Bucket? ==> forall s :: s in b.scores ==> Micros(s + WINDOW) <= b.expiresAt)
  }

  /** Key expiry drops no failure that is still inside the window. */
  lemma ExpiryDropsNothingLive(b: Bucket, log: seq<nat>, clock: nat, low: int, later: nat)
    requires Agrees(b, log, clock, low) && clock <= later
    ensures Above(Seconds(later) - WINDOW, Scores(Fetch(b, later))) == Above(Seconds(later) - WINDOW, log)
  {
    var now := Seconds(later) - WINDOW;
    assert low <= now;
    AboveTwice(low, now, log);
    if b.Bucket? && b.expiresAt <= later {
      forall s | s in b.scores ensures s <= now {
        assert Micros(s + WINDOW) <= later;
      }
      AboveNone(now, b.scores);
    }
  }

  lemma LivesLongEnough(s: nat, clock: nat)
    requires s <= Seconds(clock)
    ensures Micros(s + WINDOW) <= clock + Micros(WINDOW)
  {
  }

  lemma CheckedIs(b: Bucket, clock: nat)
    ensures Scores(Checked(b, clock)) == Above(Seconds(clock) - WINDOW, Scores(Fetch(b, clock)))
    ensures Checked(b, clock).Bucket? ==> Checked(b, clock).expiresAt == clock + Micros(WINDOW)
    ensures CountAt(b, clock) == |Above(Seconds(clock) - WINDOW, Scores(Fetch(b, clock)))|
  {
  }

  /** A bucket that was just pruned to the window and given a full window to live agrees with the log. */
  lemma RenewedAgrees(b: Bucket, log: seq<nat>, clock: nat)
    requires Scores(b) == Above(Seconds(clock) - WINDOW, log)
    requires b.Bucket? ==> b.expiresAt == clock + Micros(WINDOW)
    requires forall s :: s in log ==> s <= Seconds(clock)
    ensures Agrees(b, log, clock, Seconds(clock) - WINDOW)
  {
    forall s | s in Scores(b) ensures Micros(s + WINDOW) <= clock + Micros(WINDOW) {
      assert s in log;
      LivesLongEnough(s, clock);
    }
  }

  lemma CheckAgrees(b: Bucket, log: seq<nat>, clock: nat, low: int, later: nat)
    requires Agrees(b, log, clock, low) && clock <= later
    requires forall s :: s in log ==> s <= Seconds(later)
    ensures Agrees(Checked(b, later), log, later, Seconds(later) - WINDOW)
    ensures CountAt(b, later) == |Above(Seconds(later) - WINDOW, log)|
  {
    ExpiryDropsNothingLive(b, log, clock, low, later);
    CheckedIs(b, later);
    RenewedAgrees(Checked(b, later), log, later);
  }

  lemma RecordedIs(b: Bucket, clock: nat)
    ensures Scores(Recorded(b, clock)) == Above(Seconds(clock) - WINDOW, Scores(Fetch(b, clock)) + [Seconds(clock)])
    ensures Recorded(b, clock).Bucket? ==> Recorded(b, clock).expiresAt == clock + Micros(WINDOW)
  {
  }

  lemma SameWithOneMore(low: int, stored: seq<nat>, log: seq<nat>, s: nat)
    requires Above(low, stored) == Above(low, log)
    ensures Above(low, stored + [s]) == Above(low, log + [s])
  {
    AboveAppend(low, stored, s);
    AboveAppend(low, log, s);
  }

  /** After a recorded failure the set holds the longer log above the start of the window. */
  lemma RecordedScores(b: Bucket, log: seq<nat>, clock: nat, low: int, later: nat)
    requires Agrees(b, log, clock, low) && clock <= later
    ensures Scores(Recorded(b, later)) == Above(Seconds(later) - WINDOW, log + [Seconds(later)])
  {
    ExpiryDropsNothingLive(b, log, clock, low, later);
    SameWithOneMore(Seconds(later) - WINDOW, Scores(Fetch(b, later)), log, Seconds(later));
    RecordedIs(b, later);
  }

  lemma RecordAgrees(b: Bucket, log: seq<nat>, clock: nat, low: int, later: nat)
    requires Agrees(b, log, clock, low) && clock <= later
    requires forall s :: s in log ==> s <= Seconds(later)
    ensures Agrees(Recorded(b, later), log + [Seconds(later)], later, Seconds(later) - WINDOW)
  {
    RecordedScores(b, log, clock, low, later);
    RecordedIs(b, later);
    RenewedAgrees(Recorded(b, later), log + [Seconds(later)], later);
  }

  // ---- Calls of one actor ----

  /** One step of a call: its check, or its end after a passed check. */
  datatype Action =
    | Check
    | Fail       // wrong password, failure recorded
    | Succeed    // right password, counter deleted
    | Abandon    // the call ends without reaching Redis again

  datatype Event = Event(action: Action, clock: nat)

  /** `log` is the unpruned record of failures since the last reset; `inFlight` counts calls past their check. */
  datatype State = State(bucket: Bucket, log: seq<nat>, inFlight: nat, clock: nat)

  const INIT := State(Absent, [], 0, 0)

  ghost predicate Enabled(s: State, e: Event, k: nat) {
    && s.clock <= e.clock
    && (e.action.Check? ==> s.inFlight < k)
    && (!e.action.Check? ==> s.inFlight > 0)
  }

  function Apply(s: State, e: Event): State
    requires !e.action.Check? ==> s.inFlight > 0
  {
    match e.action
    case Check =>
      State(Checked(s.bucket, e.clock), s.log,
            if CountAt(s.bucket, e.clock) < MAX_ATTEMPTS then s.inFlight + 1 else s.inFlight, e.clock)
    case Fail => State(Recorded(s.bucket, e.clock), s.log + [Seconds(e.clock)], s.inFlight - 1, e.clock)
    case Succeed => State(Absent, [], s.inFlight - 1, e.clock)
    case Abandon => s.(inFlight := s.inFlight - 1, clock := e.clock)
  }

  ghost predicate StepAt(k: nat, states: seq<State>, events: seq<Event>, n: nat)
    requires |states| == |events| + 1 && n < |events|
  {
    Enabled(states[n], events[n], k) && states[n + 1] == Apply(states[n], events[n])
  }

  /** A run with at most `k` calls between their check and their end at any time. */
  ghost predicate Run(k: nat, states: seq<State>, events: seq<Event>) {
    && |states| == |events| + 1
    && states[0] == INIT
    && forall n :: 0 <= n < |events| ==> StepAt(k, states, events, n)
  }

  /** The failures of the log in the 900 seconds that start at `from`. */
  function InWindow(from: int, log: seq<nat>): seq<nat> {
    if log == [] then []
    else
      var n := |log| - 1;
      InWindow(from, log[..n]) + if from <= log[n] < from + WINDOW then [log[n]] else []
  }

  lemma InWindowAppend(from: int, log: seq<nat>, t: nat)
    ensures InWindow(from, log + [t]) == InWindow(from, log) + if from <= t < from + WINDOW then [t] else []
  {
    assert (log + [t])[..|log|] == log;
  }

  lemma {:induction false} WindowIsLive(from: int, log: seq<nat>, now: int)
    requires now < from + WINDOW
    ensures |InWindow(from, log)| <= |Above(now - WINDOW, log)|
  {
    if log != [] {
      WindowIsLive(from, log[..|log| - 1], now);
    }
  }

  lemma {:induction false} AboveShrinks(low: int, high: int, log: seq<nat>)
    requires low <= high
    ensures |Above(high, log)| <= |Above(low, log)|
  {
    AboveTwice(low, high, log);
  }

  ghost predicate Spaced(log: seq<nat>, k: nat) {
    forall from: int :: |InWindow(from, log)| <= MAX_ATTEMPTS - 1 + k
  }

  /** The log at second `now`: live failures and calls in flight together leave room for no more than 2 + k. */
  ghost predicate Bounded(log: seq<nat>, now: nat, inFlight: nat, k: nat) {
    && (forall t :: t in log ==> t <= now)
    && |Above(now - WINDOW, log)| + inFlight <= MAX_ATTEMPTS - 1 + k
    && Spaced(log, k)
  }

  /** A new failure falls only into windows whose failures are all still live. */
  lemma SpacedAppend(log: seq<nat>, now: nat, k: nat)
    requires Spaced(log, k) && |Above(now - WINDOW, log + [now])| <= MAX_ATTEMPTS - 1 + k
    ensures Spaced(log + [now], k)
  {
    forall from: int ensures |InWindow(from, log + [now])| <= MAX_ATTEMPTS - 1 + k {
      InWindowAppend(from, log, now);
      if from <= now < from + WINDOW {
        WindowIsLive(from, log + [now], now);
      }
    }
  }

  lemma BoundedFail(log: seq<nat>, now: nat, later: nat, inFlight: nat, k: nat)
    requires Bounded(log, now, inFlight, k) && now <= later && inFlight > 0
    ensures Bounded(log + [later], later, inFlight - 1, k)
  {
    AboveShrinks(now - WINDOW, later - WINDOW, log);
    AboveAppend(later - WINDOW, log, later);
    SpacedAppend(log, later, k);
  }

  lemma BoundedCheck(log: seq<nat>, now: nat, later: nat, inFlight: nat, k: nat)
    requires Bounded(log, now, inFlight, k) && now <= later
    ensures Bounded(log, later, inFlight, k)
    ensures inFlight < k && |Above(later - WINDOW, log)| < MAX_ATTEMPTS ==> Bounded(log, later, inFlight + 1, k)
  {
    AboveShrinks(now - WINDOW, later - WINDOW, log);
  }

  ghost predicate Faithful(b: Bucket, log: seq<nat>, clock: nat) {
    exists low :: Agrees(b, log, clock, low)
  }

  ghost predicate Inv(s: State, k: nat) {
    Faithful(s.bucket, s.log, s.clock) && Bounded(s.log, Seconds(s.clock), s.inFlight, k)
  }

  lemma CheckFaithful(b: Bucket, log: seq<nat>, clock: nat, later: nat)
    requires Faithful(b, log, clock) && clock <= later && forall t :: t in log ==> t <= Seconds(later)
    ensures Faithful(Checked(b, later), log, later)
    ensures CountAt(b, later) == |Above(Seconds(later) - WINDOW, log)|
  {
    var low :| Agrees(b, log, clock, low);
    CheckAgrees(b, log, clock, low, later);
  }

  lemma RecordFaithful(b: Bucket, log: seq<nat>, clock: nat, later: nat)
    requires Faithful(b, log, clock) && clock <= later && forall t :: t in log ==> t <= Seconds(later)
    ensures Faithful(Recorded(b, later), log + [Seconds(later)], later)
  {
    var low :| Agrees(b, log, clock, low);
    RecordAgrees(b, log, clock, low, later);
  }

  lemma WaitFaithful(b: Bucket, log: seq<nat>, clock: nat, later: nat)
    requires clock <= later
    ensures Faithful(b, log, clock) ==> Faithful(b, log, later)
    ensures Faithful(Absent, [], later)
  {
    if Faithful(b, log, clock) {
      var low :| Agrees(b, log, clock, low);
      assert Agrees(b, log, later, low);
    }
    assert Agrees(Absent, [], later, Seconds(later) - WINDOW);
  }

  lemma CheckKeepsInv(s: State, clock: nat, k: nat)
    requires Inv(s, k) && s.clock <= clock && s.inFlight < k
    ensures Inv(Apply(s, Event(Check, clock)), k)
  {
    CheckFaithful(s.bucket, s.log, s.clock, clock);
    BoundedCheck(s.log, Seconds(s.clock), Seconds(clock), s.inFlight, k);
  }

  lemma FailKeepsInv(s: State, clock: nat, k: nat)
    requires Inv(s, k) && s.clock <= clock && s.inFlight > 0
    ensures Inv(Apply(s, Event(Fail, clock)), k)
  {
    RecordFaithful(s.bucket, s.log, s.clock, clock);
    BoundedFail(s.log, Seconds(s.clock), Seconds(clock), s.inFlight, k);
  }

  lemma EndKeepsInv(s: State, clock: nat, k: nat)
    requires Inv(s, k) && s.clock <= clock && s.inFlight > 0
    ensures Inv(Apply(s, Event(Succeed, clock)), k) && Inv(Apply(s, Event(Abandon, clock)), k)
  {
    WaitFaithful(s.bucket, s.log, s.clock, clock);
    BoundedCheck(s.log, Seconds(s.clock), Seconds(clock), s.inFlight, k);
  }

  lemma StepKeepsInv(s: State, e: Event, k: nat)
    requires Inv(s, k) && Enabled(s, e, k)
    ensures Inv(Apply(s, e), k)
  {
    match e.action
    case Check => CheckKeepsInv(s, e.clock, k);
    case Fail => FailKeepsInv(s, e.clock, k);
    case Succeed => EndKeepsInv(s, e.clock, k);
    case Abandon => EndKeepsInv(s, e.clock, k);
  }

  lemma {:induction false} RunKeepsInv(k: nat, states: seq<State>, events: seq<Event>, n: nat)
    requires Run(k, states, events) && n < |states|
    ensures Inv(states[n], k)
  {
    if n == 0 {
      WaitFaithful(Absent, [], 0, 0);
    } else {
      RunKeepsInv(k, states, events, n - 1);
      assert StepAt(k, states, events, n - 1);
      StepKeepsInv(states[n - 1], events[n - 1], k);
    }
  }

  /** In every run, a check counts exactly the logged failures of the last 900 seconds since the last reset. */
  lemma CountIsExact(k: nat, states: seq<State>, events: seq<Event>, n: nat, later: nat)
    requires Run(k, states, events) && n < |states| && states[n].clock <= later
    ensures CountAt(states[n].bucket, later) == |Above(Seconds(later) - WINDOW, states[n].log)|
  {
    RunKeepsInv(k, states, events, n);
    CheckFaithful(states[n].bucket, states[n].log, states[n].clock, later);
  }

  /** With at most `k` overlapping calls, no 900-second window between resets holds more than 2 + k failures. */
  lemma WindowBound(k: nat, states: seq<State>, events: seq<Event>, n: nat, from: int)
    requires Run(k, states, events) && n < |states|
    ensures |InWindow(from, states[n].log)| <= MAX_ATTEMPTS - 1 + k
  {
    RunKeepsInv(k, states, events, n);
  }

  /** Calls made one after the other: at most three failures in any window. */
  lemma SequentialBound(states: seq<State>, events: seq<Event>, n: nat, from: int)
    requires Run(1, states, events) && n < |states|
    ensures |InWindow(from, states[n].log)| <= MAX_ATTEMPTS
  {
    WindowBound(1, states, events, n, from);
  }

  // ---- The bound is attained ----

  function Repeat(n: nat, t: nat): (r: seq<nat>)
    ensures |r| == n
  {
    if n == 0 then [] else Repeat(n - 1, t) + [t]
  }

  /** A run that has got to `s`. */
  ghost predicate Ends(k: nat, states: seq<State>, events: seq<Event>, s: State) {
    Run(k, states, events) && states[|events|] == s
  }

  lemma Extend(k: nat, states: seq<State>, events: seq<Event>, s: State, e: Event)
    returns (states': seq<State>, events': seq<Event>)
    requires Ends(k, states, events, s) && Enabled(s, e, k)
    ensures Ends(k, states', events', Apply(s, e))
  {
    states', events' := states + [Apply(s, e)], events + [e];
    forall n | 0 <= n < |events'| ensures StepAt(k, states', events', n) {
      assert n < |events| ==> StepAt(k, states, events, n);
    }
  }

  lemma {:induction false} RepeatAbove(n: nat)
    ensures Above(-WINDOW, Repeat(n, 0)) == Repeat(n, 0)
    ensures InWindow(0, Repeat(n, 0)) == Repeat(n, 0)
  {
    if n > 0 {
      RepeatAbove(n - 1);
      assert Repeat(n, 0)[..n - 1] == Repeat(n - 1, 0);
    }
  }

  /** At time zero: `n` failures recorded. */
  function Burst(n: nat, inFlight: nat): State {
    State(Stored(n), Repeat(n, 0), inFlight, 0)
  }

  function Stored(n: nat): Bucket {
    if n == 0 then Absent else Bucket(Repeat(n, 0), Micros(WINDOW))
  }

  lemma StoredAtZero(n: nat)
    ensures Fetch(Stored(n), 0) == Stored(n) && Scores(Stored(n)) == Repeat(n, 0)
  {
  }

  lemma StoredChecked(n: nat)
    ensures Checked(Stored(n), 0) == Stored(n) && CountAt(Stored(n), 0) == n
  {
    StoredAtZero(n);
    RepeatAbove(n);
    assert Seconds(0) == 0 && Prune(Stored(n), -WINDOW) == Stored(n);
    assert Expire(Stored(n), Micros(WINDOW)) == Stored(n);
  }

  lemma RecordedFrom(b: Bucket, stored: seq<nat>, clock: nat, added: seq<nat>)
    requires Scores(Fetch(b, clock)) == stored && added == stored + [Seconds(clock)]
    requires Above(Seconds(clock) - WINDOW, added) == added
    ensures Recorded(b, clock) == Bucket(added, clock + Micros(WINDOW))
  {
    RecordedIs(b, clock);
    var r := Recorded(b, clock);
    assert Scores(r) == added && |added| > 0;
  }

  lemma StoredRecorded(n: nat)
    ensures Recorded(Stored(n), 0) == Stored(n + 1)
  {
    StoredAtZero(n);
    RepeatAbove(n + 1);
    RecordedFrom(Stored(n), Repeat(n, 0), 0, Repeat(n + 1, 0));
  }

  lemma BurstCheck(k: nat, states: seq<State>, events: seq<Event>, n: nat, inFlight: nat)
    returns (states': seq<State>, events': seq<Event>)
    requires Ends(k, states, events, Burst(n, inFlight)) && n < MAX_ATTEMPTS && inFlight < k
    ensures Ends(k, states', events', Burst(n, inFlight + 1))
  {
    StoredChecked(n);
    assert Apply(Burst(n, inFlight), Event(Check, 0)) == Burst(n, inFlight + 1);
    states', events' := Extend(k, states, events, Burst(n, inFlight), Event(Check, 0));
  }

  lemma BurstFail(k: nat, states: seq<State>, events: seq<Event>, n: nat, inFlight: nat)
    returns (states': seq<State>, events': seq<Event>)
    requires Ends(k, states, events, Burst(n, inFlight)) && inFlight > 0
    ensures Ends(k, states', events', Burst(n + 1, inFlight - 1))
  {
    StoredRecorded(n);
    assert Apply(Burst(n, inFlight), Event(Fail, 0)) == Burst(n + 1, inFlight - 1);
    states', events' := Extend(k, states, events, Burst(n, inFlight), Event(Fail, 0));
  }

  /** Two failures one after the other, then `checks` calls that overlap. */
  lemma {:induction false} Crowd(k: nat, checks: nat) returns (states: seq<State>, events: seq<Event>)
    requires 0 < k && checks <= k
    ensures Ends(k, states, events, Burst(2, checks))
  {
    if checks == 0 {
      states, events := [INIT], [];
      assert Burst(0, 0) == INIT;
      states, events := BurstCheck(k, states, events, 0, 0);
      states, events := BurstFail(k, states, events, 0, 1);
      states, events := BurstCheck(k, states, events, 1, 0);
      states, events := BurstFail(k, states, events, 1, 1);
    } else {
      states, events := Crowd(k, checks - 1);
      states, events := BurstCheck(k, states, events, 2, checks - 1);
    }
  }

  /** The calls of the crowd fail one by one. */
  lemma {:induction false} Stampede(k: nat, fails: nat) returns (states: seq<State>, events: seq<Event>)
    requires 0 < k && fails <= k
    ensures Ends(k, states, events, Burst(2 + fails, k - fails))
  {
    if fails == 0 {
      states, events := Crowd(k, k);
    } else {
      states, events := Stampede(k, fails - 1);
      states, events := BurstFail(k, states, events, 2 + fails - 1, k - fails + 1);
    }
  }

  /** For every k, overlapping calls can put exactly 2 + k failures in one window. */
  lemma BoundAttained(k: nat) returns (states: seq<State>, events: seq<Event>)
    requires 0 < k
    ensures Run(k, states, events) && |InWindow(0, states[|events|].log)| == MAX_ATTEMPTS - 1 + k
  {
    states, events := Stampede(k, k);
    RepeatAbove(2 + k);
  }

  // ---- The limiter object and its client ----

  /** One contact with Redis: when it happens and whether Redis answers. */
  datatype Contact = Contact(clock: nat, up: bool)

  datatype Limit = Passed | Blocked | Unavailable | Escaped

  /**
   The failure sets of all actors.  `histories` is the run each actor's calls have made so far; it
   exists for specification only.
   */
  class Limiter {
    var buckets: map<string, Bucket>
    ghost var histories: map<string, State>

    constructor ()
      ensures buckets == map[] && Valid()
    {
      buckets := map[];
      histories := map[];
      new;
      NothingYet();
    }

    function BucketOf(actor: string): Bucket
      reads this
    {
      if actor in buckets then buckets[actor] else Absent
    }

    ghost function HistoryOf(actor: string): State
      reads this
    {
      if actor in histories then histories[actor] else INIT
    }

    /** Between calls, every actor's bucket is where its run of calls, one after the other, has got to. */
    ghost predicate Valid()
      reads this
    {
      forall actor: string :: Settled(HistoryOf(actor)) && HistoryOf(actor).bucket == BucketOf(actor)
    }

    /** `check`: the time to live of a blocked key is read outside the guarded section, so its failure escapes. */
    method Check(actor: string, count: Contact, ttl: Contact) returns (r: Limit)
      modifies this`buckets
      ensures buckets == if count.up then old(buckets)[actor := Checked(old(BucketOf(actor)), count.clock)]
                         else old(buckets)
      ensures r.Unavailable? <==> !count.up
      ensures r.Passed? <==> count.up && CountAt(old(BucketOf(actor)), count.clock) < MAX_ATTEMPTS
      ensures r.Blocked? <==> count.up && CountAt(old(BucketOf(actor)), count.clock) >= MAX_ATTEMPTS && ttl.up
      ensures r.Escaped? <==> count.up && CountAt(old(BucketOf(actor)), count.clock) >= MAX_ATTEMPTS && !ttl.up
    {
      if !count.up {
        return Unavailable;
      }
      var failures := CountAt(BucketOf(actor), count.clock);
      buckets := buckets[actor := Checked(BucketOf(actor), count.clock)];
      if failures >= MAX_ATTEMPTS {
        return if ttl.up then Blocked else Escaped;
      }
      return Passed;
    }

    method RecordFailure(actor: string, contact: Contact) returns (ok: bool)
      modifies this`buckets
      ensures ok == contact.up
      ensures buckets == if ok then old(buckets)[actor := Recorded(old(BucketOf(actor)), contact.clock)]
                         else old(buckets)
    {
      if contact.up {
        buckets := buckets[actor := Recorded(BucketOf(actor), contact.clock)];
      }
      return contact.up;
    }

    /** Best effort: an unreachable Redis keeps the failures. */
    method RecordSuccess(actor: string, contact: Contact)
      modifies this`buckets
      ensures buckets == if contact.up then old(buckets) - {actor} else old(buckets)
    {
      if contact.up {
        buckets := buckets - {actor};
      }
    }
  }

  datatype Verdict = Granted | Refused(code: string, status: int) | Raised

  /** What a whole call leaves in the bucket of its actor. */
  function AfterCall(b: Bucket, passwordOk: bool, count: Contact, end: Contact): Bucket {
    if !count.up then b
    else
      var checked := Checked(b, count.clock);
      if CountAt(b, count.clock) >= MAX_ATTEMPTS || !end.up then checked
      else if passwordOk then Absent
      else Recorded(checked, end.clock)
  }

  // ---- A call as steps of a run ----

  /** A state of a run of calls made one after the other, between two of them. */
  ghost predicate Settled(s: State) {
    Inv(s, 1) && s.inFlight == 0
  }

  lemma NothingYet()
    ensures Settled(INIT)
  {
    WaitFaithful(Absent, [], 0, 0);
  }

  function EndOf(passwordOk: bool, end: Contact): Event {
    Event(if !end.up then Abandon else if passwordOk then Succeed else Fail, end.clock)
  }

  /** A call is no step of the run, its check alone, or its check and its end. */
  function CallSteps(s: State, passwordOk: bool, count: Contact, end: Contact): State {
    if !count.up then s
    else
      var checked := Apply(s, Event(Check, count.clock));
      if CountAt(s.bucket, count.clock) >= MAX_ATTEMPTS then checked else Apply(checked, EndOf(passwordOk, end))
  }

  /** The steps of a call are enabled, lead from one settled state to the next, and leave the bucket the call leaves. */
  lemma CallIsSteps(s: State, passwordOk: bool, count: Contact, end: Contact)
    requires Settled(s) && s.clock <= count.clock <= end.clock
    ensures Settled(CallSteps(s, passwordOk, count, end))
    ensures CallSteps(s, passwordOk, count, end).bucket == AfterCall(s.bucket, passwordOk, count, end)
    ensures count.up ==> Enabled(s, Event(Check, count.clock), 1)
    ensures count.up && CountAt(s.bucket, count.clock) < MAX_ATTEMPTS ==>
              Enabled(Apply(s, Event(Check, count.clock)), EndOf(passwordOk, end), 1)
  {
    if count.up {
      var check := Event(Check, count.clock);
      StepKeepsInv(s, check, 1);
      if CountAt(s.bucket, count.clock) < MAX_ATTEMPTS {
        StepKeepsInv(Apply(s, check), EndOf(passwordOk, end), 1);
      }
    }
  }

  const INVALID_PASSWORD := Refused("invalid_master_password", 401)

  /**
   What a call does to the record of failures: a wrong password that is answered as such is recorded,
   a granted call that still reaches Redis clears the record, and no other call changes it.
   */
  ghost predicate LogMoves(log: seq<nat>, v: Verdict, end: Contact, log': seq<nat>) {
    log' == if v == INVALID_PASSWORD then log + [Seconds(end.clock)]
            else if v.Granted? && end.up then []
            else log
  }

  lemma CallMovesLog(s: State, v: Verdict, passwordOk: bool, count: Contact, end: Contact)
    requires s.clock <= count.clock <= end.clock && s.inFlight == 0
    requires v == INVALID_PASSWORD <==> Open(s.bucket, count) && !passwordOk && end.up
    requires v.Granted? <==> Open(s.bucket, count) && passwordOk
    ensures LogMoves(s.log, v, end, CallSteps(s, passwordOk, count, end).log)
    ensures CallSteps(s, passwordOk, count, end).clock <= end.clock
  {
  }

  /** Every verdict with its cause, the new bucket, and the actor's run and record one call further. */
  method VerifyMasterStepUp(limiter: Limiter?, actor: string, passwordOk: bool, count: Contact, ttl: Contact,
        end: Contact)
    returns (v: Verdict)
    modifies limiter
    ensures v.Granted? <==> limiter != null && Open(old(limiter.BucketOf(actor)), count) && passwordOk
    ensures v == Refused("invalid_master_password", 401) <==>
              limiter != null && Open(old(limiter.BucketOf(actor)), count) && !passwordOk && end.up
    ensures v == Refused("step_up_rate_limited", 429) <==>
              limiter != null && Full(old(limiter.BucketOf(actor)), count) && ttl.up
    ensures v == Refused("step_up_unavailable", 503) <==>
              || limiter == null || !count.up
              || (Open(old(limiter.BucketOf(actor)), count) && !passwordOk && !end.up)
    ensures v.Raised? <==> limiter != null && Full(old(limiter.BucketOf(actor)), count) && !ttl.up
    ensures limiter != null ==>
      && limiter.BucketOf(actor) == AfterCall(old(limiter.BucketOf(actor)), passwordOk, count, end)
      && forall other :: other != actor ==> limiter.BucketOf(other) == old(limiter.BucketOf(other))
    ensures limiter != null && old(limiter.Valid())
            && old(limiter.HistoryOf(actor)).clock <= count.clock <= end.clock ==>
      && limiter.Valid()
      && limiter.HistoryOf(actor) == CallSteps(old(limiter.HistoryOf(actor)), passwordOk, count, end)
      && LogMoves(old(limiter.HistoryOf(actor)).log, v, end, limiter.HistoryOf(actor).log)
      && limiter.HistoryOf(actor).clock <= end.clock
      && forall other :: other != actor ==> limiter.HistoryOf(other) == old(limiter.HistoryOf(other))
  {
    if limiter == null {
      return Refused("step_up_unavailable", 503);
    }
    ghost var settled, before := limiter.Valid(), limiter.HistoryOf(actor);
    v := Decide(limiter, actor, passwordOk, count, ttl, end);
    if settled && before.clock <= count.clock <= end.clock {
      CallIsSteps(before, passwordOk, count, end);
      CallMovesLog(before, v, passwordOk, count, end);
      limiter.histories := limiter.histories[actor := CallSteps(before, passwordOk, count, end)];
      forall a: string ensures Settled(limiter.HistoryOf(a)) && limiter.HistoryOf(a).bucket == limiter.BucketOf(a) {
        assert a != actor ==>
          limiter.HistoryOf(a) == old(limiter.HistoryOf(a)) && limiter.BucketOf(a) == old(limiter.BucketOf(a));
      }
    }
  }

  method Decide(limiter: Limiter, actor: string, passwordOk: bool, count: Contact, ttl: Contact, end: Contact)
    returns (v: Verdict)
    modifies limiter`buckets
    ensures v.Granted? <==> Open(old(limiter.BucketOf(actor)), count) && passwordOk
    ensures v == Refused("invalid_master_password", 401) <==>
              Open(old(limiter.BucketOf(actor)), count) && !passwordOk && end.up
    ensures v == Refused("step_up_rate_limited", 429) <==> Full(old(limiter.BucketOf(actor)), count) && ttl.up
    ensures v == Refused("step_up_unavailable", 503) <==>
              !count.up || (Open(old(limiter.BucketOf(actor)), count) && !passwordOk && !end.up)
    ensures v.Raised? <==> Full(old(limiter.BucketOf(actor)), count) && !ttl.up
    ensures limiter.BucketOf(actor) == AfterCall(old(limiter.BucketOf(actor)), passwordOk, count, end)
    ensures forall other :: other != actor ==> limiter.BucketOf(other) == old(limiter.BucketOf(other))
  {
    var limit := limiter.Check(actor, count, ttl);
    match limit {
      case Unavailable => return Refused("step_up_unavailable", 503);
      case Blocked => return Refused("step_up_rate_limited", 429);
      case Escaped => return Raised;
      case Passed =>
    }
    if !passwordOk {
      var recorded := limiter.RecordFailure(actor, end);
      return if recorded then Refused("invalid_master_password", 401) else Refused("step_up_unavailable", 503);
    }
    limiter.RecordSuccess(actor, end);
    return Granted;
  }

  /** Redis answers the check and counts fewer than three failures. */
  predicate Open(b: Bucket, count: Contact) {
    count.up && CountAt(b, count.clock) < MAX_ATTEMPTS
  }

  /** Redis answers the check and counts three failures or more. */
  predicate Full(b: Bucket, count: Contact) {
    count.up && CountAt(b, count.clock) >= MAX_ATTEMPTS
  }

  /**
   So no actor of the object ever has more than three failures in a window between resets, and a
   check counts them exactly.
   */
  lemma ObjectBound(limiter: Limiter, actor: string, from: int, later: nat)
    requires limiter.Valid() && limiter.HistoryOf(actor).clock <= later
    ensures |InWindow(from, limiter.HistoryOf(actor).log)| <= MAX_ATTEMPTS
    ensures CountAt(limiter.BucketOf(actor), later) == |Above(Seconds(later) - WINDOW, limiter.HistoryOf(actor).log)|
  {
    var s := limiter.HistoryOf(actor);
    assert Settled(s);
    CheckFaithful(s.bucket, s.log, s.clock, later);
  }

  // ---- Three wrong passwords close the door ----

  /** Calls of one actor: verdicts and last contacts, and the record of failures before, between and after them. */
  ghost predicate Calls(logs: seq<seq<nat>>, verdicts: seq<Verdict>, ends: seq<Contact>) {
    && |logs| == |verdicts| + 1 == |ends| + 1
    && forall n :: 0 <= n < |verdicts| ==> LogMoves(logs[n], verdicts[n], ends[n], logs[n + 1])
  }

  ghost function WrongSince(verdicts: seq<Verdict>, ends: seq<Contact>, low: int): set<int>
    requires |verdicts| == |ends|
  {
    set n | 0 <= n < |verdicts| && verdicts[n] == INVALID_PASSWORD && Seconds(ends[n].clock) > low
  }

  /** One more call without a grant adds to the record exactly when it is told that its password was wrong. */
  lemma OneMoreRecorded(log: seq<nat>, v: Verdict, end: Contact, log': seq<nat>, low: int)
    requires LogMoves(log, v, end, log') && !v.Granted?
    ensures |Above(low, log')| ==
              |Above(low, log)| + if v == INVALID_PASSWORD && Seconds(end.clock) > low then 1 else 0
  {
    AboveAppend(low, log, Seconds(end.clock));
  }

  lemma OneMoreWrong(verdicts: seq<Verdict>, ends: seq<Contact>, low: int)
    requires |verdicts| == |ends| > 0
    ensures var n := |verdicts| - 1;
            |WrongSince(verdicts, ends, low)| == |WrongSince(verdicts[..n], ends[..n], low)|
              + if verdicts[n] == INVALID_PASSWORD && Seconds(ends[n].clock) > low then 1 else 0
  {
    var n := |verdicts| - 1;
    var before, after := WrongSince(verdicts[..n], ends[..n], low), WrongSince(verdicts, ends, low);
    if n in after {
      assert after == before + {n};
    } else {
      assert after == before;
    }
  }

  /** Without a grant, the record holds every refused password of the calls. */
  lemma {:induction false} WrongAreRecorded(logs: seq<seq<nat>>, verdicts: seq<Verdict>, ends: seq<Contact>, low: int)
    requires Calls(logs, verdicts, ends) && forall n :: 0 <= n < |verdicts| ==> !verdicts[n].Granted?
    ensures |Above(low, logs[|verdicts|])| >= |WrongSince(verdicts, ends, low)|
  {
    if verdicts != [] {
      var n := |verdicts| - 1;
      WrongAreRecorded(logs[..n + 1], verdicts[..n], ends[..n], low);
      OneMoreRecorded(logs[n], verdicts[n], ends[n], logs[n + 1], low);
      OneMoreWrong(verdicts, ends, low);
    }
  }

  lemma ThreeAmong(verdicts: seq<Verdict>, ends: seq<Contact>, low: int, a: nat, b: nat, c: nat)
    requires |verdicts| == |ends| && a < b < c < |verdicts|
    requires forall n :: n == a || n == b || n == c ==> verdicts[n] == INVALID_PASSWORD && low < Seconds(ends[n].clock)
    ensures |WrongSince(verdicts, ends, low)| >= 3
  {
    var three: set<int> := {a, b, c};
    assert three <= WrongSince(verdicts, ends, low);
    SubsetSize(three, WrongSince(verdicts, ends, low));
  }

  lemma ThreeFill(s: State, logs: seq<seq<nat>>, verdicts: seq<Verdict>, ends: seq<Contact>, a: nat, b: nat, c: nat,
        later: nat)
    requires Faithful(s.bucket, s.log, s.clock) && s.clock <= later && forall t :: t in s.log ==> t <= Seconds(s.clock)
    requires Calls(logs, verdicts, ends) && forall n :: 0 <= n < |verdicts| ==> !verdicts[n].Granted?
    requires a < b < c < |verdicts| && s.log == logs[|verdicts|]
    requires forall n :: n == a || n == b || n == c ==>
               verdicts[n] == INVALID_PASSWORD && Seconds(later) - WINDOW < Seconds(ends[n].clock)
    ensures CountAt(s.bucket, later) >= 3
  {
    var low := Seconds(later) - WINDOW;
    WrongAreRecorded(logs, verdicts, ends, low);
    ThreeAmong(verdicts, ends, low, a, b, c);
    CheckFaithful(s.bucket, s.log, s.clock, later);
  }

  /**
   After three wrong passwords inside one window, with no grant among the calls since, the next call
   whose check reaches Redis finds the limiter full, so it is neither granted nor told that its
   password was wrong.
   */
  lemma ThreeStrikes(limiter: Limiter, actor: string, logs: seq<seq<nat>>, verdicts: seq<Verdict>, ends: seq<Contact>,
        a: nat, b: nat, c: nat, count: Contact)
    requires Calls(logs, verdicts, ends) && forall n :: 0 <= n < |verdicts| ==> !verdicts[n].Granted?
    requires a < b < c < |verdicts|
    requires forall n :: n == a || n == b || n == c ==>
               verdicts[n] == INVALID_PASSWORD && Seconds(count.clock) - WINDOW < Seconds(ends[n].clock)
    requires limiter.Valid() && limiter.HistoryOf(actor).log == logs[|verdicts|]
    requires limiter.HistoryOf(actor).clock <= count.clock && count.up
    ensures Full(limiter.BucketOf(actor), count) && !Open(limiter.BucketOf(actor), count)
  {
    var s := limiter.HistoryOf(actor);
    assert Settled(s);
    ThreeFill(s, logs, verdicts, ends, a, b, c, count.clock);
  }
}
