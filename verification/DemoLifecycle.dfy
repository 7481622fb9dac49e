/**
 The life of a Demo Tenant: derived status and its queries (backend/app/models/tenant.py,
 backend/app/repositories/tenants_repository.py), activation by login
 (backend/app/services/demo_lifecycle_service.py), credential replacement and deletion
 (backend/app/services/demo_management_service.py), and the password change of
 backend/app/services/profile_service/service.py.  Times are seconds.
 */
module DemoLifecycle {
  import opened Common
  import opened Sorting

  const DEMO_DURATION := 48 * 60 * 60

  datatype Status = Pending | Active | Expired

  // ---- Rows, derived status and queries ----

  datatype Tenant = Tenant(
    id: nat, createdAt: int, isDemo: bool, activatedAt: Option<int>, expiresAt: Option<int>, version: int)

  datatype Derived = NotDemo | Known(status: Status) | Incomplete

  function GetDemoStatus(t: Tenant, now: int): Derived {
    if !t.isDemo then NotDemo
    else if t.activatedAt.None? then Known(Pending)
    else if t.expiresAt.None? then Incomplete
    else Known(if now >= t.expiresAt.value then Expired else Active)
  }

  /** The check constraint that pairs the two timestamps. */
  predicate Paired(t: Tenant) {
    t.activatedAt.Some? <==> t.expiresAt.Some?
  }

  /** The condition of the query for one status; a comparison with a missing expiry is not true. */
  predicate Selected(t: Tenant, status: Status, now: int) {
    && t.isDemo
    && match status
       case Pending => t.activatedAt.None?
       case Active => t.activatedAt.Some? && t.expiresAt.Some? && t.expiresAt.value > now
       case Expired => t.expiresAt.Some? && t.expiresAt.value <= now
  }

  predicate NewestCreated(a: Tenant, b: Tenant) {
    a.createdAt > b.createdAt
  }

  function GetDemos(rows: seq<Tenant>, status: Option<Status>, now: int): seq<Tenant> {
    Sort(NewestCreated,
         Filter((t: Tenant) => if status.None? then t.isDemo else Selected(t, status.value, now), rows))
  }

  /** The demo has a derived status, and of the three queries exactly the one for that status selects it. */
  ghost predicate Classified(t: Tenant, now: int) {
    && GetDemoStatus(t, now).Known?
    && forall s: Status :: Selected(t, s, now) <==> s == GetDemoStatus(t, now).status
  }

  /** The three queries classify a demo like its derived status at all times exactly when its timestamps are paired. */
  lemma QueriesAgreeIff(t: Tenant)
    requires t.isDemo
    ensures (forall now: int :: Classified(t, now)) <==> Paired(t)
  {
    if !Paired(t) && t.activatedAt.Some? {
      assert !Classified(t, 0);
    } else if !Paired(t) {
      assert Selected(t, Expired, t.expiresAt.value);
      assert !Classified(t, t.expiresAt.value);
    }
  }

  /** The status queries partition the demos of every table that meets the pairing constraint. */
  lemma QueriesPartition(rows: seq<Tenant>, now: int, t: Tenant)
    requires forall x :: x in rows ==> Paired(x)
    ensures t in GetDemos(rows, None, now) <==> exists s: Status :: t in GetDemos(rows, Some(s), now)
    ensures forall s: Status, s': Status ::
      t in GetDemos(rows, Some(s), now) && t in GetDemos(rows, Some(s'), now) ==> s == s'
    ensures forall s: Status ::
      t in GetDemos(rows, Some(s), now) <==> t in rows && GetDemoStatus(t, now) == Known(s)
  {
    InGetDemos(rows, None, now, t);
    forall s: Status ensures t in GetDemos(rows, Some(s), now) <==> t in rows && GetDemoStatus(t, now) == Known(s) {
      InGetDemos(rows, Some(s), now, t);
      if t in rows && t.isDemo {
        QueriesAgreeIff(t);
        assert Classified(t, now);
      }
    }
    if t in rows && t.isDemo {
      assert t in GetDemos(rows, Some(GetDemoStatus(t, now).status), now);
    }
  }

  lemma InGetDemos(rows: seq<Tenant>, status: Option<Status>, now: int, t: Tenant)
    ensures t in GetDemos(rows, status, now) <==>
      t in rows && if status.None? then t.isDemo else Selected(t, status.value, now)
  {
    SameElements(NewestCreated,
      Filter((x: Tenant) => if status.None? then x.isDemo else Selected(x, status.value, now), rows));
  }

  /** Every query lists its demos from the newest to the oldest. */
  lemma DemosNewestFirst(rows: seq<Tenant>, status: Option<Status>, now: int)
    ensures var demos := GetDemos(rows, status, now);
            forall i, j :: 0 <= i < j < |demos| ==> demos[i].createdAt >= demos[j].createdAt
  {
    SortSorted(NewestCreated,
      Filter((t: Tenant) => if status.None? then t.isDemo else Selected(t, status.value, now), rows));
    var demos := GetDemos(rows, status, now);
    forall i, j | 0 <= i < j < |demos| ensures !NewestCreated(demos[j], demos[i]) {
    }
  }

  // ---- One demo over time ----

  datatype Demo = Demo(activatedAt: Option<int>, expiresAt: Option<int>, version: nat)

  function StatusAt(d: Demo, now: int): Derived {
    GetDemoStatus(Tenant(0, 0, true, d.activatedAt, d.expiresAt, d.version), now)
  }

  /**
   `logins` and `swaps` hold, per call past its read, the version that call read.  `held` records
   the versions the row has had, `top` the highest of them, `minted` the versions of tokens handed
   out, and `starts` counts activations.
   */
  datatype State = State(
    demo: Option<Demo>, logins: map<nat, nat>, swaps: map<nat, nat>, clock: int,
    held: set<nat>, top: nat, minted: set<nat>, starts: nat)

  const INIT := State(Some(Demo(None, None, 1)), map[], map[], 0, {1}, 1, {}, 0)

  datatype Action =
    | LoginRead(call: nat)      // ensure_demo_request, up to the pending test
    | LoginCommit(call: nat)    // the conditional update and the token
    | ReplaceRead(call: nat)    // load the row, refuse an expired demo
    | ReplaceCommit(call: nat)  // write the version that was read plus one
    | ChangePassword            // the database increments the version
    | Request                   // any authenticated request: an expired demo is deleted
    | Delete

  datatype Event = Event(action: Action, now: int)

  predicate IsExpired(d: Demo, now: int) {
    StatusAt(d, now) == Known(Expired)
  }

  predicate Enabled(s: State, e: Event) {
    && s.clock <= e.now
    && match e.action
       case LoginCommit(call) => call in s.logins
       case ReplaceCommit(call) => call in s.swaps
       case _ => true
  }

  function Renewed(s: State, d: Demo, version: nat): State {
    s.(demo := Some(d.(version := version)), held := s.held + {version},
       top := if version > s.top then version else s.top)
  }

  /** The evaluation starts now and lasts 48 hours. */
  function Started(d: Demo, now: int): Demo {
    d.(activatedAt := Some(now), expiresAt := Some(now + DEMO_DURATION))
  }

  function Apply(s0: State, e: Event): State
    requires Enabled(s0, e)
  {
    var s := s0.(clock := e.now);
    if s.demo.None? then s else
      var d := s.demo.value;
      match e.action
      case LoginRead(call) =>
        if IsExpired(d, e.now) then s.(demo := None)
        else if StatusAt(d, e.now) == Known(Pending) then s.(logins := s.logins[call := d.version])
        else s.(minted := s.minted + {d.version})
      case LoginCommit(call) =>
        var rest := s.(logins := s.logins - {call});
        if d.activatedAt.None? && d.expiresAt.None?
        then rest.(demo := Some(Started(d, e.now)), minted := s.minted + {s.logins[call]}, starts := s.starts + 1)
        else rest.(minted := s.minted + {d.version})
      case ReplaceRead(call) =>
        if IsExpired(d, e.now) then s else s.(swaps := s.swaps[call := d.version])
      case ReplaceCommit(call) => Renewed(s.(swaps := s.swaps - {call}), d, s.swaps[call] + 1)
      case ChangePassword => Renewed(s, d, d.version + 1)
      case Request => if IsExpired(d, e.now) then s.(demo := None) else s
      case Delete => s.(demo := None)
  }

  ghost predicate StepAt(states: seq<State>, events: seq<Event>, n: nat)
    requires |states| == |events| + 1 && n < |events|
  {
    Enabled(states[n], events[n]) && states[n + 1] == Apply(states[n], events[n])
  }

  ghost predicate Run(states: seq<State>, events: seq<Event>) {
    && |states| == |events| + 1
    && states[0] == INIT
    && forall n :: 0 <= n < |events| ==> StepAt(states, events, n)
  }

  /** Timestamps: both or none, 48 hours apart, started once and not in the future. */
  ghost predicate Timed(s: State) {
    && s.starts <= 1
    && (s.demo.Some? ==>
          var d := s.demo.value;
          && (d.activatedAt.Some? <==> s.starts == 1)
          && (d.expiresAt == if d.activatedAt.None? then None else Some(d.activatedAt.value + DEMO_DURATION))
          && (d.activatedAt.Some? ==> d.activatedAt.value <= s.clock))
  }

  /** Every version in sight is one the row has had, and the row has had all of 1 to `top`. */
  ghost predicate Versioned(s: State) {
    && (forall v: nat :: v in s.held <==> 1 <= v <= s.top)
    && (s.demo.Some? ==> s.demo.value.version in s.held)
    && (forall c :: c in s.logins ==> s.logins[c] in s.held)
    && (forall c :: c in s.swaps ==> s.swaps[c] in s.held)
    && s.minted <= s.held
  }

  lemma StepKeepsTimed(s: State, e: Event)
    requires Timed(s) && Enabled(s, e)
    ensures Timed(Apply(s, e))
  {
  }

  lemma StepKeepsVersioned(s: State, e: Event)
    requires Versioned(s) && Enabled(s, e)
    ensures Versioned(Apply(s, e))
  {
  }

  lemma {:induction false} RunKeepsInv(states: seq<State>, events: seq<Event>, n: nat)
    requires Run(states, events) && n < |states|
    ensures Timed(states[n]) && Versioned(states[n])
  {
    if n > 0 {
      RunKeepsInv(states, events, n - 1);
      assert StepAt(states, events, n - 1);
      StepKeepsTimed(states[n - 1], events[n - 1]);
      StepKeepsVersioned(states[n - 1], events[n - 1]);
    }
  }

  /** In every interleaving a demo is activated at most once, and expires exactly 48 hours after its activation. */
  lemma ActivatedOnce(states: seq<State>, events: seq<Event>, n: nat)
    requires Run(states, events) && n < |states|
    ensures states[n].starts <= 1
    ensures states[n].demo.Some? && states[n].demo.value.activatedAt.Some? ==>
      states[n].demo.value.expiresAt == Some(states[n].demo.value.activatedAt.value + DEMO_DURATION)
  {
    RunKeepsInv(states, events, n);
  }

  /** Once activated, the evaluation window never moves, and a deleted demo never comes back. */
  lemma {:induction false} WindowNeverMoves(states: seq<State>, events: seq<Event>, m: nat, n: nat)
    requires Run(states, events) && m <= n < |states| && states[n].demo.Some?
    ensures states[m].demo.Some? && states[m].clock <= states[n].clock
    ensures states[m].demo.value.activatedAt.Some? ==>
      && states[n].demo.value.activatedAt == states[m].demo.value.activatedAt
      && states[n].demo.value.expiresAt == states[m].demo.value.expiresAt
  {
    if m < n {
      assert StepAt(states, events, n - 1);
      WindowNeverMoves(states, events, m, n - 1);
    }
  }

  function Rank(s: Derived): int {
    if s == Known(Pending) then 0 else if s == Known(Active) then 1 else 2
  }

  /** Status only moves forward: pending, active, expired. */
  lemma StatusMonotone(states: seq<State>, events: seq<Event>, m: nat, n: nat, t: int, u: int)
    requires Run(states, events) && m <= n < |states| && states[n].demo.Some? && t <= u
    ensures states[m].demo.Some?
    ensures StatusAt(states[m].demo.value, t).Known? && StatusAt(states[n].demo.value, u).Known?
    ensures Rank(StatusAt(states[m].demo.value, t)) <= Rank(StatusAt(states[n].demo.value, u))
  {
    WindowNeverMoves(states, events, m, n);
    RunKeepsInv(states, events, m);
    RunKeepsInv(states, events, n);
  }

  // ---- Tokens and replaced credentials ----

  /** `ensure_demo_request` lets a token with this version through. */
  predicate Admits(d: Demo, version: Option<nat>, now: int) {
    !IsExpired(d, now) && (version.None? || version.value == d.version)
  }

  /** A replacement that finds the version it read, as every replacement does when none overlap. */
  ghost predicate Undisturbed(s: State, e: Event) {
    e.action.ReplaceCommit? && s.demo.Some? ==>
      e.action.call in s.swaps && s.swaps[e.action.call] == s.demo.value.version
  }

  ghost predicate Renews(s: State, e: Event) {
    (e.action.ReplaceCommit? || e.action.ChangePassword?) && s.demo.Some?
  }

  /** The row holds the highest version so far. */
  ghost predicate AtTop(s: State) {
    s.demo.Some? ==> s.demo.value.version == s.top
  }

  lemma UndisturbedStep(s: State, e: Event)
    requires Versioned(s) && AtTop(s) && Enabled(s, e) && Undisturbed(s, e)
    ensures AtTop(Apply(s, e)) && s.top <= Apply(s, e).top
    ensures Renews(s, e) ==> Apply(s, e).top == s.top + 1
  {
  }

  lemma {:induction false} UndisturbedRun(states: seq<State>, events: seq<Event>, m: nat, n: nat)
    requires Run(states, events) && m <= n < |states|
    requires forall k :: 0 <= k < |events| ==> Undisturbed(states[k], events[k])
    ensures AtTop(states[n]) && states[m].top <= states[n].top
  {
    if n > 0 {
      UndisturbedRun(states, events, if m < n then m else n - 1, n - 1);
      RunKeepsInv(states, events, n - 1);
      assert StepAt(states, events, n - 1);
      UndisturbedStep(states[n - 1], events[n - 1]);
    }
  }

  /**
   When no two replacements overlap, a token that carries a version and was minted before a
   replacement or password change is refused at every moment after it.
   */
  lemma OldTokensRefused(states: seq<State>, events: seq<Event>, m: nat, k: nat, n: nat, token: nat, now: int)
    requires Run(states, events) && m <= k < n < |states|
    requires forall i :: 0 <= i < |events| ==> Undisturbed(states[i], events[i])
    requires token in states[m].minted && Renews(states[k], events[k])
    requires states[n].demo.Some?
    ensures !Admits(states[n].demo.value, Some(token), now)
  {
    RunKeepsInv(states, events, m);
    RunKeepsInv(states, events, k);
    UndisturbedRun(states, events, m, k);
    UndisturbedRun(states, events, k + 1, n);
    assert StepAt(states, events, k);
    UndisturbedStep(states[k], events[k]);
  }

  /** Every token that could have been minted for one of these versions is refused, at any time. */
  ghost predicate RefusesAll(s: State, held: set<nat>) {
    s.demo.Some? ==> forall v: nat, now: int :: v in held ==> !Admits(s.demo.value, Some(v), now)
  }

  /** With the versions 1 to `top` behind it, a demo refuses all their tokens exactly when it holds a higher one. */
  lemma RefusesAllIff(s: State, held: set<nat>, top: nat)
    requires s.demo.Some? && s.demo.value.version > 0 && forall v: nat :: v in held <==> 1 <= v <= top
    ensures RefusesAll(s, held) <==> s.demo.value.version > top
  {
    var d := s.demo.value;
    if d.version <= top {
      var now := if d.expiresAt.Some? then d.expiresAt.value - 1 else 0;
      assert d.version in held && Admits(d, Some(d.version), now);
    }
  }

  /** A replacement commits a version read when the row had had fewer versions than `top`. */
  ghost predicate CommitsBelow(s: State, e: Event, top: nat) {
    e.action.ReplaceCommit? && s.demo.Some? && e.action.call in s.swaps && s.swaps[e.action.call] < top
  }

  /** A renewal that puts a version above `top` into the row. */
  ghost predicate RenewsAbove(s: State, e: Event, top: nat) {
    Renews(s, e) && !CommitsBelow(s, e, top) && (e.action.ChangePassword? ==> s.demo.value.version >= top)
  }

  lemma StaysAbove(s: State, e: Event, top: nat)
    requires Enabled(s, e) && !CommitsBelow(s, e, top)
    requires (s.demo.Some? ==> s.demo.value.version > top) || RenewsAbove(s, e, top)
    ensures Apply(s, e).demo.Some? ==> Apply(s, e).demo.value.version > top
  {
  }

  lemma {:induction false} AboveEverAfter(states: seq<State>, events: seq<Event>, k: nat, n: nat, top: nat)
    requires Run(states, events) && k < n < |states| && RenewsAbove(states[k], events[k], top)
    requires forall j :: k <= j < n ==> !CommitsBelow(states[j], events[j], top)
    ensures states[n].demo.Some? ==> states[n].demo.value.version > top
  {
    assert StepAt(states, events, n - 1);
    if k < n - 1 {
      AboveEverAfter(states, events, k, n - 1, top);
    }
    StaysAbove(states[n - 1], events[n - 1], top);
  }

  /** At state `n` every token for a version the row had had by state `k` is refused. */
  ghost predicate RefusedAt(states: seq<State>, k: nat, n: nat)
    requires k < |states| && n < |states|
  {
    RefusesAll(states[n], states[k].held)
  }

  /**
   Exactly when a replacement or password change at event `k` refuses, at every later moment, every
   token that could exist by then: from it on, no replacement commits a version read when the row had
   had fewer versions than by then, and a password change finds the highest version in the row.
   */
  lemma RefusedForEverIff(states: seq<State>, events: seq<Event>, k: nat)
    requires Run(states, events) && k < |events| && Renews(states[k], events[k])
    ensures (forall n :: k < n < |states| ==> RefusedAt(states, k, n)) <==>
            && (events[k].action.ChangePassword? ==> AtTop(states[k]))
            && (forall j :: k <= j < |events| ==> !CommitsBelow(states[j], events[j], states[k].top))
  {
    var top := states[k].top;
    RunKeepsInv(states, events, k);
    if forall n :: k < n < |states| ==> RefusedAt(states, k, n) {
      forall j | k <= j < |events| ensures !CommitsBelow(states[j], events[j], top) {
        if CommitsBelow(states[j], events[j], top) {
          CommitReadmits(states, events, k, j);
        }
      }
      assert RefusedAt(states, k, k + 1);
      RenewalHolds(states, events, k, k);
      RefusesAllIff(states[k + 1], states[k].held, top);
    }
    if && (events[k].action.ChangePassword? ==> AtTop(states[k]))
       && (forall j :: k <= j < |events| ==> !CommitsBelow(states[j], events[j], top))
    {
      forall n | k < n < |states| ensures RefusedAt(states, k, n) {
        AboveEverAfter(states, events, k, n, top);
        if states[n].demo.Some? {
          RefusesAllIff(states[n], states[k].held, top);
        }
      }
    }
  }

  /** What a renewal puts into the row. */
  lemma RenewalHolds(states: seq<State>, events: seq<Event>, k: nat, j: nat)
    requires Run(states, events) && k <= j < |events| && Renews(states[j], events[j])
    ensures states[j + 1].demo.Some? && states[j + 1].demo.value.version > 0
    ensures events[j].action.ReplaceCommit? ==>
      && events[j].action.call in states[j].swaps
      && states[j + 1].demo.value.version == states[j].swaps[events[j].action.call] + 1
    ensures events[j].action.ChangePassword? ==> states[j + 1].demo.value.version == states[j].demo.value.version + 1
    ensures states[j].demo.value.version <= states[j].top
  {
    RunKeepsInv(states, events, j);
    assert StepAt(states, events, j);
  }

  /** A commit below `top` puts an old version back, so its tokens are let through again. */
  lemma CommitReadmits(states: seq<State>, events: seq<Event>, k: nat, j: nat)
    requires Run(states, events) && k <= j < |events| && CommitsBelow(states[j], events[j], states[k].top)
    ensures !RefusedAt(states, k, j + 1)
  {
    RunKeepsInv(states, events, k);
    RenewalHolds(states, events, k, j);
    RefusesAllIff(states[j + 1], states[k].held, states[k].top);
  }

  /**
   Right after a replacement: every token that could exist is refused exactly when the version read
   is the highest the row has had.  While no replacement has overlapped another, that is the version
   in the row.
   */
  lemma ReplacementRefusesIff(states: seq<State>, events: seq<Event>, n: nat)
    requires Run(states, events) && n < |events| && events[n].action.ReplaceCommit? && states[n].demo.Some?
    ensures events[n].action.call in states[n].swaps
    ensures RefusesAll(states[n + 1], states[n].held) <==> states[n].swaps[events[n].action.call] == states[n].top
    ensures AtTop(states[n]) ==>
      (RefusesAll(states[n + 1], states[n].held) <==> Undisturbed(states[n], events[n]))
  {
    RunKeepsInv(states, events, n);
    RenewalHolds(states, events, n, n);
    RefusesAllIff(states[n + 1], states[n].held, states[n].top);
  }

  /** The steps of a run, all at time zero. */
  ghost predicate Plays(states: seq<State>, actions: seq<Action>, events: seq<Event>) {
    && Run(states, events) && |actions| == |events|
    && forall n :: 0 <= n < |events| ==> events[n] == Event(actions[n], 0)
  }

  lemma Play(states: seq<State>, actions: seq<Action>, events: seq<Event>, s: State, a: Action)
    returns (states': seq<State>, actions': seq<Action>, events': seq<Event>, s': State)
    requires Plays(states, actions, events) && states[|events|] == s && Enabled(s, Event(a, 0))
    ensures Plays(states', actions', events') && states'[|events'|] == s' == Apply(s, Event(a, 0))
    ensures actions' == actions + [a] && |states'| == |states| + 1
    ensures forall n :: 0 <= n < |states| ==> states'[n] == states[n]
  {
    s' := Apply(s, Event(a, 0));
    states', actions', events' := states + [s'], actions + [a], events + [Event(a, 0)];
    forall n | 0 <= n < |events'| ensures StepAt(states', events', n) {
      assert n < |events| ==> StepAt(states, events, n);
    }
  }

  /** Login and activation, two replacements that read version 1, the first of them committed, and a login. */
  lemma TwoReplacementsUnderWay()
    returns (states: seq<State>, actions: seq<Action>, events: seq<Event>, s: State)
    ensures Plays(states, actions, events) && |events| == 6 && states[6] == s
    ensures s == State(Some(Demo(Some(0), Some(DEMO_DURATION), 2)), map[], map[1 := 1], 0, {1, 2}, 2, {1, 2}, 1)
  {
    states, actions, events, s := [INIT], [], [], INIT;
    states, actions, events, s := Play(states, actions, events, s, LoginRead(0));
    states, actions, events, s := Play(states, actions, events, s, LoginCommit(0));
    assert s == State(Some(Demo(Some(0), Some(DEMO_DURATION), 1)), map[], map[], 0, {1}, 1, {1}, 1);
    states, actions, events, s := Play(states, actions, events, s, ReplaceRead(0));
    states, actions, events, s := Play(states, actions, events, s, ReplaceRead(1));
    assert s.swaps == map[0 := 1, 1 := 1];
    states, actions, events, s := Play(states, actions, events, s, ReplaceCommit(0));
    states, actions, events, s := Play(states, actions, events, s, LoginRead(1));
  }

  /** Two overlapping replacements write the same version: a token minted between them survives the second. */
  lemma OverlapKeepsToken() returns (states: seq<State>, events: seq<Event>)
    ensures Run(states, events) && |events| == 7 && events[6].action == ReplaceCommit(1)
    ensures 2 in states[6].minted && states[7].demo.Some? && Admits(states[7].demo.value, Some(2), 0)
  {
    var actions, s;
    states, actions, events, s := TwoReplacementsUnderWay();
    states, actions, events, s := Play(states, actions, events, s, ReplaceCommit(1));
  }

  /**
   A refused token can come back: a third replacement reads and commits undisturbed, every earlier
   token is refused, and then the stale second replacement puts their version into the row again.
   */
  lemma RefusedTokenReturns() returns (states: seq<State>, events: seq<Event>)
    ensures Run(states, events) && |events| == 9
    ensures events[7].action == ReplaceCommit(2) && events[8].action == ReplaceCommit(1)
    ensures 2 in states[7].minted && AtTop(states[7]) && Undisturbed(states[7], events[7])
    ensures RefusesAll(states[8], states[7].held)
    ensures states[9].demo.Some? && Admits(states[9].demo.value, Some(2), 0)
  {
    var actions, s;
    states, actions, events, s := TwoReplacementsUnderWay();
    states, actions, events, s := Play(states, actions, events, s, ReplaceRead(2));
    assert s.swaps == map[1 := 1, 2 := 2];
    states, actions, events, s := Play(states, actions, events, s, ReplaceCommit(2));
    ReplacementRefusesIff(states, events, 7);
    states, actions, events, s := Play(states, actions, events, s, ReplaceCommit(1));
  }

  // ---- The services ----

  datatype Admission = NoDemo | Ended | Replaced | Vanished | Served(demo: Demo)

  /** A state of a run with this row, before a step at `now`. */
  ghost predicate Shows(s: State, row: Option<Demo>, now: int) {
    s.demo == row && s.clock <= now
  }

  /** A pending demo. */
  predicate Waiting(row: Option<Demo>, now: int) {
    row.Some? && StatusAt(row.value, now) == Known(Pending)
  }

  /** A login call in progress that read `version`. */
  ghost predicate LoggingIn(s: State, row: Option<Demo>, now: int, call: nat, version: nat) {
    Shows(s, row, now) && call in s.logins && s.logins[call] == version
  }

  /** A replacement in progress that read `version`. */
  ghost predicate Replacing(s: State, row: Option<Demo>, now: int, call: nat, version: nat) {
    Shows(s, row, now) && call in s.swaps && s.swaps[call] == version
  }

  /** The row of one demo and the operations on it; `elsewhere` is the row as other transactions leave it meanwhile. */
  class Account {
    var demo: Option<Demo>

    constructor ()
      ensures demo == Some(Demo(None, None, 1))
    {
      demo := Some(Demo(None, None, 1));
    }

    /** An expired demo is deleted; then a version that is not the row's is refused. */
    method EnsureDemoRequest(version: Option<nat>, now: int) returns (r: Admission)
      modifies this
      ensures r.NoDemo? <==> old(demo).None?
      ensures r.Ended? <==> old(demo).Some? && IsExpired(old(demo).value, now)
      ensures demo == if r.Ended? then None else old(demo)
      ensures r.Served? <==> old(demo).Some? && Admits(old(demo).value, version, now)
      ensures r.Served? ==> Some(r.demo) == demo
      ensures !r.Vanished?
      ensures forall s: State :: Shows(s, old(demo), now) ==> Apply(s, Event(Request, now)).demo == demo
    {
      if demo.None? {
        return NoDemo;
      }
      if IsExpired(demo.value, now) {
        demo := None;
        return Ended;
      }
      if version.Some? && version.value != demo.value.version {
        return Replaced;
      }
      return Served(demo.value);
    }

    /**
     The conditional update starts the demo only if nobody else has; the returned row shows the start
     that won.  Up to the pending test this is the login's read step, from any state with this row;
     the rest is its commit step, from any state with the row as it is by then, and the token gets the
     version of the returned row.
     */
    method ActivateDemoForLogin(now: int, later: int, elsewhere: Option<Demo>) returns (r: Admission)
      modifies this
      ensures !Waiting(old(demo), now) ==> demo == if r.Ended? then None else old(demo)
      ensures Waiting(old(demo), now) ==>
        && demo == (if elsewhere.Some? && elsewhere.value.activatedAt.None? && elsewhere.value.expiresAt.None?
                    then Some(Started(elsewhere.value, later)) else elsewhere)
        && (r.Vanished? <==> elsewhere.None?)
      ensures r.Ended? <==> old(demo).Some? && IsExpired(old(demo).value, now)
      ensures r.Served? ==>
        && demo.Some?
        && r.demo.activatedAt == demo.value.activatedAt && r.demo.expiresAt == demo.value.expiresAt
      ensures r.Served? ==> r.demo.version == old(demo).value.version || r.demo == demo.value
      ensures !Waiting(old(demo), now) ==> forall s: State, call: nat :: Shows(s, old(demo), now) ==>
        var next := Apply(s, Event(LoginRead(call), now));
        next.demo == demo && next.minted == if r.Served? then s.minted + {r.demo.version} else s.minted
      ensures Waiting(old(demo), now) ==> forall s: State, call: nat :: Shows(s, old(demo), now) ==>
        LoggingIn(Apply(s, Event(LoginRead(call), now)), old(demo), now, call, old(demo).value.version)
      ensures Waiting(old(demo), now) ==> forall s: State, call: nat ::
        LoggingIn(s, elsewhere, later, call, old(demo).value.version) ==>
        var next := Apply(s, Event(LoginCommit(call), later));
        next.demo == demo && next.minted == if r.Served? then s.minted + {r.demo.version} else s.minted
    {
      r := EnsureDemoRequest(None, now);
      if !r.Served? || StatusAt(r.demo, now) != Known(Pending) {
        return;
      }
      demo := elsewhere;
      if demo.Some? && demo.value.activatedAt.None? && demo.value.expiresAt.None? {
        demo := Some(Started(demo.value, later));
        return Served(Started(r.demo, later));
      }
      return if demo.None? then Vanished else Served(demo.value);
    }

    /**
     The new version is the one read plus one, whatever the row holds by then: the replacement's read
     step at `now`, from any state with this row, and its commit step at `later`.
     */
    method ReplaceDemoCredentials(now: int, later: int, elsewhere: Option<Demo>) returns (r: Admission)
      modifies this
      ensures r.NoDemo? <==> old(demo).None?
      ensures r.Ended? <==> old(demo).Some? && IsExpired(old(demo).value, now)
      ensures r.NoDemo? || r.Ended? ==> demo == old(demo)
      ensures !(r.NoDemo? || r.Ended?) ==>
        && demo == (if elsewhere.None? then None else Some(elsewhere.value.(version := old(demo).value.version + 1)))
        && r == (if elsewhere.None? then Vanished else Served(demo.value))
      ensures forall s: State, call: nat :: Shows(s, old(demo), now) ==>
        var next := Apply(s, Event(ReplaceRead(call), now));
        && next.demo == old(demo)
        && (!(r.NoDemo? || r.Ended?) ==> Replacing(next, old(demo), now, call, old(demo).value.version))
      ensures !(r.NoDemo? || r.Ended?) ==> forall s: State, call: nat ::
        Replacing(s, elsewhere, later, call, old(demo).value.version) ==>
        Apply(s, Event(ReplaceCommit(call), later)).demo == demo
    {
      if demo.None? {
        return NoDemo;
      }
      if IsExpired(demo.value, now) {
        return Ended;
      }
      var read := demo.value.version;
      demo := elsewhere;
      if demo.None? {
        return Vanished;
      }
      demo := Some(demo.value.(version := read + 1));
      return Served(demo.value);
    }
  }
}
