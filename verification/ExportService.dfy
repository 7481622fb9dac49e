/**
 The export operations in the form of the code: a table and an object store updated statement by
 statement (backend/app/services/export_service.py, backend/app/services/export_worker.py).
 Every statement that reads the clock finds it later than the one before.
 */
module ExportService {
  import opened Common
  import opened ExportJobs
  import opened ExportProtocol
  import opened ExportAttempts
  import opened ExportCancel
  import opened ExportRuns

  predicate IsExpired(rows: Rows, id: Id, now: int)
    requires id in rows
  {
    rows[id].status == Ready && rows[id].Expired(now)
  }

  /** Exactly the expired ready rows lose their keys, and exactly their objects whose delete succeeds are gone. */
  ghost predicate CleanedUp(rows: Rows, store: set<Key>, rows': Rows, store': set<Key>, deletes: Id -> bool, now: int) {
    && rows'.Keys == rows.Keys
    && (forall id :: id in rows && !IsExpired(rows, id, now) ==> rows'[id] == rows[id])
    && (forall id :: id in rows && IsExpired(rows, id, now) ==>
          rows'[id] == rows[id].(key := None, readyAt := rows'[id].readyAt))
    && store' <= store
    && (forall k :: k in store && k !in store' ==>
          exists id :: id in rows && IsExpired(rows, id, now) && deletes(id) && rows[id].key == Some(k))
    && (forall id :: id in rows && IsExpired(rows, id, now) && deletes(id) && rows[id].key.Some? ==>
          rows[id].key.value !in store')
  }

  /** The same for the jobs handled so far. */
  ghost predicate Cleaned(rows: Rows, store: set<Key>, rows': Rows, store': set<Key>, deletes: Id -> bool,
                          done: set<Id>)
  {
    && rows'.Keys == rows.Keys && done <= rows.Keys
    && (forall id :: id in rows && id !in done ==> rows'[id] == rows[id])
    && (forall id :: id in done ==> rows'[id] == rows[id].(key := None, readyAt := rows'[id].readyAt))
    && store' <= store
    && (forall k :: k in store && k !in store' ==> exists id :: id in done && deletes(id) && rows[id].key == Some(k))
    && (forall id :: id in done && deletes(id) && rows[id].key.Some? ==> rows[id].key.value !in store')
  }

  function ExpiredJobs(rows: Rows, now: int): set<Id> { set id | id in rows && IsExpired(rows, id, now) }

  lemma CleanedAll(rows: Rows, store: set<Key>, rows': Rows, store': set<Key>, deletes: Id -> bool, now: int)
    requires Cleaned(rows, store, rows', store', deletes, ExpiredJobs(rows, now))
    ensures CleanedUp(rows, store, rows', store', deletes, now)
  {
    forall k | k in store && k !in store'
      ensures exists id :: id in rows && IsExpired(rows, id, now) && deletes(id) && rows[id].key == Some(k)
    {
      var id :| id in ExpiredJobs(rows, now) && deletes(id) && rows[id].key == Some(k);
      assert id in rows && IsExpired(rows, id, now);
    }
  }

  lemma CleanupKeepsDownloads(rows: Rows, store: set<Key>, rows': Rows, store': set<Key>, deletes: Id -> bool, now: int)
    requires CleanedUp(rows, store, rows', store', deletes, now)
    ensures forall u: Tenant :: Downloadable(rows', u, now) == Downloadable(rows, u, now)
  {
    forall u: Tenant, id: Id ensures id in Downloadable(rows', u, now) <==> id in Downloadable(rows, u, now) {
    }
  }

  /** What is left of the store when the object of one row is deleted, if the delete succeeds. */
  function StoreAfter(store: set<Key>, key: Option<Key>, deleted: bool): set<Key> {
    if key.Some? && deleted then store - {key.value} else store
  }

  lemma CleanedOneMore(rows: Rows, store: set<Key>, rows1: Rows, store1: set<Key>, deletes: Id -> bool,
        done: set<Id>, id: Id, now: int)
    requires Cleaned(rows, store, rows1, store1, deletes, done) && id in rows && id !in done
    ensures Cleaned(rows, store, rows1[id := rows1[id].(key := None, readyAt := Some(now))],
                    StoreAfter(store1, rows1[id].key, deletes(id)), deletes, done + {id})
  {
    var store2 := StoreAfter(store1, rows1[id].key, deletes(id));
    forall k | k in store && k !in store2 ensures exists i :: i in done + {id} && deletes(i) && rows[i].key == Some(k) {
      if k in store1 {
        assert id in done + {id} && deletes(id) && rows[id].key == Some(k);
      } else {
        var i :| i in done && deletes(i) && rows[i].key == Some(k);
        assert i in done + {id};
      }
    }
  }

  /**
   The table, the store and the clock after `confirm_replacement_ready`, whose statements read the
   clock at `t1` (ready commit), `t2` (read of the previous job), `t3` (delete) and `t4` (clearing commit).
   */
  function Swapped(s: State, job: Id, key: Key, deleted: bool, t1: int, t2: int, t3: int, t4: int): State {
    var rows1 := Updated(s.rows, job, Readied(key, t1), t1);
    var prev := if job in rows1 then rows1[job].replaced else None;
    if prev.Some? && prev.value in rows1 && rows1[prev.value].key.Some? then
      var read := rows1[prev.value];
      State(Updated(rows1, prev.value, Emptied(read), t4),
            if deleted then s.store - {read.key.value} else s.store, s.minted, Idle, t4)
    else State(rows1, s.store, s.minted, Idle, t2)
  }

  /** The swap is two or four steps of the protocol, so everything proved about runs applies to it. */
  lemma SwappedIsRun(s: State, deleted: bool, t1: int, t2: int, t3: int, t4: int)
    returns (states: seq<State>, events: seq<Event>)
    requires s.worker.Confirming? && s.worker.job in s.rows && s.clock < t1 < t2 < t3 < t4
    ensures Run(states, events) && states[0] == s
    ensures states[|events|] == Swapped(s, s.worker.job, s.worker.key, deleted, t1, t2, t3, t4)
  {
    var e1, e2 := Event(t1, MarkReady), Event(t2, ReadPrevious);
    var s1, s2 := SwapHead(s, t1, t2);
    states, events := [s, s1, s2], [e1, e2];
    assert StepAt(states, events, 0) && StepAt(states, events, 1);
    if s2.worker.Swapping? {
      var s3, s4, tail := SwapTail(s2, deleted, t3, t4);
      states, events := states + [s3, s4], events + tail;
      assert StepAt(states, events, 0) && StepAt(states, events, 1);
      assert StepAt(states, events, 2) && StepAt(states, events, 3);
    }
  }

  lemma SwapHead(s: State, t1: int, t2: int) returns (s1: State, s2: State)
    requires s.worker.Confirming? && s.worker.job in s.rows && s.clock < t1 < t2
    ensures Enabled(s, Event(t1, MarkReady)) && s1 == Apply(s, Event(t1, MarkReady))
    ensures Enabled(s1, Event(t2, ReadPrevious)) && s2 == Apply(s1, Event(t2, ReadPrevious))
    ensures s2.rows == Updated(s.rows, s.worker.job, Readied(s.worker.key, t1), t1)
    ensures s2.store == s.store && s2.minted == s.minted && s2.clock == t2 && s.worker.job in s2.rows
    ensures var prev := s2.rows[s.worker.job].replaced;
            s2.worker == if prev.Some? && prev.value in s2.rows && s2.rows[prev.value].key.Some?
                         then Swapping(s.worker.job, prev.value, s2.rows[prev.value]) else Idle
  {
    s1 := Apply(s, Event(t1, MarkReady));
    s2 := Apply(s1, Event(t2, ReadPrevious));
  }

  lemma SwapTail(s2: State, deleted: bool, t3: int, t4: int) returns (s3: State, s4: State, tail: seq<Event>)
    requires s2.worker.Swapping? && s2.worker.read.key.Some? && s2.clock < t3 < t4
    ensures tail == [Event(t3, PurgePrevious(deleted)), Event(t4, ClearPrevious)]
    ensures Enabled(s2, tail[0]) && s3 == Apply(s2, tail[0]) && Enabled(s3, tail[1]) && s4 == Apply(s3, tail[1])
    ensures s4.store == (if deleted then s2.store - {s2.worker.read.key.value} else s2.store)
    ensures s4.rows == Updated(s2.rows, s2.worker.prev, Emptied(s2.worker.read), t4)
    ensures s4.minted == s2.minted && s4.worker == Idle && s4.clock == t4
  {
    tail := [Event(t3, PurgePrevious(deleted)), Event(t4, ClearPrevious)];
    s3 := Apply(s2, tail[0]);
    s4 := Apply(s3, tail[1]);
  }

  /** The same from any earlier state of a run. */
  lemma SwapReached(from: State, s: State, deleted: bool, t1: int, t2: int, t3: int, t4: int)
    requires Reaches(from, s) && s.worker.Confirming? && s.worker.job in s.rows && s.clock < t1 < t2 < t3 < t4
    ensures Reaches(from, Swapped(s, s.worker.job, s.worker.key, deleted, t1, t2, t3, t4))
  {
    var s1, s2 := SwapHead(s, t1, t2);
    ReachesNext(from, s, Event(t1, MarkReady));
    ReachesNext(from, s1, Event(t2, ReadPrevious));
    if s2.worker.Swapping? {
      var s3, s4, tail := SwapTail(s2, deleted, t3, t4);
      ReachesNext(from, s2, tail[0]);
      ReachesNext(from, s3, tail[1]);
    }
  }

  /** The key of the job that `job` replaces. */
  function PreviousKey(rows: Rows, job: Id): set<Key> {
    set p | p in rows && job in rows && rows[job].replaced == Some(p) && rows[p].key.Some? :: rows[p].key.value
  }

  /**
   Job `id` is ready with this key, 72 hours to live, a new cooldown and no lease; the job it replaces
   has lost its key; no other row has changed.  Attempts of `id` may have been counted meanwhile.
   */
  ghost predicate SwapDone(rows: Rows, rows': Rows, id: Id, key: Key) {
    && id in rows && rows'.Keys == rows.Keys
    && rows'[id].readyAt.Some?
    && rows'[id] == rows[id].(status := Ready, key := Some(key), attempts := rows'[id].attempts,
                              readyAt := rows'[id].readyAt, leaseExpires := None,
                              expiresAt := Some(rows'[id].readyAt.value + EXPORT_TTL),
                              cooldownUntil := Some(rows'[id].readyAt.value + COOLDOWN))
    && (forall i :: i in rows && i != id && rows[id].replaced != Some(i) ==> rows'[i] == rows[i])
    && (forall p :: p in rows && rows[id].replaced == Some(p) && rows[p].status == Ready ==>
          rows'[p] == rows[p].(key := None, readyAt := rows'[p].readyAt))
  }

  /** After the swap the new job holds the new key, the old one none, and nothing else has changed. */
  lemma SwappedOutcome(s: State, job: Id, key: Key, deleted: bool, t1: int, t2: int, t3: int, t4: int)
    requires job in s.rows && s.rows[job].replaced != Some(job)
    ensures var s' := Swapped(s, job, key, deleted, t1, t2, t3, t4);
            && SwapDone(s.rows, s'.rows, job, key)
            && s'.rows[job].readyAt == Some(t1) && s'.rows[job].attempts == s.rows[job].attempts
            && s'.store == if deleted then s.store - PreviousKey(s.rows, job) else s.store
  {
    var prev := s.rows[job].replaced;
    if prev.Some? && prev.value in s.rows && s.rows[prev.value].key.Some? {
      assert PreviousKey(s.rows, job) == {s.rows[prev.value].key.value};
    } else {
      assert PreviousKey(s.rows, job) == {};
    }
  }

  /** Row `c` has got the link to its replacement and a new ready time, nothing else. */
  ghost predicate Relinked(rows: Rows, rows': Rows, c: Id, id: Id) {
    && c in rows && c in rows'
    && rows'[c] == rows[c].(readyAt := rows'[c].readyAt, replacement := Some(id))
  }

  /** A new pending job and the link to it change no download. */
  lemma RequestKeepsDownloads(rows: Rows, rows': Rows, id: Id, current: Option<Id>, now: int)
    requires id !in rows && rows'.Keys == rows.Keys + {id} && rows'[id].status == Pending
    requires forall i :: i in rows && current != Some(i) ==> rows'[i] == rows[i]
    requires current.Some? ==> Relinked(rows, rows', current.value, id)
    ensures forall u: Tenant :: Downloadable(rows', u, now) == Downloadable(rows, u, now)
  {
  }

  /** No row but `id` has changed. */
  ghost predicate OnlyRow(rows: Rows, rows': Rows, id: Id) {
    rows'.Keys == rows.Keys && forall i :: i in rows && i != id ==> rows'[i] == rows[i]
  }

  /** After so many failures of job `id`, which is active again: only its counter, status and lease differ. */
  ghost predicate Retried(rows: Rows, rows': Rows, id: Id, failures: nat) {
    && id in rows && OnlyRow(rows, rows', id) && rows'[id].Active()
    && rows'[id] == rows[id].(attempts := rows[id].attempts + failures, status := rows'[id].status,
                              leaseExpires := rows'[id].leaseExpires)
  }

  /** How one attempt goes: an exception may come before or after its upload. */
  datatype Attempt = Succeeds | FailsEarly | FailsUploaded

  /** The keys of the objects that the first `n` attempts uploaded before they failed. */
  ghost function Leftovers(plan: nat -> Attempt, keys: nat -> Key, n: nat): set<Key> {
    set a: nat | a < n && plan(a).FailsUploaded? :: keys(a)
  }

  /** Between two attempts, after so many failures: from `s0`, when the job was claimed, to `s`. */
  ghost predicate BetweenAttempts(s0: State, s: State, id: Id, plan: nat -> Attempt, keys: nat -> Key,
                                  failures: nat, slept: nat)
  {
    && Retried(s0.rows, s.rows, id, failures)
    && s.store == s0.store + Leftovers(plan, keys, failures)
    && (forall a: nat :: a >= failures ==> keys(a) !in s.minted)
    && (forall a: nat :: a < failures ==> !plan(a).Succeeds?)
    && slept == BackoffTotal(failures) && s.clock >= s0.clock + slept * 1_000_000
    && Reaches(s0, s)
  }

  lemma OneMoreLeftover(plan: nat -> Attempt, keys: nat -> Key, n: nat)
    ensures Leftovers(plan, keys, n + 1) ==
              if plan(n).FailsUploaded? then Leftovers(plan, keys, n) + {keys(n)} else Leftovers(plan, keys, n)
  {
  }

  /** What one failed attempt does to the table, given that it is not cancelled. */
  ghost predicate CountedFailure(rows: Rows, rows': Rows, id: Id, last: bool) {
    && id in rows && OnlyRow(rows, rows', id)
    && rows'[id] == rows[id].(attempts := rows[id].attempts + 1, status := if last then Failed else Pending,
                              leaseExpires := if last then rows[id].leaseExpires else None)
  }

  lemma RetriedOnceMore(rows0: Rows, rows: Rows, rows': Rows, id: Id, failures: nat, last: bool)
    requires Retried(rows0, rows, id, failures) && CountedFailure(rows, rows', id, last)
    ensures OnlyRow(rows0, rows', id) && rows'[id].attempts == rows0[id].attempts + failures + 1
    ensures rows[id].maxAttempts == rows0[id].maxAttempts
    ensures if last then rows'[id].status == Failed else Retried(rows0, rows', id, failures + 1)
  {
  }

  /** What the next failed attempt does to the table, the store, the clock and the keys. */
  ghost predicate FailsOnceMore(s: State, s': State, id: Id, plan: nat -> Attempt, keys: nat -> Key, failures: nat,
                                seconds: nat, last: bool)
  {
    && !plan(failures).Succeeds?
    && CountedFailure(s.rows, s'.rows, id, last) && (last <==> failures + 1 >= s.rows[id].maxAttempts)
    && s'.store == s.store + (if plan(failures).FailsUploaded? then {keys(failures)} else {})
    && s'.minted == s.minted + (if plan(failures).FailsUploaded? then {keys(failures)} else {})
    && seconds == (if last then 0 else BackoffSeconds(failures))
    && s'.clock >= s.clock + seconds * 1_000_000
  }

  lemma TriesAgain(s0: State, s: State, s': State, id: Id, plan: nat -> Attempt, keys: nat -> Key,
        failures: nat, slept: nat, seconds: nat)
    requires BetweenAttempts(s0, s, id, plan, keys, failures, slept) && Reaches(s0, s')
    requires FailsOnceMore(s, s', id, plan, keys, failures, seconds, false)
    requires forall a, b :: a != b ==> keys(a) != keys(b)
    ensures BetweenAttempts(s0, s', id, plan, keys, failures + 1, slept + seconds)
    ensures failures + 1 < s0.rows[id].maxAttempts
  {
    RetriedOnceMore(s0.rows, s.rows, s'.rows, id, failures, false);
    OneMoreLeftover(plan, keys, failures);
  }

  lemma GivesUp(s0: State, s: State, s': State, id: Id, plan: nat -> Attempt, keys: nat -> Key, failures: nat,
        slept: nat)
    requires BetweenAttempts(s0, s, id, plan, keys, failures, slept) && failures < s0.rows[id].maxAttempts
    requires FailsOnceMore(s, s', id, plan, keys, failures, 0, true)
    ensures GaveUp(s0, s', id, plan, keys, failures + 1, slept)
  {
    RetriedOnceMore(s0.rows, s.rows, s'.rows, id, failures, true);
    OneMoreLeftover(plan, keys, failures);
    BackoffBound(failures, s0.rows[id].maxAttempts);
  }

  /**
   All attempts have failed: the job is failed and its failures are counted, nothing else in the table
   has changed, and of the uploads those of failed attempts are left behind.
   */
  ghost predicate GaveUp(s0: State, s: State, id: Id, plan: nat -> Attempt, keys: nat -> Key, failures: nat, slept: nat)
  {
    && id in s0.rows && failures == s0.rows[id].maxAttempts > 0
    && (forall a: nat :: a < failures ==> !plan(a).Succeeds?)
    && OnlyRow(s0.rows, s.rows, id)
    && s.rows[id].status == Failed && s.rows[id].attempts == s0.rows[id].attempts + failures
    && s.store == s0.store + Leftovers(plan, keys, failures)
    && slept == BackoffTotal(failures - 1) && 4 * slept <= Power5(failures) - 5
  }

  /**
   The first attempt that succeeds has made the job ready and replaced the previous one: the new object
   is stored, the previous one is gone if its delete succeeded, and of the failed attempts only what
   they uploaded is left behind.
   */
  ghost predicate Delivered(s0: State, s: State, id: Id, plan: nat -> Attempt, keys: nat -> Key, deleted: bool,
                            failures: nat, slept: nat)
  {
    && id in s0.rows && failures < s0.rows[id].maxAttempts
    && (forall a: nat :: a < failures ==> !plan(a).Succeeds?) && plan(failures).Succeeds?
    && SwapDone(s0.rows, s.rows, id, keys(failures))
    && s.rows[id].attempts == s0.rows[id].attempts + failures
    && s.store == (s0.store + Leftovers(plan, keys, failures) + {keys(failures)})
                  - (if deleted then PreviousKey(s0.rows, id) else {})
    && slept == BackoffTotal(failures) && 4 * slept <= Power5(s0.rows[id].maxAttempts) - 5
  }

  lemma DeliveredAfter(s0: State, s: State, s': State, id: Id, plan: nat -> Attempt, keys: nat -> Key, deleted: bool,
        failures: nat, slept: nat)
    requires BetweenAttempts(s0, s, id, plan, keys, failures, slept) && plan(failures).Succeeds?
    requires failures < s0.rows[id].maxAttempts && s.rows[id].replaced != Some(id)
    requires SwapDone(s.rows, s'.rows, id, keys(failures)) && s'.rows[id].attempts == s.rows[id].attempts
    requires s'.store == (s.store + {keys(failures)}) - (if deleted then PreviousKey(s.rows, id) else {})
    ensures Delivered(s0, s', id, plan, keys, deleted, failures, slept)
  {
    SwapAfterFailures(s0.rows, s.rows, s'.rows, id, keys(failures), failures);
    BackoffBound(failures, s0.rows[id].maxAttempts);
  }

  /** A swap after some failures is a swap of the table as it was before them, and deletes what it would have then. */
  lemma SwapAfterFailures(rows0: Rows, rows: Rows, rows': Rows, id: Id, key: Key, failures: nat)
    requires Retried(rows0, rows, id, failures) && SwapDone(rows, rows', id, key) && rows[id].replaced != Some(id)
    ensures SwapDone(rows0, rows', id, key) && PreviousKey(rows, id) == PreviousKey(rows0, id)
  {
    forall k ensures k in PreviousKey(rows, id) <==> k in PreviousKey(rows0, id) {
    }
  }

  class Service {
    var rows: Rows
    var store: set<Key>
    var minted: set<Key>
    var clock: int

    constructor ()
      ensures rows == map[] && store == {} && minted == {}
    {
      rows, store, minted, clock := map[], {}, {}, 0;
    }

    /** The protocol state this service is in when the worker is at the given point. */
    ghost function View(worker: Worker): State
      reads this
    {
      State(rows, store, minted, worker, clock)
    }

    method Now() returns (t: int)
      modifies this`clock
      ensures t == clock && clock > old(clock)
    {
      var wait :| wait > 0;
      clock := clock + wait;
      t := clock;
    }

    /** `get_ready_by_tenant` */
    method GetReadyByTenant(t: Tenant, now: int) returns (current: Option<Id>)
      ensures CurrentReady(rows, t, now, current)
    {
      var ready := ReadyRows(rows, t, now);
      if ready == {} {
        return None;
      }
      ghost var newest := CreatedLastExists(rows, ready);
      var c: Id :| c in ready && CreatedLast(rows, ready, c);
      current := Some(c);
    }

    /**
     `request_export`: refused during a cooldown; otherwise a pending job that is linked both ways
     with the current ready job, whose download stays in place.  It is the protocol's request step.
     */
    method RequestExport(t: Tenant, id: Id) returns (accepted: bool, ghost current: Option<Id>)
      requires id !in rows
      modifies this
      ensures clock > old(clock) && store == old(store) && minted == old(minted)
      ensures accepted <==> !WithinCooldown(old(rows), t, clock)
      ensures !accepted ==> rows == old(rows)
      ensures accepted ==> CurrentReady(old(rows), t, clock, current)
      ensures accepted ==>
        && rows.Keys == old(rows).Keys + {id}
        && rows[id].status == Pending && rows[id].tenant == t && rows[id].replaced == current
        && rows[id].cooldownUntil == Some(clock + COOLDOWN) && rows[id].key.None?
        && (forall i :: i in old(rows) && current != Some(i) ==> rows[i] == old(rows)[i])
        && (current.Some? ==> Relinked(old(rows), rows, current.value, id))
        && (current.Some? ==> rows[current.value].readyAt == Some(clock))
      ensures forall u: Tenant :: Downloadable(rows, u, clock) == Downloadable(old(rows), u, clock)
      ensures accepted ==> forall w: Worker ::
        && Enabled(old(View(w)), Event(clock, Request(t, id, current)))
        && View(w) == Apply(old(View(w)), Event(clock, Request(t, id, current)))
    {
      var now := Now();
      current := None;
      if WithinCooldown(rows, t, now) {
        return false, None;
      }
      var found := GetReadyByTenant(t, now);
      current := found;
      ghost var before := rows;
      rows := Created(rows, id, t, MAX_ATTEMPTS, now + COOLDOWN, found, now);
      if found.Some? {
        var c := rows[found.value];
        rows := Updated(rows, found.value, Update(c.status, c.key, c.expiresAt, false, None, Some(id)), now);
      }
      RequestKeepsDownloads(before, rows, id, current, now);
      accepted := true;
    }

    /**
     `cancel_job`: only a pending or processing job, of which nothing changes but status and lease.
     It is the protocol's cancel step; so it is final, whatever the worker does, exactly when the
     worker is not about to overwrite the status.
     */
    method CancelJob(id: Id) returns (cancelled: bool)
      modifies this
      ensures clock > old(clock) && store == old(store) && minted == old(minted)
      ensures cancelled <==> id in old(rows) && old(rows)[id].Active()
      ensures OnlyRow(old(rows), rows, id) && (!cancelled ==> rows == old(rows))
      ensures cancelled ==> rows[id].status == Cancelled && rows[id].leaseExpires.None?
      ensures cancelled ==>
        old(rows)[id] == rows[id].(status := old(rows)[id].status, leaseExpires := old(rows)[id].leaseExpires)
      ensures forall w: Worker :: View(w) == Apply(old(View(w)), Event(clock, Cancel(id)))
      ensures cancelled ==> forall w: Worker :: Inv(old(View(w))) ==> (StaysDown(View(w), id) <==> !Overrides(w, id))
    {
      var now := Now();
      cancelled := id in rows && rows[id].Active();
      if cancelled {
        rows := rows[id := rows[id].(status := Cancelled, leaseExpires := None)];
        forall w: Worker | Inv(old(View(w))) ensures StaysDown(View(w), id) <==> !Overrides(w, id) {
          CancelFinalIff(old(View(w)), Event(now, Cancel(id)), id);
        }
      }
    }

    /** `confirm_replacement_ready`, statement by statement. */
    method ConfirmReplacementReady(job: Id, key: Key, deleted: bool)
      returns (ghost t1: int, ghost t2: int, ghost t3: int, ghost t4: int)
      modifies this
      ensures old(clock) < t1 < t2 < t3 < t4
      ensures View(Idle) == Swapped(old(View(Confirming(job, key))), job, key, deleted, t1, t2, t3, t4)
    {
      var now := Now();
      t1 := now;
      rows := Updated(rows, job, Readied(key, now), now);
      var prev := if job in rows then rows[job].replaced else None;
      now := Now();
      t2, t3, t4 := now, now + 1, now + 2;
      if prev.Some? && prev.value in rows && rows[prev.value].key.Some? {
        var read := rows[prev.value];
        now := Now();
        t3 := now;
        if deleted {
          store := store - {read.key.value};
        }
        now := Now();
        t4 := now;
        rows := Updated(rows, prev.value, Emptied(read), now);
      }
    }

    /** `cleanup_expired_exports`: a loop over the expired ready jobs; a failed delete does not keep the row's key. */
    method CleanupExpired(deletes: Id -> bool) returns (count: nat, ghost now: int)
      modifies this
      ensures old(clock) < now <= clock && minted == old(minted)
      ensures CleanedUp(old(rows), old(store), rows, store, deletes, now)
      ensures count == |ExpiredJobs(old(rows), now)|
      ensures forall id :: id in old(rows) ==>
        if old(rows)[id].status == Ready && old(rows)[id].expiresAt.Some? && old(rows)[id].expiresAt.value < now
        then id in rows && rows[id].key.None? && rows[id].expiresAt == old(rows)[id].expiresAt
        else id in rows && rows[id] == old(rows)[id]
      ensures forall u: Tenant :: Downloadable(rows, u, now) == Downloadable(old(rows), u, now)
    {
      var time := Now();
      now := time;
      var expired := ExpiredJobs(rows, time);
      count := CleanEach(expired, deletes);
      CleanedAll(old(rows), old(store), rows, store, deletes, now);
      CleanupKeepsDownloads(old(rows), old(store), rows, store, deletes, now);
    }

    method CleanEach(jobs: set<Id>, deletes: Id -> bool) returns (count: nat)
      requires forall id :: id in jobs ==> id in rows && rows[id].status == Ready
      modifies this
      ensures clock >= old(clock) && minted == old(minted)
      ensures Cleaned(old(rows), old(store), rows, store, deletes, jobs)
      ensures count == |jobs|
    {
      var rest := jobs;
      count := 0;
      assert jobs - rest == {};
      while rest != {}
        invariant rest <= jobs && count + |rest| == |jobs|
        invariant clock >= old(clock) && minted == old(minted)
        invariant Cleaned(old(rows), old(store), rows, store, deletes, jobs - rest)
        decreases |rest|
      {
        var id :| id in rest;
        ghost var rows1, store1 := rows, store;
        CleanOne(id, deletes(id));
        CleanedOneMore(old(rows), old(store), rows1, store1, deletes, jobs - rest, id, clock);
        assert jobs - (rest - {id}) == jobs - rest + {id};
        rest := rest - {id};
        count := count + 1;
      }
      assert jobs - rest == jobs;
    }

    /** One turn of the cleanup loop. */
    method CleanOne(id: Id, deleted: bool)
      requires id in rows && rows[id].status == Ready
      modifies this
      ensures clock > old(clock) && minted == old(minted)
      ensures rows == old(rows)[id := old(rows)[id].(key := None, readyAt := Some(clock))]
      ensures store == StoreAfter(old(store), old(rows)[id].key, deleted)
    {
      if rows[id].key.Some? && deleted {
        store := store - {rows[id].key.value};
      }
      var now := Now();
      rows := Updated(rows, id, Update(rows[id].status, None, rows[id].expiresAt, false, None, None), now);
    }

    /**
     `_process_job_with_session` for a claimed job whose tenant exists and that nobody cancels.
     `plan(a)` says how attempt `a` goes; `keys(a)` is the key it generates, always a fresh one.
     `slept` counts the one-second sleeps.  The whole call is a run of the protocol.
     */
    method ProcessJob(id: Id, plan: nat -> Attempt, keys: nat -> Key, deleted: bool) returns (slept: nat, failures: nat)
      requires id in rows && rows[id].status == Processing && rows[id].maxAttempts > 0 && rows[id].replaced != Some(id)
      requires forall a :: keys(a) !in minted
      requires forall a, b :: a != b ==> keys(a) != keys(b)
      modifies this
      ensures id in old(rows) && failures <= old(rows)[id].maxAttempts
      ensures if failures < old(rows)[id].maxAttempts
              then Delivered(old(View(Starting(id, 0))), View(Idle), id, plan, keys, deleted, failures, slept)
              else GaveUp(old(View(Starting(id, 0))), View(Idle), id, plan, keys, failures, slept)
      ensures clock >= old(clock) + slept * 1_000_000
      ensures Reaches(old(View(Starting(id, 0))), View(Idle))
    {
      var n := rows[id].maxAttempts;
      slept, failures := 0, 0;
      ghost var from := View(Starting(id, 0));
      ReachesItself(from);
      while true
        invariant 0 <= failures < n
        invariant BetweenAttempts(from, View(Starting(id, failures)), id, plan, keys, failures, slept)
        decreases n - failures
      {
        ghost var s := View(Starting(id, failures));
        if plan(failures).Succeeds? {
          FinishAttempt(from, id, failures, keys(failures), deleted);
          DeliveredAfter(from, s, View(Idle), id, plan, keys, deleted, failures, slept);
          return;
        }
        var seconds, last := FailAttempt(from, id, failures, plan(failures).FailsUploaded?, keys(failures));
        if last {
          GivesUp(from, s, View(Idle), id, plan, keys, failures, slept);
          failures := failures + 1;
          return;
        }
        TriesAgain(from, s, View(Starting(id, failures + 1)), id, plan, keys, failures, slept, seconds);
        failures, slept := failures + 1, slept + seconds;
      }
    }

    /** The first checkpoint of an attempt, passed, and the build. */
    method Begin(ghost from: State, id: Id, attempt: nat)
      requires id in rows && rows[id].status != Cancelled && Reaches(from, View(Starting(id, attempt)))
      modifies this`clock
      ensures clock > old(clock) && Reaches(from, View(Building(id, attempt)))
    {
      ghost var s := View(Starting(id, attempt));
      var now := Now();
      ReachesNext(from, s, Event(now, Checkpoint));
    }

    method UploadObject(ghost from: State, id: Id, attempt: nat, key: Key)
      requires key !in minted && Reaches(from, View(Building(id, attempt)))
      modifies this
      ensures clock > old(clock) && rows == old(rows)
      ensures store == old(store) + {key} && minted == old(minted) + {key}
      ensures Reaches(from, View(Uploaded(id, attempt, key)))
    {
      ghost var s := View(Building(id, attempt));
      var now := Now();
      store, minted := store + {key}, minted + {key};
      ReachesNext(from, s, Event(now, Upload(key)));
    }

    /** An attempt that raises, perhaps after its upload: count it, then give up or back off. */
    method FailAttempt(ghost from: State, id: Id, attempt: nat, uploaded: bool, key: Key)
      returns (slept: nat, last: bool)
      requires id in rows && rows[id].Active() && key !in minted && Reaches(from, View(Starting(id, attempt)))
      modifies this
      ensures last <==> attempt + 1 >= old(rows)[id].maxAttempts
      ensures slept == if last then 0 else BackoffSeconds(attempt)
      ensures clock >= old(clock) + slept * 1_000_000
      ensures store == old(store) + (if uploaded then {key} else {})
      ensures minted == old(minted) + (if uploaded then {key} else {})
      ensures CountedFailure(old(rows), rows, id, last)
      ensures Reaches(from, View(if last then Idle else Starting(id, attempt + 1)))
    {
      Begin(from, id, attempt);
      if uploaded {
        UploadObject(from, id, attempt, key);
      }
      Raise(from, id, attempt, if uploaded then Uploaded(id, attempt, key) else Building(id, attempt));
      last := attempt + 1 >= rows[id].maxAttempts;
      if last {
        ghost var s := View(GivingUp(id));
        Reset(id, Failed, false);
        ReachesNext(from, s, Event(clock, GiveUp));
        slept := 0;
      } else {
        slept := RestAndReset(from, id, attempt);
      }
    }

    /** The exception is caught and the failure counted. */
    method Raise(ghost from: State, id: Id, attempt: nat, ghost at: Worker)
      requires id in rows && (at == Building(id, attempt) || (at.Uploaded? && at.job == id && at.attempt == attempt))
      requires Reaches(from, View(at))
      modifies this`rows, this`clock
      ensures clock > old(clock) && rows == Counted(old(rows), id)
      ensures Reaches(from, View(if attempt + 1 >= rows[id].maxAttempts then GivingUp(id)
                                 else Backoff(id, attempt, BackoffSeconds(attempt))))
    {
      ghost var s := View(at);
      var now := Now();
      ReachesNext(from, s, Event(now, Throw));
      s := View(Raised(id, attempt));
      now := Now();
      rows := Counted(rows, id);
      ReachesNext(from, s, Event(now, CountFailure));
    }

    /** The backoff, then the reset to pending. */
    method RestAndReset(ghost from: State, id: Id, attempt: nat) returns (slept: nat)
      requires id in rows && rows[id].status != Cancelled
      requires Reaches(from, View(Backoff(id, attempt, BackoffSeconds(attempt))))
      modifies this
      ensures slept == BackoffSeconds(attempt) && clock >= old(clock) + slept * 1_000_000
      ensures OnlyRow(old(rows), rows, id) && store == old(store) && minted == old(minted)
      ensures rows[id] == old(rows)[id].(status := Pending, leaseExpires := None)
      ensures Reaches(from, View(Starting(id, attempt + 1)))
    {
      var stopped;
      slept, stopped := Rest(from, id, attempt, BackoffSeconds(attempt));
      ghost var s := View(Backoff(id, attempt, 0));
      Reset(id, Pending, true);
      ReachesNext(from, s, Event(clock, Retry));
    }

    /** `update_status` to a status other than ready. */
    method Reset(id: Id, status: Status, clearLease: bool)
      requires id in rows && status != Ready
      modifies this
      ensures clock > old(clock) && store == old(store) && minted == old(minted)
      ensures OnlyRow(old(rows), rows, id)
      ensures rows[id] == old(rows)[id].(status := status,
                                         leaseExpires := if clearLease then None else old(rows)[id].leaseExpires)
      ensures rows == Updated(old(rows), id, SetStatus(status).(clearLease := clearLease), clock)
    {
      var now := Now();
      rows := Updated(rows, id, SetStatus(status).(clearLease := clearLease), now);
    }

    /** Checkpoint, upload, checkpoint, then the swap. */
    method FinishAttempt(ghost from: State, id: Id, attempt: nat, key: Key, deleted: bool)
      requires id in rows && rows[id].status != Cancelled && rows[id].replaced != Some(id)
      requires key !in minted && Reaches(from, View(Starting(id, attempt)))
      modifies this
      ensures clock > old(clock)
      ensures SwapDone(old(rows), rows, id, key) && rows[id].attempts == old(rows)[id].attempts
      ensures old(clock) < rows[id].readyAt.value <= clock
      ensures store == (old(store) + {key}) - (if deleted then PreviousKey(old(rows), id) else {})
      ensures Reaches(from, View(Idle))
    {
      Begin(from, id, attempt);
      UploadObject(from, id, attempt, key);
      ghost var s := View(Uploaded(id, attempt, key));
      var now := Now();
      ReachesNext(from, s, Event(now, CheckUpload(false)));
      s := View(Confirming(id, key));
      ghost var t1, t2, t3, t4 := ConfirmReplacementReady(id, key, deleted);
      SwappedOutcome(s, id, key, deleted, t1, t2, t3, t4);
      SwapReached(from, s, deleted, t1, t2, t3, t4);
    }

    /** The one-second backoff loop; it stops at the first second that finds the job cancelled. */
    method Rest(ghost from: State, id: Id, attempt: nat, seconds: nat) returns (slept: nat, stopped: bool)
      requires id in rows && Reaches(from, View(Backoff(id, attempt, seconds)))
      modifies this`clock
      ensures slept == if rows[id].status == Cancelled && seconds > 0 then 1 else seconds
      ensures stopped <==> rows[id].status == Cancelled && seconds > 0
      ensures clock >= old(clock) + slept * 1_000_000
      ensures Reaches(from, View(if stopped then Idle else Backoff(id, attempt, 0)))
    {
      slept := 0;
      while slept < seconds
        invariant 0 <= slept <= seconds && clock >= old(clock) + slept * 1_000_000
        invariant rows[id].status == Cancelled ==> slept == 0
        invariant Reaches(from, View(Backoff(id, attempt, seconds - slept)))
      {
        ghost var s := View(Backoff(id, attempt, seconds - slept));
        clock := clock + 1_000_000;
        slept := slept + 1;
        ReachesNext(from, s, Event(clock, BackoffSecond));
        if rows[id].status == Cancelled {
          return slept, true;
        }
      }
      stopped := false;
    }
  }
}
