/**
 Rows of the export_jobs table and the statements of
 backend/app/repositories/export_jobs_repository.py as functions on the table.
 Each statement reads the clock once; times are integers (microseconds).
 */
module ExportJobs {
  import opened Common

  type Id = nat
  type Tenant = nat
  type Key = nat

  const HOUR := 3_600_000_000
  const EXPORT_TTL := 72 * HOUR
  const COOLDOWN := 24 * HOUR
  const LEASE := 30 * 60_000_000
  const MAX_ATTEMPTS := 3

  datatype Status = Pending | Processing | Ready | Failed | Cancelled

  datatype Job = Job(tenant: Tenant, status: Status, attempts: nat, maxAttempts: nat, leaseExpires: Option<int>,
                     key: Option<Key>, readyAt: Option<int>, expiresAt: Option<int>, cooldownUntil: Option<int>,
                     replaced: Option<Id>, replacement: Option<Id>, createdAt: int)
  {
    predicate Active() { status == Pending || status == Processing }

    /** `expires_at > now`, which is not true of a null expiry. */
    predicate Unexpired(now: int) { expiresAt.Some? && expiresAt.value > now }

    /** `expires_at < now`. */
    predicate Expired(now: int) { expiresAt.Some? && expiresAt.value < now }
  }

  type Rows = map<Id, Job>

  /** `create` */
  function Created(rows: Rows, id: Id, tenant: Tenant, maxAttempts: nat, cooldownUntil: int,
                   replaced: Option<Id>, now: int): Rows
  {
    rows[id := Job(tenant, Pending, 0, maxAttempts, None, None, None, None, Some(cooldownUntil), replaced, None, now)]
  }

  /** The optional arguments of `update_status`; an absent value leaves the column alone. */
  datatype Update = Update(status: Status, key: Option<Key>, expiresAt: Option<int>, clearLease: bool,
                           cooldownUntil: Option<int>, replacement: Option<Id>)

  function SetStatus(status: Status): Update { Update(status, None, None, false, None, None) }

  /** What the ready commit writes. */
  function Readied(key: Key, now: int): Update {
    Update(Ready, Some(key), Some(now + EXPORT_TTL), true, Some(now + COOLDOWN), None)
  }

  /** What takes the storage key away from a ready job. */
  function Emptied(j: Job): Update { Update(j.status, None, j.expiresAt, false, None, None) }

  /** `update_status`: writing `ready` also stamps `ready_at` and overwrites the storage key. */
  function Updated(rows: Rows, id: Id, u: Update, now: int): Rows {
    if id !in rows then rows
    else
      var j := rows[id].(status := u.status);
      var j := if u.replacement.Some? then j.(replacement := u.replacement) else j;
      var j := if u.status != Ready then j
               else j.(readyAt := Some(now), key := u.key,
                       expiresAt := if u.expiresAt.Some? then u.expiresAt else j.expiresAt);
      var j := if u.cooldownUntil.Some? then j.(cooldownUntil := u.cooldownUntil) else j;
      rows[id := if u.clearLease then j.(leaseExpires := None) else j]
  }

  /** `cancel_job`: one conditional update. */
  function CancelledRows(rows: Rows, id: Id): Rows {
    if id in rows && rows[id].Active() then rows[id := rows[id].(status := Cancelled, leaseExpires := None)] else rows
  }

  /** `increment_attempts` */
  function Counted(rows: Rows, id: Id): Rows {
    if id in rows then rows[id := rows[id].(attempts := rows[id].attempts + 1)] else rows
  }

  predicate Claimable(j: Job, now: int) {
    j.status == Pending && j.attempts < j.maxAttempts && (j.leaseExpires.None? || j.leaseExpires.value < now)
  }

  /** The write of `claim_pending`. */
  function ClaimedRows(rows: Rows, id: Id, now: int): Rows
    requires id in rows
  {
    rows[id := rows[id].(status := Processing, leaseExpires := Some(now + LEASE))]
  }

  /** `is_within_cooldown` finds a row. */
  predicate WithinCooldown(rows: Rows, t: Tenant, now: int) {
    exists id | id in rows :: rows[id].tenant == t && rows[id].cooldownUntil.Some? && rows[id].cooldownUntil.value > now
  }

  function ReadyRows(rows: Rows, t: Tenant, now: int): set<Id> {
    set id | id in rows && rows[id].tenant == t && rows[id].status == Ready && rows[id].Unexpired(now)
  }

  /** `id` was created last among `ids`, ties by id. */
  predicate CreatedLast(rows: Rows, ids: set<Id>, id: Id) {
    && id in ids && id in rows
    && forall j | j in ids :: j in rows ==>
         rows[j].createdAt < rows[id].createdAt || (rows[j].createdAt == rows[id].createdAt && j <= id)
  }

  /** `get_ready_by_tenant`: the unexpired ready job created last. */
  predicate CurrentReady(rows: Rows, t: Tenant, now: int, current: Option<Id>) {
    if current.None? then ReadyRows(rows, t, now) == {} else CreatedLast(rows, ReadyRows(rows, t, now), current.value)
  }

  lemma {:induction false} CreatedLastExists(rows: Rows, ids: set<Id>) returns (id: Id)
    requires ids != {} && ids <= rows.Keys
    ensures CreatedLast(rows, ids, id)
  {
    id :| id in ids;
    if ids != {id} {
      assert ids - {id} != {};
      var other := CreatedLastExists(rows, ids - {id});
      if rows[id].createdAt < rows[other].createdAt || (rows[id].createdAt == rows[other].createdAt && id <= other) {
        id := other;
      }
    }
  }

  /** The candidates of `get_downloadable_job_for_tenant`: ready, keyed, unexpired. */
  function Downloadable(rows: Rows, t: Tenant, now: int): set<Id> {
    set id | id in ReadyRows(rows, t, now) && rows[id].key.Some?
  }

  function ReadyTime(j: Job): int { if j.readyAt.Some? then j.readyAt.value else 0 }

  /** `id` may head the list `ids` ordered by `ready_at` descending; SQL leaves ties open. */
  ghost predicate Heads(rows: Rows, ids: set<Id>, id: Id) {
    id in ids && id in rows && forall j :: j in ids && j in rows ==> ReadyTime(rows[j]) <= ReadyTime(rows[id])
  }

  predicate BeingReplaced(rows: Rows, id: Id)
    requires id in rows
  {
    var r := rows[id].replacement;
    r.Some? && r.value in rows && rows[r.value].Active()
  }

  /** `get_downloadable_job_for_tenant` may answer with `id`. */
  ghost predicate Answers(rows: Rows, t: Tenant, now: int, id: Id) {
    var ids := Downloadable(rows, t, now);
    exists latest :: Heads(rows, ids, latest) &&
                     if BeingReplaced(rows, latest) && ids != {latest}
                     then Heads(rows, ids - {latest}, id) else id == latest
  }

  lemma {:induction false} HeadExists(rows: Rows, ids: set<Id>) returns (id: Id)
    requires ids != {} && ids <= rows.Keys
    ensures Heads(rows, ids, id)
  {
    id :| id in ids;
    if ids != {id} {
      assert ids - {id} != {};
      var other := HeadExists(rows, ids - {id});
      if ReadyTime(rows[other]) > ReadyTime(rows[id]) {
        id := other;
      }
    }
  }

  /** The download query has an answer exactly when some job is downloadable, and only answers with such a job. */
  lemma QueryAnswers(rows: Rows, t: Tenant, now: int)
    ensures (exists id :: Answers(rows, t, now, id)) <==> Downloadable(rows, t, now) != {}
    ensures forall id :: Answers(rows, t, now, id) ==> id in Downloadable(rows, t, now)
  {
    var ids := Downloadable(rows, t, now);
    if ids != {} {
      var latest := HeadExists(rows, ids);
      if BeingReplaced(rows, latest) && ids != {latest} {
        assert ids - {latest} != {};
        var second := HeadExists(rows, ids - {latest});
        assert Answers(rows, t, now, second);
      } else {
        assert Answers(rows, t, now, latest);
      }
    }
  }

  // ---- The same query, row by row ----

  /** Row `i` can be downloaded by the tenant. */
  predicate CanDownload(rows: Rows, t: Tenant, now: int, i: Id) {
    && i in rows && rows[i].tenant == t && rows[i].status == Ready && rows[i].key.Some?
    && rows[i].expiresAt.Some? && now < rows[i].expiresAt.value
  }

  /** Of the tenant's downloads, one of them left out perhaps, none became ready after `i`. */
  ghost predicate NoneLater(rows: Rows, t: Tenant, now: int, without: Option<Id>, i: Id)
    requires i in rows
  {
    forall j: Id :: CanDownload(rows, t, now, j) && without != Some(j) ==> ReadyTime(rows[j]) <= ReadyTime(rows[i])
  }

  /** The job that is to replace `i` is pending or processing. */
  predicate Superseding(rows: Rows, i: Id)
    requires i in rows
  {
    exists r | r in rows ::
      rows[i].replacement == Some(r) && (rows[r].status == Pending || rows[r].status == Processing)
  }

  ghost predicate Chosen(rows: Rows, t: Tenant, now: int, latest: Id, id: Id) {
    && CanDownload(rows, t, now, latest) && NoneLater(rows, t, now, None, latest)
    && if Superseding(rows, latest) && exists j: Id :: j != latest && CanDownload(rows, t, now, j)
       then id != latest && CanDownload(rows, t, now, id) && NoneLater(rows, t, now, Some(latest), id)
       else id == latest
  }

  /**
   The answer is the latest download, unless the job that replaces it is under way and there is another
   download: then it is the latest of the others.
   */
  lemma AnswersIff(rows: Rows, t: Tenant, now: int, id: Id)
    ensures Answers(rows, t, now, id) <==> exists latest :: Chosen(rows, t, now, latest, id)
  {
    var ids := Downloadable(rows, t, now);
    assert forall i: Id :: i in ids <==> CanDownload(rows, t, now, i);
    forall latest: Id
      ensures Chosen(rows, t, now, latest, id) <==>
                Heads(rows, ids, latest)
                && if BeingReplaced(rows, latest) && ids != {latest}
                   then Heads(rows, ids - {latest}, id) else id == latest
    {
      if latest in ids {
        assert ids != {latest} <==> exists j: Id :: j != latest && j in ids;
      }
    }
  }
}
