/**
 The delivery log that keeps a code from being delivered twice
 (backend/app/repositories/mailbox_dedupe_repository.py), with its two partial unique indexes
 (backend/app/models/mail_code_delivery_log.py).  Each operation is one step and reads the clock once.
 */
module DeliveryLog {
  import opened Common
  import opened Sorting

  datatype Identity = Identity(
    tenant: string, mailbox: string, service: string, messageId: Option<string>, fingerprint: string)

  datatype Row = Row(id: Identity, at: int)

  /** Equality on the columns both indexes share. */
  predicate SameColumns(a: Identity, b: Identity) {
    a.tenant == b.tenant && a.mailbox == b.mailbox && a.service == b.service && a.fingerprint == b.fingerprint
  }

  /** The conflict target the insert names: one index covers rows with a message id, the other rows without. */
  predicate Conflicts(row: Row, id: Identity) {
    if id.messageId.None? then row.id.messageId.None? && SameColumns(row.id, id)
    else row.id.messageId.Some? && row.id.messageId.value == id.messageId.value && SameColumns(row.id, id)
  }

  predicate Conflict(rows: seq<Row>, id: Identity) {
    exists i | 0 <= i < |rows| :: Conflicts(rows[i], id)
  }

  /** `is_duplicate`: an empty message id is looked up as a missing one. */
  predicate IsDuplicate(rows: seq<Row>, id: Identity) {
    var wanted := if id.messageId.Some? && id.messageId.value != "" then id.messageId else None;
    exists i | 0 <= i < |rows| :: SameColumns(rows[i].id, id) && rows[i].id.messageId == wanted
  }

  function Inserted(rows: seq<Row>, id: Identity, now: int): seq<Row> {
    if Conflict(rows, id) then rows else rows + [Row(id, now)]
  }

  function Kept(rows: seq<Row>, cutoff: int): seq<Row> {
    Filter((r: Row) => r.at >= cutoff, rows)
  }

  predicate NewerRow(a: Row, b: Row) {
    a.at > b.at
  }

  function Scoped(rows: seq<Row>, tenant: string, mailbox: string, service: string, since: int): seq<Row> {
    Sort(NewerRow, Filter((r: Row) =>
      r.id.tenant == tenant && r.id.mailbox == mailbox && r.id.service == service && r.at >= since, rows))
  }

  function PairOf(r: Row): (Option<string>, string) { (r.id.messageId, r.id.fingerprint) }

  /** `list_delivery_keys_since`. */
  function KeysSince(rows: seq<Row>, tenant: string, mailbox: string, service: string, since: int)
    : seq<(Option<string>, string)>
  {
    Map(PairOf, Scoped(rows, tenant, mailbox, service, since))
  }

  class Log {
    var rows: seq<Row>

    constructor ()
      ensures rows == []
    {
      rows := [];
    }

    method RecordDeliveryAtomic(id: Identity, now: int) returns (ok: bool)
      modifies this
      ensures ok <==> forall i :: 0 <= i < |old(rows)| ==> old(rows)[i].id != id
      ensures rows == Inserted(old(rows), id, now)
    {
      ConflictIsIdentity(rows, id);
      if Conflict(rows, id) {
        return false;
      }
      rows := rows + [Row(id, now)];
      return true;
    }

    /** Deletes the selected rows one by one and counts them. */
    method DeleteOlderThan(cutoff: int) returns (deleted: nat)
      modifies this
      ensures rows == Kept(old(rows), cutoff)
      ensures deleted == |old(rows)| - |rows|
    {
      ghost var before := rows;
      var i := 0;
      deleted := 0;
      while i < |rows|
        invariant 0 <= i <= |rows| && |rows| + deleted == |before|
        invariant rows[..i] == Kept(before[..i + deleted], cutoff)
        invariant rows[i..] == before[i + deleted..]
        decreases |rows| - i
      {
        ghost var j := i + deleted;
        NextRow(rows, i, before, j, cutoff);
        if rows[i].at < cutoff {
          rows := rows[..i] + rows[i + 1..];
          assert rows[i..] == before[j + 1..];
          deleted := deleted + 1;
        } else {
          i := i + 1;
        }
      }
      assert before[..|before|] == before && rows[..|rows|] == rows;
    }
  }

  /** The rows not yet looked at are the same in both lists. */
  lemma NextRow(rows: seq<Row>, i: nat, before: seq<Row>, j: nat, cutoff: int)
    requires i < |rows| && j <= |before| && rows[i..] == before[j..]
    ensures j < |before| && rows[i] == before[j] && rows[i + 1..] == before[j + 1..]
    ensures Kept(before[..j + 1], cutoff) == Kept(before[..j], cutoff) + if rows[i].at >= cutoff then [rows[i]] else []
  {
    assert |rows[i..]| == |before[j..]|;
    assert rows[i] == rows[i..][0] && before[j] == before[j..][0];
    assert rows[i..][1..] == rows[i + 1..] && before[j..][1..] == before[j + 1..];
    assert before[..j + 1] == before[..j] + [before[j]];
    KeptAppend(before[..j], before[j], cutoff);
  }

  lemma KeptAppend(rows: seq<Row>, r: Row, cutoff: int)
    ensures Kept(rows + [r], cutoff) == Kept(rows, cutoff) + if r.at >= cutoff then [r] else []
  {
    FilterAppend((x: Row) => x.at >= cutoff, rows, [r]);
  }

  /** The two partial indexes together index the whole identity. */
  lemma ConflictIsIdentity(rows: seq<Row>, id: Identity)
    ensures Conflict(rows, id) <==> exists i :: 0 <= i < |rows| && rows[i].id == id
  {
    forall r: Row ensures Conflicts(r, id) <==> r.id == id {
    }
  }

  /**
   On every log, an insert succeeds exactly when `is_duplicate` was false, unless the message id is
   the empty string.
   */
  lemma InsertMatchesCheck(rows: seq<Row>, id: Identity)
    requires id.messageId != Some("")
    ensures Conflict(rows, id) <==> IsDuplicate(rows, id)
  {
    ConflictIsIdentity(rows, id);
    forall r: Row ensures SameColumns(r.id, id) && r.id.messageId == id.messageId <==> r.id == id {
    }
  }

  /** The check and the insert agree on all logs exactly for ids whose message id is absent or non-empty. */
  lemma CheckAgreesIff(id: Identity)
    ensures (forall rows :: Conflict(rows, id) <==> IsDuplicate(rows, id)) <==> id.messageId != Some("")
  {
    if id.messageId != Some("") {
      forall rows ensures Conflict(rows, id) <==> IsDuplicate(rows, id) {
        InsertMatchesCheck(rows, id);
      }
    } else {
      EmptyIdSlipsThrough(id, 0);
    }
  }

  /** A delivery recorded under the empty message id conflicts with itself, yet the check does not see it. */
  lemma EmptyIdSlipsThrough(id: Identity, now: int)
    requires id.messageId == Some("")
    ensures Inserted([], id, now) == [Row(id, now)]
    ensures Conflict([Row(id, now)], id) && !IsDuplicate([Row(id, now)], id)
  {
    assert Conflicts([Row(id, now)][0], id);
  }

  // ---- Runs ----

  datatype Event = Insert(id: Identity, now: int) | Purge(now: int)

  function Apply(retention: nat, rows: seq<Row>, e: Event): seq<Row> {
    match e
    case Insert(id, now) => Inserted(rows, id, now)
    case Purge(now) => Kept(rows, now - retention)
  }

  function After(retention: nat, events: seq<Event>, n: nat): seq<Row>
    requires n <= |events|
  {
    if n == 0 then [] else Apply(retention, After(retention, events, n - 1), events[n - 1])
  }

  predicate Delivered(retention: nat, events: seq<Event>, i: nat)
    requires i < |events|
  {
    events[i].Insert? && !Conflict(After(retention, events, i), events[i].id)
  }

  ghost predicate Clocked(events: seq<Event>) {
    forall i, j :: 0 <= i < j < |events| ==> events[i].now <= events[j].now
  }

  /** The retention delete of some event before `n` removed what was delivered at `at`, after step `i`. */
  ghost predicate Dropped(retention: nat, events: seq<Event>, i: nat, n: nat)
    requires i < n <= |events|
  {
    exists k :: i < k < n && events[k].Purge? && events[i].now < events[k].now - retention
  }

  ghost predicate Survivor(retention: nat, events: seq<Event>, n: nat, r: Row, i: nat)
    requires n <= |events|
  {
    i < n && Delivered(retention, events, i) && r == Row(events[i].id, events[i].now)
    && !Dropped(retention, events, i, n)
  }

  /** The table holds exactly the deliveries that no retention delete has reached. */
  lemma {:induction false} TableIsHistory(retention: nat, events: seq<Event>, n: nat, r: Row)
    requires n <= |events|
    ensures r in After(retention, events, n) <==> exists i: nat :: Survivor(retention, events, n, r, i)
  {
    if n > 0 {
      var m := n - 1;
      TableIsHistory(retention, events, m, r);
      forall i: nat ensures Survivor(retention, events, n, r, i) <==>
        || (Survivor(retention, events, m, r, i) && !(events[m].Purge? && r.at < events[m].now - retention))
        || (i == m && Delivered(retention, events, m) && r == Row(events[m].id, events[m].now))
      {
        SurvivorStep(retention, events, n, r, i);
      }
      if Delivered(retention, events, m) && r == Row(events[m].id, events[m].now) {
        assert Survivor(retention, events, n, r, m);
      }
      if exists i: nat :: Survivor(retention, events, m, r, i) {
        var i: nat :| Survivor(retention, events, m, r, i);
        assert r in After(retention, events, n) ==> Survivor(retention, events, n, r, i);
      }
    }
  }

  lemma SurvivorStep(retention: nat, events: seq<Event>, n: nat, r: Row, i: nat)
    requires 0 < n <= |events|
    ensures Survivor(retention, events, n, r, i) <==>
      || (Survivor(retention, events, n - 1, r, i) && !(events[n - 1].Purge? && r.at < events[n - 1].now - retention))
      || (i == n - 1 && Delivered(retention, events, n - 1) && r == Row(events[n - 1].id, events[n - 1].now))
  {
  }

  ghost predicate Distinct(rows: seq<Row>) {
    forall i, j :: 0 <= i < j < |rows| ==> rows[i].id != rows[j].id
  }

  lemma {:induction false} KeptDistinct(rows: seq<Row>, cutoff: int)
    requires Distinct(rows)
    ensures Distinct(Kept(rows, cutoff))
  {
    if rows != [] {
      KeptDistinct(rows[1..], cutoff);
      var rest := Kept(rows[1..], cutoff);
      forall i | 0 <= i < |rest| ensures rest[i].id != rows[0].id {
        assert rest[i] in rows[1..];
        var k :| 0 <= k < |rows[1..]| && rows[1..][k] == rest[i];
        assert rows[k + 1] == rest[i];
      }
    }
  }

  /** In every run no identity appears twice. */
  lemma {:induction false} RunKeepsUnique(retention: nat, events: seq<Event>, n: nat)
    requires n <= |events|
    ensures Distinct(After(retention, events, n))
  {
    if n > 0 {
      RunKeepsUnique(retention, events, n - 1);
      var rows, e := After(retention, events, n - 1), events[n - 1];
      if e.Insert? {
        ConflictIsIdentity(rows, e.id);
      } else {
        KeptDistinct(rows, e.now - retention);
      }
    }
  }

  /** Two successful inserts of one identity are more than the retention period apart. */
  lemma DeliveriesApart(retention: nat, events: seq<Event>, i: nat, j: nat)
    requires Clocked(events) && i < j < |events|
    requires Delivered(retention, events, i) && Delivered(retention, events, j) && events[i].id == events[j].id
    ensures events[i].now + retention < events[j].now
  {
    var r := Row(events[i].id, events[i].now);
    ConflictIsIdentity(After(retention, events, j), events[j].id);
    TableIsHistory(retention, events, j, r);
    assert r !in After(retention, events, j);
    assert !Survivor(retention, events, j, r, i);
    assert Dropped(retention, events, i, j);
  }

  /**
   Inside a window no longer than the retention period, the listing names exactly the deliveries
   of that mailbox and service since then, whatever retention deletes ran in between.
   */
  lemma KeysSinceIsHistory(retention: nat, events: seq<Event>, n: nat, id: Identity, since: int)
    requires Clocked(events) && n <= |events|
    requires forall k :: 0 <= k < n ==> events[k].now - retention <= since
    ensures (id.messageId, id.fingerprint) in
              KeysSince(After(retention, events, n), id.tenant, id.mailbox, id.service, since)
      <==> exists i: nat :: i < n && Delivered(retention, events, i) && events[i].id == id && events[i].now >= since
  {
    var rows := After(retention, events, n);
    InKeysSince(rows, id, since);
    if r :| r in rows && r.id == id && r.at >= since {
      TableIsHistory(retention, events, n, r);
      var i: nat :| Survivor(retention, events, n, r, i);
    }
    if i: nat :| i < n && Delivered(retention, events, i) && events[i].id == id && events[i].now >= since {
      var r := Row(id, events[i].now);
      TableIsHistory(retention, events, n, r);
      assert Survivor(retention, events, n, r, i);
    }
  }

  /** The listing goes from the newest delivery to the oldest. */
  lemma KeysNewestFirst(rows: seq<Row>, tenant: string, mailbox: string, service: string, since: int)
    ensures var scoped, keys := Scoped(rows, tenant, mailbox, service, since),
                                KeysSince(rows, tenant, mailbox, service, since);
            && |keys| == |scoped|
            && (forall i :: 0 <= i < |keys| ==> keys[i] == (scoped[i].id.messageId, scoped[i].id.fingerprint))
            && (forall i, j :: 0 <= i < j < |scoped| ==> scoped[i].at >= scoped[j].at)
  {
    SortSorted(NewerRow, Filter((r: Row) =>
      r.id.tenant == tenant && r.id.mailbox == mailbox && r.id.service == service && r.at >= since, rows));
    var scoped := Scoped(rows, tenant, mailbox, service, since);
    forall i, j | 0 <= i < j < |scoped| ensures !NewerRow(scoped[j], scoped[i]) {
    }
  }

  lemma InKeysSince(rows: seq<Row>, id: Identity, since: int)
    ensures (id.messageId, id.fingerprint) in KeysSince(rows, id.tenant, id.mailbox, id.service, since)
      <==> exists r :: r in rows && r.id == id && r.at >= since
  {
    var scoped := Scoped(rows, id.tenant, id.mailbox, id.service, since);
    var keys := Map(PairOf, scoped);
    SameElements(NewerRow, Filter((r: Row) =>
      r.id.tenant == id.tenant && r.id.mailbox == id.mailbox && r.id.service == id.service && r.at >= since, rows));
    if (id.messageId, id.fingerprint) in keys {
      var i :| 0 <= i < |keys| && keys[i] == (id.messageId, id.fingerprint);
      assert scoped[i] in scoped;
      assert scoped[i].id == id;
    }
    if r :| r in rows && r.id == id && r.at >= since {
      assert r in scoped;
      var i :| 0 <= i < |scoped| && scoped[i] == r;
      assert keys[i] == (id.messageId, id.fingerprint);
    }
  }
}
