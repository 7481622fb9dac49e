/**
 The executor's replay protection: the bounded nonce table (worker/app/protocol/replay.py) behind
 the timestamp test (worker/app/protocol/crypto.py) as the request handler combines them
 (worker/app/main.py).  A request reads the clock once for its timestamp and once for its nonce.
 */
module NonceCache {
  import opened Common

  type Table = map<string, int>

  function Purged(t: Table, now: int): (r: Table)
    ensures forall n :: n in r <==> n in t && t[n] > now
    ensures forall n :: n in r ==> r[n] == t[n]
  {
    map n | n in t && t[n] > now :: t[n]
  }

  datatype Config = Config(ttl: nat, maxEntries: nat, skew: nat)

  ghost predicate ValidConfig(c: Config) {
    c.ttl > 0 && c.maxEntries > 0
  }

  predicate Consumable(c: Config, t: Table, nonce: string, now: int) {
    nonce !in Purged(t, now) && |Purged(t, now)| < c.maxEntries
  }

  function Consumed(c: Config, t: Table, nonce: string, now: int): Table {
    if Consumable(c, t, nonce, now) then Purged(t, now)[nonce := now + c.ttl] else Purged(t, now)
  }

  class NonceCache {
    const config: Config
    var entries: Table

    ghost predicate Valid()
      reads this
    {
      ValidConfig(config) && |entries| <= config.maxEntries
    }

    constructor (config: Config)
      requires ValidConfig(config)
      ensures Valid() && this.config == config && entries == map[]
    {
      this.config := config;
      entries := map[];
    }

    /** Deletes the expired nonces one by one. */
    method Purge(now: int)
      requires Valid()
      modifies this
      ensures Valid() && entries == Purged(old(entries), now)
    {
      var expired := set n | n in entries && entries[n] <= now;
      ghost var before := entries;
      while expired != {}
        invariant expired <= entries.Keys <= before.Keys
        invariant forall n :: n in entries ==> entries[n] == before[n]
        invariant forall n :: n in before ==> (n in entries <==> before[n] > now || n in expired)
        invariant forall n :: n in expired ==> before[n] <= now
        decreases |expired|
      {
        var nonce :| nonce in expired;
        entries := entries - {nonce};
        expired := expired - {nonce};
      }
      assert entries == Purged(before, now);
      PurgeShrinks(before, now);
    }

    method Consume(nonce: string, now: int) returns (ok: bool)
      requires Valid()
      modifies this
      ensures Valid()
      ensures ok == Consumable(config, old(entries), nonce, now)
      ensures entries == Consumed(config, old(entries), nonce, now)
    {
      Purge(now);
      if nonce in entries || |entries| >= config.maxEntries {
        return false;
      }
      entries := entries[nonce := now + config.ttl];
      return true;
    }
  }

  lemma PurgeShrinks(t: Table, now: int)
    ensures |Purged(t, now)| <= |t|
  {
    SubsetSize(Purged(t, now).Keys, t.Keys);
  }

  // ---- Requests ----

  /** A request as it reaches the handler; `genuine` says whether its signature verifies. */
  datatype Request = Request(nonce: string, timestamp: int, genuine: bool, verifiedAt: int, consumedAt: int)

  function Distance(a: int, b: int): int {
    if a < b then b - a else a - b
  }

  /** Identity, timestamp and signature pass: only then is the nonce consumed. */
  predicate Verified(c: Config, r: Request) {
    Distance(r.verifiedAt, r.timestamp) <= c.skew && r.genuine
  }

  function Handled(c: Config, t: Table, r: Request): Table {
    if Verified(c, r) then Consumed(c, t, r.nonce, r.consumedAt) else t
  }

  /** The table after the first `n` requests. */
  function After(c: Config, rs: seq<Request>, n: nat): Table
    requires n <= |rs|
  {
    if n == 0 then map[] else Handled(c, After(c, rs, n - 1), rs[n - 1])
  }

  predicate Accepted(c: Config, rs: seq<Request>, i: nat)
    requires i < |rs|
  {
    Verified(c, rs[i]) && Consumable(c, After(c, rs, i), rs[i].nonce, rs[i].consumedAt)
  }

  /** The clock never goes back, and one request is handled at a time. */
  ghost predicate Clocked(rs: seq<Request>) {
    && (forall i :: 0 <= i < |rs| ==> rs[i].verifiedAt <= rs[i].consumedAt)
    && (forall i, j :: 0 <= i < j < |rs| ==> rs[i].consumedAt <= rs[j].verifiedAt)
  }

  // ---- The table is exactly the acceptances of the last ttl ----

  /** Some request among the first `n` was accepted with this nonce less than a ttl before `now`. */
  ghost predicate Recent(c: Config, rs: seq<Request>, n: nat, nonce: string, now: int)
    requires n <= |rs|
  {
    exists i :: 0 <= i < n && Accepted(c, rs, i) && rs[i].nonce == nonce && now < rs[i].consumedAt + c.ttl
  }

  ghost predicate Past(rs: seq<Request>, n: nat, now: int)
    requires n <= |rs|
  {
    forall i :: 0 <= i < n ==> rs[i].consumedAt <= now
  }

  /** At any moment a nonce is unexpired in the table exactly when it was accepted in the last ttl. */
  lemma {:induction false} TableIsHistory(c: Config, rs: seq<Request>, n: nat, nonce: string, now: int)
    requires Clocked(rs) && n <= |rs| && Past(rs, n, now)
    ensures nonce in Purged(After(c, rs, n), now) <==> Recent(c, rs, n, nonce, now)
  {
    if n > 0 {
      var r := rs[n - 1];
      assert r.consumedAt <= now;
      assert Past(rs, n - 1, now);
      TableIsHistory(c, rs, n - 1, nonce, now);
      RecentStep(c, rs, n, nonce, now);
      var before := After(c, rs, n - 1);
      if Verified(c, r) {
        assert nonce in Purged(Purged(before, r.consumedAt), now) <==> nonce in Purged(before, now);
        if Accepted(c, rs, n - 1) && nonce == r.nonce {
          assert Past(rs, n - 1, r.consumedAt);
          assert After(c, rs, n)[nonce] == r.consumedAt + c.ttl;
          assert nonce !in Purged(before, now);
        }
      }
    }
  }

  lemma RecentStep(c: Config, rs: seq<Request>, n: nat, nonce: string, now: int)
    requires 0 < n <= |rs|
    ensures Recent(c, rs, n, nonce, now) <==>
      || Recent(c, rs, n - 1, nonce, now)
      || (Accepted(c, rs, n - 1) && rs[n - 1].nonce == nonce && now < rs[n - 1].consumedAt + c.ttl)
  {
  }

  /** Two acceptances of one nonce are at least a ttl apart. */
  lemma AcceptancesApart(c: Config, rs: seq<Request>, i: nat, j: nat)
    requires Clocked(rs) && i < j < |rs|
    requires Accepted(c, rs, i) && Accepted(c, rs, j) && rs[i].nonce == rs[j].nonce
    ensures rs[i].consumedAt + c.ttl <= rs[j].consumedAt
  {
    TableIsHistory(c, rs, j, rs[j].nonce, rs[j].consumedAt);
  }

  lemma {:induction false} TableBounded(c: Config, rs: seq<Request>, n: nat)
    requires n <= |rs|
    ensures |After(c, rs, n)| <= c.maxEntries
  {
    if n > 0 {
      TableBounded(c, rs, n - 1);
      PurgeShrinks(After(c, rs, n - 1), rs[n - 1].consumedAt);
    }
  }

  /** Distinct nonces accepted in the last ttl. */
  ghost function RecentNonces(c: Config, rs: seq<Request>, n: nat, now: int): set<string>
    requires n <= |rs|
  {
    set i | 0 <= i < n && Accepted(c, rs, i) && now < rs[i].consumedAt + c.ttl :: rs[i].nonce
  }

  /**
   A verified request is refused exactly when its nonce was accepted in the last ttl or the
   table is full of nonces accepted in the last ttl.
   */
  lemma RefusedExactly(c: Config, rs: seq<Request>, i: nat)
    requires Clocked(rs) && i < |rs| && Verified(c, rs[i])
    ensures !Accepted(c, rs, i) <==>
      || rs[i].nonce in RecentNonces(c, rs, i, rs[i].consumedAt)
      || |RecentNonces(c, rs, i, rs[i].consumedAt)| == c.maxEntries
  {
    var now := rs[i].consumedAt;
    forall n: string ensures n in Purged(After(c, rs, i), now) <==> n in RecentNonces(c, rs, i, now) {
      TableIsHistory(c, rs, i, n, now);
    }
    assert Purged(After(c, rs, i), now).Keys == RecentNonces(c, rs, i, now);
    TableBounded(c, rs, i);
    PurgeShrinks(After(c, rs, i), now);
  }

  // ---- How often one request can get through ----

  /** Positions, in order, of acceptances of one nonce and timestamp. */
  ghost predicate Replays(c: Config, rs: seq<Request>, at: seq<nat>) {
    && (forall a :: 0 <= a < |at| ==> at[a] < |rs| && Accepted(c, rs, at[a]))
    && (forall a, b :: 0 <= a < b < |at| ==> at[a] < at[b])
    && (forall a, b :: 0 <= a < |at| && 0 <= b < |at| ==>
          rs[at[a]].nonce == rs[at[b]].nonce && rs[at[a]].timestamp == rs[at[b]].timestamp)
  }

  lemma {:induction false} ReplaysSpread(c: Config, rs: seq<Request>, at: seq<nat>, a: nat)
    requires Clocked(rs) && Replays(c, rs, at) && a < |at|
    ensures rs[at[0]].consumedAt + a * c.ttl <= rs[at[a]].consumedAt
  {
    if a > 0 {
      ReplaysSpread(c, rs, at, a - 1);
      AcceptancesApart(c, rs, at[a - 1], at[a]);
      assert a * c.ttl == (a - 1) * c.ttl + c.ttl;
    }
  }

  lemma NextMultiple(span: nat, ttl: nat)
    requires ttl > 0
    ensures span < (span / ttl + 1) * ttl
  {
    assert span == (span / ttl) * ttl + span % ttl;
  }

  lemma ProductGrows(a: int, b: int, ttl: nat)
    requires a * ttl < b * ttl
    ensures a < b
  {
  }

  lemma QuotientBound(n: int, ttl: nat, span: nat)
    requires ttl > 0 && n * ttl <= span
    ensures n <= span / ttl
  {
    NextMultiple(span, ttl);
    ProductGrows(n, span / ttl + 1, ttl);
  }

  /** With two clock readings per request, one signed request gets through at most floor(2 skew / ttl) + 2 times. */
  lemma ReplayBound(c: Config, rs: seq<Request>, at: seq<nat>)
    requires ValidConfig(c) && Clocked(rs) && Replays(c, rs, at)
    ensures |at| <= 2 * c.skew / c.ttl + 2
  {
    var n := |at|;
    if n >= 2 {
      ReplaysSpread(c, rs, at, n - 2);
      var first, last := rs[at[0]], rs[at[n - 1]];
      assert rs[at[n - 2]].consumedAt <= last.verifiedAt;
      assert first.timestamp == last.timestamp;
      QuotientBound(n - 2, c.ttl, 2 * c.skew);
    }
  }

  /** With one clock reading per request, at most floor(2 skew / ttl) + 1 times. */
  lemma ReplayBoundOneReading(c: Config, rs: seq<Request>, at: seq<nat>)
    requires ValidConfig(c) && Clocked(rs) && Replays(c, rs, at)
    requires forall i :: 0 <= i < |rs| ==> rs[i].verifiedAt == rs[i].consumedAt
    ensures |at| <= 2 * c.skew / c.ttl + 1
  {
    var n := |at|;
    if n >= 1 {
      ReplaysSpread(c, rs, at, n - 1);
      var first, last := rs[at[0]], rs[at[n - 1]];
      assert first.timestamp == last.timestamp;
      QuotientBound(n - 1, c.ttl, 2 * c.skew);
    }
  }

  // ---- Both bounds are attained ----

  /** `i` times the ttl. */
  function Due(ttl: nat, i: nat): nat {
    if i == 0 then 0 else Due(ttl, i - 1) + ttl
  }

  lemma {:induction false} DueIsMultiple(ttl: nat, i: nat)
    ensures Due(ttl, i) == i * ttl
  {
    if i > 0 {
      DueIsMultiple(ttl, i - 1);
      assert i * ttl == (i - 1) * ttl + ttl;
    }
  }

  lemma {:induction false} DueAscends(ttl: nat, i: nat, j: nat)
    requires i <= j
    ensures Due(ttl, i) <= Due(ttl, j)
  {
    if i < j {
      DueAscends(ttl, i, j - 1);
    }
  }

  /** The request replayed a ttl apart from the earliest moment its timestamp allows. */
  ghost predicate Paced(c: Config, nonce: string, rs: seq<Request>) {
    forall i :: 0 <= i < |rs| ==>
      && rs[i].nonce == nonce && rs[i].timestamp == c.skew && rs[i].genuine
      && 0 <= rs[i].verifiedAt <= 2 * c.skew
      && rs[i].consumedAt == Due(c.ttl, i)
  }

  /** The table that holds nothing but the nonce, about to expire when request `n` comes. */
  function OnlyEntry(c: Config, nonce: string, n: nat): Table {
    if n == 0 then map[] else map[nonce := Due(c.ttl, n)]
  }

  lemma DueIsAccepted(c: Config, nonce: string, rs: seq<Request>, n: nat)
    requires ValidConfig(c) && n < |rs| && Paced(c, nonce, rs)
    ensures Verified(c, rs[n]) && Consumable(c, OnlyEntry(c, nonce, n), nonce, rs[n].consumedAt)
    ensures Handled(c, OnlyEntry(c, nonce, n), rs[n]) == OnlyEntry(c, nonce, n + 1)
  {
    var r := rs[n];
    assert Purged(OnlyEntry(c, nonce, n), r.consumedAt) == map[];
    assert map[][nonce := r.consumedAt + c.ttl] == map[nonce := Due(c.ttl, n + 1)];
  }

  lemma {:induction false} AfterIs(c: Config, rs: seq<Request>, n: nat, expected: nat -> Table)
    requires n <= |rs| && expected(0) == map[]
    requires forall i: nat :: i < n ==> Handled(c, expected(i), rs[i]) == expected(i + 1)
    ensures After(c, rs, n) == expected(n)
  {
    if n > 0 {
      AfterIs(c, rs, n - 1, expected);
      assert Handled(c, expected(n - 1), rs[n - 1]) == expected(n - 1 + 1);
    }
  }

  lemma PacedTable(c: Config, nonce: string, rs: seq<Request>, n: nat)
    requires ValidConfig(c) && n <= |rs| && Paced(c, nonce, rs)
    ensures After(c, rs, n) == OnlyEntry(c, nonce, n)
  {
    var expected := (i: nat) => OnlyEntry(c, nonce, i);
    forall i: nat | i < n ensures Handled(c, expected(i), rs[i]) == expected(i + 1) {
      DueIsAccepted(c, nonce, rs, i);
    }
    AfterIs(c, rs, n, expected);
  }

  lemma PacedAccepted(c: Config, nonce: string, rs: seq<Request>, i: nat)
    requires ValidConfig(c) && i < |rs| && Paced(c, nonce, rs)
    ensures Accepted(c, rs, i)
  {
    PacedTable(c, nonce, rs, i);
    DueIsAccepted(c, nonce, rs, i);
  }

  function Positions(n: nat): seq<nat> {
    seq(n, (i: nat) => i)
  }

  lemma PacedReplays(c: Config, nonce: string, rs: seq<Request>)
    requires ValidConfig(c) && Paced(c, nonce, rs)
    ensures Replays(c, rs, Positions(|rs|))
  {
    forall i: nat | i < |rs| ensures Accepted(c, rs, i) {
      PacedAccepted(c, nonce, rs, i);
    }
  }

  /** Prompt requests: both readings at once. */
  function Prompt(c: Config, nonce: string, n: nat): seq<Request> {
    seq(n, (i: nat) => Request(nonce, c.skew, true, Due(c.ttl, i), Due(c.ttl, i)))
  }

  lemma PromptPaced(c: Config, nonce: string, last: nat)
    requires Due(c.ttl, last) <= 2 * c.skew
    ensures Paced(c, nonce, Prompt(c, nonce, last + 1)) && Clocked(Prompt(c, nonce, last + 1))
  {
    var rs := Prompt(c, nonce, last + 1);
    forall i: nat | i <= last ensures 0 <= rs[i].verifiedAt <= 2 * c.skew {
      DueAscends(c.ttl, i, last);
    }
    forall i: nat, j: nat | i < j <= last ensures rs[i].consumedAt <= rs[j].verifiedAt {
      DueAscends(c.ttl, i, j);
    }
  }

  lemma LastDue(span: nat, ttl: nat)
    requires ttl > 0
    ensures Due(ttl, span / ttl) <= span
  {
    DueIsMultiple(ttl, span / ttl);
  }

  lemma OneReadingAttained(c: Config)
    requires ValidConfig(c)
    ensures exists rs: seq<Request>, at: seq<nat> ::
      && Clocked(rs) && Replays(c, rs, at) && |at| == 2 * c.skew / c.ttl + 1
      && forall i :: 0 <= i < |rs| ==> rs[i].verifiedAt == rs[i].consumedAt
  {
    var last := 2 * c.skew / c.ttl;
    LastDue(2 * c.skew, c.ttl);
    PromptPaced(c, "n", last);
    PacedReplays(c, "n", Prompt(c, "n", last + 1));
    assert |Positions(last + 1)| == last + 1;
  }

  /** A request that stalls between its two readings gets through once more. */
  lemma TwoReadingsAttained(c: Config)
    requires ValidConfig(c)
    ensures exists rs: seq<Request>, at: seq<nat> ::
      Clocked(rs) && Replays(c, rs, at) && |at| == 2 * c.skew / c.ttl + 2
  {
    var last := 2 * c.skew / c.ttl;
    LastDue(2 * c.skew, c.ttl);
    PromptPaced(c, "n", last);
    var rs := Stalled(c, "n", last);
    PacedReplays(c, "n", rs);
    assert |Positions(last + 2)| == last + 2;
  }

  lemma Stalled(c: Config, nonce: string, last: nat) returns (rs: seq<Request>)
    requires Paced(c, nonce, Prompt(c, nonce, last + 1)) && Clocked(Prompt(c, nonce, last + 1))
    requires Due(c.ttl, last) <= 2 * c.skew
    ensures Paced(c, nonce, rs) && Clocked(rs) && |rs| == last + 2
  {
    var prompt := Prompt(c, nonce, last + 1);
    rs := prompt + [Request(nonce, c.skew, true, Due(c.ttl, last), Due(c.ttl, last + 1))];
    assert prompt[last].verifiedAt == Due(c.ttl, last);
  }
}
