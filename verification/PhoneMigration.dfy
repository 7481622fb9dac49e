/**
 The migration that rewrites stored phones as bare digits and refuses colliding ones
 (backend/alembic/versions/cd2efe74cae5_normalize_phone_values.py).  Which characters are blank and
 which are digits is a parameter; the migration runs in one transaction.
 */
module PhoneMigration {
  import opened Common

  /** `str.isspace` and `str.isdigit` on one character. */
  datatype Chars = Chars(isSpace: char -> bool, isDigit: char -> bool)

  ghost predicate Sane(c: Chars) {
    && (forall ch :: c.isDigit(ch) ==> !c.isSpace(ch))
    && !c.isDigit('@') && !c.isDigit(':') && !c.isSpace('@') && !c.isSpace(':')
  }

  function StripLeft(c: Chars, s: string): (r: string)
    ensures |r| <= |s| && r == s[|s| - |r|..]
  {
    if s != "" && c.isSpace(s[0]) then StripLeft(c, s[1..]) else s
  }

  function StripRight(c: Chars, s: string): (r: string)
    ensures |r| <= |s| && r == s[..|r|]
  {
    if s != "" && c.isSpace(s[|s| - 1]) then StripRight(c, s[..|s| - 1]) else s
  }

  /** `s.split(ch, 1)[0]`: all of `s` when `ch` does not occur. */
  function Before(ch: char, s: string): (r: string)
    ensures r <= s && ch !in r
    ensures ch !in s ==> r == s
  {
    if s == "" || s[0] == ch then "" else
      assert s == [s[0]] + s[1..];
      [s[0]] + Before(ch, s[1..])
  }

  function Digits(c: Chars, s: string): string {
    Filter(c.isDigit, s)
  }

  function NormalizePhone(c: Chars, value: string): Option<string> {
    var raw := StripRight(c, StripLeft(c, value));
    if raw == "" then None else
      var digits := Digits(c, Before(':', Before('@', raw)));
      if digits == "" then None else Some(digits)
  }

  predicate AllDigits(c: Chars, s: string) {
    forall i :: 0 <= i < |s| ==> c.isDigit(s[i])
  }

  lemma {:induction false} FilterAll(c: Chars, s: string)
    requires AllDigits(c, s)
    ensures Digits(c, s) == s
  {
    if s != "" {
      FilterAll(c, s[1..]);
    }
  }

  lemma DigitsAreDigits(c: Chars, s: string)
    ensures AllDigits(c, Digits(c, s))
  {
    var d := Digits(c, s);
    forall i | 0 <= i < |d| ensures c.isDigit(d[i]) {
      assert d[i] in d;
    }
  }

  /** Every result is a non-empty digit string, and a non-empty digit string is its own result. */
  lemma FixedPointIff(c: Chars, s: string)
    requires Sane(c)
    ensures NormalizePhone(c, s) == Some(s) <==> s != "" && AllDigits(c, s)
  {
    if s != "" && AllDigits(c, s) {
      assert StripRight(c, StripLeft(c, s)) == s;
      assert '@' !in s && ':' !in s;
      FilterAll(c, s);
    }
    ResultIsDigits(c, s);
  }

  lemma ResultIsDigits(c: Chars, value: string)
    ensures NormalizePhone(c, value).Some? ==>
              var d := NormalizePhone(c, value).value;
              d != "" && AllDigits(c, d)
  {
    if NormalizePhone(c, value).Some? {
      DigitsAreDigits(c, Before(':', Before('@', StripRight(c, StripLeft(c, value)))));
    }
  }

  // ---- What the result is made of ----

  /** `p` ends where the first '@' or ':' comes. */
  ghost predicate CutBefore(p: string, rest: string) {
    && '@' !in p && ':' !in p
    && (rest != "" ==> rest[0] == '@' || rest[0] == ':')
  }

  lemma {:induction false} StripLeftKeeps(c: Chars, p: string, rest: string) returns (p': string)
    requires Sane(c) && CutBefore(p, rest)
    ensures CutBefore(p', rest) && StripLeft(c, p + rest) == p' + rest && Digits(c, p') == Digits(c, p)
  {
    p' := p;
    if p != "" && c.isSpace(p[0]) {
      assert (p + rest)[1..] == p[1..] + rest;
      p' := StripLeftKeeps(c, p[1..], rest);
    }
  }

  lemma {:induction false} StripRightKeeps(c: Chars, p: string, rest: string) returns (p': string, rest': string)
    requires Sane(c) && CutBefore(p, rest)
    ensures CutBefore(p', rest') && StripRight(c, p + rest) == p' + rest' && Digits(c, p') == Digits(c, p)
    decreases |p + rest|
  {
    p', rest' := p, rest;
    var s := p + rest;
    if s != "" && c.isSpace(s[|s| - 1]) {
      if rest != "" {
        assert |rest| > 1 && s[..|s| - 1] == p + rest[..|rest| - 1];
        p', rest' := StripRightKeeps(c, p, rest[..|rest| - 1]);
      } else {
        var n := |p| - 1;
        assert p == p[..n] + [p[n]] && s[..|s| - 1] == p[..n] + rest;
        FilterAppend(c.isDigit, p[..n], [p[n]]);
        p', rest' := StripRightKeeps(c, p[..n], rest);
      }
    }
  }

  lemma {:induction false} BeforeBoth(p: string, rest: string)
    requires CutBefore(p, rest)
    ensures Before(':', Before('@', p + rest)) == p
  {
    if p != "" {
      assert (p + rest)[1..] == p[1..] + rest;
      BeforeBoth(p[1..], rest);
    }
  }

  /** Exactly the digits before the first '@' or ':' count, in their order; blanks and anything else do not. */
  lemma NormalizeIs(c: Chars, p: string, rest: string)
    requires Sane(c) && CutBefore(p, rest)
    ensures NormalizePhone(c, p + rest) ==
              if Filter(c.isDigit, p) == "" then None else Some(Filter(c.isDigit, p))
  {
    var p1 := StripLeftKeeps(c, p, rest);
    var p2, rest2 := StripRightKeeps(c, p1, rest);
    BeforeBoth(p2, rest2);
  }

  /** Every stored phone is of that form. */
  lemma {:induction false} CutExists(value: string) returns (p: string, rest: string)
    ensures value == p + rest && CutBefore(p, rest)
  {
    p, rest := "", value;
    if value != "" && value[0] != '@' && value[0] != ':' {
      p, rest := CutExists(value[1..]);
      p := [value[0]] + p;
    }
  }

  lemma NormalizeIdempotent(c: Chars, value: string)
    requires Sane(c) && NormalizePhone(c, value).Some?
    ensures NormalizePhone(c, NormalizePhone(c, value).value) == NormalizePhone(c, value)
  {
    ResultIsDigits(c, value);
    FixedPointIff(c, NormalizePhone(c, value).value);
  }

  /** A normaliser of stored phones; the tables are treated the same whatever it does. */
  type Normaliser = string -> Option<string>

  function PhoneNormaliser(c: Chars): Normaliser {
    s => NormalizePhone(c, s)
  }

  ghost predicate Idempotent(norm: Normaliser) {
    forall s :: norm(s).Some? ==> norm(norm(s).value) == norm(s)
  }

  lemma PhoneNormaliserIdempotent(c: Chars)
    requires Sane(c)
    ensures Idempotent(PhoneNormaliser(c))
  {
    forall s | NormalizePhone(c, s).Some?
      ensures NormalizePhone(c, NormalizePhone(c, s).value) == NormalizePhone(c, s)
    {
      NormalizeIdempotent(c, s);
    }
  }

  // ---- Tables ----

  datatype Row = Row(id: nat, phone: Option<string>)

  /** The primary key. */
  ghost predicate Keyed(rows: seq<Row>) {
    forall i, j :: 0 <= i < j < |rows| ==> rows[i].id != rows[j].id
  }

  function Canon(norm: Normaliser, r: Row): Option<string> {
    if r.phone.None? then None else norm(r.phone.value)
  }

  /** Two rows share canonical digits. */
  predicate Clash(norm: Normaliser, a: Row, b: Row) {
    Canon(norm, a).Some? && Canon(norm, a) == Canon(norm, b)
  }

  ghost predicate Collides(norm: Normaliser, rows: seq<Row>) {
    exists i, j :: 0 <= i < j < |rows| && Clash(norm, rows[i], rows[j])
  }

  ghost predicate CrossCollides(norm: Normaliser, a: seq<Row>, b: seq<Row>) {
    exists i, j :: 0 <= i < |a| && 0 <= j < |b| && Clash(norm, a[i], b[j])
  }

  /** The digits found so far, each with the stored value it came from. */
  ghost predicate Indexed(norm: Normaliser, rows: seq<Row>, canonical: map<string, string>) {
    && (forall i :: 0 <= i < |rows| && Canon(norm, rows[i]).Some? ==> Canon(norm, rows[i]).value in canonical)
    && (forall d :: d in canonical ==> exists i :: 0 <= i < |rows| && Canon(norm, rows[i]) == Some(d))
  }

  ghost predicate Changes(norm: Normaliser, r: Row) {
    Canon(norm, r).Some? && Canon(norm, r) != r.phone
  }

  ghost predicate Planned(norm: Normaliser, rows: seq<Row>, updates: map<nat, string>) {
    && (forall i :: 0 <= i < |rows| ==> (rows[i].id in updates <==> Changes(norm, rows[i])))
    && (forall i :: 0 <= i < |rows| && Changes(norm, rows[i]) ==> updates[rows[i].id] == Canon(norm, rows[i]).value)
    && (forall id :: id in updates ==> exists i :: 0 <= i < |rows| && rows[i].id == id)
  }

  /** One pass over a table: `None` is the collision error. */
  method Scan(norm: Normaliser, rows: seq<Row>) returns (r: Option<(map<string, string>, map<nat, string>)>)
    requires Keyed(rows)
    ensures r.None? <==> Collides(norm, rows)
    ensures r.Some? ==> Indexed(norm, rows, r.value.0) && Planned(norm, rows, r.value.1)
  {
    var canonical: map<string, string>, updates: map<nat, string> := map[], map[];
    for n := 0 to |rows|
      invariant !Collides(norm, rows[..n])
      invariant Indexed(norm, rows[..n], canonical)
      invariant Planned(norm, rows[..n], updates)
    {
      var row := rows[n];
      var digits := Canon(norm, row);
      assert rows[..n + 1] == rows[..n] + [row];
      if digits.Some? {
        if digits.value in canonical {
          var i :| 0 <= i < |rows[..n]| && Canon(norm, rows[..n][i]) == Some(digits.value);
          assert Clash(norm, rows[i], rows[n]);
          return None;
        }
        Unseen(norm, rows[..n], row, canonical);
        canonical := Extended(norm, rows[..n], row, canonical);
      } else {
        Skipped(norm, rows[..n], row, canonical);
      }
      updates := PlanRow(norm, rows[..n], row, updates);
    }
    assert rows[..|rows|] == rows;
    return Some((canonical, updates));
  }

  lemma Unseen(norm: Normaliser, rows: seq<Row>, row: Row, canonical: map<string, string>)
    requires !Collides(norm, rows) && Indexed(norm, rows, canonical)
    requires Canon(norm, row).Some? && Canon(norm, row).value !in canonical
    ensures !Collides(norm, rows + [row])
  {
    forall i, j | 0 <= i < j < |rows + [row]| ensures !Clash(norm, (rows + [row])[i], (rows + [row])[j]) {
      if j < |rows| {
        assert !Clash(norm, rows[i], rows[j]);
      }
    }
  }

  lemma Skipped(norm: Normaliser, rows: seq<Row>, row: Row, canonical: map<string, string>)
    requires !Collides(norm, rows) && Indexed(norm, rows, canonical) && Canon(norm, row).None?
    ensures !Collides(norm, rows + [row]) && Indexed(norm, rows + [row], canonical)
  {
    forall i, j | 0 <= i < j < |rows + [row]| ensures !Clash(norm, (rows + [row])[i], (rows + [row])[j]) {
      if j < |rows| {
        assert !Clash(norm, rows[i], rows[j]);
      }
    }
    forall d | d in canonical ensures exists i :: 0 <= i < |rows + [row]| && Canon(norm, (rows + [row])[i]) == Some(d) {
      var i :| 0 <= i < |rows| && Canon(norm, rows[i]) == Some(d);
      assert (rows + [row])[i] == rows[i];
    }
  }

  method Extended(norm: Normaliser, ghost rows: seq<Row>, row: Row, canonical: map<string, string>)
    returns (r: map<string, string>)
    requires Indexed(norm, rows, canonical) && Canon(norm, row).Some?
    ensures Indexed(norm, rows + [row], r)
  {
    var digits := Canon(norm, row).value;
    r := canonical[digits := row.phone.value];
    forall d | d in r ensures exists i :: 0 <= i < |rows + [row]| && Canon(norm, (rows + [row])[i]) == Some(d) {
      if d == digits {
        assert (rows + [row])[|rows|] == row;
      } else {
        var i :| 0 <= i < |rows| && Canon(norm, rows[i]) == Some(d);
        assert (rows + [row])[i] == rows[i];
      }
    }
  }

  method PlanRow(norm: Normaliser, ghost rows: seq<Row>, row: Row, updates: map<nat, string>)
    returns (r: map<nat, string>)
    requires Keyed(rows + [row]) && Planned(norm, rows, updates)
    ensures Planned(norm, rows + [row], r)
  {
    ghost var all := rows + [row];
    assert all[|rows|] == row;
    assert forall i :: 0 <= i < |rows| ==> all[i] == rows[i] && all[i].id != all[|rows|].id;
    assert row.id !in updates;
    r := updates;
    if Canon(norm, row).Some? && Canon(norm, row) != row.phone {
      r := updates[row.id := Canon(norm, row).value];
    }
    forall id | id in r ensures exists i :: 0 <= i < |all| && all[i].id == id {
      if id == row.id {
        assert all[|rows|] == row;
      } else {
        var i :| 0 <= i < |rows| && rows[i].id == id;
        assert all[i].id == id;
      }
    }
  }

  /** `UPDATE ... FROM (VALUES ...)`: rows whose id is listed get the listed phone. */
  function Updated(rows: seq<Row>, updates: map<nat, string>): seq<Row> {
    Map((r: Row) => if r.id in updates then r.(phone := Some(updates[r.id])) else r, rows)
  }

  function Migrate(norm: Normaliser, r: Row): Row {
    if Canon(norm, r).Some? then r.(phone := Canon(norm, r)) else r
  }

  function Migrated(norm: Normaliser, rows: seq<Row>): seq<Row> {
    Map((r: Row) => Migrate(norm, r), rows)
  }

  lemma UpdatesMigrate(norm: Normaliser, rows: seq<Row>, updates: map<nat, string>)
    requires Planned(norm, rows, updates)
    ensures Updated(rows, updates) == Migrated(norm, rows)
  {
    forall i | 0 <= i < |rows| ensures Updated(rows, updates)[i] == Migrated(norm, rows)[i] {
      assert rows[i].id in updates <==> Changes(norm, rows[i]);
    }
  }

  class Profiles {
    var masters: seq<Row>
    var tenants: seq<Row>

    ghost predicate Valid()
      reads this
    {
      Keyed(masters) && Keyed(tenants)
    }

    constructor (masters: seq<Row>, tenants: seq<Row>)
      requires Keyed(masters) && Keyed(tenants)
      ensures Valid() && this.masters == masters && this.tenants == tenants
    {
      this.masters := masters;
      this.tenants := tenants;
    }

    /** False is the collision error, raised before anything is written. */
    method Upgrade(c: Chars) returns (ok: bool)
      requires Valid()
      modifies this
      ensures Valid()
      ensures ok <==> !Refuses(PhoneNormaliser(c), old(masters), old(tenants))
      ensures !ok ==> masters == old(masters) && tenants == old(tenants)
      ensures ok ==> masters == Migrated(PhoneNormaliser(c), old(masters))
      ensures ok ==> tenants == Migrated(PhoneNormaliser(c), old(tenants))
    {
      var plan := Plan(PhoneNormaliser(c), masters, tenants);
      if plan.None? {
        return false;
      }
      if plan.value.0 != map[] {
        masters := Updated(masters, plan.value.0);
      }
      if plan.value.1 != map[] {
        tenants := Updated(tenants, plan.value.1);
      }
      return true;
    }
  }

  /** Both scans and the comparison across tables; `None` is the error. */
  method Plan(norm: Normaliser, masters: seq<Row>, tenants: seq<Row>)
    returns (plan: Option<(map<nat, string>, map<nat, string>)>)
    requires Keyed(masters) && Keyed(tenants)
    ensures plan.None? <==> Refuses(norm, masters, tenants)
    ensures plan.Some? ==>
      && Updated(masters, plan.value.0) == Migrated(norm, masters)
      && Updated(tenants, plan.value.1) == Migrated(norm, tenants)
  {
    var m := Scan(norm, masters);
    if m.None? {
      return None;
    }
    var t := Scan(norm, tenants);
    if t.None? {
      return None;
    }
    var common := m.value.0.Keys * t.value.0.Keys;
    CommonIsCross(norm, masters, tenants, m.value.0, t.value.0);
    if common != {} {
      return None;
    }
    UpdatesMigrate(norm, masters, m.value.1);
    UpdatesMigrate(norm, tenants, t.value.1);
    return Some((m.value.1, t.value.1));
  }

  /** The migration fails: two rows, of one table or of both, share canonical digits. */
  ghost predicate Refuses(norm: Normaliser, masters: seq<Row>, tenants: seq<Row>) {
    Collides(norm, masters) || Collides(norm, tenants) || CrossCollides(norm, masters, tenants)
  }

  lemma CommonIsCross(norm: Normaliser, a: seq<Row>, b: seq<Row>, ca: map<string, string>, cb: map<string, string>)
    requires Indexed(norm, a, ca) && Indexed(norm, b, cb)
    ensures ca.Keys * cb.Keys != {} <==> CrossCollides(norm, a, b)
  {
    if d :| d in ca.Keys * cb.Keys {
      var i :| 0 <= i < |a| && Canon(norm, a[i]) == Some(d);
      var j :| 0 <= j < |b| && Canon(norm, b[j]) == Some(d);
      assert Clash(norm, a[i], b[j]);
    }
    if i, j :| 0 <= i < |a| && 0 <= j < |b| && Clash(norm, a[i], b[j]) {
      assert Canon(norm, a[i]).value in ca.Keys * cb.Keys;
    }
  }

  // ---- What a successful migration leaves ----

  /** Normalisable rows end at a fixed point of the normaliser; all others are untouched. */
  lemma MigratedRow(norm: Normaliser, rows: seq<Row>, i: nat)
    requires Idempotent(norm) && i < |rows|
    ensures Migrated(norm, rows)[i].id == rows[i].id
    ensures Canon(norm, Migrated(norm, rows)[i]) == Canon(norm, rows[i])
    ensures Canon(norm, rows[i]).Some? ==> Migrated(norm, rows)[i].phone == Canon(norm, rows[i])
    ensures Canon(norm, rows[i]).None? ==> Migrated(norm, rows)[i] == rows[i]
  {
    if Canon(norm, rows[i]).Some? {
      assert norm(Canon(norm, rows[i]).value) == Canon(norm, rows[i]);
    }
  }

  /** After a successful migration no two normalisable rows of the two tables hold the same phone. */
  lemma MigratedPhonesDistinct(norm: Normaliser, masters: seq<Row>, tenants: seq<Row>, i: nat, j: nat)
    requires !Refuses(norm, masters, tenants)
    ensures i < j < |masters| && Canon(norm, masters[i]).Some? && Canon(norm, masters[j]).Some? ==>
              Migrated(norm, masters)[i].phone != Migrated(norm, masters)[j].phone
    ensures i < j < |tenants| && Canon(norm, tenants[i]).Some? && Canon(norm, tenants[j]).Some? ==>
              Migrated(norm, tenants)[i].phone != Migrated(norm, tenants)[j].phone
    ensures i < |masters| && j < |tenants| && Canon(norm, masters[i]).Some? && Canon(norm, tenants[j]).Some? ==>
              Migrated(norm, masters)[i].phone != Migrated(norm, tenants)[j].phone
  {
    if i < j < |masters| {
      assert !Clash(norm, masters[i], masters[j]);
    }
    if i < j < |tenants| {
      assert !Clash(norm, tenants[i], tenants[j]);
    }
    if i < |masters| && j < |tenants| {
      assert !Clash(norm, masters[i], tenants[j]);
    }
  }

  /** Running the migration again succeeds and changes nothing. */
  lemma MigrationIdempotent(norm: Normaliser, masters: seq<Row>, tenants: seq<Row>)
    requires Idempotent(norm) && !Refuses(norm, masters, tenants)
    ensures !Refuses(norm, Migrated(norm, masters), Migrated(norm, tenants))
    ensures Migrated(norm, Migrated(norm, masters)) == Migrated(norm, masters)
    ensures Migrated(norm, Migrated(norm, tenants)) == Migrated(norm, tenants)
  {
    forall i: nat | i < |masters| ensures Canon(norm, Migrated(norm, masters)[i]) == Canon(norm, masters[i]) {
      MigratedRow(norm, masters, i);
    }
    forall i: nat | i < |tenants| ensures Canon(norm, Migrated(norm, tenants)[i]) == Canon(norm, tenants[i]) {
      MigratedRow(norm, tenants, i);
    }
    SameCanonsSameClashes(norm, masters, Migrated(norm, masters), tenants, Migrated(norm, tenants));
    TwiceIsOnce(norm, masters);
    TwiceIsOnce(norm, tenants);
  }

  lemma TwiceIsOnce(norm: Normaliser, rows: seq<Row>)
    requires Idempotent(norm)
    ensures Migrated(norm, Migrated(norm, rows)) == Migrated(norm, rows)
  {
    forall i: nat | i < |rows| ensures Migrated(norm, Migrated(norm, rows))[i] == Migrated(norm, rows)[i] {
      MigratedRow(norm, rows, i);
      MigratedRow(norm, Migrated(norm, rows), i);
    }
  }

  lemma SameCanonsSameClashes(norm: Normaliser, a: seq<Row>, a': seq<Row>, b: seq<Row>, b': seq<Row>)
    requires |a| == |a'| && forall i :: 0 <= i < |a| ==> Canon(norm, a'[i]) == Canon(norm, a[i])
    requires |b| == |b'| && forall i :: 0 <= i < |b| ==> Canon(norm, b'[i]) == Canon(norm, b[i])
    ensures Refuses(norm, a', b') ==> Refuses(norm, a, b)
  {
    if i, j :| 0 <= i < j < |a'| && Clash(norm, a'[i], a'[j]) {
      assert Clash(norm, a[i], a[j]);
    }
    if i, j :| 0 <= i < j < |b'| && Clash(norm, b'[i], b'[j]) {
      assert Clash(norm, b[i], b[j]);
    }
    if i, j :| 0 <= i < |a'| && 0 <= j < |b'| && Clash(norm, a'[i], b'[j]) {
      assert Clash(norm, a[i], b[j]);
    }
  }
}
