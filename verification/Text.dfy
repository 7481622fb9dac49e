/** Python's order on strings, code point by code point, and the sequences `sorted` makes of a set of strings. */
module Text {
  import opened Sorting

  predicate Less(a: string, b: string) {
    if b == "" then false
    else if a == "" then true
    else if a[0] != b[0] then a[0] < b[0]
    else Less(a[1..], b[1..])
  }

  /** The strings agree up to `k`, where the first ends or has the smaller character. */
  ghost predicate DiffersAt(a: string, b: string, k: int) {
    && 0 <= k <= |a| && k < |b|
    && (forall i :: 0 <= i < k ==> a[i] == b[i])
    && (k == |a| || a[k] < b[k])
  }

  lemma {:induction false} LessIff(a: string, b: string)
    ensures Less(a, b) <==> exists k :: DiffersAt(a, b, k)
  {
    if a != "" && b != "" && a[0] == b[0] {
      LessIff(a[1..], b[1..]);
      if exists k :: DiffersAt(a[1..], b[1..], k) {
        var k :| DiffersAt(a[1..], b[1..], k);
        assert DiffersAt(a, b, k + 1);
      }
      if exists k :: DiffersAt(a, b, k) {
        var k :| DiffersAt(a, b, k);
        assert DiffersAt(a[1..], b[1..], k - 1);
      }
    } else if b != "" {
      assert Less(a, b) ==> DiffersAt(a, b, 0);
      assert forall k :: DiffersAt(a, b, k) ==> k == 0;
    }
  }

  lemma {:induction false} LessTotal(a: string, b: string)
    ensures !Less(a, a)
    ensures Less(a, b) ==> !Less(b, a)
    ensures a != b ==> Less(a, b) || Less(b, a)
  {
    if a != "" {
      LessTotal(a[1..], a[1..]);
      if b != "" && a[0] == b[0] {
        LessTotal(a[1..], b[1..]);
        assert a == [a[0]] + a[1..] && b == [b[0]] + b[1..];
      }
    }
  }

  lemma {:induction false} LessTransitive(a: string, b: string, c: string)
    ensures Less(a, b) && Less(b, c) ==> Less(a, c)
  {
    if a != "" && b != "" && c != "" && a[0] == b[0] == c[0] {
      LessTransitive(a[1..], b[1..], c[1..]);
    }
  }

  lemma LessIsOrder()
    ensures StrictWeakOrder(Less)
  {
    forall x ensures !Less(x, x) {
      LessTotal(x, x);
    }
    forall x, y, z ensures Less(x, y) && Less(y, z) ==> Less(x, z) {
      LessTransitive(x, y, z);
    }
    forall x, y, z ensures Less(x, z) ==> Less(x, y) || Less(y, z) {
      LessTotal(x, y);
      LessTransitive(y, x, z);
    }
  }

  /** `ks` lists the set `s` in strictly ascending order. */
  ghost predicate Lists(ks: seq<string>, s: set<string>) {
    && StrictlyAscending(Less, ks)
    && (forall k :: k in ks <==> k in s)
  }

  lemma ListsUnique(a: seq<string>, b: seq<string>, s: set<string>)
    requires Lists(a, s) && Lists(b, s)
    ensures a == b
  {
    LessIsOrder();
    StrictOrderUnique(Less, (_: string) => 0, a, b);
  }

  lemma InsertLists(k: string, ks: seq<string>, s: set<string>)
    requires Lists(ks, s) && k !in s
    ensures Lists(Insert(Less, k, ks), s + {k})
  {
    LessIsOrder();
    forall y | y in ks ensures Less(k, y) || Less(y, k) {
      LessTotal(k, y);
    }
    InsertStrict(Less, k, ks);
    var r := Insert(Less, k, ks);
    assert forall x :: x in r <==> x in multiset(r);
  }

  /** `sorted(s)` for a set of strings; the iteration order of the set does not matter. */
  method SortedSet(s: set<string>) returns (ks: seq<string>)
    ensures Lists(ks, s)
  {
    ks := [];
    var rest := s;
    while rest != {}
      invariant rest <= s
      invariant Lists(ks, s - rest)
      decreases |rest|
    {
      var k :| k in rest;
      InsertLists(k, ks, s - rest);
      ks := Insert(Less, k, ks);
      rest := rest - {k};
      assert s - rest == (s - (rest + {k})) + {k};
    }
    assert s - rest == s;
  }
}
