/**
 The stable sort behind `list.sort` and `sorted`.  A comparison `lt` plays the role of the
 sort key; `list.sort(reverse=True)` is the same sort under the reversed comparison, because
 Python keeps equal elements in their original order in both directions.
 */
module Sorting {
  import opened Common

  ghost predicate StrictWeakOrder<T(!new)>(lt: (T, T) -> bool) {
    && (forall x :: !lt(x, x))
    && (forall x, y, z :: lt(x, y) && lt(y, z) ==> lt(x, z))
    && (forall x, y, z :: lt(x, z) ==> lt(x, y) || lt(y, z))
  }

  function Insert<T>(lt: (T, T) -> bool, x: T, s: seq<T>): (r: seq<T>)
    ensures multiset(r) == multiset{x} + multiset(s)
    ensures |r| == |s| + 1
  {
    if s == [] then [x]
    else if lt(s[0], x) then
      assert s == [s[0]] + s[1..];
      [s[0]] + Insert(lt, x, s[1..])
    else [x] + s
  }

  function Sort<T>(lt: (T, T) -> bool, s: seq<T>): (r: seq<T>)
    ensures multiset(r) == multiset(s)
    ensures |r| == |s|
  {
    if s == [] then [] else
      assert s == [s[0]] + s[1..];
      Insert(lt, s[0], Sort(lt, s[1..]))
  }

  lemma SameElements<T(!new)>(lt: (T, T) -> bool, s: seq<T>)
    ensures forall x :: x in Sort(lt, s) <==> x in s
  {
    assert forall x :: x in Sort(lt, s) <==> x in multiset(Sort(lt, s));
  }

  /** No element is smaller than one before it. */
  ghost predicate Sorted<T>(lt: (T, T) -> bool, s: seq<T>) {
    forall i, j :: 0 <= i < j < |s| ==> !lt(s[j], s[i])
  }

  lemma {:induction false} InsertSorted<T(!new)>(lt: (T, T) -> bool, x: T, s: seq<T>)
    requires StrictWeakOrder(lt) && Sorted(lt, s)
    ensures Sorted(lt, Insert(lt, x, s))
  {
    if s != [] && lt(s[0], x) {
      InsertSorted(lt, x, s[1..]);
      var rest := Insert(lt, x, s[1..]);
      forall j | 0 <= j < |rest| ensures !lt(rest[j], s[0]) {
        assert rest[j] in multiset(rest);
        assert rest[j] == x || rest[j] in s[1..];
      }
    } else if s != [] {
      forall j | 0 <= j < |s| ensures !lt(s[j], x) {
        assert !lt(s[j], s[0]) && !lt(s[0], x);
      }
    }
  }

  lemma {:induction false} SortSorted<T(!new)>(lt: (T, T) -> bool, s: seq<T>)
    requires StrictWeakOrder(lt)
    ensures Sorted(lt, Sort(lt, s))
  {
    if s != [] {
      SortSorted(lt, s[1..]);
      InsertSorted(lt, s[0], Sort(lt, s[1..]));
    }
  }

  /** Strictly ascending under `lt`. */
  ghost predicate StrictlyAscending<T>(lt: (T, T) -> bool, s: seq<T>) {
    forall i, j :: 0 <= i < j < |s| ==> lt(s[i], s[j])
  }

  lemma {:induction false} InsertStrict<T(!new)>(lt: (T, T) -> bool, x: T, s: seq<T>)
    requires StrictWeakOrder(lt) && StrictlyAscending(lt, s)
    requires forall y :: y in s ==> lt(x, y) || lt(y, x)
    ensures StrictlyAscending(lt, Insert(lt, x, s))
  {
    if s != [] && lt(s[0], x) {
      InsertStrict(lt, x, s[1..]);
      var rest := Insert(lt, x, s[1..]);
      forall j | 0 <= j < |rest| ensures lt(s[0], rest[j]) {
        assert rest[j] in multiset(rest);
        assert rest[j] == x || rest[j] in s[1..];
      }
    } else if s != [] {
      assert s[0] in s;
      assert forall j :: 0 < j < |s| ==> lt(s[0], s[j]);
    }
  }

  /** Elements with pairwise different keys come out strictly ascending. */
  lemma {:induction false} SortStrict<T(!new)>(lt: (T, T) -> bool, s: seq<T>)
    requires StrictWeakOrder(lt)
    requires forall i, j :: 0 <= i < j < |s| ==> lt(s[i], s[j]) || lt(s[j], s[i])
    ensures StrictlyAscending(lt, Sort(lt, s))
  {
    if s != [] {
      SortStrict(lt, s[1..]);
      SameElements(lt, s[1..]);
      InsertStrict(lt, s[0], Sort(lt, s[1..]));
    }
  }

  /** Sorting commutes with a map that preserves the comparison: the sort only looks at keys. */
  lemma {:induction false} SortMap<A, B>(ltA: (A, A) -> bool, ltB: (B, B) -> bool, f: A -> B, s: seq<A>)
    requires forall x, y :: x in s && y in s ==> (ltA(x, y) <==> ltB(f(x), f(y)))
    ensures Map(f, Sort(ltA, s)) == Sort(ltB, Map(f, s))
  {
    if s != [] {
      var rest := Sort(ltA, s[1..]);
      forall y | y in rest ensures y in s {
        assert y in multiset(s[1..]);
      }
      InsertMap(ltA, ltB, f, s[0], rest);
      SortMap(ltA, ltB, f, s[1..]);
      assert Map(f, s)[1..] == Map(f, s[1..]);
    }
  }

  lemma {:induction false} InsertMap<A, B>(ltA: (A, A) -> bool, ltB: (B, B) -> bool, f: A -> B, x: A, s: seq<A>)
    requires forall y :: y in s ==> (ltA(y, x) <==> ltB(f(y), f(x)))
    ensures Map(f, Insert(ltA, x, s)) == Insert(ltB, f(x), Map(f, s))
  {
    if s != [] {
      assert s[0] in s;
      if ltA(s[0], x) {
        InsertMap(ltA, ltB, f, x, s[1..]);
        assert Map(f, s)[1..] == Map(f, s[1..]);
      }
    }
  }

  /** `a` precedes `b`: smaller key, or the same key and an earlier rank. */
  predicate Precedes<T>(lt: (T, T) -> bool, rank: T -> int, a: T, b: T) {
    lt(a, b) || (!lt(b, a) && rank(a) < rank(b))
  }

  ghost predicate StrictlyOrdered<T>(lt: (T, T) -> bool, rank: T -> int, s: seq<T>) {
    forall i, j :: 0 <= i < j < |s| ==> Precedes(lt, rank, s[i], s[j])
  }

  ghost predicate Ascending<T>(rank: T -> int, s: seq<T>) {
    forall i, j :: 0 <= i < j < |s| ==> rank(s[i]) < rank(s[j])
  }

  lemma {:induction false} InsertStable<T(!new)>(lt: (T, T) -> bool, rank: T -> int, x: T, s: seq<T>)
    requires StrictWeakOrder(lt) && StrictlyOrdered(lt, rank, s)
    requires forall y :: y in s ==> rank(x) < rank(y)
    ensures StrictlyOrdered(lt, rank, Insert(lt, x, s))
  {
    if s != [] && lt(s[0], x) {
      InsertStable(lt, rank, x, s[1..]);
      var rest := Insert(lt, x, s[1..]);
      forall j | 0 <= j < |rest| ensures Precedes(lt, rank, s[0], rest[j]) {
        assert rest[j] in multiset(rest);
        if rest[j] != x {
          assert rest[j] in s[1..];
          var k :| 0 <= k < |s[1..]| && s[1..][k] == rest[j];
          assert Precedes(lt, rank, s[0], s[k + 1]);
        }
      }
    } else if s != [] {
      forall j | 0 <= j < |s| ensures Precedes(lt, rank, x, s[j]) {
        assert s[j] in s;
        assert j != 0 ==> Precedes(lt, rank, s[0], s[j]);
        assert !lt(s[j], s[0]) && !lt(s[0], x);
      }
    }
  }

  /** Stability: elements given in rank order come out ordered by key, ties in rank order. */
  lemma {:induction false} SortStable<T(!new)>(lt: (T, T) -> bool, rank: T -> int, s: seq<T>)
    requires StrictWeakOrder(lt) && Ascending(rank, s)
    ensures StrictlyOrdered(lt, rank, Sort(lt, s))
  {
    if s != [] {
      SortStable(lt, rank, s[1..]);
      SameElements(lt, s[1..]);
      InsertStable(lt, rank, s[0], Sort(lt, s[1..]));
    }
  }

  lemma {:induction false} PrecedesAsymmetric<T(!new)>(lt: (T, T) -> bool, rank: T -> int, a: T, b: T)
    requires StrictWeakOrder(lt) && Precedes(lt, rank, a, b)
    ensures !Precedes(lt, rank, b, a)
  {
    assert lt(a, b) && lt(b, a) ==> lt(a, a);
  }

  /** A strictly ordered sequence is determined by the set of its elements. */
  lemma {:induction false} StrictOrderUnique<T(!new)>(lt: (T, T) -> bool, rank: T -> int, s: seq<T>, t: seq<T>)
    requires StrictWeakOrder(lt) && StrictlyOrdered(lt, rank, s) && StrictlyOrdered(lt, rank, t)
    requires forall x :: x in s <==> x in t
    ensures s == t
  {
    assert |s| > 0 ==> s[0] in t;
    assert |t| > 0 ==> t[0] in s;
    if s != [] {
      if s[0] != t[0] {
        var i :| 0 <= i < |s| && s[i] == t[0];
        var j :| 0 <= j < |t| && t[j] == s[0];
        assert Precedes(lt, rank, s[0], s[i]);
        assert Precedes(lt, rank, t[0], t[j]);
        PrecedesAsymmetric(lt, rank, s[0], t[0]);
      }
      forall x ensures x in s[1..] <==> x in t[1..] {
        HeadNotInTail(lt, rank, s);
        HeadNotInTail(lt, rank, t);
        assert x in s <==> x == s[0] || x in s[1..];
        assert x in t <==> x == t[0] || x in t[1..];
      }
      StrictOrderUnique(lt, rank, s[1..], t[1..]);
    }
  }

  lemma HeadNotInTail<T(!new)>(lt: (T, T) -> bool, rank: T -> int, s: seq<T>)
    requires StrictWeakOrder(lt) && StrictlyOrdered(lt, rank, s) && s != []
    ensures s[0] !in s[1..]
  {
    forall i | 1 <= i < |s| ensures s[i] != s[0] {
      assert Precedes(lt, rank, s[0], s[i]);
      PrecedesAsymmetric(lt, rank, s[0], s[i]);
    }
  }

  // ---- Removing one element of a filtered, sorted sequence ----

  function Without<T>(s: seq<T>, i: nat): (r: seq<T>)
    requires i < |s|
    ensures |r| == |s| - 1
  {
    s[..i] + s[i + 1..]
  }

  lemma {:induction false} FilterAscending<T>(rank: T -> int, keep: T -> bool, s: seq<T>)
    requires Ascending(rank, s)
    ensures Ascending(rank, Filter(keep, s))
  {
    if s != [] {
      FilterAscending(rank, keep, s[1..]);
      forall x | x in Filter(keep, s[1..]) ensures rank(s[0]) < rank(x) {
        var i :| 0 <= i < |s[1..]| && s[1..][i] == x;
        assert s[i + 1] == x;
      }
    }
  }

  lemma InWithout<T(!new)>(s: seq<T>, i: nat)
    requires i < |s| && forall a, b :: 0 <= a < b < |s| ==> s[a] != s[b]
    ensures forall x :: x in Without(s, i) <==> x in s && x != s[i]
  {
    var r := Without(s, i);
    forall b | 0 <= b < |r| ensures r[b] in s && r[b] != s[i] {
      assert r[b] == s[if b < i then b else b + 1];
    }
    forall a | 0 <= a < |s| && a != i ensures s[a] in r {
      assert s[a] == r[if a < i then a else a - 1];
    }
  }

  lemma StrictHasNoDuplicates<T(!new)>(lt: (T, T) -> bool, rank: T -> int, s: seq<T>)
    requires StrictWeakOrder(lt) && StrictlyOrdered(lt, rank, s)
    ensures forall a, b :: 0 <= a < b < |s| ==> s[a] != s[b]
  {
    forall a, b | 0 <= a < b < |s| ensures s[a] != s[b] {
      assert Precedes(lt, rank, s[a], s[b]);
      PrecedesAsymmetric(lt, rank, s[a], s[b]);
    }
  }

  lemma WithoutStrict<T(!new)>(lt: (T, T) -> bool, rank: T -> int, s: seq<T>, p: nat)
    requires StrictlyOrdered(lt, rank, s) && p < |s|
    ensures StrictlyOrdered(lt, rank, Without(s, p))
  {
    var r := Without(s, p);
    forall a, b | 0 <= a < b < |r| ensures Precedes(lt, rank, r[a], r[b]) {
      assert r[a] == s[if a < p then a else a + 1];
      assert r[b] == s[if b < p then b else b + 1];
    }
  }

  lemma WithoutAscending<T>(rank: T -> int, s: seq<T>, i: nat)
    requires Ascending(rank, s) && i < |s|
    ensures Ascending(rank, Without(s, i))
  {
    var r := Without(s, i);
    forall a, b | 0 <= a < b < |r| ensures rank(r[a]) < rank(r[b]) {
      assert r[a] == s[if a < i then a else a + 1];
      assert r[b] == s[if b < i then b else b + 1];
    }
  }

  /** Filtering and sorting what is left after a removal removes that one element from the sorted sequence. */
  lemma SortRemoval<T(!new)>(lt: (T, T) -> bool, rank: T -> int, keep: T -> bool, s: seq<T>, i: nat, p: nat)
    requires StrictWeakOrder(lt) && Ascending(rank, s) && i < |s|
    requires p < |Sort(lt, Filter(keep, s))| && Sort(lt, Filter(keep, s))[p] == s[i]
    ensures Ascending(rank, Without(s, i))
    ensures Sort(lt, Filter(keep, Without(s, i))) == Without(Sort(lt, Filter(keep, s)), p)
  {
    var t, before := Without(s, i), Filter(keep, s);
    var order := Sort(lt, before);
    var after := Filter(keep, t);
    WithoutAscending(rank, s, i);
    FilterAscending(rank, keep, s);
    FilterAscending(rank, keep, t);
    SortStable(lt, rank, before);
    SortStable(lt, rank, after);
    WithoutStrict(lt, rank, order, p);
    forall x ensures x in Sort(lt, after) <==> x in Without(order, p) {
      SortedWithout(lt, rank, keep, s, i, p, x);
    }
    StrictOrderUnique(lt, rank, Sort(lt, after), Without(order, p));
  }

  lemma SortedWithout<T(!new)>(lt: (T, T) -> bool, rank: T -> int, keep: T -> bool, s: seq<T>, i: nat, p: nat, x: T)
    requires StrictWeakOrder(lt) && Ascending(rank, s) && i < |s|
    requires p < |Sort(lt, Filter(keep, s))| && Sort(lt, Filter(keep, s))[p] == s[i]
    requires StrictlyOrdered(lt, rank, Sort(lt, Filter(keep, s)))
    ensures x in Sort(lt, Filter(keep, Without(s, i))) <==> x in Without(Sort(lt, Filter(keep, s)), p)
  {
    SameElements(lt, Filter(keep, s));
    SameElements(lt, Filter(keep, Without(s, i)));
    StrictHasNoDuplicates(lt, rank, Sort(lt, Filter(keep, s)));
    InWithout(Sort(lt, Filter(keep, s)), p);
    InWithout(s, i);
  }
}
