/** Definitions shared by every component of the model. */
module Common {

  datatype Option<+T> = None | Some(value: T)

  /** `needle in hay` on Python strings. */
  predicate Contains(hay: string, needle: string) {
    exists i {:trigger hay[i..]} | 0 <= i <= |hay| :: needle <= hay[i..]
  }

  lemma PrefixSplits(s: string, prefix: string) returns (rest: string)
    requires prefix <= s
    ensures s == prefix + rest
  {
    rest := s[|prefix|..];
  }

  lemma Reassembled(hay: string, a: string, needle: string, b: string)
    requires a <= hay && hay[|a|..] == needle + b
    ensures hay == a + needle + b
  {
    assert hay == a + hay[|a|..];
  }

  /** In other words: `needle` somewhere between two other parts of `hay`. */
  lemma ContainsIff(hay: string, needle: string)
    ensures Contains(hay, needle) <==> exists a, b :: hay == a + needle + b
  {
    if Contains(hay, needle) {
      var i :| 0 <= i <= |hay| && needle <= hay[i..];
      var b := PrefixSplits(hay[i..], needle);
      Reassembled(hay, hay[..i], needle, b);
    }
    if exists a, b :: hay == a + needle + b {
      var a, b :| hay == a + needle + b;
      assert hay[|a|..] == needle + b;
    }
  }

  function Map<A, B>(f: A -> B, s: seq<A>): (r: seq<B>)
    ensures |r| == |s|
    ensures forall i :: 0 <= i < |s| ==> r[i] == f(s[i])
  {
    if s == [] then [] else [f(s[0])] + Map(f, s[1..])
  }

  function Filter<T>(p: T -> bool, s: seq<T>): (r: seq<T>)
    ensures forall x :: x in r ==> x in s && p(x)
    ensures forall x :: x in s && p(x) ==> x in r
    ensures |r| <= |s|
  {
    if s == [] then []
    else if p(s[0]) then [s[0]] + Filter(p, s[1..])
    else Filter(p, s[1..])
  }

  lemma {:induction false} FilterAppend<T>(p: T -> bool, s: seq<T>, t: seq<T>)
    ensures Filter(p, s + t) == Filter(p, s) + Filter(p, t)
  {
    if s == [] {
      assert s + t == t;
    } else {
      assert (s + t)[1..] == s[1..] + t;
      FilterAppend(p, s[1..], t);
    }
  }

  /** Filtering and mapping commute when the test only looks at the image. */
  lemma {:induction false} FilterMap<A, B>(f: A -> B, p: A -> bool, q: B -> bool, s: seq<A>)
    requires forall x :: x in s ==> (p(x) <==> q(f(x)))
    ensures Map(f, Filter(p, s)) == Filter(q, Map(f, s))
  {
    if s != [] {
      FilterMap(f, p, q, s[1..]);
      assert Map(f, s)[1..] == Map(f, s[1..]);
      assert s[0] in s;
    }
  }

  /** The concatenation of `f(x)` over the elements of `s`. */
  function Flatten<A, B>(f: A -> seq<B>, s: seq<A>): (r: seq<B>) {
    if s == [] then [] else Flatten(f, s[..|s| - 1]) + f(s[|s| - 1])
  }

  lemma {:induction false} InFlatten<A, B>(f: A -> seq<B>, s: seq<A>, y: B)
    ensures y in Flatten(f, s) <==> exists i :: 0 <= i < |s| && y in f(s[i])
  {
    if s != [] {
      var n := |s| - 1;
      InFlatten(f, s[..n], y);
      if i :| 0 <= i < n && y in f(s[..n][i]) {
        assert y in f(s[i]);
      }
      if i :| 0 <= i < |s| && y in f(s[i]) {
        assert i < n ==> y in f(s[..n][i]);
      }
    }
  }

  lemma SubsetSize<T>(a: set<T>, b: set<T>)
    requires a <= b
    ensures |a| <= |b|
  {
    assert b == a + (b - a);
  }
}
