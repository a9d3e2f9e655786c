/** Folds that do not depend on the order of what they fold. */
module Permutations {
  import opened Wrappers

  /** The images of the elements `f` accepts, in order. */
  function FilterMap<T, U>(f: T -> Option<U>, s: seq<T>): seq<U> {
    if s == [] then []
    else match f(s[0])
      case Some(u) => [u] + FilterMap(f, s[1..])
      case None => FilterMap(f, s[1..])
  }

  function SumBy<T>(f: T -> nat, s: seq<T>): nat {
    if s == [] then 0 else f(s[0]) + SumBy(f, s[1..])
  }

  lemma {:induction false} FilterMapAppends<T, U>(f: T -> Option<U>, s: seq<T>, t: seq<T>)
    ensures FilterMap(f, s + t) == FilterMap(f, s) + FilterMap(f, t)
  {
    if s == [] {
      assert s + t == t;
    } else {
      assert (s + t)[1..] == s[1..] + t;
      FilterMapAppends(f, s[1..], t);
    }
  }

  lemma {:induction false} SumByAppends<T>(f: T -> nat, s: seq<T>, t: seq<T>)
    ensures SumBy(f, s + t) == SumBy(f, s) + SumBy(f, t)
  {
    if s == [] {
      assert s + t == t;
    } else {
      assert (s + t)[1..] == s[1..] + t;
      SumByAppends(f, s[1..], t);
    }
  }

  /** Where the head of `s` sits in a permutation of `s`, and what is left around it. */
  lemma Extract<T>(s: seq<T>, t: seq<T>) returns (i: nat)
    requires s != [] && multiset(s) == multiset(t)
    ensures i < |t| && t == t[..i] + [s[0]] + t[i + 1..]
    ensures multiset(s[1..]) == multiset(t[..i] + t[i + 1..])
  {
    assert s[0] in multiset(t);
    i :| 0 <= i < |t| && t[i] == s[0];
    assert t == t[..i] + [s[0]] + t[i + 1..];
    assert s == [s[0]] + s[1..];
    var a, b := t[..i], t[i + 1..];
    assert multiset(t) == multiset(a) + multiset{s[0]} + multiset(b);
    assert multiset(s) - multiset{s[0]} == multiset(s[1..]);
    assert multiset(t) - multiset{s[0]} == multiset(a) + multiset(b);
  }

  lemma {:induction false} FilterMapPermutes<T, U>(f: T -> Option<U>, s: seq<T>, t: seq<T>)
    requires multiset(s) == multiset(t)
    ensures multiset(FilterMap(f, s)) == multiset(FilterMap(f, t))
    decreases |s|
  {
    if s == [] {
      assert |t| == |multiset(t)| == 0;
    } else {
      var i := Extract(s, t);
      var a, b := t[..i], t[i + 1..];
      FilterMapPermutes(f, s[1..], a + b);
      FilterMapAppends(f, a, b);
      FilterMapAppends(f, a + [s[0]], b);
      FilterMapAppends(f, a, [s[0]]);
      assert FilterMap(f, [s[0]]) == match f(s[0]) case Some(u) => [u] case None => [];
    }
  }

  lemma {:induction false} SumByPermutes<T>(f: T -> nat, s: seq<T>, t: seq<T>)
    requires multiset(s) == multiset(t)
    ensures SumBy(f, s) == SumBy(f, t)
    decreases |s|
  {
    if s == [] {
      assert |t| == |multiset(t)| == 0;
    } else {
      var i := Extract(s, t);
      var a, b := t[..i], t[i + 1..];
      SumByPermutes(f, s[1..], a + b);
      SumByAppends(f, a, b);
      SumByAppends(f, a + [s[0]], b);
      SumByAppends(f, a, [s[0]]);
      assert SumBy(f, [s[0]]) == f(s[0]);
    }
  }

  ghost predicate DistinctBy<T, K>(key: T -> K, s: seq<T>) {
    forall i, j :: 0 <= i < j < |s| ==> key(s[i]) != key(s[j])
  }

  lemma {:induction false} DistinctByPermutes<T, K>(key: T -> K, s: seq<T>, t: seq<T>)
    requires multiset(s) == multiset(t) && DistinctBy(key, s)
    ensures DistinctBy(key, t)
    decreases |s|
  {
    if s == [] {
      assert |t| == |multiset(t)| == 0;
    } else {
      var k := Extract(s, t);
      var a, b := t[..k], t[k + 1..];
      DistinctByPermutes(key, s[1..], a + b);
      DistinctBesides(key, s, a + b);
      InsertKeepsDistinct(key, a, s[0], b);
    }
  }

  lemma DistinctBesides<T, K>(key: T -> K, s: seq<T>, rest: seq<T>)
    requires s != [] && DistinctBy(key, s) && multiset(s[1..]) == multiset(rest)
    ensures forall i :: 0 <= i < |rest| ==> key(rest[i]) != key(s[0])
  {
    forall i | 0 <= i < |rest|
      ensures key(rest[i]) != key(s[0])
    {
      assert rest[i] in multiset(s[1..]);
      var m :| 0 <= m < |s[1..]| && s[1..][m] == rest[i];
      assert s[m + 1] == rest[i];
    }
  }

  lemma InsertKeepsDistinct<T, K>(key: T -> K, a: seq<T>, x: T, b: seq<T>)
    requires DistinctBy(key, a + b)
    requires forall i :: 0 <= i < |a + b| ==> key((a + b)[i]) != key(x)
    ensures DistinctBy(key, a + [x] + b)
  {
    var t, rest := a + [x] + b, a + b;
    forall i, j | 0 <= i < j < |t|
      ensures key(t[i]) != key(t[j])
    {
      assert i < |a| ==> t[i] == rest[i];
      assert i > |a| ==> t[i] == rest[i - 1];
      assert j < |a| ==> t[j] == rest[j];
      assert j > |a| ==> t[j] == rest[j - 1];
    }
  }
}
