/** Multisets of slices, and counting. */
module Bags {

  lemma Split<T>(s: seq<T>, i: nat)
    requires i <= |s|
    ensures multiset(s) == multiset(s[..i]) + multiset(s[i..])
  {
    assert s == s[..i] + s[i..];
  }

  lemma SplitAt<T>(s: seq<T>, lo: nat, i: nat, hi: nat)
    requires lo <= i <= hi <= |s|
    ensures multiset(s[lo..hi]) == multiset(s[lo..i]) + multiset(s[i..hi])
  {
    assert s[lo..hi] == s[lo..i] + s[i..hi];
  }

  /** Replacing one slice by a rearrangement of it keeps the whole bag. */
  lemma ReplaceSlice<T>(s: seq<T>, t: seq<T>, lo: nat, hi: nat)
    requires lo <= hi <= |s| == |t|
    requires s[..lo] == t[..lo] && s[hi..] == t[hi..]
    requires multiset(s[lo..hi]) == multiset(t[lo..hi])
    ensures multiset(s) == multiset(t)
  {
    assert s == s[..lo] + s[lo..hi] + s[hi..];
    assert t == t[..lo] + t[lo..hi] + t[hi..];
  }

  lemma Cancel<T>(a: multiset<T>, x: multiset<T>, y: multiset<T>)
    requires a + x == a + y
    ensures x == y
  {
    assert x == (a + x) - a == (a + y) - a == y;
  }

  lemma CancelAround<T>(n: multiset<T>, m: multiset<T>, x: multiset<T>, y: multiset<T>)
    requires x + n + m == n + y + m
    ensures x == y
  {
    assert x == (x + n + m) - (n + m) == (n + y + m) - (n + m) == y;
  }

  function Count<T>(s: seq<T>, p: T -> bool): nat {
    if s == [] then 0 else (if p(s[0]) then 1 else 0) + Count(s[1..], p)
  }

  lemma {:induction false} CountConcat<T>(s: seq<T>, t: seq<T>, p: T -> bool)
    ensures Count(s + t, p) == Count(s, p) + Count(t, p)
  {
    if s == [] {
      assert s + t == t;
    } else {
      assert (s + t)[1..] == s[1..] + t;
      CountConcat(s[1..], t, p);
    }
  }

  lemma CountSplit<T>(s: seq<T>, i: nat, p: T -> bool)
    requires i <= |s|
    ensures Count(s, p) == Count(s[..i], p) + Count(s[i..], p)
  {
    assert s == s[..i] + s[i..];
    CountConcat(s[..i], s[i..], p);
  }

  lemma CountSnoc<T>(s: seq<T>, x: T, p: T -> bool)
    ensures Count(s + [x], p) == Count(s, p) + (if p(x) then 1 else 0)
  {
    CountConcat(s, [x], p);
  }

  lemma CountUpdate<T>(s: seq<T>, i: nat, x: T, p: T -> bool)
    requires i < |s|
    ensures Count(s[i := x], p) + (if p(s[i]) then 1 else 0) == Count(s, p) + (if p(x) then 1 else 0)
  {
    var u := s[i := x];
    CountSplit(s, i, p);
    CountSplit(u, i, p);
    assert u[..i] == s[..i] && u[i..][1..] == s[i..][1..];
  }

  lemma {:induction false} CountBound<T>(s: seq<T>, p: T -> bool)
    ensures Count(s, p) <= |s|
  {
    if s != [] { CountBound(s[1..], p); }
  }

  lemma {:induction false} CountAll<T>(s: seq<T>, p: T -> bool)
    requires forall i :: 0 <= i < |s| ==> p(s[i])
    ensures Count(s, p) == |s|
  {
    if s != [] { CountAll(s[1..], p); }
  }

  lemma {:induction false} CountNone<T>(s: seq<T>, p: T -> bool)
    requires forall i :: 0 <= i < |s| ==> !p(s[i])
    ensures Count(s, p) == 0
  {
    if s != [] { CountNone(s[1..], p); }
  }

  function Without<T>(s: seq<T>, k: nat): (u: seq<T>)
    requires k < |s|
    ensures |u| == |s| - 1
    ensures multiset(s) == multiset{s[k]} + multiset(u)
  {
    assert s == s[..k] + [s[k]] + s[k + 1..];
    s[..k] + s[k + 1..]
  }

  lemma CountWithout<T>(s: seq<T>, k: nat, p: T -> bool)
    requires k < |s|
    ensures Count(s, p) == Count(Without(s, k), p) + (if p(s[k]) then 1 else 0)
  {
    CountSplit(s, k, p);
    assert s[k..][1..] == s[k + 1..];
    CountConcat(s[..k], s[k + 1..], p);
  }

  /** Counting does not depend on the order. */
  lemma {:induction false} CountOfBag<T>(s: seq<T>, t: seq<T>, p: T -> bool)
    requires multiset(s) == multiset(t)
    ensures Count(s, p) == Count(t, p)
    decreases |s|
  {
    if s == [] {
      assert |t| == |multiset(t)| == |multiset(s)| == 0;
    } else {
      assert s[0] in multiset(t);
      var k :| 0 <= k < |t| && t[k] == s[0];
      assert multiset(Without(s, 0)) == multiset(s) - multiset{s[0]} == multiset(Without(t, k));
      CountOfBag(Without(s, 0), Without(t, k), p);
      CountWithout(s, 0, p);
      CountWithout(t, k, p);
    }
  }
}
