/** Sorting small ranges in place, and recognising sorted or reversed input. */
module BaseCase {
  import opened Order
  import opened Bags

  /** Only a[lo..hi] changed, and it holds the same elements as before. */
  twostate predicate Rearranged<T(!new)>(a: array<T>, lo: nat, hi: nat)
    requires lo <= hi <= a.Length
    reads a
  {
    && a[..lo] == old(a[..lo]) && a[hi..] == old(a[hi..])
    && multiset(a[lo..hi]) == old(multiset(a[lo..hi]))
  }

  /** Position p splits the sorted s around v. */
  ghost predicate Splits<T(!new)>(s: seq<T>, v: T, p: nat, less: (T, T) -> bool)
    requires p <= |s|
  {
    && (forall i :: 0 <= i < p ==> !less(v, s[i]))
    && (forall i :: p <= i < |s| ==> !less(s[i], v))
  }

  lemma SplitsHere<T(!new)>(s: seq<T>, v: T, p: nat, less: (T, T) -> bool)
    requires StrictWeakOrder(less) && Sorted(s, less) && p <= |s|
    requires p > 0 ==> !less(v, s[p - 1])
    requires p < |s| ==> less(v, s[p])
    ensures Splits(s, v, p, less)
  {
    forall i | 0 <= i < p ensures !less(v, s[i]) { assert i < p - 1 ==> !less(s[p - 1], s[i]); }
    forall i | p <= i < |s| ensures !less(s[i], v) { assert p < i ==> !less(s[i], s[p]); }
  }

  lemma InsertSorted<T(!new)>(s: seq<T>, v: T, p: nat, less: (T, T) -> bool)
    requires Sorted(s, less) && p <= |s| && Splits(s, v, p, less)
    ensures Sorted(s[..p] + [v] + s[p..], less)
    ensures multiset(s[..p] + [v] + s[p..]) == multiset(s) + multiset{v}
  {
    assert s == s[..p] + s[p..];
  }

  /** The sorted s with v behind all elements that v is not less than. */
  ghost function Inserted<T(!new)>(s: seq<T>, v: T, less: (T, T) -> bool): seq<T> {
    if s == [] || !less(v, s[|s| - 1]) then s + [v] else Inserted(s[..|s| - 1], v, less) + [s[|s| - 1]]
  }

  /** What the base case makes of a range. */
  ghost function InsertionSorted<T(!new)>(s: seq<T>, less: (T, T) -> bool): seq<T> {
    if s == [] then [] else Inserted(InsertionSorted(s[..|s| - 1], less), s[|s| - 1], less)
  }

  lemma {:induction false} InsertedAtPlace<T(!new)>(s: seq<T>, v: T, p: nat, less: (T, T) -> bool)
    requires StrictWeakOrder(less) && Sorted(s, less) && p <= |s|
    requires (p > 0 ==> !less(v, s[p - 1])) && (p < |s| ==> less(v, s[p]))
    ensures Inserted(s, v, less) == s[..p] + [v] + s[p..]
  {
    if p < |s| {
      var front := s[..|s| - 1];
      assert p < |s| - 1 ==> !less(s[|s| - 1], s[p]);
      assert less(v, s[|s| - 1]);
      InsertedAtPlace(front, v, p, less);
      assert s[..p] == front[..p] && s[p..] == front[p..] + [s[|s| - 1]];
    } else {
      assert s[..p] == s && s[p..] == [];
    }
  }

  /** Where the value belongs in a sorted sequence. */
  lemma PlaceOf<T(!new)>(s: seq<T>, v: T, less: (T, T) -> bool) returns (p: nat)
    requires StrictWeakOrder(less) && Sorted(s, less)
    ensures p <= |s| && Splits(s, v, p, less) && Inserted(s, v, less) == s[..p] + [v] + s[p..]
  {
    p := |s|;
    while p > 0 && less(v, s[p - 1])
      invariant p <= |s| && (p < |s| ==> less(v, s[p]))
    {
      p := p - 1;
    }
    InsertedAtPlace(s, v, p, less);
    SplitsHere(s, v, p, less);
  }

  /** The base case sorts every sequence, and keeps its elements. */
  lemma {:induction false} SortedByInsertion<T(!new)>(s: seq<T>, less: (T, T) -> bool)
    requires StrictWeakOrder(less)
    ensures Sorted(InsertionSorted(s, less), less) && multiset(InsertionSorted(s, less)) == multiset(s)
  {
    if s != [] {
      var n := |s| - 1;
      SortedByInsertion(s[..n], less);
      var r := InsertionSorted(s[..n], less);
      var p := PlaceOf(r, s[n], less);
      InsertSorted(r, s[n], p, less);
      assert s == s[..n] + [s[n]];
    }
  }

  /** Moves a[it] into the sorted range a[lo..it]; p is where it ends up. */
  method Insert<T(!new)>(a: array<T>, lo: nat, it: nat, less: (T, T) -> bool) returns (ghost p: nat)
    requires StrictWeakOrder(less) && lo < it < a.Length && Sorted(a[lo..it], less)
    modifies a
    ensures lo <= p <= it
    ensures p > lo ==> !less(old(a[it]), old(a[p - 1]))
    ensures p < it ==> less(old(a[it]), old(a[p]))
    ensures a[p] == old(a[it])
    ensures forall k :: 0 <= k < p || it < k < a.Length ==> a[k] == old(a[k])
    ensures forall k :: p < k <= it ==> a[k] == old(a[k - 1])
  {
    var val := a[it];
    var cur := it;
    if less(val, a[lo]) {
      while cur > lo
        invariant lo <= cur <= it
        invariant forall k :: 0 <= k < cur || it < k < a.Length ==> a[k] == old(a[k])
        invariant forall k :: cur < k <= it ==> a[k] == old(a[k - 1])
      {
        a[cur] := a[cur - 1];
        cur := cur - 1;
      }
      a[lo] := val;
    } else {
      while less(val, a[cur - 1])
        invariant lo < cur <= it
        decreases cur
        invariant forall k :: 0 <= k < cur || it < k < a.Length ==> a[k] == old(a[k])
        invariant forall k :: cur < k <= it ==> a[k] == old(a[k - 1])
        invariant cur < it ==> less(val, old(a[cur]))
      {
        a[cur] := a[cur - 1];
        cur := cur - 1;
      }
      a[cur] := val;
    }
    p := cur;
  }

  method InsertionSort<T(!new)>(a: array<T>, lo: nat, hi: nat, less: (T, T) -> bool)
    requires StrictWeakOrder(less) && lo < hi <= a.Length
    modifies a
    ensures Rearranged(a, lo, hi) && Sorted(a[lo..hi], less)
    ensures a[lo..hi] == InsertionSorted(old(a[lo..hi]), less)
  {
    ghost var t := a[..];
    OneInserted(t, lo, hi, less);
    for it := lo + 1 to hi
      invariant InsertedUpTo(t, a[..], lo, it, hi, less)
    {
      InsertNext(a, lo, it, hi, less, t);
    }
    InsertedFacts(t, a[..], lo, hi, hi, less);
  }

  /** One turn of the loop of InsertionSort. */
  method InsertNext<T(!new)>(a: array<T>, lo: nat, it: nat, hi: nat, less: (T, T) -> bool, ghost t: seq<T>)
    requires StrictWeakOrder(less) && it < hi && InsertedUpTo(t, a[..], lo, it, hi, less)
    modifies a
    ensures InsertedUpTo(t, a[..], lo, it + 1, hi, less)
  {
    ghost var s := a[..];
    InsertedFacts(t, s, lo, it, hi, less);
    hide *;
    var p := Insert(a, lo, it, less);
    InsertedNext(t, s, a[..], lo, it, hi, p, less);
  }

  /** u is t with the elements from lo up to `it` sorted. */
  ghost predicate InsertedUpTo<T(!new)>(t: seq<T>, u: seq<T>, lo: nat, it: nat, hi: nat, less: (T, T) -> bool) {
    && lo < it <= hi <= |t| == |u| && u[..lo] == t[..lo] && u[hi..] == t[hi..] && u[it..] == t[it..]
    && multiset(u[lo..hi]) == multiset(t[lo..hi])
    && Sorted(u[lo..it], less) && u[lo..it] == InsertionSorted(t[lo..it], less)
  }

  lemma InsertedFacts<T(!new)>(t: seq<T>, u: seq<T>, lo: nat, it: nat, hi: nat, less: (T, T) -> bool)
    requires InsertedUpTo(t, u, lo, it, hi, less)
    ensures lo < it <= hi <= |t| == |u| && u[..lo] == t[..lo] && u[hi..] == t[hi..]
    ensures multiset(u[lo..hi]) == multiset(t[lo..hi])
    ensures Sorted(u[lo..it], less) && u[lo..it] == InsertionSorted(t[lo..it], less)
  {
  }

  lemma OneInserted<T(!new)>(t: seq<T>, lo: nat, hi: nat, less: (T, T) -> bool)
    requires lo < hi <= |t|
    ensures InsertedUpTo(t, t, lo, lo + 1, hi, less)
  {
    SortedOne(t, lo, less);
  }

  lemma InsertedNext<T(!new)>(
      t: seq<T>, s: seq<T>, u: seq<T>, lo: nat, it: nat, hi: nat, p: nat, less: (T, T) -> bool)
    requires StrictWeakOrder(less) && InsertedUpTo(t, s, lo, it, hi, less) && it < hi && |u| == |s| && lo <= p <= it
    requires p > lo ==> !less(s[it], s[p - 1])
    requires p < it ==> less(s[it], s[p])
    requires u[p] == s[it]
    requires forall k :: 0 <= k < p || it < k < |s| ==> u[k] == s[k]
    requires forall k :: p < k <= it ==> u[k] == s[k - 1]
    ensures InsertedUpTo(t, u, lo, it + 1, hi, less)
  {
    InsertedAt(s, u, lo, it, hi, p, less);
    hide Sorted, InsertionSorted, Inserted, StrictWeakOrder;
    SortedNext(t, s, u, lo, it, less);
  }

  lemma SortedOne<T(!new)>(t: seq<T>, lo: nat, less: (T, T) -> bool)
    requires lo < |t|
    ensures t[lo..lo + 1] == InsertionSorted(t[lo..lo + 1], less)
  {
    assert InsertionSorted<T>([], less) == [] && t[lo..lo + 1][..0] == [];
  }

  lemma SortedNext<T(!new)>(t: seq<T>, s: seq<T>, u: seq<T>, lo: nat, it: nat, less: (T, T) -> bool)
    requires lo <= it < |t| == |s| == |u| && s[it..] == t[it..] && s[lo..it] == InsertionSorted(t[lo..it], less)
    requires u[it + 1..] == s[it + 1..] && u[lo..it + 1] == Inserted(s[lo..it], s[it], less)
    ensures u[it + 1..] == t[it + 1..] && u[lo..it + 1] == InsertionSorted(t[lo..it + 1], less)
  {
    var x := t[lo..it + 1];
    assert x[..|x| - 1] == t[lo..it] && x[|x| - 1] == t[it] == s[it..][0] == s[it];
    assert u[it + 1..] == s[it..][1..] == t[it..][1..] == t[it + 1..];
  }

  lemma InsertedAt<T(!new)>(s: seq<T>, t: seq<T>, lo: nat, it: nat, hi: nat, p: nat, less: (T, T) -> bool)
    requires StrictWeakOrder(less) && lo <= p <= it < hi <= |s| == |t| && Sorted(s[lo..it], less)
    requires p > lo ==> !less(s[it], s[p - 1])
    requires p < it ==> less(s[it], s[p])
    requires t[p] == s[it]
    requires forall k :: 0 <= k < p || it < k < |s| ==> t[k] == s[k]
    requires forall k :: p < k <= it ==> t[k] == s[k - 1]
    ensures t[..lo] == s[..lo] && t[hi..] == s[hi..]
    ensures multiset(t[lo..hi]) == multiset(s[lo..hi]) && Sorted(t[lo..it + 1], less)
    ensures t[it + 1..] == s[it + 1..] && t[lo..it + 1] == Inserted(s[lo..it], s[it], less)
  {
    var u := s[lo..it];
    assert p > lo ==> u[p - lo - 1] == s[p - 1];
    assert p < it ==> u[p - lo] == s[p];
    InsertedAtPlace(u, s[it], p - lo, less);
    SplitsHere(u, s[it], p - lo, less);
    hide Sorted, Splits, Inserted, StrictWeakOrder;
    ShiftedSlices(s, t, lo, it, hi, p);
    Shifted(s, t, lo, it, hi, p, less);
  }

  lemma Shifted<T(!new)>(s: seq<T>, t: seq<T>, lo: nat, it: nat, hi: nat, p: nat, less: (T, T) -> bool)
    requires lo <= p <= it < hi <= |s| == |t| && Sorted(s[lo..it], less)
    requires Splits(s[lo..it], s[it], p - lo, less)
    requires t[p] == s[it]
    requires forall k :: 0 <= k < p || it < k < |s| ==> t[k] == s[k]
    requires forall k :: p < k <= it ==> t[k] == s[k - 1]
    ensures t[..lo] == s[..lo] && t[hi..] == s[hi..]
    ensures multiset(t[lo..hi]) == multiset(s[lo..hi]) && Sorted(t[lo..it + 1], less)
  {
    InsertSorted(s[lo..it], s[it], p - lo, less);
    ShiftedSlices(s, t, lo, it, hi, p);
    ShiftedBag(s, t, lo, it, hi, p);
  }

  lemma ShiftedSlices<T>(s: seq<T>, t: seq<T>, lo: nat, it: nat, hi: nat, p: nat)
    requires lo <= p <= it < hi <= |s| == |t| && t[p] == s[it]
    requires forall k :: 0 <= k < p || it < k < |s| ==> t[k] == s[k]
    requires forall k :: p < k <= it ==> t[k] == s[k - 1]
    ensures t[..lo] == s[..lo] && t[hi..] == s[hi..] && t[it + 1..hi] == s[it + 1..hi] && t[it + 1..] == s[it + 1..]
    ensures var u := s[lo..it]; t[lo..it + 1] == u[..p - lo] + [s[it]] + u[p - lo..]
  {
  }

  lemma ShiftedBag<T>(s: seq<T>, t: seq<T>, lo: nat, it: nat, hi: nat, p: nat)
    requires lo <= p <= it < hi <= |s| == |t| && t[it + 1..hi] == s[it + 1..hi]
    requires var u := s[lo..it]; t[lo..it + 1] == u[..p - lo] + [s[it]] + u[p - lo..]
    ensures multiset(t[lo..hi]) == multiset(s[lo..hi])
  {
    var u := s[lo..it];
    BagAround(u, p - lo, s[it]);
    OneMore(s, lo, it);
    SamePrefix(s, t, lo, it + 1, hi);
  }

  lemma OneMore<T>(s: seq<T>, lo: nat, it: nat)
    requires lo <= it < |s|
    ensures s[lo..it + 1] == s[lo..it] + [s[it]]
  {
  }

  lemma SamePrefix<T>(s: seq<T>, t: seq<T>, lo: nat, mid: nat, hi: nat)
    requires lo <= mid <= hi <= |s| == |t| && multiset(t[lo..mid]) == multiset(s[lo..mid]) && t[mid..hi] == s[mid..hi]
    ensures multiset(t[lo..hi]) == multiset(s[lo..hi])
  {
    SplitAt(t, lo, mid, hi);
    SplitAt(s, lo, mid, hi);
  }

  lemma BagAround<T>(u: seq<T>, q: nat, v: T)
    requires q <= |u|
    ensures multiset(u[..q] + [v] + u[q..]) == multiset(u + [v])
  {
    Split(u, q);
  }

  method BaseCaseSort<T(!new)>(a: array<T>, lo: nat, hi: nat, less: (T, T) -> bool)
    requires StrictWeakOrder(less) && lo <= hi <= a.Length
    modifies a
    ensures Rearranged(a, lo, hi) && Sorted(a[lo..hi], less)
    ensures a[lo..hi] == InsertionSorted(old(a[lo..hi]), less)
  {
    if lo == hi { return; }
    InsertionSort(a, lo, hi, less);
  }

  // ---------------------------------------------------------------- sorted or reversed input

  lemma {:induction false} Chain<T(!new)>(s: seq<T>, less: (T, T) -> bool, i: nat, j: nat, down: bool)
    requires StrictWeakOrder(less) && i < j < |s|
    requires forall k :: i <= k < j ==> if down then !less(s[k], s[k + 1]) else !less(s[k + 1], s[k])
    ensures if down then !less(s[i], s[j]) else !less(s[j], s[i])
    decreases j
  {
    if i + 1 < j {
      Chain(s, less, i, j - 1, down);
      assert if down then !less(s[j - 1], s[j]) else !less(s[j], s[j - 1]);
    }
  }

  /** Comparing neighbours is enough to recognise sortedness. */
  method IsSorted<T(!new)>(a: array<T>, lo: nat, hi: nat, less: (T, T) -> bool) returns (yes: bool)
    requires StrictWeakOrder(less) && lo <= hi <= a.Length
    ensures yes <==> Sorted(a[lo..hi], less)
  {
    var it := lo;
    while it + 1 < hi
      invariant lo <= it && (it < hi || it == lo)
      invariant forall k :: lo <= k < it ==> !less(a[k + 1], a[k])
    {
      if less(a[it + 1], a[it]) {
        assert a[lo..hi][it - lo] == a[it] && a[lo..hi][it + 1 - lo] == a[it + 1];
        return false;
      }
      it := it + 1;
    }
    yes := true;
    ghost var s := a[lo..hi];
    forall i, j | 0 <= i < j < |s| ensures !less(s[j], s[i]) {
      forall k | i <= k < j ensures !less(s[k + 1], s[k]) { assert s[k] == a[lo + k] && s[k + 1] == a[lo + k + 1]; }
      Chain(s, less, i, j, false);
    }
  }

  /** Stripe of a thread, with the first element of the next stripe. */
  function StripeEnd(stripe: nat, size: nat, id: nat, extra: nat): (e: nat)
    ensures e <= size
  {
    if stripe * id + extra < size then stripe * id + extra else size
  }

  /** Every thread finds its stripe sorted. */
  ghost predicate StripesSorted<T(!new)>(s: seq<T>, stripe: nat, threads: nat, less: (T, T) -> bool) {
    forall id: nat :: id < threads ==> StripeSorted(s, stripe, id, less)
  }

  ghost predicate StripeSorted<T(!new)>(s: seq<T>, stripe: nat, id: nat, less: (T, T) -> bool) {
    StripeEnd(stripe, |s|, id, 0) <= StripeEnd(stripe, |s|, id + 1, 1)
    && Sorted(s[StripeEnd(stripe, |s|, id, 0)..StripeEnd(stripe, |s|, id + 1, 1)], less)
  }

  lemma InSomeStripe(stripe: nat, threads: nat, k: nat) returns (id: nat)
    requires stripe > 0 && k < stripe * threads
    ensures id < threads && stripe * id <= k < stripe * (id + 1)
  {
    id := k / stripe;
    StripeBelow(stripe, threads, id, k % stripe);
  }

  lemma StripeBelow(stripe: nat, threads: nat, id: nat, r: nat)
    requires stripe * id + r < stripe * threads
    ensures id < threads
  {
    if id >= threads { StripesOrdered(stripe, threads, id); }
  }

  lemma StripesOrdered(stripe: nat, x: nat, y: nat)
    requires x <= y
    ensures stripe * x <= stripe * y
  {
    assert stripe * y == stripe * x + stripe * (y - x);
  }

  /** The input is sorted if and only if all threads find their overlapping stripes sorted. */
  lemma StripesDecide<T(!new)>(s: seq<T>, stripe: nat, threads: nat, less: (T, T) -> bool)
    requires StrictWeakOrder(less) && stripe > 0 && |s| <= stripe * threads
    ensures StripesSorted(s, stripe, threads, less) <==> Sorted(s, less)
  {
    if StripesSorted(s, stripe, threads, less) {
      forall k | 0 <= k < |s| - 1 ensures !less(s[k + 1], s[k]) {
        var id := InSomeStripe(stripe, threads, k);
        assert StripeSorted(s, stripe, id, less);
        var lo, hi := StripeEnd(stripe, |s|, id, 0), StripeEnd(stripe, |s|, id + 1, 1);
        assert s[lo..hi][k - lo] == s[k] && s[lo..hi][k + 1 - lo] == s[k + 1];
      }
      forall i, j | 0 <= i < j < |s| ensures !less(s[j], s[i]) { Chain(s, less, i, j, false); }
    }
    if Sorted(s, less) {
      forall id: nat | id < threads ensures StripeSorted(s, stripe, id, less) {
        assert stripe * (id + 1) == stripe * id + stripe;
      }
    }
  }

  lemma Factor(x: nat, y: nat)
    requires x * y > 0
    ensures x > 0
  {
  }

  /** The stripe length of the source covers the whole input. */
  lemma ParallelIsSorted<T(!new)>(s: seq<T>, threads: nat, less: (T, T) -> bool)
    requires StrictWeakOrder(less) && threads > 0
    ensures StripesSorted(s, (|s| + threads - 1) / threads, threads, less) <==> Sorted(s, less)
  {
    var stripe := (|s| + threads - 1) / threads;
    assert |s| + threads - 1 == stripe * threads + (|s| + threads - 1) % threads;
    if s != [] {
      Factor(stripe, threads);
      StripesDecide(s, stripe, threads, less);
    } else {
      forall id: nat | id < threads ensures StripeSorted(s, stripe, id, less) { }
    }
  }

  ghost function Mirror<T>(s: seq<T>): seq<T> { seq(|s|, i requires 0 <= i < |s| => s[|s| - 1 - i]) }

  lemma {:induction false} MirrorBag<T>(s: seq<T>)
    ensures multiset(Mirror(s)) == multiset(s)
  {
    if s != [] {
      MirrorBag(s[1..]);
      assert s == [s[0]] + s[1..];
      assert Mirror(s) == Mirror(s[1..]) + [s[0]];
    }
  }

  method Reverse<T(!new)>(a: array<T>, lo: nat, hi: nat)
    requires lo <= hi <= a.Length
    modifies a
    ensures Rearranged(a, lo, hi) && a[lo..hi] == Mirror(old(a[lo..hi]))
  {
    var i, j := lo, hi;
    while i + 1 < j
      invariant lo <= i <= j <= hi && i - lo == hi - j
      invariant forall k :: 0 <= k < lo || hi <= k < a.Length || i <= k < j ==> a[k] == old(a[k])
      invariant forall k :: lo <= k < i ==> a[k] == old(a[lo + hi - 1 - k]) && a[lo + hi - 1 - k] == old(a[k])
    {
      j := j - 1;
      a[i], a[j] := a[j], a[i];
      i := i + 1;
    }
    Mirrored(old(a[..]), a[..], lo, hi, i);
  }

  lemma Mirrored<T>(s: seq<T>, t: seq<T>, lo: nat, hi: nat, i: nat)
    requires lo <= i <= hi <= |s| == |t| && i - lo <= hi - i <= i - lo + 1
    requires forall k :: 0 <= k < lo || hi <= k < |s| || i <= k < lo + hi - i ==> t[k] == s[k]
    requires forall k :: lo <= k < i ==> t[k] == s[lo + hi - 1 - k] && t[lo + hi - 1 - k] == s[k]
    ensures t[..lo] == s[..lo] && t[hi..] == s[hi..]
    ensures t[lo..hi] == Mirror(s[lo..hi]) && multiset(t[lo..hi]) == multiset(s[lo..hi])
  {
    forall k | lo <= k < hi ensures t[k] == s[lo + hi - 1 - k] {
      if k >= i && k >= lo + hi - i { assert t[lo + hi - 1 - (lo + hi - 1 - k)] == s[lo + hi - 1 - k]; }
    }
    MirrorBag(s[lo..hi]);
  }

  /**
   * Sorts input that is already sorted or falls from its first to its last element, and leaves all
   * other input alone.
   */
  method SortedCaseSort<T(!new)>(a: array<T>, lo: nat, hi: nat, less: (T, T) -> bool) returns (done: bool)
    requires StrictWeakOrder(less) && lo <= hi <= a.Length
    modifies a
    ensures Rearranged(a, lo, hi)
    ensures if done then Sorted(a[lo..hi], less) else a[..] == old(a[..]) && !Sorted(a[lo..hi], less)
    ensures done <==> old(Sorted(a[lo..hi], less) || Falling(a[lo..hi], less))
  {
    ghost var s := a[lo..hi];
    if lo == hi { return true; }
    EndsDecide(s, less);
    assert s[0] == a[lo] && s[|s| - 1] == a[hi - 1];
    if !less(a[hi - 1], a[lo]) {
      done := IsSorted(a, lo, hi, less);
    } else {
      var it := lo;
      while it + 1 != hi
        invariant lo <= it < hi
        invariant forall k :: lo <= k < it ==> !less(a[k], a[k + 1])
      {
        if less(a[it], a[it + 1]) {
          assert s[it - lo] == a[it] && s[it - lo + 1] == a[it + 1];
          return false;
        }
        it := it + 1;
      }
      FallingReversed(s, less);
      Reverse(a, lo, hi);
      done := true;
    }
  }

  /** No element is less than the next one. */
  ghost predicate Falling<T(!new)>(s: seq<T>, less: (T, T) -> bool) {
    forall k :: 0 <= k < |s| - 1 ==> !less(s[k], s[k + 1])
  }

  /** The first and the last element tell which of the two is worth a look. */
  lemma EndsDecide<T(!new)>(s: seq<T>, less: (T, T) -> bool)
    requires StrictWeakOrder(less) && s != []
    ensures !less(s[|s| - 1], s[0]) && Falling(s, less) ==> Sorted(s, less)
    ensures less(s[|s| - 1], s[0]) ==> !Sorted(s, less)
  {
    var n := |s| - 1;
    if !less(s[n], s[0]) && Falling(s, less) {
      forall i, j | 0 <= i < j < |s| ensures !less(s[j], s[i]) {
        if i > 0 { Chain(s, less, 0, i, true); }
        if j < n { Chain(s, less, j, n, true); }
      }
    }
  }

  lemma FallingReversed<T(!new)>(s: seq<T>, less: (T, T) -> bool)
    requires StrictWeakOrder(less) && Falling(s, less)
    ensures Sorted(Mirror(s), less)
  {
    forall i, j | 0 <= i < j < |s| ensures !less(s[i], s[j]) { Chain(s, less, i, j, true); }
  }
}
