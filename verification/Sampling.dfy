/** Random sampling and the choice of distinct splitters. */
module Sampling {
  import opened Order
  import opened Powers
  import opened Classifier
  import opened BaseCase

  // ---------------------------------------------------------------- the sample

  /** Moves numSamples elements, any ones, to the front. */
  method SelectSample<T(!new)>(a: array<T>, begin: nat, end: nat, numSamples: nat)
    requires begin + numSamples <= end <= a.Length
    modifies a
    ensures Rearranged(a, begin, end)
  {
    var k := 0;
    while k < numSamples
      invariant k <= numSamples && Rearranged(a, begin, end)
    {
      var i :| 0 <= i < end - begin - k;
      ghost var s := a[..];
      a[begin + k], a[begin + k + i] := a[begin + k + i], a[begin + k];
      SwapInside(s, a[..], begin, end, begin + k, begin + k + i);
      k := k + 1;
    }
  }

  lemma SwapInside<T>(s: seq<T>, t: seq<T>, lo: nat, hi: nat, i: nat, j: nat)
    requires lo <= i < hi && lo <= j < hi <= |s|
    requires t == s[i := s[j]][j := s[i]]
    ensures |t| == |s| && t[..lo] == s[..lo] && t[hi..] == s[hi..] && multiset(t[lo..hi]) == multiset(s[lo..hi])
  {
    var u := s[lo..hi];
    assert t[lo..hi] == u[i - lo := u[j - lo]][j - lo := u[i - lo]];
  }

  // ---------------------------------------------------------------- distinct splitters

  /** Drops every candidate that is not larger than the last one kept. */
  ghost function Distinct<T(!new)>(c: seq<T>, less: (T, T) -> bool): (d: seq<T>)
    requires |c| > 0
    ensures 0 < |d| <= |c| && d[0] == c[0]
  {
    if |c| == 1 then c
    else
      var d := Distinct(c[..|c| - 1], less);
      if less(d[|d| - 1], c[|c| - 1]) then d + [c[|c| - 1]] else d
  }

  ghost predicate Increasing<T(!new)>(s: seq<T>, less: (T, T) -> bool) {
    forall i :: 0 <= i < |s| - 1 ==> less(s[i], s[i + 1])
  }

  lemma {:induction false} DistinctIncreases<T(!new)>(c: seq<T>, less: (T, T) -> bool)
    requires |c| > 0
    ensures Increasing(Distinct(c, less), less)
  {
    if |c| > 1 { DistinctIncreases(c[..|c| - 1], less); }
  }

  lemma {:induction false} DistinctChosen<T(!new)>(c: seq<T>, less: (T, T) -> bool, i: nat)
    requires |c| > 0 && i < |Distinct(c, less)|
    ensures Distinct(c, less)[i] in c
  {
    if |c| > 1 && i < |Distinct(c[..|c| - 1], less)| { DistinctChosen(c[..|c| - 1], less, i); }
  }

  ghost function Repeat<T>(n: nat, x: T): seq<T> { seq(n, i => x) }

  /** The splitters: distinct candidates, then the last candidate again up to a power of two. */
  ghost function Padded<T(!new)>(c: seq<T>, less: (T, T) -> bool): (s: seq<T>)
    requires |c| > 0
    ensures |s| == Pow2(Log2(|Distinct(c, less)|) + 1) - 1
    ensures Distinct(c, less) <= s
  {
    var d := Distinct(c, less);
    d + Repeat(Pow2(Log2(|d|) + 1) - 1 - |d|, c[|c| - 1])
  }

  /** Equality buckets are used when enough candidates were dropped. */
  ghost predicate UseEqual<T(!new)>(c: seq<T>, less: (T, T) -> bool, threshold: nat)
    requires |c| > 0
  {
    |c| - |Distinct(c, less)| >= threshold
  }

  /** Positions of the sorted candidates at which nothing larger than the candidate before stands. */
  ghost function Repeats<T(!new)>(c: seq<T>, less: (T, T) -> bool): set<nat> {
    set i: nat | i < |c| && RepeatsAt(c, less, i)
  }

  ghost predicate RepeatsAt<T(!new)>(c: seq<T>, less: (T, T) -> bool, i: nat) {
    0 < i < |c| && !less(c[i - 1], c[i])
  }

  /** Every position is either a kept splitter's or a repetition; the last candidate is equivalent to the last kept. */
  lemma {:induction false} DistinctCount<T(!new)>(c: seq<T>, less: (T, T) -> bool)
    requires StrictWeakOrder(less) && Sorted(c, less) && |c| > 0
    ensures |Distinct(c, less)| + |Repeats(c, less)| == |c|
    ensures var d := Distinct(c, less); !less(d[|d| - 1], c[|c| - 1]) && !less(c[|c| - 1], d[|d| - 1])
  {
    var n := |c| - 1;
    if n == 0 {
      assert Repeats(c, less) == {};
    } else {
      var front := c[..n];
      DistinctCount(front, less);
      assert front[n - 1] == c[n - 1] && !less(c[n], c[n - 1]);
      RepeatsNext(c, less);
      hide Repeats, Sorted;
    }
  }

  lemma RepeatsNext<T(!new)>(c: seq<T>, less: (T, T) -> bool)
    requires |c| > 1
    ensures |Repeats(c, less)| ==
      |Repeats(c[..|c| - 1], less)| + (if less(c[|c| - 2], c[|c| - 1]) then 0 else 1)
  {
    var n := |c| - 1;
    var r, front := Repeats(c, less), Repeats(c[..n], less);
    forall i: nat | i < n ensures RepeatsAt(c, less, i) <==> RepeatsAt(c[..n], less, i) { }
    if less(c[n - 1], c[n]) { assert r == front; } else { assert r == front + {n}; }
  }

  /** Equality buckets are used exactly if at least `threshold` candidates repeat the candidate before them. */
  lemma UseEqualIff<T(!new)>(c: seq<T>, less: (T, T) -> bool, threshold: nat)
    requires StrictWeakOrder(less) && Sorted(c, less) && |c| > 0
    ensures UseEqual(c, less, threshold) <==> |Repeats(c, less)| >= threshold
  {
    DistinctCount(c, less);
  }

  /** Every candidate is equivalent to a splitter that was kept. */
  lemma {:induction false} Represented<T(!new)>(c: seq<T>, less: (T, T) -> bool, i: nat) returns (j: nat)
    requires StrictWeakOrder(less) && Sorted(c, less) && i < |c|
    ensures j < |Distinct(c, less)| && !less(Distinct(c, less)[j], c[i]) && !less(c[i], Distinct(c, less)[j])
    decreases |c|
  {
    var n := |c| - 1;
    if i == n {
      DistinctCount(c, less);
      j := |Distinct(c, less)| - 1;
    } else {
      j := Represented(c[..n], less, i);
    }
  }

  /** The splitters are as few as a full tree allows: half of them would not do for the distinct candidates. */
  lemma PaddedFits<T(!new)>(c: seq<T>, less: (T, T) -> bool)
    requires |c| > 0
    ensures |Distinct(c, less)| <= |Padded(c, less)| < 2 * |Distinct(c, less)|
  {
    var l := Log2(|Distinct(c, less)|);
    assert Pow2(l + 1) == 2 * Pow2(l);
  }

  lemma PaddedSorted<T(!new)>(c: seq<T>, less: (T, T) -> bool)
    requires StrictWeakOrder(less) && |c| > 0 && Sorted(c, less)
    ensures Sorted(Padded(c, less), less)
  {
    var d, s, last := Distinct(c, less), Padded(c, less), c[|c| - 1];
    DistinctIncreases(c, less);
    forall i, j | 0 <= i < j < |s| ensures !less(s[j], s[i]) {
      if j < |d| {
        Chain(d, less, i, j, false);
      } else if i < |d| {
        DistinctChosen(c, less, i);
      }
    }
  }

  /** How many elements of the sample it takes for m candidates. */
  ghost function Taken(m: nat, step: nat): nat { m * step }

  /** Every step-th element of the sorted sample. */
  ghost function Candidates<T>(s: seq<T>, begin: nat, step: nat, m: nat): (c: seq<T>)
    requires step > 0 && begin + Taken(m, step) <= |s|
    ensures |c| == m
  {
    seq(m, i requires 0 <= i < m => MulMono(i + 1, m, step); s[begin + (i + 1) * step - 1])
  }

  lemma CandidatesSorted<T(!new)>(s: seq<T>, begin: nat, step: nat, m: nat, less: (T, T) -> bool)
    requires step > 0 && begin + Taken(m, step) <= |s| && Sorted(s[begin..begin + Taken(m, step)], less)
    ensures Sorted(Candidates(s, begin, step, m), less)
  {
    var c, u := Candidates(s, begin, step, m), s[begin..begin + Taken(m, step)];
    forall i, j | 0 <= i < j < m ensures !less(c[j], c[i]) {
      MulLess(i + 1, j + 1, step);
      MulMono(j + 1, m, step);
      assert c[i] == u[(i + 1) * step - 1] && c[j] == u[(j + 1) * step - 1];
    }
  }

  /** Candidate i splits the sorted sample behind (i + 1) * step of its elements. */
  lemma CandidateSplits<T(!new)>(u: seq<T>, step: nat, m: nat, i: nat, less: (T, T) -> bool)
    requires StrictWeakOrder(less) && Sorted(u, less) && step > 0 && Taken(m, step) <= |u| && i < m
    ensures Taken(i + 1, step) <= |u| && Splits(u, Candidates(u, 0, step, m)[i], Taken(i + 1, step), less)
    ensures Splits(u, Candidates(u, 0, step, m)[i], Taken(i + 1, step) - 1, less)
  {
    MulMono(i + 1, m, step);
    MulMono(1, i + 1, step);
    var p := Taken(i + 1, step) - 1;
    forall k | 0 <= k < |u| ensures (k <= p ==> !less(u[p], u[k])) && (k >= p ==> !less(u[k], u[p])) { }
  }

  /** Keeps the distinct candidates at the front of the splitter array. */
  method KeepDistinct<T(!new)>(a: array<T>, begin: nat, step: nat, numBuckets: nat, sorted: array<T>,
                               less: (T, T) -> bool)
      returns (diff: nat, splitter: nat)
    requires step > 0 && 2 <= numBuckets <= sorted.Length && begin + Taken(numBuckets - 1, step) <= a.Length
    requires a != sorted
    modifies sorted
    ensures 0 < diff < numBuckets && splitter < a.Length
    ensures var c := Candidates(a[..], begin, step, numBuckets - 1);
      sorted[..diff] == Distinct(c, less) && a[splitter] == c[|c| - 1]
  {
    ghost var s, m := a[..], numBuckets - 1;
    ghost var c := Candidates(s, begin, step, m);
    FirstCandidate(s, begin, step, m);
    splitter := begin + step - 1;
    var last := 0;
    sorted[0] := a[splitter];
    assert c[..1] == [a[splitter]];
    for i := 2 to numBuckets
      invariant splitter + 1 == begin + Taken(i - 1, step) <= a.Length && a[splitter] == c[i - 2]
      invariant Kept(sorted[..], c, i - 1, last, less)
    {
      NextCandidate(s, begin, step, m, i - 1);
      splitter := splitter + step;
      last := KeepNext(sorted, last, a[splitter], less, c, i - 1);
    }
    assert c[..m] == c;
    diff := last + 1;
  }

  /** The distinct ones of the first n candidates are in front, up to position last. */
  ghost predicate Kept<T(!new)>(d: seq<T>, c: seq<T>, n: nat, last: nat, less: (T, T) -> bool) {
    last < n <= |c| && last < |d| && d[..last + 1] == Distinct(c[..n], less)
  }

  method KeepNext<T(!new)>(sorted: array<T>, last: nat, v: T, less: (T, T) -> bool, ghost c: seq<T>, ghost n: nat)
      returns (last': nat)
    requires 0 < n < |c| < sorted.Length && v == c[n] && Kept(sorted[..], c, n, last, less)
    modifies sorted
    ensures Kept(sorted[..], c, n + 1, last', less)
  {
    last' := last;
    DistinctNext(c, n, less);
    ghost var d := sorted[..last + 1];
    if less(sorted[last], v) {
      last' := last + 1;
      sorted[last'] := v;
      assert sorted[..last' + 1] == d + [v];
    }
  }

  lemma DistinctNext<T(!new)>(c: seq<T>, i: nat, less: (T, T) -> bool)
    requires 0 < i < |c|
    ensures |Distinct(c[..i], less)| > 0
    ensures var d := Distinct(c[..i], less);
      Distinct(c[..i + 1], less) == if less(d[|d| - 1], c[i]) then d + [c[i]] else d
  {
    assert c[..i + 1][..i] == c[..i];
  }

  lemma NextCandidate<T>(s: seq<T>, begin: nat, step: nat, m: nat, i: nat)
    requires step > 0 && begin + Taken(m, step) <= |s| && 0 < i < m
    ensures begin + Taken(i, step) + step == begin + Taken(i + 1, step) <= |s|
    ensures Candidates(s, begin, step, m)[i] == s[begin + Taken(i, step) + step - 1]
  {
    MulMono(i + 1, m, step);
    assert (i + 1) * step == i * step + step;
  }

  lemma FirstCandidate<T>(s: seq<T>, begin: nat, step: nat, m: nat)
    requires step > 0 && begin + Taken(m, step) <= |s| && 0 < m
    ensures Taken(1, step) == step && begin + step <= |s| && Candidates(s, begin, step, m)[0] == s[begin + step - 1]
  {
    MulMono(1, m, step);
  }

  /** Repeats the last candidate up to the next power of two. */
  method FillUp<T>(a: array<T>, splitter: nat, diff: nat, numBuckets: nat, sorted: array<T>)
    requires 0 < diff < numBuckets <= sorted.Length && splitter < a.Length && a != sorted
    modifies sorted
    ensures sorted[..numBuckets - 1] == old(sorted[..diff]) + Repeat(numBuckets - 1 - diff, a[splitter])
  {
    var last := diff - 1;
    for i := diff + 1 to numBuckets
      invariant last == i - 2
      invariant forall k :: 0 <= k < diff ==> sorted[k] == old(sorted[k])
      invariant forall k :: diff <= k <= last ==> sorted[k] == a[splitter]
    {
      last := last + 1;
      sorted[last] := a[splitter];
    }
  }

  /** Number of splitters chosen from the candidates, as a function of their number. */
  lemma PowerFits(diff: nat, log: nat)
    requires 0 < diff < Pow2(log)
    ensures Log2(diff) + 1 <= log && diff < Pow2(Log2(diff) + 1) <= Pow2(log)
  {
    Log2Less(diff, log);
    Pow2Mono(Log2(diff) + 1, log);
  }

  /** Chooses splitters from the sorted sample at a[begin..] and builds the classifier. */
  method ChooseSplitters<T(!new)>(a: array<T>, begin: nat, step: nat, log: nat, threshold: nat, cl: Classifier<T>)
      returns (used: nat, equal: bool)
    requires StrictWeakOrder(cl.less) && step > 0 && log > 0
    requires begin + Taken(Pow2(log) - 1, step) <= a.Length
    requires Sorted(a[begin..begin + Taken(Pow2(log) - 1, step)], cl.less)
    requires cl.tree != cl.sorted && a != cl.sorted && a != cl.tree
    requires cl.tree.Length == cl.sorted.Length == Pow2(log)
    modifies cl`logBuckets, cl`numBuckets, cl.tree, cl.sorted
    ensures cl.Built()
    ensures var c := Candidates(a[..], begin, step, Pow2(log) - 1);
      && |c| > 0
      && cl.Splitters() == Padded(c, cl.less)
      && equal == UseEqual(c, cl.less, threshold)
      && used == Used(|cl.Splitters()|, equal)
      && (equal <==> |Repeats(c, cl.less)| >= threshold)
  {
    hide Sorted, StrictWeakOrder, Candidates, Distinct, Taken;
    var numBuckets := Pow2(log);
    ghost var c := Candidates(a[..], begin, step, numBuckets - 1);
    var diff, splitter := KeepDistinct(a, begin, step, numBuckets, cl.sorted, cl.less);
    equal := numBuckets - 1 - diff >= threshold;
    PowerFits(diff, log);
    var log2 := Log2(diff) + 1;
    numBuckets := Pow2(log2);
    FillUp(a, splitter, diff, numBuckets, cl.sorted);
    assert cl.sorted[..numBuckets - 1] == Padded(c, cl.less);
    CandidatesSorted(a[..], begin, step, Pow2(log) - 1, cl.less);
    PaddedSorted(c, cl.less);
    UseEqualIff(c, cl.less, threshold);
    cl.Build(log2);
    used := numBuckets * (if equal then 2 else 1);
  }

  // ---------------------------------------------------------------- strict decrease

  /** The buckets a sorter descends into: all, or with equality buckets the even ones and the last. */
  predicate Descended(i: nat, used: nat, equal: bool) {
    i < used && (equal ==> i % 2 == 0 || i == used - 1)
  }

  /**
   * If at least one splitter repeats often enough, or two splitters differ, then every bucket that is
   * descended into misses one of the candidates.
   */
  lemma SomeCandidateElsewhere<T(!new)>(c: seq<T>, less: (T, T) -> bool, threshold: nat, i: nat) returns (x: T)
    requires StrictWeakOrder(less) && |c| > 0 && Sorted(c, less)
    requires |c| - 1 >= threshold
    requires var e := UseEqual(c, less, threshold); Descended(i, Used(|Padded(c, less)|, e), e)
    ensures x in c && Bucket(Padded(c, less), UseEqual(c, less, threshold), less, x) != i
  {
    var s, d := Padded(c, less), Distinct(c, less);
    PaddedSorted(c, less);
    DistinctIncreases(c, less);
    DistinctChosen(c, less, 0);
    x := d[0];
    assert s[0] == d[0];
    if UseEqual(c, less, threshold) {
      EqualityBucket(s, less, x, 0);
    } else {
      DistinctChosen(c, less, 1);
      assert s[1] == d[1] && less(d[0], d[0 + 1]);
      SmallerIsPrefix(s, 0, less, d[0]);
      SmallerIsPrefix(s, 0, less, d[1]);
      if i == 0 { x := d[1]; }
    }
  }

  /** Otherwise equal input goes to one bucket as a whole, and that bucket is descended into. */
  lemma EqualInputStays<T(!new)>(c: seq<T>, less: (T, T) -> bool, threshold: nat, x: T)
    requires StrictWeakOrder(less) && |c| > 0 && Sorted(c, less)
    requires forall y :: y in c ==> !less(x, y) && !less(y, x)
    requires |c| - 1 < threshold
    ensures !UseEqual(c, less, threshold) && Bucket(Padded(c, less), false, less, x) == 0
    ensures Descended(0, Used(|Padded(c, less)|, false), false)
  {
    var s := Padded(c, less);
    PaddedSorted(c, less);
    DistinctChosen(c, less, 0);
    SmallerIsPrefix(s, 0, less, x);
  }

  /** Every bucket that is descended into misses one of the candidates. */
  ghost predicate Shrinking<T(!new)>(c: seq<T>, less: (T, T) -> bool, threshold: nat)
    requires |c| > 0
  {
    var e := UseEqual(c, less, threshold);
    forall i :: Descended(i, Used(|Padded(c, less)|, e), e) ==>
      exists x :: x in c && Bucket(Padded(c, less), e, less, x) != i
  }

  /**
   * The exact condition under which the recursion shrinks for every sample: the number of candidates
   * exceeds the equality-bucket threshold.
   */
  lemma ShrinksIff<T(!new)>(x: T, m: nat, less: (T, T) -> bool, threshold: nat)
    requires StrictWeakOrder(less) && m > 0
    ensures (forall c: seq<T> :: |c| == m && Sorted(c, less) ==> Shrinking(c, less, threshold)) <==> m > threshold
  {
    if m > threshold {
      forall c: seq<T> | |c| == m && Sorted(c, less) ensures Shrinking(c, less, threshold) {
        var e := UseEqual(c, less, threshold);
        forall i | Descended(i, Used(|Padded(c, less)|, e), e)
          ensures exists y :: y in c && Bucket(Padded(c, less), e, less, y) != i
        {
          var y := SomeCandidateElsewhere(c, less, threshold, i);
        }
      }
    } else {
      var c := Repeat(m, x);
      assert !Shrinking(c, less, threshold) by { EqualInputStays(c, less, threshold, x); }
    }
  }
}
