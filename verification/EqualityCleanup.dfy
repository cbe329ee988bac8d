/**
 * The cleanup of the parallel out-of-place partition with equality buckets. Every thread works on a stripe
 * of the range, and buckets are split among threads in ways that depend on where the stripes end.
 */
module EqualityCleanup {
  import opened Bags
  import opened Buckets

  datatype Range = Range(lo: nat, hi: nat)

  /** Equality buckets are the odd ones except the last bucket. */
  predicate Equality(b: nat, numBuckets: nat) {
    b % 2 == 1 && b + 2 < numBuckets
  }

  /** Bucket boundaries with equality buckets: the next to last bucket is empty. */
  ghost predicate Cut(bs: seq<nat>, n: nat) {
    |bs| % 2 == 1 && |bs| > 2 && Boundaries(bs, n) && bs[|bs| - 3] == bs[|bs| - 2]
  }

  /** Position p lies in an equality bucket. */
  ghost predicate InEquality(bs: seq<nat>, p: nat, b: nat) {
    b + 1 < |bs| && Equality(b, |bs| - 1) && bs[b] <= p < bs[b + 1]
  }

  ghost predicate Moved(moved: seq<Range>, p: nat) {
    exists j :: 0 <= j < |moved| && moved[j].lo <= p < moved[j].hi
  }

  /** Only equality buckets are moved without being sorted. */
  ghost predicate MovesEquality(bs: seq<nat>, moved: seq<Range>) {
    forall j :: 0 <= j < |moved| ==> InsideEquality(bs, moved[j])
  }

  ghost predicate InsideEquality(bs: seq<nat>, r: Range) {
    exists b: nat :: b + 1 < |bs| && Equality(b, |bs| - 1) && bs[b] <= r.lo <= r.hi <= bs[b + 1]
  }

  // ---------------------------------------------------------------- the buckets of a stripe

  /** First and past-the-last bucket that overlap the stripe [x, y). */
  method FindBuckets(bs: seq<nat>, x: nat, y: nat, ghost n: nat) returns (first: nat, last: nat)
    requires Cut(bs, n) && x < y <= n
    ensures first < last < |bs| && bs[first] <= x < bs[first + 1] && bs[last - 1] < y <= bs[last]
  {
    first := |bs| - 1;
    while x < bs[first]
      decreases first
      invariant first < |bs| && (first + 1 < |bs| ==> x < bs[first + 1]) && (first + 1 == |bs| ==> x < bs[first])
    {
      first := first - 1;
    }
    last := first;
    while bs[last] < y
      invariant first <= last < |bs| && (first < last ==> bs[last - 1] < y) && (first == last ==> bs[last] < y)
      decreases |bs| - last
    {
      last := last + 1;
    }
  }

  /** What is left to do: buckets first .. last - 1, as whole buckets. */
  ghost predicate Left(bs: seq<nat>, n: nat, x: nat, y: nat, first: nat, last: nat, moved: seq<Range>)
  {
    && Cut(bs, n) && first < |bs| && last < |bs| && MovesEquality(bs, moved)
    && (forall b: nat :: b + 1 < |bs| && !Equality(b, |bs| - 1) && bs[b] < bs[b + 1] ==>
         (x <= bs[b] < y <==> first <= b < last))
    && (forall b: nat, p: nat :: x <= p < y && InEquality(bs, p, b) ==> first <= b < last || Moved(moved, p))
  }

  lemma MovedMore(bs: seq<nat>, moved: seq<Range>, r: Range)
    requires MovesEquality(bs, moved) && InsideEquality(bs, r)
    ensures MovesEquality(bs, moved + [r])
    ensures forall p: nat :: Moved(moved, p) ==> Moved(moved + [r], p)
    ensures forall p: nat :: r.lo <= p < r.hi ==> Moved(moved + [r], p)
  {
    var m := moved + [r];
    forall p: nat | Moved(moved, p) ensures Moved(m, p) {
      var j :| 0 <= j < |moved| && moved[j].lo <= p < moved[j].hi;
      assert m[j] == moved[j];
    }
    forall p: nat | r.lo <= p < r.hi ensures Moved(m, p) { assert m[|moved|] == r; }
  }

  lemma BucketUnique(bs: seq<nat>, n: nat, p: nat, b: nat, c: nat)
    requires Boundaries(bs, n) && b + 1 < |bs| && c + 1 < |bs|
    requires bs[b] <= p < bs[b + 1] && bs[c] <= p < bs[c + 1]
    ensures b == c
  {
    if b < c { BoundaryMono(bs, n, b + 1, c); } else if c < b { BoundaryMono(bs, n, c + 1, b); }
  }

  /** The buckets found are the ones that matter to the stripe. */
  lemma FoundBuckets(bs: seq<nat>, n: nat, x: nat, y: nat, first: nat, last: nat, b: nat)
    requires Cut(bs, n) && first < last < |bs| && bs[first] <= x < bs[first + 1] && bs[last - 1] < y <= bs[last]
    requires b + 1 < |bs| && bs[b] < bs[b + 1]
    ensures x <= bs[b] < y ==> first <= b < last
    ensures first < b < last ==> x <= bs[b] < y
    ensures (b == first ==> bs[b] < y) && (bs[b] < y && x < bs[b + 1] ==> first <= b < last)
  {
    if b < first { BoundaryMono(bs, n, b + 1, first); }
    if first < b { BoundaryMono(bs, n, first + 1, b); }
    if last <= b { BoundaryMono(bs, n, last, b); }
    if b < last { BoundaryMono(bs, n, b, last - 1); }
  }

  lemma EqualityAlternates(b: nat, numBuckets: nat)
    ensures b > 0 && Equality(b, numBuckets) ==> !Equality(b - 1, numBuckets)
  {
  }

  lemma PartOfBucket(bs: seq<nat>, b: nat, r: Range)
    requires b + 1 < |bs| && Equality(b, |bs| - 1) && bs[b] <= r.lo <= r.hi <= bs[b + 1]
    ensures InsideEquality(bs, r)
  {
  }

  /** The partly owned equality buckets at both ends of the stripe, and a first bucket that starts earlier. */
  method ProcessEnds(bs: seq<nat>, x: nat, y: nat, first0: nat, last0: nat, ghost n: nat)
      returns (first: nat, last: nat, moved: seq<Range>)
    requires Cut(bs, n) && x < y <= n
    requires first0 < last0 < |bs| && bs[first0] <= x < bs[first0 + 1] && bs[last0 - 1] < y <= bs[last0]
    ensures Left(bs, n, x, y, first, last, moved)
    ensures first < last ==> !Equality(last - 1, |bs| - 1)
    ensures first <= last && first0 <= first
  {
    first, last, moved := first0, last0, [];
    var numBuckets := |bs| - 1;
    assert MovesEquality(bs, moved) && first0 + 1 < |bs|;
    hide Moved, MovesEquality, InsideEquality, Equality;
    if Equality(first, numBuckets) {
      var stop := if y < bs[first + 1] then y else bs[first + 1];
      PartOfBucket(bs, first, Range(x, stop));
      MovedMore(bs, moved, Range(x, stop));
      moved := moved + [Range(x, stop)];
      first := first + 1;
    } else if x > bs[first] {
      first := first + 1;
    }
    ghost var front := moved;
    if first < last {
      var bucket := last - 1;
      if Equality(bucket, numBuckets) {
        EqualityAlternates(bucket, numBuckets);
        PartOfBucket(bs, bucket, Range(bs[bucket], y));
        MovedMore(bs, moved, Range(bs[bucket], y));
        moved := moved + [Range(bs[bucket], y)];
        last := last - 1;
      }
    }
    EndsLeft(bs, n, x, y, first0, last0, first, last, front, moved);
  }

  lemma EndsLeft(
      bs: seq<nat>, n: nat, x: nat, y: nat, first0: nat, last0: nat, first: nat, last: nat, front: seq<Range>,
      moved: seq<Range>)
    requires Cut(bs, n) && x < y <= n && MovesEquality(bs, moved)
    requires first0 < last0 < |bs| && bs[first0] <= x < bs[first0 + 1] && bs[last0 - 1] < y <= bs[last0]
    requires first == if Equality(first0, |bs| - 1) || x > bs[first0] then first0 + 1 else first0
    requires last == if first < last0 && Equality(last0 - 1, |bs| - 1) then last0 - 1 else last0
    requires Equality(first0, |bs| - 1) ==>
      forall p: nat :: x <= p < y && p < bs[first0 + 1] ==> Moved(front, p)
    requires last < last0 ==> forall p: nat :: bs[last] <= p < y ==> Moved(moved, p)
    requires forall p: nat :: Moved(front, p) ==> Moved(moved, p)
    ensures Left(bs, n, x, y, first, last, moved)
  {
    hide MovesEquality, Moved;
    forall b: nat | b + 1 < |bs| && !Equality(b, |bs| - 1) && bs[b] < bs[b + 1]
      ensures x <= bs[b] < y <==> first <= b < last
    {
      FoundBuckets(bs, n, x, y, first0, last0, b);
    }
    forall b: nat, p: nat | x <= p < y && InEquality(bs, p, b) ensures first <= b < last || Moved(moved, p) {
      FoundBuckets(bs, n, x, y, first0, last0, b);
      assert first0 <= b < last0;
      if b == first0 { assert Moved(front, p); }
    }
  }

  lemma CountMore(sorted: seq<nat>, i: nat)
    ensures forall b: nat :: Count(sorted + [i], Is(b)) == Count(sorted, Is(b)) + (if b == i then 1 else 0)
  {
    forall b: nat
      ensures Count(sorted + [i], Is(b)) == Count(sorted, Is(b)) + (if b == i then 1 else 0)
    {
      CountSnoc(sorted, i, Is(b));
    }
  }

  /** The buckets sorted are the buckets first .. last - 1 but the equality buckets, each of them once. */
  ghost predicate SortsOnce(bs: seq<nat>, sorted: seq<nat>, first: nat, last: nat) {
    && (forall j :: 0 <= j < |sorted| ==> sorted[j] + 1 < |bs| && !Equality(sorted[j], |bs| - 1))
    && (forall b: nat :: b + 1 < |bs| && !Equality(b, |bs| - 1) && bs[b] < bs[b + 1] ==>
         Count(sorted, Is(b)) == (if first <= b < last then 1 else 0))
  }

  /** The pairs of a bucket and its equality bucket, from bucket first on. */
  method ProcessPairs(bs: seq<nat>, first: nat, end: nat, sorted0: seq<nat>, moved0: seq<Range>)
      returns (sorted: seq<nat>, moved: seq<Range>)
    requires |bs| % 2 == 1 && end + 3 <= |bs| && (first < end ==> first % 2 == 0)
    requires forall i :: 0 <= i < |bs| - 1 ==> bs[i] <= bs[i + 1]
    requires MovesEquality(bs, moved0)
    ensures MovesEquality(bs, moved) && moved0 <= moved && sorted0 <= sorted
    ensures forall p: nat :: Moved(moved0, p) ==> Moved(moved, p)
    ensures forall b: nat, p: nat :: InEquality(bs, p, b) && first <= b < end ==> Moved(moved, p)
    ensures forall j :: |sorted0| <= j < |sorted| ==> sorted[j] < end && sorted[j] % 2 == 0
    ensures forall b: nat ::
      Count(sorted, Is(b)) == Count(sorted0, Is(b)) + (if first <= b < end && b % 2 == 0 then 1 else 0)
  {
    sorted, moved := sorted0, moved0;
    var i := first;
    while i < end
      invariant first <= i && (first < end ==> i % 2 == 0)
      invariant MovesEquality(bs, moved) && moved0 <= moved && sorted0 <= sorted
      invariant forall p: nat :: Moved(moved0, p) ==> Moved(moved, p)
      invariant forall b: nat, p: nat :: InEquality(bs, p, b) && first <= b < i ==> Moved(moved, p)
      invariant forall j :: |sorted0| <= j < |sorted| ==> sorted[j] < end && sorted[j] % 2 == 0
      invariant forall b: nat ::
        Count(sorted, Is(b)) == Count(sorted0, Is(b)) + (if first <= b < i && b < end && b % 2 == 0 then 1 else 0)
    {
      CountMore(sorted, i);
      sorted := sorted + [i];
      var r := Range(bs[i + 1], bs[i + 2]);
      assert Equality(i + 1, |bs| - 1) && InsideEquality(bs, r);
      MovedMore(bs, moved, r);
      moved := moved + [r];
      i := i + 2;
    }
  }

  /** The last buckets, if they are assigned to this stripe. */
  method ProcessLast(end: nat, last: nat, sorted0: seq<nat>) returns (sorted: seq<nat>)
    ensures sorted0 <= sorted && forall j :: |sorted0| <= j < |sorted| ==> end <= sorted[j] < last
    ensures forall b: nat :: Count(sorted, Is(b)) == Count(sorted0, Is(b)) + (if end <= b < last then 1 else 0)
  {
    sorted := sorted0;
    var i := end;
    while i < last
      invariant end <= i && sorted0 <= sorted
      invariant forall j :: |sorted0| <= j < |sorted| ==> end <= sorted[j] < last
      invariant forall b: nat ::
        Count(sorted, Is(b)) == Count(sorted0, Is(b)) + (if end <= b < i && b < last then 1 else 0)
    {
      CountMore(sorted, i);
      sorted := sorted + [i];
      i := i + 1;
    }
  }

  lemma WholeBucket(bs: seq<nat>, n: nat, b: nat)
    requires Boundaries(bs, n) && b + 1 < |bs| && Equality(b, |bs| - 1)
    ensures InsideEquality(bs, Range(bs[b], bs[b + 1]))
  {
  }

  /** The buckets that belong to this stripe alone. */
  method ProcessRest(bs: seq<nat>, first0: nat, last0: nat, moved0: seq<Range>, ghost n: nat)
      returns (sorted: seq<nat>, moved: seq<Range>)
    requires Cut(bs, n) && first0 <= last0 < |bs| && (first0 < last0 ==> !Equality(last0 - 1, |bs| - 1))
    requires MovesEquality(bs, moved0)
    ensures SortsOnce(bs, sorted, first0, last0) && MovesEquality(bs, moved)
    ensures forall p: nat :: Moved(moved0, p) ==> Moved(moved, p)
    ensures forall b: nat, p: nat :: InEquality(bs, p, b) && first0 <= b < last0 ==> Moved(moved, p)
  {
    hide Moved, MovesEquality, InsideEquality, SortsOnce;
    var first, last := first0, last0;
    sorted, moved := [], moved0;
    var numBuckets := |bs| - 1;
    if first < last {
      if Equality(first, numBuckets) {
        var r := Range(bs[first], bs[first + 1]);
        WholeBucket(bs, n, first);
        MovedMore(bs, moved, r);
        moved := moved + [r];
        first := first + 1;
      }
      if first < last && last % 2 == 0 && first < numBuckets - 2 {
        CountMore(sorted, last - 1);
        sorted := sorted + [last - 1];
        last := last - 1;
      }
      var end := if last < numBuckets - 2 then last else numBuckets - 2;
      sorted, moved := ProcessPairs(bs, first, end, sorted, moved);
      sorted := ProcessLast(end, last, sorted);
      RestSorted(bs, n, first0, last0, first, last, sorted);
    } else {
      NothingSorted(bs, first, last);
    }
  }

  lemma NothingSorted(bs: seq<nat>, first: nat, last: nat)
    requires first >= last
    ensures SortsOnce(bs, [], first, last)
  {
  }

  /** Pairs, the last buckets, and a last bucket whose equality bucket is not in the range make up the range. */
  lemma RestSorted(bs: seq<nat>, n: nat, first0: nat, last0: nat, first: nat, last: nat, sorted: seq<nat>)
    requires Cut(bs, n) && first0 < last0 < |bs| && !Equality(last0 - 1, |bs| - 1)
    requires first == if Equality(first0, |bs| - 1) then first0 + 1 else first0
    requires last == if first < last0 && last0 % 2 == 0 && first < |bs| - 3 then last0 - 1 else last0
    requires var end := if last < |bs| - 3 then last else |bs| - 3;
      forall b: nat :: Count(sorted, Is(b)) == (if last < last0 && b == last then 1 else 0)
        + (if first <= b < end && b % 2 == 0 then 1 else 0) + (if end <= b < last then 1 else 0)
    ensures SortsOnce(bs, sorted, first0, last0)
  {
    forall j | 0 <= j < |sorted| ensures sorted[j] + 1 < |bs| && !Equality(sorted[j], |bs| - 1) {
      CountWithout(sorted, j, Is(sorted[j]));
    }
  }

  /** The whole cleanup of the thread whose stripe is [x, y). */
  method CleanUpStripe(bs: seq<nat>, x: nat, y: nat, ghost n: nat) returns (sorted: seq<nat>, moved: seq<Range>)
    requires Cut(bs, n) && x < y <= n
    ensures Cleans(bs, x, y, sorted, moved)
  {
    var first, last := FindBuckets(bs, x, y, n);
    first, last, moved := ProcessEnds(bs, x, y, first, last, n);
    sorted, moved := ProcessRest(bs, first, last, moved, n);
  }

  /**
   * A thread sorts exactly the non-empty buckets that start in its stripe, equality buckets excepted, and
   * moves at least the elements of equality buckets in its stripe, and no others.
   */
  ghost predicate Cleans(bs: seq<nat>, x: nat, y: nat, sorted: seq<nat>, moved: seq<Range>) {
    && MovesEquality(bs, moved)
    && (forall j :: 0 <= j < |sorted| ==> sorted[j] + 1 < |bs| && !Equality(sorted[j], |bs| - 1))
    && (forall b: nat :: b + 1 < |bs| && !Equality(b, |bs| - 1) && bs[b] < bs[b + 1] ==>
         Count(sorted, Is(b)) == (if x <= bs[b] < y then 1 else 0))
    && (forall b: nat, p: nat :: x <= p < y && InEquality(bs, p, b) ==> Moved(moved, p))
  }

  // ---------------------------------------------------------------- all threads together

  /** Stripes of all threads: none is empty, and together they cover the range. */
  ghost predicate Stripes(st: seq<nat>, n: nat) {
    && |st| > 1 && Boundaries(st, n) && forall t :: 0 <= t < |st| - 1 ==> st[t] < st[t + 1]
  }

  /** What every thread's cleanup does. */
  ghost predicate AllClean(bs: seq<nat>, st: seq<nat>, sorted: seq<seq<nat>>, moved: seq<seq<Range>>) {
    && |st| == |sorted| + 1 == |moved| + 1
    && forall t :: 0 <= t < |sorted| ==> Cleans(bs, st[t], st[t + 1], sorted[t], moved[t])
  }

  /** Every non-empty bucket that is no equality bucket is sorted by exactly one thread, once. */
  lemma SortedByOneThread(
      bs: seq<nat>, n: nat, st: seq<nat>, sorted: seq<seq<nat>>, moved: seq<seq<Range>>, b: nat) returns (t: nat)
    requires Cut(bs, n) && Stripes(st, n) && AllClean(bs, st, sorted, moved)
    requires b + 1 < |bs| && !Equality(b, |bs| - 1) && bs[b] < bs[b + 1]
    ensures t < |sorted| && Count(sorted[t], Is(b)) == 1
    ensures forall u :: 0 <= u < |sorted| && u != t ==> Count(sorted[u], Is(b)) == 0
  {
    BoundaryMono(bs, n, b + 1, |bs| - 1);
    t := StripeOf(st, n, bs[b], |st| - 1);
    assert Cleans(bs, st[t], st[t + 1], sorted[t], moved[t]);
    forall u | 0 <= u < |sorted| && u != t ensures Count(sorted[u], Is(b)) == 0 {
      assert Cleans(bs, st[u], st[u + 1], sorted[u], moved[u]);
      if u < t { BoundaryMono(st, n, u + 1, t); } else { BoundaryMono(st, n, t + 1, u); }
    }
  }

  /** Every element of an equality bucket is moved by at least one thread. */
  lemma MovedBySomeThread(
      bs: seq<nat>, n: nat, st: seq<nat>, sorted: seq<seq<nat>>, moved: seq<seq<Range>>, b: nat, p: nat)
      returns (t: nat)
    requires Cut(bs, n) && Stripes(st, n) && AllClean(bs, st, sorted, moved) && InEquality(bs, p, b)
    ensures t < |moved| && Moved(moved[t], p)
  {
    BoundaryMono(bs, n, b + 1, |bs| - 1);
    t := StripeOf(st, n, p, |st| - 1);
    assert Cleans(bs, st[t], st[t + 1], sorted[t], moved[t]);
  }
}
