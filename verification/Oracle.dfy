/**
 * Out-of-place partitioning of one range: classification writes every element's bucket into the oracle,
 * one byte each, and distribution moves the elements to the other array.
 */
module Oracle {
  import opened Bags
  import opened Buckets
  import opened Classifier
  import opened Scatter

  newtype Byte = x: int | 0 <= x < 256

  ghost function Values(s: seq<Byte>): (o: seq<nat>)
    ensures |o| == |s| && forall i :: 0 <= i < |s| ==> o[i] == s[i] as nat
  {
    seq(|s|, i requires 0 <= i < |s| => s[i] as nat)
  }

  ghost function Classes<T>(v: seq<T>, cls: T -> nat): (o: seq<nat>)
    ensures |o| == |v| && forall i :: 0 <= i < |v| ==> o[i] == cls(v[i])
  {
    seq(|v|, i requires 0 <= i < |v| => cls(v[i]))
  }

  lemma NextClass<T>(v: seq<T>, cls: T -> nat, i: nat, b: nat)
    requires i < |v|
    ensures Count(Classes(v, cls)[..i + 1], Is(b)) == Count(Classes(v, cls)[..i], Is(b))
      + (if cls(v[i]) == b then 1 else 0)
  {
    var o := Classes(v, cls);
    assert o[..i + 1] == o[..i] + [o[i]];
    CountSnoc(o[..i], o[i], Is(b));
  }

  /** Writes the oracle for out, the buckets of the elements from begin on, and counts them. */
  method Record<T(!new)>(
      out: seq<nat>, begin: nat, oracle: array<Byte>, sizes: array<nat>, ghost v: seq<T>, ghost cls: T -> nat)
    requires begin + |out| <= oracle.Length && |out| == |v| && (oracle as object) != sizes
    requires sizes.Length <= 256 && forall x :: cls(x) < sizes.Length
    requires forall i :: 0 <= i < |v| ==> out[i] == cls(v[i])
    modifies oracle, sizes
    ensures Values(oracle[begin..begin + |out|]) == Classes(v, cls)
    ensures oracle[..begin] == old(oracle[..begin]) && oracle[begin + |out|..] == old(oracle[begin + |out|..])
    ensures forall b :: 0 <= b < sizes.Length ==> sizes[b] == Count(Classes(v, cls), Is(b))
  {
    for bucket := 0 to sizes.Length
      invariant forall b :: 0 <= b < bucket ==> sizes[b] == 0
      invariant oracle[..] == old(oracle[..])
    {
      sizes[bucket] := 0;
    }
    ghost var o := Classes(v, cls);
    assert o[..0] == [];
    for i := 0 to |out|
      invariant forall j :: 0 <= j < begin || begin + i <= j < oracle.Length ==> oracle[j] == old(oracle[j])
      invariant forall j :: 0 <= j < i ==> oracle[begin + j] as nat == o[j]
      invariant forall b :: 0 <= b < sizes.Length ==> sizes[b] == Count(o[..i], Is(b))
    {
      forall b ensures Count(o[..i + 1], Is(b)) == Count(o[..i], Is(b)) + (if o[i] == b then 1 else 0) {
        NextClass(v, cls, i, b);
      }
      oracle[begin + i] := out[i] as Byte;
      sizes[out[i]] := sizes[out[i]] + 1;
    }
    assert o[..|out|] == o;
  }

  /** Local classification of a[begin..end]. */
  method ClassifyLocally<T(!new)>(
      a: array<T>, begin: nat, end: nat, oracle: array<Byte>, sizes: array<nat>, cl: Classifier<T>, equal: bool,
      unroll: nat, ghost cls: T -> nat)
    requires Agrees(cl, equal, cls) && 0 < unroll && begin + unroll <= end <= a.Length && end <= oracle.Length
    requires sizes.Length <= 256 && (oracle as object) != sizes && forall x :: cls(x) < sizes.Length
    modifies oracle, sizes
    ensures Values(oracle[begin..end]) == Classes(old(a[begin..end]), cls)
    ensures oracle[..begin] == old(oracle[..begin]) && oracle[end..] == old(oracle[end..])
    ensures forall b :: 0 <= b < sizes.Length ==> sizes[b] == Count(Classes(old(a[begin..end]), cls), Is(b))
  {
    var out := cl.ClassifyUnrolled(equal, unroll, a, begin, end);
    Record(out, begin, oracle, sizes, a[begin..end], cls);
  }

  /** Exclusive scan of the bucket sizes. */
  method FindStarts(sizes: array<nat>, ghost o: seq<nat>) returns (bs: seq<nat>)
    requires Bounded(o, sizes.Length)
    requires forall b :: 0 <= b < sizes.Length ==> sizes[b] == Count(o, Is(b))
    ensures |bs| == sizes.Length + 1 && Boundaries(bs, |o|)
    ensures forall b :: 0 <= b < |bs| ==> bs[b] == First(o, b)
  {
    FirstEnds(o, sizes.Length);
    var sum: nat := 0;
    bs := [0];
    for i := 0 to sizes.Length
      invariant |bs| == i + 1 && sum == First(o, i)
      invariant forall b :: 0 <= b <= i ==> bs[b] == First(o, b)
    {
      FirstNext(o, i);
      sum := sum + sizes[i];
      bs := bs + [sum];
    }
    forall b | 0 <= b < |bs| - 1 ensures bs[b] <= bs[b + 1] { FirstMono(o, b, b + 1); }
  }

  lemma OffsetOfNextStripe(o: seq<nat>, x: nat, y: nat, b: nat)
    requires x <= y <= |o|
    ensures Offset(o, y, b) == Offset(o, x, b) + Count(o[x..y], Is(b))
  {
    assert o[..y] == o[..x] + o[x..y];
    CountConcat(o[..x], o[x..y], Is(b));
  }

  /** Sizes of all threads' buckets, as the threads have counted them in their stripes. */
  ghost predicate Counted(sizes: array2<nat>, o: seq<nat>, st: seq<nat>, numBuckets: nat)
    reads sizes
  {
    && Boundaries(st, |o|) && |st| == sizes.Length0 + 1 && numBuckets <= sizes.Length1
    && forall t, b :: 0 <= t < sizes.Length0 && 0 <= b < numBuckets ==> SizeOk(sizes[t, b], o, st, t, b)
  }

  ghost predicate SizeOk(size: nat, o: seq<nat>, st: seq<nat>, t: nat, b: nat) {
    t + 1 < |st| && st[t] <= st[t + 1] <= |o| && size == Count(o[st[t]..st[t + 1]], Is(b))
  }

  /** Thread t starts to write into bucket b behind the elements that the threads before it move there. */
  ghost predicate StartOk(start: nat, o: seq<nat>, st: seq<nat>, t: nat, b: nat) {
    t < |st| && st[t] <= |o| && start == Offset(o, st[t], b)
  }

  /** Offsets of one bucket for all threads. */
  method BucketOffsets(
      sizes: array2<nat>, starts: array2<nat>, bucket: nat, numBuckets: nat, first: nat, ghost o: seq<nat>,
      ghost st: seq<nat>)
      returns (off: nat)
    requires starts.Length0 == sizes.Length0 && bucket < numBuckets <= starts.Length1 && sizes != starts
    requires Counted(sizes, o, st, numBuckets) && first == First(o, bucket)
    modifies starts
    ensures off == First(o, bucket + 1)
    ensures forall t :: 0 <= t < sizes.Length0 ==> StartOk(starts[t, bucket], o, st, t, bucket)
    ensures forall t, b :: 0 <= t < starts.Length0 && 0 <= b < starts.Length1 && b != bucket ==>
      starts[t, b] == old(starts[t, b])
  {
    off := first;
    assert o[..st[0]] == [];
    for thread := 0 to sizes.Length0
      invariant st[thread] <= |o| && off == Offset(o, st[thread], bucket)
      invariant forall t :: 0 <= t < thread ==> StartOk(starts[t, bucket], o, st, t, bucket)
      invariant forall t, b :: 0 <= t < starts.Length0 && 0 <= b < starts.Length1 && b != bucket ==>
        starts[t, b] == old(starts[t, b])
    {
      starts[thread, bucket] := off;
      assert SizeOk(sizes[thread, bucket], o, st, thread, bucket);
      OffsetOfNextStripe(o, st[thread], st[thread + 1], bucket);
      off := off + sizes[thread, bucket];
    }
    assert o[..|o|] == o;
    FirstNext(o, bucket);
  }

  /** Thread 0 computes the offsets of all threads, bucket by bucket, and the bucket boundaries. */
  method FindOffsets(
      sizes: array2<nat>, starts: array2<nat>, numBuckets: nat, ghost o: seq<nat>,
      ghost st: seq<nat>) returns (bs: seq<nat>)
    requires starts.Length0 == sizes.Length0 && numBuckets <= starts.Length1 && sizes != starts
    requires Counted(sizes, o, st, numBuckets) && Bounded(o, numBuckets)
    modifies starts
    ensures |bs| == numBuckets + 1 && forall b :: 0 <= b <= numBuckets ==> bs[b] == First(o, b)
    ensures forall t, b :: 0 <= t < sizes.Length0 && 0 <= b < numBuckets ==> StartOk(starts[t, b], o, st, t, b)
  {
    var off: nat := 0;
    bs := [0];
    FirstEnds(o, numBuckets);
    for bucket := 0 to numBuckets
      invariant |bs| == bucket + 1 && off == First(o, bucket) && forall b :: 0 <= b <= bucket ==> bs[b] == First(o, b)
      invariant forall t, b :: 0 <= t < sizes.Length0 && 0 <= b < bucket ==> StartOk(starts[t, b], o, st, t, b)
    {
      off := BucketOffsets(sizes, starts, bucket, numBuckets, off, o, st);
      bs := bs + [off];
    }
  }

  /** One move of the distribution. */
  lemma MoveStep<T>(v: seq<T>, o: seq<nat>, k: nat, u: seq<T>, u': seq<T>, lo: nat, i: nat)
    requires |v| == |o| && i < |o| && lo + |o| <= |u| && Bounded(o, k)
    requires Dest(o, i) < |o| && u' == u[lo + Dest(o, i) := v[i]]
    requires forall j :: 0 <= j < i ==> Dest(o, j) < |o| && u[lo + Dest(o, j)] == v[j]
    ensures forall j :: 0 <= j < i + 1 ==> Dest(o, j) < |o| && u'[lo + Dest(o, j)] == v[j]
  {
    forall j | 0 <= j < i + 1 ensures Dest(o, j) < |o| && u'[lo + Dest(o, j)] == v[j] {
      if j < i { DestInjective(o, j, i); }
    }
  }

  ghost predicate Placed<T>(v: seq<T>, o: seq<nat>, u: seq<T>, lo: nat, i: nat)
    requires |v| == |o| && i <= |o| && lo + |o| <= |u|
  {
    forall j :: 0 <= j < i ==> Dest(o, j) < |o| && u[lo + Dest(o, j)] == v[j]
  }

  /** Where the next element of every bucket goes, when the first i elements have been moved. */
  ghost predicate NextOk(next: seq<nat>, o: seq<nat>, i: nat, k: nat) {
    i <= |o| && k <= |next| && forall b :: 0 <= b < k ==> next[b] == Offset(o, i, b)
  }

  lemma NextMoves(next: seq<nat>, o: seq<nat>, i: nat, k: nat)
    requires NextOk(next, o, i, k) && i < |o| && o[i] < k
    ensures NextOk(next[o[i] := next[o[i]] + 1], o, i + 1, k)
  {
    forall b ensures Offset(o, i + 1, b) == Offset(o, i, b) + (if o[i] == b then 1 else 0) { OffsetNext(o, i, b); }
  }

  /** Moves a[lo..hi] to tmp[lo..hi], every element to the next slot of its bucket. */
  method DistributeElements<T(!new)>(
      a: array<T>, lo: nat, hi: nat, tmp: array<T>, oracle: array<Byte>, next: array<nat>, ghost o: seq<nat>, k: nat)
    requires lo <= hi <= a.Length && hi <= tmp.Length && hi <= oracle.Length && a != tmp
    requires (oracle as object) != tmp && (next as object) != tmp && (next as object) != a && (next as object) != oracle
    requires o == Values(oracle[lo..hi]) && Bounded(o, k) && k <= next.Length
    requires forall b :: 0 <= b < k ==> next[b] == First(o, b)
    modifies tmp, next
    ensures |Stable(a[lo..hi], o, k)| == hi - lo && tmp[lo..hi] == Stable(a[lo..hi], o, k)
    ensures tmp[..lo] == old(tmp[..lo]) && tmp[hi..] == old(tmp[hi..])
  {
    ghost var v := a[lo..hi];
    FirstEnds(o, k);
    assert o[..0] == [];
    for i := lo to hi
      invariant NextOk(next[..], o, i - lo, k) && Placed(v, o, tmp[..], lo, i - lo)
      invariant tmp[..lo] == old(tmp[..lo]) && tmp[hi..] == old(tmp[hi..])
    {
      assert oracle[i] as nat == oracle[lo..hi][i - lo] as nat == o[i - lo];
      MoveElement(a[i], oracle[i] as nat, lo, tmp, next, v, o, i - lo, k);
    }
    ScatteredIsStable(v, o, k, tmp[lo..hi]);
  }

  /** Moves x to the next slot of its bucket. */
  method MoveElement<T(!new)>(
      x: T, bucket: nat, lo: nat, tmp: array<T>, next: array<nat>, ghost v: seq<T>, ghost o: seq<nat>, ghost i: nat,
      ghost k: nat)
    requires (next as object) != tmp && |v| == |o| && i < |o| && lo + |o| <= tmp.Length && Bounded(o, k)
    requires x == v[i] && bucket == o[i]
    requires NextOk(next[..], o, i, k) && Placed(v, o, tmp[..], lo, i)
    modifies tmp, next
    ensures NextOk(next[..], o, i + 1, k) && Placed(v, o, tmp[..], lo, i + 1)
    ensures tmp[..lo] == old(tmp[..lo]) && tmp[lo + |o|..] == old(tmp[lo + |o|..])
  {
    ghost var u, m := tmp[..], next[..];
    DestInBucket(o, i);
    NextMoves(m, o, i, k);
    tmp[lo + next[bucket]] := x;
    MoveStep(v, o, k, u, tmp[..], lo, i);
    next[bucket] := next[bucket] + 1;
    assert next[..] == m[bucket := m[bucket] + 1];
  }
}
