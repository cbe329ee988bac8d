/** One in-place partitioning step of the sequential sorter: the phases in their order. */
module InPlacePartition {
  import opened Order
  import opened Bags
  import opened Buckets
  import opened Powers
  import opened Buffers
  import opened Classifier
  import opened LocalClassification
  import opened BlockProtocol
  import opened BlockResults
  import opened BlockSequential
  import opened BlockPermutation
  import opened InPlaceLayout
  import opened Margins
  import opened PermutedBlocks

  // ---------------------------------------------------------------- classification

  /** Bucket boundaries from bucket sizes; the last one is the number of elements. */
  method FindBoundaries<T(!new)>(bucketSize: array<nat>, ghost s: seq<T>, ghost cls: T -> nat) returns (bs: seq<nat>)
    requires forall i :: 0 <= i < bucketSize.Length ==> bucketSize[i] == Count(s, Has(cls, i))
    requires forall x :: cls(x) < bucketSize.Length
    ensures |bs| == bucketSize.Length + 1 && Boundaries(bs, |s|)
    ensures forall i :: 0 <= i < bucketSize.Length ==> SizeOf(bs, i) == bucketSize[i]
  {
    var sum: nat := 0;
    bs := [0];
    CountNone(s, Below(cls, 0));
    for i := 0 to bucketSize.Length
      invariant |bs| == i + 1 && bs[0] == 0 && sum == bs[i] == Count(s, Below(cls, i))
      invariant forall j :: 0 <= j < i ==> bs[j + 1] == bs[j] + bucketSize[j]
    {
      CountBelow(s, cls, i);
      sum := sum + bucketSize[i];
      bs := bs + [sum];
    }
    CountAll(s, Below(cls, bucketSize.Length));
  }

  /** Write pointers to the first block of every bucket, read pointers to its last full one. */
  method SetPointers(bp: BucketPointers, bs: seq<nat>, first: nat, B: nat)
    requires B > 0 && |bp.w| == |bp.r| == |bs| - 1
    modifies bp
    ensures |bp.w| == |bp.r| == |bs| - 1
    ensures bp.w == Starts(bs, B)[..|bs| - 1]
    ensures forall b :: 0 <= b < |bs| - 1 ==> bp.r[b] == Fulls(Starts(bs, B), first)[b] as int - 1
  {
    for bucket := 0 to |bs| - 1
      invariant |bp.w| == |bp.r| == |bs| - 1
      invariant forall b :: 0 <= b < bucket ==> bp.w[b] == Starts(bs, B)[b]
      invariant forall b :: 0 <= b < bucket ==> bp.r[b] == Fulls(Starts(bs, B), first)[b] as int - 1
    {
      var start, stop := Blocks(bs[bucket], B), Blocks(bs[bucket + 1], B);
      bp.Set(bucket, start, (if start >= first then start else if stop <= first then stop else first) - 1);
    }
  }

  lemma AllClassified<T(!new)>(
      s0: seq<T>, s: seq<T>, B: nat, flushed: seq<nat>, bufs: seq<seq<T>>, sizes: seq<nat>, bs: seq<nat>, cls: T -> nat)
    requires Progress(s0, s, |s0|, B, |flushed| * B, flushed, bufs, sizes, cls)
    requires |bs| == |bufs| + 1 > 1 && Boundaries(bs, |s0|) && forall x :: cls(x) < |bufs|
    requires forall i :: 0 <= i < |bufs| ==> SizeOf(bs, i) == Count(s0, Has(cls, i))
    ensures Classified(s0, s, B, flushed, bufs, sizes, bs, cls)
  {
    hide Progress, Boundaries, Count;
    TotalCount(s0, s, B, |flushed| * B, flushed, bufs, sizes, cls);
    SameLength(s0, s, B, |flushed| * B, flushed, bufs, sizes, cls);
  }

  lemma SameLength<T(!new)>(
      s0: seq<T>, s: seq<T>, B: nat, at: nat, flushed: seq<nat>, bufs: seq<seq<T>>, sizes: seq<nat>, cls: T -> nat)
    requires Progress(s0, s, |s0|, B, at, flushed, bufs, sizes, cls)
    ensures |s| == |s0| && |sizes| == |bufs|
  {
  }

  /** The classification phase. */
  method SequentialClassification<T(!new)>(
      a: array<T>, begin: nat, end: nat, buffers: Buffers<T>, bp: BucketPointers, cl: Classifier<T>, equal: bool,
      ghost cls: T -> nat)
      returns (bs: seq<nat>, ghost flushed: seq<nat>, ghost sizes: seq<nat>)
    requires begin <= end <= a.Length && a != cl.tree && a != cl.sorted && Agrees(cl, equal, cls)
    requires buffers.blockSize > 0 && |bp.w| == |bp.r| == |buffers.content| > 0
    requires forall i :: 0 <= i < |buffers.content| ==> buffers.content[i] == []
    requires forall x :: cls(x) < |buffers.content|
    modifies a, buffers, bp
    ensures a[..begin] == old(a[..begin]) && a[end..] == old(a[end..])
    ensures Classified(old(a[begin..end]), a[begin..end], buffers.blockSize, flushed, buffers.content, sizes, bs, cls)
    ensures |bp.w| == |bp.r| == |buffers.content| == old(|buffers.content|)
    ensures bp.w == Starts(bs, buffers.blockSize)[..|bs| - 1]
    ensures forall b :: 0 <= b < |bs| - 1 ==> bp.r[b] == Fulls(Starts(bs, buffers.blockSize), |flushed|)[b] as int - 1
  {
    ghost var s0 := a[begin..end];
    var bucketSize := new nat[|buffers.content|](_ => 0);
    var first;
    hide Progress, Classified, Boundaries, Count, Fulls, Starts;
    first, flushed, sizes := ClassifyLocally(a, begin, end, buffers, bucketSize, cl, equal, cls);
    bs := FindBoundaries(bucketSize, s0, cls);
    AllClassified(s0, a[begin..end], buffers.blockSize, flushed, buffers.content, sizes, bs, cls);
    SetPointers(bp, bs, first, buffers.blockSize);
  }

  // ---------------------------------------------------------------- permutation

  lemma SliceBlocks<T>(t: seq<T>, begin: nat, end: nat, n: nat, B: nat)
    requires begin <= end <= |t| && begin + n * B <= end
    ensures BlocksOf(t, begin, n, B) == BlocksOf(t[begin..end], 0, n, B)
  {
    var x, y := BlocksOf(t, begin, n, B), BlocksOf(t[begin..end], 0, n, B);
    forall q | 0 <= q < n ensures x[q] == y[q] {
      MulLess(q, n, B);
      SliceOfSlice(t, begin, end, q * B, q * B + B);
    }
  }

  /** The permutation can start: everything its constructor asks for. */
  lemma CanStart<T(!new)>(
      t: seq<T>, begin: nat, end: nat, p: Layout<seq<T>>,
      s0: seq<T>, s: seq<T>, B: nat, flushed: seq<nat>, bufs: seq<seq<T>>, sizes: seq<nat>, bs: seq<nat>, cls: T -> nat)
    requires Classified(s0, s, B, flushed, bufs, sizes, bs, cls) && begin <= end <= |t| && s == t[begin..end]
    requires B > 0 && |bs| > 1 && p == LayoutOf(s, B, |flushed|, Starts(bs, B), cls)
    ensures (|s| / B) * B <= |s| && Start(p, BlocksOf(t, begin, |s| / B, B))
    ensures p.cls == HeadClass(cls) && p.whole == |s| / B && Num(p) == |bs| - 1 && p.first == [0]
    ensures p.start == Starts(bs, B) && p.full == Fulls(Starts(bs, B), |flushed|) && Rising(p.start)
  {
    hide Start;
    LayoutStart(s0, s, B, flushed, bufs, sizes, bs, cls);
    ClassifiedFacts(s0, s, B, flushed, bufs, sizes, bs, cls);
    StartsRise(bs, |s|, B);
    SliceBlocks(t, begin, end, |s| / B, B);
  }

  /** The permutation phase. */
  method Permute<T(!new)>(
      a: array<T>, begin: nat, end: nat, B: nat, bp: BucketPointers, bs: seq<nat>, cl: Classifier<T>, equal: bool,
      ghost s0: seq<T>, ghost s: seq<T>, ghost flushed: seq<nat>, ghost bufs: seq<seq<T>>, ghost sizes: seq<nat>,
      ghost cls: T -> nat)
      returns (over: Option<seq<T>>, ghost p: Layout<seq<T>>, ghost st: State<seq<T>>)
    requires begin <= end <= a.Length && a != cl.tree && a != cl.sorted && Agrees(cl, equal, cls)
    requires s == a[begin..end] && Classified(s0, s, B, flushed, bufs, sizes, bs, cls) && |bs| > 1 && B > 0
    requires |bp.w| == |bp.r| == |bs| - 1 && bp.w == Starts(bs, B)[..|bs| - 1]
    requires forall b :: 0 <= b < |bs| - 1 ==> bp.r[b] == Fulls(Starts(bs, B), |flushed|)[b] as int - 1
    modifies a, bp
    ensures a[..begin] == old(a[..begin]) && a[end..] == old(a[end..])
    ensures p == LayoutOf(s, B, |flushed|, Starts(bs, B), cls) && Permuted(a[..], begin, |s|, B, p, cls, st, over)
    ensures bp.w == st.w
  {
    hide Classified, Start, Starts, Fulls, Rising, Alone, AllDone, Agrees, Owners;
    p := LayoutOf(s, B, |flushed|, Starts(bs, B), cls);
    ghost var t := a[..];
    assert s == t[begin..end];
    CanStart(t, begin, end, p, s0, s, B, flushed, bufs, sizes, bs, cls);
    var whole := (end - begin) / B;
    var pm := new Permuter<T>(a, begin, B, whole, |bs| - 1, cl, equal, bp, cls, p);
    pm.PermuteBlocks();
    over, st := pm.overflow, pm.st;
    OneThread(p, st, over);
    OnlyInside(t, a[..], begin, end, whole * B);
  }

  lemma OneThread<Bl(!new)>(p: Layout<Bl>, st: State<Bl>, over: Option<Bl>)
    requires Alone(p, st) && over == st.workers[0].spill
    ensures Inv(p, st) && SharedOverflow(st, over)
  {
  }

  lemma OnlyInside<T>(s: seq<T>, t: seq<T>, begin: nat, end: nat, size: nat)
    requires begin + size <= end <= |s| == |t| && SameOutside(s, t, begin, size)
    ensures t[..begin] == s[..begin] && t[end..] == s[end..]
  {
    assert t[end..] == t[begin + size..][end - begin - size..] && s[end..] == s[begin + size..][end - begin - size..];
  }

  // ---------------------------------------------------------------- the whole step

  lemma DonePiece<T(!new)>(
      t: seq<T>, u: seq<T>, pl: Plan, over: Option<seq<T>>, buf: seq<T>, cls: T -> nat, i: nat,
      base: nat, lastLevel: bool, less: (T, T) -> bool)
    requires pl.Ok() && i < |pl.w| && pl.begin + pl.n <= |u|
    requires BucketDone(t, u, pl, over, buf, cls, i, Small(pl, i, base, lastLevel), less)
    ensures PieceOk(u[pl.begin..pl.begin + pl.n], pl.bs, cls, i, base, lastLevel, less)
  {
    BoundaryMono(pl.bs, pl.n, i + 1, |pl.bs| - 1);
    SliceOfSlice(u, pl.begin, pl.begin + pl.n, pl.bs[i], pl.bs[i + 1]);
    hide AllOf, Sorted, Belongings;
  }

  lemma DoneBag<T(!new)>(
      t: seq<T>, u: seq<T>, pl: Plan, over: Option<seq<T>>, buf: seq<T>, cls: T -> nat, i: nat,
      small: bool, less: (T, T) -> bool)
    requires pl.Ok() && i < |pl.w| && pl.Lim() <= |t| && pl.begin + pl.n <= |u|
    requires BucketDone(t, u, pl, over, buf, cls, i, small, less)
    ensures pl.bs[i] <= pl.bs[i + 1] <= pl.n
    ensures multiset(u[pl.begin + pl.bs[i]..pl.begin + pl.n])
         == Belongings(t, pl.Bucket(i), pl.Lim(), over, buf) + multiset(u[pl.begin + pl.bs[i + 1]..pl.begin + pl.n])
  {
    hide BucketDone, Belongings, Boundaries;
    DoneFacts(t, u, pl, over, buf, cls, i, small, less);
    BoundaryMono(pl.bs, pl.n, i + 1, |pl.bs| - 1);
    SplitAt(u, pl.begin + pl.bs[i], pl.begin + pl.bs[i + 1], pl.begin + pl.n);
  }

  lemma DoneFacts<T(!new)>(
      t: seq<T>, u: seq<T>, pl: Plan, over: Option<seq<T>>, buf: seq<T>, cls: T -> nat, i: nat,
      small: bool, less: (T, T) -> bool)
    requires pl.Ok() && i < |pl.w| && pl.Lim() <= |t|
    requires BucketDone(t, u, pl, over, buf, cls, i, small, less)
    ensures pl.bs[i] <= pl.bs[i + 1] && pl.begin + pl.bs[i + 1] <= |u|
    ensures multiset(u[pl.begin + pl.bs[i]..pl.begin + pl.bs[i + 1]])
      == Belongings(t, pl.Bucket(i), pl.Lim(), over, buf)
  {
    hide AllOf, Sorted, Belongings, Boundaries;
  }

  lemma {:induction false} FilledBag<T(!new)>(
      t: seq<T>, u: seq<T>, pl: Plan, over: Option<seq<T>>, bufs: seq<seq<T>>, cls: T -> nat, i: nat,
      base: nat, lastLevel: bool, less: (T, T) -> bool)
    requires pl.Ok() && |bufs| == |pl.w| && pl.Lim() <= |t| && i <= |pl.w| && pl.begin + pl.n <= |u|
    requires forall j :: 0 <= j < |pl.w| ==>
      BucketDone(t, u, pl, over, bufs[j], cls, j, Small(pl, j, base, lastLevel), less)
    ensures pl.bs[i] <= pl.n
    ensures multiset(u[pl.begin + pl.bs[i]..pl.begin + pl.n]) == RestBag(t, pl, over, bufs, i)
    decreases |pl.w| - i
  {
    hide BucketDone, Belongings, Boundaries;
    BoundaryMono(pl.bs, pl.n, i, |pl.bs| - 1);
    if i < |pl.w| {
      FilledBag(t, u, pl, over, bufs, cls, i + 1, base, lastLevel, less);
      DoneBag(t, u, pl, over, bufs[i], cls, i, Small(pl, i, base, lastLevel), less);
    } else {
      LastBoundary(pl);
    }
  }

  lemma LastBoundary(pl: Plan)
    requires pl.Ok()
    ensures pl.bs[|pl.w|] == pl.n && pl.bs[0] == 0
  {
  }

  lemma PreparedFacts<T(!new)>(t: seq<T>, pl: Plan, over: Option<seq<T>>, bufs: seq<seq<T>>, cls: T -> nat)
    requires Prepared(t, pl, over, bufs, cls)
    ensures pl.Ok() && |pl.w| == |bufs| && |pl.bs| == |pl.w| + 1 && pl.B > 0
  {
  }

  /** Classification and permutation by one thread. */
  lemma SequentialSettled<T(!new)>(
      s0: seq<T>, s: seq<T>, B: nat, flushed: seq<nat>, bufs: seq<seq<T>>, sizes: seq<nat>, bs: seq<nat>, cls: T -> nat,
      t: seq<T>, begin: nat, p: Layout<seq<T>>, st: State<seq<T>>, over: Option<seq<T>>)
    requires Classified(s0, s, B, flushed, bufs, sizes, bs, cls) && B > 0 && |bs| > 1
    requires p == LayoutOf(s, B, |flushed|, Starts(bs, B), cls) && Permuted(t, begin, |s|, B, p, cls, st, over)
    ensures |s| == |s0| && Settled(s0, t, begin, B, p, bs, bufs, cls, st, over)
  {
    ClassifiedFacts(s0, s, B, flushed, bufs, sizes, bs, cls);
    StartsRise(bs, |s|, B);
    ClassifiedStored(s0, s, B, flushed, bufs, sizes, bs, cls);
    assert p.blocks == FlushedBlocks(s, B, |flushed|, Blocks(|s|, B)) && p.start == Starts(bs, B);
    hide Classified, Permuted, Stored, FlushedBlocks;
  }

  /** Classification and permutation: everything but the margins. */
  method DistributeBlocks<T(!new)>(
      a: array<T>, begin: nat, end: nat, buffers: Buffers<T>, cl: Classifier<T>, equal: bool, ghost cls: T -> nat)
      returns (pl: Plan, overflowBucket: int, over: Option<seq<T>>)
    requires begin <= end <= a.Length && a != cl.tree && a != cl.sorted && Agrees(cl, equal, cls)
    requires buffers.blockSize > 0 && |buffers.content| > 0 && forall x :: cls(x) < |buffers.content|
    requires forall i :: 0 <= i < |buffers.content| ==> buffers.content[i] == []
    modifies a, buffers
    ensures a[..begin] == old(a[..begin]) && a[end..] == old(a[end..])
    ensures pl.begin == begin && pl.n == end - begin && pl.B == buffers.blockSize
    ensures pl.Ok() && |pl.w| == |buffers.content| == old(|buffers.content|) && pl.Lim() <= a.Length
    ensures Prepared(a[..], pl, over, buffers.content, cls)
    ensures RestBag(a[..], pl, over, buffers.content, 0) == multiset(old(a[begin..end]))
    ensures forall i :: 0 <= i < |pl.w| ==> (i == overflowBucket && over.Some? <==> Spilled(pl.Bucket(i), pl.Lim()))
  {
    var B := buffers.blockSize;
    var bp := new BucketPointers(|buffers.content|);
    ghost var s0 := a[begin..end];
    ghost var flushed, sizes, st, p;
    hide *;
    var bs;
    bs, flushed, sizes := SequentialClassification(a, begin, end, buffers, bp, cl, equal, cls);
    ghost var s, bufs := a[begin..end], buffers.content;
    ClassifiedFacts(s0, s, B, flushed, bufs, sizes, bs, cls);
    overflowBucket := ComputeOverflowBucket(bs, |buffers.content|, B);
    over, p, st := Permute(a, begin, end, B, bp, bs, cl, equal, s0, s, flushed, bufs, sizes, cls);
    pl := Plan(begin, end - begin, B, bs, bp.w);
    SequentialSettled(s0, s, B, flushed, bufs, sizes, bs, cls, a[..], begin, p, st, over);
    CanCleanUp(s0, a[..], begin, B, p, bs, bufs, cls, st, over, overflowBucket);
  }

  /** All phases: classification, permutation, cleanup. */
  method Distribute<T(!new)>(
      a: array<T>, begin: nat, end: nat, B: nat, base: nat, lastLevel: bool, used: nat, equal: bool,
      cl: Classifier<T>, ghost cls: T -> nat)
      returns (bs: seq<nat>)
    requires begin <= end <= a.Length && a != cl.tree && a != cl.sorted && Agrees(cl, equal, cls)
    requires B > 0 && used > 0 && forall x :: cls(x) < used
    modifies a
    ensures a[..begin] == old(a[..begin]) && a[end..] == old(a[end..])
    ensures multiset(a[begin..end]) == old(multiset(a[begin..end]))
    ensures |bs| == used + 1 && Partitioned(a[begin..end], bs, cls, base, lastLevel, cl.less)
  {
    var buffers := new Buffers<T>(used, B);
    assert StrictWeakOrder(cl.less);
    hide *;
    var pl, overflowBucket, over := DistributeBlocks(a, begin, end, buffers, cl, equal, cls);
    ghost var t, bufs := a[..], buffers.content;
    PreparedFacts(t, pl, over, bufs, cls);
    WriteMargins(a, pl, base, lastLevel, overflowBucket, over, buffers, cl.less, cls);
    FilledPartition(t, a[..], pl, over, bufs, cls, base, lastLevel, cl.less);
    bs := pl.bs;
  }

  lemma FilledPartition<T(!new)>(
      t: seq<T>, u: seq<T>, pl: Plan, over: Option<seq<T>>, bufs: seq<seq<T>>, cls: T -> nat,
      base: nat, lastLevel: bool, less: (T, T) -> bool)
    requires Prepared(t, pl, over, bufs, cls) && pl.Lim() <= |t|
    requires FilledUpTo(t, u, pl, over, bufs, cls, |pl.w|, base, lastLevel, less)
    ensures var end := pl.begin + pl.n;
      && end <= |t| == |u| && u[..pl.begin] == t[..pl.begin] && u[end..] == t[end..]
      && multiset(u[pl.begin..end]) == RestBag(t, pl, over, bufs, 0)
      && Partitioned(u[pl.begin..end], pl.bs, cls, base, lastLevel, less)
  {
    hide Prepared, FilledUpTo, BucketDone, PieceOk, RestBag, Belongings, Boundaries;
    FilledFacts(t, u, pl, over, bufs, cls, base, lastLevel, less);
    var v := u[pl.begin..pl.begin + pl.n];
    FilledBag(t, u, pl, over, bufs, cls, 0, base, lastLevel, less);
    LastBoundary(pl);
    forall i | 0 <= i < |pl.w| ensures PieceOk(v, pl.bs, cls, i, base, lastLevel, less) {
      DonePiece(t, u, pl, over, bufs[i], cls, i, base, lastLevel, less);
    }
  }

  lemma FilledFacts<T(!new)>(
      t: seq<T>, u: seq<T>, pl: Plan, over: Option<seq<T>>, bufs: seq<seq<T>>, cls: T -> nat,
      base: nat, lastLevel: bool, less: (T, T) -> bool)
    requires Prepared(t, pl, over, bufs, cls) && FilledUpTo(t, u, pl, over, bufs, cls, |pl.w|, base, lastLevel, less)
    ensures pl.Ok() && |bufs| == |pl.w| && pl.begin + pl.n <= |t| == |u|
    ensures u[..pl.begin] == t[..pl.begin] && u[pl.begin + pl.n..] == t[pl.begin + pl.n..]
    ensures forall j :: 0 <= j < |pl.w| ==>
      BucketDone(t, u, pl, over, bufs[j], cls, j, Small(pl, j, base, lastLevel), less)
  {
    LastBoundary(pl);
  }
}
