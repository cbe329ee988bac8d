/** From the final state of the block permutation to the input of the cleanup phase. */
module PermutedBlocks {
  import opened Bags
  import opened Buckets
  import opened Powers
  import opened Buffers
  import opened LocalClassification
  import opened BlockProtocol
  import opened BlockResults
  import opened BlockPermutation
  import opened InPlaceLayout
  import opened Margins

  // ---------------------------------------------------------------- sequences of optional blocks

  /** The elements of all blocks, in order. */
  ghost function Flat<T>(o: seq<Option<seq<T>>>): seq<T> {
    if o == [] then [] else (if o[0].Some? then o[0].value else []) + Flat(o[1..])
  }

  lemma {:induction false} FlatConcat<T>(x: seq<Option<seq<T>>>, y: seq<Option<seq<T>>>)
    ensures Flat(x + y) == Flat(x) + Flat(y)
  {
    if x == [] {
      assert x + y == y;
    } else {
      assert (x + y)[1..] == x[1..] + y;
      FlatConcat(x[1..], y);
    }
  }

  lemma {:induction false} FlatNone<T>(o: seq<Option<seq<T>>>)
    requires forall k :: 0 <= k < |o| ==> o[k] == None
    ensures Flat(o) == []
  {
    if o != [] { FlatNone(o[1..]); }
  }

  lemma {:induction false} FlatPure<T(!new)>(o: seq<Option<seq<T>>>, cls: T -> nat, i: nat)
    requires forall k :: 0 <= k < |o| && o[k].Some? ==> AllOf(o[k].value, cls, i)
    ensures AllOf(Flat(o), cls, i)
  {
    if o != [] { FlatPure(o[1..], cls, i); }
  }

  /** Block q of t, counted from begin. */
  ghost predicate IsBlock<T>(o: Option<seq<T>>, t: seq<T>, begin: nat, B: nat, q: nat) {
    begin + q * B + B <= |t| && o == Some(t[begin + q * B..begin + q * B + B])
  }

  /** Consecutive blocks of t, put together again. */
  lemma {:induction false} FlatRun<T>(res: seq<Option<seq<T>>>, t: seq<T>, begin: nat, B: nat, x: nat, y: nat)
    requires x <= y <= |res| && begin + y * B <= |t|
    requires forall q :: x <= q < y ==> IsBlock(res[q], t, begin, B, q)
    ensures begin + x * B <= begin + y * B
    ensures Flat(res[x..y]) == t[begin + x * B..begin + y * B]
    decreases y - x
  {
    hide IsBlock;
    if x < y {
      FlatRun(res, t, begin, B, x + 1, y);
      FlatNext(res, t, begin, B, x, y);
    }
  }

  lemma FlatNext<T>(res: seq<Option<seq<T>>>, t: seq<T>, begin: nat, B: nat, x: nat, y: nat)
    requires x < y <= |res| && begin + (x + 1) * B <= begin + y * B <= |t| && IsBlock(res[x], t, begin, B, x)
    requires Flat(res[x + 1..y]) == t[begin + (x + 1) * B..begin + y * B]
    ensures begin + x * B <= begin + y * B
    ensures Flat(res[x..y]) == t[begin + x * B..begin + y * B]
  {
    var at, end := begin + x * B, begin + y * B;
    assert begin + (x + 1) * B == at + B;
    assert res[x..y][1..] == res[x + 1..y];
    assert t[at..end] == t[at..at + B] + t[at + B..end];
  }

  lemma FlatRotate<T>(x: seq<Option<seq<T>>>, y: seq<Option<seq<T>>>, z: seq<Option<seq<T>>>)
    ensures multiset(Flat(x + (y + z))) == multiset(Flat(y)) + multiset(Flat(x + z))
  {
    hide Flat;
    FlatConcat(x, y + z);
    FlatConcat(y, z);
    FlatConcat(x, z);
    Rotate(Flat(x), Flat(y), Flat(z));
  }

  lemma FlatWithout<T>(o: seq<Option<seq<T>>>, k: nat, u: seq<Option<seq<T>>>)
    requires k < |o| && u == o[..k] + o[k + 1..]
    ensures multiset(Flat(o)) == multiset(Flat([o[k]])) + multiset(Flat(u))
  {
    hide Flat;
    assert o == o[..k] + ([o[k]] + o[k + 1..]);
    FlatRotate(o[..k], [o[k]], o[k + 1..]);
  }

  lemma Rotate<T>(x: seq<T>, y: seq<T>, z: seq<T>)
    ensures multiset(x + (y + z)) == multiset(y) + multiset(x + z)
  {
    assert multiset(x + (y + z)) == multiset(x) + (multiset(y) + multiset(z));
  }

  /** The elements do not depend on the order of the blocks. */
  lemma {:induction false} FlatBag<T>(x: seq<Option<seq<T>>>, y: seq<Option<seq<T>>>)
    requires multiset(x) == multiset(y)
    ensures multiset(Flat(x)) == multiset(Flat(y))
    decreases |x|
  {
    if x == [] {
      assert |y| == |multiset(y)| == |multiset(x)| == 0;
    } else {
      assert x[0] in multiset(y);
      var k :| 0 <= k < |y| && y[k] == x[0];
      assert multiset(Without(x, 0)) == multiset(x) - multiset{x[0]} == multiset(Without(y, k));
      FlatBag(Without(x, 0), Without(y, k));
      FlatWithout(x, 0, Without(x, 0));
      FlatWithout(y, k, Without(y, k));
    }
  }

  // ---------------------------------------------------------------- what classification leaves

  /** A block of elements of the bucket that its first element names. */
  ghost predicate PureBlock<T(!new)>(x: seq<T>, B: nat, cls: T -> nat) {
    |x| == B && AllOf(x, cls, HeadClass(cls)(x))
  }

  /** Blocks and buffer of bucket i hold c elements, and if there are any, some of them are in the buffer. */
  ghost predicate BucketPart<T(!new)>(
      blocks: seq<Option<seq<T>>>, B: nat, buf: seq<T>, cls: T -> nat, i: nat, c: nat)
  {
    && Count(blocks, IsOf(HeadClass(cls), i)) * B + |buf| == c
    && AllOf(buf, cls, i) && (c > 0 ==> |buf| > 0)
  }

  ghost predicate BucketStored<T(!new)>(
      blocks: seq<Option<seq<T>>>, B: nat, bs: seq<nat>, buf: seq<T>, cls: T -> nat, i: nat)
  {
    i + 1 < |bs| && bs[i] <= bs[i + 1] && BucketPart(blocks, B, buf, cls, i, bs[i + 1] - bs[i])
  }

  ghost predicate BlocksPure<T(!new)>(blocks: seq<Option<seq<T>>>, B: nat, cls: T -> nat) {
    forall q :: 0 <= q < |blocks| && blocks[q].Some? ==> PureBlock(blocks[q].value, B, cls)
  }

  /** The elements s0 are in blocks and buffers. */
  ghost predicate PartStored<T(!new)>(
      s0: seq<T>, blocks: seq<Option<seq<T>>>, B: nat, bufs: seq<seq<T>>, cls: T -> nat)
  {
    && BlocksPure(blocks, B, cls)
    && (forall i :: 0 <= i < |bufs| ==> BucketPart(blocks, B, bufs[i], cls, i, Count(s0, Has(cls, i))))
    && multiset(Flat(blocks)) + BagOf(bufs) == multiset(s0)
  }

  /**
   * What any classification leaves of the elements s0: full blocks somewhere in the slots of the range, and
   * one buffer per bucket, that of all threads together. Where the full blocks are does not matter.
   */
  ghost predicate Stored<T(!new)>(
      s0: seq<T>, blocks: seq<Option<seq<T>>>, B: nat, bs: seq<nat>, bufs: seq<seq<T>>, cls: T -> nat)
  {
    && B > 0 && |bs| == |bufs| + 1 > 1 && Boundaries(bs, |s0|) && (forall x :: cls(x) < |bufs|)
    && |blocks| == Blocks(|s0|, B)
    && BlocksPure(blocks, B, cls)
    && (forall i :: 0 <= i < |bufs| ==> BucketStored(blocks, B, bs, bufs[i], cls, i))
    && multiset(Flat(blocks)) + BagOf(bufs) == multiset(s0)
  }

  lemma StoredFacts<T(!new)>(
      s0: seq<T>, blocks: seq<Option<seq<T>>>, B: nat, bs: seq<nat>, bufs: seq<seq<T>>, cls: T -> nat)
    requires Stored(s0, blocks, B, bs, bufs, cls)
    ensures B > 0 && |bs| == |bufs| + 1 > 1 && Boundaries(bs, |s0|) && |blocks| == Blocks(|s0|, B)
    ensures forall x :: cls(x) < |bufs|
    ensures forall i :: 0 <= i < |bufs| ==> BucketStored(blocks, B, bs, bufs[i], cls, i)
    ensures multiset(Flat(blocks)) + BagOf(bufs) == multiset(s0)
  {
  }

  /** Moving blocks around changes nothing of it. */
  lemma StoredMoves<T(!new)>(
      s0: seq<T>, blocks: seq<Option<seq<T>>>, blocks': seq<Option<seq<T>>>, B: nat, bs: seq<nat>, bufs: seq<seq<T>>,
      cls: T -> nat)
    requires Stored(s0, blocks, B, bs, bufs, cls) && multiset(blocks') == multiset(blocks)
    ensures Stored(s0, blocks', B, bs, bufs, cls)
  {
    assert |blocks'| == |multiset(blocks')| == |blocks|;
    FlatBag(blocks, blocks');
    forall q | 0 <= q < |blocks'| && blocks'[q].Some? ensures PureBlock(blocks'[q].value, B, cls) {
      assert blocks'[q] in multiset(blocks);
      var k :| 0 <= k < |blocks| && blocks[k] == blocks'[q];
    }
    forall i | 0 <= i < |bufs| ensures BucketStored(blocks', B, bs, bufs[i], cls, i) {
      assert BucketStored(blocks, B, bs, bufs[i], cls, i);
      CountOfBag(blocks, blocks', IsOf(HeadClass(cls), i));
    }
  }

  /** The blocks of a bucket fit between its aligned boundaries. */
  lemma StoredFits<T(!new)>(
      blocks: seq<Option<seq<T>>>, B: nat, bs: seq<nat>, buf: seq<T>, cls: T -> nat, i: nat)
    requires B > 0 && BucketStored(blocks, B, bs, buf, cls, i)
    ensures Count(blocks, IsOf(HeadClass(cls), i)) + Blocks(bs[i], B) <= Blocks(bs[i + 1], B)
  {
    var f := Count(blocks, IsOf(HeadClass(cls), i));
    if f > 0 { MulMono(1, f, B); }
    BlocksFit(bs[i], bs[i + 1] - bs[i], f, B);
  }

  lemma StoredFitsAll<T(!new)>(
      s0: seq<T>, blocks: seq<Option<seq<T>>>, B: nat, bs: seq<nat>, bufs: seq<seq<T>>, cls: T -> nat)
    requires Stored(s0, blocks, B, bs, bufs, cls)
    ensures |bs| == |bufs| + 1 && |Starts(bs, B)| == |bs| && forall x :: HeadClass(cls)(x) < |bufs|
    ensures forall b :: 0 <= b < |bufs| ==>
      Count(blocks, IsOf(HeadClass(cls), b)) + Starts(bs, B)[b] <= Starts(bs, B)[b + 1]
  {
    StoredFacts(s0, blocks, B, bs, bufs, cls);
    hide Stored, BucketStored, HeadClass, IsOf;
    forall b | 0 <= b < |bufs|
      ensures Count(blocks, IsOf(HeadClass(cls), b)) + Starts(bs, B)[b] <= Starts(bs, B)[b + 1]
    {
      StoredFits(blocks, B, bs, bufs[b], cls, b);
    }
    forall x ensures HeadClass(cls)(x) < |bufs| { HeadBound(cls, |bufs|, x); }
  }

  lemma FlatFlushed<T>(s: seq<T>, B: nat, e: nat, m: nat)
    requires e * B <= |s| && e <= m
    ensures Flat(FlushedBlocks(s, B, e, m)) == s[..e * B]
  {
    hide Flat;
    var o := FlushedBlocks(s, B, e, m);
    var x, y := o[..e], o[e..];
    assert o == x + y;
    FlatConcat(x, y);
    FlatNone(y);
    forall k | 0 <= k < e ensures IsBlock(o[k], s, 0, B, k) { MulLess(k, e, B); }
    FlatRun(o, s, 0, B, 0, e);
    assert o[0..e] == x && s[0 + 0 * B..0 + e * B] == s[..e * B];
  }

  lemma FlushedPureBlock<T(!new)>(s: seq<T>, B: nat, flushed: seq<nat>, m: nat, cls: T -> nat, q: nat)
    requires B > 0 && FlushedPure(s, B, flushed, cls) && q < m && FlushedBlocks(s, B, |flushed|, m)[q].Some?
    ensures PureBlock(FlushedBlocks(s, B, |flushed|, m)[q].value, B, cls)
  {
    assert BlockPure(s, B, q, cls, flushed[q]);
    BlockHead(s, B, q, cls, flushed[q]);
  }

  /** What a thread leaves of its stripe. */
  lemma StripeStored<T(!new)>(
      s0: seq<T>, s: seq<T>, B: nat, flushed: seq<nat>, bufs: seq<seq<T>>, sizes: seq<nat>, cls: T -> nat, m: nat)
    requires Progress(s0, s, |s0|, B, |flushed| * B, flushed, bufs, sizes, cls) && |flushed| <= m
    ensures PartStored(s0, FlushedBlocks(s, B, |flushed|, m), B, bufs, cls)
  {
    ProgressFacts(s0, s, B, flushed, bufs, sizes, cls);
    hide Progress, FlushedPure, Flat, BagOf, Count, FlushedBlocks, AllOf, PureBlock;
    var blocks := FlushedBlocks(s, B, |flushed|, m);
    FlatFlushed(s, B, |flushed|, m);
    forall q | 0 <= q < |blocks| && blocks[q].Some? ensures PureBlock(blocks[q].value, B, cls) {
      FlushedPureBlock(s, B, flushed, m, cls, q);
    }
    forall i | 0 <= i < |bufs| ensures BucketPart(blocks, B, bufs[i], cls, i, Count(s0, Has(cls, i))) {
      BlockCount(s, B, flushed, m, cls, i);
      BufferFacts(s0, s, B, flushed, bufs, sizes, cls, i);
    }
  }

  lemma ProgressFacts<T(!new)>(
      s0: seq<T>, s: seq<T>, B: nat, flushed: seq<nat>, bufs: seq<seq<T>>, sizes: seq<nat>, cls: T -> nat)
    requires Progress(s0, s, |s0|, B, |flushed| * B, flushed, bufs, sizes, cls)
    ensures B > 0 && FlushedPure(s, B, flushed, cls) && |s| == |s0| && |flushed| * B <= |s|
    ensures multiset(s[..|flushed| * B]) + BagOf(bufs) == multiset(s0)
  {
    assert s0[..|s0|] == s0;
  }

  lemma BufferFacts<T(!new)>(
      s0: seq<T>, s: seq<T>, B: nat, flushed: seq<nat>, bufs: seq<seq<T>>, sizes: seq<nat>, cls: T -> nat, i: nat)
    requires Progress(s0, s, |s0|, B, |flushed| * B, flushed, bufs, sizes, cls) && i < |bufs|
    ensures Count(flushed, Is(i)) * B + |bufs[i]| == Count(s0, Has(cls, i))
    ensures AllOf(bufs[i], cls, i) && (Count(s0, Has(cls, i)) > 0 ==> |bufs[i]| > 0)
  {
    assert s0[..|s0|] == s0;
    assert BufferOk(B, flushed, bufs[i], sizes[i], cls, i);
  }

  lemma StoredWhen<T(!new)>(
      s0: seq<T>, blocks: seq<Option<seq<T>>>, B: nat, bs: seq<nat>, bufs: seq<seq<T>>, cls: T -> nat)
    requires PartStored(s0, blocks, B, bufs, cls) && B > 0 && |blocks| == Blocks(|s0|, B)
    requires |bs| == |bufs| + 1 > 1 && Boundaries(bs, |s0|) && forall x :: cls(x) < |bufs|
    requires forall i :: 0 <= i < |bufs| ==> SizeOf(bs, i) == Count(s0, Has(cls, i))
    ensures Stored(s0, blocks, B, bs, bufs, cls)
  {
    hide BucketPart, BlocksPure, Flat, BagOf;
    forall i | 0 <= i < |bufs| ensures BucketStored(blocks, B, bs, bufs[i], cls, i) {
      assert bs[i] <= bs[i + 1] && SizeOf(bs, i) == Count(s0, Has(cls, i));
    }
  }

  /** What one thread that classifies the whole range leaves. */
  lemma ClassifiedStored<T(!new)>(
      s0: seq<T>, s: seq<T>, B: nat, flushed: seq<nat>, bufs: seq<seq<T>>, sizes: seq<nat>, bs: seq<nat>, cls: T -> nat)
    requires Classified(s0, s, B, flushed, bufs, sizes, bs, cls)
    ensures B > 0 && Stored(s0, FlushedBlocks(s, B, |flushed|, Blocks(|s|, B)), B, bs, bufs, cls)
  {
    ClassifiedFacts(s0, s, B, flushed, bufs, sizes, bs, cls);
    TotalCount(s0, s, B, |flushed| * B, flushed, bufs, sizes, cls);
    FlushedSlots(|s|, B, |flushed|);
    StripeStored(s0, s, B, flushed, bufs, sizes, cls, Blocks(|s|, B));
    hide Progress, PartStored, Count, FlushedBlocks;
    StoredWhen(s0, FlushedBlocks(s, B, |flushed|, Blocks(|s|, B)), B, bs, bufs, cls);
  }

  lemma FlushedSlots(n: nat, B: nat, e: nat)
    requires B > 0 && e * B <= n
    ensures e <= Blocks(n, B) <= n / B + 1
  {
    QuotientCompare(n, B, e);
    WholeBlocks(n, B);
  }

  // ---------------------------------------------------------------- the final state

  /** The overflow buffer that all threads use afterwards: that of the thread that filled its own, if any did. */
  ghost predicate SharedOverflow<Bl>(st: State<Bl>, over: Option<Bl>) {
    if over.Some? then exists h :: 0 <= h < |st.workers| && st.workers[h].spill == over
    else forall h :: 0 <= h < |st.workers| ==> st.workers[h].spill == None
  }

  /**
   * t, from begin on, is the array of n elements after the permutation that started from layout p, with any
   * number of threads and in any interleaving.
   */
  ghost predicate Permuted<T(!new)>(
      t: seq<T>, begin: nat, n: nat, B: nat, p: Layout<seq<T>>, cls: T -> nat, st: State<seq<T>>, over: Option<seq<T>>)
  {
    && B > 0 && Rising(p.start) && p.owner == Owners(p.start) && p.whole == n / B && p.cls == HeadClass(cls)
    && Inv(p, st) && AllDone(st)
    && (n / B) * B <= n && begin + n <= |t|
    && BlocksOf(t, begin, n / B, B) == st.mem
    && SharedOverflow(st, over)
  }

  /** The final state, slot by slot: a filled slot is in the array or in the overflow buffer. */
  lemma FinalSlot<Bl(!new)>(p: Layout<Bl>, s: State<Bl>, over: Option<Bl>, q: nat)
    requires Inv(p, s) && AllDone(s) && SharedOverflow(s, over) && q < |s.res|
    ensures |s.res| == |p.owner| == |p.blocks| <= p.whole + 1 && |s.mem| == p.whole && |s.w| == Num(p)
    ensures p.owner[q] < Num(p) && (s.res[q].Some? <==> q < s.w[p.owner[q]])
    ensures s.res[q].Some? ==> p.cls(s.res[q].value) == p.owner[q]
    ensures s.res[q].Some? ==> s.res[q] == (if q < p.whole then Some(s.mem[q]) else over)
  {
    DoneSlot(p, s, q);
    assert Slot(p, s, q);
    if s.res[q].Some? && q >= p.whole { TheOverflow(p, s, over); }
  }

  lemma TheOverflow<Bl(!new)>(p: Layout<Bl>, s: State<Bl>, over: Option<Bl>)
    requires Inv(p, s) && SharedOverflow(s, over)
    ensures over.Some? <==> p.whole < |s.res| && s.res[p.whole].Some?
    ensures over.Some? ==> over == s.res[p.whole]
  {
  }

  lemma FinalCounts<Bl(!new)>(p: Layout<Bl>, s: State<Bl>, b: nat)
    requires Inv(p, s) && AllDone(s) && b < Num(p)
    ensures |s.w| == Num(p) && |p.start| == Num(p) + 1 && p.start[b] <= s.w[b] <= p.start[b + 1]
    ensures s.w[b] == p.start[b] + Count(p.blocks, IsOf(p.cls, b))
    ensures multiset(s.res) == multiset(p.blocks) && |s.res| == |p.owner|
  {
    PlacedCount(p, s, b);
    DoneLedger(p, s);
  }

  /** Every filled slot holds a pure block of the bucket that owns it. */
  lemma ResultPure<T(!new)>(
      s0: seq<T>, t: seq<T>, begin: nat, B: nat, p: Layout<seq<T>>, bs: seq<nat>, bufs: seq<seq<T>>, cls: T -> nat,
      st: State<seq<T>>, over: Option<seq<T>>, q: nat)
    requires Permuted(t, begin, |s0|, B, p, cls, st, over) && Stored(s0, p.blocks, B, bs, bufs, cls)
    requires q < |st.res| && st.res[q].Some?
    ensures |st.res| == |p.owner|
    ensures |st.res[q].value| == B && AllOf(st.res[q].value, cls, p.owner[q])
  {
    FinalSlot(p, st, over, q);
    FinalCounts(p, st, 0);
    assert st.res[q] in multiset(p.blocks);
    var k :| 0 <= k < |p.blocks| && p.blocks[k] == st.res[q];
    assert PureBlock(p.blocks[k].value, B, cls);
  }

  /** Filled slots are the first ones of their bucket; they lie in the array, or in the overflow buffer. */
  lemma ResultPlace<T(!new)>(
      t: seq<T>, begin: nat, n: nat, B: nat, p: Layout<seq<T>>, cls: T -> nat, st: State<seq<T>>, over: Option<seq<T>>,
      q: nat)
    requires Permuted(t, begin, n, B, p, cls, st, over) && q < |st.res|
    ensures |st.res| == |p.owner| <= n / B + 1 && |st.w| == Num(p)
    ensures p.owner[q] < |st.w| && (st.res[q].Some? <==> q < st.w[p.owner[q]])
    ensures st.res[q].Some? && q < n / B ==> IsBlock(st.res[q], t, begin, B, q)
    ensures st.res[q].Some? && q >= n / B ==> over.Some? && over == st.res[q]
  {
    FinalSlot(p, st, over, q);
    hide Inv, AllDone;
    if st.res[q].Some? && q < n / B {
      MulLess(q, n / B, B);
      assert BlockAt(t, begin, n / B, B, q) == st.mem[q];
    }
  }

  // ---------------------------------------------------------------- one bucket

  /** A bucket's slots: filled up to the write pointer, the one past the last whole block in `over`. */
  ghost predicate BucketSlots<T>(
      res: seq<Option<seq<T>>>, t: seq<T>, begin: nat, B: nat, whole: nat, over: Option<seq<T>>,
      lo: nat, w: nat, hi: nat)
  {
    && lo <= w <= hi <= |res| && hi <= whole + 1 && begin + whole * B <= |t| && B > 0
    && forall q :: lo <= q < hi ==> SlotIs(res[q], t, begin, B, whole, over, w, q)
  }

  ghost predicate SlotIs<T>(
      o: Option<seq<T>>, t: seq<T>, begin: nat, B: nat, whole: nat, over: Option<seq<T>>, w: nat, q: nat)
  {
    && (o.Some? <==> q < w)
    && (o.Some? ==> if q < whole then IsBlock(o, t, begin, B, q) else over == o)
  }

  lemma SpanOrder(sp: Span, lim: nat, begin: nat, B: nat, whole: nat, lo: nat, w: nat)
    requires B > 0 && sp.st == begin + lo * B && sp.wr == begin + w * B && lim == begin + whole * B
    ensures sp.wr > sp.st <==> w > lo
    ensures sp.wr > lim <==> w > whole
    ensures sp.st < lim <==> lo < whole
    ensures sp.st <= lim <==> lo <= whole
  {
    if w > lo { MulLess(lo, w, B); } else { MulMono(w, lo, B); }
    if w > whole { MulLess(whole, w, B); } else { MulMono(w, whole, B); }
    if lo < whole { MulLess(lo, whole, B); } else { MulMono(whole, lo, B); }
  }

  lemma FlatFront<T>(res: seq<Option<seq<T>>>, lo: nat, w: nat, hi: nat)
    requires lo <= w <= hi <= |res| && forall q :: w <= q < hi ==> res[q] == None
    ensures Flat(res[lo..hi]) == Flat(res[lo..w])
  {
    assert res[lo..hi] == res[lo..w] + res[w..hi];
    FlatConcat(res[lo..w], res[w..hi]);
    FlatNone(res[w..hi]);
  }

  /** The blocks of a bucket, wherever they are, are its written elements and its overflow block. */
  lemma FlatBucket<T>(
      res: seq<Option<seq<T>>>, t: seq<T>, begin: nat, B: nat, whole: nat, over: Option<seq<T>>,
      lo: nat, w: nat, hi: nat, sp: Span, lim: nat)
    requires BucketSlots(res, t, begin, B, whole, over, lo, w, hi)
    requires sp.st == begin + lo * B && sp.wr == begin + w * B && lim == begin + whole * B
    ensures Spilled(sp, lim) <==> w > lo && w > whole
    ensures Flat(res[lo..hi]) == Written(t, sp, lim) + Over(sp, lim, over)
  {
    hide IsBlock;
    SpanOrder(sp, lim, begin, B, whole, lo, w);
    FlatFront(res, lo, w, hi);
    var z := if w <= whole then w else whole;
    if lo < w {
      FlatRun(res, t, begin, B, lo, z);
      FlatWritten(t, sp, lim, begin, B, whole, lo, w, z);
      if w > whole {
        assert SlotIs(res[whole], t, begin, B, whole, over, w, whole);
        FlatLast(res, lo, whole, over);
      }
    }
  }

  lemma FlatWritten<T>(t: seq<T>, sp: Span, lim: nat, begin: nat, B: nat, whole: nat, lo: nat, w: nat, z: nat)
    requires B > 0 && sp.st == begin + lo * B && sp.wr == begin + w * B && lim == begin + whole * B <= |t|
    requires lo < w && lo <= whole && z == if w <= whole then w else whole
    ensures begin + lo * B <= begin + z * B <= |t|
    ensures Written(t, sp, lim) == t[begin + lo * B..begin + z * B]
  {
    SpanOrder(sp, lim, begin, B, whole, lo, w);
  }

  lemma FlatLast<T>(res: seq<Option<seq<T>>>, lo: nat, whole: nat, over: Option<seq<T>>)
    requires lo <= whole < |res| && over.Some? && over == res[whole]
    ensures Flat(res[lo..whole + 1]) == Flat(res[lo..whole]) + over.value
  {
    assert res[lo..whole + 1] == res[lo..whole] + [res[whole]];
    FlatConcat(res[lo..whole], [res[whole]]);
    assert Flat([res[whole]]) == over.value;
  }

  lemma PermutedShape<T(!new)>(
      t: seq<T>, begin: nat, n: nat, B: nat, p: Layout<seq<T>>, cls: T -> nat, st: State<seq<T>>, over: Option<seq<T>>,
      i: nat)
    requires Permuted(t, begin, n, B, p, cls, st, over) && i < Num(p)
    ensures |st.w| == Num(p) && |p.start| == Num(p) + 1 && |st.res| == p.start[Num(p)] <= n / B + 1
    ensures p.start[i] <= st.w[i] <= p.start[i + 1] <= |st.res|
    ensures B > 0 && Rising(p.start) && p.owner == Owners(p.start) && begin + n <= |t| && begin + (n / B) * B <= |t|
    ensures st.w[i] == p.start[i] + Count(p.blocks, IsOf(HeadClass(cls), i))
    ensures multiset(st.res) == multiset(p.blocks)
    ensures over.Some? <==> n / B < |st.res| && st.res[n / B].Some?
  {
    FinalCounts(p, st, i);
    TheOverflow(p, st, over);
    assert Basic(p);
  }

  lemma PermutedSlots<T(!new)>(
      t: seq<T>, begin: nat, n: nat, B: nat, p: Layout<seq<T>>, cls: T -> nat, st: State<seq<T>>, over: Option<seq<T>>,
      i: nat)
    requires Permuted(t, begin, n, B, p, cls, st, over) && i < Num(p)
    ensures |st.w| == Num(p) && |p.start| == Num(p) + 1
    ensures BucketSlots(st.res, t, begin, B, n / B, over, p.start[i], st.w[i], p.start[i + 1])
  {
    hide Permuted, Rising;
    PermutedShape(t, begin, n, B, p, cls, st, over, i);
    hide IsBlock;
    forall q | p.start[i] <= q < p.start[i + 1] ensures SlotIs(st.res[q], t, begin, B, n / B, over, st.w[i], q) {
      OwnersExact(p.start, i, q);
      ResultPlace(t, begin, n, B, p, cls, st, over, q);
    }
  }

  lemma PermutedPure<T(!new)>(
      s0: seq<T>, t: seq<T>, begin: nat, B: nat, p: Layout<seq<T>>, bs: seq<nat>, bufs: seq<seq<T>>, cls: T -> nat,
      st: State<seq<T>>, over: Option<seq<T>>, i: nat)
    requires Permuted(t, begin, |s0|, B, p, cls, st, over) && Stored(s0, p.blocks, B, bs, bufs, cls) && i < Num(p)
    ensures |p.start| == Num(p) + 1 && p.start[i] <= p.start[i + 1] <= |st.res|
    ensures AllOf(Flat(st.res[p.start[i]..p.start[i + 1]]), cls, i)
    ensures forall q :: p.start[i] <= q < p.start[i + 1] && st.res[q].Some? ==> |st.res[q].value| == B
  {
    hide Permuted, Stored, Rising;
    PermutedShape(t, begin, |s0|, B, p, cls, st, over, i);
    var lo, hi := p.start[i], p.start[i + 1];
    var o := st.res[lo..hi];
    forall q | lo <= q < hi && st.res[q].Some? ensures |st.res[q].value| == B && AllOf(st.res[q].value, cls, i) {
      OwnersExact(p.start, i, q);
      ResultPure(s0, t, begin, B, p, bs, bufs, cls, st, over, q);
    }
    forall k | 0 <= k < |o| && o[k].Some? ensures AllOf(o[k].value, cls, i) { assert o[k] == st.res[lo + k]; }
    FlatPure(o, cls, i);
  }

  lemma PureParts<T(!new)>(x: seq<T>, y: seq<T>, cls: T -> nat, i: nat)
    requires AllOf(x + y, cls, i)
    ensures AllOf(x, cls, i) && AllOf(y, cls, i)
  {
    forall v | v in x || v in y ensures cls(v) == i { assert v in x + y; }
  }

  /** The arithmetic of one bucket. */
  lemma PlacedShape<T>(
      t: seq<T>, pl: Plan, over: Option<seq<T>>, buf: seq<T>, i: nat)
    requires pl.Ok() && i < |pl.w| && pl.begin + pl.n <= |t|
    requires var st := Blocks(pl.bs[i], pl.B);
      && st <= pl.w[i] <= pl.n / pl.B + 1
      && (pl.w[i] - st) * pl.B + |buf| == pl.bs[i + 1] - pl.bs[i]
      && (pl.w[i] > st && pl.w[i] > pl.n / pl.B ==> over.Some? && |over.value| == pl.B)
    ensures var sp, lim, B := pl.Bucket(i), pl.Lim(), pl.B;
      && sp.lo <= sp.st < sp.lo + B && sp.lo <= sp.hi <= |t| && lim <= |t|
      && (sp.wr == sp.st || sp.wr >= sp.st + B)
      && sp.wr + |buf| == sp.st + (sp.hi - sp.lo)
      && (Spilled(sp, lim) ==> over.Some? && |over.value| == B && sp.wr == lim + B && sp.st <= lim <= sp.hi)
  {
    var st, w, B, whole := Blocks(pl.bs[i], pl.B), pl.w[i], pl.B, pl.n / pl.B;
    BoundaryMono(pl.bs, pl.n, i + 1, |pl.bs| - 1);
    WholeBlocks(pl.n, B);
    assert (w - st) * B == w * B - st * B;
    if w > st { MulLess(st, w, B); }
    if w <= whole { MulMono(w, whole, B); } else { assert (whole + 1) * B == whole * B + B; }
    if w > st && w > whole { MulMono(st, whole, B); }
  }

  /** Bucket i meets what the cleanup phase assumes, and nothing of it got lost. */
  ghost predicate HandedOver<T(!new)>(
      res: seq<Option<seq<T>>>, t: seq<T>, pl: Plan, over: Option<seq<T>>, buf: seq<T>, cls: T -> nat, i: nat)
  {
    && pl.Ok() && i < |pl.w| && BucketReady(t, pl, over, buf, cls, i) && pl.Lim() <= |t|
    && (Spilled(pl.Bucket(i), pl.Lim()) <==> Blocks(pl.bs[i], pl.B) < pl.w[i] && pl.w[i] > pl.n / pl.B)
    && Blocks(pl.bs[i], pl.B) <= Blocks(pl.bs[i + 1], pl.B) <= |res|
    && multiset(Flat(res[Blocks(pl.bs[i], pl.B)..Blocks(pl.bs[i + 1], pl.B)])) + multiset(buf)
       == Belongings(t, pl.Bucket(i), pl.Lim(), over, buf)
  }

  lemma ReadyFromSlots<T(!new)>(
      res: seq<Option<seq<T>>>, t: seq<T>, pl: Plan, over: Option<seq<T>>, buf: seq<T>, cls: T -> nat, i: nat,
      lo: nat, w: nat, hi: nat, whole: nat)
    requires pl.Ok() && i < |pl.w| && pl.begin + pl.n <= |t|
    requires lo == Blocks(pl.bs[i], pl.B) && hi == Blocks(pl.bs[i + 1], pl.B) && w == pl.w[i] && whole == pl.n / pl.B
    requires BucketSlots(res, t, pl.begin, pl.B, whole, over, lo, w, hi)
    requires forall q :: lo <= q < hi && res[q].Some? ==> |res[q].value| == pl.B
    requires AllOf(Flat(res[lo..hi]), cls, i)
    requires (w - lo) * pl.B + |buf| == pl.bs[i + 1] - pl.bs[i]
    requires AllOf(buf, cls, i) && (pl.bs[i] < pl.bs[i + 1] ==> |buf| > 0)
    ensures HandedOver(res, t, pl, over, buf, cls, i)
  {
    var sp, lim := pl.Bucket(i), pl.Lim();
    FlatBucket(res, t, pl.begin, pl.B, whole, over, lo, w, hi, sp, lim);
    if w > lo && w > whole { assert SlotIs(res[whole], t, pl.begin, pl.B, whole, over, w, whole); }
    hide BucketSlots, AllOf, Flat;
    PlacedShape(t, pl, over, buf, i);
    PureParts(Written(t, sp, lim), Over(sp, lim, over), cls, i);
  }

  /** What classification stored and the permutation placed. */
  ghost predicate Settled<T(!new)>(
      s0: seq<T>, t: seq<T>, begin: nat, B: nat, p: Layout<seq<T>>, bs: seq<nat>, bufs: seq<seq<T>>, cls: T -> nat,
      st: State<seq<T>>, over: Option<seq<T>>)
  {
    B > 0 && Stored(s0, p.blocks, B, bs, bufs, cls) && p.start == Starts(bs, B)
      && Permuted(t, begin, |s0|, B, p, cls, st, over)
  }

  lemma SettledShape<T(!new)>(
      s0: seq<T>, t: seq<T>, begin: nat, B: nat, p: Layout<seq<T>>, bs: seq<nat>, bufs: seq<seq<T>>, cls: T -> nat,
      st: State<seq<T>>, over: Option<seq<T>>)
    requires Settled(s0, t, begin, B, p, bs, bufs, cls, st, over)
    ensures B > 0 && |bs| == |bufs| + 1 > 1 && Boundaries(bs, |s0|) && begin + |s0| <= |t|
    ensures |st.w| == |bufs| == Num(p) && |p.start| == |bs| && |st.res| == Blocks(|s0|, B) <= |s0| / B + 1
    ensures multiset(st.res) == multiset(p.blocks)
    ensures Plan(begin, |s0|, B, bs, st.w).Ok()
  {
    hide Permuted, Rising, Inv;
    StoredFacts(s0, p.blocks, B, bs, bufs, cls);
    LayoutSize(t, begin, |s0|, B, p, cls, st, over);
    StartsRise(bs, |s0|, B);
    PermutedShape(t, begin, |s0|, B, p, cls, st, over, 0);
  }

  lemma LayoutSize<T(!new)>(
      t: seq<T>, begin: nat, n: nat, B: nat, p: Layout<seq<T>>, cls: T -> nat, st: State<seq<T>>, over: Option<seq<T>>)
    requires Permuted(t, begin, n, B, p, cls, st, over)
    ensures |p.start| == Num(p) + 1 > 1
  {
  }

  /** Every bucket meets what the cleanup phase assumes of it, however many threads have worked. */
  lemma BucketIsReady<T(!new)>(
      s0: seq<T>, t: seq<T>, begin: nat, B: nat, p: Layout<seq<T>>, bs: seq<nat>, bufs: seq<seq<T>>, cls: T -> nat,
      st: State<seq<T>>, over: Option<seq<T>>, i: nat)
    requires Settled(s0, t, begin, B, p, bs, bufs, cls, st, over) && i < |bufs|
    ensures HandedOver(st.res, t, Plan(begin, |s0|, B, bs, st.w), over, bufs[i], cls, i)
  {
    hide Permuted, BucketSlots, Stored, Rising, AllOf, Flat, Count, Boundaries, HandedOver;
    SettledShape(s0, t, begin, B, p, bs, bufs, cls, st, over);
    StoredFacts(s0, p.blocks, B, bs, bufs, cls);
    assert BucketStored(p.blocks, B, bs, bufs[i], cls, i);
    PermutedShape(t, begin, |s0|, B, p, cls, st, over, i);
    PermutedSlots(t, begin, |s0|, B, p, cls, st, over, i);
    PermutedPure(s0, t, begin, B, p, bs, bufs, cls, st, over, i);
    ReadyFromSlots(st.res, t, Plan(begin, |s0|, B, bs, st.w), over, bufs[i], cls, i,
                   p.start[i], st.w[i], p.start[i + 1], |s0| / B);
  }

  // ---------------------------------------------------------------- all buckets

  /** What belongs to bucket i and the later ones. */
  ghost function RestBag<T>(t: seq<T>, pl: Plan, over: Option<seq<T>>, bufs: seq<seq<T>>, i: nat): multiset<T>
    requires pl.B > 0 && |bufs| == |pl.w| < |pl.bs| && pl.Lim() <= |t| && i <= |pl.w|
    decreases |pl.w| - i
  {
    if i == |pl.w| then multiset{}
    else Belongings(t, pl.Bucket(i), pl.Lim(), over, bufs[i]) + RestBag(t, pl, over, bufs, i + 1)
  }

  lemma {:induction false} RestIsFlat<T(!new)>(
      res: seq<Option<seq<T>>>, t: seq<T>, pl: Plan, over: Option<seq<T>>, bufs: seq<seq<T>>, cls: T -> nat, i: nat)
    requires pl.Ok() && |bufs| == |pl.w| && pl.Lim() <= |t| && i <= |pl.w|
    requires |res| == Blocks(pl.n, pl.B)
    requires forall j :: 0 <= j < |pl.w| ==> HandedOver(res, t, pl, over, bufs[j], cls, j)
    ensures Blocks(pl.bs[i], pl.B) <= |res|
    ensures RestBag(t, pl, over, bufs, i) == multiset(Flat(res[Blocks(pl.bs[i], pl.B)..])) + BagOf(bufs[i..])
    decreases |pl.w| - i
  {
    if i < |pl.w| {
      assert HandedOver(res, t, pl, over, bufs[i], cls, i);
      RestIsFlat(res, t, pl, over, bufs, cls, i + 1);
      hide Flat, Belongings, BagOf, HandedOver;
      NextRest(res, Blocks(pl.bs[i], pl.B), Blocks(pl.bs[i + 1], pl.B), bufs, i);
    }
  }

  lemma NextRest<T>(res: seq<Option<seq<T>>>, lo: nat, hi: nat, bufs: seq<seq<T>>, i: nat)
    requires lo <= hi <= |res| && i < |bufs|
    ensures (multiset(Flat(res[lo..hi])) + multiset(bufs[i])) + (multiset(Flat(res[hi..])) + BagOf(bufs[i + 1..]))
         == multiset(Flat(res[lo..])) + BagOf(bufs[i..])
  {
    assert res[lo..] == res[lo..hi] + res[hi..];
    FlatConcat(res[lo..hi], res[hi..]);
    assert bufs[i..][1..] == bufs[i + 1..];
    RegroupBags(multiset(Flat(res[lo..hi])), multiset(bufs[i]), multiset(Flat(res[hi..])), BagOf(bufs[i + 1..]));
  }

  /** Nothing is lost: the buckets' belongings together are the original elements. */
  lemma NothingLost<T(!new)>(
      s0: seq<T>, t: seq<T>, begin: nat, B: nat, p: Layout<seq<T>>, bs: seq<nat>, bufs: seq<seq<T>>, cls: T -> nat,
      st: State<seq<T>>, over: Option<seq<T>>)
    requires Settled(s0, t, begin, B, p, bs, bufs, cls, st, over)
    ensures var pl := Plan(begin, |s0|, B, bs, st.w);
      && Prepared(t, pl, over, bufs, cls) && pl.Lim() <= |t|
      && RestBag(t, pl, over, bufs, 0) == multiset(s0)
  {
    hide *;
    var pl := Plan(begin, |s0|, B, bs, st.w);
    SettledShape(s0, t, begin, B, p, bs, bufs, cls, st, over);
    SettledBag(s0, t, begin, B, p, bs, bufs, cls, st, over);
    forall i | 0 <= i < |bufs| ensures HandedOver(st.res, t, pl, over, bufs[i], cls, i) {
      BucketIsReady(s0, t, begin, B, p, bs, bufs, cls, st, over, i);
    }
    AllReady(st.res, t, pl, over, bufs, cls);
    BagFromBlocks(st.res, t, pl, over, bufs, cls);
  }

  lemma SettledBag<T(!new)>(
      s0: seq<T>, t: seq<T>, begin: nat, B: nat, p: Layout<seq<T>>, bs: seq<nat>, bufs: seq<seq<T>>, cls: T -> nat,
      st: State<seq<T>>, over: Option<seq<T>>)
    requires Settled(s0, t, begin, B, p, bs, bufs, cls, st, over)
    ensures multiset(Flat(st.res)) + BagOf(bufs) == multiset(s0)
  {
    hide Permuted, Inv, Flat, BagOf;
    SettledShape(s0, t, begin, B, p, bs, bufs, cls, st, over);
    FlatBag(st.res, p.blocks);
  }

  lemma BagFromBlocks<T(!new)>(
      res: seq<Option<seq<T>>>, t: seq<T>, pl: Plan, over: Option<seq<T>>, bufs: seq<seq<T>>, cls: T -> nat)
    requires pl.Ok() && |bufs| == |pl.w| && pl.Lim() <= |t| && |res| == Blocks(pl.n, pl.B)
    requires forall j :: 0 <= j < |pl.w| ==> HandedOver(res, t, pl, over, bufs[j], cls, j)
    ensures RestBag(t, pl, over, bufs, 0) == multiset(Flat(res)) + BagOf(bufs)
  {
    assert pl.B > 0 && pl.bs[0] == 0;
    hide Flat, BagOf, RestBag, HandedOver;
    RestIsFlat(res, t, pl, over, bufs, cls, 0);
    BlocksUnique(0, 0, pl.B);
    assert res[0..] == res && bufs[0..] == bufs;
  }

  lemma AllReady<T(!new)>(
      res: seq<Option<seq<T>>>, t: seq<T>, pl: Plan, over: Option<seq<T>>, bufs: seq<seq<T>>, cls: T -> nat)
    requires |bufs| == |pl.w| > 0 && pl.begin + pl.n <= |t|
    requires forall j :: 0 <= j < |pl.w| ==> HandedOver(res, t, pl, over, bufs[j], cls, j)
    ensures Prepared(t, pl, over, bufs, cls) && pl.Lim() <= |t|
  {
    assert HandedOver(res, t, pl, over, bufs[0], cls, 0);
    forall i | 0 <= i < |pl.w| ensures BucketReady(t, pl, over, bufs[i], cls, i) {
      assert HandedOver(res, t, pl, over, bufs[i], cls, i);
    }
  }

  lemma OwnerSpilled<T(!new)>(
      s0: seq<T>, t: seq<T>, begin: nat, B: nat, p: Layout<seq<T>>, bs: seq<nat>, bufs: seq<seq<T>>, cls: T -> nat,
      st: State<seq<T>>, over: Option<seq<T>>) returns (o: nat)
    requires Settled(s0, t, begin, B, p, bs, bufs, cls, st, over) && over.Some?
    ensures o < |st.w| == |bufs| && |bs| == |bufs| + 1 && B > 0
    ensures var pl := Plan(begin, |s0|, B, bs, st.w); Spilled(pl.Bucket(o), pl.Lim())
  {
    hide Stored, Permuted, Rising, HandedOver, Owners, Spilled, Flat, Boundaries;
    SettledShape(s0, t, begin, B, p, bs, bufs, cls, st, over);
    var whole := |s0| / B;
    PermutedShape(t, begin, |s0|, B, p, cls, st, over, 0);
    ResultPlace(t, begin, |s0|, B, p, cls, st, over, whole);
    OwnersRight(p.start, whole);
    o := Owners(p.start)[whole];
    BucketIsReady(s0, t, begin, B, p, bs, bufs, cls, st, over, o);
    SpilledWhen(st.res, t, Plan(begin, |s0|, B, bs, st.w), over, bufs[o], cls, o);
  }

  lemma SpilledWhen<T(!new)>(
      res: seq<Option<seq<T>>>, t: seq<T>, pl: Plan, over: Option<seq<T>>, buf: seq<T>, cls: T -> nat, i: nat)
    requires HandedOver(res, t, pl, over, buf, cls, i)
    ensures pl.Ok() && i < |pl.w|
    ensures Spilled(pl.Bucket(i), pl.Lim()) <==> Blocks(pl.bs[i], pl.B) < pl.w[i] && pl.w[i] > pl.n / pl.B
    ensures Spilled(pl.Bucket(i), pl.Lim()) ==> over.Some?
  {
  }

  /**
   * The overflow buffer is in use exactly when the computed bucket overflowed, and no other bucket can, however
   * many threads have worked.
   */
  lemma OverflowExact<T(!new)>(
      s0: seq<T>, t: seq<T>, begin: nat, B: nat, p: Layout<seq<T>>, bs: seq<nat>, bufs: seq<seq<T>>, cls: T -> nat,
      st: State<seq<T>>, over: Option<seq<T>>, computed: int, i: nat)
    requires Settled(s0, t, begin, B, p, bs, bufs, cls, st, over)
    requires IsOverflowBucket(bs, B, computed) && i < |bufs|
    ensures |st.w| == |bufs| && |bs| == |bufs| + 1 && B > 0
    ensures var pl := Plan(begin, |s0|, B, bs, st.w);
      i == computed && over.Some? <==> Spilled(pl.Bucket(i), pl.Lim())
  {
    hide *;
    SettledShape(s0, t, begin, B, p, bs, bufs, cls, st, over);
    var pl := Plan(begin, |s0|, B, bs, st.w);
    NothingLost(s0, t, begin, B, p, bs, bufs, cls, st, over);
    BucketIsReady(s0, t, begin, B, p, bs, bufs, cls, st, over, i);
    SpilledWhen(st.res, t, pl, over, bufs[i], cls, i);
    if Spilled(pl.Bucket(i), pl.Lim()) {
      OverflowIsComputed(t, pl, over, bufs, cls, i, computed);
    } else if over.Some? {
      var o := OwnerSpilled(s0, t, begin, B, p, bs, bufs, cls, st, over);
      OverflowIsComputed(t, pl, over, bufs, cls, o, computed);
    }
  }

  /** After the permutation, the cleanup can start. */
  lemma CanCleanUp<T(!new)>(
      s0: seq<T>, t: seq<T>, begin: nat, B: nat, p: Layout<seq<T>>, bs: seq<nat>, bufs: seq<seq<T>>, cls: T -> nat,
      st: State<seq<T>>, over: Option<seq<T>>, computed: int)
    requires Settled(s0, t, begin, B, p, bs, bufs, cls, st, over) && IsOverflowBucket(bs, B, computed)
    ensures var pl := Plan(begin, |s0|, B, bs, st.w);
      && pl.Ok() && |pl.w| == |bufs| && Prepared(t, pl, over, bufs, cls) && pl.Lim() <= |t|
      && RestBag(t, pl, over, bufs, 0) == multiset(s0)
      && forall i :: 0 <= i < |pl.w| ==> (i == computed && over.Some? <==> Spilled(pl.Bucket(i), pl.Lim()))
  {
    var pl := Plan(begin, |s0|, B, bs, st.w);
    hide *;
    SettledShape(s0, t, begin, B, p, bs, bufs, cls, st, over);
    NothingLost(s0, t, begin, B, p, bs, bufs, cls, st, over);
    forall i | 0 <= i < |pl.w| ensures i == computed && over.Some? <==> Spilled(pl.Bucket(i), pl.Lim()) {
      OverflowExact(s0, t, begin, B, p, bs, bufs, cls, st, over, computed, i);
    }
  }
}
