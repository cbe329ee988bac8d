/**
 * Local classification of the in-place sorter: elements go to the buffer of their bucket, and a full
 * buffer is flushed to the front of the array as one block, just before the next element for it.
 */
module LocalClassification {
  import opened Bags
  import opened Buckets
  import opened Powers
  import opened Classifier
  import opened Buffers

  /** Block q of s, in blocks of size B. */
  ghost function Block<T>(s: seq<T>, q: nat, B: nat): (b: seq<T>)
    requires q * B + B <= |s|
    ensures |b| == B
  {
    s[q * B..q * B + B]
  }

  /** `it` elements are consumed: some sit in the first e blocks of s, the others in buffers. */
  ghost predicate Kept<T(!new)>(s0: seq<T>, s: seq<T>, it: nat, at: nat, bufs: seq<seq<T>>) {
    && |s| == |s0| && at <= it <= |s|
    && at + TotalLen(bufs) == it
    && s[it..] == s0[it..]
    && multiset(s[..at]) + BagOf(bufs) == multiset(s0[..it])
  }

  ghost predicate BuffersOk<T(!new)>(B: nat, flushed: seq<nat>, bufs: seq<seq<T>>, sizes: seq<nat>, cls: T -> nat) {
    && |sizes| == |bufs|
    && forall i :: 0 <= i < |bufs| ==> BufferOk(B, flushed, bufs[i], sizes[i], cls, i)
  }

  /** The number of elements of each bucket among the first `it`. */
  ghost predicate Counted<T(!new)>(s0: seq<T>, it: nat, bufs: seq<seq<T>>, sizes: seq<nat>, cls: T -> nat) {
    && |sizes| == |bufs| && it <= |s0|
    && forall i :: 0 <= i < |bufs| ==> sizes[i] + |bufs[i]| == Count(s0[..it], Has(cls, i))
  }

  /**
   * The state between two elements: flushed[q] is the bucket of block q, the blocks fill s[..at], `it`
   * elements are consumed, and sizes counts the flushed elements of each bucket.
   */
  ghost predicate Progress<T(!new)>(
      s0: seq<T>, s: seq<T>, it: nat, B: nat, at: nat, flushed: seq<nat>, bufs: seq<seq<T>>, sizes: seq<nat>,
      cls: T -> nat)
  {
    && B > 0 && at == |flushed| * B
    && Kept(s0, s, it, at, bufs)
    && FlushedPure(s, B, flushed, cls)
    && BuffersOk(B, flushed, bufs, sizes, cls)
    && Counted(s0, it, bufs, sizes, cls)
  }

  ghost predicate FlushedPure<T(!new)>(s: seq<T>, B: nat, flushed: seq<nat>, cls: T -> nat) {
    forall q {:trigger BlockPure(s, B, q, cls, flushed[q])} :: 0 <= q < |flushed| ==>
      BlockPure(s, B, q, cls, flushed[q])
  }

  ghost predicate BlockPure<T(!new)>(s: seq<T>, B: nat, q: nat, cls: T -> nat, i: nat) {
    q * B + B <= |s| && AllOf(Block(s, q, B), cls, i)
  }

  /** A buffer holds at most one block, and is never empty once a block was flushed from it. */
  ghost predicate BufferOk<T(!new)>(B: nat, flushed: seq<nat>, buf: seq<T>, size: nat, cls: T -> nat, i: nat) {
    && |buf| <= B && AllOf(buf, cls, i)
    && size == Count(flushed, Is(i)) * B
    && (size > 0 ==> |buf| > 0)
  }

  /** A full buffer fits between the flushed blocks and the elements still to be consumed. */
  lemma Room<T(!new)>(
      s0: seq<T>, s: seq<T>, it: nat, B: nat, at: nat, flushed: seq<nat>, bufs: seq<seq<T>>, sizes: seq<nat>,
      cls: T -> nat, i: nat)
    requires Progress(s0, s, it, B, at, flushed, bufs, sizes, cls) && i < |bufs|
    ensures |bufs[i]| <= B && at + |bufs[i]| <= it && AllOf(bufs[i], cls, i)
  {
    assert BufferOk(B, flushed, bufs[i], sizes[i], cls, i);
    OneOfMany(bufs, i);
  }

  lemma CountNext<T(!new)>(s0: seq<T>, it: nat, cls: T -> nat, i: nat)
    requires it < |s0|
    ensures Count(s0[..it + 1], Has(cls, i)) == Count(s0[..it], Has(cls, i)) + (if cls(s0[it]) == i then 1 else 0)
    ensures multiset(s0[..it + 1]) == multiset(s0[..it]) + multiset{s0[it]}
  {
    assert s0[..it + 1] == s0[..it] + [s0[it]];
    CountSnoc(s0[..it], s0[it], Has(cls, i));
  }

  lemma PushKept<T(!new)>(s0: seq<T>, s: seq<T>, it: nat, at: nat, bufs: seq<seq<T>>, i: nat)
    requires Kept(s0, s, it, at, bufs) && it < |s| && i < |bufs|
    ensures Kept(s0, s, it + 1, at, bufs[i := bufs[i] + [s[it]]])
  {
    var x := s[it];
    NextConsumed(s0, s, it);
    Update(bufs, i, bufs[i] + [x]);
    AddOne(multiset(s[..at]), BagOf(bufs), multiset(bufs[i]), BagOf(bufs[i := bufs[i] + [x]]), x);
  }

  lemma NextConsumed<T>(s0: seq<T>, s: seq<T>, it: nat)
    requires it < |s| == |s0| && s[it..] == s0[it..]
    ensures s[it] == s0[it] && s[it + 1..] == s0[it + 1..]
    ensures multiset(s0[..it + 1]) == multiset(s0[..it]) + multiset{s[it]}
  {
    assert s[it] == s[it..][0] && s0[it] == s0[it..][0];
    assert s[it + 1..] == s[it..][1..] && s0[it + 1..] == s0[it..][1..];
    assert s0[..it + 1] == s0[..it] + [s0[it]];
  }

  lemma AddOne<T>(f: multiset<T>, b: multiset<T>, m: multiset<T>, b': multiset<T>, x: T)
    requires b' + m == b + (m + multiset{x})
    ensures f + b' == (f + b) + multiset{x}
  {
    assert m + b' == b' + m;
    assert b + (m + multiset{x}) == m + (b + multiset{x});
    Cancel(m, b', b + multiset{x});
    assert f + (b + multiset{x}) == (f + b) + multiset{x};
  }

  lemma CountedNext<T(!new)>(
      s0: seq<T>, it: nat, bufs: seq<seq<T>>, sizes: seq<nat>, cls: T -> nat, bufs': seq<seq<T>>, sizes': seq<nat>)
    requires Counted(s0, it, bufs, sizes, cls) && it < |s0|
    requires |bufs'| == |sizes'| == |bufs|
    requires forall j :: 0 <= j < |bufs| ==>
      sizes'[j] + |bufs'[j]| == sizes[j] + |bufs[j]| + (if cls(s0[it]) == j then 1 else 0)
    ensures Counted(s0, it + 1, bufs', sizes', cls)
  {
    forall j | 0 <= j < |bufs| ensures sizes'[j] + |bufs'[j]| == Count(s0[..it + 1], Has(cls, j)) {
      CountNext(s0, it, cls, j);
    }
  }

  /** The buffer has room. */
  lemma PushStep<T(!new)>(
      s0: seq<T>, s: seq<T>, it: nat, B: nat, at: nat, flushed: seq<nat>, bufs: seq<seq<T>>, sizes: seq<nat>,
      cls: T -> nat, i: nat)
    requires Progress(s0, s, it, B, at, flushed, bufs, sizes, cls) && it < |s|
    requires i == cls(s[it]) < |bufs| && |bufs[i]| < B
    ensures Progress(s0, s, it + 1, B, at, flushed, bufs[i := bufs[i] + [s[it]]], sizes, cls)
  {
    var bufs' := bufs[i := bufs[i] + [s[it]]];
    PushKept(s0, s, it, at, bufs, i);
    NextConsumed(s0, s, it);
    CountedNext(s0, it, bufs, sizes, cls, bufs', sizes);
    forall j | 0 <= j < |bufs| ensures BufferOk(B, flushed, bufs'[j], sizes[j], cls, j) {
      assert BufferOk(B, flushed, bufs[j], sizes[j], cls, j);
    }
  }

  lemma FlushPure<T(!new)>(s: seq<T>, B: nat, at: nat, flushed: seq<nat>, cls: T -> nat, i: nat, block: seq<T>)
    requires FlushedPure(s, B, flushed, cls) && |block| == B > 0 && at == |flushed| * B && at + B <= |s|
    requires AllOf(block, cls, i)
    ensures FlushedPure(Put(s, at, block), B, flushed + [i], cls)
  {
    var e, t, flushed' := |flushed|, Put(s, at, block), flushed + [i];
    assert Block(t, e, B) == block;
    forall q | 0 <= q < e + 1 ensures BlockPure(t, B, q, cls, flushed'[q]) {
      if q < e {
        assert BlockPure(s, B, q, cls, flushed[q]);
        MulLess(q, e, B);
        assert Block(t, q, B) == Block(s, q, B);
      }
    }
  }

  lemma FlushBuffer<T(!new)>(B: nat, flushed: seq<nat>, buf: seq<T>, size: nat, cls: T -> nat, j: nat, i: nat)
    requires BufferOk(B, flushed, buf, size, cls, j) && j != i
    ensures BufferOk(B, flushed + [i], buf, size, cls, j)
  {
    CountSnoc(flushed, i, Is(j));
  }

  lemma FlushedBuffer<T(!new)>(B: nat, flushed: seq<nat>, buf: seq<T>, size: nat, cls: T -> nat, i: nat, x: T)
    requires BufferOk(B, flushed, buf, size, cls, i) && cls(x) == i && B > 0
    ensures BufferOk(B, flushed + [i], [x], size + B, cls, i)
  {
    CountSnoc(flushed, i, Is(i));
    assert (Count(flushed, Is(i)) + 1) * B == Count(flushed, Is(i)) * B + B;
  }

  lemma FlushKept<T(!new)>(s0: seq<T>, s: seq<T>, it: nat, at: nat, bufs: seq<seq<T>>, i: nat)
    requires Kept(s0, s, it, at, bufs) && it < |s| && i < |bufs|
    requires at + |bufs[i]| <= it
    ensures Kept(s0, Put(s, at, bufs[i]), it + 1, at + |bufs[i]|, bufs[i := [s[it]]])
  {
    var x := s[it];
    NextConsumed(s0, s, it);
    Update(bufs, i, [x]);
    var t, bufs' := Put(s, at, bufs[i]), bufs[i := [x]];
    assert t[it + 1..] == s[it + 1..];
    assert t[..at + |bufs[i]|] == s[..at] + bufs[i];
    FlushBags(multiset(s[..at]), BagOf(bufs), multiset(bufs[i]), BagOf(bufs'), x);
  }

  lemma FlushBags<T>(f: multiset<T>, b: multiset<T>, m: multiset<T>, b': multiset<T>, x: T)
    requires b' + m == b + multiset{x}
    ensures (f + m) + b' == (f + b) + multiset{x}
  {
    assert (f + m) + b' == f + (b' + m);
    assert f + (b + multiset{x}) == (f + b) + multiset{x};
  }

  lemma FlushBuffers<T(!new)>(
      B: nat, flushed: seq<nat>, bufs: seq<seq<T>>, sizes: seq<nat>, cls: T -> nat, i: nat, x: T)
    requires BuffersOk(B, flushed, bufs, sizes, cls) && i < |bufs| && cls(x) == i && B > 0
    ensures BuffersOk(B, flushed + [i], bufs[i := [x]], sizes[i := sizes[i] + B], cls)
  {
    var bufs', sizes' := bufs[i := [x]], sizes[i := sizes[i] + B];
    forall j | 0 <= j < |bufs| ensures BufferOk(B, flushed + [i], bufs'[j], sizes'[j], cls, j) {
      assert BufferOk(B, flushed, bufs[j], sizes[j], cls, j);
      if j == i { FlushedBuffer(B, flushed, bufs[i], sizes[i], cls, i, x); }
      else { FlushBuffer(B, flushed, bufs[j], sizes[j], cls, j, i); }
    }
  }

  /** The buffer is full: it is flushed as a block over consumed elements only. */
  lemma FlushStep<T(!new)>(
      s0: seq<T>, s: seq<T>, it: nat, B: nat, at: nat, flushed: seq<nat>, bufs: seq<seq<T>>, sizes: seq<nat>,
      cls: T -> nat, i: nat)
    requires Progress(s0, s, it, B, at, flushed, bufs, sizes, cls) && it < |s|
    requires i == cls(s[it]) < |bufs| && |bufs[i]| == B
    ensures at + B <= it
    ensures Progress(s0, Put(s, at, bufs[i]), it + 1, B, at + B, flushed + [i],
                     bufs[i := [s[it]]], sizes[i := sizes[i] + B], cls)
  {
    NextBlock(flushed, i, B);
    Room(s0, s, it, B, at, flushed, bufs, sizes, cls, i);
    FlushKept(s0, s, it, at, bufs, i);
    FlushPure(s, B, at, flushed, cls, i, bufs[i]);
    FlushBuffers(B, flushed, bufs, sizes, cls, i, s[it]);
    NextConsumed(s0, s, it);
    CountedNext(s0, it, bufs, sizes, cls, bufs[i := [s[it]]], sizes[i := sizes[i] + B]);
  }

  lemma NextBlock(flushed: seq<nat>, i: nat, B: nat)
    ensures |flushed + [i]| * B == |flushed| * B + B
  {
  }

  // ---------------------------------------------------------------- the loop

  /** The callback for the element at pos; `write` is where the next block goes. */
  method Consume<T(!new)>(
      a: array<T>, write: nat, pos: nat, buffers: Buffers<T>, bucketSize: array<nat>, bucket: nat)
      returns (write': nat)
    requires pos < a.Length && buffers.blockSize > 0 && bucket < |buffers.content| == bucketSize.Length
    requires |buffers.content[bucket]| <= buffers.blockSize && (a as object) != bucketSize
    requires buffers.IsFull(bucket) ==> write + buffers.blockSize <= pos
    modifies a, buffers, bucketSize
    ensures !old(buffers.IsFull(bucket)) ==>
      && write' == write && a[..] == old(a[..]) && bucketSize[..] == old(bucketSize[..])
      && buffers.content == old(buffers.content[bucket := buffers.content[bucket] + [a[pos]]])
    ensures old(buffers.IsFull(bucket)) ==>
      && write' == write + buffers.blockSize
      && a[..] == Put(old(a[..]), write, old(buffers.content[bucket]))
      && buffers.content == old(buffers.content[bucket := [a[pos]]])
      && bucketSize[..] == old(bucketSize[..][bucket := bucketSize[bucket] + buffers.blockSize])
  {
    write' := write;
    ghost var x := a[pos];
    if buffers.IsFull(bucket) {
      buffers.WriteTo(bucket, a, write);
      write' := write + buffers.blockSize;
      bucketSize[bucket] := bucketSize[bucket] + buffers.blockSize;
      assert a[pos] == a[..][pos] == x;
    }
    buffers.Push(bucket, a[pos]);
    assert [] + [x] == [x];
  }

  ghost predicate Running<T(!new)>(
      s0: seq<T>, a: array<T>, lo: nat, hi: nat, pos: nat, write: nat, flushed: seq<nat>,
      buffers: Buffers<T>, bucketSize: array<nat>, cls: T -> nat)
    reads a, buffers, bucketSize
  {
    && lo <= pos <= hi <= a.Length && lo <= write
    && |buffers.content| == bucketSize.Length && buffers.blockSize > 0
    && Progress(s0, a[lo..hi], pos - lo, buffers.blockSize, write - lo, flushed, buffers.content, bucketSize[..], cls)
  }

  /** The pure content of a turn that flushes; t is the array before it. */
  lemma TurnFlushes<T(!new)>(
      s0: seq<T>, t: seq<T>, lo: nat, hi: nat, pos: nat, B: nat, at: nat, flushed: seq<nat>,
      bufs: seq<seq<T>>, sizes: seq<nat>, cls: T -> nat, i: nat)
    requires lo <= pos < hi <= |t| && i == cls(t[pos]) < |bufs| && |bufs[i]| == B
    requires Progress(s0, t[lo..hi], pos - lo, B, at, flushed, bufs, sizes, cls)
    ensures lo + at + B <= pos
    ensures Progress(s0, Put(t, lo + at, bufs[i])[lo..hi], pos + 1 - lo, B, at + B, flushed + [i],
                     bufs[i := [t[pos]]], sizes[i := sizes[i] + B], cls)
  {
    var s := t[lo..hi];
    assert s[pos - lo] == t[pos];
    FlushStep(s0, s, pos - lo, B, at, flushed, bufs, sizes, cls, i);
    FlushSlice(t, lo, hi, at, bufs[i]);
  }

  lemma TurnPushes<T(!new)>(
      s0: seq<T>, t: seq<T>, lo: nat, hi: nat, pos: nat, B: nat, at: nat, flushed: seq<nat>,
      bufs: seq<seq<T>>, sizes: seq<nat>, cls: T -> nat, i: nat)
    requires lo <= pos < hi <= |t| && i == cls(t[pos]) < |bufs| && |bufs[i]| < B
    requires Progress(s0, t[lo..hi], pos - lo, B, at, flushed, bufs, sizes, cls)
    ensures Progress(s0, t[lo..hi], pos + 1 - lo, B, at, flushed, bufs[i := bufs[i] + [t[pos]]], sizes, cls)
  {
    assert t[lo..hi][pos - lo] == t[pos];
    PushStep(s0, t[lo..hi], pos - lo, B, at, flushed, bufs, sizes, cls, i);
  }

  /** One turn of the classification loop. */
  method ConsumeNext<T(!new)>(
      ghost s0: seq<T>, a: array<T>, lo: nat, hi: nat, write: nat, pos: nat, ghost flushed: seq<nat>,
      buffers: Buffers<T>, bucketSize: array<nat>, bucket: nat, ghost cls: T -> nat)
      returns (write': nat, ghost flushed': seq<nat>)
    requires Running(s0, a, lo, hi, pos, write, flushed, buffers, bucketSize, cls)
    requires pos < hi && (a as object) != bucketSize && bucket == cls(a[pos]) < bucketSize.Length
    modifies a, buffers, bucketSize
    ensures a[..lo] == old(a[..lo]) && a[hi..] == old(a[hi..])
    ensures Running(s0, a, lo, hi, pos + 1, write', flushed', buffers, bucketSize, cls)
  {
    hide Progress, Put, TotalLen;
    ghost var t, bufs, sizes, at, B := a[..], buffers.content, bucketSize[..], write - lo, buffers.blockSize;
    assert t[lo..hi] == a[lo..hi];
    Room(s0, t[lo..hi], pos - lo, B, at, flushed, bufs, sizes, cls, bucket);
    write' := Consume(a, write, pos, buffers, bucketSize, bucket);
    flushed' := flushed;
    if |bufs[bucket]| == B {
      TurnFlushes(s0, t, lo, hi, pos, B, at, flushed, bufs, sizes, cls, bucket);
      FlushSlice(t, lo, hi, at, bufs[bucket]);
      flushed' := flushed + [bucket];
    } else {
      TurnPushes(s0, t, lo, hi, pos, B, at, flushed, bufs, sizes, cls, bucket);
    }
    Slices(a[..], lo, hi);
  }

  lemma Slices<T>(s: seq<T>, lo: nat, hi: nat)
    requires lo <= hi <= |s|
    ensures s == s[..lo] + s[lo..hi] + s[hi..]
  {
  }

  lemma FlushSlice<T>(s: seq<T>, lo: nat, hi: nat, at: nat, block: seq<T>)
    requires lo <= hi <= |s| && lo + at + |block| <= hi
    ensures Put(s, lo + at, block)[lo..hi] == Put(s[lo..hi], at, block)
    ensures Put(s, lo + at, block)[..lo] == s[..lo] && Put(s, lo + at, block)[hi..] == s[hi..]
  {
  }

  ghost predicate FreshBuffers<T(!new)>(buffers: Buffers<T>, bucketSize: array<nat>)
    reads buffers, bucketSize
  {
    && buffers.blockSize > 0 && |buffers.content| == bucketSize.Length
    && forall i :: 0 <= i < bucketSize.Length ==> buffers.content[i] == [] && bucketSize[i] == 0
  }

  lemma NothingYet<T(!new)>(s: seq<T>, B: nat, bufs: seq<seq<T>>, sizes: seq<nat>, cls: T -> nat)
    requires B > 0 && |bufs| == |sizes| && forall i :: 0 <= i < |bufs| ==> bufs[i] == [] && sizes[i] == 0
    ensures Progress(s, s, 0, B, 0, [], bufs, sizes, cls)
  {
    AllEmpty(bufs);
  }

  lemma TotalCount<T(!new)>(
      s0: seq<T>, s: seq<T>, B: nat, at: nat, flushed: seq<nat>, bufs: seq<seq<T>>, sizes: seq<nat>, cls: T -> nat)
    requires Progress(s0, s, |s0|, B, at, flushed, bufs, sizes, cls)
    ensures forall i :: 0 <= i < |bufs| ==> sizes[i] + |bufs[i]| == Count(s0, Has(cls, i))
  {
    assert s0[..|s0|] == s0;
  }

  /** The classification loop. */
  method ClassifyAll<T(!new)>(
      a: array<T>, lo: nat, hi: nat, buffers: Buffers<T>, bucketSize: array<nat>, cl: Classifier<T>, equal: bool,
      ghost cls: T -> nat)
      returns (write: nat, ghost flushed: seq<nat>)
    requires lo <= hi <= a.Length
    requires a != cl.tree && a != cl.sorted && (a as object) != bucketSize
    requires (bucketSize as object) != cl.tree && (bucketSize as object) != cl.sorted
    requires Agrees(cl, equal, cls) && FreshBuffers(buffers, bucketSize)
    requires forall x :: cls(x) < bucketSize.Length
    modifies a, buffers, bucketSize
    ensures a[..lo] == old(a[..lo]) && a[hi..] == old(a[hi..])
    ensures Running(old(a[lo..hi]), a, lo, hi, hi, write, flushed, buffers, bucketSize, cls)
  {
    hide Progress;
    ghost var s0 := a[lo..hi];
    var pos := lo;
    write, flushed := lo, [];
    NothingYet(s0, buffers.blockSize, buffers.content, bucketSize[..], cls);
    while pos != hi
      invariant lo <= pos <= hi && lo <= write
      invariant a[..lo] == old(a[..lo]) && a[hi..] == old(a[hi..])
      invariant Running(s0, a, lo, hi, pos, write, flushed, buffers, bucketSize, cls)
      decreases hi - pos
    {
      var bucket := cl.Classify(equal, a[pos]);
      write, flushed := ConsumeNext(s0, a, lo, hi, write, pos, flushed, buffers, bucketSize, bucket, cls);
      pos := pos + 1;
    }
  }

  /** Accounts for the partially filled buffers. */
  method AddBuffered<T(!new)>(buffers: Buffers<T>, bucketSize: array<nat>)
    requires |buffers.content| == bucketSize.Length
    modifies bucketSize
    ensures forall i :: 0 <= i < bucketSize.Length ==> bucketSize[i] == old(bucketSize[i]) + |buffers.content[i]|
  {
    for i := 0 to bucketSize.Length
      invariant forall j :: 0 <= j < i ==> bucketSize[j] == old(bucketSize[j]) + |buffers.content[j]|
      invariant forall j :: i <= j < bucketSize.Length ==> bucketSize[j] == old(bucketSize[j])
    {
      bucketSize[i] := bucketSize[i] + |buffers.content[i]|;
    }
  }

  /**
   * Classifies a[lo..hi] into the buffers. The result is the first empty block; the bucket sizes
   * end up as the true class counts.
   */
  method ClassifyLocally<T(!new)>(
      a: array<T>, lo: nat, hi: nat, buffers: Buffers<T>, bucketSize: array<nat>, cl: Classifier<T>, equal: bool,
      ghost cls: T -> nat)
      returns (first: nat, ghost flushed: seq<nat>, ghost sizes: seq<nat>)
    requires lo <= hi <= a.Length
    requires a != cl.tree && a != cl.sorted && (a as object) != bucketSize
    requires (bucketSize as object) != cl.tree && (bucketSize as object) != cl.sorted
    requires Agrees(cl, equal, cls) && FreshBuffers(buffers, bucketSize)
    requires forall x :: cls(x) < bucketSize.Length
    modifies a, buffers, bucketSize
    ensures a[..lo] == old(a[..lo]) && a[hi..] == old(a[hi..])
    ensures first == |flushed|
    ensures Progress(old(a[lo..hi]), a[lo..hi], hi - lo, buffers.blockSize, first * buffers.blockSize, flushed,
                     buffers.content, sizes, cls)
    ensures |buffers.content| == bucketSize.Length
    ensures forall i :: 0 <= i < bucketSize.Length ==> bucketSize[i] == Count(old(a[lo..hi]), Has(cls, i))
  {
    ghost var s0 := a[lo..hi];
    var write;
    write, flushed := ClassifyAll(a, lo, hi, buffers, bucketSize, cl, equal, cls);
    sizes := bucketSize[..];
    TotalCount(s0, a[lo..hi], buffers.blockSize, write - lo, flushed, buffers.content, sizes, cls);
    AddBuffered(buffers, bucketSize);
    WholeQuotient(|flushed|, buffers.blockSize);
    first := (write - lo) / buffers.blockSize;
  }

  lemma WholeQuotient(q: nat, B: nat)
    requires B > 0
    ensures (q * B) / B == q
  {
    QuotientCompare(q * B, B, q);
    QuotientCompare(q * B, B, q + 1);
    assert (q + 1) * B == q * B + B;
  }
}
