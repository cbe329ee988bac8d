/**
 * The cleanup phase by several threads. Every thread fills the buckets of a range of bucket numbers, in
 * increasing order. The excess that reaches beyond a thread's last bucket is saved before any thread writes,
 * as the threads behind may overwrite it.
 */
module ParallelMargins {
  import opened Order
  import opened Buckets
  import opened Powers
  import opened BaseCase
  import opened Buffers
  import opened BlockProtocol
  import opened InPlaceLayout
  import opened Margins
  import opened PermutedBlocks
  import InPlacePartition

  // ---------------------------------------------------------------- the buffers of all threads

  /** Writing one more buffer where the last one ended continues what the buffers so far have written. */
  lemma NextWritten<T>(t: seq<T>, dst: nat, remaining: nat, write: nat, x: seq<T>, y: seq<T>)
    requires BufferFits(|t|, dst, remaining, write, |x + y|)
    ensures BufferFits(|t|, dst, remaining, write, |x|)
    ensures var u := BufferWritten(t, dst, remaining, write, x);
      BufferWritten(t, dst, remaining, write, x + y) ==
        if |x| > remaining then Put(u, write + |x| - remaining, y)
        else if |x| + |y| <= remaining then Put(u, dst + |x|, y)
        else Put(Put(u, dst + |x|, y[..remaining - |x|]), write, y[remaining - |x|..])
  {
    if |x| > remaining {
      assert (x + y)[..remaining] == x[..remaining] && (x + y)[remaining..] == x[remaining..] + y;
      Adjacent(Put(t, dst, x[..remaining]), write, x[remaining..], y);
    } else if |x| + |y| <= remaining {
      Adjacent(t, dst, x, y);
    } else {
      var z := y[..remaining - |x|];
      assert (x + y)[..remaining] == x + z && (x + y)[remaining..] == y[remaining - |x|..];
      Adjacent(t, dst, x, z);
    }
  }

  lemma NoneWritten<T>(t: seq<T>, dst: nat, remaining: nat, write: nat)
    requires dst <= |t|
    ensures BufferFits(|t|, dst, remaining, write, 0) && BufferWritten(t, dst, remaining, write, []) == t
  {
  }

  /** x has been written to t, and the next buffer goes to dst; tail says that it goes behind the last block. */
  ghost predicate SoFar<T>(
      t: seq<T>, u: seq<T>, dst0: nat, remaining0: nat, write: nat, x: seq<T>, dst: nat, remaining: nat, tail: bool)
  {
    && BufferFits(|t|, dst0, remaining0, write, |x|) && u == BufferWritten(t, dst0, remaining0, write, x)
    && (tail <==> |x| > remaining0)
    && if tail then dst == write + |x| - remaining0 else dst == dst0 + |x| && remaining == remaining0 - |x|
  }

  lemma TailNext<T>(
      t: seq<T>, u: seq<T>, dst0: nat, remaining0: nat, write: nat, x: seq<T>, dst: nat, remaining: nat, y: seq<T>)
    requires SoFar(t, u, dst0, remaining0, write, x, dst, remaining, true)
    requires BufferFits(|t|, dst0, remaining0, write, |x + y|)
    ensures dst + |y| <= |u|
    ensures SoFar(t, Put(u, dst, y), dst0, remaining0, write, x + y, dst + |y|, remaining, true)
  {
    NextWritten(t, dst0, remaining0, write, x, y);
    hide BufferWritten, Put;
  }

  lemma HeadNext<T>(
      t: seq<T>, u: seq<T>, dst0: nat, remaining0: nat, write: nat, x: seq<T>, dst: nat, remaining: nat, y: seq<T>)
    requires SoFar(t, u, dst0, remaining0, write, x, dst, remaining, false) && |y| <= remaining
    requires BufferFits(|t|, dst0, remaining0, write, |x + y|)
    ensures dst + |y| <= |u|
    ensures SoFar(t, Put(u, dst, y), dst0, remaining0, write, x + y, dst + |y|, remaining - |y|, false)
  {
    NextWritten(t, dst0, remaining0, write, x, y);
    hide BufferWritten, Put;
  }

  lemma TurnNext<T>(
      t: seq<T>, u: seq<T>, dst0: nat, remaining0: nat, write: nat, x: seq<T>, dst: nat, remaining: nat, y: seq<T>)
    requires SoFar(t, u, dst0, remaining0, write, x, dst, remaining, false) && |y| > remaining
    requires BufferFits(|t|, dst0, remaining0, write, |x + y|)
    ensures dst + remaining <= |u| && write + |y| <= |u| + remaining
    ensures SoFar(t, Put(Put(u, dst, y[..remaining]), write, y[remaining..]), dst0, remaining0, write, x + y,
                  write + |y| - remaining, 0, true)
  {
    NextWritten(t, dst0, remaining0, write, x, y);
    hide BufferWritten, Put;
  }

  /** Writes the buffer y after x. */
  method WriteNext<T>(
      a: array<T>, dst: nat, remaining: nat, tail: bool, write: nat, y: seq<T>,
      ghost t: seq<T>, ghost x: seq<T>, ghost dst0: nat, ghost remaining0: nat)
      returns (dst': nat, remaining': nat, tail': bool)
    requires SoFar(t, a[..], dst0, remaining0, write, x, dst, remaining, tail)
    requires BufferFits(|t|, dst0, remaining0, write, |x + y|)
    modifies a
    ensures SoFar(t, a[..], dst0, remaining0, write, x + y, dst', remaining', tail')
  {
    if tail {
      TailNext(t, a[..], dst0, remaining0, write, x, dst, remaining, y);
      hide *;
      CopyIn(a, dst, y);
      dst', remaining', tail' := dst + |y|, remaining, true;
    } else if |y| <= remaining {
      HeadNext(t, a[..], dst0, remaining0, write, x, dst, remaining, y);
      hide *;
      CopyIn(a, dst, y);
      dst', remaining', tail' := dst + |y|, remaining - |y|, false;
    } else {
      TurnNext(t, a[..], dst0, remaining0, write, x, dst, remaining, y);
      hide *;
      CopyIn(a, dst, y[..remaining]);
      CopyIn(a, write, y[remaining..]);
      dst', remaining', tail' := write + |y| - remaining, 0, true;   // no limit any more
    }
  }

  /** Writes the buffers of all threads, one after the other, first to dst and then behind the last block. */
  method WriteBuffers<T>(a: array<T>, dst0: nat, remaining0: nat, write: nat, bufs: seq<seq<T>>)
    requires dst0 <= a.Length && BufferFits(a.Length, dst0, remaining0, write, |Joined(bufs)|)
    modifies a
    ensures a[..] == BufferWritten(old(a[..]), dst0, remaining0, write, Joined(bufs))
  {
    ghost var t := a[..];
    NoneWritten(t, dst0, remaining0, write);
    assert bufs[..0] == [] && Joined<T>([]) == [];
    var dst, remaining, tail := dst0, remaining0, false;
    for i := 0 to |bufs|
      invariant SoFar(t, a[..], dst0, remaining0, write, Joined(bufs[..i]), dst, remaining, tail)
    {
      JoinedNext(bufs, i);
      hide SoFar, BufferWritten, Put, Joined;
      dst, remaining, tail := WriteNext(a, dst, remaining, tail, write, bufs[i], t, Joined(bufs[..i]), dst0,
        remaining0);
    }
    assert bufs[..|bufs|] == bufs;
  }

  // ---------------------------------------------------------------- saving the excess

  /** The last block of bucket k was written in place, and reaches beyond the start of bucket `last`. */
  ghost predicate Crosses(pl: Plan, k: nat, last: nat)
    requires pl.Ok() && k < |pl.w| && last < |pl.bs|
  {
    var sp := pl.Bucket(k);
    Exceeds(sp, pl.B) && !Spilled(sp, pl.Lim()) && sp.wr > pl.begin + pl.bs[last]
  }

  /** What is known of the write pointers after the permutation. */
  ghost predicate PointersOk(pl: Plan)
    requires pl.Ok()
  {
    forall k :: 0 <= k < |pl.w| ==> PointerOk(pl, k)
  }

  ghost predicate PointerOk(pl: Plan, k: nat)
    requires pl.Ok() && k < |pl.w|
  {
    && Blocks(pl.bs[k], pl.B) <= pl.w[k] <= Blocks(pl.bs[k + 1], pl.B)
    && (pl.w[k] > Blocks(pl.bs[k], pl.B) ==> (pl.w[k] - Blocks(pl.bs[k], pl.B)) * pl.B < pl.bs[k + 1] - pl.bs[k])
  }

  /** The permutation leaves them so, as no bucket was flushed completely. */
  lemma PreparedPointers<T(!new)>(t: seq<T>, pl: Plan, over: Option<seq<T>>, bufs: seq<seq<T>>, cls: T -> nat)
    requires Prepared(t, pl, over, bufs, cls)
    ensures PointersOk(pl)
  {
    forall k | 0 <= k < |pl.w| ensures PointerOk(pl, k) {
      assert BucketReady(t, pl, over, bufs[k], cls, k);
      BoundaryMono(pl.bs, pl.n, k, k + 1);
      ReadySize(t, pl, over, bufs[k], cls, k);
      hide BucketReady, Boundaries;
      if pl.w[k] > Blocks(pl.bs[k], pl.B) { MulMono(1, pl.w[k] - Blocks(pl.bs[k], pl.B), pl.B); }
    }
  }

  /** The bucket that crosses, if there is one, and its excess. */
  ghost predicate IsSaved<T>(t: seq<T>, pl: Plan, last: nat, bucket: int, saved: seq<T>)
    requires pl.Ok() && last < |pl.bs|
  {
    && -1 <= bucket < last
    && (bucket >= 0 ==>
          var sp := pl.Bucket(bucket);
          Crosses(pl, bucket, last) && sp.hi < sp.wr <= |t| && saved == t[sp.hi..sp.wr])
    && (forall k :: 0 <= k < last && Crosses(pl, k, last) ==> k == bucket)
  }

  /** Saves the excess at the right end of a thread's buckets. */
  method SaveMargins<T(!new)>(
      a: array<T>, pl: Plan, last: nat, ghost over: Option<seq<T>>, ghost bufs: seq<seq<T>>, ghost cls: T -> nat)
      returns (bucket: int, saved: seq<T>)
    requires Prepared(a[..], pl, over, bufs, cls) && last < |pl.bs|
    ensures pl.Ok() && IsSaved(a[..], pl, last, bucket, saved)
  {
    PreparedPointers(a[..], pl, over, bufs, cls);
    hide BucketReady;
    var tail := pl.bs[last];
    var end := Blocks(tail, pl.B) * pl.B;
    BoundaryMono(pl.bs, pl.n, last, |pl.bs| - 1);
    if tail == end || end > pl.n {
      NoneCrosses(pl, last);
      return -1, [];
    }
    var k := last - 1;
    FirstBlock(tail, pl.B);
    while pl.bs[k] > end - pl.B
      invariant 0 <= k < last && end - pl.B < pl.bs[k + 1]
      decreases k
    {
      k := k - 1;
    }
    var write := pl.w[k] * pl.B;
    BoundaryMono(pl.bs, pl.n, k + 1, last);
    OnlyOneCrosses(pl, k, last);
    if write < end { return -1, []; }
    tail := pl.bs[k + 1];
    bucket, saved := k, a[pl.begin + tail..pl.begin + end];
  }

  lemma FirstBlock(p: nat, B: nat)
    requires B > 0 && p > 0
    ensures Blocks(p, B) * B >= B && Blocks(p, B) * B - B < p
  {
    MulMono(1, Blocks(p, B), B);
  }

  /** A bucket that crosses has a block, and its write pointer is at the end of the block that holds the boundary. */
  lemma CrossingShape(pl: Plan, k: nat, last: nat)
    requires pl.Ok() && PointersOk(pl) && k < last < |pl.bs| && k < |pl.w| && Crosses(pl, k, last)
    ensures var end := Blocks(pl.bs[last], pl.B) * pl.B;
      pl.bs[k] + pl.B <= end && end < pl.bs[k + 1] + pl.B && pl.w[k] * pl.B == end && pl.bs[last] < end <= pl.n
  {
    assert PointerOk(pl, k);
    var B, lo, hi, p := pl.B, pl.bs[k], pl.bs[k + 1], pl.bs[last];
    BoundaryMono(pl.bs, pl.n, k + 1, last);
    BlocksMono(hi, p, B);
    if pl.w[k] < Blocks(p, B) { MulLess(pl.w[k], Blocks(p, B), B); }
    assert pl.w[k] == Blocks(p, B);
    assert Blocks(lo, B) * B < lo + B;
    MulLess(Blocks(lo, B), pl.w[k], B);
    WholeBlocks(pl.n, B);
  }

  lemma NoneCrosses(pl: Plan, last: nat)
    requires pl.Ok() && PointersOk(pl) && last < |pl.bs|
    requires var end := Blocks(pl.bs[last], pl.B) * pl.B; pl.bs[last] == end || end > pl.n
    ensures forall k :: 0 <= k < last ==> !Crosses(pl, k, last)
  {
    forall k | 0 <= k < last ensures !Crosses(pl, k, last) {
      if Crosses(pl, k, last) { CrossingShape(pl, k, last); }
    }
  }

  /** Bucket k is the one that holds the start of the last block before the boundary. */
  lemma OnlyOneCrosses(pl: Plan, k: nat, last: nat)
    requires pl.Ok() && PointersOk(pl) && k < last < |pl.bs|
    requires var end := Blocks(pl.bs[last], pl.B) * pl.B;
      pl.bs[last] < end <= pl.n && pl.bs[k] + pl.B <= end < pl.bs[k + 1] + pl.B && pl.bs[k + 1] <= pl.bs[last]
    ensures forall j :: 0 <= j < last && Crosses(pl, j, last) ==>
      j == k && pl.w[k] * pl.B >= Blocks(pl.bs[last], pl.B) * pl.B
    ensures pl.w[k] * pl.B >= Blocks(pl.bs[last], pl.B) * pl.B ==>
      Crosses(pl, k, last) && pl.w[k] * pl.B == Blocks(pl.bs[last], pl.B) * pl.B
  {
    var B, end := pl.B, Blocks(pl.bs[last], pl.B) * pl.B;
    forall j | 0 <= j < last && Crosses(pl, j, last) ensures j == k && pl.w[k] * B >= end {
      CrossingShape(pl, j, last);
      if j < k { BoundaryMono(pl.bs, pl.n, j + 1, k); } else if k < j { BoundaryMono(pl.bs, pl.n, k + 1, j); }
    }
    if pl.w[k] * B >= end {
      assert PointerOk(pl, k);
      BlocksMono(pl.bs[k + 1], pl.bs[last], B);
      MulMono(pl.w[k], Blocks(pl.bs[last], B), B);
      WrittenBucket(pl, k, end);
    }
  }

  lemma WrittenBucket(pl: Plan, k: nat, end: nat)
    requires pl.Ok() && k < |pl.w| && PointerOk(pl, k) && pl.w[k] * pl.B == end <= pl.n
    requires pl.bs[k] + pl.B <= end && pl.bs[k + 1] < end
    ensures Exceeds(pl.Bucket(k), pl.B) && !Spilled(pl.Bucket(k), pl.Lim())
  {
    var B := pl.B;
    var st := Blocks(pl.bs[k], B);
    if pl.w[k] > st {
      MulMono(1, pl.w[k] - st, B);
    }
    WholeBlocks(pl.n, B);
    if pl.w[k] > pl.n / B { MulLess(pl.n / B, pl.w[k], B); }
    MulMono(pl.w[k], pl.n / B, B);
  }

  // ---------------------------------------------------------------- one bucket

  /** Bucket i is as it was in t; its excess is in u, or it was saved. */
  ghost predicate Available<T>(t: seq<T>, u: seq<T>, pl: Plan, i: nat, saved: Option<seq<T>>)
    requires pl.Ok() && i < |pl.w|
  {
    var sp := pl.Bucket(i);
    && sp.lo <= sp.hi <= |t| == |u| && u[sp.lo..sp.hi] == t[sp.lo..sp.hi]
    && if Exceeds(sp, pl.B) && !Spilled(sp, pl.Lim()) then
         sp.wr <= |t| && (if saved.Some? then saved.value else u[sp.hi..sp.wr]) == t[sp.hi..sp.wr]
       else saved.None?
  }

  /** u, with the excess of the bucket in its place. */
  ghost function View<T>(u: seq<T>, sp: Span, saved: Option<seq<T>>): (v: seq<T>)
    requires saved.Some? ==> sp.hi + |saved.value| <= |u|
    ensures |v| == |u|
  {
    if saved.Some? then Put(u, sp.hi, saved.value) else u
  }

  lemma SameWritten<T(!new)>(
      t: seq<T>, v: seq<T>, sp: Span, B: nat, lim: nat, over: Option<seq<T>>, buf: seq<T>, cls: T -> nat, i: nat)
    requires Placed(t, sp, B, lim, over, buf, cls, i) && |v| == |t|
    requires v[sp.lo..sp.hi] == t[sp.lo..sp.hi]
    requires Exceeds(sp, B) && !Spilled(sp, lim) ==> sp.wr <= |t| && v[sp.hi..sp.wr] == t[sp.hi..sp.wr]
    ensures Placed(v, sp, B, lim, over, buf, cls, i) && lim <= |t|
    ensures Belongings(v, sp, lim, over, buf) == Belongings(t, sp, lim, over, buf)
  {
    var end := if sp.wr <= lim then sp.wr else lim;
    if sp.st < sp.wr && sp.st < lim {
      forall k | sp.st <= k < end ensures v[k] == t[k] {
        if k < sp.hi {
          assert v[k] == v[sp.lo..sp.hi][k - sp.lo] == t[sp.lo..sp.hi][k - sp.lo];
        } else {
          assert v[k] == v[sp.hi..sp.wr][k - sp.hi] == t[sp.hi..sp.wr][k - sp.hi];
        }
      }
      assert v[sp.st..end] == t[sp.st..end];
    }
    assert Written(v, sp, lim) == Written(t, sp, lim);
  }

  lemma ViewReady<T(!new)>(
      t: seq<T>, u: seq<T>, pl: Plan, over: Option<seq<T>>, buf: seq<T>, cls: T -> nat, i: nat, saved: Option<seq<T>>)
    requires pl.Ok() && i < |pl.w| && BucketReady(t, pl, over, buf, cls, i) && Available(t, u, pl, i, saved)
    ensures saved.Some? ==> pl.Bucket(i).hi + |saved.value| <= |u|
    ensures var v := View(u, pl.Bucket(i), saved);
      && BucketReady(v, pl, over, buf, cls, i) && pl.Lim() <= |t|
      && Belongings(v, pl.Bucket(i), pl.Lim(), over, buf) == Belongings(t, pl.Bucket(i), pl.Lim(), over, buf)
  {
    var sp := pl.Bucket(i);
    if saved.Some? { PutParts(u, sp.lo, sp.hi, saved.value); }
    SameWritten(t, View(u, sp, saved), sp, pl.B, pl.Lim(), over, buf, cls, i);
  }

  lemma PutParts<T>(u: seq<T>, lo: nat, at: nat, x: seq<T>)
    requires lo <= at && at + |x| <= |u|
    ensures Put(u, at, x)[lo..at] == u[lo..at] && Put(u, at, x)[at..at + |x|] == x && Put(u, at, x)[..at] == u[..at]
  {
  }

  /** What the saved excess and the buffer do to the bucket, whatever is in the place of the excess by now. */
  lemma SavedFill<T>(u: seq<T>, sp: Span, saved: seq<T>, buf: seq<T>)
    requires sp.lo <= sp.st <= sp.hi <= |u| && |saved| + |buf| == sp.st - sp.lo && sp.hi + |saved| <= |u|
    ensures var v := Put(u, sp.hi, saved);
      var r, r' := Put(Put(u, sp.lo, saved), sp.lo + |saved|, buf), Put(Put(v, sp.lo, saved), sp.lo + |saved|, buf);
      r[sp.lo..sp.hi] == r'[sp.lo..sp.hi] && r[..sp.lo] == u[..sp.lo] && r[sp.hi..] == u[sp.hi..]
  {
    var v := Put(u, sp.hi, saved);
    Adjacent(u, sp.lo, saved, buf);
    Adjacent(v, sp.lo, saved, buf);
    HeadOnly(u, sp.lo, saved + buf, sp.hi);
    HeadOnly(v, sp.lo, saved + buf, sp.hi);
    PutParts(u, sp.st, sp.hi, saved);
  }

  /** The range of the bucket holds what belongs to it, and nothing else changes. */
  ghost predicate FilledIn<T(!new)>(
      t: seq<T>, u: seq<T>, u': seq<T>, sp: Span, lim: nat, over: Option<seq<T>>, buf: seq<T>, cls: T -> nat, i: nat)
  {
    && lim <= |t| == |u| == |u'| && sp.lo <= sp.hi <= |t|
    && u'[..sp.lo] == u[..sp.lo] && u'[sp.hi..] == u[sp.hi..]
    && multiset(u'[sp.lo..sp.hi]) == Belongings(t, sp, lim, over, buf) && AllOf(u'[sp.lo..sp.hi], cls, i)
  }

  /** The same bucket, had the excess stayed in its place. */
  lemma SavedInPlace<T(!new)>(
      v: seq<T>, sp: Span, B: nat, lim: nat, over: Option<seq<T>>, buf: seq<T>, cls: T -> nat, i: nat, saved: seq<T>,
      dst: int, remaining: int)
    requires dst == sp.lo + |saved| && remaining == sp.st - sp.lo - |saved|
    requires Placed(v, sp, B, lim, over, buf, cls, i) && sp.hi <= sp.wr <= |v| && saved == v[sp.hi..sp.wr]
    requires Exceeds(sp, B) && !Spilled(sp, lim)
    ensures lim <= |v| && sp.lo <= sp.st <= sp.hi && dst <= |v| && 0 <= remaining == |buf|
    ensures BufferFits(|v|, dst, remaining, sp.wr, |buf|)
    ensures Filled(v, Put(Put(v, sp.lo, saved), dst, buf), sp, lim, over, buf, cls, i)
  {
    ExcessShape(v, sp, B, lim, over, buf, cls, i);
    InBounds(v, v, sp, B, lim, over, buf, cls, i);
    hide Placed, Filled, Put, Spilled;
    FillCases(v, Put(v, sp.lo, saved), sp, B, lim, over, buf, cls, i, dst, remaining);
  }

  lemma SavedCase<T(!new)>(
      u: seq<T>, sp: Span, B: nat, lim: nat, over: Option<seq<T>>, buf: seq<T>, cls: T -> nat, i: nat, saved: seq<T>,
      dst: int, remaining: int)
    requires dst == sp.lo + |saved| && remaining == sp.st - sp.lo - |saved|
    requires sp.hi + |saved| <= |u|
    requires var v := View(u, sp, Some(saved));
      Placed(v, sp, B, lim, over, buf, cls, i) && sp.hi <= sp.wr <= |v| && saved == v[sp.hi..sp.wr]
    requires Exceeds(sp, B) && !Spilled(sp, lim)
    ensures dst <= |u| && 0 <= remaining && BufferFits(|u|, dst, remaining, sp.wr, |buf|)
    ensures FilledIn(View(u, sp, Some(saved)), u, BufferWritten(Put(u, sp.lo, saved), dst, remaining, sp.wr, buf),
                     sp, lim, over, buf, cls, i)
  {
    hide Placed, Belongings, AllOf, Put, Exceeds, Spilled;
    SavedInPlace(View(u, sp, Some(saved)), sp, B, lim, over, buf, cls, i, saved, dst, remaining);
    SavedFill(u, sp, saved, buf);
  }

  /** Fills a bucket whose excess was saved. */
  method FillFromSaved<T(!new)>(
      a: array<T>, sp: Span, saved: seq<T>, bufs: seq<seq<T>>, ghost B: nat, ghost over: Option<seq<T>>,
      ghost lim: nat, ghost cls: T -> nat, ghost i: nat)
    requires Exceeds(sp, B) && !Spilled(sp, lim) && sp.hi + |saved| <= a.Length && sp.hi <= sp.wr <= a.Length
    requires var v := View(a[..], sp, Some(saved));
      Placed(v, sp, B, lim, over, Joined(bufs), cls, i) && saved == v[sp.hi..sp.wr]
    modifies a
    ensures FilledIn(View(old(a[..]), sp, Some(saved)), old(a[..]), a[..], sp, lim, over, Joined(bufs), cls, i)
  {
    var dst, remaining := sp.lo + |saved|, sp.st as int - sp.lo - |saved|;
    SavedCase(a[..], sp, B, lim, over, Joined(bufs), cls, i, saved, dst, remaining);
    hide *;
    CopyIn(a, sp.lo, saved);
    WriteBuffers(a, dst, remaining, sp.wr, bufs);
  }

  /** Fills a bucket from the overflow buffer, or with the excess in its place. */
  method FillPlain<T(!new)>(
      a: array<T>, B: nat, sp: Span, isOverflow: bool, over: Option<seq<T>>, bufs: seq<seq<T>>,
      ghost lim: nat, ghost cls: T -> nat, ghost i: nat)
    requires Placed(a[..], sp, B, lim, over, Joined(bufs), cls, i) && (isOverflow <==> Spilled(sp, lim))
    requires lim <= a.Length && sp.lo <= sp.hi <= a.Length
    modifies a
    ensures FilledIn(old(a[..]), old(a[..]), a[..], sp, lim, over, Joined(bufs), cls, i)
  {
    ghost var u, buf := a[..], Joined(bufs);
    hide *;
    InBounds(u, u, sp, B, lim, over, buf, cls, i);
    var dst, remaining := WriteHead(a, B, sp, isOverflow, over);
    ghost var m := a[..];
    InBounds(u, m, sp, B, lim, over, buf, cls, i);
    DestinationInside(u, m, B, sp, isOverflow, over, dst, remaining);
    WriteBuffers(a, dst, remaining, sp.wr, bufs);
    FillCases(u, m, sp, B, lim, over, buf, cls, i, dst, remaining);
    FilledPlain(u, a[..], sp, lim, over, buf, cls, i);
  }

  lemma DestinationInside<T>(
      t: seq<T>, u: seq<T>, B: nat, sp: Span, isOverflow: bool, over: Option<seq<T>>, dst: nat, remaining: nat)
    requires HeadFits(|t|, B, sp, isOverflow, over) && HeadWritten(t, u, B, sp, isOverflow, over, dst, remaining)
    ensures dst <= |t| && |u| == |t|
  {
  }

  /** Fills a bucket from overflow buffer, saved excess or excess in place, and from all threads' buffers. */
  method FillShared<T(!new)>(
      a: array<T>, B: nat, sp: Span, isOverflow: bool, over: Option<seq<T>>, saved: Option<seq<T>>, bufs: seq<seq<T>>,
      ghost lim: nat, ghost cls: T -> nat, ghost i: nat)
    requires saved.Some? ==>
      Exceeds(sp, B) && !Spilled(sp, lim) && sp.hi + |saved.value| <= a.Length && sp.hi <= sp.wr <= a.Length
    requires var v := View(a[..], sp, saved);
      Placed(v, sp, B, lim, over, Joined(bufs), cls, i) && (saved.Some? ==> saved.value == v[sp.hi..sp.wr])
    requires isOverflow <==> Spilled(sp, lim)
    modifies a
    ensures FilledIn(View(old(a[..]), sp, saved), old(a[..]), a[..], sp, lim, over, Joined(bufs), cls, i)
  {
    ghost var u := a[..];
    hide Placed, FilledIn, Exceeds, Spilled, Put;
    if !isOverflow && saved.Some? {
      FillFromSaved(a, sp, saved.value, bufs, B, over, lim, cls, i);
    } else {
      PlainView(u, sp, saved, lim, isOverflow, B);
      PlacedBounds(u, sp, B, lim, over, Joined(bufs), cls, i);
      FillPlain(a, B, sp, isOverflow, over, bufs, lim, cls, i);
    }
  }

  lemma PlacedBounds<T(!new)>(
      t: seq<T>, sp: Span, B: nat, lim: nat, over: Option<seq<T>>, buf: seq<T>, cls: T -> nat, i: nat)
    requires Placed(t, sp, B, lim, over, buf, cls, i)
    ensures lim <= |t| && sp.lo <= sp.hi <= |t|
  {
  }

  lemma PlainView<T>(u: seq<T>, sp: Span, saved: Option<seq<T>>, lim: nat, isOverflow: bool, B: nat)
    requires isOverflow || saved.None?
    requires isOverflow <==> Spilled(sp, lim)
    requires saved.Some? ==> !Spilled(sp, lim) && sp.hi + |saved.value| <= |u|
    ensures saved.None? && View(u, sp, saved) == u
  {
  }

  lemma FilledPlain<T(!new)>(
      u: seq<T>, u': seq<T>, sp: Span, lim: nat, over: Option<seq<T>>, buf: seq<T>, cls: T -> nat, i: nat)
    requires lim <= |u| && sp.lo <= sp.hi <= |u| == |u'| && Filled(u, u', sp, lim, over, buf, cls, i)
    ensures FilledIn(u, u, u', sp, lim, over, buf, cls, i)
  {
  }

  /** What processing bucket i does to the array, whatever the other threads have done to it. */
  ghost predicate BucketStep<T(!new)>(
      t: seq<T>, u: seq<T>, u': seq<T>, pl: Plan, over: Option<seq<T>>, buf: seq<T>, cls: T -> nat, i: nat,
      small: bool, less: (T, T) -> bool)
    requires pl.Ok() && i < |pl.w|
  {
    var sp := pl.Bucket(i);
    && |u| == |u'| == |t| && sp.lo <= sp.hi <= |t|
    && u'[..sp.lo] == u[..sp.lo] && u'[sp.hi..] == u[sp.hi..]
    && BucketDone(t, u', pl, over, buf, cls, i, small, less)
  }

  /** One turn of a thread's cleanup loop. */
  method WriteSharedBucket<T(!new)>(
      a: array<T>, pl: Plan, i: nat, small: bool, isOverflow: bool, over: Option<seq<T>>, saved: Option<seq<T>>,
      bufs: seq<seq<T>>, less: (T, T) -> bool, ghost t: seq<T>, ghost cls: T -> nat)
    requires StrictWeakOrder(less) && pl.Ok() && i < |pl.w| && BucketReady(t, pl, over, Joined(bufs), cls, i)
    requires Available(t, a[..], pl, i, saved) && (isOverflow <==> Spilled(pl.Bucket(i), pl.Lim()))
    modifies a
    ensures BucketStep(t, old(a[..]), a[..], pl, over, Joined(bufs), cls, i, small, less)
  {
    var sp := pl.Bucket(i);
    ghost var u, lim := a[..], pl.Lim();
    ViewReady(t, u, pl, over, Joined(bufs), cls, i, saved);
    ViewExcess(t, u, pl, i, saved);
    hide Placed, Belongings, AllOf, Available, View, FilledIn, Exceeds, Spilled;
    FillShared(a, pl.B, sp, isOverflow, over, saved, bufs, lim, cls, i);
    ghost var f := a[..];
    FilledFacts(View(u, sp, saved), u, f, sp, lim, over, Joined(bufs), cls, i);
    if small {
      BaseCaseSort(a, sp.lo, sp.hi, less);
    }
    SamePure(f[sp.lo..sp.hi], a[sp.lo..sp.hi], cls, i);
  }

  lemma FilledFacts<T(!new)>(
      t: seq<T>, u: seq<T>, u': seq<T>, sp: Span, lim: nat, over: Option<seq<T>>, buf: seq<T>, cls: T -> nat, i: nat)
    requires FilledIn(t, u, u', sp, lim, over, buf, cls, i)
    ensures lim <= |t| == |u| == |u'| && sp.lo <= sp.hi <= |t|
    ensures u'[..sp.lo] == u[..sp.lo] && u'[sp.hi..] == u[sp.hi..]
    ensures multiset(u'[sp.lo..sp.hi]) == Belongings(t, sp, lim, over, buf) && AllOf(u'[sp.lo..sp.hi], cls, i)
  {
  }

  lemma ViewExcess<T>(t: seq<T>, u: seq<T>, pl: Plan, i: nat, saved: Option<seq<T>>)
    requires pl.Ok() && i < |pl.w| && Available(t, u, pl, i, saved)
    ensures var sp := pl.Bucket(i); saved.Some? ==>
      && Exceeds(sp, pl.B) && !Spilled(sp, pl.Lim()) && sp.hi + |saved.value| <= |u| && sp.hi <= sp.wr <= |u|
      && saved.value == View(u, sp, saved)[sp.hi..sp.wr]
  {
  }

  // ---------------------------------------------------------------- all threads

  /**
   * t is the array when the threads have saved their margins: thread h fills the buckets ranges[h] up to
   * ranges[h + 1], and has saved the excess of bucket kept[h], if that is not -1. bufs[i] are all threads'
   * buffers of bucket i, and overflowBucket is the bucket that was computed to be the only one that can spill.
   */
  datatype Cleanup<!T(!new)> =
    Cleanup(t: seq<T>, pl: Plan, over: Option<seq<T>>, overflowBucket: int, bufs: seq<seq<T>>, base: nat,
            lastLevel: bool, ranges: seq<nat>, kept: seq<int>, saved: seq<seq<T>>, cls: T -> nat, less: (T, T) -> bool)
  {
    ghost predicate Ok() {
      StrictWeakOrder(less) && Prepared(t, pl, over, bufs, cls) && MarginsSaved() && FlagsRight()
    }

    /** The bucket for which the overflow buffer is used is the one that spilled. */
    ghost predicate FlagsRight()
      requires pl.Ok()
    {
      forall i :: 0 <= i < |pl.w| ==> (IsOverflow(i) <==> Spilled(pl.Bucket(i), pl.Lim()))
    }

    /** Whether a thread takes elements of bucket i from the overflow buffer. */
    predicate IsOverflow(i: nat) {
      i == overflowBucket && over.Some?
    }

    /** Every thread has saved the margin at the end of its range of buckets. */
    ghost predicate MarginsSaved()
      requires pl.Ok()
    {
      && |ranges| > 1 && Boundaries(ranges, |pl.w|) && |kept| == |saved| == |ranges| - 1
      && forall h :: 0 <= h < |kept| ==> ranges[h + 1] <= |pl.w| && IsSaved(t, pl, ranges[h + 1], kept[h], saved[h])
    }

    /** What thread h uses for bucket i. */
    ghost function SavedFor(h: nat, i: nat): Option<seq<T>>
      requires h < |kept| == |saved|
    {
      if kept[h] == i then Some(saved[h]) else None
    }
  }

  ghost predicate Same<T>(t: seq<T>, u: seq<T>, pl: Plan, i: nat)
    requires pl.Ok() && i < |pl.w|
  {
    var sp := pl.Bucket(i);
    sp.lo <= sp.hi <= |t| == |u| && u[sp.lo..sp.hi] == t[sp.lo..sp.hi]
  }

  ghost predicate Done<T(!new)>(c: Cleanup<T>, u: seq<T>, i: nat)
    requires c.pl.Ok() && i < |c.pl.w| == |c.bufs|
  {
    BucketDone(c.t, u, c.pl, c.over, c.bufs[i], c.cls, i, Small(c.pl, i, c.base, c.lastLevel), c.less)
  }

  /** Thread h has processed its buckets before pos[h]. */
  ghost predicate Inv<T(!new)>(c: Cleanup<T>, u: seq<T>, pos: seq<nat>)
    requires c.Ok()
  {
    && |u| == |c.t| && u[..c.pl.begin] == c.t[..c.pl.begin] && u[c.pl.begin + c.pl.n..] == c.t[c.pl.begin + c.pl.n..]
    && |pos| == |c.kept|
    && forall h :: 0 <= h < |pos| ==> ThreadOk(c, u, pos[h], h)
  }

  /** The buckets of thread h before p are done, the others are as they were. */
  ghost predicate ThreadOk<T(!new)>(c: Cleanup<T>, u: seq<T>, p: nat, h: nat)
    requires c.Ok()
  {
    && h < |c.kept| && c.ranges[h] <= p <= c.ranges[h + 1] <= |c.pl.w|
    && (forall i :: c.ranges[h] <= i < p ==> Done(c, u, i))
    && (forall i :: p <= i < c.ranges[h + 1] ==> Same(c.t, u, c.pl, i))
  }

  /** What thread h relies on when it fills bucket i, in the terms of WriteSharedBucket. */
  ghost predicate CanFill<T(!new)>(c: Cleanup<T>, u: seq<T>, h: nat, i: nat)
    requires c.pl.Ok() && h < |c.kept| == |c.saved| && i < |c.pl.w| == |c.bufs|
  {
    && StrictWeakOrder(c.less) && BucketReady(c.t, c.pl, c.over, c.bufs[i], c.cls, i)
    && Available(c.t, u, c.pl, i, c.SavedFor(h, i)) && (c.IsOverflow(i) <==> Spilled(c.pl.Bucket(i), c.pl.Lim()))
  }

  /**
   * Thread h fills its next bucket. Only if the bucket's blocks and its excess, in place or saved, are still there,
   * and the overflow buffer is used for the right bucket, is anything known about the array after that.
   */
  ghost predicate Next<T(!new)>(c: Cleanup<T>, u: seq<T>, pos: seq<nat>, u': seq<T>, pos': seq<nat>, h: nat)
    requires c.Ok()
  {
    && h < |pos| == |c.kept| && pos[h] < c.ranges[h + 1] <= |c.pl.w| && pos' == pos[h := pos[h] + 1]
    && (CanFill(c, u, h, pos[h]) ==>
        BucketStep(c.t, u, u', c.pl, c.over, c.bufs[pos[h]], c.cls, pos[h],
                   Small(c.pl, pos[h], c.base, c.lastLevel), c.less))
  }

  lemma SameAt<T>(t: seq<T>, u: seq<T>, pl: Plan, j: nat, q: nat)
    requires pl.Ok() && j < |pl.w| && Same(t, u, pl, j) && pl.begin + pl.bs[j] <= q < pl.begin + pl.bs[j + 1]
    ensures q < |t| == |u| && u[q] == t[q]
  {
    var sp := pl.Bucket(j);
    assert u[q] == u[sp.lo..sp.hi][q - sp.lo] == t[sp.lo..sp.hi][q - sp.lo] == t[q];
  }

  /** A position in the excess lies in a bucket that the same thread has not processed yet. */
  lemma ExcessUntouched<T(!new)>(c: Cleanup<T>, u: seq<T>, p: nat, h: nat, q: nat)
    requires c.Ok() && ThreadOk(c, u, p, h) && p < c.ranges[h + 1]
    requires c.pl.begin + c.pl.bs[p + 1] <= q < c.pl.begin + c.pl.bs[c.ranges[h + 1]]
    ensures q < |c.t| == |u| && u[q] == c.t[q]
  {
    var pl, last := c.pl, c.ranges[h + 1];
    var j := StripeOf(pl.bs, pl.n, q - pl.begin, last);
    if j <= p { BoundaryMono(pl.bs, pl.n, j + 1, p + 1); }
    hide Done, Prepared, IsSaved, PointersOk;
    SameAt(c.t, u, pl, j, q);
  }

  /** Whatever the threads have done, the next bucket of a thread has all it needs. */
  lemma AvailableNow<T(!new)>(c: Cleanup<T>, u: seq<T>, pos: seq<nat>, h: nat)
    requires c.Ok() && Inv(c, u, pos) && h < |pos| && pos[h] < c.ranges[h + 1]
    ensures pos[h] < |c.pl.w| && CanFill(c, u, h, pos[h])
  {
    var pl, i, last := c.pl, pos[h], c.ranges[h + 1];
    assert ThreadOk(c, u, i, h);
    assert Same(c.t, u, pl, i) && BucketReady(c.t, pl, c.over, c.bufs[i], c.cls, i);
    assert IsSaved(c.t, pl, last, c.kept[h], c.saved[h]);
    var sp := pl.Bucket(i);
    if Exceeds(sp, pl.B) && !Spilled(sp, pl.Lim()) {
      assert sp.wr <= |c.t|;
      if !Crosses(pl, i, last) {
        forall q | sp.hi <= q < sp.wr ensures u[q] == c.t[q] { ExcessUntouched(c, u, i, h, q); }
        assert u[sp.hi..sp.wr] == c.t[sp.hi..sp.wr];
      }
    }
  }

  /** The ranges of two buckets are disjoint. */
  lemma OtherRange<T>(u: seq<T>, u': seq<T>, pl: Plan, i: nat, j: nat)
    requires pl.Ok() && i < |pl.w| && j < |pl.w| && i != j && pl.begin + pl.n <= |u| == |u'|
    requires var sp := pl.Bucket(i); sp.lo <= sp.hi <= |u| && u'[..sp.lo] == u[..sp.lo] && u'[sp.hi..] == u[sp.hi..]
    ensures var sp := pl.Bucket(j); sp.lo <= sp.hi <= |u| && u'[sp.lo..sp.hi] == u[sp.lo..sp.hi]
  {
    var x, y := pl.Bucket(i), pl.Bucket(j);
    BoundaryMono(pl.bs, pl.n, j, j + 1);
    BoundaryMono(pl.bs, pl.n, j + 1, |pl.bs| - 1);
    if i < j {
      BoundaryMono(pl.bs, pl.n, i + 1, j);
      forall q | y.lo <= q < y.hi ensures u'[q] == u[q] { assert u'[q] == u'[x.hi..][q - x.hi] == u[x.hi..][q - x.hi]; }
    } else {
      BoundaryMono(pl.bs, pl.n, j + 1, i);
      forall q | y.lo <= q < y.hi ensures u'[q] == u[q] { assert u'[q] == u'[..x.lo][q] == u[..x.lo][q]; }
    }
  }

  lemma DoneStays<T(!new)>(c: Cleanup<T>, u: seq<T>, u': seq<T>, j: nat)
    requires c.pl.Ok() && j < |c.pl.w| == |c.bufs| && |u| == |u'| && Done(c, u, j)
    requires var sp := c.pl.Bucket(j); sp.lo <= sp.hi <= |u| && u'[sp.lo..sp.hi] == u[sp.lo..sp.hi]
    ensures Done(c, u', j)
  {
    hide Belongings, AllOf, Sorted;
  }

  lemma ThreadStays<T(!new)>(c: Cleanup<T>, u: seq<T>, u': seq<T>, p: nat, h: nat, i: nat)
    requires c.Ok() && ThreadOk(c, u, p, h) && i < |c.pl.w| && |u| == |u'| == |c.t|
    requires var sp := c.pl.Bucket(i); sp.lo <= sp.hi <= |u| && u'[..sp.lo] == u[..sp.lo] && u'[sp.hi..] == u[sp.hi..]
    requires i < c.ranges[h] || c.ranges[h + 1] <= i || (i == p && Done(c, u', i))
    ensures ThreadOk(c, u', if i == p < c.ranges[h + 1] then p + 1 else p, h)
  {
    assert c.pl.begin + c.pl.n <= |u|;
    forall j | c.ranges[h] <= j < p ensures Done(c, u', j) {
      OtherRange(u, u', c.pl, i, j);
      DoneStays(c, u, u', j);
    }
    forall j | p <= j < c.ranges[h + 1] && j != i ensures Same(c.t, u', c.pl, j) {
      assert Same(c.t, u, c.pl, j);
      OtherRange(u, u', c.pl, i, j);
    }
  }

  lemma OutsideStays<T>(t: seq<T>, u: seq<T>, u': seq<T>, pl: Plan, i: nat)
    requires pl.Ok() && i < |pl.w| && pl.begin + pl.n <= |t| == |u| == |u'|
    requires u[..pl.begin] == t[..pl.begin] && u[pl.begin + pl.n..] == t[pl.begin + pl.n..]
    requires var sp := pl.Bucket(i); sp.lo <= sp.hi <= |u| && u'[..sp.lo] == u[..sp.lo] && u'[sp.hi..] == u[sp.hi..]
    ensures u'[..pl.begin] == t[..pl.begin] && u'[pl.begin + pl.n..] == t[pl.begin + pl.n..]
  {
    var sp, end := pl.Bucket(i), pl.begin + pl.n;
    BoundaryMono(pl.bs, pl.n, i + 1, |pl.bs| - 1);
    assert u'[..pl.begin] == u'[..sp.lo][..pl.begin] == u[..sp.lo][..pl.begin];
    assert u'[end..] == u'[sp.hi..][end - sp.hi..] == u[sp.hi..][end - sp.hi..];
  }

  /** A thread that fills its next bucket does not disturb the others. */
  lemma StepKeeps<T(!new)>(c: Cleanup<T>, u: seq<T>, pos: seq<nat>, u': seq<T>, pos': seq<nat>, h: nat)
    requires c.Ok() && Inv(c, u, pos) && Next(c, u, pos, u', pos', h)
    ensures Inv(c, u', pos')
  {
    var i := pos[h];
    AvailableNow(c, u, pos, h);
    hide CanFill;
    OutsideStays(c.t, u, u', c.pl, i);
    forall g | 0 <= g < |pos'| ensures ThreadOk(c, u', pos'[g], g) {
      assert ThreadOk(c, u, pos[g], g) && ThreadOk(c, u, pos[h], h);
      if g < h {
        BoundaryMono(c.ranges, |c.pl.w|, g + 1, h);
      } else if h < g {
        BoundaryMono(c.ranges, |c.pl.w|, h + 1, g);
      }
      ThreadStays(c, u, u', pos[g], g, i);
    }
  }

  ghost predicate Linked<T(!new)>(c: Cleanup<T>, u: seq<T>, pos: seq<nat>, u': seq<T>, pos': seq<nat>)
    requires c.Ok()
  {
    exists h :: Next(c, u, pos, u', pos', h)
  }

  /** Any interleaving of the threads' cleanup loops: the arrays and the positions of all threads. */
  ghost predicate Behaviour<T(!new)>(c: Cleanup<T>, us: seq<seq<T>>, ps: seq<seq<nat>>)
    requires c.Ok()
  {
    && |us| == |ps| > 0 && us[0] == c.t && ps[0] == c.ranges[..|c.ranges| - 1]
    && forall k :: 0 <= k < |us| - 1 ==> Linked(c, us[k], ps[k], us[k + 1], ps[k + 1])
  }

  lemma StartInv<T(!new)>(c: Cleanup<T>)
    requires c.Ok()
    ensures Inv(c, c.t, c.ranges[..|c.ranges| - 1])
  {
    forall h | 0 <= h < |c.ranges| - 1 ensures ThreadOk(c, c.t, c.ranges[h], h) {
      BoundaryMono(c.ranges, |c.pl.w|, h, h + 1);
      BoundaryMono(c.ranges, |c.pl.w|, h + 1, |c.ranges| - 1);
      forall i | c.ranges[h] <= i < c.ranges[h + 1] ensures Same(c.t, c.t, c.pl, i) {
        BoundaryMono(c.pl.bs, c.pl.n, i, i + 1);
        BoundaryMono(c.pl.bs, c.pl.n, i + 1, |c.pl.bs| - 1);
      }
    }
  }

  lemma LastStep<T(!new)>(c: Cleanup<T>, us: seq<seq<T>>, ps: seq<seq<nat>>, k: nat) returns (h: nat)
    requires c.Ok() && Behaviour(c, us, ps) && k + 1 < |us|
    ensures |us| == |ps| && Next(c, us[k], ps[k], us[k + 1], ps[k + 1], h)
  {
    hide Next;
    assert Linked(c, us[k], ps[k], us[k + 1], ps[k + 1]);
    h :| Next(c, us[k], ps[k], us[k + 1], ps[k + 1], h);
  }

  lemma {:induction false} AlwaysInv<T(!new)>(c: Cleanup<T>, us: seq<seq<T>>, ps: seq<seq<nat>>, k: nat)
    requires c.Ok() && Behaviour(c, us, ps) && k < |us|
    ensures Inv(c, us[k], ps[k])
  {
    hide *;
    if k == 0 {
      FirstState(c, us, ps);
      StartInv(c);
    } else {
      AlwaysInv(c, us, ps, k - 1);
      var h := LastStep(c, us, ps, k - 1);
      StepKeeps(c, us[k - 1], ps[k - 1], us[k], ps[k], h);
    }
  }

  lemma FirstState<T(!new)>(c: Cleanup<T>, us: seq<seq<T>>, ps: seq<seq<nat>>)
    requires c.Ok() && Behaviour(c, us, ps)
    ensures |us| == |ps| > 0 && |c.ranges| > 0 && us[0] == c.t && ps[0] == c.ranges[..|c.ranges| - 1]
  {
  }

  /**
   * In every interleaving, once all threads have processed all their buckets, every bucket holds exactly what
   * belongs to it, small ones are sorted, and nothing else has changed: the result that the sequential
   * cleanup is proved to have.
   */
  lemma AnyInterleaving<T(!new)>(c: Cleanup<T>, us: seq<seq<T>>, ps: seq<seq<nat>>)
    requires c.Ok() && Behaviour(c, us, ps) && ps[|ps| - 1] == c.ranges[1..]
    ensures FilledUpTo(c.t, us[|us| - 1], c.pl, c.over, c.bufs, c.cls, |c.pl.w|, c.base, c.lastLevel, c.less)
  {
    var u, pos := us[|us| - 1], ps[|ps| - 1];
    AlwaysInv(c, us, ps, |us| - 1);
    forall i | 0 <= i < |c.pl.w|
      ensures BucketDone(c.t, u, c.pl, c.over, c.bufs[i], c.cls, i, Small(c.pl, i, c.base, c.lastLevel), c.less)
    {
      var h := StripeOf(c.ranges, |c.pl.w|, i, |c.ranges| - 1);
      assert pos[h] == c.ranges[h + 1] && ThreadOk(c, u, pos[h], h);
      assert Done(c, u, i);
    }
  }

  /** Number of buckets that the first h threads have processed. */
  ghost function Turns(ranges: seq<nat>, pos: seq<nat>, h: nat): int
    requires h <= |pos| <= |ranges|
  {
    if h == 0 then 0 else Turns(ranges, pos, h - 1) + pos[h - 1] - ranges[h - 1]
  }

  lemma {:induction false} TurnsNext(ranges: seq<nat>, pos: seq<nat>, pos': seq<nat>, g: nat, h: nat)
    requires h <= |pos| == |pos'| <= |ranges| && g < |pos| && pos' == pos[g := pos[g] + 1]
    ensures Turns(ranges, pos', h) == Turns(ranges, pos, h) + (if g < h then 1 else 0)
  {
    if h > 0 { TurnsNext(ranges, pos, pos', g, h - 1); }
  }

  lemma {:induction false} TurnsBound(ranges: seq<nat>, pos: seq<nat>, h: nat)
    requires h <= |pos| < |ranges| && forall g :: 0 <= g < h ==> ranges[g] <= pos[g] <= ranges[g + 1]
    ensures Turns(ranges, pos, h) + ranges[0] <= ranges[h]
    ensures Turns(ranges, pos, h) + ranges[0] == ranges[h] <==> forall g :: 0 <= g < h ==> pos[g] == ranges[g + 1]
  {
    if h > 0 { TurnsBound(ranges, pos, h - 1); }
  }

  lemma {:induction false} TurnsAtFirst(ranges: seq<nat>, pos: seq<nat>, h: nat)
    requires h <= |pos| <= |ranges| && forall g :: 0 <= g < h ==> pos[g] == ranges[g]
    ensures Turns(ranges, pos, h) == 0
  {
    if h > 0 { TurnsAtFirst(ranges, pos, h - 1); }
  }

  lemma {:induction false} TurnsAt<T(!new)>(c: Cleanup<T>, us: seq<seq<T>>, ps: seq<seq<nat>>, k: nat)
    requires c.Ok() && Behaviour(c, us, ps) && k < |us|
    ensures |ps[k]| == |c.kept| < |c.ranges| && Turns(c.ranges, ps[k], |c.kept|) == k
  {
    FirstState(c, us, ps);
    if k == 0 {
      TurnsAtFirst(c.ranges, ps[0], |c.kept|);
    } else {
      TurnsAt(c, us, ps, k - 1);
      var h := LastStep(c, us, ps, k - 1);
      TurnsNext(c.ranges, ps[k - 1], ps[k], h, |c.kept|);
    }
  }

  /**
   * Every turn counts: no behaviour has more turns than there are buckets, and one has as many exactly if all threads
   * have processed all their buckets.
   */
  lemma TurnsEnd<T(!new)>(c: Cleanup<T>, us: seq<seq<T>>, ps: seq<seq<nat>>)
    requires c.Ok() && Behaviour(c, us, ps)
    ensures |us| <= |c.pl.w| + 1
    ensures |us| == |c.pl.w| + 1 <==> ps[|ps| - 1] == c.ranges[1..]
  {
    var k := |us| - 1;
    TurnsAt(c, us, ps, k);
    AlwaysInv(c, us, ps, k);
    var pos := ps[k];
    forall g | 0 <= g < |pos| ensures c.ranges[g] <= pos[g] <= c.ranges[g + 1] { assert ThreadOk(c, us[k], pos[g], g); }
    TurnsBound(c.ranges, pos, |pos|);
    assert (forall g :: 0 <= g < |pos| ==> pos[g] == c.ranges[g + 1]) <==> pos == c.ranges[1..];
  }

  lemma PreparedFacts<T(!new)>(c: Cleanup<T>)
    requires c.Ok()
    ensures Prepared(c.t, c.pl, c.over, c.bufs, c.cls) && c.pl.Ok() && |c.pl.w| == |c.bufs|
  {
  }

  /** So the range is partitioned, with all elements of blocks, overflow buffer and the threads' buffers. */
  lemma RangePartitioned<T(!new)>(c: Cleanup<T>, us: seq<seq<T>>, ps: seq<seq<nat>>)
    requires c.Ok() && Behaviour(c, us, ps) && ps[|ps| - 1] == c.ranges[1..] && c.pl.Lim() <= |c.t|
    ensures var u, begin, end := us[|us| - 1], c.pl.begin, c.pl.begin + c.pl.n;
      && end <= |c.t| == |u| && u[..begin] == c.t[..begin] && u[end..] == c.t[end..]
      && multiset(u[begin..end]) == RestBag(c.t, c.pl, c.over, c.bufs, 0)
      && Partitioned(u[begin..end], c.pl.bs, c.cls, c.base, c.lastLevel, c.less)
  {
    AnyInterleaving(c, us, ps);
    FirstState(c, us, ps);
    PreparedFacts(c);
    hide *;
    InPlacePartition.FilledPartition(c.t, us[|us| - 1], c.pl, c.over, c.bufs, c.cls, c.base, c.lastLevel, c.less);
  }
}
