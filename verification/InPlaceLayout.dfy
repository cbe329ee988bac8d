/** From local classification to the block permutation, and from its final state to the margins. */
module InPlaceLayout {
  import opened Bags
  import opened Buckets
  import opened Powers
  import opened LocalClassification
  import opened BlockProtocol
  import opened BlockResults
  import opened BlockPermutation

  // ---------------------------------------------------------------- bucket boundaries

  /** First slot of every bucket: its boundary, aligned to the next block. */
  ghost function Starts(bs: seq<nat>, B: nat): (st: seq<nat>)
    requires B > 0
    ensures |st| == |bs|
  {
    seq(|bs|, i requires 0 <= i < |bs| => Blocks(bs[i], B))
  }

  ghost function Clamp(e: nat, lo: nat, hi: nat): nat {
    if lo >= e then lo else if hi <= e then hi else e
  }

  // ---------------------------------------------------------------- the layout

  /** End of the full blocks of every bucket, when the first e blocks are full. */
  ghost function Fulls(start: seq<nat>, e: nat): (full: seq<nat>)
    requires |start| > 0
    ensures |full| == |start| - 1
  {
    seq(|start| - 1, b requires 0 <= b < |start| - 1 => Clamp(e, start[b], start[b + 1]))
  }

  ghost function Owners(start: seq<nat>): (owner: seq<nat>)
    requires |start| > 1
    ensures |owner| == start[|start| - 1]
  {
    seq(start[|start| - 1], q requires 0 <= q < start[|start| - 1] => OwnerFrom(start, q, |start| - 2))
  }

  ghost function FlushedBlock<T>(s: seq<T>, B: nat, e: nat, q: nat): Option<seq<T>> {
    if q < e && q * B + B <= |s| then Some(Block(s, q, B)) else None
  }

  /** The first e blocks of s, then empty slots. */
  ghost function FlushedBlocks<T>(s: seq<T>, B: nat, e: nat, m: nat): (blocks: seq<Option<seq<T>>>)
    ensures |blocks| == m && forall q :: 0 <= q < m ==> blocks[q] == FlushedBlock(s, B, e, q)
  {
    seq(m, q requires 0 <= q < m => FlushedBlock(s, B, e, q))
  }

  ghost function LayoutOf<T>(s: seq<T>, B: nat, e: nat, start: seq<nat>, cls: T -> nat): Layout<seq<T>>
    requires B > 0 && |start| > 1
  {
    Layout(start, Fulls(start, e), Owners(start), |s| / B, [0],
           FlushedBlocks(s, B, e, start[|start| - 1]), HeadClass(cls))
  }

  ghost predicate Rising(start: seq<nat>) {
    |start| > 1 && start[0] == 0 && forall i, j :: 0 <= i <= j < |start| ==> start[i] <= start[j]
  }

  lemma OwnersRight(start: seq<nat>, q: nat)
    requires Rising(start) && q < start[|start| - 1]
    ensures var o := Owners(start)[q]; o < |start| - 1 && start[o] <= q < start[o + 1]
  {
    OwnerIs(start, q, |start| - 2);
  }

  lemma OwnersExact(start: seq<nat>, b: nat, q: nat)
    requires Rising(start) && b < |start| - 1 && start[b] <= q < start[b + 1]
    ensures q < start[|start| - 1] && Owners(start)[q] == b
  {
    OwnerUnique(start, q, |start| - 2, b);
  }

  /** Everything the classification phase leaves. */
  ghost predicate Classified<T(!new)>(
      s0: seq<T>, s: seq<T>, B: nat, flushed: seq<nat>, bufs: seq<seq<T>>, sizes: seq<nat>, bs: seq<nat>, cls: T -> nat)
  {
    && Progress(s0, s, |s0|, B, |flushed| * B, flushed, bufs, sizes, cls)
    && |bs| == |bufs| + 1 > 1 && Boundaries(bs, |s|)
    && (forall x :: cls(x) < |bufs|)
    && (forall i :: 0 <= i < |bufs| ==> SizeOf(bs, i) == sizes[i] + |bufs[i]|)
  }

  lemma WholeBlocks(n: nat, B: nat)
    requires B > 0
    ensures (n / B) * B <= n < (n / B) * B + B
    ensures n / B <= Blocks(n, B) <= n / B + 1
    ensures Blocks(n, B) == n / B <==> n == (n / B) * B
  {
    var w, m := n / B, Blocks(n, B);
    assert n == w * B + n % B;
    if m < w { MulLess(m, w, B); }
    assert (w + 1) * B == w * B + B;
    if m > w + 1 { MulLess(w + 1, m, B); }
  }

  lemma StartsMono(bs: seq<nat>, n: nat, B: nat, i: nat, j: nat)
    requires B > 0 && Boundaries(bs, n) && i <= j < |bs|
    ensures Starts(bs, B)[i] <= Starts(bs, B)[j]
  {
    BoundaryMono(bs, n, i, j);
    BlocksMono(bs[i], bs[j], B);
  }

  /** Lazy flushing leaves at least one element of a non-empty bucket unflushed, so the blocks fit. */
  lemma BlocksFit(x: nat, size: nat, f: nat, B: nat)
    requires B > 0 && (f > 0 ==> f * B < size)
    ensures f <= Blocks(x + size, B) - Blocks(x, B)
  {
    var lo, hi := Blocks(x, B), Blocks(x + size, B);
    BlocksMono(x, x + size, B);
    assert (lo + f) * B == lo * B + f * B;
    if hi < lo + f { MulLess(hi, lo + f, B); }
  }

  lemma {:induction false} CountAlike<X, Y>(s: seq<X>, t: seq<Y>, f: X -> bool, g: Y -> bool)
    requires |s| == |t| && forall i :: 0 <= i < |s| ==> f(s[i]) == g(t[i])
    ensures Count(s, f) == Count(t, g)
  {
    if s != [] { CountAlike(s[1..], t[1..], f, g); }
  }

  lemma BlockCount<T(!new)>(s: seq<T>, B: nat, flushed: seq<nat>, m: nat, cls: T -> nat, b: nat)
    requires B > 0 && FlushedPure(s, B, flushed, cls) && |flushed| <= m
    ensures Count(FlushedBlocks(s, B, |flushed|, m), IsOf(HeadClass(cls), b)) == Count(flushed, Is(b))
  {
    var blocks, e := FlushedBlocks(s, B, |flushed|, m), |flushed|;
    CountSplit(blocks, e, IsOf(HeadClass(cls), b));
    CountNone(blocks[e..], IsOf(HeadClass(cls), b));
    forall q | 0 <= q < e ensures IsOf(HeadClass(cls), b)(blocks[..e][q]) == Is(b)(flushed[q]) {
      BlockHead(s, B, q, cls, flushed[q]);
    }
    CountAlike(blocks[..e], flushed, IsOf(HeadClass(cls), b), Is(b));
  }

  lemma BlockHead<T(!new)>(s: seq<T>, B: nat, q: nat, cls: T -> nat, i: nat)
    requires B > 0 && BlockPure(s, B, q, cls, i)
    ensures HeadClass(cls)(Block(s, q, B)) == i
  {
    assert Block(s, q, B)[0] in Block(s, q, B);
  }

  lemma StartsRise(bs: seq<nat>, n: nat, B: nat)
    requires B > 0 && Boundaries(bs, n) && |bs| > 1
    ensures Rising(Starts(bs, B)) && Starts(bs, B)[|bs| - 1] == Blocks(n, B)
  {
    forall i, j | 0 <= i <= j < |bs| ensures Starts(bs, B)[i] <= Starts(bs, B)[j] { StartsMono(bs, n, B, i, j); }
    BlocksUnique(0, 0, B);
  }

  lemma HeadBound<T(!new)>(cls: T -> nat, n: nat, x: seq<T>)
    requires n > 0 && forall v :: cls(v) < n
    ensures HeadClass(cls)(x) < n
  {
  }

  lemma FullInside(start: seq<nat>, e: nat, b: nat)
    requires Rising(start) && b < |start| - 1
    ensures var f := Fulls(start, e)[b]; start[b] <= f <= start[b + 1] && (start[b] < f ==> f <= e)
  {
  }

  lemma FullBelow(start: seq<nat>, e: nat, b: nat, q: nat)
    requires Rising(start) && b < |start| - 1 && start[b] <= q < start[b + 1]
    ensures q < e <==> q < Fulls(start, e)[b]
  {
  }

  lemma LayoutBasic<Bl(!new)>(p: Layout<Bl>, e: nat)
    requires Rising(p.start) && p.full == Fulls(p.start, e) && p.owner == Owners(p.start) && |p.blocks| == |p.owner|
    requires e <= p.whole && |p.owner| <= p.whole + 1 && forall x :: p.cls(x) < |p.start| - 1
    ensures Basic(p)
  {
    assert |p.start| > 1 && Num(p) == |p.start| - 1;
    hide Rising, Fulls, Owners;
    forall b | 0 <= b < Num(p)
      ensures p.start[b] <= p.full[b] <= p.start[b + 1] && (p.start[b] < p.full[b] ==> p.full[b] <= p.whole)
    {
      FullInside(p.start, e, b);
    }
    forall q | 0 <= q < |p.owner| ensures p.owner[q] < Num(p) && p.start[p.owner[q]] <= q < p.start[p.owner[q] + 1] {
      OwnersRight(p.start, q);
    }
  }

  lemma LayoutOwns<Bl(!new)>(p: Layout<Bl>, e: nat, b: nat)
    requires Rising(p.start) && p.full == Fulls(p.start, e) && p.owner == Owners(p.start) && b < Num(p)
    ensures Owns(p, b)
  {
    forall q | p.start[b] <= q < p.start[b + 1] ensures p.owner[q] == b { OwnersExact(p.start, b, q); }
  }

  lemma LayoutValid<Bl(!new)>(p: Layout<Bl>, e: nat)
    requires Rising(p.start) && p.full == Fulls(p.start, e) && p.owner == Owners(p.start) && p.first == [0]
    requires Basic(p)
    requires forall q :: 0 <= q < |p.blocks| ==> (p.blocks[q].Some? <==> q < e)
    requires forall b :: 0 <= b < Num(p) ==> Count(p.blocks, IsOf(p.cls, b)) <= p.start[b + 1] - p.start[b]
    ensures Valid(p)
  {
    hide Rising, Fulls, Owners, Basic, Owns, Count, IsOf;
    BasicFacts(p);
    LayoutSlots(p, e);
  }

  lemma BasicFacts<Bl(!new)>(p: Layout<Bl>)
    requires Basic(p) && Rising(p.start)
    ensures p.start[0] == 0 && |p.start| == Num(p) + 1 > 1 && |p.blocks| == |p.owner|
  {
  }

  lemma LayoutSlots<Bl(!new)>(p: Layout<Bl>, e: nat)
    requires Rising(p.start) && p.full == Fulls(p.start, e) && p.owner == Owners(p.start)
    requires |p.start| == Num(p) + 1 && |p.blocks| == |p.owner|
    requires forall q :: 0 <= q < |p.blocks| ==> (p.blocks[q].Some? <==> q < e)
    ensures forall b :: 0 <= b < Num(p) ==> Owns(p, b)
    ensures forall q :: 0 <= q < |p.owner| ==> p.owner[q] < Num(p) && (p.blocks[q].Some? <==> q < p.full[p.owner[q]])
  {
    hide Rising, Fulls, Owners, Owns;
    forall b | 0 <= b < Num(p) ensures Owns(p, b) { LayoutOwns(p, e, b); }
    forall q | 0 <= q < |p.owner| ensures p.owner[q] < Num(p) && (p.blocks[q].Some? <==> q < p.full[p.owner[q]]) {
      LayoutFull(p, e, q);
    }
  }

  lemma LayoutFull<Bl(!new)>(p: Layout<Bl>, e: nat, q: nat)
    requires Rising(p.start) && p.full == Fulls(p.start, e) && p.owner == Owners(p.start) && |p.blocks| == |p.owner|
    requires q < |p.blocks| && (p.blocks[q].Some? <==> q < e)
    ensures p.owner[q] < Num(p) && (p.blocks[q].Some? <==> q < p.full[p.owner[q]])
  {
    hide Rising, Fulls, Owners;
    OwnersRight(p.start, q);
    FullBelow(p.start, e, p.owner[q], q);
  }

  lemma SlotsFilled<T(!new)>(s: seq<T>, B: nat, e: nat, m: nat, q: nat)
    requires e * B <= |s| && q < m
    ensures FlushedBlocks(s, B, e, m)[q].Some? <==> q < e
  {
    if q < e { MulLess(q, e, B); }
  }

  lemma ClassifiedFacts<T(!new)>(
      s0: seq<T>, s: seq<T>, B: nat, flushed: seq<nat>, bufs: seq<seq<T>>, sizes: seq<nat>, bs: seq<nat>, cls: T -> nat)
    requires Classified(s0, s, B, flushed, bufs, sizes, bs, cls)
    ensures B > 0 && |bs| == |bufs| + 1 > 1 && |s| == |s0|
    ensures FlushedPure(s, B, flushed, cls) && Boundaries(bs, |s|) && |flushed| * B <= |s|
    ensures forall x :: cls(x) < |bufs|
  {
  }

  lemma BufferOfBucket<T(!new)>(
      s0: seq<T>, s: seq<T>, B: nat, flushed: seq<nat>, bufs: seq<seq<T>>, sizes: seq<nat>, bs: seq<nat>, cls: T -> nat,
      i: nat)
    requires Classified(s0, s, B, flushed, bufs, sizes, bs, cls) && i < |bufs|
    ensures Count(flushed, Is(i)) * B + |bufs[i]| == bs[i + 1] - bs[i]
    ensures |bufs[i]| <= B && AllOf(bufs[i], cls, i) && (bs[i] < bs[i + 1] ==> |bufs[i]| > 0)
  {
    assert BufferOk(B, flushed, bufs[i], sizes[i], cls, i) && SizeOf(bs, i) == sizes[i] + |bufs[i]|;
  }

  lemma BlocksFitAll<T(!new)>(
      s0: seq<T>, s: seq<T>, B: nat, flushed: seq<nat>, bufs: seq<seq<T>>, sizes: seq<nat>, bs: seq<nat>, cls: T -> nat,
      m: nat, b: nat)
    requires Classified(s0, s, B, flushed, bufs, sizes, bs, cls) && |flushed| <= m && b < |bufs|
    ensures Count(FlushedBlocks(s, B, |flushed|, m), IsOf(HeadClass(cls), b)) <= Blocks(bs[b + 1], B) - Blocks(bs[b], B)
  {
    hide Classified, FlushedPure, Boundaries, Count, FlushedBlocks, AllOf;
    ClassifiedFacts(s0, s, B, flushed, bufs, sizes, bs, cls);
    BufferOfBucket(s0, s, B, flushed, bufs, sizes, bs, cls, b);
    BlockCount(s, B, flushed, m, cls, b);
    var f := Count(flushed, Is(b));
    if f > 0 { MulMono(1, f, B); }
    BlocksFit(bs[b], bs[b + 1] - bs[b], f, B);
  }

  /** The layout after classification meets everything the permutation protocol assumes. */
  lemma LayoutStart<T(!new)>(
      s0: seq<T>, s: seq<T>, B: nat, flushed: seq<nat>, bufs: seq<seq<T>>, sizes: seq<nat>, bs: seq<nat>, cls: T -> nat)
    requires Classified(s0, s, B, flushed, bufs, sizes, bs, cls)
    ensures (|s| / B) * B <= |s|
    ensures Start(LayoutOf(s, B, |flushed|, Starts(bs, B), cls), BlocksOf(s, 0, |s| / B, B))
  {
    hide Classified, FlushedPure, Boundaries, Count, FlushedBlocks, Rising, Fulls, Owners, HeadClass, IsOf;
    ClassifiedFacts(s0, s, B, flushed, bufs, sizes, bs, cls);
    var start, e, w := Starts(bs, B), |flushed|, |s| / B;
    var p := LayoutOf(s, B, e, start, cls);
    StartsRise(bs, |s|, B);
    WholeBlocks(|s|, B);
    QuotientCompare(|s|, B, e);
    forall x ensures p.cls(x) < |bufs| { HeadBound(cls, |bufs|, x); }
    LayoutBasic(p, e);
    forall b | 0 <= b < |bufs| ensures Count(p.blocks, IsOf(p.cls, b)) <= start[b + 1] - start[b] {
      BlocksFitAll(s0, s, B, flushed, bufs, sizes, bs, cls, |p.blocks|, b);
    }
    forall q | 0 <= q < |p.blocks| ensures p.blocks[q].Some? <==> q < e { SlotsFilled(s, B, e, |p.blocks|, q); }
    LayoutValid(p, e);
    hide Valid;
    forall q | 0 <= q < |p.blocks| && p.blocks[q].Some? ensures q < w && p.blocks[q] == Some(BlocksOf(s, 0, w, B)[q]) {
      assert BlockAt(s, 0, w, B, q) == Block(s, q, B);
    }
  }
}
