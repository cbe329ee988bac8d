/**
 * One in-place partitioning step by several threads, from classification to cleanup: whatever the threads'
 * interleaving in every phase, the range ends up partitioned, with all its elements.
 */
module ParallelInPlace {
  import opened Order
  import opened Bags
  import opened Powers
  import opened Buckets
  import opened Buffers
  import opened BlockPermutation
  import opened InPlaceLayout
  import opened Margins
  import opened PermutedBlocks
  import opened ParallelClassification
  import opened ParallelMargins
  import E = EmptyBlocks
  import A = EmptyBlocksAll
  import P = BlockProtocol
  import R = BlockResults

  /**
   * The phases before the cleanup. s0 is the range at first, s after all threads have classified their stripes;
   * bs are the boundaries after the threads' additions, and added is the order in which they were made;
   * moves are the threads' moves of empty blocks and moved is the order in which they were made; first are the
   * buckets at which the threads start to permute, and acts names the threads that act, one after the other.
   */
  datatype Run<!T(!new)> =
    Run(s0: seq<T>, s: seq<T>, B: nat, k: nat, cls: T -> nat, stripes: Stripes<T>, added: seq<Add>,
        bs: seq<nat>, moves: seq<seq<E.Move>>, moved: seq<E.Move>, first: seq<nat>, acts: seq<nat>)
  {
    ghost predicate Classified() {
      && AllClassified(stripes, s0, s, B, k, cls) && multiset(added) == BagOf(AllAdds(stripes, s0, s, B, k, cls))
      && bs == AfterAdds(seq(k + 1, i => 0), added)
    }

    ghost predicate Compacted() {
      && Classified()
      && A.AllMoves(stripes.S, stripes.E(), Starts(bs, B), |s0| / B != Blocks(|s0|, B), moves)
      && multiset(moved) == BagOf(moves)
      && forall h :: 0 <= h < |first| ==> first[h] < k
    }
  }

  lemma BoundsRight<T(!new)>(r: Run<T>)
    requires r.Classified()
    ensures |r.bs| == r.k + 1 && Boundaries(r.bs, |r.s0|)
    ensures forall i :: 0 <= i < r.k ==> SizeOf(r.bs, i) == Count(r.s0, Has(r.cls, i))
  {
    AdditionsInAnyOrder(r.stripes, r.s0, r.s, r.B, r.k, r.cls, r.added);
  }

  /** The whole blocks after classification, and the slots that then are full. */
  ghost function Whole<T(!new)>(r: Run<T>): (b: seq<seq<T>>)
    requires r.Classified()
    ensures |b| == |r.s0| / r.B
  {
    WholeBlocks(|r.s0|, r.B);
    BlocksOf(r.s, 0, |r.s0| / r.B, r.B)
  }

  ghost function FullAtFirst<T(!new)>(r: Run<T>): seq<bool>
    requires r.Classified()
  {
    E.FullSlots(r.stripes.S, r.stripes.E())
  }

  ghost predicate MovesInside<T(!new)>(r: Run<T>)
    requires r.Classified()
  {
    forall i :: 0 <= i < |r.moved| ==>
      r.moved[i].from < |Whole(r)| <= |FullAtFirst(r)| && r.moved[i].to < |Whole(r)| <= |FullAtFirst(r)|
  }

  /** The whole blocks after the movement, and the layout that the permutation starts from. */
  ghost function Memory<T(!new)>(r: Run<T>): seq<seq<T>>
    requires r.Classified() && MovesInside(r)
  {
    A.After(Whole(r), r.moved)
  }

  ghost function Layout<T(!new)>(r: Run<T>): P.Layout<seq<T>>
    requires r.Classified() && MovesInside(r)
  {
    BoundsRight(r);
    StripesLayout(r.stripes, r.s0, r.s, r.B, r.k, r.cls, r.bs);
    ParallelBlocks.LayoutAfter(r.stripes.S, r.stripes.E(), Starts(r.bs, r.B), Memory(r),
                               A.LiveAfter(FullAtFirst(r), r.moved), HeadClass(r.cls), r.first)
  }

  // ---------------------------------------------------------------- classification and movement

  lemma ClassifiedSlots<T(!new)>(r: Run<T>)
    requires r.Classified()
    ensures E.Layout(r.stripes.S, r.stripes.E(), Starts(r.bs, r.B), |r.s0| / r.B != Blocks(|r.s0|, r.B))
    ensures |Whole(r)| == r.stripes.S[|r.stripes.E()|] - (if |r.s0| / r.B != Blocks(|r.s0|, r.B) then 1 else 0)
    ensures |Whole(r)| <= |FullAtFirst(r)| && forall g :: 0 <= g < |r.stripes.bufs| ==> |r.stripes.bufs[g]| == r.k
    ensures Stored(r.s0, ParallelBlocks.FullBlocks(Whole(r), FullAtFirst(r)), r.B, r.bs,
                   StripeBuffers(r.stripes, r.k, |r.stripes.bufs|), r.cls)
  {
    BoundsRight(r);
    BuffersFit(r.stripes, r.s0, r.s, r.B, r.k, r.cls);
    StripesLayout(r.stripes, r.s0, r.s, r.B, r.k, r.cls, r.bs);
    StripesStored(r.stripes, r.s0, r.s, r.B, r.k, r.cls, r.bs);
    WholeBlocks(|r.s0|, r.B);
    hide E.Layout, Stored, StripeOk;
  }

  /** What the movement starts from; partial says whether the last block is cut off by the end of the range. */
  lemma MovesFacts<T(!new)>(r: Run<T>) returns (partial: bool)
    requires r.Compacted()
    ensures r.Classified() && multiset(r.moved) == BagOf(r.moves) && |r.stripes.S| == |r.stripes.flushed| + 1 && r.B > 0
    ensures A.AllMoves(r.stripes.S, r.stripes.E(), Starts(r.bs, r.B), partial, r.moves)
    ensures |Whole(r)| == r.stripes.S[|r.stripes.E()|] - (if partial then 1 else 0)
    ensures forall h :: 0 <= h < |r.first| ==> r.first[h] < r.k
    ensures r.stripes.flushed != [] && FullAtFirst(r) == E.FullSlots(r.stripes.S, r.stripes.E())
    ensures |Starts(r.bs, r.B)| > 1 && Boundaries(Starts(r.bs, r.B), r.stripes.S[|r.stripes.E()|])
  {
    ClassifiedSlots(r);
    ClassifiedShape(r);
    partial := |r.s0| / r.B != Blocks(|r.s0|, r.B);
  }

  lemma MovesStayInside<T(!new)>(r: Run<T>)
    requires r.Compacted()
    ensures MovesInside(r)
  {
    var partial := MovesFacts(r);
    BlocksFitBuckets(r);
    hide Run.Compacted, Run.Classified, Whole, Starts, A.AllMoves, E.FullSlots, HeadClass, ParallelBlocks.FullBlocks,
      Count, P.IsOf, Boundaries;
    ParallelBlocks.PermutationCanStart(r.stripes.S, r.stripes.E(), Starts(r.bs, r.B), partial, r.moves, r.moved,
                                       Whole(r), HeadClass(r.cls), r.first);
  }

  /** The movement keeps the full blocks, and the permutation can start. */
  lemma MovementKeeps<T(!new)>(r: Run<T>)
    requires r.Compacted()
    ensures MovesInside(r) && R.Start(Layout(r), Memory(r))
    ensures multiset(Layout(r).blocks) == multiset(ParallelBlocks.FullBlocks(Whole(r), FullAtFirst(r)))
  {
    MovesStayInside(r);
    var partial := MovesFacts(r);
    BlocksFitBuckets(r);
    hide Run.Compacted, Run.Classified, MovesInside, Whole, Starts, A.AllMoves, R.Start, E.FullSlots, HeadClass,
      ParallelBlocks.FullBlocks, A.After, A.LiveAfter, Count, P.IsOf, Boundaries;
    ParallelBlocks.PermutationCanStart(r.stripes.S, r.stripes.E(), Starts(r.bs, r.B), partial, r.moves, r.moved,
                                       Whole(r), HeadClass(r.cls), r.first);
  }

  /** So what classification stored is still there. */
  lemma PermutationStarts<T(!new)>(r: Run<T>)
    requires r.Compacted()
    ensures MovesInside(r) && R.Start(Layout(r), Memory(r))
    ensures forall g :: 0 <= g < |r.stripes.bufs| ==> |r.stripes.bufs[g]| == r.k
    ensures Stored(r.s0, Layout(r).blocks, r.B, r.bs, StripeBuffers(r.stripes, r.k, |r.stripes.bufs|), r.cls)
  {
    MovementKeeps(r);
    assert r.Classified();
    ClassifiedSlots(r);
    hide *;
    StoredMoves(r.s0, ParallelBlocks.FullBlocks(Whole(r), FullAtFirst(r)), Layout(r).blocks, r.B, r.bs,
                StripeBuffers(r.stripes, r.k, |r.stripes.bufs|), r.cls);
  }

  lemma ClassifiedShape<T(!new)>(r: Run<T>)
    requires r.Classified()
    ensures |r.stripes.S| == |r.stripes.flushed| + 1 && r.B > 0 && |r.bs| == r.k + 1
    ensures |Starts(r.bs, r.B)| == r.k + 1
  {
    BoundsRight(r);
  }

  /** No bucket has more full blocks than slots. */
  lemma BlocksFitBuckets<T(!new)>(r: Run<T>)
    requires r.Classified()
    ensures |Starts(r.bs, r.B)| == r.k + 1 && forall x :: HeadClass(r.cls)(x) < r.k
    ensures var blocks, starts := ParallelBlocks.FullBlocks(Whole(r), FullAtFirst(r)), Starts(r.bs, r.B);
      forall b :: 0 <= b < r.k ==> Count(blocks, P.IsOf(HeadClass(r.cls), b)) + starts[b] <= starts[b + 1]
  {
    ClassifiedSlots(r);
    ClassifiedShape(r);
    var bufs := StripeBuffers(r.stripes, r.k, |r.stripes.bufs|);
    var blocks := ParallelBlocks.FullBlocks(Whole(r), FullAtFirst(r));
    hide AllClassified, AllAdds, AfterAdds, E.Layout, Whole, FullAtFirst, ParallelBlocks.FullBlocks, StripeBuffers;
    StoredFitsAll(r.s0, blocks, r.B, r.bs, bufs, r.cls);
  }

  // ---------------------------------------------------------------- permutation

  /** The state in which the threads leave the permutation phase. */
  ghost function Final<T(!new)>(r: Run<T>): P.State<seq<T>>
    requires r.Compacted() && forall i :: 0 <= i < |r.acts| ==> r.acts[i] < |r.first|
  {
    PermutationStarts(r);
    R.After(Layout(r), Memory(r), r.acts)
  }

  /** All threads are through with the permutation, and t, from begin on, is the array that they leave. */
  ghost predicate Leaves<T(!new)>(r: Run<T>, t: seq<T>, begin: nat, over: P.Option<seq<T>>) {
    && r.Compacted() && (forall i :: 0 <= i < |r.acts| ==> r.acts[i] < |r.first|)
    && R.AllDone(Final(r)) && begin + |r.s0| <= |t| && (|r.s0| / r.B) * r.B <= |r.s0|
    && BlocksOf(t, begin, |r.s0| / r.B, r.B) == Final(r).mem
    && SharedOverflow(Final(r), over)
  }

  lemma LayoutFacts<T(!new)>(r: Run<T>)
    requires r.Compacted()
    ensures MovesInside(r) && Rising(Layout(r).start) && Layout(r).start == Starts(r.bs, r.B)
    ensures Layout(r).owner == Owners(Layout(r).start) && Layout(r).whole == |r.s0| / r.B
    ensures Layout(r).cls == HeadClass(r.cls) && Layout(r).first == r.first
  {
    PermutationStarts(r);
    StartsRise(r.bs, |r.s0|, r.B);
    hide A.AllMoves, AllClassified, Rising, R.Start, Stored;
  }

  lemma AllSettled<T(!new)>(r: Run<T>, t: seq<T>, begin: nat, over: P.Option<seq<T>>)
    requires Leaves(r, t, begin, over)
    ensures MovesInside(r) && forall g :: 0 <= g < |r.stripes.bufs| ==> |r.stripes.bufs[g]| == r.k
    ensures Settled(r.s0, t, begin, r.B, Layout(r), r.bs, StripeBuffers(r.stripes, r.k, |r.stripes.bufs|), r.cls,
      Final(r), over)
  {
    PermutationStarts(r);
    LayoutFacts(r);
    assert r.B > 0;
    hide A.AllMoves, AllClassified, Rising, R.Start, Stored, R.AllDone, Layout, Memory, Starts, Owners;
  }

  /**
   * After the permutation, however many threads took part and however they interleaved: blocks, overflow block
   * and all threads' buffers are the elements of the range; every bucket is as the cleanup assumes; and the
   * overflow buffer is in use exactly if the computed bucket overflowed, which is the only one that can.
   */
  lemma CleanupStarts<T(!new)>(r: Run<T>, t: seq<T>, begin: nat, over: P.Option<seq<T>>, computed: int)
    requires Leaves(r, t, begin, over) && IsOverflowBucket(r.bs, r.B, computed)
    ensures r.B > 0 && forall g :: 0 <= g < |r.stripes.bufs| ==> |r.stripes.bufs[g]| == r.k
    ensures var pl, bufs := Plan(begin, |r.s0|, r.B, r.bs, Final(r).w), StripeBuffers(r.stripes, r.k, |r.stripes.bufs|);
      && pl.Ok() && |pl.w| == |bufs| && Prepared(t, pl, over, bufs, r.cls) && pl.Lim() <= |t|
      && RestBag(t, pl, over, bufs, 0) == multiset(r.s0)
      && forall i :: 0 <= i < |pl.w| ==> (i == computed && over.Some? <==> Spilled(pl.Bucket(i), pl.Lim()))
  {
    AllSettled(r, t, begin, over);
    var p, bufs, st := Layout(r), StripeBuffers(r.stripes, r.k, |r.stripes.bufs|), Final(r);
    hide *;
    SettledShape(r.s0, t, begin, r.B, p, r.bs, bufs, r.cls, st, over);
    CanCleanUp(r.s0, t, begin, r.B, p, r.bs, bufs, r.cls, st, over, computed);
  }

  // ---------------------------------------------------------------- the whole step

  /** The cleanup works on what the permutation left. */
  ghost predicate CleansUp<T(!new)>(
      r: Run<T>, t: seq<T>, begin: nat, over: P.Option<seq<T>>, c: Cleanup<T>)
  {
    && StrictWeakOrder(c.less) && IsOverflowBucket(r.bs, r.B, c.overflowBucket)
    && Leaves(r, t, begin, over) && c.t == t && c.over == over && c.cls == r.cls
    && c.pl == Plan(begin, |r.s0|, r.B, r.bs, Final(r).w)
    && (forall g :: 0 <= g < |r.stripes.bufs| ==> |r.stripes.bufs[g]| == r.k)
    && c.bufs == StripeBuffers(r.stripes, r.k, |r.stripes.bufs|)
    && c.pl.Ok() && c.MarginsSaved()
  }

  lemma CleanupOk<T(!new)>(
      r: Run<T>, t: seq<T>, begin: nat, over: P.Option<seq<T>>, c: Cleanup<T>)
    requires CleansUp(r, t, begin, over, c)
    ensures c.Ok() && c.pl.Lim() <= |c.t| && RestBag(c.t, c.pl, c.over, c.bufs, 0) == multiset(r.s0)
  {
    CleansUpParts(r, t, begin, over, c);
    CleanupStarts(r, t, begin, over, c.overflowBucket);
    hide *;
    PartsOk(c);
  }

  lemma CleansUpParts<T(!new)>(r: Run<T>, t: seq<T>, begin: nat, over: P.Option<seq<T>>, c: Cleanup<T>)
    requires CleansUp(r, t, begin, over, c)
    ensures Leaves(r, t, begin, over) && IsOverflowBucket(r.bs, r.B, c.overflowBucket) && StrictWeakOrder(c.less)
    ensures c.t == t && c.over == over && c.cls == r.cls && c.pl == Plan(begin, |r.s0|, r.B, r.bs, Final(r).w)
    ensures (forall g :: 0 <= g < |r.stripes.bufs| ==> |r.stripes.bufs[g]| == r.k)
      && c.bufs == StripeBuffers(r.stripes, r.k, |r.stripes.bufs|)
    ensures c.pl.Ok() && c.MarginsSaved()
  {
    hide IsOverflowBucket, StrictWeakOrder, StripeBuffers, Cleanup.MarginsSaved, Plan.Ok;
  }

  lemma PartsOk<T(!new)>(c: Cleanup<T>)
    requires StrictWeakOrder(c.less) && Prepared(c.t, c.pl, c.over, c.bufs, c.cls) && c.pl.Ok() && c.MarginsSaved()
    requires forall i :: 0 <= i < |c.pl.w| ==>
      (i == c.overflowBucket && c.over.Some? <==> Spilled(c.pl.Bucket(i), c.pl.Lim()))
    ensures c.Ok()
  {
  }

  /**
   * The whole step: in every interleaving of classification, movement, permutation and cleanup, the range ends
   * up partitioned by class, with small buckets sorted, holds the elements it held at first, and nothing else
   * has changed since the permutation.
   */
  lemma Partitions<T(!new)>(
      r: Run<T>, t: seq<T>, begin: nat, over: P.Option<seq<T>>, c: Cleanup<T>, us: seq<seq<T>>, ps: seq<seq<nat>>)
    requires CleansUp(r, t, begin, over, c) && Finishes(c, us, ps)
    ensures |us| > 0
    ensures var u, end := us[|us| - 1], begin + |r.s0|;
      && end <= |t| == |u| && u[..begin] == t[..begin] && u[end..] == t[end..]
      && multiset(u[begin..end]) == multiset(r.s0)
      && Partitioned(u[begin..end], r.bs, r.cls, c.base, c.lastLevel, c.less)
  {
    hide *;
    CleansUpFacts(r, t, begin, over, c);
    CleanupOk(r, t, begin, over, c);
    WorksOnRange(c, us, ps, r.s0);
  }

  /** All threads run through their cleanup loops, in some interleaving. */
  ghost predicate Finishes<T(!new)>(c: Cleanup<T>, us: seq<seq<T>>, ps: seq<seq<nat>>)
    requires c.pl.Ok()
  {
    c.Ok() ==> Behaviour(c, us, ps) && ps[|ps| - 1] == c.ranges[1..]
  }

  lemma CleansUpFacts<T(!new)>(r: Run<T>, t: seq<T>, begin: nat, over: P.Option<seq<T>>, c: Cleanup<T>)
    requires CleansUp(r, t, begin, over, c)
    ensures c.t == t && c.cls == r.cls && c.pl.begin == begin && c.pl.n == |r.s0| && c.pl.bs == r.bs
  {
  }

  lemma WorksOnRange<T(!new)>(c: Cleanup<T>, us: seq<seq<T>>, ps: seq<seq<nat>>, s0: seq<T>)
    requires c.Ok() && Finishes(c, us, ps) && c.pl.Lim() <= |c.t|
      && RestBag(c.t, c.pl, c.over, c.bufs, 0) == multiset(s0)
    ensures |us| > 0
    ensures var u, begin, end := us[|us| - 1], c.pl.begin, c.pl.begin + c.pl.n;
      && end <= |c.t| == |u| && u[..begin] == c.t[..begin] && u[end..] == c.t[end..]
      && multiset(u[begin..end]) == multiset(s0)
      && Partitioned(u[begin..end], c.pl.bs, c.cls, c.base, c.lastLevel, c.less)
  {
    hide Cleanup.Ok, Behaviour, RestBag, Partitioned;
    FirstState(c, us, ps);
    RangePartitioned(c, us, ps);
  }
}
