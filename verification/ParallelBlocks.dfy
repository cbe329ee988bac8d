/**
 * From the stripes of the parallel classification to the block permutation: the empty-block movement of all
 * threads, in any order, makes the array ready for the permutation phase.
 */
module ParallelBlocks {
  import opened Bags
  import opened Buffers
  import opened Buckets
  import opened EmptyBlocks
  import opened EmptyBlocksAll
  import P = BlockProtocol
  import R = BlockResults
  import InPlaceLayout

  /** The full blocks among the slots; the last slot may lie beyond the whole blocks s. */
  ghost function FullBlocks<Bl>(s: seq<Bl>, live: seq<bool>): (r: seq<P.Option<Bl>>)
    ensures |r| == |live|
  {
    seq(|live|, q requires 0 <= q < |live| => if q < |s| && live[q] then P.Some(s[q]) else P.None)
  }

  ghost function Goals(full: seq<bool>, A: seq<nat>): (r: seq<nat>)
    requires |A| > 0 && Boundaries(A, |full|)
    ensures |r| == |A| - 1
  {
    seq(|A| - 1, b requires 0 <= b < |A| - 1 => BoundaryMono(A, |full|, b + 1, |A| - 1); Goal(full, A, b))
  }

  /** What the permutation phase starts from: pointers as the threads have set them. */
  ghost function LayoutAfter<Bl>(
      S: seq<nat>, E: seq<nat>, A: seq<nat>, s: seq<Bl>, live: seq<bool>, cls: Bl -> nat, first: seq<nat>): P.Layout<Bl>
    requires |S| == |E| + 1 > 1 && |A| > 1 && Boundaries(A, S[|E|])
  {
    P.Layout(A, Goals(FullSlots(S, E), A), InPlaceLayout.Owners(A), |s|, first, FullBlocks(s, live), cls)
  }

  // ---------------------------------------------------------------- no block changes its bucket

  /** How often a slot content occurs does not depend on where the full blocks are. */
  lemma {:induction false} Occurs<Bl>(s: seq<Bl>, live: seq<bool>, o: P.Option<Bl>)
    requires |s| <= |live|
    ensures |BagOf(Cells(s, live))| <= |live|
    ensures multiset(FullBlocks(s, live))[o]
         == if o.Some? then BagOf(Cells(s, live))[o.value] else |live| - |BagOf(Cells(s, live))|
  {
    if live != [] {
      hide *;
      var s', live' := if s == [] then [] else s[1..], live[1..];
      Occurs(s', live', o);
      CellsNext(s, live);
      OccursNext(FullBlocks(s', live'), FullBlocks(s, live)[0], BagOf(Cells(s', live')), |live'|, o);
    }
  }

  lemma CellsNext<Bl>(s: seq<Bl>, live: seq<bool>)
    requires |s| <= |live| && live != []
    ensures var s', c := if s == [] then [] else s[1..], FullBlocks(s, live)[0];
      && FullBlocks(s, live) == [c] + FullBlocks(s', live[1..])
      && BagOf(Cells(s, live)) == (if c.Some? then multiset{c.value} else multiset{}) + BagOf(Cells(s', live[1..]))
  {
    if s != [] { assert Cells(s, live)[1..] == Cells(s[1..], live[1..]); }
  }

  lemma OccursNext<Bl>(rest: seq<P.Option<Bl>>, c: P.Option<Bl>, bag: multiset<Bl>, n: nat, o: P.Option<Bl>)
    requires |bag| <= n && multiset(rest)[o] == if o.Some? then bag[o.value] else n - |bag|
    ensures var more := (if c.Some? then multiset{c.value} else multiset{}) + bag;
      |more| <= n + 1 && multiset([c] + rest)[o] == if o.Some? then more[o.value] else n + 1 - |more|
  {
    assert multiset([c] + rest) == multiset{c} + multiset(rest);
  }

  lemma SameBlocks<Bl>(s: seq<Bl>, live: seq<bool>, s': seq<Bl>, live': seq<bool>)
    requires |s| <= |live| == |live'| && |s'| <= |live'| && BagOf(Cells(s', live')) == BagOf(Cells(s, live))
    ensures multiset(FullBlocks(s', live')) == multiset(FullBlocks(s, live))
  {
    forall o ensures multiset(FullBlocks(s', live'))[o] == multiset(FullBlocks(s, live))[o] {
      Occurs(s, live, o);
      Occurs(s', live', o);
    }
  }

  // ---------------------------------------------------------------- the layout is valid

  lemma Rises(A: seq<nat>, n: nat)
    requires |A| > 1 && Boundaries(A, n)
    ensures InPlaceLayout.Rising(A)
  {
    forall i, j | 0 <= i <= j < |A| ensures A[i] <= A[j] { BoundaryMono(A, n, i, j); }
  }

  /** No read pointer starts beyond the whole blocks. */
  lemma GoalInside(S: seq<nat>, E: seq<nat>, A: seq<nat>, partial: bool, b: nat)
    requires Layout(S, E, A, partial) && b + 1 < |A|
    ensures A[b] <= A[b + 1] <= S[|E|] && A[b] <= Goal(FullSlots(S, E), A, b) <= A[b + 1]
    ensures A[b] < Goal(FullSlots(S, E), A, b) ==> Goal(FullSlots(S, E), A, b) <= S[|E|] - (if partial then 1 else 0)
  {
    var full, n := FullSlots(S, E), S[|E|];
    BoundaryMono(A, n, b, b + 1);
    BoundaryMono(A, n, b + 1, |A| - 1);
    GoalBalance(full, A[b], A[b + 1]);
    if partial && A[b] < A[b + 1] == n {
      FullInStripe(S, E, A, partial, |E| - 1, n - 1);
      FullAll(full, n - 1, n, false);
      FullSplit(full, A[b], n - 1, n);
    }
  }

  lemma PermutationLayout<Bl(!new)>(
      S: seq<nat>, E: seq<nat>, A: seq<nat>, partial: bool, s: seq<Bl>, live: seq<bool>, cls: Bl -> nat,
      first: seq<nat>)
    requires Layout(S, E, A, partial) && |live| == S[|E|] && |s| == S[|E|] - (if partial then 1 else 0)
    requires forall b, q :: 0 <= b < |A| - 1 && A[b] <= q < A[b + 1] ==> SlotOk(S, E, A, live, b, q)
    requires forall b :: 0 <= b < |A| - 1 ==> Count(FullBlocks(s, live), P.IsOf(cls, b)) + A[b] <= A[b + 1]
    requires (forall x :: cls(x) < |A| - 1) && forall t :: 0 <= t < |first| ==> first[t] < |A| - 1
    ensures R.Start(LayoutAfter(S, E, A, s, live, cls, first), s)
  {
    var p := LayoutAfter(S, E, A, s, live, cls, first);
    Rises(A, S[|E|]);
    assert p.start == A && p.whole == |s| && |p.full| == |A| - 1 && p.first == first && p.cls == cls;
    assert p.blocks == FullBlocks(s, live) && |p.owner| == |p.blocks| == A[|A| - 1] && A[0] == 0;
    hide Layout, Goal, Goals, FullSlots, P.Owns, P.Basic, P.Valid, InPlaceLayout.Owners, InPlaceLayout.Rising,
      FullBlocks, SlotOk,
      P.IsOf, BucketRight, SlotRight, LayoutAfter, R.Start;
    forall b | 0 <= b < |A| - 1 ensures BucketRight(p, b) { BucketOfLayout(S, E, A, partial, s, live, cls, first, b); }
    forall q | 0 <= q < |p.owner| ensures SlotRight(p, s, q) { SlotOfLayout(S, E, A, partial, s, live, cls, first, q); }
    Assemble(p, s);
  }

  ghost predicate BucketRight<Bl>(p: P.Layout<Bl>, b: nat) {
    && b + 1 < |p.start| && b < |p.full| && P.Owns(p, b)
    && p.start[b] <= p.full[b] <= p.start[b + 1] && (p.start[b] < p.full[b] ==> p.full[b] <= p.whole)
  }

  ghost predicate SlotRight<Bl>(p: P.Layout<Bl>, s: seq<Bl>, q: nat) {
    && |p.start| == |p.full| + 1 && q < |p.owner| && q < |p.blocks| && p.owner[q] < P.Num(p)
    && p.start[p.owner[q]] <= q < p.start[p.owner[q] + 1]
    && (p.blocks[q].Some? <==> q < p.full[p.owner[q]])
    && (p.blocks[q].Some? ==> q < |s| && p.blocks[q] == P.Some(s[q]))
  }

  lemma Assemble<Bl(!new)>(p: P.Layout<Bl>, s: seq<Bl>)
    requires |p.start| == |p.full| + 1 > 1 && p.start[0] == 0 && p.whole == |s|
    requires |p.owner| == |p.blocks| == p.start[|p.full|] <= |s| + 1
    requires forall b :: 0 <= b < |p.full| ==> BucketRight(p, b)
    requires forall q :: 0 <= q < |p.owner| ==> SlotRight(p, s, q)
    requires forall b :: 0 <= b < |p.full| ==> p.start[b] + Count(p.blocks, P.IsOf(p.cls, b)) <= p.start[b + 1]
    requires (forall x :: p.cls(x) < |p.full|) && forall t :: 0 <= t < |p.first| ==> p.first[t] < |p.full|
    ensures R.Start(p, s)
  {
    hide P.Owns, P.IsOf;
    forall b | 0 <= b < |p.full|
      ensures P.Owns(p, b) && p.start[b] <= p.full[b] <= p.start[b + 1]
        && (p.start[b] < p.full[b] ==> p.full[b] <= p.whole)
    {
      assert BucketRight(p, b);
    }
    forall q | 0 <= q < |p.owner|
      ensures p.owner[q] < P.Num(p) && p.start[p.owner[q]] <= q < p.start[p.owner[q] + 1]
      ensures p.blocks[q].Some? <==> q < p.full[p.owner[q]]
      ensures p.blocks[q].Some? ==> q < |s| && p.blocks[q] == P.Some(s[q])
    {
      assert SlotRight(p, s, q);
    }
  }

  lemma BucketOfLayout<Bl(!new)>(
      S: seq<nat>, E: seq<nat>, A: seq<nat>, partial: bool, s: seq<Bl>, live: seq<bool>, cls: Bl -> nat,
      first: seq<nat>,
      b: nat)
    requires Layout(S, E, A, partial) && b + 1 < |A| && InPlaceLayout.Rising(A)
    requires |s| == S[|E|] - (if partial then 1 else 0)
    ensures BucketRight(LayoutAfter(S, E, A, s, live, cls, first), b)
  {
    GoalInside(S, E, A, partial, b);
    BoundaryMono(A, S[|E|], b + 1, |A| - 1);
    forall q | A[b] <= q < A[b + 1] ensures InPlaceLayout.Owners(A)[q] == b { InPlaceLayout.OwnersExact(A, b, q); }
  }

  lemma SlotOfLayout<Bl(!new)>(
      S: seq<nat>, E: seq<nat>, A: seq<nat>, partial: bool, s: seq<Bl>, live: seq<bool>, cls: Bl -> nat,
      first: seq<nat>,
      q: nat)
    requires Layout(S, E, A, partial) && |live| == S[|E|] && |s| == S[|E|] - (if partial then 1 else 0)
    requires forall b, q :: 0 <= b < |A| - 1 && A[b] <= q < A[b + 1] ==> SlotOk(S, E, A, live, b, q)
    requires q < S[|E|] && InPlaceLayout.Rising(A)
    ensures SlotRight(LayoutAfter(S, E, A, s, live, cls, first), s, q)
  {
    InPlaceLayout.OwnersRight(A, q);
    var b := InPlaceLayout.Owners(A)[q];
    assert SlotOk(S, E, A, live, b, q);
    GoalInside(S, E, A, partial, b);
  }

  /** Slot q of bucket b is full exactly if it lies before the bucket's goal. */
  ghost predicate SlotOk(S: seq<nat>, E: seq<nat>, A: seq<nat>, live: seq<bool>, b: nat, q: nat)
    requires |S| == |E| + 1 > 1
  {
    && b + 1 < |A| && A[b + 1] <= S[|E|] == |live| && q < |live|
    && (live[q] <==> q < Goal(FullSlots(S, E), A, b))
  }

  /**
   * However the threads' moves interleave, afterwards the permutation phase can start: every bucket is full
   * blocks, then empty ones, its read pointer is at the last full block, and no bucket has too many blocks.
   */
  lemma PermutationCanStart<Bl(!new)>(
      S: seq<nat>, E: seq<nat>, A: seq<nat>, partial: bool, all: seq<seq<Move>>, order: seq<Move>, s: seq<Bl>,
      cls: Bl -> nat, first: seq<nat>)
    requires AllMoves(S, E, A, partial, all) && multiset(order) == BagOf(all)
    requires |s| == S[|E|] - (if partial then 1 else 0)
    requires (forall x :: cls(x) < |A| - 1) && forall t :: 0 <= t < |first| ==> first[t] < |A| - 1
    requires forall b :: 0 <= b < |A| - 1 ==> Count(FullBlocks(s, FullSlots(S, E)), P.IsOf(cls, b)) + A[b] <= A[b + 1]
    ensures forall i :: 0 <= i < |order| ==> order[i].from < |s| && order[i].to < |s|
    ensures var s', live := After(s, order), LiveAfter(FullSlots(S, E), order);
      && R.Start(LayoutAfter(S, E, A, s', live, cls, first), s')
      && multiset(FullBlocks(s', live)) == multiset(FullBlocks(s, FullSlots(S, E)))
  {
    var full := FullSlots(S, E);
    AllIndependent(S, E, A, partial, all, order, |s|);
    forall i | 0 <= i < |order| ensures order[i].from < |s| && order[i].to < |s| { assert Fresh(full, |s|, order[i]); }
    AllKept(s, full, order);
    var s', live := After(s, order), LiveAfter(full, order);
    SameBlocks(s, full, s', live);
    forall b, q | 0 <= b < |A| - 1 && A[b] <= q < A[b + 1] ensures SlotOk(S, E, A, live, b, q) {
      AnyOrder(S, E, A, partial, all, order, s, b, q);
    }
    forall b | 0 <= b < |A| - 1 ensures Count(FullBlocks(s', live), P.IsOf(cls, b)) + A[b] <= A[b + 1] {
      CountOfBag(FullBlocks(s', live), FullBlocks(s, full), P.IsOf(cls, b));
    }
    PermutationLayout(S, E, A, partial, s', live, cls, first);
  }
}
