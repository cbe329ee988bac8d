/**
 * Local classification by several threads: every thread classifies its stripe into its own buffers, and adds
 * its bucket sizes to the common boundaries. All stripes together are stored like the range of one thread.
 */
module ParallelClassification {
  import opened Bags
  import opened Powers
  import opened Buckets
  import opened Buffers
  import opened LocalClassification
  import opened BlockProtocol
  import opened BlockPermutation
  import opened InPlaceLayout
  import opened PermutedBlocks
  import EmptyBlocks
  import ParallelBlocks

  /**
   * What the threads leave: thread h has stripe [S[h], S[h + 1]), in blocks; flushed[h] are the buckets of the
   * blocks it flushed, bufs[h] its buffers, and sizes[h] the numbers of flushed elements per bucket.
   */
  datatype Stripes<+T> =
    Stripes(S: seq<nat>, flushed: seq<seq<nat>>, bufs: seq<seq<seq<T>>>, sizes: seq<seq<nat>>)
  {
    /** First empty block of every stripe. */
    ghost function E(): (e: seq<nat>)
      requires |S| == |flushed| + 1
      ensures |e| == |flushed|
    {
      seq(|flushed|, h requires 0 <= h < |flushed| => S[h] + |flushed[h]|)
    }
  }

  /** First element of stripe h, and, as that of stripe h + 1, its end; the last stripe ends with the range. */
  ghost function At<T>(c: Stripes<T>, n: nat, B: nat, h: nat): (p: nat)
    requires h < |c.S|
    ensures p <= n
  {
    Min(c.S[h] * B, n)
  }

  /** Thread h has classified its stripe. */
  ghost predicate StripeOk<T(!new)>(c: Stripes<T>, s0: seq<T>, s: seq<T>, B: nat, k: nat, cls: T -> nat, h: nat)
    requires h < |c.flushed| == |c.bufs| == |c.sizes| && |c.S| == |c.flushed| + 1 && |s| == |s0|
  {
    var lo, hi := At(c, |s0|, B, h), At(c, |s0|, B, h + 1);
    && c.S[h] < c.S[h + 1] && lo == c.S[h] * B <= hi && |c.bufs[h]| == k
    && Progress(s0[lo..hi], s[lo..hi], hi - lo, B, |c.flushed[h]| * B, c.flushed[h], c.bufs[h], c.sizes[h], cls)
  }

  /** All threads have. */
  ghost predicate AllClassified<T(!new)>(c: Stripes<T>, s0: seq<T>, s: seq<T>, B: nat, k: nat, cls: T -> nat) {
    && B > 0 && k > 0 && (forall x :: cls(x) < k) && |s| == |s0|
    && |c.flushed| == |c.bufs| == |c.sizes| > 0 && |c.S| == |c.flushed| + 1
    && c.S[0] == 0 && c.S[|c.flushed|] == Blocks(|s0|, B)
    && forall h :: 0 <= h < |c.flushed| ==> StripeOk(c, s0, s, B, k, cls, h)
  }

  // ---------------------------------------------------------------- boundaries

  /** One atomic addition to one of the common boundaries. */
  datatype Add = Add(boundary: nat, amount: nat)

  ghost function AfterAdd(bs: seq<nat>, a: Add): (r: seq<nat>)
    ensures |r| == |bs|
  {
    if a.boundary < |bs| then bs[a.boundary := bs[a.boundary] + a.amount] else bs
  }

  /** The boundaries after additions made one after the other. */
  ghost function AfterAdds(bs: seq<nat>, adds: seq<Add>): (r: seq<nat>)
    ensures |r| == |bs|
  {
    if adds == [] then bs else AfterAdd(AfterAdds(bs, adds[..|adds| - 1]), adds[|adds| - 1])
  }

  /** The additions for the first i buckets of a thread that has classified s0. */
  ghost function AddsOf<T>(s0: seq<T>, cls: T -> nat, i: nat): (adds: seq<Add>)
    ensures |adds| == i
  {
    if i == 0 then [] else AddsOf(s0, cls, i - 1) + [Add(i, Count(s0, Below(cls, i)))]
  }

  /** A thread adds the sizes of its buckets to the common boundaries. */
  method AddSizes<T(!new)>(bs: array<nat>, sizes: array<nat>, ghost s0: seq<T>, ghost cls: T -> nat)
    requires bs != sizes && bs.Length == sizes.Length + 1
    requires forall i :: 0 <= i < sizes.Length ==> sizes[i] == Count(s0, Has(cls, i))
    modifies bs
    ensures forall i :: 0 <= i < bs.Length ==> bs[i] == old(bs[i]) + Count(s0, Below(cls, i))
    ensures bs[..] == AfterAdds(old(bs[..]), AddsOf(s0, cls, sizes.Length))
  {
    ghost var t := bs[..];
    var sum: nat := 0;
    BelowNone(s0, cls);
    for i := 0 to sizes.Length
      invariant sum == Count(s0, Below(cls, i)) && bs[..] == AfterAdds(t, AddsOf(s0, cls, i))
    {
      CountBelow(s0, cls, i);
      AddsNext(t, s0, cls, i);
      sum := sum + sizes[i];
      bs[i + 1] := bs[i + 1] + sum;
    }
    AddsRight(t, s0, cls);
  }

  lemma AddsNext<T>(t: seq<nat>, s0: seq<T>, cls: T -> nat, i: nat)
    ensures AfterAdds(t, AddsOf(s0, cls, i + 1))
         == AfterAdd(AfterAdds(t, AddsOf(s0, cls, i)), Add(i + 1, Count(s0, Below(cls, i + 1))))
  {
    var adds, a := AddsOf(s0, cls, i), Add(i + 1, Count(s0, Below(cls, i + 1)));
    assert (adds + [a])[..|adds|] == adds;
  }

  lemma AddsRight<T>(t: seq<nat>, s0: seq<T>, cls: T -> nat)
    requires |t| > 0
    ensures forall i :: 0 <= i < |t| ==>
      AfterAdds(t, AddsOf(s0, cls, |t| - 1))[i] == t[i] + Count(s0, Below(cls, i))
  {
    BelowNone(s0, cls);
    hide AfterAdds, AddsOf, Total, Count, Below;
    forall i | 0 <= i < |t|
      ensures AfterAdds(t, AddsOf(s0, cls, |t| - 1))[i] == t[i] + Count(s0, Below(cls, i))
    {
      AfterAddsAt(t, AddsOf(s0, cls, |t| - 1), i);
      TotalOfThread(s0, cls, |t| - 1, i);
    }
  }

  /** The sum of what the first h threads add to boundary i; the additions commute. */
  ghost function Added<T>(c: Stripes<T>, s0: seq<T>, B: nat, cls: T -> nat, i: nat, h: nat): nat
    requires h < |c.S| && forall g :: 0 <= g < |c.S| - 1 ==> c.S[g] <= c.S[g + 1]
  {
    if h == 0 then 0
    else
      MulMono(c.S[h - 1], c.S[h], B);
      Added(c, s0, B, cls, i, h - 1) + Count(s0[At(c, |s0|, B, h - 1)..At(c, |s0|, B, h)], Below(cls, i))
  }

  lemma {:induction false} AddedUpTo<T(!new)>(c: Stripes<T>, s0: seq<T>, B: nat, cls: T -> nat, i: nat, h: nat)
    requires h < |c.S| && c.S[0] == 0 && forall g :: 0 <= g < |c.S| - 1 ==> c.S[g] <= c.S[g + 1]
    ensures Added(c, s0, B, cls, i, h) == Count(s0[..At(c, |s0|, B, h)], Below(cls, i))
  {
    if h == 0 {
      assert s0[..0] == [];
    } else {
      AddedUpTo(c, s0, B, cls, i, h - 1);
      MulMono(c.S[h - 1], c.S[h], B);
      NextPart(s0, At(c, |s0|, B, h - 1), At(c, |s0|, B, h));
      CountConcat(s0[..At(c, |s0|, B, h - 1)], s0[At(c, |s0|, B, h - 1)..At(c, |s0|, B, h)], Below(cls, i));
    }
  }

  lemma NextPart<T>(s: seq<T>, lo: nat, hi: nat)
    requires lo <= hi <= |s|
    ensures s[..hi] == s[..lo] + s[lo..hi]
  {
  }

  /** The boundaries are right when all threads have added theirs. */
  lemma SumsAreBoundaries<T(!new)>(
      c: Stripes<T>, s0: seq<T>, s: seq<T>, B: nat, k: nat, cls: T -> nat, bs: seq<nat>)
    requires AllClassified(c, s0, s, B, k, cls) && |bs| == k + 1
    requires forall g :: 0 <= g < |c.S| - 1 ==> c.S[g] <= c.S[g + 1]
    requires forall i :: 0 <= i <= k ==> bs[i] == Added(c, s0, B, cls, i, |c.S| - 1)
    ensures Boundaries(bs, |s0|) && forall i :: 0 <= i < k ==> SizeOf(bs, i) == Count(s0, Has(cls, i))
  {
    var h := |c.S| - 1;
    assert At(c, |s0|, B, h) == |s0| && s0[..|s0|] == s0;
    hide StripeOk, Count;
    forall i | 0 <= i <= k ensures bs[i] == Count(s0, Below(cls, i)) { AddedUpTo(c, s0, B, cls, i, h); }
    CountNone(s0, Below(cls, 0));
    CountAll(s0, Below(cls, k));
    forall i | 0 <= i < k ensures bs[i + 1] == bs[i] + Count(s0, Has(cls, i)) { CountBelow(s0, cls, i); }
  }

  // ---- the additions in any order

  ghost function Amount(a: Add, i: nat): nat { if a.boundary == i then a.amount else 0 }

  /** What is added to boundary i altogether. */
  ghost function Total(adds: seq<Add>, i: nat): nat {
    if adds == [] then 0 else Total(adds[..|adds| - 1], i) + Amount(adds[|adds| - 1], i)
  }

  lemma {:induction false} TotalConcat(x: seq<Add>, y: seq<Add>, i: nat)
    ensures Total(x + y, i) == Total(x, i) + Total(y, i)
  {
    if y == [] {
      assert x + y == x;
    } else {
      var n := |y| - 1;
      assert (x + y)[..|x + y| - 1] == x + y[..n];
      TotalConcat(x, y[..n], i);
    }
  }

  /** The order does not matter. */
  lemma {:induction false} TotalOfBag(x: seq<Add>, y: seq<Add>, i: nat)
    requires multiset(x) == multiset(y)
    ensures Total(x, i) == Total(y, i)
    decreases |x|
  {
    assert |x| == |multiset(x)| == |multiset(y)| == |y|;
    if x != [] {
      var n := |x| - 1;
      var front, a := x[..n], x[n];
      assert x == front + [a];
      assert a in multiset(y);
      var k :| 0 <= k < |y| && y[k] == a;
      var l, r := y[..k], y[k + 1..];
      assert y == l + ([a] + r);
      TakeOut(front, l, r, a);
      TotalOfBag(front, l + r, i);
      TotalConcat(l, [a] + r, i);
      TotalConcat([a], r, i);
      TotalConcat(l, r, i);
      assert Total([a], i) == Amount(a, i);
    }
  }

  lemma TakeOut<X>(front: seq<X>, l: seq<X>, r: seq<X>, a: X)
    requires multiset(front + [a]) == multiset(l + ([a] + r))
    ensures multiset(front) == multiset(l + r)
  {
    assert multiset(front) == multiset(front + [a]) - multiset{a};
  }

  lemma {:induction false} AfterAddsAt(bs: seq<nat>, adds: seq<Add>, i: nat)
    requires i < |bs|
    ensures AfterAdds(bs, adds)[i] == bs[i] + Total(adds, i)
  {
    if adds != [] {
      AfterAddsAt(bs, adds[..|adds| - 1], i);
    }
  }

  lemma {:induction false} TotalOfThread<T>(s0: seq<T>, cls: T -> nat, n: nat, i: nat)
    ensures Total(AddsOf(s0, cls, n), i) == if 1 <= i <= n then Count(s0, Below(cls, i)) else 0
  {
    if n > 0 {
      TotalOfThread(s0, cls, n - 1, i);
      var adds, a := AddsOf(s0, cls, n - 1), Add(n, Count(s0, Below(cls, n)));
      assert (adds + [a])[..|adds|] == adds;
    }
  }

  /** The additions of every thread. */
  ghost function AllAdds<T(!new)>(c: Stripes<T>, s0: seq<T>, s: seq<T>, B: nat, k: nat, cls: T -> nat):
    (lists: seq<seq<Add>>)
    requires AllClassified(c, s0, s, B, k, cls)
    ensures |lists| == |c.S| - 1
  {
    seq(|c.S| - 1, h requires 0 <= h < |c.S| - 1 =>
      assert StripeOk(c, s0, s, B, k, cls, h); AddsOf(s0[At(c, |s0|, B, h)..At(c, |s0|, B, h + 1)], cls, k))
  }

  lemma {:induction false} TotalIsAdded<T(!new)>(
      c: Stripes<T>, s0: seq<T>, s: seq<T>, B: nat, k: nat, cls: T -> nat, i: nat, h: nat)
    requires AllClassified(c, s0, s, B, k, cls) && h < |c.S| && i <= k
    requires forall g :: 0 <= g < |c.S| - 1 ==> c.S[g] <= c.S[g + 1]
    ensures Total(Joined(AllAdds(c, s0, s, B, k, cls)[..h]), i) == Added(c, s0, B, cls, i, h)
  {
    var lists := AllAdds(c, s0, s, B, k, cls);
    if h == 0 {
      assert Joined(lists[..0]) == [];
    } else {
      TotalIsAdded(c, s0, s, B, k, cls, i, h - 1);
      assert StripeOk(c, s0, s, B, k, cls, h - 1);
      var part := s0[At(c, |s0|, B, h - 1)..At(c, |s0|, B, h)];
      assert lists[h - 1] == AddsOf(part, cls, k);
      assert Added(c, s0, B, cls, i, h) == Added(c, s0, B, cls, i, h - 1) + Count(part, Below(cls, i));
      hide *;
      JoinedNext(lists, h - 1);
      TotalConcat(Joined(lists[..h - 1]), lists[h - 1], i);
      TotalOfThread(part, cls, k, i);
      if i == 0 { BelowNone(part, cls); }
    }
  }

  lemma BelowNone<T>(s0: seq<T>, cls: T -> nat)
    ensures Count(s0, Below(cls, 0)) == 0
  {
    CountNone(s0, Below(cls, 0));
  }

  /** Whatever the interleaving of the threads' additions, they leave the bucket boundaries of the range. */
  lemma AdditionsInAnyOrder<T(!new)>(
      c: Stripes<T>, s0: seq<T>, s: seq<T>, B: nat, k: nat, cls: T -> nat, order: seq<Add>)
    requires AllClassified(c, s0, s, B, k, cls) && multiset(order) == BagOf(AllAdds(c, s0, s, B, k, cls))
    ensures var bs := AfterAdds(seq(k + 1, i => 0), order);
      |bs| == k + 1 && Boundaries(bs, |s0|) && forall i :: 0 <= i < k ==> SizeOf(bs, i) == Count(s0, Has(cls, i))
  {
    var lists, zero, n := AllAdds(c, s0, s, B, k, cls), seq(k + 1, i => 0), |c.S| - 1;
    var bs := AfterAdds(zero, order);
    forall g | 0 <= g < |c.S| - 1 ensures c.S[g] <= c.S[g + 1] { assert StripeOk(c, s0, s, B, k, cls, g); }
    JoinedBag(lists);
    hide AfterAdds, AllAdds, StripeOk, Total;
    forall i | 0 <= i <= k ensures bs[i] == Added(c, s0, B, cls, i, n) {
      AfterAddsAt(zero, order, i);
      TotalOfBag(order, Joined(lists), i);
      assert lists[..n] == lists;
      TotalIsAdded(c, s0, s, B, k, cls, i, n);
    }
    SumsAreBoundaries(c, s0, s, B, k, cls, bs);
  }

  // ---------------------------------------------------------------- blocks and buffers of all stripes

  /** The slots of the first h stripes. */
  ghost function StripeBlocks<T(!new)>(
      c: Stripes<T>, s0: seq<T>, s: seq<T>, B: nat, k: nat, cls: T -> nat, h: nat): (r: seq<Option<seq<T>>>)
    requires AllClassified(c, s0, s, B, k, cls) && h < |c.S|
    ensures |r| == c.S[h]
  {
    if h == 0 then []
    else
      assert StripeOk(c, s0, s, B, k, cls, h - 1);
      StripeBlocks(c, s0, s, B, k, cls, h - 1) + OwnBlocks(c, s0, s, B, k, cls, h - 1)
  }

  /** The slots of stripe h. */
  ghost function OwnBlocks<T(!new)>(
      c: Stripes<T>, s0: seq<T>, s: seq<T>, B: nat, k: nat, cls: T -> nat, h: nat): (r: seq<Option<seq<T>>>)
    requires h < |c.flushed| == |c.bufs| == |c.sizes| && |c.S| == |c.flushed| + 1 && |s| == |s0|
    requires StripeOk(c, s0, s, B, k, cls, h)
    ensures |r| == c.S[h + 1] - c.S[h]
  {
    FlushedBlocks(s[At(c, |s0|, B, h)..At(c, |s0|, B, h + 1)], B, |c.flushed[h]|, c.S[h + 1] - c.S[h])
  }

  /** The buffers of the first h threads, bucket by bucket. */
  ghost function StripeBuffers<T>(c: Stripes<T>, k: nat, h: nat): (r: seq<seq<T>>)
    requires h <= |c.bufs| && forall g :: 0 <= g < |c.bufs| ==> |c.bufs[g]| == k
    ensures |r| == k
  {
    if h == 0 then seq(k, i => []) else Zip(StripeBuffers(c, k, h - 1), c.bufs[h - 1])
  }

  /** Bucket i: the buffers that the threads write one after the other. */
  lemma {:induction false} BucketBuffers<T>(c: Stripes<T>, k: nat, h: nat, i: nat)
    requires h <= |c.bufs| && i < k && forall g :: 0 <= g < |c.bufs| ==> |c.bufs[g]| == k
    ensures StripeBuffers(c, k, h)[i] == Joined(seq(h, g requires 0 <= g < h => c.bufs[g][i]))
  {
    if h > 0 {
      BucketBuffers(c, k, h - 1, i);
      var all := seq(h, g requires 0 <= g < h => c.bufs[g][i]);
      assert all[..h - 1] == seq(h - 1, g requires 0 <= g < h - 1 => c.bufs[g][i]) && all[..h] == all;
      JoinedNext(all, h - 1);
    }
  }

  /** The blocks of a thread fit into its stripe. */
  lemma StripeFits<T(!new)>(c: Stripes<T>, s0: seq<T>, s: seq<T>, B: nat, k: nat, cls: T -> nat, h: nat)
    requires B > 0 && h < |c.flushed| == |c.bufs| == |c.sizes| && |c.S| == |c.flushed| + 1 && |s| == |s0|
    requires StripeOk(c, s0, s, B, k, cls, h)
    ensures At(c, |s0|, B, h) + |c.flushed[h]| * B <= At(c, |s0|, B, h + 1) <= c.S[h + 1] * B
    ensures |c.flushed[h]| <= c.S[h + 1] - c.S[h]
  {
    var lo, hi := At(c, |s0|, B, h), At(c, |s0|, B, h + 1);
    ProgressFacts(s0[lo..hi], s[lo..hi], B, c.flushed[h], c.bufs[h], c.sizes[h], cls);
    hide Progress;
    SlotsFit(c.S[h], c.S[h + 1], |c.flushed[h]|, B, hi);
  }

  lemma SlotsFit(x: nat, y: nat, e: nat, B: nat, hi: nat)
    requires B > 0 && x < y && x * B + e * B <= hi <= y * B
    ensures e <= y - x
  {
    Distribute(x, e, B);
    if e > y - x { MulLess(y, x + e, B); }
  }

  lemma PartConcat<T(!new)>(
      s: seq<T>, s': seq<T>, x: seq<Option<seq<T>>>, x': seq<Option<seq<T>>>, B: nat, bufs: seq<seq<T>>,
      bufs': seq<seq<T>>, cls: T -> nat)
    requires PartStored(s, x, B, bufs, cls) && PartStored(s', x', B, bufs', cls) && |bufs| == |bufs'|
    ensures PartStored(s + s', x + x', B, Zip(bufs, bufs'), cls)
  {
    hide PureBlock, Flat, BagOf, Count, BucketPart;
    FlatConcat(x, x');
    ZipBag(bufs, bufs');
    RegroupBags(multiset(Flat(x)), multiset(Flat(x')), BagOf(bufs), BagOf(bufs'));
    forall i | 0 <= i < |bufs| ensures BucketPart(x + x', B, Zip(bufs, bufs')[i], cls, i, Count(s + s', Has(cls, i))) {
      BucketConcat(s, s', x, x', B, bufs[i], bufs'[i], cls, i);
    }
  }

  lemma BucketConcat<T(!new)>(
      s: seq<T>, s': seq<T>, x: seq<Option<seq<T>>>, x': seq<Option<seq<T>>>, B: nat, buf: seq<T>, buf': seq<T>,
      cls: T -> nat, i: nat)
    requires BucketPart(x, B, buf, cls, i, Count(s, Has(cls, i)))
      && BucketPart(x', B, buf', cls, i, Count(s', Has(cls, i)))
    ensures BucketPart(x + x', B, buf + buf', cls, i, Count(s + s', Has(cls, i)))
  {
    var f := IsOf(HeadClass(cls), i);
    CountConcat(s, s', Has(cls, i));
    CountConcat(x, x', f);
    Distribute(Count(x, f), Count(x', f), B);
    hide Count;
  }

  lemma Distribute(a: nat, b: nat, B: nat)
    ensures (a + b) * B == a * B + b * B
  {
  }

  lemma NothingStored<T(!new)>(B: nat, k: nat, cls: T -> nat)
    ensures PartStored([], [], B, seq(k, i => []), cls)
  {
    AllEmpty(seq<seq<T>>(k, i => []));
    assert multiset(Flat<T>([])) == multiset([]);
  }

  lemma PartNext<T(!new)>(
      s0: seq<T>, lo: nat, hi: nat, x: seq<Option<seq<T>>>, x': seq<Option<seq<T>>>, B: nat, bufs: seq<seq<T>>,
      bufs': seq<seq<T>>, cls: T -> nat)
    requires lo <= hi <= |s0| && |bufs| == |bufs'|
    requires PartStored(s0[..lo], x, B, bufs, cls) && PartStored(s0[lo..hi], x', B, bufs', cls)
    ensures PartStored(s0[..hi], x + x', B, Zip(bufs, bufs'), cls)
  {
    hide PartStored;
    PartConcat(s0[..lo], s0[lo..hi], x, x', B, bufs, bufs', cls);
    NextPart(s0, lo, hi);
  }

  lemma OwnStored<T(!new)>(
      c: Stripes<T>, s0: seq<T>, s: seq<T>, B: nat, k: nat, cls: T -> nat, h: nat)
    requires AllClassified(c, s0, s, B, k, cls) && h < |c.flushed|
    ensures StripeOk(c, s0, s, B, k, cls, h) && At(c, |s0|, B, h) <= At(c, |s0|, B, h + 1)
    ensures PartStored(s0[At(c, |s0|, B, h)..At(c, |s0|, B, h + 1)], OwnBlocks(c, s0, s, B, k, cls, h), B, c.bufs[h],
      cls)
  {
    assert StripeOk(c, s0, s, B, k, cls, h);
    StripeFits(c, s0, s, B, k, cls, h);
    var lo, hi := At(c, |s0|, B, h), At(c, |s0|, B, h + 1);
    hide PartStored, Progress;
    StripeStored(s0[lo..hi], s[lo..hi], B, c.flushed[h], c.bufs[h], c.sizes[h], cls, c.S[h + 1] - c.S[h]);
  }

  lemma StripesNext<T(!new)>(
      c: Stripes<T>, s0: seq<T>, s: seq<T>, B: nat, k: nat, cls: T -> nat, h: nat)
    requires AllClassified(c, s0, s, B, k, cls) && h < |c.flushed| && forall g :: 0 <= g < |c.bufs| ==> |c.bufs[g]| == k
    ensures StripeOk(c, s0, s, B, k, cls, h)
    ensures StripeBlocks(c, s0, s, B, k, cls, h + 1) == StripeBlocks(c, s0, s, B, k, cls, h)
      + OwnBlocks(c, s0, s, B, k, cls, h)
    ensures StripeBuffers(c, k, h + 1) == Zip(StripeBuffers(c, k, h), c.bufs[h])
  {
    assert StripeOk(c, s0, s, B, k, cls, h);
    hide StripeOk, OwnBlocks, Zip;
  }

  /** Blocks and buffers of the first h stripes hold the elements up to there. */
  lemma {:induction false} StripesUpTo<T(!new)>(
      c: Stripes<T>, s0: seq<T>, s: seq<T>, B: nat, k: nat, cls: T -> nat, h: nat)
    requires AllClassified(c, s0, s, B, k, cls) && h < |c.S|
    ensures forall g :: 0 <= g < |c.bufs| ==> |c.bufs[g]| == k
    ensures PartStored(s0[..At(c, |s0|, B, h)], StripeBlocks(c, s0, s, B, k, cls, h), B, StripeBuffers(c, k, h), cls)
  {
    hide *;
    BuffersFit(c, s0, s, B, k, cls);
    if h == 0 {
      StripesNone(c, s0, s, B, k, cls);
    } else {
      StripesUpTo(c, s0, s, B, k, cls, h - 1);
      StripesStep(c, s0, s, B, k, cls, h - 1);
    }
  }

  lemma BuffersFit<T(!new)>(c: Stripes<T>, s0: seq<T>, s: seq<T>, B: nat, k: nat, cls: T -> nat)
    requires AllClassified(c, s0, s, B, k, cls)
    ensures forall g :: 0 <= g < |c.bufs| ==> |c.bufs[g]| == k
    ensures |c.flushed| == |c.bufs| == |c.sizes| && |c.S| == |c.flushed| + 1 && |s| == |s0|
  {
    forall g | 0 <= g < |c.bufs| ensures |c.bufs[g]| == k { assert StripeOk(c, s0, s, B, k, cls, g); }
  }

  lemma StripesNone<T(!new)>(c: Stripes<T>, s0: seq<T>, s: seq<T>, B: nat, k: nat, cls: T -> nat)
    requires AllClassified(c, s0, s, B, k, cls) && forall g :: 0 <= g < |c.bufs| ==> |c.bufs[g]| == k
    ensures PartStored(s0[..At(c, |s0|, B, 0)], StripeBlocks(c, s0, s, B, k, cls, 0), B, StripeBuffers(c, k, 0), cls)
  {
    hide PartStored, StripeOk;
    assert s0[..0] == [];
    NothingStored(B, k, cls);
  }

  lemma StripesStep<T(!new)>(c: Stripes<T>, s0: seq<T>, s: seq<T>, B: nat, k: nat, cls: T -> nat, h: nat)
    requires AllClassified(c, s0, s, B, k, cls) && h + 1 < |c.S| && forall g :: 0 <= g < |c.bufs| ==> |c.bufs[g]| == k
    requires PartStored(s0[..At(c, |s0|, B, h)], StripeBlocks(c, s0, s, B, k, cls, h), B, StripeBuffers(c, k, h), cls)
    ensures PartStored(s0[..At(c, |s0|, B, h + 1)], StripeBlocks(c, s0, s, B, k, cls, h + 1), B,
      StripeBuffers(c, k, h + 1), cls)
  {
    hide *;
    BuffersFit(c, s0, s, B, k, cls);
    OwnStored(c, s0, s, B, k, cls, h);
    StripesNext(c, s0, s, B, k, cls, h);
    PartNext(s0, At(c, |s0|, B, h), At(c, |s0|, B, h + 1), StripeBlocks(c, s0, s, B, k, cls, h),
             OwnBlocks(c, s0, s, B, k, cls, h), B, StripeBuffers(c, k, h), c.bufs[h], cls);
  }

  // ---------------------------------------------------------------- as the slots of the whole range

  /** The stripes, in the form that the movement of empty blocks takes them. */
  lemma StripesLayout<T(!new)>(
      c: Stripes<T>, s0: seq<T>, s: seq<T>, B: nat, k: nat, cls: T -> nat, bs: seq<nat>)
    requires AllClassified(c, s0, s, B, k, cls) && |bs| == k + 1 && Boundaries(bs, |s0|)
    ensures EmptyBlocks.Layout(c.S, c.E(), Starts(bs, B), |s0| / B != Blocks(|s0|, B))
  {
    StartsRise(bs, |s0|, B);
    WholeBlocks(|s0|, B);
    var E, last := c.E(), |c.flushed| - 1;
    forall h | 0 <= h < |E| ensures c.S[h] < c.S[h + 1] && c.S[h] <= E[h] <= c.S[h + 1] {
      assert StripeOk(c, s0, s, B, k, cls, h);
      StripeFits(c, s0, s, B, k, cls, h);
    }
    assert StripeOk(c, s0, s, B, k, cls, last);
    StripeFits(c, s0, s, B, k, cls, last);
    hide StripeOk, Rising;
    if |s0| / B != Blocks(|s0|, B) {
      Distribute(c.S[last], |c.flushed[last]|, B);
      if E[last] == c.S[last + 1] { MulLess(|s0| / B, E[last], B); }
    }
    forall i | 0 <= i < k ensures Starts(bs, B)[i] <= Starts(bs, B)[i + 1] { StartsMono(bs, |s0|, B, i, i + 1); }
  }

  /** A slot of stripe h. */
  lemma SlotOfStripe<T(!new)>(
      c: Stripes<T>, s0: seq<T>, s: seq<T>, B: nat, k: nat, cls: T -> nat, h: nat, q: nat)
    requires AllClassified(c, s0, s, B, k, cls) && h < |c.flushed| && c.S[h] <= q < c.S[h + 1]
    ensures StripeOk(c, s0, s, B, k, cls, h) && (|s0| / B) * B <= |s0|
    ensures q < c.E()[h] ==> q < |s0| / B
    ensures OwnBlocks(c, s0, s, B, k, cls, h)[q - c.S[h]]
         == if q < c.E()[h] && q < |s0| / B then Some(BlockAt(s, 0, |s0| / B, B, q)) else None
  {
    assert StripeOk(c, s0, s, B, k, cls, h);
    StripeFits(c, s0, s, B, k, cls, h);
    WholeBlocks(|s0|, B);
    var lo, hi, r := At(c, |s0|, B, h), At(c, |s0|, B, h + 1), q - c.S[h];
    hide AllClassified, StripeOk, Progress;
    Distribute(c.S[h], r, B);
    if r < |c.flushed[h]| {
      MulLess(r, |c.flushed[h]|, B);
      QuotientCompare(|s0|, B, q + 1);
      Distribute(q, 1, B);
      SliceOfSlice(s, lo, hi, r * B, r * B + B);
    }
  }

  lemma {:induction false} AllSlots<T(!new)>(
      c: Stripes<T>, s0: seq<T>, s: seq<T>, B: nat, k: nat, cls: T -> nat, h: nat, g: nat, q: nat)
    requires AllClassified(c, s0, s, B, k, cls) && g < h < |c.S| && c.S[g] <= q < c.S[g + 1]
    ensures StripeOk(c, s0, s, B, k, cls, g)
    ensures q < c.S[h] && StripeBlocks(c, s0, s, B, k, cls, h)[q] == OwnBlocks(c, s0, s, B, k, cls, g)[q - c.S[g]]
    decreases h
  {
    assert StripeOk(c, s0, s, B, k, cls, h - 1) && StripeOk(c, s0, s, B, k, cls, g);
    hide StripeOk;
    if g < h - 1 { AllSlots(c, s0, s, B, k, cls, h - 1, g, q); }
  }

  /** The slots of all stripes are the slots of the range, full where a thread flushed a block. */
  lemma SlotsOfRange<T(!new)>(
      c: Stripes<T>, s0: seq<T>, s: seq<T>, B: nat, k: nat, cls: T -> nat, bs: seq<nat>)
    requires AllClassified(c, s0, s, B, k, cls) && |bs| == k + 1 && Boundaries(bs, |s0|)
    ensures (|s0| / B) * B <= |s0|
    ensures StripeBlocks(c, s0, s, B, k, cls, |c.flushed|)
         == ParallelBlocks.FullBlocks(BlocksOf(s, 0, |s0| / B, B), EmptyBlocks.FullSlots(c.S, c.E()))
  {
    var A, partial := Starts(bs, B), |s0| / B != Blocks(|s0|, B);
    WholeBlocks(|s0|, B);
    StripesLayout(c, s0, s, B, k, cls, bs);
    var x, full := StripeBlocks(c, s0, s, B, k, cls, |c.flushed|), EmptyBlocks.FullSlots(c.S, c.E());
    var y := ParallelBlocks.FullBlocks(BlocksOf(s, 0, |s0| / B, B), full);
    assert c.S[0] == 0 && |x| == |y| == c.S[|c.flushed|];
    hide AllClassified, StripeBlocks, EmptyBlocks.Layout, EmptyBlocks.FullSlots, StripeOk;
    forall q | 0 <= q < |x| ensures x[q] == y[q] {
      var h := StripeIndex(c.S, c.E(), A, partial, q);
      EmptyBlocks.FullInStripe(c.S, c.E(), A, partial, h, q);
      AllSlots(c, s0, s, B, k, cls, |c.flushed|, h, q);
      SlotOfStripe(c, s0, s, B, k, cls, h, q);
    }
  }

  lemma StripeIndex(S: seq<nat>, E: seq<nat>, A: seq<nat>, partial: bool, q: nat) returns (h: nat)
    requires EmptyBlocks.Layout(S, E, A, partial) && q < S[|E|]
    ensures h < |E| && S[h] <= q < S[h + 1]
  {
    h := StripeOf(S, S[|E|], q, |E|);
  }

  /**
   * What the threads' classification leaves: every element of the range is in a flushed block or in a buffer;
   * all threads' buffers of a bucket, taken together, are not empty unless the bucket is.
   */
  lemma StripesStored<T(!new)>(
      c: Stripes<T>, s0: seq<T>, s: seq<T>, B: nat, k: nat, cls: T -> nat, bs: seq<nat>)
    requires AllClassified(c, s0, s, B, k, cls) && |bs| == k + 1 && Boundaries(bs, |s0|)
    requires forall i :: 0 <= i < k ==> SizeOf(bs, i) == Count(s0, Has(cls, i))
    ensures (|s0| / B) * B <= |s0| && forall g :: 0 <= g < |c.bufs| ==> |c.bufs[g]| == k
    ensures Stored(s0, ParallelBlocks.FullBlocks(BlocksOf(s, 0, |s0| / B, B), EmptyBlocks.FullSlots(c.S, c.E())), B, bs,
                   StripeBuffers(c, k, |c.bufs|), cls)
  {
    var h := |c.flushed|;
    SlotsOfRange(c, s0, s, B, k, cls, bs);
    StripesUpTo(c, s0, s, B, k, cls, h);
    assert At(c, |s0|, B, h) == |s0| && s0[..|s0|] == s0;
    hide PartStored, Stored, StripeOk;
    StoredWhen(s0, StripeBlocks(c, s0, s, B, k, cls, h), B, bs, StripeBuffers(c, k, h), cls);
  }
}
