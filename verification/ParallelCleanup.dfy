/**
 * The effect of the parallel out-of-place cleanup: the threads' actions, in any order whatsoever, leave the
 * range as the sequential cleanup would.
 */
module ParallelCleanup {
  import opened Order
  import opened Bags
  import opened BaseCase
  import opened Buffers
  import opened Buckets
  import opened PingPong
  import opened EqualityCleanup

  datatype Action = SortAndMove(bucket: nat) | Move(range: Range)

  /** The target array of the distribution and the other one, from which the range was distributed. */
  datatype Memory<T> = Memory(tmp: seq<T>, out: seq<T>)

  /** Bucket boundaries, and what the threads know of the partitioning step; sort is the base case sorter. */
  datatype Setting<!T(!new)> =
    Setting(bs: seq<nat>, n: nat, equal: bool, inInput: bool, base: nat, lastLevel: bool, sort: seq<T> -> seq<T>)
  {
    ghost predicate Ok() {
      && |bs| > 1 && Boundaries(bs, n) && (equal ==> Cut(bs, n))
      && forall p :: |sort(p)| == |p|
    }

    /** Equality buckets are not sorted. */
    predicate Skipped(b: nat)
      requires |bs| > 0
    {
      equal && Equality(b, |bs| - 1)
    }

    predicate Small(b: nat)
      requires b + 1 < |bs|
    {
      lastLevel || bs[b + 1] - bs[b] <= 2 * base
    }

    ghost predicate Allows(a: Action)
      requires |bs| > 0
    {
      match a
      case SortAndMove(b) => b + 1 < |bs| && !Skipped(b)
      case Move(r) => equal && InsideEquality(bs, r)
    }

    ghost predicate Fits(m: Memory<T>) { |m.tmp| == |m.out| == n }
  }

  ghost function Replace<T>(s: seq<T>, lo: nat, hi: nat, x: seq<T>): (t: seq<T>)
    requires lo <= hi <= |s| && |x| == hi - lo
    ensures |t| == |s|
  {
    s[..lo] + x + s[hi..]
  }

  lemma RangeInside(bs: seq<nat>, n: nat, r: Range)
    requires Boundaries(bs, n) && |bs| > 0 && InsideEquality(bs, r)
    ensures r.lo <= r.hi <= n
  {
    var b: nat :| b + 1 < |bs| && Equality(b, |bs| - 1) && bs[b] <= r.lo <= r.hi <= bs[b + 1];
    BoundaryMono(bs, n, b + 1, |bs| - 1);
  }

  /**
   * Effect of one action; large buckets are left in the target array, small ones and the elements of equality
   * buckets are copied to the other array if the result belongs there.
   */
  ghost function Apply<T(!new)>(g: Setting<T>, m: Memory<T>, a: Action): (m': Memory<T>)
    requires g.Ok() && g.Fits(m) && g.Allows(a)
    ensures g.Fits(m')
  {
    match a
    case SortAndMove(b) =>
      if g.Small(b) then
        BoundaryMono(g.bs, g.n, b, b + 1);
        var x := g.sort(m.tmp[g.bs[b]..g.bs[b + 1]]);
        Memory(Replace(m.tmp, g.bs[b], g.bs[b + 1], x),
          if g.inInput then Replace(m.out, g.bs[b], g.bs[b + 1], x) else m.out)
      else m
    case Move(r) =>
      RangeInside(g.bs, g.n, r);
      if g.inInput then Memory(m.tmp, Replace(m.out, r.lo, r.hi, m.tmp[r.lo..r.hi])) else m
  }

  ghost predicate Legal<T(!new)>(g: Setting<T>, acts: seq<Action>)
    requires |g.bs| > 0
  {
    forall j :: 0 <= j < |acts| ==> g.Allows(acts[j])
  }

  ghost function Run<T(!new)>(g: Setting<T>, m: Memory<T>, acts: seq<Action>): (m': Memory<T>)
    requires g.Ok() && g.Fits(m) && Legal(g, acts)
    ensures g.Fits(m')
    decreases |acts|
  {
    if acts == [] then m else Run(g, Apply(g, m, acts[0]), acts[1..])
  }

  // ---------------------------------------------------------------- one bucket

  ghost function Sorts(b: nat): Action -> bool { a => a == SortAndMove(b) }

  ghost predicate Covers(acts: seq<Action>, p: nat) {
    exists j :: 0 <= j < |acts| && acts[j].Move? && acts[j].range.lo <= p < acts[j].range.hi
  }

  lemma ReplaceAt<T>(s: seq<T>, lo: nat, hi: nat, x: seq<T>, p: nat)
    requires lo <= hi <= |s| && |x| == hi - lo && p < |s|
    ensures Replace(s, lo, hi, x)[p] == if lo <= p < hi then x[p - lo] else s[p]
  {
  }

  /** A range that is moved lies in an equality bucket. */
  lemma MovedBucket<T(!new)>(g: Setting<T>, r: Range, b: nat, p: nat)
    requires g.Ok() && g.Allows(Move(r)) && b + 1 < |g.bs| && g.bs[b] <= p < g.bs[b + 1] && r.lo <= p < r.hi
    ensures g.Skipped(b)
  {
    var bs := g.bs;
    var c: nat :| c + 1 < |bs| && Equality(c, |bs| - 1) && bs[c] <= r.lo <= r.hi <= bs[c + 1];
    BucketUnique(bs, g.n, p, b, c);
  }

  /** An action on another bucket leaves a position alone. */
  lemma OtherBucket<T(!new)>(g: Setting<T>, m: Memory<T>, a: Action, b: nat, p: nat)
    requires g.Ok() && g.Fits(m) && g.Allows(a)
    requires b + 1 < |g.bs| && g.bs[b] <= p < g.bs[b + 1] && a != SortAndMove(b)
    ensures p < g.n && Apply(g, m, a).tmp[p] == m.tmp[p]
    ensures Apply(g, m, a).out[p] ==
      if g.inInput && a.Move? && a.range.lo <= p < a.range.hi then m.tmp[p] else m.out[p]
    ensures a.Move? && a.range.lo <= p < a.range.hi ==> g.Skipped(b)
  {
    var bs, n := g.bs, g.n;
    BoundaryMono(bs, n, b + 1, |bs| - 1);
    hide Replace;
    match a
    case SortAndMove(c) =>
      BoundaryMono(bs, n, c, c + 1);
      BoundaryMono(bs, n, c + 1, |bs| - 1);
      if bs[c] <= p < bs[c + 1] { BucketUnique(bs, n, p, b, c); }
      var x := g.sort(m.tmp[bs[c]..bs[c + 1]]);
      ReplaceAt(m.tmp, bs[c], bs[c + 1], x, p);
      ReplaceAt(m.out, bs[c], bs[c + 1], x, p);
    case Move(r) =>
      RangeInside(bs, n, r);
      ReplaceAt(m.out, r.lo, r.hi, m.tmp[r.lo..r.hi], p);
      if r.lo <= p < r.hi { MovedBucket(g, r, b, p); }
  }

  lemma CoversRest(acts: seq<Action>, p: nat)
    requires Covers(acts, p) && !(acts[0].Move? && acts[0].range.lo <= p < acts[0].range.hi)
    ensures Covers(acts[1..], p)
  {
    var j :| 0 <= j < |acts| && acts[j].Move? && acts[j].range.lo <= p < acts[j].range.hi;
    assert acts[1..][j - 1] == acts[j];
  }

  /** Elements of equality buckets stay in the target array, and once moved they are in the other one, too. */
  lemma {:induction false} EqualityResult<T(!new)>(g: Setting<T>, m: Memory<T>, acts: seq<Action>, b: nat, p: nat)
    requires g.Ok() && g.Fits(m) && Legal(g, acts) && b + 1 < |g.bs| && g.Skipped(b) && g.bs[b] <= p < g.bs[b + 1]
    ensures p < g.n && Run(g, m, acts).tmp[p] == m.tmp[p]
    ensures g.inInput && (Covers(acts, p) || m.out[p] == m.tmp[p]) ==> Run(g, m, acts).out[p] == m.tmp[p]
    decreases |acts|
  {
    BoundaryMono(g.bs, g.n, b + 1, |g.bs| - 1);
    if acts != [] {
      OtherBucket(g, m, acts[0], b, p);
      if Covers(acts, p) && !(acts[0].Move? && acts[0].range.lo <= p < acts[0].range.hi) { CoversRest(acts, p); }
      hide Setting.Ok, Setting.Skipped, Apply, Covers;
      EqualityResult(g, Apply(g, m, acts[0]), acts[1..], b, p);
    }
  }

  /** A bucket that is no equality bucket keeps its elements as long as it is not sorted. */
  lemma {:induction false} KeptUntilSorted<T(!new)>(g: Setting<T>, m: Memory<T>, acts: seq<Action>, b: nat, p: nat)
    requires g.Ok() && g.Fits(m) && Legal(g, acts) && b + 1 < |g.bs| && !g.Skipped(b) && g.bs[b] <= p < g.bs[b + 1]
    requires g.Small(b) ==> Count(acts, Sorts(b)) == 0
    ensures p < g.n && Run(g, m, acts).tmp[p] == m.tmp[p] && Run(g, m, acts).out[p] == m.out[p]
    decreases |acts|
  {
    BoundaryMono(g.bs, g.n, b + 1, |g.bs| - 1);
    if acts != [] {
      if acts[0] != SortAndMove(b) { OtherBucket(g, m, acts[0], b, p); }
      KeptUntilSorted(g, Apply(g, m, acts[0]), acts[1..], b, p);
    }
  }

  lemma OtherPieceKept<T(!new)>(g: Setting<T>, m: Memory<T>, a: Action, b: nat)
    requires g.Ok() && g.Fits(m) && g.Allows(a) && b + 1 < |g.bs| && a != SortAndMove(b)
    requires g.bs[b] <= g.bs[b + 1] <= g.n
    ensures Apply(g, m, a).tmp[g.bs[b]..g.bs[b + 1]] == m.tmp[g.bs[b]..g.bs[b + 1]]
  {
    forall q | g.bs[b] <= q < g.bs[b + 1] ensures Apply(g, m, a).tmp[q] == m.tmp[q] { OtherBucket(g, m, a, b, q); }
  }

  /** A small bucket that is sorted once ends up sorted where the result belongs. */
  lemma {:induction false} SortedResult<T(!new)>(g: Setting<T>, m: Memory<T>, acts: seq<Action>, b: nat, p: nat)
    requires g.Ok() && g.Fits(m) && Legal(g, acts) && b + 1 < |g.bs| && !g.Skipped(b)
    requires g.bs[b] <= p < g.bs[b + 1] <= g.n && g.Small(b) && Count(acts, Sorts(b)) == 1
    ensures var m' := Run(g, m, acts);
      (if g.inInput then m'.out else m'.tmp)[p] == g.sort(m.tmp[g.bs[b]..g.bs[b + 1]])[p - g.bs[b]]
    decreases |acts|
  {
    var m', lo, hi := Apply(g, m, acts[0]), g.bs[b], g.bs[b + 1];
    if acts[0] == SortAndMove(b) {
      KeptUntilSorted(g, m', acts[1..], b, p);
    } else {
      OtherPieceKept(g, m, acts[0], b);
      SortedResult(g, m', acts[1..], b, p);
    }
  }

  // ---------------------------------------------------------------- who does what

  /** Thread t sorts bucket b once, and nobody else sorts it. */
  ghost predicate OnlyBy(sorted: seq<seq<nat>>, t: nat, b: nat) {
    && t < |sorted| && Count(sorted[t], Is(b)) == 1
    && forall u :: 0 <= u < |sorted| && u != t ==> Count(sorted[u], Is(b)) == 0
  }

  ghost predicate SomeSorts(sorted: seq<seq<nat>>, b: nat) {
    exists t :: OnlyBy(sorted, t, b)
  }

  ghost predicate SomeMoves(moved: seq<seq<Range>>, p: nat) {
    exists t :: 0 <= t < |moved| && Moved(moved[t], p)
  }

  /** The threads together do everything that is to be done, and nothing else. */
  ghost predicate Shared<T(!new)>(g: Setting<T>, sorted: seq<seq<nat>>, moved: seq<seq<Range>>)
    requires |g.bs| > 0
  {
    && |sorted| == |moved|
    && (forall t, j :: 0 <= t < |sorted| && 0 <= j < |sorted[t]| ==> g.Allows(SortAndMove(sorted[t][j])))
    && (forall t, j :: 0 <= t < |moved| && 0 <= j < |moved[t]| ==> g.Allows(Move(moved[t][j])))
    && (forall b: nat :: b + 1 < |g.bs| && !g.Skipped(b) && g.bs[b] < g.bs[b + 1] ==> SomeSorts(sorted, b))
    && (forall b: nat, p: nat :: b + 1 < |g.bs| && g.Skipped(b) && g.bs[b] <= p < g.bs[b + 1] ==> SomeMoves(moved, p))
  }

  /** With equality buckets, the stripes decide. */
  lemma StripesShare<T(!new)>(g: Setting<T>, st: seq<nat>, sorted: seq<seq<nat>>, moved: seq<seq<Range>>)
    requires g.Ok() && g.equal && Stripes(st, g.n) && AllClean(g.bs, st, sorted, moved)
    ensures Shared(g, sorted, moved)
  {
    forall t, j | 0 <= t < |sorted| && 0 <= j < |sorted[t]| ensures g.Allows(SortAndMove(sorted[t][j])) {
      assert Cleans(g.bs, st[t], st[t + 1], sorted[t], moved[t]);
    }
    forall t, j | 0 <= t < |moved| && 0 <= j < |moved[t]| ensures g.Allows(Move(moved[t][j])) {
      assert Cleans(g.bs, st[t], st[t + 1], sorted[t], moved[t]);
    }
    forall b: nat | b + 1 < |g.bs| && !g.Skipped(b) && g.bs[b] < g.bs[b + 1] ensures SomeSorts(sorted, b) {
      var t := SortedByOneThread(g.bs, g.n, st, sorted, moved, b);
      assert OnlyBy(sorted, t, b);
    }
    forall b: nat, p: nat | b + 1 < |g.bs| && g.Skipped(b) && g.bs[b] <= p < g.bs[b + 1] ensures SomeMoves(moved, p) {
      var t := MovedBySomeThread(g.bs, g.n, st, sorted, moved, b, p);
    }
  }

  /** Without equality buckets, every thread sorts a block of consecutive buckets. */
  method SortBlock(numBuckets: nat, threads: nat, id: nat) returns (sorted: seq<nat>)
    requires threads > 0
    ensures BlockSorted(numBuckets, threads, id, sorted)
  {
    var perThread := (numBuckets + threads - 1) / threads;
    var first := StripeEnd(perThread, numBuckets, id, 0);
    var last := StripeEnd(perThread, numBuckets, id + 1, 0);
    sorted := [];
    NextStripeEnd(perThread, numBuckets, id);
    for i := first to last
      invariant forall j :: 0 <= j < |sorted| ==> sorted[j] < numBuckets
      invariant forall b: nat :: Count(sorted, Is(b)) == if first <= b < i then 1 else 0
    {
      CountMore(sorted, i);
      sorted := sorted + [i];
    }
  }

  lemma NextStripeEnd(stripe: nat, size: nat, id: nat)
    ensures StripeEnd(stripe, size, id, 0) <= StripeEnd(stripe, size, id + 1, 0)
  {
    StripesOrdered(stripe, id, id + 1);
  }

  ghost predicate BlockSorted(numBuckets: nat, threads: nat, id: nat, sorted: seq<nat>)
    requires threads > 0
  {
    var perThread := (numBuckets + threads - 1) / threads;
    && (forall j :: 0 <= j < |sorted| ==> sorted[j] < numBuckets)
    && forall b: nat :: Count(sorted, Is(b)) ==
         if StripeEnd(perThread, numBuckets, id, 0) <= b < StripeEnd(perThread, numBuckets, id + 1, 0) then 1 else 0
  }

  lemma BlockOf(numBuckets: nat, threads: nat, b: nat, sorted: seq<seq<nat>>) returns (t: nat)
    requires threads > 0 && b < numBuckets && |sorted| == threads
    requires forall u :: 0 <= u < threads ==> BlockSorted(numBuckets, threads, u, sorted[u])
    ensures OnlyBy(sorted, t, b)
  {
    var perThread := (numBuckets + threads - 1) / threads;
    assert numBuckets + threads - 1 == perThread * threads + (numBuckets + threads - 1) % threads;
    Factor(perThread, threads);
    t := InSomeStripe(perThread, threads, b);
    assert BlockSorted(numBuckets, threads, t, sorted[t]);
    forall u | 0 <= u < threads && u != t ensures Count(sorted[u], Is(b)) == 0 {
      assert BlockSorted(numBuckets, threads, u, sorted[u]);
      if u < t { StripesOrdered(perThread, u + 1, t); } else { StripesOrdered(perThread, t + 1, u); }
    }
  }

  lemma BlocksShare<T(!new)>(g: Setting<T>, sorted: seq<seq<nat>>, moved: seq<seq<Range>>)
    requires g.Ok() && !g.equal && |sorted| == |moved| > 0
    requires forall t :: 0 <= t < |sorted| ==> BlockSorted(|g.bs| - 1, |sorted|, t, sorted[t])
    requires forall t :: 0 <= t < |moved| ==> moved[t] == []
    ensures Shared(g, sorted, moved)
  {
    forall b: nat | b + 1 < |g.bs| ensures SomeSorts(sorted, b) {
      var t := BlockOf(|g.bs| - 1, |sorted|, b, sorted);
    }
    forall t, j | 0 <= t < |sorted| && 0 <= j < |sorted[t]| ensures g.Allows(SortAndMove(sorted[t][j])) {
      assert BlockSorted(|g.bs| - 1, |sorted|, t, sorted[t]);
    }
  }

  // ---------------------------------------------------------------- all threads, in any order

  ghost function Sortings(sorted: seq<nat>): seq<Action> {
    if sorted == [] then [] else [SortAndMove(sorted[0])] + Sortings(sorted[1..])
  }

  ghost function Moves(moved: seq<Range>): seq<Action> {
    if moved == [] then [] else [Move(moved[0])] + Moves(moved[1..])
  }

  /** The actions of all threads, thread by thread. */
  ghost function Actions(sorted: seq<seq<nat>>, moved: seq<seq<Range>>): (lists: seq<seq<Action>>)
    requires |sorted| == |moved|
    ensures |lists| == |sorted|
  {
    seq(|sorted|, t requires 0 <= t < |sorted| => Sortings(sorted[t]) + Moves(moved[t]))
  }

  lemma {:induction false} SortingsCount(sorted: seq<nat>, b: nat)
    ensures Count(Sortings(sorted), Sorts(b)) == Count(sorted, Is(b))
    ensures forall a :: a in Sortings(sorted) ==> a.SortAndMove? && a.bucket in sorted
  {
    if sorted != [] {
      SortingsCount(sorted[1..], b);
      CountConcat([SortAndMove(sorted[0])], Sortings(sorted[1..]), Sorts(b));
    }
  }

  lemma {:induction false} MovesOnly(moved: seq<Range>, b: nat)
    ensures Count(Moves(moved), Sorts(b)) == 0
    ensures forall a :: a in Moves(moved) ==> a.Move? && a.range in moved
    ensures forall r :: r in moved ==> Move(r) in Moves(moved)
  {
    if moved != [] {
      MovesOnly(moved[1..], b);
      CountConcat([Move(moved[0])], Moves(moved[1..]), Sorts(b));
    }
  }

  lemma ActionsCount(sorted: seq<seq<nat>>, moved: seq<seq<Range>>, t: nat, b: nat)
    requires t < |sorted| == |moved|
    ensures Count(Actions(sorted, moved)[t], Sorts(b)) == Count(sorted[t], Is(b))
  {
    SortingsCount(sorted[t], b);
    MovesOnly(moved[t], b);
    CountConcat(Sortings(sorted[t]), Moves(moved[t]), Sorts(b));
  }

  /** One of several lists holds the only element with property p. */
  lemma {:induction false} CountJoined<X>(lists: seq<seq<X>>, p: X -> bool, t: nat, c: nat)
    requires forall u :: 0 <= u < |lists| ==> Count(lists[u], p) == (if u == t then c else 0)
    ensures Count(Joined(lists), p) == if t < |lists| then c else 0
  {
    if lists != [] {
      CountConcat(lists[0], Joined(lists[1..]), p);
      if t > 0 { CountJoined(lists[1..], p, t - 1, c); } else { CountJoined(lists[1..], p, |lists|, 0); }
    }
  }

  ghost predicate Interleaves(acts: seq<Action>, sorted: seq<seq<nat>>, moved: seq<seq<Range>>) {
    |sorted| == |moved| && multiset(acts) == BagOf(Actions(sorted, moved))
  }

  lemma SortedOnce(acts: seq<Action>, sorted: seq<seq<nat>>, moved: seq<seq<Range>>, t: nat, b: nat)
    requires Interleaves(acts, sorted, moved) && OnlyBy(sorted, t, b)
    ensures Count(acts, Sorts(b)) == 1
  {
    var lists := Actions(sorted, moved);
    JoinedBag(lists);
    CountOfBag(acts, Joined(lists), Sorts(b));
    forall u | 0 <= u < |lists| ensures Count(lists[u], Sorts(b)) == (if u == t then 1 else 0) {
      ActionsCount(sorted, moved, u, b);
    }
    CountJoined(lists, Sorts(b), t, 1);
  }

  lemma AllLegal<T(!new)>(g: Setting<T>, acts: seq<Action>, sorted: seq<seq<nat>>, moved: seq<seq<Range>>)
    requires |g.bs| > 0 && Shared(g, sorted, moved) && Interleaves(acts, sorted, moved)
    ensures Legal(g, acts)
  {
    var lists := Actions(sorted, moved);
    forall j | 0 <= j < |acts| ensures g.Allows(acts[j]) {
      assert acts[j] in multiset(acts);
      var t, i := FromBag(lists, acts[j]);
      SortingsCount(sorted[t], 0);
      MovesOnly(moved[t], 0);
      assert lists[t][i] in Sortings(sorted[t]) || lists[t][i] in Moves(moved[t]);
    }
  }

  lemma AllCovered(acts: seq<Action>, sorted: seq<seq<nat>>, moved: seq<seq<Range>>, p: nat)
    requires Interleaves(acts, sorted, moved) && SomeMoves(moved, p)
    ensures Covers(acts, p)
  {
    var t :| 0 <= t < |moved| && Moved(moved[t], p);
    var j :| 0 <= j < |moved[t]| && moved[t][j].lo <= p < moved[t][j].hi;
    MovesOnly(moved[t], 0);
    var a, lists := Move(moved[t][j]), Actions(sorted, moved);
    assert a in lists[t];
    InBag(lists, t, a);
    assert a in multiset(acts);
  }

  /** The given actions are all actions of all threads, and these do what is to be done. */
  ghost predicate Complete<T(!new)>(g: Setting<T>, acts: seq<Action>, sorted: seq<seq<nat>>, moved: seq<seq<Range>>)
    requires |g.bs| > 0
  {
    Shared(g, sorted, moved) && Interleaves(acts, sorted, moved) && Legal(g, acts)
  }

  ghost function Result<T(!new)>(g: Setting<T>, m: Memory<T>): seq<T> { if g.inInput then m.out else m.tmp }

  lemma EqualityBucketResult<T(!new)>(
      g: Setting<T>, m: Memory<T>, acts: seq<Action>, sorted: seq<seq<nat>>, moved: seq<seq<Range>>, b: nat)
    requires g.Ok() && g.Fits(m) && Complete(g, acts, sorted, moved) && b + 1 < |g.bs| && g.Skipped(b)
    requires g.bs[b] <= g.bs[b + 1] <= g.n
    ensures Result(g, Run(g, m, acts))[g.bs[b]..g.bs[b + 1]] == m.tmp[g.bs[b]..g.bs[b + 1]]
  {
    var r := Result(g, Run(g, m, acts));
    forall p | g.bs[b] <= p < g.bs[b + 1] ensures r[p] == m.tmp[p] { EqualityAt(g, m, acts, sorted, moved, b, p); }
  }

  lemma EqualityAt<T(!new)>(
      g: Setting<T>, m: Memory<T>, acts: seq<Action>, sorted: seq<seq<nat>>, moved: seq<seq<Range>>, b: nat, p: nat)
    requires g.Ok() && g.Fits(m) && Complete(g, acts, sorted, moved) && b + 1 < |g.bs| && g.Skipped(b)
    requires g.bs[b] <= p < g.bs[b + 1] <= g.n
    ensures Result(g, Run(g, m, acts))[p] == m.tmp[p]
  {
    AllCovered(acts, sorted, moved, p);
    EqualityResult(g, m, acts, b, p);
  }

  lemma SmallBucketResult<T(!new)>(
      g: Setting<T>, m: Memory<T>, acts: seq<Action>, sorted: seq<seq<nat>>, moved: seq<seq<Range>>, b: nat)
    requires g.Ok() && g.Fits(m) && Complete(g, acts, sorted, moved) && b + 1 < |g.bs| && !g.Skipped(b) && g.Small(b)
    requires g.bs[b] < g.bs[b + 1] <= g.n
    ensures Result(g, Run(g, m, acts))[g.bs[b]..g.bs[b + 1]] == g.sort(m.tmp[g.bs[b]..g.bs[b + 1]])
  {
    var lo, hi := g.bs[b], g.bs[b + 1];
    assert SomeSorts(sorted, b);
    var t :| OnlyBy(sorted, t, b);
    SortedOnce(acts, sorted, moved, t, b);
    var r, x := Result(g, Run(g, m, acts)), g.sort(m.tmp[lo..hi]);
    forall p | lo <= p < hi ensures r[p] == x[p - lo] { SortedResult(g, m, acts, b, p); }
    assert r[lo..hi] == x;
  }

  lemma LargeBucketResult<T(!new)>(g: Setting<T>, m: Memory<T>, acts: seq<Action>, b: nat)
    requires g.Ok() && g.Fits(m) && Legal(g, acts) && b + 1 < |g.bs| && !g.Skipped(b) && !g.Small(b)
    requires g.bs[b] <= g.bs[b + 1] <= g.n
    ensures Run(g, m, acts).tmp[g.bs[b]..g.bs[b + 1]] == m.tmp[g.bs[b]..g.bs[b + 1]]
  {
    forall p | g.bs[b] <= p < g.bs[b + 1]
      ensures Run(g, m, acts).tmp[p] == m.tmp[p]
    {
      KeptUntilSorted(g, m, acts, b, p);
    }
  }

  ghost predicate SortsAll<T(!new)>(sort: seq<T> -> seq<T>, less: (T, T) -> bool) {
    forall p :: Sorted(sort(p), less) && multiset(sort(p)) == multiset(p)
  }

  /** The base case is such a sorter. */
  lemma BaseCaseSortsAll<T(!new)>(less: (T, T) -> bool)
    requires StrictWeakOrder(less)
    ensures SortsAll((s: seq<T>) => InsertionSorted(s, less), less)
  {
    forall p: seq<T>
      ensures Sorted(InsertionSorted(p, less), less) && multiset(InsertionSorted(p, less)) == multiset(p)
    {
      SortedByInsertion(p, less);
    }
  }

  /** The buckets that the cleanup finishes. */
  ghost function DoneBy<T(!new)>(g: Setting<T>): (done: set<nat>)
    requires |g.bs| > 0
    ensures forall i: nat :: i in done <==> i < |g.bs| - 1 && Finished(g.bs, i, g.base, g.lastLevel, g.equal)
  {
    set i: nat | i < |g.bs| - 1 && Finished(g.bs, i, g.base, g.lastLevel, g.equal)
  }

  /**
   * In whatever order the threads act, in the end every bucket is as the sequential cleanup leaves it:
   * small buckets and equality buckets are sorted where the result belongs, the others wait in the target.
   */
  lemma AnyOrder<T(!new)>(
      g: Setting<T>, m: Memory<T>, acts: seq<Action>, sorted: seq<seq<nat>>, moved: seq<seq<Range>>,
      less: (T, T) -> bool)
    requires g.Ok() && g.Fits(m) && Shared(g, sorted, moved) && Interleaves(acts, sorted, moved)
      && SortsAll(g.sort, less)
    requires StrictWeakOrder(less) && forall b: nat :: b + 1 < |g.bs| && g.Skipped(b) ==>
      UniformPiece(m.tmp, g.bs, less, b)
    ensures Legal(g, acts)
    ensures var m' := Run(g, m, acts); Sorting(m'.out, m'.tmp, m.tmp, g.bs, g.inInput, less, DoneBy(g))
  {
    AllLegal(g, acts, sorted, moved);
    var m' := Run(g, m, acts);
    forall b | 0 <= b < |g.bs| - 1
      ensures if b in DoneBy(g) then Settled(Result(g, m'), m.tmp, g.bs, less, b) else Pending(m'.tmp, m.tmp, g.bs, b)
    {
      OneBucket(g, m, acts, sorted, moved, less, b);
    }
  }

  lemma OneBucket<T(!new)>(
      g: Setting<T>, m: Memory<T>, acts: seq<Action>, sorted: seq<seq<nat>>, moved: seq<seq<Range>>,
      less: (T, T) -> bool,
      b: nat)
    requires g.Ok() && g.Fits(m) && Complete(g, acts, sorted, moved) && SortsAll(g.sort, less) && b + 1 < |g.bs|
    requires StrictWeakOrder(less) && (g.Skipped(b) ==> UniformPiece(m.tmp, g.bs, less, b))
    ensures var m' := Run(g, m, acts);
      if b in DoneBy(g) then Settled(Result(g, m'), m.tmp, g.bs, less, b) else Pending(m'.tmp, m.tmp, g.bs, b)
  {
    BoundaryMono(g.bs, g.n, b, b + 1);
    BoundaryMono(g.bs, g.n, b + 1, |g.bs| - 1);
    var m', lo, hi := Run(g, m, acts), g.bs[b], g.bs[b + 1];
    hide Complete, Shared, Interleaves, Legal, Apply, Run, Setting.Ok, Sorted;
    if g.Skipped(b) {
      EqualityBucketResult(g, m, acts, sorted, moved, b);
      UniformFacts(m.tmp, g.bs, less, b);
      UniformSorted(m.tmp[lo..hi], m.tmp[lo..hi], less);
    } else if g.Small(b) {
      if lo < hi {
        SmallBucketResult(g, m, acts, sorted, moved, b);
        SortedBy(g.sort, less, m.tmp[lo..hi]);
      } else {
        NothingToSort(Piece(Result(g, m'), g.bs, b), less);
      }
    } else {
      LargeBucketResult(g, m, acts, b);
    }
  }

  lemma SortedBy<T(!new)>(sort: seq<T> -> seq<T>, less: (T, T) -> bool, s: seq<T>)
    requires SortsAll(sort, less)
    ensures Sorted(sort(s), less) && multiset(sort(s)) == multiset(s)
  {
  }

  lemma NothingToSort<T(!new)>(s: seq<T>, less: (T, T) -> bool)
    requires s == []
    ensures Sorted(s, less)
  {
  }
}
