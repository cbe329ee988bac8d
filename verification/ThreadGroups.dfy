/** Assigning the buckets of a parallel partitioning step to groups of threads or to single threads. */
module ThreadGroups {
  import opened Powers
  import opened Config
  import opened Sampling
  import opened Buckets
  import opened TaskRun

  // ---------------------------------------------------------------- which threads

  /** The stripe boundary nearest to position p, as a thread index. */
  function Nearest(p: nat, stripe: nat): nat
    requires stripe > 0
  {
    (p + stripe / 2) / stripe
  }

  function Ceil(n: nat, k: nat): (r: nat)
    requires k > 0
    ensures n <= k * r < n + k && (n > 0 ==> r > 0)
  {
    var r := (n + k - 1) / k;
    assert n + k - 1 == k * r + (n + k - 1) % k;
    r
  }

  /** Boundary b of the stripes lies within half a stripe of p; a position in the middle is rounded up. */
  predicate Rounds(p: nat, stripe: nat, b: nat) {
    2 * p - stripe < 2 * (b * stripe) <= 2 * p + stripe
  }

  /** It is the nearest one, and the only one. */
  lemma NearestIs(p: nat, stripe: nat, b: nat)
    requires stripe > 0
    ensures b == Nearest(p, stripe) <==> Rounds(p, stripe, b)
  {
    var q, half := Nearest(p, stripe), stripe / 2;
    assert p + half == q * stripe + (p + half) % stripe;
    if b < q { MulLess(b, q, stripe); }
    if q < b { MulLess(q, b, stripe); }
  }

  lemma NearestMono(p: nat, q: nat, stripe: nat)
    requires stripe > 0 && p <= q
    ensures Nearest(p, stripe) <= Nearest(q, stripe)
  {
    QuotientCompare(p + stripe / 2, stripe, Nearest(p, stripe));
    QuotientCompare(q + stripe / 2, stripe, Nearest(p, stripe));
  }

  /** The whole input lies within the threads 0 .. threads - 1. */
  lemma NearestRoot(n: nat, threads: nat)
    requires threads > 0 && n > 0
    ensures Nearest(0, Ceil(n, threads)) == 0 && Nearest(n, Ceil(n, threads)) <= threads
  {
    var s := Ceil(n, threads);
    QuotientCompare(s / 2, s, 1);
    QuotientCompare(n + s / 2, s, threads + 1);
    assert (threads + 1) * s == threads * s + s;
  }

  /** The thread that gets the small task [lo, hi) of a parent of the given size. */
  function ThreadOf(lo: nat, hi: nat, size: nat, threads: nat): nat
    requires threads > 0 && lo <= hi && lo < size
  {
    (lo + (hi - lo) / 2) / Ceil(size, threads)
  }

  /** That is the thread whose stripe of the parent holds the middle of the task. */
  lemma ThreadOfMiddle(lo: nat, hi: nat, size: nat, threads: nat, t: nat)
    requires threads > 0 && lo <= hi && lo < size
    ensures t == ThreadOf(lo, hi, size, threads) <==> HoldsMiddle(lo, hi, Ceil(size, threads), t)
  {
    var m, stripe := lo + (hi - lo) / 2, Ceil(size, threads);
    var q := ThreadOf(lo, hi, size, threads);
    assert m == q * stripe + m % stripe;
    if t < q { MulLess(t, q, stripe); }
    if q < t { MulLess(q, t, stripe); }
  }

  /** The middle of [lo, hi) lies in stripe t; of two middles the lower one counts. */
  predicate HoldsMiddle(lo: nat, hi: nat, stripe: nat, t: nat)
    requires lo <= hi
  {
    t * stripe <= lo + (hi - lo) / 2 < t * stripe + stripe
  }

  /** A small task goes to a thread of its parent's group. */
  lemma SmallThread(lo: nat, hi: nat, size: nat, threads: nat)
    requires threads > 0 && lo < hi <= size
    ensures ThreadOf(lo, hi, size, threads) < threads
  {
    var p := lo + (hi - lo) / 2;
    QuotientCompare(p, Ceil(size, threads), threads);
  }

  // ---------------------------------------------------------------- queueing

  datatype BigTask = BigTask(begin: nat, end: nat, threadId: nat, root: nat, inInput: bool, hasTask: bool)

  /** A bucket's place: the threads first .. last - 1; a single thread gets it as a small task. */
  datatype Place = Place(bucket: nat, first: nat, last: nat)

  predicate Big(x: Place) { x.last > x.first + 1 }

  /** The parent task: its threads, its range in the input, and where its elements are. */
  datatype Parent = Parent(id: nat, threads: nat, offset: nat, size: nat, inInput: bool, stripe: nat)

  /** The parent's threads include all that its subtasks may be rounded to. */
  ghost predicate Fitting(pa: Parent, total: nat) {
    && pa.threads > 0 && pa.stripe > 0 && pa.id + pa.threads <= total
    && pa.id <= Nearest(pa.offset, pa.stripe) && Nearest(pa.offset + pa.size, pa.stripe) <= pa.id + pa.threads
  }

  function PlaceOf(pa: Parent, bs: seq<nat>, i: nat): Place
    requires i + 1 < |bs| && pa.stripe > 0 && pa.threads > 0 && bs[i] <= bs[i + 1] && bs[i] < pa.size
  {
    var first, last := Nearest(pa.offset + bs[i], pa.stripe), Nearest(pa.offset + bs[i + 1], pa.stripe);
    if last <= first + 1 then
      var thread := pa.id + ThreadOf(bs[i], bs[i + 1], pa.size, pa.threads);
      Place(i, thread, thread + 1)
    else Place(i, first, last)
  }

  /**
   * Where the source's rounding sends a bucket: to all threads between the stripe boundaries nearest to its ends, or,
   * if these leave at most one thread, to the thread whose stripe of the parent holds the bucket's middle.
   */
  ghost predicate RightPlace(x: Place, pa: Parent, bs: seq<nat>) {
    && x.bucket + 1 < |bs| && bs[x.bucket] <= bs[x.bucket + 1] && pa.threads > 0 && x.first < x.last
    && var lo, hi := bs[x.bucket], bs[x.bucket + 1];
       if Big(x) then
         Rounds(pa.offset + lo, pa.stripe, x.first) && Rounds(pa.offset + hi, pa.stripe, x.last)
       else
         && pa.id <= x.first && HoldsMiddle(lo, hi, Ceil(pa.size, pa.threads), x.first - pa.id)
         && SameOrNext(pa.offset + lo, pa.offset + hi, pa.stripe)
  }

  /** The boundaries nearest to p and q leave at most one thread between them. */
  ghost predicate SameOrNext(p: nat, q: nat, stripe: nat) {
    forall b: nat, c: nat :: Rounds(p, stripe, b) && Rounds(q, stripe, c) ==> c <= b + 1
  }

  lemma PlaceIsRight(pa: Parent, bs: seq<nat>, i: nat)
    requires i + 1 < |bs| && pa.stripe > 0 && pa.threads > 0 && bs[i] <= bs[i + 1] && bs[i] < pa.size
    ensures RightPlace(PlaceOf(pa, bs, i), pa, bs)
  {
    var lo, hi := pa.offset + bs[i], pa.offset + bs[i + 1];
    forall f: nat ensures f == Nearest(lo, pa.stripe) <==> Rounds(lo, pa.stripe, f) { NearestIs(lo, pa.stripe, f); }
    forall l: nat ensures l == Nearest(hi, pa.stripe) <==> Rounds(hi, pa.stripe, l) { NearestIs(hi, pa.stripe, l); }
    var t := ThreadOf(bs[i], bs[i + 1], pa.size, pa.threads);
    ThreadOfMiddle(bs[i], bs[i + 1], pa.size, pa.threads, t);
    hide Nearest, Rounds, ThreadOf, HoldsMiddle, Ceil;
  }

  /** A place never leaves the parent's group, and a big one again fits for its own subtasks. */
  lemma PlaceInside(pa: Parent, total: nat, bs: seq<nat>, i: nat)
    requires Fitting(pa, total) && i + 1 < |bs| && bs[i] < bs[i + 1] <= pa.size
    ensures var x := PlaceOf(pa, bs, i);
      && pa.id <= x.first < x.last <= pa.id + pa.threads
      && (Big(x) ==>
        Fitting(Parent(x.first, x.last - x.first, pa.offset + bs[i], bs[i + 1] - bs[i], !pa.inInput, pa.stripe), total))
  {
    hide Nearest, Ceil, ThreadOf;
    NearestMono(pa.offset, pa.offset + bs[i], pa.stripe);
    NearestMono(pa.offset + bs[i], pa.offset + bs[i + 1], pa.stripe);
    NearestMono(pa.offset + bs[i + 1], pa.offset + pa.size, pa.stripe);
    SmallThread(bs[i], bs[i + 1], pa.size, pa.threads);
  }

  /** Groups of different buckets have no thread in common. */
  lemma GroupsApart(pa: Parent, bs: seq<nat>, i: nat, j: nat)
    requires Boundaries(bs, pa.size) && i < j && j + 1 < |bs| && pa.stripe > 0 && pa.threads > 0
    requires bs[i] < bs[i + 1] && bs[j] < bs[j + 1]
    ensures bs[i] < pa.size && bs[j] < pa.size
    ensures var x, y := PlaceOf(pa, bs, i), PlaceOf(pa, bs, j); Big(x) && Big(y) ==> x.last <= y.first
  {
    BoundaryMono(bs, pa.size, i + 1, j);
    BoundaryMono(bs, pa.size, j + 1, |bs| - 1);
    NearestMono(pa.offset + bs[i + 1], pa.offset + bs[j], pa.stripe);
  }

  ghost predicate Large(bs: seq<nat>, i: nat, base: nat)
    requires i + 1 < |bs|
  {
    bs[i] + 2 * base < bs[i + 1]
  }

  /** The places of large buckets, the last bucket first. */
  ghost predicate Places(placed: seq<Place>, pa: Parent, bs: seq<nat>, base: nat)
    requires Boundaries(bs, pa.size) && pa.stripe > 0 && pa.threads > 0
  {
    && (forall j :: 0 <= j < |placed| ==> PlacedOk(placed[j], pa, bs, base))
    && (forall j, k :: 0 <= j < k < |placed| ==> placed[j].bucket > placed[k].bucket)
  }

  ghost predicate PlacedOk(x: Place, pa: Parent, bs: seq<nat>, base: nat)
    requires pa.stripe > 0 && pa.threads > 0
  {
    && x.bucket + 1 < |bs| && Large(bs, x.bucket, base) && bs[x.bucket + 1] <= pa.size
    && x == PlaceOf(pa, bs, x.bucket)
  }

  /** The task record of thread t for place x. */
  function Record(x: Place, pa: Parent, bs: seq<nat>, t: nat): BigTask
    requires x.bucket + 1 < |bs| && x.first <= t
  {
    BigTask(pa.offset + bs[x.bucket], pa.offset + bs[x.bucket + 1], t - x.first, x.first, !pa.inInput, true)
  }

  /** What thread t finds: its group's task, if it is in a group. */
  ghost predicate RecordOk(b: BigTask, placed: seq<Place>, pa: Parent, bs: seq<nat>, base: nat, t: nat)
    requires Boundaries(bs, pa.size) && pa.stripe > 0 && pa.threads > 0 && Places(placed, pa, bs, base)
  {
    && (b.hasTask ==> exists j :: 0 <= j < |placed| && GroupOf(placed[j], t))
    && (forall j :: 0 <= j < |placed| && GroupOf(placed[j], t) ==>
          PlacedOk(placed[j], pa, bs, base) && b == Record(placed[j], pa, bs, t))
  }

  ghost predicate GroupOf(x: Place, t: nat) { Big(x) && x.first <= t < x.last }

  /** The small tasks for thread t, in the order they are queued. */
  ghost function SmallTasksOf(placed: seq<Place>, pa: Parent, bs: seq<nat>, base: nat, t: nat): seq<Task>
    requires Boundaries(bs, pa.size) && pa.stripe > 0 && pa.threads > 0 && Places(placed, pa, bs, base)
  {
    if placed == [] then []
    else
      var n := |placed| - 1;
      assert PlacedOk(placed[n], pa, bs, base);
      SmallTasksOf(placed[..n], pa, bs, base, t)
      + (if !Big(placed[n]) && placed[n].first == t
         then [Task(pa.offset + bs[placed[n].bucket], pa.offset + bs[placed[n].bucket + 1], !pa.inInput)] else [])
  }

  /** The shared tables that all threads read: their big task, and their queue of small tasks. */
  ghost predicate Tables(
      big: seq<BigTask>, queues: seq<seq<Task>>, big0: seq<BigTask>, queues0: seq<seq<Task>>,
      placed: seq<Place>, pa: Parent, bs: seq<nat>, base: nat)
    requires Boundaries(bs, pa.size) && pa.stripe > 0 && pa.threads > 0 && Places(placed, pa, bs, base)
  {
    && |big| == |big0| == |queues| == |queues0|
    && (forall t :: 0 <= t < |big| ==>
         if pa.id <= t < pa.id + pa.threads then RecordOk(big[t], placed, pa, bs, base, t) else big[t] == big0[t])
    && (forall t :: 0 <= t < |big| ==> queues[t] == queues0[t] + SmallTasksOf(placed, pa, bs, base, t))
  }

  lemma NothingPlaced(
      big: seq<BigTask>, big0: seq<BigTask>, queues: seq<seq<Task>>, pa: Parent, bs: seq<nat>, base: nat)
    requires Boundaries(bs, pa.size) && pa.stripe > 0 && pa.threads > 0 && |big| == |big0| == |queues|
    requires forall t :: 0 <= t < |big| ==>
      if pa.id <= t < pa.id + pa.threads then !big[t].hasTask else big[t] == big0[t]
    ensures Places([], pa, bs, base) && Tables(big, queues, big0, queues, [], pa, bs, base)
  {
  }

  /** Clears the records of the parent's group. */
  method ClearRecords(big: array<BigTask>, id: nat, threads: nat)
    requires id + threads <= big.Length
    modifies big
    ensures forall t :: 0 <= t < big.Length ==>
      if id <= t < id + threads then !big[t].hasTask else big[t] == old(big[t])
  {
    for t := id to id + threads
      invariant forall u :: 0 <= u < big.Length ==> if id <= u < t then !big[u].hasTask else big[u] == old(big[u])
    {
      big[t] := big[t].(hasTask := false);
    }
  }

  /** Gives the task of a bucket to all threads of a group. */
  method AssignGroup(big: array<BigTask>, first: nat, last: nat, begin: nat, end: nat, inInput: bool)
    requires first <= last <= big.Length
    modifies big
    ensures forall t :: 0 <= t < big.Length ==>
      big[t] == if first <= t < last then BigTask(begin, end, t - first, first, inInput, true) else old(big[t])
  {
    for t := first to last
      invariant forall u :: 0 <= u < big.Length ==>
        big[u] == if first <= u < t then BigTask(begin, end, u - first, first, inInput, true) else old(big[u])
    {
      big[t] := BigTask(begin, end, t - first, first, inInput, true);
    }
  }

  lemma MorePlaces(placed: seq<Place>, pa: Parent, bs: seq<nat>, base: nat, i: nat, total: nat)
    requires Boundaries(bs, pa.size) && Fitting(pa, total) && Places(placed, pa, bs, base)
    requires i + 1 < |bs| && Large(bs, i, base) && forall j :: 0 <= j < |placed| ==> placed[j].bucket > i
    ensures bs[i] < bs[i + 1] <= pa.size && Places(placed + [PlaceOf(pa, bs, i)], pa, bs, base)
    ensures var x := PlaceOf(pa, bs, i); pa.id <= x.first < x.last <= pa.id + pa.threads
    ensures forall j :: 0 <= j < |placed| && Big(placed[j]) && Big(PlaceOf(pa, bs, i)) ==>
      PlaceOf(pa, bs, i).last <= placed[j].first
  {
    BoundaryMono(bs, pa.size, i + 1, |bs| - 1);
    PlaceInside(pa, total, bs, i);
    var more := placed + [PlaceOf(pa, bs, i)];
    forall j | 0 <= j < |more| ensures PlacedOk(more[j], pa, bs, base) {
      if j < |placed| { assert PlacedOk(placed[j], pa, bs, base); }
    }
    forall j | 0 <= j < |placed| && Big(placed[j]) && Big(PlaceOf(pa, bs, i))
      ensures PlaceOf(pa, bs, i).last <= placed[j].first
    {
      assert PlacedOk(placed[j], pa, bs, base);
      GroupsApart(pa, bs, i, placed[j].bucket);
    }
  }

  lemma TablesBig(
      big: seq<BigTask>, big': seq<BigTask>, queues: seq<seq<Task>>, big0: seq<BigTask>, queues0: seq<seq<Task>>,
      placed: seq<Place>, pa: Parent, bs: seq<nat>, base: nat, i: nat, total: nat)
    requires Boundaries(bs, pa.size) && Fitting(pa, total) && Places(placed, pa, bs, base) && total <= |big|
    requires Tables(big, queues, big0, queues0, placed, pa, bs, base)
    requires i + 1 < |bs| && Large(bs, i, base) && forall j :: 0 <= j < |placed| ==> placed[j].bucket > i
    requires bs[i] < bs[i + 1] <= pa.size && Big(PlaceOf(pa, bs, i)) && |big'| == |big|
    requires var x := PlaceOf(pa, bs, i); forall t :: 0 <= t < |big| ==>
      big'[t] == if x.first <= t < x.last then Record(x, pa, bs, t) else big[t]
    ensures Places(placed + [PlaceOf(pa, bs, i)], pa, bs, base)
    ensures Tables(big', queues, big0, queues0, placed + [PlaceOf(pa, bs, i)], pa, bs, base)
  {
    var x := PlaceOf(pa, bs, i);
    MorePlaces(placed, pa, bs, base, i, total);
    var more := placed + [x];
    assert more[..|placed|] == placed;
    forall t | 0 <= t < |big| && pa.id <= t < pa.id + pa.threads ensures RecordOk(big'[t], more, pa, bs, base, t) {
      assert RecordOk(big[t], placed, pa, bs, base, t);
      assert more[|placed|] == x;
      assert forall j :: 0 <= j < |placed| ==> more[j] == placed[j];
    }
  }

  lemma TablesSmall(
      big: seq<BigTask>, queues: seq<seq<Task>>, queues': seq<seq<Task>>, big0: seq<BigTask>, queues0: seq<seq<Task>>,
      placed: seq<Place>, pa: Parent, bs: seq<nat>, base: nat, i: nat, total: nat)
    requires Boundaries(bs, pa.size) && Fitting(pa, total) && Places(placed, pa, bs, base) && total <= |big|
    requires Tables(big, queues, big0, queues0, placed, pa, bs, base)
    requires i + 1 < |bs| && Large(bs, i, base) && forall j :: 0 <= j < |placed| ==> placed[j].bucket > i
    requires bs[i] < bs[i + 1] <= pa.size && !Big(PlaceOf(pa, bs, i)) && |queues'| == |queues|
    requires var x := PlaceOf(pa, bs, i); forall t :: 0 <= t < |queues| ==>
      queues'[t] == if t == x.first then queues[t] + [Task(pa.offset + bs[i], pa.offset + bs[i + 1], !pa.inInput)]
        else queues[t]
    ensures Places(placed + [PlaceOf(pa, bs, i)], pa, bs, base)
    ensures Tables(big, queues', big0, queues0, placed + [PlaceOf(pa, bs, i)], pa, bs, base)
  {
    var x := PlaceOf(pa, bs, i);
    MorePlaces(placed, pa, bs, base, i, total);
    var more := placed + [x];
    assert more[..|placed|] == placed && more[|placed|] == x;
    forall t | 0 <= t < |big| && pa.id <= t < pa.id + pa.threads ensures RecordOk(big[t], more, pa, bs, base, t) {
      RecordKept(big[t], placed, more, x, pa, bs, base, t);
    }
    hide RecordOk, Places, PlacedOk;
  }

  lemma RecordKept(
      b: BigTask, placed: seq<Place>, more: seq<Place>, x: Place, pa: Parent, bs: seq<nat>, base: nat, t: nat)
    requires Boundaries(bs, pa.size) && pa.stripe > 0 && pa.threads > 0
    requires Places(placed, pa, bs, base) && RecordOk(b, placed, pa, bs, base, t)
    requires more == placed + [x] && Places(more, pa, bs, base) && !GroupOf(x, t)
    ensures RecordOk(b, more, pa, bs, base, t)
  {
    assert forall j :: 0 <= j < |placed| ==> more[j] == placed[j];
    assert more[|placed|] == x;
  }

  /** Queues one bucket, as a big or a small task. */
  method QueueTask(
      big: array<BigTask>, queues: array<seq<Task>>, pa: Parent, bs: seq<nat>, i: nat, ghost placed: seq<Place>,
      ghost base: nat, ghost big0: seq<BigTask>, ghost queues0: seq<seq<Task>>)
      returns (ghost placed': seq<Place>)
    requires Boundaries(bs, pa.size) && Fitting(pa, big.Length) && Places(placed, pa, bs, base)
    requires (big as object) != queues
    requires Tables(big[..], queues[..], big0, queues0, placed, pa, bs, base)
    requires i + 1 < |bs| && Large(bs, i, base) && forall j :: 0 <= j < |placed| ==> placed[j].bucket > i
    modifies big, queues
    ensures bs[i] < bs[i + 1] <= pa.size && placed' == placed + [PlaceOf(pa, bs, i)] && Places(placed', pa, bs, base)
    ensures Tables(big[..], queues[..], big0, queues0, placed', pa, bs, base)
  {
    MorePlaces(placed, pa, bs, base, i, big.Length);
    placed' := placed + [PlaceOf(pa, bs, i)];
    ghost var b, q := big[..], queues[..];
    assert |b| == |q|;
    var begin, end := bs[i], bs[i + 1];
    var threadBegin := Nearest(pa.offset + begin, pa.stripe);
    var threadEnd := Nearest(pa.offset + end, pa.stripe);
    hide Tables, Nearest, Ceil, ThreadOf, Places;
    if threadEnd <= threadBegin + 1 {
      var thread := ThreadOf(begin, end, pa.size, pa.threads);
      queues[pa.id + thread] := queues[pa.id + thread] + [Task(pa.offset + begin, pa.offset + end, !pa.inInput)];
      TablesSmall(b, q, queues[..], big0, queues0, placed, pa, bs, base, i, big.Length);
    } else {
      AssignGroup(big, threadBegin, threadEnd, pa.offset + begin, pa.offset + end, !pa.inInput);
      TablesBig(b, big[..], q, big0, queues0, placed, pa, bs, base, i, big.Length);
    }
  }

  ghost predicate HasPlace(placed: seq<Place>, i: nat) {
    exists j :: 0 <= j < |placed| && placed[j].bucket == i
  }

  lemma OneMorePlace(placed: seq<Place>, x: Place)
    ensures forall i: nat :: HasPlace(placed + [x], i) <==> HasPlace(placed, i) || i == x.bucket
  {
    var more := placed + [x];
    forall i: nat ensures HasPlace(more, i) <==> HasPlace(placed, i) || i == x.bucket {
      if HasPlace(placed, i) {
        var j :| 0 <= j < |placed| && placed[j].bucket == i;
        assert more[j].bucket == i;
      }
      if i == x.bucket { assert more[|placed|].bucket == i; }
    }
  }

  /** Queues a bucket if it is large. */
  method QueueIfLarge(
      big: array<BigTask>, queues: array<seq<Task>>, pa: Parent, bs: seq<nat>, i: nat, base: nat,
      ghost placed: seq<Place>,
      ghost big0: seq<BigTask>, ghost queues0: seq<seq<Task>>)
      returns (ghost placed': seq<Place>)
    requires Boundaries(bs, pa.size) && Fitting(pa, big.Length) && Places(placed, pa, bs, base)
    requires (big as object) != queues
    requires Tables(big[..], queues[..], big0, queues0, placed, pa, bs, base)
    requires i + 1 < |bs| && forall j :: 0 <= j < |placed| ==> placed[j].bucket > i
    modifies big, queues
    ensures Places(placed', pa, bs, base) && Tables(big[..], queues[..], big0, queues0, placed', pa, bs, base)
    ensures forall j :: 0 <= j < |placed'| ==> placed'[j].bucket >= i
    ensures forall k: nat :: HasPlace(placed', k) <==> HasPlace(placed, k) || (k == i && Large(bs, i, base))
  {
    placed' := placed;
    var start, stop := bs[i], bs[i + 1];
    assert start <= stop;
    hide Tables, Places, Boundaries, HasPlace;
    if stop - start > 2 * base {
      placed' := QueueTask(big, queues, pa, bs, i, placed, base, big0, queues0);
      OneMorePlace(placed, PlaceOf(pa, bs, i));
    }
  }

  /** The loops over the buckets. */
  method QueueBuckets(
      big: array<BigTask>, queues: array<seq<Task>>, pa: Parent, bs: seq<nat>, equal: bool, base: nat,
      ghost big0: seq<BigTask>, ghost queues0: seq<seq<Task>>)
      returns (ghost placed: seq<Place>)
    requires Boundaries(bs, pa.size) && |bs| > 1 && (equal ==> |bs| % 2 == 1) && Fitting(pa, big.Length)
    requires (big as object) != queues
    requires Places([], pa, bs, base) && Tables(big[..], queues[..], big0, queues0, [], pa, bs, base)
    modifies big, queues
    ensures Places(placed, pa, bs, base) && Tables(big[..], queues[..], big0, queues0, placed, pa, bs, base)
    ensures forall i: nat :: HasPlace(placed, i) <==>
      i < |bs| - 1 && Descended(i, |bs| - 1, equal) && Large(bs, i, base)
  {
    placed := [];
    assert forall i: nat :: !HasPlace(placed, i);
    hide Tables, Places, Boundaries, HasPlace, Fitting;
    var numBuckets := |bs| - 1;
    if equal {
      placed := QueueIfLarge(big, queues, pa, bs, numBuckets - 1, base, placed, big0, queues0);
    }
    var i := numBuckets - 1 - (if equal then 1 else 0);
    while i >= 0
      invariant -2 <= i < numBuckets && (equal ==> i % 2 == 0 && i < numBuckets - 1) && (!equal ==> i >= -1)
      invariant Places(placed, pa, bs, base) && Tables(big[..], queues[..], big0, queues0, placed, pa, bs, base)
      invariant forall j :: 0 <= j < |placed| ==> placed[j].bucket > i
      invariant forall k: nat :: HasPlace(placed, k) <==>
        k < numBuckets && k > i && Descended(k, numBuckets, equal) && Large(bs, k, base)
      decreases i
    {
      placed := QueueIfLarge(big, queues, pa, bs, i, base, placed, big0, queues0);
      i := i - (if equal then 2 else 1);
    }
  }

  /**
   * Every large bucket that is no equality bucket has exactly one place, unless this was the last level, and the
   * tables hold these places and nothing else that is new.
   */
  ghost predicate QueuesTasks(
      placed: seq<Place>, big': seq<BigTask>, queues': seq<seq<Task>>, big: seq<BigTask>, queues: seq<seq<Task>>,
      pa: Parent, bs: seq<nat>, equal: bool, cfg: Config)
  {
    && Boundaries(bs, pa.size) && pa.stripe > 0 && pa.threads > 0 && Places(placed, pa, bs, cfg.baseCase)
    && Tables(big', queues', big, queues, placed, pa, bs, cfg.baseCase)
    && (forall b: nat :: HasPlace(placed, b) <==>
         pa.size > cfg.SingleLevel() && b < |bs| - 1 && Descended(b, |bs| - 1, equal) && Large(bs, b, cfg.baseCase))
  }

  /**
   * Queues the large buckets of a partitioning step, equality buckets excepted. Every one of them gets
   * exactly one place: a group of two or more threads inside the parent's group, disjoint from the groups
   * of the other buckets, or the queue of one thread of the parent's group.
   */
  method QueueTasks(
      big: array<BigTask>, queues: array<seq<Task>>, pa: Parent, bs: seq<nat>, equal: bool, cfg: Config)
      returns (ghost placed: seq<Place>)
    requires Boundaries(bs, pa.size) && |bs| > 1 && (equal ==> |bs| % 2 == 1)
    requires big.Length == queues.Length && (big as object) != queues && Fitting(pa, big.Length)
    modifies big, queues
    ensures QueuesTasks(placed, big[..], queues[..], old(big[..]), old(queues[..]), pa, bs, equal, cfg)
    ensures forall j :: 0 <= j < |placed| ==> RightPlace(placed[j], pa, bs)
  {
    ghost var big0, queues0 := big[..], queues[..];
    placed := [];
    ClearRecords(big, pa.id, pa.threads);
    NothingPlaced(big[..], big0, queues[..], pa, bs, cfg.baseCase);
    assert queues[..] == queues0;
    if pa.size > cfg.SingleLevel() {
      placed := QueueBuckets(big, queues, pa, bs, equal, cfg.baseCase, big0, queues0);
    }
    PlacesAreRight(placed, pa, bs, cfg.baseCase);
  }

  lemma PlacesAreRight(placed: seq<Place>, pa: Parent, bs: seq<nat>, base: nat)
    requires Boundaries(bs, pa.size) && pa.stripe > 0 && pa.threads > 0 && Places(placed, pa, bs, base)
    ensures forall j :: 0 <= j < |placed| ==> RightPlace(placed[j], pa, bs)
  {
    hide RightPlace, Boundaries;
    forall j | 0 <= j < |placed| ensures RightPlace(placed[j], pa, bs) {
      assert PlacedOk(placed[j], pa, bs, base);
      PlaceIsRight(pa, bs, placed[j].bucket);
    }
  }

  /** The groups of two different buckets are disjoint, and each has at least two threads of the parent. */
  lemma PlacesDisjoint(placed: seq<Place>, pa: Parent, bs: seq<nat>, base: nat, total: nat, j: nat, k: nat)
    requires Boundaries(bs, pa.size) && Fitting(pa, total) && Places(placed, pa, bs, base) && j < k < |placed|
    ensures pa.id <= placed[j].first < placed[j].last <= pa.id + pa.threads
    ensures placed[j].bucket != placed[k].bucket
    ensures Big(placed[j]) && Big(placed[k]) ==>
      placed[k].last <= placed[j].first && placed[k].last - placed[k].first >= 2
  {
    assert PlacedOk(placed[j], pa, bs, base) && PlacedOk(placed[k], pa, bs, base);
    PlaceInside(pa, total, bs, placed[j].bucket);
    GroupsApart(pa, bs, placed[k].bucket, placed[j].bucket);
  }
}
