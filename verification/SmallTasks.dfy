/** Processing one task: the form of the out-of-place sorter that queues its buckets instead of recursing. */
module SmallTasks {
  import opened Order
  import opened Config
  import opened Sampling
  import opened Buckets
  import opened Recursion
  import opened Oracle
  import opened PingPong
  import opened TaskRun

  // ---------------------------------------------------------------- queueing

  function TaskOf(lo: nat, bs: seq<nat>, i: nat, inInput: bool): Task
    requires i + 1 < |bs|
  {
    Task(lo + bs[i], lo + bs[i + 1], inInput)
  }

  /** found are the tasks for the buckets idx, in the same order. */
  ghost predicate TasksOf(found: seq<Task>, idx: seq<nat>, lo: nat, bs: seq<nat>, inInput: bool) {
    && |found| == |idx|
    && (forall j :: 0 <= j < |idx| ==> idx[j] + 1 < |bs| && found[j] == TaskOf(lo, bs, idx[j], inInput))
    && (forall j, k :: 0 <= j < k < |idx| ==> idx[j] > idx[k])
  }

  /** Queues bucket i if it is large. */
  method QueueBucket(
      queue: Scheduler.PrivateQueue<Task>, lo: nat, bs: seq<nat>, i: nat, base: nat, inInput: bool,
      ghost found: seq<Task>, ghost idx: seq<nat>, ghost before: seq<Task>)
      returns (ghost found': seq<Task>, ghost idx': seq<nat>)
    requires queue.Valid() && queue.Contents() == before + found
    requires i + 1 < |bs| && TasksOf(found, idx, lo, bs, inInput)
    requires forall k :: k in idx ==> k > i
    modifies queue
    ensures queue.Valid() && queue.Contents() == before + found'
    ensures TasksOf(found', idx', lo, bs, inInput)
    ensures idx' == if bs[i + 1] - bs[i] > 2 * base then idx + [i] else idx
  {
    found', idx' := found, idx;
    assert forall j :: 0 <= j < |idx| ==> idx[j] in idx;
    var start, stop := bs[i], bs[i + 1];
    if stop - start > 2 * base {
      queue.Emplace(Task(lo + start, lo + stop, inInput));
      found', idx' := found + [TaskOf(lo, bs, i, inInput)], idx + [i];
    }
  }

  /** Queues all large buckets but equality buckets, the last bucket first. */
  method QueueBuckets(
      queue: Scheduler.PrivateQueue<Task>, lo: nat, bs: seq<nat>, equal: bool, base: nat, inInput: bool)
      returns (ghost found: seq<Task>, ghost idx: seq<nat>)
    requires queue.Valid() && |bs| > 1 && (equal ==> |bs| % 2 == 1)
    modifies queue
    ensures queue.Valid() && queue.Contents() == old(queue.Contents()) + found
    ensures TasksOf(found, idx, lo, bs, inInput)
    ensures forall i: nat :: i in idx <==> i < |bs| - 1 && !Finished(bs, i, base, false, equal)
  {
    var numBuckets := |bs| - 1;
    ghost var q := queue.Contents();
    found, idx := [], [];
    assert TasksOf(found, idx, lo, bs, inInput);
    if equal {
      found, idx := QueueBucket(queue, lo, bs, numBuckets - 1, base, inInput, found, idx, q);
    }
    var i := numBuckets - 1 - (if equal then 1 else 0);
    QueuedFirst(idx, bs, base, equal, i);
    hide QueuedAbove, TasksOf;
    while i >= 0
      invariant queue.Valid() && queue.Contents() == q + found
      invariant TasksOf(found, idx, lo, bs, inInput) && QueuedAbove(idx, bs, base, equal, i)
      decreases i
    {
      ghost var before := idx;
      IndicesAbove(idx, bs, base, equal, i);
      found, idx := QueueBucket(queue, lo, bs, i, base, inInput, found, idx, q);
      QueuedNext(before, idx, bs, base, equal, i);
      i := i - (if equal then 2 else 1);
    }
    AllQueued(idx, bs, base, equal, i);
  }

  /** The large buckets above i, equality buckets excepted; i is no equality bucket. */
  ghost predicate QueuedAbove(idx: seq<nat>, bs: seq<nat>, base: nat, equal: bool, i: int)
    requires |bs| > 0
  {
    && -2 <= i < |bs| - 1 && (if equal then i % 2 == 0 && i < |bs| - 2 else i >= -1)
    && forall k: nat :: k in idx <==> k < |bs| - 1 && k > i && !Finished(bs, k, base, false, equal)
  }

  lemma QueuedNext(before: seq<nat>, idx: seq<nat>, bs: seq<nat>, base: nat, equal: bool, i: nat)
    requires |bs| > 1 && (equal ==> |bs| % 2 == 1) && QueuedAbove(before, bs, base, equal, i) && i < |bs| - 1
    requires idx == if bs[i + 1] - bs[i] > 2 * base then before + [i] else before
    ensures QueuedAbove(idx, bs, base, equal, i - (if equal then 2 else 1))
  {
  }

  lemma QueuedFirst(idx: seq<nat>, bs: seq<nat>, base: nat, equal: bool, i: int)
    requires |bs| > 1 && (equal ==> |bs| % 2 == 1) && i == |bs| - 2 - (if equal then 1 else 0)
    requires idx == if equal && bs[|bs| - 1] - bs[|bs| - 2] > 2 * base then [|bs| - 2] else []
    ensures QueuedAbove(idx, bs, base, equal, i)
  {
  }

  lemma IndicesAbove(idx: seq<nat>, bs: seq<nat>, base: nat, equal: bool, i: int)
    requires |bs| > 1 && QueuedAbove(idx, bs, base, equal, i)
    ensures i < |bs| - 1 && forall k :: k in idx ==> k > i
  {
  }

  lemma AllQueued(idx: seq<nat>, bs: seq<nat>, base: nat, equal: bool, i: int)
    requires |bs| > 1 && i < 0 && QueuedAbove(idx, bs, base, equal, i)
    ensures forall k: nat :: k in idx <==> k < |bs| - 1 && !Finished(bs, k, base, false, equal)
  {
  }

  // ---------------------------------------------------------------- what a partitioned range stands for

  ghost function OwnerOf(bs: seq<nat>, k: nat): nat
    requires |bs| > 1
  {
    OwnerFrom(bs, k, |bs| - 2)
  }

  lemma OwnerBounds(bs: seq<nat>, n: nat, k: nat)
    requires |bs| > 1 && Boundaries(bs, n) && k < n
    ensures var i := OwnerOf(bs, k); i + 1 < |bs| && bs[i] <= k < bs[i + 1]
  {
    OwnerIs(bs, k, |bs| - 2);
  }

  lemma OwnerExact(bs: seq<nat>, n: nat, k: nat, i: nat)
    requires |bs| > 1 && Boundaries(bs, n) && i + 1 < |bs| && bs[i] <= k < bs[i + 1]
    ensures k < n && OwnerOf(bs, k) == i
  {
    forall x, y | 0 <= x <= y < |bs| ensures bs[x] <= bs[y] { BoundaryMono(bs, n, x, y); }
    BoundaryMono(bs, n, i + 1, |bs| - 1);
    OwnerUnique(bs, k, |bs| - 2, i);
  }

  /** The elements that the range stands for: finished buckets where the result belongs, the others in d. */
  ghost function Mixed<T>(s: seq<T>, d: seq<T>, bs: seq<nat>, inInput: bool, done: set<nat>): (u: seq<T>)
    requires |s| == |d| && |bs| > 1
    ensures |u| == |d|
  {
    seq(|d|, k requires 0 <= k < |d| => if inInput && OwnerOf(bs, k) in done then s[k] else d[k])
  }

  lemma MixedPiece<T>(s: seq<T>, d: seq<T>, bs: seq<nat>, inInput: bool, done: set<nat>, i: nat)
    requires |s| == |d| && |bs| > 1 && Boundaries(bs, |d|) && i + 1 < |bs|
    ensures bs[i] <= bs[i + 1] <= |d|
    ensures Piece(Mixed(s, d, bs, inInput, done), bs, i)
      == (if inInput && i in done then Piece(s, bs, i) else Piece(d, bs, i))
  {
    BoundaryMono(bs, |d|, i, i + 1);
    BoundaryMono(bs, |d|, i + 1, |bs| - 1);
    var u := Mixed(s, d, bs, inInput, done);
    forall k | bs[i] <= k < bs[i + 1]
      ensures u[k] == (if inInput && i in done then s[k] else d[k])
    {
      OwnerExact(bs, |d|, k, i);
    }
  }

  lemma MixedPieces<T(!new)>(
      s: seq<T>, d: seq<T>, w: seq<T>, bs: seq<nat>, inInput: bool, less: (T, T) -> bool, done: set<nat>,
      cls: T -> nat, i: nat)
    requires Sorting(s, d, w, bs, inInput, less, done) && PiecesPure(w, bs, cls) && i + 1 < |bs|
    ensures var u := Mixed(s, d, bs, inInput, done);
      && Pending(u, w, bs, i) && PurePiece(u, bs, cls, i) && (i in done ==> Sorted(Piece(u, bs, i), less))
  {
    MixedPiece(s, d, bs, inInput, done, i);
    assert PurePiece(w, bs, cls, i);
    assert if i in done then Settled(if inInput then s else d, w, bs, less, i) else Pending(d, w, bs, i);
    SamePure(Piece(w, bs, i), Piece(Mixed(s, d, bs, inInput, done), bs, i), cls, i);
  }

  /** Two positions of the range are in order unless they share an unfinished bucket. */
  lemma MixedOrder<T(!new)>(
      s: seq<T>, d: seq<T>, w: seq<T>, bs: seq<nat>, inInput: bool, less: (T, T) -> bool, done: set<nat>, cls: T -> nat,
      p: nat, q: nat)
    requires Sorting(s, d, w, bs, inInput, less, done) && PiecesPure(w, bs, cls) && Respects(cls, less)
    requires p < q < |w|
    ensures var u := Mixed(s, d, bs, inInput, done);
      !less(u[q], u[p]) || (OwnerOf(bs, p) == OwnerOf(bs, q) && OwnerOf(bs, p) !in done)
  {
    var u, i, j := Mixed(s, d, bs, inInput, done), OwnerOf(bs, p), OwnerOf(bs, q);
    OwnerBounds(bs, |w|, p);
    OwnerBounds(bs, |w|, q);
    MixedPieces(s, d, w, bs, inInput, less, done, cls, i);
    MixedPieces(s, d, w, bs, inInput, less, done, cls, j);
    PieceClass(u, bs, cls, i, p);
    PieceClass(u, bs, cls, j, q);
    if i == j {
      if i in done { assert Piece(u, bs, i)[p - bs[i]] == u[p] && Piece(u, bs, i)[q - bs[i]] == u[q]; }
    } else if j < i {
      BoundaryMono(bs, |w|, j + 1, i);
    }
  }

  lemma MixedBag<T(!new)>(
      s: seq<T>, d: seq<T>, w: seq<T>, bs: seq<nat>, inInput: bool, less: (T, T) -> bool, done: set<nat>, cls: T -> nat)
    requires Sorting(s, d, w, bs, inInput, less, done) && PiecesPure(w, bs, cls)
    ensures multiset(Mixed(s, d, bs, inInput, done)) == multiset(w)
  {
    var u := Mixed(s, d, bs, inInput, done);
    forall i | 0 <= i < |bs| - 1 ensures Pending(u, w, bs, i) { MixedPieces(s, d, w, bs, inInput, less, done, cls, i); }
    PiecesBag(u, w, bs, 0);
    assert u[bs[0]..] == u && w[bs[0]..] == w;
  }

  // ---------------------------------------------------------------- one task

  ghost function Source<T>(m: Memory<T>, inInput: bool): seq<T> { if inInput then m.input else m.tmp }

  ghost function Target<T>(m: Memory<T>, inInput: bool): seq<T> { if inInput then m.tmp else m.input }

  /** How the memory looks after partitioning the range of task x. */
  ghost predicate Split<T(!new)>(
      m: Memory<T>, m': Memory<T>, n: nat, x: Task, w: seq<T>, bs: seq<nat>, done: set<nat>, cls: T -> nat,
      base: nat, less: (T, T) -> bool)
  {
    && Shaped(m, n) && Shaped(m', n) && TaskOk(m, n, x, base)
    && m'.input[..x.begin] == m.input[..x.begin] && m'.input[x.end..] == m.input[x.end..]
    && m'.tmp[..x.begin] == m.tmp[..x.begin] && m'.tmp[x.end..] == m.tmp[x.end..]
    && Sorting(Source(m', x.inInput)[x.begin..x.end], Target(m', x.inInput)[x.begin..x.end], w, bs, x.inInput, less,
      done)
    && PiecesPure(w, bs, cls) && Respects(cls, less) && multiset(w) == multiset(m.content[x.begin..x.end])
    && m'.content == m.content[..x.begin] + MixedOf(m', x, bs, done) + m.content[x.end..]
  }

  ghost function MixedOf<T>(m: Memory<T>, x: Task, bs: seq<nat>, done: set<nat>): (u: seq<T>)
    requires |m.input| == |m.tmp| && x.begin <= x.end <= |m.tmp| && |bs| > 1
    ensures |u| == x.end - x.begin
  {
    Mixed(Source(m, x.inInput)[x.begin..x.end], Target(m, x.inInput)[x.begin..x.end], bs, x.inInput, done)
  }

  lemma SplitContent<T(!new)>(
      m: Memory<T>, m': Memory<T>, n: nat, x: Task, w: seq<T>, bs: seq<nat>, done: set<nat>, cls: T -> nat,
      base: nat, less: (T, T) -> bool)
    requires Split(m, m', n, x, w, bs, done, cls, base, less)
    ensures x.begin <= x.end <= n && |bs| > 1 && Boundaries(bs, x.end - x.begin)
    ensures m'.content[..x.begin] == m.content[..x.begin] && m'.content[x.end..] == m.content[x.end..]
    ensures m'.content[x.begin..x.end] == MixedOf(m', x, bs, done)
    ensures multiset(m'.content[x.begin..x.end]) == multiset(m.content[x.begin..x.end])
  {
    MixedBag(Source(m', x.inInput)[x.begin..x.end], Target(m', x.inInput)[x.begin..x.end], w, bs, x.inInput, less,
      done, cls);
  }

  /** The bucket tasks: those of the buckets that are not done, and these are large. */
  ghost predicate Queued(found: seq<Task>, idx: seq<nat>, x: Task, bs: seq<nat>, done: set<nat>, base: nat) {
    && TasksOf(found, idx, x.begin, bs, !x.inInput)
    && (forall i: nat :: i in idx <==> i + 1 < |bs| && i !in done)
    && (forall i: nat :: i in idx ==> 2 * base < bs[i + 1] - bs[i] < x.end - x.begin)
  }

  lemma FoundSpread(found: seq<Task>, idx: seq<nat>, x: Task, bs: seq<nat>, done: set<nat>, base: nat, n: nat)
    requires Queued(found, idx, x, bs, done, base) && Boundaries(bs, n)
    ensures Spread(found)
  {
    forall i, j | 0 <= i < j < |found|
      ensures found[j].end <= found[i].begin
    {
      BoundaryMono(bs, n, idx[j] + 1, idx[i]);
    }
  }

  lemma FoundOk<T(!new)>(
      m: Memory<T>, m': Memory<T>, n: nat, x: Task, w: seq<T>, bs: seq<nat>, done: set<nat>, cls: T -> nat,
      base: nat, less: (T, T) -> bool, found: seq<Task>, idx: seq<nat>, y: Task)
    requires Split(m, m', n, x, w, bs, done, cls, base, less) && Queued(found, idx, x, bs, done, base) && y in found
    ensures Inside(y, x) && TaskOk(m', n, y, base)
  {
    hide Split, Sorting, PiecesPure, Respects, Mixed;
    var i := FoundBucket(found, idx, x, bs, done, base, y);
    hide Queued;
    SplitFacts(m, m', n, x, w, bs, done, cls, base, less);
    SplitContent(m, m', n, x, w, bs, done, cls, base, less);
    var lo, hi, s, d := x.begin, x.end, Source(m', x.inInput), Target(m', x.inInput);
    BoundaryMono(bs, hi - lo, i + 1, |bs| - 1);
    MixedPiece(s[lo..hi], d[lo..hi], bs, x.inInput, done, i);
    SliceOfSlice(m'.content, lo, hi, bs[i], bs[i + 1]);
    SliceOfSlice(d, lo, hi, bs[i], bs[i + 1]);
  }

  lemma FoundBucket(
      found: seq<Task>, idx: seq<nat>, x: Task, bs: seq<nat>, done: set<nat>, base: nat, y: Task)
      returns (i: nat)
    requires Queued(found, idx, x, bs, done, base) && y in found
    ensures i + 1 < |bs| && i !in done && 2 * base < bs[i + 1] - bs[i] < x.end - x.begin
    ensures y == TaskOf(x.begin, bs, i, !x.inInput)
  {
    var j :| 0 <= j < |found| && found[j] == y;
    i := idx[j];
    assert i in idx;
  }

  /** A position in no queued task lies in a bucket that is done. */
  lemma OwnerDone(
      x: Task, n: nat, bs: seq<nat>, done: set<nat>, base: nat, found: seq<Task>, idx: seq<nat>, k: nat)
    requires Queued(found, idx, x, bs, done, base) && |bs| > 1 && Boundaries(bs, n) && k < n
    requires forall y :: y in found ==> !In(x.begin + k, y)
    ensures OwnerOf(bs, k) in done
  {
    var i := OwnerOf(bs, k);
    OwnerBounds(bs, n, k);
    if i !in done {
      var y := QueuedTask(found, idx, x, bs, done, base, i);
    }
  }

  lemma FinalInRange<T(!new)>(
      m: Memory<T>, m': Memory<T>, n: nat, x: Task, w: seq<T>, bs: seq<nat>, done: set<nat>, cls: T -> nat,
      base: nat, less: (T, T) -> bool, found: seq<Task>, idx: seq<nat>, p: nat)
    requires Split(m, m', n, x, w, bs, done, cls, base, less) && Queued(found, idx, x, bs, done, base)
    requires In(p, x) && forall y :: y in found ==> !In(p, y)
    ensures p < n && m'.input[p] == m'.content[p]
  {
    SplitContent(m, m', n, x, w, bs, done, cls, base, less);
    var k := p - x.begin;
    OwnerDone(x, x.end - x.begin, bs, done, base, found, idx, k);
    hide Queued, Sorting, PiecesPure;
    assert m'.content[p] == m'.content[x.begin..x.end][k];
  }

  lemma SplitFacts<T(!new)>(
      m: Memory<T>, m': Memory<T>, n: nat, x: Task, w: seq<T>, bs: seq<nat>, done: set<nat>, cls: T -> nat,
      base: nat, less: (T, T) -> bool)
    requires Split(m, m', n, x, w, bs, done, cls, base, less)
    ensures |m'.input| == |m'.tmp| == |m'.content| == n && x.begin <= x.end <= n && |w| == x.end - x.begin && |bs| > 1
    ensures Sorting(Source(m', x.inInput)[x.begin..x.end], Target(m', x.inInput)[x.begin..x.end], w, bs, x.inInput,
      less, done)
    ensures PiecesPure(w, bs, cls) && Respects(cls, less)
  {
  }

  lemma QueuedTask(
      found: seq<Task>, idx: seq<nat>, x: Task, bs: seq<nat>, done: set<nat>, base: nat, i: nat)
      returns (y: Task)
    requires Queued(found, idx, x, bs, done, base) && i + 1 < |bs| && i !in done
    ensures y in found && y == TaskOf(x.begin, bs, i, !x.inInput)
  {
    assert i in idx;
    var j :| 0 <= j < |idx| && idx[j] == i;
    y := found[j];
  }

  lemma OrderInRange<T(!new)>(
      m: Memory<T>, m': Memory<T>, n: nat, x: Task, w: seq<T>, bs: seq<nat>, done: set<nat>, cls: T -> nat,
      base: nat, less: (T, T) -> bool, found: seq<Task>, idx: seq<nat>, p: nat, q: nat)
    requires Split(m, m', n, x, w, bs, done, cls, base, less) && Queued(found, idx, x, bs, done, base)
    requires p < q && In(p, x) && In(q, x)
    ensures q < n == |m'.content| && Ordered(m', multiset(found), less, p, q)
  {
    hide Split, Queued, Sorting, PiecesPure, Respects, Mixed, OwnerOf;
    SplitFacts(m, m', n, x, w, bs, done, cls, base, less);
    SplitContent(m, m', n, x, w, bs, done, cls, base, less);
    var lo, hi := x.begin, x.end;
    MixedOrder(Source(m', x.inInput)[lo..hi], Target(m', x.inInput)[lo..hi], w, bs, x.inInput, less, done, cls, p - lo,
      q - lo);
    assert m'.content[p] == m'.content[lo..hi][p - lo] && m'.content[q] == m'.content[lo..hi][q - lo];
    var i := OwnerOf(bs, p - lo);
    if i !in done && i == OwnerOf(bs, q - lo) {
      OwnerBounds(bs, hi - lo, p - lo);
      OwnerBounds(bs, hi - lo, q - lo);
      var y := QueuedTask(found, idx, x, bs, done, base, i);
      assert y in multiset(found) && In(p, y) && In(q, y);
    }
  }

  /** Partitioning a range and queueing its large buckets processes its task. */
  lemma IsProcessed<T(!new)>(
      m: Memory<T>, m': Memory<T>, n: nat, x: Task, w: seq<T>, bs: seq<nat>, done: set<nat>, cls: T -> nat,
      base: nat, less: (T, T) -> bool, found: seq<Task>, idx: seq<nat>)
    requires Split(m, m', n, x, w, bs, done, cls, base, less) && Queued(found, idx, x, bs, done, base)
    ensures Shaped(m, n) && Shaped(m', n) && x.begin <= x.end <= n && Processed(m, m', n, x, found, base, less)
  {
    SplitContent(m, m', n, x, w, bs, done, cls, base, less);
    FoundSpread(found, idx, x, bs, done, base, x.end - x.begin);
    forall y | y in found ensures Inside(y, x) && TaskOk(m', n, y, base) {
      FoundOk(m, m', n, x, w, bs, done, cls, base, less, found, idx, y);
    }
    forall p: nat | In(p, x) && (forall y :: y in found ==> !In(p, y)) ensures m'.input[p] == m'.content[p] {
      FinalInRange(m, m', n, x, w, bs, done, cls, base, less, found, idx, p);
    }
    forall p: nat, q: nat | p < q && In(p, x) && In(q, x) ensures Ordered(m', multiset(found), less, p, q) {
      OrderInRange(m, m', n, x, w, bs, done, cls, base, less, found, idx, p, q);
    }
  }

  lemma BecomesSplit<T(!new)>(
      m: Memory<T>, input: seq<T>, tmp: seq<T>, n: nat, x: Task, w: seq<T>, bs: seq<nat>, done: set<nat>, cls: T -> nat,
      base: nat, less: (T, T) -> bool) returns (content: seq<T>)
    requires Shaped(m, n) && |input| == |tmp| == n && TaskOk(m, n, x, base)
    requires input[..x.begin] == m.input[..x.begin] && input[x.end..] == m.input[x.end..]
    requires tmp[..x.begin] == m.tmp[..x.begin] && tmp[x.end..] == m.tmp[x.end..]
    requires multiset(w) == multiset(Source(m, x.inInput)[x.begin..x.end])
    requires Sorting((if x.inInput then input else tmp)[x.begin..x.end],
      (if x.inInput then tmp else input)[x.begin..x.end],
                     w, bs, x.inInput, less, done)
    requires PiecesPure(w, bs, cls) && Respects(cls, less)
    ensures Split(m, Memory(input, tmp, content), n, x, w, bs, done, cls, base, less)
  {
    var m' := Memory(input, tmp, m.content);
    content := m.content[..x.begin] + MixedOf(m', x, bs, done) + m.content[x.end..];
    hide Sorting, Mixed, PiecesPure, Respects;
    assert MixedOf(Memory(input, tmp, content), x, bs, done) == MixedOf(m', x, bs, done);
  }

  /** What partitioning found finished is what is not queued. */
  lemma BecomesQueued(
      found: seq<Task>, idx: seq<nat>, x: Task, bs: seq<nat>, done: set<nat>, base: nat, lastLevel: bool, equal: bool)
    requires |bs| > 1 && TasksOf(found, idx, x.begin, bs, !x.inInput)
    requires forall i: nat :: i in idx <==> i < |bs| - 1 && !lastLevel && !Finished(bs, i, base, false, equal)
    requires forall i: nat :: i in done <==> i < |bs| - 1 && Finished(bs, i, base, lastLevel, equal)
    requires !lastLevel ==> x.begin <= x.end && AllShorter(bs, equal, x.end - x.begin)
    ensures Queued(found, idx, x, bs, done, base)
  {
    forall i: nat | i in idx ensures 2 * base < bs[i + 1] - bs[i] < x.end - x.begin {
      assert Shorter(bs, i, x.end - x.begin);
    }
  }

  lemma TaskFacts<T(!new)>(m: Memory<T>, n: nat, x: Task, base: nat)
    requires Shaped(m, n) && TaskOk(m, n, x, base)
    ensures x.begin <= x.end <= n && x.end - x.begin > 2 * base
  {
  }

  /** A partitioning step, with what the classification amounts to. */
  method PartitionRange<T(!new)>(
      src: array<T>, dst: array<T>, lo: nat, hi: nat, oracle: array<Byte>, cfg: Config, less: (T, T) -> bool,
      lastLevel: bool, inInput: bool)
      returns (bs: seq<nat>, equal: bool, ghost w: seq<T>, ghost done: set<nat>, ghost cls: T -> nat)
    requires Sortable(cfg, less) && cfg.logMax <= 7 && Arrays(src, dst, oracle, lo, hi) && hi - lo > 2 * cfg.baseCase
    modifies src, dst, oracle
    ensures Outside(src, lo, hi) && Outside(dst, lo, hi) && multiset(w) == old(multiset(src[lo..hi]))
    ensures |bs| > 1 && (equal ==> |bs| % 2 == 1) && PiecesPure(w, bs, cls) && Respects(cls, less)
    ensures Sorting(src[lo..hi], dst[lo..hi], w, bs, inInput, less, done)
    ensures forall i: nat :: i in done <==> i < |bs| - 1 && Finished(bs, i, cfg.baseCase, lastLevel, equal)
    ensures hi - lo > cfg.SingleLevel() ==> AllShorter(bs, equal, hi - lo)
  {
    ghost var c;
    hide Sortable, Chosen, Sorting, PiecesPure, ClassOf, Padded, UseEqual, StrictWeakOrder, Sorted, Respects,
      AllShorter,
      Config.SingleLevel;
    bs, equal, c, w, done := Partition(src, dst, lo, hi, oracle, cfg, less, lastLevel, inInput);
    cls := ClassOf(c, less, cfg.threshold);
    ChosenFacts(c, w, cfg, less);
    UsedFits(c, w, cfg, less, equal);
    ClassOfRespects(c, less, cfg.threshold);
    assert |w| == |multiset(w)| == hi - lo;
    if hi - lo > cfg.SingleLevel() { DescentShrinks(w, bs, c, cfg, less, equal); }
  }

  /** Partitions the range of a task, from the array its elements are in to the other one. */
  method PartitionTask<T(!new)>(
      input: array<T>, tmp: array<T>, oracle: array<Byte>, task: Task, cfg: Config, less: (T, T) -> bool,
      lastLevel: bool, ghost content: seq<T>)
      returns (bs: seq<nat>, equal: bool, ghost w: seq<T>, ghost done: set<nat>, ghost cls: T -> nat,
        ghost content': seq<T>)
    requires Sortable(cfg, less) && cfg.logMax <= 7
    requires Arrays(input, tmp, oracle, 0, input.Length) && input.Length == tmp.Length == |content|
    requires TaskOk(Memory(input[..], tmp[..], content), input.Length, task, cfg.baseCase)
    modifies input, tmp, oracle
    ensures |bs| > 1 && (equal ==> |bs| % 2 == 1)
    ensures forall i: nat :: i in done <==> i < |bs| - 1 && Finished(bs, i, cfg.baseCase, lastLevel, equal)
    ensures task.end - task.begin > cfg.SingleLevel() ==>
      task.begin <= task.end && AllShorter(bs, equal, task.end - task.begin)
    ensures Split(old(Memory(input[..], tmp[..], content)), Memory(input[..], tmp[..], content'), input.Length, task,
                  w, bs, done, cls, cfg.baseCase, less)
  {
    ghost var m := Memory(input[..], tmp[..], content);
    hide Sortable, Sorting, PiecesPure, Respects, TaskOk, Split, Finished, AllShorter, Config.SingleLevel;
    TaskFacts(m, input.Length, task, cfg.baseCase);
    if task.inInput {
      bs, equal, w, done, cls := PartitionRange(input, tmp, task.begin, task.end, oracle, cfg, less, lastLevel, true);
      content' := BecomesSplit(m, input[..], tmp[..], input.Length, task, w, bs, done, cls, cfg.baseCase, less);
    } else {
      bs, equal, w, done, cls := PartitionRange(tmp, input, task.begin, task.end, oracle, cfg, less, lastLevel, false);
      content' := BecomesSplit(m, input[..], tmp[..], input.Length, task, w, bs, done, cls, cfg.baseCase, less);
    }
  }

  /** Partitions the range of a task and queues its large buckets. */
  method ProcessTask<T(!new)>(
      input: array<T>, tmp: array<T>, oracle: array<Byte>, task: Task, queue: Scheduler.PrivateQueue<Task>,
      cfg: Config, less: (T, T) -> bool, ghost content: seq<T>)
      returns (ghost found: seq<Task>, ghost content': seq<T>)
    requires Sortable(cfg, less) && cfg.logMax <= 7 && queue.Valid()
    requires Arrays(input, tmp, oracle, 0, input.Length) && input.Length == tmp.Length == |content|
    requires TaskOk(Memory(input[..], tmp[..], content), input.Length, task, cfg.baseCase)
    modifies input, tmp, oracle, queue
    ensures queue.Valid() && queue.Contents() == old(queue.Contents()) + found
    ensures |content'| == |content|
    ensures Processed(old(Memory(input[..], tmp[..], content)), Memory(input[..], tmp[..], content'), input.Length,
                      task, found, cfg.baseCase, less)
  {
    ghost var m := Memory(input[..], tmp[..], content);
    hide Sortable, Split, Processed, TaskOk, Queued, AllShorter;
    var lastLevel := task.end - task.begin <= cfg.SingleLevel();
    var bs, equal;
    ghost var w, done, cls, idx;
    bs, equal, w, done, cls, content' := PartitionTask(input, tmp, oracle, task, cfg, less, lastLevel, content);
    found, idx := [], [];
    if !lastLevel {
      found, idx := QueueBuckets(queue, task.begin, bs, equal, cfg.baseCase, !task.inInput);
    }
    BecomesQueued(found, idx, task, bs, done, cfg.baseCase, lastLevel, equal);
    IsProcessed(m, Memory(input[..], tmp[..], content'), input.Length, task, w, bs, done, cls, cfg.baseCase, less,
      found, idx);
  }
}
