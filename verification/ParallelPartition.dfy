/**
 * One partitioning step of the out-of-place sorter by several threads: the scatter in any interleaving, then
 * the cleanup in any order. It does to the range of a task what the sequential step does.
 */
module ParallelPartition {
  import opened Order
  import opened Config
  import opened Classifier
  import opened Sampling
  import opened Buckets
  import opened Recursion
  import opened Oracle
  import opened PingPong
  import opened ParallelCleanup
  import SmallTasks
  import TaskRun

  /** w is what the threads' scatter of v makes of the target range, with their stripes st. */
  ghost predicate Scattered<T>(v: seq<T>, o: seq<nat>, k: nat, st: seq<nat>, order: seq<nat>, w: seq<T>) {
    && |v| == |o| == |w| && Scatter.Bounded(o, k) && Scatter.Stripes(o, st)
    && Scatter.Enough(st, order)
    && var s := Scatter.After(v, o, k, st, order);
       |s.out| == |w| && forall q :: 0 <= q < |w| ==> s.out[q] == Scatter.Full(w[q])
  }

  /** The bucket boundaries that thread 0 computes. */
  ghost predicate Firsts(bs: seq<nat>, o: seq<nat>, k: nat) {
    |bs| == k + 1 && forall b :: 0 <= b < |bs| ==> bs[b] == Scatter.First(o, b)
  }

  lemma FirstsAreBoundaries(bs: seq<nat>, o: seq<nat>, k: nat)
    requires Scatter.Bounded(o, k) && Firsts(bs, o, k)
    ensures Boundaries(bs, |o|)
  {
    Scatter.FirstEnds(o, k);
    forall b | 0 <= b < |bs| - 1 ensures bs[b] <= bs[b + 1] { Scatter.FirstMono(o, b, b + 1); }
  }

  /** However the threads interleave, the scatter leaves pure buckets and loses nothing. */
  lemma ScatteredPure<T(!new)>(v: seq<T>, cls: T -> nat, k: nat, st: seq<nat>, order: seq<nat>, w: seq<T>, bs: seq<nat>)
    requires Scattered(v, Classes(v, cls), k, st, order, w) && Firsts(bs, Classes(v, cls), k)
    ensures PiecesPure(w, bs, cls) && Boundaries(bs, |w|) && multiset(w) == multiset(v)
  {
    var o := Classes(v, cls);
    FirstsAreBoundaries(bs, o, k);
    Scatter.AnyInterleaving(v, o, k, st, order);
    DistributedPieces(v, cls, k, bs);
    var s := Scatter.After(v, o, k, st, order);
    assert w == Scatter.Stable(v, o, k) by {
      forall q | 0 <= q < |w| ensures w[q] == Scatter.Stable(v, o, k)[q] {
        assert s.out[q] == Scatter.Full(w[q]) == Scatter.Full(Scatter.Stable(v, o, k)[q]);
      }
    }
  }

  /** With equality buckets the next to last bucket is empty, which is what the cleanup relies on. */
  lemma NextToLastEmpty<T(!new)>(w: seq<T>, bs: seq<nat>, c: seq<T>, less: (T, T) -> bool, threshold: nat)
    requires |c| > 0 && UseEqual(c, less, threshold) && |bs| == Used(|Padded(c, less)|, true) + 1
    requires PiecesPure(w, bs, ClassOf(c, less, threshold)) && Boundaries(bs, |w|)
    ensures EqualityCleanup.Cut(bs, |w|)
  {
    var b, cls := |bs| - 3, ClassOf(c, less, threshold);
    assert PurePiece(w, bs, cls, b);
    hide ClassOf, Padded, UseEqual, PurePiece, PiecesPure;
    PieceBounds(w, bs, cls, b);
    if bs[b] < bs[b + 1] {
      PieceClass(w, bs, cls, b, bs[b]);
      NeverNextToLast(c, less, threshold, w[bs[b]]);
    }
  }

  lemma NeverNextToLast<T(!new)>(c: seq<T>, less: (T, T) -> bool, threshold: nat, x: T)
    requires |c| > 0 && UseEqual(c, less, threshold)
    ensures ClassOf(c, less, threshold)(x) != Used(|Padded(c, less)|, true) - 2
  {
    EmptyBucket(Padded(c, less), less, x);
  }

  /** What the threads do in the cleanup phase: by stripes if there are equality buckets, else by bucket numbers. */
  ghost predicate CleanedBy<T(!new)>(
      g: Setting<T>, st: seq<nat>, sorted: seq<seq<nat>>, moved: seq<seq<EqualityCleanup.Range>>)
  {
    if g.equal then EqualityCleanup.Stripes(st, g.n) && EqualityCleanup.AllClean(g.bs, st, sorted, moved)
    else
      && |g.bs| > 0 && |sorted| == |moved| > 0
      && (forall t :: 0 <= t < |sorted| ==> BlockSorted(|g.bs| - 1, |sorted|, t, sorted[t]))
      && (forall t :: 0 <= t < |moved| ==> moved[t] == [])
  }

  lemma AllShared<T(!new)>(
      g: Setting<T>, st: seq<nat>, sorted: seq<seq<nat>>, moved: seq<seq<EqualityCleanup.Range>>)
    requires g.Ok() && CleanedBy(g, st, sorted, moved)
    ensures Shared(g, sorted, moved)
  {
    if g.equal { StripesShare(g, st, sorted, moved); } else { BlocksShare(g, sorted, moved); }
  }

  ghost function SettingOf<T(!new)>(
      bs: seq<nat>, n: nat, c: seq<T>, cfg: Config, less: (T, T) -> bool, inInput: bool,
      sort: seq<T> -> seq<T>): Setting<T>
    requires |c| > 0
  {
    Setting(bs, n, UseEqual(c, less, cfg.threshold), inInput, cfg.baseCase, n <= cfg.SingleLevel(), sort)
  }

  ghost function K<T(!new)>(c: seq<T>, cfg: Config, less: (T, T) -> bool): nat
    requires |c| > 0
  {
    Used(|Padded(c, less)|, UseEqual(c, less, cfg.threshold))
  }

  lemma SettingOk<T(!new)>(
      w: seq<T>, bs: seq<nat>, c: seq<T>, cfg: Config, less: (T, T) -> bool, inInput: bool, sort: seq<T> -> seq<T>)
    requires |c| > 0 && |bs| == K(c, cfg, less) + 1 && PiecesPure(w, bs, ClassOf(c, less, cfg.threshold))
      && Boundaries(bs, |w|)
    requires SortsAll(sort, less)
    ensures SettingOf(bs, |w|, c, cfg, less, inInput, sort).Ok()
  {
    if UseEqual(c, less, cfg.threshold) { NextToLastEmpty(w, bs, c, less, cfg.threshold); }
    forall p ensures |sort(p)| == |p| { assert |multiset(sort(p))| == |multiset(p)|; }
  }

  /** The buckets that the cleanup only moves hold equivalent elements. */
  lemma SkippedUniform<T(!new)>(
      w: seq<T>, bs: seq<nat>, c: seq<T>, cfg: Config, less: (T, T) -> bool, inInput: bool, sort: seq<T> -> seq<T>)
    requires StrictWeakOrder(less) && |c| > 0 && Sorted(c, less) && |bs| == K(c, cfg, less) + 1
    requires PiecesPure(w, bs, ClassOf(c, less, cfg.threshold))
    ensures forall b: nat :: b + 1 < |bs| && SettingOf(bs, |w|, c, cfg, less, inInput, sort).Skipped(b) ==>
      UniformPiece(w, bs, less, b)
  {
    var g := SettingOf(bs, |w|, c, cfg, less, inInput, sort);
    EqualityPieces(w, bs, c, cfg, less, g.equal);
    forall b: nat | b + 1 < |bs| && g.Skipped(b) ensures UniformPiece(w, bs, less, b) {
      assert !Descended(b, |bs| - 1, g.equal);
    }
  }

  /**
   * The whole step: v is the range when its classifier was built from the candidates c. In every
   * interleaving of the scatter and every order of the cleanup actions, the two copies of the range end up
   * as the sequential step would leave them.
   */
  lemma Step<T(!new)>(
      v: seq<T>, c: seq<T>, cfg: Config, less: (T, T) -> bool, inInput: bool, sort: seq<T> -> seq<T>,
      st: seq<nat>, order: seq<nat>, w: seq<T>, bs: seq<nat>,
      sorted: seq<seq<nat>>, moved: seq<seq<EqualityCleanup.Range>>, acts: seq<Action>)
    requires Chosen(c, v, cfg, less) && Sortable(cfg, less) && SortsAll(sort, less) && |c| > 0
    requires var o := Classes(v, ClassOf(c, less, cfg.threshold));
      Scattered(v, o, K(c, cfg, less), st, order, w) && Firsts(bs, o, K(c, cfg, less))
    requires CleanedBy(SettingOf(bs, |v|, c, cfg, less, inInput, sort), st, sorted, moved)
      && Interleaves(acts, sorted, moved)
    ensures var g := SettingOf(bs, |v|, c, cfg, less, inInput, sort);
      && g.Ok() && Legal(g, acts) && |w| == |v|
      && var m' := Run(g, Memory(w, v), acts); Sorting(m'.out, m'.tmp, w, bs, inInput, less, DoneBy(g))
    ensures PiecesPure(w, bs, ClassOf(c, less, cfg.threshold)) && multiset(w) == multiset(v)
  {
    var cls := ClassOf(c, less, cfg.threshold);
    ChosenFacts(c, v, cfg, less);
    hide Chosen, ClassOf, StrictWeakOrder, Sortable, Sorted, SortsAll, PiecesPure, Boundaries, Scatter.First,
      Scattered, Setting.Ok, K,
      CleanedBy, Shared, Sorting, UniformPiece;
    ScatteredPure(v, cls, K(c, cfg, less), st, order, w, bs);
    SettingOk(w, bs, c, cfg, less, inInput, sort);
    SkippedUniform(w, bs, c, cfg, less, inInput, sort);
    var g := SettingOf(bs, |v|, c, cfg, less, inInput, sort);
    AllShared(g, st, sorted, moved);
    AnyOrder(g, Memory(w, v), acts, sorted, moved, less);
  }

  /**
   * What the threads of a group do to the range of their task. v is the range when its classifier was built from
   * the candidates c; st are the stripes, order the interleaving of the scatter, w the range as it was scattered;
   * acts are all cleanup actions, in the order in which they happen.
   */
  datatype Phases<!T(!new)> =
    Phases(v: seq<T>, c: seq<T>, sort: seq<T> -> seq<T>, st: seq<nat>, order: seq<nat>, w: seq<T>, bs: seq<nat>,
           sorted: seq<seq<nat>>, moved: seq<seq<EqualityCleanup.Range>>, acts: seq<Action>)
  {
    ghost predicate Ran(cfg: Config, less: (T, T) -> bool, inInput: bool) {
      && Chosen(c, v, cfg, less) && SortsAll(sort, less) && |c| > 0
      && Scattered(v, Classes(v, ClassOf(c, less, cfg.threshold)), K(c, cfg, less), st, order, w)
      && Firsts(bs, Classes(v, ClassOf(c, less, cfg.threshold)), K(c, cfg, less))
      && CleanedBy(SettingOf(bs, |v|, c, cfg, less, inInput, sort), st, sorted, moved)
        && Interleaves(acts, sorted, moved)
    }
  }

  /** Both arrays after the step: only the range of task x has changed, and there the threads' work shows. */
  ghost predicate OnArrays<T(!new)>(
      ph: Phases<T>, cfg: Config, less: (T, T) -> bool, m: TaskRun.Memory<T>, input: seq<T>, tmp: seq<T>, n: nat,
      x: TaskRun.Task)
  {
    && |m.input| == |m.tmp| == |input| == |tmp| == n && x.begin <= x.end <= n && |ph.c| > 0
    && input[..x.begin] == m.input[..x.begin] && input[x.end..] == m.input[x.end..]
    && tmp[..x.begin] == m.tmp[..x.begin] && tmp[x.end..] == m.tmp[x.end..]
    && multiset(ph.v) == multiset((if x.inInput then m.input else m.tmp)[x.begin..x.end])
    && var g := SettingOf(ph.bs, |ph.v|, ph.c, cfg, less, x.inInput, ph.sort);
       g.Ok() && |ph.w| == |ph.v| && Legal(g, ph.acts) ==>
         var m' := Run(g, Memory(ph.w, ph.v), ph.acts);
         && (if x.inInput then input else tmp)[x.begin..x.end] == m'.out
         && (if x.inInput then tmp else input)[x.begin..x.end] == m'.tmp
  }

  ghost function DoneIn<T(!new)>(ph: Phases<T>, cfg: Config, less: (T, T) -> bool, inInput: bool): set<nat>
    requires |ph.c| > 0 && |ph.bs| > 0
  {
    DoneBy(SettingOf(ph.bs, |ph.v|, ph.c, cfg, less, inInput, ph.sort))
  }

  /**
   * A big task: when its threads are through, its range is split into buckets, those that are finished where
   * the result belongs, the large ones, which are smaller than the range, in the other array.
   */
  lemma TaskIsSplit<T(!new)>(
      ph: Phases<T>, cfg: Config, less: (T, T) -> bool, m: TaskRun.Memory<T>, input: seq<T>, tmp: seq<T>, n: nat,
      x: TaskRun.Task)
      returns (content: seq<T>)
    requires Sortable(cfg, less) && ph.Ran(cfg, less, x.inInput)
    requires TaskRun.Shaped(m, n) && TaskRun.TaskOk(m, n, x, cfg.baseCase)
      && OnArrays(ph, cfg, less, m, input, tmp, n, x)
    ensures |ph.bs| > 1 && |ph.c| > 0 && |ph.v| == x.end - x.begin && Boundaries(ph.bs, x.end - x.begin)
    ensures SmallTasks.Split(m, TaskRun.Memory(input, tmp, content), n, x, ph.w, ph.bs,
      DoneIn(ph, cfg, less, x.inInput),
                             ClassOf(ph.c, less, cfg.threshold), cfg.baseCase, less)
    ensures x.end - x.begin > cfg.SingleLevel() ==>
      AllShorter(ph.bs, UseEqual(ph.c, less, cfg.threshold), x.end - x.begin)
  {
    var c, bs, w := ph.c, ph.bs, ph.w;
    ChosenFacts(c, ph.v, cfg, less);
    ClassOfRespects(c, less, cfg.threshold);
    Step(ph.v, c, cfg, less, x.inInput, ph.sort, ph.st, ph.order, w, bs, ph.sorted, ph.moved, ph.acts);
    assert |w| == |multiset(w)| == |multiset(ph.v)| == x.end - x.begin;
    ChosenStays(c, ph.v, w, cfg, less);
    assert Boundaries(bs, |w|) && |bs| == K(c, cfg, less) + 1;
    hide Chosen, ClassOf, StrictWeakOrder, Sortable, Sorted, SortsAll, PiecesPure, Scatter.First, Scattered, Legal, Run,
      CleanedBy, Sorting, Respects, Firsts, TaskRun.TaskOk, DoneBy, Interleaves, SmallTasks.Split, AllShorter, Padded,
        UseEqual;
    content := SmallTasks.BecomesSplit(m, input, tmp, n, x, w, bs, DoneIn(ph, cfg, less, x.inInput),
                                       ClassOf(c, less, cfg.threshold), cfg.baseCase, less);
    if |w| > cfg.SingleLevel() { DescentShrinks(w, bs, c, cfg, less, UseEqual(c, less, cfg.threshold)); }
  }
}
