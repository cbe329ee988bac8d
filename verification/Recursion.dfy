/** What one partitioning step achieves for the recursion: smaller ranges, and sortedness in the end. */
module Recursion {
  import opened Order
  import opened Powers
  import opened Config
  import opened Classifier
  import opened Sampling
  import opened Buckets

  ghost function ClassOf<T(!new)>(c: seq<T>, less: (T, T) -> bool, threshold: nat): T -> nat
    requires |c| > 0
  {
    var s, e := Padded(c, less), UseEqual(c, less, threshold);
    (v: T) => Bucket(s, e, less, v)
  }

  lemma ClassifierAgrees<T(!new)>(cl: Classifier<T>, equal: bool, c: seq<T>, threshold: nat)
    requires cl.Built() && |c| > 0 && cl.Splitters() == Padded(c, cl.less) && equal == UseEqual(c, cl.less, threshold)
    ensures Agrees(cl, equal, ClassOf(c, cl.less, threshold))
  {
  }

  lemma ClassesUsed<T(!new)>(c: seq<T>, less: (T, T) -> bool, threshold: nat)
    requires |c| > 0
    ensures forall x :: ClassOf(c, less, threshold)(x) < Used(|Padded(c, less)|, UseEqual(c, less, threshold))
  {
    forall x ensures ClassOf(c, less, threshold)(x) < Used(|Padded(c, less)|, UseEqual(c, less, threshold)) {
      EmptyBucket(Padded(c, less), less, x);
    }
  }

  lemma ClassOfRespects<T(!new)>(c: seq<T>, less: (T, T) -> bool, threshold: nat)
    requires StrictWeakOrder(less) && |c| > 0 && Sorted(c, less)
    ensures Respects(ClassOf(c, less, threshold), less)
  {
    PaddedSorted(c, less);
    var s, e := Padded(c, less), UseEqual(c, less, threshold);
    forall x, y | Bucket(s, e, less, x) < Bucket(s, e, less, y) ensures !less(y, x) {
      if less(y, x) {
        assert !less(x, y);
        BucketOrder(s, e, less, y, x);
      }
    }
  }

  /** All elements of an equality bucket are equivalent. */
  lemma EqualityPiece<T(!new)>(c: seq<T>, less: (T, T) -> bool, threshold: nat, p: seq<T>, i: nat)
    requires StrictWeakOrder(less) && |c| > 0 && Sorted(c, less) && UseEqual(c, less, threshold)
    requires i < |Padded(c, less)| && AllOf(p, ClassOf(c, less, threshold), 2 * i + 1)
    ensures Uniform(p, less)
  {
    PaddedSorted(c, less);
    var s := Padded(c, less);
    forall x, y | x in p && y in p ensures !less(x, y) {
      EqualityBucket(s, less, x, i);
      EqualityBucket(s, less, y, i);
    }
  }

  /** Strict decrease: a bucket that is descended into is smaller than the whole range. */
  lemma PieceShrinks<T(!new)>(v: seq<T>, bs: seq<nat>, c: seq<T>, less: (T, T) -> bool, threshold: nat, i: nat)
    requires StrictWeakOrder(less) && |c| > 0 && Sorted(c, less) && |c| - 1 >= threshold
    requires PiecesPure(v, bs, ClassOf(c, less, threshold)) && forall x :: x in c ==> x in v
    requires var e := UseEqual(c, less, threshold); Descended(i, Used(|Padded(c, less)|, e), e)
    requires i + 1 < |bs|
    ensures 0 <= bs[i + 1] - bs[i] < |v|
  {
    var cls := ClassOf(c, less, threshold);
    var x := SomeCandidateElsewhere(c, less, threshold, i);
    var k :| 0 <= k < |v| && v[k] == x;
    hide PurePiece;
    assert PurePiece(v, bs, cls, i);
    PieceBounds(v, bs, cls, i);
    if bs[i] <= k < bs[i + 1] { PieceClass(v, bs, cls, i, k); }
  }

  /** What the sorter may assume of its configuration and comparator. */
  ghost predicate Sortable<T(!new)>(cfg: Config, less: (T, T) -> bool) {
    cfg.Valid() && cfg.Shrinks() && StrictWeakOrder(less)
  }

  /** The candidates that decide a partition of v. */
  ghost predicate Chosen<T(!new)>(c: seq<T>, v: seq<T>, cfg: Config, less: (T, T) -> bool)
  {
    && |v| > 2 * cfg.baseCase && cfg.Valid() && |c| == Pow2(cfg.LogBuckets(|v|)) - 1 && |c| > 0
    && Sorted(c, less) && forall x :: x in c ==> x in v
  }

  /** The sample holds a candidate per splitter. */
  /** The sample has room for all candidates, and for no other one, and is shorter than the input. */
  lemma SampleShape(cfg: Config, n: nat)
    requires cfg.Valid() && n > 2 * cfg.baseCase
    ensures var m := Pow2(cfg.LogBuckets(n)) - 1;
      && m > 0 && Taken(m, cfg.Step(n)) <= cfg.NumSamples(n) < n && cfg.LogBuckets(n) > 0
      && cfg.NumSamples(n) < Taken(m + 1, cfg.Step(n))
  {
    SampleFits(cfg, n);
    BucketsFit(cfg, n);
    Pow2Mono(1, cfg.LogBuckets(n));
    var m, step := Pow2(cfg.LogBuckets(n)) - 1, cfg.Step(n);
    assert step * (m + 1) == m * step + step;
  }

  lemma PrefixSorted<T(!new)>(t: seq<T>, begin: nat, x: nat, y: nat, less: (T, T) -> bool)
    requires begin + x <= begin + y <= |t| && Sorted(t[begin..begin + y], less)
    ensures Sorted(t[begin..begin + x], less)
  {
    var u, w := t[begin..begin + y], t[begin..begin + x];
    assert forall k :: 0 <= k < x ==> w[k] == u[k];
  }

  lemma CandidatesInside<T>(t: seq<T>, begin: nat, end: nat, step: nat, m: nat)
    requires step > 0 && begin + Taken(m, step) <= end <= |t|
    ensures forall x :: x in Candidates(t, begin, step, m) ==> x in t[begin..end]
  {
    var c := Candidates(t, begin, step, m);
    forall i | 0 <= i < m ensures c[i] in t[begin..end] {
      MulMono(i + 1, m, step);
      MulMono(1, i + 1, step);
      assert c[i] == t[begin..end][(i + 1) * step - 1];
    }
  }

  lemma ChosenFrom<T(!new)>(
      t: seq<T>, begin: nat, end: nat, log: nat, step: nat, size: nat, cfg: Config, less: (T, T) -> bool)
    requires begin <= end <= |t| && Sampled(cfg, end - begin, log, step, size) && step > 0 && Pow2(log) > 1
    requires Taken(Pow2(log) - 1, step) <= size <= end - begin && Sorted(t[begin..begin + size], less)
    ensures Sorted(t[begin..begin + Taken(Pow2(log) - 1, step)], less)
    ensures Chosen(Candidates(t, begin, step, Pow2(log) - 1), t[begin..end], cfg, less)
  {
    hide Sorted, Candidates, Pow2, Taken, Config.LogBuckets, Config.Step, Config.NumSamples, Chosen;
    var m := Pow2(log) - 1;
    PrefixSorted(t, begin, Taken(m, step), size, less);
    CandidatesSorted(t, begin, step, m, less);
    CandidatesInside(t, begin, end, step, m);
    ChosenWhen(Candidates(t, begin, step, m), t[begin..end], cfg, less);
  }

  lemma ChosenWhen<T(!new)>(c: seq<T>, v: seq<T>, cfg: Config, less: (T, T) -> bool)
    requires |v| > 2 * cfg.baseCase && cfg.Valid() && |c| == Pow2(cfg.LogBuckets(|v|)) - 1 && |c| > 0
    requires Sorted(c, less) && forall x :: x in c ==> x in v
    ensures Chosen(c, v, cfg, less)
  {
  }

  /** For a range of n elements: 2^log buckets, a sample of this size, and every step-th element is a candidate. */
  ghost predicate Sampled(cfg: Config, n: nat, log: nat, step: nat, size: nat) {
    cfg.Valid() && n > 2 * cfg.baseCase && log == cfg.LogBuckets(n) && step == cfg.Step(n) && size == cfg.NumSamples(n)
  }

  method SampleParameters<T(!new)>(cfg: Config, less: (T, T) -> bool, n: nat) returns (log: nat, step: nat, size: nat)
    requires Sortable(cfg, less) && n > 2 * cfg.baseCase
    ensures Sampled(cfg, n, log, step, size) && StrictWeakOrder(less)
    ensures log > 0 && step > 0 && Pow2(log) > 1 && Taken(Pow2(log) - 1, step) <= size < n
  {
    SampleShape(cfg, n);
    log, step, size := cfg.LogBuckets(n), cfg.Step(n), cfg.NumSamples(n);
  }

  /** Chooses the splitters from the sorted sample in front of the range, and builds the classifier. */
  method ClassifierFromSample<T(!new)>(
      a: array<T>, begin: nat, end: nat, log: nat, step: nat, ghost size: nat, cfg: Config, less: (T, T) -> bool)
      returns (cl: Classifier<T>, used: nat, equal: bool, ghost c: seq<T>)
    requires StrictWeakOrder(less) && begin <= end <= a.Length && Sampled(cfg, end - begin, log, step, size)
    requires log > 0 && step > 0 && Pow2(log) > 1 && Taken(Pow2(log) - 1, step) <= size < end - begin
    requires Sorted(a[begin..begin + size], less)
    ensures fresh(cl) && fresh(cl.tree) && fresh(cl.sorted) && cl.less == less
    ensures Chosen(c, a[begin..end], cfg, less) && cl.Built() && cl.Splitters() == Padded(c, less)
    ensures equal == UseEqual(c, less, cfg.threshold) && used == Used(|Padded(c, less)|, equal)
  {
    ghost var s := a[..];
    ChosenFrom(s, begin, end, log, step, size, cfg, less);
    hide Sampled, StrictWeakOrder, Chosen, Sorted, Candidates, Taken, Padded, UseEqual, Used, Pow2;
    c := Candidates(s, begin, step, Pow2(log) - 1);
    cl := new Classifier<T>(Pow2(log), a[begin], less);
    assert a[..] == s;
    used, equal := ChooseSplitters(a, begin, step, log, cfg.threshold, cl);
    assert a[..] == s;
  }

  lemma ChosenStays<T(!new)>(c: seq<T>, v: seq<T>, u: seq<T>, cfg: Config, less: (T, T) -> bool)
    requires Chosen(c, v, cfg, less) && multiset(u) == multiset(v)
    ensures Chosen(c, u, cfg, less)
  {
    assert |u| == |multiset(u)| == |multiset(v)| == |v|;
    forall x | x in c ensures x in u { assert x in multiset(v); assert x in multiset(u); }
  }

  ghost predicate AllShorter(bs: seq<nat>, equal: bool, n: nat)
    requires |bs| > 0
  {
    var used := |bs| - 1;
    forall i: nat :: Descended(i, used, equal) ==> Shorter(bs, i, n)
  }

  lemma ChosenFacts<T(!new)>(c: seq<T>, v: seq<T>, cfg: Config, less: (T, T) -> bool)
    requires Chosen(c, v, cfg, less) && Sortable(cfg, less)
    ensures |c| > 0 && Sorted(c, less) && StrictWeakOrder(less)
  {
  }

  /** The recursion descends into smaller ranges only. */
  lemma DescentShrinks<T(!new)>(
      v: seq<T>, bs: seq<nat>, c: seq<T>, cfg: Config, less: (T, T) -> bool, equal: bool)
    requires Sortable(cfg, less) && Chosen(c, v, cfg, less) && |v| > cfg.SingleLevel() && |c| > 0
    requires PiecesPure(v, bs, ClassOf(c, less, cfg.threshold))
    requires equal == UseEqual(c, less, cfg.threshold) && |bs| == Used(|Padded(c, less)|, equal) + 1
    ensures AllShorter(bs, equal, |v|)
  {
    RecursiveLevel(cfg, |v|);
    forall i: nat | Descended(i, |bs| - 1, equal) ensures Shorter(bs, i, |v|) {
      BoundaryMono(bs, |v|, i, i + 1);
      PieceShrinks(v, bs, c, less, cfg.threshold, i);
    }
  }

  /** If v is partitioned on a recursive level by a classifier made from c, all ranges descended into are shorter. */
  ghost predicate StepDescends<T(!new)>(v: seq<T>, bs: seq<nat>, c: seq<T>, cfg: Config, less: (T, T) -> bool) {
    Chosen(c, v, cfg, less) && |v| > cfg.SingleLevel() && |c| > 0 && PiecesPure(v, bs, ClassOf(c, less, cfg.threshold))
    && |bs| == Used(|Padded(c, less)|, UseEqual(c, less, cfg.threshold)) + 1 ==>
      AllShorter(bs, UseEqual(c, less, cfg.threshold), |v|)
  }

  /** Equal input on the first recursive level goes to one bucket as a whole, if the threshold is too high. */
  lemma EqualInputSticks<T(!new)>(x: T, cfg: Config, less: (T, T) -> bool) returns (v: seq<T>, bs: seq<nat>, c: seq<T>)
    requires cfg.Valid() && !cfg.Shrinks() && StrictWeakOrder(less)
    ensures !StepDescends(v, bs, c, cfg, less)
  {
    var n := cfg.SingleLevel() + 1;
    FirstRecursiveLevel(cfg, n);
    var m := Pow2(cfg.LogBuckets(n)) - 1;
    Pow2Mono(1, cfg.LogBuckets(n));
    v, c := Repeat(n, x), Repeat(m, x);
    EqualInputStays(c, less, cfg.threshold, x);
    assert v[0] == x;
    bs := [0] + Repeat(Used(|Padded(c, less)|, false), n);
    AllInFirst(v, bs, c, less, cfg.threshold, x);
    assert Descended(0, |bs| - 1, false) && !Shorter(bs, 0, n);
  }

  lemma AllInFirst<T(!new)>(v: seq<T>, bs: seq<nat>, c: seq<T>, less: (T, T) -> bool, threshold: nat, x: T)
    requires |c| > 0 && !UseEqual(c, less, threshold) && Bucket(Padded(c, less), false, less, x) == 0
    requires |bs| > 1 && bs == [0] + Repeat(|bs| - 1, |v|) && forall y :: y in v ==> y == x
    ensures PiecesPure(v, bs, ClassOf(c, less, threshold))
  {
    forall i | 0 <= i < |bs| - 1 ensures PurePiece(v, bs, ClassOf(c, less, threshold), i) {
      if i > 0 { assert Piece(v, bs, i) == []; } else { assert Piece(v, bs, i) == v; }
    }
  }

  /** Strict decrease holds for all inputs, samples and partitions of recursive levels exactly if cfg.Shrinks(). */
  lemma DescendsIff<T(!new)>(x: T, cfg: Config, less: (T, T) -> bool)
    requires cfg.Valid() && StrictWeakOrder(less)
    ensures (forall v: seq<T>, bs: seq<nat>, c: seq<T> :: StepDescends(v, bs, c, cfg, less)) <==> cfg.Shrinks()
  {
    if cfg.Shrinks() {
      forall v: seq<T>, bs: seq<nat>, c: seq<T>
        ensures StepDescends(v, bs, c, cfg, less)
      {
        ShrinksSuffices(v, bs, c, cfg, less);
      }
    } else {
      var v, bs, c := EqualInputSticks(x, cfg, less);
    }
  }

  lemma ShrinksSuffices<T(!new)>(v: seq<T>, bs: seq<nat>, c: seq<T>, cfg: Config, less: (T, T) -> bool)
    requires Sortable(cfg, less)
    ensures StepDescends(v, bs, c, cfg, less)
  {
    hide Sortable, Chosen, PiecesPure, ClassOf, Padded, UseEqual, AllShorter;
    if Chosen(c, v, cfg, less) && |v| > cfg.SingleLevel() && |c| > 0
      && PiecesPure(v, bs, ClassOf(c, less, cfg.threshold))
       && |bs| == Used(|Padded(c, less)|, UseEqual(c, less, cfg.threshold)) + 1 {
      DescentShrinks(v, bs, c, cfg, less, UseEqual(c, less, cfg.threshold));
    }
  }

  /** Once every bucket that is descended into is sorted, the whole range is. */
  lemma AllPiecesSorted<T(!new)>(
      v: seq<T>, bs: seq<nat>, c: seq<T>, cfg: Config, less: (T, T) -> bool, done: set<nat>)
    requires StrictWeakOrder(less) && |c| > 0 && Sorted(c, less)
    requires Progressing(v, bs, ClassOf(c, less, cfg.threshold), cfg.baseCase, less, done)
    requires var e := UseEqual(c, less, cfg.threshold);
      && |bs| == Used(|Padded(c, less)|, e) + 1
      && forall j: nat :: Descended(j, |bs| - 1, e) ==> j in done
    ensures Sorted(v, less)
  {
    var cls, s := ClassOf(c, less, cfg.threshold), Padded(c, less);
    ClassOfRespects(c, less, cfg.threshold);
    forall j | 0 <= j < |bs| - 1 ensures SortedPiece(v, bs, less, j) {
      if !Descended(j, |bs| - 1, UseEqual(c, less, cfg.threshold)) {
        assert PurePiece(v, bs, cls, j);
        EqualityPiece(c, less, cfg.threshold, Piece(v, bs, j), j / 2);
        UniformSorted(Piece(v, bs, j), Piece(v, bs, j), less);
      }
    }
    PiecesSort(v, bs, cls, less, 0);
    assert v[bs[0]..] == v;
  }
}
