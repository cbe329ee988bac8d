/**
 * The sequential out-of-place sorter. Partitioning moves a range from one array to the other, so the
 * recursion alternates between the two; the flag inInput says whether the result belongs into the array
 * the range came from.
 */
module PingPong {
  import opened Order
  import opened Powers
  import opened Config
  import opened Classifier
  import opened BaseCase
  import opened Sampling
  import opened Buckets
  import opened Recursion
  import opened Scatter
  import opened Oracle

  // ---------------------------------------------------------------- the two copies of a range

  /**
   * The range as it was distributed is w. Buckets in `done` are sorted where the result belongs (s is the
   * range in the source, d in the target array); the others still are in the target array.
   */
  ghost predicate Sorting<T(!new)>(
      s: seq<T>, d: seq<T>, w: seq<T>, bs: seq<nat>, inInput: bool, less: (T, T) -> bool, done: set<nat>)
  {
    && |s| == |d| == |w| && |bs| > 1 && Boundaries(bs, |w|)
    && forall i :: 0 <= i < |bs| - 1 ==>
         if i in done then Settled(if inInput then s else d, w, bs, less, i) else Pending(d, w, bs, i)
  }

  ghost predicate Pending<T(!new)>(d: seq<T>, w: seq<T>, bs: seq<nat>, i: nat)
    requires i + 1 < |bs|
  {
    bs[i] <= bs[i + 1] <= |w| && |d| == |w| && multiset(Piece(d, bs, i)) == multiset(Piece(w, bs, i))
  }

  ghost predicate Settled<T(!new)>(r: seq<T>, w: seq<T>, bs: seq<nat>, less: (T, T) -> bool, i: nat)
    requires i + 1 < |bs|
  {
    Pending(r, w, bs, i) && Sorted(Piece(r, bs, i), less)
  }

  /** Nothing but bucket i differs. */
  ghost predicate SameBut<T>(s: seq<T>, t: seq<T>, bs: seq<nat>, i: nat)
    requires i + 1 < |bs|
  {
    && |s| == |t| && bs[i] <= bs[i + 1] <= |s|
    && t[..bs[i]] == s[..bs[i]] && t[bs[i + 1]..] == s[bs[i + 1]..]
  }

  /** Settling one bucket leaves the others alone. */
  lemma SettleOne<T(!new)>(
      s: seq<T>, d: seq<T>, s': seq<T>, d': seq<T>, w: seq<T>, bs: seq<nat>, inInput: bool, less: (T, T) -> bool,
      done: set<nat>, i: nat)
    requires Sorting(s, d, w, bs, inInput, less, done) && i + 1 < |bs|
    requires SameBut(s, s', bs, i) && SameBut(d, d', bs, i)
    requires Settled(if inInput then s' else d', w, bs, less, i)
    ensures Sorting(s', d', w, bs, inInput, less, done + {i})
  {
    forall j | 0 <= j < |bs| - 1
      ensures if j in done + {i} then Settled(if inInput then s' else d', w, bs, less, j) else Pending(d', w, bs, j)
    {
      if j != i {
        OtherPiece(s, s', bs, i, j);
        OtherPiece(d, d', bs, i, j);
      }
    }
  }

  lemma {:induction false} PiecesBag<T(!new)>(r: seq<T>, w: seq<T>, bs: seq<nat>, i: nat)
    requires |r| == |w| && |bs| > 1 && Boundaries(bs, |w|) && i < |bs|
    requires forall j :: 0 <= j < |bs| - 1 ==> Pending(r, w, bs, j)
    ensures bs[i] <= |w| && multiset(r[bs[i]..]) == multiset(w[bs[i]..])
    decreases |bs| - i
  {
    BoundaryMono(bs, |w|, i, |bs| - 1);
    if i + 1 < |bs| {
      PiecesBag(r, w, bs, i + 1);
      assert Pending(r, w, bs, i);
      assert r[bs[i]..] == Piece(r, bs, i) + r[bs[i + 1]..];
      assert w[bs[i]..] == Piece(w, bs, i) + w[bs[i + 1]..];
    }
  }

  /** Once all buckets are settled, the range is sorted where the result belongs. */
  lemma AllSettled<T(!new)>(
      s: seq<T>, d: seq<T>, w: seq<T>, bs: seq<nat>, inInput: bool, less: (T, T) -> bool, done: set<nat>, cls: T -> nat)
    requires Sorting(s, d, w, bs, inInput, less, done) && PiecesPure(w, bs, cls) && Respects(cls, less)
    requires forall i: nat :: i < |bs| - 1 ==> i in done
    ensures var r := if inInput then s else d; Sorted(r, less) && multiset(r) == multiset(w)
  {
    var r := if inInput then s else d;
    forall i | 0 <= i < |bs| - 1
      ensures Pending(r, w, bs, i) && PurePiece(r, bs, cls, i) && SortedPiece(r, bs, less, i)
    {
      assert i in done;
      assert Settled(if inInput then s else d, w, bs, less, i) && PurePiece(w, bs, cls, i);
      SamePure(Piece(w, bs, i), Piece(r, bs, i), cls, i);
    }
    PiecesBag(r, w, bs, 0);
    PiecesSort(r, bs, cls, less, 0);
    assert r[bs[0]..] == r && w[bs[0]..] == w;
  }

  // ---------------------------------------------------------------- cleanup

  /** Only [lo, hi) of the array changed. */
  twostate predicate Outside<T(!new)>(a: array<T>, lo: nat, hi: nat)
    requires lo <= hi <= a.Length
    reads a
  {
    a[..lo] == old(a[..lo]) && a[hi..] == old(a[hi..])
  }

  /** Moves from[lo..hi] to the same place in the other array. */
  method MoveRange<T(!new)>(from: array<T>, to: array<T>, lo: nat, hi: nat)
    requires lo <= hi <= from.Length && hi <= to.Length && from != to
    modifies to
    ensures Outside(to, lo, hi) && to[lo..hi] == from[lo..hi]
  {
    for i := lo to hi
      invariant forall j :: 0 <= j < lo || i <= j < to.Length ==> to[j] == old(to[j])
      invariant forall j :: lo <= j < i ==> to[j] == from[j]
    {
      to[i] := from[i];
    }
  }

  /** What changes inside one bucket changes nothing else of the range. */
  lemma InsideBucket<T>(t: seq<T>, u: seq<T>, lo: nat, hi: nat, bs: seq<nat>, i: nat)
    requires lo <= hi <= |t| == |u| && i + 1 < |bs| && bs[i] <= bs[i + 1] <= hi - lo
    requires u[..lo + bs[i]] == t[..lo + bs[i]] && u[lo + bs[i + 1]..] == t[lo + bs[i + 1]..]
    ensures u[..lo] == t[..lo] && u[hi..] == t[hi..]
    ensures SameBut(t[lo..hi], u[lo..hi], bs, i)
    ensures Piece(t[lo..hi], bs, i) == t[lo + bs[i]..lo + bs[i + 1]]
    ensures Piece(u[lo..hi], bs, i) == u[lo + bs[i]..lo + bs[i + 1]]
  {
    PieceInRange(t, u, lo, hi, bs, i);
    assert u[..lo] == u[..lo + bs[i]][..lo] == t[..lo + bs[i]][..lo] == t[..lo];
    var k := hi - lo - bs[i + 1];
    assert u[hi..] == u[lo + bs[i + 1]..][k..] == t[lo + bs[i + 1]..][k..] == t[hi..];
  }

  /** Moves a range of the target array back if the result belongs there. */
  method MoveBack<T(!new)>(src: array<T>, dst: array<T>, start: nat, stop: nat, inInput: bool)
    requires src != dst && start <= stop <= src.Length && stop <= dst.Length
    modifies src
    ensures Outside(src, start, stop) && (if inInput then src else dst)[start..stop] == dst[start..stop]
    ensures dst[..] == old(dst[..])
  {
    if inInput {
      MoveRange(dst, src, start, stop);
    }
  }

  /** Sorts a range of the target array and moves it back if the result belongs there. */
  method SortRange<T(!new)>(
      src: array<T>, dst: array<T>, start: nat, stop: nat, inInput: bool, less: (T, T) -> bool)
    requires StrictWeakOrder(less) && src != dst && start <= stop <= src.Length && stop <= dst.Length
    modifies src, dst
    ensures Outside(src, start, stop) && Outside(dst, start, stop)
    ensures var r := (if inInput then src else dst)[start..stop];
      Sorted(r, less) && multiset(r) == old(multiset(dst[start..stop]))
    ensures multiset(dst[start..stop]) == old(multiset(dst[start..stop]))
  {
    hide InsertionSorted, StrictWeakOrder, Sorted;
    BaseCaseSort(dst, start, stop, less);
    MoveBack(src, dst, start, stop, inInput);
  }

  /** Bucket i was taken from the target array and sorted to where the result belongs. */
  lemma BucketSettled<T(!new)>(
      s: seq<T>, d: seq<T>, s': seq<T>, d': seq<T>, lo: nat, hi: nat, w: seq<T>, bs: seq<nat>, inInput: bool,
      less: (T, T) -> bool, done: set<nat>, i: nat)
    requires lo <= hi <= |s| == |s'| && hi <= |d| == |d'| && i + 1 < |bs| && bs[i] <= bs[i + 1] <= hi - lo
    requires Sorting(s[lo..hi], d[lo..hi], w, bs, inInput, less, done) && i !in done
    requires s'[..lo + bs[i]] == s[..lo + bs[i]] && s'[lo + bs[i + 1]..] == s[lo + bs[i + 1]..]
    requires d'[..lo + bs[i]] == d[..lo + bs[i]] && d'[lo + bs[i + 1]..] == d[lo + bs[i + 1]..]
    requires var r := if inInput then s'[lo + bs[i]..lo + bs[i + 1]] else d'[lo + bs[i]..lo + bs[i + 1]];
      Sorted(r, less) && multiset(r) == multiset(d[lo + bs[i]..lo + bs[i + 1]])
    ensures s'[..lo] == s[..lo] && s'[hi..] == s[hi..] && d'[..lo] == d[..lo] && d'[hi..] == d[hi..]
    ensures Sorting(s'[lo..hi], d'[lo..hi], w, bs, inInput, less, done + {i})
  {
    assert Pending(d[lo..hi], w, bs, i);
    hide Sorting, Sorted;
    InsideBucket(s, s', lo, hi, bs, i);
    InsideBucket(d, d', lo, hi, bs, i);
    hide SameBut;
    SettleOne(s[lo..hi], d[lo..hi], s'[lo..hi], d'[lo..hi], w, bs, inInput, less, done, i);
  }

  /** Finishes a small bucket; the others wait in the target array. */
  method SortAndMove<T(!new)>(
      src: array<T>, dst: array<T>, lo: nat, hi: nat, bs: seq<nat>, i: nat, base: nat, lastLevel: bool, inInput: bool,
      less: (T, T) -> bool, ghost w: seq<T>, ghost done: set<nat>)
      returns (ghost done': set<nat>)
    requires StrictWeakOrder(less) && src != dst && lo <= hi <= src.Length && hi <= dst.Length && i + 1 < |bs|
    requires Sorting(src[lo..hi], dst[lo..hi], w, bs, inInput, less, done) && i !in done
    modifies src, dst
    ensures Outside(src, lo, hi) && Outside(dst, lo, hi)
    ensures Sorting(src[lo..hi], dst[lo..hi], w, bs, inInput, less, done')
    ensures done' == (if lastLevel || bs[i + 1] - bs[i] <= 2 * base then done + {i} else done)
  {
    done' := done;
    ghost var s, d := src[..], dst[..];
    assert Pending(d[lo..hi], w, bs, i) && |w| == hi - lo;
    if lastLevel || bs[i + 1] - bs[i] <= 2 * base {
      SortRange(src, dst, lo + bs[i], lo + bs[i + 1], inInput, less);
      BucketSettled(s, d, src[..], dst[..], lo, hi, w, bs, inInput, less, done, i);
      done' := done + {i};
    }
  }

  /** Moves an equality bucket back if the result belongs there. */
  method Move<T(!new)>(
      src: array<T>, dst: array<T>, lo: nat, hi: nat, bs: seq<nat>, i: nat, inInput: bool, less: (T, T) -> bool,
      ghost w: seq<T>, ghost done: set<nat>)
    requires src != dst && lo <= hi <= src.Length && hi <= dst.Length && i + 1 < |bs|
    requires Sorting(src[lo..hi], dst[lo..hi], w, bs, inInput, less, done) && i !in done
    requires bs[i] <= bs[i + 1] <= |w| && Uniform(Piece(w, bs, i), less)
    modifies src
    ensures Outside(src, lo, hi)
    ensures Sorting(src[lo..hi], dst[lo..hi], w, bs, inInput, less, done + {i})
  {
    ghost var s, d := src[..], dst[..];
    assert bs[i + 1] <= hi - lo;
    MoveBack(src, dst, lo + bs[i], lo + bs[i + 1], inInput);
    UniformSettled(s, d, src[..], lo, hi, w, bs, inInput, less, done, i);
  }

  lemma UniformSettled<T(!new)>(
      s: seq<T>, d: seq<T>, s': seq<T>, lo: nat, hi: nat, w: seq<T>, bs: seq<nat>, inInput: bool,
      less: (T, T) -> bool, done: set<nat>, i: nat)
    requires lo <= hi <= |s| == |s'| && hi <= |d| && i + 1 < |bs| && bs[i] <= bs[i + 1] <= hi - lo
    requires Sorting(s[lo..hi], d[lo..hi], w, bs, inInput, less, done) && i !in done
    requires |w| == hi - lo && Uniform(Piece(w, bs, i), less)
    requires s'[..lo + bs[i]] == s[..lo + bs[i]] && s'[lo + bs[i + 1]..] == s[lo + bs[i + 1]..]
    requires (if inInput then s' else d)[lo + bs[i]..lo + bs[i + 1]] == d[lo + bs[i]..lo + bs[i + 1]]
    ensures s'[..lo] == s[..lo] && s'[hi..] == s[hi..]
    ensures Sorting(s'[lo..hi], d[lo..hi], w, bs, inInput, less, done + {i})
  {
    assert Pending(d[lo..hi], w, bs, i);
    UniformBucket(d, lo, hi, w, bs, less, i);
    hide *;
    BucketSettled(s, d, s', d, lo, hi, w, bs, inInput, less, done, i);
  }

  lemma UniformBucket<T(!new)>(
      d: seq<T>, lo: nat, hi: nat, w: seq<T>, bs: seq<nat>, less: (T, T) -> bool, i: nat)
    requires lo <= hi <= |d| && i + 1 < |bs| && bs[i] <= bs[i + 1] <= hi - lo
    requires Pending(d[lo..hi], w, bs, i) && Uniform(Piece(w, bs, i), less)
    ensures Sorted(d[lo + bs[i]..lo + bs[i + 1]], less)
  {
    InsideBucket(d, d, lo, hi, bs, i);
    UniformSorted(Piece(w, bs, i), Piece(d[lo..hi], bs, i), less);
  }

  /** Buckets that are finished when the partitioning step is: all but the large ones to descend into. */
  predicate Finished(bs: seq<nat>, i: nat, base: nat, lastLevel: bool, equal: bool)
    requires i + 1 < |bs|
  {
    lastLevel || bs[i + 1] - bs[i] <= 2 * base || !Descended(i, |bs| - 1, equal)
  }

  /** The cleanup after distribution. */
  method CleanUp<T(!new)>(
      src: array<T>, dst: array<T>, lo: nat, hi: nat, bs: seq<nat>, equal: bool, base: nat, lastLevel: bool,
      inInput: bool, less: (T, T) -> bool, ghost w: seq<T>)
      returns (ghost done: set<nat>)
    requires StrictWeakOrder(less) && src != dst && lo <= hi <= src.Length && hi <= dst.Length
    requires |bs| > 1 && Sorting(src[lo..hi], dst[lo..hi], w, bs, inInput, less, {})
    requires equal ==> |bs| % 2 == 1
    requires forall i: nat :: i < |bs| - 1 && !Descended(i, |bs| - 1, equal) ==> UniformPiece(w, bs, less, i)
    modifies src, dst
    ensures Outside(src, lo, hi) && Outside(dst, lo, hi)
    ensures Sorting(src[lo..hi], dst[lo..hi], w, bs, inInput, less, done)
    ensures forall i: nat :: i in done <==> i < |bs| - 1 && Finished(bs, i, base, lastLevel, equal)
  {
    hide StrictWeakOrder, Sorting, UniformPiece;
    var numBuckets := |bs| - 1;
    done := {};
    if equal {
      var i := 0;
      while i < numBuckets - 2
        invariant 0 <= i <= numBuckets - 2 && i % 2 == 0
        invariant Outside(src, lo, hi) && Outside(dst, lo, hi)
        invariant Sorting(src[lo..hi], dst[lo..hi], w, bs, inInput, less, done)
        invariant forall j: nat :: j in done <==> j < i && Finished(bs, j, base, lastLevel, equal)
      {
        done := SortAndMove(src, dst, lo, hi, bs, i, base, lastLevel, inInput, less, w, done);
        UniformFacts(w, bs, less, i + 1);
        Move(src, dst, lo, hi, bs, i + 1, inInput, less, w, done);
        done := done + {i + 1};
        i := i + 2;
      }
      done := SortAndMove(src, dst, lo, hi, bs, numBuckets - 2, base, lastLevel, inInput, less, w, done);
      done := SortAndMove(src, dst, lo, hi, bs, numBuckets - 1, base, lastLevel, inInput, less, w, done);
    } else {
      for i := 0 to numBuckets
        invariant Outside(src, lo, hi) && Outside(dst, lo, hi)
        invariant Sorting(src[lo..hi], dst[lo..hi], w, bs, inInput, less, done)
        invariant forall j: nat :: j in done <==> j < i && Finished(bs, j, base, lastLevel, equal)
      {
        done := SortAndMove(src, dst, lo, hi, bs, i, base, lastLevel, inInput, less, w, done);
      }
    }
  }

  ghost predicate UniformPiece<T(!new)>(w: seq<T>, bs: seq<nat>, less: (T, T) -> bool, i: nat)
    requires i + 1 < |bs|
  {
    bs[i] <= bs[i + 1] <= |w| && Uniform(Piece(w, bs, i), less)
  }

  lemma UniformFacts<T(!new)>(w: seq<T>, bs: seq<nat>, less: (T, T) -> bool, i: nat)
    requires i + 1 < |bs| && UniformPiece(w, bs, less, i)
    ensures bs[i] <= bs[i + 1] <= |w| && Uniform(Piece(w, bs, i), less)
  {
  }

  // ---------------------------------------------------------------- distribution

  /** The oracle's bytes can hold every bucket. */
  lemma UsedFits<T(!new)>(c: seq<T>, v: seq<T>, cfg: Config, less: (T, T) -> bool, equal: bool)
    requires Chosen(c, v, cfg, less) && cfg.logMax <= 7
    ensures 2 <= Used(|Padded(c, less)|, equal) <= 256
  {
    var log := cfg.LogBuckets(|v|);
    LogBucketsBound(cfg, |v|);
    PowerFits(|Distinct(c, less)|, log);
    Pow2Mono(log, 7);
  }

  lemma UsedIsEven(numSplitters: nat, equal: bool)
    ensures equal ==> (Used(numSplitters, equal) + 1) % 2 == 1
  {
    if equal { assert Used(numSplitters, equal) + 1 == 2 * (numSplitters + 1) + 1; }
  }

  lemma UnrollFits<T(!new)>(cfg: Config, less: (T, T) -> bool, n: nat)
    requires Sortable(cfg, less) && n > 2 * cfg.baseCase
    ensures 0 < cfg.unroll <= n
  {
  }

  lemma BuiltFacts<T(!new)>(
      cl: Classifier<T>, c: seq<T>, v: seq<T>, cfg: Config, less: (T, T) -> bool, equal: bool, used: nat)
    requires Chosen(c, v, cfg, less) && Sortable(cfg, less) && cfg.logMax <= 7
    requires cl.less == less && cl.Built() && cl.Splitters() == Padded(c, less)
    requires equal == UseEqual(c, less, cfg.threshold) && used == Used(|Padded(c, less)|, equal)
    ensures |c| > 0 && 1 < used <= 256 && (equal ==> (used + 1) % 2 == 1)
    ensures Agrees(cl, equal, ClassOf(c, less, cfg.threshold)) && forall x :: ClassOf(c, less, cfg.threshold)(x) < used
  {
    ChosenFacts(c, v, cfg, less);
    UsedFits(c, v, cfg, less, equal);
    UsedIsEven(|Padded(c, less)|, equal);
    hide Chosen, Sortable, Used, Padded, UseEqual, ClassOf, Agrees;
    ClassifierAgrees(cl, equal, c, cfg.threshold);
    ClassesUsed(c, less, cfg.threshold);
  }

  lemma DistributedPieces<T(!new)>(v: seq<T>, cls: T -> nat, k: nat, bs: seq<nat>)
    requires Bounded(Classes(v, cls), k) && |bs| == k + 1 && Boundaries(bs, |v|)
    requires forall b :: 0 <= b < |bs| ==> bs[b] == First(Classes(v, cls), b)
    ensures |Stable(v, Classes(v, cls), k)| == |v| && PiecesPure(Stable(v, Classes(v, cls), k), bs, cls)
    ensures multiset(Stable(v, Classes(v, cls), k)) == multiset(v)
  {
    var o := Classes(v, cls);
    FirstEnds(o, k);
    StableBag(v, o, k);
    forall i | 0 <= i < |bs| - 1 ensures PurePiece(Stable(v, o, k), bs, cls, i) {
      StablePiece(v, o, k, i);
      SelectPure(v, o, cls, i);
    }
  }

  /** Classification and distribution: dst[lo..hi] becomes the stable partition of src[lo..hi]. */
  method Distribute<T(!new)>(
      src: array<T>, dst: array<T>, lo: nat, hi: nat, oracle: array<Byte>, unroll: nat, used: nat,
      cl: Classifier<T>, equal: bool, ghost cls: T -> nat)
      returns (bs: seq<nat>)
    requires src != dst && lo <= hi <= src.Length && hi <= dst.Length && hi <= oracle.Length
    requires (oracle as object) != src && (oracle as object) != dst
    requires Agrees(cl, equal, cls) && 0 < unroll <= hi - lo && 1 < used <= 256 && forall x :: cls(x) < used
    modifies dst, oracle
    ensures Outside(dst, lo, hi)
    ensures |bs| == used + 1 && PiecesPure(dst[lo..hi], bs, cls)
    ensures multiset(dst[lo..hi]) == multiset(src[lo..hi])
  {
    var sizes := new nat[used](_ => 0);
    ghost var v := src[lo..hi];
    ghost var o := Classes(v, cls);
    ClassifyLocally(src, lo, hi, oracle, sizes, cl, equal, unroll, cls);
    assert v == src[lo..hi];
    bs := FindStarts(sizes, o);
    var next := new nat[used](b requires 0 <= b < used => bs[b]);
    DistributeElements(src, lo, hi, dst, oracle, next, o, used);
    DistributedPieces(v, cls, used, bs);
  }

  // ---------------------------------------------------------------- recursion

  /** The arrays of a sorter and the range it works on. */
  predicate Arrays<T(!new)>(src: array<T>, dst: array<T>, oracle: array<Byte>, lo: nat, hi: nat) {
    && src != dst && (oracle as object) != src && (oracle as object) != dst
    && lo <= hi <= src.Length && hi <= dst.Length && hi <= oracle.Length
  }

  /** Moves a sample to the front and sorts it recursively. */
  method SortSample<T(!new)>(
      src: array<T>, dst: array<T>, lo: nat, hi: nat, oracle: array<Byte>, cfg: Config, less: (T, T) -> bool,
      numSamples: nat)
    requires Sortable(cfg, less) && cfg.logMax <= 7 && Arrays(src, dst, oracle, lo, hi) && numSamples < hi - lo
    modifies src, dst, oracle
    ensures Rearranged(src, lo, hi) && Outside(dst, lo, hi) && Sorted(src[lo..lo + numSamples], less)
    decreases hi - lo, 0
  {
    hide Sortable, Sorted;
    SelectSample(src, lo, hi, numSamples);
    ghost var s, d := src[..], dst[..];
    Sequential(src, dst, lo, lo + numSamples, oracle, cfg, less, true);
    PartRearranged(s, src[..], lo, lo, lo + numSamples, hi);
    TailOutside(d, dst[..], lo, lo + numSamples, hi);
  }

  lemma TailOutside<T>(t: seq<T>, u: seq<T>, lo: nat, mid: nat, hi: nat)
    requires lo <= mid <= hi <= |t| == |u| && u[mid..] == t[mid..]
    ensures u[hi..] == t[hi..]
  {
    assert u[hi..] == u[mid..][hi - mid..] && t[hi..] == t[mid..][hi - mid..];
  }

  /** Samples, sorts the sample recursively, and builds the classifier from it. */
  method BuildClassifier<T(!new)>(
      src: array<T>, dst: array<T>, lo: nat, hi: nat, oracle: array<Byte>, cfg: Config, less: (T, T) -> bool)
      returns (cl: Classifier<T>, used: nat, equal: bool, ghost c: seq<T>)
    requires Sortable(cfg, less) && cfg.logMax <= 7 && Arrays(src, dst, oracle, lo, hi) && hi - lo > 2 * cfg.baseCase
    modifies src, dst, oracle
    ensures fresh(cl) && fresh(cl.tree) && fresh(cl.sorted) && cl.less == less
    ensures Rearranged(src, lo, hi) && Outside(dst, lo, hi) && Chosen(c, src[lo..hi], cfg, less)
    ensures cl.Built() && cl.Splitters() == Padded(c, less)
    ensures equal == UseEqual(c, less, cfg.threshold) && used == Used(|Padded(c, less)|, equal)
    decreases hi - lo, 1
  {
    var log, step, size := SampleParameters(cfg, less, hi - lo);
    SortSample(src, dst, lo, hi, oracle, cfg, less, size);
    cl, used, equal, c := ClassifierFromSample(src, lo, hi, log, step, size, cfg, less);
  }

  lemma StartSorting<T(!new)>(s: seq<T>, w: seq<T>, bs: seq<nat>, cls: T -> nat, inInput: bool, less: (T, T) -> bool)
    requires |s| == |w| && |bs| > 1 && PiecesPure(w, bs, cls)
    ensures Sorting(s, w, w, bs, inInput, less, {})
  {
    forall i | 0 <= i < |bs| - 1 ensures Pending(w, w, bs, i) { assert PurePiece(w, bs, cls, i); }
  }

  lemma EqualityPieces<T(!new)>(w: seq<T>, bs: seq<nat>, c: seq<T>, cfg: Config, less: (T, T) -> bool, equal: bool)
    requires StrictWeakOrder(less) && |c| > 0 && Sorted(c, less) && equal == UseEqual(c, less, cfg.threshold)
    requires |bs| == Used(|Padded(c, less)|, equal) + 1 && PiecesPure(w, bs, ClassOf(c, less, cfg.threshold))
    ensures forall i: nat :: i < |bs| - 1 && !Descended(i, |bs| - 1, equal) ==> UniformPiece(w, bs, less, i)
  {
    forall i: nat | i < |bs| - 1 && !Descended(i, |bs| - 1, equal) ensures UniformPiece(w, bs, less, i) {
      assert PurePiece(w, bs, ClassOf(c, less, cfg.threshold), i);
      EqualityPiece(c, less, cfg.threshold, Piece(w, bs, i), i / 2);
    }
  }

  /** Builds the classifier and distributes the range; w is what the target range then holds. */
  method DistributeRange<T(!new)>(
      src: array<T>, dst: array<T>, lo: nat, hi: nat, oracle: array<Byte>, cfg: Config, less: (T, T) -> bool)
      returns (bs: seq<nat>, equal: bool, ghost c: seq<T>, ghost w: seq<T>)
    requires Sortable(cfg, less) && cfg.logMax <= 7 && Arrays(src, dst, oracle, lo, hi) && hi - lo > 2 * cfg.baseCase
    modifies src, dst, oracle
    ensures Outside(src, lo, hi) && Outside(dst, lo, hi) && w == dst[lo..hi]
      && multiset(w) == old(multiset(src[lo..hi]))
    ensures Chosen(c, w, cfg, less) && |c| > 0 && equal == UseEqual(c, less, cfg.threshold)
    ensures |bs| == Used(|Padded(c, less)|, equal) + 1 && PiecesPure(w, bs, ClassOf(c, less, cfg.threshold))
    ensures |bs| > 1 && (equal ==> |bs| % 2 == 1)
    decreases hi - lo, 2
  {
    UnrollFits(cfg, less, hi - lo);
    hide Sortable, StrictWeakOrder, Chosen, Agrees, Padded, UseEqual, ClassOf, Sorted, PiecesPure, Used;
    var cl, used;
    cl, used, equal, c := BuildClassifier(src, dst, lo, hi, oracle, cfg, less);
    ghost var v, cls := src[lo..hi], ClassOf(c, less, cfg.threshold);
    BuiltFacts(cl, c, v, cfg, less, equal, used);
    bs := Distribute(src, dst, lo, hi, oracle, cfg.unroll, used, cl, equal, cls);
    w := dst[lo..hi];
    ChosenStays(c, v, w, cfg, less);
  }

  /** One partitioning step; w is the range as it was distributed. */
  method Partition<T(!new)>(
      src: array<T>, dst: array<T>, lo: nat, hi: nat, oracle: array<Byte>, cfg: Config, less: (T, T) -> bool,
      lastLevel: bool, inInput: bool)
      returns (bs: seq<nat>, equal: bool, ghost c: seq<T>, ghost w: seq<T>, ghost done: set<nat>)
    requires Sortable(cfg, less) && cfg.logMax <= 7 && Arrays(src, dst, oracle, lo, hi) && hi - lo > 2 * cfg.baseCase
    modifies src, dst, oracle
    ensures Outside(src, lo, hi) && Outside(dst, lo, hi) && multiset(w) == old(multiset(src[lo..hi]))
    ensures Chosen(c, w, cfg, less) && |c| > 0 && equal == UseEqual(c, less, cfg.threshold)
    ensures |bs| == Used(|Padded(c, less)|, equal) + 1 && PiecesPure(w, bs, ClassOf(c, less, cfg.threshold))
    ensures Sorting(src[lo..hi], dst[lo..hi], w, bs, inInput, less, done)
    ensures forall i: nat :: i in done <==> i < |bs| - 1 && Finished(bs, i, cfg.baseCase, lastLevel, equal)
    decreases hi - lo, 3
  {
    hide Sortable, StrictWeakOrder, Chosen, Padded, UseEqual, ClassOf, Sorted, Sorting, PiecesPure, Used,
      UniformPiece, Descended, Finished;
    bs, equal, c, w := DistributeRange(src, dst, lo, hi, oracle, cfg, less);
    ChosenFacts(c, w, cfg, less);
    StartSorting(src[lo..hi], w, bs, ClassOf(c, less, cfg.threshold), inInput, less);
    EqualityPieces(w, bs, c, cfg, less, equal);
    done := CleanUp(src, dst, lo, hi, bs, equal, cfg.baseCase, lastLevel, inInput, less, w);
  }

  /** Sorts bucket i recursively unless it is small: from the target array to where the result belongs. */
  method Descend<T(!new)>(
      src: array<T>, dst: array<T>, lo: nat, hi: nat, oracle: array<Byte>, cfg: Config, less: (T, T) -> bool,
      bs: seq<nat>, i: nat, inInput: bool, ghost w: seq<T>, ghost done: set<nat>)
    requires Sortable(cfg, less) && cfg.logMax <= 7 && Arrays(src, dst, oracle, lo, hi)
    requires Sorting(src[lo..hi], dst[lo..hi], w, bs, inInput, less, done)
    requires Shorter(bs, i, hi - lo) && (i in done <==> bs[i + 1] - bs[i] <= 2 * cfg.baseCase)
    modifies src, dst, oracle
    ensures Outside(src, lo, hi) && Outside(dst, lo, hi)
    ensures Sorting(src[lo..hi], dst[lo..hi], w, bs, inInput, less, done + {i})
    decreases hi - lo, 0, 0
  {
    hide Sortable, Sorted, Sorting, SameBut, Settled, Pending;
    var start, stop := lo + bs[i], lo + bs[i + 1];
    if stop - start > 2 * cfg.baseCase {
      ghost var s, d := src[..], dst[..];
      Sequential(dst, src, start, stop, oracle, cfg, less, !inInput);
      BucketSettled(s, d, src[..], dst[..], lo, hi, w, bs, inInput, less, done, i);
    } else {
      assert done + {i} == done;
    }
  }

  /** Descends into all buckets but the equality buckets. */
  method DescendAll<T(!new)>(
      src: array<T>, dst: array<T>, lo: nat, hi: nat, oracle: array<Byte>, cfg: Config, less: (T, T) -> bool,
      bs: seq<nat>, equal: bool, inInput: bool, ghost w: seq<T>, ghost before: set<nat>)
      returns (ghost done: set<nat>)
    requires Sortable(cfg, less) && cfg.logMax <= 7 && Arrays(src, dst, oracle, lo, hi)
    requires |bs| > 1 && (equal ==> |bs| % 2 == 1) && AllShorter(bs, equal, hi - lo)
    requires Sorting(src[lo..hi], dst[lo..hi], w, bs, inInput, less, before)
    requires forall i: nat :: i in before <==> i < |bs| - 1 && Finished(bs, i, cfg.baseCase, false, equal)
    modifies src, dst, oracle
    ensures Outside(src, lo, hi) && Outside(dst, lo, hi)
    ensures Sorting(src[lo..hi], dst[lo..hi], w, bs, inInput, less, done)
    ensures forall i: nat :: i < |bs| - 1 ==> i in done
    decreases hi - lo, 0, 1
  {
    hide Sortable, Sorting;
    var used, i := |bs| - 1, 0;
    done := before;
    while i < used
      invariant 0 <= i && (equal ==> i % 2 == 0)
      invariant Outside(src, lo, hi) && Outside(dst, lo, hi)
      invariant Sorting(src[lo..hi], dst[lo..hi], w, bs, inInput, less, done)
      invariant forall j: nat :: j in done <==> j in before || (j < i && j < used && (equal ==> j % 2 == 0))
    {
      assert Descended(i, used, equal) && Shorter(bs, i, hi - lo);
      Descend(src, dst, lo, hi, oracle, cfg, less, bs, i, inInput, w, done);
      done := done + {i};
      i := i + (if equal then 2 else 1);
    }
    if equal {
      assert Descended(used - 1, used, equal) && Shorter(bs, used - 1, hi - lo);
      Descend(src, dst, lo, hi, oracle, cfg, less, bs, used - 1, inInput, w, done);
      done := done + {used - 1};
    }
  }

  /** What is left to do after a partitioning step: nothing on the last level, else the recursion. */
  method SortBuckets<T(!new)>(
      src: array<T>, dst: array<T>, lo: nat, hi: nat, oracle: array<Byte>, cfg: Config, less: (T, T) -> bool,
      lastLevel: bool, inInput: bool, bs: seq<nat>, equal: bool, ghost c: seq<T>, ghost w: seq<T>,
      ghost before: set<nat>)
    requires Sortable(cfg, less) && cfg.logMax <= 7 && Arrays(src, dst, oracle, lo, hi)
    requires lastLevel == (hi - lo <= cfg.SingleLevel()) && |w| == hi - lo
    requires Chosen(c, w, cfg, less) && |c| > 0 && equal == UseEqual(c, less, cfg.threshold)
    requires |bs| == Used(|Padded(c, less)|, equal) + 1 && PiecesPure(w, bs, ClassOf(c, less, cfg.threshold))
    requires Sorting(src[lo..hi], dst[lo..hi], w, bs, inInput, less, before)
    requires forall i: nat :: i in before <==> i < |bs| - 1 && Finished(bs, i, cfg.baseCase, lastLevel, equal)
    modifies src, dst, oracle
    ensures Outside(src, lo, hi) && Outside(dst, lo, hi)
    ensures var r := if inInput then src[lo..hi] else dst[lo..hi]; Sorted(r, less) && multiset(r) == multiset(w)
    decreases hi - lo, 2
  {
    hide Sortable, StrictWeakOrder, Chosen, Padded, UseEqual, ClassOf, Sorted, Sorting, PiecesPure, Respects;
    ghost var cls := ClassOf(c, less, cfg.threshold);
    ChosenFacts(c, w, cfg, less);
    UsedFits(c, w, cfg, less, equal);
    ClassOfRespects(c, less, cfg.threshold);
    ghost var done := before;
    if !lastLevel {
      DescentShrinks(w, bs, c, cfg, less, equal);
      done := DescendAll(src, dst, lo, hi, oracle, cfg, less, bs, equal, inInput, w, before);
    }
    AllSettled(src[lo..hi], dst[lo..hi], w, bs, inInput, less, done, cls);
  }

  /** Sorts src[lo..hi] into src if inInput holds, else into dst; each of the two is changed in [lo, hi) only. */
  method Sequential<T(!new)>(
      src: array<T>, dst: array<T>, lo: nat, hi: nat, oracle: array<Byte>, cfg: Config, less: (T, T) -> bool,
      inInput: bool)
    requires Sortable(cfg, less) && cfg.logMax <= 7 && Arrays(src, dst, oracle, lo, hi)
    modifies src, dst, oracle
    ensures Outside(src, lo, hi) && Outside(dst, lo, hi)
    ensures var r := if inInput then src[lo..hi] else dst[lo..hi];
      Sorted(r, less) && multiset(r) == old(multiset(src[lo..hi]))
    decreases hi - lo, 4
  {
    assert StrictWeakOrder(less);
    hide Sortable, StrictWeakOrder, Chosen, Padded, UseEqual, ClassOf, Sorted, Sorting, PiecesPure;
    var n := hi - lo;
    if n <= 2 * cfg.baseCase {
      BaseCaseSort(src, lo, hi, less);
      if !inInput {
        MoveRange(src, dst, lo, hi);
      }
      return;
    }
    var lastLevel := n <= cfg.SingleLevel();
    var bs, equal, c, w, done := Partition(src, dst, lo, hi, oracle, cfg, less, lastLevel, inInput);
    SortBuckets(src, dst, lo, hi, oracle, cfg, less, lastLevel, inInput, bs, equal, c, w, done);
  }

  /** The sorter's call operator. */
  method Sort<T(!new)>(a: array<T>, begin: nat, end: nat, checkSorted: bool, cfg: Config, less: (T, T) -> bool)
    requires Sortable(cfg, less) && cfg.logMax <= 7 && begin <= end <= a.Length
    modifies a
    ensures Rearranged(a, begin, end) && Sorted(a[begin..end], less)
  {
    if checkSorted {
      var sorted := SortedCaseSort(a, begin, end, less);
      if sorted { return; }
    }
    if end - begin <= 2 * cfg.baseCase {
      BaseCaseSort(a, begin, end, less);
      return;
    }
    var filler := a[begin];
    var tmp := new T[a.Length](_ => filler);
    var oracle := new Byte[a.Length](_ => 0);
    Sequential(a, tmp, begin, end, oracle, cfg, less, true);
  }
}
