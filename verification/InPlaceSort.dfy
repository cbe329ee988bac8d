/** The sequential in-place sorter: partition, then recurse into the buckets. */
module InPlaceSort {
  import opened Order
  import opened Buckets
  import opened Config
  import opened Classifier
  import opened BaseCase
  import opened Sampling
  import opened Recursion
  import opened InPlacePartition

  /** Moves a sample to the front and sorts it recursively. */
  method SortSample<T(!new)>(
      a: array<T>, begin: nat, end: nat, B: nat, cfg: Config, less: (T, T) -> bool, numSamples: nat)
    requires Sortable(cfg, less) && B > 0 && begin <= end <= a.Length && numSamples < end - begin
    modifies a
    ensures Rearranged(a, begin, end) && Sorted(a[begin..begin + numSamples], less)
    decreases end - begin, 0
  {
    hide Sortable, Sorted;
    SelectSample(a, begin, end, numSamples);
    ghost var s := a[..];
    Sequential(a, begin, begin + numSamples, B, cfg, less);
    PartRearranged(s, a[..], begin, begin, begin + numSamples, end);
  }

  /** Samples, sorts the sample recursively, and builds the classifier from it. */
  method BuildClassifier<T(!new)>(a: array<T>, begin: nat, end: nat, B: nat, cfg: Config, less: (T, T) -> bool)
      returns (cl: Classifier<T>, used: nat, equal: bool, ghost c: seq<T>)
    requires Sortable(cfg, less) && B > 0 && begin <= end <= a.Length && end - begin > 2 * cfg.baseCase
    modifies a
    ensures fresh(cl) && fresh(cl.tree) && fresh(cl.sorted) && cl.less == less
    ensures Rearranged(a, begin, end) && Chosen(c, a[begin..end], cfg, less)
    ensures cl.Built() && cl.Splitters() == Padded(c, less)
    ensures equal == UseEqual(c, less, cfg.threshold) && used == Used(|Padded(c, less)|, equal)
    decreases end - begin, 1
  {
    var log, step, size := SampleParameters(cfg, less, end - begin);
    SortSample(a, begin, end, B, cfg, less, size);
    cl, used, equal, c := ClassifierFromSample(a, begin, end, log, step, size, cfg, less);
  }

  /** One partitioning step; c are the candidates its splitters were chosen from. */
  method Partition<T(!new)>(a: array<T>, begin: nat, end: nat, B: nat, cfg: Config, less: (T, T) -> bool)
      returns (bs: seq<nat>, equal: bool, ghost c: seq<T>)
    requires Sortable(cfg, less) && B > 0 && begin <= end <= a.Length && end - begin > 2 * cfg.baseCase
    modifies a
    ensures Rearranged(a, begin, end) && Chosen(c, a[begin..end], cfg, less)
    ensures |c| > 0 && equal == UseEqual(c, less, cfg.threshold) && |bs| == Used(|Padded(c, less)|, equal) + 1
    ensures Partitioned(a[begin..end], bs, ClassOf(c, less, cfg.threshold), cfg.baseCase,
                        end - begin <= cfg.SingleLevel(), less)
    decreases end - begin, 2
  {
    var cl, used;
    cl, used, equal, c := BuildClassifier(a, begin, end, B, cfg, less);
    ghost var s := a[..];
    ghost var cls := ClassOf(c, less, cfg.threshold);
    ClassifierAgrees(cl, equal, c, cfg.threshold);
    ClassesUsed(c, less, cfg.threshold);
    assert B > 0;
    hide Sortable, Chosen, Agrees, Partitioned, Padded, UseEqual;
    bs := Distribute(a, begin, end, B, cfg.baseCase, end - begin <= cfg.SingleLevel(), used, equal, cl, cls);
    ChosenStays(c, s[begin..end], a[begin..end], cfg, less);
  }

  // ---------------------------------------------------------------- the loop over the buckets

  /** Sorts bucket i, if it is not small. */
  method Descend<T(!new)>(
      a: array<T>, begin: nat, end: nat, B: nat, cfg: Config, less: (T, T) -> bool, bs: seq<nat>, i: nat,
      ghost cls: T -> nat, ghost done: set<nat>)
    requires Sortable(cfg, less) && B > 0 && begin <= end <= a.Length
    requires Progressing(a[begin..end], bs, cls, cfg.baseCase, less, done)
    requires i + 1 < |bs| && bs[i] <= bs[i + 1] <= end - begin && bs[i + 1] - bs[i] < end - begin
    modifies a
    ensures Rearranged(a, begin, end)
    ensures Progressing(a[begin..end], bs, cls, cfg.baseCase, less, done + {i})
    decreases end - begin, 0, 0
  {
    ghost var s := a[..];
    var start, stop := bs[i], bs[i + 1];
    SmallPieceDone(s[begin..end], bs, cls, cfg.baseCase, less, done, i);
    if stop - start > 2 * cfg.baseCase {
      Sequential(a, begin + start, begin + stop, B, cfg, less);
      PieceSorted(s, a[..], begin, end, bs, cls, cfg.baseCase, less, done, i);
    }
  }

  /** Sorts a[begin..end]. */
  method Sequential<T(!new)>(a: array<T>, begin: nat, end: nat, B: nat, cfg: Config, less: (T, T) -> bool)
    requires Sortable(cfg, less) && B > 0 && begin <= end <= a.Length
    modifies a
    ensures Rearranged(a, begin, end) && Sorted(a[begin..end], less)
    decreases end - begin, 3
  {
    assert StrictWeakOrder(less);
    hide Sortable, StrictWeakOrder, Chosen, Partitioned, Progressing, ClassOf, Padded, UseEqual, Sorted;
    var n := end - begin;
    if n <= 2 * cfg.baseCase {
      BaseCaseSort(a, begin, end, less);
      return;
    }
    var bs, equal, c := Partition(a, begin, end, B, cfg, less);
    SortBuckets(a, begin, end, B, cfg, less, bs, equal, c);
  }

  /** What is left to do after a partitioning step: nothing on the last level, else the recursion. */
  method SortBuckets<T(!new)>(
      a: array<T>, begin: nat, end: nat, B: nat, cfg: Config, less: (T, T) -> bool, bs: seq<nat>, equal: bool,
      ghost c: seq<T>)
    requires Sortable(cfg, less) && B > 0 && begin <= end <= a.Length && Chosen(c, a[begin..end], cfg, less)
    requires |c| > 0 && equal == UseEqual(c, less, cfg.threshold) && |bs| == Used(|Padded(c, less)|, equal) + 1
    requires Partitioned(a[begin..end], bs, ClassOf(c, less, cfg.threshold), cfg.baseCase,
                         end - begin <= cfg.SingleLevel(), less)
    modifies a
    ensures Rearranged(a, begin, end) && Sorted(a[begin..end], less)
    decreases end - begin, 1
  {
    hide Sortable, StrictWeakOrder, Chosen, Partitioned, Progressing, ClassOf, Padded, UseEqual, Sorted;
    var n := end - begin;
    ghost var cls := ClassOf(c, less, cfg.threshold);
    ChosenFacts(c, a[begin..end], cfg, less);
    PiecesOfPartition(a[begin..end], bs, cls, cfg.baseCase, n <= cfg.SingleLevel(), less);
    ghost var done := if n <= cfg.SingleLevel() then Upto(|bs| - 1) else {};
    if n > cfg.SingleLevel() {
      ProgressingPure(a[begin..end], bs, cls, cfg.baseCase, less, done);
      DescentShrinks(a[begin..end], bs, c, cfg, less, equal);
      done := DescendAll(a, begin, end, B, cfg, less, bs, equal, cls);
    }
    AllPiecesSorted(a[begin..end], bs, c, cfg, less, done);
  }

  /** Descends into all buckets but the equality buckets. */
  method DescendAll<T(!new)>(
      a: array<T>, begin: nat, end: nat, B: nat, cfg: Config, less: (T, T) -> bool, bs: seq<nat>, equal: bool,
      ghost cls: T -> nat)
      returns (ghost done: set<nat>)
    requires Sortable(cfg, less) && B > 0 && begin <= end <= a.Length && |bs| > 0
      && (equal ==> |bs| % 2 == 1 && |bs| > 1)
    requires Progressing(a[begin..end], bs, cls, cfg.baseCase, less, {})
    requires AllShorter(bs, equal, end - begin)
    modifies a
    ensures Rearranged(a, begin, end)
    ensures Progressing(a[begin..end], bs, cls, cfg.baseCase, less, done)
    ensures forall j: nat :: Descended(j, |bs| - 1, equal) ==> j in done
    decreases end - begin, 0, 1
  {
    hide Sortable, Progressing;
    var used, i := |bs| - 1, 0;
    done := {};
    while i < used
      invariant 0 <= i && (equal ==> i % 2 == 0) && Rearranged(a, begin, end)
      invariant Progressing(a[begin..end], bs, cls, cfg.baseCase, less, done)
      invariant forall j :: 0 <= j < i && (equal ==> j % 2 == 0) && j < used ==> j in done
    {
      assert Descended(i, used, equal) && Shorter(bs, i, end - begin);
      Descend(a, begin, end, B, cfg, less, bs, i, cls, done);
      done := done + {i};
      i := i + (if equal then 2 else 1);
    }
    if equal {
      assert Descended(used - 1, used, equal) && Shorter(bs, used - 1, end - begin);
      Descend(a, begin, end, B, cfg, less, bs, used - 1, cls, done);
      done := done + {used - 1};
    }
  }

  /** The sorter's call operator. */
  method Sort<T(!new)>(
      a: array<T>, begin: nat, end: nat, checkSorted: bool, B: nat, cfg: Config, less: (T, T) -> bool)
    requires Sortable(cfg, less) && B > 0 && begin <= end <= a.Length
    modifies a
    ensures Rearranged(a, begin, end) && Sorted(a[begin..end], less)
  {
    if checkSorted {
      var sorted := SortedCaseSort(a, begin, end, less);
      if sorted { return; }
    }
    Sequential(a, begin, end, B, cfg, less);
  }
}
