/**
 * The branch-free classifier: an implicit search tree over sorted splitters, an optional extra
 * comparison for equality buckets, and the unrolled loop over many elements.
 */
module Classifier {
  import opened Order
  import opened Powers

  // ---------------------------------------------------------------- what classification means

  /** Number of splitters smaller than v. */
  ghost function Smaller<T(!new)>(s: seq<T>, less: (T, T) -> bool, v: T): (c: nat)
    ensures c <= |s|
  {
    if s == [] then 0 else (if less(s[0], v) then 1 else 0) + Smaller(s[1..], less, v)
  }

  /** Bucket of v for the given splitters. */
  ghost function Bucket<T(!new)>(s: seq<T>, equal: bool, less: (T, T) -> bool, v: T): nat {
    var c := Smaller(s, less, v);
    if !equal then c else 2 * c + (if c < |s| && less(v, s[c]) then 0 else 1)
  }

  lemma {:induction false} SmallerSplit<T(!new)>(s: seq<T>, m: nat, less: (T, T) -> bool, v: T)
    requires m <= |s|
    ensures Smaller(s, less, v) == Smaller(s[..m], less, v) + Smaller(s[m..], less, v)
  {
    if m > 0 {
      SmallerSplit(s[1..], m - 1, less, v);
      assert s[..m][1..] == s[1..][..m - 1] && s[m..] == s[1..][m - 1..];
    } else {
      assert s[m..] == s;
    }
  }

  lemma {:induction false} SmallerAll<T(!new)>(s: seq<T>, less: (T, T) -> bool, v: T, yes: bool)
    requires forall i :: 0 <= i < |s| ==> less(s[i], v) == yes
    ensures Smaller(s, less, v) == if yes then |s| else 0
  {
    if s != [] { SmallerAll(s[1..], less, v, yes); }
  }

  /** In sorted splitters the smaller ones come first. */
  lemma SmallerIsPrefix<T(!new)>(s: seq<T>, m: nat, less: (T, T) -> bool, v: T)
    requires StrictWeakOrder(less) && Sorted(s, less) && m < |s|
    ensures less(s[m], v) <==> m < Smaller(s, less, v)
  {
    if less(s[m], v) {
      forall i | 0 <= i <= m ensures less(s[i], v) {
        assert i < m ==> !less(s[m], s[i]);
      }
      SmallerSplit(s, m + 1, less, v);
      SmallerAll(s[..m + 1], less, v, true);
    } else {
      forall i | m <= i < |s| ensures !less(s[i], v) {
        assert m < i ==> !less(s[i], s[m]);
      }
      SmallerSplit(s, m, less, v);
      SmallerAll(s[m..], less, v, false);
    }
  }

  // ---------------------------------------------------------------- the tree

  /** Node pos is the root of a tree of height h over splitters lo, lo + 1, ... */
  ghost predicate Tree<T(!new)>(tree: seq<T>, sorted: seq<T>, pos: nat, lo: nat, h: nat)
    decreases h
  {
    h == 0 ||
    (&& pos < |tree| && lo + Pow2(h) <= |sorted|
     && tree[pos] == sorted[lo + Pow2(h - 1) - 1]
     && Tree(tree, sorted, 2 * pos, lo, h - 1)
     && Tree(tree, sorted, 2 * pos + 1, lo + Pow2(h - 1), h - 1))
  }

  /** Node p lies in the subtree of node root. */
  ghost predicate Under(root: nat, p: nat)
    decreases p
  {
    p == root || (p > root && Under(root, p / 2))
  }

  lemma {:induction false} SubtreesApart(r: nat, p: nat)
    requires r > 0
    ensures !(Under(2 * r, p) && Under(2 * r + 1, p))
    ensures Under(2 * r, p) || Under(2 * r + 1, p) ==> Under(r, p) && p != r
    decreases p
  {
    if p > 2 * r + 1 { SubtreesApart(r, p / 2); }
    else if p == 2 * r + 1 { assert !Under(2 * r, r); }
  }

  lemma {:induction false} TreeFrame<T(!new)>(tree: seq<T>, tree': seq<T>, sorted: seq<T>, pos: nat, lo: nat, h: nat)
    requires Tree(tree, sorted, pos, lo, h) && |tree'| == |tree| && pos > 0
    requires forall p :: 0 <= p < |tree| && Under(pos, p) ==> tree'[p] == tree[p]
    ensures Tree(tree', sorted, pos, lo, h)
    decreases h
  {
    if h > 0 {
      forall p | 0 <= p < |tree| && (Under(2 * pos, p) || Under(2 * pos + 1, p)) ensures tree'[p] == tree[p] {
        SubtreesApart(pos, p);
      }
      assert Under(pos, pos);
      TreeFrame(tree, tree', sorted, 2 * pos, lo, h - 1);
      TreeFrame(tree, tree', sorted, 2 * pos + 1, lo + Pow2(h - 1), h - 1);
    }
  }

  lemma OneNode<T(!new)>(tree: seq<T>, sorted: seq<T>, pos: nat, lo: nat, h: nat)
    requires pos < |tree| && h > 0 && lo + Pow2(h) <= |sorted| && tree[pos] == sorted[lo + Pow2(h - 1) - 1]
    ensures h == 1 ==> Tree(tree, sorted, pos, lo, h)
    ensures Under(pos, pos)
  {
  }

  /** Building the two subtrees one after the other completes the tree and touches nothing else. */
  lemma JoinTrees<T(!new)>(t0: seq<T>, t1: seq<T>, t2: seq<T>, sorted: seq<T>, pos: nat, lo: nat, h: nat)
    requires |t0| == |t1| == |t2| && 0 < pos < |t0| && h > 0 && lo + Pow2(h) <= |sorted|
    requires t0[pos] == sorted[lo + Pow2(h - 1) - 1]
    requires forall p :: 0 <= p < |t0| && !Under(2 * pos, p) ==> t1[p] == t0[p]
    requires forall p :: 0 <= p < |t0| && !Under(2 * pos + 1, p) ==> t2[p] == t1[p]
    requires Tree(t1, sorted, 2 * pos, lo, h - 1)
    requires Tree(t2, sorted, 2 * pos + 1, lo + Pow2(h - 1), h - 1)
    ensures Tree(t2, sorted, pos, lo, h)
    ensures forall p :: 0 <= p < |t0| && !Under(pos, p) ==> t2[p] == t0[p]
  {
    forall p | 0 <= p < |t0| ensures Under(2 * pos, p) ==> t2[p] == t1[p] { SubtreesApart(pos, p); }
    forall p | 0 <= p < |t0| && !Under(pos, p) ensures t2[p] == t0[p] { SubtreesApart(pos, p); }
    TreeFrame(t1, t2, sorted, 2 * pos, lo, h - 1);
    SubtreesApart(pos, pos);
  }

  // ---------------------------------------------------------------- the descent

  /** Node reached after l levels. */
  function Descend<T(!new)>(tree: seq<T>, less: (T, T) -> bool, v: T, l: nat): (b: nat)
    requires Pow2(l) <= |tree|
    ensures Pow2(l) <= b < Pow2(l + 1)
  {
    if l == 0 then 1
    else
      var b := Descend(tree, less, v, l - 1);
      2 * b + (if less(tree[b], v) then 1 else 0)
  }

  /** Node b is the root of a tree of height h whose range of splitters contains the answer. */
  ghost predicate Brackets<T(!new)>(tree: seq<T>, sorted: seq<T>, less: (T, T) -> bool, v: T, b: nat, lo: nat, h: nat)
    requires |sorted| > 0
  {
    && Tree(tree, sorted, b, lo, h)
    && b * Pow2(h) == |sorted| + lo
    && lo <= Smaller(sorted[..|sorted| - 1], less, v) < lo + Pow2(h) <= |sorted|
  }

  lemma ChildIndex(b: nat, h: nat)
    requires h > 0
    ensures (2 * b) * Pow2(h - 1) == b * Pow2(h)
    ensures (2 * b + 1) * Pow2(h - 1) == b * Pow2(h) + Pow2(h - 1)
  {
  }

  lemma DescendStep<T(!new)>(tree: seq<T>, sorted: seq<T>, less: (T, T) -> bool, v: T, b: nat, lo: nat, h: nat)
      returns (lo': nat)
    requires StrictWeakOrder(less) && |sorted| > 0 && Sorted(sorted[..|sorted| - 1], less)
    requires h > 0 && b < |tree| && Brackets(tree, sorted, less, v, b, lo, h)
    ensures Brackets(tree, sorted, less, v, 2 * b + (if less(tree[b], v) then 1 else 0), lo', h - 1)
  {
    var half := Pow2(h - 1);
    var s, m := sorted[..|sorted| - 1], lo + half - 1;
    assert s[m] == tree[b];
    SmallerIsPrefix(s, m, less, v);
    ChildIndex(b, h);
    lo' := if less(tree[b], v) then lo + half else lo;
  }

  lemma {:induction false} DescendBrackets<T(!new)>(
      tree: seq<T>, sorted: seq<T>, k: nat, less: (T, T) -> bool, v: T, l: nat) returns (lo: nat)
    requires StrictWeakOrder(less) && l <= k && Pow2(k) <= |tree|
    requires |sorted| == Pow2(k) && Sorted(sorted[..|sorted| - 1], less) && Tree(tree, sorted, 1, 0, k)
    ensures Pow2(l) <= |tree|
    ensures Brackets(tree, sorted, less, v, Descend(tree, less, v, l), lo, k - l)
  {
    Pow2Mono(l, k);
    if l == 0 {
      lo := 0;
    } else {
      lo := DescendBrackets(tree, sorted, k, less, v, l - 1);
      lo := DescendStep(tree, sorted, less, v, Descend(tree, less, v, l - 1), lo, k - (l - 1));
    }
  }

  /** The tree agrees with linear search. */
  lemma DescendIsSearch<T(!new)>(tree: seq<T>, sorted: seq<T>, k: nat, less: (T, T) -> bool, v: T)
    requires StrictWeakOrder(less) && Pow2(k) <= |tree|
    requires |sorted| == Pow2(k) && Sorted(sorted[..|sorted| - 1], less) && Tree(tree, sorted, 1, 0, k)
    ensures Descend(tree, less, v, k) == Pow2(k) + Smaller(sorted[..|sorted| - 1], less, v)
  {
    var lo := DescendBrackets(tree, sorted, k, less, v, k);
  }

  // ---------------------------------------------------------------- the object

  class Classifier<T(!new)> {
    var tree: array<T>     // nodes 1 .. numBuckets - 1
    var sorted: array<T>   // numBuckets - 1 splitters, then the last one again
    var logBuckets: nat
    var numBuckets: nat
    const less: (T, T) -> bool

    /** Both arrays, before any splitter is known. */
    constructor (capacity: nat, filler: T, less: (T, T) -> bool)
      ensures fresh(tree) && fresh(sorted) && tree != sorted
      ensures tree.Length == sorted.Length == capacity && this.less == less
      ensures logBuckets == numBuckets == 0
    {
      tree := new T[capacity](_ => filler);
      sorted := new T[capacity](_ => filler);
      logBuckets, numBuckets := 0, 0;
      this.less := less;
    }

    ghost function Splitters(): seq<T>
      reads this, sorted
      requires 0 < numBuckets <= sorted.Length
    {
      sorted[..numBuckets - 1]
    }

    ghost predicate Built()
      reads this, tree, sorted
    {
      && tree != sorted
      && 1 <= logBuckets && numBuckets == Pow2(logBuckets) <= tree.Length && numBuckets <= sorted.Length
      && StrictWeakOrder(less) && Sorted(Splitters(), less)
      && sorted[numBuckets - 1] == sorted[numBuckets - 2]
      && Tree(tree[..], sorted[..numBuckets], 1, 0, logBuckets)
    }

    /** Recursively builds the subtree at node pos from the splitters between left and right. */
    method BuildNode(left: nat, right: nat, pos: nat, ghost lo: nat, ghost h: nat)
      requires h > 0 && pos > 0 && tree != sorted
      requires numBuckets <= tree.Length && numBuckets <= sorted.Length
      requires NodeAt(pos, lo, h, numBuckets) && lo + Pow2(h) <= numBuckets
      requires right == lo + Pow2(h) - 1 && left == (if lo == 0 then 0 else lo - 1)
      modifies tree
      ensures Tree(tree[..], sorted[..numBuckets], pos, lo, h)
      ensures forall p :: 0 <= p < tree.Length && !Under(pos, p) ==> tree[p] == old(tree[p])
      decreases h
    {
      NodeIndex(pos, lo, h, numBuckets);
      MiddleSplitter(left, right, lo, h);
      var mid := left + (right - left) / 2;
      ghost var s := sorted[..numBuckets];
      tree[pos] := sorted[mid];
      ghost var t0 := tree[..];
      OneNode(t0, s, pos, lo, h);
      hide *;
      if 2 * pos < numBuckets {
        BuildNode(left, mid, 2 * pos, lo, h - 1);
        ghost var t1 := tree[..];
        BuildNode(mid, right, 2 * pos + 1, lo + Pow2(h - 1), h - 1);
        JoinTrees(t0, t1, tree[..], s, pos, lo, h);
      }
    }

    /** Lays the splitters out as a search tree, with a copy of the last one behind them. */
    method Build(log: nat)
      requires 1 <= log && Pow2(log) <= tree.Length && Pow2(log) <= sorted.Length && tree != sorted
      requires StrictWeakOrder(less) && Sorted(sorted[..Pow2(log) - 1], less)
      modifies this`logBuckets, this`numBuckets, tree, sorted
      ensures Built() && logBuckets == log
      ensures Splitters() == old(sorted[..Pow2(log) - 1])
    {
      RootNode(log);
      hide NodeAt, Tree, Sorted, StrictWeakOrder, Pow2;
      logBuckets := log;
      numBuckets := Pow2(log);
      var numSplitters := numBuckets - 1;
      sorted[numSplitters] := sorted[numSplitters - 1];
      ghost var s := sorted[..numSplitters];
      assert s == old(sorted[..Pow2(log) - 1]);
      BuildNode(0, numSplitters, 1, 0, log);
      assert Splitters() == s;
    }

    /** Classifies a single element. */
    method Classify(equal: bool, v: T) returns (bucket: nat)
      requires Built()
      ensures bucket == Bucket(Splitters(), equal, less, v)
    {
      var b := 1;
      for l := 0 to logBuckets
        invariant Pow2(l) <= tree.Length && b == Descend(tree[..], less, v, l)
      {
        Pow2Mono(l + 1, logBuckets);
        Pow2Mono(l, logBuckets);
        b := 2 * b + (if less(tree[b], v) then 1 else 0);
      }
      bucket := Leaf(equal, v, b);
    }

    /** The last comparison, against the splitter that closes the leaf's range. */
    method Leaf(equal: bool, v: T, b: nat) returns (bucket: nat)
      requires Built() && Pow2(logBuckets) <= tree.Length && b == Descend(tree[..], less, v, logBuckets)
      ensures bucket == Bucket(Splitters(), equal, less, v)
    {
      DescendIsSearch(tree[..], sorted[..numBuckets], logBuckets, less, v);
      ghost var c := Smaller(Splitters(), less, v);
      assert sorted[..numBuckets][..numBuckets - 1] == Splitters();
      assert b == numBuckets + c;
      if equal {
        LastSplitter(Splitters(), less, v, sorted[b - numBuckets]);
        var b2 := 2 * b + (if less(v, sorted[b - numBuckets]) then 0 else 1);
        bucket := b2 - 2 * numBuckets;
      } else {
        bucket := b - numBuckets;
      }
    }

    /** One tree level for a whole batch. */
    method DescendBatch(a: array<T>, begin: nat, b: array<nat>, l: nat)
      requires Built() && l < logBuckets && begin + b.Length <= a.Length
      requires (a as object) != b && (tree as object) != b && (sorted as object) != b
      requires Pow2(l) <= tree.Length
      requires forall i :: 0 <= i < b.Length ==> b[i] == Descend(tree[..], less, a[begin + i], l)
      modifies b
      ensures Pow2(l + 1) <= tree.Length
      ensures forall i :: 0 <= i < b.Length ==> b[i] == Descend(tree[..], less, a[begin + i], l + 1)
    {
      Pow2Mono(l + 1, logBuckets);
      for i := 0 to b.Length
        invariant forall j :: 0 <= j < i ==> b[j] == Descend(tree[..], less, a[begin + j], l + 1)
        invariant forall j :: i <= j < b.Length ==> b[j] == Descend(tree[..], less, a[begin + j], l)
      {
        b[i] := 2 * b[i] + (if less(tree[b[i]], a[begin + i]) then 1 else 0);
      }
    }

    /** Turns the leaves of a batch into buckets. */
    method LeafBatch(equal: bool, a: array<T>, begin: nat, b: array<nat>)
      requires Built() && begin + b.Length <= a.Length
      requires (a as object) != b && (tree as object) != b && (sorted as object) != b
      requires forall i :: 0 <= i < b.Length ==> b[i] == Descend(tree[..], less, a[begin + i], logBuckets)
      modifies b
      ensures forall i :: 0 <= i < b.Length ==> b[i] == Bucket(Splitters(), equal, less, a[begin + i])
    {
      ghost var s, t := Splitters(), tree[..];
      for i := 0 to b.Length
        invariant Splitters() == s && tree[..] == t
        invariant forall j :: 0 <= j < i ==> b[j] == Bucket(s, equal, less, a[begin + j])
        invariant forall j :: i <= j < b.Length ==> b[j] == Descend(t, less, a[begin + j], logBuckets)
      {
        b[i] := Leaf(equal, a[begin + i], b[i]);
      }
    }

    /** Buckets of a batch of consecutive elements, level by level for all of them. */
    method ClassifyBatch(equal: bool, a: array<T>, begin: nat, b: array<nat>)
      requires Built() && begin + b.Length <= a.Length
      requires (a as object) != b && (tree as object) != b && (sorted as object) != b
      modifies b
      ensures forall i :: 0 <= i < b.Length ==> b[i] == Bucket(Splitters(), equal, less, a[begin + i])
    {
      for i := 0 to b.Length
        invariant forall j :: 0 <= j < i ==> b[j] == 1
      {
        b[i] := 1;
      }
      assert Pow2(0) == 1;
      for l := 0 to logBuckets
        invariant Pow2(l) <= tree.Length
        invariant forall i :: 0 <= i < b.Length ==> b[i] == Descend(tree[..], less, a[begin + i], l)
      {
        DescendBatch(a, begin, b, l);
      }
      LeafBatch(equal, a, begin, b);
    }

    /**
     * Classifies all elements of a[begin..end], `unroll` at a time and the rest one by one; `out` is
     * what the callback receives.
     */
    method ClassifyUnrolled(equal: bool, unroll: nat, a: array<T>, begin: nat, end: nat) returns (out: seq<nat>)
      requires Built() && 0 < unroll && begin + unroll <= end <= a.Length
      ensures |out| == end - begin
      ensures forall i :: 0 <= i < |out| ==> out[i] == Bucket(Splitters(), equal, less, a[begin + i])
    {
      ghost var s := Splitters();
      var b := new nat[unroll];
      var cutoff := end - unroll;
      var pos := begin;
      out := [];
      while pos <= cutoff
        invariant begin <= pos <= end && |out| == pos - begin && Splitters() == s
        invariant forall i :: 0 <= i < |out| ==> out[i] == Bucket(s, equal, less, a[begin + i])
      {
        ClassifyBatch(equal, a, pos, b);
        out := out + b[..];
        pos := pos + unroll;
      }
      while pos != end
        invariant begin <= pos <= end && |out| == pos - begin && Splitters() == s
        invariant forall i :: 0 <= i < |out| ==> out[i] == Bucket(s, equal, less, a[begin + i])
      {
        var bucket := Classify(equal, a[pos]);
        out := out + [bucket];
        pos := pos + 1;
      }
    }
  }

  /** The object classifies like the function cls. */
  ghost predicate Agrees<T(!new)>(cl: Classifier<T>, equal: bool, cls: T -> nat)
    reads cl, cl.tree, cl.sorted
  {
    cl.Built() && forall v :: cls(v) == Bucket(cl.Splitters(), equal, cl.less, v)
  }

  /** In a tree with n leaves, the leaves under the node at pos, at height h, are those from lo on. */
  ghost predicate NodeAt(pos: nat, lo: nat, h: nat, n: nat) { pos * Pow2(h) == n + lo }

  lemma RootNode(log: nat)
    requires log > 0
    ensures NodeAt(1, 0, log, Pow2(log)) && Pow2(log) > 1
  {
    Pow2Mono(1, log);
  }

  lemma NodeIndex(pos: nat, lo: nat, h: nat, n: nat)
    requires h > 0 && pos > 0 && NodeAt(pos, lo, h, n) && lo + Pow2(h) <= n
    ensures pos < n && (2 * pos < n <==> h > 1) && Pow2(h) == 2 * Pow2(h - 1)
    ensures NodeAt(2 * pos, lo, h - 1, n) && NodeAt(2 * pos + 1, lo + Pow2(h - 1), h - 1, n)
  {
    var half := Pow2(h - 1);
    assert (2 * pos) * half == pos * (2 * half) && (2 * pos + 1) * half == pos * (2 * half) + half;
    if h > 1 {
      assert half == 2 * Pow2(h - 2);
      MulMono(2, half, 2 * pos);
    }
  }

  lemma MiddleSplitter(left: nat, right: nat, lo: nat, h: nat)
    requires h > 0 && right == lo + Pow2(h) - 1 && left == (if lo == 0 then 0 else lo - 1)
    ensures left <= right && left + (right - left) / 2 == lo + Pow2(h - 1) - 1
  {
  }

  /** Past the last splitter the duplicate sends a larger value to the last bucket. */
  lemma LastSplitter<T(!new)>(s: seq<T>, less: (T, T) -> bool, v: T, t: T)
    requires StrictWeakOrder(less) && Sorted(s, less) && |s| > 0
    requires var c := Smaller(s, less, v); t == (if c < |s| then s[c] else s[|s| - 1])
    ensures Smaller(s, less, v) == |s| ==> !less(v, t)
  {
    SmallerIsPrefix(s, |s| - 1, less, v);
  }

  // ---------------------------------------------------------------- what the buckets mean

  /** Number of buckets that the pair (splitters, equality flag) gives. */
  function Used(numSplitters: nat, equal: bool): nat {
    if equal then 2 * (numSplitters + 1) else numSplitters + 1
  }

  /** Without equality buckets, bucket i holds exactly the values between splitters i - 1 and i; the last is in use. */
  lemma BucketBetween<T(!new)>(s: seq<T>, less: (T, T) -> bool, v: T, i: nat)
    requires StrictWeakOrder(less) && Sorted(s, less) && i <= |s|
    ensures Bucket(s, false, less, v) == i <==> (i == 0 || less(s[i - 1], v)) && (i == |s| || !less(s[i], v))
    ensures Bucket(s, false, less, v) == Used(|s|, false) - 1 <==> s == [] || less(s[|s| - 1], v)
  {
    if i > 0 { SmallerIsPrefix(s, i - 1, less, v); }
    if i < |s| { SmallerIsPrefix(s, i, less, v); }
    if s != [] { SmallerIsPrefix(s, |s| - 1, less, v); }
  }

  /**
   * With equality buckets, bucket 2i holds exactly the values strictly between splitters i - 1 and i, and the last
   * bucket those that are larger than all splitters.
   */
  lemma BucketStrictlyBetween<T(!new)>(s: seq<T>, less: (T, T) -> bool, v: T, i: nat)
    requires StrictWeakOrder(less) && Sorted(s, less) && i < |s|
    ensures Bucket(s, true, less, v) == 2 * i <==> (i == 0 || less(s[i - 1], v)) && less(v, s[i])
    ensures Bucket(s, true, less, v) == Used(|s|, true) - 1 <==> less(s[|s| - 1], v)
  {
    if i > 0 { SmallerIsPrefix(s, i - 1, less, v); }
    SmallerIsPrefix(s, i, less, v);
    SmallerIsPrefix(s, |s| - 1, less, v);
  }

  /** Smaller elements never get a larger bucket. */
  lemma BucketOrder<T(!new)>(s: seq<T>, equal: bool, less: (T, T) -> bool, x: T, y: T)
    requires StrictWeakOrder(less) && Sorted(s, less) && !less(y, x)
    ensures Bucket(s, equal, less, x) <= Bucket(s, equal, less, y)
  {
    var c, d := Smaller(s, less, x), Smaller(s, less, y);
    if d < c {
      SmallerIsPrefix(s, c - 1, less, x);
      SmallerIsPrefix(s, c - 1, less, y);
    }
  }

  /**
   * An odd bucket other than the last holds exactly the values equivalent to its splitter; a splitter
   * that repeats its predecessor has an empty one.
   */
  lemma EqualityBucket<T(!new)>(s: seq<T>, less: (T, T) -> bool, v: T, i: nat)
    requires StrictWeakOrder(less) && Sorted(s, less) && i < |s|
    ensures Bucket(s, true, less, v) == 2 * i + 1
       <==> !less(v, s[i]) && !less(s[i], v) && (i == 0 || less(s[i - 1], v))
  {
    SmallerIsPrefix(s, i, less, v);
    if i > 0 { SmallerIsPrefix(s, i - 1, less, v); }
  }

  /** With equality buckets, the next to last bucket is always empty. */
  lemma EmptyBucket<T(!new)>(s: seq<T>, less: (T, T) -> bool, v: T)
    ensures Bucket(s, true, less, v) < Used(|s|, true)
    ensures Bucket(s, false, less, v) < Used(|s|, false)
    ensures Bucket(s, true, less, v) != Used(|s|, true) - 2
  {
  }
}
