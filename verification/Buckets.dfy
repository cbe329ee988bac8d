/** Buckets of a range: their boundaries, their pieces, and what makes the whole range sorted. */
module Buckets {
  import opened Order
  import opened Bags

  ghost predicate AllOf<T(!new)>(s: seq<T>, cls: T -> nat, i: nat) {
    forall x :: x in s ==> cls(x) == i
  }

  ghost function Has<T>(cls: T -> nat, i: nat): T -> bool { x => cls(x) == i }

  ghost function Is(i: nat): nat -> bool { j => j == i }

  /** Bucket boundaries are the running sums of the bucket sizes. */
  ghost predicate Boundaries(bs: seq<nat>, n: nat) {
    && |bs| > 0 && bs[0] == 0 && bs[|bs| - 1] == n
    && forall i :: 0 <= i < |bs| - 1 ==> bs[i] <= bs[i + 1]
  }

  ghost function SizeOf(bs: seq<nat>, i: nat): nat
    requires i + 1 < |bs| && bs[i] <= bs[i + 1]
  {
    bs[i + 1] - bs[i]
  }

  lemma {:induction false} BoundaryChain(bs: seq<nat>, n: nat, i: nat, j: nat)
    requires Boundaries(bs, n) && i <= j < |bs|
    ensures bs[i] <= bs[j]
    decreases j
  {
    if i < j {
      BoundaryChain(bs, n, i, j - 1);
      assert bs[j - 1] <= bs[j - 1 + 1];
    }
  }

  lemma BoundaryMono(bs: seq<nat>, n: nat, i: nat, j: nat)
    requires Boundaries(bs, n) && i <= j < |bs|
    ensures bs[i] <= bs[j] <= n
  {
    BoundaryChain(bs, n, i, j);
    BoundaryChain(bs, n, j, |bs| - 1);
  }

  /** The piece, among the first c, that i lies in. */
  lemma {:induction false} StripeOf(st: seq<nat>, n: nat, i: nat, c: nat) returns (t: nat)
    requires Boundaries(st, n) && c < |st| && i < st[c]
    ensures t < c && st[t] <= i < st[t + 1]
    decreases c
  {
    if st[c - 1] <= i { t := c - 1; } else { t := StripeOf(st, n, i, c - 1); }
  }

  /** The bucket whose slots include q. */
  ghost function OwnerFrom(start: seq<nat>, q: nat, b: nat): (r: nat)
    requires b < |start|
    ensures r <= b
  {
    if b == 0 || start[b] <= q then b else OwnerFrom(start, q, b - 1)
  }

  lemma {:induction false} OwnerIs(start: seq<nat>, q: nat, b: nat)
    requires b + 1 < |start| && start[0] == 0 && q < start[b + 1]
    ensures var r := OwnerFrom(start, q, b); start[r] <= q < start[r + 1]
    decreases b
  {
    if b > 0 && start[b] > q { OwnerIs(start, q, b - 1); }
  }

  lemma {:induction false} OwnerUnique(start: seq<nat>, q: nat, b: nat, r: nat)
    requires b < |start| && r <= b
    requires forall i, j :: 0 <= i <= j < |start| ==> start[i] <= start[j]
    requires start[r] <= q && (r < |start| - 1 ==> q < start[r + 1])
    ensures OwnerFrom(start, q, b) == r
    decreases b
  {
    if b > r {
      assert start[r + 1] <= start[b];
      OwnerUnique(start, q, b - 1, r);
    }
  }

  ghost function Below<T>(cls: T -> nat, j: nat): T -> bool { x => cls(x) < j }

  lemma {:induction false} CountBelow<T>(s: seq<T>, cls: T -> nat, j: nat)
    ensures Count(s, Below(cls, j + 1)) == Count(s, Below(cls, j)) + Count(s, Has(cls, j))
  {
    if s != [] { CountBelow(s[1..], cls, j); }
  }

  lemma SliceOfSlice<T>(t: seq<T>, begin: nat, end: nat, x: nat, y: nat)
    requires begin <= end <= |t| && x <= y <= end - begin
    ensures t[begin..end][x..y] == t[begin + x..begin + y]
  {
    var u, v := t[begin..end][x..y], t[begin + x..begin + y];
    forall k | 0 <= k < y - x ensures u[k] == v[k] { assert u[k] == t[begin..end][x + k] == t[begin + (x + k)]; }
  }

  /** Bucket i of the partitioned range v. */
  ghost function Piece<T>(v: seq<T>, bs: seq<nat>, i: nat): seq<T>
    requires i + 1 < |bs| && bs[i] <= bs[i + 1] <= |v|
  {
    v[bs[i]..bs[i + 1]]
  }

  ghost predicate PieceOk<T(!new)>(
      v: seq<T>, bs: seq<nat>, cls: T -> nat, i: nat, base: nat, lastLevel: bool, less: (T, T) -> bool)
    requires i + 1 < |bs|
  {
    && bs[i] <= bs[i + 1] <= |v|
    && AllOf(Piece(v, bs, i), cls, i)
    && (lastLevel || bs[i + 1] - bs[i] <= 2 * base ==> Sorted(Piece(v, bs, i), less))
  }

  /** Every bucket range is pure, and the ranges that need no further partitioning are sorted. */
  ghost predicate Partitioned<T(!new)>(
      v: seq<T>, bs: seq<nat>, cls: T -> nat, base: nat, lastLevel: bool, less: (T, T) -> bool)
  {
    && |bs| > 1 && Boundaries(bs, |v|)
    && forall i :: 0 <= i < |bs| - 1 ==> PieceOk(v, bs, cls, i, base, lastLevel, less)
  }

  lemma SamePure<T(!new)>(s: seq<T>, t: seq<T>, cls: T -> nat, i: nat)
    requires multiset(s) == multiset(t) && AllOf(s, cls, i)
    ensures AllOf(t, cls, i)
  {
    forall x | x in t ensures cls(x) == i { assert x in multiset(t); assert x in s; }
  }

  lemma SliceKept<T>(u: seq<T>, v: seq<T>, lo: nat, hi: nat, end: nat)
    requires lo <= hi <= end <= |u| == |v| && v[..end] == u[..end]
    ensures v[lo..hi] == u[lo..hi]
  {
    assert v[lo..hi] == v[..end][lo..hi] && u[lo..hi] == u[..end][lo..hi];
  }

  ghost predicate PiecesPure<T(!new)>(v: seq<T>, bs: seq<nat>, cls: T -> nat) {
    && Boundaries(bs, |v|)
    && forall i :: 0 <= i < |bs| - 1 ==> PurePiece(v, bs, cls, i)
  }

  ghost predicate PurePiece<T(!new)>(v: seq<T>, bs: seq<nat>, cls: T -> nat, i: nat)
    requires i + 1 < |bs|
  {
    bs[i] <= bs[i + 1] <= |v| && AllOf(Piece(v, bs, i), cls, i)
  }

  lemma PieceBounds<T(!new)>(v: seq<T>, bs: seq<nat>, cls: T -> nat, i: nat)
    requires i + 1 < |bs| && PurePiece(v, bs, cls, i)
    ensures bs[i] <= bs[i + 1] <= |v|
  {
  }

  lemma PieceClass<T(!new)>(v: seq<T>, bs: seq<nat>, cls: T -> nat, i: nat, k: nat)
    requires i + 1 < |bs| && PurePiece(v, bs, cls, i) && bs[i] <= k < bs[i + 1]
    ensures k < |v| && cls(v[k]) == i
  {
    assert Piece(v, bs, i)[k - bs[i]] in Piece(v, bs, i);
  }

  lemma {:induction false} ClassesFrom<T(!new)>(v: seq<T>, bs: seq<nat>, cls: T -> nat, i: nat, k: nat)
    requires PiecesPure(v, bs, cls) && i < |bs| && bs[i] <= k < |v|
    ensures i <= cls(v[k])
    decreases |bs| - i
  {
    if i + 1 < |bs| {
      assert PurePiece(v, bs, cls, i);
      if k < bs[i + 1] {
        PieceClass(v, bs, cls, i, k);
      } else {
        ClassesFrom(v, bs, cls, i + 1, k);
      }
    }
  }

  /** A classification that respects the order: smaller buckets hold smaller elements. */
  ghost predicate Respects<T(!new)>(cls: T -> nat, less: (T, T) -> bool) {
    forall x, y :: cls(x) < cls(y) ==> !less(y, x)
  }

  ghost predicate SortedPiece<T(!new)>(v: seq<T>, bs: seq<nat>, less: (T, T) -> bool, i: nat)
    requires i + 1 < |bs|
  {
    bs[i] <= bs[i + 1] <= |v| && Sorted(Piece(v, bs, i), less)
  }

  /** All elements are equivalent. */
  ghost predicate Uniform<T(!new)>(p: seq<T>, less: (T, T) -> bool) {
    forall x, y :: x in p && y in p ==> !less(x, y)
  }

  lemma UniformSorted<T(!new)>(p: seq<T>, q: seq<T>, less: (T, T) -> bool)
    requires Uniform(p, less) && multiset(q) == multiset(p)
    ensures Sorted(q, less)
  {
    forall j, k | 0 <= j < k < |q| ensures !less(q[k], q[j]) {
      assert q[j] in multiset(q) && q[k] in multiset(q);
      assert q[j] in multiset(p) && q[k] in multiset(p);
    }
  }

  /** Pure pieces in bucket order, each of them sorted, make up a sorted range. */
  lemma {:induction false} PiecesSort<T(!new)>(
      v: seq<T>, bs: seq<nat>, cls: T -> nat, less: (T, T) -> bool, i: nat)
    requires PiecesPure(v, bs, cls) && Respects(cls, less) && i < |bs|
    requires forall j :: 0 <= j < |bs| - 1 ==> SortedPiece(v, bs, less, j)
    ensures bs[i] <= |v| && Sorted(v[bs[i]..], less)
    decreases |bs| - i
  {
    BoundaryMono(bs, |v|, i, |bs| - 1);
    if i + 1 < |bs| {
      PiecesSort(v, bs, cls, less, i + 1);
      assert SortedPiece(v, bs, less, i) && PurePiece(v, bs, cls, i);
      var x, y := Piece(v, bs, i), v[bs[i + 1]..];
      forall j, k | 0 <= j < |x| && 0 <= k < |y| ensures !less(y[k], x[j]) {
        assert x[j] in x;
        ClassesFrom(v, bs, cls, i + 1, bs[i + 1] + k);
      }
      SortedConcat(x, y, less);
      assert v[bs[i]..] == x + y;
    }
  }

  /** Rearranging a part rearranges the whole. */
  lemma PartRearranged<T>(s: seq<T>, t: seq<T>, lo: nat, x: nat, y: nat, hi: nat)
    requires lo <= x <= y <= hi <= |s| == |t|
    requires t[..x] == s[..x] && t[y..] == s[y..] && multiset(t[x..y]) == multiset(s[x..y])
    ensures t[..lo] == s[..lo] && t[hi..] == s[hi..] && multiset(t[lo..hi]) == multiset(s[lo..hi])
  {
    SplitAt(s, lo, x, hi);
    SplitAt(s, x, y, hi);
    SplitAt(t, lo, x, hi);
    SplitAt(t, x, y, hi);
    assert t[lo..x] == t[..x][lo..] && s[lo..x] == s[..x][lo..];
    assert t[y..hi] == t[y..][..hi - y] && s[y..hi] == s[y..][..hi - y];
    assert t[..lo] == t[..x][..lo] && s[..lo] == s[..x][..lo];
    assert t[hi..] == t[y..][hi - y..] && s[hi..] == s[y..][hi - y..];
  }

  lemma PieceInRange<T>(s: seq<T>, t: seq<T>, begin: nat, end: nat, bs: seq<nat>, i: nat)
    requires begin <= end <= |s| == |t| && i + 1 < |bs| && bs[i] <= bs[i + 1] <= end - begin
    requires t[..begin + bs[i]] == s[..begin + bs[i]] && t[begin + bs[i + 1]..] == s[begin + bs[i + 1]..]
    ensures var v, u := s[begin..end], t[begin..end];
      && u[..bs[i]] == v[..bs[i]] && u[bs[i + 1]..] == v[bs[i + 1]..]
      && u[bs[i]..bs[i + 1]] == t[begin + bs[i]..begin + bs[i + 1]]
      && v[bs[i]..bs[i + 1]] == s[begin + bs[i]..begin + bs[i + 1]]
  {
    SliceOfSlice(s, begin, end, bs[i], bs[i + 1]);
    SliceOfSlice(t, begin, end, bs[i], bs[i + 1]);
    SliceOfSlice(s, begin, end, 0, bs[i]);
    SliceOfSlice(t, begin, end, 0, bs[i]);
    SliceOfSlice(s, begin, end, bs[i + 1], end - begin);
    SliceOfSlice(t, begin, end, bs[i + 1], end - begin);
    assert t[begin..begin + bs[i]] == t[..begin + bs[i]][begin..] == s[begin..begin + bs[i]];
    assert t[begin + bs[i + 1]..end] == t[begin + bs[i + 1]..][..end - begin - bs[i + 1]] == s[begin + bs[i + 1]..end];
  }

  /** The buckets of v are pure; the small ones, and those in `done`, are sorted. */
  ghost predicate Progressing<T(!new)>(
      v: seq<T>, bs: seq<nat>, cls: T -> nat, base: nat, less: (T, T) -> bool, done: set<nat>)
  {
    && PiecesPure(v, bs, cls)
    && forall j :: 0 <= j < |bs| - 1 && (bs[j + 1] - bs[j] <= 2 * base || j in done) ==> SortedPiece(v, bs, less, j)
  }

  lemma SmallPieceDone<T(!new)>(
      v: seq<T>, bs: seq<nat>, cls: T -> nat, base: nat, less: (T, T) -> bool, done: set<nat>, i: nat)
    requires Progressing(v, bs, cls, base, less, done) && i + 1 < |bs|
    ensures bs[i + 1] - bs[i] <= 2 * base ==> Progressing(v, bs, cls, base, less, done + {i})
  {
  }

  lemma ProgressingPure<T(!new)>(
      v: seq<T>, bs: seq<nat>, cls: T -> nat, base: nat, less: (T, T) -> bool, done: set<nat>)
    requires Progressing(v, bs, cls, base, less, done)
    ensures PiecesPure(v, bs, cls)
  {
  }

  /** Sorting one bucket range leaves the others alone. */
  lemma OnePiece<T(!new)>(
      v: seq<T>, u: seq<T>, bs: seq<nat>, cls: T -> nat, base: nat, less: (T, T) -> bool, done: set<nat>, i: nat)
    requires Progressing(v, bs, cls, base, less, done) && i + 1 < |bs| && |u| == |v|
    requires bs[i] <= bs[i + 1] <= |v| && u[..bs[i]] == v[..bs[i]] && u[bs[i + 1]..] == v[bs[i + 1]..]
    requires multiset(u[bs[i]..bs[i + 1]]) == multiset(v[bs[i]..bs[i + 1]]) && Sorted(u[bs[i]..bs[i + 1]], less)
    ensures Progressing(u, bs, cls, base, less, done + {i})
  {
    forall j | 0 <= j < |bs| - 1
      ensures PurePiece(u, bs, cls, j)
      ensures bs[j + 1] - bs[j] <= 2 * base || j in done + {i} ==> SortedPiece(u, bs, less, j)
    {
      assert PurePiece(v, bs, cls, j);
      if j == i {
        SamePure(Piece(v, bs, i), Piece(u, bs, i), cls, i);
      } else {
        OtherPiece(v, u, bs, i, j);
      }
    }
  }

  /** One bucket of a range gets sorted. */
  lemma PieceSorted<T(!new)>(
      s: seq<T>, t: seq<T>, begin: nat, end: nat, bs: seq<nat>, cls: T -> nat, base: nat, less: (T, T) -> bool,
      done: set<nat>, i: nat)
    requires begin <= end <= |s| == |t| && i + 1 < |bs| && bs[i] <= bs[i + 1] <= end - begin
    requires Progressing(s[begin..end], bs, cls, base, less, done)
    requires t[..begin + bs[i]] == s[..begin + bs[i]] && t[begin + bs[i + 1]..] == s[begin + bs[i + 1]..]
    requires var p := t[begin + bs[i]..begin + bs[i + 1]];
      Sorted(p, less) && multiset(p) == multiset(s[begin + bs[i]..begin + bs[i + 1]])
    ensures t[..begin] == s[..begin] && t[end..] == s[end..] && multiset(t[begin..end]) == multiset(s[begin..end])
    ensures Progressing(t[begin..end], bs, cls, base, less, done + {i})
  {
    hide Progressing, Sorted;
    PartRearranged(s, t, begin, begin + bs[i], begin + bs[i + 1], end);
    PieceInRange(s, t, begin, end, bs, i);
    OnePiece(s[begin..end], t[begin..end], bs, cls, base, less, done, i);
  }

  lemma OtherPiece<T>(v: seq<T>, u: seq<T>, bs: seq<nat>, i: nat, j: nat)
    requires Boundaries(bs, |v|) && i + 1 < |bs| && j + 1 < |bs| && i != j && |u| == |v|
    requires bs[i] <= bs[i + 1] <= |v| && u[..bs[i]] == v[..bs[i]] && u[bs[i + 1]..] == v[bs[i + 1]..]
    ensures bs[j] <= bs[j + 1] <= |v| && Piece(u, bs, j) == Piece(v, bs, j)
  {
    BoundaryMono(bs, |v|, j, j + 1);
    if j < i {
      BoundaryMono(bs, |v|, j + 1, i);
      SliceKept(v, u, bs[j], bs[j + 1], bs[i]);
    } else {
      BoundaryMono(bs, |v|, i + 1, j);
      assert u[bs[j]..bs[j + 1]] == u[bs[i + 1]..][bs[j] - bs[i + 1]..bs[j + 1] - bs[i + 1]];
      assert v[bs[j]..bs[j + 1]] == v[bs[i + 1]..][bs[j] - bs[i + 1]..bs[j + 1] - bs[i + 1]];
    }
  }

  ghost function Upto(n: nat): (r: set<nat>)
    ensures forall j: nat :: j in r <==> j < n
  {
    if n == 0 then {} else Upto(n - 1) + {n - 1}
  }

  lemma PiecesOfPartition<T(!new)>(
      v: seq<T>, bs: seq<nat>, cls: T -> nat, base: nat, lastLevel: bool, less: (T, T) -> bool)
    requires Partitioned(v, bs, cls, base, lastLevel, less)
    ensures Progressing(v, bs, cls, base, less, if lastLevel then Upto(|bs| - 1) else {})
  {
    forall j | 0 <= j < |bs| - 1
      ensures PurePiece(v, bs, cls, j)
      ensures lastLevel || bs[j + 1] - bs[j] <= 2 * base ==> SortedPiece(v, bs, less, j)
    {
      assert PieceOk(v, bs, cls, j, base, lastLevel, less);
    }
  }

  ghost predicate Shorter(bs: seq<nat>, i: nat, n: nat) {
    i + 1 < |bs| && bs[i] <= bs[i + 1] <= n && bs[i + 1] - bs[i] < n
  }
}
