/**
 * Out-of-place distribution by a bucket oracle: where every element goes, the parallel scatter in any
 * interleaving, and the sequential scatter on arrays. All of them yield the stable partition.
 */
module Scatter {
  import opened Bags
  import opened Buckets

  // ---------------------------------------------------------------- destinations

  ghost function LessThan(b: nat): nat -> bool { j => j < b }

  ghost predicate Bounded(o: seq<nat>, k: nat) {
    forall i :: 0 <= i < |o| ==> o[i] < k
  }

  /** First slot of bucket b. */
  ghost function First(o: seq<nat>, b: nat): nat { Count(o, LessThan(b)) }

  /** Slot of element i: after all smaller buckets and the earlier elements of its bucket. */
  ghost function Dest(o: seq<nat>, i: nat): nat
    requires i < |o|
  {
    First(o, o[i]) + Count(o[..i], Is(o[i]))
  }

  lemma {:induction false} FirstNext(o: seq<nat>, b: nat)
    ensures First(o, b + 1) == First(o, b) + Count(o, Is(b))
  {
    if o != [] { FirstNext(o[1..], b); }
  }

  lemma {:induction false} FirstMono(o: seq<nat>, b: nat, c: nat)
    requires b <= c
    ensures First(o, b) <= First(o, c)
    decreases c
  {
    if b < c { FirstMono(o, b, c - 1); FirstNext(o, c - 1); }
  }

  lemma FirstEnds(o: seq<nat>, k: nat)
    requires Bounded(o, k)
    ensures First(o, 0) == 0 && First(o, k) == |o|
  {
    CountNone(o, LessThan(0));
    CountAll(o, LessThan(k));
  }

  lemma CountPrefix(o: seq<nat>, i: nat, j: nat, b: nat)
    requires i <= j <= |o|
    ensures Count(o[..i], Is(b)) <= Count(o[..j], Is(b))
    ensures i < j && o[i] == b ==> Count(o[..i], Is(b)) < Count(o[..j], Is(b))
  {
    assert o[..j][..i] == o[..i];
    CountSplit(o[..j], i, Is(b));
    if i < j { assert o[..j][i..][0] == o[i]; }
  }

  /** Every element lands inside its bucket. */
  lemma DestInBucket(o: seq<nat>, i: nat)
    requires i < |o|
    ensures First(o, o[i]) <= Dest(o, i) < First(o, o[i] + 1) <= |o|
  {
    FirstNext(o, o[i]);
    CountPrefix(o, i, |o|, o[i]);
    assert o[..|o|] == o;
    CountBound(o, LessThan(o[i] + 1));
  }

  /** No two elements share a slot. */
  lemma DestInjective(o: seq<nat>, i: nat, j: nat)
    requires i < j < |o|
    ensures Dest(o, i) != Dest(o, j)
  {
    DestInBucket(o, i);
    DestInBucket(o, j);
    if o[i] < o[j] {
      FirstMono(o, o[i] + 1, o[j]);
    } else if o[j] < o[i] {
      FirstMono(o, o[j] + 1, o[i]);
    } else {
      CountPrefix(o, i, j, o[i]);
    }
  }

  /** The c-th element of bucket b. */
  lemma {:induction false} Occurrence(o: seq<nat>, b: nat, c: nat) returns (i: nat)
    requires c < Count(o, Is(b))
    ensures i < |o| && o[i] == b && Count(o[..i], Is(b)) == c
    decreases |o|
  {
    if o[0] == b && c == 0 {
      i := 0;
    } else {
      i := Occurrence(o[1..], b, if o[0] == b then c - 1 else c);
      i := i + 1;
      assert o[..i][1..] == o[1..][..i - 1];
    }
  }

  lemma {:induction false} BucketOfSlot(o: seq<nat>, q: nat, k: nat) returns (b: nat)
    requires q < First(o, k)
    ensures b < k && First(o, b) <= q < First(o, b + 1)
    decreases k
  {
    CountNone(o, LessThan(0));
    if First(o, k - 1) <= q { b := k - 1; } else { b := BucketOfSlot(o, q, k - 1); }
  }

  /** Every slot is somebody's. */
  lemma DestOnto(o: seq<nat>, k: nat, q: nat) returns (i: nat)
    requires Bounded(o, k) && q < |o|
    ensures i < |o| && Dest(o, i) == q
  {
    FirstEnds(o, k);
    var b := BucketOfSlot(o, q, k);
    FirstNext(o, b);
    i := Occurrence(o, b, q - First(o, b));
  }

  // ---------------------------------------------------------------- the stable partition

  /** Elements of bucket b, in their order. */
  ghost function Select<T>(v: seq<T>, o: seq<nat>, b: nat): (r: seq<T>)
    requires |v| == |o|
    ensures |r| == Count(o, Is(b))
  {
    if v == [] then [] else (if o[0] == b then [v[0]] else []) + Select(v[1..], o[1..], b)
  }

  /** Buckets 0 .. k - 1, one after the other. */
  ghost function Stable<T>(v: seq<T>, o: seq<nat>, k: nat): (r: seq<T>)
    requires |v| == |o|
    ensures |r| == First(o, k)
  {
    if k == 0 then CountNone(o, LessThan(0)); [] else FirstNext(o, k - 1); Stable(v, o, k - 1) + Select(v, o, k - 1)
  }

  lemma {:induction false} SelectAt<T>(v: seq<T>, o: seq<nat>, i: nat)
    requires |v| == |o| && i < |o|
    ensures Count(o[..i], Is(o[i])) < |Select(v, o, o[i])|
    ensures Select(v, o, o[i])[Count(o[..i], Is(o[i]))] == v[i]
  {
    if i > 0 {
      SelectAt(v[1..], o[1..], i - 1);
      assert o[..i][1..] == o[1..][..i - 1];
    }
  }

  lemma {:induction false} StableAt<T>(v: seq<T>, o: seq<nat>, k: nat, i: nat)
    requires |v| == |o| && i < |o| && o[i] < k
    ensures Dest(o, i) < |Stable(v, o, k)| && Stable(v, o, k)[Dest(o, i)] == v[i]
    decreases k
  {
    DestInBucket(o, i);
    FirstMono(o, o[i] + 1, k);
    if o[i] < k - 1 {
      StableAt(v, o, k - 1, i);
    } else {
      SelectAt(v, o, i);
    }
  }

  /** Bucket b of the stable partition. */
  lemma {:induction false} StablePiece<T>(v: seq<T>, o: seq<nat>, k: nat, b: nat)
    requires |v| == |o| && b < k
    ensures First(o, b) <= First(o, b + 1) <= First(o, k)
    ensures Stable(v, o, k)[First(o, b)..First(o, b + 1)] == Select(v, o, b)
    decreases k
  {
    FirstMono(o, b, b + 1);
    FirstMono(o, b + 1, k);
    if b < k - 1 {
      StablePiece(v, o, k - 1, b);
      assert Stable(v, o, k)[First(o, b)..First(o, b + 1)] == Stable(v, o, k - 1)[First(o, b)..First(o, b + 1)];
    }
  }

  /** A scattered sequence is the stable partition, whoever wrote which element when. */
  lemma ScatteredIsStable<T>(v: seq<T>, o: seq<nat>, k: nat, r: seq<T>)
    requires |v| == |o| == |r| && Bounded(o, k)
    requires forall i :: 0 <= i < |o| ==> Dest(o, i) < |r| && r[Dest(o, i)] == v[i]
    ensures r == Stable(v, o, k)
  {
    FirstEnds(o, k);
    forall q | 0 <= q < |r| ensures r[q] == Stable(v, o, k)[q] {
      var i := DestOnto(o, k, q);
      StableAt(v, o, k, i);
    }
  }

  ghost function BagBelow<T>(v: seq<T>, o: seq<nat>, k: nat): multiset<T>
    requires |v| == |o|
  {
    if v == [] then multiset{} else (if o[0] < k then multiset{v[0]} else multiset{}) + BagBelow(v[1..], o[1..], k)
  }

  lemma {:induction false} BagNext<T>(v: seq<T>, o: seq<nat>, k: nat)
    requires |v| == |o|
    ensures BagBelow(v, o, k + 1) == BagBelow(v, o, k) + multiset(Select(v, o, k))
    ensures BagBelow(v, o, 0) == multiset{}
  {
    if v != [] { BagNext(v[1..], o[1..], k); }
  }

  lemma {:induction false} BagAll<T>(v: seq<T>, o: seq<nat>, k: nat)
    requires |v| == |o| && Bounded(o, k)
    ensures BagBelow(v, o, k) == multiset(v)
  {
    if v != [] {
      BagAll(v[1..], o[1..], k);
      assert v == [v[0]] + v[1..];
    }
  }

  lemma {:induction false} StableBagBelow<T>(v: seq<T>, o: seq<nat>, k: nat)
    requires |v| == |o|
    ensures multiset(Stable(v, o, k)) == BagBelow(v, o, k)
  {
    hide Stable, Select, BagBelow, Count;
    StableNext(v, o, k);
    if k == 0 {
      BagNext(v, o, 0);
    } else {
      StableBagBelow(v, o, k - 1);
      BagNext(v, o, k - 1);
      var x, y := Stable(v, o, k - 1), Select(v, o, k - 1);
      assert multiset(x + y) == multiset(x) + multiset(y);
    }
  }

  lemma StableNext<T>(v: seq<T>, o: seq<nat>, k: nat)
    requires |v| == |o|
    ensures Stable(v, o, k) == if k == 0 then [] else Stable(v, o, k - 1) + Select(v, o, k - 1)
  {
  }

  /** The stable partition is a rearrangement. */
  lemma StableBag<T>(v: seq<T>, o: seq<nat>, k: nat)
    requires |v| == |o| && Bounded(o, k)
    ensures multiset(Stable(v, o, k)) == multiset(v)
  {
    StableBagBelow(v, o, k);
    BagAll(v, o, k);
  }

  lemma {:induction false} SelectPure<T(!new)>(v: seq<T>, o: seq<nat>, cls: T -> nat, b: nat)
    requires |v| == |o| && forall i :: 0 <= i < |v| ==> o[i] == cls(v[i])
    ensures AllOf(Select(v, o, b), cls, b)
  {
    if v != [] { SelectPure(v[1..], o[1..], cls, b); }
  }

  // ---------------------------------------------------------------- the parallel scatter

  datatype Slot<+T> = Empty | Full(value: T)

  /** What the threads share and own: the target, each thread's position, and its slots per bucket. */
  datatype State<+T> = State(out: seq<Slot<T>>, pos: seq<nat>, next: seq<seq<nat>>)

  /** Offsets of a thread whose stripe starts at element x. */
  ghost function Offset(o: seq<nat>, x: nat, b: nat): nat
    requires x <= |o|
  {
    First(o, b) + Count(o[..x], Is(b))
  }

  ghost predicate Stripes(o: seq<nat>, st: seq<nat>) {
    |st| > 1 && Boundaries(st, |o|)
  }

  ghost function Init<T>(v: seq<T>, o: seq<nat>, k: nat, st: seq<nat>): State<T>
    requires Stripes(o, st)
  {
    State(seq(|o|, q => Empty), st[..|st| - 1],
          seq(|st| - 1, t requires 0 <= t < |st| - 1 => BoundaryMono(st, |o|, t, t); seq(k,
            b requires 0 <= b < k => Offset(o, st[t], b))))
  }

  ghost predicate ThreadOk<T>(v: seq<T>, o: seq<nat>, k: nat, st: seq<nat>, s: State<T>, t: nat)
    requires |v| == |o| && t + 1 < |st| && |s.pos| == |s.next| == |st| - 1 && |s.out| == |o|
  {
    && st[t] <= s.pos[t] <= st[t + 1] <= |o| && |s.next[t]| == k
    && (forall b :: 0 <= b < k ==> s.next[t][b] == Offset(o, s.pos[t], b))
    && (forall i :: st[t] <= i < s.pos[t] ==> Dest(o, i) < |o| && s.out[Dest(o, i)] == Full(v[i]))
    && (forall i :: s.pos[t] <= i < st[t + 1] ==> Dest(o, i) < |o| && s.out[Dest(o, i)] == Empty)
  }

  ghost predicate Inv<T>(v: seq<T>, o: seq<nat>, k: nat, st: seq<nat>, s: State<T>) {
    && |v| == |o| == |s.out| && Bounded(o, k) && Stripes(o, st) && |s.pos| == |s.next| == |st| - 1
    && forall t :: 0 <= t < |st| - 1 ==> ThreadOk(v, o, k, st, s, t)
  }

  /** Thread t moves its next element. */
  ghost function Step<T>(v: seq<T>, o: seq<nat>, k: nat, st: seq<nat>, s: State<T>, t: nat): (s': State<T>)
    requires Inv(v, o, k, st, s) && t < |s.pos|
    ensures |s'.out| == |s.out| && |s'.pos| == |s.pos| && |s'.next| == |s.next|
  {
    assert ThreadOk(v, o, k, st, s, t);
    var i := s.pos[t];
    if i == st[t + 1] then s
    else
      DestInBucket(o, i);
      var q := s.next[t][o[i]];
      State(s.out[q := Full(v[i])], s.pos[t := i + 1], s.next[t := s.next[t][o[i] := q + 1]])
  }

  lemma InitInv<T>(v: seq<T>, o: seq<nat>, k: nat, st: seq<nat>)
    requires |v| == |o| && Bounded(o, k) && Stripes(o, st)
    ensures Inv(v, o, k, st, Init(v, o, k, st))
  {
    var s := Init(v, o, k, st);
    forall t | 0 <= t < |st| - 1 ensures ThreadOk(v, o, k, st, s, t) {
      BoundaryMono(st, |o|, t, t + 1);
      BoundaryMono(st, |o|, t + 1, |st| - 1);
      forall i | st[t] <= i < st[t + 1] ensures Dest(o, i) < |o| { DestInBucket(o, i); }
    }
  }

  lemma OffsetNext(o: seq<nat>, i: nat, b: nat)
    requires i < |o|
    ensures Offset(o, i + 1, b) == Offset(o, i, b) + (if o[i] == b then 1 else 0)
    ensures Dest(o, i) == Offset(o, i, o[i])
  {
    assert o[..i + 1] == o[..i] + [o[i]];
    CountSnoc(o[..i], o[i], Is(b));
  }

  lemma StepThread<T>(v: seq<T>, o: seq<nat>, k: nat, st: seq<nat>, s: State<T>, t: nat, u: nat)
    requires Inv(v, o, k, st, s) && t < |s.pos| && u < |s.pos| && s.pos[t] < st[t + 1] <= |o|
    ensures ThreadOk(v, o, k, st, Step(v, o, k, st, s, t), u)
  {
    assert ThreadOk(v, o, k, st, s, t) && ThreadOk(v, o, k, st, s, u);
    var i := s.pos[t];
    forall b ensures Offset(o, i + 1, b) == Offset(o, i, b) + (if o[i] == b then 1 else 0) { OffsetNext(o, i, b); }
    OffsetNext(o, i, o[i]);
    if u < t { BoundaryMono(st, |o|, u + 1, t); } else if t < u { BoundaryMono(st, |o|, t + 1, u); }
    forall j | st[u] <= j < st[u + 1] && j != i ensures Dest(o, j) != Dest(o, i) {
      if j < i { DestInjective(o, j, i); } else { DestInjective(o, i, j); }
    }
  }

  /** A thread moves its next element, if it has one; the writes hit disjoint slots, and none of them twice. */
  lemma StepKeeps<T>(v: seq<T>, o: seq<nat>, k: nat, st: seq<nat>, s: State<T>, t: nat)
    requires Inv(v, o, k, st, s) && t < |s.pos|
    ensures Inv(v, o, k, st, Step(v, o, k, st, s, t))
    ensures s.pos[t] < st[t + 1] ==> s.pos[t] < |o| && Dest(o, s.pos[t]) < |o| && s.out[Dest(o, s.pos[t])] == Empty
    ensures Step(v, o, k, st, s, t).pos == if s.pos[t] < st[t + 1] then s.pos[t := s.pos[t] + 1] else s.pos
  {
    assert ThreadOk(v, o, k, st, s, t);
    if s.pos[t] < st[t + 1] {
      forall u | 0 <= u < |st| - 1 ensures ThreadOk(v, o, k, st, Step(v, o, k, st, s, t), u) {
        StepThread(v, o, k, st, s, t, u);
      }
    }
  }

  ghost function Run<T>(v: seq<T>, o: seq<nat>, k: nat, st: seq<nat>, s: State<T>, order: seq<nat>): (r: State<T>)
    requires Inv(v, o, k, st, s) && forall j :: 0 <= j < |order| ==> order[j] < |st| - 1
    ensures Inv(v, o, k, st, r)
    decreases |order|
  {
    if order == [] then s
    else
      StepKeeps(v, o, k, st, s, order[0]);
      Run(v, o, k, st, Step(v, o, k, st, s, order[0]), order[1..])
  }

  ghost predicate AllMoved<T>(st: seq<nat>, s: State<T>) {
    |s.pos| == |st| - 1 && forall t :: 0 <= t < |st| - 1 ==> s.pos[t] == st[t + 1]
  }

  /** Every thread acts at least as often as its stripe has elements. */
  ghost predicate Enough(st: seq<nat>, order: seq<nat>) {
    && (forall j :: 0 <= j < |order| ==> order[j] < |st| - 1)
    && (forall t :: 0 <= t < |st| - 1 ==> st[t + 1] <= st[t] + Count(order, Is(t)))
  }

  /** Every action of a thread moves one element, until its stripe is used up. */
  lemma {:induction false} RunMoves<T>(
      v: seq<T>, o: seq<nat>, k: nat, st: seq<nat>, s: State<T>, order: seq<nat>, t: nat)
    requires Inv(v, o, k, st, s) && (forall j :: 0 <= j < |order| ==> order[j] < |st| - 1) && t < |s.pos|
    ensures var e, c := Run(v, o, k, st, s, order).pos[t], s.pos[t] + Count(order, Is(t));
      e == if c < st[t + 1] then c else st[t + 1]
    decreases |order|
  {
    assert ThreadOk(v, o, k, st, s, t);
    if order != [] {
      StepKeeps(v, o, k, st, s, order[0]);
      RunMoves(v, o, k, st, Step(v, o, k, st, s, order[0]), order[1..], t);
    }
  }

  /** What the threads leave if they act in this order. */
  ghost function After<T>(v: seq<T>, o: seq<nat>, k: nat, st: seq<nat>, order: seq<nat>): (s: State<T>)
    requires |v| == |o| && Bounded(o, k) && Stripes(o, st) && forall j :: 0 <= j < |order| ==> order[j] < |st| - 1
    ensures Inv(v, o, k, st, s)
  {
    InitInv(v, o, k, st);
    Run(v, o, k, st, Init(v, o, k, st), order)
  }

  /** So all elements are moved as soon as every thread has acted often enough. */
  lemma EnoughMoves<T>(v: seq<T>, o: seq<nat>, k: nat, st: seq<nat>, order: seq<nat>)
    requires |v| == |o| && Bounded(o, k) && Stripes(o, st) && Enough(st, order)
    ensures AllMoved(st, After(v, o, k, st, order))
  {
    InitInv(v, o, k, st);
    var s := Init(v, o, k, st);
    forall t | 0 <= t < |st| - 1 ensures After(v, o, k, st, order).pos[t] == st[t + 1] {
      RunMoves(v, o, k, st, s, order, t);
    }
  }

  /** In every interleaving in which the threads act often enough, the scatter yields the stable partition. */
  lemma AnyInterleaving<T>(v: seq<T>, o: seq<nat>, k: nat, st: seq<nat>, order: seq<nat>)
    requires |v| == |o| && Bounded(o, k) && Stripes(o, st) && Enough(st, order)
    ensures |Stable(v, o, k)| == |v|
    ensures After(v, o, k, st, order).out == seq(|v|, q requires 0 <= q < |v| => Full(Stable(v, o, k)[q]))
  {
    var s := After(v, o, k, st, order);
    EnoughMoves(v, o, k, st, order);
    FirstEnds(o, k);
    forall q | 0 <= q < |v| ensures s.out[q] == Full(Stable(v, o, k)[q]) {
      var i := DestOnto(o, k, q);
      var t := StripeOf(st, |o|, i, |st| - 1);
      assert ThreadOk(v, o, k, st, s, t);
      StableAt(v, o, k, i);
    }
  }
}
