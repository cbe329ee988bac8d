/** Per-bucket buffers of at most one block, and the bags of their contents. */
module Buffers {

  ghost function TotalLen<T>(bufs: seq<seq<T>>): nat {
    if bufs == [] then 0 else |bufs[0]| + TotalLen(bufs[1..])
  }

  ghost function BagOf<T>(bufs: seq<seq<T>>): multiset<T> {
    if bufs == [] then multiset{} else multiset(bufs[0]) + BagOf(bufs[1..])
  }

  lemma AddBoth<T>(h: multiset<T>, x: multiset<T>, a: multiset<T>, y: multiset<T>, b: multiset<T>)
    requires x + a == y + b
    ensures (h + x) + a == (h + y) + b
  {
    assert (h + x) + a == h + (x + a);
  }

  lemma {:induction false} Update<T>(bufs: seq<seq<T>>, i: nat, b: seq<T>)
    requires i < |bufs|
    ensures TotalLen(bufs[i := b]) + |bufs[i]| == TotalLen(bufs) + |b|
    ensures BagOf(bufs[i := b]) + multiset(bufs[i]) == BagOf(bufs) + multiset(b)
  {
    if i == 0 {
      assert bufs[i := b][1..] == bufs[1..];
    } else {
      assert bufs[i := b][1..] == bufs[1..][i - 1 := b];
      var rest := bufs[1..];
      Update(rest, i - 1, b);
      AddBoth(multiset(bufs[0]), BagOf(rest[i - 1 := b]), multiset(rest[i - 1]), BagOf(rest), multiset(b));
    }
  }

  lemma {:induction false} AllEmpty<T>(bufs: seq<seq<T>>)
    requires forall i :: 0 <= i < |bufs| ==> bufs[i] == []
    ensures TotalLen(bufs) == 0 && BagOf(bufs) == multiset{}
  {
    if bufs != [] { AllEmpty(bufs[1..]); }
  }

  lemma {:induction false} OneOfMany<T>(bufs: seq<seq<T>>, i: nat)
    requires i < |bufs|
    ensures |bufs[i]| <= TotalLen(bufs)
  {
    if i > 0 { OneOfMany(bufs[1..], i - 1); }
  }

  lemma {:induction false} InBag<T>(bufs: seq<seq<T>>, t: nat, x: T)
    requires t < |bufs| && x in bufs[t]
    ensures x in BagOf(bufs)
  {
    if t > 0 { InBag(bufs[1..], t - 1, x); }
  }

  lemma {:induction false} FromBag<T>(bufs: seq<seq<T>>, x: T) returns (t: nat, i: nat)
    requires x in BagOf(bufs)
    ensures t < |bufs| && i < |bufs[t]| && bufs[t][i] == x
  {
    if x in multiset(bufs[0]) {
      t := 0;
      i :| 0 <= i < |bufs[0]| && bufs[0][i] == x;
    } else {
      t, i := FromBag(bufs[1..], x);
      t := t + 1;
    }
  }

  ghost function Joined<T>(bufs: seq<seq<T>>): seq<T> {
    if bufs == [] then [] else bufs[0] + Joined(bufs[1..])
  }

  lemma {:induction false} JoinedBag<T>(bufs: seq<seq<T>>)
    ensures multiset(Joined(bufs)) == BagOf(bufs)
  {
    if bufs != [] { JoinedBag(bufs[1..]); }
  }

  lemma {:induction false} JoinedNext<T>(bufs: seq<seq<T>>, i: nat)
    requires i < |bufs|
    ensures Joined(bufs[..i + 1]) == Joined(bufs[..i]) + bufs[i]
    ensures |Joined(bufs[..i])| + |bufs[i]| <= |Joined(bufs)|
  {
    if i == 0 {
      assert bufs[..1] == [bufs[0]] + [] && Joined(bufs[..1][1..]) == [];
    } else {
      var rest := bufs[1..];
      JoinedNext(rest, i - 1);
      assert bufs[..i + 1][1..] == rest[..i] && bufs[..i][1..] == rest[..i - 1];
    }
  }

  /** One more thread's buffers behind those of the others, bucket by bucket. */
  ghost function Zip<T>(x: seq<seq<T>>, y: seq<seq<T>>): (z: seq<seq<T>>)
    requires |x| == |y|
    ensures |z| == |x| && forall i :: 0 <= i < |x| ==> z[i] == x[i] + y[i]
  {
    seq(|x|, i requires 0 <= i < |x| => x[i] + y[i])
  }

  lemma {:induction false} ZipBag<T>(x: seq<seq<T>>, y: seq<seq<T>>)
    requires |x| == |y|
    ensures BagOf(Zip(x, y)) == BagOf(x) + BagOf(y)
  {
    if x != [] {
      assert Zip(x, y)[1..] == Zip(x[1..], y[1..]);
      ZipBag(x[1..], y[1..]);
      RegroupBags(multiset(x[0]), multiset(y[0]), BagOf(x[1..]), BagOf(y[1..]));
    }
  }

  lemma RegroupBags<T>(a: multiset<T>, b: multiset<T>, c: multiset<T>, d: multiset<T>)
    ensures (a + b) + (c + d) == (a + c) + (b + d)
  {
  }

  /** s with its elements from position `at` on replaced by x. */
  ghost function Put<T>(s: seq<T>, at: nat, x: seq<T>): (t: seq<T>)
    requires at + |x| <= |s|
    ensures |t| == |s|
  {
    s[..at] + x + s[at + |x|..]
  }

  /** Overwrites a[dest..] with the elements of src. */
  method CopyIn<T>(a: array<T>, dest: nat, src: seq<T>)
    requires dest + |src| <= a.Length
    modifies a
    ensures a[..] == Put(old(a[..]), dest, src)
  {
    for k := 0 to |src|
      invariant forall j :: 0 <= j < dest || dest + k <= j < a.Length ==> a[j] == old(a[j])
      invariant forall j :: 0 <= j < k ==> a[dest + j] == src[j]
    {
      a[dest + k] := src[k];
    }
    assert a[dest..dest + |src|] == src;
    assert a[..] == a[..dest] + a[dest..dest + |src|] + a[dest + |src|..];
  }

  /** Moves a[src..src + count] down to dst. */
  method MoveDown<T>(a: array<T>, src: nat, count: nat, dst: nat)
    requires dst + count <= src && src + count <= a.Length
    modifies a
    ensures a[..] == Put(old(a[..]), dst, old(a[src..src + count]))
  {
    ghost var x := a[src..src + count];
    for k := 0 to count
      invariant forall j :: 0 <= j < dst || dst + k <= j < a.Length ==> a[j] == old(a[j])
      invariant forall j :: 0 <= j < k ==> a[dst + j] == x[j]
    {
      a[dst + k] := a[src + k];
    }
    assert a[dst..dst + count] == x;
    assert a[..] == a[..dst] + a[dst..dst + count] + a[dst + count..];
  }

  class Buffers<T> {
    const blockSize: nat
    var content: seq<seq<T>>

    constructor (numBuckets: nat, blockSize: nat)
      ensures this.blockSize == blockSize && |content| == numBuckets
      ensures forall i :: 0 <= i < numBuckets ==> content[i] == []
    {
      this.blockSize := blockSize;
      content := seq(numBuckets, i => []);
    }

    predicate IsFull(i: nat)
      reads this
      requires i < |content|
    {
      |content[i]| == blockSize
    }

    method Push(i: nat, x: T)
      requires i < |content| && |content[i]| < blockSize
      modifies this
      ensures content == old(content)[i := old(content)[i] + [x]]
    {
      content := content[i := content[i] + [x]];
    }

    /** Flushes a full buffer to the array. */
    method WriteTo(i: nat, a: array<T>, dest: nat)
      requires i < |content| && IsFull(i) && dest + blockSize <= a.Length
      modifies this, a
      ensures content == old(content)[i := []]
      ensures a[..] == Put(old(a[..]), dest, old(content)[i])
    {
      CopyIn(a, dest, content[i]);
      content := content[i := []];
    }

    method Reset(i: nat)
      requires i < |content|
      modifies this
      ensures content == old(content)[i := []]
    {
      content := content[i := []];
    }
  }
}
