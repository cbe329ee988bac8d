/**
 * The block permutation phase as the sequential sorter runs it, on the array itself. Its actions are
 * those of thread 0 in a run of BlockProtocol with one thread, which the ghost state tracks.
 */
module BlockPermutation {
  import opened Powers
  import opened Classifier
  import opened Buffers
  import opened BlockProtocol
  import opened BlockResults
  import opened BlockSequential

  /** Write and read pointers of all buckets, in blocks. */
  class BucketPointers {
    var w: seq<nat>
    var r: seq<int>

    constructor (numBuckets: nat)
      ensures |w| == |r| == numBuckets
    {
      w, r := seq(numBuckets, i => 0), seq(numBuckets, i => -1);
    }

    method Set(b: nat, write: nat, read: int)
      requires b < |w| == |r|
      modifies this
      ensures w == old(w)[b := write] && r == old(r)[b := read]
    {
      w, r := w[b := write], r[b := read];
    }

    /** Gets write and read pointer and increases the write pointer. */
    method IncWrite(b: nat) returns (write: nat, read: int)
      requires b < |w| == |r|
      modifies this
      ensures write == old(w)[b] && read == old(r)[b]
      ensures w == old(w)[b := write + 1] && r == old(r)
    {
      write, read := w[b], r[b];
      w := w[b := write + 1];
    }

    /** Gets write and read pointer and decreases the read pointer. */
    method DecRead(b: nat) returns (write: nat, read: int)
      requires b < |w| == |r|
      modifies this
      ensures write == old(w)[b] && read == old(r)[b]
      ensures w == old(w) && r == old(r)[b := read - 1]
    {
      write, read := w[b], r[b];
      r := r[b := read - 1];
    }
  }

  /** The block-sized pieces of s from lo on. */
  ghost function BlocksOf<T>(s: seq<T>, lo: nat, n: nat, B: nat): (bs: seq<seq<T>>)
    requires lo + n * B <= |s|
    ensures |bs| == n && forall q :: 0 <= q < n ==> |bs[q]| == B
  {
    seq(n, q requires 0 <= q < n => BlockAt(s, lo, n, B, q))
  }

  ghost function BlockAt<T>(s: seq<T>, lo: nat, n: nat, B: nat, q: nat): (b: seq<T>)
    requires lo + n * B <= |s| && q < n
    ensures lo + q * B + B <= |s|
    ensures |b| == B
  {
    MulLess(q, n, B);
    s[lo + q * B..lo + q * B + B]
  }

  lemma Apart<T>(s: seq<T>, t: seq<T>, at: nat, B: nat, x: seq<T>, k: nat)
    requires at + B <= |s| && |x| == B && t == s[..at] + x + s[at + B..]
    requires k + B <= at || at + B <= k <= |s| - B
    ensures t[k..k + B] == s[k..k + B]
  {
  }

  lemma WriteBlock<T>(s: seq<T>, t: seq<T>, lo: nat, n: nat, B: nat, q: nat, x: seq<T>)
    requires lo + n * B <= |s| && q < n && |x| == B && lo + q * B + B <= |s|
    requires t == s[..lo + q * B] + x + s[lo + q * B + B..]
    ensures |t| == |s| && BlocksOf(t, lo, n, B) == BlocksOf(s, lo, n, B)[q := x]
  {
    var u := BlocksOf(s, lo, n, B)[q := x];
    forall k | 0 <= k < n ensures BlockAt(t, lo, n, B, k) == u[k] { OtherBlock(s, t, lo, n, B, q, x, k); }
    assert BlocksOf(t, lo, n, B) == u;
  }

  lemma OtherBlock<T>(s: seq<T>, t: seq<T>, lo: nat, n: nat, B: nat, q: nat, x: seq<T>, k: nat)
    requires lo + n * B <= |s| && q < n && k < n && |x| == B && lo + q * B + B <= |s|
    requires t == s[..lo + q * B] + x + s[lo + q * B + B..]
    ensures |t| == |s| && BlockAt(t, lo, n, B, k) == (if k == q then x else BlockAt(s, lo, n, B, k))
  {
    MulLess(k, n, B);
    if k < q {
      MulLess(k, q, B);
      Apart(s, t, lo + q * B, B, x, lo + k * B);
    } else if q < k {
      MulLess(q, k, B);
      Apart(s, t, lo + q * B, B, x, lo + k * B);
    } else {
      assert t[lo + q * B..lo + q * B + B] == x;
    }
  }

  /** Only blocks lo, lo + 1, ... n change. */
  ghost predicate SameOutside<T>(s: seq<T>, t: seq<T>, lo: nat, size: nat)
    requires lo + size <= |s| == |t|
  {
    t[..lo] == s[..lo] && t[lo + size..] == s[lo + size..]
  }

  lemma NothingOutside<T>(s: seq<T>, lo: nat, size: nat)
    requires lo + size <= |s|
    ensures SameOutside(s, s, lo, size)
  {
  }

  lemma StillOutside<T>(s: seq<T>, t: seq<T>, u: seq<T>, lo: nat, size: nat)
    requires lo + size <= |s| == |t| == |u| && SameOutside(s, t, lo, size) && SameOutside(t, u, lo, size)
    ensures SameOutside(s, u, lo, size)
  {
  }

  lemma WriteInside<T>(s: seq<T>, t: seq<T>, lo: nat, n: nat, B: nat, q: nat, x: seq<T>)
    requires lo + n * B <= |s| && q < n && |x| == B && lo + q * B + B <= |s|
    requires t == s[..lo + q * B] + x + s[lo + q * B + B..]
    ensures |t| == |s| && SameOutside(s, t, lo, n * B)
  {
    MulLess(q, n, B);
  }

  /** Bucket of a block: that of its first element. */
  ghost function HeadClass<T>(cls: T -> nat): seq<T> -> nat {
    (b: seq<T>) => if |b| > 0 then cls(b[0]) else 0
  }

  class Permuter<T(!new)> {
    const a: array<T>
    const begin: nat
    const B: nat
    const whole: nat        // number of whole blocks; no block may be written at or past it
    const numBuckets: nat
    const cl: Classifier<T>
    const equal: bool
    const bp: BucketPointers
    var swap: seq<seq<T>>   // the two swap buffers
    var overflow: Option<seq<T>>
    ghost const cls: T -> nat
    ghost const p: Layout<seq<T>>
    ghost var st: State<seq<T>>

    constructor (a: array<T>, begin: nat, B: nat, whole: nat, numBuckets: nat, cl: Classifier<T>, equal: bool,
                 bp: BucketPointers, ghost cls: T -> nat, ghost p: Layout<seq<T>>)
      requires B > 0 && numBuckets > 0
      requires begin + whole * B <= a.Length && a != cl.tree && a != cl.sorted && Agrees(cl, equal, cls)
      requires Start(p, BlocksOf(a[..], begin, whole, B))
      requires p.cls == HeadClass(cls) && p.whole == whole && Num(p) == numBuckets && p.first == [0]
      requires bp.w == p.start[..numBuckets] && |bp.w| == |bp.r| == numBuckets
      requires forall b :: 0 <= b < numBuckets ==> bp.r[b] == p.full[b] as int - 1
      ensures Synced() && Idle(0)
      ensures this.a == a && this.begin == begin && this.B == B && this.whole == whole
      ensures this.numBuckets == numBuckets && this.bp == bp && this.p == p && this.cls == cls && this.cl == cl
      ensures overflow == None
    {
      hide Inv, Valid;
      this.a, this.begin, this.B, this.whole := a, begin, B, whole;
      this.numBuckets, this.cl, this.equal, this.bp := numBuckets, cl, equal, bp;
      this.cls, this.p := cls, p;
      swap, overflow := [[], []], None;
      InitAlone(p, BlocksOf(a[..], begin, whole, B));
      st := Init(p, BlocksOf(a[..], begin, whole, B));
      new;
      assert bp.r == st.r;
    }

    /** The array, the pointers and the overflow buffer are those of the tracked protocol state. */
    ghost predicate Synced()
      reads this, a, bp, cl, cl.tree, cl.sorted
    {
      && B > 0 && begin + whole * B <= a.Length && a != cl.tree && a != cl.sorted
      && Agrees(cl, equal, cls)
      && Alone(p, st) && p.cls == HeadClass(cls) && p.whole == whole && Num(p) == numBuckets
      && bp.w == st.w && bp.r == st.r && |bp.w| == |bp.r| == numBuckets
      && BlocksOf(a[..], begin, whole, B) == st.mem
      && overflow == st.workers[0].spill
      && |swap| == 2
    }

    /** The swap buffer `cur` holds the block that thread 0 is placing, and dest is its bucket. */
    ghost predicate Holds(cur: nat, dest: int)
      reads this
    {
      && |swap| == 2 && cur < 2 && |st.workers| == 1
      && st.workers[0].phase.Placing? && st.workers[0].held == Some(swap[cur]) && |swap[cur]| == B
      && B > 0 && dest == cls(swap[cur][0])
    }

    ghost predicate Idle(visited: nat)
      reads this
    {
      && |st.workers| == 1 && st.workers[0].visited == visited && st.workers[0].first == 0
      && st.workers[0].phase == (if visited == Num(p) then Finished else Ready)
    }

    /** Copies block q into a swap buffer. */
    method ReadFrom(q: nat, cur: nat)
      requires |swap| == 2 && cur < 2 && q < whole && begin + whole * B <= a.Length
      modifies this`swap
      ensures swap == old(swap)[cur := BlocksOf(a[..], begin, whole, B)[q]]
    {
      MulLess(q, whole, B);
      swap := swap[cur := a[begin + q * B..begin + q * B + B]];
      assert swap[cur] == BlockAt(a[..], begin, whole, B, q);
    }

    /** Writes a swap buffer to slot q. */
    method WriteTo(q: nat, cur: nat)
      requires |swap| == 2 && cur < 2 && |swap[cur]| == B && q < whole && begin + whole * B <= a.Length
      modifies a
      ensures BlocksOf(a[..], begin, whole, B) == old(BlocksOf(a[..], begin, whole, B))[q := swap[cur]]
      ensures SameOutside(old(a[..]), a[..], begin, whole * B)
    {
      ghost var s := a[..];
      MulLess(q, whole, B);
      CopyIn(a, begin + q * B, swap[cur]);
      WriteBlock(s, a[..], begin, whole, B, q, swap[cur]);
      WriteInside(s, a[..], begin, whole, B, q, swap[cur]);
    }

    /** Bucket of the block in slot q. */
    method ClassifySlot(q: nat) returns (bucket: nat)
      requires B > 0 && q < whole && begin + whole * B <= a.Length && Agrees(cl, equal, cls)
      ensures bucket == HeadClass(cls)(BlocksOf(a[..], begin, whole, B)[q])
    {
      MulLess(q, whole, B);
      bucket := cl.Classify(equal, a[begin + q * B]);
      assert BlockAt(a[..], begin, whole, B, q)[0] == a[begin + q * B];
    }

    /** Tries to read a block from readBucket into swap buffer 0; -1 if there is none. */
    method ClassifyAndReadBlock(readBucket: nat, ghost visited: nat) returns (dest: int)
      requires Synced() && Idle(visited) && visited < numBuckets && readBucket == At(numBuckets, 0, visited)
      modifies this`swap, this`st, bp
      ensures Synced() && Work(p, st) < old(Work(p, st))
      ensures if dest == -1 then Idle(visited + 1) else Holds(0, dest) && st.workers[0].visited == visited
                                                        && st.workers[0].first == 0
    {
      hide Inv, BlocksOf;
      ghost var next := ReadMacro(p, st);
      var write, read := bp.DecRead(readBucket);
      if read < write {
        st := next;
        return -1;
      }
      ReadFrom(read, 0);
      st := next;
      dest := cl.Classify(equal, swap[0][0]);
    }

    /** One turn of the placing loop: takes the next slot of bucket dest and handles what it finds. */
    method TakeSlot(dest: nat, cur: nat) returns (done: bool, slot: nat, newDest: nat)
      requires Synced() && cur < 2 && Holds(cur, dest)
      modifies this`st, this`overflow, a, bp
      ensures SameOutside(old(a[..]), a[..], begin, whole * B) && |swap| == 2
      ensures Work(p, st) < old(Work(p, st)) && |st.workers| == 1
      ensures st.workers[0].visited == old(st.workers[0].visited) && st.workers[0].first == old(st.workers[0].first)
      ensures done ==> Synced() && st.workers[0].phase.Ready?
      ensures !done && newDest == dest ==> Synced() && Holds(cur, dest)
      ensures !done && newDest != dest ==> slot < whole && Exchanging(cur, slot, newDest)
    {
      hide Inv, Work, Todo, Agrees, BlocksOf;
      Placeable(p, st);
      ghost var next := PlaceMacro(p, st);
      var write, read := bp.IncWrite(dest);
      slot, newDest := write, dest;
      done := write > read;
      if done {
        StoreBlock(write, cur);
      } else {
        newDest := ClassifySlot(write);
      }
      st := next;
    }

    /** Writes a swap buffer to slot q, or to the overflow buffer if q is no whole block. */
    method StoreBlock(q: nat, cur: nat)
      requires |swap| == 2 && cur < 2 && |swap[cur]| == B && begin + whole * B <= a.Length
      modifies this`overflow, a
      ensures SameOutside(old(a[..]), a[..], begin, whole * B)
      ensures overflow == if q < whole then old(overflow) else Some(swap[cur])
      ensures q < whole ==>
        BlocksOf(a[..], begin, whole, B) == old(BlocksOf(a[..], begin, whole, B))[q := swap[cur]]
      ensures q >= whole ==> BlocksOf(a[..], begin, whole, B) == old(BlocksOf(a[..], begin, whole, B))
    {
      if q >= whole {
        overflow := Some(swap[cur]);
      } else {
        WriteTo(q, cur);
      }
    }

    /** The protocol has exchanged the held block with slot's, the array not yet. */
    ghost predicate Exchanging(cur: nat, slot: nat, newDest: nat)
      reads this, a, bp, cl, cl.tree, cl.sorted
    {
      && |swap| == 2 && cur < 2 && B > 0 && begin + whole * B <= a.Length && a != cl.tree && a != cl.sorted
      && Agrees(cl, equal, cls)
      && Alone(p, st) && p.cls == HeadClass(cls) && p.whole == whole && Num(p) == numBuckets
      && bp.w == st.w && bp.r == st.r && |bp.w| == |bp.r| == numBuckets
      && overflow == st.workers[0].spill
      && slot < whole && |swap[cur]| == B
      && st.mem == BlocksOf(a[..], begin, whole, B)[slot := swap[cur]]
      && st.workers[0].phase.Placing? && st.workers[0].held == Some(BlocksOf(a[..], begin, whole, B)[slot])
      && newDest == cls(BlocksOf(a[..], begin, whole, B)[slot][0])
    }

    /** Finds a slot for the block in swap buffer cur; -1 if it found an empty one. */
    method SwapBlock(dest: nat, cur: nat) returns (newDest: int)
      requires Synced() && cur < 2 && Holds(cur, dest)
      modifies this`swap, this`st, this`overflow, a, bp
      ensures SameOutside(old(a[..]), a[..], begin, whole * B)
      ensures Synced() && Work(p, st) < old(Work(p, st))
      ensures st.workers[0].visited == old(st.workers[0].visited) && st.workers[0].first == old(st.workers[0].first)
      ensures if newDest == -1 then st.workers[0].phase.Ready? else Holds(1 - cur, newDest)
    {
      hide Inv, Work, Agrees, BlocksOf;
      var done: bool, slot: nat, d: nat := TakeSlot(dest, cur);
      while !done && d == dest
        invariant SameOutside(old(a[..]), a[..], begin, whole * B) && |swap| == 2 && |st.workers| == 1
        invariant st.workers[0].visited == old(st.workers[0].visited) && st.workers[0].first == old(st.workers[0].first)
        invariant Alone(p, st) && Work(p, st) < old(Work(p, st))
        invariant done ==> Synced() && st.workers[0].phase.Ready?
        invariant !done && d == dest ==> Synced() && Holds(cur, dest)
        invariant !done && d != dest ==> slot < whole && Exchanging(cur, slot, d)
        decreases Work(p, st)
      {
        done, slot, d := TakeSlot(dest, cur);
      }
      if done { return -1; }
      ReadFrom(slot, 1 - cur);
      WriteTo(slot, cur);
      newDest := d;
    }

    /** The whole phase. */
    method PermuteBlocks()
      requires Synced() && Idle(0)
      modifies this`swap, this`st, this`overflow, a, bp
      ensures SameOutside(old(a[..]), a[..], begin, whole * B)
      ensures Synced() && AllDone(st)
    {
      assert numBuckets > 0 && Num(p) == numBuckets && begin + whole * B <= a.Length;
      FirstBucket(numBuckets);
      NothingOutside(a[..], begin, whole * B);
      var readBucket, count := 0, numBuckets;
      while count != 0
        invariant 0 <= count <= numBuckets && Synced() && Idle(numBuckets - count)
        invariant readBucket == At(numBuckets, 0, numBuckets - count)
        invariant SameOutside(old(a[..]), a[..], begin, whole * B)
        decreases count
      {
        ghost var u := a[..];
        ReadBucket(readBucket, numBuckets - count);
        StillOutside(old(a[..]), u, a[..], begin, whole * B);
        readBucket := NextBucket(numBuckets, readBucket, numBuckets - count);
        count := count - 1;
      }
    }

    /** Reads and places blocks until readBucket is exhausted. */
    method ReadBucket(readBucket: nat, ghost visited: nat)
      requires Synced() && Idle(visited) && visited < numBuckets && readBucket == At(numBuckets, 0, visited)
      modifies this`swap, this`st, this`overflow, a, bp
      ensures SameOutside(old(a[..]), a[..], begin, whole * B)
      ensures Synced() && Idle(visited + 1)
    {
      hide Inv, Work, Agrees, BlocksOf;
      var dest := ClassifyAndReadBlock(readBucket, visited);
      while dest != -1
        invariant SameOutside(old(a[..]), a[..], begin, whole * B) && Synced()
        invariant if dest == -1 then Idle(visited + 1) else Holds(0, dest) && st.workers[0].visited == visited
                                                            && st.workers[0].first == 0
        decreases Work(p, st)
      {
        PlaceChain(dest, visited);
        dest := ClassifyAndReadBlock(readBucket, visited);
      }
    }

    /** Places the block in swap buffer 0 and every block that it displaces. */
    method PlaceChain(first: nat, ghost visited: nat)
      requires Synced() && Holds(0, first) && visited < numBuckets
      requires st.workers[0].visited == visited && st.workers[0].first == 0
      modifies this`swap, this`st, this`overflow, a, bp
      ensures SameOutside(old(a[..]), a[..], begin, whole * B)
      ensures Synced() && Idle(visited) && Work(p, st) < old(Work(p, st))
    {
      hide Inv, Work, Agrees, BlocksOf;
      var cur := 0;
      var dest: int := SwapBlock(first, cur);
      while dest != -1
        invariant cur < 2 && Synced() && Work(p, st) < old(Work(p, st))
        invariant SameOutside(old(a[..]), a[..], begin, whole * B)
        invariant st.workers[0].visited == visited && st.workers[0].first == 0
        invariant if dest == -1 then st.workers[0].phase.Ready? else Holds(1 - cur, dest)
        decreases Work(p, st)
      {
        cur := 1 - cur;
        dest := SwapBlock(dest, cur);
      }
    }
  }

  lemma FirstBucket(n: nat)
    requires n > 0
    ensures At(n, 0, 0) == 0
  {
  }

  method NextBucket(n: nat, b: nat, ghost visited: nat) returns (next: nat)
    requires visited < n && b == At(n, 0, visited)
    ensures next == At(n, 0, visited + 1)
  {
    RemainderIs(visited, 0, visited, n);
    next := (b + 1) % n;
  }
}
