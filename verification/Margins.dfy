/**
 * The cleanup phase of one in-place partitioning step, as the sequential sorter runs it. The blocks of
 * every bucket lie at block boundaries; its first and last elements still sit in its buffer, in the
 * overflow buffer, or beyond the end of the bucket, in the head of the next one.
 */
module Margins {
  import opened Order
  import opened Bags
  import opened Buckets
  import opened Powers
  import opened BaseCase
  import opened Buffers
  import opened BlockProtocol
  import opened InPlaceLayout

  /** A bucket: its range [lo, hi), its first block boundary st, and its write pointer wr. */
  datatype Span = Span(lo: nat, st: nat, wr: nat, hi: nat)
  /** The bucket's last block went to the overflow buffer instead of past lim. */
  predicate Spilled(sp: Span, lim: nat) {
    sp.wr > sp.st && sp.wr > lim
  }

  /** The written blocks of a bucket; lim is the end of the last whole block. */
  ghost function Written<T>(t: seq<T>, sp: Span, lim: nat): seq<T>
    requires lim <= |t|
  {
    if sp.wr <= sp.st || lim <= sp.st then [] else if sp.wr <= lim then t[sp.st..sp.wr] else t[sp.st..lim]
  }

  ghost function Over<T>(sp: Span, lim: nat, over: Option<seq<T>>): seq<T> {
    if Spilled(sp, lim) && over.Some? then over.value else []
  }

  /** Everything that belongs to the bucket, wherever it is. */
  ghost function Belongings<T>(t: seq<T>, sp: Span, lim: nat, over: Option<seq<T>>, buf: seq<T>): multiset<T>
    requires lim <= |t|
  {
    multiset(Written(t, sp, lim)) + multiset(Over(sp, lim, over)) + multiset(buf)
  }

  /** What the permutation phase leaves of bucket i in t. */
  ghost predicate Placed<T(!new)>(
      t: seq<T>, sp: Span, B: nat, lim: nat, over: Option<seq<T>>, buf: seq<T>, cls: T -> nat, i: nat)
  {
    && 0 < B && sp.lo <= sp.st < sp.lo + B && sp.lo <= sp.hi <= |t| && lim <= |t|
    && (sp.wr == sp.st || sp.wr >= sp.st + B)
    && sp.wr + |buf| == sp.st + (sp.hi - sp.lo)
    && (sp.lo < sp.hi ==> |buf| > 0)
    && (Spilled(sp, lim) ==> over.Some? && |over.value| == B && sp.wr == lim + B && sp.st <= lim <= sp.hi)
    && AllOf(Written(t, sp, lim), cls, i) && AllOf(Over(sp, lim, over), cls, i) && AllOf(buf, cls, i)
  }

  /** A finished bucket: its range holds its belongings, and nothing else of t changed. */
  ghost predicate Filled<T(!new)>(
      t: seq<T>, u: seq<T>, sp: Span, lim: nat, over: Option<seq<T>>, buf: seq<T>, cls: T -> nat, i: nat)
    requires lim <= |t| && sp.lo <= sp.hi <= |t| == |u|
  {
    && u[..sp.lo] == t[..sp.lo] && u[sp.hi..] == t[sp.hi..]
    && multiset(u[sp.lo..sp.hi]) == Belongings(t, sp, lim, over, buf)
    && AllOf(u[sp.lo..sp.hi], cls, i)
  }

  lemma BelongingsPure<T(!new)>(
      t: seq<T>, u: seq<T>, sp: Span, B: nat, lim: nat, over: Option<seq<T>>, buf: seq<T>, cls: T -> nat, i: nat)
    requires Placed(t, sp, B, lim, over, buf, cls, i) && sp.hi <= |u|
    requires multiset(u[sp.lo..sp.hi]) == Belongings(t, sp, lim, over, buf)
    ensures AllOf(u[sp.lo..sp.hi], cls, i)
  {
    forall x | x in u[sp.lo..sp.hi] ensures cls(x) == i {
      assert x in multiset(u[sp.lo..sp.hi]);
      assert x in Written(t, sp, lim) || x in Over(sp, lim, over) || x in buf;
    }
  }

  // ---------------------------------------------------------------- the three cases

  /** Head and tail of [lo, hi) written, the middle kept. */
  lemma HeadAndTail<T>(t: seq<T>, lo: nat, x: seq<T>, at: nat, y: seq<T>, hi: nat)
    requires lo + |x| <= at && at + |y| == hi <= |t|
    ensures var u := Put(Put(t, lo, x), at, y);
      && u[..lo] == t[..lo] && u[hi..] == t[hi..]
      && u[lo..hi] == x + t[lo + |x|..at] + y
      && multiset(u[lo..hi]) == multiset(x) + multiset(t[lo + |x|..at]) + multiset(y)
  {
    var u := Put(Put(t, lo, x), at, y);
    assert u[lo..hi] == x + t[lo + |x|..at] + y;
  }

  lemma Adjacent<T>(t: seq<T>, at: nat, x: seq<T>, y: seq<T>)
    requires at + |x| + |y| <= |t|
    ensures Put(Put(t, at, x), at + |x|, y) == Put(t, at, x + y)
  {
  }

  lemma HeadOnly<T>(t: seq<T>, lo: nat, x: seq<T>, hi: nat)
    requires lo + |x| <= hi <= |t|
    ensures var u := Put(t, lo, x);
      && u[..lo] == t[..lo] && u[hi..] == t[hi..]
      && u[lo..hi] == x + t[lo + |x|..hi]
      && multiset(u[lo..hi]) == multiset(x) + multiset(t[lo + |x|..hi])
  {
    var u := Put(t, lo, x);
    assert u[lo..hi] == x + t[lo + |x|..hi];
  }

  lemma SpilledShape<T(!new)>(
      t: seq<T>, sp: Span, B: nat, lim: nat, over: Option<seq<T>>, buf: seq<T>, cls: T -> nat, i: nat)
    requires Placed(t, sp, B, lim, over, buf, cls, i) && Spilled(sp, lim)
    ensures sp.lo <= sp.st <= lim && |buf| + lim + B == sp.hi + (sp.st - sp.lo) && |over.value| == B
      && sp.st - sp.lo < B
    ensures Belongings(t, sp, lim, over, buf) == multiset(t[sp.st..lim]) + multiset(over.value) + multiset(buf)
  {
    assert Written(t, sp, lim) == t[sp.st..lim];
  }

  /** The overflow block fills the head and continues behind the last whole block. */
  lemma FillSpilled<T(!new)>(
      t: seq<T>, u: seq<T>, sp: Span, B: nat, lim: nat, over: Option<seq<T>>, buf: seq<T>, cls: T -> nat, i: nat)
    requires Placed(t, sp, B, lim, over, buf, cls, i) && Spilled(sp, lim)
    requires var head := sp.st - sp.lo;
      u == Put(Put(Put(t, sp.lo, over.value[..head]), lim, over.value[head..]), lim + B - head, buf)
    ensures Filled(t, u, sp, lim, over, buf, cls, i)
  {
    SpilledShape(t, sp, B, lim, over, buf, cls, i);
    hide Put, AllOf, Placed, Spilled, Belongings, Filled;
    var head, o := sp.st - sp.lo, over.value;
    assert o == o[..head] + o[head..];
    FillInTwo(t, u, sp, B, lim, over, buf, cls, i, o[..head], o[head..]);
  }

  /** The two parts of the overflow block as x and y. */
  lemma FillInTwo<T(!new)>(
      t: seq<T>, u: seq<T>, sp: Span, B: nat, lim: nat, over: Option<seq<T>>, buf: seq<T>, cls: T -> nat, i: nat,
      x: seq<T>, y: seq<T>)
    requires Placed(t, sp, B, lim, over, buf, cls, i) && Spilled(sp, lim)
    requires over == Some(x + y) && sp.lo + |x| == sp.st <= lim && lim + |y| + |buf| == sp.hi <= |t|
    requires u == Put(Put(Put(t, sp.lo, x), lim, y), lim + |y|, buf)
    ensures |u| == |t| && Filled(t, u, sp, lim, over, buf, cls, i)
  {
    SpilledShape(t, sp, B, lim, over, buf, cls, i);
    hide Put, AllOf, Placed, Spilled, Belongings, Filled;
    HeadTailAndBuffer(t, sp.lo, x, lim, y, buf, sp.hi);
    Regroup(multiset(x), multiset(t[sp.st..lim]), multiset(y), multiset(buf));
    FilledWith(t, u, sp, B, lim, over, buf, cls, i);
  }

  lemma HeadTailAndBuffer<T>(t: seq<T>, lo: nat, x: seq<T>, at: nat, y: seq<T>, buf: seq<T>, hi: nat)
    requires lo + |x| <= at && at + |y| + |buf| == hi <= |t|
    ensures var u := Put(Put(Put(t, lo, x), at, y), at + |y|, buf);
      && u[..lo] == t[..lo] && u[hi..] == t[hi..]
      && multiset(u[lo..hi]) == multiset(x) + multiset(t[lo + |x|..at]) + multiset(y + buf)
  {
    Adjacent(Put(t, lo, x), at, y, buf);
    HeadAndTail(t, lo, x, at, y + buf, hi);
  }

  lemma FilledWith<T(!new)>(
      t: seq<T>, u: seq<T>, sp: Span, B: nat, lim: nat, over: Option<seq<T>>, buf: seq<T>, cls: T -> nat, i: nat)
    requires Placed(t, sp, B, lim, over, buf, cls, i) && lim <= |t| && sp.lo <= sp.hi <= |t| == |u|
    requires u[..sp.lo] == t[..sp.lo] && u[sp.hi..] == t[sp.hi..]
    requires multiset(u[sp.lo..sp.hi]) == Belongings(t, sp, lim, over, buf)
    ensures Filled(t, u, sp, lim, over, buf, cls, i)
  {
    BelongingsPure(t, u, sp, B, lim, over, buf, cls, i);
  }

  lemma Regroup<T>(x: multiset<T>, m: multiset<T>, y: multiset<T>, b: multiset<T>)
    ensures x + m + (y + b) == m + (x + y) + b
  {
  }

  lemma ExcessShape<T(!new)>(
      t: seq<T>, sp: Span, B: nat, lim: nat, over: Option<seq<T>>, buf: seq<T>, cls: T -> nat, i: nat)
    requires Placed(t, sp, B, lim, over, buf, cls, i) && !Spilled(sp, lim)
    requires sp.wr > sp.hi && sp.hi - sp.lo > B
    ensures sp.lo < sp.st <= sp.hi < sp.wr <= lim <= |t| && sp.wr - sp.hi + |buf| == sp.st - sp.lo
    ensures Belongings(t, sp, lim, over, buf)
         == multiset(t[sp.st..sp.hi]) + multiset(t[sp.hi..sp.wr]) + multiset(buf)
  {
    SplitAt(t, sp.st, sp.hi, sp.wr);
  }

  /** The last written block extends beyond the bucket; the excess goes to the head. */
  lemma FillExcess<T(!new)>(
      t: seq<T>, u: seq<T>, sp: Span, B: nat, lim: nat, over: Option<seq<T>>, buf: seq<T>, cls: T -> nat, i: nat)
    requires Placed(t, sp, B, lim, over, buf, cls, i) && !Spilled(sp, lim)
    requires sp.wr > sp.hi && sp.hi - sp.lo > B
    requires sp.lo < sp.st <= sp.hi < sp.wr <= lim <= |t| && sp.wr - sp.hi + |buf| == sp.st - sp.lo
    requires u == Put(Put(t, sp.lo, t[sp.hi..sp.wr]), sp.lo + (sp.wr - sp.hi), buf)
    ensures Filled(t, u, sp, lim, over, buf, cls, i)
  {
    ExcessShape(t, sp, B, lim, over, buf, cls, i);
    hide Put, AllOf, Placed, Spilled, Belongings;
    TwoInHead(t, sp.lo, t[sp.hi..sp.wr], buf, sp.st, sp.hi, u);
    RegroupHead(multiset(t[sp.hi..sp.wr]), multiset(t[sp.st..sp.hi]), multiset(buf));
    BelongingsPure(t, u, sp, B, lim, over, buf, cls, i);
  }

  /** The head [lo, st) written with x and then y, the rest kept. */
  lemma TwoInHead<T>(t: seq<T>, lo: nat, x: seq<T>, y: seq<T>, st: nat, hi: nat, u: seq<T>)
    requires lo + |x| + |y| == st <= hi <= |t| && u == Put(Put(t, lo, x), lo + |x|, y)
    ensures |u| == |t| && u[..lo] == t[..lo] && u[hi..] == t[hi..]
    ensures multiset(u[lo..hi]) == (multiset(x) + multiset(y)) + multiset(t[st..hi])
  {
    hide Put;
    Adjacent(t, lo, x, y);
    HeadOnly(t, lo, x + y, hi);
  }

  lemma RegroupHead<T>(x: multiset<T>, m: multiset<T>, b: multiset<T>)
    ensures (x + b) + m == m + x + b
  {
  }

  lemma PlainShape<T(!new)>(
      t: seq<T>, sp: Span, B: nat, lim: nat, over: Option<seq<T>>, buf: seq<T>, cls: T -> nat, i: nat)
    requires Placed(t, sp, B, lim, over, buf, cls, i) && !Spilled(sp, lim)
    requires sp.wr <= sp.hi || sp.hi - sp.lo <= B
    ensures sp.lo <= sp.st && sp.hi <= |t|
    ensures if |buf| <= sp.st - sp.lo then
        sp.lo + |buf| <= sp.hi
        && Belongings(t, sp, lim, over, buf) == multiset(t[sp.lo + |buf|..sp.hi]) + multiset(buf)
      else
        sp.st <= sp.wr <= sp.hi && |buf| - (sp.st - sp.lo) == sp.hi - sp.wr
        && Belongings(t, sp, lim, over, buf) == multiset(t[sp.st..sp.wr]) + multiset(buf)
  {
    assert Over(sp, lim, over) == [];
    if |buf| <= sp.st - sp.lo {
      assert Written(t, sp, lim) == t[sp.lo + |buf|..sp.hi];
    } else {
      assert Written(t, sp, lim) == t[sp.st..sp.wr];
    }
  }

  /** Only the buffer is left to be written, and it fits into the head. */
  lemma FillHead<T(!new)>(
      t: seq<T>, u: seq<T>, sp: Span, B: nat, lim: nat, over: Option<seq<T>>, buf: seq<T>, cls: T -> nat, i: nat)
    requires Placed(t, sp, B, lim, over, buf, cls, i) && !Spilled(sp, lim)
    requires sp.wr <= sp.hi || sp.hi - sp.lo <= B
    requires |buf| <= sp.st - sp.lo && sp.lo + |buf| <= sp.hi && u == Put(t, sp.lo, buf)
    ensures Filled(t, u, sp, lim, over, buf, cls, i)
  {
    PlainShape(t, sp, B, lim, over, buf, cls, i);
    hide Put, AllOf, Placed, Spilled, Belongings;
    HeadOnly(t, sp.lo, buf, sp.hi);
    BelongingsPure(t, u, sp, B, lim, over, buf, cls, i);
  }

  /** Only the buffer is left to be written: to the head, and behind the last block. */
  lemma FillTail<T(!new)>(
      t: seq<T>, u: seq<T>, sp: Span, B: nat, lim: nat, over: Option<seq<T>>, x: seq<T>, y: seq<T>, cls: T -> nat,
      i: nat)
    requires Placed(t, sp, B, lim, over, x + y, cls, i) && !Spilled(sp, lim)
    requires sp.wr <= sp.hi || sp.hi - sp.lo <= B
    requires |x| == sp.st - sp.lo && |y| > 0 && sp.st <= sp.wr && sp.wr + |y| == sp.hi <= |t|
    requires u == Put(Put(t, sp.lo, x), sp.wr, y)
    ensures Filled(t, u, sp, lim, over, x + y, cls, i)
  {
    PlainShape(t, sp, B, lim, over, x + y, cls, i);
    hide Put, AllOf, Placed, Spilled, Belongings;
    HeadAndTail(t, sp.lo, x, sp.wr, y, sp.hi);
    RegroupTail(multiset(x), multiset(t[sp.st..sp.wr]), multiset(y));
    BelongingsPure(t, u, sp, B, lim, over, x + y, cls, i);
  }

  lemma FillHeadAndTail<T(!new)>(
      t: seq<T>, u: seq<T>, sp: Span, B: nat, lim: nat, over: Option<seq<T>>, buf: seq<T>, cls: T -> nat, i: nat)
    requires Placed(t, sp, B, lim, over, buf, cls, i) && !Spilled(sp, lim) && !Exceeds(sp, B)
    requires 0 <= sp.st - sp.lo < |buf| && sp.st <= sp.wr && sp.wr + |buf| - (sp.st - sp.lo) == sp.hi <= |t|
    requires u == Put(Put(t, sp.lo, buf[..sp.st - sp.lo]), sp.wr, buf[sp.st - sp.lo..])
    ensures Filled(t, u, sp, lim, over, buf, cls, i)
  {
    var head := sp.st - sp.lo;
    assert buf == buf[..head] + buf[head..];
    hide Placed, Spilled, Put, Filled;
    FillTail(t, u, sp, B, lim, over, buf[..head], buf[head..], cls, i);
  }

  lemma RegroupTail<T>(x: multiset<T>, m: multiset<T>, y: multiset<T>)
    ensures x + m + y == m + (x + y)
  {
  }

  // ---------------------------------------------------------------- one bucket

  /** The buffer written to t: `remaining` of its elements at dst, the others at the write pointer. */
  ghost function BufferWritten<T>(t: seq<T>, dst: nat, remaining: nat, write: nat, buf: seq<T>): seq<T>
    requires BufferFits(|t|, dst, remaining, write, |buf|)
  {
    if |buf| <= remaining then Put(t, dst, buf) else Put(Put(t, dst, buf[..remaining]), write, buf[remaining..])
  }

  ghost predicate BufferFits(n: nat, dst: nat, remaining: nat, write: nat, len: nat) {
    if len <= remaining then dst + len <= n else dst + remaining <= n && write + len - remaining <= n
  }

  method WriteBuffer<T>(a: array<T>, dst: nat, remaining: nat, write: nat, buf: seq<T>)
    requires BufferFits(a.Length, dst, remaining, write, |buf|)
    modifies a
    ensures a[..] == BufferWritten(old(a[..]), dst, remaining, write, buf)
  {
    if |buf| <= remaining {
      CopyIn(a, dst, buf);
    } else {
      CopyIn(a, dst, buf[..remaining]);
      CopyIn(a, write, buf[remaining..]);
    }
  }

  /** The last written block reaches into the head of the next bucket. */
  predicate Exceeds(sp: Span, B: nat) {
    sp.wr > sp.hi && sp.hi - sp.lo > B
  }

  /** What does not come from the buffer written to t, and where the buffer goes after that. */
  ghost predicate HeadWritten<T>(
      t: seq<T>, u: seq<T>, B: nat, sp: Span, isOverflow: bool, over: Option<seq<T>>, dst: nat, remaining: nat)
    requires HeadFits(|t|, B, sp, isOverflow, over)
  {
    var head := sp.st - sp.lo;
    if isOverflow then
      && dst == sp.wr - head && remaining == |t|
      && u == Put(Put(t, sp.lo, over.value[..head]), sp.wr - B, over.value[head..])
    else if Exceeds(sp, B) then
      && dst == sp.lo + (sp.wr - sp.hi) && remaining == head - (sp.wr - sp.hi)
      && u == Put(t, sp.lo, t[sp.hi..sp.wr])
    else dst == sp.lo && remaining == head && u == t
  }

  ghost predicate HeadFits<T>(n: nat, B: nat, sp: Span, isOverflow: bool, over: Option<seq<T>>) {
    && sp.lo <= sp.st <= sp.lo + B && sp.lo <= sp.hi <= n
    && (isOverflow ==> over.Some? && |over.value| == B && sp.st + B <= sp.wr <= n + (sp.st - sp.lo) && sp.wr <= n + B)
    && (!isOverflow && Exceeds(sp, B) ==> sp.wr <= n && sp.lo + (sp.wr - sp.hi) <= sp.st <= sp.hi)
  }

  /**
   * Writes what does not come from the bucket's buffer: the overflow block, or the excess of the last
   * block. The result is where the buffer goes, and how much of it may go there.
   */
  method WriteHead<T>(a: array<T>, B: nat, sp: Span, isOverflow: bool, over: Option<seq<T>>)
      returns (dst: nat, remaining: nat)
    requires HeadFits(a.Length, B, sp, isOverflow, over)
    modifies a
    ensures HeadWritten(old(a[..]), a[..], B, sp, isOverflow, over, dst, remaining)
  {
    hide Put;
    dst, remaining := sp.lo, sp.st - sp.lo;
    if isOverflow {
      CopyIn(a, dst, over.value[..remaining]);
      dst := sp.wr - B;
      CopyIn(a, dst, over.value[remaining..]);
      dst := dst + (B - remaining);
      remaining := a.Length;   // no limit any more
    } else if Exceeds(sp, B) {
      var headSize := sp.wr - sp.hi;
      MoveDown(a, sp.hi, headSize, dst);
      dst, remaining := dst + headSize, remaining - headSize;
    }
  }

  /** Nothing is ever written outside the array, in no case. */
  lemma InBounds<T(!new)>(
      t: seq<T>, u: seq<T>, sp: Span, B: nat, lim: nat, over: Option<seq<T>>, buf: seq<T>, cls: T -> nat, i: nat)
    requires Placed(t, sp, B, lim, over, buf, cls, i)
    ensures lim <= |t| && HeadFits(|t|, B, sp, Spilled(sp, lim), over)
    ensures forall dst, remaining :: HeadWritten(t, u, B, sp, Spilled(sp, lim), over, dst, remaining) ==>
      BufferFits(|t|, dst, remaining, sp.wr, |buf|)
  {
  }

  /** Whatever case applies, the bucket ends up filled. */
  lemma FillCases<T(!new)>(
      t: seq<T>, m: seq<T>, sp: Span, B: nat, lim: nat, over: Option<seq<T>>, buf: seq<T>,
      cls: T -> nat, i: nat, dst: nat, remaining: nat)
    requires Placed(t, sp, B, lim, over, buf, cls, i) && lim <= |t| && |m| == |t|
    requires HeadFits(|t|, B, sp, Spilled(sp, lim), over) && BufferFits(|t|, dst, remaining, sp.wr, |buf|)
    requires HeadWritten(t, m, B, sp, Spilled(sp, lim), over, dst, remaining)
    ensures Filled(t, BufferWritten(m, dst, remaining, sp.wr, buf), sp, lim, over, buf, cls, i)
  {
    var u := BufferWritten(m, dst, remaining, sp.wr, buf);
    if Spilled(sp, lim) {
      SpilledShape(t, sp, B, lim, over, buf, cls, i);
      hide Placed, Filled, Put;
      FillSpilled(t, u, sp, B, lim, over, buf, cls, i);
    } else if Exceeds(sp, B) {
      ExcessShape(t, sp, B, lim, over, buf, cls, i);
      hide Placed, Filled, Put;
      FillExcess(t, u, sp, B, lim, over, buf, cls, i);
    } else {
      PlainShape(t, sp, B, lim, over, buf, cls, i);
      hide Placed, Filled, Put;
      if |buf| <= remaining {
        FillHead(t, u, sp, B, lim, over, buf, cls, i);
      } else {
        FillHeadAndTail(t, u, sp, B, lim, over, buf, cls, i);
      }
    }
  }

  /** Writes the head and the tail of one bucket. */
  method FillBucket<T(!new)>(
      a: array<T>, B: nat, sp: Span, isOverflow: bool, over: Option<seq<T>>, buf: seq<T>,
      ghost lim: nat, ghost cls: T -> nat, ghost i: nat)
    requires Placed(a[..], sp, B, lim, over, buf, cls, i)
    requires isOverflow <==> Spilled(sp, lim)
    requires lim <= a.Length && sp.lo <= sp.hi <= a.Length
    modifies a
    ensures Filled(old(a[..]), a[..], sp, lim, over, buf, cls, i)
  {
    ghost var t := a[..];
    hide *;
    InBounds(t, t, sp, B, lim, over, buf, cls, i);
    var dst, remaining := WriteHead(a, B, sp, isOverflow, over);
    ghost var m := a[..];
    InBounds(t, m, sp, B, lim, over, buf, cls, i);
    WriteBuffer(a, dst, remaining, sp.wr, buf);
    FillCases(t, m, sp, B, lim, over, buf, cls, i, dst, remaining);
  }

  // ---------------------------------------------------------------- all buckets

  /** A partitioning of n elements from begin on: bucket boundaries and, in blocks, write pointers. */
  datatype Plan = Plan(begin: nat, n: nat, B: nat, bs: seq<nat>, w: seq<nat>) {

    ghost predicate Ok() {
      B > 0 && |bs| == |w| + 1 > 1 && Boundaries(bs, n)
    }

    function Bucket(i: nat): Span
      requires B > 0 && i < |w| < |bs|
    {
      Span(begin + bs[i], begin + Blocks(bs[i], B) * B, begin + w[i] * B, begin + bs[i + 1])
    }

    /** End of the last whole block. */
    function Lim(): nat
      requires B > 0
    {
      begin + (n / B) * B
    }
  }

  /**
   * The cases declared unreachable: the overflow block was written but the write pointer is not at the
   * end of the bucket, or there is no space for it; a final block extends beyond the bucket but the
   * write pointer is not at its end, or the head has no space for the excess.
   */
  lemma UnreachableCases(lo: nat, hi: nat, w: nat, buf: nat, B: nat, whole: nat)
    requires B > 0 && lo <= hi < whole * B + B
    requires Blocks(lo, B) <= w <= Blocks(hi, B)
    requires (w - Blocks(lo, B)) * B + buf == hi - lo && (lo < hi ==> buf > 0)
    ensures w > Blocks(lo, B) && w > whole ==>
      Blocks(hi, B) == w && (hi - (w * B - B)) + (Blocks(lo, B) * B - lo) >= B
    ensures w > Blocks(lo, B) && w <= whole && w * B > hi && hi - lo > B ==>
      Blocks(hi, B) == w && w * B - hi <= Blocks(lo, B) * B - lo
  {
    var st := Blocks(lo, B);
    assert (w - st) * B == w * B - st * B;
    if w > st {
      MulLess(st, w, B);
      if w > whole { MulMono(whole + 1, w, B); assert (whole + 1) * B == whole * B + B; }
      if w * B > hi { BlocksUnique(hi, w, B); }
    }
  }

  ghost predicate BucketReady<T(!new)>(
      t: seq<T>, pl: Plan, over: Option<seq<T>>, buf: seq<T>, cls: T -> nat, i: nat)
    requires pl.Ok() && i < |pl.w|
  {
    && Blocks(pl.bs[i], pl.B) <= pl.w[i] <= Blocks(pl.bs[i + 1], pl.B)
    && Placed(t, pl.Bucket(i), pl.B, pl.Lim(), over, buf, cls, i)
  }

  /** What the permutation phase leaves. */
  ghost predicate Prepared<T(!new)>(t: seq<T>, pl: Plan, over: Option<seq<T>>, bufs: seq<seq<T>>, cls: T -> nat) {
    && pl.Ok() && pl.begin + pl.n <= |t| && |bufs| == |pl.w|
    && forall i :: 0 <= i < |pl.w| ==> BucketReady(t, pl, over, bufs[i], cls, i)
  }

  /** In the terms of the cleanup loop: none of the conditions declared unreachable holds for a bucket that is ready. */
  lemma UnreachableFor<T(!new)>(t: seq<T>, pl: Plan, over: Option<seq<T>>, buf: seq<T>, cls: T -> nat, i: nat)
    requires pl.Ok() && i < |pl.w| && BucketReady(t, pl, over, buf, cls, i)
    ensures AssumptionsHold(pl, i)
  {
    BoundaryMono(pl.bs, pl.n, i, i + 1);
    BoundaryMono(pl.bs, pl.n, i + 1, |pl.bs| - 1);
    WholeBlocks(pl.n, pl.B);
    ReadySize(t, pl, over, buf, cls, i);
    hide Placed, BucketReady, Boundaries;
    UnreachableCases(pl.bs[i], pl.bs[i + 1], pl.w[i], |buf|, pl.B, pl.n / pl.B);
    WritePointerOrder(pl, i);
  }

  lemma ReadySize<T(!new)>(t: seq<T>, pl: Plan, over: Option<seq<T>>, buf: seq<T>, cls: T -> nat, i: nat)
    requires pl.Ok() && i < |pl.w| && BucketReady(t, pl, over, buf, cls, i)
    ensures Blocks(pl.bs[i], pl.B) <= pl.w[i] <= Blocks(pl.bs[i + 1], pl.B)
    ensures (pl.w[i] - Blocks(pl.bs[i], pl.B)) * pl.B + |buf| == pl.bs[i + 1] - pl.bs[i]
    ensures pl.bs[i] < pl.bs[i + 1] ==> |buf| > 0
  {
    PlacedSize(t, pl.Bucket(i), pl.B, pl.Lim(), over, buf, cls, i);
    hide Placed;
    BlockDistance(pl.w[i], Blocks(pl.bs[i], pl.B), pl.B);
  }

  lemma PlacedSize<T(!new)>(
      t: seq<T>, sp: Span, B: nat, lim: nat, over: Option<seq<T>>, buf: seq<T>, cls: T -> nat, i: nat)
    requires Placed(t, sp, B, lim, over, buf, cls, i)
    ensures sp.wr + |buf| == sp.st + (sp.hi - sp.lo) && (sp.lo < sp.hi ==> |buf| > 0)
  {
  }

  lemma BlockDistance(w: int, st: int, B: nat)
    ensures (w - st) * B == w * B - st * B
  {
  }

  /** Comparing positions of blocks is comparing their numbers. */
  lemma WritePointerOrder(pl: Plan, i: nat)
    requires pl.Ok() && i < |pl.w|
    ensures var sp := pl.Bucket(i);
      && (sp.wr > sp.st <==> pl.w[i] > Blocks(pl.bs[i], pl.B))
      && (sp.wr > pl.Lim() <==> pl.w[i] > pl.n / pl.B)
  {
    var w, st, whole, B := pl.w[i], Blocks(pl.bs[i], pl.B), pl.n / pl.B, pl.B;
    if w > st { MulLess(st, w, B); } else { MulMono(w, st, B); }
    if w > whole { MulLess(whole, w, B); } else { MulMono(w, whole, B); }
  }

  ghost predicate AssumptionsHold(pl: Plan, i: nat)
    requires pl.Ok() && i < |pl.w|
  {
    var sp, end := pl.Bucket(i), pl.begin + Blocks(pl.bs[i + 1], pl.B) * pl.B;
    && (Spilled(sp, pl.Lim()) ==> end == sp.wr && (sp.hi - (sp.wr - pl.B)) + (sp.st - sp.lo) >= pl.B)
    && (Exceeds(sp, pl.B) && !Spilled(sp, pl.Lim()) ==> end == sp.wr && sp.wr - sp.hi <= sp.st - sp.lo)
  }

  /** So no thread ever meets one of them: all buckets are ready when the cleanup begins. */
  lemma NothingUnreachable<T(!new)>(t: seq<T>, pl: Plan, over: Option<seq<T>>, bufs: seq<seq<T>>, cls: T -> nat)
    requires Prepared(t, pl, over, bufs, cls)
    ensures forall i :: 0 <= i < |pl.w| ==> AssumptionsHold(pl, i)
  {
    forall i | 0 <= i < |pl.w| ensures AssumptionsHold(pl, i) { UnreachableFor(t, pl, over, bufs[i], cls, i); }
  }

  /** Bucket i of u holds what belonged to it in t, sorted if it was small enough. */
  ghost predicate BucketDone<T(!new)>(
      t: seq<T>, u: seq<T>, pl: Plan, over: Option<seq<T>>, buf: seq<T>, cls: T -> nat, i: nat,
      small: bool, less: (T, T) -> bool)
    requires pl.Ok() && i < |pl.w|
  {
    var sp := pl.Bucket(i);
    && sp.lo <= sp.hi <= |u| && pl.Lim() <= |t|
    && multiset(u[sp.lo..sp.hi]) == Belongings(t, sp, pl.Lim(), over, buf)
    && AllOf(u[sp.lo..sp.hi], cls, i)
    && (small ==> Sorted(u[sp.lo..sp.hi], less))
  }

  /** Buckets are filled in increasing order, so what a bucket needs is still there. */
  lemma Untouched<T(!new)>(t: seq<T>, u: seq<T>, pl: Plan, over: Option<seq<T>>, buf: seq<T>, cls: T -> nat, i: nat)
    requires pl.Ok() && i < |pl.w| && BucketReady(t, pl, over, buf, cls, i) && |u| == |t|
    requires var lo := pl.Bucket(i).lo; lo <= |t| && u[lo..] == t[lo..]
    ensures BucketReady(u, pl, over, buf, cls, i)
    ensures pl.Lim() <= |t| && Belongings(u, pl.Bucket(i), pl.Lim(), over, buf)
      == Belongings(t, pl.Bucket(i), pl.Lim(), over, buf)
  {
    var sp, lim := pl.Bucket(i), pl.Lim();
    forall k | sp.st <= k < |t| ensures u[k] == t[k] {
      assert u[k] == u[sp.lo..][k - sp.lo] == t[sp.lo..][k - sp.lo];
    }
    assert Written(u, sp, lim) == Written(t, sp, lim);
  }

  /** One turn of the cleanup loop. */
  method WriteBucket<T(!new)>(
      a: array<T>, pl: Plan, i: nat, small: bool, isOverflow: bool, over: Option<seq<T>>, buf: seq<T>,
      less: (T, T) -> bool, ghost cls: T -> nat)
    requires StrictWeakOrder(less) && pl.Ok() && i < |pl.w| && BucketReady(a[..], pl, over, buf, cls, i)
    requires isOverflow <==> Spilled(pl.Bucket(i), pl.Lim())
    modifies a
    ensures pl.Bucket(i).lo <= pl.Bucket(i).hi <= a.Length
    ensures a[..pl.Bucket(i).lo] == old(a[..pl.Bucket(i).lo]) && a[pl.Bucket(i).hi..] == old(a[pl.Bucket(i).hi..])
    ensures BucketDone(old(a[..]), a[..], pl, over, buf, cls, i, small, less)
  {
    var sp := pl.Bucket(i);
    ghost var t, lim := a[..], pl.Lim();
    assert sp.lo <= sp.hi <= a.Length && lim <= a.Length;
    hide Placed, Belongings, AllOf;
    FillBucket(a, pl.B, sp, isOverflow, over, buf, lim, cls, i);
    ghost var u := a[..];
    if small {
      BaseCaseSort(a, sp.lo, sp.hi, less);
    }
    SamePure(u[sp.lo..sp.hi], a[sp.lo..sp.hi], cls, i);
  }

  // ---------------------------------------------------------------- which bucket overflows

  ghost predicate IsOverflowBucket(bs: seq<nat>, B: nat, i: int) {
    && -1 <= i < |bs| - 1
    && (i >= 0 ==> bs[i + 1] - bs[i] > B)
    && forall j :: i < j < |bs| - 1 ==> bs[j + 1] - bs[j] <= B
  }

  /** The last bucket with more than one full block, or -1. */
  method ComputeOverflowBucket(bs: seq<nat>, numBuckets: nat, B: nat) returns (bucket: int)
    requires |bs| == numBuckets + 1
    ensures IsOverflowBucket(bs, B, bucket)
  {
    bucket := numBuckets - 1;
    while bucket >= 0 && bs[bucket + 1] - bs[bucket] <= B
      invariant -1 <= bucket < numBuckets
      invariant forall j :: bucket < j < numBuckets ==> bs[j + 1] - bs[j] <= B
    {
      bucket := bucket - 1;
    }
  }

  /** If a bucket overflowed, it is the one that was computed. */
  lemma OverflowIsComputed<T(!new)>(
      t: seq<T>, pl: Plan, over: Option<seq<T>>, bufs: seq<seq<T>>, cls: T -> nat, i: nat, computed: int)
    requires Prepared(t, pl, over, bufs, cls) && i < |pl.w| && Spilled(pl.Bucket(i), pl.Lim())
    requires IsOverflowBucket(pl.bs, pl.B, computed)
    ensures computed == i
  {
    assert BucketReady(t, pl, over, bufs[i], cls, i) && pl.Ok();
    hide Placed, Prepared;
    SpilledSize(t, pl.Bucket(i), pl.B, pl.Lim(), over, bufs[i], cls, i);
    WholeBlocks(pl.n, pl.B);
    if computed > i {
      BoundaryMono(pl.bs, pl.n, i + 1, computed);
      BoundaryMono(pl.bs, pl.n, computed, computed + 1);
    }
  }

  lemma SpilledSize<T(!new)>(
      t: seq<T>, sp: Span, B: nat, lim: nat, over: Option<seq<T>>, buf: seq<T>, cls: T -> nat, i: nat)
    requires Placed(t, sp, B, lim, over, buf, cls, i) && Spilled(sp, lim)
    ensures sp.hi - sp.lo > B && lim <= sp.hi
  {
  }

  // ---------------------------------------------------------------- the loop

  /** Buckets up to j are done, the others and everything outside are as they were. */
  ghost predicate FilledUpTo<T(!new)>(
      t: seq<T>, u: seq<T>, pl: Plan, over: Option<seq<T>>, bufs: seq<seq<T>>, cls: T -> nat, j: nat,
      base: nat, lastLevel: bool, less: (T, T) -> bool)
    requires pl.Ok() && j <= |pl.w| == |bufs|
  {
    && |u| == |t| && pl.begin + pl.bs[j] <= |t|
    && u[..pl.begin] == t[..pl.begin] && u[pl.begin + pl.bs[j]..] == t[pl.begin + pl.bs[j]..]
    && forall i :: 0 <= i < j ==> BucketDone(t, u, pl, over, bufs[i], cls, i, Small(pl, i, base, lastLevel), less)
  }

  /** Whether a bucket is sorted right after it was filled. */
  predicate Small(pl: Plan, i: nat, base: nat, lastLevel: bool)
    requires i + 1 < |pl.bs|
  {
    lastLevel || pl.bs[i + 1] - pl.bs[i] <= 2 * base
  }

  lemma DoneMoved<T(!new)>(
      t: seq<T>, u: seq<T>, v: seq<T>, pl: Plan, over: Option<seq<T>>, buf: seq<T>, cls: T -> nat, j: nat,
      small: bool, less: (T, T) -> bool)
    requires pl.Ok() && j < |pl.w| && BucketReady(t, pl, over, buf, cls, j) && |u| == |t|
    requires pl.Bucket(j).lo <= |t| && u[pl.Bucket(j).lo..] == t[pl.Bucket(j).lo..]
    requires BucketDone(u, v, pl, over, buf, cls, j, small, less)
    ensures BucketDone(t, v, pl, over, buf, cls, j, small, less)
  {
    Untouched(t, u, pl, over, buf, cls, j);
    hide Belongings, AllOf, Sorted;
  }

  lemma DoneKept<T(!new)>(
      t: seq<T>, u: seq<T>, v: seq<T>, pl: Plan, over: Option<seq<T>>, buf: seq<T>, cls: T -> nat, i: nat, j: nat,
      small: bool, less: (T, T) -> bool)
    requires pl.Ok() && i < j < |pl.w| && BucketDone(t, u, pl, over, buf, cls, i, small, less)
    requires pl.Bucket(j).lo <= |u| == |v| && v[..pl.Bucket(j).lo] == u[..pl.Bucket(j).lo]
    ensures BucketDone(t, v, pl, over, buf, cls, i, small, less)
  {
    BoundaryMono(pl.bs, pl.n, i + 1, j);
    var sp := pl.Bucket(i);
    assert sp.lo <= sp.hi <= pl.Bucket(j).lo;
    SliceKept(u, v, sp.lo, sp.hi, pl.Bucket(j).lo);
    hide Belongings, AllOf, Sorted;
  }

  lemma NextFilled<T(!new)>(
      t: seq<T>, u: seq<T>, v: seq<T>, pl: Plan, over: Option<seq<T>>, bufs: seq<seq<T>>, cls: T -> nat, j: nat,
      base: nat, lastLevel: bool, less: (T, T) -> bool)
    requires Prepared(t, pl, over, bufs, cls) && j < |pl.w|
    requires FilledUpTo(t, u, pl, over, bufs, cls, j, base, lastLevel, less) && |v| == |u|
    requires var sp := pl.Bucket(j); sp.lo <= sp.hi <= |u| && v[..sp.lo] == u[..sp.lo] && v[sp.hi..] == u[sp.hi..]
    requires BucketDone(u, v, pl, over, bufs[j], cls, j, Small(pl, j, base, lastLevel), less)
    ensures FilledUpTo(t, v, pl, over, bufs, cls, j + 1, base, lastLevel, less)
  {
    hide BucketReady, BucketDone, Prepared, Belongings, AllOf, Sorted, FilledUpTo;
    PreparedBucket(t, pl, over, bufs, cls, j);
    FilledFrame(t, u, v, pl, over, bufs, cls, j, base, lastLevel, less);
    DoneMoved(t, u, v, pl, over, bufs[j], cls, j, Small(pl, j, base, lastLevel), less);
    forall i | 0 <= i < j ensures BucketDone(t, v, pl, over, bufs[i], cls, i, Small(pl, i, base, lastLevel), less) {
      FilledBucket(t, u, pl, over, bufs, cls, j, base, lastLevel, less, i);
      DoneKept(t, u, v, pl, over, bufs[i], cls, i, j, Small(pl, i, base, lastLevel), less);
    }
    FilledJoin(t, v, pl, over, bufs, cls, j + 1, base, lastLevel, less);
  }

  lemma PreparedBucket<T(!new)>(t: seq<T>, pl: Plan, over: Option<seq<T>>, bufs: seq<seq<T>>, cls: T -> nat, j: nat)
    requires Prepared(t, pl, over, bufs, cls) && j < |pl.w|
    ensures pl.Ok() && |pl.w| == |bufs| && BucketReady(t, pl, over, bufs[j], cls, j)
    ensures pl.begin + pl.bs[j] == pl.Bucket(j).lo && pl.begin + pl.bs[j + 1] == pl.Bucket(j).hi
  {
  }

  lemma FilledBucket<T(!new)>(
      t: seq<T>, u: seq<T>, pl: Plan, over: Option<seq<T>>, bufs: seq<seq<T>>, cls: T -> nat, j: nat,
      base: nat, lastLevel: bool, less: (T, T) -> bool, i: nat)
    requires pl.Ok() && i < j <= |pl.w| == |bufs| && FilledUpTo(t, u, pl, over, bufs, cls, j, base, lastLevel, less)
    ensures BucketDone(t, u, pl, over, bufs[i], cls, i, Small(pl, i, base, lastLevel), less)
  {
    hide BucketDone;
  }

  lemma FilledFrame<T(!new)>(
      t: seq<T>, u: seq<T>, v: seq<T>, pl: Plan, over: Option<seq<T>>, bufs: seq<seq<T>>, cls: T -> nat, j: nat,
      base: nat, lastLevel: bool, less: (T, T) -> bool)
    requires pl.Ok() && j < |pl.w| == |bufs| && FilledUpTo(t, u, pl, over, bufs, cls, j, base, lastLevel, less)
    requires |v| == |u| && pl.begin + pl.bs[j] <= pl.begin + pl.bs[j + 1] <= |u|
    requires v[..pl.begin + pl.bs[j]] == u[..pl.begin + pl.bs[j]]
      && v[pl.begin + pl.bs[j + 1]..] == u[pl.begin + pl.bs[j + 1]..]
    ensures |u| == |t| && u[pl.begin + pl.bs[j]..] == t[pl.begin + pl.bs[j]..]
    ensures v[..pl.begin] == t[..pl.begin] && v[pl.begin + pl.bs[j + 1]..] == t[pl.begin + pl.bs[j + 1]..]
  {
    hide BucketDone;
    var lo, hi := pl.begin + pl.bs[j], pl.begin + pl.bs[j + 1];
    TailKept(t, u, v, lo, hi);
    assert v[..pl.begin] == v[..lo][..pl.begin] == u[..lo][..pl.begin] == u[..pl.begin];
  }

  lemma FilledJoin<T(!new)>(
      t: seq<T>, u: seq<T>, pl: Plan, over: Option<seq<T>>, bufs: seq<seq<T>>, cls: T -> nat, j: nat,
      base: nat, lastLevel: bool, less: (T, T) -> bool)
    requires pl.Ok() && j <= |pl.w| == |bufs|
    requires |u| == |t| && pl.begin + pl.bs[j] <= |t|
    requires u[..pl.begin] == t[..pl.begin] && u[pl.begin + pl.bs[j]..] == t[pl.begin + pl.bs[j]..]
    requires forall i :: 0 <= i < j ==> BucketDone(t, u, pl, over, bufs[i], cls, i, Small(pl, i, base, lastLevel), less)
    ensures FilledUpTo(t, u, pl, over, bufs, cls, j, base, lastLevel, less)
  {
    hide BucketDone;
  }

  lemma TailKept<T>(t: seq<T>, u: seq<T>, v: seq<T>, lo: nat, hi: nat)
    requires lo <= hi <= |t| == |u| == |v| && u[lo..] == t[lo..] && v[hi..] == u[hi..]
    ensures v[hi..] == t[hi..]
  {
    assert u[hi..] == u[lo..][hi - lo..] && t[hi..] == t[lo..][hi - lo..];
  }

  /** The whole cleanup phase. */
  method WriteMargins<T(!new)>(
      a: array<T>, pl: Plan, base: nat, lastLevel: bool, overflowBucket: int, over: Option<seq<T>>,
      buffers: Buffers<T>, less: (T, T) -> bool, ghost cls: T -> nat)
    requires StrictWeakOrder(less) && Prepared(a[..], pl, over, buffers.content, cls)
    requires forall i :: 0 <= i < |pl.w| ==> (i == overflowBucket && over.Some? <==> Spilled(pl.Bucket(i), pl.Lim()))
    modifies a, buffers
    ensures FilledUpTo(old(a[..]), a[..], pl, over, old(buffers.content), cls, |pl.w|, base, lastLevel, less)
    ensures |buffers.content| == |pl.w| && forall i :: 0 <= i < |pl.w| ==> buffers.content[i] == []
  {
    ghost var t, bufs := a[..], buffers.content;
    BoundaryMono(pl.bs, pl.n, 0, |pl.w|);
    for i := 0 to |pl.w|
      invariant |buffers.content| == |pl.w|
      invariant forall j :: 0 <= j < i ==> buffers.content[j] == []
      invariant forall j :: i <= j < |pl.w| ==> buffers.content[j] == bufs[j]
      invariant FilledUpTo(t, a[..], pl, over, bufs, cls, i, base, lastLevel, less)
    {
      assert BucketReady(t, pl, over, bufs[i], cls, i);
      Untouched(t, a[..], pl, over, bufs[i], cls, i);
      ghost var u := a[..];
      hide Prepared, BucketReady, FilledUpTo, BucketDone;
      WriteBucket(a, pl, i, Small(pl, i, base, lastLevel), i == overflowBucket && over.Some?, over,
                  buffers.content[i], less, cls);
      NextFilled(t, u, a[..], pl, over, bufs, cls, i, base, lastLevel, less);
      buffers.Reset(i);
    }
  }
}
