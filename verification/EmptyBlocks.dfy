/**
 * Empty-block movement between classification and permutation of the parallel in-place sorter, in units of
 * blocks. Every stripe holds full blocks and then empty ones; afterwards every bucket does.
 */
module EmptyBlocks {
  import opened Buffers
  import opened Buckets
  import opened Powers
  import opened BlockPermutation

  // ---------------------------------------------------------------- counting full slots

  /** Number of full slots in [x, y). */
  ghost function Full(full: seq<bool>, x: nat, y: nat): (c: nat)
    requires y <= |full|
    ensures x <= y ==> c <= y - x
  {
    if y <= x then 0 else Full(full, x, y - 1) + (if full[y - 1] then 1 else 0)
  }

  lemma {:induction false} FullSplit(full: seq<bool>, x: nat, y: nat, z: nat)
    requires x <= y <= z <= |full|
    ensures Full(full, x, z) == Full(full, x, y) + Full(full, y, z)
    decreases z
  {
    if y < z { FullSplit(full, x, y, z - 1); }
  }

  lemma {:induction false} FullAll(full: seq<bool>, x: nat, y: nat, yes: bool)
    requires x <= y <= |full| && forall q :: x <= q < y ==> full[q] == yes
    ensures Full(full, x, y) == if yes then y - x else 0
    decreases y
  {
    if x < y { FullAll(full, x, y - 1, yes); }
  }

  // ---------------------------------------------------------------- stripes and buckets

  /**
   * S: stripe boundaries; E: first empty slot of every stripe; A: first slot of every bucket, and the end.
   * The input may end inside the last slot, which then is empty.
   */
  ghost predicate Layout(S: seq<nat>, E: seq<nat>, A: seq<nat>, partial: bool) {
    && |S| == |E| + 1 > 1 && S[0] == 0
    && (forall t :: 0 <= t < |E| ==> S[t] < S[t + 1] && S[t] <= E[t] <= S[t + 1])
    && |A| > 1 && Boundaries(A, S[|S| - 1])
    && (partial ==> E[|E| - 1] < S[|S| - 1])
  }

  ghost function FullSlots(S: seq<nat>, E: seq<nat>): (full: seq<bool>)
    requires |S| == |E| + 1 > 1
    ensures |full| == S[|E|]
  {
    seq(S[|E|], q requires 0 <= q < S[|E|] => q < E[OwnerFrom(S, q, |E| - 1)])
  }

  lemma {:induction false} StripeMono(S: seq<nat>, E: seq<nat>, A: seq<nat>, partial: bool, t: nat, u: nat)
    requires Layout(S, E, A, partial) && t <= u < |S|
    ensures S[t] <= S[u] && (t < u ==> S[t] < S[u])
    decreases u
  {
    if t < u { StripeMono(S, E, A, partial, t, u - 1); assert S[u - 1] < S[u - 1 + 1]; }
  }

  lemma FullInStripe(S: seq<nat>, E: seq<nat>, A: seq<nat>, partial: bool, t: nat, q: nat)
    requires Layout(S, E, A, partial) && t < |E| && S[t] <= q < S[t + 1]
    ensures q < S[|E|] && FullSlots(S, E)[q] == (q < E[t])
  {
    StripeMono(S, E, A, partial, t + 1, |E|);
    forall i, j | 0 <= i <= j < |S| ensures S[i] <= S[j] { StripeMono(S, E, A, partial, i, j); }
    OwnerUnique(S, q, |E| - 1, t);
  }

  /** Full slots of a part of a stripe. */
  lemma StripeCount(S: seq<nat>, E: seq<nat>, A: seq<nat>, partial: bool, t: nat, x: nat, y: nat)
    requires Layout(S, E, A, partial) && t < |E| && S[t] <= x <= y <= S[t + 1]
    ensures y <= S[|E|]
    ensures Full(FullSlots(S, E), x, y) == if y <= E[t] then y - x else if x <= E[t] then E[t] - x else 0
  {
    StripeMono(S, E, A, partial, t + 1, |E|);
    var full := FullSlots(S, E);
    var m := if y <= E[t] then y else if x <= E[t] then E[t] else x;
    forall q | x <= q < y ensures full[q] == (q < E[t]) { FullInStripe(S, E, A, partial, t, q); }
    FullSplit(full, x, m, y);
    FullAll(full, x, m, true);
    FullAll(full, m, y, false);
  }

  /** Where the empty slots of bucket b begin after all moves. */
  ghost function Goal(full: seq<bool>, A: seq<nat>, b: nat): nat
    requires b + 1 < |A| && A[b + 1] <= |full|
  {
    A[b] + Full(full, A[b], A[b + 1])
  }

  ghost function Holes(full: seq<bool>, x: nat, y: nat): nat
    requires x <= y <= |full|
  {
    y - x - Full(full, x, y)
  }

  // ---------------------------------------------------------------- counting, as a thread does it

  /**
   * Bucket b crosses the end of stripe t. The last stripe ends with the input, which the last bucket
   * crosses if the input ends inside a slot.
   */
  ghost predicate Crosses(S: seq<nat>, E: seq<nat>, A: seq<nat>, partial: bool, t: nat, b: nat)
    requires |S| == |E| + 1
  {
    && t < |E| && b + 1 < |A| && A[b] <= S[t + 1] <= A[b + 1] <= S[|E|]
    && if t + 1 < |E| then A[b] < S[t + 1] < A[b + 1] else partial && b + 2 == |A|
  }

  /** Full slots of bucket [a, z) in the stripes left of stripe t. */
  method CountLeft(
      S: seq<nat>, E: seq<nat>, ghost A: seq<nat>, ghost partial: bool, t: nat, a: nat)
      returns (flushed: nat)
    requires Layout(S, E, A, partial) && t < |E| && a < S[t]
    ensures S[t] <= S[|E|] && flushed == Full(FullSlots(S, E), a, S[t])
  {
    ghost var full := FullSlots(S, E);
    StripeMono(S, E, A, partial, t, |E|);
    flushed := 0;
    var prev := t - 1;
    while a < S[prev]
      invariant 0 <= prev < t && a < S[prev + 1] <= S[t]
      invariant flushed == Full(full, S[prev + 1], S[t])
      decreases prev
    {
      StripeCount(S, E, A, partial, prev, S[prev], S[prev + 1]);
      FullSplit(full, S[prev], S[prev + 1], S[t]);
      flushed := flushed + (E[prev] - S[prev]);
      prev := prev - 1;
    }
    StripeCount(S, E, A, partial, prev, a, S[prev + 1]);
    FullSplit(full, a, S[prev + 1], S[t]);
    if E[prev] > a {
      flushed := flushed + (E[prev] - a);
    }
  }

  lemma LayoutShape(S: seq<nat>, E: seq<nat>, A: seq<nat>, partial: bool)
    requires Layout(S, E, A, partial)
    ensures |S| == |E| + 1 > 1 && |A| > 1
  {
  }

  lemma NextOnRight(S: seq<nat>, E: seq<nat>, A: seq<nat>, partial: bool, a: nat, z: nat, u: nat, eb: nat)
      returns (reach: nat)
    requires Layout(S, E, A, partial) && u < |E| && a <= S[u] < z <= S[|E|] && eb == Min(E[u], z)
    ensures S[u] <= eb && S[u] <= reach <= S[u + 1] && reach <= z && (reach < z ==> reach == S[u + 1])
    ensures Full(FullSlots(S, E), a, reach) == Full(FullSlots(S, E), a, S[u]) + (eb - S[u])
  {
    reach := Min(S[u + 1], z);
    StripeCount(S, E, A, partial, u, S[u], reach);
    FullSplit(FullSlots(S, E), a, S[u], reach);
  }

  /** Adds the full slots of bucket [a, z) in the stripes right of stripe t, and finds where they end. */
  method CountRight(
      S: seq<nat>, E: seq<nat>, ghost A: seq<nat>, ghost partial: bool, t: nat, ghost a: nat, z: nat, flushed0: nat)
      returns (flushed: nat, readFrom: nat)
    requires Layout(S, E, A, partial) && t < |E| && a <= S[t + 1] <= z <= S[|E|]
    requires flushed0 == Full(FullSlots(S, E), a, S[t + 1])
    ensures t < readFrom <= |E| && z <= S[readFrom] && (readFrom > t + 1 ==> S[readFrom - 1] < z)
    ensures flushed == Full(FullSlots(S, E), a, z)
  {
    hide Layout, FullSlots, Full, Min;
    LayoutShape(S, E, A, partial);
    ghost var full, reach := FullSlots(S, E), S[t + 1];
    flushed := flushed0;
    readFrom := t + 1;
    while readFrom < |E| && z > S[readFrom]
      invariant t < readFrom <= |E| && a <= reach <= S[readFrom] && reach <= z && (reach < z ==> reach == S[readFrom])
      invariant readFrom > t + 1 ==> S[readFrom - 1] < z
      invariant flushed == Full(full, a, reach)
      decreases |E| - readFrom
    {
      var eb := Min(E[readFrom], z);
      reach := NextOnRight(S, E, A, partial, a, z, readFrom, eb);
      flushed := flushed + (eb - S[readFrom]);
      readFrom := readFrom + 1;
    }
  }

  // ---------------------------------------------------------------- moving

  /** One block is copied from a full slot to an empty one. */
  datatype Move = Move(from: nat, to: nat)

  /**
   * The moves of one thread into the slots from w on: the sources are full slots whose rank, counted from
   * the right end z of the bucket, is r or more, and no source is used twice.
   */
  ghost predicate Moves(moves: seq<Move>, full: seq<bool>, z: nat, r: nat, w: nat)
    requires z <= |full|
  {
    && (forall i :: 0 <= i < |moves| ==> moves[i].to == w + i && Source(full, z, r, r + |moves|, moves[i].from))
    && (forall i, j :: 0 <= i < j < |moves| ==> moves[i].from != moves[j].from)
  }

  ghost predicate Source(full: seq<bool>, z: nat, r: nat, r': nat, q: nat)
    requires z <= |full|
  {
    q < z && full[q] && r <= Full(full, q + 1, z) < r'
  }

  /** What the moves do to the blocks, given that no source is a destination. */
  ghost predicate Moved<Bl>(s: seq<Bl>, u: seq<Bl>, moves: seq<Move>, w: nat) {
    && |u| == |s| && w + |moves| <= |s|
    && (forall q :: 0 <= q < |s| && !(w <= q < w + |moves|) ==> u[q] == s[q])
    && (forall i :: 0 <= i < |moves| ==> moves[i].from < |s| && u[w + i] == s[moves[i].from])
  }

  /** The moves from count consecutive slots. */
  ghost function Run(from: nat, count: nat, w: nat): (r: seq<Move>)
    ensures |r| == count && forall i :: 0 <= i < count ==> r[i] == Move(from + i, w + i)
  {
    seq(count, i requires 0 <= i < count => Move(from + i, w + i))
  }

  /** Slots of a completely full range have consecutive ranks. */
  lemma RunSources(full: seq<bool>, z: nat, lo: nat, hi: nat, passed: nat, r: nat, r': nat)
    requires lo <= hi <= z <= |full| && (forall q :: lo <= q < hi ==> full[q])
    requires Full(full, hi, z) == passed && r <= passed && passed + (hi - lo) <= r'
    ensures forall q :: lo <= q < hi ==> Source(full, z, r, r', q)
  {
    forall q | lo <= q < hi ensures Source(full, z, r, r', q) {
      FullSplit(full, q + 1, hi, z);
      FullAll(full, q + 1, hi, true);
    }
  }

  lemma MoreMoves(
      moves: seq<Move>, more: seq<Move>, full: seq<bool>, z: nat, r: nat, r': nat, w: nat, lo: nat, hi: nat,
      before: nat)
    requires z <= |full| && Moves(moves, full, z, r, w) && lo <= hi <= before
    requires more == moves + Run(lo, hi - lo, w + |moves|) && r' == r + |more|
    requires forall i :: 0 <= i < |moves| ==> before <= moves[i].from
    requires forall q :: lo <= q < hi ==> Source(full, z, r, r', q)
    ensures Moves(more, full, z, r, w)
    ensures forall i :: 0 <= i < |more| ==> lo <= more[i].from
  {
    var k := |moves|;
    forall i | 0 <= i < |more|
      ensures more[i].to == w + i && Source(full, z, r, r', more[i].from) && lo <= more[i].from
      ensures i < k ==> before <= more[i].from
      ensures i >= k ==> more[i].from == lo + (i - k)
    {
      if i < k { assert more[i] == moves[i] && Source(full, z, r, r + k, moves[i].from); }
    }
  }

  lemma MoreMoved<Bl>(s: seq<Bl>, u: seq<Bl>, u': seq<Bl>, moves: seq<Move>, w: nat, lo: nat, count: nat)
    requires Moved(s, u, moves, w) && w + |moves| + count <= lo && lo + count <= |s|
    requires u' == Put(u, w + |moves|, u[lo..lo + count])
    ensures Moved(s, u', moves + Run(lo, count, w + |moves|), w)
  {
    var more := moves + Run(lo, count, w + |moves|);
    var k := |moves|;
    forall i | 0 <= i < |more| ensures more[i].from < |s| && u'[w + i] == s[more[i].from] {
      if i >= k { assert u'[w + i] == u[lo..lo + count][i - k] == u[lo + (i - k)] == s[lo + (i - k)]; }
    }
  }

  /** Sources lie right of the goal, so they are never overwritten. */
  lemma SourceBeyond(full: seq<bool>, z: nat, r: nat, r': nat, q: nat, goal: nat)
    requires z <= |full| && Source(full, z, r, r', q) && goal <= z && r' <= Full(full, goal, z)
    ensures goal <= q
  {
    if q < goal { FullSplit(full, q + 1, goal, z); }
  }

  /** The slots from stripe `from` on have been passed; zr is where they begin in the bucket. */
  ghost predicate Passed(
      S: seq<nat>, full: seq<bool>, z: nat, t: nat, from: nat, reserved: nat, r: nat, moves: seq<Move>, zr: nat)
    requires t < from < |S| && z <= |full|
  {
    && zr == Min(S[from], z) && zr <= z && (from > t + 1 ==> S[from - 1] < z)
    && reserved + Full(full, zr, z) == r + |moves| && (reserved > 0 ==> moves == [])
    && forall i :: 0 <= i < |moves| ==> zr <= moves[i].from
  }

  /** Full slots of the next stripe to the left, as far as the bucket reaches. */
  lemma NextStripe(S: seq<nat>, E: seq<nat>, A: seq<nat>, partial: bool, t: nat, z: nat)
    requires Layout(S, E, A, partial) && t < |E| && S[t] < z <= S[|E|]
    ensures var full, readPtr, zr := FullSlots(S, E), Min(E[t], z), Min(S[t + 1], z);
      && S[t] <= readPtr <= zr <= z <= |full| && (forall q :: S[t] <= q < readPtr ==> full[q])
      && Full(full, readPtr, z) == Full(full, zr, z)
      && Full(full, S[t], z) == readPtr - S[t] + Full(full, zr, z)
  {
    var full, readPtr, zr := FullSlots(S, E), Min(E[t], z), Min(S[t + 1], z);
    StripeCount(S, E, A, partial, t, readPtr, zr);
    StripeCount(S, E, A, partial, t, S[t], readPtr);
    FullSplit(full, readPtr, zr, z);
    FullSplit(full, S[t], readPtr, z);
    forall q | S[t] <= q < readPtr ensures full[q] { FullInStripe(S, E, A, partial, t, q); }
  }

  /** The blocks taken from one stripe. */
  lemma TookBlocks(
      S: seq<nat>, E: seq<nat>, A: seq<nat>, partial: bool, t: nat, from: nat, z: nat, reserved: nat, r: nat, w: nat,
      moves: seq<Move>, more: seq<Move>, lo: nat, count: nat, goal: nat)
    requires Layout(S, E, A, partial) && t < from < |E| && S[from] < z <= S[|E|]
    requires Passed(S, FullSlots(S, E), z, t, from + 1, reserved, r, moves, Min(S[from + 1], z))
    requires lo + count + reserved == Min(E[from], z) && S[from] <= lo && count > 0
    requires more == moves + Run(lo, count, w + |moves|) && Moves(moves, FullSlots(S, E), z, r, w)
    requires goal <= z && r + |more| <= Full(FullSlots(S, E), goal, z)
    ensures Moves(more, FullSlots(S, E), z, r, w) && goal <= lo
    ensures lo == S[from] && (from > t + 1 ==> S[from - 1] < z) ==>
      Passed(S, FullSlots(S, E), z, t, from, 0, r, more, S[from])
  {
    var full, zr := FullSlots(S, E), Min(S[from + 1], z);
    NextStripe(S, E, A, partial, from, z);
    hide Layout, FullSlots;
    var hi := lo + count;
    FullSplit(full, hi, Min(E[from], z), z);
    FullAll(full, hi, Min(E[from], z), true);
    RunSources(full, z, lo, hi, Full(full, hi, z), r, r + |more|);
    MoreMoves(moves, more, full, z, r, r + |more|, w, lo, hi, zr);
    SourceBeyond(full, z, r, r + |more|, lo, goal);
  }

  lemma SkippedStripe(
      S: seq<nat>, E: seq<nat>, A: seq<nat>, partial: bool, t: nat, from: nat, z: nat, reserved: nat, r: nat,
      moves: seq<Move>)
    requires Layout(S, E, A, partial) && t < from < |E| && S[from] < z <= S[|E|]
    requires Passed(S, FullSlots(S, E), z, t, from + 1, reserved, r, moves, Min(S[from + 1], z))
    requires reserved >= Min(E[from], z) - S[from]
    ensures Passed(S, FullSlots(S, E), z, t, from, reserved - (Min(E[from], z) - S[from]), r, moves, Min(S[from], z))
  {
    NextStripe(S, E, A, partial, from, z);
    if from > t + 1 { StripeMono(S, E, A, partial, from - 1, from); }
  }

  /** There are always enough blocks to the right of stripe t. */
  lemma StillMore(
      S: seq<nat>, E: seq<nat>, A: seq<nat>, partial: bool, t: nat, from: nat, z: nat, reserved: nat, r: nat,
      moves: seq<Move>, need: nat)
    requires Layout(S, E, A, partial) && t < from <= |E| && S[t + 1] <= z <= S[|E|]
    requires Passed(S, FullSlots(S, E), z, t, from, reserved, r, moves, Min(S[from], z))
    requires |moves| < need && r + need <= Full(FullSlots(S, E), S[t + 1], z)
    ensures from > t + 1 && S[from - 1] < z
  {
  }

  /** Takes blocks from one stripe, or skips it if all its blocks are reserved for other threads. */
  method TakeFromStripe<Bl>(
      m: array<Bl>, S: seq<nat>, E: seq<nat>, ghost A: seq<nat>, ghost partial: bool, t: nat, z: nat,
      w: nat, wEnd: nat, write: nat, reserved: nat, readFrom: nat, ghost r: nat, ghost goal: nat,
      ghost moves: seq<Move>, ghost s: seq<Bl>)
      returns (write': nat, reserved': nat, ghost moves': seq<Move>)
    requires Layout(S, E, A, partial) && t < readFrom < |E| && S[readFrom] < z <= S[|E|]
    requires m.Length == S[|E|] - (if partial then 1 else 0) && w <= write < wEnd <= goal <= z
    requires Passed(S, FullSlots(S, E), z, t, readFrom + 1, reserved, r, moves, Min(S[readFrom + 1], z))
    requires Moves(moves, FullSlots(S, E), z, r, w) && |moves| == write - w && Moved(s, m[..], moves, w)
    requires |s| == m.Length && r + (wEnd - w) <= Full(FullSlots(S, E), goal, z)
    modifies m
    ensures write <= write' <= wEnd && |moves'| == write' - w
    ensures Moves(moves', FullSlots(S, E), z, r, w) && Moved(s, m[..], moves', w)
    ensures write' < wEnd ==> Passed(S, FullSlots(S, E), z, t, readFrom, reserved', r, moves', Min(S[readFrom], z))
  {
    hide Layout, FullSlots, Moves, Moved, Full, Passed, Put, Run;
    LayoutShape(S, E, A, partial);
    NextStripe(S, E, A, partial, readFrom, z);
    EnoughRoom(S, E, A, partial, readFrom, m.Length);
    if readFrom > t + 1 { StripeMono(S, E, A, partial, readFrom - 1, readFrom); }
    var readPtr := Min(E[readFrom], z);
    var size := readPtr - S[readFrom];
    if reserved >= size {
      SkippedStripe(S, E, A, partial, t, readFrom, z, reserved, r, moves);
      return write, reserved - size, moves;
    }
    readPtr := readPtr - reserved;
    size := size - reserved;
    var count := Min(size, wEnd - write);
    moves' := moves + Run(readPtr - count, count, write);
    TookBlocks(S, E, A, partial, t, readFrom, z, reserved, r, w, moves, moves', readPtr - count, count, goal);
    ghost var u := m[..];
    MoveDown(m, readPtr - count, count, write);
    MoreMoved(s, u, m[..], moves, w, readPtr - count, count);
    write', reserved' := write + count, 0;
  }

  lemma EnoughRoom(S: seq<nat>, E: seq<nat>, A: seq<nat>, partial: bool, t: nat, length: nat)
    requires Layout(S, E, A, partial) && t < |E| && length == S[|E|] - (if partial then 1 else 0)
    ensures E[t] <= length
  {
    StripeMono(S, E, A, partial, t + 1, |E|);
  }

  /** The loop that fills the holes of stripe t in a bucket that ends at z. */
  method FillHoles<Bl>(
      m: array<Bl>, S: seq<nat>, E: seq<nat>, ghost A: seq<nat>, ghost partial: bool, t: nat, z: nat,
      w: nat, wEnd: nat, reserved0: nat, readFrom0: nat, ghost goal: nat)
      returns (ghost moves: seq<Move>)
    requires Layout(S, E, A, partial) && t < readFrom0 <= |E| && S[t + 1] <= z <= S[readFrom0] && z <= S[|E|]
    requires readFrom0 > t + 1 ==> S[readFrom0 - 1] < z
    requires m.Length == S[|E|] - (if partial then 1 else 0)
    requires w < wEnd ==>
      && wEnd <= goal <= z && w <= m.Length && reserved0 + (wEnd - w) <= Full(FullSlots(S, E), goal, z)
      && reserved0 + (wEnd - w) <= Full(FullSlots(S, E), S[t + 1], z)
    modifies m
    ensures Moves(moves, FullSlots(S, E), z, reserved0, w)
    ensures |moves| == (if w < wEnd then wEnd - w else 0)
    ensures w < wEnd ==> Moved(old(m[..]), m[..], moves, w)
    ensures w >= wEnd ==> m[..] == old(m[..])
  {
    moves := [];
    if w >= wEnd { return; }
    ghost var s := m[..];
    var write, reserved, readFrom := w, reserved0, readFrom0;
    assert Passed(S, FullSlots(S, E), z, t, readFrom, reserved, reserved0, moves, Min(S[readFrom], z));
    assert Moves(moves, FullSlots(S, E), z, reserved0, w) && Moved(s, m[..], moves, w);
    hide Layout, FullSlots, Moves, Moved, Full, Passed;
    while write < wEnd
      invariant w <= write <= wEnd && |moves| == write - w && t < readFrom <= |E|
      invariant Moves(moves, FullSlots(S, E), z, reserved0, w) && Moved(s, m[..], moves, w)
      invariant write < wEnd ==>
        Passed(S, FullSlots(S, E), z, t, readFrom, reserved, reserved0, moves, Min(S[readFrom], z))
      decreases readFrom
    {
      StillMore(S, E, A, partial, t, readFrom, z, reserved, reserved0, moves, wEnd - w);
      readFrom := readFrom - 1;
      write, reserved, moves := TakeFromStripe(m, S, E, A, partial, t, z, w, wEnd, write, reserved, readFrom,
                                               reserved0, goal, moves, s);
    }
  }

  // ---------------------------------------------------------------- what one thread does

  lemma {:induction false} FullMonotone(full: seq<bool>, x: nat, y: nat, z: nat)
    requires x <= y <= z <= |full|
    ensures Full(full, y, z) <= Full(full, x, z) && Full(full, x, y) <= Full(full, x, z)
    ensures Holes(full, x, y) <= Holes(full, x, z)
  {
    FullSplit(full, x, y, z);
  }

  /** Right of the goal there are as many full slots as there are holes left of it. */
  lemma GoalBalance(full: seq<bool>, a: nat, z: nat)
    requires a <= z <= |full|
    ensures a + Full(full, a, z) <= z
    ensures Full(full, a + Full(full, a, z), z) == Holes(full, a, a + Full(full, a, z))
  {
    FullSplit(full, a, a + Full(full, a, z), z);
  }

  /** The slots that thread t fills in bucket [a, z), and the blocks that others take before it. */
  lemma HolesOfThread(S: seq<nat>, E: seq<nat>, A: seq<nat>, partial: bool, t: nat, a: nat, z: nat, w: nat, wEnd: nat)
    requires Layout(S, E, A, partial) && t < |E| && a <= S[t + 1] <= z <= S[|E|]
    requires w == Max(E[t], a) && wEnd == Min(a + Full(FullSlots(S, E), a, z), S[t + 1]) && w < wEnd
    ensures S[t] <= S[|E|] && Max(a, S[t]) <= S[|E|]
    ensures var full, goal, r := FullSlots(S, E), a + Full(FullSlots(S, E), a, z),
      Holes(FullSlots(S, E), a, Max(a, S[t]));
      && a <= wEnd <= goal <= z && r + (wEnd - w) == Holes(full, a, wEnd)
      && r + (wEnd - w) <= Full(full, goal, z) && r + (wEnd - w) <= Full(full, S[t + 1], z)
  {
    var full, m := FullSlots(S, E), Max(a, S[t]);
    var goal := a + Full(full, a, z);
    StripeMono(S, E, A, partial, t, |E|);
    hide Full, FullSlots;
    GoalBalance(full, a, z);
    StripeStart(S, E, A, partial, t);
    StripeCount(S, E, A, partial, t, m, wEnd);
    if goal < S[t + 1] { StripeCount(S, E, A, partial, t, goal, S[t + 1]); }
    hide Layout;
    FullSplit(full, a, m, wEnd);
    FullMonotone(full, a, wEnd, goal);
    if S[t + 1] <= goal {
      FullMonotone(full, S[t + 1], goal, z);
    } else {
      FullSplit(full, goal, S[t + 1], z);
    }
  }

  lemma StripeStart(S: seq<nat>, E: seq<nat>, A: seq<nat>, partial: bool, t: nat)
    requires Layout(S, E, A, partial) && t < |E|
    ensures |S| == |E| + 1 && S[t] <= E[t] <= S[t + 1]
  {
  }

  /** The moves of thread t in a bucket that crosses the end of its stripe. */
  ghost predicate MovesFor(S: seq<nat>, E: seq<nat>, A: seq<nat>, t: nat, b: nat, moves: seq<Move>)
    requires |S| == |E| + 1 > 1 && t < |E| && b + 1 < |A| && A[b] <= A[b + 1] <= S[|E|] && Max(A[b], S[t]) <= S[|E|]
  {
    var full := FullSlots(S, E);
    var w, wEnd := Max(E[t], A[b]), Min(Goal(full, A, b), S[t + 1]);
    && Moves(moves, full, A[b + 1], Holes(full, A[b], Max(A[b], S[t])), w)
    && |moves| == (if w < wEnd then wEnd - w else 0)
  }

  /** Full slots of the bucket up to the end of stripe t, and the blocks reserved for threads to the left. */
  method CountUpToHere(S: seq<nat>, E: seq<nat>, ghost A: seq<nat>, ghost partial: bool, t: nat, a: nat)
      returns (flushed: nat, reserved: nat)
    requires Layout(S, E, A, partial) && t < |E| && a <= S[t + 1]
    ensures S[t] <= S[|E|] && S[t + 1] <= S[|E|] && Max(a, S[t]) <= S[|E|]
    ensures flushed == Full(FullSlots(S, E), a, S[t + 1]) && reserved == Holes(FullSlots(S, E), a, Max(a, S[t]))
  {
    StripeMono(S, E, A, partial, t, |E|);
    StripeMono(S, E, A, partial, t + 1, |E|);
    flushed, reserved := 0, 0;
    if a < S[t] {
      flushed := CountLeft(S, E, A, partial, t, a);
      reserved := S[t] - a - flushed;
      flushed := flushed + (E[t] - S[t]);
      StripeCount(S, E, A, partial, t, S[t], S[t + 1]);
      FullSplit(FullSlots(S, E), a, S[t], S[t + 1]);
    } else {
      StripeCount(S, E, A, partial, t, a, S[t + 1]);
      if E[t] > a {
        flushed := E[t] - a;
      }
    }
  }

  /** Fills the holes of stripe t in bucket b; the result is the bucket's first empty slot afterwards. */
  method MoveIntoStripe<Bl>(
      m: array<Bl>, S: seq<nat>, E: seq<nat>, A: seq<nat>, ghost partial: bool, t: nat, b: nat)
      returns (firstEmpty: nat, ghost moves: seq<Move>)
    requires Layout(S, E, A, partial) && Crosses(S, E, A, partial, t, b)
    requires m.Length == S[|E|] - (if partial then 1 else 0)
    modifies m
    ensures A[b] <= A[b + 1] <= S[|E|] && Max(A[b], S[t]) <= S[|E|]
    ensures firstEmpty == Goal(FullSlots(S, E), A, b) && MovesFor(S, E, A, t, b, moves)
    ensures moves != [] ==> Moved(old(m[..]), m[..], moves, Max(E[t], A[b]))
    ensures moves == [] ==> m[..] == old(m[..])
  {
    hide Layout, FullSlots, Full, Moves, Moved;
    LayoutShape(S, E, A, partial);
    var a, z := A[b], A[b + 1];
    var flushed, reserved := CountUpToHere(S, E, A, partial, t, a);
    var readFrom;
    flushed, readFrom := CountRight(S, E, A, partial, t, a, z, flushed);
    firstEmpty := a + flushed;
    var w, wEnd := Max(E[t], a), Min(firstEmpty, S[t + 1]);
    EnoughRoom(S, E, A, partial, t, m.Length);
    if w < wEnd { HolesOfThread(S, E, A, partial, t, a, z, w, wEnd); }
    moves := FillHoles(m, S, E, A, partial, t, z, w, wEnd, reserved, readFrom, firstEmpty);
  }

  /** Thread t sets the pointers of the buckets that start in its stripe. */
  ghost predicate StartsIn(S: seq<nat>, A: seq<nat>, t: nat, b: nat)
    requires t + 1 < |S| && b < |A|
  {
    S[t] <= A[b] && (A[b] < S[t + 1] || t + 2 == |S|)
  }

  /** First bucket that starts in stripe t, and first one after the stripe. */
  method FindRange(S: seq<nat>, E: seq<nat>, A: seq<nat>, ghost partial: bool, t: nat) returns (first: nat, last: nat)
    requires Layout(S, E, A, partial) && t < |E|
    ensures first <= last < |A| && (first > 0 ==> A[first - 1] < S[t])
    ensures forall b :: 0 <= b < |A| - 1 ==> (StartsIn(S, A, t, b) <==> first <= b < last)
    ensures S[t + 1] <= A[last] && (last > first && last < |A| - 1 ==> A[last - 1] < S[t + 1]) && last > 0
    ensures t + 1 == |E| ==> last == |A| - 1
  {
    StripeMono(S, E, A, partial, t, |E|);
    StripeMono(S, E, A, partial, t + 1, |E|);
    first := 0;
    while A[first] < S[t]
      invariant first < |A| && forall b :: 0 <= b < first ==> A[b] < S[t]
      decreases |A| - first
    {
      first := first + 1;
    }
    last := first;
    if t + 1 == |E| {
      last := |A| - 1;
    } else {
      while last < |A| - 1 && A[last] < S[t + 1]
        invariant first <= last < |A| && forall b :: first <= b < last ==> A[b] < S[t + 1]
        decreases |A| - last
      {
        last := last + 1;
      }
    }
    forall b | 0 <= b < |A| - 1 ensures StartsIn(S, A, t, b) <==> first <= b < last {
      if first <= b { BoundaryMono(A, S[|E|], first, b); }
      if last <= b { BoundaryMono(A, S[|E|], last, b); }
    }
  }

  /** Pointers of a bucket that lies inside stripe t. */
  lemma InsideGoal(S: seq<nat>, E: seq<nat>, A: seq<nat>, partial: bool, t: nat, b: nat)
    requires Layout(S, E, A, partial) && t < |E| && b + 1 < |A| && S[t] <= A[b] && A[b + 1] <= S[t + 1]
    ensures A[b] <= A[b + 1] <= S[|E|]
    ensures Goal(FullSlots(S, E), A, b)
         == (if E[t] <= A[b] then A[b] else if E[t] < A[b + 1] then E[t] else A[b + 1])
  {
    StripeMono(S, E, A, partial, t + 1, |E|);
    StripeCount(S, E, A, partial, t, A[b], A[b + 1]);
  }

  ghost predicate PointersSet(w: nat, r: int, S: seq<nat>, E: seq<nat>, A: seq<nat>, b: nat)
    requires |S| == |E| + 1 > 1 && b + 1 < |A|
  {
    A[b + 1] <= S[|E|] && w == A[b] && r == Goal(FullSlots(S, E), A, b) as int - 1
  }

  ghost predicate Inside(S: seq<nat>, A: seq<nat>, t: nat, b: nat)
    requires t + 1 < |S| && b + 1 < |A|
  {
    S[t] <= A[b] && A[b + 1] <= S[t + 1]
  }

  /** Case 1: the buckets that lie inside the stripe need no moves. */
  method SetInside(
      bp: BucketPointers, S: seq<nat>, E: seq<nat>, A: seq<nat>, ghost partial: bool, t: nat, first: nat, end: nat)
    requires Layout(S, E, A, partial) && t < |E| && |bp.w| == |bp.r| == |A| - 1 && first <= end < |A|
    requires forall b :: first <= b < end ==> Inside(S, A, t, b)
    modifies bp
    ensures |bp.w| == |bp.r| == |A| - 1
    ensures forall b :: first <= b < end ==> PointersSet(bp.w[b], bp.r[b], S, E, A, b)
    ensures forall b :: 0 <= b < |A| - 1 && !(first <= b < end) ==> bp.w[b] == old(bp.w[b]) && bp.r[b] == old(bp.r[b])
  {
    for b := first to end
      invariant |bp.w| == |bp.r| == |A| - 1
      invariant forall c :: first <= c < b ==> PointersSet(bp.w[c], bp.r[c], S, E, A, c)
      invariant forall c :: 0 <= c < |A| - 1 && !(first <= c < b) ==> bp.w[c] == old(bp.w[c]) && bp.r[c] == old(bp.r[c])
    {
      assert Inside(S, A, t, b);
      InsideGoal(S, E, A, partial, t, b);
      var start, stop := A[b], A[b + 1];
      var read := stop;
      if E[t] <= start {
        read := start;
      } else if E[t] < stop {
        read := E[t];
      }
      bp.Set(b, start, read as int - 1);
    }
  }

  /** What thread t does as a whole. */
  ghost predicate ThreadMoves(S: seq<nat>, E: seq<nat>, A: seq<nat>, partial: bool, t: nat, moves: seq<Move>)
    requires Layout(S, E, A, partial) && t < |E|
  {
    && (forall b: nat :: Crosses(S, E, A, partial, t, b) ==>
         A[b] <= A[b + 1] <= S[|E|] && Max(A[b], S[t]) <= S[|E|] && MovesFor(S, E, A, t, b, moves))
    && ((forall b: nat :: !Crosses(S, E, A, partial, t, b)) ==> moves == [])
  }

  /** Thread t changes the pointers of the buckets that start in its stripe, and of no others. */
  ghost predicate ThreadPointers(
      w: seq<nat>, r: seq<int>, w': seq<nat>, r': seq<int>, S: seq<nat>, E: seq<nat>, A: seq<nat>, t: nat)
    requires |S| == |E| + 1 && t < |E|
  {
    && |w| == |r| == |w'| == |r'| == |A| - 1
    && forall b :: 0 <= b < |A| - 1 ==>
         if StartsIn(S, A, t, b) then PointersSet(w'[b], r'[b], S, E, A, b) else w'[b] == w[b] && r'[b] == r[b]
  }

  method MoveEmptyBlocks<Bl>(
      m: array<Bl>, bp: BucketPointers, S: seq<nat>, E: seq<nat>, A: seq<nat>, partial: bool, t: nat)
      returns (ghost moves: seq<Move>)
    requires Layout(S, E, A, partial) && t < |E|
    requires m.Length == S[|E|] - (if partial then 1 else 0) && |bp.w| == |bp.r| == |A| - 1
    modifies m, bp
    ensures ThreadMoves(S, E, A, partial, t, moves)
    ensures moves != [] ==> Moved(old(m[..]), m[..], moves, moves[0].to)
    ensures moves == [] ==> m[..] == old(m[..])
    ensures ThreadPointers(old(bp.w), old(bp.r), bp.w, bp.r, S, E, A, t)
  {
    var first, last := FindRange(S, E, A, partial, t);
    var overlapping := A[last] > S[t + 1] || (partial && t + 1 == |E|);
    RangeFacts(S, E, A, partial, t, first, last, overlapping);
    var end := if overlapping then last - 1 else last;
    hide Layout, FullSlots, Full, Crosses, MovesFor, PointersSet, Moves, Moved, StartsIn, ThreadMoves, ThreadPointers,
      Inside;
    moves := [];
    ghost var w0, r0 := bp.w, bp.r;
    if first <= end {
      SetInside(bp, S, E, A, partial, t, first, end);
    }
    ghost var w1, r1 := bp.w, bp.r;
    if overlapping {
      moves := MoveOverlapping(m, bp, S, E, A, partial, t, last - 1);
      OverlappingMoves(S, E, A, partial, t, last - 1, moves);
      OverlappingPointers(w0, r0, w1, r1, bp.w, bp.r, S, E, A, t, first, last);
    } else {
      NoMoves(S, E, A, partial, t);
      InsidePointers(w0, r0, w1, r1, S, E, A, t, first, last);
    }
  }

  lemma OverlappingMoves(S: seq<nat>, E: seq<nat>, A: seq<nat>, partial: bool, t: nat, b: nat, moves: seq<Move>)
    requires Layout(S, E, A, partial) && Crosses(S, E, A, partial, t, b)
    requires A[b] <= A[b + 1] <= S[|E|] && Max(A[b], S[t]) <= S[|E|] && MovesFor(S, E, A, t, b, moves)
    requires forall c: nat :: Crosses(S, E, A, partial, t, c) ==> c == b
    ensures ThreadMoves(S, E, A, partial, t, moves)
  {
    hide MovesFor;
    assert !(forall c: nat :: !Crosses(S, E, A, partial, t, c));
  }

  lemma NoMoves(S: seq<nat>, E: seq<nat>, A: seq<nat>, partial: bool, t: nat)
    requires Layout(S, E, A, partial) && t < |E| && forall c: nat :: !Crosses(S, E, A, partial, t, c)
    ensures ThreadMoves(S, E, A, partial, t, [])
  {
  }

  lemma InsidePointers(
      w: seq<nat>, r: seq<int>, w': seq<nat>, r': seq<int>, S: seq<nat>, E: seq<nat>, A: seq<nat>, t: nat, first: nat,
      last: nat)
    requires |S| == |E| + 1 && t < |E| && |w| == |r| == |w'| == |r'| == |A| - 1
    requires forall b :: 0 <= b < |A| - 1 ==> (StartsIn(S, A, t, b) <==> first <= b < last)
    requires forall b :: 0 <= b < |A| - 1 ==>
      if first <= b < last then PointersSet(w'[b], r'[b], S, E, A, b) else w'[b] == w[b] && r'[b] == r[b]
    ensures ThreadPointers(w, r, w', r', S, E, A, t)
  {
    hide PointersSet, StartsIn;
  }

  lemma OverlappingPointers(
      w: seq<nat>, r: seq<int>, w1: seq<nat>, r1: seq<int>, w': seq<nat>, r': seq<int>, S: seq<nat>, E: seq<nat>,
      A: seq<nat>,
      t: nat, first: nat, last: nat)
    requires |S| == |E| + 1 && t < |E| && |w| == |r| == |w1| == |r1| == |w'| == |r'| == |A| - 1 && 0 < last < |A|
    requires first <= last && (S[t] <= A[last - 1] <==> first <= last - 1)
    requires forall b :: 0 <= b < |A| - 1 ==> (StartsIn(S, A, t, b) <==> first <= b < last)
    requires forall b :: 0 <= b < |A| - 1 ==>
      if first <= b < last - 1 then PointersSet(w1[b], r1[b], S, E, A, b) else w1[b] == w[b] && r1[b] == r[b]
    requires S[t] <= A[last - 1] ==> PointersSet(w'[last - 1], r'[last - 1], S, E, A, last - 1)
    requires forall b :: 0 <= b < |A| - 1 && (b != last - 1 || S[t] > A[last - 1]) ==> w'[b] == w1[b] && r'[b] == r1[b]
    ensures ThreadPointers(w, r, w', r', S, E, A, t)
  {
    hide PointersSet, StartsIn;
  }

  /** Cases 2 and 3: the bucket that crosses the end of the stripe. */
  method MoveOverlapping<Bl>(
      m: array<Bl>, bp: BucketPointers, S: seq<nat>, E: seq<nat>, A: seq<nat>, ghost partial: bool, t: nat, bucket: nat)
      returns (ghost moves: seq<Move>)
    requires Layout(S, E, A, partial) && t < |E| && Crosses(S, E, A, partial, t, bucket)
    requires m.Length == S[|E|] - (if partial then 1 else 0) && |bp.w| == |bp.r| == |A| - 1 && bucket + 1 < |A|
    modifies m, bp
    ensures A[bucket] <= A[bucket + 1] <= S[|E|] && Max(A[bucket], S[t]) <= S[|E|]
      && MovesFor(S, E, A, t, bucket, moves)
    ensures moves != [] ==> Moved(old(m[..]), m[..], moves, moves[0].to)
    ensures moves == [] ==> m[..] == old(m[..])
    ensures |bp.w| == |bp.r| == |A| - 1
    ensures S[t] <= A[bucket] ==> PointersSet(bp.w[bucket], bp.r[bucket], S, E, A, bucket)
    ensures forall b :: 0 <= b < |A| - 1 && (b != bucket || S[t] > A[bucket]) ==>
      bp.w[b] == old(bp.w[b]) && bp.r[b] == old(bp.r[b])
  {
    hide FullSlots, Full, MovesFor, PointersSet, Moves, Moved;
    var firstEmpty;
    firstEmpty, moves := MoveIntoStripe(m, S, E, A, partial, t, bucket);
    if S[t] <= A[bucket] {
      bp.Set(bucket, A[bucket], firstEmpty as int - 1);
      NowSet(firstEmpty as int - 1, S, E, A, bucket);
    }
    MovesStart(S, E, A, t, bucket, moves);
  }

  lemma NowSet(r: int, S: seq<nat>, E: seq<nat>, A: seq<nat>, b: nat)
    requires |S| == |E| + 1 > 1 && b + 1 < |A| && A[b + 1] <= S[|E|] && r == Goal(FullSlots(S, E), A, b) as int - 1
    ensures PointersSet(A[b], r, S, E, A, b)
  {
  }

  lemma MovesStart(S: seq<nat>, E: seq<nat>, A: seq<nat>, t: nat, b: nat, moves: seq<Move>)
    requires |S| == |E| + 1 > 1 && t < |E| && b + 1 < |A| && A[b] <= A[b + 1] <= S[|E|] && Max(A[b], S[t]) <= S[|E|]
    requires MovesFor(S, E, A, t, b, moves)
    ensures moves != [] ==> moves[0].to == Max(E[t], A[b])
  {
  }

  lemma RangeFacts(
      S: seq<nat>, E: seq<nat>, A: seq<nat>, partial: bool, t: nat, first: nat, last: nat, overlapping: bool)
    requires Layout(S, E, A, partial) && t < |E| && first <= last < |A| && last > 0
    requires first > 0 ==> A[first - 1] < S[t]
    requires forall b :: 0 <= b < |A| - 1 ==> (StartsIn(S, A, t, b) <==> first <= b < last)
    requires S[t + 1] <= A[last] && (last > first && last < |A| - 1 ==> A[last - 1] < S[t + 1])
    requires t + 1 == |E| ==> last == |A| - 1
    requires overlapping <==> A[last] > S[t + 1] || (partial && t + 1 == |E|)
    ensures |S| == |E| + 1
    ensures forall b :: first <= b < (if overlapping then last - 1 else last) ==> Inside(S, A, t, b)
    ensures overlapping ==> Crosses(S, E, A, partial, t, last - 1) && (S[t] <= A[last - 1] <==> first <= last - 1)
    ensures forall b: nat :: Crosses(S, E, A, partial, t, b) ==> overlapping && b == last - 1
  {
    assert S[t] < S[t + 1];
    StripeMono(S, E, A, partial, t + 1, |E|);
    forall b | first <= b < (if overlapping then last - 1 else last) ensures Inside(S, A, t, b) {
      assert StartsIn(S, A, t, b);
      BoundaryMono(A, S[|E|], b + 1, |A| - 1);
      if b + 1 < last { assert StartsIn(S, A, t, b + 1); }
    }
    if overlapping {
      BoundaryMono(A, S[|E|], last - 1, |A| - 1);
      BoundaryMono(A, S[|E|], last, |A| - 1);
      if first < last { assert StartsIn(S, A, t, last - 1); }
    }
    forall b: nat | Crosses(S, E, A, partial, t, b) ensures overlapping && b == last - 1 {
      if t + 1 < |E| {
        if b < last - 1 { BoundaryMono(A, S[|E|], b + 1, last - 1); }
        if last <= b { BoundaryMono(A, S[|E|], last, b); }
      }
    }
  }
}
