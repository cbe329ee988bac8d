/**
 * Empty-block movement by all threads at once: no two moves share a source or a destination, so in any
 * order they leave every bucket with full blocks first, and lose none.
 */
module EmptyBlocksAll {
  import opened Buffers
  import opened Buckets
  import opened Powers
  import opened EmptyBlocks

  // ---------------------------------------------------------------- where moves go

  /** A bucket whose end lies in stripe t has no hole to be filled in that stripe. */
  lemma NoHolesAtEnd(S: seq<nat>, E: seq<nat>, A: seq<nat>, partial: bool, t: nat, b: nat)
    requires Layout(S, E, A, partial) && t < |E| && b + 1 < |A| && A[b] <= A[b + 1] && S[t] <= A[b + 1] <= S[t + 1]
    ensures A[b + 1] <= S[|E|] && Goal(FullSlots(S, E), A, b) <= Max(E[t], A[b])
  {
    var full, m := FullSlots(S, E), Max(A[b], S[t]);
    StripeMono(S, E, A, partial, t + 1, |E|);
    FullSplit(full, A[b], m, A[b + 1]);
    StripeCount(S, E, A, partial, t, m, A[b + 1]);
  }

  /** Move x fills a hole of bucket b in stripe t with a full block from beyond the bucket's goal. */
  ghost predicate Fits(S: seq<nat>, E: seq<nat>, A: seq<nat>, t: nat, b: nat, x: Move)
    requires |S| == |E| + 1 > 1 && t < |E|
  {
    var full := FullSlots(S, E);
    && b + 1 < |A| && A[b] <= A[b + 1] <= |full| && t + 1 < |E|
    && A[b] <= x.to < Goal(full, A, b) <= x.from < A[b + 1]
    && S[t] <= E[t] <= x.to < S[t + 1] <= |full| && !full[x.to] && full[x.from]
    && Max(A[b], S[t]) <= S[t + 1]
    && Holes(full, A[b], Max(A[b], S[t])) <= Full(full, x.from + 1, A[b + 1]) < Holes(full, A[b], S[t + 1])
  }

  lemma CrossingBucket(S: seq<nat>, E: seq<nat>, A: seq<nat>, partial: bool, t: nat, moves: seq<Move>) returns (b: nat)
    requires Layout(S, E, A, partial) && t < |E| && ThreadMoves(S, E, A, partial, t, moves) && moves != []
    ensures Crosses(S, E, A, partial, t, b) && b + 1 < |A| && A[b] <= S[t + 1] <= A[b + 1] <= S[|E|]
    ensures Max(A[b], S[t]) <= S[t + 1]
    ensures var full, w, wEnd := FullSlots(S, E), Max(E[t], A[b]), Min(Goal(FullSlots(S, E), A, b), S[t + 1]);
      && Moves(moves, full, A[b + 1], Holes(full, A[b], Max(A[b], S[t])), w) && w < wEnd && |moves| == wEnd - w
    ensures t + 1 < |E|
  {
    b :| Crosses(S, E, A, partial, t, b);
    assert MovesFor(S, E, A, t, b, moves) && S[t] < S[t + 1];
    if t + 1 == |E| { NoHolesAtEnd(S, E, A, partial, t, b); }
  }

  lemma MoveFits(
      S: seq<nat>, E: seq<nat>, A: seq<nat>, partial: bool, t: nat, moves: seq<Move>, i: nat)
      returns (b: nat)
    requires Layout(S, E, A, partial) && t < |E| && ThreadMoves(S, E, A, partial, t, moves) && i < |moves|
    ensures Fits(S, E, A, t, b, moves[i])
  {
    hide ThreadMoves, Crosses, Moves, Full, FullSlots;
    b := CrossingBucket(S, E, A, partial, t, moves);
    var full := FullSlots(S, E);
    var w, wEnd := Max(E[t], A[b]), Min(Goal(full, A, b), S[t + 1]);
    HolesOfThread(S, E, A, partial, t, A[b], A[b + 1], w, wEnd);
    SourceFits(full, A[b], A[b + 1], Max(A[b], S[t]), w, wEnd, S[t + 1], moves, i);
    FullInStripe(S, E, A, partial, t, w + i);
  }

  lemma SourceFits(full: seq<bool>, a: nat, z: nat, m: nat, w: nat, wEnd: nat, end: nat, moves: seq<Move>, i: nat)
    requires a <= m <= |full| && a <= wEnd <= end <= |full| && w < wEnd && a <= z <= |full|
    requires Moves(moves, full, z, Holes(full, a, m), w) && |moves| == wEnd - w && i < |moves|
    requires Holes(full, a, m) + (wEnd - w) == Holes(full, a, wEnd) <= Full(full, a + Full(full, a, z), z)
    ensures a + Full(full, a, z) <= moves[i].from < z && full[moves[i].from] && moves[i].to == w + i
    ensures Holes(full, a, m) <= Full(full, moves[i].from + 1, z) < Holes(full, a, end)
  {
    var r, r', goal, q := Holes(full, a, m), Holes(full, a, wEnd), a + Full(full, a, z), moves[i].from;
    assert Source(full, z, r, r', q);
    SourceBeyond(full, z, r, r', q, goal);
    FullMonotone(full, a, wEnd, end);
  }

  /** The moves of all threads. */
  ghost predicate AllMoves(S: seq<nat>, E: seq<nat>, A: seq<nat>, partial: bool, all: seq<seq<Move>>) {
    && Layout(S, E, A, partial) && |all| == |E|
    && forall t :: 0 <= t < |E| ==> ThreadMoves(S, E, A, partial, t, all[t])
  }

  lemma Left(S: seq<nat>, E: seq<nat>, A: seq<nat>, t: nat, b: nat, x: Move)
    requires |S| == |E| + 1 > 1 && t < |E| && Fits(S, E, A, t, b, x)
    ensures b + 1 < |A| && A[b] <= A[b + 1] <= S[|E|] && S[t] <= E[t] <= x.to < S[t + 1] <= S[|E|]
    ensures A[b] <= x.from < A[b + 1] && Max(A[b], S[t]) <= S[t + 1]
    ensures Holes(FullSlots(S, E), A[b], Max(A[b], S[t])) <= Full(FullSlots(S, E), x.from + 1, A[b + 1])
          < Holes(FullSlots(S, E), A[b], S[t + 1])
  {
  }

  lemma RanksApart(full: seq<bool>, A: seq<nat>, n: nat, b: nat, c: nat, p: nat, q: nat, e: nat, m: nat)
    requires Boundaries(A, n) && n == |full| && b + 1 < |A| && c + 1 < |A| && A[b] <= p < A[b + 1]
      && A[c] <= q < A[c + 1]
    requires A[b + 1] <= n && A[b] <= e <= n && A[c] <= m <= n && (b == c ==> e <= m) && A[c + 1] <= n
    requires Full(full, p + 1, A[b + 1]) < Holes(full, A[b], e) && Holes(full, A[c], m) <= Full(full, q + 1, A[c + 1])
    ensures p != q
  {
    hide Full, Boundaries;
    if b < c { BoundaryMono(A, n, b + 1, c); }
    else if c < b { BoundaryMono(A, n, c + 1, b); }
    else { FullMonotone(full, A[b], e, m); }
  }

  /** Moves of different threads share neither source nor destination. */
  lemma ThreadsApart(
      S: seq<nat>, E: seq<nat>, A: seq<nat>, partial: bool, t: nat, u: nat, b: nat, c: nat, x: Move, y: Move)
    requires Layout(S, E, A, partial) && t < u < |E| && Fits(S, E, A, t, b, x) && Fits(S, E, A, u, c, y)
    ensures x.to != y.to && x.from != y.from
  {
    hide Full, Fits;
    StripeMono(S, E, A, partial, t + 1, u);
    Left(S, E, A, t, b, x);
    Left(S, E, A, u, c, y);
    RanksApart(FullSlots(S, E), A, S[|E|], b, c, x.from, y.from, S[t + 1], Max(A[c], S[u]));
  }

  /** Every hole left of a bucket's goal is filled. */
  lemma HoleFilled(S: seq<nat>, E: seq<nat>, A: seq<nat>, partial: bool, all: seq<seq<Move>>, b: nat, q: nat)
      returns (t: nat, i: nat)
    requires AllMoves(S, E, A, partial, all) && b + 1 < |A| && A[b] <= A[b + 1] <= S[|E|]
    requires A[b] <= q < Goal(FullSlots(S, E), A, b) && !FullSlots(S, E)[q]
    ensures t < |all| && i < |all[t]| && all[t][i].to == q
  {
    var full := FullSlots(S, E);
    GoalBalance(full, A[b], A[b + 1]);
    OwnerIs(S, q, |E| - 1);
    t := OwnerFrom(S, q, |E| - 1);
    FullInStripe(S, E, A, partial, t, q);
    if A[b + 1] <= S[t + 1] { NoHolesAtEnd(S, E, A, partial, t, b); }
    StripeMono(S, E, A, partial, t + 1, |E|);
    assert t + 1 < |E|;
    assert Crosses(S, E, A, partial, t, b) && ThreadMoves(S, E, A, partial, t, all[t]);
    i := FilledBy(S, E, A, partial, t, b, all[t], q);
  }

  lemma FilledBy(
      S: seq<nat>, E: seq<nat>, A: seq<nat>, partial: bool, t: nat, b: nat, moves: seq<Move>, q: nat)
      returns (i: nat)
    requires Layout(S, E, A, partial) && t < |E| && b + 1 < |A| && A[b] <= A[b + 1] <= S[|E|]
      && Crosses(S, E, A, partial, t, b)
    requires ThreadMoves(S, E, A, partial, t, moves) && Max(E[t], A[b]) <= q < S[t + 1]
      && q < Goal(FullSlots(S, E), A, b)
    ensures i < |moves| && moves[i].to == q
  {
    hide Crosses, Goal, FullSlots;
    i := q - Max(E[t], A[b]);
  }

  // ---------------------------------------------------------------- any order

  ghost function Flags(live: seq<bool>, x: Move): (r: seq<bool>)
    requires x.from < |live| && x.to < |live|
    ensures |r| == |live|
  {
    live[x.to := true][x.from := false]
  }

  ghost predicate Fresh(live: seq<bool>, n: nat, x: Move) {
    n <= |live| && x.from < n && x.to < n && live[x.from] && !live[x.to]
  }

  ghost predicate Separate(x: Move, y: Move) { x.from != y.from && x.to != y.to }

  /** All moves can be made, whatever comes first. */
  ghost predicate Independent(order: seq<Move>, live: seq<bool>, n: nat) {
    && (forall i :: 0 <= i < |order| ==> Fresh(live, n, order[i]))
    && (forall i, j :: 0 <= i < j < |order| ==> Separate(order[i], order[j]))
  }

  /** The blocks and the live slots after all moves. */
  ghost function After<Bl>(s: seq<Bl>, order: seq<Move>): (u: seq<Bl>)
    requires forall i :: 0 <= i < |order| ==> order[i].from < |s| && order[i].to < |s|
    ensures |u| == |s|
    decreases |order|
  {
    if order == [] then s else After(s[order[0].to := s[order[0].from]], order[1..])
  }

  ghost function LiveAfter(live: seq<bool>, order: seq<Move>): (r: seq<bool>)
    requires forall i :: 0 <= i < |order| ==> order[i].from < |live| && order[i].to < |live|
    ensures |r| == |live|
    decreases |order|
  {
    if order == [] then live else LiveAfter(Flags(live, order[0]), order[1..])
  }

  ghost function Cells<Bl>(s: seq<Bl>, live: seq<bool>): (c: seq<seq<Bl>>)
    requires |s| <= |live|
    ensures |c| == |s|
  {
    seq(|s|, q requires 0 <= q < |s| => if live[q] then [s[q]] else [])
  }

  lemma OneMove<Bl>(s: seq<Bl>, live: seq<bool>, x: Move)
    requires |s| <= |live| && Fresh(live, |s|, x)
    ensures BagOf(Cells(s[x.to := s[x.from]], Flags(live, x))) == BagOf(Cells(s, live))
  {
    var c := Cells(s, live);
    var d := c[x.to := [s[x.from]]];
    Update(c, x.to, [s[x.from]]);
    Update(d, x.from, []);
    assert Cells(s[x.to := s[x.from]], Flags(live, x)) == d[x.from := []];
    assert c[x.to] == [] && d[x.from] == [s[x.from]];
    Shift(BagOf(c), BagOf(d), BagOf(d[x.from := []]), multiset([s[x.from]]));
  }

  lemma Shift<Bl>(c: multiset<Bl>, d: multiset<Bl>, e: multiset<Bl>, x: multiset<Bl>)
    requires d + multiset([]) == c + x && e + x == d + multiset([])
    ensures e == c
  {
    assert e == (e + x) - x == (c + x) - x == c;
  }

  lemma StillIndependent(order: seq<Move>, live: seq<bool>, n: nat)
    requires order != [] && Independent(order, live, n)
    ensures Independent(order[1..], Flags(live, order[0]), n)
  {
    var rest, x, next := order[1..], order[0], Flags(live, order[0]);
    forall i | 0 <= i < |rest| ensures Fresh(next, n, rest[i]) {
      assert Fresh(live, n, order[0]) && Fresh(live, n, order[i + 1]) && Separate(order[0], order[i + 1]);
    }
    forall i, j | 0 <= i < j < |rest|
      ensures Separate(rest[i], rest[j])
    {
      assert Separate(order[i + 1], order[j + 1]);
    }
  }

  /** Independent moves lose no block, in whatever order they are made. */
  lemma {:induction false} AllKept<Bl>(s: seq<Bl>, live: seq<bool>, order: seq<Move>)
    requires |s| <= |live| && Independent(order, live, |s|)
    ensures forall i :: 0 <= i < |order| ==> order[i].from < |s| && order[i].to < |s|
    ensures BagOf(Cells(After(s, order), LiveAfter(live, order))) == BagOf(Cells(s, live))
    decreases |order|
  {
    forall i | 0 <= i < |order| ensures order[i].from < |s| && order[i].to < |s| { assert Fresh(live, |s|, order[i]); }
    if order != [] {
      var x := order[0];
      OneMove(s, live, x);
      StillIndependent(order, live, |s|);
      AllKept(s[x.to := s[x.from]], Flags(live, x), order[1..]);
    }
  }

  /** A slot is live in the end if it was a destination, or was live and no source. */
  lemma {:induction false} LiveInTheEnd(live: seq<bool>, order: seq<Move>, n: nat, q: nat)
    requires n <= |live| && Independent(order, live, n) && q < |live|
    ensures forall i :: 0 <= i < |order| ==> order[i].from < |live| && order[i].to < |live|
    ensures (exists i :: 0 <= i < |order| && order[i].to == q) ==> LiveAfter(live, order)[q]
    ensures live[q] && (forall i :: 0 <= i < |order| ==> order[i].from != q) ==> LiveAfter(live, order)[q]
    decreases |order|
  {
    forall i | 0 <= i < |order|
      ensures order[i].from < |live| && order[i].to < |live|
    {
      assert Fresh(live, n, order[i]);
    }
    if order != [] {
      var x, rest := order[0], order[1..];
      StillIndependent(order, live, n);
      LiveInTheEnd(Flags(live, x), rest, n, q);
      if i :| 0 <= i < |order| && order[i].to == q {
        if i > 0 { assert rest[i - 1].to == q; }
        else {
          forall j | 0 <= j < |rest|
            ensures rest[j].from != q
          {
            assert Fresh(live, n, order[j + 1]) && Fresh(live, n, x);
          }
        }
      }
    }
  }

  lemma {:induction false} FullUpdate(full: seq<bool>, x: nat, y: nat, i: nat, b: bool)
    requires x <= i < y <= |full|
    ensures Full(full[i := b], x, y) + (if full[i] then 1 else 0) == Full(full, x, y) + (if b then 1 else 0)
    decreases y
  {
    if i < y - 1 {
      FullUpdate(full, x, y - 1, i, b);
    } else {
      FullSame(full, full[i := b], x, y - 1);
    }
  }

  lemma {:induction false} FullSame(full: seq<bool>, full': seq<bool>, x: nat, y: nat)
    requires y <= |full| == |full'| && forall q :: x <= q < y ==> full[q] == full'[q]
    ensures Full(full, x, y) == Full(full', x, y)
    decreases y
  {
    if x < y { FullSame(full, full', x, y - 1); }
  }

  lemma {:induction false} CountKept(live: seq<bool>, order: seq<Move>, n: nat)
    requires n <= |live| && Independent(order, live, n)
    ensures forall i :: 0 <= i < |order| ==> order[i].from < |live| && order[i].to < |live|
    ensures Full(LiveAfter(live, order), 0, |live|) == Full(live, 0, |live|)
    decreases |order|
  {
    forall i | 0 <= i < |order|
      ensures order[i].from < |live| && order[i].to < |live|
    {
      assert Fresh(live, n, order[i]);
    }
    if order != [] {
      var x := order[0];
      assert Fresh(live, n, x);
      FullUpdate(live, 0, |live|, x.to, true);
      FullUpdate(live[x.to := true], 0, |live|, x.from, false);
      StillIndependent(order, live, n);
      CountKept(Flags(live, x), order[1..], n);
    }
  }

  // ---------------------------------------------------------------- bags of separate moves

  ghost predicate SeparateList(ms: seq<Move>) {
    forall i, j :: 0 <= i < j < |ms| ==> Separate(ms[i], ms[j])
  }

  ghost predicate SeparateLists(all: seq<seq<Move>>) {
    && (forall t :: 0 <= t < |all| ==> SeparateList(all[t]))
    && (forall t, u, i, j :: 0 <= t < u < |all| && 0 <= i < |all[t]| && 0 <= j < |all[u]| ==>
         Separate(all[t][i], all[u][j]))
  }

  lemma {:induction false} OnceInList(ms: seq<Move>, x: Move)
    requires SeparateList(ms)
    ensures multiset(ms)[x] <= 1
  {
    if ms != [] {
      assert ms == [ms[0]] + ms[1..];
      forall i, j | 0 <= i < j < |ms[1..]|
        ensures Separate(ms[1..][i], ms[1..][j])
      {
        assert Separate(ms[i + 1], ms[j + 1]);
      }
      OnceInList(ms[1..], x);
      forall j | 0 <= j < |ms[1..]| ensures ms[1..][j] != ms[0] { assert Separate(ms[0], ms[j + 1]); }
    }
  }

  lemma SeparateTail(all: seq<seq<Move>>)
    requires SeparateLists(all) && all != []
    ensures SeparateLists(all[1..]) && SeparateList(all[0])
  {
    var rest := all[1..];
    forall t | 0 <= t < |rest| ensures SeparateList(rest[t]) { assert SeparateList(all[t + 1]); }
    forall t, u, i, j | 0 <= t < u < |rest| && 0 <= i < |rest[t]| && 0 <= j < |rest[u]|
      ensures Separate(rest[t][i], rest[u][j])
    {
      assert Separate(all[t + 1][i], all[u + 1][j]);
    }
  }

  lemma NeverEqual(all: seq<seq<Move>>, u: nat, i: nat, j: nat)
    requires SeparateLists(all) && 0 < u < |all| && i < |all[0]| && j < |all[u]|
    ensures all[0][i] != all[u][j]
  {
    assert Separate(all[0][i], all[u][j]);
  }

  lemma {:induction false} OnceInBag(all: seq<seq<Move>>, x: Move)
    requires SeparateLists(all)
    ensures BagOf(all)[x] <= 1
  {
    hide SeparateLists;
    if all != [] {
      SeparateTail(all);
      OnceInBag(all[1..], x);
      OnceInList(all[0], x);
      if x in multiset(all[0]) && x in BagOf(all[1..]) {
        var i :| 0 <= i < |all[0]| && all[0][i] == x;
        var u, j := FromBag(all[1..], x);
        NeverEqual(all, u + 1, i, j);
      }
    }
  }

  lemma TwiceInOrder<X>(order: seq<X>, i: nat, j: nat)
    requires i < j < |order| && order[i] == order[j]
    ensures multiset(order)[order[i]] >= 2
  {
    assert order == order[..j] + [order[j]] + order[j + 1..];
    assert order[..j][i] == order[i];
    assert order[i] in multiset(order[..j]);
  }

  lemma SeparateInOrder(all: seq<seq<Move>>, order: seq<Move>, i: nat, j: nat)
    requires SeparateLists(all) && multiset(order) == BagOf(all) && i < j < |order|
    ensures Separate(order[i], order[j])
  {
    var x, y := order[i], order[j];
    assert x in multiset(order) && y in multiset(order);
    OnceInBag(all, x);
    if x == y { TwiceInOrder(order, i, j); }
    var t, k := FromBag(all, x);
    var u, l := FromBag(all, y);
    if t == u {
      assert SeparateList(all[t]);
      assert if k < l then Separate(all[t][k], all[t][l]) else Separate(all[t][l], all[t][k]);
    } else {
      assert if t < u then Separate(all[t][k], all[u][l]) else Separate(all[u][l], all[t][k]);
    }
  }

  // ---------------------------------------------------------------- the result

  lemma ThreadSeparate(S: seq<nat>, E: seq<nat>, A: seq<nat>, partial: bool, t: nat, moves: seq<Move>)
    requires Layout(S, E, A, partial) && t < |E| && ThreadMoves(S, E, A, partial, t, moves)
    ensures SeparateList(moves)
  {
    if moves != [] {
      var b := CrossingBucket(S, E, A, partial, t, moves);
      hide ThreadMoves, Crosses, Full, Layout, FullSlots, Source;
      forall i, j | 0 <= i < j < |moves| ensures Separate(moves[i], moves[j]) {
      }
    }
  }

  lemma AllSeparate(S: seq<nat>, E: seq<nat>, A: seq<nat>, partial: bool, all: seq<seq<Move>>)
    requires AllMoves(S, E, A, partial, all)
    ensures SeparateLists(all)
  {
    forall t | 0 <= t < |all| ensures SeparateList(all[t]) { ThreadSeparate(S, E, A, partial, t, all[t]); }
    forall t, u, i, j | 0 <= t < u < |all| && 0 <= i < |all[t]| && 0 <= j < |all[u]|
      ensures Separate(all[t][i], all[u][j])
    {
      var b := MoveFits(S, E, A, partial, t, all[t], i);
      var c := MoveFits(S, E, A, partial, u, all[u], j);
      ThreadsApart(S, E, A, partial, t, u, b, c, all[t][i], all[u][j]);
    }
  }

  lemma FitsFresh(S: seq<nat>, E: seq<nat>, A: seq<nat>, partial: bool, t: nat, b: nat, x: Move, n: nat)
    requires Layout(S, E, A, partial) && t < |E| && Fits(S, E, A, t, b, x)
    requires n == S[|E|] - (if partial then 1 else 0)
    ensures Fresh(FullSlots(S, E), n, x)
  {
    StripeMono(S, E, A, partial, t + 1, |E| - 1);
    OwnerIs(S, x.from, |E| - 1);
    var u := OwnerFrom(S, x.from, |E| - 1);
    EnoughRoom(S, E, A, partial, u, n);
  }

  lemma AllIndependent(
      S: seq<nat>, E: seq<nat>, A: seq<nat>, partial: bool, all: seq<seq<Move>>, order: seq<Move>, n: nat)
    requires AllMoves(S, E, A, partial, all) && multiset(order) == BagOf(all)
    requires n == S[|E|] - (if partial then 1 else 0)
    ensures Independent(order, FullSlots(S, E), n)
  {
    AllSeparate(S, E, A, partial, all);
    forall i | 0 <= i < |order| ensures Fresh(FullSlots(S, E), n, order[i]) {
      var t, b := OrderFits(S, E, A, partial, all, order, i);
      FitsFresh(S, E, A, partial, t, b, order[i], n);
    }
    forall i, j | 0 <= i < j < |order| ensures Separate(order[i], order[j]) { SeparateInOrder(all, order, i, j); }
  }

  lemma OrderFits(S: seq<nat>, E: seq<nat>, A: seq<nat>, partial: bool, all: seq<seq<Move>>, order: seq<Move>, i: nat)
      returns (t: nat, b: nat)
    requires AllMoves(S, E, A, partial, all) && multiset(order) == BagOf(all) && i < |order|
    ensures t < |E| && |S| == |E| + 1 > 1 && Fits(S, E, A, t, b, order[i])
  {
    assert order[i] in multiset(order);
    var k;
    t, k := FromBag(all, order[i]);
    b := MoveFits(S, E, A, partial, t, all[t], k);
  }

  lemma PrefixLive(
      S: seq<nat>, E: seq<nat>, A: seq<nat>, partial: bool, all: seq<seq<Move>>, order: seq<Move>, n: nat, b: nat,
      q: nat)
    requires AllMoves(S, E, A, partial, all) && multiset(order) == BagOf(all)
    requires n == S[|E|] - (if partial then 1 else 0) && b + 1 < |A| && A[b] <= A[b + 1] <= S[|E|]
    requires A[b] <= q < Goal(FullSlots(S, E), A, b)
    ensures forall i :: 0 <= i < |order| ==> order[i].from < S[|E|] && order[i].to < S[|E|]
    ensures q < S[|E|] && LiveAfter(FullSlots(S, E), order)[q]
  {
    var full := FullSlots(S, E);
    AllIndependent(S, E, A, partial, all, order, n);
    GoalBalance(full, A[b], A[b + 1]);
    LiveInTheEnd(full, order, n, q);
    if full[q] {
      forall i | 0 <= i < |order| ensures order[i].from != q {
        var t, c := OrderFits(S, E, A, partial, all, order, i);
        if c < b { BoundaryMono(A, S[|E|], c + 1, b); } else if b < c { BoundaryMono(A, S[|E|], b + 1, c); }
      }
    } else {
      var t, i := HoleFilled(S, E, A, partial, all, b, q);
      InBag(all, t, all[t][i]);
      assert all[t][i] in multiset(order);
      var j :| 0 <= j < |order| && order[j] == all[t][i];
    }
  }

  /** If every bucket has at least its share of live slots, it has no more. */
  lemma {:induction false} ShareAtLeast(full: seq<bool>, live: seq<bool>, A: seq<nat>, b: nat, c: nat)
    requires |live| == |full| && b <= c < |A| && Boundaries(A, |full|)
    requires forall d :: 0 <= d < |A| - 1 ==> Enough(full, live, A, d)
    ensures A[b] <= A[c] <= |full| && Full(full, A[b], A[c]) <= Full(live, A[b], A[c])
    decreases c
  {
    BoundaryMono(A, |full|, b, c);
    if b < c {
      ShareAtLeast(full, live, A, b, c - 1);
      assert Enough(full, live, A, c - 1);
      FullSplit(full, A[b], A[c - 1], A[c]);
      FullSplit(live, A[b], A[c - 1], A[c]);
    }
  }

  ghost predicate Enough(full: seq<bool>, live: seq<bool>, A: seq<nat>, b: nat)
    requires |live| == |full| && b + 1 < |A|
  {
    A[b] <= A[b + 1] <= |full| && Full(full, A[b], A[b + 1]) <= Full(live, A[b], A[b + 1])
  }

  lemma ShareExact(full: seq<bool>, live: seq<bool>, A: seq<nat>, b: nat)
    requires |live| == |full| && b + 1 < |A| && Boundaries(A, |full|)
    requires forall d :: 0 <= d < |A| - 1 ==> Enough(full, live, A, d)
    requires Full(live, 0, |full|) == Full(full, 0, |full|)
    ensures A[b] <= A[b + 1] <= |full| && Full(live, A[b], A[b + 1]) == Full(full, A[b], A[b + 1])
  {
    ShareAtLeast(full, live, A, 0, b);
    ShareAtLeast(full, live, A, b, b + 1);
    ShareAtLeast(full, live, A, b + 1, |A| - 1);
    FullSplit(full, 0, A[b], A[b + 1]);
    FullSplit(live, 0, A[b], A[b + 1]);
    FullSplit(full, 0, A[b + 1], |full|);
    FullSplit(live, 0, A[b + 1], |full|);
  }

  lemma {:induction false} NoneLive(live: seq<bool>, x: nat, y: nat, q: nat)
    requires x <= q < y <= |live| && Full(live, x, y) == 0
    ensures !live[q]
    decreases y
  {
    if q < y - 1 { NoneLive(live, x, y - 1, q); }
  }

  /**
   * All threads' moves, in any order: every bucket ends up with full blocks up to its goal and empty slots
   * from there on, and the full blocks are a rearrangement of the original ones.
   */
  lemma AnyOrder<Bl>(
      S: seq<nat>, E: seq<nat>, A: seq<nat>, partial: bool, all: seq<seq<Move>>, order: seq<Move>, s: seq<Bl>, b: nat,
      q: nat)
    requires AllMoves(S, E, A, partial, all) && multiset(order) == BagOf(all)
    requires |s| == S[|E|] - (if partial then 1 else 0) && b + 1 < |A| && A[b] <= q < A[b + 1]
    ensures A[b + 1] <= S[|E|]
    ensures forall i :: 0 <= i < |order| ==> order[i].from < |s| && order[i].to < |s|
    ensures LiveAfter(FullSlots(S, E), order)[q] <==> q < Goal(FullSlots(S, E), A, b)
    ensures BagOf(Cells(After(s, order), LiveAfter(FullSlots(S, E), order))) == BagOf(Cells(s, FullSlots(S, E)))
  {
    var full, n := FullSlots(S, E), |s|;
    BoundaryMono(A, S[|E|], b + 1, |A| - 1);
    AllIndependent(S, E, A, partial, all, order, n);
    AllKept(s, full, order);
    CountKept(full, order, n);
    var live := LiveAfter(full, order);
    forall d | 0 <= d < |A| - 1 ensures Enough(full, live, A, d) { BucketEnough(S, E, A, partial, all, order, n, d); }
    if q < Goal(full, A, b) {
      PrefixLive(S, E, A, partial, all, order, n, b, q);
    } else {
      ShareExact(full, live, A, b);
      GoalBalance(full, A[b], A[b + 1]);
      BucketPrefix(S, E, A, partial, all, order, n, b);
      FullSplit(live, A[b], Goal(full, A, b), A[b + 1]);
      NoneLive(live, Goal(full, A, b), A[b + 1], q);
    }
  }

  lemma BucketPrefix(
      S: seq<nat>, E: seq<nat>, A: seq<nat>, partial: bool, all: seq<seq<Move>>, order: seq<Move>, n: nat, d: nat)
    requires AllMoves(S, E, A, partial, all) && multiset(order) == BagOf(all)
    requires n == S[|E|] - (if partial then 1 else 0) && d + 1 < |A| && A[d] <= A[d + 1] <= S[|E|]
    ensures forall i :: 0 <= i < |order| ==> order[i].from < S[|E|] && order[i].to < S[|E|]
    ensures Goal(FullSlots(S, E), A, d) <= A[d + 1]
    ensures Full(LiveAfter(FullSlots(S, E), order), A[d], Goal(FullSlots(S, E), A, d))
      == Full(FullSlots(S, E), A[d], A[d + 1])
  {
    var full := FullSlots(S, E);
    AllIndependent(S, E, A, partial, all, order, n);
    forall i | 0 <= i < |order|
      ensures order[i].from < S[|E|] && order[i].to < S[|E|]
    {
      assert Fresh(full, n, order[i]);
    }
    GoalBalance(full, A[d], A[d + 1]);
    var live := LiveAfter(full, order);
    forall q | A[d] <= q < Goal(full, A, d) ensures live[q] { PrefixLive(S, E, A, partial, all, order, n, d, q); }
    FullAll(live, A[d], Goal(full, A, d), true);
  }

  lemma BucketEnough(
      S: seq<nat>, E: seq<nat>, A: seq<nat>, partial: bool, all: seq<seq<Move>>, order: seq<Move>, n: nat, d: nat)
    requires AllMoves(S, E, A, partial, all) && multiset(order) == BagOf(all)
    requires n == S[|E|] - (if partial then 1 else 0) && d + 1 < |A|
    ensures forall i :: 0 <= i < |order| ==> order[i].from < S[|E|] && order[i].to < S[|E|]
    ensures Enough(FullSlots(S, E), LiveAfter(FullSlots(S, E), order), A, d)
  {
    BoundaryMono(A, S[|E|], d, d + 1);
    BoundaryMono(A, S[|E|], d + 1, |A| - 1);
    BucketPrefix(S, E, A, partial, all, order, n, d);
    var full := FullSlots(S, E);
    FullMonotone(LiveAfter(full, order), A[d], Goal(full, A, d), A[d + 1]);
  }
}
