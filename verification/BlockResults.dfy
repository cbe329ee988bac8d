/** What every interleaving of the block permutation guarantees. */
module BlockResults {
  import opened Bags
  import opened Powers
  import opened Schedules
  import opened BlockProtocol
  import opened BlockInvariant

  /** Full blocks of the array before the phase, as local classification leaves them. */
  ghost predicate Start<Bl(!new)>(p: Layout<Bl>, mem: seq<Bl>) {
    && Valid(p) && |mem| == p.whole
    && forall q :: 0 <= q < |p.blocks| && p.blocks[q].Some? ==> q < p.whole && p.blocks[q] == Some(mem[q])
  }

  ghost predicate Schedule<Bl>(p: Layout<Bl>, order: seq<nat>) {
    forall i :: 0 <= i < |order| ==> order[i] < |p.first|
  }

  ghost function After<Bl(!new)>(p: Layout<Bl>, mem: seq<Bl>, order: seq<nat>): (s: State<Bl>)
    requires Start(p, mem) && Schedule(p, order)
    ensures Inv(p, s) && |s.workers| == |p.first|
  {
    InitInv(p, mem);
    Run(p, Init(p, mem), order)
  }

  /**
   * Exclusion. While a thread copies out of a slot, the slot keeps the block the thread claimed,
   * no other thread copies out of it, and none writes or swaps it. Two threads never hold the same
   * slot for writing.
   */
  lemma NoConflict<Bl(!new)>(p: Layout<Bl>, mem: seq<Bl>, order: seq<nat>, t: nat, u: nat, q: nat)
    requires Start(p, mem) && Schedule(p, order) && t < |p.first| && u < |p.first| && t != u
    ensures var s := After(p, mem, order);
      && (s.workers[t].phase == Copying(q) ==>
           && q < |s.mem| && s.owned[t] == Some(s.mem[q])
           && s.workers[u].phase != Copying(q) && s.workers[u].phase != Writing(q) && s.workers[u].phase != Swapping(q))
      && (Pending(s.workers[t].phase, q) ==> !Pending(s.workers[u].phase, q))
  {
    var s := After(p, mem, order);
    assert WorkerOk(p, s, t) && WorkerOk(p, s, u);
    hide Slots, Workers, Readers, Behind, Spills, Ledger, Basic, Run;
    if s.workers[t].phase == Copying(q) {
      assert NoClash(q, s.workers[u].phase, false);
    }
  }

  /** Write bound. No write pointer leaves its bucket, in any state of any run. */
  lemma PointersStayInside<Bl(!new)>(p: Layout<Bl>, mem: seq<Bl>, order: seq<nat>, b: nat)
    requires Start(p, mem) && Schedule(p, order) && b < Num(p)
    ensures var s := After(p, mem, order);
      p.start[b] <= s.w[b] <= p.start[b] + Count(p.blocks, IsOf(p.cls, b)) <= p.start[b + 1]
  {
    var s := After(p, mem, order);
    CellsCount(p, s, b);
    assert Owns(p, b);
    forall q | p.start[b] <= q < s.w[b] ensures q < |s.res| && IsOf(p.cls, b)(s.res[q]) {
      assert p.owner[q] == b && Slot(p, s, q);
    }
    CountRange(s.res, p.start[b], s.w[b], IsOf(p.cls, b));
  }

  /** Single overflow. At most one thread fills its overflow buffer, and only with a block of the
      bucket that owns the slot past the last whole block. */
  lemma OneOverflow<Bl(!new)>(p: Layout<Bl>, mem: seq<Bl>, order: seq<nat>, t: nat)
    requires Start(p, mem) && Schedule(p, order) && t < |p.first|
    ensures var s := After(p, mem, order);
      s.workers[t].spill.Some? ==>
        && p.whole < |p.owner| && p.cls(s.workers[t].spill.value) == p.owner[p.whole]
        && s.w[p.owner[p.whole]] == p.start[p.owner[p.whole] + 1] == p.whole + 1
        && forall u :: 0 <= u < |p.first| && u != t ==> s.workers[u].spill == None
  {
    var s := After(p, mem, order);
    if s.workers[t].spill.Some? {
      assert s.spiller == Some(t);
      assert Slot(p, s, p.whole) && Owns(p, p.owner[p.whole]);
    }
  }

  // ---------------------------------------------------------------- final states

  ghost predicate AllDone<Bl>(s: State<Bl>) {
    |s.workers| > 0 && forall t :: 0 <= t < |s.workers| ==> s.workers[t].phase.Finished?
  }

  lemma RemainderIs(a: nat, q: nat, r: nat, n: nat)
    requires a == q * n + r && r < n
    ensures a % n == r
  {
    var k := a / n;
    assert a == k * n + a % n;
    if k < q { MulLess(k, q, n); }
    if q < k { MulLess(q, k, n); }
  }

  lemma VisitedAll(n: nat, first: nat, b: nat) returns (i: nat)
    requires n > 0 && first < n && b < n
    ensures i < n && At(n, first, i) == b
  {
    if first <= b {
      i := b - first;
      RemainderIs(b, 0, b, n);
    } else {
      i := b + n - first;
      RemainderIs(b + n, 1, b, n);
    }
  }

  lemma DoneDrained<Bl(!new)>(p: Layout<Bl>, s: State<Bl>, b: nat)
    requires Inv(p, s) && AllDone(s) && b < Num(p)
    ensures s.r[b] < s.w[b]
  {
    assert WorkerOk(p, s, 0) && LeftBehind(p, s, s.workers[0]);
    var i := VisitedAll(Num(p), p.first[0], b);
    assert Drained(s, At(Num(p), s.workers[0].first, i));
  }

  /** Slot q after the phase; the slot past the whole blocks stands for the overflow buffer. */
  ghost function Content<Bl>(p: Layout<Bl>, s: State<Bl>, q: nat): Option<Bl>
    requires q < |p.owner| && p.owner[q] < |s.w| && |s.mem| == p.whole
  {
    if q >= s.w[p.owner[q]] then None
    else if q < p.whole then Some(s.mem[q])
    else if s.spiller.Some? && s.spiller.value < |s.workers| then s.workers[s.spiller.value].spill
    else None
  }

  ghost function Contents<Bl(!new)>(p: Layout<Bl>, s: State<Bl>): seq<Option<Bl>>
    requires Inv(p, s)
  {
    seq(|p.owner|, q requires 0 <= q < |p.owner| => Content(p, s, q))
  }

  lemma DoneSlot<Bl(!new)>(p: Layout<Bl>, s: State<Bl>, q: nat)
    requires Inv(p, s) && AllDone(s) && q < |p.owner|
    ensures Content(p, s, q) == s.res[q] && s.un[q] == None
  {
    assert Slot(p, s, q);
    DoneDrained(p, s, p.owner[q]);
  }

  lemma DoneCells<Bl(!new)>(p: Layout<Bl>, s: State<Bl>)
    requires Inv(p, s) && AllDone(s)
    ensures Contents(p, s) == s.res && s.un == Nones(|p.blocks|) && s.owned == Nones(|p.first|)
  {
    forall q | 0 <= q < |p.owner| ensures Content(p, s, q) == s.res[q] && s.un[q] == None { DoneSlot(p, s, q); }
    forall t | 0 <= t < |s.workers| ensures s.owned[t] == None { assert WorkerOk(p, s, t); }
  }

  lemma DoneLedger<Bl(!new)>(p: Layout<Bl>, s: State<Bl>)
    requires Inv(p, s) && AllDone(s)
    ensures Contents(p, s) == s.res && multiset(s.res) == multiset(p.blocks)
  {
    DoneCells(p, s);
    CellsBag(s);
    var n, m := Nones<Bl>(|p.blocks|), Nones<Bl>(|p.first|);
    CancelAround(multiset(n), multiset(m), multiset(s.res), multiset(p.blocks));
  }

  /**
   * Conservation and placement. Once all threads are done, every bucket consists of exactly its own
   * blocks followed by empty slots, and the placed blocks are a rearrangement of the original ones.
   */
  lemma Placement<Bl(!new)>(p: Layout<Bl>, mem: seq<Bl>, order: seq<nat>)
    requires Start(p, mem) && Schedule(p, order) && AllDone(After(p, mem, order))
    ensures var s := After(p, mem, order);
      && multiset(Contents(p, s)) == multiset(p.blocks)
      && (forall b :: 0 <= b < Num(p) ==> s.w[b] - p.start[b] == Count(p.blocks, IsOf(p.cls, b)))
      && (forall q :: 0 <= q < |p.owner| ==>
           if q < s.w[p.owner[q]] then IsOf(p.cls, p.owner[q])(Content(p, s, q)) else Content(p, s, q) == None)
  {
    var s := After(p, mem, order);
    DoneLedger(p, s);
    forall q | 0 <= q < |p.owner|
      ensures if q < s.w[p.owner[q]] then IsOf(p.cls, p.owner[q])(Content(p, s, q)) else Content(p, s, q) == None
    {
      DoneSlot(p, s, q);
      assert Slot(p, s, q);
    }
    forall b | 0 <= b < Num(p) ensures s.w[b] - p.start[b] == Count(p.blocks, IsOf(p.cls, b)) {
      PlacedCount(p, s, b);
    }
  }

  lemma ReservedBy<Bl(!new)>(p: Layout<Bl>, s: State<Bl>, b: nat, q: nat)
    requires Inv(p, s) && AllDone(s) && b < Num(p) && q < |s.res|
    ensures IsOf(p.cls, b)(s.res[q]) <==> p.start[b] <= q < s.w[b]
  {
    assert Slot(p, s, q) && Owns(p, b);
    assert p.start[b] <= q < s.w[b] ==> p.owner[q] == b;
  }

  lemma PlacedCount<Bl(!new)>(p: Layout<Bl>, s: State<Bl>, b: nat)
    requires Inv(p, s) && AllDone(s) && b < Num(p)
    ensures s.w[b] - p.start[b] == Count(p.blocks, IsOf(p.cls, b))
  {
    var f := IsOf(p.cls, b);
    DoneLedger(p, s);
    CountOfBag(s.res, p.blocks, f);
    assert Owns(p, b);
    var lo, hi := p.start[b], s.w[b];
    forall q | 0 <= q < |s.res| ensures f(s.res[q]) <==> lo <= q < hi { ReservedBy(p, s, b, q); }
    CountExactly(s.res, f, lo, hi);
  }

  lemma CountExactly<X>(s: seq<X>, f: X -> bool, lo: nat, hi: nat)
    requires lo <= hi <= |s| && forall q :: 0 <= q < |s| ==> (f(s[q]) <==> lo <= q < hi)
    ensures Count(s, f) == hi - lo
  {
    CountSplit(s, hi, f);
    CountSplit(s[..hi], lo, f);
    CountNone(s[..hi][..lo], f);
    CountAll(s[..hi][lo..], f);
    CountNone(s[hi..], f);
  }

  // ---------------------------------------------------------------- progress

  ghost function Rank(ph: Phase): nat {
    match ph
    case Ready => 2
    case Entered => 1
    case Copying(_) => 9
    case Copied => 8
    case Refused => 0
    case Placing => 7
    case Swapping(_) => 6
    case Spinning(_) => 5
    case Writing(_) => 4
    case Finished => 0
  }

  ghost function Todo<Bl>(n: nat, wk: Worker<Bl>): nat {
    Rank(wk.phase) + 10 * (if wk.visited <= n then n - wk.visited else 0)
  }

  ghost function TotalTodo<Bl>(n: nat, ws: seq<Worker<Bl>>): nat {
    if ws == [] then 0 else Todo(n, ws[0]) + TotalTodo(n, ws[1..])
  }

  lemma {:induction false} TotalTodoUpdate<Bl>(n: nat, ws: seq<Worker<Bl>>, t: nat, wk: Worker<Bl>)
    requires t < |ws|
    ensures TotalTodo(n, ws[t := wk]) + Todo(n, ws[t]) == TotalTodo(n, ws) + Todo(n, wk)
  {
    if t > 0 {
      assert ws[t := wk][1..] == ws[1..][t - 1 := wk];
      TotalTodoUpdate(n, ws[1..], t - 1, wk);
    } else {
      assert ws[t := wk][1..] == ws[1..];
    }
  }

  ghost function Unread<Bl>(): Option<Bl> -> bool { (o: Option<Bl>) => o.Some? }

  /** An upper bound on the actions still to come. */
  ghost function Work<Bl(!new)>(p: Layout<Bl>, s: State<Bl>): nat {
    10 * Count(s.un, Unread()) + TotalTodo(Num(p), s.workers)
  }

  /** The only actions that change nothing: a finished thread, and a spin test that found a reader. */
  ghost predicate Blocked<Bl(!new)>(p: Layout<Bl>, s: State<Bl>, t: nat)
    requires Inv(p, s) && t < |s.workers|
  {
    assert WorkerOk(p, s, t);
    s.workers[t].phase.Finished?
    || (s.workers[t].phase.Spinning? && s.reading[p.cls(s.workers[t].held.value)] != 0)
  }

  lemma UnreadTaken<Bl>(un: seq<Option<Bl>>, q: nat)
    requires q < |un| && un[q].Some?
    ensures Count(un[q := None], Unread()) == Count(un, Unread()) - 1
  {
    CountUpdate(un, q, None, Unread());
  }

  lemma WorkChange<Bl(!new)>(p: Layout<Bl>, s: State<Bl>, s': State<Bl>, t: nat)
    requires t < |s.workers| == |s'.workers| && s'.workers == s.workers[t := s'.workers[t]]
    ensures Work(p, s') + 10 * Count(s.un, Unread()) + Todo(Num(p), s.workers[t])
         == Work(p, s) + 10 * Count(s'.un, Unread()) + Todo(Num(p), s'.workers[t])
  {
    TotalTodoUpdate(Num(p), s.workers, t, s'.workers[t]);
  }

  lemma TakeWorks<Bl(!new)>(p: Layout<Bl>, s: State<Bl>, t: nat)
    requires Inv(p, s) && t < |s.workers| && s.workers[t].phase.Entered?
    ensures Work(p, Step(p, s, t)) < Work(p, s)
  {
    ReadBound(p, s, t);
    WorkChange(p, s, Step(p, s, t), t);
    var b := Bucket(p, s.workers[t]);
    if s.w[b] <= s.r[b] { UnreadTaken(s.un, s.r[b]); }
  }

  lemma PlaceWorks<Bl(!new)>(p: Layout<Bl>, s: State<Bl>, t: nat)
    requires Inv(p, s) && t < |s.workers| && s.workers[t].phase.Placing?
    ensures Work(p, Step(p, s, t)) < Work(p, s)
  {
    WriteBound(p, s, t);
    hide Slots, Workers, Exclusion, Readers, Behind, Spills, Ledger, Basic;
    WorkChange(p, s, Step(p, s, t), t);
  }

  lemma SwapWorks<Bl(!new)>(p: Layout<Bl>, s: State<Bl>, t: nat)
    requires Inv(p, s) && t < |s.workers| && s.workers[t].phase.Swapping?
    ensures Work(p, Step(p, s, t)) < Work(p, s)
  {
    assert WorkerOk(p, s, t);
    WorkChange(p, s, Step(p, s, t), t);
    UnreadTaken(s.un, s.workers[t].phase.at);
  }

  /** Every action that is not blocked does part of the bounded work. */
  lemma StepWorks<Bl(!new)>(p: Layout<Bl>, s: State<Bl>, t: nat)
    requires Inv(p, s) && t < |s.workers|
    ensures Blocked(p, s, t) ==> Step(p, s, t) == s
    ensures !Blocked(p, s, t) ==> Work(p, Step(p, s, t)) < Work(p, s)
  {
    assert WorkerOk(p, s, t);
    hide Work, Todo;
    match s.workers[t].phase
    case Entered => TakeWorks(p, s, t);
    case Placing => PlaceWorks(p, s, t);
    case Swapping(q) => SwapWorks(p, s, t);
    case Finished =>
    case _ => LocalWorks(p, s, t);
  }

  lemma LocalWorks<Bl(!new)>(p: Layout<Bl>, s: State<Bl>, t: nat)
    requires Inv(p, s) && t < |s.workers|
    requires var ph := s.workers[t].phase; !ph.Entered? && !ph.Placing? && !ph.Swapping? && !ph.Finished?
    ensures !Blocked(p, s, t) ==> Work(p, Step(p, s, t)) < Work(p, s)
  {
    assert WorkerOk(p, s, t);
    hide Slots, Workers, Exclusion, Readers, Behind, Spills, Ledger, Basic;
    WorkChange(p, s, Step(p, s, t), t);
  }

  lemma {:induction false} SomeReader<X>(s: seq<X>, f: X -> bool) returns (u: nat)
    requires Count(s, f) > 0
    ensures u < |s| && f(s[u])
  {
    if f(s[0]) { u := 0; } else { u := SomeReader(s[1..], f); u := u + 1; }
  }

  lemma ReaderCount<Bl(!new)>(p: Layout<Bl>, s: State<Bl>, t: nat) returns (u: nat)
    requires Inv(p, s) && t < |s.workers| && s.workers[t].phase.Spinning? && Blocked(p, s, t)
    ensures u < |s.workers| && Inside(s.workers[u].phase)
  {
    assert WorkerOk(p, s, t);
    u := SomeReader(s.workers, Reads(Num(p), p.cls(s.workers[t].held.value)));
  }

  /** No deadlock: as long as some thread is not finished, some thread can act. */
  lemma NoDeadlock<Bl(!new)>(p: Layout<Bl>, s: State<Bl>) returns (u: nat)
    requires Inv(p, s) && |s.workers| > 0 && !AllDone(s)
    ensures u < |s.workers| && !Blocked(p, s, u) && Work(p, Step(p, s, u)) < Work(p, s)
  {
    var t :| 0 <= t < |s.workers| && !s.workers[t].phase.Finished?;
    u := t;
    if Blocked(p, s, t) { u := ReaderCount(p, s, t); }
    StepWorks(p, s, u);
  }

  // ---------------------------------------------------------------- fair schedules

  /** Every thread that is not finished gets to act again. A finished thread's actions do nothing. */
  ghost predicate Fair<Bl(!new)>(p: Layout<Bl>, mem: seq<Bl>, f: nat -> nat)
    requires Start(p, mem) && Endless(f, |p.first|)
  {
    forall k: nat, t: nat ::
      t < |p.first| && !Reached(p, mem, f, k).workers[t].phase.Finished? ==> ActsAfter(f, k, t)
  }

  ghost function Prefix(f: nat -> nat, k: nat): (order: seq<nat>)
    ensures |order| == k && forall i :: 0 <= i < k ==> order[i] == f(i)
  {
    seq(k, i requires 0 <= i < k => f(i))
  }

  /** The state after k actions. */
  ghost function Reached<Bl(!new)>(p: Layout<Bl>, mem: seq<Bl>, f: nat -> nat, k: nat): (s: State<Bl>)
    requires Start(p, mem) && Endless(f, |p.first|)
    ensures Inv(p, s) && |s.workers| == |p.first|
  {
    After(p, mem, Prefix(f, k))
  }

  lemma {:induction false} RunNext<Bl(!new)>(p: Layout<Bl>, s: State<Bl>, order: seq<nat>, t: nat)
    requires Inv(p, s) && t < |s.workers| && forall i :: 0 <= i < |order| ==> order[i] < |s.workers|
    ensures Run(p, s, order + [t]) == Step(p, Run(p, s, order), t)
    decreases |order|
  {
    hide Inv, Step;
    if order == [] {
      assert [t][1..] == [];
    } else {
      StepFits(p, s, order);
      assert (order + [t])[0] == order[0] && (order + [t])[1..] == order[1..] + [t];
      StepFits(p, s, order + [t]);
      RunNext(p, Step(p, s, order[0]), order[1..], t);
    }
  }

  lemma ReachedNext<Bl(!new)>(p: Layout<Bl>, mem: seq<Bl>, f: nat -> nat, k: nat)
    requires Start(p, mem) && Endless(f, |p.first|)
    ensures Reached(p, mem, f, k + 1) == Step(p, Reached(p, mem, f, k), f(k))
  {
    InitInv(p, mem);
    assert Prefix(f, k + 1) == Prefix(f, k) + [f(k)];
    hide Inv, Step, Start, Endless;
    RunNext(p, Init(p, mem), Prefix(f, k), f(k));
  }

  ghost function WorkLeft<Bl(!new)>(p: Layout<Bl>): State<Bl> -> nat { (s: State<Bl>) => Work(p, s) }

  ghost function IsBlocked<Bl(!new)>(p: Layout<Bl>): (State<Bl>, nat) -> bool {
    (s: State<Bl>, t: nat) => Inv(p, s) && t < |s.workers| ==> Blocked(p, s, t)
  }

  ghost function IsDone<Bl(!new)>(): State<Bl> -> bool { (s: State<Bl>) => AllDone(s) }

  ghost function States<Bl(!new)>(p: Layout<Bl>, mem: seq<Bl>, f: nat -> nat): nat -> State<Bl>
    requires Start(p, mem) && Endless(f, |p.first|)
  {
    (k: nat) => Reached(p, mem, f, k)
  }

  lemma RunGoesOn<Bl(!new)>(p: Layout<Bl>, mem: seq<Bl>, f: nat -> nat)
    requires Start(p, mem) && Endless(f, |p.first|)
    ensures GoesOn(States(p, mem, f), f, WorkLeft(p), IsBlocked(p))
  {
    var ss := States(p, mem, f);
    forall i: nat ensures if IsBlocked(p)(ss(i), f(i)) then ss(i + 1) == ss(i)
      else WorkLeft(p)(ss(i + 1)) < WorkLeft(p)(ss(i))
    {
      ReachedNext(p, mem, f, i);
      hide Inv, Step, Start, Work, Blocked, Reached;
      StepWorks(p, ss(i), f(i));
    }
  }

  lemma SomeoneActs<Bl(!new)>(p: Layout<Bl>, mem: seq<Bl>, f: nat -> nat, k: nat)
    requires Start(p, mem) && |p.first| > 0 && Endless(f, |p.first|) && Fair(p, mem, f)
    requires !AllDone(Reached(p, mem, f, k))
    ensures SomeActs(Reached(p, mem, f, k), f, k, IsBlocked(p))
  {
    var s := Reached(p, mem, f, k);
    hide Inv, Step, Start, Work, AllDone, After, Reached;
    var t := NoDeadlock(p, s);
    assert !s.workers[t].phase.Finished? && ActsAfter(f, k, t) && !IsBlocked(p)(s, t);
  }

  /** Every fair schedule finishes the permutation: from every state on, after finitely many actions all are done. */
  lemma FairFinishes<Bl(!new)>(p: Layout<Bl>, mem: seq<Bl>, f: nat -> nat, k: nat) returns (m: nat)
    requires Start(p, mem) && |p.first| > 0 && Endless(f, |p.first|) && Fair(p, mem, f)
    ensures k <= m && AllDone(After(p, mem, Prefix(f, m)))
  {
    RunGoesOn(p, mem, f);
    var ss := States(p, mem, f);
    forall i: nat | !IsDone()(ss(i)) ensures SomeActs(ss(i), f, i, IsBlocked(p)) { SomeoneActs(p, mem, f, i); }
    m := Ends(ss, f, WorkLeft(p), IsBlocked(p), IsDone(), k);
  }
}
