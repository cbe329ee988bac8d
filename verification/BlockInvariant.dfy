/** Every atomic action of the block permutation keeps the invariant. */
module BlockInvariant {
  import opened Bags
  import opened BlockProtocol

  // ---------------------------------------------------------------- what a change of one worker leaves alone

  lemma ReadersKept<Bl(!new)>(p: Layout<Bl>, s: State<Bl>, s': State<Bl>, t: nat)
    requires Shape(p, s) && Readers(p, s) && Shape(p, s')
    requires t < |s.workers| && s'.workers == s.workers[t := s'.workers[t]]
    requires forall b :: 0 <= b < Num(p) ==>
      s'.reading[b] == s.reading[b] - (if Reads(Num(p), b)(s.workers[t]) then 1 else 0)
                       + (if Reads(Num(p), b)(s'.workers[t]) then 1 else 0)
    ensures Readers(p, s')
  {
    forall b | 0 <= b < Num(p) ensures s'.reading[b] == Count(s'.workers, Reads(Num(p), b)) {
      CountUpdate(s.workers, t, s'.workers[t], Reads(Num(p), b));
    }
  }

  lemma BehindKept<Bl(!new)>(p: Layout<Bl>, s: State<Bl>, s': State<Bl>)
    requires Shape(p, s) && Behind(p, s) && Shape(p, s')
    requires forall b :: 0 <= b < Num(p) ==> s'.r[b] <= s.r[b] && s.w[b] <= s'.w[b]
    requires |s'.workers| == |s.workers|
    requires forall t :: 0 <= t < |s.workers| ==>
      s'.workers[t].first == s.workers[t].first && s'.workers[t].visited == s.workers[t].visited
    ensures Behind(p, s')
  {
    forall t | 0 <= t < |s.workers| ensures LeftBehind(p, s', s'.workers[t]) {
      assert LeftBehind(p, s, s.workers[t]);
      forall i | 0 <= i < s'.workers[t].visited ensures Drained(s', At(Num(p), s'.workers[t].first, i)) {
        assert Drained(s, At(Num(p), s.workers[t].first, i));
      }
    }
  }

  ghost predicate SameData<Bl>(s: State<Bl>, s': State<Bl>) {
    s'.mem == s.mem && s'.w == s.w && s'.r == s.r && s'.res == s.res && s'.un == s.un
    && s'.owned == s.owned && s'.claim == s.claim && s'.spiller == s.spiller
  }

  /** Only worker t changes, and it keeps the slot it may have claimed. */
  lemma OneWorkerMoves<Bl(!new)>(p: Layout<Bl>, s: State<Bl>, s': State<Bl>, t: nat)
    requires Shape(p, s) && Slots(p, s) && Workers(p, s) && Shape(p, s') && SameData(s, s')
    requires t < |s.workers| && s'.workers == s.workers[t := s'.workers[t]]
    requires forall q :: Pending(s.workers[t].phase, q) ==> Pending(s'.workers[t].phase, q)
    requires WorkerOk(p, s', t)
    ensures Slots(p, s') && Workers(p, s')
  {
    forall q | 0 <= q < |s.res| ensures Slot(p, s', q) { assert Slot(p, s, q); }
    forall u | 0 <= u < |s.workers| ensures WorkerOk(p, s', u) { assert WorkerOk(p, s, u); }
  }

  /** Thread t stays at its bucket, and no pointer moves back. */
  ghost predicate Onward<Bl(!new)>(p: Layout<Bl>, s: State<Bl>, s': State<Bl>, t: nat)
    requires Shape(p, s) && Shape(p, s')
  {
    && t < |s.workers| && s'.workers == s.workers[t := s'.workers[t]] && s'.reading == s.reading
    && s'.workers[t].first == s.workers[t].first && s'.workers[t].visited == s.workers[t].visited
    && Inside(s'.workers[t].phase) == Inside(s.workers[t].phase)
    && forall b :: 0 <= b < Num(p) ==> s'.r[b] <= s.r[b] && s.w[b] <= s'.w[b]
  }

  lemma InvParts<Bl(!new)>(p: Layout<Bl>, s: State<Bl>)
    requires Inv(p, s)
    ensures Shape(p, s) && Slots(p, s) && Workers(p, s) && Exclusion(s) && Readers(p, s) && Behind(p, s)
    ensures Spills(p, s)
  {
  }

  /** What remains to be shown of an action of thread t that moves pointers and blocks. */
  lemma Assemble<Bl(!new)>(p: Layout<Bl>, s: State<Bl>, s': State<Bl>, t: nat)
    requires Inv(p, s) && Shape(p, s') && Slots(p, s') && Workers(p, s') && Exclusion(s') && Spills(p, s')
    requires Onward(p, s, s', t) && multiset(Cells(s')) == multiset(Cells(s))
    ensures Inv(p, s')
  {
    ReadersKept(p, s, s', t);
    BehindKept(p, s, s');
  }

  /** What remains to be shown of an action of thread t that moves neither pointers nor blocks. */
  lemma OneWorkerKeeps<Bl(!new)>(p: Layout<Bl>, s: State<Bl>, s': State<Bl>, t: nat)
    requires Inv(p, s) && Shape(p, s') && SameData(s, s') && Readers(p, s') && Behind(p, s')
    requires t < |s.workers| && s'.workers == s.workers[t := s'.workers[t]] && WorkerOk(p, s', t)
    requires s'.workers[t].spill == s.workers[t].spill && forall q :: !Pending(s.workers[t].phase, q)
    requires var ph := s'.workers[t].phase; !ph.Copying? && !ph.Writing? && !ph.Swapping?
    ensures Inv(p, s')
  {
    OneWorkerMoves(p, s, s', t);
    hide Slots, Workers, Readers, Behind, Basic;
  }

  lemma EnterKeeps<Bl(!new)>(p: Layout<Bl>, s: State<Bl>, t: nat)
    requires Inv(p, s) && t < |s.workers| && s.workers[t].phase.Ready?
    ensures Inv(p, Enter(p, s, t))
  {
    var s' := Enter(p, s, t);
    InvParts(p, s);
    assert WorkerOk(p, s, t);
    hide Inv, Slots, Workers, Exclusion, Readers, Behind, Spills, Ledger, Drained;
    ReadersKept(p, s, s', t);
    BehindKept(p, s, s');
    OneWorkerKeeps(p, s, s', t);
  }

  lemma CopyKeeps<Bl(!new)>(p: Layout<Bl>, s: State<Bl>, t: nat)
    requires Inv(p, s) && t < |s.workers| && s.workers[t].phase.Copying?
    requires s.workers[t].phase.from < |s.mem|
    ensures Inv(p, Copy(p, s, t))
  {
    var s' := Copy(p, s, t);
    assert WorkerOk(p, s, t);
    OneWorkerMoves(p, s, s', t);
    Assemble(p, s, s', t);
  }

  lemma StopReadBehind<Bl(!new)>(p: Layout<Bl>, s: State<Bl>, t: nat)
    requires Shape(p, s) && Workers(p, s) && Behind(p, s)
    requires t < |s.workers| && (s.workers[t].phase.Copied? || s.workers[t].phase.Refused?)
    requires Shape(p, StopRead(p, s, t))
    ensures Behind(p, StopRead(p, s, t))
  {
    var s' := StopRead(p, s, t);
    forall u | 0 <= u < |s.workers| ensures LeftBehind(p, s', s'.workers[u]) {
      assert LeftBehind(p, s, s.workers[u]) && WorkerOk(p, s, u);
      forall i | 0 <= i < s'.workers[u].visited ensures Drained(s', At(Num(p), s'.workers[u].first, i)) {
        assert i < s.workers[u].visited ==> Drained(s, At(Num(p), s.workers[u].first, i));
      }
    }
  }

  lemma StopReadKeeps<Bl(!new)>(p: Layout<Bl>, s: State<Bl>, t: nat)
    requires Inv(p, s) && t < |s.workers| && (s.workers[t].phase.Copied? || s.workers[t].phase.Refused?)
    ensures Inv(p, StopRead(p, s, t))
  {
    var s' := StopRead(p, s, t);
    InvParts(p, s);
    assert WorkerOk(p, s, t);
    hide Inv, Slots, Workers, Exclusion, Readers, Behind, Spills, Ledger, Drained;
    StopReadBehind(p, s, t);
    assert !Inside(s'.workers[t].phase);
    ReadersKept(p, s, s', t);
    OneWorkerKeeps(p, s, s', t);
  }

  // ---------------------------------------------------------------- the read pointer

  lemma RefuseSlot<Bl(!new)>(p: Layout<Bl>, s: State<Bl>, t: nat, q: nat)
    requires Shape(p, s) && t < |s.workers| && s.workers[t].phase.Entered? && q < |s.res| && Slot(p, s, q)
    requires s.r[Bucket(p, s.workers[t])] < s.w[Bucket(p, s.workers[t])]
    ensures Shape(p, Refuse(p, s, t)) && Slot(p, Refuse(p, s, t), q)
  {
  }

  lemma RefuseData<Bl(!new)>(p: Layout<Bl>, s: State<Bl>, t: nat)
    requires Shape(p, s) && Slots(p, s) && Workers(p, s) && t < |s.workers| && s.workers[t].phase.Entered?
    requires s.r[Bucket(p, s.workers[t])] < s.w[Bucket(p, s.workers[t])]
    ensures Shape(p, Refuse(p, s, t)) && Slots(p, Refuse(p, s, t)) && Workers(p, Refuse(p, s, t))
  {
    var s' := Refuse(p, s, t);
    assert WorkerOk(p, s, t);
    forall q | 0 <= q < |s.res| ensures Slot(p, s', q) { RefuseSlot(p, s, t, q); }
    forall u | 0 <= u < |s.workers| ensures WorkerOk(p, s', u) { assert WorkerOk(p, s, u); }
  }

  lemma RefuseKeeps<Bl(!new)>(p: Layout<Bl>, s: State<Bl>, t: nat)
    requires Inv(p, s) && t < |s.workers| && s.workers[t].phase.Entered?
    requires s.r[Bucket(p, s.workers[t])] < s.w[Bucket(p, s.workers[t])]
    ensures Inv(p, Refuse(p, s, t))
  {
    var s' := Refuse(p, s, t);
    RefuseData(p, s, t);
    Assemble(p, s, s', t);
  }

  lemma TakeSlot<Bl(!new)>(p: Layout<Bl>, s: State<Bl>, t: nat, q: nat)
    requires Shape(p, s) && t < |s.workers| && s.workers[t].phase.Entered? && q < |s.res|
    requires var b := Bucket(p, s.workers[t]); s.w[b] <= s.r[b] < |s.un| && p.owner[s.r[b]] == b
    requires Slot(p, s, q)
    ensures Slot(p, Take(p, s, t), q)
  {
  }

  lemma TakeWorker<Bl(!new)>(p: Layout<Bl>, s: State<Bl>, t: nat, u: nat)
    requires Shape(p, s) && t < |s.workers| && s.workers[t].phase.Entered? && u < |s.workers|
    requires var b := Bucket(p, s.workers[t]);
      s.w[b] <= s.r[b] < |s.un| && p.owner[s.r[b]] == b && s.r[b] < p.whole && s.un[s.r[b]] == Some(s.mem[s.r[b]])
    requires WorkerOk(p, s, u) && Slots(p, s)
    ensures WorkerOk(p, Take(p, s, t), u)
  {
    match s.workers[u].phase {
      case Swapping(q) => assert Slot(p, s, q);
      case _ =>
    }
  }

  lemma TakeExclusion<Bl(!new)>(p: Layout<Bl>, s: State<Bl>, t: nat, u: nat)
    requires Shape(p, s) && t < |s.workers| && s.workers[t].phase.Entered? && u < |s.workers|
    requires var b := Bucket(p, s.workers[t]); s.w[b] <= s.r[b] < |s.un| && p.owner[s.r[b]] == b
    requires WorkerOk(p, s, u) && Slots(p, s)
    ensures NoClash(s.r[Bucket(p, s.workers[t])], s.workers[u].phase, false)
  {
    match s.workers[u].phase {
      case Swapping(q) => assert Slot(p, s, q);
      case Writing(q) => assert Slot(p, s, q);
      case _ =>
    }
  }

  /** Exchanging two cells of two rows. */
  lemma MoveCell<X>(a: seq<X>, c: seq<X>, i: nat, j: nat)
    requires i < |a| && j < |c|
    ensures multiset(a[i := c[j]]) + multiset(c[j := a[i]]) == multiset(a) + multiset(c)
  {
  }

  lemma CellsBag<Bl>(s: State<Bl>)
    ensures multiset(Cells(s)) == multiset(s.res) + multiset(s.un) + multiset(s.owned)
  {
  }

  lemma TakeData<Bl(!new)>(p: Layout<Bl>, s: State<Bl>, t: nat)
    requires Shape(p, s) && Slots(p, s) && Workers(p, s) && t < |s.workers| && s.workers[t].phase.Entered?
    requires var b := Bucket(p, s.workers[t]);
      s.w[b] <= s.r[b] < |s.un| && p.owner[s.r[b]] == b && s.r[b] < p.whole && s.un[s.r[b]] == Some(s.mem[s.r[b]])
    ensures Shape(p, Take(p, s, t)) && Slots(p, Take(p, s, t)) && Workers(p, Take(p, s, t))
  {
    var s' := Take(p, s, t);
    forall q | 0 <= q < |s.res| ensures Slot(p, s', q) { TakeSlot(p, s, t, q); }
    forall u | 0 <= u < |s.workers| ensures WorkerOk(p, s', u) { TakeWorker(p, s, t, u); }
  }

  lemma TakeLedger<Bl(!new)>(p: Layout<Bl>, s: State<Bl>, t: nat)
    requires Shape(p, s) && Workers(p, s) && t < |s.workers| && s.workers[t].phase.Entered?
    requires 0 <= s.r[Bucket(p, s.workers[t])] < |s.un|
    ensures multiset(Cells(Take(p, s, t))) == multiset(Cells(s))
  {
    assert WorkerOk(p, s, t);
    CellsBag(s);
    CellsBag(Take(p, s, t));
    MoveCell(s.un, s.owned, s.r[Bucket(p, s.workers[t])], t);
  }

  lemma TakeApart<Bl(!new)>(p: Layout<Bl>, s: State<Bl>, t: nat)
    requires Shape(p, s) && Slots(p, s) && Workers(p, s) && Exclusion(s)
    requires t < |s.workers| && s.workers[t].phase.Entered?
    requires var b := Bucket(p, s.workers[t]); s.w[b] <= s.r[b] < |s.un| && p.owner[s.r[b]] == b
    ensures Exclusion(Take(p, s, t))
  {
    var s' := Take(p, s, t);
    forall u | 0 <= u < |s.workers| ensures NoClash(s'.workers[t].phase.from, s.workers[u].phase, false) {
      TakeExclusion(p, s, t, u);
    }
  }

  lemma TakeKeeps<Bl(!new)>(p: Layout<Bl>, s: State<Bl>, t: nat)
    requires Inv(p, s) && t < |s.workers| && s.workers[t].phase.Entered?
    requires s.w[Bucket(p, s.workers[t])] <= s.r[Bucket(p, s.workers[t])] < |s.un|
    ensures Inv(p, Take(p, s, t))
  {
    var s' := Take(p, s, t);
    ReadBound(p, s, t);
    TakeData(p, s, t);
    TakeLedger(p, s, t);
    TakeApart(p, s, t);
    Assemble(p, s, s', t);
  }

  // ---------------------------------------------------------------- the write pointer

  lemma FreshSlot<Bl(!new)>(p: Layout<Bl>, s: State<Bl>, t: nat, d: nat)
    requires Shape(p, s) && Slots(p, s) && CanPlace(p, s, t, d)
    ensures s.res[s.w[d]] == None && s.claim[s.w[d]] == None
    ensures s.w[d] <= s.r[d] ==> s.w[d] < p.whole && s.un[s.w[d]] == Some(s.mem[s.w[d]])
    ensures s.w[d] > s.r[d] ==> s.un[s.w[d]] == None
  {
    assert Slot(p, s, s.w[d]);
  }

  lemma ReserveLedger<Bl(!new)>(p: Layout<Bl>, s: State<Bl>, t: nat, d: nat)
    requires Shape(p, s) && Slots(p, s) && Workers(p, s) && CanPlace(p, s, t, d)
    ensures multiset(Cells(Reserve(p, s, t, d))) == multiset(Cells(s))
  {
    assert WorkerOk(p, s, t);
    FreshSlot(p, s, t, d);
    CellsBag(s);
    CellsBag(Reserve(p, s, t, d));
    MoveCell(s.res, s.owned, s.w[d], t);
  }

  lemma ReserveBounds<Bl(!new)>(p: Layout<Bl>, s: State<Bl>, d: nat, w: seq<nat>)
    requires Shape(p, s) && d < Num(p) && s.w[d] < p.start[d + 1] && w == s.w[d := s.w[d] + 1]
    ensures |p.start| == Num(p) + 1 && |p.owner| == p.start[Num(p)]
    ensures forall b :: 0 <= b < Num(p) ==> p.start[b] <= w[b] <= p.start[b + 1]
  {
  }

  lemma ReserveShape<Bl(!new)>(p: Layout<Bl>, s: State<Bl>, t: nat, d: nat)
    requires Shape(p, s) && CanPlace(p, s, t, d)
    ensures Shape(p, Overflow(p, s, t, d)) && Shape(p, ClaimEmpty(p, s, t, d)) && Shape(p, ClaimFull(p, s, t, d))
  {
    ReserveBounds(p, s, d, s.w[d := s.w[d] + 1]);
    hide Basic;
  }

  lemma OverflowSlot<Bl(!new)>(p: Layout<Bl>, s: State<Bl>, t: nat, d: nat, q: nat)
    requires Shape(p, s) && CanPlace(p, s, t, d) && s.w[d] > s.r[d] && s.w[d] >= p.whole
    requires s.claim[s.w[d]] == None && s.un[s.w[d]] == None
    requires q < |s.res| && Slot(p, s, q)
    requires Shape(p, Overflow(p, s, t, d))
    ensures Slot(p, Overflow(p, s, t, d), q)
  {
    if q == s.w[d] {
    } else if p.owner[q] == d {
    } else {
    }
  }

  lemma OverflowSlots<Bl(!new)>(p: Layout<Bl>, s: State<Bl>, t: nat, d: nat)
    requires Shape(p, s) && Slots(p, s) && CanPlace(p, s, t, d)
    requires s.w[d] > s.r[d] && s.w[d] >= p.whole
    ensures Shape(p, Overflow(p, s, t, d)) && Slots(p, Overflow(p, s, t, d))
  {
    FreshSlot(p, s, t, d);
    ReserveShape(p, s, t, d);
    hide Slot;
    forall q | 0 <= q < |s.res| ensures Slot(p, Overflow(p, s, t, d), q) { OverflowSlot(p, s, t, d, q); }
  }

  lemma OverflowWorkers<Bl(!new)>(p: Layout<Bl>, s: State<Bl>, t: nat, d: nat)
    requires Shape(p, s) && Slots(p, s) && Workers(p, s) && CanPlace(p, s, t, d)
    requires s.w[d] > s.r[d] && s.w[d] >= p.whole
    requires Shape(p, Overflow(p, s, t, d))
    ensures Workers(p, Overflow(p, s, t, d))
  {
    var s' := Overflow(p, s, t, d);
    assert WorkerOk(p, s, t);
    forall u | 0 <= u < |s.workers| ensures WorkerOk(p, s', u) { assert WorkerOk(p, s, u); }
  }

  lemma OverflowSpills<Bl(!new)>(p: Layout<Bl>, s: State<Bl>, t: nat, d: nat)
    requires Shape(p, s) && Slots(p, s) && Spills(p, s) && CanPlace(p, s, t, d)
    requires s.w[d] > s.r[d] && s.w[d] >= p.whole
    requires Shape(p, Overflow(p, s, t, d))
    ensures Spills(p, Overflow(p, s, t, d))
  {
    FreshSlot(p, s, t, d);
  }

  lemma OverflowApart<Bl(!new)>(p: Layout<Bl>, s: State<Bl>, t: nat, d: nat)
    requires Shape(p, s) && CanPlace(p, s, t, d) && Exclusion(s)
    ensures Exclusion(Overflow(p, s, t, d))
  {
  }

  lemma ReserveOnward<Bl(!new)>(p: Layout<Bl>, s: State<Bl>, t: nat, d: nat)
    requires Shape(p, s) && CanPlace(p, s, t, d)
    ensures Shape(p, Overflow(p, s, t, d)) && Onward(p, s, Overflow(p, s, t, d), t)
    ensures Shape(p, ClaimEmpty(p, s, t, d)) && Onward(p, s, ClaimEmpty(p, s, t, d), t)
    ensures Shape(p, ClaimFull(p, s, t, d)) && Onward(p, s, ClaimFull(p, s, t, d), t)
    ensures Cells(Overflow(p, s, t, d)) == Cells(ClaimEmpty(p, s, t, d)) == Cells(ClaimFull(p, s, t, d))
      == Cells(Reserve(p, s, t, d))
  {
    ReserveShape(p, s, t, d);
    hide Shape;
  }

  lemma ClaimApart<Bl(!new)>(p: Layout<Bl>, s: State<Bl>, t: nat, d: nat)
    requires Shape(p, s) && Exclusion(s) && CanPlace(p, s, t, d)
    ensures Exclusion(ClaimEmpty(p, s, t, d))
  {
  }

  lemma ClaimSpills<Bl(!new)>(p: Layout<Bl>, s: State<Bl>, t: nat, d: nat)
    requires Shape(p, s) && Spills(p, s) && CanPlace(p, s, t, d) && s.w[d] < p.whole
    requires Shape(p, ClaimEmpty(p, s, t, d))
    ensures Spills(p, ClaimEmpty(p, s, t, d))
  {
  }

  lemma ClaimFullSpills<Bl(!new)>(p: Layout<Bl>, s: State<Bl>, t: nat, d: nat)
    requires Shape(p, s) && Slots(p, s) && Spills(p, s) && CanPlace(p, s, t, d) && s.w[d] <= s.r[d]
    requires Shape(p, ClaimFull(p, s, t, d))
    ensures Spills(p, ClaimFull(p, s, t, d))
  {
    FreshSlot(p, s, t, d);
  }

  lemma OverflowKeeps<Bl(!new)>(p: Layout<Bl>, s: State<Bl>, t: nat, d: nat)
    requires Inv(p, s) && CanPlace(p, s, t, d)
    requires s.w[d] > s.r[d] && s.w[d] >= p.whole
    ensures Inv(p, Overflow(p, s, t, d))
  {
    InvParts(p, s);
    hide Inv, Slots, Workers, Spills, Exclusion, Readers, Behind;
    OverflowSlots(p, s, t, d);
    OverflowWorkers(p, s, t, d);
    OverflowSpills(p, s, t, d);
    ReserveLedger(p, s, t, d);
    ReserveOnward(p, s, t, d);
    OverflowApart(p, s, t, d);
    Assemble(p, s, Overflow(p, s, t, d), t);
  }

  lemma ClaimEmptySlots<Bl(!new)>(p: Layout<Bl>, s: State<Bl>, t: nat, d: nat)
    requires Shape(p, s) && Slots(p, s) && CanPlace(p, s, t, d)
    requires s.w[d] > s.r[d] && s.w[d] < p.whole
    ensures Shape(p, ClaimEmpty(p, s, t, d)) && Slots(p, ClaimEmpty(p, s, t, d))
  {
    FreshSlot(p, s, t, d);
    ReserveShape(p, s, t, d);
    hide Slot;
    forall q | 0 <= q < |s.res| ensures Slot(p, ClaimEmpty(p, s, t, d), q) { ClaimEmptySlot(p, s, t, d, q); }
  }

  lemma ClaimEmptySlot<Bl(!new)>(p: Layout<Bl>, s: State<Bl>, t: nat, d: nat, q: nat)
    requires Shape(p, s) && CanPlace(p, s, t, d) && s.w[d] > s.r[d] && s.w[d] < p.whole
    requires s.claim[s.w[d]] == None && s.un[s.w[d]] == None
    requires q < |s.res| && Slot(p, s, q)
    requires Shape(p, ClaimEmpty(p, s, t, d))
    ensures Slot(p, ClaimEmpty(p, s, t, d), q)
  {
    if q == s.w[d] {
    } else if p.owner[q] == d {
    } else {
    }
  }

  lemma ClaimEmptyWorkers<Bl(!new)>(p: Layout<Bl>, s: State<Bl>, t: nat, d: nat)
    requires Shape(p, s) && Slots(p, s) && Workers(p, s) && CanPlace(p, s, t, d)
    requires s.w[d] > s.r[d] && s.w[d] < p.whole
    requires Shape(p, ClaimEmpty(p, s, t, d))
    ensures Workers(p, ClaimEmpty(p, s, t, d))
  {
    var s' := ClaimEmpty(p, s, t, d);
    FreshSlot(p, s, t, d);
    assert WorkerOk(p, s, t);
    forall u | 0 <= u < |s.workers| ensures WorkerOk(p, s', u) { assert WorkerOk(p, s, u); }
  }

  lemma ClaimEmptyKeeps<Bl(!new)>(p: Layout<Bl>, s: State<Bl>, t: nat, d: nat)
    requires Inv(p, s) && CanPlace(p, s, t, d)
    requires s.w[d] > s.r[d] && s.w[d] < p.whole
    ensures Inv(p, ClaimEmpty(p, s, t, d))
  {
    InvParts(p, s);
    hide Inv, Slots, Workers, Spills, Exclusion, Readers, Behind;
    ClaimEmptySlots(p, s, t, d);
    ClaimEmptyWorkers(p, s, t, d);
    ReserveLedger(p, s, t, d);
    ReserveOnward(p, s, t, d);
    ClaimApart(p, s, t, d);
    ClaimSpills(p, s, t, d);
    Assemble(p, s, ClaimEmpty(p, s, t, d), t);
  }

  lemma ClaimFullSlots<Bl(!new)>(p: Layout<Bl>, s: State<Bl>, t: nat, d: nat)
    requires Shape(p, s) && Slots(p, s) && CanPlace(p, s, t, d) && s.w[d] <= s.r[d]
    ensures Shape(p, ClaimFull(p, s, t, d)) && Slots(p, ClaimFull(p, s, t, d))
  {
    var s' := ClaimFull(p, s, t, d);
    FreshSlot(p, s, t, d);
    forall q | 0 <= q < |s.res| ensures Slot(p, s', q) { ClaimFullSlot(p, s, t, d, q); }
  }

  lemma ClaimFullSlot<Bl(!new)>(p: Layout<Bl>, s: State<Bl>, t: nat, d: nat, q: nat)
    requires Shape(p, s) && CanPlace(p, s, t, d) && s.w[d] <= s.r[d] && s.w[d] < p.whole
    requires s.claim[s.w[d]] == None && s.un[s.w[d]] == Some(s.mem[s.w[d]])
    requires q < |s.res| && Slot(p, s, q)
    ensures Shape(p, ClaimFull(p, s, t, d)) && Slot(p, ClaimFull(p, s, t, d), q)
  {
  }

  lemma ClaimFullWorkers<Bl(!new)>(p: Layout<Bl>, s: State<Bl>, t: nat, d: nat)
    requires Shape(p, s) && Slots(p, s) && Workers(p, s) && CanPlace(p, s, t, d) && s.w[d] <= s.r[d]
    requires Shape(p, ClaimFull(p, s, t, d))
    ensures Workers(p, ClaimFull(p, s, t, d))
  {
    var s' := ClaimFull(p, s, t, d);
    FreshSlot(p, s, t, d);
    assert WorkerOk(p, s, t);
    forall u | 0 <= u < |s.workers| ensures WorkerOk(p, s', u) { assert WorkerOk(p, s, u); }
  }

  lemma ClaimFullApart<Bl(!new)>(p: Layout<Bl>, s: State<Bl>, t: nat, d: nat)
    requires Shape(p, s) && Slots(p, s) && Workers(p, s) && Exclusion(s) && CanPlace(p, s, t, d) && s.w[d] <= s.r[d]
    ensures Exclusion(ClaimFull(p, s, t, d))
  {
    forall u | 0 <= u < |s.workers| && s.workers[u].phase.Copying? ensures s.workers[u].phase.from != s.w[d] {
      assert WorkerOk(p, s, u);
    }
  }

  lemma ClaimFullKeeps<Bl(!new)>(p: Layout<Bl>, s: State<Bl>, t: nat, d: nat)
    requires Inv(p, s) && CanPlace(p, s, t, d) && s.w[d] <= s.r[d]
    ensures Inv(p, ClaimFull(p, s, t, d))
  {
    InvParts(p, s);
    hide Inv, Slots, Workers, Spills, Exclusion, Readers, Behind;
    ClaimFullSlots(p, s, t, d);
    ClaimFullWorkers(p, s, t, d);
    ClaimFullApart(p, s, t, d);
    ReserveLedger(p, s, t, d);
    ReserveOnward(p, s, t, d);
    ClaimFullSpills(p, s, t, d);
    Assemble(p, s, ClaimFull(p, s, t, d), t);
  }

  // ---------------------------------------------------------------- spinning, writing, swapping

  lemma NoReader<X>(s: seq<X>, f: X -> bool, u: nat)
    requires Count(s, f) == 0 && u < |s|
    ensures !f(s[u])
  {
    if f(s[u]) { CountRange(s, u, u + 1, f); }
  }

  /** When the spin test passes, nobody is still copying out of the slot. */
  lemma PassExclusion<Bl(!new)>(p: Layout<Bl>, s: State<Bl>, t: nat, u: nat)
    requires Shape(p, s) && Slots(p, s) && Workers(p, s) && Readers(p, s)
    requires t < |s.workers| && s.workers[t].phase.Spinning? && u < |s.workers| && s.workers[u].phase.Copying?
    requires s.workers[t].held.Some? && s.reading[p.cls(s.workers[t].held.value)] == 0
    ensures s.workers[u].phase.from != s.workers[t].phase.at
  {
    assert WorkerOk(p, s, t) && WorkerOk(p, s, u);
    var q := s.workers[t].phase.at;
    assert Slot(p, s, q);
    if s.workers[u].phase.from == q {
      NoReader(s.workers, Reads(Num(p), p.owner[q]), u);
    }
  }

  lemma PassKeeps<Bl(!new)>(p: Layout<Bl>, s: State<Bl>, t: nat)
    requires Inv(p, s) && t < |s.workers| && s.workers[t].phase.Spinning?
    requires s.workers[t].held.Some? && s.reading[p.cls(s.workers[t].held.value)] == 0
    ensures Inv(p, Pass(p, s, t))
  {
    var s' := Pass(p, s, t);
    assert WorkerOk(p, s, t);
    OneWorkerMoves(p, s, s', t);
    forall u | 0 <= u < |s.workers| && s.workers[u].phase.Copying?
      ensures s.workers[u].phase.from != s.workers[t].phase.at
    {
      PassExclusion(p, s, t, u);
    }
    Assemble(p, s, s', t);
  }

  ghost predicate Owns1<Bl(!new)>(p: Layout<Bl>, s: State<Bl>, t: nat)
    requires Shape(p, s)
  {
    && t < |s.workers| && (s.workers[t].phase.Swapping? || s.workers[t].phase.Writing?)
    && s.workers[t].held.Some? && s.workers[t].phase.at < |s.res| && s.workers[t].phase.at < p.whole
  }

  lemma WriteAllSlots<Bl(!new)>(p: Layout<Bl>, s: State<Bl>, t: nat)
    requires Shape(p, s) && Slots(p, s) && Workers(p, s) && Exclusion(s)
    requires Owns1(p, s, t) && s.workers[t].phase.Writing?
    ensures Shape(p, Write(p, s, t)) && Slots(p, Write(p, s, t))
  {
    assert WorkerOk(p, s, t);
    forall q | 0 <= q < |s.res| ensures Slot(p, Write(p, s, t), q) { assert Slot(p, s, q); }
  }

  lemma WriteAllWorkers<Bl(!new)>(p: Layout<Bl>, s: State<Bl>, t: nat)
    requires Shape(p, s) && Slots(p, s) && Workers(p, s) && Exclusion(s)
    requires Owns1(p, s, t) && s.workers[t].phase.Writing?
    requires Shape(p, Write(p, s, t))
    ensures Workers(p, Write(p, s, t))
  {
    assert WorkerOk(p, s, t);
    forall u | 0 <= u < |s.workers| ensures WorkerOk(p, Write(p, s, t), u) { assert WorkerOk(p, s, u); }
  }

  lemma WriteKeeps<Bl(!new)>(p: Layout<Bl>, s: State<Bl>, t: nat)
    requires Inv(p, s) && Owns1(p, s, t) && s.workers[t].phase.Writing?
    ensures Inv(p, Write(p, s, t))
  {
    var s' := Write(p, s, t);
    WriteAllSlots(p, s, t);
    WriteAllWorkers(p, s, t);
    Assemble(p, s, s', t);
  }

  lemma SkipAllSlots<Bl(!new)>(p: Layout<Bl>, s: State<Bl>, t: nat)
    requires Shape(p, s) && Slots(p, s) && Workers(p, s) && Owns1(p, s, t) && s.workers[t].phase.Swapping?
    requires p.cls(s.mem[s.workers[t].phase.at]) == p.cls(s.workers[t].held.value)
    ensures Shape(p, Skip(p, s, t)) && Slots(p, Skip(p, s, t))
  {
    assert WorkerOk(p, s, t);
    forall q | 0 <= q < |s.res| ensures Slot(p, Skip(p, s, t), q) { assert Slot(p, s, q); }
  }

  lemma SkipAllWorkers<Bl(!new)>(p: Layout<Bl>, s: State<Bl>, t: nat)
    requires Shape(p, s) && Slots(p, s) && Workers(p, s) && Owns1(p, s, t) && s.workers[t].phase.Swapping?
    requires p.cls(s.mem[s.workers[t].phase.at]) == p.cls(s.workers[t].held.value)
    requires Shape(p, Skip(p, s, t))
    ensures Workers(p, Skip(p, s, t))
  {
    assert WorkerOk(p, s, t);
    forall u | 0 <= u < |s.workers| ensures WorkerOk(p, Skip(p, s, t), u) { assert WorkerOk(p, s, u); }
  }

  lemma SkipLedger<Bl(!new)>(p: Layout<Bl>, s: State<Bl>, t: nat)
    requires Shape(p, s) && Slots(p, s) && Workers(p, s) && Owns1(p, s, t) && s.workers[t].phase.Swapping?
    ensures multiset(Cells(Skip(p, s, t))) == multiset(Cells(s))
  {
    assert WorkerOk(p, s, t);
    var q := s.workers[t].phase.at;
    CellsBag(s);
    CellsBag(Skip(p, s, t));
    MoveCell(s.res, s.un, q, q);
    MoveCell(s.un[q := s.res[q]], s.owned, q, t);
    assert s.un[q := s.res[q]][q := s.owned[t]] == s.un[q := None];
  }

  lemma SkipKeeps<Bl(!new)>(p: Layout<Bl>, s: State<Bl>, t: nat)
    requires Inv(p, s) && Owns1(p, s, t) && s.workers[t].phase.Swapping?
    requires p.cls(s.mem[s.workers[t].phase.at]) == p.cls(s.workers[t].held.value)
    ensures Inv(p, Skip(p, s, t))
  {
    var s' := Skip(p, s, t);
    SkipAllSlots(p, s, t);
    SkipAllWorkers(p, s, t);
    SkipLedger(p, s, t);
    Assemble(p, s, s', t);
  }

  lemma ExchangeAllSlots<Bl(!new)>(p: Layout<Bl>, s: State<Bl>, t: nat)
    requires Shape(p, s) && Slots(p, s) && Workers(p, s) && Exclusion(s)
    requires Owns1(p, s, t) && s.workers[t].phase.Swapping?
    ensures Shape(p, Exchange(p, s, t)) && Slots(p, Exchange(p, s, t))
  {
    assert WorkerOk(p, s, t);
    forall q | 0 <= q < |s.res| ensures Slot(p, Exchange(p, s, t), q) { assert Slot(p, s, q); }
  }

  lemma ExchangeAllWorkers<Bl(!new)>(p: Layout<Bl>, s: State<Bl>, t: nat)
    requires Shape(p, s) && Slots(p, s) && Workers(p, s) && Exclusion(s)
    requires Owns1(p, s, t) && s.workers[t].phase.Swapping?
    requires Shape(p, Exchange(p, s, t))
    ensures Workers(p, Exchange(p, s, t))
  {
    assert WorkerOk(p, s, t);
    forall u | 0 <= u < |s.workers| ensures WorkerOk(p, Exchange(p, s, t), u) { assert WorkerOk(p, s, u); }
  }

  lemma ExchangeLedger<Bl(!new)>(p: Layout<Bl>, s: State<Bl>, t: nat)
    requires Shape(p, s) && Workers(p, s) && Owns1(p, s, t) && s.workers[t].phase.Swapping?
    ensures multiset(Cells(Exchange(p, s, t))) == multiset(Cells(s))
  {
    assert WorkerOk(p, s, t);
    CellsBag(s);
    CellsBag(Exchange(p, s, t));
    MoveCell(s.un, s.owned, s.workers[t].phase.at, t);
  }

  lemma ExchangeKeeps<Bl(!new)>(p: Layout<Bl>, s: State<Bl>, t: nat)
    requires Inv(p, s) && Owns1(p, s, t) && s.workers[t].phase.Swapping?
    ensures Inv(p, Exchange(p, s, t))
  {
    var s' := Exchange(p, s, t);
    ExchangeAllSlots(p, s, t);
    ExchangeAllWorkers(p, s, t);
    ExchangeLedger(p, s, t);
    Assemble(p, s, s', t);
  }

  // ---------------------------------------------------------------- main results

  lemma ReadKeeps<Bl(!new)>(p: Layout<Bl>, s: State<Bl>, t: nat)
    requires Inv(p, s) && t < |s.workers| && s.workers[t].phase.Entered?
    ensures Inv(p, Step(p, s, t))
  {
    ReadBound(p, s, t);
    if s.r[Bucket(p, s.workers[t])] < s.w[Bucket(p, s.workers[t])] {
      RefuseKeeps(p, s, t);
    } else {
      TakeKeeps(p, s, t);
    }
  }

  lemma PlaceKeeps<Bl(!new)>(p: Layout<Bl>, s: State<Bl>, t: nat, d: nat)
    requires Inv(p, s) && CanPlace(p, s, t, d)
    ensures Inv(p, Place(p, s, t, d))
  {
    hide Slots, Workers, Exclusion, Readers, Behind, Spills, Ledger, Overflow, ClaimEmpty, ClaimFull;
    if s.w[d] <= s.r[d] { ClaimFullKeeps(p, s, t, d); }
    else if s.w[d] >= p.whole { OverflowKeeps(p, s, t, d); }
    else { ClaimEmptyKeeps(p, s, t, d); }
  }

  lemma SwapKeeps<Bl(!new)>(p: Layout<Bl>, s: State<Bl>, t: nat)
    requires Inv(p, s) && t < |s.workers| && s.workers[t].phase.Swapping?
    ensures Inv(p, Step(p, s, t))
  {
    assert WorkerOk(p, s, t);
    if p.cls(s.mem[s.workers[t].phase.at]) == p.cls(s.workers[t].held.value) { SkipKeeps(p, s, t); }
    else { ExchangeKeeps(p, s, t); }
  }

  lemma WriteOutKeeps<Bl(!new)>(p: Layout<Bl>, s: State<Bl>, t: nat)
    requires Inv(p, s) && t < |s.workers| && (s.workers[t].phase.Spinning? || s.workers[t].phase.Writing?)
    ensures Inv(p, Step(p, s, t))
  {
    assert WorkerOk(p, s, t);
    if s.workers[t].phase.Writing? { WriteKeeps(p, s, t); }
    else if s.reading[p.cls(s.workers[t].held.value)] == 0 { PassKeeps(p, s, t); }
  }

  /** Every action of every thread keeps the invariant. */
  lemma StepKeeps<Bl(!new)>(p: Layout<Bl>, s: State<Bl>, t: nat)
    requires Inv(p, s) && t < |s.workers|
    ensures Inv(p, Step(p, s, t))
  {
    match s.workers[t].phase
    case Ready => EnterKeeps(p, s, t);
    case Entered => ReadKeeps(p, s, t);
    case Copying(_) => assert WorkerOk(p, s, t); CopyKeeps(p, s, t);
    case Copied => StopReadKeeps(p, s, t);
    case Refused => StopReadKeeps(p, s, t);
    case Placing => WriteBound(p, s, t); PlaceKeeps(p, s, t, p.cls(s.workers[t].held.value));
    case Swapping(_) => SwapKeeps(p, s, t);
    case Spinning(_) => WriteOutKeeps(p, s, t);
    case Writing(_) => WriteOutKeeps(p, s, t);
    case Finished =>
  }

  lemma InitInv<Bl(!new)>(p: Layout<Bl>, mem: seq<Bl>)
    requires Valid(p) && |mem| == p.whole
    requires forall q :: 0 <= q < |p.blocks| && p.blocks[q].Some? ==> q < p.whole && p.blocks[q] == Some(mem[q])
    ensures Inv(p, Init(p, mem))
  {
    InitShape(p, mem);
    InitSlots(p, mem);
    InitWorkers(p, mem);
    hide Slots, Workers, Readers, Valid, Basic;
  }

  lemma InitShape<Bl(!new)>(p: Layout<Bl>, mem: seq<Bl>)
    requires Valid(p) && |mem| == p.whole
    ensures Shape(p, Init(p, mem))
  {
  }

  lemma InitSlots<Bl(!new)>(p: Layout<Bl>, mem: seq<Bl>)
    requires Valid(p) && |mem| == p.whole && Shape(p, Init(p, mem))
    requires forall q :: 0 <= q < |p.blocks| && p.blocks[q].Some? ==> q < p.whole && p.blocks[q] == Some(mem[q])
    ensures Slots(p, Init(p, mem))
  {
    var s := Init(p, mem);
    forall q | 0 <= q < |s.res| ensures Slot(p, s, q) { }
  }

  lemma InitWorkers<Bl(!new)>(p: Layout<Bl>, mem: seq<Bl>)
    requires Valid(p) && |mem| == p.whole && Shape(p, Init(p, mem))
    ensures Workers(p, Init(p, mem)) && Readers(p, Init(p, mem))
  {
    var s := Init(p, mem);
    forall b | 0 <= b < Num(p) ensures s.reading[b] == Count(s.workers, Reads(Num(p), b)) {
      CountNone(s.workers, Reads(Num(p), b));
    }
  }

  lemma StepFits<Bl(!new)>(p: Layout<Bl>, s: State<Bl>, order: seq<nat>)
    requires Inv(p, s) && order != [] && forall i :: 0 <= i < |order| ==> order[i] < |s.workers|
    ensures Inv(p, Step(p, s, order[0])) && |Step(p, s, order[0]).workers| == |s.workers|
    ensures forall i :: 0 <= i < |order[1..]| ==> order[1..][i] < |Step(p, s, order[0]).workers|
  {
    StepKeeps(p, s, order[0]);
  }

  /** Any interleaving: `order` names the thread that acts next. */
  ghost function Run<Bl(!new)>(p: Layout<Bl>, s: State<Bl>, order: seq<nat>): (s': State<Bl>)
    requires Inv(p, s) && forall i :: 0 <= i < |order| ==> order[i] < |s.workers|
    ensures Inv(p, s') && |s'.workers| == |s.workers|
    decreases |order|
  {
    if order == [] then s
    else
      StepFits(p, s, order);
      Run(p, Step(p, s, order[0]), order[1..])
  }
}
