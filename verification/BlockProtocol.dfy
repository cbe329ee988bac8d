/**
 * The block permutation phase as a transition system over any number of threads.
 *
 * Slots are block-sized pieces of the array, counted from its start. Bucket b owns the slots
 * from start[b] up to start[b + 1]; those below full[b] hold the blocks that local
 * classification flushed. One call of Step is one atomic action of one thread: raising the reader
 * count, the fetch-and-subtract on the read pointer, the copy, lowering the reader count, the
 * fetch-and-add on the write pointer, one test of the spin loop, and the write or swap.
 *
 * The fields res, un, owned, claim and spiller are bookkeeping: no action looks at them.
 */
module BlockProtocol {
  import opened Bags

  datatype Option<+T> = None | Some(value: T)

  datatype Phase =
    | Ready                // about to try a read
    | Entered              // reader count raised, read pointer not yet taken
    | Copying(from: nat)   // owns slot `from` for reading
    | Copied               // block is in the swap buffer, reader count still raised
    | Refused              // bucket was exhausted, reader count still raised
    | Placing              // about to take a write slot for the held block
    | Swapping(at: nat)    // took a slot that still holds an unread block
    | Spinning(at: nat)    // took an empty slot, waits for the readers of the bucket
    | Writing(at: nat)     // took an empty slot, no reader was left
    | Finished

  datatype Worker<+Bl> =
    Worker(phase: Phase, first: nat, visited: nat, held: Option<Bl>, spill: Option<Bl>)

  datatype Layout<!Bl> =
    Layout(start: seq<nat>, full: seq<nat>, owner: seq<nat>, whole: nat, first: seq<nat>,
           blocks: seq<Option<Bl>>, cls: Bl -> nat)

  datatype State<+Bl> =
    State(mem: seq<Bl>, w: seq<nat>, r: seq<int>, reading: seq<int>, workers: seq<Worker<Bl>>,
          res: seq<Option<Bl>>, un: seq<Option<Bl>>, owned: seq<Option<Bl>>,
          claim: seq<Option<nat>>, spiller: Option<nat>)

  ghost function IsOf<Bl>(cls: Bl -> nat, b: nat): Option<Bl> -> bool {
    (o: Option<Bl>) => o.Some? && cls(o.value) == b
  }

  /** Number of buckets. */
  ghost function Num<Bl>(p: Layout<Bl>): nat { |p.full| }

  ghost predicate Basic<Bl(!new)>(p: Layout<Bl>) {
    && Num(p) > 0
    && |p.start| == Num(p) + 1
    && |p.owner| == |p.blocks| == p.start[Num(p)] <= p.whole + 1
    && (forall b :: 0 <= b < Num(p) ==>
         p.start[b] <= p.full[b] <= p.start[b + 1] && (p.start[b] < p.full[b] ==> p.full[b] <= p.whole))
    && (forall q :: 0 <= q < |p.owner| ==> p.owner[q] < Num(p) && p.start[p.owner[q]] <= q < p.start[p.owner[q] + 1])
    && (forall x :: p.cls(x) < Num(p))
  }

  /** What local classification leaves: full blocks first, and no bucket has too many of them. */
  ghost predicate Valid<Bl(!new)>(p: Layout<Bl>) {
    && Basic(p)
    && p.start[0] == 0
    && (forall b :: 0 <= b < Num(p) ==> Owns(p, b))
    && (forall q :: 0 <= q < |p.owner| ==> (p.blocks[q].Some? <==> q < p.full[p.owner[q]]))
    && (forall b :: 0 <= b < Num(p) ==> Count(p.blocks, IsOf(p.cls, b)) <= p.start[b + 1] - p.start[b])
    && (forall t :: 0 <= t < |p.first| ==> p.first[t] < Num(p))
  }

  ghost predicate Owns<Bl>(p: Layout<Bl>, b: nat)
    requires b + 1 < |p.start|
  {
    p.start[b + 1] <= |p.owner| && forall q :: p.start[b] <= q < p.start[b + 1] ==> p.owner[q] == b
  }

  /** The i-th bucket visited by a thread that started at bucket first. */
  ghost function At(n: nat, first: nat, i: nat): nat
    requires n > 0
  {
    (first + i) % n
  }

  ghost function Bucket<Bl>(p: Layout<Bl>, wk: Worker<Bl>): nat
    requires Num(p) > 0
  {
    At(Num(p), wk.first, wk.visited)
  }

  ghost predicate Inside(ph: Phase) {
    ph.Entered? || ph.Copying? || ph.Copied? || ph.Refused?
  }

  ghost function Reads<Bl>(n: nat, b: nat): Worker<Bl> -> bool
    requires n > 0
  {
    (wk: Worker<Bl>) => Inside(wk.phase) && At(n, wk.first, wk.visited) == b
  }

  ghost predicate Pending(ph: Phase, q: nat) {
    ph == Swapping(q) || ph == Spinning(q) || ph == Writing(q)
  }

  // ---------------------------------------------------------------- invariant

  ghost predicate Shape<Bl(!new)>(p: Layout<Bl>, s: State<Bl>) {
    && Basic(p)
    && |s.mem| == p.whole
    && |s.w| == |s.r| == |s.reading| == Num(p)
    && |s.workers| == |s.owned| == |p.first|
    && |s.res| == |s.un| == |s.claim| == |p.owner|
    && (forall b :: 0 <= b < Num(p) ==> p.start[b] <= s.w[b] <= p.start[b + 1] && s.r[b] < p.full[b])
  }

  ghost predicate Slots<Bl(!new)>(p: Layout<Bl>, s: State<Bl>)
    requires Shape(p, s)
  {
    forall q :: 0 <= q < |s.res| ==> Slot(p, s, q)
  }

  ghost predicate Slot<Bl(!new)>(p: Layout<Bl>, s: State<Bl>, q: nat)
    requires Shape(p, s) && q < |s.res|
  {
    var b := p.owner[q];
    && (s.res[q].Some? <==> q < s.w[b])
    && (s.res[q].Some? ==> p.cls(s.res[q].value) == b)
    && (s.w[b] <= q <= s.r[b] ==> q < p.whole && s.un[q] == Some(s.mem[q]))
    && (s.w[b] <= q && s.r[b] < q ==> s.un[q] == None)
    && (q < s.w[b] && s.claim[q] == None ==> s.un[q] == None && (q < p.whole ==> s.res[q] == Some(s.mem[q])))
    && (s.claim[q].Some? ==>
      q < s.w[b] && s.claim[q].value < |s.workers| && Pending(s.workers[s.claim[q].value].phase, q))
  }

  ghost predicate Workers<Bl(!new)>(p: Layout<Bl>, s: State<Bl>)
    requires Shape(p, s)
  {
    forall t :: 0 <= t < |s.workers| ==> WorkerOk(p, s, t)
  }

  ghost predicate WorkerOk<Bl(!new)>(p: Layout<Bl>, s: State<Bl>, t: nat)
    requires Shape(p, s) && t < |s.workers|
  {
    var wk := s.workers[t];
    && wk.first == p.first[t]
    && (if wk.phase.Finished? then wk.visited == Num(p) else wk.visited < Num(p))
    && match wk.phase
       case Copying(q) =>
         q < |s.res| && q < p.whole && p.owner[q] == Bucket(p, wk) && s.r[p.owner[q]] < q
         && s.owned[t] == Some(s.mem[q]) && wk.held == None
       case Copied => wk.held.Some? && s.owned[t] == wk.held
       case Placing => wk.held.Some? && s.owned[t] == wk.held
       case Swapping(q) =>
         q < |s.res| && q < p.whole && s.claim[q] == Some(t) && wk.held.Some? && wk.held == s.res[q]
         && s.owned[t] == None && s.un[q] == Some(s.mem[q])
       case Spinning(q) =>
         q < |s.res| && q < p.whole && s.claim[q] == Some(t) && wk.held.Some? && wk.held == s.res[q]
         && s.owned[t] == None && s.un[q] == None
       case Writing(q) =>
         q < |s.res| && q < p.whole && s.claim[q] == Some(t) && wk.held.Some? && wk.held == s.res[q]
         && s.owned[t] == None && s.un[q] == None
       case Refused => wk.held == None && s.owned[t] == None && Drained(s, Bucket(p, wk))
       case _ => wk.held == None && s.owned[t] == None
  }

  /** Nobody writes or swaps a slot that is being copied, and no slot is copied twice. */
  ghost predicate Exclusion<Bl(!new)>(s: State<Bl>) {
    forall t, u :: 0 <= t < |s.workers| && 0 <= u < |s.workers| && s.workers[t].phase.Copying? ==>
      NoClash(s.workers[t].phase.from, s.workers[u].phase, t == u)
  }

  ghost predicate NoClash(q: nat, ph: Phase, same: bool) {
    ph != Writing(q) && ph != Swapping(q) && (ph == Copying(q) ==> same)
  }

  ghost predicate Readers<Bl(!new)>(p: Layout<Bl>, s: State<Bl>)
    requires Shape(p, s)
  {
    forall b :: 0 <= b < Num(p) ==> s.reading[b] == Count(s.workers, Reads(Num(p), b))
  }

  /** The buckets a thread has left behind hold no unread block. */
  ghost predicate Behind<Bl(!new)>(p: Layout<Bl>, s: State<Bl>)
    requires Shape(p, s)
  {
    forall t :: 0 <= t < |s.workers| ==> LeftBehind(p, s, s.workers[t])
  }

  ghost predicate LeftBehind<Bl(!new)>(p: Layout<Bl>, s: State<Bl>, wk: Worker<Bl>)
    requires Shape(p, s)
  {
    forall i :: 0 <= i < wk.visited ==> Drained(s, At(Num(p), wk.first, i))
  }

  ghost predicate Drained<Bl>(s: State<Bl>, b: nat) {
    b < |s.r| && b < |s.w| && s.r[b] < s.w[b]
  }

  ghost predicate Spills<Bl(!new)>(p: Layout<Bl>, s: State<Bl>)
    requires Shape(p, s)
  {
    && (forall t :: 0 <= t < |s.workers| ==> (s.workers[t].spill.Some? <==> s.spiller == Some(t)))
    && (s.spiller.Some? ==> s.spiller.value < |s.workers| && p.whole < |s.res|
                            && s.res[p.whole] == s.workers[s.spiller.value].spill)
    && (p.whole < |s.res| && s.res[p.whole].Some? ==> s.spiller.Some?)
  }

  ghost function Cells<Bl>(s: State<Bl>): seq<Option<Bl>> { s.res + s.un + s.owned }

  /** Conservation: reserved, unread and carried blocks are the original blocks. */
  ghost predicate Ledger<Bl(!new)>(p: Layout<Bl>, s: State<Bl>) {
    multiset(Cells(s)) == multiset(Nones(|p.blocks|) + p.blocks + Nones(|p.first|))
  }

  ghost function Nones<Bl>(n: nat): seq<Option<Bl>> { seq(n, i => None) }

  ghost predicate Inv<Bl(!new)>(p: Layout<Bl>, s: State<Bl>) {
    && Valid(p) && Shape(p, s) && Slots(p, s) && Workers(p, s) && Exclusion(s) && Readers(p, s)
    && Behind(p, s) && Spills(p, s) && Ledger(p, s)
  }

  // ---------------------------------------------------------------- actions

  ghost function Init<Bl(!new)>(p: Layout<Bl>, mem: seq<Bl>): State<Bl>
    requires Valid(p) && |mem| == p.whole
  {
    State(mem, p.start[..Num(p)], seq(Num(p), b requires 0 <= b < Num(p) => p.full[b] as int - 1),
          seq(Num(p), b => 0),
          seq(|p.first|, t requires 0 <= t < |p.first| => Worker(Ready, p.first[t], 0, None, None)),
          Nones(|p.blocks|), p.blocks, Nones(|p.first|), seq(|p.blocks|, q => None), None)
  }

  /** num_reading + 1. */
  ghost function Enter<Bl(!new)>(p: Layout<Bl>, s: State<Bl>, t: nat): State<Bl>
    requires Shape(p, s) && t < |s.workers|
  {
    var b := Bucket(p, s.workers[t]);
    s.(reading := s.reading[b := s.reading[b] + 1],
       workers := s.workers[t := s.workers[t].(phase := Entered)])
  }

  /** Fetch-and-subtract on the read pointer, when the bucket has no block left. */
  ghost function Refuse<Bl(!new)>(p: Layout<Bl>, s: State<Bl>, t: nat): State<Bl>
    requires Shape(p, s) && t < |s.workers|
  {
    var b := Bucket(p, s.workers[t]);
    s.(r := s.r[b := s.r[b] - 1], workers := s.workers[t := s.workers[t].(phase := Refused)])
  }

  /** Fetch-and-subtract on the read pointer, when it yields a block. */
  ghost function Take<Bl(!new)>(p: Layout<Bl>, s: State<Bl>, t: nat): State<Bl>
    requires Shape(p, s) && t < |s.workers| && 0 <= s.r[Bucket(p, s.workers[t])] < |s.un|
  {
    var b := Bucket(p, s.workers[t]);
    var q := s.r[b];
    s.(r := s.r[b := q - 1], workers := s.workers[t := s.workers[t].(phase := Copying(q))],
       un := s.un[q := None], owned := s.owned[t := s.un[q]])
  }

  /** The copy into the swap buffer. */
  ghost function Copy<Bl(!new)>(p: Layout<Bl>, s: State<Bl>, t: nat): State<Bl>
    requires t < |s.workers| && s.workers[t].phase.Copying? && s.workers[t].phase.from < |s.mem|
  {
    s.(workers := s.workers[t := s.workers[t].(phase := Copied, held := Some(s.mem[s.workers[t].phase.from]))])
  }

  /** num_reading - 1; after a refusal the thread turns to the next bucket. */
  ghost function StopRead<Bl(!new)>(p: Layout<Bl>, s: State<Bl>, t: nat): State<Bl>
    requires Shape(p, s) && t < |s.workers|
  {
    var wk := s.workers[t];
    var b := Bucket(p, wk);
    var wk' := if wk.phase.Copied? then wk.(phase := Placing)
               else wk.(visited := wk.visited + 1, phase := if wk.visited + 1 == Num(p) then Finished else Ready);
    s.(reading := s.reading[b := s.reading[b] - 1], workers := s.workers[t := wk'])
  }

  /** Fetch-and-add on the write pointer of bucket d; slot w now belongs to thread t. */
  ghost function Reserve<Bl(!new)>(p: Layout<Bl>, s: State<Bl>, t: nat, d: nat): State<Bl>
    requires Shape(p, s) && t < |s.workers| && d < Num(p) && s.w[d] < |s.res|
  {
    var w := s.w[d];
    s.(w := s.w[d := w + 1], res := s.res[w := s.workers[t].held], owned := s.owned[t := None])
  }

  /** The slot lies past the last whole block: the block goes to the overflow buffer. */
  ghost function Overflow<Bl(!new)>(p: Layout<Bl>, s: State<Bl>, t: nat, d: nat): State<Bl>
    requires Shape(p, s) && t < |s.workers| && d < Num(p) && s.w[d] < |s.res|
  {
    var wk := s.workers[t];
    Reserve(p, s, t, d).(workers := s.workers[t := wk.(phase := Ready, held := None, spill := wk.held)],
                         spiller := Some(t))
  }

  ghost function ClaimEmpty<Bl(!new)>(p: Layout<Bl>, s: State<Bl>, t: nat, d: nat): State<Bl>
    requires Shape(p, s) && t < |s.workers| && d < Num(p) && s.w[d] < |s.res|
  {
    Reserve(p, s, t, d).(workers := s.workers[t := s.workers[t].(phase := Spinning(s.w[d]))],
                         claim := s.claim[s.w[d] := Some(t)])
  }

  ghost function ClaimFull<Bl(!new)>(p: Layout<Bl>, s: State<Bl>, t: nat, d: nat): State<Bl>
    requires Shape(p, s) && t < |s.workers| && d < Num(p) && s.w[d] < |s.res|
  {
    Reserve(p, s, t, d).(workers := s.workers[t := s.workers[t].(phase := Swapping(s.w[d]))],
                         claim := s.claim[s.w[d] := Some(t)])
  }

  /** The spin test found no reader. */
  ghost function Pass<Bl(!new)>(p: Layout<Bl>, s: State<Bl>, t: nat): State<Bl>
    requires t < |s.workers| && s.workers[t].phase.Spinning?
  {
    s.(workers := s.workers[t := s.workers[t].(phase := Writing(s.workers[t].phase.at))])
  }

  ghost function Write<Bl(!new)>(p: Layout<Bl>, s: State<Bl>, t: nat): State<Bl>
    requires Shape(p, s) && t < |s.workers| && s.workers[t].phase.Writing? && s.workers[t].held.Some?
    requires s.workers[t].phase.at < |s.mem| && s.workers[t].phase.at < |s.claim|
  {
    var q := s.workers[t].phase.at;
    s.(mem := s.mem[q := s.workers[t].held.value], claim := s.claim[q := None],
       workers := s.workers[t := s.workers[t].(phase := Ready, held := None)])
  }

  /** The block in the claimed slot already belongs there. */
  ghost function Skip<Bl(!new)>(p: Layout<Bl>, s: State<Bl>, t: nat): State<Bl>
    requires Shape(p, s) && t < |s.workers| && s.workers[t].phase.Swapping?
    requires s.workers[t].phase.at < |s.mem| && s.workers[t].phase.at < |s.claim|
  {
    var q := s.workers[t].phase.at;
    s.(un := s.un[q := None], claim := s.claim[q := None], res := s.res[q := Some(s.mem[q])],
       owned := s.owned[t := s.workers[t].held],
       workers := s.workers[t := s.workers[t].(phase := Placing)])
  }

  ghost function Exchange<Bl(!new)>(p: Layout<Bl>, s: State<Bl>, t: nat): State<Bl>
    requires Shape(p, s) && t < |s.workers| && s.workers[t].phase.Swapping? && s.workers[t].held.Some?
    requires s.workers[t].phase.at < |s.mem| && s.workers[t].phase.at < |s.claim|
  {
    var q := s.workers[t].phase.at;
    s.(un := s.un[q := None], claim := s.claim[q := None], mem := s.mem[q := s.workers[t].held.value],
       owned := s.owned[t := s.un[q]],
       workers := s.workers[t := s.workers[t].(phase := Placing, held := Some(s.mem[q]))])
  }

  /** What WriteBound gives for the block of thread t. */
  ghost predicate CanPlace<Bl(!new)>(p: Layout<Bl>, s: State<Bl>, t: nat, d: nat)
    requires Shape(p, s)
  {
    && t < |s.workers| && s.workers[t].phase.Placing? && s.workers[t].held.Some?
    && d == p.cls(s.workers[t].held.value)
    && s.w[d] < |s.res| && s.w[d] < p.start[d + 1] && p.owner[s.w[d]] == d
  }

  /** The fetch-and-add and what its result decides. */
  ghost function Place<Bl(!new)>(p: Layout<Bl>, s: State<Bl>, t: nat, d: nat): State<Bl>
    requires Shape(p, s) && CanPlace(p, s, t, d)
  {
    if s.w[d] <= s.r[d] then ClaimFull(p, s, t, d)
    else if s.w[d] >= p.whole then Overflow(p, s, t, d)
    else ClaimEmpty(p, s, t, d)
  }

  /** The next action of thread t. */
  ghost function Step<Bl(!new)>(p: Layout<Bl>, s: State<Bl>, t: nat): State<Bl>
    requires Inv(p, s) && t < |s.workers|
  {
    var wk := s.workers[t];
    assert WorkerOk(p, s, t);
    match wk.phase
    case Ready => Enter(p, s, t)
    case Entered =>
      ReadBound(p, s, t);
      var b := Bucket(p, wk);
      if s.r[b] < s.w[b] then Refuse(p, s, t) else Take(p, s, t)
    case Copying(_) => Copy(p, s, t)
    case Copied => StopRead(p, s, t)
    case Refused => StopRead(p, s, t)
    case Placing =>
      WriteBound(p, s, t);
      Place(p, s, t, p.cls(wk.held.value))
    case Swapping(q) =>
      if p.cls(s.mem[q]) == p.cls(wk.held.value) then Skip(p, s, t) else Exchange(p, s, t)
    case Spinning(_) =>
      if s.reading[p.cls(wk.held.value)] != 0 then s else Pass(p, s, t)
    case Writing(_) => Write(p, s, t)
    case Finished => s
  }

  // ---------------------------------------------------------------- write bound

  lemma CellsCount<Bl(!new)>(p: Layout<Bl>, s: State<Bl>, b: nat)
    requires Shape(p, s) && Ledger(p, s)
    ensures Count(s.res, IsOf(p.cls, b)) + Count(s.un, IsOf(p.cls, b)) + Count(s.owned, IsOf(p.cls, b))
         == Count(p.blocks, IsOf(p.cls, b))
  {
    var f := IsOf(p.cls, b);
    var n, m := Nones<Bl>(|p.blocks|), Nones<Bl>(|p.first|);
    CountOfBag(Cells(s), n + p.blocks + m, f);
    CountConcat(s.res + s.un, s.owned, f);
    CountConcat(s.res, s.un, f);
    CountConcat(n + p.blocks, m, f);
    CountConcat(n, p.blocks, f);
    CountNone(n, f);
    CountNone(m, f);
  }

  lemma CountRange<T>(s: seq<T>, lo: nat, hi: nat, p: T -> bool)
    requires lo <= hi <= |s|
    requires forall i :: lo <= i < hi ==> p(s[i])
    ensures Count(s, p) >= hi - lo
  {
    CountSplit(s, hi, p);
    CountSplit(s[..hi], lo, p);
    CountAll(s[..hi][lo..], p);
  }

  /** A read pointer at or above the write pointer points to an unread block of the bucket. */
  lemma ReadBound<Bl(!new)>(p: Layout<Bl>, s: State<Bl>, t: nat)
    requires Valid(p) && Shape(p, s) && Slots(p, s) && t < |s.workers|
    ensures var b := Bucket(p, s.workers[t]);
            s.w[b] <= s.r[b] ==>
              s.r[b] < |s.un| && s.r[b] < p.whole && p.owner[s.r[b]] == b && s.un[s.r[b]] == Some(s.mem[s.r[b]])
  {
    var b := Bucket(p, s.workers[t]);
    if s.w[b] <= s.r[b] {
      assert Owns(p, b);
      assert p.owner[s.r[b]] == b && Slot(p, s, s.r[b]);
    }
  }

  /** A thread that is about to place a block of bucket d finds a free slot of bucket d. */
  lemma WriteBound<Bl(!new)>(p: Layout<Bl>, s: State<Bl>, t: nat)
    requires Valid(p) && Shape(p, s) && Slots(p, s) && Workers(p, s) && Ledger(p, s)
    requires t < |s.workers| && s.workers[t].phase.Placing?
    ensures s.workers[t].held.Some?
    ensures CanPlace(p, s, t, p.cls(s.workers[t].held.value))
  {
    assert WorkerOk(p, s, t);
    var d := p.cls(s.workers[t].held.value);
    CellsCount(p, s, d);
    assert Owns(p, d);
    forall q | p.start[d] <= q < s.w[d] ensures q < |s.res| && IsOf(p.cls, d)(s.res[q]) {
      assert Owns(p, d) && p.owner[q] == d && Slot(p, s, q);
    }
    CountRange(s.res, p.start[d], s.w[d], IsOf(p.cls, d));
    CountRange(s.owned, t, t + 1, IsOf(p.cls, d));
  }
}
