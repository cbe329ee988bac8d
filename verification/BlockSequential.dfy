/** The single-threaded permutation as runs of the protocol: what one read and one write amount to. */
module BlockSequential {
  import opened Bags
  import opened BlockProtocol
  import opened BlockInvariant
  import opened BlockResults

  ghost predicate Alone<Bl(!new)>(p: Layout<Bl>, s: State<Bl>) {
    Inv(p, s) && |s.workers| == 1
  }

  lemma InitAlone<Bl(!new)>(p: Layout<Bl>, mem: seq<Bl>)
    requires Start(p, mem) && p.first == [0]
    ensures var s := Init(p, mem);
      && Alone(p, s) && s.mem == mem && s.w == p.start[..Num(p)]
      && |s.r| == Num(p) > 0 && (forall b :: 0 <= b < Num(p) ==> s.r[b] == p.full[b] as int - 1)
      && s.workers[0] == Worker(Ready, 0, 0, None, None)
  {
    InitInv(p, mem);
  }

  /** Outcome of trying to read a block from the current bucket. */
  ghost predicate ReadResult<Bl(!new)>(p: Layout<Bl>, s: State<Bl>, s': State<Bl>)
    requires Alone(p, s)
  {
    var wk := s.workers[0];
    var b := Bucket(p, wk);
    && s'.mem == s.mem && s'.w == s.w && s'.r == s.r[b := s.r[b] - 1] && |s'.workers| == 1
    && if s.r[b] < s.w[b] then
         s'.workers[0] == wk.(visited := wk.visited + 1, phase := if wk.visited + 1 == Num(p) then Finished else Ready)
       else
         && s.r[b] < |s.mem|
         && s'.workers[0] == wk.(phase := Placing, held := Some(s.mem[s.r[b]]))
  }

  lemma Advance<Bl(!new)>(p: Layout<Bl>, s: State<Bl>) returns (s': State<Bl>)
    requires Alone(p, s)
    ensures Alone(p, s') && s' == Step(p, s, 0)
    ensures s.workers[0].phase.Entered? ==>
      (var b := Bucket(p, s.workers[0]); s.w[b] <= s.r[b] ==> s.r[b] < |s.un| && s.r[b] < |s.mem|)
    ensures Num(p) > 0 && |s.w| == |s.r| == |s.reading| == Num(p)
    ensures !Blocked(p, s, 0) ==> Work(p, s') < Work(p, s)
  {
    s' := Step(p, s, 0);
    StepWorks(p, s, 0);
    StepFits(p, s, [0]);
    if s.workers[0].phase.Entered? { ReadBound(p, s, 0); }
  }

  lemma ReadMacro<Bl(!new)>(p: Layout<Bl>, s: State<Bl>) returns (s': State<Bl>)
    requires Alone(p, s) && s.workers[0].phase.Ready?
    ensures Alone(p, s') && ReadResult(p, s, s') && Work(p, s') < Work(p, s)
  {
    hide Inv;
    var s1 := Advance(p, s);
    var s2 := Advance(p, s1);
    s' := Advance(p, s2);
    if s2.workers[0].phase.Copying? { s' := Advance(p, s'); }
  }

  /** Outcome of one turn of the loop that places the held block. */
  ghost predicate PlaceResult<Bl(!new)>(p: Layout<Bl>, s: State<Bl>, s': State<Bl>)
    requires Alone(p, s) && s.workers[0].held.Some?
  {
    var wk := s.workers[0];
    var x := wk.held.value;
    var d := p.cls(x);
    && d < |s.w| == |s.r| && |s'.workers| == 1
    && s'.w == s.w[d := s.w[d] + 1] && s'.r == s.r
    && if s.w[d] > s.r[d] then
         if s.w[d] >= p.whole then
           s'.mem == s.mem && s'.workers[0] == wk.(phase := Ready, held := None, spill := Some(x))
         else
           && s.w[d] < |s.mem| && s'.mem == s.mem[s.w[d] := x]
           && s'.workers[0] == wk.(phase := Ready, held := None)
       else
         && s.w[d] < |s.mem|
         && if p.cls(s.mem[s.w[d]]) == d then s'.mem == s.mem && s'.workers[0] == wk
            else
              && s'.mem == s.mem[s.w[d] := x]
              && s'.workers[0] == wk.(held := Some(s.mem[s.w[d]]))
  }

  lemma NobodyReads<Bl(!new)>(p: Layout<Bl>, s: State<Bl>, d: nat)
    requires Alone(p, s) && !Inside(s.workers[0].phase) && d < Num(p)
    ensures s.reading[d] == 0
  {
    CountNone(s.workers, Reads(Num(p), d));
  }

  lemma Placeable<Bl(!new)>(p: Layout<Bl>, s: State<Bl>)
    requires Alone(p, s) && s.workers[0].phase.Placing?
    ensures s.workers[0].held.Some? && CanPlace(p, s, 0, p.cls(s.workers[0].held.value))
    ensures var d := p.cls(s.workers[0].held.value);
      && d < |s.w| == |s.r| == Num(p) && |s.mem| == p.whole
      && (s.w[d] <= s.r[d] ==> s.w[d] < p.whole)
  {
    WriteBound(p, s, 0);
    FreshSlot(p, s, 0, p.cls(s.workers[0].held.value));
  }

  lemma PlaceMacro<Bl(!new)>(p: Layout<Bl>, s: State<Bl>) returns (s': State<Bl>)
    requires Alone(p, s) && s.workers[0].phase.Placing?
    ensures s.workers[0].held.Some?
    ensures Alone(p, s') && PlaceResult(p, s, s') && Work(p, s') < Work(p, s)
  {
    hide Inv;
    Placeable(p, s);
    var d := p.cls(s.workers[0].held.value);
    s' := Advance(p, s);
    if s'.workers[0].phase.Swapping? {
      s' := Advance(p, s');
    } else if s'.workers[0].phase.Spinning? {
      NobodyReads(p, s', d);
      s' := Advance(p, s');
      s' := Advance(p, s');
    }
  }
}
