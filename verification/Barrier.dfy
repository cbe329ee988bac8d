/**
 * The reusable barrier with single execution. Threads go through the same sequence of operations; every
 * critical section is one atomic step, and a waiting thread may go on when the flag differs from the one
 * it saw.
 */
module Barrier {
  import opened Bags
  import Schedules

  datatype Op = Wait | Single

  datatype Phase =
    | Outside           // before its next operation
    | Executing         // runs the function of single, without the lock
    | Returning         // the function is done, about to take the lock again
    | Blocked(f: bool)  // waits for the flag to differ from f

  /** Operations completed, and what the thread is doing. */
  datatype Thread = Thread(gen: nat, phase: Phase)

  /** started and runs count, per operation, how often its function was begun and completed. */
  datatype State = State(hit: int, flag: bool, flips: nat, threads: seq<Thread>, started: seq<nat>, runs: seq<nat>)

  ghost function Entered(g: nat): Thread -> bool { (th: Thread) => th.gen == g && !th.phase.Outside? }

  predicate InFunction(ph: Phase) { ph.Executing? || ph.Returning? }

  ghost function Executes(g: nat): Thread -> bool { (th: Thread) => th.gen == g && InFunction(th.phase) }

  ghost function Runs(g: nat): Thread -> bool { (th: Thread) => th.gen == g && th.phase.Executing? }

  // ---------------------------------------------------------------- steps

  ghost function SetThread(s: State, t: nat, th: Thread): State
    requires t < |s.threads|
  {
    s.(threads := s.threads[t := th])
  }

  /** Thread t flips the flag and leaves. */
  ghost function NotifyAll(s: State, t: nat): State
    requires t < |s.threads|
  {
    SetThread(s, t, Thread(s.threads[t].gen + 1, Outside)).(hit := |s.threads|, flag := !s.flag, flips := s.flips + 1)
  }

  ghost function Block(s: State, t: nat, hit: int): State
    requires t < |s.threads|
  {
    SetThread(s, t, Thread(s.threads[t].gen, Blocked(s.flag))).(hit := hit)
  }

  ghost function Step(ops: seq<Op>, s: State, t: nat): State
    requires t < |s.threads| && |s.started| == |s.runs| == |ops|
  {
    var th := s.threads[t];
    var g := th.gen;
    if g >= |ops| then s
    else match th.phase
      case Outside =>
        if ops[g].Wait? then
          if s.hit - 1 == 0 then NotifyAll(s, t) else Block(s, t, s.hit - 1)
        else if s.hit == |s.threads| then
          SetThread(s, t, Thread(g, Executing)).(hit := s.hit - 1, started := s.started[g := s.started[g] + 1])
        else if s.hit - 1 < 0 then NotifyAll(s, t) else Block(s, t, s.hit - 1)
      case Executing => SetThread(s, t, Thread(g, Returning)).(runs := s.runs[g := s.runs[g] + 1])
      case Returning => if s.hit - 1 < 0 then NotifyAll(s, t) else Block(s, t, s.hit - 1)
      case Blocked(f) => if s.flag != f then SetThread(s, t, Thread(g + 1, Outside)) else s
  }

  // ---------------------------------------------------------------- invariant

  ghost predicate ThreadOk(ops: seq<Op>, s: State, th: Thread) {
    || (th.gen == s.flips && th.phase.Outside?)
    || (th.gen == s.flips < |ops| && th.phase == Blocked(s.flag))
    || (th.gen == s.flips < |ops| && InFunction(th.phase) && ops[s.flips].Single?)
    || (th.gen + 1 == s.flips && th.phase == Blocked(!s.flag))
  }

  ghost predicate Shape(ops: seq<Op>, s: State) {
    && |s.threads| > 0 && |s.started| == |s.runs| == |ops| && s.flips <= |ops|
    && forall t :: 0 <= t < |s.threads| ==> ThreadOk(ops, s, s.threads[t])
  }

  /** The counter, in terms of the threads that have entered the current operation. */
  ghost predicate Counter(ops: seq<Op>, s: State) {
    var T, e, x := |s.threads|, Count(s.threads, Entered(s.flips)), Count(s.threads, Executes(s.flips));
    if s.flips >= |ops| then s.hit == T
    else if ops[s.flips].Wait? then s.hit == T - e && e < T && x == 0
    else
      && x <= 1
      && (if e > 0 && x == 0 then s.hit == T - e - 1 && e < T else s.hit == T - e && e <= T)
  }

  ghost predicate Functions(ops: seq<Op>, s: State)
    requires |s.started| == |s.runs| == |ops|
  {
    && (forall g :: 0 <= g < |ops| && g < s.flips && ops[g].Single? ==> s.started[g] == s.runs[g] == 1)
    && (forall g :: 0 <= g < |ops| && g > s.flips ==> s.started[g] == s.runs[g] == 0)
    && (s.flips < |ops| && ops[s.flips].Single? ==>
         && s.started[s.flips] == (if Count(s.threads, Entered(s.flips)) > 0 then 1 else 0)
         && s.runs[s.flips] == s.started[s.flips] - Count(s.threads, Runs(s.flips)))
  }

  ghost predicate Inv(ops: seq<Op>, s: State) {
    Shape(ops, s) && Counter(ops, s) && Functions(ops, s)
  }

  // ---------------------------------------------------------------- preservation

  lemma {:induction false} CountFull<T>(s: seq<T>, p: T -> bool, i: nat)
    requires Count(s, p) == |s| && i < |s|
    ensures p(s[i])
  {
    CountBound(s[1..], p);
    if i > 0 { CountFull(s[1..], p, i - 1); }
  }

  lemma {:induction false} CountSome<T>(s: seq<T>, p: T -> bool, i: nat)
    requires i < |s| && p(s[i])
    ensures Count(s, p) > 0
  {
    if i > 0 { CountSome(s[1..], p, i - 1); }
  }

  /** The counts after thread t changes. */
  lemma Recount(s: State, t: nat, th: Thread, g: nat)
    requires t < |s.threads|
    ensures var u := s.threads[t := th];
      && Count(u, Entered(g)) + (if Entered(g)(s.threads[t]) then 1 else 0)
         == Count(s.threads, Entered(g)) + (if Entered(g)(th) then 1 else 0)
      && Count(u, Executes(g)) + (if Executes(g)(s.threads[t]) then 1 else 0)
         == Count(s.threads, Executes(g)) + (if Executes(g)(th) then 1 else 0)
      && Count(u, Runs(g)) + (if Runs(g)(s.threads[t]) then 1 else 0)
         == Count(s.threads, Runs(g)) + (if Runs(g)(th) then 1 else 0)
  {
    CountUpdate(s.threads, t, th, Entered(g));
    CountUpdate(s.threads, t, th, Executes(g));
    CountUpdate(s.threads, t, th, Runs(g));
  }

  /** When the flag flips, all threads have entered, and the function has been completed. */
  lemma Flip(ops: seq<Op>, s: State, t: nat)
    requires Inv(ops, s) && t < |s.threads| && s.flips < |ops| && s.threads[t].gen == s.flips
    requires forall u :: 0 <= u < |s.threads| && u != t ==> s.threads[u] == Thread(s.flips, Blocked(s.flag))
    requires ops[s.flips].Single? ==> s.started[s.flips] == s.runs[s.flips] == 1
    ensures Inv(ops, NotifyAll(s, t))
  {
    var s' := NotifyAll(s, t);
    forall u | 0 <= u < |s'.threads| ensures ThreadOk(ops, s', s'.threads[u]) {}
    CountNone(s'.threads, Entered(s'.flips));
    CountNone(s'.threads, Executes(s'.flips));
    CountNone(s'.threads, Runs(s'.flips));
  }

  lemma EnterBarrier(ops: seq<Op>, s: State, t: nat)
    requires Inv(ops, s) && t < |s.threads| && s.threads[t].phase.Outside? && s.threads[t].gen < |ops|
    requires ops[s.threads[t].gen].Wait?
    ensures Inv(ops, Step(ops, s, t))
  {
    var g := s.flips;
    assert ThreadOk(ops, s, s.threads[t]);
    if s.hit - 1 == 0 {
      Recount(s, t, Thread(g, Blocked(s.flag)), g);
      AllBlocked(ops, s, t);
      Flip(ops, s, t);
    } else {
      var s' := Block(s, t, s.hit - 1);
      Recount(s, t, Thread(g, Blocked(s.flag)), g);
      forall u | 0 <= u < |s'.threads|
        ensures ThreadOk(ops, s', s'.threads[u])
      {
        assert ThreadOk(ops, s, s.threads[u]);
      }
    }
  }

  /** If one more entry completes the count, all other threads are blocked. */
  lemma AllBlocked(ops: seq<Op>, s: State, t: nat)
    requires Inv(ops, s) && t < |s.threads| && s.flips < |ops| && s.threads[t].gen == s.flips
    requires Count(s.threads[t := Thread(s.flips, Blocked(s.flag))], Entered(s.flips)) == |s.threads|
    requires Count(s.threads[t := Thread(s.flips, Blocked(s.flag))], Executes(s.flips)) == 0
    ensures forall u :: 0 <= u < |s.threads| && u != t ==> s.threads[u] == Thread(s.flips, Blocked(s.flag))
  {
    var us := s.threads[t := Thread(s.flips, Blocked(s.flag))];
    forall u | 0 <= u < |s.threads| && u != t ensures s.threads[u] == Thread(s.flips, Blocked(s.flag)) {
      assert ThreadOk(ops, s, s.threads[u]);
      CountFull(us, Entered(s.flips), u);
      if InFunction(us[u].phase) { CountSome(us, Executes(s.flips), u); }
    }
  }

  lemma EnterSingle(ops: seq<Op>, s: State, t: nat)
    requires Inv(ops, s) && t < |s.threads| && s.threads[t].phase.Outside? && s.threads[t].gen < |ops|
    requires ops[s.threads[t].gen].Single?
    ensures Inv(ops, Step(ops, s, t))
  {
    var g := s.flips;
    assert ThreadOk(ops, s, s.threads[t]);
    Recount(s, t, Thread(g, Blocked(s.flag)), g);
    Recount(s, t, Thread(g, Executing), g);
    CountBound(s.threads[t := Thread(g, Blocked(s.flag))], Entered(g));
    if s.hit == |s.threads| {
      NobodyExecutes(s, g);
      var s' := Step(ops, s, t);
      forall u | 0 <= u < |s'.threads|
        ensures ThreadOk(ops, s', s'.threads[u])
      {
        assert ThreadOk(ops, s, s.threads[u]);
      }
    } else if s.hit - 1 < 0 {
      NobodyRuns(s, g);
      AllBlocked(ops, s, t);
      Flip(ops, s, t);
    } else {
      var s' := Block(s, t, s.hit - 1);
      forall u | 0 <= u < |s'.threads|
        ensures ThreadOk(ops, s', s'.threads[u])
      {
        assert ThreadOk(ops, s, s.threads[u]);
      }
    }
  }

  lemma {:induction false} CountLess<T>(s: seq<T>, p: T -> bool, q: T -> bool)
    requires forall i :: 0 <= i < |s| && p(s[i]) ==> q(s[i])
    ensures Count(s, p) <= Count(s, q)
  {
    if s != [] {
      assert p(s[0]) ==> q(s[0]);
      forall i | 0 <= i < |s[1..]| && p(s[1..][i]) ensures q(s[1..][i]) { assert p(s[i + 1]) ==> q(s[i + 1]); }
      CountLess(s[1..], p, q);
    }
  }

  lemma NobodyExecutes(s: State, g: nat)
    ensures Count(s.threads, Executes(g)) <= Count(s.threads, Entered(g))
    ensures Count(s.threads, Runs(g)) <= Count(s.threads, Executes(g))
  {
    CountLess(s.threads, Executes(g), Entered(g));
    CountLess(s.threads, Runs(g), Executes(g));
  }

  lemma NobodyRuns(s: State, g: nat)
    ensures Count(s.threads, Runs(g)) <= Count(s.threads, Executes(g))
  {
    CountLess(s.threads, Runs(g), Executes(g));
  }

  lemma LeaveFunction(ops: seq<Op>, s: State, t: nat)
    requires Inv(ops, s) && t < |s.threads| && InFunction(s.threads[t].phase)
    ensures Inv(ops, Step(ops, s, t))
  {
    var g := s.flips;
    assert ThreadOk(ops, s, s.threads[t]);
    Recount(s, t, Thread(g, Returning), g);
    Recount(s, t, Thread(g, Blocked(s.flag)), g);
    CountSome(s.threads, Executes(g), t);
    NobodyExecutes(s, g);
    if s.threads[t].phase.Executing? { CountSome(s.threads, Runs(g), t); }
    if s.threads[t].phase.Returning? && s.hit - 1 < 0 {
      NobodyExecutes(s.(threads := s.threads[t := Thread(g, Blocked(s.flag))]), g);
      AllBlocked(ops, s, t);
      Flip(ops, s, t);
    } else {
      var s' := Step(ops, s, t);
      forall u | 0 <= u < |s'.threads|
        ensures ThreadOk(ops, s', s'.threads[u])
      {
        assert ThreadOk(ops, s, s.threads[u]);
      }
      NobodyExecutes(s', g);
    }
  }

  lemma LeaveBlocked(ops: seq<Op>, s: State, t: nat)
    requires Inv(ops, s) && t < |s.threads| && s.threads[t].phase.Blocked?
    ensures Inv(ops, Step(ops, s, t))
  {
    assert ThreadOk(ops, s, s.threads[t]);
    Recount(s, t, Thread(s.threads[t].gen + 1, Outside), s.flips);
    var s' := Step(ops, s, t);
    forall u | 0 <= u < |s'.threads| ensures ThreadOk(ops, s', s'.threads[u]) { assert ThreadOk(ops, s, s.threads[u]); }
  }

  lemma StepKeeps(ops: seq<Op>, s: State, t: nat)
    requires Inv(ops, s) && t < |s.threads|
    ensures Inv(ops, Step(ops, s, t))
  {
    if s.threads[t].gen < |ops| {
      match s.threads[t].phase
      case Outside => if ops[s.threads[t].gen].Wait? { EnterBarrier(ops, s, t); } else { EnterSingle(ops, s, t); }
      case Executing => LeaveFunction(ops, s, t);
      case Returning => LeaveFunction(ops, s, t);
      case Blocked(f) => LeaveBlocked(ops, s, t);
    }
  }

  // ---------------------------------------------------------------- runs

  ghost function Init(n: nat, ops: seq<Op>): State {
    State(n, false, 0, seq(n, t => Thread(0, Outside)), seq(|ops|, g => 0), seq(|ops|, g => 0))
  }

  lemma InitInv(n: nat, ops: seq<Op>)
    requires n > 0
    ensures Inv(ops, Init(n, ops))
  {
    var s := Init(n, ops);
    forall t | 0 <= t < |s.threads| ensures ThreadOk(ops, s, s.threads[t]) {}
    CountNone(s.threads, Entered(0));
    CountNone(s.threads, Executes(0));
    CountNone(s.threads, Runs(0));
  }

  lemma StepFits(ops: seq<Op>, s: State, order: seq<nat>)
    requires Inv(ops, s) && order != [] && forall i :: 0 <= i < |order| ==> order[i] < |s.threads|
    ensures Inv(ops, Step(ops, s, order[0])) && |Step(ops, s, order[0]).threads| == |s.threads|
    ensures forall i :: 0 <= i < |order[1..]| ==> order[1..][i] < |Step(ops, s, order[0]).threads|
  {
    StepKeeps(ops, s, order[0]);
  }

  ghost function Run(ops: seq<Op>, s: State, order: seq<nat>): (r: State)
    requires Inv(ops, s) && forall i :: 0 <= i < |order| ==> order[i] < |s.threads|
    ensures Inv(ops, r) && |r.threads| == |s.threads|
    decreases |order|
  {
    if order == [] then s
    else
      StepFits(ops, s, order);
      Run(ops, Step(ops, s, order[0]), order[1..])
  }

  ghost predicate Schedule(n: nat, order: seq<nat>) { n > 0 && forall i :: 0 <= i < |order| ==> order[i] < n }

  ghost function After(n: nat, ops: seq<Op>, order: seq<nat>): (r: State)
    requires Schedule(n, order)
    ensures Inv(ops, r) && |r.threads| == n
  {
    InitInv(n, ops);
    Run(ops, Init(n, ops), order)
  }

  /**
   * Nobody leaves an operation before all threads have entered it. A thread that is one operation behind
   * is inside that operation and free to go on: no second flip of the flag has stranded it.
   */
  lemma NobodyLeavesEarly(n: nat, ops: seq<Op>, order: seq<nat>, t: nat, u: nat)
    requires Schedule(n, order) && t < n && u < n
    ensures var s := After(n, ops, order);
      && s.threads[t].gen <= s.threads[u].gen + 1
      && (s.threads[t].gen > s.threads[u].gen ==> s.threads[u].phase == Blocked(!s.flag))
  {
    var s := After(n, ops, order);
    assert ThreadOk(ops, s, s.threads[t]) && ThreadOk(ops, s, s.threads[u]);
  }

  /** single executes its function once per operation, and completes it before anyone leaves. */
  lemma SingleOnce(n: nat, ops: seq<Op>, order: seq<nat>, t: nat, g: nat)
    requires Schedule(n, order) && t < n && g < |ops| && ops[g].Single?
    ensures var s := After(n, ops, order);
      && |s.started| == |s.runs| == |ops| && s.runs[g] <= s.started[g] <= 1
      && (s.threads[t].gen > g ==> s.runs[g] == 1)
      && (s.threads[t].gen + 1 < g ==> s.started[g] == 0)
  {
    var s := After(n, ops, order);
    assert ThreadOk(ops, s, s.threads[t]);
  }

  /** No deadlock: unless all threads are through, some thread can go on. */
  lemma NoDeadlock(n: nat, ops: seq<Op>, order: seq<nat>) returns (t: nat)
    requires Schedule(n, order)
    requires exists u :: 0 <= u < n && After(n, ops, order).threads[u].gen < |ops|
    ensures t < n && Step(ops, After(n, ops, order), t) != After(n, ops, order)
  {
    t := SomeGoesOn(ops, After(n, ops, order));
    StepLeaves(ops, After(n, ops, order), t);
  }

  // ---------------------------------------------------------------- fair schedules

  /** How many actions a thread has still to take, at most. */
  ghost function Left(ops: seq<Op>): Thread -> nat {
    (th: Thread) => if th.gen >= |ops| then 0 else 4 * (|ops| - th.gen) + ToGo(th.phase)
  }

  function ToGo(ph: Phase): nat {
    match ph
    case Outside => 3
    case Executing => 2
    case Returning => 1
    case Blocked(_) => 0
  }

  ghost function AllLeft(ops: seq<Op>, ths: seq<Thread>): nat {
    if ths == [] then 0 else Left(ops)(ths[0]) + AllLeft(ops, ths[1..])
  }

  lemma {:induction false} LeftUpdate(ops: seq<Op>, ths: seq<Thread>, t: nat, th: Thread)
    requires t < |ths|
    ensures AllLeft(ops, ths[t := th]) + Left(ops)(ths[t]) == AllLeft(ops, ths) + Left(ops)(th)
  {
    if t == 0 {
      assert ths[t := th][1..] == ths[1..];
    } else {
      assert ths[t := th][1..] == ths[1..][t - 1 := th];
      LeftUpdate(ops, ths[1..], t - 1, th);
    }
  }

  /** A thread that is through, or waits for a flip of the flag. */
  predicate Stuck(ops: seq<Op>, s: State, t: nat)
    requires t < |s.threads|
  {
    s.threads[t].gen >= |ops| || s.threads[t].phase == Blocked(s.flag)
  }

  /** Every other action brings the thread on. */
  lemma StepLeaves(ops: seq<Op>, s: State, t: nat)
    requires Inv(ops, s) && t < |s.threads|
    ensures Stuck(ops, s, t) ==> Step(ops, s, t) == s
    ensures !Stuck(ops, s, t) ==> AllLeft(ops, Step(ops, s, t).threads) < AllLeft(ops, s.threads)
  {
    StepGoesOn(ops, s, t);
    hide *;
    if !Stuck(ops, s, t) {
      LeftUpdate(ops, s.threads, t, Step(ops, s, t).threads[t]);
    }
  }

  lemma StepGoesOn(ops: seq<Op>, s: State, t: nat)
    requires Inv(ops, s) && t < |s.threads|
    ensures |s.started| == |s.runs| == |ops|
    ensures var s' := Step(ops, s, t);
      && |s'.threads| == |s.threads| && s'.threads == s.threads[t := s'.threads[t]]
      && if Stuck(ops, s, t) then s' == s else Left(ops)(s'.threads[t]) < Left(ops)(s.threads[t])
  {
    hide Counter, Functions;
  }

  ghost predicate AllThrough(ops: seq<Op>, s: State) {
    forall t :: 0 <= t < |s.threads| ==> s.threads[t].gen >= |ops|
  }

  lemma SomeGoesOn(ops: seq<Op>, s: State) returns (t: nat)
    requires Inv(ops, s) && !AllThrough(ops, s)
    ensures t < |s.threads| && !Stuck(ops, s, t)
  {
    if u :| 0 <= u < |s.threads| && !Stuck(ops, s, u) {
      t := u;
    } else {
      t :| 0 <= t < |s.threads| && s.threads[t].gen < |ops|;
      assert ThreadOk(ops, s, s.threads[t]) && Stuck(ops, s, t);
      forall i | 0 <= i < |s.threads| ensures Entered(s.flips)(s.threads[i]) && !Executes(s.flips)(s.threads[i]) {
        assert ThreadOk(ops, s, s.threads[i]) && Stuck(ops, s, i);
      }
      CountAll(s.threads, Entered(s.flips));
      CountNone(s.threads, Executes(s.flips));
    }
  }

  /** An endless run from the start, in which thread f(i) takes the i-th action. */
  ghost predicate Endless(n: nat, ops: seq<Op>, ss: nat -> State, f: nat -> nat) {
    && n > 0 && ss(0) == Init(n, ops)
    && forall i: nat :: Acts(ops, ss(i), ss(i + 1), f(i))
  }

  ghost predicate Acts(ops: seq<Op>, s: State, s': State, t: nat) {
    t < |s.threads| && |s.started| == |s.runs| == |ops| && s' == Step(ops, s, t)
  }

  /** Every thread that is not through gets to act again. */
  ghost predicate Fair(ops: seq<Op>, ss: nat -> State, f: nat -> nat) {
    forall k: nat, t: nat :: t < |ss(k).threads| && ss(k).threads[t].gen < |ops| ==> Schedules.ActsAfter(f, k, t)
  }

  lemma {:induction false} EndlessInv(n: nat, ops: seq<Op>, ss: nat -> State, f: nat -> nat, i: nat)
    requires Endless(n, ops, ss, f)
    ensures Inv(ops, ss(i)) && |ss(i).threads| == n
  {
    if i == 0 {
      InitInv(n, ops);
    } else {
      EndlessInv(n, ops, ss, f, i - 1);
      assert Acts(ops, ss(i - 1), ss(i - 1 + 1), f(i - 1));
      StepKeeps(ops, ss(i - 1), f(i - 1));
      hide Inv, Step;
      StepGoesOn(ops, ss(i - 1), f(i - 1));
    }
  }

  ghost function LeftOver(ops: seq<Op>): State -> nat { (s: State) => AllLeft(ops, s.threads) }

  ghost function IsStuck(ops: seq<Op>): (State, nat) -> bool {
    (s: State, t: nat) => t >= |s.threads| || Stuck(ops, s, t)
  }

  ghost function Through(ops: seq<Op>): State -> bool { (s: State) => AllThrough(ops, s) }

  /** In every fair run all threads get through all operations. */
  lemma FairFinishes(n: nat, ops: seq<Op>, ss: nat -> State, f: nat -> nat) returns (m: nat)
    requires Endless(n, ops, ss, f) && Fair(ops, ss, f)
    ensures AllThrough(ops, ss(m)) && Inv(ops, ss(m))
  {
    forall i: nat ensures if IsStuck(ops)(ss(i), f(i)) then ss(i + 1) == ss(i)
      else LeftOver(ops)(ss(i + 1)) < LeftOver(ops)(ss(i))
    {
      EndlessInv(n, ops, ss, f, i);
      assert Acts(ops, ss(i), ss(i + 1), f(i));
      hide Inv, Step, AllLeft, Stuck;
      StepLeaves(ops, ss(i), f(i));
    }
    forall k: nat | !Through(ops)(ss(k)) ensures Schedules.SomeActs(ss(k), f, k, IsStuck(ops)) {
      EndlessInv(n, ops, ss, f, k);
      var t := SomeGoesOn(ops, ss(k));
      assert ss(k).threads[t].gen < |ops| && Schedules.ActsAfter(f, k, t) && !IsStuck(ops)(ss(k), t);
    }
    m := Schedules.Ends(ss, f, LeftOver(ops), IsStuck(ops), Through(ops), 0);
    EndlessInv(n, ops, ss, f, m);
  }
}
