/**
 * The work-sharing scheduler: private queues, a global queue, and termination detection by a counter of
 * idle threads. Every access to shared data is an atomic step of one thread.
 */
module Scheduler {
  import opened Bags
  import opened Buffers
  import opened Schedules

  // ---------------------------------------------------------------- the private queue

  /** A double-ended queue: a vector and the offset of its front. */
  class PrivateQueue<T> {
    var v: seq<T>
    var off: nat

    ghost predicate Valid()
      reads this
    {
      off <= |v| && (off > 0 ==> off < |v|)
    }

    ghost function Contents(): seq<T>
      reads this
      requires Valid()
    {
      v[off..]
    }

    constructor ()
      ensures Valid() && Contents() == []
    {
      v, off := [], 0;
    }

    method Emplace(e: T)
      requires Valid()
      modifies this
      ensures Valid() && Contents() == old(Contents()) + [e]
    {
      v := v + [e];
    }

    method Push(es: seq<T>)
      requires Valid()
      modifies this
      ensures Valid() && Contents() == old(Contents()) + es
    {
      v := v + es;
    }

    function Size(): (n: nat)
      reads this
      requires Valid()
      ensures n == |Contents()|
    {
      |v| - off
    }

    method PopBack() returns (e: T)
      requires Valid() && Size() > 0
      modifies this
      ensures Valid() && old(Contents()) == Contents() + [e]
    {
      e := v[|v| - 1];
      v := v[..|v| - 1];
      if |v| == off { Clear(); }
    }

    method PopFront() returns (e: T)
      requires Valid() && Size() > 0
      modifies this
      ensures Valid() && old(Contents()) == [e] + Contents()
    {
      e := v[off];
      off := off + 1;
      if |v| == off { Clear(); }
    }

    method Clear()
      modifies this
      ensures Valid() && Contents() == []
    {
      v, off := [], 0;
    }
  }

  // ---------------------------------------------------------------- states

  datatype Phase<+J> =
    | Start              // about to look into the private queue
    | TryGlobal          // private queue was empty
    | SignalIdle         // found no job, about to count itself idle
    | Waiting            // counted idle, about to read the counter
    | CheckGlobal        // counted idle, about to look at the global queue
    | Unsignal           // saw a job in the global queue, about to take back the signal
    | Retry              // no longer counted, about to pop
    | OfferIdle(job: J)  // holds a job, about to look for idle threads
    | OfferEmpty(job: J) // saw an idle thread, about to look at the global queue
    | OfferPush(job: J)  // saw the global queue empty, about to offer
    | Working(job: J)
    | Done               // was told that there is no job

  datatype State<+J> = State(phase: seq<Phase<J>>, priv: seq<seq<J>>, glob: seq<J>, idle: int)

  /** Threads the counter counts. */
  predicate Counted<J>(ph: Phase<J>) {
    ph.Waiting? || ph.CheckGlobal? || ph.Unsignal? || ph.Done?
  }

  /** Threads that will look at the global queue before they count themselves idle. */
  predicate Active<J>(ph: Phase<J>) {
    !Counted(ph) && !ph.SignalIdle?
  }

  predicate Holding<J>(ph: Phase<J>) {
    ph.OfferIdle? || ph.OfferEmpty? || ph.OfferPush? || ph.Working?
  }

  ghost function IsCounted<J>(): Phase<J> -> bool { ph => Counted(ph) }

  ghost predicate ThreadOk<J(!new)>(s: State<J>, t: nat)
    requires t < |s.phase| == |s.priv|
  {
    && (!Holding(s.phase[t]) && !s.phase[t].Start? ==> s.priv[t] == [])
    && (s.phase[t].OfferEmpty? || s.phase[t].OfferPush? ==> |s.priv[t]| > 1)
  }

  /** Nothing is left to do. */
  ghost predicate Quiet<J(!new)>(s: State<J>) {
    && s.glob == [] && |s.priv| == |s.phase|
    && forall t :: 0 <= t < |s.phase| ==> s.priv[t] == [] && !Holding(s.phase[t])
  }

  /** Every thread has found its own queue empty. */
  ghost predicate NoneStarting<J(!new)>(s: State<J>) {
    forall t :: 0 <= t < |s.phase| ==> !s.phase[t].Start?
  }

  ghost predicate SomeActive<J(!new)>(s: State<J>) {
    exists t :: 0 <= t < |s.phase| && Active(s.phase[t])
  }

  ghost predicate SomeDone<J(!new)>(s: State<J>) {
    exists t :: 0 <= t < |s.phase| && s.phase[t].Done?
  }

  ghost predicate Inv<J(!new)>(s: State<J>) {
    && |s.phase| == |s.priv| > 0
    && s.idle == Count(s.phase, IsCounted())
    && (forall t :: 0 <= t < |s.phase| ==> ThreadOk(s, t))
    && (s.glob != [] ==> SomeActive(s))
    && (SomeDone(s) ==> Quiet(s) && NoneStarting(s))
  }

  // ---------------------------------------------------------------- steps

  ghost function Set<J>(s: State<J>, t: nat, ph: Phase<J>): State<J>
    requires t < |s.phase|
  {
    s.(phase := s.phase[t := ph])
  }

  /** The next step of thread t; `found` are the tasks that finishing its job adds to its queue. */
  ghost function Step<J(!new)>(s: State<J>, t: nat, found: seq<J>): State<J>
    requires Inv(s) && t < |s.phase|
  {
    assert ThreadOk(s, t);
    var q := s.priv[t];
    match s.phase[t]
    case Start =>
      if q != [] then Set(s, t, OfferIdle(q[|q| - 1])).(priv := s.priv[t := q[..|q| - 1]])
      else Set(s, t, TryGlobal)
    case TryGlobal =>
      if s.glob != [] then Set(s, t, OfferIdle(s.glob[0])).(glob := s.glob[1..]) else Set(s, t, SignalIdle)
    case SignalIdle => Set(s, t, Waiting).(idle := s.idle + 1)
    case Waiting => Set(s, t, if s.idle == |s.phase| then Done else CheckGlobal)
    case CheckGlobal => Set(s, t, if s.glob != [] then Unsignal else Waiting)
    case Unsignal => Set(s, t, Retry).(idle := s.idle - 1)
    case Retry =>
      if s.glob != [] then Set(s, t, OfferIdle(s.glob[0])).(glob := s.glob[1..]) else Set(s, t, SignalIdle)
    case OfferIdle(j) => Set(s, t, if |q| > 1 && s.idle > 0 then OfferEmpty(j) else Working(j))
    case OfferEmpty(j) => Set(s, t, if s.glob == [] then OfferPush(j) else Working(j))
    case OfferPush(j) => Set(s, t, Working(j)).(priv := s.priv[t := q[1..]], glob := s.glob + [q[0]])
    case Working(j) => Set(s, t, Start).(priv := s.priv[t := q + found])
    case Done => s
  }

  lemma AllCounted<J(!new)>(s: State<J>)
    requires Inv(s) && s.idle == |s.phase|
    ensures Quiet(s) && NoneStarting(s)
  {
    forall t | 0 <= t < |s.phase| ensures Counted(s.phase[t]) {
      if !Counted(s.phase[t]) {
        CountUpdate(s.phase, t, Done, IsCounted());
        CountBound(s.phase[t := Done], IsCounted());
      }
    }
    forall t | 0 <= t < |s.phase| ensures s.priv[t] == [] && !Holding(s.phase[t]) { assert ThreadOk(s, t); }
  }

  lemma QuietStays<J(!new)>(s: State<J>, t: nat, found: seq<J>)
    requires Inv(s) && Quiet(s) && t < |s.phase|
    ensures Quiet(Step(s, t, found))
    ensures NoneStarting(s) ==> NoneStarting(Step(s, t, found))
  {
  }

  lemma StepKeeps<J(!new)>(s: State<J>, t: nat, found: seq<J>)
    requires Inv(s) && t < |s.phase|
    ensures Inv(Step(s, t, found))
  {
    StepCounts(s, t, found);
    StepThreads(s, t, found);
    if Step(s, t, found).glob != [] { ActiveStays(s, t, found); }
    if SomeDone(Step(s, t, found)) { DoneQuiet(s, t, found); }
    hide SomeActive, Quiet, NoneStarting, ThreadOk, SomeDone;
  }

  lemma StepCounts<J(!new)>(s: State<J>, t: nat, found: seq<J>)
    requires Inv(s) && t < |s.phase|
    ensures var s' := Step(s, t, found);
      |s'.phase| == |s'.priv| == |s.phase| && s'.idle == Count(s'.phase, IsCounted())
  {
    var s' := Step(s, t, found);
    CountUpdate(s.phase, t, s'.phase[t], IsCounted());
  }

  lemma StepThreads<J(!new)>(s: State<J>, t: nat, found: seq<J>)
    requires Inv(s) && t < |s.phase|
    ensures var s' := Step(s, t, found);
      |s'.phase| == |s'.priv| == |s.phase| && forall u :: 0 <= u < |s'.phase| ==> ThreadOk(s', u)
  {
    var s' := Step(s, t, found);
    forall u | 0 <= u < |s'.phase| ensures ThreadOk(s', u) { assert ThreadOk(s, u); }
  }

  lemma DoneQuiet<J(!new)>(s: State<J>, t: nat, found: seq<J>)
    requires Inv(s) && t < |s.phase| && SomeDone(Step(s, t, found))
    ensures Quiet(Step(s, t, found)) && NoneStarting(Step(s, t, found))
  {
    var s' := Step(s, t, found);
    var u :| 0 <= u < |s'.phase| && s'.phase[u].Done?;
    if s.phase[u].Done? { assert SomeDone(s); } else { AllCounted(s); }
    QuietStays(s, t, found);
  }

  /** A non-empty global queue is never left without an active thread. */
  lemma ActiveStays<J(!new)>(s: State<J>, t: nat, found: seq<J>)
    requires Inv(s) && t < |s.phase| && Step(s, t, found).glob != []
    ensures SomeActive(Step(s, t, found))
  {
    var s' := Step(s, t, found);
    if s.glob != [] {
      var u :| 0 <= u < |s.phase| && Active(s.phase[u]);
      if u != t { assert Active(s'.phase[u]); } else { assert Active(s'.phase[t]); }
    } else {
      assert Active(s'.phase[t]);
    }
  }

  // ---------------------------------------------------------------- runs

  /** Who acts, and which tasks are found if the action finishes a job. */
  datatype Act<+J> = Act(thread: nat, found: seq<J>)

  ghost predicate Acts<J>(order: seq<Act<J>>, threads: nat) {
    forall i :: 0 <= i < |order| ==> order[i].thread < threads
  }

  ghost function Run<J(!new)>(s: State<J>, order: seq<Act<J>>): (r: State<J>)
    requires Inv(s) && Acts(order, |s.phase|)
    ensures Inv(r) && |r.phase| == |s.phase|
    decreases |order|
  {
    if order == [] then s
    else
      StepKeeps(s, order[0].thread, order[0].found);
      Run(Step(s, order[0].thread, order[0].found), order[1..])
  }

  /** All threads are about to ask for a job. */
  ghost predicate Init<J(!new)>(s: State<J>) {
    && |s.phase| == |s.priv| > 0 && s.idle == 0 && s.glob == []
    && forall t :: 0 <= t < |s.phase| ==> s.phase[t] == Start
  }

  lemma InitInv<J(!new)>(s: State<J>)
    requires Init(s)
    ensures Inv(s)
  {
    CountNone(s.phase, IsCounted());
  }

  /**
   * Termination detection. Once any thread has been told that there is no job, all queues are empty and
   * nobody holds a job, and it stays so whatever happens next.
   */
  lemma {:induction false} DetectionIsSafe<J(!new)>(s: State<J>, order: seq<Act<J>>)
    requires Inv(s) && SomeDone(s) && Acts(order, |s.phase|)
    ensures Quiet(s) && Quiet(Run(s, order))
    decreases |order|
  {
    if order != [] {
      var s' := Step(s, order[0].thread, order[0].found);
      StepKeeps(s, order[0].thread, order[0].found);
      var u :| 0 <= u < |s.phase| && s.phase[u].Done?;
      assert s'.phase[u].Done?;
      DetectionIsSafe(s', order[1..]);
    }
  }

  /** The counter equals the number of threads counted idle, and a job in the global queue has a taker. */
  lemma CounterIsExact<J(!new)>(s: State<J>, order: seq<Act<J>>)
    requires Init(s) && Acts(order, |s.phase|)
    ensures Inv(s)
    ensures Run(s, order).idle == Count(Run(s, order).phase, IsCounted())
    ensures Run(s, order).glob != [] ==> SomeActive(Run(s, order))
  {
    InitInv(s);
  }

  // ---------------------------------------------------------------- one thread undisturbed

  /** After k actions of thread t in a row. */
  ghost function Alone<J(!new)>(s: State<J>, t: nat, k: nat): (r: State<J>)
    requires Inv(s) && t < |s.phase|
    ensures Inv(r) && |r.phase| == |s.phase| == |r.priv|
  {
    if k == 0 then s else
      var r := Alone(s, t, k - 1);
      StepKeeps(r, t, []);
      StepOnly(r, t, []);
      Step(r, t, [])
  }

  lemma AloneSteps<J(!new)>(s: State<J>, t: nat)
    requires Inv(s) && t < |s.phase|
    ensures Alone(s, t, 1) == Step(s, t, [])
    ensures Alone(s, t, 2) == Step(Alone(s, t, 1), t, [])
    ensures Alone(s, t, 3) == Step(Alone(s, t, 2), t, [])
  {
    hide Inv, Step;
    assert Alone(s, t, 0) == s;
    assert Alone(s, t, 1) == Step(s, t, []);
    assert Alone(s, t, 2) == Step(Alone(s, t, 1), t, []);
  }

  /**
   * Asking for a job: the newest one of the own queue, else the oldest one of the global queue, else the thread
   * ends up counted idle.
   */
  lemma GetAlone<J(!new)>(s: State<J>, t: nat) returns (k: nat)
    requires Inv(s) && t < |s.phase| && s.phase[t].Start?
    ensures var q, g, r := s.priv[t], s.glob, Alone(s, t, k);
      if q != [] then
        r == Set(s, t, OfferIdle(q[|q| - 1])).(priv := s.priv[t := q[..|q| - 1]])
      else if g != [] then r == Set(s, t, OfferIdle(g[0])).(glob := g[1..])
      else r == Set(s, t, Waiting).(idle := s.idle + 1)
  {
    k := if s.priv[t] != [] then 1 else if s.glob != [] then 2 else 3;
    AloneSteps(s, t);
    hide Inv, Alone;
  }

  /** An idle thread that sees a job in the global queue takes it, and is no longer counted. */
  lemma WakeAlone<J(!new)>(s: State<J>, t: nat)
    requires Inv(s) && t < |s.phase| && s.phase[t].CheckGlobal? && s.glob != []
    ensures Alone(s, t, 3) == Set(s, t, OfferIdle(s.glob[0])).(idle := s.idle - 1, glob := s.glob[1..])
  {
    AloneSteps(s, t);
    hide Inv, Alone;
  }

  /**
   * Offering: the oldest job of the own queue goes to the global one exactly if there is another one left, some
   * thread is counted idle and the global queue is empty. After that the thread works on its job in any case.
   */
  lemma OfferAlone<J(!new)>(s: State<J>, t: nat) returns (k: nat)
    requires Inv(s) && t < |s.phase| && s.phase[t].OfferIdle?
    ensures var q, r := s.priv[t], Alone(s, t, k);
      if |q| > 1 && s.idle > 0 && s.glob == [] then
        r == Set(s, t, Working(s.phase[t].job)).(priv := s.priv[t := q[1..]], glob := [q[0]])
      else r == Set(s, t, Working(s.phase[t].job))
  {
    var q := s.priv[t];
    k := if |q| <= 1 || s.idle <= 0 then 1 else if s.glob != [] then 2 else 3;
    AloneSteps(s, t);
    hide Inv, Alone;
  }

  // ---------------------------------------------------------------- jobs are neither lost nor doubled

  ghost function HeldBy<J>(ph: Phase<J>): seq<J> {
    if Holding(ph) then [ph.job] else []
  }

  ghost function Held<J>(ps: seq<Phase<J>>): (h: seq<seq<J>>)
    ensures |h| == |ps|
  {
    seq(|ps|, t requires 0 <= t < |ps| => HeldBy(ps[t]))
  }

  /** All jobs: held, in private queues, in the global queue. */
  ghost function Jobs<J>(s: State<J>): multiset<J> {
    BagOf(Held(s.phase)) + BagOf(s.priv) + multiset(s.glob)
  }

  /** The jobs that thread t can reach. */
  ghost function Reach<J>(s: State<J>, t: nat): multiset<J>
    requires t < |s.phase| == |s.priv|
  {
    multiset(HeldBy(s.phase[t])) + multiset(s.priv[t]) + multiset(s.glob)
  }

  lemma Balance<J>(
      h: multiset<J>, h': multiset<J>, p: multiset<J>, p': multiset<J>, g: multiset<J>, g': multiset<J>,
      a: multiset<J>, a': multiset<J>, b: multiset<J>, b': multiset<J>)
    requires h' + a == h + a' && p' + b == p + b'
    ensures (h' + p' + g') + (a + b + g) == (h + p + g) + (a' + b' + g')
  {
    assert (h' + p' + g') + (a + b + g) == (h' + a) + (p' + b) + g' + g;
    assert (h + p + g) + (a' + b' + g') == (h + a') + (p + b') + g' + g;
  }

  lemma JobsChange<J(!new)>(s: State<J>, s': State<J>, t: nat)
    requires t < |s.phase| == |s.priv| == |s'.phase| == |s'.priv|
    requires s'.phase == s.phase[t := s'.phase[t]] && s'.priv == s.priv[t := s'.priv[t]]
    ensures Jobs(s') + Reach(s, t) == Jobs(s) + Reach(s', t)
  {
    Update(Held(s.phase), t, HeldBy(s'.phase[t]));
    assert Held(s'.phase) == Held(s.phase)[t := HeldBy(s'.phase[t])];
    Update(s.priv, t, s'.priv[t]);
    Balance(BagOf(Held(s.phase)), BagOf(Held(s'.phase)), BagOf(s.priv), BagOf(s'.priv), multiset(s.glob),
      multiset(s'.glob),
            multiset(HeldBy(s.phase[t])), multiset(HeldBy(s'.phase[t])), multiset(s.priv[t]), multiset(s'.priv[t]));
  }

  lemma TakeBack<J>(q: seq<J>, g: multiset<J>)
    requires q != []
    ensures multiset([q[|q| - 1]]) + multiset(q[..|q| - 1]) + g == multiset([]) + multiset(q) + g
  {
    assert q == q[..|q| - 1] + [q[|q| - 1]];
  }

  lemma TakeFront<J>(q: seq<J>, p: multiset<J>)
    requires q != []
    ensures multiset([q[0]]) + p + multiset(q[1..]) == multiset([]) + p + multiset(q)
  {
    assert q == [q[0]] + q[1..];
  }

  lemma GiveFront<J>(h: multiset<J>, q: seq<J>, g: seq<J>)
    requires q != []
    ensures h + multiset(q[1..]) + multiset(g + [q[0]]) == h + multiset(q) + multiset(g)
  {
    assert q == [q[0]] + q[1..];
  }

  lemma Finish<J>(j: J, q: seq<J>, found: seq<J>, g: multiset<J>)
    ensures (multiset([]) + multiset(q + found) + g) + multiset{j} == (multiset([j]) + multiset(q) + g)
      + multiset(found)
  {
    assert multiset([j]) == multiset{j};
  }

  lemma StepOnly<J(!new)>(s: State<J>, t: nat, found: seq<J>)
    requires Inv(s) && t < |s.phase|
    ensures var s' := Step(s, t, found);
      && |s'.phase| == |s'.priv| == |s.phase|
      && s'.phase == s.phase[t := s'.phase[t]] && s'.priv == s.priv[t := s'.priv[t]]
  {
    assert ThreadOk(s, t);
  }

  lemma ReachStart<J(!new)>(s: State<J>, t: nat, found: seq<J>)
    requires Inv(s) && t < |s.phase| && s.phase[t].Start?
    ensures |Step(s, t, found).priv| == |Step(s, t, found).phase| == |s.phase|
    ensures Reach(Step(s, t, found), t) == Reach(s, t)
  {
    StepOnly(s, t, found);
    hide Inv, ThreadOk;
    if s.priv[t] != [] { TakeBack(s.priv[t], multiset(s.glob)); }
  }

  lemma ReachGlobal<J(!new)>(s: State<J>, t: nat, found: seq<J>)
    requires Inv(s) && t < |s.phase| && (s.phase[t].TryGlobal? || s.phase[t].Retry?)
    ensures |Step(s, t, found).priv| == |Step(s, t, found).phase| == |s.phase|
    ensures Reach(Step(s, t, found), t) == Reach(s, t)
  {
    StepOnly(s, t, found);
    var s' := Step(s, t, found);
    assert s'.priv[t] == s.priv[t] && HeldBy(s.phase[t]) == [];
    assert if s.glob != [] then s'.glob == s.glob[1..] && HeldBy(s'.phase[t]) == [s.glob[0]]
           else s'.glob == s.glob && HeldBy(s'.phase[t]) == [];
    hide Inv, ThreadOk, Step, HeldBy;
    if s.glob != [] { TakeFront(s.glob, multiset(s.priv[t])); }
  }

  lemma ReachPush<J(!new)>(s: State<J>, t: nat, found: seq<J>)
    requires Inv(s) && t < |s.phase| && s.phase[t].OfferPush?
    ensures |Step(s, t, found).priv| == |Step(s, t, found).phase| == |s.phase|
    ensures Reach(Step(s, t, found), t) == Reach(s, t)
  {
    assert ThreadOk(s, t);
    StepOnly(s, t, found);
    hide Inv, ThreadOk;
    GiveFront(multiset([s.phase[t].job]), s.priv[t], s.glob);
  }

  lemma ReachWorking<J(!new)>(s: State<J>, t: nat, found: seq<J>)
    requires Inv(s) && t < |s.phase| && s.phase[t].Working?
    ensures |Step(s, t, found).priv| == |Step(s, t, found).phase| == |s.phase|
    ensures Reach(Step(s, t, found), t) + multiset{s.phase[t].job} == Reach(s, t) + multiset(found)
  {
    StepOnly(s, t, found);
    hide Inv, ThreadOk;
    Finish(s.phase[t].job, s.priv[t], found, multiset(s.glob));
  }

  lemma ReachOther<J(!new)>(s: State<J>, t: nat, found: seq<J>)
    requires Inv(s) && t < |s.phase| && !s.phase[t].Working? && !s.phase[t].OfferPush? && !s.phase[t].Start?
      && !s.phase[t].TryGlobal? && !s.phase[t].Retry?
    ensures |Step(s, t, found).priv| == |Step(s, t, found).phase| == |s.phase|
    ensures Reach(Step(s, t, found), t) == Reach(s, t)
  {
    StepOnly(s, t, found);
    var s' := Step(s, t, found);
    assert s'.glob == s.glob && s'.priv[t] == s.priv[t] && HeldBy(s'.phase[t]) == HeldBy(s.phase[t]);
    hide Inv, ThreadOk, Step, HeldBy;
  }

  lemma StepReach<J(!new)>(s: State<J>, t: nat, found: seq<J>)
    requires Inv(s) && t < |s.phase|
    ensures |Step(s, t, found).priv| == |Step(s, t, found).phase| == |s.phase|
    ensures if s.phase[t].Working? then Reach(Step(s, t, found), t) + multiset{s.phase[t].job} == Reach(s, t)
      + multiset(found)
            else Reach(Step(s, t, found), t) == Reach(s, t)
  {
    hide Inv, Step, Reach;
    match s.phase[t]
    case Start => ReachStart(s, t, found);
    case TryGlobal => ReachGlobal(s, t, found);
    case Retry => ReachGlobal(s, t, found);
    case OfferPush(j) => ReachPush(s, t, found);
    case Working(j) => ReachWorking(s, t, found);
    case _ => ReachOther(s, t, found);
  }

  /** Only finishing a job changes the jobs: it goes, and the tasks found come. */
  lemma StepJobs<J(!new)>(s: State<J>, t: nat, found: seq<J>)
    requires Inv(s) && t < |s.phase|
    ensures if s.phase[t].Working? then Jobs(Step(s, t, found)) + multiset{s.phase[t].job} == Jobs(s) + multiset(found)
            else Jobs(Step(s, t, found)) == Jobs(s)
  {
    var s' := Step(s, t, found);
    StepReach(s, t, found);
    StepOnly(s, t, found);
    JobsChange(s, s', t);
    hide Jobs, Reach, Step;
    if s.phase[t].Working? {
      Settle(Jobs(s'), Jobs(s), Reach(s, t), Reach(s', t), multiset{s.phase[t].job}, multiset(found));
    } else {
      SameBag(Jobs(s'), Jobs(s), Reach(s, t));
    }
  }

  lemma SameBag<J>(x': multiset<J>, x: multiset<J>, r: multiset<J>)
    requires x' + r == x + r
    ensures x' == x
  {
    assert x' == (x' + r) - r == (x + r) - r == x;
  }

  lemma Settle<J>(x': multiset<J>, x: multiset<J>, r: multiset<J>, r': multiset<J>, j: multiset<J>, f: multiset<J>)
    requires x' + r == x + r' && r' + j == r + f
    ensures x' + j == x + f
  {
    assert r + (x' + j) == (x + r') + j == x + (r' + j) == r + (x + f);
    Bags.Cancel(r, x' + j, x + f);
  }

  // ---------------------------------------------------------------- all threads get to know

  ghost function Total<J(!new)>(ps: seq<Phase<J>>, rank: Phase<J> -> nat): nat {
    if ps == [] then 0 else rank(ps[0]) + Total(ps[1..], rank)
  }

  lemma {:induction false} TotalUpdate<J(!new)>(ps: seq<Phase<J>>, t: nat, ph: Phase<J>, rank: Phase<J> -> nat)
    requires t < |ps|
    ensures Total(ps[t := ph], rank) + rank(ps[t]) == Total(ps, rank) + rank(ph)
  {
    if t == 0 {
      assert ps[t := ph][1..] == ps[1..];
    } else {
      assert ps[t := ph][1..] == ps[1..][t - 1 := ph];
      TotalUpdate(ps[1..], t - 1, ph, rank);
    }
  }

  ghost function Rank<J>(): Phase<J> -> nat {
    (ph: Phase<J>) =>
      match ph
      case Start => 7
      case TryGlobal => 6
      case Unsignal => 5
      case Retry => 4
      case SignalIdle => 3
      case CheckGlobal => 2
      case Waiting => 1
      case _ => 0
  }

  ghost predicate AllDone<J(!new)>(s: State<J>) {
    forall t :: 0 <= t < |s.phase| ==> s.phase[t].Done?
  }

  /** When nothing is left to do, some thread comes closer to being told so, until all have been. */
  lemma QuietProgress<J(!new)>(s: State<J>) returns (t: nat)
    requires Inv(s) && Quiet(s) && !AllDone(s)
    ensures t < |s.phase| && Total(Step(s, t, []).phase, Rank()) < Total(s.phase, Rank())
  {
    if u :| 0 <= u < |s.phase| && !s.phase[u].Done? && !s.phase[u].Waiting? {
      t := u;
    } else {
      t :| 0 <= t < |s.phase| && !s.phase[t].Done?;
      CountAll(s.phase, IsCounted());
    }
    TotalUpdate(s.phase, t, Step(s, t, []).phase[t], Rank());
  }

  // ---------------------------------------------------------------- no fair run goes on for ever

  /** How far a thread is from finishing the job it holds, or from having looked for one. */
  ghost function Distance<J>(): Phase<J> -> nat {
    (ph: Phase<J>) =>
      match ph
      case Start => 7
      case TryGlobal => 6
      case OfferIdle(_) => 4
      case OfferEmpty(_) => 3
      case OfferPush(_) => 2
      case Working(_) => 1
      case Done => 0
      case _ => 5
  }

  /** How far a thread without a job is from being counted idle. */
  ghost function Uncounted<J>(): Phase<J> -> nat {
    (ph: Phase<J>) =>
      match ph
      case Unsignal => 3
      case Retry => 2
      case SignalIdle => 1
      case _ => 0
  }

  ghost function Checking<J>(): Phase<J> -> nat {
    (ph: Phase<J>) => if ph.CheckGlobal? then 1 else 0
  }

  lemma {:induction false} TotalBound<J(!new)>(ps: seq<Phase<J>>, rank: Phase<J> -> nat, k: nat)
    requires forall ph :: rank(ph) <= k
    ensures Total(ps, rank) <= k * |ps|
  {
    if ps != [] { TotalBound(ps[1..], rank, k); }
  }

  /** Counts only when nothing is left to do. */
  ghost function Unsettled<J(!new)>(s: State<J>): nat {
    if Quiet(s) then Total(s.phase, Uncounted()) else 3 * |s.phase| + 1
  }

  /** Counts only when all threads are counted. */
  ghost function Untold<J(!new)>(s: State<J>): nat {
    if s.idle == |s.phase| then Total(s.phase, Checking()) else |s.phase| + 1
  }

  /** Threads whose next action brings the run closer to its end. */
  ghost predicate Helps<J(!new)>(s: State<J>, t: nat)
    requires t < |s.phase|
  {
    var ph := s.phase[t];
    || Holding(ph) || ph.Start? || ph.TryGlobal?
    || (ph.Retry? && s.glob != [])
    || (Quiet(s) && Uncounted()(ph) > 0)
    || (s.idle == |s.phase| && !ph.Done?)
  }

  /** In every state but the last, some thread's next action does. */
  lemma SomeHelps<J(!new)>(s: State<J>) returns (t: nat)
    requires Inv(s) && !AllDone(s)
    ensures t < |s.phase| && Helps(s, t) && !s.phase[t].Done?
  {
    if u :| 0 <= u < |s.phase| && (Holding(s.phase[u]) || s.phase[u].Start? || s.phase[u].TryGlobal?) {
      t := u;
    } else if s.glob != [] {
      t :| 0 <= t < |s.phase| && Active(s.phase[t]);
    } else {
      forall u | 0 <= u < |s.phase| ensures s.priv[u] == [] && !Holding(s.phase[u]) { assert ThreadOk(s, u); }
      if u :| 0 <= u < |s.phase| && Uncounted()(s.phase[u]) > 0 {
        t := u;
      } else {
        t :| 0 <= t < |s.phase| && !s.phase[t].Done?;
        CountAll(s.phase, IsCounted());
      }
    }
  }

  /** No action but finishing a job raises the distance. */
  lemma StepDistance<J(!new)>(s: State<J>, t: nat, found: seq<J>)
    requires Inv(s) && t < |s.phase|
    ensures var d, d' := Total(s.phase, Distance()), Total(Step(s, t, found).phase, Distance());
      if s.phase[t].Working? then d' == d + 6 else d' <= d
  {
    StepOnly(s, t, found);
    PhaseDistance(s, t, found);
    hide Inv, Step, Total, Distance;
    TotalUpdate(s.phase, t, Step(s, t, found).phase[t], Distance());
  }

  lemma PhaseDistance<J(!new)>(s: State<J>, t: nat, found: seq<J>)
    requires Inv(s) && t < |s.phase|
    ensures |Step(s, t, found).phase| == |s.phase|
    ensures var d, d' := Distance()(s.phase[t]), Distance()(Step(s, t, found).phase[t]);
      if s.phase[t].Working? then d == 1 && d' == 7 else d' <= d
  {
  }

  /** Closer to the end: the first of the three measures that changes is lowered. */
  ghost predicate Closer<J(!new)>(s: State<J>, s': State<J>) {
    Unsettled(s') < Unsettled(s) || (Unsettled(s') == Unsettled(s) && Untold(s') < Untold(s))
  }

  lemma TotalsChange<J(!new)>(s: State<J>, t: nat, found: seq<J>)
    requires Inv(s) && t < |s.phase|
    ensures var s' := Step(s, t, found);
      && Total(s'.phase, Distance()) + Distance()(s.phase[t]) == Total(s.phase, Distance()) + Distance()(s'.phase[t])
      && Total(s'.phase, Uncounted()) + Uncounted()(s.phase[t])
           == Total(s.phase, Uncounted()) + Uncounted()(s'.phase[t])
      && Total(s'.phase, Checking()) + Checking()(s.phase[t]) == Total(s.phase, Checking()) + Checking()(s'.phase[t])
      && Total(s'.phase, Uncounted()) <= 3 * |s.phase| && Total(s'.phase, Checking()) <= |s.phase|
  {
    var s' := Step(s, t, found);
    hide Total, Distance, Uncounted, Checking;
    TotalUpdate(s.phase, t, s'.phase[t], Distance());
    TotalUpdate(s.phase, t, s'.phase[t], Uncounted());
    TotalUpdate(s.phase, t, s'.phase[t], Checking());
    SmallRanks<J>();
    TotalBound(s'.phase, Uncounted<J>(), 3);
    TotalBound(s'.phase, Checking<J>(), 1);
  }

  lemma SmallRanks<J(!new)>()
    ensures forall ph: Phase<J> :: Uncounted()(ph) <= 3 && Checking()(ph) <= 1
  {
  }

  /** An action that does not bring the run closer to its end leaves all three measures as they are. */
  lemma StepSettles<J(!new)>(s: State<J>, t: nat, found: seq<J>)
    requires Inv(s) && t < |s.phase| && !s.phase[t].Working?
    requires Total(Step(s, t, found).phase, Distance()) == Total(s.phase, Distance())
    ensures var s' := Step(s, t, found); Closer(s, s') || (Unsettled(s') == Unsettled(s) && Untold(s') == Untold(s))
  {
    var s' := Step(s, t, found);
    TotalsChange(s, t, found);
    if Quiet(s) { QuietStays(s, t, found); }
    if s.idle == |s.phase| { AllCounted(s); }
    hide Total, ThreadOk, SomeActive, SomeDone, NoneStarting;
  }

  lemma HelpBrings<J(!new)>(s: State<J>, t: nat, found: seq<J>)
    requires Inv(s) && t < |s.phase| && !s.phase[t].Working? && Helps(s, t)
    requires Total(Step(s, t, found).phase, Distance()) == Total(s.phase, Distance())
    ensures Closer(s, Step(s, t, found))
  {
    var s' := Step(s, t, found);
    TotalsChange(s, t, found);
    if Quiet(s) { QuietStays(s, t, found); }
    if s.idle == |s.phase| { AllCounted(s); }
    hide Total, ThreadOk, SomeActive, SomeDone, NoneStarting;
  }

  /** Until then, a thread that helps still helps after another thread's action. */
  lemma HelpStays<J(!new)>(s: State<J>, t: nat, u: nat, found: seq<J>)
    requires Inv(s) && t < |s.phase| && u < |s.phase| && t != u && !s.phase[u].Working? && Helps(s, t)
    requires Total(Step(s, u, found).phase, Distance()) == Total(s.phase, Distance())
    requires !Closer(s, Step(s, u, found))
    ensures Helps(Step(s, u, found), t)
  {
    var s' := Step(s, u, found);
    TotalsChange(s, u, found);
    StepSettles(s, u, found);
    if Quiet(s) { QuietStays(s, u, found); }
    if s.idle == |s.phase| { AllCounted(s); }
    hide Total, ThreadOk, SomeActive, SomeDone, NoneStarting;
  }

  /** What is left to do altogether, where `work` bounds the jobs, those included that others will give rise to. */
  ghost function Bound<J(!new)>(s: State<J>, work: nat): nat { 7 * work + Total(s.phase, Distance()) }

  /**
   * Action i of an endless run: either less is left to do than before, or the thread takes a step in which it
   * finishes no job.
   */
  ghost predicate Moves<J(!new)>(ss: nat -> State<J>, f: nat -> nat, work: nat -> nat, i: nat) {
    && Inv(ss(i)) && f(i) < |ss(i).phase| == |ss(i + 1).phase|
    && (Bound(ss(i + 1), work(i + 1)) < Bound(ss(i), work(i))
        || (work(i + 1) == work(i) && !ss(i).phase[f(i)].Working? && ss(i + 1) == Step(ss(i), f(i), [])))
  }

  /** A step that finishes no job takes nothing away from the work; one that does takes away some. */
  lemma StepBound<J(!new)>(s: State<J>, t: nat, found: seq<J>, work: nat, work': nat)
    requires Inv(s) && t < |s.phase| && if s.phase[t].Working? then work' < work else work' == work
    ensures var s' := Step(s, t, found);
      && |s'.phase| == |s.phase|
      && (Bound(s', work') < Bound(s, work)
          || (work' == work && !s.phase[t].Working? && s' == Step(s, t, [])))
  {
    StepDistance(s, t, found);
    hide Inv, Total, Distance;
  }

  ghost predicate MovesOn<J(!new)>(ss: nat -> State<J>, f: nat -> nat, work: nat -> nat) {
    forall i: nat :: Moves(ss, f, work, i)
  }

  /** Every thread that has not been told that there is no job gets to act again. */
  ghost predicate Fair<J(!new)>(ss: nat -> State<J>, f: nat -> nat) {
    forall k: nat, t: nat :: t < |ss(k).phase| && !ss(k).phase[t].Done? ==> ActsAfter(f, k, t)
  }

  ghost predicate Nearer<J(!new)>(s: State<J>, w: nat, s': State<J>, w': nat) {
    Bound(s', w') < Bound(s, w) || (Bound(s', w') == Bound(s, w) && Closer(s, s'))
  }

  /** A thread that helps, and whose turn comes at action j, or some other thread before it, brings the end nearer. */
  lemma {:induction false} FairAdvances<J(!new)>(
      ss: nat -> State<J>, f: nat -> nat, work: nat -> nat, k: nat, j: nat) returns (m: nat)
    requires MovesOn(ss, f, work) && k <= j && f(j) < |ss(k).phase| && Helps(ss(k), f(j))
    ensures k < m && Nearer(ss(k), work(k), ss(m), work(m))
    decreases j - k
  {
    assert Moves(ss, f, work, k);
    var s, s', u := ss(k), ss(k + 1), f(k);
    hide Inv, Step, Helps, Closer, Total, Distance, Unsettled, Untold, MovesOn;
    m := k + 1;
    if !Nearer(s, work(k), s', work(k + 1)) {
      StepDistance(s, u, []);
      StepSettles(s, u, []);
      SameSettles(s, s');
      if u == f(j) {
        HelpBrings(s, u, []);
      } else {
        HelpStays(s, f(j), u, []);
        m := FairAdvances(ss, f, work, k + 1, j);
        NearerFromSame(s, work(k), s', work(k + 1), ss(m), work(m));
      }
    }
  }

  lemma SameSettles<J(!new)>(s: State<J>, s': State<J>)
    requires Closer(s, s') || (Unsettled(s') == Unsettled(s) && Untold(s') == Untold(s))
    ensures Closer(s, s') || forall r :: Closer(s', r) ==> Closer(s, r)
  {
  }

  lemma NearerFromSame<J(!new)>(s: State<J>, w: nat, s': State<J>, w': nat, r: State<J>, v: nat)
    requires Bound(s', w') == Bound(s, w) && Nearer(s', w', r, v) && (Closer(s', r) ==> Closer(s, r))
    ensures Nearer(s, w, r, v)
  {
    hide Closer, Bound;
  }

  /** Every fair run ends: from every state on, after finitely many actions all threads have been told. */
  lemma {:induction false} FairRunEnds<J(!new)>(ss: nat -> State<J>, f: nat -> nat, work: nat -> nat, k: nat)
      returns (m: nat)
    requires MovesOn(ss, f, work) && Fair(ss, f)
    ensures k <= m && AllDone(ss(m))
    decreases Bound(ss(k), work(k)), Unsettled(ss(k)), Untold(ss(k))
  {
    assert Moves(ss, f, work, k);
    m := k;
    if !AllDone(ss(k)) {
      var t := SomeHelps(ss(k));
      assert ActsAfter(f, k, t);
      hide Inv, Step, Helps, Total, Distance, Unsettled, Untold, MovesOn, AllDone, Bound;
      var j: nat :| k <= j && f(j) == t;
      m := FairAdvances(ss, f, work, k, j);
      m := FairRunEnds(ss, f, work, m);
    }
  }
}
