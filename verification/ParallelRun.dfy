/**
 * A whole parallel run: groups of threads partition big tasks and hand out what is left to sort, while threads
 * that belong to no group any more already process small tasks. Partitioning a range is one step; the
 * ranges of tasks that are outstanding together are disjoint.
 */
module ParallelRun {
  import opened Order
  import opened Bags
  import opened Buffers
  import opened Config
  import opened Sampling
  import opened ParallelPartition
  import opened Recursion
  import opened Buckets
  import opened PingPong
  import opened TaskRun
  import opened ThreadGroups

  /** groups is bookkeeping: the groups of threads that still have a big task. */
  datatype World<+T> = World(sched: Scheduler.State<Task>, mem: Memory<T>, big: seq<BigTask>, groups: seq<Parent>)

  ghost function TaskFor(pa: Parent): Task { Task(pa.offset, pa.offset + pa.size, pa.inInput) }

  ghost function GroupTasks(groups: seq<Parent>): (r: seq<Task>)
    ensures |r| == |groups|
  {
    seq(|groups|, i requires 0 <= i < |groups| => TaskFor(groups[i]))
  }

  /** All tasks: those of groups, and those that are queued or held. */
  ghost function Outstanding<T>(w: World<T>): multiset<Task> {
    Scheduler.Jobs(w.sched) + multiset(GroupTasks(w.groups))
  }

  predicate Member(pa: Parent, t: nat) { pa.id <= t < pa.id + pa.threads }

  predicate NoCommonThread(pa: Parent, pb: Parent) {
    pa.id + pa.threads <= pb.id || pb.id + pb.threads <= pa.id
  }

  ghost predicate AllApart(groups: seq<Parent>) {
    forall i, j :: 0 <= i < j < |groups| ==> NoCommonThread(groups[i], groups[j])
  }

  /** The threads of a group know their task, and none of them has asked for a small one yet. */
  ghost predicate GroupOk(phase: seq<Scheduler.Phase<Task>>, big: seq<BigTask>, pa: Parent) {
    && |big| == |phase| && Fitting(pa, |big|)
    && forall t :: 0 <= t < |big| && Member(pa, t) ==>
         && big[t] == BigTask(pa.offset, pa.offset + pa.size, t - pa.id, pa.id, pa.inInput, true)
         && phase[t] == Scheduler.Start
  }

  ghost predicate InSome(groups: seq<Parent>, t: nat) {
    exists i :: 0 <= i < |groups| && Member(groups[i], t)
  }

  ghost predicate GroupsOk(phase: seq<Scheduler.Phase<Task>>, big: seq<BigTask>, groups: seq<Parent>) {
    && |big| == |phase|
    && (forall i :: 0 <= i < |groups| ==> GroupOk(phase, big, groups[i]))
    && AllApart(groups)
    && (forall t :: 0 <= t < |big| && big[t].hasTask ==> InSome(groups, t))
  }

  ghost predicate WorldOk<T(!new)>(w: World<T>, n: nat, v0: seq<T>, base: nat, less: (T, T) -> bool) {
    && Scheduler.Inv(w.sched) && GroupsOk(w.sched.phase, w.big, w.groups)
    && Good(w.mem, n, v0, Outstanding(w), base, less)
  }

  // ---------------------------------------------------------------- a thread without a big task

  ghost predicate SmallNext<T(!new)>(
      w: World<T>, w': World<T>, t: nat, found: seq<Task>, n: nat, base: nat, less: (T, T) -> bool)
  {
    && Next(TaskRun.World(w.sched, w.mem), TaskRun.World(w'.sched, w'.mem), t, found, n, base, less)
    && t < |w.big| && !w.big[t].hasTask && w'.big == w.big && w'.groups == w.groups
  }

  lemma NoMember(phase: seq<Scheduler.Phase<Task>>, big: seq<BigTask>, pa: Parent, t: nat)
    requires GroupOk(phase, big, pa) && t < |big| && !big[t].hasTask
    ensures !Member(pa, t)
  {
  }

  lemma SmallGroups<T(!new)>(
      w: World<T>, w': World<T>, t: nat, found: seq<Task>, n: nat, base: nat, less: (T, T) -> bool)
    requires Scheduler.Inv(w.sched) && GroupsOk(w.sched.phase, w.big, w.groups)
      && SmallNext(w, w', t, found, n, base, less)
    ensures GroupsOk(w'.sched.phase, w'.big, w'.groups)
  {
    Scheduler.StepOnly(w.sched, t, found);
    forall i | 0 <= i < |w.groups| ensures GroupOk(w'.sched.phase, w'.big, w.groups[i]) {
      assert GroupOk(w.sched.phase, w.big, w.groups[i]);
      NoMember(w.sched.phase, w.big, w.groups[i], t);
    }
  }

  lemma MoreReplaced(j': multiset<Task>, j: multiset<Task>, g: multiset<Task>, x: Task, found: seq<Task>)
    requires x in j && j' == Replaced(j, x, found)
    ensures j' + g == Replaced(j + g, x, found)
  {
  }

  lemma SmallKeeps<T(!new)>(
      w: World<T>, w': World<T>, t: nat, found: seq<Task>, n: nat, v0: seq<T>, base: nat, less: (T, T) -> bool)
    requires WorldOk(w, n, v0, base, less) && SmallNext(w, w', t, found, n, base, less)
    ensures WorldOk(w', n, v0, base, less)
    ensures if w.sched.phase[t].Working? then Work(Outstanding(w')) < Work(Outstanding(w))
            else Outstanding(w') == Outstanding(w)
  {
    SmallGroups(w, w', t, found, n, base, less);
    Scheduler.StepKeeps(w.sched, t, found);
    Scheduler.StepJobs(w.sched, t, found);
    hide Scheduler.Inv, GroupsOk, Good, Processed, Scheduler.Jobs, Scheduler.Step;
    match w.sched.phase[t]
    case Working(x) =>
      HeldIsJob(w.sched, t);
      TaskReady(w.mem, n, v0, Outstanding(w), x, base, less);
      ReplacedBag(Scheduler.Jobs(w'.sched), Scheduler.Jobs(w.sched), x, found);
      MoreReplaced(Scheduler.Jobs(w'.sched), Scheduler.Jobs(w.sched), multiset(GroupTasks(w.groups)), x, found);
      ProcessedKeeps(w.mem, w'.mem, n, v0, Outstanding(w), x, found, base, less);
      StepWorks(w.mem, w'.mem, n, v0, Outstanding(w), x, found, base, less);
    case _ =>
  }

  lemma StepWorks<T(!new)>(
      m: Memory<T>, m': Memory<T>, n: nat, v0: seq<T>, tasks: multiset<Task>, x: Task, found: seq<Task>, base: nat,
      less: (T, T) -> bool)
    requires Good(m, n, v0, tasks, base, less) && x in tasks && Shaped(m', n) && x.begin <= x.end <= n
    requires Processed(m, m', n, x, found, base, less)
    ensures Work(Replaced(tasks, x, found)) < Work(tasks)
  {
    assert TaskOk(m, n, x, base);
    ProcessedWorks(m, m', n, tasks, x, found, base, less);
  }

  // ---------------------------------------------------------------- a group with its big task

  /** The group of threads that gets the bucket of a place. */
  ghost function GroupFor(x: Place, pa: Parent, bs: seq<nat>): Parent
    requires x.bucket + 1 < |bs| && bs[x.bucket] <= bs[x.bucket + 1] && x.first <= x.last
  {
    Parent(x.first, x.last - x.first, pa.offset + bs[x.bucket], bs[x.bucket + 1] - bs[x.bucket], !pa.inInput, pa.stripe)
  }

  ghost function TaskAt(x: Place, pa: Parent, bs: seq<nat>): Task
    requires x.bucket + 1 < |bs|
  {
    Task(pa.offset + bs[x.bucket], pa.offset + bs[x.bucket + 1], !pa.inInput)
  }

  ghost predicate Sane(placed: seq<Place>, bs: seq<nat>) {
    forall j :: 0 <= j < |placed| ==> SanePlace(placed[j], bs)
  }

  ghost predicate SanePlace(x: Place, bs: seq<nat>) {
    x.bucket + 1 < |bs| && bs[x.bucket] <= bs[x.bucket + 1] && x.first < x.last
  }

  ghost function NewGroups(placed: seq<Place>, pa: Parent, bs: seq<nat>): seq<Parent>
    requires Sane(placed, bs)
  {
    if placed == [] then []
    else
      var x := placed[|placed| - 1];
      assert SanePlace(x, bs);
      NewGroups(placed[..|placed| - 1], pa, bs) + (if Big(x) then [GroupFor(x, pa, bs)] else [])
  }

  /** The tasks for the buckets that were placed. */
  ghost function Found(placed: seq<Place>, pa: Parent, bs: seq<nat>): (r: seq<Task>)
    requires Sane(placed, bs)
    ensures |r| == |placed|
  {
    seq(|placed|, j requires 0 <= j < |placed| => assert SanePlace(placed[j], bs); TaskAt(placed[j], pa, bs))
  }

  ghost function SmallFound(placed: seq<Place>, pa: Parent, bs: seq<nat>): seq<Task>
    requires Sane(placed, bs)
  {
    if placed == [] then []
    else
      var x := placed[|placed| - 1];
      assert SanePlace(x, bs);
      SmallFound(placed[..|placed| - 1], pa, bs) + (if Big(x) then [] else [TaskAt(x, pa, bs)])
  }

  lemma OneMoreFound<X>(f: seq<X>, s: seq<X>, g: seq<X>, x: X, big: bool)
    requires multiset(f) == multiset(s) + multiset(g)
    ensures multiset(f + [x]) == multiset(s + (if big then [] else [x])) + multiset(g + (if big then [x] else []))
  {
  }

  /** Every task that is found goes to a group or to a queue. */
  lemma {:induction false} FoundSplits(placed: seq<Place>, pa: Parent, bs: seq<nat>)
    requires Sane(placed, bs)
    ensures multiset(Found(placed, pa, bs)) ==
      multiset(SmallFound(placed, pa, bs)) + multiset(GroupTasks(NewGroups(placed, pa, bs)))
  {
    if placed != [] {
      var n := |placed| - 1;
      var front, x := placed[..n], placed[n];
      assert SanePlace(x, bs);
      FoundSplits(front, pa, bs);
      assert Found(placed, pa, bs) == Found(front, pa, bs) + [TaskAt(x, pa, bs)];
      assert GroupTasks(NewGroups(placed, pa, bs))
          == GroupTasks(NewGroups(front, pa, bs)) + (if Big(x) then [TaskAt(x, pa, bs)] else []);
      OneMoreFound(Found(front, pa, bs), SmallFound(front, pa, bs), GroupTasks(NewGroups(front, pa, bs)),
        TaskAt(x, pa, bs), Big(x));
    }
  }

  lemma PlacesSane(placed: seq<Place>, pa: Parent, bs: seq<nat>, base: nat, total: nat)
    requires Boundaries(bs, pa.size) && Fitting(pa, total) && Places(placed, pa, bs, base)
    ensures Sane(placed, bs)
    ensures forall j :: 0 <= j < |placed| ==> pa.id <= placed[j].first < placed[j].last <= pa.id + pa.threads
  {
    forall j | 0 <= j < |placed|
      ensures SanePlace(placed[j], bs) && pa.id <= placed[j].first < placed[j].last <= pa.id + pa.threads
    {
      assert PlacedOk(placed[j], pa, bs, base);
      PlaceInside(pa, total, bs, placed[j].bucket);
    }
  }

  /** The queues grow by the small tasks. */
  ghost function Queued(
      queues: seq<seq<Task>>, placed: seq<Place>, pa: Parent, bs: seq<nat>, base: nat): (r: seq<seq<Task>>)
    requires Boundaries(bs, pa.size) && pa.stripe > 0 && pa.threads > 0 && Places(placed, pa, bs, base)
    ensures |r| == |queues|
  {
    seq(|queues|, t requires 0 <= t < |queues| => queues[t] + SmallTasksOf(placed, pa, bs, base, t))
  }

  lemma NoneQueued(queues: seq<seq<Task>>, pa: Parent, bs: seq<nat>, base: nat)
    requires Boundaries(bs, pa.size) && pa.stripe > 0 && pa.threads > 0 && Places([], pa, bs, base)
    ensures Queued(queues, [], pa, bs, base) == queues
  {
    forall t | 0 <= t < |queues| ensures Queued(queues, [], pa, bs, base)[t] == queues[t] {
      assert queues[t] + [] == queues[t];
    }
  }

  lemma QueuedNext(queues: seq<seq<Task>>, placed: seq<Place>, pa: Parent, bs: seq<nat>, base: nat)
    requires Boundaries(bs, pa.size) && pa.stripe > 0 && pa.threads > 0 && Places(placed, pa, bs, base) && placed != []
    requires placed[|placed| - 1].first < |queues|
    ensures Places(placed[..|placed| - 1], pa, bs, base) && PlacedOk(placed[|placed| - 1], pa, bs, base)
    ensures var x, q := placed[|placed| - 1], Queued(queues, placed[..|placed| - 1], pa, bs, base);
      Queued(queues, placed, pa, bs, base) == if Big(x) then q else q[x.first := q[x.first] + [TaskAt(x, pa, bs)]]
  {
    var n := |placed| - 1;
    var front, x := placed[..n], placed[n];
    assert PlacedOk(x, pa, bs, base);
    assert Places(front, pa, bs, base);
    var q, q' := Queued(queues, front, pa, bs, base), Queued(queues, placed, pa, bs, base);
    hide Places, PlacedOk, Boundaries, SmallTasksOf;
    forall t | 0 <= t < |queues| ensures q'[t] == if !Big(x) && t == x.first then q[t] + [TaskAt(x, pa, bs)] else q[t] {
      SmallTasksNext(placed, pa, bs, base, t);
      var more := if !Big(x) && x.first == t then [TaskAt(x, pa, bs)] else [];
      assert queues[t] + (SmallTasksOf(front, pa, bs, base, t) + more)
        == (queues[t] + SmallTasksOf(front, pa, bs, base, t)) + more;
    }
  }

  lemma SmallTasksNext(placed: seq<Place>, pa: Parent, bs: seq<nat>, base: nat, t: nat)
    requires Boundaries(bs, pa.size) && pa.stripe > 0 && pa.threads > 0 && Places(placed, pa, bs, base) && placed != []
    requires Places(placed[..|placed| - 1], pa, bs, base) && PlacedOk(placed[|placed| - 1], pa, bs, base)
    ensures var x := placed[|placed| - 1];
      SmallTasksOf(placed, pa, bs, base, t) == SmallTasksOf(placed[..|placed| - 1], pa, bs, base, t)
        + (if !Big(x) && x.first == t then [TaskAt(x, pa, bs)] else [])
  {
    hide Places, PlacedOk, Boundaries, PlaceOf;
  }

  lemma SmallFoundNext(placed: seq<Place>, pa: Parent, bs: seq<nat>)
    requires Sane(placed, bs) && placed != []
    ensures SanePlace(placed[|placed| - 1], bs) && Sane(placed[..|placed| - 1], bs)
    ensures SmallFound(placed, pa, bs) == SmallFound(placed[..|placed| - 1], pa, bs)
      + (if Big(placed[|placed| - 1]) then [] else [TaskAt(placed[|placed| - 1], pa, bs)])
    ensures NewGroups(placed, pa, bs) == NewGroups(placed[..|placed| - 1], pa, bs)
      + (if Big(placed[|placed| - 1]) then [GroupFor(placed[|placed| - 1], pa, bs)] else [])
  {
    assert SanePlace(placed[|placed| - 1], bs);
  }

  lemma {:induction false} QueuesGrow(
      queues: seq<seq<Task>>, placed: seq<Place>, pa: Parent, bs: seq<nat>, base: nat, total: nat)
    requires Boundaries(bs, pa.size) && Fitting(pa, total) && Places(placed, pa, bs, base) && total <= |queues|
    ensures Sane(placed, bs)
    ensures BagOf(Queued(queues, placed, pa, bs, base)) == BagOf(queues) + multiset(SmallFound(placed, pa, bs))
    decreases |placed|
  {
    PlacesSane(placed, pa, bs, base, total);
    assert total >= pa.id + pa.threads && pa.stripe > 0 && pa.threads > 0;
    hide Queued, SmallTasksOf, Places, Sane, Fitting, Boundaries, SmallFound, NewGroups;
    if placed == [] {
      NoneQueued(queues, pa, bs, base);
      assert multiset(SmallFound(placed, pa, bs)) == multiset{} by { NoneFound(pa, bs); }
    } else {
      QueuedNext(queues, placed, pa, bs, base);
      SmallFoundNext(placed, pa, bs);
      var n := |placed| - 1;
      var front, x := placed[..n], placed[n];
      QueuesGrow(queues, front, pa, bs, base, total);
      var q, y := Queued(queues, front, pa, bs, base), TaskAt(x, pa, bs);
      if !Big(x) {
        Update(q, x.first, q[x.first] + [y]);
        GrownBag(BagOf(Queued(queues, placed, pa, bs, base)), BagOf(q), q[x.first], y, BagOf(queues),
          SmallFound(front, pa, bs));
      } else {
        assert SmallFound(front, pa, bs) + [] == SmallFound(front, pa, bs);
      }
    }
  }

  lemma GrownBag<X>(b': multiset<X>, b: multiset<X>, q: seq<X>, y: X, b0: multiset<X>, s: seq<X>)
    requires b' + multiset(q) == b + multiset(q + [y]) && b == b0 + multiset(s)
    ensures b' == b0 + multiset(s + [y])
  {
    assert multiset(q + [y]) == multiset(q) + multiset{y};
    assert multiset(q) + b' == b' + multiset(q);
    assert b + (multiset(q) + multiset{y}) == multiset(q) + (b + multiset{y});
    Cancel(multiset(q), b', b + multiset{y});
  }

  lemma NoneFound(pa: Parent, bs: seq<nat>)
    ensures Sane([], bs) && SmallFound([], pa, bs) == [] && NewGroups([], pa, bs) == []
  {
  }

  /** Only threads of the group get small tasks. */
  lemma {:induction false} NoTaskOutside(placed: seq<Place>, pa: Parent, bs: seq<nat>, base: nat, total: nat, t: nat)
    requires Boundaries(bs, pa.size) && Fitting(pa, total) && Places(placed, pa, bs, base) && !Member(pa, t)
    ensures SmallTasksOf(placed, pa, bs, base, t) == []
  {
    PlacesSane(placed, pa, bs, base, total);
    if placed != [] {
      assert Places(placed[..|placed| - 1], pa, bs, base);
      NoTaskOutside(placed[..|placed| - 1], pa, bs, base, total, t);
    }
  }

  ghost predicate FromPlace(placed: seq<Place>, pa: Parent, bs: seq<nat>, g: Parent) {
    exists j :: 0 <= j < |placed| && Big(placed[j]) && SanePlace(placed[j], bs) && g == GroupFor(placed[j], pa, bs)
  }

  lemma MorePlace(placed: seq<Place>, pa: Parent, bs: seq<nat>, g: Parent)
    requires placed != [] && FromPlace(placed[..|placed| - 1], pa, bs, g)
    ensures FromPlace(placed, pa, bs, g)
  {
    var front := placed[..|placed| - 1];
    var j :| 0 <= j < |front| && Big(front[j]) && SanePlace(front[j], bs) && g == GroupFor(front[j], pa, bs);
    assert placed[j] == front[j];
  }

  /** The new groups are those of the big places. */
  lemma {:induction false} NewGroupsFrom(placed: seq<Place>, pa: Parent, bs: seq<nat>)
    requires Sane(placed, bs)
    ensures forall g :: g in NewGroups(placed, pa, bs) ==> FromPlace(placed, pa, bs, g)
  {
    if placed != [] {
      var n := |placed| - 1;
      assert SanePlace(placed[n], bs);
      NewGroupsFrom(placed[..n], pa, bs);
      forall g | g in NewGroups(placed, pa, bs) ensures FromPlace(placed, pa, bs, g) {
        if g in NewGroups(placed[..n], pa, bs) { MorePlace(placed, pa, bs, g); }
      }
    }
  }

  lemma {:induction false} BigHasGroup(placed: seq<Place>, pa: Parent, bs: seq<nat>, j: nat)
    requires Sane(placed, bs) && j < |placed| && Big(placed[j])
    ensures SanePlace(placed[j], bs) && GroupFor(placed[j], pa, bs) in NewGroups(placed, pa, bs)
  {
    var n := |placed| - 1;
    assert SanePlace(placed[n], bs);
    if j < n { BigHasGroup(placed[..n], pa, bs, j); }
  }

  /** The new groups have no thread in common. */
  lemma {:induction false} NewGroupsApart(placed: seq<Place>, pa: Parent, bs: seq<nat>, base: nat, total: nat)
    requires Boundaries(bs, pa.size) && Fitting(pa, total) && Places(placed, pa, bs, base) && Sane(placed, bs)
    ensures AllApart(NewGroups(placed, pa, bs))
  {
    if placed != [] {
      var n := |placed| - 1;
      var front, x := placed[..n], placed[n];
      assert Places(front, pa, bs, base);
      SmallFoundNext(placed, pa, bs);
      NewGroupsApart(front, pa, bs, base, total);
      hide Places, Fitting, Boundaries, NewGroups, Sane, AllApart;
      var gs := NewGroups(front, pa, bs);
      if Big(x) {
        forall i | 0 <= i < |gs| ensures NoCommonThread(gs[i], GroupFor(x, pa, bs)) {
          ApartFromEarlier(placed, pa, bs, base, total, gs[i]);
        }
        OneMoreGroup(gs, GroupFor(x, pa, bs));
      } else {
        assert gs + [] == gs;
      }
    }
  }

  lemma OneMoreGroup(gs: seq<Parent>, g: Parent)
    requires AllApart(gs) && forall i :: 0 <= i < |gs| ==> NoCommonThread(gs[i], g)
    ensures AllApart(gs + [g])
  {
  }

  lemma ApartFromEarlier(placed: seq<Place>, pa: Parent, bs: seq<nat>, base: nat, total: nat, g: Parent)
    requires Boundaries(bs, pa.size) && Fitting(pa, total) && Places(placed, pa, bs, base) && Sane(placed, bs)
    requires placed != [] && Big(placed[|placed| - 1]) && g in NewGroups(placed[..|placed| - 1], pa, bs)
    ensures SanePlace(placed[|placed| - 1], bs) && NoCommonThread(g, GroupFor(placed[|placed| - 1], pa, bs))
  {
    var n := |placed| - 1;
    var front := placed[..n];
    NewGroupsFrom(front, pa, bs);
    var k :| 0 <= k < |front| && Big(front[k]) && SanePlace(front[k], bs) && g == GroupFor(front[k], pa, bs);
    PlacesDisjoint(placed, pa, bs, base, total, k, n);
  }

  /**
   * Group i has partitioned its range and queued the large buckets: the range is split as SmallTasks.Split
   * says, and the tables are as QueueTasks leaves them.
   */
  ghost predicate BigStep<T(!new)>(
      w: World<T>, w': World<T>, i: nat, placed: seq<Place>, v: seq<T>, bs: seq<nat>, equal: bool, done: set<nat>,
      cls: T -> nat, n: nat, cfg: Config, less: (T, T) -> bool)
  {
    && i < |w.groups| && |w.sched.priv| == |w.big|
    && var pa, queues' := w.groups[i], w'.sched.priv;
       && Fitting(pa, |w.big|) && |bs| > 1
       && QueuesTasks(placed, w'.big, queues', w.big, w.sched.priv, pa, bs, equal, cfg)
       && SmallTasks.Split(w.mem, w'.mem, n, TaskFor(pa), v, bs, done, cls, cfg.baseCase, less)
       && (forall b: nat :: b in done <==>
            b < |bs| - 1 && Finished(bs, b, cfg.baseCase, pa.size <= cfg.SingleLevel(), equal))
       && (pa.size > cfg.SingleLevel() ==> AllShorter(bs, equal, pa.size))
       && w'.sched == w.sched.(priv := queues')
       && Sane(placed, bs) && w'.groups == w.groups[..i] + w.groups[i + 1..] + NewGroups(placed, pa, bs)
  }

  /** The group's threads know their task, and its elements are where its flag says. */
  ghost predicate GroupReady<T(!new)>(w: World<T>, i: nat, n: nat, base: nat) {
    && i < |w.groups| && GroupOk(w.sched.phase, w.big, w.groups[i]) && |w.sched.priv| == |w.big|
    && Shaped(w.mem, n) && TaskOk(w.mem, n, TaskFor(w.groups[i]), base)
  }

  /** A step of group i; nothing is known about it if the group was not ready. */
  ghost predicate BigNext<T(!new)>(
      w: World<T>, w': World<T>, i: nat, placed: seq<Place>, v: seq<T>, bs: seq<nat>, equal: bool, done: set<nat>,
      cls: T -> nat, n: nat, cfg: Config, less: (T, T) -> bool)
  {
    && i < |w.groups|
    && (GroupReady(w, i, n, cfg.baseCase) ==> BigStep(w, w', i, placed, v, bs, equal, done, cls, n, cfg, less))
  }

  /** A group that has a task finds its elements in place, whatever other groups and threads have done. */
  lemma ReadyNow<T(!new)>(w: World<T>, n: nat, v0: seq<T>, base: nat, less: (T, T) -> bool, i: nat)
    requires WorldOk(w, n, v0, base, less) && i < |w.groups|
    ensures GroupReady(w, i, n, base)
  {
    GroupFacts(w, n, v0, base, less, i);
    assert GroupOk(w.sched.phase, w.big, w.groups[i]);
  }

  /**
   * The group's threads have partitioned its range, and its first thread has queued the buckets: that is a step
   * of the run.
   */
  lemma GroupStep<T(!new)>(
      w: World<T>, n: nat, v0: seq<T>, i: nat, ph: Phases<T>, input: seq<T>, tmp: seq<T>, cfg: Config,
      less: (T, T) -> bool,
      placed: seq<Place>, big: seq<BigTask>, queues: seq<seq<Task>>)
      returns (w': World<T>)
    requires WorldOk(w, n, v0, cfg.baseCase, less) && Sortable(cfg, less) && i < |w.groups|
    requires var x := TaskFor(w.groups[i]);
      Shaped(w.mem, n) && ph.Ran(cfg, less, x.inInput) && OnArrays(ph, cfg, less, w.mem, input, tmp, n, x)
    requires var pa := w.groups[i];
      QueuesTasks(placed, big, queues, w.big, w.sched.priv, pa, ph.bs,
                  |ph.c| > 0 && UseEqual(ph.c, less, cfg.threshold), cfg)
    ensures |ph.c| > 0 && |ph.bs| > 0
    ensures BigStep(w, w', i, placed, ph.w, ph.bs, UseEqual(ph.c, less, cfg.threshold),
                    DoneIn(ph, cfg, less, w.groups[i].inInput), ClassOf(ph.c, less, cfg.threshold), n, cfg, less)
    ensures WorldOk(w', n, v0, cfg.baseCase, less)
    ensures w'.mem.input == input && w'.mem.tmp == tmp && w'.big == big && w'.sched.priv == queues
  {
    var pa, equal := w.groups[i], |ph.c| > 0 && UseEqual(ph.c, less, cfg.threshold);
    GroupFacts(w, n, v0, cfg.baseCase, less, i);
    hide *;
    var content := TaskIsSplit(ph, cfg, less, w.mem, input, tmp, n, TaskFor(pa));
    DoneInIs(ph, cfg, less, pa.inInput, pa.size);
    w' := TakeBigStep(w, i, placed, ph.w, ph.bs, equal, DoneIn(ph, cfg, less, pa.inInput),
                      ClassOf(ph.c, less, cfg.threshold), n, v0, cfg, less, Memory(input, tmp, content), big, queues);
  }

  lemma GroupFacts<T(!new)>(w: World<T>, n: nat, v0: seq<T>, base: nat, less: (T, T) -> bool, i: nat)
    requires WorldOk(w, n, v0, base, less) && i < |w.groups|
    ensures Shaped(w.mem, n)
    ensures TaskOk(w.mem, n, TaskFor(w.groups[i]), base) && Fitting(w.groups[i], |w.big|) && |w.sched.priv| == |w.big|
    ensures TaskFor(w.groups[i]).begin == w.groups[i].offset && TaskFor(w.groups[i]).inInput == w.groups[i].inInput
    ensures TaskFor(w.groups[i]).end == w.groups[i].offset + w.groups[i].size
  {
    GroupTaskOutstanding(w, i);
    assert GroupOk(w.sched.phase, w.big, w.groups[i]);
  }

  lemma DoneInIs<T(!new)>(ph: Phases<T>, cfg: Config, less: (T, T) -> bool, inInput: bool, n: nat)
    requires |ph.c| > 0 && |ph.bs| > 1 && n == |ph.v|
    ensures forall b: nat :: b in DoneIn(ph, cfg, less, inInput) <==>
      b < |ph.bs| - 1 && Finished(ph.bs, b, cfg.baseCase, n <= cfg.SingleLevel(), UseEqual(ph.c, less, cfg.threshold))
  {
    hide UseEqual;
  }

  lemma TakeBigStep<T(!new)>(
      w: World<T>, i: nat, placed: seq<Place>, v: seq<T>, bs: seq<nat>, equal: bool, done: set<nat>, cls: T -> nat,
      n: nat, v0: seq<T>, cfg: Config, less: (T, T) -> bool, mem: Memory<T>, big: seq<BigTask>, queues: seq<seq<Task>>)
      returns (w': World<T>)
    requires WorldOk(w, n, v0, cfg.baseCase, less)
    requires i < |w.groups| && Fitting(w.groups[i], |w.big|) && |w.sched.priv| == |w.big| && |bs| > 1
    requires QueuesTasks(placed, big, queues, w.big, w.sched.priv, w.groups[i], bs, equal, cfg)
    requires SmallTasks.Split(w.mem, mem, n, TaskFor(w.groups[i]), v, bs, done, cls, cfg.baseCase, less)
    requires forall b: nat :: b in done <==>
      b < |bs| - 1 && Finished(bs, b, cfg.baseCase, w.groups[i].size <= cfg.SingleLevel(), equal)
    requires w.groups[i].size > cfg.SingleLevel() ==> AllShorter(bs, equal, w.groups[i].size)
    ensures BigStep(w, w', i, placed, v, bs, equal, done, cls, n, cfg, less) && WorldOk(w', n, v0, cfg.baseCase, less)
    ensures w'.mem == mem && w'.big == big && w'.sched.priv == queues
  {
    hide WorldOk, BigStep, SmallTasks.Split, QueuesTasks, Fitting, AllShorter, Finished;
    w' := IsBigStep(w, i, placed, v, bs, equal, done, cls, n, cfg, less, mem, big, queues);
    BigKeeps(w, w', i, placed, v, bs, equal, done, cls, n, v0, cfg, less);
  }

  lemma IsBigStep<T(!new)>(
      w: World<T>, i: nat, placed: seq<Place>, v: seq<T>, bs: seq<nat>, equal: bool, done: set<nat>, cls: T -> nat,
      n: nat,
      cfg: Config, less: (T, T) -> bool, mem: Memory<T>, big: seq<BigTask>, queues: seq<seq<Task>>)
      returns (w': World<T>)
    requires i < |w.groups| && Fitting(w.groups[i], |w.big|) && |w.sched.priv| == |w.big| && |bs| > 1
    requires QueuesTasks(placed, big, queues, w.big, w.sched.priv, w.groups[i], bs, equal, cfg)
    requires SmallTasks.Split(w.mem, mem, n, TaskFor(w.groups[i]), v, bs, done, cls, cfg.baseCase, less)
    requires forall b: nat :: b in done <==>
      b < |bs| - 1 && Finished(bs, b, cfg.baseCase, w.groups[i].size <= cfg.SingleLevel(), equal)
    requires w.groups[i].size > cfg.SingleLevel() ==> AllShorter(bs, equal, w.groups[i].size)
    ensures BigStep(w, w', i, placed, v, bs, equal, done, cls, n, cfg, less)
    ensures w'.mem == mem && w'.big == big && w'.sched.priv == queues
  {
    var pa := w.groups[i];
    PlacesSane(placed, pa, bs, cfg.baseCase, |w.big|);
    w' := World.World(w.sched.(priv := queues), mem, big,
      w.groups[..i] + w.groups[i + 1..] + NewGroups(placed, pa, bs));
    hide SmallTasks.Split, Places, Tables, Boundaries, Sane, Large, Finished, AllShorter, HasPlace, NewGroups,
      Descended, Fitting;
  }

  // ---- the tasks

  ghost function BucketsOf(placed: seq<Place>): (idx: seq<nat>)
    ensures |idx| == |placed|
  {
    seq(|placed|, j requires 0 <= j < |placed| => placed[j].bucket)
  }

  lemma PlacedIsQueued(
      placed: seq<Place>, pa: Parent, bs: seq<nat>, equal: bool, done: set<nat>, base: nat, lastLevel: bool, total: nat)
    requires Fitting(pa, total) && Boundaries(bs, pa.size) && |bs| > 1 && Places(placed, pa, bs, base)
      && Sane(placed, bs)
    requires forall b: nat :: b in done <==> b < |bs| - 1 && Finished(bs, b, base, lastLevel, equal)
    requires forall b: nat :: HasPlace(placed, b) <==>
      !lastLevel && b < |bs| - 1 && Descended(b, |bs| - 1, equal) && Large(bs, b, base)
    requires !lastLevel ==> AllShorter(bs, equal, pa.size)
    ensures SmallTasks.Queued(Found(placed, pa, bs), BucketsOf(placed), TaskFor(pa), bs, done, base)
  {
    PlacedTasks(placed, pa, bs, base);
    hide HasPlace, Places, Fitting, Boundaries, Sane, SmallTasks.TasksOf, Found, BucketsOf, AllShorter;
    forall b: nat | HasPlace(placed, b)
      ensures 2 * base < bs[b + 1] - bs[b] < pa.size
    {
      PlacedShorter(bs, equal, pa.size, base, b);
    }
    forall b: nat ensures b in BucketsOf(placed) <==> HasPlace(placed, b) { InBuckets(placed, b); }
  }

  lemma PlacedShorter(bs: seq<nat>, equal: bool, n: nat, base: nat, b: nat)
    requires |bs| > 0 && AllShorter(bs, equal, n) && b + 1 < |bs| && Descended(b, |bs| - 1, equal) && Large(bs, b, base)
    ensures 2 * base < bs[b + 1] - bs[b] < n
  {
    assert Shorter(bs, b, n);
  }

  lemma InBuckets(placed: seq<Place>, b: nat)
    ensures b in BucketsOf(placed) <==> HasPlace(placed, b)
  {
    var idx := BucketsOf(placed);
    if b in idx {
      var j :| 0 <= j < |idx| && idx[j] == b;
      assert placed[j].bucket == b;
    }
    if HasPlace(placed, b) {
      var j :| 0 <= j < |placed| && placed[j].bucket == b;
      assert idx[j] == b;
    }
  }

  lemma PlacedTasks(placed: seq<Place>, pa: Parent, bs: seq<nat>, base: nat)
    requires Boundaries(bs, pa.size) && pa.stripe > 0 && pa.threads > 0 && Places(placed, pa, bs, base)
      && Sane(placed, bs)
    ensures SmallTasks.TasksOf(Found(placed, pa, bs), BucketsOf(placed), pa.offset, bs, !pa.inInput)
  {
    var found, idx := Found(placed, pa, bs), BucketsOf(placed);
    hide PlacedOk, Boundaries;
    forall j | 0 <= j < |idx|
      ensures idx[j] + 1 < |bs| && found[j] == SmallTasks.TaskOf(pa.offset, bs, idx[j], !pa.inInput)
    {
      assert SanePlace(placed[j], bs);
    }
  }

  lemma TablesQueue(
      big': seq<BigTask>, queues': seq<seq<Task>>, big: seq<BigTask>, queues: seq<seq<Task>>, placed: seq<Place>,
      pa: Parent, bs: seq<nat>, base: nat)
    requires Boundaries(bs, pa.size) && pa.stripe > 0 && pa.threads > 0 && Places(placed, pa, bs, base)
    requires Tables(big', queues', big, queues, placed, pa, bs, base)
    ensures queues' == Queued(queues, placed, pa, bs, base)
  {
  }

  /** The group's task is replaced by those that were found. */
  lemma TasksMove(j: multiset<Task>, g: seq<Parent>, i: nat, small: seq<Task>, gs: seq<Parent>, found: seq<Task>)
    requires i < |g| && multiset(found) == multiset(small) + multiset(GroupTasks(gs))
    ensures (j + multiset(small)) + multiset(GroupTasks(g[..i] + g[i + 1..] + gs))
      == Replaced(j + multiset(GroupTasks(g)), TaskFor(g[i]), found)
  {
    var rest, x := GroupTasks(g[..i]) + GroupTasks(g[i + 1..]), TaskFor(g[i]);
    assert GroupTasks(g[..i] + g[i + 1..] + gs) == rest + GroupTasks(gs);
    assert GroupTasks(g) == GroupTasks(g[..i]) + [x] + GroupTasks(g[i + 1..]);
    assert multiset(GroupTasks(g)) == multiset(rest) + multiset{x};
    ReplaceOne(j, multiset(rest), multiset(small), multiset(GroupTasks(gs)), x, found);
  }

  lemma ReplaceOne(
      j: multiset<Task>, r: multiset<Task>, s: multiset<Task>, g: multiset<Task>, x: Task, found: seq<Task>)
    requires multiset(found) == s + g
    ensures (j + s) + (r + g) == Replaced(j + (r + multiset{x}), x, found)
  {
    assert j + (r + multiset{x}) - multiset{x} == j + r;
  }

  /** Outstanding tasks after the step. */
  lemma BigTasks<T(!new)>(
      w: World<T>, w': World<T>, i: nat, placed: seq<Place>, v: seq<T>, bs: seq<nat>, equal: bool, done: set<nat>,
      cls: T -> nat, n: nat, cfg: Config, less: (T, T) -> bool)
    requires BigStep(w, w', i, placed, v, bs, equal, done, cls, n, cfg, less)
    ensures Outstanding(w') == Replaced(Outstanding(w), TaskFor(w.groups[i]), Found(placed, w.groups[i], bs))
  {
    var pa, q := w.groups[i], w.sched.priv;
    hide SmallTasks.Split, Places, Tables, Boundaries, Sane, Replaced;
    QueuesGrow(q, placed, pa, bs, cfg.baseCase, |w.big|);
    TablesQueue(w'.big, w'.sched.priv, w.big, q, placed, pa, bs, cfg.baseCase);
    FoundSplits(placed, pa, bs);
    var small := SmallFound(placed, pa, bs);
    JobsGrow(w.sched, w'.sched, small);
    TasksMove(Scheduler.Jobs(w.sched), w.groups, i, small, NewGroups(placed, pa, bs), Found(placed, pa, bs));
  }

  lemma JobsGrow(s: Scheduler.State<Task>, s': Scheduler.State<Task>, small: seq<Task>)
    requires s' == s.(priv := s'.priv) && BagOf(s'.priv) == BagOf(s.priv) + multiset(small)
    ensures Scheduler.Jobs(s') == Scheduler.Jobs(s) + multiset(small)
  {
  }

  // ---- the groups

  /** A group other than the one that acts is not affected. */
  lemma OtherGroup(
      phase: seq<Scheduler.Phase<Task>>, big: seq<BigTask>, big': seq<BigTask>, pa: Parent, g: Parent)
    requires GroupOk(phase, big, g) && NoCommonThread(pa, g) && |big'| == |big|
    requires forall t :: 0 <= t < |big| && !Member(pa, t) ==> big'[t] == big[t]
    ensures GroupOk(phase, big', g)
  {
  }

  /** A new group consists of threads of the old one, and all of them know its task. */
  lemma NewGroup(
      phase: seq<Scheduler.Phase<Task>>, big: seq<BigTask>, big': seq<BigTask>, placed: seq<Place>, pa: Parent,
      bs: seq<nat>, base: nat, g: Parent)
    requires GroupOk(phase, big, pa) && |big'| == |big| && Boundaries(bs, pa.size) && Places(placed, pa, bs, base)
    requires forall t :: 0 <= t < |big| && Member(pa, t) ==> RecordOk(big'[t], placed, pa, bs, base, t)
    requires Sane(placed, bs) && FromPlace(placed, pa, bs, g)
    ensures GroupOk(phase, big', g) && forall t :: Member(g, t) ==> Member(pa, t)
  {
    var j :| 0 <= j < |placed| && Big(placed[j]) && SanePlace(placed[j], bs) && g == GroupFor(placed[j], pa, bs);
    var x := placed[j];
    assert PlacedOk(x, pa, bs, base);
    PlaceInside(pa, |big|, bs, x.bucket);
    hide RecordOk, Places, PlacedOk, Boundaries, Sane;
    forall t | 0 <= t < |big| && Member(g, t)
      ensures Member(pa, t) && big'[t] == BigTask(g.offset, g.offset + g.size, t - g.id, g.id, g.inInput, true)
    {
      RecordOfGroup(big'[t], placed, pa, bs, base, t, j);
    }
  }

  lemma RecordOfGroup(b: BigTask, placed: seq<Place>, pa: Parent, bs: seq<nat>, base: nat, t: nat, j: nat)
    requires Boundaries(bs, pa.size) && pa.stripe > 0 && pa.threads > 0 && Places(placed, pa, bs, base)
    requires RecordOk(b, placed, pa, bs, base, t) && j < |placed| && GroupOf(placed[j], t)
    ensures placed[j].bucket + 1 < |bs| && b == Record(placed[j], pa, bs, t)
  {
  }

  /** A thread of the group that has a task afterwards is in one of the new groups. */
  lemma StillMember(
      b: BigTask, placed: seq<Place>, pa: Parent, bs: seq<nat>, base: nat, t: nat)
    requires Boundaries(bs, pa.size) && pa.stripe > 0 && pa.threads > 0 && Places(placed, pa, bs, base)
      && Sane(placed, bs)
    requires RecordOk(b, placed, pa, bs, base, t) && b.hasTask
    ensures InSome(NewGroups(placed, pa, bs), t)
  {
    var j :| 0 <= j < |placed| && GroupOf(placed[j], t);
    BigHasGroup(placed, pa, bs, j);
    var gs, g := NewGroups(placed, pa, bs), GroupFor(placed[j], pa, bs);
    var i :| 0 <= i < |gs| && gs[i] == g;
    assert Member(gs[i], t);
  }

  lemma InPart(front: seq<Parent>, gs: seq<Parent>, t: nat)
    ensures InSome(gs, t) ==> InSome(front + gs, t)
    ensures InSome(front, t) ==> InSome(front + gs, t)
  {
    var all := front + gs;
    if InSome(gs, t) {
      var i :| 0 <= i < |gs| && Member(gs[i], t);
      assert Member(all[|front| + i], t);
    }
    if InSome(front, t) {
      var i :| 0 <= i < |front| && Member(front[i], t);
      assert Member(all[i], t);
    }
  }

  lemma InRest(groups: seq<Parent>, i: nat, t: nat)
    requires i < |groups| && InSome(groups, t) && !Member(groups[i], t)
    ensures InSome(groups[..i] + groups[i + 1..], t)
  {
    var j :| 0 <= j < |groups| && Member(groups[j], t);
    var rest := groups[..i] + groups[i + 1..];
    assert Member(rest[if j < i then j else j - 1], t);
  }

  /** Groups in the place of one group, within its threads, keep all groups apart. */
  lemma StillApart(groups: seq<Parent>, i: nat, gs: seq<Parent>)
    requires i < |groups| && AllApart(groups) && AllApart(gs)
    requires forall g :: g in gs ==> Within(g, groups[i])
    ensures AllApart(groups[..i] + groups[i + 1..] + gs)
  {
    var rest := groups[..i] + groups[i + 1..];
    var all := rest + gs;
    forall k, l | 0 <= k < l < |all| ensures NoCommonThread(all[k], all[l]) {
      if k < |rest| {
        var k' := if k < i then k else k + 1;
        assert all[k] == groups[k'];
        if l < |rest| {
          assert all[l] == groups[if l < i then l else l + 1];
        } else {
          assert all[l] == gs[l - |rest|] && Within(all[l], groups[i]);
          assert NoCommonThread(groups[if k' < i then k' else i], groups[if k' < i then i else k']);
        }
      } else {
        assert all[k] == gs[k - |rest|] && all[l] == gs[l - |rest|];
      }
    }
  }

  ghost predicate Within(g: Parent, pa: Parent) { pa.id <= g.id && g.id + g.threads <= pa.id + pa.threads }

  lemma NewWithin(placed: seq<Place>, pa: Parent, bs: seq<nat>, base: nat, total: nat)
    requires Boundaries(bs, pa.size) && Fitting(pa, total) && Places(placed, pa, bs, base) && Sane(placed, bs)
    ensures forall g :: g in NewGroups(placed, pa, bs) ==> Within(g, pa) && FromPlace(placed, pa, bs, g)
  {
    NewGroupsFrom(placed, pa, bs);
    PlacesSane(placed, pa, bs, base, total);
  }

  ghost predicate OtherThreads(big': seq<BigTask>, big: seq<BigTask>, pa: Parent) {
    |big'| == |big| && forall t :: 0 <= t < |big| && !Member(pa, t) ==> big'[t] == big[t]
  }

  ghost predicate OwnThreads(big': seq<BigTask>, placed: seq<Place>, pa: Parent, bs: seq<nat>, base: nat)
    requires Boundaries(bs, pa.size) && pa.stripe > 0 && pa.threads > 0 && Places(placed, pa, bs, base)
  {
    forall t :: 0 <= t < |big'| && Member(pa, t) ==> RecordOk(big'[t], placed, pa, bs, base, t)
  }

  lemma BigGroups(
      phase: seq<Scheduler.Phase<Task>>, big: seq<BigTask>, big': seq<BigTask>, groups: seq<Parent>, i: nat,
      placed: seq<Place>, bs: seq<nat>, base: nat)
    requires GroupsOk(phase, big, groups) && i < |groups| && Fitting(groups[i], |big|)
    requires Boundaries(bs, groups[i].size) && Places(placed, groups[i], bs, base) && Sane(placed, bs)
    requires OtherThreads(big', big, groups[i]) && OwnThreads(big', placed, groups[i], bs, base)
    ensures GroupsOk(phase, big', groups[..i] + groups[i + 1..] + NewGroups(placed, groups[i], bs))
  {
    var pa := groups[i];
    var gs, rest := NewGroups(placed, pa, bs), groups[..i] + groups[i + 1..];
    NewWithin(placed, pa, bs, base, |big|);
    NewGroupsApart(placed, pa, bs, base, |big|);
    StillApart(groups, i, gs);
    hide AllApart, Places, Sane, Boundaries, Fitting, NewGroups, FromPlace, RecordOk;
    forall k | 0 <= k < |rest + gs| ensures GroupOk(phase, big', (rest + gs)[k]) {
      GroupAfter(phase, big, big', groups, i, placed, bs, base, k);
    }
    forall t | 0 <= t < |big'| && big'[t].hasTask ensures InSome(rest + gs, t) {
      InPart(rest, gs, t);
      if Member(pa, t) {
        StillMember(big'[t], placed, pa, bs, base, t);
      } else {
        InRest(groups, i, t);
      }
    }
  }

  lemma GroupAfter(
      phase: seq<Scheduler.Phase<Task>>, big: seq<BigTask>, big': seq<BigTask>, groups: seq<Parent>, i: nat,
      placed: seq<Place>, bs: seq<nat>, base: nat, k: nat)
    requires GroupsOk(phase, big, groups) && i < |groups| && Fitting(groups[i], |big|)
    requires Boundaries(bs, groups[i].size) && Places(placed, groups[i], bs, base) && Sane(placed, bs)
    requires OtherThreads(big', big, groups[i]) && OwnThreads(big', placed, groups[i], bs, base)
    requires k < |groups[..i] + groups[i + 1..] + NewGroups(placed, groups[i], bs)|
    ensures GroupOk(phase, big', (groups[..i] + groups[i + 1..] + NewGroups(placed, groups[i], bs))[k])
  {
    var pa := groups[i];
    var gs, rest := NewGroups(placed, pa, bs), groups[..i] + groups[i + 1..];
    if k < |rest| {
      var l := if k < i then k else k + 1;
      assert rest[k] == groups[l] && GroupOk(phase, big, groups[l]);
      assert NoCommonThread(groups[if l < i then l else i], groups[if l < i then i else l]);
      OtherGroup(phase, big, big', pa, groups[l]);
    } else {
      assert (rest + gs)[k] == gs[k - |rest|];
      NewGroupsFrom(placed, pa, bs);
      NewGroup(phase, big, big', placed, pa, bs, base, gs[k - |rest|]);
    }
  }

  // ---- the scheduler

  /** Threads that have not asked for a job yet may get more tasks. */
  lemma MoreTasks(s: Scheduler.State<Task>, s': Scheduler.State<Task>, pa: Parent)
    requires Scheduler.Inv(s) && s' == s.(priv := s'.priv) && |s'.priv| == |s.priv|
    requires forall t :: 0 <= t < |s.phase| && Member(pa, t) ==> s.phase[t] == Scheduler.Start
    requires forall t :: 0 <= t < |s.phase| && !Member(pa, t) ==> s'.priv[t] == s.priv[t]
    requires pa.threads > 0 && pa.id < |s.phase|
    ensures Scheduler.Inv(s')
  {
    assert Member(pa, pa.id);
    assert !Scheduler.SomeDone(s);
    forall t | 0 <= t < |s'.phase| ensures Scheduler.ThreadOk(s', t) { assert Scheduler.ThreadOk(s, t); }
    if s.glob != [] {
      var t :| 0 <= t < |s.phase| && Scheduler.Active(s.phase[t]);
      assert Scheduler.Active(s'.phase[t]);
    }
  }

  lemma TablesOutside(
      big': seq<BigTask>, queues': seq<seq<Task>>, big: seq<BigTask>, queues: seq<seq<Task>>, placed: seq<Place>,
      pa: Parent, bs: seq<nat>, base: nat, total: nat)
    requires Boundaries(bs, pa.size) && Fitting(pa, total) && Places(placed, pa, bs, base)
    requires Tables(big', queues', big, queues, placed, pa, bs, base)
    ensures OtherThreads(big', big, pa) && OwnThreads(big', placed, pa, bs, base) && |queues'| == |queues|
    ensures forall t :: 0 <= t < |queues| && !Member(pa, t) ==> queues'[t] == queues[t]
  {
    hide RecordOk, Places, SmallTasksOf;
    forall t | 0 <= t < |queues| && !Member(pa, t) ensures queues'[t] == queues[t] {
      NoTaskOutside(placed, pa, bs, base, total, t);
      assert queues[t] + [] == queues[t];
    }
  }

  /** A group's step keeps everything in order. */
  lemma BigKeeps<T(!new)>(
      w: World<T>, w': World<T>, i: nat, placed: seq<Place>, v: seq<T>, bs: seq<nat>, equal: bool, done: set<nat>,
      cls: T -> nat, n: nat, v0: seq<T>, cfg: Config, less: (T, T) -> bool)
    requires WorldOk(w, n, v0, cfg.baseCase, less)
    requires BigNext(w, w', i, placed, v, bs, equal, done, cls, n, cfg, less)
    ensures WorldOk(w', n, v0, cfg.baseCase, less) && Work(Outstanding(w')) < Work(Outstanding(w))
  {
    ReadyNow(w, n, v0, cfg.baseCase, less, i);
    BigTasks(w, w', i, placed, v, bs, equal, done, cls, n, cfg, less);
    var pa := w.groups[i];
    hide SmallTasks.Split, Places, Tables, Boundaries, Sane, GroupsOk, Good, Outstanding, Scheduler.Inv, Fitting,
      Large, Finished, AllShorter;
    TablesOutside(w'.big, w'.sched.priv, w.big, w.sched.priv, placed, pa, bs, cfg.baseCase, |w.big|);
    BigGroups(w.sched.phase, w.big, w'.big, w.groups, i, placed, bs, cfg.baseCase);
    SchedulerAfter(w, w', i);
    PlacedIsQueued(placed, pa, bs, equal, done, cfg.baseCase, pa.size <= cfg.SingleLevel(), |w.big|);
    SmallTasks.IsProcessed(w.mem, w'.mem, n, TaskFor(pa), v, bs, done, cls, cfg.baseCase, less,
                           Found(placed, pa, bs), BucketsOf(placed));
    GroupTaskOutstanding(w, i);
    ProcessedKeeps(w.mem, w'.mem, n, v0, Outstanding(w), TaskFor(pa), Found(placed, pa, bs), cfg.baseCase, less);
    StepWorks(w.mem, w'.mem, n, v0, Outstanding(w), TaskFor(pa), Found(placed, pa, bs), cfg.baseCase, less);
  }

  lemma SchedulerAfter<T>(w: World<T>, w': World<T>, i: nat)
    requires Scheduler.Inv(w.sched) && i < |w.groups| && GroupOk(w.sched.phase, w.big, w.groups[i])
    requires w'.sched == w.sched.(priv := w'.sched.priv) && |w'.sched.priv| == |w.sched.priv|
    requires forall t :: 0 <= t < |w.sched.priv| && !Member(w.groups[i], t) ==> w'.sched.priv[t] == w.sched.priv[t]
    ensures Scheduler.Inv(w'.sched)
  {
    assert |w.sched.priv| == |w.sched.phase|;
    MoreTasks(w.sched, w'.sched, w.groups[i]);
  }

  lemma GroupTaskOutstanding<T>(w: World<T>, i: nat)
    requires i < |w.groups|
    ensures TaskFor(w.groups[i]) in Outstanding(w)
  {
    assert GroupTasks(w.groups)[i] == TaskFor(w.groups[i]);
    assert TaskFor(w.groups[i]) in multiset(GroupTasks(w.groups));
  }

  // ---------------------------------------------------------------- runs

  ghost predicate BigLinked<T(!new)>(w: World<T>, w': World<T>, n: nat, cfg: Config, less: (T, T) -> bool) {
    exists i, placed, v, bs, equal, done, cls :: BigNext(w, w', i, placed, v, bs, equal, done, cls, n, cfg, less)
  }

  ghost predicate SmallLinked<T(!new)>(w: World<T>, w': World<T>, n: nat, cfg: Config, less: (T, T) -> bool) {
    exists t, found :: SmallNext(w, w', t, found, n, cfg.baseCase, less)
  }

  /** Any interleaving of groups and single threads. */
  ghost predicate Behaviour<T(!new)>(ws: seq<World<T>>, n: nat, cfg: Config, less: (T, T) -> bool) {
    |ws| > 0 && forall i :: 0 <= i < |ws| - 1 ==>
      BigLinked(ws[i], ws[i + 1], n, cfg, less) || SmallLinked(ws[i], ws[i + 1], n, cfg, less)
  }

  /** In every reachable state, outstanding tasks of groups, queues and threads are disjoint, all else is final. */
  lemma {:induction false} AlwaysOk<T(!new)>(
      ws: seq<World<T>>, n: nat, v0: seq<T>, cfg: Config, less: (T, T) -> bool, i: nat)
    requires Behaviour(ws, n, cfg, less) && WorldOk(ws[0], n, v0, cfg.baseCase, less) && i < |ws|
    ensures WorldOk(ws[i], n, v0, cfg.baseCase, less)
  {
    if i > 0 {
      AlwaysOk(ws, n, v0, cfg, less, i - 1);
      var w, w' := ws[i - 1], ws[i];
      assert BigLinked(ws[i - 1], ws[i - 1 + 1], n, cfg, less) || SmallLinked(ws[i - 1], ws[i - 1 + 1], n, cfg, less);
      hide WorldOk, Behaviour;
      if BigLinked(w, w', n, cfg, less) {
        hide BigNext;
        var j, placed, v, bs, equal, done, cls :| BigNext(w, w', j, placed, v, bs, equal, done, cls, n, cfg, less);
        BigKeeps(w, w', j, placed, v, bs, equal, done, cls, n, v0, cfg, less);
      } else {
        hide SmallNext;
        var t, found :| SmallNext(w, w', t, found, n, cfg.baseCase, less);
        SmallKeeps(w, w', t, found, n, v0, cfg.baseCase, less);
      }
    }
  }

  lemma GroupStarts(phase: seq<Scheduler.Phase<Task>>, big: seq<BigTask>, pa: Parent)
    requires GroupOk(phase, big, pa)
    ensures pa.id < |phase| && phase[pa.id] == Scheduler.Start
  {
    assert Member(pa, pa.id);
  }

  /** Number of steps that finish a task, of a group or of a single thread. */
  ghost function Finishes<T>(ws: seq<World<T>>): nat {
    if |ws| < 2 then 0
    else Finishes(ws[..|ws| - 1]) + (if Outstanding(ws[|ws| - 1]) != Outstanding(ws[|ws| - 2]) then 1 else 0)
  }

  lemma StepBounded<T(!new)>(w: World<T>, w': World<T>, n: nat, v0: seq<T>, cfg: Config, less: (T, T) -> bool)
    requires WorldOk(w, n, v0, cfg.baseCase, less) && (BigLinked(w, w', n, cfg, less)
      || SmallLinked(w, w', n, cfg, less))
    ensures Outstanding(w') == Outstanding(w) || Work(Outstanding(w')) < Work(Outstanding(w))
  {
    hide WorldOk, Outstanding, Work;
    if BigLinked(w, w', n, cfg, less) {
      hide BigNext;
      var j, placed, v, bs, equal, done, cls :| BigNext(w, w', j, placed, v, bs, equal, done, cls, n, cfg, less);
      BigKeeps(w, w', j, placed, v, bs, equal, done, cls, n, v0, cfg, less);
    } else {
      hide SmallNext;
      var t, found :| SmallNext(w, w', t, found, n, cfg.baseCase, less);
      SmallKeeps(w, w', t, found, n, v0, cfg.baseCase, less);
    }
  }

  lemma LinkedAt<T(!new)>(ws: seq<World<T>>, n: nat, cfg: Config, less: (T, T) -> bool, k: nat)
    requires Behaviour(ws, n, cfg, less) && k + 1 < |ws|
    ensures BigLinked(ws[k], ws[k + 1], n, cfg, less) || SmallLinked(ws[k], ws[k + 1], n, cfg, less)
  {
  }

  lemma FinishesNext<T>(ws: seq<World<T>>, k: nat)
    requires k + 1 < |ws|
    ensures Finishes(ws[..k + 2])
         == Finishes(ws[..k + 1]) + (if Outstanding(ws[k + 1]) != Outstanding(ws[k]) then 1 else 0)
  {
    hide Outstanding;
    var front := ws[..k + 2];
    assert front[..k + 1] == ws[..k + 1] && front[k] == ws[k] && front[k + 1] == ws[k + 1];
  }

  lemma {:induction false} BoundedUpTo<T(!new)>(
      ws: seq<World<T>>, n: nat, v0: seq<T>, cfg: Config, less: (T, T) -> bool, k: nat)
    requires Behaviour(ws, n, cfg, less) && WorldOk(ws[0], n, v0, cfg.baseCase, less) && k < |ws|
    ensures Finishes(ws[..k + 1]) + Work(Outstanding(ws[k])) <= Work(Outstanding(ws[0]))
  {
    hide WorldOk, Behaviour, Outstanding, Work, BigLinked, SmallLinked;
    if k > 0 {
      BoundedUpTo(ws, n, v0, cfg, less, k - 1);
      AlwaysOk(ws, n, v0, cfg, less, k - 1);
      LinkedAt(ws, n, cfg, less, k - 1);
      FinishesNext(ws, k - 1);
      StepBounded(ws[k - 1], ws[k], n, v0, cfg, less);
    }
  }

  /** No run finishes more tasks than the work it starts with, whatever groups and threads do in between. */
  lemma RunIsBounded<T(!new)>(ws: seq<World<T>>, n: nat, v0: seq<T>, cfg: Config, less: (T, T) -> bool)
    requires Behaviour(ws, n, cfg, less) && WorldOk(ws[0], n, v0, cfg.baseCase, less)
    ensures Finishes(ws) + Work(Outstanding(ws[|ws| - 1])) <= Work(Outstanding(ws[0]))
  {
    hide WorldOk, Outstanding, Work, Finishes, BigLinked, SmallLinked;
    var k := |ws| - 1;
    BoundedUpTo(ws, n, v0, cfg, less, k);
    WholePrefix(ws, k + 1);
  }

  lemma WholePrefix<X>(s: seq<X>, n: nat)
    requires n == |s|
    ensures s[..n] == s
  {
  }

  /** A thread is told that there is no job only after the last group has split up. */
  lemma NoGroupLeft(s: Scheduler.State<Task>, big: seq<BigTask>, groups: seq<Parent>)
    requires Scheduler.Inv(s) && Scheduler.SomeDone(s) && GroupsOk(s.phase, big, groups)
    ensures groups == []
  {
    if groups != [] {
      GroupStarts(s.phase, big, groups[0]);
    }
  }

  /**
   * Whole-run correctness of the parallel sorter. As soon as any thread is told that there is no task left,
   * the input array is sorted and holds the original elements, in whatever order groups and threads worked.
   */
  lemma RunSorts<T(!new)>(ws: seq<World<T>>, n: nat, v0: seq<T>, cfg: Config, less: (T, T) -> bool)
    requires Behaviour(ws, n, cfg, less) && WorldOk(ws[0], n, v0, cfg.baseCase, less)
    requires Scheduler.SomeDone(ws[|ws| - 1].sched)
    ensures Sorted(ws[|ws| - 1].mem.input, less) && multiset(ws[|ws| - 1].mem.input) == multiset(v0)
  {
    AlwaysOk(ws, n, v0, cfg, less, |ws| - 1);
    DoneSorted(ws[|ws| - 1], n, v0, cfg.baseCase, less);
  }

  lemma DoneSorted<T(!new)>(w: World<T>, n: nat, v0: seq<T>, base: nat, less: (T, T) -> bool)
    requires WorldOk(w, n, v0, base, less) && Scheduler.SomeDone(w.sched)
    ensures w.groups == [] && Sorted(w.mem.input, less) && multiset(w.mem.input) == multiset(v0)
  {
    NoGroupLeft(w.sched, w.big, w.groups);
    QuietNoJobs(w.sched);
    assert Outstanding(w) == multiset{};
    NothingLeft(w.mem, n, v0, base, less);
  }

  // ---------------------------------------------------------------- fair runs

  /** Thread t acts: with its group, if it is in one, else on its own. */
  ghost predicate Acts<T(!new)>(w: World<T>, w': World<T>, t: nat, n: nat, cfg: Config, less: (T, T) -> bool) {
    if InSome(w.groups, t) then
      exists i: nat :: i < |w.groups| && Member(w.groups[i], t) && GroupActs(w, w', i, n, cfg, less)
    else exists found :: SmallNext(w, w', t, found, n, cfg.baseCase, less)
  }

  ghost predicate GroupActs<T(!new)>(w: World<T>, w': World<T>, i: nat, n: nat, cfg: Config, less: (T, T) -> bool) {
    exists placed, v, bs, equal, done, cls :: BigNext(w, w', i, placed, v, bs, equal, done, cls, n, cfg, less)
  }

  /** An endless run in which thread f(i) takes the i-th action. */
  ghost predicate Endless<T(!new)>(ws: nat -> World<T>, f: nat -> nat, n: nat, cfg: Config, less: (T, T) -> bool) {
    forall i: nat :: f(i) < |ws(i).sched.phase| && Acts(ws(i), ws(i + 1), f(i), n, cfg, less)
  }

  ghost function Scheds<T>(ws: nat -> World<T>): nat -> Scheduler.State<Task> { (i: nat) => ws(i).sched }

  ghost function Works<T>(ws: nat -> World<T>): nat -> nat { (i: nat) => Work(Outstanding(ws(i))) }

  /** Every action takes work away or is a step of the scheduler only, and keeps the invariant. */
  lemma ActionMoves<T(!new)>(
      w: World<T>, w': World<T>, t: nat, n: nat, v0: seq<T>, cfg: Config, less: (T, T) -> bool)
    requires WorldOk(w, n, v0, cfg.baseCase, less) && t < |w.sched.phase| && Acts(w, w', t, n, cfg, less)
    ensures WorldOk(w', n, v0, cfg.baseCase, less) && Scheduler.Inv(w.sched) && |w'.sched.phase| == |w.sched.phase|
    ensures
      || Scheduler.Bound(w'.sched, Work(Outstanding(w'))) < Scheduler.Bound(w.sched, Work(Outstanding(w)))
      || (Work(Outstanding(w')) == Work(Outstanding(w)) && !w.sched.phase[t].Working?
          && w'.sched == Scheduler.Step(w.sched, t, []))
  {
    if InSome(w.groups, t) {
      var i: nat :| i < |w.groups| && Member(w.groups[i], t) && GroupActs(w, w', i, n, cfg, less);
      hide WorldOk, BigNext;
      var placed, v, bs, equal, done, cls :| BigNext(w, w', i, placed, v, bs, equal, done, cls, n, cfg, less);
      BigMoves(w, w', i, placed, v, bs, equal, done, cls, n, v0, cfg, less);
    } else {
      hide WorldOk, SmallNext;
      var found :| SmallNext(w, w', t, found, n, cfg.baseCase, less);
      SmallMoves(w, w', t, found, n, v0, cfg.baseCase, less);
    }
  }

  lemma BigMoves<T(!new)>(
      w: World<T>, w': World<T>, i: nat, placed: seq<Place>, v: seq<T>, bs: seq<nat>, equal: bool, done: set<nat>,
      cls: T -> nat, n: nat, v0: seq<T>, cfg: Config, less: (T, T) -> bool)
    requires WorldOk(w, n, v0, cfg.baseCase, less)
    requires BigNext(w, w', i, placed, v, bs, equal, done, cls, n, cfg, less)
    ensures WorldOk(w', n, v0, cfg.baseCase, less) && Scheduler.Inv(w.sched) && |w'.sched.phase| == |w.sched.phase|
    ensures Scheduler.Bound(w'.sched, Work(Outstanding(w'))) < Scheduler.Bound(w.sched, Work(Outstanding(w)))
  {
    BigKeeps(w, w', i, placed, v, bs, equal, done, cls, n, v0, cfg, less);
    ReadyNow(w, n, v0, cfg.baseCase, less, i);
    hide GroupReady, QueuesTasks, SmallTasks.Split, Sane, Outstanding, Work, Good, GroupsOk;
    assert w'.sched.phase == w.sched.phase;
  }

  lemma SmallMoves<T(!new)>(
      w: World<T>, w': World<T>, t: nat, found: seq<Task>, n: nat, v0: seq<T>, base: nat, less: (T, T) -> bool)
    requires WorldOk(w, n, v0, base, less) && SmallNext(w, w', t, found, n, base, less)
    ensures WorldOk(w', n, v0, base, less) && Scheduler.Inv(w.sched) && t < |w.sched.phase| == |w'.sched.phase|
    ensures
      || Scheduler.Bound(w'.sched, Work(Outstanding(w'))) < Scheduler.Bound(w.sched, Work(Outstanding(w)))
      || (Work(Outstanding(w')) == Work(Outstanding(w)) && !w.sched.phase[t].Working?
          && w'.sched == Scheduler.Step(w.sched, t, []))
  {
    SmallKeeps(w, w', t, found, n, v0, base, less);
    hide Scheduler.Inv, Good, GroupsOk, Processed, Outstanding, Work, Scheduler.Bound, Scheduler.Step;
    Scheduler.StepBound(w.sched, t, found, Work(Outstanding(w)), Work(Outstanding(w')));
  }

  lemma {:induction false} EndlessOk<T(!new)>(
      ws: nat -> World<T>, f: nat -> nat, n: nat, v0: seq<T>, cfg: Config, less: (T, T) -> bool, i: nat)
    requires Endless(ws, f, n, cfg, less) && WorldOk(ws(0), n, v0, cfg.baseCase, less)
    ensures WorldOk(ws(i), n, v0, cfg.baseCase, less)
  {
    if i > 0 {
      EndlessOk(ws, f, n, v0, cfg, less, i - 1);
      assert Acts(ws(i - 1), ws(i - 1 + 1), f(i - 1), n, cfg, less);
      hide WorldOk, Acts, Endless;
      ActionMoves(ws(i - 1), ws(i), f(i - 1), n, v0, cfg, less);
    }
  }

  lemma RunMoves<T(!new)>(
      ws: nat -> World<T>, f: nat -> nat, n: nat, v0: seq<T>, cfg: Config, less: (T, T) -> bool)
    requires Endless(ws, f, n, cfg, less) && WorldOk(ws(0), n, v0, cfg.baseCase, less)
    ensures Scheduler.MovesOn(Scheds(ws), f, Works(ws))
  {
    forall i: nat ensures Scheduler.Moves(Scheds(ws), f, Works(ws), i) {
      EndlessOk(ws, f, n, v0, cfg, less, i);
      assert Acts(ws(i), ws(i + 1), f(i), n, cfg, less);
      hide WorldOk, Acts, Endless, Scheduler.Inv, Scheduler.Step, Scheduler.Bound;
      ActionMoves(ws(i), ws(i + 1), f(i), n, v0, cfg, less);
    }
  }

  /**
   * Every fair run of groups and single threads ends: no group is left, all threads have been told that there is
   * no task, and the input array is sorted and holds the original elements.
   */
  lemma FairRunSorts<T(!new)>(
      ws: nat -> World<T>, f: nat -> nat, n: nat, v0: seq<T>, cfg: Config, less: (T, T) -> bool) returns (m: nat)
    requires Endless(ws, f, n, cfg, less) && WorldOk(ws(0), n, v0, cfg.baseCase, less)
    requires Scheduler.Fair(Scheds(ws), f)
    ensures Scheduler.AllDone(ws(m).sched) && ws(m).groups == []
    ensures Sorted(ws(m).mem.input, less) && multiset(ws(m).mem.input) == multiset(v0)
  {
    RunMoves(ws, f, n, v0, cfg, less);
    m := Scheduler.FairRunEnds(Scheds(ws), f, Works(ws), 0);
    EndlessOk(ws, f, n, v0, cfg, less, m);
    assert ws(m).sched.phase[0].Done?;
    DoneSorted(ws(m), n, v0, cfg.baseCase, less);
  }

  /** A run starts with one group of all threads, whose task is the whole input. */
  lemma StartOk<T(!new)>(w: World<T>, n: nat, v0: seq<T>, base: nat, less: (T, T) -> bool)
    requires Scheduler.Init(w.sched) && n == |v0| > 2 * base && |w.big| == |w.sched.phase|
    requires forall t :: 0 <= t < |w.big| ==> w.sched.priv[t] == [] && w.big[t] == BigTask(0, n, t, 0, true, true)
    requires w.groups == [Parent(0, |w.big|, 0, n, true, Ceil(n, |w.big|))]
    requires Shaped(w.mem, n) && w.mem.input == w.mem.content == v0
    ensures WorldOk(w, n, v0, base, less) && Work(Outstanding(w)) == 2 * n - 1
  {
    var x, pa := Task(0, n, true), w.groups[0];
    Scheduler.InitInv(w.sched);
    AllEmpty(Scheduler.Held(w.sched.phase));
    AllEmpty(w.sched.priv);
    assert GroupTasks(w.groups) == [x];
    assert Outstanding(w) == multiset{x};
    WholeGood(w.mem, n, v0, base, less);
    NearestRoot(n, |w.big|);
    assert GroupOk(w.sched.phase, w.big, pa);
    forall t | 0 <= t < |w.big| ensures InSome(w.groups, t) { assert Member(w.groups[0], t); }
  }
}
