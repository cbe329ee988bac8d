/**
 * A whole run of small-task processing: all threads take tasks from the scheduler, partition their range
 * from one array to the other, and queue what is left to sort.
 */
module TaskRun {
  import opened Order
  import opened Bags
  import opened Buffers
  import opened Scheduler

  /** A range that is still to be sorted; its elements are in the input array or in the temporary one. */
  datatype Task = Task(begin: nat, end: nat, inInput: bool)

  /** Both arrays, and, as bookkeeping, the element every position stands for. */
  datatype Memory<+T> = Memory(input: seq<T>, tmp: seq<T>, content: seq<T>)

  ghost predicate Shaped<T>(m: Memory<T>, n: nat) {
    |m.input| == |m.tmp| == |m.content| == n
  }

  predicate In(p: nat, x: Task) { x.begin <= p < x.end }

  predicate Apart(x: Task, y: Task) { x.end <= y.begin || y.end <= x.begin }

  /** The task's elements are in the array that its flag names. */
  ghost predicate TaskOk<T(!new)>(m: Memory<T>, n: nat, x: Task, base: nat)
    requires Shaped(m, n)
  {
    && x.begin + 2 * base < x.end <= n
    && (if x.inInput then m.input else m.tmp)[x.begin..x.end] == m.content[x.begin..x.end]
  }

  /** Two positions are in order, or some task will still put them in order. */
  ghost predicate Ordered<T(!new)>(m: Memory<T>, tasks: multiset<Task>, less: (T, T) -> bool, p: nat, q: nat)
    requires p < q < |m.content|
  {
    !less(m.content[q], m.content[p]) || exists x :: x in tasks && In(p, x) && In(q, x)
  }

  ghost predicate Disjoint(tasks: multiset<Task>) {
    forall x, y :: x in tasks && y in tasks ==> if x == y then tasks[x] == 1 else Apart(x, y)
  }

  ghost predicate Good<T(!new)>(
      m: Memory<T>, n: nat, v0: seq<T>, tasks: multiset<Task>, base: nat, less: (T, T) -> bool) {
    && Shaped(m, n) && multiset(m.content) == multiset(v0) && Disjoint(tasks)
    && (forall x :: x in tasks ==> TaskOk(m, n, x, base))
    && (forall p: nat :: p < n && (forall x :: x in tasks ==> !In(p, x)) ==> m.input[p] == m.content[p])
    && (forall p: nat, q: nat :: p < q < n ==> Ordered(m, tasks, less, p, q))
  }

  // ---------------------------------------------------------------- processing one task

  /** Separate ranges, the last one first. */
  ghost predicate Spread(found: seq<Task>) {
    forall i, j :: 0 <= i < j < |found| ==> found[j].end <= found[i].begin
  }

  /**
   * What partitioning the range of task x does: only the range changes, its elements are rearranged, the
   * subranges found are separate, strictly smaller tasks in order, and everything else in the range is final.
   */
  ghost predicate Processed<T(!new)>(
      m: Memory<T>, m': Memory<T>, n: nat, x: Task, found: seq<Task>, base: nat, less: (T, T) -> bool)
    requires Shaped(m, n) && Shaped(m', n) && x.begin <= x.end <= n
  {
    && m'.input[..x.begin] == m.input[..x.begin] && m'.input[x.end..] == m.input[x.end..]
    && m'.tmp[..x.begin] == m.tmp[..x.begin] && m'.tmp[x.end..] == m.tmp[x.end..]
    && m'.content[..x.begin] == m.content[..x.begin] && m'.content[x.end..] == m.content[x.end..]
    && multiset(m'.content[x.begin..x.end]) == multiset(m.content[x.begin..x.end])
    && Spread(found)
    && (forall y :: y in found ==> Inside(y, x) && TaskOk(m', n, y, base))
    && (forall p: nat :: In(p, x) && (forall y :: y in found ==> !In(p, y)) ==> m'.input[p] == m'.content[p])
    && (forall p: nat, q: nat :: p < q && In(p, x) && In(q, x) ==> Ordered(m', multiset(found), less, p, q))
  }

  /** A strict part of the range. */
  predicate Inside(y: Task, x: Task) {
    x.begin <= y.begin <= y.end <= x.end && y.end - y.begin < x.end - x.begin
  }

  ghost function Replaced(tasks: multiset<Task>, x: Task, found: seq<Task>): multiset<Task> {
    tasks - multiset{x} + multiset(found)
  }

  lemma InReplaced(tasks: multiset<Task>, x: Task, found: seq<Task>, y: Task)
    requires x in tasks && Disjoint(tasks)
    ensures y in Replaced(tasks, x, found) <==> (y in tasks && y != x) || y in found
  {
    assert tasks[x] == 1;
    assert y in multiset(found) <==> y in found;
  }

  lemma {:induction false} SpreadOnce(found: seq<Task>, y: Task)
    requires Spread(found) && (forall z :: z in found ==> z.begin < z.end) && y in found
    ensures multiset(found)[y] == 1
  {
    assert found == [found[0]] + found[1..];
    if found[0] != y {
      SpreadOnce(found[1..], y);
    }
  }

  lemma StaysDisjoint(tasks: multiset<Task>, x: Task, found: seq<Task>)
    requires x in tasks && Disjoint(tasks) && Spread(found)
    requires forall y :: y in found ==> x.begin <= y.begin < y.end <= x.end
    ensures Disjoint(Replaced(tasks, x, found))
  {
    var next := Replaced(tasks, x, found);
    forall y, z | y in next && z in next ensures if y == z then next[y] == 1 else Apart(y, z) {
      InReplaced(tasks, x, found, y);
      InReplaced(tasks, x, found, z);
      if y == z {
        StaysSingle(tasks, x, found, y);
      } else if y in found && z in found {
        FoundApart(found, y, z);
      } else {
        assert y in tasks ==> y == x || Apart(x, y);
        assert z in tasks ==> z == x || Apart(x, z);
      }
    }
  }

  lemma FoundApart(found: seq<Task>, y: Task, z: Task)
    requires Spread(found) && y in found && z in found && y != z
    ensures Apart(y, z)
  {
    var i :| 0 <= i < |found| && found[i] == y;
    var j :| 0 <= j < |found| && found[j] == z;
    assert if i < j then found[j].end <= found[i].begin else found[i].end <= found[j].begin;
  }

  lemma StaysSingle(tasks: multiset<Task>, x: Task, found: seq<Task>, y: Task)
    requires x in tasks && Disjoint(tasks) && Spread(found) && ((y in tasks && y != x) || y in found)
    requires forall z :: z in found ==> x.begin <= z.begin < z.end <= x.end
    ensures Replaced(tasks, x, found)[y] == 1
  {
    if y in found {
      SpreadOnce(found, y);
      assert y in tasks ==> y == x || Apart(x, y);
    } else {
      assert multiset(found)[y] == 0;
    }
  }

  lemma Elsewhere<T>(s: seq<T>, t: seq<T>, lo: nat, hi: nat, p: nat)
    requires lo <= hi <= |s| == |t| && t[..lo] == s[..lo] && t[hi..] == s[hi..] && p < |s| && (p < lo || hi <= p)
    ensures t[p] == s[p]
  {
    if p < lo { assert t[..lo][p] == s[..lo][p]; } else { assert t[hi..][p - hi] == s[hi..][p - hi]; }
  }

  lemma SliceElsewhere<T>(s: seq<T>, t: seq<T>, lo: nat, hi: nat, x: nat, y: nat)
    requires lo <= hi <= |s| == |t| && t[..lo] == s[..lo] && t[hi..] == s[hi..]
    requires x <= y <= |s| && (y <= lo || hi <= x)
    ensures t[x..y] == s[x..y]
  {
    forall p | x <= p < y ensures t[p] == s[p] { Elsewhere(s, t, lo, hi, p); }
  }

  lemma OtherTaskOk<T(!new)>(
      m: Memory<T>, m': Memory<T>, n: nat, x: Task, found: seq<Task>, base: nat, less: (T, T) -> bool, y: Task)
    requires Shaped(m, n) && Shaped(m', n) && x.begin <= x.end <= n && Processed(m, m', n, x, found, base, less)
    requires TaskOk(m, n, y, base) && Apart(x, y)
    ensures TaskOk(m', n, y, base)
  {
    SliceElsewhere(m.input, m'.input, x.begin, x.end, y.begin, y.end);
    SliceElsewhere(m.tmp, m'.tmp, x.begin, x.end, y.begin, y.end);
    SliceElsewhere(m.content, m'.content, x.begin, x.end, y.begin, y.end);
  }

  lemma FromInside<T>(s: seq<T>, t: seq<T>, lo: nat, hi: nat, p: nat) returns (q: nat)
    requires lo <= p < hi <= |s| == |t| && multiset(t[lo..hi]) == multiset(s[lo..hi])
    ensures lo <= q < hi && t[p] == s[q]
  {
    assert t[p] == t[lo..hi][p - lo];
    assert t[p] in multiset(t[lo..hi]);
    assert t[p] in multiset(s[lo..hi]);
    var k :| 0 <= k < hi - lo && s[lo..hi][k] == t[p];
    q := lo + k;
  }

  lemma OrderedAfter<T(!new)>(
      m: Memory<T>, m': Memory<T>, n: nat, v0: seq<T>, tasks: multiset<Task>, x: Task, found: seq<Task>, base: nat,
      less: (T, T) -> bool, p: nat, q: nat)
    requires Good(m, n, v0, tasks, base, less) && x in tasks && Shaped(m', n) && x.begin <= x.end <= n
    requires Processed(m, m', n, x, found, base, less) && p < q < n
    ensures Ordered(m', Replaced(tasks, x, found), less, p, q)
  {
    var next := Replaced(tasks, x, found);
    if In(p, x) && In(q, x) {
      assert Ordered(m', multiset(found), less, p, q);
      if y :| y in multiset(found) && In(p, y) && In(q, y) { InReplaced(tasks, x, found, y); assert y in next; }
    } else {
      var p', q' := p, q;
      if In(p, x) { p' := FromInside(m.content, m'.content, x.begin, x.end, p); }
      else { Elsewhere(m.content, m'.content, x.begin, x.end, p); }
      if In(q, x) { q' := FromInside(m.content, m'.content, x.begin, x.end, q); }
      else { Elsewhere(m.content, m'.content, x.begin, x.end, q); }
      assert Ordered(m, tasks, less, p', q');
      if y :| y in tasks && In(p', y) && In(q', y) {
        assert y != x && Apart(x, y);
        InReplaced(tasks, x, found, y);
        assert y in next;
      }
    }
  }

  lemma FinalAfter<T(!new)>(
      m: Memory<T>, m': Memory<T>, n: nat, v0: seq<T>, tasks: multiset<Task>, x: Task, found: seq<Task>, base: nat,
      less: (T, T) -> bool, p: nat)
    requires Good(m, n, v0, tasks, base, less) && x in tasks && Shaped(m', n) && x.begin <= x.end <= n
    requires Processed(m, m', n, x, found, base, less)
    requires p < n && forall y :: y in Replaced(tasks, x, found) ==> !In(p, y)
    ensures m'.input[p] == m'.content[p]
  {
    forall y | y in found ensures !In(p, y) { InReplaced(tasks, x, found, y); }
    if !In(p, x) {
      forall y | y in tasks ensures !In(p, y) { InReplaced(tasks, x, found, y); }
      Elsewhere(m.input, m'.input, x.begin, x.end, p);
      Elsewhere(m.content, m'.content, x.begin, x.end, p);
    }
  }

  /** Processing a task keeps everything in order. */
  lemma ProcessedKeeps<T(!new)>(
      m: Memory<T>, m': Memory<T>, n: nat, v0: seq<T>, tasks: multiset<Task>, x: Task, found: seq<Task>, base: nat,
      less: (T, T) -> bool)
    requires Good(m, n, v0, tasks, base, less) && x in tasks && Shaped(m', n)
    requires x.begin <= x.end <= n && Processed(m, m', n, x, found, base, less)
    ensures Good(m', n, v0, Replaced(tasks, x, found), base, less)
  {
    ReplaceSlice(m.content, m'.content, x.begin, x.end);
    StaysDisjoint(tasks, x, found);
    forall y | y in Replaced(tasks, x, found) ensures TaskOk(m', n, y, base) {
      InReplaced(tasks, x, found, y);
      if y !in found { OtherTaskOk(m, m', n, x, found, base, less, y); }
    }
    forall p: nat | p < n && (forall y :: y in Replaced(tasks, x, found) ==> !In(p, y))
      ensures m'.input[p] == m'.content[p]
    {
      FinalAfter(m, m', n, v0, tasks, x, found, base, less, p);
    }
    forall p: nat, q: nat | p < q < n ensures Ordered(m', Replaced(tasks, x, found), less, p, q) {
      OrderedAfter(m, m', n, v0, tasks, x, found, base, less, p, q);
    }
  }

  // ---------------------------------------------------------------- how much work is left

  /** Number of tasks that a range of this length can give rise to, itself included. */
  function Weight(x: Task): nat { if x.begin < x.end then 2 * (x.end - x.begin) - 1 else 0 }

  ghost function AnyOf(tasks: multiset<Task>): (x: Task)
    requires |tasks| > 0
    ensures x in tasks
  {
    var x :| x in tasks;
    x
  }

  /** An upper bound on the number of tasks still to be processed. */
  ghost function Work(tasks: multiset<Task>): nat
    decreases |tasks|
  {
    if |tasks| == 0 then 0 else Weight(AnyOf(tasks)) + Work(tasks - multiset{AnyOf(tasks)})
  }

  lemma {:induction false} WorkWithout(tasks: multiset<Task>, y: Task)
    requires y in tasks
    ensures Work(tasks) == Weight(y) + Work(tasks - multiset{y})
    decreases |tasks|
  {
    WorkUnfolded(tasks);
    hide Work, Weight, AnyOf;
    var x := AnyOf(tasks);
    if x != y {
      TakeTwo(tasks, x, y);
      WorkWithout(tasks - multiset{x}, y);
      WorkWithout(tasks - multiset{y}, x);
    }
  }

  lemma WorkUnfolded(tasks: multiset<Task>)
    requires |tasks| > 0
    ensures AnyOf(tasks) in tasks && Work(tasks) == Weight(AnyOf(tasks)) + Work(tasks - multiset{AnyOf(tasks)})
  {
  }

  lemma TakeTwo(tasks: multiset<Task>, x: Task, y: Task)
    requires x in tasks && y in tasks && x != y
    ensures y in tasks - multiset{x} && x in tasks - multiset{y}
    ensures |tasks - multiset{x}| < |tasks| && |tasks - multiset{y}| < |tasks|
    ensures tasks - multiset{y} - multiset{x} == tasks - multiset{x} - multiset{y}
  {
  }

  ghost function WorkOf(found: seq<Task>): nat {
    if found == [] then 0 else Weight(found[0]) + WorkOf(found[1..])
  }

  lemma {:induction false} WorkMore(tasks: multiset<Task>, found: seq<Task>)
    ensures Work(tasks + multiset(found)) == Work(tasks) + WorkOf(found)
  {
    if found == [] {
      assert tasks + multiset(found) == tasks;
    } else {
      var all := tasks + multiset(found);
      assert found == [found[0]] + found[1..];
      WorkWithout(all, found[0]);
      assert all - multiset{found[0]} == tasks + multiset(found[1..]);
      WorkMore(tasks, found[1..]);
    }
  }

  lemma {:induction false} FoundWork(found: seq<Task>, b: nat, e: nat)
    requires Spread(found) && b <= e && forall y :: y in found ==> b <= y.begin < y.end <= e
    ensures WorkOf(found) + |found| <= 2 * (e - b)
  {
    if found != [] {
      var rest := found[1..];
      forall y | y in rest ensures b <= y.begin < y.end <= found[0].begin {
        var j :| 0 <= j < |rest| && rest[j] == y;
        assert found[j + 1] == y && y in found;
      }
      FoundWork(rest, b, found[0].begin);
    }
  }

  /** Processing a task takes work away: what it finds weighs less than the task did. */
  lemma WorkShrinks(tasks: multiset<Task>, x: Task, found: seq<Task>)
    requires x in tasks && x.begin < x.end && Spread(found)
    requires forall y :: y in found ==> Inside(y, x) && y.begin < y.end
    ensures Work(Replaced(tasks, x, found)) < Work(tasks)
  {
    WorkWithout(tasks, x);
    WorkMore(tasks - multiset{x}, found);
    FoundWork(found, x.begin, x.end);
    if |found| == 1 { assert found[0] in found && found[1..] == []; }
  }

  lemma ProcessedWorks<T(!new)>(
      m: Memory<T>, m': Memory<T>, n: nat, tasks: multiset<Task>, x: Task, found: seq<Task>, base: nat,
      less: (T, T) -> bool)
    requires x in tasks && Shaped(m, n) && TaskOk(m, n, x, base) && Shaped(m', n)
    requires Processed(m, m', n, x, found, base, less)
    ensures Work(Replaced(tasks, x, found)) < Work(tasks)
  {
    WorkShrinks(tasks, x, found);
  }

  // ---------------------------------------------------------------- runs

  datatype World<+T> = World(sched: State<Task>, mem: Memory<T>)

  ghost predicate WorldOk<T(!new)>(w: World<T>, n: nat, v0: seq<T>, base: nat, less: (T, T) -> bool) {
    Inv(w.sched) && Good(w.mem, n, v0, Jobs(w.sched), base, less)
  }

  /**
   * Thread t takes a step. If it finishes a task, and the task's elements were where its flag says, the memory
   * changes as processing the task changes it; if they were not, nothing is known about the memory after that.
   */
  ghost predicate Next<T(!new)>(
      w: World<T>, w': World<T>, t: nat, found: seq<Task>, n: nat, base: nat, less: (T, T) -> bool)
  {
    && Inv(w.sched) && t < |w.sched.phase| && w'.sched == Step(w.sched, t, found)
    && match w.sched.phase[t]
       case Working(x) =>
         Shaped(w.mem, n) && TaskOk(w.mem, n, x, base) ==>
           Shaped(w'.mem, n) && Processed(w.mem, w'.mem, n, x, found, base, less)
       case _ => w'.mem == w.mem
  }

  lemma HeldIsJob<J>(s: State<J>, t: nat)
    requires t < |s.phase| && Holding(s.phase[t])
    ensures s.phase[t].job in Jobs(s)
  {
    assert Held(s.phase)[t] == [s.phase[t].job];
    InBag(Held(s.phase), t, s.phase[t].job);
  }

  /** A thread that has a task finds its elements in place, whatever the other threads have done. */
  lemma TaskReady<T(!new)>(
      m: Memory<T>, n: nat, v0: seq<T>, tasks: multiset<Task>, x: Task, base: nat, less: (T, T) -> bool)
    requires Good(m, n, v0, tasks, base, less) && x in tasks
    ensures Shaped(m, n) && TaskOk(m, n, x, base) && x.begin <= x.end <= n
  {
  }

  lemma ReplacedBag(j': multiset<Task>, j: multiset<Task>, x: Task, found: seq<Task>)
    requires j' + multiset{x} == j + multiset(found) && x in j
    ensures j' == Replaced(j, x, found)
  {
    assert j' == (j' + multiset{x}) - multiset{x};
  }

  lemma NextKeeps<T(!new)>(
      w: World<T>, w': World<T>, t: nat, found: seq<Task>, n: nat, v0: seq<T>, base: nat, less: (T, T) -> bool)
    requires WorldOk(w, n, v0, base, less) && Next(w, w', t, found, n, base, less)
    ensures WorldOk(w', n, v0, base, less)
  {
    StepKeeps(w.sched, t, found);
    StepJobs(w.sched, t, found);
    hide Inv, Good, Processed, Jobs, Step;
    match w.sched.phase[t]
    case Working(x) =>
      HeldIsJob(w.sched, t);
      TaskReady(w.mem, n, v0, Jobs(w.sched), x, base, less);
      ProcessedKeeps(w.mem, w'.mem, n, v0, Jobs(w.sched), x, found, base, less);
      ReplacedBag(Jobs(w'.sched), Jobs(w.sched), x, found);
    case _ =>
  }

  ghost predicate Linked<T(!new)>(w: World<T>, w': World<T>, n: nat, base: nat, less: (T, T) -> bool) {
    exists t, found :: Next(w, w', t, found, n, base, less)
  }

  ghost predicate Behaviour<T(!new)>(ws: seq<World<T>>, n: nat, base: nat, less: (T, T) -> bool) {
    |ws| > 0 && forall i :: 0 <= i < |ws| - 1 ==> Linked(ws[i], ws[i + 1], n, base, less)
  }

  /** In every reachable state, outstanding tasks are disjoint, and all else is final. */
  lemma {:induction false} AlwaysOk<T(!new)>(
      ws: seq<World<T>>, n: nat, v0: seq<T>, base: nat, less: (T, T) -> bool, i: nat)
    requires Behaviour(ws, n, base, less) && WorldOk(ws[0], n, v0, base, less) && i < |ws|
    ensures WorldOk(ws[i], n, v0, base, less)
  {
    if i > 0 {
      AlwaysOk(ws, n, v0, base, less, i - 1);
      assert Linked(ws[i - 1], ws[i - 1 + 1], n, base, less);
      var t, found :| Next(ws[i - 1], ws[i], t, found, n, base, less);
      NextKeeps(ws[i - 1], ws[i], t, found, n, v0, base, less);
    }
  }

  lemma NextWorks<T(!new)>(
      w: World<T>, w': World<T>, t: nat, found: seq<Task>, n: nat, v0: seq<T>, base: nat, less: (T, T) -> bool)
    requires WorldOk(w, n, v0, base, less) && Next(w, w', t, found, n, base, less)
    ensures w.sched.phase[t].Working? ==> Work(Jobs(w'.sched)) < Work(Jobs(w.sched))
    ensures !w.sched.phase[t].Working? ==> Jobs(w'.sched) == Jobs(w.sched)
  {
    StepJobs(w.sched, t, found);
    hide Inv, Good, Processed, Jobs, Step;
    match w.sched.phase[t]
    case Working(x) =>
      HeldIsJob(w.sched, t);
      TaskReady(w.mem, n, v0, Jobs(w.sched), x, base, less);
      ReplacedBag(Jobs(w'.sched), Jobs(w.sched), x, found);
      ProcessedWorks(w.mem, w'.mem, n, Jobs(w.sched), x, found, base, less);
    case _ =>
  }

  /** Number of steps that finish a task. */
  ghost function Finishes<T>(ws: seq<World<T>>): nat {
    if |ws| < 2 then 0
    else Finishes(ws[..|ws| - 1]) + (if Jobs(ws[|ws| - 1].sched) != Jobs(ws[|ws| - 2].sched) then 1 else 0)
  }

  /** No run finishes more tasks than the work it starts with. */
  lemma {:induction false} RunIsBounded<T(!new)>(ws: seq<World<T>>, n: nat, v0: seq<T>, base: nat, less: (T, T) -> bool)
    requires Behaviour(ws, n, base, less) && WorldOk(ws[0], n, v0, base, less)
    ensures Finishes(ws) + Work(Jobs(ws[|ws| - 1].sched)) <= Work(Jobs(ws[0].sched))
    decreases |ws|
  {
    if |ws| > 1 {
      var k := |ws| - 2;
      var front := ws[..k + 1];
      forall i | 0 <= i < |front| - 1 ensures Linked(front[i], front[i + 1], n, base, less) {
        assert Linked(ws[i], ws[i + 1], n, base, less);
      }
      RunIsBounded(front, n, v0, base, less);
      AlwaysOk(ws, n, v0, base, less, k);
      assert Linked(ws[k], ws[k + 1], n, base, less);
      hide WorldOk, Behaviour, Jobs, Work;
      var t, found :| Next(ws[k], ws[k + 1], t, found, n, base, less);
      hide Next;
      NextWorks(ws[k], ws[k + 1], t, found, n, v0, base, less);
    }
  }

  lemma QuietNoJobs<J(!new)>(s: State<J>)
    requires Inv(s) && Quiet(s)
    ensures Jobs(s) == multiset{}
  {
    AllEmpty(Held(s.phase));
    AllEmpty(s.priv);
  }

  /**
   * Whole-run correctness. As soon as any thread is told that there is no task left, the input array is
   * sorted and holds the original elements, whatever order the tasks were taken and processed in.
   */
  lemma RunSorts<T(!new)>(ws: seq<World<T>>, n: nat, v0: seq<T>, base: nat, less: (T, T) -> bool)
    requires Behaviour(ws, n, base, less) && WorldOk(ws[0], n, v0, base, less)
    requires SomeDone(ws[|ws| - 1].sched)
    ensures Sorted(ws[|ws| - 1].mem.input, less) && multiset(ws[|ws| - 1].mem.input) == multiset(v0)
  {
    AlwaysOk(ws, n, v0, base, less, |ws| - 1);
    QuietNoJobs(ws[|ws| - 1].sched);
    NothingLeft(ws[|ws| - 1].mem, n, v0, base, less);
  }

  lemma NothingLeft<T(!new)>(m: Memory<T>, n: nat, v0: seq<T>, base: nat, less: (T, T) -> bool)
    requires Good(m, n, v0, multiset{}, base, less)
    ensures Sorted(m.input, less) && multiset(m.input) == multiset(v0)
  {
    assert m.input == m.content;
    forall p, q | 0 <= p < q < n ensures !less(m.input[q], m.input[p]) { assert Ordered(m, multiset{}, less, p, q); }
  }

  // ---------------------------------------------------------------- fair runs

  ghost predicate Acts<T(!new)>(w: World<T>, w': World<T>, t: nat, n: nat, base: nat, less: (T, T) -> bool) {
    exists found :: Next(w, w', t, found, n, base, less)
  }

  /** Every thread can act at any time; one that works on a task, by processing it. */
  lemma CanAct<T(!new)>(
      w: World<T>, t: nat, m': Memory<T>, found: seq<Task>, n: nat, v0: seq<T>, base: nat, less: (T, T) -> bool)
    requires WorldOk(w, n, v0, base, less) && t < |w.sched.phase|
    requires if w.sched.phase[t].Working? then
        var x := w.sched.phase[t].job;
        Shaped(w.mem, n) && Shaped(m', n) && x.begin <= x.end <= n && Processed(w.mem, m', n, x, found, base, less)
      else m' == w.mem
    ensures Acts(w, World(Step(w.sched, t, found), m'), t, n, base, less)
  {
    assert Next(w, World(Step(w.sched, t, found), m'), t, found, n, base, less);
  }

  /** An endless run in which thread f(i) takes the i-th action. */
  ghost predicate Endless<T(!new)>(ws: nat -> World<T>, f: nat -> nat, n: nat, base: nat, less: (T, T) -> bool) {
    forall i: nat :: Acts(ws(i), ws(i + 1), f(i), n, base, less)
  }

  ghost function Scheds<T>(ws: nat -> World<T>): nat -> State<Task> { (i: nat) => ws(i).sched }

  ghost function Works<T>(ws: nat -> World<T>): nat -> nat { (i: nat) => Work(Jobs(ws(i).sched)) }

  lemma {:induction false} EndlessOk<T(!new)>(
      ws: nat -> World<T>, f: nat -> nat, n: nat, v0: seq<T>, base: nat, less: (T, T) -> bool, i: nat)
    requires Endless(ws, f, n, base, less) && WorldOk(ws(0), n, v0, base, less)
    ensures WorldOk(ws(i), n, v0, base, less)
  {
    if i > 0 {
      EndlessOk(ws, f, n, v0, base, less, i - 1);
      assert Acts(ws(i - 1), ws(i - 1 + 1), f(i - 1), n, base, less);
      var found :| Next(ws(i - 1), ws(i), f(i - 1), found, n, base, less);
      hide WorldOk, Next, Endless, Acts;
      NextKeeps(ws(i - 1), ws(i), f(i - 1), found, n, v0, base, less);
    }
  }

  /** Every action finishes a task, and so takes work away, or is a step of the scheduler only. */
  lemma ActionMoves<T(!new)>(
      w: World<T>, w': World<T>, t: nat, n: nat, v0: seq<T>, base: nat, less: (T, T) -> bool)
    requires WorldOk(w, n, v0, base, less) && Acts(w, w', t, n, base, less)
    ensures Inv(w.sched) && t < |w.sched.phase| == |w'.sched.phase|
    ensures
      || Bound(w'.sched, Work(Jobs(w'.sched))) < Bound(w.sched, Work(Jobs(w.sched)))
      || (Work(Jobs(w'.sched)) == Work(Jobs(w.sched)) && !w.sched.phase[t].Working?
          && w'.sched == Step(w.sched, t, []))
  {
    var found :| Next(w, w', t, found, n, base, less);
    NextWorks(w, w', t, found, n, v0, base, less);
    hide Inv, Good, Processed, Jobs, Work, Bound, Step;
    StepBound(w.sched, t, found, Work(Jobs(w.sched)), Work(Jobs(w'.sched)));
  }

  lemma RunMoves<T(!new)>(
      ws: nat -> World<T>, f: nat -> nat, n: nat, v0: seq<T>, base: nat, less: (T, T) -> bool)
    requires Endless(ws, f, n, base, less) && WorldOk(ws(0), n, v0, base, less)
    ensures MovesOn(Scheds(ws), f, Works(ws))
  {
    forall i: nat ensures Moves(Scheds(ws), f, Works(ws), i) {
      EndlessOk(ws, f, n, v0, base, less, i);
      assert Acts(ws(i), ws(i + 1), f(i), n, base, less);
      hide WorldOk, Acts, Endless, Inv, Step, Bound;
      ActionMoves(ws(i), ws(i + 1), f(i), n, v0, base, less);
    }
  }

  /**
   * Every fair run ends, with all threads told that no task is left, and then the input array is sorted and
   * holds the original elements.
   */
  lemma FairRunSorts<T(!new)>(
      ws: nat -> World<T>, f: nat -> nat, n: nat, v0: seq<T>, base: nat, less: (T, T) -> bool) returns (m: nat)
    requires Endless(ws, f, n, base, less) && WorldOk(ws(0), n, v0, base, less) && Fair(Scheds(ws), f)
    ensures AllDone(ws(m).sched)
    ensures Sorted(ws(m).mem.input, less) && multiset(ws(m).mem.input) == multiset(v0)
  {
    RunMoves(ws, f, n, v0, base, less);
    m := FairRunEnds(Scheds(ws), f, Works(ws), 0);
    EndlessOk(ws, f, n, v0, base, less, m);
    assert ws(m).sched.phase[0].Done?;
    QuietNoJobs(ws(m).sched);
    NothingLeft(ws(m).mem, n, v0, base, less);
  }

  /** The whole input as the only task. */
  lemma WholeGood<T(!new)>(m: Memory<T>, n: nat, v0: seq<T>, base: nat, less: (T, T) -> bool)
    requires n == |v0| > 2 * base && Shaped(m, n) && m.input == m.content == v0
    ensures var tasks := multiset{Task(0, n, true)}; Good(m, n, v0, tasks, base, less) && Work(tasks) == 2 * n - 1
  {
    var x := Task(0, n, true);
    WorkWithout(multiset{x}, x);
    assert multiset{x} - multiset{x} == multiset{};
    forall p: nat, q: nat | p < q < n ensures Ordered(m, multiset{x}, less, p, q) {
      assert x in multiset{x} && In(p, x) && In(q, x);
    }
  }

  /** A run may start with the whole input as the only task, in the queue of any thread. */
  lemma StartOk<T(!new)>(w: World<T>, n: nat, v0: seq<T>, base: nat, less: (T, T) -> bool, t: nat)
    requires Init(w.sched) && t < |w.sched.priv| && n == |v0| > 2 * base
    requires w.sched.priv[t] == [Task(0, n, true)]
    requires forall u :: 0 <= u < |w.sched.priv| && u != t ==> w.sched.priv[u] == []
    requires Shaped(w.mem, n) && w.mem.input == w.mem.content == v0
    ensures WorldOk(w, n, v0, base, less) && Work(Jobs(w.sched)) == 2 * n - 1
  {
    var x := Task(0, n, true);
    InitInv(w.sched);
    AllEmpty(Held(w.sched.phase));
    Update(w.sched.priv, t, []);
    AllEmpty(w.sched.priv[t := []]);
    assert BagOf(w.sched.priv) == multiset{x} by {
      assert BagOf(w.sched.priv) == BagOf(w.sched.priv) + multiset([]) == multiset{} + multiset([x]) == multiset{x};
    }
    assert Jobs(w.sched) == multiset{x};
    WholeGood(w.mem, n, v0, base, less);
  }
}
