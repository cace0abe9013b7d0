/** The SMP round-robin scheduler of kernel/sched.c and the task slots of kernel/task.c, as a
    transition system over any number of CPUs. A step is one critical section; marking oneself
    blocked or dead and calling schedule() is one step. */
module Scheduler {
  import opened Common
  import Bits

  /** Task states, the current task of each CPU (-1 when idle), and num_tasks. */
  datatype Sched = Sched(tasks: seq<TaskState>, cur: seq<int>, num: int)

  // ---- schedule() ----

  /** The id that round i of the search looks at. */
  function Candidate(start: nat, i: nat, n: nat): (id: nat)
    requires 0 < n
    ensures id < n
  {
    (start + i) % n
  }

  /** The first ready task in cyclic order from round i on; -1 when there is none. */
  function NextFrom(tasks: seq<TaskState>, start: nat, i: nat): (r: int)
    requires 0 < |tasks|
    ensures r == -1 || (0 <= r < |tasks| && tasks[r] == Ready)
    decreases |tasks| + 1 - i, tasks
  {
    if i > |tasks| then -1
    else if tasks[Candidate(start, i, |tasks|)] == Ready then Candidate(start, i, |tasks|)
    else NextFrom(tasks, start, i + 1)
  }

  function Start(cur: int): nat { if cur >= 0 then cur else 0 }

  /** schedule() on CPU c. */
  function Schedule(s: Sched, c: nat): (s': Sched)
    requires c < |s.cur| && 0 < |s.tasks| && s.cur[c] < |s.tasks|
  {
    var cur := s.cur[c];
    var next := NextFrom(s.tasks, Start(cur), 1);
    var tasks1 := if cur >= 0 && s.tasks[cur] == Running then s.tasks[cur := Ready] else s.tasks;
    if next < 0 then (if cur >= 0 then s.(tasks := tasks1, cur := s.cur[c := -1]) else s)
    else if next == cur then s.(tasks := tasks1[cur := Running])
    else s.(tasks := tasks1[next := Running], cur := s.cur[c := next])
  }

  /** The lowest dead slot from i on; |tasks| when there is none. */
  function DeadFrom(tasks: seq<TaskState>, i: nat): (r: nat)
    requires i <= |tasks|
    ensures i <= r <= |tasks| && (r < |tasks| ==> tasks[r] == Dead) && forall j :: i <= j < r ==> tasks[j] != Dead
    decreases |tasks| - i, tasks
  {
    if i == |tasks| || tasks[i] == Dead then i else DeadFrom(tasks, i + 1)
  }

  // ---- steps and invariant ----

  datatype Event =
    | Yield(c: nat)
    | BlockSelf(c: nat)
    /** The current task marks itself blocked, a waker makes it ready again, and then it schedules. */
    | BlockWoken(c: nat)
    | ExitSelf(c: nat)
    | Wake(t: nat)
    /** task_create; memory tells whether the address space and the stack could be allocated. */
    | Create(memory: bool)

  /** The event calls schedule() on CPU c. */
  predicate Schedules(e: Event, c: nat) {
    !e.Wake? && !e.Create? && e.c == c
  }

  /** A CPU of its own calls schedule(); to block or to exit it must run a task. */
  predicate Leaves(s: Sched, e: Event) {
    !e.Wake? && !e.Create? && e.c < |s.cur| && s.cur[e.c] < |s.tasks| && (e.Yield? || s.cur[e.c] >= 0)
  }

  /** The state in which it does. */
  function Left(s: Sched, e: Event): Sched
    requires Leaves(s, e)
  {
    match e
    case BlockSelf(c) => s.(tasks := s.tasks[s.cur[c] := Blocked])
    case BlockWoken(c) => s.(tasks := s.tasks[s.cur[c] := Ready])
    case ExitSelf(c) => s.(tasks := s.tasks[s.cur[c] := Dead], num := s.num - 1)
    case _ => s
  }

  ghost function Step(s: Sched, e: Event): Sched
    requires Inv(s)
  {
    match e
    case Wake(t) => if t < |s.tasks| && s.tasks[t] == Blocked then s.(tasks := s.tasks[t := Ready]) else s
    case Create(memory) =>
      var id := DeadFrom(s.tasks, 0);
      if id == |s.tasks| || !memory then s else s.(tasks := s.tasks[id := Ready], num := s.num + 1)
    case _ => if Leaves(s, e) then Schedule(Left(s, e), e.c) else s
  }

  ghost predicate IsCurrent(cur: seq<int>, t: int) {
    exists c :: 0 <= c < |cur| && cur[c] == t
  }

  ghost function Alive(tasks: seq<TaskState>): set<int> {
    set t | 0 <= t < |tasks| && tasks[t] != Dead
  }

  /** A task runs exactly when it is the current task of a CPU, and of one only. */
  ghost predicate Inv(s: Sched) {
    && 0 < |s.tasks|
    && (forall c :: 0 <= c < |s.cur| ==> -1 <= s.cur[c] < |s.tasks|)
    && (forall c :: 0 <= c < |s.cur| && s.cur[c] >= 0 ==> s.tasks[s.cur[c]] == Running)
    && (forall t :: 0 <= t < |s.tasks| && s.tasks[t] == Running ==> IsCurrent(s.cur, t))
    && (forall c, d :: 0 <= c < d < |s.cur| && s.cur[c] >= 0 ==> s.cur[c] != s.cur[d])
    && s.num == |Alive(s.tasks)|
  }

  /** In between: the current task of c may have been marked blocked or dead, or woken already. */
  ghost predicate Leaving(s: Sched, c: nat) {
    && 0 < |s.tasks| && c < |s.cur|
    && (forall d :: 0 <= d < |s.cur| ==> -1 <= s.cur[d] < |s.tasks|)
    && (forall d :: 0 <= d < |s.cur| && s.cur[d] >= 0 && d != c ==> s.tasks[s.cur[d]] == Running)
    && (forall t :: 0 <= t < |s.tasks| && s.tasks[t] == Running ==> IsCurrent(s.cur, t))
    && (forall d, e :: 0 <= d < e < |s.cur| && s.cur[d] >= 0 ==> s.cur[d] != s.cur[e])
    && s.num == |Alive(s.tasks)|
  }

  lemma AliveSame(tasks: seq<TaskState>, tasks': seq<TaskState>)
    requires |tasks'| == |tasks| && forall t :: 0 <= t < |tasks| ==> (tasks'[t] == Dead <==> tasks[t] == Dead)
    ensures Alive(tasks') == Alive(tasks)
  {
  }

  lemma CurrentMoves(cur: seq<int>, c: nat, x: int, t: int)
    requires c < |cur|
    ensures IsCurrent(cur[c := x], x)
    ensures IsCurrent(cur, t) && t != cur[c] ==> IsCurrent(cur[c := x], t)
  {
    assert cur[c := x][c] == x;
    if IsCurrent(cur, t) && t != cur[c] {
      var d :| 0 <= d < |cur| && cur[d] == t;
      assert cur[c := x][d] == t;
    }
  }

  lemma ScheduleKeeps(s: Sched, c: nat)
    requires Leaving(s, c)
    ensures Inv(Schedule(s, c))
  {
    hide NextFrom, Leaving, Inv;
    LeavingSizes(s, c);
    var cur, next := s.cur[c], NextFrom(s.tasks, Start(s.cur[c]), 1);
    PutBackLeaves(s, c);
    var s1 := PutBack(s, c);
    if next < 0 {
      PickKeeps(s1, c, -1);
    } else {
      PickKeeps(s1, c, next);
      if next == cur { assert s.cur[c := next] == s.cur; }
    }
    if next < 0 && cur < 0 { assert s.cur[c := -1] == s.cur; }
  }

  lemma LeavingSizes(s: Sched, c: nat)
    requires Leaving(s, c)
    ensures 0 < |s.tasks| && c < |s.cur| && -1 <= s.cur[c] < |s.tasks|
  {
  }

  /** A task that yields is ready again. */
  function PutBack(s: Sched, c: nat): Sched
    requires c < |s.cur| && s.cur[c] < |s.tasks|
  {
    var cur := s.cur[c];
    if cur >= 0 && s.tasks[cur] == Running then s.(tasks := s.tasks[cur := Ready]) else s
  }

  /** The current task of c no longer counts as running. */
  ghost predicate Away(s: Sched, c: nat) {
    && Leaving(s, c)
    && (s.cur[c] >= 0 ==> s.tasks[s.cur[c]] != Running)
  }

  lemma PutBackLeaves(s: Sched, c: nat)
    requires Leaving(s, c)
    ensures Away(PutBack(s, c), c)
  {
    AliveSame(s.tasks, PutBack(s, c).tasks);
    hide IsCurrent, Alive;
  }

  /** The CPU goes on with next, or idles. */
  lemma PickKeeps(s: Sched, c: nat, next: int)
    requires Away(s, c) && -1 <= next < |s.tasks| && (next >= 0 ==> s.tasks[next] == Ready)
    ensures Inv(s.(tasks := if next < 0 then s.tasks else s.tasks[next := Running], cur := s.cur[c := next]))
  {
    var tasks' := if next < 0 then s.tasks else s.tasks[next := Running];
    AliveSame(s.tasks, tasks');
    forall t | 0 <= t < |tasks'| && tasks'[t] == Running ensures IsCurrent(s.cur[c := next], t) {
      CurrentMoves(s.cur, c, next, t);
    }
    hide IsCurrent, Alive;
  }

  lemma MarkLeaving(s: Sched, c: nat, st: TaskState)
    requires Inv(s) && c < |s.cur| && s.cur[c] >= 0
    ensures var num' := if st == Dead then s.num - 1 else s.num;
            Leaving(s.(tasks := s.tasks[s.cur[c] := st], num := num'), c)
  {
    var tasks' := s.tasks[s.cur[c] := st];
    if st != Dead {
      AliveSame(s.tasks, tasks');
    } else {
      assert Alive(tasks') == Alive(s.tasks) - {s.cur[c]};
    }
    hide IsCurrent, Alive;
  }

  lemma WakeKeeps(s: Sched, t: nat)
    requires Inv(s) && t < |s.tasks| && s.tasks[t] == Blocked
    ensures Inv(s.(tasks := s.tasks[t := Ready]))
  {
    AliveSame(s.tasks, s.tasks[t := Ready]);
    hide IsCurrent, Alive;
  }

  /** task_create takes a dead slot that no CPU is running on. */
  lemma CreateKeeps(s: Sched, id: nat)
    requires Inv(s) && id < |s.tasks| && s.tasks[id] == Dead
    ensures Inv(s.(tasks := s.tasks[id := Ready], num := s.num + 1))
    ensures !IsCurrent(s.cur, id)
  {
    assert Alive(s.tasks[id := Ready]) == Alive(s.tasks) + {id};
    hide Alive;
  }

  /** Over all interleavings, a task is running exactly when it is the current task of one CPU. */
  lemma StepKeeps(s: Sched, e: Event)
    requires Inv(s)
    ensures Inv(Step(s, e))
  {
    hide Schedule, Leaving, IsCurrent, Alive;
    match e {
      case Wake(t) =>
        if t < |s.tasks| && s.tasks[t] == Blocked { WakeKeeps(s, t); }
      case Create(memory) =>
        var id := DeadFrom(s.tasks, 0);
        if id < |s.tasks| { CreateKeeps(s, id); }
      case _ =>
        if Leaves(s, e) {
          LeftLeaves(s, e);
          ScheduleKeeps(Left(s, e), e.c);
        }
    }
  }

  lemma LeftLeaves(s: Sched, e: Event)
    requires Inv(s) && Leaves(s, e)
    ensures Leaving(Left(s, e), e.c) && |Left(s, e).tasks| == |s.tasks| && Left(s, e).cur == s.cur
    ensures forall t :: 0 <= t < |s.tasks| && t != s.cur[e.c] ==> Left(s, e).tasks[t] == s.tasks[t]
  {
    hide Inv, Leaving;
    RunningLeaves(s, e.c);
    if e.BlockSelf? {
      MarkLeaving(s, e.c, Blocked);
    } else if e.BlockWoken? {
      MarkLeaving(s, e.c, Ready);
    } else if e.ExitSelf? {
      MarkLeaving(s, e.c, Dead);
    }
  }

  lemma RunningLeaves(s: Sched, c: nat)
    requires Inv(s) && c < |s.cur|
    ensures Leaving(s, c)
  {
    hide IsCurrent, Alive;
  }

  ghost function Run(s: Sched, es: seq<Event>): (s': Sched)
    requires Inv(s)
    ensures Inv(s')
    decreases |es|
  {
    if es == [] then s
    else
      StepKeeps(s, es[0]);
      Run(Step(s, es[0]), es[1..])
  }

  /** task_init: all slots dead, all CPUs idle. */
  lemma InitInv(n: nat, cpus: nat)
    requires 0 < n
    ensures Inv(Sched(seq(n, i => Dead), seq(cpus, c => -1), 0))
  {
    assert Alive(seq(n, i => Dead)) == {};
  }

  // ---- bounded bypass ----

  /** The number of rounds, from 1 to n, after which the search from start comes to t. */
  function Dist(start: nat, t: nat, n: nat): nat
    requires start < n && t < n
  {
    if t > start then t - start else t + n - start
  }

  lemma CandidateAt(start: nat, t: nat, n: nat, i: nat)
    requires start < n && t < n && 1 <= i <= n
    ensures Candidate(start, i, n) == t <==> i == Dist(start, t, n)
    ensures i == Dist(start, Candidate(start, i, n), n)
  {
    if start + i < n {
      Bits.DivModUnique(start + i, n, 0, start + i);
    } else {
      Bits.DivModUnique(start + i, n, 1, start + i - n);
    }
  }

  /** The search stops at t at the latest. */
  lemma {:induction false} NextIsClose(tasks: seq<TaskState>, start: nat, t: nat, i: nat)
    requires start < |tasks| && t < |tasks| && tasks[t] == Ready && 1 <= i <= Dist(start, t, |tasks|)
    ensures var r := NextFrom(tasks, start, i);
            0 <= r < |tasks| && i <= Dist(start, r, |tasks|) <= Dist(start, t, |tasks|)
    decreases |tasks| + 1 - i
  {
    CandidateAt(start, t, |tasks|, i);
    if tasks[Candidate(start, i, |tasks|)] != Ready {
      NextIsClose(tasks, start, t, i + 1);
    }
  }

  /** The search finds the ready task that is nearest in cyclic order, and none only if none is ready. */
  lemma NextIsFirst(tasks: seq<TaskState>, start: nat, t: nat)
    requires start < |tasks| && t < |tasks| && tasks[t] == Ready
    ensures var r := NextFrom(tasks, start, 1);
            && 0 <= r < |tasks| && tasks[r] == Ready
            && Dist(start, r, |tasks|) <= Dist(start, t, |tasks|)
            && (r != t ==> Dist(start, r, |tasks|) < Dist(start, t, |tasks|))
  {
    NextIsClose(tasks, start, t, 1);
  }

  // ---- what a step does to the tasks ----

  /** No ready task is nearer to start, going round the table, than t. */
  ghost predicate Nearest(tasks: seq<TaskState>, start: nat, t: nat)
    requires start < |tasks| && t < |tasks|
  {
    forall u :: 0 <= u < |tasks| && tasks[u] == Ready ==> Dist(start, t, |tasks|) <= Dist(start, u, |tasks|)
  }

  ghost predicate NoneReady(tasks: seq<TaskState>) {
    forall u :: 0 <= u < |tasks| ==> tasks[u] != Ready
  }

  /** What schedule() on CPU c promises: the CPU goes on with the nearest ready task, which runs, or
      idles when there is none; the task it leaves becomes ready if it was running and otherwise
      stays as it is; nothing else changes. */
  ghost predicate Switched(s: Sched, s': Sched, c: nat)
    requires c < |s.cur| && 0 < |s.tasks| && s.cur[c] < |s.tasks|
  {
    && |s'.tasks| == |s.tasks| && |s'.cur| == |s.cur| && s'.num == s.num
    && (forall d :: 0 <= d < |s.cur| && d != c ==> s'.cur[d] == s.cur[d])
    && var cur, next := s.cur[c], s'.cur[c];
       && (if NoneReady(s.tasks) then next == if cur >= 0 then -1 else cur
           else 0 <= next < |s.tasks| && s.tasks[next] == Ready && Nearest(s.tasks, Start(cur), next)
                && s'.tasks[next] == Running)
       && (cur >= 0 && cur != next ==>
             s'.tasks[cur] == if s.tasks[cur] == Running then Ready else s.tasks[cur])
       && forall t :: 0 <= t < |s.tasks| && t != cur && t != next ==> s'.tasks[t] == s.tasks[t]
  }

  lemma NextChoice(tasks: seq<TaskState>, start: nat)
    requires start < |tasks|
    ensures var r := NextFrom(tasks, start, 1);
            if NoneReady(tasks) then r == -1 else 0 <= r < |tasks| && tasks[r] == Ready && Nearest(tasks, start, r)
  {
    hide NextFrom, Dist;
    forall u | 0 <= u < |tasks| && tasks[u] == Ready
      ensures var r := NextFrom(tasks, start, 1); 0 <= r && Dist(start, r, |tasks|) <= Dist(start, u, |tasks|)
    {
      NextIsFirst(tasks, start, u);
    }
  }

  lemma ScheduleSwitches(s: Sched, c: nat)
    requires c < |s.cur| && 0 < |s.tasks| && s.cur[c] < |s.tasks|
    ensures Switched(s, Schedule(s, c), c)
  {
    hide NextFrom, Nearest, NoneReady;
    NextChoice(s.tasks, Start(s.cur[c]));
  }

  /** A task that yields is ready again, unless the CPU finds nothing else and it goes on. */
  lemma YieldEffect(s: Sched, c: nat)
    requires Inv(s) && c < |s.cur|
    ensures s.cur[c] < |s.tasks| && 0 < |s.tasks|
    ensures var s' := Step(s, Yield(c));
            && Switched(s, s', c)
            && (s.cur[c] >= 0 ==> s'.cur[c] != s.cur[c] && s'.tasks[s.cur[c]] == Ready)
  {
    hide NextFrom, Schedule, IsCurrent, Alive, NoneReady, Nearest;
    ScheduleSwitches(s, c);
  }

  /** A task that blocks is blocked afterwards, and the CPU goes on without it. */
  lemma BlockEffect(s: Sched, c: nat)
    requires Inv(s) && c < |s.cur| && s.cur[c] >= 0
    ensures s.cur[c] < |s.tasks|
    ensures var s' := Step(s, BlockSelf(c));
            && Switched(s.(tasks := s.tasks[s.cur[c] := Blocked]), s', c)
            && s'.cur[c] != s.cur[c] && s'.tasks[s.cur[c]] == Blocked
  {
    hide NextFrom, Schedule, IsCurrent, Alive, NoneReady, Nearest;
    ScheduleSwitches(s.(tasks := s.tasks[s.cur[c] := Blocked]), c);
  }

  /** A task that is woken before it schedules takes part in the search like any ready task. */
  lemma BlockWokenEffect(s: Sched, c: nat)
    requires Inv(s) && c < |s.cur| && s.cur[c] >= 0
    ensures s.cur[c] < |s.tasks|
    ensures var s' := Step(s, BlockWoken(c));
            && Switched(s.(tasks := s.tasks[s.cur[c] := Ready]), s', c)
            && s'.tasks[s.cur[c]] == if s'.cur[c] == s.cur[c] then Running else Ready
  {
    hide NextFrom, Schedule, IsCurrent, Alive, NoneReady, Nearest;
    ScheduleSwitches(s.(tasks := s.tasks[s.cur[c] := Ready]), c);
    var tasks := s.tasks[s.cur[c] := Ready];
    assert !NoneReady(tasks) by { SomeReady(tasks, s.cur[c]); }
  }

  lemma SomeReady(tasks: seq<TaskState>, t: nat)
    requires t < |tasks| && tasks[t] == Ready
    ensures !NoneReady(tasks)
  {
  }

  /** A task that exits is dead and no longer counted. */
  lemma ExitEffect(s: Sched, c: nat)
    requires Inv(s) && c < |s.cur| && s.cur[c] >= 0
    ensures s.cur[c] < |s.tasks|
    ensures var s' := Step(s, ExitSelf(c));
            && Switched(s.(tasks := s.tasks[s.cur[c] := Dead], num := s.num - 1), s', c)
            && s'.cur[c] != s.cur[c] && s'.tasks[s.cur[c]] == Dead && s'.num == s.num - 1
  {
    hide NextFrom, Schedule, IsCurrent, Alive, NoneReady, Nearest;
    ScheduleSwitches(s.(tasks := s.tasks[s.cur[c] := Dead], num := s.num - 1), c);
  }

  /** A wake-up makes that task ready if it was blocked; a creation makes the lowest dead slot ready, if there
      is one and memory suffices. Both leave the CPUs and all other tasks alone. */
  lemma WakeAndCreateEffect(s: Sched, e: Event)
    requires Inv(s) && (e.Wake? || e.Create?)
    ensures var s' := Step(s, e);
            && s'.cur == s.cur && |s'.tasks| == |s.tasks|
            && (e.Wake? ==> s'.num == s.num && forall u :: 0 <= u < |s.tasks| ==>
                  s'.tasks[u] == if u == e.t && s.tasks[u] == Blocked then Ready else s.tasks[u])
            && (e.Create? ==> forall u :: 0 <= u < |s.tasks| ==>
                  s'.tasks[u] == if e.memory && LowestDead(s.tasks, u) then Ready else s.tasks[u])
            && (e.Create? ==> s'.num == s.num + if e.memory && HasDead(s.tasks) then 1 else 0)
  {
    hide Inv;
  }

  ghost predicate HasDead(tasks: seq<TaskState>) { exists u :: 0 <= u < |tasks| && tasks[u] == Dead }

  ghost predicate LowestDead(tasks: seq<TaskState>, u: nat)
    requires u < |tasks|
  {
    tasks[u] == Dead && forall v :: 0 <= v < u ==> tasks[v] != Dead
  }

  /** A blocked task stays blocked in every step but a wake-up of itself. */
  lemma StepKeepsBlocked(s: Sched, e: Event, t: nat)
    requires Inv(s) && t < |s.tasks| && s.tasks[t] == Blocked && e != Wake(t)
    ensures |Step(s, e).tasks| == |s.tasks| && Step(s, e).tasks[t] == Blocked
  {
    hide NextFrom, Schedule, IsCurrent, Alive, Switched, DeadFrom;
    if e.Wake? || e.Create? {
      WakeAndCreateEffect(s, e);
    } else if Leaves(s, e) {
      NotItsCurrent(s, e.c, t);
      ScheduleSwitches(Left(s, e), e.c);
      SwitchKeepsBlocked(Left(s, e), Step(s, e), e.c, t);
    }
  }

  lemma NotItsCurrent(s: Sched, c: nat, t: nat)
    requires Inv(s) && c < |s.cur| && t < |s.tasks| && s.tasks[t] != Running
    ensures s.cur[c] != t
  {
  }

  lemma SwitchKeepsBlocked(s: Sched, s': Sched, c: nat, t: nat)
    requires c < |s.cur| && t < |s.tasks| && s.cur[c] < |s.tasks| && s.cur[c] != t && s.tasks[t] == Blocked
    requires Switched(s, s', c)
    ensures |s'.tasks| == |s.tasks| && s'.tasks[t] == Blocked
  {
    hide Nearest;
  }

  /** In every run a task that has blocked itself stays blocked until it is woken. */
  lemma BlockedUntilWoken(s: Sched, c: nat, es: seq<Event>)
    requires Inv(s) && c < |s.cur| && s.cur[c] >= 0 && Wake(s.cur[c]) !in es
    requires Inv(Step(s, BlockSelf(c)))
    ensures var s' := Run(Step(s, BlockSelf(c)), es);
            s.cur[c] < |s'.tasks| && s'.tasks[s.cur[c]] == Blocked
  {
    hide Step, Inv, Run, Switched;
    BlockEffect(s, c);
    StepSizes(s, BlockSelf(c));
    RunKeepsBlocked(Step(s, BlockSelf(c)), es, s.cur[c]);
  }

  lemma {:induction false} RunKeepsBlocked(s: Sched, es: seq<Event>, t: nat)
    requires Inv(s) && t < |s.tasks| && s.tasks[t] == Blocked && Wake(t) !in es
    ensures t < |Run(s, es).tasks| && Run(s, es).tasks[t] == Blocked
    decreases |es|
  {
    hide Step, Inv;
    if es != [] {
      assert es[0] in es;
      StepKeeps(s, es[0]);
      StepKeepsBlocked(s, es[0], t);
      RunKeepsBlocked(Step(s, es[0]), es[1..], t);
    }
  }

  /** schedule() finds the task that it comes from exactly when a waker has made it ready and no other
      task is ready. */
  lemma PicksItselfIff(s: Sched, c: nat)
    requires Leaving(s, c) && s.cur[c] >= 0
    ensures NextFrom(s.tasks, Start(s.cur[c]), 1) == s.cur[c] <==>
            s.tasks[s.cur[c]] == Ready && forall t :: 0 <= t < |s.tasks| && s.tasks[t] == Ready ==> t == s.cur[c]
  {
    var cur := s.cur[c];
    if s.tasks[cur] == Ready { NextIsFirst(s.tasks, cur, cur); }
    forall t | 0 <= t < |s.tasks| && s.tasks[t] == Ready && t != cur
      ensures NextFrom(s.tasks, cur, 1) != cur
    {
      NextIsFirst(s.tasks, cur, t);
    }
    hide NextFrom, IsCurrent, Alive;
  }

  lemma DistShrinks(start: nat, r: nat, t: nat, n: nat)
    requires start < n && r < n && t < n && r != t && Dist(start, r, n) <= Dist(start, t, n)
    ensures Dist(r, t, n) < Dist(start, t, n)
  {
  }

  function Calls(es: seq<Event>, c: nat): nat {
    if es == [] then 0 else (if Schedules(es[0], c) then 1 else 0) + Calls(es[1..], c)
  }

  /** t is ready in every state of the run. */
  ghost predicate StaysReady(s: Sched, es: seq<Event>, t: nat)
    requires Inv(s)
    decreases |es|
  {
    t < |s.tasks| && s.tasks[t] == Ready && (es == [] || (StepKeeps(s, es[0]); StaysReady(Step(s, es[0]), es[1..], t)))
  }

  /** The distance of CPU c from t. */
  ghost function Gap(s: Sched, c: nat, t: nat): nat
    requires Inv(s) && c < |s.cur| && t < |s.tasks|
  {
    Dist(Start(s.cur[c]), t, |s.tasks|)
  }

  /** A call of schedule() on c that does not pick the ready task t brings c closer to it. */
  lemma ScheduleCloser(s: Sched, c: nat, t: nat)
    requires Leaving(s, c) && t < |s.tasks| && s.tasks[t] == Ready
    ensures var s' := Schedule(s, c);
            s'.tasks[t] == Ready ==>
              s'.cur[c] >= 0 && Dist(s'.cur[c], t, |s.tasks|) < Dist(Start(s.cur[c]), t, |s.tasks|)
  {
    NextIsClose(s.tasks, Start(s.cur[c]), t, 1);
    hide NextFrom, IsCurrent, Alive;
    var next := NextFrom(s.tasks, Start(s.cur[c]), 1);
    if next != t { DistShrinks(Start(s.cur[c]), next, t, |s.tasks|); }
  }

  lemma StepGap(s: Sched, e: Event, c: nat, t: nat)
    requires Inv(s) && c < |s.cur| && t < |s.tasks| && s.tasks[t] == Ready
    requires Inv(Step(s, e)) && |Step(s, e).cur| == |s.cur| && |Step(s, e).tasks| == |s.tasks|
    requires Step(s, e).tasks[t] == Ready && (Schedules(e, c) ==> Leaves(s, e))
    ensures Gap(Step(s, e), c, t) + (if Schedules(e, c) then 1 else 0) <= Gap(s, c, t)
  {
    hide NextFrom, Inv, Leaving, Dist, DeadFrom;
    if Leaves(s, e) {
      LeftLeaves(s, e);
      if e.c == c {
        ScheduleCloser(Left(s, e), c, t);
        CurIsNotReady(s, c, t);
      }
    }
  }

  lemma StepSizes(s: Sched, e: Event)
    requires Inv(s)
    ensures |Step(s, e).cur| == |s.cur| && |Step(s, e).tasks| == |s.tasks|
  {
    hide NextFrom, Inv, DeadFrom;
    InvBasics(s);
  }

  lemma InvBasics(s: Sched)
    requires Inv(s)
    ensures 0 < |s.tasks| && forall c :: 0 <= c < |s.cur| ==> -1 <= s.cur[c] < |s.tasks|
  {
  }

  lemma CurIsNotReady(s: Sched, c: nat, t: nat)
    requires Inv(s) && c < |s.cur| && t < |s.tasks| && s.tasks[t] == Ready
    ensures s.cur[c] != t && s.cur[c] < |s.tasks|
  {
  }

  /** A CPU blocks or exits only a task it runs. */
  ghost predicate Sensible(s: Sched, es: seq<Event>)
    requires Inv(s)
    decreases |es|
  {
    es == [] || (
      && (es[0].Wake? || es[0].Create? || es[0].c >= |s.cur| || Leaves(s, es[0]))
      && (StepKeeps(s, es[0]); Sensible(Step(s, es[0]), es[1..])))
  }

  lemma {:induction false} GapShrinks(s: Sched, es: seq<Event>, c: nat, t: nat)
    requires Inv(s) && c < |s.cur| && Sensible(s, es) && StaysReady(s, es, t)
    ensures Calls(es, c) < Gap(s, c, t)
    decreases |es|
  {
    hide Step, Inv;
    if es == [] {
      GapPositive(s, c, t);
    } else {
      StepKeeps(s, es[0]);
      StepSizes(s, es[0]);
      StepGap(s, es[0], c, t);
      GapShrinks(Step(s, es[0]), es[1..], c, t);
    }
  }

  lemma GapPositive(s: Sched, c: nat, t: nat)
    requires Inv(s) && c < |s.cur| && t < |s.tasks|
    ensures 1 <= Gap(s, c, t) <= |s.tasks|
  {
  }

  /** Round robin with bounded bypass: while a task stays ready, no CPU makes as many calls of
      schedule() as there are slots, whatever the other CPUs do in between. So each CPU picks it
      within that many of its own calls. */
  lemma BoundedBypass(s: Sched, es: seq<Event>, c: nat, t: nat)
    requires Inv(s) && c < |s.cur| && Sensible(s, es) && StaysReady(s, es, t)
    ensures Calls(es, c) < |s.tasks|
  {
    hide Inv, Sensible;
    GapShrinks(s, es, c, t);
    GapPositive(s, c, t);
  }

  // ---- in place ----

  class TaskTable {
    const tasks: array<TaskState>
    const cur: array<int>
    var num: int

    ghost function Abs(): Sched
      reads this, tasks, cur
    {
      Sched(tasks[..], cur[..], num)
    }

    /** task_init */
    constructor (cpus: nat)
      ensures fresh(tasks) && fresh(cur) && tasks.Length == MAX_TASKS && cur.Length == cpus
      ensures Inv(Abs()) && Abs() == Sched(seq(MAX_TASKS, i => Dead), seq(cpus, c => -1), 0)
    {
      tasks := new TaskState[MAX_TASKS](i => Dead);
      cur := new int[cpus](c => -1);
      num := 0;
      new;
      InitInv(MAX_TASKS, cpus);
      assert tasks[..] == seq(MAX_TASKS, i => Dead);
      assert cur[..] == seq(cpus, c => -1);
    }

    /** The search loop of schedule(). */
    method FindReady(start: nat) returns (next: int)
      requires 0 < tasks.Length
      ensures next == NextFrom(tasks[..], start, 1)
    {
      hide NextFrom;
      var i := 1;
      while i <= tasks.Length
        invariant 1 <= i <= tasks.Length + 1
        invariant NextFrom(tasks[..], start, 1) == NextFrom(tasks[..], start, i)
      {
        NextStep(tasks[..], start, i);
        var id := (start + i) % tasks.Length;
        if tasks[id] == Ready {
          return id;
        }
        i := i + 1;
      }
      NextStep(tasks[..], start, i);
      return -1;
    }

    /** schedule() on CPU c, up to the context switch. */
    method ScheduleOn(c: nat)
      requires c < cur.Length && 0 < tasks.Length && cur[c] < tasks.Length
      modifies tasks, cur
      ensures Abs() == Schedule(old(Abs()), c) && Switched(old(Abs()), Abs(), c)
    {
      hide NextFrom, Switched;
      ScheduleSwitches(Abs(), c);
      var old' := cur[c];
      var start := if old' >= 0 then old' else 0;
      var next := FindReady(start);
      if old' >= 0 && tasks[old'] == Running {
        tasks[old'] := Ready;
      }
      if next < 0 {
        if old' >= 0 {
          cur[c] := -1;
        }
        return;
      }
      if next == old' {
        tasks[old'] := Running;
        return;
      }
      tasks[next] := Running;
      cur[c] := next;
    }

    /** task_exit_handler: the current task of c is dead and c goes on with another one. */
    method TaskExit(c: nat)
      requires Inv(Abs()) && c < cur.Length && cur[c] >= 0
      modifies this, tasks, cur
      ensures Inv(Abs()) && old(Inv(Abs())) && Abs() == Step(old(Abs()), ExitSelf(c))
    {
      hide Schedule, IsCurrent, Alive;
      ghost var s := Abs();
      StepKeeps(s, ExitSelf(c));
      var id := cur[c];
      tasks[id] := Dead;
      num := num - 1;
      assert Abs() == s.(tasks := s.tasks[id := Dead], num := s.num - 1);
      ScheduleOn(c);
    }

    /** task_create: the lowest dead slot, -1 when there is none or memory runs out. */
    method TaskCreate(memory: bool) returns (id: int)
      requires Inv(Abs())
      modifies this, tasks
      ensures Inv(Abs()) && old(Inv(Abs())) && Abs() == Step(old(Abs()), Create(memory))
      ensures id >= 0 ==> id < tasks.Length && old(tasks[id]) == Dead && !IsCurrent(cur[..], id)
    {
      hide IsCurrent, Inv, DeadFrom;
      ghost var s := Abs();
      StepKeeps(s, Create(memory));
      var i := FindDead();
      if i == tasks.Length || !memory {
        return -1;
      }
      CreateKeeps(s, i);
      tasks[i] := Ready;
      num := num + 1;
      return i;
    }

    method FindDead() returns (i: nat)
      ensures i == DeadFrom(tasks[..], 0)
    {
      i := 0;
      while i < tasks.Length
        invariant 0 <= i <= tasks.Length
        invariant DeadFrom(tasks[..], 0) == DeadFrom(tasks[..], i)
      {
        if tasks[i] == Dead {
          return;
        }
        i := i + 1;
      }
    }
  }

  lemma NextStep(tasks: seq<TaskState>, start: nat, i: nat)
    requires 0 < |tasks| && 1 <= i
    ensures NextFrom(tasks, start, i) ==
            if i > |tasks| then -1
            else if tasks[(start + i) % |tasks|] == Ready then (start + i) % |tasks| else NextFrom(tasks, start, i + 1)
  {
  }
}
