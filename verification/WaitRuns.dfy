/** Every run of waits, timed waits, wake-ups and timer ticks. */
module WaitRuns {
  import opened Common
  import opened WaitPool
  import opened WaitQueues

  // ---- the invariant ----

  ghost predicate Somewhere(chains: Chains, i: nat) {
    exists q :: q in chains && i in chains[q]
  }

  /** Chains are duplicate-free and pairwise disjoint, and hold exactly the entries in use. */
  ghost predicate ChainsOk(chains: Chains, used: set<nat>) {
    && (forall q :: q in chains ==> NoDup(chains[q]))
    && (forall q, i :: q in chains && i in chains[q] ==> i in used)
    && (forall q, r, i :: q in chains && r in chains && i in chains[q] && i in chains[r] ==> q == r)
    && (forall i :: i in used ==> i < WQ_POOL_SIZE && Somewhere(chains, i))
  }

  ghost predicate HasEntry(info: map<nat, Waiter>, t: int) {
    exists i :: i in info && info[i].task == t
  }

  /** A task has an entry exactly when it is blocked, and never two. */
  ghost predicate TasksOk(info: map<nat, Waiter>, tasks: seq<Task>) {
    && (forall i :: i in info ==> 0 <= info[i].task < |tasks| && tasks[info[i].task].state == Blocked)
    && (forall i, j :: i in info && j in info && info[i].task == info[j].task ==> i == j)
    && (forall t :: 0 <= t < |tasks| && tasks[t].state == Blocked ==> HasEntry(info, t))
  }

  ghost predicate Inv(s: Sys) {
    ChainsOk(s.chains, s.info.Keys) && TasksOk(s.info, s.tasks) && s.ticks < TWO64
  }

  // ---- the steps ----

  /** The scheduler's part is reduced to the state changes of single tasks. A task waits while it
      runs, so marking it blocked and leaving the CPU is one step. */
  datatype Event =
    | WaitOn(q: nat, t: int)
    | WaitFor(q: nat, t: int, n: nat)
    | Wake(q: nat)
    | WakeAllOf(q: nat)
    | TimerTick
    | NewQueue(q: nat)
    | Dispatch(t: int)
    | Preempt(t: int)
    | Spawn(t: int)
    | Exit(t: int)

  ghost predicate InState(s: Sys, t: int, st: TaskState) {
    0 <= t < |s.tasks| && s.tasks[t].state == st
  }

  ghost function Move(s: Sys, t: int, from: TaskState, to: TaskState): Sys {
    if InState(s, t, from) then s.(tasks := s.tasks[t := s.tasks[t].(state := to)]) else s
  }

  ghost function Step(s: Sys, e: Event): Sys {
    match e
    case WaitOn(q, t) => if q in s.chains && InState(s, t, Running) then Wait(s, q, t, 0) else s
    case WaitFor(q, t, n) =>
      if q in s.chains && InState(s, t, Running) then Wait(s, q, t, (s.ticks + n) % TWO64) else s
    case Wake(q) => if q in s.chains then WakeOne(s, q) else s
    case WakeAllOf(q) => if q in s.chains then WakeAll(s, q) else s
    case TimerTick => Tick(s)
    case NewQueue(q) => if q in s.chains then s else s.(chains := s.chains[q := []])
    case Dispatch(t) => Move(s, t, Ready, Running)
    case Preempt(t) => Move(s, t, Running, Ready)
    case Spawn(t) => Move(s, t, Dead, Ready)
    case Exit(t) => Move(s, t, Running, Dead)
  }

  // ---- removing entries ----

  lemma {:induction false} DropNoDup(c: seq<nat>, dead: set<nat>)
    requires NoDup(c)
    ensures NoDup(Drop(c, dead))
  {
    if c != [] {
      DropNoDup(c[1..], dead);
      assert c[0] !in c[1..];
      assert c[0] !in Drop(c[1..], dead);
    }
  }

  lemma RemoveChains(chains: Chains, used: set<nat>, dead: set<nat>)
    requires ChainsOk(chains, used)
    ensures ChainsOk(DropAll(chains, dead), used - dead)
  {
    var chains' := DropAll(chains, dead);
    forall q | q in chains' ensures NoDup(chains'[q]) { DropNoDup(chains[q], dead); }
    forall i | i in used - dead ensures Somewhere(chains', i) {
      var q :| q in chains && i in chains[q];
      assert q in chains' && i in chains'[q];
    }
    hide Somewhere, NoDup, Drop;
  }

  lemma RemoveTasks(info: map<nat, Waiter>, tasks: seq<Task>, dead: set<nat>, reason: int)
    requires TasksOk(info, tasks)
    ensures TasksOk(info - dead, Release(tasks, TasksOf(info, dead), reason))
  {
    hide Release;
    var info' := info - dead;
    var gone := TasksOf(info, dead);
    assert forall i :: i in info' ==> info[i].task !in gone;
    forall t | 0 <= t < |tasks| && tasks[t].state == Blocked && t !in gone ensures HasEntry(info', t) {
      var i :| i in info && info[i].task == t;
      assert i in info' && info'[i].task == t;
    }
    hide HasEntry;
  }

  lemma RemoveKeeps(s: Sys, dead: set<nat>, reason: int)
    requires Inv(s)
    ensures Inv(Remove(s, dead, reason))
  {
    hide ChainsOk, TasksOk;
    RemoveChains(s.chains, s.info.Keys, dead);
    RemoveTasks(s.info, s.tasks, dead, reason);
    assert (s.info - dead).Keys == s.info.Keys - dead;
  }

  /** Waking the first entry, and waking all, are removals too. */
  lemma WakeIsRemove(s: Sys, q: nat)
    requires Inv(s) && q in s.chains
    ensures WakeAll(s, q) == Remove(s, Elems(s.chains[q]), 0)
    ensures s.chains[q] != [] ==> WakeOne(s, q) == Remove(s, {s.chains[q][0]}, 0)
  {
    hide ChainsOk, TasksOk, Release, DropAll, Drop, TasksOf, NoDup;
    var c := s.chains[q];
    ChainNoDup(s, q);
    DropElsewhereAll(s, q, Elems(c));
    DropCovered(c, Elems(c));
    if c != [] {
      DropElsewhereAll(s, q, {c[0]});
      DropFirst(c);
    }
  }

  lemma ChainNoDup(s: Sys, q: nat)
    requires Inv(s) && q in s.chains
    ensures NoDup(s.chains[q])
  {
    hide Somewhere, TasksOk, NoDup;
  }

  lemma DropFirst(c: seq<nat>)
    requires c != [] && NoDup(c)
    ensures Drop(c, {c[0]}) == c[1..]
  {
    hide Drop, NoDup;
    DropOne(c, 0);
    assert c[..0] + c[1..] == c[1..];
  }

  lemma {:induction false} DropCovered(c: seq<nat>, dead: set<nat>)
    requires forall x :: x in c ==> x in dead
    ensures Drop(c, dead) == []
  {
    if c != [] { DropCovered(c[1..], dead); }
  }

  lemma DropElsewhereAll(s: Sys, q: nat, dead: set<nat>)
    requires ChainsOk(s.chains, s.info.Keys) && q in s.chains && dead <= Elems(s.chains[q])
    ensures DropAll(s.chains, dead) == s.chains[q := Drop(s.chains[q], dead)]
  {
    hide Somewhere;
    forall r | r in s.chains && r != q ensures Drop(s.chains[r], dead) == s.chains[r] {
      DropNothing(s.chains[r], dead);
    }
  }

  // ---- waiting ----

  lemma WaitChains(chains: Chains, used: set<nat>, q: nat, i: nat)
    requires ChainsOk(chains, used) && q in chains && i !in used && i < WQ_POOL_SIZE
    ensures ChainsOk(chains[q := chains[q] + [i]], used + {i})
  {
    var chains' := chains[q := chains[q] + [i]];
    forall j | j in used + {i} ensures Somewhere(chains', j) {
      if j == i {
        assert q in chains' && i in chains'[q];
      } else {
        var r :| r in chains && j in chains[r];
        assert r in chains' && j in chains'[r];
      }
    }
    hide Somewhere;
  }

  lemma WaitTasks(info: map<nat, Waiter>, tasks: seq<Task>, i: nat, t: int, timeout: nat)
    requires TasksOk(info, tasks) && i !in info && 0 <= t < |tasks| && tasks[t].state == Running
    ensures TasksOk(info[i := Waiter(t, timeout)], tasks[t := Task(Blocked, 0)])
  {
    var info', tasks' := info[i := Waiter(t, timeout)], tasks[t := Task(Blocked, 0)];
    forall u | 0 <= u < |tasks'| && tasks'[u].state == Blocked ensures HasEntry(info', u) {
      if u == t {
        assert i in info' && info'[i].task == u;
      } else {
        var j :| j in info && info[j].task == u;
        assert j in info' && info'[j].task == u;
      }
    }
    hide HasEntry;
  }

  lemma WaitKeeps(s: Sys, q: nat, t: int, timeout: nat)
    requires Inv(s) && q in s.chains && InState(s, t, Running)
    ensures Inv(Wait(s, q, t, timeout))
  {
    hide ChainsOk, TasksOk, FreeFrom;
    var i := FreeFrom(s.info.Keys, WQ_POOL_SIZE, 0);
    if i < WQ_POOL_SIZE {
      WaitChains(s.chains, s.info.Keys, q, i);
      WaitTasks(s.info, s.tasks, i, t, timeout);
      assert s.info[i := Waiter(t, timeout)].Keys == s.info.Keys + {i};
    }
  }

  lemma MoveKeeps(s: Sys, t: int, from: TaskState, to: TaskState)
    requires Inv(s) && from != Blocked && to != Blocked
    ensures Inv(Move(s, t, from, to))
  {
    hide ChainsOk, HasEntry;
  }

  lemma NewQueueKeeps(s: Sys, q: nat)
    requires Inv(s) && q !in s.chains
    ensures Inv(s.(chains := s.chains[q := []]))
  {
    var chains' := s.chains[q := []];
    forall i | i in s.info.Keys ensures Somewhere(chains', i) {
      var r :| r in s.chains && i in s.chains[r];
      assert r in chains' && i in chains'[r];
    }
    hide Somewhere, TasksOk;
  }

  lemma StepKeeps(s: Sys, e: Event)
    requires Inv(s)
    ensures Inv(Step(s, e))
  {
    hide ChainsOk, TasksOk, Wait, WakeOne, WakeAll, Remove, Move;
    match e
    case WaitOn(q, t) => if q in s.chains && InState(s, t, Running) { WaitKeeps(s, q, t, 0); }
    case WaitFor(q, t, n) =>
      if q in s.chains && InState(s, t, Running) { WaitKeeps(s, q, t, (s.ticks + n) % TWO64); }
    case Wake(q) =>
      if q in s.chains {
        WakeIsRemove(s, q);
        if s.chains[q] == [] { WakeEmpty(s, q); } else { RemoveKeeps(s, {s.chains[q][0]}, 0); }
      }
    case WakeAllOf(q) =>
      if q in s.chains {
        WakeIsRemove(s, q);
        RemoveKeeps(s, Elems(s.chains[q]), 0);
      }
    case TimerTick =>
      var s' := s.(ticks := (s.ticks + 1) % TWO64);
      RemoveKeeps(s', Expired(s'.info, s'.ticks), -1);
    case NewQueue(q) => if q !in s.chains { NewQueueKeeps(s, q); }
    case Dispatch(t) => MoveKeeps(s, t, Ready, Running);
    case Preempt(t) => MoveKeeps(s, t, Running, Ready);
    case Spawn(t) => MoveKeeps(s, t, Dead, Ready);
    case Exit(t) => MoveKeeps(s, t, Running, Dead);
  }

  lemma WakeEmpty(s: Sys, q: nat)
    requires q in s.chains && s.chains[q] == []
    ensures WakeOne(s, q) == s
  {
  }

  ghost function Run(s: Sys, es: seq<Event>): Sys
    decreases |es|
  {
    if es == [] then s else Run(Step(s, es[0]), es[1..])
  }

  /** In every state of every run, chains are duplicate-free and disjoint and hold exactly the
      entries in use, and a task has one entry when it is blocked and none otherwise. */
  lemma {:induction false} RunKeeps(s: Sys, es: seq<Event>)
    requires Inv(s)
    ensures Inv(Run(s, es))
    decreases |es|
  {
    hide Inv, Step;
    if es != [] {
      StepKeeps(s, es[0]);
      RunKeeps(Step(s, es[0]), es[1..]);
    }
  }

  /** It holds to begin with. */
  lemma InitInv()
    ensures Inv(Initial())
  {
  }

  /** The state after a run from the start. */
  ghost function Reached(es: seq<Event>): (s: Sys)
    ensures Inv(s)
  {
    InitInv();
    RunKeeps(Initial(), es);
    Run(Initial(), es)
  }

  /** In every run from the start: a task is blocked exactly when it has an entry, it has one at most,
      an entry lies on one chain, once, and no entry lies on a chain unless it is in use. */
  lemma AlwaysOneEntry(es: seq<Event>)
    ensures var s := Reached(es);
            && (forall t :: 0 <= t < |s.tasks| ==> (s.tasks[t].state == Blocked <==> HasEntry(s.info, t)))
            && (forall i, j :: i in s.info && j in s.info && s.info[i].task == s.info[j].task ==> i == j)
            && (forall i: nat :: i in s.info <==> Somewhere(s.chains, i))
            && (forall q, r, i :: q in s.chains && r in s.chains && i in s.chains[q] && i in s.chains[r] ==> q == r)
            && (forall q :: q in s.chains ==> NoDup(s.chains[q]))
  {
    var s := Reached(es);
    hide Reached;
    forall t | 0 <= t < |s.tasks| && HasEntry(s.info, t) ensures s.tasks[t].state == Blocked {
      var i :| i in s.info && s.info[i].task == t;
    }
    forall i: nat | Somewhere(s.chains, i) ensures i in s.info {
      var q :| q in s.chains && i in s.chains[q];
    }
  }

  // ---- how a wait begins ----

  /** An entry of the pool is free. */
  ghost predicate PoolHasRoom(s: Sys) {
    exists i: nat :: i < WQ_POOL_SIZE && i !in s.info
  }

  lemma WaitEffect(s: Sys, q: nat, t: int, timeout: nat)
    requires q in s.chains && InState(s, t, Running)
    ensures var i := FreeFrom(s.info.Keys, WQ_POOL_SIZE, 0);
            && (i < WQ_POOL_SIZE <==> PoolHasRoom(s))
            && Wait(s, q, t, timeout) ==
               if i == WQ_POOL_SIZE then s
               else s.(chains := s.chains[q := s.chains[q] + [i]], info := s.info[i := Waiter(t, timeout)],
                       tasks := s.tasks[t := Task(Blocked, 0)])
  {
    hide FreeFrom;
    var i := FreeFrom(s.info.Keys, WQ_POOL_SIZE, 0);
    if i < WQ_POOL_SIZE { assert i !in s.info; }
  }

  /** Task t is blocked with reason 0 and holds the fresh entry i at the end of queue q; nothing else has changed. */
  ghost predicate Enqueued(s: Sys, s': Sys, q: nat, t: int, timeout: nat, i: nat)
    requires q in s.chains && 0 <= t < |s.tasks|
  {
    && i < WQ_POOL_SIZE && i !in s.info
    && s' == s.(chains := s.chains[q := s.chains[q] + [i]], info := s.info[i := Waiter(t, timeout)],
                tasks := s.tasks[t := Task(Blocked, 0)])
  }

  /** In every run from the start: a running task that waits is blocked afterwards exactly when the pool has
      room, and then it is the last of that queue, with the timeout given; otherwise nothing happens. */
  lemma AlwaysWaitsIff(es: seq<Event>, q: nat, t: int, timed: bool, n: nat)
    requires q in Reached(es).chains && InState(Reached(es), t, Running)
    ensures var s := Reached(es);
            var s' := Step(s, if timed then WaitFor(q, t, n) else WaitOn(q, t));
            var timeout := if timed then (s.ticks + n) % TWO64 else 0;
            && (InState(s', t, Blocked) <==> PoolHasRoom(s))
            && (if PoolHasRoom(s) then exists i: nat :: Enqueued(s, s', q, t, timeout, i) else s' == s)
  {
    hide Reached, Wait, PoolHasRoom, FreeFrom;
    var s := Reached(es);
    var timeout := if timed then (s.ticks + n) % TWO64 else 0;
    WaitEffect(s, q, t, timeout);
    if PoolHasRoom(s) {
      assert Enqueued(s, Wait(s, q, t, timeout), q, t, timeout, FreeFrom(s.info.Keys, WQ_POOL_SIZE, 0));
    }
  }

  // ---- how a wait ends ----

  ghost predicate Waiting(s: Sys, i: nat, t: int, timeout: nat) {
    i in s.info && s.info[i] == Waiter(t, timeout)
  }

  /** The event takes entry i off its queue by a waker. */
  ghost predicate Pops(s: Sys, e: Event, i: nat) {
    match e
    case Wake(q) => q in s.chains && s.chains[q] != [] && s.chains[q][0] == i
    case WakeAllOf(q) => q in s.chains && i in s.chains[q]
    case _ => false
  }

  /** The next tick makes the timeout expire. */
  predicate ExpiresNext(ticks: nat, timeout: nat) {
    timeout != 0 && timeout <= (ticks + 1) % TWO64
  }

  lemma RemoveWaiting(s: Sys, dead: set<nat>, reason: int, i: nat, t: int, timeout: nat)
    requires Inv(s) && Waiting(s, i, t, timeout)
    ensures 0 <= t < |s.tasks| == |Remove(s, dead, reason).tasks|
    ensures i !in dead ==> Waiting(Remove(s, dead, reason), i, t, timeout)
    ensures i in dead ==> i !in Remove(s, dead, reason).info && Remove(s, dead, reason).tasks[t] == Task(Ready, reason)
  {
    hide ChainsOk, HasEntry, Release;
    if i in dead { assert t in TasksOf(s.info, dead); }
  }

  /** A waiting task stays in the queue until a waker takes it, which it sees as result 0, or the
      timer does, which it sees as -1. Nothing else ends the wait. */
  lemma StepWaiting(s: Sys, e: Event, i: nat, t: int, timeout: nat)
    requires Inv(s) && Waiting(s, i, t, timeout)
    ensures 0 <= t < |Step(s, e).tasks|
    ensures if Pops(s, e, i) then i !in Step(s, e).info && Step(s, e).tasks[t] == Task(Ready, 0)
            else if e == TimerTick && ExpiresNext(s.ticks, timeout) then
              i !in Step(s, e).info && Step(s, e).tasks[t] == Task(Ready, -1)
            else Waiting(Step(s, e), i, t, timeout)
  {
    hide ChainsOk, TasksOk, WakeOne, WakeAll, Remove, FreeFrom;
    TaskOfEntry(s, i);
    match e
    case WaitOn(q, u) =>
    case WaitFor(q, u, n) =>
    case Wake(q) =>
      if q in s.chains {
        WakeIsRemove(s, q);
        if s.chains[q] == [] { WakeEmpty(s, q); } else { RemoveWaiting(s, {s.chains[q][0]}, 0, i, t, timeout); }
      }
    case WakeAllOf(q) =>
      if q in s.chains {
        WakeIsRemove(s, q);
        RemoveWaiting(s, Elems(s.chains[q]), 0, i, t, timeout);
      }
    case TimerTick =>
      var s' := s.(ticks := (s.ticks + 1) % TWO64);
      RemoveWaiting(s', Expired(s'.info, s'.ticks), -1, i, t, timeout);
    case NewQueue(q) =>
    case Dispatch(u) =>
    case Preempt(u) =>
    case Spawn(u) =>
    case Exit(u) =>
  }

  lemma TaskOfEntry(s: Sys, i: nat)
    requires Inv(s) && i in s.info
    ensures InState(s, s.info[i].task, Blocked)
  {
  }

  function Ticks(es: seq<Event>): nat {
    if es == [] then 0 else (if es[0].TimerTick? then 1 else 0) + Ticks(es[1..])
  }

  /** No waker takes entry i during the run. */
  ghost predicate Undisturbed(s: Sys, es: seq<Event>, i: nat)
    decreases |es|
  {
    es == [] || (!Pops(s, es[0], i) && Undisturbed(Step(s, es[0]), es[1..], i))
  }

  lemma StepTicks(s: Sys, e: Event)
    requires s.ticks < TWO64
    ensures Step(s, e).ticks == if e.TimerTick? then (s.ticks + 1) % TWO64 else s.ticks
  {
    hide FreeFrom;
  }

  /** None of the next k ticks makes the timeout expire. */
  predicate Quiet(ticks: nat, timeout: nat, k: nat)
    decreases k
  {
    k == 0 || (!ExpiresNext(ticks, timeout) && Quiet((ticks + 1) % TWO64, timeout, k - 1))
  }

  /** As long as no waker comes and no tick reaches the timeout, the task waits. */
  lemma {:induction false} RunWaiting(s: Sys, es: seq<Event>, i: nat, t: int, timeout: nat)
    requires Inv(s) && Waiting(s, i, t, timeout) && Undisturbed(s, es, i)
    requires Quiet(s.ticks, timeout, Ticks(es))
    ensures Waiting(Run(s, es), i, t, timeout)
    ensures Run(s, es).ticks == (s.ticks + Ticks(es)) % TWO64
    decreases |es|
  {
    hide Inv, Step, Waiting, Pops;
    InvTicks(s);
    if es == [] {
      TicksMod(s.ticks, 0);
    } else {
      StepKeeps(s, es[0]);
      StepWaiting(s, es[0], i, t, timeout);
      StepTicks(s, es[0]);
      RunWaiting(Step(s, es[0]), es[1..], i, t, timeout);
      TicksMod(s.ticks, Ticks(es[1..]));
    }
  }

  lemma InvTicks(s: Sys)
    requires Inv(s)
    ensures s.ticks < TWO64
  {
  }

  lemma TicksMod(a: nat, k: nat)
    requires a < TWO64
    ensures ((a + 1) % TWO64 + k) % TWO64 == (a + 1 + k) % TWO64
    ensures a % TWO64 == a
  {
  }

  /** A timed wait of n ticks started at tick a expires at tick a + n, and not before, exactly
      under this condition: the 64-bit sum must not wrap, unless the counter itself wraps next. */
  predicate ExactTimeout(a: nat, n: nat) {
    a + n < TWO64 || (a == TWO64 - 1 && n >= 2)
  }

  lemma {:induction false} QuietNoWrap(a: nat, n: nat, k: nat)
    requires k < n && a + n < TWO64
    ensures Quiet(a, a + n, k)
    decreases k
  {
    if k > 0 { QuietNoWrap(a + 1, n - 1, k - 1); }
  }

  lemma {:induction false} QuietShorter(a: nat, timeout: nat, k: nat, m: nat)
    requires Quiet(a, timeout, k) && m <= k
    ensures Quiet(a, timeout, m)
    decreases m
  {
    if m > 0 { QuietShorter((a + 1) % TWO64, timeout, k - 1, m - 1); }
  }

  /** The timeout (a + n) mod 2^64 is first reached by the n-th tick after a. */
  lemma ExactIff(a: nat, n: nat)
    requires a < TWO64 && 1 <= n < TWO64
    ensures var timeout := (a + n) % TWO64;
            ExactTimeout(a, n) <==> Quiet(a, timeout, n - 1) && ExpiresNext((a + n - 1) % TWO64, timeout)
  {
    hide Quiet;
    if a + n < TWO64 {
      QuietNoWrap(a, n, n - 1);
    } else if a == TWO64 - 1 {
      ExactAtWrap(n);
    } else {
      NotExact(a, n);
    }
  }

  /** The counter wraps with the next tick: exact but for a wait of one tick, which stores no timeout. */
  lemma ExactAtWrap(n: nat)
    requires 1 <= n < TWO64
    ensures var a, timeout := TWO64 - 1, n - 1;
            && (a + n) % TWO64 == timeout
            && (n >= 2 <==> Quiet(a, timeout, n - 1) && ExpiresNext((a + n - 1) % TWO64, timeout))
  {
    hide Quiet;
    if n >= 2 {
      QuietNoWrap(0, n - 1, n - 2);
      QuietStep(TWO64 - 1, n - 1, n - 1);
    }
  }

  lemma QuietStep(ticks: nat, timeout: nat, k: nat)
    requires k > 0
    ensures Quiet(ticks, timeout, k) <==> !ExpiresNext(ticks, timeout) && Quiet((ticks + 1) % TWO64, timeout, k - 1)
  {
  }

  /** Any other sum that wraps is reached at once, or never. */
  lemma NotExact(a: nat, n: nat)
    requires a < TWO64 - 1 && 1 <= n < TWO64 && a + n >= TWO64
    ensures var timeout := (a + n) % TWO64;
            && !ExactTimeout(a, n)
            && !(Quiet(a, timeout, n - 1) && ExpiresNext((a + n - 1) % TWO64, timeout))
  {
    hide Quiet;
    var timeout := (a + n) % TWO64;
    assert timeout == a + n - TWO64;
    QuietStep(a, timeout, n - 1);
  }

  // ---- a timed wait from beginning to end ----

  /** The state after a running task starts a timed wait, if the pool has an entry left. */
  ghost predicate Started(s: Sys, q: nat, t: int, n: nat, i: nat) {
    && Inv(s) && q in s.chains && InState(s, t, Running)
    && i == FreeFrom(s.info.Keys, WQ_POOL_SIZE, 0) && i < WQ_POOL_SIZE
  }

  lemma StartedWaits(s: Sys, q: nat, t: int, n: nat, i: nat)
    requires Started(s, q, t, n, i)
    ensures var s' := Step(s, WaitFor(q, t, n));
            Inv(s') && s'.ticks == s.ticks < TWO64 && Waiting(s', i, t, (s.ticks + n) % TWO64)
  {
    hide Inv, Wait, FreeFrom;
    InvTicks(s);
    StepKeeps(s, WaitFor(q, t, n));
    WaitStarts(s, q, t, (s.ticks + n) % TWO64);
  }

  lemma WaitStarts(s: Sys, q: nat, t: int, timeout: nat)
    requires q in s.chains && 0 <= t && FreeFrom(s.info.Keys, WQ_POOL_SIZE, 0) < WQ_POOL_SIZE
    ensures var s' := Wait(s, q, t, timeout);
            s'.ticks == s.ticks && Waiting(s', FreeFrom(s.info.Keys, WQ_POOL_SIZE, 0), t, timeout)
  {
    hide FreeFrom;
  }

  /** A wait of n >= 1 ticks that nobody wakes goes on through fewer than n ticks, whatever else
      happens, and it is the n-th tick that will end it. */
  lemma ExpiryDue(s: Sys, q: nat, t: int, n: nat, i: nat, es: seq<Event>)
    requires Started(s, q, t, n, i) && 1 <= n < TWO64 && ExactTimeout(s.ticks, n)
    requires Undisturbed(Step(s, WaitFor(q, t, n)), es, i) && Ticks(es) < n
    ensures var s', timeout := Run(Step(s, WaitFor(q, t, n)), es), (s.ticks + n) % TWO64;
            Inv(s') && Waiting(s', i, t, timeout) && (ExpiresNext(s'.ticks, timeout) <==> Ticks(es) == n - 1)
  {
    hide Inv, Step, Waiting, Undisturbed, Quiet, ExpiresNext;
    StartedWaits(s, q, t, n, i);
    ExactIff(s.ticks, n);
    var s1, timeout, k := Step(s, WaitFor(q, t, n)), (s.ticks + n) % TWO64, Ticks(es);
    QuietShorter(s.ticks, timeout, n - 1, k);
    RunWaiting(s1, es, i, t, timeout);
    RunKeeps(s1, es);
    if k < n - 1 {
      QuietShorter(s.ticks, timeout, n - 1, k + 1);
      QuietLast(s.ticks, timeout, k);
    }
  }

  /** The n-th tick releases the task with result -1. */
  lemma TimedWaitExpires(s: Sys, q: nat, t: int, n: nat, i: nat, es: seq<Event>)
    requires Started(s, q, t, n, i) && 1 <= n < TWO64 && ExactTimeout(s.ticks, n)
    requires Undisturbed(Step(s, WaitFor(q, t, n)), es, i) && Ticks(es) < n
    ensures var s' := Run(Step(s, WaitFor(q, t, n)), es);
            && Waiting(s', i, t, (s.ticks + n) % TWO64)
            && (Ticks(es) == n - 1 ==>
                  && i !in Step(s', TimerTick).info
                  && 0 <= t < |Step(s', TimerTick).tasks| && Step(s', TimerTick).tasks[t] == Task(Ready, -1))
  {
    hide Inv, Step, Waiting, Undisturbed, ExpiresNext, Started, ExactTimeout;
    ExpiryDue(s, q, t, n, i, es);
    StepWaiting(Run(Step(s, WaitFor(q, t, n)), es), TimerTick, i, t, (s.ticks + n) % TWO64);
  }

  ghost function TickTimes(s: Sys, k: nat): Sys
    decreases k
  {
    if k == 0 then s else TickTimes(Step(s, TimerTick), k - 1)
  }

  lemma TickGone(s: Sys, i: nat)
    requires i !in s.info
    ensures i !in Step(s, TimerTick).info
  {
  }

  lemma {:induction false} TicksGone(s: Sys, i: nat, k: nat)
    requires i !in s.info
    ensures i !in TickTimes(s, k).info
    decreases k
  {
    hide Step;
    if k > 0 {
      TickGone(s, i);
      TicksGone(Step(s, TimerTick), i, k - 1);
    }
  }

  lemma {:induction false} TicksWaiting(s: Sys, i: nat, t: int, timeout: nat, k: nat)
    requires Inv(s) && Waiting(s, i, t, timeout)
    ensures i in TickTimes(s, k).info <==> Quiet(s.ticks, timeout, k)
    decreases k
  {
    hide Inv, Step;
    if k > 0 {
      InvTicks(s);
      StepKeeps(s, TimerTick);
      StepWaiting(s, TimerTick, i, t, timeout);
      StepTicks(s, TimerTick);
      if ExpiresNext(s.ticks, timeout) {
        TicksGone(Step(s, TimerTick), i, k - 1);
      } else {
        TicksWaiting(Step(s, TimerTick), i, t, timeout, k - 1);
      }
    }
  }

  lemma {:induction false} QuietLast(a: nat, timeout: nat, k: nat)
    requires a < TWO64
    ensures Quiet(a, timeout, k + 1) <==> Quiet(a, timeout, k) && !ExpiresNext((a + k) % TWO64, timeout)
    decreases k
  {
    TicksMod(a, 0);
    if k > 0 {
      QuietLast((a + 1) % TWO64, timeout, k - 1);
      TicksMod(a, k - 1);
    }
  }

  /** With nothing but ticks, the wait of n >= 1 ticks ends at the n-th, and not before, if and only
      if ExactTimeout holds; so a sum that wraps is released early or never. */
  lemma TimedWaitExactIff(s: Sys, q: nat, t: int, n: nat, i: nat)
    requires Started(s, q, t, n, i) && 1 <= n < TWO64
    ensures var s' := Step(s, WaitFor(q, t, n));
            ExactTimeout(s.ticks, n) <==> i in TickTimes(s', n - 1).info && i !in TickTimes(s', n).info
  {
    hide Inv, Step, Quiet;
    StartedWaits(s, q, t, n, i);
    var s1, timeout := Step(s, WaitFor(q, t, n)), (s.ticks + n) % TWO64;
    TicksWaiting(s1, i, t, timeout, n - 1);
    TicksWaiting(s1, i, t, timeout, n);
    QuietLast(s.ticks, timeout, n - 1);
    ExactIff(s.ticks, n);
  }

  /** A wait whose sum is exactly 2^64 stores 0, which means no timeout: no tick ever ends it. */
  lemma WaitForever(s: Sys, q: nat, t: int, n: nat, i: nat, k: nat)
    requires Started(s, q, t, n, i) && s.ticks + n == TWO64
    ensures i in TickTimes(Step(s, WaitFor(q, t, n)), k).info
  {
    hide Inv, Step;
    StartedWaits(s, q, t, n, i);
    TicksWaiting(Step(s, WaitFor(q, t, n)), i, t, 0, k);
    NeverQuietEnds(s.ticks, k);
  }

  lemma {:induction false} NeverQuietEnds(a: nat, k: nat)
    ensures Quiet(a, 0, k)
    decreases k
  {
    if k > 0 { NeverQuietEnds((a + 1) % TWO64, k - 1); }
  }

  /** For example: a task that runs at tick 1 and waits for 2^64 - 1 ticks sleeps for ever. */
  lemma SleepsForever(k: nat)
    ensures var s := Sys(map[0 := []], map[], [Task(Running, 0)], 1);
            && Started(s, 0, 0, TWO64 - 1, 0) && !ExactTimeout(s.ticks, TWO64 - 1)
            && 0 in TickTimes(Step(s, WaitFor(0, 0, TWO64 - 1)), k).info
  {
    var s := Sys(map[0 := []], map[], [Task(Running, 0)], 1);
    var i := FreeFrom(s.info.Keys, WQ_POOL_SIZE, 0);
    assert i == 0;
    WaitForever(s, 0, 0, TWO64 - 1, i, k);
  }
}
