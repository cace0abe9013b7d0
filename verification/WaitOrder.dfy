/** What runs of the wait queues promise to their tasks: the order in which they are woken, and the
    result with which a timed wait returns. */
module WaitOrder {
  import opened Common
  import opened WaitPool
  import opened WaitQueues
  import opened WaitRuns

  // ---- first in, first out ----

  /** i stands before j in c. */
  ghost predicate Before(c: seq<nat>, i: nat, j: nat) {
    c != [] && ((c[0] == i && j in c[1..]) || Before(c[1..], i, j))
  }

  lemma {:induction false} BeforeMembers(c: seq<nat>, i: nat, j: nat)
    requires Before(c, i, j)
    ensures i in c && j in c && (NoDup(c) ==> c[0] != j)
  {
    if c[0] != i || j !in c[1..] { BeforeMembers(c[1..], i, j); }
    assert NoDup(c) ==> c[0] !in c[1..];
  }

  lemma {:induction false} BeforeDrop(c: seq<nat>, dead: set<nat>, i: nat, j: nat)
    requires Before(c, i, j) && i !in dead && j !in dead
    ensures Before(Drop(c, dead), i, j)
  {
    if c[0] == i && j in c[1..] {
      var d := Drop(c[1..], dead);
      assert Drop(c, dead) == [i] + d && ([i] + d)[1..] == d;
    } else {
      BeforeDrop(c[1..], dead, i, j);
      var d := Drop(c[1..], dead);
      if c[0] !in dead { assert Drop(c, dead) == [c[0]] + d && ([c[0]] + d)[1..] == d; }
    }
  }

  lemma {:induction false} BeforeAppend(c: seq<nat>, i: nat, j: nat, x: nat)
    ensures Before(c, i, j) ==> Before(c + [x], i, j)
    ensures i in c ==> Before(c + [x], i, x)
  {
    if c != [] {
      BeforeAppend(c[1..], i, j, x);
      assert (c + [x])[1..] == c[1..] + [x];
    }
  }

  /** A removal keeps the order of what it leaves. */
  lemma RemoveOrder(s: Sys, dead: set<nat>, reason: int, q: nat, i: nat, j: nat)
    requires Inv(s) && q in s.chains && Before(s.chains[q], i, j)
    ensures var s' := Remove(s, dead, reason);
            q in s'.chains && (i in s'.info && j in s'.info ==> Before(s'.chains[q], i, j))
  {
    hide Before, TasksOk, Drop;
    if i !in dead && j !in dead { BeforeDrop(s.chains[q], dead, i, j); }
  }

  /** The queue of an entry is the only one it is on. */
  lemma OneQueue(s: Sys, q: nat, r: nat, i: nat)
    requires Inv(s) && q in s.chains && r in s.chains && i in s.chains[q] && i in s.chains[r]
    ensures q == r
  {
    hide TasksOk, Somewhere;
  }

  lemma QueueNoDup(s: Sys, q: nat)
    requires Inv(s) && q in s.chains
    ensures NoDup(s.chains[q])
  {
    hide TasksOk, Somewhere;
  }

  lemma WakeOrder(s: Sys, r: nat, q: nat, i: nat, j: nat)
    requires Inv(s) && q in s.chains && r in s.chains && Before(s.chains[q], i, j)
    ensures !Pops(s, Wake(r), j)
    ensures var s' := WakeOne(s, r); q in s'.chains && (i in s'.info && j in s'.info ==> Before(s'.chains[q], i, j))
  {
    BeforeMembers(s.chains[q], i, j);
    QueueNoDup(s, q);
    hide Inv, Before, NoDup, WakeOne, Remove;
    if s.chains[r] == [] {
      WakeEmpty(s, r);
    } else {
      WakeIsRemove(s, r);
      RemoveOrder(s, {s.chains[r][0]}, 0, q, i, j);
      if s.chains[r][0] == j { OneQueue(s, q, r, j); }
    }
  }

  lemma WakeAllOrder(s: Sys, r: nat, q: nat, i: nat, j: nat)
    requires Inv(s) && q in s.chains && r in s.chains && Before(s.chains[q], i, j) && i in WakeAll(s, r).info
    ensures !Pops(s, WakeAllOf(r), j)
    ensures var s' := WakeAll(s, r); q in s'.chains && (j in s'.info ==> Before(s'.chains[q], i, j))
  {
    BeforeMembers(s.chains[q], i, j);
    if j in s.chains[r] { OneQueue(s, q, r, j); }
    hide Inv, Before, Release, TasksOf;
    WakeIsRemove(s, r);
    RemoveOrder(s, Elems(s.chains[r]), 0, q, i, j);
  }

  /** In one step: while i waits no waker takes j, and as long as both wait their order stays. */
  lemma StepOrder(s: Sys, e: Event, q: nat, i: nat, j: nat)
    requires Inv(s) && q in s.chains && Before(s.chains[q], i, j) && i in Step(s, e).info
    ensures !Pops(s, e, j)
    ensures q in Step(s, e).chains && (j in Step(s, e).info ==> Before(Step(s, e).chains[q], i, j))
  {
    hide Inv, Before, WakeOne, WakeAll, Remove, Wait;
    match e
    case WaitOn(r, t) => WaitOrderKept(s, r, t, 0, q, i, j);
    case WaitFor(r, t, n) => WaitOrderKept(s, r, t, (s.ticks + n) % TWO64, q, i, j);
    case Wake(r) => if r in s.chains { WakeOrder(s, r, q, i, j); }
    case WakeAllOf(r) => if r in s.chains { WakeAllOrder(s, r, q, i, j); }
    case TimerTick => TickOrder(s, q, i, j);
    case NewQueue(r) =>
    case Dispatch(t) =>
    case Preempt(t) =>
    case Spawn(t) =>
    case Exit(t) =>
  }

  lemma TickOrder(s: Sys, q: nat, i: nat, j: nat)
    requires Inv(s) && q in s.chains && Before(s.chains[q], i, j)
    ensures var s' := Tick(s); q in s'.chains && (i in s'.info && j in s'.info ==> Before(s'.chains[q], i, j))
  {
    hide Before, ChainsOk, TasksOk, Remove;
    var s1 := s.(ticks := (s.ticks + 1) % TWO64);
    RemoveOrder(s1, Expired(s1.info, s1.ticks), -1, q, i, j);
  }

  lemma WaitOrderKept(s: Sys, r: nat, t: int, timeout: nat, q: nat, i: nat, j: nat)
    requires Inv(s) && q in s.chains && Before(s.chains[q], i, j)
    ensures r in s.chains ==>
              var s' := Wait(s, r, t, timeout); q in s'.chains && Before(s'.chains[q], i, j)
  {
    hide Before, Inv, FreeFrom;
    BeforeAppend(s.chains[q], i, j, FreeFrom(s.info.Keys, WQ_POOL_SIZE, 0));
  }

  /** Entry i is in use in every state of the run. */
  ghost predicate Stays(s: Sys, es: seq<Event>, i: nat)
    decreases |es|
  {
    i in s.info && (es == [] || Stays(Step(s, es[0]), es[1..], i))
  }

  /** Until it leaves, no waker takes entry j. */
  ghost predicate NeverPopped(s: Sys, es: seq<Event>, j: nat)
    decreases |es|
  {
    j !in s.info || es == [] || (!Pops(s, es[0], j) && NeverPopped(Step(s, es[0]), es[1..], j))
  }

  /** In every run: if i stands before j in a queue, then as long as i waits no waker takes j, and
      while both wait they keep their order. */
  lemma {:induction false} RunOrder(s: Sys, es: seq<Event>, q: nat, i: nat, j: nat)
    requires Inv(s) && q in s.chains && Before(s.chains[q], i, j) && Stays(s, es, i)
    ensures NeverPopped(s, es, j)
    ensures Stays(s, es, j) ==> q in Run(s, es).chains && Before(Run(s, es).chains[q], i, j)
    decreases |es|
  {
    hide Inv, Step, Before, Pops;
    if es != [] {
      StepOrder(s, es[0], q, i, j);
      StepKeeps(s, es[0]);
      var s1 := Step(s, es[0]);
      if j in s1.info {
        RunOrder(s1, es[1..], q, i, j);
      } else {
        assert !Stays(s1, es[1..], j);
      }
    }
  }

  /** First in, first out: a task that starts to wait on a queue while entry i waits there is not
      woken by a waker as long as i waits. */
  lemma FirstComeFirstServed(s: Sys, q: nat, t: int, i: nat, j: nat, es: seq<Event>)
    requires Inv(s) && q in s.chains && InState(s, t, Running) && i in s.chains[q]
    requires j == FreeFrom(s.info.Keys, WQ_POOL_SIZE, 0) && j < WQ_POOL_SIZE
    requires Stays(Step(s, WaitOn(q, t)), es, i)
    ensures var s1 := Step(s, WaitOn(q, t));
            && Waiting(s1, j, t, 0) && NeverPopped(s1, es, j)
            && (Stays(s1, es, j) ==> q in Run(s1, es).chains && Before(Run(s1, es).chains[q], i, j))
  {
    StepKeeps(s, WaitOn(q, t));
    hide Inv, Before, FreeFrom, Pops, NeverPopped, Stays;
    BeforeAppend(s.chains[q], i, i, j);
    RunOrder(Step(s, WaitOn(q, t)), es, q, i, j);
  }

  // ---- the result of a timed wait ----

  /** Events while task t is inside wq_wait_timeout: it neither waits again nor exits. */
  predicate InCall(es: seq<Event>, t: int) {
    forall e :: e in es ==> !(e.WaitOn? && e.t == t) && !(e.WaitFor? && e.t == t) && !(e.Exit? && e.t == t)
  }

  ghost predicate Awake(s: Sys, t: int) { InState(s, t, Ready) || InState(s, t, Running) }

  lemma ReasonStep(s: Sys, e: Event, t: int)
    requires Awake(s, t) && InCall([e], t)
    ensures Awake(Step(s, e), t) && Step(s, e).tasks[t].reason == s.tasks[t].reason
  {
    assert e in [e];
    hide FreeFrom, InCall;
  }

  /** The reason that a task was woken with stays until it runs again and reads it. */
  lemma {:induction false} ReasonKept(s: Sys, es: seq<Event>, t: int)
    requires Awake(s, t) && InCall(es, t)
    ensures Awake(Run(s, es), t) && Run(s, es).tasks[t].reason == s.tasks[t].reason
    decreases |es|
  {
    hide Step;
    if es != [] {
      assert es[0] in es;
      ReasonStep(s, es[0], t);
      ReasonKept(Step(s, es[0]), es[1..], t);
    }
  }

  /** What wq_wait_timeout returns for n >= 1 ticks: however the wait, the event that ends it and the
      time until the task runs again are interleaved with others, it waits through fewer than n
      ticks, a waker makes it return 0, and the n-th tick makes it return -1. */
  lemma TimedWaitResult(s: Sys, q: nat, t: int, n: nat, i: nat, es: seq<Event>, e: Event, fs: seq<Event>)
    requires Started(s, q, t, n, i) && 1 <= n < TWO64 && ExactTimeout(s.ticks, n)
    requires Undisturbed(Step(s, WaitFor(q, t, n)), es, i) && Ticks(es) < n && InCall(fs, t)
    ensures var s2 := Run(Step(s, WaitFor(q, t, n)), es);
            var s4 := Run(Step(s2, e), fs);
            && Waiting(s2, i, t, (s.ticks + n) % TWO64)
            && (Pops(s2, e, i) ==> Awake(s4, t) && s4.tasks[t].reason == 0)
            && (e == TimerTick && Ticks(es) == n - 1 ==> Awake(s4, t) && s4.tasks[t].reason == -1)
            && (!Pops(s2, e, i) && !(e == TimerTick && Ticks(es) == n - 1) ==>
                  Waiting(Step(s2, e), i, t, (s.ticks + n) % TWO64))
  {
    hide Inv, Step, Waiting, Undisturbed, Quiet, ExactTimeout, Started, ExpiresNext;
    ExpiryDue(s, q, t, n, i, es);
    var s2 := Run(Step(s, WaitFor(q, t, n)), es);
    StepWaiting(s2, e, i, t, (s.ticks + n) % TWO64);
    EndsAwake(s2, e, t);
    if Pops(s2, e, i) || (e == TimerTick && Ticks(es) == n - 1) {
      ReasonKept(Step(s2, e), fs, t);
    }
  }

  lemma EndsAwake(s: Sys, e: Event, t: int)
    ensures 0 <= t < |Step(s, e).tasks| && Step(s, e).tasks[t].state == Ready ==> Awake(Step(s, e), t)
  {
    hide Step;
  }
}
