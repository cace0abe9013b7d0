/** Wait queues and timeouts of kernel/waitqueue.c. The state seen by clients is a FIFO sequence of
    pool entries for each queue, with the task and timeout of each entry; the array of linked
    entries refines it. */
module WaitQueues {
  import opened Common
  import opened WaitPool

  const WQ_POOL_SIZE: nat := 64

  /** The fields of struct task that waiting touches. */
  datatype Task = Task(state: TaskState, reason: int)

  datatype Waiter = Waiter(task: int, timeout: nat)

  /** Queues as sequences of pool indices, what each index in use stands for, and the tasks. */
  datatype Sys = Sys(chains: Chains, info: map<nat, Waiter>, tasks: seq<Task>, ticks: nat)

  /** The lowest index from i on that is not in used; n when there is none. */
  ghost function FreeFrom(used: set<nat>, n: nat, i: nat): (r: nat)
    requires i <= n
    ensures i <= r <= n && (r < n ==> r !in used) && forall j :: i <= j < r ==> j in used
    decreases n - i, used
  {
    if i == n || i !in used then i else FreeFrom(used, n, i + 1)
  }

  predicate IsTask(tasks: seq<Task>, t: int) {
    0 <= t < |tasks| && tasks[t].state != Dead
  }

  /** No queues, no waiters, all tasks dead: the state after wq_pool_init and task_init. */
  function Initial(): Sys {
    Sys(map[], map[], seq(MAX_TASKS, i => Task(Dead, 0)), 0)
  }

  // ---- the operations on sequences ----

  /** The blocked tasks among ts become ready and learn why. */
  ghost function Release(tasks: seq<Task>, ts: set<int>, reason: int): (tasks': seq<Task>)
    ensures |tasks'| == |tasks|
    ensures forall t :: 0 <= t < |tasks| ==>
              tasks'[t] == if t in ts && tasks[t].state == Blocked then Task(Ready, reason) else tasks[t]
  {
    seq(|tasks|, t requires 0 <= t < |tasks| =>
      if t in ts && tasks[t].state == Blocked then Task(Ready, reason) else tasks[t])
  }

  ghost function TasksOf(info: map<nat, Waiter>, idxs: set<nat>): set<int> {
    set i | i in idxs && i in info :: info[i].task
  }

  /** wq_wait and the first half of wq_wait_timeout: the caller goes to the end of the queue. With
      no current task, or the pool exhausted, nothing happens. */
  ghost function Wait(s: Sys, q: nat, tid: int, timeout: nat): Sys
    requires q in s.chains
  {
    var i := FreeFrom(s.info.Keys, WQ_POOL_SIZE, 0);
    if tid < 0 || i == WQ_POOL_SIZE then s
    else
      s.(chains := s.chains[q := s.chains[q] + [i]],
         info := s.info[i := Waiter(tid, timeout)],
         tasks := if IsTask(s.tasks, tid) then s.tasks[tid := Task(Blocked, 0)] else s.tasks)
  }

  /** wq_wake_one: the first entry leaves the queue. */
  ghost function WakeOne(s: Sys, q: nat): Sys
    requires q in s.chains
  {
    if s.chains[q] == [] then s
    else
      var i := s.chains[q][0];
      s.(chains := s.chains[q := s.chains[q][1..]], info := s.info - {i},
         tasks := Release(s.tasks, TasksOf(s.info, {i}), 0))
  }

  /** wq_wake_all: the queue is emptied. */
  ghost function WakeAll(s: Sys, q: nat): Sys
    requires q in s.chains
  {
    var gone := Elems(s.chains[q]);
    s.(chains := s.chains[q := []], info := s.info - gone,
       tasks := Release(s.tasks, TasksOf(s.info, gone), 0))
  }

  /** The entries that wq_tick finds expired at time now. */
  ghost function Expired(info: map<nat, Waiter>, now: nat): set<nat> {
    set i | i in info && info[i].timeout != 0 && info[i].timeout <= now
  }

  ghost function DropAll(chains: Chains, dead: set<nat>): Chains {
    map q | q in chains :: Drop(chains[q], dead)
  }

  /** The entries of dead leave their queues, wherever they stand in them; the others keep their
      order. Their tasks are released. */
  ghost function Remove(s: Sys, dead: set<nat>, reason: int): Sys {
    s.(chains := DropAll(s.chains, dead), info := s.info - dead,
       tasks := Release(s.tasks, TasksOf(s.info, dead), reason))
  }

  /** wq_tick: exactly the expired entries leave. */
  ghost function Sweep(s: Sys): Sys {
    Remove(s, Expired(s.info, s.ticks), -1)
  }

  /** timer_handler on CPU 0: one more tick, then wq_tick. */
  ghost function Tick(s: Sys): Sys {
    Sweep(s.(ticks := (s.ticks + 1) % TWO64))
  }

  // ---- the array that refines it ----

  ghost function InfoOf(pool: seq<Entry>): map<nat, Waiter> {
    map i: nat | i < |pool| && pool[i].inUse :: Waiter(pool[i].task, pool[i].timeout)
  }

  class WaitQueueTable {
    const pool: array<Entry>
    const tasks: array<Task>
    /** The head field of every wait_queue, by address. */
    var heads: map<nat, int>
    var ticks: nat
    ghost var chains: Chains

    ghost predicate Valid()
      reads this, pool
    {
      pool.Length == WQ_POOL_SIZE && Shape(pool[..], heads, chains)
    }

    ghost function Abs(): Sys
      reads this, pool, tasks
    {
      Sys(chains, InfoOf(pool[..]), tasks[..], ticks)
    }

    /** wq_pool_init, on the table of tasks that task_init leaves. */
    constructor ()
      ensures Valid() && fresh(pool) && fresh(tasks) && Abs() == Initial()
    {
      pool := new Entry[WQ_POOL_SIZE](i => Entry(0, 0, -1, false, None));
      tasks := new Task[MAX_TASKS](i => Task(Dead, 0));
      heads, ticks, chains := map[], 0, map[];
      new;
      assert tasks[..] == Initial().tasks;
    }

    /** wq_init of a queue that is new or empty. */
    method WqInit(q: nat)
      requires Valid() && (q in chains ==> chains[q] == [])
      modifies this`heads, this`chains
      ensures Valid() && Abs() == old(Abs()).(chains := old(chains)[q := []])
    {
      heads := heads[q := -1];
      chains := chains[q := []];
    }

    /** pool_alloc: the lowest free entry; -1 when all are in use. */
    method PoolAlloc() returns (idx: int)
      requires Valid()
      modifies pool
      ensures var i := FreeFrom(old(Abs()).info.Keys, WQ_POOL_SIZE, 0);
              idx == (if i == WQ_POOL_SIZE then -1 else i)
      ensures pool[..] == if idx < 0 then old(pool[..])
                          else old(pool[..])[idx := old(pool[idx]).(inUse := true, next := -1)]
      ensures idx >= 0 ==> idx < WQ_POOL_SIZE && !old(pool[idx].inUse)
    {
      ghost var used := InfoOf(pool[..]).Keys;
      var i := 0;
      while i < WQ_POOL_SIZE
        invariant 0 <= i <= WQ_POOL_SIZE && pool[..] == old(pool[..])
        invariant FreeFrom(used, WQ_POOL_SIZE, 0) == FreeFrom(used, WQ_POOL_SIZE, i)
      {
        if !pool[i].inUse {
          pool[i] := pool[i].(inUse := true, next := -1);
          return i;
        }
        i := i + 1;
      }
      return -1;
    }

    /** queue_append: walks to the last entry and links idx behind it. */
    method QueueAppend(q: nat, idx: nat)
      requires pool.Length == WQ_POOL_SIZE && CanAppend(pool[..], heads, chains, q, idx)
      modifies pool, this`heads
      ensures Inside(old(pool[..]), chains[q]) && pool[..] == Appended(old(pool[..]), chains[q], idx)
      ensures heads == if chains[q] == [] then old(heads)[q := idx] else old(heads)
    {
      ghost var c := chains[q];
      ghost var before := pool[..];
      ChainInPool(before, heads, chains, q);
      assert Linked(before, heads[q], c, q);
      pool[idx] := pool[idx].(next := -1);
      if heads[q] < 0 {
        heads := heads[q := idx];
      } else {
        var cur := heads[q];
        ghost var k := 0;
        assert LinkAt(before, c, q, 0);
        while pool[cur].next >= 0
          invariant 0 <= k < |c| && cur == c[k] && cur < pool.Length && cur != idx
          invariant pool[..] == before[idx := before[idx].(next := -1)]
          decreases |c| - k
        {
          assert LinkAt(before, c, q, k);
          assert k + 1 < |c| && LinkAt(before, c, q, k + 1) && c[k + 1] in c;
          cur := pool[cur].next;
          k := k + 1;
        }
        assert LinkAt(before, c, q, k);
        assert k == |c| - 1;
        pool[cur] := pool[cur].(next := idx);
      }
    }

    /** pool_free */
    method PoolFree(idx: int)
      requires pool.Length == WQ_POOL_SIZE
      modifies pool
      ensures pool[..] == if 0 <= idx < WQ_POOL_SIZE then old(pool[..])[idx := Freed(old(pool[idx]))] else old(pool[..])
    {
      if idx >= 0 && idx < WQ_POOL_SIZE {
        pool[idx] := pool[idx].(inUse := false, owner := None);
      }
    }

    /** queue_remove: finds the entry before idx and links around it; an entry that is not on the queue,
        for which k is the length of the chain, changes nothing. */
    method QueueRemove(q: nat, idx: nat, ghost k: nat)
      requires Valid() && q in chains && idx < WQ_POOL_SIZE
      requires if k < |chains[q]| then chains[q][k] == idx else k == |chains[q]| && idx !in chains[q]
      modifies pool, this`heads
      ensures Inside(old(pool[..]), chains[q])
      ensures if k < |chains[q]| then
                && pool[..][idx := Freed(pool[idx])] == Unlinked(old(pool[..]), chains[q], k)
                && heads == if k == 0 then old(heads)[q := old(pool[idx]).next] else old(heads)
              else pool[..] == old(pool[..]) && heads == old(heads)
    {
      hide Shape;
      ghost var c := chains[q];
      ghost var before := pool[..];
      ChainOf(before, heads, chains, q);
      if heads[q] < 0 {
        return;
      }
      if heads[q] == idx {
        heads := heads[q := pool[idx].next];
        return;
      }
      var prev := heads[q];
      ghost var j := 0;
      assert LinkAt(before, c, q, 0);
      while prev >= 0 && pool[prev].next != idx
        invariant if prev >= 0 then 0 <= j < k && j < |c| && prev == c[j] && prev < pool.Length else k == |c|
        decreases prev >= 0, |c| - j
      {
        assert LinkAt(before, c, q, j);
        if j + 1 < |c| { assert LinkAt(before, c, q, j + 1); }
        prev := pool[prev].next;
        j := j + 1;
      }
      if prev >= 0 {
        assert LinkAt(before, c, q, j);
        assert j + 1 == k;
        pool[prev] := pool[prev].(next := pool[idx].next);
      }
    }

    /** The common part of wq_wait and wq_wait_timeout. */
    method Enqueue(q: nat, tid: int, timeout: nat) returns (idx: int)
      requires Valid() && q in chains
      modifies this`heads, this`chains, pool
      ensures Valid() && idx < WQ_POOL_SIZE
      ensures var i := FreeFrom(old(Abs()).info.Keys, WQ_POOL_SIZE, 0);
              if i == WQ_POOL_SIZE then idx < 0 && Abs() == old(Abs())
              else
                && idx == i
                && Abs() == old(Abs()).(chains := old(chains)[q := old(chains)[q] + [i]],
                                        info := old(Abs()).info[i := Waiter(tid, timeout)])
    {
      hide Linked, Appended, FreeFrom, InfoOf;
      ghost var before := pool[..];
      idx := PoolAlloc();
      if idx < 0 {
        return;
      }
      EnqueueShape(before, heads, chains, q, idx, tid, timeout);
      EnqueueLinked(before, heads, chains, q, idx, Entry(tid, timeout, -1, true, Some(q)));
      pool[idx] := pool[idx].(task := tid);
      pool[idx] := pool[idx].(timeout := timeout);
      pool[idx] := pool[idx].(owner := Some(q));
      assert pool[..] == before[idx := Entry(tid, timeout, -1, true, Some(q))];
      QueueAppend(q, idx);
      InfoEnqueued(before, chains[q], idx, tid, timeout, q);
      chains := chains[q := chains[q] + [idx]];
    }

    method BlockTask(tid: int)
      modifies tasks
      ensures var ts := old(tasks[..]);
              tasks[..] == if IsTask(ts, tid) then ts[tid := Task(Blocked, 0)] else ts
    {
      if 0 <= tid < tasks.Length && tasks[tid].state != Dead {
        tasks[tid] := Task(Blocked, 0);
      }
    }

    /** wq_wait, up to the call of schedule(). */
    method WqWait(q: nat, tid: int)
      requires Valid() && q in chains
      modifies this`heads, this`chains, pool, tasks
      ensures Valid() && Abs() == Wait(old(Abs()), q, tid, 0)
    {
      hide FreeFrom, InfoOf;
      if tid < 0 {
        return;
      }
      var idx := Enqueue(q, tid, 0);
      if idx >= 0 {
        BlockTask(tid);
      }
    }

    /** wq_wait_timeout, up to the call of schedule(). */
    method WqWaitTimeout(q: nat, tid: int, n: nat)
      requires Valid() && q in chains
      modifies this`heads, this`chains, pool, tasks
      ensures Valid() && Abs() == Wait(old(Abs()), q, tid, (ticks + n) % TWO64)
    {
      hide FreeFrom, InfoOf;
      if tid < 0 {
        return;
      }
      var idx := Enqueue(q, tid, (ticks + n) % TWO64);
      if idx >= 0 {
        BlockTask(tid);
      }
    }

    /** A waker makes the task ready if it is blocked. */
    method WakeTask(tid: int, reason: int) returns (woke: bool)
      modifies tasks
      ensures tasks[..] == Release(old(tasks[..]), {tid}, reason)
    {
      woke := false;
      if 0 <= tid < tasks.Length && tasks[tid].state == Blocked {
        tasks[tid] := Task(Ready, reason);
        woke := true;
      }
    }

    /** wq_wake_one */
    method WqWakeOne(q: nat)
      requires Valid() && q in chains
      modifies this`heads, this`chains, pool, tasks
      ensures Valid() && Abs() == WakeOne(old(Abs()), q)
    {
      hide InfoOf, Release;
      assert Linked(pool[..], heads[q], chains[q], q);
      if heads[q] < 0 {
        return;
      }
      PopFirst(q);
    }

    /** Takes the first entry off a queue and wakes its task. */
    method PopFirst(q: nat)
      requires Valid() && q in chains && chains[q] != []
      modifies this`heads, this`chains, pool, tasks
      ensures Valid() && Abs() == WakeOne(old(Abs()), q)
      ensures chains == old(chains)[q := old(chains)[q][1..]] && old(chains)[q][0] in old(Abs()).info
    {
      hide InfoOf, Release, Unlinked, Drop;
      ghost var before, c := pool[..], chains[q];
      ChainInPool(before, heads, chains, q);
      assert Linked(before, heads[q], c, q);
      UnlinkShape(before, heads, chains, q, 0);
      InfoUnlinked(before, c, 0);
      UnlinkFirst(before, c);
      TasksOfOne(before, c[0]);
      hide Linked;
      var idx := heads[q];
      heads := heads[q := pool[idx].next];
      var woke := WakeTask(pool[idx].task, 0);
      PoolFree(idx);
      chains := chains[q := c[1..]];
    }

    /** wq_wake_all */
    method WqWakeAll(q: nat)
      requires Valid() && q in chains
      modifies this`heads, this`chains, pool, tasks
      ensures Valid() && Abs() == WakeAll(old(Abs()), q)
    {
      hide InfoOf, Release, WakeOne, WakeAll;
      ghost var s := Abs();
      while heads[q] >= 0
        invariant Valid() && q in chains
        invariant WakeAll(Abs(), q) == WakeAll(s, q)
        decreases |chains[q]|
      {
        assert Linked(pool[..], heads[q], chains[q], q);
        ghost var mid := Abs();
        PopFirst(q);
        WakeAllStep(mid, q);
      }
      assert Linked(pool[..], heads[q], chains[q], q);
      WakeAllDone(Abs(), q);
    }

    /** wq_tick: one sweep over the pool. */
    method WqTick()
      requires Valid()
      modifies this`heads, this`chains, pool, tasks
      ensures Valid() && Abs() == Sweep(old(Abs()))
    {
      hide InfoOf, Release, SweepBelow, Expired, Remove, Sweep, Shape;
      ghost var s, before := Abs(), pool[..];
      SweepNone(s);
      var i := 0;
      while i < WQ_POOL_SIZE
        invariant 0 <= i <= WQ_POOL_SIZE && Valid()
        invariant Abs() == SweepBelow(s, i)
      {
        SweepStep(s, i);
        ExpiredHere(pool[..], ticks, i);
        if pool[i].inUse && pool[i].timeout != 0 && ticks >= pool[i].timeout {
          ExpireEntry(i);
        }
        i := i + 1;
      }
      SweepDone(s, before);
    }

    /** What wq_tick does to an expired entry. */
    method ExpireEntry(i: nat)
      requires Valid() && i < WQ_POOL_SIZE && pool[i].inUse
      modifies this`heads, this`chains, pool, tasks
      ensures Valid() && Abs() == Remove(old(Abs()), {i}, -1)
    {
      hide InfoOf, Release, Unlinked, Drop;
      ghost var before := pool[..];
      assert OnChain(before[i], chains, i);
      var woke := WakeTask(pool[i].task, -1);
      TasksOfOne(before, i);
      if pool[i].owner.Some? {
        var q := pool[i].owner.value;
        ghost var c := chains[q];
        ghost var k :| 0 <= k < |c| && c[k] == i;
        UnlinkShape(before, heads, chains, q, k);
        InfoUnlinked(before, c, k);
        DropElsewhere(before, heads, chains, q, i);
        QueueRemove(q, i, k);
        PoolFree(i);
        chains := chains[q := Drop(c, {i})];
      }
    }

    /** timer_handler on CPU 0. */
    method TimerTick()
      requires Valid()
      modifies this, pool, tasks
      ensures Valid() && Abs() == Tick(old(Abs()))
    {
      ticks := (ticks + 1) % TWO64;
      WqTick();
    }
  }

  // ---- the refinement, step by step ----

  lemma InfoEnqueued(pool: seq<Entry>, c: seq<nat>, idx: nat, task: int, timeout: nat, q: nat)
    requires idx < |pool| && Inside(pool, c) && idx !in c
    ensures InfoOf(Enqueued(pool, c, idx, task, timeout, q)) == InfoOf(pool)[idx := Waiter(task, timeout)]
  {
    var e := Entry(task, timeout, -1, true, Some(q));
    hide Appended;
    AppendedAt(pool[idx := e], c, idx, idx);
    forall i: nat | i < |pool| ensures
        var x := Enqueued(pool, c, idx, task, timeout, q)[i];
        if i == idx then x == e else x.inUse == pool[i].inUse && x.task == pool[i].task && x.timeout == pool[i].timeout
    {
      AppendedAt(pool[idx := e], c, idx, i);
    }
  }

  lemma InfoUnlinked(pool: seq<Entry>, c: seq<nat>, k: nat)
    requires k < |c| && Inside(pool, c) && NoDup(c)
    ensures InfoOf(Unlinked(pool, c, k)) == InfoOf(pool) - {c[k]}
  {
    hide Unlinked;
    UnlinkFrame(pool, c, k, c[k]);
    forall i: nat | i < |pool| ensures
        var x := Unlinked(pool, c, k)[i];
        if i == c[k] then !x.inUse
        else x.inUse == pool[i].inUse && x.task == pool[i].task && x.timeout == pool[i].timeout
    {
      UnlinkFrame(pool, c, k, i);
    }
  }

  lemma UnlinkFirst(pool: seq<Entry>, c: seq<nat>)
    requires c != [] && Inside(pool, c) && NoDup(c)
    ensures Unlinked(pool, c, 0) == pool[c[0] := Freed(pool[c[0]])] && Drop(c, {c[0]}) == c[1..]
  {
    DropOne(c, 0);
  }

  lemma TasksOfOne(pool: seq<Entry>, i: nat)
    requires i < |pool| && pool[i].inUse
    ensures TasksOf(InfoOf(pool), {i}) == {pool[i].task} && i in InfoOf(pool)
  {
    assert i in InfoOf(pool) && InfoOf(pool)[i].task == pool[i].task;
  }

  // ---- wake-all as a sequence of pops ----

  lemma WakeAllStep(s: Sys, q: nat)
    requires q in s.chains && s.chains[q] != [] && s.chains[q][0] in s.info
    ensures WakeAll(WakeOne(s, q), q) == WakeAll(s, q)
  {
    hide Release, TasksOf, Elems;
    var c := s.chains[q];
    var i, rest := c[0], Elems(c[1..]);
    ElemsHead(c);
    InfoSplits(s.info, i, rest);
    ReleaseTwice(s.tasks, TasksOf(s.info, {i}), TasksOf(s.info - {i}, rest), 0);
    assert s.chains[q := c[1..]][q := []] == s.chains[q := []];
  }

  lemma ElemsHead(c: seq<nat>)
    requires c != []
    ensures Elems(c) == {c[0]} + Elems(c[1..])
  {
    assert c == [c[0]] + c[1..];
  }

  lemma InfoSplits(info: map<nat, Waiter>, i: nat, rest: set<nat>)
    ensures info - {i} - rest == info - ({i} + rest)
    ensures TasksOf(info, {i}) + TasksOf(info - {i}, rest) == TasksOf(info, {i} + rest)
  {
  }

  lemma ReleaseTwice(tasks: seq<Task>, a: set<int>, b: set<int>, reason: int)
    ensures Release(Release(tasks, a, reason), b, reason) == Release(tasks, a + b, reason)
  {
  }

  lemma ReleaseNone(tasks: seq<Task>, reason: int)
    ensures Release(tasks, {}, reason) == tasks
  {
  }

  lemma WakeAllDone(s: Sys, q: nat)
    requires q in s.chains && s.chains[q] == []
    ensures WakeAll(s, q) == s
  {
    ReleaseNone(s.tasks, 0);
    assert Elems<nat>([]) == {};
    assert TasksOf(s.info, {}) == {};
  }

  // ---- the sweep, entry by entry ----

  ghost function Below(S: set<nat>, n: nat): set<nat> {
    set i | i in S && i < n
  }

  /** The state when the sweep has reached index n. */
  ghost function SweepBelow(s: Sys, n: nat): Sys {
    Remove(s, Below(Expired(s.info, s.ticks), n), -1)
  }

  lemma SweepNone(s: Sys)
    ensures SweepBelow(s, 0) == s
  {
    assert Below(Expired(s.info, s.ticks), 0) == {};
    assert s.info - {} == s.info;
    assert DropAll(s.chains, {}) == s.chains by {
      forall q | q in s.chains ensures Drop(s.chains[q], {}) == s.chains[q] { DropNothing(s.chains[q], {}); }
    }
    assert TasksOf(s.info, {}) == {};
    ReleaseNone(s.tasks, -1);
  }

  lemma DropAllTwice(chains: Chains, a: set<nat>, b: set<nat>)
    ensures DropAll(DropAll(chains, a), b) == DropAll(chains, a + b)
  {
    forall q | q in chains ensures Drop(Drop(chains[q], a), b) == Drop(chains[q], a + b) {
      DropTwice(chains[q], a, b);
    }
  }

  lemma SweepStep(s: Sys, n: nat)
    ensures n in SweepBelow(s, n).info <==> n in s.info
    ensures n in s.info ==> SweepBelow(s, n).info[n] == s.info[n]
    ensures n in Expired(s.info, s.ticks) <==> n in Expired(SweepBelow(s, n).info, SweepBelow(s, n).ticks)
    ensures SweepBelow(s, n + 1) ==
            if n in Expired(s.info, s.ticks) then Remove(SweepBelow(s, n), {n}, -1) else SweepBelow(s, n)
  {
    var dead := Below(Expired(s.info, s.ticks), n);
    var dead' := Below(Expired(s.info, s.ticks), n + 1);
    if n in Expired(s.info, s.ticks) {
      assert dead' == dead + {n};
      DropAllTwice(s.chains, dead, {n});
      assert s.info - dead - {n} == s.info - (dead + {n});
      assert TasksOf(s.info, dead) + TasksOf(s.info - dead, {n}) == TasksOf(s.info, dead + {n});
      ReleaseTwice(s.tasks, TasksOf(s.info, dead), TasksOf(s.info - dead, {n}), -1);
    } else {
      assert dead' == dead;
    }
  }

  lemma SweepDone(s: Sys, pool: seq<Entry>)
    requires |pool| == WQ_POOL_SIZE && InfoOf(pool) == s.info
    ensures SweepBelow(s, WQ_POOL_SIZE) == Sweep(s)
  {
    assert Below(Expired(s.info, s.ticks), WQ_POOL_SIZE) == Expired(s.info, s.ticks);
  }

  lemma ExpiredHere(pool: seq<Entry>, now: nat, i: nat)
    requires i < |pool|
    ensures i in Expired(InfoOf(pool), now) <==> pool[i].inUse && pool[i].timeout != 0 && now >= pool[i].timeout
  {
  }

  /** Only the owner's queue has the entry. */
  lemma DropElsewhere(pool: seq<Entry>, heads: map<nat, int>, chains: Chains, q: nat, i: nat)
    requires AllLinked(pool, heads, chains) && q in chains && i in chains[q]
    ensures DropAll(chains, {i}) == chains[q := Drop(chains[q], {i})]
  {
    hide Linked;
    forall r | r in chains && r != q ensures Drop(chains[r], {i}) == chains[r] {
      if i in chains[r] { ChainsDisjoint(pool, heads, chains, q, r, i); }
      DropNothing(chains[r], {i});
    }
  }
}
