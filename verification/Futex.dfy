/** The futex table of kernel/futex.c: slots of wait queues found by address. It refines a map from
    addresses to FIFO sequences of waiters. Checking the word, finding the slot and enqueuing is one
    step here, and so is one whole futex_wake; the clean-up of a slot by a woken task is a step of
    its own that may come at any time. */
module Futex {
  import opened Common
  import opened WaitPool
  import opened WaitQueues
  import opened WaitRuns

  const FUTEX_MAX: nat := 16

  /** struct futex_slot; the queue of slot j is queue j of the wait-queue table. */
  datatype Slot = Slot(addr: nat, active: bool)

  datatype FSys = FSys(w: Sys, slots: seq<Slot>)

  ghost predicate Distinct(slots: seq<Slot>) {
    forall j, k :: 0 <= j < k < |slots| && slots[j].active && slots[k].active ==> slots[j].addr != slots[k].addr
  }

  /** No two active slots share an address, and the queue of an inactive slot is empty. */
  ghost predicate TableOk(slots: seq<Slot>, chains: Chains) {
    && |slots| == FUTEX_MAX && Distinct(slots)
    && (forall j :: 0 <= j < FUTEX_MAX ==> j in chains && (!slots[j].active ==> chains[j] == []))
  }

  /** The first slot from j on that is active for addr; |slots| when there is none. */
  ghost function ActiveFrom(slots: seq<Slot>, addr: nat, j: nat): (r: nat)
    requires j <= |slots|
    ensures j <= r <= |slots| && (r < |slots| ==> slots[r].active && slots[r].addr == addr)
    ensures forall k :: j <= k < r ==> !(slots[k].active && slots[k].addr == addr)
    decreases |slots| - j
  {
    if j == |slots| || (slots[j].active && slots[j].addr == addr) then j else ActiveFrom(slots, addr, j + 1)
  }

  /** The first inactive slot from j on. */
  ghost function FreeSlotFrom(slots: seq<Slot>, j: nat): (r: nat)
    requires j <= |slots|
    ensures j <= r <= |slots| && (r < |slots| ==> !slots[r].active)
    ensures forall k :: j <= k < r ==> slots[k].active
    decreases |slots| - j
  {
    if j == |slots| || !slots[j].active then j else FreeSlotFrom(slots, j + 1)
  }

  /** What the table stands for: the waiters of an address, in order of arrival. */
  ghost function Waiters(f: FSys, addr: nat): seq<nat>
    requires TableOk(f.slots, f.w.chains)
  {
    var j := ActiveFrom(f.slots, addr, 0);
    if j < |f.slots| then f.w.chains[j] else []
  }

  // ---- the operations ----

  /** find_slot with create: the new state and the slot, |slots| for a full table. */
  ghost function FindSlot(f: FSys, addr: nat): (r: (FSys, nat))
    requires |f.slots| == FUTEX_MAX
    ensures r.1 <= |f.slots| && (r.1 == |f.slots| ==> r.0 == f)
  {
    var j := ActiveFrom(f.slots, addr, 0);
    if j < |f.slots| then (f, j)
    else
      var k := FreeSlotFrom(f.slots, 0);
      if k == |f.slots| then (f, k)
      else (FSys(f.w.(chains := f.w.chains[k := []]), f.slots[k := Slot(addr, true)]), k)
  }

  /** maybe_free_slot */
  ghost function Clean(f: FSys, j: nat): FSys
    requires j < |f.slots| && j in f.w.chains
  {
    if f.w.chains[j] == [] then f.(slots := f.slots[j := f.slots[j].(active := false)]) else f
  }

  /** futex_wait and futex_wait_timeout up to the point where the task blocks. The word is read
      twice, as first and second. Returns whether the task was queued or the call failed. */
  ghost function Enter(f: FSys, addr: nat, expected: nat, first: nat, second: nat, t: int, timeout: nat)
    : (r: (FSys, bool))
    requires TableOk(f.slots, f.w.chains)
  {
    if first != expected then (f, false)
    else
      var (f1, j) := FindSlot(f, addr);
      if j == |f.slots| then (f, false)
      else if second != expected then (Clean(f1, j), false)
      else (f1.(w := Wait(f1.w, j, t, timeout)), true)
  }

  /** k rounds of the loop of futex_wake. */
  ghost function WakeMany(w: Sys, q: nat, k: nat): Sys
    requires q in w.chains
    decreases k
  {
    if k == 0 then w else WakeMany(WakeOne(w, q), q, k - 1)
  }

  function Min(a: int, b: int): int { if a < b then a else b }

  /** How many waiters futex_wake(addr, count) wakes when there are n. */
  function Woken(count: int, n: nat): nat {
    if count <= 0 then 0 else Min(count, n)
  }

  /** futex_wake */
  ghost function WakeUp(f: FSys, addr: nat, count: int): (r: (FSys, nat))
    requires TableOk(f.slots, f.w.chains)
  {
    var j := ActiveFrom(f.slots, addr, 0);
    if j == |f.slots| then (f, 0)
    else
      var k := Woken(count, |f.w.chains[j]|);
      WakeManyChains(f.w, j, k);
      (Clean(f.(w := WakeMany(f.w, j, k)), j), k)
  }

  lemma {:induction false} WakeManyChains(w: Sys, q: nat, k: nat)
    requires q in w.chains && k <= |w.chains[q]|
    ensures WakeMany(w, q, k).chains == w.chains[q := w.chains[q][k..]]
    decreases k
  {
    hide WakeOne, WakeMany;
    WakeManyStep(w, q, k);
    var c := w.chains[q];
    if k == 0 {
      assert c[0..] == c;
      assert w.chains[q := c] == w.chains;
    } else {
      WakeOneChains(w, q);
      WakeManyChains(WakeOne(w, q), q, k - 1);
      assert c[1..][k - 1..] == c[k..];
      Overwritten(w.chains, q, c[1..], c[k..]);
    }
  }

  lemma Overwritten(m: Chains, q: nat, a: seq<nat>, b: seq<nat>)
    ensures m[q := a][q := b] == m[q := b]
  {
  }

  lemma WakeManyStep(w: Sys, q: nat, k: nat)
    requires q in w.chains
    ensures q in WakeOne(w, q).chains
    ensures WakeMany(w, q, k) == if k == 0 then w else WakeMany(WakeOne(w, q), q, k - 1)
  {
    hide Release, TasksOf;
  }

  lemma WakeOneChains(w: Sys, q: nat)
    requires q in w.chains && w.chains[q] != []
    ensures WakeOne(w, q).chains == w.chains[q := w.chains[q][1..]]
  {
    hide Release, TasksOf;
  }

  // ---- the slot of an address ----

  lemma ActiveUnique(slots: seq<Slot>, addr: nat, j: nat)
    requires Distinct(slots) && j < |slots| && slots[j].active && slots[j].addr == addr
    ensures ActiveFrom(slots, addr, 0) == j
  {
  }

  lemma ActiveNone(slots: seq<Slot>, addr: nat)
    requires forall j :: 0 <= j < |slots| ==> !(slots[j].active && slots[j].addr == addr)
    ensures ActiveFrom(slots, addr, 0) == |slots|
  {
  }

  /** Changing the queue of slot j changes the waiters of its address, and of no other. */
  lemma WaitersAfter(f: FSys, f': FSys, j: nat, addr: nat)
    requires TableOk(f.slots, f.w.chains) && TableOk(f'.slots, f'.w.chains) && j < FUTEX_MAX
    requires f'.slots == f.slots && forall k :: 0 <= k < FUTEX_MAX && k != j ==> f'.w.chains[k] == f.w.chains[k]
    ensures Waiters(f', addr) == if ActiveFrom(f.slots, addr, 0) == j then f'.w.chains[j] else Waiters(f, addr)
  {
  }

  /** Cleaning up a slot changes no waiters. */
  lemma CleanKeeps(f: FSys, j: nat, addr: nat)
    requires TableOk(f.slots, f.w.chains) && j < FUTEX_MAX
    ensures TableOk(Clean(f, j).slots, Clean(f, j).w.chains) && Clean(f, j).w == f.w
    ensures Waiters(Clean(f, j), addr) == Waiters(f, addr)
  {
    hide ActiveFrom;
    var f' := Clean(f, j);
    var k := ActiveFrom(f.slots, addr, 0);
    if k < |f.slots| && f'.slots[k].active {
      ActiveUnique(f'.slots, addr, k);
    } else {
      ActiveNone(f'.slots, addr);
    }
  }

  /** It gives the slot back exactly when nobody waits on it, and leaves the other slots alone. */
  lemma CleanFrees(f: FSys, j: nat)
    requires TableOk(f.slots, f.w.chains) && j < FUTEX_MAX
    ensures var slots' := Clean(f, j).slots;
            && |slots'| == FUTEX_MAX && slots'[j].addr == f.slots[j].addr
            && (slots'[j].active <==> f.slots[j].active && f.w.chains[j] != [])
            && forall k :: 0 <= k < FUTEX_MAX && k != j ==> slots'[k] == f.slots[k]
  {
    hide Distinct;
  }

  /** Finding or making a slot changes no waiters, and drops nobody. */
  lemma FindSlotKeeps(f: FSys, addr: nat, a: nat)
    requires TableOk(f.slots, f.w.chains)
    ensures var (f', j) := FindSlot(f, addr);
            && TableOk(f'.slots, f'.w.chains) && f'.w == f.w
            && Waiters(f', a) == Waiters(f, a)
            && (j < FUTEX_MAX ==> ActiveFrom(f'.slots, addr, 0) == j && f'.w.chains[j] == Waiters(f, addr))
            && (j == FUTEX_MAX <==> ActiveFrom(f.slots, addr, 0) == FUTEX_MAX &&
                                    forall k :: 0 <= k < FUTEX_MAX ==> f.slots[k].active)
  {
    hide ActiveFrom, FreeSlotFrom;
    var (f', j) := FindSlot(f, addr);
    if ActiveFrom(f.slots, addr, 0) == FUTEX_MAX && j < FUTEX_MAX {
      assert f.w.chains[j := []] == f.w.chains;
      ActiveUnique(f'.slots, addr, j);
      var k := ActiveFrom(f.slots, a, 0);
      if k < FUTEX_MAX {
        ActiveUnique(f'.slots, a, k);
      } else if a != addr {
        ActiveNone(f'.slots, a);
      } else {
        ActiveUnique(f'.slots, a, j);
      }
    }
  }

  // ---- what each operation does to the map ----

  /** futex_wait: a queued task is the last waiter of its address; every other address, and every
      failed call, leaves the waiters alone. */
  lemma EnterRefines(f: FSys, addr: nat, expected: nat, first: nat, second: nat, t: int, timeout: nat, a: nat)
    requires TableOk(f.slots, f.w.chains)
    ensures var (f', queued) := Enter(f, addr, expected, first, second, t, timeout);
            var i := FreeFrom(f.w.info.Keys, WQ_POOL_SIZE, 0);
            && TableOk(f'.slots, f'.w.chains)
            && (!queued ==> f'.w == f.w)
            && Waiters(f', a) ==
               if queued && a == addr && t >= 0 && i < WQ_POOL_SIZE then Waiters(f, a) + [i] else Waiters(f, a)
  {
    hide ActiveFrom, FreeSlotFrom, FreeFrom, Waiters, FindSlot, Distinct;
    if first == expected {
      FindSlotKeeps(f, addr, a);
      FindSlotKeeps(f, addr, addr);
      var (f1, j) := FindSlot(f, addr);
      if j < FUTEX_MAX {
        if second != expected {
          CleanKeeps(f1, j, a);
        } else {
          EnterWaits(f1, j, t, timeout, addr, a);
        }
      }
    }
  }

  ghost predicate HasSlot(slots: seq<Slot>, addr: nat) {
    exists j :: 0 <= j < |slots| && slots[j].active && slots[j].addr == addr
  }

  ghost predicate SomeIdle(slots: seq<Slot>) {
    exists j :: 0 <= j < |slots| && !slots[j].active
  }

  /** A call goes on to the wait exactly when the word had the expected value at both reads and there
      is a slot for the address, its own or an idle one. */
  lemma EnterQueuesIff(f: FSys, addr: nat, expected: nat, first: nat, second: nat, t: int, timeout: nat)
    requires TableOk(f.slots, f.w.chains)
    ensures Enter(f, addr, expected, first, second, t, timeout).1 <==>
            first == expected && second == expected && (HasSlot(f.slots, addr) || SomeIdle(f.slots))
  {
    hide ActiveFrom, FreeSlotFrom, Wait, Clean;
    SlotFoundIff(f, addr);
  }

  lemma SlotFoundIff(f: FSys, addr: nat)
    requires |f.slots| == FUTEX_MAX
    ensures FindSlot(f, addr).1 < FUTEX_MAX <==> HasSlot(f.slots, addr) || SomeIdle(f.slots)
  {
    hide ActiveFrom, FreeSlotFrom;
    var j := ActiveFrom(f.slots, addr, 0);
    if j == FUTEX_MAX { var k := FreeSlotFrom(f.slots, 0); }
  }

  lemma EnterWaits(f: FSys, j: nat, t: int, timeout: nat, addr: nat, a: nat)
    requires TableOk(f.slots, f.w.chains) && j < FUTEX_MAX && ActiveFrom(f.slots, addr, 0) == j
    ensures var f' := f.(w := Wait(f.w, j, t, timeout));
            var i := FreeFrom(f.w.info.Keys, WQ_POOL_SIZE, 0);
            && TableOk(f'.slots, f'.w.chains)
            && Waiters(f', a) == if a == addr && t >= 0 && i < WQ_POOL_SIZE then Waiters(f, a) + [i] else Waiters(f, a)
  {
    hide FreeFrom;
    var f' := f.(w := Wait(f.w, j, t, timeout));
    WaitersAfter(f, f', j, a);
  }

  /** futex_wake(addr, count) wakes exactly the first min(count, waiters) waiters of addr, in order,
      and returns how many; the waiters of all other addresses are untouched. */
  lemma WakeUpRefines(f: FSys, addr: nat, count: int, a: nat)
    requires TableOk(f.slots, f.w.chains)
    ensures var (f', k) := WakeUp(f, addr, count);
            && TableOk(f'.slots, f'.w.chains)
            && k == Woken(count, |Waiters(f, addr)|)
            && Waiters(f', a) == if a == addr then Waiters(f, a)[k..] else Waiters(f, a)
  {
    var j := ActiveFrom(f.slots, addr, 0);
    if j < FUTEX_MAX {
      var k := Woken(count, |f.w.chains[j]|);
      var f1 := f.(w := WakeMany(f.w, j, k));
      WakeManyChains(f.w, j, k);
      WaitersAfter(f, f1, j, a);
      CleanKeeps(f1, j, a);
    }
  }

  /** The tasks woken are those of the first k entries, with result 0, and no other entry leaves. */
  lemma {:induction false} WakeManyTasks(w: Sys, q: nat, k: nat)
    requires Inv(w) && q in w.chains && k <= |w.chains[q]|
    ensures WakeMany(w, q, k).info == w.info - Elems(w.chains[q][..k])
    ensures WakeMany(w, q, k).tasks == Release(w.tasks, TasksOf(w.info, Elems(w.chains[q][..k])), 0)
    decreases k
  {
    hide Inv, Release, TasksOf;
    var c := w.chains[q];
    if k == 0 {
      assert Elems(c[..0]) == {};
      WakeNone(w);
    } else {
      StepKeeps(w, Wake(q));
      WakeManyTasks(WakeOne(w, q), q, k - 1);
      assert c[1..][..k - 1] == c[1..k];
      assert Elems(c[..k]) == {c[0]} + Elems(c[1..k]) by { assert c[..k] == [c[0]] + c[1..k]; }
      WakeSplit(w, {c[0]}, Elems(c[1..k]));
    }
  }

  lemma WakeNone(w: Sys)
    ensures w.info - {} == w.info && Release(w.tasks, TasksOf(w.info, {}), 0) == w.tasks
  {
    assert TasksOf(w.info, {}) == {};
    ReleaseNone(w.tasks, 0);
  }

  lemma WakeSplit(w: Sys, a: set<nat>, b: set<nat>)
    ensures w.info - a - b == w.info - (a + b)
    ensures Release(Release(w.tasks, TasksOf(w.info, a), 0), TasksOf(w.info - a, b), 0) ==
            Release(w.tasks, TasksOf(w.info, a + b), 0)
  {
    assert TasksOf(w.info, a) + TasksOf(w.info - a, b) == TasksOf(w.info, a + b);
    ReleaseTwice(w.tasks, TasksOf(w.info, a), TasksOf(w.info - a, b), 0);
  }

  /** A timer tick drops exactly the expired waiters of every address, and keeps the order. */
  lemma TickRefines(f: FSys, a: nat)
    requires TableOk(f.slots, f.w.chains)
    ensures var f' := f.(w := Tick(f.w));
            && TableOk(f'.slots, f'.w.chains)
            && Waiters(f', a) == Drop(Waiters(f, a), Expired(f.w.info, f'.w.ticks))
  {
    hide Release, Expired, TasksOf;
  }

  // ---- every run ----

  ghost predicate FInv(f: FSys) {
    Inv(f.w) && TableOk(f.slots, f.w.chains)
  }

  /** Steps of the futex system; Other covers the timer, the scheduler and all other queues. */
  datatype FEvent =
    | FWait(addr: nat, expected: nat, first: nat, second: nat, t: int)
    | FWaitFor(addr: nat, expected: nat, first: nat, second: nat, t: int, n: nat)
    | FWake(addr: nat, count: int)
    | FClean(slot: nat)
    | Other(e: Event)

  ghost predicate Foreign(e: Event) {
    match e
    case WaitOn(q, _) => q >= FUTEX_MAX
    case WaitFor(q, _, _) => q >= FUTEX_MAX
    case Wake(q) => q >= FUTEX_MAX
    case WakeAllOf(q) => q >= FUTEX_MAX
    case _ => true
  }

  ghost function FStep(f: FSys, e: FEvent): FSys
    requires FInv(f)
  {
    match e
    case FWait(addr, expected, first, second, t) =>
      if InState(f.w, t, Running) then Enter(f, addr, expected, first, second, t, 0).0 else f
    case FWaitFor(addr, expected, first, second, t, n) =>
      if InState(f.w, t, Running) then Enter(f, addr, expected, first, second, t, (f.w.ticks + n) % TWO64).0 else f
    case FWake(addr, count) => WakeUp(f, addr, count).0
    case FClean(j) => if j < FUTEX_MAX then Clean(f, j) else f
    case Other(e) => if Foreign(e) then f.(w := Step(f.w, e)) else f
  }

  lemma EnterInv(f: FSys, addr: nat, expected: nat, first: nat, second: nat, t: int, timeout: nat)
    requires FInv(f) && InState(f.w, t, Running)
    ensures FInv(Enter(f, addr, expected, first, second, t, timeout).0)
  {
    EnterRefines(f, addr, expected, first, second, t, timeout, addr);
    hide ActiveFrom, FreeSlotFrom, FreeFrom, Waiters, Distinct, ChainsOk, TasksOk, Wait, FindSlot;
    if first == expected {
      FindSlotKeeps(f, addr, addr);
      var (f1, j) := FindSlot(f, addr);
      if j < FUTEX_MAX && second == expected {
        WaitKeeps(f1.w, j, t, timeout);
      }
    }
  }

  lemma {:induction false} WakeManyInv(w: Sys, q: nat, k: nat)
    requires Inv(w) && q in w.chains
    ensures Inv(WakeMany(w, q, k))
    decreases k
  {
    hide Inv, WakeMany, WakeOne;
    WakeManyStep(w, q, k);
    if k > 0 {
      StepKeeps(w, Wake(q));
      WakeManyInv(WakeOne(w, q), q, k - 1);
    }
  }

  lemma WakeUpInv(f: FSys, addr: nat, count: int)
    requires FInv(f)
    ensures FInv(WakeUp(f, addr, count).0)
  {
    WakeUpRefines(f, addr, count, addr);
    hide ActiveFrom, Distinct, ChainsOk, TasksOk, WakeMany;
    var j := ActiveFrom(f.slots, addr, 0);
    if j < FUTEX_MAX {
      WakeManyInv(f.w, j, Woken(count, |f.w.chains[j]|));
    }
  }

  /** A step elsewhere changes futex queues by expiry alone. */
  lemma OtherChains(f: FSys, e: Event, j: nat)
    requires FInv(f) && Foreign(e) && j < FUTEX_MAX
    ensures j in Step(f.w, e).chains
    ensures Step(f.w, e).chains[j] ==
            if e == TimerTick then Drop(f.w.chains[j], Expired(f.w.info, (f.w.ticks + 1) % TWO64)) else f.w.chains[j]
  {
    hide Distinct, ChainsOk, TasksOk, Release, FreeFrom, Drop, Expired;
    assert j in f.w.chains;
  }

  lemma OtherRefines(f: FSys, e: Event, a: nat)
    requires FInv(f) && Foreign(e)
    ensures var f' := f.(w := Step(f.w, e));
            && FInv(f')
            && Waiters(f', a) ==
               if e == TimerTick then Drop(Waiters(f, a), Expired(f.w.info, (f.w.ticks + 1) % TWO64)) else Waiters(f, a)
  {
    hide Distinct, Inv, Step, Expired;
    StepKeeps(f.w, e);
    forall j: nat | j < FUTEX_MAX
      ensures j in Step(f.w, e).chains && (!f.slots[j].active ==> Step(f.w, e).chains[j] == [])
    {
      OtherChains(f, e, j);
    }
    var j := ActiveFrom(f.slots, a, 0);
    if j < FUTEX_MAX { OtherChains(f, e, j); }
  }

  /** In every step, active slots keep distinct addresses and inactive slots empty queues, and the
      pool keeps its shape. */
  lemma FStepKeeps(f: FSys, e: FEvent)
    requires FInv(f)
    ensures FInv(FStep(f, e))
  {
    hide Inv, TableOk, Enter, WakeUp, Clean, Step, Foreign;
    match e
    case FWait(addr, expected, first, second, t) =>
      if InState(f.w, t, Running) { EnterInv(f, addr, expected, first, second, t, 0); }
    case FWaitFor(addr, expected, first, second, t, n) =>
      if InState(f.w, t, Running) { EnterInv(f, addr, expected, first, second, t, (f.w.ticks + n) % TWO64); }
    case FWake(addr, count) => WakeUpInv(f, addr, count);
    case FClean(j) => if j < FUTEX_MAX { CleanKeeps(f, j, 0); }
    case Other(e) => if Foreign(e) { OtherRefines(f, e, 0); }
  }

  /** The state after a sequence of steps; the invariant holds in every state of a run. */
  ghost function FRun(f: FSys, es: seq<FEvent>): (f': FSys)
    requires FInv(f)
    ensures FInv(f')
    decreases |es|
  {
    if es == [] then f
    else
      FStepKeeps(f, es[0]);
      FRun(FStep(f, es[0]), es[1..])
  }

  // ---- the beginning ----

  /** The queues of n slots beside the queues there are. */
  ghost function WithQueues(chains: Chains, n: nat): Chains {
    if n == 0 then chains else WithQueues(chains, n - 1)[n - 1 := []]
  }

  /** futex_init: sixteen idle slots with empty queues. */
  ghost function FInit(w: Sys): FSys {
    FSys(w.(chains := WithQueues(w.chains, FUTEX_MAX)), seq(FUTEX_MAX, j => Slot(0, false)))
  }

  lemma {:induction false} WithQueuesAt(chains: Chains, n: nat, q: nat)
    requires forall r :: r in chains ==> r >= n
    ensures q in WithQueues(chains, n) <==> q < n || q in chains
    ensures q < n ==> WithQueues(chains, n)[q] == []
    ensures q in chains ==> WithQueues(chains, n)[q] == chains[q]
  {
    if n > 0 { WithQueuesAt(chains, n - 1, q); }
  }

  lemma {:induction false} WithQueuesInv(w: Sys, n: nat)
    requires Inv(w) && forall r :: r in w.chains ==> r >= n
    ensures Inv(w.(chains := WithQueues(w.chains, n)))
  {
    hide Inv, WithQueues;
    if n == 0 {
      WithQueuesStep(w.chains, 0);
    } else {
      WithQueuesInv(w, n - 1);
      WithQueuesAt(w.chains, n - 1, n - 1);
      WithQueuesStep(w.chains, n - 1);
      NewQueueKeeps(w.(chains := WithQueues(w.chains, n - 1)), n - 1);
    }
  }

  /** After futex_init the table is in order and no address has waiters. */
  lemma FInitInv(w: Sys)
    requires Inv(w) && forall r :: r in w.chains ==> r >= FUTEX_MAX
    ensures FInv(FInit(w)) && forall addr :: Waiters(FInit(w), addr) == []
  {
    WithQueuesInv(w, FUTEX_MAX);
    FInitTable(w.chains);
    hide Inv, WithQueues, TableOk;
    var f := FInit(w);
    forall addr ensures Waiters(f, addr) == [] { ActiveNone(f.slots, addr); }
  }

  lemma FInitTable(chains: Chains)
    requires forall r :: r in chains ==> r >= FUTEX_MAX
    ensures TableOk(seq(FUTEX_MAX, j => Slot(0, false)), WithQueues(chains, FUTEX_MAX))
  {
    hide WithQueues;
    forall j | 0 <= j < FUTEX_MAX
      ensures j in WithQueues(chains, FUTEX_MAX) && WithQueues(chains, FUTEX_MAX)[j] == []
    {
      WithQueuesAt(chains, FUTEX_MAX, j);
    }
  }

  /** The state after a run from the start. */
  ghost function FReached(es: seq<FEvent>): (f: FSys)
    ensures FInv(f)
  {
    InitInv();
    FInitInv(Initial());
    FRun(FInit(Initial()), es)
  }

  /** In every run from futex_init: no two active slots share an address, an idle slot's queue is empty,
      and futex_wake takes the first min(count, waiters) waiters of the address and no other. */
  lemma AlwaysWakesFirst(es: seq<FEvent>, addr: nat, count: int, a: nat)
    ensures var f := FReached(es);
            var (f', k) := WakeUp(f, addr, count);
            && Distinct(f.slots) && (forall j :: 0 <= j < FUTEX_MAX && !f.slots[j].active ==> f.w.chains[j] == [])
            && TableOk(f'.slots, f'.w.chains)
            && k == (if count <= 0 then 0 else if count < |Waiters(f, addr)| then count else |Waiters(f, addr)|)
            && Waiters(f', a) == (if a == addr then Waiters(f, a)[k..] else Waiters(f, a))
            && f'.w.tasks == Release(f.w.tasks, TasksOf(f.w.info, Elems(Waiters(f, addr)[..k])), 0)
  {
    var f := FReached(es);
    hide FReached, Inv, WakeUp, Waiters, Distinct, Release, TasksOf;
    WakeUpRefines(f, addr, count, a);
    WakeUpTasks(f, addr, count);
  }

  /** In every reachable state, futex_wake takes exactly the first waiters of the address and releases
      their tasks, with result 0; no other entry leaves and no other task changes. */
  lemma WakeUpTasks(f: FSys, addr: nat, count: int)
    requires FInv(f)
    ensures var (f', k) := WakeUp(f, addr, count);
            && k <= |Waiters(f, addr)|
            && f'.w.info == f.w.info - Elems(Waiters(f, addr)[..k])
            && f'.w.tasks == Release(f.w.tasks, TasksOf(f.w.info, Elems(Waiters(f, addr)[..k])), 0)
  {
    hide Inv, Release, TasksOf, Distinct;
    WakeUpRefines(f, addr, count, addr);
    var j := ActiveFrom(f.slots, addr, 0);
    if j < FUTEX_MAX {
      WakeManyTasks(f.w, j, Woken(count, |f.w.chains[j]|));
    } else {
      WakeNone(f.w);
      assert Elems<nat>([]) == {};
    }
  }

  // ---- the table itself ----

  class FutexTable {
    const wq: WaitQueueTable
    const slots: array<Slot>

    ghost predicate Valid()
      reads this, slots, wq, wq.pool
    {
      wq.Valid() && TableOk(slots[..], wq.chains)
    }

    ghost function Abs(): FSys
      reads this, slots, wq, wq.pool, wq.tasks
    {
      FSys(wq.Abs(), slots[..])
    }

    /** futex_init */
    constructor (wq: WaitQueueTable)
      requires wq.Valid() && forall q :: q in wq.chains ==> q >= FUTEX_MAX
      modifies wq`heads, wq`chains
      ensures this.wq == wq && fresh(slots) && Valid() && Abs() == FInit(old(wq.Abs()))
      ensures old(Inv(wq.Abs())) ==> FInv(Abs())
      ensures forall addr :: Waiters(Abs(), addr) == []
    {
      hide InfoOf, Shape, WithQueues, Inv, TableOk, Waiters;
      this.wq := wq;
      slots := new Slot[FUTEX_MAX](i => Slot(0, false));
      new;
      ghost var w := wq.Abs();
      WithQueuesStep(w.chains, 0);
      var i := 0;
      while i < FUTEX_MAX
        invariant 0 <= i <= FUTEX_MAX && wq.Valid() && wq.Abs() == w.(chains := WithQueues(w.chains, i))
        invariant forall j :: 0 <= j < FUTEX_MAX ==> slots[j] == Slot(0, false)
      {
        WithQueuesAt(w.chains, i, i);
        WithQueuesStep(w.chains, i);
        wq.WqInit(i);
        i := i + 1;
      }
      assert slots[..] == FInit(w).slots;
      FInitTable(w.chains);
      if Inv(w) { FInitInv(w); }
      forall addr ensures Waiters(Abs(), addr) == [] {
        NobodyWaits(Abs(), addr);
      }
    }

    /** find_slot: the active slot of addr, or a fresh one when create asks for it; -1 otherwise. */
    method Find(addr: nat, create: bool) returns (slot: int)
      requires Valid()
      modifies slots, wq`heads, wq`chains
      ensures Valid()
      ensures create ==> var (f', j) := FindSlot(old(Abs()), addr);
                         Abs() == f' && slot == if j == FUTEX_MAX then -1 else j
      ensures !create ==> var j := ActiveFrom(old(slots[..]), addr, 0);
                          Abs() == old(Abs()) && slot == if j == FUTEX_MAX then -1 else j
    {
      hide FreeSlotFrom, ActiveFrom, InfoOf, Distinct, Linked;
      FindSlotKeeps(Abs(), addr, addr);
      var freeSlot;
      slot, freeSlot := Search(addr);
      if slot < 0 && create && freeSlot >= 0 {
        slots[freeSlot] := Slot(addr, true);
        wq.WqInit(freeSlot);
        slot := freeSlot;
      }
    }

    /** The loop of find_slot. */
    method Search(addr: nat) returns (slot: int, freeSlot: int)
      requires slots.Length == FUTEX_MAX
      ensures var j := ActiveFrom(slots[..], addr, 0); slot == if j == FUTEX_MAX then -1 else j
      ensures slot < 0 ==> var k := FreeSlotFrom(slots[..], 0); freeSlot == if k == FUTEX_MAX then -1 else k
    {
      hide FreeSlotFrom, ActiveFrom;
      freeSlot := -1;
      var i := 0;
      while i < FUTEX_MAX
        invariant 0 <= i <= FUTEX_MAX
        invariant ActiveFrom(slots[..], addr, 0) == ActiveFrom(slots[..], addr, i)
        invariant if freeSlot < 0 then freeSlot == -1 && FreeSlotFrom(slots[..], 0) == FreeSlotFrom(slots[..], i)
                  else FreeSlotFrom(slots[..], 0) == freeSlot < FUTEX_MAX
      {
        ActiveStep(slots[..], addr, i);
        if slots[i].active && slots[i].addr == addr {
          return i, freeSlot;
        }
        if !slots[i].active && freeSlot < 0 {
          freeSlot := i;
        }
        i := i + 1;
      }
      ActiveStep(slots[..], addr, FUTEX_MAX);
      return -1, freeSlot;
    }

    /** maybe_free_slot */
    method MaybeFree(slot: nat)
      requires Valid() && slot < FUTEX_MAX
      modifies slots
      ensures Valid() && Abs() == Clean(old(Abs()), slot)
    {
      hide InfoOf;
      CleanKeeps(Abs(), slot, 0);
      assert Linked(wq.pool[..], wq.heads[slot], wq.chains[slot], slot);
      if wq.heads[slot] < 0 {
        slots[slot] := slots[slot].(active := false);
      }
    }

    /** futex_wait (timeout 0) and futex_wait_timeout up to the point where the task blocks; first
        and second are the two reads of the word. */
    method WaitUntilBlocked(addr: nat, expected: nat, first: nat, second: nat, tid: int, timed: bool, n: nat)
      returns (queued: bool)
      requires Valid()
      modifies slots, wq`heads, wq`chains, wq.pool, wq.tasks
      ensures Valid()
      ensures (Abs(), queued) ==
              Enter(old(Abs()), addr, expected, first, second, tid, if timed then (wq.ticks + n) % TWO64 else 0)
      ensures queued <==> first == expected && second == expected &&
                          (HasSlot(old(slots[..]), addr) || SomeIdle(old(slots[..])))
    {
      hide FreeSlotFrom, ActiveFrom, InfoOf, Distinct, FindSlot, Wait, Clean, Waiters, Shape, FreeFrom, Release,
           HasSlot, SomeIdle;
      ghost var f := Abs();
      ghost var timeout := if timed then (wq.ticks + n) % TWO64 else 0;
      EnterRefines(f, addr, expected, first, second, tid, timeout, addr);
      EnterQueuesIff(f, addr, expected, first, second, tid, timeout);
      if first != expected {
        return false;
      }
      var slot := Find(addr, true);
      if slot < 0 {
        return false;
      }
      if second != expected {
        MaybeFree(slot);
        return false;
      }
      if timed {
        wq.WqWaitTimeout(slot, tid, n);
      } else {
        wq.WqWait(slot, tid);
      }
      return true;
    }

    /** futex_wake */
    method Wake(addr: nat, count: int) returns (woken: int)
      requires Valid()
      modifies slots, wq`heads, wq`chains, wq.pool, wq.tasks
      ensures Valid() && (Abs(), woken) == WakeUp(old(Abs()), addr, count)
    {
      hide ActiveFrom, InfoOf, Distinct, Waiters, Shape, WakeOne, WakeMany, Clean;
      ghost var f := Abs();
      WakeUpRefines(f, addr, count, addr);
      var slot := Find(addr, false);
      if slot < 0 {
        return 0;
      }
      ghost var k := Woken(count, |wq.chains[slot]|);
      woken := 0;
      WakeManyZero(f.w, slot);
      HeadOfChain(wq, slot);
      while woken < count && wq.heads[slot] >= 0
        invariant 0 <= woken <= k && Valid() && slots[..] == f.slots && wq.ticks == f.w.ticks
        invariant slot in wq.chains && wq.chains[slot] == f.w.chains[slot][woken..]
        invariant slot in wq.heads && (wq.heads[slot] < 0 <==> wq.chains[slot] == [])
        invariant wq.Abs() == WakeMany(f.w, slot, woken)
        decreases k - woken
      {
        WakeManyNext(f.w, slot, woken);
        WakeOneKeepsTable(f.slots, wq.Abs(), slot);
        wq.WqWakeOne(slot);
        HeadOfChain(wq, slot);
        woken := woken + 1;
      }
      assert woken == k;
      MaybeFree(slot);
    }
  }

  lemma NobodyWaits(f: FSys, addr: nat)
    requires TableOk(f.slots, f.w.chains) && forall j :: 0 <= j < |f.slots| ==> !f.slots[j].active
    ensures Waiters(f, addr) == []
  {
    hide ActiveFrom;
    ActiveNone(f.slots, addr);
  }

  lemma WithQueuesStep(chains: Chains, n: nat)
    ensures WithQueues(chains, 0) == chains && WithQueues(chains, n + 1) == WithQueues(chains, n)[n := []]
  {
  }

  lemma ActiveStep(slots: seq<Slot>, addr: nat, i: nat)
    requires i <= |slots|
    ensures ActiveFrom(slots, addr, i) ==
            if i == |slots| || (slots[i].active && slots[i].addr == addr) then i else ActiveFrom(slots, addr, i + 1)
    ensures FreeSlotFrom(slots, i) == if i == |slots| || !slots[i].active then i else FreeSlotFrom(slots, i + 1)
  {
  }

  lemma HeadOfChain(wq: WaitQueueTable, q: nat)
    requires wq.Valid() && q in wq.chains
    ensures q in wq.heads && (wq.heads[q] < 0 <==> wq.chains[q] == [])
  {
    assert Linked(wq.pool[..], wq.heads[q], wq.chains[q], q);
  }

  lemma WakeManyZero(w: Sys, q: nat)
    requires q in w.chains
    ensures WakeMany(w, q, 0) == w
  {
  }

  lemma {:induction false} WakeManyNext(w: Sys, q: nat, k: nat)
    requires q in w.chains
    ensures q in WakeMany(w, q, k).chains
    ensures WakeMany(w, q, k + 1) == WakeOne(WakeMany(w, q, k), q)
    decreases k
  {
    if k > 0 { WakeManyNext(WakeOne(w, q), q, k - 1); }
  }

  lemma WakeOneKeepsTable(slots: seq<Slot>, w: Sys, q: nat)
    requires TableOk(slots, w.chains) && q < FUTEX_MAX && w.chains[q] != []
    ensures TableOk(slots, WakeOne(w, q).chains)
    ensures WakeOne(w, q).chains[q] == w.chains[q][1..] && WakeOne(w, q).ticks == w.ticks
  {
  }
}
