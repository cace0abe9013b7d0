/** What the calls of kernel/futex.c do to the task that makes them, and to the slots: when a wait blocks,
    what it leaves behind, and when slots are given back. */
module FutexCalls {
  import opened Common
  import opened WaitQueues
  import opened WaitRuns
  import opened Futex

  /** Both reads found the expected value, and there is a slot for the address. */
  ghost predicate GoesOn(slots: seq<Slot>, addr: nat, expected: nat, first: nat, second: nat) {
    first == expected && second == expected && (HasSlot(slots, addr) || SomeIdle(slots))
  }

  /** Task t is blocked with reason 0 and holds entry i, which is the last waiter of addr; no other
      task, entry or address has changed. */
  ghost predicate Queued(f: FSys, f': FSys, addr: nat, t: int, timeout: nat, i: nat)
    requires TableOk(f.slots, f.w.chains) && TableOk(f'.slots, f'.w.chains)
  {
    && i < WQ_POOL_SIZE && i !in f.w.info && f'.w.info == f.w.info[i := Waiter(t, timeout)]
    && 0 <= t < |f.w.tasks| && f'.w.tasks == f.w.tasks[t := Task(Blocked, 0)] && f'.w.ticks == f.w.ticks
    && Waiters(f', addr) == Waiters(f, addr) + [i]
    && forall a :: a != addr ==> Waiters(f', a) == Waiters(f, a)
  }

  /** No task, no entry and no address's waiters have changed. */
  ghost predicate NobodyMoved(f: FSys, f': FSys)
    requires TableOk(f.slots, f.w.chains) && TableOk(f'.slots, f'.w.chains)
  {
    f'.w == f.w && forall a :: Waiters(f', a) == Waiters(f, a)
  }

  /** futex_wait and futex_wait_timeout up to the point where the task blocks, for a running task: it
      blocks exactly when both reads found the expected value, there is a slot and the pool has room. */
  lemma EnterEffect(f: FSys, addr: nat, expected: nat, first: nat, second: nat, t: int, timeout: nat)
    requires FInv(f) && InState(f.w, t, Running)
    ensures FInv(Enter(f, addr, expected, first, second, t, timeout).0)
    ensures var f' := Enter(f, addr, expected, first, second, t, timeout).0;
            if GoesOn(f.slots, addr, expected, first, second) && PoolHasRoom(f.w)
            then exists i: nat :: Queued(f, f', addr, t, timeout, i)
            else NobodyMoved(f, f')
  {
    hide ActiveFrom, FreeSlotFrom, FreeFrom, Waiters, Inv, Distinct, Wait, FindSlot, HasSlot, SomeIdle, PoolHasRoom;
    var f' := Enter(f, addr, expected, first, second, t, timeout).0;
    EnterInv(f, addr, expected, first, second, t, timeout);
    EnterQueuesIff(f, addr, expected, first, second, t, timeout);
    EnterRefines(f, addr, expected, first, second, t, timeout, addr);
    forall a
      ensures Waiters(f', a) ==
              if GoesOn(f.slots, addr, expected, first, second) && a == addr && PoolHasRoom(f.w)
              then Waiters(f, a) + [FreeFrom(f.w.info.Keys, WQ_POOL_SIZE, 0)] else Waiters(f, a)
    {
      EnterRefines(f, addr, expected, first, second, t, timeout, a);
      WaitEffect(f.w, 0, t, timeout);
    }
    if GoesOn(f.slots, addr, expected, first, second) {
      FindSlotKeeps(f, addr, addr);
      var (f1, j) := FindSlot(f, addr);
      WaitEffect(f1.w, j, t, timeout);
      if PoolHasRoom(f.w) {
        assert Queued(f, f', addr, t, timeout, FreeFrom(f.w.info.Keys, WQ_POOL_SIZE, 0));
      }
    }
  }

  /** In every run from futex_init: a running task that waits on an address is blocked afterwards exactly
      when both reads found the expected value, there is a slot for the address and the pool has room;
      then it is the last waiter of the address, and otherwise nothing changes for anybody. */
  lemma AlwaysBlocksIff(es: seq<FEvent>, addr: nat, expected: nat, first: nat, second: nat, t: int, timed: bool, n: nat)
    requires InState(FReached(es).w, t, Running)
    ensures var f := FReached(es);
            var e := if timed then FWaitFor(addr, expected, first, second, t, n)
                     else FWait(addr, expected, first, second, t);
            var timeout := if timed then (f.w.ticks + n) % TWO64 else 0;
            var f' := FStep(f, e);
            && FInv(f')
            && (InState(f'.w, t, Blocked) <==>
                  first == expected && second == expected &&
                  (HasSlot(f.slots, addr) || SomeIdle(f.slots)) && PoolHasRoom(f.w))
            && (if InState(f'.w, t, Blocked) then exists i: nat :: Queued(f, f', addr, t, timeout, i)
                else NobodyMoved(f, f'))
  {
    hide FReached, FInv, Enter, Waiters, HasSlot, SomeIdle, PoolHasRoom;
    var f := FReached(es);
    EnterEffect(f, addr, expected, first, second, t, if timed then (f.w.ticks + n) % TWO64 else 0);
  }

  /** After futex_wake the slot of the address is still taken exactly when waiters remain. */
  lemma WakeFreesSlot(f: FSys, addr: nat, count: int)
    requires FInv(f) && HasSlot(f.slots, addr)
    ensures var f' := WakeUp(f, addr, count).0;
            TableOk(f'.slots, f'.w.chains) && (HasSlot(f'.slots, addr) <==> Waiters(f', addr) != [])
  {
    hide Inv, WakeMany, ActiveFrom;
    WakeUpRefines(f, addr, count, addr);
    var j := ActiveFrom(f.slots, addr, 0);
    var k := Woken(count, |f.w.chains[j]|);
    WakeManyChains(f.w, j, k);
    var f1 := f.(w := WakeMany(f.w, j, k));
    CleanFrees(f1, j);
    var f' := WakeUp(f, addr, count).0;
    if f'.slots[j].active { ActiveUnique(f'.slots, addr, j); } else { ActiveNone(f'.slots, addr); }
  }
}
