/** The ticket lock of kernel/spinlock.h as a transition system: taking a ticket, finding it served,
    and unlocking are atomic steps of any number of processors. The counters are kept modulo m,
    which is 2^32 in the kernel. */
module TicketLock {
  import opened Bits
  import opened Common

  /** Where a processor is: outside, spinning with a ticket, or in the critical section with it. */
  datatype Pc = Out | Spinning(ticket: nat) | Inside(ticket: nat)

  datatype Lock = Lock(owner: nat, next: nat, pcs: seq<Pc>)

  /** A counter value modulo m. */
  function Wrap(x: nat, m: nat): nat
    requires 0 < m
  {
    x % m
  }

  datatype Event = TakeTicket(p: nat) | Enter(p: nat) | Unlock(p: nat)

  function Step(l: Lock, m: nat, e: Event): Lock
    requires 0 < m
  {
    match e
    case TakeTicket(p) =>
      if p < |l.pcs| && l.pcs[p] == Out
      then l.(pcs := l.pcs[p := Spinning(l.next)], next := Wrap(l.next + 1, m)) else l
    case Enter(p) =>
      if p < |l.pcs| && l.pcs[p].Spinning? && l.pcs[p].ticket == l.owner
      then l.(pcs := l.pcs[p := Inside(l.owner)]) else l
    case Unlock(p) =>
      if p < |l.pcs| && l.pcs[p].Inside? then l.(pcs := l.pcs[p := Out], owner := Wrap(l.owner + 1, m)) else l
  }

  /** The outstanding tickets in order of arrival, by processor. */
  function StepQueue(l: Lock, queue: seq<nat>, e: Event): seq<nat> {
    match e
    case TakeTicket(p) => if p < |l.pcs| && l.pcs[p] == Out then queue + [p] else queue
    case Enter(p) => queue
    case Unlock(p) => if p < |l.pcs| && l.pcs[p].Inside? && queue != [] then queue[1..] else queue
  }

  // ---- the invariant ----

  /** The k-th in the queue has the k-th ticket from owner on, and only the first may be inside. */
  ghost predicate Holds(l: Lock, m: nat, queue: seq<nat>, k: nat)
    requires 0 < m && k < |queue|
  {
    && queue[k] < |l.pcs| && l.pcs[queue[k]] != Out && l.pcs[queue[k]].ticket == Wrap(l.owner + k, m)
    && (l.pcs[queue[k]].Inside? ==> k == 0)
  }

  /** Outstanding tickets are exactly owner .. next - 1 modulo m, one for each processor that is not
      outside. */
  ghost predicate Inv(l: Lock, m: nat, queue: seq<nat>) {
    && 0 < m && l.owner < m && l.next == Wrap(l.owner + |queue|, m)
    && NoDup(queue)
    && (forall k :: 0 <= k < |queue| ==> Holds(l, m, queue, k))
    && (forall p :: 0 <= p < |l.pcs| && l.pcs[p] != Out ==> p in queue)
  }

  lemma ModSame(a: nat, k: nat, m: nat)
    requires a < m && k < m
    ensures Wrap(a + k, m) == a <==> k == 0
  {
    ModSmall(a, m);
    if k > 0 { ModDiffers(a, a + k, m); }
  }

  lemma ModNext(a: nat, k: nat, m: nat)
    requires 0 < m
    ensures Wrap(Wrap(a + k, m) + 1, m) == Wrap(a + (k + 1), m)
    ensures Wrap(Wrap(a + 1, m) + k, m) == Wrap(a + (k + 1), m)
    ensures Wrap(a, m) < m
  {
    ModAdd(a + k, 1, m);
    ModAdd(a + 1, k, m);
  }

  // ---- the steps keep it ----

  lemma NotQueued(l: Lock, m: nat, queue: seq<nat>, p: nat)
    requires Inv(l, m, queue) && p < |l.pcs| && l.pcs[p] == Out
    ensures p !in queue
  {
    hide Wrap;
    forall k | 0 <= k < |queue| ensures queue[k] != p { assert Holds(l, m, queue, k); }
  }

  lemma TakeKeeps(l: Lock, m: nat, queue: seq<nat>, p: nat)
    requires Inv(l, m, queue) && p < |l.pcs| && l.pcs[p] == Out
    ensures Inv(Step(l, m, TakeTicket(p)), m, queue + [p])
  {
    ModNext(l.owner, |queue|, m);
    NotQueued(l, m, queue, p);
    hide Wrap;
    var l', queue' := Step(l, m, TakeTicket(p)), queue + [p];
    forall k | 0 <= k < |queue'| ensures Holds(l', m, queue', k) {
      if k < |queue| { assert Holds(l, m, queue, k) && queue[k] in queue; }
    }
    assert NoDup(queue') by { assert forall k :: 0 <= k < |queue| ==> queue[k] in queue; }
    hide Holds, NoDup;
  }

  /** Only the first in the queue can find its ticket served. */
  lemma EnterIsFirst(l: Lock, m: nat, queue: seq<nat>, p: nat)
    requires Inv(l, m, queue) && |l.pcs| <= m
    requires p < |l.pcs| && l.pcs[p] != Out && l.pcs[p].ticket == l.owner
    ensures queue != [] && queue[0] == p
  {
    forall k | 0 <= k < |queue| ensures queue[k] < |l.pcs| { assert Holds(l, m, queue, k); }
    Pigeonhole(queue, |l.pcs|);
    var k :| 0 <= k < |queue| && queue[k] == p;
    assert Holds(l, m, queue, k);
    ModSame(l.owner, k, m);
  }

  lemma EnterKeeps(l: Lock, m: nat, queue: seq<nat>, p: nat)
    requires Inv(l, m, queue) && |l.pcs| <= m
    requires p < |l.pcs| && l.pcs[p].Spinning? && l.pcs[p].ticket == l.owner
    ensures Inv(Step(l, m, Enter(p)), m, queue)
  {
    EnterIsFirst(l, m, queue, p);
    var l' := Step(l, m, Enter(p));
    forall k | 0 <= k < |queue| ensures Holds(l', m, queue, k) {
      assert Holds(l, m, queue, k);
    }
  }

  lemma InsideIsFirst(l: Lock, m: nat, queue: seq<nat>, p: nat)
    requires Inv(l, m, queue) && p < |l.pcs| && l.pcs[p].Inside?
    ensures queue != [] && queue[0] == p
  {
    var k :| 0 <= k < |queue| && queue[k] == p;
    assert Holds(l, m, queue, k);
  }

  lemma UnlockKeeps(l: Lock, m: nat, queue: seq<nat>, p: nat)
    requires Inv(l, m, queue) && p < |l.pcs| && l.pcs[p].Inside?
    ensures queue != [] && Inv(Step(l, m, Unlock(p)), m, queue[1..])
  {
    hide Wrap;
    InsideIsFirst(l, m, queue, p);
    ModNext(l.owner + 1, 0, m);
    var l', queue' := Step(l, m, Unlock(p)), queue[1..];
    forall k | 0 <= k < |queue'| ensures Holds(l', m, queue', k) {
      assert Holds(l, m, queue, k + 1);
      ModNext(l.owner, k, m);
    }
    ModNext(l.owner, |queue'|, m);
    forall r | 0 <= r < |l'.pcs| && l'.pcs[r] != Out ensures r in queue' {
      assert r in queue && r != queue[0];
    }
  }

  lemma StepKeeps(l: Lock, m: nat, queue: seq<nat>, e: Event)
    requires Inv(l, m, queue) && |l.pcs| <= m
    ensures Inv(Step(l, m, e), m, StepQueue(l, queue, e)) && |Step(l, m, e).pcs| == |l.pcs|
  {
    hide Holds, NoDup;
    match e
    case TakeTicket(p) => if p < |l.pcs| && l.pcs[p] == Out { TakeKeeps(l, m, queue, p); }
    case Enter(p) =>
      if p < |l.pcs| && l.pcs[p].Spinning? && l.pcs[p].ticket == l.owner { EnterKeeps(l, m, queue, p); }
    case Unlock(p) => if p < |l.pcs| && l.pcs[p].Inside? { UnlockKeeps(l, m, queue, p); }
  }

  /** Every state of a run, with the queue of outstanding tickets. */
  ghost function Run(l: Lock, m: nat, queue: seq<nat>, es: seq<Event>): (r: (Lock, seq<nat>))
    requires Inv(l, m, queue) && |l.pcs| <= m
    ensures Inv(r.0, m, r.1) && |r.0.pcs| == |l.pcs|
    decreases |es|
  {
    if es == [] then (l, queue)
    else
      StepKeeps(l, m, queue, es[0]);
      Run(Step(l, m, es[0]), m, StepQueue(l, queue, es[0]), es[1..])
  }

  ghost predicate Exclusive(l: Lock) {
    forall p, r :: 0 <= p < r < |l.pcs| ==> !(l.pcs[p].Inside? && l.pcs[r].Inside?)
  }

  /** At most one processor is inside, in every state of every run. */
  lemma MutualExclusion(l: Lock, m: nat, queue: seq<nat>, es: seq<Event>)
    requires Inv(l, m, queue) && |l.pcs| <= m
    ensures Exclusive(Run(l, m, queue, es).0)
  {
    hide Run;
    var (l', queue') := Run(l, m, queue, es);
    forall p, r | 0 <= p < r < |l'.pcs| ensures !(l'.pcs[p].Inside? && l'.pcs[r].Inside?) {
      if l'.pcs[p].Inside? && l'.pcs[r].Inside? {
        InsideIsFirst(l', m, queue', p);
        InsideIsFirst(l', m, queue', r);
      }
    }
  }

  /** Outstanding tickets are distinct. */
  lemma TicketsDistinct(l: Lock, m: nat, queue: seq<nat>, p: nat, r: nat)
    requires Inv(l, m, queue) && |l.pcs| <= m && p < |l.pcs| && r < |l.pcs| && p != r
    requires l.pcs[p] != Out && l.pcs[r] != Out
    ensures l.pcs[p].ticket != l.pcs[r].ticket
  {
    hide Wrap, Holds;
    forall k | 0 <= k < |queue| ensures queue[k] < |l.pcs| { HasTicket(l, m, queue, k); }
    Pigeonhole(queue, |l.pcs|);
    var j :| 0 <= j < |queue| && queue[j] == p;
    var k :| 0 <= k < |queue| && queue[k] == r;
    HasTicket(l, m, queue, j);
    HasTicket(l, m, queue, k);
    if j < k {
      ModApart(l.owner, j, k, m);
    } else {
      ModApart(l.owner, k, j, m);
    }
  }

  lemma ModApart(a: nat, j: nat, k: nat, m: nat)
    requires a < m && j < k < m
    ensures Wrap(a + j, m) != Wrap(a + k, m)
  {
    ModDiffers(a + j, a + k, m);
  }

  // ---- order and waiting time ----

  function Releases(l: Lock, m: nat, es: seq<Event>): nat
    requires 0 < m
    decreases |es|
  {
    if es == [] then 0
    else
      (if es[0].Unlock? && es[0].p < |l.pcs| && l.pcs[es[0].p].Inside? then 1 else 0)
      + Releases(Step(l, m, es[0]), m, es[1..])
  }

  /** The processor at position k moves up by one place for every release, so it is first, and finds
      its ticket served, after exactly k releases; k is its ticket minus owner, modulo m. */
  lemma {:induction false} MovesUp(l: Lock, m: nat, queue: seq<nat>, es: seq<Event>, k: nat)
    requires 0 < m && Inv(l, m, queue) && |l.pcs| <= m && k < |queue| && Releases(l, m, es) <= k
    ensures var (l', queue') := Run(l, m, queue, es);
            && k - Releases(l, m, es) < |queue'| && queue'[k - Releases(l, m, es)] == queue[k]
    decreases |es|
  {
    hide Inv, Step, StepQueue;
    if es != [] {
      StepKeeps(l, m, queue, es[0]);
      QueueShifts(l, m, queue, es[0], k);
      var d := if es[0].Unlock? && es[0].p < |l.pcs| && l.pcs[es[0].p].Inside? then 1 else 0;
      MovesUp(Step(l, m, es[0]), m, StepQueue(l, queue, es[0]), es[1..], k - d);
    }
  }

  lemma QueueShifts(l: Lock, m: nat, queue: seq<nat>, e: Event, k: nat)
    requires Inv(l, m, queue) && k < |queue|
    ensures var d := if e.Unlock? && e.p < |l.pcs| && l.pcs[e.p].Inside? then 1 else 0;
            k >= d ==> k - d < |StepQueue(l, queue, e)| && StepQueue(l, queue, e)[k - d] == queue[k]
  {
  }

  /** In every reachable state, a spinning processor finds its ticket served exactly when it is the
      first of the queue. */
  lemma ServedIffFirst(l: Lock, m: nat, queue: seq<nat>, k: nat)
    requires Inv(l, m, queue) && |l.pcs| <= m && k < |queue|
    ensures queue[k] < |l.pcs| && l.pcs[queue[k]] != Out
    ensures l.pcs[queue[k]].ticket == l.owner <==> k == 0
  {
    forall j | 0 <= j < |queue| ensures queue[j] < |l.pcs| { assert Holds(l, m, queue, j); }
    Pigeonhole(queue, |l.pcs|);
    assert Holds(l, m, queue, k);
    ModSame(l.owner, k, m);
  }

  /** A processor whose ticket is k ahead of owner finds it served after exactly k releases, whatever
      happens in between, across the wrap-around of the counters. */
  lemma WaitingTime(l: Lock, m: nat, queue: seq<nat>, es: seq<Event>, k: nat)
    requires 0 < m && Inv(l, m, queue) && |l.pcs| <= m && k < |queue| && Releases(l, m, es) <= k
    ensures queue[k] < |l.pcs| && l.pcs[queue[k]] != Out && l.pcs[queue[k]].ticket == Wrap(l.owner + k, m)
    ensures var l' := Run(l, m, queue, es).0;
            && queue[k] < |l'.pcs| && l'.pcs[queue[k]] != Out
            && (l'.pcs[queue[k]].ticket == l'.owner <==> Releases(l, m, es) == k)
  {
    hide Run, Releases, Wrap, Inv, Holds;
    HasTicket(l, m, queue, k);
    MovesUp(l, m, queue, es, k);
    var (l', queue') := Run(l, m, queue, es);
    ServedIffFirst(l', m, queue', k - Releases(l, m, es));
  }

  lemma HasTicket(l: Lock, m: nat, queue: seq<nat>, k: nat)
    requires Inv(l, m, queue) && k < |queue|
    ensures queue[k] < |l.pcs| && l.pcs[queue[k]] != Out && l.pcs[queue[k]].ticket == Wrap(l.owner + k, m)
  {
    assert Holds(l, m, queue, k);
  }

  // ---- with too many processors ----

  function Play(l: Lock, m: nat, es: seq<Event>): Lock
    requires 0 < m
    decreases |es|
  {
    if es == [] then l else Play(Step(l, m, es[0]), m, es[1..])
  }

  /** The state after processors 0 .. k - 1 of n took a ticket. */
  function Crowd(n: nat, k: nat, m: nat): Lock
    requires 0 < m && k <= n
  {
    Lock(0, k % m, seq(n, p requires 0 <= p < n => if p < k then Spinning(p % m) else Out))
  }

  lemma CrowdStep(n: nat, k: nat, m: nat)
    requires 0 < m && k < n
    ensures Step(Crowd(n, k, m), m, TakeTicket(k)) == Crowd(n, k + 1, m)
  {
    ModAdd(k, 1, m);
    assert Crowd(n, k, m).pcs[k := Spinning(k % m)] == Crowd(n, k + 1, m).pcs;
  }

  function TakesFrom(k: nat, n: nat): (es: seq<Event>)
    requires k <= n
    decreases n - k
  {
    if k == n then [] else [TakeTicket(k)] + TakesFrom(k + 1, n)
  }

  lemma PlayCons(l: Lock, m: nat, e: Event, es: seq<Event>)
    requires 0 < m
    ensures Play(l, m, [e] + es) == Play(Step(l, m, e), m, es)
  {
    hide Step;
    assert ([e] + es)[1..] == es;
  }

  lemma {:induction false} CrowdComes(n: nat, k: nat, j: nat, m: nat, more: seq<Event>)
    requires 0 < m && k <= j <= n
    ensures Play(Crowd(n, k, m), m, TakesFrom(k, j) + more) == Play(Crowd(n, j, m), m, more)
    decreases j - k
  {
    hide Crowd, Step, Play;
    if k == j {
      assert TakesFrom(k, j) + more == more;
    } else {
      CrowdStep(n, k, m);
      CrowdComes(n, k + 1, j, m, more);
      var rest := TakesFrom(k + 1, j) + more;
      assert TakesFrom(k, j) + more == [TakeTicket(k)] + rest;
      PlayCons(Crowd(n, k, m), m, TakeTicket(k), rest);
    }
  }

  /** With more processors than tickets, the lock does not exclude: processors 0 and m get the same
      ticket and are inside together. */
  lemma TooManyProcessors(n: nat, m: nat)
    requires 0 < m < n
    ensures !Exclusive(Play(Crowd(n, 0, m), m, TakesFrom(0, m + 1) + [Enter(0), Enter(m)]))
  {
    var l := Crowd(n, m + 1, m);
    CrowdComes(n, 0, m + 1, m, [Enter(0), Enter(m)]);
    assert l.pcs[0] == Spinning(0) && l.pcs[m] == Spinning(0);
    var l1 := Step(l, m, Enter(0));
    var l2 := Step(l1, m, Enter(m));
    assert Play(l2, m, []) == l2;
    assert Play(l1, m, [Enter(m)]) == l2;
    assert [Enter(0), Enter(m)][1..] == [Enter(m)];
    assert Play(l, m, [Enter(0), Enter(m)]) == l2;
    assert l2.pcs[0].Inside? && l2.pcs[m].Inside?;
  }

  lemma {:induction false} PlayIsRun(l: Lock, m: nat, queue: seq<nat>, es: seq<Event>)
    requires 0 < m && Inv(l, m, queue) && |l.pcs| <= m
    ensures Play(l, m, es) == Run(l, m, queue, es).0
    decreases |es|
  {
    hide Inv, Step, StepQueue;
    if es != [] {
      StepKeeps(l, m, queue, es[0]);
      PlayIsRun(Step(l, m, es[0]), m, StepQueue(l, queue, es[0]), es[1..]);
    }
  }

  /** From the initial lock, n processors exclude each other in every run if and only if there are at
      least as many tickets as processors. */
  lemma ExclusiveIff(n: nat, m: nat)
    requires 0 < m
    ensures (forall es :: Exclusive(Play(Crowd(n, 0, m), m, es))) <==> n <= m
  {
    hide Play, Exclusive, TakesFrom;
    if n <= m {
      var l := Crowd(n, 0, m);
      assert Inv(l, m, []);
      forall es ensures Exclusive(Play(l, m, es)) {
        PlayIsRun(l, m, [], es);
        MutualExclusion(l, m, [], es);
      }
    } else {
      TooManyProcessors(n, m);
    }
  }

  // ---- the lock itself ----

  /** struct spinlock. The queue is the ghost record of who holds which ticket. */
  class SpinLock {
    var owner: nat
    var next: nat

    ghost predicate Matches(l: Lock)
      reads this
    {
      owner == l.owner && next == l.next
    }

    /** spin_init */
    constructor ()
      ensures owner == 0 && next == 0
    {
      owner, next := 0, 0;
    }

    /** The first half of spin_lock: fetch and increment next. */
    method FetchTicket(p: nat, ghost l: Lock) returns (ticket: nat)
      requires Matches(l) && p < |l.pcs| && l.pcs[p] == Out
      modifies this
      ensures Matches(Step(l, TWO32, TakeTicket(p)))
      ensures Step(l, TWO32, TakeTicket(p)).pcs[p] == Spinning(ticket)
    {
      ticket := next;
      next := (next + 1) % TWO32;
    }

    /** One test of the spin loop. When it succeeds the processor is the first of the queue. */
    method Served(p: nat, ticket: nat, ghost l: Lock, ghost queue: seq<nat>) returns (enter: bool)
      requires Matches(l) && Inv(l, TWO32, queue) && |l.pcs| <= TWO32
      requires p < |l.pcs| && l.pcs[p] == Spinning(ticket)
      ensures enter <==> queue != [] && queue[0] == p
      ensures Matches(Step(l, TWO32, Enter(p)))
      ensures enter <==> Step(l, TWO32, Enter(p)).pcs[p].Inside?
    {
      hide NoDup;
      enter := owner == ticket;
      if enter {
        EnterIsFirst(l, TWO32, queue, p);
      } else if queue != [] && queue[0] == p {
        ServedIffFirst(l, TWO32, queue, 0);
      }
    }

    /** spin_unlock */
    method Release(p: nat, ghost l: Lock)
      requires Matches(l) && p < |l.pcs| && l.pcs[p].Inside?
      modifies this
      ensures Matches(Step(l, TWO32, Unlock(p)))
    {
      owner := (owner + 1) % TWO32;
    }
  }
}
