/** The split virtqueue of kernel/virtio.c (section 2.6 of VIRTIO 1.1): a descriptor table with a free
    list inside it, and two rings with 16-bit indices that wrap. Driver steps are interleaved with
    the steps of a conforming device. */
module Virtqueue {
  import opened Bits
  import opened Common

  const WRAP: nat := 0x1_0000
  const NO_DESC: nat := 0xFFFF

  datatype Desc = Desc(addr: nat, len: nat, flags: nat, next: nat)

  /** An element of the used ring. */
  datatype Elem = Elem(id: nat, len: nat)

  /** A completion: the used element, and what the device wrote into the buffer. */
  datatype Completion = Completion(elem: Elem, data: int)

  /** The shared memory of a queue, the driver's two variables and the device's position in the
      available ring. mem holds the contents of the buffers. */
  datatype Queue = Queue(desc: seq<Desc>, freeHead: nat, lastUsed: nat,
                         availRing: seq<nat>, availIdx: nat,
                         usedRing: seq<Elem>, usedIdx: nat,
                         devSeen: nat, mem: map<nat, int>)

  /** Where every descriptor is: free in list order, available in ring order, held by the device, or
      used in ring order. */
  datatype View = View(free: seq<nat>, avail: seq<nat>, held: set<nat>, used: seq<Completion>)

  // ---- ring arithmetic ----

  /** The place of index x, which the driver keeps modulo 2^16, in a ring of num places. */
  function Place(x: nat, num: nat): (r: nat)
    requires 0 < num
    ensures r < num
  {
    x % WRAP % num
  }

  /** Indices less than num apart have different places, wherever the indices wrap. */
  ghost predicate RingSafe(num: nat)
    requires 0 < num
  {
    forall x, y :: 0 <= x < y < x + num ==> Place(x, num) != Place(y, num)
  }

  lemma ModMod(x: nat, num: nat)
    requires 0 < num && WRAP % num == 0
    ensures x % WRAP % num == x % num
  {
    var m := WRAP / num;
    assert WRAP == num * m;
    var q, r := x / WRAP, x % WRAP;
    var q', r' := r / num, r % num;
    assert x == WRAP * q + r;
    assert WRAP * q == num * (m * q) by { assert (num * m) * q == num * (m * q); }
    assert x == num * (m * q + q') + r' by { assert num * (m * q) + num * q' == num * (m * q + q'); }
    DivModUnique(x, num, m * q + q', r');
  }

  lemma PlaceDistinct(x: nat, y: nat, num: nat)
    requires 0 < num && WRAP % num == 0 && x < y < x + num
    ensures Place(x, num) != Place(y, num)
  {
    ModMod(x, num);
    ModMod(y, num);
    ModDiffers(x, y, num);
  }

  /** The wrapping indices are safe exactly when the queue size divides 2^16, which a power of two
      does; any other size makes two indices of one round share a place at the wrap. */
  lemma RingSafeIff(num: nat)
    requires 0 < num <= WRAP
    ensures RingSafe(num) <==> WRAP % num == 0
  {
    if WRAP % num == 0 {
      forall x, y | 0 <= x < y < x + num ensures Place(x, num) != Place(y, num) {
        PlaceDistinct(x, y, num);
      }
    } else {
      var r := WRAP % num;
      var x := WRAP - r;
      assert x == num * (WRAP / num);
      DivModUnique(x, num, WRAP / num, 0);
      assert Place(x, num) == 0 && Place(WRAP, num) == 0;
      assert x < WRAP < x + num;
    }
  }

  /** A size for which the ring arithmetic is right. */
  ghost predicate SizeOk(num: nat) {
    0 < num <= NO_DESC && WRAP % num == 0
  }

  // ---- how the memory represents the view ----

  ghost predicate NextAt(desc: seq<Desc>, free: seq<nat>, k: nat)
    requires k < |free|
  {
    free[k] < |desc| && desc[free[k]].next == if k + 1 < |free| then free[k + 1] else NO_DESC
  }

  /** The free list starts at head and is terminated by 0xFFFF. */
  ghost predicate FreeList(desc: seq<Desc>, head: nat, free: seq<nat>) {
    && head == (if free == [] then NO_DESC else free[0])
    && forall k :: 0 <= k < |free| ==> NextAt(desc, free, k)
  }

  ghost predicate HoldsAt<T>(ring: seq<T>, num: nat, start: nat, xs: seq<T>, k: nat)
    requires 0 < num == |ring| && k < |xs|
  {
    ring[Place(start + k, num)] == xs[k]
  }

  /** The ring holds xs from index start on. */
  ghost predicate Holds<T>(ring: seq<T>, num: nat, start: nat, xs: seq<T>)
    requires 0 < num == |ring|
  {
    forall k :: 0 <= k < |xs| ==> HoldsAt(ring, num, start, xs, k)
  }

  function UsedElems(cs: seq<Completion>): (es: seq<Elem>)
    ensures |es| == |cs| && forall k :: 0 <= k < |cs| ==> es[k] == cs[k].elem
  {
    seq(|cs|, k requires 0 <= k < |cs| => cs[k].elem)
  }

  function Ids(cs: seq<Completion>): (ids: seq<nat>)
    ensures |ids| == |cs| && forall k :: 0 <= k < |cs| ==> ids[k] == cs[k].elem.id
  {
    seq(|cs|, k requires 0 <= k < |cs| => cs[k].elem.id)
  }

  /** All descriptors, with the number of places each one is in. */
  ghost function Census(v: View): multiset<nat> {
    multiset(v.free) + multiset(v.avail) + multiset(v.held) + multiset(Ids(v.used))
  }

  /** Every descriptor is in exactly one place. */
  ghost predicate Conserved(v: View, num: nat) {
    forall d: nat :: Census(v)[d] == if d < num then 1 else 0
  }

  /** The sizes that virtq_setup_legacy gives to a queue of num descriptors. */
  ghost predicate Sizes(q: Queue, num: nat) {
    0 < num <= NO_DESC && |q.desc| == |q.availRing| == |q.usedRing| == num
  }

  /** Both rings still hold all their unread elements. */
  ghost predicate RingsHold(q: Queue, v: View, num: nat)
    requires Sizes(q, num)
  {
    Holds(q.availRing, num, q.devSeen, v.avail) && Holds(q.usedRing, num, q.lastUsed, UsedElems(v.used))
  }

  ghost predicate Represents(q: Queue, v: View, num: nat) {
    && SizeOk(num) && Sizes(q, num) && Conserved(v, num)
    && FreeList(q.desc, q.freeHead, v.free)
    && q.devSeen < WRAP && q.availIdx == (q.devSeen + |v.avail|) % WRAP
    && q.lastUsed < WRAP && q.usedIdx == (q.lastUsed + |v.used|) % WRAP
    && RingsHold(q, v, num)
  }

  // ---- the steps on memory ----

  /** virtq_push_buf: nothing when no descriptor is free. */
  function PushBuf(q: Queue, num: nat, buf: nat, len: nat, flags: nat): Queue
    requires 0 < num == |q.availRing| && (q.freeHead == NO_DESC || q.freeHead < |q.desc|)
  {
    if q.freeHead == NO_DESC then q
    else
      var head := q.freeHead;
      q.(freeHead := q.desc[head].next,
         desc := q.desc[head := Desc(buf, len, flags, 0)],
         availRing := q.availRing[Place(q.availIdx, num) := head],
         availIdx := (q.availIdx + 1) % WRAP)
  }

  /** virtq_has_used */
  predicate HasUsed(q: Queue) { q.usedIdx != q.lastUsed }

  /** virtq_pop_used, when there is a used element. */
  function PopUsed(q: Queue, num: nat): (r: (Queue, Elem))
    requires 0 < num == |q.usedRing| && q.usedRing[Place(q.lastUsed, num)].id < |q.desc|
  {
    var elem := q.usedRing[Place(q.lastUsed, num)];
    (q.(lastUsed := (q.lastUsed + 1) % WRAP,
        desc := q.desc[elem.id := q.desc[elem.id].(next := q.freeHead)],
        freeHead := elem.id), elem)
  }

  /** The device takes the next available descriptor. */
  function DevTake(q: Queue): Queue {
    q.(devSeen := (q.devSeen + 1) % WRAP)
  }

  /** The device has written data into the buffer of descriptor d and puts it on the used ring. */
  function DevComplete(q: Queue, num: nat, c: Completion): Queue
    requires 0 < num == |q.usedRing| && c.elem.id < |q.desc|
  {
    q.(usedRing := q.usedRing[Place(q.usedIdx, num) := c.elem],
       usedIdx := (q.usedIdx + 1) % WRAP,
       mem := q.mem[q.desc[c.elem.id].addr := c.data])
  }

  // ---- the same steps on the view ----

  function PushView(v: View): View {
    if v.free == [] then v else v.(free := v.free[1..], avail := v.avail + [v.free[0]])
  }

  function PopView(v: View): View
    requires v.used != []
  {
    v.(free := [v.used[0].elem.id] + v.free, used := v.used[1..])
  }

  function TakeView(v: View): View
    requires v.avail != []
  {
    v.(avail := v.avail[1..], held := v.held + {v.avail[0]})
  }

  function CompleteView(v: View, c: Completion): View {
    v.(held := v.held - {c.elem.id}, used := v.used + [c])
  }

  // ---- conservation ----

  /** The four places together hold num descriptors. */
  lemma CensusSize(v: View, num: nat)
    requires Conserved(v, num)
    ensures |v.free| + |v.avail| + |v.held| + |v.used| == num
  {
    assert Census(v) == multiset(UpTo(num));
    assert |Census(v)| == |multiset(UpTo(num))| == num;
  }

  lemma SeqSplit<T>(xs: seq<T>)
    requires xs != []
    ensures multiset(xs) == multiset{xs[0]} + multiset(xs[1..])
  {
    assert xs == [xs[0]] + xs[1..];
  }

  lemma PushConserves(v: View, num: nat)
    requires Conserved(v, num)
    ensures Conserved(PushView(v), num)
  {
    if v.free != [] {
      SeqSplit(v.free);
      assert Census(PushView(v)) == Census(v);
    }
  }

  lemma PopConserves(v: View, num: nat)
    requires Conserved(v, num) && v.used != []
    ensures Conserved(PopView(v), num)
  {
    assert Ids(v.used[1..]) == Ids(v.used)[1..];
    SeqSplit(Ids(v.used));
    assert Census(PopView(v)) == Census(v);
  }

  lemma TakeConserves(v: View, num: nat)
    requires Conserved(v, num) && v.avail != []
    ensures Conserved(TakeView(v), num) && v.avail[0] !in v.held && v.avail[0] < num
  {
    SeqSplit(v.avail);
    var d := v.avail[0];
    assert Census(v)[d] <= 1;
    assert d !in v.held;
    assert multiset(v.held + {d}) == multiset(v.held) + multiset{d};
    assert Census(TakeView(v)) == Census(v);
  }

  lemma CompleteConserves(v: View, num: nat, c: Completion)
    requires Conserved(v, num) && c.elem.id in v.held
    ensures Conserved(CompleteView(v, c), num) && c.elem.id < num
  {
    var d := c.elem.id;
    assert Census(v)[d] <= 1;
    assert multiset(v.held) == multiset(v.held - {d}) + multiset{d};
    assert Ids(v.used + [c]) == Ids(v.used) + [d];
    assert Census(CompleteView(v, c)) == Census(v);
  }

  /** A descriptor in one place is in no other, and not twice in a sequence. */
  lemma FreeIsApart(v: View, num: nat, k: nat)
    requires Conserved(v, num) && v.free != [] && 0 < k < |v.free|
    ensures v.free[k] != v.free[0]
  {
    SeqSplit(v.free);
    assert v.free[k] in multiset(v.free[1..]) by { assert v.free[k] == v.free[1..][k - 1]; }
    assert Census(v)[v.free[0]] <= 1;
  }

  lemma UsedIsNotFree(v: View, num: nat)
    requires Conserved(v, num) && v.used != []
    ensures v.used[0].elem.id < num && v.used[0].elem.id !in v.free
  {
    var d := v.used[0].elem.id;
    assert Ids(v.used)[0] == d && d in Ids(v.used);
    assert Census(v)[d] <= 1;
  }

  lemma FreeBound(v: View, num: nat)
    requires Conserved(v, num) && v.free != []
    ensures v.free[0] < num
  {
    assert v.free[0] in v.free;
    assert Census(v)[v.free[0]] >= 1;
  }

  // ---- the rings ----

  lemma PlaceWrap(x: nat, k: nat, num: nat)
    requires 0 < num
    ensures Place(x % WRAP + k, num) == Place(x + k, num)
  {
    assert (x % WRAP + k) % WRAP == (x + k) % WRAP;
  }

  /** Appending behind the last unread element overwrites no unread one. */
  lemma HoldsAppend<T>(ring: seq<T>, num: nat, start: nat, xs: seq<T>, x: T)
    requires SizeOk(num) && |ring| == num && Holds(ring, num, start, xs) && |xs| < num
    ensures Holds(ring[Place(start + |xs|, num) := x], num, start, xs + [x])
  {
    hide Place;
    var ring', xs' := ring[Place(start + |xs|, num) := x], xs + [x];
    forall k | 0 <= k < |xs'| ensures HoldsAt(ring', num, start, xs', k) {
      if k < |xs| {
        assert HoldsAt(ring, num, start, xs, k);
        PlaceDistinct(start + k, start + |xs|, num);
      }
    }
  }

  lemma HoldsTail<T>(ring: seq<T>, num: nat, start: nat, xs: seq<T>)
    requires 0 < num == |ring| && Holds(ring, num, start, xs) && xs != []
    ensures ring[Place(start, num)] == xs[0]
    ensures Holds(ring, num, (start + 1) % WRAP, xs[1..])
  {
    hide Place;
    assert HoldsAt(ring, num, start, xs, 0);
    var start', xs' := (start + 1) % WRAP, xs[1..];
    forall k | 0 <= k < |xs'| ensures HoldsAt(ring, num, start', xs', k) {
      PlaceWrap(start + 1, k, num);
      assert HoldsAt(ring, num, start, xs, k + 1);
      assert start + (k + 1) == start + 1 + k;
    }
  }

  // ---- the free list ----

  lemma FreeListHead(desc: seq<Desc>, head: nat, free: seq<nat>)
    requires FreeList(desc, head, free)
    ensures head == if free == [] then NO_DESC else free[0]
  {
  }

  lemma FreeListPop(desc: seq<Desc>, free: seq<nat>, d: Desc)
    requires free != [] && FreeList(desc, free[0], free)
    requires forall k :: 0 < k < |free| ==> free[k] != free[0]
    ensures free[0] < |desc| && FreeList(desc[free[0] := d], desc[free[0]].next, free[1..])
  {
    assert NextAt(desc, free, 0);
    var free', desc' := free[1..], desc[free[0] := d];
    forall k | 0 <= k < |free'| ensures NextAt(desc', free', k) {
      assert NextAt(desc, free, k + 1);
    }
  }

  lemma FreeListPush(desc: seq<Desc>, head: nat, free: seq<nat>, id: nat)
    requires FreeList(desc, head, free) && id < |desc| && id !in free
    ensures FreeList(desc[id := desc[id].(next := head)], id, [id] + free)
  {
    var free', desc' := [id] + free, desc[id := desc[id].(next := head)];
    forall k | 0 <= k < |free'| ensures NextAt(desc', free', k) {
      if k > 0 { assert NextAt(desc, free, k - 1) && free[k - 1] in free; }
    }
  }

  // ---- each step on memory is the step on the view ----

  lemma PushRefines(q: Queue, v: View, num: nat, buf: nat, len: nat, flags: nat)
    requires Represents(q, v, num)
    ensures q.freeHead == NO_DESC || q.freeHead < |q.desc|
    ensures Represents(PushBuf(q, num, buf, len, flags), PushView(v), num)
    ensures q.freeHead == NO_DESC <==> v.free == []
  {
    hide Holds, Conserved, Place, FreeList;
    PushConserves(v, num);
    FreeListHead(q.desc, q.freeHead, v.free);
    if v.free != [] {
      FreeBound(v, num);
      CensusSize(v, num);
      forall k | 0 < k < |v.free| ensures v.free[k] != v.free[0] { FreeIsApart(v, num, k); }
      FreeListPop(q.desc, v.free, Desc(buf, len, flags, 0));
      HoldsAppend(q.availRing, num, q.devSeen, v.avail, v.free[0]);
      PlaceWrap(q.devSeen + |v.avail|, 0, num);
      IndexStep(q.devSeen, |v.avail|);
    }
  }

  /** What a push writes: the descriptor that becomes the last available one has the address, the length
      and the flags that were passed, its number stands in the ring, and no other descriptor changes. */
  lemma PushWrites(q: Queue, v: View, num: nat, buf: nat, len: nat, flags: nat)
    requires Represents(q, v, num) && v.free != []
    ensures q.freeHead == v.free[0] < num && |q.desc| == num
    ensures var q', v' := PushBuf(q, num, buf, len, flags), PushView(v);
            var d := v'.avail[|v'.avail| - 1];
            && v'.avail == v.avail + [v.free[0]] && v'.free == v.free[1..]
            && v'.held == v.held && v'.used == v.used && |q'.desc| == num
            && q'.desc[d].addr == buf && q'.desc[d].len == len && q'.desc[d].flags == flags
            && (forall e :: 0 <= e < num && e != d ==> q'.desc[e] == q.desc[e])
            && q'.mem == q.mem && q'.usedRing == q.usedRing && q'.usedIdx == q.usedIdx
  {
    hide Holds, Conserved, Place, FreeList;
    FreeListHead(q.desc, q.freeHead, v.free);
    FreeBound(v, num);
  }

  /** The descriptor carries the same buffer as before, whatever its link. */
  predicate SameBuffer(x: Desc, y: Desc) { x.addr == y.addr && x.len == y.len && x.flags == y.flags }

  lemma IndexStep(a: nat, n: nat)
    ensures ((a + n) % WRAP + 1) % WRAP == (a + (n + 1)) % WRAP
    ensures n > 0 ==> ((a + 1) % WRAP + (n - 1)) % WRAP == (a + n) % WRAP
  {
  }

  /** The device never has more to report than the ring can hold, so the test of virtq_has_used is
      exact although the indices wrap. */
  lemma HasUsedIff(q: Queue, v: View, num: nat)
    requires Represents(q, v, num)
    ensures HasUsed(q) <==> v.used != []
  {
    hide Holds, Conserved, FreeList;
    CensusSize(v, num);
    IndexDiffers(q.lastUsed, |v.used|);
  }

  lemma IndexDiffers(a: nat, n: nat)
    requires a < WRAP && n < WRAP
    ensures (a + n) % WRAP == a <==> n == 0
  {
  }

  lemma PopRefines(q: Queue, v: View, num: nat)
    requires Represents(q, v, num) && HasUsed(q)
    ensures v.used != [] && q.usedRing[Place(q.lastUsed, num)] == v.used[0].elem && v.used[0].elem.id < |q.desc|
    ensures Represents(PopUsed(q, num).0, PopView(v), num) && PopUsed(q, num).1 == v.used[0].elem
  {
    hide Holds, Conserved, Place, FreeList;
    HasUsedIff(q, v, num);
    PopConserves(v, num);
    UsedIsNotFree(v, num);
    FreeListPush(q.desc, q.freeHead, v.free, v.used[0].elem.id);
    HoldsTail(q.usedRing, num, q.lastUsed, UsedElems(v.used));
    assert UsedElems(v.used)[1..] == UsedElems(v.used[1..]);
    IndexStep(q.lastUsed, |v.used|);
  }

  lemma TakeRefines(q: Queue, v: View, num: nat)
    requires Represents(q, v, num) && v.avail != []
    ensures q.availRing[Place(q.devSeen, num)] == v.avail[0]
    ensures Represents(DevTake(q), TakeView(v), num)
  {
    hide Holds, Conserved, Place, FreeList;
    TakeConserves(v, num);
    HoldsTail(q.availRing, num, q.devSeen, v.avail);
    IndexStep(q.devSeen, |v.avail|);
  }

  lemma CompleteRefines(q: Queue, v: View, num: nat, c: Completion)
    requires Represents(q, v, num) && c.elem.id in v.held
    ensures c.elem.id < |q.desc|
    ensures Represents(DevComplete(q, num, c), CompleteView(v, c), num)
  {
    hide Holds, Conserved, Place, FreeList;
    CompleteConserves(v, num, c);
    CensusSize(v, num);
    assert |v.held| > 0;
    HoldsAppend(q.usedRing, num, q.lastUsed, UsedElems(v.used), c.elem);
    assert UsedElems(v.used) + [c.elem] == UsedElems(v.used + [c]);
    PlaceWrap(q.lastUsed + |v.used|, 0, num);
    IndexStep(q.lastUsed, |v.used|);
  }

  // ---- the initial queue ----

  function CountFrom(a: nat, b: nat): (s: seq<nat>)
    requires a <= b
    ensures |s| == b - a && forall k :: 0 <= k < |s| ==> s[k] == a + k
  {
    seq(b - a, k => a + k)
  }

  /** virtq_setup_legacy: all descriptors on the free list in order, empty rings. */
  ghost predicate Fresh(q: Queue, num: nat) {
    Level(q, num, 0)
  }

  /** The same later on, with every index at k. */
  ghost predicate Level(q: Queue, num: nat, k: nat) {
    && Sizes(q, num)
    && (forall i :: 0 <= i < num ==> q.desc[i].next == if i + 1 < num then i + 1 else NO_DESC)
    && q.freeHead == 0 && q.lastUsed == k && q.availIdx == k && q.usedIdx == k && q.devSeen == k
  }

  function AllFree(num: nat): View { View(CountFrom(0, num), [], {}, []) }

  lemma {:induction false} CountCensus(n: nat, d: nat)
    ensures multiset(CountFrom(0, n))[d] == if d < n then 1 else 0
  {
    if n > 0 {
      CountCensus(n - 1, d);
      assert CountFrom(0, n) == CountFrom(0, n - 1) + [n - 1];
    }
  }

  lemma FreshRepresents(q: Queue, num: nat)
    requires Fresh(q, num) && SizeOk(num)
    ensures Represents(q, AllFree(num), num)
  {
    var v := AllFree(num);
    forall d: nat ensures Census(v)[d] == if d < num then 1 else 0 {
      CountCensus(num, d);
      assert Ids([]) == [];
    }
    forall k | 0 <= k < |v.free| ensures NextAt(q.desc, v.free, k) {
    }
    assert UsedElems([]) == [];
  }

  // ---- every run ----

  datatype Event = Push(buf: nat, len: nat, flags: nat) | Pop | Take | Complete(c: Completion)

  /** The driver pops when it sees a used element; the device takes what is available and completes
      what it holds. */
  function Step(q: Queue, v: View, num: nat, e: Event): (Queue, View)
    requires Sizes(q, num)
  {
    match e
    case Push(buf, len, flags) =>
      if q.freeHead == NO_DESC || q.freeHead < |q.desc| then (PushBuf(q, num, buf, len, flags), PushView(v)) else (q, v)
    case Pop =>
      if HasUsed(q) && q.usedRing[Place(q.lastUsed, num)].id < |q.desc| && v.used != []
      then (PopUsed(q, num).0, PopView(v)) else (q, v)
    case Take => if v.avail != [] then (DevTake(q), TakeView(v)) else (q, v)
    case Complete(c) =>
      if c.elem.id in v.held && c.elem.id < |q.desc| then (DevComplete(q, num, c), CompleteView(v, c)) else (q, v)
  }

  lemma StepKeeps(q: Queue, v: View, num: nat, e: Event)
    requires Represents(q, v, num)
    ensures var (q', v') := Step(q, v, num, e); Represents(q', v', num)
  {
    hide FreeList, Holds, Conserved, Place, PushBuf, PopUsed, DevTake, DevComplete,
         PushView, PopView, TakeView, CompleteView;
    match e
    case Push(buf, len, flags) => PushRefines(q, v, num, buf, len, flags);
    case Pop => if HasUsed(q) { PopRefines(q, v, num); }
    case Take => if v.avail != [] { TakeRefines(q, v, num); }
    case Complete(c) => if c.elem.id in v.held { CompleteRefines(q, v, num, c); }
  }

  /** Under any interleaving of pushes, pops and device steps, every descriptor stays in exactly one
      place, the free list stays linked and terminated, and each ring still holds all its unread
      elements. */
  ghost function Run(q: Queue, v: View, num: nat, es: seq<Event>): (r: (Queue, View))
    requires Represents(q, v, num)
    ensures Represents(r.0, r.1, num)
    decreases |es|
  {
    if es == [] then (q, v)
    else
      StepKeeps(q, v, num, es[0]);
      var (q', v') := Step(q, v, num, es[0]);
      Run(q', v', num, es[1..])
  }

  /** The memory layout of virtq_setup_legacy for a queue of the given size. */
  const PAGE: nat := 4096

  function AlignUp(x: nat): nat { (x + (PAGE - 1)) / PAGE * PAGE }

  /** The descriptor table, the available ring and the used ring do not overlap, the used ring starts
      on a page, and all of it lies in the pages that are allocated. */
  lemma LegacyLayout(size: nat)
    ensures var descSize := size * 16;
            var availEnd := descSize + (6 + size * 2);
            var usedOffset := AlignUp(availEnd);
            var totalSize := usedOffset + (6 + size * 8);
            var totalPages := (totalSize + PAGE - 1) / PAGE;
            availEnd <= usedOffset < availEnd + PAGE && usedOffset % PAGE == 0 && totalSize <= totalPages * PAGE
  {
  }
}
