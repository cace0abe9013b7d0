/** The event queue of kernel/virtio_input.c: descriptor d always carries buffer d, so the handler
    reads the buffer that the device filled, and every completion is delivered once, in order. */
module VirtioInput {
  import opened Common
  import opened Virtqueue

  const EVENT_SIZE: nat := 8
  const EVENT_BUF_COUNT: nat := 16
  const VIRTQ_DESC_F_WRITE: nat := 2

  /** &bufs[d] for an array of events at address base. */
  function Buf(base: nat, d: nat): nat {
    base + d * EVENT_SIZE
  }

  /** Where the driver is in a round of drain_events: outside, between virtq_pop_used and the handler's
      read of the buffer, or between that and virtq_push_buf. */
  datatype Driver = Idle | Popped(elem: Elem) | HasRead(id: nat)

  /** delivered is what the handler has read; completed is what the device has reported. */
  datatype Input = Input(q: Queue, v: View, drv: Driver, delivered: seq<Completion>, completed: seq<Completion>)

  ghost predicate InFlight(v: View, d: nat) {
    d in v.avail || d in v.held || d in Ids(v.used)
  }

  /** Descriptor d carries buffer d, whole, for the device to write. */
  predicate Carries(x: Desc, base: nat, d: nat) {
    x.addr == Buf(base, d) && x.len == EVENT_SIZE && x.flags == VIRTQ_DESC_F_WRITE
  }

  /** Every descriptor in flight carries its own buffer. */
  ghost predicate Paired(desc: seq<Desc>, v: View, base: nat) {
    forall d: nat :: InFlight(v, d) ==> d < |desc| && Carries(desc[d], base, d)
  }

  /** The buffers of used descriptors hold what the device wrote. */
  ghost predicate DataOk(mem: map<nat, int>, v: View, base: nat) {
    forall k :: 0 <= k < |v.used| ==>
      Buf(base, v.used[k].elem.id) in mem && mem[Buf(base, v.used[k].elem.id)] == v.used[k].data
  }

  /** The descriptor that the driver has in hand. */
  function InHand(drv: Driver): Option<nat> {
    match drv
    case Idle => None
    case Popped(elem) => Some(elem.id)
    case HasRead(id) => Some(id)
  }

  /** What is popped and not read yet, as it stands in memory. */
  ghost function Unread(drv: Driver, mem: map<nat, int>, base: nat): seq<Completion> {
    if drv.Popped? && Buf(base, drv.elem.id) in mem then [Completion(drv.elem, mem[Buf(base, drv.elem.id)])] else []
  }

  ghost predicate DriverOk(s: Input, base: nat) {
    && (s.drv != Idle ==> s.v.free != [] && InHand(s.drv) == Some(s.v.free[0]))
    && (s.drv.Popped? ==> Buf(base, s.drv.elem.id) in s.q.mem)
    && s.completed == s.delivered + Unread(s.drv, s.q.mem, base) + s.v.used
  }

  ghost predicate Inv(s: Input, num: nat, base: nat) {
    && Represents(s.q, s.v, num) && Paired(s.q.desc, s.v, base) && DataOk(s.q.mem, s.v, base)
    && DriverOk(s, base)
  }

  datatype InputEvent = DevTakes | DevCompletes(c: Completion) | DrvPops | DrvReads | DrvPushes

  /** One virtq_pop_used, one read of the popped buffer, one virtq_push_buf, or a device step. */
  ghost function InputStep(s: Input, num: nat, base: nat, e: InputEvent): Input
    requires Inv(s, num, base)
  {
    match e
    case DevTakes =>
      if s.v.avail == [] then s else s.(q := DevTake(s.q), v := TakeView(s.v))
    case DevCompletes(c) =>
      if c.elem.id !in s.v.held then s
      else
        CompleteConserves(s.v, num, c);
        s.(q := DevComplete(s.q, num, c), v := CompleteView(s.v, c), completed := s.completed + [c])
    case DrvPops =>
      if s.drv != Idle || !HasUsed(s.q) then s
      else
        PopRefines(s.q, s.v, num);
        var (q', elem) := PopUsed(s.q, num);
        s.(q := q', v := PopView(s.v), drv := Popped(elem))
    case DrvReads =>
      if !s.drv.Popped? then s
      else
        var elem := s.drv.elem;
        s.(drv := HasRead(elem.id), delivered := s.delivered + [Completion(elem, s.q.mem[Buf(base, elem.id)])])
    case DrvPushes =>
      if !s.drv.HasRead? then s
      else
        PushRefines(s.q, s.v, num, Buf(base, s.drv.id), EVENT_SIZE, VIRTQ_DESC_F_WRITE);
        s.(q := PushBuf(s.q, num, Buf(base, s.drv.id), EVENT_SIZE, VIRTQ_DESC_F_WRITE), v := PushView(s.v), drv := Idle)
  }

  // ---- every step keeps the pairing ----

  lemma TakeKeeps(s: Input, num: nat, base: nat)
    requires Inv(s, num, base)
    ensures Inv(InputStep(s, num, base, DevTakes), num, base)
  {
    hide Represents, Unread;
    if s.v.avail != [] {
      TakeRefines(s.q, s.v, num);
      forall d: nat | InFlight(TakeView(s.v), d) ensures InFlight(s.v, d) {
        assert s.v.avail[0] in s.v.avail;
      }
    }
  }

  lemma HeldNotUsed(v: View, num: nat, d: nat, k: nat)
    requires Conserved(v, num) && d in v.held && k < |v.used|
    ensures v.used[k].elem.id != d
  {
    assert Ids(v.used)[k] in Ids(v.used);
    assert Census(v)[d] <= 1;
  }

  lemma HeldNotFree(v: View, num: nat, d: nat)
    requires Conserved(v, num) && d in v.held && v.free != []
    ensures v.free[0] != d
  {
    assert v.free[0] in v.free;
    assert Census(v)[d] <= 1;
  }

  /** The buffers of different descriptors are apart. */
  lemma BufApart(base: nat, d: nat, e: nat)
    ensures Buf(base, d) == Buf(base, e) <==> d == e
  {
  }

  lemma CompletePaired(desc: seq<Desc>, v: View, base: nat, c: Completion)
    requires Paired(desc, v, base) && c.elem.id in v.held
    ensures Paired(desc, CompleteView(v, c), base) && c.elem.id < |desc| && desc[c.elem.id].addr == Buf(base, c.elem.id)
  {
    hide Buf;
    assert InFlight(v, c.elem.id);
    var v' := CompleteView(v, c);
    assert Ids(v'.used) == Ids(v.used) + [c.elem.id];
    forall d: nat | InFlight(v', d) ensures InFlight(v, d) {
    }
  }

  lemma CompleteData(mem: map<nat, int>, v: View, num: nat, base: nat, c: Completion)
    requires Conserved(v, num) && DataOk(mem, v, base) && c.elem.id in v.held
    ensures DataOk(mem[Buf(base, c.elem.id) := c.data], CompleteView(v, c), base)
  {
    var v', m := CompleteView(v, c), mem[Buf(base, c.elem.id) := c.data];
    forall k | 0 <= k < |v'.used|
      ensures Buf(base, v'.used[k].elem.id) in m && m[Buf(base, v'.used[k].elem.id)] == v'.used[k].data
    {
      if k < |v.used| {
        HeldNotUsed(v, num, c.elem.id, k);
        BufApart(base, v.used[k].elem.id, c.elem.id);
      }
    }
  }

  /** The device never writes to the buffer that the driver has popped. */
  lemma PoppedBufferKept(s: Input, num: nat, base: nat, c: Completion)
    requires Inv(s, num, base) && s.drv.Popped? && c.elem.id in s.v.held
    ensures c.elem.id < |s.q.desc|
    ensures var mem' := DevComplete(s.q, num, c).mem;
            && Buf(base, s.drv.elem.id) in mem' && Buf(base, s.drv.elem.id) in s.q.mem
            && mem'[Buf(base, s.drv.elem.id)] == s.q.mem[Buf(base, s.drv.elem.id)]
  {
    hide Conserved, FreeList, Holds, Place, DataOk, Unread, Buf;
    CompletePaired(s.q.desc, s.v, base, c);
    HeldNotFree(s.v, num, c.elem.id);
    BufApart(base, s.drv.elem.id, c.elem.id);
  }

  lemma CompleteKeeps(s: Input, num: nat, base: nat, c: Completion)
    requires Inv(s, num, base)
    ensures Inv(InputStep(s, num, base, DevCompletes(c)), num, base)
  {
    if c.elem.id in s.v.held {
      CompleteRefines(s.q, s.v, num, c);
      CompletePaired(s.q.desc, s.v, base, c);
      CompleteData(s.q.mem, s.v, num, base, c);
      if s.drv.Popped? { PoppedBufferKept(s, num, base, c); }
      hide Represents, Paired, DataOk, Buf, Conserved;
      var pending := s.delivered + Unread(s.drv, s.q.mem, base);
      assert (pending + s.v.used) + [c] == pending + (s.v.used + [c]);
    }
  }

  lemma PopPaired(desc: seq<Desc>, desc': seq<Desc>, mem: map<nat, int>, v: View, base: nat)
    requires v.used != [] && Paired(desc, v, base) && DataOk(mem, v, base)
    requires |desc'| == |desc| && forall d :: 0 <= d < |desc| ==> SameBuffer(desc'[d], desc[d])
    ensures Paired(desc', PopView(v), base) && DataOk(mem, PopView(v), base)
    ensures Buf(base, v.used[0].elem.id) in mem && mem[Buf(base, v.used[0].elem.id)] == v.used[0].data
  {
    hide Buf;
    var v' := PopView(v);
    assert Ids(v'.used) == Ids(v.used)[1..];
    forall d: nat | InFlight(v', d) ensures InFlight(v, d) {
    }
    forall k | 0 <= k < |v'.used| ensures v'.used[k] == v.used[k + 1] {
    }
  }

  lemma PopFacts(s: Input, num: nat, base: nat)
    requires Inv(s, num, base) && s.drv == Idle && HasUsed(s.q)
    ensures s.v.used != []
    ensures var s' := InputStep(s, num, base, DrvPops);
            && s' == s.(q := s'.q, v := PopView(s.v), drv := Popped(s.v.used[0].elem))
            && Represents(s'.q, s'.v, num) && s'.q.mem == s.q.mem
            && |s'.q.desc| == |s.q.desc| && forall d :: 0 <= d < |s.q.desc| ==> SameBuffer(s'.q.desc[d], s.q.desc[d])
  {
    hide Represents, Paired, DataOk, Place, DriverOk;
    PopRefines(s.q, s.v, num);
  }

  lemma PopKeeps(s: Input, num: nat, base: nat)
    requires Inv(s, num, base)
    ensures Inv(InputStep(s, num, base, DrvPops), num, base)
  {
    hide Represents, Paired, DataOk, Buf;
    if s.drv == Idle && HasUsed(s.q) {
      PopFacts(s, num, base);
      var s' := InputStep(s, num, base, DrvPops);
      PopPaired(s.q.desc, s'.q.desc, s.q.mem, s.v, base);
      PopDriver(s, s', base);
    }
  }

  lemma PopDriver(s: Input, s': Input, base: nat)
    requires DriverOk(s, base) && s.drv == Idle && s.v.used != []
    requires s' == s.(q := s'.q, v := PopView(s.v), drv := Popped(s.v.used[0].elem)) && s'.q.mem == s.q.mem
    requires Buf(base, s.v.used[0].elem.id) in s.q.mem
    requires s.q.mem[Buf(base, s.v.used[0].elem.id)] == s.v.used[0].data
    ensures DriverOk(s', base)
  {
    hide Buf;
    var first, rest := s.v.used[0], s.v.used[1..];
    assert s.v.used == [first] + rest;
    assert s.delivered + [] + s.v.used == s.delivered + [first] + rest;
  }

  lemma ReadKeeps(s: Input, num: nat, base: nat)
    requires Inv(s, num, base)
    ensures Inv(InputStep(s, num, base, DrvReads), num, base)
  {
    hide Represents, Buf, Paired, DataOk;
    if s.drv.Popped? {
      var read := s.delivered + Unread(s.drv, s.q.mem, base);
      assert read + [] + s.v.used == read + s.v.used;
    }
  }

  lemma PushKeeps(s: Input, num: nat, base: nat)
    requires Inv(s, num, base)
    ensures Inv(InputStep(s, num, base, DrvPushes), num, base)
  {
    if s.drv.HasRead? {
      PushRefines(s.q, s.v, num, Buf(base, s.drv.id), EVENT_SIZE, VIRTQ_DESC_F_WRITE);
      FreeHead(s.q, s.v, num);
      hide Represents, Buf, Place;
      var v' := PushView(s.v);
      forall d: nat | InFlight(v', d) ensures d == s.drv.id || InFlight(s.v, d) {
      }
    }
  }

  lemma FreeHead(q: Queue, v: View, num: nat)
    requires Represents(q, v, num) && v.free != []
    ensures q.freeHead == v.free[0] < num == |q.desc| && q.freeHead != NO_DESC
  {
    FreeBound(v, num);
  }

  lemma InputStepKeeps(s: Input, num: nat, base: nat, e: InputEvent)
    requires Inv(s, num, base)
    ensures Inv(InputStep(s, num, base, e), num, base)
  {
    hide Inv, InputStep;
    match e
    case DevTakes => TakeKeeps(s, num, base);
    case DevCompletes(c) => CompleteKeeps(s, num, base, c);
    case DrvPops => PopKeeps(s, num, base);
    case DrvReads => ReadKeeps(s, num, base);
    case DrvPushes => PushKeeps(s, num, base);
  }

  /** In every run of drain_events against a conforming device, each descriptor in flight points at
      its own buffer, and the handler has been given exactly the completions of the device, once
      each, in order, with the data the device wrote. */
  ghost function InputRun(s: Input, num: nat, base: nat, es: seq<InputEvent>): (s': Input)
    requires Inv(s, num, base)
    ensures Inv(s', num, base)
    ensures s'.delivered <= s'.completed
    decreases |es|
  {
    hide Inv, InputStep;
    if es == [] then
      DeliveredPrefix(s, num, base);
      s
    else
      InputStepKeeps(s, num, base, es[0]);
      InputRun(InputStep(s, num, base, es[0]), num, base, es[1..])
  }

  lemma DeliveredPrefix(s: Input, num: nat, base: nat)
    requires Inv(s, num, base)
    ensures s.delivered <= s.completed
  {
    hide Represents, Paired, DataOk, Unread;
    var pending := Unread(s.drv, s.q.mem, base);
    assert s.delivered + pending + s.v.used == s.delivered + (pending + s.v.used);
  }

  // ---- the driver in place ----

  class VirtqDriver {
    const num: nat
    const desc: array<Desc>
    var freeHead: nat
    var lastUsed: nat
    const availRing: array<nat>
    var availIdx: nat
    const usedRing: array<Elem>
    var usedIdx: nat
    /** The device: its position in the available ring, what it holds, and the buffers' contents. */
    var devSeen: nat
    var held: set<nat>
    var mem: map<nat, int>
    ghost var view: View

    ghost function Value(): Queue
      reads this, desc, availRing, usedRing
    {
      Queue(desc[..], freeHead, lastUsed, availRing[..], availIdx, usedRing[..], usedIdx, devSeen, mem)
    }

    ghost predicate Valid()
      reads this, desc, availRing, usedRing
    {
      Represents(Value(), view, num) && held == view.held
    }

    /** virtq_setup_legacy: the descriptors form the free list. Any size is accepted; the queue is in
        order if it divides 2^16. */
    constructor (size: nat)
      requires 0 < size <= NO_DESC
      ensures num == size && fresh(desc) && fresh(availRing) && fresh(usedRing)
      ensures Fresh(Value(), num) && view == AllFree(num) && mem == map[]
      ensures WRAP % num == 0 ==> Valid()
    {
      num := size;
      desc := new Desc[size](i => Desc(0, 0, 0, 0));
      availRing := new nat[size](i => 0);
      usedRing := new Elem[size](i => Elem(0, 0));
      freeHead, lastUsed, availIdx, usedIdx, devSeen := 0, 0, 0, 0, 0;
      mem, held, view := map[], {}, AllFree(size);
      new;
      var i := 0;
      while i < size
        invariant 0 <= i <= size
        invariant forall j :: 0 <= j < i ==> desc[j].next == j + 1
        modifies desc
      {
        desc[i] := Desc(0, 0, 0, i + 1);
        i := i + 1;
      }
      desc[size - 1] := desc[size - 1].(next := NO_DESC);
      assert Fresh(Value(), num);
      hide Fresh, Represents;
      if WRAP % num == 0 { FreshRepresents(Value(), num); }
    }

    /** virtq_push_buf */
    method VirtqPushBuf(buf: nat, len: nat, flags: nat)
      requires Valid()
      modifies this, desc, availRing
      ensures Valid() && view == PushView(old(view))
      ensures old(freeHead == NO_DESC || freeHead < desc.Length) &&
              Value() == PushBuf(old(Value()), num, buf, len, flags)
      ensures old(view).free != [] ==>
                var d := old(view).free[0];
                && d < desc.Length && desc[d].addr == buf && desc[d].len == len && desc[d].flags == flags
                && forall e :: 0 <= e < desc.Length && e != d ==> desc[e] == old(desc[e])
    {
      hide FreeList, Holds, Conserved, Place;
      ghost var q := Value();
      PushRefines(q, view, num, buf, len, flags);
      if view.free != [] { PushWrites(q, view, num, buf, len, flags); }
      var head := freeHead;
      if head == NO_DESC {
        return;
      }
      freeHead := desc[head].next;
      desc[head] := Desc(buf, len, flags, 0);
      availRing[Place(availIdx, num)] := head;
      availIdx := (availIdx + 1) % WRAP;
      view := PushView(view);
      assert Value() == PushBuf(q, num, buf, len, flags);
    }

    /** virtq_has_used */
    method VirtqHasUsed() returns (b: bool)
      requires Valid()
      ensures b <==> HasUsed(Value())
      ensures b <==> view.used != []
    {
      HasUsedIff(Value(), view, num);
      b := usedIdx != lastUsed;
    }

    /** virtq_pop_used: -1 when nothing is used. */
    method VirtqPopUsed() returns (id: int, len: nat)
      requires Valid()
      modifies this, desc
      ensures Valid()
      ensures !old(HasUsed(Value())) ==> id == -1 && Value() == old(Value()) && view == old(view)
      ensures old(HasUsed(Value())) ==>
                && old(view).used != [] && view == PopView(old(view))
                && old(usedRing[Place(lastUsed, num)].id < desc.Length)
                && id >= 0 && (Value(), Elem(id, len)) == PopUsed(old(Value()), num)
                && Elem(id, len) == old(view).used[0].elem
    {
      hide FreeList, Holds, Conserved, Place;
      ghost var q := Value();
      if usedIdx == lastUsed {
        return -1, 0;
      }
      PopRefines(q, view, num);
      var elem := usedRing[Place(lastUsed, num)];
      lastUsed := (lastUsed + 1) % WRAP;
      desc[elem.id] := desc[elem.id].(next := freeHead);
      freeHead := elem.id;
      view := PopView(view);
      assert Value() == PopUsed(q, num).0;
      return elem.id, elem.len;
    }

    /** A step of a conforming device: it takes the next available descriptor, or completes one that
        it holds. */
    method Device(e: InputEvent)
      requires Valid() && (e.DevTakes? || e.DevCompletes?)
      modifies this, usedRing
      ensures Valid()
      ensures e.DevTakes? ==>
                if old(view).avail == [] then Value() == old(Value()) && view == old(view)
                else Value() == DevTake(old(Value())) && view == TakeView(old(view))
      ensures e.DevCompletes? ==>
                if e.c.elem.id !in old(view).held then Value() == old(Value()) && view == old(view)
                else
                  && e.c.elem.id < desc.Length && view == CompleteView(old(view), e.c)
                  && Value() == DevComplete(old(Value()), num, e.c)
    {
      hide FreeList, Holds, Conserved, Place;
      ghost var q := Value();
      if e.DevTakes? {
        AvailableIff(q, view, num);
        if availIdx != devSeen {
          TakeRefines(q, view, num);
          held := held + {availRing[Place(devSeen, num)]};
          devSeen := (devSeen + 1) % WRAP;
          view := TakeView(view);
        }
      } else if e.c.elem.id in held {
        CompleteRefines(q, view, num, e.c);
        usedRing[Place(usedIdx, num)] := e.c.elem;
        usedIdx := (usedIdx + 1) % WRAP;
        mem := mem[desc[e.c.elem.id].addr := e.c.data];
        held := held - {e.c.elem.id};
        view := CompleteView(view, e.c);
        assert Value() == DevComplete(q, num, e.c);
      }
    }

    /** refill_event_queue on a fresh queue: buffer i goes out on descriptor i. */
    method RefillEventQueue(base: nat)
      requires Valid() && view == View(CountFrom(0, num), [], {}, [])
      modifies this, desc, availRing
      ensures Valid() && Inv(Input(Value(), view, Idle, [], []), num, base)
      ensures view.avail == CountFrom(0, if num < EVENT_BUF_COUNT then num else EVENT_BUF_COUNT)
      ensures forall d :: 0 <= d < num && d < EVENT_BUF_COUNT ==> Carries(desc[d], base, d)
    {
      hide FreeList, Holds, Conserved, Place;
      var i := 0;
      while i < EVENT_BUF_COUNT
        invariant 0 <= i <= EVENT_BUF_COUNT && Valid()
        invariant var n := if num < i then num else i; view == View(CountFrom(n, num), CountFrom(0, n), {}, [])
        invariant forall d :: 0 <= d < num && d < i ==> Carries(desc[d], base, d)
      {
        ghost var before := desc[..];
        RefillStep(Value(), view, num, i);
        VirtqPushBuf(Buf(base, i), EVENT_SIZE, VIRTQ_DESC_F_WRITE);
        i := i + 1;
      }
      RefillPaired(desc[..], view, num, i, base);
    }

    /** drain_events: while something is used, pop it, hand its buffer to the handler and push the
        buffer again. script lists what the device does before each test of the loop, between the pop
        and the handler's read, and between that and the push. The handler's calls are returned, with
        the contents it reads. */
    method DrainEvents(base: nat, script: seq<Meanwhile>, ghost s: Input)
      returns (handled: seq<Completion>, ghost s': Input)
      requires Valid() && Inv(s, num, base) && s.q == Value() && s.v == view && s.drv == Idle
      requires forall m :: m in script ==> m.Ok()
      modifies this, desc, availRing, usedRing
      ensures Valid() && Inv(s', num, base) && s'.q == Value() && s'.v == view && s'.drv == Idle
      ensures view.used == []
      ensures s.delivered <= s'.delivered && handled == LongEnough(s'.delivered[|s.delivered|..])
    {
      hide Inv, Represents, InputStep;
      handled, s' := [], s;
      var n := 0;
      var more := true;
      LongEnoughNone(s.delivered);
      while more
        invariant 0 <= n <= |script|
        invariant Valid() && Inv(s', num, base) && s'.q == Value() && s'.v == view && s'.drv == Idle
        invariant s.delivered <= s'.delivered && handled == LongEnough(s'.delivered[|s.delivered|..])
        invariant !more ==> view.used == []
        decreases more, |script| - n, |view.used|
      {
        var m := Meanwhile([], [], []);
        if n < |script| {
          assert script[n] in script;
          m := script[n];
          n := n + 1;
        }
        assert m.Ok();
        s' := Devices(m.beforeTest, base, s');
        more := VirtqHasUsed();
        if more {
          ghost var before := s';
          var c;
          c, s' := DrainOne(base, m, s');
          LongEnoughMore(before.delivered, |s.delivered|, c);
          if c.elem.len >= EVENT_SIZE {
            handled := handled + [c];
          }
        }
      }
    }

    /** Device steps, one after another. */
    method Devices(es: seq<InputEvent>, base: nat, ghost s: Input) returns (ghost s': Input)
      requires Valid() && Inv(s, num, base) && s.q == Value() && s.v == view
      requires forall e :: e in es ==> e.DevTakes? || e.DevCompletes?
      modifies this, usedRing
      ensures Valid() && Inv(s', num, base) && s'.q == Value() && s'.v == view && s'.drv == s.drv
      ensures s'.delivered == s.delivered && (es == [] ==> s' == s)
    {
      hide Inv, Represents;
      s' := s;
      var k := 0;
      while k < |es|
        invariant 0 <= k <= |es| && (k == 0 ==> s' == s)
        invariant Valid() && Inv(s', num, base) && s'.q == Value() && s'.v == view && s'.drv == s.drv
        invariant s'.delivered == s.delivered
      {
        InputStepKeeps(s', num, base, es[k]);
        Device(es[k]);
        s' := InputStep(s', num, base, es[k]);
        k := k + 1;
      }
    }

    /** One round of the loop of drain_events; c is the element and what its buffer holds when it is read,
        after the device went on. */
    method DrainOne(base: nat, m: Meanwhile, ghost s: Input) returns (c: Completion, ghost s': Input)
      requires Valid() && Inv(s, num, base) && s.q == Value() && s.v == view && s.drv == Idle && view.used != []
      requires m.Ok()
      modifies this, desc, availRing, usedRing
      ensures Valid() && Inv(s', num, base) && s'.q == Value() && s'.v == view && s'.drv == Idle
      ensures s'.delivered == s.delivered + [c]
      ensures m.beforeRead == [] && m.beforePush == [] ==> |view.used| < |old(view).used|
    {
      hide Inv, Represents;
      var id, len;
      id, len, s' := PopOne(base, s);
      s' := Devices(m.beforeRead, base, s');
      c, s' := ReadOne(base, id, len, s');
      s' := Devices(m.beforePush, base, s');
      s' := PushOne(base, id, s');
    }

    method PopOne(base: nat, ghost s: Input) returns (id: nat, len: nat, ghost s': Input)
      requires Valid() && Inv(s, num, base) && s.q == Value() && s.v == view && s.drv == Idle && view.used != []
      modifies this, desc
      ensures Valid() && Inv(s', num, base) && s'.q == Value() && s'.v == view
      ensures s'.drv == Popped(Elem(id, len)) && s'.delivered == s.delivered && view.used == old(view).used[1..]
    {
      HasUsedIff(s.q, s.v, num);
      InputStepKeeps(s, num, base, DrvPops);
      hide Inv, Represents;
      s' := InputStep(s, num, base, DrvPops);
      id, len := VirtqPopUsed();
    }

    method ReadOne(base: nat, id: nat, len: nat, ghost s: Input) returns (c: Completion, ghost s': Input)
      requires Valid() && Inv(s, num, base) && s.q == Value() && s.v == view && s.drv == Popped(Elem(id, len))
      ensures Inv(s', num, base) && s'.q == Value() && s'.v == view
      ensures s'.drv == HasRead(id) && s'.delivered == s.delivered + [c]
    {
      InputStepKeeps(s, num, base, DrvReads);
      hide Represents, Paired, DataOk, Unread;
      s' := InputStep(s, num, base, DrvReads);
      c := Completion(Elem(id, len), mem[Buf(base, id)]);
    }

    method PushOne(base: nat, id: nat, ghost s: Input) returns (ghost s': Input)
      requires Valid() && Inv(s, num, base) && s.q == Value() && s.v == view && s.drv == HasRead(id)
      modifies this, desc, availRing
      ensures Valid() && Inv(s', num, base) && s'.q == Value() && s'.v == view && s'.drv == Idle
      ensures s'.delivered == s.delivered && view.used == old(view).used
    {
      InputStepKeeps(s, num, base, DrvPushes);
      hide Inv, Represents;
      s' := InputStep(s, num, base, DrvPushes);
      VirtqPushBuf(Buf(base, id), EVENT_SIZE, VIRTQ_DESC_F_WRITE);
    }
  }

  /** What the device does during one round of the loop. */
  datatype Meanwhile = Meanwhile(beforeTest: seq<InputEvent>, beforeRead: seq<InputEvent>, beforePush: seq<InputEvent>)
  {
    ghost predicate Ok() {
      forall e :: e in beforeTest || e in beforeRead || e in beforePush ==> e.DevTakes? || e.DevCompletes?
    }
  }

  lemma AvailableIff(q: Queue, v: View, num: nat)
    requires Represents(q, v, num)
    ensures q.availIdx == q.devSeen <==> v.avail == []
  {
    hide Holds, Conserved, FreeList;
    CensusSize(v, num);
    IndexDiffers(q.devSeen, |v.avail|);
  }

  lemma RefillStep(q: Queue, v: View, num: nat, i: nat)
    requires Represents(q, v, num)
    requires var n := if num < i then num else i; v == View(CountFrom(n, num), CountFrom(0, n), {}, [])
    ensures if i < num then q.freeHead == i else q.freeHead == NO_DESC
    ensures var n := if num < i + 1 then num else i + 1;
            PushView(v) == View(CountFrom(n, num), CountFrom(0, n), {}, [])
  {
    if i < num {
      assert CountFrom(i, num)[1..] == CountFrom(i + 1, num);
      assert CountFrom(0, i) + [i] == CountFrom(0, i + 1);
    }
  }

  lemma RefillPaired(desc: seq<Desc>, v: View, num: nat, i: nat, base: nat)
    requires |desc| == num && (forall d :: 0 <= d < num && d < i ==> Carries(desc[d], base, d))
    requires var n := if num < i then num else i; v == View(CountFrom(n, num), CountFrom(0, n), {}, [])
    ensures Paired(desc, v, base)
  {
    assert Ids([]) == [];
  }

  /** The elements long enough for an event. */
  function LongEnough(cs: seq<Completion>): seq<Completion> {
    if cs == [] then []
    else LongEnough(cs[..|cs| - 1]) + if cs[|cs| - 1].elem.len >= EVENT_SIZE then [cs[|cs| - 1]] else []
  }

  /** They are those of at least 8 bytes, as often as they came; the others are left out. */
  lemma {:induction false} LongEnoughIs(cs: seq<Completion>, c: Completion)
    ensures multiset(LongEnough(cs))[c] == if c.elem.len >= EVENT_SIZE then multiset(cs)[c] else 0
  {
    if cs != [] {
      LongEnoughIs(cs[..|cs| - 1], c);
      assert cs == cs[..|cs| - 1] + [cs[|cs| - 1]];
    }
  }

  lemma LongEnoughNone(cs: seq<Completion>)
    ensures LongEnough(cs[|cs|..]) == []
  {
  }

  lemma LongEnoughMore(cs: seq<Completion>, n: nat, c: Completion)
    requires n <= |cs|
    ensures LongEnough((cs + [c])[n..]) == LongEnough(cs[n..]) + if c.elem.len >= EVENT_SIZE then [c] else []
  {
    assert (cs + [c])[n..] == cs[n..] + [c];
  }
}
