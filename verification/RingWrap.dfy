/** Which queue sizes are safe: runs of a virtqueue of any size, and the run that loses an unread
    element when the size does not divide 2^16. */
module RingWrap {
  import opened Bits
  import opened Virtqueue

  /** The state after a run, for any size. */
  ghost function Play(q: Queue, v: View, num: nat, es: seq<Event>): (r: (Queue, View))
    requires Sizes(q, num)
    ensures Sizes(r.0, num)
    decreases |es|
  {
    if es == [] then (q, v)
    else
      var (q', v') := Step(q, v, num, es[0]);
      Play(q', v', num, es[1..])
  }

  lemma {:induction false} PlayIsRun(q: Queue, v: View, num: nat, es: seq<Event>)
    requires Represents(q, v, num)
    ensures Play(q, v, num, es) == Run(q, v, num, es)
    decreases |es|
  {
    hide Represents, Step;
    RepresentsSizes(q, v, num);
    if es != [] {
      StepKeeps(q, v, num, es[0]);
      var (q', v') := Step(q, v, num, es[0]);
      PlayIsRun(q', v', num, es[1..]);
    }
  }

  lemma RepresentsSizes(q: Queue, v: View, num: nat)
    requires Represents(q, v, num)
    ensures Sizes(q, num) && RingsHold(q, v, num)
  {
  }

  lemma {:induction false} PlayConcat(q: Queue, v: View, num: nat, es: seq<Event>, fs: seq<Event>)
    requires Sizes(q, num)
    ensures var (q', v') := Play(q, v, num, es); Play(q, v, num, es + fs) == Play(q', v', num, fs)
    decreases |es|
  {
    hide Sizes, Step;
    if es == [] {
      assert es + fs == fs;
    } else {
      assert (es + fs)[1..] == es[1..] + fs;
      StepSizes(q, v, num, es[0]);
      var (q', v') := Step(q, v, num, es[0]);
      PlayConcat(q', v', num, es[1..], fs);
    }
  }

  lemma StepSizes(q: Queue, v: View, num: nat, e: Event)
    requires Sizes(q, num)
    ensures Sizes(Step(q, v, num, e).0, num)
  {
    hide Place;
  }

  lemma PlayOne(q: Queue, v: View, num: nat, e: Event)
    requires Sizes(q, num)
    ensures Play(q, v, num, [e]) == Step(q, v, num, e)
  {
    hide Step;
    StepSizes(q, v, num, e);
    var (q', v') := Step(q, v, num, e);
    assert [e][1..] == [];
    assert Play(q', v', num, []) == (q', v');
  }

  // ---- rounds that move all indices on ----

  const DONE: Completion := Completion(Elem(0, 0), 0)
  const ROUND: seq<Event> := [Push(0, 0, 0)] + [Take] + [Complete(DONE)] + [Pop]

  /** Within a round descriptor 0 is out and the indices are at a, d, u and l. */
  ghost predicate OneOut(q: Queue, num: nat, a: nat, d: nat, u: nat, l: nat) {
    && Sizes(q, num) && num > 1 && q.freeHead == 1
    && (forall i :: 1 <= i < num ==> q.desc[i].next == if i + 1 < num then i + 1 else NO_DESC)
    && q.availIdx == a && q.devSeen == d && q.usedIdx == u && q.lastUsed == l
  }

  function Rest(num: nat): seq<nat>
    requires 0 < num
  {
    CountFrom(1, num)
  }

  lemma RoundPush(q: Queue, num: nat, k: nat) returns (q': Queue)
    requires Level(q, num, k) && k + 1 < WRAP && num > 1
    ensures OneOut(q', num, k + 1, k, k, k)
    ensures Step(q, AllFree(num), num, Push(0, 0, 0)) == (q', View(Rest(num), [0], {}, []))
  {
    hide Place;
    q' := PushBuf(q, num, 0, 0, 0);
    assert CountFrom(0, num)[1..] == Rest(num);
    assert AllFree(num).avail + [0] == [0];
  }

  lemma RoundTake(q: Queue, num: nat, k: nat) returns (q': Queue)
    requires OneOut(q, num, k + 1, k, k, k) && k + 1 < WRAP
    ensures OneOut(q', num, k + 1, k + 1, k, k)
    ensures Step(q, View(Rest(num), [0], {}, []), num, Take) == (q', View(Rest(num), [], {0}, []))
  {
    q' := DevTake(q);
    var v := View(Rest(num), [0], {}, []);
    assert v.avail[1..] == [] && v.held + {v.avail[0]} == {0};
  }

  lemma RoundComplete(q: Queue, num: nat, k: nat) returns (q': Queue)
    requires OneOut(q, num, k + 1, k + 1, k, k) && k + 1 < WRAP
    ensures OneOut(q', num, k + 1, k + 1, k + 1, k) && q'.usedRing[Place(k, num)] == DONE.elem
    ensures Step(q, View(Rest(num), [], {0}, []), num, Complete(DONE)) == (q', View(Rest(num), [], {}, [DONE]))
  {
    hide Place;
    q' := DevComplete(q, num, DONE);
    var v := View(Rest(num), [], {0}, []);
    assert v.held - {0} == {} && v.used + [DONE] == [DONE];
  }

  lemma RoundPop(q: Queue, num: nat, k: nat) returns (q': Queue)
    requires OneOut(q, num, k + 1, k + 1, k + 1, k) && k + 1 < WRAP && q.usedRing[Place(k, num)] == DONE.elem
    ensures Level(q', num, k + 1)
    ensures Step(q, View(Rest(num), [], {}, [DONE]), num, Pop) == (q', AllFree(num))
  {
    hide Place;
    q' := PopUsed(q, num).0;
    var v := View(Rest(num), [], {}, [DONE]);
    assert [0] + Rest(num) == CountFrom(0, num) && v.used[1..] == [];
  }

  /** One descriptor goes through the device and back: all is as before, one index further. */
  lemma PlayRound(q: Queue, num: nat, k: nat) returns (q': Queue)
    requires Level(q, num, k) && k + 1 < WRAP && num > 1
    ensures Level(q', num, k + 1) && Play(q, AllFree(num), num, ROUND) == (q', AllFree(num))
  {
    hide Step, Place, CountFrom;
    var q1 := RoundPush(q, num, k);
    var q2 := RoundTake(q1, num, k);
    var q3 := RoundComplete(q2, num, k);
    q' := RoundPop(q3, num, k);
    var v1, v2 := View(Rest(num), [0], {}, []), View(Rest(num), [], {0}, []);
    var v3 := View(Rest(num), [], {}, [DONE]);
    PlayOne(q, AllFree(num), num, Push(0, 0, 0));
    PlayOne(q1, v1, num, Take);
    PlayOne(q2, v2, num, Complete(DONE));
    PlayOne(q3, v3, num, Pop);
    PlayConcat(q, AllFree(num), num, [Push(0, 0, 0)], [Take]);
    PlayConcat(q, AllFree(num), num, [Push(0, 0, 0)] + [Take], [Complete(DONE)]);
    PlayConcat(q, AllFree(num), num, [Push(0, 0, 0)] + [Take] + [Complete(DONE)], [Pop]);
  }

  ghost function Rounds(n: nat): seq<Event> { if n == 0 then [] else ROUND + Rounds(n - 1) }

  lemma LevelSizes(q: Queue, num: nat, k: nat)
    requires Level(q, num, k)
    ensures Sizes(q, num)
  {
  }

  lemma {:induction false} PlayRounds(q: Queue, num: nat, k: nat, n: nat) returns (q': Queue)
    requires Level(q, num, k) && k + n < WRAP && num > 1
    ensures Level(q', num, k + n) && Play(q, AllFree(num), num, Rounds(n)) == (q', AllFree(num))
    decreases n
  {
    hide Level, Step;
    LevelSizes(q, num, k);
    if n == 0 {
      q' := q;
    } else {
      var q1 := PlayRound(q, num, k);
      q' := PlayRounds(q1, num, k + 1, n - 1);
      PlayConcat(q, AllFree(num), num, ROUND, Rounds(n - 1));
    }
  }

  // ---- pushes across the wrap ----

  ghost function Pushes(n: nat): seq<Event> { if n == 0 then [] else Pushes(n - 1) + [Push(0, 0, 0)] }

  function Pushed(num: nat, n: nat): View
    requires n <= num
  {
    View(CountFrom(n, num), CountFrom(0, n), {}, [])
  }

  ghost predicate AfterPushes(q: Queue, num: nat, k: nat, n: nat) {
    && Sizes(q, num) && q.freeHead == (if n < num then n else NO_DESC)
    && (forall i :: n <= i < num ==> q.desc[i].next == if i + 1 < num then i + 1 else NO_DESC)
    && q.availIdx == (k + n) % WRAP && q.devSeen == k
  }

  lemma PushStep(q: Queue, num: nat, k: nat, n: nat) returns (q': Queue)
    requires AfterPushes(q, num, k, n) && n < num
    ensures AfterPushes(q', num, k, n + 1) && Step(q, Pushed(num, n), num, Push(0, 0, 0)) == (q', Pushed(num, n + 1))
    ensures q'.availRing[Place(k + n, num)] == n
  {
    hide Place;
    PlaceWrap(k + n, 0, num);
    IndexStep(k, n);
    q' := PushBuf(q, num, 0, 0, 0);
    assert CountFrom(n, num)[1..] == CountFrom(n + 1, num);
    assert CountFrom(0, n) + [n] == CountFrom(0, n + 1);
  }

  lemma NoPushes(q: Queue, num: nat, k: nat)
    requires Level(q, num, k) && k < WRAP
    ensures AfterPushes(q, num, k, 0) && Pushed(num, 0) == AllFree(num)
  {
    assert CountFrom(0, 0) == [];
  }

  lemma {:induction false} PlayPushes(q: Queue, num: nat, k: nat, n: nat) returns (q': Queue)
    requires Level(q, num, k) && k < WRAP && n <= num
    ensures AfterPushes(q', num, k, n) && Play(q, AllFree(num), num, Pushes(n)) == (q', Pushed(num, n))
    ensures n > 0 ==> q'.availRing[Place(k + n - 1, num)] == n - 1
    decreases n
  {
    hide Step, Level, AfterPushes, Place;
    LevelSizes(q, num, k);
    if n == 0 {
      q' := q;
      NoPushes(q, num, k);
    } else {
      var q1 := PlayPushes(q, num, k, n - 1);
      q' := PushStep(q1, num, k, n - 1);
      PlayConcat(q, AllFree(num), num, Pushes(n - 1), [Push(0, 0, 0)]);
      PlayOne(q1, Pushed(num, n - 1), num, Push(0, 0, 0));
    }
  }

  /** The run that loses an element: bring the indices to the last multiple of the size below 2^16, then
      push once more than the indices that remain before they wrap. */
  ghost function LossyRun(num: nat): seq<Event>
    requires 0 < num
  {
    Rounds(WRAP - WRAP % num) + Pushes(WRAP % num + 1)
  }

  lemma WrapPlaces(num: nat)
    requires 0 < num <= NO_DESC && WRAP % num != 0
    ensures var r := WRAP % num; num > 1 && 0 < r < num && Place(WRAP - r, num) == 0 && Place(WRAP - r + r, num) == 0
  {
    var r := WRAP % num;
    DivModUnique(WRAP - r, num, WRAP / num, 0);
  }

  lemma LosesElement(q: Queue, num: nat)
    requires Fresh(q, num) && WRAP % num != 0
    ensures var (q', v') := Play(q, AllFree(num), num, LossyRun(num)); !RingsHold(q', v', num)
  {
    hide Place, Level, Step;
    LevelSizes(q, num, 0);
    WrapPlaces(num);
    var r := WRAP % num;
    var k := WRAP - r;
    var q1 := PlayRounds(q, num, 0, k);
    var q2 := PlayPushes(q1, num, k, r + 1);
    PlayConcat(q, AllFree(num), num, Rounds(k), Pushes(r + 1));
    assert q2.availRing[Place(k + r, num)] == r;
    var xs := CountFrom(0, r + 1);
    assert !HoldsAt(q2.availRing, num, k, xs, 0);
  }

  /** Every run from a fresh queue keeps all unread elements of both rings, across every wrap of the
      16-bit indices, if and only if the queue size divides 2^16. */
  lemma RingsHoldIff(q: Queue, num: nat)
    requires Fresh(q, num)
    ensures WRAP % num == 0 <==>
            forall es :: var (q', v') := Play(q, AllFree(num), num, es); RingsHold(q', v', num)
  {
    if WRAP % num == 0 {
      forall es ensures var (q', v') := Play(q, AllFree(num), num, es); RingsHold(q', v', num) {
        FreshRepresents(q, num);
        PlayIsRun(q, AllFree(num), num, es);
      }
    } else {
      LosesElement(q, num);
    }
  }
}
