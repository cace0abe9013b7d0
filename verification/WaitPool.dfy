/** The pool of wait-queue entries of kernel/waitqueue.c: many lists threaded by index through one
    array. A ghost map gives the entries of each queue in order; the lemmas say what appending,
    popping and unlinking in the array do to these sequences. */
module WaitPool {
  import opened Common

  /** struct wq_entry; queues are named by their address, and NULL is None. */
  datatype Entry = Entry(task: int, timeout: nat, next: int, inUse: bool, owner: Option<nat>)

  type Chains = map<nat, seq<nat>>

  ghost predicate Inside(pool: seq<Entry>, c: seq<nat>) {
    forall k :: 0 <= k < |c| ==> c[k] < |pool|
  }

  /** The k-th entry of the list c of queue q. */
  ghost predicate LinkAt(pool: seq<Entry>, c: seq<nat>, q: nat, k: nat)
    requires k < |c|
  {
    && c[k] < |pool| && pool[c[k]].inUse && pool[c[k]].owner == Some(q)
    && pool[c[k]].next == if k + 1 < |c| then c[k + 1] else -1
  }

  /** c is the list that starts at head, and all of it belongs to q. */
  ghost predicate Linked(pool: seq<Entry>, head: int, c: seq<nat>, q: nat) {
    && NoDup(c)
    && head == (if c == [] then -1 else c[0])
    && forall k :: 0 <= k < |c| ==> LinkAt(pool, c, q, k)
  }

  ghost predicate AllLinked(pool: seq<Entry>, heads: map<nat, int>, chains: Chains) {
    heads.Keys == chains.Keys && forall q :: q in chains ==> Linked(pool, heads[q], chains[q], q)
  }

  ghost predicate OnChain(e: Entry, chains: Chains, i: nat) {
    e.owner.Some? && e.owner.value in chains && i in chains[e.owner.value]
  }

  /** An entry is in use exactly when it lies on the chain of its owner. */
  ghost predicate Shape(pool: seq<Entry>, heads: map<nat, int>, chains: Chains) {
    && AllLinked(pool, heads, chains)
    && forall i :: 0 <= i < |pool| ==> (pool[i].inUse <==> OnChain(pool[i], chains, i))
  }

  /** Chains are pairwise disjoint. */
  lemma ChainsDisjoint(pool: seq<Entry>, heads: map<nat, int>, chains: Chains, q: nat, r: nat, i: nat)
    requires AllLinked(pool, heads, chains) && q in chains && r in chains && i in chains[q] && i in chains[r]
    ensures q == r
  {
    ChainInPool(pool, heads, chains, q);
    ChainInPool(pool, heads, chains, r);
  }

  // ---- dropping entries from a sequence ----

  /** c without the elements of dead, in the same order. */
  function Drop(c: seq<nat>, dead: set<nat>): (d: seq<nat>)
    ensures forall x :: x in d <==> x in c && x !in dead
  {
    if c == [] then []
    else if c[0] in dead then Drop(c[1..], dead)
    else [c[0]] + Drop(c[1..], dead)
  }

  lemma {:induction false} DropNothing(c: seq<nat>, dead: set<nat>)
    requires forall x :: x in c ==> x !in dead
    ensures Drop(c, dead) == c
  {
    if c != [] { DropNothing(c[1..], dead); }
  }

  lemma {:induction false} DropConcat(c: seq<nat>, d: seq<nat>, dead: set<nat>)
    ensures Drop(c + d, dead) == Drop(c, dead) + Drop(d, dead)
  {
    if c == [] {
      assert c + d == d;
    } else {
      assert (c + d)[1..] == c[1..] + d;
      DropConcat(c[1..], d, dead);
    }
  }

  lemma {:induction false} DropTwice(c: seq<nat>, a: set<nat>, b: set<nat>)
    ensures Drop(Drop(c, a), b) == Drop(c, a + b)
  {
    if c != [] {
      DropTwice(c[1..], a, b);
      if c[0] !in a {
        assert Drop(c, a)[1..] == Drop(c[1..], a);
      }
    }
  }

  lemma DropStep(c: seq<nat>, dead: set<nat>)
    requires c != []
    ensures Drop(c, dead) == (if c[0] in dead then [] else [c[0]]) + Drop(c[1..], dead)
  {
  }

  /** Dropping the one element at position k. */
  lemma {:induction false} DropOne(c: seq<nat>, k: nat)
    requires NoDup(c) && k < |c|
    ensures Drop(c, {c[k]}) == c[..k] + c[k + 1..]
  {
    hide Drop;
    var rest := c[1..];
    DropStep(c, {c[k]});
    if k == 0 {
      DropNothing(rest, {c[0]});
      assert [] + rest == c[..0] + c[1..];
    } else {
      assert rest[k - 1] == c[k];
      DropOne(rest, k - 1);
      TailCut(c, k);
    }
  }

  lemma TailCut(c: seq<nat>, k: nat)
    requires 0 < k < |c|
    ensures [c[0]] + (c[1..][..k - 1] + c[1..][k..]) == c[..k] + c[k + 1..]
  {
    assert c[1..][..k - 1] == c[1..k] && c[1..][k..] == c[k + 1..];
  }

  // ---- queue_append ----

  /** The array after queue_append of entry idx to the queue with entries c. */
  ghost function Appended(pool: seq<Entry>, c: seq<nat>, idx: nat): seq<Entry>
    requires idx < |pool| && Inside(pool, c)
  {
    var pool1 := pool[idx := pool[idx].(next := -1)];
    if c == [] then pool1
    else
      var last := c[|c| - 1];
      assert last in c;
      pool1[last := pool1[last].(next := idx)]
  }

  ghost predicate CanAppend(pool: seq<Entry>, heads: map<nat, int>, chains: Chains, q: nat, idx: nat) {
    && AllLinked(pool, heads, chains) && q in chains && idx < |pool|
    && pool[idx].inUse && pool[idx].owner == Some(q) && idx !in chains[q]
  }

  lemma ChainInPool(pool: seq<Entry>, heads: map<nat, int>, chains: Chains, q: nat)
    requires AllLinked(pool, heads, chains) && q in chains
    ensures forall i :: i in chains[q] ==> i < |pool| && pool[i].inUse && pool[i].owner == Some(q)
    ensures Inside(pool, chains[q])
  {
    assert Linked(pool, heads[q], chains[q], q);
    var c := chains[q];
    forall i | i in c ensures i < |pool| && pool[i].inUse && pool[i].owner == Some(q) {
      var k :| 0 <= k < |c| && c[k] == i;
      assert LinkAt(pool, c, q, k);
    }
    forall k | 0 <= k < |c| ensures c[k] < |pool| {
      assert LinkAt(pool, c, q, k);
    }
  }

  lemma ChainOf(pool: seq<Entry>, heads: map<nat, int>, chains: Chains, q: nat)
    requires Shape(pool, heads, chains) && q in chains
    ensures q in heads && Linked(pool, heads[q], chains[q], q) && Inside(pool, chains[q])
  {
    hide OnChain;
    ChainInPool(pool, heads, chains, q);
  }

  /** A list is untouched by changes to entries outside it. */
  lemma LinkedFrame(pool: seq<Entry>, pool': seq<Entry>, head: int, c: seq<nat>, q: nat)
    requires Linked(pool, head, c, q) && |pool'| == |pool|
    requires forall i :: i in c && i < |pool| ==> pool'[i] == pool[i]
    ensures Linked(pool', head, c, q)
  {
    forall k | 0 <= k < |c| ensures LinkAt(pool', c, q, k) {
      assert LinkAt(pool, c, q, k);
      assert c[k] in c;
    }
  }

  lemma AppendOwn(pool: seq<Entry>, head: int, c: seq<nat>, q: nat, idx: nat)
    requires Linked(pool, head, c, q) && Inside(pool, c)
    requires idx < |pool| && pool[idx].inUse && pool[idx].owner == Some(q) && idx !in c
    ensures Linked(Appended(pool, c, idx), if c == [] then idx else head, c + [idx], q)
  {
    var pool', d := Appended(pool, c, idx), c + [idx];
    forall k | 0 <= k < |d| ensures LinkAt(pool', d, q, k) {
      if k < |c| { assert LinkAt(pool, c, q, k) && c[k] in c; }
    }
  }

  lemma AppendLinked(pool: seq<Entry>, heads: map<nat, int>, chains: Chains, q: nat, idx: nat)
    requires CanAppend(pool, heads, chains, q, idx)
    ensures Inside(pool, chains[q])
    ensures AllLinked(Appended(pool, chains[q], idx),
                      if chains[q] == [] then heads[q := idx] else heads,
                      chains[q := chains[q] + [idx]])
  {
    ChainInPool(pool, heads, chains, q);
    var c := chains[q];
    var pool' := Appended(pool, c, idx);
    var heads' := if c == [] then heads[q := idx] else heads;
    var chains' := chains[q := c + [idx]];
    forall r | r in chains' ensures Linked(pool', heads'[r], chains'[r], r) {
      if r == q {
        AppendOwn(pool, heads[q], c, q, idx);
      } else {
        ChainInPool(pool, heads, chains, r);
        if c != [] { assert c[|c| - 1] in c; }
        LinkedFrame(pool, pool', heads[r], chains[r], r);
      }
    }
    hide Linked, Appended;
  }

  // ---- queue_remove and pool_free ----

  function Freed(e: Entry): Entry {
    e.(inUse := false, owner := None)
  }

  /** The array after entry c[k] is unlinked from its queue and freed. */
  ghost function Unlinked(pool: seq<Entry>, c: seq<nat>, k: nat): seq<Entry>
    requires k < |c| && Inside(pool, c)
  {
    var i := c[k];
    assert i in c;
    var pool1 := if k == 0 then pool else
      (assert c[k - 1] in c; pool[c[k - 1] := pool[c[k - 1]].(next := pool[i].next)]);
    pool1[i := Freed(pool1[i])]
  }

  /** Unlinking changes the freed entry and the one before it. */
  lemma UnlinkFrame(pool: seq<Entry>, c: seq<nat>, k: nat, i: nat)
    requires k < |c| && Inside(pool, c) && NoDup(c) && i < |pool|
    ensures |Unlinked(pool, c, k)| == |pool|
    ensures Unlinked(pool, c, k)[i] ==
            if i == c[k] then Freed(pool[i])
            else if k > 0 && i == c[k - 1] then pool[i].(next := pool[c[k]].next) else pool[i]
  {
    assert c[k] in c;
    if k > 0 { assert c[k - 1] in c; }
  }

  lemma UnlinkOwn(pool: seq<Entry>, head: int, c: seq<nat>, q: nat, k: nat)
    requires Linked(pool, head, c, q) && k < |c| && Inside(pool, c)
    ensures c[0] in c
    ensures Linked(Unlinked(pool, c, k), if k == 0 then pool[c[0]].next else head, c[..k] + c[k + 1..], q)
  {
    hide Unlinked;
    var d := c[..k] + c[k + 1..];
    assert LinkAt(pool, c, q, k);
    assert LinkAt(pool, c, q, 0);
    assert forall j :: 0 <= j < |d| ==> d[j] == if j < k then c[j] else c[j + 1];
    forall j | 0 <= j < |d| ensures LinkAt(Unlinked(pool, c, k), d, q, j) {
      var j' := if j < k then j else j + 1;
      assert LinkAt(pool, c, q, j') && c[j'] in c;
      UnlinkFrame(pool, c, k, c[j']);
    }
  }

  lemma UnlinkOther(pool: seq<Entry>, heads: map<nat, int>, chains: Chains, q: nat, k: nat, r: nat)
    requires AllLinked(pool, heads, chains) && q in chains && k < |chains[q]| && r in chains && r != q
    requires Inside(pool, chains[q])
    ensures Linked(Unlinked(pool, chains[q], k), heads[r], chains[r], r)
  {
    hide Unlinked;
    ChainInPool(pool, heads, chains, q);
    ChainInPool(pool, heads, chains, r);
    assert Linked(pool, heads[q], chains[q], q);
    UnlinkFrame(pool, chains[q], k, chains[q][k]);
    assert chains[q][k] in chains[q] && (k > 0 ==> chains[q][k - 1] in chains[q]);
    forall i | i in chains[r] ensures Unlinked(pool, chains[q], k)[i] == pool[i] {
      UnlinkFrame(pool, chains[q], k, i);
    }
    LinkedFrame(pool, Unlinked(pool, chains[q], k), heads[r], chains[r], r);
  }

  lemma UnlinkLinked(pool: seq<Entry>, heads: map<nat, int>, chains: Chains, q: nat, k: nat)
    requires AllLinked(pool, heads, chains) && q in chains && k < |chains[q]|
    ensures Inside(pool, chains[q])
    ensures var c := chains[q];
            AllLinked(Unlinked(pool, c, k), if k == 0 then heads[q := pool[c[0]].next] else heads,
                      chains[q := Drop(c, {c[k]})])
  {
    hide Unlinked;
    ChainInPool(pool, heads, chains, q);
    var c := chains[q];
    assert Linked(pool, heads[q], c, q);
    DropOne(c, k);
    UnlinkOwn(pool, heads[q], c, q, k);
    hide Linked;
    var heads', chains' := if k == 0 then heads[q := pool[c[0]].next] else heads, chains[q := Drop(c, {c[k]})];
    forall r | r in chains' ensures Linked(Unlinked(pool, c, k), heads'[r], chains'[r], r) {
      if r != q { UnlinkOther(pool, heads, chains, q, k, r); }
    }
  }

  /** Unlinking entry k of a queue and freeing it keeps the shape: the entry leaves its chain and
      all others stay as they are. */
  lemma UnlinkShape(pool: seq<Entry>, heads: map<nat, int>, chains: Chains, q: nat, k: nat)
    requires Shape(pool, heads, chains) && q in chains && k < |chains[q]|
    ensures Inside(pool, chains[q])
    ensures var c := chains[q];
            Shape(Unlinked(pool, c, k), if k == 0 then heads[q := pool[c[0]].next] else heads,
                  chains[q := Drop(c, {c[k]})])
  {
    hide Unlinked;
    UnlinkLinked(pool, heads, chains, q, k);
    ChainInPool(pool, heads, chains, q);
    var c := chains[q];
    assert NoDup(c) by { assert Linked(pool, heads[q], c, q); }
    hide Linked;
    assert c[k] in c && (k > 0 ==> c[k - 1] in c);
    var pool', chains' := Unlinked(pool, c, k), chains[q := Drop(c, {c[k]})];
    UnlinkFrame(pool, c, k, c[k]);
    forall j | 0 <= j < |pool'| ensures pool'[j].inUse <==> OnChain(pool'[j], chains', j) {
      UnlinkFrame(pool, c, k, j);
      assert pool[j].inUse <==> OnChain(pool[j], chains, j);
    }
  }

  // ---- a new entry ----

  /** The array after a free entry idx is filled in for task on queue q and appended. */
  ghost function Enqueued(pool: seq<Entry>, c: seq<nat>, idx: nat, task: int, timeout: nat, q: nat): seq<Entry>
    requires idx < |pool| && Inside(pool, c)
  {
    Appended(pool[idx := Entry(task, timeout, -1, true, Some(q))], c, idx)
  }

  lemma EnqueueLinked(pool: seq<Entry>, heads: map<nat, int>, chains: Chains, q: nat, idx: nat, e: Entry)
    requires Shape(pool, heads, chains) && q in chains && idx < |pool| && !pool[idx].inUse
    requires e.inUse && e.owner == Some(q)
    ensures CanAppend(pool[idx := e], heads, chains, q, idx)
  {
    hide Linked;
    forall r | r in chains ensures Linked(pool[idx := e], heads[r], chains[r], r) && idx !in chains[r] {
      ChainInPool(pool, heads, chains, r);
      LinkedFrame(pool, pool[idx := e], heads[r], chains[r], r);
    }
  }

  lemma AppendedAt(pool: seq<Entry>, c: seq<nat>, idx: nat, i: nat)
    requires idx < |pool| && i < |pool| && Inside(pool, c) && idx !in c
    ensures |Appended(pool, c, idx)| == |pool|
    ensures Appended(pool, c, idx)[i] ==
            if i == idx then pool[i].(next := -1)
            else if c != [] && i == c[|c| - 1] then pool[i].(next := idx) else pool[i]
  {
    if c != [] { assert c[|c| - 1] in c; }
  }

  /** Filling in a free entry and appending it keeps the shape. */
  lemma EnqueueShape(pool: seq<Entry>, heads: map<nat, int>, chains: Chains, q: nat, idx: nat, task: int, timeout: nat)
    requires Shape(pool, heads, chains) && q in chains && idx < |pool| && !pool[idx].inUse
    ensures Inside(pool, chains[q]) && idx !in chains[q]
    ensures Shape(Enqueued(pool, chains[q], idx, task, timeout, q),
                  if chains[q] == [] then heads[q := idx] else heads, chains[q := chains[q] + [idx]])
  {
    hide Linked, Appended;
    var e := Entry(task, timeout, -1, true, Some(q));
    var c := chains[q];
    ChainInPool(pool, heads, chains, q);
    EnqueueLinked(pool, heads, chains, q, idx, e);
    AppendLinked(pool[idx := e], heads, chains, q, idx);
    var pool', chains' := Enqueued(pool, c, idx, task, timeout, q), chains[q := c + [idx]];
    AppendedAt(pool[idx := e], c, idx, idx);
    forall j | 0 <= j < |pool'| ensures pool'[j].inUse <==> OnChain(pool'[j], chains', j) {
      AppendedAt(pool[idx := e], c, idx, j);
      assert pool[j].inUse <==> OnChain(pool[j], chains, j);
    }
  }
}
