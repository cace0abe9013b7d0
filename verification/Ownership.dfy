/** Which address space owns which table: every table above the root is owned by the root at the
    end of its parent chain, unless the chain enters it through the shared entry 0. vm_destroy
    frees exactly what the root owns, each page once. */
module Ownership {
  import opened Common
  import opened PageAllocator
  import opened PageTables
  import opened TableForest
  import opened Mapping

  ghost predicate ParentsOk(F: Forest) {
    forall c :: c in F.level && F.level[c] > 0 ==>
      c in F.parent && F.parent[c].0 in F.level && F.level[F.parent[c].0] + 1 == F.level[c]
  }

  lemma WellFormedParents(s: Phys, lay: Layout, F: Forest)
    requires WellFormed(s, lay, F)
    ensures ParentsOk(F)
  {
    hide EntryOk, RootOk, Follow;
    forall c | c in F.level && F.level[c] > 0
      ensures c in F.parent && F.parent[c].0 in F.level && F.level[F.parent[c].0] + 1 == F.level[c]
    {
      assert ParentOk(F, s.mem, c);
    }
  }

  /** The ancestor of q at level l. */
  ghost function Anc(F: Forest, q: nat, l: nat): (a: nat)
    requires ParentsOk(F) && q in F.level && l <= F.level[q]
    ensures a in F.level && F.level[a] == l
    decreases F.level[q]
  {
    if F.level[q] == l then q else Anc(F, F.parent[q].0, l)
  }

  /** The entry of the level-l ancestor of q that the chain of q goes through. */
  ghost function Slot(F: Forest, q: nat, l: nat): nat
    requires ParentsOk(F) && q in F.level && l < F.level[q]
  {
    F.parent[Anc(F, q, l + 1)].1
  }

  lemma {:induction false} AncStep(F: Forest, q: nat, l: nat)
    requires ParentsOk(F) && q in F.level && l < F.level[q]
    ensures Anc(F, q, l) == F.parent[Anc(F, q, l + 1)].0
    decreases F.level[q]
  {
    if F.level[q] > l + 1 { AncStep(F, F.parent[q].0, l); }
  }

  /** The tables in the subtree of p. */
  ghost function Sub(F: Forest, p: nat): set<nat>
    requires ParentsOk(F) && p in F.level
  {
    set q | q in F.level && F.level[p] <= F.level[q] && Anc(F, q, F.level[p]) == p
  }

  /** The tables strictly below p whose chain enters p at entry i or later. */
  ghost function SubFrom(F: Forest, p: nat, i: nat): set<nat>
    requires ParentsOk(F) && p in F.level
  {
    set q | q in F.level && F.level[p] < F.level[q] && Anc(F, q, F.level[p]) == p && i <= Slot(F, q, F.level[p])
  }

  /** What an address space owns: its root, and all tables entered elsewhere than through entry 0. */
  ghost function Owned(F: Forest, root: nat): set<nat>
    requires ParentsOk(F) && root in F.level
  {
    SubFrom(F, root, 1) + {root}
  }

  lemma OwnedIs(F: Forest, root: nat)
    requires ParentsOk(F) && root in F.level
    ensures Owned(F, root) == SubFrom(F, root, 1) + {root} && root !in SubFrom(F, root, 1)
    ensures Owned(F, root) <= F.level.Keys
  {
    hide Anc, Slot, ParentsOk;
  }

  /** Ownership, table by table. */
  lemma OwnedIff(F: Forest, root: nat, q: nat)
    requires ParentsOk(F) && F.IsRoot(root) && q in F.level
    ensures q in Owned(F, root) <==> q == root || (F.level[q] > 0 && Anc(F, q, 0) == root && Slot(F, q, 0) >= 1)
  {
    hide Anc, Slot, ParentsOk;
  }

  // ---- the order of vm_free_subtree ----

  /** The pages that vm_free_subtree(p, level) passes to page_free, in order; from entry i on. */
  ghost function FreeFrom(mem: Mem, p: nat, level: nat, i: nat): seq<nat>
    requires level <= 3 && i <= ENTRIES
    decreases 3 - level, ENTRIES - i
  {
    if i == ENTRIES then [] else
      (if level < 3 && Follow(mem, p, i, level).Next?
       then FreeFrom(mem, Follow(mem, p, i, level).page, level + 1, 0) + [Follow(mem, p, i, level).page]
       else []) + FreeFrom(mem, p, level, i + 1)
  }

  ghost function FreeList(mem: Mem, p: nat, level: nat): seq<nat>
    requires level <= 3
  {
    FreeFrom(mem, p, level, 0) + [p]
  }

  /** xs lists the elements of S, each once. */
  ghost predicate Lists(xs: seq<nat>, S: set<nat>) {
    && (forall x :: x in xs <==> x in S)
    && NoDup(xs)
  }

  lemma ListsConcat(xs: seq<nat>, S: set<nat>, ys: seq<nat>, T: set<nat>)
    requires Lists(xs, S) && Lists(ys, T) && S !! T
    ensures Lists(xs + ys, S + T)
  {
    var zs := xs + ys;
    forall i, j | 0 <= i < j < |zs| ensures zs[i] != zs[j] {
      if i < |xs| <= j {
        assert xs[i] in S && ys[j - |xs|] in T;
      }
    }
  }

  // ---- subtrees and entries ----

  /** The subtree of p splits into the subtrees of its entries: entry i contributes the subtree of
      the table it points at. Entry 0 of a root is left out, for it may be shared. */
  lemma SubFromStep(s: Phys, lay: Layout, F: Forest, p: nat, i: nat)
    requires WellFormed(s, lay, F) && ParentsOk(F) && p in F.level && F.level[p] < 3 && i < ENTRIES
    requires F.level[p] == 0 ==> i > 0
    ensures var h := Follow(s.mem, p, i, F.level[p]);
            if h.Next? then
              && h.page in F.level && F.level[h.page] == F.level[p] + 1
              && Sub(F, h.page) !! SubFrom(F, p, i + 1)
              && SubFrom(F, p, i) == Sub(F, h.page) + SubFrom(F, p, i + 1)
            else SubFrom(F, p, i) == SubFrom(F, p, i + 1)
  {
    hide Follow, Anc, Slot, WellFormed, Sub, SubFrom, ParentsOk;
    var h := Follow(s.mem, p, i, F.level[p]);
    SubKeys(F, p, i);
    if h.Next? {
      FollowChild(s, lay, F, p, i);
      SubKeys(F, h.page, i);
    }
    forall q | q in F.level
      ensures q in SubFrom(F, p, i) <==> (h.Next? && q in Sub(F, h.page)) || q in SubFrom(F, p, i + 1)
      ensures !(h.Next? && q in Sub(F, h.page) && q in SubFrom(F, p, i + 1))
    {
      SplitsAt(s, lay, F, p, i, q);
    }
  }

  lemma SubKeys(F: Forest, p: nat, i: nat)
    requires ParentsOk(F) && p in F.level
    ensures Sub(F, p) <= F.level.Keys && SubFrom(F, p, i) <= F.level.Keys && SubFrom(F, p, i + 1) <= F.level.Keys
  {
    hide Anc, Slot, ParentsOk;
  }

  lemma SplitsAt(s: Phys, lay: Layout, F: Forest, p: nat, i: nat, q: nat)
    requires WellFormed(s, lay, F) && ParentsOk(F) && p in F.level && F.level[p] < 3 && i < ENTRIES
    requires (F.level[p] == 0 ==> i > 0) && q in F.level
    ensures var h := Follow(s.mem, p, i, F.level[p]);
            && (h.Next? ==> h.page in F.level)
            && (q in SubFrom(F, p, i) <==> (h.Next? && q in Sub(F, h.page)) || q in SubFrom(F, p, i + 1))
            && !(h.Next? && q in Sub(F, h.page) && q in SubFrom(F, p, i + 1))
  {
    hide Follow, Anc, Slot, WellFormed, ParentsOk;
    if Follow(s.mem, p, i, F.level[p]).Next? { FollowChild(s, lay, F, p, i); }
    if F.level[p] < F.level[q] { EntersBy(s, lay, F, p, i, q); }
  }

  /** The chain of q goes through entry i of p exactly when it goes through the table behind it. */
  lemma EntersBy(s: Phys, lay: Layout, F: Forest, p: nat, i: nat, q: nat)
    requires WellFormed(s, lay, F) && ParentsOk(F) && p in F.level && F.level[p] < 3 && i < ENTRIES
    requires (F.level[p] == 0 ==> i > 0) && q in F.level && F.level[p] < F.level[q]
    ensures var l, h := F.level[p], Follow(s.mem, p, i, F.level[p]);
            Anc(F, q, l) == p && Slot(F, q, l) == i <==> h.Next? && Anc(F, q, l + 1) == h.page
  {
    hide Follow, Anc, WellFormed, ParentOk, ParentsOk;
    var l := F.level[p];
    AncStep(F, q, l);
    ParentEntry(s, lay, F, p, i, Anc(F, q, l + 1));
  }

  /** c hangs at entry i of p exactly when that entry leads to it. */
  lemma ParentEntry(s: Phys, lay: Layout, F: Forest, p: nat, i: nat, c: nat)
    requires WellFormed(s, lay, F) && p in F.level && F.level[p] < 3 && i < ENTRIES && (F.level[p] == 0 ==> i > 0)
    requires c in F.level && F.level[c] == F.level[p] + 1
    ensures c in F.parent
    ensures F.parent[c] == (p, i) <==> Follow(s.mem, p, i, F.level[p]) == Next(c)
  {
    hide Follow, WellFormed, ParentsOk;
    WfParent(s, lay, F, c);
    if Follow(s.mem, p, i, F.level[p]).Next? { FollowChild(s, lay, F, p, i); }
  }

  lemma SubIsFromZero(F: Forest, p: nat)
    requires ParentsOk(F) && p in F.level
    ensures Sub(F, p) == SubFrom(F, p, 0) + {p} && p !in SubFrom(F, p, 0)
  {
    forall q | q in F.level && F.level[q] == F.level[p] ensures Anc(F, q, F.level[p]) == q {
    }
    hide Anc;
  }

  lemma SubFromEnd(s: Phys, lay: Layout, F: Forest, p: nat)
    requires WellFormed(s, lay, F) && ParentsOk(F) && p in F.level
    ensures SubFrom(F, p, ENTRIES) == {}
    ensures F.level[p] == 3 ==> forall i :: 0 <= i <= ENTRIES ==> SubFrom(F, p, i) == {}
  {
    hide WellFormed, Follow, Anc, ParentsOk;
    WfBasics(s, lay, F);
    forall q | q in F.level && F.level[p] < F.level[q] ensures Slot(F, q, F.level[p]) < ENTRIES {
      WfParent(s, lay, F, Anc(F, q, F.level[p] + 1));
    }
  }

  /** vm_free_subtree visits the subtree, each table once. */
  lemma {:induction false} FreeFromLists(s: Phys, lay: Layout, F: Forest, p: nat, i: nat)
    requires WellFormed(s, lay, F) && ParentsOk(F) && p in F.level && F.level[p] <= 3 && i <= ENTRIES
    requires F.level[p] == 0 ==> i > 0
    ensures Lists(FreeFrom(s.mem, p, F.level[p], i), SubFrom(F, p, i))
    decreases 3 - F.level[p], ENTRIES - i
  {
    hide WellFormed, Follow, Sub, SubFrom, Lists, FreeFrom, ParentsOk;
    var l := F.level[p];
    SubFromEnd(s, lay, F, p);
    FreeFromStep(s.mem, p, l, i);
    if i == ENTRIES {
      ListsEmpty();
    } else {
      FreeFromLists(s, lay, F, p, i + 1);
      var rest := FreeFrom(s.mem, p, l, i + 1);
      assert [] + rest == rest;
      if l < 3 {
        SubFromStep(s, lay, F, p, i);
        var h := Follow(s.mem, p, i, l);
        if h.Next? {
          FreeListLists(s, lay, F, h.page);
          ListsConcat(FreeList(s.mem, h.page, l + 1), Sub(F, h.page), rest, SubFrom(F, p, i + 1));
        }
      }
    }
  }

  lemma FreeFromStep(mem: Mem, p: nat, level: nat, i: nat)
    requires level <= 3 && i <= ENTRIES
    ensures FreeFrom(mem, p, level, i) ==
            if i == ENTRIES then []
            else
              (if level < 3 && Follow(mem, p, i, level).Next?
               then FreeList(mem, Follow(mem, p, i, level).page, level + 1) else [])
              + FreeFrom(mem, p, level, i + 1)
  {
    hide Follow, ParentsOk;
  }

  lemma ListsEmpty()
    ensures Lists([], {})
  {
  }

  lemma ListsSingle(x: nat)
    ensures Lists([x], {x})
  {
  }

  lemma {:induction false} FreeListLists(s: Phys, lay: Layout, F: Forest, p: nat)
    requires WellFormed(s, lay, F) && ParentsOk(F) && p in F.level && 0 < F.level[p] <= 3
    ensures Lists(FreeList(s.mem, p, F.level[p]), Sub(F, p))
    decreases 3 - F.level[p], ENTRIES + 1
  {
    hide WellFormed, Follow, Sub, SubFrom, Lists, FreeFrom, ParentsOk;
    FreeFromLists(s, lay, F, p, 0);
    SubIsFromZero(F, p);
    ListsSingle(p);
    ListsConcat(FreeFrom(s.mem, p, F.level[p], 0), SubFrom(F, p, 0), [p], {p});
  }

  /** The pages that vm_destroy gives back, in order. */
  ghost function DestroyList(mem: Mem, root: nat): seq<nat> {
    FreeFrom(mem, root, 0, 1) + [root]
  }

  /** vm_destroy frees what the address space owns, each page exactly once. */
  lemma DestroyListsOwned(s: Phys, lay: Layout, F: Forest, root: nat)
    requires WellFormed(s, lay, F) && ParentsOk(F) && F.IsRoot(root)
    ensures Lists(DestroyList(s.mem, root), Owned(F, root))
    ensures Owned(F, root) <= F.level.Keys
  {
    hide WellFormed, Lists, Owned, SubFrom, FreeFrom, ParentsOk;
    OwnedIs(F, root);
    FreeFromLists(s, lay, F, root, 1);
    ListsSingle(root);
    ListsConcat(FreeFrom(s.mem, root, 0, 1), SubFrom(F, root, 1), [root], {root});
  }

  // ---- after the destruction ----

  ghost function Prune(F: Forest, dead: set<nat>): Forest {
    Forest(F.level - dead, F.parent)
  }

  /** Ownership goes with the parent entry. */
  lemma OwnedByParent(F: Forest, root: nat, c: nat)
    requires ParentsOk(F) && F.IsRoot(root) && c in F.level && F.level[c] > 0
    ensures c in Owned(F, root) <==>
              var (p, i) := F.parent[c];
              if F.level[p] == 0 then p == root && i >= 1 else p in Owned(F, root)
  {
    var (p, i) := F.parent[c];
    assert Anc(F, c, 0) == Anc(F, p, 0);
    if F.level[p] == 0 {
      assert Anc(F, c, 1) == c;
    } else {
      assert Anc(F, c, 1) == Anc(F, p, 1);
    }
  }

  /** No table of another address space, and none of the kernel's, is owned by root. */
  lemma OwnedDisjoint(F: Forest, r: nat, r': nat)
    requires ParentsOk(F) && F.IsRoot(r) && F.IsRoot(r') && r != r'
    ensures Owned(F, r) !! Owned(F, r')
  {
    hide Slot, ParentsOk;
  }

  lemma PruneEntry(s: Phys, lay: Layout, F: Forest, root: nat, p: nat, i: nat)
    requires WellFormed(s, lay, F) && ParentsOk(F) && F.IsRoot(root) && root != lay.pgd
    requires p in F.level && p !in Owned(F, root) && i < ENTRIES
    ensures EntryOk(Prune(F, Owned(F, root)), lay, s.mem, p, i)
  {
    hide WellFormed, IsValid, IsTable, Target, Owned, ParentsOk;
    WfEntry(s, lay, F, p, i);
    WfBasics(s, lay, F);
    OwnedIff(F, root, root);
    if F.level[p] < 3 && IsValid(s.mem[p][i]) && IsTable(s.mem[p][i]) {
      var c := Target(s.mem[p][i]);
      OwnedByParent(F, root, c);
    }
  }

  /** A root owns no other root. */
  lemma RootsApart(F: Forest, root: nat, r: nat)
    requires ParentsOk(F) && F.IsRoot(root) && F.IsRoot(r) && r != root
    ensures r !in Owned(F, root)
  {
    hide Owned, ParentsOk;
    OwnedIff(F, root, r);
  }

  lemma PruneParent(s: Phys, lay: Layout, F: Forest, root: nat, c: nat)
    requires WellFormed(s, lay, F) && ParentsOk(F) && F.IsRoot(root) && root != lay.pgd
    requires c in F.level && c !in Owned(F, root)
    ensures ParentOk(Prune(F, Owned(F, root)), s.mem, c)
  {
    hide WellFormed, Follow, Owned, ParentsOk;
    WfParent(s, lay, F, c);
    if F.level[c] > 0 {
      OwnedByParent(F, root, c);
      var (p, i) := F.parent[c];
      if F.level[p] == 0 {
        WfBasics(s, lay, F);
        RootEntryZero(s, lay, F, p);
        KeptRoot(s, lay, F, root, c);
        RootsApart(F, root, p);
      }
    }
  }

  /** A table below a root that is not owned by root is not below root at all. */
  lemma KeptRoot(s: Phys, lay: Layout, F: Forest, root: nat, c: nat)
    requires WellFormed(s, lay, F) && ParentsOk(F) && F.IsRoot(root) && root != lay.pgd
    requires c in F.level && F.level[c] == 1 && c !in Owned(F, root)
    ensures F.parent[c].0 != root
  {
    hide WellFormed, Follow, Owned, ParentsOk;
    WfParent(s, lay, F, c);
    WfBasics(s, lay, F);
    OwnedByParent(F, root, c);
    RootEntryZero(s, lay, F, root);
  }

  /** Entry 0 of every root leads to the level-1 table of the kernel. */
  lemma RootEntryZero(s: Phys, lay: Layout, F: Forest, r: nat)
    requires WellFormed(s, lay, F) && F.IsRoot(r)
    ensures Follow(s.mem, r, 0, 0) == Next(lay.pud)
  {
    hide EntryOk, ParentOk, IsValid, IsTable, Target, TableDesc, ParentsOk;
    assert RootOk(F, lay, s.mem, r);
    TableDescFacts(lay.pud);
  }

  /** After vm_destroy the remaining tables are still a well-formed forest. */
  lemma DestroyWellFormed(s: Phys, lay: Layout, F: Forest, root: nat)
    requires WellFormed(s, lay, F) && ParentsOk(F) && F.IsRoot(root) && root != lay.pgd
    ensures WellFormed(Phys(s.mem, s.used - Owned(F, root)), lay, Prune(F, Owned(F, root)))
  {
    hide EntryOk, ParentOk, RootOk, Owned, ParentsOk;
    var dead := Owned(F, root);
    var s', F' := Phys(s.mem, s.used - dead), Prune(F, dead);
    RootsApart(F, root, lay.pgd);
    OwnedByParent(F, root, lay.pud);
    forall p, i | p in F'.level && 0 <= i < ENTRIES ensures EntryOk(F', lay, s'.mem, p, i) {
      PruneEntry(s, lay, F, root, p, i);
    }
    forall c | c in F'.level ensures ParentOk(F', s'.mem, c) {
      PruneParent(s, lay, F, root, c);
    }
    forall p | p in F'.level ensures RootOk(F', lay, s'.mem, p) {
      PruneRoot(s, lay, F, dead, p);
    }
  }

  lemma PruneRoot(s: Phys, lay: Layout, F: Forest, dead: set<nat>, p: nat)
    requires WellFormed(s, lay, F) && p in F.level && p !in dead
    ensures MemOk(s.mem) && p < MAX_PAGES && RootOk(Prune(F, dead), lay, s.mem, p)
  {
    hide WellFormed, ParentsOk;
    WfRoot(s, lay, F, p);
  }

  // ---- ownership of the tables that mm_map_page makes ----

  /** A table made below entry i of p belongs to r. */
  ghost predicate InSpace(F: Forest, p: nat, i: nat, r: nat)
    requires ParentsOk(F) && p in F.level && F.IsRoot(r)
  {
    if F.level[p] == 0 then p == r && i >= 1 else p in Owned(F, r)
  }

  lemma {:induction false} AncGrow(F: Forest, page: nat, i: nat, q: nat, c: nat, l: nat)
    requires ParentsOk(F) && page in F.level && q !in F.level && c in F.level && l <= F.level[c]
    requires ParentsOk(Grow(F, page, i, q))
    ensures Anc(Grow(F, page, i, q), c, l) == Anc(F, c, l)
    decreases F.level[c]
  {
    if F.level[c] > l { AncGrow(F, page, i, q, F.parent[c].0, l); }
  }

  lemma GrowParents(F: Forest, page: nat, i: nat, q: nat)
    requires ParentsOk(F) && page in F.level && q !in F.level
    ensures ParentsOk(Grow(F, page, i, q))
  {
  }

  lemma GrowOwned(F: Forest, page: nat, i: nat, q: nat, r: nat)
    requires ParentsOk(F) && page in F.level && q !in F.level && F.IsRoot(r)
    requires ParentsOk(Grow(F, page, i, q))
    ensures Owned(Grow(F, page, i, q), r) ==
            Owned(F, r) + if InSpace(F, page, i, r) then {q} else {}
  {
    hide Owned, Anc, ParentsOk;
    var F' := Grow(F, page, i, q);
    forall c | c in F.level ensures c in Owned(F', r) <==> c in Owned(F, r) {
      GrowOwnedAt(F, page, i, q, r, c);
    }
    OwnedIs(F, r);
    OwnedIs(F', r);
    OwnedByParent(F', r, q);
    if F.level[page] > 0 { GrowOwnedAt(F, page, i, q, r, page); }
  }

  lemma GrowOwnedAt(F: Forest, page: nat, i: nat, q: nat, r: nat, c: nat)
    requires ParentsOk(F) && page in F.level && q !in F.level && F.IsRoot(r) && c in F.level
    requires ParentsOk(Grow(F, page, i, q))
    ensures c in Owned(Grow(F, page, i, q), r) <==> c in Owned(F, r)
  {
    hide Owned, Anc, ParentsOk;
    OwnedIff(F, r, c);
    OwnedIff(Grow(F, page, i, q), r, c);
    AncGrow(F, page, i, q, c, 0);
    if F.level[c] > 0 { AncGrow(F, page, i, q, c, 1); }
  }

  lemma ChildOwned(F: Forest, lay: Layout, p: nat, i: nat, c: nat, r: nat)
    requires ParentsOk(F) && LayoutOk(F, lay) && p in F.level && F.IsRoot(r) && IsChild(F, lay, p, i, c)
    ensures c in Owned(F, r) <==> InSpace(F, p, i, r)
  {
    hide Owned, ParentsOk;
    OwnedByParent(F, r, c);
  }

  ghost predicate OwnedGrows(F: Forest, F': Forest, r: nat, more: set<nat>) {
    && ParentsOk(F) && ParentsOk(F') && F.IsRoot(r) && F'.IsRoot(r)
    && Owned(F', r) == Owned(F, r) + more
  }

  lemma DescendOwned(s: Phys, lay: Layout, F: Forest, page: nat, i: nat, r: nat)
    requires CanDescend(s, lay, F, page, i) && ParentsOk(F) && F.IsRoot(r)
    ensures var s' := Descend(s, page, i, F.level[page]).0;
            OwnedGrows(F, DescendForest(F, s, page, i), r,
                       if InSpace(F, page, i, r) then s'.used - s.used else {})
  {
    hide IsValid, EntryOk, ParentOk, RootOk, Descend, Owned, InSpace, ParentsOk;
    DescendIsAttach(s, lay, F, page, i);
    var q := AllocPage(s).1;
    if !IsValid(s.mem[page][i]) && q != MAX_PAGES {
      GrowParents(F, page, i, q);
      GrowOwned(F, page, i, q, r);
    }
  }

  /** The tables that mm_map_page makes go to the address space it was called for, or to nobody
      when they lie in the shared region. */
  lemma MapOwned(s: Phys, lay: Layout, F: Forest, root: nat, v: VPage, r: nat)
    requires WellFormed(s, lay, F) && ParentsOk(F) && F.IsRoot(root) && F.IsRoot(r) && v.Ok()
    ensures var s' := Prepare(s, root, v).0;
            OwnedGrows(F, MapForest(F, s, root, v), r,
                       if r == root && v.l0 > 0 then s'.used - s.used else {})
  {
    hide Descend, DescendForest, EntryOk, ParentOk, RootOk, Follow, SameWalks, AllocPage, Owned, LinksKept, ParentsOk;
    DescendedRefl(s, lay, F);
    StepDown(s, s, lay, F, F, root, v.l0);
    DescendOwned(s, lay, F, root, v.l0, r);
    var (s1, p1) := Descend(s, root, v.l0, 0);
    var F1 := DescendForest(F, s, root, v.l0);
    if p1.Some? {
      FollowChild(s1, lay, F1, root, v.l0);
      ChildOwned(F1, lay, root, v.l0, p1.value, r);
      StepDown(s, s1, lay, F, F1, p1.value, v.l1);
      DescendOwned(s1, lay, F1, p1.value, v.l1, r);
      MapOwned2(s, s1, lay, F, F1, p1.value, v, r, r == root && v.l0 > 0);
    }
  }

  lemma MapOwned2(s: Phys, s1: Phys, lay: Layout, F: Forest, F1: Forest, p1: nat, v: VPage, r: nat, mine: bool)
    requires Descended(s, s1, lay, F, F1) && v.Ok() && p1 in F1.level && F1.level[p1] == 1 && F.IsRoot(r)
    requires OwnedGrows(F, F1, r, if mine then s1.used - s.used else {})
    requires p1 in Owned(F1, r) <==> mine
    ensures var (s2, p2) := Descend(s1, p1, v.l1, 1);
            var F2 := DescendForest(F1, s1, p1, v.l1);
            OwnedGrows(F, F2, r, if mine then s2.used - s.used else {})
    ensures var (s2, p2) := Descend(s1, p1, v.l1, 1);
            var F2 := DescendForest(F1, s1, p1, v.l1);
            p2.Some? ==>
              && p2.value < MAX_PAGES && p2.value in F2.level
              && OwnedGrows(F, DescendForest(F2, s2, p2.value, v.l2), r,
                            if mine then Descend(s2, p2.value, v.l2, 2).0.used - s.used else {})
  {
    hide Descend, DescendForest, EntryOk, ParentOk, RootOk, Follow, SameWalks, AllocPage, Owned, LinksKept, ParentsOk;
    StepDown(s, s1, lay, F, F1, p1, v.l1);
    DescendOwned(s1, lay, F1, p1, v.l1, r);
    DescendGrows(s1, lay, F1, p1, v.l1);
    var (s2, p2) := Descend(s1, p1, v.l1, 1);
    var F2 := DescendForest(F1, s1, p1, v.l1);
    if p2.Some? {
      FollowChild(s2, lay, F2, p1, v.l1);
      ChildOwned(F2, lay, p1, v.l1, p2.value, r);
      DescendOwned(s2, lay, F2, p2.value, v.l2, r);
      DescendGrows(s2, lay, F2, p2.value, v.l2);
    }
  }

  lemma DescendGrows(s: Phys, lay: Layout, F: Forest, page: nat, i: nat)
    requires CanDescend(s, lay, F, page, i)
    ensures s.used <= Descend(s, page, i, F.level[page]).0.used
    ensures F.level.Keys !! (Descend(s, page, i, F.level[page]).0.used - s.used)
  {
    hide IsValid, EntryOk, ParentOk, RootOk, Descend, ParentsOk;
    DescendIsAttach(s, lay, F, page, i);
  }
}
