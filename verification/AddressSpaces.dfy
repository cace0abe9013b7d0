/** Address spaces of kernel/vm.c: creation, mapping and destruction interleaved in any order, with
    the page allocator and its other clients. The invariant ties the tables of each live address
    space to the pages taken on its behalf, and the live ASIDs to the ASID bitmap. */
module AddressSpaces {
  import opened PageAllocator
  import opened PageTables
  import opened TableForest
  import opened Mapping
  import opened Ownership

  const ASID_MAX: nat := 256

  // ---- vm_create on memory ----

  /** A zeroed level-0 table whose entry 0 is a copy of the kernel's. */
  ghost function NewRoot(s: Phys, lay: Layout, q: nat): (s': Phys)
    requires PhysOk(s) && lay.pgd < MAX_PAGES && q < MAX_PAGES
    ensures PhysOk(s')
  {
    Phys(Store(s.mem[q := Zeros()], q, 0, s.mem[lay.pgd][0]), s.used + {q})
  }

  ghost function PlantRoot(F: Forest, q: nat): Forest {
    Forest(F.level[q := 0], F.parent)
  }

  ghost predicate CanPlant(s: Phys, lay: Layout, F: Forest, q: nat) {
    WellFormed(s, lay, F) && q < MAX_PAGES && q !in s.used
  }

  lemma NewRootEntries(s: Phys, lay: Layout, F: Forest, q: nat)
    requires CanPlant(s, lay, F, q)
    ensures q !in F.level && q != lay.pgd
    ensures var mem' := NewRoot(s, lay, q).mem;
            && mem'[q][0] == TableDesc(lay.pud)
            && (forall j :: 1 <= j < ENTRIES ==> !IsValid(mem'[q][j]))
            && (forall p :: 0 <= p < MAX_PAGES && p != q ==> mem'[p] == s.mem[p])
  {
    hide IsValid, TableDesc, EntryOk, ParentOk;
    ZeroInvalid();
    assert RootOk(F, lay, s.mem, lay.pgd);
  }

  lemma NewRootEntryOk(s: Phys, lay: Layout, F: Forest, q: nat, p: nat, j: nat)
    requires CanPlant(s, lay, F, q) && (p in F.level || p == q) && j < ENTRIES
    ensures EntryOk(PlantRoot(F, q), lay, NewRoot(s, lay, q).mem, p, j)
  {
    hide IsValid, IsTable, TableDesc, Target, ParentOk, RootOk;
    NewRootEntries(s, lay, F, q);
    TableDescFacts(lay.pud);
    if p != q { assert EntryOk(F, lay, s.mem, p, j); }
  }

  lemma NewRootParentOk(s: Phys, lay: Layout, F: Forest, q: nat, c: nat)
    requires CanPlant(s, lay, F, q) && (c in F.level || c == q)
    ensures ParentOk(PlantRoot(F, q), NewRoot(s, lay, q).mem, c)
  {
    hide IsValid, IsTable, TableDesc, Target, EntryOk, RootOk;
    NewRootEntries(s, lay, F, q);
    if c != q { assert ParentOk(F, s.mem, c); }
  }

  lemma NewRootWellFormed(s: Phys, lay: Layout, F: Forest, q: nat)
    requires CanPlant(s, lay, F, q)
    ensures WellFormed(NewRoot(s, lay, q), lay, PlantRoot(F, q))
  {
    hide IsValid, IsTable, TableDesc, Target, EntryOk, ParentOk;
    var s', F' := NewRoot(s, lay, q), PlantRoot(F, q);
    NewRootEntries(s, lay, F, q);
    forall p, j | p in F'.level && 0 <= j < ENTRIES ensures EntryOk(F', lay, s'.mem, p, j) {
      NewRootEntryOk(s, lay, F, q, p, j);
    }
    forall c | c in F'.level ensures ParentOk(F', s'.mem, c) {
      NewRootParentOk(s, lay, F, q, c);
    }
    forall p | p in F'.level ensures RootOk(F', lay, s'.mem, p) {
      if p != q { assert RootOk(F, lay, s.mem, p); }
    }
  }

  /** The new address space sees the shared region and nothing else. */
  lemma NewRootWalk(s: Phys, lay: Layout, F: Forest, q: nat, w: VPage)
    requires CanPlant(s, lay, F, q) && w.Ok()
    ensures var mem' := NewRoot(s, lay, q).mem;
            Walk(mem', q, w) == if w.l0 == 0 then Walk(mem', lay.pgd, w) else Fault
  {
    hide IsValid, IsTable, TableDesc, Target, EntryOk, ParentOk, RootOk, Walk1;
    NewRootEntries(s, lay, F, q);
    if w.l0 == 0 {
      NewRootWellFormed(s, lay, F, q);
      SharedRegion(NewRoot(s, lay, q), lay, PlantRoot(F, q), q, lay.pgd, w);
    }
  }

  lemma {:induction false} PlantAnc(F: Forest, q: nat, c: nat, l: nat)
    requires ParentsOk(F) && q !in F.level && c in F.level && l <= F.level[c]
    requires ParentsOk(PlantRoot(F, q))
    ensures Anc(PlantRoot(F, q), c, l) == Anc(F, c, l)
    decreases F.level[c]
  {
    if F.level[c] > l { PlantAnc(F, q, F.parent[c].0, l); }
  }

  lemma PlantOwned(F: Forest, q: nat, r: nat)
    requires ParentsOk(F) && q !in F.level && (F.IsRoot(r) || r == q) && ParentsOk(PlantRoot(F, q))
    ensures Owned(PlantRoot(F, q), r) == if r == q then {q} else Owned(F, r)
  {
    hide Owned, Anc, ParentsOk;
    var F' := PlantRoot(F, q);
    OwnedIs(F', r);
    OwnedIff(F', r, q);
    if r != q { OwnedIs(F, r); }
    forall c | c in F.level ensures c in Owned(F', r) <==> r != q && c in Owned(F, r) {
      PlantOwnedAt(F, q, r, c);
    }
  }

  lemma PlantOwnedAt(F: Forest, q: nat, r: nat, c: nat)
    requires ParentsOk(F) && q !in F.level && (F.IsRoot(r) || r == q) && ParentsOk(PlantRoot(F, q)) && c in F.level
    ensures c in Owned(PlantRoot(F, q), r) <==> r != q && c in Owned(F, r)
  {
    hide Owned, Anc, ParentsOk;
    OwnedIff(PlantRoot(F, q), r, c);
    if r != q { OwnedIff(F, r, c); }
    PlantAnc(F, q, c, 0);
    if F.level[c] > 0 { PlantAnc(F, q, c, 1); }
  }

  lemma {:induction false} PruneAnc(F: Forest, root: nat, c: nat, l: nat)
    requires ParentsOk(F) && F.IsRoot(root) && ParentsOk(Prune(F, Owned(F, root)))
    requires c in Prune(F, Owned(F, root)).level && l <= F.level[c]
    ensures Anc(Prune(F, Owned(F, root)), c, l) == Anc(F, c, l)
    decreases F.level[c]
  {
    hide Owned;
    if F.level[c] > l { PruneAnc(F, root, F.parent[c].0, l); }
  }

  lemma PruneOwned(F: Forest, root: nat, r: nat)
    requires ParentsOk(F) && F.IsRoot(root) && F.IsRoot(r) && r != root && ParentsOk(Prune(F, Owned(F, root)))
    ensures Prune(F, Owned(F, root)).IsRoot(r)
    ensures Owned(Prune(F, Owned(F, root)), r) == Owned(F, r)
  {
    OwnedDisjoint(F, root, r);
    var F' := Prune(F, Owned(F, root));
    assert r in Owned(F, r);
    assert F'.IsRoot(r);
    forall c | c in F'.level ensures c in Owned(F', r) <==> c in Owned(F, r) {
      PruneAnc(F, root, c, 0);
      if F.level[c] > 0 { PruneAnc(F, root, c, 1); }
    }
  }

  // ---- memory outside the tables ----

  /** The tables of F are untouched. */
  ghost predicate SameTables(F: Forest, s: Phys, s': Phys) {
    PhysOk(s) && PhysOk(s') && PagesOk(F, s) &&
    forall p :: p in F.level ==> p in s'.used && s'.mem[p] == s.mem[p]
  }

  lemma FrameWellFormed(s: Phys, s': Phys, lay: Layout, F: Forest)
    requires WellFormed(s, lay, F) && SameTables(F, s, s')
    ensures WellFormed(s', lay, F)
  {
    hide IsValid, IsTable, Target, TableDesc;
    forall p, j | p in F.level && 0 <= j < ENTRIES ensures EntryOk(F, lay, s'.mem, p, j) {
      assert EntryOk(F, lay, s.mem, p, j);
    }
    forall c | c in F.level ensures ParentOk(F, s'.mem, c) {
      assert ParentOk(F, s.mem, c);
    }
    forall p | p in F.level ensures RootOk(F, lay, s'.mem, p) {
      assert RootOk(F, lay, s.mem, p);
    }
  }

  lemma FrameWalk(s: Phys, s': Phys, lay: Layout, F: Forest, r: nat, w: VPage)
    requires WellFormed(s, lay, F) && SameTables(F, s, s') && F.IsRoot(r) && w.Ok()
    ensures Walk(s'.mem, r, w) == Walk(s.mem, r, w)
  {
    hide IsValid, IsTable, Target, EntryOk, ParentOk, RootOk;
    PathLevels(s, lay, F, r, w);
  }

  /** Allocating or freeing pages outside the tables changes no translation. */
  lemma FrameWalks(s: Phys, s': Phys, lay: Layout, F: Forest)
    requires WellFormed(s, lay, F) && SameTables(F, s, s')
    ensures SameWalks(F, s.mem, s'.mem)
  {
    hide WellFormed, SameTables, Walk;
    forall r, w: VPage | F.IsRoot(r) && w.Ok() ensures Walk(s'.mem, r, w) == Walk(s.mem, r, w) {
      FrameWalk(s, s', lay, F, r, w);
    }
  }
}
