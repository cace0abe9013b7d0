/** The forest that the translation tables of all address spaces form, and what mm_map_page does
    to the walks of every one of them. Each table page has one level and, above level 0, one
    parent entry; entry 0 of every level-0 table is the exception and leads to the level-1 table
    of the kernel. */
module TableForest {
  import opened PageAllocator
  import opened PageTables

  /** The four tables that mm.c allocates statically. */
  datatype Layout = Layout(pgd: nat, pud: nat, dev: nat, ram: nat)

  /** The level of every table page, and the entry that points at it. */
  datatype Forest = Forest(level: map<nat, nat>, parent: map<nat, (nat, nat)>) {
    predicate IsRoot(p: nat) { p in level && level[p] == 0 }
  }

  ghost predicate IsChild(F: Forest, lay: Layout, p: nat, i: nat, c: nat)
    requires p in F.level
  {
    && c in F.level && F.level[c] == F.level[p] + 1 && c in F.parent
    && (F.parent[c] == (p, i) || (F.level[p] == 0 && i == 0 && c == lay.pud))
  }

  /** A valid entry below level 3 is a table descriptor for a child, or a block below level 0. */
  ghost predicate EntryOk(F: Forest, lay: Layout, mem: Mem, p: nat, i: nat)
    requires MemOk(mem) && p in F.level && p < MAX_PAGES && i < ENTRIES
  {
    F.level[p] < 3 && IsValid(mem[p][i]) ==>
      if IsTable(mem[p][i]) then IsChild(F, lay, p, i, Target(mem[p][i])) else F.level[p] > 0
  }

  ghost predicate ParentOk(F: Forest, mem: Mem, c: nat)
    requires c in F.level
  {
    F.level[c] > 0 ==>
      && c in F.parent && F.parent[c].0 in F.level && F.parent[c].1 < ENTRIES
      && F.level[F.parent[c].0] + 1 == F.level[c]
      && Follow(mem, F.parent[c].0, F.parent[c].1, F.level[F.parent[c].0]) == Next(c)
  }

  ghost predicate RootOk(F: Forest, lay: Layout, mem: Mem, p: nat)
    requires MemOk(mem) && p in F.level && p < MAX_PAGES
  {
    F.level[p] == 0 ==> mem[p][0] == TableDesc(lay.pud)
  }

  ghost predicate PagesOk(F: Forest, s: Phys) {
    forall p :: p in F.level ==> p in s.used && p < MAX_PAGES && F.level[p] <= 3
  }

  ghost predicate LayoutOk(F: Forest, lay: Layout) {
    && F.IsRoot(lay.pgd)
    && lay.pud in F.level && F.level[lay.pud] == 1
    && lay.pud in F.parent && F.parent[lay.pud] == (lay.pgd, 0)
  }

  ghost predicate WellFormed(s: Phys, lay: Layout, F: Forest) {
    && PhysOk(s) && PagesOk(F, s) && LayoutOk(F, lay)
    && (forall p, i :: p in F.level && 0 <= i < ENTRIES ==> EntryOk(F, lay, s.mem, p, i))
    && (forall c :: c in F.level ==> ParentOk(F, s.mem, c))
    && (forall p :: p in F.level ==> RootOk(F, lay, s.mem, p))
  }

  lemma WfBasics(s: Phys, lay: Layout, F: Forest)
    requires WellFormed(s, lay, F)
    ensures PhysOk(s) && PagesOk(F, s) && LayoutOk(F, lay)
  {
  }

  lemma WfEntry(s: Phys, lay: Layout, F: Forest, p: nat, i: nat)
    requires WellFormed(s, lay, F) && p in F.level && i < ENTRIES
    ensures MemOk(s.mem) && p < MAX_PAGES && EntryOk(F, lay, s.mem, p, i)
  {
    hide EntryOk, ParentOk, RootOk;
  }

  lemma WfParent(s: Phys, lay: Layout, F: Forest, c: nat)
    requires WellFormed(s, lay, F) && c in F.level
    ensures ParentOk(F, s.mem, c)
  {
    hide EntryOk, ParentOk, RootOk;
  }

  lemma WfRoot(s: Phys, lay: Layout, F: Forest, p: nat)
    requires WellFormed(s, lay, F) && p in F.level
    ensures MemOk(s.mem) && p < MAX_PAGES && RootOk(F, lay, s.mem, p)
  {
    hide EntryOk, ParentOk, RootOk;
  }

  /** Following an entry of a table in the forest stays in the forest, one level down. */
  lemma FollowChild(s: Phys, lay: Layout, F: Forest, p: nat, i: nat)
    requires WellFormed(s, lay, F) && p in F.level && F.level[p] < 3 && i < ENTRIES
    requires Follow(s.mem, p, i, F.level[p]).Next?
    ensures IsChild(F, lay, p, i, Follow(s.mem, p, i, F.level[p]).page)
  {
    assert EntryOk(F, lay, s.mem, p, i);
  }

  // ---- attaching a fresh table below an invalid entry ----

  ghost predicate CanAttach(s: Phys, lay: Layout, F: Forest, page: nat, i: nat, q: nat) {
    && WellFormed(s, lay, F) && page in F.level && F.level[page] < 3 && i < ENTRIES
    && !IsValid(s.mem[page][i]) && q < MAX_PAGES && q !in s.used
  }

  ghost function Attach(s: Phys, page: nat, i: nat, q: nat): (s': Phys)
    requires PhysOk(s) && page < MAX_PAGES && i < ENTRIES && q < MAX_PAGES
    ensures PhysOk(s')
  {
    Phys(Store(s.mem[q := Zeros()], page, i, TableDesc(q)), s.used + {q})
  }

  ghost function Grow(F: Forest, page: nat, i: nat, q: nat): Forest
    requires page in F.level
  {
    Forest(F.level[q := F.level[page] + 1], F.parent[q := (page, i)])
  }

  /** What the memory holds after an attachment. */
  lemma AttachEntries(s: Phys, lay: Layout, F: Forest, page: nat, i: nat, q: nat)
    requires CanAttach(s, lay, F, page, i, q)
    ensures q != page && q !in F.level
    ensures var mem' := Attach(s, page, i, q).mem;
            && (forall j :: 0 <= j < ENTRIES ==> !IsValid(mem'[q][j]))
            && mem'[page][i] == TableDesc(q)
            && (forall p, j :: 0 <= p < MAX_PAGES && p != q && 0 <= j < ENTRIES && (p, j) != (page, i) ==>
                  mem'[p][j] == s.mem[p][j])
  {
    hide IsValid, TableDesc;
    ZeroInvalid();
  }

  lemma AttachEntryOk(s: Phys, lay: Layout, F: Forest, page: nat, i: nat, q: nat, p: nat, j: nat)
    requires CanAttach(s, lay, F, page, i, q) && (p in F.level || p == q) && j < ENTRIES
    ensures EntryOk(Grow(F, page, i, q), lay, Attach(s, page, i, q).mem, p, j)
  {
    hide IsValid, IsTable, TableDesc, Target, WellFormed;
    WfBasics(s, lay, F);
    AttachEntries(s, lay, F, page, i, q);
    TableDescFacts(q);
    if p != q && (p, j) != (page, i) {
      WfEntry(s, lay, F, p, j);
    }
  }

  lemma AttachParentOk(s: Phys, lay: Layout, F: Forest, page: nat, i: nat, q: nat, c: nat)
    requires CanAttach(s, lay, F, page, i, q) && (c in F.level || c == q)
    ensures ParentOk(Grow(F, page, i, q), Attach(s, page, i, q).mem, c)
  {
    hide IsValid, IsTable, TableDesc, Target, WellFormed, Attach;
    WfBasics(s, lay, F);
    AttachEntries(s, lay, F, page, i, q);
    TableDescFacts(q);
    AttachSizes(s, page, i, q);
    if c != q {
      WfParent(s, lay, F, c);
    }
  }

  lemma AttachSizes(s: Phys, page: nat, i: nat, q: nat)
    requires PhysOk(s) && page < MAX_PAGES && i < ENTRIES && q < MAX_PAGES
    ensures MemOk(Attach(s, page, i, q).mem)
  {
  }

  lemma AttachWellFormed(s: Phys, lay: Layout, F: Forest, page: nat, i: nat, q: nat)
    requires CanAttach(s, lay, F, page, i, q)
    ensures WellFormed(Attach(s, page, i, q), lay, Grow(F, page, i, q))
  {
    hide IsValid, IsTable, TableDesc, Target, EntryOk, ParentOk;
    var s', F' := Attach(s, page, i, q), Grow(F, page, i, q);
    AttachEntries(s, lay, F, page, i, q);
    forall p, j | p in F'.level && 0 <= j < ENTRIES ensures EntryOk(F', lay, s'.mem, p, j) {
      AttachEntryOk(s, lay, F, page, i, q, p, j);
    }
    forall c | c in F'.level ensures ParentOk(F', s'.mem, c) {
      AttachParentOk(s, lay, F, page, i, q, c);
    }
    TableDescFacts(lay.pud);
    forall p | p in F'.level ensures RootOk(F', lay, s'.mem, p) {
      if p != q { assert RootOk(F, lay, s.mem, p); }
    }
  }

  lemma AttachFollow(s: Phys, lay: Layout, F: Forest, page: nat, i: nat, q: nat, p: nat, j: nat, level: nat)
    requires CanAttach(s, lay, F, page, i, q) && p in F.level && j < ENTRIES
    ensures Follow(Attach(s, page, i, q).mem, p, j, level) ==
            if (p, j) == (page, i) then Next(q) else Follow(s.mem, p, j, level)
    ensures (p, j) == (page, i) ==> Follow(s.mem, p, j, level) == Stop(Fault)
  {
    hide IsValid, IsTable, TableDesc, Target;
    AttachEntries(s, lay, F, page, i, q);
    TableDescFacts(q);
  }

  /** Nothing is mapped below a fresh table. */
  lemma AttachFreshFaults(s: Phys, lay: Layout, F: Forest, page: nat, i: nat, q: nat, v: VPage)
    requires CanAttach(s, lay, F, page, i, q) && v.Ok()
    ensures var mem' := Attach(s, page, i, q).mem;
            Walk1(mem', q, v) == Walk2(mem', q, v) == Walk3(mem', q, v) == Fault
  {
    hide IsValid, IsTable, TableDesc, Target;
    AttachEntries(s, lay, F, page, i, q);
  }

  lemma AttachWalk3(s: Phys, lay: Layout, F: Forest, page: nat, i: nat, q: nat, p: nat, v: VPage)
    requires CanAttach(s, lay, F, page, i, q) && v.Ok() && p in F.level && F.level[p] == 3
    ensures Walk3(Attach(s, page, i, q).mem, p, v) == Walk3(s.mem, p, v)
  {
    AttachEntries(s, lay, F, page, i, q);
  }

  lemma AttachWalk2(s: Phys, lay: Layout, F: Forest, page: nat, i: nat, q: nat, p: nat, v: VPage)
    requires CanAttach(s, lay, F, page, i, q) && v.Ok() && p in F.level && F.level[p] == 2
    ensures Walk2(Attach(s, page, i, q).mem, p, v) == Walk2(s.mem, p, v)
  {
    hide Attach, Follow, Walk3, EntryOk, ParentOk, RootOk;
    AttachFollow(s, lay, F, page, i, q, p, v.l2, 2);
    AttachFreshFaults(s, lay, F, page, i, q, v);
    if (p, v.l2) != (page, i) && Follow(s.mem, p, v.l2, 2).Next? {
      FollowChild(s, lay, F, p, v.l2);
      AttachWalk3(s, lay, F, page, i, q, Follow(s.mem, p, v.l2, 2).page, v);
    }
  }

  lemma AttachWalk1(s: Phys, lay: Layout, F: Forest, page: nat, i: nat, q: nat, p: nat, v: VPage)
    requires CanAttach(s, lay, F, page, i, q) && v.Ok() && p in F.level && F.level[p] == 1
    ensures Walk1(Attach(s, page, i, q).mem, p, v) == Walk1(s.mem, p, v)
  {
    hide Attach, Follow, Walk2, EntryOk, ParentOk, RootOk;
    AttachFollow(s, lay, F, page, i, q, p, v.l1, 1);
    AttachFreshFaults(s, lay, F, page, i, q, v);
    if (p, v.l1) != (page, i) && Follow(s.mem, p, v.l1, 1).Next? {
      FollowChild(s, lay, F, p, v.l1);
      AttachWalk2(s, lay, F, page, i, q, Follow(s.mem, p, v.l1, 1).page, v);
    }
  }

  lemma AttachWalk(s: Phys, lay: Layout, F: Forest, page: nat, i: nat, q: nat, p: nat, v: VPage)
    requires CanAttach(s, lay, F, page, i, q) && v.Ok() && p in F.level && F.level[p] == 0
    ensures Walk(Attach(s, page, i, q).mem, p, v) == Walk(s.mem, p, v)
  {
    hide Attach, Follow, Walk1, EntryOk, ParentOk, RootOk;
    AttachFollow(s, lay, F, page, i, q, p, v.l0, 0);
    AttachFreshFaults(s, lay, F, page, i, q, v);
    if (p, v.l0) != (page, i) && Follow(s.mem, p, v.l0, 0).Next? {
      FollowChild(s, lay, F, p, v.l0);
      AttachWalk1(s, lay, F, page, i, q, Follow(s.mem, p, v.l0, 0).page, v);
    }
  }

  // ---- writing a level-3 entry ----

  ghost predicate CanWriteLeaf(s: Phys, lay: Layout, F: Forest, c: nat, i: nat) {
    WellFormed(s, lay, F) && c in F.level && F.level[c] == 3 && i < ENTRIES
  }

  ghost function WriteLeaf(s: Phys, c: nat, i: nat, desc: nat): (s': Phys)
    requires PhysOk(s) && c < MAX_PAGES && i < ENTRIES
    ensures PhysOk(s') && s'.used == s.used
  {
    Phys(Store(s.mem, c, i, desc), s.used)
  }

  lemma LeafWellFormed(s: Phys, lay: Layout, F: Forest, c: nat, i: nat, desc: nat)
    requires CanWriteLeaf(s, lay, F, c, i)
    ensures WellFormed(WriteLeaf(s, c, i, desc), lay, F)
  {
    hide IsValid, IsTable, TableDesc, Target, EntryOk, ParentOk, RootOk;
    var s' := WriteLeaf(s, c, i, desc);
    forall p, j | p in F.level && 0 <= j < ENTRIES ensures EntryOk(F, lay, s'.mem, p, j) {
      LeafEntry(s, lay, F, c, i, desc, p, j);
    }
    forall p | p in F.level ensures ParentOk(F, s'.mem, p) {
      LeafParent(s, lay, F, c, i, desc, p);
    }
    forall p | p in F.level ensures RootOk(F, lay, s'.mem, p) {
      LeafRoot(s, lay, F, c, i, desc, p);
    }
  }

  lemma LeafEntry(s: Phys, lay: Layout, F: Forest, c: nat, i: nat, desc: nat, p: nat, j: nat)
    requires CanWriteLeaf(s, lay, F, c, i) && p in F.level && j < ENTRIES
    ensures p < MAX_PAGES && EntryOk(F, lay, WriteLeaf(s, c, i, desc).mem, p, j)
  {
    hide IsValid, IsTable, TableDesc, Target, WellFormed;
    WfBasics(s, lay, F);
    WfEntry(s, lay, F, p, j);
  }

  lemma LeafParent(s: Phys, lay: Layout, F: Forest, c: nat, i: nat, desc: nat, p: nat)
    requires CanWriteLeaf(s, lay, F, c, i) && p in F.level
    ensures ParentOk(F, WriteLeaf(s, c, i, desc).mem, p)
  {
    hide IsValid, IsTable, TableDesc, Target, WellFormed;
    WfBasics(s, lay, F);
    WfParent(s, lay, F, p);
  }

  lemma LeafRoot(s: Phys, lay: Layout, F: Forest, c: nat, i: nat, desc: nat, p: nat)
    requires CanWriteLeaf(s, lay, F, c, i) && p in F.level
    ensures p < MAX_PAGES && RootOk(F, lay, WriteLeaf(s, c, i, desc).mem, p)
  {
    hide TableDesc, WellFormed;
    WfBasics(s, lay, F);
    WfRoot(s, lay, F, p);
  }

  // The tables a walk passes through; MAX_PAGES when it stops before.

  function TableOf(h: Hop): nat {
    if h.Next? then h.page else MAX_PAGES
  }

  function T1(mem: Mem, root: nat, v: VPage): nat { TableOf(Follow(mem, root, v.l0, 0)) }
  function T2(mem: Mem, root: nat, v: VPage): nat { TableOf(Follow(mem, T1(mem, root, v), v.l1, 1)) }
  function T3(mem: Mem, root: nat, v: VPage): nat { TableOf(Follow(mem, T2(mem, root, v), v.l2, 2)) }

  /** The tables on the way are in the forest, each at its own level. */
  lemma PathLevels(s: Phys, lay: Layout, F: Forest, root: nat, v: VPage)
    requires WellFormed(s, lay, F) && F.IsRoot(root) && v.Ok()
    ensures T1(s.mem, root, v) < MAX_PAGES ==> IsChild(F, lay, root, v.l0, T1(s.mem, root, v))
    ensures T2(s.mem, root, v) < MAX_PAGES ==>
              T1(s.mem, root, v) < MAX_PAGES && IsChild(F, lay, T1(s.mem, root, v), v.l1, T2(s.mem, root, v))
    ensures T3(s.mem, root, v) < MAX_PAGES ==>
              T2(s.mem, root, v) < MAX_PAGES && IsChild(F, lay, T2(s.mem, root, v), v.l2, T3(s.mem, root, v))
  {
    hide EntryOk, ParentOk, RootOk;
    if T1(s.mem, root, v) < MAX_PAGES {
      FollowChild(s, lay, F, root, v.l0);
      if T2(s.mem, root, v) < MAX_PAGES {
        FollowChild(s, lay, F, T1(s.mem, root, v), v.l1);
        if T3(s.mem, root, v) < MAX_PAGES {
          FollowChild(s, lay, F, T2(s.mem, root, v), v.l2);
        }
      }
    }
  }

  /** A level-3 table is reached by one path only, up to the choice of the root when the path
      goes through entry 0. */
  lemma UniquePath(s: Phys, lay: Layout, F: Forest, r: nat, v: VPage, r': nat, v': VPage)
    requires WellFormed(s, lay, F) && F.IsRoot(r) && F.IsRoot(r') && v.Ok() && v'.Ok()
    requires T3(s.mem, r, v) == T3(s.mem, r', v') < MAX_PAGES
    ensures v.l0 == v'.l0 && v.l1 == v'.l1 && v.l2 == v'.l2
    ensures r == r' || v.l0 == 0
  {
    hide EntryOk, ParentOk, RootOk, T1, T2, T3;
    PathLevels(s, lay, F, r, v);
    PathLevels(s, lay, F, r', v');
  }

  /** All address spaces share the region of level-0 index 0. */
  lemma SharedRegion(s: Phys, lay: Layout, F: Forest, r: nat, r': nat, v: VPage)
    requires WellFormed(s, lay, F) && F.IsRoot(r) && F.IsRoot(r') && v.Ok() && v.l0 == 0
    ensures Walk(s.mem, r, v) == Walk(s.mem, r', v)
    ensures T1(s.mem, r, v) == T1(s.mem, r', v) && T3(s.mem, r, v) == T3(s.mem, r', v)
  {
    hide EntryOk, ParentOk, IsValid, IsTable, TableDesc, Target, Walk1;
    assert RootOk(F, lay, s.mem, r) && RootOk(F, lay, s.mem, r');
  }

  /** The walk in terms of the level-3 table it reaches. */
  lemma WalkByT3(s: Phys, lay: Layout, F: Forest, r: nat, v: VPage)
    requires WellFormed(s, lay, F) && F.IsRoot(r) && v.Ok()
    ensures T3(s.mem, r, v) < MAX_PAGES ==> Walk(s.mem, r, v) == DecodeLeaf(s.mem[T3(s.mem, r, v)][v.l3])
  {
    hide EntryOk, ParentOk, RootOk, IsValid, IsTable, Target;
  }

  lemma LeafFollow(s: Phys, lay: Layout, F: Forest, c: nat, i: nat, desc: nat, p: nat, j: nat, level: nat)
    requires CanWriteLeaf(s, lay, F, c, i) && p in F.level && F.level[p] < 3
    ensures Follow(WriteLeaf(s, c, i, desc).mem, p, j, level) == Follow(s.mem, p, j, level)
  {
  }

  lemma FollowOutside(mem: Mem, i: nat, level: nat)
    requires MemOk(mem)
    ensures Follow(mem, MAX_PAGES, i, level) == Stop(Fault)
  {
  }

  lemma LeafPath(s: Phys, lay: Layout, F: Forest, c: nat, i: nat, desc: nat, r: nat, v: VPage)
    requires CanWriteLeaf(s, lay, F, c, i) && F.IsRoot(r) && v.Ok()
    ensures var mem' := WriteLeaf(s, c, i, desc).mem;
            && T3(mem', r, v) == T3(s.mem, r, v)
            && (T3(s.mem, r, v) == MAX_PAGES ==> Walk(mem', r, v) == Walk(s.mem, r, v))
  {
    hide EntryOk, ParentOk, RootOk, Follow, DecodeLeaf;
    var mem' := WriteLeaf(s, c, i, desc).mem;
    FollowOutside(s.mem, v.l1, 1);
    FollowOutside(s.mem, v.l2, 2);
    FollowOutside(mem', v.l1, 1);
    FollowOutside(mem', v.l2, 2);
    LeafFollow(s, lay, F, c, i, desc, r, v.l0, 0);
    PathLevels(s, lay, F, r, v);
    var p1 := T1(s.mem, r, v);
    if p1 < MAX_PAGES {
      LeafFollow(s, lay, F, c, i, desc, p1, v.l1, 1);
      var p2 := T2(s.mem, r, v);
      if p2 < MAX_PAGES {
        LeafFollow(s, lay, F, c, i, desc, p2, v.l2, 2);
      }
    }
  }
}
