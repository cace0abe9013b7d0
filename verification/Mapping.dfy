/** mm_map_page refines the update of a map from virtual pages to descriptors, in every address
    space at once, and its early returns change no translation at all. */
module Mapping {
  import opened Common
  import opened PageAllocator
  import opened PageTables
  import opened TableForest

  /** Every address space of F translates every virtual page alike in both memories. */
  ghost predicate SameWalks(F: Forest, mem: Mem, mem': Mem) {
    forall r, w: VPage :: F.IsRoot(r) && w.Ok() ==> Walk(mem', r, w) == Walk(mem, r, w)
  }

  ghost predicate Extends(F: Forest, F': Forest) {
    && (forall p :: p in F.level ==> p in F'.level && F'.level[p] == F.level[p])
    && (forall p :: p in F.level && p in F.parent ==> p in F'.parent && F'.parent[p] == F.parent[p])
  }

  // ---- one level down ----

  /** The forest after one level of mm_map_page. */
  ghost function DescendForest(F: Forest, s: Phys, page: nat, i: nat): Forest
    requires PhysOk(s) && page < MAX_PAGES && i < ENTRIES && page in F.level
  {
    var q := AllocPage(s).1;
    if !IsValid(s.mem[page][i]) && q != MAX_PAGES then Grow(F, page, i, q) else F
  }

  ghost predicate CanDescend(s: Phys, lay: Layout, F: Forest, page: nat, i: nat) {
    WellFormed(s, lay, F) && page in F.level && F.level[page] < 3 && i < ENTRIES
  }

  lemma DescendIsAttach(s: Phys, lay: Layout, F: Forest, page: nat, i: nat)
    requires CanDescend(s, lay, F, page, i)
    ensures var (s', r) := Descend(s, page, i, F.level[page]);
            var q := AllocPage(s).1;
            if !IsValid(s.mem[page][i]) && q != MAX_PAGES then
              CanAttach(s, lay, F, page, i, q) && s' == Attach(s, page, i, q) && r == Some(q)
            else
              s' == s && (r.Some? ==> Follow(s.mem, page, i, F.level[page]) == Next(r.value))
  {
    hide IsValid, IsTable, Target, TableDesc, ParentOk, RootOk;
    assert EntryOk(F, lay, s.mem, page, i);
  }

  lemma DescendKeeps(s: Phys, lay: Layout, F: Forest, page: nat, i: nat)
    requires CanDescend(s, lay, F, page, i)
    ensures var (s', r) := Descend(s, page, i, F.level[page]);
            var F' := DescendForest(F, s, page, i);
            && WellFormed(s', lay, F') && Extends(F, F') && s.used <= s'.used
            && F'.level.Keys == F.level.Keys + (s'.used - s.used)
  {
    hide IsValid, EntryOk, ParentOk, RootOk, Descend;
    DescendIsAttach(s, lay, F, page, i);
    var q := AllocPage(s).1;
    if !IsValid(s.mem[page][i]) && q != MAX_PAGES {
      AttachWellFormed(s, lay, F, page, i, q);
      AttachEntries(s, lay, F, page, i, q);
    }
  }

  lemma DescendWalks(s: Phys, lay: Layout, F: Forest, page: nat, i: nat)
    requires CanDescend(s, lay, F, page, i)
    ensures SameWalks(F, s.mem, Descend(s, page, i, F.level[page]).0.mem)
  {
    hide IsValid, EntryOk, ParentOk, RootOk, Descend, Walk, Attach;
    DescendIsAttach(s, lay, F, page, i);
    var q := AllocPage(s).1;
    if !IsValid(s.mem[page][i]) && q != MAX_PAGES {
      forall r, w: VPage | F.IsRoot(r) && w.Ok()
        ensures Walk(Attach(s, page, i, q).mem, r, w) == Walk(s.mem, r, w)
      {
        AttachWalk(s, lay, F, page, i, q, r, w);
      }
    }
  }

  /** A descent that succeeds leads to a table one level down, and keeps every link there was. */
  lemma DescendFollow(s: Phys, lay: Layout, F: Forest, page: nat, i: nat)
    requires CanDescend(s, lay, F, page, i)
    ensures var (s', r) := Descend(s, page, i, F.level[page]);
            && (r.Some? ==> Follow(s'.mem, page, i, F.level[page]) == Next(r.value))
            && (forall p, j, l :: p in F.level && 0 <= j < ENTRIES && Follow(s.mem, p, j, l).Next? ==>
                  Follow(s'.mem, p, j, l) == Follow(s.mem, p, j, l))
  {
    hide IsValid, EntryOk, ParentOk, RootOk, Descend, Attach, Follow;
    DescendIsAttach(s, lay, F, page, i);
    var q := AllocPage(s).1;
    if !IsValid(s.mem[page][i]) && q != MAX_PAGES {
      AttachFollow(s, lay, F, page, i, q, page, i, F.level[page]);
      forall p, j, l | p in F.level && 0 <= j < ENTRIES && Follow(s.mem, p, j, l).Next?
        ensures Follow(Attach(s, page, i, q).mem, p, j, l) == Follow(s.mem, p, j, l)
      {
        AttachFollow(s, lay, F, page, i, q, p, j, l);
      }
    }
  }

  // ---- the three levels together ----

  /** What the descent through levels 0, 1 and 2 establishes, whether or not it gets to the end. */
  ghost predicate Descended(s: Phys, s': Phys, lay: Layout, F: Forest, F': Forest) {
    && WellFormed(s', lay, F') && Extends(F, F') && s.used <= s'.used
    && F'.level.Keys == F.level.Keys + (s'.used - s.used)
    && SameWalks(F, s.mem, s'.mem)
  }

  /** Every link of the tables in F is still there. */
  ghost predicate LinksKept(F: Forest, mem: Mem, mem': Mem) {
    forall p, j, l :: p in F.level && 0 <= j < ENTRIES && Follow(mem, p, j, l).Next? ==>
      Follow(mem', p, j, l) == Follow(mem, p, j, l)
  }

  /** A child of page at entry i, one level down. */
  ghost predicate Below(s: Phys, F: Forest, page: nat, i: nat, c: nat) {
    && page in F.level && c in F.level && c < MAX_PAGES && F.level[c] == F.level[page] + 1
    && Follow(s.mem, page, i, F.level[page]) == Next(c)
  }

  lemma StepDown(s0: Phys, s: Phys, lay: Layout, F0: Forest, F: Forest, page: nat, i: nat)
    requires Descended(s0, s, lay, F0, F) && CanDescend(s, lay, F, page, i)
    ensures var (s', r) := Descend(s, page, i, F.level[page]);
            var F' := DescendForest(F, s, page, i);
            && Descended(s0, s', lay, F0, F') && Extends(F, F') && LinksKept(F, s.mem, s'.mem)
            && (r.Some? ==> Below(s', F', page, i, r.value))
  {
    hide Descend, DescendForest, EntryOk, ParentOk, RootOk, Follow, Walk;
    DescendKeeps(s, lay, F, page, i);
    DescendWalks(s, lay, F, page, i);
    DescendFollow(s, lay, F, page, i);
    var (s', r) := Descend(s, page, i, F.level[page]);
    if r.Some? {
      FollowChild(s', lay, DescendForest(F, s, page, i), page, i);
    }
  }

  /** The forest after mm_map_page. */
  ghost function MapForest(F: Forest, s: Phys, root: nat, v: VPage): Forest
    requires PhysOk(s) && root < MAX_PAGES && v.Ok() && root in F.level
  {
    var (s1, p1) := Descend(s, root, v.l0, 0);
    var F1 := DescendForest(F, s, root, v.l0);
    if p1.None? || p1.value >= MAX_PAGES || p1.value !in F1.level then F1 else
    var (s2, p2) := Descend(s1, p1.value, v.l1, 1);
    var F2 := DescendForest(F1, s1, p1.value, v.l1);
    if p2.None? || p2.value >= MAX_PAGES || p2.value !in F2.level then F2 else
    DescendForest(F2, s2, p2.value, v.l2)
  }

  lemma DescendedRefl(s: Phys, lay: Layout, F: Forest)
    requires WellFormed(s, lay, F)
    ensures Descended(s, s, lay, F, F)
  {
    hide WellFormed, Walk;
  }

  lemma PrepareKeeps(s: Phys, lay: Layout, F: Forest, root: nat, v: VPage)
    requires WellFormed(s, lay, F) && F.IsRoot(root) && v.Ok()
    ensures var (s', p) := Prepare(s, root, v);
            && Descended(s, s', lay, F, MapForest(F, s, root, v))
            && (p.Some? ==> T3(s'.mem, root, v) == p.value < MAX_PAGES)
  {
    hide Descend, DescendForest, WellFormed, Follow, SameWalks, AllocPage;
    WfBasics(s, lay, F);
    DescendedRefl(s, lay, F);
    StepDown(s, s, lay, F, F, root, v.l0);
    var (s1, p1) := Descend(s, root, v.l0, 0);
    var F1 := DescendForest(F, s, root, v.l0);
    if p1.Some? {
      StepDown(s, s1, lay, F, F1, p1.value, v.l1);
      var (s2, p2) := Descend(s1, p1.value, v.l1, 1);
      var F2 := DescendForest(F1, s1, p1.value, v.l1);
      if p2.Some? {
        StepDown(s, s2, lay, F, F2, p2.value, v.l2);
      }
    }
  }

  // ---- the leaf ----

  /** Writing the entry that the walk of v ends at changes the walks of v, and no other, in the
      address space of root, or in all of them when v lies in the shared region. */
  lemma LeafWalk(s: Phys, lay: Layout, F: Forest, root: nat, v: VPage, desc: nat, r: nat, w: VPage)
    requires WellFormed(s, lay, F) && F.IsRoot(root) && F.IsRoot(r) && v.Ok() && w.Ok()
    requires T3(s.mem, root, v) < MAX_PAGES
    ensures Walk(WriteLeaf(s, T3(s.mem, root, v), v.l3, desc).mem, r, w) ==
            if w == v && (r == root || v.l0 == 0) then DecodeLeaf(desc) else Walk(s.mem, r, w)
  {
    hide EntryOk, ParentOk, RootOk, Follow, Walk, T1, T2, T3, DecodeLeaf;
    var c := T3(s.mem, root, v);
    PathLevels(s, lay, F, root, v);
    var s' := WriteLeaf(s, c, v.l3, desc);
    LeafWellFormed(s, lay, F, c, v.l3, desc);
    LeafPath(s, lay, F, c, v.l3, desc, r, w);
    WalkByT3(s, lay, F, r, w);
    WalkByT3(s', lay, F, r, w);
    if T3(s.mem, r, w) == c {
      UniquePath(s, lay, F, root, v, r, w);
    }
    if w == v && v.l0 == 0 {
      SharedRegion(s, lay, F, root, r, v);
    }
    TableBound(s.mem, r, w);
  }

  lemma TableBound(mem: Mem, r: nat, v: VPage)
    ensures T1(mem, r, v) <= MAX_PAGES && T2(mem, r, v) <= MAX_PAGES && T3(mem, r, v) <= MAX_PAGES
  {
  }

  /** mm_map_page refines a map update. When it installs, the walk of v ends at desc and every
      other walk of every address space is what it was, with one exception: the region of level-0
      index 0 is shared, and there all address spaces see the change. When it returns early, no
      walk of any address space changes. The forest stays well formed, and exactly the tables it
      made are new in it. */
  lemma MapPageRefines(s: Phys, lay: Layout, F: Forest, root: nat, v: VPage, desc: nat)
    requires WellFormed(s, lay, F) && F.IsRoot(root) && v.Ok()
    ensures var (s', installed) := MapPage(s, root, v, desc);
            var F' := MapForest(F, s, root, v);
            && WellFormed(s', lay, F') && Extends(F, F') && s.used <= s'.used
            && F'.level.Keys == F.level.Keys + (s'.used - s.used)
            && forall r, w: VPage :: F.IsRoot(r) && w.Ok() ==>
                 Walk(s'.mem, r, w) ==
                 if installed && w == v && (r == root || v.l0 == 0) then DecodeLeaf(desc)
                 else Walk(s.mem, r, w)
  {
    hide EntryOk, ParentOk, RootOk, Walk, T3, DecodeLeaf, Prepare, MapForest;
    PrepareKeeps(s, lay, F, root, v);
    var (s1, p) := Prepare(s, root, v);
    var F' := MapForest(F, s, root, v);
    if p.Some? {
      PathLevels(s1, lay, F', root, v);
      LeafWellFormed(s1, lay, F', p.value, v.l3, desc);
      var s' := WriteLeaf(s1, p.value, v.l3, desc);
      forall r, w: VPage | F.IsRoot(r) && w.Ok()
        ensures Walk(s'.mem, r, w) ==
                if w == v && (r == root || v.l0 == 0) then DecodeLeaf(desc) else Walk(s.mem, r, w)
      {
        LeafWalk(s1, lay, F', root, v, desc, r, w);
      }
    }
  }

  /** The same in addresses: a successful call makes every address of the page of vaddr translate into the
      page of paddr, at the same offset, in this address space (in all of them for the shared region),
      or makes it fault if the flags do not mark a page; every other translation stays. */
  lemma MapPageTranslates(s: Phys, lay: Layout, F: Forest, root: nat, vaddr: nat, paddr: nat, flags: nat,
                          r: nat, a: nat)
    requires WellFormed(s, lay, F) && F.IsRoot(root) && F.IsRoot(r) && paddr < 0x1_0000_0000_0000 && flags < 0x1000
    ensures var v := Split(vaddr);
            var (s', installed) := MapPage(s, root, v, LeafDesc(paddr, flags));
            Translate(s'.mem, r, a) ==
            if installed && a / 0x1000 % 0x10_0000_0000 == vaddr / 0x1000 % 0x10_0000_0000 && (r == root || v.l0 == 0)
            then (if flags % 4 == 3 then Some(paddr - paddr % 0x1000 + a % 0x1000) else None)
            else Translate(s.mem, r, a)
  {
    hide WellFormed, MapPage, MapForest, Walk, Split, LeafDesc, DecodeLeaf;
    MapPageRefines(s, lay, F, root, Split(vaddr), LeafDesc(paddr, flags));
    SplitIff(a, vaddr);
    LeafMeans(paddr, flags);
  }

  // ---- when it installs ----

  lemma ExhaustedIffFull(used: set<nat>)
    requires forall p :: p in used ==> p < MAX_PAGES
    ensures |used| <= MAX_PAGES
    ensures FirstRun(used, 1) == MAX_PAGES <==> |used| == MAX_PAGES
  {
    BelowSize(used, MAX_PAGES);
    if FirstRun(used, 1) == MAX_PAGES {
      forall p: nat | p < MAX_PAGES ensures p in used {
        assert !FreeRun(used, p, 1);
      }
    }
    if |used| == MAX_PAGES {
      UsedIsNoRun(used, MAX_PAGES);
      NoRun(used, 1);
    }
  }

  /** Going down through an invalid entry takes one page, or fails for want of one. */
  lemma ColdDescend(s: Phys, page: nat, i: nat, level: nat)
    requires PhysOk(s) && page in s.used && i < ENTRIES && !IsValid(s.mem[page][i])
    ensures |s.used| <= MAX_PAGES
    ensures var (s', r) := Descend(s, page, i, level);
            if |s.used| == MAX_PAGES then s' == s && r == None
            else
              && r.Some? && r.value < MAX_PAGES && r.value in s'.used && |s'.used| == |s.used| + 1
              && forall j :: 0 <= j < ENTRIES ==> !IsValid(s'.mem[r.value][j])
  {
    hide IsValid, TableDesc, FirstRun;
    ExhaustedIffFull(s.used);
    ZeroInvalid();
  }

  lemma WarmDescend(s: Phys, page: nat, i: nat, level: nat)
    requires PhysOk(s) && page < MAX_PAGES && i < ENTRIES
    ensures Follow(s.mem, page, i, level).Next? ==>
              Descend(s, page, i, level) == (s, Some(Follow(s.mem, page, i, level).page))
    ensures Follow(s.mem, page, i, level) == Stop(Fault) && level > 0 ==> !IsValid(s.mem[page][i])
    ensures Follow(s.mem, page, i, level).Stop? && Follow(s.mem, page, i, level).t.Block? ==>
              Descend(s, page, i, level) == (s, None)
  {
    hide IsValid, IsTable, Target;
  }

  /** How many tables mm_map_page has to make for v. */
  function Missing(mem: Mem, root: nat, v: VPage): nat {
    if T1(mem, root, v) == MAX_PAGES then 3
    else if T2(mem, root, v) == MAX_PAGES then 2
    else if T3(mem, root, v) == MAX_PAGES then 1 else 0
  }

  /** The pages mm_map_page takes, and whether it gets what it needs. */
  ghost predicate Paid(s: Phys, s': Phys, installed: bool, need: nat) {
    && |s.used| <= MAX_PAGES
    && (installed <==> |s.used| + need <= MAX_PAGES)
    && |s'.used| == if installed then |s.used| + need else MAX_PAGES
  }

  lemma Cold2(s: Phys, p2: nat, v: VPage)
    requires PhysOk(s) && p2 in s.used && v.Ok() && !IsValid(s.mem[p2][v.l2])
    ensures var (s', p) := Descend(s, p2, v.l2, 2);
            Paid(s, s', p.Some?, 1) && (p.Some? ==> p.value < MAX_PAGES)
  {
    hide Descend, IsValid;
    ColdDescend(s, p2, v.l2, 2);
  }

  lemma Cold1(s: Phys, p1: nat, v: VPage)
    requires PhysOk(s) && p1 in s.used && v.Ok() && !IsValid(s.mem[p1][v.l1])
    ensures var (s2, p2) := Descend(s, p1, v.l1, 1);
            && (p2.None? ==> Paid(s, s2, false, 2))
            && (p2.Some? ==> p2.value < MAX_PAGES)
            && (p2.Some? ==>
                  var (s', p) := Descend(s2, p2.value, v.l2, 2);
                  Paid(s, s', p.Some?, 2) && (p.Some? ==> p.value < MAX_PAGES))
  {
    hide Descend, IsValid;
    ColdDescend(s, p1, v.l1, 1);
    var (s2, p2) := Descend(s, p1, v.l1, 1);
    if p2.Some? { Cold2(s2, p2.value, v); }
  }

  lemma Cold0(s: Phys, root: nat, v: VPage)
    requires PhysOk(s) && root in s.used && v.Ok() && !IsValid(s.mem[root][v.l0])
    ensures var (s', p) := Prepare(s, root, v);
            Paid(s, s', p.Some?, 3) && (p.Some? ==> p.value < MAX_PAGES)
  {
    hide Descend, IsValid;
    ColdDescend(s, root, v.l0, 0);
    var (s1, p1) := Descend(s, root, v.l0, 0);
    if p1.Some? { Cold1(s1, p1.value, v); }
  }

  /** A walk that leaves the tables early does so at an invalid entry or a block. */
  lemma StopKinds(s: Phys, lay: Layout, F: Forest, root: nat, v: VPage)
    requires WellFormed(s, lay, F) && F.IsRoot(root) && v.Ok()
    ensures T1(s.mem, root, v) == MAX_PAGES ==>
              !IsValid(s.mem[root][v.l0]) && Walk(s.mem, root, v) == Fault
    ensures var p1 := T1(s.mem, root, v);
            p1 < MAX_PAGES && T2(s.mem, root, v) == MAX_PAGES ==>
              Follow(s.mem, p1, v.l1, 1) == Stop(Walk(s.mem, root, v)) && !Walk(s.mem, root, v).Page?
    ensures var p2 := T2(s.mem, root, v);
            p2 < MAX_PAGES && T3(s.mem, root, v) == MAX_PAGES ==>
              Follow(s.mem, p2, v.l2, 2) == Stop(Walk(s.mem, root, v)) && !Walk(s.mem, root, v).Page?
  {
    hide ParentOk, RootOk, IsValid, IsTable, Target;
    PathLevels(s, lay, F, root, v);
    assert EntryOk(F, lay, s.mem, root, v.l0);
    var p1, p2 := T1(s.mem, root, v), T2(s.mem, root, v);
    if p1 < MAX_PAGES {
      assert EntryOk(F, lay, s.mem, p1, v.l1);
      if p2 < MAX_PAGES {
        assert EntryOk(F, lay, s.mem, p2, v.l2);
      }
    }
  }

  /** mm_map_page installs exactly when no block is in the way and the allocator has a page for
      every missing table. A block costs nothing; running out leaves every page used. */
  lemma MapPageInstallsIff(s: Phys, lay: Layout, F: Forest, root: nat, v: VPage, desc: nat)
    requires WellFormed(s, lay, F) && F.IsRoot(root) && v.Ok()
    ensures var (s', installed) := MapPage(s, root, v, desc);
            if Walk(s.mem, root, v).Block? then !installed && s' == s
            else Paid(s, s', installed, Missing(s.mem, root, v))
  {
    hide Descend, EntryOk, ParentOk, RootOk, Follow, IsValid, Walk3;
    PathLevels(s, lay, F, root, v);
    TableBound(s.mem, root, v);
    StopKinds(s, lay, F, root, v);
    ExhaustedIffFull(s.used);
    var p1 := T1(s.mem, root, v);
    WarmDescend(s, root, v.l0, 0);
    if p1 == MAX_PAGES {
      Cold0(s, root, v);
    } else {
      WarmDescend(s, p1, v.l1, 1);
      var p2 := T2(s.mem, root, v);
      if p2 == MAX_PAGES {
        if Follow(s.mem, p1, v.l1, 1) == Stop(Fault) { Cold1(s, p1, v); }
      } else {
        WarmDescend(s, p2, v.l2, 2);
        if T3(s.mem, root, v) == MAX_PAGES {
          if Follow(s.mem, p2, v.l2, 2) == Stop(Fault) { Cold2(s, p2, v); }
        } else {
          WalkByT3(s, lay, F, root, v);
        }
      }
    }
  }
}
