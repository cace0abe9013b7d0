/** The imperative side of kernel/mm.c and kernel/vm.c: page tables built, extended and freed in
    place in physical memory. Every method is tied to the function on memory that it computes. */
module Vm {
  import opened Bits
  import opened Bitmaps
  import opened Common
  import opened PageAllocator
  import opened PageTables
  import opened TableForest
  import opened Mapping
  import opened Ownership
  import opened AddressSpaces
  import opened VmRuns
  import opened Boot

  /** struct address_space; pgd is the address of the level-0 table. */
  class AddressSpace {
    var pgd: nat
    var asid: nat

    constructor ()
      ensures pgd == NULL && asid == 0
    {
      pgd, asid := NULL, 0;
    }
  }

  class VmManager {
    const mm: Mm
    const asidBitmap: array<nat>
    const lay: Layout

    constructor (mm: Mm, lay: Layout)
      ensures this.mm == mm && this.lay == lay && fresh(asidBitmap)
      ensures AsidsValid() && Asids() == {}
    {
      this.mm, this.lay := mm, lay;
      asidBitmap := new nat[ASID_MAX / 8](i => 0);
      new;
      ZeroWords(asidBitmap[..], 8, ASID_MAX);
    }

    ghost function State(): Phys
      reads mm, mm.bitmap, mm.ram
    {
      Phys(mm.ram[..], mm.Allocated())
    }

    ghost predicate AsidsValid()
      reads asidBitmap
    {
      WordsOk(asidBitmap[..], 8, ASID_MAX)
    }

    ghost function Asids(): set<nat>
      reads asidBitmap
    {
      SetOf(asidBitmap[..], 8, ASID_MAX)
    }

    /** The two bitmaps have different lengths. */
    lemma BitmapsApart()
      requires mm.Valid() && AsidsValid()
      ensures asidBitmap != mm.bitmap
    {
    }

    method StoreEntry(page: nat, i: nat, d: nat)
      requires mm.Valid() && page < MAX_PAGES && i < ENTRIES
      modifies mm.ram
      ensures mm.Valid() && State() == Phys(Store(old(mm.ram[..]), page, i, d), old(mm.Allocated()))
    {
      mm.ram[page] := mm.ram[page][i := d];
      assert mm.ram[..] == Store(old(mm.ram[..]), page, i, d);
    }

    /** One level of mm_map_page. MAX_PAGES stands for the early returns. */
    method DescendTable(page: nat, i: nat, level: nat, ghost F: Forest) returns (next: nat)
      requires mm.Valid() && WellFormed(State(), lay, F) && page in F.level && F.level[page] == level < 3 && i < ENTRIES
      modifies mm, mm.bitmap, mm.ram
      ensures mm.Valid()
      ensures var (s', r) := Descend(old(State()), page, i, level);
              State() == s' && next == (if r.Some? then r.value else MAX_PAGES)
    {
      hide EntryOk, ParentOk, RootOk, FirstRun, SetOf, IsValid, IsTable, Target;
      ghost var s := State();
      var d := mm.ram[page][i];
      if !IsValid(d) {
        var addr := mm.PageAlloc();
        if addr == NULL {
          return MAX_PAGES;
        }
        PageAddrRoundTrip(AllocPage(s).1);
        next := PageOf(addr);
        StoreEntry(page, i, Or(Or(addr, PTE_VALID), PTE_TABLE));
      } else if level > 0 && !IsTable(d) {
        return MAX_PAGES;
      } else {
        next := Target(d);
      }
    }
  
    /** mm_create_page_tables: clears the four static tables and fills in the identity map. */
    method CreatePageTables()
      requires mm.Valid() && LayoutDistinct(lay, mm.Allocated())
      modifies mm.ram
      ensures mm.Valid() && mm.Allocated() == old(mm.Allocated()) && Built(mm.ram[..], lay)
      ensures forall p :: 0 <= p < MAX_PAGES && p !in {lay.pgd, lay.pud, lay.dev, lay.ram} ==>
                mm.ram[p] == old(mm.ram[p])
    {
      hide TableDesc, SetOf, DeviceEntry, RamEntry, Zeros;
      ClearTable(lay.pgd);
      ClearTable(lay.pud);
      ClearTable(lay.dev);
      ClearTable(lay.ram);
      StoreEntry(lay.pgd, 0, TableDesc(lay.pud));
      StoreEntry(lay.pud, 0, TableDesc(lay.dev));
      StoreEntry(lay.pud, 1, TableDesc(lay.ram));
      FillDevices();
      FillRam();
    }

    method ClearTable(page: nat)
      requires mm.Valid() && page < MAX_PAGES
      modifies mm.ram
      ensures mm.Valid() && mm.Allocated() == old(mm.Allocated())
      ensures mm.ram[..] == old(mm.ram[..])[page := Zeros()]
    {
      mm.ZeroPage(page);
    }

    /** 2 MB blocks 64 to 81 of the first gigabyte. */
    method FillDevices()
      requires mm.Valid() && lay.dev < MAX_PAGES && mm.ram[lay.dev] == Zeros()
      modifies mm.ram
      ensures mm.Valid() && mm.ram[..] == old(mm.ram[..])[lay.dev := mm.ram[lay.dev]]
      ensures forall i :: 0 <= i < ENTRIES ==> mm.ram[lay.dev][i] == DeviceEntry(i)
    {
      hide Or;
      var i := 64;
      while i < 82
        invariant 64 <= i <= 82 && mm.Valid()
        invariant mm.ram[..] == old(mm.ram[..])[lay.dev := mm.ram[lay.dev]]
        invariant forall j :: 0 <= j < ENTRIES ==> mm.ram[lay.dev][j] == if j < i then DeviceEntry(j) else 0
      {
        StoreEntry(lay.dev, i, Or(i * 0x20_0000, BLOCK_DEVICE));
        i := i + 1;
      }
    }

    /** 2 MB blocks 0 to 63 of the second gigabyte. */
    method FillRam()
      requires mm.Valid() && lay.ram < MAX_PAGES && mm.ram[lay.ram] == Zeros()
      modifies mm.ram
      ensures mm.Valid() && mm.ram[..] == old(mm.ram[..])[lay.ram := mm.ram[lay.ram]]
      ensures forall i :: 0 <= i < ENTRIES ==> mm.ram[lay.ram][i] == RamEntry(i)
    {
      hide Or;
      var i := 0;
      while i < 64
        invariant 0 <= i <= 64 && mm.Valid()
        invariant mm.ram[..] == old(mm.ram[..])[lay.ram := mm.ram[lay.ram]]
        invariant forall j :: 0 <= j < ENTRIES ==> mm.ram[lay.ram][j] == if j < i then RamEntry(j) else 0
      {
        StoreEntry(lay.ram, i, Or(0x4000_0000 + i * 0x20_0000, BLOCK_NORMAL));
        i := i + 1;
      }
    }

    /** mm_map_page. */
    method MapPageAt(root: nat, vaddr: nat, paddr: nat, flags: nat, ghost F: Forest) returns (installed: bool)
      requires mm.Valid() && WellFormed(State(), lay, F) && F.IsRoot(root)
      modifies mm, mm.bitmap, mm.ram
      ensures mm.Valid()
      ensures (State(), installed) == MapPage(old(State()), root, Split(vaddr), LeafDesc(paddr, flags))
    {
      hide WellFormed, Descend, DescendForest, Follow, SameWalks, SetOf, WordsOk, MemOk, PhysOk, Split,
           LeafDesc, LinksKept, AllocPage, Store;
      ghost var s := State();
      var v := Split(vaddr);
      WfBasics(s, lay, F);
      DescendedRefl(s, lay, F);
      StepDown(s, s, lay, F, F, root, v.l0);
      ghost var F1 := DescendForest(F, s, root, v.l0);
      var l1 := DescendTable(root, v.l0, 0, F);
      if l1 == MAX_PAGES {
        return false;
      }
      ghost var s1 := State();
      StepDown(s, s1, lay, F, F1, l1, v.l1);
      ghost var F2 := DescendForest(F1, s1, l1, v.l1);
      var l2 := DescendTable(l1, v.l1, 1, F1);
      if l2 == MAX_PAGES {
        return false;
      }
      ghost var s2 := State();
      StepDown(s, s2, lay, F, F2, l2, v.l2);
      var l3 := DescendTable(l2, v.l2, 2, F2);
      if l3 == MAX_PAGES {
        return false;
      }
      StoreEntry(l3, v.l3, LeafDesc(paddr, flags));
      return true;
    }

    /** vm_free_subtree: frees the tables below a table and then the table, children first. freed
        records the pages passed to page_free, in order. */
    method FreeSubtree(table: nat, level: nat, ghost s: Phys, ghost F: Forest) returns (ghost freed: seq<nat>)
      requires mm.Valid() && WellFormed(s, lay, F) && s.mem == mm.ram[..]
      requires table in F.level && F.level[table] == level && 0 < level <= 3
      modifies mm, mm.bitmap
      ensures mm.Valid() && mm.ram[..] == old(mm.ram[..])
      ensures freed == FreeList(s.mem, table, level)
      ensures mm.Allocated() == old(mm.Allocated()) - Elems(freed)
      decreases 3 - level, 2
    {
      hide WellFormed, SetOf, WordsOk, MemOk, FreeFrom, Elems, PageAt;
      WfBasics(s, lay, F);
      freed := FreeTables(table, level, s, F);
      FreedMore(old(mm.Allocated()), freed, [table], []);
      freed := freed + [table];
      PageAtTable(table);
      mm.PageFree(PageAddr(table));
    }

    /** The loop of vm_free_subtree. */
    method FreeTables(table: nat, level: nat, ghost s: Phys, ghost F: Forest) returns (ghost freed: seq<nat>)
      requires mm.Valid() && WellFormed(s, lay, F) && s.mem == mm.ram[..]
      requires table in F.level && F.level[table] == level && 0 < level <= 3
      modifies mm, mm.bitmap
      ensures mm.Valid() && mm.ram[..] == old(mm.ram[..])
      ensures freed == FreeFrom(s.mem, table, level, 0) && mm.Allocated() == old(mm.Allocated()) - Elems(freed)
      decreases 3 - level, 1
    {
      hide WellFormed, SetOf, WordsOk, MemOk, FreeFrom, Elems, Join;
      ghost var A := mm.Allocated();
      freed := [];
      FreedNone(A, FreeFrom(s.mem, table, level, 0));
      var i := 0;
      while i < ENTRIES
        invariant 0 <= i <= ENTRIES && mm.Valid() && mm.ram[..] == s.mem
        invariant Join(freed, FreeFrom(s.mem, table, level, i)) == FreeFrom(s.mem, table, level, 0)
        invariant mm.Allocated() == A - Elems(freed)
      {
        ghost var sub := FreeEntry(table, level, i, s, F);
        FreedMore(A, freed, sub, FreeFrom(s.mem, table, level, i + 1));
        freed := freed + sub;
        i := i + 1;
      }
      FreeFromEnd(s.mem, table, level);
      FreedMore(A, freed, [], []);
    }

    /** One round of the loop of vm_free_subtree. */
    method FreeEntry(table: nat, level: nat, i: nat, ghost s: Phys, ghost F: Forest) returns (ghost sub: seq<nat>)
      requires mm.Valid() && WellFormed(s, lay, F) && s.mem == mm.ram[..] && i < ENTRIES
      requires table in F.level && F.level[table] == level && 0 < level <= 3
      modifies mm, mm.bitmap
      ensures mm.Valid() && mm.ram[..] == old(mm.ram[..])
      ensures Join(sub, FreeFrom(s.mem, table, level, i + 1)) == FreeFrom(s.mem, table, level, i)
      ensures mm.Allocated() == old(mm.Allocated()) - Elems(sub)
      decreases 3 - level, 0
    {
      hide WellFormed, SetOf, WordsOk, Follow, FreeFrom, FreeList, Elems, IsValid, IsTable, Target;
      WfBasics(s, lay, F);
      FreeFromStep(s.mem, table, level, i);
      EntryFollow(s.mem, table, i, level);
      if level < 3 && IsValid(mm.ram[table][i]) && IsTable(mm.ram[table][i]) {
        FollowChild(s, lay, F, table, i);
        sub := FreeSubtree(Target(mm.ram[table][i]), level + 1, s, F);
      } else {
        sub := [];
        ElemsConcat(sub, sub);
      }
    }

    /** asid_alloc */
    method AsidAlloc() returns (asid: nat)
      requires AsidsValid()
      modifies asidBitmap
      ensures AsidsValid() && asid == AsidFrom(old(Asids()), 1)
      ensures Asids() == old(Asids()) + if asid == 0 then {} else {asid}
    {
      hide SetOf, AsidFrom;
      ghost var A := Asids();
      var i := 1;
      while i < ASID_MAX
        invariant 1 <= i <= ASID_MAX && asidBitmap[..] == old(asidBitmap[..]) && Asids() == A
        invariant AsidFrom(A, 1) == AsidFrom(A, i)
      {
        AsidFromStep(A, i);
        ghost var words := asidBitmap[..];
        TestAnd(words, i);
        if And(asidBitmap[i / 8], Pow2(i % 8)) == 0 {
          SetBitAdds(words, 8, ASID_MAX, i);
          asidBitmap[i / 8] := Or(asidBitmap[i / 8], Pow2(i % 8));
          assert asidBitmap[..] == words[i / 8 := Or(words[i / 8], Pow2(i % 8))];
          return i;
        }
        i := i + 1;
      }
      AsidFromStep(A, i);
      return 0;
    }

    /** asid_free */
    method AsidFree(asid: nat)
      requires AsidsValid()
      modifies asidBitmap
      ensures AsidsValid()
      ensures Asids() == old(Asids()) - if 0 < asid < ASID_MAX then {asid} else {}
    {
      hide SetOf;
      if 0 < asid < ASID_MAX {
        ghost var words := asidBitmap[..];
        ClearBitRemoves(words, 8, ASID_MAX, asid);
        asidBitmap[asid / 8] := And(asidBitmap[asid / 8], Not(8, Pow2(asid % 8)));
        assert asidBitmap[..] == words[asid / 8 := And(words[asid / 8], Not(8, Pow2(asid % 8)))];
      }
    }

    /** vm_create: 0 with a fresh root and an ASID, -1 when no page is left. */
    method VmCreate(space: AddressSpace, ghost F: Forest) returns (rc: int)
      requires mm.Valid() && AsidsValid() && WellFormed(State(), lay, F)
      modifies mm, mm.bitmap, mm.ram, asidBitmap, space
      ensures mm.Valid() && AsidsValid()
      ensures var q := AllocPage(old(State())).1;
              if q == MAX_PAGES then
                rc == -1 && State() == old(State()) && Asids() == old(Asids()) && space.pgd == NULL
              else
                && rc == 0 && State() == NewRoot(old(State()), lay, q) && space.pgd == PageAddr(q)
                && space.asid == AsidFrom(old(Asids()), 1)
                && Asids() == old(Asids()) + if space.asid == 0 then {} else {space.asid}
    {
      hide SetOf, AsidFrom, EntryOk, ParentOk, RootOk, FirstRun;
      ghost var s := State();
      var addr := mm.PageAlloc();
      space.pgd := addr;
      if addr == NULL {
        return -1;
      }
      ghost var q := AllocPage(s).1;
      PageAddrRoundTrip(q);
      StoreEntry(PageOf(addr), 0, mm.ram[lay.pgd][0]);
      space.asid := AsidAlloc();
      return 0;
    }

    /** vm_destroy: frees the private tables and the root, gives the ASID back and clears the
        struct; nothing happens when there is no address space. */
    method VmDestroy(space: AddressSpace, ghost F: Forest) returns (ghost freed: seq<nat>)
      requires mm.Valid() && AsidsValid() && WellFormed(State(), lay, F)
      requires space.pgd != NULL ==>
                 InRam(space.pgd) && F.IsRoot(PageOf(space.pgd)) && space.pgd == PageAddr(PageOf(space.pgd))
      modifies mm, mm.bitmap, asidBitmap, space
      ensures mm.Valid() && AsidsValid() && mm.ram[..] == old(mm.ram[..])
      ensures space.pgd == NULL && (old(space.pgd) != NULL ==> space.asid == 0)
      ensures freed == if old(space.pgd) == NULL then [] else DestroyList(old(mm.ram[..]), PageOf(old(space.pgd)))
      ensures mm.Allocated() == old(mm.Allocated()) - Elems(freed)
      ensures Asids() == old(Asids()) -
                if old(space.pgd) != NULL && 0 < old(space.asid) < ASID_MAX then {old(space.asid)} else {}
    {
      hide WellFormed, SetOf, WordsOk, MemOk, FreeFrom, Elems, PageAt;
      BitmapsApart();
      freed := [];
      FreedNone(mm.Allocated(), []);
      if space.pgd == NULL {
        return;
      }
      var root := PageOf(space.pgd);
      freed := FreeRoot(root, State(), F);
      FreedMore(old(mm.Allocated()), freed, [root], []);
      freed := freed + [root];
      PageAtTable(root);
      mm.PageFree(space.pgd);
      AsidFree(space.asid);
      space.pgd := NULL;
      space.asid := 0;
    }

    /** The loop of vm_destroy. */
    method FreeRoot(root: nat, ghost s: Phys, ghost F: Forest) returns (ghost freed: seq<nat>)
      requires mm.Valid() && WellFormed(s, lay, F) && s.mem == mm.ram[..] && F.IsRoot(root)
      modifies mm, mm.bitmap
      ensures mm.Valid() && mm.ram[..] == old(mm.ram[..])
      ensures freed == FreeFrom(s.mem, root, 0, 1) && mm.Allocated() == old(mm.Allocated()) - Elems(freed)
    {
      hide WellFormed, SetOf, WordsOk, MemOk, FreeFrom, Elems, Join;
      ghost var A := mm.Allocated();
      freed := [];
      FreedNone(A, FreeFrom(s.mem, root, 0, 1));
      var i := 1;
      while i < ENTRIES
        invariant 1 <= i <= ENTRIES && mm.Valid() && mm.ram[..] == s.mem
        invariant Join(freed, FreeFrom(s.mem, root, 0, i)) == FreeFrom(s.mem, root, 0, 1)
        invariant mm.Allocated() == A - Elems(freed)
      {
        ghost var sub := FreeRootEntry(root, i, s, F);
        FreedMore(A, freed, sub, FreeFrom(s.mem, root, 0, i + 1));
        freed := freed + sub;
        i := i + 1;
      }
      FreeFromEnd(s.mem, root, 0);
      FreedMore(A, freed, [], []);
    }

    /** One round of the loop of vm_destroy; a valid level-0 entry is taken for a table. */
    method FreeRootEntry(root: nat, i: nat, ghost s: Phys, ghost F: Forest) returns (ghost sub: seq<nat>)
      requires mm.Valid() && WellFormed(s, lay, F) && s.mem == mm.ram[..] && i < ENTRIES && F.IsRoot(root)
      modifies mm, mm.bitmap
      ensures mm.Valid() && mm.ram[..] == old(mm.ram[..])
      ensures Join(sub, FreeFrom(s.mem, root, 0, i + 1)) == FreeFrom(s.mem, root, 0, i)
      ensures mm.Allocated() == old(mm.Allocated()) - Elems(sub)
    {
      hide WellFormed, SetOf, WordsOk, Follow, FreeFrom, FreeList, Elems, IsValid, IsTable, Target;
      WfBasics(s, lay, F);
      WfEntry(s, lay, F, root, i);
      FreeFromStep(s.mem, root, 0, i);
      EntryFollow(s.mem, root, i, 0);
      if IsValid(mm.ram[root][i]) {
        FollowChild(s, lay, F, root, i);
        sub := FreeSubtree(Target(mm.ram[root][i]), 1, s, F);
      } else {
        sub := [];
        ElemsConcat(sub, sub);
      }
    }
  }

  lemma AsidFromStep(asids: set<nat>, i: nat)
    requires 0 < i <= ASID_MAX
    ensures AsidFrom(asids, i) == if i == ASID_MAX then 0 else if i !in asids then i else AsidFrom(asids, i + 1)
  {
  }

  /** words[i / 8] & (1 << (i % 8)) */
  lemma TestAnd(words: seq<nat>, i: nat)
    requires WordsOk(words, 8, ASID_MAX) && i < ASID_MAX
    ensures And(words[i / 8], Pow2(i % 8)) != 0 <==> i in SetOf(words, 8, ASID_MAX)
  {
    AndPow2(words[i / 8], i % 8);
    assert i in SetOf(words, 8, ASID_MAX) <==> Marked(words, 8, i);
  }

  /** Freeing more takes more away. */
  ghost function Join(xs: seq<nat>, ys: seq<nat>): seq<nat> { xs + ys }

  lemma FreedNone(used: set<nat>, tail: seq<nat>)
    ensures used - Elems([]) == used && Elems<nat>([]) == {} && Join([], tail) == tail
  {
  }

  lemma FreedMore(used: set<nat>, freed: seq<nat>, sub: seq<nat>, tail: seq<nat>)
    ensures used - Elems(freed) - Elems(sub) == used - Elems(freed + sub)
    ensures Join(freed + sub, tail) == Join(freed, Join(sub, tail)) && Join(freed, []) == freed
    ensures |sub| == 1 ==> Elems(sub) == {sub[0]}
  {
  }

  lemma PageAtTable(page: nat)
    requires page < MAX_PAGES
    ensures PageAt(PageAddr(page)) == {page}
  {
    PageAddrRoundTrip(page);
  }

  lemma ElemsConcat(xs: seq<nat>, ys: seq<nat>)
    ensures Elems(xs + ys) == Elems(xs) + Elems(ys)
    ensures xs == [] ==> Elems(xs) == {}
    ensures |ys| == 1 ==> Elems(ys) == {ys[0]}
  {
  }

  lemma FreeFromEnd(mem: Mem, p: nat, level: nat)
    requires level <= 3
    ensures FreeFrom(mem, p, level, ENTRIES) == []
  {
  }

  /** The tests of the code decide whether the walk would go on. */
  lemma EntryFollow(mem: Mem, p: nat, i: nat, level: nat)
    requires MemOk(mem) && p < MAX_PAGES && i < ENTRIES
    ensures Follow(mem, p, i, level).Next? <==> IsValid(mem[p][i]) && IsTable(mem[p][i])
    ensures Follow(mem, p, i, level).Next? ==> Follow(mem, p, i, level).page == Target(mem[p][i])
  {
  }
}
