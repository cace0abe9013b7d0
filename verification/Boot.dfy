/** The tables that mm_create_page_tables builds, and the state the kernel starts from. */
module Boot {
  import opened Bits
  import opened Common
  import opened PageAllocator
  import opened PageTables
  import opened TableForest
  import opened Ownership
  import opened VmRuns

  ghost predicate LayoutDistinct(lay: Layout, used: set<nat>) {
    && {lay.pgd, lay.pud, lay.dev, lay.ram} <= used
    && lay.pgd < MAX_PAGES && lay.pud < MAX_PAGES && lay.dev < MAX_PAGES && lay.ram < MAX_PAGES
    && lay.pgd != lay.pud && lay.pgd != lay.dev && lay.pgd != lay.ram
    && lay.pud != lay.dev && lay.pud != lay.ram && lay.dev != lay.ram
  }

  /** The four tables are filled as mm_create_page_tables leaves them. */
  ghost predicate Built(mem: Mem, lay: Layout) {
    && MemOk(mem)
    && lay.pgd < MAX_PAGES && lay.pud < MAX_PAGES && lay.dev < MAX_PAGES && lay.ram < MAX_PAGES
    && (forall i :: 0 <= i < ENTRIES ==> mem[lay.pgd][i] == if i == 0 then TableDesc(lay.pud) else 0)
    && (forall i :: 0 <= i < ENTRIES ==>
          mem[lay.pud][i] == if i == 0 then TableDesc(lay.dev) else if i == 1 then TableDesc(lay.ram) else 0)
    && (forall i :: 0 <= i < ENTRIES ==> mem[lay.dev][i] == DeviceEntry(i))
    && (forall i :: 0 <= i < ENTRIES ==> mem[lay.ram][i] == RamEntry(i))
  }

  function DeviceEntry(i: nat): nat {
    if 64 <= i < 82 then Or(i * 0x20_0000, BLOCK_DEVICE) else 0
  }

  function RamEntry(i: nat): nat {
    if i < 64 then Or(0x4000_0000 + i * 0x20_0000, BLOCK_NORMAL) else 0
  }

  function BootForest(lay: Layout): Forest {
    Forest(map[lay.pgd := 0, lay.pud := 1, lay.dev := 2, lay.ram := 2],
           map[lay.pud := (lay.pgd, 0), lay.dev := (lay.pud, 0), lay.ram := (lay.pud, 1)])
  }

  /** A block entry is valid and no table; an empty one is invalid. */
  lemma BlockEntries(i: nat)
    requires i < ENTRIES
    ensures if 64 <= i < 82 then IsValid(DeviceEntry(i)) && !IsTable(DeviceEntry(i)) else !IsValid(DeviceEntry(i))
    ensures if i < 64 then IsValid(RamEntry(i)) && !IsTable(RamEntry(i)) else !IsValid(RamEntry(i))
  {
    hide Or, And, IsValid, IsTable;
    ZeroInvalid();
    BlockBits(i, BLOCK_DEVICE);
    BlockBits(0x200 + i, BLOCK_NORMAL);
    assert 0x4000_0000 + i * 0x20_0000 == (0x200 + i) * 0x20_0000;
  }

  lemma BlockBits(k: nat, flags: nat)
    requires flags < 0x20_0000 && flags % 4 == 1
    ensures IsValid(Or(k * 0x20_0000, flags)) && !IsTable(Or(k * 0x20_0000, flags))
  {
    hide Or, And, Pow2;
    Pow2Values();
    OrLow(k, 21, flags);
    AndSmall(k * 0x20_0000 + flags);
    LowBits(k * 0x8_0000, flags);
    LowBits(flags / 4, 1);
  }

  lemma BootEntryOk(mem: Mem, lay: Layout, used: set<nat>, p: nat, i: nat)
    requires Built(mem, lay) && LayoutDistinct(lay, used) && p in BootForest(lay).level && i < ENTRIES
    ensures EntryOk(BootForest(lay), lay, mem, p, i)
  {
    hide IsValid, IsTable, Target, TableDesc, DeviceEntry, RamEntry;
    BlockEntries(i);
    ZeroInvalid();
    TableDescFacts(lay.pud);
    TableDescFacts(lay.dev);
    TableDescFacts(lay.ram);
  }

  lemma BootParentOk(mem: Mem, lay: Layout, used: set<nat>, c: nat)
    requires Built(mem, lay) && LayoutDistinct(lay, used) && c in BootForest(lay).level
    ensures ParentOk(BootForest(lay), mem, c)
  {
    hide IsValid, IsTable, Target, TableDesc, DeviceEntry, RamEntry;
    TableDescFacts(lay.pud);
    TableDescFacts(lay.dev);
    TableDescFacts(lay.ram);
  }

  lemma BootWellFormed(mem: Mem, lay: Layout, used: set<nat>)
    requires Built(mem, lay) && LayoutDistinct(lay, used) && forall p :: p in used ==> p < MAX_PAGES
    ensures WellFormed(Phys(mem, used), lay, BootForest(lay))
  {
    hide EntryOk, ParentOk, IsValid, IsTable, Target, TableDesc, DeviceEntry, RamEntry;
    var F := BootForest(lay);
    forall p, i | p in F.level && 0 <= i < ENTRIES ensures EntryOk(F, lay, mem, p, i) {
      BootEntryOk(mem, lay, used, p, i);
    }
    forall c | c in F.level ensures ParentOk(F, mem, c) {
      BootParentOk(mem, lay, used, c);
    }
  }

  lemma BootIdentity(mem: Mem, lay: Layout, used: set<nat>, v: VPage)
    requires Built(mem, lay) && LayoutDistinct(lay, used) && v.Ok() && IdentityDesc(v).Some?
    ensures Walk(mem, lay.pgd, v) == Block(2, IdentityDesc(v).value)
  {
    hide IsValid, IsTable, Target, TableDesc, Or;
    BlockEntries(v.l2);
    TableDescFacts(lay.pud);
    TableDescFacts(lay.dev);
    TableDescFacts(lay.ram);
  }

  /** The world after boot: no address space, every used page is the kernel's. */
  ghost function BootWorld(mem: Mem, lay: Layout, used: set<nat>): World {
    World(Phys(mem, used), BootForest(lay), map[], {}, map[], {}, used)
  }

  /** The state after mm_init and mm_create_page_tables satisfies the invariant of all runs, with
      the identity map in place. */
  lemma BootInv(mem: Mem, lay: Layout, used: set<nat>)
    requires Built(mem, lay) && LayoutDistinct(lay, used) && forall p :: p in used ==> p < MAX_PAGES
    ensures Inv(BootWorld(mem, lay, used), lay)
    ensures IdentityMapped(BootForest(lay), mem)
  {
    hide EntryOk, ParentOk, RootOk, Walk, Built, IdentityDesc;
    var F := BootForest(lay);
    BootWellFormed(mem, lay, used);
    WellFormedParents(Phys(mem, used), lay, F);
    forall r, v: VPage | F.IsRoot(r) && v.Ok() && IdentityDesc(v).Some?
      ensures Walk(mem, r, v) == Block(2, IdentityDesc(v).value)
    {
      BootIdentity(mem, lay, used, v);
    }
  }

  /** From boot on, whatever is created, mapped and destroyed, every address space translates RAM
      and the device range to themselves. */
  lemma AlwaysIdentity(mem: Mem, lay: Layout, used: set<nat>, es: seq<Event>, r: nat, vaddr: nat)
    requires Built(mem, lay) && LayoutDistinct(lay, used) && forall p :: p in used ==> p < MAX_PAGES
    requires (forall e :: e in es ==> e.Ok()) && Inv(BootWorld(mem, lay, used), lay)
    requires Run(BootWorld(mem, lay, used), lay, es).F.IsRoot(r) && (InDevices(vaddr) || InRam(vaddr))
    ensures Translate(Run(BootWorld(mem, lay, used), lay, es).s.mem, r, vaddr) == Some(vaddr)
  {
    hide Inv, Run, Translate, Built;
    BootInv(mem, lay, used);
    RunTranslatesIdentity(BootWorld(mem, lay, used), lay, es, r, vaddr);
  }

  /** Fields of a block descriptor: the index of the memory type, the access permissions (0: read and write,
      privileged only), the shareability and the access flag. */
  function AttrIndex(d: nat): nat { d / 0x4 % 8 }
  function AccessBits(d: nat): nat { d / 0x40 % 4 }
  function Shareability(d: nat): nat { d / 0x100 % 4 }
  function AccessFlag(d: nat): nat { d / 0x400 % 2 }

  lemma FieldsOf(k: nat, flags: nat)
    requires flags < 0x1000
    ensures var d := Or(k * 0x20_0000, flags);
      && AttrIndex(d) == AttrIndex(flags) && AccessBits(d) == AccessBits(flags)
      && Shareability(d) == Shareability(flags) && AccessFlag(d) == AccessFlag(flags)
  {
    hide Or, Pow2, AttrIndex, AccessBits, Shareability, AccessFlag;
    Pow2Values();
    OrLow(k, 21, flags);
    AttrIndexAdd(k, flags);
    AccessBitsAdd(k, flags);
    ShareabilityAdd(k, flags);
    AccessFlagAdd(k, flags);
  }

  lemma AttrIndexAdd(k: nat, flags: nat)
    ensures AttrIndex(k * 0x20_0000 + flags) == AttrIndex(flags)
  {
    DivModUnique(k * 0x20_0000 + flags, 0x4, k * 0x80000 + flags / 0x4, flags % 0x4);
    DivModUnique(k * 0x80000 + flags / 0x4, 8, k * 0x10000 + flags / 0x4 / 8, flags / 0x4 % 8);
  }

  lemma AccessBitsAdd(k: nat, flags: nat)
    ensures AccessBits(k * 0x20_0000 + flags) == AccessBits(flags)
  {
    DivModUnique(k * 0x20_0000 + flags, 0x40, k * 0x8000 + flags / 0x40, flags % 0x40);
    DivModUnique(k * 0x8000 + flags / 0x40, 4, k * 0x2000 + flags / 0x40 / 4, flags / 0x40 % 4);
  }

  lemma ShareabilityAdd(k: nat, flags: nat)
    ensures Shareability(k * 0x20_0000 + flags) == Shareability(flags)
  {
    DivModUnique(k * 0x20_0000 + flags, 0x100, k * 0x2000 + flags / 0x100, flags % 0x100);
    DivModUnique(k * 0x2000 + flags / 0x100, 4, k * 0x800 + flags / 0x100 / 4, flags / 0x100 % 4);
  }

  lemma AccessFlagAdd(k: nat, flags: nat)
    ensures AccessFlag(k * 0x20_0000 + flags) == AccessFlag(flags)
  {
    DivModUnique(k * 0x20_0000 + flags, 0x400, k * 0x800 + flags / 0x400, flags % 0x400);
    DivModUnique(k * 0x800 + flags / 0x400, 2, k * 0x400 + flags / 0x400 / 2, flags / 0x400 % 2);
  }

  lemma IdentityFields(vaddr: nat)
    requires InDevices(vaddr) || InRam(vaddr)
    ensures Split(vaddr).Ok() && IdentityDesc(Split(vaddr)).Some?
    ensures var d := IdentityDesc(Split(vaddr)).value;
      && AttrIndex(d) == (if InRam(vaddr) then 0 else 1) && Shareability(d) == (if InRam(vaddr) then 3 else 2)
      && AccessFlag(d) == 1 && AccessBits(d) == 0
  {
    hide Or, Split, AttrIndex, AccessBits, Shareability, AccessFlag;
    BlockIndices(vaddr);
    IdentityBlock(vaddr);
    var v := Split(vaddr);
    FieldsOf(v.l2, BLOCK_DEVICE);
    FieldsOf(0x200 + v.l2, BLOCK_NORMAL);
    assert 0x4000_0000 + v.l2 * 0x20_0000 == (0x200 + v.l2) * 0x20_0000;
    FlagFields();
  }

  lemma FlagFields()
    ensures AttrIndex(BLOCK_NORMAL) == 0 && Shareability(BLOCK_NORMAL) == 3
    ensures AttrIndex(BLOCK_DEVICE) == 1 && Shareability(BLOCK_DEVICE) == 2
    ensures AccessFlag(BLOCK_NORMAL) == 1 && AccessBits(BLOCK_NORMAL) == 0
    ensures AccessFlag(BLOCK_DEVICE) == 1 && AccessBits(BLOCK_DEVICE) == 0
  {
  }

  /** From boot on, in every run, every address space reaches RAM through blocks of memory type 0, inner
      shareable, and the devices through blocks of type 1, outer shareable; both have the access flag set,
      and only the kernel may use them. */
  lemma AlwaysAttributes(mem: Mem, lay: Layout, used: set<nat>, es: seq<Event>, r: nat, vaddr: nat)
    requires Built(mem, lay) && LayoutDistinct(lay, used) && forall p :: p in used ==> p < MAX_PAGES
    requires (forall e :: e in es ==> e.Ok()) && Inv(BootWorld(mem, lay, used), lay)
    requires Run(BootWorld(mem, lay, used), lay, es).F.IsRoot(r) && (InDevices(vaddr) || InRam(vaddr))
    ensures var t := Walk(Run(BootWorld(mem, lay, used), lay, es).s.mem, r, Split(vaddr));
      && t.Block? && t.level == 2
      && AttrIndex(t.desc) == (if InRam(vaddr) then 0 else 1)
      && Shareability(t.desc) == (if InRam(vaddr) then 3 else 2)
      && AccessFlag(t.desc) == 1 && AccessBits(t.desc) == 0
  {
    hide Inv, Run, Walk, Built, Split, IdentityDesc, AttrIndex, AccessBits, Shareability, AccessFlag;
    BootInv(mem, lay, used);
    RunKeepsIdentity(BootWorld(mem, lay, used), lay, es);
    IdentityFields(vaddr);
    var w := Run(BootWorld(mem, lay, used), lay, es);
    assert Walk(w.s.mem, r, Split(vaddr)) == Block(2, IdentityDesc(Split(vaddr)).value);
  }
}
