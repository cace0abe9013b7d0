/** Four-level translation tables of kernel/mm.c: the VMSAv8-64 walk with a 4 KB granule (chapter D8
    of the Arm Architecture Reference Manual), mm_map_page as a function on memory and the set of
    allocated pages, and the forest that the tables of all address spaces form. */
module PageTables {
  import opened Bits
  import opened Common
  import opened PageAllocator

  const PTE_VALID: nat := 1
  const PTE_TABLE: nat := 2

  /** ~0xFFF in a 64-bit word. */
  const PAGE_MASK: nat := TWO64 - 0x1000

  predicate IsValid(d: nat) { And(d, PTE_VALID) != 0 }

  /** At level 3 the same bit marks a page descriptor. */
  predicate IsTable(d: nat) { And(d, PTE_TABLE) != 0 }

  function TableDesc(page: nat): nat {
    Or(Or(PageAddr(page), PTE_VALID), PTE_TABLE)
  }

  /** The page of RAM a descriptor's address field points at; MAX_PAGES for an address outside RAM. */
  function Target(d: nat): (p: nat)
    ensures p <= MAX_PAGES
  {
    var a := And(d, PAGE_MASK);
    if InRam(a) then PageOf(a) else MAX_PAGES
  }

  /** (paddr & ~0xFFF) | flags */
  function LeafDesc(paddr: nat, flags: nat): nat {
    Or(And(paddr, PAGE_MASK), flags)
  }

  lemma MaskRoundsDown(d: nat)
    requires d < TWO64
    ensures And(d, PAGE_MASK) == d - d % 0x1000
  {
    hide And, Pow2;
    Pow2Values();
    AndNotLow(64, d, 12);
  }

  lemma ZeroInvalid()
    ensures !IsValid(0)
  {
    AndSmall(0);
  }

  lemma TableDescValue(page: nat)
    ensures TableDesc(page) == PageAddr(page) + 3
  {
    hide Or;
    var a := PageAddr(page);
    OrPow2(a, 0);
    assert !Bit(a + 1, 1) by { assert (a + 1) / 2 % 2 == 0; }
    OrPow2(a + 1, 1);
    assert Pow2(0) == 1 && Pow2(1) == 2;
  }

  lemma TableDescFacts(page: nat)
    requires page < MAX_PAGES
    ensures IsValid(TableDesc(page)) && IsTable(TableDesc(page)) && Target(TableDesc(page)) == page
  {
    hide Or, And;
    TableDescValue(page);
    var d := PageAddr(page) + 3;
    AndSmall(d);
    MaskRoundsDown(d);
    PageAddrRoundTrip(page);
  }

  // ---- virtual addresses ----

  /** The table indices of a virtual address, one for each level. */
  datatype VPage = VPage(l0: nat, l1: nat, l2: nat, l3: nat) {
    predicate Ok() { l0 < ENTRIES && l1 < ENTRIES && l2 < ENTRIES && l3 < ENTRIES }
  }

  function Split(vaddr: nat): (v: VPage)
    ensures v.Ok()
  {
    VPage(vaddr / 0x80_0000_0000 % 512, vaddr / 0x4000_0000 % 512,
          vaddr / 0x20_0000 % 512, vaddr / 0x1000 % 512)
  }

  /** The indices are the bits 12 to 47 of the address, nine to each: two addresses have the same
      indices exactly when they agree in those bits. */
  lemma SplitIff(a: nat, b: nat)
    ensures Split(a) == Split(b) <==> a / 0x1000 % 0x10_0000_0000 == b / 0x1000 % 0x10_0000_0000
  {
    SplitBits(a);
    SplitBits(b);
    hide Split;
    SameDigits(Split(a), Split(b));
  }

  /** The number that the indices write, to the base 512. */
  function Number(v: VPage): nat {
    ((v.l0 * 512 + v.l1) * 512 + v.l2) * 512 + v.l3
  }

  lemma SplitBits(vaddr: nat)
    ensures Number(Split(vaddr)) == vaddr / 0x1000 % 0x10_0000_0000
  {
    var p := vaddr / 0x1000;
    var a := p / 512;
    var b := a / 512;
    var c := b / 512;
    DivDiv(vaddr, 0x1000, 512);
    DivDiv(vaddr, 0x20_0000, 512);
    DivDiv(vaddr, 0x4000_0000, 512);
    DivMod(p, 512);
    DivMod(a, 512);
    DivMod(b, 512);
    DivMod(c, 512);
    FromDigits(c / 512, c % 512, b % 512, a % 512, p % 512, p);
  }

  lemma FromDigits(e: nat, d: nat, c: nat, b: nat, a: nat, p: nat)
    requires d < 512 && c < 512 && b < 512 && a < 512 && p == (((e * 512 + d) * 512 + c) * 512 + b) * 512 + a
    ensures p % 0x10_0000_0000 == ((d * 512 + c) * 512 + b) * 512 + a
  {
    DivModUnique(p, 0x10_0000_0000, e, ((d * 512 + c) * 512 + b) * 512 + a);
  }

  lemma SameDigits(u: VPage, v: VPage)
    requires u.Ok() && v.Ok()
    ensures u == v <==> Number(u) == Number(v)
  {
    var u0, v0 := u.l0, v.l0;
    var u1, v1 := u0 * 512 + u.l1, v0 * 512 + v.l1;
    var u2, v2 := u1 * 512 + u.l2, v1 * 512 + v.l2;
    LastDigit(u0, u.l1, v0, v.l1);
    LastDigit(u1, u.l2, v1, v.l2);
    LastDigit(u2, u.l3, v2, v.l3);
  }

  lemma LastDigit(x: nat, a: nat, y: nat, b: nat)
    requires a < 512 && b < 512
    ensures x * 512 + a == y * 512 + b <==> x == y && a == b
  {
  }

  // ---- the walk ----

  /** What the hardware finds for a virtual page. */
  datatype Translation = Fault | Block(level: nat, desc: nat) | Page(desc: nat)

  function DecodeLeaf(d: nat): Translation {
    if IsValid(d) && IsTable(d) then Page(d) else Fault
  }

  predicate HasEntry(mem: Mem, page: nat, i: nat) {
    page < |mem| && i < |mem[page]|
  }

  /** Follow entry i of a table that is not at level 3: the next table, or how the walk ends. */
  datatype Hop = Next(page: nat) | Stop(t: Translation)

  function Follow(mem: Mem, page: nat, i: nat, level: nat): (h: Hop)
    ensures h.Next? ==> h.page <= MAX_PAGES
  {
    if !HasEntry(mem, page, i) then Stop(Fault)
    else
      var d := mem[page][i];
      if !IsValid(d) then Stop(Fault)
      else if IsTable(d) then Next(Target(d))
      else if level == 0 then Stop(Fault)
      else Stop(Block(level, d))
  }

  function Walk3(mem: Mem, page: nat, v: VPage): Translation {
    if HasEntry(mem, page, v.l3) then DecodeLeaf(mem[page][v.l3]) else Fault
  }

  function Walk2(mem: Mem, page: nat, v: VPage): Translation {
    match Follow(mem, page, v.l2, 2)
    case Next(p) => Walk3(mem, p, v)
    case Stop(t) => t
  }

  function Walk1(mem: Mem, page: nat, v: VPage): Translation {
    match Follow(mem, page, v.l1, 1)
    case Next(p) => Walk2(mem, p, v)
    case Stop(t) => t
  }

  function Walk(mem: Mem, root: nat, v: VPage): Translation {
    match Follow(mem, root, v.l0, 0)
    case Next(p) => Walk1(mem, p, v)
    case Stop(t) => t
  }

  // ---- physical addresses ----

  /** The output address of a virtual address; None for a translation fault. */
  function Translate(mem: Mem, root: nat, vaddr: nat): Option<nat> {
    match Walk(mem, root, Split(vaddr))
    case Fault => None
    case Block(level, d) =>
      if level == 1 then Some(d / 0x4000_0000 % 0x4_0000 * 0x4000_0000 + vaddr % 0x4000_0000)
      else Some(d / 0x20_0000 % 0x800_0000 * 0x20_0000 + vaddr % 0x20_0000)
    case Page(d) => Some(d / 0x1000 % 0x10_0000_0000 * 0x1000 + vaddr % 0x1000)
  }

  /** What a level-3 descriptor made of an address and flags means: a page at the rounded address if the
      flags carry bits 0 and 1, a fault otherwise. */
  lemma LeafMeans(paddr: nat, flags: nat)
    requires paddr < 0x1_0000_0000_0000 && flags < 0x1000
    ensures var d := LeafDesc(paddr, flags);
            && DecodeLeaf(d) == (if flags % 4 == 3 then Page(d) else Fault)
            && d / 0x1000 % 0x10_0000_0000 * 0x1000 == paddr - paddr % 0x1000
  {
    hide LeafDesc;
    LeafValue(paddr, flags);
    LeafBits(paddr / 0x1000, flags);
  }

  lemma LeafValue(paddr: nat, flags: nat)
    requires paddr < 0x1_0000_0000_0000 && flags < 0x1000
    ensures LeafDesc(paddr, flags) == paddr / 0x1000 * 0x1000 + flags
  {
    hide And, Or, Pow2;
    MaskRoundsDown(paddr);
    Pow2Values();
    OrLow(paddr / 0x1000, 12, flags);
  }

  lemma LeafBits(p: nat, flags: nat)
    requires p < 0x10_0000_0000 && flags < 0x1000
    ensures var d := p * 0x1000 + flags;
            && DecodeLeaf(d) == (if flags % 4 == 3 then Page(d) else Fault)
            && d / 0x1000 % 0x10_0000_0000 * 0x1000 == p * 0x1000
  {
    hide And;
    var d := p * 0x1000 + flags;
    AndSmall(d);
    LowBits(1024 * p, flags);
    DivModUnique(d, 0x1000, p, flags);
    ModSmall(p, 0x10_0000_0000);
  }

  lemma LowBits(q: nat, f: nat)
    ensures (4 * q + f) % 2 == f % 2 && (4 * q + f) / 2 % 2 == f / 2 % 2
    ensures f % 4 == 3 <==> f % 2 == 1 && f / 2 % 2 == 1
  {
    var g, b0 := f / 2, f % 2;
    var h, b1 := g / 2, g % 2;
    DivModUnique(4 * q + f, 2, 2 * q + g, b0);
    DivModUnique(2 * q + g, 2, q + h, b1);
    DivModUnique(f, 4, h, 2 * b1 + b0);
  }

  const BLOCK_NORMAL: nat := 0x701
  const BLOCK_DEVICE: nat := 0x605

  /** The block descriptors that mm_create_page_tables writes, by virtual page. */
  function IdentityDesc(v: VPage): (r: Option<nat>)
    ensures r.Some? ==> v.l0 == 0
  {
    if v.l0 == 0 && v.l1 == 0 && 64 <= v.l2 < 82 then Some(Or(v.l2 * 0x20_0000, BLOCK_DEVICE))
    else if v.l0 == 0 && v.l1 == 1 && v.l2 < 64 then Some(Or(0x4000_0000 + v.l2 * 0x20_0000, BLOCK_NORMAL))
    else None
  }

  /** The device range that is mapped: 2 MB blocks 64 to 81. */
  predicate InDevices(addr: nat) {
    0x800_0000 <= addr < 0xA40_0000
  }

  /** The block of an address in RAM or in the device range translates it to itself. */
  lemma IdentityBlock(vaddr: nat)
    requires InDevices(vaddr) || InRam(vaddr)
    ensures Split(vaddr).Ok() && IdentityDesc(Split(vaddr)).Some?
    ensures IdentityDesc(Split(vaddr)).value / 0x20_0000 % 0x800_0000 * 0x20_0000 + vaddr % 0x20_0000 == vaddr
  {
    hide Or, Split, Pow2;
    var k := vaddr / 0x20_0000;
    BlockIndices(vaddr);
    Pow2Values();
    OrLow(k, 21, BLOCK_DEVICE);
    OrLow(k, 21, BLOCK_NORMAL);
  }

  /** The indices of an address below 2 GB. */
  lemma BlockIndices(vaddr: nat)
    requires InDevices(vaddr) || InRam(vaddr)
    ensures var v := Split(vaddr);
      v.Ok() && v.l0 == 0 && v.l2 == vaddr / 0x20_0000 - 512 * v.l1 && v.l1 == if InRam(vaddr) then 1 else 0
  {
  }

  // ---- mm_map_page ----

  /** Memory and the pages the allocator has handed out. */
  datatype Phys = Phys(mem: Mem, used: set<nat>)

  ghost predicate PhysOk(s: Phys) {
    MemOk(s.mem) && forall p :: p in s.used ==> p < MAX_PAGES
  }

  /** page_alloc on this state. */
  ghost function AllocPage(s: Phys): (r: (Phys, nat))
    requires PhysOk(s)
    ensures PhysOk(r.0)
    ensures r.1 == MAX_PAGES ==> r.0 == s
    ensures r.1 != MAX_PAGES ==> r.1 < MAX_PAGES && r.1 !in s.used
  {
    var q := FirstRun(s.used, 1);
    if q == MAX_PAGES then (s, q) else
      assert q !in s.used;
      (Phys(s.mem[q := Zeros()], s.used + {q}), q)
  }

  /** It yields the lowest page that is free, zeroed, and touches nothing else; it fails exactly when all
      pages are in use. */
  lemma AllocPageLowest(s: Phys)
    requires PhysOk(s)
    ensures var (s', q) := AllocPage(s);
            && (q == MAX_PAGES <==> forall p :: 0 <= p < MAX_PAGES ==> p in s.used)
            && (forall p :: 0 <= p < q ==> p in s.used)
            && (q != MAX_PAGES ==> s' == Phys(s.mem[q := Zeros()], s.used + {q}))
  {
    var q := AllocPage(s).1;
    forall p: nat | p < q ensures p in s.used {
      assert !FreeRun(s.used, p, 1);
    }
  }

  function Store(mem: Mem, page: nat, i: nat, d: nat): (mem': Mem)
    requires HasEntry(mem, page, i)
    ensures |mem'| == |mem| && forall p :: 0 <= p < |mem| ==> |mem'[p]| == |mem[p]|
  {
    var row: seq<nat> := mem[page][i := d];
    mem[page := row]
  }

  /** One level of mm_map_page: the table below entry i, made on demand. None is an early return. */
  ghost function Descend(s: Phys, page: nat, i: nat, level: nat): (r: (Phys, Option<nat>))
    requires PhysOk(s) && page < MAX_PAGES && i < ENTRIES
    ensures PhysOk(r.0)
  {
    var d := s.mem[page][i];
    if !IsValid(d) then
      var (s', q) := AllocPage(s);
      if q == MAX_PAGES then (s, None)
      else (Phys(Store(s'.mem, page, i, TableDesc(q)), s'.used), Some(q))
    else if level > 0 && !IsTable(d) then (s, None)
    else (s, Some(Target(d)))
  }

  /** The state of mm_map_page before it writes the leaf, and the level-3 table it reached. */
  ghost function Prepare(s: Phys, root: nat, v: VPage): (r: (Phys, Option<nat>))
    requires PhysOk(s) && root < MAX_PAGES && v.Ok()
    ensures PhysOk(r.0)
  {
    var (s1, p1) := Descend(s, root, v.l0, 0);
    if p1.None? || p1.value >= MAX_PAGES then (s1, None) else
    var (s2, p2) := Descend(s1, p1.value, v.l1, 1);
    if p2.None? || p2.value >= MAX_PAGES then (s2, None) else
    Descend(s2, p2.value, v.l2, 2)
  }

  /** mm_map_page: the new state, and whether the descriptor was installed. */
  ghost function MapPage(s: Phys, root: nat, v: VPage, desc: nat): (r: (Phys, bool))
    requires PhysOk(s) && root < MAX_PAGES && v.Ok()
    ensures PhysOk(r.0)
  {
    var (s', p) := Prepare(s, root, v);
    if p.None? || p.value >= MAX_PAGES then (s', false)
    else (Phys(Store(s'.mem, p.value, v.l3, desc), s'.used), true)
  }
}
