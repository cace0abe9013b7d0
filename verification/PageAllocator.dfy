/** The bitmap page allocator of kernel/mm.c: one bit per 4 KB page, packed in 64-bit words, with
    a running count of used pages. The bitmap stands for a finite set of page numbers, and every
    operation is specified on that set. Physical memory is kept beside it, page by page, because
    an allocation hands out zeroed pages. */
module PageAllocator {
  import opened Common
  import opened Bits
  import opened Bitmaps

  const PAGE_SIZE: nat := 4096
  const RAM_BASE: nat := 0x4000_0000
  const MAX_PAGES: nat := 32768
  const RAM_SIZE: nat := MAX_PAGES * PAGE_SIZE
  const BITMAP_SIZE: nat := (MAX_PAGES + 63) / 64
  /** 64-bit words in a page, which is also the number of entries of a translation table. */
  const ENTRIES: nat := 512
  const NULL: nat := 0

  /** Physical memory: the 64-bit words of every page of RAM. */
  type Mem = seq<seq<nat>>

  function Zeros(): (z: seq<nat>)
    ensures |z| == ENTRIES && forall i :: 0 <= i < ENTRIES ==> z[i] == 0
  {
    seq(ENTRIES, i => 0)
  }

  function PageAddr(page: nat): nat {
    RAM_BASE + page * PAGE_SIZE
  }

  predicate InRam(addr: int) {
    RAM_BASE <= addr < RAM_BASE + RAM_SIZE
  }

  /** The page an address lies in. */
  function PageOf(addr: int): (p: nat)
    requires InRam(addr)
    ensures p < MAX_PAGES
  {
    (addr - RAM_BASE) / PAGE_SIZE
  }

  lemma PageAddrRoundTrip(page: nat)
    requires page < MAX_PAGES
    ensures InRam(PageAddr(page)) && PageOf(PageAddr(page)) == page
    ensures PageAddr(page) != NULL && PageAddr(page) % PAGE_SIZE == 0
  {
  }

  // ---- first fit ----

  ghost predicate FreeRun(used: set<nat>, start: nat, n: nat) {
    start + n <= MAX_PAGES && forall p :: start <= p < start + n ==> p !in used
  }

  /** The n pages from start on. */
  ghost function Range(start: nat, n: nat): (r: set<nat>)
    ensures forall p :: p in r <==> start <= p < start + n
    ensures |r| == n
  {
    if n == 0 then {} else Range(start, n - 1) + {start + n - 1}
  }

  /** A together with the pages start..j-1. */
  ghost function With(A: set<nat>, start: nat, j: nat): set<nat>
    requires start <= j
  {
    A + Range(start, j - start)
  }

  lemma WithEnds(A: set<nat>, start: nat, n: nat)
    ensures With(A, start, start) == A && With(A, start, start + n) == A + Range(start, n)
  {
  }

  lemma WithGrows(A: set<nat>, start: nat, n: nat, j: nat)
    requires FreeRun(A, start, n) && start <= j < start + n
    ensures j < MAX_PAGES && j !in With(A, start, j) && With(A, start, j) + {j} == With(A, start, j + 1)
  {
  }

  /** The lowest start at or above s of n consecutive free pages, MAX_PAGES if there is none. */
  ghost function RunFrom(used: set<nat>, n: nat, s: nat): (r: nat)
    requires 0 < n
    ensures r == MAX_PAGES || (s <= r && FreeRun(used, r, n))
    ensures forall t :: s <= t < r ==> !FreeRun(used, t, n)
    decreases MAX_PAGES - s, used
  {
    if s + n > MAX_PAGES then MAX_PAGES
    else if FreeRun(used, s, n) then s
    else RunFrom(used, n, s + 1)
  }

  ghost function FirstRun(used: set<nat>, n: nat): nat
    requires 0 < n
  {
    RunFrom(used, n, 0)
  }

  lemma FirstRunUnique(used: set<nat>, n: nat, r: nat)
    requires 0 < n
    requires FreeRun(used, r, n) && forall t :: 0 <= t < r ==> !FreeRun(used, t, n)
    ensures FirstRun(used, n) == r
  {
  }

  lemma UsedIsNoRun(used: set<nat>, i: nat)
    requires forall t :: 0 <= t < i ==> t in used
    ensures forall t :: 0 <= t < i ==> !FreeRun(used, t, 1)
  {
    forall t | 0 <= t < i ensures !FreeRun(used, t, 1) {
      assert t in used;
    }
  }

  lemma NoRun(used: set<nat>, n: nat)
    requires 0 < n
    requires forall t :: 0 <= t <= MAX_PAGES - n ==> !FreeRun(used, t, n)
    ensures FirstRun(used, n) == MAX_PAGES
  {
  }

  // ---- the search of pages_alloc ----

  /** Before page i: the last len pages are free and no longer run ends there, and no earlier page starts
      a run of n. */
  ghost predicate Scanned(A: set<nat>, n: nat, i: nat, len: nat) {
    && len <= i && len < n && (len < i ==> i - len - 1 in A)
    && (forall p :: i - len <= p < i ==> p !in A)
    && (forall t :: 0 <= t <= i - n ==> !FreeRun(A, t, n))
  }

  lemma ScanStart(A: set<nat>, n: nat)
    requires 0 < n
    ensures Scanned(A, n, 0, 0)
  {
  }

  lemma ScanFree(A: set<nat>, n: nat, i: nat, len: nat)
    requires Scanned(A, n, i, len) && i < MAX_PAGES && i !in A
    ensures len + 1 < n ==> Scanned(A, n, i + 1, len + 1)
    ensures len + 1 == n ==> FirstRun(A, n) == i - len
  {
    hide FirstRun;
    if len + 1 == n {
      FirstRunUnique(A, n, i - len);
    } else {
      var t := i + 1 - n;
      if t >= 0 { assert t <= i - len - 1 < t + n && i - len - 1 in A; }
    }
  }

  lemma ScanTaken(A: set<nat>, n: nat, i: nat, len: nat)
    requires Scanned(A, n, i, len) && i in A
    ensures Scanned(A, n, i + 1, 0)
  {
  }

  lemma ScanEnd(A: set<nat>, n: nat, len: nat)
    requires Scanned(A, n, MAX_PAGES, len)
    ensures FirstRun(A, n) == MAX_PAGES
  {
    hide FirstRun;
    NoRun(A, n);
  }

  function ZeroRange(mem: Mem, start: nat, n: nat): (mem': Mem)
    requires start + n <= |mem|
    ensures |mem'| == |mem|
    ensures forall p :: 0 <= p < |mem| ==> mem'[p] == if start <= p < start + n then Zeros() else mem[p]
  {
    seq(|mem|, p requires 0 <= p < |mem| => if start <= p < start + n then Zeros() else mem[p])
  }

  ghost predicate MemOk(mem: Mem) {
    |mem| == MAX_PAGES && forall p :: 0 <= p < |mem| ==> |mem[p]| == ENTRIES
  }

  class Mm {
    const bitmap: array<nat>
    const ram: array<seq<nat>>
    var used: nat

    ghost predicate Valid()
      reads this, bitmap, ram
    {
      WordsOk(bitmap[..], 64, MAX_PAGES) && MemOk(ram[..]) && used == |SetOf(bitmap[..], 64, MAX_PAGES)|
    }

    ghost function Allocated(): set<nat>
      reads bitmap
    {
      SetOf(bitmap[..], 64, MAX_PAGES)
    }

    /** mm_init: the pages below the end of the kernel image are in use, all others free. */
    constructor (memory: array<seq<nat>>, kernelPages: nat)
      requires MemOk(memory[..]) && kernelPages <= MAX_PAGES
      ensures Valid() && fresh(bitmap) && ram == memory
      ensures Allocated() == Range(0, kernelPages) && used == kernelPages
    {
      bitmap := new nat[BITMAP_SIZE];
      ram := memory;
      used := 0;
      new;
      var k := 0;
      while k < BITMAP_SIZE
        invariant 0 <= k <= BITMAP_SIZE
        invariant forall j :: 0 <= j < k ==> bitmap[j] == 0
        modifies bitmap
      {
        bitmap[k] := 0;
        k := k + 1;
      }
      ZeroWords(bitmap[..], 64, MAX_PAGES);
      var i := 0;
      while i < kernelPages
        invariant 0 <= i <= kernelPages
        invariant WordsOk(bitmap[..], 64, MAX_PAGES) && Allocated() == Range(0, i) && used == i
        modifies this, bitmap
      {
        BitmapSet(i);
        used := used + 1;
        i := i + 1;
      }
    }

    method BitmapSet(idx: nat)
      requires WordsOk(bitmap[..], 64, MAX_PAGES) && idx < MAX_PAGES
      modifies bitmap
      ensures WordsOk(bitmap[..], 64, MAX_PAGES) && Allocated() == old(Allocated()) + {idx}
    {
      SetBitAdds(bitmap[..], 64, MAX_PAGES, idx);
      ghost var words := bitmap[..];
      bitmap[idx / 64] := Or(bitmap[idx / 64], Pow2(idx % 64));
      assert bitmap[..] == words[idx / 64 := Or(words[idx / 64], Pow2(idx % 64))];
    }

    method BitmapClear(idx: nat)
      requires WordsOk(bitmap[..], 64, MAX_PAGES) && idx < MAX_PAGES
      modifies bitmap
      ensures WordsOk(bitmap[..], 64, MAX_PAGES) && Allocated() == old(Allocated()) - {idx}
    {
      ClearBitRemoves(bitmap[..], 64, MAX_PAGES, idx);
      ghost var words := bitmap[..];
      bitmap[idx / 64] := And(bitmap[idx / 64], Not(64, Pow2(idx % 64)));
      assert bitmap[..] == words[idx / 64 := And(words[idx / 64], Not(64, Pow2(idx % 64)))];
    }

    method BitmapTest(idx: nat) returns (set?: bool)
      requires WordsOk(bitmap[..], 64, MAX_PAGES) && idx < MAX_PAGES
      ensures set? <==> idx in Allocated()
    {
      TestBitReads(bitmap[..], 64, MAX_PAGES, idx);
      set? := And(Shr(bitmap[idx / 64], idx % 64), 1) != 0;
    }

    method ZeroPage(page: nat)
      requires MemOk(ram[..]) && page < MAX_PAGES
      modifies ram
      ensures ram[..] == old(ram[..])[page := Zeros()]
    {
      var j := 0;
      while j < ENTRIES
        invariant 0 <= j <= ENTRIES && |ram[page]| == ENTRIES
        invariant forall i :: 0 <= i < j ==> ram[page][i] == 0
        invariant ram[..] == old(ram[..])[page := ram[page]]
      {
        ram[page] := ram[page][j := 0];
        j := j + 1;
      }
      assert ram[page] == Zeros();
    }

    /** page_alloc: the lowest free page, zeroed; NULL when every page is in use. */
    method PageAlloc() returns (addr: nat)
      requires Valid()
      modifies this, bitmap, ram
      ensures Valid()
      ensures var s := FirstRun(old(Allocated()), 1);
              if s == MAX_PAGES then
                addr == NULL && Allocated() == old(Allocated()) && ram[..] == old(ram[..])
              else
                addr == PageAddr(s) && Allocated() == old(Allocated()) + {s} &&
                ram[..] == old(ram[..])[s := Zeros()]
    {
      hide SetOf, WordsOk, RunFrom;
      var i := FindPage();
      if i == MAX_PAGES {
        return NULL;
      }
      MarkPage(i);
      ZeroPage(i);
      return PageAddr(i);
    }

    /** The search loop of page_alloc; MAX_PAGES stands for leaving the loop without a page. */
    method FindPage() returns (i: nat)
      requires Valid()
      ensures i == FirstRun(Allocated(), 1)
      ensures i < MAX_PAGES ==> i !in Allocated()
    {
      hide SetOf, WordsOk, MemOk, RunFrom;
      ghost var A := Allocated();
      i := 0;
      while i < MAX_PAGES
        invariant 0 <= i <= MAX_PAGES
        invariant forall t :: 0 <= t < i ==> t in A
      {
        var taken := BitmapTest(i);
        if !taken {
          UsedIsNoRun(A, i);
          FirstRunUnique(A, 1, i);
          return;
        }
        i := i + 1;
      }
      UsedIsNoRun(A, i);
      NoRun(A, 1);
    }

    /** pages_alloc: first fit for n consecutive pages. NULL exactly when n is out of range or no
        run of n free pages exists; otherwise the lowest run, whose n pages alone become used. */
    method PagesAlloc(n: nat) returns (addr: nat)
      requires Valid()
      modifies this, bitmap, ram
      ensures Valid()
      ensures addr == NULL <==> n == 0 || n > MAX_PAGES || FirstRun(old(Allocated()), n) == MAX_PAGES
      ensures addr == NULL ==> Allocated() == old(Allocated()) && ram[..] == old(ram[..])
      ensures addr != NULL ==>
                var s := FirstRun(old(Allocated()), n);
                addr == PageAddr(s) && Allocated() == old(Allocated()) + Range(s, n) &&
                ram[..] == ZeroRange(old(ram[..]), s, n)
    {
      hide SetOf, WordsOk, RunFrom, Range;
      if n == 0 || n > MAX_PAGES {
        return NULL;
      }
      var start := FindRun(n);
      if start == MAX_PAGES {
        return NULL;
      }
      MarkRun(start, n);
      ZeroRun(start, n);
      return PageAddr(start);
    }

    /** The search loop of pages_alloc; MAX_PAGES stands for leaving the loop without a run. */
    method FindRun(n: nat) returns (start: nat)
      requires Valid() && 0 < n <= MAX_PAGES
      ensures start == FirstRun(Allocated(), n)
    {
      hide SetOf, WordsOk, MemOk, Scanned, FirstRun;
      ghost var A := Allocated();
      var runStart, runLen := 0, 0;
      var i := 0;
      ScanStart(A, n);
      while i < MAX_PAGES
        invariant 0 <= i <= MAX_PAGES && 0 <= runLen <= i && runLen < n
        invariant runLen > 0 ==> runStart == i - runLen
        invariant Scanned(A, n, i, runLen)
      {
        var taken := BitmapTest(i);
        if !taken {
          ScanFree(A, n, i, runLen);
          if runLen == 0 {
            runStart := i;
          }
          runLen := runLen + 1;
          if runLen == n {
            return runStart;
          }
        } else {
          ScanTaken(A, n, i, runLen);
          runLen := 0;
        }
        i := i + 1;
      }
      ScanEnd(A, n, runLen);
      return MAX_PAGES;
    }

    /** The marking loop of pages_alloc. */
    method MarkRun(start: nat, n: nat)
      requires Valid() && FreeRun(Allocated(), start, n)
      modifies this, bitmap
      ensures Valid() && Allocated() == old(Allocated()) + Range(start, n)
      ensures ram[..] == old(ram[..])
    {
      hide SetOf, WordsOk, MemOk, Range, With, FreeRun;
      ghost var A := Allocated();
      WithEnds(A, start, n);
      var j := start;
      while j < start + n
        invariant start <= j <= start + n
        invariant Valid() && ram[..] == old(ram[..])
        invariant Allocated() == With(A, start, j)
      {
        WithGrows(A, start, n, j);
        MarkPage(j);
        j := j + 1;
      }
    }

    method MarkPage(j: nat)
      requires Valid() && j < MAX_PAGES && j !in Allocated()
      modifies this, bitmap
      ensures Valid() && Allocated() == old(Allocated()) + {j}
      ensures ram[..] == old(ram[..])
    {
      hide SetOf, WordsOk, MemOk;
      BitmapSet(j);
      used := used + 1;
    }

    /** The zeroing loop of pages_alloc. */
    method ZeroRun(start: nat, n: nat)
      requires MemOk(ram[..]) && start + n <= MAX_PAGES
      modifies ram
      ensures ram[..] == ZeroRange(old(ram[..]), start, n)
    {
      var j := start;
      while j < start + n
        invariant start <= j <= start + n
        invariant MemOk(ram[..]) && ram[..] == ZeroRange(old(ram[..]), start, j - start)
      {
        ZeroPage(j);
        j := j + 1;
      }
    }

    /** page_free: gives back the page an address lies in; addresses outside RAM and pages that
        are already free are ignored. */
    method PageFree(addr: nat)
      requires Valid()
      modifies this, bitmap
      ensures Valid() && ram[..] == old(ram[..])
      ensures Allocated() == old(Allocated()) - PageAt(addr)
    {
      if addr < RAM_BASE || addr >= RAM_BASE + RAM_SIZE {
        return;
      }
      var idx := (addr - RAM_BASE) / PAGE_SIZE;
      var taken := BitmapTest(idx);
      if taken {
        BitmapClear(idx);
        used := used - 1;
      }
    }

    /** pages_free: gives back n pages from an address on, with 64-bit address arithmetic. */
    method PagesFree(addr: nat, n: nat)
      requires Valid()
      modifies this, bitmap
      ensures Valid() && ram[..] == old(ram[..])
      ensures Allocated() == old(Allocated()) - PagesAt(addr, n)
    {
      hide Offset, PageAt, SetOf, WordsOk, MemOk, PagesAt;
      ghost var A := Allocated();
      NoPages(addr, A);
      var i := 0;
      while i < n
        invariant 0 <= i <= n
        invariant Valid() && ram[..] == old(ram[..])
        invariant Allocated() == A - PagesAt(addr, i)
      {
        PagesAtStep(addr, i, A);
        PageFree(Offset(addr, i));
        i := i + 1;
      }
    }

    /** Allocating n pages and freeing them restores every word of the bitmap. */
    method AllocThenFree(n: nat) returns (addr: nat)
      requires Valid()
      modifies this, bitmap, ram
      ensures Valid() && bitmap[..] == old(bitmap[..]) && used == old(used)
    {
      ghost var A := Allocated();
      addr := PagesAlloc(n);
      if addr != NULL {
        ghost var s := FirstRun(A, n);
        PagesFree(addr, n);
        PagesAtRun(s, n);
        assert Allocated() == A;
      }
      SetDeterminesWords(bitmap[..], old(bitmap[..]), 64, MAX_PAGES);
    }
  }

  /** The i-th page address from addr on, in 64-bit arithmetic. */
  function Offset(addr: nat, i: nat): nat {
    (addr + i * PAGE_SIZE) % TWO64
  }

  lemma OffsetInRun(s: nat, i: nat)
    requires s + i < MAX_PAGES
    ensures Offset(PageAddr(s), i) == PageAddr(s + i)
  {
    assert PageAddr(s) + i * PAGE_SIZE == PageAddr(s + i) < TWO64;
  }

  /** What page_free gives back for an address: the page it lies in, nothing outside RAM. */
  ghost function PageAt(addr: nat): set<nat> {
    if InRam(addr) then {PageOf(addr)} else {}
  }

  /** What pages_free gives back. */
  ghost function PagesAt(addr: nat, n: nat): set<nat> {
    if n == 0 then {} else PagesAt(addr, n - 1) + PageAt(Offset(addr, n - 1))
  }

  lemma NoPages(addr: nat, A: set<nat>)
    ensures A - PagesAt(addr, 0) == A
  {
  }

  lemma PagesAtStep(addr: nat, n: nat, A: set<nat>)
    ensures A - PagesAt(addr, n) - PageAt(Offset(addr, n)) == A - PagesAt(addr, n + 1)
  {
    hide Offset, PageAt;
  }

  lemma PagesAtRunStep(s: nat, n: nat)
    requires s + n < MAX_PAGES
    ensures PagesAt(PageAddr(s), n + 1) == PagesAt(PageAddr(s), n) + {s + n}
  {
    OffsetInRun(s, n);
    PageAddrRoundTrip(s + n);
  }

  lemma {:induction false} PagesAtRun(s: nat, n: nat)
    requires s + n <= MAX_PAGES
    ensures PagesAt(PageAddr(s), n) == Range(s, n)
  {
    if n > 0 {
      PagesAtRun(s, n - 1);
      PagesAtRunStep(s, n - 1);
    }
  }
}
