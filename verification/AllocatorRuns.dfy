/** Sequences of allocations and frees from mm_init on: live blocks never overlap, never touch the
    kernel image, and account for every used page. */
module AllocatorRuns {
  import opened PageAllocator

  datatype Block = Block(start: nat, n: nat) {
    ghost predicate Has(p: nat) { start <= p < start + n }
  }

  /** The used pages and the blocks handed out and not yet freed. */
  datatype State = State(used: set<nat>, live: set<Block>)

  /** A single page is a block of one page: page_alloc takes the lowest free page, which is the
      first run of length 1. A client frees a block it holds, once. */
  datatype Event = Alloc(n: nat) | Free(b: Block)

  ghost function Step(s: State, e: Event): State {
    match e
    case Alloc(n) =>
      if n == 0 || n > MAX_PAGES || FirstRun(s.used, n) == MAX_PAGES then s
      else
        var start := FirstRun(s.used, n);
        State(s.used + Range(start, n), s.live + {Block(start, n)})
    case Free(b) =>
      if b in s.live then State(s.used - PagesAt(PageAddr(b.start), b.n), s.live - {b}) else s
  }

  ghost predicate Apart(b: Block, c: Block) {
    b.start + b.n <= c.start || c.start + c.n <= b.start
  }

  ghost predicate Held(live: set<Block>, p: nat) {
    exists b :: b in live && b.Has(p)
  }

  ghost predicate Inv(s: State, kernel: nat) {
    && (forall b :: b in s.live ==> 0 < b.n && kernel <= b.start && b.start + b.n <= MAX_PAGES)
    && (forall b, c :: b in s.live && c in s.live && b != c ==> Apart(b, c))
    && (forall p: nat :: p in s.used <==> p < kernel || Held(s.live, p))
  }

  lemma AllocKeeps(s: State, kernel: nat, n: nat)
    requires Inv(s, kernel) && kernel <= MAX_PAGES
    ensures Inv(Step(s, Alloc(n)), kernel)
  {
    hide Held;
    if 0 < n <= MAX_PAGES && FirstRun(s.used, n) != MAX_PAGES {
      var fresh' := Block(FirstRun(s.used, n), n);
      assert FreeRun(s.used, fresh'.start, n);
      forall b | b in s.live ensures Apart(b, fresh') && Apart(fresh', b) {
        FreshApart(s, kernel, fresh', b);
      }
      assert fresh'.start !in s.used;
      forall p: nat ensures Held(s.live + {fresh'}, p) <==> Held(s.live, p) || fresh'.Has(p) {
        HeldGrows(s.live, fresh', p);
      }
    }
  }

  /** A run of free pages meets no live block. */
  lemma FreshApart(s: State, kernel: nat, c: Block, b: Block)
    requires Inv(s, kernel) && FreeRun(s.used, c.start, c.n) && 0 < c.n && b in s.live
    ensures Apart(b, c) && Apart(c, b)
  {
    if !Apart(b, c) {
      var p := if b.start <= c.start then c.start else b.start;
      assert b.Has(p) && c.Has(p) && Held(s.live, p);
    }
  }

  lemma HeldGrows(live: set<Block>, b: Block, p: nat)
    ensures Held(live + {b}, p) <==> Held(live, p) || b.Has(p)
  {
    if Held(live, p) {
      var c :| c in live && c.Has(p);
      assert c in live + {b};
    }
    if b.Has(p) { assert b in live + {b}; }
  }

  lemma FreeKeeps(s: State, kernel: nat, b: Block)
    requires Inv(s, kernel) && kernel <= MAX_PAGES
    ensures Inv(Step(s, Free(b)), kernel)
  {
    if b in s.live {
      PagesAtRun(b.start, b.n);
      var live' := s.live - {b};
      forall p: nat ensures Held(live', p) <==> Held(s.live, p) && !b.Has(p) {
        if Held(s.live, p) && !b.Has(p) {
          var c :| c in s.live && c.Has(p);
          assert c in live';
        }
        if Held(live', p) {
          var c :| c in live' && c.Has(p);
          assert Apart(b, c) && c in s.live;
        }
      }
    }
  }

  ghost function Run(s: State, es: seq<Event>): State
    decreases |es|
  {
    if es == [] then s else Run(Step(s, es[0]), es[1..])
  }

  ghost function Init(kernel: nat): State {
    State(Range(0, kernel), {})
  }

  lemma {:induction false} RunKeeps(s: State, kernel: nat, es: seq<Event>)
    requires Inv(s, kernel) && kernel <= MAX_PAGES
    ensures Inv(Run(s, es), kernel)
    decreases |es|
  {
    if es != [] {
      match es[0] {
        case Alloc(n) => AllocKeeps(s, kernel, n);
        case Free(b) => FreeKeeps(s, kernel, b);
      }
      RunKeeps(Step(s, es[0]), kernel, es[1..]);
    }
  }

  lemma InitInv(kernel: nat)
    ensures Inv(Init(kernel), kernel)
  {
    var s := Init(kernel);
    forall p: nat ensures p in s.used <==> p < kernel || Held(s.live, p) {
      hide Range;
    }
  }

  /** After any sequence of calls from mm_init: live blocks are pairwise disjoint and above the
      kernel image, and a page is used exactly when the kernel or a live block has it. */
  lemma BlocksDisjoint(kernel: nat, es: seq<Event>)
    requires kernel <= MAX_PAGES
    ensures var s := Run(Init(kernel), es);
            && (forall b, c, p: nat :: b in s.live && c in s.live && b.Has(p) && c.Has(p) ==> b == c)
            && (forall b, p: nat :: b in s.live && b.Has(p) ==> kernel <= p < MAX_PAGES)
            && (forall p: nat :: p in s.used <==> p < kernel || Held(s.live, p))
  {
    hide Run, Init;
    InitInv(kernel);
    RunKeeps(Init(kernel), kernel, es);
  }

  /** After any sequence of calls a request for n pages hands out the lowest n adjacent free ones as a new
      block, whenever there are any, and otherwise nothing; giving a block back frees its pages and no others. */
  lemma AlwaysServes(kernel: nat, es: seq<Event>, e: Event)
    requires kernel <= MAX_PAGES
    ensures var s := Run(Init(kernel), es);
      var s' := Step(s, e);
      && (e.Alloc? ==>
            && (s' != s <==> 0 < e.n <= MAX_PAGES && exists p :: FreeRun(s.used, p, e.n))
            && (s' != s ==> exists b :: b !in s.live && s'.live == s.live + {b} && Lowest(s.used, b) && b.n == e.n))
      && (e.Free? && e.b in s.live ==>
            s'.live == s.live - {e.b} && forall p: nat :: p in s'.used <==> p in s.used && !e.b.Has(p))
  {
    hide Run, Init, Held;
    RunKeepsBlocks(kernel, es);
    var s := Run(Init(kernel), es);
    if e.Alloc? {
      Serves(s, kernel, e.n);
    } else if e.b in s.live {
      PagesAtRun(e.b.start, e.b.n);
    }
  }

  lemma RunKeepsBlocks(kernel: nat, es: seq<Event>)
    requires kernel <= MAX_PAGES
    ensures Inv(Run(Init(kernel), es), kernel)
  {
    hide Run, Init, Inv;
    InitInv(kernel);
    RunKeeps(Init(kernel), kernel, es);
  }

  /** No earlier run of as many pages is free. */
  ghost predicate Lowest(used: set<nat>, b: Block) {
    FreeRun(used, b.start, b.n) && forall p :: 0 <= p < b.start ==> !FreeRun(used, p, b.n)
  }

  lemma Serves(s: State, kernel: nat, n: nat)
    requires Inv(s, kernel) && kernel <= MAX_PAGES
    ensures var s' := Step(s, Alloc(n));
      && (s' != s <==> 0 < n <= MAX_PAGES && exists p :: FreeRun(s.used, p, n))
      && (s' != s ==> exists b :: b !in s.live && s'.live == s.live + {b} && Lowest(s.used, b) && b.n == n)
  {
    hide Held;
    if 0 < n <= MAX_PAGES && FirstRun(s.used, n) != MAX_PAGES {
      var b := Block(FirstRun(s.used, n), n);
      NotLive(s, kernel, b);
      assert Lowest(s.used, b);
    }
  }

  lemma NotLive(s: State, kernel: nat, b: Block)
    requires Inv(s, kernel) && FreeRun(s.used, b.start, b.n) && 0 < b.n
    ensures b !in s.live
  {
    if b in s.live {
      assert b.Has(b.start) && Held(s.live, b.start);
    }
  }
}
