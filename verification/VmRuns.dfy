/** Every run of vm_create, mm_map_page and vm_destroy, interleaved with other clients of the page
    allocator. */
module VmRuns {
  import opened Common
  import opened PageAllocator
  import opened PageTables
  import opened TableForest
  import opened Mapping
  import opened Ownership
  import opened AddressSpaces

  /** struct address_space */
  datatype Space = Space(root: nat, asid: nat)

  /** The machine, and an account of who holds each page: pages[id] was taken for address space id,
      client by others, and rest is the kernel image and the tables of the shared region. */
  datatype World = World(s: Phys, F: Forest, spaces: map<nat, Space>, asids: set<nat>,
                         pages: map<nat, set<nat>>, client: set<nat>, rest: set<nat>)

  /** The lowest free ASID from i on; 0 when there is none. */
  ghost function AsidFrom(asids: set<nat>, i: nat): (a: nat)
    requires 0 < i <= ASID_MAX
    ensures a == 0 <==> forall b :: i <= b < ASID_MAX ==> b in asids
    ensures a != 0 ==> i <= a < ASID_MAX && a !in asids && forall b :: i <= b < a ==> b in asids
    decreases ASID_MAX - i, asids
  {
    if i == ASID_MAX then 0 else if i !in asids then i else AsidFrom(asids, i + 1)
  }

  // ---- the invariant ----

  ghost predicate SpacesOk(F: Forest, spaces: map<nat, Space>, pages: map<nat, set<nat>>, lay: Layout) {
    && ParentsOk(F) && spaces.Keys == pages.Keys
    && (forall id :: id in spaces ==>
          F.IsRoot(spaces[id].root) && spaces[id].root != lay.pgd && pages[id] == Owned(F, spaces[id].root))
    && (forall i, j :: i in spaces && j in spaces && i != j ==> spaces[i].root != spaces[j].root)
  }

  ghost predicate AsidHeld(spaces: map<nat, Space>, a: nat) {
    exists id :: id in spaces && spaces[id].asid == a
  }

  /** Live address spaces hold pairwise distinct ASIDs, apart from the fallback 0, and the bitmap
      has exactly those set. */
  ghost predicate AsidsOk(spaces: map<nat, Space>, asids: set<nat>) {
    && (forall a :: a in asids ==> 0 < a < ASID_MAX && AsidHeld(spaces, a))
    && (forall id :: id in spaces ==> spaces[id].asid == 0 || spaces[id].asid in asids)
    && (forall i, j :: i in spaces && j in spaces && i != j && spaces[i].asid != 0 ==>
          spaces[i].asid != spaces[j].asid)
  }

  ghost predicate PageHeld(pages: map<nat, set<nat>>, p: nat) {
    exists id :: id in pages && p in pages[id]
  }

  /** Every used page is accounted for exactly once. */
  ghost predicate Accounted(used: set<nat>, pages: map<nat, set<nat>>, client: set<nat>, rest: set<nat>) {
    && rest <= used && client <= used && rest !! client
    && (forall id :: id in pages ==> pages[id] <= used && pages[id] !! rest && pages[id] !! client)
    && (forall i, j :: i in pages && j in pages && i != j ==> pages[i] !! pages[j])
    && (forall p :: p in used ==> p in rest || p in client || PageHeld(pages, p))
  }

  ghost predicate Inv(w: World, lay: Layout) {
    && WellFormed(w.s, lay, w.F) && ParentsOk(w.F)
    && SpacesOk(w.F, w.spaces, w.pages, lay) && AsidsOk(w.spaces, w.asids)
    && Accounted(w.s.used, w.pages, w.client, w.rest) && w.client !! w.F.level.Keys
  }

  // ---- the steps ----

  datatype Event =
    | Create(id: nat)
    | MapUser(id: nat, v: VPage, desc: nat)
    | MapKernel(v: VPage, desc: nat)
    | Destroy(id: nat)
    /** pages_alloc(n), pages_free of n pages and a store, by others such as stacks and window buffers. */
    | ClientAlloc(n: nat)
    | ClientFree(start: nat, n: nat)
    | ClientWrite(page: nat, i: nat, d: nat)
  {
    predicate Ok() { (MapUser? ==> v.Ok()) && (MapKernel? ==> v.Ok()) }
  }

  ghost function CreateStep(w: World, lay: Layout, id: nat): World
    requires PhysOk(w.s) && lay.pgd < MAX_PAGES
  {
    var q := AllocPage(w.s).1;
    if id in w.spaces || q == MAX_PAGES then w
    else
      var a := AsidFrom(w.asids, 1);
      w.(s := NewRoot(w.s, lay, q), F := PlantRoot(w.F, q),
         spaces := w.spaces[id := Space(q, a)],
         asids := if a == 0 then w.asids else w.asids + {a},
         pages := w.pages[id := {q}])
  }

  ghost function MapUserStep(w: World, id: nat, v: VPage, desc: nat): World
    requires PhysOk(w.s) && v.Ok()
    requires id in w.spaces ==> w.spaces[id].root < MAX_PAGES && w.spaces[id].root in w.F.level && id in w.pages
  {
    if id !in w.spaces then w
    else
      var root := w.spaces[id].root;
      var s' := MapPage(w.s, root, v, desc).0;
      var more := s'.used - w.s.used;
      var w' := w.(s := s', F := MapForest(w.F, w.s, root, v));
      if v.l0 > 0 then w'.(pages := w.pages[id := w.pages[id] + more])
      else w'.(rest := w.rest + more)
  }

  ghost function MapKernelStep(w: World, lay: Layout, v: VPage, desc: nat): World
    requires PhysOk(w.s) && v.Ok() && lay.pgd < MAX_PAGES && lay.pgd in w.F.level
  {
    var s' := MapPage(w.s, lay.pgd, v, desc).0;
    w.(s := s', F := MapForest(w.F, w.s, lay.pgd, v), rest := w.rest + (s'.used - w.s.used))
  }

  ghost function DestroyStep(w: World, id: nat): World
    requires ParentsOk(w.F) && (id in w.spaces ==> w.spaces[id].root in w.F.level)
  {
    if id !in w.spaces then w
    else
      var root := w.spaces[id].root;
      var freed := set p | p in DestroyList(w.s.mem, root);
      w.(s := Phys(w.s.mem, w.s.used - freed), F := Prune(w.F, Owned(w.F, root)),
         spaces := w.spaces - {id}, asids := w.asids - {w.spaces[id].asid},
         pages := w.pages - {id})
  }

  ghost function ClientAllocStep(w: World, n: nat): World
    requires PhysOk(w.s)
  {
    if n == 0 || n > MAX_PAGES || FirstRun(w.s.used, n) == MAX_PAGES then w
    else
      var start := FirstRun(w.s.used, n);
      w.(s := Phys(ZeroRange(w.s.mem, start, n), w.s.used + Range(start, n)), client := w.client + Range(start, n))
  }

  ghost function ClientFreeStep(w: World, start: nat, n: nat): World {
    if Range(start, n) <= w.client
    then w.(s := Phys(w.s.mem, w.s.used - Range(start, n)), client := w.client - Range(start, n))
    else w
  }

  ghost function ClientWriteStep(w: World, page: nat, i: nat, d: nat): World {
    if page in w.client && HasEntry(w.s.mem, page, i) then w.(s := Phys(Store(w.s.mem, page, i, d), w.s.used)) else w
  }

  ghost function Step(w: World, lay: Layout, e: Event): World
    requires Inv(w, lay) && e.Ok()
  {
    match e
    case Create(id) => CreateStep(w, lay, id)
    case MapUser(id, v, desc) => MapUserStep(w, id, v, desc)
    case MapKernel(v, desc) => MapKernelStep(w, lay, v, desc)
    case Destroy(id) => DestroyStep(w, id)
    case ClientAlloc(n) => ClientAllocStep(w, n)
    case ClientFree(start, n) => ClientFreeStep(w, start, n)
    case ClientWrite(page, i, d) => ClientWriteStep(w, page, i, d)
  }

  // ---- the account ----

  /** New pages go to one address space. */
  lemma AccountAdd(used: set<nat>, pages: map<nat, set<nat>>, client: set<nat>, rest: set<nat>, id: nat, more: set<nat>)
    requires Accounted(used, pages, client, rest) && more !! used
    ensures Accounted(used + more, pages[id := (if id in pages then pages[id] else {}) + more], client, rest)
  {
    var pages' := pages[id := (if id in pages then pages[id] else {}) + more];
    forall p | p in used + more ensures p in rest || p in client || PageHeld(pages', p) {
      if p in more {
        assert id in pages' && p in pages'[id];
      } else if PageHeld(pages, p) {
        var i :| i in pages && p in pages[i];
        assert i in pages' && p in pages'[i];
      }
    }
    hide PageHeld;
  }

  lemma AccountDrop(used: set<nat>, pages: map<nat, set<nat>>, client: set<nat>, rest: set<nat>, id: nat)
    requires Accounted(used, pages, client, rest) && id in pages
    ensures Accounted(used - pages[id], pages - {id}, client, rest)
  {
    var pages' := pages - {id};
    forall p | p in used - pages[id] ensures p in rest || p in client || PageHeld(pages', p) {
      if PageHeld(pages, p) {
        var i :| i in pages && p in pages[i];
        assert i in pages' && p in pages'[i];
      }
    }
    hide PageHeld;
  }

  /** Two accounts with the same entries cover the same pages. */
  lemma AccountDetermines(used: set<nat>, used': set<nat>, pages: map<nat, set<nat>>, client: set<nat>, rest: set<nat>)
    requires Accounted(used, pages, client, rest) && Accounted(used', pages, client, rest)
    ensures used == used'
  {
    forall p ensures p in used <==> p in used' {
      if PageHeld(pages, p) {
        var i :| i in pages && p in pages[i];
      }
    }
  }

  // ---- every step keeps the invariant ----

  lemma CreateKeeps(w: World, lay: Layout, id: nat)
    requires Inv(w, lay)
    ensures Inv(CreateStep(w, lay, id), lay)
  {
    hide WellFormed, ParentsOk, Owned, AsidsOk, Accounted;
    WfBasics(w.s, lay, w.F);
    var q := AllocPage(w.s).1;
    if id !in w.spaces && q != MAX_PAGES {
      var w' := CreateStep(w, lay, id);
      NewRootWellFormed(w.s, lay, w.F, q);
      WellFormedParents(w'.s, lay, w'.F);
      CreateSpaces(w.F, w.spaces, w.pages, lay, id, q, AsidFrom(w.asids, 1));
      CreateAsids(w.spaces, w.asids, id, q);
      AccountAdd(w.s.used, w.pages, w.client, w.rest, id, {q});
      assert {} + {q} == {q};
      ClientInUsed(w);
    }
  }

  lemma ClientInUsed(w: World)
    requires Accounted(w.s.used, w.pages, w.client, w.rest)
    ensures w.client <= w.s.used
  {
  }

  lemma CreateSpaces(F: Forest, spaces: map<nat, Space>, pages: map<nat, set<nat>>, lay: Layout,
                     id: nat, q: nat, a: nat)
    requires SpacesOk(F, spaces, pages, lay) && id !in spaces && q !in F.level && q != lay.pgd
    requires ParentsOk(PlantRoot(F, q))
    ensures SpacesOk(PlantRoot(F, q), spaces[id := Space(q, a)], pages[id := {q}], lay)
  {
    hide Owned;
    var F' := PlantRoot(F, q);
    PlantOwned(F, q, q);
    forall i | i in spaces ensures F'.IsRoot(spaces[i].root) && pages[i] == Owned(F', spaces[i].root) {
      PlantOwned(F, q, spaces[i].root);
    }
  }

  lemma CreateAsids(spaces: map<nat, Space>, asids: set<nat>, id: nat, q: nat)
    requires AsidsOk(spaces, asids) && id !in spaces
    ensures var a := AsidFrom(asids, 1);
            AsidsOk(spaces[id := Space(q, a)], if a == 0 then asids else asids + {a})
  {
    var a := AsidFrom(asids, 1);
    hide AsidFrom;
    var spaces' := spaces[id := Space(q, a)];
    forall b | b in asids ensures AsidHeld(spaces', b) {
      var i :| i in spaces && spaces[i].asid == b;
      assert i in spaces' && spaces'[i].asid == b;
    }
    assert AsidHeld(spaces', a) by { assert id in spaces' && spaces'[id].asid == a; }
    hide AsidHeld;
  }

  lemma MapSpaces(w: World, lay: Layout, root: nat, v: VPage)
    requires Inv(w, lay) && w.F.IsRoot(root) && v.Ok()
    ensures var more := Prepare(w.s, root, v).0.used - w.s.used;
            var F' := MapForest(w.F, w.s, root, v);
            && ParentsOk(F')
            && forall i :: i in w.spaces ==>
                 && F'.IsRoot(w.spaces[i].root)
                 && Owned(F', w.spaces[i].root) ==
                    w.pages[i] + if w.spaces[i].root == root && v.l0 > 0 then more else {}
  {
    hide WellFormed, ParentsOk, Owned, AsidsOk, Accounted, Prepare, MapForest;
    WfBasics(w.s, lay, w.F);
    MapOwned(w.s, lay, w.F, root, v, root);
    forall i | i in w.spaces
      ensures OwnedGrows(w.F, MapForest(w.F, w.s, root, v), w.spaces[i].root,
                         if w.spaces[i].root == root && v.l0 > 0
                         then Prepare(w.s, root, v).0.used - w.s.used else {})
    {
      MapOwned(w.s, lay, w.F, root, v, w.spaces[i].root);
    }
  }

  lemma AccountRest(used: set<nat>, pages: map<nat, set<nat>>, client: set<nat>, rest: set<nat>, more: set<nat>)
    requires Accounted(used, pages, client, rest) && more !! used
    ensures Accounted(used + more, pages, client, rest + more)
  {
    hide PageHeld;
  }

  lemma AccountClient(used: set<nat>, pages: map<nat, set<nat>>, client: set<nat>, rest: set<nat>, more: set<nat>)
    requires Accounted(used, pages, client, rest)
    ensures more !! used ==> Accounted(used + more, pages, client + more, rest)
    ensures more <= client ==> Accounted(used - more, pages, client - more, rest)
  {
    hide PageHeld;
  }

  lemma MapUserKeeps(w: World, lay: Layout, id: nat, v: VPage, desc: nat)
    requires Inv(w, lay) && v.Ok()
    ensures Inv(MapUserStep(w, id, v, desc), lay)
  {
    if id in w.spaces {
      if v.l0 > 0 { MapPrivateKeeps(w, lay, id, v, desc); } else { MapSharedKeeps(w, lay, id, v, desc); }
    }
  }

  lemma MapPrivateKeeps(w: World, lay: Layout, id: nat, v: VPage, desc: nat)
    requires Inv(w, lay) && v.Ok() && id in w.spaces && v.l0 > 0
    ensures Inv(MapUserStep(w, id, v, desc), lay)
  {
    hide WellFormed, ParentsOk, Owned, AsidsOk, Accounted, Prepare, MapForest, Walk;
    WfBasics(w.s, lay, w.F);
    var root := w.spaces[id].root;
    MapPageRefines(w.s, lay, w.F, root, v, desc);
    MapSpaces(w, lay, root, v);
    var s' := MapPage(w.s, root, v, desc).0;
    var more := s'.used - w.s.used;
    assert s'.used == w.s.used + more;
    ClientInUsed(w);
    AccountAdd(w.s.used, w.pages, w.client, w.rest, id, more);
  }

  /** Tables for the shared region belong to nobody's account. */
  lemma MapSharedKeeps(w: World, lay: Layout, id: nat, v: VPage, desc: nat)
    requires Inv(w, lay) && v.Ok() && id in w.spaces && v.l0 == 0
    ensures Inv(MapUserStep(w, id, v, desc), lay)
  {
    hide WellFormed, ParentsOk, Owned, AsidsOk, Accounted, Prepare, MapForest, Walk;
    WfBasics(w.s, lay, w.F);
    var root := w.spaces[id].root;
    MapPageRefines(w.s, lay, w.F, root, v, desc);
    MapSpaces(w, lay, root, v);
    var s' := MapPage(w.s, root, v, desc).0;
    var more := s'.used - w.s.used;
    assert s'.used == w.s.used + more;
    ClientInUsed(w);
    AccountRest(w.s.used, w.pages, w.client, w.rest, more);
  }

  lemma MapKernelKeeps(w: World, lay: Layout, v: VPage, desc: nat)
    requires Inv(w, lay) && v.Ok()
    ensures Inv(MapKernelStep(w, lay, v, desc), lay)
  {
    hide WellFormed, ParentsOk, Owned, AsidsOk, Accounted, Prepare, MapForest, Walk;
    WfBasics(w.s, lay, w.F);
    MapPageRefines(w.s, lay, w.F, lay.pgd, v, desc);
    MapSpaces(w, lay, lay.pgd, v);
    var s' := MapPage(w.s, lay.pgd, v, desc).0;
    var more := s'.used - w.s.used;
    assert s'.used == w.s.used + more;
    ClientInUsed(w);
    AccountRest(w.s.used, w.pages, w.client, w.rest, more);
  }

  /** vm_destroy frees exactly the pages that were taken for the address space. */
  lemma DestroyFreesAccount(w: World, lay: Layout, id: nat)
    requires Inv(w, lay) && id in w.spaces
    ensures Lists(DestroyList(w.s.mem, w.spaces[id].root), w.pages[id])
    ensures DestroyStep(w, id).s == Phys(w.s.mem, w.s.used - w.pages[id])
  {
    hide WellFormed, ParentsOk, Owned, AsidsOk, Accounted, DestroyList;
    DestroyListsOwned(w.s, lay, w.F, w.spaces[id].root);
    assert (set p | p in DestroyList(w.s.mem, w.spaces[id].root)) == w.pages[id];
  }

  lemma DestroySpaces(F: Forest, spaces: map<nat, Space>, pages: map<nat, set<nat>>, lay: Layout, id: nat)
    requires SpacesOk(F, spaces, pages, lay) && id in spaces
    requires ParentsOk(Prune(F, pages[id]))
    ensures SpacesOk(Prune(F, pages[id]), spaces - {id}, pages - {id}, lay)
  {
    hide Owned, Prune;
    var root := spaces[id].root;
    var F' := Prune(F, pages[id]);
    forall i | i in spaces && i != id
      ensures F'.IsRoot(spaces[i].root) && pages[i] == Owned(F', spaces[i].root)
    {
      PruneOwned(F, root, spaces[i].root);
    }
  }

  lemma DestroyAsids(spaces: map<nat, Space>, asids: set<nat>, id: nat)
    requires AsidsOk(spaces, asids) && id in spaces
    ensures AsidsOk(spaces - {id}, asids - {spaces[id].asid})
  {
    var spaces' := spaces - {id};
    forall b | b in asids && b != spaces[id].asid ensures AsidHeld(spaces', b) {
      var i :| i in spaces && spaces[i].asid == b;
      assert i in spaces' && spaces'[i].asid == b;
    }
    hide AsidHeld;
  }

  lemma DestroyKeeps(w: World, lay: Layout, id: nat)
    requires Inv(w, lay)
    ensures Inv(DestroyStep(w, id), lay)
  {
    hide WellFormed, ParentsOk, Owned, AsidsOk, Accounted, DestroyList, Lists;
    if id in w.spaces {
      var root := w.spaces[id].root;
      DestroyFreesAccount(w, lay, id);
      DestroyWellFormed(w.s, lay, w.F, root);
      WellFormedParents(Phys(w.s.mem, w.s.used - Owned(w.F, root)), lay, Prune(w.F, Owned(w.F, root)));
      DestroySpaces(w.F, w.spaces, w.pages, lay, id);
      DestroyAsids(w.spaces, w.asids, id);
      AccountDrop(w.s.used, w.pages, w.client, w.rest, id);
    }
  }

  lemma ClientAllocTables(w: World, lay: Layout, n: nat)
    requires Inv(w, lay)
    ensures SameTables(w.F, w.s, ClientAllocStep(w, n).s)
    ensures var w' := ClientAllocStep(w, n);
            && Accounted(w'.s.used, w.pages, w'.client, w.rest) && w'.client !! w.F.level.Keys
            && w' == w.(s := w'.s, client := w'.client)
  {
    hide WellFormed, ParentsOk, Owned, AsidsOk, Accounted, SpacesOk, Range, RunFrom, PhysOk, PagesOk, SameTables;
    WfBasics(w.s, lay, w.F);
    SameTablesRefl(w.F, w.s);
    if 0 < n <= MAX_PAGES && FirstRun(w.s.used, n) != MAX_PAGES {
      var start := FirstRun(w.s.used, n);
      RunTaken(w.F, w.s, start, n);
      AccountClient(w.s.used, w.pages, w.client, w.rest, Range(start, n));
    }
  }

  lemma SameTablesRefl(F: Forest, s: Phys)
    requires PhysOk(s) && PagesOk(F, s)
    ensures SameTables(F, s, s)
  {
  }

  /** Taking and zeroing a free run leaves the tables alone. */
  lemma RunTaken(F: Forest, s: Phys, start: nat, n: nat)
    requires PhysOk(s) && PagesOk(F, s) && FreeRun(s.used, start, n)
    ensures |s.mem| == MAX_PAGES && start + n <= MAX_PAGES
    ensures SameTables(F, s, Phys(ZeroRange(s.mem, start, n), s.used + Range(start, n)))
    ensures Range(start, n) !! s.used && Range(start, n) !! F.level.Keys
  {
  }

  lemma ClientFreeTables(w: World, lay: Layout, start: nat, n: nat)
    requires Inv(w, lay)
    ensures SameTables(w.F, w.s, ClientFreeStep(w, start, n).s)
    ensures var w' := ClientFreeStep(w, start, n);
            && Accounted(w'.s.used, w.pages, w'.client, w.rest) && w'.client !! w.F.level.Keys
            && w' == w.(s := w'.s, client := w'.client)
  {
    hide WellFormed, ParentsOk, Owned, AsidsOk, Accounted, SpacesOk, Range;
    WfBasics(w.s, lay, w.F);
    if Range(start, n) <= w.client {
      AccountClient(w.s.used, w.pages, w.client, w.rest, Range(start, n));
    }
  }

  lemma ClientWriteTables(w: World, lay: Layout, page: nat, i: nat, d: nat)
    requires Inv(w, lay)
    ensures SameTables(w.F, w.s, ClientWriteStep(w, page, i, d).s)
    ensures ClientWriteStep(w, page, i, d) == w.(s := ClientWriteStep(w, page, i, d).s)
    ensures ClientWriteStep(w, page, i, d).s.used == w.s.used
  {
    hide WellFormed, ParentsOk, Owned, AsidsOk, Accounted, SpacesOk;
    WfBasics(w.s, lay, w.F);
  }

  /** Others may take runs of pages, give them back and write to them: the invariant stays, and the
      tables are not touched. */
  lemma ClientKeeps(w: World, lay: Layout, e: Event)
    requires Inv(w, lay) && (e.ClientAlloc? || e.ClientFree? || e.ClientWrite?)
    ensures Inv(Step(w, lay, e), lay) && SameTables(w.F, w.s, Step(w, lay, e).s)
    ensures Step(w, lay, e).F == w.F
  {
    hide WellFormed, Owned, AsidsOk, Accounted, SpacesOk, SameTables, ClientAllocStep, ClientFreeStep, ClientWriteStep;
    match e {
      case ClientAlloc(n) =>
        ClientAllocTables(w, lay, n);
      case ClientFree(start, n) =>
        ClientFreeTables(w, lay, start, n);
      case ClientWrite(page, i, d) =>
        ClientWriteTables(w, lay, page, i, d);
      case _ =>
    }
    FrameWellFormed(w.s, Step(w, lay, e).s, lay, w.F);
  }

  lemma StepKeeps(w: World, lay: Layout, e: Event)
    requires Inv(w, lay) && e.Ok()
    ensures Inv(Step(w, lay, e), lay)
  {
    hide WellFormed, ParentsOk, SpacesOk, AsidsOk, Accounted,
         CreateStep, MapUserStep, MapKernelStep, DestroyStep, ClientAllocStep, ClientFreeStep, ClientWriteStep;
    match e
    case Create(id) => CreateKeeps(w, lay, id);
    case MapUser(id, v, desc) => MapUserKeeps(w, lay, id, v, desc);
    case MapKernel(v, desc) => MapKernelKeeps(w, lay, v, desc);
    case Destroy(id) => DestroyKeeps(w, lay, id);
    case _ => ClientKeeps(w, lay, e);
  }

  /** The state after a sequence of events; the invariant holds in every state of a run. */
  ghost function Run(w: World, lay: Layout, es: seq<Event>): (w': World)
    requires Inv(w, lay) && forall e :: e in es ==> e.Ok()
    ensures Inv(w', lay)
    decreases |es|
  {
    if es == [] then w
    else
      StepKeeps(w, lay, es[0]);
      Run(Step(w, lay, es[0]), lay, es[1..])
  }

  // ---- what a run does to the translations ----

  /** The page and descriptor an event installs in the view of root r. */
  ghost predicate Installs(w: World, lay: Layout, e: Event, r: nat, v: VPage, desc: nat)
    requires Inv(w, lay) && e.Ok() && v.Ok()
  {
    match e
    case MapUser(id, u, d) =>
      && u == v && d == desc && id in w.spaces && (r == w.spaces[id].root || v.l0 == 0)
      && MapPage(w.s, w.spaces[id].root, v, desc).1
    case MapKernel(u, d) =>
      u == v && d == desc && (r == lay.pgd || v.l0 == 0) && MapPage(w.s, lay.pgd, v, desc).1
    case _ => false
  }

  /** One step of the whole system changes the translation of v in the address space of root r only
      if it is a successful mm_map_page of v for that address space, or of a page of the shared
      region; then the translation is the descriptor that was passed. */
  lemma StepWalks(w: World, lay: Layout, e: Event, r: nat, v: VPage)
    requires Inv(w, lay) && e.Ok() && v.Ok() && w.F.IsRoot(r) && Step(w, lay, e).F.IsRoot(r)
    ensures forall desc :: Installs(w, lay, e, r, v, desc) ==> Walk(Step(w, lay, e).s.mem, r, v) == DecodeLeaf(desc)
    ensures (forall desc :: !Installs(w, lay, e, r, v, desc)) ==>
              Walk(Step(w, lay, e).s.mem, r, v) == Walk(w.s.mem, r, v)
  {
    hide Inv, Installs, Step, Walk, DecodeLeaf;
    match e {
      case Create(id) =>
        OtherWalks(w, lay, e, r, v);
      case MapUser(id, u, d) =>
        MapUserWalks(w, lay, id, u, d, r, v);
      case MapKernel(u, d) =>
        MapKernelWalks(w, lay, u, d, r, v);
      case _ =>
        OtherWalks(w, lay, e, r, v);
    }
  }

  lemma MapUserWalks(w: World, lay: Layout, id: nat, u: VPage, d: nat, r: nat, v: VPage)
    requires Inv(w, lay) && u.Ok() && v.Ok() && w.F.IsRoot(r)
    ensures var e := MapUser(id, u, d);
            && (forall desc ::
                  Installs(w, lay, e, r, v, desc) ==> Walk(Step(w, lay, e).s.mem, r, v) == DecodeLeaf(desc))
            && ((forall desc :: !Installs(w, lay, e, r, v, desc)) ==>
                  Walk(Step(w, lay, e).s.mem, r, v) == Walk(w.s.mem, r, v))
  {
    hide WellFormed, ParentsOk, Owned, AsidsOk, Accounted, MapPage, MapForest, Walk, DecodeLeaf;
    WfBasics(w.s, lay, w.F);
    if id in w.spaces {
      var root := w.spaces[id].root;
      MapPageRefines(w.s, lay, w.F, root, u, d);
      hide WellFormed;
      if MapPage(w.s, root, u, d).1 && u == v && (r == root || v.l0 == 0) {
        assert Installs(w, lay, MapUser(id, u, d), r, v, d);
      }
    }
  }

  lemma MapKernelWalks(w: World, lay: Layout, u: VPage, d: nat, r: nat, v: VPage)
    requires Inv(w, lay) && u.Ok() && v.Ok() && w.F.IsRoot(r)
    ensures var e := MapKernel(u, d);
            && (forall desc ::
                  Installs(w, lay, e, r, v, desc) ==> Walk(Step(w, lay, e).s.mem, r, v) == DecodeLeaf(desc))
            && ((forall desc :: !Installs(w, lay, e, r, v, desc)) ==>
                  Walk(Step(w, lay, e).s.mem, r, v) == Walk(w.s.mem, r, v))
  {
    hide WellFormed, ParentsOk, SpacesOk, AsidsOk, Accounted, MapPage, MapForest, Walk, DecodeLeaf;
    WfBasics(w.s, lay, w.F);
    MapPageRefines(w.s, lay, w.F, lay.pgd, u, d);
    if MapPage(w.s, lay.pgd, u, d).1 && u == v && (r == lay.pgd || v.l0 == 0) {
      assert Installs(w, lay, MapKernel(u, d), r, v, d);
    }
  }

  /** The other steps install nothing and change no walk of a root that stays. */
  lemma OtherWalks(w: World, lay: Layout, e: Event, r: nat, v: VPage)
    requires Inv(w, lay) && e.Ok() && v.Ok() && w.F.IsRoot(r) && !e.MapUser? && !e.MapKernel?
    ensures Walk(Step(w, lay, e).s.mem, r, v) == Walk(w.s.mem, r, v)
    ensures forall desc :: !Installs(w, lay, e, r, v, desc)
  {
    hide WellFormed, SpacesOk, AsidsOk, Accounted, Walk, DestroyList, Prune, CreateStep;
    if e.Create? {
      CreateWalks(w, lay, e.id, r, v);
    } else if !e.Destroy? {
      ClientKeeps(w, lay, e);
      FrameWalks(w.s, Step(w, lay, e).s, lay, w.F);
    }
  }

  lemma CreateWalks(w: World, lay: Layout, id: nat, r: nat, v: VPage)
    requires Inv(w, lay) && w.F.IsRoot(r) && v.Ok()
    ensures Walk(CreateStep(w, lay, id).s.mem, r, v) == Walk(w.s.mem, r, v)
  {
    hide WellFormed, ParentsOk, Owned, AsidsOk, Accounted, Walk, SpacesOk;
    WfBasics(w.s, lay, w.F);
    var q := AllocPage(w.s).1;
    if id !in w.spaces && q != MAX_PAGES {
      NewRootEntries(w.s, lay, w.F, q);
      FrameWalk(w.s, NewRoot(w.s, lay, q), lay, w.F, r, v);
    }
  }

  // ---- the kernel's identity map ----

  /** A block is never split or replaced: its translation outlives every step, in every address
      space. */
  lemma BlocksPersist(w: World, lay: Layout, e: Event, r: nat, v: VPage)
    requires Inv(w, lay) && e.Ok() && v.Ok() && w.F.IsRoot(r) && Step(w, lay, e).F.IsRoot(r)
    requires Walk(w.s.mem, r, v).Block?
    ensures Walk(Step(w, lay, e).s.mem, r, v) == Walk(w.s.mem, r, v)
  {
    hide WellFormed, ParentsOk, Owned, AsidsOk, Accounted, Walk, MapPage, Step;
    WfBasics(w.s, lay, w.F);
    StepWalks(w, lay, e, r, v);
    forall desc ensures !Installs(w, lay, e, r, v, desc) {
      if Installs(w, lay, e, r, v, desc) {
        var root := if e.MapUser? then w.spaces[e.id].root else lay.pgd;
        MapPageInstallsIff(w.s, lay, w.F, root, v, desc);
        if v.l0 == 0 { SharedRegion(w.s, lay, w.F, r, root, v); }
      }
    }
  }

  /** Every address space of F has the identity blocks of the kernel. */
  ghost predicate IdentityMapped(F: Forest, mem: Mem) {
    forall r, v: VPage ::
      F.IsRoot(r) && v.Ok() && IdentityDesc(v).Some? ==> Walk(mem, r, v) == Block(2, IdentityDesc(v).value)
  }

  lemma StepKeepsIdentity(w: World, lay: Layout, e: Event)
    requires Inv(w, lay) && e.Ok() && IdentityMapped(w.F, w.s.mem)
    ensures IdentityMapped(Step(w, lay, e).F, Step(w, lay, e).s.mem)
  {
    hide WellFormed, SpacesOk, AsidsOk, Accounted, Walk, Step;
    var w' := Step(w, lay, e);
    StepKeeps(w, lay, e);
    KernelRoot(w, lay);
    KernelRoot(w', lay);
    forall r, v: VPage | w'.F.IsRoot(r) && v.Ok() && IdentityDesc(v).Some?
      ensures Walk(w'.s.mem, r, v) == Block(2, IdentityDesc(v).value)
    {
      BlocksPersist(w, lay, e, lay.pgd, v);
      SharedRegion(w'.s, lay, w'.F, r, lay.pgd, v);
    }
  }

  lemma KernelRoot(w: World, lay: Layout)
    requires Inv(w, lay)
    ensures w.F.IsRoot(lay.pgd)
  {
  }

  /** RAM and devices are mapped to themselves in every address space, in every state of a run. */
  lemma {:induction false} RunKeepsIdentity(w: World, lay: Layout, es: seq<Event>)
    requires Inv(w, lay) && (forall e :: e in es ==> e.Ok()) && IdentityMapped(w.F, w.s.mem)
    ensures IdentityMapped(Run(w, lay, es).F, Run(w, lay, es).s.mem)
    decreases |es|
  {
    hide Inv, Step, IdentityMapped;
    if es != [] {
      StepKeeps(w, lay, es[0]);
      StepKeepsIdentity(w, lay, es[0]);
      RunKeepsIdentity(Step(w, lay, es[0]), lay, es[1..]);
    }
  }

  /** All address spaces agree on the whole region of level-0 index 0, in every state of a run. */
  lemma RunSharesRegion(w: World, lay: Layout, es: seq<Event>, r: nat, r': nat, v: VPage)
    requires Inv(w, lay) && (forall e :: e in es ==> e.Ok())
    requires Run(w, lay, es).F.IsRoot(r) && Run(w, lay, es).F.IsRoot(r') && v.Ok() && v.l0 == 0
    ensures Walk(Run(w, lay, es).s.mem, r, v) == Walk(Run(w, lay, es).s.mem, r', v)
  {
    hide Run, WellFormed, Walk;
    var w' := Run(w, lay, es);
    SharedRegion(w'.s, lay, w'.F, r, r', v);
  }

  /** In every state of a run, every address space translates every address of RAM and of the
      device range to itself. */
  lemma RunTranslatesIdentity(w: World, lay: Layout, es: seq<Event>, r: nat, vaddr: nat)
    requires Inv(w, lay) && (forall e :: e in es ==> e.Ok()) && IdentityMapped(w.F, w.s.mem)
    requires Run(w, lay, es).F.IsRoot(r) && (InDevices(vaddr) || InRam(vaddr))
    ensures Translate(Run(w, lay, es).s.mem, r, vaddr) == Some(vaddr)
  {
    hide Run, Inv, Walk, IdentityDesc, Split;
    RunKeepsIdentity(w, lay, es);
    IdentityBlock(vaddr);
    var w' := Run(w, lay, es);
    assert Walk(w'.s.mem, r, Split(vaddr)) == Block(2, IdentityDesc(Split(vaddr)).value);
  }

  // ---- conservation ----

  /** If a run ends with the same accounts that it started with, the allocator is back where it
      was: no page is lost and none is freed twice. */
  lemma RunConserves(w: World, lay: Layout, es: seq<Event>)
    requires Inv(w, lay) && (forall e :: e in es ==> e.Ok())
    ensures var w' := Run(w, lay, es);
            w'.pages == w.pages && w'.client == w.client && w'.rest == w.rest ==> w'.s.used == w.s.used
  {
    hide Run, WellFormed, SpacesOk, AsidsOk, Accounted;
    var w' := Run(w, lay, es);
    if w'.pages == w.pages && w'.client == w.client && w'.rest == w.rest {
      AccountDetermines(w.s.used, w'.s.used, w.pages, w.client, w.rest);
    }
  }

  ghost predicate PrivateMaps(id: nat, es: seq<Event>) {
    forall e :: e in es ==> e.MapUser? && e.id == id && e.Ok() && e.v.l0 > 0
  }

  /** w differs from w0 in the address space id at most. */
  ghost predicate OnlySpace(w0: World, w: World, id: nat) {
    && w.pages - {id} == w0.pages - {id} && w.spaces - {id} == w0.spaces - {id}
    && w.client == w0.client && w.rest == w0.rest && w.asids == w0.asids
  }

  lemma {:induction false} MapsTouchOneSpace(w: World, lay: Layout, id: nat, es: seq<Event>)
    requires Inv(w, lay) && PrivateMaps(id, es)
    ensures OnlySpace(w, Run(w, lay, es), id) && Run(w, lay, es).spaces == w.spaces
    decreases |es|
  {
    hide Inv, MapPage, MapForest;
    if es != [] {
      StepKeeps(w, lay, es[0]);
      MapsTouchOneSpace(Step(w, lay, es[0]), lay, id, es[1..]);
    }
  }

  lemma {:induction false} RunConcat(w: World, lay: Layout, es: seq<Event>, fs: seq<Event>)
    requires Inv(w, lay) && (forall e :: e in es ==> e.Ok()) && (forall e :: e in fs ==> e.Ok())
    ensures Run(w, lay, es + fs) == Run(Run(w, lay, es), lay, fs)
    decreases |es|
  {
    hide Inv, Step;
    if es == [] {
      assert es + fs == fs;
    } else {
      StepKeeps(w, lay, es[0]);
      RunConcat(Step(w, lay, es[0]), lay, es[1..], fs);
      assert (es + fs)[1..] == es[1..] + fs;
    }
  }

  lemma SandwichRun(w: World, lay: Layout, e: Event, es: seq<Event>, f: Event)
    requires Inv(w, lay) && e.Ok() && f.Ok()
    requires (forall x :: x in es ==> x.Ok()) && forall x :: x in [e] + es + [f] ==> x.Ok()
    ensures Inv(Step(w, lay, e), lay)
    ensures Run(w, lay, [e] + es + [f]) == Step(Run(Step(w, lay, e), lay, es), lay, f)
  {
    hide Inv, Step, Run;
    StepKeeps(w, lay, e);
    RunOne(w, lay, e);
    RunConcat(w, lay, [e], es);
    RunConcat(w, lay, [e] + es, [f]);
    RunOne(Run(Step(w, lay, e), lay, es), lay, f);
  }

  lemma CreateAccounts(w: World, lay: Layout, id: nat)
    requires PhysOk(w.s) && lay.pgd < MAX_PAGES && w.spaces.Keys == w.pages.Keys && id !in w.spaces
    requires 0 !in w.asids && AsidFrom(w.asids, 1) !in w.asids
    ensures var w1 := CreateStep(w, lay, id);
            && w1.pages - {id} == w.pages && w1.spaces - {id} == w.spaces
            && w1.client == w.client && w1.rest == w.rest
            && w1.asids - (if id in w1.spaces then {w1.spaces[id].asid} else {}) == w.asids
  {
    hide PhysOk, AsidFrom, NewRoot, PlantRoot, AllocPage;
  }

  lemma SandwichAccounts(w: World, lay: Layout, id: nat, w2: World)
    requires Inv(w, lay) && id !in w.spaces && Inv(w2, lay)
    requires var w1 := Step(w, lay, Create(id)); OnlySpace(w1, w2, id) && w2.spaces == w1.spaces
    ensures var w' := Step(w2, lay, Destroy(id));
            && w'.pages == w.pages && w'.spaces == w.spaces && w'.asids == w.asids
            && w'.client == w.client && w'.rest == w.rest
  {
    hide WellFormed, ParentsOk, Accounted, AsidsOk, DestroyList, Prune, CreateStep, Owned;
    WfBasics(w.s, lay, w.F);
    WfBasics(w2.s, lay, w2.F);
    AsidFresh(w, lay);
    CreateAccounts(w, lay, id);
    assert id !in w2.spaces ==> w2.spaces - {id} == w2.spaces && w2.pages - {id} == w2.pages;
  }

  /** An address space that is created, mapped into any number of times at non-zero level-0 index
      (failed mappings included) and destroyed leaves the allocated pages, the ASIDs and the other
      address spaces as they were. */
  lemma CreateMapDestroy(w: World, lay: Layout, id: nat, maps: seq<Event>)
    requires Inv(w, lay) && id !in w.spaces && PrivateMaps(id, maps)
    ensures var w' := Run(w, lay, [Create(id)] + maps + [Destroy(id)]);
            w'.s.used == w.s.used && w'.spaces == w.spaces && w'.asids == w.asids
  {
    hide Inv, Run, Step;
    SandwichRun(w, lay, Create(id), maps, Destroy(id));
    var w1 := Step(w, lay, Create(id));
    MapsTouchOneSpace(w1, lay, id, maps);
    SandwichAccounts(w, lay, id, Run(w1, lay, maps));
    RunConserves(w, lay, [Create(id)] + maps + [Destroy(id)]);
  }

  lemma AsidFresh(w: World, lay: Layout)
    requires Inv(w, lay)
    ensures 0 !in w.asids && AsidFrom(w.asids, 1) !in w.asids
  {
  }

  lemma RunOne(w: World, lay: Layout, e: Event)
    requires Inv(w, lay) && e.Ok()
    ensures Run(w, lay, [e]) == Step(w, lay, e)
  {
    hide Inv, Step;
    StepKeeps(w, lay, e);
    assert Run(w, lay, [e]) == Run(Step(w, lay, e), lay, []);
  }

  /** The new address space gets the fallback ASID 0 exactly when all others are taken. */
  lemma FallbackOnlyWhenExhausted(w: World, lay: Layout, id: nat)
    requires Inv(w, lay) && id !in w.spaces && id in CreateStep(w, lay, id).spaces
    ensures CreateStep(w, lay, id).spaces[id].asid == 0 <==>
            forall a :: 0 < a < ASID_MAX ==> AsidHeld(w.spaces, a)
  {
    hide WellFormed, Accounted, SpacesOk;
    forall a | 0 < a < ASID_MAX ensures a in w.asids <==> AsidHeld(w.spaces, a) {
    }
    hide AsidHeld, AsidsOk;
  }

  /** vm_create succeeds exactly when a page is free. It takes the lowest one for the root and nothing else,
      with the lowest free ASID or 0, and leaves the other address spaces alone. */
  lemma CreateSucceedsIff(w: World, lay: Layout, id: nat)
    requires Inv(w, lay) && id !in w.spaces
    ensures var w' := Step(w, lay, Create(id));
      && (id in w'.spaces <==> exists p :: 0 <= p < MAX_PAGES && p !in w.s.used)
      && (id !in w'.spaces ==> w' == w)
      && (id in w'.spaces ==>
            && var space := w'.spaces[id];
               && w'.spaces == w.spaces[id := space] && w'.pages == w.pages[id := {space.root}]
               && space.root < MAX_PAGES && space.root !in w.s.used && w'.s.used == w.s.used + {space.root}
               && (forall p :: 0 <= p < space.root ==> p in w.s.used)
               && space.asid !in w.asids && (forall a :: 0 < a < space.asid ==> a in w.asids)
               && w'.asids == (if space.asid == 0 then w.asids else w.asids + {space.asid})
               && w'.client == w.client && w'.rest == w.rest)
  {
    hide WellFormed, SpacesOk, Accounted, AllocPage, PlantRoot, Owned, Store;
    WfBasics(w.s, lay, w.F);
    AllocPageLowest(w.s);
    AsidFresh(w, lay);
  }
}
