/** Allocating and releasing pages end to end: the ledger of the block, the page table, the
    free lists of the zone, and the pages behind each entry. */
module PageAllocation {
  import opened Basics
  import opened ArchMemory
  import opened Ledger
  import opened LedgerTheorems
  import opened PageBacking
  import opened PageTableDemand
  import opened Wire
  import opened WirePages
  import B = Btree
  import M = PageTableModulo
  import P = PageTableModel
  import R = PageTableRuns
  import T = BuddyTheorems
  import W = WireModulo
  import Z = BuddyModel

  /** One block, the zone it draws on, and for each entry the pages of its object. */
  datatype Memory = Memory(vm: Vm, lists: Z.Lists, objects: map<nat, seq<Page>>)

  /** Search, back and map the pages, then carve; the address, or nothing. */
  function AllocateRequest(m: Memory, nr: nat, flags: Flags, budget: nat): (Memory, Option<nat>) {
    match BestFit(m.vm.block.stree, SearchSize(nr), None)
    case None => (m, None)
    case Some(f) => if budget < FIXED_RECORDS then (m, None) else AllocateIn(m, f, nr, flags, budget - FIXED_RECORDS)
  }

  function AllocateIn(m: Memory, f: Extent, nr: nat, flags: Flags, budget: nat): (Memory, Option<nat>) {
    var start := Placed(f, nr);
    var v := start / 4096;
    var (l, s, pages, ok) := Back(m.lists, m.vm.space, v, nr, flags, budget);
    if !ok then (m.(vm := m.vm.(space := Rollback(s, v, pages)), lists := GiveBack(l, pages)), None)
    else
      var (b, carved) := CarveWords(m.vm.block, f, Extent(start, Wrap(4096 * nr)));
      if carved then (Memory(m.vm.(block := b, space := s), l, m.objects[start := pages]), Some(start))
      else (m.(vm := m.vm.(block := b, space := Rollback(s, v, pages)), lists := GiveBack(l, pages)), None)
  }

  /** The pages of the object at the address. */
  function ObjectAt(m: Memory, addr: nat): seq<Page> {
    if addr in m.objects then m.objects[addr] else []
  }

  /** Give back the pages of the entry at the address, and its place.  Nothing is unmapped. */
  function ReleaseRequest(m: Memory, addr: nat): Memory {
    if !(m.vm.first <= addr <= m.vm.last) || Released(m.vm.block, addr).None? then m
    else
      Memory(m.vm.(block := Release(m.vm.block, addr)), GiveBack(m.lists, ObjectAt(m, addr)), m.objects - {addr})
  }

  // ---- Allocation ---------------------------------------------------------------------------

  lemma {:induction false} BackSame(lists: Z.Lists, s: P.Space, x: nat, y: nat, n: nat, flags: Flags, budget: nat)
    requires M.Same(x, y)
    ensures Back(lists, s, x, n, flags, budget) == Back(lists, s, y, n, flags, budget)
    decreases n
  {
    hide M.Same, ArchMap, Z.Alloc, Z.InsertBuddy;
    if n > 0 && budget > 0 && Z.Alloc(lists, BlockOrder(n)).0.Some? {
      var k := BlockOrder(n);
      var (r, left) := Z.Alloc(lists, k);
      var page := Page(r.value, k, true);
      M.ArchSame(s, x, y, page, flags);
      M.SameSum(x, y, Stretch(n));
      BackSame(left, ArchMap(s, x, page, flags).0, x + Stretch(n), y + Stretch(n), n - Stretch(n), flags, budget - 1);
    }
  }

  /** The page where an entry of nr pages in f starts. */
  function FirstPage(f: Extent, nr: nat): nat {
    P.Vpn(Placed(f, nr))
  }

  /** The pages in f are this space's, and those mapped alone lie in no live superpage. */
  ghost predicate Usable(m: Memory, f: Extent, nr: nat, shared: set<nat>) {
    OwnRange(FirstPage(f, nr), nr, shared) && ClearTail(m.vm.space, FirstPage(f, nr), nr)
  }

  /** Everything an allocation in f needs: untranslated pages, records, blocks and spare tables. */
  ghost predicate Served(m: Memory, f: Extent, nr: nat, budget: nat) {
    FIXED_RECORDS <= budget && Affordable(m.lists, m.vm.space, FirstPage(f, nr), nr, budget - FIXED_RECORDS)
  }

  /** What a successful allocation at address a leaves: its entry in the ledger, its pages mapped
      to blocks of their own, and exactly those blocks gone from the free lists. */
  ghost predicate Allocated(m: Memory, live: map<nat, nat>, after: Memory, a: nat, nr: nat, flags: Flags) {
    && B.Elems(after.vm.block.entries) == B.Elems(m.vm.block.entries) + {Extent(a, 4096 * nr)}
    && a in after.objects && after.objects == m.objects[a := after.objects[a]] && Total(after.objects[a]) == nr
    && Holding(T.Zone(m.lists, live), after.lists, after.objects[a])
    && MappedTo(after.vm.space, P.Vpn(a), after.objects[a], flags)
  }

  /** The translations outside the new entry are as before. */
  ghost predicate OthersKept(m: Memory, after: Memory, shared: set<nat>, r: Option<nat>, nr: nat) {
    forall w: nat :: R.Own(w, shared) && !(r.Some? && P.Vpn(r.value) <= w < P.Vpn(r.value) + nr) ==>
      P.Translate(after.vm.space, w) == P.Translate(m.vm.space, w)
  }

  /** From one superpage on, the place is aligned whatever the extent is. */
  lemma PlacedPage(f: Extent, nr: nat)
    requires Sized(nr)
    ensures nr >= 512 ==> FirstPage(f, nr) % 512 == 0
  {
    WrapFacts();
    var x := Placed(f, nr);
    if nr >= 512 {
      assert x % SUPERPAGE == 0;
      hide Placed, Wrap;
      assert x == 512 * (x / SUPERPAGE) * 4096;
      assert x / 4096 == 512 * (x / SUPERPAGE);
    }
  }

  /** The backing of an entry, at its page number in the 48-bit space. */
  lemma BackedAt(m: Memory, live: map<nat, nat>, f: Extent, shared: set<nat>, pool: set<nat>, nr: nat, flags: Flags,
                 budget: nat)
    requires T.ZoneInv(T.Zone(m.lists, live)) && R.Valid(m.vm.space, shared, pool) && Usable(m, f, nr, shared)
    requires nr >= 512 ==> FirstPage(f, nr) % 512 == 0
    ensures var v, x := Placed(f, nr) / 4096, FirstPage(f, nr);
      var (l, s, pages, ok) := Back(m.lists, m.vm.space, v, nr, flags, budget);
      var t := if ok then s else Rollback(s, v, pages);
      && R.Valid(t, shared, pool) && (ok <==> Affordable(m.lists, m.vm.space, x, nr, budget))
      && (ok ==> Total(pages) == nr && Holding(T.Zone(m.lists, live), l, pages) && MappedTo(t, x, pages, flags))
      && (!ok ==> GiveBack(l, pages) == m.lists)
      && (forall w: nat :: R.Own(w, shared) && !(ok && x <= w < x + nr) ==>
            P.Translate(t, w) == P.Translate(m.vm.space, w))
  {
    hide R.Valid, P.Translate, R.Own, T.ZoneInv, Back, GiveBack, Rollback, Holding, MappedTo, Affordable, OwnRange,
        ClearTail, P.Vpn, Placed;
    var v, x := Placed(f, nr) / 4096, FirstPage(f, nr);
    SameVpn(Placed(f, nr));
    BackSame(m.lists, m.vm.space, v, x, nr, flags, budget);
    BackedAllOrNothing(T.Zone(m.lists, live), m.vm.space, shared, pool, x, nr, flags, budget);
    var (l, s, pages, ok) := Back(m.lists, m.vm.space, v, nr, flags, budget);
    W.RollbackSame(s, v, x, pages);
  }

  /** An allocation succeeds exactly when an extent is large enough, its pages are untranslated,
      and the records, the blocks of the zone and the spare tables suffice.  It then takes its
      place in a smallest such extent and backs every page.  One that fails leaves the ledger,
      every translation and every free list as they were.  The ledger keeps its tiling exactly
      when nothing was taken, or some pages were and their place needed no alignment. */
  lemma AllocateEndToEnd(m: Memory, live: map<nat, nat>, lo: nat, hi: nat, shared: set<nat>, pool: set<nat>, nr: nat,
                         flags: Flags, budget: nat)
    requires BlockInv(m.vm.block, lo, hi) && InWord(lo, hi)
    requires T.ZoneInv(T.Zone(m.lists, live)) && R.Valid(m.vm.space, shared, pool)
    requires var fit := BestFit(m.vm.block.stree, SearchSize(nr), None); fit.Some? ==> Usable(m, fit.value, nr, shared)
    ensures var fit := BestFit(m.vm.block.stree, SearchSize(nr), None);
      var (after, r) := AllocateRequest(m, nr, flags, budget);
      && R.Valid(after.vm.space, shared, pool)
      && (fit.None? <==> forall f :: f in B.Elems(m.vm.block.atree) ==> f.size < SearchSize(nr))
      && (r.Some? <==> fit.Some? && Served(m, fit.value, nr, budget))
      && (r.Some? ==>
            && TakenFrom(m.vm.block, fit.value, nr, r.value) && Allocated(m, live, after, r.value, nr, flags)
            && LeavesOf(m.vm.block, after.vm.block, fit.value, Extent(r.value, 4096 * nr)))
      && (r.None? ==> after.vm.block == m.vm.block && after.lists == m.lists && after.objects == m.objects)
      && OthersKept(m, after, shared, r, nr)
      && (BlockInv(after.vm.block, lo, hi) <==> r.None? || (nr > 0 && Snug(m.vm.block, nr)))
  {
    hide BlockInv, T.ZoneInv, R.Valid, R.Own, P.Translate, P.Vpn, Carved, Back, Rollback, GiveBack, Holding, MappedTo,
        B.Elems, SearchSize, Placed, Affordable, WordParts, Snug, TakenFrom, OwnRange, ClearTail;
    FitFound(m.vm.block, lo, hi, SearchSize(nr));
    var r := BestFit(m.vm.block.stree, SearchSize(nr), None);
    if r.Some? && budget >= FIXED_RECORDS {
      var f := r.value;
      RangeSized(FirstPage(f, nr), nr, shared);
      AllocationCarves(m.vm.block, lo, hi, nr, f);
      CarveOk(m.vm.block, lo, hi, nr, f);
      PlacedPage(f, nr);
      BackedAt(m, live, f, shared, pool, nr, flags, budget - FIXED_RECORDS);
      AllocateKeepsBlock(m.vm.block, lo, hi, nr, true);
    }
  }

  /** A range of the 48-bit space has a 64-bit size. */
  lemma RangeSized(v: nat, nr: nat, shared: set<nat>)
    requires OwnRange(v, nr, shared)
    ensures Sized(nr)
  {
  }

  /** The carve of the extent found is the ledger's allocation, and it never fails. */
  lemma CarveOk(b: Block, lo: nat, hi: nat, nr: nat, f: Extent)
    requires BlockInv(b, lo, hi) && InWord(lo, hi) && Sized(nr)
    requires BestFit(b.stree, SearchSize(nr), None) == Some(f)
    ensures var (c, ok) := CarveWords(b, f, Extent(Placed(f, nr), Wrap(4096 * nr)));
      ok && Allocate(b, nr, true) == (c, Some(Placed(f, nr))) && LeavesOf(b, c, f, Extent(Placed(f, nr), 4096 * nr))
  {
    hide Carved, WordParts, Parts, Placed, SearchSize, BlockInv, B.Elems, Wrap;
    AllocationCarves(b, lo, hi, nr, f);
    CarveWorks(b, lo, hi, f, Extent(Placed(f, nr), 4096 * nr));
  }
}
