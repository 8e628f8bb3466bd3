/** Wiring and allocation over a ledger that need not be a tiling: what a refused carve undoes. */
module MemoryUndo {
  import opened Basics
  import opened ArchMemory
  import opened Ledger
  import opened LedgerUndo
  import opened PageAllocation
  import opened PageBacking
  import opened Wire
  import opened WirePages
  import B = Btree
  import P = PageTableModel
  import PageTableDemand
  import R = PageTableRuns
  import T = BuddyTheorems
  import U = BuddyUnique
  import W = WireModulo

  /** A wiring that reports failure, wherever it fails and whether or not its end wraps, leaves every
      translation, the same entries and the same free extents. */
  lemma WireUndone(vm: Vm, shared: set<nat>, pool: set<nat>, virtual: nat, nr: nat, physical: nat, flags: Flags,
                   budget: nat)
    requires R.Valid(vm.space, shared, pool) && Sound(vm.block)
    requires OwnRange(P.Vpn(virtual), LoopPages(virtual, nr), shared)
    requires Clear(vm.space, P.Vpn(virtual), physical / 4096, LoopPages(virtual, nr))
    ensures var (after, ok) := WireRequest(vm, virtual, nr, physical, flags, budget);
      && R.Valid(after.space, shared, pool) && Sound(after.block)
      && (!ok ==>
            && SameExtents(vm.block, after.block)
            && forall w: nat :: R.Own(w, shared) ==> P.Translate(after.space, w) == P.Translate(vm.space, w))
  {
    hide R.Valid, P.Translate, R.Own, Sound, P.Vpn, LoopPages, MapRange, Rollback, Carved, WordParts, B.Elems, Clear,
        OwnRange, B.Search;
    var r := Accepts(vm, virtual, nr, physical, budget);
    if r.Some? {
      WireIntoSpace(vm, shared, pool, r.value, virtual, nr, physical, flags, budget - FIXED_RECORDS);
      B.SearchMember(vm.block.atree, FitWord(virtual));
      var e := Extent(virtual, Wrap(4096 * nr));
      TwoParts(r.value, e);
      CarveExactly(vm.block, r.value, e, WordParts(r.value, e));
    }
  }

  // ---- Allocation ---------------------------------------------------------------------------

  /** Undoing a complete backing restores every free list and every translation. */
  lemma BackingUndone(m: Memory, live: map<nat, nat>, f: Extent, shared: set<nat>, pool: set<nat>, nr: nat,
                      flags: Flags, budget: nat)
    requires T.ZoneInv(T.Zone(m.lists, live)) && R.Valid(m.vm.space, shared, pool) && Usable(m, f, nr, shared)
    requires nr >= 512 ==> FirstPage(f, nr) % 512 == 0
    ensures var v := Placed(f, nr) / 4096;
      var (l, s, pages, ok) := Back(m.lists, m.vm.space, v, nr, flags, budget);
      && GiveBack(l, pages) == m.lists && R.Valid(Rollback(s, v, pages), shared, pool)
      && forall w: nat :: R.Own(w, shared) ==>
           P.Translate(Rollback(s, v, pages), w) == P.Translate(m.vm.space, w)
  {
    hide R.Valid, P.Translate, R.Own, T.ZoneInv, Back, GiveBack, Rollback, Holding, MappedTo, OwnRange, LivePages,
        PageTableDemand.ClearTail, P.Vpn, Placed;
    var v, x, z := Placed(f, nr) / 4096, FirstPage(f, nr), T.Zone(m.lists, live);
    SameVpn(Placed(f, nr));
    BackSame(m.lists, m.vm.space, v, x, nr, flags, budget);
    var (l, s, pages, ok) := Back(m.lists, m.vm.space, v, nr, flags, budget);
    U.ZoneCanonical(z);
    BackHolds(z, m.vm.space, x, nr, flags, budget);
    GiveBackRestores(z, l, pages);
    BackMaps(m.lists, m.vm.space, shared, pool, x, nr, flags, budget);
    W.RollbackSame(s, v, x, pages);
    RollbackClears(s, shared, pool, x, pages);
  }

  /** The carve that an allocation in f asks for is granted. */
  ghost predicate Carvable(b: Block, f: Extent, nr: nat) {
    var e := Extent(Placed(f, nr), 4096 * nr);
    && (forall g :: g in B.Elems(b.entries) ==> g.start != e.start)
    && Placeable(B.Elems(b.atree) - {f}, WordParts(f, e))
  }

  /** An allocation succeeds exactly when an extent is large enough, what it needs is there, and the
      carve is granted.  One that fails, wherever it does, leaves the same entries and free extents,
      every free list, every object and every translation. */
  lemma AllocateUndone(m: Memory, live: map<nat, nat>, shared: set<nat>, pool: set<nat>, nr: nat, flags: Flags,
                       budget: nat)
    requires Sound(m.vm.block) && T.ZoneInv(T.Zone(m.lists, live)) && R.Valid(m.vm.space, shared, pool)
    requires var fit := BestFit(m.vm.block.stree, SearchSize(nr), None); fit.Some? ==> Usable(m, fit.value, nr, shared)
    ensures var fit := BestFit(m.vm.block.stree, SearchSize(nr), None);
      var (after, r) := AllocateRequest(m, nr, flags, budget);
      && R.Valid(after.vm.space, shared, pool) && Sound(after.vm.block)
      && (r.Some? <==> fit.Some? && Served(m, fit.value, nr, budget) && Carvable(m.vm.block, fit.value, nr))
      && (r.Some? ==> r.value == Placed(fit.value, nr) && Allocated(m, live, after, r.value, nr, flags))
      && (r.None? ==>
            SameExtents(m.vm.block, after.vm.block) && after.lists == m.lists && after.objects == m.objects)
      && OthersKept(m, after, shared, r, nr)
  {
    hide T.ZoneInv, R.Valid, R.Own, P.Translate, P.Vpn, Carved, Back, Rollback, GiveBack, Holding, MappedTo, Sound,
        B.Elems, SearchSize, Placed, Affordable, WordParts, OwnRange, PageTableDemand.ClearTail, BestFit, Placeable;
    BestFitMember(m.vm.block, SearchSize(nr));
    var r := BestFit(m.vm.block.stree, SearchSize(nr), None);
    if r.Some? && budget >= FIXED_RECORDS {
      var f := r.value;
      RangeSized(FirstPage(f, nr), nr, shared);
      WrapFacts();
      hide Wrap;
      PlacedPage(f, nr);
      BackedAt(m, live, f, shared, pool, nr, flags, budget - FIXED_RECORDS);
      BackingUndone(m, live, f, shared, pool, nr, flags, budget - FIXED_RECORDS);
      var e := Extent(Placed(f, nr), 4096 * nr);
      TwoParts(f, e);
      CarveExactly(m.vm.block, f, e, WordParts(f, e));
    }
  }
}
