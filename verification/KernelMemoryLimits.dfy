/** What a release leaves behind: pages that stay translated. */
module KernelMemoryLimits {
  import opened Basics
  import opened ArchMemory
  import opened KernelMemory
  import opened Ledger
  import opened LedgerTheorems
  import opened PageAllocation
  import opened PageBacking
  import opened PageTableDemand
  import opened Wire
  import opened WirePages
  import A = BuddyModel
  import I = BuddyInvariant
  import L = PageTableLimits
  import O = PageTableOps
  import P = PageTableModel
  import R = PageTableRuns
  import S = PageTableSteps
  import T = BuddyTheorems
  import U = BuddyUnits
  import W = WireModulo

  // ---- One page, twice ------------------------------------------------------------------------

  /** A new space with three spare tables, one free page at 64 KiB, and a block of two pages at 1 GiB. */
  function OnePage(): Memory {
    var mem: P.Memory := map[0 := L.BlankPage(), 1 := L.BlankPage(), 2 := L.BlankPage(), 3 := L.BlankPage()];
    var none: A.Lists := seq(A.MAX_ORDER + 1, i => []);
    Memory(Vm(NewBlock(0x4000_0000, 0x4000_2000), 0x4000_0000, 0x4000_1fff, P.Init(mem, 0, 4)), none[0 := [0x1_0000]],
        map[])
  }

  lemma OneFreePage()
    ensures T.ZoneInv(T.Zone(OnePage().lists, map[])) && U.Units(OnePage().lists, 0) >= 1
  {
    var s := OnePage().lists;
    assert forall k: nat, a: nat :: I.Has(s, k, a) <==> k == 0 && a == 0x1_0000;
    PageAligned();
    assert I.Canonical(s) by { hide A.Size; }
  }

  lemma PageAligned()
    ensures A.AtOrder(0x1_0000, 0) && A.Size(0) > 0
  {
    PagePower();
  }

  lemma PagePower()
    ensures A.Size(0) == 4096
  {
  }

  lemma OnePageSpace()
    ensures var s := OnePage().vm.space;
      R.Valid(s, {}, {0, 1, 2, 3}) && forall w: nat :: w < P.PAGES ==> P.Translate(s, w).None?
  {
    hide P.Translate, R.Valid, P.Init;
    var mem: P.Memory := map[0 := L.BlankPage(), 1 := L.BlankPage(), 2 := L.BlankPage(), 3 := L.BlankPage()];
    R.InitValid(mem, 0, 4);
    assert (set f | f in mem && 0 <= f < 4) == {0, 1, 2, 3};
  }

  lemma OnePageBounded()
    ensures Bounded(OnePage().vm, 0x4000_0000, 0x4000_2000, {})
  {
    hide P.Init;
    assert P.Vpn(0x4000_0000) == 0x4_0000;
    assert (0x4000_2000 - 0x4000_0000) / 4096 == 2;
  }

  lemma OnePageIsNew(flags: Flags)
    ensures var m := OnePage();
      && NewMemory(m, Frame(0x4000_0000, 0x4000_2000, {}, {0, 1, 2, 3}, flags))
      && forall w: nat :: w < P.PAGES ==> P.Translate(m.vm.space, w).None?
  {
    hide P.Translate, R.Valid, T.ZoneInv, P.Init, Bounded;
    OneFreePage();
    OnePageSpace();
    OnePageBounded();
  }

  /** The page is allocated and released, and everything but its translation is as before; yet no
      second allocation is served, for any number of pages and records. */
  lemma OnePageTwice(flags: Flags, nr: nat, budget: nat)
    requires 1 <= nr < 512
    ensures var m := OnePage();
      var (first, r) := AllocateRequest(m, 1, flags, 5);
      var second := ReleaseRequest(first, 0x4000_0000);
      && r == Some(0x4000_0000)
      && second.vm.block == m.vm.block && second.lists == m.lists && second.objects == m.objects
      && AllocateRequest(second, nr, flags, budget).1.None?
  {
    hide AllocateRequest, ReleaseRequest, P.Translate, R.Valid, T.ZoneInv, BlockInv, U.Units, OnePage, Sound;
    var m, c := OnePage(), Frame(0x4000_0000, 0x4000_2000, {}, {0, 1, 2, 3}, flags);
    OnePageIsNew(flags);
    NewMemorySound(m, c);
    SmallOwn(m, c);
    SmallAllowed(m, map[], c, 1);
    OnePageServed(flags);
    PlaceNotReused(m, c, 1, 5, nr, budget);
    var live := AllocateSound(m, map[], c, 1, 5);
    SmallStays(m, map[], c, 1, 5);
    var first := AllocateRequest(m, 1, flags, 5).0;
    var less := ReleaseEndToEnd(first, live, c, 0x4000_0000);
    SmallAllowed(ReleaseRequest(first, 0x4000_0000), less, c, nr);
  }

  lemma SmallOwn(m: Memory, c: Frame)
    requires Bounded(m.vm, c.lo, c.hi, c.shared)
    requires forall w: nat :: w < P.PAGES ==> P.Translate(m.vm.space, w).None?
    ensures SmallPages(m, c)
  {
    hide P.Translate;
  }

  lemma OnePageServed(flags: Flags)
    ensures AllocateRequest(OnePage(), 1, flags, 5).1.Some?
  {
    hide AllocateRequest, P.Translate, R.Valid, T.ZoneInv, BlockInv, U.Units, Sound, Placed, SearchSize, Snug,
        ClearTail;
    var m, c := OnePage(), Frame(0x4000_0000, 0x4000_2000, {}, {0, 1, 2, 3}, flags);
    OnePageIsNew(flags);
    OneFreePage();
    NewMemorySound(m, c);
    SmallOwn(m, c);
    SmallAllowed(m, map[], c, 1);
    FitOfNew(m, c, 1);
    assert SearchSize(1) == 4096 by { PageSearched(); }
    FitInside(m, map[], c, 1);
    var f := Fit(m, 1).value;
    assert Served(m, f, 1, 5) by { OnePageAffordable(m, FirstPage(f, 1)); }
    SoundParts(m, c);
    AllocateEndToEnd(m, map[], c.lo, c.hi, c.shared, c.pool, 1, flags, 5);
  }

  lemma SoundParts(m: Memory, c: Frame)
    requires Sound(m, map[], c)
    ensures BlockInv(m.vm.block, c.lo, c.hi) && InWord(c.lo, c.hi) && R.Valid(m.vm.space, c.shared, c.pool)
    ensures T.ZoneInv(T.Zone(m.lists, map[]))
  {
  }

  lemma PageSearched()
    ensures SearchSize(1) == 4096
  {
    WrapFacts();
  }

  lemma OnePageAffordable(m: Memory, v: nat)
    requires m == OnePage() && v < P.PAGES && forall w: nat :: w < P.PAGES ==> P.Translate(m.vm.space, w).None?
    requires U.Units(m.lists, 0) >= 1
    ensures Affordable(m.lists, m.vm.space, v, 1, 1)
  {
    hide P.Translate, U.Units;
    AtMostThree(m.vm.space.mem, m.vm.space.cr3, v);
    assert |m.vm.space.free| == 3;
  }

  lemma AtMostThree(mem: P.Memory, table: nat, v: nat)
    ensures S.Missing(mem, table, 4, P.LeafLevel(false), v) <= 3
  {
  }

  // ---- A page in a superpage that was released ------------------------------------------------

  /** A request for one page whose place lies in a live superpage: the first data page of the
      superpage is taken for a page table.  The request succeeds, given a record and a block,
      exactly when the word read there has its present bit clear; and then the page is not mapped
      to its block, but translates as before. */
  lemma StaleSuperpage(m: Memory, live: map<nat, nat>, lo: nat, hi: nat, shared: set<nat>, pool: set<nat>, f: Extent,
                       flags: Flags, budget: nat)
    requires BlockInv(m.vm.block, lo, hi) && InWord(lo, hi) && R.Valid(m.vm.space, shared, pool)
    requires T.ZoneInv(T.Zone(m.lists, live)) && Fit(m, 1) == Some(f)
    requires var s, v := m.vm.space, FirstPage(f, 1);
      && R.Own(v, shared) && O.IsSuper(P.Translate(s, v))
      && L.SlotEntry(s, v).frame in s.mem && L.SlotEntry(s, v).frame !in pool
    ensures var s, v := m.vm.space, FirstPage(f, 1);
      var (after, r) := AllocateRequest(m, 1, flags, budget);
      && (r.Some? <==> budget > FIXED_RECORDS && U.Units(m.lists, 0) > 0 && !L.SlotWord(s, v).present)
      && (forall w: nat :: R.Own(w, shared) ==> P.Translate(after.vm.space, w) == P.Translate(s, w))
      && (r.Some? ==> r.value in after.objects && !MappedTo(after.vm.space, v, after.objects[r.value], flags))
  {
    hide P.Translate, R.Valid, T.ZoneInv, BlockInv, U.Units, Carved, WordParts, P.Map, A.Alloc, A.InsertBuddy,
        L.SlotEntry, L.SlotWord, R.Own, Placed, P.Vpn, MappedTo;
    var s, x, v := m.vm.space, Placed(f, 1) / 4096, FirstPage(f, 1);
    WrapFacts();
    CarveOk(m.vm.block, lo, hi, 1, f);
    if budget > FIXED_RECORDS {
      var b := budget - FIXED_RECORDS;
      SameVpn(Placed(f, 1));
      BackSame(m.lists, s, x, v, 1, flags, b);
      OneInStale(m.lists, s, shared, pool, v, flags, b);
      var (l, t, pages, ok) := Back(m.lists, s, x, 1, flags, b);
      W.RollbackSame(t, x, v, pages);
    } else if budget == FIXED_RECORDS {
      assert Back(m.lists, s, x, 1, flags, 0) == (m.lists, s, [], false);
      assert Rollback(s, x, []) == s;
    }
  }

  lemma OneInStale(lists: A.Lists, s: P.Space, shared: set<nat>, pool: set<nat>, v: nat, flags: Flags, budget: nat)
    requires R.Valid(s, shared, pool) && R.Own(v, shared) && O.IsSuper(P.Translate(s, v)) && budget > 0
    requires L.SlotEntry(s, v).frame in s.mem && L.SlotEntry(s, v).frame !in pool
    ensures var (l, t, pages, ok) := Back(lists, s, v, 1, flags, budget);
      && (ok <==> U.Units(lists, 0) > 0 && !L.SlotWord(s, v).present)
      && (forall w: nat :: R.Own(w, shared) ==> P.Translate(t, w) == P.Translate(s, w))
      && (!ok ==> pages == []) && (ok ==> !MappedTo(t, v, pages, flags))
  {
    hide P.Translate, R.Valid, U.Units, P.Map, A.Alloc, A.InsertBuddy, ArchMap, L.SlotEntry, P.Index;
    U.AllocTakesUnits(lists, 0, 0);
    var (r, left) := A.Alloc(lists, 0);
    if r.Some? {
      var page := Page(r.value, 0, true);
      ArchIsMap(s, v, page, flags);
      L.SmallMapInSuperpage(s, shared, pool, v, r.value / 4096, Attributes(page, flags));
      var (t, ok) := ArchMap(s, v, page, flags);
      assert Back(left, t, v + 1, 0, flags, budget - 1) == (left, t, [], true);
      if ok {
        NotMapped(t, v, page, flags);
      }
    }
  }

  lemma NotMapped(t: P.Space, v: nat, page: Page, flags: Flags)
    requires O.IsSuper(P.Translate(t, v)) && page.order == 0
    ensures !MappedTo(t, v, [page], flags)
  {
    hide P.Translate;
    assert v <= v < v + 1;
  }
}
