/** Wiring a physical range to a virtual range, end to end: the ledger of the
    block, the page table, and the all-or-nothing promise. */
module Wire {
  import opened Basics
  import opened ArchMemory
  import opened Ledger
  import opened LedgerTheorems
  import opened WirePages
  import B = Btree
  import D = WireDemand
  import G = GreedyRuns
  import M = PageTableModulo
  import P = PageTableModel
  import PageTableDemand
  import R = PageTableRuns
  import PowersOfTwo
  import W = WireModulo

  /** One block of an address space, with its bounds (the last byte included). */
  datatype Vm = Vm(block: Block, first: nat, last: nat, space: P.Space)

  /** How many pages the mapping loop runs over. */
  function LoopPages(virtual: nat, nr: nat): nat {
    var end := Wrap(virtual + Wrap(4096 * nr));
    if virtual < end then (end - virtual) / 4096 else 0
  }

  /** The loop covers the requested pages exactly when the end of the range does not wrap. */
  lemma LoopCoversExactly(virtual: nat, nr: nat)
    requires virtual < WORD && virtual % 4096 == 0
    ensures LoopPages(virtual, nr) <= nr
    ensures LoopPages(virtual, nr) == nr <==> nr == 0 || virtual + 4096 * nr < WORD
  {
    WrapFacts();
    if virtual + 4096 * nr < WORD {
      assert Wrap(virtual + Wrap(4096 * nr)) == virtual + 4096 * nr;
    }
  }

  /** The allocator hands out four records before the loop and one for each run. */
  const FIXED_RECORDS: nat := 4

  /** The free extent a request is carved from, if it passes the checks before the loop. */
  function Accepts(vm: Vm, virtual: nat, nr: nat, physical: nat, budget: nat): Option<Extent> {
    if virtual % 4096 != 0 || physical % 4096 != 0 then None
    else if !(vm.first <= virtual <= vm.last) then None
    else
      match B.Search(vm.block.atree, FitWord(virtual))
      case None => None
      case Some(f) =>
        if Wrap(virtual + Wrap(4096 * nr)) > Wrap(End(f)) || budget < FIXED_RECORDS then None else Some(f)
  }

  /** The loop, the ledger update, and the rollback. */
  function WireInto(vm: Vm, f: Extent, virtual: nat, nr: nat, physical: nat, flags: Flags, budget: nat): (Vm, bool) {
    var v := virtual / 4096;
    var (s, pages, ok) := MapRange(vm.space, v, physical / 4096, LoopPages(virtual, nr), flags, budget);
    if !ok then (vm.(space := Rollback(s, v, pages)), false)
    else
      var (b, carved) := CarveWords(vm.block, f, Extent(virtual, Wrap(4096 * nr)));
      if carved then (vm.(block := b, space := s), true)
      else (vm.(block := b, space := Rollback(s, v, pages)), false)
  }

  function WireRequest(vm: Vm, virtual: nat, nr: nat, physical: nat, flags: Flags, budget: nat): (Vm, bool) {
    match Accepts(vm, virtual, nr, physical, budget)
    case None => (vm, false)
    case Some(f) =>
      WireInto(vm, f, virtual, nr, physical, flags, if budget < FIXED_RECORDS then 0 else budget - FIXED_RECORDS)
  }

  // ---- Requests whose end does not wrap ------------------------------------------------------

  /** The free extent a request falls into. */
  ghost predicate Target(vm: Vm, virtual: nat, nr: nat, f: Extent) {
    f in B.Elems(vm.block.atree) && f.start <= virtual && virtual + 4096 * nr <= End(f)
  }

  /** What happened to the translations. */
  ghost predicate SpaceOutcome(s: P.Space, t: P.Space, shared: set<nat>, pool: set<nat>, v: nat, p: nat, nr: nat,
                               flags: Flags, ok: bool) {
    && R.Valid(t, shared, pool) && t.cr3 == s.cr3
    && (forall w: nat :: R.Own(w, shared) && !(ok && v <= w < v + nr) ==> P.Translate(t, w) == P.Translate(s, w))
    && (ok ==> Blank(s, v, nr))
    && (ok ==> forall w: nat :: v <= w < v + nr ==> WiredTo(P.Translate(t, w), p + (w - v), flags))
  }

  /** What happened to the ledger. */
  ghost predicate BlockOutcome(vm: Vm, after: Block, lo: nat, hi: nat, virtual: nat, nr: nat, ok: bool) {
    && (!ok ==> after == vm.block)
    && (ok ==>
          && B.Elems(after.entries) == B.Elems(vm.block.entries) + {Extent(virtual, 4096 * nr)}
          && exists f :: Target(vm, virtual, nr, f)
               && (BlockInv(after, lo, hi) <==> Flush(f, Extent(virtual, 4096 * nr))))
  }

  /** If no 4 KiB run of the range lies in a live superpage and its end does not wrap,
      success means that the range was untranslated, that the 4-level walk sends each of
      the nr pages to the frame at the same offset with the address space's permissions,
      that no other translation changed, that the entry is in the ledger, and that the
      ledger still tiles the block exactly when the range is flush with an end of its free
      extent.  Failure, at whatever step, leaves every
      translation and every tree as before. */
  lemma WireEndToEnd(vm: Vm, lo: nat, hi: nat, shared: set<nat>, pool: set<nat>, virtual: nat, nr: nat, physical: nat,
                     flags: Flags, budget: nat)
    requires R.Valid(vm.space, shared, pool) && BlockInv(vm.block, lo, hi) && hi <= WORD
    requires nr > 0 && virtual + 4096 * nr < WORD
    requires OwnRange(P.Vpn(virtual), nr, shared) && Clear(vm.space, P.Vpn(virtual), physical / 4096, nr)
    ensures var (after, ok) := WireRequest(vm, virtual, nr, physical, flags, budget);
      && SpaceOutcome(vm.space, after.space, shared, pool, P.Vpn(virtual), physical / 4096, nr, flags, ok)
      && BlockOutcome(vm, after.block, lo, hi, virtual, nr, ok)
  {
    hide Accepts, WireInto, P.Vpn, OwnRange, Clear, BlockInv, SpaceOutcome, BlockOutcome, R.Valid;
    AcceptedFrom(vm, lo, hi, virtual, nr, physical, budget);
    match Accepts(vm, virtual, nr, physical, budget) {
      case None =>
        NothingHappened(vm, lo, hi, shared, pool, virtual, nr, physical / 4096, flags);
      case Some(f) =>
        WireIntoOutcome(vm, lo, hi, shared, pool, f, virtual, nr, physical, flags, budget - FIXED_RECORDS);
    }
  }

  lemma WireIntoOutcome(vm: Vm, lo: nat, hi: nat, shared: set<nat>, pool: set<nat>, f: Extent, virtual: nat, nr: nat,
                        physical: nat, flags: Flags, budget: nat)
    requires R.Valid(vm.space, shared, pool) && BlockInv(vm.block, lo, hi) && End(f) <= WORD
    requires nr > 0 && virtual % 4096 == 0 && virtual + 4096 * nr < WORD
    requires Target(vm, virtual, nr, f)
    requires OwnRange(P.Vpn(virtual), nr, shared) && Clear(vm.space, P.Vpn(virtual), physical / 4096, nr)
    ensures var (after, ok) := WireInto(vm, f, virtual, nr, physical, flags, budget);
      && SpaceOutcome(vm.space, after.space, shared, pool, P.Vpn(virtual), physical / 4096, nr, flags, ok)
      && BlockOutcome(vm, after.block, lo, hi, virtual, nr, ok)
  {
    hide MapRange, Rollback, Carved, P.Vpn, LoopPages, Clear, BlockInv, B.Elems, SpaceOutcome, BlockOutcome, R.Valid;
    LoopCoversExactly(virtual, nr);
    WrapFacts();
    hide Wrap;
    NoWrapInside(f, Extent(virtual, 4096 * nr));
    NothingHappened(vm, lo, hi, shared, pool, virtual, nr, physical / 4096, flags);
    SpacePart(vm.space, shared, pool, virtual, physical / 4096, nr, flags, budget);
    CarvePart(vm, lo, hi, virtual, nr, f);
  }

  /** An accepted extent is a free extent of the block that holds the first page, and the
      whole range when its end does not wrap. */
  lemma AcceptedFrom(vm: Vm, lo: nat, hi: nat, virtual: nat, nr: nat, physical: nat, budget: nat)
    requires BlockInv(vm.block, lo, hi) && hi <= WORD
    ensures var r := Accepts(vm, virtual, nr, physical, budget);
      r.Some? ==>
        && virtual % 4096 == 0 && virtual < WORD && budget >= FIXED_RECORDS
        && r.value in B.Elems(vm.block.atree) && r.value.start <= virtual && End(r.value) < WORD
        && (virtual + 4096 * nr < WORD ==> Target(vm, virtual, nr, r.value))
  {
    B.SearchMember(vm.block.atree, FitWord(virtual));
    var r := B.Search(vm.block.atree, FitWord(virtual));
    if r.Some? {
      assert r.value in B.Elems(vm.block.entries) + B.Elems(vm.block.atree);
      assert End(r.value) <= hi;
      WrapFacts();
    }
  }

  lemma NothingHappened(vm: Vm, lo: nat, hi: nat, shared: set<nat>, pool: set<nat>, virtual: nat, nr: nat, p: nat,
                        flags: Flags)
    requires R.Valid(vm.space, shared, pool)
    ensures SpaceOutcome(vm.space, vm.space, shared, pool, P.Vpn(virtual), p, nr, flags, false)
    ensures BlockOutcome(vm, vm.block, lo, hi, virtual, nr, false)
  {
  }

  lemma SpacePart(s: P.Space, shared: set<nat>, pool: set<nat>, virtual: nat, p: nat, nr: nat, flags: Flags,
                  budget: nat)
    requires R.Valid(s, shared, pool) && OwnRange(P.Vpn(virtual), nr, shared) && Clear(s, P.Vpn(virtual), p, nr)
    ensures var v := virtual / 4096;
      var (t, pages, ok) := MapRange(s, v, p, nr, flags, budget);
      SpaceOutcome(s, if ok then t else Rollback(t, v, pages), shared, pool, P.Vpn(virtual), p, nr, flags, ok)
  {
    hide P.Translate, R.Valid, MapRange, Rollback, WiredTo, R.Own, P.Vpn, M.Same, Clear;
    SameVpn(virtual);
    W.WireRangeSame(s, virtual / 4096, P.Vpn(virtual), p, nr, flags, budget);
    WireRangeAllOrNothing(s, shared, pool, P.Vpn(virtual), p, nr, flags, budget);
  }

  lemma CarvePart(vm: Vm, lo: nat, hi: nat, virtual: nat, nr: nat, f: Extent)
    requires BlockInv(vm.block, lo, hi) && nr > 0 && Target(vm, virtual, nr, f)
    ensures var (b, ok) := Carve(vm.block, f, Extent(virtual, 4096 * nr));
      ok && BlockOutcome(vm, b, lo, hi, virtual, nr, true)
  {
    hide BlockInv, Carve;
    CarveWorks(vm.block, lo, hi, f, Extent(virtual, 4096 * nr));
    CarveTilesExactlyWhenFlush(vm.block, lo, hi, f, Extent(virtual, 4096 * nr));
  }

  // ---- When a request succeeds -----------------------------------------------------------------

  /** A range that can be wired: both addresses aligned, the range inside one free extent, its
      pages untranslated, and enough records and spare tables for the runs it is cut into. */
  ghost predicate Wireable(vm: Vm, virtual: nat, nr: nat, physical: nat, budget: nat) {
    var v, p := P.Vpn(virtual), physical / 4096;
    && virtual % 4096 == 0 && physical % 4096 == 0 && vm.first <= virtual <= vm.last
    && (exists f :: Target(vm, virtual, nr, f) && End(f) < WORD)
    && Blank(vm.space, v, nr)
    && 4 + |G.Greedy(v, p, nr)| <= budget
    && PageTableDemand.Demand(vm.space, D.RangeSpots(v, p, nr)) <= |vm.space.free|
  }

  /** A request whose end does not wrap is granted exactly when its range can be wired. */
  lemma WireExactly(vm: Vm, lo: nat, hi: nat, shared: set<nat>, pool: set<nat>, virtual: nat, nr: nat, physical: nat,
                    flags: Flags, budget: nat)
    requires R.Valid(vm.space, shared, pool) && BlockInv(vm.block, lo, hi) && hi <= WORD
    requires nr > 0 && virtual + 4096 * nr < WORD
    requires OwnRange(P.Vpn(virtual), nr, shared) && Clear(vm.space, P.Vpn(virtual), physical / 4096, nr)
    ensures WireRequest(vm, virtual, nr, physical, flags, budget).1 <==> Wireable(vm, virtual, nr, physical, budget)
  {
    hide Accepts, WireInto, P.Vpn, OwnRange, Clear, BlockInv, R.Valid, Blank, G.Greedy, D.RangeSpots;
    AcceptsExactly(vm, lo, hi, virtual, nr, physical, budget);
    var r := Accepts(vm, virtual, nr, physical, budget);
    if r.Some? {
      WireIntoExactly(vm, lo, hi, shared, pool, r.value, virtual, nr, physical, flags, budget - FIXED_RECORDS);
    }
  }

  /** The checks before the loop pass exactly when the range lies in one free extent. */
  lemma AcceptsExactly(vm: Vm, lo: nat, hi: nat, virtual: nat, nr: nat, physical: nat, budget: nat)
    requires BlockInv(vm.block, lo, hi) && hi <= WORD && nr > 0 && virtual + 4096 * nr < WORD
    ensures var r := Accepts(vm, virtual, nr, physical, budget);
      && (r.Some? <==>
            && virtual % 4096 == 0 && physical % 4096 == 0 && vm.first <= virtual <= vm.last && 4 <= budget
            && exists f :: Target(vm, virtual, nr, f) && End(f) < WORD)
      && (r.Some? ==> Target(vm, virtual, nr, r.value) && End(r.value) < WORD)
  {
    hide B.Elems, B.Search, BlockInv;
    SearchExactly(vm, lo, hi, virtual);
    WrapFacts();
    hide Wrap;
  }

  /** The search finds the free extent that holds the address and ends inside the word. */
  lemma SearchExactly(vm: Vm, lo: nat, hi: nat, virtual: nat)
    requires BlockInv(vm.block, lo, hi) && hi <= WORD
    ensures var r, free := B.Search(vm.block.atree, FitWord(virtual)), B.Elems(vm.block.atree);
      forall f :: (f in free && f.start <= virtual < End(f) && End(f) < WORD) <==> (r == Some(f))
  {
    hide B.Elems, B.Search, BlockInv, Spread, FitWord, B.Ordered, B.Simple;
    FreeSpread(vm.block, lo, hi);
    FitSearchComplete(vm.block.atree, virtual);
    var free := B.Elems(vm.block.atree);
    forall f | f in free && f.start <= virtual < End(f)
      ensures forall g :: g in free && g.start <= virtual < End(g) ==> g == f
    {
      OnlyHolder(free, f, virtual);
    }
  }

  lemma FreeSpread(b: Block, lo: nat, hi: nat)
    requires BlockInv(b, lo, hi) && hi <= WORD
    ensures B.Ordered(b.atree, ByStart) && B.Simple(b.atree) && Spread(B.Elems(b.atree))
    ensures forall f :: f in B.Elems(b.atree) ==> End(f) <= WORD
  {
    hide B.Elems, B.Ordered, B.Simple, Spread;
    SpreadSubset(B.Elems(b.entries) + B.Elems(b.atree), B.Elems(b.atree));
  }

  lemma WireIntoExactly(vm: Vm, lo: nat, hi: nat, shared: set<nat>, pool: set<nat>, f: Extent, virtual: nat, nr: nat,
                        physical: nat, flags: Flags, budget: nat)
    requires R.Valid(vm.space, shared, pool) && BlockInv(vm.block, lo, hi) && End(f) <= WORD
    requires nr > 0 && virtual % 4096 == 0 && virtual + 4096 * nr < WORD && Target(vm, virtual, nr, f)
    requires OwnRange(P.Vpn(virtual), nr, shared) && Clear(vm.space, P.Vpn(virtual), physical / 4096, nr)
    ensures var v, p := P.Vpn(virtual), physical / 4096;
      WireInto(vm, f, virtual, nr, physical, flags, budget).1 <==>
        && Blank(vm.space, v, nr) && |G.Greedy(v, p, nr)| <= budget
        && PageTableDemand.Demand(vm.space, D.RangeSpots(v, p, nr)) <= |vm.space.free|
  {
    hide MapRange, Rollback, Carved, P.Vpn, LoopPages, Clear, BlockInv, B.Elems, R.Valid, Blank, BlockOutcome;
    hide PageTableDemand.Demand, PageTableDemand.Opens, G.Greedy, D.RangeSpots, M.Same;
    var v, p := P.Vpn(virtual), physical / 4096;
    LoopCoversExactly(virtual, nr);
    WrapFacts();
    hide Wrap;
    NoWrapInside(f, Extent(virtual, 4096 * nr));
    CarvePart(vm, lo, hi, virtual, nr, f);
    SameVpn(virtual);
    W.WireRangeSame(vm.space, virtual / 4096, v, p, nr, flags, budget);
    D.RangeOpens(vm.space, shared, v, p, nr);
    D.MapRangeExactly(vm.space, shared, pool, v, p, nr, flags, budget);
  }

  // ---- Requests whose end wraps ----------------------------------------------------------------

  /** Each of the nr pages from virtual on is wired to the frame at the same offset. */
  ghost predicate AllWired(s: P.Space, virtual: nat, nr: nat, physical: nat, flags: Flags) {
    forall i: nat :: i < nr ==> WiredTo(P.Translate(s, P.Vpn(virtual + 4096 * i)), physical / 4096 + i, flags)
  }

  /** The pages the theorem below looks at: all of them, or those the loop covers and the next one. */
  function Reach(virtual: nat, nr: nat): nat {
    if virtual + 4096 * nr < WORD then nr else LoopPages(virtual, nr) + 1
  }

  /** The first page past the loop, if the end wraps, was not so wired already. */
  ghost predicate NextUnwired(s: P.Space, virtual: nat, nr: nat, physical: nat, flags: Flags) {
    var k := LoopPages(virtual, nr);
    virtual + 4096 * nr < WORD || !WiredTo(P.Translate(s, P.Vpn(virtual) + k), physical / 4096 + k, flags)
  }

  /** A request reported as wired has all its pages wired exactly when its end does not
      wrap; whatever is reported, no translation outside the request changed. */
  lemma WiredExactlyWhenNoWrap(vm: Vm, lo: nat, hi: nat, shared: set<nat>, pool: set<nat>, virtual: nat, nr: nat,
                               physical: nat, flags: Flags, budget: nat)
    requires R.Valid(vm.space, shared, pool) && BlockInv(vm.block, lo, hi) && hi <= WORD && nr > 0
    requires OwnRange(P.Vpn(virtual), Reach(virtual, nr), shared)
    requires Clear(vm.space, P.Vpn(virtual), physical / 4096, LoopPages(virtual, nr))
    requires NextUnwired(vm.space, virtual, nr, physical, flags)
    ensures var (after, ok) := WireRequest(vm, virtual, nr, physical, flags, budget);
      && R.Valid(after.space, shared, pool)
      && (ok ==> (AllWired(after.space, virtual, nr, physical, flags) <==> virtual + 4096 * nr < WORD))
      && (forall w: nat ::
            R.Own(w, shared) && !(ok && P.Vpn(virtual) <= w < P.Vpn(virtual) + LoopPages(virtual, nr)) ==>
            P.Translate(after.space, w) == P.Translate(vm.space, w))
  {
    hide Accepts, WireInto, P.Vpn, BlockInv, R.Valid, P.Translate, LoopPages, R.Own, WiredTo, Clear, NextUnwired;
    AcceptedFrom(vm, lo, hi, virtual, nr, physical, budget);
    var r := Accepts(vm, virtual, nr, physical, budget);
    if r.Some? {
      LoopCoversExactly(virtual, nr);
      WireIntoSpace(vm, shared, pool, r.value, virtual, nr, physical, flags, budget - FIXED_RECORDS);
      var (after, ok) := WireRequest(vm, virtual, nr, physical, flags, budget);
      if ok { WiredPages(vm.space, after.space, shared, virtual, nr, physical, flags); }
    }
  }

  /** The translations after the loop, whether or not the end wraps. */
  lemma WireIntoSpace(vm: Vm, shared: set<nat>, pool: set<nat>, f: Extent, virtual: nat, nr: nat, physical: nat,
                      flags: Flags, budget: nat)
    requires R.Valid(vm.space, shared, pool)
    requires OwnRange(P.Vpn(virtual), LoopPages(virtual, nr), shared)
    requires Clear(vm.space, P.Vpn(virtual), physical / 4096, LoopPages(virtual, nr))
    ensures var (after, ok) := WireInto(vm, f, virtual, nr, physical, flags, budget);
      SpaceOutcome(vm.space, after.space, shared, pool, P.Vpn(virtual), physical / 4096, LoopPages(virtual, nr),
          flags, ok)
  {
    var n := LoopPages(virtual, nr);
    var v, p := virtual / 4096, physical / 4096;
    hide MapRange, Rollback, Carved, P.Vpn, LoopPages, Clear, R.Valid, P.Translate, R.Own, WiredTo;
    SpacePart(vm.space, shared, pool, virtual, p, n, flags, budget);
    SameVpn(virtual);
    W.WireRangeSame(vm.space, v, P.Vpn(virtual), p, n, flags, budget);
    MapRangeMeans(vm.space, shared, pool, P.Vpn(virtual), p, n, flags, budget);
    var (s, pages, ok) := MapRange(vm.space, v, p, n, flags, budget);
    RollbackClears(s, shared, pool, P.Vpn(virtual), pages);
    W.RollbackSame(s, v, P.Vpn(virtual), pages);
  }

  lemma SameVpn(virtual: nat)
    ensures M.Same(virtual / 4096, P.Vpn(virtual))
  {
  }

  lemma WiredPages(s: P.Space, t: P.Space, shared: set<nat>, virtual: nat, nr: nat, physical: nat, flags: Flags)
    requires virtual < WORD && virtual % 4096 == 0 && nr > 0
    requires OwnRange(P.Vpn(virtual), Reach(virtual, nr), shared) && NextUnwired(s, virtual, nr, physical, flags)
    requires forall w: nat :: P.Vpn(virtual) <= w < P.Vpn(virtual) + LoopPages(virtual, nr) ==>
      WiredTo(P.Translate(t, w), physical / 4096 + (w - P.Vpn(virtual)), flags)
    requires forall w: nat :: R.Own(w, shared) && !(P.Vpn(virtual) <= w < P.Vpn(virtual) + LoopPages(virtual, nr)) ==>
      P.Translate(t, w) == P.Translate(s, w)
    ensures AllWired(t, virtual, nr, physical, flags) <==> virtual + 4096 * nr < WORD
  {
    LoopCoversExactly(virtual, nr);
    var k, v := LoopPages(virtual, nr), P.Vpn(virtual);
    hide P.Vpn, P.Translate, LoopPages, R.Own;
    forall i: nat | i < Reach(virtual, nr)
      ensures P.Vpn(virtual + 4096 * i) == v + i
    {
      VpnAdvance(virtual, i);
    }
    if virtual + 4096 * nr < WORD {
      forall i: nat | i < nr
        ensures WiredTo(P.Translate(t, P.Vpn(virtual + 4096 * i)), physical / 4096 + i, flags)
      {
        assert v <= v + i < v + k;
      }
    } else {
      assert k < nr && P.Vpn(virtual + 4096 * k) == v + k;
      assert P.Translate(t, v + k) == P.Translate(s, v + k);
      assert !WiredTo(P.Translate(t, P.Vpn(virtual + 4096 * k)), physical / 4096 + k, flags);
    }
  }

  lemma VpnAdvance(virtual: nat, x: nat)
    requires P.Vpn(virtual) + x < P.PAGES
    ensures P.Vpn(virtual + 4096 * x) == P.Vpn(virtual) + x
  {
    var n := virtual / 4096;
    assert (virtual + 4096 * x) / 4096 == n + x;
    assert n == n / P.PAGES * P.PAGES + n % P.PAGES;
    PowersOfTwo.ModOfSum(n / P.PAGES, P.PAGES, n % P.PAGES + x);
  }

  /** Such a request, on a new block of 1 GiB at 3 GiB: it reports success, maps nothing,
      and leaves the first 4 GiB in the ledger as one free extent. */
  lemma WrappedRequest(space: P.Space, physical: nat, flags: Flags)
    requires physical % 4096 == 0
    ensures var vm := Vm(NewBlock(0xc000_0000, 0x1_0000_0000), 0xc000_0000, 0xffff_ffff, space);
      var (after, ok) := WireRequest(vm, 0xc000_0000, 0x10_0000_0000_0000 - 0xc_0000, physical, flags, FIXED_RECORDS);
      ok && after.space == space && after.block.atree == B.Node(B.Leaf, Extent(0, 0x1_0000_0000), B.Leaf)
  {
    var virtual, nr := 0xc000_0000, 0x10_0000_0000_0000 - 0xc_0000;
    var f, e := Extent(virtual, 0x4000_0000), Extent(virtual, WORD - virtual);
    var b := NewBlock(virtual, 0x1_0000_0000);
    var vm := Vm(b, virtual, 0xffff_ffff, space);
    assert 4096 * nr == WORD - virtual;
    WrapFacts();
    assert LoopPages(virtual, nr) == 0;
    assert B.Search(b.atree, FitWord(virtual)) == Some(f);
    assert Accepts(vm, virtual, nr, physical, FIXED_RECORDS) == Some(f);
    assert WordParts(f, e) == [Extent(0, 0x1_0000_0000)];
    assert EntryAdd(b, e) == (b.(entries := B.Node(B.Leaf, e, B.Leaf)), true);
    assert FreeDelete(EntryAdd(b, e).0, f).atree == B.Leaf;
    assert MapRange(space, virtual / 4096, physical / 4096, 0, flags, 0) == (space, [], true);
  }
}
