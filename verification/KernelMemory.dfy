/** Kernel memory over whole runs of page allocations and releases. */
module KernelMemory {
  import opened Basics
  import opened ArchMemory
  import opened Ledger
  import opened LedgerTheorems
  import opened PageAllocation
  import opened PageBacking
  import opened PageTableDemand
  import opened PowersOfTwo
  import opened Wire
  import opened WirePages
  import B = Btree
  import O = PageTableOps
  import P = PageTableModel
  import R = PageTableRuns
  import T = BuddyTheorems

  // ---- The invariant ------------------------------------------------------------------------

  /** Every extent of the ledger is made of whole pages. */
  ghost predicate WholePages(b: Block) {
    forall e :: e in B.Elems(b.entries) + B.Elems(b.atree) ==> e.start % 4096 == 0 && e.size % 4096 == 0
  }

  /** The block lies in the range that the source gives it, and in this space's part of 48 bits. */
  ghost predicate Bounded(vm: Vm, lo: nat, hi: nat, shared: set<nat>) {
    && InWord(lo, hi) && lo < hi && lo % 4096 == 0 && hi % 4096 == 0 && vm.first <= lo && hi <= vm.last + 1
    && OwnRange(P.Vpn(lo), (hi - lo) / 4096, shared)
  }

  /** Each entry has its object, whose pages fill it and are mapped there. */
  ghost predicate Backed(m: Memory, flags: Flags) {
    && (forall a :: a in m.objects <==> exists e :: e in B.Elems(m.vm.block.entries) && e.start == a)
    && (forall e :: e in B.Elems(m.vm.block.entries) && e.start in m.objects ==>
          4096 * Total(m.objects[e.start]) == e.size
          && MappedTo(m.vm.space, P.Vpn(e.start), m.objects[e.start], flags))
  }

  predicate Owns(live: map<nat, nat>, pages: seq<Page>) {
    Distinct(pages) && InHand(live, pages)
  }

  /** The blocks in use are those of the objects, each in one of them. */
  ghost predicate Owned(live: map<nat, nat>, objects: map<nat, seq<Page>>) {
    && (forall a :: a in objects ==> Owns(live, objects[a]))
    && (forall a, c :: a in objects && c in objects && a != c ==> Held(objects[a]).Keys !! Held(objects[c]).Keys)
    && (forall b :: b in live ==> exists a :: a in objects && b in Held(objects[a]))
  }

  /** Where the ledger, the page table, the free lists and the objects fit together. */
  datatype Frame = Frame(lo: nat, hi: nat, shared: set<nat>, pool: set<nat>, flags: Flags)

  ghost predicate Sound(m: Memory, live: map<nat, nat>, c: Frame) {
    && BlockInv(m.vm.block, c.lo, c.hi) && WholePages(m.vm.block) && Bounded(m.vm, c.lo, c.hi, c.shared)
    && R.Valid(m.vm.space, c.shared, c.pool) && Backed(m, c.flags)
    && T.ZoneInv(T.Zone(m.lists, live)) && Owned(live, m.objects)
  }

  // ---- Page numbers inside the block ----------------------------------------------------------

  /** The pages of an extent of the block are consecutive, and this space's. */
  lemma ExtentPages(vm: Vm, c: Frame, e: Extent)
    requires Bounded(vm, c.lo, c.hi, c.shared) && c.lo <= e.start && End(e) <= c.hi
    requires e.start % 4096 == 0 && e.size % 4096 == 0 && e.start < c.hi
    ensures P.Vpn(e.start) == P.Vpn(c.lo) + (e.start - c.lo) / 4096
    ensures OwnRange(P.Vpn(e.start), e.size / 4096, c.shared)
  {
    hide R.Own, P.Vpn;
    var x, n := (e.start - c.lo) / 4096, e.size / 4096;
    PageDistance(c.lo, c.hi, e.start, e.size);
    VpnAdvance(c.lo, x);
    OwnPart(P.Vpn(c.lo), (c.hi - c.lo) / 4096, x, n, c.shared);
  }

  lemma PageDistance(lo: nat, hi: nat, start: nat, size: nat)
    requires lo <= start < hi && start + size <= hi && lo % 4096 == 0 && start % 4096 == 0 && hi % 4096 == 0
    ensures var x := (start - lo) / 4096;
      start == lo + 4096 * x && x < (hi - lo) / 4096 && x + size / 4096 <= (hi - lo) / 4096
  {
    var a, b, d := lo / 4096, start / 4096, hi / 4096;
    assert lo == 4096 * a && start == 4096 * b && hi == 4096 * d;
  }

  lemma OwnPart(v: nat, n: nat, x: nat, m: nat, shared: set<nat>)
    requires OwnRange(v, n, shared) && x + m <= n
    ensures OwnRange(v + x, m, shared) && v + n <= P.PAGES
  {
    hide R.Own;
  }

  /** Disjoint extents have disjoint pages. */
  lemma PagesApart(vm: Vm, c: Frame, e: Extent, f: Extent)
    requires Bounded(vm, c.lo, c.hi, c.shared) && Disjoint(e, f)
    requires c.lo <= e.start < c.hi && End(e) <= c.hi && e.start % 4096 == 0 && e.size % 4096 == 0
    requires c.lo <= f.start < c.hi && End(f) <= c.hi && f.start % 4096 == 0 && f.size % 4096 == 0
    ensures var x, y := P.Vpn(e.start), P.Vpn(f.start);
      x + e.size / 4096 <= y || y + f.size / 4096 <= x
  {
    ExtentPages(vm, c, e);
    ExtentPages(vm, c, f);
    hide P.Vpn, OwnRange;
  }

  lemma {:induction false} MappedSame(s: P.Space, t: P.Space, v: nat, pages: seq<Page>, flags: Flags)
    requires MappedTo(s, v, pages, flags)
    requires forall w: nat :: v <= w < v + Total(pages) ==> P.Translate(t, w) == P.Translate(s, w)
    ensures MappedTo(t, v, pages, flags)
    decreases |pages|
  {
    hide P.Translate, WiredTo;
    if pages != [] {
      MappedSame(s, t, v + Pow2(pages[0].order), pages[1..], flags);
    }
  }

  lemma {:induction false} MappedTranslated(s: P.Space, v: nat, pages: seq<Page>, flags: Flags, w: nat)
    requires MappedTo(s, v, pages, flags) && v <= w < v + Total(pages)
    ensures P.Translate(s, w).Some?
    decreases |pages|
  {
    hide P.Translate;
    if pages != [] && w >= v + Pow2(pages[0].order) {
      MappedTranslated(s, v + Pow2(pages[0].order), pages[1..], flags, w);
    }
  }

  // ---- Allocation -------------------------------------------------------------------------------

  /** The extent that an allocation finds. */
  function Fit(m: Memory, nr: nat): Option<Extent> {
    BestFit(m.vm.block.stree, SearchSize(nr), None)
  }

  /** Some pages, in an extent that needs no alignment, and clear of live superpages. */
  ghost predicate Allowed(m: Memory, nr: nat) {
    && nr > 0 && Sized(nr) && Snug(m.vm.block, nr)
    && (Fit(m, nr).Some? ==> ClearTail(m.vm.space, FirstPage(Fit(m, nr).value, nr), nr))
  }

  /** The extent found, and the entry placed in it. */
  lemma FitPlace(m: Memory, live: map<nat, nat>, c: Frame, nr: nat)
    requires Sound(m, live, c) && nr > 0 && Sized(nr) && Snug(m.vm.block, nr) && Fit(m, nr).Some?
    ensures var f := Fit(m, nr).value;
      var e := Extent(Placed(f, nr), 4096 * nr);
      && f in B.Elems(m.vm.block.atree) && e.start == f.start && End(e) <= End(f)
      && c.lo <= e.start < c.hi && End(e) <= c.hi && e.start % 4096 == 0 && e.size % 4096 == 0
      && OwnRange(FirstPage(f, nr), nr, c.shared)
      && P.Vpn(c.lo) <= FirstPage(f, nr) && FirstPage(f, nr) + nr <= P.Vpn(c.lo) + (c.hi - c.lo) / 4096
  {
    hide P.Translate, R.Valid, Backed, T.ZoneInv, Owned, MappedTo, R.Own, P.Vpn;
    var f := Fit(m, nr).value;
    AllocationCarves(m.vm.block, c.lo, c.hi, nr, f);
    PlacedInside(f, nr);
    assert f in B.Elems(m.vm.block.entries) + B.Elems(m.vm.block.atree);
    hide BlockInv, Placed, SearchSize, Snug;
    var e := Extent(Placed(f, nr), 4096 * nr);
    assert e.size / 4096 == nr;
    ExtentPages(m.vm, c, e);
    PageDistance(c.lo, c.hi, e.start, e.size);
  }

  lemma FitInside(m: Memory, live: map<nat, nat>, c: Frame, nr: nat)
    requires Sound(m, live, c) && Allowed(m, nr) && Fit(m, nr).Some?
    ensures var f := Fit(m, nr).value;
      var e := Extent(Placed(f, nr), 4096 * nr);
      && f in B.Elems(m.vm.block.atree) && e.start == f.start && End(e) <= End(f)
      && c.lo <= e.start < c.hi && End(e) <= c.hi && e.start % 4096 == 0 && e.size % 4096 == 0
      && Usable(m, f, nr, c.shared) && OwnRange(FirstPage(f, nr), nr, c.shared)
  {
    hide Sound, P.Translate, Placed, SearchSize, Snug, P.Vpn, R.Own;
    FitPlace(m, live, c, nr);
  }

  /** The ledger after the carve: the entry, and at most one piece behind it. */
  lemma CarvedPages(b: Block, lo: nat, hi: nat, nr: nat, f: Extent)
    requires BlockInv(b, lo, hi) && InWord(lo, hi) && Sized(nr) && nr > 0 && Snug(b, nr) && WholePages(b)
    requires BestFit(b.stree, SearchSize(nr), None) == Some(f)
    ensures BlockInv(Allocate(b, nr, true).0, lo, hi) && WholePages(Allocate(b, nr, true).0)
    ensures forall e :: e in B.Elems(b.entries) ==> Disjoint(e, Extent(Placed(f, nr), 4096 * nr))
  {
    hide BlockInv, Carve, Carved, Placed, SearchSize, Wrap, BestFit, WholePages, B.Elems, Pieces, B.Ordered, B.Simple;
    AllocationCarves(b, lo, hi, nr, f);
    CarveOk(b, lo, hi, nr, f);
    AllocateKeepsBlock(b, lo, hi, nr, true);
    var e := Extent(Placed(f, nr), 4096 * nr);
    PlacedInside(f, nr);
    CarveWorks(b, lo, hi, f, e);
    PiecesWhole(b, Carve(b, f, e).0, f, e);
    EntriesApart(b, lo, hi, f, e);
  }

  lemma PiecesWhole(b: Block, c: Block, f: Extent, e: Extent)
    requires WholePages(b) && f in B.Elems(b.atree) && f.start == e.start && End(e) <= End(f) && e.size % 4096 == 0
    requires B.Elems(c.entries) == B.Elems(b.entries) + {e}
    requires B.Elems(c.atree) == B.Elems(b.atree) - {f} + Pieces(f, e)
    ensures WholePages(c)
  {
    hide B.Elems, Pieces;
    PiecesAre(f, e);
    assert f in B.Elems(b.entries) + B.Elems(b.atree);
    forall g | g in B.Elems(c.entries) + B.Elems(c.atree)
      ensures g.start % 4096 == 0 && g.size % 4096 == 0
    {
      assert g == e || g in Pieces(f, e) || g in B.Elems(b.entries) + B.Elems(b.atree);
    }
  }

  lemma EntriesApart(b: Block, lo: nat, hi: nat, f: Extent, e: Extent)
    requires BlockInv(b, lo, hi) && f in B.Elems(b.atree) && f.start <= e.start && End(e) <= End(f)
    ensures forall g :: g in B.Elems(b.entries) ==> Disjoint(g, e) && (e.size > 0 ==> g.start != e.start)
  {
    var s := B.Elems(b.entries) + B.Elems(b.atree);
    forall g | g in B.Elems(b.entries)
      ensures Disjoint(g, e) && (e.size > 0 ==> g.start != e.start)
    {
      assert g in s && f in s && g != f && Disjoint(g, f) && g.size > 0;
    }
  }

  lemma OwnsHeld(live: map<nat, nat>, pages: seq<Page>)
    requires Owns(live, pages)
    ensures Held(pages).Keys <= live.Keys
  {
    hide Held;
    HeldMembers(pages);
  }

  lemma OwnsStill(live: map<nat, nat>, all: map<nat, nat>, pages: seq<Page>)
    requires Owns(live, pages) && forall b :: b in Held(pages) ==> b in all && (b in live ==> all[b] == live[b])
    ensures Owns(all, pages)
  {
    hide Held;
    HeldMembers(pages);
  }

  lemma OwnsNew(live: map<nat, nat>, pages: seq<Page>)
    requires Distinct(pages)
    ensures Owns(live + Held(pages), pages)
  {
    hide Held;
    HeldMembers(pages);
  }

  lemma OwnedAdds(live: map<nat, nat>, objects: map<nat, seq<Page>>, a: nat, pages: seq<Page>)
    requires Owned(live, objects) && a !in objects && Distinct(pages) && Held(pages).Keys !! live.Keys
    ensures Owned(live + Held(pages), objects[a := pages])
  {
    hide Held, Owns, Distinct;
    var all, more := live + Held(pages), objects[a := pages];
    OwnsNew(live, pages);
    forall c | c in objects
      ensures Held(objects[c]).Keys <= live.Keys && Owns(all, objects[c])
    {
      OwnsHeld(live, objects[c]);
      OwnsStill(live, all, objects[c]);
    }
    forall b | b in all
      ensures exists c :: c in more && b in Held(more[c])
    {
      if b in Held(pages) {
        assert b in Held(more[a]);
      } else {
        var c :| c in objects && b in Held(objects[c]);
        assert b in Held(more[c]);
      }
    }
  }

  lemma OwnedDrops(live: map<nat, nat>, objects: map<nat, seq<Page>>, a: nat)
    requires Owned(live, objects) && a in objects
    ensures Owned(live - Held(objects[a]).Keys, objects - {a})
  {
    hide Held, Owns;
    var less, rest := live - Held(objects[a]).Keys, objects - {a};
    forall c | c in rest
      ensures Owns(less, rest[c])
    {
      OwnsHeld(live, objects[c]);
      OwnsStill(live, less, objects[c]);
    }
    forall b | b in less
      ensures exists c :: c in rest && b in Held(rest[c])
    {
      var c :| c in objects && b in Held(objects[c]);
      assert c != a && b in Held(rest[c]);
    }
  }

  lemma BackedAdds(m: Memory, after: Memory, c: Frame, e: Extent)
    requires Backed(m, c.flags) && WholePages(m.vm.block) && Bounded(m.vm, c.lo, c.hi, c.shared)
    requires forall g :: g in B.Elems(m.vm.block.entries) ==> c.lo <= g.start < c.hi && End(g) <= c.hi
    requires forall g :: g in B.Elems(m.vm.block.entries) ==> Disjoint(g, e) && g.start != e.start
    requires c.lo <= e.start < c.hi && End(e) <= c.hi && e.start % 4096 == 0 && e.size % 4096 == 0
    requires B.Elems(after.vm.block.entries) == B.Elems(m.vm.block.entries) + {e}
    requires e.start in after.objects && after.objects == m.objects[e.start := after.objects[e.start]]
    requires 4096 * Total(after.objects[e.start]) == e.size
    requires MappedTo(after.vm.space, P.Vpn(e.start), after.objects[e.start], c.flags)
    requires forall w: nat :: R.Own(w, c.shared) && !(P.Vpn(e.start) <= w < P.Vpn(e.start) + e.size / 4096) ==>
      P.Translate(after.vm.space, w) == P.Translate(m.vm.space, w)
    ensures Backed(after, c.flags)
  {
    hide P.Translate, MappedTo, B.Elems, P.Vpn;
    forall g | g in B.Elems(m.vm.block.entries) && g.start in m.objects
      ensures MappedTo(after.vm.space, P.Vpn(g.start), m.objects[g.start], c.flags)
    {
      assert g in B.Elems(m.vm.block.entries) + B.Elems(m.vm.block.atree);
      ExtentPages(m.vm, c, g);
      PagesApart(m.vm, c, g, e);
      assert Total(m.objects[g.start]) == g.size / 4096;
      MappedSame(m.vm.space, after.vm.space, P.Vpn(g.start), m.objects[g.start], c.flags);
    }
    forall a
      ensures a in after.objects <==> exists g :: g in B.Elems(after.vm.block.entries) && g.start == a
    {
      if a in m.objects {
        var g :| g in B.Elems(m.vm.block.entries) && g.start == a;
        assert g in B.Elems(after.vm.block.entries);
      }
      assert e in B.Elems(after.vm.block.entries);
    }
  }

  /** What no step takes away: a translation, once made, stays as it is. */
  ghost predicate Grown(m: Memory, after: Memory, shared: set<nat>) {
    forall w: nat :: R.Own(w, shared) && P.Translate(m.vm.space, w).Some? ==>
      P.Translate(after.vm.space, w) == P.Translate(m.vm.space, w)
  }

  lemma EntriesInside(b: Block, lo: nat, hi: nat)
    requires BlockInv(b, lo, hi)
    ensures forall g :: g in B.Elems(b.entries) ==> lo <= g.start < hi && End(g) <= hi
  {
    forall g | g in B.Elems(b.entries)
      ensures lo <= g.start < hi && End(g) <= hi
    {
      assert g in B.Elems(b.entries) + B.Elems(b.atree);
    }
  }

  /** An allocation keeps everything together, whether it succeeds or not. */
  lemma AllocateSound(m: Memory, live: map<nat, nat>, c: Frame, nr: nat, budget: nat) returns (more: map<nat, nat>)
    requires Sound(m, live, c) && Allowed(m, nr)
    ensures var after := AllocateRequest(m, nr, c.flags, budget).0;
      && Sound(after, more, c) && Grown(m, after, c.shared)
      && SameBytes(T.Zone(after.lists, more), T.Zone(m.lists, live))
  {
    hide BlockInv, WholePages, R.Valid, R.Own, T.ZoneInv, P.Translate, P.Vpn, Backed, Owned, MappedTo, Held, SearchSize,
        Placed, Snug, Affordable, AllocateRequest, B.Elems, OwnRange, ClearTail, InWord, Owns;
    if Fit(m, nr).Some? { FitInside(m, live, c, nr); }
    AllocateEndToEnd(m, live, c.lo, c.hi, c.shared, c.pool, nr, c.flags, budget);
    var (after, r) := AllocateRequest(m, nr, c.flags, budget);
    more := live;
    FrameKept(m, nr, c.flags, budget);
    if r.None? {
      RefusedSound(m, after, live, c);
    } else {
      var f := Fit(m, nr).value;
      var e := Extent(Placed(f, nr), 4096 * nr);
      CarvedPages(m.vm.block, c.lo, c.hi, nr, f);
      CarvedIs(m, c, nr, budget, f);
      EntriesInside(m.vm.block, c.lo, c.hi);
      EntriesApart(m.vm.block, c.lo, c.hi, f, e);
      assert e.size / 4096 == nr;
      BackedAdds(m, after, c, e);
      NewObject(m, c, e.start);
      more := live + Held(after.objects[e.start]);
      OwnedAdds(live, m.objects, e.start, after.objects[e.start]);
      BlankBefore(m, after, c, r, nr, f, budget);
    }
  }

  lemma FrameKept(m: Memory, nr: nat, flags: Flags, budget: nat)
    ensures var after := AllocateRequest(m, nr, flags, budget).0;
      after.vm.first == m.vm.first && after.vm.last == m.vm.last
  {
    hide Back, Rollback, GiveBack, CarveWords, Placed, BestFit;
  }

  lemma RefusedSound(m: Memory, after: Memory, live: map<nat, nat>, c: Frame)
    requires Sound(m, live, c) && R.Valid(after.vm.space, c.shared, c.pool) && OthersKept(m, after, c.shared, None, 0)
    requires after.vm.block == m.vm.block && after.lists == m.lists && after.objects == m.objects
    requires after.vm.first == m.vm.first && after.vm.last == m.vm.last
    ensures Sound(after, live, c) && Grown(m, after, c.shared)
    ensures SameBytes(T.Zone(after.lists, live), T.Zone(m.lists, live))
  {
    hide BlockInv, R.Valid, T.ZoneInv, P.Translate, Owned, MappedTo, B.Elems, R.Own;
    EntriesInside(m.vm.block, c.lo, c.hi);
    forall g | g in B.Elems(m.vm.block.entries) && g.start in m.objects
      ensures MappedTo(after.vm.space, P.Vpn(g.start), m.objects[g.start], c.flags)
    {
      assert g in B.Elems(m.vm.block.entries) + B.Elems(m.vm.block.atree);
      ExtentPages(m.vm, c, g);
      MappedSame(m.vm.space, after.vm.space, P.Vpn(g.start), m.objects[g.start], c.flags);
    }
  }

  lemma CarvedIs(m: Memory, c: Frame, nr: nat, budget: nat, f: Extent)
    requires BlockInv(m.vm.block, c.lo, c.hi) && InWord(c.lo, c.hi) && Sized(nr) && Fit(m, nr) == Some(f)
    requires AllocateRequest(m, nr, c.flags, budget).1.Some?
    ensures AllocateRequest(m, nr, c.flags, budget).0.vm.block == Allocate(m.vm.block, nr, true).0
  {
    hide Back, Rollback, GiveBack, CarveWords, Placed, BestFit, BlockInv;
    CarveOk(m.vm.block, c.lo, c.hi, nr, f);
  }

  lemma NewObject(m: Memory, c: Frame, a: nat)
    requires Backed(m, c.flags) && forall g :: g in B.Elems(m.vm.block.entries) ==> g.start != a
    ensures a !in m.objects
  {
  }

  lemma BlankBefore(m: Memory, after: Memory, c: Frame, r: Option<nat>, nr: nat, f: Extent, budget: nat)
    requires r == Some(Placed(f, nr)) && OthersKept(m, after, c.shared, r, nr) && Served(m, f, nr, budget)
    ensures Grown(m, after, c.shared)
  {
    hide P.Translate, P.Vpn, Placed, R.Own, Need, Records;
  }

  // ---- Release ----------------------------------------------------------------------------------

  lemma MergeWhole(f: Extent, e: Extent)
    requires f.start % 4096 == 0 && f.size % 4096 == 0 && e.start % 4096 == 0 && e.size % 4096 == 0
    ensures Merge(f, e).start % 4096 == 0 && Merge(f, e).size % 4096 == 0
  {
    var x := f.size + e.size;
    assert x % 4096 == 0;
    assert x % WORD == x - x / WORD * WORD;
  }

  /** A released entry leaves whole pages. */
  lemma ReleasedWhole(b: Block, lo: nat, hi: nat, addr: nat)
    requires BlockInv(b, lo, hi) && InWord(lo, hi) && WholePages(b)
    ensures WholePages(Release(b, addr))
  {
    hide B.Ordered, B.Simple, Tiles, Merge, NeighbourWord, Wrap;
    var r := Released(b, addr);
    if r.Some? {
      var e := r.value;
      ReleasedExactly(b, lo, hi, addr, e);
      assert e in B.Elems(b.entries) + B.Elems(b.atree);
      EntryDeleteWorks(b, e);
      var b1 := EntryDelete(b, e);
      var n := B.Search(b1.atree, NeighbourWord(e));
      B.SearchMember(b1.atree, NeighbourWord(e));
      if n.None? {
        FreeTreesAdd(b1, e);
        WholeAdds(b, Release(b, addr), e);
      } else {
        var f := n.value;
        assert f in B.Elems(b.entries) + B.Elems(b.atree);
        MergeWhole(f, e);
        FreeTreesDelete(b1, f);
        FreeTreesAdd(FreeDelete(b1, f), Merge(f, e));
        WholeAdds(b, Release(b, addr), Merge(f, e));
      }
    }
  }

  lemma WholeAdds(b: Block, c: Block, m: Extent)
    requires WholePages(b) && m.start % 4096 == 0 && m.size % 4096 == 0
    requires B.Elems(c.entries) <= B.Elems(b.entries) && B.Elems(c.atree) <= B.Elems(b.atree) + {m}
    ensures WholePages(c)
  {
    hide B.Elems;
    forall g | g in B.Elems(c.entries) + B.Elems(c.atree)
      ensures g.start % 4096 == 0 && g.size % 4096 == 0
    {
      assert g == m || g in B.Elems(b.entries) + B.Elems(b.atree);
    }
  }

  /** A release takes out the entry at the address exactly when there is one that ends below 2^64;
      its blocks go back to the zone, and every translation stays. */
  lemma ReleaseEndToEnd(m: Memory, live: map<nat, nat>, c: Frame, addr: nat) returns (less: map<nat, nat>)
    requires Sound(m, live, c)
    ensures var after := ReleaseRequest(m, addr);
      && Sound(after, less, c) && after.vm.space == m.vm.space
      && (forall e :: e in B.Elems(after.vm.block.entries) <==>
            e in B.Elems(m.vm.block.entries) && !(e.start == addr && End(e) < WORD))
      && SameBytes(T.Zone(after.lists, less), T.Zone(m.lists, live))
      && ((forall e :: e in B.Elems(m.vm.block.entries) && e.start == addr ==> End(e) == WORD) ==>
            after == m && less == live)
      && ((exists e :: e in B.Elems(m.vm.block.entries) && e.start == addr && End(e) < WORD) ==>
            && addr in m.objects && after.objects == m.objects - {addr}
            && less == live - Held(m.objects[addr]).Keys)
      && (forall e :: e in B.Elems(m.vm.block.entries) && e.start == addr && End(e) < WORD ==>
            Rejoined(B.Elems(m.vm.block.atree), B.Elems(after.vm.block.atree), e))
  {
    hide BlockInv, WholePages, R.Valid, T.ZoneInv, Owned, MappedTo, Held, B.Elems, OwnRange, Owns, Release, Released,
        GiveBack, P.Vpn, SameBytes, Rejoined;
    less := live;
    SameRefl(T.Zone(m.lists, live));
    EntriesInside(m.vm.block, c.lo, c.hi);
    ReleaseKeepsBlock(m.vm.block, c.lo, c.hi, addr);
    ReleasedWhole(m.vm.block, c.lo, c.hi, addr);
    forall e
      ensures Released(m.vm.block, addr) == Some(e) <==>
        e in B.Elems(m.vm.block.entries) && e.start == addr && End(e) < WORD
    {
      ReleasedExactly(m.vm.block, c.lo, c.hi, addr, e);
    }
    if Released(m.vm.block, addr).Some? {
      var e := Released(m.vm.block, addr).value;
      assert e.start in m.objects;
      var pages := m.objects[addr];
      less := live - Held(pages).Keys;
      ReleaseJoins(m.vm.block, c.lo, c.hi, e);
      ObjectOwned(live, m.objects, addr);
      GiveBackKeeps(T.Zone(m.lists, live), pages);
      OwnedDrops(live, m.objects, addr);
      OnlyAt(m.vm.block, c.lo, c.hi, e);
      BackedDrops(m, ReleaseRequest(m, addr), c, addr);
    }
  }

  lemma SameRefl(z: T.Zone)
    ensures SameBytes(z, z)
  {
  }

  lemma ObjectOwned(live: map<nat, nat>, objects: map<nat, seq<Page>>, a: nat)
    requires Owned(live, objects) && a in objects
    ensures Distinct(objects[a]) && InHand(live, objects[a])
  {
  }

  lemma OnlyAt(b: Block, lo: nat, hi: nat, e: Extent)
    requires BlockInv(b, lo, hi) && e in B.Elems(b.entries)
    ensures forall g :: g in B.Elems(b.entries) && g.start == e.start ==> g == e
  {
    var s := B.Elems(b.entries) + B.Elems(b.atree);
    forall g | g in B.Elems(b.entries) && g.start == e.start
      ensures g == e
    {
      assert g in s && e in s && (g != e ==> Disjoint(g, e)) && g.size > 0 && e.size > 0;
    }
  }

  lemma BackedDrops(m: Memory, after: Memory, c: Frame, addr: nat)
    requires Backed(m, c.flags) && after.vm.space == m.vm.space && after.objects == m.objects - {addr}
    requires forall e :: e in B.Elems(after.vm.block.entries) <==> e in B.Elems(m.vm.block.entries) && e.start != addr
    ensures Backed(after, c.flags)
  {
    hide B.Elems, MappedTo, P.Vpn;
    forall a
      ensures a in after.objects <==> exists g :: g in B.Elems(after.vm.block.entries) && g.start == a
    {
      if a in m.objects && a != addr {
        var g :| g in B.Elems(m.vm.block.entries) && g.start == a;
        assert g in B.Elems(after.vm.block.entries);
      }
    }
  }

  // ---- Whole runs ---------------------------------------------------------------------------------

  datatype Op = AllocateOp(nr: nat, budget: nat) | ReleaseOp(addr: nat)

  function Step(m: Memory, op: Op, flags: Flags): Memory {
    match op
    case AllocateOp(nr, budget) => AllocateRequest(m, nr, flags, budget).0
    case ReleaseOp(addr) => ReleaseRequest(m, addr)
  }

  function Run(m: Memory, ops: seq<Op>, flags: Flags): Memory
    decreases |ops|
  {
    if ops == [] then m else Run(Step(m, ops[0], flags), ops[1..], flags)
  }

  ghost predicate AllowedRun(m: Memory, ops: seq<Op>, flags: Flags)
    decreases |ops|
  {
    ops == [] ||
    ((ops[0].AllocateOp? ==> Allowed(m, ops[0].nr)) && AllowedRun(Step(m, ops[0], flags), ops[1..], flags))
  }

  lemma StepSound(m: Memory, live: map<nat, nat>, c: Frame, op: Op) returns (next: map<nat, nat>)
    requires Sound(m, live, c) && (op.AllocateOp? ==> Allowed(m, op.nr))
    ensures var after := Step(m, op, c.flags);
      && Sound(after, next, c) && Grown(m, after, c.shared)
      && SameBytes(T.Zone(after.lists, next), T.Zone(m.lists, live))
  {
    hide Sound, AllocateRequest, ReleaseRequest, SameBytes, P.Translate, Allowed, B.Elems;
    match op
    case AllocateOp(nr, budget) => next := AllocateSound(m, live, c, nr, budget);
    case ReleaseOp(addr) => next := ReleaseEndToEnd(m, live, c, addr);
  }

  /** Over every run: the ledger tiles the block, each entry is backed by blocks of its own and
      mapped to them, the zone's bytes are conserved, and no translation is ever taken back. */
  lemma {:induction false} RunSound(m: Memory, live: map<nat, nat>, c: Frame, ops: seq<Op>)
    returns (last: map<nat, nat>)
    requires Sound(m, live, c) && AllowedRun(m, ops, c.flags)
    ensures var after := Run(m, ops, c.flags);
      && Sound(after, last, c) && Grown(m, after, c.shared)
      && SameBytes(T.Zone(after.lists, last), T.Zone(m.lists, live))
    decreases |ops|
  {
    hide Sound, Step, Allowed, SameBytes, Grown;
    last := live;
    SameRefl(T.Zone(m.lists, live));
    GrownRefl(m, c.shared);
    if ops != [] {
      var next := StepSound(m, live, c, ops[0]);
      var t := Step(m, ops[0], c.flags);
      last := RunSound(t, next, c, ops[1..]);
      var after := Run(m, ops, c.flags);
      GrownTrans(m, t, after, c.shared);
      BytesTrans(T.Zone(after.lists, last), T.Zone(t.lists, next), T.Zone(m.lists, live));
    }
  }

  lemma GrownRefl(m: Memory, shared: set<nat>)
    ensures Grown(m, m, shared)
  {
  }

  lemma GrownTrans(m: Memory, t: Memory, after: Memory, shared: set<nat>)
    requires Grown(m, t, shared) && Grown(t, after, shared)
    ensures Grown(m, after, shared)
  {
    hide P.Translate, R.Own;
  }

  lemma BytesTrans(x: T.Zone, y: T.Zone, z: T.Zone)
    requires SameBytes(x, y) && SameBytes(y, z)
    ensures SameBytes(x, z)
  {
    SameTrans(x, y, z);
  }

  // ---- Requests of less than a superpage ------------------------------------------------------

  /** The block holds no superpage. */
  ghost predicate SmallPages(m: Memory, c: Frame) {
    forall w: nat :: P.Vpn(c.lo) <= w < P.Vpn(c.lo) + (c.hi - c.lo) / 4096 ==> !O.IsSuper(P.Translate(m.vm.space, w))
  }

  lemma {:induction false} SmallLevels(s: P.Space, v: nat, pages: seq<Page>, flags: Flags, w: nat)
    requires MappedTo(s, v, pages, flags) && Total(pages) < 512 && v <= w < v + Total(pages)
    ensures !O.IsSuper(P.Translate(s, w))
    decreases |pages|
  {
    hide P.Translate;
    if pages != [] {
      var k := pages[0].order;
      if k >= 9 {
        assert Pow2(9) == 512;
        Monotone(9, k);
      }
      if w >= v + Pow2(k) { SmallLevels(s, v + Pow2(k), pages[1..], flags, w); }
    }
  }

  lemma SmallAllowed(m: Memory, live: map<nat, nat>, c: Frame, nr: nat)
    requires Sound(m, live, c) && SmallPages(m, c) && 1 <= nr < 512
    ensures Allowed(m, nr)
  {
    hide Sound, P.Translate, Placed, SearchSize, P.Vpn, R.Own, B.Elems, O.IsSuper;
    assert Snug(m.vm.block, nr);
    if Fit(m, nr).Some? { FitPlace(m, live, c, nr); }
  }

  lemma SmallStays(m: Memory, live: map<nat, nat>, c: Frame, nr: nat, budget: nat)
    requires Sound(m, live, c) && SmallPages(m, c) && 1 <= nr < 512
    ensures SmallPages(AllocateRequest(m, nr, c.flags, budget).0, c)
  {
    hide AllocateRequest, P.Translate, P.Vpn, MappedTo, Placed, SearchSize, R.Valid, BlockInv, Owned, B.Elems, Need,
        Snug, ClearTail, T.ZoneInv, O.IsSuper, Affordable;
    SmallAllowed(m, live, c, nr);
    if Fit(m, nr).Some? { FitInside(m, live, c, nr); }
    AllocateEndToEnd(m, live, c.lo, c.hi, c.shared, c.pool, nr, c.flags, budget);
    var (after, r) := AllocateRequest(m, nr, c.flags, budget);
    forall w: nat | P.Vpn(c.lo) <= w < P.Vpn(c.lo) + (c.hi - c.lo) / 4096
      ensures !O.IsSuper(P.Translate(after.vm.space, w))
    {
      assert R.Own(w, c.shared);
      if r.Some? && P.Vpn(r.value) <= w < P.Vpn(r.value) + nr {
        SmallLevels(after.vm.space, P.Vpn(r.value), after.objects[r.value], c.flags, w);
      }
    }
  }

  /** In a block without superpages, every run of requests of 1 to 511 pages and of releases is allowed. */
  lemma {:induction false} SmallRunsAllowed(m: Memory, live: map<nat, nat>, c: Frame, ops: seq<Op>)
    requires Sound(m, live, c) && SmallPages(m, c)
    requires forall i :: 0 <= i < |ops| && ops[i].AllocateOp? ==> 1 <= ops[i].nr < 512
    ensures AllowedRun(m, ops, c.flags)
    decreases |ops|
  {
    hide Sound, AllocateRequest, P.Translate, Allowed, SameBytes, Grown, B.Elems;
    if ops != [] {
      var op := ops[0];
      if op.AllocateOp? {
        SmallAllowed(m, live, c, op.nr);
        SmallStays(m, live, c, op.nr, op.budget);
      } else {
        var less := ReleaseEndToEnd(m, live, c, op.addr);
      }
      var next := StepSound(m, live, c, op);
      SmallRunsAllowed(Step(m, op, c.flags), next, c, ops[1..]);
    }
  }

  // ---- A place is given out once ----------------------------------------------------------------

  /** The pages from v on meet the pages of e. */
  ghost predicate Meets(v: nat, nr: nat, e: Extent, w: nat) {
    v <= w < v + nr && P.Vpn(e.start) <= w < P.Vpn(e.start) + e.size / 4096
  }

  /** Once a page of the extent found has been part of an entry, the allocation is refused, however
      much memory is free, and however many releases and allocations came in between. */
  lemma NeverGivenOutTwice(m: Memory, live: map<nat, nat>, c: Frame, e: Extent, ops: seq<Op>, nr: nat, budget: nat,
                           w: nat)
    requires Sound(m, live, c) && e in B.Elems(m.vm.block.entries) && AllowedRun(m, ops, c.flags)
    requires var after := Run(m, ops, c.flags);
      Allowed(after, nr) && Fit(after, nr).Some? && Meets(FirstPage(Fit(after, nr).value, nr), nr, e, w)
    ensures AllocateRequest(Run(m, ops, c.flags), nr, c.flags, budget).1.None?
  {
    hide Run, AllowedRun, AllocateRequest, P.Translate, P.Vpn, MappedTo, Placed, SearchSize, R.Valid, BlockInv, Owned,
        B.Elems, Allowed, Need;
    EntryTranslated(m, live, c, e, w);
    var last := RunSound(m, live, c, ops);
    var after := Run(m, ops, c.flags);
    FitInside(after, last, c, nr);
    EnoughSized(after, nr);
    AllocateEndToEnd(after, last, c.lo, c.hi, c.shared, c.pool, nr, c.flags, budget);
    assert P.Translate(after.vm.space, w).Some?;
  }

  lemma EnoughSized(m: Memory, nr: nat)
    requires Allowed(m, nr)
    ensures Sized(nr) && nr > 0
  {
  }

  lemma EntryTranslated(m: Memory, live: map<nat, nat>, c: Frame, e: Extent, w: nat)
    requires Sound(m, live, c) && e in B.Elems(m.vm.block.entries)
    requires P.Vpn(e.start) <= w < P.Vpn(e.start) + e.size / 4096
    ensures R.Own(w, c.shared) && P.Translate(m.vm.space, w).Some?
  {
    hide P.Translate, P.Vpn, MappedTo, R.Valid, Owned, T.ZoneInv, BlockInv, B.Elems;
    EntriesInside(m.vm.block, c.lo, c.hi);
    assert e in B.Elems(m.vm.block.entries) + B.Elems(m.vm.block.atree);
    ExtentPages(m.vm, c, e);
    assert e.start in m.objects;
    MappedTranslated(m.vm.space, P.Vpn(e.start), m.objects[e.start], c.flags, w);
  }

  // ---- A new block --------------------------------------------------------------------------------

  /** A new block over a space that translates none of its pages. */
  ghost predicate NewMemory(m: Memory, c: Frame) {
    && Bounded(m.vm, c.lo, c.hi, c.shared) && m.vm.block == NewBlock(c.lo, c.hi) && m.objects == map[]
    && R.Valid(m.vm.space, c.shared, c.pool) && T.ZoneInv(T.Zone(m.lists, map[]))
  }

  lemma NewMemorySound(m: Memory, c: Frame)
    requires NewMemory(m, c)
    ensures Sound(m, map[], c)
  {
    hide R.Valid, T.ZoneInv, BlockInv, OwnRange;
    NewBlockValid(c.lo, c.hi);
    WholeDifference(c.lo, c.hi);
    hide Bounded;
    assert B.Elems(m.vm.block.entries) == {} && B.Elems(m.vm.block.atree) == {Extent(c.lo, c.hi - c.lo)};
    assert WholePages(m.vm.block) && Backed(m, c.flags) && Owned(map[], m.objects);
  }

  lemma WholeDifference(lo: nat, hi: nat)
    requires lo <= hi && lo % 4096 == 0 && hi % 4096 == 0
    ensures (hi - lo) % 4096 == 0
  {
  }

  /** Allocating from a new block that ends below 2^64 and releasing again restores the ledger, the
      objects and every free list; but the pages stay translated, so that the next allocation from
      the block is refused, whatever it asks for. */
  lemma PlaceNotReused(m: Memory, c: Frame, nr: nat, budget: nat, again: nat, more: nat)
    requires NewMemory(m, c) && c.hi < WORD && Allowed(m, nr) && AllocateRequest(m, nr, c.flags, budget).1.Some?
    ensures var (first, r) := AllocateRequest(m, nr, c.flags, budget);
      var second := ReleaseRequest(first, c.lo);
      && r == Some(c.lo)
      && second.vm.block == m.vm.block && second.lists == m.lists && second.objects == m.objects
      && (Allowed(second, again) ==> AllocateRequest(second, again, c.flags, more).1.None?)
  {
    hide AllocateRequest, ReleaseRequest, P.Translate, P.Vpn, MappedTo, Placed, SearchSize, R.Valid, BlockInv, Owned,
        B.Elems, Need, Held, GiveBack, T.ZoneInv, Run, AllowedRun, Allocate, Release, Snug, ClearTail, OwnRange;
    NewMemorySound(m, c);
    FitOfNew(m, c, nr);
    ServedFits(m, nr, c.flags, budget);
    FitInside(m, map[], c, nr);
    AllocateEndToEnd(m, map[], c.lo, c.hi, c.shared, c.pool, nr, c.flags, budget);
    var (first, r) := AllocateRequest(m, nr, c.flags, budget);
    var e := Extent(c.lo, 4096 * nr);
    CarvedIs(m, c, nr, budget, Extent(c.lo, c.hi - c.lo));
    NewBlockAgain(c.lo, c.hi, nr);
    var live := AllocateSound(m, map[], c, nr, budget);
    GiveBackRestores(T.Zone(m.lists, map[]), first.lists, first.objects[c.lo]);
    FrameKept(m, nr, c.flags, budget);
    ReleasedExactly(first.vm.block, c.lo, c.hi, c.lo, e);
    var second := ReleaseRequest(first, c.lo);
    ReleasedIs(m, first, c.lo, e);
    if Allowed(second, again) {
      RefusedAfter(first, second, live, c, e, again, more);
    }
  }

  lemma FitOfNew(m: Memory, c: Frame, nr: nat)
    requires c.lo < c.hi && m.vm.block == NewBlock(c.lo, c.hi)
    ensures Fit(m, nr).Some? <==> SearchSize(nr) <= c.hi - c.lo
    ensures Fit(m, nr).Some? ==> Fit(m, nr).value == Extent(c.lo, c.hi - c.lo)
  {
    hide SearchSize;
    var f, n := Extent(c.lo, c.hi - c.lo), SearchSize(nr);
    assert m.vm.block.stree == B.Node(B.Leaf, f, B.Leaf);
    assert BestFit(B.Leaf, n, Some(f)) == Some(f) && BestFit(B.Leaf, n, None) == None;
  }

  lemma ReleasedIs(m: Memory, first: Memory, addr: nat, e: Extent)
    requires first.vm.first <= addr <= first.vm.last && Released(first.vm.block, addr) == Some(e)
    requires m.objects == map[] && addr in first.objects && first.objects == m.objects[addr := first.objects[addr]]
    ensures var second := ReleaseRequest(first, addr);
      && second.vm == first.vm.(block := Release(first.vm.block, addr))
      && second.lists == GiveBack(first.lists, first.objects[addr]) && second.objects == m.objects
  {
    hide Released, Release, GiveBack;
    assert first.objects - {addr} == map[];
  }

  lemma RefusedAfter(first: Memory, second: Memory, live: map<nat, nat>, c: Frame, e: Extent, nr: nat, budget: nat)
    requires Sound(first, live, c) && c.lo < c.hi
    requires e in B.Elems(first.vm.block.entries) && e.start == c.lo && e.size >= 4096
    requires second == ReleaseRequest(first, c.lo) && second.vm.block == NewBlock(c.lo, c.hi) && Allowed(second, nr)
    ensures AllocateRequest(second, nr, c.flags, budget).1.None?
  {
    hide AllocateRequest, ReleaseRequest, P.Translate, P.Vpn, SearchSize, Sound, B.Elems, ClearTail, Snug;
    var ops := [Op.ReleaseOp(c.lo)];
    assert ops[1..] == [];
    assert Step(first, ops[0], c.flags) == second;
    assert Run(second, ops[1..], c.flags) == second;
    assert AllowedRun(second, ops[1..], c.flags);
    assert Run(first, ops, c.flags) == second && AllowedRun(first, ops, c.flags);
    FitOfNew(second, c, nr);
    if Fit(second, nr).Some? {
      EnoughSized(second, nr);
      var live2 := ReleaseEndToEnd(first, live, c, c.lo);
      FitInside(second, live2, c, nr);
      assert Meets(FirstPage(Fit(second, nr).value, nr), nr, e, P.Vpn(c.lo));
      NeverGivenOutTwice(first, live, c, e, ops, nr, budget, P.Vpn(c.lo));
    }
    ServedFits(second, nr, c.flags, budget);
  }

  lemma ServedFits(m: Memory, nr: nat, flags: Flags, budget: nat)
    ensures AllocateRequest(m, nr, flags, budget).1.Some? ==> Fit(m, nr).Some?
  {
  }
}
