/** The virtual memory manager of one block, updated in place. */
module VirtualMemory {
  import opened Basics
  import opened ArchMemory
  import opened BuddyModel
  import opened Ledger
  import opened LedgerCode
  import opened LedgerTheorems
  import opened PageAllocation
  import opened PageBacking
  import opened PageTableDemand
  import opened PowersOfTwo
  import opened Wire
  import opened WirePages
  import A = AddressSpace
  import B = Btree
  import BtreeCode
  import BuddyZone
  import C = ArchMemoryCode
  import G = GreedyRuns
  import P = PageTableModel

  /** The rest of the loop from here completes the loop from the start. */
  ghost predicate Continues(s0: P.Space, v0: nat, p0: nat, n0: nat, flags: Flags, b0: nat,
                            s: P.Space, v: nat, p: nat, n: nat, b: nat, pages: seq<Page>) {
    var (t, rest, ok) := MapRange(s, v, p, n, flags, b);
    MapRange(s0, v0, p0, n0, flags, b0) == (t, pages + rest, ok)
  }

  lemma ContinuesStart(s: P.Space, v: nat, p: nat, n: nat, flags: Flags, b: nat)
    ensures Continues(s, v, p, n, flags, b, s, v, p, n, b, [])
  {
    hide MapRange;
    var (t, rest, ok) := MapRange(s, v, p, n, flags, b);
    assert [] + rest == rest;
  }

  lemma ContinuesStep(s0: P.Space, v0: nat, p0: nat, n0: nat, flags: Flags, b0: nat,
                      s: P.Space, v: nat, p: nat, n: nat, b: nat, pages: seq<Page>, k: nat, t: P.Space)
    requires Continues(s0, v0, p0, n0, flags, b0, s, v, p, n, b, pages) && n > 0 && b > 0
    requires k == G.OrderFrom(v, p, 4096 * n, 0) && Pow2(k) <= n
    requires ArchMap(s, v, Page(4096 * p, k, true), flags) == (t, true)
    ensures Continues(s0, v0, p0, n0, flags, b0, t, v + Pow2(k), p + Pow2(k), n - Pow2(k), b - 1,
        pages + [Page(4096 * p, k, true)])
  {
    hide ArchMap, Pow2, G.OrderFrom;
    G.OrderFits(v, p, n);
    var page := Page(4096 * p, k, true);
    var (u, rest, ok) := MapRange(t, v + Pow2(k), p + Pow2(k), n - Pow2(k), flags, b - 1);
    assert MapRange(s, v, p, n, flags, b).1 == [page] + rest;
    assert pages + ([page] + rest) == pages + [page] + rest;
  }

  lemma ContinuesEnd(s0: P.Space, v0: nat, p0: nat, n0: nat, flags: Flags, b0: nat,
                     s: P.Space, v: nat, p: nat, n: nat, b: nat, pages: seq<Page>)
    requires Continues(s0, v0, p0, n0, flags, b0, s, v, p, n, b, pages)
    ensures n == 0 ==> MapRange(s0, v0, p0, n0, flags, b0) == (s, pages, true)
    ensures n > 0 && b == 0 ==> MapRange(s0, v0, p0, n0, flags, b0) == (s, pages, false)
  {
    assert pages + [] == pages;
  }

  lemma ContinuesFailed(s0: P.Space, v0: nat, p0: nat, n0: nat, flags: Flags, b0: nat,
                        s: P.Space, v: nat, p: nat, n: nat, b: nat, pages: seq<Page>, k: nat, t: P.Space)
    requires Continues(s0, v0, p0, n0, flags, b0, s, v, p, n, b, pages) && n > 0 && b > 0
    requires k == G.OrderFrom(v, p, 4096 * n, 0)
    requires ArchMap(s, v, Page(4096 * p, k, true), flags) == (t, false)
    ensures MapRange(s0, v0, p0, n0, flags, b0) == (t, pages, false)
  {
    hide ArchMap, G.OrderFrom;
    assert pages + [] == pages;
  }

  /** One step of the loop, in bytes and in pages. */
  lemma ByteStep(v: nat, k: nat, end: nat)
    requires v % 4096 == 0 && end % 4096 == 0 && v <= end && Pow2(k) <= (end - v) / 4096
    ensures var w := v + Pow2(k + 12);
      && v < w <= end && w % 4096 == 0 && w / 4096 == v / 4096 + Pow2(k)
      && (end - w) / 4096 == (end - v) / 4096 - Pow2(k)
  {
    assert Pow2(12) == 4096;
    Sum(k, 12);
  }

  lemma AddressStep(p: nat, k: nat)
    ensures (p + Pow2(k + 12)) % 4096 == p % 4096 && (p + Pow2(k + 12)) / 4096 == p / 4096 + Pow2(k)
  {
    assert Pow2(12) == 4096;
    Sum(k, 12);
  }

  // ---- The backing loop ---------------------------------------------------------------------

  /** The rest of the backing loop from here completes the loop from the start. */
  ghost predicate BackContinues(l0: Lists, s0: P.Space, v0: nat, n0: nat, flags: Flags, b0: nat,
                                l: Lists, s: P.Space, v: nat, n: nat, b: nat, pages: seq<Page>) {
    var (m, t, rest, ok) := Back(l, s, v, n, flags, b);
    Back(l0, s0, v0, n0, flags, b0) == (m, t, pages + rest, ok)
  }

  lemma BackStart(l: Lists, s: P.Space, v: nat, n: nat, flags: Flags, b: nat)
    ensures BackContinues(l, s, v, n, flags, b, l, s, v, n, b, [])
  {
    hide Back;
    var (m, t, rest, ok) := Back(l, s, v, n, flags, b);
    assert [] + rest == rest;
  }

  /** With no page left the loop is done. */
  lemma BackEnds(l0: Lists, s0: P.Space, v0: nat, n0: nat, flags: Flags, b0: nat,
                 l: Lists, s: P.Space, v: nat, b: nat, pages: seq<Page>)
    requires BackContinues(l0, s0, v0, n0, flags, b0, l, s, v, 0, b, pages)
    ensures Back(l0, s0, v0, n0, flags, b0) == (l, s, pages, true)
  {
    assert pages + [] == pages;
  }

  /** One turn of the backing loop: a record, a block and its mapping, or nothing. */
  function BackOne(l: Lists, s: P.Space, v: nat, k: nat, flags: Flags, b: nat): (Lists, P.Space, Option<Page>) {
    var (r, left) := Alloc(l, k);
    if b == 0 then (l, s, None)
    else if r.None? then (left, s, None)
    else
      var page := Page(r.value, k, true);
      var (t, ok) := ArchMap(s, v, page, flags);
      if ok then (left, t, Some(page)) else (InsertBuddy(left, r.value, k), t, None)
  }

  /** A turn that gives nothing ends the loop; any other leads to the rest. */
  lemma BackTurn(l0: Lists, s0: P.Space, v0: nat, n0: nat, flags: Flags, b0: nat,
                 l: Lists, s: P.Space, v: nat, n: nat, b: nat, pages: seq<Page>, m: Lists, t: P.Space, r: Option<Page>)
    requires BackContinues(l0, s0, v0, n0, flags, b0, l, s, v, n, b, pages) && n > 0
    requires BackOne(l, s, v, BlockOrder(n), flags, b) == (m, t, r)
    ensures r.None? ==> Back(l0, s0, v0, n0, flags, b0) == (m, t, pages, false)
    ensures r.Some? ==> b > 0 && BackContinues(l0, s0, v0, n0, flags, b0, m, t, v + Stretch(n), n - Stretch(n), b - 1,
        pages + [r.value])
  {
    hide Alloc, ArchMap, InsertBuddy, Stretch;
    assert pages + [] == pages;
    if r.Some? {
      var (m', u, rest, ok) := Back(m, t, v + Stretch(n), n - Stretch(n), flags, b - 1);
      assert Back(l, s, v, n, flags, b) == (m', u, [r.value] + rest, ok);
      assert pages + ([r.value] + rest) == pages + [r.value] + rest;
    }
  }

  class VirtualMemory {
    const space: A.AddressSpace
    const zone: BuddyZone.Zone
    const ledger: LedgerBlock
    const first: nat
    const last: nat
    const flags: Flags
    var budget: nat  // records the allocator can still hand out
    var objects: map<nat, seq<Page>>  // the pages behind each entry, by its start

    constructor (space: A.AddressSpace, zone: BuddyZone.Zone, ledger: LedgerBlock, first: nat, last: nat, flags: Flags,
                 budget: nat)
      ensures this.space == space && this.zone == zone && this.ledger == ledger && this.flags == flags &&
          this.budget == budget
      ensures this.first == first && this.last == last && objects == map[]
    {
      this.space, this.zone, this.ledger, this.flags, this.budget := space, zone, ledger, flags, budget;
      this.first, this.last, objects := first, last, map[];
    }

    ghost function State(): Vm
      reads ledger, space, space.memory
    {
      Vm(ledger.Contents(), first, last, space.State())
    }

    ghost function Contents(): Memory
      reads this, ledger, space, space.memory, zone, zone.heads
      requires zone.heads.Length == MAX_ORDER + 1
    {
      Memory(State(), zone.heads[..], objects)
    }

    /** Map the range run by run; `pages` lists the runs mapped so far. */
    method MapRuns(virtual: nat, physical: nat, end: nat) returns (pages: seq<Page>, ok: bool)
      requires virtual % 4096 == 0 && physical % 4096 == 0 && end % 4096 == 0
      requires virtual <= end <= WORD && (virtual > 0 || G.Shifts(virtual, physical, end - virtual))
      modifies `budget, space, space.memory
      ensures (space.State(), pages, ok) ==
        MapRange(old(space.State()), virtual / 4096, physical / 4096, (end - virtual) / 4096, flags, old(budget))
    {
      hide ArchMap, Continues, MapRange, Pow2, G.OrderFrom, Aligned, Count, Stride, G.Shifts;
      var v: nat, p: nat := virtual, physical;
      ghost var s0, v0, p0 := space.State(), virtual / 4096, physical / 4096;
      ghost var n0: nat := (end - virtual) / 4096;
      pages := [];
      ContinuesStart(s0, v0, p0, n0, flags, budget);
      while v < end
        invariant virtual <= v <= end && v % 4096 == 0 && p % 4096 == 0 && (v > 0 || G.Shifts(v, p, end - v))
        invariant Continues(s0, v0, p0, n0, flags, old(budget),
                            space.State(), v / 4096, p / 4096, (end - v) / 4096, budget, pages)
        decreases end - v
      {
        ghost var s, x, f, b := space.State(), v / 4096, p / 4096, budget;
        ghost var n: nat := (end - v) / 4096;
        assert n > 0 && end - v == 4096 * n;
        ContinuesEnd(s0, v0, p0, n0, flags, old(budget), s, x, f, n, b, pages);
        if budget == 0 {
          return pages, false;
        }
        budget := budget - 1;
        if v > 0 { NotAtZero(v, p, end - v); }
        var order := G.Order(v, p, end - v);
        G.OrderFits(x, f, n);
        var page := Page(p, order, true);
        ok := C.MapPages(space, v, page, flags);
        if !ok {
          ContinuesFailed(s0, v0, p0, n0, flags, old(budget), s, x, f, n, b, pages, order, space.State());
          return pages, false;
        }
        ContinuesStep(s0, v0, p0, n0, flags, old(budget), s, x, f, n, b, pages, order, space.State());
        ByteStep(v, order, end);
        AddressStep(p, order);
        v, p := v + Pow2(order + 12), p + Pow2(order + 12);
        pages := pages + [page];
      }
      ContinuesEnd(s0, v0, p0, n0, flags, old(budget), space.State(), v / 4096, p / 4096, 0, budget, pages);
      return pages, true;
    }

    /** Unmap the recorded runs from the start of the range. */
    method UndoRuns(virtual: nat, pages: seq<Page>)
      modifies space, space.memory
      ensures space.State() == Rollback(old(space.State()), virtual / 4096, pages)
    {
      hide ArchUnmap, Pow2;
      var v: nat, i: nat := virtual, 0;
      assert pages[0..] == pages;
      while i < |pages|
        invariant 0 <= i <= |pages|
        invariant Rollback(old(space.State()), virtual / 4096, pages) == Rollback(space.State(), v / 4096, pages[i..])
      {
        assert pages[i..][1..] == pages[i + 1..];
        C.UnmapPages(space, v, pages[i]);
        AddressStep(v, pages[i].order);
        v := v + Pow2(pages[i].order + 12);
        i := i + 1;
      }
    }

    /** Wire nr pages, or leave everything as it was. */
    method WirePages(virtual: nat, nr: nat, physical: nat) returns (ok: bool)
      requires ledger.Valid() && virtual < WORD
      requires virtual > 0 || G.Shifts(virtual, physical, 4096 * LoopPages(virtual, nr))
      modifies this, space, space.memory
      modifies ledger, B.Elems(ledger.te), B.Elems(ledger.ta), B.Elems(ledger.ts)
      ensures ledger.Valid()
      ensures (State(), ok) == WireRequest(old(State()), virtual, nr, physical, flags, old(budget))
    {
      hide MapRange, Rollback, Carved, Kept, Pairs, BtreeCode.Rep, B.Elems, BtreeCode.Values, Wrap, B.Search;
      if virtual % 4096 != 0 {
        return false;
      }
      if physical % 4096 != 0 {
        return false;
      }
      if !(first <= virtual <= last) {
        return false;
      }
      var f := ledger.FindFree(FitWord(virtual));
      if f == null {
        return false;
      }
      var size := Wrap(4096 * nr);
      var end := Wrap(virtual + size);
      if end > Wrap(End(f.extent)) {
        return false;
      }
      if budget < FIXED_RECORDS {
        return false;
      }
      budget := budget - FIXED_RECORDS;
      WholePages(virtual, nr);
      ledger.NodesAlive();
      var pages;
      pages, ok := MapRuns(virtual, physical, if virtual < end then end else virtual);
      if ok {
        ok := ledger.CarveEntry(f, Extent(virtual, size));
      }
      if !ok {
        ledger.NodesAlive();
        UndoRuns(virtual, pages);
      }
    }

    /** A record, a block of the order, and its mapping; a block that cannot be mapped goes back. */
    method BackStretch(virtual: nat, order: nat) returns (r: Option<Page>)
      requires zone.Valid()
      modifies `budget, zone.heads, space, space.memory
      ensures (zone.heads[..], space.State(), r) ==
        BackOne(old(zone.heads[..]), old(space.State()), virtual / 4096, order, flags, old(budget))
      ensures r.Some? ==> budget + 1 == old(budget)
    {
      hide ArchMap, Alloc, InsertBuddy;
      if budget == 0 {
        return None;
      }
      budget := budget - 1;
      var b := zone.Allocate(order);
      if b.None? {
        return None;
      }
      var page := Page(b.value, order, true);
      var ok := C.MapPages(space, virtual, page, flags);
      if !ok {
        zone.Release(b.value, order);
        return None;
      }
      return Some(page);
    }

    /** Take and map superpages while 512 pages are left, then single pages; `pages` lists those
        mapped so far. */
    method BackPages(virtual: nat, nr: nat) returns (pages: seq<Page>, ok: bool)
      requires zone.Valid()
      modifies `budget, zone.heads, space, space.memory
      ensures (zone.heads[..], space.State(), pages, ok) ==
        Back(old(zone.heads[..]), old(space.State()), virtual / 4096, nr, flags, old(budget))
    {
      hide BackOne, BackContinues, Back;
      ghost var l0: Lists, s0, v0, b0 := zone.heads[..], space.State(), virtual / 4096, budget;
      var i: nat := 0;
      var r;
      pages := [];
      BackStart(l0, s0, v0, nr, flags, b0);
      while i + 512 <= nr
        invariant 0 <= i <= nr
        invariant BackContinues(l0, s0, v0, nr, flags, b0, zone.heads[..], space.State(), v0 + i, nr - i, budget, pages)
      {
        ghost var l: Lists, s, b := zone.heads[..], space.State(), budget;
        PageNumber(virtual, i);
        r := BackStretch(virtual + 4096 * i, 9);
        BackTurn(l0, s0, v0, nr, flags, b0, l, s, v0 + i, nr - i, b, pages, zone.heads[..], space.State(), r);
        if r.None? {
          return pages, false;
        }
        pages := pages + [r.value];
        i := i + 512;
      }
      while i < nr
        invariant 0 <= i <= nr && nr - i < 512
        invariant BackContinues(l0, s0, v0, nr, flags, b0, zone.heads[..], space.State(), v0 + i, nr - i, budget, pages)
      {
        ghost var l: Lists, s, b := zone.heads[..], space.State(), budget;
        PageNumber(virtual, i);
        r := BackStretch(virtual + 4096 * i, 0);
        BackTurn(l0, s0, v0, nr, flags, b0, l, s, v0 + i, nr - i, b, pages, zone.heads[..], space.State(), r);
        if r.None? {
          return pages, false;
        }
        pages := pages + [r.value];
        i := i + 1;
      }
      BackEnds(l0, s0, v0, nr, flags, b0, zone.heads[..], space.State(), v0 + nr, budget, pages);
      return pages, true;
    }

    /** Give the blocks of the pages back, in order. */
    method ReturnPages(pages: seq<Page>)
      requires zone.Valid()
      modifies zone.heads
      ensures zone.heads[..] == GiveBack(old(zone.heads[..]), pages)
    {
      hide InsertBuddy;
      var i: nat := 0;
      assert pages[0..] == pages;
      while i < |pages|
        invariant 0 <= i <= |pages|
        invariant GiveBack(old(zone.heads[..]), pages) == GiveBack(zone.heads[..], pages[i..])
      {
        assert pages[i..][1..] == pages[i + 1..];
        zone.Release(pages[i].physical, pages[i].order);
        i := i + 1;
      }
    }

    /** Back and map the pages at their place in the free record, and carve it; or undo everything. */
    method AllocateInside(f: BtreeCode.FreeRecord, start: nat, nr: nat) returns (r: Option<nat>)
      requires ledger.Valid() && zone.Valid() && f in ledger.records && start == Placed(f.extent, nr)
      modifies this, zone.heads, space, space.memory
      modifies ledger, B.Elems(ledger.te), B.Elems(ledger.ta), B.Elems(ledger.ts)
      ensures ledger.Valid()
      ensures (Contents(), r) == AllocateIn(old(Contents()), f.extent, nr, flags, old(budget))
    {
      hide Back, GiveBack, Rollback, Carved, Kept, Pairs, BtreeCode.Rep, B.Elems, BtreeCode.Values, WordParts, Wrap,
          Placed;
      ledger.NodesAlive();
      var pages, ok := BackPages(start, nr);
      if ok {
        ok := ledger.CarveEntry(f, Extent(start, Wrap(4096 * nr)));
      }
      if !ok {
        ledger.NodesAlive();
        UndoRuns(start, pages);
        ReturnPages(pages);
        return None;
      }
      objects := objects[start := pages];
      return Some(start);
    }

    /** Allocate pages: an extent of the block, physical pages and their mappings. */
    method AllocatePages(nr: nat) returns (r: Option<nat>)
      requires ledger.Valid() && zone.Valid()
      modifies this, zone.heads, space, space.memory
      modifies ledger, B.Elems(ledger.te), B.Elems(ledger.ta), B.Elems(ledger.ts)
      ensures ledger.Valid()
      ensures (Contents(), r) == AllocateRequest(old(Contents()), nr, flags, old(budget))
    {
      hide AllocateIn, Kept, Pairs, BtreeCode.Rep, B.Elems, BtreeCode.Values, BestFit, Wrap;
      var size := Wrap(4096 * nr);
      var f := ledger.FindFit(if size >= SUPERPAGE then Wrap(size + SUPERPAGE) else size);
      if f == null {
        return None;
      }
      if budget < FIXED_RECORDS {
        return None;
      }
      budget := budget - FIXED_RECORDS;
      var start := f.extent.start;
      if size >= SUPERPAGE && start % SUPERPAGE != 0 {
        var x := Wrap(start + (SUPERPAGE - 1));
        start := x - x % SUPERPAGE;
      }
      r := AllocateInside(f, start, nr);
    }

    /** Release the entry at the address: its pages go back to the zone, its place to the ledger. */
    method ReleasePages(addr: nat)
      requires ledger.Valid() && zone.Valid()
      modifies this, zone.heads
      modifies ledger, B.Elems(ledger.te), B.Elems(ledger.ta), B.Elems(ledger.ts)
      ensures ledger.Valid()
      ensures Contents() == ReleaseRequest(old(Contents()), addr)
    {
      hide GiveBack, Release, Kept, Pairs, BtreeCode.Rep, B.Elems, BtreeCode.Values, B.Search;
      if !(first <= addr <= last) {
        return;
      }
      var n := ledger.FindEntry(FitWord(addr));
      if n == null || n.data.start != addr {
        return;
      }
      ledger.NodesAlive();
      ReturnPages(if addr in objects then objects[addr] else []);
      objects := objects - {addr};
      ledger.ReleasePages(addr);
    }
  }

  /** Above address 0 no shift leaves the word. */
  lemma NotAtZero(v: nat, p: nat, size: nat)
    requires 0 < v < WORD && v % 4096 == 0
    ensures G.Shifts(v, p, size)
  {
    G.HalfWordPower();
    Sum(11, 52);
    assert Pow2(11) == 2048;
    hide Pow2;
    assert 0 < v / 4096 < Pow2(52);
  }

  lemma PageNumber(virtual: nat, i: nat)
    ensures (virtual + 4096 * i) / 4096 == virtual / 4096 + i
  {
  }

  /** The wrapped end of a request is a whole number of pages. */
  lemma WholePages(virtual: nat, nr: nat)
    requires virtual % 4096 == 0
    ensures Wrap(virtual + Wrap(4096 * nr)) % 4096 == 0 && Wrap(virtual + Wrap(4096 * nr)) < WORD
  {
  }
}
