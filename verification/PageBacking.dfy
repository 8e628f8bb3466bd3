/** Backing an allocation with physical memory: superpages as long as 512 pages are left, then
    one page at a time.  The free lists of the zone and the page table move together, or not at all. */
module PageBacking {
  import opened Basics
  import opened ArchMemory
  import opened BuddyInvariant
  import opened BuddyModel
  import opened BuddyTheorems
  import opened BuddyUnits
  import opened PageTableDemand
  import opened PowersOfTwo
  import opened WirePages
  import O = PageTableOps
  import P = PageTableModel
  import R = PageTableRuns
  import T = PageTableSteps
  import U = BuddyUnique

  /** The order of the next block when n pages are left. */
  function BlockOrder(n: nat): nat {
    if n >= 512 then 9 else 0
  }

  lemma OrderStretch(n: nat)
    ensures Pow2(BlockOrder(n)) == Stretch(n) && IsSuperRun(BlockOrder(n)) == (n >= 512)
  {
    assert Pow2(9) == 512;
  }

  /** Take a block, map it, and go on to the next page.  `budget` is how many page records
      the allocator can still supply.  Returns the pages mapped; a block whose mapping
      failed goes back at once. */
  function Back(lists: Lists, s: P.Space, v: nat, n: nat, flags: Flags, budget: nat): (Lists, P.Space, seq<Page>, bool)
    decreases n
  {
    if n == 0 then (lists, s, [], true)
    else if budget == 0 then (lists, s, [], false)
    else
      var k := BlockOrder(n);
      var (r, left) := Alloc(lists, k);
      if r.None? then (left, s, [], false)
      else
        var page := Page(r.value, k, true);
        var (t, ok) := ArchMap(s, v, page, flags);
        if !ok then (InsertBuddy(left, r.value, k), t, [], false)
        else
          var (l, u, pages, done) := Back(left, t, v + Stretch(n), n - Stretch(n), flags, budget - 1);
          (l, u, [page] + pages, done)
  }

  /** Give the blocks of the pages back, in order. */
  function GiveBack(lists: Lists, pages: seq<Page>): Lists
    decreases |pages|
  {
    if pages == [] then lists else GiveBack(InsertBuddy(lists, pages[0].physical, pages[0].order), pages[1..])
  }

  // ---- The free lists -----------------------------------------------------------------------

  /** The blocks behind the pages, as blocks a caller holds. */
  function Held(pages: seq<Page>): map<nat, nat>
    decreases |pages|
  {
    if pages == [] then map[] else Held(pages[1..])[pages[0].physical := pages[0].order]
  }

  predicate Distinct(pages: seq<Page>) {
    forall i, j :: 0 <= i < j < |pages| ==> pages[i].physical != pages[j].physical
  }

  /** The two zones are made of the same bytes. */
  ghost predicate SameBytes(y: Zone, z: Zone) {
    forall x: nat :: Covered(y.lists, x) || HeldByCaller(y, x) <==> Covered(z.lists, x) || HeldByCaller(z, x)
  }

  /** The zone z after the blocks of the pages were handed out. */
  ghost predicate Holding(z: Zone, lists: Lists, pages: seq<Page>) {
    var y := Zone(lists, z.live + Held(pages));
    Distinct(pages) && Held(pages).Keys !! z.live.Keys && ZoneInv(y) && SameBytes(y, z)
  }

  lemma {:induction false} HeldMembers(pages: seq<Page>)
    requires Distinct(pages)
    ensures forall i :: 0 <= i < |pages| ==>
      pages[i].physical in Held(pages) && Held(pages)[pages[i].physical] == pages[i].order
    ensures forall b :: b in Held(pages) ==> exists i :: 0 <= i < |pages| && pages[i].physical == b
    decreases |pages|
  {
    if pages != [] {
      var rest := pages[1..];
      HeldMembers(rest);
      assert forall i :: 0 < i < |pages| ==> pages[i] == rest[i - 1];
      forall b | b in Held(pages)
        ensures exists i :: 0 <= i < |pages| && pages[i].physical == b
      {
        if b == pages[0].physical {
        } else {
          var i :| 0 <= i < |rest| && rest[i].physical == b;
          assert pages[i + 1].physical == b;
        }
      }
    }
  }

  /** A block handed out was in nobody's hands, and is aligned. */
  lemma TakenIsNew(z: Zone, k: nat)
    requires ZoneInv(z) && Alloc(z.lists, k).0.Some?
    ensures Alloc(z.lists, k).0.value !in z.live && AtOrder(Alloc(z.lists, k).0.value, k)
  {
    var b := Alloc(z.lists, k).0.value;
    AllocTakesOneBlock(z.lists, k);
    IntervalsMeet(b, k, b, k);
    assert InBlock(b, b, k) && Covered(z.lists, b);
    forall a | a in z.live ensures !Covered(z.lists, a) {
      IntervalsMeet(a, z.live[a], a, z.live[a]);
      NotCovered(z.lists, a, z.live[a]);
    }
  }

  lemma NothingHeld(z: Zone, lists: Lists)
    requires ZoneInv(z) && lists == z.lists
    ensures Holding(z, lists, [])
  {
    assert z.live + map[] == z.live;
  }

  /** One more block in front. */
  lemma HoldsOneMore(z: Zone, k: nat, lists: Lists, rest: seq<Page>)
    requires ZoneInv(z) && Alloc(z.lists, k).0.Some? && Holding(Step(z, Allocate(k)), lists, rest)
    ensures Holding(z, lists, [Page(Alloc(z.lists, k).0.value, k, true)] + rest)
  {
    hide ZoneInv, Alloc, SameBytes;
    var b, y := Alloc(z.lists, k).0.value, Step(z, Allocate(k));
    var pages := [Page(b, k, true)] + rest;
    TakenIsNew(z, k);
    StepKeepsZone(z, Allocate(k));
    HeldMembers(rest);
    assert pages[1..] == rest;
    assert y.live + Held(rest) == z.live + Held(pages);
    assert b in y.live && b !in Held(rest);
    assert forall i :: 0 < i < |pages| ==> pages[i] == rest[i - 1];
    SameTrans(Zone(lists, z.live + Held(pages)), y, z);
  }

  lemma SameTrans(x: Zone, y: Zone, z: Zone)
    requires SameBytes(x, y)
    requires forall a: nat :: Covered(y.lists, a) || HeldByCaller(y, a) <==> Covered(z.lists, a) || HeldByCaller(z, a)
    ensures SameBytes(x, z)
  {
    hide Covered, HeldByCaller;
  }

  /** The loop holds a block for each page it reports, and nothing else left the lists. */
  lemma {:induction false} BackHolds(z: Zone, s: P.Space, v: nat, n: nat, flags: Flags, budget: nat)
    requires ZoneInv(z)
    ensures var (l, t, pages, ok) := Back(z.lists, s, v, n, flags, budget);
      Holding(z, l, pages)
    decreases n
  {
    hide Holding, Alloc, ArchMap, InsertBuddy, ZoneInv, Stretch;
    NothingHeld(z, z.lists);
    if n > 0 && budget > 0 {
      var k := BlockOrder(n);
      U.ZoneCanonical(z);
      var (r, left) := Alloc(z.lists, k);
      if r.None? {
        AllocTakesOneBlock(z.lists, k);
      } else {
        var page := Page(r.value, k, true);
        var (t, ok) := ArchMap(s, v, page, flags);
        if ok {
          StepKeepsZone(z, Allocate(k));
          BackHolds(Step(z, Allocate(k)), t, v + Stretch(n), n - Stretch(n), flags, budget - 1);
          HoldsOneMore(z, k, Back(left, t, v + Stretch(n), n - Stretch(n), flags, budget - 1).0,
              Back(left, t, v + Stretch(n), n - Stretch(n), flags, budget - 1).2);
        } else {
          AllocThenFree(z.lists, k);
        }
      }
    }
  }

  /** The blocks of the pages are in the caller's hands. */
  predicate InHand(live: map<nat, nat>, pages: seq<Page>) {
    forall i :: 0 <= i < |pages| ==> pages[i].physical in live && live[pages[i].physical] == pages[i].order
  }

  /** Giving blocks back takes exactly them out of the caller's hands. */
  lemma {:induction false} GiveBackKeeps(z: Zone, pages: seq<Page>)
    requires ZoneInv(z) && Distinct(pages) && InHand(z.live, pages)
    ensures var y := Zone(GiveBack(z.lists, pages), z.live - Held(pages).Keys);
      ZoneInv(y) && SameBytes(y, z)
    decreases |pages|
  {
    hide ZoneInv, InsertBuddy, Covered, HeldByCaller;
    if pages == [] {
      assert z.live - Held(pages).Keys == z.live;
    } else {
      var p, rest := pages[0], pages[1..];
      var y := Step(z, Release(p.physical));
      StepKeepsZone(z, Release(p.physical));
      assert forall i :: 0 <= i < |rest| ==> rest[i] == pages[i + 1];
      GiveBackKeeps(y, rest);
      assert y.live - Held(rest).Keys == z.live - Held(pages).Keys;
    }
  }

  /** Giving every page back restores the lists exactly. */
  lemma GiveBackRestores(z: Zone, lists: Lists, pages: seq<Page>)
    requires ZoneInv(z) && Holding(z, lists, pages)
    ensures GiveBack(lists, pages) == z.lists
  {
    hide ZoneInv, GiveBack, Covered, HeldByCaller;
    var y := Zone(lists, z.live + Held(pages));
    HeldMembers(pages);
    GiveBackKeeps(y, pages);
    assert y.live - Held(pages).Keys == z.live;
    U.SameLiveSameLists(Zone(GiveBack(lists, pages), z.live), z);
  }

  // ---- The page table -------------------------------------------------------------------------

  /** The pages are mapped one after the other from v on, each to its own block, a superpage at once. */
  ghost predicate MappedTo(s: P.Space, v: nat, pages: seq<Page>, flags: Flags)
    decreases |pages|
  {
    pages == [] ||
    (var m := Pow2(pages[0].order);
     && (forall w: nat :: v <= w < v + m ==>
           WiredTo(P.Translate(s, w), pages[0].physical / 4096 + (w - v), flags)
           && P.Translate(s, w).value.level == P.LeafLevel(IsSuperRun(pages[0].order)))
     && MappedTo(s, v + m, pages[1..], flags))
  }

  lemma BlockPages(b: nat, k: nat)
    requires AtOrder(b, k)
    ensures Aligned(b / 4096, k) && 4096 * (b / 4096) == b
  {
    assert Pow2(12) == 4096;
    AlignedDown(b, 12, k + 12);
    Sum(k, 12);
    hide Pow2;
    var q := b / Size(k);
    assert b == q * (Pow2(k) * 4096) == 4096 * (q * Pow2(k));
    MultipleIsAligned(q, Pow2(k));
  }

  /** A range that the loop can back: pages of this space, aligned while superpages are taken. */
  ghost predicate Backable(s: P.Space, shared: set<nat>, v: nat, n: nat) {
    OwnRange(v, n, shared) && ClearTail(s, v, n) && (n >= 512 ==> v % 512 == 0)
  }

  /** One step of the loop on the page table. */
  lemma OneStretch(s: P.Space, shared: set<nat>, pool: set<nat>, v: nat, n: nat, flags: Flags, b: nat)
    requires R.Valid(s, shared, pool) && n > 0 && Backable(s, shared, v, n) && AtOrder(b, BlockOrder(n))
    ensures var (t, ok) := ArchMap(s, v, Page(b, BlockOrder(n), true), flags);
      var m := Stretch(n);
      && R.Valid(t, shared, pool) && t.cr3 == s.cr3
      && (forall w: nat :: R.Own(w, shared) && !(ok && v <= w < v + m) ==> P.Translate(t, w) == P.Translate(s, w))
      && (ok ==> forall w: nat :: v <= w < v + m ==>
            WiredTo(P.Translate(t, w), b / 4096 + (w - v), flags) && P.Translate(t, w).Some? &&
                P.Translate(t, w).value.level == P.LeafLevel(n >= 512))
      && (ok ==> Blank(s, v, m) && Backable(t, shared, v + m, n - m))
  {
    hide R.Valid, P.Translate, ArchMap, R.Own, WiredTo;
    var k := BlockOrder(n);
    OrderStretch(n);
    BlockPages(b, k);
    TailStays(v, n);
    assert Aligned(v, k) by { assert Pow2(0) == 1; }
    hide Pow2, Aligned, O.IsSuper;
    RunStep(s, shared, pool, v, b / 4096, n, flags, k);
  }

  /** The loop maps each stretch to its own block and touches no other translation. */
  lemma {:induction false} BackMaps(lists: Lists, s: P.Space, shared: set<nat>, pool: set<nat>, v: nat, n: nat,
                                    flags: Flags, budget: nat)
    requires Canonical(lists) && R.Valid(s, shared, pool) && Backable(s, shared, v, n)
    ensures var (l, t, pages, ok) := Back(lists, s, v, n, flags, budget);
      && R.Valid(t, shared, pool) && t.cr3 == s.cr3 && Total(pages) <= n && (ok <==> Total(pages) == n)
      && MappedTo(t, v, pages, flags) && LivePages(t, shared, v, pages) && Blank(s, v, Total(pages))
      && (forall w: nat :: R.Own(w, shared) && !(v <= w < v + Total(pages)) ==> P.Translate(t, w) == P.Translate(s, w))
    decreases n
  {
    hide R.Valid, P.Translate, ArchMap, R.Own, Alloc, InsertBuddy, Canonical, WiredTo, Pow2, ClearTail, Aligned;
    if n > 0 && budget > 0 && Alloc(lists, BlockOrder(n)).0.Some? {
      var k, m := BlockOrder(n), Stretch(n);
      OrderStretch(n);
      var (r, left) := Alloc(lists, k);
      AllocAligned(lists, k);
      var page := Page(r.value, k, true);
      OneStretch(s, shared, pool, v, n, flags, r.value);
      var (t, ok) := ArchMap(s, v, page, flags);
      if ok {
        BackMaps(left, t, shared, pool, v + m, n - m, flags, budget - 1);
        var (l, u, pages, done) := Back(left, t, v + m, n - m, flags, budget - 1);
        assert Aligned(v, k) by { StretchAligned(v, n); }
        FirstRunStays(t, u, shared, v, k, n, pages, page);
        BlankJoin(s, t, shared, v, m, Total(pages), n);
        FirstStretch(t, u, shared, v, n, pages, page, flags);
      }
    }
  }

  lemma StretchAligned(v: nat, n: nat)
    requires n >= 512 ==> v % 512 == 0
    ensures Aligned(v, BlockOrder(n))
  {
    OrderStretch(n);
  }

  lemma AllocAligned(lists: Lists, k: nat)
    requires Canonical(lists) && Alloc(lists, k).0.Some?
    ensures AtOrder(Alloc(lists, k).0.value, k) && Canonical(Alloc(lists, k).1)
  {
    AllocTakesOneBlock(lists, k);
  }

  lemma FirstStretch(t: P.Space, u: P.Space, shared: set<nat>, v: nat, n: nat, pages: seq<Page>, page: Page,
                     flags: Flags)
    requires n > 0 && OwnRange(v, n, shared) && Pow2(page.order) == Stretch(n)
    requires forall w: nat :: v <= w < v + Stretch(n) ==>
      WiredTo(P.Translate(t, w), page.physical / 4096 + (w - v), flags) && P.Translate(t, w).Some?
      && P.Translate(t, w).value.level == P.LeafLevel(IsSuperRun(page.order))
    requires forall w: nat :: R.Own(w, shared) && w < v + Stretch(n) ==> P.Translate(u, w) == P.Translate(t, w)
    requires MappedTo(u, v + Stretch(n), pages, flags)
    ensures MappedTo(u, v, [page] + pages, flags)
  {
    hide P.Translate, WiredTo, P.Walk;
    assert ([page] + pages)[1..] == pages;
  }

  // ---- When it succeeds -----------------------------------------------------------------------

  /** One record for each superpage and each single page. */
  function Records(n: nat): nat {
    n / 512 + n % 512
  }

  /** What the loop needs: untranslated pages, page records, blocks of both orders, spare tables. */
  ghost predicate Affordable(lists: Lists, s: P.Space, v: nat, n: nat, budget: nat) {
    && Blank(s, v, n) && Records(n) <= budget
    && n / 512 <= Units(lists, 9) && n <= Units(lists, 0)
    && Need(s, v, n) <= |s.free|
  }

  lemma ArchIsMap(s: P.Space, v: nat, page: Page, flags: Flags)
    requires page.order == 0 || page.order == 9
    ensures ArchMap(s, v, page, flags) ==
      P.Map(s, v, page.physical / 4096, page.order == 9, Attributes(page, flags))
  {
    hide P.Map;
    assert Pow2(0) == 1 && Count(page.order) == 1;
    var superpage, attr := page.order == 9, Attributes(page, flags);
    var (t, ok) := P.Map(s, v, page.physical / 4096, superpage, attr);
    assert ok ==> MapFrom(t, v, page.physical / 4096, superpage, attr, 1, 1) == (t, 1);
  }

  /** A stretch is mapped exactly when it is untranslated and the spare tables suffice. */
  lemma StretchMaps(s: P.Space, shared: set<nat>, pool: set<nat>, v: nat, n: nat, flags: Flags, b: nat)
    requires R.Valid(s, shared, pool) && n > 0 && Backable(s, shared, v, n) && AtOrder(b, BlockOrder(n))
    ensures var (t, ok) := ArchMap(s, v, Page(b, BlockOrder(n), true), flags);
      && (ok <==> Blank(s, v, Stretch(n)) && Tables(s, v, n >= 512) <= |s.free|)
      && (ok ==> |t.free| + Tables(s, v, n >= 512) == |s.free| && Eased(s, t, shared, v, v + Stretch(n)))
  {
    hide R.Valid, P.Translate, ArchMap, P.Map, T.Missing, WiredTo, Turn, Pow2, AtOrder;
    var page, superpage := Page(b, BlockOrder(n), true), n >= 512;
    var attr := Attributes(page, flags);
    TailStays(v, n);
    ArchIsMap(s, v, page, flags);
    assert R.Own(v, shared) && (superpage || !O.IsSuper(P.Translate(s, v)));
    R.MapRefines(s, shared, pool, v, b / 4096, superpage, attr);
    TargetIsStretch(s, v, n);
    var (t, ok) := P.Map(s, v, b / 4096, superpage, attr);
    if ok { MapEases(s, shared, pool, Spot(v, superpage), b / 4096, attr); }
  }

  lemma TargetIsStretch(s: P.Space, v: nat, n: nat)
    requires n > 0 && v + n <= P.PAGES && (n >= 512 ==> v % 512 == 0)
    ensures R.Untranslated(s, v, n >= 512) <==> Blank(s, v, Stretch(n))
  {
    var superpage := n >= 512;
    forall w: nat
      ensures O.InTarget(w, v, superpage) <==> v <= w < v + Stretch(n)
    {
      InSlot(w, v);
    }
    hide P.Translate, O.InTarget;
  }

  lemma InSlot(w: nat, v: nat)
    ensures v % 512 == 0 ==> (w / 512 == v / 512 <==> v <= w < v + 512)
  {
  }

  lemma UnitsStep(lists: Lists, n: nat)
    requires n > 0
    ensures var k := BlockOrder(n);
      var (r, left) := Alloc(lists, k);
      (n / 512 <= Units(lists, 9) && n <= Units(lists, 0)) <==>
        r.Some? && (n - Stretch(n)) / 512 <= Units(left, 9) && n - Stretch(n) <= Units(left, 0)
  {
    hide Alloc, Units, Pow2;
    var k := BlockOrder(n);
    OrderStretch(n);
    AllocTakesUnits(lists, k, 0);
    if n >= 512 {
      AllocTakesUnits(lists, 9, 9);
      assert Pow2(0) == 1 by { OrderStretch(0); }
    }
  }

  lemma BlankSplits(s: P.Space, t: P.Space, shared: set<nat>, v: nat, n: nat)
    requires n > 0 && OwnRange(v, n, shared) && Eased(s, t, shared, v, v + Stretch(n))
    ensures Blank(s, v, n) <==> Blank(s, v, Stretch(n)) && Blank(t, v + Stretch(n), n - Stretch(n))
  {
    hide P.Translate, Turn, Tables;
    var x := v + Stretch(n);
    forall w: nat | x <= w < v + n
      ensures P.Translate(t, w) == P.Translate(s, w)
    {
      assert R.Own(w, shared);
    }
  }

  lemma RecordsStep(n: nat)
    requires n > 0
    ensures Records(n) == 1 + Records(n - Stretch(n))
  {
  }

  /** The loop succeeds exactly when everything it needs is there. */
  lemma {:induction false} BackedExactly(lists: Lists, s: P.Space, shared: set<nat>, pool: set<nat>, v: nat, n: nat,
                                         flags: Flags, budget: nat)
    requires Canonical(lists) && R.Valid(s, shared, pool) && Backable(s, shared, v, n)
    ensures Back(lists, s, v, n, flags, budget).3 <==> Affordable(lists, s, v, n, budget)
    decreases n
  {
    hide R.Valid, P.Translate, ArchMap, Alloc, InsertBuddy, Canonical, Units, Blank, ClearTail, Need, Tables, Eased,
        Records, OwnRange, AtOrder;
    if n == 0 {
      NothingNeeded(s, v);
    } else {
      var k, m := BlockOrder(n), Stretch(n);
      RecordsStep(n);
      UnitsStep(lists, n);
      var (r, left) := Alloc(lists, k);
      if budget > 0 && r.Some? {
        AllocAligned(lists, k);
        StretchMaps(s, shared, pool, v, n, flags, r.value);
        OneStretch(s, shared, pool, v, n, flags, r.value);
        var (t, ok) := ArchMap(s, v, Page(r.value, k, true), flags);
        if ok {
          BackedExactly(left, t, shared, pool, v + m, n - m, flags, budget - 1);
          NeedsRest(s, t, shared, v, n);
          BlankSplits(s, t, shared, v, n);
        } else {
          FirstNeeded(s, v, n);
        }
      }
    }
  }

  lemma NothingNeeded(s: P.Space, v: nat)
    ensures Blank(s, v, 0) && Need(s, v, 0) == 0 && Records(0) == 0
  {
  }

  lemma NeedsRest(s: P.Space, t: P.Space, shared: set<nat>, v: nat, n: nat)
    requires n > 0 && Eased(s, t, shared, v, v + Stretch(n)) && Backable(s, shared, v, n)
    ensures Need(s, v, n) == Tables(s, v, n >= 512) + Need(t, v + Stretch(n), n - Stretch(n))
  {
    hide P.Translate, Eased, Need, Tables;
    NeedStep(s, t, shared, v, n);
  }

  lemma FirstNeeded(s: P.Space, v: nat, n: nat)
    requires n > 0
    ensures Tables(s, v, n >= 512) <= Need(s, v, n) && (Blank(s, v, n) ==> Blank(s, v, Stretch(n)))
  {
    hide P.Translate, Tables;
  }

  // ---- Both together --------------------------------------------------------------------------

  /** The loop, undone as a whole when it fails. */
  function BackAll(lists: Lists, s: P.Space, v: nat, n: nat, flags: Flags, budget: nat)
    : (Lists, P.Space, seq<Page>, bool)
  {
    var (l, t, pages, ok) := Back(lists, s, v, n, flags, budget);
    if ok then (l, t, pages, true) else (GiveBack(l, pages), Rollback(t, v, pages), [], false)
  }

  /** Success comes exactly when everything needed is there; it maps each stretch to a block of
      its own that was free, and takes exactly those blocks.  Failure restores every free list
      and every translation. */
  lemma BackedAllOrNothing(z: Zone, s: P.Space, shared: set<nat>, pool: set<nat>, v: nat, n: nat, flags: Flags,
                           budget: nat)
    requires ZoneInv(z) && R.Valid(s, shared, pool) && Backable(s, shared, v, n)
    ensures var (l, t, pages, ok) := BackAll(z.lists, s, v, n, flags, budget);
      && R.Valid(t, shared, pool) && t.cr3 == s.cr3
      && (ok <==> Affordable(z.lists, s, v, n, budget))
      && (ok ==> Total(pages) == n && Holding(z, l, pages) && MappedTo(t, v, pages, flags))
      && (!ok ==> l == z.lists)
      && (forall w: nat :: R.Own(w, shared) && !(ok && v <= w < v + n) ==> P.Translate(t, w) == P.Translate(s, w))
  {
    hide R.Valid, P.Translate, R.Own, ZoneInv, Back, GiveBack, Rollback, Holding, MappedTo, LivePages, Affordable,
        Backable;
    U.ZoneCanonical(z);
    BackHolds(z, s, v, n, flags, budget);
    BackMaps(z.lists, s, shared, pool, v, n, flags, budget);
    BackedExactly(z.lists, s, shared, pool, v, n, flags, budget);
    var (l, t, pages, ok) := Back(z.lists, s, v, n, flags, budget);
    if !ok {
      GiveBackRestores(z, l, pages);
      RollbackClears(t, shared, pool, v, pages);
    }
  }
}
