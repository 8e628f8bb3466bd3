/** The mapping loop of wiring: variable-order runs, superpages and 4 KiB
    pages, and the rollback that undoes a partial mapping. */
module WirePages {
  import opened Basics
  import opened PowersOfTwo
  import opened PageTableModel
  import opened PageTableInvariant
  import opened PageTableOps
  import opened PageTableRuns
  import opened ArchMemory
  import G = GreedyRuns

  /** Map n pages from virtual page v to frame p run by run.  `budget` is how
      many run records the allocator can still supply; the first refusal ends
      the loop.  Returns the runs that were mapped. */
  function MapRange(s: Space, v: nat, p: nat, n: nat, flags: Flags, budget: nat): (r: (Space, seq<Page>, bool))
    decreases n
  {
    if n == 0 then (s, [], true)
    else if budget == 0 then (s, [], false)
    else
      G.OrderFits(v, p, n);
      var k := G.OrderFrom(v, p, 4096 * n, 0);
      var page := Page(4096 * p, k, true);
      var (t, ok) := ArchMap(s, v, page, flags);
      if !ok then (t, [], false)
      else
        var (u, pages, done) := MapRange(t, v + Pow2(k), p + Pow2(k), n - Pow2(k), flags, budget - 1);
        (u, [page] + pages, done)
  }

  /** Unmap the runs in the order they were mapped. */
  function Rollback(s: Space, v: nat, pages: seq<Page>): Space
    decreases |pages|
  {
    if pages == [] then s
    else Rollback(ArchUnmap(s, v, pages[0]), v + Pow2(pages[0].order), pages[1..])
  }

  function Total(pages: seq<Page>): nat {
    if pages == [] then 0 else Pow2(pages[0].order) + Total(pages[1..])
  }

  /** The runs the loop records are those of the greedy cut. */
  function Orders(pages: seq<Page>): seq<nat> {
    seq(|pages|, i requires 0 <= i < |pages| => pages[i].order)
  }

  lemma {:induction false} RecordsAreGreedy(s: Space, v: nat, p: nat, n: nat, flags: Flags, budget: nat)
    ensures var (t, pages, ok) := MapRange(s, v, p, n, flags, budget);
      ok ==> Orders(pages) == G.Greedy(v, p, n)
    decreases n
  {
    hide ArchMap;
    if n > 0 && budget > 0 {
      G.OrderFits(v, p, n);
      var k := G.OrderFrom(v, p, 4096 * n, 0);
      var page := Page(4096 * p, k, true);
      var (t, ok) := ArchMap(s, v, page, flags);
      if ok {
        RecordsAreGreedy(t, v + Pow2(k), p + Pow2(k), n - Pow2(k), flags, budget - 1);
        var (u, pages, done) := MapRange(t, v + Pow2(k), p + Pow2(k), n - Pow2(k), flags, budget - 1);
        assert Orders([page] + pages) == [k] + Orders(pages);
      }
    }
  }

  // ---- One aligned run ------------------------------------------------------------------

  /** The entries of an aligned run are its 2^k pages. */
  lemma RunPages(v: nat, k: nat, w: nat)
    requires Aligned(v, k)
    ensures InEntries(w, v, IsSuperRun(k), 0, Count(k)) <==> v <= w < v + Pow2(k)
  {
    if IsSuperRun(k) {
      assert Pow2(9) == 512;
      Sum(9, k - 9);
      AlignedDown(v, 9, k);
      assert Pow2(k) == 512 * Count(k);
      assert v % 512 == 0;
    }
  }

  /** An aligned run sends each page to the frame at the same distance. */
  lemma RunFrames(v: nat, p: nat, k: nat, w: nat, attr: Attr)
    requires Aligned(v, k) && Aligned(p, k) && v <= w < v + Pow2(k)
    ensures Slot(v, IsSuperRun(k)) <= Slot(w, IsSuperRun(k))
    ensures RunMapping(w, v, p, IsSuperRun(k), attr) ==
      Mapping(p + (w - v), attr.rw, attr.user, attr.global, LeafLevel(IsSuperRun(k)))
  {
    if IsSuperRun(k) {
      assert Pow2(9) == 512;
      AlignedDown(v, 9, k);
      AlignedDown(p, 9, k);
      hide Pow2, Aligned;
      SuperOffset(v, p, w);
    }
  }

  lemma SuperOffset(v: nat, p: nat, w: nat)
    requires v % 512 == 0 && p % 512 == 0 && v <= w
    ensures v / 512 <= w / 512
    ensures var f := p + 512 * (w / 512 - v / 512); f % 512 == 0 && f + w % 512 == p + (w - v)
  {
  }

  /** A range of pages this space owns. */
  ghost predicate OwnRange(v: nat, n: nat, shared: set<nat>) {
    v + n <= PAGES && forall w: nat :: v <= w < v + n ==> Own(w, shared)
  }

  lemma RangeRun(v: nat, n: nat, k: nat, shared: set<nat>)
    requires OwnRange(v, n, shared) && Aligned(v, k) && Pow2(k) <= n
    ensures OwnRun(v, IsSuperRun(k), Count(k), shared)
  {
    forall w: nat | InEntries(w, v, IsSuperRun(k), 0, Count(k))
      ensures Own(w, shared)
    {
      RunPages(v, k, w);
    }
    if IsSuperRun(k) {
      assert Pow2(9) == 512;
      Sum(9, k - 9);
      hide Pow2;
      assert 512 * Count(k) == Pow2(k);
    }
  }

  // ---- The records of a partial mapping --------------------------------------------------

  /** Each recorded run is live in the table, one after the other from v. */
  ghost predicate LivePages(s: Space, shared: set<nat>, v: nat, pages: seq<Page>)
    decreases |pages|
  {
    pages == [] ||
    (var k := pages[0].order;
     && Aligned(v, k) && OwnRange(v, Pow2(k), shared)
     && (forall w: nat :: v <= w < v + Pow2(k) ==>
           Translate(s, w).Some? && Translate(s, w).value.level == LeafLevel(IsSuperRun(k)))
     && LivePages(s, shared, v + Pow2(k), pages[1..]))
  }

  lemma {:induction false} LivePagesSame(s: Space, t: Space, shared: set<nat>, v: nat, pages: seq<Page>)
    requires LivePages(s, shared, v, pages)
    requires forall w: nat :: Own(w, shared) && v <= w ==> Translate(t, w) == Translate(s, w)
    ensures LivePages(t, shared, v, pages)
    decreases |pages|
  {
    hide Translate, Region;
    if pages != [] {
      LivePagesSame(s, t, shared, v + Pow2(pages[0].order), pages[1..]);
    }
  }

  /** Unmapping the records clears exactly the pages they covered. */
  lemma {:induction false} RollbackClears(s: Space, shared: set<nat>, pool: set<nat>, v: nat, pages: seq<Page>)
    requires Valid(s, shared, pool) && LivePages(s, shared, v, pages)
    ensures var t := Rollback(s, v, pages);
      && Valid(t, shared, pool) && t.cr3 == s.cr3
      && (forall w: nat :: Own(w, shared) ==>
            Translate(t, w) == if v <= w < v + Total(pages) then None else Translate(s, w))
    decreases |pages|
  {
    hide Valid, Translate, Region, ArchUnmap, Slot, Count;
    if pages != [] {
      var k := pages[0].order;
      RangeRun(v, Pow2(k), k, shared);
      forall w: nat
        ensures InEntries(w, v, IsSuperRun(k), 0, Count(k)) <==> v <= w < v + Pow2(k)
      {
        RunPages(v, k, w);
      }
      ArchUnmapClears(s, shared, pool, v, pages[0]);
      var t := ArchUnmap(s, v, pages[0]);
      LivePagesSame(s, t, shared, v + Pow2(k), pages[1..]);
      RollbackClears(t, shared, pool, v + Pow2(k), pages[1..]);
    }
  }

  // ---- The loop -------------------------------------------------------------------------------

  /** What wiring gives page w. */
  ghost predicate WiredTo(m: Option<Mapping>, frame: nat, flags: Flags) {
    m.Some? && m.value.frame == frame && m.value.rw == !flags.cow && m.value.us == flags.user &&
        m.value.global == flags.global
  }

  ghost predicate Blank(s: Space, v: nat, n: nat) {
    forall w: nat :: v <= w < v + n ==> Translate(s, w).None?
  }

  /** A run of 4 KiB pages keeps out of live superpages. */
  ghost predicate ClearRun(s: Space, v: nat, k: nat) {
    IsSuperRun(k) || forall w: nat :: v <= w < v + Pow2(k) ==> !IsSuper(Translate(s, w))
  }

  /** So does every run of the loop. */
  ghost predicate Clear(s: Space, v: nat, p: nat, n: nat)
    decreases n
  {
    n == 0 ||
    (G.OrderFits(v, p, n);
     var k := G.OrderFrom(v, p, 4096 * n, 0);
     ClearRun(s, v, k) && Clear(s, v + Pow2(k), p + Pow2(k), n - Pow2(k)))
  }

  lemma {:induction false} ClearSame(s: Space, t: Space, shared: set<nat>, v: nat, p: nat, n: nat)
    requires Clear(s, v, p, n) && OwnRange(v, n, shared)
    requires forall w: nat :: Own(w, shared) && v <= w ==> Translate(t, w) == Translate(s, w)
    ensures Clear(t, v, p, n)
    decreases n
  {
    hide Translate, Region, IsSuper;
    if n > 0 {
      G.OrderFits(v, p, n);
      var k := G.OrderFrom(v, p, 4096 * n, 0);
      ClearSame(s, t, shared, v + Pow2(k), p + Pow2(k), n - Pow2(k));
    }
  }

  /** One run of the loop; where it succeeds the pages were untranslated. */
  lemma RunStep(s: Space, shared: set<nat>, pool: set<nat>, v: nat, p: nat, n: nat, flags: Flags, k: nat)
    requires Valid(s, shared, pool) && OwnRange(v, n, shared) && ClearRun(s, v, k) && G.Fits(v, p, n, k)
    ensures var (t, ok) := ArchMap(s, v, Page(4096 * p, k, true), flags);
      && Valid(t, shared, pool) && t.cr3 == s.cr3
      && (forall w: nat :: Own(w, shared) && !(ok && v <= w < v + Pow2(k)) ==> Translate(t, w) == Translate(s, w))
      && (ok ==> forall w: nat :: v <= w < v + Pow2(k) ==>
            WiredTo(Translate(t, w), p + (w - v), flags) && Translate(t, w).Some? &&
                Translate(t, w).value.level == LeafLevel(IsSuperRun(k)))
      && (ok ==> Blank(s, v, Pow2(k)))
  {
    hide Valid, Translate, Region, ArchMap, Slot, Count, RunMapping, Aligned;
    var page := Page(4096 * p, k, true);
    var attr := Attributes(page, flags);
    RangeRun(v, n, k, shared);
    forall w: nat
      ensures InEntries(w, v, IsSuperRun(k), 0, Count(k)) <==> v <= w < v + Pow2(k)
    {
      RunPages(v, k, w);
    }
    ArchMapAllOrNothing(s, shared, pool, v, page, flags);
    var (t, ok) := ArchMap(s, v, page, flags);
    forall w: nat | ok && v <= w < v + Pow2(k)
      ensures WiredTo(Translate(t, w), p + (w - v), flags) && Translate(t, w).Some? &&
          Translate(t, w).value.level == LeafLevel(IsSuperRun(k))
    {
      RunFrames(v, p, k, w, attr);
      assert page.physical / 4096 == p;
      assert Own(w, shared);
    }
  }

  /** The loop wires a prefix of the range, records it, and touches nothing
      else; it reports success exactly when the prefix is the whole range. */
  lemma {:induction false} MapRangeMeans(s: Space, shared: set<nat>, pool: set<nat>, v: nat, p: nat, n: nat,
                                         flags: Flags, budget: nat)
    requires Valid(s, shared, pool) && OwnRange(v, n, shared) && Clear(s, v, p, n)
    ensures var (t, pages, ok) := MapRange(s, v, p, n, flags, budget);
      && Valid(t, shared, pool) && t.cr3 == s.cr3
      && Total(pages) <= n && (ok <==> Total(pages) == n)
      && LivePages(t, shared, v, pages) && Blank(s, v, Total(pages))
      && (forall w: nat :: v <= w < v + Total(pages) ==> WiredTo(Translate(t, w), p + (w - v), flags))
      && (forall w: nat :: Own(w, shared) && !(v <= w < v + Total(pages)) ==> Translate(t, w) == Translate(s, w))
    decreases n
  {
    hide Valid, Translate, Region, ArchMap, WiredTo, Aligned;
    if n > 0 && budget > 0 {
      G.OrderFits(v, p, n);
      var k := G.OrderFrom(v, p, 4096 * n, 0);
      var page := Page(4096 * p, k, true);
      RunStep(s, shared, pool, v, p, n, flags, k);
      var (t, ok) := ArchMap(s, v, page, flags);
      if ok {
        var v', p', n' := v + Pow2(k), p + Pow2(k), n - Pow2(k);
        ClearSame(s, t, shared, v', p', n');
        MapRangeMeans(t, shared, pool, v', p', n', flags, budget - 1);
        var (u, pages, done) := MapRange(t, v', p', n', flags, budget - 1);
        FirstRunStays(t, u, shared, v, k, n, pages, page);
        forall w: nat | v <= w < v + Total([page] + pages)
          ensures WiredTo(Translate(u, w), p + (w - v), flags)
        {
          assert Own(w, shared);
          assert w >= v' ==> p' + (w - v') == p + (w - v);
        }
        BlankJoin(s, t, shared, v, Pow2(k), Total(pages), n);
      }
    }
  }

  lemma BlankJoin(s: Space, t: Space, shared: set<nat>, v: nat, m: nat, r: nat, n: nat)
    requires OwnRange(v, n, shared) && m + r <= n && Blank(s, v, m) && Blank(t, v + m, r)
    requires forall w: nat :: Own(w, shared) && v + m <= w ==> Translate(t, w) == Translate(s, w)
    ensures Blank(s, v, m + r)
  {
    hide Translate, Region;
  }

  lemma FirstRunStays(t: Space, u: Space, shared: set<nat>, v: nat, k: nat, n: nat, pages: seq<Page>, page: Page)
    requires OwnRange(v, n, shared) && Pow2(k) <= n && Aligned(v, k) && page.order == k
    requires forall w: nat :: v <= w < v + Pow2(k) ==>
        Translate(t, w).Some? && Translate(t, w).value.level == LeafLevel(IsSuperRun(k))
    requires forall w: nat :: Own(w, shared) && w < v + Pow2(k) ==> Translate(u, w) == Translate(t, w)
    requires LivePages(u, shared, v + Pow2(k), pages)
    ensures LivePages(u, shared, v, [page] + pages)
    ensures Total([page] + pages) == Pow2(k) + Total(pages)
  {
    hide Translate, Region;
    assert ([page] + pages)[1..] == pages;
  }

  /** The mapping part of wiring: on success every one of the n pages translates
      to the frame at the same offset and no other page changed; on failure,
      once the records are rolled back, every translation is as before. */
  function WireRange(s: Space, v: nat, p: nat, n: nat, flags: Flags, budget: nat): (Space, seq<Page>, bool) {
    var (t, pages, ok) := MapRange(s, v, p, n, flags, budget);
    if ok then (t, pages, true) else (Rollback(t, v, pages), [], false)
  }

  lemma WireRangeAllOrNothing(s: Space, shared: set<nat>, pool: set<nat>, v: nat, p: nat, n: nat, flags: Flags,
                              budget: nat)
    requires Valid(s, shared, pool) && OwnRange(v, n, shared) && Clear(s, v, p, n)
    ensures var (t, pages, ok) := WireRange(s, v, p, n, flags, budget);
      && Valid(t, shared, pool) && t.cr3 == s.cr3
      && (ok ==> forall w: nat :: v <= w < v + n ==> WiredTo(Translate(t, w), p + (w - v), flags))
      && (forall w: nat :: Own(w, shared) && !(ok && v <= w < v + n) ==> Translate(t, w) == Translate(s, w))
      && (ok ==> Orders(pages) == G.Greedy(v, p, n) && Blank(s, v, n))
  {
    hide Valid, Translate, Region, MapRange, Rollback, WiredTo, LivePages, Clear;
    MapRangeMeans(s, shared, pool, v, p, n, flags, budget);
    RecordsAreGreedy(s, v, p, n, flags, budget);
    var (t, pages, ok) := MapRange(s, v, p, n, flags, budget);
    if !ok {
      RollbackClears(t, shared, pool, v, pages);
    }
  }
}
