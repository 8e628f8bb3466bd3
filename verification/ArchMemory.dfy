/** Mapping a run of 2^order pages as one all-or-nothing step. */
module ArchMemory {
  import opened Basics
  import opened PowersOfTwo
  import opened PageTableModel
  import opened PageTableInvariant
  import opened PageTableOps
  import opened PageTableRuns

  /** A run of physical pages as the upper layer describes it. */
  datatype Page = Page(physical: nat, order: nat, rw: bool)

  datatype Flags = Flags(global: bool, cow: bool, user: bool)

  function Attributes(page: Page, flags: Flags): Attr {
    Attr(flags.global, page.rw && !flags.cow, flags.user)
  }

  function IsSuperRun(order: nat): bool {
    order >= 9
  }

  /** How many table entries the run takes: superpages from order 9 on. */
  function Count(order: nat): (n: nat)
    ensures n > 0
  {
    if IsSuperRun(order) then Pow2(order - 9) else Pow2(order)
  }

  function Stride(superpage: bool): (n: nat)
    ensures n > 0
  {
    if superpage then 512 else 1
  }

  /** The entry-sized slot of the address space that holds a page. */
  function Slot(w: nat, superpage: bool): nat {
    if superpage then w / 512 else w
  }

  /** Map entries i, i+1, ... up to n, stopping at the first failure. */
  function MapFrom(s: Space, vpn: nat, frame: nat, superpage: bool, attr: Attr, i: nat, n: nat): (r: (Space, nat))
    ensures i <= n ==> i <= r.1 <= n
    decreases n - i
  {
    if i >= n then (s, n)
    else
      var (t, ok) := Map(s, vpn + Stride(superpage) * i, frame + Stride(superpage) * i, superpage, attr);
      if ok then MapFrom(t, vpn, frame, superpage, attr, i + 1, n) else (t, i)
  }

  /** Unmap entries i-1, i-2, ... down to 0. */
  function UnmapDown(s: Space, vpn: nat, superpage: bool, i: nat): Space
    decreases i
  {
    if i == 0 then s
    else UnmapDown(Unmap(s, vpn + Stride(superpage) * (i - 1), superpage).0, vpn, superpage, i - 1)
  }

  /** Unmap entries i, i+1, ... up to n. */
  function UnmapUp(s: Space, vpn: nat, superpage: bool, i: nat, n: nat): Space
    decreases n - i
  {
    if i >= n then s
    else UnmapUp(Unmap(s, vpn + Stride(superpage) * i, superpage).0, vpn, superpage, i + 1, n)
  }

  function ArchMap(s: Space, vpn: nat, page: Page, flags: Flags): (Space, bool) {
    var superpage := IsSuperRun(page.order);
    var n := Count(page.order);
    var (t, k) := MapFrom(s, vpn, page.physical / 4096, superpage, Attributes(page, flags), 0, n);
    if k < n then (UnmapDown(t, vpn, superpage, k), false) else (t, true)
  }

  function ArchUnmap(s: Space, vpn: nat, page: Page): Space {
    UnmapUp(s, vpn, IsSuperRun(page.order), 0, Count(page.order))
  }

  // ---- Meaning -----------------------------------------------------------------------

  /** Page w lies in entries i..k of the run at vpn. */
  predicate InEntries(w: nat, vpn: nat, superpage: bool, i: nat, k: nat) {
    Slot(vpn, superpage) + i <= Slot(w, superpage) < Slot(vpn, superpage) + k
  }

  /** What the run gives page w: the frame at the same distance. */
  function RunMapping(w: nat, vpn: nat, frame: nat, superpage: bool, attr: Attr): Mapping
    requires Slot(vpn, superpage) <= Slot(w, superpage)
  {
    TargetMapping(w, frame + Stride(superpage) * (Slot(w, superpage) - Slot(vpn, superpage)), superpage, attr)
  }

  /** The entries of the run are pages of this space, inside the address space. */
  ghost predicate OwnRun(vpn: nat, superpage: bool, n: nat, shared: set<nat>) {
    && vpn + Stride(superpage) * (if n == 0 then 0 else n - 1) < PAGES
    && forall w: nat :: InEntries(w, vpn, superpage, 0, n) ==> Own(w, shared)
  }

  /** No 4 KiB operation falls into a live superpage. */
  ghost predicate ClearOfSuper(s: Space, vpn: nat, superpage: bool, n: nat) {
    superpage || forall w: nat :: InEntries(w, vpn, superpage, 0, n) ==> !IsSuper(Translate(s, w))
  }

  lemma SlotAt(vpn: nat, superpage: bool, i: nat)
    ensures Slot(vpn + Stride(superpage) * i, superpage) == Slot(vpn, superpage) + i
  {
  }

  lemma TargetIsSlot(w: nat, x: nat, superpage: bool)
    ensures InTarget(w, x, superpage) <==> Slot(w, superpage) == Slot(x, superpage)
  {
  }

  lemma EntryOwn(vpn: nat, superpage: bool, n: nat, shared: set<nat>, i: nat)
    requires OwnRun(vpn, superpage, n, shared) && i < n
    ensures Own(vpn + Stride(superpage) * i, shared)
    ensures InEntries(vpn + Stride(superpage) * i, vpn, superpage, 0, n)
  {
    SlotAt(vpn, superpage, i);
  }

  lemma {:induction false} MapFromMeans(s: Space, shared: set<nat>, pool: set<nat>, vpn: nat, frame: nat,
                                        superpage: bool, attr: Attr, i: nat, n: nat)
    requires Valid(s, shared, pool) && i <= n && OwnRun(vpn, superpage, n, shared) && ClearOfSuper(s, vpn, superpage, n)
    ensures var (t, k) := MapFrom(s, vpn, frame, superpage, attr, i, n);
      && Valid(t, shared, pool) && t.cr3 == s.cr3
      && (forall w: nat :: Own(w, shared) ==>
            Translate(t, w) ==
              if InEntries(w, vpn, superpage, i, k) then Some(RunMapping(w, vpn, frame, superpage, attr))
              else Translate(s, w))
      && (forall w: nat :: InEntries(w, vpn, superpage, i, k) ==> Translate(s, w).None?)
    decreases n - i
  {
    hide Valid, Translate, Map, InTarget, Region, Slot;
    if i < n {
      var x := vpn + Stride(superpage) * i;
      EntryOwn(vpn, superpage, n, shared, i);
      SlotAt(vpn, superpage, i);
      MapRefines(s, shared, pool, x, frame + Stride(superpage) * i, superpage, attr);
      var (t, ok) := Map(s, x, frame + Stride(superpage) * i, superpage, attr);
      forall w: nat
        ensures InTarget(w, x, superpage) <==> Slot(w, superpage) == Slot(vpn, superpage) + i
      {
        TargetIsSlot(w, x, superpage);
      }
      if ok {
        MapFromMeans(t, shared, pool, vpn, frame, superpage, attr, i + 1, n);
        var k := MapFrom(s, vpn, frame, superpage, attr, i, n).1;
        forall w: nat | InEntries(w, vpn, superpage, i, k)
          ensures Translate(s, w).None?
        {
          assert InEntries(w, vpn, superpage, 0, n) && Own(w, shared);
          assert InEntries(w, vpn, superpage, i + 1, k) || InTarget(w, x, superpage);
        }
      }
    }
  }

  /** The run was mapped with leaf entries of the right size. */
  ghost predicate LiveEntries(s: Space, vpn: nat, superpage: bool, i: nat, n: nat) {
    forall w: nat :: InEntries(w, vpn, superpage, i, n) ==>
      Translate(s, w).Some? && Translate(s, w).value.level == LeafLevel(superpage)
  }

  lemma {:induction false} UnmapDownMeans(s: Space, shared: set<nat>, pool: set<nat>, vpn: nat, superpage: bool,
                                          i: nat, n: nat)
    requires Valid(s, shared, pool) && i <= n && OwnRun(vpn, superpage, n, shared)
    requires LiveEntries(s, vpn, superpage, 0, i)
    ensures var t := UnmapDown(s, vpn, superpage, i);
      && Valid(t, shared, pool) && t.cr3 == s.cr3
      && (forall w: nat :: Own(w, shared) ==>
            Translate(t, w) == if InEntries(w, vpn, superpage, 0, i) then None else Translate(s, w))
    decreases i
  {
    hide Valid, Translate, Unmap, InTarget, Own, Slot;
    if i > 0 {
      var x := vpn + Stride(superpage) * (i - 1);
      EntryOwn(vpn, superpage, n, shared, i - 1);
      SlotAt(vpn, superpage, i - 1);
      UnmapRefines(s, shared, pool, x, superpage);
      forall w: nat
        ensures InTarget(w, x, superpage) <==> Slot(w, superpage) == Slot(vpn, superpage) + i - 1
      {
        TargetIsSlot(w, x, superpage);
      }
      var (t, ok) := Unmap(s, x, superpage);
      assert forall w: nat :: InEntries(w, vpn, superpage, 0, i - 1) ==>
          InEntries(w, vpn, superpage, 0, n) && InEntries(w, vpn, superpage, 0, i);
      UnmapDownMeans(t, shared, pool, vpn, superpage, i - 1, n);
    }
  }

  /** Mapping a run maps all of it or nothing: on failure every translation is
      as before, although intermediate tables may have been linked. */
  lemma ArchMapAllOrNothing(s: Space, shared: set<nat>, pool: set<nat>, vpn: nat, page: Page, flags: Flags)
    requires Valid(s, shared, pool)
    requires OwnRun(vpn, IsSuperRun(page.order), Count(page.order), shared)
    requires ClearOfSuper(s, vpn, IsSuperRun(page.order), Count(page.order))
    ensures var (t, ok) := ArchMap(s, vpn, page, flags);
      var superpage, n := IsSuperRun(page.order), Count(page.order);
      && Valid(t, shared, pool) && t.cr3 == s.cr3
      && (forall w: nat :: Own(w, shared) ==>
            Translate(t, w) ==
              if ok && InEntries(w, vpn, superpage, 0, n)
              then Some(RunMapping(w, vpn, page.physical / 4096, superpage, Attributes(page, flags)))
              else Translate(s, w))
      && (ok ==> forall w: nat :: InEntries(w, vpn, superpage, 0, n) ==> Translate(s, w).None?)
  {
    hide Valid, Translate, Own, Slot, MapFrom, UnmapDown, Count;
    var superpage, n := IsSuperRun(page.order), Count(page.order);
    var attr := Attributes(page, flags);
    MapFromMeans(s, shared, pool, vpn, page.physical / 4096, superpage, attr, 0, n);
    var (t, k) := MapFrom(s, vpn, page.physical / 4096, superpage, attr, 0, n);
    if k < n {
      assert forall w: nat :: InEntries(w, vpn, superpage, 0, k) ==> InEntries(w, vpn, superpage, 0, n);
      UnmapDownMeans(t, shared, pool, vpn, superpage, k, n);
    }
  }

  lemma {:induction false} UnmapUpMeans(s: Space, shared: set<nat>, pool: set<nat>, vpn: nat, superpage: bool, i: nat,
                                        n: nat)
    requires Valid(s, shared, pool) && i <= n && OwnRun(vpn, superpage, n, shared)
    requires LiveEntries(s, vpn, superpage, i, n)
    ensures var t := UnmapUp(s, vpn, superpage, i, n);
      && Valid(t, shared, pool) && t.cr3 == s.cr3
      && (forall w: nat :: Own(w, shared) ==>
            Translate(t, w) == if InEntries(w, vpn, superpage, i, n) then None else Translate(s, w))
    decreases n - i
  {
    hide Valid, Translate, Unmap, InTarget, Own, Slot;
    if i < n {
      var x := vpn + Stride(superpage) * i;
      EntryOwn(vpn, superpage, n, shared, i);
      SlotAt(vpn, superpage, i);
      UnmapRefines(s, shared, pool, x, superpage);
      forall w: nat
        ensures InTarget(w, x, superpage) <==> Slot(w, superpage) == Slot(vpn, superpage) + i
      {
        TargetIsSlot(w, x, superpage);
      }
      var (t, ok) := Unmap(s, x, superpage);
      assert forall w: nat :: InEntries(w, vpn, superpage, i + 1, n) ==>
          InEntries(w, vpn, superpage, 0, n) && InEntries(w, vpn, superpage, i, n);
      UnmapUpMeans(t, shared, pool, vpn, superpage, i + 1, n);
    }
  }

  /** Unmapping a mapped run clears exactly its pages. */
  lemma ArchUnmapClears(s: Space, shared: set<nat>, pool: set<nat>, vpn: nat, page: Page)
    requires Valid(s, shared, pool)
    requires OwnRun(vpn, IsSuperRun(page.order), Count(page.order), shared)
    requires LiveEntries(s, vpn, IsSuperRun(page.order), 0, Count(page.order))
    ensures var t := ArchUnmap(s, vpn, page);
      && Valid(t, shared, pool) && t.cr3 == s.cr3
      && (forall w: nat :: Own(w, shared) ==>
            Translate(t, w) ==
              if InEntries(w, vpn, IsSuperRun(page.order), 0, Count(page.order)) then None else Translate(s, w))
  {
    UnmapUpMeans(s, shared, pool, vpn, IsSuperRun(page.order), 0, Count(page.order));
  }
}
