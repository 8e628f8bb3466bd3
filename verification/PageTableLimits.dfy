/** Where refinement ends: 4 KiB requests inside a live superpage. */
module PageTableLimits {
  import opened Basics
  import opened PageTableModel
  import opened PageTableInvariant
  import opened PageTableSteps
  import opened PageTableOps
  import opened PageTableRuns
  import opened PageTableShared

  /** The directory entry of the page's superpage slot. */
  function SlotEntry(s: Space, vpn: nat): Entry {
    match Find(s.mem, s.cr3, 4, 2, vpn)
    case None => ZERO
    case Some(pd) => Read(s.mem, pd, Index(vpn, 2))
  }

  lemma PathLinked(s: Space, tbl: Tables, shared: set<nat>, vpn: nat, level: nat)
    requires Core(s, tbl, shared) && 2 <= level <= 4 && Over(vpn, 2) in tbl
    ensures Over(vpn, level) in tbl
  {
    forall l | 3 <= l <= 4 ensures Up(Over(vpn, l - 1)) == Over(vpn, l) {
      PathStep(vpn, l);
      ChildUp(Over(vpn, l), Index(vpn, l));
    }
    assert Shape(s, tbl, Over(vpn, 2));
    assert Over(vpn, 3) in tbl ==> Shape(s, tbl, Over(vpn, 3));
  }

  /** The way down follows present entries, a superpage's like any other. */
  lemma {:induction false} DescendThrough(s: Space, tbl: Tables, shared: set<nat>, vpn: nat, level: nat)
    requires Core(s, tbl, shared) && vpn < PAGES && Region(vpn) !in shared
    requires 2 <= level <= 4 && Over(vpn, 2) in tbl && Over(vpn, level) in tbl
    requires Read(s.mem, tbl[Over(vpn, 2)], Index(vpn, 2)).present
    ensures Descend(s, tbl[Over(vpn, level)], level, 1, vpn)
      == (s, Some(Read(s.mem, tbl[Over(vpn, 2)], Index(vpn, 2)).frame))
    decreases level
  {
    var n, i := Over(vpn, level), Index(vpn, level);
    var e := Read(s.mem, tbl[n], i);
    if level == 2 {
      assert Descend(s, e.frame, 1, 1, vpn) == (s, Some(e.frame));
    } else {
      PathLinked(s, tbl, shared, vpn, level - 1);
      PathStep(vpn, level);
      assert Link(e, tbl, shared, n, i);
      DescendThrough(s, tbl, shared, vpn, level - 1);
    }
  }

  lemma SlotIsSuper(s: Space, tbl: Tables, shared: set<nat>, vpn: nat)
    requires Core(s, tbl, shared) && Own(vpn, shared) && IsSuper(Translate(s, vpn))
    ensures Over(vpn, 2) in tbl && SlotEntry(s, vpn) == Read(s.mem, tbl[Over(vpn, 2)], Index(vpn, 2))
    ensures SlotEntry(s, vpn).present
  {
    WalkIsLookup(s, tbl, shared, vpn);
    PathTop(vpn);
    FindDirectory(s, tbl, shared, vpn, 4);
  }

  /** The first data page of the superpage is taken for a table: the request succeeds when the
      word read there has its present bit clear, overwrites that word, and changes no translation. */
  lemma SmallMapInSuperpage(s: Space, shared: set<nat>, pool: set<nat>, vpn: nat, frame: nat, attr: Attr)
    requires Valid(s, shared, pool) && Own(vpn, shared) && IsSuper(Translate(s, vpn))
    requires SlotEntry(s, vpn).frame in s.mem && SlotEntry(s, vpn).frame !in pool
    ensures var (t, ok) := Map(s, vpn, frame, false, attr);
      && Valid(t, shared, pool)
      && (ok <==> !Read(s.mem, SlotEntry(s, vpn).frame, Index(vpn, 1)).present)
      && (forall w: nat :: Own(w, shared) ==> Translate(t, w) == Translate(s, w))
  {
    hide Core, Lookup, Translate, Region, Pool, KeepsUpper, AllPopulated, Descend, Index, SlotEntry;
    var tbl :| Inv(s, tbl, shared) && Pool(s, tbl) == pool;
    SlotIsSuper(s, tbl, shared, vpn);
    PathTop(vpn);
    RootIs(s, tbl, shared);
    DescendThrough(s, tbl, shared, vpn, 4);
    var (t, ok) := Map(s, vpn, frame, false, attr);
    OtherMemory(s, t, tbl, shared);
    assert Inv(t, tbl, shared) && Pool(t, tbl) == pool;
    forall w: nat | Own(w, shared)
      ensures Translate(t, w) == Translate(s, w)
    {
      WalkIsLookup(s, tbl, shared, w);
      WalkIsLookup(t, tbl, shared, w);
      SameReadsSameLookup(s, t, tbl);
    }
  }

  /** A 4 KiB request that reports success has mapped its page, unless the page lies in a live
      superpage whose first data page happens to hold a word without the present bit there. */
  lemma SmallMapTrueExactly(s: Space, shared: set<nat>, pool: set<nat>, vpn: nat, frame: nat, attr: Attr)
    requires Valid(s, shared, pool) && Own(vpn, shared)
    requires IsSuper(Translate(s, vpn)) ==> SlotEntry(s, vpn).frame in s.mem && SlotEntry(s, vpn).frame !in pool
    ensures var (t, ok) := Map(s, vpn, frame, false, attr);
      (ok ==> Translate(t, vpn) == Some(TargetMapping(vpn, frame, false, attr)))
      <==> !(IsSuper(Translate(s, vpn)) && !Read(s.mem, SlotEntry(s, vpn).frame, Index(vpn, 1)).present)
  {
    hide Valid, Translate, Map, SlotEntry, Index, Untranslated, Missing;
    if IsSuper(Translate(s, vpn)) {
      SmallMapInSuperpage(s, shared, pool, vpn, frame, attr);
    } else {
      MapRefines(s, shared, pool, vpn, frame, false, attr);
    }
  }

  // ---- Unmapping --------------------------------------------------------------------------

  /** The word in the superpage's first data page that a 4 KiB request takes for its entry. */
  function SlotWord(s: Space, vpn: nat): Entry {
    Read(s.mem, SlotEntry(s, vpn).frame, Index(vpn, 1))
  }

  /** Another page of the same superpage slot. */
  function Neighbour(vpn: nat): (w: nat)
    ensures w != vpn && w / 512 == vpn / 512
  {
    if vpn % 512 == 511 then vpn - 1 else vpn + 1
  }

  lemma SlotMates(s: Space, tbl: Tables, shared: set<nat>, vpn: nat)
    requires Core(s, tbl, shared) && Own(vpn, shared) && IsSuper(Translate(s, vpn))
    ensures Own(Neighbour(vpn), shared) && Translate(s, Neighbour(vpn)).Some?
    ensures Over(Neighbour(vpn), 2) == Over(vpn, 2) && Over(Neighbour(vpn), 1) == Over(vpn, 1)
    ensures Index(Neighbour(vpn), 2) == Index(vpn, 2)
  {
    var w := Neighbour(vpn);
    assert vpn / 262144 == vpn / 512 / 512 && w / 262144 == w / 512 / 512;
    WalkIsLookup(s, tbl, shared, vpn);
    WalkIsLookup(s, tbl, shared, w);
  }

  /** Writing the data page moves no translation. */
  lemma DataWrite(s: Space, tbl: Tables, shared: set<nat>, f: nat, i: nat, e: Entry)
    requires Inv(s, tbl, shared) && f !in Pool(s, tbl)
    ensures Inv(s.(mem := Write(s.mem, f, i, e)), tbl, shared)
    ensures forall w: nat :: Own(w, shared) ==> Translate(s.(mem := Write(s.mem, f, i, e)), w) == Translate(s, w)
  {
    hide Core, Lookup, Translate, Region, Pool, AllPopulated;
    var t := s.(mem := Write(s.mem, f, i, e));
    OtherMemory(s, t, tbl, shared);
    SameReadsSameLookup(s, t, tbl);
    forall w: nat | Own(w, shared) ensures Translate(t, w) == Translate(s, w) {
      WalkIsLookup(s, tbl, shared, w);
      WalkIsLookup(t, tbl, shared, w);
    }
  }

  /** Clearing the slot's entry takes the translation of every page of the slot. */
  lemma SlotCleared(s: Space, tbl: Tables, shared: set<nat>, vpn: nat)
    requires Core(s, tbl, shared) && Own(vpn, shared) && IsSuper(Translate(s, vpn)) && Over(vpn, 2) in tbl
    ensures Translate(s.(mem := Write(s.mem, tbl[Over(vpn, 2)], Index(vpn, 2), ZERO)), Neighbour(vpn)).None?
  {
    hide Translate;
    var n, i := Over(vpn, 2), Index(vpn, 2);
    WalkIsLookup(s, tbl, shared, vpn);
    PathStep(vpn, 2);
    SlotMates(s, tbl, shared, vpn);
    assert Link(Read(s.mem, tbl[n], i), tbl, shared, n, i);
    WriteLeaf(s, tbl, shared, n, i, ZERO);
    var t := s.(mem := Write(s.mem, tbl[n], i, ZERO));
    assert Shape(s, tbl, n);
    WalkIsLookup(t, tbl, shared, Neighbour(vpn));
  }

  /** Inside a live superpage, a 4 KiB unmap whose word has the present bit set reports success,
      but keeps the page translated or drops a neighbour with it. */
  lemma SmallUnmapInSuperpage(s: Space, shared: set<nat>, pool: set<nat>, vpn: nat)
    requires Valid(s, shared, pool) && Own(vpn, shared) && IsSuper(Translate(s, vpn))
    requires SlotEntry(s, vpn).frame in s.mem && SlotEntry(s, vpn).frame !in pool
    ensures var (t, ok) := Unmap(s, vpn, false);
      && (ok <==> SlotWord(s, vpn).present)
      && (!ok ==> t == s)
      && (ok ==> Translate(t, vpn).Some? ||
                 (Own(Neighbour(vpn), shared) && Translate(s, Neighbour(vpn)).Some? &&
                     Translate(t, Neighbour(vpn)).None?))
  {
    hide Core, Lookup, Translate, Region, Pool, AllPopulated, Index, Neighbour, NoneBefore;
    var tbl :| Inv(s, tbl, shared) && Pool(s, tbl) == pool;
    SlotIsSuper(s, tbl, shared, vpn);
    PathTop(vpn);
    RootIs(s, tbl, shared);
    FindDirectory(s, tbl, shared, vpn, 4);
    var pd, pt := tbl[Over(vpn, 2)], SlotEntry(s, vpn).frame;
    if SlotWord(s, vpn).present {
      var s1 := s.(mem := Write(s.mem, pt, Index(vpn, 1), ZERO));
      DataWrite(s, tbl, shared, pt, Index(vpn, 1), ZERO);
      SlotMates(s, tbl, shared, vpn);
      SlotCleared(s1, tbl, shared, vpn);
      FreeUnread(s1.(mem := Write(s1.mem, pd, Index(vpn, 2), ZERO)), [pt] + s.free, Neighbour(vpn));
    }
  }

  lemma FreeUnread(s: Space, free: seq<nat>, w: nat)
    ensures Translate(s.(free := free), w) == Translate(s, w)
  {
  }

  /** A 4 KiB unmap that reports success has cleared its page and no other, unless the page lies
      in a live superpage whose first data page holds a word with the present bit there. */
  lemma SmallUnmapTrueExactly(s: Space, shared: set<nat>, pool: set<nat>, vpn: nat)
    requires Valid(s, shared, pool) && Own(vpn, shared)
    requires IsSuper(Translate(s, vpn)) ==> SlotEntry(s, vpn).frame in s.mem && SlotEntry(s, vpn).frame !in pool
    ensures var (t, ok) := Unmap(s, vpn, false);
      (ok ==> forall w: nat :: Own(w, shared) ==> Translate(t, w) == if w == vpn then None else Translate(s, w))
      <==> !(IsSuper(Translate(s, vpn)) && SlotWord(s, vpn).present)
  {
    hide Valid, Translate, Unmap, SlotEntry, SlotWord, Index;
    if IsSuper(Translate(s, vpn)) {
      SmallUnmapInSuperpage(s, shared, pool, vpn);
    } else {
      UnmapRefines(s, shared, pool, vpn, false);
    }
  }

  // ---- Such requests ------------------------------------------------------------------------

  lemma SlotFrame(s: Space, tbl: Tables, shared: set<nat>, vpn: nat)
    requires Core(s, tbl, shared) && Own(vpn, shared) && IsSuper(Translate(s, vpn))
    ensures Translate(s, vpn).value.frame == SlotEntry(s, vpn).frame + vpn % 512
  {
    hide Core, Translate, SlotEntry;
    WalkIsLookup(s, tbl, shared, vpn);
    SlotIsSuper(s, tbl, shared, vpn);
  }

  /** A new space that maps its first superpage to frame f. */
  function FirstSuperpage(mem: Memory, base: nat, nr: nat, f: nat): Space
    requires nr >= 1
  {
    Map(Init(mem, base, nr), 0, f, true, Attr(false, true, true)).0
  }

  lemma LiveSuperpage(mem: Memory, base: nat, nr: nat, f: nat)
    requires nr >= 3 && (forall g :: base <= g < base + nr ==> g in mem)
    requires f in mem && f % 512 == 0 && !(base <= f < base + nr)
    ensures var s := FirstSuperpage(mem, base, nr, f);
      && Valid(s, {}, PagesFrom(mem, base, nr)) && Own(0, {}) && IsSuper(Translate(s, 0))
      && SlotEntry(s, 0).frame == f && f in s.mem && s.mem[f] == mem[f] && f !in PagesFrom(mem, base, nr)
  {
    hide Translate, Map, SlotEntry, Missing, Core;
    var s0, pool, attr := Init(mem, base, nr), PagesFrom(mem, base, nr), Attr(false, true, true);
    InitValid(mem, base, nr);
    MapRefines(s0, {}, pool, 0, f, true, attr);
    SuperNeedsTwo(s0.mem, s0.cr3);
    var s := FirstSuperpage(mem, base, nr, f);
    assert InTarget(0, 0, true);
    assert Translate(s, 0) == Some(TargetMapping(0, f, true, attr));
    var tbl :| Inv(s, tbl, {}) && Pool(s, tbl) == pool;
    SlotFrame(s, tbl, {}, 0);
  }

  lemma SuperNeedsTwo(mem: Memory, table: nat)
    ensures Missing(mem, table, 4, LeafLevel(true), 0) <= 2
  {
  }

  function BlankPage(): Table {
    seq(ENTRIES, _ => ZERO)
  }

  /** Three table pages from 0 on, and a data page at frame 512 that begins with the given word. */
  function SmallMemory(word: Entry): Memory {
    map[0 := BlankPage(), 1 := BlankPage(), 2 := BlankPage(), 512 := BlankPage()[0 := word]]
  }

  /** Over zeroed data, a 4 KiB map in a new superpage reports success and maps nothing. */
  lemma SmallMapLost(frame: nat, attr: Attr)
    ensures var s := FirstSuperpage(SmallMemory(ZERO), 0, 3, 512);
      var (t, ok) := Map(s, 0, frame, false, attr);
      ok && Translate(t, 0) == Translate(s, 0) != Some(TargetMapping(0, frame, false, attr))
  {
    hide Valid, Translate, Map, SlotEntry, FirstSuperpage;
    var mem := SmallMemory(ZERO);
    LiveSuperpage(mem, 0, 3, 512);
    var s := FirstSuperpage(mem, 0, 3, 512);
    assert Read(s.mem, 512, Index(0, 1)) == ZERO;
    SmallMapInSuperpage(s, {}, PagesFrom(mem, 0, 3), 0, frame, attr);
  }

  /** Over data that begins with an odd word, a 4 KiB unmap reports success without having
      cleared its page alone. */
  lemma SmallUnmapLost()
    ensures var s := FirstSuperpage(SmallMemory(ZERO.(present := true)), 0, 3, 512);
      var (t, ok) := Unmap(s, 0, false);
      ok && !(forall w: nat :: Own(w, {}) ==> Translate(t, w) == if w == 0 then None else Translate(s, w))
  {
    hide Valid, Translate, Unmap, SlotEntry, FirstSuperpage;
    var word := ZERO.(present := true);
    var mem := SmallMemory(word);
    LiveSuperpage(mem, 0, 3, 512);
    var s := FirstSuperpage(mem, 0, 3, 512);
    assert Read(s.mem, 512, Index(0, 1)) == word;
    SmallUnmapInSuperpage(s, {}, PagesFrom(mem, 0, 3), 0);
    SmallUnmapTrueExactly(s, {}, PagesFrom(mem, 0, 3), 0);
  }
}
