/** Mapping and unmapping refine a plain map from page to frame and permissions. */
module PageTableOps {
  import opened Basics
  import opened PageTableModel
  import opened PageTableInvariant
  import opened PageTableSteps

  /** The pages an operation names: one page, or the 512 of a superpage slot. */
  predicate InTarget(w: nat, vpn: nat, superpage: bool) {
    if superpage then w / 512 == vpn / 512 else w == vpn
  }

  function TargetMapping(w: nat, frame: nat, superpage: bool, attr: Attr): Mapping {
    Mapping(if superpage then frame - frame % 512 + w % 512 else frame,
            attr.rw, attr.user, attr.global, LeafLevel(superpage))
  }

  predicate IsSuper(m: Option<Mapping>) {
    m.Some? && m.value.level == 2
  }

  // ---- Mapping ------------------------------------------------------------------

  function Leaf(frame: nat, superpage: bool, attr: Attr): Entry {
    Entry(true, attr.rw, attr.user, superpage, attr.global, if superpage then frame - frame % 512 else frame)
  }

  lemma SuperFrame(frame: nat)
    ensures frame % 512 <= frame && (frame - frame % 512) % 512 == 0
  {
  }

  /** The translations after a leaf is filled in. */
  lemma LookupAfterLeaf(s: Space, tbl: Tables, shared: set<nat>, vpn: nat, frame: nat, superpage: bool, attr: Attr,
                        w: nat)
    requires Core(s, tbl, shared)
    requires var l := LeafLevel(superpage);
      Over(vpn, l) in tbl && !Read(s.mem, tbl[Over(vpn, l)], Index(vpn, l)).present
    ensures var l := LeafLevel(superpage);
      var mem := Write(s.mem, tbl[Over(vpn, l)], Index(vpn, l), Leaf(frame, superpage, attr));
      Lookup(mem, tbl, w) ==
        if InTarget(w, vpn, superpage) then Some(TargetMapping(w, frame, superpage, attr)) else Lookup(s.mem, tbl, w)
  {
    hide Link, Over, Index;
    var l := LeafLevel(superpage);
    var n := Over(vpn, l);
    assert Shape(s, tbl, n);
    assert Over(w, 1) in tbl ==> Shape(s, tbl, Over(w, 1));
    assert Over(w, 2) in tbl ==> Shape(s, tbl, Over(w, 2));
    if superpage {
      PathInjectiveSuper(w, vpn);
      PathStep(vpn, 2);
      NoChild(s, tbl, shared, n, Index(vpn, 2));
    } else {
      PathInjective(w, vpn);
    }
  }

  lemma PathInjectiveSuper(w: nat, vpn: nat)
    ensures w / 512 == vpn / 512 <==> Over(w, 2) == Over(vpn, 2) && Index(w, 2) == Index(vpn, 2)
    ensures w / 512 == vpn / 512 <==> Over(w, 1) == Over(vpn, 1)
  {
    PathStep(w, 2);
    PathStep(vpn, 2);
  }

  /** A present entry where a mapping should go means a page there is translated. */
  lemma OccupiedTarget(s: Space, tbl: Tables, shared: set<nat>, vpn: nat, superpage: bool) returns (w: nat)
    requires Core(s, tbl, shared) && vpn < PAGES
    requires superpage && Over(vpn, 1) in tbl ==> Populated(s.mem, tbl[Over(vpn, 1)])
    requires var l := LeafLevel(superpage);
      Over(vpn, l) in tbl && Read(s.mem, tbl[Over(vpn, l)], Index(vpn, l)).present
    ensures w < PAGES && InTarget(w, vpn, superpage) && Lookup(s.mem, tbl, w).Some?
  {
    w := vpn;
    if superpage && Over(vpn, 1) in tbl {
      var i :| 0 <= i < ENTRIES && Read(s.mem, tbl[Over(vpn, 1)], i).present;
      w := vpn / 512 * 512 + i;
      PathInjectiveSuper(w, vpn);
      assert Index(w, 1) == i;
    }
  }

  /** What a mapping attempt does to the tree. */
  ghost predicate Mapped(s: Space, tbl: Tables, t: Space, u: Tables, shared: set<nat>, vpn: nat, frame: nat,
                         superpage: bool, attr: Attr, ok: bool) {
    && Inv(t, u, shared) && t.cr3 == s.cr3 && t.mem.Keys == s.mem.Keys
    && Pool(t, u) == Pool(s, tbl) && KeepsUpper(s.mem, tbl, t.mem)
    && (forall n :: n in tbl ==> n in u && u[n] == tbl[n])
    && (forall w :: Lookup(t.mem, u, w) ==
          if ok && InTarget(w, vpn, superpage) then Some(TargetMapping(w, frame, superpage, attr))
          else Lookup(s.mem, tbl, w))
    && (forall f :: f in s.mem && f !in Pool(s, tbl) ==> f in t.mem && t.mem[f] == s.mem[f])
  }

  /** Every target page is untranslated. */
  ghost predicate Vacant(s: Space, tbl: Tables, vpn: nat, superpage: bool) {
    forall w: nat :: w < PAGES && InTarget(w, vpn, superpage) ==> Lookup(s.mem, tbl, w).None?
  }

  lemma MapStep(s: Space, tbl: Tables, shared: set<nat>, vpn: nat, frame: nat, superpage: bool, attr: Attr)
    returns (u: Tables)
    requires Inv(s, tbl, shared) && vpn < PAGES && Region(vpn) !in shared
    requires !superpage ==> !IsSuper(Lookup(s.mem, tbl, vpn))
    ensures var (t, ok) := Map(s, vpn, frame, superpage, attr);
      && Mapped(s, tbl, t, u, shared, vpn, frame, superpage, attr, ok)
      && (ok <==> Missing(s.mem, s.cr3, 4, LeafLevel(superpage), vpn) <= |s.free| && Vacant(s, tbl, vpn, superpage))
      && (ok ==> |t.free| + Missing(s.mem, s.cr3, 4, LeafLevel(superpage), vpn) == |s.free|)
      && (ok ==> Reached(tbl, u, vpn, LeafLevel(superpage)))
  {
    var l := LeafLevel(superpage);
    PathTop(vpn);
    ClearBelow(s, tbl, shared, vpn, superpage);
    u := DescendGrows(s, tbl, shared, 4, l, vpn);
    var (t, r) := Descend(s, s.cr3, 4, l, vpn);
    if r.None? {
      GrownPopulated(s, tbl, t, u, shared, vpn, l + 1);
    } else {
      MapLeaf(s, tbl, t, u, shared, vpn, frame, superpage, attr);
      GrownReaches(s, tbl, t, u, shared, vpn, l);
    }
  }

  /** The tables of `u` are those of `tbl` and those on the path of `vpn` down to `floor`. */
  ghost predicate Reached(tbl: Tables, u: Tables, vpn: nat, floor: nat) {
    forall n :: n in u <==> n in tbl || (n == Over(vpn, n.level) && floor <= n.level <= 4)
  }

  lemma GrownReaches(s: Space, tbl: Tables, t: Space, u: Tables, shared: set<nat>, vpn: nat, floor: nat)
    requires Grown(s, tbl, t, u, shared, vpn, floor) && 1 <= floor <= 4 && vpn < PAGES && Over(vpn, floor) in u
    ensures Reached(tbl, u, vpn, floor)
  {
    hide Lookup, Link, KeepsUpper;
    PathTop(vpn);
    forall l | 2 <= l <= 4
      ensures Up(Over(vpn, l - 1)) == Over(vpn, l)
    {
      PathStep(vpn, l);
      ChildUp(Over(vpn, l), Index(vpn, l));
    }
    hide Over, Index;
    assert Over(vpn, 1) in u ==> Shape(t, u, Over(vpn, 1));
    assert Over(vpn, 2) in u ==> Shape(t, u, Over(vpn, 2));
    assert Over(vpn, 3) in u ==> Shape(t, u, Over(vpn, 3));
    forall n
      ensures n in u <==> n in tbl || (n == Over(vpn, n.level) && floor <= n.level <= 4)
    {
      assert n in u ==> Shape(t, u, n);
      assert n.level == 1 || n.level == 2 || n.level == 3 || n.level == 4 || n.level < 1 || n.level > 4;
    }
  }

  lemma ClearBelow(s: Space, tbl: Tables, shared: set<nat>, vpn: nat, superpage: bool)
    requires Core(s, tbl, shared) && vpn < PAGES && Region(vpn) !in shared
    requires !superpage ==> !IsSuper(Lookup(s.mem, tbl, vpn))
    ensures PathClear(s, tbl, shared, vpn, LeafLevel(superpage))
  {
    if !superpage && Over(vpn, 2) in tbl {
      PathStep(vpn, 2);
      assert Link(Read(s.mem, tbl[Over(vpn, 2)], Index(vpn, 2)), tbl, shared, Over(vpn, 2), Index(vpn, 2));
    }
  }

  lemma GrownPopulated(s: Space, tbl: Tables, t: Space, u: Tables, shared: set<nat>, vpn: nat, floor: nat)
    requires AllPopulated(s, tbl) && Grown(s, tbl, t, u, shared, vpn, floor)
    ensures forall n :: n in u && n.level == 1 && (floor > 1 || n != Over(vpn, 1)) ==> Populated(t.mem, u[n])
    ensures Over(vpn, 1) in tbl ==> Populated(t.mem, u[Over(vpn, 1)])
  {
    forall n | n in tbl && n.level == 1
      ensures Populated(t.mem, u[n])
    {
      var i :| 0 <= i < ENTRIES && Read(s.mem, tbl[n], i).present;
      assert Read(t.mem, u[n], i).present;
    }
  }

  lemma MapLeaf(s: Space, tbl: Tables, t: Space, u: Tables, shared: set<nat>, vpn: nat, frame: nat, superpage: bool,
                attr: Attr)
    requires Inv(s, tbl, shared) && vpn < PAGES && Region(vpn) !in shared
    requires var l := LeafLevel(superpage);
      && Grown(s, tbl, t, u, shared, vpn, l) && Over(vpn, l) in u
      && Descend(s, s.cr3, 4, l, vpn) == (t, Some(u[Over(vpn, l)]))
    ensures var (r, ok) := Map(s, vpn, frame, superpage, attr);
      && Mapped(s, tbl, r, u, shared, vpn, frame, superpage, attr, ok)
      && (ok <==> Vacant(s, tbl, vpn, superpage))
  {
    hide Mapped, Grown, Inv, Vacant, Descend;
    var l := LeafLevel(superpage);
    var n, i := Over(vpn, l), Index(vpn, l);
    if Read(t.mem, u[n], i).present {
      MapOccupied(s, tbl, t, u, shared, vpn, frame, superpage, attr);
    } else {
      MapVacant(s, tbl, t, u, shared, vpn, frame, superpage, attr);
      SuperFrame(frame);
    }
  }

  lemma MapOccupied(s: Space, tbl: Tables, t: Space, u: Tables, shared: set<nat>, vpn: nat, frame: nat,
                    superpage: bool, attr: Attr)
    requires Inv(s, tbl, shared) && vpn < PAGES
    requires var l := LeafLevel(superpage);
      Grown(s, tbl, t, u, shared, vpn, l) && Over(vpn, l) in u && Read(t.mem, u[Over(vpn, l)], Index(vpn, l)).present
    ensures Mapped(s, tbl, t, u, shared, vpn, frame, superpage, attr, false)
    ensures !Vacant(s, tbl, vpn, superpage)
  {
    hide Over, Index, Link, Lookup, Shape;
    var l := LeafLevel(superpage);
    GrownPopulated(s, tbl, t, u, shared, vpn, l);
    assert !superpage ==> Populated(t.mem, u[Over(vpn, l)]);
    var w := OccupiedTarget(t, u, shared, vpn, superpage);
    assert Lookup(s.mem, tbl, w).Some?;
  }

  lemma MapVacant(s: Space, tbl: Tables, t: Space, u: Tables, shared: set<nat>, vpn: nat, frame: nat, superpage: bool,
                  attr: Attr)
    requires Inv(s, tbl, shared) && vpn < PAGES
    requires var l := LeafLevel(superpage);
      Grown(s, tbl, t, u, shared, vpn, l) && Over(vpn, l) in u && !Read(t.mem, u[Over(vpn, l)], Index(vpn, l)).present
    ensures var l := LeafLevel(superpage);
      && Read(t.mem, u[Over(vpn, l)], Index(vpn, l)) == ZERO
      && Mapped(s, tbl, t.(mem := Write(t.mem, u[Over(vpn, l)], Index(vpn, l), Leaf(frame, superpage, attr))), u,
                shared, vpn, frame, superpage, attr, true)
    ensures Vacant(s, tbl, vpn, superpage)
  {
    hide Over, Index, Link, Lookup, Core, AllPopulated;
    var l := LeafLevel(superpage);
    var n := Over(vpn, l);
    GrownPopulatedAfter(s, tbl, t, u, shared, vpn, l);
    FillVacant(t, u, shared, vpn, frame, superpage, attr);
    forall w: nat | w < PAGES && InTarget(w, vpn, superpage)
      ensures Lookup(s.mem, tbl, w).None?
    {
      assert Lookup(t.mem, u, w) == Lookup(s.mem, tbl, w);
    }
    assert u[n] in Pool(t, u);
  }

  lemma GrownPopulatedAfter(s: Space, tbl: Tables, t: Space, u: Tables, shared: set<nat>, vpn: nat, floor: nat)
    requires Inv(s, tbl, shared) && Grown(s, tbl, t, u, shared, vpn, floor)
    ensures forall n :: n in u && n.level == 1 && (floor > 1 || n != Over(vpn, 1)) ==> Populated(t.mem, u[n])
  {
    GrownPopulated(s, tbl, t, u, shared, vpn, floor);
  }

  /** Filling a vacant entry of a tree that may hold one empty page table, the target. */
  lemma FillVacant(t: Space, u: Tables, shared: set<nat>, vpn: nat, frame: nat, superpage: bool, attr: Attr)
    requires Core(t, u, shared) && vpn < PAGES
    requires forall n :: n in u && n.level == 1 && (superpage || n != Over(vpn, 1)) ==> Populated(t.mem, u[n])
    requires var l := LeafLevel(superpage);
      Over(vpn, l) in u && !Read(t.mem, u[Over(vpn, l)], Index(vpn, l)).present
    ensures var l := LeafLevel(superpage);
      var r := t.(mem := Write(t.mem, u[Over(vpn, l)], Index(vpn, l), Leaf(frame, superpage, attr)));
      && Read(t.mem, u[Over(vpn, l)], Index(vpn, l)) == ZERO
      && Inv(r, u, shared)
      && (forall w :: Lookup(r.mem, u, w) ==
            if InTarget(w, vpn, superpage) then Some(TargetMapping(w, frame, superpage, attr)) else Lookup(t.mem, u, w))
      && (forall w :: InTarget(w, vpn, superpage) ==> Lookup(t.mem, u, w).None?)
  {
    var l := LeafLevel(superpage);
    var n, i := Over(vpn, l), Index(vpn, l);
    var r := t.(mem := Write(t.mem, u[n], i, Leaf(frame, superpage, attr)));
    assert Shape(t, u, n);
    assert Link(Read(t.mem, u[n], i), u, shared, n, i);
    SuperFrame(frame);
    WriteLeaf(t, u, shared, n, i, Leaf(frame, superpage, attr));
    forall w
      ensures Lookup(r.mem, u, w) ==
        if InTarget(w, vpn, superpage) then Some(TargetMapping(w, frame, superpage, attr)) else Lookup(t.mem, u, w)
      ensures InTarget(w, vpn, superpage) ==> Lookup(t.mem, u, w).None?
    {
      LookupAfterLeaf(t, u, shared, vpn, frame, superpage, attr, w);
      if superpage {
        PathInjectiveSuper(w, vpn);
        PathStep(vpn, 2);
      }
    }
    forall m | m in u && m.level == 1
      ensures Populated(r.mem, u[m])
    {
      assert Shape(t, u, m);
      if m == n {
        assert Read(r.mem, u[m], i).present;
      } else {
        var j :| 0 <= j < ENTRIES && Read(t.mem, u[m], j).present;
        assert Read(r.mem, u[m], j).present;
      }
    }
  }

  // ---- Unmapping ----------------------------------------------------------------

  ghost predicate Unmapped(s: Space, tbl: Tables, t: Space, u: Tables, shared: set<nat>, vpn: nat, superpage: bool,
                           ok: bool) {
    && Inv(t, u, shared) && t.cr3 == s.cr3 && t.mem.Keys == s.mem.Keys
    && Pool(t, u) == Pool(s, tbl) && KeepsUpper(s.mem, tbl, t.mem)
    && (forall n :: n in tbl && n.level >= 2 ==> n in u && u[n] == tbl[n])
    && (forall w :: Lookup(t.mem, u, w) == if ok && InTarget(w, vpn, superpage) then None else Lookup(s.mem, tbl, w))
    && (forall f :: f in s.mem && f !in Pool(s, tbl) ==> f in t.mem && t.mem[f] == s.mem[f])
  }

  lemma UnmapStep(s: Space, tbl: Tables, shared: set<nat>, vpn: nat, superpage: bool) returns (u: Tables)
    requires Inv(s, tbl, shared) && vpn < PAGES && Region(vpn) !in shared
    requires !superpage ==> !IsSuper(Lookup(s.mem, tbl, vpn))
    ensures var (t, ok) := Unmap(s, vpn, superpage);
      && Unmapped(s, tbl, t, u, shared, vpn, superpage, ok)
      && (ok <==> if superpage then IsSuper(Lookup(s.mem, tbl, vpn)) else Lookup(s.mem, tbl, vpn).Some?)
  {
    u := tbl;
    PathTop(vpn);
    FindDirectory(s, tbl, shared, vpn, 4);
    UnmappedRefl(s, tbl, shared, vpn, superpage);
    if Over(vpn, 2) in tbl {
      var n, i := Over(vpn, 2), Index(vpn, 2);
      var e := Read(s.mem, tbl[n], i);
      assert Link(e, tbl, shared, n, i);
      PathStep(vpn, 2);
      if e.present && superpage && e.page {
        UnmapSuperpage(s, tbl, shared, vpn);
      } else if e.present && !superpage {
        u := UnmapPage(s, tbl, shared, vpn);
      }
    } else {
      OnPathBelow(s, tbl, shared, vpn, 3, 1);
    }
  }

  lemma UnmappedRefl(s: Space, tbl: Tables, shared: set<nat>, vpn: nat, superpage: bool)
    requires Inv(s, tbl, shared)
    ensures Unmapped(s, tbl, s, tbl, shared, vpn, superpage, false)
  {
  }

  lemma UnmapSuperpage(s: Space, tbl: Tables, shared: set<nat>, vpn: nat)
    requires Inv(s, tbl, shared) && vpn < PAGES && Over(vpn, 2) in tbl
    requires Read(s.mem, tbl[Over(vpn, 2)], Index(vpn, 2)).present && Read(s.mem, tbl[Over(vpn, 2)], Index(vpn, 2)).page
    ensures Unmapped(s, tbl, s.(mem := Write(s.mem, tbl[Over(vpn, 2)], Index(vpn, 2), ZERO)), tbl, shared, vpn, true,
        true)
  {
    hide Over, Index, Lookup, InTarget, KeepsUpper;
    var n, i := Over(vpn, 2), Index(vpn, 2);
    var t := s.(mem := Write(s.mem, tbl[n], i, ZERO));
    SuperCleared(s, tbl, shared, vpn);
    forall w
      ensures Lookup(t.mem, tbl, w) == if InTarget(w, vpn, true) then None else Lookup(s.mem, tbl, w)
    {
      LookupAfterSuper(s, tbl, shared, vpn, w);
    }
    LowWriteKeepsUpper(s, tbl, shared, n, i, ZERO);
    assert forall f :: f in s.mem && f != tbl[n] ==> f in t.mem && t.mem[f] == s.mem[f];
    OtherTablesPopulated(s, tbl, t, n);
    hide Core;
    assert tbl[n] in Pool(s, tbl);
  }

  lemma SuperCleared(s: Space, tbl: Tables, shared: set<nat>, vpn: nat)
    requires Core(s, tbl, shared) && Over(vpn, 2) in tbl && Read(s.mem, tbl[Over(vpn, 2)], Index(vpn, 2)).page
    ensures Core(s.(mem := Write(s.mem, tbl[Over(vpn, 2)], Index(vpn, 2), ZERO)), tbl, shared)
  {
    hide Over, Index, Lookup;
    var n, i := Over(vpn, 2), Index(vpn, 2);
    assert Link(Read(s.mem, tbl[n], i), tbl, shared, n, i);
    WriteLeaf(s, tbl, shared, n, i, ZERO);
  }

  lemma LookupAfterSuper(s: Space, tbl: Tables, shared: set<nat>, vpn: nat, w: nat)
    requires Core(s, tbl, shared) && Over(vpn, 2) in tbl && Read(s.mem, tbl[Over(vpn, 2)], Index(vpn, 2)).page
    ensures Lookup(Write(s.mem, tbl[Over(vpn, 2)], Index(vpn, 2), ZERO), tbl, w) ==
      if InTarget(w, vpn, true) then None else Lookup(s.mem, tbl, w)
  {
    var n, i := Over(vpn, 2), Index(vpn, 2);
    assert Shape(s, tbl, n) && Link(Read(s.mem, tbl[n], i), tbl, shared, n, i);
    PathStep(vpn, 2);
    PathInjectiveSuper(w, vpn);
    hide Link, Over, Index;
    assert Over(w, 1) in tbl ==> Shape(s, tbl, Over(w, 1));
    assert Over(w, 2) in tbl ==> Shape(s, tbl, Over(w, 2));
  }

  /** Rewriting one table leaves every other page table populated. */
  lemma OtherTablesPopulated(s: Space, tbl: Tables, t: Space, n: Node)
    requires AllPopulated(s, tbl) && n in tbl
    requires forall m, k :: m in tbl && k in tbl && tbl[m] == tbl[k] ==> m == k
    requires forall f :: f in s.mem && f != tbl[n] ==> f in t.mem && t.mem[f] == s.mem[f]
    ensures forall m :: m in tbl && m.level == 1 && m != n ==> Populated(t.mem, tbl[m])
  {
    forall m | m in tbl && m.level == 1 && m != n
      ensures Populated(t.mem, tbl[m])
    {
      var j :| 0 <= j < ENTRIES && Read(s.mem, tbl[m], j).present;
      assert Read(t.mem, tbl[m], j).present;
    }
  }

  lemma UnmapPage(s: Space, tbl: Tables, shared: set<nat>, vpn: nat) returns (u: Tables)
    requires Inv(s, tbl, shared) && vpn < PAGES && Region(vpn) !in shared && Over(vpn, 2) in tbl
    requires Read(s.mem, tbl[Over(vpn, 2)], Index(vpn, 2)).present && !IsSuper(Lookup(s.mem, tbl, vpn))
    ensures var (t, ok) := Unmap(s, vpn, false);
      && Unmapped(s, tbl, t, u, shared, vpn, false, ok)
      && (ok <==> Lookup(s.mem, tbl, vpn).Some?)
  {
    hide Unmapped, Find;
    var n2, i2 := Over(vpn, 2), Index(vpn, 2);
    var n1, i1 := Over(vpn, 1), Index(vpn, 1);
    PathTop(vpn);
    FindDirectory(s, tbl, shared, vpn, 4);
    PathStep(vpn, 2);
    assert Link(Read(s.mem, tbl[n2], i2), tbl, shared, n2, i2);
    u := tbl;
    var pt := tbl[n1];
    if !Read(s.mem, pt, i1).present {
      UnmappedRefl(s, tbl, shared, vpn, false);
    } else {
      var mem := Write(s.mem, pt, i1, ZERO);
      PageCleared(s, tbl, shared, vpn);
      if NoneBefore(mem, pt, ENTRIES) {
        u := tbl - {n1};
        LastPageGone(s, tbl, shared, vpn);
      } else {
        PageGone(s, tbl, shared, vpn);
      }
    }
  }

  /** Clearing one page's entry, before the emptied-table check. */
  lemma PageCleared(s: Space, tbl: Tables, shared: set<nat>, vpn: nat)
    requires Inv(s, tbl, shared) && Over(vpn, 1) in tbl
    ensures var t := s.(mem := Write(s.mem, tbl[Over(vpn, 1)], Index(vpn, 1), ZERO));
      && Core(t, tbl, shared)
      && (forall w :: Lookup(t.mem, tbl, w) == if w == vpn then None else Lookup(s.mem, tbl, w))
      && (forall m :: m in tbl && m.level == 1 && m != Over(vpn, 1) ==> Populated(t.mem, tbl[m]))
  {
    var n, i := Over(vpn, 1), Index(vpn, 1);
    var t := s.(mem := Write(s.mem, tbl[n], i, ZERO));
    WriteLeaf(s, tbl, shared, n, i, ZERO);
    hide Link, Lookup, Over, Index;
    assert Shape(s, tbl, n);
    forall w
      ensures Lookup(t.mem, tbl, w) == if w == vpn then None else Lookup(s.mem, tbl, w)
    {
      LookupAfterClear(s, tbl, shared, vpn, w);
    }
    OtherTablesPopulated(s, tbl, t, n);
  }

  lemma LookupAfterClear(s: Space, tbl: Tables, shared: set<nat>, vpn: nat, w: nat)
    requires Core(s, tbl, shared) && Over(vpn, 1) in tbl
    ensures Lookup(Write(s.mem, tbl[Over(vpn, 1)], Index(vpn, 1), ZERO), tbl, w) ==
      if w == vpn then None else Lookup(s.mem, tbl, w)
  {
    hide Link, Over, Index;
    PathInjective(w, vpn);
    assert Shape(s, tbl, Over(vpn, 1));
    assert Over(w, 1) in tbl ==> Shape(s, tbl, Over(w, 1));
    assert Over(w, 2) in tbl ==> Shape(s, tbl, Over(w, 2));
  }

  lemma PageGone(s: Space, tbl: Tables, shared: set<nat>, vpn: nat)
    requires Inv(s, tbl, shared) && Over(vpn, 1) in tbl
    requires !NoneBefore(Write(s.mem, tbl[Over(vpn, 1)], Index(vpn, 1), ZERO), tbl[Over(vpn, 1)], ENTRIES)
    ensures Unmapped(s, tbl, s.(mem := Write(s.mem, tbl[Over(vpn, 1)], Index(vpn, 1), ZERO)), tbl, shared, vpn, false,
        true)
  {
    hide Over, Index, Link, Lookup, Core, KeepsUpper;
    PageCleared(s, tbl, shared, vpn);
    LowWriteKeepsUpper(s, tbl, shared, Over(vpn, 1), Index(vpn, 1), ZERO);
    assert tbl[Over(vpn, 1)] in Pool(s, tbl);
  }

  lemma LastPageGone(s: Space, tbl: Tables, shared: set<nat>, vpn: nat)
    requires Inv(s, tbl, shared) && Over(vpn, 1) in tbl && Over(vpn, 2) in tbl && vpn < PAGES
    requires var mem := Write(s.mem, tbl[Over(vpn, 1)], Index(vpn, 1), ZERO);
      NoneBefore(mem, tbl[Over(vpn, 1)], ENTRIES)
    ensures var pt := tbl[Over(vpn, 1)];
      var t := s.(mem := Write(s.mem, pt, Index(vpn, 1), ZERO));
      Unmapped(s, tbl, Unlinked(t, tbl[Over(vpn, 2)], Index(vpn, 2), pt), tbl - {Over(vpn, 1)}, shared, vpn, false,
          true)
  {
    hide Link, Index, Over, Lookup, Core, Shape, KeepsUpper;
    var n2, n1 := Over(vpn, 2), Over(vpn, 1);
    var pt := tbl[n1];
    var t := s.(mem := Write(s.mem, pt, Index(vpn, 1), ZERO));
    var r, u := Unlinked(t, tbl[n2], Index(vpn, 2), pt), tbl - {n1};
    PageCleared(s, tbl, shared, vpn);
    PathStep(vpn, 2);
    UnlinkEmpty(t, tbl, shared, n2, Index(vpn, 2));
    forall w
      ensures Lookup(r.mem, u, w) == Lookup(t.mem, tbl, w)
    {
      LookupAfterUnlink(t, tbl, shared, vpn, w);
    }
    LowWriteKeepsUpper(s, tbl, shared, n1, Index(vpn, 1), ZERO);
    LowWriteKeepsUpper(t, tbl, shared, n2, Index(vpn, 2), ZERO);
    KeepsUpperTrans(s.mem, tbl, t.mem, tbl, r.mem);
    StillPopulated(t, tbl, shared, n2, Index(vpn, 2), n1);
    assert tbl[n2] in Pool(s, tbl) && pt in Pool(s, tbl);
    assert Pool(t, tbl) == Pool(s, tbl);
  }

  lemma StillPopulated(t: Space, tbl: Tables, shared: set<nat>, n2: Node, i: nat, n1: Node)
    requires Core(t, tbl, shared) && n2 in tbl && n2.level == 2
    requires forall m :: m in tbl && m.level == 1 && m != n1 ==> Populated(t.mem, tbl[m])
    ensures forall m :: m in tbl - {n1} && m.level == 1 ==> Populated(Write(t.mem, tbl[n2], i, ZERO), tbl[m])
  {
    forall m | m in tbl - {n1} && m.level == 1
      ensures Populated(Write(t.mem, tbl[n2], i, ZERO), tbl[m])
    {
      var j :| 0 <= j < ENTRIES && Read(t.mem, tbl[m], j).present;
      assert Read(Write(t.mem, tbl[n2], i, ZERO), tbl[m], j).present;
    }
  }

  lemma LookupAfterUnlink(t: Space, tbl: Tables, shared: set<nat>, vpn: nat, w: nat)
    requires Core(t, tbl, shared) && Over(vpn, 1) in tbl && Over(vpn, 2) in tbl
    requires NoneBefore(t.mem, tbl[Over(vpn, 1)], ENTRIES)
    ensures Lookup(Write(t.mem, tbl[Over(vpn, 2)], Index(vpn, 2), ZERO), tbl - {Over(vpn, 1)}, w)
      == Lookup(t.mem, tbl, w)
  {
    PathInjectiveSuper(w, vpn);
    hide Link, Over, Index;
    assert Shape(t, tbl, Over(vpn, 2));
    assert Over(w, 1) in tbl ==> Shape(t, tbl, Over(w, 1));
    assert Over(w, 2) in tbl ==> Shape(t, tbl, Over(w, 2));
  }
}
