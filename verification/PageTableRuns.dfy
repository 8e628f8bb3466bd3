/** The page table over whole runs: the hardware walk follows an abstract page
    map, and table pages are conserved. */
module PageTableRuns {
  import opened Basics
  import opened PageTableModel
  import opened PageTableInvariant
  import opened PageTableSteps
  import opened PageTableOps

  /** The tables form a tree over exactly the pages of `pool`; the regions in
      `shared` hang below a page directory of another space. */
  ghost predicate Valid(s: Space, shared: set<nat>, pool: set<nat>) {
    exists tbl :: Inv(s, tbl, shared) && Pool(s, tbl) == pool
  }

  /** A page this space translates through its own tables. */
  predicate Own(w: nat, shared: set<nat>) {
    w < PAGES && Region(w) !in shared
  }

  ghost predicate Untranslated(s: Space, vpn: nat, superpage: bool) {
    forall w: nat :: w < PAGES && InTarget(w, vpn, superpage) ==> Translate(s, w).None?
  }

  lemma TargetRegion(w: nat, vpn: nat, superpage: bool)
    requires InTarget(w, vpn, superpage)
    ensures Region(w) == Region(vpn)
  {
    assert w / 512 == vpn / 512;
    assert Region(w) == w / 512 / 512 && Region(vpn) == vpn / 512 / 512;
  }

  lemma VacantMeansUntranslated(s: Space, tbl: Tables, shared: set<nat>, vpn: nat, superpage: bool)
    requires Core(s, tbl, shared) && Own(vpn, shared)
    ensures Vacant(s, tbl, vpn, superpage) <==> Untranslated(s, vpn, superpage)
  {
    hide Core, Lookup, Translate, InTarget, Region;
    forall w: nat | w < PAGES && InTarget(w, vpn, superpage)
      ensures Lookup(s.mem, tbl, w) == Translate(s, w)
    {
      TargetRegion(w, vpn, superpage);
      WalkIsLookup(s, tbl, shared, w);
    }
  }

  /** Mapping refines one update of the page map.  It succeeds exactly when the
      target is untranslated and the spare pages suffice for the missing tables;
      a failure changes no translation, even if it linked tables. */
  lemma MapRefines(s: Space, shared: set<nat>, pool: set<nat>, vpn: nat, frame: nat, superpage: bool, attr: Attr)
    requires Valid(s, shared, pool) && Own(vpn, shared)
    requires superpage || !IsSuper(Translate(s, vpn))
    ensures var (t, ok) := Map(s, vpn, frame, superpage, attr);
      && Valid(t, shared, pool) && t.cr3 == s.cr3
      && (forall w: nat :: Own(w, shared) ==>
            Translate(t, w) ==
              if ok && InTarget(w, vpn, superpage) then Some(TargetMapping(w, frame, superpage, attr))
              else Translate(s, w))
      && (ok <==> Missing(s.mem, s.cr3, 4, LeafLevel(superpage), vpn) <= |s.free| && Untranslated(s, vpn, superpage))
      && (forall f :: f in s.mem && f !in pool ==> f in t.mem && t.mem[f] == s.mem[f])
  {
    hide Core, Lookup, Translate, InTarget, Region, Pool, Map, Missing, KeepsUpper, AllPopulated;
    var tbl :| Inv(s, tbl, shared) && Pool(s, tbl) == pool;
    WalkIsLookup(s, tbl, shared, vpn);
    VacantMeansUntranslated(s, tbl, shared, vpn, superpage);
    var u := MapStep(s, tbl, shared, vpn, frame, superpage, attr);
    var (t, ok) := Map(s, vpn, frame, superpage, attr);
    assert Inv(t, u, shared) && Pool(t, u) == pool;
    forall w: nat | Own(w, shared)
      ensures Translate(t, w) ==
        if ok && InTarget(w, vpn, superpage) then Some(TargetMapping(w, frame, superpage, attr)) else Translate(s, w)
    {
      WalkIsLookup(s, tbl, shared, w);
      WalkIsLookup(t, u, shared, w);
    }
  }

  lemma UnmapRefines(s: Space, shared: set<nat>, pool: set<nat>, vpn: nat, superpage: bool)
    requires Valid(s, shared, pool) && Own(vpn, shared)
    requires superpage || !IsSuper(Translate(s, vpn))
    ensures var (t, ok) := Unmap(s, vpn, superpage);
      && Valid(t, shared, pool) && t.cr3 == s.cr3
      && (forall w: nat :: Own(w, shared) ==>
            Translate(t, w) == if ok && InTarget(w, vpn, superpage) then None else Translate(s, w))
      && (ok <==> if superpage then IsSuper(Translate(s, vpn)) else Translate(s, vpn).Some?)
      && (forall f :: f in s.mem && f !in pool ==> f in t.mem && t.mem[f] == s.mem[f])
  {
    hide Core, Lookup, Translate, InTarget, Region, Pool, Unmap, KeepsUpper, AllPopulated;
    var tbl :| Inv(s, tbl, shared) && Pool(s, tbl) == pool;
    WalkIsLookup(s, tbl, shared, vpn);
    var u := UnmapStep(s, tbl, shared, vpn, superpage);
    var (t, ok) := Unmap(s, vpn, superpage);
    assert Inv(t, u, shared) && Pool(t, u) == pool;
    forall w: nat | Own(w, shared)
      ensures Translate(t, w) == if ok && InTarget(w, vpn, superpage) then None else Translate(s, w)
    {
      WalkIsLookup(s, tbl, shared, w);
      WalkIsLookup(t, u, shared, w);
    }
  }

  /** Preparing a region links its directory and changes no translation; after
      it no superpage of the region can fail for want of a table page. */
  lemma PrepareRefines(s: Space, shared: set<nat>, pool: set<nat>, vpn: nat)
    requires Valid(s, shared, pool) && Own(vpn, shared)
    ensures var (t, ok) := Prepare(s, vpn);
      && Valid(t, shared, pool) && t.cr3 == s.cr3
      && (forall w: nat :: Own(w, shared) ==> Translate(t, w) == Translate(s, w))
      && (ok <==> Missing(s.mem, s.cr3, 4, 2, vpn) <= |s.free|)
      && (ok ==> Missing(t.mem, t.cr3, 4, 2, vpn) == 0)
      && (forall f :: f in s.mem && f !in pool ==> f in t.mem && t.mem[f] == s.mem[f])
  {
    hide Core, Lookup, Translate, Region, Pool, Descend, KeepsUpper, Over;
    var tbl :| Inv(s, tbl, shared) && Pool(s, tbl) == pool;
    PathTop(vpn);
    RootIs(s, tbl, shared);
    var u := DescendGrows(s, tbl, shared, 4, 2, vpn);
    var (t, ok) := Prepare(s, vpn);
    GrownPopulatedWhole(s, tbl, t, u, shared, vpn, if ok then 2 else 3);
    assert Inv(t, u, shared) && Pool(t, u) == pool;
    forall w: nat | Own(w, shared)
      ensures Translate(t, w) == Translate(s, w)
    {
      WalkIsLookup(s, tbl, shared, w);
      WalkIsLookup(t, u, shared, w);
    }
    if ok {
      RootIs(t, u, shared);
      NothingMissing(t, u, shared, vpn, 4);
    }
  }

  lemma RootIs(s: Space, tbl: Tables, shared: set<nat>)
    requires Core(s, tbl, shared)
    ensures ROOT in tbl && tbl[ROOT] == s.cr3
  {
  }

  lemma GrownPopulatedWhole(s: Space, tbl: Tables, t: Space, u: Tables, shared: set<nat>, vpn: nat, floor: nat)
    requires AllPopulated(s, tbl) && Grown(s, tbl, t, u, shared, vpn, floor) && floor > 1
    ensures AllPopulated(t, u)
  {
    GrownPopulated(s, tbl, t, u, shared, vpn, floor);
  }

  lemma {:induction false} NothingMissing(s: Space, tbl: Tables, shared: set<nat>, vpn: nat, level: nat)
    requires Core(s, tbl, shared) && Own(vpn, shared) && 2 <= level <= 4
    requires Over(vpn, level) in tbl && Over(vpn, 2) in tbl
    ensures Missing(s.mem, tbl[Over(vpn, level)], level, 2, vpn) == 0
    decreases level
  {
    if level > 2 {
      var n, i := Over(vpn, level), Index(vpn, level);
      PathStep(vpn, level);
      assert Link(Read(s.mem, tbl[n], i), tbl, shared, n, i);
      if Over(vpn, level - 1) !in tbl { OnPathBelow(s, tbl, shared, vpn, level, 2); }
      NothingMissing(s, tbl, shared, vpn, level - 1);
    }
  }

  // ---- Runs ---------------------------------------------------------------------------

  datatype Op =
    | MapOp(vpn: nat, frame: nat, superpage: bool, attr: Attr)
    | UnmapOp(vpn: nat, superpage: bool)
    | PrepareOp(vpn: nat)

  function Step(s: Space, op: Op): (Space, bool) {
    match op
    case MapOp(vpn, frame, superpage, attr) => Map(s, vpn, frame, superpage, attr)
    case UnmapOp(vpn, superpage) => Unmap(s, vpn, superpage)
    case PrepareOp(vpn) => Prepare(s, vpn)
  }

  function Run(s: Space, ops: seq<Op>): Space
    decreases |ops|
  {
    if ops == [] then s else Run(Step(s, ops[0]).0, ops[1..])
  }

  /** An operation on the space's own pages; a 4 KiB operation keeps out of
      live superpages, whose entry the code would take for a table. */
  predicate Permitted(s: Space, shared: set<nat>, op: Op) {
    && Own(op.vpn, shared)
    && match op
       case MapOp(vpn, _, superpage, _) => superpage || !IsSuper(Translate(s, vpn))
       case UnmapOp(vpn, superpage) => superpage || !IsSuper(Translate(s, vpn))
       case PrepareOp(_) => true
  }

  predicate PermittedRun(s: Space, shared: set<nat>, ops: seq<Op>)
    decreases |ops|
  {
    ops == [] || (Permitted(s, shared, ops[0]) && PermittedRun(Step(s, ops[0]).0, shared, ops[1..]))
  }

  /** The abstract machine: a function from page to what it means, changed at
      the named pages by the operations that succeed. */
  type PageMap = nat -> Option<Mapping>

  function AbstractStep(m: PageMap, op: Op, ok: bool): PageMap {
    match op
    case MapOp(vpn, frame, superpage, attr) =>
      (w: nat) => if ok && InTarget(w, vpn, superpage) then Some(TargetMapping(w, frame, superpage, attr)) else m(w)
    case UnmapOp(vpn, superpage) =>
      (w: nat) => if ok && InTarget(w, vpn, superpage) then None else m(w)
    case PrepareOp(_) => m
  }

  function AbstractRun(m: PageMap, s: Space, ops: seq<Op>): PageMap
    decreases |ops|
  {
    if ops == [] then m
    else AbstractRun(AbstractStep(m, ops[0], Step(s, ops[0]).1), Step(s, ops[0]).0, ops[1..])
  }

  ghost predicate Agrees(m: PageMap, s: Space, shared: set<nat>) {
    forall w: nat :: Own(w, shared) ==> m(w) == Translate(s, w)
  }

  lemma StepRefines(m: PageMap, s: Space, shared: set<nat>, pool: set<nat>, op: Op)
    requires Valid(s, shared, pool) && Permitted(s, shared, op) && Agrees(m, s, shared)
    ensures var (t, ok) := Step(s, op);
      && Valid(t, shared, pool) && t.cr3 == s.cr3
      && Agrees(AbstractStep(m, op, ok), t, shared)
      && (forall f :: f in s.mem && f !in pool ==> f in t.mem && t.mem[f] == s.mem[f])
  {
    hide Valid, Translate, Map, Unmap, Prepare, Missing, InTarget;
    match op
    case MapOp(vpn, frame, superpage, attr) => MapRefines(s, shared, pool, vpn, frame, superpage, attr);
    case UnmapOp(vpn, superpage) => UnmapRefines(s, shared, pool, vpn, superpage);
    case PrepareOp(vpn) => PrepareRefines(s, shared, pool, vpn);
  }

  /** Over every permitted run the hardware walk equals the abstract page map,
      and the linked tables and spare pages stay exactly the pages of the pool. */
  lemma {:induction false} RunRefines(m: PageMap, s: Space, shared: set<nat>, pool: set<nat>, ops: seq<Op>)
    requires Valid(s, shared, pool) && PermittedRun(s, shared, ops) && Agrees(m, s, shared)
    ensures Valid(Run(s, ops), shared, pool)
    ensures Agrees(AbstractRun(m, s, ops), Run(s, ops), shared)
    decreases |ops|
  {
    hide Valid, Agrees, AbstractStep, Step, Permitted;
    if ops != [] {
      StepRefines(m, s, shared, pool, ops[0]);
      var (t, ok) := Step(s, ops[0]);
      RunRefines(AbstractStep(m, ops[0], ok), t, shared, pool, ops[1..]);
    }
  }

  /** A new space translates nothing and owns exactly the pages it was given. */
  lemma InitValid(mem: Memory, base: nat, nr: nat)
    requires nr >= 1 && forall f :: base <= f < base + nr ==> f in mem
    ensures Valid(Init(mem, base, nr), {}, set f | f in mem && base <= f < base + nr)
    ensures forall w: nat :: w < PAGES ==> Translate(Init(mem, base, nr), w).None?
  {
    var s := Init(mem, base, nr);
    var tbl: Tables := map[ROOT := base];
    var pool := set f | f in mem && base <= f < base + nr;
    assert forall i :: 0 <= i < ENTRIES ==> Read(s.mem, base, i) == ZERO;
    assert Inv(s, tbl, {});
    assert tbl[ROOT] in tbl.Values;
    forall f | base < f < base + nr
      ensures f in s.free
    {
      assert s.free[base + nr - 1 - f] == f;
    }
    assert Pool(s, tbl) == pool;
  }

  /** Unmapping the last 4 KiB page of a slot makes the slot fit for a superpage again. */
  lemma EmptiedSlotTakesSuperpage(s: Space, shared: set<nat>, pool: set<nat>, vpn: nat, frame: nat, attr: Attr)
    requires Valid(s, shared, pool) && Own(vpn, shared)
    requires Translate(s, vpn).Some? && !IsSuper(Translate(s, vpn))
    requires forall w: nat :: w < PAGES && w / 512 == vpn / 512 && w != vpn ==> Translate(s, w).None?
    ensures Map(Unmap(s, vpn, false).0, vpn, frame, true, attr).1
  {
    hide Translate, Map, Unmap, Missing;
    UnmapRefines(s, shared, pool, vpn, false);
    var t := Unmap(s, vpn, false).0;
    assert Untranslated(t, vpn, true) by {
      forall w: nat | w < PAGES && InTarget(w, vpn, true)
        ensures Translate(t, w).None?
      {
        TargetRegion(w, vpn, true);
        assert Own(w, shared);
      }
    }
    DirectoryStays(s, shared, pool, vpn);
    MapRefines(t, shared, pool, vpn, frame, true, attr);
  }

  lemma DirectoryStays(s: Space, shared: set<nat>, pool: set<nat>, vpn: nat)
    requires Valid(s, shared, pool) && Own(vpn, shared)
    requires Translate(s, vpn).Some? && !IsSuper(Translate(s, vpn))
    ensures var t := Unmap(s, vpn, false).0; Missing(t.mem, t.cr3, 4, 2, vpn) == 0
  {
    var tbl :| Inv(s, tbl, shared) && Pool(s, tbl) == pool;
    WalkIsLookup(s, tbl, shared, vpn);
    assert Over(vpn, 2) in tbl by {
      PathStep(vpn, 2);
      ChildUp(Over(vpn, 2), Index(vpn, 2));
      assert Over(vpn, 1) in tbl ==> Shape(s, tbl, Over(vpn, 1));
    }
    hide Core, Lookup, Translate, Unmap, Over, Region;
    var u := UnmapStep(s, tbl, shared, vpn, false);
    var t := Unmap(s, vpn, false).0;
    PathTop(vpn);
    RootIs(t, u, shared);
    NothingMissing(t, u, shared, vpn, 4);
  }
}
