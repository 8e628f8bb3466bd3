/** Address spaces that share a 1 GiB kernel region: `Refer` links the kernel's
    page directory into another space, and from then on both translate the
    region alike whatever either of them does. */
module PageTableShared {
  import opened Basics
  import opened PageTableModel
  import opened PageTableInvariant
  import opened PageTableSteps
  import opened PageTableOps
  import opened PageTableRuns

  /** Two spaces over one physical memory. */
  datatype Pair = Pair(mem: Memory, kcr3: nat, kfree: seq<nat>, ccr3: nat, cfree: seq<nat>)

  function Kernel(p: Pair): Space {
    Space(p.mem, p.kcr3, p.kfree)
  }

  function Child(p: Pair): Space {
    Space(p.mem, p.ccr3, p.cfree)
  }

  datatype PairOp = OnKernel(op: Op) | OnChild(op: Op)

  function PairStep(p: Pair, op: PairOp): Pair {
    match op
    case OnKernel(o) =>
      var t := Step(Kernel(p), o).0;
      p.(mem := t.mem, kcr3 := t.cr3, kfree := t.free)
    case OnChild(o) =>
      var t := Step(Child(p), o).0;
      p.(mem := t.mem, ccr3 := t.cr3, cfree := t.free)
  }

  function PairRun(p: Pair, ops: seq<PairOp>): Pair
    decreases |ops|
  {
    if ops == [] then p else PairRun(PairStep(p, ops[0]), ops[1..])
  }

  /** The kernel maps and unmaps anywhere, the other space outside its shared regions. */
  predicate PairPermitted(p: Pair, shared: set<nat>, op: PairOp) {
    match op
    case OnKernel(o) => Permitted(Kernel(p), {}, o)
    case OnChild(o) => Permitted(Child(p), shared, o)
  }

  predicate PairPermittedRun(p: Pair, shared: set<nat>, ops: seq<PairOp>)
    decreases |ops|
  {
    ops == [] || (PairPermitted(p, shared, ops[0]) && PairPermittedRun(PairStep(p, ops[0]), shared, ops[1..]))
  }

  // ---- The invariant ------------------------------------------------------------

  /** The page directory that entry `g` of level 3 points at. */
  function DirectoryOf(mem: Memory, tbl: Tables, g: nat): nat
    requires Node(3, g / ENTRIES) in tbl
  {
    Read(mem, tbl[Node(3, g / ENTRIES)], g % ENTRIES).frame
  }

  ghost predicate Joined(p: Pair, ktbl: Tables, ctbl: Tables, shared: set<nat>, kpool: set<nat>, cpool: set<nat>) {
    && Inv(Kernel(p), ktbl, {}) && Pool(Kernel(p), ktbl) == kpool
    && Inv(Child(p), ctbl, shared) && Pool(Child(p), ctbl) == cpool
    && kpool !! cpool
    && (forall g :: g in shared ==>
          && Node(3, g / ENTRIES) in ktbl && Node(2, g) in ktbl
          && Node(3, g / ENTRIES) in ctbl
          && DirectoryOf(p.mem, ctbl, g) == ktbl[Node(2, g)])
  }

  ghost predicate PairValid(p: Pair, shared: set<nat>, kpool: set<nat>, cpool: set<nat>) {
    exists ktbl, ctbl :: Joined(p, ktbl, ctbl, shared, kpool, cpool)
  }

  // ---- Reading a region through its directory --------------------------------------

  lemma RegionIndices(w: nat, g: nat)
    requires w < PAGES && Region(w) == g
    ensures Over(w, 4) == ROOT && Over(w, 3) == Node(3, g / ENTRIES) && Index(w, 3) == g % ENTRIES &&
        Over(w, 2) == Node(2, g)
  {
  }

  /** The upper levels grant everything, so the directory decides. */
  lemma WalkFromDirectory(s: Space, tbl: Tables, shared: set<nat>, w: nat, g: nat)
    requires Core(s, tbl, shared) && w < PAGES && Region(w) == g && Node(3, g / ENTRIES) in tbl
    requires Read(s.mem, tbl[Node(3, g / ENTRIES)], g % ENTRIES).present
    ensures Translate(s, w) == Walk(s.mem, DirectoryOf(s.mem, tbl, g), 2, w)
  {
    RegionIndices(w, g);
    var n3 := Node(3, g / ENTRIES);
    var e3 := Read(s.mem, tbl[n3], g % ENTRIES);
    assert Link(e3, tbl, shared, n3, g % ENTRIES);
    PathStep(w, 4);
    var e4 := Read(s.mem, tbl[ROOT], Index(w, 4));
    assert Link(e4, tbl, shared, ROOT, Index(w, 4));
    hide Walk;
    assert e4.present && e4.frame == tbl[n3];
    WalkDown(s.mem, tbl[n3], 3, w);
    WalkDown(s.mem, tbl[ROOT], 4, w);
  }

  lemma WalkDown(mem: Memory, table: nat, level: nat, w: nat)
    requires 2 <= level <= 4
    requires var e := Read(mem, table, Index(w, level)); e.present && !e.page && e.rw && e.us
    ensures Walk(mem, table, level, w) == Walk(mem, Read(mem, table, Index(w, level)).frame, level - 1, w)
  {
  }

  lemma KernelEntry(s: Space, tbl: Tables, g: nat)
    requires Core(s, tbl, {}) && Node(2, g) in tbl
    ensures Node(3, g / ENTRIES) in tbl
    ensures Read(s.mem, tbl[Node(3, g / ENTRIES)], g % ENTRIES).present
    ensures DirectoryOf(s.mem, tbl, g) == tbl[Node(2, g)]
  {
    assert Shape(s, tbl, Node(2, g));
    var n := Node(3, g / ENTRIES);
    assert PageTableInvariant.Child(n, g % ENTRIES) == Node(2, g);
    assert Link(Read(s.mem, tbl[n], g % ENTRIES), tbl, {}, n, g % ENTRIES);
  }

  /** Both spaces read a shared region through the same directory. */
  lemma SharedRegionsAgree(p: Pair, shared: set<nat>, kpool: set<nat>, cpool: set<nat>, w: nat)
    requires PairValid(p, shared, kpool, cpool) && w < PAGES && Region(w) in shared
    ensures Translate(Kernel(p), w) == Translate(Child(p), w)
  {
    var ktbl, ctbl :| Joined(p, ktbl, ctbl, shared, kpool, cpool);
    var g := Region(w);
    KernelEntry(Kernel(p), ktbl, g);
    WalkFromDirectory(Kernel(p), ktbl, {}, w, g);
    WalkFromDirectory(Child(p), ctbl, shared, w, g);
  }

  // ---- Steps of one space seen from the other ----------------------------------------

  /** A space does not notice writes outside its own pages. */
  lemma {:induction false} OtherMemory(s: Space, t: Space, tbl: Tables, shared: set<nat>)
    requires Inv(s, tbl, shared) && t.cr3 == s.cr3 && t.free == s.free
    requires forall f :: f in Pool(s, tbl) && f in s.mem ==> f in t.mem && t.mem[f] == s.mem[f]
    ensures Inv(t, tbl, shared) && Pool(t, tbl) == Pool(s, tbl)
    ensures forall n, i :: n in tbl && 0 <= i < ENTRIES ==> Read(t.mem, tbl[n], i) == Read(s.mem, tbl[n], i)
  {
    forall n, i | n in tbl && 0 <= i < ENTRIES
      ensures Read(t.mem, tbl[n], i) == Read(s.mem, tbl[n], i)
    {
      assert Shape(s, tbl, n);
      assert tbl[n] in Pool(s, tbl);
    }
    forall n | n in tbl
      ensures Shape(t, tbl, n)
    {
      assert Shape(s, tbl, n);
      assert tbl[n] in Pool(s, tbl);
    }
    forall i | 0 <= i < |s.free|
      ensures s.free[i] in t.mem
    {
      assert s.free[i] in Pool(s, tbl);
    }
    forall n | n in tbl && n.level == 1
      ensures Populated(t.mem, tbl[n])
    {
      var i :| 0 <= i < ENTRIES && Read(s.mem, tbl[n], i).present;
      assert Read(t.mem, tbl[n], i).present;
    }
    hide Link;
    assert Core(t, tbl, shared);
  }

  /** What one operation keeps: tables of level 2 and up, present entries of
      level 3 and up, and every page outside the pool. */
  ghost predicate Kept(s: Space, tbl: Tables, t: Space, u: Tables, shared: set<nat>) {
    && Inv(t, u, shared) && t.cr3 == s.cr3 && Pool(t, u) == Pool(s, tbl) && t.mem.Keys == s.mem.Keys
    && (forall n :: n in tbl && n.level >= 2 ==> n in u && u[n] == tbl[n])
    && KeepsUpper(s.mem, tbl, t.mem)
    && (forall f :: f in s.mem && f !in Pool(s, tbl) ==> f in t.mem && t.mem[f] == s.mem[f])
  }

  lemma StepKeeps(s: Space, tbl: Tables, shared: set<nat>, op: Op) returns (u: Tables)
    requires Inv(s, tbl, shared) && Permitted(s, shared, op)
    ensures Kept(s, tbl, Step(s, op).0, u, shared)
  {
    hide Core, Lookup, Translate, Region, Pool, Map, Unmap, Missing, KeepsUpper, AllPopulated, Descend, Over;
    WalkIsLookup(s, tbl, shared, op.vpn);
    match op
    case MapOp(vpn, frame, superpage, attr) =>
      u := MapStep(s, tbl, shared, vpn, frame, superpage, attr);
    case UnmapOp(vpn, superpage) =>
      u := UnmapStep(s, tbl, shared, vpn, superpage);
    case PrepareOp(vpn) =>
      PathTop(vpn);
      RootIs(s, tbl, shared);
      u := DescendGrows(s, tbl, shared, 4, 2, vpn);
      var (t, ok) := Prepare(s, vpn);
      GrownPopulatedWhole(s, tbl, t, u, shared, vpn, if ok then 2 else 3);
  }

  /** Every page of its own translates as before. */
  ghost predicate SameView(s: Space, t: Space, shared: set<nat>) {
    forall w: nat :: Own(w, shared) ==> Translate(t, w) == Translate(s, w)
  }

  lemma SameReadsSameView(s: Space, t: Space, tbl: Tables, shared: set<nat>)
    requires Inv(s, tbl, shared) && Inv(t, tbl, shared)
    requires forall n, i :: n in tbl && 0 <= i < ENTRIES ==> Read(t.mem, tbl[n], i) == Read(s.mem, tbl[n], i)
    ensures SameView(s, t, shared)
  {
    hide Core, AllPopulated, Lookup, Translate, Region;
    SameReadsSameLookup(s, t, tbl);
    forall w: nat | Own(w, shared) ensures Translate(t, w) == Translate(s, w) {
      WalkIsLookup(s, tbl, shared, w);
      WalkIsLookup(t, tbl, shared, w);
    }
  }

  /** A step of either space keeps the sharing, and every translation of the other's own. */
  lemma PairStepKeeps(p: Pair, shared: set<nat>, kpool: set<nat>, cpool: set<nat>, op: PairOp)
    requires PairValid(p, shared, kpool, cpool) && PairPermitted(p, shared, op)
    ensures PairValid(PairStep(p, op), shared, kpool, cpool)
    ensures op.OnKernel? ==> SameView(Child(p), Child(PairStep(p, op)), shared)
    ensures op.OnChild? ==> SameView(Kernel(p), Kernel(PairStep(p, op)), {})
  {
    var ktbl, ctbl :| Joined(p, ktbl, ctbl, shared, kpool, cpool);
    match op
    case OnKernel(o) =>
      KernelStep(p, ktbl, ctbl, shared, kpool, cpool, o);
    case OnChild(o) =>
      ChildStep(p, ktbl, ctbl, shared, kpool, cpool, o);
  }

  lemma KernelStep(p: Pair, ktbl: Tables, ctbl: Tables, shared: set<nat>, kpool: set<nat>, cpool: set<nat>, o: Op)
    requires Joined(p, ktbl, ctbl, shared, kpool, cpool) && Permitted(Kernel(p), {}, o)
    ensures PairValid(PairStep(p, OnKernel(o)), shared, kpool, cpool)
    ensures SameView(Child(p), Child(PairStep(p, OnKernel(o))), shared)
  {
    hide Core, AllPopulated, Pool, KeepsUpper, Step, Translate, Region;
    var q := PairStep(p, OnKernel(o));
    var u := StepKeeps(Kernel(p), ktbl, {}, o);
    assert Kernel(q) == Step(Kernel(p), o).0;
    OtherMemory(Child(p), Child(q), ctbl, shared);
    SameReadsSameView(Child(p), Child(q), ctbl, shared);
    assert Joined(q, u, ctbl, shared, kpool, cpool);
  }

  lemma ChildStep(p: Pair, ktbl: Tables, ctbl: Tables, shared: set<nat>, kpool: set<nat>, cpool: set<nat>, o: Op)
    requires Joined(p, ktbl, ctbl, shared, kpool, cpool) && Permitted(Child(p), shared, o)
    ensures PairValid(PairStep(p, OnChild(o)), shared, kpool, cpool)
    ensures SameView(Kernel(p), Kernel(PairStep(p, OnChild(o))), {})
  {
    var q := PairStep(p, OnChild(o));
    var u := StepKeeps(Child(p), ctbl, shared, o);
    assert Child(q) == Step(Child(p), o).0;
    SharedEntriesStay(Child(p), ctbl, Child(q), u, shared);
    hide Core, AllPopulated, Pool, KeepsUpper, Step, Translate, Region;
    OtherMemory(Kernel(p), Kernel(q), ktbl, {});
    SameReadsSameView(Kernel(p), Kernel(q), ktbl, {});
    assert Joined(q, ktbl, u, shared, kpool, cpool);
  }

  lemma SharedEntriesStay(s: Space, tbl: Tables, t: Space, u: Tables, shared: set<nat>)
    requires Inv(s, tbl, shared) && Kept(s, tbl, t, u, shared)
    ensures forall g :: g in shared ==>
        Node(3, g / ENTRIES) in tbl && Node(3, g / ENTRIES) in u &&
            DirectoryOf(t.mem, u, g) == DirectoryOf(s.mem, tbl, g)
  {
    hide Link, Shape, Pool, AllPopulated, SparePages;
    forall g | g in shared
      ensures Node(3, g / ENTRIES) in tbl && Node(3, g / ENTRIES) in u &&
          DirectoryOf(t.mem, u, g) == DirectoryOf(s.mem, tbl, g)
    {
      assert Read(s.mem, tbl[Node(3, g / ENTRIES)], g % ENTRIES).present;
    }
  }

  /** Once a region is shared, both spaces translate it identically, permissions
      included, after every later run of either space's own operations. */
  lemma {:induction false} SharedForever(p: Pair, shared: set<nat>, kpool: set<nat>, cpool: set<nat>, ops: seq<PairOp>)
    requires PairValid(p, shared, kpool, cpool) && PairPermittedRun(p, shared, ops)
    ensures PairValid(PairRun(p, ops), shared, kpool, cpool)
    ensures forall w: nat :: w < PAGES && Region(w) in shared ==>
      Translate(Kernel(PairRun(p, ops)), w) == Translate(Child(PairRun(p, ops)), w)
    decreases |ops|
  {
    hide PairValid, Translate, PairStep, PairPermitted, Region;
    if ops == [] {
      forall w: nat | w < PAGES && Region(w) in shared
        ensures Translate(Kernel(p), w) == Translate(Child(p), w)
      {
        SharedRegionsAgree(p, shared, kpool, cpool, w);
      }
    } else {
      PairStepKeeps(p, shared, kpool, cpool, ops[0]);
      SharedForever(PairStep(p, ops[0]), shared, kpool, cpool, ops[1..]);
    }
  }

  // ---- Each space follows its own operations --------------------------------------------

  /** The abstract page map of the child, changed by the child's operations alone. */
  function ChildMap(m: PageMap, p: Pair, ops: seq<PairOp>): PageMap
    decreases |ops|
  {
    if ops == [] then m
    else
      var after := if ops[0].OnChild? then AbstractStep(m, ops[0].op, Step(Child(p), ops[0].op).1) else m;
      ChildMap(after, PairStep(p, ops[0]), ops[1..])
  }

  function KernelMap(m: PageMap, p: Pair, ops: seq<PairOp>): PageMap
    decreases |ops|
  {
    if ops == [] then m
    else
      var after := if ops[0].OnKernel? then AbstractStep(m, ops[0].op, Step(Kernel(p), ops[0].op).1) else m;
      KernelMap(after, PairStep(p, ops[0]), ops[1..])
  }

  lemma PairSpacesValid(p: Pair, shared: set<nat>, kpool: set<nat>, cpool: set<nat>)
    requires PairValid(p, shared, kpool, cpool)
    ensures Valid(Kernel(p), {}, kpool) && Valid(Child(p), shared, cpool)
  {
  }

  lemma ChildStepAgrees(m: PageMap, p: Pair, shared: set<nat>, kpool: set<nat>, cpool: set<nat>, op: PairOp)
    requires PairValid(p, shared, kpool, cpool) && PairPermitted(p, shared, op) && Agrees(m, Child(p), shared)
    ensures var after := if op.OnChild? then AbstractStep(m, op.op, Step(Child(p), op.op).1) else m;
      Agrees(after, Child(PairStep(p, op)), shared)
  {
    hide PairValid, Valid, Translate, Step, Permitted, Region;
    PairStepKeeps(p, shared, kpool, cpool, op);
    PairSpacesValid(p, shared, kpool, cpool);
    if op.OnChild? {
      StepRefines(m, Child(p), shared, cpool, op.op);
      assert Child(PairStep(p, op)) == Step(Child(p), op.op).0;
    }
  }

  lemma KernelStepAgrees(m: PageMap, p: Pair, shared: set<nat>, kpool: set<nat>, cpool: set<nat>, op: PairOp)
    requires PairValid(p, shared, kpool, cpool) && PairPermitted(p, shared, op) && Agrees(m, Kernel(p), {})
    ensures var after := if op.OnKernel? then AbstractStep(m, op.op, Step(Kernel(p), op.op).1) else m;
      Agrees(after, Kernel(PairStep(p, op)), {})
  {
    hide PairValid, Valid, Translate, Step, Permitted, Region;
    PairStepKeeps(p, shared, kpool, cpool, op);
    PairSpacesValid(p, shared, kpool, cpool);
    if op.OnKernel? {
      StepRefines(m, Kernel(p), {}, kpool, op.op);
      assert Kernel(PairStep(p, op)) == Step(Kernel(p), op.op).0;
    }
  }

  /** Over every run of both spaces, what each translates through its own tables is the
      abstract page map driven by its own operations: neither disturbs the other. */
  lemma {:induction false} SpacesApart(km: PageMap, cm: PageMap, p: Pair, shared: set<nat>, kpool: set<nat>,
                                       cpool: set<nat>, ops: seq<PairOp>)
    requires PairValid(p, shared, kpool, cpool) && PairPermittedRun(p, shared, ops)
    requires Agrees(km, Kernel(p), {}) && Agrees(cm, Child(p), shared)
    ensures Agrees(KernelMap(km, p, ops), Kernel(PairRun(p, ops)), {})
    ensures Agrees(ChildMap(cm, p, ops), Child(PairRun(p, ops)), shared)
    decreases |ops|
  {
    hide PairValid, PairStep, PairPermitted, Agrees, AbstractStep, Step;
    if ops != [] {
      var op := ops[0];
      KernelStepAgrees(km, p, shared, kpool, cpool, op);
      ChildStepAgrees(cm, p, shared, kpool, cpool, op);
      PairStepKeeps(p, shared, kpool, cpool, op);
      var kafter := if op.OnKernel? then AbstractStep(km, op.op, Step(Kernel(p), op.op).1) else km;
      var cafter := if op.OnChild? then AbstractStep(cm, op.op, Step(Child(p), op.op).1) else cm;
      SpacesApart(kafter, cafter, PairStep(p, op), shared, kpool, cpool, ops[1..]);
    }
  }

  // ---- Establishing the sharing -------------------------------------------------------

  function ReferPair(p: Pair, vpn: nat): (Pair, bool) {
    var (t, ok) := Refer(Child(p), p.kcr3, vpn);
    (p.(mem := t.mem, ccr3 := t.cr3, cfree := t.free), ok)
  }

  function ForeignLink(pd: nat): Entry {
    Entry(true, true, true, false, false, pd)
  }

  /** Pointing a vacant level 3 entry at a foreign directory. */
  lemma LinkForeign(s: Space, tbl: Tables, shared: set<nat>, g: nat, pd: nat)
    requires Inv(s, tbl, shared) && Node(3, g / ENTRIES) in tbl
    requires !Read(s.mem, tbl[Node(3, g / ENTRIES)], g % ENTRIES).present
    ensures var n := Node(3, g / ENTRIES);
      var t := s.(mem := Write(s.mem, tbl[n], g % ENTRIES, ForeignLink(pd)));
      && Read(s.mem, tbl[n], g % ENTRIES) == ZERO
      && Inv(t, tbl, shared + {g})
      && (forall w :: Lookup(t.mem, tbl, w) == Lookup(s.mem, tbl, w))
      && DirectoryOf(t.mem, tbl, g) == pd
      && (forall h :: h in shared ==>
          h != g && Node(3, h / ENTRIES) in tbl && DirectoryOf(t.mem, tbl, h) == DirectoryOf(s.mem, tbl, h))
  {
    hide Link, Lookup, Over;
    var n, i := Node(3, g / ENTRIES), g % ENTRIES;
    var t := s.(mem := Write(s.mem, tbl[n], i, ForeignLink(pd)));
    NoChild(s, tbl, shared, n, i);
    assert Shape(s, tbl, n);
    forall m | m in tbl
      ensures Shape(t, tbl, m)
    {
      assert Shape(s, tbl, m);
    }
    forall m, j | m in tbl && 0 <= j < ENTRIES
      ensures Link(Read(t.mem, tbl[m], j), tbl, shared + {g}, m, j)
    {
      LinkForeignEntry(s, tbl, shared, g, pd, m, j);
    }
    forall h | h in shared
      ensures h != g && Node(3, h / ENTRIES) in tbl && DirectoryOf(t.mem, tbl, h) == DirectoryOf(s.mem, tbl, h)
      ensures Read(t.mem, tbl[Node(3, h / ENTRIES)], h % ENTRIES).present
    {
      assert Read(s.mem, tbl[Node(3, h / ENTRIES)], h % ENTRIES).present;
    }
    OtherTablesPopulated(s, tbl, t, n);
    UpperWriteKeepsLookup(s, tbl, shared, n, i, ForeignLink(pd));
  }

  lemma LinkForeignEntry(s: Space, tbl: Tables, shared: set<nat>, g: nat, pd: nat, m: Node, j: nat)
    requires Core(s, tbl, shared) && Node(3, g / ENTRIES) in tbl && m in tbl && j < ENTRIES
    requires !Read(s.mem, tbl[Node(3, g / ENTRIES)], g % ENTRIES).present
    ensures Link(Read(Write(s.mem, tbl[Node(3, g / ENTRIES)], g % ENTRIES, ForeignLink(pd)), tbl[m], j), tbl,
        shared + {g}, m, j)
  {
    NoChild(s, tbl, shared, Node(3, g / ENTRIES), g % ENTRIES);
    assert Shape(s, tbl, m) && Shape(s, tbl, Node(3, g / ENTRIES));
    assert Link(Read(s.mem, tbl[m], j), tbl, shared, m, j);
  }

  lemma UpperWriteKeepsLookup(s: Space, tbl: Tables, shared: set<nat>, n: Node, i: nat, e: Entry)
    requires Core(s, tbl, shared) && n in tbl && n.level >= 3
    ensures forall w :: Lookup(Write(s.mem, tbl[n], i, e), tbl, w) == Lookup(s.mem, tbl, w)
  {
    hide Link;
    forall w
      ensures Lookup(Write(s.mem, tbl[n], i, e), tbl, w) == Lookup(s.mem, tbl, w)
    {
      assert Over(w, 1) in tbl ==> Shape(s, tbl, Over(w, 1));
      assert Over(w, 2) in tbl ==> Shape(s, tbl, Over(w, 2));
    }
  }

  /** A successful reference makes the region shared and leaves every other
      translation of both spaces alone; a failed one changes no translation. */
  lemma ReferShares(p: Pair, shared: set<nat>, kpool: set<nat>, cpool: set<nat>, vpn: nat)
    requires PairValid(p, shared, kpool, cpool) && Own(vpn, shared)
    ensures var (q, ok) := ReferPair(p, vpn);
      var now := if ok then shared + {Region(vpn)} else shared;
      && PairValid(q, now, kpool, cpool)
      && (forall w: nat :: Own(w, now) ==> Translate(Child(q), w) == Translate(Child(p), w))
      && (forall w: nat :: w < PAGES ==> Translate(Kernel(q), w) == Translate(Kernel(p), w))
  {
    hide Core, AllPopulated, Pool, KeepsUpper, Translate, Region, Lookup, Refer, PairValid;
    var (q, ok) := ReferPair(p, vpn);
    var ktbl, ctbl := JoinedTables(p, shared, kpool, cpool);
    var u := ReferStep(p, ktbl, ctbl, shared, kpool, cpool, vpn);
    var now := if ok then shared + {Region(vpn)} else shared;
    JoinedValid(q, ktbl, u, now, kpool, cpool);
    forall w: nat | Own(w, now)
      ensures Translate(Child(q), w) == Translate(Child(p), w)
    {
      WalkIsLookup(Child(p), ctbl, shared, w);
      WalkIsLookup(Child(q), u, now, w);
    }
    forall w: nat | w < PAGES
      ensures Translate(Kernel(q), w) == Translate(Kernel(p), w)
    {
      WalkIsLookup(Kernel(p), ktbl, {}, w);
      WalkIsLookup(Kernel(q), ktbl, {}, w);
    }
  }

  lemma JoinedTables(p: Pair, shared: set<nat>, kpool: set<nat>, cpool: set<nat>) returns (ktbl: Tables, ctbl: Tables)
    requires PairValid(p, shared, kpool, cpool)
    ensures Joined(p, ktbl, ctbl, shared, kpool, cpool)
  {
    ktbl, ctbl :| Joined(p, ktbl, ctbl, shared, kpool, cpool);
  }

  lemma JoinedValid(p: Pair, ktbl: Tables, ctbl: Tables, shared: set<nat>, kpool: set<nat>, cpool: set<nat>)
    requires Joined(p, ktbl, ctbl, shared, kpool, cpool)
    ensures PairValid(p, shared, kpool, cpool)
  {
  }

  lemma SameReadsSameLookup(s: Space, t: Space, tbl: Tables)
    requires forall n, i :: n in tbl && 0 <= i < ENTRIES ==> Read(t.mem, tbl[n], i) == Read(s.mem, tbl[n], i)
    ensures forall w :: Lookup(t.mem, tbl, w) == Lookup(s.mem, tbl, w)
  {
  }

  lemma ReferStep(p: Pair, ktbl: Tables, ctbl: Tables, shared: set<nat>, kpool: set<nat>, cpool: set<nat>, vpn: nat)
    returns (u: Tables)
    requires Joined(p, ktbl, ctbl, shared, kpool, cpool) && Own(vpn, shared)
    ensures var (q, ok) := ReferPair(p, vpn);
      && Joined(q, ktbl, u, if ok then shared + {Region(vpn)} else shared, kpool, cpool)
      && (forall w :: Lookup(q.mem, u, w) == Lookup(p.mem, ctbl, w))
      && (forall w :: Lookup(q.mem, ktbl, w) == Lookup(p.mem, ktbl, w))
  {
    hide Core, AllPopulated, Pool, KeepsUpper, Lookup, Link, Over, Grown, Kept, Descend;
    var g := Region(vpn);
    var (q, ok) := ReferPair(p, vpn);
    PathTop(vpn);
    RegionIndices(vpn, g);
    RootIs(Kernel(p), ktbl, {});
    RootIs(Child(p), ctbl, shared);
    FindDirectory(Kernel(p), ktbl, {}, vpn, 4);
    u := ctbl;
    if Over(vpn, 2) in ktbl {
      u := DescendGrows(Child(p), ctbl, shared, 4, 3, vpn);
      var (t, r) := Descend(Child(p), p.ccr3, 4, 3, vpn);
      GrownKept(Child(p), ctbl, t, u, shared, vpn, if r.Some? then 3 else 4);
      if r.Some? && !Read(t.mem, r.value, g % ENTRIES).present {
        var pd := ktbl[Over(vpn, 2)];
        LinkForeign(t, u, shared, g, pd);
        var c := t.(mem := Write(t.mem, u[Node(3, g / ENTRIES)], g % ENTRIES, ForeignLink(pd)));
        assert ok && Child(q) == c;
        LinkOutside(Child(p), ctbl, t, u, c, shared, Node(3, g / ENTRIES), g % ENTRIES, ForeignLink(pd));
        KernelEntry(Kernel(p), ktbl, g);
        JoinAfter(p, q, ktbl, ctbl, u, shared, shared + {g}, kpool, cpool);
      } else {
        assert !ok && Child(q) == t;
        KeptOutside(Child(p), ctbl, t, u, shared);
        JoinAfter(p, q, ktbl, ctbl, u, shared, shared, kpool, cpool);
      }
    } else {
      assert q == p;
    }
  }

  lemma GrownKept(s: Space, tbl: Tables, t: Space, u: Tables, shared: set<nat>, vpn: nat, floor: nat)
    requires Inv(s, tbl, shared) && Grown(s, tbl, t, u, shared, vpn, floor) && floor > 1
    ensures Kept(s, tbl, t, u, shared)
    ensures forall w :: Lookup(t.mem, u, w) == Lookup(s.mem, tbl, w)
  {
    GrownPopulatedWhole(s, tbl, t, u, shared, vpn, floor);
  }

  lemma KeptOutside(s: Space, tbl: Tables, t: Space, u: Tables, shared: set<nat>)
    requires Inv(s, tbl, shared) && Kept(s, tbl, t, u, shared)
    ensures Inv(t, u, shared) && t.cr3 == s.cr3 && Pool(t, u) == Pool(s, tbl)
    ensures forall f :: f in s.mem && f !in Pool(s, tbl) ==> f in t.mem && t.mem[f] == s.mem[f]
    ensures forall g :: g in shared ==>
        Node(3, g / ENTRIES) in tbl && Node(3, g / ENTRIES) in u &&
            DirectoryOf(t.mem, u, g) == DirectoryOf(s.mem, tbl, g)
  {
    SharedEntriesStay(s, tbl, t, u, shared);
  }

  lemma LinkOutside(s: Space, tbl: Tables, t: Space, u: Tables, c: Space, shared: set<nat>, n: Node, i: nat, e: Entry)
    requires Inv(s, tbl, shared) && Kept(s, tbl, t, u, shared) && n in u && c == t.(mem := Write(t.mem, u[n], i, e))
    ensures c.cr3 == s.cr3 && Pool(c, u) == Pool(s, tbl)
    ensures forall f :: f in s.mem && f !in Pool(s, tbl) ==> f in c.mem && c.mem[f] == s.mem[f]
    ensures forall g :: g in shared ==>
        Node(3, g / ENTRIES) in tbl && Node(3, g / ENTRIES) in u &&
            DirectoryOf(t.mem, u, g) == DirectoryOf(s.mem, tbl, g)
  {
    SharedEntriesStay(s, tbl, t, u, shared);
    assert u[n] in Pool(t, u);
  }

  /** Reassembling the pair after the other space changed its own pages. */
  lemma JoinAfter(p: Pair, q: Pair, ktbl: Tables, ctbl: Tables, u: Tables, shared: set<nat>, now: set<nat>,
                  kpool: set<nat>, cpool: set<nat>)
    requires Joined(p, ktbl, ctbl, shared, kpool, cpool) && shared <= now
    requires q.kcr3 == p.kcr3 && q.kfree == p.kfree
    requires Inv(Child(q), u, now) && Pool(Child(q), u) == cpool
    requires forall f :: f in p.mem && f !in cpool ==> f in q.mem && q.mem[f] == p.mem[f]
    requires forall g :: g in shared ==>
        Node(3, g / ENTRIES) in u && DirectoryOf(q.mem, u, g) == DirectoryOf(p.mem, ctbl, g)
    requires forall g :: g in now && g !in shared ==>
      Node(3, g / ENTRIES) in ktbl && Node(2, g) in ktbl && Node(3, g / ENTRIES) in u &&
          DirectoryOf(q.mem, u, g) == ktbl[Node(2, g)]
    ensures Joined(q, ktbl, u, now, kpool, cpool)
    ensures forall w :: Lookup(q.mem, ktbl, w) == Lookup(p.mem, ktbl, w)
  {
    hide Core, AllPopulated, Lookup;
    OtherMemory(Kernel(p), Kernel(q), ktbl, {});
    SameReadsSameLookup(Kernel(p), Kernel(q), ktbl);
  }

  /** The entries of the two upper levels lead to a page directory. */
  predicate HasDirectory(mem: Memory, root: nat, vpn: nat) {
    var e := Read(mem, root, Index(vpn, 4));
    e.present && Read(mem, e.frame, Index(vpn, 3)).present
  }

  /** A reference succeeds exactly when the other space has a directory for the region, this one
      has none, and there is a spare page if the table that would hold the link is missing. */
  lemma ReferExactly(p: Pair, shared: set<nat>, kpool: set<nat>, cpool: set<nat>, vpn: nat)
    requires PairValid(p, shared, kpool, cpool)
    ensures ReferPair(p, vpn).1 <==>
      && HasDirectory(p.mem, p.kcr3, vpn) && !HasDirectory(p.mem, p.ccr3, vpn)
      && (p.cfree != [] || Read(p.mem, p.ccr3, Index(vpn, 4)).present)
  {
    var ktbl, ctbl := JoinedTables(p, shared, kpool, cpool);
    assert Core(Child(p), ctbl, shared) && Shape(Child(p), ctbl, ROOT);
    assert Link(Read(p.mem, ctbl[ROOT], Index(vpn, 4)), ctbl, shared, ROOT, Index(vpn, 4));
    ReferWhen(Child(p), p.kcr3, vpn);
  }

  lemma ReferWhen(s: Space, other: nat, vpn: nat)
    requires var e := Read(s.mem, s.cr3, Index(vpn, 4)); e.present || e == ZERO
    requires s.free != [] ==> s.free[0] != s.cr3
    ensures Refer(s, other, vpn).1 <==>
      && HasDirectory(s.mem, other, vpn) && !HasDirectory(s.mem, s.cr3, vpn)
      && (s.free != [] || Read(s.mem, s.cr3, Index(vpn, 4)).present)
  {
    hide Index;
    DirectoryFound(s.mem, other, vpn);
    hide Find;
    var (t, child) := Ensure(s, s.cr3, Index(vpn, 4));
    if child.Some? {
      assert Descend(t, child.value, 3, 3, vpn) == (t, child);
      assert Descend(s, s.cr3, 4, 3, vpn) == (t, child);
      if !Read(s.mem, s.cr3, Index(vpn, 4)).present { assert Read(t.mem, s.free[0], Index(vpn, 3)) == ZERO; }
    }
  }

  lemma DirectoryFound(mem: Memory, root: nat, vpn: nat)
    ensures Find(mem, root, 4, 2, vpn).Some? <==> HasDirectory(mem, root, vpn)
  {
    var e := Read(mem, root, Index(vpn, 4));
    hide Index;
    if e.present { assert Find(mem, root, 4, 2, vpn) == Find(mem, e.frame, 3, 2, vpn); }
  }

  // ---- From two new spaces on --------------------------------------------------------------

  /** Two new spaces, each over its own run of pages of one memory. */
  function NewPair(mem: Memory, kbase: nat, knr: nat, cbase: nat, cnr: nat): Pair
    requires knr >= 1 && cnr >= 1
  {
    Pair(Clear(Clear(mem, kbase), cbase), kbase, Pushed(kbase, knr), cbase, Pushed(cbase, cnr))
  }

  ghost function PagesFrom(mem: Memory, base: nat, nr: nat): set<nat> {
    set f | f in mem && base <= f < base + nr
  }

  /** Two runs of present pages that do not overlap. */
  ghost predicate TwoRuns(mem: Memory, kbase: nat, knr: nat, cbase: nat, cnr: nat) {
    && knr >= 1 && cnr >= 1 && (kbase + knr <= cbase || cbase + cnr <= kbase)
    && (forall f :: kbase <= f < kbase + knr ==> f in mem)
    && (forall f :: cbase <= f < cbase + cnr ==> f in mem)
  }

  /** Two new spaces over disjoint pages share nothing and meet the invariant. */
  lemma NewPairValid(mem: Memory, kbase: nat, knr: nat, cbase: nat, cnr: nat)
    requires TwoRuns(mem, kbase, knr, cbase, cnr)
    ensures PairValid(NewPair(mem, kbase, knr, cbase, cnr), {}, PagesFrom(mem, kbase, knr), PagesFrom(mem, cbase, cnr))
  {
    hide Core, AllPopulated, Pool, Translate;
    var p := NewPair(mem, kbase, knr, cbase, cnr);
    var kpool, cpool := PagesFrom(mem, kbase, knr), PagesFrom(mem, cbase, cnr);
    var k, c := Init(mem, kbase, knr), Init(Clear(mem, kbase), cbase, cnr);
    InitValid(mem, kbase, knr);
    InitValid(Clear(mem, kbase), cbase, cnr);
    assert PagesFrom(Clear(mem, kbase), cbase, cnr) == cpool;
    var ktbl :| Inv(k, ktbl, {}) && Pool(k, ktbl) == kpool;
    var ctbl :| Inv(c, ctbl, {}) && Pool(c, ctbl) == cpool;
    OtherMemory(k, Kernel(p), ktbl, {});
    assert Child(p) == c;
    assert Joined(p, ktbl, ctbl, {}, kpool, cpool);
  }

  lemma NothingMissingFinds(mem: Memory, root: nat, vpn: nat)
    requires Missing(mem, root, 4, 2, vpn) == 0
    ensures HasDirectory(mem, root, vpn)
  {
    var e := Read(mem, root, Index(vpn, 4));
    hide Index;
    assert e.present && Missing(mem, e.frame, 3, 2, vpn) == 0;
  }

  /** From two new spaces: the kernel prepares a region and the child refers to it, which
      succeeds, and from then on both translate the region alike after every permitted run. */
  lemma SharedFromTheStart(mem: Memory, kbase: nat, knr: nat, cbase: nat, cnr: nat, vpn: nat, ops: seq<PairOp>)
    requires TwoRuns(mem, kbase, knr, cbase, cnr) && knr >= 3 && cnr >= 2 && vpn < PAGES
    requires var p := PairStep(NewPair(mem, kbase, knr, cbase, cnr), OnKernel(PrepareOp(vpn)));
      PairPermittedRun(ReferPair(p, vpn).0, {Region(vpn)}, ops)
    ensures var p := PairStep(NewPair(mem, kbase, knr, cbase, cnr), OnKernel(PrepareOp(vpn)));
      var (q, ok) := ReferPair(p, vpn);
      ok && forall w: nat :: w < PAGES && Region(w) == Region(vpn) ==>
        Translate(Kernel(PairRun(q, ops)), w) == Translate(Child(PairRun(q, ops)), w)
  {
    hide PairValid, Translate, PairPermittedRun, PairRun, Region, Prepare, Refer, Find, Missing, Valid;
    var p0 := NewPair(mem, kbase, knr, cbase, cnr);
    var kpool, cpool := PagesFrom(mem, kbase, knr), PagesFrom(mem, cbase, cnr);
    NewPairValid(mem, kbase, knr, cbase, cnr);
    PairStepKeeps(p0, {}, kpool, cpool, OnKernel(PrepareOp(vpn)));
    var p := PairStep(p0, OnKernel(PrepareOp(vpn)));
    PreparedFinds(p0, kpool, cpool, vpn);
    RootUntouched(mem, kbase, knr, cbase, cnr, vpn);
    ReferWhen(Child(p), p.kcr3, vpn);
    ReferShares(p, {}, kpool, cpool, vpn);
    var q := ReferPair(p, vpn).0;
    assert {} + {Region(vpn)} == {Region(vpn)};
    SharedForever(q, {Region(vpn)}, kpool, cpool, ops);
  }

  lemma FewMissing(mem: Memory, table: nat, vpn: nat)
    ensures Missing(mem, table, 4, 2, vpn) <= 2
  {
  }

  lemma PreparedFinds(p: Pair, kpool: set<nat>, cpool: set<nat>, vpn: nat)
    requires PairValid(p, {}, kpool, cpool) && |p.kfree| >= 2 && vpn < PAGES
    ensures var q := PairStep(p, OnKernel(PrepareOp(vpn)));
      q.kcr3 == p.kcr3 && HasDirectory(q.mem, q.kcr3, vpn)
  {
    hide Prepare, Find, Translate, Valid, PairValid;
    PairSpacesValid(p, {}, kpool, cpool);
    PrepareRefines(Kernel(p), {}, kpool, vpn);
    FewMissing(p.mem, p.kcr3, vpn);
    var t := Prepare(Kernel(p), vpn).0;
    NothingMissingFinds(t.mem, t.cr3, vpn);
  }

  /** The kernel's step leaves the child's empty root page alone. */
  lemma RootUntouched(mem: Memory, kbase: nat, knr: nat, cbase: nat, cnr: nat, vpn: nat)
    requires TwoRuns(mem, kbase, knr, cbase, cnr) && vpn < PAGES && cnr >= 2
    ensures var q := PairStep(NewPair(mem, kbase, knr, cbase, cnr), OnKernel(PrepareOp(vpn)));
      && q.ccr3 == cbase && q.cfree == Pushed(cbase, cnr) && q.cfree != [] && q.cfree[0] != cbase
      && cbase in q.mem && Read(q.mem, cbase, Index(vpn, 4)) == ZERO
  {
    hide Prepare, Translate, Valid, PairValid, Index;
    var p := NewPair(mem, kbase, knr, cbase, cnr);
    var kpool, cpool := PagesFrom(mem, kbase, knr), PagesFrom(mem, cbase, cnr);
    NewPairValid(mem, kbase, knr, cbase, cnr);
    PairSpacesValid(p, {}, kpool, cpool);
    PrepareRefines(Kernel(p), {}, kpool, vpn);
    assert cbase in p.mem && cbase !in kpool;
  }
}
