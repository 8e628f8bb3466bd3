/** The ledger when it is no tiling, as an interior carve leaves it: carves can be refused, and a
    refused one is undone. */
module LedgerUndo {
  import opened Basics
  import opened Btree
  import opened Ledger
  import opened LedgerTheorems

  /** No two extents start at the same address. */
  ghost predicate StartsDiffer(s: set<Extent>) {
    forall f, g :: f in s && g in s && f.start == g.start ==> f == g
  }

  /** Ordered trees, both free trees alike, and one entry and one free extent at most for a start. */
  ghost predicate Sound(b: Block) {
    Kept(b) && StartsDiffer(Elems(b.entries)) && StartsDiffer(Elems(b.atree))
  }

  /** Nothing in s starts where a part does, nor do two parts start alike. */
  ghost predicate Placeable(s: set<Extent>, parts: seq<Extent>) {
    && (forall i, g :: 0 <= i < |parts| && g in s ==> g.start != parts[i].start)
    && (forall i, j :: 0 <= i < j < |parts| ==> parts[i].start != parts[j].start)
  }

  /** The same entries and the same free extents. */
  ghost predicate SameExtents(b: Block, c: Block) {
    Elems(c.entries) == Elems(b.entries) && Elems(c.atree) == Elems(b.atree)
  }

  // ---- One update ---------------------------------------------------------------------------

  lemma EntryAdded(b: Block, e: Extent)
    requires Sound(b)
    ensures var (c, ok) := EntryAdd(b, e);
      && Sound(c) && c.atree == b.atree && (ok <==> forall g :: g in Elems(b.entries) ==> g.start != e.start)
      && Elems(c.entries) == Elems(b.entries) + if ok then {e} else {}
  {
    hide Ordered, Simple, Elems;
    AddKeepsOrder(b.entries, e, ByStart, false);
    assert forall g :: ByStart(g) == g.start;
    if EntryAdd(b, e).1 {
      assert forall g :: g in Elems(b.entries) ==> g.start != e.start;
      AddSimple(b.entries, e, ByStart, false);
    } else {
      var g :| g in Elems(b.entries) && ByStart(g) == ByStart(e);
    }
  }

  lemma EntryDeleted(b: Block, e: Extent)
    requires Sound(b)
    ensures var c := EntryDelete(b, e); Sound(c) && c.atree == b.atree && Elems(c.entries) == Elems(b.entries) - {e}
  {
    hide Ordered, Simple, Elems;
    DeleteKeepsOrder(b.entries, e, ByStart);
  }

  lemma FreeAdded(b: Block, f: Extent)
    requires Sound(b)
    ensures var (c, ok) := FreeAdd(b, f);
      && Sound(c) && c.entries == b.entries && (ok <==> forall g :: g in Elems(b.atree) ==> g.start != f.start)
      && Elems(c.atree) == Elems(b.atree) + if ok then {f} else {}
  {
    hide Ordered, Simple, Elems, FreeAdd;
    FreeTreesAdd(b, f);
  }

  lemma FreeDeleted(b: Block, f: Extent)
    requires Sound(b)
    ensures var c := FreeDelete(b, f);
      Sound(c) && c.entries == b.entries && Elems(c.atree) == Elems(b.atree) - {f}
  {
    hide Ordered, Simple, Elems, FreeDelete;
    FreeTreesDelete(b, f);
  }

  // ---- Carving ------------------------------------------------------------------------------

  /** The undo puts back what the carve had taken out. */
  lemma Undone(b: Block, c: Block, f: Extent, e: Extent)
    requires Sound(b) && Sound(c) && f in Elems(b.atree) && e !in Elems(b.entries)
    requires Elems(c.entries) == Elems(b.entries) + {e} && Elems(c.atree) == Elems(b.atree) - {f}
    ensures Sound(CarveFailed(c, f, e)) && SameExtents(b, CarveFailed(c, f, e))
  {
    hide Elems, EntryDelete, FreeAdd, Kept;
    EntryDeleted(c, e);
    FreeAdded(EntryDelete(c, e), f);
  }

  /** A carve succeeds exactly when no entry starts where the new one does and no other free extent
      starts where a part does.  It then replaces f by the parts and adds the entry; a carve that is
      refused leaves the same entries and the same free extents. */
  lemma CarveExactly(b: Block, f: Extent, e: Extent, parts: seq<Extent>)
    requires Sound(b) && f in Elems(b.atree) && |parts| <= 2
    ensures var (c, ok) := Carved(b, f, e, parts);
      && Sound(c)
      && (ok <==>
            (forall g :: g in Elems(b.entries) ==> g.start != e.start) && Placeable(Elems(b.atree) - {f}, parts))
      && (ok ==>
            && Elems(c.entries) == Elems(b.entries) + {e}
            && Elems(c.atree) == Elems(b.atree) - {f} + (set p | p in parts))
      && (!ok ==> SameExtents(b, c))
  {
    hide Elems, EntryAdd, FreeAdd, FreeDelete, CarveFailed, Sound;
    EntryAdded(b, e);
    var (b0, added) := EntryAdd(b, e);
    if added {
      FreeDeleted(b0, f);
      var b1 := FreeDelete(b0, f);
      Undone(b, b1, f, e);
      if |parts| > 0 {
        FreeAdded(b1, parts[0]);
        var (b2, ok) := FreeAdd(b1, parts[0]);
        if ok && |parts| > 1 {
          FreeAdded(b2, parts[1]);
          FreeDeleted(b2, parts[0]);
          Undone(b, FreeDelete(b2, parts[0]), f, e);
        }
      }
    }
  }

  // ---- Every run ------------------------------------------------------------------------------

  lemma ReleaseSound(b: Block, addr: nat)
    requires Sound(b)
    ensures Sound(Release(b, addr))
  {
    hide Elems, EntryDelete, FreeAdd, FreeDelete, Sound, Search;
    var r := Released(b, addr);
    if r.Some? {
      var e := r.value;
      EntryDeleted(b, e);
      var b1 := EntryDelete(b, e);
      FreeAdded(b1, e);
      var n := Search(b1.atree, NeighbourWord(e));
      if n.Some? {
        FreeDeleted(b1, n.value);
        FreeAdded(FreeDelete(b1, n.value), Merge(n.value, e));
      }
    }
  }

  lemma BestFitMember(b: Block, size: nat)
    requires Sound(b)
    ensures var r := BestFit(b.stree, size, None); r.Some? ==> r.value in Elems(b.atree)
  {
    hide Elems, Ordered, Simple, BestFit;
    BestFitIsSmallest(b.stree, size, None);
  }

  /** A request to carve an entry at an address into the free extent that holds it, an allocation, or a release. */
  datatype Op = CarveOp(entry: Extent) | AllocateOp(nr: nat, backed: bool) | ReleaseOp(addr: nat)

  function Step(b: Block, op: Op): Block {
    match op
    case CarveOp(e) =>
      (match Search(b.atree, FitWord(e.start))
       case None => b
       case Some(f) => CarveWords(b, f, e).0)
    case AllocateOp(nr, backed) => Allocate(b, nr, backed).0
    case ReleaseOp(addr) => Release(b, addr)
  }

  function Run(b: Block, ops: seq<Op>): Block
    decreases |ops|
  {
    if ops == [] then b else Run(Step(b, ops[0]), ops[1..])
  }

  lemma StepSound(b: Block, op: Op)
    requires Sound(b)
    ensures Sound(Step(b, op))
  {
    hide Elems, Carved, Release, Sound, Search, BestFit, SearchSize, Placed, WordParts;
    match op
    case CarveOp(e) =>
      SearchMember(b.atree, FitWord(e.start));
      var r := Search(b.atree, FitWord(e.start));
      if r.Some? {
        TwoParts(r.value, e);
        CarveExactly(b, r.value, e, WordParts(r.value, e));
      }
    case AllocateOp(nr, backed) =>
      BestFitMember(b, SearchSize(nr));
      var r := BestFit(b.stree, SearchSize(nr), None);
      if r.Some? {
        var e := Extent(Placed(r.value, nr), Wrap(4096 * nr));
        TwoParts(r.value, e);
        CarveExactly(b, r.value, e, WordParts(r.value, e));
      }
    case ReleaseOp(addr) => ReleaseSound(b, addr);
  }

  lemma TwoParts(f: Extent, e: Extent)
    ensures |WordParts(f, e)| <= 2
  {
  }

  /** Over every run, interior carves included: both free trees hold the same extents, and no two
      entries and no two free extents start at the same address. */
  lemma {:induction false} RunSound(b: Block, ops: seq<Op>)
    requires Sound(b)
    ensures Sound(Run(b, ops))
    decreases |ops|
  {
    hide Sound, Step;
    if ops != [] {
      StepSound(b, ops[0]);
      RunSound(Step(b, ops[0]), ops[1..]);
    }
  }

  lemma OneExtentSound(f: Extent)
    ensures Sound(OneExtent(f))
  {
    var b := OneExtent(f);
    assert Elems(b.atree) == {f} == Elems(b.stree) && Elems(b.entries) == {};
    var leaf := b.entries;
    assert Ordered(leaf, ByStart) && Ordered(leaf, BySize) && Simple(leaf);
    assert Ordered(b.atree, ByStart) && Ordered(b.stree, BySize) && Simple(b.atree) && Simple(b.stree);
  }

  /** A block of three pages: its middle page, carved twice, is refused the second time, because the
      first carve left it inside a free extent. */
  lemma MiddlePageTwice()
    ensures var b, e := NewBlock(0x1000, 0x4000), Extent(0x2000, 0x1000);
      var c, f := Step(b, CarveOp(e)), Extent(0x1000, 0x2000);
      f in Elems(c.atree) && e in Elems(c.entries) && !CarveWords(c, f, e).1 && Step(c, CarveOp(e)) == c
  {
    var b, e := NewBlock(0x1000, 0x4000), Extent(0x2000, 0x1000);
    var g, f, h := Extent(0x1000, 0x3000), Extent(0x1000, 0x2000), Extent(0x3000, 0x1000);
    WrapFacts();
    assert Search(b.atree, FitWord(0x2000)) == Some(g);
    assert WordParts(g, e) == [f, h];
    var b0 := b.(entries := Node(Leaf, e, Leaf));
    assert EntryAdd(b, e) == (b0, true);
    var b1 := b0.(atree := Leaf, stree := Leaf);
    assert FreeDelete(b0, g) == b1;
    var b2 := b1.(atree := Node(Leaf, f, Leaf), stree := Node(Leaf, f, Leaf));
    assert FreeAdd(b1, f) == (b2, true);
    var c := b2.(atree := Node(Leaf, f, Node(Leaf, h, Leaf)), stree := Node(Node(Leaf, h, Leaf), f, Leaf));
    assert FreeAdd(b2, h) == (c, true);
    assert CarveWords(b, g, e) == (c, true);
    assert Search(c.atree, FitWord(0x2000)) == Some(f);
    assert EntryAdd(c, e) == (c, false);
  }
}
