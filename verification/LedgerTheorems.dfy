/** What every run of allocations and releases keeps: entries and free extents
    tile the block, and the two free trees hold the same extents. */
module LedgerTheorems {
  import opened Basics
  import opened Btree
  import opened Ledger

  predicate Holds(e: Extent, x: nat) {
    e.start <= x < End(e)
  }

  ghost predicate CoveredBy(s: set<Extent>, x: nat) {
    exists e :: e in s && Holds(e, x)
  }

  /** The extents of s cover [lo, hi) exactly, without overlap. */
  ghost predicate Tiles(s: set<Extent>, lo: nat, hi: nat) {
    && Spread(s)
    && (forall e :: e in s ==> lo <= e.start && End(e) <= hi)
    && (forall x: nat :: lo <= x < hi ==> CoveredBy(s, x))
  }

  /** Both free trees are ordered, without repetition, and hold the same extents. */
  ghost predicate FreeTrees(b: Block) {
    && Ordered(b.atree, ByStart) && Simple(b.atree) && Ordered(b.stree, BySize) && Simple(b.stree)
    && Elems(b.stree) == Elems(b.atree)
  }

  /** What every operation keeps, whatever it is given. */
  ghost predicate Kept(b: Block) {
    Ordered(b.entries, ByStart) && Simple(b.entries) && FreeTrees(b)
  }

  ghost predicate TreesValid(b: Block) {
    Kept(b) && Elems(b.entries) !! Elems(b.atree)
  }

  ghost predicate BlockInv(b: Block, lo: nat, hi: nat) {
    TreesValid(b) && Tiles(Elems(b.entries) + Elems(b.atree), lo, hi)
  }

  /** A block of the 64-bit space, but not all of it. */
  predicate InWord(lo: nat, hi: nat) {
    hi <= WORD && hi < lo + WORD
  }

  // ---- Tilings -----------------------------------------------------------------------

  /** Cutting an extent in two keeps the tiling. */
  lemma CutTiles(s: set<Extent>, lo: nat, hi: nat, f: Extent, n: nat)
    requires Tiles(s, lo, hi) && f in s && 0 < n < f.size
    ensures Tiles(s - {f} + {Extent(f.start, n), Extent(f.start + n, f.size - n)}, lo, hi)
    ensures Extent(f.start, n) !in s && Extent(f.start + n, f.size - n) !in s
  {
    var a, b := Extent(f.start, n), Extent(f.start + n, f.size - n);
    var t := s - {f} + {a, b};
    forall e | e in s && e != f
      ensures Disjoint(e, a) && Disjoint(e, b) && e != a && e != b
    {
      assert Disjoint(e, f);
    }
    assert a != f && b != f;
    forall x: nat | lo <= x < hi
      ensures CoveredBy(t, x)
    {
      assert CoveredBy(s, x);
      var e :| e in s && Holds(e, x);
      if e == f {
        assert Holds(a, x) || Holds(b, x);
        assert a in t && b in t;
      } else {
        assert e in t;
      }
    }
  }

  /** Joining two adjacent extents keeps the tiling. */
  lemma JoinTiles(s: set<Extent>, lo: nat, hi: nat, e: Extent, f: Extent)
    requires Tiles(s, lo, hi) && e in s && f in s && e != f && Abuts(f, e.start, End(e))
    requires InWord(lo, hi) && End(e) < WORD
    ensures Tiles(s - {e, f} + {Merge(f, e)}, lo, hi)
    ensures Merge(f, e) !in s
    ensures forall g :: g in s - {e, f} ==> Disjoint(Merge(f, e), g)
    ensures forall x: nat :: Holds(Merge(f, e), x) <==> Holds(f, x) || Holds(e, x)
  {
    var m := Merge(f, e);
    var t := s - {e, f} + {m};
    assert e.size > 0 && f.size > 0 && Disjoint(e, f);
    WrapFacts();
    hide Wrap;
    assert f.size + e.size <= hi - lo;
    assert forall x: nat :: Holds(m, x) <==> Holds(f, x) || Holds(e, x);
    forall g | g in s && g != e && g != f
      ensures Disjoint(m, g) && g != m
    {
      assert Disjoint(e, g) && Disjoint(f, g) && g.size > 0;
    }
    assert m != e && m != f;
    forall x: nat | lo <= x < hi
      ensures CoveredBy(t, x)
    {
      assert CoveredBy(s, x);
      var g :| g in s && Holds(g, x);
      if g == e || g == f {
        assert m in t && Holds(m, x);
      } else {
        assert g in t;
      }
    }
  }

  // ---- Tree updates ----------------------------------------------------------------------

  /** Adding a free extent is refused exactly when another one starts there. */
  lemma FreeTreesAdd(b: Block, p: Extent)
    requires FreeTrees(b)
    ensures var (c, ok) := FreeAdd(b, p);
      && FreeTrees(c) && c.entries == b.entries
      && (ok <==> forall g :: g in Elems(b.atree) ==> g.start != p.start)
      && Elems(c.atree) == Elems(b.atree) + if ok then {p} else {}
  {
    AddKeepsOrder(b.atree, p, ByStart, false);
    AddKeepsOrder(b.stree, p, BySize, true);
    if FreeAdd(b, p).1 {
      assert forall g :: g in Elems(b.atree) ==> ByStart(g) != ByStart(p);
      AddSimple(b.atree, p, ByStart, false);
      AddSimple(b.stree, p, BySize, true);
    } else {
      var g :| g in Elems(b.atree) && ByStart(g) == ByStart(p);
      assert g.start == p.start;
    }
  }

  lemma FreeTreesDelete(b: Block, f: Extent)
    requires FreeTrees(b)
    ensures var c := FreeDelete(b, f);
      FreeTrees(c) && c.entries == b.entries && Elems(c.atree) == Elems(b.atree) - {f}
  {
    DeleteKeepsOrder(b.atree, f, ByStart);
    DeleteKeepsOrder(b.stree, f, BySize);
  }

  lemma EntryDeleteWorks(b: Block, e: Extent)
    requires TreesValid(b)
    ensures var c := EntryDelete(b, e);
      && TreesValid(c) && c.atree == b.atree && c.stree == b.stree
      && Elems(c.entries) == Elems(b.entries) - {e}
  {
    DeleteKeepsOrder(b.entries, e, ByStart);
  }

  /** An entry placed inside a free extent never clashes with another entry's start. */
  lemma EntryAddWorks(b: Block, lo: nat, hi: nat, f: Extent, e: Extent)
    requires BlockInv(b, lo, hi) && f in Elems(b.atree)
    requires f.start <= e.start && e.start < End(f)
    ensures var (c, ok) := EntryAdd(b, e);
      && ok && Ordered(c.entries, ByStart) && Simple(c.entries)
      && Elems(c.entries) == Elems(b.entries) + {e} && e !in Elems(b.entries)
      && c.atree == b.atree && c.stree == b.stree
  {
    var s := Elems(b.entries) + Elems(b.atree);
    assert f in s;
    forall g | g in Elems(b.entries)
      ensures ByStart(g) != ByStart(e)
    {
      assert g in s && g != f && Disjoint(g, f) && g.size > 0;
    }
    AddKeepsOrder(b.entries, e, ByStart, false);
    AddSimple(b.entries, e, ByStart, false);
  }

  // ---- Carving ---------------------------------------------------------------------------

  /** What a carve leaves in the free trees. */
  function Pieces(f: Extent, e: Extent): set<Extent>
    requires f.start <= e.start && End(e) <= End(f)
  {
    set p | p in Parts(f, e)
  }

  lemma PiecesAre(f: Extent, e: Extent)
    requires f.start <= e.start && End(e) <= End(f)
    ensures Pieces(f, e) ==
      if f == e then {}
      else if f.start == e.start then {Extent(f.start + e.size, f.size - e.size)}
      else if End(f) == End(e) then {Extent(f.start, f.size - e.size)}
      else {Extent(f.start, End(e) - f.start), Extent(End(e), End(f) - End(e))}
  {
  }

  /** The trees with the entry added and the free extent taken out. */
  function Opened(b: Block, f: Extent, e: Extent): Block {
    FreeDelete(EntryAdd(b, e).0, f)
  }

  ghost predicate OpenedWell(b: Block, f: Extent, e: Extent) {
    var c := Opened(b, f, e);
    && EntryAdd(b, e).1 && FreeTrees(c)
    && Ordered(c.entries, ByStart) && Simple(c.entries) && Elems(c.entries) == Elems(b.entries) + {e}
    && Elems(c.atree) == Elems(b.atree) - {f}
    && (forall g :: g in Elems(c.atree) ==> g.size > 0 && Disjoint(g, f))
  }

  lemma OpenWorks(b: Block, lo: nat, hi: nat, f: Extent, e: Extent)
    requires BlockInv(b, lo, hi) && f in Elems(b.atree) && f.start <= e.start < End(f)
    ensures OpenedWell(b, f, e)
  {
    EntryAddWorks(b, lo, hi, f, e);
    OthersApart(b, lo, hi, f);
    FreeTreesDelete(EntryAdd(b, e).0, f);
  }

  /** A carve inside a free extent never fails and puts exactly the pieces in both free trees. */
  lemma CarveWorks(b: Block, lo: nat, hi: nat, f: Extent, e: Extent)
    requires BlockInv(b, lo, hi) && f in Elems(b.atree)
    requires f.start <= e.start < End(f) && End(e) <= End(f)
    ensures var (c, ok) := Carve(b, f, e);
      && ok && FreeTrees(c)
      && Ordered(c.entries, ByStart) && Simple(c.entries) && Elems(c.entries) == Elems(b.entries) + {e}
      && Elems(c.atree) == Elems(b.atree) - {f} + Pieces(f, e)
  {
    hide BlockInv, FreeTrees, Ordered, Simple, Elems, FreeAdd, FreeDelete, EntryAdd, Pieces;
    OpenWorks(b, lo, hi, f, e);
    PiecesAre(f, e);
    var b1 := Opened(b, f, e);
    if f == e {
      assert Carve(b, f, e) == (b1, true);
    } else if f.start == e.start || End(f) == End(e) {
      var p := Extent(if f.start == e.start then f.start + e.size else f.start, f.size - e.size);
      FreeTreesAdd(b1, p);
      assert Carve(b, f, e) == (FreeAdd(b1, p).0, true);
    } else {
      var p, q := Extent(f.start, End(e) - f.start), Extent(End(e), End(f) - End(e));
      FreeTreesAdd(b1, p);
      var b2 := FreeAdd(b1, p).0;
      FreeTreesAdd(b2, q);
      assert Carve(b, f, e) == (FreeAdd(b2, q).0, true);
    }
  }

  lemma OthersApart(b: Block, lo: nat, hi: nat, f: Extent)
    requires BlockInv(b, lo, hi) && f in Elems(b.atree)
    ensures forall g :: g in Elems(b.atree) - {f} ==> g.size > 0 && Disjoint(g, f)
  {
    var s := Elems(b.entries) + Elems(b.atree);
    forall g | g in Elems(b.atree) - {f}
      ensures g.size > 0 && Disjoint(g, f)
    {
      assert g in s && f in s;
    }
  }

  /** The entry is flush with an end of the free extent. */
  predicate Flush(f: Extent, e: Extent) {
    f.start == e.start || End(f) == End(e)
  }

  /** A carve keeps the tiling exactly when it is flush with an end of the free
      extent; an interior carve leaves a free extent that overlaps the entry. */
  lemma CarveTilesExactlyWhenFlush(b: Block, lo: nat, hi: nat, f: Extent, e: Extent)
    requires BlockInv(b, lo, hi) && f in Elems(b.atree) && e.size > 0
    requires f.start <= e.start && End(e) <= End(f)
    ensures BlockInv(Carve(b, f, e).0, lo, hi) <==> Flush(f, e)
  {
    CarveWorks(b, lo, hi, f, e);
    EntryNotFree(b, lo, hi, f, e);
    hide Ordered, Simple, Elems, Carve, Tiles, Pieces;
    var c := Carve(b, f, e).0;
    PiecesTile(Elems(b.entries), Elems(b.atree), lo, hi, f, e);
    assert Elems(c.entries) + Elems(c.atree) == Elems(b.entries) + {e} + (Elems(b.atree) - {f} + Pieces(f, e));
  }

  /** The same on plain sets of extents. */
  lemma PiecesTile(entries: set<Extent>, frees: set<Extent>, lo: nat, hi: nat, f: Extent, e: Extent)
    requires Tiles(entries + frees, lo, hi) && entries !! frees && f in frees && e.size > 0
    requires f.start <= e.start && End(e) <= End(f)
    ensures Tiles(entries + {e} + (frees - {f} + Pieces(f, e)), lo, hi) <==> Flush(f, e)
  {
    hide Tiles;
    var s, t := entries + frees, entries + {e} + (frees - {f} + Pieces(f, e));
    if f == e {
      assert t == s;
    } else if f.start == e.start {
      CutTiles(s, lo, hi, f, e.size);
      assert t == s - {f} + {e, Extent(f.start + e.size, f.size - e.size)};
    } else if End(f) == End(e) {
      CutTiles(s, lo, hi, f, f.size - e.size);
      assert t == s - {f} + {Extent(f.start, f.size - e.size), e};
    } else {
      var p := Extent(f.start, End(e) - f.start);
      OverlapNotTiled(t, lo, hi, p, e);
    }
  }

  lemma OverlapNotTiled(t: set<Extent>, lo: nat, hi: nat, p: Extent, e: Extent)
    requires p in t && e in t && p != e && !Disjoint(p, e)
    ensures !Tiles(t, lo, hi)
  {
  }

  /** Neither the entry nor a flush piece is already in a tree. */
  lemma EntryNotFree(b: Block, lo: nat, hi: nat, f: Extent, e: Extent)
    requires BlockInv(b, lo, hi) && f in Elems(b.atree) && e.size > 0
    requires f.start <= e.start && End(e) <= End(f)
    ensures e !in Elems(b.entries) && (e != f ==> e !in Elems(b.atree))
    ensures forall g :: g in Elems(b.entries) ==> g !in Pieces(f, e)
    ensures e !in Pieces(f, e)
  {
    var s := Elems(b.entries) + Elems(b.atree);
    assert f in s;
    forall g | g in s && g != f
      ensures g != e && g !in Pieces(f, e)
    {
      assert Disjoint(g, f) && g.size > 0;
    }
  }

  // ---- Allocation and release ----------------------------------------------------------------

  /** The extent that an allocation finds needs no alignment. */
  predicate Snug(b: Block, nr: nat) {
    var r := BestFit(b.stree, SearchSize(nr), None);
    nr < 512 || (r.Some? ==> r.value.start % SUPERPAGE == 0)
  }

  /** The entry for nr pages goes into f, a smallest free extent that is large enough. */
  ghost predicate TakenFrom(b: Block, f: Extent, nr: nat, start: nat) {
    && f in Elems(b.atree) && SearchSize(nr) <= f.size && start == Placed(f, nr)
    && forall g :: g in Elems(b.atree) && SearchSize(nr) <= g.size ==> f.size <= g.size
  }

  /** The free extents after e was taken from f: what f holds before and behind e; but where e lies
      in the middle, the extent before it reaches over it. */
  ghost predicate LeavesOf(b: Block, c: Block, f: Extent, e: Extent) {
    && f.start <= e.start && End(e) <= End(f)
    && Elems(c.atree) == Elems(b.atree) - {f} + Pieces(f, e)
  }

  /** The carve an allocation makes in the extent it finds is inside it and never fails. */
  lemma AllocationCarves(b: Block, lo: nat, hi: nat, nr: nat, f: Extent)
    requires BlockInv(b, lo, hi) && InWord(lo, hi) && Sized(nr)
    requires BestFit(b.stree, SearchSize(nr), None) == Some(f)
    ensures var e := Extent(Placed(f, nr), 4096 * nr);
      && TakenFrom(b, f, nr, e.start) && f.start <= e.start < End(f) && End(e) <= End(f) <= WORD
      && f.size > 0 && lo <= f.start && End(f) <= hi
      && Wrap(4096 * nr) == 4096 * nr && CarveWords(b, f, e) == Carve(b, f, e)
  {
    BestFitIsSmallest(b.stree, SearchSize(nr), None);
    assert f in Elems(b.entries) + Elems(b.atree);
    PlacedInside(f, nr);
    NoWrapInside(f, Extent(Placed(f, nr), 4096 * nr));
    WrapFacts();
  }

  /** Allocating takes its place in the smallest free extent that is large enough, and fails
      without touching a tree exactly when no extent is large enough or the pages could not be
      backed.  The invariant is kept exactly when something was asked for and, from one
      superpage on, when the extent starts at a superpage. */
  lemma AllocateKeepsBlock(b: Block, lo: nat, hi: nat, nr: nat, backed: bool)
    requires BlockInv(b, lo, hi) && InWord(lo, hi) && Sized(nr)
    ensures var (c, r) := Allocate(b, nr, backed);
      && (r.None? <==> !backed || forall f :: f in Elems(b.atree) ==> f.size < SearchSize(nr))
      && (r.None? ==> c == b)
      && (r.Some? ==>
            && Elems(c.entries) == Elems(b.entries) + {Extent(r.value, 4096 * nr)}
            && exists f :: TakenFrom(b, f, nr, r.value) && LeavesOf(b, c, f, Extent(r.value, 4096 * nr)))
      && (BlockInv(c, lo, hi) <==> r.None? || (nr > 0 && Snug(b, nr)))
  {
    hide BlockInv, Carve, SearchSize, Placed, Wrap;
    FitFound(b, lo, hi, SearchSize(nr));
    var r := BestFit(b.stree, SearchSize(nr), None);
    if r.Some? && backed {
      var f, e := r.value, Extent(Placed(r.value, nr), 4096 * nr);
      AllocationCarves(b, lo, hi, nr, f);
      CarveWorks(b, lo, hi, f, e);
      PlacedInside(f, nr);
      if nr > 0 {
        CarveTilesExactlyWhenFlush(b, lo, hi, f, e);
      } else {
        EmptyEntry(Carve(b, f, e).0, lo, hi, e);
      }
    }
  }

  lemma FitFound(b: Block, lo: nat, hi: nat, size: nat)
    requires BlockInv(b, lo, hi)
    ensures BestFit(b.stree, size, None).None? <==> forall f :: f in Elems(b.atree) ==> f.size < size
  {
    BestFitIsSmallest(b.stree, size, None);
  }

  lemma EmptyEntry(b: Block, lo: nat, hi: nat, e: Extent)
    requires e in Elems(b.entries) && e.size == 0
    ensures !BlockInv(b, lo, hi)
  {
    assert e in Elems(b.entries) + Elems(b.atree);
  }

  /** The free extents lie apart from e and from each other, and the search for a neighbour is right. */
  lemma FreeAround(b: Block, lo: nat, hi: nat, e: Extent)
    requires TreesValid(b) && e !in Elems(b.entries) && e !in Elems(b.atree)
    requires Tiles(Elems(b.entries) + {e} + Elems(b.atree), lo, hi) && InWord(lo, hi) && End(e) < WORD
    ensures var r := Search(b.atree, NeighbourWord(e));
      && (r.Some? ==> r.value in Elems(b.atree) && Abuts(r.value, e.start, End(e)))
      && (r.None? ==> forall f :: f in Elems(b.atree) ==> !Abuts(f, e.start, End(e)))
    ensures forall f :: f in Elems(b.atree) ==> f.start != e.start
  {
    hide Ordered, Simple, Elems, Search, NeighbourWord;
    var s := Elems(b.entries) + {e} + Elems(b.atree);
    assert e in s;
    forall f | f in Elems(b.atree)
      ensures f.size > 0 && Disjoint(f, e) && lo <= e.start && End(f) <= hi
    {
      assert f in s;
    }
    SpreadSubset(s, Elems(b.atree));
    NeighbourSearchComplete(b.atree, e);
  }

  lemma EntryFreeKeepsBlock(b: Block, lo: nat, hi: nat, e: Extent)
    requires TreesValid(b) && e !in Elems(b.entries) && e !in Elems(b.atree)
    requires Tiles(Elems(b.entries) + {e} + Elems(b.atree), lo, hi) && InWord(lo, hi) && End(e) < WORD
    ensures BlockInv(EntryFree(b, e), lo, hi)
    ensures EntryFree(b, e).entries == b.entries
  {
    var s := Elems(b.entries) + {e} + Elems(b.atree);
    FreeAround(b, lo, hi, e);
    var r := Search(b.atree, NeighbourWord(e));
    if r.None? {
      FreeTreesAdd(b, e);
      assert Elems(b.entries) + (Elems(b.atree) + {e}) == s;
    } else {
      ReleaseMerges(b, lo, hi, e, r.value);
    }
  }

  lemma ReleaseMerges(b: Block, lo: nat, hi: nat, e: Extent, f: Extent)
    requires TreesValid(b) && e !in Elems(b.entries) && e !in Elems(b.atree)
    requires Tiles(Elems(b.entries) + {e} + Elems(b.atree), lo, hi) && InWord(lo, hi) && End(e) < WORD
    requires f in Elems(b.atree) && Abuts(f, e.start, End(e))
    ensures BlockInv(FreeAdd(FreeDelete(b, f), Merge(f, e)).0, lo, hi)
    ensures FreeAdd(FreeDelete(b, f), Merge(f, e)).0.entries == b.entries
  {
    hide Ordered, Simple, Elems, FreeAdd, FreeDelete, FreeTrees, Merge, Tiles;
    var s := Elems(b.entries) + {e} + Elems(b.atree);
    var m := Merge(f, e);
    FreeTreesDelete(b, f);
    var b1 := FreeDelete(b, f);
    JoinTiles(s, lo, hi, e, f);
    assert forall g :: g in Elems(b1.atree) ==> g in s - {e, f} && g in s - {e, f} + {m};
    JoinedStart(s - {e, f} + {m}, lo, hi, m, Elems(b1.atree));
    FreeTreesAdd(b1, m);
    assert Elems(b.entries) + (Elems(b1.atree) + {m}) == s - {e, f} + {m};
  }

  lemma JoinedStart(t: set<Extent>, lo: nat, hi: nat, m: Extent, rest: set<Extent>)
    requires Tiles(t, lo, hi) && m in t && rest <= t - {m}
    ensures forall g :: g in rest ==> g.start != m.start
  {
    forall g | g in rest
      ensures g.start != m.start
    {
      assert Disjoint(g, m) && g.size > 0 && m.size > 0;
    }
  }

  /** The search for a release finds the entry at the address exactly when its end is below 2^64. */
  lemma ReleasedExactly(b: Block, lo: nat, hi: nat, addr: nat, e: Extent)
    requires BlockInv(b, lo, hi) && hi <= WORD
    ensures Released(b, addr) == Some(e) <==> e in Elems(b.entries) && e.start == addr && End(e) < WORD
  {
    hide Ordered, Simple, Elems, Search, FitWord;
    var s := Elems(b.entries) + Elems(b.atree);
    SpreadSubset(s, Elems(b.entries));
    FitSearchComplete(b.entries, addr);
    var r := Search(b.entries, FitWord(addr));
    if r.Some? { OnlyHolder(Elems(b.entries), r.value, addr); }
    assert e in Elems(b.entries) && e.start == addr && End(e) < WORD ==> e in s && Seen(e, addr);
  }

  lemma OnlyHolder(s: set<Extent>, e: Extent, addr: nat)
    requires Spread(s) && e in s && e.start <= addr < End(e)
    ensures forall g :: g in s && g.start <= addr < End(g) ==> g == e
  {
    forall g | g in s && g.start <= addr < End(g)
      ensures g == e
    {
      assert g != e ==> Disjoint(g, e);
    }
  }

  /** Releasing returns an entry's place to the free extents: the entry whose start is the
      address goes exactly when its end is below 2^64, and every other entry stays. */
  lemma ReleaseKeepsBlock(b: Block, lo: nat, hi: nat, addr: nat)
    requires BlockInv(b, lo, hi) && InWord(lo, hi)
    ensures var c := Release(b, addr);
      && BlockInv(c, lo, hi)
      && (forall e :: e in Elems(c.entries) <==>
            e in Elems(b.entries) && !(e.start == addr && End(e) < WORD))
      && ((forall e :: e in Elems(b.entries) && e.start == addr ==> End(e) == WORD) ==> c == b)
  {
    hide Ordered, Simple, Elems, EntryFree, EntryDelete, Released;
    var s := Elems(b.entries) + Elems(b.atree);
    forall e
      ensures Released(b, addr) == Some(e) <==> e in Elems(b.entries) && e.start == addr && End(e) < WORD
      ensures e in Elems(b.entries) ==> End(e) <= WORD
    {
      ReleasedExactly(b, lo, hi, addr, e);
      assert e in Elems(b.entries) ==> e in s;
    }
    var r := Released(b, addr);
    if r.Some? {
      var e := r.value;
      EntryDeleteWorks(b, e);
      var b1 := EntryDelete(b, e);
      assert Elems(b1.entries) + {e} + Elems(b1.atree) == s;
      EntryFreeKeepsBlock(b1, lo, hi, e);
    }
  }

  /** The one extent that two adjacent extents make. */
  function Joined(f: Extent, e: Extent): Extent {
    Extent(if f.start < e.start then f.start else e.start, f.size + e.size)
  }

  /** The free extents after e was given back: if none abuts it, e is a new one; otherwise one that
      does is joined with it, so that their number does not grow. */
  ghost predicate Rejoined(free: set<Extent>, after: set<Extent>, e: Extent) {
    if forall f :: f in free ==> !Abuts(f, e.start, End(e)) then after == free + {e}
    else
      && |after| == |free|
      && exists f :: f in free && Abuts(f, e.start, End(e)) && after == free - {f} + {Joined(f, e)}
  }

  lemma EntryFreeJoins(b: Block, lo: nat, hi: nat, e: Extent)
    requires TreesValid(b) && e !in Elems(b.entries) && e !in Elems(b.atree)
    requires Tiles(Elems(b.entries) + {e} + Elems(b.atree), lo, hi) && InWord(lo, hi) && End(e) < WORD
    ensures Rejoined(Elems(b.atree), Elems(EntryFree(b, e).atree), e)
  {
    hide Ordered, Simple, Elems, FreeAdd, FreeDelete, Search, NeighbourWord, Merge;
    var s := Elems(b.entries) + {e} + Elems(b.atree);
    FreeAround(b, lo, hi, e);
    var r := Search(b.atree, NeighbourWord(e));
    hide Tiles, InWord, Abuts;
    if r.None? {
      FreeTreesAdd(b, e);
    } else {
      JoinsWith(b, lo, hi, e, r.value);
    }
  }

  lemma JoinsWith(b: Block, lo: nat, hi: nat, e: Extent, f: Extent)
    requires TreesValid(b) && e !in Elems(b.entries) && e !in Elems(b.atree)
    requires Tiles(Elems(b.entries) + {e} + Elems(b.atree), lo, hi) && InWord(lo, hi) && End(e) < WORD
    requires f in Elems(b.atree) && Abuts(f, e.start, End(e))
    ensures var free, after := Elems(b.atree), Elems(FreeAdd(FreeDelete(b, f), Merge(f, e)).0.atree);
      after == free - {f} + {Joined(f, e)} && |after| == |free|
  {
    hide Ordered, Simple, Elems, FreeAdd, FreeDelete, FreeTrees, Tiles;
    var s := Elems(b.entries) + {e} + Elems(b.atree);
    MergeJoins(s, lo, hi, e, f);
    hide Merge, Joined;
    var m := Merge(f, e);
    FreeTreesDelete(b, f);
    var b1 := FreeDelete(b, f);
    JoinTiles(s, lo, hi, e, f);
    assert forall g :: g in Elems(b1.atree) ==> g in s - {e, f} && g in s - {e, f} + {m};
    JoinedStart(s - {e, f} + {m}, lo, hi, m, Elems(b1.atree));
    FreeTreesAdd(b1, m);
    SwapCount(Elems(b.atree), f, m);
  }

  lemma MergeJoins(s: set<Extent>, lo: nat, hi: nat, e: Extent, f: Extent)
    requires Tiles(s, lo, hi) && e in s && f in s && e != f && Abuts(f, e.start, End(e))
    requires InWord(lo, hi) && End(e) < WORD
    ensures Merge(f, e) == Joined(f, e)
  {
    assert e.size > 0 && f.size > 0 && Disjoint(e, f);
    WrapFacts();
    hide Wrap;
    assert f.size + e.size <= hi - lo;
  }

  lemma SwapCount(s: set<Extent>, f: Extent, m: Extent)
    requires f in s && m !in s
    ensures |s - {f} + {m}| == |s|
  {
    assert |s - {f}| == |s| - 1;
  }

  /** What a release does to the free extents. */
  lemma ReleaseJoins(b: Block, lo: nat, hi: nat, e: Extent)
    requires BlockInv(b, lo, hi) && InWord(lo, hi) && e in Elems(b.entries) && End(e) < WORD
    ensures Rejoined(Elems(b.atree), Elems(Release(b, e.start).atree), e)
  {
    hide Ordered, Simple, Elems, EntryFree, EntryDelete, Released, Rejoined;
    var s := Elems(b.entries) + Elems(b.atree);
    ReleasedExactly(b, lo, hi, e.start, e);
    EntryDeleteWorks(b, e);
    var b1 := EntryDelete(b, e);
    assert Elems(b1.entries) + {e} + Elems(b1.atree) == s;
    EntryFreeJoins(b1, lo, hi, e);
  }

  /** The last page of the 64-bit space, allocated from a block of its own, is never released. */
  lemma TopPageKept()
    ensures var b := OneExtent(AddedExtent(WORD - 4096, WORD - 1));
      var (c, r) := Allocate(b, 1, true);
      && BlockInv(b, WORD - 4096, WORD) && r == Some(WORD - 4096) && Release(c, WORD - 4096) == c
  {
    hide Allocate, Release;
    AddedBlockExactly(WORD - 4096, WORD - 1);
    var b := OneExtent(AddedExtent(WORD - 4096, WORD - 1));
    var f := Extent(WORD - 4096, 4096);
    assert b.atree == Node(Leaf, f, Leaf) && f in Elems(b.atree);
    WrapFacts();
    AllocateKeepsBlock(b, WORD - 4096, WORD, 1, true);
    var (c, r) := Allocate(b, 1, true);
    ReleaseKeepsBlock(c, WORD - 4096, WORD, WORD - 4096);
  }

  lemma SpreadSubset(s: set<Extent>, t: set<Extent>)
    requires Spread(s) && t <= s
    ensures Spread(t)
  {
  }

  // ---- Whole runs ---------------------------------------------------------------------------

  datatype Op = AllocateOp(nr: nat, backed: bool) | ReleaseOp(addr: nat)

  function Step(b: Block, op: Op): Block {
    match op
    case AllocateOp(nr, backed) => Allocate(b, nr, backed).0
    case ReleaseOp(addr) => Release(b, addr)
  }

  function Run(b: Block, ops: seq<Op>): Block
    decreases |ops|
  {
    if ops == [] then b else Run(Step(b, ops[0]), ops[1..])
  }

  /** An allocation of some pages whose extent needs no alignment, or any release. */
  predicate Fine(b: Block, op: Op) {
    op.AllocateOp? ==> op.nr > 0 && Sized(op.nr) && Snug(b, op.nr)
  }

  predicate FineRun(b: Block, ops: seq<Op>)
    decreases |ops|
  {
    ops == [] || (Fine(b, ops[0]) && FineRun(Step(b, ops[0]), ops[1..]))
  }

  /** Over every such run, entries and free extents tile the block without overlap and
      both free trees hold the same extents. */
  lemma {:induction false} RunKeepsBlock(b: Block, lo: nat, hi: nat, ops: seq<Op>)
    requires BlockInv(b, lo, hi) && InWord(lo, hi) && FineRun(b, ops)
    ensures BlockInv(Run(b, ops), lo, hi)
    decreases |ops|
  {
    hide BlockInv, Allocate, Release, Snug;
    if ops != [] {
      match ops[0] {
        case AllocateOp(nr, backed) => AllocateKeepsBlock(b, lo, hi, nr, backed);
        case ReleaseOp(addr) => ReleaseKeepsBlock(b, lo, hi, addr);
      }
      RunKeepsBlock(Step(b, ops[0]), lo, hi, ops[1..]);
    }
  }

  /** Requests of less than a superpage never need alignment. */
  lemma {:induction false} SmallRunsFine(b: Block, ops: seq<Op>)
    requires forall i :: 0 <= i < |ops| && ops[i].AllocateOp? ==> 1 <= ops[i].nr < 512
    ensures FineRun(b, ops)
    decreases |ops|
  {
    if ops != [] {
      SmallRunsFine(Step(b, ops[0]), ops[1..]);
    }
  }

  function OneExtent(f: Extent): Block {
    Block(Leaf, Node(Leaf, f, Leaf), Node(Leaf, f, Leaf))
  }

  /** A block that is one free extent. */
  function NewBlock(lo: nat, hi: nat): Block
    requires lo < hi
  {
    OneExtent(Extent(lo, hi - lo))
  }

  lemma NewBlockValid(lo: nat, hi: nat)
    requires lo < hi
    ensures BlockInv(NewBlock(lo, hi), lo, hi)
  {
    var b, f := NewBlock(lo, hi), Extent(lo, hi - lo);
    assert Elems(b.entries) + Elems(b.atree) == {f};
    forall x: nat | lo <= x < hi
      ensures CoveredBy({f}, x)
    {
      assert f in {f} && Holds(f, x);
    }
  }

  function PageFloor(x: nat): (r: nat)
    ensures r <= x < r + 4096 && r % 4096 == 0
  {
    x - x % 4096
  }

  /** The free extent a new block of the bytes start to end, both included, begins with. */
  function AddedExtent(start: nat, end: nat): Extent {
    var first := PageFloor(Wrap(start + 4095));
    Extent(first, Wrap(PageFloor(Wrap(end + 1)) - first))
  }

  /** A new block tiles the whole pages of its range exactly when the range holds one,
      and is not the whole 64-bit space, whose size is 0 in 64 bits. */
  lemma AddedBlockExactly(start: nat, end: nat)
    requires start <= end < WORD
    ensures var lo, hi := PageFloor(start + 4095), PageFloor(end + 1);
      && (lo < hi < lo + WORD ==> OneExtent(AddedExtent(start, end)) == NewBlock(lo, hi))
      && (BlockInv(OneExtent(AddedExtent(start, end)), lo, hi) <==> lo < hi < lo + WORD)
  {
    var lo, hi := PageFloor(start + 4095), PageFloor(end + 1);
    var f := AddedExtent(start, end);
    var b := OneExtent(f);
    assert f in Elems(b.entries) + Elems(b.atree);
    AddedStart(start);
    if start + 4095 < WORD { AddedSize(start, end); }
    if lo < hi < lo + WORD {
      NewBlockValid(lo, hi);
    } else {
      assert !(f.size > 0 && lo <= f.start && End(f) <= hi);
    }
  }

  /** A block of the whole 64-bit space begins with a free extent of size 0. */
  lemma WholeSpaceAdded()
    ensures var b := OneExtent(AddedExtent(0, WORD - 1));
      b.atree == Node(Leaf, Extent(0, 0), Leaf) && !BlockInv(b, 0, WORD)
  {
    AddedBlockExactly(0, WORD - 1);
  }

  lemma AddedStart(start: nat)
    requires start < WORD
    ensures PageFloor(Wrap(start + 4095)) == if start + 4095 < WORD then PageFloor(start + 4095) else 0
    ensures start + 4095 >= WORD ==> PageFloor(start + 4095) == WORD
  {
  }

  lemma AddedSize(start: nat, end: nat)
    requires start <= end < WORD && start + 4095 < WORD
    ensures var lo, hi := PageFloor(start + 4095), PageFloor(end + 1);
      AddedExtent(start, end) == Extent(lo,
          if lo <= hi then (if hi - lo < WORD then hi - lo else 0) else hi - lo + WORD)
  {
    AddedStart(start);
    AddedEnd(end);
    hide PageFloor, Wrap;
    WrapMinus(PageFloor(end + 1), PageFloor(start + 4095));
  }

  lemma AddedEnd(end: nat)
    requires end < WORD
    ensures PageFloor(Wrap(end + 1)) == if PageFloor(end + 1) == WORD then 0 else PageFloor(end + 1)
    ensures PageFloor(end + 1) <= WORD
  {
    if end + 1 < WORD { WrapFacts(); }
  }

  lemma WrapMinus(hi: nat, lo: nat)
    requires lo < WORD && hi <= WORD
    ensures Wrap((if hi == WORD then 0 else hi) - lo)
      == if lo <= hi then (if hi - lo < WORD then hi - lo else 0) else hi - lo + WORD
  {
  }

  /** On a new block that ends below 2^64, releasing what was just allocated gives the new block back. */
  lemma NewBlockAgain(lo: nat, hi: nat, nr: nat)
    requires lo < hi < WORD && Sized(nr) && nr > 0 && SearchSize(nr) <= hi - lo && Snug(NewBlock(lo, hi), nr)
    ensures var b := NewBlock(lo, hi);
      var (c, r) := Allocate(b, nr, true);
      r == Some(lo) && Release(c, lo) == b
  {
    var b, f, e := NewBlock(lo, hi), Extent(lo, hi - lo), Extent(lo, 4096 * nr);
    assert BestFit(b.stree, SearchSize(nr), None) == Some(f);
    PlacedInside(f, nr);
    WrapFacts();
    hide SearchSize, Placed, Wrap, Sized;
    NoWrapInside(f, e);
    hide WordParts;
    var c := Allocate(b, nr, true).0;
    assert EntryAdd(b, e) == (b.(entries := Node(Leaf, e, Leaf)), true);
    assert FreeDelete(EntryAdd(b, e).0, f) == Block(Node(Leaf, e, Leaf), Leaf, Leaf);
    if f == e {
      assert c == Block(Node(Leaf, e, Leaf), Leaf, Leaf);
    } else {
      var p := Extent(lo + e.size, f.size - e.size);
      assert c == Block(Node(Leaf, e, Leaf), Node(Leaf, p, Leaf), Node(Leaf, p, Leaf));
      assert Merge(p, e) == f;
    }
    assert Released(c, lo) == Some(e);
    assert EntryDelete(c, e) == c.(entries := Leaf);
  }

  /** Carving the middle page out of three leaves an overlap. */
  lemma MiddlePageCarved()
    ensures var b, f, e := NewBlock(0, 0x3000), Extent(0, 0x3000), Extent(0x1000, 0x1000);
      BlockInv(b, 0, 0x3000) && f in Elems(b.atree) && !BlockInv(Carve(b, f, e).0, 0, 0x3000)
  {
    var b, f, e := NewBlock(0, 0x3000), Extent(0, 0x3000), Extent(0x1000, 0x1000);
    NewBlockValid(0, 0x3000);
    assert f in Elems(b.atree);
    CarveTilesExactlyWhenFlush(b, 0, 0x3000, f, e);
  }

  /** On a new block that starts one page up, 512 pages are placed inside the extent and the
      tiling is lost; and so it is when no page is asked for. */
  lemma UnalignedCarved()
    ensures var b := NewBlock(0x1000, 0x60_0000);
      && BlockInv(b, 0x1000, 0x60_0000)
      && Allocate(b, 512, true).1 == Some(0x20_0000) && !BlockInv(Allocate(b, 512, true).0, 0x1000, 0x60_0000)
      && Allocate(b, 0, true).1 == Some(0x1000) && !BlockInv(Allocate(b, 0, true).0, 0x1000, 0x60_0000)
  {
    hide Allocate, BlockInv;
    var b, f := NewBlock(0x1000, 0x60_0000), Extent(0x1000, 0x5f_f000);
    NewBlockValid(0x1000, 0x60_0000);
    assert forall g :: g in Elems(b.atree) <==> g == f;
    WrapFacts();
    AllocateKeepsBlock(b, 0x1000, 0x60_0000, 512, true);
    AllocateKeepsBlock(b, 0x1000, 0x60_0000, 0, true);
  }
}
