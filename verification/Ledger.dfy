/** The ledger of one virtual memory block: allocated entries ordered by
    address and free extents indexed twice, by address and by size. */
module Ledger {
  import opened Basics
  import opened Btree

  datatype Extent = Extent(start: nat, size: nat)

  function End(e: Extent): nat {
    e.start + e.size
  }

  const ByStart: Extent -> int := (e: Extent) => e.start
  const BySize: Extent -> int := (e: Extent) => e.size

  datatype Block = Block(entries: Tree<Extent>, atree: Tree<Extent>, stree: Tree<Extent>)

  // ---- Search conditions ------------------------------------------------------------

  /** A number in a 64-bit word. */
  function Wrap(x: int): nat {
    x % WORD
  }

  lemma WrapFacts()
    ensures forall x :: 0 <= x < WORD ==> Wrap(x) == x
    ensures Wrap(WORD) == 0
  {
  }

  /** Found when the extent holds the address, its end taken in 64 bits. */
  function FitWord(addr: nat): Extent -> int {
    (e: Extent) => if e.start <= addr < Wrap(End(e)) then 0 else if addr < e.start then -1 else 1
  }

  /** Found when the extent abuts the other one, ends taken in 64 bits. */
  function NeighbourWord(e: Extent): Extent -> int {
    (f: Extent) =>
      if Wrap(End(e)) == f.start || e.start == Wrap(End(f)) then 0 else if e.start < f.start then -1 else 1
  }

  /** The size search: always descends and keeps the last extent that was large enough. */
  function BestFit(t: Tree<Extent>, size: nat, best: Option<Extent>): (r: Option<Extent>)
    ensures r == best || (r.Some? && size <= r.value.size)
  {
    match t
    case Leaf => best
    case Node(l, x, r) => if size > x.size then BestFit(r, size, best) else BestFit(l, size, Some(x))
  }

  // ---- Tree updates -------------------------------------------------------------------

  function FreeAdd(b: Block, f: Extent): (Block, bool) {
    var (a, ok) := Add(b.atree, f, ByStart, false);
    if !ok then (b, false)
    else (b.(atree := a, stree := Add(b.stree, f, BySize, true).0), true)
  }

  function FreeDelete(b: Block, f: Extent): Block {
    b.(atree := Delete(b.atree, f, ByStart).0, stree := Delete(b.stree, f, BySize).0)
  }

  function EntryAdd(b: Block, e: Extent): (Block, bool) {
    var (t, ok) := Add(b.entries, e, ByStart, false);
    (b.(entries := t), ok)
  }

  function EntryDelete(b: Block, e: Extent): Block {
    b.(entries := Delete(b.entries, e, ByStart).0)
  }

  /** Undo of the entry when a free extent cannot be added back. */
  function CarveFailed(b: Block, f: Extent, e: Extent): Block {
    FreeAdd(EntryDelete(b, e), f).0
  }

  /** Replace free extent f by entry e and the parts of f that stay free. */
  function Carved(b: Block, f: Extent, e: Extent, parts: seq<Extent>): (Block, bool) {
    var (b0, added) := EntryAdd(b, e);
    if !added then (b, false)
    else
      var b1 := FreeDelete(b0, f);
      if |parts| == 0 then (b1, true)
      else
        var (b2, ok) := FreeAdd(b1, parts[0]);
        if !ok then (CarveFailed(b1, f, e), false)
        else if |parts| == 1 then (b2, true)
        else
          var (b3, ok3) := FreeAdd(b2, parts[1]);
          if ok3 then (b3, true) else (CarveFailed(FreeDelete(b2, parts[0]), f, e), false)
  }

  /** The parts for an entry inside f; the lower part of an interior carve reaches
      to the end of the entry, as the source computes it. */
  function Parts(f: Extent, e: Extent): seq<Extent>
    requires f.start <= e.start && End(e) <= End(f)
  {
    if f == e then []
    else if f.start == e.start then [Extent(f.start + e.size, f.size - e.size)]
    else if End(f) == End(e) then [Extent(f.start, f.size - e.size)]
    else [Extent(f.start, End(e) - f.start), Extent(End(e), End(f) - End(e))]
  }

  /** Give entry e the place it takes inside free extent f. */
  function Carve(b: Block, f: Extent, e: Extent): (Block, bool)
    requires f.start <= e.start && End(e) <= End(f)
  {
    Carved(b, f, e, Parts(f, e))
  }

  // ---- In 64-bit words --------------------------------------------------------------------

  /** The parts in the arithmetic of the source, whatever the entry is. */
  function WordParts(f: Extent, e: Extent): seq<Extent> {
    if f == e then []
    else if f.start == e.start then [Extent(Wrap(f.start + e.size), Wrap(f.size - e.size))]
    else if Wrap(End(f)) == Wrap(End(e)) then [Extent(f.start, Wrap(f.size - e.size))]
    else
      var middle := Wrap(End(e));
      [Extent(f.start, Wrap(middle - f.start)), Extent(middle, Wrap(End(f) - middle))]
  }

  function CarveWords(b: Block, f: Extent, e: Extent): (Block, bool) {
    Carved(b, f, e, WordParts(f, e))
  }

  /** For an entry inside the free extent nothing wraps. */
  lemma NoWrapInside(f: Extent, e: Extent)
    requires f.start <= e.start < End(f) <= WORD && End(e) <= End(f) && (e.size > 0 || f.size < WORD)
    ensures WordParts(f, e) == Parts(f, e)
  {
    WrapFacts();
    hide Wrap;
  }

  // ---- Allocation and release -------------------------------------------------------------

  const SUPERPAGE: nat := 0x20_0000

  /** A number of pages whose size, with room to align a superpage, is a 64-bit number. */
  predicate Sized(nr: nat) {
    4096 * nr + SUPERPAGE < WORD
  }

  /** The size to search for: from one superpage on, with room to align. */
  function SearchSize(nr: nat): nat {
    var size := Wrap(4096 * nr);
    if size >= SUPERPAGE then Wrap(size + SUPERPAGE) else size
  }

  /** Where in free extent f an entry of nr pages starts: from one superpage on, aligned. */
  function Placed(f: Extent, nr: nat): nat {
    if Wrap(4096 * nr) < SUPERPAGE || f.start % SUPERPAGE == 0 then f.start
    else
      var x := Wrap(f.start + (SUPERPAGE - 1));
      x - x % SUPERPAGE
  }

  lemma PlacedInside(f: Extent, nr: nat)
    requires Sized(nr) && SearchSize(nr) <= f.size && End(f) <= WORD
    ensures f.start <= Placed(f, nr) && Placed(f, nr) + 4096 * nr <= End(f)
    ensures nr >= 512 ==> Placed(f, nr) % SUPERPAGE == 0
    ensures Placed(f, nr) == f.start <==> nr < 512 || f.start % SUPERPAGE == 0
    ensures Placed(f, nr) != f.start ==> Placed(f, nr) + 4096 * nr < End(f)
    ensures f.size > 0 ==> Placed(f, nr) < End(f)
  {
    WrapFacts();
    hide Wrap;
  }

  /** Allocation of nr pages.  `backed` tells whether records, physical pages and
      mappings could be had; they are released otherwise. */
  function Allocate(b: Block, nr: nat, backed: bool): (Block, Option<nat>) {
    match BestFit(b.stree, SearchSize(nr), None)
    case None => (b, None)
    case Some(f) =>
      if !backed then (b, None)
      else
        var e := Extent(Placed(f, nr), Wrap(4096 * nr));
        var (c, ok) := CarveWords(b, f, e);
        if ok then (c, Some(e.start)) else (c, None)
  }

  /** The extent that releasing e next to f leaves. */
  function Merge(f: Extent, e: Extent): Extent {
    Extent(if f.start == Wrap(End(e)) then e.start else f.start, Wrap(f.size + e.size))
  }

  function EntryFree(b: Block, e: Extent): Block {
    match Search(b.atree, NeighbourWord(e))
    case None => FreeAdd(b, e).0
    case Some(f) => FreeAdd(FreeDelete(b, f), Merge(f, e)).0
  }

  /** The entry that a release of the address takes out. */
  function Released(b: Block, addr: nat): Option<Extent> {
    match Search(b.entries, FitWord(addr))
    case None => None
    case Some(e) => if e.start == addr then Some(e) else None
  }

  function Release(b: Block, addr: nat): Block {
    match Released(b, addr)
    case None => b
    case Some(e) => EntryFree(EntryDelete(b, e), e)
  }

  // ---- The directed searches agree with linear scans -------------------------------------

  /** The size search yields the smallest free extent that is large enough, if any. */
  lemma {:induction false} BestFitIsSmallest(t: Tree<Extent>, size: nat, best: Option<Extent>)
    requires Ordered(t, BySize)
    requires best.Some? ==> size <= best.value.size && forall y :: y in Elems(t) ==> y.size <= best.value.size
    ensures var r := BestFit(t, size, best);
      && (r.None? <==> best.None? && forall y :: y in Elems(t) ==> y.size < size)
      && (r.Some? ==>
            && size <= r.value.size && (r.value in Elems(t) || r == best)
            && forall y :: y in Elems(t) && size <= y.size ==> r.value.size <= y.size)
  {
    match t
    case Leaf =>
    case Node(l, x, r) =>
      assert BySize(x) == x.size;
      forall y | y in Elems(l)
        ensures y.size <= x.size
      {
        assert BySize(y) <= BySize(x);
      }
      forall y | y in Elems(r)
        ensures x.size < y.size
      {
        assert BySize(x) < BySize(y);
      }
      if size > x.size {
        BestFitIsSmallest(r, size, best);
      } else {
        BestFitIsSmallest(l, size, Some(x));
      }
  }

  predicate Disjoint(e: Extent, f: Extent) {
    End(e) <= f.start || End(f) <= e.start
  }

  predicate Abuts(f: Extent, start: nat, end: nat) {
    end == f.start || start == End(f)
  }

  /** Nonempty extents, disjoint from each other. */
  ghost predicate Spread(s: set<Extent>) {
    && (forall f :: f in s ==> f.size > 0)
    && (forall f, g :: f in s && g in s && f != g ==> Disjoint(f, g))
  }

  /** In a tree of spread extents ordered by start, everything to the left of a
      node ends before it and everything to the right starts after it. */
  lemma NodeSeparates(l: Tree<Extent>, x: Extent, r: Tree<Extent>)
    requires Ordered(Node(l, x, r), ByStart) && Simple(Node(l, x, r)) && Spread(Elems(Node(l, x, r)))
    ensures forall f :: f in Elems(l) ==> f.size > 0 && End(f) <= x.start
    ensures forall f :: f in Elems(r) ==> f.size > 0 && End(x) <= f.start
    ensures Spread(Elems(l)) && Spread(Elems(r)) && x.size > 0
  {
    var t := Elems(Node(l, x, r));
    assert x in t;
    forall f | f in Elems(l)
      ensures f.size > 0 && End(f) <= x.start
    {
      assert f in t && ByStart(f) <= ByStart(x) && Disjoint(f, x);
    }
    forall f | f in Elems(r)
      ensures f.size > 0 && End(x) <= f.start
    {
      assert f in t && ByStart(x) < ByStart(f) && Disjoint(f, x);
    }
  }

  /** The extent and everything in the tree lie in one block that is not the whole 64-bit space. */
  ghost predicate WithinWord(t: Tree<Extent>, e: Extent) {
    End(e) < WORD && forall f :: f in Elems(t) ==> End(f) <= WORD && (End(f) == WORD ==> e.start > 0)
  }

  /** The neighbour search finds an abutting free extent whenever one exists. */
  lemma {:induction false} NeighbourSearchComplete(t: Tree<Extent>, e: Extent)
    requires Ordered(t, ByStart) && Simple(t) && e.size > 0 && Spread(Elems(t)) && WithinWord(t, e)
    requires forall f :: f in Elems(t) ==> Disjoint(f, e)
    ensures var r := Search(t, NeighbourWord(e));
      && (r.Some? ==> r.value in Elems(t) && Abuts(r.value, e.start, End(e)))
      && (r.None? ==> forall f :: f in Elems(t) ==> !Abuts(f, e.start, End(e)))
  {
    match t
    case Leaf =>
    case Node(l, x, r) =>
      NodeSeparates(l, x, r);
      assert x in Elems(t) && Disjoint(x, e);
      WrapFacts();
      hide Ordered, Simple, Spread, Wrap;
      if NeighbourWord(e)(x) > 0 {
        NeighbourSearchComplete(r, e);
      } else if NeighbourWord(e)(x) < 0 {
        NeighbourSearchComplete(l, e);
      }
  }

  /** The extent holds the address, and the code can see it: an end of 2^64 is 0 in 64 bits. */
  predicate Seen(f: Extent, addr: nat) {
    f.start <= addr < End(f) < WORD
  }

  /** The address search finds the extent that holds an address exactly when its end is below 2^64. */
  lemma {:induction false} FitSearchComplete(t: Tree<Extent>, addr: nat)
    requires Ordered(t, ByStart) && Simple(t) && Spread(Elems(t)) && forall f :: f in Elems(t) ==> End(f) <= WORD
    ensures var r := Search(t, FitWord(addr));
      && (r.Some? ==> r.value in Elems(t) && Seen(r.value, addr))
      && (r.None? ==> forall f :: f in Elems(t) ==> !Seen(f, addr))
  {
    match t
    case Leaf =>
    case Node(l, x, r) =>
      NodeSeparates(l, x, r);
      assert x in Elems(t);
      WrapFacts();
      hide Ordered, Simple, Spread, Wrap;
      if FitWord(addr)(x) > 0 {
        FitSearchComplete(r, addr);
      } else if FitWord(addr)(x) < 0 {
        FitSearchComplete(l, addr);
      }
  }
}
