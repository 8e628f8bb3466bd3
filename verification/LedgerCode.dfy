/** The ledger of one block on linked tree nodes: entries by address, and free
    records that sit in two trees at once. */
module LedgerCode {
  import opened Basics
  import opened Btree
  import opened BtreeCode
  import opened Ledger
  import opened LedgerTheorems

  lemma KeptParts(b: Block)
    requires Kept(b)
    ensures Ordered(b.entries, ByStart) && Simple(b.entries) && Ordered(b.atree, ByStart) && Simple(b.atree)
    ensures Ordered(b.stree, BySize) && Simple(b.stree)
  {
  }

  lemma OneExtentKept(f: Extent)
    ensures Kept(OneExtent(f))
  {
  }

  lemma FreeAddKept(b: Block, f: Extent)
    requires Kept(b)
    ensures Kept(FreeAdd(b, f).0)
    ensures FreeAdd(b, f).1 ==> f !in Elems(b.atree)
  {
    FreeTreesAdd(b, f);
  }

  lemma FreeAddIs(b: Block, f: Extent, a: Tree<Extent>, ok: bool)
    requires (a, ok) == Add(b.atree, f, ByStart, false)
    ensures FreeAdd(b, f) == if ok then (b.(atree := a, stree := Add(b.stree, f, BySize, true).0), true) else (b, false)
  {
  }

  lemma FreeDeleteKept(b: Block, f: Extent)
    requires Kept(b)
    ensures Kept(FreeDelete(b, f))
  {
    FreeTreesDelete(b, f);
  }

  lemma EntryAddKept(b: Block, e: Extent)
    requires Kept(b)
    ensures Kept(EntryAdd(b, e).0)
  {
    AddKeepsOrder(b.entries, e, ByStart, false);
    if EntryAdd(b, e).1 {
      assert forall y :: y in Elems(b.entries) ==> ByStart(y) != ByStart(e);
      AddSimple(b.entries, e, ByStart, false);
    }
  }

  lemma EntryDeleteKept(b: Block, e: Extent)
    requires Kept(b)
    ensures Kept(EntryDelete(b, e))
  {
    DeleteKeepsOrder(b.entries, e, ByStart);
  }

  /** Every free node belongs to a record that has its other node in the other tree. */
  ghost predicate Pairs(records: set<FreeRecord>, a: set<TreeNode>, s: set<TreeNode>)
    reads records
  {
    && (forall r :: r in records ==> r.Whole() && r.anode in a && r.snode in s)
    && (forall n :: n in a ==> n.owner != null && n.owner in records && n.owner.anode == n)
    && (forall n :: n in s ==> n.owner != null && n.owner in records && n.owner.snode == n)
  }

  lemma PairsAdd(records: set<FreeRecord>, a: set<TreeNode>, s: set<TreeNode>, r: FreeRecord)
    requires Pairs(records, a, s) && r.Whole()
    ensures Pairs(records + {r}, a + {r.anode}, s + {r.snode})
  {
  }

  lemma PairsRemove(records: set<FreeRecord>, a: set<TreeNode>, s: set<TreeNode>, r: FreeRecord)
    requires Pairs(records, a, s) && r in records
    ensures r.Whole() && r.anode in a && r.snode in s
    ensures Pairs(records - {r}, a - {r.anode}, s - {r.snode})
  {
  }

  class LedgerBlock {
    var entries: TreeNode?
    var atree: TreeNode?
    var stree: TreeNode?
    ghost var te: Tree<TreeNode>
    ghost var ta: Tree<TreeNode>
    ghost var ts: Tree<TreeNode>
    ghost var records: set<FreeRecord>

    /** A new block: one free record over the whole pages from start to end, both included. */
    constructor (start: nat, end: nat)
      ensures Valid() && Contents() == OneExtent(AddedExtent(start, end))
    {
      var first := PageFloor(Wrap(start + 4095));
      var r := new FreeRecord(Extent(first, Wrap(PageFloor(Wrap(end + 1)) - first)));
      entries, atree, stree := null, r.anode, r.snode;
      te, ta, ts, records := Leaf, Node(Leaf, r.anode, Leaf), Node(Leaf, r.snode, Leaf), {r};
      new;
      OneExtentKept(r.extent);
    }

    /** The extents in the three trees. */
    ghost function Contents(): Block
      reads `te, `ta, `ts
    {
      Block(Values(te), Values(ta), Values(ts))
    }

    /** The node is in none of the trees. */
    ghost predicate Apart(n: TreeNode)
      reads `te, `ta, `ts
    {
      n !in Elems(te) && n !in Elems(ta) && n !in Elems(ts)
    }

    /** The three trees are linked from their roots and share no node. */
    ghost predicate Shape()
      reads `entries, `atree, `stree, `te, `ta, `ts, Elems(te), Elems(ta), Elems(ts)
    {
      && Rep(entries, te) && Rep(atree, ta) && Rep(stree, ts)
      && Elems(te) !! Elems(ta) && Elems(te) !! Elems(ts) && Elems(ta) !! Elems(ts)
    }

    ghost predicate Valid()
      reads this, records, Elems(te), Elems(ta), Elems(ts)
    {
      Shape() && Kept(Contents()) && Pairs(records, Elems(ta), Elems(ts))
    }

    lemma NodesAlive()
      requires Shape()
      ensures forall n :: n in Elems(te) ==> allocated(n)
      ensures forall n :: n in Elems(ta) ==> allocated(n)
      ensures forall n :: n in Elems(ts) ==> allocated(n)
    {
      Alive(entries, te);
      Alive(atree, ta);
      Alive(stree, ts);
    }

    lemma KeptSimple()
      requires Kept(Contents())
      ensures Simple(te) && Simple(ta) && Simple(ts)
    {
      SimpleNodes(te);
      SimpleNodes(ta);
      SimpleNodes(ts);
    }

    // ---- One tree at a time ---------------------------------------------------------------

    method LinkAddress(n: TreeNode) returns (ok: bool)
      requires Shape() && Simple(ta) && Apart(n)
      modifies `atree, `ta, Elems(ta), n
      ensures Shape() && unchanged(records) && (!ok ==> ta == old(ta))
      ensures Elems(ta) == old(Elems(ta)) + if ok then {n} else {}
      ensures (Values(ta), ok) == Add(Values(old(ta)), n.data, ByStart, false)
    {
      hide Rep, Elems, Simple, Values, Add;
      NodesAlive();
      AddElems(ta, n, NodeKey(ByStart), false);
      ValuesAdd(ta, n, ByStart, false);
      atree, ok := AddNode(atree, n, ByStart, false, ta);
      ta := Add(ta, n, NodeKey(ByStart), false).0;
    }

    method LinkSize(n: TreeNode)
      requires Shape() && Simple(ts) && Apart(n)
      modifies `stree, `ts, Elems(ts), n
      ensures Shape() && unchanged(records) && Elems(ts) == old(Elems(ts)) + {n}
      ensures Values(ts) == Add(Values(old(ts)), n.data, BySize, true).0
    {
      hide Rep, Elems, Simple, Values, Add;
      NodesAlive();
      AddElems(ts, n, NodeKey(BySize), true);
      ValuesAdd(ts, n, BySize, true);
      var ok;
      stree, ok := AddNode(stree, n, BySize, true, ts);
      ts := Add(ts, n, NodeKey(BySize), true).0;
    }

    method LinkEntry(n: TreeNode) returns (ok: bool)
      requires Shape() && Simple(te) && Apart(n)
      modifies `entries, `te, Elems(te), n
      ensures Shape() && unchanged(records) && Elems(te) == old(Elems(te)) + if ok then {n} else {}
      ensures (Values(te), ok) == Add(Values(old(te)), n.data, ByStart, false)
    {
      hide Rep, Elems, Simple, Values, Add;
      NodesAlive();
      AddElems(te, n, NodeKey(ByStart), false);
      ValuesAdd(te, n, ByStart, false);
      entries, ok := AddNode(entries, n, ByStart, false, te);
      te := Add(te, n, NodeKey(ByStart), false).0;
    }

    method CutAddress(n: TreeNode)
      requires Shape() && Simple(Values(ta)) && Ordered(Values(ta), ByStart) && n in Elems(ta)
      modifies `atree, `ta, Elems(ta)
      ensures Shape() && unchanged(records) && Elems(ta) == old(Elems(ta)) - {n}
      ensures Values(ta) == Delete(Values(old(ta)), n.data, ByStart).0
    {
      hide Rep, Elems, Ordered, Simple, Values, Delete;
      NodesAlive();
      SimpleNodes(ta);
      DeleteFinds(ta, n, ByStart);
      var found;
      atree, found := DeleteNode(atree, n, ByStart, ta);
      ta := Delete(ta, n, NodeKey(ByStart)).0;
    }

    method CutSize(n: TreeNode)
      requires Shape() && Simple(Values(ts)) && Ordered(Values(ts), BySize) && n in Elems(ts)
      modifies `stree, `ts, Elems(ts)
      ensures Shape() && unchanged(records) && Elems(ts) == old(Elems(ts)) - {n}
      ensures Values(ts) == Delete(Values(old(ts)), n.data, BySize).0
    {
      hide Rep, Elems, Ordered, Simple, Values, Delete;
      NodesAlive();
      SimpleNodes(ts);
      DeleteFinds(ts, n, BySize);
      var found;
      stree, found := DeleteNode(stree, n, BySize, ts);
      ts := Delete(ts, n, NodeKey(BySize)).0;
    }

    method CutEntry(n: TreeNode)
      requires Shape() && Simple(Values(te)) && Ordered(Values(te), ByStart) && n in Elems(te)
      modifies `entries, `te, Elems(te)
      ensures Shape() && unchanged(records) && Elems(te) == old(Elems(te)) - {n}
      ensures Values(te) == Delete(Values(old(te)), n.data, ByStart).0
    {
      hide Rep, Elems, Ordered, Simple, Values, Delete;
      NodesAlive();
      SimpleNodes(te);
      DeleteFinds(te, n, ByStart);
      var found;
      entries, found := DeleteNode(entries, n, ByStart, te);
      te := Delete(te, n, NodeKey(ByStart)).0;
    }

    // ---- Free records -----------------------------------------------------------------------

    /** A record none of whose nodes is in a tree. */
    ghost predicate Loose(r: FreeRecord)
      reads this, r
    {
      r.Whole() && r !in records && Apart(r.anode) && Apart(r.snode)
    }

    ghost method SetRecords(all: set<FreeRecord>)
      modifies `records
      ensures records == all && (old(Shape()) ==> Shape())
    {
      records := all;
    }

    method AddFree(r: FreeRecord) returns (ok: bool)
      requires Valid() && Loose(r)
      modifies this, Elems(ta), Elems(ts), r.anode, r.snode
      ensures Valid() && (Contents(), ok) == FreeAdd(old(Contents()), r.extent)
      ensures te == old(te) && entries == old(entries)
      ensures unchanged(old(records)) && unchanged(r)
      ensures ok ==> records == old(records) + {r}
      ensures ok ==> Elems(ta) == old(Elems(ta)) + {r.anode} && Elems(ts) == old(Elems(ts)) + {r.snode}
      ensures !ok ==> records == old(records) && ta == old(ta) && ts == old(ts)
    {
      hide Kept, Ordered, Simple, Rep, Values, Elems, Pairs, Shape, Add, FreeAdd, NodeKey;
      FreeAddKept(Contents(), r.extent);
      KeptSimple();
      PairsAdd(records, Elems(ta), Elems(ts), r);
      ghost var all := records + {r};
      ok := LinkAddress(r.anode);
      FreeAddIs(old(Contents()), r.extent, Values(ta), ok);
      if !ok {
        return;
      }
      SetRecords(all);
      LinkSize(r.snode);
    }

    method DeleteFree(r: FreeRecord)
      requires Valid() && r in records
      modifies this, Elems(ta), Elems(ts)
      ensures Valid() && Contents() == FreeDelete(old(Contents()), r.extent)
      ensures te == old(te) && entries == old(entries)
      ensures unchanged(old(records)) && records == old(records) - {r} && r.Whole()
      ensures Elems(ta) == old(Elems(ta)) - {r.anode} && Elems(ts) == old(Elems(ts)) - {r.snode}
    {
      hide Kept, Ordered, Simple, Rep, Values, Elems, Pairs, Shape, Delete;
      FreeDeleteKept(Contents(), r.extent);
      KeptParts(Contents());
      PairsRemove(records, Elems(ta), Elems(ts), r);
      ghost var rest := records - {r};
      CutAddress(r.anode);
      SetRecords(rest);
      CutSize(r.snode);
    }

    // ---- Entries ------------------------------------------------------------------------------

    method AddEntry(n: TreeNode) returns (ok: bool)
      requires Valid() && Apart(n)
      modifies this, Elems(te), n
      ensures Valid() && (Contents(), ok) == EntryAdd(old(Contents()), n.data)
      ensures ta == old(ta) && ts == old(ts) && records == old(records) && unchanged(records)
      ensures Elems(te) == old(Elems(te)) + if ok then {n} else {}
    {
      hide Kept, Ordered, Simple, Rep, Values, Elems, Pairs, Shape, Add;
      EntryAddKept(Contents(), n.data);
      KeptSimple();
      ok := LinkEntry(n);
    }

    method DeleteEntry(n: TreeNode)
      requires Valid() && n in Elems(te)
      modifies this, Elems(te)
      ensures Valid() && Contents() == EntryDelete(old(Contents()), n.data)
      ensures ta == old(ta) && ts == old(ts) && records == old(records) && unchanged(records)
      ensures Elems(te) == old(Elems(te)) - {n}
    {
      hide Ordered, Simple, Rep, Values, Elems, Pairs, Shape, Delete;
      EntryDeleteKept(Contents(), n.data);
      CutEntry(n);
    }

    /** A new record for the extent, put into both trees. */
    method AddExtent(f: Extent) returns (ok: bool, r: FreeRecord)
      requires Valid()
      modifies this, Elems(ta), Elems(ts)
      ensures Valid() && (Contents(), ok) == FreeAdd(old(Contents()), f)
      ensures te == old(te) && entries == old(entries) && unchanged(old(records))
      ensures fresh(r) && r.extent == f && r.Whole() && fresh(r.anode) && fresh(r.snode)
      ensures ok ==> records == old(records) + {r}
      ensures ok ==> Elems(ta) == old(Elems(ta)) + {r.anode} && Elems(ts) == old(Elems(ts)) + {r.snode}
      ensures !ok ==> records == old(records) && ta == old(ta) && ts == old(ts)
    {
      hide Kept, Rep, Values, Elems, Pairs, Shape, FreeAdd;
      NodesAlive();
      r := new FreeRecord(f);
      ok := AddFree(r);
    }

    // ---- Carving --------------------------------------------------------------------------------

    /** Undo: take the entry out and put the free record back. */
    method Restore(n: TreeNode, f: FreeRecord)
      requires Valid() && n in Elems(te) && Loose(f)
      modifies this, Elems(te), Elems(ta), Elems(ts), f.anode, f.snode
      ensures Valid() && Contents() == CarveFailed(old(Contents()), f.extent, n.data)
    {
      hide Kept, Rep, Values, Elems, Pairs, Shape, FreeAdd, EntryDelete;
      DeleteEntry(n);
      var _ := AddFree(f);
    }

    /** Put the entry in, and the free record out. */
    method OpenFor(f: FreeRecord, e: Extent) returns (ok: bool, n: TreeNode)
      requires Valid() && f in records
      modifies this, Elems(te), Elems(ta), Elems(ts)
      ensures Valid() && ok == EntryAdd(old(Contents()), e).1
      ensures !ok ==> Contents() == old(Contents())
      ensures ok ==> Contents() == FreeDelete(EntryAdd(old(Contents()), e).0, f.extent)
      ensures ok ==> n in Elems(te) && n.data == e && Loose(f) && f.anode in old(Elems(ta)) && f.snode in old(Elems(ts))
      ensures fresh(Elems(te) - old(Elems(te))) && Elems(ta) <= old(Elems(ta)) && Elems(ts) <= old(Elems(ts))
    {
      hide Kept, Rep, Values, Elems, FreeDelete;
      NodesAlive();
      PairsRemove(records, Elems(ta), Elems(ts), f);
      n := new TreeNode(e, null);
      ok := AddEntry(n);
      if ok {
        DeleteFree(f);
      }
    }

    /** After OpenFor, put back the one part of f that stays free, or undo. */
    method AddOnePart(f: FreeRecord, n: TreeNode, part: Extent) returns (ok: bool)
      requires Valid() && n in Elems(te) && Loose(f)
      modifies this, Elems(te), Elems(ta), Elems(ts), f.anode, f.snode
      ensures Valid() && ok == FreeAdd(old(Contents()), part).1
      ensures Contents() ==
        if ok then FreeAdd(old(Contents()), part).0 else CarveFailed(old(Contents()), f.extent, n.data)
    {
      hide Kept, Rep, Values, Elems, Pairs, Shape, FreeAdd, CarveFailed;
      var r;
      ok, r := AddExtent(part);
      if !ok {
        Restore(n, f);
      }
    }

    /** After OpenFor, put back the two parts of f around the entry, or undo. */
    method AddTwoParts(f: FreeRecord, n: TreeNode, low: Extent, high: Extent) returns (ok: bool)
      requires Valid() && n in Elems(te) && Loose(f)
      modifies this, Elems(te), Elems(ta), Elems(ts), f.anode, f.snode
      ensures Valid()
      ensures var b := old(Contents());
        var (b2, ok2) := FreeAdd(b, low);
        (Contents(), ok) ==
          if !ok2 then (CarveFailed(b, f.extent, n.data), false)
          else if FreeAdd(b2, high).1 then (FreeAdd(b2, high).0, true)
          else (CarveFailed(FreeDelete(b2, low), f.extent, n.data), false)
    {
      hide Kept, Rep, Values, Elems, Pairs, Shape, FreeAdd, FreeDelete, CarveFailed;
      var r, q;
      NodesAlive();
      ok, r := AddExtent(low);
      if ok {
        ok, q := AddExtent(high);
        if !ok {
          DeleteFree(r);
          Restore(n, f);
        }
      } else {
        Restore(n, f);
      }
    }

    /** Put an entry into the ledger in place of part of a free record. */
    method CarveEntry(f: FreeRecord, e: Extent) returns (ok: bool)
      requires Valid() && f in records
      modifies this, Elems(te), Elems(ta), Elems(ts)
      ensures Valid() && (Contents(), ok) == CarveWords(old(Contents()), f.extent, e)
    {
      hide Kept, Rep, Values, Elems, Pairs, Shape, FreeAdd, FreeDelete, EntryAdd, CarveFailed, Wrap;
      var g := f.extent;
      var n;
      ok, n := OpenFor(f, e);
      if !ok {
        return;
      }
      if g.start == e.start && g.size == e.size {
        // the whole record is used
      } else if g.start == e.start {
        ok := AddOnePart(f, n, Extent(Wrap(g.start + e.size), Wrap(g.size - e.size)));
      } else if Wrap(g.start + g.size) == Wrap(e.start + e.size) {
        ok := AddOnePart(f, n, Extent(g.start, Wrap(g.size - e.size)));
      } else {
        var middle := Wrap(e.start + e.size);
        var low, high := Extent(g.start, Wrap(middle - g.start)), Extent(middle, Wrap(g.start + g.size - middle));
        ok := AddTwoParts(f, n, low, high);
      }
    }

    // ---- Searches -------------------------------------------------------------------------------

    /** The record whose extent the directed search by address stops at. */
    method FindFree(cond: Extent -> int) returns (r: FreeRecord?)
      requires Valid()
      ensures Valid()
      ensures r == null <==> Search(Contents().atree, cond).None?
      ensures r != null ==> r in records && Search(Contents().atree, cond) == Some(r.extent)
    {
      hide Rep, Elems, Values, Kept, Search;
      NodesAlive();
      ValuesSearch(ta, cond);
      var n := SearchNode(atree, cond, ta);
      r := if n == null then null else n.owner;
    }

    method FindEntry(cond: Extent -> int) returns (n: TreeNode?)
      requires Valid()
      ensures Valid()
      ensures n == null <==> Search(Contents().entries, cond).None?
      ensures n != null ==> n in Elems(te) && Search(Contents().entries, cond) == Some(n.data)
    {
      hide Rep, Elems, Values, Kept, Search;
      NodesAlive();
      ValuesSearch(te, cond);
      n := SearchNode(entries, cond, te);
    }

    /** The size search: descend to a leaf and keep the last record that was large enough. */
    method FindFit(size: nat) returns (r: FreeRecord?)
      requires Valid()
      ensures Valid()
      ensures r == null <==> BestFit(Contents().stree, size, None).None?
      ensures r != null ==> r in records && BestFit(Contents().stree, size, None) == Some(r.extent)
    {
      var best: TreeNode? := null;
      var cur := stree;
      ghost var sub := ts;
      while cur != null
        invariant Rep(cur, sub) && Elems(sub) <= Elems(ts) && (best != null ==> best in Elems(ts))
        invariant BestFit(Values(ts), size, None)
          == BestFit(Values(sub), size, if best == null then None else Some(best.data))
        decreases sub
      {
        if size > cur.data.size {
          cur := cur.right;
          sub := sub.right;
        } else {
          best := cur;
          cur := cur.left;
          sub := sub.left;
        }
      }
      r := if best == null then null else best.owner;
    }

    // ---- Allocation and release -----------------------------------------------------------------

    /** Return an entry's place to the free trees, joined with one neighbour. */
    method FreeEntry(e: Extent)
      requires Valid()
      modifies this, Elems(ta), Elems(ts)
      ensures Valid() && Contents() == EntryFree(old(Contents()), e)
    {
      hide Kept, Rep, Values, Elems, Pairs, Shape, FreeAdd, FreeDelete;
      var f := FindFree(NeighbourWord(e));
      if f == null {
        var _, _ := AddExtent(e);
      } else {
        DeleteFree(f);
        var _, _ := AddExtent(Merge(f.extent, e));
      }
    }

    /** Release the entry that starts at the address, if there is one. */
    method ReleasePages(addr: nat)
      requires Valid()
      modifies this, Elems(te), Elems(ta), Elems(ts)
      ensures Valid() && Contents() == Release(old(Contents()), addr)
    {
      hide Kept, Rep, Values, Elems, Pairs, Shape, EntryFree, EntryDelete;
      var n := FindEntry(FitWord(addr));
      if n == null || n.data.start != addr {
        return;
      }
      DeleteEntry(n);
      FreeEntry(n.data);
    }
  }
}
