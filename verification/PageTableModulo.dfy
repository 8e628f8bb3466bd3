/** Page numbers that agree in their low 36 bits name the same page: every operation
    takes the index bits only. */
module PageTableModulo {
  import opened Basics
  import opened PageTableModel
  import opened ArchMemory
  import A = AddressSpace

  /** The same page of the 48-bit address space. */
  predicate Same(x: nat, y: nat) {
    x % PAGES == y % PAGES
  }

  lemma SameIndices(x: nat, y: nat, level: nat)
    requires Same(x, y)
    ensures Index(x, level) == Index(y, level)
  {
    LowIndices(x, level);
    LowIndices(y, level);
  }

  lemma LowIndices(x: nat, level: nat)
    ensures Index(x, level) == Index(x % PAGES, level)
  {
    var q, r := x / PAGES, x % PAGES;
    assert x == q * PAGES + r;
    A.HighPartDrops(q, r, 134217728);
    A.HighPartDrops(q * 512, r, 262144);
    A.HighPartDrops(q * 262144, r, 512);
    A.HighPartDrops(q * 134217728, r, 1);
  }

  lemma SameSum(x: nat, y: nat, d: nat)
    requires Same(x, y)
    ensures Same(x + d, y + d)
  {
  }

  lemma {:induction false} DescendSame(s: Space, table: nat, level: nat, floor: nat, x: nat, y: nat)
    requires Same(x, y)
    ensures Descend(s, table, level, floor, x) == Descend(s, table, level, floor, y)
    decreases level
  {
    hide Same, Index, Ensure;
    if level > floor {
      SameIndices(x, y, level);
      var (t, child) := Ensure(s, table, Index(x, level));
      if child.Some? { DescendSame(t, child.value, level - 1, floor, x, y); }
    }
  }

  lemma {:induction false} FindSame(mem: Memory, table: nat, level: nat, floor: nat, x: nat, y: nat)
    requires Same(x, y)
    ensures Find(mem, table, level, floor, x) == Find(mem, table, level, floor, y)
    decreases level
  {
    hide Same, Index;
    if level > floor {
      SameIndices(x, y, level);
      FindSame(mem, Read(mem, table, Index(x, level)).frame, level - 1, floor, x, y);
    }
  }

  lemma MapSame(s: Space, x: nat, y: nat, frame: nat, superpage: bool, attr: Attr)
    requires Same(x, y)
    ensures Map(s, x, frame, superpage, attr) == Map(s, y, frame, superpage, attr)
  {
    hide Same, Index, Descend;
    DescendSame(s, s.cr3, 4, LeafLevel(superpage), x, y);
    SameIndices(x, y, LeafLevel(superpage));
  }

  lemma UnmapSame(s: Space, x: nat, y: nat, superpage: bool)
    requires Same(x, y)
    ensures Unmap(s, x, superpage) == Unmap(s, y, superpage)
  {
    hide Same, Index, Find;
    FindSame(s.mem, s.cr3, 4, 2, x, y);
    SameIndices(x, y, 1);
    SameIndices(x, y, 2);
  }

  /** The page of an address, taken from the whole address or from its low 48 bits. */
  lemma MapVpn(s: Space, virtual: nat, frame: nat, superpage: bool, attr: Attr)
    ensures Map(s, Vpn(virtual), frame, superpage, attr) == Map(s, virtual / 4096, frame, superpage, attr)
    ensures Unmap(s, Vpn(virtual), superpage) == Unmap(s, virtual / 4096, superpage)
  {
    var x := virtual / 4096;
    assert Same(Vpn(virtual), x);
    MapSame(s, Vpn(virtual), x, frame, superpage, attr);
    UnmapSame(s, Vpn(virtual), x, superpage);
  }

  lemma {:induction false} MapFromSame(s: Space, x: nat, y: nat, frame: nat, superpage: bool, attr: Attr, i: nat,
                                       n: nat)
    requires Same(x, y)
    ensures MapFrom(s, x, frame, superpage, attr, i, n) == MapFrom(s, y, frame, superpage, attr, i, n)
    decreases n - i
  {
    hide Same, Map;
    if i < n {
      SameSum(x, y, Stride(superpage) * i);
      MapSame(s, x + Stride(superpage) * i, y + Stride(superpage) * i, frame + Stride(superpage) * i, superpage, attr);
      var t := Map(s, x + Stride(superpage) * i, frame + Stride(superpage) * i, superpage, attr).0;
      MapFromSame(t, x, y, frame, superpage, attr, i + 1, n);
    }
  }

  lemma {:induction false} UnmapDownSame(s: Space, x: nat, y: nat, superpage: bool, i: nat)
    requires Same(x, y)
    ensures UnmapDown(s, x, superpage, i) == UnmapDown(s, y, superpage, i)
    decreases i
  {
    hide Same, Unmap;
    if i > 0 {
      SameSum(x, y, Stride(superpage) * (i - 1));
      UnmapSame(s, x + Stride(superpage) * (i - 1), y + Stride(superpage) * (i - 1), superpage);
      UnmapDownSame(Unmap(s, x + Stride(superpage) * (i - 1), superpage).0, x, y, superpage, i - 1);
    }
  }

  lemma {:induction false} UnmapUpSame(s: Space, x: nat, y: nat, superpage: bool, i: nat, n: nat)
    requires Same(x, y)
    ensures UnmapUp(s, x, superpage, i, n) == UnmapUp(s, y, superpage, i, n)
    decreases n - i
  {
    hide Same, Unmap;
    if i < n {
      SameSum(x, y, Stride(superpage) * i);
      UnmapSame(s, x + Stride(superpage) * i, y + Stride(superpage) * i, superpage);
      UnmapUpSame(Unmap(s, x + Stride(superpage) * i, superpage).0, x, y, superpage, i + 1, n);
    }
  }

  lemma ArchSame(s: Space, x: nat, y: nat, page: Page, flags: Flags)
    requires Same(x, y)
    ensures ArchMap(s, x, page, flags) == ArchMap(s, y, page, flags)
    ensures ArchUnmap(s, x, page) == ArchUnmap(s, y, page)
  {
    hide Same, MapFrom, UnmapDown, UnmapUp;
    var superpage, n := IsSuperRun(page.order), Count(page.order);
    var frame, attr := page.physical / 4096, Attributes(page, flags);
    MapFromSame(s, x, y, frame, superpage, attr, 0, n);
    var (t, k) := MapFrom(s, x, frame, superpage, attr, 0, n);
    UnmapDownSame(t, x, y, superpage, k);
    UnmapUpSame(s, x, y, superpage, 0, n);
  }
}
