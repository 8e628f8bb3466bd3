/** The map and unmap loops over a run, with the rollback that makes a map all or nothing. */
module ArchMemoryCode {
  import opened PageTableModel
  import opened ArchMemory
  import A = AddressSpace
  import M = PageTableModulo

  /** The byte address of entry i of a run. */
  function EntryAddress(addr: nat, superpage: bool, i: nat): nat {
    addr + (if superpage then 0x20_0000 else 0x1000) * i
  }

  lemma EntryAddressIs(addr: nat, superpage: bool, i: nat)
    ensures EntryAddress(addr, superpage, i) / 4096 == addr / 4096 + Stride(superpage) * i
  {
    assert EntryAddress(addr, superpage, i) == addr + 4096 * (Stride(superpage) * i);
  }

  /** An operation on the entry's address is the operation on its page number. */
  lemma EntryPage(s: Space, virtual: nat, physical: nat, superpage: bool, attr: Attr, i: nat)
    ensures var v, d := EntryAddress(virtual, superpage, i), Stride(superpage) * i;
      && EntryAddress(physical, superpage, i) / 4096 == physical / 4096 + d
      && Map(s, Vpn(v), physical / 4096 + d, superpage, attr)
         == Map(s, virtual / 4096 + d, physical / 4096 + d, superpage, attr)
      && Unmap(s, Vpn(v), superpage) == Unmap(s, virtual / 4096 + d, superpage)
  {
    hide Vpn, Map, Unmap;
    EntryAddressIs(virtual, superpage, i);
    EntryAddressIs(physical, superpage, i);
    M.MapVpn(s, EntryAddress(virtual, superpage, i), physical / 4096 + Stride(superpage) * i, superpage, attr);
  }

  method MapPages(space: A.AddressSpace, virtual: nat, page: Page, flags: Flags) returns (ok: bool)
    modifies space, space.memory
    ensures (space.State(), ok) == ArchMap(old(space.State()), virtual / 4096, page, flags)
  {
    hide Vpn, Count, Map, Unmap, EntryAddress, Stride;
    ghost var s, vpn, frame := space.State(), virtual / 4096, page.physical / 4096;
    var superpage, n := IsSuperRun(page.order), Count(page.order);
    var attr := Attributes(page, flags);
    var i: nat := 0;
    ok := true;
    while i < n && ok
      invariant i <= n
      invariant ok ==>
        MapFrom(s, vpn, frame, superpage, attr, 0, n) == MapFrom(space.State(), vpn, frame, superpage, attr, i, n)
      invariant !ok ==> i < n && MapFrom(s, vpn, frame, superpage, attr, 0, n) == (space.State(), i)
      decreases n - i, ok
    {
      var v, p := EntryAddress(virtual, superpage, i), EntryAddress(page.physical, superpage, i);
      EntryPage(space.State(), virtual, page.physical, superpage, attr, i);
      ok := space.MapAddress(v, p, superpage, attr);
      if ok {
        i := i + 1;
      }
    }
    if !ok {
      ghost var t, k := space.State(), i;
      while i > 0
        invariant i <= k < n
        invariant UnmapDown(t, vpn, superpage, k) == UnmapDown(space.State(), vpn, superpage, i)
      {
        i := i - 1;
        EntryPage(space.State(), virtual, page.physical, superpage, attr, i);
        var _ := space.UnmapAddress(EntryAddress(virtual, superpage, i), superpage);
      }
    }
  }

  method UnmapPages(space: A.AddressSpace, virtual: nat, page: Page)
    modifies space, space.memory
    ensures space.State() == ArchUnmap(old(space.State()), virtual / 4096, page)
  {
    hide Vpn, Count, Map, Unmap, EntryAddress, Stride;
    ghost var s, vpn := space.State(), virtual / 4096;
    var superpage, n := IsSuperRun(page.order), Count(page.order);
    var i: nat := 0;
    while i < n
      invariant i <= n && UnmapUp(s, vpn, superpage, 0, n) == UnmapUp(space.State(), vpn, superpage, i, n)
    {
      EntryPage(space.State(), virtual, page.physical, superpage, Attr(false, false, false), i);
      var _ := space.UnmapAddress(EntryAddress(virtual, superpage, i), superpage);
      i := i + 1;
    }
  }
}
