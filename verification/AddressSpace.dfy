/** The page table code as the kernel runs it, on table pages in memory that
    several address spaces share. */
module AddressSpace {
  import opened Basics
  import opened PageTableModel
  import PowersOfTwo

  class PhysicalMemory {
    var tables: Memory

    constructor (tables: Memory)
      ensures this.tables == tables
    {
      this.tables := tables;
    }
  }

  /** The index the code takes from an address for a level. */
  function AddressIndex(virtual: nat, level: nat): nat {
    if level == 4 then virtual / 0x80_0000_0000 % 512
    else if level == 3 then virtual / 0x4000_0000 % 512
    else if level == 2 then virtual / 0x20_0000 % 512
    else virtual / 0x1000 % 512
  }

  /** An address rounded down to the page or superpage that holds it. */
  function Align(addr: nat, superpage: bool): (r: nat)
    ensures r <= addr
  {
    if superpage then addr - addr % 0x20_0000 else addr - addr % 0x1000
  }

  /** Whole spans above an index do not show in it. */
  lemma HighPartDrops(c: nat, r: nat, d: nat)
    requires d > 0
    ensures (512 * c * d + r) / d % 512 == r / d % 512
  {
    var t, b := r / d, r % d;
    assert r == t * d + b;
    PowersOfTwo.Distribute(512 * c, t, d);
    Quotient(512 * c + t, d, b);
    assert 512 * c * d + r == (512 * c + t) * d + b;
  }

  lemma Quotient(a: nat, d: nat, b: nat)
    requires d > 0 && b < d
    ensures (a * d + b) / d == a
  {
    PowersOfTwo.ModOfSum(a, d, b);
  }

  /** The indices of an address are those of its page number. */
  lemma AddressIndices(virtual: nat)
    ensures forall level :: 1 <= level <= 4 ==> AddressIndex(virtual, level) == Index(Vpn(virtual), level)
  {
    var n := virtual / 4096;
    var q, r := n / PAGES, n % PAGES;
    assert n == q * PAGES + r;
    HighPartDrops(q, r, 134217728);
    HighPartDrops(q * 512, r, 262144);
    HighPartDrops(q * 262144, r, 512);
    HighPartDrops(q * 134217728, r, 1);
    assert virtual / 0x80_0000_0000 == n / 134217728;
    assert virtual / 0x4000_0000 == n / 262144;
    assert virtual / 0x20_0000 == n / 512;
  }

  lemma RoundedQuotient(a: nat, b: nat, m: nat, d: nat, e: nat)
    requires b < m && e < d
    ensures ((a * m + b) * d + e) / (d * m) == a
  {
    PowersOfTwo.Distribute(a * m, b, d);
    assert a * m * d == a * (d * m);
    PowersOfTwo.MulMonotone(b + 1, m, d);
    PowersOfTwo.Distribute(b, 1, d);
    PowersOfTwo.MulMonotone(0, b, d);
    Quotient(a, d * m, b * d + e);
  }

  lemma RoundedDown(x: nat, d: nat, m: nat)
    requires d > 0 && m > 0
    ensures x % d <= x && (x - x % d) / (d * m) == x / (d * m)
  {
    var q, e := x / d, x % d;
    var a, b := q / m, q % m;
    assert q == a * m + b;
    PowersOfTwo.FloorMultiple(x, d);
    assert x == q * d + e;
    RoundedQuotient(a, b, m, d, 0);
    RoundedQuotient(a, b, m, d, e);
  }

  /** Rounding down leaves the indices the walk uses alone. */
  lemma AlignedIndices(virtual: nat, superpage: bool)
    ensures forall level :: 2 <= level <= 4 ==>
        AddressIndex(Align(virtual, superpage), level) == Index(Vpn(virtual), level)
    ensures !superpage ==> AddressIndex(Align(virtual, superpage), 1) == Index(Vpn(virtual), 1)
  {
    AddressIndices(virtual);
    hide Index, Vpn;
    if superpage {
      RoundedDown(virtual, 0x20_0000, 1);
      RoundedDown(virtual, 0x20_0000, 512);
      RoundedDown(virtual, 0x20_0000, 262144);
    } else {
      RoundedDown(virtual, 0x1000, 1);
      RoundedDown(virtual, 0x1000, 512);
      RoundedDown(virtual, 0x1000, 262144);
      RoundedDown(virtual, 0x1000, 134217728);
    }
  }

  lemma AlignedFrame(physical: nat, superpage: bool)
    ensures var frame := physical / 4096;
      Align(physical, superpage) / 4096 == if superpage then frame - frame % 512 else frame
  {
    if superpage {
      var q := physical / 0x20_0000;
      assert physical - physical % 0x20_0000 == q * 0x20_0000;
      assert q * 0x20_0000 / 4096 == q * 512;
      assert physical / 4096 / 512 == q;
    }
  }

  class AddressSpace {
    const memory: PhysicalMemory
    var cr3: nat
    var free: seq<nat>

    function State(): Space
      reads this, memory
    {
      Space(memory.tables, cr3, free)
    }

    /** Clear the first page as root and push the others as spare pages. */
    constructor (memory: PhysicalMemory, base: nat, nr: nat)
      requires nr >= 1
      modifies memory
      ensures this.memory == memory
      ensures State() == Init(old(memory.tables), base, nr)
    {
      this.memory := memory;
      this.cr3 := base;
      this.free := [];
      new;
      memory.tables := Clear(memory.tables, base);
      var i := 1;
      while i < nr
        invariant 1 <= i <= nr && free == Pushed(base, i)
        invariant memory.tables == Clear(old(memory.tables), base) && cr3 == base
      {
        Push(base + i);
        i := i + 1;
      }
    }

    method Pop() returns (page: Option<nat>)
      modifies `free
      ensures old(free) == [] ==> page == None && free == []
      ensures old(free) != [] ==> page == Some(old(free)[0]) && free == old(free)[1..]
    {
      if free == [] {
        return None;
      }
      page := Some(free[0]);
      free := free[1..];
    }

    method Push(page: nat)
      modifies `free
      ensures free == [page] + old(free)
    {
      free := [page] + free;
    }

    /** The table below an entry, or a cleared spare page linked there. */
    method Next(table: nat, i: nat) returns (child: Option<nat>)
      modifies `free, memory
      ensures (State(), child) == Ensure(old(State()), table, i)
    {
      var e := Read(memory.tables, table, i);
      if e.present {
        return Some(e.frame);
      }
      child := Pop();
      if child.None? {
        return;
      }
      memory.tables := Clear(memory.tables, child.value);
      var link := e.(present := true, rw := true, us := true, frame := Or(e.frame, child.value));
      memory.tables := Write(memory.tables, table, i, link);
    }

    method MapAddress(virtual: nat, physical: nat, superpage: bool, attr: Attr) returns (ok: bool)
      modifies `free, memory
      ensures (State(), ok) == Map(old(State()), Vpn(virtual), physical / 4096, superpage, attr)
    {
      ghost var vpn := Vpn(virtual);
      AlignedIndices(virtual, superpage);
      AlignedFrame(physical, superpage);
      hide Vpn, Index, AddressIndex, Align;
      var v := Align(virtual, superpage);
      var p := Align(physical, superpage);

      var pdpt := Next(cr3, AddressIndex(v, 4));
      if pdpt.None? {
        return false;
      }
      ghost var s1 := State();
      var pd := Next(pdpt.value, AddressIndex(v, 3));
      if pd.None? {
        assert Descend(old(State()), old(cr3), 4, 2, vpn) == (State(), None);
        return false;
      }
      assert Descend(old(State()), old(cr3), 4, 2, vpn) == (State(), pd);
      var i := AddressIndex(v, 2);
      if superpage {
        var e := Read(memory.tables, pd.value, i);
        if e.present {
          return false;
        }
        memory.tables := Write(memory.tables, pd.value, i,
          e.(present := true, page := true, rw := attr.rw, us := attr.user, global := attr.global,
              frame := Or(e.frame, p / 4096)));
        return true;
      }
      ghost var s2 := State();
      var pt := Next(pd.value, i);
      DescendOne(old(State()), old(cr3), vpn, s2, pd.value);
      if pt.None? {
        return false;
      }
      i := AddressIndex(v, 1);
      var e := Read(memory.tables, pt.value, i);
      if e.present {
        return false;
      }
      memory.tables := Write(memory.tables, pt.value, i,
        e.(present := true, rw := attr.rw, us := attr.user, global := attr.global, frame := Or(e.frame, p / 4096)));
      return true;
    }

    method UnmapAddress(virtual: nat, superpage: bool) returns (ok: bool)
      modifies `free, memory
      ensures (State(), ok) == Unmap(old(State()), Vpn(virtual), superpage)
    {
      ghost var vpn := Vpn(virtual);
      AlignedIndices(virtual, superpage);
      hide Vpn, Index, AddressIndex, Align;
      var v := Align(virtual, superpage);
      var pdpt := Read(memory.tables, cr3, AddressIndex(v, 4));
      if !pdpt.present {
        return false;
      }
      var pd := Read(memory.tables, pdpt.frame, AddressIndex(v, 3));
      if !pd.present {
        return false;
      }
      assert Find(memory.tables, cr3, 4, 2, vpn) == Some(pd.frame);
      var i2 := AddressIndex(v, 2);
      var e := Read(memory.tables, pd.frame, i2);
      if !e.present {
        return false;
      }
      if superpage {
        if !e.page {
          return false;
        }
        memory.tables := Write(memory.tables, pd.frame, i2, ZERO);
        return true;
      }
      var i1 := AddressIndex(v, 1);
      if !Read(memory.tables, e.frame, i1).present {
        return false;
      }
      memory.tables := Write(memory.tables, e.frame, i1, ZERO);
      var i := 0;
      while i < 512
        invariant 0 <= i <= 512 && NoneBefore(memory.tables, e.frame, i)
      {
        if Read(memory.tables, e.frame, i).present {
          return true;
        }
        i := i + 1;
      }
      Push(e.frame);
      memory.tables := Write(memory.tables, pd.frame, i2, ZERO);
      return true;
    }

    method PrepareAddress(virtual: nat) returns (ok: bool)
      modifies `free, memory
      ensures (State(), ok) == Prepare(old(State()), Vpn(virtual))
    {
      ghost var vpn := Vpn(virtual);
      AddressIndices(virtual);
      hide Vpn, Index, AddressIndex;
      var pdpt := Next(cr3, AddressIndex(virtual, 4));
      if pdpt.None? {
        return false;
      }
      var pd := Next(pdpt.value, AddressIndex(virtual, 3));
      assert Descend(old(State()), old(cr3), 4, 2, vpn) == (State(), pd);
      return pd.Some?;
    }

    method ReferAddress(target: AddressSpace, virtual: nat) returns (ok: bool)
      requires target.memory == memory
      modifies `free, memory
      ensures (State(), ok) == Refer(old(State()), target.cr3, Vpn(virtual))
    {
      ghost var vpn := Vpn(virtual);
      AddressIndices(virtual);
      hide Vpn, Index, AddressIndex;
      var i4, i3 := AddressIndex(virtual, 4), AddressIndex(virtual, 3);
      var e := Read(memory.tables, target.cr3, i4);
      if !e.present {
        return false;
      }
      var sp := Read(memory.tables, e.frame, i3);
      if !sp.present {
        return false;
      }
      assert Find(memory.tables, target.cr3, 4, 2, vpn) == Some(sp.frame);
      var pdpt := Next(cr3, i4);
      assert Descend(old(State()), old(cr3), 4, 3, vpn) == (State(), pdpt);
      if pdpt.None? {
        return false;
      }
      var link := Read(memory.tables, pdpt.value, i3);
      if link.present {
        return false;
      }
      memory.tables := Write(memory.tables, pdpt.value, i3,
        link.(present := true, rw := true, us := true, frame := Or(link.frame, sp.frame)));
      return true;
    }
  }

  /** Going down to the page table is going down to the directory and one step more. */
  lemma DescendOne(s: Space, cr3: nat, vpn: nat, t: Space, pd: nat)
    requires Descend(s, cr3, 4, 2, vpn) == (t, Some(pd))
    ensures Descend(s, cr3, 4, 1, vpn) == Ensure(t, pd, Index(vpn, 2))
  {
    var (t4, c4) := Ensure(s, cr3, Index(vpn, 4));
    var (t3, c3) := Ensure(t4, c4.value, Index(vpn, 3));
    assert Descend(t4, c4.value, 3, 2, vpn) == (t, Some(pd));
    assert Descend(t3, c3.value, 2, 2, vpn) == (t, Some(pd));
    assert Descend(t3, c3.value, 2, 1, vpn) == Ensure(t, pd, Index(vpn, 2));
  }
}
