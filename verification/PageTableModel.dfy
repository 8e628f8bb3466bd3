/** The 4-level page table of one address space: table pages in physical
    memory, a root, and a private list of spare table pages.  Tables and page
    frames are named by physical frame number; the constant offset between a
    table's physical and linear address is not represented. */
module PageTableModel {
  import opened Basics

  /** A table entry: its flag bits and the address bits from bit 12 up. */
  datatype Entry = Entry(present: bool, rw: bool, us: bool, page: bool, global: bool, frame: nat)

  const ZERO: Entry := Entry(false, false, false, false, false, 0)

  const ENTRIES: nat := 512

  type Table = t: seq<Entry> | |t| == ENTRIES witness seq(ENTRIES, _ => ZERO)

  type Memory = map<nat, Table>

  datatype Space = Space(mem: Memory, cr3: nat, free: seq<nat>)

  /** Virtual page numbers: 48-bit addresses without their page offset. */
  const PAGES: nat := 0x10_0000_0000

  function Vpn(virtual: nat): (n: nat)
    ensures n < PAGES
  {
    virtual / 4096 % PAGES
  }

  /** How many pages one entry of a table at `level` spans. */
  function Span(level: nat): (n: nat)
    ensures n > 0
  {
    if level <= 1 then 1
    else if level == 2 then 512
    else if level == 3 then 262144
    else 134217728
  }

  function Index(vpn: nat, level: nat): (i: nat)
    ensures i < ENTRIES
  {
    if level <= 1 then vpn % 512
    else if level == 2 then vpn / 512 % 512
    else if level == 3 then vpn / 262144 % 512
    else vpn / 134217728 % 512
  }

  /** A read of a frame the model does not hold finds nothing present; the
      invariant shows that no such read happens. */
  function Read(mem: Memory, frame: nat, i: nat): Entry {
    if frame in mem && i < ENTRIES then mem[frame][i] else ZERO
  }

  function Write(mem: Memory, frame: nat, i: nat, e: Entry): (r: Memory)
    ensures r.Keys == mem.Keys
  {
    if frame in mem && i < ENTRIES then mem[frame := mem[frame][i := e]] else mem
  }

  function Clear(mem: Memory, frame: nat): Memory {
    mem[frame := seq(ENTRIES, _ => ZERO)]
  }

  /** Bitwise or: entries are filled in with `|=`, on top of what they hold. */
  function Or(a: nat, b: nat): nat
    decreases a
  {
    if a == 0 then b
    else 2 * Or(a / 2, b / 2) + (if a % 2 == 1 || b % 2 == 1 then 1 else 0)
  }

  // ---- The hardware's reading (section 4.5 of the Intel SDM, volume 3A) --------

  /** What a page translates to, with the level that ended the walk: 1 for a
      4 KiB page, 2 for a 2 MiB page, 3 for a 1 GiB page. */
  datatype Mapping = Mapping(frame: nat, rw: bool, us: bool, global: bool, level: nat)

  function Walk(mem: Memory, table: nat, level: nat, vpn: nat): Option<Mapping>
    requires 1 <= level <= 4
    decreases level
  {
    var e := Read(mem, table, Index(vpn, level));
    if !e.present then None
    else if level == 1 then Some(Mapping(e.frame, e.rw, e.us, e.global, 1))
    else if e.page then
      if level == 4 then None
      else Some(Mapping(e.frame - e.frame % Span(level) + vpn % Span(level), e.rw, e.us, e.global, level))
    else
      match Walk(mem, e.frame, level - 1, vpn)
      case None => None
      case Some(m) => Some(m.(rw := m.rw && e.rw, us := m.us && e.us))
  }

  function Translate(s: Space, vpn: nat): Option<Mapping> {
    Walk(s.mem, s.cr3, 4, vpn)
  }

  // ---- The kernel's operations ------------------------------------------------

  datatype Attr = Attr(global: bool, rw: bool, user: bool)

  /** The next table below entry `i`, linking a cleared spare page if there is none. */
  function Ensure(s: Space, table: nat, i: nat): (Space, Option<nat>) {
    var e := Read(s.mem, table, i);
    if e.present then (s, Some(e.frame))
    else if s.free == [] then (s, None)
    else
      var pg := s.free[0];
      var link := e.(present := true, rw := true, us := true, frame := Or(e.frame, pg));
      (s.(mem := Write(Clear(s.mem, pg), table, i, link), free := s.free[1..]), Some(pg))
  }

  /** Go down from `table` to the table at level `floor`, creating what is missing. */
  function Descend(s: Space, table: nat, level: nat, floor: nat, vpn: nat): (Space, Option<nat>)
    decreases level
  {
    if level <= floor then (s, Some(table))
    else
      var (t, child) := Ensure(s, table, Index(vpn, level));
      match child
      case None => (t, None)
      case Some(c) => Descend(t, c, level - 1, floor, vpn)
  }

  /** Go down through present entries only. */
  function Find(mem: Memory, table: nat, level: nat, floor: nat, vpn: nat): Option<nat>
    decreases level
  {
    if level <= floor then Some(table)
    else
      var e := Read(mem, table, Index(vpn, level));
      if e.present then Find(mem, e.frame, level - 1, floor, vpn) else None
  }

  function LeafLevel(superpage: bool): nat {
    if superpage then 2 else 1
  }

  function Map(s: Space, vpn: nat, frame: nat, superpage: bool, attr: Attr): (Space, bool) {
    var level := LeafLevel(superpage);
    var pfn := if superpage then frame - frame % 512 else frame;
    var (t, table) := Descend(s, s.cr3, 4, level, vpn);
    match table
    case None => (t, false)
    case Some(f) =>
      var i := Index(vpn, level);
      var e := Read(t.mem, f, i);
      if e.present then (t, false)
      else
        var leaf := e.(present := true, page := superpage || e.page, rw := attr.rw, us := attr.user,
                       global := attr.global, frame := Or(e.frame, pfn));
        (t.(mem := Write(t.mem, f, i, leaf)), true)
  }

  predicate NoneBefore(mem: Memory, table: nat, n: nat) {
    forall i :: 0 <= i < n ==> !Read(mem, table, i).present
  }

  function Unmap(s: Space, vpn: nat, superpage: bool): (Space, bool) {
    match Find(s.mem, s.cr3, 4, 2, vpn)
    case None => (s, false)
    case Some(pd) =>
      var e := Read(s.mem, pd, Index(vpn, 2));
      if !e.present then (s, false)
      else if superpage then
        if !e.page then (s, false) else (s.(mem := Write(s.mem, pd, Index(vpn, 2), ZERO)), true)
      else
        var pt := e.frame;
        if !Read(s.mem, pt, Index(vpn, 1)).present then (s, false)
        else
          var mem := Write(s.mem, pt, Index(vpn, 1), ZERO);
          if NoneBefore(mem, pt, ENTRIES) then
            (s.(mem := Write(mem, pd, Index(vpn, 2), ZERO), free := [pt] + s.free), true)
          else (s.(mem := mem), true)
  }

  function Prepare(s: Space, vpn: nat): (Space, bool) {
    var (t, pd) := Descend(s, s.cr3, 4, 2, vpn);
    (t, pd.Some?)
  }

  /** Point `s` at the page directory that the table rooted at `other` uses. */
  function Refer(s: Space, other: nat, vpn: nat): (Space, bool) {
    match Find(s.mem, other, 4, 2, vpn)
    case None => (s, false)
    case Some(pd) =>
      var (t, pdpt) := Descend(s, s.cr3, 4, 3, vpn);
      match pdpt
      case None => (t, false)
      case Some(f) =>
        var e := Read(t.mem, f, Index(vpn, 3));
        if e.present then (t, false)
        else
          var link := e.(present := true, rw := true, us := true, frame := Or(e.frame, pd));
          (t.(mem := Write(t.mem, f, Index(vpn, 3), link)), true)
  }

  /** A root page, cleared, and the pages after it pushed one by one. */
  function Pushed(base: nat, nr: nat): (free: seq<nat>)
    ensures |free| == if nr == 0 then 0 else nr - 1
    ensures forall i :: 0 <= i < |free| ==> free[i] == base + nr - 1 - i
  {
    if nr <= 1 then [] else [base + nr - 1] + Pushed(base, nr - 1)
  }

  function Init(mem: Memory, base: nat, nr: nat): Space
    requires nr >= 1
  {
    Space(Clear(mem, base), base, Pushed(base, nr))
  }
}
