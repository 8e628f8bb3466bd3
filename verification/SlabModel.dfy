/** One slab cache: slabs of eight pages, each headed by a link, a use count and
    one mark per object, on three linked lists by how much of the slab is in use. */
module SlabModel {

  const PAGE: nat := 4096
  const SLAB_BYTES: nat := 8 * PAGE
  const HEADER: nat := 32
  const ALIGNMENT: nat := 64

  // ---- Layout ---------------------------------------------------------------------------

  /** How many objects a slab holds: each takes its size and one mark byte. */
  function Capacity(size: nat): nat {
    (SLAB_BYTES - HEADER - ALIGNMENT) / (size + 1)
  }

  /** Where the objects start: past the marks, rounded up to a cache line. */
  function ObjectBase(pages: nat, nobjs: nat): nat {
    (pages + HEADER + nobjs + ALIGNMENT - 1) / ALIGNMENT * ALIGNMENT
  }

  function ObjectAddress(pages: nat, size: nat, i: nat): nat {
    ObjectBase(pages, Capacity(size)) + size * i
  }

  /** As many objects with their marks as fit, and not one more. */
  lemma CapacityFits(size: nat)
    ensures Capacity(size) * (size + 1) <= 8 * 4096 - 32 - 64 < (Capacity(size) + 1) * (size + 1)
  {
    var n, d := SLAB_BYTES - HEADER - ALIGNMENT, size + 1;
    assert n == n / d * d + n % d;
    assert (n / d + 1) * d == n / d * d + d;
  }

  /** For every object size: the objects start at the first cache line past the header and
      the marks, and each lies inside the eight pages, clear of every other of the slab. */
  lemma ObjectsFit(pages: nat, size: nat, i: nat)
    requires i < Capacity(size)
    ensures ObjectAddress(pages, size, 0) % 64 == 0
    ensures pages + 32 + Capacity(size) <= ObjectAddress(pages, size, 0) < pages + 32 + Capacity(size) + 64
    ensures ObjectAddress(pages, size, 0) <= ObjectAddress(pages, size, i)
    ensures ObjectAddress(pages, size, i) + size <= pages + SLAB_BYTES
    ensures forall j :: i < j < Capacity(size) ==> ObjectAddress(pages, size, i) + size <= ObjectAddress(pages, size, j)
  {
    var n := Capacity(size);
    CapacityFits(size);
    assert n * (size + 1) == n * size + n;
    Scaled(size, i + 1, n);
    assert size * (i + 1) == size * i + size;
    Scaled(size, 0, i);
    forall j | i < j < n
      ensures ObjectAddress(pages, size, i) + size <= ObjectAddress(pages, size, j)
    {
      Scaled(size, i + 1, j);
    }
  }

  lemma Scaled(size: nat, a: nat, b: nat)
    requires a <= b
    ensures size * a <= size * b
  {
  }

  /** The index the release code computes from an address is the object's. */
  lemma IndexOfObject(pages: nat, size: nat, i: nat)
    requires size > 0 && i < Capacity(size)
    ensures (ObjectAddress(pages, size, i) - ObjectBase(pages, Capacity(size))) / size == i
  {
    var x := size * i;
    assert x / size == i by {
      var q, r := x / size, x % size;
      assert x == q * size + r;
      if q < i { Scaled(size, q + 1, i); }
      if i < q { Scaled(size, i + 1, q); }
    }
  }

  // ---- Marks ----------------------------------------------------------------------------

  /** Cleared marks: objects in use. */
  function InUse(marks: seq<bool>): nat {
    if marks == [] then 0 else (if marks[0] then 0 else 1) + InUse(marks[1..])
  }

  lemma {:induction false} InUseUpdate(marks: seq<bool>, i: nat, free: bool)
    requires i < |marks| && marks[i] != free
    ensures InUse(marks[i := free]) == InUse(marks) + (if free then -1 else 1)
  {
    if i == 0 {
      assert marks[i := free][1..] == marks[1..];
    } else {
      assert marks[i := free][1..] == marks[1..][i - 1 := free];
      InUseUpdate(marks[1..], i - 1, free);
    }
  }

  lemma {:induction false} InUseBounds(marks: seq<bool>)
    ensures InUse(marks) <= |marks|
    ensures (forall i :: 0 <= i < |marks| ==> marks[i]) <==> InUse(marks) == 0
    ensures (forall i :: 0 <= i < |marks| ==> !marks[i]) <==> InUse(marks) == |marks|
  {
    if marks != [] {
      InUseBounds(marks[1..]);
      assert forall i :: 0 < i < |marks| ==> marks[i] == marks[1..][i - 1];
    }
  }

  // ---- Headers and lists ----------------------------------------------------------------

  datatype Pointer = Null | At(address: nat)

  /** The head of a slab; marks[i] is set while object i is free. */
  datatype Header = Header(next: Pointer, nobjs: nat, nused: int, marks: seq<bool>)

  /** The slab headers in memory, by the address of their pages. */
  type Headers = map<nat, Header>

  datatype Cache = Cache(size: nat, partial: Pointer, full: Pointer, empty: Pointer, slabs: Headers)

  function NewHeader(size: nat): Header {
    Header(Null, Capacity(size), 0, seq(Capacity(size), _ => true))
  }

  /** The list linked from head is l. */
  ghost predicate Links(slabs: Headers, head: Pointer, l: seq<nat>)
    decreases l
  {
    if l == [] then head.Null?
    else head == At(l[0]) && l[0] in slabs && Links(slabs, slabs[l[0]].next, l[1..])
  }

  // ---- Allocation -----------------------------------------------------------------------

  /** With neither a partial nor a full slab, a new slab becomes the full list. */
  function AddSpare(c: Cache, spare: Pointer): Cache {
    if c.partial.Null? && c.full.Null? && spare.At?
    then c.(full := spare, slabs := c.slabs[spare.address := NewHeader(c.size)])
    else c
  }

  /** With no partial slab, the first full slab becomes the partial list; its link is kept. */
  function Promote(c: Cache): Cache {
    if c.partial.Null? && c.full.At? && c.full.address in c.slabs
    then c.(partial := c.full, full := c.slabs[c.full.address].next)
    else c
  }

  /** The first set mark. */
  function FirstFree(marks: seq<bool>): (i: nat)
    ensures i <= |marks|
    ensures i < |marks| ==> marks[i]
    ensures forall j :: 0 <= j < i ==> !marks[j]
  {
    if marks == [] || marks[0] then 0 else 1 + FirstFree(marks[1..])
  }

  /** Take the first free object of the slab, if it has one. */
  function Take(h: Header): Header {
    var i := FirstFree(h.marks);
    if i < |h.marks| then h.(marks := h.marks[i := false], nused := h.nused + 1) else h
  }

  /** Move the first partial slab to the empty list once its objects are all used. */
  function Retire(c: Cache): Cache {
    if c.partial.At? && c.partial.address in c.slabs
       && c.slabs[c.partial.address].nused == c.slabs[c.partial.address].nobjs
    then
      var a := c.partial.address;
      c.(partial := c.slabs[a].next, empty := At(a), slabs := c.slabs[a := c.slabs[a].(next := c.empty)])
    else c
  }

  /** Allocate an object; spare is where the page allocator would place a new slab. */
  function Allocate(c: Cache, spare: Pointer): (Cache, Pointer) {
    var d := Promote(AddSpare(c, spare));
    if d.partial.Null? || d.partial.address !in d.slabs then (d, Null)
    else
      var a := d.partial.address;
      var h := d.slabs[a];
      var i := FirstFree(h.marks);
      (Retire(d.(slabs := d.slabs[a := Take(h)])),
       if i < |h.marks| then At(ObjectBase(a, h.nobjs) + d.size * i) else Null)
  }

  // ---- Release --------------------------------------------------------------------------

  /** The address lies in the object array of the slab. */
  predicate Holds(a: nat, h: Header, size: nat, address: nat) {
    ObjectBase(a, h.nobjs) <= address < ObjectBase(a, h.nobjs) + size * h.nobjs
  }

  /** The object an address inside the object array belongs to. */
  function IndexOf(a: nat, h: Header, size: nat, address: nat): (i: nat)
    requires Holds(a, h, size, address)
    ensures i < h.nobjs
  {
    var off := address - ObjectBase(a, h.nobjs);
    IndexBelow(off, size, h.nobjs);
    off / size
  }

  lemma IndexBelow(off: nat, size: nat, n: nat)
    requires off < size * n
    ensures size > 0 && off / size < n
  {
    assert size == 0 ==> size * n == 0;
    var q, r := off / size, off % size;
    assert off == q * size + r;
    if n <= q { Scaled(size, n, q); }
  }

  /** Walk the links from head for a slab that holds the address. */
  function FindSlab(slabs: Headers, head: Pointer, size: nat, address: nat, unseen: set<nat>): (p: Pointer)
    ensures p.At? ==> p.address in slabs && Holds(p.address, slabs[p.address], size, address)
    decreases unseen
  {
    if head.Null? || head.address !in unseen || head.address !in slabs then Null
    else if Holds(head.address, slabs[head.address], size, address) then head
    else FindSlab(slabs, slabs[head.address].next, size, address, unseen - {head.address})
  }

  /** Walk the links from head to the slab a, and set the link that leads to it to its successor. */
  function Unlink(slabs: Headers, head: Pointer, a: nat, unseen: set<nat>): (Pointer, Headers)
    decreases unseen
  {
    if head.Null? || head.address !in unseen || head.address !in slabs then (head, slabs)
    else if head.address == a then (slabs[a].next, slabs)
    else
      var (n, m) := Unlink(slabs, slabs[head.address].next, a, unseen - {head.address});
      (head, m[head.address := slabs[head.address].(next := n)])
  }

  function EmptyToPartial(c: Cache, a: nat): Cache
    requires a in c.slabs
  {
    var (e, m) := Unlink(c.slabs, c.empty, a, c.slabs.Keys);
    c.(empty := e, partial := At(a), slabs := m[a := c.slabs[a].(next := c.partial)])
  }

  function PartialToFull(c: Cache, a: nat): Cache
    requires a in c.slabs
  {
    var (p, m) := Unlink(c.slabs, c.partial, a, c.slabs.Keys);
    c.(partial := p, full := At(a), slabs := m[a := c.slabs[a].(next := c.full)])
  }

  /** One mark byte per object in every slab. */
  predicate Marked(slabs: Headers) {
    forall a :: a in slabs ==> |slabs[a].marks| == slabs[a].nobjs
  }

  /** The slab the release code picks for an address: from the partial list, else from the empty list. */
  function HolderOf(c: Cache, address: nat): (p: Pointer)
    ensures p.At? ==> p.address in c.slabs && Holds(p.address, c.slabs[p.address], c.size, address)
  {
    var p := FindSlab(c.slabs, c.partial, c.size, address, c.slabs.Keys);
    if p.At? then p else FindSlab(c.slabs, c.empty, c.size, address, c.slabs.Keys)
  }

  /** Give object i of slab a back. */
  function Mark(c: Cache, a: nat, i: nat): Cache
    requires a in c.slabs && i < |c.slabs[a].marks|
  {
    c.(slabs := c.slabs[a := c.slabs[a].(marks := c.slabs[a].marks[i := true], nused := c.slabs[a].nused - 1)])
  }

  /** Release the object at the address; false when no slab in use holds it. */
  function Release(c: Cache, address: nat): (Cache, bool)
    requires Marked(c.slabs)
  {
    var p := HolderOf(c, address);
    if p.Null? then (c, false)
    else
      var a := p.address;
      var c1 := Mark(c, a, IndexOf(a, c.slabs[a], c.size, address));
      var c2 := if FindSlab(c.slabs, c.partial, c.size, address, c.slabs.Keys).At? then c1 else EmptyToPartial(c1, a);
      (if c2.slabs[a].nused == 0 then PartialToFull(c2, a) else c2, true)
  }
}
