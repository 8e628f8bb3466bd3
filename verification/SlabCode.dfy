/** The slab cache as an object whose headers and list heads are updated in place. */
module SlabCode {
  import opened SlabModel
  import opened SlabTheorems
  import opened SlabRelease
  import opened SlabRuns

  /** The whole walk comes down to one store, in the header before the unlinked one. */
  lemma {:induction false} UnlinkIsOneStore(slabs: Headers, head: Pointer, l: seq<nat>, k: nat, unseen: set<nat>)
    requires Links(slabs, head, l) && 0 < k < |l| && forall b :: b in l ==> b in unseen
    requires l[k - 1] in slabs && l[k] in slabs
    ensures Unlink(slabs, head, l[k], unseen) ==
      (head, slabs[l[k - 1] := slabs[l[k - 1]].(next := slabs[l[k]].next)])
    decreases l
  {
    HeadNotInTail(slabs, head, l);
    var first, rest := l[0], l[1..];
    LinksDistinct(slabs, head, l, 0, k);
    assert rest[k - 1] == l[k];
    if k > 1 {
      LinksDistinct(slabs, head, l, 0, k - 1);
      assert rest[k - 2] == l[k - 1];
      UnlinkIsOneStore(slabs, slabs[first].next, rest, k - 1, unseen - {first});
      var m := slabs[l[k - 1] := slabs[l[k - 1]].(next := slabs[l[k]].next)];
      assert m[first := slabs[first].(next := slabs[first].next)] == m;
    } else {
      assert Unlink(slabs, slabs[first].next, l[k], unseen - {first}) == (slabs[l[k]].next, slabs);
    }
  }

  class SlabCache {
    const size: nat
    var partial: Pointer
    var full: Pointer
    var empty: Pointer
    var slabs: Headers

    ghost function State(): Cache
      reads this
    {
      Cache(size, partial, full, empty, slabs)
    }

    /** Create the cache with one slab on its full list. */
    constructor (size: nat, a: nat)
      ensures State() == NewCache(size, a)
    {
      this.size := size;
      partial, full, empty := Null, At(a), Null;
      var h := FormatSlab(size);
      slabs := map[a := h];
    }

    /** Lay out a new slab: every object marked free. */
    static method FormatSlab(size: nat) returns (h: Header)
      ensures h == NewHeader(size)
    {
      var n := (SLAB_BYTES - HEADER - ALIGNMENT) / (size + 1);
      var marks: seq<bool> := [];
      while |marks| < n
        invariant |marks| <= n && forall j :: 0 <= j < |marks| ==> marks[j]
      {
        marks := marks + [true];
      }
      h := Header(Null, n, 0, marks);
    }

    /** Walk a list for the slab that holds an address. */
    method FindHolder(head: Pointer, address: nat, ghost l: seq<nat>) returns (s: Pointer)
      requires Links(slabs, head, l)
      ensures s == FindSlab(slabs, head, size, address, slabs.Keys)
    {
      s := head;
      ghost var rest, unseen := l, slabs.Keys;
      LinksMembers(slabs, head, l);
      while s.At?
        invariant Links(slabs, s, rest) && forall b :: b in rest ==> b in unseen
        invariant FindSlab(slabs, head, size, address, slabs.Keys) == FindSlab(slabs, s, size, address, unseen)
        decreases |rest|
      {
        var h := slabs[s.address];
        var start := ObjectBase(s.address, h.nobjs);
        if start <= address < start + size * h.nobjs {
          return;
        }
        HeadNotInTail(slabs, s, rest);
        unseen := unseen - {s.address};
        rest := rest[1..];
        s := h.next;
      }
    }

    /** Walk a list to slab a and unlink it; returns the new head of the list. */
    method UnlinkSlab(head: Pointer, a: nat, ghost l: seq<nat>, ghost k: nat) returns (h: Pointer)
      requires Links(slabs, head, l) && k < |l| && l[k] == a
      modifies `slabs
      ensures (h, slabs) == Unlink(old(slabs), head, a, old(slabs).Keys)
    {
      LinksMembers(slabs, head, l);
      if head.address == a {
        if k > 0 { LinksDistinct(slabs, head, l, 0, k); }
        return slabs[a].next;
      }
      h := head;
      var prev := head.address;
      ghost var i := 0;
      while slabs[prev].next != At(a)
        invariant i < k && prev == l[i] && prev in slabs
        invariant slabs == old(slabs)
        decreases k - i
      {
        NextOf(slabs, head, l, i);
        i := i + 1;
        prev := slabs[prev].next.address;
      }
      NextOf(slabs, head, l, i);
      if i + 1 < k { LinksDistinct(slabs, head, l, i + 1, k); }
      UnlinkIsOneStore(slabs, head, l, k, slabs.Keys);
      slabs := slabs[prev := slabs[prev].(next := slabs[a].next)];
    }

    /** With nothing to take from, put a new slab on the full list; then make the
        first full slab the partial list when there is no partial slab. */
    method Refill(spare: Pointer)
      requires full.At? ==> full.address in slabs
      modifies this
      ensures State() == Promote(AddSpare(old(State()), spare))
    {
      if partial.Null? && full.Null? {
        if spare.Null? {
          return;
        }
        var n := FormatSlab(size);
        slabs := slabs[spare.address := n];
        full := spare;
      }
      if partial.Null? {
        partial := full;
        full := slabs[full.address].next;
      }
    }

    /** Clear the first set mark of slab a. */
    method TakeObject(a: nat) returns (obj: Pointer)
      requires a in slabs && FirstFree(slabs[a].marks) < |slabs[a].marks|
      modifies `slabs
      ensures State() == TakeAt(old(State()), a)
      ensures obj == At(ObjectBase(a, old(slabs)[a].nobjs) + size * FirstFree(old(slabs)[a].marks))
    {
      hide InUse, Capacity;
      var h := slabs[a];
      var i := 0;
      while !h.marks[i]
        invariant 0 <= i <= FirstFree(h.marks)
        decreases |h.marks| - i
      {
        i := i + 1;
      }
      obj := At(ObjectBase(a, h.nobjs) + size * i);
      slabs := slabs[a := h.(marks := h.marks[i := false], nused := h.nused + 1)];
    }

    /** Allocate an object; spare is where the page allocator would place a new slab. */
    method AllocateObject(spare: Pointer) returns (obj: Pointer)
      requires Valid(State()) && Spare(State(), spare)
      modifies this
      ensures (State(), obj) == Allocate(old(State()), spare)
    {
      hide Rep, PagesApart, InUse, Capacity, AddSpare, Promote, Spare, Links;
      ghost var p, f, e :| Rep(State(), p, f, e);
      SourceReady(State(), spare, p, f, e);
      FullListed(State(), p, f, e);
      Refill(spare);
      if partial.Null? {
        return Null;
      }
      var a := partial.address;
      TakeOne(slabs[a], size);
      obj := TakeObject(a);
      if slabs[a].nused == slabs[a].nobjs {
        partial := slabs[a].next;
        slabs := slabs[a := slabs[a].(next := empty)];
        empty := At(a);
      }
    }

    static lemma FullListed(c: Cache, p: seq<nat>, f: seq<nat>, e: seq<nat>)
      requires Rep(c, p, f, e)
      ensures c.full.At? ==> c.full.address in c.slabs
    {
    }

    method MoveToPartial(a: nat, ghost e: seq<nat>, ghost k: nat)
      requires Links(slabs, empty, e) && k < |e| && e[k] == a && a in slabs
      modifies this
      ensures State() == EmptyToPartial(old(State()), a)
    {
      LinksMembers(slabs, empty, e);
      UnlinkOmits(slabs, empty, e, k, slabs.Keys);
      empty := UnlinkSlab(empty, a, e, k);
      slabs := slabs[a := slabs[a].(next := partial)];
      partial := At(a);
    }

    method MoveToFull(a: nat, ghost p: seq<nat>, ghost k: nat)
      requires Links(slabs, partial, p) && k < |p| && p[k] == a && a in slabs
      modifies this
      ensures State() == PartialToFull(old(State()), a)
    {
      LinksMembers(slabs, partial, p);
      UnlinkOmits(slabs, partial, p, k, slabs.Keys);
      partial := UnlinkSlab(partial, a, p, k);
      slabs := slabs[a := slabs[a].(next := full)];
      full := At(a);
    }

    /** Release the object at the address: 0, or -1 when no slab with objects in use holds it. */
    method ReleaseObject(address: nat) returns (r: int)
      requires Valid(State()) && Marked(slabs)
      modifies this
      ensures State() == Release(old(State()), address).0
      ensures r == if Release(old(State()), address).1 then 0 else -1
    {
      hide PagesApart, InUse, Capacity, Links, FindSlab, Holds, Unlink, IndexOf, Headed, Placed;
      ghost var p, f, e :| Rep(State(), p, f, e);
      var wasPartial := true;
      var s := FindHolder(partial, address, p);
      if s.Null? {
        wasPartial := false;
        s := FindHolder(empty, address, e);
        if s.Null? {
          return -1;
        }
      }
      var a := s.address;
      LinksMembers(slabs, partial, p);
      LinksMembers(slabs, empty, e);
      FindSlabComplete(slabs, partial, p, size, address, slabs.Keys);
      FindSlabComplete(slabs, empty, e, size, address, slabs.Keys);
      var i := IndexOf(a, slabs[a], size, address);
      MarkChains(State(), a, i, p, f, e);
      DisjointLists(State(), p, f, e);
      slabs := slabs[a := slabs[a].(marks := slabs[a].marks[i := true], nused := slabs[a].nused - 1)];
      ghost var q, k := p, 0;
      if !wasPartial {
        k :| 0 <= k < |e| && e[k] == a;
        EmptyToPartialChains(State(), p, f, e, k);
        MoveToPartial(a, e, k);
        q, k := [a] + p, 0;
      } else {
        k :| 0 <= k < |p| && p[k] == a;
      }
      if slabs[a].nused == 0 {
        MoveToFull(a, q, k);
      }
      r := 0;
    }

    static lemma NextOf(slabs: Headers, head: Pointer, l: seq<nat>, i: nat)
      requires Links(slabs, head, l) && i + 1 < |l|
      ensures l[i] in slabs && slabs[l[i]].next == At(l[i + 1])
    {
      LinksDrop(slabs, head, l, i);
      assert l[i..][1..] == l[i + 1..];
    }
  }
}
