/** Releasing an object: the walks over the lists, and what they keep. */
module SlabRelease {
  import opened SlabModel
  import opened SlabTheorems

  ghost function Omit(l: seq<nat>, k: nat): seq<nat>
    requires k < |l|
  {
    l[..k] + l[k + 1..]
  }

  lemma OmitMembers(slabs: Headers, head: Pointer, l: seq<nat>, k: nat)
    requires Links(slabs, head, l) && k < |l|
    ensures forall b :: b in Omit(l, k) <==> b in l && b != l[k]
  {
    forall j | 0 <= j < |l| && j != k ensures l[j] != l[k] && l[j] in Omit(l, k) {
      if j < k {
        LinksDistinct(slabs, head, l, j, k);
        assert Omit(l, k)[j] == l[j];
      } else {
        LinksDistinct(slabs, head, l, k, j);
        assert Omit(l, k)[j - 1] == l[j];
      }
    }
  }

  /** The walk finds a slab that holds the address whenever one is on the list. */
  lemma {:induction false} FindSlabComplete(slabs: Headers, head: Pointer, l: seq<nat>, size: nat, address: nat,
                                            unseen: set<nat>)
    requires Links(slabs, head, l) && forall b :: b in l ==> b in unseen
    ensures var p := FindSlab(slabs, head, size, address, unseen);
      && (p.At? ==> p.address in l)
      && (p.Null? ==> forall b :: b in l && b in slabs ==> !Holds(b, slabs[b], size, address))
    decreases l
  {
    if l != [] {
      HeadNotInTail(slabs, head, l);
      FindSlabComplete(slabs, slabs[l[0]].next, l[1..], size, address, unseen - {l[0]});
      assert l == [l[0]] + l[1..];
    }
  }

  /** Only links change, and the unlinked slab keeps its own. */
  ghost predicate OnlyLinks(slabs: Headers, after: Headers, l: seq<nat>, a: nat) {
    && after.Keys == slabs.Keys
    && (forall b :: b in slabs ==> after[b] == slabs[b].(next := after[b].next))
    && (forall b :: b in slabs && (b !in l || b == a) ==> after[b] == slabs[b])
  }

  /** Unlinking the k-th slab leaves the list without it. */
  lemma {:induction false} UnlinkOmits(slabs: Headers, head: Pointer, l: seq<nat>, k: nat, unseen: set<nat>)
    requires Links(slabs, head, l) && k < |l| && forall b :: b in l ==> b in unseen
    ensures var (h, m) := Unlink(slabs, head, l[k], unseen);
      Links(m, h, Omit(l, k)) && OnlyLinks(slabs, m, l, l[k])
    decreases l
  {
    if k == 0 {
      assert Omit(l, 0) == l[1..];
    } else {
      LinksDistinct(slabs, head, l, 0, k);
      HeadNotInTail(slabs, head, l);
      UnlinkOmits(slabs, slabs[l[0]].next, l[1..], k - 1, unseen - {l[0]});
      var (n, m) := Unlink(slabs, slabs[l[0]].next, l[k], unseen - {l[0]});
      var after := m[l[0] := slabs[l[0]].(next := n)];
      var rest := Omit(l[1..], k - 1);
      assert Omit(l, k)[1..] == rest && Omit(l, k)[0] == l[0];
      assert forall b :: b in rest ==> b in l[1..];
      LinksMembers(m, n, rest);
      LinksFrame(m, after, n, rest);
    }
  }

  // ---- Moving a slab between lists --------------------------------------------------------

  ghost predicate Disjoint(p: seq<nat>, f: seq<nat>, e: seq<nat>) {
    (forall b :: b in p ==> b !in f && b !in e) && (forall b :: b in f ==> b !in e)
  }

  lemma EmptyToPartialChains(c: Cache, p: seq<nat>, f: seq<nat>, e: seq<nat>, k: nat)
    requires Chained(c, p, f, e) && Disjoint(p, f, e) && k < |e| && e[k] in c.slabs
    ensures var d := EmptyToPartial(c, e[k]);
      Chained(d, [e[k]] + p, f, Omit(e, k)) && OnlyLinks(c.slabs, d.slabs[e[k] := c.slabs[e[k]]], e, e[k])
      && d.slabs[e[k]] == c.slabs[e[k]].(next := c.partial)
  {
    var a := e[k];
    LinksMembers(c.slabs, c.partial, p);
    LinksMembers(c.slabs, c.full, f);
    LinksMembers(c.slabs, c.empty, e);
    UnlinkOmits(c.slabs, c.empty, e, k, c.slabs.Keys);
    var (h, m) := Unlink(c.slabs, c.empty, a, c.slabs.Keys);
    var d := EmptyToPartial(c, a);
    OmitMembers(c.slabs, c.empty, e, k);
    LinksFrame(m, d.slabs, h, Omit(e, k));
    LinksFrame(c.slabs, d.slabs, c.partial, p);
    LinksFrame(c.slabs, d.slabs, c.full, f);
    assert ([a] + p)[1..] == p;
  }

  lemma PartialToFullChains(c: Cache, p: seq<nat>, f: seq<nat>, e: seq<nat>, k: nat)
    requires Chained(c, p, f, e) && Disjoint(p, f, e) && k < |p| && p[k] in c.slabs
    ensures var d := PartialToFull(c, p[k]);
      Chained(d, Omit(p, k), [p[k]] + f, e) && OnlyLinks(c.slabs, d.slabs[p[k] := c.slabs[p[k]]], p, p[k])
      && d.slabs[p[k]] == c.slabs[p[k]].(next := c.full)
  {
    var a := p[k];
    LinksMembers(c.slabs, c.partial, p);
    LinksMembers(c.slabs, c.full, f);
    LinksMembers(c.slabs, c.empty, e);
    UnlinkOmits(c.slabs, c.partial, p, k, c.slabs.Keys);
    var (h, m) := Unlink(c.slabs, c.partial, a, c.slabs.Keys);
    var d := PartialToFull(c, a);
    OmitMembers(c.slabs, c.partial, p, k);
    LinksFrame(m, d.slabs, h, Omit(p, k));
    LinksFrame(c.slabs, d.slabs, c.empty, e);
    LinksFrame(c.slabs, d.slabs, c.full, f);
    assert ([a] + f)[1..] == f;
  }

  // ---- The invariant across a release -----------------------------------------------------

  ghost predicate SameButLinks(slabs: Headers, after: Headers) {
    after.Keys == slabs.Keys && forall b :: b in slabs ==> after[b] == slabs[b].(next := after[b].next)
  }

  /** Everything but the links decides the rest of the invariant. */
  lemma RelinkKeeps(c: Cache, d: Cache, p: seq<nat>, f: seq<nat>, e: seq<nat>)
    requires Headed(c) && Placed(c.slabs, p, f, e) && Counted(c, p, 1, Capacity(c.size) - 1)
    requires d.size == c.size && SameButLinks(c.slabs, d.slabs) && Chained(d, p, f, e)
    ensures Rep(d, p, f, e)
  {
    hide Links;
    assert forall b :: b in d.slabs ==> Consistent(d.slabs[b], d.size) by {
      forall b | b in d.slabs ensures Consistent(d.slabs[b], d.size) { assert Consistent(c.slabs[b], c.size); }
    }
  }

  lemma DisjointLists(c: Cache, p: seq<nat>, f: seq<nat>, e: seq<nat>)
    requires Headed(c) && Placed(c.slabs, p, f, e)
    ensures Disjoint(p, f, e)
  {
    hide Capacity, InUse;
    forall b | b in f ensures b !in e { assert c.slabs[b].nobjs > 0; }
  }

  /** Giving back an object that is in use keeps its slab consistent. */
  lemma MarkKeeps(c: Cache, a: nat, i: nat, p: seq<nat>, f: seq<nat>, e: seq<nat>)
    requires Headed(c) && Listed(c, p, f, e) && Live(c, a, i)
    ensures Headed(Mark(c, a, i)) && Chained(Mark(c, a, i), p, f, e)
    ensures 0 <= Mark(c, a, i).slabs[a].nused == c.slabs[a].nused - 1 < c.slabs[a].nobjs
  {
    hide Links;
    var d := Mark(c, a, i);
    InUseUpdate(c.slabs[a].marks, i, true);
    InUseBounds(c.slabs[a].marks);
    HeadedUpdate(c, d, a);
    ChainedFrame(c, d, a, p, f, e);
  }

  /** The slab stays on the partial list while objects of it are in use. */
  lemma ReleaseStays(c: Cache, a: nat, i: nat, p: seq<nat>, f: seq<nat>, e: seq<nat>)
    requires Rep(c, p, f, e) && Live(c, a, i) && a in p && c.slabs[a].nused > 1
    ensures Rep(Mark(c, a, i), p, f, e)
  {
    hide Links, Capacity, PagesApart, InUse;
    MarkKeeps(c, a, i, p, f, e);
  }

  lemma ReleaseFills(c: Cache, k: nat, i: nat, p: seq<nat>, f: seq<nat>, e: seq<nat>)
    requires Rep(c, p, f, e) && k < |p| && Live(c, p[k], i) && c.slabs[p[k]].nused == 1
    ensures Rep(PartialToFull(Mark(c, p[k], i), p[k]), Omit(p, k), [p[k]] + f, e)
    ensures SameButLinks(Mark(c, p[k], i).slabs, PartialToFull(Mark(c, p[k], i), p[k]).slabs)
  {
    hide Links, Capacity, PagesApart, InUse, Unlink;
    var a := p[k];
    MarkKeeps(c, a, i, p, f, e);
    var d := Mark(c, a, i);
    DisjointLists(c, p, f, e);
    PartialToFullChains(d, p, f, e, k);
    OmitMembers(c.slabs, c.partial, p, k);
    assert Placed(d.slabs, Omit(p, k), [a] + f, e);
    RelinkKeeps(d, PartialToFull(d, a), Omit(p, k), [a] + f, e);
  }

  lemma ReleaseReopens(c: Cache, k: nat, i: nat, p: seq<nat>, f: seq<nat>, e: seq<nat>)
    requires Rep(c, p, f, e) && k < |e| && Live(c, e[k], i) && c.slabs[e[k]].nused > 1
    ensures Rep(EmptyToPartial(Mark(c, e[k], i), e[k]), [e[k]] + p, f, Omit(e, k))
    ensures SameButLinks(Mark(c, e[k], i).slabs, EmptyToPartial(Mark(c, e[k], i), e[k]).slabs)
  {
    hide Links, Capacity, PagesApart, InUse, Unlink;
    var a := e[k];
    MarkKeeps(c, a, i, p, f, e);
    var d := Mark(c, a, i);
    DisjointLists(c, p, f, e);
    EmptyToPartialChains(d, p, f, e, k);
    OmitMembers(c.slabs, c.empty, e, k);
    assert Placed(d.slabs, [a] + p, f, Omit(e, k));
    RelinkKeeps(d, EmptyToPartial(d, a), [a] + p, f, Omit(e, k));
  }

  /** A slab of a single object goes from the empty to the full list. */
  lemma ReleaseReopensAndFills(c: Cache, k: nat, i: nat, p: seq<nat>, f: seq<nat>, e: seq<nat>)
    requires Rep(c, p, f, e) && k < |e| && Live(c, e[k], i) && c.slabs[e[k]].nused == 1
    ensures var d := EmptyToPartial(Mark(c, e[k], i), e[k]);
      Rep(PartialToFull(d, e[k]), p, [e[k]] + f, Omit(e, k))
      && SameButLinks(Mark(c, e[k], i).slabs, PartialToFull(d, e[k]).slabs)
  {
    hide Links, Capacity, PagesApart, InUse, Unlink;
    var a := e[k];
    MarkKeeps(c, a, i, p, f, e);
    var d := Mark(c, a, i);
    DisjointLists(c, p, f, e);
    EmptyToPartialChains(d, p, f, e, k);
    OmitMembers(c.slabs, c.empty, e, k);
    var q := [a] + p;
    var d2 := EmptyToPartial(d, a);
    assert Disjoint(q, f, Omit(e, k));
    PartialToFullChains(d2, q, f, Omit(e, k), 0);
    assert Omit(q, 0) == p;
    assert Placed(d.slabs, p, [a] + f, Omit(e, k));
    assert SameButLinks(d.slabs, d2.slabs);
    assert SameButLinks(d2.slabs, PartialToFull(d2, a).slabs);
    RelinkKeeps(d, PartialToFull(d2, a), p, [a] + f, Omit(e, k));
  }

  // ---- Which slab a release picks ---------------------------------------------------------

  lemma HoldsWithinPages(a: nat, h: Header, size: nat, address: nat)
    requires h.nobjs == Capacity(size) && Holds(a, h, size, address)
    ensures a + HEADER <= address < a + SLAB_BYTES
  {
    CapacityFits(size);
    var n := Capacity(size);
    assert n * (size + 1) == size * n + n;
  }

  /** At most one slab holds an address. */
  lemma OneHolder(c: Cache, a: nat, b: nat, address: nat)
    requires Headed(c) && a in c.slabs && b in c.slabs
    requires Holds(a, c.slabs[a], c.size, address) && Holds(b, c.slabs[b], c.size, address)
    ensures a == b
  {
    hide Holds, Capacity, InUse;
    HoldsWithinPages(a, c.slabs[a], c.size, address);
    HoldsWithinPages(b, c.slabs[b], c.size, address);
  }

  /** The slab found is the one slab that holds the address and has objects in use. */
  lemma HolderFound(c: Cache, a: nat, address: nat, p: seq<nat>, f: seq<nat>, e: seq<nat>)
    requires Rep(c, p, f, e) && a in c.slabs && c.slabs[a].nused > 0 && Holds(a, c.slabs[a], c.size, address)
    ensures HolderOf(c, address) == At(a) && a !in f
    ensures FindSlab(c.slabs, c.partial, c.size, address, c.slabs.Keys) == if a in p then At(a) else Null
    ensures a in p || a in e
  {
    hide Holds, Capacity, InUse, PagesApart, Links, FindSlab;
    FindSlabComplete(c.slabs, c.partial, p, c.size, address, c.slabs.Keys);
    FindSlabComplete(c.slabs, c.empty, e, c.size, address, c.slabs.Keys);
    forall b | b in c.slabs && Holds(b, c.slabs[b], c.size, address) ensures b == a { OneHolder(c, a, b, address); }
  }

  /** A release is refused exactly when no slab with objects in use holds the address. */
  lemma ReleaseRefusal(c: Cache, address: nat)
    requires Valid(c) && Marked(c.slabs)
    ensures Release(c, address).1 <==>
      exists a :: a in c.slabs && c.slabs[a].nused > 0 && Holds(a, c.slabs[a], c.size, address)
    ensures !Release(c, address).1 ==> Release(c, address).0 == c
  {
    hide Holds, Capacity, InUse, PagesApart, Links, FindSlab, Unlink;
    var p, f, e :| Rep(c, p, f, e);
    FindSlabComplete(c.slabs, c.partial, p, c.size, address, c.slabs.Keys);
    FindSlabComplete(c.slabs, c.empty, e, c.size, address, c.slabs.Keys);
    if a :| a in c.slabs && c.slabs[a].nused > 0 && Holds(a, c.slabs[a], c.size, address) {
      HolderFound(c, a, address, p, f, e);
    }
    var h := HolderOf(c, address);
    if h.At? {
      assert h.address in p || h.address in e;
      assert c.slabs[h.address].nobjs > 0;
    }
  }

  // ---- Release --------------------------------------------------------------------------

  lemma MarkedWhenValid(c: Cache)
    requires Valid(c)
    ensures Marked(c.slabs)
  {
  }

  lemma ReleaseRep(c: Cache, a: nat, i: nat, address: nat, p: seq<nat>, f: seq<nat>, e: seq<nat>)
    requires Rep(c, p, f, e) && Marked(c.slabs) && Live(c, a, i) && Holds(a, c.slabs[a], c.size, address)
    requires IndexOf(a, c.slabs[a], c.size, address) == i
    ensures Release(c, address).1 && Valid(Release(c, address).0)
    ensures SameButLinks(Mark(c, a, i).slabs, Release(c, address).0.slabs)
    ensures Release(c, address).0.size == c.size
  {
    hide Holds, Capacity, InUse, PagesApart, Links, FindSlab, Unlink, HolderOf, IndexOf, Placed, Headed, Rep;
    LiveInUse(c, a, i, p, f, e);
    HolderFound(c, a, address, p, f, e);
    var d := Release(c, address).0;
    if a in p {
      var k :| 0 <= k < |p| && p[k] == a;
      if c.slabs[a].nused > 1 {
        ReleaseStays(c, a, i, p, f, e);
        assert Rep(d, p, f, e);
      } else {
        ReleaseFills(c, k, i, p, f, e);
        assert Rep(d, Omit(p, k), [a] + f, e);
      }
    } else {
      var k :| 0 <= k < |e| && e[k] == a;
      var r := EmptyToPartial(Mark(c, a, i), a);
      if c.slabs[a].nused > 1 {
        ReleaseReopens(c, k, i, p, f, e);
        assert Rep(d, [a] + p, f, Omit(e, k));
      } else {
        ReleaseReopensAndFills(c, k, i, p, f, e);
        assert Rep(d, p, [a] + f, Omit(e, k));
      }
    }
  }

  lemma LiveInUse(c: Cache, a: nat, i: nat, p: seq<nat>, f: seq<nat>, e: seq<nat>)
    requires Rep(c, p, f, e) && Live(c, a, i)
    ensures c.slabs[a].nused > 0
  {
    InUseBounds(c.slabs[a].marks);
  }

  /** Releasing an object in use keeps the rule and frees that object alone. */
  lemma ReleaseFreesOne(c: Cache, a: nat, i: nat, address: nat)
    requires Valid(c) && Marked(c.slabs) && Live(c, a, i) && Holds(a, c.slabs[a], c.size, address)
    requires IndexOf(a, c.slabs[a], c.size, address) == i
    ensures Release(c, address).1 && Valid(Release(c, address).0)
    ensures forall b, j :: Live(Release(c, address).0, b, j) <==> Live(c, b, j) && !(b == a && j == i)
  {
    hide Rep, Holds, IndexOf, Release;
    var p, f, e :| Rep(c, p, f, e);
    ReleaseRep(c, a, i, address, p, f, e);
  }

  // ---- An object released twice ---------------------------------------------------------------

  lemma MarkChains(c: Cache, a: nat, i: nat, p: seq<nat>, f: seq<nat>, e: seq<nat>)
    requires Listed(c, p, f, e) && a in c.slabs && i < |c.slabs[a].marks|
    ensures Chained(Mark(c, a, i), p, f, e)
  {
    hide Links;
    ChainedFrame(c, Mark(c, a, i), a, p, f, e);
  }

  /** Whatever the object was, a release gives back its mark and its count; the rest is links. */
  lemma ReleaseOnlyMarks(c: Cache, address: nat, p: seq<nat>, f: seq<nat>, e: seq<nat>)
    requires Rep(c, p, f, e) && Marked(c.slabs) && HolderOf(c, address).At?
    ensures var a := HolderOf(c, address).address;
      SameButLinks(Mark(c, a, IndexOf(a, c.slabs[a], c.size, address)).slabs, Release(c, address).0.slabs)
  {
    hide Holds, Capacity, InUse, PagesApart, Links, FindSlab, Unlink, IndexOf, Headed;
    var a := HolderOf(c, address).address;
    var i := IndexOf(a, c.slabs[a], c.size, address);
    var d := Mark(c, a, i);
    MarkChains(c, a, i, p, f, e);
    DisjointLists(c, p, f, e);
    FindSlabComplete(c.slabs, c.partial, p, c.size, address, c.slabs.Keys);
    FindSlabComplete(c.slabs, c.empty, e, c.size, address, c.slabs.Keys);
    if FindSlab(c.slabs, c.partial, c.size, address, c.slabs.Keys).At? {
      var k :| 0 <= k < |p| && p[k] == a;
      PartialToFullChains(d, p, f, e, k);
    } else {
      var k :| 0 <= k < |e| && e[k] == a;
      EmptyToPartialChains(d, p, f, e, k);
      var r := EmptyToPartial(d, a);
      OmitMembers(c.slabs, c.empty, e, k);
      assert Disjoint([a] + p, f, Omit(e, k));
      PartialToFullChains(r, [a] + p, f, Omit(e, k), 0);
    }
  }

  /** A release that is not refused keeps the rule exactly when the object was in use. */
  lemma ReleaseValidExactlyWhenLive(c: Cache, address: nat)
    requires Valid(c) && Marked(c.slabs) && HolderOf(c, address).At?
    ensures var a := HolderOf(c, address).address;
      Valid(Release(c, address).0) <==> Live(c, a, IndexOf(a, c.slabs[a], c.size, address))
  {
    hide Rep, Release, Holds, IndexOf, HolderOf;
    var p, f, e :| Rep(c, p, f, e);
    var a := HolderOf(c, address).address;
    var i := IndexOf(a, c.slabs[a], c.size, address);
    if Live(c, a, i) {
      ReleaseFreesOne(c, a, i, address);
    } else {
      ReleaseOnlyMarks(c, address, p, f, e);
      FreeAgain(c, Release(c, address).0, a, i, p, f, e);
    }
  }

  lemma FreeAgain(c: Cache, d: Cache, a: nat, i: nat, p: seq<nat>, f: seq<nat>, e: seq<nat>)
    requires Rep(c, p, f, e) && a in c.slabs && i < |c.slabs[a].marks| && !Live(c, a, i)
    requires SameButLinks(Mark(c, a, i).slabs, d.slabs)
    ensures !Valid(d)
  {
    hide Links, Capacity, InUse, PagesApart;
    assert c.slabs[a].marks[i := true] == c.slabs[a].marks;
    assert Consistent(c.slabs[a], c.size);
    assert d.slabs[a].marks == c.slabs[a].marks && d.slabs[a].nused == c.slabs[a].nused - 1;
    assert !Consistent(d.slabs[a], d.size);
  }
}
