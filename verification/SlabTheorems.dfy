/** What every allocation and release keeps of a slab cache, and when. */
module SlabTheorems {
  import opened SlabModel

  // ---- Linked lists ---------------------------------------------------------------------

  lemma {:induction false} LinksMembers(slabs: Headers, head: Pointer, l: seq<nat>)
    requires Links(slabs, head, l)
    ensures forall a :: a in l ==> a in slabs
    decreases l
  {
    if l != [] { LinksMembers(slabs, slabs[l[0]].next, l[1..]); }
  }

  lemma {:induction false} LinksFrame(slabs: Headers, after: Headers, head: Pointer, l: seq<nat>)
    requires Links(slabs, head, l)
    requires forall a :: a in l ==> a in after && (a in slabs ==> after[a].next == slabs[a].next)
    ensures Links(after, head, l)
    decreases l
  {
    if l != [] { LinksFrame(slabs, after, slabs[l[0]].next, l[1..]); }
  }

  lemma {:induction false} LinksUnique(slabs: Headers, head: Pointer, l: seq<nat>, m: seq<nat>)
    requires Links(slabs, head, l) && Links(slabs, head, m)
    ensures l == m
    decreases l
  {
    if l != [] {
      LinksUnique(slabs, slabs[l[0]].next, l[1..], m[1..]);
      assert l == [l[0]] + l[1..] && m == [m[0]] + m[1..];
    }
  }

  lemma {:induction false} LinksDrop(slabs: Headers, head: Pointer, l: seq<nat>, k: nat)
    requires Links(slabs, head, l) && k < |l|
    ensures Links(slabs, At(l[k]), l[k..])
    decreases l
  {
    if k > 0 {
      LinksDrop(slabs, slabs[l[0]].next, l[1..], k - 1);
      assert l[1..][k - 1..] == l[k..];
    }
  }

  /** A list that ends does not meet itself. */
  lemma LinksDistinct(slabs: Headers, head: Pointer, l: seq<nat>, i: nat, j: nat)
    requires Links(slabs, head, l) && i < j < |l|
    ensures l[i] != l[j]
  {
    LinksDrop(slabs, head, l, i);
    LinksDrop(slabs, head, l, j);
    if l[i] == l[j] {
      LinksUnique(slabs, At(l[i]), l[i..], l[j..]);
      assert false;
    }
  }

  lemma HeadNotInTail(slabs: Headers, head: Pointer, l: seq<nat>)
    requires Links(slabs, head, l) && l != []
    ensures l[0] !in l[1..]
  {
    forall j | 0 < j < |l| ensures l[j] != l[0] { LinksDistinct(slabs, head, l, 0, j); }
  }

  // ---- The invariant --------------------------------------------------------------------

  /** The use count is the number of cleared marks. */
  ghost predicate Consistent(h: Header, size: nat) {
    h.nobjs == Capacity(size) == |h.marks| && h.nused == InUse(h.marks)
  }

  /** The pages of different slabs do not overlap. */
  ghost predicate PagesApart(slabs: Headers) {
    forall a, b :: a in slabs && b in slabs && a < b ==> a + SLAB_BYTES <= b
  }

  ghost predicate Headed(c: Cache) {
    Capacity(c.size) > 0 && PagesApart(c.slabs) && forall a :: a in c.slabs ==> Consistent(c.slabs[a], c.size)
  }

  ghost predicate Chained(c: Cache, p: seq<nat>, f: seq<nat>, e: seq<nat>) {
    Links(c.slabs, c.partial, p) && Links(c.slabs, c.full, f) && Links(c.slabs, c.empty, e)
  }

  ghost predicate Placed(slabs: Headers, p: seq<nat>, f: seq<nat>, e: seq<nat>) {
    && (forall a :: a in p ==> a in slabs && a !in f && a !in e)
    && (forall a :: a in f ==> a in slabs && slabs[a].nused == 0)
    && (forall a :: a in e ==> a in slabs && slabs[a].nused == slabs[a].nobjs)
    && (forall a :: a in slabs ==> a in p || a in f || a in e)
  }

  /** The three lists are p, f and e, and every slab is on one of them. */
  ghost predicate Listed(c: Cache, p: seq<nat>, f: seq<nat>, e: seq<nat>) {
    Chained(c, p, f, e) && Placed(c.slabs, p, f, e)
  }

  ghost predicate Counted(c: Cache, p: seq<nat>, low: nat, high: nat) {
    forall a :: a in p && a in c.slabs ==> low <= c.slabs[a].nused <= high
  }

  /** Each slab is on exactly the list its use count dictates. */
  ghost predicate Rep(c: Cache, p: seq<nat>, f: seq<nat>, e: seq<nat>) {
    Headed(c) && Listed(c, p, f, e) && Counted(c, p, 1, Capacity(c.size) - 1)
  }

  ghost predicate Valid(c: Cache) {
    exists p, f, e :: Rep(c, p, f, e)
  }

  /** Object i of slab a is in use. */
  ghost predicate Live(c: Cache, a: nat, i: nat) {
    a in c.slabs && i < |c.slabs[a].marks| && !c.slabs[a].marks[i]
  }

  /** A place for a new slab, clear of the others. */
  ghost predicate Spare(c: Cache, spare: Pointer) {
    spare.At? ==> spare.address !in c.slabs && PagesApart(c.slabs[spare.address := NewHeader(c.size)])
  }

  /** There is a partial slab, or no second full slab: what the code would have to test. */
  predicate Clean(c: Cache) {
    c.partial.At? || c.full.Null? || (c.full.address in c.slabs ==> c.slabs[c.full.address].next.Null?)
  }

  /** Replacing one header by a consistent one keeps the headers in order. */
  lemma HeadedUpdate(c: Cache, d: Cache, a: nat)
    requires Headed(c) && a in c.slabs && a in d.slabs
    requires d.size == c.size && d.slabs == c.slabs[a := d.slabs[a]] && Consistent(d.slabs[a], c.size)
    ensures Headed(d)
  {
  }

  // ---- Allocation -----------------------------------------------------------------------

  lemma AddSpareKeeps(c: Cache, p: seq<nat>, f: seq<nat>, e: seq<nat>, spare: Pointer) returns (g: seq<nat>)
    requires Rep(c, p, f, e) && Spare(c, spare)
    ensures Rep(AddSpare(c, spare), p, g, e)
    ensures g == if p == [] && f == [] && spare.At? then [spare.address] else f
  {
    g := f;
    if p == [] && f == [] && spare.At? {
      g := [spare.address];
      var d := AddSpare(c, spare);
      InUseBounds(NewHeader(c.size).marks);
      assert g[1..] == [];
      LinksFrame(c.slabs, d.slabs, c.empty, e);
    }
  }

  lemma PromoteReady(c: Cache, p: seq<nat>, f: seq<nat>, e: seq<nat>)
    requires Rep(c, p, f, e) && p == [] && |f| == 1
    ensures Headed(Promote(c)) && Listed(Promote(c), f, [], e) && Counted(Promote(c), f, 0, 0)
  {
    assert f == [f[0]];
    assert c.slabs[f[0]].nused == 0;
  }

  /** The first partial slab has a free object; it alone may be untouched. */
  ghost predicate Ready(c: Cache, p: seq<nat>, f: seq<nat>, e: seq<nat>) {
    && Headed(c) && Listed(c, p, f, e)
    && p != [] && c.slabs[p[0]].nused < c.slabs[p[0]].nobjs
    && Counted(c, p[1..], 1, Capacity(c.size) - 1)
  }

  /** Taking an object clears exactly one set mark. */
  lemma TakeOne(h: Header, size: nat)
    requires Consistent(h, size) && h.nused < h.nobjs
    ensures FirstFree(h.marks) < |h.marks|
    ensures Consistent(Take(h), size) && Take(h).nused == h.nused + 1 && Take(h).next == h.next
  {
    InUseBounds(h.marks);
    var i := FirstFree(h.marks);
    InUseUpdate(h.marks, i, false);
  }

  function TakeAt(c: Cache, a: nat): Cache
    requires a in c.slabs
  {
    c.(slabs := c.slabs[a := Take(c.slabs[a])])
  }

  /** Links stay put where only the header of a changes, and not its link. */
  lemma ChainedFrame(c: Cache, d: Cache, a: nat, p: seq<nat>, f: seq<nat>, e: seq<nat>)
    requires Chained(c, p, f, e) && Placed(c.slabs, p, f, e) && a in c.slabs && a in d.slabs
    requires d == c.(slabs := c.slabs[a := d.slabs[a]]) && d.slabs[a].next == c.slabs[a].next
    ensures Chained(d, p, f, e)
  {
    LinksFrame(c.slabs, d.slabs, c.partial, p);
    LinksFrame(c.slabs, d.slabs, c.full, f);
    LinksFrame(c.slabs, d.slabs, c.empty, e);
  }

  lemma TakeKeepsListed(c: Cache, p: seq<nat>, f: seq<nat>, e: seq<nat>)
    requires Ready(c, p, f, e)
    ensures Headed(TakeAt(c, p[0])) && Listed(TakeAt(c, p[0]), p, f, e)
    ensures TakeAt(c, p[0]).slabs[p[0]].nused == c.slabs[p[0]].nused + 1 >= 1
    ensures Counted(TakeAt(c, p[0]), p[1..], 1, Capacity(c.size) - 1)
  {
    hide PagesApart, Capacity, Links, Take;
    var a := p[0];
    TakeOne(c.slabs[a], c.size);
    var d := TakeAt(c, a);
    HeadedUpdate(c, d, a);
    HeadNotInTail(c.slabs, c.partial, p);
    ChainedFrame(c, d, a, p, f, e);
  }

  /** A slab with objects left stays where it is. */
  lemma RetireStays(c: Cache, p: seq<nat>, f: seq<nat>, e: seq<nat>)
    requires Headed(c) && Listed(c, p, f, e) && p != [] && 1 <= c.slabs[p[0]].nused < c.slabs[p[0]].nobjs
    requires Counted(c, p[1..], 1, Capacity(c.size) - 1)
    ensures Rep(Retire(c), p, f, e)
  {
    hide PagesApart;
    assert p == [p[0]] + p[1..];
  }

  lemma RetireChains(c: Cache, d: Cache, a: nat, p: seq<nat>, f: seq<nat>, e: seq<nat>)
    requires Chained(c, [a] + p, f, e) && Placed(c.slabs, [a] + p, f, e)
    requires d == c.(partial := c.slabs[a].next, empty := At(a), slabs := c.slabs[a := c.slabs[a].(next := c.empty)])
    ensures a !in p && Chained(d, p, f, [a] + e)
  {
    var q := [a] + p;
    assert q[1..] == p && a in q;
    HeadNotInTail(c.slabs, c.partial, q);
    LinksMembers(c.slabs, c.partial, q);
    LinksFrame(c.slabs, d.slabs, c.slabs[a].next, p);
    LinksFrame(c.slabs, d.slabs, c.full, f);
    LinksFrame(c.slabs, d.slabs, c.empty, e);
    assert ([a] + e)[1..] == e;
  }

  /** A slab without objects left becomes the first of the empty list. */
  lemma RetireMoves(c: Cache, a: nat, p: seq<nat>, f: seq<nat>, e: seq<nat>)
    requires Headed(c) && Listed(c, [a] + p, f, e) && a in c.slabs && c.slabs[a].nused == c.slabs[a].nobjs
    requires Counted(c, p, 1, Capacity(c.size) - 1)
    ensures Rep(Retire(c), p, f, [a] + e)
  {
    hide PagesApart, InUse, Capacity, Links;
    HeadOf(c.slabs, c.partial, a, p);
    var d := Retire(c);
    HeadedUpdate(c, d, a);
    RetireChains(c, d, a, p, f, e);
    assert c.slabs[a].nobjs > 0;
    assert Placed(d.slabs, p, f, [a] + e);
  }

  lemma HeadOf(slabs: Headers, head: Pointer, a: nat, l: seq<nat>)
    requires Links(slabs, head, [a] + l)
    ensures head == At(a) && a in slabs && Links(slabs, slabs[a].next, l)
  {
    assert ([a] + l)[1..] == l;
  }

  /** From a slab with a free object at the head of the partial list, the rest of the call restores the rule. */
  lemma TakeAndRetire(c: Cache, p: seq<nat>, f: seq<nat>, e: seq<nat>)
    requires Ready(c, p, f, e)
    ensures Valid(Retire(TakeAt(c, p[0])))
  {
    hide Headed, Links, Take, Retire;
    TakeKeepsListed(c, p, f, e);
    var d := TakeAt(c, p[0]);
    assert p == [p[0]] + p[1..];
    assert d.slabs[p[0]].nused <= d.slabs[p[0]].nobjs by { UseBounds(d, p[0]); }
    if d.slabs[p[0]].nused < d.slabs[p[0]].nobjs {
      RetireStays(d, p, f, e);
      assert Rep(Retire(d), p, f, e);
    } else {
      RetireMoves(d, p[0], p[1..], f, e);
      assert Rep(Retire(d), p[1..], f, [p[0]] + e);
    }
  }

  lemma UseBounds(c: Cache, a: nat)
    requires Headed(c) && a in c.slabs
    ensures 0 <= c.slabs[a].nused <= c.slabs[a].nobjs
  {
    InUseBounds(c.slabs[a].marks);
  }

  /** Clean, in terms of the lists. */
  lemma CleanMeans(c: Cache, p: seq<nat>, f: seq<nat>, e: seq<nat>)
    requires Rep(c, p, f, e)
    ensures Clean(c) <==> p != [] || |f| <= 1
    ensures c.partial.Null? <==> p == []
    ensures c.full.Null? <==> f == []
  {
    if f != [] {
      assert Links(c.slabs, c.slabs[f[0]].next, f[1..]);
    }
  }

  lemma AllocateKeeps(c: Cache, spare: Pointer, p: seq<nat>, f: seq<nat>, e: seq<nat>)
    requires Rep(c, p, f, e) && Spare(c, spare) && Clean(c)
    ensures Valid(Allocate(c, spare).0)
  {
    hide Headed, Links, Take, Retire, Placed, Clean;
    CleanMeans(c, p, f, e);
    var g := AddSpareKeeps(c, p, f, e, spare);
    var d := AddSpare(c, spare);
    CleanMeans(d, p, g, e);
    if p == [] && g == [] {
      assert Rep(d, p, g, e);
    } else if p == [] {
      PromoteReady(d, p, g, e);
      StillReady(Promote(d), g, [], e);
      TakeAndRetire(Promote(d), g, [], e);
    } else {
      StillReady(d, p, g, e);
      TakeAndRetire(d, p, g, e);
    }
  }

  lemma StillReady(c: Cache, p: seq<nat>, f: seq<nat>, e: seq<nat>)
    requires Headed(c) && Listed(c, p, f, e) && p != []
    requires Counted(c, p, 1, Capacity(c.size) - 1) || (Counted(c, p, 0, 0) && |p| == 1)
    ensures Ready(c, p, f, e) && c.partial == At(p[0]) && p[0] in c.slabs
  {
  }

  /** The slab x heads the full list and is also first or second of the partial list. */
  ghost predicate Shared(c: Cache, x: nat) {
    && c.full == At(x) && c.partial.At? && c.partial.address in c.slabs
    && (c.partial == At(x) || c.slabs[c.partial.address].next == At(x))
  }

  lemma SharedMember(c: Cache, x: nat, p: seq<nat>, f: seq<nat>, e: seq<nat>)
    requires Shared(c, x) && Chained(c, p, f, e)
    ensures x in p && x in f
  {
    assert f[0] == x;
    assert p[0] == c.partial.address && Links(c.slabs, c.slabs[p[0]].next, p[1..]);
    assert c.partial == At(x) || p[1..][0] == x;
  }

  lemma SharedNotValid(c: Cache, x: nat)
    requires Shared(c, x)
    ensures !Valid(c)
  {
    forall p, f, e ensures !Rep(c, p, f, e) {
      if Chained(c, p, f, e) { SharedMember(c, x, p, f, e); }
    }
  }

  lemma AllocateShares(c: Cache, spare: Pointer, p: seq<nat>, f: seq<nat>, e: seq<nat>)
    requires Rep(c, p, f, e) && !Clean(c)
    ensures |f| >= 2 && Shared(Allocate(c, spare).0, f[1])
  {
    hide PagesApart, InUse, Consistent, Take;
    CleanMeans(c, p, f, e);
    assert c.full == At(f[0]) && f[0] in c.slabs;
    assert Links(c.slabs, c.slabs[f[0]].next, f[1..]) && f[1..][0] == f[1];
    assert Take(c.slabs[f[0]]).next == At(f[1]) by { TakeKeepsLink(c.slabs[f[0]]); }
    LinksMembers(c.slabs, c.full, f);
    LinksDistinct(c.slabs, c.full, f, 0, 1);
  }

  lemma TakeKeepsLink(h: Header)
    ensures Take(h).next == h.next && Take(h).nobjs == h.nobjs
  {
  }

  /** An allocation keeps every slab on the one list its use count dictates
      exactly when there was a partial slab or at most one full slab. */
  lemma AllocateValidExactlyWhenClean(c: Cache, spare: Pointer)
    requires Valid(c) && Spare(c, spare)
    ensures Valid(Allocate(c, spare).0) <==> Clean(c)
  {
    hide Rep, Clean, Allocate, Spare;
    var p, f, e :| Rep(c, p, f, e);
    if Clean(c) {
      AllocateKeeps(c, spare, p, f, e);
    } else {
      AllocateShares(c, spare, p, f, e);
      SharedNotValid(Allocate(c, spare).0, f[1]);
    }
  }
}
