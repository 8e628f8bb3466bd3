/** Well-formed and fully coalesced free lists, and what releasing a block does to them. */
module BuddyInvariant {
  import opened PowersOfTwo
  import opened BuddyModel
  import L = SortedList

  ghost predicate Has(s: Lists, k: nat, a: nat) {
    k < |s| && a in s[k]
  }

  predicate InBlock(x: nat, a: nat, k: nat) {
    a <= x < a + Size(k)
  }

  /** Some free block holds the byte at `x`. */
  ghost predicate Covered(s: Lists, x: nat) {
    exists k: nat, a: nat :: Has(s, k, a) && InBlock(x, a, k)
  }

  predicate Apart(a: nat, k: nat, b: nat, j: nat) {
    a + Size(k) <= b || b + Size(j) <= a
  }

  /** Sorted lists of naturally aligned, pairwise disjoint blocks. */
  ghost predicate WellFormed(s: Lists) {
    && (forall k :: 0 <= k < |s| ==> L.Sorted(s[k]))
    && (forall k: nat, a: nat :: Has(s, k, a) ==> a > 0 && AtOrder(a, k))
    && (forall k: nat, a: nat, j: nat, b: nat :: Has(s, k, a) && Has(s, j, b) && (k != j || a != b) ==>
        Apart(a, k, b, j))
  }

  /** No two buddies are both free below the top order. */
  ghost predicate PairFree(s: Lists) {
    forall k: nat, a: nat :: k < MAX_ORDER && Has(s, k, a) && AtOrder(a, k + 1) ==> !Has(s, k, a + Size(k))
  }

  ghost predicate Canonical(s: Lists) {
    WellFormed(s) && PairFree(s)
  }

  /** A block that overlaps no free block. */
  ghost predicate Fits(s: Lists, a: nat, k: nat) {
    && k <= MAX_ORDER && a > 0 && AtOrder(a, k)
    && forall j: nat, b: nat :: Has(s, j, b) ==> Apart(a, k, b, j)
  }

  // ---- One list at a time ----------------------------------------------------

  lemma PutBlock(s: Lists, a: nat, k: nat)
    requires WellFormed(s) && Fits(s, a, k)
    ensures var t := AddBlock(s, k, a);
      && WellFormed(t)
      && (forall j: nat, b: nat :: Has(t, j, b) <==> Has(s, j, b) || (j == k && b == a))
  {
    var t := AddBlock(s, k, a);
    assert Has(s, k, a) ==> Apart(a, k, a, k);
    L.InsertSorted(s[k], a);
    forall j: nat, b: nat
      ensures Has(t, j, b) <==> Has(s, j, b) || (j == k && b == a)
    {
      L.InsertMembers(s[k], a, b);
    }
  }

  lemma CutBlock(s: Lists, b: nat, k: nat)
    requires Canonical(s) && k <= MAX_ORDER
    ensures var t := s[k := L.Without(s[k], b)];
      && Canonical(t)
      && (forall j: nat, c: nat :: Has(t, j, c) <==> Has(s, j, c) && !(j == k && c == b))
  {
    var t := s[k := L.Without(s[k], b)];
    L.WithoutSorted(s[k], b);
    forall j: nat, c: nat
      ensures Has(t, j, c) <==> Has(s, j, c) && !(j == k && c == b)
    {
    }
  }

  // ---- Buddies ---------------------------------------------------------------

  /** The other half of the order k+1 block that holds the order k block at `a`. */
  function Buddy(a: nat, k: nat): (b: nat)
    requires AtOrder(a, k)
    ensures AtOrder(b, k) && b != a
    ensures b == a + Size(k) || a == b + Size(k)
    ensures AtOrder(Lower(a, b), k + 1) && !AtOrder(Lower(a, b) + Size(k), k + 1)
  {
    Halves(a, k + 12);
    AlignedStep(a, k + 12);
    if AtOrder(a, k + 1) then a + Size(k)
    else
      Halves(a - Size(k), k + 12);
      a - Size(k)
  }

  function Lower(a: nat, b: nat): nat {
    if a < b then a else b
  }

  lemma BuddyOfLower(c: nat, k: nat)
    requires AtOrder(c, k + 1)
    ensures AtOrder(c, k) && AtOrder(c + Size(k), k)
    ensures Buddy(c, k) == c + Size(k) && Buddy(c + Size(k), k) == c
  {
    AlignedDown(c, k + 12, k + 13);
    Halves(c, k + 12);
  }

  /** Releasing a block, stated on its own: climb while the buddy is free. */
  function Coalesce(s: Lists, a: nat, k: nat): (r: Lists)
    requires k <= MAX_ORDER && AtOrder(a, k)
    decreases MAX_ORDER - k
  {
    if k == MAX_ORDER || Buddy(a, k) !in s[k] then AddBlock(s, k, a)
    else
      var b := Buddy(a, k);
      Coalesce(s[k := L.Without(s[k], b)], Lower(a, b), k + 1)
  }

  lemma MergedFits(s: Lists, a: nat, k: nat)
    requires Canonical(s) && Fits(s, a, k) && k < MAX_ORDER && Has(s, k, Buddy(a, k))
    ensures var b := Buddy(a, k);
      Fits(s[k := L.Without(s[k], b)], Lower(a, b), k + 1)
  {
    var b := Buddy(a, k);
    var t := s[k := L.Without(s[k], b)];
    CutBlock(s, b, k);
    forall j: nat, c: nat | Has(t, j, c)
      ensures Apart(Lower(a, b), k + 1, c, j)
    {
      assert Has(s, j, c) && Apart(a, k, c, j) && Apart(b, k, c, j);
      assert Size(k + 1) == 2 * Size(k);
    }
  }

  // ---- Release is coalescing ---------------------------------------------------

  lemma {:induction false} ScanWithoutPair(s: Lists, k: nat, i: nat)
    requires k < MAX_ORDER
    requires forall p :: i <= p < |s[k]| ==> !PairAt(s[k], k, p)
    ensures MergeFrom(s, k, i) == s
    decreases |s[k]| - i
  {
    if i < |s[k]| { ScanWithoutPair(s, k, i + 1); }
  }

  lemma {:induction false} ScanToPair(s: Lists, k: nat, i: nat, p: nat)
    requires k < MAX_ORDER && i <= p <= |s[k]|
    requires forall q :: i <= q < p ==> !PairAt(s[k], k, q)
    ensures MergeFrom(s, k, i) == MergeFrom(s, k, p)
    decreases p - i
  {
    if i < p { ScanToPair(s, k, i + 1, p); }
  }

  lemma PairFreeScan(s: Lists, k: nat, i: nat)
    requires Canonical(s) && k < MAX_ORDER
    ensures !PairAt(s[k], k, i)
  {
    if PairAt(s[k], k, i) {
      assert Has(s, k, s[k][i]) && Has(s, k, s[k][i + 1]);
    }
  }

  /** After one insertion the only pair is the inserted block and its buddy. */
  lemma OnlyOwnPair(s: Lists, a: nat, k: nat, i: nat)
    requires Canonical(s) && Fits(s, a, k) && k < MAX_ORDER
    requires PairAt(L.Insert(s[k], a), k, i)
    ensures Has(s, k, Buddy(a, k)) && L.Insert(s[k], a)[i] == Lower(a, Buddy(a, k))
  {
    var l := L.Insert(s[k], a);
    L.InsertMembers(s[k], a, l[i]);
    L.InsertMembers(s[k], a, l[i + 1]);
    assert Has(s, k, l[i]) ==> !Has(s, k, l[i + 1]);
    if l[i] == a {
      assert Buddy(a, k) == l[i + 1];
    } else {
      assert Has(s, k, l[i]);
      assert l[i + 1] == a;
      assert !AtOrder(a, k + 1) by { Halves(l[i], k + 12); }
    }
  }

  lemma MergeNone(s: Lists, a: nat, k: nat)
    requires Canonical(s) && Fits(s, a, k)
    requires k == MAX_ORDER || !Has(s, k, Buddy(a, k))
    ensures InsertBuddy(s, a, k) == AddBlock(s, k, a)
  {
    var t := AddBlock(s, k, a);
    if k < MAX_ORDER {
      forall p | 0 <= p < |t[k]|
        ensures !PairAt(t[k], k, p)
      {
        if PairAt(t[k], k, p) { OnlyOwnPair(s, a, k, p); }
      }
      ScanWithoutPair(t, k, 0);
    }
  }

  /** Where the pair sits, and what cutting it leaves. */
  lemma PairPosition(s: Lists, a: nat, k: nat) returns (p: nat)
    requires Canonical(s) && Fits(s, a, k) && k < MAX_ORDER && Has(s, k, Buddy(a, k))
    ensures var l := L.Insert(s[k], a);
      && PairAt(l, k, p) && l[p] == Lower(a, Buddy(a, k))
      && l[..p] + l[p + 2..] == L.Without(s[k], Buddy(a, k))
  {
    var b := Buddy(a, k);
    var l := L.Insert(s[k], a);
    var t := AddBlock(s, k, a);
    PutBlock(s, a, k);
    assert Has(t, k, a) && Has(t, k, b);
    p := AdjacentBlocks(t, k, Lower(a, b));
    assert a !in s[k] by { assert Has(s, k, a) ==> Apart(a, k, a, k); }
    CutPair(s[k], a, b, l, p);
  }

  lemma AdjacentBlocks(t: Lists, k: nat, lo: nat) returns (p: nat)
    requires WellFormed(t) && Has(t, k, lo) && Has(t, k, lo + Size(k))
    ensures p + 1 < |t[k]| && t[k][p] == lo && t[k][p + 1] == lo + Size(k)
  {
    var l := t[k];
    p :| 0 <= p < |l| && l[p] == lo;
    var q :| 0 <= q < |l| && l[q] == lo + Size(k);
    assert p < q;
    if p + 1 < q {
      assert Has(t, k, l[p + 1]) && l[p + 1] < l[q];
      AlignedGap(lo, l[p + 1], k + 12);
    }
  }

  lemma CutPair(l0: seq<nat>, a: nat, b: nat, l: seq<nat>, p: nat)
    requires L.Sorted(l0) && L.Sorted(l) && l == L.Insert(l0, a) && a !in l0
    requires p + 1 < |l| && a != b && {l[p], l[p + 1]} == {a, b}
    ensures l[..p] + l[p + 2..] == L.Without(l0, b)
  {
    var r := l[..p] + l[p + 2..];
    L.WithoutSorted(l0, b);
    assert L.Sorted(r);
    forall x: nat
      ensures x in r <==> x in L.Without(l0, b)
    {
      L.InsertMembers(l0, a, x);
      CutMembers(l, p, x);
      assert l[p] in {a, b} && l[p + 1] in {a, b};
      assert a in {l[p], l[p + 1]} && b in {l[p], l[p + 1]};
    }
    L.SortedUnique(r, L.Without(l0, b));
  }

  lemma CutMembers(l: seq<nat>, p: nat, x: nat)
    requires L.Sorted(l) && p + 1 < |l|
    ensures x in l[..p] + l[p + 2..] <==> x in l && x != l[p] && x != l[p + 1]
  {
    assert l == l[..p] + [l[p], l[p + 1]] + l[p + 2..];
    assert x in l[..p] ==> x < l[p];
    assert x in l[p + 2..] ==> x > l[p + 1];
  }

  lemma MergeOne(s: Lists, a: nat, k: nat)
    requires Canonical(s) && Fits(s, a, k) && k < MAX_ORDER && Has(s, k, Buddy(a, k))
    requires var b := Buddy(a, k);
      Canonical(InsertBuddy(s[k := L.Without(s[k], b)], Lower(a, b), k + 1))
    ensures var b := Buddy(a, k);
      InsertBuddy(s, a, k) == InsertBuddy(s[k := L.Without(s[k], b)], Lower(a, b), k + 1)
  {
    var b := Buddy(a, k);
    var t := AddBlock(s, k, a);
    var p := PairPosition(s, a, k);
    forall q | 0 <= q < p
      ensures !PairAt(t[k], k, q)
    {
      assert t[k][q] < t[k][p] by { PutBlock(s, a, k); }
      if PairAt(t[k], k, q) { OnlyOwnPair(s, a, k, q); }
    }
    ScanToPair(t, k, 0, p);
    var u := s[k := L.Without(s[k], b)];
    assert t[k := t[k][..p] + t[k][p + 2..]] == u;
    var v := InsertBuddy(u, Lower(a, b), k + 1);
    if p < |v[k]| {
      forall q | p + 1 <= q < |v[k]|
        ensures !PairAt(v[k], k, q)
      {
        PairFreeScan(v, k, q);
      }
      ScanWithoutPair(v, k, p + 1);
    }
  }

  /** From a canonical state, the recursive insert-and-scan of the source is
      the plain climb, keeps the canonical form, and adds exactly the block. */
  lemma {:induction false} ReleaseIsCoalesce(s: Lists, a: nat, k: nat)
    requires Canonical(s) && Fits(s, a, k)
    ensures InsertBuddy(s, a, k) == Coalesce(s, a, k)
    ensures Canonical(InsertBuddy(s, a, k))
    ensures forall x: nat :: Covered(InsertBuddy(s, a, k), x) <==> Covered(s, x) || InBlock(x, a, k)
    decreases MAX_ORDER - k
  {
    var r := InsertBuddy(s, a, k);
    if k == MAX_ORDER || !Has(s, k, Buddy(a, k)) {
      MergeNone(s, a, k);
      PutBlock(s, a, k);
      AddedPairFree(s, a, k);
      CoveredAdd(s, r, a, k);
    } else {
      var b := Buddy(a, k);
      var u := s[k := L.Without(s[k], b)];
      CutBlock(s, b, k);
      MergedFits(s, a, k);
      ReleaseIsCoalesce(u, Lower(a, b), k + 1);
      MergeOne(s, a, k);
      forall x: nat
        ensures Covered(r, x) <==> Covered(s, x) || InBlock(x, a, k)
      {
        CoveredCut(s, b, k, x);
        assert Size(k + 1) == 2 * Size(k);
        assert InBlock(x, Lower(a, b), k + 1) <==> InBlock(x, a, k) || InBlock(x, b, k);
      }
    }
  }

  lemma AddedPairFree(s: Lists, a: nat, k: nat)
    requires Canonical(s) && Fits(s, a, k)
    requires k == MAX_ORDER || !Has(s, k, Buddy(a, k))
    ensures PairFree(AddBlock(s, k, a))
  {
    var t := AddBlock(s, k, a);
    PutBlock(s, a, k);
    forall j: nat, c: nat | j < MAX_ORDER && Has(t, j, c) && AtOrder(c, j + 1)
      ensures !Has(t, j, c + Size(j))
    {
      if j == k { BuddyOfLower(c, k); }
    }
  }

  lemma CoveredAdd(s: Lists, t: Lists, a: nat, k: nat)
    requires forall j: nat, b: nat :: Has(t, j, b) <==> Has(s, j, b) || (j == k && b == a)
    ensures forall x: nat :: Covered(t, x) <==> Covered(s, x) || InBlock(x, a, k)
  {
    assert Has(t, k, a);
  }

  lemma CoveredCut(s: Lists, b: nat, k: nat, x: nat)
    requires Canonical(s) && Has(s, k, b)
    ensures Covered(s, x) <==> Covered(s[k := L.Without(s[k], b)], x) || InBlock(x, b, k)
  {
    var u := s[k := L.Without(s[k], b)];
    CutBlock(s, b, k);
    if Covered(s, x) && !InBlock(x, b, k) {
      var j: nat, c: nat :| Has(s, j, c) && InBlock(x, c, j);
      assert Has(u, j, c);
    }
    if Covered(u, x) {
      var j: nat, c: nat :| Has(u, j, c) && InBlock(x, c, j);
      assert Has(s, j, c);
    }
  }
}
