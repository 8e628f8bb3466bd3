/** Free memory determines the free lists: canonical lists over the same bytes are equal. */
module BuddyUnique {
  import opened BuddyInvariant
  import opened BuddyModel
  import opened BuddyTheorems
  import L = SortedList

  ghost predicate SameFree(s: Lists, t: Lists) {
    forall x: nat :: Covered(s, x) <==> Covered(t, x)
  }

  /** Every block of one is a block of the other. */
  lemma BlockShared(s: Lists, t: Lists, k: nat, a: nat)
    requires Canonical(s) && Canonical(t) && SameFree(s, t) && Has(s, k, a)
    ensures Has(t, k, a)
  {
    hide Canonical;
    AlignedFacts(s, k, a);
    assert WhollyFree(t, a, k) by {
      forall x: nat | InBlock(x, a, k) ensures Covered(t, x) { assert Covered(s, x); }
    }
    var j, b := FreeRunInOneBlock(t, a, k);
    AlignedFacts(t, j, b);
    assert WhollyFree(s, b, j) by {
      forall x: nat | InBlock(x, b, j) ensures Covered(s, x) { assert Covered(t, x); }
    }
    var i, c := FreeRunInOneBlock(s, b, j);
    Positive(k);
    BlocksMeet(s, k, a, i, c);
  }

  lemma Positive(k: nat)
    ensures Size(k) > 0
  {
  }

  lemma AlignedFacts(s: Lists, k: nat, a: nat)
    requires Canonical(s) && Has(s, k, a)
    ensures k <= MAX_ORDER && AtOrder(a, k)
  {
  }

  lemma BlocksMeet(s: Lists, k: nat, a: nat, i: nat, c: nat)
    requires Canonical(s) && Has(s, k, a) && Has(s, i, c) && c <= a < c + Size(i) && Size(k) > 0
    ensures k == i && a == c
  {
    assert k != i || a != c ==> Apart(a, k, c, i);
  }

  /** Canonical lists are determined by the bytes they cover. */
  lemma CanonicalDetermined(s: Lists, t: Lists)
    requires Canonical(s) && Canonical(t) && SameFree(s, t)
    ensures s == t
  {
    forall k | 0 <= k <= MAX_ORDER ensures s[k] == t[k] {
      forall a: nat ensures a in s[k] <==> a in t[k] {
        if Has(s, k, a) { BlockShared(s, t, k, a); }
        if Has(t, k, a) { BlockShared(t, s, k, a); }
      }
      L.SortedUnique(s[k], t[k]);
    }
  }

  /** The free bytes are those of the zone that no caller holds. */
  lemma FreeIsNotHeld(z: Zone, x: nat)
    requires ZoneInv(z)
    ensures !(Covered(z.lists, x) && HeldByCaller(z, x))
  {
    if HeldByCaller(z, x) {
      var a :| a in z.live && InBlock(x, a, z.live[a]);
      NotCovered(z.lists, a, z.live[a]);
    }
  }

  /** Two zones over the same bytes in which callers hold the same blocks have the same lists. */
  lemma SameLiveSameLists(y: Zone, z: Zone)
    requires ZoneInv(y) && ZoneInv(z) && y.live == z.live
    requires forall x: nat :: Covered(y.lists, x) || HeldByCaller(y, x) <==> Covered(z.lists, x) || HeldByCaller(z, x)
    ensures y.lists == z.lists
  {
    hide ZoneInv;
    forall x: nat ensures Covered(y.lists, x) <==> Covered(z.lists, x) {
      FreeIsNotHeld(y, x);
      FreeIsNotHeld(z, x);
      assert HeldByCaller(y, x) <==> HeldByCaller(z, x);
    }
    ZoneCanonical(y);
    ZoneCanonical(z);
    CanonicalDetermined(y.lists, z.lists);
  }

  lemma ZoneCanonical(z: Zone)
    requires ZoneInv(z)
    ensures Canonical(z.lists)
  {
  }

  /** The lists do not remember the past: runs of allocations and releases that leave the
      callers with the same blocks leave the same lists, in whatever order they went. */
  lemma RunsForget(z: Zone, ops: seq<Op>, others: seq<Op>)
    requires ZoneInv(z) && Run(z, ops).live == Run(z, others).live
    ensures Run(z, ops).lists == Run(z, others).lists
  {
    RunKeepsZone(z, ops);
    RunKeepsZone(z, others);
    SameLiveSameLists(Run(z, ops), Run(z, others));
  }
}
