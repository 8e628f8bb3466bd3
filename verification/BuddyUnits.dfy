/** How many blocks of one order the free lists can hand out. */
module BuddyUnits {
  import opened Basics
  import opened PowersOfTwo
  import opened BuddyModel
  import opened BuddyTheorems

  /** The free blocks of order j and above, cut into blocks of order k. */
  function UnitsFrom(s: Lists, k: nat, j: nat): nat
    requires k <= j
    decreases MAX_ORDER + 1 - j
  {
    if j > MAX_ORDER then 0 else |s[j]| * Pow2(j - k) + UnitsFrom(s, k, j + 1)
  }

  /** The blocks of order k that the free blocks can be cut into. */
  function Units(s: Lists, k: nat): nat {
    UnitsFrom(s, k, k)
  }

  lemma {:induction false} UnitsUpdate(s: Lists, k: nat, j: nat, i: nat, l: seq<nat>)
    requires k <= j && k <= i <= MAX_ORDER
    ensures UnitsFrom(s[i := l], k, j) == UnitsFrom(s, k, j) + if j <= i then (|l| - |s[i]|) * Pow2(i - k) else 0
    decreases MAX_ORDER + 1 - j
  {
    hide Pow2;
    if j <= MAX_ORDER {
      UnitsUpdate(s, k, j + 1, i, l);
      if i == j { Difference(|l|, |s[i]|, Pow2(i - k)); }
    }
  }

  lemma Difference(a: nat, b: nat, m: nat)
    ensures (a - b) * m == a * m - b * m
  {
  }

  lemma {:induction false} UnitsZero(s: Lists, k: nat, j: nat)
    requires k <= j
    ensures UnitsFrom(s, k, j) == 0 <==> forall i :: j <= i <= MAX_ORDER ==> s[i] == []
    decreases MAX_ORDER + 1 - j
  {
    if j <= MAX_ORDER {
      UnitsZero(s, k, j + 1);
      if s[j] != [] { MulMonotone(1, |s[j]|, Pow2(j - k)); }
    }
  }

  /** Halving a block down to order k and handing out its lowest part takes one block of order k. */
  lemma {:induction false} CarveTakes(s: Lists, i: nat, k: nat, j: nat)
    requires i <= k <= j <= MAX_ORDER && s[j] != [] && forall x :: k <= x < j ==> s[x] == []
    ensures Units(Carve(s, k, j), i) + Pow2(k - i) == Units(s, i)
    decreases j - k
  {
    hide Size, UnitsFrom, Pow2;
    if k == j {
      UnitsUpdate(s, i, i, j, s[j][1..]);
      assert |s[j][1..]| - |s[j]| == -1;
    } else {
      CarveTakes(s, i, k + 1, j);
      CarveBelow(s, k + 1, j, k);
      UnitsUpdate(Carve(s, k + 1, j), i, i, k, [s[j][0] + Size(k)]);
      Twice(k - i);
    }
  }

  lemma Twice(k: nat)
    ensures Pow2(k + 1) == 2 * Pow2(k)
  {
  }

  /** Allocation succeeds exactly while there are blocks of its order to be had, and takes one. */
  lemma AllocTakesUnits(s: Lists, k: nat, i: nat)
    requires i <= k <= MAX_ORDER
    ensures Alloc(s, k).0.Some? <==> Units(s, k) > 0
    ensures Alloc(s, k).0.Some? ==> Units(Alloc(s, k).1, i) + Pow2(k - i) == Units(s, i)
  {
    hide Alloc, Carve, Pow2;
    AllocIsCarve(s, k);
    UnitsZero(s, k, k);
    var r := FirstOrder(s, k);
    if r.Some? { CarveTakes(s, i, k, r.value); }
  }
}
