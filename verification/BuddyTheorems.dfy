/** What allocation and release guarantee over whole runs. */
module BuddyTheorems {
  import opened Basics
  import opened PowersOfTwo
  import opened BuddyModel
  import opened BuddyInvariant
  import L = SortedList

  // ---- Allocation in closed form ------------------------------------------------

  /** The smallest order at or above k with a free block. */
  function FirstOrder(s: Lists, k: nat): (r: Option<nat>)
    ensures r.Some? ==> k <= r.value <= MAX_ORDER && s[r.value] != [] && forall j :: k <= j < r.value ==> s[j] == []
    ensures r.None? ==> forall j :: k <= j <= MAX_ORDER ==> s[j] == []
    decreases MAX_ORDER + 1 - k
  {
    if k > MAX_ORDER then None else if s[k] != [] then Some(k) else FirstOrder(s, k + 1)
  }

  /** The lists after the first block of order j is halved down to order k and
      its lowest part is handed out. */
  function Carve(s: Lists, k: nat, j: nat): (r: Lists)
    requires k <= j <= MAX_ORDER && s[j] != []
    decreases j - k
  {
    if k == j then s[j := s[j][1..]]
    else
      var t := Carve(s, k + 1, j);
      t[k := [s[j][0] + Size(k)]]
  }

  lemma {:induction false} CarveBelow(s: Lists, k: nat, j: nat, i: nat)
    requires k <= j <= MAX_ORDER && s[j] != [] && i < k
    ensures Carve(s, k, j)[i] == s[i]
    decreases j - k
  {
    if k < j { CarveBelow(s, k + 1, j, i); }
  }

  lemma {:induction false} SplitIsCarve(s: Lists, k: nat)
    requires k <= MAX_ORDER
    ensures FirstOrder(s, k).None? ==> Split(s, k) == s
    ensures FirstOrder(s, k) == Some(k) ==> Split(s, k) == s
    ensures FirstOrder(s, k).Some? && FirstOrder(s, k).value > k ==>
      var j := FirstOrder(s, k).value;
      Split(s, k) == Carve(s, k + 1, j)[k := [s[j][0], s[j][0] + Size(k)]]
    decreases MAX_ORDER - k
  {
    hide Size;
    if k < MAX_ORDER && s[k] == [] {
      SplitIsCarve(s, k + 1);
      var r := FirstOrder(s, k + 1);
      assert FirstOrder(s, k) == r;
      if r.Some? && r.value > k + 1 { HeadTaken(s, k + 1, r.value); }
    }
  }

  /** Taking the lower half out of a fresh split leaves the upper half. */
  lemma HeadTaken(s: Lists, k: nat, j: nat)
    requires k < j <= MAX_ORDER && s[j] != []
    ensures var t: Lists := Carve(s, k + 1, j)[k := [s[j][0], s[j][0] + Size(k)]];
      t[k][0] == s[j][0] && t[k := t[k][1..]] == Carve(s, k, j)
  {
    hide Size;
  }

  lemma AllocIsCarve(s: Lists, k: nat)
    ensures k > MAX_ORDER || FirstOrder(s, k).None? ==> Alloc(s, k) == (None, s)
    ensures k <= MAX_ORDER && FirstOrder(s, k).Some? ==>
      var j := FirstOrder(s, k).value;
      Alloc(s, k) == (Some(s[j][0]), Carve(s, k, j))
  {
    if k <= MAX_ORDER {
      SplitIsCarve(s, k);
      if FirstOrder(s, k).Some? {
        var j := FirstOrder(s, k).value;
        if j > k { HeadTaken(s, k, j); }
      }
    }
  }

  // ---- One halving step -----------------------------------------------------------

  /** Returning the upper half of a block that is out keeps the canonical form. */
  lemma HalveStep(u: Lists, b: nat, k: nat)
    requires Canonical(u) && k < MAX_ORDER && Fits(u, b, k + 1) && u[k] == []
    ensures var v := u[k := [b + Size(k)]];
      && Canonical(v) && Fits(v, b, k)
      && (forall x: nat :: Covered(v, x) || InBlock(x, b, k) <==> Covered(u, x) || InBlock(x, b, k + 1))
  {
    var v := u[k := [b + Size(k)]];
    var c := b + Size(k);
    BuddyOfLower(b, k);
    assert Size(k + 1) == 2 * Size(k);
    assert L.Insert(u[k], c) == [c];
    assert v == AddBlock(u, k, c);
    forall j: nat, d: nat | Has(u, j, d)
      ensures Apart(c, k, d, j) && Apart(b, k, d, j)
    {
      assert Apart(b, k + 1, d, j);
    }
    assert Fits(u, c, k);
    PutBlock(u, c, k);
    AddedPairFree(u, c, k);
    CoveredAdd(u, v, c, k);
  }

  /** Merging undoes one halving step. */
  lemma HalveUndone(u: Lists, b: nat, k: nat)
    requires Canonical(u) && k < MAX_ORDER && Fits(u, b, k + 1) && u[k] == []
    ensures AtOrder(b, k)
    ensures Coalesce(u[k := [b + Size(k)]], b, k) == Coalesce(u, b, k + 1)
  {
    BuddyOfLower(b, k);
    var v := u[k := [b + Size(k)]];
    assert v[k := L.Without(v[k], b + Size(k))] == u;
  }

  lemma TopBlockOut(s: Lists, j: nat)
    requires Canonical(s) && j <= MAX_ORDER && s[j] != []
    ensures var b := s[j][0]; var u := s[j := s[j][1..]];
      && Canonical(u) && Fits(u, b, j)
      && Coalesce(u, b, j) == s
      && (forall x: nat :: Covered(s, x) <==> Covered(u, x) || InBlock(x, b, j))
  {
    var b := s[j][0];
    var u := s[j := s[j][1..]];
    L.WithoutSorted(s[j], b);
    forall x: nat
      ensures x in s[j][1..] <==> x in L.Without(s[j], b)
    {
      L.TailMembers(s[j], x);
    }
    L.SortedUnique(s[j][1..], L.Without(s[j], b));
    CutBlock(s, b, j);
    assert Has(s, j, b);
    forall i: nat, d: nat | Has(u, i, d)
      ensures Apart(b, j, d, i)
    {
      assert Has(s, i, d);
    }
    forall x: nat
      ensures Covered(s, x) <==> Covered(u, x) || InBlock(x, b, j)
    {
      CoveredCut(s, b, j, x);
    }
    if j < MAX_ORDER { NoFreeBuddy(s, j, b); }
    assert L.Insert(s[j][1..], b) == s[j] by {
      L.InsertSorted(s[j][1..], b);
      forall x: nat
        ensures x in L.Insert(s[j][1..], b) <==> x in s[j]
      {
        L.InsertMembers(s[j][1..], b, x);
        L.TailMembers(s[j], x);
      }
      L.SortedUnique(L.Insert(s[j][1..], b), s[j]);
    }
    assert AddBlock(u, j, b) == s;
  }

  lemma NoFreeBuddy(s: Lists, j: nat, b: nat)
    requires Canonical(s) && j < MAX_ORDER && Has(s, j, b)
    ensures !Has(s, j, Buddy(b, j))
  {
    var c := Buddy(b, j);
    if b < c {
      assert AtOrder(b, j + 1);
    } else {
      assert AtOrder(c, j + 1);
    }
  }

  /** Handing out a block keeps every invariant, takes exactly that block, and
      coalescing it again gives back the very same lists. */
  lemma {:induction false} CarveReversible(s: Lists, k: nat, j: nat)
    requires Canonical(s) && k <= j <= MAX_ORDER && s[j] != []
    requires forall i :: k <= i < j ==> s[i] == []
    ensures var b := s[j][0]; var u := Carve(s, k, j);
      && Canonical(u) && Fits(u, b, k)
      && Coalesce(u, b, k) == s
      && (forall x: nat :: Covered(s, x) <==> Covered(u, x) || InBlock(x, b, k))
    decreases j - k
  {
    hide Canonical, Fits, Covered, InBlock, Coalesce, Size;
    if k == j {
      TopBlockOut(s, j);
    } else {
      CarveReversible(s, k + 1, j);
      CarveBelow(s, k + 1, j, k);
      HalveStep(Carve(s, k + 1, j), s[j][0], k);
      HalveUndone(Carve(s, k + 1, j), s[j][0], k);
    }
  }

  /** A successful allocation returns an aligned block that was wholly free,
      removes exactly it, and leaves canonical lists it does not overlap; a
      failed one changes nothing. */
  lemma AllocTakesOneBlock(s: Lists, k: nat)
    requires Canonical(s)
    ensures Alloc(s, k).0.None? ==> Alloc(s, k).1 == s
    ensures Alloc(s, k).0.Some? ==>
      var b := Alloc(s, k).0.value; var t := Alloc(s, k).1;
      && k <= MAX_ORDER && Canonical(t) && Fits(t, b, k)
      && (forall x: nat :: Covered(s, x) <==> Covered(t, x) || InBlock(x, b, k))
      && (forall x: nat :: InBlock(x, b, k) ==> Covered(s, x) && !Covered(t, x))
  {
    AllocIsCarve(s, k);
    if k <= MAX_ORDER && FirstOrder(s, k).Some? {
      CarveReversible(s, k, FirstOrder(s, k).value);
      NotCovered(Alloc(s, k).1, Alloc(s, k).0.value, k);
    }
  }

  lemma NotCovered(t: Lists, b: nat, k: nat)
    requires Fits(t, b, k)
    ensures forall x: nat :: InBlock(x, b, k) ==> !Covered(t, x)
  {
    forall x: nat | InBlock(x, b, k)
      ensures !Covered(t, x)
    {
      forall j: nat, c: nat | Has(t, j, c)
        ensures !InBlock(x, c, j)
      {
        assert Apart(b, k, c, j);
      }
    }
  }

  /** Round trip: release at the order of the allocation restores every list,
      through any depth of splitting and merging. */
  lemma AllocThenFree(s: Lists, k: nat)
    requires Canonical(s) && Alloc(s, k).0.Some?
    ensures InsertBuddy(Alloc(s, k).1, Alloc(s, k).0.value, k) == s
  {
    AllocIsCarve(s, k);
    var j := FirstOrder(s, k).value;
    CarveReversible(s, k, j);
    ReleaseIsCoalesce(Carve(s, k, j), s[j][0], k);
  }

  // ---- Completeness ---------------------------------------------------------------

  /** Every byte of the run of 2^k pages at `a` is free. */
  ghost predicate WhollyFree(s: Lists, a: nat, k: nat) {
    forall x: nat :: InBlock(x, a, k) ==> Covered(s, x)
  }

  /** In canonical lists a wholly free aligned run lies inside one free block. */
  lemma {:induction false} FreeRunInOneBlock(s: Lists, a: nat, k: nat) returns (j: nat, b: nat)
    requires Canonical(s) && k <= MAX_ORDER && AtOrder(a, k) && WhollyFree(s, a, k)
    ensures k <= j && Has(s, j, b) && b <= a && a + Size(k) <= b + Size(j)
    decreases k
  {
    if k == 0 {
      assert InBlock(a, a, 0);
      j, b :| Has(s, j, b) && InBlock(a, b, j);
      Nest(a, 12, b, j + 12);
    } else {
      var half := a + Size(k - 1);
      HalvesFree(s, a, k);
      j, b := FreeRunInOneBlock(s, a, k - 1);
      var j2, b2 := FreeRunInOneBlock(s, half, k - 1);
      JoinHalves(s, a, k, j, b, j2, b2);
      Nest(a, k + 12, b, j + 12);
    }
  }

  lemma HalvesFree(s: Lists, a: nat, k: nat)
    requires 0 < k && AtOrder(a, k) && WhollyFree(s, a, k)
    ensures AtOrder(a, k - 1) && WhollyFree(s, a, k - 1)
    ensures AtOrder(a + Size(k - 1), k - 1) && WhollyFree(s, a + Size(k - 1), k - 1)
  {
    var half := a + Size(k - 1);
    assert Size(k) == 2 * Size(k - 1);
    AlignedDown(a, k + 11, k + 12);
    AlignedStep(a, k + 11);
    assert forall x: nat :: InBlock(x, a, k - 1) || InBlock(x, half, k - 1) ==> InBlock(x, a, k);
  }

  /** Two free blocks that each hold one half of an aligned run: the one that
      holds the lower half is larger than the half, or they would be an
      unmerged pair or overlap. */
  lemma JoinHalves(s: Lists, a: nat, k: nat, j1: nat, b1: nat, j2: nat, b2: nat)
    requires Canonical(s) && 0 < k <= MAX_ORDER && AtOrder(a, k)
    requires k - 1 <= j1 && Has(s, j1, b1) && b1 <= a && a + Size(k - 1) <= b1 + Size(j1)
    requires k - 1 <= j2 && Has(s, j2, b2) && b2 <= a + Size(k - 1) && a + Size(k - 1) + Size(k - 1) <= b2 + Size(j2)
    ensures k <= j1
  {
    if j2 >= k {
      AlignedDown(b2, k + 12, j2 + 12);
      if a < b2 { AlignedGap(a, b2, k + 12); }
    }
  }

  /** Allocation is complete: it fails exactly when no naturally aligned,
      wholly free run of 2^k pages exists (or the order is unsupported). */
  lemma AllocFailsExactlyWhenNoRun(s: Lists, k: nat)
    requires Canonical(s)
    ensures Alloc(s, k).0.None? <==>
      k > MAX_ORDER || !exists a: nat :: AtOrder(a, k) && WhollyFree(s, a, k)
  {
    AllocIsCarve(s, k);
    if k <= MAX_ORDER {
      if FirstOrder(s, k).Some? {
        AllocTakesOneBlock(s, k);
        var b := Alloc(s, k).0.value;
        assert AtOrder(b, k) && WhollyFree(s, b, k);
      } else {
        forall a: nat | AtOrder(a, k)
          ensures !WhollyFree(s, a, k)
        {
          if WhollyFree(s, a, k) {
            var j, b := FreeRunInOneBlock(s, a, k);
          }
        }
      }
    }
  }

  // ---- Whole runs -----------------------------------------------------------------

  /** One zone together with the blocks its callers hold, address to order. */
  datatype Zone = Zone(lists: Lists, live: map<nat, nat>)

  datatype Op = Allocate(order: nat) | Release(addr: nat)

  /** A release names a live block and its order; any other release is not a
      step of the protocol and is left out of the run. */
  function Step(z: Zone, op: Op): (r: Zone)
  {
    match op
    case Allocate(k) =>
      var (b, t) := Alloc(z.lists, k);
      if b.None? then Zone(t, z.live) else Zone(t, z.live[b.value := k])
    case Release(a) =>
      if a in z.live then Zone(InsertBuddy(z.lists, a, z.live[a]), z.live - {a}) else z
  }

  function Run(z: Zone, ops: seq<Op>): (r: Zone)
    decreases |ops|
  {
    if ops == [] then z else Run(Step(z, ops[0]), ops[1..])
  }

  ghost predicate HeldByCaller(z: Zone, x: nat) {
    exists a :: a in z.live && InBlock(x, a, z.live[a])
  }

  ghost predicate ZoneInv(z: Zone) {
    && Canonical(z.lists)
    && (forall a :: a in z.live ==> Fits(z.lists, a, z.live[a]))
    && (forall a, b :: a in z.live && b in z.live && a != b ==> Apart(a, z.live[a], b, z.live[b]))
  }

  lemma StepKeepsZone(z: Zone, op: Op)
    requires ZoneInv(z)
    ensures ZoneInv(Step(z, op))
    ensures forall x: nat ::
      Covered(Step(z, op).lists, x) || HeldByCaller(Step(z, op), x) <==> Covered(z.lists, x) || HeldByCaller(z, x)
  {
    match op
    case Allocate(k) => AllocateKeepsZone(z, k);
    case Release(a) => if a in z.live { ReleaseKeepsZone(z, a); }
  }

  lemma AllocateKeepsZone(z: Zone, k: nat)
    requires ZoneInv(z)
    ensures ZoneInv(Step(z, Allocate(k)))
    ensures forall x: nat ::
      Covered(Step(z, Allocate(k)).lists, x) || HeldByCaller(Step(z, Allocate(k)), x) <==>
          Covered(z.lists, x) || HeldByCaller(z, x)
  {
    var w := Step(z, Allocate(k));
    AllocTakesOneBlock(z.lists, k);
    var (r, t) := Alloc(z.lists, k);
    if r.Some? {
      var b := r.value;
      forall a | a in z.live
        ensures a != b && Fits(t, a, z.live[a]) && Apart(a, z.live[a], b, k)
      {
        OutsideStaysOutside(z.lists, t, a, z.live[a], b, k);
      }
      forall x: nat
        ensures HeldByCaller(w, x) <==> HeldByCaller(z, x) || InBlock(x, b, k)
      {
        if HeldByCaller(z, x) {
          var a :| a in z.live && InBlock(x, a, z.live[a]);
          assert a in w.live && w.live[a] == z.live[a];
        }
        assert b in w.live && w.live[b] == k;
      }
    }
  }

  /** A block clear of the old free space is clear of both parts of it. */
  lemma OutsideStaysOutside(s: Lists, t: Lists, a: nat, i: nat, b: nat, k: nat)
    requires Fits(s, a, i)
    requires forall x: nat :: Covered(s, x) <==> Covered(t, x) || InBlock(x, b, k)
    ensures a != b && Apart(a, i, b, k) && Fits(t, a, i)
  {
    NotCovered(s, a, i);
    IntervalsMeet(a, i, b, k);
    assert InBlock(b, b, k) && InBlock(a, a, i);
    forall j: nat, c: nat | Has(t, j, c)
      ensures Apart(a, i, c, j)
    {
      IntervalsMeet(a, i, c, j);
      assert InBlock(c, c, j) ==> Covered(t, c);
      assert InBlock(a, c, j) ==> Covered(t, a);
    }
  }

  lemma IntervalsMeet(a: nat, i: nat, b: nat, k: nat)
    ensures Apart(a, i, b, k) || InBlock(a, b, k) || InBlock(b, a, i)
    ensures InBlock(a, a, i) && InBlock(b, b, k)
  {
  }

  lemma ReleaseKeepsZone(z: Zone, a: nat)
    requires ZoneInv(z) && a in z.live
    ensures ZoneInv(Step(z, Release(a)))
    ensures forall x: nat ::
      Covered(Step(z, Release(a)).lists, x) || HeldByCaller(Step(z, Release(a)), x) <==>
          Covered(z.lists, x) || HeldByCaller(z, x)
  {
    var w := Step(z, Release(a));
    var k := z.live[a];
    ReleaseIsCoalesce(z.lists, a, k);
    forall b | b in w.live
      ensures Fits(w.lists, b, w.live[b])
    {
      assert Fits(z.lists, b, z.live[b]) && Apart(a, k, b, z.live[b]);
      NotCovered(z.lists, b, z.live[b]);
      StillOutside(z.lists, w.lists, a, k, b, z.live[b]);
    }
    forall x: nat
      ensures HeldByCaller(z, x) <==> HeldByCaller(w, x) || InBlock(x, a, k)
    {
      if HeldByCaller(z, x) && !InBlock(x, a, k) {
        var b :| b in z.live && InBlock(x, b, z.live[b]);
        assert b in w.live;
      }
      if HeldByCaller(w, x) {
        var b :| b in w.live && InBlock(x, b, w.live[b]);
        assert b in z.live;
      }
    }
  }

  lemma StillOutside(s: Lists, t: Lists, a: nat, k: nat, b: nat, i: nat)
    requires Fits(s, b, i) && Apart(a, k, b, i)
    requires forall x: nat :: Covered(t, x) <==> Covered(s, x) || InBlock(x, a, k)
    ensures Fits(t, b, i)
  {
    NotCovered(s, b, i);
    forall j: nat, c: nat | Has(t, j, c)
      ensures Apart(b, i, c, j)
    {
      IntervalsMeet(b, i, c, j);
      assert InBlock(c, c, j) ==> Covered(t, c);
      assert InBlock(b, c, j) ==> Covered(t, b);
    }
  }

  /** Over every run: the lists stay sorted, aligned, disjoint and coalesced,
      callers' blocks stay disjoint from them and from each other, and free
      plus held memory is exactly what it was. */
  lemma {:induction false} RunKeepsZone(z: Zone, ops: seq<Op>)
    requires ZoneInv(z)
    ensures ZoneInv(Run(z, ops))
    ensures forall x: nat ::
      Covered(Run(z, ops).lists, x) || HeldByCaller(Run(z, ops), x) <==> Covered(z.lists, x) || HeldByCaller(z, x)
    decreases |ops|
  {
    if ops != [] {
      StepKeepsZone(z, ops[0]);
      RunKeepsZone(Step(z, ops[0]), ops[1..]);
    }
  }
}
