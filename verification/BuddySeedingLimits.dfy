/** Where seeding ends to tile its region.  A base in the last block of the address space is
    rounded up to 0, and the recursion adds blocks up to the top of memory; and 2^31 blocks of
    the top order are too many for the count. */
module BuddySeedingLimits {
  import opened Basics
  import opened BuddyInvariant
  import opened BuddyModel
  import opened BuddySeeding
  import opened PowersOfTwo
  import L = SortedList

  // ---- Seeding only adds --------------------------------------------------------------------

  /** No list loses an element. */
  ghost predicate Grows(s: Lists, r: Lists) {
    forall k :: 0 <= k <= MAX_ORDER ==> multiset(s[k]) <= multiset(r[k])
  }

  lemma InsertCounts(l: seq<nat>, a: nat)
    ensures multiset(L.Insert(l, a)) == multiset(l) + multiset{a}
  {
    var p := L.Position(l, a);
    assert l == l[..p] + l[p..];
  }

  lemma {:induction false} BlocksGrow(s: Lists, k: nat, start: nat, i: nat, nr: int)
    requires k <= MAX_ORDER
    ensures Grows(s, AddBlocks(s, k, start, i, nr))
    decreases nr - i
  {
    hide Pow2, AddBlock, Grows;
    GrowsRefl(s);
    if i < nr {
      var a := start + i * Size(k);
      var t := AddBlock(s, k, a);
      OneBlockGrows(s, k, a);
      BlocksGrow(t, k, start, i + 1, nr);
      GrowsTrans(s, t, AddBlocks(t, k, start, i + 1, nr));
    }
  }

  lemma GrowsRefl(s: Lists)
    ensures Grows(s, s)
  {
  }

  /** The list holds one more of the address than before. */
  ghost predicate More(s: Lists, r: Lists, k: nat, a: nat) {
    k <= MAX_ORDER && multiset(r[k])[a] > multiset(s[k])[a]
  }

  lemma {:induction false} LastBlockAdded(s: Lists, k: nat, start: nat, i: nat, nr: nat, last: nat)
    requires k <= MAX_ORDER && i < nr && last == start + (nr - 1) * Size(k)
    ensures More(s, AddBlocks(s, k, start, i, nr), k, last)
    decreases nr - i
  {
    hide Pow2, AddBlock, Grows, More;
    var a := start + i * Size(k);
    var t := AddBlock(s, k, a);
    OneBlockGrows(s, k, a);
    if i + 1 < nr {
      LastBlockAdded(t, k, start, i + 1, nr, last);
      MoreLater(s, t, AddBlocks(t, k, start, i + 1, nr), k, last);
    } else {
      assert AddBlocks(t, k, start, i + 1, nr) == t;
    }
  }

  lemma MoreLater(s: Lists, t: Lists, r: Lists, k: nat, a: nat)
    requires Grows(s, t) && More(t, r, k, a)
    ensures More(s, r, k, a)
  {
  }

  lemma OneBlockGrows(s: Lists, k: nat, a: nat)
    requires k <= MAX_ORDER
    ensures Grows(s, AddBlock(s, k, a)) && More(s, AddBlock(s, k, a), k, a)
  {
    InsertCounts(s[k], a);
  }

  lemma {:induction false} RegionGrows(s: Lists, order: int, base: nat, next: nat)
    requires order <= MAX_ORDER && base < WORD && next < WORD
    ensures Grows(s, AddRegionOrder(s, order, base, next))
    decreases order + 1
  {
    hide AlignUp, AlignDown, BlockCount, Pow2;
    if order >= 0 {
      var up, down := AlignUp(base, order), AlignDown(next, order);
      UpFits(base, order);
      DownFits(next, order);
      var s1 := if base != up then AddRegionOrder(s, order - 1, base, if up < next then up else next) else s;
      if base != up { RegionGrows(s, order - 1, base, if up < next then up else next); }
      var s2 := if next != down && down >= base
        then AddRegionOrder(s1, order - 1, if down > base then down else base, next) else s1;
      if next != down && down >= base { RegionGrows(s1, order - 1, if down > base then down else base, next); }
      BlocksGrow(s2, order, up, 0, BlockCount(order, up, down));
      GrowsTrans(s, s1, s2);
      GrowsTrans(s, s2, AddBlocks(s2, order, up, 0, BlockCount(order, up, down)));
    }
  }

  lemma GrowsTrans(s: Lists, r: Lists, t: Lists)
    requires Grows(s, r) && Grows(r, t)
    ensures Grows(s, t)
  {
  }

  lemma UpFits(base: nat, k: nat)
    ensures AlignUp(base, k) < WORD
  {
  }

  lemma DownFits(next: nat, k: nat)
    ensures AlignDown(next, k) <= next
  {
  }

  // ---- The block that reaches the top -------------------------------------------------------

  /** A new occurrence of the order j block that ends at the top of memory. */
  ghost predicate ReachesTop(s: Lists, r: Lists, j: nat) {
    Size(j) <= WORD && More(s, r, j, WORD - Size(j))
  }

  lemma GrowsReaches(s: Lists, r: Lists, t: Lists, j: nat)
    requires ReachesTop(s, r, j) && Grows(r, t)
    ensures ReachesTop(s, t, j)
  {
  }

  /** Blocks of one order from the first boundary above base to the top of memory. */
  lemma CountToTop(base: nat, k: nat)
    requires k <= MAX_ORDER && WORD - Size(MAX_ORDER) < base <= WORD - Size(k) && Size(k) <= WORD
    ensures var up := AlignUp(base, k);
      up <= WORD - Size(k) && BlockCount(k, up, 0) > 0 && up + (BlockCount(k, up, 0) - 1) * Size(k) == WORD - Size(k)
  {
    hide Pow2, AlignUp, BlockCount;
    var up, m := AlignUp(base, k), Size(k);
    AlignUpLeast(base, k);
    TopAligned(k);
    SizeOrder(k);
    var n := Quotient(up, WORD - m, k);
    assert (n + 1) * m == n * m + m;
    CountOfRest(k, up, n + 1);
  }

  lemma SizeOrder(k: nat)
    requires k <= MAX_ORDER
    ensures 1 <= Size(k) <= Size(MAX_ORDER) == 0x4000_0000
  {
    Positive(k);
    TopSize();
    Monotone(k + 12, MAX_ORDER + 12);
  }

  lemma CountOfRest(k: nat, up: nat, n: nat)
    requires k <= MAX_ORDER && up + n * Size(k) == WORD && 0 < n && 0 < up && WORD - up < Size(MAX_ORDER)
    ensures BlockCount(k, up, 0) == n
  {
    hide Pow2, ToInt32;
    var m := Size(k);
    SizeOrder(k);
    PageFactor(k);
    assert n <= n * m by { MulMonotone(1, m, n); }
    DivideTwice(n, Pow2(k));
    SmallWord(WORD - up);
    SmallInt(n);
  }

  lemma PageFactor(k: nat)
    ensures Size(k) == Pow2(k) * 4096
  {
    WordIsPower();
    Sum(k, 12);
  }

  lemma SmallWord(x: nat)
    requires x < WORD
    ensures x % WORD == x
  {
  }

  lemma SmallInt(n: nat)
    requires n < 0x8000_0000
    ensures ToInt32(n) == n
  {
  }

  lemma Positive(k: nat)
    ensures Size(k) >= 1
  {
  }

  lemma TopSize()
    ensures Size(MAX_ORDER) == 0x4000_0000
  {
    WordIsPower();
    SmallPowers();
    hide Pow2;
    Sum(8, 8);
    Sum(16, 8);
    Sum(24, 4);
    assert Pow2(30) == 4 * Pow2(28) by { TwoMore(28); }
  }

  lemma TwoMore(k: nat)
    ensures Pow2(k + 2) == 4 * Pow2(k)
  {
  }

  /** With the end wrapped to 0, some order adds the block that ends at the top of memory. */
  lemma {:induction false} WrappedReaches(s: Lists, top: nat, base: nat) returns (j: nat)
    requires top <= MAX_ORDER && TopBase(base)
    ensures ReachesTop(s, AddRegionOrder(s, top, base, 0), j)
    decreases top
  {
    hide AlignUp, AlignDown, BlockCount, Pow2, AddRegionOrder;
    if base > WORD - Size(top) {
      j := WrappedReaches(s, top - 1, base);
      WrappedOrder(s, top, base);
    } else {
      j := top;
      ReachingOrder(s, top, base);
    }
  }

  lemma WrappedOrder(s: Lists, top: nat, base: nat)
    requires top <= MAX_ORDER && WORD - Size(top) < base < WORD
    ensures AddRegionOrder(s, top, base, 0) == AddRegionOrder(s, top - 1, base, 0)
  {
    hide AlignUp, AlignDown, BlockCount, Pow2, AddRegionOrder;
    SizeFits(top);
    WrapsToZero(base, top);
    CountZero(top);
    OneOrder(s, top, base, 0, 0, 0, 0);
  }

  lemma ReachingOrder(s: Lists, top: nat, base: nat)
    requires top <= MAX_ORDER && TopBase(base) && base <= WORD - Size(top)
    ensures ReachesTop(s, AddRegionOrder(s, top, base, 0), top)
  {
    hide AlignUp, AlignDown, BlockCount, Pow2, AddRegionOrder, AddBlocks;
    SizeFits(top);
    ZeroDown(top);
    CountToTop(base, top);
    var up := AlignUp(base, top);
    var nr := BlockCount(top, up, 0);
    Positive(top);
    OneOrder(s, top, base, 0, up, 0, nr);
    var s1 := if base != up then AddRegionOrder(s, top - 1, base, 0) else s;
    if base != up { RegionGrows(s, top - 1, base, 0); }
    GrowsRefl(s);
    LastBlockAdded(s1, top, up, 0, nr, WORD - Size(top));
    MoreLater(s, s1, AddBlocks(s1, top, up, 0, nr), top, WORD - Size(top));
  }

  lemma ZeroDown(k: nat)
    ensures AlignDown(0, k) == 0
  {
    FloorUnique(0, k + 12, 0);
  }

  lemma TopBaseReaches(s: Lists, base: nat, next: nat) returns (j: nat)
    requires TopBase(base) && 0 < next < WORD
    ensures ReachesTop(s, AddRegion(s, base, next), j) && Grows(s, AddRegion(s, base, next))
  {
    hide AlignUp, AlignDown, BlockCount, Pow2, AddRegionOrder;
    var k := MAX_ORDER;
    RegionGrows(s, k, base, next);
    Positive(0);
    SizeFits(k);
    WrapsToZero(base, k);
    j := WrappedReaches(s, k - 1, base);
    var s1 := AddRegionOrder(s, k - 1, base, 0);
    var down := AlignDown(next, k);
    DownFits(next, k);
    OneOrder(s, k, base, next, 0, down, BlockCount(k, 0, down));
    var s2 := if next != down && down >= base
      then AddRegionOrder(s1, k - 1, if down > base then down else base, next) else s1;
    if next != down && down >= base { RegionGrows(s1, k - 1, if down > base then down else base, next); }
    BlocksGrow(s2, k, 0, 0, BlockCount(k, 0, down));
    GrowsTrans(s1, s2, AddBlocks(s2, k, 0, 0, BlockCount(k, 0, down)));
    GrowsReaches(s, s1, AddBlocks(s2, k, 0, 0, BlockCount(k, 0, down)), j);
  }

  lemma SortedCountsOne(l: seq<nat>, a: nat)
    requires L.Sorted(l)
    ensures multiset(l)[a] <= 1
  {
    if a in l {
      var i :| 0 <= i < |l| && l[i] == a;
      assert l == l[..i] + [a] + l[i + 1..];
      assert a !in l[..i] && a !in l[i + 1..];
    }
  }

  lemma ReachingIsNotTiled(s: Lists, r: Lists, base: nat, next: nat, j: nat)
    requires ReachesTop(s, r, j) && Grows(s, r) && next < WORD
    ensures !Tiled(r, s, base, next)
  {
    var b, x := WORD - Size(j), WORD - 1;
    Positive(j);
    assert b in multiset(r[j]);
    assert Has(r, j, b) && InBlock(x, b, j);
    DownFits(next, 0);
    if Tiled(r, s, base, next) {
      assert Covered(r, x);
      TwiceCovered(s, r, j);
      assert false;
    }
  }

  lemma TwiceCovered(s: Lists, r: Lists, j: nat)
    requires ReachesTop(s, r, j) && Grows(s, r) && Covered(s, WORD - 1)
    ensures !WellFormed(r)
  {
    var b, x := WORD - Size(j), WORD - 1;
    Positive(j);
    var i: nat, c: nat :| Has(s, i, c) && InBlock(x, c, i);
    assert c in multiset(s[i]) && multiset(s[i]) <= multiset(r[i]);
    assert b in multiset(r[j]);
    assert Has(r, i, c) && Has(r, j, b) && !Apart(c, i, b, j);
    if i == j && b == c {
      assert multiset(r[j])[b] >= 2;
      if L.Sorted(r[j]) { SortedCountsOne(r[j], b); }
    }
  }

  // ---- Too many blocks ------------------------------------------------------------------------

  /** A block that the loop adds ends where the counted blocks end. */
  lemma {:induction false} AddedBelow(s: Lists, k: nat, start: nat, i: nat, nr: int, j: nat, a: nat)
    requires k <= MAX_ORDER && Has(AddBlocks(s, k, start, i, nr), j, a)
    ensures Has(s, j, a) || (j == k && a + Size(k) <= start + nr * Size(k))
    decreases nr - i
  {
    hide Pow2, L.Insert;
    if i < nr {
      var b := start + i * Size(k);
      AddedBelow(AddBlock(s, k, b), k, start, i + 1, nr, j, a);
      L.InsertMembers(s[k], b, a);
      MulMonotone(i + 1, nr, Size(k));
      assert (i + 1) * Size(k) == i * Size(k) + Size(k);
    }
  }

  lemma NarrowedBelow(n: nat)
    requires n >= 0x8000_0000
    ensures ToInt32(n) < n
  {
  }

  /** The last byte before the last cut stays out of the lists. */
  lemma LastByteLost(s2: Lists, top: nat, up: nat, down: nat)
    requires top <= MAX_ORDER && AtOrder(up, top) && AtOrder(down, top) && down < WORD
    requires Outside(s2, up, down) && down - up >= 0x8000_0000 * Size(top)
    ensures !Covered(AddBlocks(s2, top, up, 0, BlockCount(top, up, down)), down - 1)
  {
    hide Pow2, BlockCount, Aligned, AddBlocks, ToInt32;
    var r := AddBlocks(s2, top, up, 0, BlockCount(top, up, down));
    var n := Quotient(up, down, top);
    var nr := BlockCount(top, up, down);
    CountNarrows(top, up, down, n);
    Positive(top);
    MulMonotone(n + 1, 0x8000_0000, Size(top));
    NarrowedBelow(n);
    MulMonotone(nr + 1, n, Size(top));
    assert (nr + 1) * Size(top) == nr * Size(top) + Size(top);
    forall j: nat, a: nat | Has(r, j, a)
      ensures !InBlock(down - 1, a, j)
    {
      AddedBelow(s2, top, up, 0, nr, j, a);
    }
  }

  lemma UncountedIsNotTiled(s: Lists, base: nat, next: nat)
    requires WellFormed(s) && Region(base, next) && Outside(s, base, next)
    requires !TopBase(base) && !Counted(base, next, MAX_ORDER)
    ensures !Tiled(AddRegion(s, base, next), s, base, next)
  {
    hide Pow2, AlignUp, AlignDown, BlockCount, AddRegionOrder, WellFormed, Aligned, Ceil, Tiled, AddBlocks;
    var k := MAX_ORDER;
    UncountedBase(base, next);
    var up, down := AlignUp(base, k), AlignDown(next, k);
    AlignmentCuts(base, next, k);
    AlignUpIsCeil(base, k);
    var s1 := SeedLeft(s, k, base, next, up, down);
    var s2 := SeedRight(s1, k, base, next, up, down);
    RightStaysRight(s1, s2, base, next, k, up, down);
    OneOrder(s, k, base, next, up, down, BlockCount(k, up, down));
    LastByteLost(s2, k, up, down);
    LostIsNotTiled(AddRegion(s, base, next), s, base, next, up, down);
  }

  /** Such a region starts below the last block of the top order. */
  lemma UncountedBase(base: nat, next: nat)
    requires Region(base, next) && !TopBase(base) && !Counted(base, next, MAX_ORDER)
    ensures base <= next && base + Size(MAX_ORDER) <= WORD
  {
    hide Pow2, Ceil;
    TopSize();
    AlignDownGreatest(next, MAX_ORDER);
    CeilAbove(base, MAX_ORDER);
  }

  lemma CeilAbove(x: nat, k: nat)
    ensures Ceil(x, k) >= x
  {
  }

  lemma LostIsNotTiled(r: Lists, s: Lists, base: nat, next: nat, up: nat, down: nat)
    requires Cuts(base, next, MAX_ORDER, up, down) && up < down && !Covered(r, down - 1)
    ensures !Tiled(r, s, base, next)
  {
    hide Pow2, Aligned, Covered, WellFormed, CeilPage, AlignDown, Seeded;
    AlignedDown(up, 12, MAX_ORDER + 12);
    AlignedDown(down, 12, MAX_ORDER + 12);
    CeilLeast(base);
    AlignDownGreatest(next, 0);
    assert AtOrder(up, 0) && CeilPage(base) <= up;
    assert AtOrder(down, 0) && down <= AlignDown(next, 0);
  }

  // ---- The exact condition ------------------------------------------------------------------

  /** Seeding a region outside the free blocks tiles it exactly when its base does not lie in the
      last block of the top order, short of the last page, and it holds fewer than 2^31 blocks of
      that order. */
  lemma SeedingTilesExactly(s: Lists, base: nat, next: nat)
    requires WellFormed(s) && Region(base, next) && Outside(s, base, next)
    ensures Tiled(AddRegion(s, base, next), s, base, next) <==> !TopBase(base) && Counted(base, next, MAX_ORDER)
  {
    hide Pow2, Tiled, WellFormed, Outside, AddRegion, Counted;
    if TopBase(base) {
      EndPositive(base, next);
      var j := TopBaseReaches(s, base, next);
      ReachingIsNotTiled(s, AddRegion(s, base, next), base, next, j);
    } else if Counted(base, next, MAX_ORDER) {
      SeedingTilesRegion(s, base, next);
    } else {
      UncountedIsNotTiled(s, base, next);
    }
  }

  lemma EndPositive(base: nat, next: nat)
    requires Region(base, next) && TopBase(base)
    ensures next > 0
  {
    TopSize();
    WordIsPower();
  }

  /** The second last page of the address space, seeded alone, brings the last one with it. */
  lemma LastPageSeeded()
    ensures var base, next := WORD - 8192, WORD - 4096;
      var s := Empty();
      && WellFormed(s) && Region(base, next) && Outside(s, base, next)
      && Covered(AddRegion(s, base, next), WORD - 1) && !Tiled(AddRegion(s, base, next), s, base, next)
  {
    hide AddRegion, Tiled;
    var base, next := WORD - 8192, WORD - 4096;
    var s := Empty();
    assert forall k: nat, a: nat :: !Has(s, k, a);
    TopSize();
    WordIsPower();
    hide Pow2;
    var j := TopBaseReaches(s, base, next);
    Positive(j);
    var r := AddRegion(s, base, next);
    assert WORD - Size(j) in multiset(r[j]);
    assert Has(r, j, WORD - Size(j)) && InBlock(WORD - 1, WORD - Size(j), j);
    SeedingTilesExactly(s, base, next);
  }

  /** A region of 2^31 blocks of the top order, seeded into empty lists, leaves them empty. */
  lemma HugeRegionLost()
    ensures var base, next := 0x4000_0000, 0x2000_0000_4000_0000;
      Region(base, next) && AddRegion(Empty(), base, next) == Empty()
  {
    hide Pow2, AlignUp, AlignDown, BlockCount, AddRegionOrder, Aligned;
    var k, base, next, m := MAX_ORDER, 0x4000_0000, 0x2000_0000_4000_0000, 0x8000_0001;
    TopSize();
    MultipleIsAligned(1, Size(k));
    MultipleIsAligned(m, Size(k));
    HugeAligned(base, k);
    HugeAligned(next, k);
    AlignUpLeast(base, k);
    AlignDownGreatest(next, k);
    CountNarrows(k, base, next, 0x8000_0000);
    OneOrder(Empty(), k, base, next, base, next, -0x8000_0000);
  }

  lemma HugeAligned(x: nat, k: nat)
    requires Size(k) > 0 && x % Size(k) == 0
    ensures AtOrder(x, k)
  {
  }
}
