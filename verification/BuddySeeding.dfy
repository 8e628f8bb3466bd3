/** Seeding the free lists with a memory region: the recursion over orders
    produces exactly the maximal naturally aligned blocks of the region. */
module BuddySeeding {
  import opened Basics
  import opened PowersOfTwo
  import opened BuddyModel
  import opened BuddyInvariant

  /** The region [base, next) contains the block. */
  predicate Inside(a: nat, k: nat, base: nat, next: nat) {
    base <= a && a + Size(k) <= next
  }

  /** The aligned block of the next order that contains `a`. */
  function Parent(a: nat, k: nat): nat {
    Floor(a, k + 13)
  }

  /** A block of order at most `top` that fits the region while its parent does not. */
  predicate Maximal(k: nat, a: nat, base: nat, next: nat, top: int) {
    && k <= top && AtOrder(a, k) && Inside(a, k, base, next)
    && (k == top || !Inside(Parent(a, k), k + 1, base, next))
  }

  /** No free block reaches into the region. */
  ghost predicate Outside(s: Lists, base: nat, next: nat) {
    forall k: nat, a: nat :: Has(s, k, a) ==> a + Size(k) <= base || next <= a
  }

  // ---- 64-bit arithmetic of one order --------------------------------------------

  lemma WordIsPower()
    ensures WORD == Pow2(64) && Pow2(32) == 0x1_0000_0000 && Pow2(12) == 4096
  {
    hide Pow2;
    SmallPowers();
    Sum(8, 8);
    Sum(4, 8);
    Sum(16, 16);
    Sum(32, 32);
  }

  lemma SmallPowers()
    ensures Pow2(4) == 16 && Pow2(8) == 256
  {
  }

  /** The first address at or above x that is aligned to the order, in unbounded arithmetic. */
  function Ceil(x: nat, k: nat): nat {
    Floor(x + (Size(k) - 1), k + 12)
  }

  lemma AlignUpIsCeil(x: nat, k: nat)
    requires x + Size(k) <= WORD
    ensures AlignUp(x, k) == Ceil(x, k)
  {
  }

  /** `AlignUp` is the least aligned address at or above `x` when nothing wraps. */
  lemma AlignUpLeast(x: nat, k: nat)
    requires x + Size(k) <= WORD
    ensures x <= AlignUp(x, k) < x + Size(k) && AtOrder(AlignUp(x, k), k)
    ensures forall a: nat :: AtOrder(a, k) && x <= a ==> AlignUp(x, k) <= a
  {
    var up := AlignUp(x, k);
    forall a: nat | AtOrder(a, k) && x <= a
      ensures up <= a
    {
      if a < up { AlignedGap(a, up, k + 12); }
    }
  }

  lemma AlignDownGreatest(x: nat, k: nat)
    ensures AlignDown(x, k) <= x < AlignDown(x, k) + Size(k) && AtOrder(AlignDown(x, k), k)
    ensures forall a: nat :: AtOrder(a, k) && a <= x ==> a <= AlignDown(x, k)
  {
    var down := AlignDown(x, k);
    forall a: nat | AtOrder(a, k) && a <= x
      ensures a <= down
    {
      if down < a { AlignedGap(down, a, k + 12); }
    }
  }

  lemma DivideTwice(n: nat, m: nat)
    requires m > 0
    ensures n * (m * 4096) / m / 4096 == n
  {
    assert n * (m * 4096) == (n * 4096) * m;
    ModOfSum(n * 4096, m, 0);
  }

  /** The code counts the blocks of a region right, and then narrows the count to an int. */
  lemma CountNarrows(k: nat, from: nat, to: nat, n: nat)
    requires to < WORD && to == from + n * Size(k)
    ensures BlockCount(k, from, to) == ToInt32(n)
  {
    WordIsPower();
    hide Pow2, ToInt32;
    Sum(k, 12);
    MulMonotone(0, n, Size(k));
    assert (to + WORD - from) % WORD == to - from;
    DivideTwice(n, Pow2(k));
  }

  /** The block count of an ordinary region. */
  lemma CountForward(k: nat, from: nat, to: nat, n: nat)
    requires to < WORD && to == from + n * Size(k) && n < 0x8000_0000
    ensures BlockCount(k, from, to) == n
  {
    hide BlockCount, Pow2;
    CountNarrows(k, from, to, n);
  }

  /** All blocks of the 64-bit space but one. */
  lemma AllButOne(k: nat)
    requires k <= 20
    ensures (Pow2(52 - k) - 1) * Size(k) == WORD - Size(k) && Size(k) == Pow2(k) * 4096
  {
    WordIsPower();
    hide Pow2;
    Sum(k, 12);
    Sum(52 - k, k + 12);
    assert (Pow2(52 - k) - 1) * Size(k) == Pow2(52 - k) * Size(k) - Size(k);
  }

  /** A region inside one block: the difference wraps, and the count narrows to -1. */
  lemma CountWraps(k: nat, from: nat, to: nat)
    requires k <= 20 && from < WORD && from == to + Size(k)
    ensures BlockCount(k, from, to) == -1
  {
    hide Pow2, ToInt32;
    var n := Pow2(52 - k) - 1;
    AllButOne(k);
    assert to + WORD - from == n * Size(k);
    assert (to + WORD - from) % WORD == n * Size(k);
    DivideTwice(n, Pow2(k));
    NarrowsToMinusOne(k);
  }

  lemma NarrowsToMinusOne(k: nat)
    requires k <= 20
    ensures ToInt32(Pow2(52 - k) - 1) == -1
  {
    WordIsPower();
    Sum(20 - k, 32);
    var m := Pow2(20 - k);
    assert m * 0x1_0000_0000 - 1 == (m - 1) * 0x1_0000_0000 + 0xffff_ffff;
    ModOfSum(m - 1, 0x1_0000_0000, 0xffff_ffff);
  }

  // ---- The blocks of one order ------------------------------------------------------

  lemma {:induction false} AddBlocksRange(s: Lists, k: nat, start: nat, i: nat, nr: nat)
    requires WellFormed(s) && k <= MAX_ORDER && i <= nr && start > 0 && AtOrder(start + i * Size(k), k)
    requires Outside(s, start + i * Size(k), start + nr * Size(k))
    ensures var r := AddBlocks(s, k, start, i, nr);
      && WellFormed(r)
      && (forall j: nat, a: nat :: Has(r, j, a) <==>
            Has(s, j, a) || (j == k && AtOrder(a, k) && Inside(a, k, start + i * Size(k), start + nr * Size(k))))
    decreases nr - i
  {
    hide Pow2, WellFormed, Aligned, AddBlock;
    var cur := start + i * Size(k);
    var end := start + nr * Size(k);
    if i == nr {
    } else {
      assert (i + 1) * Size(k) == i * Size(k) + Size(k);
      MulMonotone(i + 1, nr, Size(k));
      MulMonotone(0, i, Size(k));
      PutBlock(s, cur, k);
      var t := AddBlock(s, k, cur);
      AlignedStep(cur, k + 12);
      AddBlocksRange(t, k, start, i + 1, nr);
      forall a: nat
        ensures AtOrder(a, k) && Inside(a, k, cur, end) <==>
            a == cur || (AtOrder(a, k) && Inside(a, k, cur + Size(k), end))
      {
        if AtOrder(a, k) && cur < a { AlignedGap(cur, a, k + 12); }
      }
    }
  }

  // ---- One level of the recursion -----------------------------------------------------

  /** Blocks below order `top`: `top`-aligned cuts neither split nor hide a parent. */
  lemma ParentBelowCut(k: nat, a: nat, top: nat, cut: nat)
    requires k < top && AtOrder(a, k) && AtOrder(cut, top) && a < cut
    ensures Parent(a, k) + Size(k + 1) <= cut && a + Size(k) <= cut
  {
    Nest(a, k + 12, Parent(a, k), k + 13);
    AlignedDown(cut, k + 13, top + 12);
    AlignedGap(Parent(a, k), cut, k + 13);
  }

  lemma ParentAboveCut(k: nat, a: nat, top: nat, cut: nat)
    requires k < top && AtOrder(a, k) && AtOrder(cut, top) && cut <= a
    ensures cut <= Parent(a, k)
  {
    AlignedDown(cut, k + 13, top + 12);
    if Parent(a, k) < cut { AlignedGap(Parent(a, k), cut, k + 13); }
  }

  /** The first and last multiples of the order's block size around a region. */
  predicate Cuts(base: nat, next: nat, top: nat, up: nat, down: nat) {
    && AtOrder(up, top) && base <= up < base + Size(top)
    && AtOrder(down, top) && down <= next < down + Size(top)
    && (up <= down || up == down + Size(top))
  }

  lemma AlignmentCuts(base: nat, next: nat, top: nat)
    requires base <= next && base + Size(top) <= WORD
    ensures Cuts(base, next, top, AlignUp(base, top), AlignDown(next, top))
  {
    var up, down := AlignUp(base, top), AlignDown(next, top);
    AlignUpLeast(base, top);
    AlignDownGreatest(next, top);
    if down < up {
      AlignedGap(down, up, top + 12);
      if down + Size(top) < up {
        AlignedStep(down, top + 12);
        AlignedGap(down + Size(top), up, top + 12);
      }
    }
  }

  predicate InLeft(k: nat, a: nat, base: nat, next: nat, top: nat, up: nat) {
    base != up && Maximal(k, a, base, if up < next then up else next, top - 1)
  }

  predicate InRight(k: nat, a: nat, base: nat, next: nat, top: nat, down: nat) {
    next != down && down >= base && Maximal(k, a, down, next, top - 1)
  }

  predicate InMiddle(k: nat, a: nat, top: nat, up: nat, down: nat) {
    k == top && AtOrder(a, k) && Inside(a, k, up, down)
  }

  lemma LeftIsMaximal(k: nat, a: nat, base: nat, next: nat, top: nat, up: nat, down: nat)
    requires Cuts(base, next, top, up, down) && InLeft(k, a, base, next, top, up)
    ensures Maximal(k, a, base, next, top)
  {
    ParentBelowCut(k, a, top, up);
  }

  lemma RightIsMaximal(k: nat, a: nat, base: nat, next: nat, top: nat, up: nat, down: nat)
    requires Cuts(base, next, top, up, down) && InRight(k, a, base, next, top, down)
    ensures Maximal(k, a, base, next, top)
  {
    ParentAboveCut(k, a, top, down);
  }

  lemma MiddleIsMaximal(k: nat, a: nat, base: nat, next: nat, top: nat, up: nat, down: nat)
    requires Cuts(base, next, top, up, down) && InMiddle(k, a, top, up, down)
    ensures Maximal(k, a, base, next, top)
  {
  }

  lemma MaximalIsInPart(k: nat, a: nat, base: nat, next: nat, top: nat, up: nat, down: nat)
    requires Cuts(base, next, top, up, down) && Maximal(k, a, base, next, top)
    ensures InLeft(k, a, base, next, top, up) || InRight(k, a, base, next, top, down) || InMiddle(k, a, top, up, down)
  {
    if k == top {
      TopBlockBetweenCuts(a, base, next, top, up, down);
    } else if a < up {
      ParentBelowCut(k, a, top, up);
    } else {
      // past the first cut; below the last one its parent would fit
      ParentAboveCut(k, a, top, up);
      if a < down { ParentBelowCut(k, a, top, down); }
    }
  }

  lemma TopBlockBetweenCuts(a: nat, base: nat, next: nat, top: nat, up: nat, down: nat)
    requires Cuts(base, next, top, up, down) && AtOrder(a, top) && Inside(a, top, base, next)
    ensures Inside(a, top, up, down)
  {
    if a < up { AlignedGap(a, up, top + 12); }
    AlignedStep(a, top + 12);
    if down < a + Size(top) { AlignedGap(down, a + Size(top), top + 12); }
  }

  // ---- The whole recursion ----------------------------------------------------------------

  /** `r` is `s` with the maximal blocks of the region added. */
  ghost predicate Seeded(r: Lists, s: Lists, base: nat, next: nat, top: int) {
    forall j: nat, a: nat :: Has(r, j, a) <==> Has(s, j, a) || Maximal(j, a, base, next, top)
  }

  lemma SeedMiddle(s2: Lists, top: nat, up: nat, down: nat)
    requires WellFormed(s2) && top <= MAX_ORDER && 0 < up < WORD && down < WORD
    requires AtOrder(up, top) && AtOrder(down, top) && (up <= down || up == down + Size(top))
    requires up <= down ==> Outside(s2, up, down) && down - up < 0x8000_0000 * Size(top)
    ensures var r := AddBlocks(s2, top, up, 0, BlockCount(top, up, down));
      && WellFormed(r)
      && (forall j: nat, a: nat :: Has(r, j, a) <==> Has(s2, j, a) || InMiddle(j, a, top, up, down))
  {
    if down < up {
      CountWraps(top, up, down);
    } else {
      var n := Quotient(up, down, top);
      MulMonotone(0x8000_0000, n, Size(top));
      CountForward(top, up, down, n);
      AddBlocksRange(s2, top, up, 0, n);
    }
  }

  function Quotient(from: nat, to: nat, k: nat): (n: nat)
    requires AtOrder(from, k) && AtOrder(to, k) && from <= to
    ensures to == from + n * Size(k)
  {
    var m := Size(k);
    assert from == (from / m) * m && to == (to / m) * m;
    MulMonotone(to / m + 1, from / m, m);
    assert (to / m - from / m) * m == (to / m) * m - (from / m) * m;
    to / m - from / m
  }

  lemma RoomAbove(down: nat, top: nat)
    requires top <= MAX_ORDER && AtOrder(down, top) && down < WORD
    ensures down + Size(top) <= WORD
  {
    WordIsPower();
    assert Aligned(Pow2(64), 64);
    AlignedDown(Pow2(64), top + 12, 64);
    AlignedGap(down, WORD, top + 12);
  }

  /** The left part stays clear of the right part and of the middle. */
  lemma LeftStaysLeft(s: Lists, s1: Lists, base: nat, next: nat, top: nat, up: nat, down: nat)
    requires Cuts(base, next, top, up, down) && Outside(s, base, next)
    requires if base != up then Seeded(s1, s, base, if up < next then up else next, top - 1) else s1 == s
    ensures up <= down ==> Outside(s1, up, next)
  {
  }

  lemma RightStaysRight(s1: Lists, s2: Lists, base: nat, next: nat, top: nat, up: nat, down: nat)
    requires Cuts(base, next, top, up, down)
    requires up <= down ==> Outside(s1, up, next)
    requires if next != down && down >= base then Seeded(s2, s1, down, next, top - 1) else s2 == s1
    ensures up <= down ==> Outside(s2, up, down)
  {
  }

  lemma PartsAreSeeded(s: Lists, s1: Lists, s2: Lists, r: Lists, base: nat, next: nat, top: nat, up: nat, down: nat)
    requires Cuts(base, next, top, up, down)
    requires if base != up then Seeded(s1, s, base, if up < next then up else next, top - 1) else s1 == s
    requires if next != down && down >= base then Seeded(s2, s1, down, next, top - 1) else s2 == s1
    requires forall j: nat, a: nat :: Has(r, j, a) <==> Has(s2, j, a) || InMiddle(j, a, top, up, down)
    ensures Seeded(r, s, base, next, top)
  {
    forall j: nat, a: nat
      ensures Has(r, j, a) <==> Has(s, j, a) || Maximal(j, a, base, next, top)
    {
      if Maximal(j, a, base, next, top) { MaximalIsInPart(j, a, base, next, top, up, down); }
      if InLeft(j, a, base, next, top, up) { LeftIsMaximal(j, a, base, next, top, up, down); }
      if InRight(j, a, base, next, top, down) { RightIsMaximal(j, a, base, next, top, up, down); }
      if InMiddle(j, a, top, up, down) { MiddleIsMaximal(j, a, base, next, top, up, down); }
    }
  }

  /** The count of the blocks of order `top` inside the region fits a C int. */
  predicate Counted(base: nat, next: nat, top: nat) {
    AlignDown(next, top) - Ceil(base, top) < 0x8000_0000 * Size(top)
  }

  lemma ShortIsCounted(base: nat, next: nat, top: nat)
    requires next - base < 0x8000_0000 * Size(top)
    ensures Counted(base, next, top)
  {
    hide Pow2;
    AlignDownGreatest(next, top);
  }

  /** Seeding at orders up to `top` adds exactly the maximal blocks. */
  lemma {:induction false} SeedOrder(s: Lists, top: int, base: nat, next: nat)
    requires WellFormed(s) && -1 <= top <= MAX_ORDER
    requires 0 < base <= next < WORD && Outside(s, base, next)
    requires top >= 0 ==> base + Size(top) <= WORD && Counted(base, next, top)
    ensures WellFormed(AddRegionOrder(s, top, base, next))
    ensures Seeded(AddRegionOrder(s, top, base, next), s, base, next, top)
    decreases top + 1, 0
  {
    if top >= 0 {
      var up, down := AlignUp(base, top), AlignDown(next, top);
      AlignmentCuts(base, next, top);
      AlignUpIsCeil(base, top);
      var s1 := SeedLeft(s, top, base, next, up, down);
      var s2 := SeedRight(s1, top, base, next, up, down);
      RightStaysRight(s1, s2, base, next, top, up, down);
      SeedMiddle(s2, top, up, down);
      PartsAreSeeded(s, s1, s2, AddRegionOrder(s, top, base, next), base, next, top, up, down);
    }
  }

  lemma SmallerSize(top: nat)
    ensures top >= 1 ==> Size(top) == 2 * Size(top - 1)
  {
  }

  lemma SeedLeft(s: Lists, top: nat, base: nat, next: nat, up: nat, down: nat) returns (s1: Lists)
    requires WellFormed(s) && top <= MAX_ORDER
    requires 0 < base <= next < WORD && Outside(s, base, next)
    requires base + Size(top) <= WORD && Cuts(base, next, top, up, down)
    ensures WellFormed(s1)
    ensures base != up ==> s1 == AddRegionOrder(s, top - 1, base, if up < next then up else next)
    ensures if base != up then Seeded(s1, s, base, if up < next then up else next, top - 1) else s1 == s
    ensures up <= down ==> Outside(s1, up, next)
    decreases top, 1
  {
    s1 := s;
    if base != up {
      SmallerSize(top);
      if top > 0 { ShortIsCounted(base, if up < next then up else next, top - 1); }
      SeedOrder(s, top - 1, base, if up < next then up else next);
      s1 := AddRegionOrder(s, top - 1, base, if up < next then up else next);
    }
    LeftStaysLeft(s, s1, base, next, top, up, down);
  }

  lemma SeedRight(s1: Lists, top: nat, base: nat, next: nat, up: nat, down: nat) returns (s2: Lists)
    requires WellFormed(s1) && top <= MAX_ORDER
    requires 0 < base <= next < WORD && Cuts(base, next, top, up, down)
    requires up <= down ==> Outside(s1, up, next)
    ensures WellFormed(s2)
    ensures if next != down && down >= base
      then s2 == AddRegionOrder(s1, top - 1, down, next) && Seeded(s2, s1, down, next, top - 1)
      else s2 == s1
    decreases top, 1
  {
    s2 := s1;
    if next != down && down >= base {
      SmallerSize(top);
      assert up <= down && Outside(s1, down, next);
      RoomAbove(down, top);
      if top > 0 { ShortIsCounted(down, next, top - 1); }
      SeedOrder(s1, top - 1, down, next);
      s2 := AddRegionOrder(s1, top - 1, down, next);
    }
  }

  // ---- What seeding means ----------------------------------------------------------------

  /** From any block of the region one reaches a maximal block around it. */
  lemma {:induction false} Climb(x: nat, k: nat, a: nat, base: nat, next: nat) returns (j: nat, b: nat)
    requires k <= MAX_ORDER && AtOrder(a, k) && Inside(a, k, base, next) && InBlock(x, a, k)
    ensures Maximal(j, b, base, next, MAX_ORDER) && InBlock(x, b, j)
    decreases MAX_ORDER - k
  {
    if Maximal(k, a, base, next, MAX_ORDER) {
      j, b := k, a;
    } else {
      Nest(a, k + 12, Parent(a, k), k + 13);
      j, b := Climb(x, k + 1, Parent(a, k), base, next);
    }
  }

  /** The first page boundary at or above x. */
  function CeilPage(x: nat): nat {
    Ceil(x, 0)
  }

  lemma CeilLeast(x: nat)
    ensures x <= CeilPage(x) < x + Size(0) && AtOrder(CeilPage(x), 0)
    ensures forall a: nat :: AtOrder(a, 0) && x <= a ==> CeilPage(x) <= a
  {
    var up := CeilPage(x);
    forall a: nat | AtOrder(a, 0) && x <= a
      ensures up <= a
    {
      if a < up { AlignedGap(a, up, 12); }
    }
  }

  /** The maximal blocks tile exactly the page-aligned interior of the region. */
  lemma MaximalBlocksTile(base: nat, next: nat, x: nat)
    ensures (exists k: nat, a: nat :: Maximal(k, a, base, next, MAX_ORDER) && InBlock(x, a, k)) <==>
      CeilPage(base) <= x < AlignDown(next, 0)
  {
    CeilLeast(base);
    AlignDownGreatest(next, 0);
    TileBetween(base, next, x, CeilPage(base), AlignDown(next, 0));
  }

  lemma TileBetween(base: nat, next: nat, x: nat, lo: nat, hi: nat)
    requires AtOrder(lo, 0) && base <= lo && forall a: nat :: AtOrder(a, 0) && base <= a ==> lo <= a
    requires AtOrder(hi, 0) && hi <= next && forall a: nat :: AtOrder(a, 0) && a <= next ==> a <= hi
    ensures (exists k: nat, a: nat :: Maximal(k, a, base, next, MAX_ORDER) && InBlock(x, a, k)) <==> lo <= x < hi
  {
    forall k: nat, a: nat | Maximal(k, a, base, next, MAX_ORDER) && InBlock(x, a, k)
      ensures lo <= x < hi
    {
      AlignedDown(a, 12, k + 12);
      AlignedStep(a, k + 12);
      AlignedDown(a + Size(k), 12, k + 12);
      assert AtOrder(a, 0) && AtOrder(a + Size(k), 0);
    }
    if lo <= x < hi {
      PageBetween(x, lo, hi);
      var k, a := Climb(x, 0, Floor(x, 12), base, next);
    }
  }

  lemma PageBetween(x: nat, lo: nat, hi: nat)
    requires AtOrder(lo, 0) && AtOrder(hi, 0) && lo <= x < hi
    ensures lo <= Floor(x, 12) && Floor(x, 12) + Size(0) <= hi
  {
    if Floor(x, 12) < lo { AlignedGap(Floor(x, 12), lo, 12); }
    AlignedGap(Floor(x, 12), hi, 12);
  }

  /** No two maximal blocks below the top order are buddies. */
  lemma MaximalBlocksUnpaired(k: nat, a: nat, base: nat, next: nat)
    requires k < MAX_ORDER && AtOrder(a, k + 1) && Maximal(k, a, base, next, MAX_ORDER)
    ensures !Maximal(k, a + Size(k), base, next, MAX_ORDER)
  {
    FloorUnique(a, k + 13, a);
    assert Size(k + 1) == 2 * Size(k);
  }

  /** A region as the memory map gives it; from an entry inside one page, rounded to a base
      one page past its end. */
  predicate Region(base: nat, next: nat) {
    && 0 < base < WORD && next < WORD
    && (base <= next || (base == next + Size(0) && AtOrder(base, 0)))
  }

  /** A base in the last block of the top order, but not in the last page: rounding it up wraps. */
  predicate TopBase(base: nat) {
    WORD - Size(MAX_ORDER) < base <= WORD - Size(0)
  }

  predicate Seedable(base: nat, next: nat) {
    Region(base, next) && !TopBase(base) && Counted(base, next, MAX_ORDER)
  }

  lemma NoBlocks(s: Lists, base: nat, next: nat)
    requires base > next || base > WORD - Size(0)
    requires next < WORD
    ensures Seeded(s, s, base, next, MAX_ORDER)
  {
    forall j: nat, a: nat ensures !Maximal(j, a, base, next, MAX_ORDER) {
      if AtOrder(a, j) && base <= a < WORD {
        AlignedDown(a, 12, j + 12);
        RoomAbove(a, 0);
      }
    }
  }

  /** A region that ends one page before it begins adds nothing. */
  lemma {:induction false} NothingInGap(s: Lists, top: int, base: nat, next: nat)
    requires -1 <= top <= MAX_ORDER && 0 < base < WORD && base == next + Size(0) && AtOrder(base, 0)
    requires top >= 0 ==> base + Size(top) <= WORD
    ensures AddRegionOrder(s, top, base, next) == s
    decreases top + 1
  {
    if top >= 0 {
      GapCuts(base, next, top);
      var up, down := AlignUp(base, top), AlignDown(next, top);
      CountWraps(top, up, down);
      if base != up {
        SmallerSize(top);
        NothingInGap(s, top - 1, base, next);
      }
    }
  }

  lemma GapCuts(base: nat, next: nat, top: nat)
    requires base == next + Size(0) && AtOrder(base, 0) && base + Size(top) <= WORD
    ensures var up, down := AlignUp(base, top), AlignDown(next, top);
      up == down + Size(top) && down <= next < base <= up < WORD && (top == 0 ==> base == up)
  {
    var up, down := AlignUp(base, top), AlignDown(next, top);
    AlignUpLeast(base, top);
    AlignDownGreatest(next, top);
    AlignedGap(down, up, top + 12);
    AlignedStep(down, top + 12);
    if down + Size(top) < up { AlignedGap(down + Size(top), up, top + 12); }
    AlignedDown(down + Size(top), 12, top + 12);
    if base > down + Size(top) { AlignedGap(down + Size(top), base, 12); }
  }

  /** One level of the recursion, with its cuts and its block count known. */
  lemma OneOrder(s: Lists, top: nat, base: nat, next: nat, up: nat, down: nat, nr: int)
    requires top <= MAX_ORDER && base < WORD && next < WORD && up < WORD
    requires up == AlignUp(base, top) && down == AlignDown(next, top) && nr == BlockCount(top, up, down)
    ensures var s1 := if base != up then AddRegionOrder(s, top - 1, base, if up < next then up else next) else s;
      var s2 := if next != down && down >= base
        then AddRegionOrder(s1, top - 1, if down > base then down else base, next) else s1;
      AddRegionOrder(s, top, base, next) == AddBlocks(s2, top, up, 0, nr)
  {
    hide AlignUp, AlignDown, BlockCount, Pow2;
  }

  /** With its end wrapped to 0, a base in the last page adds nothing. */
  lemma {:induction false} NothingInLastPage(s: Lists, top: int, base: nat)
    requires -1 <= top <= MAX_ORDER && WORD - Size(0) < base < WORD
    ensures AddRegionOrder(s, top, base, 0) == s
    decreases top + 1
  {
    hide AlignUp, AlignDown, BlockCount, Pow2;
    if top >= 0 {
      NothingInLastPage(s, top - 1, base);
      LastPageStep(s, top, base);
    }
  }

  lemma LastPageStep(s: Lists, top: nat, base: nat)
    requires top <= MAX_ORDER && WORD - Size(0) < base < WORD && AddRegionOrder(s, top - 1, base, 0) == s
    ensures AddRegionOrder(s, top, base, 0) == s
  {
    hide AlignUp, AlignDown, BlockCount, Pow2, AddRegionOrder;
    Monotone(12, top + 12);
    WrapsToZero(base, top);
    CountZero(top);
    OneOrder(s, top, base, 0, 0, 0, 0);
  }

  lemma WrapOnce(x: nat)
    requires WORD <= x < 2 * WORD
    ensures x % WORD == x - WORD
  {
  }

  lemma CountZero(k: nat)
    ensures BlockCount(k, 0, 0) == 0
  {
    DivideTwice(0, Pow2(k));
  }

  lemma SizeFits(k: nat)
    requires k <= 20
    ensures Size(k) <= WORD
  {
    WordIsPower();
    Monotone(k + 12, 64);
  }

  /** Rounding up past the top of memory wraps to 0. */
  lemma WrapsToZero(base: nat, k: nat)
    requires k <= MAX_ORDER && WORD - Size(k) < base < WORD
    ensures AlignUp(base, k) == 0 && AlignDown(0, k) == 0
  {
    SizeFits(k);
    WrapOnce(base + (Size(k) - 1));
    assert Aligned(0, k + 12);
    FloorUnique(base + Size(k) - 1 - WORD, k + 12, 0);
    FloorUnique(0, k + 12, 0);
  }

  lemma LastPageAddsNothing(s: Lists, base: nat, next: nat)
    requires WORD - Size(0) < base <= next < WORD
    ensures AddRegion(s, base, next) == s
  {
    hide AlignUp, AlignDown, BlockCount, Pow2;
    var k := MAX_ORDER;
    Monotone(12, k + 12);
    WrapsToZero(base, k);
    NothingInLastPage(s, k - 1, base);
    TopFloor(base, next, k);
    TopCount(k);
    OneOrder(s, k, base, next, 0, WORD - Size(k), -1);
  }

  lemma TopFloor(base: nat, next: nat, k: nat)
    requires k <= MAX_ORDER && WORD - Size(0) < base <= next < WORD
    ensures Size(k) <= WORD && AlignDown(next, k) == WORD - Size(k) < base
  {
    hide Pow2, AlignDown;
    SizeFits(k);
    Monotone(12, k + 12);
    AlignDownGreatest(next, k);
    RoomAbove(AlignDown(next, k), k);
    TopAligned(k);
    assert WORD - Size(k) <= AlignDown(next, k);
  }

  lemma TopAligned(k: nat)
    requires k <= MAX_ORDER
    ensures Size(k) <= WORD && AtOrder(WORD - Size(k), k)
  {
    hide Pow2;
    SizeFits(k);
    WordIsPower();
    Sum(52 - k, k + 12);
    assert WORD - Size(k) == (Pow2(52 - k) - 1) * Size(k) by {
      assert (Pow2(52 - k) - 1) * Size(k) == Pow2(52 - k) * Size(k) - Size(k);
    }
    MultipleIsAligned(Pow2(52 - k) - 1, Size(k));
  }

  lemma TopCount(k: nat)
    requires k <= 20
    ensures Size(k) <= WORD && BlockCount(k, 0, WORD - Size(k)) == -1
  {
    SizeFits(k);
    WrapOnce(WORD - Size(k) + WORD - 0);
    WordIsPower();
    Sum(k, 12);
    Sum(52 - k, k + 12);
    var n := Pow2(52 - k) - 1;
    assert n * Size(k) == WORD - Size(k) by {
      assert (Pow2(52 - k) - 1) * Size(k) == Pow2(52 - k) * Size(k) - Size(k);
    }
    DivideTwice(n, Pow2(k));
    NarrowsToMinusOne(k);
  }

  /** The maximal blocks of the region are added and no others, the lists stay well formed,
      and exactly the page-aligned interior of the region becomes free. */
  ghost predicate Tiled(r: Lists, s: Lists, base: nat, next: nat) {
    && WellFormed(r) && Seeded(r, s, base, next, MAX_ORDER)
    && forall x: nat :: Covered(r, x) <==> Covered(s, x) || CeilPage(base) <= x < AlignDown(next, 0)
  }

  lemma SeedingTilesRegion(s: Lists, base: nat, next: nat)
    requires WellFormed(s) && Seedable(base, next) && Outside(s, base, next)
    ensures Tiled(AddRegion(s, base, next), s, base, next)
  {
    hide WellFormed, AlignUp, AlignDown, Maximal, CeilPage;
    var r := AddRegion(s, base, next);
    SeedsMaximal(s, base, next);
    forall x: nat
      ensures Covered(r, x) <==> Covered(s, x) || CeilPage(base) <= x < AlignDown(next, 0)
    {
      MaximalBlocksTile(base, next, x);
      if Covered(r, x) {
        var k: nat, a: nat :| Has(r, k, a) && InBlock(x, a, k);
        assert Has(s, k, a) || Maximal(k, a, base, next, MAX_ORDER);
      }
      if Covered(s, x) {
        var k: nat, a: nat :| Has(s, k, a) && InBlock(x, a, k);
        assert Has(r, k, a);
      }
      if CeilPage(base) <= x < AlignDown(next, 0) {
        var k: nat, a: nat :| Maximal(k, a, base, next, MAX_ORDER) && InBlock(x, a, k);
        assert Has(r, k, a);
      }
    }
  }

  lemma SeedsMaximal(s: Lists, base: nat, next: nat)
    requires WellFormed(s) && Seedable(base, next) && Outside(s, base, next)
    ensures WellFormed(AddRegion(s, base, next)) && Seeded(AddRegion(s, base, next), s, base, next, MAX_ORDER)
  {
    hide WellFormed, AlignUp, AlignDown, Maximal, Pow2;
    if base > WORD - Size(0) {
      if base > next { RoomAbove(base, 0); } else { LastPageAddsNothing(s, base, next); }
      NoBlocks(s, base, next);
    } else if base > next {
      NothingInGap(s, MAX_ORDER, base, next);
      NoBlocks(s, base, next);
    } else {
      SeedOrder(s, MAX_ORDER, base, next);
    }
  }

  /** A free block and a block of the new region are buddies. */
  ghost predicate AbutsAsBuddy(s: Lists, base: nat, next: nat) {
    exists k: nat, a: nat :: k < MAX_ORDER && Maximal(k, a, base, next, MAX_ORDER) && Has(s, k, Buddy(a, k))
  }

  /** Seeding does not merge: it keeps coalesced lists coalesced exactly when no
      free block is the buddy of a block of the new region.  In particular the
      first region seeded into empty lists gives the canonical form. */
  lemma SeedingCanonicalExactly(s: Lists, base: nat, next: nat)
    requires Canonical(s) && Seedable(base, next) && Outside(s, base, next)
    ensures Canonical(AddRegion(s, base, next)) <==> !AbutsAsBuddy(s, base, next)
  {
    hide WellFormed, Covered, AddRegion, Outside, Pow2, Aligned, Parent, Inside;
    var r := AddRegion(s, base, next);
    SeedingTilesRegion(s, base, next);
    if AbutsAsBuddy(s, base, next) {
      var k: nat, a: nat :| k < MAX_ORDER && Maximal(k, a, base, next, MAX_ORDER) && Has(s, k, Buddy(a, k));
      var b := Buddy(a, k);
      assert Has(r, k, a) && Has(r, k, b);
      assert Has(r, k, Lower(a, b)) && Has(r, k, Lower(a, b) + Size(k));
      assert !PairFree(r);
    } else {
      forall k: nat, a: nat | k < MAX_ORDER && Has(r, k, a) && AtOrder(a, k + 1)
        ensures !Has(r, k, a + Size(k))
      {
        BuddyOfLower(a, k);
        if Maximal(k, a, base, next, MAX_ORDER) { MaximalBlocksUnpaired(k, a, base, next); }
      }
    }
  }

  function Empty(): (s: Lists) {
    seq(MAX_ORDER + 1, i => [])
  }

  lemma FirstRegionCanonical(base: nat, next: nat)
    requires Seedable(base, next)
    ensures Canonical(AddRegion(Empty(), base, next))
    ensures forall x: nat :: Covered(AddRegion(Empty(), base, next), x) <==> CeilPage(base) <= x < AlignDown(next, 0)
  {
    assert forall k: nat, a: nat :: !Has(Empty(), k, a);
    SeedingTilesRegion(Empty(), base, next);
    SeedingCanonicalExactly(Empty(), base, next);
  }

  /** Two abutting pages that are buddies, seeded one after the other, stay unmerged. */
  lemma AbuttingPages()
    ensures var s := AddRegion(Empty(), 0x20_0000, 0x20_1000);
      && Canonical(s) && Seedable(0x20_1000, 0x20_2000) && Outside(s, 0x20_1000, 0x20_2000)
      && !Canonical(AddRegion(s, 0x20_1000, 0x20_2000))
  {
    hide Pow2, AddRegion, AlignDown, CeilPage, Canonical, Covered, WellFormed, Outside, Maximal, Seedable, Aligned;
    var a, b, c := 0x20_0000, 0x20_1000, 0x20_2000;
    SmallSizes();
    LowRegion(a, b);
    LowRegion(b, c);
    FirstRegionCanonical(a, b);
    var s := AddRegion(Empty(), a, b);
    assert Seeded(s, Empty(), a, b, MAX_ORDER) by { EmptyLists(a, b); SeedingTilesRegion(Empty(), a, b); }
    SeededBelow(s, a, b, c);
    PageIsMaximal(a, a, b);
    PageIsMaximal(b, b, c);
    BuddyOfLower(a, 0);
    assert Has(s, 0, a) && AbutsAsBuddy(s, b, c);
    SeedingCanonicalExactly(s, b, c);
  }

  lemma LowRegion(base: nat, next: nat)
    requires 0 < base <= next <= 0x1_0000_0000 && Size(MAX_ORDER) == 0x4000_0000
    ensures Seedable(base, next)
  {
  }

  lemma EmptyLists(base: nat, next: nat)
    ensures WellFormed(Empty()) && Outside(Empty(), base, next)
  {
    assert forall k: nat, a: nat :: !Has(Empty(), k, a);
  }

  /** Blocks seeded into empty lists stay below the end of their region. */
  lemma SeededBelow(s: Lists, base: nat, next: nat, end: nat)
    requires Seeded(s, Empty(), base, next, MAX_ORDER)
    ensures Outside(s, next, end)
  {
    assert forall k: nat, a: nat :: !Has(Empty(), k, a);
  }

  lemma SmallSizes()
    ensures Size(0) == 4096 && Size(1) == 8192 && Size(MAX_ORDER) == 0x4000_0000
    ensures AtOrder(0x20_0000, 0) && AtOrder(0x20_0000, 1) && AtOrder(0x20_1000, 0)
    ensures Parent(0x20_0000, 0) == 0x20_0000 && Parent(0x20_1000, 0) == 0x20_0000
  {
    SmallPowers();
    Sum(4, 8);
    Sum(8, 8);
    Sum(16, 8);
    Sum(24, 4);
    Sum(28, 2);
    assert Pow2(2) == 4 && Pow2(13) == 2 * Pow2(12);
    hide Pow2;
    FloorUnique(0x20_0000, 13, 0x20_0000);
    FloorUnique(0x20_1000, 13, 0x20_0000);
  }

  lemma PageIsMaximal(page: nat, base: nat, next: nat)
    requires page == base && next == base + 4096 && AtOrder(page, 0) && Size(0) == 4096 && Size(1) == 8192
    ensures Maximal(0, page, base, next, MAX_ORDER)
  {
  }
}
