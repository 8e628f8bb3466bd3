/** The mapping loop and its rollback depend only on the low 48 bits of the address. */
module WireModulo {
  import opened PowersOfTwo
  import opened ArchMemory
  import opened PageTableModulo
  import opened WirePages
  import G = GreedyRuns
  import P = PageTableModel

  /** Alignments up to 2^36 pages are those of the low 36 bits. */
  lemma AlignedMod(x: nat, k: nat)
    requires k <= 36
    ensures Aligned(x, k) <==> Aligned(x % P.PAGES, k)
  {
    PagesPower();
    Sum(36 - k, k);
    ModOfMultiple(x, Pow2(36 - k), Pow2(k));
  }

  lemma PagesPower()
    ensures Pow2(36) == P.PAGES
  {
    assert Pow2(9) == 512;
    Sum(9, 9);
    Sum(18, 18);
  }

  lemma SmallPower(k: nat)
    requires Pow2(k) <= P.PAGES
    ensures k <= 36
  {
    PagesPower();
    Monotone(if k <= 36 then 0 else 37, if k <= 36 then 0 else k);
  }

  lemma {:induction false} SameOrderFrom(x: nat, y: nat, p: nat, n: nat, k: nat)
    requires Same(x, y) && n <= P.PAGES
    ensures G.OrderFrom(x, p, 4096 * n, k) == G.OrderFrom(y, p, 4096 * n, k)
    decreases n + 1 - (if n < k then n + 1 else k)
  {
    G.PagesToBytes(k + 1, n);
    if Pow2(k + 13) <= 4096 * n {
      Exceeds(k + 1);
      SmallPower(k + 1);
      AlignedMod(x, k + 1);
      AlignedMod(y, k + 1);
      SameOrderFrom(x, y, p, n, k + 1);
    }
  }

  lemma {:induction false} MapRangeSame(s: P.Space, x: nat, y: nat, p: nat, n: nat, flags: Flags, budget: nat)
    requires Same(x, y) && n <= P.PAGES
    ensures MapRange(s, x, p, n, flags, budget) == MapRange(s, y, p, n, flags, budget)
    decreases n
  {
    hide Same, ArchMap, G.OrderFrom, Pow2;
    if n > 0 && budget > 0 {
      SameOrderFrom(x, y, p, n, 0);
      G.OrderFits(x, p, n);
      var k := G.OrderFrom(x, p, 4096 * n, 0);
      var page := Page(4096 * p, k, true);
      ArchSame(s, x, y, page, flags);
      var (t, ok) := ArchMap(s, x, page, flags);
      if ok {
        SameSum(x, y, Pow2(k));
        MapRangeSame(t, x + Pow2(k), y + Pow2(k), p + Pow2(k), n - Pow2(k), flags, budget - 1);
      }
    }
  }

  lemma {:induction false} RollbackSame(s: P.Space, x: nat, y: nat, pages: seq<Page>)
    requires Same(x, y)
    ensures Rollback(s, x, pages) == Rollback(s, y, pages)
    decreases |pages|
  {
    hide Same, ArchUnmap, ArchMap, Pow2;
    if pages != [] {
      var d, rest := Pow2(pages[0].order), pages[1..];
      ArchSame(s, x, y, pages[0], Flags(false, false, false));
      var t := ArchUnmap(s, x, pages[0]);
      assert Rollback(s, x, pages) == Rollback(t, x + d, rest);
      assert Rollback(s, y, pages) == Rollback(t, y + d, rest);
      SameSum(x, y, d);
      RollbackSame(t, x + d, y + d, rest);
    }
  }

  lemma WireRangeSame(s: P.Space, x: nat, y: nat, p: nat, n: nat, flags: Flags, budget: nat)
    requires Same(x, y) && n <= P.PAGES
    ensures MapRange(s, x, p, n, flags, budget) == MapRange(s, y, p, n, flags, budget)
    ensures WireRange(s, x, p, n, flags, budget) == WireRange(s, y, p, n, flags, budget)
  {
    hide Same, MapRange, Rollback;
    MapRangeSame(s, x, y, p, n, flags, budget);
    var (t, pages, ok) := MapRange(s, x, p, n, flags, budget);
    RollbackSame(t, x, y, pages);
  }
}
