/** Cutting a wired range into runs that are naturally aligned both in the
    virtual and in the physical address: the order computation and the fact
    that always taking the largest run needs the fewest runs. */
module GreedyRuns {
  import opened Basics
  import opened PowersOfTwo

  // ---- The order of the next run ---------------------------------------------------

  /** The source's loop from candidate `k` on, over page numbers and a byte size. */
  function OrderFrom(v: nat, p: nat, size: nat, k: nat): (r: nat)
    ensures r >= k
    decreases size + 1 - (if size < k then size + 1 else k)
  {
    Exceeds(k + 13);
    if !Aligned(v, k + 1) || !Aligned(p, k + 1) || Pow2(k + 13) > size then k
    else OrderFrom(v, p, size, k + 1)
  }

  /** A run of 2^k pages may start here: aligned on both sides and within n pages. */
  predicate Fits(v: nat, p: nat, n: nat, k: nat) {
    Aligned(v, k) && Aligned(p, k) && Pow2(k) <= n
  }

  lemma PagesToBytes(k: nat, n: nat)
    ensures Pow2(k + 12) <= 4096 * n <==> Pow2(k) <= n
  {
    assert Pow2(12) == 4096;
    Sum(k, 12);
  }

  lemma {:induction false} OrderIsLargest(v: nat, p: nat, n: nat, k: nat)
    requires Fits(v, p, n, k)
    ensures var r := OrderFrom(v, p, 4096 * n, k);
      Fits(v, p, n, r) && forall j :: r < j ==> !Fits(v, p, n, j)
    decreases n + 1 - (if n < k then n + 1 else k)
  {
    var r := OrderFrom(v, p, 4096 * n, k);
    PagesToBytes(k + 1, n);
    if r == k {
      forall j | k < j
        ensures !Fits(v, p, n, j)
      {
        Monotone(k + 1, j);
        if Aligned(v, j) { AlignedDown(v, k + 1, j); }
        if Aligned(p, j) { AlignedDown(p, k + 1, j); }
      }
    } else {
      Exceeds(k + 1);
      OrderIsLargest(v, p, n, k + 1);
    }
  }

  lemma OrderFits(v: nat, p: nat, n: nat)
    requires n > 0
    ensures var r := OrderFrom(v, p, 4096 * n, 0);
      Fits(v, p, n, r) && forall j :: r < j ==> !Fits(v, p, n, j)
  {
    OrderIsLargest(v, p, n, 0);
  }

  /** No shift of the loop leaves the 64-bit word: the one exception is a range of 2^63 bytes or
      more at address 0 on both sides. */
  predicate Shifts(addr1: nat, addr2: nat, size: nat) {
    size < HALF_WORD || !Aligned(addr1 / 4096, 52) || !Aligned(addr2 / 4096, 52)
  }

  lemma ShiftFits(addr1: nat, addr2: nat, size: nat, order: nat)
    requires Shifts(addr1, addr2, size) && Pow2(order + 12) <= size
    requires Aligned(addr1 / 4096, order + 1) && Aligned(addr2 / 4096, order + 1)
    ensures order + 13 < 64
  {
    if order >= 51 {
      AlignedDown(addr1 / 4096, 52, order + 1);
      AlignedDown(addr2 / 4096, 52, order + 1);
      Monotone(63, order + 12);
      HalfWordPower();
    }
  }

  lemma SeventhPower()
    ensures Pow2(7) == 128
  {
  }

  lemma HalfWordPower()
    ensures Pow2(63) == HALF_WORD
  {
    hide Pow2;
    SeventhPower();
    Sum(7, 7);
    Sum(14, 14);
    Sum(28, 28);
    Sum(56, 7);
  }

  /** The loop of the source, on byte addresses. */
  method Order(addr1: nat, addr2: nat, size: nat) returns (order: nat)
    requires 4096 <= size && Shifts(addr1, addr2, size)
    ensures order == OrderFrom(addr1 / 4096, addr2 / 4096, size, 0)
    ensures Aligned(addr1 / 4096, order) && Aligned(addr2 / 4096, order) && Pow2(order + 12) <= size
    ensures forall j :: order < j ==>
      !(Aligned(addr1 / 4096, j) && Aligned(addr2 / 4096, j) && Pow2(j + 12) <= size)
  {
    var p1, p2 := addr1 / 4096, addr2 / 4096;
    order := 0;
    assert Pow2(12) == 4096;
    while true
      invariant Aligned(p1, order) && Aligned(p2, order) && Pow2(order + 12) <= size
      invariant OrderFrom(p1, p2, size, 0) == OrderFrom(p1, p2, size, order)
      decreases size - order
    {
      Exceeds(order + 13);
      if p1 % Pow2(order + 1) != 0 {
        break;
      }
      if p2 % Pow2(order + 1) != 0 {
        break;
      }
      ShiftFits(addr1, addr2, size, order);
      assert order + 13 < 64;
      if Pow2(order + 13) > size {
        break;
      }
      order := order + 1;
    }
    forall j | order < j
      ensures !(Aligned(p1, j) && Aligned(p2, j) && Pow2(j + 12) <= size)
    {
      Monotone(order + 13, j + 12);
      if Aligned(p1, j) { AlignedDown(p1, order + 1, j); }
      if Aligned(p2, j) { AlignedDown(p2, order + 1, j); }
    }
  }

  // ---- The runs of a range ------------------------------------------------------------

  /** The orders the wiring loop uses for n pages. */
  function Greedy(v: nat, p: nat, n: nat): (ks: seq<nat>)
    decreases n
  {
    if n == 0 then []
    else
      OrderFits(v, p, n);
      var k := OrderFrom(v, p, 4096 * n, 0);
      [k] + Greedy(v + Pow2(k), p + Pow2(k), n - Pow2(k))
  }

  /** Runs of these orders, one after the other, cover exactly n pages and each may start where it does. */
  predicate Tiles(v: nat, p: nat, n: nat, ks: seq<nat>)
    decreases |ks|
  {
    if ks == [] then n == 0
    else Fits(v, p, n, ks[0]) && Tiles(v + Pow2(ks[0]), p + Pow2(ks[0]), n - Pow2(ks[0]), ks[1..])
  }

  lemma {:induction false} GreedyTiles(v: nat, p: nat, n: nat)
    ensures Tiles(v, p, n, Greedy(v, p, n))
    decreases n
  {
    if n > 0 {
      OrderFits(v, p, n);
      var k := OrderFrom(v, p, 4096 * n, 0);
      GreedyTiles(v + Pow2(k), p + Pow2(k), n - Pow2(k));
    }
  }

  /** Any tiling of a range that starts with an aligned block of 2^k pages, too
      large for a bigger one, splits at the end of that block. */
  lemma {:induction false} SplitAtBlock(v: nat, p: nat, n: nat, ks: seq<nat>, start: nat,
                                        k: nat) returns (rest: seq<nat>)
    requires Tiles(v, p, n, ks)
    requires Aligned(start, k) && start <= v < start + Pow2(k) && start + Pow2(k) <= v + n
    requires v == start ==> ks != [] && ks[0] <= k
    ensures |rest| < |ks|
    ensures Tiles(start + Pow2(k), p + (start + Pow2(k) - v), n - (start + Pow2(k) - v), rest)
    decreases |ks|
  {
    var j := ks[0];
    var w := v + Pow2(j);
    if j >= k && v != start {
      AlignedDown(v, k, j);
      AlignedGap(start, v, k);
    }
    Nest(v, j, start, k);
    if w == start + Pow2(k) {
      rest := ks[1..];
    } else {
      rest := SplitAtBlock(w, p + Pow2(j), n - Pow2(j), ks[1..], start, k);
    }
  }

  /** The wiring loop uses the fewest runs of all ways to cut the range into
      doubly aligned runs. */
  lemma {:induction false} GreedyIsFewest(v: nat, p: nat, n: nat, ks: seq<nat>)
    requires Tiles(v, p, n, ks)
    ensures |Greedy(v, p, n)| <= |ks|
    decreases n
  {
    if n > 0 {
      OrderFits(v, p, n);
      var k := OrderFrom(v, p, 4096 * n, 0);
      var rest := SplitAtBlock(v, p, n, ks, v, k);
      GreedyIsFewest(v + Pow2(k), p + Pow2(k), n - Pow2(k), rest);
    }
  }
}
