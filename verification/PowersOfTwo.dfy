/** Powers of two and natural alignment, shared by the buddy lists, the page
    table runs and the wiring loop. */
module PowersOfTwo {

  function Pow2(k: nat): (r: nat)
    ensures r > 0
  {
    if k == 0 then 1 else 2 * Pow2(k - 1)
  }

  /** `a` is a multiple of 2^k. */
  predicate Aligned(a: nat, k: nat) {
    a % Pow2(k) == 0
  }

  lemma {:induction false} Monotone(j: nat, k: nat)
    requires j <= k
    ensures Pow2(j) <= Pow2(k)
    ensures j < k ==> 2 * Pow2(j) <= Pow2(k)
    decreases k - j
  {
    if j < k {
      Monotone(j, k - 1);
    }
  }

  lemma {:induction false} Exceeds(k: nat)
    ensures k < Pow2(k)
  {
    if k > 0 { Exceeds(k - 1); }
  }

  lemma {:induction false} Sum(j: nat, k: nat)
    ensures Pow2(j + k) == Pow2(j) * Pow2(k)
  {
    if j > 0 {
      Sum(j - 1, k);
      assert Pow2(j + k) == 2 * Pow2(j - 1 + k);
      assert 2 * (Pow2(j - 1) * Pow2(k)) == (2 * Pow2(j - 1)) * Pow2(k);
    }
  }

  lemma MulMonotone(a: int, b: int, m: nat)
    ensures a <= b ==> a * m <= b * m
  {
  }

  lemma MultipleIsAligned(q: nat, m: nat)
    requires m > 0
    ensures (q * m) % m == 0
  {
    assert (q * m + 0) % m == 0 by { ModOfSum(q, m, 0); }
  }

  lemma {:induction false} ModOfSum(q: nat, m: nat, r: nat)
    requires m > 0 && r < m
    ensures (q * m + r) % m == r && (q * m + r) / m == q
  {
    var x := q * m + r;
    var d, t := x / m, x % m;
    assert x == d * m + t;
    MulMonotone(d + 1, q, m);
    MulMonotone(q + 1, d, m);
  }

  lemma Distribute(a: nat, b: nat, m: nat)
    ensures (a + b) * m == a * m + b * m
  {
  }

  /** Reducing modulo a multiple of m first does not change the remainder by m. */
  lemma ModOfMultiple(x: nat, c: nat, m: nat)
    requires c > 0 && m > 0 && c * m > 0
    ensures x % (c * m) % m == x % m
  {
    var big := c * m;
    var q, r := x / big, x % big;
    DivisionOf(x, big);
    var a, b := r / m, r % m;
    DivisionOf(r, m);
    Regroup(q, c, m);
    Distribute(q * c, a, m);
    ModOfSum(q * c + a, m, b);
  }

  lemma DivisionOf(x: nat, m: nat)
    requires m > 0
    ensures x == x / m * m + x % m && x / m >= 0 && 0 <= x % m < m
  {
  }

  lemma Regroup(q: nat, c: nat, m: nat)
    ensures q * (c * m) == q * c * m && q * c >= 0
  {
  }

  /** Being a multiple of 2^k is being a multiple of every smaller power. */
  lemma {:induction false} AlignedDown(a: nat, j: nat, k: nat)
    requires j <= k && Aligned(a, k)
    ensures Aligned(a, j)
  {
    Sum(k - j, j);
    var q := a / Pow2(k);
    assert a == q * Pow2(k);
    assert a == (q * Pow2(k - j)) * Pow2(j) by {
      assert q * (Pow2(k - j) * Pow2(j)) == (q * Pow2(k - j)) * Pow2(j);
    }
    MultipleIsAligned(q * Pow2(k - j), Pow2(j));
  }

  lemma HalvesOf(a: nat, m: nat)
    requires m > 0 && a % m == 0
    ensures a % (2 * m) == 0 || (a >= m && (a - m) % (2 * m) == 0)
    ensures a % (2 * m) == 0 ==> (a + m) % (2 * m) == m
  {
    var q := a / m;
    var h := q / 2;
    assert a == q * m;
    if q == 2 * h {
      assert q * m == h * (2 * m);
      ModOfSum(h, 2 * m, 0);
      ModOfSum(h, 2 * m, m);
    } else {
      assert q == 2 * h + 1;
      assert q * m == h * (2 * m) + m;
      MulMonotone(0, h, 2 * m);
      ModOfSum(h, 2 * m, 0);
      ModOfSum(h, 2 * m, m);
    }
  }

  /** A multiple of 2^k is either a multiple of 2^(k+1) or exactly 2^k past one. */
  lemma Halves(a: nat, k: nat)
    requires Aligned(a, k)
    ensures Aligned(a, k + 1) || (a >= Pow2(k) && Aligned(a - Pow2(k), k + 1))
    ensures Aligned(a, k + 1) ==> !Aligned(a + Pow2(k), k + 1) && Aligned(a + Pow2(k), k)
  {
    HalvesOf(a, Pow2(k));
    AlignedStep(a, k);
  }

  lemma AlignedStep(a: nat, k: nat)
    requires Aligned(a, k)
    ensures Aligned(a + Pow2(k), k)
    ensures a >= Pow2(k) ==> Aligned(a - Pow2(k), k)
  {
    var m := Pow2(k);
    var q := a / m;
    assert a == q * m;
    assert a + m == (q + 1) * m;
    MultipleIsAligned(q + 1, m);
    if a >= m {
      assert q >= 1;
      assert a - m == (q - 1) * m;
      MultipleIsAligned(q - 1, m);
    }
  }

  /** Two multiples of 2^k less than 2^k apart are equal. */
  lemma AlignedGap(a: nat, b: nat, k: nat)
    requires Aligned(a, k) && Aligned(b, k) && a < b
    ensures a + Pow2(k) <= b
  {
    var m := Pow2(k);
    var q, p := a / m, b / m;
    assert a == q * m && b == p * m;
    MulMonotone(p, q, m);
    MulMonotone(q + 1, p, m);
  }

  /** Dyadic intervals nest: a smaller one that starts inside a larger one ends inside it. */
  lemma Nest(a: nat, j: nat, b: nat, k: nat)
    requires j <= k && Aligned(a, j) && Aligned(b, k)
    requires b <= a < b + Pow2(k)
    ensures a + Pow2(j) <= b + Pow2(k)
  {
    AlignedDown(b, j, k);
    AlignedStep(b, k);
    AlignedDown(b + Pow2(k), j, k);
    AlignedGap(a, b + Pow2(k), j);
  }

  lemma FloorMultiple(x: nat, m: nat)
    requires m > 0
    ensures x % m <= x && (x - x % m) % m == 0
  {
    var q, r := x / m, x % m;
    assert x == q * m + r;
    MulMonotone(0, q, m);
    MultipleIsAligned(q, m);
  }

  /** The multiple of 2^k at or below `x`. */
  function Floor(x: nat, k: nat): (r: nat)
    ensures Aligned(r, k) && r <= x < r + Pow2(k)
  {
    FloorMultiple(x, Pow2(k));
    x - x % Pow2(k)
  }

  lemma FloorUnique(x: nat, k: nat, r: nat)
    requires Aligned(r, k) && r <= x < r + Pow2(k)
    ensures Floor(x, k) == r
  {
    if Floor(x, k) < r { AlignedGap(Floor(x, k), r, k); }
    if r < Floor(x, k) { AlignedGap(r, Floor(x, k), k); }
  }
}
