/** The free lists of one zone of the physical memory manager and the
    functions that compute their new value.  A list is the sequence of block
    addresses that its intrusive `next` links visit; a block of order k
    occupies 2^(k+12) bytes. */
module BuddyModel {
  import opened Basics
  import opened PowersOfTwo
  import L = SortedList

  const MAX_ORDER: nat := 18

  /** One list per order, 0 to 18. */
  type Lists = s: seq<seq<nat>> | |s| == MAX_ORDER + 1 witness seq(MAX_ORDER + 1, i => [])

  function Size(k: nat): (r: nat) {
    Pow2(k + 12)
  }

  predicate AtOrder(a: nat, k: nat) {
    Aligned(a, k + 12)
  }

  // ---- Seeding -------------------------------------------------------------

  /** A 64-bit count stored into a C int. */
  function ToInt32(x: int): int {
    var low := x % 0x1_0000_0000;
    if low < 0x8000_0000 then low else low - 0x1_0000_0000
  }

  function AlignUp(x: nat, k: nat): nat {
    Floor((x + (Size(k) - 1)) % WORD, k + 12)
  }

  function AlignDown(x: nat, k: nat): nat {
    Floor(x, k + 12)
  }

  function AddBlock(s: Lists, k: nat, a: nat): Lists
    requires k <= MAX_ORDER
  {
    s[k := L.Insert(s[k], a)]
  }

  /** Blocks i, i+1, ..., nr-1 of the run that starts at `start`. */
  function AddBlocks(s: Lists, k: nat, start: nat, i: nat, nr: int): (r: Lists)
    requires k <= MAX_ORDER
    decreases nr - i
  {
    if i < nr then AddBlocks(AddBlock(s, k, start + i * Size(k)), k, start, i + 1, nr) else s
  }

  function BlockCount(k: nat, from: nat, to: nat): int {
    ToInt32((to + WORD - from) % WORD / Pow2(k) / 4096)
  }

  function AddRegionOrder(s: Lists, order: int, base: nat, next: nat): (r: Lists)
    requires order <= MAX_ORDER && base < WORD && next < WORD
    decreases order + 1
  {
    if order < 0 then s
    else
      var up := AlignUp(base, order);
      var down := AlignDown(next, order);
      var s1 :=
        if base != up then AddRegionOrder(s, order - 1, base, if up < next then up else next) else s;
      var s2 :=
        if next != down && down >= base then
          AddRegionOrder(s1, order - 1, if down > base then down else base, next)
        else s1;
      AddBlocks(s2, order, up, 0, BlockCount(order, up, down))
  }

  function AddRegion(s: Lists, base: nat, next: nat): (r: Lists)
    requires base < WORD && next < WORD
  {
    AddRegionOrder(s, MAX_ORDER, base, next)
  }

  // ---- Allocation ----------------------------------------------------------

  function Split(s: Lists, k: nat): (r: Lists)
    decreases MAX_ORDER - k
  {
    if k >= MAX_ORDER || s[k] != [] then s
    else
      var t := Split(s, k + 1);
      if t[k + 1] == [] then t
      else
        var block := t[k + 1][0];
        t[k + 1 := t[k + 1][1..]][k := [block, block + Size(k)]]
  }

  function Alloc(s: Lists, k: nat): (r: (Option<nat>, Lists))
  {
    if k > MAX_ORDER then (None, s)
    else
      var t := Split(s, k);
      if t[k] == [] then (None, t) else (Some(t[k][0]), t[k := t[k][1..]])
  }

  // ---- Release -------------------------------------------------------------

  /** Place a block in its list and merge upwards. */
  function InsertBuddy(s: Lists, a: nat, k: nat): (r: Lists)
    ensures forall j :: 0 <= j < k && j < |s| ==> r[j] == s[j]
    decreases MAX_ORDER + 1 - k, 2, 0
  {
    if k > MAX_ORDER then s else MergeBuddy(s[k := L.Insert(s[k], a)], k)
  }

  function MergeBuddy(s: Lists, k: nat): (r: Lists)
    requires k <= MAX_ORDER
    ensures forall j :: 0 <= j < k ==> r[j] == s[j]
    decreases MAX_ORDER + 1 - k, 1, 0
  {
    if k >= MAX_ORDER then s else MergeFrom(s, k, 0)
  }

  predicate PairAt(l: seq<nat>, k: nat, i: nat) {
    i + 1 < |l| && AtOrder(l[i], k + 1) && l[i + 1] == l[i] + Size(k)
  }

  /** The merge scan of list k from position i on; after a merge it steps over
      the element that took the merged pair's place. */
  function MergeFrom(s: Lists, k: nat, i: nat): (r: Lists)
    requires k < MAX_ORDER
    ensures forall j :: 0 <= j < k ==> r[j] == s[j]
    decreases MAX_ORDER + 1 - k, 0, |s[k]| - i
  {
    if i >= |s[k]| then s
    else if PairAt(s[k], k, i) then
      var t := InsertBuddy(s[k := s[k][..i] + s[k][i + 2..]], s[k][i], k + 1);
      if i >= |t[k]| then t else MergeFrom(t, k, i + 1)
    else MergeFrom(s, k, i + 1)
  }
}
