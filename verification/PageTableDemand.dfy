/** How many spare table pages a run of mappings takes, counted before the first one. */
module PageTableDemand {
  import opened PageTableModel
  import opened PageTableInvariant
  import opened PageTableSteps
  import opened PageTableOps
  import opened PageTableRuns

  function Min(a: nat, b: nat): nat {
    if a <= b then a else b
  }

  /** How many tables are missing on the path of a page, down to the leaf. */
  function Tables(s: Space, w: nat, superpage: bool): nat {
    Missing(s.mem, s.cr3, 4, LeafLevel(superpage), w)
  }

  /** How many tables on the path of w are not on the path of v. */
  function Turn(v: nat, w: nat, superpage: bool): nat {
    if Over(v, 3) != Over(w, 3) then 4 - LeafLevel(superpage)
    else if Over(v, 2) != Over(w, 2) then 3 - LeafLevel(superpage)
    else if !superpage && Over(v, 1) != Over(w, 1) then 1
    else 0
  }

  // ---- One mapping --------------------------------------------------------------------------

  /** The same count in the tree. */
  function Unlinked(tbl: Tables, w: nat, superpage: bool): nat {
    if Over(w, 3) !in tbl then 4 - LeafLevel(superpage)
    else if Over(w, 2) !in tbl then 3 - LeafLevel(superpage)
    else if !superpage && Over(w, 1) !in tbl then 1
    else 0
  }

  lemma {:induction false} MissingBelow(s: Space, tbl: Tables, shared: set<nat>, w: nat, level: nat, floor: nat)
    requires Core(s, tbl, shared) && 1 <= floor <= 2 && floor <= level <= 4 && Over(w, level) in tbl
    requires PathClear(s, tbl, shared, w, floor)
    ensures Missing(s.mem, tbl[Over(w, level)], level, floor, w) ==
      if level > floor && Over(w, level - 1) !in tbl then level - floor
      else if level > floor + 1 && Over(w, level - 2) !in tbl then level - 1 - floor
      else if level > floor + 2 && Over(w, level - 3) !in tbl then level - 2 - floor
      else 0
    decreases level
  {
    hide Over, Index, Core, PathClear;
    if level > floor {
      PathEntry(s, tbl, shared, w, level, floor);
      if Over(w, level - 1) in tbl { MissingBelow(s, tbl, shared, w, level - 1, floor); }
    }
  }

  lemma TablesAreUnlinked(s: Space, tbl: Tables, shared: set<nat>, w: nat, superpage: bool)
    requires Core(s, tbl, shared) && Own(w, shared) && (superpage || !IsSuper(Translate(s, w)))
    ensures Tables(s, w, superpage) == Unlinked(tbl, w, superpage)
  {
    hide Over, Index, Core, PathClear, Translate;
    PathTop(w);
    RootIs(s, tbl, shared);
    WalkIsLookup(s, tbl, shared, w);
    ClearBelow(s, tbl, shared, w, superpage);
    MissingBelow(s, tbl, shared, w, 4, LeafLevel(superpage));
  }

  /** Equal tables at one level are equal at every level above. */
  lemma PathsJoin(v: nat, w: nat)
    ensures Over(v, 1) == Over(w, 1) ==> Over(v, 2) == Over(w, 2)
    ensures Over(v, 2) == Over(w, 2) ==> Over(v, 3) == Over(w, 3)
  {
    forall x: nat, l | 2 <= l <= 3
      ensures Up(Over(x, l - 1)) == Over(x, l)
    {
      PathStep(x, l);
      ChildUp(Over(x, l), Index(x, l));
    }
  }

  /** After v was mapped, w lacks only the tables that it lacked before and does not share with v. */
  lemma UnlinkedAfter(s: Space, tbl: Tables, u: Tables, shared: set<nat>, v: nat, atOnce: bool, w: nat, superpage: bool)
    requires Core(s, tbl, shared) && Reached(tbl, u, v, LeafLevel(atOnce))
    requires atOnce && !superpage ==> Over(v, 1) != Over(w, 1)
    ensures Unlinked(u, w, superpage) == Min(Unlinked(tbl, w, superpage), Turn(v, w, superpage))
  {
    hide Over, Index, Core;
    PathsJoin(v, w);
    if Over(w, 2) !in tbl { NothingBelow(s, tbl, shared, w, 3); }
    if Over(w, 3) !in tbl { NothingBelow(s, tbl, shared, w, 4); }
  }

  /** Mapping v takes the tables that v lacks, and leaves w with those that it does not share with v. */
  lemma MapTakes(s: Space, shared: set<nat>, pool: set<nat>, v: nat, frame: nat, atOnce: bool, attr: Attr)
    requires Valid(s, shared, pool) && Own(v, shared) && (atOnce || !IsSuper(Translate(s, v)))
    requires Map(s, v, frame, atOnce, attr).1
    ensures var t := Map(s, v, frame, atOnce, attr).0;
      && |t.free| + Tables(s, v, atOnce) == |s.free|
      && (forall w: nat, superpage ::
            Own(w, shared) && (superpage || (!IsSuper(Translate(s, w)) && !IsSuper(Translate(t, w))))
            && (atOnce && !superpage ==> Over(v, 1) != Over(w, 1)) ==>
            Tables(t, w, superpage) == Min(Tables(s, w, superpage), Turn(v, w, superpage)))
  {
    hide Core, Lookup, Translate, Region, Pool, Map, Missing, Over, Turn, Unlinked, Reached, AllPopulated;
    var tbl :| Inv(s, tbl, shared) && Pool(s, tbl) == pool;
    WalkIsLookup(s, tbl, shared, v);
    var u := MapStep(s, tbl, shared, v, frame, atOnce, attr);
    var t := Map(s, v, frame, atOnce, attr).0;
    assert Inv(t, u, shared);
    forall w: nat, superpage | Own(w, shared) && (superpage || (!IsSuper(Translate(s, w)) && !IsSuper(Translate(t, w))))
        && (atOnce && !superpage ==> Over(v, 1) != Over(w, 1))
      ensures Tables(t, w, superpage) == Min(Tables(s, w, superpage), Turn(v, w, superpage))
    {
      TablesAreUnlinked(s, tbl, shared, w, superpage);
      TablesAreUnlinked(t, u, shared, w, superpage);
      UnlinkedAfter(s, tbl, u, shared, v, atOnce, w, superpage);
    }
  }

  // ---- A run of mappings ----------------------------------------------------------------------

  /** A leaf to be mapped: a page, or a superpage at its first page. */
  datatype Spot = Spot(vpn: nat, superpage: bool)

  function Past(x: Spot): nat {
    x.vpn + if x.superpage then 512 else 1
  }

  /** The tables for the spots, when u is the page mapped just before. */
  function DemandAfter(s: Space, u: nat, spots: seq<Spot>): nat
    decreases |spots|
  {
    if spots == [] then 0
    else
      var x := spots[0];
      Min(Tables(s, x.vpn, x.superpage), Turn(u, x.vpn, x.superpage)) + DemandAfter(s, x.vpn, spots[1..])
  }

  /** The tables for the spots, in a space where none is mapped yet. */
  function Demand(s: Space, spots: seq<Spot>): nat {
    if spots == [] then 0
    else Tables(s, spots[0].vpn, spots[0].superpage) + DemandAfter(s, spots[0].vpn, spots[1..])
  }

  /** A spot of this space that can be mapped: a superpage aligned, a page in no live superpage. */
  ghost predicate Open(s: Space, shared: set<nat>, x: Spot) {
    Own(x.vpn, shared) && if x.superpage then x.vpn % 512 == 0 else !IsSuper(Translate(s, x.vpn))
  }

  /** Open spots one after the other, from a page on. */
  ghost predicate Opens(s: Space, shared: set<nat>, from: nat, spots: seq<Spot>)
    decreases spots
  {
    spots == [] || (from <= spots[0].vpn && Open(s, shared, spots[0]) && Opens(s, shared, Past(spots[0]), spots[1..]))
  }

  lemma TurnShrinks(v: nat, u: nat, w: nat, superpage: bool)
    requires v <= u <= w
    ensures Turn(u, w, superpage) <= Turn(v, w, superpage)
  {
    PathsJoin(v, w);
    PathsJoin(u, w);
    OverBetween(v, u, w, 1);
    OverBetween(v, u, w, 2);
    OverBetween(v, u, w, 3);
    hide Over;
  }

  lemma OverBetween(v: nat, u: nat, w: nat, level: nat)
    requires v <= u <= w && 1 <= level <= 3
    ensures Over(v, level) == Over(w, level) ==> Over(u, level) == Over(w, level)
  {
  }

  /** What the mapping of v leaves of the demand of later pages. */
  ghost predicate Eased(s: Space, t: Space, shared: set<nat>, v: nat, from: nat) {
    && v < from
    && (forall w: nat, superpage ::
          Own(w, shared) && from <= w && (superpage || (!IsSuper(Translate(s, w)) && !IsSuper(Translate(t, w)))) ==>
          Tables(t, w, superpage) == Min(Tables(s, w, superpage), Turn(v, w, superpage)))
    && (forall w: nat :: Own(w, shared) && from <= w ==> Translate(t, w) == Translate(s, w))
  }

  /** Mapping a spot that is open eases the demand of every spot past it. */
  lemma MapEases(s: Space, shared: set<nat>, pool: set<nat>, x: Spot, frame: nat, attr: Attr)
    requires Valid(s, shared, pool) && Open(s, shared, x) && Map(s, x.vpn, frame, x.superpage, attr).1
    ensures var t := Map(s, x.vpn, frame, x.superpage, attr).0;
      |t.free| + Tables(s, x.vpn, x.superpage) == |s.free| && Eased(s, t, shared, x.vpn, Past(x))
  {
    hide Valid, Translate, Map, Missing, Turn;
    MapTakes(s, shared, pool, x.vpn, frame, x.superpage, attr);
    MapRefines(s, shared, pool, x.vpn, frame, x.superpage, attr);
    forall w: nat | Past(x) <= w
      ensures !InTarget(w, x.vpn, x.superpage) && (x.superpage ==> Over(x.vpn, 1) != Over(w, 1))
    {
      PastSlot(x.vpn, w);
    }
  }

  lemma PastSlot(v: nat, w: nat)
    ensures v % 512 == 0 && v + 512 <= w ==> w / 512 != v / 512
  {
  }

  lemma FirstEased(s: Space, t: Space, shared: set<nat>, v: nat, from: nat, x: Spot)
    requires Eased(s, t, shared, v, from) && from <= x.vpn && Open(s, shared, x)
    ensures Tables(t, x.vpn, x.superpage) == Min(Tables(s, x.vpn, x.superpage), Turn(v, x.vpn, x.superpage))
    ensures v < from && Open(t, shared, x)
  {
    hide Turn, Tables, Translate, Region;
  }

  lemma {:induction false} DemandAfterSame(s: Space, t: Space, shared: set<nat>, v: nat, from: nat, u: nat,
                                           after: nat, spots: seq<Spot>)
    requires Eased(s, t, shared, v, from) && from <= u < after && Opens(s, shared, after, spots)
    ensures DemandAfter(t, u, spots) == DemandAfter(s, u, spots) && Opens(t, shared, after, spots)
    decreases spots
  {
    hide Turn, Tables, Translate, Region, Eased, Open;
    if spots != [] {
      var x := spots[0];
      FirstEased(s, t, shared, v, from, x);
      DemandAfterSame(s, t, shared, v, from, x.vpn, Past(x), spots[1..]);
      TurnShrinks(v, u, x.vpn, x.superpage);
    }
  }

  /** The demand of some spots is that of the first and of the rest once it is mapped. */
  lemma DemandStep(s: Space, t: Space, shared: set<nat>, from: nat, spots: seq<Spot>)
    requires spots != [] && Opens(s, shared, from, spots) && Eased(s, t, shared, spots[0].vpn, Past(spots[0]))
    ensures Demand(s, spots) == Tables(s, spots[0].vpn, spots[0].superpage) + Demand(t, spots[1..])
    ensures Opens(t, shared, Past(spots[0]), spots[1..])
  {
    hide Turn, Tables, Translate, Region, Eased, Open;
    var x, rest := spots[0], spots[1..];
    if rest != [] {
      var y := rest[0];
      FirstEased(s, t, shared, x.vpn, Past(x), y);
      DemandAfterSame(s, t, shared, x.vpn, Past(x), y.vpn, Past(y), rest[1..]);
    }
  }

  // ---- Stretches of pages -----------------------------------------------------------------------

  /** Pages are mapped 512 at once as long as there are as many. */
  function Stretch(n: nat): (m: nat)
    ensures 0 < m && (n > 0 ==> m <= n)
  {
    if n >= 512 then 512 else 1
  }

  function Stretches(v: nat, n: nat): seq<Spot>
    decreases n
  {
    if n == 0 then [] else [Spot(v, n >= 512)] + Stretches(v + Stretch(n), n - Stretch(n))
  }

  /** The tables for n pages from v on. */
  function Need(s: Space, v: nat, n: nat): nat {
    Demand(s, Stretches(v, n))
  }

  /** No page of the range that is mapped alone lies in a live superpage. */
  ghost predicate ClearTail(s: Space, v: nat, n: nat) {
    forall w: nat :: v + n / 512 * 512 <= w < v + n ==> !IsSuper(Translate(s, w))
  }

  lemma TailStays(v: nat, n: nat)
    requires n > 0
    ensures v + n / 512 * 512 <= v + Stretch(n) + (n - Stretch(n)) / 512 * 512
    ensures n >= 512 ==> v + n / 512 * 512 == v + Stretch(n) + (n - Stretch(n)) / 512 * 512
    ensures n < 512 ==> n / 512 == 0
  {
  }

  lemma {:induction false} StretchesOpen(s: Space, shared: set<nat>, v: nat, n: nat)
    requires ClearTail(s, v, n) && (n >= 512 ==> v % 512 == 0)
    requires forall w: nat :: v <= w < v + n ==> Own(w, shared)
    ensures Opens(s, shared, v, Stretches(v, n))
    decreases n
  {
    hide Translate, Region;
    if n > 0 {
      TailStays(v, n);
      StretchesOpen(s, shared, v + Stretch(n), n - Stretch(n));
    }
  }

  /** The demand of a range is that of its first stretch and of the rest once that is mapped. */
  lemma NeedStep(s: Space, t: Space, shared: set<nat>, v: nat, n: nat)
    requires n > 0 && Eased(s, t, shared, v, v + Stretch(n)) && ClearTail(s, v, n) && (n >= 512 ==> v % 512 == 0)
    requires forall w: nat :: v <= w < v + n ==> Own(w, shared)
    ensures Need(s, v, n) == Tables(s, v, n >= 512) + Need(t, v + Stretch(n), n - Stretch(n))
  {
    hide Tables, Translate, Region, Eased, Demand, Opens, ClearTail;
    StretchesOpen(s, shared, v, n);
    DemandStep(s, t, shared, v, Stretches(v, n));
  }
}
