/** When the mapping loop of wiring succeeds: the records, and the spare tables that all its runs
    take, counted before the first one. */
module WireDemand {
  import opened ArchMemory
  import opened PageTableDemand
  import opened PageTableModel
  import opened PageTableOps
  import opened PageTableRuns
  import opened PowersOfTwo
  import opened WirePages
  import G = GreedyRuns
  import I = PageTableInvariant
  import S = PageTableSteps

  // ---- The leaves of a run --------------------------------------------------------------------

  /** Entries i to n of the run at v. */
  function EntrySpots(v: nat, superpage: bool, i: nat, n: nat): seq<Spot>
    decreases n - i
  {
    if i >= n then [] else [Spot(v + Stride(superpage) * i, superpage)] + EntrySpots(v, superpage, i + 1, n)
  }

  function RunSpots(v: nat, k: nat): seq<Spot> {
    EntrySpots(v, IsSuperRun(k), 0, Count(k))
  }

  /** The leaves of the greedy runs over n pages. */
  function RangeSpots(v: nat, p: nat, n: nat): seq<Spot>
    decreases n
  {
    if n == 0 then []
    else
      G.OrderFits(v, p, n);
      var k := G.OrderFrom(v, p, 4096 * n, 0);
      RunSpots(v, k) + RangeSpots(v + Pow2(k), p + Pow2(k), n - Pow2(k))
  }

  lemma {:induction false} OpensJoin(s: Space, shared: set<nat>, from: nat, v: nat, superpage: bool, i: nat, n: nat,
                                     rest: seq<Spot>)
    requires i <= n && from <= v + Stride(superpage) * i && (superpage ==> v % 512 == 0)
    requires forall j :: i <= j < n ==> Open(s, shared, Spot(v + Stride(superpage) * j, superpage))
    requires Opens(s, shared, v + Stride(superpage) * n, rest)
    ensures Opens(s, shared, from, EntrySpots(v, superpage, i, n) + rest)
    decreases n - i
  {
    hide Open;
    if i == n {
      assert EntrySpots(v, superpage, i, n) + rest == rest;
      OpensLater(s, shared, from, v + Stride(superpage) * n, rest);
    } else {
      var x := Spot(v + Stride(superpage) * i, superpage);
      var more := EntrySpots(v, superpage, i + 1, n);
      assert Past(x) == v + Stride(superpage) * (i + 1);
      OpensJoin(s, shared, Past(x), v, superpage, i + 1, n, rest);
      assert EntrySpots(v, superpage, i, n) + rest == [x] + (more + rest);
    }
  }

  lemma OpensLater(s: Space, shared: set<nat>, from: nat, later: nat, spots: seq<Spot>)
    requires from <= later && Opens(s, shared, later, spots)
    ensures Opens(s, shared, from, spots)
  {
  }

  /** The entries of the run are untranslated. */
  ghost predicate BlankEntries(s: Space, v: nat, superpage: bool, i: nat, n: nat) {
    forall w: nat :: InEntries(w, v, superpage, i, n) ==> Translate(s, w).None?
  }

  lemma SpotAt(v: nat, superpage: bool, i: nat, n: nat, rest: seq<Spot>)
    requires i < n
    ensures var all := EntrySpots(v, superpage, i, n) + rest;
      all != [] && all[0] == Spot(v + Stride(superpage) * i, superpage)
      && all[1..] == EntrySpots(v, superpage, i + 1, n) + rest
    ensures EntrySpots(v, superpage, i, n)[0] == Spot(v + Stride(superpage) * i, superpage)
    ensures EntrySpots(v, superpage, i, n)[1..] == EntrySpots(v, superpage, i + 1, n)
  {
  }

  lemma {:induction false} OpensFirst(s: Space, shared: set<nat>, from: nat, a: seq<Spot>, b: seq<Spot>)
    requires Opens(s, shared, from, a + b)
    ensures Opens(s, shared, from, a)
    decreases a
  {
    hide Open;
    if a != [] {
      assert (a + b)[1..] == a[1..] + b;
      OpensFirst(s, shared, Past(a[0]), a[1..], b);
    }
  }

  /** The loop over the entries succeeds exactly when they are untranslated and the spare tables
      suffice; it takes the tables counted, and leaves the demand of what follows as counted. */
  lemma {:induction false} EntriesExactly(s: Space, shared: set<nat>, pool: set<nat>, v: nat, frame: nat,
                                          superpage: bool, attr: Attr, i: nat, n: nat, rest: seq<Spot>)
    requires Valid(s, shared, pool) && i <= n && OwnRun(v, superpage, n, shared)
    requires Opens(s, shared, v + Stride(superpage) * i, EntrySpots(v, superpage, i, n) + rest)
    ensures var (t, k) := MapFrom(s, v, frame, superpage, attr, i, n);
      var spots := EntrySpots(v, superpage, i, n);
      && (k == n <==> BlankEntries(s, v, superpage, i, n) && Demand(s, spots) <= |s.free|)
      && (k == n ==>
            && Opens(t, shared, v + Stride(superpage) * n, rest)
            && |t.free| + Demand(s, spots) == |s.free| && Demand(s, spots + rest) == Demand(s, spots) + Demand(t, rest))
    decreases n - i
  {
    hide Valid, Translate, Map, Tables, Slot, Opens, Open, Demand, OwnRun, Eased, InEntries;
    var spots := EntrySpots(v, superpage, i, n);
    if i == n {
      assert spots == [] && spots + rest == rest;
      NothingDemanded(s, v, superpage, n);
    } else {
      EntryStep(s, shared, pool, v, frame, superpage, attr, i, n, rest);
      SpotAt(v, superpage, i, n, rest);
      var x := Spot(v + Stride(superpage) * i, superpage);
      var (t, ok) := Map(s, x.vpn, frame + Stride(superpage) * i, superpage, attr);
      if ok {
        EntriesExactly(t, shared, pool, v, frame, superpage, attr, i + 1, n, rest);
      }
    }
  }

  lemma NothingDemanded(s: Space, v: nat, superpage: bool, n: nat)
    ensures Demand(s, []) == 0 && BlankEntries(s, v, superpage, n, n)
  {
  }

  /** One entry. */
  lemma EntryStep(s: Space, shared: set<nat>, pool: set<nat>, v: nat, frame: nat, superpage: bool, attr: Attr, i: nat,
                  n: nat, rest: seq<Spot>)
    requires Valid(s, shared, pool) && i < n && OwnRun(v, superpage, n, shared)
    requires Opens(s, shared, v + Stride(superpage) * i, EntrySpots(v, superpage, i, n) + rest)
    ensures var x := Spot(v + Stride(superpage) * i, superpage);
      var (t, ok) := Map(s, x.vpn, frame + Stride(superpage) * i, superpage, attr);
      var spots, more := EntrySpots(v, superpage, i, n), EntrySpots(v, superpage, i + 1, n);
      && Valid(t, shared, pool)
      && (ok ==>
            && Opens(t, shared, v + Stride(superpage) * (i + 1), more + rest)
            && (BlankEntries(s, v, superpage, i, n) <==> BlankEntries(t, v, superpage, i + 1, n))
            && Demand(s, spots) == Tables(s, x.vpn, superpage) + Demand(t, more)
            && Demand(s, spots + rest) == Tables(s, x.vpn, superpage) + Demand(t, more + rest)
            && |t.free| + Tables(s, x.vpn, superpage) == |s.free|)
      && (!ok ==> !(BlankEntries(s, v, superpage, i, n) && Demand(s, spots) <= |s.free|))
  {
    hide Valid, Translate, Map, Tables, Turn, Demand, Eased, DemandAfter, Slot;
    var x := Spot(v + Stride(superpage) * i, superpage);
    var spots := EntrySpots(v, superpage, i, n);
    SpotAt(v, superpage, i, n, rest);
    EntryOwn(v, superpage, n, shared, i);
    assert Open(s, shared, x);
    MapRefines(s, shared, pool, x.vpn, frame + Stride(superpage) * i, superpage, attr);
    var (t, ok) := Map(s, x.vpn, frame + Stride(superpage) * i, superpage, attr);
    SlotAt(v, superpage, i);
    forall w: nat
      ensures InTarget(w, x.vpn, superpage) <==> Slot(w, superpage) == Slot(v, superpage) + i
    {
      TargetIsSlot(w, x.vpn, superpage);
    }
    if ok {
      assert Past(x) == v + Stride(superpage) * (i + 1);
      MapEases(s, shared, pool, x, frame + Stride(superpage) * i, attr);
      OpensFirst(s, shared, x.vpn, spots, rest);
      DemandStep(s, t, shared, x.vpn, spots);
      DemandStep(s, t, shared, x.vpn, spots + rest);
      RestBlank(s, t, shared, v, superpage, i, n);
    } else {
      FirstDemanded(s, spots);
      if BlankEntries(s, v, superpage, i, n) { FirstUntranslated(s, v, superpage, i, n); }
    }
  }

  lemma FirstDemanded(s: Space, spots: seq<Spot>)
    requires spots != []
    ensures S.Missing(s.mem, s.cr3, 4, LeafLevel(spots[0].superpage), spots[0].vpn) <= Demand(s, spots)
  {
  }

  lemma FirstUntranslated(s: Space, v: nat, superpage: bool, i: nat, n: nat)
    requires i < n && BlankEntries(s, v, superpage, i, n)
    ensures Untranslated(s, v + Stride(superpage) * i, superpage)
  {
    hide Translate, Slot;
    SlotAt(v, superpage, i);
    forall w: nat
      ensures InTarget(w, v + Stride(superpage) * i, superpage) <==> Slot(w, superpage) == Slot(v, superpage) + i
    {
      TargetIsSlot(w, v + Stride(superpage) * i, superpage);
    }
  }

  lemma RestBlank(s: Space, t: Space, shared: set<nat>, v: nat, superpage: bool, i: nat, n: nat)
    requires i < n && OwnRun(v, superpage, n, shared) && Untranslated(s, v + Stride(superpage) * i, superpage)
    requires forall w: nat :: Own(w, shared) && Slot(w, superpage) != Slot(v, superpage) + i ==>
      Translate(t, w) == Translate(s, w)
    ensures BlankEntries(s, v, superpage, i, n) <==> BlankEntries(t, v, superpage, i + 1, n)
  {
    hide Translate, Slot;
    SlotAt(v, superpage, i);
    forall w: nat
      ensures InTarget(w, v + Stride(superpage) * i, superpage) <==> Slot(w, superpage) == Slot(v, superpage) + i
    {
      TargetIsSlot(w, v + Stride(superpage) * i, superpage);
    }
    forall w: nat | InEntries(w, v, superpage, i, n)
      ensures Own(w, shared)
      ensures InEntries(w, v, superpage, i + 1, n) || InTarget(w, v + Stride(superpage) * i, superpage)
    {
      assert InEntries(w, v, superpage, 0, n);
    }
    assert forall w: nat :: InEntries(w, v, superpage, i + 1, n) ==> InEntries(w, v, superpage, i, n);
  }

  // ---- Runs and ranges ------------------------------------------------------------------------

  lemma EntriesOpen(s: Space, shared: set<nat>, v: nat, k: nat, n: nat, i: nat)
    requires OwnRange(v, n, shared) && Aligned(v, k) && Pow2(k) <= n && ClearRun(s, v, k) && i < Count(k)
    ensures Open(s, shared, Spot(v + Stride(IsSuperRun(k)) * i, IsSuperRun(k)))
  {
    hide Translate, IsSuper, Aligned, Count;
    var x := v + Stride(IsSuperRun(k)) * i;
    RangeRun(v, n, k, shared);
    EntryOwn(v, IsSuperRun(k), Count(k), shared, i);
    RunPages(v, k, x);
    if IsSuperRun(k) { SuperAligned(v, k); }
  }

  lemma SuperAligned(v: nat, k: nat)
    requires Aligned(v, k) && k >= 9
    ensures v % 512 == 0
  {
    assert Pow2(9) == 512;
    AlignedDown(v, 9, k);
  }

  lemma RunLength(k: nat)
    ensures Stride(IsSuperRun(k)) * Count(k) == Pow2(k)
  {
    if IsSuperRun(k) {
      assert Pow2(9) == 512;
      Sum(9, k - 9);
    }
  }

  lemma {:induction false} RangeOpens(s: Space, shared: set<nat>, v: nat, p: nat, n: nat)
    requires OwnRange(v, n, shared) && WirePages.Clear(s, v, p, n)
    ensures Opens(s, shared, v, RangeSpots(v, p, n))
    decreases n
  {
    hide Translate, Open, Opens, EntrySpots, Count, ClearRun, Aligned;
    if n == 0 {
      NothingOpens(s, shared, v);
    } else {
      G.OrderFits(v, p, n);
      var k := G.OrderFrom(v, p, 4096 * n, 0);
      RangeOpens(s, shared, v + Pow2(k), p + Pow2(k), n - Pow2(k));
      RunLength(k);
      if IsSuperRun(k) { SuperAligned(v, k); }
      forall i | 0 <= i < Count(k)
        ensures Open(s, shared, Spot(v + Stride(IsSuperRun(k)) * i, IsSuperRun(k)))
      {
        EntriesOpen(s, shared, v, k, n, i);
      }
      OpensJoin(s, shared, v, v, IsSuperRun(k), 0, Count(k), RangeSpots(v + Pow2(k), p + Pow2(k), n - Pow2(k)));
    }
  }

  lemma NothingOpens(s: Space, shared: set<nat>, v: nat)
    ensures Opens(s, shared, v, [])
  {
  }

  /** A run is mapped exactly when its pages are untranslated and the spare tables suffice. */
  lemma RunExactly(s: Space, shared: set<nat>, pool: set<nat>, v: nat, p: nat, n: nat, flags: Flags, k: nat,
                   rest: seq<Spot>)
    requires Valid(s, shared, pool) && OwnRange(v, n, shared) && G.Fits(v, p, n, k)
    requires Opens(s, shared, v, RunSpots(v, k) + rest)
    ensures var (t, ok) := ArchMap(s, v, Page(4096 * p, k, true), flags);
      var spots := RunSpots(v, k);
      && (ok <==> Blank(s, v, Pow2(k)) && Demand(s, spots) <= |s.free|)
      && (ok ==>
            && Opens(t, shared, v + Pow2(k), rest)
            && |t.free| + Demand(s, spots) == |s.free| && Demand(s, spots + rest) == Demand(s, spots) + Demand(t, rest))
  {
    hide Valid, Translate, MapFrom, UnmapDown, Slot, Count, Opens, Demand, EntrySpots, Aligned, OwnRun, OwnRange;
    RangeRun(v, n, k, shared);
    RunLength(k);
    forall w: nat
      ensures InEntries(w, v, IsSuperRun(k), 0, Count(k)) <==> v <= w < v + Pow2(k)
    {
      RunPages(v, k, w);
    }
    var page := Page(4096 * p, k, true);
    assert page.physical / 4096 == p;
    EntriesExactly(s, shared, pool, v, p, IsSuperRun(k), Attributes(page, flags), 0, Count(k), rest);
  }

  /** The range is mapped exactly when it is untranslated, there is a record for each greedy
      run, and the spare tables suffice. */
  lemma {:induction false} MapRangeExactly(s: Space, shared: set<nat>, pool: set<nat>, v: nat, p: nat, n: nat,
                                           flags: Flags, budget: nat)
    requires Valid(s, shared, pool) && OwnRange(v, n, shared) && WirePages.Clear(s, v, p, n)
    requires Opens(s, shared, v, RangeSpots(v, p, n))
    ensures MapRange(s, v, p, n, flags, budget).2 <==>
      Blank(s, v, n) && |G.Greedy(v, p, n)| <= budget && Demand(s, RangeSpots(v, p, n)) <= |s.free|
    decreases n
  {
    hide Valid, Translate, ArchMap, Opens, Demand, RunSpots, Aligned, WiredTo, ClearRun;
    if n == 0 {
      NothingDemanded(s, v, false, 0);
    } else {
      G.OrderFits(v, p, n);
      var k := G.OrderFrom(v, p, 4096 * n, 0);
      var v', p', n' := v + Pow2(k), p + Pow2(k), n - Pow2(k);
      var rest := RangeSpots(v', p', n');
      RunStep(s, shared, pool, v, p, n, flags, k);
      RunExactly(s, shared, pool, v, p, n, flags, k, rest);
      var (t, ok) := ArchMap(s, v, Page(4096 * p, k, true), flags);
      if ok && budget > 0 {
        ClearSame(s, t, shared, v', p', n');
        MapRangeExactly(t, shared, pool, v', p', n', flags, budget - 1);
        BlankSplit(s, t, shared, v, Pow2(k), n);
      } else if !ok {
        FirstPart(s, RunSpots(v, k), rest);
      }
    }
  }

  lemma BlankSplit(s: Space, t: Space, shared: set<nat>, v: nat, m: nat, n: nat)
    requires OwnRange(v, n, shared) && m <= n && Blank(s, v, m)
    requires forall w: nat :: Own(w, shared) && v + m <= w ==> Translate(t, w) == Translate(s, w)
    ensures Blank(s, v, n) <==> Blank(t, v + m, n - m)
  {
    hide Translate, I.Region;
  }

  lemma FirstPart(s: Space, a: seq<Spot>, b: seq<Spot>)
    ensures Demand(s, a) <= Demand(s, a + b)
  {
    if a != [] {
      assert (a + b)[1..] == a[1..] + b;
      FirstPartAfter(s, a[0].vpn, a[1..], b);
    }
  }

  lemma {:induction false} FirstPartAfter(s: Space, u: nat, a: seq<Spot>, b: seq<Spot>)
    ensures DemandAfter(s, u, a) <= DemandAfter(s, u, a + b)
    decreases a
  {
    hide Tables, Turn;
    if a != [] {
      assert (a + b)[1..] == a[1..] + b;
      FirstPartAfter(s, a[0].vpn, a[1..], b);
    }
  }
}
