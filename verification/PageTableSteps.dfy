/** What one operation on the page table does to the tree and to every translation. */
module PageTableSteps {
  import opened Basics
  import opened PageTableModel
  import opened PageTableInvariant

  /** `t` differs from `s` only by tables linked on the path of `vpn`, at level
      `floor` or above; no translation changed. */
  ghost predicate Grown(s: Space, tbl: Tables, t: Space, u: Tables, shared: set<nat>, vpn: nat, floor: nat) {
    && Core(t, u, shared) && t.cr3 == s.cr3 && t.mem.Keys == s.mem.Keys
    && Pool(t, u) == Pool(s, tbl)
    && (forall n :: n in tbl ==> n in u && u[n] == tbl[n])
    && (forall n :: n in u && n !in tbl ==> n.level >= floor && n == Over(vpn, n.level))
    && (forall n :: n in tbl && n.level == 1 ==> tbl[n] in t.mem && tbl[n] in s.mem && t.mem[tbl[n]] == s.mem[tbl[n]])
    && (forall w :: Lookup(t.mem, u, w) == Lookup(s.mem, tbl, w))
    && KeepsUpper(s.mem, tbl, t.mem)
    && (forall f :: f in s.mem && f !in Pool(s, tbl) ==> f in t.mem && t.mem[f] == s.mem[f])
  }

  lemma GrownRefl(s: Space, tbl: Tables, shared: set<nat>, vpn: nat, floor: nat)
    requires Core(s, tbl, shared)
    ensures Grown(s, tbl, s, tbl, shared, vpn, floor)
  {
    forall n | n in tbl
      ensures tbl[n] in s.mem
    {
      assert Shape(s, tbl, n);
    }
  }

  lemma KeepsUpperTrans(s: Memory, tbl: Tables, t: Memory, u: Tables, r: Memory)
    requires forall n :: n in tbl && n.level >= 3 ==> n in u && u[n] == tbl[n]
    requires KeepsUpper(s, tbl, t) && KeepsUpper(t, u, r)
    ensures KeepsUpper(s, tbl, r)
  {
  }

  lemma GrownTrans(s: Space, tbl: Tables, t: Space, u: Tables, r: Space, v: Tables, shared: set<nat>, vpn: nat,
                   floor: nat)
    requires Grown(s, tbl, t, u, shared, vpn, floor) && Grown(t, u, r, v, shared, vpn, floor)
    ensures Grown(s, tbl, r, v, shared, vpn, floor)
  {
    hide Core, Lookup, Over, KeepsUpper;
    KeepsUpperTrans(s.mem, tbl, t.mem, u, r.mem);
    forall n | n in v && n !in tbl
      ensures n.level >= floor && n == Over(vpn, n.level)
    {
      if n in u {}
    }
  }

  lemma GrownCore(s: Space, tbl: Tables, t: Space, u: Tables, shared: set<nat>, vpn: nat, floor: nat)
    requires Grown(s, tbl, t, u, shared, vpn, floor)
    ensures Core(t, u, shared)
  {
  }

  lemma GrownWeaken(s: Space, tbl: Tables, t: Space, u: Tables, shared: set<nat>, vpn: nat, hi: nat, lo: nat)
    requires Grown(s, tbl, t, u, shared, vpn, hi) && lo <= hi
    ensures Grown(s, tbl, t, u, shared, vpn, lo)
  {
  }

  lemma LookupAfterLink(s: Space, tbl: Tables, shared: set<nat>, n: Node, i: nat, w: nat)
    requires Core(s, tbl, shared) && n in tbl && n.level >= 2 && i < ENTRIES && s.free != []
    requires !Read(s.mem, tbl[n], i).present && Child(n, i) !in tbl
    ensures Lookup(Linked(s, tbl[n], i).mem, tbl[Child(n, i) := s.free[0]], w) == Lookup(s.mem, tbl, w)
  {
    hide Link, Over, Index;
    var c := Child(n, i);
    assert Shape(s, tbl, n);
    PathStep(w, 2);
    ChildUp(Over(w, 2), Index(w, 2));
    PathStep(w, 3);
    ChildUp(Over(w, 3), Index(w, 3));
    assert Over(w, 1) in tbl ==> Shape(s, tbl, Over(w, 1));
    assert Over(w, 2) in tbl ==> Shape(s, tbl, Over(w, 2));
    if Over(w, 1) == c {
      ChildInjective(n, i, Over(w, 2), Index(w, 2));
    } else if Over(w, 2) == c {
      ChildInjective(n, i, Over(w, 3), Index(w, 3));
    }
  }

  lemma LinkGrows(s: Space, tbl: Tables, shared: set<nat>, n: Node, i: nat, vpn: nat)
    requires Core(s, tbl, shared) && n in tbl && n.level >= 2 && i < ENTRIES && s.free != []
    requires !Read(s.mem, tbl[n], i).present && !Foreign(shared, n, i)
    requires Child(n, i) == Over(vpn, n.level - 1)
    ensures Child(n, i) !in tbl
    ensures Grown(s, tbl, Linked(s, tbl[n], i), tbl[Child(n, i) := s.free[0]], shared, vpn, n.level - 1)
  {
    hide Link, Lookup, Over;
    LinkNew(s, tbl, shared, n, i);
    var t := Linked(s, tbl[n], i);
    forall w
      ensures Lookup(t.mem, tbl[Child(n, i) := s.free[0]], w) == Lookup(s.mem, tbl, w)
    {
      LookupAfterLink(s, tbl, shared, n, i, w);
    }
    assert Shape(s, tbl, n);
    forall m, j | m in tbl && m.level >= 3 && 0 <= j < ENTRIES && Read(s.mem, tbl[m], j).present
      ensures Read(t.mem, tbl[m], j) == Read(s.mem, tbl[m], j)
    {
      assert Shape(s, tbl, m);
    }
    forall m | m in tbl && m.level == 1
      ensures tbl[m] in t.mem && tbl[m] in s.mem && t.mem[tbl[m]] == s.mem[tbl[m]]
    {
      assert Shape(s, tbl, m);
    }
    assert tbl[n] in Pool(s, tbl) && s.free[0] in Pool(s, tbl);
  }

  /** How many tables are missing between `table` and level `floor`. */
  function Missing(mem: Memory, table: nat, level: nat, floor: nat, vpn: nat): nat
    decreases level
  {
    if level <= floor then 0
    else
      var e := Read(mem, table, Index(vpn, level));
      if e.present then Missing(mem, e.frame, level - 1, floor, vpn) else level - floor
  }

  /** No superpage stands on the path down to `floor`. */
  ghost predicate PathClear(s: Space, tbl: Tables, shared: set<nat>, vpn: nat, floor: nat) {
    && vpn < PAGES
    && (floor <= 2 ==> Region(vpn) !in shared)
    && (floor <= 1 && Over(vpn, 2) in tbl ==> !Read(s.mem, tbl[Over(vpn, 2)], Index(vpn, 2)).page)
  }

  lemma {:induction false} DescendGrows(s: Space, tbl: Tables, shared: set<nat>, level: nat, floor: nat, vpn: nat)
    returns (u: Tables)
    requires Core(s, tbl, shared) && 1 <= floor <= level <= 4 && Over(vpn, level) in tbl
    requires PathClear(s, tbl, shared, vpn, floor)
    ensures var (t, r) := Descend(s, tbl[Over(vpn, level)], level, floor, vpn);
      && Grown(s, tbl, t, u, shared, vpn, if r.Some? then floor else floor + 1)
      && (r.Some? ==> Over(vpn, floor) in u && r.value == u[Over(vpn, floor)])
      && (r.Some? <==> Missing(s.mem, tbl[Over(vpn, level)], level, floor, vpn) <= |s.free|)
      && (r.Some? ==> |t.free| + Missing(s.mem, tbl[Over(vpn, level)], level, floor, vpn) == |s.free|)
    decreases level
  {
    hide Grown, Over, Index, Core, Lookup, PathClear, Foreign;
    var n, i := Over(vpn, level), Index(vpn, level);
    u := tbl;
    GrownRefl(s, tbl, shared, vpn, floor);
    if level > floor {
      PathEntry(s, tbl, shared, vpn, level, floor);
      if Read(s.mem, tbl[n], i).present {
        u := DescendGrows(s, tbl, shared, level - 1, floor, vpn);
      } else if s.free == [] {
        GrownRefl(s, tbl, shared, vpn, floor + 1);
      } else {
        PathOwned(s, tbl, shared, vpn, floor);
        u := DescendFresh(s, tbl, shared, level, floor, vpn);
      }
    }
  }

  lemma PathOwned(s: Space, tbl: Tables, shared: set<nat>, vpn: nat, floor: nat)
    requires PathClear(s, tbl, shared, vpn, floor)
    ensures floor <= 2 ==> Region(vpn) !in shared
  {
  }

  /** An entry on the path leads to the next table, or there is none further down. */
  lemma PathEntry(s: Space, tbl: Tables, shared: set<nat>, vpn: nat, level: nat, floor: nat)
    requires Core(s, tbl, shared) && 1 <= floor < level <= 4 && Over(vpn, level) in tbl
    requires PathClear(s, tbl, shared, vpn, floor)
    ensures var e := Read(s.mem, tbl[Over(vpn, level)], Index(vpn, level));
      if e.present then Over(vpn, level - 1) in tbl && e.frame == tbl[Over(vpn, level - 1)]
      else Over(vpn, level - 1) !in tbl && Over(vpn, floor) !in tbl
  {
    hide Over, Index;
    var n, i := Over(vpn, level), Index(vpn, level);
    assert Link(Read(s.mem, tbl[n], i), tbl, shared, n, i);
    PathStep(vpn, level);
    EntryNotForeign(shared, vpn, level, floor);
    if !Read(s.mem, tbl[n], i).present {
      OnPathBelow(s, tbl, shared, vpn, level, floor);
    }
  }

  lemma EntryNotForeign(shared: set<nat>, vpn: nat, level: nat, floor: nat)
    requires 1 <= floor < level <= 4 && (floor <= 2 ==> Region(vpn) !in shared)
    ensures !Foreign(shared, Over(vpn, level), Index(vpn, level))
  {
    if level == 3 { NotForeign(shared, vpn, level); }
  }

  lemma OnPathBelow(s: Space, tbl: Tables, shared: set<nat>, vpn: nat, level: nat, floor: nat)
    requires Core(s, tbl, shared) && 1 <= floor < level <= 4 && Over(vpn, level - 1) !in tbl
    ensures Over(vpn, floor) !in tbl
  {
    NothingBelow(s, tbl, shared, vpn, level);
  }

  /** The page just linked is cleared. */
  lemma LinkedReads(s: Space, tbl: Tables, shared: set<nat>, n: Node, i: nat)
    requires Core(s, tbl, shared) && n in tbl && s.free != []
    ensures forall j :: 0 <= j < ENTRIES ==> Read(Linked(s, tbl[n], i).mem, s.free[0], j) == ZERO
  {
    assert Shape(s, tbl, n);
  }

  /** Linking at `level` and going on from the cleared table. */
  lemma {:induction false} DescendFresh(s: Space, tbl: Tables, shared: set<nat>, level: nat, floor: nat, vpn: nat)
    returns (u: Tables)
    requires Core(s, tbl, shared) && 1 <= floor < level <= 4 && Over(vpn, level) in tbl
    requires floor <= 2 ==> Region(vpn) !in shared
    requires !Read(s.mem, tbl[Over(vpn, level)], Index(vpn, level)).present && s.free != []
    ensures var (t, r) := Descend(s, tbl[Over(vpn, level)], level, floor, vpn);
      && Grown(s, tbl, t, u, shared, vpn, if r.Some? then floor else floor + 1)
      && (r.Some? ==> Over(vpn, floor) in u && r.value == u[Over(vpn, floor)])
      && (r.Some? <==> level - floor <= |s.free|)
      && (r.Some? ==> |t.free| + (level - floor) == |s.free|)
    decreases level
  {
    hide Over, Index, Grown, Link, Shape;
    var n, i := Over(vpn, level), Index(vpn, level);
    NoChild(s, tbl, shared, n, i);
    LinkedReads(s, tbl, shared, n, i);
    PathStep(vpn, level);
    EntryNotForeign(shared, vpn, level, floor);
    LinkGrows(s, tbl, shared, n, i, vpn);
    var t1, u1 := Linked(s, tbl[n], i), tbl[Child(n, i) := s.free[0]];
    assert Ensure(s, tbl[n], i) == (t1, Some(s.free[0]));
    GrownCore(s, tbl, t1, u1, shared, vpn, level - 1);
    if level - 1 == floor {
      u := u1;
    } else {
      GrownWeaken(s, tbl, t1, u1, shared, vpn, level - 1, floor + 1);
      GrownWeaken(s, tbl, t1, u1, shared, vpn, level - 1, floor);
      if t1.free == [] {
        u := u1;
      } else {
        u := DescendFresh(t1, u1, shared, level - 1, floor, vpn);
        var (t, r) := Descend(t1, s.free[0], level - 1, floor, vpn);
        GrownTrans(s, tbl, t1, u1, t, u, shared, vpn, if r.Some? then floor else floor + 1);
      }
    }
  }

  lemma {:induction false} FindDirectory(s: Space, tbl: Tables, shared: set<nat>, vpn: nat, level: nat)
    requires Core(s, tbl, shared) && vpn < PAGES && Region(vpn) !in shared
    requires 2 <= level <= 4 && Over(vpn, level) in tbl
    ensures Find(s.mem, tbl[Over(vpn, level)], level, 2, vpn) ==
      if Over(vpn, 2) in tbl then Some(tbl[Over(vpn, 2)]) else None
    decreases level
  {
    if level > 2 {
      var n, i := Over(vpn, level), Index(vpn, level);
      var e := Read(s.mem, tbl[n], i);
      assert Link(e, tbl, shared, n, i);
      PathStep(vpn, level);
      NotForeign(shared, vpn, level);
      if e.present {
        FindDirectory(s, tbl, shared, vpn, level - 1);
      } else {
        OnPathBelow(s, tbl, shared, vpn, level, 2);
      }
    }
  }
}
