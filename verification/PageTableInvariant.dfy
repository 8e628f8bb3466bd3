/** The table pages form a tree.  `tbl` names every linked table by its level
    and the number of its span of address space; `shared` lists the 1 GiB
    regions whose page directory belongs to another address space. */
module PageTableInvariant {
  import opened Basics
  import opened PageTableModel

  datatype Node = Node(level: nat, prefix: nat)

  type Tables = map<Node, nat>

  const ROOT: Node := Node(4, 0)

  /** The table below entry `i` of table `n`. */
  function Child(n: Node, i: nat): Node {
    Node(if n.level == 0 then 0 else n.level - 1, n.prefix * ENTRIES + i)
  }

  function Up(n: Node): Node {
    Node(n.level + 1, n.prefix / ENTRIES)
  }

  /** The table at `level` that translates page `vpn`. */
  function Over(vpn: nat, level: nat): (n: Node)
    ensures n.level == level
  {
    Node(level,
         if level <= 1 then vpn / 512
         else if level == 2 then vpn / 262144
         else if level == 3 then vpn / 134217728
         else vpn / 68719476736)
  }

  /** The 1 GiB region of a page. */
  function Region(vpn: nat): nat {
    vpn / 262144
  }

  lemma PathStep(vpn: nat, level: nat)
    requires 2 <= level <= 4
    ensures Child(Over(vpn, level), Index(vpn, level)) == Over(vpn, level - 1)
  {
  }

  lemma PathTop(vpn: nat)
    requires vpn < PAGES
    ensures Over(vpn, 4) == ROOT
  {
  }

  /** A page is determined by its table and its index there. */
  lemma PathInjective(v: nat, w: nat)
    ensures Over(v, 1) == Over(w, 1) && Index(v, 1) == Index(w, 1) ==> v == w
    ensures Over(v, 2) == Over(w, 2) && Index(v, 2) == Index(w, 2) ==> v / 512 == w / 512
  {
    PathStep(v, 2);
    PathStep(w, 2);
  }

  lemma ChildUp(n: Node, i: nat)
    requires n.level >= 1 && i < ENTRIES
    ensures Up(Child(n, i)) == n
  {
  }

  lemma ChildInjective(n: Node, i: nat, m: Node, j: nat)
    requires n.level >= 1 && m.level >= 1 && i < ENTRIES && j < ENTRIES
    requires Child(n, i) == Child(m, j)
    ensures n == m && i == j
  {
  }

  predicate Foreign(shared: set<nat>, n: Node, i: nat) {
    n.level == 3 && n.prefix * ENTRIES + i in shared
  }

  /** What entry `i` of table `n` may hold. */
  predicate Link(e: Entry, tbl: Tables, shared: set<nat>, n: Node, i: nat) {
    && (!e.present ==> e == ZERO)
    && (n.level == 1 ==> !e.page)
    && (n.level >= 3 ==> !e.page)
    && (e.page ==> e.frame % 512 == 0)
    && (n.level >= 2 ==>
          && (Child(n, i) in tbl <==> e.present && !e.page && !Foreign(shared, n, i))
          && (Child(n, i) in tbl ==> e.frame == tbl[Child(n, i)])
          && (e.present && !e.page ==> e.rw && e.us))
  }

  ghost predicate Shape(s: Space, tbl: Tables, n: Node) {
    && 1 <= n.level <= 4
    && (n.level == 4 ==> n == ROOT)
    && (n.level < 4 ==> Up(n) in tbl)
    && n in tbl && tbl[n] in s.mem && tbl[n] !in s.free
  }

  ghost predicate SparePages(s: Space) {
    && (forall i :: 0 <= i < |s.free| ==> s.free[i] in s.mem)
    && (forall i, j :: 0 <= i < j < |s.free| ==> s.free[i] != s.free[j])
  }

  ghost predicate Core(s: Space, tbl: Tables, shared: set<nat>) {
    && ROOT in tbl && tbl[ROOT] == s.cr3
    && SparePages(s)
    && (forall n :: n in tbl ==> Shape(s, tbl, n))
    && (forall n, m :: n in tbl && m in tbl && tbl[n] == tbl[m] ==> n == m)
    && (forall n, i :: n in tbl && 0 <= i < ENTRIES ==> Link(Read(s.mem, tbl[n], i), tbl, shared, n, i))
    && (forall g :: g in shared ==>
        Node(3, g / ENTRIES) in tbl && Read(s.mem, tbl[Node(3, g / ENTRIES)], g % ENTRIES).present)
  }

  ghost predicate Populated(mem: Memory, table: nat) {
    exists i :: 0 <= i < ENTRIES && Read(mem, table, i).present
  }

  /** Every linked page table maps something. */
  ghost predicate AllPopulated(s: Space, tbl: Tables) {
    forall n :: n in tbl && n.level == 1 ==> Populated(s.mem, tbl[n])
  }

  ghost predicate Inv(s: Space, tbl: Tables, shared: set<nat>) {
    Core(s, tbl, shared) && AllPopulated(s, tbl)
  }

  /** The pages the space owns: linked tables and spare pages. */
  ghost function Pool(s: Space, tbl: Tables): set<nat> {
    tbl.Values + (set f | f in s.free)
  }

  /** Present entries of the two upper levels stay as they are. */
  ghost predicate KeepsUpper(mem: Memory, tbl: Tables, after: Memory) {
    forall n, i :: n in tbl && n.level >= 3 && 0 <= i < ENTRIES && Read(mem, tbl[n], i).present ==>
      Read(after, tbl[n], i) == Read(mem, tbl[n], i)
  }

  // ---- Reading through the tree -------------------------------------------------

  /** The walk in terms of the tree: only the last table matters. */
  function Lookup(mem: Memory, tbl: Tables, vpn: nat): Option<Mapping> {
    if Over(vpn, 1) in tbl then
      var e := Read(mem, tbl[Over(vpn, 1)], Index(vpn, 1));
      if e.present then Some(Mapping(e.frame, e.rw, e.us, e.global, 1)) else None
    else if Over(vpn, 2) in tbl then
      var e := Read(mem, tbl[Over(vpn, 2)], Index(vpn, 2));
      if e.present then Some(Mapping(e.frame + vpn % 512, e.rw, e.us, e.global, 2)) else None
    else None
  }

  lemma WalkLastTable(s: Space, tbl: Tables, shared: set<nat>, vpn: nat)
    requires Core(s, tbl, shared) && Over(vpn, 1) in tbl
    ensures Walk(s.mem, tbl[Over(vpn, 1)], 1, vpn) == Lookup(s.mem, tbl, vpn)
  {
  }

  lemma WalkDirectory(s: Space, tbl: Tables, shared: set<nat>, vpn: nat)
    requires Core(s, tbl, shared) && Over(vpn, 2) in tbl
    ensures Walk(s.mem, tbl[Over(vpn, 2)], 2, vpn) == Lookup(s.mem, tbl, vpn)
  {
    var e := Read(s.mem, tbl[Over(vpn, 2)], Index(vpn, 2));
    assert Link(e, tbl, shared, Over(vpn, 2), Index(vpn, 2));
    PathStep(vpn, 2);
    if e.present && !e.page {
      WalkLastTable(s, tbl, shared, vpn);
    }
  }

  lemma WalkUpper(s: Space, tbl: Tables, shared: set<nat>, vpn: nat, level: nat)
    requires Core(s, tbl, shared) && Region(vpn) !in shared
    requires 3 <= level <= 4 && Over(vpn, level) in tbl
    requires Over(vpn, level - 1) in tbl ==>
      Walk(s.mem, tbl[Over(vpn, level - 1)], level - 1, vpn) == Lookup(s.mem, tbl, vpn)
    ensures Walk(s.mem, tbl[Over(vpn, level)], level, vpn) == Lookup(s.mem, tbl, vpn)
  {
    var n, i := Over(vpn, level), Index(vpn, level);
    var e := Read(s.mem, tbl[n], i);
    assert Link(e, tbl, shared, n, i);
    PathStep(vpn, level);
    NotForeign(shared, vpn, level);
    if !e.present {
      NothingBelow(s, tbl, shared, vpn, level);
    }
  }

  lemma NotForeign(shared: set<nat>, vpn: nat, level: nat)
    requires 1 <= level <= 4 && Region(vpn) !in shared
    ensures !Foreign(shared, Over(vpn, level), Index(vpn, level))
  {
    if level == 3 { PathStep(vpn, 3); }
  }

  /** Without a linked child there is no table further down either. */
  lemma NothingBelow(s: Space, tbl: Tables, shared: set<nat>, vpn: nat, level: nat)
    requires Core(s, tbl, shared) && 2 <= level <= 4
    requires Over(vpn, level - 1) !in tbl
    ensures Over(vpn, 1) !in tbl
    ensures level >= 3 ==> Over(vpn, 2) !in tbl
  {
    forall l | 2 <= l <= 4
      ensures Up(Over(vpn, l - 1)) == Over(vpn, l)
    {
      PathStep(vpn, l);
      ChildUp(Over(vpn, l), Index(vpn, l));
    }
    assert Over(vpn, 1) in tbl ==> Shape(s, tbl, Over(vpn, 1));
    assert Over(vpn, 2) in tbl ==> Shape(s, tbl, Over(vpn, 2));
  }

  lemma WalkIsLookup(s: Space, tbl: Tables, shared: set<nat>, vpn: nat)
    requires Core(s, tbl, shared) && vpn < PAGES && Region(vpn) !in shared
    ensures Translate(s, vpn) == Lookup(s.mem, tbl, vpn)
  {
    PathTop(vpn);
    if Over(vpn, 2) in tbl { WalkDirectory(s, tbl, shared, vpn); }
    if Over(vpn, 3) in tbl { WalkUpper(s, tbl, shared, vpn, 3); }
    WalkUpper(s, tbl, shared, vpn, 4);
  }

  // ---- Three ways to change one entry ----------------------------------------------

  /** A write that links and unlinks no table. */
  lemma WriteLeaf(s: Space, tbl: Tables, shared: set<nat>, n: Node, i: nat, e: Entry)
    requires Core(s, tbl, shared) && n in tbl && i < ENTRIES
    requires Link(e, tbl, shared, n, i) && (Foreign(shared, n, i) ==> e.present)
    ensures Core(s.(mem := Write(s.mem, tbl[n], i, e)), tbl, shared)
  {
    var t := s.(mem := Write(s.mem, tbl[n], i, e));
    forall m, j | m in tbl && 0 <= j < ENTRIES
      ensures Link(Read(t.mem, tbl[m], j), tbl, shared, m, j)
    {
      assert Shape(s, tbl, m) && Shape(s, tbl, n);
      assert Link(Read(s.mem, tbl[m], j), tbl, shared, m, j);
    }
    forall m | m in tbl
      ensures Shape(t, tbl, m)
    {
      assert Shape(s, tbl, m);
    }
    forall g | g in shared
      ensures Read(t.mem, tbl[Node(3, g / ENTRIES)], g % ENTRIES).present
    {
      assert Read(s.mem, tbl[Node(3, g / ENTRIES)], g % ENTRIES).present;
    }
  }

  lemma LowWriteKeepsUpper(s: Space, tbl: Tables, shared: set<nat>, n: Node, i: nat, e: Entry)
    requires Core(s, tbl, shared) && n in tbl && n.level <= 2
    ensures KeepsUpper(s.mem, tbl, Write(s.mem, tbl[n], i, e))
  {
  }

  /** The state after `Ensure` takes a spare page. */
  function Linked(s: Space, table: nat, i: nat): Space
    requires s.free != []
  {
    var link := ZERO.(present := true, rw := true, us := true, frame := s.free[0]);
    s.(mem := Write(Clear(s.mem, s.free[0]), table, i, link), free := s.free[1..])
  }

  lemma NoChild(s: Space, tbl: Tables, shared: set<nat>, n: Node, i: nat)
    requires Core(s, tbl, shared) && n in tbl && n.level >= 2 && i < ENTRIES
    requires !Read(s.mem, tbl[n], i).present
    ensures Child(n, i) !in tbl && Read(s.mem, tbl[n], i) == ZERO
  {
    assert Link(Read(s.mem, tbl[n], i), tbl, shared, n, i);
  }

  lemma LinkNew(s: Space, tbl: Tables, shared: set<nat>, n: Node, i: nat)
    requires Core(s, tbl, shared) && n in tbl && n.level >= 2 && i < ENTRIES && s.free != []
    requires !Read(s.mem, tbl[n], i).present && !Foreign(shared, n, i)
    ensures Child(n, i) !in tbl
    ensures Core(Linked(s, tbl[n], i), tbl[Child(n, i) := s.free[0]], shared)
    ensures Pool(Linked(s, tbl[n], i), tbl[Child(n, i) := s.free[0]]) == Pool(s, tbl)
  {
    NoChild(s, tbl, shared, n, i);
    hide Link, Pool;
    var pg := s.free[0];
    var c := Child(n, i);
    var t := Linked(s, tbl[n], i);
    var u := tbl[c := pg];
    assert Shape(s, tbl, n);
    assert tbl[n] != pg;
    ChildUp(n, i);
    forall m | m in u
      ensures Shape(t, u, m)
    {
      if m != c { assert Shape(s, tbl, m); }
    }
    forall m, j | m in u && 0 <= j < ENTRIES
      ensures Link(Read(t.mem, u[m], j), u, shared, m, j)
    {
      LinkNewEntry(s, tbl, shared, n, i, m, j);
    }
    forall m, k | m in u && k in u && u[m] == u[k]
      ensures m == k
    {
      if m != c { assert Shape(s, tbl, m); }
      if k != c { assert Shape(s, tbl, k); }
    }
    forall g | g in shared
      ensures Node(3, g / ENTRIES) in u && Read(t.mem, u[Node(3, g / ENTRIES)], g % ENTRIES).present
    {
      var m := Node(3, g / ENTRIES);
      assert m in tbl && Shape(s, tbl, m);
      assert Read(s.mem, tbl[m], g % ENTRIES).present;
    }
    PoolLinked(s, tbl, n, i);
  }

  lemma LinkNewEntry(s: Space, tbl: Tables, shared: set<nat>, n: Node, i: nat, m: Node, j: nat)
    requires Core(s, tbl, shared) && n in tbl && n.level >= 2 && i < ENTRIES && s.free != []
    requires !Read(s.mem, tbl[n], i).present && !Foreign(shared, n, i) && Child(n, i) !in tbl
    requires (m in tbl || m == Child(n, i)) && j < ENTRIES
    ensures var u := tbl[Child(n, i) := s.free[0]];
      Link(Read(Linked(s, tbl[n], i).mem, u[m], j), u, shared, m, j)
  {
    if m == Child(n, i) {
      NewTableEntry(s, tbl, shared, n, i, j);
    } else {
      OldTableEntry(s, tbl, shared, n, i, m, j);
    }
  }

  /** A cleared table links nothing, and nothing below it was linked. */
  lemma NewTableEntry(s: Space, tbl: Tables, shared: set<nat>, n: Node, i: nat, j: nat)
    requires Core(s, tbl, shared) && n in tbl && n.level >= 2 && i < ENTRIES && s.free != []
    requires Child(n, i) !in tbl && j < ENTRIES
    ensures var u := tbl[Child(n, i) := s.free[0]];
      Link(Read(Linked(s, tbl[n], i).mem, s.free[0], j), u, shared, Child(n, i), j)
  {
    var c := Child(n, i);
    assert Shape(s, tbl, n);
    ChildUp(c, j);
    assert Child(c, j) in tbl ==> Shape(s, tbl, Child(c, j));
    assert Read(Linked(s, tbl[n], i).mem, s.free[0], j) == ZERO;
  }

  lemma OldTableEntry(s: Space, tbl: Tables, shared: set<nat>, n: Node, i: nat, m: Node, j: nat)
    requires Core(s, tbl, shared) && n in tbl && n.level >= 2 && i < ENTRIES && s.free != []
    requires !Read(s.mem, tbl[n], i).present && !Foreign(shared, n, i) && Child(n, i) !in tbl
    requires m in tbl && j < ENTRIES
    ensures var u := tbl[Child(n, i) := s.free[0]];
      Link(Read(Linked(s, tbl[n], i).mem, tbl[m], j), u, shared, m, j)
  {
    assert Shape(s, tbl, n) && Shape(s, tbl, m);
    assert Link(Read(s.mem, tbl[m], j), tbl, shared, m, j);
    if m.level >= 2 && Child(m, j) == Child(n, i) {
      ChildInjective(n, i, m, j);
    }
  }

  lemma PoolLinked(s: Space, tbl: Tables, n: Node, i: nat)
    requires s.free != [] && n in tbl && Child(n, i) !in tbl
    ensures Pool(Linked(s, tbl[n], i), tbl[Child(n, i) := s.free[0]]) == Pool(s, tbl)
  {
    var u := tbl[Child(n, i) := s.free[0]];
    assert s.free == [s.free[0]] + s.free[1..];
    assert u[Child(n, i)] in u.Values;
    forall f | f in tbl.Values
      ensures f in u.Values
    {
      var m :| m in tbl && tbl[m] == f;
      assert u[m] == f;
    }
  }

  /** The state after an emptied page table is unlinked and kept as spare. */
  function Unlinked(s: Space, table: nat, i: nat, pt: nat): Space {
    s.(mem := Write(s.mem, table, i, ZERO), free := [pt] + s.free)
  }

  lemma UnlinkEmpty(s: Space, tbl: Tables, shared: set<nat>, n: Node, i: nat)
    requires Core(s, tbl, shared) && n in tbl && n.level == 2 && i < ENTRIES && Child(n, i) in tbl
    ensures var pt := tbl[Child(n, i)];
      && Core(Unlinked(s, tbl[n], i, pt), tbl - {Child(n, i)}, shared)
      && Pool(Unlinked(s, tbl[n], i, pt), tbl - {Child(n, i)}) == Pool(s, tbl)
  {
    var c := Child(n, i);
    var pt := tbl[c];
    var t := Unlinked(s, tbl[n], i, pt);
    var u := tbl - {c};
    hide Link, Pool, Shape;
    assert Shape(s, tbl, n) && Shape(s, tbl, c);
    forall m | m in u
      ensures Shape(t, u, m)
    {
      UnlinkedShape(s, tbl, shared, n, i, m);
    }
    UnlinkedSpares(s, tbl, shared, n, i);
    forall m, j | m in u && 0 <= j < ENTRIES
      ensures Link(Read(t.mem, u[m], j), u, shared, m, j)
    {
      UnlinkEntry(s, tbl, shared, n, i, m, j);
    }
    forall g | g in shared
      ensures Node(3, g / ENTRIES) in u && Read(t.mem, u[Node(3, g / ENTRIES)], g % ENTRIES).present
    {
      assert Read(s.mem, tbl[Node(3, g / ENTRIES)], g % ENTRIES).present;
    }
    PoolUnlinked(s, tbl, n, i);
  }

  lemma UnlinkedShape(s: Space, tbl: Tables, shared: set<nat>, n: Node, i: nat, m: Node)
    requires Core(s, tbl, shared) && n in tbl && n.level == 2 && i < ENTRIES && Child(n, i) in tbl
    requires m in tbl && m != Child(n, i)
    ensures Shape(Unlinked(s, tbl[n], i, tbl[Child(n, i)]), tbl - {Child(n, i)}, m)
  {
    hide Link;
    assert Shape(s, tbl, m) && Shape(s, tbl, n) && Shape(s, tbl, Child(n, i));
  }

  lemma UnlinkedSpares(s: Space, tbl: Tables, shared: set<nat>, n: Node, i: nat)
    requires Core(s, tbl, shared) && n in tbl && n.level == 2 && i < ENTRIES && Child(n, i) in tbl
    ensures SparePages(Unlinked(s, tbl[n], i, tbl[Child(n, i)]))
  {
    hide Link;
    assert Shape(s, tbl, n) && Shape(s, tbl, Child(n, i));
  }

  lemma UnlinkEntry(s: Space, tbl: Tables, shared: set<nat>, n: Node, i: nat, m: Node, j: nat)
    requires Core(s, tbl, shared) && n in tbl && n.level == 2 && i < ENTRIES && Child(n, i) in tbl
    requires m in tbl && m != Child(n, i) && j < ENTRIES
    ensures Link(Read(Write(s.mem, tbl[n], i, ZERO), tbl[m], j), tbl - {Child(n, i)}, shared, m, j)
  {
    assert Shape(s, tbl, m) && Shape(s, tbl, n);
    assert Link(Read(s.mem, tbl[m], j), tbl, shared, m, j);
    if m.level >= 2 && Child(m, j) == Child(n, i) { ChildInjective(n, i, m, j); }
  }

  lemma PoolUnlinked(s: Space, tbl: Tables, n: Node, i: nat)
    requires n in tbl && Child(n, i) in tbl
    requires forall m, k :: m in tbl && k in tbl && tbl[m] == tbl[k] ==> m == k
    ensures Pool(Unlinked(s, tbl[n], i, tbl[Child(n, i)]), tbl - {Child(n, i)}) == Pool(s, tbl)
  {
    var c := Child(n, i);
    var u := tbl - {c};
    assert tbl[c] in tbl.Values;
    forall f | f in tbl.Values
      ensures f in u.Values || f == tbl[c]
    {
      var m :| m in tbl && tbl[m] == f;
      if m != c { assert u[m] == f; }
    }
    forall f | f in u.Values
      ensures f in tbl.Values
    {
      var m :| m in u && u[m] == f;
      assert tbl[m] == f;
    }
  }
}
