/** Slab caches over whole runs of allocations and releases. */
module SlabRuns {
  import opened SlabModel
  import opened SlabTheorems
  import opened SlabRelease

  // ---- What one allocation hands out ------------------------------------------------------

  /** Object i of slab a goes into use; nothing else changes hands. */
  ghost predicate Gained(c: Cache, d: Cache, a: nat, i: nat) {
    && !Live(c, a, i)
    && forall b, j :: Live(d, b, j) <==> Live(c, b, j) || (b == a && j == i)
  }

  lemma RetireKeepsMarks(c: Cache)
    ensures SameButLinks(c.slabs, Retire(c).slabs) && Retire(c).size == c.size
  {
  }

  lemma AddSpareKeepsLive(c: Cache, spare: Pointer, b: nat, j: nat)
    requires Spare(c, spare)
    ensures Live(AddSpare(c, spare), b, j) <==> Live(c, b, j)
  {
  }

  /** The slab the object is taken from has a free one. */
  lemma SourceReady(c: Cache, spare: Pointer, p: seq<nat>, f: seq<nat>, e: seq<nat>)
    requires Rep(c, p, f, e) && Spare(c, spare)
    ensures var d := Promote(AddSpare(c, spare));
      if c.partial.Null? && c.full.Null? && spare.Null? then d == c
      else
        && d.partial.At? && d.partial.address in d.slabs && d.slabs == AddSpare(c, spare).slabs
        && Consistent(d.slabs[d.partial.address], c.size)
        && d.slabs[d.partial.address].nused < d.slabs[d.partial.address].nobjs
  {
    hide PagesApart, Capacity, InUse, Consistent;
    var g := AddSpareKeeps(c, p, f, e, spare);
    var b := AddSpare(c, spare);
    CleanMeans(c, p, f, e);
    CleanMeans(b, p, g, e);
    assert p != [] ==> b.partial == At(p[0]) && p[0] in p;
    assert g != [] ==> b.full == At(g[0]) && g[0] in g;
    assert Capacity(c.size) > 0;
    forall x | x in b.slabs ensures b.slabs[x].nobjs == Capacity(c.size) {
      assert Consistent(b.slabs[x], c.size);
      Sized(b.slabs[x], c.size);
    }
  }

  lemma Sized(h: Header, size: nat)
    requires Consistent(h, size)
    ensures h.nobjs == Capacity(size) == |h.marks|
  {
  }

  lemma LiveFrame(c: Cache, d: Cache, b: nat, j: nat)
    requires c.slabs == d.slabs
    ensures Live(c, b, j) <==> Live(d, b, j)
  {
  }

  lemma SpareKeepsSize(c: Cache, spare: Pointer)
    ensures AddSpare(c, spare).size == c.size
  {
  }

  /** Taking the first free object of a slab adds it to the objects in use. */
  lemma TakeGains(c: Cache, a: nat)
    requires a in c.slabs && FirstFree(c.slabs[a].marks) < |c.slabs[a].marks|
    ensures Gained(c, Retire(TakeAt(c, a)), a, FirstFree(c.slabs[a].marks))
  {
    hide Retire;
    RetireKeepsMarks(TakeAt(c, a));
  }

  /** An allocation fails exactly when there is no slab to take from, and then changes nothing;
      otherwise it hands out one object that was not in use, at its address in its slab. */
  lemma AllocateTakesOne(c: Cache, spare: Pointer) returns (a: nat, i: nat)
    requires Valid(c) && Spare(c, spare)
    ensures var (d, obj) := Allocate(c, spare);
      if c.partial.Null? && c.full.Null? && spare.Null? then obj.Null? && d == c
      else obj == At(ObjectAddress(a, c.size, i)) && i < Capacity(c.size) && Gained(c, d, a, i) && d.size == c.size
  {
    hide Rep, PagesApart, Capacity, InUse, Retire, AddSpare, FirstFree, Take, Live;
    a, i := 0, 0;
    var p, f, e :| Rep(c, p, f, e);
    SourceReady(c, spare, p, f, e);
    var b := AddSpare(c, spare);
    var d := Promote(b);
    if !(c.partial.Null? && c.full.Null? && spare.Null?) {
      a := d.partial.address;
      TakeOne(d.slabs[a], c.size);
      i := FirstFree(d.slabs[a].marks);
      Sized(d.slabs[a], c.size);
      TakeGains(d, a);
      RetireKeepsMarks(TakeAt(d, a));
      forall x, j ensures Live(d, x, j) <==> Live(c, x, j) {
        AddSpareKeepsLive(c, spare, x, j);
        LiveFrame(b, d, x, j);
      }
      assert AddSpare(c, spare).size == c.size by { SpareKeepsSize(c, spare); }
    }
  }

  // ---- Objects in use never overlap -------------------------------------------------------

  /** Every object in use lies inside the pages of its slab, past the header and the marks,
      and no two objects in use share a byte. */
  lemma LiveApart(c: Cache, a: nat, i: nat, b: nat, j: nat)
    requires Valid(c) && Live(c, a, i) && Live(c, b, j) && (a != b || i != j)
    ensures a + HEADER + Capacity(c.size) <= ObjectAddress(a, c.size, i)
    ensures ObjectAddress(a, c.size, i) + c.size <= a + SLAB_BYTES
    ensures
      || ObjectAddress(a, c.size, i) + c.size <= ObjectAddress(b, c.size, j)
      || ObjectAddress(b, c.size, j) + c.size <= ObjectAddress(a, c.size, i)
  {
    hide Listed, Capacity, ObjectBase, ObjectAddress;
    assert Headed(c);
    ObjectsFit(a, c.size, i);
    ObjectsFit(b, c.size, j);
  }

  // ---- Allocation undone ------------------------------------------------------------------

  lemma ObjectHeld(c: Cache, a: nat, i: nat)
    requires Valid(c) && Live(c, a, i) && c.size > 0
    ensures var x := ObjectAddress(a, c.size, i);
      Holds(a, c.slabs[a], c.size, x) && IndexOf(a, c.slabs[a], c.size, x) == i
  {
    hide Listed;
    assert Headed(c);
    Scaled(c.size, i + 1, Capacity(c.size));
    assert c.size * (i + 1) == c.size * i + c.size;
    IndexOfObject(a, c.size, i);
  }

  /** Releasing what was just allocated restores the objects in use. */
  lemma AllocateThenRelease(c: Cache, spare: Pointer)
    requires Valid(c) && Spare(c, spare) && Clean(c) && c.size > 0
    requires Allocate(c, spare).1.At?
    ensures var (d, obj) := Allocate(c, spare);
      && Valid(d) && Marked(d.slabs) && Release(d, obj.address).1 && Valid(Release(d, obj.address).0)
      && forall b, j :: Live(Release(d, obj.address).0, b, j) <==> Live(c, b, j)
  {
    hide Allocate, Release, Rep, Clean, Spare, Holds, IndexOf, Capacity, ObjectAddress;
    AllocateValidExactlyWhenClean(c, spare);
    var a, i := AllocateTakesOne(c, spare);
    var d := Allocate(c, spare).0;
    MarkedWhenValid(d);
    assert Live(d, a, i);
    ObjectHeld(d, a, i);
    ReleaseFreesOne(d, a, i, ObjectAddress(a, c.size, i));
  }

  // ---- Runs -------------------------------------------------------------------------------

  datatype Op = Get(spare: Pointer) | Give(slab: nat, index: nat)

  /** A caller releases objects it holds; the allocator is asked while Clean holds. */
  ghost predicate Allowed(c: Cache, op: Op) {
    match op
    case Get(spare) => Spare(c, spare) && Clean(c)
    case Give(a, i) => Live(c, a, i)
  }

  ghost function Step(c: Cache, op: Op): Cache {
    match op
    case Get(spare) => Allocate(c, spare).0
    case Give(a, i) => if Marked(c.slabs) then Release(c, ObjectAddress(a, c.size, i)).0 else c
  }

  ghost function Run(c: Cache, ops: seq<Op>): Cache
    decreases ops
  {
    if ops == [] then c else Run(Step(c, ops[0]), ops[1..])
  }

  ghost predicate AllAllowed(c: Cache, ops: seq<Op>)
    decreases ops
  {
    ops == [] || (Allowed(c, ops[0]) && AllAllowed(Step(c, ops[0]), ops[1..]))
  }

  lemma StepKeeps(c: Cache, op: Op)
    requires Valid(c) && c.size > 0 && Allowed(c, op)
    ensures Valid(Step(c, op)) && Step(c, op).size == c.size
    ensures forall a, i :: Live(c, a, i) && op != Give(a, i) ==> Live(Step(c, op), a, i)
  {
    hide Allocate, Release, Rep, Clean, Spare, Holds, IndexOf, Capacity, ObjectAddress;
    match op {
      case Get(spare) =>
        AllocateValidExactlyWhenClean(c, spare);
        var a, i := AllocateTakesOne(c, spare);
      case Give(a, i) =>
        MarkedWhenValid(c);
        ObjectHeld(c, a, i);
        ReleaseFreesOne(c, a, i, ObjectAddress(a, c.size, i));
        ReleaseKeepsSize(c, ObjectAddress(a, c.size, i));
    }
  }

  lemma ReleaseKeepsSize(c: Cache, address: nat)
    requires Marked(c.slabs)
    ensures Release(c, address).0.size == c.size
  {
  }

  /** Over every run, each slab stays on exactly the list its use count dictates,
      and an object in use stays in use until it is given back. */
  lemma {:induction false} RunKeeps(c: Cache, ops: seq<Op>)
    requires Valid(c) && c.size > 0 && AllAllowed(c, ops)
    ensures Valid(Run(c, ops)) && Run(c, ops).size == c.size
    ensures forall a, i :: Live(c, a, i) && Give(a, i) !in ops ==> Live(Run(c, ops), a, i)
    decreases ops
  {
    if ops != [] {
      StepKeeps(c, ops[0]);
      RunKeeps(Step(c, ops[0]), ops[1..]);
    }
  }

  /** A cache as created: one untouched slab. */
  function NewCache(size: nat, a: nat): Cache {
    Cache(size, Null, At(a), Null, map[a := NewHeader(size)])
  }

  /** A new cache meets the rule exactly when an object of its size fits a slab. */
  lemma NewCacheValid(size: nat, a: nat)
    ensures Valid(NewCache(size, a)) <==> size < SLAB_BYTES - HEADER - ALIGNMENT
  {
    RoomForOne(size);
    hide Capacity;
    var c := NewCache(size, a);
    if Capacity(size) > 0 {
      InUseBounds(NewHeader(size).marks);
      assert [a][1..] == [];
      assert Links(c.slabs, c.full, [a]);
      assert Rep(c, [], [a], []);
    }
  }

  lemma RoomForOne(size: nat)
    ensures Capacity(size) > 0 <==> size < SLAB_BYTES - HEADER - ALIGNMENT
  {
    var n, d := SLAB_BYTES - HEADER - ALIGNMENT, size + 1;
    if d <= n {
      assert n / d >= 1 by { assert n == n / d * d + n % d; }
    }
  }

  // ---- A run that leaves the rule -----------------------------------------------------------

  const LOW: nat := 0x1000_0000
  const HIGH: nat := LOW + SLAB_BYTES
  const LARGE: nat := 20000

  function OneObject(next: Pointer, used: bool): Header {
    Header(next, 1, if used then 1 else 0, [!used])
  }

  function TwoSlabs(full: Pointer, empty: Pointer, low: Header, high: Header): Cache {
    Cache(LARGE, Null, full, empty, map[LOW := low, HIGH := high])
  }

  lemma LargeObjects()
    ensures Capacity(LARGE) == 1 && NewHeader(LARGE) == OneObject(Null, false)
    ensures ObjectAddress(LOW, LARGE, 0) == LOW + 64 && ObjectAddress(HIGH, LARGE, 0) == HIGH + 64
  {
    assert seq(1, _ => true) == [true];
  }

  lemma TakeBoth()
    ensures var c := Allocate(NewCache(LARGE, LOW), Null).0;
      && c == Cache(LARGE, Null, Null, At(LOW), map[LOW := OneObject(Null, true)])
      && Allocate(c, At(HIGH)).0 == TwoSlabs(Null, At(HIGH), OneObject(Null, true), OneObject(At(LOW), true))
  {
    LargeObjects();
    hide Capacity, ObjectBase;
    assert FirstFree([true]) == 0 && [true][0 := false] == [false];
    var c := Allocate(NewCache(LARGE, LOW), Null).0;
    assert c.slabs == map[LOW := OneObject(Null, true)];
    assert Allocate(c, At(HIGH)).0.slabs == map[LOW := OneObject(Null, true), HIGH := OneObject(At(LOW), true)];
  }

  lemma GiveLow()
    ensures var c := TwoSlabs(Null, At(HIGH), OneObject(Null, true), OneObject(At(LOW), true));
      && Marked(c.slabs)
      && Release(c, LOW + 64).0 == TwoSlabs(At(LOW), At(HIGH), OneObject(Null, false), OneObject(Null, true))
  {
    var c := TwoSlabs(Null, At(HIGH), OneObject(Null, true), OneObject(At(LOW), true));
    assert FindSlab(c.slabs, At(LOW), LARGE, LOW + 64, {LOW}) == At(LOW);
    assert c.slabs.Keys - {HIGH} == {LOW};
    assert HolderOf(c, LOW + 64) == At(LOW) && IndexOf(LOW, c.slabs[LOW], LARGE, LOW + 64) == 0;
    var d := Mark(c, LOW, 0);
    assert [false][0 := true] == [true];
    assert d.slabs == map[LOW := OneObject(Null, false), HIGH := OneObject(At(LOW), true)];
    assert d.slabs.Keys - {HIGH} == {LOW};
    assert Unlink(d.slabs, At(LOW), LOW, {LOW}) == (Null, d.slabs);
    var r := EmptyToPartial(d, LOW);
    assert r.slabs == map[LOW := OneObject(Null, false), HIGH := OneObject(Null, true)];
    assert PartialToFull(r, LOW).slabs == r.slabs;
  }

  lemma GiveHigh()
    ensures var c := TwoSlabs(At(LOW), At(HIGH), OneObject(Null, false), OneObject(Null, true));
      && Marked(c.slabs)
      && Release(c, HIGH + 64).0 == TwoSlabs(At(HIGH), Null, OneObject(Null, false), OneObject(At(LOW), false))
  {
    var c := TwoSlabs(At(LOW), At(HIGH), OneObject(Null, false), OneObject(Null, true));
    assert HolderOf(c, HIGH + 64) == At(HIGH) && IndexOf(HIGH, c.slabs[HIGH], LARGE, HIGH + 64) == 0;
    var d := Mark(c, HIGH, 0);
    assert [false][0 := true] == [true];
    assert d.slabs == map[LOW := OneObject(Null, false), HIGH := OneObject(Null, false)];
    var r := EmptyToPartial(d, HIGH);
    assert r.slabs == d.slabs;
    assert PartialToFull(r, HIGH).slabs == map[LOW := OneObject(Null, false), HIGH := OneObject(At(LOW), false)];
  }

  /** Two takes and two gives on a new cache of large objects, all allowed, end with no partial
      and two full slabs: the next take puts the slab LOW on the partial and on the full list. */
  lemma RunLeavesClean()
    ensures var c := NewCache(LARGE, LOW);
      var ops := [Get(Null), Get(At(HIGH)), Give(LOW, 0), Give(HIGH, 0)];
      Valid(Run(c, ops)) && AllAllowed(c, ops) && !Clean(Run(c, ops)) && !Valid(Allocate(Run(c, ops), Null).0)
  {
    hide Allocate, Release, Capacity, ObjectAddress, Valid, PagesApart;
    var c := NewCache(LARGE, LOW);
    var ops := [Get(Null), Get(At(HIGH)), Give(LOW, 0), Give(HIGH, 0)];
    LargeObjects();
    TakeBoth();
    GiveLow();
    GiveHigh();
    var c1 := Step(c, ops[0]);
    var c2 := Step(c1, ops[1]);
    var c3 := Step(c2, ops[2]);
    var c4 := Step(c3, ops[3]);
    assert Spare(c1, At(HIGH)) by { HighIsSpare(c1); }
    RunOfFour(c, ops);
    NewCacheValid(LARGE, LOW);
    RunKeeps(c, ops);
    AllocateValidExactlyWhenClean(c4, Null);
  }

  lemma HighIsSpare(c: Cache)
    requires c.slabs.Keys == {LOW}
    ensures Spare(c, At(HIGH))
  {
  }

  lemma RunOfFour(c: Cache, ops: seq<Op>)
    requires |ops| == 4
    ensures var c1 := Step(c, ops[0]); var c2 := Step(c1, ops[1]); var c3 := Step(c2, ops[2]);
      && Run(c, ops) == Step(c3, ops[3])
      && (AllAllowed(c, ops) <==>
          Allowed(c, ops[0]) && Allowed(c1, ops[1]) && Allowed(c2, ops[2]) && Allowed(c3, ops[3]))
  {
    hide Step, Allowed;
    var c1 := Step(c, ops[0]);
    var c2 := Step(c1, ops[1]);
    var c3 := Step(c2, ops[2]);
    assert ops[1..][0] == ops[1] && ops[2..][0] == ops[2] && ops[3..][0] == ops[3];
    assert ops[1..][1..] == ops[2..] && ops[2..][1..] == ops[3..] && ops[3..][1..] == [];
    assert Run(c3, ops[3..]) == Step(c3, ops[3]);
    assert Run(c2, ops[2..]) == Run(c3, ops[3..]);
    assert Run(c1, ops[1..]) == Run(c2, ops[2..]);
    assert AllAllowed(c3, ops[3..]) <==> Allowed(c3, ops[3]);
    assert AllAllowed(c2, ops[2..]) <==> Allowed(c2, ops[2]) && AllAllowed(c3, ops[3..]);
    assert AllAllowed(c1, ops[1..]) <==> Allowed(c1, ops[1]) && AllAllowed(c2, ops[2..]);
  }

  // ---- An object released twice ---------------------------------------------------------------

  const HALF: nat := 16000

  function OneSlab(partial: Pointer, empty: Pointer, nused: int, marks: seq<bool>): Cache {
    Cache(HALF, partial, Null, empty, map[LOW := Header(Null, 2, nused, marks)])
  }

  lemma HalfObjects()
    ensures Capacity(HALF) == 2 && NewHeader(HALF) == Header(Null, 2, 0, [true, true])
    ensures ObjectAddress(LOW, HALF, 0) == LOW + 64
  {
    assert seq(2, _ => true) == [true, true];
  }

  lemma TakeTwo()
    ensures var c := Allocate(NewCache(HALF, LOW), Null).0;
      && c == OneSlab(At(LOW), Null, 1, [false, true])
      && Allocate(c, Null).0 == OneSlab(Null, At(LOW), 2, [false, false])
  {
    HalfObjects();
    hide Capacity, ObjectBase;
    assert FirstFree([true, true]) == 0 && [true, true][0 := false] == [false, true];
    assert FirstFree([false, true]) == 1 && [false, true][1 := false] == [false, false];
    var c := Allocate(NewCache(HALF, LOW), Null).0;
    assert c.slabs == map[LOW := Header(Null, 2, 1, [false, true])];
    assert Allocate(c, Null).0.slabs == map[LOW := Header(Null, 2, 2, [false, false])];
  }

  lemma GiveFirst()
    ensures var c := OneSlab(Null, At(LOW), 2, [false, false]);
      Marked(c.slabs) && Release(c, LOW + 64).0 == OneSlab(At(LOW), Null, 1, [true, false])
  {
    var c := OneSlab(Null, At(LOW), 2, [false, false]);
    assert HolderOf(c, LOW + 64) == At(LOW) && IndexOf(LOW, c.slabs[LOW], HALF, LOW + 64) == 0;
    var d := Mark(c, LOW, 0);
    assert [false, false][0 := true] == [true, false];
    assert d.slabs == map[LOW := Header(Null, 2, 1, [true, false])];
    assert EmptyToPartial(d, LOW).slabs == d.slabs;
  }

  /** After two takes and the give of the first object, all allowed, giving that object
      again is not refused, and breaks the rule. */
  lemma ReleasedTwice()
    ensures var c := NewCache(HALF, LOW);
      var ops := [Get(Null), Get(Null), Give(LOW, 0)];
      && AllAllowed(c, ops) && Valid(Run(c, ops)) && Marked(Run(c, ops).slabs)
      && Release(Run(c, ops), LOW + 64).1 && !Valid(Release(Run(c, ops), LOW + 64).0)
  {
    hide Allocate, Release, Capacity, ObjectAddress, Valid, PagesApart;
    var c := NewCache(HALF, LOW);
    var ops := [Get(Null), Get(Null), Give(LOW, 0)];
    HalfObjects();
    TakeTwo();
    GiveFirst();
    RunOfThree(c, ops);
    NewCacheValid(HALF, LOW);
    RunKeeps(c, ops);
    var d := Run(c, ops);
    assert d == OneSlab(At(LOW), Null, 1, [true, false]);
    FirstIsFree();
    ReleaseValidExactlyWhenLive(d, LOW + 64);
  }

  lemma FirstIsFree()
    ensures var d := OneSlab(At(LOW), Null, 1, [true, false]);
      && Marked(d.slabs) && HolderOf(d, LOW + 64) == At(LOW) && IndexOf(LOW, d.slabs[LOW], HALF, LOW + 64) == 0
      && !Live(d, LOW, 0) && Release(d, LOW + 64).1
  {
  }

  lemma RunOfThree(c: Cache, ops: seq<Op>)
    requires |ops| == 3
    ensures var c1 := Step(c, ops[0]); var c2 := Step(c1, ops[1]);
      && Run(c, ops) == Step(c2, ops[2])
      && (AllAllowed(c, ops) <==> Allowed(c, ops[0]) && Allowed(c1, ops[1]) && Allowed(c2, ops[2]))
  {
    hide Step, Allowed;
    var c1 := Step(c, ops[0]);
    var c2 := Step(c1, ops[1]);
    assert ops[1..][0] == ops[1] && ops[2..][0] == ops[2];
    assert ops[1..][1..] == ops[2..] && ops[2..][1..] == [];
    assert Run(c2, ops[2..]) == Step(c2, ops[2]);
    assert Run(c1, ops[1..]) == Run(c2, ops[2..]);
    assert AllAllowed(c2, ops[2..]) <==> Allowed(c2, ops[2]);
    assert AllAllowed(c1, ops[1..]) <==> Allowed(c1, ops[1]) && AllAllowed(c2, ops[2..]);
  }
}
