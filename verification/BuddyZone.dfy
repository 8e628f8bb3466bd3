/** The buddy allocator as the source runs it: an array of list heads updated
    in place by loops and mutual recursion. */
module BuddyZone {
  import opened Basics
  import opened PowersOfTwo
  import opened BuddyModel
  import L = SortedList

  class Zone {
    const heads: array<seq<nat>>

    ghost predicate Valid() {
      heads.Length == MAX_ORDER + 1
    }

    constructor ()
      ensures Valid() && fresh(heads)
      ensures forall k :: 0 <= k <= MAX_ORDER ==> heads[k] == []
    {
      heads := new seq<nat>[MAX_ORDER + 1](_ => []);
    }

    /** Sorted insertion into one list. */
    method AddBlock(order: nat, addr: nat)
      requires Valid() && order <= MAX_ORDER
      modifies heads
      ensures heads[..] == BuddyModel.AddBlock(old(heads[..]), order, addr)
    {
      var cur := 0;
      while cur < |heads[order]| && heads[order][cur] <= addr
        invariant cur <= |heads[order]| && heads[..] == old(heads[..])
        invariant forall i :: 0 <= i < cur ==> heads[order][i] <= addr
      {
        cur := cur + 1;
      }
      PositionIs(heads[order], addr, cur);
      heads[order] := heads[order][..cur] + [addr] + heads[order][cur..];
    }

    method AddRegionOrder(order: int, base: nat, next: nat)
      requires Valid() && order <= MAX_ORDER && base < WORD && next < WORD
      modifies heads
      ensures heads[..] == BuddyModel.AddRegionOrder(old(heads[..]), order, base, next)
      decreases order + 1
    {
      if order < 0 {
        return;
      }
      var up := AlignUp(base, order);
      var down := AlignDown(next, order);
      if base != up {
        AddRegionOrder(order - 1, base, if up < next then up else next);
      }
      if next != down && down >= base {
        AddRegionOrder(order - 1, if down > base then down else base, next);
      }
      AddRun(order, up, BlockCount(order, up, down));
    }

    /** The counting loop that ends a seeding step. */
    method AddRun(order: nat, start: nat, nr: int)
      requires Valid() && order <= MAX_ORDER
      modifies heads
      ensures heads[..] == AddBlocks(old(heads[..]), order, start, 0, nr)
    {
      var i: nat := 0;
      while i < nr
        invariant AddBlocks(old(heads[..]), order, start, 0, nr) == AddBlocks(heads[..], order, start, i, nr)
      {
        UnfoldRun(heads[..], order, start, i, nr);
        var addr := start + i * Size(order);
        AddBlock(order, addr);
        i := i + 1;
      }
    }

    method AddRegion(base: nat, next: nat)
      requires Valid() && base < WORD && next < WORD
      modifies heads
      ensures heads[..] == BuddyModel.AddRegion(old(heads[..]), base, next)
    {
      AddRegionOrder(MAX_ORDER, base, next);
    }

    method SplitBuddy(order: nat)
      requires Valid() && order <= MAX_ORDER
      modifies heads
      ensures heads[..] == Split(old(heads[..]), order)
      decreases MAX_ORDER - order
    {
      if order >= MAX_ORDER {
        return;
      }
      if heads[order] != [] {
        return;
      }
      SplitBuddy(order + 1);
      if heads[order + 1] == [] {
        return;
      }
      ghost var t := heads[..];
      var block := heads[order + 1][0];
      heads[order + 1] := heads[order + 1][1..];
      heads[order] := [block, block + Size(order)];
      assert heads[..] == t[order + 1 := t[order + 1][1..]][order := [block, block + Size(order)]];
    }

    method Allocate(order: nat) returns (r: Option<nat>)
      requires Valid()
      modifies heads
      ensures (r, heads[..]) == Alloc(old(heads[..]), order)
    {
      if order > MAX_ORDER {
        return None;
      }
      SplitBuddy(order);
      if heads[order] == [] {
        return None;
      }
      ghost var t := heads[..];
      r := Some(heads[order][0]);
      heads[order] := heads[order][1..];
      assert heads[..] == t[order := t[order][1..]];
    }

    method Release(addr: nat, order: nat)
      requires Valid()
      modifies heads
      ensures heads[..] == InsertBuddy(old(heads[..]), addr, order)
      decreases MAX_ORDER + 1 - order, 1
    {
      if order > MAX_ORDER {
        return;
      }
      var cur := 0;
      while cur < |heads[order]| && heads[order][cur] <= addr
        invariant cur <= |heads[order]| && heads[..] == old(heads[..])
        invariant forall i :: 0 <= i < cur ==> heads[order][i] <= addr
      {
        cur := cur + 1;
      }
      PositionIs(heads[order], addr, cur);
      heads[order] := heads[order][..cur] + [addr] + heads[order][cur..];
      assert heads[..] == old(heads[..])[order := L.Insert(old(heads[..])[order], addr)];
      MergeBuddies(order);
    }

    method MergeBuddies(order: nat)
      requires Valid() && order <= MAX_ORDER
      modifies heads
      ensures heads[..] == MergeBuddy(old(heads[..]), order)
      decreases MAX_ORDER + 1 - order, 0
    {
      if order >= MAX_ORDER {
        return;
      }
      var cur := 0;
      while cur < |heads[order]|
        invariant MergeFrom(heads[..], order, cur) == MergeFrom(old(heads[..]), order, 0)
        decreases |heads[order]| - cur
      {
        if PairAt(heads[order], order, cur) {
          ghost var s := heads[..];
          var block := heads[order][cur];
          heads[order] := heads[order][..cur] + heads[order][cur + 2..];
          assert heads[..] == s[order := s[order][..cur] + s[order][cur + 2..]];
          ghost var u := heads[..];
          Release(block, order + 1);
          assert heads[order] == heads[..][order] == u[order];
          if cur >= |heads[order]| {
            break;
          }
        }
        cur := cur + 1;
      }
    }
  }

  lemma UnfoldRun(s: Lists, k: nat, start: nat, i: nat, nr: int)
    requires k <= MAX_ORDER && i < nr
    ensures start + i * Size(k) >= 0
    ensures AddBlocks(s, k, start, i, nr) == AddBlocks(AddBlock(s, k, start + i * Size(k)), k, start, i + 1, nr)
  {
    MulMonotone(0, i, Size(k));
  }

  /** The walk of the insertion loops stops at the sorted position. */
  lemma {:induction false} PositionIs(l: seq<nat>, a: nat, p: nat)
    requires p <= |l| && (forall i :: 0 <= i < p ==> l[i] <= a) && (p < |l| ==> a < l[p])
    ensures L.Position(l, a) == p
  {
    if p > 0 { PositionIs(l[1..], a, p - 1); }
  }
}
