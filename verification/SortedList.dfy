/** Strictly increasing address lists: the shape of every buddy free list. */
module SortedList {

  predicate Sorted(l: seq<nat>) {
    forall i, j :: 0 <= i < j < |l| ==> l[i] < l[j]
  }

  /** The index at which a walk that stops before the first larger address stops. */
  function Position(l: seq<nat>, a: nat): (p: nat)
    ensures p <= |l|
    ensures forall i :: 0 <= i < p ==> l[i] <= a
    ensures p < |l| ==> a < l[p]
  {
    if l == [] || a < l[0] then 0
    else
      var rest := Position(l[1..], a);
      assert forall i :: 1 <= i <= rest ==> l[i] == l[1..][i - 1];
      1 + rest
  }

  function Insert(l: seq<nat>, a: nat): (r: seq<nat>) {
    var p := Position(l, a);
    l[..p] + [a] + l[p..]
  }

  lemma InsertMembers(l: seq<nat>, a: nat, x: nat)
    ensures x in Insert(l, a) <==> x == a || x in l
  {
    var p := Position(l, a);
    assert l == l[..p] + l[p..];
  }

  lemma InsertSorted(l: seq<nat>, a: nat)
    requires Sorted(l) && a !in l
    ensures Sorted(Insert(l, a))
  {
    var p := Position(l, a);
    var r := Insert(l, a);
    forall i, j | 0 <= i < j < |r|
      ensures r[i] < r[j]
    {
      assert i < p ==> r[i] == l[i] && l[i] in l;
      assert i > p ==> r[i] == l[i - 1];
      assert j < p ==> r[j] == l[j];
      assert j > p ==> r[j] == l[j - 1];
    }
  }

  /** The list with one address cut out. */
  function Without(l: seq<nat>, a: nat): (r: seq<nat>)
    ensures forall x :: x in r <==> x in l && x != a
  {
    if l == [] then []
    else if l[0] == a then Without(l[1..], a)
    else [l[0]] + Without(l[1..], a)
  }

  lemma {:induction false} WithoutSorted(l: seq<nat>, a: nat)
    requires Sorted(l)
    ensures Sorted(Without(l, a))
  {
    if l != [] {
      WithoutSorted(l[1..], a);
      var r := Without(l[1..], a);
      forall i | 0 <= i < |r|
        ensures l[0] < r[i]
      {
        assert r[i] in l[1..];
      }
    }
  }

  lemma SomeMember(l: seq<nat>)
    ensures l == [] || exists x :: x in l
  {
    if l != [] { assert l[0] in l; }
  }

  /** A sorted list is determined by its elements. */
  lemma {:induction false} SortedUnique(l: seq<nat>, r: seq<nat>)
    requires Sorted(l) && Sorted(r)
    requires forall x :: x in l <==> x in r
    ensures l == r
  {
    if l == [] {
      SomeMember(r);
    } else {
      assert l[0] in r;
      assert r != [] && r[0] in l;
      assert l[0] == r[0];
      forall x
        ensures x in l[1..] <==> x in r[1..]
      {
        TailMembers(l, x);
        TailMembers(r, x);
      }
      SortedUnique(l[1..], r[1..]);
      assert l == [l[0]] + l[1..] && r == [r[0]] + r[1..];
    }
  }

  lemma TailMembers(l: seq<nat>, x: nat)
    requires Sorted(l) && l != []
    ensures x in l[1..] <==> x in l && x != l[0]
  {
    assert l == [l[0]] + l[1..];
  }
}
