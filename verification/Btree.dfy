/** The unbalanced binary tree: insertion, deletion that hangs the right
    subtree under the rightmost node of the left one, and directed search.
    A comparison of a payload with a node is read as the sign of the
    difference of their keys. */
module Btree {
  import opened Basics

  datatype Tree<T> = Leaf | Node(left: Tree<T>, data: T, right: Tree<T>)

  function InOrder<T>(t: Tree<T>): seq<T> {
    match t
    case Leaf => []
    case Node(l, x, r) => InOrder(l) + [x] + InOrder(r)
  }

  ghost function Elems<T>(t: Tree<T>): set<T> {
    match t
    case Leaf => {}
    case Node(l, x, r) => Elems(l) + {x} + Elems(r)
  }

  /** `left <= node < right` at every node. */
  ghost predicate Ordered<T(!new)>(t: Tree<T>, key: T -> int) {
    match t
    case Leaf => true
    case Node(l, x, r) =>
      && Ordered(l, key) && Ordered(r, key)
      && (forall y :: y in Elems(l) ==> key(y) <= key(x))
      && (forall y :: y in Elems(r) ==> key(x) < key(y))
  }

  function Add<T>(t: Tree<T>, x: T, key: T -> int, allowdup: bool): (r: (Tree<T>, bool))
    ensures !r.1 ==> r.0 == t
    ensures allowdup ==> r.1
  {
    match t
    case Leaf => (Node(Leaf, x, Leaf), true)
    case Node(l, y, r) =>
      var c := key(x) - key(y);
      if !allowdup && c == 0 then (t, false)
      else if c > 0 then
        var (r', ok) := Add(r, x, key, allowdup);
        (Node(l, y, r'), ok)
      else
        var (l', ok) := Add(l, x, key, allowdup);
        (Node(l', y, r), ok)
  }

  /** The right subtree hung under the rightmost node of the left one. */
  function Join<T>(l: Tree<T>, r: Tree<T>): Tree<T> {
    match l
    case Leaf => r
    case Node(a, x, b) => Node(a, x, Join(b, r))
  }

  function Delete<T(==)>(t: Tree<T>, x: T, key: T -> int): (Tree<T>, bool) {
    match t
    case Leaf => (Leaf, false)
    case Node(l, y, r) =>
      if x == y then (Join(l, r), true)
      else if key(x) - key(y) > 0 then
        var (r', found) := Delete(r, x, key);
        (Node(l, y, r'), found)
      else
        var (l', found) := Delete(l, x, key);
        (Node(l', y, r), found)
  }

  /** A directed search: 0 stops, positive goes right, negative goes left. */
  function Search<T>(t: Tree<T>, cond: T -> int): (r: Option<T>)
    ensures r.Some? ==> cond(r.value) == 0
  {
    match t
    case Leaf => None
    case Node(l, x, r) =>
      var c := cond(x);
      if c == 0 then Some(x) else if c > 0 then Search(r, cond) else Search(l, cond)
  }

  lemma {:induction false} SearchMember<T>(t: Tree<T>, cond: T -> int)
    ensures Search(t, cond).Some? ==> Search(t, cond).value in Elems(t)
  {
    match t
    case Leaf =>
    case Node(l, x, r) =>
      SearchMember(l, cond);
      SearchMember(r, cond);
  }

  // ---- In-order reading --------------------------------------------------------------

  lemma {:induction false} ElemsInOrder<T>(t: Tree<T>, y: T)
    ensures y in InOrder(t) <==> y in Elems(t)
  {
    match t
    case Leaf =>
    case Node(l, x, r) =>
      ElemsInOrder(l, y);
      ElemsInOrder(r, y);
  }

  /** No node occurs twice. */
  ghost predicate Simple<T>(t: Tree<T>) {
    match t
    case Leaf => true
    case Node(l, x, r) => Simple(l) && Simple(r) && x !in Elems(l) && x !in Elems(r) && Elems(l) !! Elems(r)
  }

  ghost predicate Sorted<T>(s: seq<T>, key: T -> int) {
    forall i, j :: 0 <= i < j < |s| ==> key(s[i]) <= key(s[j])
  }

  /** The in-order sequence of an ordered tree is sorted. */
  lemma {:induction false} OrderedIsSorted<T(!new)>(t: Tree<T>, key: T -> int)
    requires Ordered(t, key)
    ensures Sorted(InOrder(t), key)
  {
    match t
    case Leaf =>
    case Node(l, x, r) =>
      OrderedIsSorted(l, key);
      OrderedIsSorted(r, key);
      var a, b, s := InOrder(l), InOrder(r), InOrder(t);
      forall i, j | 0 <= i < j < |s|
        ensures key(s[i]) <= key(s[j])
      {
        if i < |a| { ElemsInOrder(l, s[i]); }
        if j > |a| { ElemsInOrder(r, s[j]); }
        assert i > |a| ==> s[i] == b[i - |a| - 1];
        assert j < |a| ==> s[j] == a[j];
        assert i < |a| ==> s[i] == a[i];
        assert j > |a| ==> s[j] == b[j - |a| - 1];
      }
  }

  // ---- Traversal -----------------------------------------------------------------------

  /** Visit the nodes in order, carrying the callback's data along; stop at the first nonzero answer. */
  function Traverse<T, S>(t: Tree<T>, visit: (T, S) -> (S, int), data: S): (S, int) {
    match t
    case Leaf => (data, 0)
    case Node(l, x, r) =>
      var (d, ret) := Traverse(l, visit, data);
      if ret != 0 then (d, ret)
      else
        var (d2, ret2) := visit(x, d);
        if ret2 != 0 then (d2, ret2) else Traverse(r, visit, d2)
  }

  /** The same over a plain sequence. */
  function VisitAll<T, S>(s: seq<T>, visit: (T, S) -> (S, int), data: S): (S, int) {
    if s == [] then (data, 0)
    else
      var (d, ret) := visit(s[0], data);
      if ret != 0 then (d, ret) else VisitAll(s[1..], visit, d)
  }

  lemma {:induction false} VisitParts<T, S>(a: seq<T>, b: seq<T>, visit: (T, S) -> (S, int), data: S)
    ensures var (d, ret) := VisitAll(a, visit, data);
      VisitAll(a + b, visit, data) == if ret != 0 then (d, ret) else VisitAll(b, visit, d)
    decreases |a|
  {
    if a == [] {
      assert a + b == b;
    } else {
      assert (a + b)[1..] == a[1..] + b;
      VisitParts(a[1..], b, visit, visit(a[0], data).0);
    }
  }

  /** A traversal visits the in-order sequence, up to the first nonzero answer and no further. */
  lemma {:induction false} TraverseInOrder<T, S>(t: Tree<T>, visit: (T, S) -> (S, int), data: S)
    ensures Traverse(t, visit, data) == VisitAll(InOrder(t), visit, data)
  {
    match t
    case Leaf =>
    case Node(l, x, r) =>
      var a, b := InOrder(l), [x] + InOrder(r);
      assert InOrder(t) == a + b && b[1..] == InOrder(r);
      VisitParts(a, b, visit, data);
      var d := Traverse(l, visit, data).0;
      TraverseInOrder(l, visit, data);
      TraverseInOrder(r, visit, visit(x, d).0);
  }

  // ---- Insertion ---------------------------------------------------------------------

  lemma {:induction false} AddElems<T>(t: Tree<T>, x: T, key: T -> int, allowdup: bool)
    ensures var (r, ok) := Add(t, x, key, allowdup);
      Elems(r) == Elems(t) + if ok then {x} else {}
  {
    match t
    case Leaf =>
    case Node(l, y, r) =>
      if key(x) > key(y) {
        AddElems(r, x, key, allowdup);
      } else {
        AddElems(l, x, key, allowdup);
      }
  }

  lemma {:induction false} AddRefuses<T(!new)>(t: Tree<T>, x: T, key: T -> int, allowdup: bool)
    requires Ordered(t, key)
    ensures Add(t, x, key, allowdup).1 <==> allowdup || forall y :: y in Elems(t) ==> key(y) != key(x)
  {
    match t
    case Leaf =>
    case Node(l, y, r) =>
      if key(x) > key(y) {
        AddRefuses(r, x, key, allowdup);
      } else {
        AddRefuses(l, x, key, allowdup);
      }
  }

  /** Insertion keeps the order and adds exactly the payload; it is refused
      exactly when duplicates are not allowed and a member has the same key. */
  lemma {:induction false} AddKeepsOrder<T(!new)>(t: Tree<T>, x: T, key: T -> int, allowdup: bool)
    requires Ordered(t, key)
    ensures var (r, ok) := Add(t, x, key, allowdup);
      && (ok <==> allowdup || forall y :: y in Elems(t) ==> key(y) != key(x))
      && (ok ==> Ordered(r, key) && Elems(r) == Elems(t) + {x})
  {
    AddElems(t, x, key, allowdup);
    AddRefuses(t, x, key, allowdup);
    match t
    case Leaf =>
    case Node(l, y, r) =>
      if key(x) > key(y) {
        AddKeepsOrder(r, x, key, allowdup);
      } else {
        AddKeepsOrder(l, x, key, allowdup);
      }
  }

  lemma {:induction false} AddSimple<T(!new)>(t: Tree<T>, x: T, key: T -> int, allowdup: bool)
    requires Ordered(t, key) && Simple(t) && x !in Elems(t) && Add(t, x, key, allowdup).1
    ensures Simple(Add(t, x, key, allowdup).0)
  {
    match t
    case Leaf =>
    case Node(l, y, r) =>
      if key(x) > key(y) {
        AddSimple(r, x, key, allowdup);
        AddKeepsOrder(r, x, key, allowdup);
      } else {
        AddSimple(l, x, key, allowdup);
        AddKeepsOrder(l, x, key, allowdup);
      }
  }

  /** In the in-order sequence, keys to the left of a node are not larger, and to the right larger. */
  lemma KeysInOrder<T(!new)>(l: Tree<T>, y: T, r: Tree<T>, key: T -> int)
    requires Ordered(Node(l, y, r), key)
    ensures forall i :: 0 <= i < |InOrder(l)| ==> key(InOrder(l)[i]) <= key(y)
    ensures forall i :: 0 <= i < |InOrder(r)| ==> key(y) < key(InOrder(r)[i])
  {
    forall i | 0 <= i < |InOrder(l)|
      ensures key(InOrder(l)[i]) <= key(y)
    {
      ElemsInOrder(l, InOrder(l)[i]);
    }
    forall i | 0 <= i < |InOrder(r)|
      ensures key(y) < key(InOrder(r)[i])
    {
      ElemsInOrder(r, InOrder(r)[i]);
    }
  }

  lemma Regroup<T>(l: seq<T>, b: seq<T>, x: seq<T>, a: seq<T>, r: seq<T>)
    ensures l + (b + x + a) == (l + b) + x + a && l + (b + a) == (l + b) + a
    ensures (b + x + a) + r == b + x + (a + r) && (b + a) + r == b + (a + r)
  {
  }

  ghost predicate AllBelow<T>(s: seq<T>, key: T -> int, k: int) {
    forall i :: 0 <= i < |s| ==> key(s[i]) < k
  }

  ghost predicate NoneBelow<T>(s: seq<T>, key: T -> int, k: int) {
    forall i :: 0 <= i < |s| ==> k <= key(s[i])
  }

  /** Where insertion puts the payload: before every member whose key is not
      smaller, after all others. */
  lemma {:induction false} AddPosition<T(!new)>(t: Tree<T>, x: T, key: T -> int, allowdup: bool)
    returns (before: seq<T>, after: seq<T>)
    requires Ordered(t, key) && Add(t, x, key, allowdup).1
    ensures InOrder(t) == before + after
    ensures InOrder(Add(t, x, key, allowdup).0) == before + [x] + after
    ensures AllBelow(before, key, key(x)) && NoneBelow(after, key, key(x))
  {
    match t
    case Leaf =>
      before, after := [], [];
    case Node(l, y, r) =>
      KeysInOrder(l, y, r, key);
      var p, q := InOrder(l) + [y], [y] + InOrder(r);
      if key(x) > key(y) {
        var b, a := AddPosition(r, x, key, allowdup);
        before, after := p + b, a;
        Regroup(p, b, [x], a, []);
      } else {
        var b, a := AddPosition(l, x, key, allowdup);
        before, after := b, a + q;
        Regroup([], b, [x], a, q);
        assert forall s: seq<T> :: s + [y] + InOrder(r) == s + q;
      }
  }

  // ---- Deletion ----------------------------------------------------------------------

  lemma {:induction false} JoinElems<T>(l: Tree<T>, r: Tree<T>)
    ensures InOrder(Join(l, r)) == InOrder(l) + InOrder(r)
    ensures Elems(Join(l, r)) == Elems(l) + Elems(r)
  {
    match l
    case Leaf =>
    case Node(a, x, b) =>
      JoinElems(b, r);
      assert InOrder(a) + [x] + (InOrder(b) + InOrder(r)) == InOrder(l) + InOrder(r);
  }

  lemma {:induction false} JoinKeepsOrder<T(!new)>(l: Tree<T>, r: Tree<T>, key: T -> int)
    requires Ordered(l, key) && Ordered(r, key) && Simple(l) && Simple(r) && Elems(l) !! Elems(r)
    requires forall y, z :: y in Elems(l) && z in Elems(r) ==> key(y) < key(z)
    ensures Ordered(Join(l, r), key) && Simple(Join(l, r))
  {
    match l
    case Leaf =>
    case Node(a, x, b) =>
      JoinKeepsOrder(b, r, key);
      JoinElems(b, r);
  }

  lemma {:induction false} DeleteRemoves<T(!new)>(t: Tree<T>, x: T, key: T -> int)
    requires Ordered(t, key) && Simple(t)
    ensures var (r, found) := Delete(t, x, key);
      (found <==> x in Elems(t)) && Elems(r) == Elems(t) - {x}
  {
    match t
    case Leaf =>
    case Node(l, y, r) =>
      if x == y {
        JoinElems(l, r);
      } else if key(x) > key(y) {
        DeleteRemoves(r, x, key);
      } else {
        DeleteRemoves(l, x, key);
      }
  }

  /** Deletion finds every member, also among equal keys, and keeps the order. */
  lemma {:induction false} DeleteKeepsOrder<T(!new)>(t: Tree<T>, x: T, key: T -> int)
    requires Ordered(t, key) && Simple(t)
    ensures var (r, found) := Delete(t, x, key);
      (found <==> x in Elems(t)) && Ordered(r, key) && Simple(r) && Elems(r) == Elems(t) - {x}
  {
    DeleteRemoves(t, x, key);
    match t
    case Leaf =>
    case Node(l, y, r) =>
      if x == y {
        JoinKeepsOrder(l, r, key);
      } else if key(x) > key(y) {
        DeleteKeepsOrder(r, x, key);
      } else {
        DeleteKeepsOrder(l, x, key);
      }
  }

  /** The in-order sequence loses just the deleted member, although whole
      subtrees may hang elsewhere. */
  lemma {:induction false} DeleteCuts<T(!new)>(t: Tree<T>, x: T, key: T -> int) returns (before: seq<T>, after: seq<T>)
    requires Ordered(t, key) && Simple(t) && x in Elems(t)
    ensures InOrder(t) == before + [x] + after
    ensures InOrder(Delete(t, x, key).0) == before + after
  {
    match t
    case Node(l, y, r) =>
      var p, q := InOrder(l) + [y], [y] + InOrder(r);
      if x == y {
        before, after := InOrder(l), InOrder(r);
        JoinElems(l, r);
      } else if key(x) > key(y) {
        var b, a := DeleteCuts(r, x, key);
        before, after := p + b, a;
        Regroup(p, b, [x], a, []);
      } else {
        var b, a := DeleteCuts(l, x, key);
        before, after := b, a + q;
        Regroup([], b, [x], a, q);
        assert forall s: seq<T> :: s + [y] + InOrder(r) == s + q;
      }
  }
}
