/** The tree operations on linked nodes, rewriting child pointers in place. */
module BtreeCode {
  import opened Basics
  import opened Btree
  import opened Ledger

  /** A tree node inside a record; the node of a free extent knows the record that holds it. */
  class TreeNode {
    const data: Extent
    const owner: FreeRecord?
    var left: TreeNode?
    var right: TreeNode?

    constructor (data: Extent, owner: FreeRecord?)
      ensures this.data == data && this.owner == owner && left == null && right == null
    {
      this.data, this.owner := data, owner;
      left, right := null, null;
    }
  }

  /** A free extent: one node for the tree by address, one for the tree by size. */
  class FreeRecord {
    const extent: Extent
    var anode: TreeNode?
    var snode: TreeNode?

    constructor (extent: Extent)
      ensures Whole() && this.extent == extent && fresh(anode) && fresh(snode)
      ensures anode.left == null && anode.right == null && snode.left == null && snode.right == null
    {
      this.extent := extent;
      anode, snode := null, null;
      new;
      anode := new TreeNode(extent, this);
      snode := new TreeNode(extent, this);
    }

    ghost predicate Whole()
      reads this
    {
      && anode != null && snode != null && anode != snode
      && anode.owner == this && snode.owner == this && anode.data == extent && snode.data == extent
    }
  }

  function NodeKey(key: Extent -> int): TreeNode -> int {
    (n: TreeNode) => key(n.data)
  }

  /** The nodes linked from n spell the tree t. */
  ghost predicate Rep(n: TreeNode?, t: Tree<TreeNode>)
    reads Elems(t)
    decreases t
  {
    match t
    case Leaf => n == null
    case Node(l, x, r) => n == x && Rep(x.left, l) && Rep(x.right, r)
  }

  /** Linked nodes exist, so a call that changes other nodes leaves them alone. */
  lemma {:induction false} Alive(n: TreeNode?, t: Tree<TreeNode>)
    requires Rep(n, t)
    ensures forall m :: m in Elems(t) ==> allocated(m)
    decreases t
  {
    match t
    case Leaf =>
    case Node(l, x, r) =>
      Alive(x.left, l);
      Alive(x.right, r);
  }

  method AddNode(root: TreeNode?, n: TreeNode, key: Extent -> int, allowdup: bool, ghost t: Tree<TreeNode>)
    returns (top: TreeNode?, ok: bool)
    requires Rep(root, t) && Simple(t) && n !in Elems(t)
    modifies Elems(t), n
    ensures ok == Add(t, n, NodeKey(key), allowdup).1
    ensures Rep(top, Add(t, n, NodeKey(key), allowdup).0)
    decreases t
  {
    if root == null {
      n.left, n.right := null, null;
      return n, true;
    }
    var c := key(n.data) - key(root.data);
    if !allowdup && c == 0 {
      return root, false;
    }
    top := root;
    Alive(root, t);
    if c > 0 {
      AddElems(t.right, n, NodeKey(key), allowdup);
      var r;
      r, ok := AddNode(root.right, n, key, allowdup, t.right);
      root.right := r;
    } else {
      AddElems(t.left, n, NodeKey(key), allowdup);
      var l;
      l, ok := AddNode(root.left, n, key, allowdup, t.left);
      root.left := l;
    }
  }

  // ---- Hanging a subtree under the rightmost node ------------------------------------

  /** Following right links from n, the root of l, reaches cur, the root of sub. */
  ghost predicate SpineTo(n: TreeNode?, l: Tree<TreeNode>, cur: TreeNode, sub: Tree<TreeNode>)
    reads Elems(l)
    decreases l
  {
    && Rep(n, l) && l.Node? && sub.Node?
    && ((cur == n && sub == l) || SpineTo(l.data.right, l.right, cur, sub))
  }

  lemma {:induction false} SpineStep(n: TreeNode?, l: Tree<TreeNode>, cur: TreeNode, sub: Tree<TreeNode>)
    requires SpineTo(n, l, cur, sub)
    ensures cur in Elems(l) && Rep(cur, sub)
    ensures cur.right != null ==> SpineTo(n, l, cur.right, sub.right)
    decreases l
  {
    if cur == n && sub == l {
      assert cur.right != null ==> SpineTo(cur.right, l.right, cur.right, sub.right);
    } else {
      SpineStep(l.data.right, l.right, cur, sub);
    }
  }

  /** The tree l with the right link of its last spine node cur left open. */
  ghost predicate OpenAt(n: TreeNode?, l: Tree<TreeNode>, cur: TreeNode)
    reads Elems(l) - {cur}, cur`left
    decreases l
  {
    match l
    case Leaf => false
    case Node(a, x, b) =>
      && n == x && cur !in Elems(a) && Rep(x.left, a)
      && (if x == cur then b.Leaf? else OpenAt(x.right, b, cur))
  }

  lemma {:induction false} LastIsOpen(n: TreeNode?, l: Tree<TreeNode>, cur: TreeNode, sub: Tree<TreeNode>)
    requires SpineTo(n, l, cur, sub) && Simple(l) && cur.right == null
    ensures OpenAt(n, l, cur) && cur in Elems(l)
    decreases l
  {
    SpineStep(n, l, cur, sub);
    if cur == n && sub == l {
    } else {
      LastIsOpen(l.data.right, l.right, cur, sub);
    }
  }

  lemma {:induction false} CloseWith(n: TreeNode?, l: Tree<TreeNode>, cur: TreeNode, r: Tree<TreeNode>)
    requires OpenAt(n, l, cur) && Rep(cur.right, r)
    ensures Rep(n, Join(l, r))
    decreases l
  {
    match l
    case Node(a, x, b) =>
      if x != cur { CloseWith(x.right, b, cur, r); }
  }

  /** Walk down the right links to the last node and hang the other tree there. */
  method HangRight(root: TreeNode, other: TreeNode?, ghost l: Tree<TreeNode>, ghost r: Tree<TreeNode>)
    requires Rep(root, l) && Rep(other, r) && Simple(l) && Elems(l) !! Elems(r)
    modifies Elems(l)
    ensures Rep(root, Join(l, r))
  {
    var cur: TreeNode := root;
    ghost var sub := l;
    while cur.right != null
      invariant SpineTo(root, l, cur, sub) && Rep(other, r)
      decreases sub
    {
      SpineStep(root, l, cur, sub);
      cur := cur.right;
      sub := sub.right;
    }
    LastIsOpen(root, l, cur, sub);
    cur.right := other;
    CloseWith(root, l, cur, r);
  }

  method DeleteNode(root: TreeNode?, n: TreeNode, key: Extent -> int, ghost t: Tree<TreeNode>)
    returns (top: TreeNode?, found: bool)
    requires Rep(root, t) && Simple(t)
    modifies Elems(t)
    ensures found == Delete(t, n, NodeKey(key)).1
    ensures Rep(top, Delete(t, n, NodeKey(key)).0)
    decreases t
  {
    if root == null {
      return null, false;
    }
    if root == n {
      if n.left != null && n.right != null {
        HangRight(n.left, n.right, t.left, t.right);
        return n.left, true;
      } else if n.left != null {
        JoinLeaf(t.left);
        return n.left, true;
      } else if n.right != null {
        return n.right, true;
      } else {
        return null, true;
      }
    }
    top := root;
    Alive(root, t);
    if key(n.data) - key(root.data) > 0 {
      var r;
      r, found := DeleteNode(root.right, n, key, t.right);
      root.right := r;
      DeleteElems(t.right, n, NodeKey(key));
    } else {
      var l;
      l, found := DeleteNode(root.left, n, key, t.left);
      root.left := l;
      DeleteElems(t.left, n, NodeKey(key));
    }
  }

  lemma {:induction false} JoinLeaf(l: Tree<TreeNode>)
    ensures Join(l, Leaf) == l
  {
    match l
    case Leaf =>
    case Node(_, _, b) => JoinLeaf(b);
  }

  lemma {:induction false} DeleteElems(t: Tree<TreeNode>, n: TreeNode, key: TreeNode -> int)
    ensures Elems(Delete(t, n, key).0) <= Elems(t)
  {
    match t
    case Leaf =>
    case Node(l, x, r) =>
      JoinElems(l, r);
      DeleteElems(l, n, key);
      DeleteElems(r, n, key);
  }

  method SearchNode(root: TreeNode?, cond: Extent -> int, ghost t: Tree<TreeNode>) returns (r: TreeNode?)
    requires Rep(root, t)
    ensures (if r == null then None else Some(r)) == Search(t, NodeKey(cond))
    decreases t
  {
    if root == null {
      return null;
    }
    var c := cond(root.data);
    if c == 0 {
      return root;
    } else if c > 0 {
      r := SearchNode(root.right, cond, t.right);
    } else {
      r := SearchNode(root.left, cond, t.left);
    }
  }

  // ---- The extents a tree of nodes holds ---------------------------------------------------

  ghost function Values(t: Tree<TreeNode>): Tree<Extent> {
    match t
    case Leaf => Leaf
    case Node(l, x, r) => Node(Values(l), x.data, Values(r))
  }

  lemma {:induction false} ValueMembers(t: Tree<TreeNode>)
    ensures forall n :: n in Elems(t) ==> n.data in Elems(Values(t))
    ensures forall e :: e in Elems(Values(t)) ==> exists n :: n in Elems(t) && n.data == e
  {
    match t
    case Leaf =>
    case Node(l, x, r) =>
      ValueMembers(l);
      ValueMembers(r);
  }

  lemma {:induction false} ValuesAdd(t: Tree<TreeNode>, n: TreeNode, key: Extent -> int, allowdup: bool)
    ensures var (r, ok) := Add(t, n, NodeKey(key), allowdup);
      (Values(r), ok) == Add(Values(t), n.data, key, allowdup)
  {
    match t
    case Leaf =>
    case Node(l, x, r) =>
      ValuesAdd(l, n, key, allowdup);
      ValuesAdd(r, n, key, allowdup);
  }

  lemma {:induction false} ValuesJoin(l: Tree<TreeNode>, r: Tree<TreeNode>)
    ensures Values(Join(l, r)) == Join(Values(l), Values(r))
  {
    match l
    case Leaf =>
    case Node(_, _, b) => ValuesJoin(b, r);
  }

  /** Two nodes of a tree without repeated extents hold different ones. */
  lemma {:induction false} OnlyHolder(t: Tree<TreeNode>, n: TreeNode, m: TreeNode)
    requires Simple(Values(t)) && m in Elems(t) && (n.data in Elems(Values(t)) ==> n in Elems(t))
    ensures n.data == m.data ==> n == m
  {
    match t
    case Leaf =>
    case Node(l, x, r) =>
      ValueMembers(l);
      ValueMembers(r);
      if n in Elems(t) && n.data == m.data {
        if m in Elems(l) && n in Elems(l) { OnlyHolder(l, n, m); }
        if m in Elems(r) && n in Elems(r) { OnlyHolder(r, n, m); }
      } else {
        ValueMembers(t);
      }
  }

  /** Deleting a node deletes its extent, when no other node of the tree holds the same one. */
  lemma {:induction false} ValuesDelete(t: Tree<TreeNode>, n: TreeNode, key: Extent -> int)
    requires Simple(Values(t)) && (n.data in Elems(Values(t)) ==> n in Elems(t))
    ensures Values(Delete(t, n, NodeKey(key)).0) == Delete(Values(t), n.data, key).0
  {
    match t
    case Leaf =>
    case Node(l, x, r) =>
      ValuesJoin(l, r);
      ValueMembers(l);
      ValueMembers(r);
      if n != x {
        assert x in Elems(t) && n.data != x.data by { OnlyHolder(t, n, x); }
        ValuesDelete(l, n, key);
        ValuesDelete(r, n, key);
      }
  }

  lemma {:induction false} ValuesSearch(t: Tree<TreeNode>, cond: Extent -> int)
    ensures var r := Search(t, NodeKey(cond));
      && Search(Values(t), cond) == (if r.None? then None else Some(r.value.data))
      && (r.Some? ==> r.value in Elems(t))
  {
    match t
    case Leaf =>
    case Node(l, x, r) =>
      ValuesSearch(l, cond);
      ValuesSearch(r, cond);
  }

  lemma {:induction false} SimpleNodes(t: Tree<TreeNode>)
    requires Simple(Values(t))
    ensures Simple(t)
  {
    match t
    case Leaf =>
    case Node(l, x, r) =>
      SimpleNodes(l);
      SimpleNodes(r);
      ValueMembers(l);
      ValueMembers(r);
  }

  /** Deletion takes out the node it finds and no other. */
  lemma {:induction false} DeleteTakesOne(t: Tree<TreeNode>, n: TreeNode, key: TreeNode -> int)
    requires Simple(t)
    ensures var (r, found) := Delete(t, n, key);
      && (found ==> n in Elems(t) && Elems(r) == Elems(t) - {n})
      && (!found ==> r == t)
  {
    match t
    case Leaf =>
    case Node(l, x, r) =>
      JoinElems(l, r);
      DeleteTakesOne(l, n, key);
      DeleteTakesOne(r, n, key);
  }

  /** In an ordered tree of nodes with different extents, deletion finds every node. */
  lemma DeleteFinds(t: Tree<TreeNode>, n: TreeNode, key: Extent -> int)
    requires Ordered(Values(t), key) && Simple(Values(t)) && n in Elems(t)
    ensures Delete(t, n, NodeKey(key)).1
    ensures Elems(Delete(t, n, NodeKey(key)).0) == Elems(t) - {n}
    ensures Values(Delete(t, n, NodeKey(key)).0) == Delete(Values(t), n.data, key).0
  {
    SimpleNodes(t);
    DeleteTakesOne(t, n, NodeKey(key));
    ValuesDelete(t, n, key);
    ValueMembers(t);
    DeleteKeepsOrder(Values(t), n.data, key);
  }
}
