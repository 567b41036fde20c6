// What becomes of a tree into which a removed root was inserted again, while the
// parent field of the new root still named it.
module RbReuse {
  import opened Servers
  import opened RbShape
  import opened RbRules
  import opened RbStray
  import opened RbTree

  lemma NoNode(t: Shape)
    requires Inorder(t) == []
    ensures t == Leaf
  {
    assert t.Bin? ==> |Inorder(t)| > 0;
  }

  lemma OneNode(t: Shape, n: RbNode)
    requires Inorder(t) == [n] && RedBlack(t) && IsBlack(t)
    ensures t == Bin(BLACK, Leaf, n, Leaf)
  {
    assert Inorder(t) == Inorder(t.left) + [t.node] + Inorder(t.right);
    NoNode(t.left);
    NoNode(t.right);
    assert Inorder(t)[0] == t.node;
  }

  // n below m, which is the only node.
  lemma SecondPlace(m: RbNode, n: RbNode)
    ensures var t, p := Bin(BLACK, Leaf, m, Leaf), Descent(Top, Bin(BLACK, Leaf, m, Leaf), n.key);
            && !RedUp(p)
            && Fixed(p, NewLeaf(n)) == if n.key < m.key then Bin(BLACK, NewLeaf(n), m, Leaf)
                                       else Bin(BLACK, Leaf, m, NewLeaf(n))
  {
    var p := if n.key < m.key then InLeft(BLACK, m, Leaf, Top) else InRight(BLACK, Leaf, m, Top);
    assert Descent(Top, Bin(BLACK, Leaf, m, Leaf), n.key) == p;
    assert Plug(p, NewLeaf(n)) == Up(p, NewLeaf(n));
  }

  // c below the red a: the rotation lifts a to the root.
  lemma ThirdPlace(a: RbNode, b: RbNode, c: RbNode)
    requires c.key < a.key < b.key
    ensures var p := Descent(Top, Bin(BLACK, NewLeaf(a), b, Leaf), c.key);
            !RedUp(p) && Fixed(p, NewLeaf(c)) == Bin(BLACK, NewLeaf(c), a, NewLeaf(b))
  {
    var gp := InLeft(BLACK, b, Leaf, Top);
    var p := InLeft(RED, a, Leaf, gp);
    assert Descent(gp, NewLeaf(a), c.key) == p;
    var u := Bin(RED, NewLeaf(c), a, Leaf);
    assert Outer(p, NewLeaf(c)) == u;
    assert Tilted(gp, u) == Bin(RED, Bin(BLACK, NewLeaf(c), a, Leaf), b, Leaf);
  }

  // d below c, which is red like b: the root a turns red.
  lemma FourthPlace(a: RbNode, b: RbNode, c: RbNode, d: RbNode)
    requires c.key <= d.key < a.key
    ensures var p := Descent(Top, Bin(BLACK, NewLeaf(c), a, NewLeaf(b)), d.key);
            && RedUp(p)
            && Risen(p, NewLeaf(d)) == Bin(RED, Bin(BLACK, Leaf, c, NewLeaf(d)), a, Bin(BLACK, Leaf, b, Leaf))
  {
    var gp := InLeft(BLACK, a, NewLeaf(b), Top);
    var p := InRight(RED, Leaf, c, gp);
    assert Descent(gp, NewLeaf(c), d.key) == p;
    assert PushedUp(p, NewLeaf(d)) == Raised(gp, Bin(RED, Leaf, c, NewLeaf(d)));
  }

  // 20 over 10 over 4 over 7.
  ghost function Chain(a: RbNode, b: RbNode, c: RbNode, d: RbNode): Shape {
    Bin(BLACK, Bin(RED, Bin(BLACK, Leaf, c, NewLeaf(d)), a, Leaf), b, Leaf)
  }

  // A tree that held a at its root and b below it, after a was removed: the
  // parent field of b names a.
  method RootRemoved(a: RbNode, b: RbNode) returns (tree: Tree)
    requires a.key < b.key
    modifies a, b
    ensures fresh(tree) && fresh(tree.nil) && fresh(tree.repr - {a, b})
    ensures tree.Valid() && tree.repr == {b} && tree.anchor == a
    ensures tree.shape == Bin(BLACK, Leaf, b, Leaf)
  {
    tree := new Tree();
    tree.See(Top, tree.shape);
    NoNode(tree.shape);
    tree.Insert(a);
    SecondPlace(a, b);
    tree.Insert(b);
    tree.See(Top, tree.shape);
    tree.Delete(a);
    tree.HeadNotNil(Top, tree.shape);
    OneNode(tree.shape, b);
  }

  // a comes back, and c makes it the root: now the root is its own parent.
  method RootBack(tree: Tree, a: RbNode, b: RbNode, c: RbNode)
    requires tree.Valid() && tree.repr == {b} && tree.anchor == a && tree.shape == Bin(BLACK, Leaf, b, Leaf)
    requires c.key < a.key < b.key && tree.nil !in {a, b, c}
    modifies tree, a, b, c
    ensures tree.Sound() && tree.repr == {a, b, c} && tree.root == tree.anchor == a
    ensures tree.shape == Bin(BLACK, NewLeaf(c), a, NewLeaf(b))
  {
    SecondPlace(b, a);
    tree.Insert(a);
    ThirdPlace(a, b, c);
    tree.Insert(c);
    tree.See(Top, tree.shape);
  }

  // The next insertion turns that root below its right child.
  method RootTurned(tree: Tree, a: RbNode, b: RbNode, c: RbNode, d: RbNode)
    requires tree.Sound() && tree.repr == {a, b, c} && tree.root == tree.anchor == a
    requires tree.shape == Bin(BLACK, NewLeaf(c), a, NewLeaf(b))
    requires c.key <= d.key < a.key && d !in {a, b, c, tree.nil}
    modifies tree, a, b, c, d
    ensures tree.Holds(Top, tree.shape) && tree.shape == Chain(a, b, c, d) && !tree.Sound()
  {
    FourthPlace(a, b, c, d);
    tree.Insert(d);
  }

  lemma ChainHeights(a: RbNode, b: RbNode, c: RbNode, d: RbNode)
    ensures var t := Chain(a, b, c, d);
            && BlackHeight(t.left) == BlackHeight(t.left.left) == 1
            && BlackHeight(t.right) == BlackHeight(t.left.right) == 0
  {
    assert BlackHeight(Bin(BLACK, Leaf, c, NewLeaf(d))) == 1;
  }

  // Five insertions and one deletion to a tree that is none: the black heights
  // differ at 20 and at 10.
  method RootReused() returns (tree: Tree, a: RbNode, b: RbNode, c: RbNode, d: RbNode)
    ensures a.key == 10 && b.key == 20 && c.key == 4 && d.key == 7
    ensures tree.Holds(Top, tree.shape) && tree.shape == Chain(a, b, c, d) && !tree.Sound()
    ensures BlackHeight(tree.shape.left) == 1 && BlackHeight(tree.shape.right) == 0
    ensures BlackHeight(tree.shape.left.left) == 1 && BlackHeight(tree.shape.left.right) == 0
  {
    a := new RbNode(10, VNode(10, null));
    b := new RbNode(20, VNode(20, null));
    c := new RbNode(4, VNode(4, null));
    d := new RbNode(7, VNode(7, null));
    tree := RootRemoved(a, b);
    RootBack(tree, a, b, c);
    RootTurned(tree, a, b, c, d);
    ChainHeights(a, b, c, d);
  }

  // n as the right child of m, whose left child is c.
  lemma BesidePlace(m: RbNode, c: RbNode, n: RbNode)
    requires m.key <= n.key
    ensures var p := Descent(Top, Bin(BLACK, NewLeaf(c), m, Leaf), n.key);
            !RedUp(p) && Fixed(p, NewLeaf(n)) == Bin(BLACK, NewLeaf(c), m, NewLeaf(n))
  {
    var p := InRight(BLACK, NewLeaf(c), m, Top);
    assert Descent(Top, Bin(BLACK, NewLeaf(c), m, Leaf), n.key) == p;
    assert Plug(p, NewLeaf(n)) == Up(p, NewLeaf(n));
  }

  // a comes back as a red leaf, and is removed again.
  method RootGone(tree: Tree, a: RbNode, b: RbNode)
    requires tree.Valid() && tree.repr == {b} && tree.anchor == a && tree.shape == Bin(BLACK, Leaf, b, Leaf)
    requires a.key < b.key && tree.nil !in {a, b}
    modifies tree, tree.nil, a, b
    ensures tree.Sound() && tree.repr == {b} && tree.anchor == a && tree.shape == Bin(BLACK, Leaf, b, Leaf)
    ensures a.Links() == Cell(null, null, null, RED)
  {
    SecondPlace(b, a);
    tree.Insert(a);
    tree.See(Top, tree.shape);
    tree.Unfocus(InLeft(BLACK, b, Leaf, Top), NewLeaf(a));
    tree.See(InLeft(BLACK, b, Leaf, Top), NewLeaf(a));
    tree.Delete(a);
    tree.HeadNotNil(Top, tree.shape);
    OneNode(tree.shape, b);
  }

  // Two red children for b.
  method TwoBelow(tree: Tree, a: RbNode, b: RbNode, c: RbNode, e: RbNode)
    requires tree.Sound() && tree.repr == {b} && tree.anchor == a && tree.shape == Bin(BLACK, Leaf, b, Leaf)
    requires c.key < b.key < e.key && tree.nil !in {b, c, e} && c !in {a, b} && e !in {a, b, c} && a != b
    modifies tree, b, c, e
    ensures tree.Sound() && tree.repr == {b, c, e} && tree.anchor == a
    ensures tree.shape == Bin(BLACK, NewLeaf(c), b, NewLeaf(e))
  {
    SecondPlace(b, c);
    tree.See(Top, tree.shape);
    tree.Insert(c);
    BesidePlace(b, c, e);
    tree.See(Top, tree.shape);
    tree.Insert(e);
  }

  lemma Unsettled(tree: Tree, a: RbNode, b: RbNode, c: RbNode, e: RbNode, n: RbNode)
    requires tree.Sound() && tree.repr == {b, c, e} && tree.anchor == a && a !in {b, c, e, n, tree.nil}
    requires tree.shape == Bin(BLACK, NewLeaf(c), b, NewLeaf(e)) && c.key <= n.key < b.key && a.color == RED
    ensures !tree.Settles(n) && RedUp(Descent(Top, tree.shape, n.key)) && tree.root.parent == a
  {
    FourthPlace(b, e, c, n);
    tree.See(Top, tree.shape);
    var l, r := Bin(BLACK, Leaf, c, NewLeaf(n)), Bin(BLACK, Leaf, e, Leaf);
    assert Nodes(NewLeaf(n)) == {n} && Nodes(l) == {c, n} && Nodes(r) == {e};
    assert a !in Nodes(Bin(RED, l, b, r));
  }

  method RootForgotten(a: RbNode, b: RbNode, c: RbNode, e: RbNode) returns (tree: Tree)
    requires c.key < a.key < b.key < e.key
    modifies a, b, c, e
    ensures fresh(tree) && fresh(tree.nil) && tree.Sound() && tree.repr == {b, c, e} && tree.anchor == a
    ensures tree.shape == Bin(BLACK, NewLeaf(c), b, NewLeaf(e))
    ensures a.Links() == Cell(null, null, null, RED)
  {
    tree := RootRemoved(a, b);
    RootGone(tree, a, b);
    TwoBelow(tree, a, b, c, e);
  }

  // Five insertions and two deletions to a sound tree and a new node on which the
  // insert fixup would come up to the root and go on at the removed node, which is
  // red and has no links.
  method RootLost() returns (tree: Tree, a: RbNode, n: RbNode)
    ensures tree.Sound() && n !in tree.repr && n != tree.nil && !tree.Settles(n)
    ensures RedUp(Descent(Top, tree.shape, n.key)) && tree.root.parent == a
    ensures a.Links() == Cell(null, null, null, RED)
  {
    a := new RbNode(10, VNode(10, null));
    var b := new RbNode(20, VNode(20, null));
    var c := new RbNode(5, VNode(5, null));
    var e := new RbNode(30, VNode(30, null));
    n := new RbNode(7, VNode(7, null));
    tree := RootForgotten(a, b, c, e);
    Unsettled(tree, a, b, c, e, n);
  }
}
