// The red-black tree in memory: nodes with parent pointers and a sentinel that
// stands for every missing child.
module RbTree {
  import opened Servers
  import opened RbShape
  import opened RbRules
  import opened RbRemoval
  import opened RbStray

  class Tree {
    var root: RbNode
    const nil: RbNode            // the sentinel
    var size: nat
    ghost var repr: set<RbNode>  // the nodes of the tree
    ghost var anchor: RbNode     // what the parent field of the root holds
    ghost var shape: Shape

    // The tree is a red-black search tree, its counter is right, and the parent
    // field of the root names a black node outside the tree.
    ghost predicate Valid()
      reads this, repr, nil, anchor
    {
      Sound() && BlackOutside()
    }

    // All that can be said of a tree whatever the parent field of its root names.
    ghost predicate Sound()
      reads this, repr, nil
    {
      && Holds(Top, shape) && nil.color == BLACK
      && RedBlack(shape) && IsBlack(shape)
      && Ascending(Elements()) && size == |Elements()|
    }

    // The tree from left to right.
    ghost function Elements(): seq<RbNode>
      reads this
    {
      Inorder(shape)
    }

    constructor ()
      ensures Valid() && fresh(nil) && anchor == nil && Elements() == [] && nil.color == 1
    {
      var z := new RbNode(0, VNode(0, null));
      nil := z;
      root := z;
      anchor := z;
      repr := {};
      shape := Leaf;
      size := 0;
      new;
      nil.color := BLACK;
    }

    // ------------------------------------------------------ heap and shape

    // The heap holds the tree t at the end of path p.
    ghost predicate Holds(p: Path, t: Shape)
      reads this, repr
    {
      && AllApart(p, t)
      && repr == PathNodes(p) + Nodes(t)
      && nil !in repr
      && root == Root(p, Head(t, nil))
      && forall n | n in repr :: n.Links() == LinksAt(p, t, anchor, nil, n)
    }

    // The two nodes outside the tree that the fixups look at are black.
    ghost predicate BlackOutside()
      reads this, nil, anchor
    {
      nil.color == BLACK && anchor.color == BLACK && anchor !in repr
    }

    // Moving the focus changes nothing.
    lemma Focus(p: Path, t: Shape)
      requires !p.Top? && Holds(p, t)
      ensures Holds(p.up, Up(p, t))
    {
      FocusApart(p, t);
      forall n { FocusUp(p, t, anchor, nil, n); }
    }

    lemma Unfocus(p: Path, t: Shape)
      requires !p.Top? && Holds(p.up, Up(p, t))
      ensures Holds(p, t)
    {
      FocusApart(p, t);
      forall n { FocusUp(p, t, anchor, nil, n); }
    }

    lemma Across(p: Path, t: Shape)
      requires !p.Top? && Holds(p, t)
      ensures Holds(Beside(p, t), Sibling(p))
    {
      Focus(p, t);
      Unfocus(Beside(p, t), Sibling(p));
    }

    lemma {:induction false} FocusTop(p: Path, t: Shape)
      requires Holds(p, t)
      ensures Holds(Top, Plug(p, t))
      decreases p
    {
      if !p.Top? {
        Focus(p, t);
        FocusTop(p.up, Up(p, t));
      }
    }

    lemma {:induction false} UnfocusTop(p: Path, t: Shape)
      requires Holds(Top, Plug(p, t))
      ensures Holds(p, t)
      decreases p
    {
      if !p.Top? {
        UnfocusTop(p.up, Up(p, t));
        Unfocus(p, t);
      }
    }

    // The fields at the head of t and just above it.
    lemma See(p: Path, t: Shape)
      requires Holds(p, t)
      ensures t.Bin? ==> t.node in repr
      ensures t.Bin? ==> t.node.Links() == Cell(Parent(p, anchor), Head(t.left, nil), Head(t.right, nil), t.color)
      ensures !p.Top? ==> p.node in repr && p.node != Head(t, nil)
      ensures p.InLeft? ==> p.node.Links() == Cell(Parent(p.up, anchor), Head(t, nil), Head(p.right, nil), p.color)
      ensures p.InRight? ==> p.node.Links() == Cell(Parent(p.up, anchor), Head(p.left, nil), Head(t, nil), p.color)
      ensures p.Top? <==> root == Head(t, nil)
    {
      RootOnPath(p, Head(t, nil));
      if t.Bin? { LinksAtHead(p, t, anchor, nil); }
      if !p.Top? { LinksAbove(p, t, anchor, nil); }
    }

    // ------------------------------------------------------------- searching

    // A search for key, by < and >=, has come down p and stands before t.
    ghost predicate Searching(p: Path, t: Shape, key: int)
      reads this, repr
    {
      && Holds(p, t) && Parts(p, key)
      && Ascending(Whole(p, t)) && Whole(p, t) == Elements()
      && Ruled(p, t)
    }

    lemma StepLeft(p: Path, t: Shape, key: int)
      requires Searching(p, t, key) && t.Bin? && key < t.node.key
      ensures Searching(ToLeft(p, t), t.left, key)
      ensures t.node in repr && t.node.left == Head(t.left, nil)
    {
      See(p, t);
      PartLeft(p, t, key);
      WholeUp(ToLeft(p, t), t.left);
      Unfocus(ToLeft(p, t), t.left);
    }

    lemma StepRight(p: Path, t: Shape, key: int)
      requires Searching(p, t, key) && t.Bin? && t.node.key <= key
      ensures Searching(ToRight(p, t), t.right, key)
      ensures t.node in repr && t.node.right == Head(t.right, nil)
    {
      See(p, t);
      PartRight(p, t, key);
      WholeUp(ToRight(p, t), t.right);
      Unfocus(ToRight(p, t), t.right);
    }

    lemma HeadNotNil(p: Path, t: Shape)
      requires Holds(p, t)
      ensures t.Bin? <==> Head(t, nil) != nil
    {
      See(p, t);
    }

    // The search for the place of a new key: y will be its parent.
    method FindParent(key: int) returns (y: RbNode, ghost p: Path)
      requires Sound() && root != nil
      ensures Searching(p, Leaf, key)
      ensures !p.Top? && y == p.node && (p.InLeft? <==> key < y.key)
      ensures p == Descent(Top, shape, key)
    {
      var x := root;
      ghost var t := shape;
      y, p := x, Top;
      HeadNotNil(p, t);
      while x != nil
        invariant Searching(p, t, key) && x == Head(t, nil)
        invariant p.Top? ==> t.Bin?
        invariant Descent(p, t, key) == Descent(Top, shape, key)
        invariant !p.Top? ==> y == p.node && (p.InLeft? <==> key < y.key)
        decreases t
      {
        HeadNotNil(p, t);
        y := x;
        if key < x.key {
          StepLeft(p, t, key);
          x := x.left;
          p, t := ToLeft(p, t), t.left;
        } else {
          StepRight(p, t, key);
          x := x.right;
          p, t := ToRight(p, t), t.right;
        }
      }
      HeadNotNil(p, t);
    }

    // No search loop runs more than 2 * log2(n + 1) times.
    ghost predicate Quick(steps: nat)
      reads this
    {
      Pow2(steps) <= (|Elements()| + 1) * (|Elements()| + 1)
    }

    // The way down to the key.
    method DescendEqKey(key: int) returns (found: RbNode?, ghost steps: nat)
      requires Sound()
      ensures found != null ==> found in Elements() && found.key == key
      ensures found == null ==> forall n | n in Elements() :: n.key != key
      ensures steps <= Depth(shape)
    {
      var node := root;
      ghost var p, t := Top, shape;
      steps := 0;
      while node != nil
        invariant Searching(p, t, key) && node == Head(t, nil)
        invariant AllLeq(Before(p), key - 1)
        invariant steps + Depth(t) <= Depth(shape)
        decreases t
      {
        HeadNotNil(p, t);
        steps := steps + 1;
        if key < node.key {
          StepLeft(p, t, key);
          ExactLeft(p, t, key);
          node := node.left;
          p, t := ToLeft(p, t), t.left;
        } else if key > node.key {
          StepRight(p, t, key);
          ExactRight(p, t, key);
          node := node.right;
          p, t := ToRight(p, t), t.right;
        } else {
          HeadInWhole(p, t);
          return node, steps;
        }
      }
      HeadNotNil(p, t);
      ExactMiss(p, key);
      return null, steps;
    }

    // The node with the given key, or none.
    method EqKey(key: int) returns (found: RbNode?, ghost steps: nat)
      requires Sound()
      ensures found != null ==> found in Elements() && found.key == key
      ensures found == null ==> forall n | n in Elements() :: n.key != key
      ensures Quick(steps)
    {
      found, steps := DescendEqKey(key);
      DepthBound(shape, steps);
    }

    // The node in hand at the end of a search for a greater key, or the first one.
    method OrMin(node: RbNode?, ghost p: Path, ghost key: int) returns (found: RbNode?)
      requires Sound() && root != nil
      requires Parts(p, key) && Whole(p, Leaf) == Elements() && node == NextAbove(p)
      ensures Elements() != [] && found == Successor(Elements(), key)
    {
      HeadNotNil(Top, shape);
      SearchedSuccessor(p, key);
      if node != null {
        found := node;
      } else {
        ghost var sp, u;
        found, sp, u := SubtreeMin(root, Top, shape);
      }
    }

    // The way down: node is the last one at which the search turned left.
    method DescendGtKey(key: int) returns (node: RbNode?, ghost p: Path, ghost steps: nat)
      requires Sound()
      ensures Parts(p, key) && Whole(p, Leaf) == Elements() && node == NextAbove(p)
      ensures steps <= Depth(shape)
    {
      node, p, steps := null, Top, 0;
      var temp := root;
      ghost var t := shape;
      while temp != nil
        invariant Searching(p, t, key) && temp == Head(t, nil)
        invariant node == NextAbove(p)
        invariant steps + Depth(t) <= Depth(shape)
        decreases t
      {
        HeadNotNil(p, t);
        steps := steps + 1;
        if key < temp.key {
          StepLeft(p, t, key);
          node := temp;
          temp := temp.left;
          p, t := ToLeft(p, t), t.left;
        } else {
          StepRight(p, t, key);
          temp := temp.right;
          p, t := ToRight(p, t), t.right;
        }
      }
      HeadNotNil(p, t);
    }

    // The first node with a key greater than the given one, or the first node
    // of all; none when the tree is empty.
    method GtKey(key: int) returns (found: RbNode?, ghost steps: nat)
      requires Sound()
      ensures found == if Elements() == [] then null else Successor(Elements(), key)
      ensures Quick(steps)
    {
      steps := 0;
      HeadNotNil(Top, shape);
      if root == nil {
        DepthBound(shape, 0);
        return null, 0;
      }
      var node;
      ghost var p;
      node, p, steps := DescendGtKey(key);
      DepthBound(shape, steps);
      found := OrMin(node, p, key);
    }

    // The way down: node is the last one at which the search turned left.
    method DescendGeqKey(key: int) returns (node: RbNode?, ghost p: Path, ghost steps: nat)
      requires Sound()
      ensures Parts(p, key - 1) && Whole(p, Leaf) == Elements() && node == NextAbove(p)
      ensures steps <= Depth(shape)
    {
      node, p, steps := null, Top, 0;
      var temp := root;
      ghost var t := shape;
      while temp != nil
        invariant Searching(p, t, key - 1) && temp == Head(t, nil)
        invariant node == NextAbove(p)
        invariant steps + Depth(t) <= Depth(shape)
        decreases t
      {
        HeadNotNil(p, t);
        steps := steps + 1;
        if key <= temp.key {
          StepLeft(p, t, key - 1);
          node := temp;
          temp := temp.left;
          p, t := ToLeft(p, t), t.left;
        } else {
          StepRight(p, t, key - 1);
          temp := temp.right;
          p, t := ToRight(p, t), t.right;
        }
      }
      HeadNotNil(p, t);
    }

    // The first node with a key not less than the given one, or the first node
    // of all; none when the tree is empty.
    method GeqKey(key: int) returns (found: RbNode?, ghost steps: nat)
      requires Sound()
      ensures found == if Elements() == [] then null else Successor(Elements(), key - 1)
      ensures Quick(steps)
    {
      steps := 0;
      HeadNotNil(Top, shape);
      if root == nil {
        DepthBound(shape, 0);
        return null, 0;
      }
      var node;
      ghost var p;
      node, p, steps := DescendGeqKey(key);
      DepthBound(shape, steps);
      found := OrMin(node, p, key - 1);
    }

    // ------------------------------------------------------------- painting

    method Paint(x: RbNode, color: int, ghost p: Path, ghost t: Shape)
      requires Holds(p, t) && t.Bin? && t.node == x
      modifies x`color
      ensures Holds(p, t.(color := color))
    {
      See(p, t);
      x.color := color;
      forall n | n in repr
        ensures n.Links() == LinksAt(p, t.(color := color), anchor, nil, n)
      {
        PaintLinks(p, t, color, anchor, nil, n);
      }
      PaintApart(p, t, color);
    }

    // node may be the sentinel.
    method BlackenAt(node: RbNode, ghost p: Path, ghost t: Shape)
      requires Holds(p, t) && node == Head(t, nil)
      modifies node`color
      ensures Holds(p, Blackened(t)) && node.color == BLACK
    {
      See(p, t);
      node.color := BLACK;
      if t.Bin? {
        PaintApart(p, t, BLACK);
        forall n | n in repr
          ensures n.Links() == LinksAt(p, Blackened(t), anchor, nil, n)
        {
          PaintLinks(p, t, BLACK, anchor, nil, n);
        }
      }
    }

    // ------------------------------------------------------------ rotations

    // The pointers around x are those of a left rotation.
    ghost predicate CanRotateLeft(x: RbNode)
      reads this, x, x.right
    {
      && x.right != null && x.right.left != null && x.right !in {x, nil}
      && x.right.left != x && x.right.left != x.right
      && (x != root ==> x.parent != null && x.parent !in {x, x.right, nil})
      && (x != root && x.right.left != nil ==> x.parent != x.right.left)
    }

    ghost predicate CanRotateRight(x: RbNode)
      reads this, x, x.left
    {
      && x.left != null && x.left.right != null && x.left !in {x, nil}
      && x.left.right != x && x.left.right != x.left
      && (x != root ==> x.parent != null && x.parent !in {x, x.left, nil})
      && (x != root && x.left.right != nil ==> x.parent != x.left.right)
    }

    method LeftRotate(x: RbNode)
      requires CanRotateLeft(x)
      modifies this`root, x, x.right
      modifies if x.right.left != nil then {x.right.left} else {}
      modifies if x != root then {x.parent} else {}
      ensures root == if x == old(root) then old(x.right) else old(root)
      ensures x.Links() == old(x.Links()).(parent := old(x.right), right := old(x.right.left))
      ensures old(x.right).Links() == old(x.right.Links()).(parent := old(x.parent), left := x)
      ensures old(x.right.left) != nil ==> old(x.right.left).Links() == old(x.right.left.Links()).(parent := x)
      ensures x != old(root) ==> old(x.parent).Links() == old(
        if x.parent.left == x then x.parent.Links().(left := x.right) else x.parent.Links().(right := x.right))
    {
      var rc := x.right;
      var rclc := rc.left;
      rc.parent := x.parent;
      if x == root {
        root := rc;
      } else {
        if x.parent.left == x {
          x.parent.left := rc;
        } else {
          x.parent.right := rc;
        }
      }
      x.parent := rc;
      rc.left := x;
      x.right := rclc;
      if rclc != nil {
        rclc.parent := x;
      }
    }

    method RightRotate(x: RbNode)
      requires CanRotateRight(x)
      modifies this`root, x, x.left
      modifies if x.left.right != nil then {x.left.right} else {}
      modifies if x != root then {x.parent} else {}
      ensures root == if x == old(root) then old(x.left) else old(root)
      ensures x.Links() == old(x.Links()).(parent := old(x.left), left := old(x.left.right))
      ensures old(x.left).Links() == old(x.left.Links()).(parent := old(x.parent), right := x)
      ensures old(x.left.right) != nil ==> old(x.left.right).Links() == old(x.left.right.Links()).(parent := x)
      ensures x != old(root) ==> old(x.parent).Links() == old(
        if x.parent.left == x then x.parent.Links().(left := x.left) else x.parent.Links().(right := x.left))
    {
      var lc := x.left;
      var lcrc := lc.right;
      lc.parent := x.parent;
      if x == root {
        root := lc;
      } else {
        if x.parent.left == x {
          x.parent.left := lc;
        } else {
          x.parent.right := lc;
        }
      }
      lc.right := x;
      x.parent := lc;
      x.left := lcrc;
      if lcrc != nil {
        lcrc.parent := x;
      }
    }

    lemma LeftPointers(p: Path, t: Shape)
      requires t.Bin? && t.right.Bin? && Holds(p, t)
      ensures CanRotateLeft(t.node) && {t.node, t.right.node} <= repr
      ensures t.node.right == t.right.node && t.node.right.left == Head(t.right.left, nil)
      ensures t.node.right.left != nil ==> t.node.right.left in repr
      ensures t.node.parent == Parent(p, anchor) && (t.node == root <==> p.Top?)
      ensures !p.Top? ==> p.node in repr && (p.node.left == t.node <==> p.InLeft?)
    {
      See(p, t);
      Unfocus(ToRight(p, t), t.right);
      See(ToRight(p, t), t.right);
    }

    lemma RightPointers(p: Path, t: Shape)
      requires t.Bin? && t.left.Bin? && Holds(p, t)
      ensures CanRotateRight(t.node) && {t.node, t.left.node} <= repr
      ensures t.node.left == t.left.node && t.node.left.right == Head(t.left.right, nil)
      ensures t.node.left.right != nil ==> t.node.left.right in repr
      ensures t.node.parent == Parent(p, anchor) && (t.node == root <==> p.Top?)
      ensures !p.Top? ==> p.node in repr && (p.node.left == t.node <==> p.InLeft?)
    {
      See(p, t);
      Unfocus(ToLeft(p, t), t.left);
      See(ToLeft(p, t), t.left);
    }

    method RotateLeftAt(x: RbNode, ghost p: Path, ghost t: Shape)
      requires t.Bin? && t.right.Bin? && t.node == x
      requires Holds(p, t)
      modifies this`root, repr
      ensures Holds(p, RotLeft(t))
    {
      LeftPointers(p, t);
      LeftRotate(x);
      RotLeftApart(p, t);
      forall n | n in repr
        ensures n.Links() == LinksAt(p, RotLeft(t), anchor, nil, n)
      {
        RotLeftLinks(p, t, anchor, nil, n);
      }
    }

    method RotateRightAt(x: RbNode, ghost p: Path, ghost t: Shape)
      requires t.Bin? && t.left.Bin? && t.node == x
      requires Holds(p, t)
      modifies this`root, repr
      ensures Holds(p, RotRight(t))
    {
      RightPointers(p, t);
      RightRotate(x);
      RotRightApart(p, t);
      forall n | n in repr
        ensures n.Links() == LinksAt(p, RotRight(t), anchor, nil, n)
      {
        RotRightLinks(p, t, anchor, nil, n);
      }
    }

    // ------------------------------------------------------------ insertion

    lemma SeeUncle(gp: Path, u: Shape)
      requires Holds(gp, u) && u.Bin? && !gp.Top? && RedBlack(Sibling(gp)) && nil.color == BLACK
      ensures {u.node, gp.node} <= repr && u.node.parent == gp.node
      ensures (gp.node.left == u.node) <==> gp.InLeft?
      ensures gp.InLeft? ==> gp.node.right == Head(Sibling(gp), nil)
      ensures gp.InRight? ==> gp.node.left == Head(Sibling(gp), nil)
      ensures Head(Sibling(gp), nil).color == if IsBlack(Sibling(gp)) then BLACK else RED
    {
      See(gp, u);
      Across(gp, u);
      See(Beside(gp, u), Sibling(gp));
    }

    // A red node below a red parent. The parent is not the root then.
    ghost predicate HoldsPair(node: RbNode, p: Path, t: Shape)
      reads this, repr, nil
    {
      Holds(p, t) && Paired(p, t) && node == t.node && nil.color == BLACK
    }

    lemma SeePair(node: RbNode, p: Path, t: Shape)
      requires HoldsPair(node, p, t)
      ensures node in repr && node.parent == p.node
      ensures (p.node.right == node) <==> p.InRight?
      ensures (p.node.left == node) <==> p.InLeft?
      ensures Holds(p.up, Up(p, t))
    {
      See(p, t);
      Focus(p, t);
    }

    // Case 1: pa and its sibling are red.
    method PushRedUp(pa: RbNode, un: RbNode, ghost gp: Path, ghost u: Shape) returns (next: RbNode)
      requires Holds(gp, u) && !gp.Top? && u.Bin? && u.node == pa && Sibling(gp).Bin?
      requires un == Sibling(gp).node
      modifies this`root, repr
      ensures Holds(gp.up, Raised(gp, u)) && next == gp.node
    {
      Across(gp, u);
      Paint(un, BLACK, Beside(gp, u), Sibling(gp));
      ghost var un' := Sibling(gp).(color := BLACK);
      Across(Beside(gp, u), un');
      ghost var gp' := WithSibling(gp, un');
      assert gp' == Beside(Beside(gp, u), un');
      Paint(pa, BLACK, gp', u);
      ghost var u' := u.(color := BLACK);
      Focus(gp', u');
      See(gp', u');
      Paint(pa.parent, RED, gp.up, Up(gp', u'));
      next := pa.parent;
    }

    // Case 2: node, an inner child, changes places with its parent.
    method OuterLeft(node: RbNode, pa: RbNode, ghost p: Path, ghost t: Shape) returns (next: RbNode, top: RbNode)
      requires if p.Top? then node != pa.right else HoldsPair(node, p, t) && p.up.InLeft? && pa == p.node
      modifies this`root, repr
      ensures if p.Top? then next == node && top == pa && root == old(root) && unchanged(repr)
              else Holds(p.up, Outer(p, t)) && top == Outer(p, t).node && next == Outer(p, t).left.node
    {
      if !p.Top? {
        SeePair(node, p, t);
        OuterRules(p, t);
      }
      next, top := node, pa;
      if node == pa.right {
        next := pa;
        RotateLeftAt(next, p.up, Up(p, t));
        ghost var u := Outer(p, t);
        Unfocus(ToLeft(p.up, u), u.left);
        See(ToLeft(p.up, u), u.left);
        top := next.parent;
      }
    }

    method OuterRight(node: RbNode, pa: RbNode, ghost p: Path, ghost t: Shape) returns (next: RbNode, top: RbNode)
      requires if p.Top? then node != pa.left else HoldsPair(node, p, t) && p.up.InRight? && pa == p.node
      modifies this`root, repr
      ensures if p.Top? then next == node && top == pa && root == old(root) && unchanged(repr)
              else Holds(p.up, Outer(p, t)) && top == Outer(p, t).node && next == Outer(p, t).right.node
    {
      if !p.Top? {
        SeePair(node, p, t);
        OuterRules(p, t);
      }
      next, top := node, pa;
      if pa.left == node {
        next := pa;
        RotateRightAt(next, p.up, Up(p, t));
        ghost var u := Outer(p, t);
        Unfocus(ToRight(p.up, u), u.right);
        See(ToRight(p.up, u), u.right);
        top := next.parent;
      }
    }

    // Case 3: the parent of node, an outer child, takes the grandparent's place.
    method OverRight(pa: RbNode, ghost gp: Path, ghost u: Shape)
      requires Holds(gp, u) && gp.InLeft? && u.Bin? && u.node == pa
      modifies this`root, repr
      ensures Holds(gp.up, Overturned(gp, u))
    {
      See(gp, u);
      Paint(pa, BLACK, gp, u);
      ghost var u' := u.(color := BLACK);
      See(gp, u');
      Focus(gp, u');
      Paint(pa.parent, RED, gp.up, Up(gp, u'));
      ghost var g := Up(gp, u').(color := RED);
      assert g == Bin(RED, u', gp.node, gp.right);
      Unfocus(ToLeft(gp.up, g), u');
      See(ToLeft(gp.up, g), u');
      RotateRightAt(pa.parent, gp.up, g);
    }

    // At the top of the tree, pa is the root and its own parent.
    method OverLeft(pa: RbNode, ghost gp: Path, ghost u: Shape)
      requires Holds(gp, u) && u.Bin? && u.node == pa
      requires gp.InRight? || (gp.Top? && pa == anchor && u.color == RED && u.right.Bin?)
      modifies this`root, repr
      ensures if gp.Top? then Holds(Top, RotLeft(u)) else Holds(gp.up, Overturned(gp, u))
    {
      See(gp, u);
      Paint(pa, BLACK, gp, u);
      ghost var up, g := gp, u.(color := BLACK);
      See(gp, g);
      if !gp.Top? {
        Focus(gp, g);
        up, g := gp.up, Up(gp, g);
      }
      Paint(pa.parent, RED, up, g);
      g := g.(color := RED);
      if gp.Top? {
        See(up, g);
      } else {
        assert g == Bin(RED, gp.left, gp.node, u.(color := BLACK));
        Unfocus(ToRight(up, g), g.right);
        See(ToRight(up, g), g.right);
      }
      RotateLeftAt(pa.parent, up, g);
    }

    // The fixup stands at a red root whose parent field names a red node in the
    // tree, at the head of u; that may be the root itself.
    ghost predicate Astray(node: RbNode, t: Shape, q: Path, u: Shape)
      reads this, repr, nil
    {
      && Holds(Top, t) && nil.color == BLACK && RedAt(Top, t) && t.node == node
      && t == Plug(q, u) && u.Bin? && u.node == anchor && u.color == RED
      && (q.Top? ==> t.right.Bin?)
    }

    lemma SeeAstray(node: RbNode, t: Shape, q: Path, u: Shape)
      requires Astray(node, t, q, u)
      ensures Holds(q, u) && {node, anchor} <= repr && node.parent == anchor
      ensures node !in {anchor.left, anchor.right}
      ensures !q.Top? ==> RedBlack(Sibling(q))
      ensures q.Top? ==> anchor == node && anchor.left != null && anchor.left.color == BLACK
    {
      See(Top, t);
      UnfocusTop(q, u);
      See(q, u);
      Unfocus(ToLeft(q, u), u.left);
      See(ToLeft(q, u), u.left);
      Unfocus(ToRight(q, u), u.right);
      See(ToRight(q, u), u.right);
      if !q.Top? {
        StrayedRules(t, q, u);
      }
    }

    // What a round may start from.
    ghost predicate AtRound(node: RbNode, p: Path, t: Shape, q: Path, u: Shape)
      reads this, repr, nil
    {
      if p.Top? then Astray(node, t, q, u) else HoldsPair(node, p, t)
    }

    // Where it ends: two up from where it began or beside there, or where the node
    // was that it mistook for the parent of the root.
    ghost predicate RoundedUp(node: RbNode, start: RbNode, p: Path, t: Shape, q: Path, u: Shape)
      requires if p.Top? then t.Bin? && u.Bin? else Paired(p, t)
      reads this, repr
    {
      if !p.Top? then Holds(RoundPath(p, t), RoundTree(p, t)) && node == Head(RoundTree(p, t), nil)
      else if q.Top? then t.right.Bin? && Holds(Top, RotLeft(t)) && node == start
      else if IsBlack(Sibling(q)) then Holds(q.up, Overturned(q, u)) && node == start
      else Holds(q.up, Raised(q, u)) && node == q.node
    }

    // One round of the insert fixup.
    method InsertRound(start: RbNode, ghost p: Path, ghost t: Shape, ghost q: Path, ghost u: Shape)
      returns (node: RbNode)
      requires AtRound(start, p, t, q, u)
      modifies this`root, repr
      ensures RoundedUp(node, start, p, t, q, u)
    {
      node := start;
      ghost var gp, low, top := q, u, u;
      if p.Top? {
        SeeAstray(node, t, q, u);
      } else {
        SeePair(node, p, t);
        gp, low, top := p.up, Up(p, t), Outer(p, t);
      }
      if !gp.Top? {
        SeeUncle(gp, low);
      }
      var pa := node.parent;
      if pa == pa.parent.left {
        var un := pa.parent.right;
        if un.color == RED {
          node := PushRedUp(pa, un, gp, low);
        } else {
          node, pa := OuterLeft(node, pa, p, t);
          OverRight(pa, gp, top);
          if !p.Top? { Unfocus(RoundPath(p, t), RoundTree(p, t)); }
        }
      } else {
        var un := pa.parent.left;
        if un.color == RED {
          node := PushRedUp(pa, un, gp, low);
        } else {
          node, pa := OuterRight(node, pa, p, t);
          OverLeft(pa, gp, top);
          if !p.Top? { Unfocus(RoundPath(p, t), RoundTree(p, t)); }
        }
      }
    }

    // The root of the whole tree turns black, whatever it was.
    method BlackenRoot(ghost p: Path, ghost t: Shape)
      requires Holds(p, t) && t.Bin? && nil.color == BLACK
      modifies this`shape, repr`color
      ensures Holds(Top, shape) && shape == Blackened(Plug(p, t))
      ensures nil.color == BLACK && (BlackOutside() <==> old(BlackOutside()))
    {
      FocusTop(p, t);
      PlugBin(p, t);
      ghost var all := Plug(p, t);
      See(Top, all);
      Paint(root, BLACK, Top, all);
      shape := all.(color := BLACK);
    }

    ghost predicate Underway(node: RbNode, stage: Stage, p: Path, t: Shape, q: Path, u: Shape, outside: bool)
      reads this, repr, nil, anchor
    {
      && Holds(p, t) && nil.color == BLACK && BlackOutside() == outside
      && Stands(anchor, stage, p, t, q, u, outside)
      && node == (if stage.Overrun? then t.left.node else t.node)
      && (stage.Ended? ==> anchor.color == BLACK)
    }

    // What the guard of the loop sees.
    lemma SeeUnderway(node: RbNode, stage: Stage, p: Path, t: Shape, q: Path, u: Shape, outside: bool)
      requires Underway(node, stage, p, t, q, u, outside)
      ensures node in repr && node.parent == if stage.Overrun? then t.node else Parent(p, anchor)
      ensures node.parent.color == RED ==>
        (if p.Top? then stage.Rising? && !outside && Borne(anchor, t, q, u) && Astray(node, t, q, u)
         else !TakesRed(p) && (stage.Rising? || stage.Again?) && HoldsPair(node, p, t))
      ensures node.parent.color != RED ==>
        && (stage.Ended? || stage.Overrun? || TakesRed(if stage.Rising? then p else RootBlack(p)))
        && (stage.Rising? && p.Top? ==> anchor != t.node)
    {
      See(p, t);
      if stage.Overrun? {
        Unfocus(ToLeft(p, t), t.left);
        See(ToLeft(p, t), t.left);
      } else if p.Top? {
        if !outside && stage.Rising? {
          UnfocusTop(q, u);
          See(q, u);
        }
      } else if node.parent.color == RED {
        if stage.Rising? {
          PairAt(p, t);
        } else {
          RootBlackRound(p, t);
        }
      }
    }

    lemma RootElsewhere(t: Shape, q: Path, u: Shape, g: Shape)
      requires Strayed(t, q, u) && Holds(q.up, g) && u.node in Nodes(g) && !q.up.Top?
      ensures u.node != t.node
    {
      PlugRoot(q.up, Up(q, u));
      RootOnPath(q.up, q.node);
    }

    // From the red root on, when its parent field named a red node of the tree.
    lemma TopRound(node: RbNode, start: RbNode, t: Shape, q: Path, u: Shape)
      returns (stage: Stage, p': Path, t': Shape)
      requires RedAt(Top, t) && Borne(anchor, t, q, u) && u.color == RED && start == t.node
      requires RoundedUp(node, start, Top, t, q, u) && nil.color == BLACK && !BlackOutside()
      ensures Underway(node, stage, p', t', q, u, false) && !stage.Rising?
      ensures Tracks(anchor, stage, p', t', Top, t)
    {
      if q.Top? {
        stage, p', t' := Overrun, Top, RotLeft(t);
        OverrunRules(t);
      } else if IsBlack(Sibling(q)) {
        StrayTurned(t, q, u);
        See(q.up, Overturned(q, u));
        FocusTop(q.up, Overturned(q, u));
        InorderPlug(q, u);
        stage, p', t' := Ended, Top, Plug(q.up, Overturned(q, u));
        RootElsewhere(t, q, u, Overturned(q, u));
      } else {
        StrayRaised(t, q, u);
        stage, p', t' := Again, q.up, Raised(q, u);
        RootElsewhere(t, q, u, Raised(q, u));
      }
    }

    // One round, wherever it goes.
    method FixupRound(start: RbNode, ghost stage0: Stage, ghost p: Path, ghost t: Shape,
                      ghost q: Path, ghost u: Shape, ghost outside: bool)
      returns (node: RbNode, ghost stage: Stage, ghost p': Path, ghost t': Shape)
      requires AtRound(start, p, t, q, u) && (stage0.Rising? || (stage0.Again? && !p.Top?))
      requires Stands(anchor, stage0, p, t, q, u, outside) && BlackOutside() == outside
      requires p.Top? ==> !outside && Borne(anchor, t, q, u)
      modifies this`root, repr
      ensures Underway(node, stage, p', t', q, u, outside)
      ensures Whole(p', t') == Whole(p, t)
      ensures stage0.Rising? ==> Tracks(anchor, stage, p', t', p, t)
      ensures stage0.Again? ==> stage.Again?
      ensures StagesLeft(stage) < StagesLeft(stage0) || (stage == stage0 && RoundsLeft(p') < RoundsLeft(p))
    {
      node := InsertRound(start, p, t, q, u);
      if p.Top? {
        stage, p', t' := TopRound(node, start, t, q, u);
      } else {
        PairRound(anchor, stage0, p, t, q, u, outside);
        stage, p', t' := stage0, RoundPath(p, t), RoundTree(p, t);
      }
    }

    // What the guard of the loop finds each time.
    ghost predicate AtGuard(node: RbNode, stage: Stage, p: Path, t: Shape, q: Path, u: Shape, outside: bool,
                            p0: Path, t0: Shape)
      reads this, repr, nil, anchor
    {
      && Underway(node, stage, p, t, q, u, outside) && t0.Bin? && Tracks(anchor, stage, p, t, p0, t0)
      && node in repr && node.parent == if stage.Overrun? then t.node else Parent(p, anchor)
    }

    method NextRound(start: RbNode, ghost stage0: Stage, ghost p1: Path, ghost t1: Shape,
                     ghost q: Path, ghost u: Shape, ghost outside: bool, ghost p0: Path, ghost t0: Shape)
      returns (node: RbNode, ghost stage: Stage, ghost p: Path, ghost t: Shape)
      requires AtGuard(start, stage0, p1, t1, q, u, outside, p0, t0) && start.parent.color == RED
      modifies this`root, repr
      ensures AtGuard(node, stage, p, t, q, u, outside, p0, t0)
      ensures StagesLeft(stage) < StagesLeft(stage0) || (stage == stage0 && RoundsLeft(p) < RoundsLeft(p1))
    {
      SeeUnderway(start, stage0, p1, t1, q, u, outside);
      node, stage, p, t := FixupRound(start, stage0, p1, t1, q, u, outside);
      TracksOn(anchor, stage0, stage, p, t, p1, t1, p0, t0);
      SeeUnderway(node, stage, p, t, q, u, outside);
    }

    lemma EndRules(node: RbNode, stage: Stage, p: Path, t: Shape, q: Path, u: Shape, outside: bool,
                   p0: Path, t0: Shape)
      requires AtGuard(node, stage, p, t, q, u, outside, p0, t0) && node.parent.color != RED
      ensures Repaired(anchor, Blackened(Plug(p, t)), p0, t0, outside) && BlackOutside() == outside
      ensures Holds(p, t) && t.Bin?
    {
      SeeUnderway(node, stage, p, t, q, u, outside);
      InorderPlug(p, t);
      if stage.Rising? {
        PlugRedBlack(p, t);
      } else if stage.Again? {
        PlugRedBlack(RootBlack(p), t);
        PlugRootBlack(p, t);
      }
    }

    method InsertFixup(leaf: RbNode, ghost p0: Path, ghost q: Path, ghost u: Shape)
      requires Underway(leaf, Rising, p0, NewLeaf(leaf), q, u, BlackOutside())
      modifies this`root, this`shape, repr
      ensures Holds(Top, shape) && Repaired(anchor, shape, p0, NewLeaf(leaf), old(BlackOutside()))
      ensures nil.color == BLACK && (BlackOutside() <==> old(BlackOutside()))
    {
      var node := leaf;
      ghost var outside, low := BlackOutside(), NewLeaf(leaf);
      ghost var stage, p, t := Rising, p0, low;
      SeeUnderway(node, stage, p, t, q, u, outside);
      while node.parent.color == RED
        invariant AtGuard(node, stage, p, t, q, u, outside, p0, low)
        decreases StagesLeft(stage), RoundsLeft(p)
      {
        node, stage, p, t := NextRound(node, stage, p, t, q, u, outside, p0, low);
      }
      EndRules(node, stage, p, t, q, u, outside, p0, low);
      BlackenRoot(p, t);
    }

    // The parent of the new leaf gets its pointer.
    method Adopt(node: RbNode, y: RbNode)
      requires node != y
      modifies node`parent, y`left, y`right
      ensures node.parent == y
      ensures y.Links() == if node.key < y.key then old(y.Links()).(left := node) else old(y.Links()).(right := node)
    {
      node.parent := y;
      if node.key < y.key {
        y.left := node;
      } else {
        y.right := node;
      }
    }

    method InitLeaf(node: RbNode)
      modifies node`left, node`right, node`color
      ensures node.Links() == Cell(old(node.parent), nil, nil, RED) && node.color == 0
    {
      node.left := nil;
      node.right := nil;
      node.color := RED;
    }

    // node becomes the only node.
    method HangRoot(node: RbNode)
      requires Holds(Top, Leaf) && nil.color == BLACK && node != nil
      modifies this`root, this`anchor, this`repr, node
      ensures Holds(Top, NewLeaf(node)) && BlackOutside() && repr == {node} && anchor == nil
    {
      root := node;
      node.parent := nil;
      anchor := nil;
      InitLeaf(node);
      repr := {node};
    }

    // node becomes a red leaf below y.
    method HangBelow(node: RbNode, y: RbNode, ghost p: Path)
      requires Holds(p, Leaf) && node !in repr && node != nil
      requires !p.Top? && y == p.node && (p.InLeft? <==> node.key < y.key)
      modifies this`repr, repr, node
      ensures Holds(p, NewLeaf(node)) && repr == old(repr) + {node}
    {
      ghost var t := NewLeaf(node);
      See(p, Leaf);
      RootOnPath(p, node);
      Adopt(node, y);
      InitLeaf(node);
      repr := repr + {node};
      forall n | n in repr
        ensures n.Links() == LinksAt(p, t, anchor, nil, n)
      {
        AttachLinks(p, Leaf, t, anchor, nil, n);
      }
    }

    // The fixup of a new node does not get lost: it does not come to the root, or
    // the root's parent field names a black node outside the tree, the new node, the
    // root itself, or a node that is harmless there.
    ghost predicate Settles(node: RbNode)
      reads this, nil, anchor
    {
      shape.Leaf? || BlackOutside() || node == anchor || root == anchor || FindsItsWay(node)
    }

    ghost predicate FindsItsWay(node: RbNode)
      reads this
    {
      var p := Descent(Top, shape, node.key);
      RedUp(p) ==>
        var top := Risen(p, NewLeaf(node));
        anchor in Nodes(top) && Harmless(Way(Top, top, anchor), Sub(top, anchor))
    }

    // It comes to a root that is its own parent.
    ghost predicate Overruns(node: RbNode)
      reads this
    {
      shape.Bin? && root == anchor && RedUp(Descent(Top, shape, node.key))
    }

    lemma Bearings(node: RbNode, p: Path) returns (q: Path, u: Shape)
      requires Holds(p, NewLeaf(node)) && RedAt(p, NewLeaf(node)) && !p.Top? && p == Descent(Top, shape, node.key)
      requires BlackOutside() || node == anchor || root == anchor || FindsItsWay(node)
      ensures RedUp(p) && !BlackOutside() ==> Borne(anchor, Risen(p, NewLeaf(node)), q, u)
      ensures RedUp(p) ==> Risen(p, NewLeaf(node)).node == root
    {
      q, u := Top, NewLeaf(node);
      if RedUp(p) {
        var top := Risen(p, u);
        RisenFull(p, u);
        RisenRoot(p, u);
        if node == anchor {
          q := LeafRises(Top, p, u, node);
        } else if root == anchor {
          u := top;
        } else if !BlackOutside() {
          WayLeads(Top, top, anchor);
          q, u := Way(Top, top, anchor), Sub(top, anchor);
        }
      }
    }

    // node becomes a red leaf at the place of its key.
    method Hang(node: RbNode) returns (ghost p: Path, ghost q: Path, ghost u: Shape)
      requires Sound() && Settles(node) && node !in repr && node != nil
      modifies this`root, this`anchor, this`repr, repr, node
      ensures p == Descent(Top, shape, node.key)
      ensures Underway(node, Rising, p, NewLeaf(node), q, u, BlackOutside())
      ensures BlackOutside() <==> old(root) == nil || (old(BlackOutside()) && node != anchor)
      ensures RedUp(p) && anchor == Risen(p, NewLeaf(node)).node <==> old(Overruns(node))
      ensures Whole(p, NewLeaf(node)) == InsertByKey(Elements(), node) && Ascending(Whole(p, NewLeaf(node)))
      ensures |Whole(p, NewLeaf(node))| == size + 1
      ensures repr == old(repr) + {node} && anchor == if old(root) == nil then nil else old(anchor)
    {
      HeadNotNil(Top, shape);
      if root == nil {
        p, q, u := Top, Top, Leaf;
        HangRoot(node);
      } else {
        var y;
        y, p := FindParent(node.key);
        HangBelow(node, y, p);
        LeafInOrder(p, NewLeaf(node));
        q, u := Bearings(node, p);
      }
      LeafInOrder(p, NewLeaf(node));
    }

    // Hangs a new node at the place of its key and repairs the rules.
    method InsertNode(node: RbNode)
      requires Sound() && Settles(node) && node !in repr && node != nil
      modifies this`root, this`anchor, this`repr, this`shape, repr, node
      ensures Holds(Top, shape) && nil.color == BLACK && Ascending(Elements()) && |Elements()| == size + 1
      ensures Elements() == InsertByKey(old(Elements()), node) && repr == old(repr) + {node}
      ensures var p, low := Descent(Top, old(shape), node.key), NewLeaf(node);
              && Repaired(anchor, shape, p, low, BlackOutside())
              && (RedUp(p) && anchor == Risen(p, low).node <==> old(Overruns(node)))
      ensures BlackOutside() <==> old(root) == nil || (old(BlackOutside()) && node != anchor)
      ensures anchor == if old(root) == nil then nil else old(anchor)
    {
      ghost var p, q, u := Hang(node);
      InsertFixup(node, p, q, u);
    }

    // Adds the node behind all nodes whose keys are not greater. The tree is sound
    // afterwards unless the fixup comes to a root that is its own parent; then that
    // root is turned below its right child. The field above the root goes on naming
    // what it named.
    method Insert(node: RbNode?)
      requires Sound()
      requires node != null && node != nil ==> node !in repr && Settles(node)
      modifies this, repr, node
      ensures node == null || node == nil ==> unchanged(this) && unchanged(repr) && Sound()
      ensures node != null && node != nil ==>
        var p, low := Descent(Top, old(shape), node.key), NewLeaf(node);
        && Holds(Top, shape) && Elements() == InsertByKey(old(Elements()), node) && repr == old(repr) + {node}
        && (Sound() <==> !old(Overruns(node)))
        && (old(Overruns(node)) ==> Risen(p, low).right.Bin? && shape == RotLeft(Risen(p, low)))
        && (!RedUp(p) || BlackOutside() ==> shape == Fixed(p, low))
        && root.parent == anchor == (if old(root) == nil then nil else old(anchor))
        && (BlackOutside() <==> old(root) == nil || (old(BlackOutside()) && node != old(root.parent)))
      ensures old(Valid()) ==> Sound()
    {
      See(Top, shape);
      if node == null || node == nil {
        return;
      }
      InsertNode(node);
      size := size + 1;
      See(Top, shape);
    }

    // ------------------------------------------------------------- deletion

    // node heads t, which lacks a black node. node may be the sentinel, whose
    // parent field then names the node above.
    ghost predicate Lacking(node: RbNode, p: Path, t: Shape)
      reads this, repr, nil
    {
      && Holds(p, t) && Short(p, t) && IsBlack(t) && !p.Top? && nil.color == BLACK
      && node == Head(t, nil) && node.parent == p.node && Sibling(p).Bin?
    }

    // node is a left child and its sibling w is red: w goes up.
    method FaceLeft(node: RbNode, w0: RbNode, ghost p: Path, ghost t: Shape) returns (w: RbNode)
      requires Lacking(node, p, t) && p.InLeft? && w0 == Sibling(p).node
      modifies this`root, repr
      ensures Holds(Facing(p), t) && w == Sibling(Facing(p)).node
    {
      FacingRules(p, t);
      See(p, t);
      Across(p, t);
      See(Beside(p, t), Sibling(p));
      w := w0;
      if w.color == RED {
        Paint(w, BLACK, Beside(p, t), Sibling(p));
        ghost var s := Painted(Sibling(p), BLACK);
        ghost var q := WithSibling(p, s);
        Across(Beside(p, t), s);
        Focus(q, t);
        Paint(node.parent, RED, p.up, Up(q, t));
        ghost var u := Bin(RED, t, p.node, s);
        RotateLeftAt(node.parent, p.up, u);
        ghost var top := RotLeft(u);
        Unfocus(ToLeft(p.up, top), top.left);
        Unfocus(Facing(p), t);
        See(Facing(p), t);
        w := node.parent.right;
      }
    }

    // node is a left child, its sibling w and the far nephew are black: the
    // near nephew becomes the sibling.
    method SwingLeft(node: RbNode, w0: RbNode, ghost q: Path, ghost t: Shape) returns (w: RbNode)
      requires Lacking(node, q, t) && q.InLeft? && w0 == Sibling(q).node && Sibling(q).color == BLACK
      requires !(IsBlack(Near(q)) && IsBlack(Far(q)))
      modifies this`root, repr
      ensures IsBlack(Far(q)) ==> Near(q).Bin?
      ensures Holds(WithSibling(q, Swung(q)), t) && w == Swung(q).node
    {
      SwungRules(q, t);
      See(q, t);
      Across(q, t);
      ghost var side, s := Beside(q, t), Sibling(q);
      See(side, s);
      Unfocus(ToRight(side, s), s.right);
      See(ToRight(side, s), s.right);
      w := w0;
      if w.right.color == BLACK {
        Unfocus(ToLeft(side, s), s.left);
        Paint(w.left, BLACK, ToLeft(side, s), s.left);
        ghost var low := Painted(s.left, BLACK);
        Focus(ToLeft(side, s), low);
        ghost var s1 := Bin(BLACK, low, s.node, s.right);
        Paint(w, RED, side, s1);
        RotateRightAt(w, side, Painted(s1, RED));
        Across(side, Swung(q));
        See(WithSibling(q, Swung(q)), t);
        w := node.parent.right;
      } else {
        assert WithSibling(q, s) == q;
      }
    }

    // node is a left child and the far nephew is red: its uncle settles the lack.
    method SettleLeft(node: RbNode, w: RbNode, ghost q: Path, ghost s: Shape, ghost t: Shape)
      requires q.InLeft? && Holds(WithSibling(q, s), t) && s.Bin? && s.right.Bin?
      requires w == s.node && node.parent == q.node && node == Head(t, nil)
      modifies this`root, repr
      ensures Holds(q.up, Settled(q, s, t))
    {
      ghost var q1 := WithSibling(q, s);
      ghost var side := Beside(q1, t);
      See(q1, t);
      Across(q1, t);
      Paint(w, node.parent.color, side, s);
      ghost var s1 := Painted(s, q.color);
      See(side, s1);
      Across(side, s1);
      ghost var q2 := WithSibling(q, s1);
      Focus(q2, t);
      Paint(node.parent, BLACK, q.up, Up(q2, t));
      ghost var g := Bin(BLACK, t, q.node, s1);
      Unfocus(ToRight(q.up, g), s1);
      See(ToRight(q.up, g), s1);
      Unfocus(ToRight(ToRight(q.up, g), s1), s.right);
      Paint(w.right, BLACK, ToRight(ToRight(q.up, g), s1), s.right);
      Focus(ToRight(ToRight(q.up, g), s1), Painted(s.right, BLACK));
      ghost var s2 := Bin(q.color, s.left, s.node, Painted(s.right, BLACK));
      Focus(ToRight(q.up, g), s2);
      assert Bin(BLACK, t, q.node, s2) == Braced(q, s, t);
      Unfocus(ToLeft(q.up, Braced(q, s, t)), t);
      See(ToLeft(q.up, Braced(q, s, t)), t);
      RotateLeftAt(node.parent, q.up, Braced(q, s, t));
    }

    // node is a right child and its sibling w is red: w goes up.
    method FaceRight(node: RbNode, w0: RbNode, ghost p: Path, ghost t: Shape) returns (w: RbNode)
      requires Lacking(node, p, t) && p.InRight? && w0 == Sibling(p).node
      modifies this`root, repr
      ensures Holds(Facing(p), t) && w == Sibling(Facing(p)).node
    {
      FacingRules(p, t);
      See(p, t);
      Across(p, t);
      See(Beside(p, t), Sibling(p));
      w := w0;
      if w.color == RED {
        Paint(w, BLACK, Beside(p, t), Sibling(p));
        ghost var s := Painted(Sibling(p), BLACK);
        ghost var q := WithSibling(p, s);
        Across(Beside(p, t), s);
        Focus(q, t);
        Paint(node.parent, RED, p.up, Up(q, t));
        ghost var u := Bin(RED, s, p.node, t);
        RotateRightAt(node.parent, p.up, u);
        ghost var top := RotRight(u);
        Unfocus(ToRight(p.up, top), top.right);
        Unfocus(Facing(p), t);
        See(Facing(p), t);
        w := node.parent.left;
      }
    }

    // node is a right child, its sibling w and the far nephew are black: the
    // near nephew becomes the sibling.
    method SwingRight(node: RbNode, w0: RbNode, ghost q: Path, ghost t: Shape) returns (w: RbNode)
      requires Lacking(node, q, t) && q.InRight? && w0 == Sibling(q).node && Sibling(q).color == BLACK
      requires !(IsBlack(Near(q)) && IsBlack(Far(q)))
      modifies this`root, repr
      ensures IsBlack(Far(q)) ==> Near(q).Bin?
      ensures Holds(WithSibling(q, Swung(q)), t) && w == Swung(q).node
    {
      SwungRules(q, t);
      See(q, t);
      Across(q, t);
      ghost var side, s := Beside(q, t), Sibling(q);
      See(side, s);
      Unfocus(ToLeft(side, s), s.left);
      See(ToLeft(side, s), s.left);
      w := w0;
      if w.left.color == BLACK {
        Unfocus(ToRight(side, s), s.right);
        Paint(w.right, BLACK, ToRight(side, s), s.right);
        ghost var low := Painted(s.right, BLACK);
        Focus(ToRight(side, s), low);
        ghost var s1 := Bin(BLACK, s.left, s.node, low);
        Paint(w, RED, side, s1);
        RotateLeftAt(w, side, Painted(s1, RED));
        Across(side, Swung(q));
        See(WithSibling(q, Swung(q)), t);
        w := node.parent.left;
      } else {
        assert WithSibling(q, s) == q;
      }
    }

    // node is a right child and the far nephew is red: its uncle settles the lack.
    method SettleRight(node: RbNode, w: RbNode, ghost q: Path, ghost s: Shape, ghost t: Shape)
      requires q.InRight? && Holds(WithSibling(q, s), t) && s.Bin? && s.left.Bin?
      requires w == s.node && node.parent == q.node && node == Head(t, nil)
      modifies this`root, repr
      ensures Holds(q.up, Settled(q, s, t))
    {
      ghost var q1 := WithSibling(q, s);
      ghost var side := Beside(q1, t);
      See(q1, t);
      Across(q1, t);
      Paint(w, node.parent.color, side, s);
      ghost var s1 := Painted(s, q.color);
      See(side, s1);
      Across(side, s1);
      ghost var q2 := WithSibling(q, s1);
      Focus(q2, t);
      Paint(node.parent, BLACK, q.up, Up(q2, t));
      ghost var g := Bin(BLACK, s1, q.node, t);
      Unfocus(ToLeft(q.up, g), s1);
      See(ToLeft(q.up, g), s1);
      Unfocus(ToLeft(ToLeft(q.up, g), s1), s.left);
      Paint(w.left, BLACK, ToLeft(ToLeft(q.up, g), s1), s.left);
      Focus(ToLeft(ToLeft(q.up, g), s1), Painted(s.left, BLACK));
      ghost var s2 := Bin(q.color, Painted(s.left, BLACK), s.node, s.right);
      Focus(ToLeft(q.up, g), s2);
      assert Bin(BLACK, s2, q.node, t) == Braced(q, s, t);
      Unfocus(ToRight(q.up, Braced(q, s, t)), t);
      See(ToRight(q.up, Braced(q, s, t)), t);
      RotateRightAt(node.parent, q.up, Braced(q, s, t));
    }

    // What a round leaves: the lack is higher up, met a red node, or is gone.
    ghost predicate Rounded(node: RbNode, p: Path, t: Shape)
      reads this, repr
    {
      Holds(p, t) && Short(p, t) && t.Bin? && node == t.node
    }

    lemma SeeNephews(q: Path, t: Shape)
      requires !q.Top? && Holds(q, t) && Short(q, t) && nil.color == BLACK && Sibling(q).Bin?
      ensures var s := Sibling(q);
              && s.node in repr && s.node.left != null && s.node.right != null
              && (s.node.left.color == BLACK <==> IsBlack(s.left))
              && (s.node.right.color == BLACK <==> IsBlack(s.right))
    {
      ghost var side, s := Beside(q, t), Sibling(q);
      assert RedBlack(s);
      Across(q, t);
      See(side, s);
      Unfocus(ToLeft(side, s), s.left);
      See(ToLeft(side, s), s.left);
      Unfocus(ToRight(side, s), s.right);
      See(ToRight(side, s), s.right);
    }

    // Both nephews are black: the sibling turns red.
    method PassUp(node: RbNode, w: RbNode, ghost q: Path, ghost t: Shape)
      returns (next: RbNode, ghost p: Path, ghost u: Shape)
      requires Lacking(node, q, t) && w == Sibling(q).node && Sibling(q).color == BLACK
      requires IsBlack(Near(q)) && IsBlack(Far(q))
      modifies repr
      ensures Rounded(next, p, u) && Whole(p, u) == Whole(q, t)
      ensures p == q.up && u.color == q.color
    {
      PassedRules(q, t);
      Across(q, t);
      See(q, t);
      ghost var side, s := Beside(q, t), Painted(Sibling(q), RED);
      Paint(w, RED, side, Sibling(q));
      Across(side, s);
      Focus(WithSibling(q, s), t);
      See(WithSibling(q, s), t);
      next := node.parent;
      p, u := q.up, Passed(q, t);
    }

    // The rules hold again: the loop is sent to the root.
    method EndAtRoot(ghost q: Path, ghost t: Shape) returns (next: RbNode, ghost p: Path, ghost u: Shape)
      requires Holds(q, t) && t.Bin? && Short(Top, Plug(q, t))
      ensures Rounded(next, p, u) && Whole(p, u) == Whole(q, t) && p.Top?
    {
      FocusTop(q, t);
      PlugBin(q, t);
      InorderPlug(q, t);
      p, u := Top, Plug(q, t);
      See(p, u);
      next := root;
    }

    // The rest of a round in which node is a left child and its sibling w is black.
    method FinishLeft(node: RbNode, w0: RbNode, ghost q: Path, ghost t: Shape)
      returns (next: RbNode, ghost p: Path, ghost u: Shape)
      requires Lacking(node, q, t) && q.InLeft? && w0 == Sibling(q).node && Sibling(q).color == BLACK
      modifies this`root, repr
      ensures Rounded(next, p, u) && Whole(p, u) == Whole(q, t)
      ensures p.Top? || (p == q.up && u.color == q.color)
    {
      SeeNephews(q, t);
      var w := w0;
      if w.left.color == BLACK && w.right.color == BLACK {
        next, p, u := PassUp(node, w, q, t);
      } else {
        SwungRules(q, t);
        w := SwingLeft(node, w, q, t);
        SettledRules(q, Swung(q), t);
        SettleLeft(node, w, q, Swung(q), t);
        next, p, u := EndAtRoot(q.up, Settled(q, Swung(q), t));
      }
    }

    // The rest of a round in which node is a right child and its sibling w is black.
    method FinishRight(node: RbNode, w0: RbNode, ghost q: Path, ghost t: Shape)
      returns (next: RbNode, ghost p: Path, ghost u: Shape)
      requires Lacking(node, q, t) && q.InRight? && w0 == Sibling(q).node && Sibling(q).color == BLACK
      modifies this`root, repr
      ensures Rounded(next, p, u) && Whole(p, u) == Whole(q, t)
      ensures p.Top? || (p == q.up && u.color == q.color)
    {
      SeeNephews(q, t);
      var w := w0;
      if w.left.color == BLACK && w.right.color == BLACK {
        next, p, u := PassUp(node, w, q, t);
      } else {
        SwungRules(q, t);
        w := SwingRight(node, w, q, t);
        SettledRules(q, Swung(q), t);
        SettleRight(node, w, q, Swung(q), t);
        next, p, u := EndAtRoot(q.up, Settled(q, Swung(q), t));
      }
    }

    // One round of the delete fixup.
    method DeleteRound(start: RbNode, ghost p: Path, ghost t: Shape)
      returns (node: RbNode, ghost q: Path, ghost u: Shape)
      requires Lacking(start, p, t)
      modifies this`root, repr
      ensures Rounded(node, q, u) && Whole(q, u) == Whole(p, t)
      ensures q.Top? || !IsBlack(u) || Length(q) < Length(p)
    {
      node := start;
      FacingRules(p, t);
      See(p, t);
      Across(p, t);
      See(Beside(p, t), Sibling(p));
      if node == node.parent.left {
        var w := node.parent.right;
        w := FaceLeft(node, w, p, t);
        See(Facing(p), t);
        node, q, u := FinishLeft(node, w, Facing(p), t);
      } else {
        var w := node.parent.left;
        w := FaceRight(node, w, p, t);
        See(Facing(p), t);
        node, q, u := FinishRight(node, w, Facing(p), t);
      }
    }

    // What the loop of the delete fixup knows each time it tests its guard.
    ghost predicate Lack(node: RbNode, p: Path, t: Shape)
      reads this, repr, nil
    {
      && Holds(p, t) && Short(p, t) && node == Head(t, nil) && nil.color == BLACK
      && (!p.Top? ==> node.parent == p.node)
    }

    lemma SeeLack(node: RbNode, p: Path, t: Shape)
      requires Lack(node, p, t)
      ensures p.Top? <==> node == root
      ensures node == nil || node in repr
      ensures IsBlack(t) <==> node.color == BLACK
      ensures !p.Top? && IsBlack(t) ==> Lacking(node, p, t)
    {
      See(p, t);
      if !p.Top? && IsBlack(t) {
        FacingRules(p, t);
      }
    }

    method EndLack(node: RbNode, ghost p: Path, ghost t: Shape)
      requires Holds(p, t) && Short(p, t) && node == Head(t, nil) && nil.color == BLACK
      requires p.Top? || !IsBlack(t)
      modifies this`shape, node`color
      ensures Holds(Top, shape) && RedBlack(shape) && IsBlack(shape) && nil.color == BLACK
      ensures Inorder(shape) == Whole(p, t)
    {
      BlackenedRules(p, t);
      BlackenAt(node, p, t);
      FocusTop(p, Blackened(t));
      shape := Plug(p, Blackened(t));
    }

    // The rules hold but for the black node that t lacks.
    method DeleteFixup(start: RbNode, ghost p0: Path, ghost t0: Shape)
      requires Lack(start, p0, t0)
      modifies this`root, this`shape, repr, nil`color
      ensures Holds(Top, shape) && RedBlack(shape) && IsBlack(shape) && nil.color == BLACK
      ensures Inorder(shape) == Whole(p0, t0)
    {
      var node := start;
      ghost var p, t := p0, t0;
      SeeLack(node, p, t);
      while node != root && node.color == BLACK
        invariant Lack(node, p, t) && Whole(p, t) == Whole(p0, t0)
        decreases if p.Top? || !IsBlack(t) then 0 else Length(p)
      {
        SeeLack(node, p, t);
        node, p, t := DeleteRound(node, p, t);
        See(p, t);
      }
      SeeLack(node, p, t);
      EndLack(node, p, t);
    }

    // ------------------------------------------- relinking a deleted node

    // temp leaves its place to subst. When the parent of temp is the node to be
    // deleted, temp itself will stand there.
    method Bypass(node: RbNode, temp: RbNode, subst: RbNode)
      requires temp.parent != null && temp.parent != subst && temp != subst
      modifies subst`parent, temp.parent`left, temp.parent`right
      ensures subst.parent == if old(temp.parent) == node then temp else old(temp.parent)
      ensures old(temp.parent).Links() == old(
        if temp == temp.parent.left then temp.parent.Links().(left := subst) else temp.parent.Links().(right := subst))
    {
      if temp.parent == node {
        subst.parent := temp;
      } else {
        subst.parent := temp.parent;
      }
      if temp == temp.parent.left {
        temp.parent.left := subst;
      } else {
        temp.parent.right := subst;
      }
    }

    // The pointers around node let temp take its place.
    ghost predicate CanTakePlace(node: RbNode, temp: RbNode)
      reads this, node
    {
      && node.left != null && node.right != null
      && node != temp && temp !in {node.left, node.right} && node !in {node.left, node.right}
      && (node.left == node.right ==> node.left == nil)
      && (node != root ==> node.parent != null && node.parent !in {node, temp, node.left, node.right})
    }

    // temp takes the place of node, with all its links and its colour.
    method TakePlace(node: RbNode, temp: RbNode)
      requires CanTakePlace(node, temp)
      modifies this`root, temp
      modifies if node.left != nil then {node.left} else {}
      modifies if node.right != nil then {node.right} else {}
      modifies if node != root then {node.parent} else {}
      ensures root == if node == old(root) then temp else old(root)
      ensures temp.Links() == old(node.Links())
      ensures old(node.left) != nil ==> old(node.left).Links() == old(node.left.Links()).(parent := temp)
      ensures old(node.right) != nil ==> old(node.right).Links() == old(node.right.Links()).(parent := temp)
      ensures node != old(root) ==> old(node.parent).Links() == old(
        if node.parent.left == node then node.parent.Links().(left := temp) else node.parent.Links().(right := temp))
    {
      temp.parent := node.parent;
      if node == root {
        root := temp;
      } else {
        if node.parent.left == node {
          node.parent.left := temp;
        } else {
          node.parent.right := temp;
        }
      }
      temp.right := node.right;
      temp.left := node.left;
      if temp.left != nil {
        temp.left.parent := temp;
      }
      if temp.right != nil {
        temp.right.parent := temp;
      }
      temp.color := node.color;
    }

    method ClearNode(node: RbNode)
      modifies node`left, node`right, node`parent
      ensures node.Links() == Cell(null, null, null, old(node.color))
    {
      node.left := null;
      node.right := null;
      node.parent := null;
    }

    // As Holds, but the head of s may name another parent.
    ghost predicate HoldsBut(p: Path, t: Shape, s: RbNode)
      reads this, repr
    {
      && AllApart(p, t)
      && repr == PathNodes(p) + Nodes(t)
      && nil !in repr
      && root == Root(p, Head(t, nil))
      && forall n | n in repr ::
          var m := LinksAt(p, t, anchor, nil, n);
          n.Links() == if n == s then m.(parent := n.parent) else m
    }

    lemma FocusBut(p: Path, t: Shape, s: RbNode)
      requires !p.Top? && HoldsBut(p, t, s)
      ensures HoldsBut(p.up, Up(p, t), s)
    {
      FocusApart(p, t);
      forall n { FocusUp(p, t, anchor, nil, n); }
    }

    method BypassAt(node: RbNode, temp: RbNode, subst: RbNode, ghost q: Path, ghost u: Shape, ghost s: Shape)
      requires Holds(q, u) && !q.Top? && OneChild(u, s) && u.node == temp && subst == Head(s, nil)
      modifies this`repr, repr, subst`parent
      ensures repr == old(repr) - {temp}
      ensures subst.parent == if q.node == node then temp else q.node
      ensures temp.Links() == old(temp.Links())
      ensures HoldsBut(q, s, subst)
      ensures q.node != node ==> Holds(q, s)
    {
      SpliceApart(q, u, s);
      RootOnPath(q, temp);
      RootOnPath(q, subst);
      See(q, u);
      Bypass(node, temp, subst);
      repr := repr - {temp};
      forall n | n in repr
        ensures var m := LinksAt(q, s, anchor, nil, n);
                n.Links() == if n == subst then m.(parent := subst.parent) else m
      {
        SpliceLinks(q, u, s, anchor, nil, n);
      }
    }

    lemma PlacePointers(p: Path, t: Shape, temp: RbNode)
      requires t.Bin? && HoldsBut(p, t, Head(t.right, nil)) && temp !in repr && temp != nil
      ensures t.node in repr && CanTakePlace(t.node, temp)
      ensures t.node.Links() == Cell(Parent(p, anchor), Head(t.left, nil), Head(t.right, nil), t.color)
      ensures t.node == root <==> p.Top?
      ensures !p.Top? ==> p.node in repr && (p.node.left == t.node <==> p.InLeft?)
      ensures Head(t.left, nil) == nil || Head(t.left, nil) in repr
      ensures Head(t.right, nil) == nil || Head(t.right, nil) in repr
    {
      RootOnPath(p, t.node);
      LinksAtHead(p, t, anchor, nil);
      if !p.Top? { LinksAbove(p, t, anchor, nil); }
    }

    method TakePlaceAt(node: RbNode, temp: RbNode, ghost p: Path, ghost t: Shape)
      requires t.Bin? && t.node == node && HoldsBut(p, t, Head(t.right, nil))
      requires temp !in repr && temp != nil
      modifies this`root, this`repr, repr, temp
      ensures repr == old(repr) - {node} + {temp} && node.color == t.color
      ensures Holds(p, WithNode(t, temp))
    {
      PlacePointers(p, t, temp);
      TakePlace(node, temp);
      repr := repr - {node} + {temp};
      RootOnPath(p, temp);
      ExchangeApart(p, t, temp);
      forall n | n in repr
        ensures n.Links() == LinksAt(p, WithNode(t, temp), anchor, nil, n)
      {
        ExchangeLinks(p, t, temp, anchor, nil, n);
      }
    }

    lemma {:induction false} FocusJoin(sp: Path, base: Path, t: Shape)
      requires Holds(Join(sp, base), t)
      ensures Holds(base, Plug(sp, t))
    {
      if !sp.Top? {
        Focus(Join(sp, base), t);
        FocusJoin(sp.up, base, Up(sp, t));
      }
    }

    lemma {:induction false} UnfocusJoin(sp: Path, base: Path, t: Shape)
      requires Holds(base, Plug(sp, t))
      ensures Holds(Join(sp, base), t)
    {
      if !sp.Top? {
        UnfocusJoin(sp.up, base, Up(sp, t));
        Unfocus(Join(sp, base), t);
      }
    }

    // node has two children and temp is the first node on its right side: temp
    // leaves its place.
    method BypassBelow(node: RbNode, temp: RbNode, subst: RbNode,
                       ghost p: Path, ghost t: Shape, ghost sp: Path, ghost u: Shape)
      requires t.Bin? && t.node == node && LeftTurns(sp)
      requires u.Bin? && u.node == temp && u.left == Leaf && subst == Head(u.right, nil)
      requires Holds(Join(sp, ToRight(p, t)), u)
      modifies this`repr, repr, subst`parent
      ensures subst.parent == if sp.Top? then temp else sp.node
      ensures repr == old(repr) - {temp}
      ensures HoldsBut(p, Bin(t.color, t.left, node, Plug(sp, u.right)), Head(Plug(sp, u.right), nil))
    {
      ghost var base, r := ToRight(p, t), Plug(sp, u.right);
      ghost var q := Join(sp, base);
      JoinNode(sp, base);
      BypassAt(node, temp, subst, q, u, u.right);
      if sp.Top? {
        FocusBut(q, u.right, subst);
      } else {
        FocusJoin(sp, base, u.right);
        Focus(base, r);
      }
    }

    method MoveUp(node: RbNode, temp: RbNode, subst: RbNode,
                  ghost p: Path, ghost t: Shape, ghost sp: Path, ghost u: Shape)
      requires t.Bin? && t.node == node && LeftTurns(sp)
      requires u.Bin? && u.node == temp && u.left == Leaf && subst == Head(u.right, nil)
      requires Holds(Join(sp, ToRight(p, t)), u)
      modifies this`root, this`repr, repr, subst`parent
      ensures Holds(Join(sp, InRight(t.color, t.left, temp, p)), u.right)
      ensures subst.parent == Parent(Join(sp, InRight(t.color, t.left, temp, p)), anchor)
      ensures repr == old(repr) - {node} && node.color == t.color
    {
      ghost var r := Plug(sp, u.right);
      See(Join(sp, ToRight(p, t)), u);
      BypassBelow(node, temp, subst, p, t, sp, u);
      TakePlaceAt(node, temp, p, Bin(t.color, t.left, node, r));
      ghost var base' := InRight(t.color, t.left, temp, p);
      Unfocus(base', r);
      UnfocusJoin(sp, base', u.right);
      See(Join(sp, base'), u.right);
      JoinNode(sp, base');
    }

    lemma SeeLeft(p: Path, t: Shape)
      requires Holds(p, t) && t.Bin?
      ensures t.node in repr && t.node.left == Head(t.left, nil)
      ensures t.node.left != nil <==> t.left.Bin?
      ensures Holds(ToLeft(p, t), t.left)
    {
      See(p, t);
      Unfocus(ToLeft(p, t), t.left);
      HeadNotNil(ToLeft(p, t), t.left);
    }

    // The first node below node, or none when node is the sentinel.
    method SubtreeMin(start: RbNode, ghost p: Path, ghost t: Shape)
      returns (found: RbNode?, ghost sp: Path, ghost u: Shape)
      requires Holds(p, t) && start == Head(t, nil) && Ruled(p, t)
      ensures found == null <==> t.Leaf?
      ensures found != null ==> u.Bin? && u.left == Leaf && u.node == found && LeftTurns(sp)
      ensures found != null ==> Holds(Join(sp, p), u) && Ruled(Join(sp, p), u) && Plug(sp, u) == t
      ensures found != null ==> found == Inorder(t)[0]
    {
      sp, u := Top, t;
      HeadNotNil(p, t);
      if start == nil {
        return null, sp, u;
      }
      var node := start;
      SeeLeft(p, t);
      while node.left != nil
        invariant u.Bin? && node == u.node && LeftTurns(sp) && Plug(sp, u) == t
        invariant Holds(Join(sp, p), u) && Ruled(Join(sp, p), u)
        invariant node in repr && node.left == Head(u.left, nil) && (node.left != nil <==> u.left.Bin?)
        invariant Inorder(t)[0] == Inorder(u)[0]
        decreases u
      {
        RuledBelow(Join(sp, p), u);
        SeeLeft(Join(sp, p), u);
        node := node.left;
        sp, u := ToLeft(sp, u), u.left;
        SeeLeft(Join(sp, p), u);
      }
      found := node;
    }

    // The place of a node of the tree.
    lemma {:induction false} FindNode(p: Path, t: Shape, node: RbNode) returns (q: Path, u: Shape)
      requires Holds(p, t) && Ruled(p, t) && node in Nodes(t)
      ensures Holds(q, u) && Ruled(q, u) && u.Bin? && u.node == node
      ensures Whole(q, u) == Whole(p, t)
      decreases t
    {
      if t.node == node {
        return p, t;
      }
      RuledBelow(p, t);
      if node in Nodes(t.left) {
        Unfocus(ToLeft(p, t), t.left);
        WholeUp(ToLeft(p, t), t.left);
        q, u := FindNode(ToLeft(p, t), t.left, node);
      } else {
        Unfocus(ToRight(p, t), t.right);
        WholeUp(ToRight(p, t), t.right);
        q, u := FindNode(ToRight(p, t), t.right, node);
      }
    }

    // The node to take out, temp, and the child that follows it, as Delete picks
    // them: node itself, or the first node on its right side, at the end of sp.
    ghost predicate Chosen(node: RbNode, temp: RbNode, subst: RbNode,
                           p: Path, t: Shape, sp: Path, u: Shape)
      reads this, repr
    {
      && Holds(p, t) && Ruled(p, t) && t.Bin? && t.node == node
      && u.Bin? && u.node == temp && LeftTurns(sp)
      && subst == Head(Follower(u), nil)
      && if node == temp then u == t && OneChild(u, Follower(u))
         else Holds(Join(sp, ToRight(p, t)), u) && Ruled(Join(sp, ToRight(p, t)), u)
              && Plug(sp, u) == t.right && u.left == Leaf
    }

    method Choose(node: RbNode, ghost p: Path, ghost t: Shape)
      returns (temp: RbNode, subst: RbNode, ghost sp: Path, ghost u: Shape)
      requires Holds(p, t) && Ruled(p, t) && t.Bin? && t.node == node
      ensures Chosen(node, temp, subst, p, t, sp, u)
      ensures temp != node ==> temp != root
      ensures t.left.Leaf? || t.right.Leaf? <==> temp == node
    {
      sp, u := Top, t;
      See(p, t);
      SeeLeft(p, t);
      Unfocus(ToRight(p, t), t.right);
      HeadNotNil(ToRight(p, t), t.right);
      RuledBelow(p, t);
      if node.left == nil {
        temp := node;
        subst := node.right;
      } else if node.right == nil {
        temp := node;
        subst := node.left;
      } else {
        temp, sp, u := SubtreeMin(node.right, ToRight(p, t), t.right);
        ghost var q := Join(sp, ToRight(p, t));
        See(q, u);
        SeeLeft(q, u);
        JoinNode(sp, ToRight(p, t));
        var l, r := temp.left, temp.right;
        var s := if l != nil then l else r;
        subst := s;
      }
    }

    // Where the follower of the removed node stands afterwards.
    ghost function Below(node: RbNode, temp: RbNode, p: Path, t: Shape, sp: Path): Path
      requires t.Bin?
    {
      if node == temp then p else Join(sp, InRight(t.color, t.left, temp, p))
    }

    // node has at most one child, which takes its place.
    method UnlinkSelf(node: RbNode, subst: RbNode, ghost p: Path, ghost t: Shape)
      requires Chosen(node, node, subst, p, t, Top, t) && !p.Top? && nil.color == BLACK
      modifies this`repr, repr, subst`parent
      ensures repr == old(repr) - {node} && nil.color == BLACK && node.color == old(node.color)
      ensures Holds(p, Follower(t)) && subst.parent == p.node
    {
      See(p, t);
      BypassAt(node, node, subst, p, t, Follower(t));
    }

    // The node that follows moves up into the place of node.
    method UnlinkOther(node: RbNode, temp: RbNode, subst: RbNode,
                       ghost p: Path, ghost t: Shape, ghost sp: Path, ghost u: Shape)
      requires Chosen(node, temp, subst, p, t, sp, u) && temp != node && nil.color == BLACK
      modifies this`root, this`repr, repr, subst`parent
      ensures repr == old(repr) - {node} && nil.color == BLACK && node.color == old(node.color)
      ensures var q := Join(sp, InRight(t.color, t.left, temp, p));
              Holds(q, Follower(u)) && !q.Top? && subst.parent == q.node
    {
      See(p, t);
      MoveUp(node, temp, subst, p, t, sp, u);
      JoinNode(sp, InRight(t.color, t.left, temp, p));
    }

    // A node outside the tree loses its links.
    method ClearOutside(node: RbNode, ghost q: Path, ghost s: Shape)
      requires Holds(q, s) && node !in repr && node != nil
      modifies node`left, node`right, node`parent
      ensures Holds(q, s) && node.left == node.right == node.parent == null
    {
      ClearNode(node);
    }

    // The relinking: node leaves the tree, temp stands in its place if it is
    // another node.
    method Unlink(node: RbNode, temp: RbNode, subst: RbNode,
                  ghost p: Path, ghost t: Shape, ghost sp: Path, ghost u: Shape)
      requires Chosen(node, temp, subst, p, t, sp, u) && temp != root && nil.color == BLACK
      modifies this`root, this`repr, repr, subst`parent
      ensures repr == old(repr) - {node} && nil.color == BLACK && node.color == old(node.color)
      ensures node.left == node.right == node.parent == null
      ensures var q := Below(node, temp, p, t, sp);
              Holds(q, Follower(u)) && !q.Top? && subst.parent == q.node
    {
      See(p, t);
      if temp == node {
        UnlinkSelf(node, subst, p, t);
      } else {
        UnlinkOther(node, temp, subst, p, t, sp, u);
      }
      ClearOutside(node, Below(node, temp, p, t, sp), Follower(u));
    }

    lemma UnlinkRules(node: RbNode, temp: RbNode, subst: RbNode, p: Path, t: Shape, sp: Path, u: Shape)
      requires Chosen(node, temp, subst, p, t, sp, u)
      ensures var q := Below(node, temp, p, t, sp);
              && (if u.color == BLACK then Short(q, Follower(u)) else Ruled(q, Follower(u)))
              && Whole(q, Follower(u)) == Without(Whole(p, t), node)
              && (node == temp ==> RedBlack(Follower(u)))
    {
      if node == temp {
        SpliceRules(p, t, Follower(u));
        SpliceOrder(p, t, Follower(u));
      } else {
        WholeJoin(sp, ToRight(p, t), u);
        WholeUp(ToRight(p, t), t.right);
        MoveUpRules(sp, p, t, u);
      }
    }

    // The root has at most one child: that child becomes the root, and its parent
    // field goes on naming the removed node.
    method DeleteRoot(node: RbNode, subst: RbNode, ghost t: Shape)
      requires Holds(Top, t) && Ruled(Top, t) && nil.color == BLACK && t.Bin? && t.node == node
      requires OneChild(t, Follower(t)) && subst == Head(Follower(t), nil)
      modifies this`root, this`repr, this`shape, this`anchor, node, subst`color
      ensures Holds(Top, shape) && RedBlack(shape) && IsBlack(shape) && nil.color == BLACK
      ensures Inorder(shape) == Inorder(Follower(t))
      ensures repr == old(repr) - {node}
      ensures node.Links() == Cell(null, null, null, old(node.color))
      ensures anchor == if root == nil then nil else node
    {
      ghost var s := Follower(t);
      See(Top, t);
      SpliceApart(Top, t, s);
      root := subst;
      anchor := if s.Leaf? then nil else node;
      repr := repr - {node};
      forall n | n in repr
        ensures n.Links() == LinksAt(Top, s, anchor, nil, n)
      {
        SpliceLinks(Top, t, s, old(anchor), nil, n);
        Reparent(s, old(anchor), anchor, nil, n);
      }
      BlackenAt(subst, Top, s);
      SpliceRules(Top, t, s);
      ShortBelow(Top, s, BlackHeight(s) + 1);
      BlackenedRules(Top, s);
      shape := Blackened(s);
      HeadNotNil(Top, shape);
      ClearNode(node);
    }

    lemma SeeNonEmpty(q: Path, b: Shape)
      requires Holds(Top, shape) && !q.Top? && Inorder(shape) == Whole(q, b)
      ensures root != nil
    {
      assert |Whole(q, b)| > 0;
      See(Top, shape);
      HeadNotNil(Top, shape);
    }

    // The follower of the removed node stands at the end of q; a black node has
    // gone from there, or the rules still hold.
    ghost predicate Replaced(subst: RbNode, isblack: bool, q: Path, b: Shape)
      reads this, repr, subst
    {
      && Holds(q, b) && !q.Top? && subst == Head(b, nil) && subst.parent == q.node
      && if isblack then Short(q, b) else Ruled(q, b)
    }

    // gone is the removed node, which stays as it is.
    method Rebalance(subst: RbNode, isblack: bool, ghost q: Path, ghost b: Shape, ghost gone: RbNode)
      requires Replaced(subst, isblack, q, b) && nil.color == BLACK
      requires gone !in repr && gone != nil && gone.left == gone.right == gone.parent == null
      modifies this`root, this`shape, repr, nil`color
      ensures Holds(Top, shape) && RedBlack(shape) && IsBlack(shape) && nil.color == BLACK
      ensures Inorder(shape) == Whole(q, b) && root != nil
      ensures gone.left == gone.right == gone.parent == null && gone.color == old(gone.color)
    {
      if isblack {
        DeleteFixup(subst, q, b);
      } else {
        PlugRedBlack(q, b);
        InorderPlug(q, b);
        FocusTop(q, b);
        shape := Plug(q, b);
      }
      SeeNonEmpty(q, b);
    }

    // The relinking, and what it leaves for the fixup to do.
    method TakeOut(node: RbNode, temp: RbNode, subst: RbNode,
                   ghost p: Path, ghost t: Shape, ghost sp: Path, ghost u: Shape) returns (isblack: bool)
      requires Chosen(node, temp, subst, p, t, sp, u) && temp != root && nil.color == BLACK
      modifies this`root, this`repr, repr, nil
      ensures var q := Below(node, temp, p, t, sp);
              Replaced(subst, isblack, q, Follower(u)) && Whole(q, Follower(u)) == Without(Whole(p, t), node)
      ensures repr == old(repr) - {node} && nil.color == BLACK && node in old(repr) && node.color == old(node.color)
      ensures node.left == node.right == node.parent == null
    {
      UnlinkRules(node, temp, subst, p, t, sp, u);
      SeeTemp(node, temp, subst, p, t, sp, u);
      isblack := temp.color == BLACK;
      Unlink(node, temp, subst, p, t, sp, u);
    }

    // The node to take out is not the root.
    method DeleteInner(node: RbNode, temp: RbNode, subst: RbNode,
                       ghost p: Path, ghost t: Shape, ghost sp: Path, ghost u: Shape)
      requires Chosen(node, temp, subst, p, t, sp, u) && temp != root && nil.color == BLACK
      modifies this`root, this`repr, this`shape, repr, nil
      ensures Holds(Top, shape) && RedBlack(shape) && IsBlack(shape) && nil.color == BLACK
      ensures Inorder(shape) == Without(Whole(p, t), node)
      ensures repr == old(repr) - {node} && root != nil
      ensures node.left == node.right == node.parent == null && node.color == old(node.color)
    {
      var isblack := TakeOut(node, temp, subst, p, t, sp, u);
      Rebalance(subst, isblack, Below(node, temp, p, t, sp), Follower(u), node);
    }

    lemma SeeTemp(node: RbNode, temp: RbNode, subst: RbNode, p: Path, t: Shape, sp: Path, u: Shape)
      requires Chosen(node, temp, subst, p, t, sp, u)
      ensures node in repr && temp in repr && temp.color == u.color
      ensures subst == nil || subst in repr
      ensures subst != node
    {
      See(p, t);
      ghost var q := if node == temp then p else Join(sp, ToRight(p, t));
      See(q, u);
      Unfocus(ToLeft(q, u), u.left);
      See(ToLeft(q, u), u.left);
      Unfocus(ToRight(q, u), u.right);
      See(ToRight(q, u), u.right);
      if node != temp {
        JoinNode(sp, ToRight(p, t));
      }
    }

    lemma SeeChildren(p: Path, t: Shape)
      requires Holds(p, t) && t.Bin?
      ensures t.node.left == nil <==> t.left.Leaf?
      ensures t.node.right == nil <==> t.right.Leaf?
      ensures p.Top? <==> t.node == root
    {
      See(p, t);
      SeeLeft(p, t);
      Unfocus(ToRight(p, t), t.right);
      HeadNotNil(ToRight(p, t), t.right);
    }

    // Takes the node, or the one that follows it, out of its place.
    method DeleteNode(node: RbNode)
      requires Holds(Top, shape) && RedBlack(shape) && IsBlack(shape) && nil.color == BLACK && node in repr
      modifies this`root, this`repr, this`shape, this`anchor, repr, nil
      ensures Holds(Top, shape) && RedBlack(shape) && IsBlack(shape) && nil.color == BLACK
      ensures Elements() == Without(old(Elements()), node) && repr == old(repr) - {node}
      ensures node.left == node.right == node.parent == null && node.color == old(node.color)
      ensures anchor == if root == nil then nil
                        else if old(node == root && (node.left == nil || node.right == nil)) then node
                        else old(anchor)
    {
      WholeTop(shape);
      ghost var p, t := FindNode(Top, shape, node);
      SeeChildren(p, t);
      ghost var sp, u;
      var temp, subst;
      temp, subst, sp, u := Choose(node, p, t);
      if temp == root {
        UnlinkRules(node, temp, subst, p, t, sp, u);
        WholeTop(Follower(t));
        DeleteRoot(temp, subst, t);
      } else {
        DeleteInner(node, temp, subst, p, t, sp, u);
      }
    }

    // Removes exactly this node object. Afterwards it is no part of the tree, but
    // the root's parent field may still name it. That field names a black node
    // outside the tree if the tree is empty, a root with at most one child was
    // removed, or the node that the field named was black and is outside.
    method Delete(node: RbNode?)
      requires Sound()
      requires node != null && node != nil ==> node in repr
      modifies this, repr, nil
      ensures Sound()
      ensures node == null || node == nil ==> unchanged(this) && unchanged(repr) && unchanged(nil)
      ensures node != null && node != nil ==>
        && Elements() == Without(old(Elements()), node) && repr == old(repr) - {node}
        && node.left == node.right == node.parent == null && node.color == old(node.color)
        && anchor == (if root == nil then nil
                      else if old(node == root && (node.left == nil || node.right == nil)) then node
                      else old(anchor))
        && (BlackOutside() <==>
              || root == nil
              || old(node == root && (node.left == nil || node.right == nil))
              || old(anchor.color == BLACK && (anchor !in repr || anchor == node)))
      ensures old(Valid()) ==> Valid()
    {
      if node == null || node == nil {
        return;
      }
      size := size - 1;
      See(Top, shape);
      InorderNodes(shape, node);
      WithoutKeepsOrder(Elements(), node);
      DeleteNode(node);
    }
  }
}
