// The delete fixup and the relinking of a deleted node, as values.
module RbRemoval {
  import opened RbShape
  import opened RbRules

  // ------------------------------------------------------ the delete fixup

  // Every path through t is one black node short. t itself may be red below a
  // red node.
  ghost predicate Short(p: Path, t: Shape) {
    && (t.Bin? ==> RedBlack(Painted(t, BLACK)) && (t.color == BLACK || t.color == RED))
    && RedBlackPath(p, BlackHeight(t) + 1)
  }

  ghost function Near(p: Path): Shape
    requires !p.Top? && Sibling(p).Bin?
  {
    if p.InLeft? then Sibling(p).left else Sibling(p).right
  }

  ghost function Far(p: Path): Shape
    requires !p.Top? && Sibling(p).Bin?
  {
    if p.InLeft? then Sibling(p).right else Sibling(p).left
  }

  // A red sibling goes up, so that the new sibling is black.
  ghost function Facing(p: Path): (q: Path)
    requires !p.Top?
    ensures !q.Top?
  {
    var s := Sibling(p);
    if IsBlack(s) then p
    else if p.InLeft? then InLeft(RED, p.node, s.left, InLeft(BLACK, s.node, s.right, p.up))
    else InRight(RED, s.right, p.node, InRight(BLACK, s.left, s.node, p.up))
  }

  lemma FacingRules(p: Path, t: Shape)
    requires !p.Top? && Short(p, t) && IsBlack(t)
    ensures Short(Facing(p), t) && Sibling(Facing(p)).Bin? && Sibling(Facing(p)).color == BLACK
    ensures Sibling(p).Bin?
    ensures if IsBlack(Sibling(p)) then Facing(p) == p else p.color == BLACK && Facing(p).color == RED
    ensures Whole(Facing(p), t) == Whole(p, t)
    ensures Facing(p).InLeft? <==> p.InLeft?
  {
    var s := Sibling(p);
    if !IsBlack(s) {
      assert RedBlack(s);
      if p.InLeft? {
        assert After(Facing(p).up) == [s.node] + Inorder(s.right) + After(p.up);
        assert After(Facing(p)) == After(p);
        assert Before(Facing(p).up) == Before(p.up) && Before(Facing(p)) == Before(p);
      } else {
        assert Before(Facing(p).up) == Before(p.up) + Inorder(s.left) + [s.node];
        assert Before(Facing(p)) == Before(p);
        assert After(Facing(p).up) == After(p.up) && After(Facing(p)) == After(p);
      }
    }
  }

  // Both nephews are black: the sibling turns red and the lack moves up.
  ghost function Passed(q: Path, t: Shape): Shape
    requires !q.Top? && Sibling(q).Bin?
  {
    Up(WithSibling(q, Painted(Sibling(q), RED)), t)
  }

  lemma PassedRules(q: Path, t: Shape)
    requires !q.Top? && Short(q, t) && IsBlack(t)
    requires Sibling(q).Bin? && Sibling(q).color == BLACK && IsBlack(Near(q)) && IsBlack(Far(q))
    ensures Short(q.up, Passed(q, t)) && Passed(q, t).color == q.color
    ensures Whole(q.up, Passed(q, t)) == Whole(q, t)
  {
    var s := Painted(Sibling(q), RED);
    assert RedBlack(t) && RedBlack(s);
    assert Inorder(s) == Inorder(Sibling(q));
    WholeUp(WithSibling(q, s), t);
  }

  // The far nephew is black, the near one red: the near one takes the place of
  // the sibling.
  ghost function Swung(q: Path): (s: Shape)
    requires !q.Top? && Sibling(q).Bin? && (IsBlack(Far(q)) ==> Near(q).Bin?)
    ensures s.Bin?
  {
    var s := Sibling(q);
    if !IsBlack(Far(q)) then s
    else if q.InLeft? then RotRight(Bin(RED, Painted(s.left, BLACK), s.node, s.right))
    else RotLeft(Bin(RED, s.left, s.node, Painted(s.right, BLACK)))
  }

  // With a red far nephew: the sibling s, painted like the node above, is about
  // to go up.
  ghost function Braced(q: Path, s: Shape, t: Shape): (g: Shape)
    requires !q.Top? && s.Bin? && (if q.InLeft? then s.right.Bin? else s.left.Bin?)
    ensures g.Bin?
  {
    if q.InLeft?
    then Bin(BLACK, t, q.node, Bin(q.color, s.left, s.node, Painted(s.right, BLACK)))
    else Bin(BLACK, Bin(q.color, Painted(s.left, BLACK), s.node, s.right), q.node, t)
  }

  ghost function Settled(q: Path, s: Shape, t: Shape): Shape
    requires !q.Top? && s.Bin? && (if q.InLeft? then s.right.Bin? else s.left.Bin?)
  {
    if q.InLeft? then RotLeft(Braced(q, s, t)) else RotRight(Braced(q, s, t))
  }

  lemma SwungRules(q: Path, t: Shape)
    requires !q.Top? && Short(q, t)
    requires Sibling(q).Bin? && Sibling(q).color == BLACK && !(IsBlack(Near(q)) && IsBlack(Far(q)))
    ensures IsBlack(Far(q)) ==> Near(q).Bin? && Near(q).color == RED
    ensures var s := Swung(q);
            && RedBlack(s) && s.color == BLACK && BlackHeight(s) == BlackHeight(Sibling(q))
            && (if q.InLeft? then s.right.Bin? && s.right.color == RED else s.left.Bin? && s.left.color == RED)
            && Inorder(s) == Inorder(Sibling(q))
  {
    var s := Sibling(q);
    assert RedBlack(s) && RedBlack(s.left) && RedBlack(s.right);
    if IsBlack(Far(q)) {
      if q.InLeft? {
        var u := Bin(RED, Painted(s.left, BLACK), s.node, s.right);
        assert Inorder(u) == Inorder(s) by { assert Inorder(u.left) == Inorder(s.left); }
        RotRightOrder(u);
        assert Swung(q) == Bin(BLACK, s.left.left, s.left.node, Bin(RED, s.left.right, s.node, s.right));
      } else {
        var u := Bin(RED, s.left, s.node, Painted(s.right, BLACK));
        assert Inorder(u) == Inorder(s) by { assert Inorder(u.right) == Inorder(s.right); }
        RotLeftOrder(u);
        assert Swung(q) == Bin(BLACK, Bin(RED, s.left, s.node, s.right.left), s.right.node, s.right.right);
      }
    }
  }

  lemma SettledOrder(q: Path, s: Shape, t: Shape)
    requires !q.Top? && s.Bin? && (if q.InLeft? then s.right.Bin? else s.left.Bin?)
    requires Inorder(s) == Inorder(Sibling(q))
    ensures Inorder(Settled(q, s, t)) == Inorder(Up(q, t))
  {
    var g := Braced(q, s, t);
    if q.InLeft? {
      var s' := Bin(q.color, s.left, s.node, Painted(s.right, BLACK));
      assert Inorder(s') == Inorder(s) by { assert Inorder(s'.right) == Inorder(s.right); }
      assert Inorder(g) == Inorder(t) + [q.node] + Inorder(s');
      RotLeftOrder(g);
    } else {
      var s' := Bin(q.color, Painted(s.left, BLACK), s.node, s.right);
      assert Inorder(s') == Inorder(s) by { assert Inorder(s'.left) == Inorder(s.left); }
      assert Inorder(g) == Inorder(s') + [q.node] + Inorder(t);
      RotRightOrder(g);
    }
  }

  lemma SettledColors(q: Path, s: Shape, t: Shape)
    requires !q.Top? && Short(q, t) && IsBlack(t)
    requires RedBlack(s) && s.Bin? && s.color == BLACK && BlackHeight(s) == BlackHeight(Sibling(q))
    requires if q.InLeft? then s.right.Bin? && s.right.color == RED else s.left.Bin? && s.left.color == RED
    ensures Ruled(q.up, Settled(q, s, t)) || (q.up.Top? && RedBlack(Settled(q, s, t)))
  {
    SettledTree(q, s, t, BlackHeight(t));
  }

  lemma SettledTree(q: Path, s: Shape, t: Shape, h: nat)
    requires !q.Top? && RedBlack(t) && IsBlack(t) && BlackHeight(t) == h && q.color in {RED, BLACK}
    requires RedBlack(s) && s.Bin? && s.color == BLACK && BlackHeight(s) == h + 1
    requires if q.InLeft? then s.right.Bin? && s.right.color == RED else s.left.Bin? && s.left.color == RED
    ensures var top := Settled(q, s, t);
            top.Bin? && RedBlack(top) && top.color == q.color && BlackHeight(top) == h + 1 + Unit(q.color)
  {
    var top := Settled(q, s, t);
    if q.InLeft? {
      var low := Bin(BLACK, t, q.node, s.left);
      assert RedBlack(low) && RedBlack(Painted(s.right, BLACK));
      assert top == Bin(q.color, low, s.node, Painted(s.right, BLACK));
    } else {
      var low := Bin(BLACK, s.right, q.node, t);
      assert RedBlack(low) && RedBlack(Painted(s.left, BLACK));
      assert top == Bin(q.color, Painted(s.left, BLACK), s.node, low);
    }
  }

  lemma SettledRules(q: Path, s: Shape, t: Shape)
    requires !q.Top? && Short(q, t) && IsBlack(t)
    requires RedBlack(s) && s.Bin? && s.color == BLACK && BlackHeight(s) == BlackHeight(Sibling(q))
    requires if q.InLeft? then s.right.Bin? && s.right.color == RED else s.left.Bin? && s.left.color == RED
    requires Inorder(s) == Inorder(Sibling(q))
    ensures Short(Top, Plug(q.up, Settled(q, s, t)))
    ensures Whole(q.up, Settled(q, s, t)) == Whole(q, t)
  {
    var top := Settled(q, s, t);
    SettledOrder(q, s, t);
    SettledColors(q, s, t);
    WholeUp(q, t);
    PlugRedBlack(q.up, top);
    PlugBin(q.up, top);
    ShortBelow(Top, Plug(q.up, top), BlackHeight(Plug(q.up, top)) + 1);
  }

  // The end of the loop: a red node, or the root, takes the lack away.
  lemma BlackenedRules(p: Path, t: Shape)
    requires Short(p, t) && (p.Top? || !IsBlack(t))
    ensures RedBlack(Plug(p, Blackened(t))) && IsBlack(Plug(p, Blackened(t)))
    ensures Inorder(Plug(p, Blackened(t))) == Whole(p, t)
  {
    var u := Blackened(t);
    assert RedBlack(u) && Inorder(u) == Inorder(t);
    InorderPlug(p, u);
    if !p.Top? {
      PlugRedBlack(p, u);
    }
  }

  // ------------------------------------------------- relinking, node by node

  // u has at most one child, s.
  ghost predicate OneChild(u: Shape, s: Shape) {
    u.Bin? && ((u.left == Leaf && s == u.right) || (u.right == Leaf && s == u.left))
  }

  // The child that follows u when u goes.
  ghost function Follower(u: Shape): Shape
    requires u.Bin?
  {
    if u.left == Leaf then u.right else u.left
  }

  // s takes the place of u.
  lemma SpliceLinks(q: Path, u: Shape, s: Shape, anchor: RbNode, nil: RbNode, n: RbNode)
    requires AllApart(q, u) && OneChild(u, s) && nil !in PathNodes(q) + Nodes(u)
    requires n in PathNodes(q) + Nodes(s)
    ensures AllApart(q, s) && Nodes(s) == Nodes(u) - {u.node}
    ensures var m := LinksAt(q, u, anchor, nil, n);
            LinksAt(q, s, anchor, nil, n) ==
            if n == Head(s, nil) then m.(parent := Parent(q, anchor)) else Redirect(q, Head(s, nil), n, m)
  {
    if n in Nodes(s) {
      assert n != u.node;
      Reparent(s, u.node, Parent(q, anchor), nil, n);
    } else {
      Refill(q, u.node, Head(s, nil), anchor, nil, n);
    }
  }

  lemma SpliceApart(q: Path, u: Shape, s: Shape)
    requires AllApart(q, u) && OneChild(u, s)
    ensures AllApart(q, s) && Nodes(s) == Nodes(u) - {u.node} && u.node !in PathNodes(q)
  {
  }

  ghost function WithNode(t: Shape, y: RbNode): (u: Shape)
    requires t.Bin?
    ensures u.Bin?
  {
    Bin(t.color, t.left, y, t.right)
  }

  // The node object at the head of t is exchanged for y.
  lemma ExchangeLinks(p: Path, t: Shape, y: RbNode, anchor: RbNode, nil: RbNode, n: RbNode)
    requires t.Bin? && AllApart(p, t) && y !in PathNodes(p) + Nodes(t)
    requires nil !in PathNodes(p) + Nodes(t) && nil != y
    requires n in PathNodes(p) + Nodes(t) - {t.node} + {y}
    ensures var m := LinksAt(p, t, anchor, nil, n);
            LinksAt(p, WithNode(t, y), anchor, nil, n) ==
            if n == y then Cell(Parent(p, anchor), Head(t.left, nil), Head(t.right, nil), t.color)
            else if n == Head(t.left, nil) || n == Head(t.right, nil) then m.(parent := y)
            else Redirect(p, y, n, m)
  {
    ExchangeApart(p, t, y);
    if n == y {
      LinksAtHead(p, WithNode(t, y), anchor, nil);
    } else if n in PathNodes(p) {
      Refill(p, t.node, y, anchor, nil, n);
      assert n !in Nodes(WithNode(t, y));
    } else if n in Nodes(t.left) {
      Reparent(t.left, t.node, y, nil, n);
    } else {
      Reparent(t.right, t.node, y, nil, n);
    }
  }

  lemma ExchangeApart(p: Path, t: Shape, y: RbNode)
    requires t.Bin? && AllApart(p, t) && y !in PathNodes(p) + Nodes(t)
    ensures AllApart(p, WithNode(t, y))
    ensures Nodes(WithNode(t, y)) == Nodes(t) - {t.node} + {y}
    ensures t.node !in PathNodes(p)
  {
  }

  // ------------------------------------------------------ the left spine

  // Left turns only.
  ghost predicate LeftTurns(sp: Path) {
    sp.Top? || (sp.InLeft? && LeftTurns(sp.up))
  }

  ghost function Join(sp: Path, base: Path): Path {
    match sp
    case Top => base
    case InLeft(c, n, r, up) => InLeft(c, n, r, Join(up, base))
    case InRight(c, l, n, up) => InRight(c, l, n, Join(up, base))
  }

  // The base of a joined path stays below every other node of it.
  lemma {:induction false} JoinNode(sp: Path, base: Path)
    requires !base.Top? && PathApart(Join(sp, base))
    ensures base.node in PathNodes(Join(sp, base))
    ensures !Join(sp, base).Top?
    ensures Join(sp, base).node == base.node <==> sp.Top?
    ensures Join(sp, base).node == if sp.Top? then base.node else sp.node
  {
    if !sp.Top? {
      JoinNode(sp.up, base);
    }
  }

  lemma {:induction false} JoinOrder(sp: Path, base: Path, other: Path)
    requires LeftTurns(sp) && After(base) == After(other)
    ensures Before(Join(sp, base)) == Before(base)
    ensures After(Join(sp, base)) == After(Join(sp, other))
  {
    if sp.InLeft? {
      JoinOrder(sp.up, base, other);
    }
  }

  lemma {:induction false} WholeJoin(sp: Path, base: Path, t: Shape)
    ensures Whole(Join(sp, base), t) == Whole(base, Plug(sp, t))
  {
    if !sp.Top? {
      WholeUp(Join(sp, base), t);
      WholeJoin(sp.up, base, Up(sp, t));
    }
  }

  // The rules read colours only.
  lemma {:induction false} JoinRules(sp: Path, c: int, l: Shape, z: RbNode, y: RbNode, p: Path, h: nat)
    ensures RedBlackPath(Join(sp, InRight(c, l, z, p)), h) <==> RedBlackPath(Join(sp, InRight(c, l, y, p)), h)
    ensures TakesRed(Join(sp, InRight(c, l, z, p))) <==> TakesRed(Join(sp, InRight(c, l, y, p)))
    ensures !Join(sp, InRight(c, l, z, p)).Top? && !Join(sp, InRight(c, l, y, p)).Top?
  {
    if !sp.Top? {
      JoinRules(sp.up, c, l, z, y, p, h + Unit(sp.color));
    }
  }

  // Removing z = t.node and moving the first node of its right side up.
  lemma MoveUpOrder(sp: Path, p: Path, t: Shape, u: Shape)
    requires LeftTurns(sp) && t.Bin? && u.Bin? && u.left == Leaf
    requires t.node !in Before(p) + Inorder(t.left)
    ensures Whole(Join(sp, InRight(t.color, t.left, u.node, p)), u.right)
         == Without(Whole(Join(sp, InRight(t.color, t.left, t.node, p)), u), t.node)
  {
    var a, b := Before(p) + Inorder(t.left), InRight(t.color, t.left, t.node, p);
    var b' := InRight(t.color, t.left, u.node, p);
    JoinOrder(sp, b, b');
    JoinOrder(sp, b', b);
    assert Inorder(u) == [u.node] + Inorder(u.right);
    assert Before(b) == a + [t.node] && Before(b') == a + [u.node];
    PullOut(a, t.node, u.node, Inorder(u.right), After(Join(sp, b)));
  }

  lemma PullOut(a: seq<RbNode>, z: RbNode, y: RbNode, r: seq<RbNode>, c: seq<RbNode>)
    requires z !in a
    ensures Without((a + [z]) + ([y] + r) + c, z) == (a + [y]) + r + c
  {
    var rest := ([y] + r) + c;
    assert (a + [z]) + ([y] + r) + c == a + [z] + rest;
    assert (a + [y]) + r + c == a + rest;
    WithoutSplits(a, z, rest);
  }

  lemma ShortBelow(q: Path, s: Shape, h: nat)
    requires RedBlack(s) && RedBlackPath(q, h) && h == BlackHeight(s) + 1
    ensures Short(q, s)
  {
    if s.Bin? {
      assert RedBlack(Painted(s, BLACK));
    }
  }

  // Taking out a node with at most one child.
  lemma SpliceRules(q: Path, u: Shape, s: Shape)
    requires OneChild(u, s) && Ruled(q, u)
    ensures if u.color == BLACK then Short(q, s) else Ruled(q, s)
    ensures RedBlack(s)
  {
    assert RedBlack(s);
    if u.color == BLACK {
      ShortBelow(q, s, BlackHeight(u));
    }
  }

  lemma SpliceOrder(q: Path, u: Shape, s: Shape)
    requires OneChild(u, s) && AllApart(q, u)
    ensures Whole(q, s) == Without(Whole(q, u), u.node)
  {
    var a, b := Before(q) + Inorder(u.left), Inorder(u.right) + After(q);
    NotBefore(q, u);
    WithoutSplits(a, u.node, b);
    SpliceWhole(Before(q), Inorder(u.left), u.node, Inorder(u.right), After(q));
    assert Inorder(s) == Inorder(u.left) + Inorder(u.right);
  }

  lemma SpliceWhole(a: seq<RbNode>, l: seq<RbNode>, n: RbNode, r: seq<RbNode>, b: seq<RbNode>)
    ensures a + (l + [n] + r) + b == (a + l) + [n] + (r + b)
    ensures a + (l + r) + b == (a + l) + (r + b)
  {
  }

  lemma NotBefore(q: Path, u: Shape)
    requires u.Bin? && AllApart(q, u)
    ensures u.node !in Before(q) + Inorder(u.left)
  {
    InorderNodes(u.left, u.node);
    if u.node in Before(q) {
      BesideNodes(q, u.node);
    }
  }

  // Taking out a node with two children.
  lemma MoveUpRules(sp: Path, p: Path, t: Shape, u: Shape)
    requires LeftTurns(sp) && t.Bin? && u.Bin? && u.left == Leaf && AllApart(p, t)
    requires Ruled(Join(sp, ToRight(p, t)), u) && Whole(Join(sp, ToRight(p, t)), u) == Whole(p, t)
    ensures var q := Join(sp, InRight(t.color, t.left, u.node, p));
            && !q.Top?
            && (if u.color == BLACK then Short(q, u.right) else Ruled(q, u.right))
            && Whole(q, u.right) == Without(Whole(p, t), t.node)
  {
    NotBefore(p, t);
    MoveUpOrder(sp, p, t, u);
    JoinRules(sp, t.color, t.left, t.node, u.node, p, BlackHeight(u));
    SpliceRules(Join(sp, InRight(t.color, t.left, u.node, p)), u, u.right);
  }
}
