// The shape of a red-black tree as a value: trees, the path from a subtree up
// to the root, and the links that a shape asks of the memory.
module RbShape {
  import opened Servers

  const RED := 0
  const BLACK := 1

  // A tree node as the C program allocates it.
  class RbNode {
    const key: int
    const data: VNode
    var parent: RbNode?
    var left: RbNode?
    var right: RbNode?
    var color: int

    constructor (key: int, data: VNode)
      ensures this.key == key && this.data == data
    {
      this.key := key;
      this.data := data;
    }

    // The four link fields as one value.
    ghost function Links(): Cell
      reads this
    {
      Cell(parent, left, right, color)
    }
  }

  datatype Cell = Cell(parent: RbNode?, left: RbNode?, right: RbNode?, color: int)

  datatype Shape = Leaf | Bin(color: int, left: Shape, node: RbNode, right: Shape)

  // The way from a hole up to the root. InLeft means that the hole is the left
  // child of the node.
  datatype Path =
    | Top
    | InLeft(color: int, node: RbNode, right: Shape, up: Path)
    | InRight(color: int, left: Shape, node: RbNode, up: Path)

  // ---------------------------------------------------------------- nodes

  ghost function Nodes(t: Shape): set<RbNode> {
    match t
    case Leaf => {}
    case Bin(_, l, n, r) => Nodes(l) + Nodes(r) + {n}
  }

  ghost function PathNodes(p: Path): set<RbNode> {
    match p
    case Top => {}
    case InLeft(_, n, r, up) => PathNodes(up) + Nodes(r) + {n}
    case InRight(_, l, n, up) => PathNodes(up) + Nodes(l) + {n}
  }

  // No node object occurs twice.
  ghost predicate Apart(t: Shape) {
    match t
    case Leaf => true
    case Bin(_, l, n, r) =>
      Apart(l) && Apart(r) && n !in Nodes(l) && n !in Nodes(r) && Nodes(l) !! Nodes(r)
  }

  ghost predicate PathApart(p: Path) {
    match p
    case Top => true
    case InLeft(_, n, t, up) =>
      PathApart(up) && Apart(t) && n !in PathNodes(up) && n !in Nodes(t) && PathNodes(up) !! Nodes(t)
    case InRight(_, t, n, up) =>
      PathApart(up) && Apart(t) && n !in PathNodes(up) && n !in Nodes(t) && PathNodes(up) !! Nodes(t)
  }

  // ---------------------------------------------------------------- links

  // The node a pointer to t holds; nil is the sentinel.
  ghost function Head(t: Shape, nil: RbNode): RbNode {
    if t.Leaf? then nil else t.node
  }

  // The parent of the hole; anchor is what the root's parent field holds.
  ghost function Parent(p: Path, anchor: RbNode): RbNode {
    if p.Top? then anchor else p.node
  }

  // The node at the root when h fills the hole.
  ghost function Root(p: Path, h: RbNode): RbNode {
    match p
    case Top => h
    case InLeft(_, n, _, up) => Root(up, n)
    case InRight(_, _, n, up) => Root(up, n)
  }

  // The link fields that node x must have when t hangs below parent.
  ghost function LinksIn(t: Shape, parent: RbNode, nil: RbNode, x: RbNode): Cell {
    match t
    case Leaf => Cell(null, null, null, BLACK)
    case Bin(c, l, n, r) =>
      if x == n then Cell(parent, Head(l, nil), Head(r, nil), c)
      else if x in Nodes(l) then LinksIn(l, n, nil, x)
      else LinksIn(r, n, nil, x)
  }

  ghost function LinksOn(p: Path, h: RbNode, anchor: RbNode, nil: RbNode, x: RbNode): Cell {
    match p
    case Top => Cell(null, null, null, BLACK)
    case InLeft(c, n, r, up) =>
      if x == n then Cell(Parent(up, anchor), h, Head(r, nil), c)
      else if x in Nodes(r) then LinksIn(r, n, nil, x)
      else LinksOn(up, n, anchor, nil, x)
    case InRight(c, l, n, up) =>
      if x == n then Cell(Parent(up, anchor), Head(l, nil), h, c)
      else if x in Nodes(l) then LinksIn(l, n, nil, x)
      else LinksOn(up, n, anchor, nil, x)
  }

  // The links of node x in the whole tree, seen from a subtree t at the end of p.
  ghost function LinksAt(p: Path, t: Shape, anchor: RbNode, nil: RbNode, x: RbNode): Cell {
    if x in Nodes(t) then LinksIn(t, Parent(p, anchor), nil, x)
    else LinksOn(p, Head(t, nil), anchor, nil, x)
  }

  ghost predicate AllApart(p: Path, t: Shape) {
    PathApart(p) && Apart(t) && PathNodes(p) !! Nodes(t)
  }

  // Moving the focus one step up or down does not change the links.
  ghost function Up(p: Path, t: Shape): (u: Shape)
    requires !p.Top?
    ensures u.Bin? && u.node == p.node && u.color == p.color
  {
    match p
    case InLeft(c, n, r, _) => Bin(c, t, n, r)
    case InRight(c, l, n, _) => Bin(c, l, n, t)
  }

  lemma FocusApart(p: Path, t: Shape)
    requires !p.Top?
    ensures AllApart(p, t) <==> AllApart(p.up, Up(p, t))
    ensures PathNodes(p) + Nodes(t) == PathNodes(p.up) + Nodes(Up(p, t))
  {
  }

  lemma FocusUp(p: Path, t: Shape, anchor: RbNode, nil: RbNode, x: RbNode)
    requires !p.Top?
    requires AllApart(p, t)
    ensures LinksAt(p, t, anchor, nil, x) == LinksAt(p.up, Up(p, t), anchor, nil, x)
  {
  }

  lemma RootOnPath(p: Path, h: RbNode)
    ensures p.Top? <==> Root(p, h) !in PathNodes(p)
    ensures p.Top? ==> Root(p, h) == h
  {
  }

  // What the memory must hold at the head of t, and just above it.
  lemma LinksAtHead(p: Path, t: Shape, anchor: RbNode, nil: RbNode)
    requires t.Bin? && AllApart(p, t)
    ensures LinksAt(p, t, anchor, nil, t.node) ==
            Cell(Parent(p, anchor), Head(t.left, nil), Head(t.right, nil), t.color)
    ensures t.node in Nodes(t)
  {
  }

  lemma LinksAbove(p: Path, t: Shape, anchor: RbNode, nil: RbNode)
    requires !p.Top? && AllApart(p, t)
    ensures p.node in PathNodes(p)
    ensures LinksAt(p, t, anchor, nil, p.node) ==
            if p.InLeft? then Cell(Parent(p.up, anchor), Head(t, nil), Head(p.right, nil), p.color)
            else Cell(Parent(p.up, anchor), Head(p.left, nil), Head(t, nil), p.color)
    ensures p.InLeft? ==> p.right.Bin? ==> p.right.node in PathNodes(p) && p.right.node !in Nodes(t)
    ensures p.InRight? ==> p.left.Bin? ==> p.left.node in PathNodes(p) && p.left.node !in Nodes(t)
  {
  }

  ghost function Length(p: Path): nat {
    if p.Top? then 0 else 1 + Length(p.up)
  }

  ghost function Sibling(p: Path): Shape
    requires !p.Top?
  {
    if p.InLeft? then p.right else p.left
  }

  ghost function WithSibling(p: Path, s: Shape): Path
    requires !p.Top?
  {
    if p.InLeft? then p.(right := s) else p.(left := s)
  }

  // The path to the sibling, when t fills the hole at the end of p.
  ghost function Beside(p: Path, t: Shape): Path
    requires !p.Top?
  {
    match p
    case InLeft(c, n, _, up) => InRight(c, t, n, up)
    case InRight(c, _, n, up) => InLeft(c, n, t, up)
  }

  // Focus on a child of t.
  ghost function ToLeft(p: Path, t: Shape): Path
    requires t.Bin?
  {
    InLeft(t.color, t.node, t.right, p)
  }

  ghost function ToRight(p: Path, t: Shape): Path
    requires t.Bin?
  {
    InRight(t.color, t.left, t.node, p)
  }

  ghost function Painted(t: Shape, color: int): (u: Shape)
    requires t.Bin?
    ensures u.Bin? && u.node == t.node && u.color == color && u.left == t.left && u.right == t.right
  {
    Bin(color, t.left, t.node, t.right)
  }

  ghost function Blackened(t: Shape): Shape {
    if t.Leaf? then t else Painted(t, BLACK)
  }

  // ------------------------------------------------------------- rotations

  ghost function RotLeft(t: Shape): Shape
    requires t.Bin? && t.right.Bin?
  {
    Bin(t.right.color, Bin(t.color, t.left, t.node, t.right.left), t.right.node, t.right.right)
  }

  ghost function RotRight(t: Shape): Shape
    requires t.Bin? && t.left.Bin?
  {
    Bin(t.left.color, t.left.left, t.left.node, Bin(t.color, t.left.right, t.node, t.right))
  }

  // How a node's links change when the hole at the end of p gets the head h.
  ghost function Redirect(p: Path, h: RbNode, n: RbNode, c: Cell): Cell {
    match p
    case Top => c
    case InLeft(_, x, _, _) => if n == x then c.(left := h) else c
    case InRight(_, _, x, _) => if n == x then c.(right := h) else c
  }

  lemma RotLeftApart(p: Path, t: Shape)
    requires t.Bin? && t.right.Bin? && AllApart(p, t)
    ensures AllApart(p, RotLeft(t))
    ensures Nodes(RotLeft(t)) == Nodes(t)
  {
    var a, x, b, y, g := t.left, t.node, t.right.left, t.right.node, t.right.right;
    assert t == Bin(t.color, a, x, t.right);
    assert t.right == Bin(t.right.color, b, y, g);
    assert RotLeft(t) == Bin(t.right.color, Bin(t.color, a, x, b), y, g);
    assert Apart(t.right) && Apart(b) && Apart(g);
  }

  // Only the head of a subtree knows its parent, only the node above a hole
  // knows its head.
  lemma Reparent(t: Shape, p: RbNode, q: RbNode, nil: RbNode, n: RbNode)
    requires n in Nodes(t)
    ensures LinksIn(t, q, nil, n) ==
            if n == t.node then LinksIn(t, p, nil, n).(parent := q) else LinksIn(t, p, nil, n)
  {
  }

  lemma Refill(p: Path, h: RbNode, k: RbNode, anchor: RbNode, nil: RbNode, n: RbNode)
    ensures LinksOn(p, k, anchor, nil, n) == Redirect(p, k, n, LinksOn(p, h, anchor, nil, n))
  {
  }

  lemma RotLeftLinks(p: Path, t: Shape, anchor: RbNode, nil: RbNode, n: RbNode)
    requires t.Bin? && t.right.Bin? && AllApart(p, t)
    requires nil !in PathNodes(p) && nil !in Nodes(t)
    requires n in PathNodes(p) + Nodes(t)
    ensures var m, m' := LinksAt(p, t, anchor, nil, n), LinksAt(p, RotLeft(t), anchor, nil, n);
            var x, y, b := t.node, t.right.node, Head(t.right.left, nil);
            m' == (if n == x then m.(parent := y, right := b)
                   else if n == y then m.(parent := Parent(p, anchor), left := x)
                   else if n == b then m.(parent := x)
                   else Redirect(p, y, n, m))
  {
    var a, x, b, y, g := t.left, t.node, t.right.left, t.right.node, t.right.right;
    assert t == Bin(t.color, a, x, t.right);
    assert t.right == Bin(t.right.color, b, y, g);
    var low := Bin(t.color, a, x, b);
    assert RotLeft(t) == Bin(t.right.color, low, y, g);
    RotLeftApart(p, t);
    assert n != x ==> n in Nodes(t.right) ==> LinksAt(p, t, anchor, nil, n) == LinksIn(t.right, x, nil, n);
    assert n != y ==> n in Nodes(low) ==> LinksAt(p, RotLeft(t), anchor, nil, n) == LinksIn(low, y, nil, n);
    if n in PathNodes(p) {
      assert n !in Nodes(t) && n !in Nodes(RotLeft(t));
      Refill(p, x, y, anchor, nil, n);
      assert b.Bin? ==> b.node in Nodes(t.right);
      assert n != Head(b, nil);
    } else if n in Nodes(b) {
      Reparent(b, y, x, nil, n);
      assert n in Nodes(t.right);
    }
  }

  lemma RotRightApart(p: Path, t: Shape)
    requires t.Bin? && t.left.Bin? && AllApart(p, t)
    ensures AllApart(p, RotRight(t))
    ensures Nodes(RotRight(t)) == Nodes(t)
    ensures RotLeft(RotRight(t)) == t
  {
    var a, x, b, y, g := t.left.left, t.left.node, t.left.right, t.node, t.right;
    assert t == Bin(t.color, t.left, y, g);
    assert t.left == Bin(t.left.color, a, x, b);
    assert RotRight(t) == Bin(t.left.color, a, x, Bin(t.color, b, y, g));
    assert Apart(t.left) && Apart(a) && Apart(b);
  }

  lemma RotRightLinks(p: Path, t: Shape, anchor: RbNode, nil: RbNode, n: RbNode)
    requires t.Bin? && t.left.Bin? && AllApart(p, t)
    requires nil !in PathNodes(p) && nil !in Nodes(t)
    requires n in PathNodes(p) + Nodes(t)
    ensures var m, m' := LinksAt(p, t, anchor, nil, n), LinksAt(p, RotRight(t), anchor, nil, n);
            var y, x, b := t.node, t.left.node, Head(t.left.right, nil);
            m' == (if n == y then m.(parent := x, left := b)
                   else if n == x then m.(parent := Parent(p, anchor), right := y)
                   else if n == b then m.(parent := y)
                   else Redirect(p, x, n, m))
  {
    var a, x, b, y, g := t.left.left, t.left.node, t.left.right, t.node, t.right;
    assert t == Bin(t.color, t.left, y, g);
    assert t.left == Bin(t.left.color, a, x, b);
    var low := Bin(t.color, b, y, g);
    assert RotRight(t) == Bin(t.left.color, a, x, low);
    RotRightApart(p, t);
    assert n != y ==> n in Nodes(t.left) ==> LinksAt(p, t, anchor, nil, n) == LinksIn(t.left, y, nil, n);
    assert n != x ==> n in Nodes(low) ==> LinksAt(p, RotRight(t), anchor, nil, n) == LinksIn(low, x, nil, n);
    if n in PathNodes(p) {
      assert n !in Nodes(t) && n !in Nodes(RotRight(t));
      Refill(p, y, x, anchor, nil, n);
      assert b.Bin? ==> b.node in Nodes(t.left);
      assert n != Head(b, nil);
    } else if n in Nodes(b) {
      Reparent(b, x, y, nil, n);
      assert n in Nodes(t.left);
    }
  }

  // ------------------------------------------------------------- painting

  lemma PaintApart(p: Path, t: Shape, color: int)
    requires t.Bin? && AllApart(p, t)
    ensures AllApart(p, t.(color := color)) && Nodes(t.(color := color)) == Nodes(t)
  {
  }

  lemma PaintLinks(p: Path, t: Shape, color: int, anchor: RbNode, nil: RbNode, n: RbNode)
    requires t.Bin? && AllApart(p, t)
    ensures LinksAt(p, t.(color := color), anchor, nil, n) ==
            if n == t.node then LinksAt(p, t, anchor, nil, n).(color := color) else LinksAt(p, t, anchor, nil, n)
  {
    PaintApart(p, t, color);
  }

  // ------------------------------------------------------------- attaching

  lemma AttachLinks(p: Path, t: Shape, u: Shape, anchor: RbNode, nil: RbNode, n: RbNode)
    requires t == Leaf && u.Bin? && u.left == u.right == Leaf && u.node !in PathNodes(p)
    ensures LinksAt(p, u, anchor, nil, n) ==
            if n == u.node then Cell(Parent(p, anchor), nil, nil, u.color)
            else Redirect(p, u.node, n, LinksAt(p, t, anchor, nil, n))
  {
    if n != u.node {
      Refill(p, nil, u.node, anchor, nil, n);
    }
  }
}
