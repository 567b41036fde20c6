// What a shape means: its nodes from left to right, and the red-black rules.
module RbRules {
  import opened RbShape

  // ----------------------------------------------------------------- order

  ghost function Inorder(t: Shape): seq<RbNode> {
    if t.Leaf? then [] else Inorder(t.left) + [t.node] + Inorder(t.right)
  }

  // The nodes left and right of the hole at the end of p.
  ghost function Before(p: Path): seq<RbNode> {
    match p
    case Top => []
    case InLeft(_, _, _, up) => Before(up)
    case InRight(_, l, n, up) => Before(up) + Inorder(l) + [n]
  }

  ghost function After(p: Path): seq<RbNode> {
    match p
    case Top => []
    case InLeft(_, n, r, up) => [n] + Inorder(r) + After(up)
    case InRight(_, _, _, up) => After(up)
  }

  ghost function Whole(p: Path, t: Shape): seq<RbNode> {
    Before(p) + Inorder(t) + After(p)
  }

  lemma WholeTop(t: Shape)
    ensures Whole(Top, t) == Inorder(t)
  {
  }

  // The whole tree with t in the hole at the end of p.
  ghost function Plug(p: Path, t: Shape): Shape {
    if p.Top? then t else Plug(p.up, Up(p, t))
  }

  lemma WholeUp(p: Path, t: Shape)
    requires !p.Top?
    ensures Whole(p.up, Up(p, t)) == Whole(p, t)
  {
    var u := Up(p, t);
    if p.InLeft? {
      assert Inorder(u) == Inorder(t) + [p.node] + Inorder(p.right);
    } else {
      assert Inorder(u) == Inorder(p.left) + [p.node] + Inorder(t);
    }
  }

  lemma {:induction false} InorderPlug(p: Path, t: Shape)
    ensures Inorder(Plug(p, t)) == Whole(p, t)
    decreases p
  {
    if p.Top? {
    } else {
      WholeUp(p, t);
      InorderPlug(p.up, Up(p, t));
    }
  }

  lemma {:induction false} PlugBin(p: Path, t: Shape)
    requires t.Bin?
    ensures Plug(p, t).Bin?
    decreases p
  {
    if !p.Top? {
      PlugBin(p.up, Up(p, t));
    }
  }

  lemma RotLeftOrder(t: Shape)
    requires t.Bin? && t.right.Bin?
    ensures Inorder(RotLeft(t)) == Inorder(t)
  {
    var a, b, g := Inorder(t.left), Inorder(t.right.left), Inorder(t.right.right);
    var low := Bin(t.color, t.left, t.node, t.right.left);
    assert Inorder(low) == a + [t.node] + b;
    assert Inorder(t.right) == b + [t.right.node] + g;
    assert RotLeft(t).left == low;
    assert a + [t.node] + b + [t.right.node] + g == a + [t.node] + (b + [t.right.node] + g);
  }

  lemma RotRightOrder(t: Shape)
    requires t.Bin? && t.left.Bin?
    ensures Inorder(RotRight(t)) == Inorder(t)
  {
    var u := RotRight(t);
    assert t == Bin(t.color, Bin(t.left.color, t.left.left, t.left.node, t.left.right), t.node, t.right);
    assert RotLeft(u) == t;
    RotLeftOrder(u);
  }

  lemma {:induction false} InorderNodes(t: Shape, n: RbNode)
    ensures n in Inorder(t) <==> n in Nodes(t)
  {
    if t.Bin? {
      InorderNodes(t.left, n);
      InorderNodes(t.right, n);
    }
  }

  // Ascending keys, equal keys allowed.
  ghost predicate Ascending(s: seq<RbNode>) {
    forall i, j | 0 <= i < j < |s| :: s[i].key <= s[j].key
  }

  // s with n put behind every node whose key is not greater.
  ghost function InsertByKey(s: seq<RbNode>, n: RbNode): seq<RbNode> {
    if s == [] then [n]
    else if n.key < s[0].key then [n] + s
    else [s[0]] + InsertByKey(s[1..], n)
  }

  // s without its first occurrence of n.
  ghost function Without(s: seq<RbNode>, n: RbNode): seq<RbNode> {
    if s == [] then []
    else if s[0] == n then s[1..]
    else [s[0]] + Without(s[1..], n)
  }

  ghost predicate AllLeq(s: seq<RbNode>, key: int) {
    forall i | 0 <= i < |s| :: s[i].key <= key
  }

  ghost predicate AllGreater(s: seq<RbNode>, key: int) {
    forall i | 0 <= i < |s| :: s[i].key > key
  }

  lemma {:induction false} InsertSplits(a: seq<RbNode>, n: RbNode, b: seq<RbNode>)
    requires AllLeq(a, n.key) && AllGreater(b, n.key)
    ensures InsertByKey(a + b, n) == a + [n] + b
  {
    if a == [] {
      assert a + b == b;
    } else {
      var s := a + b;
      InsertSplits(a[1..], n, b);
      assert s[0] == a[0] && s[1..] == a[1..] + b;
      assert InsertByKey(s, n) == [a[0]] + InsertByKey(s[1..], n);
      assert [a[0]] + (a[1..] + [n] + b) == a + [n] + b;
    }
  }

  lemma {:induction false} InsertIn(s: seq<RbNode>, n: RbNode)
    ensures |InsertByKey(s, n)| == |s| + 1
    ensures forall m | m in InsertByKey(s, n) :: m == n || m in s
  {
    if s != [] {
      InsertIn(s[1..], n);
    }
  }

  lemma InsertKeepsOrder(a: seq<RbNode>, n: RbNode, b: seq<RbNode>)
    requires Ascending(a + b) && AllLeq(a, n.key) && AllGreater(b, n.key)
    ensures Ascending(a + [n] + b)
  {
    var s := a + [n] + b;
    forall i, j | 0 <= i < j < |s|
      ensures s[i].key <= s[j].key
    {
      if i != |a| && j != |a| {
        var i', j' := if i < |a| then i else i - 1, if j < |a| then j else j - 1;
        assert s[i] == (a + b)[i'] && s[j] == (a + b)[j'];
      }
    }
  }

  lemma {:induction false} WithoutBehind(a: seq<RbNode>, n: RbNode, b: seq<RbNode>)
    requires n !in a
    ensures Without(a + b, n) == a + Without(b, n)
  {
    if a == [] {
      assert a + b == b;
    } else {
      var s := a + b;
      WithoutBehind(a[1..], n, b);
      assert s[0] == a[0] && s[1..] == a[1..] + b;
      assert a[0] in a;
    }
  }

  lemma WithoutSplits(a: seq<RbNode>, n: RbNode, b: seq<RbNode>)
    requires n !in a
    ensures Without(a + [n] + b, n) == a + b
  {
    WithoutBehind(a, n, [n] + b);
    assert a + [n] + b == a + ([n] + b);
    assert ([n] + b)[1..] == b;
  }

  // Everything before the hole has a key up to key, everything behind it a
  // greater one: the place where a search for key ends.
  ghost predicate Parts(p: Path, key: int) {
    AllLeq(Before(p), key) && AllGreater(After(p), key)
  }

  lemma PartLeft(p: Path, t: Shape, key: int)
    requires t.Bin? && Ascending(Whole(p, t)) && Parts(p, key) && key < t.node.key
    ensures Parts(ToLeft(p, t), key) && Ascending(Whole(ToLeft(p, t), t.left))
  {
    var s, i := Whole(p, t), |Before(p)| + |Inorder(t.left)|;
    WholeUp(ToLeft(p, t), t.left);
    assert s[i] == t.node;
    assert s[i..] == After(ToLeft(p, t));
  }

  lemma PartRight(p: Path, t: Shape, key: int)
    requires t.Bin? && Ascending(Whole(p, t)) && Parts(p, key) && t.node.key <= key
    ensures Parts(ToRight(p, t), key) && Ascending(Whole(ToRight(p, t), t.right))
  {
    var s, i := Whole(p, t), |Before(p)| + |Inorder(t.left)|;
    WholeUp(ToRight(p, t), t.right);
    assert s[i] == t.node;
    assert s[..i + 1] == Before(ToRight(p, t));
  }

  // A search for an exact key leaves only other keys outside the hole.
  lemma ExactLeft(p: Path, t: Shape, key: int)
    requires t.Bin? && AllLeq(Before(p), key - 1)
    ensures AllLeq(Before(ToLeft(p, t)), key - 1)
  {
  }

  lemma ExactRight(p: Path, t: Shape, key: int)
    requires t.Bin? && Ascending(Whole(p, t)) && Parts(p, key)
    requires AllLeq(Before(p), key - 1) && t.node.key < key
    ensures AllLeq(Before(ToRight(p, t)), key - 1)
  {
    PartRight(p, t, key - 1);
  }

  lemma ExactMiss(p: Path, key: int)
    requires AllLeq(Before(p), key - 1) && AllGreater(After(p), key)
    ensures forall n | n in Whole(p, Leaf) :: n.key != key
  {
  }

  lemma HeadInWhole(p: Path, t: Shape)
    requires t.Bin?
    ensures t.node in Whole(p, t)
  {
    assert Whole(p, t)[|Before(p)| + |Inorder(t.left)|] == t.node;
  }

  lemma {:induction false} WithoutKeepsOrder(s: seq<RbNode>, n: RbNode)
    requires Ascending(s) && n in s
    ensures Ascending(Without(s, n)) && |Without(s, n)| == |s| - 1
    ensures forall m | m in Without(s, n) :: m in s
  {
    if s[0] != n {
      WithoutKeepsOrder(s[1..], n);
      var w := Without(s[1..], n);
      assert Without(s, n) == [s[0]] + w;
      forall i | 0 <= i < |w|
        ensures s[0].key <= w[i].key
      {
        assert w[i] in s[1..];
        var j :| 0 <= j < |s[1..]| && s[1..][j] == w[i];
        assert s[j + 1] == w[i];
      }
    }
  }

  lemma {:induction false} BesideNodes(p: Path, n: RbNode)
    requires n in Before(p) || n in After(p)
    ensures n in PathNodes(p)
  {
    match p
    case Top =>
    case InLeft(_, _, r, up) =>
      InorderNodes(r, n);
      if n in Before(up) || n in After(up) { BesideNodes(up, n); }
    case InRight(_, l, _, up) =>
      InorderNodes(l, n);
      if n in Before(up) || n in After(up) { BesideNodes(up, n); }
  }

  // The number of leading nodes whose key is not greater.
  ghost function Upper(s: seq<RbNode>, key: int): (i: nat)
    ensures i <= |s|
  {
    if s == [] || s[0].key > key then 0 else 1 + Upper(s[1..], key)
  }

  // The next node clockwise: the first with a greater key, else the first of all.
  ghost function Successor(s: seq<RbNode>, key: int): RbNode
    requires s != []
  {
    var i := Upper(s, key);
    if i < |s| then s[i] else s[0]
  }

  lemma {:induction false} UpperSplits(a: seq<RbNode>, b: seq<RbNode>, key: int)
    requires AllLeq(a, key) && AllGreater(b, key)
    ensures Upper(a + b, key) == |a|
  {
    if a == [] {
      assert a + b == b;
    } else {
      assert (a + b)[0] == a[0] && (a + b)[1..] == a[1..] + b;
      UpperSplits(a[1..], b, key);
    }
  }

  // The closest node on p that has the hole on its left.
  ghost function NextAbove(p: Path): RbNode? {
    match p
    case Top => null
    case InLeft(_, n, _, _) => n
    case InRight(_, _, _, up) => NextAbove(up)
  }

  lemma {:induction false} NextAboveFirst(p: Path)
    ensures NextAbove(p) == if After(p) == [] then null else After(p)[0]
  {
    if p.InRight? {
      NextAboveFirst(p.up);
    }
  }

  // The node a finished search for a greater key has in hand.
  lemma SearchedSuccessor(p: Path, key: int)
    requires Parts(p, key) && Whole(p, Leaf) != []
    ensures Successor(Whole(p, Leaf), key) == if NextAbove(p) == null then Whole(p, Leaf)[0] else NextAbove(p)
  {
    assert Whole(p, Leaf) == Before(p) + After(p);
    UpperSplits(Before(p), After(p), key);
    NextAboveFirst(p);
  }

  // -------------------------------------------------------- red-black rules

  ghost predicate IsBlack(t: Shape) {
    t.Leaf? || t.color == BLACK
  }

  ghost function Unit(color: int): nat {
    if color == BLACK then 1 else 0
  }

  ghost function BlackHeight(t: Shape): nat {
    if t.Leaf? then 0 else BlackHeight(t.left) + Unit(t.color)
  }

  // Equal black heights and no red node below a red node.
  ghost predicate RedBlack(t: Shape) {
    t.Bin? ==>
      && RedBlack(t.left) && RedBlack(t.right)
      && BlackHeight(t.left) == BlackHeight(t.right)
      && (t.color == BLACK || (t.color == RED && IsBlack(t.left) && IsBlack(t.right)))
  }

  // The rules for everything outside the hole at the end of p, when the hole
  // has black height h. Whether a red node may fill the hole is left open.
  ghost predicate RedBlackPath(p: Path, h: nat) {
    match p
    case Top => true
    case InLeft(c, _, s, up) =>
      && RedBlack(s) && BlackHeight(s) == h
      && (c == BLACK || (c == RED && IsBlack(s) && TakesRed(up) && !up.Top?))
      && RedBlackPath(up, h + Unit(c))
    case InRight(c, s, _, up) =>
      && RedBlack(s) && BlackHeight(s) == h
      && (c == BLACK || (c == RED && IsBlack(s) && TakesRed(up) && !up.Top?))
      && RedBlackPath(up, h + Unit(c))
  }

  // A red node may fill the hole: the node above is black, or there is none.
  ghost predicate TakesRed(p: Path) {
    p.Top? || p.color == BLACK
  }

  // t keeps the rules and fits below p.
  ghost predicate Ruled(p: Path, t: Shape) {
    RedBlack(t) && RedBlackPath(p, BlackHeight(t)) && (IsBlack(t) || (TakesRed(p) && !p.Top?))
  }

  lemma RuledBelow(p: Path, t: Shape)
    requires t.Bin? && Ruled(p, t)
    ensures Ruled(ToLeft(p, t), t.left) && Ruled(ToRight(p, t), t.right)
  {
  }

  lemma {:induction false} PlugRedBlack(p: Path, t: Shape)
    requires RedBlack(t) && RedBlackPath(p, BlackHeight(t))
    requires IsBlack(t) || TakesRed(p)
    ensures RedBlack(Plug(p, t))
    ensures !p.Top? ==> IsBlack(Plug(p, t))
    decreases p
  {
    if !p.Top? {
      PlugRedBlack(p.up, Up(p, t));
    }
  }

  // ------------------------------------------- the insert fixup as a value

  // t is red, and only the node above it may break a rule.
  ghost predicate RedAt(p: Path, t: Shape) {
    t.Bin? && t.color == RED && RedBlack(t) && RedBlackPath(p, BlackHeight(t))
  }

  // A new leaf where the search for its key ends.
  lemma LeafInOrder(p: Path, t: Shape)
    requires t.Bin? && t.left == t.right == Leaf && t.color == RED && RedBlackPath(p, 0)
    requires Parts(p, t.node.key) && Ascending(Whole(p, Leaf))
    ensures RedAt(p, t)
    ensures Whole(p, t) == InsertByKey(Whole(p, Leaf), t.node)
    ensures Ascending(Whole(p, t)) && |Whole(p, t)| == |Whole(p, Leaf)| + 1
  {
    var a, b := Before(p), After(p);
    assert Whole(p, Leaf) == a + b;
    assert Inorder(t) == [t.node];
    InsertSplits(a, t.node, b);
    InsertKeepsOrder(a, t.node, b);
  }

  // t and the node above it are red, and the rules hold beside them.
  ghost predicate Paired(p: Path, t: Shape) {
    && t.Bin? && t.color == RED && RedBlack(t)
    && !p.Top? && p.color == RED && !p.up.Top? && p.up.color == BLACK
    && RedBlack(Sibling(p)) && IsBlack(Sibling(p)) && RedBlack(Sibling(p.up))
    && BlackHeight(t) == BlackHeight(Sibling(p)) == BlackHeight(Sibling(p.up))
  }

  // A parent and child that are red; otherwise the rules hold.
  ghost predicate RedPair(p: Path, t: Shape) {
    Paired(p, t) && RedBlackPath(p.up.up, BlackHeight(t) + 1)
  }

  lemma PairAt(p: Path, t: Shape)
    requires RedAt(p, t) && !TakesRed(p)
    ensures RedPair(p, t)
  {
    assert RedBlackPath(p.up, BlackHeight(t));
  }

  // Case 1, u and its sibling are red: what stands at gp.up afterwards.
  ghost function Raised(gp: Path, u: Shape): (g: Shape)
    requires !gp.Top? && u.Bin? && Sibling(gp).Bin?
    ensures g.Bin?
  {
    var gp' := WithSibling(gp, Painted(Sibling(gp), BLACK));
    Painted(Up(gp', Painted(u, BLACK)), RED)
  }

  // Case 1 for the node above t.
  ghost function PushedUp(p: Path, t: Shape): (g: Shape)
    requires !p.Top? && !p.up.Top? && Sibling(p.up).Bin?
    ensures g.Bin?
  {
    Raised(p.up, Up(p, t))
  }

  // Case 2, an inner child first becomes an outer one.
  ghost function Outer(p: Path, t: Shape): (u: Shape)
    requires !p.Top? && !p.up.Top? && t.Bin?
    ensures u.Bin?
  {
    if p.up.InLeft? && p.InRight? then RotLeft(Up(p, t))
    else if p.up.InRight? && p.InLeft? then RotRight(Up(p, t))
    else Up(p, t)
  }

  // Case 3: u is black and the node above it red; u is about to go up.
  ghost function Tilted(gp: Path, u: Shape): (g: Shape)
    requires !gp.Top? && u.Bin?
    ensures g.Bin?
  {
    Painted(Up(gp, Painted(u, BLACK)), RED)
  }

  ghost function Overturned(gp: Path, u: Shape): (top: Shape)
    requires !gp.Top? && u.Bin?
    ensures top.Bin?
  {
    if gp.InLeft? then RotRight(Tilted(gp, u)) else RotLeft(Tilted(gp, u))
  }

  ghost function Turned(p: Path, t: Shape): (top: Shape)
    requires !p.Top? && !p.up.Top? && t.Bin?
    ensures top.Bin?
  {
    Overturned(p.up, Outer(p, t))
  }

  lemma RaisedRules(gp: Path, u: Shape)
    requires !gp.Top? && u.Bin? && u.color == RED && RedBlack(Painted(u, BLACK))
    requires RedBlack(Sibling(gp)) && !IsBlack(Sibling(gp)) && BlackHeight(u) == BlackHeight(Sibling(gp))
    ensures var g := Raised(gp, u);
            && g.color == RED && RedBlack(g) && BlackHeight(g) == BlackHeight(u) + 1 && g.node == gp.node
            && g.left.Bin? && g.right.Bin?
    ensures Inorder(Raised(gp, u)) == Inorder(Up(gp, u))
  {
    var u', un' := Painted(u, BLACK), Painted(Sibling(gp), BLACK);
    assert Raised(gp, u) == if gp.InLeft? then Bin(RED, u', gp.node, un') else Bin(RED, un', gp.node, u');
    assert Inorder(u') == Inorder(u) && Inorder(un') == Inorder(Sibling(gp));
  }

  // u is red like its outer child, and its sibling is black.
  lemma OverturnedRules(gp: Path, u: Shape)
    requires !gp.Top? && u.Bin? && RedBlack(u.left) && RedBlack(u.right)
    requires BlackHeight(u.left) == BlackHeight(u.right) == BlackHeight(Sibling(gp))
    requires IsBlack(if gp.InLeft? then u.right else u.left)
    requires RedBlack(Sibling(gp)) && IsBlack(Sibling(gp))
    ensures var top := Overturned(gp, u);
            && top.color == BLACK && RedBlack(top) && BlackHeight(top) == BlackHeight(u.left) + 1
            && top.node == u.node
            && if gp.InLeft? then top.left == u.left && top.right.Bin? && top.right.color == RED
               else top.right == u.right && top.left.Bin? && top.left.color == RED
    ensures Inorder(Overturned(gp, u)) == Inorder(Up(gp, u))
  {
    OverturnedOrder(gp, u);
    if gp.InLeft? {
      assert Overturned(gp, u) == Bin(BLACK, u.left, u.node, Bin(RED, u.right, gp.node, gp.right));
    } else {
      assert Overturned(gp, u) == Bin(BLACK, Bin(RED, gp.left, gp.node, u.left), u.node, u.right);
    }
  }

  lemma OverturnedOrder(gp: Path, u: Shape)
    requires !gp.Top? && u.Bin?
    ensures Inorder(Overturned(gp, u)) == Inorder(Up(gp, u))
  {
    var u', g := Painted(u, BLACK), Tilted(gp, u);
    assert Inorder(u') == Inorder(u);
    if gp.InLeft? {
      assert g == Bin(RED, u', gp.node, gp.right);
      RotRightOrder(g);
    } else {
      assert g == Bin(RED, gp.left, gp.node, u');
      RotLeftOrder(g);
    }
    assert Inorder(g) == Inorder(Up(gp, u));
  }

  lemma OuterRules(p: Path, t: Shape)
    requires Paired(p, t)
    ensures var u := Outer(p, t);
            && RedBlack(u.left) && RedBlack(u.right)
            && BlackHeight(t) == BlackHeight(u.left) == BlackHeight(u.right)
            && if p.up.InLeft? then u.left.Bin? && u.left.color == RED && IsBlack(u.right)
               else u.right.Bin? && u.right.color == RED && IsBlack(u.left)
    ensures Inorder(Outer(p, t)) == Inorder(Up(p, t))
  {
    var pt := Up(p, t);
    if p.up.InLeft? && p.InRight? {
      RotLeftOrder(pt);
      assert Outer(p, t) == Bin(RED, Bin(RED, p.left, p.node, t.left), t.node, t.right);
    } else if p.up.InRight? && p.InLeft? {
      RotRightOrder(pt);
      assert Outer(p, t) == Bin(RED, t.left, t.node, Bin(RED, t.right, p.node, p.right));
    }
  }

  // Where the fixup stands after one round.
  ghost function RoundPath(p: Path, t: Shape): Path
    requires !p.Top? && !p.up.Top? && t.Bin?
  {
    if !IsBlack(Sibling(p.up)) then p.up.up
    else if p.up.InLeft? then ToLeft(p.up.up, Turned(p, t))
    else ToRight(p.up.up, Turned(p, t))
  }

  ghost function RoundTree(p: Path, t: Shape): Shape
    requires !p.Top? && !p.up.Top? && t.Bin?
  {
    if !IsBlack(Sibling(p.up)) then PushedUp(p, t)
    else if p.up.InLeft? then Turned(p, t).left
    else Turned(p, t).right
  }

  // What one round makes of the tree, seen from p.up.up.
  ghost function RoundTop(p: Path, t: Shape): (g: Shape)
    requires !p.Top? && !p.up.Top? && t.Bin?
    ensures g.Bin?
  {
    if !IsBlack(Sibling(p.up)) then PushedUp(p, t) else Turned(p, t)
  }

  lemma RoundTopRules(p: Path, t: Shape)
    requires Paired(p, t)
    ensures RedBlack(RoundTop(p, t)) && BlackHeight(RoundTop(p, t)) == BlackHeight(t) + 1
    ensures Inorder(RoundTop(p, t)) == Inorder(Up(p.up, Up(p, t)))
    ensures RoundTree(p, t).Bin? && RoundTree(p, t).color == RED
    ensures IsBlack(Sibling(p.up)) <==> RoundTop(p, t).color == BLACK
  {
    var gp, pt := p.up, Up(p, t);
    if !IsBlack(Sibling(gp)) {
      RaisedRules(gp, pt);
    } else {
      OuterRules(p, t);
      OverturnedRules(gp, Outer(p, t));
      var un := Sibling(gp);
      assert Inorder(Up(gp, Outer(p, t))) == Inorder(Up(gp, pt));
    }
  }

  // Whatever is above the pair.
  lemma RoundOrder(p: Path, t: Shape)
    requires Paired(p, t)
    ensures Whole(RoundPath(p, t), RoundTree(p, t)) == Whole(p, t)
  {
    RoundTopRules(p, t);
    WholeUp(p, t);
    WholeUp(p.up, Up(p, t));
    if IsBlack(Sibling(p.up)) {
      WholeUp(RoundPath(p, t), RoundTree(p, t));
    }
  }

  lemma RoundRules(p: Path, t: Shape)
    requires RedPair(p, t)
    ensures RedAt(RoundPath(p, t), RoundTree(p, t))
    ensures TakesRed(RoundPath(p, t)) || RoundPath(p, t) == p.up.up
    ensures Whole(RoundPath(p, t), RoundTree(p, t)) == Whole(p, t)
  {
    RoundTopRules(p, t);
    RoundOrder(p, t);
  }

  // --------------------------------------------------------------- balance

  ghost function Pow2(n: nat): (m: nat)
    ensures m >= 1
  {
    if n == 0 then 1 else 2 * Pow2(n - 1)
  }

  ghost function Depth(t: Shape): nat {
    if t.Leaf? then 0
    else 1 + if Depth(t.left) < Depth(t.right) then Depth(t.right) else Depth(t.left)
  }

  // A tree of black height h has at least 2^h - 1 nodes, and no path longer
  // than twice its black height.
  lemma {:induction false} Balanced(t: Shape)
    requires RedBlack(t)
    ensures Pow2(BlackHeight(t)) <= |Inorder(t)| + 1
    ensures Depth(t) <= 2 * BlackHeight(t) + if IsBlack(t) then 0 else 1
  {
    if t.Bin? {
      Balanced(t.left);
      Balanced(t.right);
    }
  }

  lemma {:induction false} Pow2Add(a: nat, b: nat)
    ensures Pow2(a + b) == Pow2(a) * Pow2(b)
  {
    if a > 0 {
      Pow2Add(a - 1, b);
      var x, y := Pow2(a - 1), Pow2(b);
      assert 2 * (x * y) == (2 * x) * y;
    }
  }

  lemma {:induction false} Pow2Grows(a: nat, b: nat)
    requires a <= b
    ensures Pow2(a) <= Pow2(b)
  {
    if a < b {
      Pow2Grows(a, b - 1);
    }
  }

  // A search takes no more than 2 * log2(n + 1) steps.
  lemma DepthBound(t: Shape, steps: nat)
    requires RedBlack(t) && IsBlack(t) && steps <= Depth(t)
    ensures var n := |Inorder(t)|; Pow2(steps) <= (n + 1) * (n + 1)
  {
    var h, n := BlackHeight(t), |Inorder(t)|;
    Balanced(t);
    Pow2Grows(steps, h + h);
    Pow2Add(h, h);
    SquareGrows(Pow2(h), n + 1);
  }

  lemma SquareGrows(a: nat, b: nat)
    requires a <= b
    ensures a * a <= b * b
  {
    assert a * a <= a * b;
    assert a * b <= b * b;
  }
}
