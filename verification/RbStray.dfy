// The insert fixup as a whole, whatever the parent field of the root names. When
// that is a node of the tree, the fixup may run past the root.
module RbStray {
  import opened RbShape
  import opened RbRules
  import opened RbRemoval

  // A new leaf.
  ghost function NewLeaf(n: RbNode): Shape {
    Bin(RED, Leaf, n, Leaf)
  }

  // Where the search for the place of a new key ends, when it stands before t.
  ghost function Descent(p: Path, t: Shape, key: int): Path
    decreases t
  {
    if t.Leaf? then p
    else if key < t.node.key then Descent(ToLeft(p, t), t.left, key)
    else Descent(ToRight(p, t), t.right, key)
  }

  // The insert fixup on values: the whole tree when it began with the red t at
  // the end of p, and the field above the root was no matter.
  ghost function Fixed(p: Path, t: Shape): Shape
    requires t.Bin?
  {
    if TakesRed(p) || p.up.Top? then Blackened(Plug(p, t))
    else if !IsBlack(Sibling(p.up)) then Fixed(p.up.up, PushedUp(p, t))
    else Blackened(Plug(p.up.up, Turned(p, t)))
  }

  lemma {:induction false} FixedRules(p: Path, t: Shape)
    requires RedAt(p, t)
    ensures RedBlack(Fixed(p, t)) && IsBlack(Fixed(p, t)) && Inorder(Fixed(p, t)) == Whole(p, t)
    decreases p
  {
    if TakesRed(p) {
      PlugRedBlack(p, t);
      InorderPlug(p, t);
    } else {
      PairAt(p, t);
      RoundTopRules(p, t);
      RoundRules(p, t);
      if IsBlack(Sibling(p.up)) {
        PlugRedBlack(p.up.up, Turned(p, t));
        InorderPlug(p.up.up, Turned(p, t));
        WholeUp(p, t);
        WholeUp(p.up, Up(p, t));
      } else {
        FixedRules(p.up.up, PushedUp(p, t));
      }
    }
  }

  // From the end of p the fixup carries a red node up to the root.
  ghost predicate RedUp(p: Path) {
    p.Top? || (p.color == RED && !p.up.Top? && !IsBlack(Sibling(p.up)) && RedUp(p.up.up))
  }

  // The tree when it has come there.
  ghost function Risen(p: Path, t: Shape): (top: Shape)
    requires RedUp(p) && t.Bin?
    ensures top.Bin?
  {
    if p.Top? then t else Risen(p.up.up, PushedUp(p, t))
  }

  // From the end of p it carries a red node up to the root or to its child.
  ghost predicate Climbs(p: Path) {
    !p.Top? && p.color == RED &&
    (p.up.Top? || p.up.up.Top? || (!IsBlack(Sibling(p.up)) && Climbs(p.up.up)))
  }

  // The way to a node of a tree, and the subtree there.
  ghost function Way(p: Path, t: Shape, n: RbNode): Path
    requires n in Nodes(t)
    decreases t
  {
    if t.node == n then p
    else if n in Nodes(t.left) then Way(ToLeft(p, t), t.left, n)
    else Way(ToRight(p, t), t.right, n)
  }

  ghost function Sub(t: Shape, n: RbNode): (u: Shape)
    requires n in Nodes(t)
    ensures u.Bin? && u.node == n
  {
    if t.node == n then t
    else if n in Nodes(t.left) then Sub(t.left, n)
    else Sub(t.right, n)
  }

  lemma {:induction false} WayLeads(p: Path, t: Shape, n: RbNode)
    requires n in Nodes(t)
    ensures Plug(Way(p, t, n), Sub(t, n)) == Plug(p, t)
    decreases t
  {
    if t.node == n {
    } else if n in Nodes(t.left) {
      WayLeads(ToLeft(p, t), t.left, n);
    } else {
      WayLeads(ToRight(p, t), t.right, n);
    }
  }

  // The node at the head of u is mistaken for the parent of the red root, and no
  // harm is done: it is black, or a rotation ends the round, or the red node that
  // comes of it does not climb up again.
  ghost predicate Harmless(q: Path, u: Shape) {
    u.Bin? && (u.color == BLACK || (!q.Top? && (IsBlack(Sibling(q)) || !Climbs(q.up))))
  }

  // -------------------------------------------------------- a red root above

  // The path with its root painted black.
  ghost function RootBlack(p: Path): Path {
    match p
    case Top => Top
    case InLeft(c, n, r, up) => InLeft(if up.Top? then BLACK else c, n, r, RootBlack(up))
    case InRight(c, l, n, up) => InRight(if up.Top? then BLACK else c, l, n, RootBlack(up))
  }

  lemma {:induction false} PlugRootBlack(p: Path, t: Shape)
    requires !p.Top?
    ensures Plug(p, t).Bin? && Plug(RootBlack(p), t) == Painted(Plug(p, t), BLACK)
  {
    if !p.up.Top? {
      PlugRootBlack(p.up, Up(p, t));
    }
  }

  lemma {:induction false} PlugRoot(p: Path, t: Shape)
    requires t.Bin?
    ensures Plug(p, t).Bin? && Plug(p, t).node == Root(p, t.node)
    decreases p
  {
    if !p.Top? {
      PlugRoot(p.up, Up(p, t));
    }
  }

  // The rules for the whole say what they ask of a part and of the way to it.
  lemma {:induction false} PartRules(p: Path, t: Shape)
    requires RedBlack(Plug(p, t))
    ensures RedBlack(t) && RedBlackPath(RootBlack(p), BlackHeight(t))
    ensures !IsBlack(t) ==> TakesRed(p)
  {
    if !p.Top? {
      PartRules(p.up, Up(p, t));
    }
  }

  // The fixup stands at the red root t, whose parent field names the red node
  // at the head of u.
  ghost predicate Strayed(t: Shape, q: Path, u: Shape) {
    RedAt(Top, t) && t == Plug(q, u) && !q.Top? && u.Bin? && u.color == RED
  }

  lemma StrayedRules(t: Shape, q: Path, u: Shape)
    requires Strayed(t, q, u)
    ensures RedBlack(u) && RedBlackPath(RootBlack(q), BlackHeight(u)) && q.color == BLACK && !q.up.Top?
  {
    PartRules(q, u);
    assert Plug(q, u) == Plug(q.up, Up(q, u));
  }

  // Its sibling is black: the rotation ends the round and leaves a good tree.
  lemma StrayTurned(t: Shape, q: Path, u: Shape)
    requires Strayed(t, q, u) && IsBlack(Sibling(q))
    ensures var all := Plug(q.up, Overturned(q, u));
            && all.Bin? && RedBlack(Painted(all, BLACK)) && Inorder(all) == Inorder(t) && all.node == t.node
    ensures Overturned(q, u).color == BLACK && Overturned(q, u).node == u.node
  {
    var top := Overturned(q, u);
    StrayedRules(t, q, u);
    OverturnedRules(q, u);
    assert RootBlack(q).up == RootBlack(q.up);
    PlugRedBlack(RootBlack(q.up), top);
    PlugRootBlack(q.up, top);
    PlugRoot(q.up, Up(q, u));
    PlugRoot(q.up, top);
    InorderPlug(q.up, top);
    InorderPlug(q.up, Up(q, u));
  }

  // Its sibling is red: the red node is now at q.up.
  lemma StrayRaised(t: Shape, q: Path, u: Shape)
    requires Strayed(t, q, u) && !IsBlack(Sibling(q))
    ensures RedAt(RootBlack(q.up), Raised(q, u)) && !q.up.Top?
    ensures Whole(q.up, Raised(q, u)) == Inorder(t)
  {
    StrayedRules(t, q, u);
    RaisedRules(q, u);
    assert RootBlack(q).up == RootBlack(q.up);
    InorderPlug(q.up, Up(q, u));
  }

  // A red root that does not mind where a round below it takes place.
  lemma RootBlackRound(p: Path, t: Shape)
    requires RedAt(RootBlack(p), t) && !p.Top? && p.color == RED && !Climbs(p)
    ensures RedPair(RootBlack(p), t) && Paired(p, t) && !p.up.up.Top?
    ensures RoundPath(RootBlack(p), t) == RootBlack(RoundPath(p, t))
    ensures RoundTree(RootBlack(p), t) == RoundTree(p, t)
  {
    var b := RootBlack(p);
    assert !p.up.Top?;
    assert b.up == RootBlack(p.up) && b.color == RED;
    PairAt(b, t);
    assert b.up.up == RootBlack(p.up.up) && !p.up.up.Top?;
  }

  // ---------------------------------------------- the root as its own parent

  lemma {:induction false} RisenFull(p: Path, t: Shape)
    requires RedUp(p) && t.Bin?
    ensures !p.Top? || (t.left.Bin? && t.right.Bin?) ==> Risen(p, t).left.Bin? && Risen(p, t).right.Bin?
    decreases p
  {
    if !p.Top? {
      RisenFull(p.up.up, PushedUp(p, t));
    }
  }

  lemma {:induction false} RisenRoot(p: Path, t: Shape)
    requires RedUp(p) && t.Bin?
    ensures Risen(p, t).node == Root(p, t.node)
    decreases p
  {
    if !p.Top? {
      RisenRoot(p.up.up, PushedUp(p, t));
    }
  }

  // The root is rotated below its right child, and the heights differ.
  lemma OverrunRules(t: Shape)
    requires RedAt(Top, t) && t.right.Bin?
    ensures var u := RotLeft(t);
            && u.color == BLACK && !RedBlack(u) && u.left.Bin? && u.left.node == t.node
            && BlackHeight(u.left) == BlackHeight(u.right) + 1
    ensures Inorder(RotLeft(t)) == Inorder(t)
  {
    RotLeftOrder(t);
    var low, r := RotLeft(t).left, t.right;
    assert low == Bin(RED, t.left, t.node, r.left) && RotLeft(t).right == r.right;
    assert r.color == BLACK && RedBlack(r);
    assert BlackHeight(low) == BlackHeight(t.left) == BlackHeight(r) == BlackHeight(r.right) + 1;
  }

  // --------------------------------------------------- the new leaf as parent

  // The red leaf n hangs in t at the end of q, as the only child of a black
  // node, or it is t itself.
  ghost predicate Carries(q: Path, t: Shape, n: RbNode) {
    && t == Plug(q, NewLeaf(n))
    && (q.Top? || (q.color == BLACK && Sibling(q) == Leaf))
  }

  lemma {:induction false} PlugJoin(sp: Path, base: Path, t: Shape)
    ensures Plug(Join(sp, base), t) == Plug(base, Plug(sp, t))
  {
    if !sp.Top? {
      assert Up(Join(sp, base), t) == Up(sp, t);
      PlugJoin(sp.up, base, Up(sp, t));
    }
  }

  // The way from the grandparent to the red pair after case 1.
  ghost function Pushed(p: Path): (q: Path)
    requires !p.Top? && !p.up.Top? && Sibling(p.up).Bin?
    ensures !q.Top? && q.color == BLACK && Sibling(q) == Sibling(p)
  {
    var top := if p.up.InLeft? then InLeft(RED, p.up.node, Painted(p.up.right, BLACK), Top)
               else InRight(RED, Painted(p.up.left, BLACK), p.up.node, Top);
    if p.InLeft? then InLeft(BLACK, p.node, p.right, top) else InRight(BLACK, p.left, p.node, top)
  }

  lemma CarriesOn(q: Path, p: Path, t: Shape, n: RbNode)
    requires Paired(p, t) && !IsBlack(Sibling(p.up)) && Carries(q, t, n)
    ensures Carries(Join(q, Pushed(p)), PushedUp(p, t), n) && !Join(q, Pushed(p)).Top?
  {
    assert Up(Pushed(p), t) == Painted(Up(p, t), BLACK);
    assert Plug(Pushed(p).up, Up(Pushed(p), t)) == PushedUp(p, t);
    PlugJoin(q, Pushed(p), NewLeaf(n));
    if q.Top? {
      assert IsBlack(Sibling(p)) && BlackHeight(Sibling(p)) == 0;
    }
  }

  // When the red root has come up from a new leaf, that leaf is harmless.
  lemma {:induction false} LeafRises(q: Path, p: Path, t: Shape, n: RbNode) returns (s: Path)
    requires RedUp(p) && RedAt(p, t) && Carries(q, t, n) && !(p.Top? && q.Top?)
    ensures Carries(s, Risen(p, t), n) && !s.Top? && Harmless(s, NewLeaf(n))
    decreases p
  {
    s := q;
    if !p.Top? {
      PairAt(p, t);
      CarriesOn(q, p, t, n);
      RoundRules(p, t);
      s := LeafRises(Join(q, Pushed(p)), p.up.up, PushedUp(p, t), n);
    }
  }

  // ------------------------------------------------------ the whole fixup

  // How the insert fixup goes: up to the root; up once more, from a node that was
  // taken for the parent of the root; done but for the root's colour; or done with
  // the root turned below its child.
  datatype Stage = Rising | Again | Ended | Overrun

  // The node a, at the head of u, will be mistaken for the parent of the red root t:
  // the root itself, or a harmless node.
  ghost predicate Borne(a: RbNode, t: Shape, q: Path, u: Shape) {
    t == Plug(q, u) && u.Bin? && u.node == a && if q.Top? then t.right.Bin? else Harmless(q, u)
  }

  // The fixup is to go on from t at the end of p. The root's parent field names a;
  // outside says that this is a black node outside the tree.
  ghost predicate Stands(a: RbNode, stage: Stage, p: Path, t: Shape, q: Path, u: Shape, outside: bool) {
    t.Bin? && match stage
    case Rising => RedAt(p, t) && (RedUp(p) && !outside ==> Borne(a, Risen(p, t), q, u))
    case Again => !outside && !p.Top? && RedAt(RootBlack(p), t) && !Climbs(p)
    case Ended => !outside && p.Top? && RedBlack(Painted(t, BLACK))
    case Overrun => !outside && p.Top? && t.left.Bin? && t.color == BLACK && !RedBlack(t)
  }

  // How the tree came from t0 at the end of p0, where the fixup began.
  ghost predicate Tracks(a: RbNode, stage: Stage, p: Path, t: Shape, p0: Path, t0: Shape)
    requires t.Bin? && t0.Bin?
  {
    && Whole(p, t) == Whole(p0, t0)
    && match stage
       case Rising => && (RedUp(p) <==> RedUp(p0)) && Fixed(p, t) == Fixed(p0, t0)
                      && (RedUp(p) ==> Risen(p, t) == Risen(p0, t0))
       case Overrun =>
         RedUp(p0) && var top := Risen(p0, t0); a == top.node && top.right.Bin? && t == RotLeft(top)
       case _ => RedUp(p0) && a != Risen(p0, t0).node
  }

  // How far the fixup is from its end.
  ghost function StagesLeft(stage: Stage): nat {
    match stage
    case Rising => 2
    case Again => 1
    case _ => 0
  }

  ghost function RoundsLeft(p: Path): nat {
    if !p.Top? && TakesRed(p) then 0 else Length(p) + 1
  }

  lemma Nearer(p: Path, t: Shape)
    requires Paired(p, t) && TakesRed(p.up)
    ensures RoundsLeft(RoundPath(p, t)) < RoundsLeft(p)
  {
    assert IsBlack(Sibling(p.up)) ==> Turned(p, t).color == BLACK by { RoundTopRules(p, t); }
    assert Length(p) == 1 + Length(p.up) == 2 + Length(p.up.up);
  }

  // One round from a pair on.
  lemma PairRound(a: RbNode, stage: Stage, p: Path, t: Shape, q: Path, u: Shape, outside: bool)
    requires Stands(a, stage, p, t, q, u, outside) && Paired(p, t) && (stage.Rising? || stage.Again?)
    ensures Stands(a, stage, RoundPath(p, t), RoundTree(p, t), q, u, outside)
    ensures RoundsLeft(RoundPath(p, t)) < RoundsLeft(p)
    ensures stage.Rising? ==> Tracks(a, stage, RoundPath(p, t), RoundTree(p, t), p, t)
    ensures Whole(RoundPath(p, t), RoundTree(p, t)) == Whole(p, t)
  {
    RoundOrder(p, t);
    Nearer(p, t);
    if stage.Rising? {
      PairAt(p, t);
      RoundRules(p, t);
    } else {
      RootBlackRound(p, t);
      RoundRules(RootBlack(p), t);
    }
  }

  lemma TracksOn(a: RbNode, stage0: Stage, stage: Stage, p: Path, t: Shape, p1: Path, t1: Shape, p0: Path, t0: Shape)
    requires t.Bin? && t1.Bin? && t0.Bin? && Tracks(a, stage0, p1, t1, p0, t0) && Whole(p, t) == Whole(p1, t1)
    requires if stage0.Rising? then Tracks(a, stage, p, t, p1, t1) else stage0.Again? && stage.Again?
    ensures Tracks(a, stage, p, t, p0, t0)
  {
  }

  // What the fixup makes of a tree with the red t at the end of p: a red-black
  // tree, unless it comes to a root that is its own parent.
  ghost predicate Repaired(a: RbNode, all: Shape, p: Path, t: Shape, outside: bool)
    requires t.Bin?
  {
    && IsBlack(all) && Inorder(all) == Whole(p, t)
    && (RedBlack(all) <==> !(RedUp(p) && a == Risen(p, t).node))
    && (RedUp(p) && a == Risen(p, t).node ==> Risen(p, t).right.Bin? && all == RotLeft(Risen(p, t)))
    && (!RedUp(p) || outside ==> all == Fixed(p, t))
  }
}
