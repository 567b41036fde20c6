// Reading a whole tree: the visit in order, and the program's own check of the
// red-black rules.
module RbTravel {
  import opened RbShape
  import opened RbRules
  import opened RbStray
  import opened RbTree

  // --------------------------------------------------------- visit in order

  ghost function Keys(e: seq<RbNode>): (k: seq<int>)
    ensures |k| == |e|
    ensures forall i | 0 <= i < |e| :: k[i] == e[i].key
  {
    seq(|e|, i requires 0 <= i < |e| => e[i].key)
  }

  // What the visits of e leave in the first cells of a full array.
  ghost function Dumped(e: seq<RbNode>, room: nat): seq<int> {
    if |e| <= room then Keys(e) else Keys(e)[..room]
  }

  lemma DumpedInParts(a: seq<RbNode>, b: seq<RbNode>, room: nat)
    ensures Dumped(a + b, room) == Dumped(a, room) + Dumped(b, room - |Dumped(a, room)|)
  {
  }

  // From cur on, v was overwritten with the keys of e while there was room.
  ghost predicate Wrote(v: seq<int>, w: seq<int>, cur: nat, next: nat, e: seq<RbNode>, size: nat) {
    && |v| == |w| && cur <= next <= size <= |w|
    && Put(v, w, cur, next, Dumped(e, size - cur))
  }

  ghost predicate Put(v: seq<int>, w: seq<int>, cur: nat, next: nat, d: seq<int>)
    requires cur <= next <= |v| == |w|
  {
    next == cur + |d| && w[..next] == v[..cur] + d && w[next..] == v[next..]
  }

  lemma PutBoth(u: seq<int>, v: seq<int>, w: seq<int>, i: nat, j: nat, k: nat, d: seq<int>, e: seq<int>)
    requires i <= j <= k <= |u| == |v| == |w| && Put(u, v, i, j, d) && Put(v, w, j, k, e)
    ensures Put(u, w, i, k, d + e)
  {
    assert w[..k] == u[..i] + (d + e);
    SameEnd(u, v, j, k);
  }

  lemma WroteBoth(u: seq<int>, v: seq<int>, w: seq<int>, i: nat, j: nat, k: nat,
                  a: seq<RbNode>, b: seq<RbNode>, size: nat)
    requires Wrote(u, v, i, j, a, size) && Wrote(v, w, j, k, b, size)
    ensures Wrote(u, w, i, k, a + b, size)
  {
    DumpedInParts(a, b, size - i);
    PutBoth(u, v, w, i, j, k, Dumped(a, size - i), Dumped(b, size - j));
  }

  lemma SameEnd(u: seq<int>, v: seq<int>, j: nat, k: nat)
    requires j <= k <= |u| == |v| && u[j..] == v[j..]
    ensures u[k..] == v[k..]
  {
    assert u[k..] == u[j..][k - j..] && v[k..] == v[j..][k - j..];
  }

  // The cells that were written, and those that were not.
  lemma WroteCells(v: seq<int>, w: seq<int>, next: nat, e: seq<RbNode>, size: nat)
    requires Wrote(v, w, 0, next, e, size)
    ensures next == if |e| <= size then |e| else size
    ensures forall i | 0 <= i < next :: w[i] == e[i].key
    ensures forall i | next <= i < |w| :: w[i] == v[i]
  {
    assert w[..next] == Dumped(e, size);
    forall i | 0 <= i < next ensures w[i] == e[i].key {
      assert w[i] == w[..next][i];
    }
    forall i | next <= i < |w| ensures w[i] == v[i] {
      assert w[i] == w[next..][i - next] && v[i] == v[next..][i - next];
    }
  }

  // The visitor: stores a key while there is room for it.
  method Visit(node: RbNode, values: array<int>, size: nat, cur: nat) returns (next: nat)
    requires cur <= size <= values.Length
    modifies values
    ensures Wrote(old(values[..]), values[..], cur, next, [node], size)
  {
    next := cur;
    if next < size {
      values[next] := node.key;
      next := next + 1;
    }
  }

  method MidTravel(tree: Tree, node: RbNode, ghost p: Path, ghost t: Shape,
                   values: array<int>, size: nat, cur: nat)
    returns (next: nat)
    requires tree.Holds(p, t) && t.Bin? && node == t.node
    requires cur <= size <= values.Length
    modifies values
    ensures Wrote(old(values[..]), values[..], cur, next, Inorder(t), size)
    decreases t
  {
    next := cur;
    ghost var u := values[..];
    ghost var l, r := Inorder(t.left), Inorder(t.right);
    TurnLeft(tree, p, t);
    if node.left != tree.nil {
      next := MidTravel(tree, node.left, ToLeft(p, t), t.left, values, size, next);
    }
    ghost var v, i := values[..], next;
    assert Wrote(u, v, cur, i, l, size);
    next := Visit(node, values, size, next);
    ghost var w, j := values[..], next;
    WroteBoth(u, v, w, cur, i, j, l, [node], size);
    TurnRight(tree, p, t);
    if node.right != tree.nil {
      next := MidTravel(tree, node.right, ToRight(p, t), t.right, values, size, next);
    }
    assert Wrote(w, values[..], j, next, r, size);
    WroteBoth(u, w, values[..], cur, j, next, l + [node], r, size);
    assert Inorder(t) == l + [node] + r;
  }

  lemma TurnLeft(tree: Tree, p: Path, t: Shape)
    requires tree.Holds(p, t) && t.Bin?
    ensures tree.Holds(ToLeft(p, t), t.left)
    ensures t.node.left == Head(t.left, tree.nil) && (t.node.left == tree.nil <==> t.left.Leaf?)
  {
    tree.See(p, t);
    tree.Unfocus(ToLeft(p, t), t.left);
    tree.HeadNotNil(ToLeft(p, t), t.left);
  }

  lemma TurnRight(tree: Tree, p: Path, t: Shape)
    requires tree.Holds(p, t) && t.Bin?
    ensures tree.Holds(ToRight(p, t), t.right)
    ensures t.node.right == Head(t.right, tree.nil) && (t.node.right == tree.nil <==> t.right.Leaf?)
  {
    tree.See(p, t);
    tree.Unfocus(ToRight(p, t), t.right);
    tree.HeadNotNil(ToRight(p, t), t.right);
  }

  // Stores the smallest keys in ascending order, as many as there is room for.
  method Dump(tree: Tree, values: array<int>, size: nat) returns (next: nat)
    requires tree.Sound() && size <= values.Length
    modifies values
    ensures Wrote(old(values[..]), values[..], 0, next, tree.Elements(), size)
  {
    tree.HeadNotNil(Top, tree.shape);
    next := 0;
    if tree.root != tree.nil {
      next := MidTravel(tree, tree.root, Top, tree.shape, values, size, 0);
    }
  }

  // ------------------------------------------------------- checking the rules

  // fini is the number of the rule found broken, rbh the black height seen at
  // the first end of a branch, and maxd the depth reached.
  datatype Check = Check(fini: int, rbh: nat, maxd: nat)

  // The check goes left wherever it can, and right only below a node that has a
  // left child. Where it comes, colors are colors,
  ghost predicate Colored(t: Shape) {
    t.Bin? ==>
      && (t.color == RED || t.color == BLACK)
      && (t.left.Bin? ==> Colored(t.left) && Colored(t.right))
  }

  // no red node has a red child,
  ghost predicate Parted(t: Shape) {
    t.Bin? && t.left.Bin? ==>
      && (t.color == RED ==> t.left.color != RED && (t.right.Bin? ==> t.right.color != RED))
      && Parted(t.left) && Parted(t.right)
  }

  // and a child's key is on its side of the parent's.
  ghost predicate Sided(t: Shape) {
    t.Bin? && t.left.Bin? ==>
      && t.left.node.key <= t.node.key && (t.right.Bin? ==> t.node.key <= t.right.node.key)
      && Sided(t.left) && Sided(t.right)
  }

  ghost predicate Clean(t: Shape) {
    Colored(t) && Parted(t) && Sided(t)
  }

  // At every end of a branch where the check comes there are h black nodes above,
  // when there are cur above t.
  ghost predicate Level(t: Shape, cur: nat, h: nat) {
    t.Bin? ==>
      var c := cur + Unit(t.color);
      if t.left.Leaf? then c == h
      else Level(t.left, c, h) && if t.right.Leaf? then c == h else Level(t.right, c, h)
  }

  // The number of levels that the check comes to.
  ghost function Seen(t: Shape): nat {
    if t.Leaf? then 0
    else if t.left.Leaf? then 1
    else 1 + if Seen(t.left) < Seen(t.right) then Seen(t.right) else Seen(t.left)
  }

  // What the check of a whole tree accepts.
  ghost predicate Passes(t: Shape) {
    t.Bin? ==> t.color == BLACK && Clean(t) && Level(t, 0, BlackHeight(t))
  }

  function Deeper(a: nat, b: nat): nat {
    if a < b then b else a
  }

  // An end of a branch: the black heights of all of them must agree.
  function AtEnd(c: Check, level: nat, height: nat): Check {
    var rbh := if c.rbh == 0 then height else c.rbh;
    Check(if rbh != height then 3 else c.fini, rbh, Deeper(c.maxd, level))
  }

  // What the check of t makes of the findings c so far.
  ghost function Verdict(t: Shape, c: Check, level: nat, cur: nat): Check
    decreases t
  {
    if t.Leaf? || c.fini != 0 then c
    else if t.color != BLACK && t.color != RED then c.(fini := 2)
    else
      var h := cur + Unit(t.color);
      if t.left.Leaf? then AtEnd(c, level, h)
      else if t.color == RED && t.left.color == RED then c.(fini := 4)
      else if t.node.key < t.left.node.key then c.(fini := 5)
      else
        var d := Verdict(t.left, c, level + 1, h);
        if t.right.Leaf? then AtEnd(d, level, h)
        else if t.color == RED && t.right.color == RED then d.(fini := 4)
        else if t.node.key > t.right.node.key then d.(fini := 5)
        else Verdict(t.right, d, level + 1, h)
  }

  // The findings are those of Verdict.
  method CheckSubtree(tree: Tree, node: RbNode, ghost p: Path, ghost t: Shape,
                      c: Check, level: nat, curheight: nat)
    returns (r: Check)
    requires tree.Holds(p, t) && t.Bin? && node == t.node
    ensures r == Verdict(t, c, level, curheight)
    decreases t
  {
    r := c;
    if r.fini != 0 {
      return;
    }
    tree.See(p, t);
    var height := curheight;
    if node.color == BLACK {
      height := height + 1;
    } else if node.color != RED {
      r := r.(fini := 2);
      return;
    }
    TurnLeft(tree, p, t);
    if node.left == tree.nil {
      r := AtEnd(r, level, height);
      return;
    }
    tree.See(ToLeft(p, t), t.left);
    if node.color == RED && node.left.color == RED {
      r := r.(fini := 4);
      return;
    }
    if node.key < node.left.key {
      r := r.(fini := 5);
      return;
    }
    r := CheckSubtree(tree, node.left, ToLeft(p, t), t.left, r, level + 1, height);
    TurnRight(tree, p, t);
    if node.right == tree.nil {
      r := AtEnd(r, level, height);
      return;
    }
    tree.See(ToRight(p, t), t.right);
    if node.color == RED && node.right.color == RED {
      r := r.(fini := 4);
      return;
    }
    if node.key > node.right.key {
      r := r.(fini := 5);
      return;
    }
    r := CheckSubtree(tree, node.right, ToRight(p, t), t.right, r, level + 1, height);
  }

  lemma {:induction false} LevelHeight(t: Shape, cur: nat, h: nat)
    requires t.Bin? && Level(t, cur, h)
    ensures h == cur + BlackHeight(t)
  {
    if t.left.Bin? {
      LevelHeight(t.left, cur + Unit(t.color), h);
    }
  }

  lemma CleanParts(t: Shape)
    requires t.Bin? && t.left.Bin?
    ensures Clean(t) <==>
      && (t.color == RED || t.color == BLACK) && Clean(t.left) && Clean(t.right)
      && !(t.color == RED && t.left.color == RED) && t.left.node.key <= t.node.key
      && (t.right.Bin? ==> !(t.color == RED && t.right.color == RED) && t.node.key <= t.right.node.key)
  {
  }

  // No fault is found exactly when there is none where the check comes; then it
  // learns the black height of the leftmost branch
  lemma {:induction false} VerdictRules(t: Shape, c: Check, level: nat, cur: nat)
    requires t.Bin? && (cur > 0 || t.color == BLACK) && c.fini == 0
    ensures var h, v := if c.rbh == 0 then cur + BlackHeight(t) else c.rbh, Verdict(t, c, level, cur);
            (v.fini == 0 <==> Clean(t) && Level(t, cur, h)) && (v.fini == 0 ==> v.rbh == h)
    decreases t
  {
    if t.left.Leaf? {
    } else if t.color == RED || t.color == BLACK {
      CleanParts(t);
      var h := cur + Unit(t.color);
      var d := Verdict(t.left, c, level + 1, h);
      if !(t.color == RED && t.left.color == RED) && t.left.node.key <= t.node.key {
        VerdictRules(t.left, c, level + 1, h);
        if d.fini == 0 && t.right.Bin? {
          VerdictRules(t.right, d, level + 1, h);
        }
      }
    }
  }

  // and how deep it came.
  lemma {:induction false} VerdictDepth(t: Shape, c: Check, level: nat, cur: nat)
    requires t.Bin? && level > 0 && Verdict(t, c, level, cur).fini == 0
    ensures c.fini == 0 && Verdict(t, c, level, cur).maxd == Deeper(c.maxd, level - 1 + Seen(t))
    decreases t
  {
    if t.left.Bin? && c.fini == 0 {
      var h := cur + Unit(t.color);
      var d := Verdict(t.left, c, level + 1, h);
      if t.right.Bin? {
        VerdictDepth(t.right, d, level + 1, h);
      }
      VerdictDepth(t.left, c, level + 1, h);
    }
  }

  // A fault that is reported is one of the tree, when there was none before.
  lemma {:induction false} VerdictFault(t: Shape, c: Check, level: nat, cur: nat)
    ensures var v := Verdict(t, c, level, cur);
            && v.fini in {c.fini, 2, 3, 4, 5}
            && (v.fini == 2 ==> c.fini == 2 || !Colored(t))
            && (v.fini == 4 ==> c.fini == 4 || !Parted(t))
            && (v.fini == 5 ==> c.fini == 5 || !Sided(t))
    decreases t
  {
    if t.Bin? && t.left.Bin? {
      var h := cur + Unit(t.color);
      VerdictFault(t.left, c, level + 1, h);
      VerdictFault(t.right, Verdict(t.left, c, level + 1, h), level + 1, h);
    }
  }

  // The heights are not found to differ unless they do.
  lemma {:induction false} VerdictLevel(t: Shape, c: Check, level: nat, cur: nat, h: nat)
    requires Level(t, cur, h) && c.rbh in {0, h} && (cur > 0 || (t.Bin? && t.color == BLACK))
    ensures var v := Verdict(t, c, level, cur); v.rbh in {0, h} && (v.fini == 3 ==> c.fini == 3)
    decreases t
  {
    if t.Bin? && t.left.Bin? {
      var k := cur + Unit(t.color);
      VerdictLevel(t.left, c, level + 1, k, h);
      if t.right.Bin? {
        VerdictLevel(t.right, Verdict(t.left, c, level + 1, k), level + 1, k, h);
      }
    }
  }

  // The check of any tree, be it valid or not.
  method CheckTree(tree: Tree) returns (r: int, blackHeight: nat, maxDepth: nat)
    requires tree.Holds(Top, tree.shape)
    ensures r == 0 <==> Passes(tree.shape)
    ensures r == 0 && tree.shape.Bin? ==> blackHeight == BlackHeight(tree.shape)
    ensures r == 0 ==> maxDepth == Seen(tree.shape)
    ensures r in {0, 1, 2, 3, 4, 5}
    ensures r == 1 <==> !IsBlack(tree.shape)
    ensures r == 2 ==> !Colored(tree.shape)
    ensures r == 3 ==> forall h: nat :: !Level(tree.shape, 0, h)
    ensures r == 4 ==> !Parted(tree.shape)
    ensures r == 5 ==> !Sided(tree.shape)
  {
    tree.HeadNotNil(Top, tree.shape);
    tree.See(Top, tree.shape);
    r, blackHeight, maxDepth := 0, 0, 0;
    if tree.root == tree.nil {
      return;
    }
    if tree.root.color != BLACK {
      r := 1;
      return;
    }
    var check := CheckSubtree(tree, tree.root, Top, tree.shape, Check(0, 0, 0), 1, 0);
    VerdictRules(tree.shape, Check(0, 0, 0), 1, 0);
    if check.fini == 0 {
      VerdictDepth(tree.shape, Check(0, 0, 0), 1, 0);
    }
    VerdictFault(tree.shape, Check(0, 0, 0), 1, 0);
    forall h: nat | Level(tree.shape, 0, h) ensures check.fini != 3 {
      VerdictLevel(tree.shape, Check(0, 0, 0), 1, 0, h);
    }
    return check.fini, check.rbh, check.maxd;
  }

  // ------------------------------------------------- what a passed check means

  // The children of an ascending tree are on their sides of the root.
  lemma HeadsAscend(t: Shape)
    requires t.Bin? && Ascending(Inorder(t))
    ensures Ascending(Inorder(t.left)) && Ascending(Inorder(t.right))
    ensures t.left.Bin? ==> t.left.node.key <= t.node.key
    ensures t.right.Bin? ==> t.node.key <= t.right.node.key
  {
    var l, r := Inorder(t.left), Inorder(t.right);
    var e := l + [t.node] + r;
    assert e == Inorder(t) && e[..|l|] == l && e[|l| + 1..] == r && e[|l|] == t.node;
    if t.left.Bin? {
      InorderNodes(t.left, t.left.node);
      var i :| 0 <= i < |l| && l[i] == t.left.node;
      assert e[i] == l[i];
    }
    if t.right.Bin? {
      InorderNodes(t.right, t.right.node);
      var i :| 0 <= i < |r| && r[i] == t.right.node;
      assert e[|l| + 1 + i] == r[i];
    }
  }

  lemma {:induction false} RulesLevel(t: Shape, cur: nat)
    requires RedBlack(t) && Ascending(Inorder(t))
    ensures Clean(t) && Level(t, cur, cur + BlackHeight(t))
  {
    if t.Bin? {
      HeadsAscend(t);
      RulesLevel(t.left, cur + Unit(t.color));
      RulesLevel(t.right, cur + Unit(t.color));
    }
  }

  // Every sound tree passes.
  lemma SoundPasses(tree: Tree)
    requires tree.Sound()
    ensures Passes(tree.shape)
  {
    if tree.shape.Bin? {
      RulesLevel(tree.shape, 0);
    }
  }

  // ------------------------------------------ what a pass leaves open: rules

  // Below a node without a left child, where the check does not come, there is
  // nothing, or a red leaf below a black node.
  ghost predicate SkippedFine(t: Shape) {
    t.Bin? ==>
      if t.left.Bin? then SkippedFine(t.left) && SkippedFine(t.right)
      else t.right.Leaf? || (t.color == BLACK && t.right == NewLeaf(t.right.node))
  }

  lemma NoHeight(t: Shape)
    requires RedBlack(t) && BlackHeight(t) == 0 && t.Bin?
    ensures t == NewLeaf(t.node)
  {
    assert IsBlack(t.left) && IsBlack(t.right);
  }

  lemma {:induction false} LevelRules(t: Shape, cur: nat, h: nat)
    requires Clean(t) && Level(t, cur, h)
    ensures RedBlack(t) <==> SkippedFine(t)
  {
    if t.Bin? {
      if t.left.Bin? {
        var c := cur + Unit(t.color);
        LevelHeight(t.left, c, h);
        LevelRules(t.left, c, h);
        if t.right.Bin? {
          LevelHeight(t.right, c, h);
          LevelRules(t.right, c, h);
        }
      } else if t.right.Bin? && RedBlack(t) {
        NoHeight(t.right);
      }
    }
  }

  // A tree that passes obeys the rules of color and height if and only if what
  // the check skipped does.
  lemma PassesRules(t: Shape)
    requires Passes(t)
    ensures RedBlack(t) && IsBlack(t) <==> SkippedFine(t)
  {
    if t.Bin? {
      LevelRules(t, 0, BlackHeight(t));
    }
  }

  // The depth is then short by one level at most, which is skipped.
  lemma {:induction false} SeenDepth(t: Shape)
    requires SkippedFine(t)
    ensures Seen(t) <= Depth(t) <= Seen(t) + 1
  {
    if t.Bin? && t.left.Bin? {
      SeenDepth(t.left);
      SeenDepth(t.right);
    }
  }

  // No node has a right child only.
  ghost predicate NoRightOnly(t: Shape) {
    t.Bin? ==> (t.left.Leaf? ==> t.right.Leaf?) && NoRightOnly(t.left) && NoRightOnly(t.right)
  }

  lemma {:induction false} AllSeen(t: Shape)
    requires NoRightOnly(t)
    ensures Seen(t) == Depth(t)
  {
    if t.Bin? {
      AllSeen(t.left);
      AllSeen(t.right);
    }
  }

  // ------------------------------------------- what a pass leaves open: keys

  ghost function Leftmost(t: Shape): (n: RbNode)
    requires t.Bin?
    ensures Inorder(t) != [] && n == Inorder(t)[0]
  {
    if t.left.Leaf? then t.node else Leftmost(t.left)
  }

  ghost function Rightmost(t: Shape): (n: RbNode)
    requires t.Bin?
    ensures Inorder(t) != [] && n == Inorder(t)[|Inorder(t)| - 1]
  {
    if t.right.Leaf? then t.node else Rightmost(t.right)
  }

  // The comparisons that the check does not make: with the last node of a left
  // subtree and the first of a right one, if they are not children, and all below
  // a node without a left child.
  ghost predicate SkippedKeys(t: Shape) {
    t.Bin? ==>
      if t.left.Leaf? then t.right.Bin? ==> t.node.key <= Leftmost(t.right).key && Ascending(Inorder(t.right))
      else
        && SkippedKeys(t.left) && SkippedKeys(t.right)
        && (t.left.right.Bin? ==> Rightmost(t.left).key <= t.node.key)
        && (t.right.Bin? && t.right.left.Bin? ==> t.node.key <= Leftmost(t.right).key)
  }

  // A sequence with n after l and before r.
  lemma AscendingCut(l: seq<RbNode>, n: RbNode, r: seq<RbNode>)
    requires Ascending(l + [n] + r)
    ensures Ascending(l) && (l != [] ==> l[|l| - 1].key <= n.key)
    ensures Ascending(r) && (r != [] ==> n.key <= r[0].key)
  {
    var e := l + [n] + r;
    assert e[..|l|] == l && e[|l| + 1..] == r && e[|l|] == n;
    assert l != [] ==> l[|l| - 1] == e[|l| - 1];
    assert r != [] ==> r[0] == e[|l| + 1];
  }

  lemma AscendingJoin(l: seq<RbNode>, n: RbNode, r: seq<RbNode>)
    requires Ascending(l) && (l != [] ==> l[|l| - 1].key <= n.key)
    requires Ascending(r) && (r != [] ==> n.key <= r[0].key)
    ensures Ascending(l + [n] + r)
  {
    var e := l + [n] + r;
    forall i, j | 0 <= i < j < |e| ensures e[i].key <= e[j].key {
      assert i < |l| ==> e[i].key <= l[|l| - 1].key;
      assert j > |l| ==> r[0].key <= e[j].key;
    }
  }

  lemma AscendingParts(t: Shape)
    requires t.Bin?
    ensures Ascending(Inorder(t)) <==>
      && Ascending(Inorder(t.left)) && (t.left.Bin? ==> Rightmost(t.left).key <= t.node.key)
      && Ascending(Inorder(t.right)) && (t.right.Bin? ==> t.node.key <= Leftmost(t.right).key)
  {
    if Ascending(Inorder(t)) {
      AscendingCut(Inorder(t.left), t.node, Inorder(t.right));
    } else if Ascending(Inorder(t.left)) && Ascending(Inorder(t.right))
              && (t.left.Bin? ==> Rightmost(t.left).key <= t.node.key)
              && (t.right.Bin? ==> t.node.key <= Leftmost(t.right).key) {
      AscendingJoin(Inorder(t.left), t.node, Inorder(t.right));
    }
  }

  lemma {:induction false} SidedOrder(t: Shape)
    requires Sided(t)
    ensures Ascending(Inorder(t)) <==> SkippedKeys(t)
  {
    if t.Bin? {
      AscendingParts(t);
      if t.left.Bin? {
        SidedOrder(t.left);
        SidedOrder(t.right);
      }
    }
  }

  // A tree that passes has ascending keys if and only if those comparisons hold.
  lemma PassesOrder(t: Shape)
    requires Passes(t)
    ensures Ascending(Inorder(t)) <==> SkippedKeys(t)
  {
    if t.Bin? {
      SidedOrder(t);
    }
  }

  // A node without a left child may have anything on its right: the black heights
  // differ, and the keys are not ascending.
  lemma PassesWrongly(a: RbNode, b: RbNode) returns (t: Shape)
    requires b.key < a.key
    ensures Passes(t) && Inorder(t) == [a, b] && !RedBlack(t) && !Ascending(Inorder(t))
  {
    var low := Bin(BLACK, Leaf, b, Leaf);
    t := Bin(BLACK, Leaf, a, low);
    assert Inorder(low) == [b] && Inorder(t) == [] + [a] + [b];
    assert BlackHeight(low) == 1;
    assert Inorder(t)[0].key > Inorder(t)[1].key;
  }

  lemma LeafPasses(n: RbNode)
    ensures var t := NewLeaf(n); Clean(t) && Level(t, 2, 2) && NoRightOnly(t) && RedBlack(t) && Inorder(t) == [n]
  {
  }

  // The check comes to every node, the rules hold, and still the keys are not
  // ascending: an inner grandchild is on the wrong side of the root.
  lemma PassesUnordered(a: RbNode, b: RbNode, c: RbNode, d: RbNode, e: RbNode) returns (t: Shape)
    requires c.key <= b.key <= a.key < d.key && a.key <= e.key
    ensures Passes(t) && NoRightOnly(t) && RedBlack(t)
    ensures Inorder(t) == [c, b, d, a, e] && !Ascending(Inorder(t))
  {
    var l, r := Bin(BLACK, NewLeaf(c), b, NewLeaf(d)), Bin(BLACK, Leaf, e, Leaf);
    t := Bin(BLACK, l, a, r);
    LeafPasses(c);
    LeafPasses(d);
    assert Inorder(r) == [e];
    assert Inorder(l) == [c, b, d] && Inorder(t) == [c, b, d] + [a] + [e];
    assert BlackHeight(l) == BlackHeight(r) == 1;
    assert Clean(l) && Clean(r) && Level(l, 1, 2) && Level(r, 1, 2);
    assert NoRightOnly(l) && NoRightOnly(r) && RedBlack(l) && RedBlack(r);
    assert Inorder(t)[2].key > Inorder(t)[3].key;
  }
}
