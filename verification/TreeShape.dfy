/**
  The mathematical side of the red-black tree: coloured binary trees whose
  entries are of an arbitrary type, and paths from the top of a tree down to a
  position in it.  Nothing here knows about the heap or about keys.
*/
module TreeShape {
  import opened Common


  datatype Tree<N> = Leaf | Fork(left: Tree<N>, node: N, red: bool, right: Tree<N>)

  // A tree with a hole: each step records the node above the hole, which side
  // the hole is on, and the subtree on the other side.
  datatype Path<N> =
    | Top
    | LeftOf(node: N, red: bool, other: Tree<N>, up: Path<N>)
    | RightOf(node: N, red: bool, other: Tree<N>, up: Path<N>)

  // A position in a tree.
  datatype Zipper<N> = At(path: Path<N>, tree: Tree<N>)

  function Fill<N>(c: Path<N>, t: Tree<N>): Tree<N> {
    match c
    case Top => t
    case LeftOf(n, red, other, up) => Fill(up, Fork(t, n, red, other))
    case RightOf(n, red, other, up) => Fill(up, Fork(other, n, red, t))
  }

  function Whole<N>(z: Zipper<N>): Tree<N> {
    Fill(z.path, z.tree)
  }

  function Up<N>(z: Zipper<N>): (r: Zipper<N>)
    requires !z.path.Top?
    ensures r.tree.Fork? && r.path == z.path.up && r.tree.node == z.path.node
    ensures Whole(r) == Whole(z)
  {
    match z.path
    case LeftOf(n, red, other, up) => At(up, Fork(z.tree, n, red, other))
    case RightOf(n, red, other, up) => At(up, Fork(other, n, red, z.tree))
  }

  function DownLeft<N>(z: Zipper<N>): (r: Zipper<N>)
    requires z.tree.Fork?
    ensures Whole(r) == Whole(z)
  {
    At(LeftOf(z.tree.node, z.tree.red, z.tree.right, z.path), z.tree.left)
  }

  function DownRight<N>(z: Zipper<N>): (r: Zipper<N>)
    requires z.tree.Fork?
    ensures Whole(r) == Whole(z)
  {
    At(RightOf(z.tree.node, z.tree.red, z.tree.left, z.path), z.tree.right)
  }

  function Painted<N>(z: Zipper<N>, red: bool): Zipper<N>
    requires z.tree.Fork?
  {
    At(z.path, Fork(z.tree.left, z.tree.node, red, z.tree.right))
  }

  function Depth<N>(c: Path<N>): nat {
    if c.Top? then 0 else 1 + Depth(c.up)
  }

  // ----- nodes

  ghost function Nodes<N>(t: Tree<N>): set<N> {
    if t.Leaf? then {} else Nodes(t.left) + {t.node} + Nodes(t.right)
  }

  ghost function PathNodes<N>(c: Path<N>): set<N> {
    if c.Top? then {} else {c.node} + Nodes(c.other) + PathNodes(c.up)
  }

  ghost predicate Distinct<N>(t: Tree<N>) {
    t.Fork? ==>
      && t.node !in Nodes(t.left) && t.node !in Nodes(t.right)
      && Nodes(t.left) !! Nodes(t.right)
      && Distinct(t.left) && Distinct(t.right)
  }

  // The nodes of the path differ from one another and from the set "below".
  ghost predicate DistinctPath<N>(c: Path<N>, below: set<N>) {
    !c.Top? ==>
      && c.node !in below && c.node !in Nodes(c.other)
      && Nodes(c.other) !! below
      && Distinct(c.other)
      && DistinctPath(c.up, below + {c.node} + Nodes(c.other))
  }

  lemma DistinctPathDisjoint<N>(c: Path<N>, below: set<N>)
    requires DistinctPath(c, below)
    ensures PathNodes(c) !! below
  {
  }

  lemma {:induction false} DistinctPathGrows<N>(c: Path<N>, below: set<N>, more: set<N>)
    requires DistinctPath(c, below) && more !! PathNodes(c)
    ensures DistinctPath(c, below + more)
  {
    if !c.Top? {
      DistinctPathGrows(c.up, below + {c.node} + Nodes(c.other), more);
      assert below + more + {c.node} + Nodes(c.other) == below + {c.node} + Nodes(c.other) + more;
    }
  }

  lemma {:induction false} DistinctPathShrinks<N>(c: Path<N>, below: set<N>, less: set<N>)
    requires DistinctPath(c, below) && less <= below
    ensures DistinctPath(c, less)
  {
    if !c.Top? {
      DistinctPathShrinks(c.up, below + {c.node} + Nodes(c.other), less + {c.node} + Nodes(c.other));
    }
  }

  // ----- in-order sequence

  ghost function InOrder<N>(t: Tree<N>): seq<N> {
    if t.Leaf? then [] else InOrder(t.left) + [t.node] + InOrder(t.right)
  }

  // What comes before and after the hole of a path.
  ghost function Before<N>(c: Path<N>): seq<N> {
    match c
    case Top => []
    case LeftOf(_, _, _, up) => Before(up)
    case RightOf(n, _, other, up) => Before(up) + InOrder(other) + [n]
  }

  ghost function After<N>(c: Path<N>): seq<N> {
    match c
    case Top => []
    case LeftOf(n, _, other, up) => [n] + InOrder(other) + After(up)
    case RightOf(_, _, _, up) => After(up)
  }

  lemma {:induction false} InOrderFill<N>(c: Path<N>, t: Tree<N>)
    ensures InOrder(Fill(c, t)) == Before(c) + InOrder(t) + After(c)
  {
    match c
    case Top =>
    case LeftOf(n, red, other, up) =>
      InOrderFill(up, Fork(t, n, red, other));
      Regrouped(Before(up), InOrder(t), [n] + InOrder(other), After(up));
      assert InOrder(t) + [n] + InOrder(other) == InOrder(t) + ([n] + InOrder(other));
    case RightOf(n, red, other, up) =>
      InOrderFill(up, Fork(other, n, red, t));
      Regrouped(Before(up), InOrder(other) + [n], InOrder(t), After(up));
      assert Before(up) + (InOrder(other) + [n]) == Before(up) + InOrder(other) + [n];
  }

  lemma Regrouped<N>(a: seq<N>, b: seq<N>, c: seq<N>, d: seq<N>)
    ensures a + (b + c) + d == a + b + (c + d) == (a + b) + c + d
  {
  }

  lemma {:induction t} InOrderNode<N>(t: Tree<N>, n: N)
    ensures n in InOrder(t) <==> n in Nodes(t)
  {
  }

  // ----- colours and black heights

  predicate IsRed<N>(t: Tree<N>) {
    t.Fork? && t.red
  }

  // No red node has a red child, and every way down meets exactly h black nodes.
  ghost predicate Balanced<N>(t: Tree<N>, h: nat) {
    match t
    case Leaf => h == 0
    case Fork(l, _, true, r) => Balanced(l, h) && Balanced(r, h) && !IsRed(l) && !IsRed(r)
    case Fork(l, _, false, r) => h > 0 && Balanced(l, h - 1) && Balanced(r, h - 1)
  }

  // The path would be balanced if its hole were filled with a tree of black
  // height h; whether that tree may have a red root is a separate question.
  ghost predicate BalancedPath<N>(c: Path<N>, h: nat) {
    !c.Top? ==>
      && Balanced(c.other, h)
      && if c.red then !IsRed(c.other) && c.up != Top && !c.up.red && BalancedPath(c.up, h)
         else BalancedPath(c.up, h + 1)
  }

  ghost predicate RedTop<N>(c: Path<N>) {
    !c.Top? && c.red
  }

  ghost predicate RedBlack<N>(t: Tree<N>) {
    !IsRed(t) && exists h: nat :: Balanced(t, h)
  }

  function Black<N>(t: Tree<N>): Tree<N> {
    if t.Leaf? then t else t.(red := false)
  }

  lemma {:induction false} BalancedFill<N>(c: Path<N>, t: Tree<N>, h: nat) returns (k: nat)
    requires BalancedPath(c, h) && Balanced(t, h)
    requires RedTop(c) ==> !IsRed(t)
    ensures Balanced(Fill(c, t), k)
    ensures c != Top ==> !IsRed(Fill(c, t))
  {
    match c
    case Top => k := h;
    case LeftOf(n, red, other, up) =>
      k := BalancedFill(up, Fork(t, n, red, other), if red then h else h + 1);
    case RightOf(n, red, other, up) =>
      k := BalancedFill(up, Fork(other, n, red, t), if red then h else h + 1);
  }

  // Every position of a balanced tree sits below a balanced path.
  lemma {:induction false} BalancedOpen<N>(c: Path<N>, t: Tree<N>, k: nat) returns (h: nat)
    requires Balanced(Fill(c, t), k) && !IsRed(Fill(c, t))
    ensures BalancedPath(c, h) && Balanced(t, h)
    ensures RedTop(c) ==> !IsRed(t)
  {
    match c
    case Top => h := k;
    case LeftOf(n, red, other, up) =>
      h := BalancedOpen(up, Fork(t, n, red, other), k);
      h := if red then h else h - 1;
    case RightOf(n, red, other, up) =>
      h := BalancedOpen(up, Fork(other, n, red, t), k);
      h := if red then h else h - 1;
  }

  // ----- rotations

  function RotateLeft<N>(t: Tree<N>): Tree<N>
    requires t.Fork? && t.right.Fork?
  {
    Fork(Fork(t.left, t.node, t.red, t.right.left), t.right.node, t.right.red, t.right.right)
  }

  function RotateRight<N>(t: Tree<N>): Tree<N>
    requires t.Fork? && t.left.Fork?
  {
    Fork(t.left.left, t.left.node, t.left.red, Fork(t.left.right, t.node, t.red, t.right))
  }

  lemma RegroupAround<N>(a: seq<N>, x: N, b: seq<N>, y: N, d: seq<N>)
    ensures (a + [x] + b) + [y] + d == a + [x] + (b + [y] + d)
  {
  }

  lemma RotateLeftInOrder<N>(t: Tree<N>)
    requires t.Fork? && t.right.Fork?
    ensures InOrder(RotateLeft(t)) == InOrder(t)
  {
    RegroupAround(InOrder(t.left), t.node, InOrder(t.right.left), t.right.node, InOrder(t.right.right));
  }

  lemma RotateRightInOrder<N>(t: Tree<N>)
    requires t.Fork? && t.left.Fork?
    ensures InOrder(RotateRight(t)) == InOrder(t)
  {
    RotateLeftInOrder(RotateRight(t));
  }

  lemma RotateLeftDistinct<N>(t: Tree<N>)
    requires t.Fork? && t.right.Fork? && Distinct(t)
    ensures Nodes(RotateLeft(t)) == Nodes(t) && Distinct(RotateLeft(t))
  {
  }

  lemma RotateRightDistinct<N>(t: Tree<N>)
    requires t.Fork? && t.left.Fork? && Distinct(t)
    ensures Nodes(RotateRight(t)) == Nodes(t) && Distinct(RotateRight(t))
  {
  }

  lemma SameInOrder<N>(z: Zipper<N>, t: Tree<N>)
    requires InOrder(t) == InOrder(z.tree)
    ensures InOrder(Whole(At(z.path, t))) == InOrder(Whole(z))
  {
    InOrderFill(z.path, z.tree);
    InOrderFill(z.path, t);
  }

  lemma PaintKeeps<N>(z: Zipper<N>, red: bool)
    requires z.tree.Fork?
    ensures InOrder(Whole(Painted(z, red))) == InOrder(Whole(z))
    ensures Nodes(Painted(z, red).tree) == Nodes(z.tree)
  {
    SameInOrder(z, Painted(z, red).tree);
  }

  // ----- repairing one red-red edge

  // The tree in the hole is red and sound in itself; the node above the hole
  // may be red as well.
  ghost predicate RedBelow<N>(z: Zipper<N>, h: nat) {
    IsRed(z.tree) && Balanced(z.tree, h) && BalancedPath(z.path, h)
  }

  // A red node always has a black node above it.
  lemma RedBelowGrandparent<N>(z: Zipper<N>, h: nat)
    requires RedBelow(z, h) && RedTop(z.path)
    ensures !z.path.up.Top? && !z.path.up.red
    ensures Balanced(z.path.other, h) && !IsRed(z.path.other)
    ensures Balanced(z.path.up.other, h) && BalancedPath(z.path.up.up, h + 1)
  {
    assert BalancedPath(z.path.up, h);
  }

  // Parent and uncle turn black, the grandparent red.
  lemma RecolouredSound<N>(z: Zipper<N>, h: nat)
    requires RedBelow(z, h) && RedTop(z.path) && IsRed(z.path.up.other)
    ensures
      var p := Up(Painted(Up(z), false));
      var u := if z.path.up.LeftOf? then Painted(DownRight(p), false) else Painted(DownLeft(p), false);
      RedBelow(Painted(Up(u), true), h + 1)
  {
    RedBelowGrandparent(z, h);
  }

  // An inner grandchild is first turned into an outer one.
  lemma InnerRotatedSound<N>(z: Zipper<N>, h: nat)
    requires RedBelow(z, h) && RedTop(z.path)
    ensures z.path.RightOf? ==> RedBelow(DownLeft(At(Up(z).path, RotateLeft(Up(z).tree))), h)
    ensures z.path.LeftOf? ==> RedBelow(DownRight(At(Up(z).path, RotateRight(Up(z).tree))), h)
  {
    RedBelowGrandparent(z, h);
  }

  // The parent of an outer grandchild turns black and takes the place of the grandparent.
  lemma OuterRotatedSound<N>(z: Zipper<N>, h: nat)
    requires RedBelow(z, h) && RedTop(z.path) && !IsRed(z.path.up.other)
    ensures
      var r := Painted(Up(Painted(Up(z), false)), true);
      && (z.path.LeftOf? && z.path.up.LeftOf? ==> RedBelow(DownLeft(At(r.path, RotateRight(r.tree))), h))
      && (z.path.RightOf? && z.path.up.RightOf? ==> RedBelow(DownRight(At(r.path, RotateLeft(r.tree))), h))
  {
    RedBelowGrandparent(z, h);
  }

  // A red node in an empty hole of a red-black tree.
  lemma NewBelow<N>(z: Zipper<N>, t: Tree<N>) returns (h: nat)
    requires RedBlack(t) && t == Fill(z.path, Leaf)
    requires z.tree.Fork? && z.tree.left.Leaf? && z.tree.right.Leaf?
    ensures RedBelow(Painted(z, true), h)
  {
    var k: nat :| Balanced(t, k);
    h := BalancedOpen(z.path, Leaf, k);
  }

  // The last step of an insertion.
  lemma RootBlackened<N>(z: Zipper<N>, h: nat)
    requires RedBelow(z, h) && !RedTop(z.path)
    ensures Whole(z).Fork? && RedBlack(Painted(At(Top, Whole(z)), false).tree)
  {
    var k := BalancedFill(z.path, z.tree, h);
    var t := Whole(z);
    assert t.Fork? by { InOrderFill(z.path, z.tree); }
    assert Balanced(Painted(At(Top, t), false).tree, if t.red then k + 1 else k);
  }

  // ----- finding a node

  lemma {:induction false} Locate<N>(z: Zipper<N>, n: N) returns (r: Zipper<N>)
    requires n in Nodes(z.tree)
    ensures Whole(r) == Whole(z) && r.tree.Fork? && r.tree.node == n
    decreases z.tree
  {
    if n == z.tree.node {
      r := z;
    } else if n in Nodes(z.tree.left) {
      r := Locate(DownLeft(z), n);
    } else {
      r := Locate(DownRight(z), n);
    }
  }

  // The whole sequence, split at the node of a position.
  lemma InOrderAround<N>(z: Zipper<N>)
    requires z.tree.Fork?
    ensures InOrder(Whole(z)) ==
      (Before(z.path) + InOrder(z.tree.left)) + [z.tree.node] + (InOrder(z.tree.right) + After(z.path))
  {
    InOrderFill(z.path, z.tree);
    RegroupAround(Before(z.path), z.tree.node, [], z.tree.node, After(z.path));
  }

  lemma {:induction false} InOrderDistinct<N>(t: Tree<N>)
    requires Distinct(t)
    ensures forall i, j :: 0 <= i < j < |InOrder(t)| ==> InOrder(t)[i] != InOrder(t)[j]
  {
    if t.Fork? {
      InOrderDistinct(t.left);
      InOrderDistinct(t.right);
      InOrderNode(t.left, t.node);
      InOrderNode(t.right, t.node);
      var a, n, b := InOrder(t.left), t.node, InOrder(t.right);
      forall k | k in a
        ensures k !in b
      {
        InOrderNode(t.left, k);
        InOrderNode(t.right, k);
      }
      JoinDistinct(a, n, b);
    }
  }

  lemma JoinDistinct<N>(a: seq<N>, n: N, b: seq<N>)
    requires forall i, j :: 0 <= i < j < |a| ==> a[i] != a[j]
    requires forall i, j :: 0 <= i < j < |b| ==> b[i] != b[j]
    requires n !in a && n !in b && forall k :: k in a ==> k !in b
    ensures var s := a + [n] + b; forall i, j :: 0 <= i < j < |s| ==> s[i] != s[j]
  {
    var s := a + [n] + b;
    forall i, j | 0 <= i < j < |s|
      ensures s[i] != s[j]
    {
      if i < |a| < j {
        assert s[i] == a[i] && a[i] in a && s[j] == b[j - |a| - 1];
      }
    }
  }

  // ----- repairing one missing black node

  // The tree in the hole is one black node short of what the path needs, unless
  // its root is red and may simply be painted black.
  ghost predicate Short<N>(z: Zipper<N>, h: nat) {
    && BalancedPath(z.path, h + 1)
    && if IsRed(z.tree) then Balanced(Black(z.tree), h + 1) else Balanced(z.tree, h)
  }

  // A red sibling is turned into a black one, under a red parent.
  lemma RedSiblingSound<N>(z: Zipper<N>, h: nat)
    requires Short(z, h) && !IsRed(z.tree) && !z.path.Top?
    ensures z.path.other.Fork? && Balanced(z.path.other, h + 1)
    ensures z.path.other.red ==> !z.path.red
    ensures z.path.other.red && z.path.LeftOf? ==>
      var p := Painted(Up(Painted(DownRight(Up(z)), false)), true);
      var r := DownLeft(DownLeft(At(p.path, RotateLeft(p.tree))));
      Short(r, h) && r.path.other.Fork? && !r.path.other.red
    ensures z.path.other.red && z.path.RightOf? ==>
      var p := Painted(Up(Painted(DownLeft(Up(z)), false)), true);
      var r := DownRight(DownRight(At(p.path, RotateRight(p.tree))));
      Short(r, h) && r.path.other.Fork? && !r.path.other.red
  {
  }

  // A black sibling without red children turns red; the lack moves up.
  lemma BlackSiblingSound<N>(z: Zipper<N>, h: nat)
    requires Short(z, h) && !IsRed(z.tree) && !z.path.Top?
    requires z.path.other.Fork? && !z.path.other.red
    requires !IsRed(z.path.other.left) && !IsRed(z.path.other.right)
    ensures
      var w := if z.path.LeftOf? then DownRight(Up(z)) else DownLeft(Up(z));
      Short(Up(Painted(w, true)), if z.path.red then h else h + 1)
  {
  }

  // A black sibling whose only red child is the near one is rotated away from the hole.
  lemma NearNephewSound<N>(z: Zipper<N>, h: nat)
    requires Short(z, h) && !IsRed(z.tree) && !z.path.Top?
    requires z.path.other.Fork? && !z.path.other.red
    ensures z.path.LeftOf? && IsRed(z.path.other.left) && !IsRed(z.path.other.right) ==>
      var w := Painted(Up(Painted(DownLeft(DownRight(Up(z))), false)), true);
      var r := DownLeft(Up(At(w.path, RotateRight(w.tree))));
      Short(r, h) && r.tree == z.tree && r.path.other.Fork? && !r.path.other.red && IsRed(r.path.other.right)
    ensures z.path.RightOf? && IsRed(z.path.other.right) && !IsRed(z.path.other.left) ==>
      var w := Painted(Up(Painted(DownRight(DownLeft(Up(z))), false)), true);
      var r := DownRight(Up(At(w.path, RotateLeft(w.tree))));
      Short(r, h) && r.tree == z.tree && r.path.other.Fork? && !r.path.other.red && IsRed(r.path.other.left)
  {
    RedNephews(z, h);
  }

  lemma RedNephews<N>(z: Zipper<N>, h: nat)
    requires Short(z, h) && !z.path.Top? && z.path.other.Fork? && !z.path.other.red
    ensures
      var Fork(l, _, _, r) := z.path.other;
      && Balanced(l, h) && Balanced(r, h)
      && (IsRed(l) ==> Balanced(l.left, h) && Balanced(l.right, h) && !IsRed(l.left) && !IsRed(l.right))
      && (IsRed(r) ==> Balanced(r.left, h) && Balanced(r.right, h) && !IsRed(r.left) && !IsRed(r.right))
  {
  }

  // The tree that takes the place of the parent when the far child of the sibling is red.
  function Closed<N>(z: Zipper<N>): Tree<N>
    requires !z.path.Top? && z.path.other.Fork?
    requires if z.path.LeftOf? then z.path.other.right.Fork? else z.path.other.left.Fork?
  {
    var p, w := z.path.node, z.path.other;
    if z.path.LeftOf? then
      RotateLeft(Fork(z.tree, p, false, Fork(w.left, w.node, z.path.red, Black(w.right))))
    else
      RotateRight(Fork(Fork(Black(w.left), w.node, z.path.red, w.right), p, false, z.tree))
  }

  lemma ClosedSound<N>(z: Zipper<N>, h: nat)
    requires Short(z, h) && !IsRed(z.tree) && !z.path.Top?
    requires z.path.other.Fork? && !z.path.other.red
    requires IsRed(if z.path.LeftOf? then z.path.other.right else z.path.other.left)
    ensures RedBlack(Fill(z.path.up, Closed(z)))
  {
    RedNephews(z, h);
    var k := BalancedFill(z.path.up, Closed(z), if z.path.red then h + 1 else h + 2);
  }

  // Below the top of a path, the topmost node does not depend on what is in the hole.
  lemma {:induction false} SameTop<N>(c: Path<N>, a: Tree<N>, b: Tree<N>)
    requires !c.Top?
    ensures Fill(c, a).Fork? && Fill(c, b).Fork? && Fill(c, a).node == Fill(c, b).node
    ensures Fill(c, a).node in PathNodes(c)
  {
    if !c.up.Top? {
      SameTop(c.up, Up(At(c, a)).tree, Up(At(c, b)).tree);
    }
  }

  lemma ShortFinished<N>(z: Zipper<N>, h: nat)
    requires Short(z, h) && (z.path.Top? || IsRed(z.tree))
    ensures RedBlack(Whole(At(z.path, Black(z.tree))))
    ensures InOrder(Whole(At(z.path, Black(z.tree)))) == InOrder(Whole(z))
  {
    var k := if IsRed(z.tree) then h + 1 else h;
    if IsRed(z.tree) {
      k := BalancedFill(z.path, Black(z.tree), h + 1);
    }
    assert Balanced(Whole(At(z.path, Black(z.tree))), k);
    SameInOrder(z, Black(z.tree));
  }

  function OnlyChild<N>(t: Tree<N>): Tree<N>
    requires t.Fork?
  {
    if t.left.Leaf? then t.right else t.left
  }

  // Taking out a node with at most one child: a red one leaves the tree sound,
  // a black one leaves its place one black node short.
  lemma ExcisedSound<N>(z: Zipper<N>) returns (h: nat)
    requires RedBlack(Whole(z)) && z.tree.Fork?
    requires z.tree.left.Leaf? || z.tree.right.Leaf?
    ensures z.tree.red ==> RedBlack(Whole(At(z.path, OnlyChild(z.tree))))
    ensures !z.tree.red ==> Short(At(z.path, OnlyChild(z.tree)), h)
  {
    var k: nat :| Balanced(Whole(z), k);
    h := BalancedOpen(z.path, z.tree, k);
    if z.tree.red {
      var k' := BalancedFill(z.path, OnlyChild(z.tree), h);
    } else {
      h := h - 1;
    }
  }

  lemma ReplacedSound<N>(z: Zipper<N>, n: N)
    requires RedBlack(Whole(z)) && z.tree.Fork?
    ensures RedBlack(Whole(At(z.path, Fork(z.tree.left, n, z.tree.red, z.tree.right))))
  {
    var t := Fork(z.tree.left, n, z.tree.red, z.tree.right);
    var k: nat :| Balanced(Whole(z), k);
    var h := BalancedOpen(z.path, z.tree, k);
    var k' := BalancedFill(z.path, t, h);
  }

  lemma ReplacedNodes<N>(z: Zipper<N>, n: N)
    requires z.tree.Fork? && Distinct(z.tree) && DistinctPath(z.path, Nodes(z.tree))
    ensures Nodes(Fork(z.tree.left, n, z.tree.red, z.tree.right)) == Nodes(z.tree) - {z.tree.node} + {n}
    ensures z.tree.node !in PathNodes(z.path)
  {
    DistinctPathDisjoint(z.path, Nodes(z.tree));
  }

  // The sequence with one entry left out.
  function Without<N>(s: seq<N>, i: nat): (r: seq<N>)
    requires i < |s|
    ensures |r| == |s| - 1
  {
    s[..i] + s[i + 1..]
  }

  lemma ExcisedInOrder<N>(z: Zipper<N>)
    requires z.tree.Fork?
    requires z.tree.left.Leaf? || z.tree.right.Leaf?
    ensures
      var s, i := InOrder(Whole(z)), |Before(z.path)| + |InOrder(z.tree.left)|;
      i < |s| && s[i] == z.tree.node && InOrder(Whole(At(z.path, OnlyChild(z.tree)))) == Without(s, i)
  {
    InOrderAround(z);
    InOrderFill(z.path, OnlyChild(z.tree));
    var front, l, r, back := Before(z.path), InOrder(z.tree.left), InOrder(z.tree.right), After(z.path);
    WithoutMiddle(front + l, z.tree.node, r + back);
    Regrouped(front, l, r, back);
    if z.tree.left.Leaf? {
      assert front + l == front;
    } else {
      assert r + back == back;
    }
  }

  lemma WithoutMiddle<N>(a: seq<N>, n: N, b: seq<N>)
    ensures Without(a + [n] + b, |a|) == a + b
  {
  }

  // A node put in the place of another takes over its place in the sequence.
  lemma ReplacedInOrder<N>(z: Zipper<N>, n: N, i: nat)
    requires z.tree.Fork? && Distinct(Whole(z))
    requires i < |InOrder(Whole(z))| && InOrder(Whole(z))[i] == z.tree.node
    ensures
      var t := Fork(z.tree.left, n, z.tree.red, z.tree.right);
      InOrder(Whole(At(z.path, t))) == InOrder(Whole(z))[i := n]
  {
    var t := Fork(z.tree.left, n, z.tree.red, z.tree.right);
    InOrderAround(z);
    InOrderAround(At(z.path, t));
    InOrderDistinct(Whole(z));
    assert InOrder(Whole(z))[|Before(z.path) + InOrder(z.tree.left)|] == z.tree.node;
  }

  // ----- how deep a red-black tree can be

  function Height<N>(t: Tree<N>): nat {
    if t.Leaf? then 0 else
      var l, r := Height(t.left), Height(t.right);
      1 + if l > r then l else r
  }

  lemma {:induction false} BalancedBounds<N>(t: Tree<N>, h: nat)
    requires Balanced(t, h)
    ensures Height(t) <= 2 * h + (if IsRed(t) then 1 else 0)
    ensures Pow2(h) <= |InOrder(t)| + 1
  {
    if t.Fork? {
      var k := if t.red then h else h - 1;
      BalancedBounds(t.left, k);
      BalancedBounds(t.right, k);
    }
  }

  // The height is at most twice the binary logarithm of the number of nodes plus one.
  lemma HeightBound<N>(t: Tree<N>)
    requires RedBlack(t)
    ensures var n := |InOrder(t)|; Pow2(Height(t)) <= (n + 1) * (n + 1)
  {
    var h: nat :| Balanced(t, h);
    var n := |InOrder(t)|;
    BalancedBounds(t, h);
    Pow2Monotone(Height(t), 2 * h);
    Pow2Sum(h, h);
    Squares(Pow2(h), n + 1);
  }

  lemma Squares(a: nat, b: nat)
    requires a <= b
    ensures a * a <= b * b
  {
    assert a * a <= a * b <= b * b;
  }
}
