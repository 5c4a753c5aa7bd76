/**
  What each node's fields must hold for a tree to be laid out in memory.  A
  memory is a map from nodes to field values; a rotation is then a handful of
  updates, and everything it does not mention stays as it was.
*/
module TreeLinks {
  import opened TreeShape

  datatype Links<N> = Links(left: N, right: N, parent: N, red: bool)

  type Memory<N> = map<N, Links<N>>

  // The two sentinels of a tree.
  datatype Ends<N> = Ends(head: N, nil: N)

  function Ref<N>(t: Tree<N>, e: Ends<N>): N {
    if t.Leaf? then e.nil else t.node
  }

  function Above<N>(c: Path<N>, e: Ends<N>): N {
    if c.Top? then e.head else c.node
  }

  // t hangs below p.
  ghost predicate LaidTree<N>(t: Tree<N>, p: N, e: Ends<N>, m: Memory<N>) {
    t.Fork? ==>
      && t.node in m
      && m[t.node] == Links(Ref(t.left, e), Ref(t.right, e), p, t.red)
      && LaidTree(t.left, t.node, e, m)
      && LaidTree(t.right, t.node, e, m)
  }

  // c leads from the header down to its hole, which child occupies.
  ghost predicate LaidPath<N>(c: Path<N>, child: N, e: Ends<N>, m: Memory<N>) {
    match c
    case Top =>
      && e.head in m
      && m[e.head].left == child && m[e.head].right == e.nil && !m[e.head].red
    case LeftOf(n, red, other, up) =>
      && n in m && m[n] == Links(child, Ref(other, e), Above(up, e), red)
      && LaidTree(other, n, e, m) && LaidPath(up, n, e, m)
    case RightOf(n, red, other, up) =>
      && n in m && m[n] == Links(Ref(other, e), child, Above(up, e), red)
      && LaidTree(other, n, e, m) && LaidPath(up, n, e, m)
  }

  ghost predicate Separate<N>(z: Zipper<N>, e: Ends<N>) {
    && Distinct(z.tree) && DistinctPath(z.path, Nodes(z.tree))
    && e.head !in Nodes(z.tree) + PathNodes(z.path)
    && e.nil !in Nodes(z.tree) + PathNodes(z.path)
    && e.nil != e.head
  }

  // m holds the whole tree of z.
  ghost predicate Laid<N>(z: Zipper<N>, e: Ends<N>, m: Memory<N>) {
    && Separate(z, e)
    && e.nil !in m
    && LaidTree(z.tree, Above(z.path, e), e, m)
    && LaidPath(z.path, Ref(z.tree, e), e, m)
  }

  ghost predicate Same<N>(s: set<N>, m: Memory<N>, m': Memory<N>) {
    forall n :: n in s && n in m ==> n in m' && m'[n] == m[n]
  }

  lemma {:induction false} LaidTreeSame<N>(t: Tree<N>, p: N, e: Ends<N>, m: Memory<N>, m': Memory<N>)
    requires LaidTree(t, p, e, m) && Same(Nodes(t), m, m')
    ensures LaidTree(t, p, e, m')
  {
    if t.Fork? {
      LaidTreeSame(t.left, t.node, e, m, m');
      LaidTreeSame(t.right, t.node, e, m, m');
    }
  }

  lemma {:induction false} LaidPathSame<N>(c: Path<N>, child: N, e: Ends<N>, m: Memory<N>, m': Memory<N>)
    requires LaidPath(c, child, e, m) && Same(PathNodes(c) + {e.head}, m, m')
    ensures LaidPath(c, child, e, m')
  {
    if !c.Top? {
      LaidTreeSame(c.other, c.node, e, m, m');
      LaidPathSame(c.up, c.node, e, m, m');
    }
  }

  // The child field that leads from the top of a path into its hole.
  function SetChild<N>(c: Path<N>, l: Links<N>, child: N): Links<N> {
    if c.RightOf? then l.(right := child) else l.(left := child)
  }

  // Replacing what is in the hole touches one field of the path.
  lemma LaidPathRehung<N>(c: Path<N>, below: set<N>, child: N, child': N, e: Ends<N>, m: Memory<N>, m': Memory<N>)
    requires LaidPath(c, child, e, m) && DistinctPath(c, below) && e.head !in PathNodes(c)
    requires Same(PathNodes(c) + {e.head} - {Above(c, e)}, m, m')
    requires Above(c, e) in m' && m'[Above(c, e)] == SetChild(c, m[Above(c, e)], child')
    ensures LaidPath(c, child', e, m')
  {
    if !c.Top? {
      DistinctPathDisjoint(c.up, below + {c.node} + Nodes(c.other));
      LaidTreeSame(c.other, c.node, e, m, m');
      LaidPathSame(c.up, c.node, e, m, m');
    }
  }

  // Moving a tree below another node touches one field of its topmost node.
  lemma LaidTreeMoved<N>(t: Tree<N>, p: N, p': N, e: Ends<N>, m: Memory<N>, m': Memory<N>)
    requires LaidTree(t, p, e, m) && Distinct(t)
    requires Same(Nodes(t) - {Ref(t, e)}, m, m')
    requires t.Fork? ==> t.node in m' && m'[t.node] == m[t.node].(parent := p')
    ensures LaidTree(t, p', e, m')
  {
    if t.Fork? {
      LaidTreeSame(t.left, t.node, e, m, m');
      LaidTreeSame(t.right, t.node, e, m, m');
    }
  }

  // ----- changing a laid-out tree

  lemma LaidRotateLeft<N>(z: Zipper<N>, e: Ends<N>, m: Memory<N>, m': Memory<N>)
    requires Laid(z, e, m) && z.tree.Fork? && z.tree.right.Fork?
    requires
      var t, up := z.tree, Above(z.path, e);
      var x, y, b := t.node, t.right.node, Ref(t.right.left, e);
      && m'.Keys == m.Keys && {x, y, up} <= m.Keys && (b != e.nil ==> b in m)
      && Same(m.Keys - {x, y, b, up}, m, m')
      && m'[x] == m[x].(right := b, parent := y)
      && m'[y] == m[y].(left := x, parent := up)
      && m'[up] == SetChild(z.path, m[up], y)
      && (b != e.nil ==> m'[b] == m[b].(parent := x))
    ensures Laid(At(z.path, RotateLeft(z.tree)), e, m')
  {
    var At(c, t) := z;
    RotateLeftDistinct(t);
    DistinctPathDisjoint(c, Nodes(t));
    var Fork(a, x, _, Fork(b, y, _, d)) := t;
    assert LaidTree(t.right, x, e, m);
    LaidPathRehung(c, Nodes(t), x, y, e, m, m');
    LaidTreeSame(a, x, e, m, m');
    LaidTreeMoved(b, y, x, e, m, m');
    LaidTreeSame(d, y, e, m, m');
  }

  lemma LaidRotateRight<N>(z: Zipper<N>, e: Ends<N>, m: Memory<N>, m': Memory<N>)
    requires Laid(z, e, m) && z.tree.Fork? && z.tree.left.Fork?
    requires
      var t, up := z.tree, Above(z.path, e);
      var y, x, b := t.node, t.left.node, Ref(t.left.right, e);
      && m'.Keys == m.Keys && {x, y, up} <= m.Keys && (b != e.nil ==> b in m)
      && Same(m.Keys - {x, y, b, up}, m, m')
      && m'[y] == m[y].(left := b, parent := x)
      && m'[x] == m[x].(right := y, parent := up)
      && m'[up] == SetChild(z.path, m[up], x)
      && (b != e.nil ==> m'[b] == m[b].(parent := y))
    ensures Laid(At(z.path, RotateRight(z.tree)), e, m')
  {
    var At(c, t) := z;
    RotateRightDistinct(t);
    DistinctPathDisjoint(c, Nodes(t));
    var Fork(Fork(a, x, _, b), y, _, d) := t;
    assert LaidTree(t.left, y, e, m);
    LaidPathRehung(c, Nodes(t), y, x, e, m, m');
    LaidTreeSame(a, x, e, m, m');
    LaidTreeMoved(b, x, y, e, m, m');
    LaidTreeSame(d, y, e, m, m');
  }

  lemma LaidPaint<N>(z: Zipper<N>, red: bool, e: Ends<N>, m: Memory<N>, m': Memory<N>)
    requires Laid(z, e, m) && z.tree.Fork?
    requires m'.Keys == m.Keys && Same(m.Keys - {z.tree.node}, m, m') && m'[z.tree.node] == m[z.tree.node].(red := red)
    ensures Laid(Painted(z, red), e, m')
  {
    var At(c, t) := z;
    DistinctPathDisjoint(c, Nodes(t));
    LaidTreeSame(t.left, t.node, e, m, m');
    LaidTreeSame(t.right, t.node, e, m, m');
    LaidPathSame(c, t.node, e, m, m');
  }

  // ----- moving the focus

  lemma LaidUp<N>(z: Zipper<N>, e: Ends<N>, m: Memory<N>)
    requires Laid(z, e, m) && !z.path.Top?
    ensures Laid(Up(z), e, m)
  {
    assert Nodes(Up(z).tree) == Nodes(z.tree) + {z.path.node} + Nodes(z.path.other);
  }

  lemma LaidDown<N>(z: Zipper<N>, e: Ends<N>, m: Memory<N>)
    requires Laid(z, e, m) && z.tree.Fork?
    ensures Laid(DownLeft(z), e, m)
    ensures Laid(DownRight(z), e, m)
  {
    var t := z.tree;
    assert Nodes(t) == Nodes(t.left) + {t.node} + Nodes(t.right);
    assert Nodes(t) == Nodes(t.right) + {t.node} + Nodes(t.left);
  }

  // ----- reading a laid-out tree

  // The node above a tree points at it from exactly one side.
  lemma ReadAbove<N>(z: Zipper<N>, e: Ends<N>, m: Memory<N>)
    requires Laid(z, e, m) && z.tree.Fork?
    ensures
      var t, up := z.tree, Above(z.path, e);
      && t.node in m && m[t.node] == Links(Ref(t.left, e), Ref(t.right, e), up, t.red)
      && up in m && up != t.node && e.nil !in m
      && (m[up].left == t.node <==> !z.path.RightOf?)
      && (m[up].right == t.node <==> z.path.RightOf?)
  {
    assert z.tree.node in Nodes(z.tree);
    assert !z.path.Top? && z.path.other.Fork? ==> z.path.other.node in Nodes(z.path.other);
  }

  // The neighbourhood of a left rotation.
  lemma ReadRight<N>(z: Zipper<N>, e: Ends<N>, m: Memory<N>)
    requires Laid(z, e, m) && z.tree.Fork? && z.tree.right.Fork?
    ensures
      var x, y, b, up := z.tree.node, z.tree.right.node, z.tree.right.left, Above(z.path, e);
      && y in m && m[y] == Links(Ref(b, e), Ref(z.tree.right.right, e), x, z.tree.right.red)
      && y != x && y != up
      && (b.Fork? ==> b.node in m && b.node !in {x, y, up, e.nil})
    ensures Nodes(RotateLeft(z.tree)) == Nodes(z.tree)
  {
    var t := z.tree;
    RotateLeftDistinct(t);
    DistinctPathDisjoint(z.path, Nodes(t));
    assert LaidTree(t.right, t.node, e, m);
    assert t.right.node in Nodes(t.right);
    assert t.right.left.Fork? ==>
      t.right.left.node in Nodes(t.right.left) && LaidTree(t.right.left, t.right.node, e, m);
  }

  lemma ReadLeft<N>(z: Zipper<N>, e: Ends<N>, m: Memory<N>)
    requires Laid(z, e, m) && z.tree.Fork? && z.tree.left.Fork?
    ensures
      var y, x, b, up := z.tree.node, z.tree.left.node, z.tree.left.right, Above(z.path, e);
      && x in m && m[x] == Links(Ref(z.tree.left.left, e), Ref(b, e), y, z.tree.left.red)
      && x != y && x != up
      && (b.Fork? ==> b.node in m && b.node !in {x, y, up, e.nil})
    ensures Nodes(RotateRight(z.tree)) == Nodes(z.tree)
  {
    var t := z.tree;
    RotateRightDistinct(t);
    DistinctPathDisjoint(z.path, Nodes(t));
    assert LaidTree(t.left, t.node, e, m);
    assert t.left.node in Nodes(t.left);
    assert t.left.right.Fork? ==> t.left.right.node in Nodes(t.left.right) && LaidTree(t.left.right, t.left.node, e, m);
  }

  lemma {:induction false} HeaderReads<N>(c: Path<N>, child: N, e: Ends<N>, m: Memory<N>)
    requires LaidPath(c, child, e, m)
    ensures e.head in m && !m[e.head].red && m[e.head].right == e.nil
  {
    if !c.Top? {
      HeaderReads(c.up, c.node, e, m);
    }
  }

  // A single new node goes into an empty hole.
  lemma LaidAttach<N>(z: Zipper<N>, e: Ends<N>, m: Memory<N>, m': Memory<N>)
    requires Laid(At(z.path, Leaf), e, m)
    requires z.tree.Fork? && z.tree.left.Leaf? && z.tree.right.Leaf?
    requires
      var n, up := z.tree.node, Above(z.path, e);
      && PathNodes(z.path) + {e.head} <= m.Keys
      && n !in m && n != e.nil && m'.Keys == m.Keys + {n}
      && Same(m.Keys - {up}, m, m')
      && m'[up] == SetChild(z.path, m[up], n)
      && m'[n] == Links(e.nil, e.nil, up, z.tree.red)
    ensures Laid(z, e, m')
  {
    var n := z.tree.node;
    LaidPathRehung(z.path, {}, e.nil, n, e, m, m');
    DistinctPathGrows(z.path, {}, {n});
    assert Nodes(z.tree) == {} + {n};
  }

  lemma ReadSentinels<N>(z: Zipper<N>, e: Ends<N>, m: Memory<N>)
    requires Laid(z, e, m)
    ensures e.head in m && e.nil !in m && (z.tree.Fork? ==> z.tree.node != e.nil)
  {
    HeaderReads(z.path, Ref(z.tree, e), e, m);
    assert z.tree.Fork? ==> z.tree.node in Nodes(z.tree);
  }

  // ----- taking a node out, and putting another in its place

  lemma LaidExcise<N>(z: Zipper<N>, e: Ends<N>, m: Memory<N>, m': Memory<N>)
    requires Laid(z, e, m) && z.tree.Fork? && (z.tree.left.Leaf? || z.tree.right.Leaf?)
    requires
      var y, x, up := z.tree.node, Ref(OnlyChild(z.tree), e), Above(z.path, e);
      && m'.Keys == m.Keys - {y} && up in m' && (x != e.nil ==> x in m')
      && Same(m.Keys - {y, x, up}, m, m')
      && m'[up] == SetChild(z.path, m[up], x)
      && (x != e.nil ==> m'[x] == m[x].(parent := up))
    ensures Laid(At(z.path, OnlyChild(z.tree)), e, m')
    ensures Nodes(OnlyChild(z.tree)) == Nodes(z.tree) - {z.tree.node}
  {
    var At(c, t) := z;
    var y, x := t.node, OnlyChild(t);
    DistinctPathDisjoint(c, Nodes(t));
    DistinctPathShrinks(c, Nodes(t), Nodes(x));
    LaidPathRehung(c, Nodes(t), y, Ref(x, e), e, m, m');
    LaidTreeMoved(x, y, Above(c, e), e, m, m');
  }

  // Another node in the place of the topmost one.
  lemma SeparateReplace<N>(c: Path<N>, t: Tree<N>, y: N, e: Ends<N>)
    requires Separate(At(c, t), e) && t.Fork?
    requires y !in Nodes(t) + PathNodes(c) && y != e.nil && y != e.head
    ensures Separate(At(c, Fork(t.left, y, t.red, t.right)), e)
  {
    var kids := Nodes(t.left) + Nodes(t.right);
    DistinctPathShrinks(c, Nodes(t), kids);
    DistinctPathGrows(c, kids, {y});
    assert Nodes(Fork(t.left, y, t.red, t.right)) == kids + {y};
  }

  lemma LaidReplace<N>(z: Zipper<N>, y: N, e: Ends<N>, m: Memory<N>, m': Memory<N>)
    requires Laid(z, e, m) && z.tree.Fork? && y !in m && y != e.nil
    requires PathNodes(z.path) + {e.head} <= m.Keys
    requires
      var n, l, r, up := z.tree.node, Ref(z.tree.left, e), Ref(z.tree.right, e), Above(z.path, e);
      && m'.Keys == m.Keys - {n} + {y}
      && Same(m.Keys - {n, l, r, up}, m, m')
      && m'[y] == Links(l, r, up, z.tree.red)
      && (l != e.nil ==> l in m && l in m' && m'[l] == m[l].(parent := y))
      && (r != e.nil ==> r in m && r in m' && m'[r] == m[r].(parent := y))
      && up in m' && m'[up] == SetChild(z.path, m[up], y)
    ensures Laid(At(z.path, Fork(z.tree.left, y, z.tree.red, z.tree.right)), e, m')
  {
    hide PathNodes, DistinctPath;
    var At(c, t) := z;
    var n, l, r := t.node, t.left, t.right;
    LaidTreeKeys(t, Above(c, e), e, m);
    SeparateReplace(c, t, y, e);
    DistinctPathDisjoint(c, Nodes(t));
    AboveIn(c, e);
    LaidPathRehung(c, Nodes(t), n, y, e, m, m');
    LaidTreeMoved(l, n, y, e, m, m');
    LaidTreeMoved(r, n, y, e, m, m');
  }

  lemma AboveIn<N>(c: Path<N>, e: Ends<N>)
    ensures Above(c, e) in PathNodes(c) + {e.head}
  {
  }

  lemma {:induction false} LaidTreeKeys<N>(t: Tree<N>, p: N, e: Ends<N>, m: Memory<N>)
    requires LaidTree(t, p, e, m)
    ensures Nodes(t) <= m.Keys
  {
    if t.Fork? {
      LaidTreeKeys(t.left, t.node, e, m);
      LaidTreeKeys(t.right, t.node, e, m);
    }
  }
}
