/**
  The red-black tree of c/red_black_tree.c: nodes with parent links, a black
  sentinel "nilx" that stands for every missing child, and a header "root" whose
  left child is the topmost node of the tree.
*/
module RedBlackTree {
  import opened Common
  import opened TreeShape
  import opened TreeLinks

  class Node<K, V> {
    const key: K
    var info: V
    var red: bool
    var left: Node<K, V>
    var right: Node<K, V>
    var parent: Node<K, V>

    constructor (key: K, info: V)
      ensures this.key == key && this.info == info && !red
    {
      this.key := key;
      this.info := info;
      red := false;
      left := this;
      right := this;
      parent := this;
    }
  }

  // "Compare(a,b) should return 1 if *a > *b, -1 if *a < *b, and 0 otherwise":
  // keys may compare equal without being the same.
  ghost predicate Preorder<K(!new)>(compare: (K, K) -> int) {
    && (forall a, b :: compare(a, b) in {-1, 0, 1} && compare(a, b) == -compare(b, a))
    && (forall a, b, c :: compare(a, b) <= 0 && compare(b, c) <= 0 ==> compare(a, c) <= 0)
  }

  class RBTree<K(0, !new), V(0)> {
    const root: Node<K, V>
    const nilx: Node<K, V>
    const compare: (K, K) -> int
    // The tree that the links spell out.
    ghost var tree: Tree<Node<K, V>>
    // The nodes of the tree, and the header.
    ghost var nodes: set<Node<K, V>>

    constructor (compare: (K, K) -> int, noKey: K, noInfo: V)
      requires Preorder(compare)
      ensures Valid() && Contents() == [] && this.compare == compare
      ensures fresh(nodes) && fresh(nilx)
    {
      this.compare := compare;
      var nil := new Node(noKey, noInfo);
      var head := new Node(noKey, noInfo);
      head.parent := nil;
      head.left := nil;
      head.right := nil;
      nilx := nil;
      root := head;
      tree := Leaf;
      nodes := {head};
      new;
      assert Balanced(tree, 0);
    }

    ghost function Contents(): seq<Node<K, V>>
      reads this
    {
      InOrder(tree)
    }

    // The node at a place of the in-order sequence, nil beyond its ends.
    ghost function NodeAt(i: int): Node<K, V>
      reads this
    {
      if 0 <= i < |Contents()| then Contents()[i] else nilx
    }

    ghost predicate Ordered(s: seq<Node<K, V>>) {
      forall i, j :: 0 <= i < j < |s| ==> compare(s[i].key, s[j].key) <= 0
    }

    ghost predicate Valid()
      reads this, nilx, nodes
    {
      Preorder(compare) && Holds(At(Top, tree)) && RedBlack(tree) && Ordered(Contents())
    }

    // ----- what the links in the heap mean

    ghost function Sentinels(): Ends<Node<K, V>> {
      Ends(root, nilx)
    }

    // The fields of some nodes, as they are now.
    ghost function Cells(s: set<Node<K, V>>): Memory<Node<K, V>>
      reads s
    {
      map n | n in s :: Links(n.left, n.right, n.parent, n.red)
    }

    // The heap holds the whole tree of z, in exactly the nodes of "nodes".
    ghost predicate Holds(z: Zipper<Node<K, V>>)
      reads this`nodes, nilx, nodes
    {
      && nodes == {root} + PathNodes(z.path) + Nodes(z.tree)
      && !nilx.red
      && Laid(z, Sentinels(), Cells(nodes))
    }

    // What hangs at a node is its owner's business.
    twostate lemma InfoOnly()
      requires old(Valid()) && tree == old(tree) && nodes == old(nodes) && nilx.red == old(nilx.red)
      requires forall n :: n in nodes ==>
        n.left == old(n.left) && n.right == old(n.right) && n.parent == old(n.parent) && n.red == old(n.red)
      ensures Valid()
    {
      hide Laid, RedBlack;
      assert Cells(nodes) == old(Cells(nodes));
    }

    // ----- rotations

    // x, its parent up, the node y that takes its place, and the tree b that changes sides.
    ghost predicate Near(z: Zipper<Node<K, V>>, x: Node<K, V>, y: Node<K, V>, b: Node<K, V>, up: Node<K, V>)
      reads this, x, up
    {
      && {x, y, up} <= nodes && (b != nilx ==> b in nodes)
      && nilx !in nodes
      && x != y && x != up && y != up && b !in {x, y, up}
      && x.parent == up
      && (up.left == x <==> !z.path.RightOf?)
    }

    // Nothing outside a neighbourhood, and no colour, has changed.
    twostate predicate OnlyNear(s: set<Node<K, V>>)
      reads this, nilx, nodes
    {
      && nodes == old(nodes) && nilx.red == old(nilx.red)
      && (forall n :: n in nodes ==> n.red == old(n.red))
      && (forall n :: n in nodes && n !in s ==>
           n.left == old(n.left) && n.right == old(n.right) && n.parent == old(n.parent))
    }

    lemma LookRight(z: Zipper<Node<K, V>>)
      requires Holds(z)
      requires z.tree.Fork? && z.tree.right.Fork?
      ensures Near(z, z.tree.node, z.tree.node.right, z.tree.node.right.left, Above(z.path, Sentinels()))
    {
      hide Laid, Nodes, PathNodes;
      ReadAbove(z, Sentinels(), Cells(nodes));
      ReadRight(z, Sentinels(), Cells(nodes));
    }

    lemma LookLeft(z: Zipper<Node<K, V>>)
      requires Holds(z)
      requires z.tree.Fork? && z.tree.left.Fork?
      ensures Near(z, z.tree.node, z.tree.node.left, z.tree.node.left.right, Above(z.path, Sentinels()))
    {
      hide Laid, Nodes, PathNodes;
      ReadAbove(z, Sentinels(), Cells(nodes));
      ReadLeft(z, Sentinels(), Cells(nodes));
    }

    twostate lemma RotatedLeft(z: Zipper<Node<K, V>>)
      requires old(Holds(z)) && z.tree.Fork? && z.tree.right.Fork?
      requires
        var x := z.tree.node;
        var y, up := old(x.right), old(x.parent);
        var b := old(y.left);
        && old(Near(z, x, y, b, up))
        && OnlyNear({x, y, b, up})
        && x.right == b && x.parent == y && x.left == old(x.left)
        && y.left == x && y.parent == up && y.right == old(y.right)
        && (b != nilx ==> b.parent == x && b.left == old(b.left) && b.right == old(b.right))
        && up.parent == old(up.parent)
        && if z.path.RightOf? then up.right == y && up.left == old(up.left)
           else up.left == y && up.right == old(up.right)
      ensures Holds(At(z.path, RotateLeft(z.tree)))
      ensures InOrder(Whole(At(z.path, RotateLeft(z.tree)))) == InOrder(Whole(z))
    {
      hide Laid, Nodes, PathNodes, InOrder;
      var m := old(Cells(nodes));
      ReadAbove(z, Sentinels(), m);
      ReadRight(z, Sentinels(), m);
      LaidRotateLeft(z, Sentinels(), m, Cells(nodes));
      RotateLeftInOrder(z.tree);
      SameInOrder(z, RotateLeft(z.tree));
    }

    twostate lemma RotatedRight(z: Zipper<Node<K, V>>)
      requires old(Holds(z)) && z.tree.Fork? && z.tree.left.Fork?
      requires
        var y := z.tree.node;
        var x, up := old(y.left), old(y.parent);
        var b := old(x.right);
        && old(Near(z, y, x, b, up))
        && OnlyNear({y, x, b, up})
        && y.left == b && y.parent == x && y.right == old(y.right)
        && x.right == y && x.parent == up && x.left == old(x.left)
        && (b != nilx ==> b.parent == y && b.left == old(b.left) && b.right == old(b.right))
        && up.parent == old(up.parent)
        && if z.path.RightOf? then up.right == x && up.left == old(up.left)
           else up.left == x && up.right == old(up.right)
      ensures Holds(At(z.path, RotateRight(z.tree)))
      ensures InOrder(Whole(At(z.path, RotateRight(z.tree)))) == InOrder(Whole(z))
    {
      hide Laid, Nodes, PathNodes, InOrder;
      var m := old(Cells(nodes));
      ReadAbove(z, Sentinels(), m);
      ReadLeft(z, Sentinels(), m);
      LaidRotateRight(z, Sentinels(), m, Cells(nodes));
      RotateRightInOrder(z.tree);
      SameInOrder(z, RotateRight(z.tree));
    }

    method LeftRotate(x: Node<K, V>, ghost z: Zipper<Node<K, V>>)
      requires Holds(z)
      requires z.tree.Fork? && z.tree.node == x && z.tree.right.Fork?
      modifies nodes`left, nodes`right, nodes`parent
      ensures Holds(At(z.path, RotateLeft(z.tree)))
      ensures InOrder(Whole(At(z.path, RotateLeft(z.tree)))) == InOrder(Whole(z))
    {
      hide Holds, InOrder;
      LookRight(z);
      var nil := nilx;
      var y := x.right;
      x.right := y.left;
      if y.left != nil { y.left.parent := x; }
      y.parent := x.parent;
      if x == x.parent.left {
        x.parent.left := y;
      } else {
        x.parent.right := y;
      }
      y.left := x;
      x.parent := y;
      RotatedLeft(z);
    }

    method RightRotate(y: Node<K, V>, ghost z: Zipper<Node<K, V>>)
      requires Holds(z)
      requires z.tree.Fork? && z.tree.node == y && z.tree.left.Fork?
      modifies nodes`left, nodes`right, nodes`parent
      ensures Holds(At(z.path, RotateRight(z.tree)))
      ensures InOrder(Whole(At(z.path, RotateRight(z.tree)))) == InOrder(Whole(z))
    {
      hide Holds, InOrder;
      LookLeft(z);
      var nil := nilx;
      var x := y.left;
      y.left := x.right;
      if nil != x.right { x.right.parent := y; }
      x.parent := y.parent;
      if y == y.parent.left {
        y.parent.left := x;
      } else {
        y.parent.right := x;
      }
      x.right := y;
      y.parent := x;
      RotatedRight(z);
    }

    // ----- colours

    method Paint(n: Node<K, V>, red: bool, ghost z: Zipper<Node<K, V>>)
      requires Holds(z) && z.tree.Fork? && z.tree.node == n
      modifies n`red
      ensures Holds(Painted(z, red))
      ensures InOrder(Whole(Painted(z, red))) == InOrder(Whole(z))
    {
      hide Laid, InOrder, Nodes, PathNodes;
      ghost var m := Cells(nodes);
      ReadAbove(z, Sentinels(), m);
      PaintKeeps(z, red);
      n.red := red;
      LaidPaint(z, red, Sentinels(), m, Cells(nodes));
    }

    // ----- looking around

    // What the fields at and above a position say.
    lemma Look(z: Zipper<Node<K, V>>)
      requires Holds(z)
      ensures !nilx.red && !root.red && root in nodes && nilx !in nodes
      ensures z.tree.Fork? ==>
        var Fork(l, n, red, r) := z.tree;
        && n in nodes && n != root && n.left == Ref(l, Sentinels()) && n.right == Ref(r, Sentinels())
        && n.parent == Above(z.path, Sentinels()) && n.red == red && n.left.red == IsRed(l) && n.right.red == IsRed(r)
        && (n.left == nilx <==> l.Leaf?) && (n.right == nilx <==> r.Leaf?)
      ensures root.right == nilx && (z.path.Top? ==> root.left == Ref(z.tree, Sentinels()))
      ensures !z.path.Top? ==>
        var p, t, s := z.path.node, Ref(z.tree, Sentinels()), Ref(z.path.other, Sentinels());
        && p in nodes && p != root && p.red == z.path.red && s.red == IsRed(z.path.other)
        && p.parent == Above(z.path.up, Sentinels())
        && (z.tree.Fork? || z.path.other.Fork? ==> s != t)
        && if z.path.LeftOf? then p.left == t && p.right == s else p.left == s && p.right == t
    {
      assert z.tree.Fork? ==> z.tree.node in Nodes(z.tree);
      assert !z.path.Top? && z.path.other.Fork? ==> z.path.other.node in Nodes(z.path.other);
      if z.tree.Fork? {
        var Fork(l, n, _, r) := z.tree;
        assert LaidTree(l, n, Sentinels(), Cells(nodes)) && LaidTree(r, n, Sentinels(), Cells(nodes));
      }
      if !z.path.Top? {
        assert LaidTree(z.path.other, z.path.node, Sentinels(), Cells(nodes));
      }
      HeaderReads(z.path, Ref(z.tree, Sentinels()), Sentinels(), Cells(nodes));
    }

    lemma HoldsUp(z: Zipper<Node<K, V>>)
      requires Holds(z) && !z.path.Top?
      ensures Holds(Up(z))
    {
      LaidUp(z, Sentinels(), Cells(nodes));
    }

    lemma HoldsDown(z: Zipper<Node<K, V>>)
      requires Holds(z) && z.tree.Fork?
      ensures Holds(DownLeft(z)) && Holds(DownRight(z))
    {
      LaidDown(z, Sentinels(), Cells(nodes));
    }
  
    // ----- insertion

    // x is an outer grandchild, and its uncle is black: its parent takes the place
    // of the grandparent.
    method RaiseLeft(x: Node<K, V>, ghost z0: Zipper<Node<K, V>>, ghost h: nat) returns (ghost z: Zipper<Node<K, V>>)
      requires Holds(z0) && RedBelow(z0, h) && z0.tree.node == x && RedTop(z0.path)
      requires z0.path.LeftOf? && z0.path.up.LeftOf? && !IsRed(z0.path.up.other)
      modifies nodes`left, nodes`right, nodes`parent, nodes`red
      ensures Holds(z) && RedBelow(z, h) && z.tree.node == x
      ensures InOrder(Whole(z)) == InOrder(Whole(z0))
      ensures Depth(z.path) < Depth(z0.path)
    {
      hide Holds, InOrder;
      z := z0;
      HoldsUp(z); Look(z); Look(Up(z)); HoldsUp(Up(z)); Look(Up(Up(z)));
      OuterRotatedSound(z, h);
      Paint(x.parent, false, Up(z));
      z := Painted(Up(z), false);
      HoldsUp(z); Look(z); Look(Up(z));
      Paint(x.parent.parent, true, Up(z));
      z := Painted(Up(z), true);
      RightRotate(x.parent.parent, z);
      z := At(z.path, RotateRight(z.tree));
      HoldsDown(z);
      z := DownLeft(z);
    }

    // One round of the repair when the parent of x is a left child.
    method RepairLeft(x0: Node<K, V>, ghost z0: Zipper<Node<K, V>>, ghost h0: nat)
      returns (x: Node<K, V>, ghost z: Zipper<Node<K, V>>, ghost h: nat)
      requires Holds(z0) && RedBelow(z0, h0) && z0.tree.node == x0
      requires RedTop(z0.path) && z0.path.up.LeftOf?
      modifies nodes`left, nodes`right, nodes`parent, nodes`red
      ensures Holds(z) && RedBelow(z, h) && z.tree.node == x
      ensures InOrder(Whole(z)) == InOrder(Whole(z0))
      ensures Depth(z.path) < Depth(z0.path)
    {
      hide Holds, InOrder;
      x, z, h := x0, z0, h0;
      RedBelowGrandparent(z, h);
      Look(z); HoldsUp(z); Look(Up(z)); HoldsUp(Up(z)); Look(Up(Up(z)));
      var y := x.parent.parent.right;
      if y.red {
        Paint(x.parent, false, Up(z));
        z := Painted(Up(z), false);
        HoldsUp(z); HoldsDown(Up(z)); Look(DownRight(Up(z)));
        Paint(y, false, DownRight(Up(z)));
        z := Painted(DownRight(Up(z)), false);
        HoldsUp(z); Look(Up(z));
        assert x.parent.parent == Up(z).tree.node;
        Paint(x.parent.parent, true, Up(z));
        z := Painted(Up(z), true);
        x := x.parent.parent;
        h := h + 1;
        RecolouredSound(z0, h0);
      } else {
        if x == x.parent.right {
          x := x.parent;
          LeftRotate(x, Up(z));
          z := At(Up(z).path, RotateLeft(Up(z).tree));
          HoldsDown(z);
          z := DownLeft(z);
          HoldsUp(z); Look(z);
          InnerRotatedSound(z0, h);
        }
        z := RaiseLeft(x, z, h);
      }
    }

    // x is an outer grandchild, and its uncle is black: its parent takes the place
    // of the grandparent.
    method RaiseRight(x: Node<K, V>, ghost z0: Zipper<Node<K, V>>, ghost h: nat) returns (ghost z: Zipper<Node<K, V>>)
      requires Holds(z0) && RedBelow(z0, h) && z0.tree.node == x && RedTop(z0.path)
      requires z0.path.RightOf? && z0.path.up.RightOf? && !IsRed(z0.path.up.other)
      modifies nodes`left, nodes`right, nodes`parent, nodes`red
      ensures Holds(z) && RedBelow(z, h) && z.tree.node == x
      ensures InOrder(Whole(z)) == InOrder(Whole(z0))
      ensures Depth(z.path) < Depth(z0.path)
    {
      hide Holds, InOrder;
      z := z0;
      HoldsUp(z); Look(z); Look(Up(z)); HoldsUp(Up(z)); Look(Up(Up(z)));
      OuterRotatedSound(z, h);
      Paint(x.parent, false, Up(z));
      z := Painted(Up(z), false);
      HoldsUp(z); Look(z); Look(Up(z));
      Paint(x.parent.parent, true, Up(z));
      z := Painted(Up(z), true);
      LeftRotate(x.parent.parent, z);
      z := At(z.path, RotateLeft(z.tree));
      HoldsDown(z);
      z := DownRight(z);
    }

    // One round of the repair when the parent of x is a right child.
    method RepairRight(x0: Node<K, V>, ghost z0: Zipper<Node<K, V>>, ghost h0: nat)
      returns (x: Node<K, V>, ghost z: Zipper<Node<K, V>>, ghost h: nat)
      requires Holds(z0) && RedBelow(z0, h0) && z0.tree.node == x0
      requires RedTop(z0.path) && z0.path.up.RightOf?
      modifies nodes`left, nodes`right, nodes`parent, nodes`red
      ensures Holds(z) && RedBelow(z, h) && z.tree.node == x
      ensures InOrder(Whole(z)) == InOrder(Whole(z0))
      ensures Depth(z.path) < Depth(z0.path)
    {
      hide Holds, InOrder;
      x, z, h := x0, z0, h0;
      RedBelowGrandparent(z, h);
      Look(z); HoldsUp(z); Look(Up(z)); HoldsUp(Up(z)); Look(Up(Up(z)));
      var y := x.parent.parent.left;
      if y.red {
        Paint(x.parent, false, Up(z));
        z := Painted(Up(z), false);
        HoldsUp(z); HoldsDown(Up(z)); Look(DownLeft(Up(z)));
        Paint(y, false, DownLeft(Up(z)));
        z := Painted(DownLeft(Up(z)), false);
        HoldsUp(z); Look(Up(z));
        assert x.parent.parent == Up(z).tree.node;
        Paint(x.parent.parent, true, Up(z));
        z := Painted(Up(z), true);
        x := x.parent.parent;
        h := h + 1;
        RecolouredSound(z0, h0);
      } else {
        if x == x.parent.left {
          x := x.parent;
          RightRotate(x, Up(z));
          z := At(Up(z).path, RotateRight(Up(z).tree));
          HoldsDown(z);
          z := DownRight(z);
          HoldsUp(z); Look(z);
          InnerRotatedSound(z0, h);
        }
        z := RaiseRight(x, z, h);
      }
    }

    // Keys not above, or strictly above, a given key.
    ghost predicate AtMost(s: seq<Node<K, V>>, key: K) {
      forall n :: n in s ==> compare(n.key, key) <= 0
    }

    ghost predicate Exceed(s: seq<Node<K, V>>, key: K) {
      forall n :: n in s ==> compare(n.key, key) == 1
    }

    // One comparison settles everything on one side of a node.
    lemma ComparedSides(s: seq<Node<K, V>>, a: seq<Node<K, V>>, x: Node<K, V>, b: seq<Node<K, V>>, key: K)
      requires Preorder(compare) && Ordered(s) && s == a + [x] + b
      ensures compare(x.key, key) == 1 ==> Exceed([x] + b, key)
      ensures compare(x.key, key) != 1 ==> AtMost(a + [x], key)
    {
      assert s[|a|] == x;
      if compare(x.key, key) == 1 {
        forall n | n in b
          ensures compare(n.key, key) == 1
        {
          var j :| 0 <= j < |b| && b[j] == n;
          assert s[|a| + 1 + j] == n;
          assert compare(x.key, n.key) <= 0;
        }
      } else {
        forall n | n in a
          ensures compare(n.key, key) <= 0
        {
          var j :| 0 <= j < |a| && a[j] == n;
          assert s[j] == n;
          assert compare(n.key, x.key) <= 0;
        }
      }
    }

    lemma ComparedStep(z: Zipper<Node<K, V>>, key: K)
      requires Preorder(compare) && Ordered(InOrder(Whole(z))) && z.tree.Fork?
      requires AtMost(Before(z.path), key) && Exceed(After(z.path), key)
      ensures
        var d := if compare(z.tree.node.key, key) == 1 then DownLeft(z) else DownRight(z);
        AtMost(Before(d.path), key) && Exceed(After(d.path), key)
    {
      InOrderFill(z.path, z.tree);
      var l, n, r := InOrder(z.tree.left), z.tree.node, InOrder(z.tree.right);
      var a, b := Before(z.path) + l, r + After(z.path);
      assert Before(z.path) + (l + [n] + r) + After(z.path) == a + [n] + b;
      ComparedSides(InOrder(Whole(z)), a, n, b, key);
      assert [n] + r + After(z.path) == [n] + b;
    }

    // n has been made the only node of the tree in the hole.
    twostate lemma Attached(z: Zipper<Node<K, V>>)
      requires old(Holds(At(z.path, Leaf)))
      requires z.tree.Fork? && z.tree == Fork(Leaf, z.tree.node, z.tree.node.red, Leaf)
      requires
        var n, up := z.tree.node, Above(z.path, Sentinels());
        && n !in old(nodes) && n != nilx && nodes == old(nodes) + {n}
        && nilx.red == old(nilx.red)
        && (forall m :: m in old(nodes) ==> m.red == old(m.red) && m.parent == old(m.parent))
        && (forall m :: m in old(nodes) && m != up ==> m.left == old(m.left) && m.right == old(m.right))
        && n.left == nilx && n.right == nilx && n.parent == up
        && if z.path.RightOf? then up.right == n && up.left == old(up.left)
           else up.left == n && up.right == old(up.right)
      ensures Holds(z)
    {
      LaidAttach(z, Sentinels(), old(Cells(nodes)), Cells(nodes));
    }

    lemma EverythingOrNothing(key: K)
      ensures AtMost(Before<Node<K, V>>(Top), key) && Exceed(After<Node<K, V>>(Top), key)
    {
    }

    // The new node becomes a leaf in the hole.
    method HangLeaf(n: Node<K, V>, y: Node<K, V>, ghost z: Zipper<Node<K, V>>)
      requires Holds(z) && z.tree.Leaf? && y == Above(z.path, Sentinels())
      requires n !in nodes && n != nilx && n.left == nilx && n.right == nilx
      requires y in nodes && (y == root <==> z.path.Top?)
      requires !z.path.Top? ==> (z.path.LeftOf? <==> compare(y.key, n.key) == 1)
      modifies this`nodes, n`parent, nodes`left, nodes`right
      ensures nodes == old(nodes) + {n} && Holds(At(z.path, Fork(Leaf, n, n.red, Leaf)))
      ensures n.red == old(n.red)
    {
      hide Laid;
      n.parent := y;
      if y == root || 1 == compare(y.key, n.key) {
        y.left := n;
      } else {
        y.right := n;
      }
      nodes := nodes + {n};
      Attached(At(z.path, Fork(Leaf, n, n.red, Leaf)));
    }

    method TreeInsertHelp(n: Node<K, V>) returns (ghost z: Zipper<Node<K, V>>)
      requires Valid() && n !in nodes && n != nilx
      modifies this`nodes, n`left, n`right, n`parent, nodes`left, nodes`right
      ensures nodes == old(nodes) + {n}
      ensures Holds(z) && z.tree == Fork(Leaf, n, n.red, Leaf)
      ensures Fill(z.path, Leaf) == tree
      ensures AtMost(Before(z.path), n.key) && Exceed(After(z.path), n.key)
    {
      hide Laid, InOrder, Nodes, PathNodes, RedBlack, Before, After, AtMost, Exceed, Ordered;
      EverythingOrNothing(n.key);
      var nil := nilx;
      n.left := nil;
      n.right := nil;
      var y := root;
      var x := root.left;
      z := At(Top, tree);
      Look(z);
      while x != nil
        invariant nodes == old(nodes) && Holds(z) && Whole(z) == tree
        invariant n.left == nil && n.right == nil
        invariant x == Ref(z.tree, Sentinels()) && y == Above(z.path, Sentinels())
        invariant AtMost(Before(z.path), n.key) && Exceed(After(z.path), n.key)
        invariant !z.path.Top? ==> (z.path.LeftOf? <==> compare(y.key, n.key) == 1)
        decreases z.tree
      {
        y := x;
        Look(z); HoldsDown(z); ComparedStep(z, n.key);
        if 1 == compare(x.key, n.key) {
          x := x.left;
          z := DownLeft(z);
        } else {
          x := x.right;
          z := DownRight(z);
        }
      }
      Look(z);
      HangLeaf(n, y, z);
      z := At(z.path, Fork(Leaf, n, n.red, Leaf));
    }

    lemma HoldsWhole(z: Zipper<Node<K, V>>)
      requires Holds(z)
      ensures Holds(At(Top, Whole(z)))
      decreases z.path
    {
      if !z.path.Top? {
        HoldsUp(z);
        HoldsWhole(Up(z));
      }
    }

    // Placing a node between the keys not above its own and those above it.
    lemma InsertOrdered(a: seq<Node<K, V>>, n: Node<K, V>, b: seq<Node<K, V>>)
      requires Preorder(compare) && Ordered(a + b) && AtMost(a, n.key) && Exceed(b, n.key)
      ensures Ordered(a + [n] + b)
    {
      var s, t := a + b, a + [n] + b;
      forall i, j | 0 <= i < j < |t|
        ensures compare(t[i].key, t[j].key) <= 0
      {
        if i != |a| && j != |a| {
          var i', j' := if i < |a| then i else i - 1, if j < |a| then j else j - 1;
          assert t[i] == s[i'] && t[j] == s[j'];
        } else if i == |a| {
          assert t[j] in b;
        } else {
          assert t[i] in a;
        }
      }
    }

    // What linking a node at an empty position does to the sequence.
    lemma InsertSound(z: Zipper<Node<K, V>>, s: seq<Node<K, V>>)
      requires Preorder(compare) && Ordered(s) && InOrder(Fill(z.path, Leaf)) == s
      requires z.tree.Fork? && z.tree.left.Leaf? && z.tree.right.Leaf?
      requires AtMost(Before(z.path), z.tree.node.key) && Exceed(After(z.path), z.tree.node.key)
      ensures
        var n, i := z.tree.node, |Before(z.path)|;
        && i <= |s| && InOrder(Whole(z)) == s[..i] + [n] + s[i..]
        && AtMost(s[..i], n.key) && Exceed(s[i..], n.key) && Ordered(InOrder(Whole(z)))
    {
      hide Before, After, Fill, Ordered, AtMost, Exceed;
      var n, a, b := z.tree.node, Before(z.path), After(z.path);
      InOrderFill(z.path, Leaf);
      InOrderFill(z.path, z.tree);
      assert s == a + b && InOrder(Whole(z)) == a + [n] + b;
      assert s[..|a|] == a && s[|a|..] == b;
      InsertOrdered(a, n, b);
    }

    // Repairs red-red edges from x upwards, and leaves the topmost node black.
    method InsertRepair(x0: Node<K, V>, ghost z0: Zipper<Node<K, V>>, ghost h0: nat)
      requires Holds(z0) && RedBelow(z0, h0) && z0.tree.node == x0
      modifies this`tree, nodes`left, nodes`right, nodes`parent, nodes`red
      ensures Holds(At(Top, tree)) && RedBlack(tree)
      ensures InOrder(tree) == InOrder(Whole(z0))
    {
      hide Holds, InOrder, Nodes, PathNodes;
      var x := x0;
      ghost var z, h := z0, h0;
      Look(z);
      while x.parent.red
        invariant Holds(z) && RedBelow(z, h) && z.tree.node == x
        invariant x.parent.red == RedTop(z.path)
        invariant InOrder(Whole(z)) == InOrder(Whole(z0))
        decreases Depth(z.path)
      {
        RedBelowGrandparent(z, h);
        Look(z); HoldsUp(z); Look(Up(z));
        if x.parent == x.parent.parent.left {
          x, z, h := RepairLeft(x, z, h);
        } else {
          x, z, h := RepairRight(x, z, h);
        }
        Look(z);
      }
      HoldsWhole(z);
      RootBlackened(z, h);
      z := At(Top, Whole(z));
      Look(z);
      Paint(root.left, false, z);
      tree := Painted(z, false).tree;
    }

    // The new node goes after every key that is not above its own.
    method RBTreeInsert(key: K, info: V) returns (newNode: Node<K, V>, ghost at: nat)
      requires Valid()
      modifies this`tree, this`nodes, nodes`left, nodes`right, nodes`parent, nodes`red
      ensures Valid()
      ensures fresh(newNode) && newNode.key == key && newNode.info == info && nodes == old(nodes) + {newNode}
      ensures
        var s := old(Contents());
        && at <= |s| && Contents() == s[..at] + [newNode] + s[at..]
        && AtMost(s[..at], key) && Exceed(s[at..], key)
    {
      hide Holds, InOrder, Nodes, PathNodes, AtMost, Exceed, Ordered;
      var x := new Node(key, info);
      ghost var z := TreeInsertHelp(x);
      newNode := x;
      at := |Before(z.path)|;
      InsertSound(z, old(Contents()));
      ghost var h := NewBelow(z, tree);
      Paint(x, true, z);
      z := Painted(z, true);
      InsertRepair(x, z, h);
    }
  
    // ----- moving along the sequence

    lemma HoldsInside(z: Zipper<Node<K, V>>)
      requires Holds(At(Top, Whole(z)))
      ensures Holds(z)
      decreases z.path
    {
      if !z.path.Top? {
        HoldsInside(Up(z));
        HoldsDown(Up(z));
      }
    }

    // The position of a node of the tree.
    lemma Find(x: Node<K, V>) returns (z: Zipper<Node<K, V>>)
      requires Holds(At(Top, tree)) && x in Contents()
      ensures Holds(z) && Whole(z) == tree && z.tree.Fork? && z.tree.node == x
    {
      InOrderNode(tree, x);
      z := Locate(At(Top, tree), x);
      HoldsInside(z);
    }

    // Down along the left children.
    method Leftmost(y0: Node<K, V>, ghost z0: Zipper<Node<K, V>>) returns (y: Node<K, V>, ghost z: Zipper<Node<K, V>>)
      requires Holds(z0) && Whole(z0) == tree && z0.tree.Fork? && z0.tree.node == y0
      ensures Holds(z) && Whole(z) == tree && z.tree.Fork? && z.tree.node == y && z.tree.left.Leaf?
      ensures Before(z.path) == Before(z0.path)
    {
      hide Holds, Nodes, PathNodes, RedBlack, Ordered;
      y, z := y0, z0;
      Look(z);
      while y.left != nilx
        invariant Holds(z) && Whole(z) == tree && z.tree.Fork? && z.tree.node == y
        invariant y.left == Ref(z.tree.left, Sentinels()) && Before(z.path) == Before(z0.path)
        decreases z.tree
      {
        y := y.left;
        HoldsDown(z);
        z := DownLeft(z);
        Look(z);
      }
      Look(z);
    }

    // Up as long as it is from a right child.
    method UpFromRight(x0: Node<K, V>, ghost z0: Zipper<Node<K, V>>) returns (y: Node<K, V>)
      requires Holds(z0) && Whole(z0) == tree && z0.tree.Fork? && z0.tree.node == x0
      ensures y == if After(z0.path) == [] then root else After(z0.path)[0]
      ensures After(z0.path) != [] ==> y != root
    {
      hide Holds, Nodes, PathNodes, RedBlack, Ordered;
      var x := x0;
      ghost var z := z0;
      Look(z);
      y := x.parent;
      while x == y.right
        invariant Holds(z) && Whole(z) == tree && z.tree.Fork? && z.tree.node == x && y == x.parent
        invariant After(z.path) == After(z0.path)
        decreases z.path
      {
        x := y;
        y := y.parent;
        Look(z); HoldsUp(z);
        z := Up(z);
        Look(z);
      }
      Look(z);
    }

    method TreeSuccessor(x0: Node<K, V>) returns (y: Node<K, V>, ghost at: nat, ghost z: Zipper<Node<K, V>>)
      requires Valid() && x0 in Contents()
      ensures at < |Contents()| && Contents()[at] == x0
      ensures y == NodeAt(at + 1)
      ensures exists i: nat :: i < |Contents()| && Contents()[i] == x0 && y == NodeAt(i + 1)
      ensures x0.right != nilx ==>
        && Holds(z) && Whole(z) == tree && z.tree.Fork? && z.tree.node == y && z.tree.left.Leaf?
        && |Before(z.path)| == at + 1
    {
      hide Holds, Nodes, PathNodes, RedBlack, Ordered;
      var nil := nilx;
      var root := this.root;
      var x := x0;
      z := Find(x);
      Look(z); HoldsDown(z);
      InOrderAround(z);
      ghost var a := Before(z.path) + InOrder(z.tree.left);
      at := |a|;
      y := x.right;
      if nil != y {
        z := DownRight(z);
        y, z := Leftmost(y, z);
        InOrderAround(z);
      } else {
        y := UpFromRight(x, z);
        if y == root { return nil, at, z; }
      }
    }
  
    // Down along the right children.
    method Rightmost(y0: Node<K, V>, ghost z0: Zipper<Node<K, V>>) returns (y: Node<K, V>, ghost z: Zipper<Node<K, V>>)
      requires Holds(z0) && Whole(z0) == tree && z0.tree.Fork? && z0.tree.node == y0
      ensures Holds(z) && Whole(z) == tree && z.tree.Fork? && z.tree.node == y && z.tree.right.Leaf?
      ensures After(z.path) == After(z0.path)
    {
      hide Holds, Nodes, PathNodes, RedBlack, Ordered;
      y, z := y0, z0;
      Look(z);
      while y.right != nilx
        invariant Holds(z) && Whole(z) == tree && z.tree.Fork? && z.tree.node == y
        invariant y.right == Ref(z.tree.right, Sentinels()) && After(z.path) == After(z0.path)
        decreases z.tree
      {
        y := y.right;
        HoldsDown(z);
        z := DownRight(z);
        Look(z);
      }
      Look(z);
    }

    method TreePredecessor(x0: Node<K, V>) returns (y: Node<K, V>, ghost at: nat)
      requires Valid() && x0 in Contents()
      ensures at < |Contents()| && Contents()[at] == x0
      ensures y == NodeAt(at - 1)
      ensures exists i: nat :: i < |Contents()| && Contents()[i] == x0 && y == NodeAt(i - 1)
    {
      hide Holds, Nodes, PathNodes, RedBlack, Ordered;
      var nil := nilx;
      var root := this.root;
      var x := x0;
      ghost var z := Find(x);
      Look(z); HoldsDown(z);
      InOrderAround(z);
      ghost var a, b := Before(z.path), InOrder(z.tree.right) + After(z.path);
      at := |a| + |InOrder(z.tree.left)|;
      y := x.left;
      if nil != y {
        z := DownLeft(z);
        y, z := Rightmost(y, z);
        InOrderAround(z);
      } else {
        y := x.parent;
        while x == y.left
          invariant Holds(z) && Whole(z) == tree && z.tree.Fork? && z.tree.node == x && y == x.parent
          invariant Before(z.path) + [x0] + b == InOrder(tree) && |Before(z.path)| == at
          decreases z.path
        {
          Look(z);
          if y == root { return nil, at; }
          x := y;
          y := y.parent;
          HoldsUp(z);
          z := Up(z);
          Look(z);
        }
        Look(z);
      }
    }

    // A step forward is undone by a step back.
    method StepAndReturn(x: Node<K, V>) returns (forth: Node<K, V>, back: Node<K, V>)
      requires Valid() && x in Contents()
      ensures x == Contents()[|Contents()| - 1] ==> forth == nilx
      ensures x != Contents()[|Contents()| - 1] ==> forth in Contents() && back == x
    {
      InOrderDistinct(tree);
      ghost var at, z;
      forth, at, z := TreeSuccessor(x);
      back := x;
      if forth != nilx {
        ghost var at';
        back, at' := TreePredecessor(forth);
      }
    }

    // And a step back by a step forward.
    method StepBackAndReturn(x: Node<K, V>) returns (back: Node<K, V>, forth: Node<K, V>)
      requires Valid() && x in Contents()
      ensures x == Contents()[0] ==> back == nilx
      ensures x != Contents()[0] ==> back in Contents() && forth == x
    {
      InOrderDistinct(tree);
      ghost var at;
      back, at := TreePredecessor(x);
      forth := x;
      if back != nilx {
        ghost var at', z;
        forth, at', z := TreeSuccessor(back);
      }
    }

    // ----- deletion

    // x occupies the hole, and is one black node short there.
    ghost predicate Lacking(x: Node<K, V>, z: Zipper<Node<K, V>>, h: nat)
      reads this`nodes, nilx, nodes, x
    {
      && Holds(z) && Short(z, h)
      && x == Ref(z.tree, Sentinels()) && x.parent == Above(z.path, Sentinels())
    }

    // The whole tree is sound again, and x is its old root, painted black by now.
    ghost predicate Restored(x: Node<K, V>, r: Node<K, V>, z: Zipper<Node<K, V>>)
      reads this`nodes, nilx, nodes, r
    {
      z.path.Top? && Holds(z) && RedBlack(z.tree) && x == r && r in nodes && !r.red
    }

    // A red sibling to the right is turned into a black one.
    method BlackenSiblingLeft(x: Node<K, V>, ghost z0: Zipper<Node<K, V>>, ghost h: nat)
      returns (w: Node<K, V>, ghost z: Zipper<Node<K, V>>)
      requires Lacking(x, z0, h) && !IsRed(z0.tree) && z0.path.LeftOf?
      modifies nodes`left, nodes`right, nodes`parent, nodes`red
      ensures Lacking(x, z, h) && z.tree == z0.tree && z.path.LeftOf? && z.path.node == z0.path.node
      ensures z.path.other.Fork? && !z.path.other.red && w == z.path.other.node
      ensures z == z0 || (z.path.red && z.path.up.LeftOf? && z.path.up.up == z0.path.up)
      ensures InOrder(Whole(z)) == InOrder(Whole(z0))
    {
      hide Holds, InOrder, Nodes, PathNodes;
      z := z0;
      RedSiblingSound(z, h);
      HoldsUp(z); HoldsDown(Up(z)); Look(z); Look(DownRight(Up(z)));
      w := x.parent.right;
      if w.red {
        Paint(w, false, DownRight(Up(z)));
        z := Painted(DownRight(Up(z)), false);
        HoldsUp(z); Look(Up(z));
        Paint(x.parent, true, Up(z));
        z := Painted(Up(z), true);
        LeftRotate(x.parent, z);
        z := At(z.path, RotateLeft(z.tree));
        HoldsDown(z); HoldsDown(DownLeft(z));
        z := DownLeft(DownLeft(z));
        Look(z);
        w := x.parent.right;
      }
    }

    // A black sibling to the right with a red child closes the gap.
    method CloseLeft(x: Node<K, V>, w0: Node<K, V>, ghost z0: Zipper<Node<K, V>>, ghost h: nat)
      returns (ghost t: Tree<Node<K, V>>)
      requires Lacking(x, z0, h) && !IsRed(z0.tree) && z0.path.LeftOf?
      requires z0.path.other.Fork? && !z0.path.other.red && w0 == z0.path.other.node
      requires w0.left.red || w0.right.red
      modifies nodes`left, nodes`right, nodes`parent, nodes`red
      ensures Holds(At(Top, t)) && RedBlack(t) && InOrder(t) == InOrder(Whole(z0))
      ensures z0.path.node in nodes && !z0.path.node.red
      ensures !z0.path.up.Top? ==> Ref(t, Sentinels()) == Ref(Whole(z0), Sentinels())
    {
      hide Holds, InOrder, Nodes, PathNodes;
      var w := w0;
      ghost var z := z0;
      HoldsUp(z); HoldsDown(Up(z)); Look(z); Look(DownRight(Up(z)));
      HoldsDown(DownRight(Up(z)));
      if !w.right.red {
        NearNephewSound(z, h);
        Look(DownLeft(DownRight(Up(z))));
        Paint(w.left, false, DownLeft(DownRight(Up(z))));
        z := Painted(DownLeft(DownRight(Up(z))), false);
        HoldsUp(z);
        Paint(w, true, Up(z));
        z := Painted(Up(z), true);
        RightRotate(w, z);
        z := At(z.path, RotateRight(z.tree));
        HoldsUp(z); HoldsDown(Up(z));
        z := DownLeft(Up(z));
        Look(z);
        w := x.parent.right;
      }
      t := FinishLeft(x, w, z, h);
      if !z0.path.up.Top? {
        SameTop(z0.path.up, Up(z0).tree, Up(z).tree);
      }
    }

    method FinishLeft(x: Node<K, V>, w: Node<K, V>, ghost z0: Zipper<Node<K, V>>, ghost h: nat)
      returns (ghost t: Tree<Node<K, V>>)
      requires Lacking(x, z0, h) && !IsRed(z0.tree) && z0.path.LeftOf?
      requires z0.path.other.Fork? && !z0.path.other.red && w == z0.path.other.node
      requires IsRed(z0.path.other.right)
      modifies nodes`left, nodes`right, nodes`parent, nodes`red
      ensures Holds(At(Top, t)) && RedBlack(t) && InOrder(t) == InOrder(Whole(z0))
      ensures z0.path.node in nodes && !z0.path.node.red
      ensures !z0.path.up.Top? ==> Ref(t, Sentinels()) == Ref(Whole(z0), Sentinels())
    {
      hide Holds, InOrder, Nodes, PathNodes;
      ghost var z := z0;
      ClosedSound(z, h);
      HoldsUp(z); HoldsDown(Up(z)); Look(z);
      z := DownRight(Up(z));
      Look(z);
      Paint(w, x.parent.red, z);
      z := Painted(z, z0.path.red);
      HoldsUp(z); Look(Up(z));
      Paint(x.parent, false, Up(z));
      z := Painted(Up(z), false);
      HoldsDown(z); HoldsDown(DownRight(z)); Look(DownRight(z)); Look(DownRight(DownRight(z)));
      Paint(w.right, false, DownRight(DownRight(z)));
      z := Painted(DownRight(DownRight(z)), false);
      HoldsUp(z); HoldsUp(Up(z));
      z := Up(Up(z));
      Look(z);
      LeftRotate(x.parent, z);
      z := At(z.path, RotateLeft(z.tree));
      HoldsDown(z); Look(DownLeft(z));
      HoldsWhole(z);
      t := Whole(z);
      if !z0.path.up.Top? {
        SameTop(z0.path.up, Up(z0).tree, z.tree);
      }
    }

    // One round of the repair when x is a left child; r is the root at the start.
    method RoundLeft(x0: Node<K, V>, r: Node<K, V>, ghost z0: Zipper<Node<K, V>>, ghost h0: nat)
      returns (x: Node<K, V>, ghost z: Zipper<Node<K, V>>, ghost h: nat, ghost done: bool)
      requires Lacking(x0, z0, h0) && !IsRed(z0.tree) && z0.path.LeftOf?
      requires r == Ref(Whole(z0), Sentinels())
      modifies nodes`left, nodes`right, nodes`parent, nodes`red
      ensures InOrder(Whole(z)) == InOrder(Whole(z0))
      ensures if done then Restored(x, r, z)
              else
                && Lacking(x, z, h) && (Depth(z.path) < Depth(z0.path) || x.red)
                && (x.red || r == Ref(Whole(z), Sentinels()))
    {
      hide Holds, InOrder, Nodes, PathNodes, Short;
      HoldsWhole(z0); Look(At(Top, Whole(z0))); HoldsUp(z0); Look(Up(z0));
      var w;
      w, z := BlackenSiblingLeft(x0, z0, h0);
      HoldsUp(z); HoldsDown(Up(z)); Look(z); Look(DownRight(Up(z)));
      if !z0.path.up.Top? {
        SameTop(z0.path.up, Up(z0).tree, if z == z0 then Up(z).tree else Up(Up(z)).tree);
      }
      if !w.right.red && !w.left.red {
        BlackSiblingSound(z, h0);
        Paint(w, true, DownRight(Up(z)));
        h := if z.path.red then h0 else h0 + 1;
        z := Painted(DownRight(Up(z)), true);
        HoldsUp(z);
        z := Up(z);
        x := x0.parent;
        Look(z);
        done := false;
        if !z0.path.up.Top? {
          SameTop(z0.path.up, Up(z0).tree, z.tree);
        }
      } else {
        ghost var t := CloseLeft(x0, w, z, h0);
        x := r;
        Look(At(Top, t));
        if z0.path.up.Top? {
          assert Whole(z0) == Whole(Up(z0)) == Up(z0).tree;
        } else {
          assert r == Ref(Whole(z), Sentinels()) == Ref(t, Sentinels());
        }
        z := At(Top, t);
        done := true;
        h := h0;
      }
    }

    // A red sibling to the left is turned into a black one.
    method BlackenSiblingRight(x: Node<K, V>, ghost z0: Zipper<Node<K, V>>, ghost h: nat)
      returns (w: Node<K, V>, ghost z: Zipper<Node<K, V>>)
      requires Lacking(x, z0, h) && !IsRed(z0.tree) && z0.path.RightOf?
      modifies nodes`right, nodes`left, nodes`parent, nodes`red
      ensures Lacking(x, z, h) && z.tree == z0.tree && z.path.RightOf? && z.path.node == z0.path.node
      ensures z.path.other.Fork? && !z.path.other.red && w == z.path.other.node
      ensures z == z0 || (z.path.red && z.path.up.RightOf? && z.path.up.up == z0.path.up)
      ensures InOrder(Whole(z)) == InOrder(Whole(z0))
    {
      hide Holds, InOrder, Nodes, PathNodes;
      z := z0;
      RedSiblingSound(z, h);
      HoldsUp(z); HoldsDown(Up(z)); Look(z); Look(DownLeft(Up(z)));
      w := x.parent.left;
      if w.red {
        Paint(w, false, DownLeft(Up(z)));
        z := Painted(DownLeft(Up(z)), false);
        HoldsUp(z); Look(Up(z));
        Paint(x.parent, true, Up(z));
        z := Painted(Up(z), true);
        RightRotate(x.parent, z);
        z := At(z.path, RotateRight(z.tree));
        HoldsDown(z); HoldsDown(DownRight(z));
        z := DownRight(DownRight(z));
        Look(z);
        w := x.parent.left;
      }
    }

    // A black sibling to the left with a red child closes the gap.
    method CloseRight(x: Node<K, V>, w0: Node<K, V>, ghost z0: Zipper<Node<K, V>>, ghost h: nat)
      returns (ghost t: Tree<Node<K, V>>)
      requires Lacking(x, z0, h) && !IsRed(z0.tree) && z0.path.RightOf?
      requires z0.path.other.Fork? && !z0.path.other.red && w0 == z0.path.other.node
      requires w0.right.red || w0.left.red
      modifies nodes`right, nodes`left, nodes`parent, nodes`red
      ensures Holds(At(Top, t)) && RedBlack(t) && InOrder(t) == InOrder(Whole(z0))
      ensures z0.path.node in nodes && !z0.path.node.red
      ensures !z0.path.up.Top? ==> Ref(t, Sentinels()) == Ref(Whole(z0), Sentinels())
    {
      hide Holds, InOrder, Nodes, PathNodes;
      var w := w0;
      ghost var z := z0;
      HoldsUp(z); HoldsDown(Up(z)); Look(z); Look(DownLeft(Up(z)));
      HoldsDown(DownLeft(Up(z)));
      if !w.left.red {
        NearNephewSound(z, h);
        Look(DownRight(DownLeft(Up(z))));
        Paint(w.right, false, DownRight(DownLeft(Up(z))));
        z := Painted(DownRight(DownLeft(Up(z))), false);
        HoldsUp(z);
        Paint(w, true, Up(z));
        z := Painted(Up(z), true);
        LeftRotate(w, z);
        z := At(z.path, RotateLeft(z.tree));
        HoldsUp(z); HoldsDown(Up(z));
        z := DownRight(Up(z));
        Look(z);
        w := x.parent.left;
      }
      t := FinishRight(x, w, z, h);
      if !z0.path.up.Top? {
        SameTop(z0.path.up, Up(z0).tree, Up(z).tree);
      }
    }

    method FinishRight(x: Node<K, V>, w: Node<K, V>, ghost z0: Zipper<Node<K, V>>, ghost h: nat)
      returns (ghost t: Tree<Node<K, V>>)
      requires Lacking(x, z0, h) && !IsRed(z0.tree) && z0.path.RightOf?
      requires z0.path.other.Fork? && !z0.path.other.red && w == z0.path.other.node
      requires IsRed(z0.path.other.left)
      modifies nodes`right, nodes`left, nodes`parent, nodes`red
      ensures Holds(At(Top, t)) && RedBlack(t) && InOrder(t) == InOrder(Whole(z0))
      ensures z0.path.node in nodes && !z0.path.node.red
      ensures !z0.path.up.Top? ==> Ref(t, Sentinels()) == Ref(Whole(z0), Sentinels())
    {
      hide Holds, InOrder, Nodes, PathNodes;
      ghost var z := z0;
      ClosedSound(z, h);
      HoldsUp(z); HoldsDown(Up(z)); Look(z);
      z := DownLeft(Up(z));
      Look(z);
      Paint(w, x.parent.red, z);
      z := Painted(z, z0.path.red);
      HoldsUp(z); Look(Up(z));
      Paint(x.parent, false, Up(z));
      z := Painted(Up(z), false);
      HoldsDown(z); HoldsDown(DownLeft(z)); Look(DownLeft(z)); Look(DownLeft(DownLeft(z)));
      Paint(w.left, false, DownLeft(DownLeft(z)));
      z := Painted(DownLeft(DownLeft(z)), false);
      HoldsUp(z); HoldsUp(Up(z));
      z := Up(Up(z));
      Look(z);
      RightRotate(x.parent, z);
      z := At(z.path, RotateRight(z.tree));
      HoldsDown(z); Look(DownRight(z));
      HoldsWhole(z);
      t := Whole(z);
      if !z0.path.up.Top? {
        SameTop(z0.path.up, Up(z0).tree, z.tree);
      }
    }

    // One round of the repair when x is a right child; r is the root at the start.
    method RoundRight(x0: Node<K, V>, r: Node<K, V>, ghost z0: Zipper<Node<K, V>>, ghost h0: nat)
      returns (x: Node<K, V>, ghost z: Zipper<Node<K, V>>, ghost h: nat, ghost done: bool)
      requires Lacking(x0, z0, h0) && !IsRed(z0.tree) && z0.path.RightOf?
      requires r == Ref(Whole(z0), Sentinels())
      modifies nodes`right, nodes`left, nodes`parent, nodes`red
      ensures InOrder(Whole(z)) == InOrder(Whole(z0))
      ensures if done then Restored(x, r, z)
              else
                && Lacking(x, z, h) && (Depth(z.path) < Depth(z0.path) || x.red)
                && (x.red || r == Ref(Whole(z), Sentinels()))
    {
      hide Holds, InOrder, Nodes, PathNodes, Short;
      HoldsWhole(z0); Look(At(Top, Whole(z0))); HoldsUp(z0); Look(Up(z0));
      var w;
      w, z := BlackenSiblingRight(x0, z0, h0);
      HoldsUp(z); HoldsDown(Up(z)); Look(z); Look(DownLeft(Up(z)));
      if !z0.path.up.Top? {
        SameTop(z0.path.up, Up(z0).tree, if z == z0 then Up(z).tree else Up(Up(z)).tree);
      }
      if !w.left.red && !w.right.red {
        BlackSiblingSound(z, h0);
        Paint(w, true, DownLeft(Up(z)));
        h := if z.path.red then h0 else h0 + 1;
        z := Painted(DownLeft(Up(z)), true);
        HoldsUp(z);
        z := Up(z);
        x := x0.parent;
        Look(z);
        done := false;
        if !z0.path.up.Top? {
          SameTop(z0.path.up, Up(z0).tree, z.tree);
        }
      } else {
        ghost var t := CloseRight(x0, w, z, h0);
        x := r;
        Look(At(Top, t));
        if z0.path.up.Top? {
          assert Whole(z0) == Whole(Up(z0)) == Up(z0).tree;
        } else {
          assert r == Ref(Whole(z), Sentinels()) == Ref(t, Sentinels());
        }
        z := At(Top, t);
        done := true;
        h := h0;
      }
    }

    method Blacken(x: Node<K, V>, ghost z: Zipper<Node<K, V>>)
      requires Holds(z)
      requires x == Ref(z.tree, Sentinels()) || (x in nodes && !x.red)
      modifies x`red
      ensures Holds(if x == Ref(z.tree, Sentinels()) then At(z.path, Black(z.tree)) else z)
    {
      hide InOrder, Nodes, PathNodes, Laid;
      ghost var m := Cells(nodes);
      ReadSentinels(z, Sentinels(), m);
      if z.tree.Fork? {
        ReadAbove(z, Sentinels(), m);
        PaintKeeps(z, false);
      }
      x.red := false;
      if x == Ref(z.tree, Sentinels()) && z.tree.Fork? {
        LaidPaint(z, false, Sentinels(), m, Cells(nodes));
      } else {
        assert Cells(nodes) == m;
      }
    }

    // Only at the top is the root itself in the hole.
    lemma NotTheRoot(z: Zipper<Node<K, V>>)
      requires Holds(z) && !z.path.Top?
      ensures Ref(Whole(z), Sentinels()) != Ref(z.tree, Sentinels())
    {
      SameTop(z.path, z.tree, z.tree);
      DistinctPathDisjoint(z.path, Nodes(z.tree));
    }

    method RBDeleteFixUp(x0: Node<K, V>, ghost z0: Zipper<Node<K, V>>, ghost h0: nat)
      requires Lacking(x0, z0, h0)
      modifies this`tree, nodes`left, nodes`right, nodes`parent, nodes`red, nilx`red
      ensures Holds(At(Top, tree)) && RedBlack(tree) && InOrder(tree) == InOrder(Whole(z0))
    {
      hide Holds, InOrder, Nodes, PathNodes;
      HoldsWhole(z0);
      Look(At(Top, Whole(z0)));
      var root := this.root.left;
      var x := x0;
      ghost var z, h, done := z0, h0, false;
      while !x.red && root != x
        invariant InOrder(Whole(z)) == InOrder(Whole(z0))
        invariant if done then Restored(x, root, z)
                  else Lacking(x, z, h) && (x.red || root == Ref(Whole(z), Sentinels()))
        decreases if done || x.red then 0 else 1 + Depth(z.path)
      {
        Look(z);
        if !z.path.Top? { RedSiblingSound(z, h); }
        if x == x.parent.left {
          x, z, h, done := RoundLeft(x, root, z, h);
        } else {
          x, z, h, done := RoundRight(x, root, z, h);
        }
      }
      Look(z);
      if !done {
        if !z.path.Top? { NotTheRoot(z); }
        ShortFinished(z, h);
      }
      Blacken(x, z);
      if x == Ref(z.tree, Sentinels()) { z := At(z.path, Black(z.tree)); }
      HoldsWhole(z);
      tree := Whole(z);
    }
  
    twostate lemma Excised(z: Zipper<Node<K, V>>)
      requires old(Holds(z)) && z.tree.Fork? && (z.tree.left.Leaf? || z.tree.right.Leaf?)
      requires
        var y, x, up := z.tree.node, Ref(OnlyChild(z.tree), Sentinels()), Above(z.path, Sentinels());
        && nodes == old(nodes) - {y} && nilx.red == old(nilx.red)
        && up in nodes && (x != nilx ==> x in nodes)
        && (forall n :: n in nodes ==> n.red == old(n.red) && (n != x ==> n.parent == old(n.parent)))
        && (forall n :: n in nodes && n != up ==> n.left == old(n.left) && n.right == old(n.right))
        && (x != nilx ==> x.parent == up && x != up)
        && if z.path.RightOf? then up.right == x && up.left == old(up.left)
           else up.left == x && up.right == old(up.right)
      ensures Holds(At(z.path, OnlyChild(z.tree)))
    {
      hide LaidTree, LaidPath;
      LaidExcise(z, Sentinels(), old(Cells(nodes)), Cells(nodes));
      DistinctPathDisjoint(z.path, Nodes(z.tree));
    }

    lemma LookOnlyChild(z: Zipper<Node<K, V>>)
      requires Holds(z) && z.tree.Fork? && (z.tree.left.Leaf? || z.tree.right.Leaf?)
      ensures
        var y, x, up := z.tree.node, Ref(OnlyChild(z.tree), Sentinels()), Above(z.path, Sentinels());
        && nilx !in nodes && y in nodes && up in nodes && up != y && y.parent == up
        && (x != nilx ==> x in nodes && x != up && x != y)
        && x == (if y.left == nilx then y.right else y.left)
        && (up.left == y <==> !z.path.RightOf?)
        && (root == up <==> z.path.Top?)
    {
      Look(z);
      HoldsDown(z);
      Look(if z.tree.left.Leaf? then DownRight(z) else DownLeft(z));
      ReadAbove(z, Sentinels(), Cells(nodes));
      DistinctPathDisjoint(z.path, Nodes(z.tree));
    }

    // Unlinks a node that has at most one child.
    method Splice(y: Node<K, V>, ghost z: Zipper<Node<K, V>>) returns (x: Node<K, V>)
      requires Holds(z) && z.tree.Fork? && z.tree.node == y && (z.tree.left.Leaf? || z.tree.right.Leaf?)
      modifies this`nodes, nodes`left, nodes`right, nodes`parent, nilx`parent
      ensures nodes == old(nodes) - {y}
      ensures Holds(At(z.path, OnlyChild(z.tree)))
      ensures x == Ref(OnlyChild(z.tree), Sentinels()) && x.parent == Above(z.path, Sentinels())
    {
      hide Holds, Nodes, PathNodes;
      LookOnlyChild(z);
      var nil := nilx;
      var root := this.root;
      x := if y.left == nil then y.right else y.left;
      x.parent := y.parent;
      if root == x.parent {
        root.left := x;
      } else {
        if y == y.parent.left {
          y.parent.left := x;
        } else {
          y.parent.right := x;
        }
      }
      nodes := nodes - {y};
      Excised(z);
    }
  
    // z.1 put in the place of the topmost node of z.0.
    function Replaced(z: (Zipper<Node<K, V>>, Node<K, V>)): Zipper<Node<K, V>>
      requires z.0.tree.Fork?
    {
      At(z.0.path, Fork(z.0.tree.left, z.1, z.0.tree.red, z.0.tree.right))
    }

    twostate lemma Substituted(z: (Zipper<Node<K, V>>, Node<K, V>))
      requires old(Holds(z.0)) && z.0.tree.Fork? && z.1 !in old(nodes) && z.1 != nilx
      requires
        var n, y, up := z.0.tree.node, z.1, Above(z.0.path, Sentinels());
        var l, r := old(n.left), old(n.right);
        && nodes == old(nodes) - {n} + {y} && nilx.red == old(nilx.red)
        && up in nodes && (l != nilx ==> l in nodes) && (r != nilx ==> r in nodes)
        && up !in {l, r, n} && n !in {l, r}
        && (forall m :: m in old(nodes) && m != n ==> m.red == old(m.red))
        && (forall m :: m in old(nodes) && m !in {n, l, r} ==> m.parent == old(m.parent))
        && (forall m :: m in old(nodes) && m !in {n, up} ==> m.left == old(m.left) && m.right == old(m.right))
        && y.left == l && y.right == r && y.parent == up && y.red == old(n.red)
        && (l != nilx ==> l.parent == y) && (r != nilx ==> r.parent == y)
        && if z.0.path.RightOf? then up.right == y && up.left == old(up.left)
           else up.left == y && up.right == old(up.right)
      ensures Holds(Replaced(z))
    {
      hide LaidTree, LaidPath;
      ReadAbove(z.0, Sentinels(), old(Cells(nodes)));
      ReadSentinels(z.0, Sentinels(), old(Cells(nodes)));
      LaidReplace(z.0, z.1, Sentinels(), old(Cells(nodes)), Cells(nodes));
      ReplacedNodes(z.0, z.1);
    }

    lemma LookAround(z: Zipper<Node<K, V>>)
      requires Holds(z) && z.tree.Fork?
      ensures
        var n, up := z.tree.node, Above(z.path, Sentinels());
        var l, r := n.left, n.right;
        && nilx !in nodes && n in nodes && up in nodes && n.parent == up
        && (l != nilx ==> l in nodes) && (r != nilx ==> r in nodes)
        && up !in {l, r, n} && n !in {l, r}
        && (up.left == n <==> !z.path.RightOf?)
    {
      Look(z);
      HoldsDown(z);
      Look(DownLeft(z));
      Look(DownRight(z));
      ReadAbove(z, Sentinels(), Cells(nodes));
      DistinctPathDisjoint(z.path, Nodes(z.tree));
    }

    method CopyLinks(n: Node<K, V>, y: Node<K, V>)
      requires n != y
      modifies y`left, y`right, y`parent, y`red
      ensures y.left == n.left && y.right == n.right && y.parent == n.parent && y.red == n.red
    {
      y.left := n.left;
      y.right := n.right;
      y.parent := n.parent;
      y.red := n.red;
    }

    // Gives y the links and the colour of n, which thereby leaves the tree.
    method Substitute(n: Node<K, V>, y: Node<K, V>, ghost z: Zipper<Node<K, V>>)
      requires Holds(z) && z.tree.Fork? && z.tree.node == n
      requires y !in nodes && y != nilx
      modifies this`nodes, y`left, y`right, y`parent, y`red, nodes`left, nodes`right, nodes`parent, nilx`parent
      ensures nodes == old(nodes) - {n} + {y}
      ensures Holds(Replaced((z, y)))
    {
      hide Holds, Nodes, PathNodes;
      LookAround(z);
      CopyLinks(n, y);
      n.right.parent := y;
      n.left.parent := y;
      if n == n.parent.left {
        n.parent.left := y;
      } else {
        n.parent.right := y;
      }
      nodes := nodes - {n} + {y};
      Substituted((z, y));
    }

    // The part of a deletion that takes the node y out of the tree for good or for a while.
    method Extract(y: Node<K, V>, ghost z: Zipper<Node<K, V>>, ghost at: nat)
      requires Valid() && Holds(z) && Whole(z) == tree
      requires z.tree.Fork? && z.tree.node == y && (z.tree.left.Leaf? || z.tree.right.Leaf?)
      requires at == |Before(z.path)| + |InOrder(z.tree.left)|
      modifies this`tree, this`nodes, nodes`left, nodes`right, nodes`parent, nodes`red, nilx`parent, nilx`red
      ensures nodes == old(nodes) - {y}
      ensures Holds(At(Top, tree)) && RedBlack(tree)
      ensures at < |old(Contents())| && old(Contents())[at] == y && Contents() == Without(old(Contents()), at)
    {
      hide Holds, Nodes, PathNodes;
      Look(z);
      ghost var h := ExcisedSound(z);
      ExcisedInOrder(z);
      var x := Splice(y, z);
      ghost var z' := At(z.path, OnlyChild(z.tree));
      if !y.red {
        RBDeleteFixUp(x, z', h);
      } else {
        HoldsWhole(z');
        tree := Whole(z');
      }
    }

    lemma WithoutOrdered(s: seq<Node<K, V>>, i: nat)
      requires Ordered(s) && i < |s|
      ensures Ordered(Without(s, i))
    {
    }

    // Puts y, which is out of the tree, in the place of n.
    method PutInPlace(n: Node<K, V>, y: Node<K, V>, ghost at: nat)
      requires Holds(At(Top, tree)) && RedBlack(tree)
      requires at < |Contents()| && Contents()[at] == n
      requires y !in nodes && y != nilx
      modifies this`tree, this`nodes, y`left, y`right, y`parent, y`red
      modifies nodes`left, nodes`right, nodes`parent, nilx`parent
      ensures Holds(At(Top, tree)) && RedBlack(tree)
      ensures nodes == old(nodes) - {n} + {y} && Contents() == old(Contents())[at := y]
    {
      hide Nodes, PathNodes, InOrder, RedBlack, LaidTree, LaidPath;
      ghost var z := Find(n);
      ReplacedInOrder(z, y, at);
      ReplacedSound(z, y);
      Substitute(n, y, z);
      z := Replaced((z, y));
      HoldsWhole(z);
      tree := Whole(z);
    }

    lemma WithoutSuccessor(s: seq<Node<K, V>>, at: nat)
      requires at + 1 < |s|
      ensures Without(s, at + 1)[at] == s[at]
      ensures Without(s, at + 1)[at := s[at + 1]] == Without(s, at)
    {
    }

    // Exactly the node z leaves the tree.
    method RBDelete(z: Node<K, V>) returns (ghost at: nat)
      requires Valid() && z in Contents()
      modifies this`tree, this`nodes, nodes`left, nodes`right, nodes`parent, nodes`red, nilx`parent, nilx`red
      ensures Valid() && nodes == old(nodes) - {z}
      ensures at < |old(Contents())| && old(Contents())[at] == z && Contents() == Without(old(Contents()), at)
    {
      hide Holds, Nodes, PathNodes, Ordered, RedBlack, Without;
      ghost var s := Contents();
      ghost var zy := Find(z);
      Look(zy);
      var y := z;
      if !(z.left == nilx || z.right == nilx) {
        y, at, zy := TreeSuccessor(z);
        Look(zy);
        WithoutSuccessor(s, at);
        Extract(y, zy, at + 1);
        PutInPlace(z, y, at);
      } else {
        at := |Before(zy.path)| + |InOrder(zy.tree.left)|;
        Extract(y, zy, at);
      }
      WithoutOrdered(s, at);
    }
  
    // ----- looking up a key

    ghost predicate NoMatch(s: seq<Node<K, V>>, q: K) {
      forall n :: n in s ==> compare(n.key, q) != 0
    }

    lemma RuledOut(z: Zipper<Node<K, V>>, q: K)
      requires Preorder(compare) && Ordered(InOrder(Whole(z))) && z.tree.Fork?
      requires NoMatch(Before(z.path), q) && NoMatch(After(z.path), q)
      requires compare(z.tree.node.key, q) != 0
      ensures
        var d := if compare(z.tree.node.key, q) == 1 then DownLeft(z) else DownRight(z);
        NoMatch(Before(d.path), q) && NoMatch(After(d.path), q)
    {
      InOrderAround(z);
      var s, x := InOrder(Whole(z)), z.tree.node;
      var a, b := Before(z.path) + InOrder(z.tree.left), InOrder(z.tree.right) + After(z.path);
      assert s[|a|] == x;
      if compare(x.key, q) == 1 {
        forall n | n in b
          ensures compare(n.key, q) != 0
        {
          var j :| 0 <= j < |b| && b[j] == n;
          assert s[|a| + 1 + j] == n;
          assert compare(x.key, n.key) <= 0;
        }
      } else {
        forall n | n in a
          ensures compare(n.key, q) != 0
        {
          var j :| 0 <= j < |a| && a[j] == n;
          assert s[j] == n;
          assert compare(n.key, x.key) <= 0;
        }
      }
    }

    lemma NothingLeft(z: Zipper<Node<K, V>>, q: K)
      requires z.tree.Leaf? && NoMatch(Before(z.path), q) && NoMatch(After(z.path), q)
      ensures NoMatch(InOrder(Whole(z)), q)
    {
      InOrderFill(z.path, z.tree);
    }

    lemma Unexplored(q: K)
      ensures NoMatch(Before<Node<K, V>>(Top), q) && NoMatch(After<Node<K, V>>(Top), q)
    {
    }

    // Finds a node comparing equal to q exactly when there is one.
    method RBExactQuery(q: K) returns (r: Node?<K, V>, ghost comparisons: nat)
      requires Valid()
      ensures r == null ==> NoMatch(Contents(), q)
      ensures r != null ==> r in Contents() && compare(r.key, q) == 0
      ensures Pow2(comparisons) <= (|Contents()| + 1) * (|Contents()| + 1)
    {
      hide Holds, Nodes, PathNodes, InOrder, Before, After, NoMatch, RedBlack;
      HeightBound(tree);
      Unexplored(q);
      ghost var z := At(Top, tree);
      var x := root.left;
      var nil := nilx;
      Look(z);
      comparisons := 0;
      if x == nil {
        NothingLeft(z, q);
        return null, comparisons;
      }
      var compVal := compare(x.key, q);
      comparisons := 1;
      while 0 != compVal
        invariant Holds(z) && Whole(z) == tree && z.tree.Fork? && z.tree.node == x
        invariant compVal == compare(x.key, q)
        invariant NoMatch(Before(z.path), q) && NoMatch(After(z.path), q)
        invariant comparisons + Height(z.tree) <= Height(tree) + 1
        decreases z.tree
      {
        Look(z); HoldsDown(z);
        RuledOut(z, q);
        if 1 == compVal {
          x := x.left;
          z := DownLeft(z);
        } else {
          x := x.right;
          z := DownRight(z);
        }
        Look(z);
        if x == nil {
          NothingLeft(z, q);
          Pow2Monotone(comparisons, Height(tree));
          return null, comparisons;
        }
        compVal := compare(x.key, q);
        comparisons := comparisons + 1;
      }
      Pow2Monotone(comparisons, Height(tree));
      InHole(z);
      r := x;
    }

    lemma InHole(z: Zipper<Node<K, V>>)
      requires z.tree.Fork?
      ensures z.tree.node in InOrder(Whole(z))
    {
      InOrderAround(z);
    }

    // ----- visiting every node

    lemma InsideNodes(z: Zipper<Node<K, V>>)
      requires Holds(z)
      ensures forall i :: 0 <= i < |InOrder(z.tree)| ==> InOrder(z.tree)[i] in nodes
    {
      forall i | 0 <= i < |InOrder(z.tree)|
        ensures InOrder(z.tree)[i] in nodes
      {
        InOrderNode(z.tree, InOrder(z.tree)[i]);
      }
    }

    // The arguments with which the callback is called, in the order of the calls.
    method TreeForEach1p(x0: Node?<K, V>, ghost z: Zipper<Node<K, V>>) returns (calls: seq<V>)
      requires Valid() && Holds(z) && z.tree.Fork?
      requires if x0 == null then z == At(Top, tree) else x0 == z.tree.node
      ensures |calls| == |InOrder(z.tree)| && forall i :: 0 <= i < |calls| ==> calls[i] == InOrder(z.tree)[i].info
      decreases z.tree
    {
      hide Nodes, PathNodes, Ordered, RedBlack, Holds;
      var nil := nilx;
      var x := if x0 == null then root.left else x0;
      Look(z); HoldsDown(z);
      InsideNodes(z);
      var before, after := [], [];
      if x.left != nil {
        before := TreeForEach1p(x.left, DownLeft(z));
      }
      if x.right != nil {
        after := TreeForEach1p(x.right, DownRight(z));
      }
      calls := before + [x.info] + after;
    }
  }
}
