/**
  The nodes of c/ujson.c.  The one field "parent" is the enclosing container
  while a hash is open, and the next element once the node has a successor in
  an array.
*/
module UjsonNodes {
  import opened UjsonScan

  datatype NodeType = HashType | ArrType | ValType

  // uj_hash, uj_arr and uj_str in one.  "tree" is what the string tree of a hash holds.
  class UNode {
    const nodeType: NodeType
    const scalar: Json
    var parent: UNode?
    var tree: map<string, seq<UNode>>
    var head: UNode?
    var tail: UNode?
    var count: nat
    ghost var elems: seq<UNode>   // of an array, in order
    ghost var owner: UNode?       // the array it is an element of
    ghost var index: nat          // and its place there
    ghost var abs: Json           // the tree below a finished node

    constructor Container(nodeType: NodeType)
      requires !nodeType.ValType?
      ensures this.nodeType == nodeType && parent == null && tree == map[] && head == null && tail == null && count == 0
      ensures elems == [] && owner == null
    {
      this.nodeType := nodeType;
      parent, tree, head, tail, count := null, map[], null, null, 0;
      scalar := Val(Null, "", false);
      elems, owner, index, abs := [], null, 0, Val(Null, "", false);
    }

    constructor Leaf(v: Json)
      ensures nodeType == ValType && scalar == v && abs == v && parent == null && owner == null && elems == []
    {
      nodeType, scalar := ValType, v;
      parent, tree, head, tail, count := null, map[], null, null, 0;
      elems, owner, index, abs := [], null, 0, v;
    }

    // The links of an array say what its elements are.
    ghost predicate Linked()
      reads this, elems
    {
      && count == |elems|
      && (if elems == [] then head == null else head == elems[0] && tail == elems[|elems| - 1])
      && (forall i :: 0 <= i < |elems| ==> elems[i].owner == this && elems[i].index == i)
      && (forall i :: 0 <= i < |elems| - 1 ==> elems[i].parent == elems[i + 1])
    }

    // Whose parent changes when an element is added.
    ghost function Tail(): set<UNode>
      reads this
    {
      if nodeType != ArrType || elems == [] then {} else {elems[|elems| - 1]}
    }

    // uj_arr__add
    method ArrAdd(el: UNode)
      requires nodeType == ArrType && Linked() && el.owner == null && el != this && this !in elems
      modifies `head, `tail, `count, `elems, Tail()`parent, el`owner, el`index
      ensures Linked() && elems == old(elems) + [el] && el.owner == this
    {
      count := count + 1;
      if head == null {
        head, tail := el, el;
      } else {
        tail.parent := el;
        tail := el;
      }
      el.owner, el.index := this, |elems|;
      elems := elems + [el];
    }
  }

  // How many arrays there are.
  function Arrs(path: seq<UNode>): nat {
    if path == [] then 0 else Arrs(path[..|path| - 1]) + if path[|path| - 1].nodeType == ArrType then 1 else 0
  }

  // The nodes of the set stand one by one for the values.
  ghost predicate Matches(nodes: seq<UNode>, values: seq<Json>, closed: set<UNode>)
    reads closed
  {
    |nodes| == |values| && forall i :: 0 <= i < |values| ==> nodes[i] in closed && nodes[i].abs == values[i]
  }

  // n is the top of v, whose parts are finished nodes.
  ghost predicate Shows(n: UNode, v: Json, closed: set<UNode>)
    reads n, n.elems, closed
  {
    match n.nodeType
    case HashType =>
      && v.Hash? && n.tree.Keys == v.members.Keys
      && forall k :: k in v.members ==> Matches(n.tree[k], v.members[k], closed)
    case ArrType => v.Arr? && n.Linked() && Matches(n.elems, v.items, closed)
    case ValType => v == n.scalar
  }

  // The list under a key, which may not be there yet.
  function Under<T>(tree: map<string, seq<T>>, key: string): seq<T> {
    if key in tree then tree[key] else []
  }

  // n shows v, with one more child behind that is not finished.
  ghost predicate Opens(n: UNode, v: Json, key: string, child: UNode, closed: set<UNode>)
    reads n, n.elems, closed
  {
    match n.nodeType
    case HashType =>
      && v.Hash? && n.tree.Keys == v.members.Keys + {key}
      && (forall k :: k in v.members && k != key ==> Matches(n.tree[k], v.members[k], closed))
      && |n.tree[key]| == |Under(v.members, key)| + 1
      && n.tree[key][|n.tree[key]| - 1] == child
      && Matches(n.tree[key][..|n.tree[key]| - 1], Under(v.members, key), closed)
    case ArrType =>
      && v.Arr? && n.Linked() && |n.elems| == |v.items| + 1 && n.elems[|v.items|] == child
      && Matches(n.elems[..|v.items|], v.items, closed)
    case ValType => false
  }

  ghost predicate Consistent(closed: set<UNode>)
    reads closed
  {
    forall n :: n in closed ==> (forall m :: m in n.elems ==> m in closed) && Shows(n, n.abs, closed)
  }

  // What a reader of the nodes finds: under each key the values in order, in an
  // array as many elements as there are, and in a leaf its scalar.
  lemma ReadNode(n: UNode, closed: set<UNode>)
    requires Consistent(closed) && n in closed
    ensures n.nodeType == ValType ==> n.abs == n.scalar
    ensures n.nodeType == ArrType ==> n.abs.Arr? && n.count == |n.abs.items|
    ensures n.nodeType == HashType ==> n.abs.Hash? && n.tree.Keys == n.abs.members.Keys
    ensures n.nodeType == HashType ==> forall k :: k in n.tree ==>
      && |n.tree[k]| == |n.abs.members[k]|
      && forall i :: 0 <= i < |n.tree[k]| ==> n.tree[k][i] in closed && n.tree[k][i].abs == n.abs.members[k][i]
  {
    assert Shows(n, n.abs, closed);
  }

  // uj_hash__store or uj_arr__add, seen from the tree whose top n is.
  method Hang(n: UNode, key: string, node: UNode, ghost v: Json, ghost closed: set<UNode>)
    requires Shows(n, v, closed) && n.nodeType != ValType && n !in closed
    requires node !in closed && node != n && node.owner == null && forall m :: m in n.elems ==> m in closed
    modifies n`tree, n`head, n`tail, n`count, n`elems, n.Tail()`parent, node`owner, node`index
    ensures Opens(n, v, key, node, closed)
    ensures n.elems == old(n.elems) + (if n.nodeType == ArrType then [node] else [])
    ensures n.parent == old(n.parent)
    ensures forall m :: m in closed ==> m.owner == old(m.owner) && m.index == old(m.index) && m.abs == old(m.abs)
    ensures forall m :: m in closed && m.owner != n ==> m.parent == old(m.parent)
  {
    if n.nodeType == HashType {
      n.tree := n.tree[key := Under(n.tree, key) + [node]];
    } else {
      n.ArrAdd(node);
      assert n.elems[..|v.items|] == old(n.elems);
    }
  }

  // m keeps its own fields, and its elements keep their links unless they are
  // elements of another array.
  twostate predicate Kept(m: UNode, cur: UNode)
    reads m, m.elems
  {
    && m.tree == old(m.tree) && m.head == old(m.head) && m.tail == old(m.tail) && m.count == old(m.count)
    && m.elems == old(m.elems)
    && forall e :: e in m.elems ==>
      e.owner == old(e.owner) && e.index == old(e.index) && (e.owner != cur ==> e.parent == old(e.parent))
  }

  twostate lemma StillShows(z: (UNode, Json, set<UNode>, UNode))
    requires z.0 != z.3 && old(Shows(z.0, z.1, z.2)) && Kept(z.0, z.3) && forall c :: c in z.2 ==> c.abs == old(c.abs)
    ensures Shows(z.0, z.1, z.2)
  {
  }

  twostate lemma StillOpens(z: (UNode, Json, string, UNode, set<UNode>, UNode))
    requires z.0 != z.5 && old(Opens(z.0, z.1, z.2, z.3, z.4)) && Kept(z.0, z.5)
    requires forall c :: c in z.4 ==> c.abs == old(c.abs)
    ensures Opens(z.0, z.1, z.2, z.3, z.4)
  {
  }

  twostate lemma StillConsistent(z: (set<UNode>, UNode))
    requires old(Consistent(z.0)) && z.1 !in z.0
    requires forall m :: m in z.0 ==> Kept(m, z.1) && m.abs == old(m.abs)
    ensures Consistent(z.0)
  {
    hide Shows;
    forall m | m in z.0
      ensures Shows(m, m.abs, z.0)
    {
      StillShows((m, m.abs, z.0, z.1));
    }
  }

  // Only values of unfinished nodes have changed.
  twostate predicate SameLinks(m: UNode)
    reads m, m.elems
  {
    && m.tree == old(m.tree) && m.head == old(m.head) && m.tail == old(m.tail) && m.count == old(m.count)
    && m.elems == old(m.elems)
    && forall e :: e in m.elems ==> e.owner == old(e.owner) && e.index == old(e.index) && e.parent == old(e.parent)
  }

  twostate lemma NewAbsShows(z: (UNode, Json, set<UNode>))
    requires old(Shows(z.0, z.1, z.2)) && SameLinks(z.0) && forall c :: c in z.2 ==> c.abs == old(c.abs)
    ensures Shows(z.0, z.1, z.2)
  {
  }

  twostate lemma NewAbsOpens(z: (UNode, Json, string, UNode, set<UNode>))
    requires old(Opens(z.0, z.1, z.2, z.3, z.4)) && SameLinks(z.0) && forall c :: c in z.4 ==> c.abs == old(c.abs)
    ensures Opens(z.0, z.1, z.2, z.3, z.4)
  {
  }

  lemma ShowsMore(n: UNode, v: Json, closed: set<UNode>, more: set<UNode>)
    requires Shows(n, v, closed) && closed <= more
    ensures Shows(n, v, more)
  {
  }

  lemma OpensMore(n: UNode, v: Json, key: string, child: UNode, closed: set<UNode>, more: set<UNode>)
    requires Opens(n, v, key, child, closed) && closed <= more
    ensures Opens(n, v, key, child, more)
  {
  }

  lemma ConsistentMore(closed: set<UNode>, n: UNode)
    requires Consistent(closed) && Shows(n, n.abs, closed) && forall m :: m in n.elems ==> m in closed
    ensures Consistent(closed + {n})
  {
    hide Shows;
    forall m | m in closed + {n}
      ensures Shows(m, m.abs, closed + {n})
    {
      ShowsMore(m, m.abs, closed, closed + {n});
    }
  }

  // Finishing the child.
  lemma OpensShows(n: UNode, v: Json, key: string, child: UNode, closed: set<UNode>)
    requires Opens(n, v, key, child, closed) && child in closed
    ensures Shows(n, UjsonScan.Add(v, key, child.abs), closed)
  {
    var w := UjsonScan.Add(v, key, child.abs);
    match n.nodeType
    case HashType =>
      assert Matches(n.tree[key], w.members[key], closed);
    case ArrType =>
      assert Matches(n.elems, w.items, closed);
    case ValType =>
  }
}
