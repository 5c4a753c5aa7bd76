/**
  The nodes of go/ujsonin.go in memory: JHash, JArr and JVal, and when a set of
  them represents trees.
*/
module GoTree {
  import opened GoParse

  datatype NodeType = TypeHash | TypeArr | TypeVal(kind: Kind)

  // JHash, JArr and JVal in one; "hash" is used by the first, "arr" by the
  // second, "str" by the third, and a JVal has no parent.
  class JNode {
    const nodeType: NodeType
    const str: string
    var parent: JNode?
    var hash: map<string, JNode>
    var arr: seq<JNode>
    ghost var abs: Json       // the tree below a node that is finished
    ghost const slot: string  // the key it has been added under

    constructor Container(nodeType: NodeType, parent: JNode?, ghost key: string)
      requires !nodeType.TypeVal?
      ensures this.nodeType == nodeType && this.parent == parent && hash == map[] && arr == []
      ensures abs == Empty(nodeType) && slot == key
    {
      this.nodeType, this.parent, this.hash, this.arr, this.str := nodeType, parent, map[], [], "";
      abs, slot := Empty(nodeType), key;
    }

    constructor Scalar(kind: Kind, str: string)
      ensures nodeType == TypeVal(kind) && this.str == str && abs == Val(kind, str) && parent == null
    {
      this.nodeType, this.str, this.parent, this.hash, this.arr := TypeVal(kind), str, null, map[], [];
      abs := Val(kind, str);
    }

    method Add(key: string, node: JNode)
      modifies `hash, `arr
      ensures hash == if nodeType.TypeHash? then old(hash)[key := node] else old(hash)
      ensures arr == if nodeType.TypeArr? then old(arr) + [node] else old(arr)
    {
      if nodeType.TypeHash? {
        hash := hash[key := node];
      } else if nodeType.TypeArr? {
        arr := arr + [node];
      }
    }

    // Add, seen from a tree whose top this is.
    method Hang(key: string, node: JNode, ghost v: Json, ghost tree: set<JNode>)
      requires !nodeType.TypeVal? && this !in tree && Shows(this, v, tree)
      modifies `hash, `arr
      ensures Opens(this, v, key, node, tree)
    {
      Add(key, node);
    }
  }

  function Empty(t: NodeType): Json
    requires !t.TypeVal?
  {
    if t.TypeHash? then Hash(map[]) else Arr([])
  }

  // c is a child of n that stands for v; in a hash, k is its key.
  ghost predicate Child(n: JNode, k: string, c: JNode, v: Json, tree: set<JNode>)
    reads tree
  {
    && c in tree && c.abs == v
    && (!c.nodeType.TypeVal? ==> c.parent == n && (n.nodeType.TypeHash? ==> c.slot == k))
  }

  // n is the top of v, and its children, all in the tree, stand for the parts of v.
  ghost predicate Shows(n: JNode, v: Json, tree: set<JNode>)
    reads n`hash, n`arr, tree
  {
    match n.nodeType
    case TypeHash =>
      v.Hash? && n.hash.Keys == v.fields.Keys && forall k :: k in v.fields ==> Child(n, k, n.hash[k], v.fields[k], tree)
    case TypeArr =>
      v.Arr? && |n.arr| == |v.items| && forall i :: 0 <= i < |v.items| ==> Child(n, "", n.arr[i], v.items[i], tree)
    case TypeVal(kind) =>
      v == Val(kind, n.str)
  }

  // n shows v, and below it hangs one more child that is not finished.
  ghost predicate Opens(n: JNode, v: Json, key: string, child: JNode, tree: set<JNode>)
    reads n, tree
  {
    match n.nodeType
    case TypeHash =>
      && v.Hash? && n.hash.Keys == v.fields.Keys + {key} && n.hash[key] == child
      && forall k :: k in v.fields && k != key ==> Child(n, k, n.hash[k], v.fields[k], tree)
    case TypeArr =>
      && v.Arr? && |n.arr| == |v.items| + 1 && n.arr[|v.items|] == child
      && forall i :: 0 <= i < |v.items| ==> Child(n, "", n.arr[i], v.items[i], tree)
    case TypeVal(_) => false
  }

  // Every node of the set stands for the tree in its field abs; children have
  // their parents right.
  ghost predicate Consistent(tree: set<JNode>)
    reads tree
  {
    forall n :: n in tree ==> Shows(n, n.abs, tree)
  }

  // A bigger set shows no less.
  lemma ShowsMore(n: JNode, v: Json, tree: set<JNode>, more: set<JNode>)
    requires Shows(n, v, tree) && tree <= more
    ensures Shows(n, v, more)
  {
  }

  lemma OpensMore(n: JNode, v: Json, key: string, child: JNode, tree: set<JNode>, more: set<JNode>)
    requires Opens(n, v, key, child, tree) && tree <= more
    ensures Opens(n, v, key, child, more)
  {
  }

  // One more node that shows what it stands for.
  lemma ConsistentMore(tree: set<JNode>, n: JNode)
    requires Consistent(tree) && Shows(n, n.abs, tree)
    ensures Consistent(tree + {n})
  {
    hide Shows;
    forall m | m in tree + {n}
      ensures Shows(m, m.abs, tree + {n})
    {
      ShowsMore(m, m.abs, tree, tree + {n});
    }
  }

  // Finishing the child.
  lemma OpensShows(n: JNode, v: Json, key: string, child: JNode, tree: set<JNode>)
    requires Opens(n, v, key, child, tree) && child in tree
    requires !child.nodeType.TypeVal? ==> child.parent == n && child.slot == key
    ensures Shows(n, GoParse.Add(v, key, child.abs), tree)
  {
  }

  lemma ScalarShows(n: JNode, tree: set<JNode>)
    requires n.nodeType.TypeVal? && n.abs == Val(n.nodeType.kind, n.str)
    ensures Shows(n, n.abs, tree)
  {
  }

  lemma EmptyShows(n: JNode, tree: set<JNode>)
    requires !n.nodeType.TypeVal? && n.hash == map[] && n.arr == []
    ensures Shows(n, Empty(n.nodeType), tree)
  {
  }
}
