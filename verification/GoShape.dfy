/**
  Trees of nodes.  A shape names the nodes of a tree; the heap has the shape
  when the fields of those nodes link them as the shape says.  Nodes may be in
  several shapes, as they are after an overlay.
*/
module GoShape {
  import opened GoParse
  import opened GoTree

  // "kids" is for hashes, "items" for arrays.
  datatype Shape = Shape(node: JNode, kids: map<string, Shape>, items: seq<Shape>)

  // The containers; scalars never change.
  ghost function Conts(s: Shape): set<JNode> {
    match s.node.nodeType
    case TypeHash => {s.node} + set k, n | k in s.kids && n in Conts(s.kids[k]) :: n
    case TypeArr => {s.node} + set i, n | 0 <= i < |s.items| && n in Conts(s.items[i]) :: n
    case TypeVal(_) => {}
  }

  // The fields link the nodes as the shape says.
  ghost predicate Links(s: Shape)
    reads Conts(s)`hash, Conts(s)`arr
  {
    match s.node.nodeType
    case TypeHash =>
      && s.items == [] && s.node.hash.Keys == s.kids.Keys
      && forall k :: k in s.kids ==> s.node.hash[k] == s.kids[k].node && Links(s.kids[k])
    case TypeArr =>
      && s.kids == map[] && |s.node.arr| == |s.items|
      && forall i :: 0 <= i < |s.items| ==> s.node.arr[i] == s.items[i].node && Links(s.items[i])
    case TypeVal(_) =>
      s.kids == map[] && s.items == []
  }

  // What the nodes stand for.
  ghost function Spelled(s: Shape): Json {
    match s.node.nodeType
    case TypeHash => Hash(map k | k in s.kids :: Spelled(s.kids[k]))
    case TypeArr => Arr(seq(|s.items|, i requires 0 <= i < |s.items| => Spelled(s.items[i])))
    case TypeVal(kind) => Val(kind, s.node.str)
  }

  // The fields determine the shape below a node.
  lemma {:induction false} OneShape(s: Shape, t: Shape)
    requires Links(s) && Links(t) && s.node == t.node
    ensures s == t
    decreases s
  {
    forall k | k in s.kids
      ensures k in t.kids && s.kids[k] == t.kids[k]
    {
      assert k in s.node.hash;
      OneShape(s.kids[k], t.kids[k]);
    }
    forall i | 0 <= i < |s.items|
      ensures i < |t.items| && s.items[i] == t.items[i]
    {
      OneShape(s.items[i], t.items[i]);
    }
    assert s.kids == t.kids && s.items == t.items;
  }

  // Where no field changes, the links stay.
  twostate lemma SameLinks(z: (Shape, set<JNode>))
    requires Conts(z.0) <= z.1 && old(Links(z.0))
    requires forall n :: n in Conts(z.0) && n in z.1 ==> n.hash == old(n.hash) && n.arr == old(n.arr)
    ensures Links(z.0)
  {
  }

  // No container below a hash has two places; what is below an array does not matter.
  ghost predicate Single(s: Shape) {
    s.node.nodeType.TypeHash? ==>
      && (forall k :: k in s.kids ==> s.node !in Conts(s.kids[k]) && Single(s.kids[k]))
      && forall j, k :: j in s.kids && k in s.kids && j != k ==> Conts(s.kids[j]) !! Conts(s.kids[k])
  }

  // ----- the shape of a tree whose nodes say what they stand for

  lemma ChildrenIn(n: JNode, tree: set<JNode>)
    requires Consistent(tree) && n in tree
    ensures match n.nodeType
            case TypeHash =>
              && n.abs.Hash? && n.hash.Keys == n.abs.fields.Keys
              && forall k :: k in n.hash ==> n.hash[k] in tree && n.hash[k].abs == n.abs.fields[k]
            case TypeArr =>
              && n.abs.Arr? && |n.arr| == |n.abs.items|
              && forall i :: 0 <= i < |n.arr| ==> n.arr[i] in tree && n.arr[i].abs == n.abs.items[i]
            case TypeVal(kind) => n.abs == Val(kind, n.str)
  {
    assert Shows(n, n.abs, tree);
    if n.nodeType.TypeHash? {
      assert forall k :: k in n.hash ==> Child(n, k, n.hash[k], n.abs.fields[k], tree);
    }
  }

  ghost function ShapeOf(n: JNode, v: Json, tree: set<JNode>): (s: Shape)
    requires Consistent(tree) && n in tree && n.abs == v
    reads tree
    ensures s.node == n
    decreases v
  {
    ChildrenIn(n, tree);
    match v
    case Hash(fields) => Shape(n, map k | k in fields :: ShapeOf(n.hash[k], fields[k], tree), [])
    case Arr(items) => Shape(n, map[], ShapesOf(n.arr, items, tree))
    case Val(_, _) => Shape(n, map[], [])
  }

  ghost function ShapesOf(nodes: seq<JNode>, items: seq<Json>, tree: set<JNode>): (r: seq<Shape>)
    requires Consistent(tree) && |nodes| == |items|
    requires forall i :: 0 <= i < |items| ==> nodes[i] in tree && nodes[i].abs == items[i]
    reads tree
    ensures |r| == |items|
    decreases items
  {
    if items == [] then [] else [ShapeOf(nodes[0], items[0], tree)] + ShapesOf(nodes[1..], items[1..], tree)
  }

  // Such a shape is there in the heap, inside the tree, and stands for the value.
  ghost predicate Represents(s: Shape, n: JNode, v: Json, tree: set<JNode>)
    reads tree
  {
    s.node == n && Spelled(s) == v && Conts(s) <= tree && Links(s)
  }

  lemma {:induction false} ShapeFits(n: JNode, v: Json, tree: set<JNode>)
    requires Consistent(tree) && n in tree && n.abs == v
    ensures Represents(ShapeOf(n, v, tree), n, v, tree)
    decreases v
  {
    hide Consistent;
    ChildrenIn(n, tree);
    match v
    case Hash(fields) =>
      forall k | k in fields
        ensures Represents(ShapeOf(n.hash[k], fields[k], tree), n.hash[k], fields[k], tree)
      {
        ShapeFits(n.hash[k], fields[k], tree);
      }
      assert Spelled(ShapeOf(n, v, tree)).fields == fields;
    case Arr(items) =>
      ShapesFit(n.arr, items, tree);
      assert Spelled(ShapeOf(n, v, tree)).items == items;
    case Val(_, _) =>
  }

  lemma {:induction false} ShapesFit(nodes: seq<JNode>, items: seq<Json>, tree: set<JNode>)
    requires Consistent(tree) && |nodes| == |items|
    requires forall i :: 0 <= i < |items| ==> nodes[i] in tree && nodes[i].abs == items[i]
    ensures forall i :: 0 <= i < |items| ==> Represents(ShapesOf(nodes, items, tree)[i], nodes[i], items[i], tree)
    decreases items
  {
    hide Consistent, Represents, ShapeOf;
    if items != [] {
      ShapeFits(nodes[0], items[0], tree);
      ShapesFit(nodes[1..], items[1..], tree);
    }
  }

  // ----- every container of such a tree has one place

  // A container at a place; going into an array is written "".
  ghost predicate At(s: Shape, place: seq<string>, x: JNode)
    decreases place
  {
    match s.node.nodeType
    case TypeHash =>
      if place == [] then s.node == x else place[0] in s.kids && At(s.kids[place[0]], place[1..], x)
    case TypeArr =>
      if place == [] then s.node == x
      else place[0] == "" && exists i :: 0 <= i < |s.items| && At(s.items[i], place[1..], x)
    case TypeVal(_) => false
  }

  lemma {:induction false} PlaceOf(s: Shape, x: JNode) returns (place: seq<string>)
    requires x in Conts(s)
    ensures At(s, place, x)
    decreases s
  {
    if x == s.node {
      place := [];
    } else if s.node.nodeType.TypeHash? {
      var k :| k in s.kids && x in Conts(s.kids[k]);
      var rest := PlaceOf(s.kids[k], x);
      place := [k] + rest;
      assert place[1..] == rest;
    } else {
      var i :| 0 <= i < |s.items| && x in Conts(s.items[i]);
      var rest := PlaceOf(s.items[i], x);
      place := [""] + rest;
      assert place[1..] == rest;
    }
  }

  ghost predicate Under(s: Shape, k: string, next: Shape) {
    match s.node.nodeType
    case TypeHash => k in s.kids && s.kids[k] == next
    case TypeArr => k == "" && next in s.items
    case TypeVal(_) => false
  }

  lemma StepDown(s: Shape, place: seq<string>, x: JNode) returns (next: Shape)
    requires place != [] && At(s, place, x)
    ensures Under(s, place[0], next) && next < s && At(next, place[1..], x)
  {
    if s.node.nodeType.TypeHash? {
      next := s.kids[place[0]];
    } else {
      var i :| 0 <= i < |s.items| && At(s.items[i], place[1..], x);
      next := s.items[i];
    }
  }

  lemma StepUp(s: Shape, next: Shape, k: string, place: seq<string>, x: JNode)
    requires Under(s, k, next) && At(next, place, x)
    ensures At(s, [k] + place, x)
  {
    assert ([k] + place)[1..] == place;
  }

  lemma UnderKnows(s: Shape, k: string, next: Shape, tree: set<JNode>)
    requires Consistent(tree) && s.node in tree && Conts(s) <= tree && Links(s) && Under(s, k, next)
    ensures next.node in tree && Conts(next) <= tree && Links(next)
    ensures !next.node.nodeType.TypeVal? ==>
      next.node.parent == s.node && k == if s.node.nodeType.TypeHash? then next.node.slot else ""
  {
    assert Shows(s.node, s.node.abs, tree);
    if s.node.nodeType.TypeHash? {
      assert k in s.node.hash && Child(s.node, k, s.node.hash[k], s.node.abs.fields[k], tree);
    } else {
      var i :| 0 <= i < |s.items| && s.items[i] == next;
      assert Child(s.node, "", s.node.arr[i], s.node.abs.items[i], tree);
    }
  }

  // The last step of a place is told by the parent link.
  lemma {:induction false} LastStep(s: Shape, place: seq<string>, x: JNode, tree: set<JNode>)
    requires Consistent(tree) && s.node in tree && Conts(s) <= tree && Links(s) && place != [] && At(s, place, x)
    ensures x.parent != null && At(s, place[..|place| - 1], x.parent)
    ensures place[|place| - 1] == if x.parent.nodeType.TypeHash? then x.slot else ""
    decreases s
  {
    hide Consistent, Links, Conts, Under;
    var n := |place| - 1;
    var next := StepDown(s, place, x);
    UnderKnows(s, place[0], next, tree);
    if n > 0 {
      LastStep(next, place[1..], x, tree);
      assert place[..n] == [place[0]] + place[1..][..n - 1];
      StepUp(s, next, place[0], place[1..][..n - 1], x.parent);
    }
  }

  lemma SameEnds(p: seq<string>, q: seq<string>)
    requires p != [] && q != [] && p[..|p| - 1] == q[..|q| - 1] && p[|p| - 1] == q[|q| - 1]
    ensures p == q
  {
    assert p == p[..|p| - 1] + [p[|p| - 1]] && q == q[..|q| - 1] + [q[|q| - 1]];
  }

  lemma {:induction false} OnePlace(s: Shape, p: seq<string>, q: seq<string>, x: JNode, tree: set<JNode>)
    requires Consistent(tree) && s.node in tree && Conts(s) <= tree && Links(s) && s.node.parent == null
    requires At(s, p, x) && At(s, q, x)
    ensures p == q
    decreases |p|
  {
    if p != [] && q != [] {
      LastStep(s, p, x, tree);
      LastStep(s, q, x, tree);
      OnePlace(s, p[..|p| - 1], q[..|q| - 1], x.parent, tree);
      SameEnds(p, q);
    } else if p != [] {
      LastStep(s, p, x, tree);
    } else if q != [] {
      LastStep(s, q, x, tree);
    }
  }

  // s is what hangs at a place of the whole tree, below hashes only.
  ghost predicate Hangs(whole: Shape, place: seq<string>, s: Shape)
    decreases place
  {
    if place == [] then s == whole
    else whole.node.nodeType.TypeHash? && place[0] in whole.kids && Hangs(whole.kids[place[0]], place[1..], s)
  }

  lemma {:induction false} KidHangs(whole: Shape, place: seq<string>, s: Shape, k: string)
    requires Hangs(whole, place, s) && s.node.nodeType.TypeHash? && k in s.kids
    ensures Hangs(whole, place + [k], s.kids[k])
    decreases place
  {
    if place != [] {
      KidHangs(whole.kids[place[0]], place[1..], s, k);
      assert (place + [k])[1..] == place[1..] + [k];
    }
  }

  lemma {:induction false} HangsAt(whole: Shape, place: seq<string>, s: Shape, more: seq<string>, x: JNode)
    requires Hangs(whole, place, s) && At(s, more, x)
    ensures At(whole, place + more, x)
    decreases place
  {
    if place == [] {
      assert place + more == more;
    } else {
      HangsAt(whole.kids[place[0]], place[1..], s, more, x);
      assert (place + more)[1..] == place[1..] + more;
    }
  }

  lemma {:induction false} SingleBelow(whole: Shape, place: seq<string>, s: Shape, tree: set<JNode>)
    requires Consistent(tree) && whole.node in tree && Conts(whole) <= tree && Links(whole)
    requires whole.node.parent == null && Hangs(whole, place, s)
    ensures Single(s)
    decreases s
  {
    if s.node.nodeType.TypeHash? {
      forall k | k in s.kids
        ensures s.node !in Conts(s.kids[k]) && Single(s.kids[k])
      {
        KidHangs(whole, place, s, k);
        SingleBelow(whole, place + [k], s.kids[k], tree);
        if s.node in Conts(s.kids[k]) {
          var p := PlaceOf(s.kids[k], s.node);
          HangsAt(whole, place + [k], s.kids[k], p, s.node);
          HangsAt(whole, place, s, [], s.node);
          OnePlace(whole, place + [k] + p, place + [], s.node, tree);
        }
      }
      forall j, k | j in s.kids && k in s.kids && j != k
        ensures Conts(s.kids[j]) !! Conts(s.kids[k])
      {
        KidHangs(whole, place, s, j);
        KidHangs(whole, place, s, k);
        forall x | x in Conts(s.kids[j])
          ensures x !in Conts(s.kids[k])
        {
          if x in Conts(s.kids[k]) {
            TwoPlaces(whole, place, s, j, k, x, tree);
          }
        }
      }
    }
  }

  lemma TwoPlaces(whole: Shape, place: seq<string>, s: Shape, j: string, k: string, x: JNode, tree: set<JNode>)
    requires Consistent(tree) && whole.node in tree && Conts(whole) <= tree && Links(whole)
    requires whole.node.parent == null && j in s.kids && k in s.kids
    requires Hangs(whole, place + [j], s.kids[j]) && Hangs(whole, place + [k], s.kids[k])
    requires x in Conts(s.kids[j]) && x in Conts(s.kids[k])
    ensures j == k
  {
    var p := PlaceOf(s.kids[j], x);
    var q := PlaceOf(s.kids[k], x);
    HangsAt(whole, place + [j], s.kids[j], p, x);
    HangsAt(whole, place + [k], s.kids[k], q, x);
    OnePlace(whole, place + [j] + p, place + [k] + q, x, tree);
    assert (place + [j] + p)[|place|] == j && (place + [k] + q)[|place|] == k;
  }

  // A root as the parser delivers it has a shape that may be overlaid.
  lemma ParsedShape(root: JNode, tree: set<JNode>) returns (s: Shape)
    requires Consistent(tree) && root in tree && root.parent == null
    ensures s.node == root && Spelled(s) == root.abs && Conts(s) <= tree && Links(s) && Single(s)
  {
    s := ShapeOf(root, root.abs, tree);
    ShapeFits(root, root.abs, tree);
    SingleBelow(s, [], s, tree);
  }
}
