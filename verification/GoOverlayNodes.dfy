/**
  Overlay and Get of go/ujsonin.go over nodes in memory.  Overlay hangs nodes of
  the upper tree into the lower one, so afterwards the two share nodes.
*/
module GoOverlayNodes {
  import opened Common
  import opened GoParse
  import opened GoTree
  import opened GoOverlay
  import opened GoShape

  // ----- Get

  ghost function Step1Shape(s: Shape, part: string): Option<Shape> {
    if s.node.nodeType.TypeHash? && part in s.kids then Some(s.kids[part]) else None
  }

  // What a path leads to in a shape.
  ghost function LookupShape(s: Shape, path: seq<string>): Option<Shape>
    decreases path
  {
    if path == [] then Some(s)
    else match Step1Shape(s, path[0])
         case None => None
         case Some(next) => LookupShape(next, path[1..])
  }

  ghost function ValueOf(found: Option<Shape>): Option<Json> {
    match found
    case None => None
    case Some(sub) => Some(Spelled(sub))
  }

  lemma {:induction false} LookupValue(s: Shape, path: seq<string>)
    ensures Lookup(Spelled(s), path) == ValueOf(LookupShape(s, path))
    decreases path
  {
    if path != [] && s.node.nodeType.TypeHash? && path[0] in s.kids {
      LookupValue(s.kids[path[0]], path[1..]);
    }
  }

  // The nodes of a shape, found by a path.
  ghost predicate FoundBy(s: Shape, path: seq<string>, found: JNode?)
    reads Conts(s)`hash, Conts(s)`arr
  {
    match LookupShape(s, path)
    case None => found == null
    case Some(sub) => found == sub.node && Conts(sub) <= Conts(s) && Links(sub)
  }

  // A path of dot-free names.
  method GetPath(n: JNode, parts: seq<string>, ghost s: Shape) returns (cur: JNode?)
    requires s.node == n && Links(s)
    ensures FoundBy(s, parts, cur)
  {
    cur := n;
    ghost var sub := s;
    for i := 0 to |parts|
      invariant sub.node == cur && Links(sub) && Conts(sub) <= Conts(s)
      invariant LookupShape(sub, parts[i..]) == LookupShape(s, parts)
    {
      assert parts[i..][1..] == parts[i + 1..];
      if cur.nodeType.TypeHash? && parts[i] in cur.hash {
        cur := cur.hash[parts[i]];
        sub := sub.kids[parts[i]];
      } else {
        return null;
      }
    }
  }

  // JHash.Get, and nothing for the other nodes.
  method Get(n: JNode, key: string, ghost s: Shape) returns (found: JNode?)
    requires s.node == n && Links(s)
    ensures FoundBy(s, Split(key), found)
    ensures Lookup(Spelled(s), Split(key)) == ValueOf(LookupShape(s, Split(key)))
    ensures found == null <==> Lookup(Spelled(s), Split(key)) == None
  {
    hide Spelled, Split, Conts, Links;
    LookupValue(s, Split(key));
    found := GetPath(n, Split(key), s);
  }

  // ----- overlaid shapes

  ghost predicate Hashes(s: Shape, t: Shape) {
    s.node.nodeType.TypeHash? && t.node.nodeType.TypeHash?
  }

  // The lower hashes stay, and take over what is new from the upper ones.
  ghost function Merged(s: Shape, t: Shape): Shape
    decreases t
  {
    if Hashes(s, t) then
      Shape(s.node,
        map k | k in s.kids.Keys + t.kids.Keys ::
          if k !in t.kids then s.kids[k] else if k !in s.kids then t.kids[k] else Merged(s.kids[k], t.kids[k]),
        s.items)
    else if s.node.nodeType.TypeArr? && t.node.nodeType.TypeArr? then s
    else t
  }

  // The nodes whose fields an overlay changes.
  ghost function Touched(s: Shape, t: Shape): set<JNode>
    decreases t
  {
    if s == t || !Hashes(s, t) then {}
    else {s.node} + set k, n | k in s.kids && k in t.kids && n in Touched(s.kids[k], t.kids[k]) :: n
  }

  // When an overlay does what it should: every node it changes has one place in
  // the lower tree and none in the upper one.
  ghost predicate Clear(s: Shape, t: Shape) {
    Single(s) && Touched(s, t) !! Conts(t)
  }

  lemma {:induction false} MergedValue(s: Shape, t: Shape)
    ensures Spelled(Merged(s, t)) == Overlaid(Spelled(s), Spelled(t))
    decreases t
  {
    if Hashes(s, t) {
      forall k | k in s.kids && k in t.kids
        ensures Spelled(Merged(s.kids[k], t.kids[k])) == Overlaid(Spelled(s.kids[k]), Spelled(t.kids[k]))
      {
        MergedValue(s.kids[k], t.kids[k]);
      }
      assert Spelled(Merged(s, t)).fields == Overlaid(Spelled(s), Spelled(t)).fields;
    }
  }

  lemma {:induction false} MergedItself(s: Shape)
    ensures Merged(s, s) == s
    decreases s
  {
    if s.node.nodeType.TypeHash? {
      forall k | k in s.kids
        ensures Merged(s.kids[k], s.kids[k]) == s.kids[k]
      {
        MergedItself(s.kids[k]);
      }
      assert Merged(s, s).kids == s.kids;
    }
  }

  // Not one link changes the second time.
  lemma {:induction false} MergedTwice(s: Shape, t: Shape)
    ensures Merged(Merged(s, t), t) == Merged(s, t)
    decreases t
  {
    var once := Merged(s, t);
    if Hashes(s, t) {
      forall k | k in once.kids && k in t.kids
        ensures Merged(once.kids[k], t.kids[k]) == once.kids[k]
      {
        if k in s.kids {
          MergedTwice(s.kids[k], t.kids[k]);
        } else {
          MergedItself(t.kids[k]);
        }
      }
      assert Merged(once, t).kids == once.kids;
    } else {
      MergedItself(t);
    }
  }

  lemma {:induction false} TouchedInside(s: Shape, t: Shape)
    ensures Touched(s, t) <= Conts(s)
    decreases t
  {
    if Hashes(s, t) && s != t {
      forall k | k in s.kids && k in t.kids
        ensures Touched(s.kids[k], t.kids[k]) <= Conts(s.kids[k])
      {
        TouchedInside(s.kids[k], t.kids[k]);
      }
    }
  }

  lemma {:induction false} TouchedTwice(s: Shape, t: Shape)
    ensures Touched(Merged(s, t), t) <= Conts(s)
    decreases t
  {
    var once := Merged(s, t);
    if Hashes(s, t) {
      forall k | k in once.kids && k in t.kids
        ensures k in s.kids ==> Touched(once.kids[k], t.kids[k]) <= Conts(s.kids[k])
        ensures k !in s.kids ==> Touched(once.kids[k], t.kids[k]) == {}
      {
        if k in s.kids {
          TouchedTwice(s.kids[k], t.kids[k]);
        }
      }
    }
  }

  lemma {:induction false} MergedConts(s: Shape, t: Shape)
    ensures Conts(Merged(s, t)) <= Conts(s) + Conts(t)
    decreases t
  {
    if Hashes(s, t) {
      forall k | k in s.kids && k in t.kids
        ensures Conts(Merged(s.kids[k], t.kids[k])) <= Conts(s.kids[k]) + Conts(t.kids[k])
      {
        MergedConts(s.kids[k], t.kids[k]);
      }
    }
  }

  // Separate trees give a tree again.
  lemma {:induction false} MergedSingle(s: Shape, t: Shape)
    requires Single(s) && Single(t) && Conts(s) !! Conts(t)
    ensures Single(Merged(s, t))
    decreases t
  {
    if Hashes(s, t) {
      var once := Merged(s, t);
      KidsApart(s);
      KidsApart(t);
      forall k | k in once.kids
        ensures Single(once.kids[k])
        ensures Conts(once.kids[k]) <= KidConts(s, k) + KidConts(t, k)
      {
        if k in s.kids && k in t.kids {
          assert KidConts(s, k) <= Conts(s) && KidConts(t, k) <= Conts(t);
          MergedSingle(s.kids[k], t.kids[k]);
          MergedConts(s.kids[k], t.kids[k]);
        }
      }
    }
  }

  ghost function KidConts(s: Shape, k: string): set<JNode> {
    if k in s.kids then Conts(s.kids[k]) else {}
  }

  lemma KidsApart(s: Shape)
    requires Single(s) && s.node.nodeType.TypeHash?
    ensures forall k :: KidConts(s, k) <= Conts(s) - {s.node}
    ensures forall j, k :: j != k ==> KidConts(s, j) !! KidConts(s, k)
  {
  }

  lemma SeparateIsClear(s: Shape, t: Shape)
    requires Single(s) && Conts(s) !! Conts(t)
    ensures Clear(s, t)
  {
    TouchedInside(s, t);
  }

  // After an overlay of separate trees the same overlay may be done again.
  lemma ClearAgain(s: Shape, t: Shape)
    requires Single(s) && Single(t) && Conts(s) !! Conts(t)
    ensures Clear(Merged(s, t), t)
  {
    MergedSingle(s, t);
    TouchedTwice(s, t);
  }

  // ----- Overlay

  predicate DotFreeKeys(v: Json) {
    match v
    case Hash(fields) => forall k :: k in fields ==> DotFree(k) && DotFreeKeys(fields[k])
    case Arr(_) => true
    case Val(_, _) => true
  }

  // All keys of the upper hash but these have been gone through.
  ghost function Partly(s: Shape, t: Shape, keys: set<string>): Shape {
    Shape(s.node,
      map k | k in s.kids.Keys + (t.kids.Keys - keys) ::
        if k !in t.kids || k in keys then s.kids[k]
        else if k !in s.kids then t.kids[k] else Merged(s.kids[k], t.kids[k]),
      s.items)
  }

  lemma PartlyEnds(s: Shape, t: Shape)
    requires Hashes(s, t)
    ensures Partly(s, t, t.kids.Keys) == s && Partly(s, t, {}) == Merged(s, t)
  {
    assert Partly(s, t, t.kids.Keys).kids == s.kids;
    assert Partly(s, t, {}).kids == Merged(s, t).kids;
  }

  // JHash.Overlay.  The links become those of the merged shape, and no field
  // changes but in the lower hashes that are merged with another one.
  method Overlay(self: JNode, ontop: JNode, ghost s: Shape, ghost t: Shape, ghost all: set<JNode>)
    requires s.node == self && t.node == ontop && Hashes(s, t)
    requires Links(s) && Links(t) && Clear(s, t) && DotFreeKeys(Spelled(t)) && Conts(s) + Conts(t) <= all
    modifies all`hash, all`arr
    ensures Links(Merged(s, t)) && Links(t)
    ensures forall n :: n in all ==> n.arr == old(n.arr) && (n !in Touched(s, t) ==> n.hash == old(n.hash))
    decreases t, 2
  {
    hide Clear, Conts, Links, Merged, Touched;
    PartlyEnds(s, t);
    TopFields(t);
    var keys := ontop.hash.Keys;
    while keys != {}
      invariant keys <= t.kids.Keys
      invariant Links(Partly(s, t, keys)) && Links(t)
      invariant forall n :: n in all ==> n.arr == old(n.arr) && (n !in Touched(s, t) ==> n.hash == old(n.hash))
      decreases |keys|
    {
      var key :| key in keys;
      OverlayKey(self, ontop, key, keys, s, t, all);
      keys := keys - {key};
    }
  }

  lemma TopFields(t: Shape)
    requires Links(t) && t.node.nodeType.TypeHash?
    ensures t.node.hash.Keys == t.kids.Keys && t.items == []
    ensures forall k :: k in t.kids ==> t.node.hash[k] == t.kids[k].node && Links(t.kids[k])
  {
  }

  // What one kid of the half merged shape is made of.
  lemma KidFrom(s: Shape, t: Shape, keys: set<string>, k: string)
    requires Hashes(s, t) && k in Partly(s, t, keys).kids
    ensures Conts(Partly(s, t, keys).kids[k]) <= KidConts(s, k) + KidConts(t, k)
  {
    if k in s.kids && k in t.kids && k !in keys {
      MergedConts(s.kids[k], t.kids[k]);
    }
  }

  lemma Inside(s: Shape, t: Shape, keys: set<string>)
    requires Hashes(s, t)
    ensures s.node in Conts(s)
    ensures forall k :: k in Partly(s, t, keys).kids ==> Conts(Partly(s, t, keys).kids[k]) <= Conts(s) + Conts(t)
    ensures forall k :: k in t.kids ==> Conts(t.kids[k]) <= Conts(t)
  {
    forall k | k in Partly(s, t, keys).kids
      ensures Conts(Partly(s, t, keys).kids[k]) <= Conts(s) + Conts(t)
    {
      KidFrom(s, t, keys, k);
    }
  }

  // Going down at a key touches nothing of the other keys, and nothing above.
  lemma KeyApart(s: Shape, t: Shape, keys: set<string>, key: string)
    requires Hashes(s, t) && Clear(s, t) && key in s.kids && key in t.kids
    ensures
      var touched := Touched(s.kids[key], t.kids[key]);
      && Clear(s.kids[key], t.kids[key]) && Conts(s.kids[key]) <= Conts(s)
      && touched <= Touched(s, t) && touched <= Conts(s.kids[key]) && touched !! Conts(t)
      && s.node !in Conts(s.kids[key])
      && forall k :: k in Partly(s, t, keys).kids && k != key ==> touched !! Conts(Partly(s, t, keys).kids[k])
  {
    var touched := Touched(s.kids[key], t.kids[key]);
    TouchedInside(s.kids[key], t.kids[key]);
    assert KidConts(t, key) <= Conts(t);
    KidsApart(s);
    forall k | k in Partly(s, t, keys).kids && k != key
      ensures touched !! Conts(Partly(s, t, keys).kids[k])
    {
      KidFrom(s, t, keys, k);
      assert KidConts(t, k) <= Conts(t);
    }
  }

  // Writing a field of the upper node touches no kid.
  lemma TopApart(s: Shape, t: Shape, keys: set<string>)
    requires Hashes(s, t) && Clear(s, t) && s != t
    ensures s.node in Touched(s, t) && s.node !in Conts(t)
    ensures forall k :: k in Partly(s, t, keys).kids ==> s.node !in Conts(Partly(s, t, keys).kids[k])
  {
    forall k | k in Partly(s, t, keys).kids
      ensures s.node !in Conts(Partly(s, t, keys).kids[k])
    {
      KidFrom(s, t, keys, k);
      assert KidConts(t, k) <= Conts(t);
    }
  }

  lemma Assemble(p: Shape)
    requires p.node.nodeType.TypeHash? && p.items == [] && p.node.hash.Keys == p.kids.Keys
    requires forall k :: k in p.kids ==> p.node.hash[k] == p.kids[k].node && Links(p.kids[k])
    ensures Links(p)
  {
  }

  // One more key has been gone through.
  lemma NextKey(s: Shape, t: Shape, keys: set<string>, key: string)
    requires Hashes(s, t) && key in keys && key in t.kids
    ensures
      var before, after := Partly(s, t, keys), Partly(s, t, keys - {key});
      && after.node == before.node && after.items == before.items
      && (key in before.kids <==> key in s.kids) && (key in s.kids ==> before.kids[key] == s.kids[key])
      && after.kids ==
        before.kids[key := if key in s.kids then Merged(s.kids[key], t.kids[key]) else t.kids[key]]
  {
    assert keys - {key} == keys - {key};
  }

  // self.Add( key, ontopVal )
  method Replace(self: JNode, key: string, node: JNode,
                 ghost keys: set<string>, ghost s: Shape, ghost t: Shape, ghost all: set<JNode>)
    requires s.node == self && Hashes(s, t) && key in keys && key in t.kids && node == t.kids[key].node
    requires Links(Partly(s, t, keys)) && Links(t) && Clear(s, t) && Conts(s) + Conts(t) <= all
    requires key in s.kids ==> Merged(s.kids[key], t.kids[key]) == t.kids[key]
    modifies self`hash, self`arr
    ensures Links(Partly(s, t, keys - {key})) && Links(t)
    ensures self in Touched(s, t) || self.hash == old(self.hash)
    ensures self.arr == old(self.arr)
  {
    hide Clear, Conts, Links, Merged, Touched, Single;
    ghost var before, after := Partly(s, t, keys), Partly(s, t, keys - {key});
    NextKey(s, t, keys, key);
    Inside(s, t, keys);
    TopFields(before);
    TopFields(t);
    self.Add(key, node);
    if s == t {
      assert self.hash == old(self.hash);
    } else {
      TopApart(s, t, keys);
      SameLinks((t, all));
    }
    forall k | k in after.kids
      ensures Links(after.kids[k])
    {
      if k == key {
        TopFields(t);
      } else {
        SameLinks((before.kids[k], all));
      }
    }
    Assemble(after);
  }

  // curVal.Overlay( ontopVal ), seen from the node that curVal hangs below.
  method Descend(self: JNode, key: string, curVal: JNode, ontopVal: JNode,
                 ghost keys: set<string>, ghost s: Shape, ghost t: Shape, ghost all: set<JNode>)
    requires s.node == self && Hashes(s, t) && key in keys && key in t.kids && key in s.kids
    requires curVal == s.kids[key].node && ontopVal == t.kids[key].node && Hashes(s.kids[key], t.kids[key])
    requires Links(Partly(s, t, keys)) && Links(t) && Clear(s, t) && Conts(s) + Conts(t) <= all
    requires DotFreeKeys(Spelled(t.kids[key]))
    modifies all`hash, all`arr
    ensures Links(Partly(s, t, keys - {key})) && Links(t)
    ensures forall n :: n in all ==> n.arr == old(n.arr) && (n !in Touched(s, t) ==> n.hash == old(n.hash))
    decreases t, 0
  {
    hide Clear, Conts, Links, Merged, Touched, DotFreeKeys, Single;
    ghost var before, after := Partly(s, t, keys), Partly(s, t, keys - {key});
    NextKey(s, t, keys, key);
    Inside(s, t, keys);
    TopFields(before);
    TopFields(t);
    KeyApart(s, t, keys, key);
    Overlay(curVal, ontopVal, s.kids[key], t.kids[key], all);
    SameLinks((t, all));
    forall k | k in after.kids && k != key
      ensures Links(after.kids[k])
    {
      SameLinks((before.kids[k], all));
    }
    MergedNode(s.kids[key], t.kids[key]);
    Assemble(after);
  }

  lemma MergedNode(s: Shape, t: Shape)
    ensures Hashes(s, t) ==> Merged(s, t).node == s.node
    ensures s.node.nodeType.TypeArr? && t.node.nodeType.TypeArr? ==> Merged(s, t) == s
    ensures !Hashes(s, t) && !(s.node.nodeType.TypeArr? && t.node.nodeType.TypeArr?) ==> Merged(s, t) == t
  {
  }

  lemma KeyOf(t: Shape, key: string)
    requires t.node.nodeType.TypeHash? && key in t.kids && DotFreeKeys(Spelled(t))
    ensures DotFree(key) && DotFreeKeys(Spelled(t.kids[key]))
  {
    assert Spelled(t).fields[key] == Spelled(t.kids[key]);
  }

  // The closure for one key.
  method OverlayKey(self: JNode, ontop: JNode, key: string,
                    ghost keys: set<string>, ghost s: Shape, ghost t: Shape, ghost all: set<JNode>)
    requires s.node == self && t.node == ontop && Hashes(s, t) && key in keys && keys <= t.kids.Keys
    requires Links(Partly(s, t, keys)) && Links(t) && Clear(s, t) && Conts(s) + Conts(t) <= all
    requires DotFreeKeys(Spelled(t))
    modifies all`hash, all`arr
    ensures Links(Partly(s, t, keys - {key})) && Links(t)
    ensures forall n :: n in all ==> n.arr == old(n.arr) && (n !in Touched(s, t) ==> n.hash == old(n.hash))
    decreases t, 1
  {
    hide Clear, Conts, Links, Merged, Touched, DotFreeKeys;
    NextKey(s, t, keys, key);
    TopFields(t);
    TopFields(Partly(s, t, keys));
    Inside(s, t, keys);
    KeyOf(t, key);
    var ontopVal := ontop.hash[key];
    if key in self.hash {
      var curVal := self.hash[key];
      MergedNode(s.kids[key], t.kids[key]);
      if ontopVal.nodeType.TypeHash? && curVal.nodeType.TypeHash? {
        Descend(self, key, curVal, ontopVal, keys, s, t, all);
      } else if ontopVal.nodeType.TypeArr? && curVal.nodeType.TypeArr? {
        // self.SetArr( append( self.GetArr(), ... ) ): a hash has no array
        assert Partly(s, t, keys - {key}) == Partly(s, t, keys);
      } else {
        Replace(self, key, ontopVal, keys, s, t, all);
      }
    } else {
      Replace(self, key, ontopVal, keys, s, t, all);
    }
  }

  // ----- whole trees

  // Two separate trees: the lower root becomes the merged tree, the upper tree
  // stays, and the merged tree may be overlaid again, with the same tree or
  // with a new one.
  method OverlayTree(root: JNode, ontop: JNode, ghost s: Shape, ghost t: Shape, ghost all: set<JNode>)
    requires s.node == root && t.node == ontop && Hashes(s, t) && DotFreeKeys(Spelled(t))
    requires Links(s) && Links(t) && Single(s) && Single(t) && Conts(s) !! Conts(t) && Conts(s) + Conts(t) <= all
    modifies all`hash, all`arr
    ensures Links(Merged(s, t)) && Links(t) && Merged(s, t).node == root
    ensures Spelled(Merged(s, t)) == Overlaid(Spelled(s), Spelled(t))
    ensures Single(Merged(s, t)) && Clear(Merged(s, t), t) && Conts(Merged(s, t)) <= all
    ensures forall n :: n in all && n !in Conts(s) ==> n.hash == old(n.hash) && n.arr == old(n.arr)
  {
    hide Links, Single, Clear, DotFreeKeys;
    SeparateIsClear(s, t);
    ClearAgain(s, t);
    MergedSingle(s, t);
    MergedConts(s, t);
    MergedValue(s, t);
    TouchedInside(s, t);
    Overlay(root, ontop, s, t, all);
  }

  // Overlaying the same tree a second time changes no field of any node.
  method OverlayAgain(root: JNode, ontop: JNode, ghost s: Shape, ghost t: Shape, ghost all: set<JNode>)
    requires s.node == root && t.node == ontop && Hashes(s, t) && DotFreeKeys(Spelled(t))
    requires Links(Merged(s, t)) && Links(t) && Clear(Merged(s, t), t) && Conts(Merged(s, t)) + Conts(t) <= all
    modifies all`hash, all`arr
    ensures Links(Merged(s, t)) && Links(t)
    ensures forall n :: n in all ==> n.hash == old(n.hash) && n.arr == old(n.arr)
  {
    hide Clear, DotFreeKeys;
    ghost var once := Merged(s, t);
    MergedTwice(s, t);
    Overlay(root, ontop, once, t, all);
    TouchedInside(once, t);
    TouchedHashes(once, t);
    SameShape((once, all));
  }

  lemma HashValue(s: Shape)
    ensures Spelled(s).Hash? <==> s.node.nodeType.TypeHash?
  {
  }

  // Two trees as the parser delivers them.
  method OverlayParsed(root: JNode, ontop: JNode, ghost lower: set<JNode>, ghost upper: set<JNode>)
    returns (ghost s: Shape, ghost t: Shape)
    requires Consistent(lower) && Consistent(upper) && lower !! upper
    requires root in lower && ontop in upper && root.parent == null && ontop.parent == null
    requires root.nodeType.TypeHash? && ontop.nodeType.TypeHash? && DotFreeKeys(ontop.abs)
    modifies lower`hash, lower`arr, upper`hash, upper`arr
    ensures s.node == root && t.node == ontop && Links(Merged(s, t)) && Clear(Merged(s, t), t)
    ensures Spelled(Merged(s, t)) == Overlaid(root.abs, ontop.abs)
    ensures Consistent(upper) && forall n :: n in upper ==> n.hash == old(n.hash) && n.arr == old(n.arr)
  {
    hide Links, Single, Clear, DotFreeKeys, Conts, Spelled, Shows;
    s := ParsedShape(root, lower);
    t := ParsedShape(ontop, upper);
    OverlayTree(root, ontop, s, t, lower + upper);
    StillConsistent(upper);
  }

  twostate lemma StillConsistent(tree: set<JNode>)
    requires old(Consistent(tree))
    requires forall n :: n in tree ==> n.hash == old(n.hash) && n.arr == old(n.arr)
    requires forall n :: n in tree ==> n.abs == old(n.abs) && n.parent == old(n.parent)
    ensures Consistent(tree)
  {
    forall n | n in tree
      ensures Shows(n, n.abs, tree)
    {
      assert old(Shows(n, n.abs, tree));
    }
  }

  // Overlay, then Get with any dotted path.
  method OverlayGet(root: JNode, ontop: JNode, key: string, ghost s: Shape, ghost t: Shape, ghost all: set<JNode>)
    returns (found: JNode?)
    requires s.node == root && t.node == ontop && Hashes(s, t) && DotFreeKeys(Spelled(t))
    requires Links(s) && Links(t) && Clear(s, t) && Conts(s) + Conts(t) <= all
    modifies all`hash, all`arr
    ensures Links(Merged(s, t)) && FoundBy(Merged(s, t), Split(key), found)
    ensures
      var path := Split(key);
      var v := Found(Lookup(Spelled(s), path), Lookup(Spelled(t), path), Blocks(Spelled(t), path));
      ValueOf(LookupShape(Merged(s, t), path)) == v && (found == null <==> v == None)
  {
    hide Links, Clear, DotFreeKeys, Conts, Split, FoundBy, LookupShape, Lookup, Blocks, Spelled, Merged;
    MergedNode(s, t);
    MergedConts(s, t);
    MergedValue(s, t);
    HashValue(s);
    HashValue(t);
    OverlayLookup(Spelled(s), Spelled(t), Split(key));
    Overlay(root, ontop, s, t, all);
    label Laid:
    found := Get(root, key, Merged(s, t));
    SameLinks@Laid((Merged(s, t), all));
  }

  // Any number of overlays with separate trees, one after the other.
  ghost function MergedAll(s: Shape, ts: seq<Shape>): Shape {
    if ts == [] then s else Merged(MergedAll(s, ts[..|ts| - 1]), ts[|ts| - 1])
  }

  function OverlaidAll(base: Json, tops: seq<Json>): Json {
    if tops == [] then base else Overlaid(OverlaidAll(base, tops[..|tops| - 1]), tops[|tops| - 1])
  }

  ghost predicate Ready(t: Shape, top: JNode, all: set<JNode>)
    reads Conts(t)`hash, Conts(t)`arr
  {
    && t.node == top && top.nodeType.TypeHash? && DotFreeKeys(Spelled(t))
    && Links(t) && Single(t) && Conts(t) <= all
  }

  method OverlayAll(root: JNode, tops: seq<JNode>, ghost s: Shape, ghost ts: seq<Shape>, ghost all: set<JNode>)
    requires s.node == root && root.nodeType.TypeHash? && Links(s) && Single(s) && Conts(s) <= all
    requires |ts| == |tops|
    requires forall i :: 0 <= i < |ts| ==> Ready(ts[i], tops[i], all) && Conts(s) !! Conts(ts[i])
    requires forall i, j :: 0 <= i < j < |ts| ==> Conts(ts[i]) !! Conts(ts[j])
    modifies all`hash, all`arr
    ensures Links(MergedAll(s, ts)) && Single(MergedAll(s, ts)) && MergedAll(s, ts).node == root
    ensures Spelled(MergedAll(s, ts)) == OverlaidAll(Spelled(s), seq(|ts|, i requires 0 <= i < |ts| => Spelled(ts[i])))
  {
    hide Links, Single, Conts, Spelled, Merged, Ready;
    ghost var now := s;
    for i := 0 to |tops|
      invariant now == MergedAll(s, ts[..i]) && now.node == root && Links(now) && Single(now) && Conts(now) <= all
      invariant Spelled(now) == OverlaidAll(Spelled(s), seq(i, j requires 0 <= j < i => Spelled(ts[j])))
      invariant forall j :: i <= j < |ts| ==> Ready(ts[j], tops[j], all) && Conts(now) !! Conts(ts[j])
    {
      Unready(ts[i], tops[i], all);
      label Before:
      OverlayTree(root, tops[i], now, ts[i], all);
      MergedConts(now, ts[i]);
      assert ts[..i + 1][..i] == ts[..i];
      ghost var values := seq(i + 1, j requires 0 <= j < i + 1 => Spelled(ts[j]));
      assert values[..i] == seq(i, j requires 0 <= j < i => Spelled(ts[j]));
      forall j | i < j < |ts|
        ensures Ready(ts[j], tops[j], all)
      {
        StillReady@Before((ts[j], tops[j], all));
      }
      now := Merged(now, ts[i]);
    }
    assert ts[..|tops|] == ts;
  }

  twostate lemma StillReady(z: (Shape, JNode, set<JNode>))
    requires old(Ready(z.0, z.1, z.2))
    requires forall n :: n in Conts(z.0) && n in z.2 ==> n.hash == old(n.hash) && n.arr == old(n.arr)
    ensures Ready(z.0, z.1, z.2)
  {
    SameLinks((z.0, z.2));
  }

  lemma Unready(t: Shape, top: JNode, all: set<JNode>)
    requires Ready(t, top, all)
    ensures t.node == top && top.nodeType.TypeHash? && DotFreeKeys(Spelled(t))
    ensures Links(t) && Single(t) && Conts(t) <= all
  {
  }

  // As it does when a tree is laid over itself.
  method OverlayItself(root: JNode, ghost s: Shape, ghost all: set<JNode>)
    requires s.node == root && Hashes(s, s) && DotFreeKeys(Spelled(s)) && Links(s) && Single(s) && Conts(s) <= all
    modifies all`hash, all`arr
    ensures Links(s) && forall n :: n in all ==> n.hash == old(n.hash) && n.arr == old(n.arr)
  {
    MergedItself(s);
    Overlay(root, root, s, s, all);
  }

  // The shape before and after is the same, so the fields are.
  twostate lemma {:induction false} SameShape(z: (Shape, set<JNode>))
    requires Conts(z.0) <= z.1 && old(Links(z.0)) && Links(z.0)
    ensures forall n :: n in Conts(z.0) && n in z.1 && n.nodeType.TypeHash? ==> n.hash == old(n.hash)
    decreases z.0
  {
    var (s, all) := z;
    forall n | n in Conts(s) && n in all && n.nodeType.TypeHash?
      ensures n.hash == old(n.hash)
    {
      if n == s.node {
        assert n.hash == old(n.hash);
      } else if s.node.nodeType.TypeHash? {
        var k :| k in s.kids && n in Conts(s.kids[k]);
        SameShape((s.kids[k], all));
      } else {
        var i :| 0 <= i < |s.items| && n in Conts(s.items[i]);
        SameShape((s.items[i], all));
      }
    }
  }

  lemma {:induction false} TouchedHashes(s: Shape, t: Shape)
    ensures forall n :: n in Touched(s, t) ==> n.nodeType.TypeHash?
    decreases t
  {
    if s != t && Hashes(s, t) {
      forall k | k in s.kids && k in t.kids
        ensures forall n :: n in Touched(s.kids[k], t.kids[k]) ==> n.nodeType.TypeHash?
      {
        TouchedHashes(s.kids[k], t.kids[k]);
      }
    }
  }
}
