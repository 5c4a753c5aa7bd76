/**
  The parser of c/ujson.c over nodes in memory.  It keeps no stack of the open
  hashes: they are found again through "parent", and the containers around open
  arrays through a stack of ten.
*/
module UjsonParser {
  import opened UjsonScan
  import opened UjsonNodes
  import UjsonSource
  import UjsonRoundTrip
  import Gaps

  const STACK := MAX_DEPTH

  class Parser {
    var cur: UNode
    const root: UNode
    const arrayParentStack: array<UNode?>
    var arrayStackPos: nat

    ghost var closed: set<UNode>   // finished nodes
    ghost var path: seq<UNode>     // unfinished ones, from the root to cur
    ghost var open: seq<Frame>     // what they stand for so far
    ghost var nodes: set<UNode>

    constructor ()
      ensures Valid() && open == START.open && fresh(nodes) && fresh(arrayParentStack)
    {
      var r := new UNode.Container(HashType);
      var s := new UNode?[STACK](i => null);
      root := r;
      cur := r;
      arrayParentStack := s;
      arrayStackPos := 0;
      closed, path, open, nodes := {}, [r], START.open, {r};
      new;
      assert Shows(root, Hash(map[]), {});
      assert Stands(0);
      assert Arrs(path) == 0 by { assert path[..0] == []; }
    }

    ghost predicate Owned()
      reads this`closed, this`path, this`nodes, nodes`elems
    {
      && closed <= nodes && (forall i :: 0 <= i < |path| ==> path[i] in nodes)
      && forall n, m :: n in nodes && m in n.elems ==> m in nodes
    }

    // path[i] stands for open[i].
    ghost predicate Stands(i: nat)
      requires i < |path| == |open|
      reads this`closed, this`path, this`open, closed, path[i], path[i].elems
    {
      && path[i] !in closed && path[i].nodeType != ValType
      && (forall m :: m in path[i].elems ==> m in closed || (i < |path| - 1 && m == path[i + 1]))
      && if i == |path| - 1 then Shows(path[i], open[i].value, closed)
         else Opens(path[i], open[i].value, open[i + 1].key, path[i + 1], closed)
    }

    // An open hash knows what it is in; an open array does not.
    ghost predicate Enclosed(i: nat)
      requires i < |path|
      reads this`path, path[i]
    {
      path[i].parent == if i > 0 && path[i].nodeType == HashType then path[i - 1] else null
    }

    ghost predicate Path()
      reads this`closed, this`path, this`open, this`nodes, nodes
    {
      && Owned() && Consistent(closed)
      && |path| == |open| > 0
      && (forall i, j :: 0 <= i < j < |path| ==> path[i] != path[j])
      && (forall i :: 0 <= i < |path| ==> Stands(i) && Enclosed(i))
    }

    // What an open array is in, its place on the stack tells.
    ghost predicate Stacked(p: seq<UNode>)
      reads this`arrayStackPos, arrayParentStack
    {
      && arrayParentStack.Length == STACK
      && arrayStackPos == Arrs(p) <= STACK
      && forall i :: 0 < i < |p| && p[i].nodeType == ArrType ==>
        Arrs(p[..i]) < STACK && arrayParentStack[Arrs(p[..i])] == p[i - 1]
    }

    ghost predicate Cursor()
      reads this`path, this`cur
    {
      path != [] && root == path[0] && cur == path[|path| - 1]
    }

    ghost predicate Valid()
      reads this, nodes, arrayParentStack
    {
      Path() && Stacked(path) && Cursor()
    }

    // ----- adding to the current container

    // As Path, but below the last node hangs a child that is not accounted for.
    ghost predicate Hanging(key: string, child: UNode)
      reads this`closed, this`path, this`open, this`nodes, nodes
    {
      && Owned() && Consistent(closed)
      && |path| == |open| > 0
      && (forall i, j :: 0 <= i < j < |path| ==> path[i] != path[j])
      && (forall i :: 0 <= i < |path| ==> path[i] !in closed && path[i].nodeType != ValType && Enclosed(i))
      && (forall i :: 0 <= i < |path| - 1 ==> Stands(i))
      && (forall m :: m in path[|path| - 1].elems ==> m in closed || m == child)
      && Opens(path[|path| - 1], open[|path| - 1].value, key, child, closed)
      && child !in path && child !in closed
    }

    lemma TopStands()
      requires Path() && Cursor()
      ensures
        var n := |path| - 1;
        && cur == path[n] && cur !in closed && cur in path && cur in nodes && cur.nodeType != ValType
        && |open| == |path|
        && Shows(cur, open[n].value, closed) && (forall m :: m in cur.elems ==> m in closed)
        && Enclosed(n) && closed <= nodes
    {
      assert Stands(|path| - 1);
    }

    lemma NotClosed()
      requires Path()
      ensures forall i :: 0 <= i < |path| ==> path[i] !in closed && path[i].nodeType != ValType
    {
      forall i | 0 <= i < |path|
        ensures path[i] !in closed && path[i].nodeType != ValType
      {
        assert Stands(i);
      }
    }

    // All nodes but cur keep their fields, and their parents unless they are its elements.
    twostate predicate OnlyCur()
      reads this, nodes
    {
      && path == old(path) && open == old(open) && closed == old(closed)
      && cur == old(cur) && old(nodes) <= nodes
      && forall m :: m in old(nodes) ==>
        && m.owner == old(m.owner) && m.index == old(m.index) && m.abs == old(m.abs)
        && (m.owner != cur || m !in closed ==> m.parent == old(m.parent))
        && (m != cur ==>
          && m.tree == old(m.tree) && m.head == old(m.head) && m.tail == old(m.tail)
          && m.count == old(m.count) && m.elems == old(m.elems))
    }

    twostate lemma StillStands(i: nat)
      requires OnlyCur() && old(Path()) && i < |path| - 1 && path[i] != cur
      ensures Stands(i)
    {
      hide Shows, Opens;
      assert old(Stands(i));
      assert Kept(path[i], cur);
      StillOpens((path[i], open[i].value, open[i + 1].key, path[i + 1], closed, cur));
    }

    twostate lemma StillClosed()
      requires OnlyCur() && old(Owned() && Consistent(closed)) && cur !in closed
      ensures Consistent(closed)
    {
      hide Shows;
      forall m | m in closed
        ensures Kept(m, cur)
      {
        assert old(forall e :: e in m.elems ==> e in closed);
      }
      StillConsistent((closed, cur));
    }

    // An unfinished node is no element of the current container.
    twostate lemma StillEnclosed(i: nat)
      requires OnlyCur() && old(Path()) && i < |path| && path[i] !in closed
      ensures Enclosed(i)
    {
      assert old(Enclosed(i));
    }

    // uj_hash__store or uj_arr__add on cur
    method Store(key: string, node: UNode)
      requires Path() && Cursor() && node !in nodes && node.owner == null && node.elems == []
      modifies `nodes, cur`tree, cur`head, cur`tail, cur`count, cur`elems, cur.Tail()`parent, node`owner, node`index
      ensures OnlyCur() && nodes == old(nodes) + {node} && cur.parent == old(cur.parent)
      ensures Opens(cur, open[|path| - 1].value, key, node, closed)
      ensures cur.elems == old(cur.elems) + (if cur.nodeType == ArrType then [node] else []) && node.elems == []
    {
      hide Shows, Opens, Stands, Consistent;
      TopStands();
      UjsonNodes.Hang(cur, key, node, open[|path| - 1].value, closed);
      nodes := nodes + {node};
    }

    method Hang(key: string, node: UNode)
      requires Path() && Cursor() && node !in nodes && node.owner == null && node.elems == []
      modifies `nodes, cur`tree, cur`head, cur`tail, cur`count, cur`elems, cur.Tail()`parent, node`owner, node`index
      ensures Hanging(key, node) && nodes == old(nodes) + {node} && cur.parent == old(cur.parent)
    {
      hide Shows, Opens, Stands, Enclosed;
      TopStands();
      NotClosed();
      Store(key, node);
      StillClosed();
      forall i | 0 <= i < |path| - 1
        ensures Stands(i)
      {
        StillStands(i);
      }
      forall i | 0 <= i < |path|
        ensures Enclosed(i)
      {
        StillEnclosed(i);
      }
    }

    // One more closed node.
    ghost method Admit(key: string, child: UNode)
      requires Hanging(key, child) && Shows(child, child.abs, closed) && forall m :: m in child.elems ==> m in closed
      requires child in nodes
      modifies `closed
      ensures closed == old(closed) + {child} && Owned() && Consistent(closed)
      ensures Opens(path[|path| - 1], open[|path| - 1].value, key, child, closed)
      ensures forall i :: 0 <= i < |path| - 1 ==> Stands(i)
    {
      hide Shows, Opens;
      var n, before := |path| - 1, closed;
      ConsistentMore(closed, child);
      closed := closed + {child};
      OpensMore(path[n], open[n].value, key, child, before, closed);
      forall i | 0 <= i < n
        ensures Stands(i)
      {
        assert old(Stands(i));
        OpensMore(path[i], open[i].value, open[i + 1].key, path[i + 1], before, closed);
      }
    }

    // The child is finished: it joins the closed nodes.
    ghost method Join(key: string, child: UNode)
      requires Hanging(key, child) && Shows(child, child.abs, closed) && forall m :: m in child.elems ==> m in closed
      requires child in nodes
      modifies `closed, `open
      ensures Path()
      ensures closed == old(closed) + {child} && open == Put(old(open), key, child.abs)
    {
      hide Shows, Opens, Put;
      var n := |path| - 1;
      PutOthers(open, key, child.abs);
      Admit(key, child);
      OpensShows(path[n], open[n].value, key, child, closed);
      label Admitted:
      open := Put(open, key, child.abs);
      forall i | 0 <= i < n
        ensures Stands(i)
      {
        assert old@Admitted(Stands(i));
      }
      assert Stands(n);
    }

    ghost method Append(child: UNode, key: string, v: Json)
      requires |path| == |open| > 0
      requires forall i :: 0 <= i < |path| - 1 ==> Stands(i)
      requires forall i :: 0 <= i < |path| ==> Enclosed(i)
      modifies `path, `open
      ensures path == old(path) + [child] && open == Push(old(open), key, v)
      ensures forall i :: 0 <= i < |path| - 2 ==> Stands(i)
      ensures forall i :: 0 <= i < |path| - 1 ==> Enclosed(i)
    {
      hide Shows, Opens;
      var n := |path|;
      path, open := path + [child], Push(open, key, v);
      forall i | 0 <= i < n - 1
        ensures Stands(i)
      {
        assert old(Stands(i));
      }
      forall i | 0 <= i < n
        ensures Enclosed(i)
      {
        assert old(Enclosed(i));
      }
    }

    // The child becomes the new end of the path.
    ghost method Extend(key: string, child: UNode, v: Json)
      requires Hanging(key, child) && Shows(child, v, closed) && child.elems == [] && child in nodes
      requires child.nodeType != ValType
      requires child.parent == if child.nodeType == HashType then path[|path| - 1] else null
      modifies `path, `open
      ensures Path()
      ensures path == old(path) + [child] && open == Push(old(open), key, v)
    {
      hide Shows, Opens;
      Append(child, key, v);
      var n := |path| - 1;
      assert Stands(n - 1);
      assert Stands(n) && Enclosed(n);
    }

    // A value for the current container.
    method AddScalar(key: string, v: Json)
      requires Valid() && v.Val?
      modifies `nodes, `closed, `open, cur`tree, cur`head, cur`tail, cur`count, cur`elems, cur.Tail()`parent
      ensures Valid() && fresh(nodes - old(nodes)) && path == old(path)
      ensures open == Put(old(open), key, v)
    {
      hide Path, Hanging, Shows, Opens, Stacked;
      var node := new UNode.Leaf(v);
      Hang(key, node);
      LeafShows(node, closed);
      Join(key, node);
    }

    // A hash leaves no trace on the stack.
    lemma StackedHash(p: seq<UNode>, n: UNode)
      requires n.nodeType == HashType
      ensures Stacked(p + [n]) <==> Stacked(p)
    {
      var q := p + [n];
      assert q[..|p|] == p;
      forall i | 0 < i < |p|
        ensures q[..i] == p[..i]
      {
      }
      if Stacked(q) {
        forall i | 0 < i < |p| && p[i].nodeType == ArrType
          ensures Arrs(p[..i]) < STACK && arrayParentStack[Arrs(p[..i])] == p[i - 1]
        {
          assert q[i] == p[i] && q[i - 1] == p[i - 1];
        }
      }
    }

    // "{" in value position
    method OpenHash(key: string)
      requires Valid()
      modifies this, cur`tree, cur`head, cur`tail, cur`count, cur`elems, cur.Tail()`parent
      ensures Valid() && fresh(nodes - old(nodes))
      ensures open == Push(old(open), key, Hash(map[]))
    {
      hide Path, Hanging, Shows, Opens, Stacked;
      var newHash := new UNode.Container(HashType);
      newHash.parent := cur;
      Hang(key, newHash);
      EmptyShows(newHash, closed);
      StackedHash(path, newHash);
      Extend(key, newHash, Hash(map[]));
      cur := newHash;
    }

    // arrayParentStack[ arrayStackPos++ ] = cur
    method PushParent(ghost n: UNode)
      requires Stacked(path) && Cursor() && Arrs(path) < STACK && n.nodeType == ArrType
      modifies arrayParentStack, `arrayStackPos
      ensures Stacked(path + [n])
    {
      ghost var q := path + [n];
      assert q[..|path|] == path;
      arrayParentStack[arrayStackPos] := cur;
      arrayStackPos := arrayStackPos + 1;
      forall i | 0 < i < |q| && q[i].nodeType == ArrType
        ensures Arrs(q[..i]) < STACK && arrayParentStack[Arrs(q[..i])] == q[i - 1]
      {
        if i < |path| {
          assert q[..i] == path[..i];
          FewerArrs(path, i);
        }
      }
    }

    // "["
    method OpenArr(key: string)
      requires Valid() && Arrs(path) < STACK
      modifies this, arrayParentStack, cur`tree, cur`head, cur`tail, cur`count, cur`elems, cur.Tail()`parent
      ensures Valid() && fresh(nodes - old(nodes))
      ensures open == Push(old(open), key, Arr([]))
    {
      hide Path, Hanging, Shows, Opens, Stacked;
      var newArr := new UNode.Container(ArrType);
      PushParent(newArr);
      Hang(key, newArr);
      EmptyShows(newArr, closed);
      Extend(key, newArr, Arr([]));
      cur := newArr;
    }

    // ----- closing

    ghost method Shorten()
      requires Path() && |path| > 1
      modifies `path, `open
      ensures
        var n := old(|path|) - 1;
        && path == old(path)[..n] && open == old(open)[..n]
        && (forall i :: 0 <= i < n - 1 ==> Stands(i)) && forall i :: 0 <= i < n ==> Enclosed(i)
    {
      hide Shows, Opens;
      var n := |path| - 1;
      path, open := path[..n], open[..n];
      forall i | 0 <= i < n
        ensures Enclosed(i)
      {
        assert old(Enclosed(i));
      }
      forall i | 0 <= i < n - 1
        ensures Stands(i)
      {
        assert old(Stands(i));
      }
    }

    lemma LastTwo()
      requires Path() && |path| > 1
      ensures
        var n := |path| - 1;
        && |open| == n + 1 && Owned() && Consistent(closed)
        && path[n] !in closed && path[n] !in path[..n] && path[n] in nodes
        && Shows(path[n], open[n].value, closed) && (forall m :: m in path[n].elems ==> m in closed)
        && Opens(path[n - 1], open[n - 1].value, open[n].key, path[n], closed)
        && (forall m :: m in path[n - 1].elems ==> m in closed || m == path[n])
    {
      assert Stands(|path| - 1) && Stands(|path| - 2);
    }

    lemma Apart()
      requires Path()
      ensures forall i, j :: 0 <= i < j < |path| ==> path[i] != path[j]
    {
    }

    // The end of the path is taken off.
    ghost method Cut()
      requires Path() && |path| > 1
      modifies `path, `open
      ensures
        var top, frame, n := old(path[|path| - 1]), old(open[|open| - 1]), old(|path|) - 1;
        && path == old(path)[..n] && open == old(open)[..n]
        && Hanging(frame.key, top) && Shows(top, frame.value, closed) && top in nodes
        && forall m :: m in top.elems ==> m in closed
    {
      hide Shows, Opens, Stands, Enclosed;
      LastTwo();
      Apart();
      NotClosed();
      Shorten();
    }

    // The last container is finished.
    ghost method Ascend(top: UNode)
      requires Path() && |path| > 1 && top == path[|path| - 1]
      modifies `path, `open, `closed, top`abs
      ensures Path()
      ensures path == old(path)[..|old(path)| - 1] && open == Pop(old(open)) && closed == old(closed) + {top}
    {
      hide Shows, Opens, Hanging;
      var key, v := open[|path| - 1].key, open[|path| - 1].value;
      Mark(top, v);
      Cut();
      Join(key, top);
    }

    // Its value is final.
    ghost method Mark(top: UNode, v: Json)
      requires Path() && top == path[|path| - 1]
      modifies top`abs
      ensures Path() && top.abs == v
    {
      hide Shows, Opens;
      NotClosed();
      Apart();
      top.abs := v;
      forall m | m in closed
        ensures Shows(m, m.abs, closed)
      {
        NewAbsShows((m, m.abs, closed));
      }
      forall i | 0 <= i < |path|
        ensures Stands(i) && Enclosed(i)
      {
        assert old(Stands(i)) && old(Enclosed(i));
        if i == |path| - 1 {
          NewAbsShows((path[i], open[i].value, closed));
        } else {
          NewAbsOpens((path[i], open[i].value, open[i + 1].key, path[i + 1], closed));
        }
      }
    }

    lemma Kinds()
      requires Path()
      ensures |path| == |open| > 0
      ensures forall i :: 0 <= i < |path| ==>
        path[i].nodeType == (if open[i].value.Hash? then HashType else ArrType) && !open[i].value.Val?
      ensures Arrs(path) == Arrays(open)
    {
      forall i | 0 <= i < |path|
        ensures path[i].nodeType == (if open[i].value.Hash? then HashType else ArrType) && !open[i].value.Val?
      {
        assert Stands(i);
      }
      SameCount(path, open);
    }

    // "}" in key position: base.parent tells where the hash is.
    method CloseHash()
      requires Valid()
      modifies this, cur`abs
      ensures Valid() && nodes == old(nodes)
      ensures open == PopHash(old(open))
    {
      hide Path, Stacked, Shows, Opens;
      Kinds();
      CurEnclosed();
      if cur.parent != null {
        ghost var top, front := cur, path[..|path| - 1];
        assert path == front + [top];
        StackedHash(front, top);
        var up := cur.parent;
        Ascend(top);
        cur := up;
      }
    }

    lemma CurEnclosed()
      requires Valid()
      ensures cur.parent == if |path| > 1 && cur.nodeType == HashType then path[|path| - 2] else null
    {
      assert Enclosed(|path| - 1);
    }

    // "]": the stack tells where the innermost array is.
    method CloseArr()
      requires Valid() && Arrs(path) > 0 && open[0].value.Hash?
      modifies this, path
      ensures Valid() && nodes == old(nodes) && open == PopArr(old(open))
    {
      hide Path, Shows, Opens, Stacked;
      ghost var before := path;
      Kinds();
      Unwind();
      Unstacked(before, |path|);
      Descend(before, |path|);
    }

    // cur = arrayParentStack[ --arrayStackPos ]
    method Descend(ghost before: seq<UNode>, ghost k: nat)
      requires 0 < k <= |before| && arrayParentStack.Length == STACK
      requires 0 < arrayStackPos <= STACK && arrayStackPos - 1 == Arrs(before[..k]) <= STACK
      requires arrayParentStack[arrayStackPos - 1] == before[k - 1]
      requires forall i :: 0 < i < k && before[i].nodeType == ArrType ==>
        Arrs(before[..i]) < STACK && arrayParentStack[Arrs(before[..i])] == before[i - 1]
      modifies `arrayStackPos, `cur
      ensures Stacked(before[..k]) && cur == before[k - 1]
    {
      hide Stacked;
      arrayStackPos := arrayStackPos - 1;
      cur := arrayParentStack[arrayStackPos];
      StackedLess(before, k);
    }

    // Where the innermost array is, if p[k] is that array.
    lemma Unstacked(p: seq<UNode>, k: nat)
      requires Stacked(p) && 0 < k < |p| && p[k].nodeType == ArrType && Arrs(p[..k]) == Arrs(p) - 1
      ensures 0 < arrayStackPos <= arrayParentStack.Length && arrayParentStack[arrayStackPos - 1] == p[k - 1]
      ensures arrayParentStack.Length == STACK && arrayStackPos - 1 == Arrs(p[..k]) <= STACK
      ensures forall i :: 0 < i < k && p[i].nodeType == ArrType ==>
        Arrs(p[..i]) < STACK && arrayParentStack[Arrs(p[..i])] == p[i - 1]
    {
    }

    lemma StackedLess(p: seq<UNode>, k: nat)
      requires k <= |p| && arrayParentStack.Length == STACK && arrayStackPos == Arrs(p[..k]) <= STACK
      requires forall i :: 0 < i < k && p[i].nodeType == ArrType ==>
        Arrs(p[..i]) < STACK && arrayParentStack[Arrs(p[..i])] == p[i - 1]
      ensures Stacked(p[..k])
    {
      forall i | 0 < i < k
        ensures p[..k][..i] == p[..i]
      {
      }
    }

    // Down to the container of the innermost array.
    ghost method Unwind()
      requires Path() && Arrs(path) > 0 && path[0].nodeType == HashType
      modifies `path, `open, `closed, path`abs
      ensures Path()
      ensures 0 < |path| < |old(path)| && path == old(path)[..|path|] && open == PopArr(old(open))
      ensures old(path)[|path|].nodeType == ArrType && Arrs(path) == Arrs(old(path)) - 1
      decreases |path|
    {
      hide Path, Shows, Opens;
      Kinds();
      var n := |path| - 1;
      var top := path[n];
      JustRoot(path);
      Ascend(top);
      if top.nodeType == HashType {
        Unwind();
      }
    }

    // ----- finding the open containers again

    // From a container outwards: a hash names what it is in, an array has it on
    // the stack.
    ghost function Outwards(n: UNode, arrays: nat, fuel: nat): seq<UNode>
      requires arrays <= arrayParentStack.Length
      reads nodes, this`nodes, arrayParentStack, n
    {
      if fuel == 0 || n !in nodes then []
      else if n.nodeType == HashType then
        if n.parent == null || n.parent !in nodes then [n] else Outwards(n.parent, arrays, fuel - 1) + [n]
      else if arrays == 0 || arrayParentStack[arrays - 1] == null || arrayParentStack[arrays - 1] !in nodes then [n]
      else Outwards(arrayParentStack[arrays - 1], arrays - 1, fuel - 1) + [n]
    }

    // The links and the stack lead from cur through exactly the open containers,
    // and there they end, however long one goes on.
    lemma Recovered()
      requires Valid() && path[0].nodeType == HashType
      ensures forall fuel: nat :: fuel >= |path| ==> Outwards(cur, arrayStackPos, fuel) == path
    {
      forall fuel: nat | fuel >= |path|
        ensures Outwards(cur, arrayStackPos, fuel) == path
      {
        RecoveredFrom(|path|, fuel);
        assert path[..|path|] == path;
      }
    }

    lemma {:induction false} RecoveredFrom(k: nat, fuel: nat)
      requires Valid() && path[0].nodeType == HashType && 0 < k <= |path| && fuel >= k
      ensures Arrs(path[..k]) <= arrayParentStack.Length
      ensures Outwards(path[k - 1], Arrs(path[..k]), fuel) == path[..k]
      decreases k
    {
      var n := path[k - 1];
      assert path[..k][..k - 1] == path[..k - 1];
      assert Stands(k - 1) && Enclosed(k - 1);
      if k > 1 {
        RecoveredFrom(k - 1, fuel - 1);
        assert path[..k] == path[..k - 1] + [n];
      }
    }

    // ----- the program

    lemma Within()
      requires Valid()
      ensures cur in nodes && cur.Tail() <= nodes && forall i :: 0 <= i < |path| ==> path[i] in nodes
    {
    }

    // One visit to a label.
    method Go(data: string, r: Registers) returns (r': Registers)
      requires Valid() && path[0].nodeType == HashType
      requires Sane(data, r) && !Halted(r) && Fits(data, State(r, open))
      modifies this, arrayParentStack, nodes
      ensures Valid() && path[0].nodeType == HashType && fresh(nodes - old(nodes))
      ensures State(r', open) == Step(data, State(r, old(open)))
    {
      hide Path, Stacked, Scan, Fits;
      Kinds();
      Within();
      FitsHere(data, State(r, open));
      var inArr := cur.nodeType == ArrType;
      var (t, act) := Scan(data, r, inArr);
      r' := t;
      match act
      case Nothing =>
      case BeginHash => OpenHash(t.key);
      case BeginArr => OpenArr(t.key);
      case EndHash =>
        CurEnclosed();
        var moved := cur.parent != null;
        CloseHash();
        Kinds();
        if moved {
          r' := At(t, if cur.nodeType == ArrType then AfterColon else InHash);
        }
      case EndArr =>
        CloseArr();
        Kinds();
        r' := At(t, if cur.nodeType == ArrType then AfterColon else InHash);
      case Scalar(v) => AddScalar(t.key, v);
    }

    // What is still open at the end is taken as it is.
    ghost method Collapse()
      requires Path() && root == path[0]
      modifies `path, `open, `closed, path`abs
      ensures Consistent(closed) && closed <= nodes && root in closed && root.abs == Collapsed(old(open))
      decreases |path|
    {
      hide Path, Shows, Opens;
      Kinds();
      var n := |path| - 1;
      if n == 0 {
        CollapseRoot();
      } else {
        Ascend(path[n]);
        Collapse();
      }
    }

    ghost method CollapseRoot()
      requires Path() && |path| == 1 && root == path[0]
      modifies `closed, root`abs
      ensures Consistent(closed) && closed <= nodes && root in closed && root.abs == open[0].value
    {
      hide Shows, Opens;
      assert Stands(0);
      Mark(root, open[0].value);
      assert Stands(0);
      ConsistentMore(closed, root);
      closed := closed + {root};
    }
  }

  lemma PutOthers(open: seq<Frame>, key: string, v: Json)
    requires open != []
    ensures
      var n, more := |open| - 1, Put(open, key, v);
      && |more| == |open| && more[n].key == open[n].key && more[n].value == UjsonScan.Add(open[n].value, key, v)
      && forall i :: 0 <= i < n ==> more[i] == open[i]
  {
  }

  lemma LeafShows(n: UNode, closed: set<UNode>)
    requires n.nodeType == ValType && n.abs == n.scalar
    ensures Shows(n, n.abs, closed)
  {
  }

  lemma EmptyShows(n: UNode, closed: set<UNode>)
    requires n.nodeType != ValType && n.tree == map[] && n.elems == [] && n.count == 0 && n.head == null
    ensures Shows(n, if n.nodeType == HashType then Hash(map[]) else Arr([]), closed)
  {
  }

  lemma {:induction false} FewerArrs(path: seq<UNode>, i: nat)
    requires i < |path|
    ensures Arrs(path[..i]) + (if path[i].nodeType == ArrType then 1 else 0) <= Arrs(path)
    decreases |path|
  {
    var n := |path| - 1;
    if i < n {
      FewerArrs(path[..n], i);
      assert path[..n][..i] == path[..i];
    }
  }

  lemma {:induction false} SameCount(path: seq<UNode>, open: seq<Frame>)
    requires |path| == |open|
    requires forall i :: 0 <= i < |path| ==> (path[i].nodeType == ArrType <==> open[i].value.Arr?)
    ensures Arrs(path) == Arrays(open)
    decreases |path|
  {
    if path != [] {
      SameCount(path[..|path| - 1], open[..|open| - 1]);
    }
  }

  lemma JustRoot(path: seq<UNode>)
    requires path != [] && path[0].nodeType == HashType && Arrs(path) > 0
    ensures |path| > 1
  {
  }

  lemma FitsHere(data: string, s: State)
    requires Ready(data, s) && !Halted(s.regs) && Fits(data, s)
    ensures
      var act := Scan(data, s.regs, Top(s.open).Arr?).1;
      && (act.BeginArr? ==> Arrays(s.open) < MAX_DEPTH)
      && (act.EndArr? ==> Arrays(s.open) > 0)
      && Fits(data, Step(data, s))
      && (act.Scalar? ==> act.value.Val?)
  {
  }

  // uj_parse: the nodes it links spell out the tree that the machine with the
  // plain stack builds.
  method UjParse(data: string) returns (root: UNode, exits: bool, ghost nodes: set<UNode>)
    requires Fits(data, START)
    ensures fresh(nodes) && Consistent(nodes) && root in nodes
    ensures
      var t := Run(data, START);
      exits == t.regs.lab.Exit? && root.abs == Collapsed(t.open)
  {
    hide Scan, Step, Parser.Path, Parser.Stacked;
    var p := new Parser();
    p.Kinds();
    var r := BEGIN;
    while r.lab !in {Exit, Done}
      invariant fresh(p) && fresh(p.nodes) && fresh(p.arrayParentStack)
      invariant p.Valid() && p.path[0].nodeType == HashType && Sane(data, r)
      invariant p.open != [] && Fits(data, State(r, p.open))
      invariant Run(data, State(r, p.open)) == Run(data, START)
      decreases Measure(data, r)
    {
      ghost var s := State(r, p.open);
      StepOnward(data, s);
      FitsHere(data, s);
      r := p.Go(data, r);
    }
    p.Within();
    root, exits := p.root, r.lab == Exit;
    p.Collapse();
    nodes := p.closed;
  }

  // uj_parse of a good source with at most ten arrays inside each other: the
  // nodes spell out its tree.
  method ParseSource(v: UjsonSource.Source, tail: Gaps.Gap) returns (root: UNode, exits: bool, ghost nodes: set<UNode>)
    requires v.SHash? && UjsonSource.Good(v) && Gaps.GoodGap(tail, true) && UjsonSource.Depth(v) <= 10
    ensures fresh(nodes) && Consistent(nodes) && root in nodes
    ensures !exits && root.abs == UjsonSource.Value(v)
  {
    hide Run, Fits, UjsonSource.Text, Gaps.GapText;
    UjsonRoundTrip.SourceIsRead(v, tail);
    root, exits, nodes := UjParse(UjsonSource.Text(v) + Gaps.GapText(tail));
  }

  // How the printer walks an array: "count" times along the parent links.
  method Elements(a: UNode, ghost closed: set<UNode>) returns (elems: seq<UNode>)
    requires Consistent(closed) && a in closed && a.nodeType == ArrType
    ensures a.abs.Arr? && |elems| == |a.abs.items|
    ensures forall i :: 0 <= i < |elems| ==> elems[i] in closed && elems[i].abs == a.abs.items[i]
  {
    assert Shows(a, a.abs, closed);
    elems := [];
    var cur := a.head;
    for i := 0 to a.count
      invariant elems == a.elems[..i]
      invariant i < a.count ==> cur == a.elems[i]
    {
      elems := elems + [cur];
      cur := cur.parent;
    }
  }
}
