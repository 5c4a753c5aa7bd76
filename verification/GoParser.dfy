/**
  ParseFull of go/ujsonin.go over nodes in memory: the goto program with its
  variables as fields.  Each label is proved to do what the machine over values
  does, so that everything proved about the machine holds of the nodes.
*/
module GoParser {
  import opened Common
  import opened GoParse
  import opened GoTree

  // ----- errors

  datatype ParseError = Incomplete(line: nat, x: nat, state: string) | UnknownType(word: string)

  function Line(data: string, pos: nat): nat
    requires pos <= |data|
  {
    if pos == 0 then 1 else Line(data, pos - 1) + if data[pos - 1] == '\n' then 1 else 0
  }

  // How far the last newline is behind.
  function Column(data: string, pos: nat): nat
    requires pos <= |data|
  {
    if pos == 0 || data[pos - 1] == '\n' then 0 else Column(data, pos - 1) + 1
  }

  method GetPosInfo(data: string, pos: nat) returns (line: nat, x: nat)
    requires pos <= |data|
    ensures line == Line(data, pos) && x == Column(data, pos)
  {
    line, x := 1, 0;
    for i := 0 to pos
      invariant line == Line(data, i) && x == Column(data, i)
    {
      if data[i] == '\n' {
        line, x := line + 1, 0;
      } else {
        x := x + 1;
      }
    }
  }

  // The error that goes with a final state.  GetPosInfo panics when pos is
  // beyond the end; the handler then makes ParseFull return nothing at all.
  function ErrorOf(data: string, t: State): Option<ParseError>
    requires Sane(data, t) && Halted(t)
  {
    match t.lab
    case BadType => Some(UnknownType(t.typeWord))
    case OverEnd =>
      if t.pos > |data| then None else Some(Incomplete(Line(data, t.pos), Column(data, t.pos), t.finalState))
    case _ => None
  }

  predicate Panics(data: string, t: State) {
    t.lab == OverEnd && t.pos > |data|
  }

  // The tree that a final state leaves, complete or not.
  function TreeOf(t: State): Option<Json> {
    if t.open == [] then t.root else Some(Collapsed(t.open))
  }

  ghost predicate RootIs(root: JNode?, v: Option<Json>, nodes: set<JNode>)
    reads nodes
  {
    match v
    case None => root == null
    case Some(v) => root in nodes && root.abs == v && root.parent == null
  }

  // ----- the parser

  // The tree below a stack of open containers.
  function Collapsed(open: seq<Frame>): Json
    requires open != []
    decreases |open|
  {
    if |open| == 1 then open[0].value else Collapsed(Pop(open))
  }

  class Parser {
    const data: string
    const callback: bool

    var lab: Label
    var pos: nat
    var cur: JNode?
    var nodeType: NodeType
    var root: JNode?
    var remainder: string
    var finalState: string
    var key: string
    var endc: char
    var str: string
    var typeWord: string
    var keyStart: nat
    var typeStart: nat
    var strStart: nat
    var substrStart: nat
    var neg: bool
    var delivered: seq<JNode>     // what OnRootChunk has been called with

    ghost var closed: set<JNode>  // finished nodes
    ghost var path: seq<JNode>    // unfinished nodes, from the root to cur
    ghost var open: seq<Frame>    // what they stand for so far
    ghost var last: Option<Json>
    ghost var chunks: seq<Json>
    ghost var nodes: set<JNode>   // every node so far

    constructor (data: string, callback: bool)
      ensures this.data == data && this.callback == callback
      ensures Valid() && Model() == START && nodes == {}
    {
      this.data, this.callback := data, callback;
      lab, pos, cur, nodeType, root, remainder := UnknownRoot, 0, null, TypeArr, null, "";
      finalState, key, endc, str, typeWord := "", "", '"', "", "";
      keyStart, typeStart, strStart, substrStart, neg := 0, 0, 0, 0, false;
      delivered, closed, path, open, last, chunks, nodes := [], {}, [], [], None, [], {};
    }

    ghost function Model(): State
      reads this
    {
      State(lab, pos, open, last, chunks, remainder, finalState, key, endc, str, typeWord,
            keyStart, typeStart, strStart, substrStart, neg)
    }

    // path[i] stands for open[i].
    ghost predicate Stands(i: nat)
      requires i < |path| == |open|
      reads this`closed, this`path, this`open, closed, path[i]
    {
      && path[i] !in closed
      && path[i].parent == (if i == 0 then null else path[i - 1])
      && path[i].slot == open[i].key
      && if i == |path| - 1 then Shows(path[i], open[i].value, closed)
         else Opens(path[i], open[i].value, open[i + 1].key, path[i + 1], closed)
    }

    ghost predicate Path()
      reads this`closed, this`path, this`open, closed, path
    {
      && Consistent(closed)
      && |path| == |open|
      && (forall i, j :: 0 <= i < j < |path| ==> path[i] != path[j])
      && (forall i :: 0 <= i < |path| ==> !path[i].nodeType.TypeVal? && Stands(i))
    }

    ghost predicate Cursor()
      reads this`path, this`cur, this`nodeType, this`root, this`last, this`closed, closed`abs, closed`parent
    {
      if path != [] then cur == path[|path| - 1] && nodeType == cur.nodeType && root == path[0]
      else match last
           case None => root == null
           case Some(v) => root in closed && root.abs == v && root.parent == null
    }

    ghost predicate Delivered()
      reads this`delivered, this`chunks, this`closed, closed`abs
    {
      && |delivered| == |chunks|
      && forall i :: 0 <= i < |chunks| ==> delivered[i] in closed && delivered[i].abs == chunks[i]
    }

    ghost predicate Owned()
      reads this`closed, this`path, this`nodes
    {
      closed <= nodes && forall i :: 0 <= i < |path| ==> path[i] in nodes
    }

    // The nodes stand for what the ghost variables say.
    ghost predicate Kept()
      reads this`closed, this`path, this`open, this`cur, this`nodeType, this`root, this`last
      reads this`delivered, this`chunks, this`nodes
      reads closed, path
    {
      Path() && Cursor() && Delivered() && Owned()
    }

    ghost predicate Valid()
      reads this, closed, path
    {
      Kept() && Sane(data, Model())
    }

    // ----- what happens to the nodes

    method NewRoot(t: NodeType)
      requires Kept() && path == [] && !t.TypeVal?
      modifies `cur, `root, `nodeType, `path, `open, `nodes
      ensures Kept()
      ensures fresh(nodes - old(nodes))
      ensures open == [Frame(Empty(t), "")]
    {
      cur := new JNode.Container(t, null, "");
      root := cur;
      nodeType := t;
      path, open, nodes := [cur], [Frame(Empty(t), "")], nodes + {cur};
    }

    // As Path, but below the last node hangs a child that is not accounted for.
    ghost predicate Hanging(key: string, child: JNode)
      reads this`closed, this`path, this`open, closed, path
    {
      && Consistent(closed)
      && |path| == |open| > 0
      && (forall i, j :: 0 <= i < j < |path| ==> path[i] != path[j])
      && (forall i :: 0 <= i < |path| ==> !path[i].nodeType.TypeVal? && path[i] !in closed)
      && (forall i :: 0 <= i < |path| - 1 ==> Stands(i))
      && path[|path| - 1].parent == (if |path| == 1 then null else path[|path| - 2])
      && path[|path| - 1].slot == open[|path| - 1].key
      && Opens(path[|path| - 1], open[|path| - 1].value, key, child, closed)
      && child !in path && child !in closed
    }

    lemma TopStands()
      requires Path() && Cursor() && path != []
      ensures
        var n := |path| - 1;
        && cur == path[n] && cur !in closed && !cur.nodeType.TypeVal? && |open| == |path|
        && Shows(cur, open[n].value, closed)
        && cur.parent == (if n == 0 then null else path[n - 1]) && cur.slot == open[n].key
    {
      assert Stands(|path| - 1);
    }

    // cur.Add( key, node )
    method Hang(node: JNode)
      requires Path() && Cursor() && path != [] && node !in closed && node !in path
      modifies cur`hash, cur`arr
      ensures Hanging(key, node)
    {
      hide Shows, Opens;
      TopStands();
      cur.Hang(key, node, open[|path| - 1].value, closed);
    }

    // The child is finished: it joins the closed nodes.
    ghost method Join(key: string, child: JNode)
      requires Hanging(key, child) && Shows(child, child.abs, closed)
      requires !child.nodeType.TypeVal? ==> child.parent == path[|path| - 1] && child.slot == key
      modifies `closed, `open
      ensures Path()
      ensures closed == old(closed) + {child} && open == Put(old(open), key, child.abs)
    {
      hide Shows, Opens;
      var n, before := |path| - 1, closed;
      ConsistentMore(closed, child);
      closed := closed + {child};
      OpensMore(path[n], open[n].value, key, child, before, closed);
      OpensShows(path[n], open[n].value, key, child, closed);
      open := Put(open, key, child.abs);
      forall i | 0 <= i < n
        ensures Stands(i)
      {
        assert old(Stands(i));
        OpensMore(path[i], old(open)[i].value, old(open)[i + 1].key, path[i + 1], before, closed);
      }
      assert Stands(n);
    }

    ghost method Finish(key: string, child: JNode)
      requires Hanging(key, child) && Shows(child, child.abs, closed) && Cursor() && Delivered()
      requires Owned() && child in nodes
      requires !child.nodeType.TypeVal? ==> child.parent == path[|path| - 1] && child.slot == key
      modifies `closed, `open
      ensures Kept()
      ensures closed == old(closed) + {child} && open == Put(old(open), key, child.abs)
    {
      hide Path, Shows;
      Join(key, child);
    }

    // cur.Add( key, value )
    method AddValue(kind: Kind, value: string)
      requires Kept() && path != []
      modifies `closed, `open, `nodes, cur`hash, cur`arr
      ensures Kept()
      ensures fresh(nodes - old(nodes)) && path == old(path)
      ensures open == Put(old(open), key, Val(kind, value))
    {
      hide Opens, Shows, Path, Hanging, Cursor, Delivered;
      var node := new JNode.Scalar(kind, value);
      Hang(node);
      ScalarShows(node, closed);
      nodes := nodes + {node};
      Finish(key, node);
    }

    // The child becomes the new end of the path.
    ghost method Extend(key: string, child: JNode, v: Json)
      requires Hanging(key, child) && Shows(child, v, closed)
      requires !child.nodeType.TypeVal? && child.parent == path[|path| - 1] && child.slot == key
      modifies `path, `open
      ensures Path()
      ensures path == old(path) + [child] && open == Push(old(open), key, v)
    {
      hide Shows, Opens;
      var n := |path|;
      path, open := path + [child], Push(open, key, v);
      forall i | 0 <= i < n - 1
        ensures Stands(i)
      {
        assert old(Stands(i));
      }
      assert Stands(n - 1);
      assert Stands(n);
    }

    method OpenContainer(t: NodeType)
      requires Kept() && path != [] && !t.TypeVal?
      modifies `cur, `nodeType, `path, `open, `nodes, cur`hash, cur`arr
      ensures Kept()
      ensures fresh(nodes - old(nodes)) && |path| == |old(path)| + 1 && path[..|path| - 1] == old(path)
      ensures open == Push(old(open), key, Empty(t))
    {
      hide Shows, Opens, Path, Hanging, Delivered;
      var node := new JNode.Container(t, cur, key);
      Hang(node);
      EmptyShows(node, closed);
      Extend(key, node, Empty(t));
      cur := node;
      nodeType := t;
      nodes := nodes + {node};
    }

    lemma LastTwo()
      requires Path() && |path| > 1
      ensures
        var n := |path| - 1;
        && |open| == n + 1
        && path[n] !in closed && path[n].parent == path[n - 1] && path[n].slot == open[n].key
        && Shows(path[n], open[n].value, closed)
        && path[n - 1].parent == (if n == 1 then null else path[n - 2]) && path[n - 1].slot == open[n - 1].key
        && Opens(path[n - 1], open[n - 1].value, open[n].key, path[n], closed)
    {
      assert Stands(|path| - 1) && Stands(|path| - 2);
    }

    ghost method Shorten()
      requires Path() && |path| > 1
      modifies `path, `open
      ensures
        var n := old(|path|) - 1;
        path == old(path)[..n] && open == old(open)[..n] && forall i :: 0 <= i < n - 1 ==> Stands(i)
    {
      hide Shows, Opens;
      var n := |path| - 1;
      path, open := path[..n], open[..n];
      forall i | 0 <= i < n - 1
        ensures Stands(i)
      {
        assert old(Stands(i));
      }
    }

    // The end of the path is taken off.
    ghost method Cut(top: JNode)
      requires Path() && |path| > 1 && top == path[|path| - 1] && top.abs == open[|path| - 1].value
      modifies `path, `open
      ensures
        var frame, n := old(open[|open| - 1]), old(|path|) - 1;
        && path == old(path)[..n] && open == old(open)[..n]
        && top.parent == path[n - 1] && top.slot == frame.key && Hanging(frame.key, top) && Shows(top, top.abs, closed)
    {
      hide Shows, Opens, Stands;
      LastTwo();
      Apart();
      Shorten();
    }

    lemma Apart()
      requires Path()
      ensures Consistent(closed) && |path| == |open|
      ensures forall i, j :: 0 <= i < j < |path| ==> path[i] != path[j]
      ensures forall i :: 0 <= i < |path| ==> !path[i].nodeType.TypeVal? && path[i] !in closed
    {
    }

    // Its value is final.
    ghost method Detach(top: JNode)
      requires Path() && |path| > 1 && top == path[|path| - 1]
      modifies `path, `open, top`abs
      ensures
        var frame, n := old(open[|open| - 1]), old(|path|) - 1;
        && path == old(path)[..n] && open == old(open)[..n]
        && top.abs == frame.value && top.parent == path[n - 1] && top.slot == frame.key
        && Hanging(frame.key, top) && Shows(top, top.abs, closed)
    {
      hide Shows, Opens, Hanging;
      var n := |path| - 1;
      assert Stands(n);
      top.abs := open[n].value;
      forall i | 0 <= i < |path|
        ensures Stands(i)
      {
        assert old(Stands(i));
      }
      Cut(top);
    }

    // The last two nodes of the path.
    lemma Ends()
      requires Path() && |path| > 1
      ensures
        var n := |path| - 1;
        path[n].parent == path[n - 1] && path[n] !in closed && !path[n].nodeType.TypeVal? && |open| == n + 1
    {
      assert Stands(|path| - 1);
    }

    // cur = parent
    method CloseContainer()
      requires Kept() && |path| > 1
      modifies `cur, `nodeType, `path, `open, `closed, cur
      ensures Kept()
      ensures path == old(path[..|path| - 1]) && closed == old(closed + {cur})
      ensures open == Pop(old(open))
    {
      hide Shows, Opens, Hanging, Delivered, Path;
      Ends();
      ghost var top, key := cur, open[|path| - 1].key;
      var parent := cur.parent;
      Detach(top);
      cur := parent;
      nodeType := cur.nodeType;
      Finish(key, top);
    }

    // The root is finished.
    ghost method CloseRoot()
      requires Kept() && |path| == 1
      modifies `path, `open, `closed, `last, root
      ensures Kept()
      ensures path == [] && open == [] && closed == old(closed + {path[0]})
      ensures last == Some(old(open)[0].value)
    {
      hide Shows, Opens;
      var top := path[0];
      assert Stands(0);
      top.abs := open[0].value;
      ConsistentMore(closed, top);
      closed, last := closed + {top}, Some(top.abs);
      path, open := [], [];
    }

    // ----- the labels

    // A comment may begin here.
    method CommentStart(line: Label, block: Label)
      modifies `pos, `lab
      ensures Model() == old(Slash(data, Model(), line, block))
    {
      if pos < |data| - 1 {
        if data[pos] == '/' {
          pos := pos + 1;
          lab := line;
        } else if data[pos] == '*' {
          pos := pos + 1;
          lab := block;
        }
      }
    }

    method EnterRoot(t: NodeType, lab: Label)
      requires Kept() && path == [] && !t.TypeVal?
      modifies `cur, `root, `nodeType, `path, `open, `nodes, `lab
      ensures Kept() && fresh(nodes - old(nodes))
      ensures Model() == old(GoParse.NewRoot(Model(), Empty(t), lab))
    {
      hide Kept;
      NewRoot(t);
      this.lab := lab;
    }

    // A root hash without its braces: the first key begins.
    method AtRootKey(c: char)
      requires Kept() && path == [] && pos > 0 && (c == '\'' || c == '"' || KeyLetter(c))
      modifies this
      ensures Kept() && fresh(nodes - old(nodes))
      ensures Model() == old(RootLetter(data, Model(), c))
    {
      hide Kept, GoParse.NewRoot;
      if c == '\'' || c == '"' {
        endc := c;
        EnterRoot(TypeHash, QKeyName1);
      } else {
        pos := pos - 1;
        EnterRoot(TypeHash, KeyName1);
      }
    }

    method AtRootLetter(c: char)
      requires Kept() && path == [] && pos > 0
      modifies this
      ensures Kept() && fresh(nodes - old(nodes))
      ensures Model() == old(RootLetter(data, Model(), c))
    {
      hide Kept, Slash, GoParse.NewRoot, KeyLetter;
      if c == '{' {
        EnterRoot(TypeHash, InHash);
      } else if c == '[' {
        EnterRoot(TypeArr, AfterColon);
      } else if c == '\'' || c == '"' || KeyLetter(c) {
        AtRootKey(c);
      } else if c == '/' {
        CommentStart(RootHashComment, RootHashComment2);
      }
    }

    method AtUnknownRoot()
      requires Kept() && path == [] && lab == UnknownRoot && Sane(data, Model())
      modifies this
      ensures Kept() && fresh(nodes - old(nodes))
      ensures Model() == old(StepUnknownRoot(data, Model()))
    {
      hide Kept, Sane, RootLetter, Forward;
      if pos > |data| - 1 {
        finalState := "UnknownRoot";
        lab := OverEnd;
        return;
      }
      var c := data[pos];
      pos := pos + 1;
      if pos >= |data| {
        lab := Done;
      } else {
        AtRootLetter(c);
      }
    }

    lemma PathOwned()
      requires Kept()
      ensures forall i :: 0 <= i < |path| ==> path[i] in nodes
    {
    }

    lemma SameLength()
      requires Kept()
      ensures |path| == |open|
    {
    }

    lemma Parentage()
      requires Kept() && path != []
      ensures (cur != null && cur == root) <==> |path| == 1
      ensures cur != null && (cur.parent != null <==> |path| > 1)
      ensures |path| == |open|
    {
      assert Stands(|path| - 1);
    }

    // onRootChunk( cur )
    method Deliver()
      requires Kept() && path == [] && cur != null && cur == root && last.Some?
      modifies `delivered, `chunks
      ensures Kept() && chunks == old(chunks) + [last.value]
    {
      hide Path;
      delivered := delivered + [cur];
      chunks := chunks + [cur.abs];
    }

    // cur, nodeType = parent, parentType; goto HashOrAfterColon
    method Ascend()
      requires Kept() && |path| == |open| > 1
      modifies `cur, `nodeType, `path, `open, `closed, `lab, cur
      ensures Kept() && nodes == old(nodes)
      ensures Model() == old(Model().(lab := HashOrAfterColon, open := Pop(open)))
    {
      hide Kept, Pop;
      CloseContainer();
      lab := HashOrAfterColon;
    }

    // The root hash is complete.
    method DeliverRoot()
      requires Kept() && |path| == |open| == 1 && pos <= |data|
      modifies this, path
      ensures Kept() && fresh(nodes - old(nodes))
      ensures Model() == old(LeaveHash(data, callback, Model()))
    {
      hide Kept;
      InPath();
      CloseRoot();
      if callback {
        Deliver();
        lab := UnknownRoot;
      } else {
        remainder := data[pos..];
        lab := Done;
      }
    }

    // A closing brace: up to the parent, or out of the root.
    method CloseHash()
      requires Kept() && path != [] && pos <= |data|
      modifies this, path
      ensures Kept() && fresh(nodes - old(nodes))
      ensures Model() == old(LeaveHash(data, callback, Model()))
    {
      hide Kept, Pop;
      Parentage();
      InPath();
      if cur.parent != null {
        Ascend();
      } else {
        DeliverRoot();
      }
    }

    lemma InPath()
      requires Kept() && path != []
      ensures cur in path && root in path && cur == path[|path| - 1] && root == path[0]
    {
    }

    method AtHash()
      requires Kept() && path != [] && lab == InHash && Sane(data, Model())
      modifies this, path
      ensures Kept() && fresh(nodes - old(nodes))
      ensures Model() == old(StepHash(data, callback, Model()))
    {
      hide Kept, Sane, Slash, LeaveHash, Forward, KeyLetter;
      if pos > |data| - 1 {
        finalState := "Hash";
        lab := OverEnd;
        return;
      }
      var c := data[pos];
      pos := pos + 1;
      if c == '\'' || c == '"' {
        endc := c;
        lab := QKeyName1;
      } else if KeyLetter(c) {
        pos := pos - 1;
        lab := KeyName1;
      } else if c == '}' {
        CloseHash();
      } else if c == '/' {
        CommentStart(HashComment, HashComment2);
      }
    }

    method AtLineComment(here: string, back: Label)
      requires Sane(data, Model()) && lab in {RootHashComment, HashComment, AcComment}
      requires back == if lab == RootHashComment then UnknownRoot else if lab == HashComment then InHash else AfterColon
      modifies `lab, `pos, `finalState
      ensures Model() == old(StepLineComment(data, Model(), here, back))
    {
      hide Sane, Forward;
      if pos > |data| - 1 {
        finalState := here;
        lab := OverEnd;
        return;
      }
      var c := data[pos];
      pos := pos + 1;
      if c == '\r' || c == '\n' {
        lab := back;
      }
    }

    method AtBlockComment(here: string, back: Label)
      requires Sane(data, Model()) && lab in {RootHashComment2, HashComment2, AcComment2}
      requires back == if lab == RootHashComment2 then UnknownRoot else InHash
      modifies `lab, `pos, `finalState
      ensures Model() == old(StepBlockComment(data, Model(), here, back))
    {
      hide Sane, Forward;
      if pos > |data| - 1 {
        finalState := here;
        lab := OverEnd;
        return;
      }
      var c := data[pos];
      pos := pos + 1;
      if pos > |data| - 1 {
        lab := OverEnd;
      } else if c == '*' && pos < |data| - 1 && data[pos] == '/' {
        pos := pos + 1;
        lab := back;
      }
    }

    method AtQuotedKey()
      requires Sane(data, Model()) && lab in {QKeyName1, QKeyNameX}
      modifies `lab, `pos, `finalState, `key, `keyStart
      ensures Model() == old(StepQuotedKey(data, Model()))
    {
      if lab == QKeyName1 {
        keyStart := pos;
        pos := pos + 1;
        lab := QKeyNameX;
        return;
      }
      if pos > |data| - 1 {
        finalState := "QKeyNameX";
        lab := OverEnd;
        return;
      }
      var c := data[pos];
      pos := pos + 1;
      if c == endc {
        key := data[keyStart..pos - 1];
        lab := Colon;
      }
    }

    method AtBareKey()
      requires Sane(data, Model()) && lab in {KeyName1, KeyNameX}
      modifies `lab, `pos, `finalState, `key, `keyStart
      ensures Model() == old(StepBareKey(data, Model()))
    {
      if lab == KeyName1 {
        keyStart := pos;
        pos := pos + 1;
        lab := KeyNameX;
        return;
      }
      if pos > |data| - 1 {
        finalState := "KeyNameX";
        lab := OverEnd;
        return;
      }
      var c := data[pos];
      pos := pos + 1;
      if c == ':' {
        key := data[keyStart..pos - 1];
        lab := AfterColon;
      } else if c == ' ' || c == '\t' {
        key := data[keyStart..pos - 1];
        lab := Colon;
      }
    }

    method AtColon()
      requires Sane(data, Model()) && lab == Colon
      modifies `lab, `pos, `finalState
      ensures Model() == old(StepColon(data, Model()))
    {
      if pos > |data| - 1 {
        finalState := "Colon";
        lab := OverEnd;
        return;
      }
      var c := data[pos];
      pos := pos + 1;
      if c == ':' {
        lab := AfterColon;
      }
    }

    method LoseCursor()
      requires Kept() && path == []
      modifies `cur
      ensures Kept()
    {
      cur := null;
    }

    // The root array is complete.
    method FinishRoot()
      requires Kept() && |path| == |open| == 1 && pos <= |data|
      modifies this, path
      ensures Kept() && fresh(nodes - old(nodes))
      ensures Model() == old(LeaveArr(data, Model()))
    {
      hide Kept;
      InPath();
      CloseRoot();
      LoseCursor();
      remainder := data[pos..];
      lab := Done;
    }

    // A closing bracket: up to the parent, or out of the root.
    method CloseArr()
      requires Kept() && path != [] && pos <= |data|
      modifies this, path
      ensures Kept() && fresh(nodes - old(nodes))
      ensures Model() == old(LeaveArr(data, Model()))
    {
      hide Kept, Pop;
      Parentage();
      InPath();
      if cur.parent == null {
        FinishRoot();
      } else {
        Ascend();
      }
    }

    method AtBracket(c: char)
      requires Kept() && path != [] && lab == AfterColon && 0 < pos <= |data| && c == data[pos - 1]
      modifies this, path
      ensures Kept() && fresh(nodes - old(nodes))
      ensures Model() == old(Bracket(data, Model(), c))
    {
      hide Kept, LeaveArr, Put, Push, Pop;
      InPath();
      if c == '{' {
        OpenContainer(TypeHash);
        lab := InHash;
      } else if c == '[' {
        OpenContainer(TypeArr);
      } else if c == ']' {
        CloseArr();
      }
    }

    // A scalar begins.
    method AtScalarStart(c: char)
      requires lab == AfterColon && 0 < pos <= |data| && c == data[pos - 1]
      requires c == '"' || c == '\'' || c == '`' || Lower(c) || Digit(c) || c == '-'
      modifies `lab, `pos, `endc, `typeStart, `neg
      ensures Model() == old(ScalarStart(Model(), c))
    {
      if c == '"' || c == '\'' || c == '`' {
        endc := c;
        lab := String1;
      } else if Lower(c) {
        typeStart := pos - 1;
        lab := TypeX;
      } else if Digit(c) {
        neg := false;
        lab := Number1;
      } else {
        neg := true;
        pos := pos + 1;
        lab := Number1;
      }
    }

    method AtAfterColon()
      requires Kept() && path != [] && lab == AfterColon && Sane(data, Model())
      modifies this, path
      ensures Kept() && fresh(nodes - old(nodes))
      ensures Model() == old(StepAfterColon(data, Model()))
    {
      hide Kept, Sane, Slash, Bracket, ScalarStart, Forward, Lower, Digit;
      if pos > |data| - 1 {
        finalState := "AfterColon";
        lab := OverEnd;
        return;
      }
      var c := data[pos];
      pos := pos + 1;
      if c == '"' || c == '\'' || c == '`' || Lower(c) || Digit(c) || c == '-' {
        AtScalarStart(c);
      } else if c == '/' {
        CommentStart(AcComment, AcComment2);
      } else {
        AtBracket(c);
      }
    }

    // cur.Add( key, node ); goto HashOrAfterColon
    method AddAndGo(kind: Kind, value: string)
      requires Kept() && path != []
      modifies `lab, `closed, `open, `nodes, cur`hash, cur`arr
      ensures Kept() && fresh(nodes - old(nodes))
      ensures Model() == old(Model().(lab := HashOrAfterColon, open := Put(open, key, Val(kind, value))))
    {
      hide Kept, Put;
      AddValue(kind, value);
      lab := HashOrAfterColon;
    }

    method AtType()
      requires Kept() && path != [] && lab == TypeX && Sane(data, Model())
      modifies this, path
      ensures Kept() && fresh(nodes - old(nodes))
      ensures Model() == old(StepType(data, Model()))
    {
      hide Kept, Put, Forward;
      InPath();
      if pos > |data| - 1 {
        finalState := "TypeX";
        lab := OverEnd;
        return;
      }
      var c := data[pos];
      pos := pos + 1;
      if Digit(c) || Lower(c) {
        return;
      }
      pos := pos - 1;
      typeWord := data[typeStart..pos];
      if typeWord !in WORDS {
        lab := BadType;
      } else {
        AddAndGo(WORDS[typeWord], "");
      }
    }

    method AtNumber()
      requires Kept() && path != [] && lab in {Number1, NumberX} && Sane(data, Model())
      modifies this, path
      ensures Kept() && fresh(nodes - old(nodes))
      ensures Model() == old(StepNumber(data, Model()))
    {
      hide Kept, Put, Forward;
      InPath();
      if lab == Number1 {
        strStart := pos - 1;
        lab := NumberX;
        return;
      }
      if pos > |data| - 1 {
        finalState := "NumberX";
        lab := OverEnd;
        return;
      }
      var c := data[pos];
      pos := pos + 1;
      if c == '.' {
        lab := AfterDot;
      } else if c < '0' || c > '9' {
        pos := pos - 1;
        AddAndGo(if neg then Neg else Pos, data[strStart..pos]);
      }
    }

    method AtAfterDot()
      requires Kept() && path != [] && lab == AfterDot && Sane(data, Model())
      modifies this, path
      ensures Kept() && fresh(nodes - old(nodes))
      ensures Model() == old(StepAfterDot(data, Model()))
    {
      hide Kept, Put, Forward;
      InPath();
      if pos > |data| - 1 {
        finalState := "AfterDot";
        lab := OverEnd;
        return;
      }
      var c := data[pos];
      pos := pos + 1;
      if c < '0' || c > '9' {
        pos := pos - 1;
        AddAndGo(if neg then FloatNeg else FloatPos, data[strStart..pos]);
      }
    }

    method AtString1()
      requires Kept() && path != [] && lab == String1 && Sane(data, Model())
      modifies this, path
      ensures Kept() && fresh(nodes - old(nodes))
      ensures Model() == old(StepString1(data, Model()))
    {
      hide Kept, Put, Forward;
      InPath();
      if pos > |data| - 1 {
        finalState := "String1";
        lab := OverEnd;
        return;
      }
      var c := data[pos];
      str := "";
      substrStart := pos;
      pos := pos + 1;
      if c == endc {
        AddAndGo(Str, str);
      } else if c == '\\' {
        lab := Escape;
      } else {
        strStart := pos - 1;
        lab := StringX;
      }
    }

    method AtStringX()
      requires Kept() && path != [] && lab == StringX && Sane(data, Model())
      modifies this, path
      ensures Kept() && fresh(nodes - old(nodes))
      ensures Model() == old(StepStringX(data, Model()))
    {
      hide Kept, Put, Forward;
      InPath();
      if pos > |data| - 1 {
        finalState := "StringX";
        lab := OverEnd;
        return;
      }
      var c := data[pos];
      pos := pos + 1;
      if c == endc {
        str := str + data[substrStart..pos - 1];
        AddAndGo(Str, str);
      } else if c == '\\' {
        lab := Escape;
      }
    }

    method AtEscape()
      requires lab == Escape && Sane(data, Model())
      modifies `lab, `pos, `finalState, `str, `substrStart
      ensures Model() == old(StepEscape(data, Model()))
    {
      hide Forward;
      if pos > |data| - 1 {
        finalState := "Escape";
        lab := OverEnd;
        return;
      }
      var c := data[pos];
      lab := StringX;
      if c == endc {
        str := str + data[substrStart..pos - 1] + [endc];
        pos := pos + 1;
        substrStart := pos;
      } else if c == '\\' {
        pos := pos + 1;
        str := str + data[substrStart..pos - 1] + "\\";
        substrStart := pos;
      } else {
        pos := pos + 1;
      }
    }

    method AtHashOrAfterColon()
      requires Kept() && path != [] && lab == HashOrAfterColon && Sane(data, Model())
      modifies `lab
      ensures Model() == old(Step(data, callback, Model()))
    {
      hide Forward;
      assert Stands(|path| - 1);
      lab := if nodeType == TypeHash then InHash else AfterColon;
    }

    // The labels that read a scalar.
    method GoScalar()
      requires Kept() && path != [] && Sane(data, Model())
      requires lab in {TypeX, Number1, NumberX, AfterDot, String1, StringX, Escape}
      modifies this, path
      ensures Kept() && fresh(nodes - old(nodes))
      ensures Model() == old(Step(data, callback, Model()))
    {
      hide Kept, StepType, StepNumber, StepAfterDot, StepString1, StepStringX, StepEscape, Sane, Forward, Step;
      StepScalarParts(data, callback, Model());
      if lab == TypeX {
        AtType();
      } else if lab == AfterDot {
        AtAfterDot();
      } else if lab == String1 {
        AtString1();
      } else if lab == StringX {
        AtStringX();
      } else if lab == Escape {
        AtEscape();
      } else {
        AtNumber();
      }
    }

    // The labels that only skip or collect bytes.
    method GoPlain()
      requires Sane(data, Model())
      requires lab in {RootHashComment, HashComment, AcComment, RootHashComment2, HashComment2, AcComment2,
                       QKeyName1, QKeyNameX, KeyName1, KeyNameX, Colon}
      modifies `lab, `pos, `finalState, `key, `keyStart
      ensures Model() == old(Step(data, callback, Model()))
    {
      hide StepLineComment, StepBlockComment, StepQuotedKey, StepBareKey, StepColon, Sane, Forward, Step;
      StepCommentParts(data, callback, Model());
      StepKeyParts(data, callback, Model());
      if lab == RootHashComment {
        AtLineComment("RootHashComment", UnknownRoot);
      } else if lab == HashComment {
        AtLineComment("HashComment", InHash);
      } else if lab == AcComment {
        AtLineComment("AC_Comment", AfterColon);
      } else if lab == RootHashComment2 {
        AtBlockComment("RootHashComment2", UnknownRoot);
      } else if lab == HashComment2 {
        AtBlockComment("HashComment2", InHash);
      } else if lab == AcComment2 {
        AtBlockComment("AC_Comment2", InHash);
      } else if lab == QKeyName1 || lab == QKeyNameX {
        AtQuotedKey();
      } else if lab == KeyName1 || lab == KeyNameX {
        AtBareKey();
      } else {
        AtColon();
      }
    }

    // The label the parser is at.
    method Go()
      requires Valid() && !Halted(Model())
      modifies this, path
      ensures Valid() && fresh(nodes - old(nodes))
      ensures Model() == old(Step(data, callback, Model()))
    {
      hide Kept, StepHash, StepUnknownRoot, StepAfterColon, CurIsHash, Sane, Forward, Step;
      SameLength();
      SaneOpen(data, Model());
      StepSane(data, callback, Model());
      StepParts(data, callback, Model());
      match lab
      case UnknownRoot => AtUnknownRoot();
      case InHash => AtHash();
      case AfterColon => AtAfterColon();
      case RootHashComment | HashComment | AcComment | RootHashComment2 | HashComment2 | AcComment2
        | QKeyName1 | QKeyNameX | KeyName1 | KeyNameX | Colon => GoPlain();
      case TypeX | Number1 | NumberX | AfterDot | String1 | StringX | Escape => GoScalar();
      case HashOrAfterColon => AtHashOrAfterColon();
      case OverEnd | BadType | Done =>
    }

    ghost method CollapseLast()
      requires Path() && Delivered() && Owned() && |path| == 1
      modifies `closed, `path, `open, path
      ensures Path() && Delivered() && Owned()
      ensures old(path[0]) in closed && old(path[0]).abs == old(open[0].value) && old(path[0]).parent == null
    {
      hide Shows, Opens, Hanging;
      var top := path[0];
      assert Stands(0);
      top.abs := open[0].value;
      ConsistentMore(closed, top);
      closed := closed + {top};
      path, open := [], [];
    }

    // Everything that is still open is taken as it is.
    ghost method Collapse()
      requires Path() && Delivered() && Owned() && path != [] && root == path[0]
      modifies `closed, `path, `open, path
      ensures Path() && Delivered() && Owned()
      ensures root in closed && root.abs == Collapsed(old(open)) && root.parent == null
      decreases |path|
    {
      hide Path, Shows, Hanging;
      SameLengths();
      var n := |path| - 1;
      if n == 0 {
        CollapseLast();
      } else {
        var top, key := path[n], open[n].key;
        NotClosed();
        Detach(top);
        Join(key, top);
        Collapse();
      }
    }

    lemma SameLengths()
      requires Path()
      ensures |path| == |open|
    {
    }

    lemma NotClosed()
      requires Path() && path != []
      ensures path[|path| - 1] !in closed && path[|path| - 1] in path
      ensures forall i :: 0 <= i < |path| - 1 ==> path[i] != path[|path| - 1]
    {
      assert Stands(|path| - 1);
    }

    // Labels OverEnd and Done, and the handler of the panic.
    method Outcome() returns (result: JNode?, rest: string, err: Option<ParseError>)
      requires Sane(data, Model()) && Halted(Model())
      ensures err == ErrorOf(data, Model())
      ensures if Panics(data, Model()) then result == null && rest == "" else result == root && rest == remainder
    {
      hide Line, Column;
      result, rest, err := root, remainder, None;
      if lab == OverEnd {
        if pos > |data| {
          result, rest := null, "";
        } else {
          var line, x := GetPosInfo(data, pos);
          err := Some(Incomplete(line, x, finalState));
        }
      } else if lab == BadType {
        err := Some(UnknownType(typeWord));
      }
    }

    // The tree is complete, or taken as it is.
    ghost method Settle()
      requires Kept()
      modifies `closed, `path, `open, path
      ensures Consistent(closed) && closed <= nodes && Delivered()
      ensures RootIs(root, TreeOf(old(Model())), closed)
    {
      SameLength();
      if path != [] {
        Collapse();
      }
    }

    method Finished() returns (result: JNode?, rest: string, err: Option<ParseError>)
      requires Valid() && Halted(Model())
      modifies `closed, `path, `open, path
      ensures Consistent(closed) && closed <= old(nodes) && Delivered()
      ensures
        var t := old(Model());
        && err == ErrorOf(data, t)
        && rest == (if Panics(data, t) then "" else t.remainder)
        && RootIs(result, if Panics(data, t) then None else TreeOf(t), closed)
    {
      hide ErrorOf, Panics, TreeOf, Kept;
      result, rest, err := Outcome();
      Settle();
    }
  }

  method ParseFull(data: string, callback: bool)
    returns (root: JNode?, remainder: string, err: Option<ParseError>, delivered: seq<JNode>, ghost nodes: set<JNode>)
    ensures fresh(nodes) && Consistent(nodes)
    ensures
      var t := Run(data, callback, START);
      && err == ErrorOf(data, t)
      && remainder == (if Panics(data, t) then "" else t.remainder)
      && RootIs(root, if Panics(data, t) then None else TreeOf(t), nodes)
      && |delivered| == |t.chunks|
      && forall i :: 0 <= i < |delivered| ==> delivered[i] in nodes && delivered[i].abs == t.chunks[i]
  {
    hide ErrorOf, Panics, RootIs, TreeOf, Step, Parser.Kept;
    var p := new Parser(data, callback);
    while p.lab !in {OverEnd, BadType, Done}
      invariant fresh(p) && p.data == data && p.callback == callback
      invariant p.Valid() && fresh(p.nodes)
      invariant Run(data, callback, p.Model()) == Run(data, callback, START)
      decreases Measure(data, p.Model())
    {
      p.PathOwned();
      p.Go();
    }
    p.PathOwned();
    root, remainder, err := p.Finished();
    delivered, nodes := p.delivered, p.closed;
  }
}
