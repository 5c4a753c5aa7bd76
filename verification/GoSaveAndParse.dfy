/**
  The law between the printer and the parser of go/ujsonin.go, over values and
  over nodes in memory.
*/
module GoSaveAndParse {
  import opened Common
  import opened Gaps
  import opened GoParse
  import opened GoSource
  import opened GoRoundTrip
  import opened GoTree
  import opened GoShape
  import opened GoOverlay
  import opened GoOverlayNodes
  import opened GoLayout
  import opened GoParser
  import opened GoPrinter

  method JsonSave(n: JNode, ghost s: Shape) returns (out: string, ghost src: Source)
    requires s.node == n && Links(s) && NamedKeys(Spelled(s))
    ensures Prints(Spelled(s), 1, out, src) && PrintOf(Spelled(s), 1, out)
  {
    out, src := DumpInternalSave(n, 1, s, Conts(s));
  }

  lemma {:induction false} WritablePrintable(v: Json)
    requires Writable(v)
    ensures Printable(v) && NamedKeys(v)
    decreases v
  {
    match v
    case Hash(fields) =>
      forall k | k in fields
        ensures Printable(fields[k]) && NamedKeys(fields[k])
      {
        WritablePrintable(fields[k]);
      }
    case Arr(items) =>
      forall i | 0 <= i < |items|
        ensures Printable(items[i]) && NamedKeys(items[i])
      {
        WritablePrintable(items[i]);
      }
    case Val(_, _) =>
  }

  // Whatever the printer makes of a writable tree is read back as that tree,
  // with the rest left over.
  lemma PrintedIsRead(v: Json, out: string, src: Source, rest: string)
    requires Writable(v) && !v.Val? && Prints(v, 1, out, src)
    ensures Delivers(out + rest, v, rest)
  {
    hide Delivers, Text, GapText, Writable;
    WritablePrintable(v);
    LaidGood(src, 1);
    ReadsBack([], src, rest);
    EmptyGap();
    assert "" + Text(src) + rest == out + rest;
  }

  // ----- streams

  // Printed hashes, one behind the other.
  ghost predicate Printed(values: seq<Json>, outs: seq<string>, srcs: seq<Source>) {
    && |values| == |outs| == |srcs|
    && forall i :: 0 <= i < |values| ==>
      values[i].Hash? && Writable(values[i]) && Prints(values[i], 1, outs[i], srcs[i])
  }

  function Roots(srcs: seq<Source>): seq<(Gap, Source)> {
    seq(|srcs|, i requires 0 <= i < |srcs| => ([], srcs[i]))
  }

  lemma {:induction false} RootsConcat(values: seq<Json>, outs: seq<string>, srcs: seq<Source>)
    requires Printed(values, outs, srcs)
    ensures RootsText(Roots(srcs)) == Concat(outs) && GoodRoots(Roots(srcs)) && Values(Roots(srcs)) == values
    decreases |values|
  {
    hide Text, Good, Laid, Writable, Value, GapText;
    if values != [] {
      var roots := Roots(srcs);
      WritablePrintable(values[0]);
      LaidGood(srcs[0], 1);
      HashSourceOf(srcs[0], values[0]);
      EmptyGap();
      RootsConcat(values[1..], outs[1..], srcs[1..]);
      assert roots[1..] == Roots(srcs[1..]);
      assert roots == [roots[0]] + roots[1..];
      assert "" + Text(srcs[0]) + Concat(outs[1..]) == Concat(outs);
      assert values == [values[0]] + values[1..];
    }
  }

  lemma HashSourceOf(src: Source, v: Json)
    requires Value(src) == v
    ensures v.Hash? ==> src.SHash?
  {
  }

  // The callback gets every printed hash, once each and in order.
  lemma PrintedStreamDelivers(values: seq<Json>, outs: seq<string>, srcs: seq<Source>, tail: Gap)
    requires Printed(values, outs, srcs) && GoodGap(tail, true)
    ensures Run(Concat(outs) + GapText(tail), true, START).chunks == values
  {
    hide Run, RootsText, Values, GoodRoots, Printed, GapText, GoodGap;
    RootsConcat(values, outs, srcs);
    StreamDelivers(Roots(srcs), tail);
  }

  // ----- in memory

  lemma DeliveredResult(data: string, v: Json, rest: string)
    requires Delivers(data, v, rest)
    ensures
      var t := Run(data, false, START);
      !Panics(data, t) && ErrorOf(data, t) == None && t.remainder == rest && TreeOf(t) == Some(v)
  {
    hide Run;
    DoneIsEmpty(data, START);
  }

  // Nothing is open any more when the parser is done.
  lemma {:induction false} DoneIsEmpty(data: string, s: State)
    requires Sane(data, s) && (s.lab == Done ==> s.open == [])
    ensures Run(data, false, s).lab == Done ==> Run(data, false, s).open == []
    decreases Measure(data, s)
  {
    hide Step;
    if !Halted(s) {
      StepDone(data, s);
      DoneIsEmpty(data, Step(data, false, s));
    }
  }

  lemma StepDone(data: string, s: State)
    requires Sane(data, s) && !Halted(s)
    ensures Step(data, false, s).lab == Done ==> Step(data, false, s).open == []
  {
    hide Step;
    if s.lab == InHash || s.lab == AfterColon || s.lab == UnknownRoot {
      ClosingDone(data, s);
    } else {
      OtherwiseNotDone(data, s);
    }
  }

  lemma ClosingDone(data: string, s: State)
    requires Sane(data, s) && (s.lab == InHash || s.lab == AfterColon || s.lab == UnknownRoot)
    ensures Step(data, false, s).lab == Done ==> Step(data, false, s).open == []
  {
    hide Put, Push, Pop, Forward, KeyLetter, Lower, Digit;
  }

  lemma OtherwiseNotDone(data: string, s: State)
    requires Sane(data, s) && !Halted(s) && s.lab != InHash && s.lab != AfterColon && s.lab != UnknownRoot
    ensures Step(data, false, s).lab != Done
  {
    hide Put, Push, Pop, Forward, KeyLetter, Lower, Digit, WORDS;
  }

  // Saving a tree and parsing the text, with anything behind it, gives an equal
  // tree of new nodes and what was behind.
  method SaveAndParse(n: JNode, rest: string, ghost s: Shape)
    returns (root: JNode, remainder: string, ghost nodes: set<JNode>)
    requires s.node == n && Links(s) && Writable(Spelled(s)) && !n.nodeType.TypeVal?
    ensures fresh(nodes) && Consistent(nodes) && root in nodes && root.abs == Spelled(s)
    ensures remainder == rest
  {
    hide Writable, Run, Delivers, Prints, Printable;
    WritablePrintable(Spelled(s));
    var out, src := JsonSave(n, s);
    PrintedIsRead(Spelled(s), out, src, rest);
    DeliveredResult(out + rest, Spelled(s), rest);
    var r, left, err, delivered, all := ParseFull(out + rest, false);
    root, remainder, nodes := r, left, all;
  }

  lemma {:induction false} WritableOverlaid(base: Json, top: Json)
    requires Writable(base) && Writable(top)
    ensures Writable(Overlaid(base, top))
    decreases top
  {
    if base.Hash? && top.Hash? {
      forall k | k in base.fields && k in top.fields
        ensures Writable(Overlaid(base.fields[k], top.fields[k]))
      {
        WritableOverlaid(base.fields[k], top.fields[k]);
      }
    }
  }

  // A tree that shares nodes with another one after an overlay is saved like any other.
  method OverlayAndSave(root: JNode, ontop: JNode, rest: string, ghost s: Shape, ghost t: Shape, ghost all: set<JNode>)
    returns (again: JNode, remainder: string, ghost nodes: set<JNode>)
    requires s.node == root && t.node == ontop && Hashes(s, t) && DotFreeKeys(Spelled(t))
    requires Links(s) && Links(t) && Clear(s, t) && Conts(s) + Conts(t) <= all
    requires Writable(Spelled(s)) && Writable(Spelled(t))
    modifies all`hash, all`arr
    ensures fresh(nodes) && GoTree.Consistent(nodes) && again in nodes
    ensures again.abs == Overlaid(Spelled(s), Spelled(t)) && remainder == rest
  {
    hide Links, Clear, Writable, Spelled, DotFreeKeys;
    MergedValue(s, t);
    MergedNode(s, t);
    WritableOverlaid(Spelled(s), Spelled(t));
    Overlay(root, ontop, s, t, all);
    again, remainder, nodes := SaveAndParse(root, rest, Merged(s, t));
  }
}
