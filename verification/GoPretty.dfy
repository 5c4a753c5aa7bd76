/**
  What the printer of go/ujsonin.go writes, line by line: one entry to a line, a
  comma behind every entry but the last, and two blanks for every level.
*/
module GoPretty {
  import opened Gaps
  import opened GoParse
  import opened GoSource
  import opened GoLayout
  import opened GoPrinter

  function Blanks(n: nat): string {
    seq(n, _ => ' ')
  }

  // Each text on a line of its own.
  function Lines(texts: seq<string>, indent: nat): string {
    if texts == [] then "" else
      var n := |texts| - 1;
      (if n == 0 then "" else Lines(texts[..n], indent) + ",\n") + Blanks(indent) + texts[n]
  }

  function MemberLines(members: seq<Member>): seq<string> {
    seq(|members|, i requires 0 <= i < |members| => "\"" + members[i].key.text + "\":" + Text(members[i].value))
  }

  function ItemLines(items: seq<Item>): seq<string> {
    seq(|items|, i requires 0 <= i < |items| => Text(items[i].value))
  }

  lemma {:induction false} RepeatIsBlank(depth: nat)
    ensures Repeat(depth) == Blanks(2 * depth)
  {
    if depth > 0 {
      RepeatIsBlank(depth - 1);
      assert Blanks(2 * depth) == Blanks(2 * depth - 2) + "  ";
    }
  }

  // ----- a laid out source is the source of its entries

  function Entries(members: seq<Member>): seq<Entry> {
    seq(|members|, i requires 0 <= i < |members| => Entry(members[i].key.text, members[i].value))
  }

  function ValuesOf(items: seq<Item>): seq<Source> {
    seq(|items|, i requires 0 <= i < |items| => items[i].value)
  }

  lemma HashIsSource(v: Source, depth: nat)
    requires v.SHash? && Laid(v, depth)
    ensures depth > 0 && v == HashSource(Entries(v.members), depth)
  {
    hide Members, Separator, NewLine;
    var entries, end := Entries(v.members), Separator(false, depth - 1);
    MembersLength(entries, depth, end);
    forall i | 0 <= i < |v.members|
      ensures Members(entries, depth, end)[i] == v.members[i]
    {
      assert LaidMember(v.members[i], i < |v.members| - 1, depth);
      MembersLaid(entries, depth, end, i);
    }
    assert Members(entries, depth, end) == v.members;
  }

  lemma ArrIsSource(v: Source, depth: nat)
    requires v.SArr? && Laid(v, depth)
    ensures depth > 0 && v == ArrSource(ValuesOf(v.items), depth)
  {
    hide ItemList, Separator, NewLine;
    var values, end := ValuesOf(v.items), Separator(false, depth - 1);
    ItemListLength(values, depth, end);
    forall i | 0 <= i < |v.items|
      ensures ItemList(values, depth, end)[i] == v.items[i]
    {
      assert LaidItem(v.items[i], i < |v.items| - 1, depth);
      ItemListLaid(values, depth, end, i);
    }
    assert ItemList(values, depth, end) == v.items;
  }

  lemma {:induction false} JoinedLines(members: seq<Member>, depth: nat)
    ensures Joined(Entries(members), depth) == Lines(MemberLines(members), 2 * depth + 2)
    decreases |members|
  {
    hide Text, Repeat, Blanks;
    if members != [] {
      var n := |members| - 1;
      var front, last := members[..n], members[n];
      JoinedLines(front, depth);
      RepeatIsBlank(depth + 1);
      assert Entries(members)[..n] == Entries(front) && MemberLines(members)[..n] == MemberLines(front);
      var before := if n == 0 then "" else Joined(Entries(front), depth) + ",\n";
      var indent, key, text := Blanks(2 * depth + 2), "\"" + last.key.text + "\":", Text(last.value);
      assert before + (indent + key) + text == before + indent + (key + text);
    }
  }

  lemma {:induction false} JoinedItemLines(items: seq<Item>, depth: nat)
    ensures JoinedItems(ValuesOf(items), depth) == Lines(ItemLines(items), 2 * depth)
    decreases |items|
  {
    hide Text, Repeat, Blanks;
    if items != [] {
      var n := |items| - 1;
      JoinedItemLines(items[..n], depth);
      RepeatIsBlank(depth);
      assert ValuesOf(items)[..n] == ValuesOf(items[..n]) && ItemLines(items)[..n] == ItemLines(items[..n]);
    }
  }

  // ----- the lines

  // A hash at a depth: its members one level further in, its closing brace one
  // further out, and no two members with one key.
  lemma HashLines(v: Source, depth: nat)
    requires v.SHash? && Laid(v, depth)
    ensures depth > 0
    ensures Text(v) == "{\n" + Lines(MemberLines(v.members), 2 * depth + 2) + "\n" + Blanks(2 * depth - 2) + "}"
    ensures forall i :: 0 <= i < |v.members| ==> Laid(v.members[i].value, depth + 1)
    ensures forall i, j :: 0 <= i < j < |v.members| ==> v.members[i].key.text != v.members[j].key.text
  {
    hide Text, Repeat, Blanks, Lines, Joined, Members, NewLine, Separator;
    HashIsSource(v, depth);
    HashText(Entries(v.members), depth);
    JoinedLines(v.members, depth);
    RepeatIsBlank(depth - 1);
    forall i | 0 <= i < |v.members|
      ensures Laid(v.members[i].value, depth + 1) && v.members[i].key == Quoted('"', v.members[i].key.text)
    {
      assert LaidMember(v.members[i], i < |v.members| - 1, depth);
    }
  }

  // An array: its items at its own level.
  lemma ArrLines(v: Source, depth: nat)
    requires v.SArr? && Laid(v, depth)
    ensures depth > 0
    ensures Text(v) == "[\n" + Lines(ItemLines(v.items), 2 * depth) + "\n" + Blanks(2 * depth - 2) + "]"
    ensures forall i :: 0 <= i < |v.items| ==> Laid(v.items[i].value, depth)
  {
    hide Text, Repeat, Blanks, Lines, JoinedItems, ItemList, NewLine, Separator;
    ArrIsSource(v, depth);
    ArrText(ValuesOf(v.items), depth);
    JoinedItemLines(v.items, depth);
    RepeatIsBlank(depth - 1);
    forall i | 0 <= i < |v.items|
      ensures Laid(v.items[i].value, depth)
    {
      assert LaidItem(v.items[i], i < |v.items| - 1, depth);
    }
  }

  // ----- the smallest case

  lemma {:induction false} FieldKeys(members: seq<Member>)
    requires forall i, j :: 0 <= i < j < |members| ==> members[i].key.text != members[j].key.text
    ensures |Fields(map[], members)| == |members|
    ensures forall k :: k in Fields(map[], members) ==> exists i :: 0 <= i < |members| && members[i].key.text == k
    decreases |members|
  {
    hide Value;
    if members != [] {
      FieldKeys(members[..|members| - 1]);
    }
  }

  // What JsonSave writes of a hash with one member.
  lemma OneMemberPrinted(out: string)
    requires PrintOf(Hash(map["a" := Val(True, "")]), 1, out)
    ensures out == "{\n    \"a\":true\n}"
  {
    hide Laid, Value, Text, Fields, Blanks, Lines, MemberLines;
    var v := Hash(map["a" := Val(True, "")]);
    var src :| Prints(v, 1, out, src);
    assert Printable(v);
    OneMemberSource(src);
    HashLines(src, 1);
    OneLine("\"a\":true");
    assert "{\n" + "    \"a\":true" + "\n" + "" + "}" == "{\n    \"a\":true\n}";
  }

  lemma OneLine(text: string)
    ensures Lines([text], 4) == "    " + text && Blanks(0) == ""
  {
    assert [text][..0] == [];
    assert Blanks(4) == "    ";
  }

  lemma OneMemberSource(src: Source)
    requires Laid(src, 1) && Value(src) == Hash(map["a" := Val(True, "")])
    ensures src.SHash? && MemberLines(src.members) == ["\"a\":true"]
  {
    HashLines(src, 1);
    FieldKeys(src.members);
    FieldAt(src.members, 0);
    var m := src.members[0];
    assert m.key.text == "a" && Text(m.value) == "true";
    assert "\"" + "a" + "\":" + "true" == "\"a\":true";
  }
}
