/**
  JsonSave of go/ujsonin.go: the printer over nodes in memory.  It writes the
  text of some laid out source of the tree; a hash is printed in whatever order
  its keys are picked.
*/
module GoPrinter {
  import opened Gaps
  import opened GoParse
  import opened GoSource
  import opened GoTree
  import opened GoShape
  import opened GoLayout

  // ----- a hash or an array as a list of entries

  datatype Entry = Entry(key: string, value: Source)

  function Members(entries: seq<Entry>, depth: nat, end: Gap): seq<Member> {
    if entries == [] then [] else
      var n := |entries| - 1;
      Members(entries[..n], depth, Separator(true, depth + 1))
      + [Member(Quoted('"', entries[n].key), "", [], entries[n].value, end)]
  }

  // What has been written after the first line.
  function Joined(entries: seq<Entry>, depth: nat): string {
    if entries == [] then "" else
      var n := |entries| - 1;
      (if n == 0 then "" else Joined(entries[..n], depth) + ",\n")
      + (Repeat(depth + 1) + EntryKey(entries[n])) + Text(entries[n].value)
  }

  function ItemList(values: seq<Source>, depth: nat, end: Gap): seq<Item> {
    if values == [] then [] else
      var n := |values| - 1;
      ItemList(values[..n], depth, Separator(true, depth)) + [Item(values[n], end)]
  }

  function JoinedItems(values: seq<Source>, depth: nat): string {
    if values == [] then "" else
      var n := |values| - 1;
      (if n == 0 then "" else JoinedItems(values[..n], depth) + ",\n") + Repeat(depth) + Text(values[n])
  }

  // ----- the texts agree

  lemma GapTextSnoc(g: Gap, item: GapItem)
    ensures GapText(g + [item]) == GapText(g) + ItemText(item)
  {
    hide ItemText;
    assert (g + [item])[..|g|] == g;
  }

  lemma {:induction false} GapTextConcat(a: Gap, b: Gap)
    ensures GapText(a + b) == GapText(a) + GapText(b)
    decreases |b|
  {
    hide ItemText;
    if b == [] {
      assert a + b == a;
    } else {
      var front, last := b[..|b| - 1], b[|b| - 1];
      GapTextConcat(a, front);
      assert a + b == (a + front) + [last];
      GapTextSnoc(a + front, last);
      assert GapText(a) + GapText(front) + ItemText(last) == GapText(a) + (GapText(front) + ItemText(last));
    }
  }

  lemma {:induction false} IndentText(depth: nat)
    ensures GapText(Indent(depth)) == Repeat(depth)
  {
    if depth > 0 {
      IndentText(depth - 1);
      var two := [Blank(' '), Blank(' ')];
      GapTextConcat(Indent(depth - 1), two);
      assert two[..1] == [Blank(' ')] && two[..1][..0] == [];
      assert GapText(two) == "" + " " + " ";
    }
  }

  lemma NewLineText(depth: nat)
    ensures GapText(NewLine(depth)) == "\n" + Repeat(depth)
    ensures GapText([Blank('\n')] + NewLine(depth)) == "\n\n" + Repeat(depth)
  {
    hide GapText;
    IndentText(depth);
    OneBlank('\n');
    GapTextConcat([Blank('\n')], Indent(depth));
    GapTextConcat([Blank('\n')], NewLine(depth));
  }

  lemma SeparatorText(more: bool, depth: nat)
    ensures GapText(Separator(more, depth)) == (if more then ",\n" else "\n") + Repeat(depth)
  {
    hide GapText, NewLine;
    NewLineText(depth);
    OneBlank(',');
    GapTextConcat(if more then [Blank(',')] else [], NewLine(depth));
  }

  lemma OneBlank(c: char)
    ensures GapText([Blank(c)]) == [c] && GapText([]) == ""
  {
    assert [Blank(c)][..0] == [];
  }

  function EntryKey(e: Entry): string {
    "\"" + e.key + "\":"
  }

  lemma MembersTextSnoc(members: seq<Member>, m: Member)
    ensures MembersText(members + [m]) == MembersText(members) + MemberText(m)
  {
    hide MemberText;
    assert (members + [m])[..|members|] == members;
  }

  lemma EntryText(e: Entry, end: Gap)
    ensures MemberText(Member(Quoted('"', e.key), "", [], e.value, end)) == EntryKey(e) + Text(e.value) + GapText(end)
  {
    hide Text, GapText;
    OneBlank(' ');
    var quoted, value, gap := "\"" + e.key + "\"", Text(e.value), GapText(end);
    assert quoted + "" == quoted;
    assert quoted + ":" == EntryKey(e);
    assert EntryKey(e) + "" == EntryKey(e);
  }

  lemma MembersStep(entries: seq<Entry>, depth: nat, end: Gap)
    requires entries != []
    ensures
      var n := |entries| - 1;
      MembersText(Members(entries, depth, end))
        == MembersText(Members(entries[..n], depth, Separator(true, depth + 1)))
           + (EntryKey(entries[n]) + Text(entries[n].value) + GapText(end))
  {
    hide MembersText, MemberText, Text, GapText, EntryKey, Separator;
    var n := |entries| - 1;
    EntryText(entries[n], end);
    MembersTextSnoc(Members(entries[..n], depth, Separator(true, depth + 1)),
      Member(Quoted('"', entries[n].key), "", [], entries[n].value, end));
  }

  lemma {:induction false} MembersJoined(entries: seq<Entry>, depth: nat, end: Gap)
    requires entries != []
    ensures Repeat(depth + 1) + MembersText(Members(entries, depth, end)) == Joined(entries, depth) + GapText(end)
    decreases |entries|
  {
    hide MembersText, Text, Repeat, GapText, EntryKey, Separator;
    var n := |entries| - 1;
    var front, last, indent := entries[..n], entries[n], Repeat(depth + 1);
    var separator := Separator(true, depth + 1);
    var before := MembersText(Members(front, depth, separator));
    var text := EntryKey(last) + Text(last.value) + GapText(end);
    MembersStep(entries, depth, end);
    assert indent + (before + text) == (indent + before) + text;
    if n == 0 {
      MembersTextEmpty();
      assert indent + before == indent;
      assert indent + text == indent + EntryKey(last) + Text(last.value) + GapText(end);
    } else {
      MembersJoined(front, depth, separator);
      SeparatorText(true, depth + 1);
      Regroup(Joined(front, depth), indent, EntryKey(last), Text(last.value), GapText(end));
    }
  }

  lemma Regroup(front: string, indent: string, key: string, value: string, end: string)
    ensures (front + (",\n" + indent)) + (key + value + end) == (front + ",\n") + (indent + key) + value + end
  {
  }

  lemma MembersTextEmpty()
    ensures MembersText([]) == ""
  {
  }

  lemma {:induction false} MembersLength(entries: seq<Entry>, depth: nat, end: Gap)
    ensures |Members(entries, depth, end)| == |entries|
  {
    if entries != [] {
      MembersLength(entries[..|entries| - 1], depth, Separator(true, depth + 1));
    }
  }

  lemma ItemsTextSnoc(items: seq<Item>, m: Item)
    ensures ItemsText(items + [m]) == ItemsText(items) + Text(m.value) + GapText(m.after)
    ensures ItemsText([]) == ""
  {
    hide Text, GapText;
    assert (items + [m])[..|items|] == items;
  }

  lemma {:induction false} ItemsJoined(values: seq<Source>, depth: nat, end: Gap)
    requires values != []
    ensures Repeat(depth) + ItemsText(ItemList(values, depth, end)) == JoinedItems(values, depth) + GapText(end)
    decreases |values|
  {
    hide ItemsText, Text, Repeat, GapText;
    var n := |values| - 1;
    var front, last, indent := values[..n], values[n], Repeat(depth);
    var separator := Separator(true, depth);
    var before := ItemsText(ItemList(front, depth, separator));
    ItemsTextSnoc(ItemList(front, depth, separator), Item(last, end));
    assert ItemsText(ItemList(values, depth, end)) == before + Text(last) + GapText(end);
    assert indent + (before + Text(last) + GapText(end)) == (indent + before) + Text(last) + GapText(end);
    if n == 0 {
      assert indent + before == indent;
    } else {
      ItemsJoined(front, depth, separator);
      SeparatorText(true, depth);
      Regroup(JoinedItems(front, depth), indent, "", Text(last), GapText(end));
    }
  }

  lemma {:induction false} ItemListLength(values: seq<Source>, depth: nat, end: Gap)
    ensures |ItemList(values, depth, end)| == |values|
  {
    if values != [] {
      ItemListLength(values[..|values| - 1], depth, Separator(true, depth));
    }
  }

  // ----- a list of entries as a source

  function HashSource(entries: seq<Entry>, depth: nat): Source
    requires depth > 0
  {
    if entries == [] then SHash([Blank('\n')] + NewLine(depth - 1), [])
    else SHash(NewLine(depth + 1), Members(entries, depth, Separator(false, depth - 1)))
  }

  function ArrSource(values: seq<Source>, depth: nat): Source
    requires depth > 0
  {
    if values == [] then SArr([Blank('\n')] + NewLine(depth - 1), [])
    else SArr(NewLine(depth), ItemList(values, depth, Separator(false, depth - 1)))
  }

  lemma HashText(entries: seq<Entry>, depth: nat)
    requires depth > 0
    ensures Text(HashSource(entries, depth)) == "{\n" + Joined(entries, depth) + "\n" + Repeat(depth - 1) + "}"
  {
    hide MembersText, GapText, Repeat, NewLine, Separator, Joined, Members;
    var end := Separator(false, depth - 1);
    var v := HashSource(entries, depth);
    if entries == [] {
      NewLineText(depth - 1);
      MembersTextEmpty();
      JoinedEmpty(depth);
      assert "{" + ("\n\n" + Repeat(depth - 1)) + "" + "}" == "{\n" + "" + "\n" + Repeat(depth - 1) + "}";
    } else {
      NewLineText(depth + 1);
      MembersJoined(entries, depth, end);
      SeparatorText(false, depth - 1);
      var lead, members := GapText(NewLine(depth + 1)), MembersText(v.members);
      assert "{" + lead + members + "}" == "{\n" + (Repeat(depth + 1) + members) + "}";
      assert "{\n" + (Joined(entries, depth) + ("\n" + Repeat(depth - 1))) + "}"
        == "{\n" + Joined(entries, depth) + "\n" + Repeat(depth - 1) + "}";
    }
  }

  lemma JoinedEmpty(depth: nat)
    ensures Joined([], depth) == "" && JoinedItems([], depth) == ""
  {
  }

  lemma ArrText(values: seq<Source>, depth: nat)
    requires depth > 0
    ensures Text(ArrSource(values, depth)) == "[\n" + JoinedItems(values, depth) + "\n" + Repeat(depth - 1) + "]"
  {
    hide ItemsText, GapText, Repeat, NewLine, Separator, JoinedItems, ItemList;
    var end := Separator(false, depth - 1);
    var v := ArrSource(values, depth);
    if values == [] {
      NewLineText(depth - 1);
      ItemsTextSnoc([], Item(SWord("true"), []));
      JoinedEmpty(depth);
      assert "[" + ("\n\n" + Repeat(depth - 1)) + "" + "]" == "[\n" + "" + "\n" + Repeat(depth - 1) + "]";
    } else {
      NewLineText(depth);
      ItemsJoined(values, depth, end);
      SeparatorText(false, depth - 1);
      var lead, items := GapText(NewLine(depth)), ItemsText(v.items);
      assert "[" + lead + items + "]" == "[\n" + (Repeat(depth) + items) + "]";
      assert "[\n" + (JoinedItems(values, depth) + ("\n" + Repeat(depth - 1))) + "]"
        == "[\n" + JoinedItems(values, depth) + "\n" + Repeat(depth - 1) + "]";
    }
  }

  // Which tree it is.
  function EntryFields(entries: seq<Entry>): map<string, Json> {
    if entries == [] then map[] else
      var n := |entries| - 1;
      EntryFields(entries[..n])[entries[n].key := Value(entries[n].value)]
  }

  lemma {:induction false} MembersFields(entries: seq<Entry>, depth: nat, end: Gap)
    ensures Fields(map[], Members(entries, depth, end)) == EntryFields(entries)
    decreases |entries|
  {
    if entries != [] {
      var n := |entries| - 1;
      var members := Members(entries, depth, end);
      MembersFields(entries[..n], depth, Separator(true, depth + 1));
      assert members[..|members| - 1] == Members(entries[..n], depth, Separator(true, depth + 1));
    }
  }

  lemma {:induction false} ItemListItems(values: seq<Source>, depth: nat, end: Gap)
    ensures Items(ItemList(values, depth, end)) == seq(|values|, i requires 0 <= i < |values| => Value(values[i]))
    decreases |values|
  {
    if values != [] {
      var n := |values| - 1;
      var items := ItemList(values, depth, end);
      ItemListItems(values[..n], depth, Separator(true, depth));
      assert items[..|items| - 1] == ItemList(values[..n], depth, Separator(true, depth));
    }
  }

  // How it is laid out.
  lemma {:induction false} MembersLaid(entries: seq<Entry>, depth: nat, end: Gap, i: nat)
    requires i < |entries| && depth > 0
    ensures |Members(entries, depth, end)| == |entries|
    ensures Members(entries, depth, end)[i]
      == Member(Quoted('"', entries[i].key), "", [], entries[i].value,
                if i < |entries| - 1 then Separator(true, depth + 1) else end)
    decreases |entries|
  {
    var n := |entries| - 1;
    MembersLength(entries, depth, end);
    MembersLength(entries[..n], depth, Separator(true, depth + 1));
    if i < n {
      MembersLaid(entries[..n], depth, Separator(true, depth + 1), i);
    }
  }

  lemma {:induction false} ItemListLaid(values: seq<Source>, depth: nat, end: Gap, i: nat)
    requires i < |values|
    ensures |ItemList(values, depth, end)| == |values|
    ensures ItemList(values, depth, end)[i] == Item(values[i], if i < |values| - 1 then Separator(true, depth) else end)
    decreases |values|
  {
    var n := |values| - 1;
    ItemListLength(values, depth, end);
    ItemListLength(values[..n], depth, Separator(true, depth));
    if i < n {
      ItemListLaid(values[..n], depth, Separator(true, depth), i);
    }
  }

  lemma HashLaid(entries: seq<Entry>, depth: nat)
    requires depth > 0 && forall i :: 0 <= i < |entries| ==> Laid(entries[i].value, depth + 1)
    requires forall i, j :: 0 <= i < j < |entries| ==> entries[i].key != entries[j].key
    ensures Laid(HashSource(entries, depth), depth)
  {
    hide Members, Separator, NewLine;
    if entries != [] {
      var end := Separator(false, depth - 1);
      var members := Members(entries, depth, end);
      forall i | 0 <= i < |entries|
        ensures |members| == |entries| && LaidMember(members[i], i < |members| - 1, depth)
        ensures members[i].key == Quoted('"', entries[i].key)
      {
        MembersLaid(entries, depth, end, i);
      }
      assert |members| == |entries| by { MembersLength(entries, depth, end); }
    }
  }

  lemma ArrLaid(values: seq<Source>, depth: nat)
    requires depth > 0 && forall i :: 0 <= i < |values| ==> Laid(values[i], depth)
    ensures Laid(ArrSource(values, depth), depth)
  {
    hide ItemList, Separator, NewLine;
    if values != [] {
      var end := Separator(false, depth - 1);
      var items := ItemList(values, depth, end);
      forall i | 0 <= i < |values|
        ensures |items| == |values| && LaidItem(items[i], i < |items| - 1, depth)
      {
        ItemListLaid(values, depth, end, i);
      }
      assert |items| == |values| by { ItemListLength(values, depth, end); }
    }
  }

  // ----- the printer

  // The printer looks at the first byte of every key.
  predicate NamedKeys(v: Json) {
    match v
    case Hash(fields) => forall k :: k in fields ==> k != "" && NamedKeys(fields[k])
    case Arr(items) => forall i :: 0 <= i < |items| ==> NamedKeys(items[i])
    case Val(_, _) => true
  }

  // What is printed of v at a depth: the text of a laid out source of v.
  predicate Prints(v: Json, depth: nat, out: string, src: Source) {
    Printable(v) ==> Laid(src, depth) && Value(src) == v && Text(src) == out
  }

  // The same of the text alone.
  ghost predicate PrintOf(v: Json, depth: nat, out: string) {
    exists src :: Prints(v, depth, out, src)
  }

  method DumpInternalSave(n: JNode, depth: nat, ghost s: Shape, ghost all: set<JNode>)
    returns (out: string, ghost src: Source)
    requires s.node == n && Links(s) && NamedKeys(Spelled(s)) && depth > 0 && Conts(s) <= all
    ensures Prints(Spelled(s), depth, out, src)
    ensures PrintOf(Spelled(s), depth, out)
    decreases s, 1
  {
    match n.nodeType
    case TypeHash => out, src := DumpHash(n, depth, s, all);
    case TypeArr => out, src := DumpArr(n, depth, s, all);
    case TypeVal(kind) => out, src := DumpVal(n, kind);
  }

  method DumpVal(n: JNode, kind: Kind) returns (out: string, ghost src: Source)
    requires n.nodeType == TypeVal(kind)
    ensures forall depth :: Prints(Val(kind, n.str), depth, out, src)
    ensures
      match kind
      case Str => out == "\"" + Escaped(n.str, '"') + "\""
      case Pos => out == n.str
      case Neg => out == "-" + n.str
      case True => out == "true"
      case False => out == "false"
      case Null => out == "null"
      case FloatPos | FloatNeg => out == ""
  {
    src := SWord("null");
    match kind
    case Str =>
      var escaped := ReplaceQuotes(n.str);
      out := "\"" + escaped + "\"";
      src := SStr('"', n.str);
    case Pos =>
      out := n.str;
      src := SNum(false, n.str);
    case Neg =>
      out := "-" + n.str;
      src := SNum(true, n.str);
    case True =>
      out := "true";
      src := SWord("true");
    case False =>
      out := "false";
      src := SWord("false");
    case Null =>
      out := "null";
    case FloatPos | FloatNeg =>
      out := "";
  }

  // strings.ReplaceAll: a backslash before every quote.
  method ReplaceQuotes(str: string) returns (out: string)
    ensures out == Escaped(str, '"')
  {
    out := "";
    for i := 0 to |str|
      invariant out + Escaped(str[i..], '"') == Escaped(str, '"')
    {
      if str[i] == '"' {
        out := out + "\\\"";
      } else {
        out := out + [str[i]];
      }
    }
  }

  // The entries are the fields that are not pending.
  ghost predicate EntriesOf(entries: seq<Entry>, fields: map<string, Json>, pending: set<string>, depth: nat) {
    && EntryFields(entries) == fields - pending
    && (forall i, j :: 0 <= i < j < |entries| ==> entries[i].key != entries[j].key)
    && (forall i :: 0 <= i < |entries| ==> entries[i].key !in pending && Laid(entries[i].value, depth + 1))
  }

  lemma NextEntry(entries: seq<Entry>, e: Entry, fields: map<string, Json>, pending: set<string>, depth: nat)
    requires EntriesOf(entries, fields, pending, depth) && e.key in pending && e.key in fields
    requires Laid(e.value, depth + 1) && Value(e.value) == fields[e.key]
    ensures EntriesOf(entries + [e], fields, pending - {e.key}, depth)
  {
    hide Laid, Value;
    var more := entries + [e];
    assert more[..|entries|] == entries;
    assert EntryFields(more) == EntryFields(entries)[e.key := fields[e.key]];
    assert fields - (pending - {e.key}) == (fields - pending)[e.key := fields[e.key]];
  }

  lemma JoinedSnoc(entries: seq<Entry>, e: Entry, depth: nat)
    ensures Joined(entries + [e], depth)
      == Joined(entries, depth) + (if entries == [] then "" else ",\n")
         + (Repeat(depth + 1) + EntryKey(e)) + Text(e.value)
  {
    hide Text, EntryKey, Repeat;
    assert (entries + [e])[..|entries|] == entries;
    JoinedEmpty(depth);
  }

  lemma NoEntries()
    ensures EntryFields([]) == map[] && Fields(map[], []) == map[]
  {
  }

  lemma HashChildren(s: Shape)
    requires Links(s) && s.node.nodeType.TypeHash?
    ensures forall k :: k in s.kids ==> Conts(s.kids[k]) <= Conts(s)
    ensures Spelled(s).Hash? && s.node.hash.Keys == s.kids.Keys == Spelled(s).fields.Keys
    ensures forall k :: k in s.kids ==>
      s.node.hash[k] == s.kids[k].node && Links(s.kids[k]) && Spelled(s.kids[k]) == Spelled(s).fields[k]
  {
  }

  lemma ArrChildren(s: Shape)
    requires Links(s) && s.node.nodeType.TypeArr?
    ensures forall i :: 0 <= i < |s.items| ==> Conts(s.items[i]) <= Conts(s)
    ensures Spelled(s).Arr? && |s.node.arr| == |s.items| == |Spelled(s).items|
    ensures forall i :: 0 <= i < |s.items| ==>
      s.node.arr[i] == s.items[i].node && Links(s.items[i]) && Spelled(s.items[i]) == Spelled(s).items[i]
  {
  }

  // The text so far, with the entries it shows.
  ghost predicate Written(out: string, entries: seq<Entry>, fields: map<string, Json>, pending: set<string>, depth: nat)
  {
    out == "{\n" + Joined(entries, depth) && EntriesOf(entries, fields, pending, depth)
  }

  lemma WriteEntry(out: string, entries: seq<Entry>, e: Entry, text: string,
                   fields: map<string, Json>, pending: set<string>, depth: nat)
    requires Written(out, entries, fields, pending, depth) && e.key in pending && e.key in fields
    requires Prints(fields[e.key], depth + 1, text, e.value) && Printable(fields[e.key])
    ensures
      var more := out + (if entries == [] then "" else ",\n") + (Repeat(depth + 1) + "\"" + e.key + "\":") + text;
      Written(more, entries + [e], fields, pending - {e.key}, depth)
  {
    hide Laid, Value, Text, Joined, Repeat, EntriesOf, Printable;
    NextEntry(entries, e, fields, pending, depth);
    JoinedSnoc(entries, e, depth);
    var separator, key := if entries == [] then "" else ",\n", Repeat(depth + 1) + EntryKey(e);
    assert key == Repeat(depth + 1) + "\"" + e.key + "\":";
    assert "{\n" + (Joined(entries, depth) + separator + key + text)
      == "{\n" + Joined(entries, depth) + separator + key + text;
  }

  lemma HashPrinted(out: string, entries: seq<Entry>, fields: map<string, Json>, depth: nat)
    requires depth > 0 && Written(out, entries, fields, {}, depth)
    ensures
      var v := HashSource(entries, depth);
      && Laid(v, depth) && Value(v) == Hash(fields)
      && Text(v) == out + "\n" + Repeat(depth - 1) + "}"
  {
    hide Laid, Text, Joined, Repeat, Members, EntryFields;
    HashText(entries, depth);
    HashLaid(entries, depth);
    MembersFields(entries, depth, Separator(false, depth - 1));
    assert fields - {} == fields;
    if entries == [] {
      NoEntries();
    }
  }

  // The lines of the loop that write.
  method AppendEntry(before: string, keyNum: nat, depth: nat, key: string, text: string) returns (out: string)
    ensures out == before + (if keyNum == 0 then "" else ",\n") + (Repeat(depth + 1) + "\"" + key + "\":") + text
  {
    out := before;
    if keyNum > 0 {
      out := out + ",\n";
    } else {
      assert out + "" == out;
    }
    out := out + (Repeat(depth + 1) + "\"" + key + "\":");
    out := out + text;
  }

  method DumpHash(n: JNode, depth: nat, ghost s: Shape, ghost all: set<JNode>)
    returns (out: string, ghost src: Source)
    requires s.node == n && Links(s) && n.nodeType.TypeHash? && NamedKeys(Spelled(s)) && depth > 0 && Conts(s) <= all
    ensures Prints(Spelled(s), depth, out, src)
    ensures PrintOf(Spelled(s), depth, out)
    decreases s, 0
  {
    hide Laid, Value, Text, Written, EntriesOf, Joined, Repeat, Links, Spelled;
    HashChildren(s);
    ghost var tree := Spelled(s);
    out := "{\n";
    ghost var entries: seq<Entry> := [];
    var keyNum := 0;
    var keys := n.hash.Keys;
    FirstEntry(tree.fields, depth);
    while keys != {}
      invariant keys <= n.hash.Keys && Links(s)
      invariant keyNum == |entries|
      invariant Printable(tree) ==> Written(out, entries, tree.fields, keys, depth)
      decreases |keys|
    {
      var key :| key in keys;
      HashChildren(s);
      label Before:
      var text, v := DumpInternalSave(n.hash[key], depth + 1, s.kids[key], all);
      SameLinks@Before((s, all));
      if Printable(tree) {
        WriteEntry(out, entries, Entry(key, v), text, tree.fields, keys, depth);
      }
      out := AppendEntry(out, keyNum, depth, key, text);
      entries := entries + [Entry(key, v)];
      keys := keys - {key};
      keyNum := keyNum + 1;
    }
    if Printable(tree) {
      HashPrinted(out, entries, tree.fields, depth);
    }
    out := out + "\n";
    out := out + Repeat(depth - 1);
    out := out + "}";
    src := HashSource(entries, depth);
  }

  lemma FirstEntry(fields: map<string, Json>, depth: nat)
    ensures Written("{\n", [], fields, fields.Keys, depth)
  {
    assert fields - fields.Keys == map[];
    assert "{\n" + "" == "{\n";
  }

  lemma ItemsSnoc(values: seq<Source>, v: Source, depth: nat)
    ensures JoinedItems(values + [v], depth)
      == JoinedItems(values, depth) + (if values == [] then "" else ",\n") + Repeat(depth) + Text(v)
  {
    hide Text, Repeat;
    assert (values + [v])[..|values|] == values;
    JoinedEmpty(depth);
  }

  lemma ArrPrinted(values: seq<Source>, items: seq<Json>, depth: nat)
    requires depth > 0 && |values| == |items|
    requires forall i :: 0 <= i < |items| ==> Laid(values[i], depth) && Value(values[i]) == items[i]
    ensures
      var v := ArrSource(values, depth);
      && Laid(v, depth) && Value(v) == Arr(items)
      && Text(v) == "[\n" + JoinedItems(values, depth) + "\n" + Repeat(depth - 1) + "]"
  {
    hide Laid, Text, JoinedItems, Repeat, ItemList;
    ArrText(values, depth);
    ArrLaid(values, depth);
    ItemListItems(values, depth, Separator(false, depth - 1));
    assert items == seq(|values|, i requires 0 <= i < |values| => Value(values[i]));
  }

  method DumpArr(n: JNode, depth: nat, ghost s: Shape, ghost all: set<JNode>)
    returns (out: string, ghost src: Source)
    requires s.node == n && Links(s) && n.nodeType.TypeArr? && NamedKeys(Spelled(s)) && depth > 0 && Conts(s) <= all
    ensures Prints(Spelled(s), depth, out, src)
    ensures PrintOf(Spelled(s), depth, out)
    decreases s, 0
  {
    hide Laid, Value, Text, JoinedItems, Repeat, Links, Spelled;
    ArrChildren(s);
    ghost var tree := Spelled(s);
    out := "[\n";
    ghost var values: seq<Source> := [];
    var i, maxi := 0, |n.arr| - 1;
    JoinedEmpty(depth);
    while i < |n.arr|
      invariant i == |values| <= |n.arr| == |tree.items| && Links(s)
      invariant Printable(tree) ==>
        && out == "[\n" + JoinedItems(values, depth) + (if 0 < i <= maxi then ",\n" else "")
        && forall j :: 0 <= j < i ==> Laid(values[j], depth) && Value(values[j]) == tree.items[j]
    {
      out := out + Repeat(depth);
      ArrChildren(s);
      label Before:
      var text, v := DumpInternalSave(n.arr[i], depth, s.items[i], all);
      SameLinks@Before((s, all));
      out := out + text;
      if i != maxi {
        out := out + ",\n";
      }
      ItemsSnoc(values, v, depth);
      values := values + [v];
      i := i + 1;
    }
    if Printable(tree) {
      ArrPrinted(values, tree.items, depth);
    }
    out := out + "\n";
    out := out + Repeat(depth - 1);
    out := out + "]";
    src := ArrSource(values, depth);
  }
}
