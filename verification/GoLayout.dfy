/**
  The layout that the printer of go/ujsonin.go gives a tree (DumpInternalSave
  with json set), as a special case of the sources of GoSource, and when the
  parser can read it back.
*/
module GoLayout {
  import opened Common
  import opened Gaps
  import opened GoParse
  import opened GoSource

  // ----- gaps the printer writes

  // strings.Repeat("  ", depth)
  function Repeat(depth: nat): string {
    if depth == 0 then "" else Repeat(depth - 1) + "  "
  }

  function Indent(depth: nat): Gap {
    if depth == 0 then [] else Indent(depth - 1) + [Blank(' '), Blank(' ')]
  }

  function NewLine(depth: nat): Gap {
    [Blank('\n')] + Indent(depth)
  }

  // Behind an item: a comma if there is another one, then a new line.
  function Separator(more: bool, depth: nat): Gap {
    (if more then [Blank(',')] else []) + NewLine(depth)
  }

  // ----- the layout

  // Members stand one deeper than the depth says, items at the depth, and the
  // closing bracket one less deep.
  predicate Laid(v: Source, depth: nat) {
    match v
    case SHash(lead, members) =>
      && depth > 0
      && lead == (if members == [] then [Blank('\n')] + NewLine(depth - 1) else NewLine(depth + 1))
      && (forall i, j :: 0 <= i < j < |members| ==> members[i].key != members[j].key)
      && forall i :: 0 <= i < |members| ==> LaidMember(members[i], i < |members| - 1, depth)
    case SArr(lead, items) =>
      && depth > 0
      && lead == (if items == [] then [Blank('\n')] + NewLine(depth - 1) else NewLine(depth))
      && forall i :: 0 <= i < |items| ==> LaidItem(items[i], i < |items| - 1, depth)
    case SStr(quote, _) => quote == '"'
    case SNum(_, _) => true
    case SFrac(_, _, _) => false
    case SWord(word) => IsWord(word)
  }

  predicate LaidMember(m: Member, more: bool, depth: nat)
    requires depth > 0
    decreases m
  {
    && m.key.Quoted? && m.key.quote == '"' && m.skip == "" && m.before == [] && Laid(m.value, depth + 1)
    && m.after == Separator(more, if more then depth + 1 else depth - 1)
  }

  predicate LaidItem(m: Item, more: bool, depth: nat)
    requires depth > 0
    decreases m
  {
    Laid(m.value, depth) && m.after == Separator(more, if more then depth else depth - 1)
  }

  // ----- trees that survive

  // No floats, and no text kept with a word.
  predicate Printable(v: Json) {
    match v
    case Hash(fields) => forall k :: k in fields ==> Printable(fields[k])
    case Arr(items) => forall i :: 0 <= i < |items| ==> Printable(items[i])
    case Val(kind, str) => !kind.FloatPos? && !kind.FloatNeg? && (kind.True? || kind.False? || kind.Null? ==> str == "")
  }

  // Keys that the parser finds the end of, strings whose backslashes pair up,
  // and numbers with digits.
  predicate Writable(v: Json) {
    match v
    case Hash(fields) => forall k :: k in fields ==> k != "" && '"' !in k[1..] && Writable(fields[k])
    case Arr(items) => forall i :: 0 <= i < |items| ==> Writable(items[i])
    case Val(kind, str) =>
      match kind
      case Str => Paired(str, '"')
      case Pos => str != "" && AllDigits(str)
      case Neg => str != "" && AllDigits(str[1..])
      case True | False | Null => str == ""
      case FloatPos | FloatNeg => false
  }

  // ----- a laid out source is good when its tree is writable

  lemma {:induction false} IndentGood(depth: nat, blocks: bool)
    ensures GoodGap(Indent(depth), blocks)
  {
    if depth > 0 {
      IndentGood(depth - 1, blocks);
    }
  }

  lemma SeparatorGood(more: bool, depth: nat, blocks: bool)
    ensures GoodGap(Separator(more, depth), blocks) && Separator(more, depth) != []
  {
    IndentGood(depth, blocks);
  }

  lemma {:induction false} FieldAt(members: seq<Member>, i: nat)
    requires i < |members| && forall j, k :: 0 <= j < k < |members| ==> members[j].key.text != members[k].key.text
    ensures members[i].key.text in Fields(map[], members)
    ensures Fields(map[], members)[members[i].key.text] == Value(members[i].value)
  {
    if i < |members| - 1 {
      FieldAt(members[..|members| - 1], i);
    }
  }

  lemma {:induction false} ItemAt(items: seq<Item>, i: nat)
    requires i < |items|
    ensures |Items(items)| == |items| && Items(items)[i] == Value(items[i].value)
  {
    if |items| > 1 {
      ItemAt(items[..|items| - 1], if i < |items| - 1 then i else 0);
    }
  }

  lemma {:induction false} LaidGood(v: Source, depth: nat)
    requires Laid(v, depth) && Writable(Value(v))
    ensures Good(v)
    decreases v, 1
  {
    hide GoodGap;
    match v
    case SHash(_, _) => LaidHashGood(v, depth);
    case SArr(_, _) => LaidArrGood(v, depth);
    case SStr(_, _) =>
    case SNum(_, _) =>
    case SFrac(_, _, _) =>
    case SWord(_) =>
  }

  lemma LeadGood(depth: nat, blocks: bool)
    ensures GoodGap(NewLine(depth), blocks) && GoodGap([Blank('\n')] + NewLine(depth), blocks)
  {
    IndentGood(depth, blocks);
  }

  lemma {:induction false} LaidHashGood(v: Source, depth: nat)
    requires v.SHash? && Laid(v, depth) && Writable(Value(v))
    ensures Good(v)
    decreases v, 0
  {
    hide GoodGap, NewLine, GoodMembers, GoodMember;
    var members := v.members;
    LeadGood(depth + 1, true);
    LeadGood(depth - 1, true);
    forall i | 0 <= i < |members|
      ensures GoodMember(members[i]) && members[i].after != []
    {
      FieldAt(members, i);
      LaidMemberGood(members[i], i < |members| - 1, depth);
    }
    AllMembersGood(members);
  }

  lemma {:induction false} LaidArrGood(v: Source, depth: nat)
    requires v.SArr? && Laid(v, depth) && Writable(Value(v))
    ensures Good(v)
    decreases v, 0
  {
    hide GoodGap, NewLine, GoodItems, Separator;
    var items := v.items;
    LeadGood(depth, false);
    LeadGood(depth - 1, false);
    forall i | 0 <= i < |items|
      ensures Good(items[i].value) && GoodGap(items[i].after, false) && items[i].after != []
    {
      ItemAt(items, i);
      SeparatorGood(i < |items| - 1, if i < |items| - 1 then depth else depth - 1, false);
      LaidGood(items[i].value, depth);
    }
    AllItemsGood(items);
  }

  lemma {:induction false} LaidMemberGood(m: Member, more: bool, depth: nat)
    requires depth > 0 && LaidMember(m, more, depth)
    requires m.key.text != "" && '"' !in m.key.text[1..] && Writable(Value(m.value))
    ensures GoodMember(m) && m.after != []
    decreases m, 0
  {
    SeparatorGood(more, if more then depth + 1 else depth - 1, true);
    LaidGood(m.value, depth + 1);
  }

  lemma {:induction false} AllMembersGood(members: seq<Member>)
    requires forall i :: 0 <= i < |members| ==> GoodMember(members[i]) && members[i].after != []
    ensures GoodMembers(members)
    decreases |members|
  {
    if members != [] {
      AllMembersGood(members[..|members| - 1]);
    }
  }

  lemma {:induction false} AllItemsGood(items: seq<Item>)
    requires forall i :: 0 <= i < |items| ==>
      Good(items[i].value) && GoodGap(items[i].after, false) && items[i].after != []
    ensures GoodItems(items)
    decreases |items|
  {
    if items != [] {
      AllItemsGood(items[..|items| - 1]);
    }
  }
}
