/**
  Texts that describe a tree to the parser of c/ujson.c: what a writer may choose
  freely is kept apart from the tree that the text stands for.
*/
module UjsonSource {
  import opened Common
  import opened Gaps
  import opened UjsonScan

  // Keys and strings are kept as they are written, with their backslashes.
  datatype Key = Quoted(quote: char, text: string) | Bare(text: string)

  // A fraction takes one more byte along, which is lost.
  datatype Source =
    | SHash(lead: Gap, members: seq<Member>)
    | SArr(lead: Gap, items: seq<Item>)
    | SStr(quote: char, raw: string)
    | SNum(neg: bool, digits: string)
    | SFrac(neg: bool, digits: string, fraction: string, lost: char)
    | SWord(word: string)

  // "skip" is what stands between the key and its colon.
  datatype Member = Member(key: Key, skip: string, before: Gap, value: Source, after: Gap)

  datatype Item = Item(value: Source, after: Gap)

  // ----- the tree a source stands for

  function Value(v: Source): Json {
    match v
    case SHash(_, members) => Hash(Fields(members))
    case SArr(_, items) => Arr(Items(items))
    case SStr(_, raw) => Val(Str, raw, raw != "" && '\\' in raw[1..])
    case SNum(neg, digits) => Val(if neg then NegNum else PosNum, digits, false)
    case SFrac(neg, digits, fraction, _) => Val(if neg then NegNum else PosNum, digits + "." + fraction, false)
    case SWord(word) => Val(Meaning(word), "", false)
  }

  predicate IsWord(word: string) {
    word == "true" || word == "false" || word == "null"
  }

  function Meaning(word: string): Tag {
    if word == "true" then True else if word == "false" then False else Null
  }

  // The values under one key are kept in order.
  function Fields(members: seq<Member>): map<string, seq<Json>>
    decreases members
  {
    if members == [] then map[] else
      var last, before := members[|members| - 1], Fields(members[..|members| - 1]);
      var key := last.key.text;
      before[key := (if key in before then before[key] else []) + [Value(last.value)]]
  }

  function Items(items: seq<Item>): seq<Json> {
    if items == [] then [] else Items(items[..|items| - 1]) + [Value(items[|items| - 1].value)]
  }

  // ----- the text of a source

  function KeyText(k: Key): string {
    match k
    case Quoted(q, text) => [q] + text + [q]
    case Bare(text) => text
  }

  function Sign(neg: bool): string {
    if neg then "-" else ""
  }

  function Text(v: Source): string {
    match v
    case SHash(lead, members) => "{" + GapText(lead) + MembersText(members) + "}"
    case SArr(lead, items) => "[" + GapText(lead) + ItemsText(items) + "]"
    case SStr(q, raw) => [q] + raw + [q]
    case SNum(neg, digits) => Sign(neg) + digits
    case SFrac(neg, digits, fraction, lost) => Sign(neg) + (digits + "." + fraction + [lost])
    case SWord(word) => word
  }

  function MemberText(m: Member): string
    decreases m
  {
    KeyText(m.key) + m.skip + ":" + GapText(m.before) + Text(m.value) + GapText(m.after)
  }

  function MembersText(members: seq<Member>): string
    decreases members
  {
    if members == [] then ""
    else MembersText(members[..|members| - 1]) + MemberText(members[|members| - 1])
  }

  function ItemsText(items: seq<Item>): string
    decreases items
  {
    if items == [] then ""
    else
      var last := items[|items| - 1];
      ItemsText(items[..|items| - 1]) + Text(last.value) + GapText(last.after)
  }

  // ----- sources that the parser understands

  // A backslash protects the byte behind it; no other quote.
  predicate Closed(raw: string, q: char) {
    if raw == "" then true
    else if raw[0] == '\\' then |raw| > 1 && Closed(raw[2..], q)
    else raw[0] != q && Closed(raw[1..], q)
  }

  // The first byte of a key may also be its own quote.
  predicate GoodKey(k: Key, skip: string) {
    && ':' !in skip
    && k.text != ""
    && match k
       case Quoted(q, text) =>
         && (q == '"' || q == '\'')
         && if text[0] == '\\' then |text| > 1 && Closed(text[2..], q) else Closed(text[1..], q)
       case Bare(text) =>
         && 'a' <= text[0] <= 'z' && (forall c :: c in text[1..] ==> c != ':' && c != ' ' && c != '\t')
         && (skip == "" || skip[0] == ' ' || skip[0] == '\t')
  }

  // The first byte of a string is no quote of either kind, and a backslash there
  // protects nothing.
  predicate GoodString(q: char, raw: string) {
    (q == '"' || q == '\'') && (raw != "" ==> raw[0] != '"' && raw[0] != '\'' && Closed(raw[1..], q))
  }

  // Behind a minus sign the first byte is not looked at.
  predicate GoodDigits(neg: bool, digits: string) {
    digits != "" && AllDigits(if neg then digits[1..] else digits)
  }

  // Whole numbers and words only end where something else begins.
  predicate OpenEnded(v: Source) {
    v.SNum? || v.SWord?
  }

  predicate Good(v: Source) {
    match v
    case SHash(lead, members) => GoodGap(lead, true) && GoodMembers(members)
    case SArr(lead, items) => GoodGap(lead, false) && GoodItems(items)
    case SStr(q, raw) => GoodString(q, raw)
    case SNum(neg, digits) => GoodDigits(neg, digits)
    case SFrac(neg, digits, fraction, lost) => GoodDigits(neg, digits) && AllDigits(fraction) && !('0' <= lost <= '9')
    case SWord(word) => IsWord(word)
  }

  predicate GoodMember(m: Member)
    decreases m
  {
    GoodKey(m.key, m.skip) && GoodGap(m.before, false) && Good(m.value) && GoodGap(m.after, true)
  }

  predicate GoodMembers(members: seq<Member>)
    decreases members
  {
    members != [] ==>
      var front, last := members[..|members| - 1], members[|members| - 1];
      && GoodMembers(front) && GoodMember(last)
      && (front != [] && OpenEnded(front[|front| - 1].value) ==> front[|front| - 1].after != [])
  }

  predicate GoodItems(items: seq<Item>)
    decreases items
  {
    items != [] ==>
      var front, last := items[..|items| - 1], items[|items| - 1];
      && GoodItems(front) && Good(last.value) && GoodGap(last.after, false)
      && (front != [] && OpenEnded(front[|front| - 1].value) ==> front[|front| - 1].after != [])
  }

  // ----- how many arrays are inside each other

  function Max(a: nat, b: nat): nat {
    if a > b then a else b
  }

  function Depth(v: Source): nat {
    match v
    case SHash(_, members) => MembersDepth(members)
    case SArr(_, items) => 1 + ItemsDepth(items)
    case SStr(_, _) => 0
    case SNum(_, _) => 0
    case SFrac(_, _, _, _) => 0
    case SWord(_) => 0
  }

  function MembersDepth(members: seq<Member>): nat
    decreases members
  {
    if members == [] then 0
    else Max(MembersDepth(members[..|members| - 1]), Depth(members[|members| - 1].value))
  }

  function ItemsDepth(items: seq<Item>): nat
    decreases items
  {
    if items == [] then 0
    else Max(ItemsDepth(items[..|items| - 1]), Depth(items[|items| - 1].value))
  }
}
