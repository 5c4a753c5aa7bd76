/**
  Texts that describe a tree: what a writer of such a text may choose freely
  (blanks, commas, comments, which quotes to use, the order of the members) is
  kept apart from the tree that the text stands for.
*/
module GoSource {
  import opened Common
  import opened Gaps
  import opened GoParse

  // ----- sources

  datatype Key = Quoted(quote: char, text: string) | Bare(text: string)

  datatype Source =
    | SHash(lead: Gap, members: seq<Member>)
    | SArr(lead: Gap, items: seq<Item>)
    | SStr(quote: char, str: string)
    | SNum(neg: bool, digits: string)
    | SFrac(neg: bool, digits: string, fraction: string)
    | SWord(word: string)

  // "skip" is what stands between the key and its colon.
  datatype Member = Member(key: Key, skip: string, before: Gap, value: Source, after: Gap)

  datatype Item = Item(value: Source, after: Gap)

  // ----- the tree a source stands for

  function Value(v: Source): Json {
    match v
    case SHash(_, members) => Hash(Fields(map[], members))
    case SArr(_, items) => Arr(Items(items))
    case SStr(_, str) => Val(Str, str)
    case SNum(neg, digits) => Val(if neg then Neg else Pos, digits)
    case SFrac(neg, digits, fraction) => Val(if neg then FloatNeg else FloatPos, digits + "." + fraction)
    case SWord(word) => Val(Meaning(word), "")
  }

  predicate IsWord(word: string) {
    word == "true" || word == "false" || word == "null"
  }

  function Meaning(word: string): Kind {
    if word == "true" then True else if word == "false" then False else Null
  }

  // A later member replaces an earlier one with the same key.
  function Fields(m: map<string, Json>, members: seq<Member>): map<string, Json>
    decreases members
  {
    if members == [] then m else
      var last := members[|members| - 1];
      Fields(m, members[..|members| - 1])[last.key.text := Value(last.value)]
  }

  function Items(items: seq<Item>): seq<Json>
  {
    if items == [] then [] else Items(items[..|items| - 1]) + [Value(items[|items| - 1].value)]
  }

  // ----- the text of a source

  function KeyText(k: Key): string {
    match k
    case Quoted(q, text) => [q] + text + [q]
    case Bare(text) => text
  }

  // Every quote gets a backslash; nothing else changes.
  function Escaped(s: string, q: char): string {
    if s == "" then ""
    else if s[0] == q then ['\\', q] + Escaped(s[1..], q)
    else [s[0]] + Escaped(s[1..], q)
  }

  function Text(v: Source): string {
    match v
    case SHash(lead, members) => "{" + GapText(lead) + MembersText(members) + "}"
    case SArr(lead, items) => "[" + GapText(lead) + ItemsText(items) + "]"
    case SStr(q, str) => [q] + Escaped(str, q) + [q]
    case SNum(neg, digits) => (if neg then "-" else "") + digits
    case SFrac(neg, digits, fraction) => (if neg then "-" else "") + (digits + "." + fraction)
    case SWord(word) => word
  }

  function MemberText(m: Member): string
    decreases m
  {
    KeyText(m.key) + m.skip + ":" + GapText(m.before) + Text(m.value) + GapText(m.after)
  }

  function MembersText(members: seq<Member>): string
    decreases members
  {
    if members == [] then ""
    else MembersText(members[..|members| - 1]) + MemberText(members[|members| - 1])
  }

  function ItemsText(items: seq<Item>): string
    decreases items
  {
    if items == [] then ""
    else
      var last := items[|items| - 1];
      ItemsText(items[..|items| - 1]) + Text(last.value) + GapText(last.after)
  }

  // ----- sources that the parser understands

  predicate GoodKey(k: Key, skip: string) {
    && ':' !in skip
    && k.text != ""
    && match k
       case Quoted(q, text) => (q == '"' || q == '\'') && q !in text[1..]
       case Bare(text) =>
         && ('a' <= text[0] <= 'z' || 'A' <= text[0] <= 'Z' || text[0] == '_')
         && (forall c :: c in text[1..] ==> c != ':' && c != ' ' && c != '\t')
         && (skip == "" || skip[0] == ' ' || skip[0] == '\t')
  }

  // Read from the left in pairs, every backslash is followed by something that
  // is not the quote.
  predicate Paired(s: string, q: char) {
    if s == "" then true
    else if s[0] != '\\' then Paired(s[1..], q)
    else |s| > 1 && s[1] != q && Paired(s[2..], q)
  }

  // Behind a minus sign the first byte is not looked at.
  predicate GoodDigits(neg: bool, digits: string) {
    digits != "" && AllDigits(if neg then digits[1..] else digits)
  }

  // Numbers and words only end where something else begins.
  predicate OpenEnded(v: Source) {
    v.SNum? || v.SFrac? || v.SWord?
  }

  predicate Good(v: Source) {
    match v
    case SHash(lead, members) => GoodGap(lead, true) && GoodMembers(members)
    case SArr(lead, items) => GoodGap(lead, false) && GoodItems(items)
    case SStr(q, str) => (q == '"' || q == '\'' || q == '`') && Paired(str, q)
    case SNum(neg, digits) => GoodDigits(neg, digits)
    case SFrac(neg, digits, fraction) => GoodDigits(neg, digits) && AllDigits(fraction)
    case SWord(word) => IsWord(word)
  }

  predicate GoodMember(m: Member)
    decreases m
  {
    GoodKey(m.key, m.skip) && GoodGap(m.before, false) && Good(m.value) && GoodGap(m.after, true)
  }

  predicate GoodMembers(members: seq<Member>)
    decreases members
  {
    members != [] ==>
      var front, last := members[..|members| - 1], members[|members| - 1];
      && GoodMembers(front) && GoodMember(last)
      && (front != [] && OpenEnded(front[|front| - 1].value) ==> front[|front| - 1].after != [])
  }

  predicate GoodItems(items: seq<Item>)
    decreases items
  {
    items != [] ==>
      var front, last := items[..|items| - 1], items[|items| - 1];
      && GoodItems(front) && Good(last.value) && GoodGap(last.after, false)
      && (front != [] && OpenEnded(front[|front| - 1].value) ==> front[|front| - 1].after != [])
  }
}
