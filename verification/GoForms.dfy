/**
  What else the parser of go/ujsonin.go takes: roots without an opening brace, and
  garbage between things; and one text with everything in it.
*/
module GoForms {
  import opened Common
  import opened Gaps
  import opened GoParse
  import opened GoSource
  import opened GoRoundTrip

  // ----- garbage

  predicate Letter(c: char) {
    'a' <= c <= 'z' || 'A' <= c <= 'Z' || c == '_'
  }

  predicate CommentAt(data: string, i: nat) {
    i + 2 < |data| && data[i] == '/' && (data[i + 1] == '/' || data[i + 1] == '*')
  }

  // Whether the byte at the position means nothing to the parser there.
  predicate Garbage(data: string, s: State)
    requires s.pos < |data|
  {
    var c := data[s.pos];
    && c != '"' && c != '\'' && !CommentAt(data, s.pos)
    && if s.lab == UnknownRoot then c != '{' && c != '[' && !Letter(c) && s.pos + 1 < |data|
       else if s.lab == InHash then c != '}' && !Letter(c)
       else c != '`' && c != '{' && c != '[' && c != ']' && c != '-' && !('a' <= c <= 'z') && !('0' <= c <= '9')
  }

  // Exactly such a byte is ignored.
  lemma GarbageIsIgnored(data: string, callback: bool, s: State)
    requires Sane(data, s) && s.lab in {UnknownRoot, InHash, AfterColon} && s.pos < |data|
    ensures Step(data, callback, s) == Goto(s, s.lab, s.pos + 1) <==> Garbage(data, s)
  {
    hide Step, Garbage;
    if s.lab == UnknownRoot {
      GarbageAtRoot(data, callback, s);
    } else if s.lab == InHash {
      GarbageInHash(data, callback, s);
    } else {
      GarbageAfterColon(data, callback, s);
    }
  }

  lemma GarbageAtRoot(data: string, callback: bool, s: State)
    requires Sane(data, s) && s.lab == UnknownRoot && s.pos < |data|
    ensures Step(data, callback, s) == Goto(s, s.lab, s.pos + 1) <==> Garbage(data, s)
  {
    hide Step;
    StepParts(data, callback, s);
  }

  lemma GarbageInHash(data: string, callback: bool, s: State)
    requires Sane(data, s) && s.lab == InHash && s.pos < |data|
    ensures Step(data, callback, s) == Goto(s, s.lab, s.pos + 1) <==> Garbage(data, s)
  {
    hide Step, Pop;
    StepParts(data, callback, s);
  }

  lemma GarbageAfterColon(data: string, callback: bool, s: State)
    requires Sane(data, s) && s.lab == AfterColon && s.pos < |data|
    ensures Step(data, callback, s) == Goto(s, s.lab, s.pos + 1) <==> Garbage(data, s)
  {
    hide Step, Pop;
    StepParts(data, callback, s);
  }

  // ----- roots without an opening brace

  // A key at the root is read as it is read behind an opening brace.
  lemma BraceIsOptional(data: string, callback: bool, s: State)
    requires Sane(data, s) && s.lab == UnknownRoot && s.pos + 1 < |data|
    requires Letter(data[s.pos]) || data[s.pos] in {'"', '\''}
    ensures
      var t := s.(lab := InHash, open := [Frame(Hash(map[]), "")]);
      Leads(data, callback, s, t)
  {
    hide Run, Step;
    var t := s.(lab := InHash, open := [Frame(Hash(map[]), "")]);
    StepParts(data, callback, s);
    StepParts(data, callback, t);
    OneStep(data, callback, s, Step(data, callback, s));
    OneStep(data, callback, t, Step(data, callback, t));
  }

  lemma {:induction false} MembersBegin(members: seq<Member>)
    requires members != [] && GoodMembers(members)
    ensures MembersText(members) != ""
    ensures
      var c := MembersText(members)[0];
      Letter(c) || c == '"' || c == '\''
    decreases |members|
  {
    hide GapText, Text, Good, GoodGap;
    var n := |members| - 1;
    if n == 0 {
      assert members[..0] == [];
      assert KeyText(members[0].key) != "";
      assert MembersText(members) == "" + MemberText(members[0]);
    } else {
      MembersBegin(members[..n]);
    }
  }

  // Members and a closing brace are a hash.
  lemma BracelessRoot(members: seq<Member>, rest: string)
    requires members != [] && GoodMembers(members)
    ensures Delivers(MembersText(members) + "}" + rest, Hash(Fields(map[], members)), rest)
  {
    hide Run, Step, MembersText, Fields, GoodMembers;
    var text := MembersText(members) + "}";
    var data := text + rest;
    MembersBegin(members);
    assert Reads(data, 0, text);
    BraceIsOptional(data, false, START);
    var s := START.(lab := InHash, open := [Frame(Hash(map[]), "")]);
    EmptyGap();
    assert GapText([]) + MembersText(members) + "}" == text;
    s := ReadBody(data, false, s, [], members);
    s := LeaveRoot(data, false, s);
    Halts(data, false, s);
    assert data[|text|..] == rest;
  }

  // ----- a text with everything in it

  lemma More(members: seq<Member>, m: Member)
    requires GoodMembers(members) && GoodMember(m)
    requires members != [] && OpenEnded(members[|members| - 1].value) ==> members[|members| - 1].after != []
    ensures GoodMembers(members + [m])
    ensures MembersText(members + [m]) == MembersText(members) + MemberText(m)
    ensures Fields(map[], members + [m]) == Fields(map[], members)[m.key.text := Value(m.value)]
  {
    hide GoodMember, MemberText, Value;
    assert (members + [m])[..|members|] == members;
  }

  lemma Number() returns (m: Member)
    ensures GoodMember(m) && MemberText(m) == "a:-1," && m.after != []
    ensures m.key.text == "a" && Value(m.value) == Val(Neg, "1")
  {
    OneGap(Blank(','), true);
    OneGap(Blank(','), false);
    m := Member(Bare("a"), "", [], SNum(true, "1"), [Blank(',')]);
    assert Text(m.value) == "-1";
    assert MemberText(m) == "a" + "" + ":" + "" + "-1" + ",";
  }

  // Garbage with a letter in it is a key, and takes what is behind the next colon.
  lemma GarbageIsKey(rest: string)
    ensures Delivers("{" + ("a:1 " + "note b:2") + "}" + rest,
      Hash(map["a" := Val(Pos, "1"), "note" := Val(Pos, "2")]), rest)
  {
    hide GapText, GoodGap, MemberText, GoodMember, MembersText, GoodMembers, Fields, Delivers, Value;
    var a := First();
    var b := Noted();
    NoMembers();
    More([], a);
    More([] + [a], b);
    var members := [] + [a] + [b];
    assert "" + "a:1 " == "a:1 ";
    HashForms(members);
    NoGap();
    ReadsBack([], SHash([], members), rest);
    assert "" + Text(SHash([], members)) == Text(SHash([], members));
  }

  lemma NoGap()
    ensures GoodGap([], true) && GapText([]) == ""
  {
  }

  lemma First() returns (m: Member)
    ensures GoodMember(m) && MemberText(m) == "a:1 " && m.after != []
    ensures m.key.text == "a" && Value(m.value) == Val(Pos, "1")
  {
    OneGap(Blank(' '), true);
    OneGap(Blank(' '), false);
    m := Member(Bare("a"), "", [], SNum(false, "1"), [Blank(' ')]);
    assert MemberText(m) == "a" + "" + ":" + "" + "1" + " ";
  }

  lemma Noted() returns (m: Member)
    ensures GoodMember(m) && MemberText(m) == "note b:2"
    ensures m.key.text == "note" && Value(m.value) == Val(Pos, "2")
  {
    OneGap(Blank(' '), true);
    OneGap(Blank(' '), false);
    m := Member(Bare("note"), " b", [], SNum(false, "2"), []);
    assert MemberText(m) == "note" + " b" + ":" + "" + "2" + "";
  }

  lemma NewlineGap()
    ensures
      var g := [Blank('\r'), Blank('\n')];
      GoodGap(g, true) && GapText(g) == "\r\n"
  {
    OneGap(Blank('\r'), true);
    GapMore([Blank('\r')], Blank('\n'), true);
    assert [Blank('\r')] + [Blank('\n')] == [Blank('\r'), Blank('\n')];
  }

  lemma Quotes()
    ensures Escaped("it's", '\'') == "it\\'s" && Paired("it's", '\'')
    ensures Escaped("x\"y", '`') == "x\"y" && Paired("x\"y", '`')
  {
  }

  lemma EscapedQuote() returns (m: Member)
    ensures GoodMember(m) && MemberText(m) == "B_2 \t:'it\\'s'\r\n" && m.value.SStr?
    ensures m.key.text == "B_2" && Value(m.value) == Val(Str, "it's")
  {
    hide GapText, GoodGap, Escaped, Paired;
    NewlineGap();
    OneGap(Blank(' '), false);
    Quotes();
    m := Member(Bare("B_2"), " \t", [], SStr('\'', "it's"), [Blank('\r'), Blank('\n')]);
    assert Text(m.value) == "'it\\'s'";
    assert MemberText(m) == "B_2" + " \t" + ":" + "" + "'it\\'s'" + "\r\n";
  }

  lemma Backquotes() returns (m: Member)
    ensures GoodMember(m) && MemberText(m) == "'c d': `x\"y`/*,*/" && m.value.SStr?
    ensures m.key.text == "c d" && Value(m.value) == Val(Str, "x\"y")
  {
    hide GapText, GoodGap, Escaped, Paired;
    OneGap(BlockComment(","), true);
    OneGap(Blank(' '), false);
    Quotes();
    m := Member(Quoted('\'', "c d"), "", [Blank(' ')], SStr('`', "x\"y"), [BlockComment(",")]);
    assert Text(m.value) == "`x\"y`";
    assert ItemText(BlockComment(",")) == "/*,*/";
    assert MemberText(m) == "'c d'" + "" + ":" + " " + "`x\"y`" + "/*,*/";
  }

  lemma Fractions() returns (items: seq<Item>)
    ensures GoodItems(items) && ItemsText(items) == "1.5 -2.5//f\r{}"
    ensures Items(items) == [Val(FloatPos, "1.5"), Val(FloatNeg, "2.5"), Hash(map[])]
  {
    hide GapText, GoodGap, GoodItems, ItemsText, Items, Good, Text, Value;
    OneGap(Blank(' '), false);
    OneGap(LineComment("f", '\r'), false);
    EmptyHash();
    TwoFractions();
    var a := Item(SFrac(false, "1", "5"), [Blank(' ')]);
    var b, c := Item(SFrac(true, "2", "5"), [LineComment("f", '\r')]), Item(SHash([], []), []);
    NoItems();
    MoreItems([], a);
    MoreItems([] + [a], b);
    MoreItems([] + [a] + [b], c);
    items := [] + [a] + [b] + [c];
    assert "" + "1.5" + " " + "-2.5" + "//f\r" + "{}" + "" == "1.5 -2.5//f\r{}";
  }

  lemma TwoFractions()
    ensures
      var v, w := SFrac(false, "1", "5"), SFrac(true, "2", "5");
      && Good(v) && Text(v) == "1.5" && Value(v) == Val(FloatPos, "1.5")
      && Good(w) && Text(w) == "-2.5" && Value(w) == Val(FloatNeg, "2.5")
  {
  }

  lemma EmptyHash()
    ensures Good(SHash([], [])) && Text(SHash([], [])) == "{}" && Value(SHash([], [])) == Hash(map[])
  {
    OneGap(Blank(' '), true);
    assert Fields(map[], []) == map[];
  }

  lemma NoItems()
    ensures GoodItems([]) && Items([]) == [] && ItemsText([]) == ""
  {
  }

  lemma Array() returns (m: Member)
    ensures GoodMember(m) && MemberText(m) == "e:[1.5 -2.5//f\r{}]" && m.value.SArr?
    ensures m.key.text == "e"
    ensures Value(m.value) == Arr([Val(FloatPos, "1.5"), Val(FloatNeg, "2.5"), Hash(map[])])
  {
    hide GapText, GoodGap, ItemsText, GoodItems, Items;
    var items := Fractions();
    OneGap(Blank(' '), false);
    OneGap(Blank(' '), true);
    m := Member(Bare("e"), "", [], SArr([], items), []);
    assert Text(m.value) == "[" + "" + "1.5 -2.5//f\r{}" + "]";
    assert MemberText(m) == "e" + "" + ":" + "" + "[1.5 -2.5//f\r{}]" + "";
  }

  lemma Nothing() returns (m: Member)
    ensures GoodMember(m) && MemberText(m) == "\"g\":null"
    ensures m.key.text == "g" && Value(m.value) == Val(Null, "")
  {
    OneGap(Blank(' '), true);
    OneGap(Blank(' '), false);
    m := Member(Quoted('"', "g"), "", [], SWord("null"), []);
    assert MemberText(m) == "\"g\"" + "" + ":" + "" + "null" + "";
  }

  const MEMBERS :=
    "a:-1," + "B_2 \t:'it\\'s'\r\n" + "'c d': `x\"y`/*,*/" + "e:[1.5 -2.5//f\r{}]" + "\"g\":null"

  // Both kinds of numbers with both signs, all quotes, bare and quoted keys, every
  // blank, and both comments.
  lemma Everything(rest: string)
    ensures Delivers("// n\n" + ("{" + MEMBERS + "}") + rest,
      Hash(map["a" := Val(Neg, "1"), "B_2" := Val(Str, "it's"), "c d" := Val(Str, "x\"y"),
               "e" := Arr([Val(FloatPos, "1.5"), Val(FloatNeg, "2.5"), Hash(map[])]), "g" := Val(Null, "")]), rest)
  {
    hide GapText, GoodGap, MemberText, GoodMember, MembersText, GoodMembers, Fields, Delivers, Value;
    var lead := [LineComment(" n", '\n')];
    OneGap(lead[0], true);
    var members := AllMembers();
    ReadsBack(lead, SHash([], members), rest);
    assert GapText(lead) == "// n\n";
    HashForms(members);
  }

  lemma HashForms(members: seq<Member>)
    requires GoodMembers(members)
    ensures Good(SHash([], members)) && Value(SHash([], members)) == Hash(Fields(map[], members))
    ensures Text(SHash([], members)) == "{" + MembersText(members) + "}"
  {
    hide MembersText;
    OneGap(Blank(' '), true);
    assert "{" + "" == "{";
  }

  lemma NoMembers()
    ensures GoodMembers([]) && MembersText([]) == "" && Fields(map[], []) == map[]
  {
  }

  lemma AllMembers() returns (members: seq<Member>)
    ensures GoodMembers(members)
    ensures MembersText(members) == MEMBERS
    ensures Fields(map[], members)
      == map["a" := Val(Neg, "1"), "B_2" := Val(Str, "it's"), "c d" := Val(Str, "x\"y"),
             "e" := Arr([Val(FloatPos, "1.5"), Val(FloatNeg, "2.5"), Hash(map[])]), "g" := Val(Null, "")]
  {
    hide MemberText, GoodMember, MembersText, GoodMembers, Fields, Value;
    NoMembers();
    var a := Number();
    var b := EscapedQuote();
    var c := Backquotes();
    var d := Array();
    var e := Nothing();
    More([], a);
    More([] + [a], b);
    More([] + [a] + [b], c);
    More([] + [a] + [b] + [c], d);
    More([] + [a] + [b] + [c] + [d], e);
    assert "" + "a:-1," == "a:-1,";
    members := [] + [a] + [b] + [c] + [d] + [e];
  }

  lemma MoreItems(items: seq<Item>, m: Item)
    requires GoodItems(items) && Good(m.value) && GoodGap(m.after, false)
    requires items != [] && OpenEnded(items[|items| - 1].value) ==> items[|items| - 1].after != []
    ensures GoodItems(items + [m]) && Items(items + [m]) == Items(items) + [Value(m.value)]
    ensures ItemsText(items + [m]) == ItemsText(items) + Text(m.value) + GapText(m.after)
    ensures Items([]) == [] && ItemsText([]) == ""
  {
    hide Good, Value, Text, GapText;
    assert (items + [m])[..|items|] == items;
  }
}
