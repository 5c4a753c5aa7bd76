/**
  What else the parser of c/ujson.c takes: a closing bracket for all that is open
  inside an array, and members behind the end; and one text with everything in it.
*/
module UjsonForms {
  import opened Common
  import opened Gaps
  import opened UjsonScan
  import opened UjsonSource
  import opened UjsonRoundTrip
  import opened UjsonComments

  // ----- closing brackets

  lemma CollapsedStep(open: seq<Frame>)
    requires |open| > 1
    ensures |Pop(open)| == |open| - 1 && Collapsed(open) == Collapsed(Pop(open))
  {
  }

  // A closing bracket ends the innermost open array with everything inside it:
  // from it on the open containers become one value of the container below.
  lemma {:induction false} BracketClosesAll(open: seq<Frame>, i: nat)
    requires 0 < i < |open| && open[i].value.Arr?
    requires forall j :: i < j < |open| ==> !open[j].value.Arr?
    ensures PopArr(open) == Put(open[..i], open[i].key, Collapsed(open[i..]))
    decreases |open|
  {
    hide Collapsed;
    var above := open[i..];
    if i == |open| - 1 {
      assert above == [open[i]];
      OneCollapsed(open[i]);
    } else {
      var n := |open| - 1;
      CollapsedStep(above);
      assert above[..|above| - 1] == open[..n][i..];
      var less := Pop(open);
      assert less[i..] == Pop(above);
      assert less[..i] == open[..i];
      BracketClosesAll(less, i);
    }
  }

  lemma OneCollapsed(f: Frame)
    ensures Collapsed([f]) == f.value
  {
  }

  // ----- members behind the end

  // The root with these members and nothing else open.
  function RootOf(members: seq<Member>): seq<Frame> {
    [Frame(Hash(Fields(members)), "")]
  }

  lemma FieldsSnoc(members: seq<Member>, m: Member)
    ensures Add(Hash(Fields(members)), m.key.text, Value(m.value)) == Hash(Fields(members + [m]))
    ensures MembersText(members + [m]) == MembersText(members) + MemberText(m)
  {
    hide Value, MemberText;
    assert (members + [m])[..|members|] == members;
    FieldsStep(members + [m]);
  }

  lemma ReadOneMore(data: string, s: State, members: seq<Member>, m: Member) returns (t: State)
    requires Ready(data, s) && s.regs.lab == InHash && GoodMember(m) && Depth(m.value) <= 10
    requires s.open == RootOf(members)
    requires Reads(data, s.regs.pos, MemberText(m)) && s.regs.pos + |MemberText(m)| < |data|
    requires m.after == [] ==> Stops(data, s.regs.pos + |MemberText(m)|, m.value)
    ensures Leads(data, s, t) && t.open == RootOf(members + [m])
    ensures t.regs.lab == InHash && t.regs.pos == s.regs.pos + |MemberText(m)|
  {
    hide Run, Fits, Step, Ready, MemberText, GoodMember, Stops, Put, Add, Fields, Depth, Value;
    OneOpen(s.open);
    t := ReadMember(data, s, m);
    FieldsSnoc(members, m);
    PutAlone(members, m.key.text, Value(m.value));
  }

  lemma {:induction false} ReadMore(data: string, s: State, front: seq<Member>, members: seq<Member>)
    returns (t: State)
    requires Ready(data, s) && s.regs.lab == InHash && GoodMembers(members)
    requires s.open == RootOf(front) && MembersDepth(members) <= 10
    requires Reads(data, s.regs.pos, MembersText(members)) && s.regs.pos + |MembersText(members)| < |data|
    requires
      var end := s.regs.pos + |MembersText(members)|;
      members != [] && members[|members| - 1].after == [] ==> Stops(data, end, members[|members| - 1].value)
    ensures Leads(data, s, t) && t.open == RootOf(front + members)
    ensures t.regs.lab == InHash && t.regs.pos == s.regs.pos + |MembersText(members)|
    decreases |members|
  {
    hide Run, Fits, Step, Ready, MembersText, GoodMembers, MembersDepth, MemberText, GoodMember, Stops, Fields;
    if members == [] {
      t := s;
      NoMembers();
      assert front + members == front;
    } else {
      var less, last := members[..|members| - 1], members[|members| - 1];
      LastMember(members);
      ReadsSplit(data, s.regs.pos, MembersText(less), MemberText(last));
      FrontStops(data, s.regs.pos + |MembersText(less)|, less, last);
      t := ReadMore(data, s, front, less);
      t := ReadOneMore(data, t, front + less, last);
      Regrouped(front, less, last);
    }
  }

  lemma Regrouped(a: seq<Member>, b: seq<Member>, m: Member)
    ensures a + b + [m] == a + (b + [m])
  {
  }

  lemma LastMember(members: seq<Member>)
    requires members != [] && GoodMembers(members)
    ensures
      var less, last := members[..|members| - 1], members[|members| - 1];
      && GoodMembers(less) && GoodMember(last) && members == less + [last]
      && MembersText(members) == MembersText(less) + MemberText(last)
      && MembersDepth(less) <= MembersDepth(members) && Depth(last.value) <= MembersDepth(members)
  {
    hide MemberText, GoodMember, Depth;
  }

  lemma OneOpen(open: seq<Frame>)
    requires |open| == 1 && open[0].value.Hash?
    ensures Arrays(open) == 0 && Top(open).Hash?
  {
    assert open[..0] == [];
  }

  lemma PutAlone(members: seq<Member>, key: string, v: Json)
    ensures Put(RootOf(members), key, v) == [Frame(Add(Hash(Fields(members)), key, v), "")]
  {
  }

  lemma PlacesBehind(v: Source, g: Gap, more: string, tail: Gap)
    requires v.SHash?
    ensures
      var data := Text(v) + GapText(g) + more + GapText(tail);
      var p := |Text(v)| + |GapText(g)|;
      && Reads(data, 0, Text(v)) && Reads(data, |Text(v)|, GapText(g)) && Reads(data, p, more)
      && Reads(data, p + |more|, GapText(tail)) && |data| == p + |more| + |GapText(tail)|
  {
    hide Text, GapText;
    var a, b, c := Text(v), GapText(g), GapText(tail);
    var data := a + b + more + c;
    assert data[..|a|] == a;
    assert data[|a|..|a| + |b|] == b;
    assert data[|a| + |b|..|a| + |b| + |more|] == more;
    assert data[|a| + |b| + |more|..] == c;
  }

  // From the start to behind the closing brace.
  lemma ReadRoot(data: string, v: Source) returns (t: State)
    requires v.SHash? && Good(v) && Depth(v) <= 10 && Reads(data, 0, Text(v)) && |Text(v)| < |data|
    ensures Ready(data, START) && Leads(data, START, t) && t.open == RootOf(v.members)
    ensures t.regs.lab == InHash && t.regs.pos == |Text(v)|
  {
    hide Run, Fits, Step, GapText, MembersText, Fields, GoodMembers, GoodGap, MembersDepth;
    var front := GapText(v.lead) + MembersText(v.members);
    assert Text(v) == "{" + (front + "}");
    ReadsSplit(data, 0, "{", front + "}");
    ReadsSplit(data, 1, front, "}");
    ReadsAt(data, 1 + |front|, "}", 0);
    assert front + "}" == GapText(v.lead) + (MembersText(v.members) + "}");
    StartsEmpty();
    t := ReadBody(data, START, v.lead, v.members);
    RootBrace(data, t);
    t := Goto(t, InHash, |Text(v)|);
  }

  // The root stays open behind its closing brace: members there are members as well.
  lemma RootStaysOpen(v: Source, g: Gap, members: seq<Member>, tail: Gap)
    requires v.SHash? && Good(v) && Depth(v) <= 10 && GoodGap(g, true)
    requires GoodMembers(members) && MembersDepth(members) <= 10 && GoodGap(tail, true) && tail != []
    ensures Gives(Text(v) + GapText(g) + MembersText(members) + GapText(tail), Hash(Fields(v.members + members)))
  {
    hide Run, Fits, Step, GapText, MembersText, Fields, GoodMembers, GoodGap, MembersDepth, Text, Good, Depth;
    var data := Text(v) + GapText(g) + MembersText(members) + GapText(tail);
    PlacesBehind(v, g, MembersText(members), tail);
    GapBegins(tail, true);
    ReadsAt(data, |Text(v)| + |GapText(g)| + |MembersText(members)|, GapText(tail), 0);
    var t := ReadRoot(data, v);
    SkipGap(data, t, AtMember, g);
    t := Goto(t, InHash, |Text(v)| + |GapText(g)|);
    t := ReadMore(data, t, v.members, members);
    EndGap(data, t, tail);
    OneCollapsed(t.open[0]);
  }

  // ----- a text with everything in it

  lemma More(members: seq<Member>, m: Member)
    requires GoodMembers(members) && GoodMember(m)
    requires members != [] && OpenEnded(members[|members| - 1].value) ==> members[|members| - 1].after != []
    ensures GoodMembers(members + [m])
    ensures MembersText(members + [m]) == MembersText(members) + MemberText(m)
    ensures MembersDepth(members + [m]) == Max(MembersDepth(members), Depth(m.value))
  {
    hide GoodMember, MemberText, Value, Depth;
    assert (members + [m])[..|members|] == members;
  }

  lemma FieldsMore(members: seq<Member>, m: Member)
    ensures
      var f, k, v := Fields(members), m.key.text, Value(m.value);
      Fields(members + [m]) == if k in f then f[k := f[k] + [v]] else f[k := [v]]
  {
    hide Value;
    assert (members + [m])[..|members|] == members;
    assert [] + [Value(m.value)] == [Value(m.value)];
  }

  lemma NoMembers()
    ensures GoodMembers([]) && MembersText([]) == "" && Fields([]) == map[] && MembersDepth([]) == 0
  {
  }

  const NUMBER := Member(Bare("a"), "", [], SNum(true, "1"), [Blank(',')])
  const SINGLE := Member(Quoted('\'', "b c"), " \t", [], SStr('\'', "x\"y"), [Blank('\r')])
  const DOUBLE := Member(Quoted('"', "d"), "", [Blank(' ')], SStr('"', "i\\\""), [BlockComment(",")])
  const FRACTION := SFrac(true, "1", "5", ',')
  const EMPTY := SHash([], [])
  const ITEMS := [Item(FRACTION, []), Item(EMPTY, [LineComment("f", '\n')])]
  const ARRAY := Member(Bare("e"), "", [], SArr([], ITEMS), [])
  const AGAIN := Member(Bare("a"), "", [], SNum(false, "2"), [])

  function WordMember(key: string, word: string): Member {
    Member(Bare(key), "", [], SWord(word), [Blank(' ')])
  }

  lemma Number()
    ensures GoodMember(NUMBER) && MemberText(NUMBER) == "a:-1," && Depth(NUMBER.value) == 0
    ensures Value(NUMBER.value) == Val(NegNum, "1", false)
  {
    hide GapText, GoodGap;
    OneGap(Blank(','), true);
    assert Text(NUMBER.value) == "-1";
    assert MemberText(NUMBER) == "a" + "" + ":" + "" + "-1" + ",";
  }

  lemma SmallClosed()
    ensures Closed(" c", '\'') && Closed("\"y", '\'') && Closed("\\\"", '"') && Closed("", '"')
  {
  }

  lemma SingleQuotes()
    ensures GoodMember(SINGLE) && MemberText(SINGLE) == "'b c' \t:'x\"y'\r" && Depth(SINGLE.value) == 0
    ensures Value(SINGLE.value) == Val(Str, "x\"y", false)
  {
    hide GapText, GoodGap, Closed;
    OneGap(Blank('\r'), true);
    assert Closed(" c", '\'') && Closed("\"y", '\'') by { SmallClosed(); }
    assert Text(SINGLE.value) == "'x\"y'";
    assert MemberText(SINGLE) == "'b c'" + " \t" + ":" + "" + "'x\"y'" + "\r";
  }

  lemma DoubleQuotes()
    ensures GoodMember(DOUBLE) && MemberText(DOUBLE) == "\"d\": \"i\\\"\"/*,*/" && Depth(DOUBLE.value) == 0
    ensures Value(DOUBLE.value) == Val(Str, "i\\\"", true)
  {
    hide GapText, GoodGap, Closed;
    OneGap(Blank(' '), false);
    OneGap(BlockComment(","), true);
    assert Closed("\\\"", '"') && Closed("", '"') by { SmallClosed(); }
    assert "d"[1..] == "" && "i\\\""[1..] == "\\\"" && "\\\""[0] == '\\';
    assert Text(DOUBLE.value) == "\"i\\\"\"";
    assert ItemText(BlockComment(",")) == "/*,*/";
    assert MemberText(DOUBLE) == "\"d\"" + "" + ":" + " " + "\"i\\\"\"" + "/*,*/";
  }

  lemma NoItems()
    ensures GoodItems([]) && Items([]) == [] && ItemsText([]) == "" && ItemsDepth([]) == 0
  {
  }

  lemma MoreItems(items: seq<Item>, m: Item)
    requires GoodItems(items) && Good(m.value) && GoodGap(m.after, false)
    requires items != [] && OpenEnded(items[|items| - 1].value) ==> items[|items| - 1].after != []
    ensures GoodItems(items + [m]) && Items(items + [m]) == Items(items) + [Value(m.value)]
    ensures ItemsText(items + [m]) == ItemsText(items) + Text(m.value) + GapText(m.after)
    ensures ItemsDepth(items + [m]) == Max(ItemsDepth(items), Depth(m.value))
  {
    hide Good, Value, Text, GapText, Depth;
    assert (items + [m])[..|items|] == items;
  }

  lemma EmptyHash()
    ensures Good(EMPTY) && Text(EMPTY) == "{}" && Value(EMPTY) == Hash(map[]) && Depth(EMPTY) == 0
  {
    OneGap(Blank(' '), true);
    NoMembers();
  }

  lemma Fraction()
    ensures Good(FRACTION) && Text(FRACTION) == "-1.5," && Depth(FRACTION) == 0 && !OpenEnded(FRACTION)
    ensures Value(FRACTION) == Val(NegNum, "1.5", false)
  {
  }

  lemma Elements()
    ensures GoodItems(ITEMS) && ItemsText(ITEMS) == "-1.5,{}//f\n" && ItemsDepth(ITEMS) == 0
    ensures Items(ITEMS) == [Val(NegNum, "1.5", false), Hash(map[])]
  {
    hide GapText, GoodGap, GoodItems, ItemsText, Items, ItemsDepth, Good, Text, Value, Depth, FRACTION, EMPTY;
    OneGap(LineComment("f", '\n'), false);
    EmptyHash();
    Fraction();
    NoItems();
    var a, b := ITEMS[0], ITEMS[1];
    MoreItems([], a);
    MoreItems([] + [a], b);
    assert ITEMS == [] + [a] + [b];
    assert "" + "-1.5," + "" + "{}" + "//f\n" == "-1.5,{}//f\n";
    assert [] + [Val(NegNum, "1.5", false)] + [Hash(map[])] == [Val(NegNum, "1.5", false), Hash(map[])];
  }

  lemma Array()
    ensures GoodMember(ARRAY) && MemberText(ARRAY) == "e:[-1.5,{}//f\n]" && Depth(ARRAY.value) == 1
    ensures Value(ARRAY.value) == Arr([Val(NegNum, "1.5", false), Hash(map[])])
  {
    hide GapText, GoodGap, ItemsText, GoodItems, Items, ItemsDepth, ITEMS;
    Elements();
    OneGap(Blank(' '), false);
    assert Text(ARRAY.value) == "[" + "" + "-1.5,{}//f\n" + "]";
    assert MemberText(ARRAY) == "e" + "" + ":" + "" + "[-1.5,{}//f\n]" + "";
  }

  lemma OneWord(key: string, word: string)
    requires key in {"t", "f", "n"} && word in {"true", "false", "null"}
    ensures GoodMember(WordMember(key, word)) && MemberText(WordMember(key, word)) == key + ":" + word + " "
    ensures Value(SWord(word))
      == Val(if word == "true" then True else if word == "false" then False else Null, "", false)
  {
    hide GapText, GoodGap;
    OneGap(Blank(' '), true);
    assert MemberText(WordMember(key, word)) == key + "" + ":" + "" + word + " ";
    assert key + "" + ":" + "" + word + " " == key + ":" + word + " ";
  }

  lemma Again()
    ensures GoodMember(AGAIN) && MemberText(AGAIN) == "a:2" && Depth(AGAIN.value) == 0
    ensures Value(AGAIN.value) == Val(PosNum, "2", false)
  {
    hide GapText, GoodGap;
    OneGap(Blank(' '), true);
    assert MemberText(AGAIN) == "a" + "" + ":" + "" + "2" + "";
  }

  // ----- all of them behind each other

  const FIRST := [] + [NUMBER] + [SINGLE] + [DOUBLE] + [ARRAY]
  const WORDS_TOO := FIRST + [WordMember("t", "true")] + [WordMember("f", "false")] + [WordMember("n", "null")]

  const FIRST_TEXT :=
    "" + "a:-1," + "'b c' \t:'x\"y'\r" + "\"d\": \"i\\\"\"/*,*/" + "e:[-1.5,{}//f\n]"
  const ALL_TEXT := FIRST_TEXT + "t:true " + "f:false " + "n:null " + "a:2"

  const FIRST_VALUES := map[
    "a" := [Val(NegNum, "1", false)],
    "b c" := [Val(Str, "x\"y", false)],
    "d" := [Val(Str, "i\\\"", true)],
    "e" := [Arr([Val(NegNum, "1.5", false), Hash(map[])])]]
  const WORD_VALUES :=
    FIRST_VALUES["t" := [Val(True, "", false)]]["f" := [Val(False, "", false)]]["n" := [Val(Null, "", false)]]

  lemma FirstMembers()
    ensures GoodMembers(FIRST) && MembersText(FIRST) == FIRST_TEXT && MembersDepth(FIRST) == 1
    ensures Fields(FIRST) == FIRST_VALUES
  {
    hide MemberText, GoodMember, MembersText, GoodMembers, MembersDepth, Fields, Value, Depth;
    NoMembers();
    Number();
    SingleQuotes();
    DoubleQuotes();
    Array();
    More([], NUMBER);
    FieldsMore([], NUMBER);
    More([] + [NUMBER], SINGLE);
    FieldsMore([] + [NUMBER], SINGLE);
    More([] + [NUMBER] + [SINGLE], DOUBLE);
    FieldsMore([] + [NUMBER] + [SINGLE], DOUBLE);
    More([] + [NUMBER] + [SINGLE] + [DOUBLE], ARRAY);
    FieldsMore([] + [NUMBER] + [SINGLE] + [DOUBLE], ARRAY);
  }

  lemma Words()
    ensures GoodMembers(WORDS_TOO) && MembersDepth(WORDS_TOO) == 1 && Fields(WORDS_TOO) == WORD_VALUES
    ensures MembersText(WORDS_TOO) == FIRST_TEXT + "t:true " + "f:false " + "n:null "
  {
    hide MemberText, GoodMember, MembersText, GoodMembers, MembersDepth, Fields, Value, FIRST_TEXT;
    var t, f, n := WordMember("t", "true"), WordMember("f", "false"), WordMember("n", "null");
    FirstMembers();
    OneWord("t", "true");
    OneWord("f", "false");
    OneWord("n", "null");
    assert FIRST[|FIRST| - 1] == ARRAY;
    More(FIRST, t);
    FieldsMore(FIRST, t);
    More(FIRST + [t], f);
    FieldsMore(FIRST + [t], f);
    More(FIRST + [t] + [f], n);
    FieldsMore(FIRST + [t] + [f], n);
    assert "t" + ":" + "true" + " " == "t:true " && "f" + ":" + "false" + " " == "f:false ";
    assert "n" + ":" + "null" + " " == "n:null ";
  }

  lemma AllMembers()
    ensures GoodMembers(WORDS_TOO + [AGAIN]) && MembersDepth(WORDS_TOO + [AGAIN]) == 1
    ensures MembersText(WORDS_TOO + [AGAIN]) == ALL_TEXT
    ensures Fields(WORDS_TOO + [AGAIN])
      == WORD_VALUES["a" := [Val(NegNum, "1", false), Val(PosNum, "2", false)]]
  {
    hide MemberText, GoodMember, MembersText, GoodMembers, MembersDepth, Fields, Value, FIRST_TEXT, FIRST;
    Words();
    Again();
    assert WORDS_TOO[|WORDS_TOO| - 1] == WordMember("n", "null");
    More(WORDS_TOO, AGAIN);
    FieldsMore(WORDS_TOO, AGAIN);
    assert [Val(NegNum, "1", false)] + [Val(PosNum, "2", false)] == [Val(NegNum, "1", false), Val(PosNum, "2", false)];
  }

  // Numbers with both signs, a fraction, both quotes, bare and quoted keys, a key
  // twice, all three words, and both comments.
  lemma Everything(tail: Gap)
    requires GoodGap(tail, true)
    ensures Gives("{" + ALL_TEXT + "}" + GapText(tail),
      Hash(WORD_VALUES["a" := [Val(NegNum, "1", false), Val(PosNum, "2", false)]]))
  {
    hide Run, Fits, GapText, GoodGap, MembersText, GoodMembers, MembersDepth, Fields, ALL_TEXT, WORD_VALUES, WORDS_TOO;
    AllMembers();
    OneGap(Blank(' '), true);
    assert "{" + "" == "{";
    SourceIsRead(SHash([], WORDS_TOO + [AGAIN]), tail);
  }
}
