/**
  What a block comment before a value does in the parser of go/ujsonin.go, which
  goes on in key position behind it.
*/
module GoComments {
  import opened Common
  import opened Gaps
  import opened GoParse
  import opened GoSource
  import opened GoRoundTrip
  import opened GoKeys

  // A hash whose only key is a, with a gap before the value.
  function Commented(g: Gap, v: Source): string {
    "{a:" + GapText(g) + Text(v) + "}"
  }

  lemma Places(g: Gap, v: Source, rest: string)
    ensures
      var data, p := Commented(g, v) + rest, 3 + |GapText(g)|;
      var end := p + |Text(v)|;
      && data[0] == '{' && Reads(data, 1, "a" + ("" + ":")) && Reads(data, 3, GapText(g)) && Reads(data, p, Text(v))
      && |Commented(g, v)| == end + 1 && end < |data| && data[end] == '}' && data[end + 1..] == rest
      && data[end..] == "}" + rest
  {
    hide GapText, Text;
    var data := Commented(g, v) + rest;
    var p := 3 + |GapText(g)|;
    assert "{a:"[1..3] == "a:" == "a" + ("" + ":");
    assert data[1..3] == "{a:"[1..3];
    assert data[3..p] == GapText(g);
    assert data[p..p + |Text(v)|] == Text(v);
    assert data[p + |Text(v)|..] == "}" + rest;
  }

  // The parser behind the gap.
  lemma Behind(g: Gap, v: Source, rest: string) returns (s: State)
    requires GoodGap(g, true) && Text(v) != ""
    ensures
      var data := Commented(g, v) + rest;
      && Sane(data, s) && Run(data, false, START) == Run(data, false, s)
      && s.lab == (if HasBlock(g) then InHash else AfterColon) && s.pos == 3 + |GapText(g)|
      && s.open == [Frame(Hash(map[]), "")] && s.key == "a"
  {
    hide Run, Step, GapText, GoodGap, HasBlock, Commented, Reads, Text;
    var data := Commented(g, v) + rest;
    Places(g, v, rest);
    s := EnterRoot(data, false, START);
    s := ReadKey(data, false, s, Bare("a"), "");
    SkipValueGap(data, false, s, g);
    s := Goto(s, if HasBlock(g) then InHash else AfterColon, s.pos + |GapText(g)|);
  }

  // ----- without a block comment

  lemma ValueIsRead(g: Gap, v: Source, rest: string)
    requires GoodGap(g, true) && !HasBlock(g) && Good(v)
    ensures Delivers(Commented(g, v) + rest, Hash(map["a" := Value(v)]), rest)
  {
    hide Run, Step, Sane, GapText, GoodGap, HasBlock, Commented, Reads, Text, Good, Value;
    var data := Commented(g, v) + rest;
    NonEmptyText(v);
    Places(g, v, rest);
    var s := Behind(g, v, rest);
    s := ReadValue(data, false, s, v);
    StepBack(data, false, s);
    s := LeaveRoot(data, false, Goto(s, InHash, s.pos));
    Halts(data, false, s);
  }

  // ----- with one: numbers and words

  predicate NumberByte(c: char) {
    Digit(c) || c == '-' || c == '.'
  }

  lemma {:induction false} SkipNumber(data: string, s: State, n: nat)
    requires Sane(data, s) && s.lab == InHash && s.pos + n <= |data|
    requires forall i :: s.pos <= i < s.pos + n ==> NumberByte(data[i])
    ensures Leads(data, false, s, Goto(s, InHash, s.pos + n))
    decreases n
  {
    hide Run, Sane;
    if n > 0 {
      OneStep(data, false, s, Goto(s, InHash, s.pos + 1));
      SkipNumber(data, Goto(s, InHash, s.pos + 1), n - 1);
    }
  }

  lemma NumberText(v: Source)
    requires Good(v) && (v.SNum? || v.SFrac?) && AllDigits(v.digits)
    ensures forall i :: 0 <= i < |Text(v)| ==> NumberByte(Text(v)[i])
  {
    forall i | 0 <= i < |v.digits|
      ensures Digit(v.digits[i])
    {
      assert v.digits[i] in v.digits;
    }
    if v.SFrac? {
      forall i | 0 <= i < |v.fraction|
        ensures Digit(v.fraction[i])
      {
        assert v.fraction[i] in v.fraction;
      }
    }
  }

  // A number is passed over.
  lemma NumberIsLost(g: Gap, v: Source, rest: string)
    requires GoodGap(g, true) && HasBlock(g) && Good(v) && (v.SNum? || v.SFrac?) && AllDigits(v.digits)
    ensures Delivers(Commented(g, v) + rest, Hash(map[]), rest)
  {
    hide Run, Step, Sane, GapText, GoodGap, HasBlock, Commented, Text, Good, AllDigits;
    var data := Commented(g, v) + rest;
    NonEmptyText(v);
    Places(g, v, rest);
    NumberText(v);
    var s := Behind(g, v, rest);
    ReadsEach(data, s.pos, Text(v));
    SkipNumber(data, s, |Text(v)|);
    s := LeaveRoot(data, false, Goto(s, InHash, s.pos + |Text(v)|));
    Halts(data, false, s);
  }

  // A word begins a key, which does not even end at the closing brace.
  lemma WordRunsOn(g: Gap, word: string, rest: string)
    requires GoodGap(g, true) && HasBlock(g) && IsWord(word)
    ensures
      var data := Commented(g, SWord(word)) + rest;
      Beyond(data, Run(data, false, START), |Commented(g, SWord(word))| + 1)
      || Run(data, false, START).lab == OverEnd
  {
    hide Run, Step, Sane, GapText, GoodGap, HasBlock, Commented, IsWord;
    var v := SWord(word);
    var data := Commented(g, v) + rest;
    LowerWord(word);
    Places(g, v, rest);
    var s := Behind(g, v, rest);
    assert word + "}" == word + ("" + "}");
    ReadsEach(data, s.pos, word);
    forall c | c in word[1..]
      ensures c != ':' && c != ' ' && c != '\t'
    {
      var i :| 0 <= i < |word[1..]| && word[1..][i] == c;
      assert Lower(word[1 + i]);
    }
    s := ReadBare(data, false, s, word);
    ScanBare(data, false, s, 1);
    EndsLater(data, Goto(s, KeyNameX, s.pos + 1));
  }

  lemma EndsLater(data: string, s: State)
    requires Sane(data, s) && s.lab == KeyNameX
    ensures Beyond(data, Run(data, false, s), s.pos + 1) || Run(data, false, s).lab == OverEnd
  {
    hide Run;
    var t := Step(data, false, s);
    OneStep(data, false, s, t);
    if s.pos >= |data| {
      Halts(data, false, t);
    } else {
      EndsBeyond(data, t, s.pos + 1);
    }
  }

  // ----- with one: hashes

  lemma SkipBracket(data: string, s: State)
    requires Sane(data, s) && s.lab == InHash && s.pos < |data| && data[s.pos] in {'{', '[', ']'}
    ensures Leads(data, false, s, Goto(s, InHash, s.pos + 1))
  {
    hide Run, Sane;
    OneStep(data, false, s, Goto(s, InHash, s.pos + 1));
  }

  // The members of a hash join the outer hash, which ends with it.
  lemma HashSpills(g: Gap, v: Source, rest: string)
    requires GoodGap(g, true) && HasBlock(g) && Good(v) && v.SHash?
    ensures Delivers(Commented(g, v) + rest, Value(v), "}" + rest)
  {
    hide Run, Step, Sane, GapText, GoodGap, HasBlock, Commented, MembersText, GoodMembers, Fields;
    var data := Commented(g, v) + rest;
    Places(g, v, rest);
    var s := Behind(g, v, rest);
    var body := GapText(v.lead) + MembersText(v.members) + "}";
    assert Text(v) == "{" + body;
    ReadsSplit(data, s.pos, "{", body);
    ReadsAt(data, s.pos, "{", 0);
    SkipBracket(data, s);
    s := ReadBody(data, false, Goto(s, InHash, s.pos + 1), v.lead, v.members);
    s := LeaveRoot(data, false, s);
    Halts(data, false, s);
  }

  // ----- the exact condition

  predicate NumberWordOrHash(v: Source) {
    v.SHash? || v.SWord? || ((v.SNum? || v.SFrac?) && AllDigits(v.digits))
  }

  // A number, a word or a hash behind a gap is read as the value of its key if
  // and only if the gap has no block comment.
  lemma CommentLosesValue(g: Gap, v: Source, rest: string)
    requires GoodGap(g, true) && Good(v) && NumberWordOrHash(v)
    ensures Delivers(Commented(g, v) + rest, Hash(map["a" := Value(v)]), rest) <==> !HasBlock(g)
  {
    hide Run, GapText, GoodGap, HasBlock, Commented, Text, Good, Value, AllDigits, IsWord;
    if !HasBlock(g) {
      ValueIsRead(g, v, rest);
    } else if v.SHash? {
      HashSpills(g, v, rest);
    } else if v.SWord? {
      GoodWord(v);
      WordRunsOn(g, v.word, rest);
      Places(g, v, rest);
    } else {
      NumberIsLost(g, v, rest);
      assert "a" in map["a" := Value(v)];
    }
  }

  lemma GoodWord(v: Source)
    requires Good(v) && v.SWord?
    ensures IsWord(v.word)
  {
  }

  // The two smallest inputs.
  lemma BlockCommentInValue(rest: string)
    ensures Delivers("{a:/**/1}" + rest, Hash(map[]), rest)
    ensures Delivers("{a:/**/{b:1}}" + rest, Hash(map["b" := Val(Pos, "1")]), "}" + rest)
  {
    hide Delivers, GapText, GoodGap, HasBlock, Text, Good, Value;
    var g, one := [BlockComment("")], SNum(false, "1");
    EmptyBlock();
    OneIs();
    NumberIsLost(g, one, rest);
    assert Commented(g, one) == "{a:/**/1}";
    var v := OneSmall();
    HashSpills(g, v, rest);
    assert Commented(g, v) == "{a:/**/{b:1}}";
  }

  lemma OneIs()
    ensures Good(SNum(false, "1")) && Text(SNum(false, "1")) == "1"
  {
  }

  lemma EmptyBlock()
    ensures
      var g := [BlockComment("")];
      GapText(g) == "/**/" && HasBlock(g) && GoodGap(g, true) && GapText([]) == ""
  {
    var g := [BlockComment("")];
    assert g[0].BlockComment?;
    assert g[..0] == [];
    assert GapText(g) == "" + ("/*" + "" + "*/");
  }

  lemma OneSmall() returns (v: Source)
    ensures v.SHash? && Good(v) && Text(v) == "{b:1}" && Value(v) == Hash(map["b" := Val(Pos, "1")])
  {
    var m := Member(Bare("b"), "", [], SNum(false, "1"), []);
    v := SHash([], [m]);
    assert [m][..0] == [];
    assert GoodMembers([m][..0]) && Fields(map[], [m][..0]) == map[] && MembersText([m][..0]) == "";
    assert GapText([]) == "";
    assert Text(SNum(false, "1")) == "" + "1" == "1";
    assert MemberText(m) == "b" + "" + ":" + "" + "1" + "" == "b:1";
    assert MembersText([m]) == "" + "b:1";
    assert Good(SNum(false, "1"));
    assert Fields(map[], [m]) == map["b" := Value(SNum(false, "1"))];
  }

  // ----- an array may be read all the same

  function OneX(after: Gap): Source {
    SArr([], [Item(SStr('"', "x"), after)])
  }

  lemma OneXIs(after: Gap)
    requires GoodGap(after, false)
    ensures Good(OneX(after)) && Text(OneX(after)) == "[\"x\"" + GapText(after) + "]"
    ensures Value(OneX(after)) == Arr([Val(Str, "x")])
  {
    hide GapText, GoodGap;
    var items := [Item(SStr('"', "x"), after)];
    assert items[..0] == [];
    assert ItemsText([]) == "" && Items([]) == [];
    assert GoodItems(items[..0]) && Good(SStr('"', "x"));
    EmptyGap();
    assert Escaped("x", '"') == "x" && Paired("x", '"');
    assert Text(SStr('"', "x")) == "\"" + "x" + "\"";
    assert ItemsText(items) == "" + "\"x\"" + GapText(after);
    assert Items(items) == [] + [Val(Str, "x")];
    assert Text(OneX(after)) == "[" + "" + ("" + "\"x\"" + GapText(after)) + "]";
    NoGapIsGood();
  }

  lemma NoGapIsGood()
    ensures GoodGap([], false) && GoodGap([], true)
  {
  }

  const REPEATED: Gap := [LineComment(": /**/a:[\"x\"]", '\n')]

  lemma RepeatedGap()
    ensures GoodGap(REPEATED, false) && GapText(REPEATED) == "//: /**/a:[\"x\"]\n"
  {
    assert REPEATED[..0] == [];
    EmptyGap();
    assert GapText(REPEATED) == "" + ("//" + ": /**/a:[\"x\"]" + "\n");
  }

  lemma RepeatedText()
    ensures Commented([BlockComment("")], OneX(REPEATED)) == "{a:/**/[\"x\"//: /**/a:[\"x\"]\n]}"
  {
    hide GapText, Text, GoodGap;
    RepeatedGap();
    OneXIs(REPEATED);
    EmptyBlock();
    var text := "[\"x\"" + "//: /**/a:[\"x\"]\n" + "]";
    assert "{a:" + "/**/" + text + "}" == "{a:/**/[\"x\"//: /**/a:[\"x\"]\n]}";
  }

  // From behind the first comment: the bracket is passed over, the string is a
  // key, and the line comment is no comment.
  lemma ReadRepeated(data: string, s: State, rest: string) returns (t: State)
    requires data == "{a:/**/[\"x\"//: /**/a:[\"x\"]\n]}" + rest
    requires Sane(data, s) && s.lab == InHash && s.pos == 7 && s.open == [Frame(Hash(map[]), "")]
    ensures Leads(data, false, s, t) && t.lab == InHash && t.pos == 19 && t.open == s.open
  {
    hide Run, Step, Sane, GapText;
    SkipBracket(data, s);
    assert KeyText(Quoted('"', "x")) + ("//" + ":") == "\"x\"//:";
    var text := "{a:/**/[\"x\"//: /**/a:[\"x\"]\n]}";
    assert data[8..14] == text[8..14] == "\"x\"//:";
    t := ReadKey(data, false, Goto(s, InHash, 8), Quoted('"', "x"), "//");
    var g := [Blank(' '), BlockComment("")];
    SpaceBlock();
    assert data[14..19] == text[14..19] == " /**/";
    SkipValueGap(data, false, t, g);
    t := Goto(t, InHash, 19);
  }

  lemma SpaceBlock()
    ensures
      var g := [Blank(' '), BlockComment("")];
      GapText(g) == " /**/" && HasBlock(g) && GoodGap(g, true)
  {
    var g := [Blank(' '), BlockComment("")];
    assert g[1].BlockComment?;
    assert g[..1] == [Blank(' ')] && g[..1][..0] == [];
    EmptyGap();
    assert GapText(g[..1]) == "" + " ";
    assert GapText(g) == GapText(g[..1]) + ("/*" + "" + "*/");
  }

  lemma RepeatedMember() returns (m: Member)
    ensures GoodMember(m) && MemberText(m) == "a:[\"x\"]\n" && m.after != []
    ensures m.key.text == "a" && Value(m.value) == Arr([Val(Str, "x")])
  {
    NoGapIsGood();
    OneXIs([]);
    EmptyGap();
    m := Member(Bare("a"), "", [], OneX([]), [Blank('\n')]);
    assert m.after[..0] == [];
    assert GapText(m.after) == "" + "\n";
    assert Text(m.value) == "[\"x\"]";
    assert MemberText(m) == "a" + "" + ":" + "" + "[\"x\"]" + "\n";
  }

  lemma IsThere(data: string, pos: nat, text: string)
    requires pos + |text| <= |data| && data[pos..pos + |text|] == text
    ensures Reads(data, pos, text)
  {
  }

  // Of an array the condition says too much: what is meant to be inside is read as
  // keys and values, and here it repeats the array.
  lemma RepeatedInComment(rest: string)
    ensures
      var v := OneX(REPEATED);
      Good(v) && Delivers(Commented([BlockComment("")], v) + rest, Hash(map["a" := Value(v)]), rest)
  {
    hide Run, Step, Sane, GapText, GoodGap, Commented, Text, Good, Value, MemberText, GoodMember, Reads;
    RepeatedText();
    RepeatedGap();
    OneXIs(REPEATED);
    EmptyBlock();
    var g, v := [BlockComment("")], OneX(REPEATED);
    var data := Commented(g, v) + rest;
    assert data == "{a:/**/[\"x\"//: /**/a:[\"x\"]\n]}" + rest;
    var s := Behind(g, v, rest);
    s := ReadRepeated(data, s, rest);
    var m := RepeatedMember();
    assert data[19..27] == "a:[\"x\"]\n";
    IsThere(data, 19, "a:[\"x\"]\n");
    s := ReadMember(data, false, s, m);
    SkipBracket(data, s);
    s := LeaveRoot(data, false, Goto(s, InHash, 28));
    Halts(data, false, s);
    assert data[29..] == rest;
  }
}
