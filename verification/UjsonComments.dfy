/**
  What a block comment before a value does in the parser of c/ujson.c, which goes
  on in key position behind it.
*/
module UjsonComments {
  import opened Common
  import opened Gaps
  import opened UjsonScan
  import opened UjsonSource
  import opened UjsonRoundTrip

  // A hash whose only key is a, with a gap before the value, and a gap behind it all.
  function Commented(g: Gap, v: Source, tail: Gap): string {
    "{a:" + GapText(g) + Text(v) + "}" + GapText(tail)
  }

  lemma Places(g: Gap, v: Source, tail: Gap)
    ensures
      var data, p := Commented(g, v, tail), 3 + |GapText(g)|;
      var end := p + |Text(v)|;
      && Reads(data, 1, "a" + ("" + ":")) && Reads(data, 3, GapText(g)) && Reads(data, p, Text(v))
      && end < |data| && data[end] == '}' && Reads(data, end + 1, GapText(tail))
      && end + 1 + |GapText(tail)| == |data|
  {
    hide GapText, Text;
    var data := Commented(g, v, tail);
    var p := 3 + |GapText(g)|;
    var end := p + |Text(v)|;
    assert "{a:"[1..3] == "a:" == "a" + ("" + ":");
    assert data[1..3] == "{a:"[1..3];
    assert data[3..p] == GapText(g);
    assert data[p..end] == Text(v);
    assert data[end..] == "}" + GapText(tail);
    assert data[end + 1..] == GapText(tail);
  }

  // The parser behind the gap.
  lemma Behind(g: Gap, v: Source, tail: Gap) returns (s: State)
    requires GoodGap(g, true) && Text(v) != ""
    ensures
      var data := Commented(g, v, tail);
      && Ready(data, START) && Leads(data, START, s) && s.open == START.open && s.regs.key == "a"
      && s.regs.lab == (if HasBlock(g) then InHash else AfterColon) && s.regs.pos == 3 + |GapText(g)|
  {
    hide Run, Fits, Step, Ready, GapText, GoodGap, HasBlock, Commented, Reads, Text;
    var data := Commented(g, v, tail);
    Places(g, v, tail);
    StartReady(data);
    s := ReadKey(data, START, Bare("a"), "");
    SkipGap(data, s, AtValue, g);
    s := Goto(s, if HasBlock(g) then InHash else AfterColon, s.regs.pos + |GapText(g)|);
  }

  lemma RootWith(key: string, v: Json)
    ensures
      var open := Put(START.open, key, v);
      |open| == 1 && open[0].value == Hash(map[key := [v]]) && Home(open) == InHash
  {
    assert Add(Hash(map[]), key, v) == Hash(map[key := [] + [v]]);
    assert [] + [v] == [v];
  }

  lemma ValueIsRead(g: Gap, v: Source, tail: Gap)
    requires GoodGap(g, true) && GoodGap(tail, true) && !HasBlock(g) && Good(v) && Depth(v) <= 10
    ensures Gives(Commented(g, v, tail), Hash(map["a" := [Value(v)]]))
  {
    hide Run, Fits, Step, Ready, GapText, GoodGap, HasBlock, Commented, Reads, Text, Good, Value, Put, Depth;
    var data := Commented(g, v, tail);
    NonEmptyText(v);
    Places(g, v, tail);
    StartsEmpty();
    RootWith("a", Value(v));
    var s := Behind(g, v, tail);
    s := ReadValue(data, s, v);
    RootBrace(data, s);
    EndGap(data, Goto(s, InHash, s.regs.pos + 1), tail);
  }

  predicate NumberByte(c: char) {
    Digit(c) || c == '-'
  }

  lemma {:induction false} SkipNumber(data: string, s: State, n: nat)
    requires Ready(data, s) && s.regs.lab == InHash && s.regs.pos + n <= |data|
    requires forall i :: s.regs.pos <= i < s.regs.pos + n ==> NumberByte(data[i])
    ensures Leads(data, s, Goto(s, InHash, s.regs.pos + n))
    decreases n
  {
    hide Run, Fits;
    if n > 0 {
      OneStep(data, s, Goto(s, InHash, s.regs.pos + 1));
      SkipNumber(data, Goto(s, InHash, s.regs.pos + 1), n - 1);
    }
  }

  // A whole number is passed over.
  lemma NumberIsLost(g: Gap, v: Source, tail: Gap)
    requires GoodGap(g, true) && GoodGap(tail, true) && HasBlock(g) && Good(v) && v.SNum? && AllDigits(v.digits)
    ensures Gives(Commented(g, v, tail), Hash(map[]))
  {
    hide Run, Fits, Step, Ready, GapText, GoodGap, HasBlock, Commented;
    var data := Commented(g, v, tail);
    Places(g, v, tail);
    StartsEmpty();
    var s := Behind(g, v, tail);
    ReadsEach(data, s.regs.pos, Text(v));
    forall i | 0 <= i < |Text(v)|
      ensures NumberByte(Text(v)[i])
    {
      assert Text(v)[i] == '-' || Text(v)[i] in v.digits;
    }
    SkipNumber(data, s, |Text(v)|);
    s := Goto(s, InHash, s.regs.pos + |Text(v)|);
    RootBrace(data, s);
    EndGap(data, Goto(s, InHash, s.regs.pos + 1), tail);
  }

  lemma SkipBrace(data: string, s: State)
    requires Ready(data, s) && s.regs.lab == InHash && s.regs.pos < |data| && data[s.regs.pos] == '{'
    ensures Leads(data, s, Goto(s, InHash, s.regs.pos + 1))
  {
    hide Run, Fits;
    OneStep(data, s, Step(data, s));
  }

  // The members of a hash join the outer hash.
  lemma HashSpills(g: Gap, v: Source, tail: Gap)
    requires GoodGap(g, true) && GoodGap(tail, true) && HasBlock(g) && Good(v) && v.SHash? && Depth(v) <= 10
    ensures Gives(Commented(g, v, tail), Value(v))
  {
    hide Run, Fits, Step, Ready, GapText, GoodGap, HasBlock, Commented, MembersText, GoodMembers, Fields, MembersDepth;
    var data := Commented(g, v, tail);
    Places(g, v, tail);
    StartsEmpty();
    var s := Behind(g, v, tail);
    var body := GapText(v.lead) + MembersText(v.members) + "}";
    assert Text(v) == "{" + body;
    ReadsSplit(data, s.regs.pos, "{", body);
    ReadsAt(data, s.regs.pos, "{", 0);
    SkipBrace(data, s);
    s := ReadBody(data, Goto(s, InHash, s.regs.pos + 1), v.lead, v.members);
    RootBrace(data, s);
    s := Goto(s, InHash, s.regs.pos + 1);
    RootBrace(data, s);
    EndGap(data, Goto(s, InHash, s.regs.pos + 1), tail);
  }

  // A whole number or a hash behind a gap is read as the value of its key if and
  // only if the gap has no block comment.
  lemma CommentLosesValue(g: Gap, v: Source, tail: Gap)
    requires GoodGap(g, true) && GoodGap(tail, true) && Good(v) && Depth(v) <= 10
    requires v.SHash? || (v.SNum? && AllDigits(v.digits))
    ensures Gives(Commented(g, v, tail), Hash(map["a" := [Value(v)]])) <==> !HasBlock(g)
  {
    hide Run, Fits, GapText, GoodGap, HasBlock, Commented, Text, Good, Value, AllDigits, Depth;
    if !HasBlock(g) {
      ValueIsRead(g, v, tail);
    } else if v.SHash? {
      HashSpills(g, v, tail);
      NotInside(v);
    } else {
      NumberIsLost(g, v, tail);
      assert "a" in map["a" := [Value(v)]];
    }
  }

  // No tree is inside itself: its value would come from a smaller source.
  lemma {:induction false} NotInside(v: Source)
    ensures Value(v) != Hash(map["a" := [Value(v)]])
    decreases v
  {
    if v.SHash? && Value(v) == Hash(map["a" := [Value(v)]]) {
      assert Fields(v.members) == map["a" := [Value(v)]];
      var m := FieldFrom(v.members, "a", 0);
      NotInside(m.value);
    }
  }

  lemma {:induction false} FieldFrom(members: seq<Member>, key: string, i: nat) returns (m: Member)
    requires key in Fields(members) && i < |Fields(members)[key]|
    ensures m in members && Value(m.value) == Fields(members)[key][i]
    decreases |members|
  {
    var front, last := members[..|members| - 1], members[|members| - 1];
    if key in Fields(front) && i < |Fields(front)[key]| {
      m := FieldFrom(front, key, i);
    } else {
      m := last;
    }
  }

  // The two smallest inputs.
  lemma BlockCommentInValue()
    ensures Gives("{a:/**/1}", Hash(map[]))
    ensures Gives("{a:/**/{b:1}}", Hash(map["b" := [NumVal(false, "1")]]))
  {
    hide Gives, GapText, HasBlock, Commented, Text, Good, Value, GoodGap, Depth;
    var g := [BlockComment("")];
    EmptyBlock();
    var n := One();
    NumberIsLost(g, n, []);
    SmallText(g, n);
    assert "{a:" + "/**/" + "1" + "}" == "{a:/**/1}";
    var v := OneSmall();
    HashSpills(g, v, []);
    SmallText(g, v);
    assert "{a:" + "/**/" + "{b:1}" + "}" == "{a:/**/{b:1}}";
  }

  lemma One() returns (v: Source)
    ensures v == SNum(false, "1") && Good(v) && AllDigits(v.digits) && Text(v) == "1"
  {
    v := SNum(false, "1");
    assert Text(v) == "" + "1";
  }

  lemma SmallText(g: Gap, v: Source)
    ensures Commented(g, v, []) == "{a:" + GapText(g) + Text(v) + "}"
  {
    hide Text;
    EmptyGap();
  }

  lemma EmptyBlock()
    ensures
      var g := [BlockComment("")];
      GapText(g) == "/**/" && HasBlock(g) && GoodGap(g, true) && GapText([]) == "" && GoodGap([], true)
  {
    var g := [BlockComment("")];
    assert g[0].BlockComment?;
    assert g[..0] == [];
    assert GapText(g) == "" + ("/*" + "" + "*/");
  }

  lemma OneSmall() returns (v: Source)
    ensures v.SHash? && Good(v) && Text(v) == "{b:1}" && Depth(v) == 0
    ensures Value(v) == Hash(map["b" := [NumVal(false, "1")]])
  {
    var n := One();
    var m := Member(Bare("b"), "", [], n, []);
    v := SHash([], [m]);
    OneMemberText(m);
    OneMemberValue(m);
    EmptyGap();
    assert "{" + "" + "b:1" + "}" == "{b:1}";
  }

  lemma OneMemberText(m: Member)
    requires m == Member(Bare("b"), "", [], SNum(false, "1"), [])
    ensures MembersText([m]) == "b:1" && GoodMembers([m]) && MembersDepth([m]) == 0
  {
    assert [m][..0] == [];
    assert GoodMembers([m][..0]) && MembersText([m][..0]) == "" && MembersDepth([m][..0]) == 0;
    EmptyGap();
    assert Text(m.value) == "" + "1" == "1";
    assert MemberText(m) == "b" + "" + ":" + "" + "1" + "" == "b:1";
    assert MembersText([m]) == "" + "b:1";
  }

  lemma OneMemberValue(m: Member)
    requires m == Member(Bare("b"), "", [], SNum(false, "1"), [])
    ensures Fields([m]) == map["b" := [NumVal(false, "1")]]
  {
    assert [m][..0] == [];
    var v := NumVal(false, "1");
    assert Add(Hash(map[]), "b", v) == Hash(map["b" := [] + [v]]);
    assert [] + [v] == [v];
  }
}
