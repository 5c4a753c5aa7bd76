/**
  Which keys in quotes the parser of go/ujsonin.go reads as they are written: it
  knows no escapes in keys, and does not look at the first byte of a key.
*/
module GoKeys {
  import opened Common
  import opened Gaps
  import opened GoParse
  import opened GoSource
  import opened GoRoundTrip

  predicate HasTrue(v: Json, k: string) {
    v.Hash? && k in v.fields && v.fields[k] == Val(True, "")
  }

  predicate Containers(open: seq<Frame>) {
    forall i :: 0 <= i < |open| ==> !open[i].value.Val?
  }

  lemma PutTrue(open: seq<Frame>, key: string, child: Json, k: string)
    requires open != [] && Containers(open)
    ensures Containers(Put(open, key, child)) && |Put(open, key, child)| == |open|
    ensures HasTrue(Put(open, key, child)[0].value, k) ==>
      HasTrue(open[0].value, k) || (key == k && child == Val(True, ""))
  {
  }

  lemma PopTrue(open: seq<Frame>, k: string)
    requires |open| > 1 && Containers(open)
    ensures Containers(Pop(open)) && Pop(open) != []
    ensures HasTrue(Pop(open)[0].value, k) ==> HasTrue(open[0].value, k)
  {
    hide Put, HasTrue;
    var top := open[|open| - 1];
    PutTrue(open[..|open| - 1], top.key, top.value, k);
  }

  lemma PushTrue(open: seq<Frame>, key: string)
    requires open != [] && Containers(open)
    ensures Containers(Push(open, key, Hash(map[]))) && Containers(Push(open, key, Arr([])))
    ensures Push(open, key, Hash(map[])) != [] && Push(open, key, Arr([])) != []
    ensures Push(open, key, Hash(map[]))[0] == Push(open, key, Arr([]))[0] == open[0]
  {
  }

  // ----- a key read later ends later

  // Once the place of the key has been read as another key, the key k and a
  // value for it take more of the input than there is up to the closing brace.
  predicate Late(data: string, s: State, k: string) {
    && Sane(data, s) && s.pos >= 4
    && (s.key == k ==> s.pos >= |k| + 5)
    && (s.lab == TypeX && s.key == k ==> s.typeStart >= |k| + 5)
    && (s.lab in {QKeyNameX, KeyNameX} ==> s.keyStart >= 4)
    && Containers(s.open)
    && if s.lab == Done then s.root.Some? && (HasTrue(s.root.value, k) ==> |s.remainder| + |k| + 10 <= |data|)
       else s.lab in {OverEnd, BadType} || LateRoot(s, k)
  }

  predicate LateRoot(s: State, k: string) {
    && s.open != [] && !OutsideRoot(s.lab)
    && (HasTrue(s.open[0].value, k) ==> s.pos >= |k| + 9)
  }

  lemma LateInHash(data: string, s: State, k: string)
    requires Late(data, s, k) && s.lab == InHash
    ensures Late(data, StepHash(data, false, s), k)
  {
    hide Forward, KeyLetter, Put, Pop, HasTrue, Containers;
    if |s.open| > 1 {
      PopTrue(s.open, k);
    }
    NoneOpen();
  }

  lemma LateBracket(data: string, r: State, c: char, k: string)
    requires Late(data, r, k) && r.lab == AfterColon && (HasTrue(r.open[0].value, k) ==> r.pos >= |k| + 10)
    ensures Late(data, Bracket(data, r, c), k)
  {
    hide Pop, Push, HasTrue, Containers;
    if |r.open| > 1 {
      PopTrue(r.open, k);
    }
    PushTrue(r.open, r.key);
    NoneOpen();
  }

  lemma LateStart(data: string, r: State, c: char, k: string)
    requires Late(data, r, k) && r.lab == AfterColon && r.pos > 0 && (r.key == k ==> r.pos >= |k| + 6)
    ensures Late(data, ScalarStart(r, c), k)
  {
    hide HasTrue, Containers, Lower, Digit;
  }

  lemma LateAfterColon(data: string, s: State, k: string)
    requires Late(data, s, k) && s.lab == AfterColon
    ensures Late(data, StepAfterColon(data, s), k)
  {
    hide Forward, Lower, Digit, Bracket, ScalarStart, HasTrue, Containers;
    if s.pos < |data| {
      LateStart(data, s.(pos := s.pos + 1), data[s.pos], k);
      LateBracket(data, s.(pos := s.pos + 1), data[s.pos], k);
    }
  }

  lemma NoneOpen()
    ensures Containers([])
  {
  }

  // A scalar that is no word.
  lemma PutLate(data: string, s: State, v: Json, k: string)
    requires Late(data, s, k) && LateRoot(s, k) && v != Val(True, "")
    ensures Containers(Put(s.open, s.key, v)) && |Put(s.open, s.key, v)| == |s.open|
    ensures HasTrue(Put(s.open, s.key, v)[0].value, k) ==> s.pos >= |k| + 9
  {
    hide Put, HasTrue, Containers;
    PutTrue(s.open, s.key, v, k);
  }

  lemma LateNumber(data: string, s: State, k: string)
    requires Late(data, s, k) && s.lab in {Number1, NumberX, AfterDot}
    ensures Late(data, Step(data, false, s), k)
  {
    hide Forward, Digit, Put, HasTrue, Containers;
    if s.lab != Number1 && s.pos <= |data| {
      var text := data[s.strStart..s.pos];
      PutLate(data, s, Val(Pos, text), k);
      PutLate(data, s, Val(Neg, text), k);
      PutLate(data, s, Val(FloatPos, text), k);
      PutLate(data, s, Val(FloatNeg, text), k);
    }
  }

  lemma LateString(data: string, s: State, k: string)
    requires Late(data, s, k) && s.lab == StringX
    ensures Late(data, StepStringX(data, s), k)
  {
    hide Forward, Put, HasTrue, Containers;
    PutLate(data, s, Val(Str, s.str + data[s.substrStart..s.pos]), k);
  }

  lemma LateStringStart(data: string, s: State, k: string)
    requires Late(data, s, k) && s.lab in {String1, Escape}
    ensures Late(data, Step(data, false, s), k)
  {
    hide Forward, Put, HasTrue, Containers;
    PutLate(data, s, Val(Str, ""), k);
  }

  lemma LateWord(data: string, s: State, k: string)
    requires Late(data, s, k) && s.lab == TypeX
    ensures Late(data, StepType(data, s), k)
  {
    hide Forward, Digit, Lower, Put, HasTrue, Containers;
    forall kind
      ensures Containers(Put(s.open, s.key, Val(kind, ""))) && |Put(s.open, s.key, Val(kind, ""))| == |s.open|
      ensures HasTrue(Put(s.open, s.key, Val(kind, ""))[0].value, k) ==>
        HasTrue(s.open[0].value, k) || (s.key == k && kind == True)
    {
      PutTrue(s.open, s.key, Val(kind, ""), k);
    }
  }

  lemma LateKey(data: string, s: State, k: string)
    requires Late(data, s, k) && s.lab in {QKeyName1, QKeyNameX, KeyName1, KeyNameX, Colon}
    ensures Late(data, Step(data, false, s), k)
  {
    hide Forward, HasTrue, Containers;
  }

  lemma LateElsewhere(data: string, s: State, k: string)
    requires Late(data, s, k) && s.lab in {HashComment, HashComment2, AcComment, AcComment2, HashOrAfterColon}
    ensures Late(data, Step(data, false, s), k)
  {
    hide Forward, HasTrue, Containers;
  }

  lemma StaysLate(data: string, s: State, k: string)
    requires Late(data, s, k) && !Halted(s)
    ensures Late(data, Step(data, false, s), k)
  {
    hide Sane, StepHash, StepAfterColon, StepType, StepStringX;
    if s.lab == InHash {
      LateInHash(data, s, k);
    } else if s.lab == AfterColon {
      LateAfterColon(data, s, k);
    } else if s.lab == TypeX {
      LateWord(data, s, k);
    } else if s.lab in {Number1, NumberX, AfterDot} {
      LateNumber(data, s, k);
    } else if s.lab == StringX {
      LateString(data, s, k);
    } else if s.lab in {String1, Escape} {
      LateStringStart(data, s, k);
    } else if s.lab in {QKeyName1, QKeyNameX, KeyName1, KeyNameX, Colon} {
      LateKey(data, s, k);
    } else {
      LateElsewhere(data, s, k);
    }
  }

  lemma {:induction false} EndsLate(data: string, s: State, k: string)
    requires Late(data, s, k)
    ensures Late(data, Run(data, false, s), k)
    decreases Measure(data, s)
  {
    hide Step, Late;
    LateSane(data, s, k);
    if !Halted(s) {
      StaysLate(data, s, k);
      EndsLate(data, Step(data, false, s), k);
    }
  }

  lemma LateSane(data: string, s: State, k: string)
    requires Late(data, s, k)
    ensures Sane(data, s)
  {
  }

  // ----- the exact condition

  // A hash whose only key is k, with the value true.
  function OneKey(q: char, k: string): string {
    "{" + ([q] + (k + ([q] + ":true}")))
  }

  function OneMember(q: char, k: string, skip: string): Source {
    SHash([], [Member(Quoted(q, k), skip, [], SWord("true"), [])])
  }

  lemma OneMemberParts(q: char, k: string, skip: string)
    ensures Value(OneMember(q, k, skip)) == Hash(map[k := Val(True, "")])
    ensures Text(OneMember(q, k, skip)) == "{" + ([q] + (k + ([q] + skip + ":true}")))
    ensures (q == '"' || q == '\'') && GoodKey(Quoted(q, k), skip) ==> Good(OneMember(q, k, skip))
  {
    var m := Member(Quoted(q, k), skip, [], SWord("true"), []);
    assert [m][..0] == [];
    assert Fields(map[], []) == map[] && MembersText([]) == "" && GapText([]) == "";
    assert Fields(map[], [m]) == map[k := Val(True, "")];
    assert MembersText([m]) == "" + MemberText(m);
    assert MemberText(m) == [q] + k + [q] + skip + ":" + "" + "true" + "";
    assert "{" + "" + ("" + MemberText(m)) + "}" == "{" + ([q] + (k + ([q] + skip + ":true}")));
    assert GoodMembers([m][..0]);
    assert Good(SWord("true"));
  }

  // In key position, behind the opening quote, the first byte passed.
  lemma OpenKey(q: char, k: string, rest: string) returns (t: State)
    requires q == '"' || q == '\''
    ensures
      var data := OneKey(q, k) + rest;
      && Sane(data, t) && Run(data, false, START) == Run(data, false, t)
      && t.lab == QKeyNameX && t.pos == 3 && t.keyStart == 2 && t.endc == q && t.key == ""
      && t.open == [Frame(Hash(map[]), "")]
  {
    hide Run;
    var data := OneKey(q, k) + rest;
    assert data[0] == '{' && data[1] == q;
    var t1 := Step(data, false, START);
    OneStep(data, false, START, t1);
    var t2 := Step(data, false, t1);
    OneStep(data, false, t1, t2);
    t := Step(data, false, t2);
    OneStep(data, false, t2, t);
  }

  // Everything is further on than the text of the hash.
  predicate Beyond(data: string, s: State, n: nat) {
    && Sane(data, s) && s.pos >= n && (s.lab == Done ==> |s.remainder| + n <= |data|)
    && (OutsideRoot(s.lab) ==> Halted(s))
  }

  lemma StaysBeyond(data: string, s: State, n: nat)
    requires Beyond(data, s, n) && !Halted(s)
    ensures Beyond(data, Step(data, false, s), n)
  {
    hide Step, Beyond;
    if s.lab == InHash {
      BeyondInHash(data, s, n);
    } else if s.lab == AfterColon {
      BeyondAfterColon(data, s, n);
    } else {
      BeyondElsewhere(data, s, n);
    }
  }

  lemma BeyondInHash(data: string, s: State, n: nat)
    requires Beyond(data, s, n) && s.lab == InHash
    ensures Beyond(data, Step(data, false, s), n)
  {
    hide Step, Pop, KeyLetter;
    StepParts(data, false, s);
    StepSane(data, false, s);
  }

  lemma BeyondAfterColon(data: string, s: State, n: nat)
    requires Beyond(data, s, n) && s.lab == AfterColon
    ensures Beyond(data, Step(data, false, s), n)
  {
    hide Step, Push, Pop, Lower, Digit;
    StepParts(data, false, s);
    StepSane(data, false, s);
  }

  lemma BeyondElsewhere(data: string, s: State, n: nat)
    requires Beyond(data, s, n) && !Halted(s) && s.lab !in {InHash, AfterColon}
    ensures Beyond(data, Step(data, false, s), n)
  {
    hide Put, KeyLetter, Lower, Digit, Newline;
  }

  lemma {:induction false} EndsBeyond(data: string, s: State, n: nat)
    requires Beyond(data, s, n)
    ensures Beyond(data, Run(data, false, s), n)
    decreases Measure(data, s)
  {
    hide Step;
    if !Halted(s) {
      StaysBeyond(data, s, n);
      EndsBeyond(data, Step(data, false, s), n);
    }
  }

  lemma EmptyKeyFails(q: char, rest: string)
    requires q == '"' || q == '\''
    ensures !Delivers(OneKey(q, "") + rest, Hash(map["" := Val(True, "")]), rest)
  {
    hide Run, Sane;
    var data := OneKey(q, "") + rest;
    var t := OpenKey(q, "", rest);
    assert data[3..9] == ":true}";
    forall i | 3 <= i < 9
      ensures data[i] != q
    {
      assert data[i] == ":true}"[i - 3];
    }
    ScanQuoted(data, false, t, 6);
    var t' := Goto(t, QKeyNameX, 9);
    var u := Step(data, false, t');
    OneStep(data, false, t', u);
    if |data| == 9 {
      Halts(data, false, u);
    } else {
      EndsBeyond(data, u, 10);
    }
  }

  // The place of the first such quote behind the first byte.
  lemma FirstQuote(q: char, k: string) returns (n: nat)
    requires k != "" && q in k[1..]
    ensures 0 < n < |k| && k[n] == q && q !in k[1..n]
  {
    n := 1;
    while k[n] != q
      invariant 0 < n < |k| && q !in k[1..n] && q in k[n..]
      decreases |k| - n
    {
      n := n + 1;
    }
  }

  // The key ends at that quote.
  lemma CutKey(data: string, s: State, k: string, n: nat) returns (t: State)
    requires Sane(data, s) && s.lab == QKeyNameX && s.pos == 3 && s.keyStart == 2 && Reads(data, 2, k)
    requires 0 < n < |k| && k[n] == s.endc && s.endc !in k[1..n]
    ensures Sane(data, t) && Run(data, false, s) == Run(data, false, t)
    ensures t == s.(lab := Colon, key := k[..n], pos := n + 3)
  {
    hide Run, Sane, Step;
    ReadsEach(data, 2, k);
    forall i | 3 <= i < 2 + n
      ensures data[i] != s.endc
    {
      assert data[i] == k[i - 2] == k[1..n][i - 3];
    }
    ScanQuoted(data, false, s, n - 1);
    assert data[2..2 + n] == k[..n] by { assert data[2..2 + |k|][..n] == data[2..2 + n]; }
    EndQuoted(data, false, Goto(s, QKeyNameX, 2 + n), k[..n]);
    t := s.(lab := Colon, key := k[..n], pos := n + 3);
  }

  lemma CutKeyFails(q: char, k: string, rest: string)
    requires (q == '"' || q == '\'') && k != "" && q in k[1..]
    ensures !Delivers(OneKey(q, k) + rest, Hash(map[k := Val(True, "")]), rest)
  {
    hide Run, Sane, Reads;
    var data := OneKey(q, k) + rest;
    var t := OpenKey(q, k, rest);
    var n := FirstQuote(q, k);
    KeyPlace(q, k, rest);
    var u := CutKey(data, t, k, n);
    LateFirst(data, u, k);
    EndsLate(data, u, k);
  }

  lemma KeyPlace(q: char, k: string, rest: string)
    ensures Reads(OneKey(q, k) + rest, 2, k) && |OneKey(q, k)| == |k| + 9
  {
    var data := OneKey(q, k) + rest;
    assert data == ("{" + [q]) + (k + ([q] + ":true}" + rest));
    assert data[2..] == k + ([q] + ":true}" + rest);
  }

  lemma LateFirst(data: string, s: State, k: string)
    requires Sane(data, s) && s.lab == Colon && s.pos >= 4 && s.key != k && s.open == [Frame(Hash(map[]), "")]
    ensures Late(data, s, k)
  {
  }

  // A key in quotes is read as it was written if and only if it is not empty
  // and has no such quote behind its first byte.
  lemma KeySurvives(q: char, k: string, rest: string)
    requires q == '"' || q == '\''
    ensures Delivers(OneKey(q, k) + rest, Hash(map[k := Val(True, "")]), rest) <==> k != "" && q !in k[1..]
  {
    hide Delivers, Good, Text, Value;
    if k == "" {
      EmptyKeyFails(q, rest);
    } else if q in k[1..] {
      CutKeyFails(q, k, rest);
    } else {
      OneMemberParts(q, k, "");
      assert [q] + "" == [q];
      ReadsBack([], OneMember(q, k, ""), rest);
      EmptyGap();
      assert "" + OneKey(q, k) + rest == OneKey(q, k) + rest;
    }
  }

  // An escaped quote is no part of a key: the key ends there, with the
  // backslash, and what is left of it is skipped.
  lemma EscapedQuoteEndsKey(rest: string)
    ensures !Delivers("{\"a\\\"b\":true}" + rest, Hash(map["a\\\"b" := Val(True, "")]), rest)
    ensures Delivers("{\"a\\\"b\":true}" + rest, Hash(map["a\\" := Val(True, "")]), rest)
  {
    hide Delivers, Good, Text, Value;
    var k := "a\\\"b";
    assert k[1..][1] == '"';
    KeySurvives('"', k, rest);
    assert OneKey('"', k) == "{\"a\\\"b\":true}";
    OneMemberParts('"', "a\\", "b\"");
    ReadsBack([], OneMember('"', "a\\", "b\""), rest);
    EmptyGap();
    assert Text(OneMember('"', "a\\", "b\"")) == "{\"a\\\"b\":true}";
    assert "" + "{\"a\\\"b\":true}" + rest == "{\"a\\\"b\":true}" + rest;
  }
}
