/**
  Which strings survive being written and read: the writer puts a backslash
  before every quote and touches nothing else, so a string comes back exactly
  when its own backslashes pair up.
*/
module GoStrings {
  import opened Common
  import opened Gaps
  import opened GoParse
  import opened GoSource
  import opened GoRoundTrip

  // ----- the first item of the root array never changes

  predicate BeginsWith(v: Json, w: Json) {
    v.Arr? && v.items != [] && v.items[0] == w
  }

  predicate Settled(s: State, w: Json) {
    if s.open != [] then BeginsWith(s.open[0].value, w) && (OutsideRoot(s.lab) ==> s.lab in {OverEnd, BadType})
    else s.lab == Done && s.root.Some? && BeginsWith(s.root.value, w)
  }

  lemma SettledInHash(data: string, s: State, w: Json)
    requires Sane(data, s) && s.lab == InHash && Settled(s, w)
    ensures Settled(StepHash(data, false, s), w)
  {
    hide Forward;
  }

  lemma SettledAfterColon(data: string, s: State, w: Json)
    requires Sane(data, s) && s.lab == AfterColon && Settled(s, w)
    ensures Settled(StepAfterColon(data, s), w)
  {
    hide Forward;
  }

  lemma SettledScalar(data: string, s: State, w: Json)
    requires Sane(data, s) && Settled(s, w)
    requires s.lab in {TypeX, Number1, NumberX, AfterDot, String1, StringX, Escape}
    ensures Settled(Step(data, false, s), w)
  {
    hide Forward;
  }

  lemma SettledElsewhere(data: string, s: State, w: Json)
    requires Sane(data, s) && !Halted(s) && Settled(s, w)
    requires s.lab !in {InHash, AfterColon, TypeX, Number1, NumberX, AfterDot, String1, StringX, Escape}
    ensures Settled(Step(data, false, s), w)
  {
    hide Forward, Put, Push, Pop, Sane;
  }

  lemma StaysSettled(data: string, s: State, w: Json)
    requires Sane(data, s) && !Halted(s) && Settled(s, w)
    ensures Settled(Step(data, false, s), w)
  {
    hide Sane, Settled, StepHash, StepAfterColon;
    if s.lab == InHash {
      SettledInHash(data, s, w);
    } else if s.lab == AfterColon {
      SettledAfterColon(data, s, w);
    } else if s.lab in {TypeX, Number1, NumberX, AfterDot, String1, StringX, Escape} {
      SettledScalar(data, s, w);
    } else {
      SettledElsewhere(data, s, w);
    }
  }

  lemma {:induction false} EndsSettled(data: string, s: State, w: Json)
    requires Sane(data, s) && Settled(s, w)
    ensures Settled(Run(data, false, s), w)
    decreases Measure(data, s)
  {
    hide Step, Settled;
    if !Halted(s) {
      StaysSettled(data, s, w);
      EndsSettled(data, Step(data, false, s), w);
    }
  }

  // ----- a string that has gone wrong stays wrong

  // What will be kept of the string read so far, whatever comes next.
  function Kept(data: string, s: State): string
    requires s.substrStart <= s.pos <= |data|
    requires s.lab == Escape ==> s.substrStart < s.pos
  {
    s.str + data[s.substrStart..if s.lab == Escape then s.pos - 1 else s.pos]
  }

  // In the first string of the root array, with str[n] already read as something else.
  predicate Astray(data: string, s: State, str: string, n: nat) {
    && Sane(data, s) && (s.lab == StringX || s.lab == Escape) && s.endc != '\\'
    && |s.open| == 1 && s.open[0].value == Arr([])
    && n < |str| && n < |Kept(data, s)| && Kept(data, s)[n] != str[n]
  }

  lemma StaysAstray(data: string, s: State, str: string, n: nat)
    requires Astray(data, s, str, n)
    ensures
      var t := Step(data, false, s);
      || Astray(data, t, str, n) || t.lab == OverEnd
      || (s.lab == StringX && Settled(t, Val(Str, Kept(data, s))) && Kept(data, s) != str)
  {
    hide Run, Settled;
    if s.lab == StringX && s.pos < |data| && data[s.pos] == s.endc {
      EndsWrong(data, s, str, n);
    } else if s.lab == Escape && s.pos < |data| {
      EscapesWrong(data, s, str, n);
    } else if s.pos < |data| {
      RunsOnWrong(data, s, str, n);
    }
  }

  lemma RunsOnWrong(data: string, s: State, str: string, n: nat)
    requires Astray(data, s, str, n) && s.lab == StringX && s.pos < |data| && data[s.pos] != s.endc
    ensures Astray(data, Step(data, false, s), str, n)
  {
    hide Run, Forward;
    var t := Step(data, false, s);
    if data[s.pos] != '\\' {
      SliceGrows(data, s.substrStart, s.pos);
      assert Kept(data, t) == Kept(data, s) + [data[s.pos]];
    } else {
      assert Kept(data, t) == Kept(data, s);
    }
  }

  lemma SliceGrows(data: string, a: nat, b: nat)
    requires a <= b < |data|
    ensures data[a..b + 1] == data[a..b] + [data[b]]
  {
  }

  lemma EndsWrong(data: string, s: State, str: string, n: nat)
    requires Astray(data, s, str, n) && s.lab == StringX && s.pos < |data| && data[s.pos] == s.endc
    ensures Settled(Step(data, false, s), Val(Str, Kept(data, s))) && Kept(data, s) != str
  {
    hide Run, Forward;
    assert Put(s.open, s.key, Val(Str, Kept(data, s)))[0].value == Arr([] + [Val(Str, Kept(data, s))]);
  }

  lemma EscapesWrong(data: string, s: State, str: string, n: nat)
    requires Astray(data, s, str, n) && s.lab == Escape && s.pos < |data|
    ensures Astray(data, Step(data, false, s), str, n)
  {
    hide Run, Forward;
  }

  // Whatever follows, the string is not what the parser finds.
  lemma {:induction false} EndsAstray(data: string, s: State, str: string, n: nat)
    requires Astray(data, s, str, n)
    ensures !(Run(data, false, s).lab == Done && Run(data, false, s).root == Some(Arr([Val(Str, str)])))
    decreases Measure(data, s)
  {
    hide Step, Settled, Kept;
    var t := Step(data, false, s);
    StaysAstray(data, s, str, n);
    if Astray(data, t, str, n) {
      EndsAstray(data, t, str, n);
    } else if t.lab != OverEnd {
      EndsSettled(data, t, Val(Str, Kept(data, s)));
      SettledIsNot(Run(data, false, t), Val(Str, Kept(data, s)), Val(Str, str));
    }
  }

  lemma SettledIsNot(s: State, w: Json, v: Json)
    requires Settled(s, w) && w != v
    ensures !(s.lab == Done && s.root == Some(Arr([v])))
  {
  }

  // A unit that does not pair up puts the parser astray.
  lemma GoesAstray(data: string, s: State, read: string, str: string)
    requires Sane(data, s) && s.lab == StringX && s.endc != '\\' && |s.open| == 1 && s.open[0].value == Arr([])
    requires Pending(data, s) == read && str != "" && !UnitFirst(str, s.endc)
    requires Reads(data, s.pos, Escaped(str, s.endc) + [s.endc])
    ensures Run(data, false, s).root != Some(Arr([Val(Str, read + str)])) || Run(data, false, s).lab != Done
  {
    hide Run, Step, Pending;
    var text := Escaped(str, s.endc) + [s.endc];
    WrongUnit(str, s.endc);
    ReadsEach(data, s.pos, text);
    var t := StringBackslash(data, false, s);
    assert Kept(data, t) == Pending(data, t) by { KeptIsPending(data, t); }
    EndsAstray(data, t, read + str, if |str| > 1 then |read| + 1 else |read|);
  }

  lemma KeptIsPending(data: string, s: State)
    requires s.substrStart <= s.pos <= |data| && s.lab == StringX
    ensures Kept(data, s) == Pending(data, s)
  {
  }

  lemma WrongUnit(str: string, q: char)
    requires str != "" && !UnitFirst(str, q) && q != '\\'
    ensures
      var text := Escaped(str, q) + [q];
      str[0] == text[0] == '\\' && |text| > 1 && if |str| > 1 then text[1] == '\\' && str[1] == q else text[1] == q
  {
  }

  // From behind the opening quote or later, to the first unit that does not pair up.
  lemma {:induction false} Derails(data: string, s: State, read: string, str: string)
    requires Sane(data, s) && s.lab == StringX && s.endc != '\\' && |s.open| == 1 && s.open[0].value == Arr([])
    requires Pending(data, s) == read && !Paired(str, s.endc)
    requires Reads(data, s.pos, Escaped(str, s.endc) + [s.endc])
    ensures Run(data, false, s).root != Some(Arr([Val(Str, read + str)])) || Run(data, false, s).lab != Done
    decreases |str|
  {
    hide Run, Step, Pending, Sane, Paired, Escaped, Reads;
    EmptyIsPaired(s.endc);
    if !UnitFirst(str, s.endc) {
      GoesAstray(data, s, read, str);
    } else {
      var n := if str[0] == '\\' then 2 else 1;
      SaneString(data, s);
      var t := ReadUnit(data, false, s, str);
      Derails(data, t, read + str[..n], str[n..]);
      assert read + str[..n] + str[n..] == read + str;
    }
  }

  lemma EmptyIsPaired(q: char)
    ensures Paired("", q)
  {
  }

  lemma DerailsFirst(data: string, s: State, str: string)
    requires Sane(data, s) && s.lab == String1 && s.endc != '\\' && |s.open| == 1 && s.open[0].value == Arr([])
    requires !Paired(str, s.endc) && Reads(data, s.pos, Escaped(str, s.endc) + [s.endc])
    ensures Run(data, false, s).root != Some(Arr([Val(Str, str)])) || Run(data, false, s).lab != Done
  {
    hide Run, Step, Pending;
    if UnitFirst(str, s.endc) {
      var n := if str[0] == '\\' then 2 else 1;
      var t := ReadFirstUnit(data, false, s, str);
      Derails(data, t, str[..n], str[n..]);
      assert str[..n] + str[n..] == str;
    } else {
      WrongUnit(str, s.endc);
      ReadsEach(data, s.pos, Escaped(str, s.endc) + [s.endc]);
      var t := StringStarts(data, false, s);
      KeptIsPending(data, t);
      EndsAstray(data, t, str, if |str| > 1 then 1 else 0);
    }
  }

  // ----- the exact condition

  function OneString(lead: Gap, q: char, str: string, after: Gap): Source {
    SArr(lead, [Item(SStr(q, str), after)])
  }

  lemma OneStringParts(lead: Gap, q: char, str: string, after: Gap)
    ensures
      var v := OneString(lead, q, str, after);
      && Value(v) == Arr([Val(Str, str)])
      && Text(v) == "[" + (GapText(lead) + ([q] + (Escaped(str, q) + [q] + (GapText(after) + "]"))))
      && (GoodGap(lead, false) && GoodGap(after, false) && Good(SStr(q, str)) ==> Good(v))
  {
    hide GapText, Escaped, GoodGap;
    var items := [Item(SStr(q, str), after)];
    assert items[..0] == [];
    assert Items([]) == [];
    assert Items(items) == [Val(Str, str)];
    assert ItemsText([]) == "";
    var text, gap := [q] + Escaped(str, q) + [q], GapText(after);
    assert ItemsText(items) == "" + text + gap == text + gap;
    assert "[" + GapText(lead) + (text + gap) + "]" ==
      "[" + (GapText(lead) + ([q] + (Escaped(str, q) + [q] + (gap + "]"))));
    assert GoodItems([]);
  }

  lemma Survives(lead: Gap, q: char, str: string, after: Gap, rest: string)
    requires (q == '"' || q == '\'' || q == '`') && GoodGap(lead, false) && GoodGap(after, false)
    requires Paired(str, q)
    ensures Delivers(Text(OneString(lead, q, str, after)) + rest, Arr([Val(Str, str)]), rest)
  {
    hide Delivers, Text, GapText, Value, Paired;
    var v := OneString(lead, q, str, after);
    OneStringParts(lead, q, str, after);
    ReadsBack([], v, rest);
    EmptyGap();
    assert "" + Text(v) + rest == Text(v) + rest;
  }

  // Where the quote and the string are.
  lemma WhereItIs(lead: Gap, q: char, str: string, after: Gap, rest: string)
    ensures
      var data, p := Text(OneString(lead, q, str, after)) + rest, 1 + |GapText(lead)|;
      && p + 1 < |data| && data[0] == '[' && data[p] == q
      && Reads(data, 1, GapText(lead)) && Reads(data, p + 1, Escaped(str, q) + [q])
  {
    hide Escaped, GapText, Text, Value;
    var data := Text(OneString(lead, q, str, after)) + rest;
    var tail := Escaped(str, q) + [q];
    var end := GapText(after) + "]" + rest;
    OneStringParts(lead, q, str, after);
    assert data == "[" + (GapText(lead) + ([q] + (tail + end)));
    assert Reads(data, 0, data);
    ReadsSplit(data, 0, "[", GapText(lead) + ([q] + (tail + end)));
    ReadsSplit(data, 1, GapText(lead), [q] + (tail + end));
    ReadsSplit(data, 1 + |GapText(lead)|, [q], tail + end);
    ReadsSplit(data, 1 + |GapText(lead)| + 1, tail, end);
  }

  lemma DoesNotSurvive(lead: Gap, q: char, str: string, after: Gap, rest: string)
    requires (q == '"' || q == '\'' || q == '`') && GoodGap(lead, false) && GoodGap(after, false)
    requires !Paired(str, q)
    ensures !Delivers(Text(OneString(lead, q, str, after)) + rest, Arr([Val(Str, str)]), rest)
  {
    hide Run, Step, Escaped, GapText, GoodGap, Text, Paired, Reads;
    var data := Text(OneString(lead, q, str, after)) + rest;
    WhereItIs(lead, q, str, after, rest);
    var t := EnterRoot(data, false, START);
    SkipGap(data, false, t, AtValue, lead);
    t := Goto(t, t.lab, t.pos + |GapText(lead)|);
    OpenString(data, t, q);
    DerailsFirst(data, Goto(t.(endc := q), String1, t.pos + 1), str);
  }

  lemma OpenString(data: string, s: State, q: char)
    requires Sane(data, s) && s.lab == AfterColon && s.pos < |data| && data[s.pos] == q
    requires q == '"' || q == '\'' || q == '`'
    ensures Leads(data, false, s, Goto(s.(endc := q), String1, s.pos + 1))
  {
    hide Run;
    OneStep(data, false, s, Goto(s.(endc := q), String1, s.pos + 1));
  }

  // A written string is read back if and only if its backslashes pair up,
  // whatever stands around it.
  lemma StringSurvives(lead: Gap, q: char, str: string, after: Gap, rest: string)
    requires (q == '"' || q == '\'' || q == '`') && GoodGap(lead, false) && GoodGap(after, false)
    ensures Delivers(Text(OneString(lead, q, str, after)) + rest, Arr([Val(Str, str)]), rest) <==> Paired(str, q)
  {
    hide Delivers, Text, Paired, GoodGap;
    if Paired(str, q) {
      Survives(lead, q, str, after, rest);
    } else {
      DoesNotSurvive(lead, q, str, after, rest);
    }
  }

  // A lone backslash is such a string: its own closing quote is taken for an escape.
  lemma LoneBackslashIsLost(rest: string)
    ensures !Delivers("[\"\\\"]" + rest, Arr([Val(Str, "\\")]), rest)
  {
    hide Delivers;
    StringSurvives([], '"', "\\", [], rest);
    OneStringParts([], '"', "\\", []);
    EmptyGap();
    assert Escaped("\\", '"') == "\\";
    assert Text(OneString([], '"', "\\", [])) == "[\"\\\"]";
  }

  // What is between the quotes is the string, untouched, if and only if there is
  // no escaped quote in it.
  lemma ContentsUntouched(lead: Gap, q: char, str: string, after: Gap, rest: string)
    requires (q == '"' || q == '\'' || q == '`') && GoodGap(lead, false) && GoodGap(after, false) && Paired(str, q)
    ensures Delivers(Text(OneString(lead, q, str, after)) + rest, Arr([Val(Str, Escaped(str, q))]), rest) <==> q !in str
  {
    hide Run, Text, Paired, GoodGap;
    Survives(lead, q, str, after, rest);
    EscapedLength(str, q);
    assert [Val(Str, Escaped(str, q))] == [Val(Str, str)] ==> Escaped(str, q) == str by {
      assert [Val(Str, Escaped(str, q))][0] == Val(Str, Escaped(str, q)) && [Val(Str, str)][0] == Val(Str, str);
    }
  }

  lemma {:induction false} EscapedLength(str: string, q: char)
    ensures |Escaped(str, q)| >= |str|
    ensures Escaped(str, q) == str <==> q !in str
    ensures q in str ==> |Escaped(str, q)| > |str|
  {
    if str != "" {
      EscapedLength(str[1..], q);
      assert str == [str[0]] + str[1..];
    }
  }

  // Such contents: a backslash is taken away.
  lemma BackslashIsDropped(rest: string)
    ensures Delivers("[\"\\\"\"]" + rest, Arr([Val(Str, "\"")]), rest)
  {
    hide Delivers;
    StringSurvives([], '"', "\"", [], rest);
    OneStringParts([], '"', "\"", []);
    EmptyGap();
    assert Escaped("\"", '"') == "\\\"";
    assert Text(OneString([], '"', "\"", [])) == "[\"\\\"\"]";
  }
}
