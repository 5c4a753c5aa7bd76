/**
  Which strings the parser of c/ujson.c reads as they are written: it keeps the
  text between the quotes with its backslashes, but of the first byte it only
  asks whether it is a quote, of whichever kind.
*/
module UjsonStrings {
  import opened Common
  import opened Gaps
  import opened UjsonScan
  import opened UjsonSource
  import opened UjsonRoundTrip
  import opened UjsonComments

  // ----- the first value under a key of the root never changes

  predicate FirstIs(v: Json, key: string, w: Json) {
    v.Hash? && key in v.members && v.members[key] != [] && v.members[key][0] == w
  }

  predicate RootHas(open: seq<Frame>, key: string, w: Json) {
    open != [] && FirstIs(open[0].value, key, w)
  }

  lemma PutKeepsFirst(open: seq<Frame>, name: string, child: Json, key: string, w: Json)
    requires RootHas(open, key, w)
    ensures RootHas(Put(open, name, child), key, w)
  {
  }

  lemma PopKeepsFirst(open: seq<Frame>, key: string, w: Json)
    requires RootHas(open, key, w) && |open| > 1
    ensures RootHas(Pop(open), key, w) && |Pop(open)| < |open|
  {
    hide FirstIs;
    var top := open[|open| - 1];
    PutKeepsFirst(open[..|open| - 1], top.key, top.value, key, w);
  }

  lemma {:induction false} PopArrKeepsFirst(open: seq<Frame>, key: string, w: Json)
    requires RootHas(open, key, w)
    ensures RootHas(PopArr(open), key, w)
    decreases |open|
  {
    hide Put, FirstIs;
    if |open| > 1 {
      PopKeepsFirst(open, key, w);
      if !Top(open).Arr? {
        PopArrKeepsFirst(Pop(open), key, w);
      }
    }
  }

  lemma PerformKeepsFirst(open: seq<Frame>, name: string, act: Action, key: string, w: Json)
    requires RootHas(open, key, w)
    ensures RootHas(Perform(open, name, act), key, w)
  {
    hide Put, Pop, PopArr, FirstIs;
    match act
    case Nothing =>
    case BeginHash =>
    case BeginArr =>
    case EndHash => if |open| > 1 { PopKeepsFirst(open, key, w); }
    case EndArr => PopArrKeepsFirst(open, key, w);
    case Scalar(v) => PutKeepsFirst(open, name, v, key, w);
  }

  lemma StepKeepsFirst(data: string, s: State, key: string, w: Json)
    requires Ready(data, s) && !Halted(s.regs) && RootHas(s.open, key, w)
    ensures RootHas(Step(data, s).open, key, w)
  {
    hide Scan, Perform, RootHas;
    var (r, act) := Scan(data, s.regs, Top(s.open).Arr?);
    PerformKeepsFirst(s.open, r.key, act, key, w);
  }

  lemma {:induction false} RunKeepsFirst(data: string, s: State, key: string, w: Json)
    requires Ready(data, s) && RootHas(s.open, key, w)
    ensures RootHas(Run(data, s).open, key, w)
    decreases Measure(data, s.regs)
  {
    hide Step, RootHas;
    if !Halted(s.regs) {
      StepKeepsFirst(data, s, key, w);
      StepOnward(data, s);
      RunKeepsFirst(data, Step(data, s), key, w);
    }
  }

  lemma {:induction false} CollapsedKeepsFirst(open: seq<Frame>, key: string, w: Json)
    requires RootHas(open, key, w)
    ensures FirstIs(Collapsed(open), key, w)
    decreases |open|
  {
    hide Pop, FirstIs;
    if |open| > 1 {
      PopKeepsFirst(open, key, w);
      CollapsedKeepsFirst(Pop(open), key, w);
    }
  }

  // From a first value that is wrong there is no way back.
  lemma WrongFirst(data: string, s: State, key: string, w: Json, v: Json)
    requires Ready(data, s) && RootHas(s.open, key, w) && w != v
    ensures Collapsed(Run(data, s).open) != Hash(map[key := [v]])
  {
    hide Run, Collapsed;
    RunKeepsFirst(data, s, key, w);
    CollapsedKeepsFirst(Run(data, s).open, key, w);
  }

  // ----- a string whose closing quote has been taken for an escaped one

  // In a string that has begun at "start" and is longer than n.
  predicate Past(data: string, s: State, start: nat, n: nat) {
    && Ready(data, s) && s.open == START.open && s.regs.key == "a"
    && (InString(s.regs.lab) || s.regs.lab == StrSlash1) && s.regs.strStart == start && s.regs.pos > start + n
  }

  lemma {:induction false} EndsPast(data: string, s: State, start: nat, n: nat, v: Json)
    requires Past(data, s, start, n) && v.Val? && |v.raw| == n
    ensures Collapsed(Run(data, s).open) != Hash(map["a" := [v]])
    decreases Measure(data, s.regs)
  {
    hide Run, Fits, Step, Collapsed, RootHas, Put;
    var i := s.regs.pos;
    if i >= |data| {
      EndOfInput(data, s);
      EmptyRoot(v);
    } else if s.regs.lab == StrSlash1 {
      var t := SlashEnds(data, s);
      EndsPast(data, t, start, n, v);
    } else if data[i] == Quote(s.regs) {
      var t := StringEnd(data, s);
      EndsOtherwise(data, t, Val(Str, data[start..i], s.regs.slashCnt > 0), v);
    } else if data[i] == '\\' {
      SlashBegins(data, s);
      var t := State(s.regs.(lab := StrSlash1, pos := i + 1, slashCnt := s.regs.slashCnt + 1), s.open);
      EndsPast(data, t, start, n, v);
    } else {
      var t := StringPlain(data, s);
      EndsPast(data, t, start, n, v);
    }
  }

  lemma EmptyRoot(v: Json)
    ensures Collapsed(START.open) != Hash(map["a" := [v]])
  {
    assert "a" in map["a" := [v]];
  }

  // With another value in the place.
  lemma EndsOtherwise(data: string, t: State, w: Json, v: Json)
    requires Ready(data, t) && t.open == Put(START.open, "a", w) && w != v
    ensures Collapsed(Run(data, t).open) != Hash(map["a" := [v]])
  {
    hide Run, Collapsed;
    RootWith("a", w);
    WrongFirst(data, t, "a", w, v);
  }

  // ----- a string that does not close where its closing quote is

  lemma {:induction false} Derails(data: string, s: State, rest: string, v: Json)
    requires Ready(data, s) && InString(s.regs.lab) && s.open == START.open && s.regs.key == "a"
    requires !Closed(rest, Quote(s.regs)) && Reads(data, s.regs.pos, rest + [Quote(s.regs)])
    requires v.Val? && |v.raw| == s.regs.pos + |rest| - s.regs.strStart
    ensures Collapsed(Run(data, s).open) != Hash(map["a" := [v]])
    decreases |rest|
  {
    hide Run, Fits, Step, Collapsed, Put, RootHas;
    var i, q := s.regs.pos, Quote(s.regs);
    ReadsAt(data, i, rest + [q], 0);
    SaneString(data, s);
    if rest[0] == q {
      var t := StringEnd(data, s);
      EndsOtherwise(data, t, Val(Str, data[s.regs.strStart..i], s.regs.slashCnt > 0), v);
    } else if rest[0] == '\\' {
      ReadsAt(data, i, rest + [q], 1);
      var t := StringSlash(data, s);
      if |rest| == 1 {
        EndsPast(data, t, s.regs.strStart, |v.raw|, v);
      } else {
        assert rest + [q] == rest[..2] + (rest[2..] + [q]);
        ReadsSplit(data, i, rest[..2], rest[2..] + [q]);
        Derails(data, t, rest[2..], v);
      }
    } else {
      var t := StringPlain(data, s);
      assert rest + [q] == rest[..1] + (rest[1..] + [q]);
      ReadsSplit(data, i, rest[..1], rest[1..] + [q]);
      Derails(data, t, rest[1..], v);
    }
  }

  lemma DoesNotSurvive(data: string, s: State, q: char, raw: string)
    requires Ready(data, s) && s.regs.lab == AfterColon && s.open == START.open && s.regs.key == "a"
    requires (q == '"' || q == '\'') && !GoodString(q, raw) && Reads(data, s.regs.pos, [q] + (raw + [q]))
    ensures Collapsed(Run(data, s).open) != Hash(map["a" := [Value(SStr(q, raw))]])
  {
    hide Run, Fits, Step, Collapsed, Put, Closed;
    var i := s.regs.pos;
    ReadsSplit(data, i, [q], raw + [q]);
    ReadsAt(data, i, [q], 0);
    ReadsAt(data, i + 1, raw + [q], 0);
    var t := StartString(data, s, q);
    if raw[0] == '"' || raw[0] == '\'' {
      EndsOtherwise(data, t, Val(Str, "", false), Value(SStr(q, raw)));
    } else {
      assert raw + [q] == raw[..1] + (raw[1..] + [q]);
      ReadsSplit(data, i + 1, raw[..1], raw[1..] + [q]);
      Derails(data, t, raw[1..], Value(SStr(q, raw)));
    }
  }

  // ----- the exact condition

  // A string is read as it is written if and only if its first byte is no quote
  // of either kind, and behind that byte backslashes, paired from the left, protect
  // every quote of the closing kind and leave the closing one alone.
  lemma StringSurvives(lead: Gap, q: char, raw: string, tail: Gap)
    requires (q == '"' || q == '\'') && GoodGap(lead, false) && GoodGap(tail, true)
    ensures
      var v := SStr(q, raw);
      Gives(Commented(lead, v, tail), Hash(map["a" := [Value(v)]])) <==> GoodString(q, raw)
  {
    hide Run, Fits, GapText, GoodGap, Collapsed, Commented, GoodString, Value, HasBlock;
    var v := SStr(q, raw);
    GapHasNone(lead, false);
    if GoodString(q, raw) {
      ValueIsRead(lead, v, tail);
    } else {
      var s := Behind(lead, v, tail);
      Places(lead, v, tail);
      assert [q] + raw + [q] == [q] + (raw + [q]);
      DoesNotSurvive(Commented(lead, v, tail), s, q, raw);
    }
  }

  // What is left of such a string begins a key that does not end.
  lemma RestIsKey(data: string, s: State)
    requires Ready(data, s) && s.regs.lab == InHash && s.regs.pos < |data| && Lower(data[s.regs.pos])
    requires forall i :: s.regs.pos < i < |data| ==> data[i] != ':' && data[i] != ' ' && data[i] != '\t'
    ensures EndsQuietly(data, s)
  {
    hide Run, Fits, Step;
    var t := StartBare(data, s);
    ScanBare(data, t, |data| - t.regs.pos);
    EndOfInput(data, Goto(t, KeyNameX, |data|));
  }

  lemma KeyA(data: string) returns (s: State)
    requires |data| > 3 && data[1] == 'a' && data[2] == ':'
    ensures Ready(data, START) && Leads(data, START, s) && s.open == START.open && s.regs.key == "a"
    ensures s.regs.lab == AfterColon && s.regs.pos == 3
  {
    hide Run, Fits, Step;
    StartReady(data);
    assert data[1..3] == "a" + ("" + ":");
    s := ReadKey(data, START, Bare("a"), "");
  }

  lemma GivesOne(data: string, s: State, v: Json)
    requires Ready(data, START) && Ready(data, s) && Leads(data, START, s) && EndsQuietly(data, s)
    requires s.open == Put(START.open, "a", v)
    ensures Gives(data, Hash(map["a" := [v]]))
  {
    RootWith("a", v);
  }

  // Contents that begin with an escaped quote end there, ...
  lemma EscapedQuoteFirst()
    ensures Gives("{a:\"\\\"b\"}", Hash(map["a" := [Val(Str, "\\", false)]]))
  {
    hide Run, Fits, Step, Put, Ready, EndsQuietly, Gives;
    var data := "{a:\"\\\"b\"}";
    var s := KeyA(data);
    assert data[3..6] == ['"'] + ("\\" + ['"']);
    var v := Value(SStr('"', "\\"));
    var t := ReadString(data, s, '"', "\\");
    RootWith("a", v);
    RestIsKey(data, t);
    GivesOne(data, t, v);
  }

  // ... and contents that begin with a quote of the other kind are empty.
  lemma OtherQuoteFirst()
    ensures Gives("{a:\"'b\"}", Hash(map["a" := [Val(Str, "", false)]]))
  {
    hide Run, Fits, Step, Put, Ready, EndsQuietly, Gives;
    var data := "{a:\"'b\"}";
    var s := KeyA(data);
    var v := Val(Str, "", false);
    var t := StartString(data, s, '"');
    t := Settle(data, s, t, v, 5);
    RootWith("a", v);
    RestIsKey(data, t);
    GivesOne(data, t, v);
  }
}
