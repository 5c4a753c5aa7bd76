/**
  The parser of c/ujson.c reads every good source back: the tree it builds is the
  one the source stands for, and the stack of ten serves exactly the sources with
  at most ten arrays inside each other.
*/
module UjsonRoundTrip {
  import opened Common
  import opened Gaps
  import opened UjsonScan
  import opened UjsonSource

  // ----- steps

  // The parser gets from s to t, and what the stack must serve there is left.
  predicate Leads(data: string, s: State, t: State)
    requires Ready(data, s)
  {
    Ready(data, t) && Run(data, s) == Run(data, t) && (Fits(data, s) <==> Fits(data, t))
  }

  // The step from s, which opens no eleventh array and closes none that is not open.
  lemma OneStep(data: string, s: State, t: State)
    requires Ready(data, s) && !Halted(s.regs) && t == Step(data, s)
    requires
      var act := Scan(data, s.regs, Top(s.open).Arr?).1;
      (act.BeginArr? ==> Arrays(s.open) < MAX_DEPTH) && (act.EndArr? ==> Arrays(s.open) > 0)
    ensures Leads(data, s, t)
  {
  }

  function Goto(s: State, lab: Label, pos: nat): State {
    State(s.regs.(lab := lab, pos := pos), s.open)
  }

  // t is s at another label and position; working registers may differ.
  predicate Moved(s: State, t: State, lab: Label, pos: nat) {
    t.regs.lab == lab && t.regs.pos == pos && t.regs.key == s.regs.key && t.open == s.open
  }

  // ----- gaps

  datatype Place = AtMember | AtValue

  function Idle(p: Place): Label {
    if p == AtMember then InHash else AfterColon
  }

  function InLine(p: Place): Label {
    if p == AtMember then HashComment else AcComment
  }

  function InBlock(p: Place): Label {
    if p == AtMember then HashComment2 else AcComment2
  }

  lemma StepInLine(data: string, s: State, p: Place)
    requires Ready(data, s) && s.regs.lab == InLine(p) && s.regs.pos < |data|
    ensures Leads(data, s, Goto(s, if Newline(data[s.regs.pos]) then Idle(p) else s.regs.lab, s.regs.pos + 1))
  {
    hide Run, Fits;
    OneStep(data, s, Step(data, s));
  }

  lemma StepInBlock(data: string, s: State, p: Place)
    requires Ready(data, s) && s.regs.lab == InBlock(p) && s.regs.pos + 1 < |data|
    ensures
      var i := s.regs.pos;
      && (data[i] == '*' && data[i + 1] == '/' && i + 2 < |data| ==> Leads(data, s, Goto(s, InHash, i + 2)))
      && (!(data[i] == '*' && data[i + 1] == '/') ==> Leads(data, s, Goto(s, s.regs.lab, i + 1)))
  {
    hide Run, Fits;
    OneStep(data, s, Step(data, s));
  }

  lemma StepIdle(data: string, s: State, p: Place)
    requires Ready(data, s) && s.regs.lab == Idle(p) && s.regs.pos < |data|
    ensures
      var i := s.regs.pos;
      && (IsBlank(data[i]) ==> Leads(data, s, Goto(s, s.regs.lab, i + 1)))
      && (data[i] == '/' && i + 2 < |data| && data[i + 1] == '/' ==> Leads(data, s, Goto(s, InLine(p), i + 2)))
      && (data[i] == '/' && i + 2 < |data| && data[i + 1] == '*' ==> Leads(data, s, Goto(s, InBlock(p), i + 2)))
  {
    hide Run, Fits;
    var i := s.regs.pos;
    if IsBlank(data[i]) || (data[i] == '/' && i + 2 < |data| && data[i + 1] in {'/', '*'}) {
      OneStep(data, s, Step(data, s));
    }
  }

  lemma {:induction false} SkipLine(data: string, s: State, p: Place, n: nat)
    requires Ready(data, s) && s.regs.lab == InLine(p) && s.regs.pos + n <= |data|
    requires forall i :: s.regs.pos <= i < s.regs.pos + n ==> !Newline(data[i])
    ensures Leads(data, s, Goto(s, s.regs.lab, s.regs.pos + n))
    decreases n
  {
    hide Run, Fits, Ready, Step;
    if n > 0 {
      StepInLine(data, s, p);
      SkipLine(data, Goto(s, s.regs.lab, s.regs.pos + 1), p, n - 1);
    }
  }

  lemma {:induction false} SkipBlock(data: string, s: State, p: Place, n: nat)
    requires Ready(data, s) && s.regs.lab == InBlock(p) && s.regs.pos + n < |data|
    requires forall i :: s.regs.pos <= i < s.regs.pos + n ==> !(data[i] == '*' && data[i + 1] == '/')
    ensures Leads(data, s, Goto(s, s.regs.lab, s.regs.pos + n))
    decreases n
  {
    hide Run, Fits, Ready, Step;
    if n > 0 {
      StepInBlock(data, s, p);
      SkipBlock(data, Goto(s, s.regs.lab, s.regs.pos + 1), p, n - 1);
    }
  }

  lemma SkipLineItem(data: string, s: State, p: Place, g: GapItem)
    requires Ready(data, s) && s.regs.lab == Idle(p) && g.LineComment? && GoodItem(g, true)
    requires Reads(data, s.regs.pos, ItemText(g))
    ensures Leads(data, s, Goto(s, s.regs.lab, s.regs.pos + |ItemText(g)|))
  {
    hide Run, Fits, Ready, Step;
    var text, body, i := ItemText(g), g.body, s.regs.pos;
    ReadsEach(data, i, text);
    StepIdle(data, s, p);
    var t := Goto(s, InLine(p), i + 2);
    forall j | i + 2 <= j < i + 2 + |body|
      ensures !Newline(data[j])
    {
      assert data[j] == text[j - i] == body[j - i - 2];
    }
    SkipLine(data, t, p, |body|);
    StepInLine(data, Goto(t, t.regs.lab, i + 2 + |body|), p);
  }

  // From before a block comment to before its closing "*/".
  lemma EnterBlock(data: string, s: State, p: Place, g: GapItem)
    requires Ready(data, s) && s.regs.lab == Idle(p) && g.BlockComment? && GoodItem(g, true)
    requires Reads(data, s.regs.pos, ItemText(g))
    ensures Leads(data, s, Goto(s, InBlock(p), s.regs.pos + 2 + |g.body|))
    ensures data[s.regs.pos + 2 + |g.body|] == '*' && data[s.regs.pos + 3 + |g.body|] == '/'
  {
    hide Run, Fits, Ready, Step;
    var text, body, i := ItemText(g), g.body, s.regs.pos;
    ReadsEach(data, i, text);
    StepIdle(data, s, p);
    assert text[2 + |body|] == '*' && text[3 + |body|] == '/';
    assert data[i + 2 + |body|] == '*' && data[i + 3 + |body|] == '/';
    forall j | i + 2 <= j < i + 2 + |body|
      ensures !(data[j] == '*' && data[j + 1] == '/')
    {
      assert data[j] == text[j - i] == body[j - i - 2] && data[j + 1] == text[j + 1 - i];
    }
    SkipBlock(data, Goto(s, InBlock(p), i + 2), p, |body|);
  }

  // Behind a block comment the parser is in key position.
  lemma SkipItem(data: string, s: State, p: Place, g: GapItem)
    requires Ready(data, s) && s.regs.lab == Idle(p) && GoodItem(g, true)
    requires Reads(data, s.regs.pos, ItemText(g)) && s.regs.pos + |ItemText(g)| < |data|
    ensures Leads(data, s, Goto(s, if g.BlockComment? then InHash else Idle(p), s.regs.pos + |ItemText(g)|))
  {
    hide Run, Fits, Ready, Step, NoNewline, NoClosing;
    match g
    case Blank(c) =>
      ReadsAt(data, s.regs.pos, ItemText(g), 0);
      StepIdle(data, s, p);
    case LineComment(_, _) => SkipLineItem(data, s, p, g);
    case BlockComment(_) => SkipBlockItem(data, s, p, g);
  }

  lemma SkipBlockItem(data: string, s: State, p: Place, g: GapItem)
    requires Ready(data, s) && s.regs.lab == Idle(p) && g.BlockComment? && GoodItem(g, true)
    requires Reads(data, s.regs.pos, ItemText(g)) && s.regs.pos + |ItemText(g)| < |data|
    ensures Leads(data, s, Goto(s, InHash, s.regs.pos + |ItemText(g)|))
  {
    hide Run, Fits, Ready, Step, GoodItem;
    EnterBlock(data, s, p, g);
    StepInBlock(data, Goto(s, InBlock(p), s.regs.pos + 2 + |g.body|), p);
  }

  // A gap is passed over, but behind a block comment the parser is in key position.
  lemma {:induction false} SkipGap(data: string, s: State, p: Place, g: Gap)
    requires Ready(data, s) && s.regs.lab == Idle(p) && GoodGap(g, true)
    requires Reads(data, s.regs.pos, GapText(g)) && s.regs.pos + |GapText(g)| < |data|
    ensures Leads(data, s, Goto(s, if HasBlock(g) then InHash else Idle(p), s.regs.pos + |GapText(g)|))
    decreases g
  {
    hide Run, Fits, Ready, Step, ItemText;
    if g != [] {
      var front, last := g[..|g| - 1], g[|g| - 1];
      ReadsSplit(data, s.regs.pos, GapText(front), ItemText(last));
      SkipGap(data, s, p, front);
      var p' := if HasBlock(front) then AtMember else p;
      SkipItem(data, Goto(s, Idle(p'), s.regs.pos + |GapText(front)|), p', last);
      assert HasBlock(g) <==> HasBlock(front) || last.BlockComment?;
    }
  }

  // ----- keys

  function NameLabel(q: char): Label {
    if q == '"' then QQKeyNameX else QKeyNameX
  }

  lemma StartQuoted(data: string, s: State, q: char) returns (t: State)
    requires Ready(data, s) && s.regs.lab == InHash && (q == '"' || q == '\'')
    requires s.regs.pos + 1 < |data| && data[s.regs.pos] == q
    ensures Leads(data, s, t) && t.regs.keyStart == s.regs.pos + 1
    ensures Moved(s, t, NameLabel(q), s.regs.pos + if data[s.regs.pos + 1] == '\\' then 3 else 2)
  {
    hide Run, Fits;
    var t1 := Step(data, s);
    OneStep(data, s, t1);
    t := Step(data, t1);
    OneStep(data, t1, t);
  }

  function Named(s: State, text: string, lab: Label, pos: nat): State {
    State(s.regs.(lab := lab, pos := pos, key := text), s.open)
  }

  lemma QuotedStep(data: string, s: State, q: char)
    requires Ready(data, s) && s.regs.lab == NameLabel(q) && (q == '"' || q == '\'') && s.regs.pos < |data|
    ensures
      var i := s.regs.pos;
      && (data[i] == '\\' ==> Leads(data, s, Goto(s, s.regs.lab, i + 2)))
      && (data[i] != '\\' && data[i] != q ==> Leads(data, s, Goto(s, s.regs.lab, i + 1)))
      && (data[i] == q ==> s.regs.keyStart <= i && Leads(data, s, Named(s, data[s.regs.keyStart..i], Colon, i + 1)))
  {
    hide Run, Fits;
    OneStep(data, s, Step(data, s));
  }

  // One byte, or a backslash with the byte behind it.
  lemma FirstUnit(rest: string, q: char) returns (n: nat)
    requires rest != "" && Closed(rest, q)
    ensures n == (if rest[0] == '\\' then 2 else 1) && n <= |rest| && Closed(rest[n..], q)
    ensures n == 1 ==> rest[0] != q
    ensures rest + [q] == rest[..n] + (rest[n..] + [q])
    ensures '\\' in rest <==> n == 2 || '\\' in rest[n..]
  {
    n := if rest[0] == '\\' then 2 else 1;
    assert rest == rest[..n] + rest[n..];
    assert n == 1 ==> rest[..1] == [rest[0]];
  }

  lemma KeyBegins(data: string, s: State)
    requires Ready(data, s) && s.regs.lab in {QQKeyNameX, QKeyNameX}
    ensures s.regs.keyStart <= s.regs.pos
  {
  }

  // The rest of a quoted key, with its closing quote.
  lemma {:induction false} QuotedRest(data: string, s: State, q: char, rest: string)
    requires Ready(data, s) && s.regs.lab == NameLabel(q) && (q == '"' || q == '\'')
    requires Closed(rest, q) && Reads(data, s.regs.pos, rest + [q])
    ensures s.regs.keyStart <= s.regs.pos
    ensures
      var end := s.regs.pos + |rest|;
      Leads(data, s, Named(s, data[s.regs.keyStart..end], Colon, end + 1))
    decreases |rest|
  {
    hide Run, Fits, Step, Ready;
    var i := s.regs.pos;
    KeyBegins(data, s);
    ReadsAt(data, i, rest + [q], 0);
    QuotedStep(data, s, q);
    if rest != "" {
      var n := FirstUnit(rest, q);
      ReadsSplit(data, i, rest[..n], rest[n..] + [q]);
      QuotedRest(data, Goto(s, s.regs.lab, i + n), q, rest[n..]);
    }
  }

  lemma ReadQuoted(data: string, s: State, q: char, text: string) returns (t: State)
    requires Ready(data, s) && s.regs.lab == InHash && GoodKey(Quoted(q, text), "")
    requires Reads(data, s.regs.pos, [q] + (text + [q]))
    ensures Leads(data, s, t) && t.regs.key == text && t.open == s.open
    ensures t.regs.lab == Colon && t.regs.pos == s.regs.pos + |text| + 2
  {
    hide Run, Fits, Step, Ready, Closed;
    var i := s.regs.pos;
    ReadsEach(data, i, [q] + (text + [q]));
    ReadsSplit(data, i, [q], text + [q]);
    var t1 := StartQuoted(data, s, q);
    var n := if text[0] == '\\' then 2 else 1;
    assert text + [q] == text[..n] + (text[n..] + [q]);
    ReadsSplit(data, i + 1, text[..n], text[n..] + [q]);
    ReadsSplit(data, i + 1, text, [q]);
    QuotedRest(data, t1, q, text[n..]);
    t := Named(t1, text, Colon, i + |text| + 2);
  }

  lemma {:induction false} ScanBare(data: string, s: State, n: nat)
    requires Ready(data, s) && s.regs.lab == KeyNameX && s.regs.pos + n <= |data|
    requires forall i :: s.regs.pos <= i < s.regs.pos + n ==> data[i] != ':' && data[i] != ' ' && data[i] != '\t'
    ensures Leads(data, s, Goto(s, KeyNameX, s.regs.pos + n))
    decreases n
  {
    hide Run, Fits;
    if n > 0 {
      OneStep(data, s, Goto(s, KeyNameX, s.regs.pos + 1));
      ScanBare(data, Goto(s, KeyNameX, s.regs.pos + 1), n - 1);
    }
  }

  // Everything up to the colon is skipped.
  lemma {:induction false} ScanColon(data: string, s: State, n: nat)
    requires Ready(data, s) && s.regs.lab == Colon && s.regs.pos + n < |data| && data[s.regs.pos + n] == ':'
    requires forall i :: s.regs.pos <= i < s.regs.pos + n ==> data[i] != ':'
    ensures Leads(data, s, Goto(s, AfterColon, s.regs.pos + n + 1))
    decreases n
  {
    hide Run, Fits;
    if n > 0 {
      OneStep(data, s, Goto(s, Colon, s.regs.pos + 1));
      ScanColon(data, Goto(s, Colon, s.regs.pos + 1), n - 1);
    } else {
      OneStep(data, s, Goto(s, AfterColon, s.regs.pos + 1));
    }
  }

  lemma StartBare(data: string, s: State) returns (t: State)
    requires Ready(data, s) && s.regs.lab == InHash && s.regs.pos < |data| && Lower(data[s.regs.pos])
    ensures Leads(data, s, t) && Moved(s, t, KeyNameX, s.regs.pos + 1) && t.regs.keyStart == s.regs.pos
  {
    hide Run, Fits;
    var t1 := Step(data, s);
    OneStep(data, s, t1);
    t := Step(data, t1);
    OneStep(data, t1, t);
  }

  lemma EndBare(data: string, s: State)
    requires Ready(data, s) && s.regs.lab == KeyNameX && s.regs.pos < |data| && data[s.regs.pos] in {':', ' ', '\t'}
    ensures s.regs.keyStart <= s.regs.pos
    ensures Leads(data, s, Named(s, data[s.regs.keyStart..s.regs.pos],
      if data[s.regs.pos] == ':' then AfterColon else Colon, s.regs.pos + 1))
  {
    hide Run, Fits;
    OneStep(data, s, Step(data, s));
  }

  lemma ReadBare(data: string, s: State, text: string, skip: string) returns (t: State)
    requires Ready(data, s) && s.regs.lab == InHash && GoodKey(Bare(text), skip)
    requires Reads(data, s.regs.pos, text + (skip + ":"))
    ensures Leads(data, s, t)
    ensures Moved(Named(s, text, Colon, 0), t, AfterColon, s.regs.pos + |text| + |skip| + 1)
  {
    hide Run, Fits, Step, Ready;
    var i := s.regs.pos;
    ReadsEach(data, i, text + (skip + ":"));
    ReadsSplit(data, i, text, skip + ":");
    ReadsEach(data, i, text);
    var t1 := StartBare(data, s);
    var n := |text| - 1;
    forall j | i + 1 <= j < i + 1 + n
      ensures data[j] != ':' && data[j] != ' ' && data[j] != '\t'
    {
      assert data[j] == text[1..][j - i - 1] && text[1..][j - i - 1] in text[1..];
    }
    ScanBare(data, t1, n);
    t1 := Goto(t1, KeyNameX, i + |text|);
    EndBare(data, t1);
    ReadsEach(data, i + |text|, skip + ":");
    if skip == "" {
      t := Named(t1, text, AfterColon, i + |text| + 1);
    } else {
      t1 := Named(t1, text, Colon, i + |text| + 1);
      ScanColon(data, t1, |skip| - 1);
      t := Goto(t1, AfterColon, i + |text| + |skip| + 1);
    }
  }

  // What stands between a key and its colon, and the colon.
  lemma ReadSkip(data: string, s: State, skip: string) returns (t: State)
    requires Ready(data, s) && s.regs.lab == Colon && ':' !in skip && Reads(data, s.regs.pos, skip + ":")
    ensures Leads(data, s, t) && t == Goto(s, AfterColon, s.regs.pos + |skip| + 1)
  {
    hide Run, Fits, Step, Ready;
    ReadsEach(data, s.regs.pos, skip + ":");
    ScanColon(data, s, |skip|);
    t := Goto(s, AfterColon, s.regs.pos + |skip| + 1);
  }

  // A key, what follows it, and the colon.
  lemma ReadKey(data: string, s: State, k: Key, skip: string) returns (t: State)
    requires Ready(data, s) && s.regs.lab == InHash && GoodKey(k, skip)
    requires Reads(data, s.regs.pos, KeyText(k) + (skip + ":"))
    ensures Leads(data, s, t)
    ensures Moved(Named(s, k.text, Colon, 0), t, AfterColon, s.regs.pos + |KeyText(k)| + |skip| + 1)
  {
    hide Run, Fits, Step, Ready, Closed, Reads;
    match k
    case Quoted(q, text) =>
      assert [q] + text + [q] == [q] + (text + [q]);
      ReadsSplit(data, s.regs.pos, KeyText(k), skip + ":");
      var t1 := ReadQuoted(data, s, q, text);
      t := ReadSkip(data, t1, skip);
    case Bare(text) => t := ReadBare(data, s, text, skip);
  }

  // ----- scalars

  // Where the parser waits for what comes next in a container.
  function Home(open: seq<Frame>): Label
    requires open != []
  {
    if Top(open).Arr? then AfterColon else InHash
  }

  // t is s with one more child in the current container.
  predicate Arrived(s: State, t: State, v: Json, pos: nat)
    requires s.open != []
  {
    t.open == Put(s.open, s.regs.key, v) && t.regs.lab == Home(t.open) && t.regs.pos == pos
  }

  // t is that too, but in a hash the value has just ended.
  predicate Ended(s: State, t: State, v: Json, pos: nat)
    requires s.open != []
  {
    t.open == Put(s.open, s.regs.key, v) && t.regs.lab == AfterScalar(Top(s.open).Arr?) && t.regs.pos == pos
  }

  lemma PutKeeps(open: seq<Frame>, key: string, v: Json)
    requires open != []
    ensures |Put(open, key, v)| == |open| && Top(Put(open, key, v)) == Add(Top(open), key, v)
    ensures Arrays(Put(open, key, v)) == Arrays(open) && Home(Put(open, key, v)) == Home(open)
  {
    assert Put(open, key, v)[..|open| - 1] == open[..|open| - 1];
  }

  lemma Settle(data: string, s: State, t: State, v: Json, pos: nat) returns (u: State)
    requires Ready(data, s) && Ready(data, t) && Leads(data, s, t) && Ended(s, t, v, pos) && pos < |data|
    ensures Leads(data, s, u) && Arrived(s, u, v, pos)
  {
    hide Run, Fits, Put;
    PutKeeps(s.open, s.regs.key, v);
    u := t;
    if t.regs.lab == AfterVal {
      u := Goto(t, InHash, pos);
      OneStep(data, t, u);
    }
  }

  predicate InString(lab: Label) {
    lab in {StringX, SlashHex1, SlashHex2, SlashHex3, SlashHex4}
  }

  lemma StringPlain(data: string, s: State) returns (t: State)
    requires Ready(data, s) && InString(s.regs.lab) && s.regs.pos < |data|
    requires data[s.regs.pos] != Quote(s.regs) && data[s.regs.pos] != '\\'
    ensures Leads(data, s, t) && InString(t.regs.lab)
    ensures t == Goto(s, t.regs.lab, s.regs.pos + 1)
  {
    hide Run, Fits;
    t := Step(data, s);
    OneStep(data, s, t);
  }

  lemma SlashBegins(data: string, s: State)
    requires Ready(data, s) && InString(s.regs.lab) && s.regs.pos < |data| && data[s.regs.pos] == '\\'
    ensures Leads(data, s,
      State(s.regs.(lab := StrSlash1, pos := s.regs.pos + 1, slashCnt := s.regs.slashCnt + 1), s.open))
  {
    hide Run, Fits;
    OneStep(data, s, Step(data, s));
  }

  lemma SlashEnds(data: string, s: State) returns (t: State)
    requires Ready(data, s) && s.regs.lab == StrSlash1 && s.regs.pos < |data|
    ensures Leads(data, s, t) && InString(t.regs.lab)
    ensures t == Goto(s, t.regs.lab, s.regs.pos + 1)
  {
    hide Run, Fits;
    t := Step(data, s);
    OneStep(data, s, t);
  }

  lemma StringSlash(data: string, s: State) returns (t: State)
    requires Ready(data, s) && InString(s.regs.lab) && s.regs.pos + 1 < |data| && data[s.regs.pos] == '\\'
    ensures Leads(data, s, t) && InString(t.regs.lab)
    ensures t == State(s.regs.(lab := t.regs.lab, pos := s.regs.pos + 2, slashCnt := s.regs.slashCnt + 1), s.open)
  {
    hide Run, Fits, Ready, Step;
    SlashBegins(data, s);
    t := SlashEnds(data,
      State(s.regs.(lab := StrSlash1, pos := s.regs.pos + 1, slashCnt := s.regs.slashCnt + 1), s.open));
  }

  lemma SaneString(data: string, s: State)
    requires Ready(data, s) && InString(s.regs.lab)
    ensures s.regs.strStart <= s.regs.pos
  {
  }

  lemma StringEnd(data: string, s: State) returns (t: State)
    requires Ready(data, s) && InString(s.regs.lab) && s.regs.pos < |data| && data[s.regs.pos] == Quote(s.regs)
    ensures Leads(data, s, t) && s.regs.strStart <= s.regs.pos
    ensures Ended(s, t, Val(Str, data[s.regs.strStart..s.regs.pos], s.regs.slashCnt > 0), s.regs.pos + 1)
  {
    hide Run, Fits, Put, Push, Pop, PopArr, PopHash, Arrays;
    t := Step(data, s);
    OneStep(data, s, t);
  }

  // The rest of a string, with its closing quote.
  lemma {:induction false} StringRest(data: string, s: State, rest: string) returns (t: State)
    requires Ready(data, s) && InString(s.regs.lab) && Closed(rest, Quote(s.regs))
    requires Reads(data, s.regs.pos, rest + [Quote(s.regs)])
    ensures Leads(data, s, t) && s.regs.strStart <= s.regs.pos
    ensures
      var end := s.regs.pos + |rest|;
      Ended(s, t, Val(Str, data[s.regs.strStart..end], s.regs.slashCnt > 0 || '\\' in rest), end + 1)
    decreases |rest|
  {
    hide Run, Fits, Step, Put, Closed, Ready;
    SaneString(data, s);
    var i, q := s.regs.pos, Quote(s.regs);
    ReadsAt(data, i, rest + [q], 0);
    if rest == "" {
      t := StringEnd(data, s);
    } else {
      var n := FirstUnit(rest, q);
      ReadsSplit(data, i, rest[..n], rest[n..] + [q]);
      var t1;
      if rest[0] == '\\' {
        t1 := StringSlash(data, s);
      } else {
        t1 := StringPlain(data, s);
      }
      t := StringRest(data, t1, rest[n..]);
    }
  }

  lemma StartString(data: string, s: State, q: char) returns (t: State)
    requires Ready(data, s) && s.regs.lab == AfterColon && (q == '"' || q == '\'')
    requires s.regs.pos + 1 < |data| && data[s.regs.pos] == q
    ensures Leads(data, s, t)
    ensures
      var i, c := s.regs.pos, data[s.regs.pos + 1];
      if c == '"' || c == '\'' then Ended(s, t, Val(Str, "", false), i + 2)
      else Moved(s, t, StringX, i + 2) && t.regs.strStart == i + 1 && t.regs.slashCnt == 0 && Quote(t.regs) == q
  {
    hide Run, Fits;
    var t1 := Step(data, s);
    OneStep(data, s, t1);
    t := Step(data, t1);
    OneStep(data, t1, t);
  }

  lemma ReadString(data: string, s: State, q: char, raw: string) returns (t: State)
    requires Ready(data, s) && s.regs.lab == AfterColon && GoodString(q, raw)
    requires Reads(data, s.regs.pos, [q] + (raw + [q])) && s.regs.pos + |raw| + 2 < |data|
    ensures Leads(data, s, t)
    ensures Arrived(s, t, Value(SStr(q, raw)), s.regs.pos + |raw| + 2)
  {
    hide Run, Fits, Step, Ready, Closed, Put;
    var i := s.regs.pos;
    ReadsSplit(data, i, [q], raw + [q]);
    ReadsAt(data, i, [q], 0);
    ReadsAt(data, i + 1, raw + [q], 0);
    ReadsSplit(data, i + 1, raw, [q]);
    t := StartString(data, s, q);
    if raw != "" {
      assert raw + [q] == raw[..1] + (raw[1..] + [q]);
      ReadsSplit(data, i + 1, raw[..1], raw[1..] + [q]);
      t := StringRest(data, t, raw[1..]);
    }
    t := Settle(data, s, t, Value(SStr(q, raw)), i + |raw| + 2);
  }

  lemma StartNumber(data: string, s: State, neg: bool) returns (t: State)
    requires Ready(data, s) && s.regs.lab == AfterColon && s.regs.pos < |data|
    requires if neg then data[s.regs.pos] == '-' && s.regs.pos + 1 < |data| else Digit(data[s.regs.pos])
    ensures Leads(data, s, t) && Moved(s, t, Number1, s.regs.pos + if neg then 2 else 1) && t.regs.neg == neg
  {
    hide Run, Fits;
    t := Step(data, s);
    OneStep(data, s, t);
  }

  lemma PassFirst(data: string, s: State)
    requires Ready(data, s) && s.regs.lab == Number1 && s.regs.pos < |data|
    ensures s.regs.pos > 0
    ensures Leads(data, s, State(s.regs.(lab := NumberX, strStart := s.regs.pos - 1), s.open))
  {
    hide Run, Fits;
    OneStep(data, s, Step(data, s));
  }

  lemma {:induction false} ScanDigits(data: string, s: State, n: nat)
    requires Ready(data, s) && s.regs.lab in {NumberX, AfterDot} && s.regs.pos + n <= |data|
    requires forall i :: s.regs.pos <= i < s.regs.pos + n ==> Digit(data[i])
    ensures Leads(data, s, Goto(s, s.regs.lab, s.regs.pos + n))
    decreases n
  {
    hide Run, Fits;
    if n > 0 {
      OneStep(data, s, Goto(s, s.regs.lab, s.regs.pos + 1));
      ScanDigits(data, Goto(s, s.regs.lab, s.regs.pos + 1), n - 1);
    }
  }

  // From before a number to behind its digits.
  lemma PassDigits(data: string, s: State, neg: bool, digits: string) returns (t: State)
    requires Ready(data, s) && s.regs.lab == AfterColon && GoodDigits(neg, digits)
    requires Reads(data, s.regs.pos, Sign(neg) + digits) && s.regs.pos + |Sign(neg) + digits| < |data|
    ensures Leads(data, s, t) && Moved(s, t, NumberX, s.regs.pos + |Sign(neg) + digits|)
    ensures t.regs.neg == neg && t.regs.strStart == s.regs.pos + |Sign(neg)|
  {
    hide Run, Fits, Step, Ready, GoodDigits;
    var i := s.regs.pos;
    ReadsSplit(data, i, Sign(neg), digits);
    ReadsEach(data, i, Sign(neg));
    ReadsEach(data, i + |Sign(neg)|, digits);
    DigitsAt(neg, digits);
    t := StartNumber(data, s, neg);
    PassFirst(data, t);
    t := State(t.regs.(lab := NumberX, strStart := t.regs.pos - 1), t.open);
    forall j | t.regs.pos <= j < t.regs.pos + |digits| - 1
      ensures Digit(data[j])
    {
      assert data[j] == digits[1 + j - t.regs.pos];
    }
    ScanDigits(data, t, |digits| - 1);
    t := Goto(t, NumberX, t.regs.pos + |digits| - 1);
  }

  lemma DigitsAt(neg: bool, digits: string)
    requires GoodDigits(neg, digits)
    ensures digits != "" && (!neg ==> Digit(digits[0]))
    ensures forall i :: 0 < i < |digits| ==> Digit(digits[i])
  {
    assert forall i :: 0 < i < |digits| ==> digits[i] == digits[1..][i - 1];
  }

  function NumVal(neg: bool, text: string): Json {
    Val(if neg then NegNum else PosNum, text, false)
  }

  lemma EndDigits(data: string, s: State) returns (t: State)
    requires Ready(data, s) && s.regs.lab == NumberX && s.regs.pos < |data| && Ends(data[s.regs.pos])
    ensures Leads(data, s, t) && s.regs.strStart <= s.regs.pos
    ensures Ended(s, t, NumVal(s.regs.neg, data[s.regs.strStart..s.regs.pos]), s.regs.pos)
  {
    hide Run, Fits;
    t := Step(data, s);
    OneStep(data, s, t);
  }

  lemma PassDot(data: string, s: State)
    requires Ready(data, s) && s.regs.lab == NumberX && s.regs.pos < |data| && data[s.regs.pos] == '.'
    ensures Leads(data, s, Goto(s, AfterDot, s.regs.pos + 1))
  {
    hide Run, Fits;
    OneStep(data, s, Step(data, s));
  }

  // Whatever byte ends the fraction, the parser goes on behind it.
  lemma EndFraction(data: string, s: State) returns (t: State)
    requires Ready(data, s) && s.regs.lab == AfterDot && s.regs.pos < |data| && !Digit(data[s.regs.pos])
    ensures Leads(data, s, t) && s.regs.strStart <= s.regs.pos
    ensures Ended(s, t, NumVal(s.regs.neg, data[s.regs.strStart..s.regs.pos]), s.regs.pos + 1)
  {
    hide Run, Fits;
    t := Step(data, s);
    OneStep(data, s, t);
  }

  lemma ReadNum(data: string, s: State, neg: bool, digits: string) returns (t: State)
    requires Ready(data, s) && s.regs.lab == AfterColon && GoodDigits(neg, digits)
    requires Reads(data, s.regs.pos, Sign(neg) + digits)
    requires
      var end := s.regs.pos + |Sign(neg) + digits|;
      end < |data| && Ends(data[end])
    ensures Leads(data, s, t) && Arrived(s, t, NumVal(neg, digits), s.regs.pos + |Sign(neg) + digits|)
  {
    hide Run, Fits, Step, Ready, Put, AllDigits;
    var end := s.regs.pos + |Sign(neg) + digits|;
    ReadsSplit(data, s.regs.pos, Sign(neg), digits);
    t := PassDigits(data, s, neg, digits);
    t := EndDigits(data, t);
    t := Settle(data, s, t, NumVal(neg, digits), end);
  }

  lemma FractionPlaces(data: string, pos: nat, sign: string, digits: string, fraction: string, lost: char)
    requires Reads(data, pos, sign + (digits + "." + fraction + [lost]))
    ensures
      var dot := pos + |sign| + |digits|;
      var end := dot + 1 + |fraction|;
      && end + 1 == pos + |sign + (digits + "." + fraction + [lost])| <= |data|
      && Reads(data, pos, sign + digits) && data[dot] == '.' && Reads(data, dot + 1, fraction) && data[end] == lost
      && data[pos + |sign|..end] == digits + "." + fraction
  {
    var text := sign + (digits + "." + fraction + [lost]);
    var whole := sign + digits;
    ReadsEach(data, pos, text);
    assert text == whole + ("." + fraction + [lost]);
    ReadsSplit(data, pos, whole, "." + fraction + [lost]);
    assert text == (whole + ".") + (fraction + [lost]);
    ReadsSplit(data, pos, whole + ".", fraction + [lost]);
    ReadsSplit(data, pos + |whole| + 1, fraction, [lost]);
    FractionText(data, pos, sign, digits + "." + fraction, [lost]);
  }

  lemma FractionText(data: string, pos: nat, sign: string, text: string, lost: string)
    requires Reads(data, pos, sign + (text + lost))
    ensures data[pos + |sign|..pos + |sign| + |text|] == text
  {
    ReadsSplit(data, pos, sign, text + lost);
    ReadsSplit(data, pos + |sign|, text, lost);
  }

  // From the dot to behind the byte that ends the fraction.
  lemma PassFraction(data: string, s: State, fraction: string) returns (t: State)
    requires Ready(data, s) && s.regs.lab == NumberX && s.regs.pos < |data| && data[s.regs.pos] == '.'
    requires AllDigits(fraction) && Reads(data, s.regs.pos + 1, fraction)
    requires
      var end := s.regs.pos + 1 + |fraction|;
      end < |data| && !Digit(data[end])
    ensures
      var end := s.regs.pos + 1 + |fraction|;
      && Leads(data, s, t) && s.regs.strStart <= end
      && Ended(s, t, NumVal(s.regs.neg, data[s.regs.strStart..end]), end + 1)
  {
    hide Run, Fits, Step, Ready, Put;
    PassDot(data, s);
    t := Goto(s, AfterDot, s.regs.pos + 1);
    ReadsEach(data, t.regs.pos, fraction);
    ScanDigits(data, t, |fraction|);
    t := Goto(t, AfterDot, t.regs.pos + |fraction|);
    t := EndFraction(data, t);
  }

  lemma ReadFrac(data: string, s: State, neg: bool, digits: string, fraction: string, lost: char) returns (t: State)
    requires Ready(data, s) && s.regs.lab == AfterColon && GoodDigits(neg, digits)
    requires AllDigits(fraction) && !Digit(lost)
    requires
      var text := Sign(neg) + (digits + "." + fraction + [lost]);
      Reads(data, s.regs.pos, text) && s.regs.pos + |text| < |data|
    ensures Leads(data, s, t)
    ensures
      var text := Sign(neg) + (digits + "." + fraction + [lost]);
      Arrived(s, t, NumVal(neg, digits + "." + fraction), s.regs.pos + |text|)
  {
    hide Run, Fits, Step, Ready, Put, Reads, AllDigits, GoodDigits, Sign;
    FractionPlaces(data, s.regs.pos, Sign(neg), digits, fraction, lost);
    t := PassDigits(data, s, neg, digits);
    t := PassFraction(data, t, fraction);
    t := Settle(data, s, t, NumVal(neg, digits + "." + fraction), t.regs.pos);
  }

  lemma {:induction false} ScanWord(data: string, s: State, n: nat)
    requires Ready(data, s) && s.regs.lab == TypeX && s.regs.pos + n <= |data|
    requires forall i :: s.regs.pos <= i < s.regs.pos + n ==> Lower(data[i])
    ensures Leads(data, s, Goto(s, TypeX, s.regs.pos + n))
    decreases n
  {
    hide Run, Fits;
    if n > 0 {
      OneStep(data, s, Goto(s, TypeX, s.regs.pos + 1));
      ScanWord(data, Goto(s, TypeX, s.regs.pos + 1), n - 1);
    }
  }

  lemma StartWord(data: string, s: State)
    requires Ready(data, s) && s.regs.lab == AfterColon && s.regs.pos < |data| && Lower(data[s.regs.pos])
    ensures Leads(data, s, State(s.regs.(lab := TypeX, typeStart := s.regs.pos, pos := s.regs.pos + 1), s.open))
  {
    hide Run, Fits;
    OneStep(data, s, Step(data, s));
  }

  // The end of a word, which is one of the three or none.
  lemma EndWord(data: string, s: State, word: string) returns (t: State)
    requires Ready(data, s) && s.regs.lab == TypeX && s.regs.pos < |data| && !Lower(data[s.regs.pos])
    requires s.regs.typeStart <= s.regs.pos && data[s.regs.typeStart..s.regs.pos] == word
    ensures Leads(data, s, t)
    ensures IsWord(word) ==> Ended(s, t, Val(Meaning(word), "", false), s.regs.pos)
    ensures !IsWord(word) ==> t.regs.lab == Exit
  {
    hide Run, Fits;
    t := Step(data, s);
    OneStep(data, s, t);
  }

  lemma ReadWord(data: string, s: State, word: string) returns (t: State)
    requires Ready(data, s) && s.regs.lab == AfterColon && word != "" && forall c :: c in word ==> Lower(c)
    requires Reads(data, s.regs.pos, word)
    requires s.regs.pos + |word| < |data| && !Lower(data[s.regs.pos + |word|])
    ensures Leads(data, s, t)
    ensures IsWord(word) ==> Arrived(s, t, Val(Meaning(word), "", false), s.regs.pos + |word|)
    ensures !IsWord(word) ==> t.regs.lab == Exit
  {
    hide Run, Fits, Step, Ready, Put;
    var i := s.regs.pos;
    ReadsEach(data, i, word);
    StartWord(data, s);
    t := State(s.regs.(lab := TypeX, typeStart := i, pos := i + 1), s.open);
    ScanWord(data, t, |word| - 1);
    t := Goto(t, TypeX, i + |word|);
    t := EndWord(data, t, word);
    if IsWord(word) {
      t := Settle(data, s, t, Val(Meaning(word), "", false), i + |word|);
    }
  }

  lemma LowerWord(word: string)
    requires IsWord(word)
    ensures word != "" && forall c :: c in word ==> Lower(c)
  {
    assert word == "true" || word == "false" || word == "null";
  }

  // ----- values

  // What comes next ends an open-ended value.
  predicate Stops(data: string, pos: nat, v: Source) {
    pos < |data| && (OpenEnded(v) ==> Ends(data[pos]))
  }

  lemma ReadScalar(data: string, s: State, v: Source) returns (t: State)
    requires Ready(data, s) && s.regs.lab == AfterColon && Good(v) && !v.SHash? && !v.SArr?
    requires Reads(data, s.regs.pos, Text(v)) && Stops(data, s.regs.pos + |Text(v)|, v)
    ensures Leads(data, s, t) && Arrived(s, t, Value(v), s.regs.pos + |Text(v)|)
  {
    hide Run, Fits, Step, Ready, Put, GoodString, GoodDigits, AllDigits;
    match v
    case SStr(q, raw) =>
      assert [q] + raw + [q] == [q] + (raw + [q]);
      t := ReadString(data, s, q, raw);
    case SNum(neg, digits) => t := ReadNum(data, s, neg, digits);
    case SFrac(neg, digits, fraction, lost) => t := ReadFrac(data, s, neg, digits, fraction, lost);
    case SWord(word) =>
      LowerWord(word);
      t := ReadWord(data, s, word);
  }

  // The open containers with the top one's value replaced.
  function WithTop(open: seq<Frame>, v: Json): seq<Frame>
    requires open != []
  {
    open[|open| - 1 := open[|open| - 1].(value := v)]
  }

  lemma PushTop(open: seq<Frame>, key: string, v: Json)
    requires open != [] && (v.Hash? || v.Arr?)
    ensures
      var empty := if v.Hash? then Hash(map[]) else Arr([]);
      var pushed := Push(open, key, empty);
      && Top(pushed) == empty && Arrays(pushed) == Arrays(open) + (if v.Arr? then 1 else 0)
      && |WithTop(pushed, v)| > 1 && Top(WithTop(pushed, v)) == v
      && Arrays(WithTop(pushed, v)) == Arrays(pushed)
      && Pop(WithTop(pushed, v)) == Put(open, key, v)
  {
    var empty := if v.Hash? then Hash(map[]) else Arr([]);
    var pushed := Push(open, key, empty);
    assert pushed[..|open|] == open && WithTop(pushed, v)[..|open|] == open;
  }

  lemma SameTop(data: string, s: State)
    requires Ready(data, s)
    ensures s.open != [] && WithTop(s.open, Top(s.open)) == s.open
  {
  }

  lemma TopOfWithTop(open: seq<Frame>, v: Json)
    requires open != [] && (v.Arr? <==> Top(open).Arr?)
    ensures Top(WithTop(open, v)) == v && Arrays(WithTop(open, v)) == Arrays(open) && |WithTop(open, v)| == |open|
  {
    assert WithTop(open, v)[..|open| - 1] == open[..|open| - 1];
  }

  lemma OpenHash(data: string, s: State) returns (t: State)
    requires Ready(data, s) && s.regs.lab == AfterColon && s.regs.pos < |data| && data[s.regs.pos] == '{'
    ensures Leads(data, s, t) && t.open == Push(s.open, s.regs.key, Hash(map[]))
    ensures t.regs.lab == InHash && t.regs.pos == s.regs.pos + 1
  {
    hide Run, Fits;
    t := Step(data, s);
    OneStep(data, s, t);
  }

  lemma OpenArr(data: string, s: State) returns (t: State)
    requires Ready(data, s) && s.regs.lab == AfterColon && s.regs.pos < |data| && data[s.regs.pos] == '['
    requires Arrays(s.open) < MAX_DEPTH
    ensures Leads(data, s, t) && t.open == Push(s.open, s.regs.key, Arr([]))
    ensures t.regs.lab == AfterColon && t.regs.pos == s.regs.pos + 1
  {
    hide Run, Fits;
    t := Step(data, s);
    OneStep(data, s, t);
  }

  lemma CloseHash(data: string, s: State) returns (t: State)
    requires Ready(data, s) && s.regs.lab == InHash && s.regs.pos < |data| && data[s.regs.pos] == '}'
    requires |s.open| > 1 && Top(s.open).Hash?
    ensures Leads(data, s, t) && t.open == Pop(s.open)
    ensures t.regs.lab == Home(t.open) && t.regs.pos == s.regs.pos + 1
  {
    hide Run, Fits;
    t := Step(data, s);
    OneStep(data, s, t);
  }

  lemma CloseArr(data: string, s: State) returns (t: State)
    requires Ready(data, s) && s.regs.lab == AfterColon && s.regs.pos < |data| && data[s.regs.pos] == ']'
    requires |s.open| > 1 && Top(s.open).Arr?
    ensures Leads(data, s, t) && t.open == Pop(s.open)
    ensures t.regs.lab == Home(t.open) && t.regs.pos == s.regs.pos + 1
  {
    hide Run, Fits;
    t := Step(data, s);
    OneStep(data, s, t);
  }

  lemma {:induction false} ReadValue(data: string, s: State, v: Source) returns (t: State)
    requires Ready(data, s) && s.regs.lab == AfterColon && Good(v) && Arrays(s.open) + Depth(v) <= MAX_DEPTH
    requires Reads(data, s.regs.pos, Text(v)) && Stops(data, s.regs.pos + |Text(v)|, v)
    ensures Leads(data, s, t) && Arrived(s, t, Value(v), s.regs.pos + |Text(v)|)
    decreases v, 3
  {
    hide Run, Fits, Step, Ready, Put, GapText, MembersText, ItemsText, Fields, Items, GoodMembers, GoodItems, GoodGap,
      MembersDepth, ItemsDepth;
    if v.SHash? {
      t := ReadHash(data, s, v.lead, v.members);
    } else if v.SArr? {
      t := ReadArr(data, s, v.lead, v.items);
    } else {
      t := ReadScalar(data, s, v);
    }
  }

  // From the opening to the closing brace.
  lemma {:induction false} ReadHash(data: string, s: State, lead: Gap, members: seq<Member>) returns (t: State)
    requires Ready(data, s) && s.regs.lab == AfterColon && GoodGap(lead, true) && GoodMembers(members)
    requires Arrays(s.open) + MembersDepth(members) <= MAX_DEPTH
    requires Reads(data, s.regs.pos, "{" + GapText(lead) + MembersText(members) + "}")
    ensures Leads(data, s, t)
    ensures Arrived(s, t, Hash(Fields(members)), s.regs.pos + |GapText(lead)| + |MembersText(members)| + 2)
    decreases members, 2
  {
    hide Run, Fits, Step, Ready, Put, Fields, MembersText, GoodMembers, GapText, MembersDepth, Arrays, Pop, Push,
      WithTop;
    SameTop(data, s);
    var body := GapText(lead) + MembersText(members) + "}";
    assert "{" + GapText(lead) + MembersText(members) + "}" == "{" + body;
    ReadsSplit(data, s.regs.pos, "{", body);
    ReadsAt(data, s.regs.pos, "{", 0);
    PushTop(s.open, s.regs.key, Hash(Fields(members)));
    t := OpenHash(data, s);
    t := ReadBody(data, t, lead, members);
    t := CloseHash(data, t);
  }

  // From behind the opening brace to before the closing one.
  lemma {:induction false} ReadBody(data: string, s: State, lead: Gap, members: seq<Member>) returns (t: State)
    requires Ready(data, s) && s.regs.lab == InHash && GoodGap(lead, true) && GoodMembers(members)
    requires Top(s.open) == Hash(map[]) && Arrays(s.open) + MembersDepth(members) <= MAX_DEPTH
    requires Reads(data, s.regs.pos, GapText(lead) + MembersText(members) + "}")
    ensures Leads(data, s, t) && t.open == WithTop(s.open, Hash(Fields(members)))
    ensures t.regs.lab == InHash && t.regs.pos == s.regs.pos + |GapText(lead)| + |MembersText(members)|
    ensures t.regs.pos < |data| && data[t.regs.pos] == '}'
    decreases members, 1
  {
    hide Run, Fits, Step, Ready, Fields, MembersText, GoodMembers, GapText, MembersDepth, Arrays, WithTop;
    var i := s.regs.pos;
    ReadsSplit(data, i, GapText(lead) + MembersText(members), "}");
    ReadsSplit(data, i, GapText(lead), MembersText(members));
    ReadsAt(data, i + |GapText(lead) + MembersText(members)|, "}", 0);
    SkipGap(data, s, AtMember, lead);
    t := Goto(s, InHash, i + |GapText(lead)|);
    t := ReadMembers(data, t, members);
  }

  lemma {:induction false} ReadMembers(data: string, s: State, members: seq<Member>) returns (t: State)
    requires Ready(data, s) && s.regs.lab == InHash && GoodMembers(members)
    requires Top(s.open) == Hash(map[]) && Arrays(s.open) + MembersDepth(members) <= MAX_DEPTH
    requires Reads(data, s.regs.pos, MembersText(members)) && s.regs.pos + |MembersText(members)| < |data|
    requires
      var end := s.regs.pos + |MembersText(members)|;
      members != [] && members[|members| - 1].after == [] ==> Stops(data, end, members[|members| - 1].value)
    ensures Leads(data, s, t) && t.open == WithTop(s.open, Hash(Fields(members)))
    ensures t.regs.lab == InHash && t.regs.pos == s.regs.pos + |MembersText(members)|
    decreases members, 0
  {
    hide Run, Fits, Step, Ready, MemberText, GoodMember, Stops, Arrays, Put, Add;
    SameTop(data, s);
    if members == [] {
      t := s;
    } else {
      var front, last := members[..|members| - 1], members[|members| - 1];
      ReadsSplit(data, s.regs.pos, MembersText(front), MemberText(last));
      FrontStops(data, s.regs.pos + |MembersText(front)|, front, last);
      t := ReadMembers(data, s, front);
      TopOfWithTop(s.open, Hash(Fields(front)));
      t := ReadMember(data, t, last);
      AddMember(s.open, Fields(front), last.key.text, Value(last.value));
      FieldsStep(members);
    }
  }

  lemma FieldsStep(members: seq<Member>)
    requires members != []
    ensures
      var front, last := members[..|members| - 1], members[|members| - 1];
      Fields(members) == Add(Hash(Fields(front)), last.key.text, Value(last.value)).members
  {
    hide Value;
  }

  lemma AddMember(open: seq<Frame>, m: map<string, seq<Json>>, key: string, v: Json)
    requires open != []
    ensures Add(Hash(m), key, v).Hash?
    ensures Put(WithTop(open, Hash(m)), key, v) == WithTop(open, Hash(Add(Hash(m), key, v).members))
  {
  }

  // Inside a sequence an open-ended value is always followed by a gap.
  lemma FrontStops(data: string, pos: nat, front: seq<Member>, last: Member)
    requires GoodMembers(front + [last]) && pos < |data|
    ensures front != [] && front[|front| - 1].after == [] ==> Stops(data, pos, front[|front| - 1].value)
  {
    assert (front + [last])[..|front|] == front;
  }

  lemma {:induction false} ReadMember(data: string, s: State, m: Member) returns (t: State)
    requires Ready(data, s) && s.regs.lab == InHash && GoodMember(m) && Top(s.open).Hash?
    requires Arrays(s.open) + Depth(m.value) <= MAX_DEPTH
    requires Reads(data, s.regs.pos, MemberText(m)) && s.regs.pos + |MemberText(m)| < |data|
    requires m.after == [] ==> Stops(data, s.regs.pos + |MemberText(m)|, m.value)
    ensures Leads(data, s, t) && t.open == Put(s.open, m.key.text, Value(m.value))
    ensures t.regs.lab == InHash && t.regs.pos == s.regs.pos + |MemberText(m)|
    decreases m, 0
  {
    hide Run, Fits, Step, Ready, Put, KeyText, GapText, Text, Good, Value, Stops, GoodKey, GoodGap, Arrays;
    SameTop(data, s);
    MemberParts(data, s.regs.pos, m);
    t := ReadToValue(data, s, m);
    t := ReadValue(data, t, m.value);
    PutKeeps(s.open, m.key.text, Value(m.value));
    TopAdded(Top(s.open), m.key.text, Value(m.value));
    GapHasNone(m.after, true);
    SkipGap(data, t, AtMember, m.after);
    t := Goto(t, InHash, t.regs.pos + |GapText(m.after)|);
  }

  lemma TopAdded(top: Json, key: string, v: Json)
    ensures Add(top, key, v).Hash? == top.Hash? && Add(top, key, v).Arr? == top.Arr?
  {
  }

  lemma GapHasNone(g: Gap, blocks: bool)
    requires GoodGap(g, blocks)
    ensures GoodGap(g, true) && (!blocks ==> !HasBlock(g))
  {
  }

  // The key, its colon, and the gap before the value.
  lemma ReadToValue(data: string, s: State, m: Member) returns (t: State)
    requires Ready(data, s) && s.regs.lab == InHash && GoodMember(m)
    requires Reads(data, s.regs.pos, KeyText(m.key) + (m.skip + ":"))
    requires
      var p := s.regs.pos + |KeyText(m.key)| + |m.skip| + 1;
      Reads(data, p, GapText(m.before)) && p + |GapText(m.before)| < |data|
    ensures Leads(data, s, t) && t.open == s.open && t.regs.key == m.key.text
    ensures t.regs.lab == AfterColon
    ensures t.regs.pos == s.regs.pos + |KeyText(m.key)| + |m.skip| + 1 + |GapText(m.before)|
  {
    hide Run, Fits, Step, Ready, KeyText, GapText, GoodKey, GoodGap, HasBlock;
    t := ReadKey(data, s, m.key, m.skip);
    GapHasNone(m.before, false);
    SkipGap(data, t, AtValue, m.before);
    t := Goto(t, AfterColon, t.regs.pos + |GapText(m.before)|);
  }

  // Where the parts of a member are.
  lemma MemberParts(data: string, pos: nat, m: Member)
    requires Reads(data, pos, MemberText(m)) && pos + |MemberText(m)| < |data|
    requires GoodGap(m.after, true) && (m.after == [] ==> Stops(data, pos + |MemberText(m)|, m.value))
    ensures
      var p := pos + |KeyText(m.key)| + |m.skip| + 1;
      var p' := p + |GapText(m.before)|;
      var p'' := p' + |Text(m.value)|;
      && Reads(data, pos, KeyText(m.key) + (m.skip + ":"))
      && Reads(data, p, GapText(m.before)) && Reads(data, p', Text(m.value)) && Reads(data, p'', GapText(m.after))
      && |MemberText(m)| == p'' + |GapText(m.after)| - pos
      && Stops(data, p'', m.value)
  {
    hide KeyText, GapText, Text, Stops;
    var key, before := KeyText(m.key) + (m.skip + ":"), GapText(m.before);
    var value, after := Text(m.value), GapText(m.after);
    Grouped(KeyText(m.key), m.skip, ":", before, value, after);
    assert MemberText(m) == key + (before + (value + after));
    ReadsSplit(data, pos, key, before + (value + after));
    ReadsSplit(data, pos + |key|, before, value + after);
    ReadsSplit(data, pos + |key| + |before|, value, after);
    EmptyGap();
    GapStops(data, pos + |key| + |before| + |value|, m.value, m.after, true);
  }

  // A value followed by a gap: the gap, or what follows it, stops the value.
  lemma GapStops(data: string, pos: nat, v: Source, after: Gap, blocks: bool)
    requires GoodGap(after, blocks) && Reads(data, pos, GapText(after)) && pos + |GapText(after)| < |data|
    requires after == [] ==> Stops(data, pos, v)
    ensures Stops(data, pos, v)
  {
    if after != [] {
      GapBegins(after, blocks);
      ReadsAt(data, pos, GapText(after), 0);
    }
  }

  // From the opening to the closing bracket.
  lemma {:induction false} ReadArr(data: string, s: State, lead: Gap, items: seq<Item>) returns (t: State)
    requires Ready(data, s) && s.regs.lab == AfterColon && GoodGap(lead, false) && GoodItems(items)
    requires Arrays(s.open) + 1 + ItemsDepth(items) <= MAX_DEPTH
    requires Reads(data, s.regs.pos, "[" + GapText(lead) + ItemsText(items) + "]")
    ensures Leads(data, s, t)
    ensures Arrived(s, t, Arr(Items(items)), s.regs.pos + |GapText(lead)| + |ItemsText(items)| + 2)
    decreases items, 2
  {
    hide Run, Fits, Step, Ready, Put, Items, ItemsText, GoodItems, GapText, ItemsDepth, Arrays, Pop, Push, WithTop;
    SameTop(data, s);
    var body := GapText(lead) + ItemsText(items) + "]";
    assert "[" + GapText(lead) + ItemsText(items) + "]" == "[" + body;
    ReadsSplit(data, s.regs.pos, "[", body);
    ReadsAt(data, s.regs.pos, "[", 0);
    PushTop(s.open, s.regs.key, Arr(Items(items)));
    t := OpenArr(data, s);
    t := ReadArrBody(data, t, lead, items);
    t := CloseArr(data, t);
  }

  lemma {:induction false} ReadArrBody(data: string, s: State, lead: Gap, items: seq<Item>) returns (t: State)
    requires Ready(data, s) && s.regs.lab == AfterColon && GoodGap(lead, false) && GoodItems(items)
    requires Top(s.open) == Arr([]) && Arrays(s.open) + ItemsDepth(items) <= MAX_DEPTH
    requires Reads(data, s.regs.pos, GapText(lead) + ItemsText(items) + "]")
    ensures Leads(data, s, t) && t.open == WithTop(s.open, Arr(Items(items)))
    ensures t.regs.lab == AfterColon && t.regs.pos == s.regs.pos + |GapText(lead)| + |ItemsText(items)|
    ensures t.regs.pos < |data| && data[t.regs.pos] == ']'
    decreases items, 1
  {
    hide Run, Fits, Step, Ready, Items, ItemsText, GoodItems, GapText, ItemsDepth, Arrays, WithTop, HasBlock;
    var i := s.regs.pos;
    ReadsSplit(data, i, GapText(lead) + ItemsText(items), "]");
    ReadsSplit(data, i, GapText(lead), ItemsText(items));
    ReadsAt(data, i + |GapText(lead) + ItemsText(items)|, "]", 0);
    GapHasNone(lead, false);
    SkipGap(data, s, AtValue, lead);
    t := Goto(s, AfterColon, i + |GapText(lead)|);
    t := ReadItems(data, t, items);
  }

  lemma {:induction false} ReadItems(data: string, s: State, items: seq<Item>) returns (t: State)
    requires Ready(data, s) && s.regs.lab == AfterColon && GoodItems(items)
    requires Top(s.open) == Arr([]) && Arrays(s.open) + ItemsDepth(items) <= MAX_DEPTH
    requires Reads(data, s.regs.pos, ItemsText(items)) && s.regs.pos + |ItemsText(items)| < |data|
    requires
      var end := s.regs.pos + |ItemsText(items)|;
      items != [] && items[|items| - 1].after == [] ==> Stops(data, end, items[|items| - 1].value)
    ensures Leads(data, s, t) && t.open == WithTop(s.open, Arr(Items(items)))
    ensures t.regs.lab == AfterColon && t.regs.pos == s.regs.pos + |ItemsText(items)|
    decreases items, 0
  {
    hide Run, Fits, Step, Ready, Stops, Text, Good, GapText, Value, GoodGap, Arrays, Put;
    SameTop(data, s);
    if items == [] {
      t := s;
    } else {
      var front, last := items[..|items| - 1], items[|items| - 1];
      assert ItemsText(items) == ItemsText(front) + (Text(last.value) + GapText(last.after));
      ReadsSplit(data, s.regs.pos, ItemsText(front), Text(last.value) + GapText(last.after));
      FrontItemStops(data, s.regs.pos + |ItemsText(front)|, front, last);
      NonEmptyText(last.value);
      EmptyGap();
      t := ReadItems(data, s, front);
      TopOfWithTop(s.open, Arr(Items(front)));
      t := ReadItem(data, t, last);
      AddItem(s.open, Items(front), t.regs.key, Value(last.value));
    }
  }

  // An array does not look at the key.
  lemma AddItem(open: seq<Frame>, items: seq<Json>, key: string, v: Json)
    requires open != []
    ensures forall key :: Put(WithTop(open, Arr(items)), key, v) == WithTop(open, Arr(items + [v]))
  {
  }

  lemma NonEmptyText(v: Source)
    requires Good(v)
    ensures Text(v) != ""
  {
  }

  lemma FrontItemStops(data: string, pos: nat, front: seq<Item>, last: Item)
    requires GoodItems(front + [last]) && pos < |data|
    ensures front != [] && front[|front| - 1].after == [] ==> Stops(data, pos, front[|front| - 1].value)
  {
    assert (front + [last])[..|front|] == front;
  }

  lemma {:induction false} ReadItem(data: string, s: State, m: Item) returns (t: State)
    requires Ready(data, s) && s.regs.lab == AfterColon && Good(m.value) && GoodGap(m.after, false)
    requires Top(s.open).Arr? && Arrays(s.open) + Depth(m.value) <= MAX_DEPTH
    requires Reads(data, s.regs.pos, Text(m.value) + GapText(m.after))
    requires s.regs.pos + |Text(m.value)| + |GapText(m.after)| < |data|
    requires m.after == [] ==> Stops(data, s.regs.pos + |Text(m.value)|, m.value)
    ensures Leads(data, s, t) && t.open == Put(s.open, s.regs.key, Value(m.value))
    ensures t.regs.lab == AfterColon && t.regs.pos == s.regs.pos + |Text(m.value)| + |GapText(m.after)|
    decreases m, 0
  {
    hide Run, Fits, Step, Ready, Put, GapText, Text, Good, Value, Stops, GoodGap, Arrays, HasBlock;
    SameTop(data, s);
    ReadsSplit(data, s.regs.pos, Text(m.value), GapText(m.after));
    EmptyGap();
    GapStops(data, s.regs.pos + |Text(m.value)|, m.value, m.after, false);
    t := ReadValue(data, s, m.value);
    PutKeeps(s.open, s.regs.key, Value(m.value));
    TopAdded(Top(s.open), s.regs.key, Value(m.value));
    GapHasNone(m.after, false);
    SkipGap(data, t, AtValue, m.after);
    t := Goto(t, AfterColon, t.regs.pos + |GapText(m.after)|);
  }

  // ----- more arrays inside each other than the stack has places

  lemma NotOpened(data: string, s: State)
    requires Ready(data, s) && s.regs.lab == AfterColon && s.regs.pos < |data| && data[s.regs.pos] == '['
    requires Arrays(s.open) >= MAX_DEPTH
    ensures !Fits(data, s)
  {
    hide Run, Step;
  }

  lemma {:induction false} DeepValue(data: string, s: State, v: Source)
    requires Ready(data, s) && s.regs.lab == AfterColon && Good(v)
    requires Arrays(s.open) <= MAX_DEPTH < Arrays(s.open) + Depth(v)
    requires Reads(data, s.regs.pos, Text(v)) && Stops(data, s.regs.pos + |Text(v)|, v)
    ensures !Fits(data, s)
    decreases v, 2
  {
    hide Run, Fits, Step, Ready, GapText, MembersText, ItemsText, GoodMembers, GoodItems, GoodGap,
      MembersDepth, ItemsDepth, Arrays, HasBlock;
    SameTop(data, s);
    var i := s.regs.pos;
    if v.SHash? {
      var body := GapText(v.lead) + (MembersText(v.members) + "}");
      assert Text(v) == "{" + body;
      ReadsSplit(data, i, "{", body);
      ReadsAt(data, i, "{", 0);
      PushTop(s.open, s.regs.key, Hash(map[]));
      var t := OpenHash(data, s);
      DeepBody(data, t, v.lead, v.members);
    } else {
      var body := GapText(v.lead) + (ItemsText(v.items) + "]");
      assert Text(v) == "[" + body;
      ReadsSplit(data, i, "[", body);
      ReadsAt(data, i, "[", 0);
      if Arrays(s.open) == MAX_DEPTH {
        NotOpened(data, s);
      } else {
        PushTop(s.open, s.regs.key, Arr([]));
        var t := OpenArr(data, s);
        DeepArrBody(data, t, v.lead, v.items);
      }
    }
  }

  lemma {:induction false} DeepBody(data: string, s: State, lead: Gap, members: seq<Member>)
    requires Ready(data, s) && s.regs.lab == InHash && GoodGap(lead, true) && GoodMembers(members)
    requires Top(s.open) == Hash(map[]) && Arrays(s.open) <= MAX_DEPTH < Arrays(s.open) + MembersDepth(members)
    requires Reads(data, s.regs.pos, GapText(lead) + (MembersText(members) + "}"))
    ensures !Fits(data, s)
    decreases members, 1
  {
    hide Run, Fits, Step, Ready, MembersText, GoodMembers, GapText, MembersDepth, Arrays, HasBlock;
    var i := s.regs.pos;
    ReadsSplit(data, i, GapText(lead), MembersText(members) + "}");
    ReadsSplit(data, i + |GapText(lead)|, MembersText(members), "}");
    ReadsAt(data, i + |GapText(lead)| + |MembersText(members)|, "}", 0);
    SkipGap(data, s, AtMember, lead);
    DeepMembers(data, Goto(s, InHash, i + |GapText(lead)|), members);
  }

  lemma {:induction false} DeepMembers(data: string, s: State, members: seq<Member>)
    requires Ready(data, s) && s.regs.lab == InHash && GoodMembers(members)
    requires Top(s.open) == Hash(map[]) && Arrays(s.open) <= MAX_DEPTH < Arrays(s.open) + MembersDepth(members)
    requires Reads(data, s.regs.pos, MembersText(members)) && s.regs.pos + |MembersText(members)| < |data|
    requires
      var end := s.regs.pos + |MembersText(members)|;
      members != [] && members[|members| - 1].after == [] ==> Stops(data, end, members[|members| - 1].value)
    ensures !Fits(data, s)
    decreases members, 0
  {
    hide Run, Fits, Step, Ready, MemberText, GoodMember, Stops, Arrays, Depth;
    SameTop(data, s);
    var front, last := members[..|members| - 1], members[|members| - 1];
    ReadsSplit(data, s.regs.pos, MembersText(front), MemberText(last));
    FrontStops(data, s.regs.pos + |MembersText(front)|, front, last);
    if Arrays(s.open) + MembersDepth(front) > MAX_DEPTH {
      DeepMembers(data, s, front);
    } else {
      var t := ReadMembers(data, s, front);
      TopOfWithTop(s.open, Hash(Fields(front)));
      DeepMember(data, t, last);
    }
  }

  lemma {:induction false} DeepMember(data: string, s: State, m: Member)
    requires Ready(data, s) && s.regs.lab == InHash && GoodMember(m)
    requires Arrays(s.open) <= MAX_DEPTH < Arrays(s.open) + Depth(m.value)
    requires Reads(data, s.regs.pos, MemberText(m)) && s.regs.pos + |MemberText(m)| < |data|
    requires m.after == [] ==> Stops(data, s.regs.pos + |MemberText(m)|, m.value)
    ensures !Fits(data, s)
    decreases m, 0
  {
    hide Run, Fits, Step, Ready, KeyText, GapText, Text, Good, Stops, GoodKey, GoodGap, Arrays, Depth;
    MemberParts(data, s.regs.pos, m);
    var t := ReadToValue(data, s, m);
    DeepValue(data, t, m.value);
  }

  lemma {:induction false} DeepArrBody(data: string, s: State, lead: Gap, items: seq<Item>)
    requires Ready(data, s) && s.regs.lab == AfterColon && GoodGap(lead, false) && GoodItems(items)
    requires Top(s.open) == Arr([]) && Arrays(s.open) <= MAX_DEPTH < Arrays(s.open) + ItemsDepth(items)
    requires Reads(data, s.regs.pos, GapText(lead) + (ItemsText(items) + "]"))
    ensures !Fits(data, s)
    decreases items, 1
  {
    hide Run, Fits, Step, Ready, ItemsText, GoodItems, GapText, ItemsDepth, Arrays, HasBlock;
    var i := s.regs.pos;
    ReadsSplit(data, i, GapText(lead), ItemsText(items) + "]");
    ReadsSplit(data, i + |GapText(lead)|, ItemsText(items), "]");
    ReadsAt(data, i + |GapText(lead)| + |ItemsText(items)|, "]", 0);
    GapHasNone(lead, false);
    SkipGap(data, s, AtValue, lead);
    DeepItems(data, Goto(s, AfterColon, i + |GapText(lead)|), items);
  }

  lemma {:induction false} DeepItems(data: string, s: State, items: seq<Item>)
    requires Ready(data, s) && s.regs.lab == AfterColon && GoodItems(items)
    requires Top(s.open) == Arr([]) && Arrays(s.open) <= MAX_DEPTH < Arrays(s.open) + ItemsDepth(items)
    requires Reads(data, s.regs.pos, ItemsText(items)) && s.regs.pos + |ItemsText(items)| < |data|
    requires
      var end := s.regs.pos + |ItemsText(items)|;
      items != [] && items[|items| - 1].after == [] ==> Stops(data, end, items[|items| - 1].value)
    ensures !Fits(data, s)
    decreases items, 0
  {
    hide Run, Fits, Step, Ready, Stops, Text, Good, GapText, GoodGap, Arrays, Depth, Value, Reads, HasBlock;
    SameTop(data, s);
    var front, last := items[..|items| - 1], items[|items| - 1];
    assert ItemsText(items) == ItemsText(front) + (Text(last.value) + GapText(last.after));
    ReadsSplit(data, s.regs.pos, ItemsText(front), Text(last.value) + GapText(last.after));
    FrontItemStops(data, s.regs.pos + |ItemsText(front)|, front, last);
    NonEmptyText(last.value);
    EmptyGap();
    if Arrays(s.open) + ItemsDepth(front) > MAX_DEPTH {
      DeepItems(data, s, front);
    } else {
      var t := ReadItems(data, s, front);
      TopOfWithTop(s.open, Arr(Items(front)));
      ReadsSplit(data, t.regs.pos, Text(last.value), GapText(last.after));
      GapStops(data, t.regs.pos + |Text(last.value)|, last.value, last.after, false);
      DeepValue(data, t, last.value);
    }
  }

  // ----- whole inputs

  // The array stack is enough, the parser comes to the end, and this is the tree.
  predicate Gives(data: string, v: Json) {
    Fits(data, START) && Run(data, START).regs.lab == Done && Collapsed(Run(data, START).open) == v
  }

  // Nothing is left but to end.
  predicate EndsQuietly(data: string, s: State)
    requires Ready(data, s)
  {
    Run(data, s).open == s.open && Run(data, s).regs.lab == Done && Fits(data, s)
  }

  lemma EndOfInput(data: string, s: State)
    requires Ready(data, s) && !Halted(s.regs) && s.regs.pos >= |data|
    ensures EndsQuietly(data, s)
  {
    hide Run, Fits;
    var t := Step(data, s);
    OneStep(data, s, t);
    Halts(data, t);
  }

  lemma Halts(data: string, t: State)
    requires Ready(data, t) && Halted(t.regs)
    ensures Run(data, t) == t && Fits(data, t)
  {
  }

  // A block comment that ends with the input is not seen to end.
  lemma EndBlock(data: string, s: State)
    requires Ready(data, s) && s.regs.lab == HashComment2 && s.regs.pos + 2 == |data|
    ensures EndsQuietly(data, s)
  {
    hide Run, Fits;
    var t := Step(data, s);
    OneStep(data, s, t);
    var t' := Step(data, t);
    OneStep(data, t, t');
    EndOfInput(data, t');
  }

  lemma LastItem(data: string, s: State, g: GapItem)
    requires Ready(data, s) && s.regs.lab == InHash && GoodItem(g, true)
    requires Reads(data, s.regs.pos, ItemText(g)) && s.regs.pos + |ItemText(g)| == |data|
    ensures EndsQuietly(data, s)
  {
    hide Run, Fits, Step, Ready, NoNewline, NoClosing;
    match g
    case Blank(_) =>
      ReadsAt(data, s.regs.pos, ItemText(g), 0);
      StepIdle(data, s, AtMember);
      EndOfInput(data, Goto(s, InHash, |data|));
    case LineComment(_, _) =>
      SkipLineItem(data, s, AtMember, g);
      EndOfInput(data, Goto(s, InHash, |data|));
    case BlockComment(body) =>
      EnterBlock(data, s, AtMember, g);
      EndBlock(data, Goto(s, HashComment2, s.regs.pos + 2 + |body|));
  }

  lemma EndGap(data: string, s: State, tail: Gap)
    requires Ready(data, s) && s.regs.lab == InHash && GoodGap(tail, true)
    requires Reads(data, s.regs.pos, GapText(tail)) && s.regs.pos + |GapText(tail)| == |data|
    ensures EndsQuietly(data, s)
  {
    hide Run, Fits, Step, Ready, ItemText;
    if tail == [] {
      EndOfInput(data, s);
    } else {
      var front, last := tail[..|tail| - 1], tail[|tail| - 1];
      ReadsSplit(data, s.regs.pos, GapText(front), ItemText(last));
      ItemNotEmpty(last);
      SkipGap(data, s, AtMember, front);
      LastItem(data, Goto(s, InHash, s.regs.pos + |GapText(front)|), last);
    }
  }

  lemma ItemNotEmpty(g: GapItem)
    ensures ItemText(g) != ""
  {
  }

  // The closing brace of the root is passed over.
  lemma RootBrace(data: string, s: State)
    requires Ready(data, s) && s.regs.lab == InHash && s.regs.pos < |data| && data[s.regs.pos] == '}' && |s.open| == 1
    ensures Leads(data, s, Goto(s, InHash, s.regs.pos + 1))
  {
    hide Run, Fits;
    OneStep(data, s, Step(data, s));
  }

  lemma RootPlaces(v: Source, tail: Gap)
    requires v.SHash?
    ensures
      var data := Text(v) + GapText(tail);
      && Reads(data, 1, GapText(v.lead) + MembersText(v.members) + "}")
      && Reads(data, 1, GapText(v.lead) + (MembersText(v.members) + "}"))
      && Reads(data, |Text(v)|, GapText(tail))
      && |Text(v)| == 2 + |GapText(v.lead)| + |MembersText(v.members)|
  {
    hide GapText, MembersText;
    var data := Text(v) + GapText(tail);
    var body := GapText(v.lead) + MembersText(v.members) + "}";
    assert body == GapText(v.lead) + (MembersText(v.members) + "}");
    assert data == "{" + (body + GapText(tail));
    assert Reads(data, 0, data);
    ReadsSplit(data, 0, "{", body + GapText(tail));
    ReadsSplit(data, 1, body, GapText(tail));
  }

  // A good source with any gap behind it is read as its tree, if it has at most
  // ten arrays inside each other; and exactly then the array stack is enough.
  lemma SourceIsRead(v: Source, tail: Gap)
    requires v.SHash? && Good(v) && GoodGap(tail, true)
    ensures
      var data := Text(v) + GapText(tail);
      && (Fits(data, START) <==> Depth(v) <= 10)
      && (Depth(v) <= 10 ==> Run(data, START).regs.lab == Done && Collapsed(Run(data, START).open) == Value(v))
  {
    hide Run, Fits, Step, GapText, MembersText, Fields, GoodMembers, GoodGap, MembersDepth;
    var data := Text(v) + GapText(tail);
    RootPlaces(v, tail);
    StartsEmpty();
    if Depth(v) <= 10 {
      var t := ReadBody(data, START, v.lead, v.members);
      RootBrace(data, t);
      EndGap(data, Goto(t, InHash, |Text(v)|), tail);
    } else {
      DeepBody(data, START, v.lead, v.members);
    }
  }

  lemma StartsEmpty()
    ensures Arrays(START.open) == 0 && |START.open| == 1 && Top(START.open) == Hash(map[])
  {
    assert START.open[..0] == [];
  }

  // ----- what readme.txt promises and the parser does not keep

  // Whether the byte at a place means nothing to the parser.
  predicate Passed(data: string, i: nat, open: seq<Frame>)
    requires i < |data| && open != []
  {
    var c := data[i];
    && c != '"' && c != '\'' && !('a' <= c <= 'z')
    && (c == '/' && i + 2 < |data| ==> data[i + 1] != '/' && data[i + 1] != '*')
    && if Top(open).Arr? then c != '{' && c != '[' && c != ']' && c != '-' && !('0' <= c <= '9')
       else c == '}' ==> |open| == 1
  }

  lemma PassedStep(data: string, s: State)
    requires Ready(data, s) && s.regs.lab == Home(s.open) && s.regs.pos < |data| && !Top(s.open).Val?
    requires s.open[0].value.Hash?
    ensures Step(data, s) == Goto(s, s.regs.lab, s.regs.pos + 1) <==> Passed(data, s.regs.pos, s.open)
  {
    if |s.open| > 1 {
      PopShorter(s.open);
    }
    if Top(s.open).Arr? {
      PassedInArr(data, s);
    } else {
      PassedInHash(data, s);
    }
  }

  lemma PopShorter(open: seq<Frame>)
    requires |open| > 1
    ensures |Pop(open)| < |open|
  {
  }

  lemma PassedInHash(data: string, s: State)
    requires Ready(data, s) && s.regs.lab == InHash && s.regs.pos < |data| && Top(s.open).Hash?
    requires |s.open| > 1 ==> Pop(s.open) != s.open
    ensures Step(data, s) == Goto(s, InHash, s.regs.pos + 1) <==> Passed(data, s.regs.pos, s.open)
  {
    hide Pop;
  }

  lemma PassedInArr(data: string, s: State)
    requires Ready(data, s) && s.regs.lab == AfterColon && s.regs.pos < |data| && Top(s.open).Arr?
    requires |s.open| > 1 && Pop(s.open) != s.open
    ensures Step(data, s) == Goto(s, AfterColon, s.regs.pos + 1) <==> Passed(data, s.regs.pos, s.open)
  {
    hide Pop;
  }

  // A whole number leaves the byte that ends it to be looked at.  A fraction does
  // not, which makes no difference exactly if the byte means nothing there.
  lemma FractionLosesByte(data: string, s: State) returns (before: State)
    requires Ready(data, s) && s.regs.lab == AfterDot && s.regs.pos + 1 < |data| && !Digit(data[s.regs.pos])
    requires !Top(s.open).Val? && s.open[0].value.Hash?
    ensures s.regs.strStart <= s.regs.pos
    ensures Ready(data, before)
    ensures Arrived(s, before, NumVal(s.regs.neg, data[s.regs.strStart..s.regs.pos]), s.regs.pos)
    ensures Leads(data, s, Goto(before, before.regs.lab, s.regs.pos + 1))
    ensures Step(data, before) == Goto(before, before.regs.lab, s.regs.pos + 1)
      <==> Passed(data, s.regs.pos, before.open)
  {
    hide Run, Fits, Step, Put;
    var t := EndFraction(data, s);
    var v := NumVal(s.regs.neg, data[s.regs.strStart..s.regs.pos]);
    t := Settle(data, s, t, v, s.regs.pos + 1);
    before := Goto(t, t.regs.lab, s.regs.pos);
    PutKinds(s.open, s.regs.key, v);
    PassedStep(data, before);
  }

  lemma PutKinds(open: seq<Frame>, key: string, v: Json)
    requires open != [] && !Top(open).Val? && open[0].value.Hash?
    ensures !Top(Put(open, key, v)).Val? && Put(open, key, v) != [] && Put(open, key, v)[0].value.Hash?
  {
  }

  // Here it is the bracket, so the array goes on, and the next key is an unknown word.
  lemma FractionEatsBracket()
    ensures Run("{a:[1.5],b:1}", START).regs.lab == Exit
  {
    hide Run, Fits, Step, Put, Arrays;
    var data := "{a:[1.5],b:1}";
    StartsEmpty();
    assert data[1..3] == "a" + ("" + ":");
    var t := ReadKey(data, START, Bare("a"), "");
    PushTop(t.open, t.regs.key, Arr([]));
    t := OpenArr(data, t);
    assert data[4..8] == "" + ("1" + "." + "5" + [']']);
    PutKeeps(t.open, t.regs.key, NumVal(false, "1" + "." + "5"));
    t := ReadFrac(data, t, false, "1", "5", ']');
    StepIdle(data, t, AtValue);
    t := Goto(t, AfterColon, 9);
    assert data[9..10] == "b";
    t := ReadWord(data, t, "b");
    Halts(data, t);
  }

  lemma StartReady(data: string)
    ensures Ready(data, START)
  {
  }
}
