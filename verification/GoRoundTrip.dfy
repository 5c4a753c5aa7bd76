/**
  The parser reads every good source back: the tree it builds is the one the
  source stands for, whatever the layout, and the unread rest comes back.
*/
module GoRoundTrip {
  import opened Common
  import opened Gaps
  import opened GoParse
  import opened GoSource

  // t is s with the parser at another label and position; working registers may differ.
  predicate Moved(s: State, t: State, lab: Label, pos: nat) {
    && t.lab == lab && t.pos == pos
    && t.open == s.open && t.key == s.key && t.root == s.root && t.chunks == s.chunks
    && t.remainder == s.remainder && t.finalState == s.finalState
  }

  // ----- gaps

  datatype Place = AtRoot | AtMember | AtValue

  function Idle(p: Place): Label {
    if p == AtRoot then UnknownRoot else if p == AtMember then InHash else AfterColon
  }

  function InLine(p: Place): Label {
    if p == AtRoot then RootHashComment else if p == AtMember then HashComment else AcComment
  }

  function InBlock(p: Place): Label {
    if p == AtRoot then RootHashComment2 else if p == AtMember then HashComment2 else AcComment2
  }

  // The parser gets from s to t.
  predicate Leads(data: string, callback: bool, s: State, t: State)
    requires Sane(data, s)
  {
    Sane(data, t) && Run(data, callback, s) == Run(data, callback, t)
  }

  lemma OneStep(data: string, callback: bool, s: State, t: State)
    requires Sane(data, s) && !Halted(s) && t == Step(data, callback, s)
    ensures Leads(data, callback, s, t)
  {
  }

  lemma StepInLine(data: string, callback: bool, s: State, p: Place)
    requires Sane(data, s) && s.lab == InLine(p) && s.pos < |data|
    ensures Leads(data, callback, s, Goto(s, if Newline(data[s.pos]) then Idle(p) else s.lab, s.pos + 1))
  {
    hide Run, Sane;
    OneStep(data, callback, s, Goto(s, if Newline(data[s.pos]) then Idle(p) else s.lab, s.pos + 1));
  }

  lemma StepInBlock(data: string, callback: bool, s: State, p: Place)
    requires Sane(data, s) && s.lab == InBlock(p) && s.pos + 1 < |data|
    ensures data[s.pos] == '*' && data[s.pos + 1] == '/' && s.pos + 2 < |data| ==>
      Leads(data, callback, s, Goto(s, if p == AtRoot then UnknownRoot else InHash, s.pos + 2))
    ensures !(data[s.pos] == '*' && data[s.pos + 1] == '/') ==> Leads(data, callback, s, Goto(s, s.lab, s.pos + 1))
  {
    hide Run, Sane;
    OneStep(data, callback, s, Step(data, callback, s));
  }

  lemma StepIdle(data: string, callback: bool, s: State, p: Place)
    requires Sane(data, s) && s.lab == Idle(p) && s.pos + 1 < |data|
    ensures IsBlank(data[s.pos]) ==> Leads(data, callback, s, Goto(s, s.lab, s.pos + 1))
    ensures data[s.pos] == '/' && s.pos + 2 < |data| && data[s.pos + 1] == '/' ==>
      Leads(data, callback, s, Goto(s, InLine(p), s.pos + 2))
    ensures data[s.pos] == '/' && s.pos + 2 < |data| && data[s.pos + 1] == '*' ==>
      Leads(data, callback, s, Goto(s, InBlock(p), s.pos + 2))
  {
    hide Run, Sane;
    OneStep(data, callback, s, Step(data, callback, s));
  }

  lemma {:induction false} SkipLine(data: string, callback: bool, s: State, p: Place, n: nat)
    requires Sane(data, s) && s.lab == InLine(p) && s.pos + n <= |data|
    requires forall i :: s.pos <= i < s.pos + n ==> !Newline(data[i])
    ensures Leads(data, callback, s, Goto(s, s.lab, s.pos + n))
    decreases n
  {
    hide Run, Sane, Step;
    if n > 0 {
      StepInLine(data, callback, s, p);
      SkipLine(data, callback, Goto(s, s.lab, s.pos + 1), p, n - 1);
    }
  }

  lemma {:induction false} SkipBlock(data: string, callback: bool, s: State, p: Place, n: nat)
    requires Sane(data, s) && s.lab == InBlock(p) && s.pos + n < |data|
    requires forall i :: s.pos <= i < s.pos + n ==> !(data[i] == '*' && data[i + 1] == '/')
    ensures Leads(data, callback, s, Goto(s, s.lab, s.pos + n))
    decreases n
  {
    hide Run, Sane, Step;
    if n > 0 {
      StepInBlock(data, callback, s, p);
      SkipBlock(data, callback, Goto(s, s.lab, s.pos + 1), p, n - 1);
    }
  }

  lemma SkipLineItem(data: string, callback: bool, s: State, p: Place, g: GapItem)
    requires Sane(data, s) && s.lab == Idle(p) && g.LineComment? && GoodItem(g, true)
    requires Reads(data, s.pos, ItemText(g)) && s.pos + |ItemText(g)| < |data|
    ensures Leads(data, callback, s, Goto(s, s.lab, s.pos + |ItemText(g)|))
  {
    hide Run, Sane, Step;
    var text, body := ItemText(g), g.body;
    ReadsEach(data, s.pos, text);
    StepIdle(data, callback, s, p);
    var t := Goto(s, InLine(p), s.pos + 2);
    forall i | t.pos <= i < t.pos + |body|
      ensures !Newline(data[i])
    {
      assert data[i] == text[i - s.pos] == body[i - t.pos];
    }
    SkipLine(data, callback, t, p, |body|);
    StepInLine(data, callback, Goto(t, t.lab, t.pos + |body|), p);
  }

  // Behind a block comment the parser is in key position, unless it is before a root.
  function Behind(p: Place, g: GapItem): Label {
    if g.BlockComment? && p == AtValue then InHash else Idle(p)
  }

  lemma SkipBlockItem(data: string, callback: bool, s: State, p: Place, g: GapItem)
    requires Sane(data, s) && s.lab == Idle(p) && g.BlockComment? && GoodItem(g, true)
    requires Reads(data, s.pos, ItemText(g)) && s.pos + |ItemText(g)| < |data|
    ensures Leads(data, callback, s, Goto(s, Behind(p, g), s.pos + |ItemText(g)|))
  {
    hide Run, Sane, Step;
    var text, body := ItemText(g), g.body;
    ReadsEach(data, s.pos, text);
    StepIdle(data, callback, s, p);
    var t := Goto(s, InBlock(p), s.pos + 2);
    assert text[2 + |body|] == '*' && text[3 + |body|] == '/';
    forall i | t.pos <= i < t.pos + |body|
      ensures !(data[i] == '*' && data[i + 1] == '/')
    {
      assert data[i] == text[i - s.pos] == body[i - t.pos] && data[i + 1] == text[i + 1 - s.pos];
    }
    SkipBlock(data, callback, t, p, |body|);
    StepInBlock(data, callback, Goto(t, t.lab, t.pos + |body|), p);
  }

  lemma SkipItem(data: string, callback: bool, s: State, p: Place, g: GapItem)
    requires Sane(data, s) && s.lab == Idle(p) && GoodItem(g, true)
    requires Reads(data, s.pos, ItemText(g)) && s.pos + |ItemText(g)| < |data|
    ensures Leads(data, callback, s, Goto(s, Behind(p, g), s.pos + |ItemText(g)|))
  {
    hide Run, Sane, Step;
    match g
    case Blank(c) =>
      ReadsAt(data, s.pos, ItemText(g), 0);
      StepIdle(data, callback, s, p);
    case LineComment(_, _) => SkipLineItem(data, callback, s, p, g);
    case BlockComment(_) => SkipBlockItem(data, callback, s, p, g);
  }

  lemma {:induction false} SkipGap(data: string, callback: bool, s: State, p: Place, g: Gap)
    requires Sane(data, s) && s.lab == Idle(p) && GoodGap(g, p != AtValue)
    requires Reads(data, s.pos, GapText(g)) && s.pos + |GapText(g)| < |data|
    ensures Leads(data, callback, s, Goto(s, s.lab, s.pos + |GapText(g)|))
    decreases g
  {
    hide Run, Sane, Step, ItemText, Idle;
    if g != [] {
      var front, last := g[..|g| - 1], g[|g| - 1];
      ReadsSplit(data, s.pos, GapText(front), ItemText(last));
      SkipGap(data, callback, s, p, front);
      assert GoodItem(last, true);
      SkipItem(data, callback, Goto(s, s.lab, s.pos + |GapText(front)|), p, last);
    }
  }

  // A gap in value position is passed over, but behind a block comment in it the
  // parser is in key position.
  lemma {:induction false} SkipValueGap(data: string, callback: bool, s: State, g: Gap)
    requires Sane(data, s) && s.lab == AfterColon && GoodGap(g, true)
    requires Reads(data, s.pos, GapText(g)) && s.pos + |GapText(g)| < |data|
    ensures Leads(data, callback, s, Goto(s, if HasBlock(g) then InHash else AfterColon, s.pos + |GapText(g)|))
    decreases g
  {
    hide Run, Sane, Step, ItemText;
    if g != [] {
      var front, last := g[..|g| - 1], g[|g| - 1];
      ReadsSplit(data, s.pos, GapText(front), ItemText(last));
      SkipValueGap(data, callback, s, front);
      var p := if HasBlock(front) then AtMember else AtValue;
      SkipItem(data, callback, Goto(s, Idle(p), s.pos + |GapText(front)|), p, last);
      assert HasBlock(g) <==> HasBlock(front) || last.BlockComment?;
    }
  }

  // ----- keys

  lemma {:induction false} ScanQuoted(data: string, callback: bool, s: State, n: nat)
    requires Sane(data, s) && s.lab == QKeyNameX && s.pos + n <= |data|
    requires forall i :: s.pos <= i < s.pos + n ==> data[i] != s.endc
    ensures Leads(data, callback, s, Goto(s, QKeyNameX, s.pos + n))
    decreases n
  {
    hide Run, Sane;
    if n > 0 {
      OneStep(data, callback, s, Goto(s, QKeyNameX, s.pos + 1));
      ScanQuoted(data, callback, Goto(s, QKeyNameX, s.pos + 1), n - 1);
    }
  }

  lemma {:induction false} ScanBare(data: string, callback: bool, s: State, n: nat)
    requires Sane(data, s) && s.lab == KeyNameX && s.pos + n <= |data|
    requires forall i :: s.pos <= i < s.pos + n ==> data[i] != ':' && data[i] != ' ' && data[i] != '\t'
    ensures Leads(data, callback, s, Goto(s, KeyNameX, s.pos + n))
    decreases n
  {
    hide Run, Sane;
    if n > 0 {
      OneStep(data, callback, s, Goto(s, KeyNameX, s.pos + 1));
      ScanBare(data, callback, Goto(s, KeyNameX, s.pos + 1), n - 1);
    }
  }

  // Everything up to the colon is skipped.
  lemma {:induction false} ScanColon(data: string, callback: bool, s: State, n: nat)
    requires Sane(data, s) && s.lab == Colon && s.pos + n < |data|
    requires forall i :: s.pos <= i < s.pos + n ==> data[i] != ':'
    requires data[s.pos + n] == ':'
    ensures Leads(data, callback, s, Goto(s, AfterColon, s.pos + n + 1))
    decreases n
  {
    hide Run, Sane;
    if n > 0 {
      OneStep(data, callback, s, Goto(s, Colon, s.pos + 1));
      ScanColon(data, callback, Goto(s, Colon, s.pos + 1), n - 1);
    } else {
      OneStep(data, callback, s, Goto(s, AfterColon, s.pos + 1));
    }
  }

  lemma StartQuoted(data: string, callback: bool, s: State) returns (t: State)
    requires Sane(data, s) && s.lab == InHash && s.pos < |data| && (data[s.pos] == '"' || data[s.pos] == '\'')
    ensures Leads(data, callback, s, t)
    ensures Moved(s, t, QKeyNameX, s.pos + 2) && t.endc == data[s.pos] && t.keyStart == s.pos + 1
  {
    hide Run, Sane;
    var t1 := Goto(s.(endc := data[s.pos]), QKeyName1, s.pos + 1);
    OneStep(data, callback, s, t1);
    t := t1.(lab := QKeyNameX, keyStart := t1.pos, pos := t1.pos + 1);
    OneStep(data, callback, t1, t);
  }

  lemma EndQuoted(data: string, callback: bool, s: State, text: string)
    requires Sane(data, s) && s.lab == QKeyNameX && s.pos < |data| && data[s.pos] == s.endc
    requires s.keyStart <= s.pos && data[s.keyStart..s.pos] == text
    ensures Leads(data, callback, s, s.(lab := Colon, key := text, pos := s.pos + 1))
  {
    hide Run, Sane;
    OneStep(data, callback, s, s.(lab := Colon, key := text, pos := s.pos + 1));
  }

  lemma ReadQuoted(data: string, callback: bool, s: State, q: char, text: string) returns (t: State)
    requires Sane(data, s) && s.lab == InHash
    requires Reads(data, s.pos, [q] + text + [q]) && (q == '"' || q == '\'') && text != "" && q !in text[1..]
    ensures Leads(data, callback, s, t)
    ensures Moved(s.(key := text), t, Colon, s.pos + |text| + 2)
  {
    hide Run, Step, Sane;
    ReadsEach(data, s.pos, [q] + text + [q]);
    ReadsSplit(data, s.pos, [q] + text, [q]);
    ReadsSplit(data, s.pos, [q], text);
    var t2 := StartQuoted(data, callback, s);
    var n := |text| - 1;
    forall i | t2.pos <= i < t2.pos + n
      ensures data[i] != q
    {
      assert data[i] == text[1..][i - t2.pos];
    }
    ScanQuoted(data, callback, t2, n);
    var t3 := Goto(t2, QKeyNameX, t2.pos + n);
    EndQuoted(data, callback, t3, text);
    t := t3.(lab := Colon, key := text, pos := t3.pos + 1);
  }

  // Up to the end of the letters of the key.
  lemma ReadBare(data: string, callback: bool, s: State, text: string) returns (t: State)
    requires Sane(data, s) && s.lab == InHash
    requires Reads(data, s.pos, text) && text != "" && KeyLetter(text[0])
    requires forall c :: c in text[1..] ==> c != ':' && c != ' ' && c != '\t'
    ensures Leads(data, callback, s, t)
    ensures Moved(s, t, KeyNameX, s.pos + |text|) && t.keyStart == s.pos
  {
    hide Run, Sane;
    ReadsEach(data, s.pos, text);
    var t1 := Goto(s, KeyName1, s.pos);
    OneStep(data, callback, s, t1);
    var t2 := t1.(lab := KeyNameX, keyStart := t1.pos, pos := t1.pos + 1);
    OneStep(data, callback, t1, t2);
    var n := |text| - 1;
    forall i | t2.pos <= i < t2.pos + n
      ensures data[i] != ':' && data[i] != ' ' && data[i] != '\t'
    {
      assert data[i] == text[1..][i - t2.pos] && text[1..][i - t2.pos] in text[1..];
    }
    ScanBare(data, callback, t2, n);
    t := Goto(t2, KeyNameX, t2.pos + n);
  }

  // A key, what follows it, and the colon.
  lemma ReadKey(data: string, callback: bool, s: State, k: Key, skip: string) returns (t: State)
    requires Sane(data, s) && s.lab == InHash && GoodKey(k, skip)
    requires Reads(data, s.pos, KeyText(k) + (skip + ":"))
    ensures Leads(data, callback, s, t)
    ensures Moved(s.(key := k.text), t, AfterColon, s.pos + |KeyText(k)| + |skip| + 1)
  {
    hide Run, Sane, Step;
    var rest := skip + ":";
    ReadsSplit(data, s.pos, KeyText(k), rest);
    ReadsEach(data, s.pos + |KeyText(k)|, rest);
    match k
    case Quoted(q, text) =>
      var t1 := ReadQuoted(data, callback, s, q, text);
      ScanColon(data, callback, t1, |skip|);
      t := Goto(t1, AfterColon, t1.pos + |skip| + 1);
    case Bare(text) =>
      var t1 := ReadBare(data, callback, s, text);
      t := EndBare(data, callback, t1, text, skip);
  }

  lemma EndBare(data: string, callback: bool, s: State, text: string, skip: string) returns (t: State)
    requires Sane(data, s) && s.lab == KeyNameX && s.keyStart <= s.pos && Reads(data, s.pos, skip + ":")
    requires data[s.keyStart..s.pos] == text && ':' !in skip
    requires skip == "" || skip[0] == ' ' || skip[0] == '\t'
    ensures Leads(data, callback, s, t)
    ensures Moved(s.(key := text), t, AfterColon, s.pos + |skip| + 1)
  {
    hide Run, Sane;
    ReadsEach(data, s.pos, skip + ":");
    if skip == "" {
      t := s.(lab := AfterColon, key := text, pos := s.pos + 1);
      OneStep(data, callback, s, t);
    } else {
      var t1 := s.(lab := Colon, key := text, pos := s.pos + 1);
      OneStep(data, callback, s, t1);
      ScanColon(data, callback, t1, |skip| - 1);
      t := Goto(t1, AfterColon, t1.pos + |skip|);
    }
  }

  // ----- strings

  // What has been read of a string so far.
  function Pending(data: string, s: State): string
    requires s.substrStart <= s.pos <= |data|
  {
    s.str + data[s.substrStart..s.pos]
  }

  // One byte, or a backslash with the byte after it.
  lemma StringPlain(data: string, callback: bool, s: State)
    requires Sane(data, s) && s.lab == StringX && s.pos < |data|
    requires data[s.pos] != s.endc && data[s.pos] != '\\'
    ensures Leads(data, callback, s, Goto(s, StringX, s.pos + 1))
    ensures Pending(data, Goto(s, StringX, s.pos + 1)) == Pending(data, s) + [data[s.pos]]
  {
    hide Run;
    OneStep(data, callback, s, Goto(s, StringX, s.pos + 1));
  }

  lemma StringEscape(data: string, callback: bool, s: State) returns (t: State)
    requires Sane(data, s) && s.lab == Escape && s.pos < |data|
    ensures Leads(data, callback, s, t)
    ensures Moved(s, t, StringX, s.pos + 1) && t.endc == s.endc && t.substrStart <= t.pos
    ensures Pending(data, t) ==
      if data[s.pos] == s.endc then s.str + data[s.substrStart..s.pos - 1] + [s.endc]
      else s.str + data[s.substrStart..s.pos] + [data[s.pos]]
  {
    hide Run;
    t := Step(data, callback, s);
    OneStep(data, callback, s, t);
  }

  lemma StringBackslash(data: string, callback: bool, s: State) returns (t: State)
    requires Sane(data, s) && s.lab == StringX && s.pos + 1 < |data|
    requires data[s.pos] == '\\' && s.endc != '\\'
    ensures Leads(data, callback, s, t)
    ensures Moved(s, t, StringX, s.pos + 2) && t.endc == s.endc && t.substrStart <= t.pos
    ensures Pending(data, t) ==
      Pending(data, s) + if data[s.pos + 1] == s.endc then [s.endc] else ['\\', data[s.pos + 1]]
  {
    hide Run;
    var t1 := Goto(s, Escape, s.pos + 1);
    OneStep(data, callback, s, t1);
    assert data[s.substrStart..t1.pos] == data[s.substrStart..s.pos] + ['\\'];
    t := StringEscape(data, callback, t1);
  }

  // The opening quote has been read: as if in the middle of an empty string.
  lemma StringStarts(data: string, callback: bool, s: State) returns (t: State)
    requires Sane(data, s) && s.lab == String1 && s.pos < |data|
    requires s.endc != '\\' && (data[s.pos] == '\\' ==> s.pos + 1 < |data|)
    ensures Leads(data, callback, s, t)
    ensures data[s.pos] == s.endc ==>
      Moved(s.(open := Put(s.open, s.key, Val(Str, ""))), t, HashOrAfterColon, s.pos + 1)
    ensures data[s.pos] != s.endc && data[s.pos] != '\\' ==>
      && Moved(s, t, StringX, s.pos + 1) && t.endc == s.endc && t.substrStart <= t.pos
      && Pending(data, t) == [data[s.pos]]
    ensures data[s.pos] == '\\' ==>
      && Moved(s, t, StringX, s.pos + 2) && t.endc == s.endc && t.substrStart <= t.pos
      && Pending(data, t) == if data[s.pos + 1] == s.endc then [s.endc] else ['\\', data[s.pos + 1]]
  {
    hide Run;
    t := Step(data, callback, s);
    OneStep(data, callback, s, t);
    if data[s.pos] == '\\' {
      t := StringEscape(data, callback, t);
    }
  }

  // The rest of a string, up to and with the closing quote.
  lemma {:induction false} ReadTail(data: string, callback: bool, s: State, read: string, str: string)
    returns (t: State)
    requires Sane(data, s) && s.lab == StringX && s.endc != '\\' && Paired(str, s.endc)
    requires s.substrStart <= s.pos <= |data| && Pending(data, s) == read
    requires Reads(data, s.pos, Escaped(str, s.endc) + [s.endc])
    ensures Leads(data, callback, s, t)
    ensures Moved(s.(open := t.open), t, HashOrAfterColon, s.pos + |Escaped(str, s.endc)| + 1)
    ensures s.open != [] && t.open == Put(s.open, s.key, Val(Str, read + str))
    decreases |str|
  {
    hide Run, Step, Sane, Put, Pending;
    SaneString(data, s);
    if str == "" {
      ReadsAt(data, s.pos, [s.endc], 0);
      t := StringEnds(data, callback, s);
      assert read + str == read;
    } else {
      var n := if str[0] == '\\' then 2 else 1;
      var t1 := ReadUnit(data, callback, s, str);
      t := ReadTail(data, callback, t1, read + str[..n], str[n..]);
      assert read + str[..n] + str[n..] == read + str;
    }
  }

  lemma StringEnds(data: string, callback: bool, s: State) returns (t: State)
    requires Sane(data, s) && s.lab == StringX && s.pos < |data| && data[s.pos] == s.endc
    ensures Leads(data, callback, s, t)
    ensures Moved(s.(open := Put(s.open, s.key, Val(Str, Pending(data, s)))), t, HashOrAfterColon, s.pos + 1)
  {
    hide Run;
    t := Step(data, callback, s);
    OneStep(data, callback, s, t);
  }

  // The string begins with one byte, or with a backslash and a byte that is not the quote.
  predicate UnitFirst(str: string, q: char) {
    str != "" && (str[0] == '\\' ==> |str| > 1 && str[1] != q)
  }

  lemma EscapedUnit(str: string, q: char)
    requires UnitFirst(str, q) && q != '\\'
    ensures
      var n := if str[0] == '\\' then 2 else 1;
      && n <= |str| && (Paired(str, q) <==> Paired(str[n..], q)) && (n == 2 ==> str[1] != q)
      && Escaped(str, q) == (if str[0] == q then ['\\', q] else str[..n]) + Escaped(str[n..], q)
  {
    assert str == [str[0]] + str[1..];
    if str[0] == '\\' {
      var rest := str[1..];
      assert rest[1..] == str[2..];
      assert str[..2] == [str[0]] + [rest[0]];
      assert Escaped(str, q) == [str[0]] + Escaped(rest, q);
      assert Escaped(rest, q) == [rest[0]] + Escaped(str[2..], q);
      assert Paired(str, q) <==> Paired(str[2..], q);
    } else {
      assert str[..1] == [str[0]];
    }
  }

  lemma ReadUnit(data: string, callback: bool, s: State, str: string) returns (t: State)
    requires Sane(data, s) && s.lab == StringX && s.endc != '\\' && UnitFirst(str, s.endc)
    requires Reads(data, s.pos, Escaped(str, s.endc) + [s.endc])
    ensures
      var n := if str[0] == '\\' then 2 else 1;
      && n <= |str|
      && Leads(data, callback, s, t)
      && Moved(s, t, StringX, t.pos) && t.endc == s.endc && t.substrStart <= t.pos
      && (Paired(str, s.endc) <==> Paired(str[n..], s.endc))
      && t.pos + |Escaped(str[n..], s.endc)| == s.pos + |Escaped(str, s.endc)|
      && Reads(data, t.pos, Escaped(str[n..], s.endc) + [s.endc])
      && Pending(data, t) == Pending(data, s) + str[..n]
  {
    hide Run, Step, Sane, Paired, Escaped;
    var q := s.endc;
    EscapedUnit(str, q);
    var n := if str[0] == '\\' then 2 else 1;
    var unit := if str[0] == q then ['\\', q] else str[..n];
    var rest := Escaped(str[n..], q) + [q];
    assert Escaped(str, q) + [q] == unit + rest;
    ReadsSplit(data, s.pos, unit, rest);
    ReadsEach(data, s.pos, unit);
    SaneString(data, s);
    assert str[..n] == if n == 2 then [str[0], str[1]] else [str[0]];
    if str[0] == q || str[0] == '\\' {
      t := StringBackslash(data, callback, s);
    } else {
      StringPlain(data, callback, s);
      t := Goto(s, StringX, s.pos + 1);
    }
  }

  lemma SaneString(data: string, s: State)
    requires Sane(data, s) && s.lab == StringX
    ensures s.substrStart <= s.pos <= |data| && s.open != []
  {
  }

  // ----- scalars

  // t is where s gets to; the open containers and the key are described apart.
  predicate Arrived(s: State, t: State, lab: Label, pos: nat) {
    && t.lab == lab && t.pos == pos && t.root == s.root && t.chunks == s.chunks
    && t.remainder == s.remainder && t.finalState == s.finalState
  }

  lemma ReadString(data: string, callback: bool, s: State, q: char, str: string) returns (t: State)
    requires Sane(data, s) && s.lab == AfterColon && (q == '"' || q == '\'' || q == '`') && Paired(str, q)
    requires Reads(data, s.pos, [q] + (Escaped(str, q) + [q]))
    ensures Leads(data, callback, s, t) && s.open != []
    ensures Arrived(s, t, HashOrAfterColon, s.pos + |Escaped(str, q)| + 2)
    ensures t.open == Put(s.open, s.key, Val(Str, str))
  {
    hide Run, Sane, Put, Paired, Escaped;
    var rest := Escaped(str, q) + [q];
    ReadsSplit(data, s.pos, [q], rest);
    ReadsAt(data, s.pos, [q], 0);
    var t1 := Goto(s.(endc := q), String1, s.pos + 1);
    OneStep(data, callback, s, t1);
    t := ReadOpenString(data, callback, t1, str);
  }

  lemma ReadOpenString(data: string, callback: bool, s: State, str: string) returns (t: State)
    requires Sane(data, s) && s.lab == String1 && s.endc != '\\' && Paired(str, s.endc)
    requires Reads(data, s.pos, Escaped(str, s.endc) + [s.endc])
    ensures Leads(data, callback, s, t) && s.open != []
    ensures Arrived(s, t, HashOrAfterColon, s.pos + |Escaped(str, s.endc)| + 1)
    ensures t.open == Put(s.open, s.key, Val(Str, str))
  {
    hide Run, Step, Sane, Put, Pending;
    SaneOpen(data, s);
    if str == "" {
      ReadsAt(data, s.pos, [s.endc], 0);
      t := StringStarts(data, callback, s);
    } else {
      var n := if str[0] == '\\' then 2 else 1;
      var t1 := ReadFirstUnit(data, callback, s, str);
      t := ReadTail(data, callback, t1, str[..n], str[n..]);
      assert str[..n] + str[n..] == str;
    }
  }

  lemma ReadFirstUnit(data: string, callback: bool, s: State, str: string) returns (t: State)
    requires Sane(data, s) && s.lab == String1 && s.endc != '\\' && UnitFirst(str, s.endc)
    requires Reads(data, s.pos, Escaped(str, s.endc) + [s.endc])
    ensures
      var n := if str[0] == '\\' then 2 else 1;
      && n <= |str|
      && Leads(data, callback, s, t)
      && Moved(s, t, StringX, t.pos) && t.endc == s.endc && t.substrStart <= t.pos <= |data|
      && (Paired(str, s.endc) <==> Paired(str[n..], s.endc))
      && t.pos + |Escaped(str[n..], s.endc)| == s.pos + |Escaped(str, s.endc)|
      && Reads(data, t.pos, Escaped(str[n..], s.endc) + [s.endc])
      && Pending(data, t) == str[..n]
  {
    hide Run, Step, Sane, Paired, Escaped, Pending;
    var q := s.endc;
    EscapedUnit(str, q);
    var n := if str[0] == '\\' then 2 else 1;
    var unit := if str[0] == q then ['\\', q] else str[..n];
    var rest := Escaped(str[n..], q) + [q];
    assert Escaped(str, q) + [q] == unit + rest;
    ReadsSplit(data, s.pos, unit, rest);
    ReadsEach(data, s.pos, unit);
    assert str[..n] == if n == 2 then [str[0], str[1]] else [str[0]];
    t := StringStarts(data, callback, s);
  }

  lemma {:induction false} ScanDigits(data: string, callback: bool, s: State, n: nat)
    requires Sane(data, s) && s.lab == NumberX && s.pos + n <= |data|
    requires forall i :: s.pos <= i < s.pos + n ==> Digit(data[i])
    ensures Leads(data, callback, s, Goto(s, NumberX, s.pos + n))
    decreases n
  {
    hide Run, Sane;
    if n > 0 {
      OneStep(data, callback, s, Goto(s, NumberX, s.pos + 1));
      ScanDigits(data, callback, Goto(s, NumberX, s.pos + 1), n - 1);
    }
  }

  // Up to the end of the digits; the first byte of the number is not looked at any more.
  lemma PassDigits(data: string, callback: bool, s: State, digits: string) returns (t: State)
    requires Sane(data, s) && s.lab == Number1 && digits != "" && s.pos > 0
    requires Reads(data, s.pos - 1, digits) && AllDigits(digits[1..])
    ensures Leads(data, callback, s, t)
    ensures Moved(s, t, NumberX, s.pos - 1 + |digits|) && t.strStart == s.pos - 1 && t.neg == s.neg
  {
    hide Run, Sane;
    ReadsEach(data, s.pos - 1, digits);
    var t1 := s.(lab := NumberX, strStart := s.pos - 1);
    OneStep(data, callback, s, t1);
    var n := |digits| - 1;
    forall i | t1.pos <= i < t1.pos + n
      ensures Digit(data[i])
    {
      assert data[i] == digits[1..][i - t1.pos] && digits[1..][i - t1.pos] in digits[1..];
    }
    ScanDigits(data, callback, t1, n);
    t := Goto(t1, NumberX, t1.pos + n);
  }

  lemma ReadDigits(data: string, callback: bool, s: State, digits: string) returns (t: State)
    requires Sane(data, s) && s.lab == Number1 && digits != "" && s.pos > 0
    requires Reads(data, s.pos - 1, digits) && AllDigits(digits[1..])
    requires s.pos - 1 + |digits| < |data| && Ends(data[s.pos - 1 + |digits|])
    ensures Leads(data, callback, s, t) && s.open != []
    ensures Arrived(s, t, HashOrAfterColon, s.pos - 1 + |digits|)
    ensures t.open == Put(s.open, s.key, Val(if s.neg then Neg else Pos, digits))
  {
    hide Run, Sane, Put, AllDigits;
    SaneOpen(data, s);
    var t1 := PassDigits(data, callback, s, digits);
    assert data[t1.strStart..t1.pos] == digits;
    EndDigits(data, callback, t1, digits);
    t := t1.(lab := HashOrAfterColon, open := Put(s.open, s.key, Val(if s.neg then Neg else Pos, digits)));
  }

  lemma {:induction false} ScanFraction(data: string, callback: bool, s: State, n: nat)
    requires Sane(data, s) && s.lab == AfterDot && s.pos + n <= |data|
    requires forall i :: s.pos <= i < s.pos + n ==> Digit(data[i])
    ensures Leads(data, callback, s, Goto(s, AfterDot, s.pos + n))
    decreases n
  {
    hide Run, Sane;
    if n > 0 {
      OneStep(data, callback, s, Goto(s, AfterDot, s.pos + 1));
      ScanFraction(data, callback, Goto(s, AfterDot, s.pos + 1), n - 1);
    }
  }

  lemma PassDot(data: string, callback: bool, s: State)
    requires Sane(data, s) && s.lab == NumberX && s.pos < |data| && data[s.pos] == '.'
    ensures Leads(data, callback, s, Goto(s, AfterDot, s.pos + 1))
  {
    hide Run, Sane;
    OneStep(data, callback, s, Goto(s, AfterDot, s.pos + 1));
  }

  lemma EndFraction(data: string, callback: bool, s: State, text: string)
    requires Sane(data, s) && s.lab == AfterDot && s.pos < |data| && Ends(data[s.pos])
    requires s.strStart <= s.pos && data[s.strStart..s.pos] == text
    ensures s.open != []
    ensures Leads(data, callback, s,
      s.(lab := HashOrAfterColon, open := Put(s.open, s.key, Val(if s.neg then FloatNeg else FloatPos, text))))
  {
    hide Run, Put;
    OneStep(data, callback, s, Step(data, callback, s));
  }

  lemma FractionPlaces(data: string, pos: nat, digits: string, fraction: string)
    requires Reads(data, pos, digits + "." + fraction)
    ensures
      var dot := pos + |digits|;
      && Reads(data, pos, digits) && dot + 1 + |fraction| <= |data| && data[dot] == '.'
      && Reads(data, dot + 1, fraction) && data[pos..dot + 1 + |fraction|] == digits + "." + fraction
  {
    ReadsSplit(data, pos, digits + ".", fraction);
    ReadsSplit(data, pos, digits, ".");
    ReadsAt(data, pos + |digits|, ".", 0);
  }

  lemma DigitBytes(data: string, pos: nat, digits: string)
    requires Reads(data, pos, digits) && AllDigits(digits)
    ensures pos + |digits| <= |data| && forall i :: pos <= i < pos + |digits| ==> Digit(data[i])
  {
    ReadsEach(data, pos, digits);
    forall i | pos <= i < pos + |digits|
      ensures Digit(data[i])
    {
      assert data[i] == digits[i - pos] && digits[i - pos] in digits;
    }
  }

  lemma ReadFraction(data: string, callback: bool, s: State, digits: string, fraction: string) returns (t: State)
    requires Sane(data, s) && s.lab == Number1 && digits != "" && s.pos > 0
    requires AllDigits(digits[1..]) && AllDigits(fraction)
    requires
      var text := digits + "." + fraction;
      Reads(data, s.pos - 1, text) && s.pos - 1 + |text| < |data| && Ends(data[s.pos - 1 + |text|])
    ensures Leads(data, callback, s, t) && s.open != []
    ensures Arrived(s, t, HashOrAfterColon, s.pos + |digits| + |fraction|)
    ensures t.open == Put(s.open, s.key, Val(if s.neg then FloatNeg else FloatPos, digits + "." + fraction))
  {
    hide Run, Sane, Put, Reads, AllDigits;
    SaneOpen(data, s);
    var text := digits + "." + fraction;
    FractionPlaces(data, s.pos - 1, digits, fraction);
    var t1 := PassDigits(data, callback, s, digits);
    PassDot(data, callback, t1);
    var t2 := Goto(t1, AfterDot, t1.pos + 1);
    DigitBytes(data, t2.pos, fraction);
    ScanFraction(data, callback, t2, |fraction|);
    var t3 := Goto(t2, AfterDot, t2.pos + |fraction|);
    EndFraction(data, callback, t3, text);
    t := t3.(lab := HashOrAfterColon, open := Put(s.open, s.key, Val(if s.neg then FloatNeg else FloatPos, text)));
  }

  lemma EndDigits(data: string, callback: bool, s: State, digits: string)
    requires Sane(data, s) && s.lab == NumberX && s.pos < |data| && Ends(data[s.pos])
    requires s.strStart <= s.pos && data[s.strStart..s.pos] == digits
    ensures s.open != []
    ensures Leads(data, callback, s,
      s.(lab := HashOrAfterColon, open := Put(s.open, s.key, Val(if s.neg then Neg else Pos, digits))))
  {
    hide Run, Put;
    OneStep(data, callback, s, Step(data, callback, s));
  }

  lemma StartNumber(data: string, callback: bool, s: State)
    requires Sane(data, s) && s.lab == AfterColon && s.pos < |data|
    ensures Digit(data[s.pos]) ==> Leads(data, callback, s, Goto(s.(neg := false), Number1, s.pos + 1))
    ensures data[s.pos] == '-' ==> Leads(data, callback, s, Goto(s.(neg := true), Number1, s.pos + 2))
  {
    hide Run, Sane;
    OneStep(data, callback, s, Step(data, callback, s));
  }

  // From before a number to behind its first byte.
  lemma EnterNumber(data: string, callback: bool, s: State, neg: bool, text: string) returns (t: State)
    requires Sane(data, s) && s.lab == AfterColon && text != "" && (!neg ==> Digit(text[0]))
    requires Reads(data, s.pos, (if neg then "-" else "") + text)
    ensures Leads(data, callback, s, t)
    ensures Moved(s, t, Number1, s.pos + (if neg then 2 else 1)) && t.neg == neg && Reads(data, t.pos - 1, text)
  {
    hide Run, Step, Sane;
    ReadsSplit(data, s.pos, if neg then "-" else "", text);
    if neg {
      ReadsAt(data, s.pos, "-", 0);
    } else {
      ReadsAt(data, s.pos, text, 0);
    }
    StartNumber(data, callback, s);
    t := Goto(s.(neg := neg), Number1, s.pos + if neg then 2 else 1);
  }

  lemma GoodTail(neg: bool, digits: string)
    requires GoodDigits(neg, digits)
    ensures AllDigits(digits[1..]) && (!neg ==> Digit(digits[0]))
  {
    assert digits[0] in digits;
  }

  lemma ReadNumber(data: string, callback: bool, s: State, v: Source) returns (t: State)
    requires Sane(data, s) && s.lab == AfterColon && Good(v) && (v.SNum? || v.SFrac?)
    requires Reads(data, s.pos, Text(v)) && s.pos + |Text(v)| < |data| && Ends(data[s.pos + |Text(v)|])
    ensures Leads(data, callback, s, t) && s.open != []
    ensures Arrived(s, t, HashOrAfterColon, s.pos + |Text(v)|) && t.open == Put(s.open, s.key, Value(v))
  {
    hide Run, Step, Sane, Put, Reads, AllDigits;
    GoodTail(v.neg, v.digits);
    if v.SNum? {
      t := EnterNumber(data, callback, s, v.neg, v.digits);
      t := ReadDigits(data, callback, t, v.digits);
    } else {
      t := EnterNumber(data, callback, s, v.neg, v.digits + "." + v.fraction);
      t := ReadFraction(data, callback, t, v.digits, v.fraction);
    }
  }

  lemma {:induction false} ScanWord(data: string, callback: bool, s: State, n: nat)
    requires Sane(data, s) && s.lab == TypeX && s.pos + n <= |data|
    requires forall i :: s.pos <= i < s.pos + n ==> Lower(data[i])
    ensures Leads(data, callback, s, Goto(s, TypeX, s.pos + n))
    decreases n
  {
    hide Run, Sane;
    if n > 0 {
      OneStep(data, callback, s, Goto(s, TypeX, s.pos + 1));
      ScanWord(data, callback, Goto(s, TypeX, s.pos + 1), n - 1);
    }
  }

  lemma EndWord(data: string, callback: bool, s: State, word: string)
    requires Sane(data, s) && s.lab == TypeX && s.pos < |data| && Ends(data[s.pos])
    requires s.typeStart <= s.pos && data[s.typeStart..s.pos] == word && IsWord(word)
    ensures s.open != []
    ensures Leads(data, callback, s,
      s.(lab := HashOrAfterColon, typeWord := word, open := Put(s.open, s.key, Val(Meaning(word), ""))))
  {
    hide Run, Put;
    OneStep(data, callback, s, Step(data, callback, s));
  }

  lemma ReadWord(data: string, callback: bool, s: State, word: string) returns (t: State)
    requires Sane(data, s) && s.lab == AfterColon && IsWord(word)
    requires Reads(data, s.pos, word)
    requires s.pos + |word| < |data| && Ends(data[s.pos + |word|])
    ensures Leads(data, callback, s, t) && s.open != []
    ensures Arrived(s, t, HashOrAfterColon, s.pos + |word|)
    ensures t.open == Put(s.open, s.key, Val(Meaning(word), ""))
  {
    hide Run, Sane, Put;
    ReadsEach(data, s.pos, word);
    LowerWord(word);
    var t1 := Goto(s.(typeStart := s.pos), TypeX, s.pos + 1);
    OneStep(data, callback, s, t1);
    var n := |word| - 1;
    ScanWord(data, callback, t1, n);
    var t2 := Goto(t1, TypeX, t1.pos + n);
    assert data[t2.typeStart..t2.pos] == word;
    EndWord(data, callback, t2, word);
    t := t2.(lab := HashOrAfterColon, typeWord := word, open := Put(s.open, s.key, Val(Meaning(word), "")));
  }

  lemma LowerWord(word: string)
    requires IsWord(word)
    ensures word != "" && forall i :: 0 <= i < |word| ==> Lower(word[i])
  {
    assert word == "true" || word == "false" || word == "null";
  }

  // ----- values

  // The open containers with the top one's value replaced.
  function WithTop(open: seq<Frame>, v: Json): seq<Frame>
    requires open != []
  {
    open[|open| - 1 := open[|open| - 1].(value := v)]
  }

  function TopValue(open: seq<Frame>): Json
    requires open != []
  {
    open[|open| - 1].value
  }

  lemma StepBack(data: string, callback: bool, s: State)
    requires Sane(data, s) && s.lab == HashOrAfterColon
    ensures s.open != []
    ensures Leads(data, callback, s, Goto(s, if TopValue(s.open).Hash? then InHash else AfterColon, s.pos))
  {
    hide Run;
    OneStep(data, callback, s, Step(data, callback, s));
  }

  // What comes next ends an open-ended value.
  predicate Stops(data: string, pos: nat, v: Source) {
    pos < |data| && (OpenEnded(v) ==> Ends(data[pos]))
  }

  // A value followed by a gap: the gap, or what follows it, stops the value.
  lemma GapStops(data: string, pos: nat, v: Source, after: Gap, blocks: bool)
    requires GoodGap(after, blocks) && Reads(data, pos, GapText(after)) && pos + |GapText(after)| < |data|
    requires after == [] ==> Stops(data, pos, v)
    ensures Stops(data, pos, v)
  {
    if after != [] {
      GapBegins(after, blocks);
      ReadsAt(data, pos, GapText(after), 0);
    }
  }

  lemma ReadScalar(data: string, callback: bool, s: State, v: Source) returns (t: State)
    requires Sane(data, s) && s.lab == AfterColon && Good(v) && (v.SStr? || v.SNum? || v.SFrac? || v.SWord?)
    requires Reads(data, s.pos, Text(v)) && Stops(data, s.pos + |Text(v)|, v)
    ensures Leads(data, callback, s, t) && s.open != []
    ensures Arrived(s, t, HashOrAfterColon, s.pos + |Text(v)|) && t.open == Put(s.open, s.key, Value(v))
  {
    hide Run, Step, Sane, Put, Escaped, Paired;
    match v
    case SStr(q, str) =>
      assert [q] + Escaped(str, q) + [q] == [q] + (Escaped(str, q) + [q]);
      t := ReadString(data, callback, s, q, str);
    case SNum(_, _) => t := ReadNumber(data, callback, s, v);
    case SFrac(_, _, _) => t := ReadNumber(data, callback, s, v);
    case SWord(word) => t := ReadWord(data, callback, s, word);
  }

  lemma {:induction false} ReadValue(data: string, callback: bool, s: State, v: Source) returns (t: State)
    requires Sane(data, s) && s.lab == AfterColon && Good(v)
    requires Reads(data, s.pos, Text(v)) && Stops(data, s.pos + |Text(v)|, v)
    ensures Leads(data, callback, s, t) && s.open != []
    ensures Arrived(s, t, HashOrAfterColon, s.pos + |Text(v)|) && t.open == Put(s.open, s.key, Value(v))
    decreases v, 3
  {
    hide Run, Step, Sane, Put, GapText, MembersText, ItemsText, Fields, Items, GoodMembers, GoodItems, GoodGap, Stops;
    if v.SHash? {
      t := ReadHash(data, callback, s, v.lead, v.members);
    } else if v.SArr? {
      t := ReadArr(data, callback, s, v.lead, v.items);
    } else {
      t := ReadScalar(data, callback, s, v);
    }
  }

  // From the opening to the closing brace.
  lemma {:induction false} ReadHash(data: string, callback: bool, s: State, lead: Gap, members: seq<Member>)
    returns (t: State)
    requires Sane(data, s) && s.lab == AfterColon && GoodGap(lead, true) && GoodMembers(members)
    requires Reads(data, s.pos, "{" + GapText(lead) + MembersText(members) + "}")
    ensures Leads(data, callback, s, t) && s.open != []
    ensures Arrived(s, t, HashOrAfterColon, s.pos + |GapText(lead)| + |MembersText(members)| + 2)
    ensures t.open == Put(s.open, s.key, Hash(Fields(map[], members)))
    decreases members, 2
  {
    hide Run, Step, Sane, Put, Fields, MembersText, GoodMembers, GapText;
    SaneOpen(data, s);
    var body := GapText(lead) + MembersText(members) + "}";
    assert "{" + GapText(lead) + MembersText(members) + "}" == "{" + body;
    ReadsSplit(data, s.pos, "{", body);
    ReadsAt(data, s.pos, "{", 0);
    var t1 := OpenHash(data, callback, s);
    t := ReadBody(data, callback, t1, lead, members);
    t := CloseHash(data, callback, t);
    assert t.open == Put(s.open, s.key, Hash(Fields(map[], members))) by {
      var open := Push(s.open, s.key, Hash(map[]));
      assert WithTop(open, Hash(Fields(map[], members)))[..|s.open|] == s.open;
    }
  }

  lemma OpenHash(data: string, callback: bool, s: State) returns (t: State)
    requires Sane(data, s) && s.lab == AfterColon && s.pos < |data| && data[s.pos] == '{'
    ensures Leads(data, callback, s, t)
    ensures Arrived(s, t, InHash, s.pos + 1) && t.open == Push(s.open, s.key, Hash(map[]))
  {
    hide Run;
    t := Step(data, callback, s);
    OneStep(data, callback, s, t);
  }

  lemma CloseHash(data: string, callback: bool, s: State) returns (t: State)
    requires Sane(data, s) && s.lab == InHash && s.pos < |data| && data[s.pos] == '}' && |s.open| > 1
    ensures Leads(data, callback, s, t)
    ensures Arrived(s, t, HashOrAfterColon, s.pos + 1) && t.open == Pop(s.open)
  {
    hide Run;
    t := Step(data, callback, s);
    OneStep(data, callback, s, t);
  }

  // From behind the opening brace to before the closing one.
  lemma {:induction false} ReadBody(data: string, callback: bool, s: State, lead: Gap, members: seq<Member>)
    returns (t: State)
    requires Sane(data, s) && s.lab == InHash && GoodGap(lead, true) && GoodMembers(members)
    requires s.open != [] && TopValue(s.open) == Hash(map[])
    requires Reads(data, s.pos, GapText(lead) + MembersText(members) + "}")
    ensures Leads(data, callback, s, t)
    ensures Arrived(s, t, InHash, s.pos + |GapText(lead)| + |MembersText(members)|)
    ensures t.open == WithTop(s.open, Hash(Fields(map[], members)))
    ensures data[t.pos] == '}'
    decreases members, 1
  {
    hide Run, Step, Sane, Fields, MembersText, GoodMembers, GapText;
    ReadsSplit(data, s.pos, GapText(lead) + MembersText(members), "}");
    ReadsSplit(data, s.pos, GapText(lead), MembersText(members));
    ReadsAt(data, s.pos + |GapText(lead) + MembersText(members)|, "}", 0);
    SkipGap(data, callback, s, AtMember, lead);
    t := Goto(s, s.lab, s.pos + |GapText(lead)|);
    t := ReadMembers(data, callback, t, map[], members);
  }

  lemma {:induction false} ReadMembers(data: string, callback: bool, s: State,
                                       m: map<string, Json>, members: seq<Member>)
    returns (t: State)
    requires Sane(data, s) && s.lab == InHash && GoodMembers(members)
    requires s.open != [] && TopValue(s.open) == Hash(m)
    requires Reads(data, s.pos, MembersText(members)) && s.pos + |MembersText(members)| < |data|
    requires
      var end := s.pos + |MembersText(members)|;
      members != [] && members[|members| - 1].after == [] ==> Stops(data, end, members[|members| - 1].value)
    ensures Leads(data, callback, s, t)
    ensures Arrived(s, t, InHash, s.pos + |MembersText(members)|)
    ensures t.open == WithTop(s.open, Hash(Fields(m, members)))
    decreases members, 0
  {
    hide Run, Step, Sane, MemberText, GoodMember, Stops;
    if members == [] {
      t := s;
    } else {
      var front, last := members[..|members| - 1], members[|members| - 1];
      ReadsSplit(data, s.pos, MembersText(front), MemberText(last));
      FrontStops(data, s.pos + |MembersText(front)|, front, last);
      t := ReadMembers(data, callback, s, m, front);
      t := ReadMember(data, callback, t, last);
    }
  }

  // Inside a sequence an open-ended value is always followed by a gap.
  lemma FrontStops(data: string, pos: nat, front: seq<Member>, last: Member)
    requires GoodMembers(front + [last]) && pos < |data|
    ensures front != [] && front[|front| - 1].after == [] ==> Stops(data, pos, front[|front| - 1].value)
  {
    assert (front + [last])[..|front|] == front;
  }

  lemma {:induction false} ReadMember(data: string, callback: bool, s: State, m: Member) returns (t: State)
    requires Sane(data, s) && s.lab == InHash && GoodMember(m)
    requires s.open != [] && TopValue(s.open).Hash?
    requires Reads(data, s.pos, MemberText(m)) && s.pos + |MemberText(m)| < |data|
    requires m.after == [] ==> Stops(data, s.pos + |MemberText(m)|, m.value)
    ensures Leads(data, callback, s, t)
    ensures Arrived(s, t, InHash, s.pos + |MemberText(m)|) && t.open == Put(s.open, m.key.text, Value(m.value))
    decreases m, 0
  {
    hide Run, Step, Sane, Put, KeyText, GapText, Text, Good, Value, Stops, GoodKey, GoodGap;
    var key, before := |KeyText(m.key)| + |m.skip| + 1, |GapText(m.before)|;
    var value, after := |Text(m.value)|, |GapText(m.after)|;
    MemberParts(data, s.pos, m);
    t := ReadKey(data, callback, s, m.key, m.skip);
    NonEmptyText(m.value);
    SkipGap(data, callback, t, AtValue, m.before);
    t := Goto(t, AfterColon, t.pos + before);
    t := ReadValue(data, callback, t, m.value);
    PutKeeps(s.open, m.key.text, Value(m.value));
    StepBack(data, callback, t);
    t := Goto(t, InHash, t.pos);
    SkipGap(data, callback, t, AtMember, m.after);
    t := Goto(t, InHash, t.pos + after);
  }

  // Where the parts of a member are.
  lemma MemberParts(data: string, pos: nat, m: Member)
    requires Reads(data, pos, MemberText(m)) && pos + |MemberText(m)| < |data|
    requires GoodGap(m.after, true) && (m.after == [] ==> Stops(data, pos + |MemberText(m)|, m.value))
    ensures
      var p := pos + |KeyText(m.key)| + |m.skip| + 1;
      var p' := p + |GapText(m.before)|;
      var p'' := p' + |Text(m.value)|;
      && Reads(data, pos, KeyText(m.key) + (m.skip + ":"))
      && Reads(data, p, GapText(m.before)) && Reads(data, p', Text(m.value)) && Reads(data, p'', GapText(m.after))
      && |MemberText(m)| == p'' + |GapText(m.after)| - pos
      && Stops(data, p'', m.value)
  {
    hide KeyText, GapText, Text, Stops;
    var key, before := KeyText(m.key) + (m.skip + ":"), GapText(m.before);
    var value, after := Text(m.value), GapText(m.after);
    Grouped(KeyText(m.key), m.skip, ":", before, value, after);
    assert MemberText(m) == key + (before + (value + after));
    ReadsSplit(data, pos, key, before + (value + after));
    ReadsSplit(data, pos + |key|, before, value + after);
    ReadsSplit(data, pos + |key| + |before|, value, after);
    EmptyGap();
    GapStops(data, pos + |key| + |before| + |value|, m.value, m.after, true);
  }

  lemma PutKeeps(open: seq<Frame>, key: string, v: Json)
    requires open != []
    ensures |Put(open, key, v)| == |open|
    ensures TopValue(Put(open, key, v)) == Add(TopValue(open), key, v)
    ensures Put(open, key, v) == WithTop(open, Add(TopValue(open), key, v))
  {
  }

  lemma NonEmptyText(v: Source)
    requires Good(v)
    ensures Text(v) != ""
  {
  }

  // From the opening to the closing bracket.
  lemma {:induction false} ReadArr(data: string, callback: bool, s: State, lead: Gap, items: seq<Item>)
    returns (t: State)
    requires Sane(data, s) && s.lab == AfterColon && GoodGap(lead, false) && GoodItems(items)
    requires Reads(data, s.pos, "[" + GapText(lead) + ItemsText(items) + "]")
    ensures Leads(data, callback, s, t) && s.open != []
    ensures Arrived(s, t, HashOrAfterColon, s.pos + |GapText(lead)| + |ItemsText(items)| + 2)
    ensures t.open == Put(s.open, s.key, Arr(Items(items)))
    decreases items, 2
  {
    hide Run, Step, Sane, Put, Items, ItemsText, GoodItems, GapText;
    SaneOpen(data, s);
    var body := GapText(lead) + ItemsText(items) + "]";
    assert "[" + GapText(lead) + ItemsText(items) + "]" == "[" + body;
    ReadsSplit(data, s.pos, "[", body);
    ReadsAt(data, s.pos, "[", 0);
    var t1 := OpenArr(data, callback, s);
    t := ReadArrBody(data, callback, t1, lead, items);
    t := CloseArr(data, callback, t);
    assert t.open == Put(s.open, s.key, Arr(Items(items))) by {
      var open := Push(s.open, s.key, Arr([]));
      assert WithTop(open, Arr(Items(items)))[..|s.open|] == s.open;
    }
  }

  lemma OpenArr(data: string, callback: bool, s: State) returns (t: State)
    requires Sane(data, s) && s.lab == AfterColon && s.pos < |data| && data[s.pos] == '['
    ensures Leads(data, callback, s, t)
    ensures Arrived(s, t, AfterColon, s.pos + 1) && t.open == Push(s.open, s.key, Arr([]))
  {
    hide Run;
    t := Step(data, callback, s);
    OneStep(data, callback, s, t);
  }

  lemma CloseArr(data: string, callback: bool, s: State) returns (t: State)
    requires Sane(data, s) && s.lab == AfterColon && s.pos < |data| && data[s.pos] == ']' && |s.open| > 1
    ensures Leads(data, callback, s, t)
    ensures Arrived(s, t, HashOrAfterColon, s.pos + 1) && t.open == Pop(s.open)
  {
    hide Run;
    t := Step(data, callback, s);
    OneStep(data, callback, s, t);
  }

  lemma {:induction false} ReadArrBody(data: string, callback: bool, s: State, lead: Gap, items: seq<Item>)
    returns (t: State)
    requires Sane(data, s) && s.lab == AfterColon && GoodGap(lead, false) && GoodItems(items)
    requires s.open != [] && TopValue(s.open) == Arr([])
    requires Reads(data, s.pos, GapText(lead) + ItemsText(items) + "]")
    ensures Leads(data, callback, s, t)
    ensures Arrived(s, t, AfterColon, s.pos + |GapText(lead)| + |ItemsText(items)|)
    ensures t.open == WithTop(s.open, Arr(Items(items)))
    ensures data[t.pos] == ']'
    decreases items, 1
  {
    hide Run, Step, Sane, Items, ItemsText, GoodItems, GapText;
    ReadsSplit(data, s.pos, GapText(lead) + ItemsText(items), "]");
    ReadsSplit(data, s.pos, GapText(lead), ItemsText(items));
    ReadsAt(data, s.pos + |GapText(lead) + ItemsText(items)|, "]", 0);
    SkipGap(data, callback, s, AtValue, lead);
    t := Goto(s, s.lab, s.pos + |GapText(lead)|);
    t := ReadItems(data, callback, t, items);
  }

  lemma {:induction false} ReadItems(data: string, callback: bool, s: State, items: seq<Item>) returns (t: State)
    requires Sane(data, s) && s.lab == AfterColon && GoodItems(items)
    requires s.open != [] && TopValue(s.open) == Arr([])
    requires Reads(data, s.pos, ItemsText(items)) && s.pos + |ItemsText(items)| < |data|
    requires
      var end := s.pos + |ItemsText(items)|;
      items != [] && items[|items| - 1].after == [] ==> Stops(data, end, items[|items| - 1].value)
    ensures Leads(data, callback, s, t)
    ensures Arrived(s, t, AfterColon, s.pos + |ItemsText(items)|)
    ensures t.open == WithTop(s.open, Arr(Items(items)))
    decreases items, 0
  {
    hide Run, Step, Sane, Stops, Text, Good, GapText, Value, GoodGap;
    if items == [] {
      t := s;
    } else {
      var front, last := items[..|items| - 1], items[|items| - 1];
      assert ItemsText(items) == ItemsText(front) + (Text(last.value) + GapText(last.after));
      ReadsSplit(data, s.pos, ItemsText(front), Text(last.value) + GapText(last.after));
      FrontItemStops(data, s.pos + |ItemsText(front)|, front, last);
      NonEmptyText(last.value);
      EmptyGap();
      t := ReadItems(data, callback, s, front);
      t := ReadItem(data, callback, t, last);
    }
  }

  lemma FrontItemStops(data: string, pos: nat, front: seq<Item>, last: Item)
    requires GoodItems(front + [last]) && pos < |data|
    ensures front != [] && front[|front| - 1].after == [] ==> Stops(data, pos, front[|front| - 1].value)
  {
    assert (front + [last])[..|front|] == front;
  }

  lemma {:induction false} ReadItem(data: string, callback: bool, s: State, m: Item) returns (t: State)
    requires Sane(data, s) && s.lab == AfterColon && Good(m.value) && GoodGap(m.after, false)
    requires s.open != [] && TopValue(s.open).Arr?
    requires Reads(data, s.pos, Text(m.value) + GapText(m.after))
    requires s.pos + |Text(m.value)| + |GapText(m.after)| < |data|
    requires m.after == [] ==> Stops(data, s.pos + |Text(m.value)|, m.value)
    ensures Leads(data, callback, s, t)
    ensures Arrived(s, t, AfterColon, s.pos + |Text(m.value)| + |GapText(m.after)|)
    ensures t.open == Put(s.open, s.key, Value(m.value))
    decreases m, 0
  {
    hide Run, Step, Sane, Put, GapText, Text, Good, Value, Stops, GoodGap;
    ReadsSplit(data, s.pos, Text(m.value), GapText(m.after));
    EmptyGap();
    GapStops(data, s.pos + |Text(m.value)|, m.value, m.after, false);
    t := ReadValue(data, callback, s, m.value);
    PutKeeps(s.open, s.key, Value(m.value));
    StepBack(data, callback, t);
    t := Goto(t, AfterColon, t.pos);
    SkipGap(data, callback, t, AtValue, m.after);
    t := Goto(t, AfterColon, t.pos + |GapText(m.after)|);
  }

  // ----- whole inputs

  // What the parser has done when it is through: the label, the tree, the rest.
  predicate Delivers(data: string, v: Json, rest: string) {
    var t := Run(data, false, START);
    t.lab == Done && t.root == Some(v) && t.remainder == rest
  }

  lemma EnterRoot(data: string, callback: bool, s: State) returns (t: State)
    requires Sane(data, s) && s.lab == UnknownRoot && s.pos + 1 < |data| && (data[s.pos] == '{' || data[s.pos] == '[')
    ensures Leads(data, callback, s, t)
    ensures data[s.pos] == '{' ==> Arrived(s, t, InHash, s.pos + 1) && t.open == [Frame(Hash(map[]), "")]
    ensures data[s.pos] == '[' ==> Arrived(s, t, AfterColon, s.pos + 1) && t.open == [Frame(Arr([]), "")]
  {
    hide Run;
    t := Step(data, callback, s);
    OneStep(data, callback, s, t);
  }

  lemma LeaveRoot(data: string, callback: bool, s: State) returns (t: State)
    requires Sane(data, s) && |s.open| == 1 && s.pos < |data|
    requires (s.lab == InHash && data[s.pos] == '}') || (s.lab == AfterColon && data[s.pos] == ']')
    ensures Leads(data, callback, s, t)
    ensures t.open == [] && t.root == Some(s.open[0].value) && t.pos == s.pos + 1
    ensures if callback && s.lab == InHash
            then t.lab == UnknownRoot && t.chunks == s.chunks + [s.open[0].value]
            else t.lab == Done && t.chunks == s.chunks && t.remainder == data[t.pos..]
  {
    hide Run, Sane;
    var root, p := s.open[0].value, s.pos + 1;
    if callback && s.lab == InHash {
      t := s.(lab := UnknownRoot, pos := p, open := [], root := Some(root), chunks := s.chunks + [root]);
    } else {
      t := s.(lab := Done, pos := p, open := [], root := Some(root), remainder := data[p..]);
    }
    OneStep(data, callback, s, t);
  }

  // A root hash, from before the gap in front of it to behind its closing brace.
  lemma ReadRootHash(data: string, callback: bool, s: State, lead: Gap, v: Source) returns (t: State)
    requires Sane(data, s) && s.lab == UnknownRoot && GoodGap(lead, true) && v.SHash? && Good(v)
    requires Reads(data, s.pos, GapText(lead) + Text(v))
    ensures Leads(data, callback, s, t)
    ensures t.open == [] && t.root == Some(Value(v)) && t.pos == s.pos + |GapText(lead)| + |Text(v)|
    ensures if callback then t.lab == UnknownRoot && t.chunks == s.chunks + [Value(v)]
            else t.lab == Done && t.chunks == s.chunks && t.remainder == data[t.pos..]
  {
    hide Run, Step, Sane, GapText, MembersText, Fields, GoodMembers, GoodGap;
    var body := GapText(v.lead) + MembersText(v.members) + "}";
    assert Text(v) == "{" + body;
    ReadsSplit(data, s.pos, GapText(lead), "{" + body);
    ReadsSplit(data, s.pos + |GapText(lead)|, "{", body);
    ReadsAt(data, s.pos + |GapText(lead)|, "{", 0);
    SkipGap(data, callback, s, AtRoot, lead);
    t := Goto(s, s.lab, s.pos + |GapText(lead)|);
    t := EnterRoot(data, callback, t);
    t := ReadBody(data, callback, t, v.lead, v.members);
    t := LeaveRoot(data, callback, t);
  }

  lemma ReadRootArr(data: string, callback: bool, s: State, lead: Gap, v: Source) returns (t: State)
    requires Sane(data, s) && s.lab == UnknownRoot && GoodGap(lead, true) && v.SArr? && Good(v)
    requires Reads(data, s.pos, GapText(lead) + Text(v))
    ensures Leads(data, callback, s, t)
    ensures t.open == [] && t.root == Some(Value(v)) && t.pos == s.pos + |GapText(lead)| + |Text(v)|
    ensures t.lab == Done && t.chunks == s.chunks && t.remainder == data[t.pos..]
  {
    hide Run, Step, Sane, GapText, ItemsText, Items, GoodItems, GoodGap;
    var body := GapText(v.lead) + ItemsText(v.items) + "]";
    assert Text(v) == "[" + body;
    ReadsSplit(data, s.pos, GapText(lead), "[" + body);
    ReadsSplit(data, s.pos + |GapText(lead)|, "[", body);
    ReadsAt(data, s.pos + |GapText(lead)|, "[", 0);
    SkipGap(data, callback, s, AtRoot, lead);
    t := Goto(s, s.lab, s.pos + |GapText(lead)|);
    t := EnterRoot(data, callback, t);
    t := ReadArrBody(data, callback, t, v.lead, v.items);
    t := LeaveRoot(data, callback, t);
  }

  lemma Halts(data: string, callback: bool, t: State)
    requires Sane(data, t) && Halted(t)
    ensures Run(data, callback, t) == t
  {
  }

  // Parsing undoes writing: the tree comes back, and the rest of the input is
  // returned untouched.
  lemma ReadsBack(lead: Gap, v: Source, rest: string)
    requires GoodGap(lead, true) && Good(v) && (v.SHash? || v.SArr?)
    ensures Delivers(GapText(lead) + Text(v) + rest, Value(v), rest)
  {
    hide Run, Step, Text, GapText, Good, GoodGap, Value;
    var text := GapText(lead) + Text(v);
    var data := text + rest;
    assert Reads(data, 0, text);
    var t;
    if v.SHash? {
      t := ReadRootHash(data, false, START, lead, v);
    } else {
      t := ReadRootArr(data, false, START, lead, v);
    }
    Halts(data, false, t);
    assert data[|text|..] == rest;
  }

  // Two texts of the same tree are read alike.
  lemma LayoutIsIrrelevant(lead: Gap, v: Source, lead': Gap, v': Source, rest: string)
    requires GoodGap(lead, true) && Good(v) && (v.SHash? || v.SArr?)
    requires GoodGap(lead', true) && Good(v') && Value(v) == Value(v')
    ensures
      var t := Run(GapText(lead) + Text(v) + rest, false, START);
      var t' := Run(GapText(lead') + Text(v') + rest, false, START);
      t.lab == t'.lab == Done && t.root == t'.root && t.remainder == t'.remainder
  {
    hide Run, Text, GapText, Good, GoodGap;
    assert v.SHash? <==> v'.SHash?;
    assert v.SArr? <==> v'.SArr?;
    ReadsBack(lead, v, rest);
    ReadsBack(lead', v', rest);
  }

  // ----- a stream of root hashes

  function RootsText(roots: seq<(Gap, Source)>): string {
    if roots == [] then "" else GapText(roots[0].0) + Text(roots[0].1) + RootsText(roots[1..])
  }

  predicate GoodRoots(roots: seq<(Gap, Source)>) {
    forall i :: 0 <= i < |roots| ==> GoodGap(roots[i].0, true) && roots[i].1.SHash? && Good(roots[i].1)
  }

  function Values(roots: seq<(Gap, Source)>): seq<Json> {
    seq(|roots|, i requires 0 <= i < |roots| => Value(roots[i].1))
  }

  lemma {:induction false} ReadRoots(data: string, s: State, roots: seq<(Gap, Source)>) returns (t: State)
    requires Sane(data, s) && s.lab == UnknownRoot && GoodRoots(roots) && Reads(data, s.pos, RootsText(roots))
    ensures Leads(data, true, s, t)
    ensures t.lab == UnknownRoot && t.pos == s.pos + |RootsText(roots)| && t.chunks == s.chunks + Values(roots)
    decreases |roots|
  {
    hide Run, Step, Sane, GapText, Text, Good, GoodGap, Value;
    if roots == [] {
      t := s;
    } else {
      var (lead, v) := roots[0];
      ReadsSplit(data, s.pos, GapText(lead) + Text(v), RootsText(roots[1..]));
      t := ReadRootHash(data, true, s, lead, v);
      t := ReadRoots(data, t, roots[1..]);
      assert [Value(v)] + Values(roots[1..]) == Values(roots);
    }
  }

  // How the parser ends in the gap behind the last root: content with a blank,
  // and otherwise missing something.
  function EndLabel(tail: Gap): Label {
    if tail != [] && tail[|tail| - 1].Blank? then Done else OverEnd
  }

  predicate EndsQuietly(data: string, s: State, lab: Label)
    requires Sane(data, s)
  {
    Run(data, true, s).chunks == s.chunks && Run(data, true, s).lab == lab
  }

  lemma EndOfInput(data: string, s: State)
    requires Sane(data, s) && s.lab == UnknownRoot && s.pos == |data|
    ensures EndsQuietly(data, s, OverEnd)
  {
    hide Run;
    var t := Step(data, true, s);
    OneStep(data, true, s, t);
    Halts(data, true, t);
  }

  lemma EndBlank(data: string, s: State)
    requires Sane(data, s) && s.lab == UnknownRoot && s.pos + 1 == |data|
    ensures EndsQuietly(data, s, Done)
  {
    hide Run;
    var t := Step(data, true, s);
    OneStep(data, true, s, t);
    Halts(data, true, t);
  }

  // The end of a block comment is not seen when it is the end of the input.
  lemma EndBlock(data: string, s: State)
    requires Sane(data, s) && s.lab == RootHashComment2 && s.pos + 2 == |data|
    ensures EndsQuietly(data, s, OverEnd)
  {
    hide Run;
    var t := Step(data, true, s);
    OneStep(data, true, s, t);
    var t' := Step(data, true, t);
    OneStep(data, true, t, t');
    Halts(data, true, t');
  }

  lemma LastItem(data: string, s: State, g: GapItem)
    requires Sane(data, s) && s.lab == UnknownRoot && GoodItem(g, true)
    requires Reads(data, s.pos, ItemText(g)) && s.pos + |ItemText(g)| == |data|
    ensures EndsQuietly(data, s, EndLabel([g]))
  {
    hide Run, Sane, Step, NoNewline, NoClosing;
    match g
    case Blank(c) => EndBlank(data, s);
    case LineComment(_, _) => LastLine(data, s, g);
    case BlockComment(_) => LastBlock(data, s, g);
  }

  lemma LastLine(data: string, s: State, g: GapItem)
    requires Sane(data, s) && s.lab == UnknownRoot && GoodItem(g, true) && g.LineComment?
    requires Reads(data, s.pos, ItemText(g)) && s.pos + |ItemText(g)| == |data|
    ensures EndsQuietly(data, s, OverEnd)
  {
    hide Run, Sane, Step;
    var text, body := ItemText(g), g.body;
    ReadsEach(data, s.pos, text);
    StepIdle(data, true, s, AtRoot);
    var t := Goto(s, InLine(AtRoot), s.pos + 2);
    forall i | t.pos <= i < t.pos + |body|
      ensures !Newline(data[i])
    {
      assert data[i] == text[i - s.pos] == body[i - t.pos];
    }
    SkipLine(data, true, t, AtRoot, |body|);
    StepInLine(data, true, Goto(t, t.lab, t.pos + |body|), AtRoot);
    EndOfInput(data, Goto(s, UnknownRoot, |data|));
  }

  lemma LastBlock(data: string, s: State, g: GapItem)
    requires Sane(data, s) && s.lab == UnknownRoot && GoodItem(g, true) && g.BlockComment?
    requires Reads(data, s.pos, ItemText(g)) && s.pos + |ItemText(g)| == |data|
    ensures EndsQuietly(data, s, OverEnd)
  {
    hide Run, Sane, Step;
    var text, body := ItemText(g), g.body;
    ReadsEach(data, s.pos, text);
    StepIdle(data, true, s, AtRoot);
    var t := Goto(s, InBlock(AtRoot), s.pos + 2);
    assert text[2 + |body|] == '*' && text[3 + |body|] == '/';
    forall i | t.pos <= i < t.pos + |body|
      ensures !(data[i] == '*' && data[i + 1] == '/')
    {
      assert data[i] == text[i - s.pos] == body[i - t.pos] && data[i + 1] == text[i + 1 - s.pos];
    }
    SkipBlock(data, true, t, AtRoot, |body|);
    EndBlock(data, Goto(t, t.lab, t.pos + |body|));
  }

  lemma EndGap(data: string, s: State, tail: Gap)
    requires Sane(data, s) && s.lab == UnknownRoot && GoodGap(tail, true)
    requires Reads(data, s.pos, GapText(tail)) && s.pos + |GapText(tail)| == |data|
    ensures EndsQuietly(data, s, EndLabel(tail))
  {
    hide Run, Sane, Step, ItemText;
    if tail == [] {
      EndOfInput(data, s);
    } else {
      var front, last := tail[..|tail| - 1], tail[|tail| - 1];
      ReadsSplit(data, s.pos, GapText(front), ItemText(last));
      ItemNotEmpty(last);
      SkipGap(data, true, s, AtRoot, front);
      LastItem(data, Goto(s, s.lab, s.pos + |GapText(front)|), last);
    }
  }

  lemma ItemNotEmpty(g: GapItem)
    ensures ItemText(g) != ""
  {
  }

  // With a callback, every root is handed over once, in order, whatever gap
  // there is behind the last one.
  lemma StreamDelivers(roots: seq<(Gap, Source)>, tail: Gap)
    requires GoodRoots(roots) && GoodGap(tail, true)
    ensures
      var t := Run(RootsText(roots) + GapText(tail), true, START);
      t.chunks == Values(roots) && t.lab == EndLabel(tail)
  {
    hide Run, Step, Values, RootsText, GoodRoots, GapText, GoodGap;
    var data := RootsText(roots) + GapText(tail);
    assert Reads(data, 0, data);
    ReadsSplit(data, 0, RootsText(roots), GapText(tail));
    var t := ReadRoots(data, START, roots);
    EndGap(data, t, tail);
    assert [] + Values(roots) == Values(roots);
  }
}
