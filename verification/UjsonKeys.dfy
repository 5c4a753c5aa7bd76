/**
  Which keys the parser of c/ujson.c reads as they are written.
*/
module UjsonKeys {
  import opened Common
  import opened Gaps
  import opened UjsonScan
  import opened UjsonSource
  import opened UjsonRoundTrip
  import opened UjsonComments

  // ----- bare keys

  predicate WordByte(c: char) {
    Lower(c) || Upper(c) || Digit(c) || c == '_'
  }

  predicate Word(text: string) {
    forall i :: 0 <= i < |text| ==> WordByte(text[i])
  }

  // From the first small letter on.
  function FromSmall(text: string): string {
    if text == "" || 'a' <= text[0] <= 'z' then text else FromSmall(text[1..])
  }

  lemma {:induction false} FromSmallPlace(text: string) returns (n: nat)
    requires Word(text)
    ensures n <= |text| && FromSmall(text) == text[n..]
    ensures forall i :: 0 <= i < n ==> !Lower(text[i])
    ensures n < |text| ==> Lower(text[n])
  {
    if text == "" || Lower(text[0]) {
      n := 0;
    } else {
      n := FromSmallPlace(text[1..]);
      assert text[1..][n..] == text[n + 1..];
      assert forall i :: 0 < i < n + 1 ==> text[i] == text[1..][i - 1];
      n := n + 1;
    }
  }

  function BareOne(text: string, tail: Gap): string {
    "{" + text + ":1}" + GapText(tail)
  }

  lemma BarePlaces(text: string, tail: Gap)
    ensures
      var data, p := BareOne(text, tail), 1 + |text|;
      && Reads(data, 1, text) && data[p] == ':' && data[p + 1] == '1' && data[p + 2] == '}'
      && Reads(data, p + 3, GapText(tail)) && |data| == p + 3 + |GapText(tail)|
      && forall n: nat :: n <= |text| ==> Reads(data, 1 + n, text[n..] + ":")
  {
    hide GapText;
    var data, p := BareOne(text, tail), 1 + |text|;
    assert data[1..p] == text;
    assert data[p..p + 3] == ":1}";
    assert data[p + 3..] == GapText(tail);
    forall n: nat | n <= |text|
      ensures Reads(data, 1 + n, text[n..] + ":")
    {
      assert data[1 + n..p + 1] == text[n..] + ":";
    }
  }

  lemma {:induction false} SkipBytes(data: string, s: State, n: nat)
    requires Ready(data, s) && s.regs.lab == InHash && s.regs.pos + n <= |data|
    requires forall i :: s.regs.pos <= i < s.regs.pos + n ==> (WordByte(data[i]) && !Lower(data[i])) || data[i] == ':'
    ensures Leads(data, s, Goto(s, InHash, s.regs.pos + n))
    decreases n
  {
    hide Run, Fits;
    if n > 0 {
      OneStep(data, s, Goto(s, InHash, s.regs.pos + 1));
      SkipBytes(data, Goto(s, InHash, s.regs.pos + 1), n - 1);
    }
  }

  // A bare key is read from its first small letter on.
  lemma BareKeyFromSmall(text: string, tail: Gap)
    requires Word(text) && GoodGap(tail, true)
    ensures Gives(BareOne(text, tail),
      Hash(if FromSmall(text) == "" then map[] else map[FromSmall(text) := [NumVal(false, "1")]]))
  {
    hide Run, Fits, Step, Ready, GapText, GoodGap, BareOne, Word, FromSmall, Put, Reads;
    var data, p := BareOne(text, tail), 1 + |text|;
    BarePlaces(text, tail);
    StartReady(data);
    StartsEmpty();
    var n := FromSmallPlace(text);
    ReadsEach(data, 1, text);
    WordBytes(text);
    var s := START;
    if n == |text| {
      SkipBytes(data, s, |text| + 2);
      s := Goto(s, InHash, p + 2);
    } else {
      SkipBytes(data, s, n);
      var key := text[n..];
      assert key + ":" == key + ("" + ":");
      s := ReadKey(data, Goto(s, InHash, 1 + n), Bare(key), "");
      RootWith(key, NumVal(false, "1"));
      OneIsThere(data, p + 1);
      s := ReadNum(data, s, false, "1");
    }
    RootBrace(data, s);
    EndGap(data, Goto(s, InHash, p + 3), tail);
  }

  lemma OneIsThere(data: string, pos: nat)
    requires pos < |data| && data[pos] == '1'
    ensures Reads(data, pos, Sign(false) + "1")
  {
    assert data[pos..pos + 1] == "1" == Sign(false) + "1";
  }

  lemma WordBytes(text: string)
    requires Word(text)
    ensures forall i :: 0 <= i < |text| ==> WordByte(text[i])
    ensures forall n: nat, c :: n < |text| && c in text[n..][1..] ==> c != ':' && c != ' ' && c != '\t'
  {
    forall n: nat, c | n < |text| && c in text[n..][1..]
      ensures c != ':' && c != ' ' && c != '\t'
    {
      var i :| 0 <= i < |text[n..][1..]| && text[n..][1..][i] == c;
      assert text[n + 1 + i] == c;
    }
  }

  // A bare key is read as it is written if and only if it begins with a small letter.
  lemma BareKeySurvives(text: string, tail: Gap)
    requires text != "" && Word(text) && GoodGap(tail, true)
    ensures Gives(BareOne(text, tail), Hash(map[text := [NumVal(false, "1")]])) <==> 'a' <= text[0] <= 'z'
  {
    hide Run, Fits, BareOne, Word, GoodGap, FromSmall;
    BareKeyFromSmall(text, tail);
    var n := FromSmallPlace(text);
    assert text in map[text := [NumVal(false, "1")]];
    if !Lower(text[0]) {
      assert |text[n..]| < |text|;
    } else {
      assert n == 0;
      assert text[0..] == text;
    }
  }

  // Such a key is lost as a whole.
  lemma CapitalKeyIsLost()
    ensures Gives("{A:1}", Hash(map[]))
  {
    hide Gives;
    BareKeyFromSmall("A", []);
    assert FromSmall("A") == FromSmall("") == "" by { assert "A"[1..] == ""; }
    EmptyGap();
    assert BareOne("A", []) == "{" + "A" + ":1}" + "" == "{A:1}";
  }

  // ----- quoted keys: a key read later ends later

  // The hash {k:1} and no more, with the key in quotes.
  function QuotedOne(q: char, k: string): string {
    "{" + [q] + k + [q] + ":1}"
  }

  predicate InName(lab: Label) {
    lab in {QQKeyNameX, QKeyNameX, KeyNameX}
  }

  // Once the place of the key has been read as another key, there is not enough
  // left for the key k and the number behind it.
  predicate LateRegs(data: string, r: Registers, k: string) {
    && Sane(data, r) && |data| == |k| + 6 && r.pos >= 4
    && (r.key == k ==> r.pos >= |k| + 5)
    && (InName(r.lab) ==> r.keyStart >= 4)
    && (r.lab == Number1 && r.key == k ==> r.pos >= |k| + 6)
    && (r.lab in {NumberX, AfterDot} ==> r.key != k)
  }

  predicate NotOne(r: Registers, act: Action, k: string) {
    act.Scalar? ==> act.value.Val? && (r.key == k ==> act.value != NumVal(false, "1"))
  }

  predicate LateScan(data: string, r: Registers, inArr: bool, k: string)
    requires Sane(data, r) && !Halted(r)
  {
    var (t, act) := Scan(data, r, inArr);
    LateRegs(data, t, k) && NotOne(t, act, k)
  }

  lemma LateInKeys(data: string, r: Registers, inArr: bool, k: string)
    requires LateRegs(data, r, k) && r.pos < |data|
    requires r.lab in {QQKeyName1, QKeyName1, KeyName1, Colon, InHash}
    ensures LateScan(data, r, inArr, k)
  {
  }

  lemma LateInNames(data: string, r: Registers, inArr: bool, k: string)
    requires LateRegs(data, r, k) && r.pos < |data| && InName(r.lab)
    ensures LateScan(data, r, inArr, k)
  {
  }

  lemma LateInComments(data: string, r: Registers, inArr: bool, k: string)
    requires LateRegs(data, r, k) && r.pos < |data|
    requires r.lab in {HashComment, HashComment2, AcComment, AcComment2, AfterVal}
    ensures LateScan(data, r, inArr, k)
  {
  }

  lemma LateAfterColon(data: string, r: Registers, inArr: bool, k: string)
    requires LateRegs(data, r, k) && r.pos < |data| && r.lab == AfterColon
    ensures LateScan(data, r, inArr, k)
  {
  }

  lemma LateInNumbers(data: string, r: Registers, inArr: bool, k: string)
    requires LateRegs(data, r, k) && r.pos < |data| && r.lab in {TypeX, Number1, NumberX, AfterDot}
    ensures LateScan(data, r, inArr, k)
  {
    hide WORDS;
    NoNumberWord();
  }

  lemma NoNumberWord()
    ensures forall word :: word in WORDS ==> WORDS[word] != PosNum
  {
  }

  lemma LateStringX(data: string, r: Registers, c: char, inArr: bool, k: string)
    requires LateRegs(data, r, k) && r.strStart < r.pos <= |data| && !InName(r.lab)
    ensures
      var (t, act) := ScanStringX(data, r, c, inArr);
      LateRegs(data, t, k) && NotOne(t, act, k)
  {
  }

  lemma LateInStrings(data: string, r: Registers, inArr: bool, k: string)
    requires LateRegs(data, r, k) && r.pos < |data|
    requires r.lab in {StringX, StrSlash1, SlashHex1, SlashHex2, SlashHex3, SlashHex4}
    ensures LateScan(data, r, inArr, k)
  {
    hide Hex, ScanStringX;
    LateStringX(data, r.(pos := r.pos + 1), data[r.pos], inArr, k);
  }

  lemma LateInString1(data: string, r: Registers, inArr: bool, k: string)
    requires LateRegs(data, r, k) && r.pos < |data| && r.lab == String1
    ensures LateScan(data, r, inArr, k)
  {
  }

  lemma ScanLate(data: string, r: Registers, inArr: bool, k: string)
    requires LateRegs(data, r, k) && !Halted(r)
    ensures LateScan(data, r, inArr, k)
  {
    hide LateScan, LateRegs;
    if r.pos >= |data| {
      LateAtEnd(data, r, inArr, k);
    } else if InName(r.lab) {
      LateInNames(data, r, inArr, k);
    } else if r.lab in {QQKeyName1, QKeyName1, KeyName1, Colon, InHash} {
      LateInKeys(data, r, inArr, k);
    } else if r.lab in {HashComment, HashComment2, AcComment, AcComment2, AfterVal} {
      LateInComments(data, r, inArr, k);
    } else if r.lab == AfterColon {
      LateAfterColon(data, r, inArr, k);
    } else if r.lab in {TypeX, Number1, NumberX, AfterDot} {
      LateInNumbers(data, r, inArr, k);
    } else if r.lab == String1 {
      LateInString1(data, r, inArr, k);
    } else {
      LateInStrings(data, r, inArr, k);
    }
  }

  lemma LateAtEnd(data: string, r: Registers, inArr: bool, k: string)
    requires LateRegs(data, r, k) && !Halted(r) && r.pos >= |data|
    ensures LateScan(data, r, inArr, k)
  {
  }

  // The key k has the number 1 and nothing else.
  predicate HasOne(v: Json, k: string) {
    v.Hash? && k in v.members && v.members[k] == [NumVal(false, "1")]
  }

  predicate LateOpen(open: seq<Frame>, k: string) {
    && open != [] && !HasOne(open[0].value, k)
    && forall i :: 0 <= i < |open| ==> !open[i].value.Val?
  }

  lemma PutLate(open: seq<Frame>, key: string, v: Json, k: string)
    requires LateOpen(open, k) && (key == k ==> v != NumVal(false, "1"))
    ensures LateOpen(Put(open, key, v), k)
  {
    if open[0].value.Hash? {
      var list := if key in open[0].value.members then open[0].value.members[key] else [];
      assert (list + [v])[|list|] == v;
    }
  }

  lemma PopLate(open: seq<Frame>, k: string)
    requires LateOpen(open, k) && |open| > 1
    ensures LateOpen(Pop(open), k) && |Pop(open)| < |open|
  {
    hide HasOne;
    var top := open[|open| - 1];
    PutLate(open[..|open| - 1], top.key, top.value, k);
  }

  lemma {:induction false} PopArrLate(open: seq<Frame>, k: string)
    requires LateOpen(open, k)
    ensures LateOpen(PopArr(open), k)
    decreases |open|
  {
    hide Pop, LateOpen;
    NotEmpty(open, k);
    if |open| > 1 {
      PopLate(open, k);
      if !Top(open).Arr? {
        PopArrLate(Pop(open), k);
      }
    }
  }

  lemma NotEmpty(open: seq<Frame>, k: string)
    requires LateOpen(open, k)
    ensures open != []
  {
  }

  lemma PerformLate(open: seq<Frame>, r: Registers, act: Action, k: string)
    requires LateOpen(open, k) && NotOne(r, act, k)
    ensures LateOpen(Perform(open, r.key, act), k)
  {
    hide Put, Pop, PopArr, HasOne;
    match act
    case Nothing =>
    case BeginHash =>
    case BeginArr =>
    case EndHash => if |open| > 1 { PopLate(open, k); }
    case EndArr => PopArrLate(open, k);
    case Scalar(v) => PutLate(open, r.key, v, k);
  }

  predicate Late(data: string, s: State, k: string) {
    LateRegs(data, s.regs, k) && LateOpen(s.open, k)
  }

  lemma StepLate(data: string, s: State, k: string)
    requires Ready(data, s) && !Halted(s.regs) && Late(data, s, k)
    ensures Late(data, Step(data, s), k)
  {
    hide Scan, Perform, LateOpen;
    ScanLate(data, s.regs, Top(s.open).Arr?, k);
    var (r, act) := Scan(data, s.regs, Top(s.open).Arr?);
    PerformLate(s.open, r, act, k);
    ClosingLabel(data, s.regs, Top(s.open).Arr?);
  }

  lemma {:induction false} RunLate(data: string, s: State, k: string)
    requires Ready(data, s) && Late(data, s, k)
    ensures LateOpen(Run(data, s).open, k)
    decreases Measure(data, s.regs)
  {
    hide Step, LateOpen, LateRegs;
    if !Halted(s.regs) {
      StepLate(data, s, k);
      StepOnward(data, s);
      RunLate(data, Step(data, s), k);
    }
  }

  lemma {:induction false} CollapsedLate(open: seq<Frame>, k: string)
    requires LateOpen(open, k)
    ensures open != [] && !HasOne(Collapsed(open), k)
    decreases |open|
  {
    hide Pop, HasOne;
    if |open| > 1 {
      PopLate(open, k);
      CollapsedLate(Pop(open), k);
    }
  }

  // ----- where the key ends

  lemma QuotedPlaces(q: char, k: string)
    ensures
      var data := QuotedOne(q, k);
      && |data| == |k| + 6 && data[1] == q && Reads(data, 2, k + [q])
      && data[|k| + 2] == q && data[|k| + 3] == ':' && data[|k| + 4] == '1' && data[|k| + 5] == '}'
  {
    var data := QuotedOne(q, k);
    assert data[2..2 + |k| + 1] == k + [q];
  }

  // The key is cut off, so it is another one.
  lemma CutKey(data: string, s: State, k: string)
    requires Ready(data, s) && s.open == START.open && s.regs.lab == Colon && s.regs.pos >= 4 && s.regs.key != k
    requires |data| == |k| + 6
    ensures Collapsed(Run(data, s).open) != Hash(map[k := [NumVal(false, "1")]])
  {
    hide Run, Collapsed;
    assert Late(data, s, k);
    RunLate(data, s, k);
    CollapsedLate(Run(data, s).open, k);
  }

  // There is no other such quote, so the key does not end.
  lemma {:induction false} NoKey(data: string, s: State, q: char, k: string)
    requires Ready(data, s) && s.open == START.open && s.regs.lab == NameLabel(q) && (q == '"' || q == '\'')
    requires forall i :: s.regs.pos <= i < |data| ==> data[i] != q && data[i] != '\\'
    ensures Collapsed(Run(data, s).open) != Hash(map[k := [NumVal(false, "1")]])
    decreases |data| - s.regs.pos
  {
    hide Run, Fits, Step, Collapsed;
    if s.regs.pos >= |data| {
      EndOfInput(data, s);
      NothingIsThere(k);
    } else {
      QuotedStep(data, s, q);
      NoKey(data, Goto(s, s.regs.lab, s.regs.pos + 1), q, k);
    }
  }

  lemma NothingIsThere(k: string)
    ensures Collapsed(START.open) != Hash(map[k := [NumVal(false, "1")]])
  {
    assert k in map[k := [NumVal(false, "1")]];
  }

  // The rest of a key that does not close where its closing quote is.
  lemma {:induction false} KeyDerails(data: string, s: State, q: char, k: string, rest: string)
    requires data == QuotedOne(q, k) && (q == '"' || q == '\'')
    requires Ready(data, s) && s.open == START.open && s.regs.lab == NameLabel(q) && s.regs.keyStart == 2
    requires !Closed(rest, q) && Reads(data, s.regs.pos, rest + [q])
    requires 3 <= s.regs.pos && s.regs.pos + |rest| == |k| + 2
    ensures Collapsed(Run(data, s).open) != Hash(map[k := [NumVal(false, "1")]])
    decreases |rest|
  {
    hide Run, Fits, Step, Collapsed, QuotedOne, Ready, Reads;
    var i := s.regs.pos;
    QuotedPlaces(q, k);
    ReadsAt(data, i, rest + [q], 0);
    QuotedStep(data, s, q);
    if rest[0] == '\\' {
      if |rest| == 1 {
        NoKey(data, Goto(s, s.regs.lab, i + 2), q, k);
      } else {
        assert rest + [q] == rest[..2] + (rest[2..] + [q]);
        ReadsSplit(data, i, rest[..2], rest[2..] + [q]);
        KeyDerails(data, Goto(s, s.regs.lab, i + 2), q, k, rest[2..]);
      }
    } else if rest[0] == q {
      var key := data[2..i];
      assert |key| < |k|;
      CutKey(data, Named(s, key, Colon, i + 1), k);
    } else {
      assert rest + [q] == rest[..1] + (rest[1..] + [q]);
      ReadsSplit(data, i, rest[..1], rest[1..] + [q]);
      KeyDerails(data, Goto(s, s.regs.lab, i + 1), q, k, rest[1..]);
    }
  }

  lemma KeyFails(q: char, k: string)
    requires (q == '"' || q == '\'') && !GoodKey(Quoted(q, k), "")
    ensures !Gives(QuotedOne(q, k), Hash(map[k := [NumVal(false, "1")]]))
  {
    hide Run, Fits, Step, Collapsed, QuotedOne, Closed;
    var data := QuotedOne(q, k);
    QuotedPlaces(q, k);
    StartReady(data);
    ReadsAt(data, 2, k + [q], 0);
    var t := StartQuoted(data, START, q);
    if k == "" || (k[0] == '\\' && |k| == 1) {
      NoKey(data, t, q, k);
    } else {
      var n := if k[0] == '\\' then 2 else 1;
      assert k + [q] == k[..n] + (k[n..] + [q]);
      ReadsSplit(data, 2, k[..n], k[n..] + [q]);
      KeyDerails(data, t, q, k, k[n..]);
    }
  }

  lemma KeyHolds(q: char, k: string)
    requires (q == '"' || q == '\'') && GoodKey(Quoted(q, k), "")
    ensures Gives(QuotedOne(q, k), Hash(map[k := [NumVal(false, "1")]]))
  {
    hide Run, Fits, Step, Ready, QuotedOne, Closed, Put, Reads;
    var data := QuotedOne(q, k);
    QuotedPlaces(q, k);
    StartReady(data);
    StartsEmpty();
    QuotedReads(q, k);
    var s := ReadKey(data, START, Quoted(q, k), "");
    RootWith(k, NumVal(false, "1"));
    OneIsThere(data, |k| + 4);
    s := ReadNum(data, s, false, "1");
    RootBrace(data, s);
    EndOfInput(data, Goto(s, InHash, |k| + 6));
  }

  lemma QuotedReads(q: char, k: string)
    ensures Reads(QuotedOne(q, k), 1, KeyText(Quoted(q, k)) + ("" + ":"))
  {
    assert QuotedOne(q, k)[1..|k| + 4] == KeyText(Quoted(q, k)) + ("" + ":");
  }

  // A key in quotes is read as it is written if and only if it is not empty and,
  // behind its first byte, backslashes protect every such quote and leave the
  // closing one alone.
  lemma QuotedKeySurvives(q: char, k: string)
    requires q == '"' || q == '\''
    ensures Gives(QuotedOne(q, k), Hash(map[k := [NumVal(false, "1")]])) <==> GoodKey(Quoted(q, k), "")
  {
    hide Gives, GoodKey;
    if GoodKey(Quoted(q, k), "") {
      KeyHolds(q, k);
    } else {
      KeyFails(q, k);
    }
  }

  // The empty key is such a one.
  lemma EmptyKeyIsLost()
    ensures !Gives("{\"\":1}", Hash(map["" := [NumVal(false, "1")]]))
  {
    hide Gives;
    QuotedKeySurvives('"', "");
    assert QuotedOne('"', "") == "{\"\":1}";
  }
}
