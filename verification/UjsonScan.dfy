/**
  The parser of c/ujson.c as a machine over values.  The scanner says at each
  label what happens to the containers; the open containers are kept as a plain
  stack here, where the program finds them again through links.
*/
module UjsonScan {
  import opened Common

  // ----- trees

  datatype Tag = Str | PosNum | NegNum | True | False | Null

  // The values stored under a key of a hash are a list, oldest first.  Of a
  // string with backslashes the raw text is kept.
  datatype Json =
    | Hash(members: map<string, seq<Json>>)
    | Arr(items: seq<Json>)
    | Val(tag: Tag, raw: string, escaped: bool)

  function Add(v: Json, key: string, child: Json): Json {
    match v
    case Hash(members) => Hash(members[key := (if key in members then members[key] else []) + [child]])
    case Arr(items) => Arr(items + [child])
    case Val(_, _, _) => v
  }

  // ----- the open containers

  datatype Frame = Frame(value: Json, key: string)

  function Top(open: seq<Frame>): Json
    requires open != []
  {
    open[|open| - 1].value
  }

  function Put(open: seq<Frame>, key: string, child: Json): seq<Frame>
    requires open != []
  {
    var top := open[|open| - 1];
    open[|open| - 1 := top.(value := Add(top.value, key, child))]
  }

  function Push(open: seq<Frame>, key: string, child: Json): seq<Frame> {
    open + [Frame(child, key)]
  }

  function Pop(open: seq<Frame>): seq<Frame>
    requires |open| > 1
  {
    var top := open[|open| - 1];
    Put(open[..|open| - 1], top.key, top.value)
  }

  // A closing brace: nothing at the root, and nothing directly inside an array.
  function PopHash(open: seq<Frame>): (r: seq<Frame>)
    requires open != []
    ensures r != []
  {
    if |open| > 1 && Top(open).Hash? then Pop(open) else open
  }

  // How many arrays are open.  The first container is a hash.
  function Arrays(open: seq<Frame>): nat {
    if open == [] then 0 else Arrays(open[..|open| - 1]) + if Top(open).Arr? then 1 else 0
  }

  // A closing bracket: the innermost open array ends, with all that is inside it.
  function PopArr(open: seq<Frame>): (r: seq<Frame>)
    requires open != []
    ensures r != []
    decreases |open|
  {
    if |open| == 1 then open else if Top(open).Arr? then Pop(open) else PopArr(Pop(open))
  }

  // ----- the scanner

  datatype Label =
    | InHash | HashComment | HashComment2
    | QQKeyName1 | QQKeyNameX | QKeyName1 | QKeyNameX | KeyName1 | KeyNameX | Colon
    | AfterColon | AcComment | AcComment2 | TypeX
    | Number1 | NumberX | AfterDot
    | String1 | StringX | StrSlash1 | SlashHex1 | SlashHex2 | SlashHex3 | SlashHex4
    | AfterVal | Exit | Done

  datatype Action = Nothing | BeginHash | BeginArr | EndHash | EndArr | Scalar(value: Json)

  // The variables of uj_parse other than "cur" and the array stack.
  datatype Registers = Registers(
    lab: Label,
    pos: nat,
    key: string,
    keyStart: nat,
    typeStart: nat,
    strStart: nat,
    neg: bool,
    slashCnt: nat,
    single: bool)

  const BEGIN := Registers(InHash, 1, "", 0, 0, 0, false, 0, false)

  predicate Hex(c: char) { Digit(c) || 'A' <= c <= 'F' || 'a' <= c <= 'f' }

  predicate Halted(r: Registers) {
    r.lab.Exit? || r.lab.Done?
  }

  predicate Sane(data: string, r: Registers) {
    match r.lab
    case QQKeyNameX | QKeyNameX => r.keyStart < r.pos
    case KeyNameX => r.keyStart < r.pos
    case TypeX => r.typeStart < r.pos
    case Number1 => 0 < r.pos
    case NumberX | AfterDot => r.strStart < r.pos
    case StringX | StrSlash1 | SlashHex1 | SlashHex2 | SlashHex3 | SlashHex4 => r.strStart < r.pos
    case InHash | HashComment | HashComment2 | QQKeyName1 | QKeyName1 | KeyName1 | Colon | AfterColon | AcComment
      | AcComment2 | String1 | AfterVal | Exit | Done => true
  }

  function At(r: Registers, lab: Label): Registers {
    r.(lab := lab)
  }

  // Where a scalar leads, which joins the current container.
  function AfterScalar(inArr: bool): Label {
    if inArr then AfterColon else AfterVal
  }

  const WORDS: map<string, Tag> := map["true" := True, "false" := False, "null" := Null]

  // Behind a slash, where a comment may begin.
  function Slash(data: string, r: Registers, line: Label, block: Label): Registers {
    if r.pos + 1 < |data| && data[r.pos] == '/' then r.(pos := r.pos + 1, lab := line)
    else if r.pos + 1 < |data| && data[r.pos] == '*' then r.(pos := r.pos + 1, lab := block)
    else r
  }

  function ScanHash(data: string, r: Registers, c: char): (Registers, Action)
    requires r.pos > 0
  {
    if c == '"' then (At(r, QQKeyName1), Nothing)
    else if c == '\'' then (At(r, QKeyName1), Nothing)
    else if Lower(c) then (r.(pos := r.pos - 1, lab := KeyName1), Nothing)
    else if c == '}' then (r, EndHash)
    else if c == '/' then (Slash(data, r, HashComment, HashComment2), Nothing)
    else (r, Nothing)
  }

  // The first byte of a key is not looked at, except that a backslash takes the
  // next one along.
  function ScanKeyStart(r: Registers, c: char, next: Label): (Registers, Action) {
    (r.(keyStart := r.pos, pos := r.pos + (if c == '\\' then 2 else 1), lab := next), Nothing)
  }

  function ScanQuotedKey(data: string, r: Registers, c: char, quote: char): (Registers, Action)
    requires r.keyStart < r.pos <= |data|
  {
    if c == '\\' then (r.(pos := r.pos + 1), Nothing)
    else if c == quote then (r.(key := data[r.keyStart..r.pos - 1], lab := Colon), Nothing)
    else (r, Nothing)
  }

  function ScanBareKey(data: string, r: Registers, c: char): (Registers, Action)
    requires r.keyStart < r.pos <= |data|
  {
    if c == ':' then (r.(key := data[r.keyStart..r.pos - 1], lab := AfterColon), Nothing)
    else if c == ' ' || c == '\t' then (r.(key := data[r.keyStart..r.pos - 1], lab := Colon), Nothing)
    else (r, Nothing)
  }

  function ScanAfterColon(data: string, r: Registers, c: char): (Registers, Action)
    requires r.pos > 0
  {
    if c == '"' then (r.(single := false, lab := String1), Nothing)
    else if c == '\'' then (r.(single := true, lab := String1), Nothing)
    else if c == '{' then (At(r, InHash), BeginHash)
    else if Lower(c) then (r.(typeStart := r.pos - 1, lab := TypeX), Nothing)
    else if c == '/' then (Slash(data, r, AcComment, AcComment2), Nothing)
    else if Digit(c) then (r.(neg := false, lab := Number1), Nothing)
    else if c == '-' then (r.(neg := true, pos := r.pos + 1, lab := Number1), Nothing)
    else if c == '[' then (r, BeginArr)
    else if c == ']' then (r, EndArr)
    else (r, Nothing)
  }

  // A word ends at the first byte that is not a small letter, which is not eaten.
  function ScanType(data: string, r: Registers, c: char, inArr: bool): (Registers, Action)
    requires r.typeStart < r.pos <= |data|
  {
    if Lower(c) then (r, Nothing)
    else
      var word := data[r.typeStart..r.pos - 1];
      if word !in WORDS then (r.(pos := r.pos - 1, lab := Exit), Nothing)
      else (r.(pos := r.pos - 1, lab := AfterScalar(inArr)), Scalar(Val(WORDS[word], "", false)))
  }

  // A number ends likewise; behind a dot the byte that ends it is eaten.
  function ScanNumber(data: string, r: Registers, c: char, inArr: bool): (Registers, Action)
    requires r.strStart < r.pos <= |data|
  {
    if r.lab == NumberX && c == '.' then (At(r, AfterDot), Nothing)
    else if Digit(c) then (r, Nothing)
    else
      var v := Val(if r.neg then NegNum else PosNum, data[r.strStart..r.pos - 1], false);
      (r.(pos := if r.lab == NumberX then r.pos - 1 else r.pos, lab := AfterScalar(inArr)), Scalar(v))
  }

  function ScanString1(r: Registers, c: char, inArr: bool): (Registers, Action)
    requires r.pos > 0
  {
    var t := r.(slashCnt := 0);
    if c == '"' || c == '\'' then (At(t, AfterScalar(inArr)), Scalar(Val(Str, "", false)))
    else (t.(strStart := r.pos - 1, lab := StringX), Nothing)
  }

  function Quote(r: Registers): char {
    if r.single then '\'' else '"'
  }

  // Label StringX2: the byte is looked at (again) in the middle of a string.
  function ScanStringX(data: string, r: Registers, c: char, inArr: bool): (Registers, Action)
    requires r.strStart < r.pos <= |data|
  {
    if c == Quote(r) then
      (At(r, AfterScalar(inArr)), Scalar(Val(Str, data[r.strStart..r.pos - 1], r.slashCnt > 0)))
    else if c == '\\' then (r.(slashCnt := r.slashCnt + 1, lab := StrSlash1), Nothing)
    else (At(r, StringX), Nothing)
  }

  function ScanStrSlash(data: string, r: Registers, c: char, inArr: bool): (Registers, Action)
    requires r.strStart < r.pos <= |data|
  {
    if c == Quote(r) || c == '\\' then (At(r, StringX), Nothing)
    else if c == 'u' then (At(r, SlashHex1), Nothing)
    else ScanStringX(data, r, c, inArr)
  }

  function ScanHex(data: string, r: Registers, c: char, inArr: bool, next: Label): (Registers, Action)
    requires r.strStart < r.pos <= |data|
  {
    if Hex(c) then (At(r, next), Nothing) else ScanStringX(data, r, c, inArr)
  }

  // One visit to a label; "inArr" says whether the current container is an array.
  function Scan(data: string, r: Registers, inArr: bool): (Registers, Action)
    requires Sane(data, r) && !Halted(r)
  {
    if r.pos >= |data| then (At(r, Done), Nothing) else
      var c, t := data[r.pos], r.(pos := r.pos + 1);
      match r.lab
      case InHash => ScanHash(data, t, c)
      case HashComment => (if Newline(c) then At(t, InHash) else t, Nothing)
      case HashComment2 => (BlockComment(data, t, c), Nothing)
      case QQKeyName1 => ScanKeyStart(r, c, QQKeyNameX)
      case QQKeyNameX => ScanQuotedKey(data, t, c, '"')
      case QKeyName1 => ScanKeyStart(r, c, QKeyNameX)
      case QKeyNameX => ScanQuotedKey(data, t, c, '\'')
      case KeyName1 => (r.(keyStart := r.pos, pos := r.pos + 1, lab := KeyNameX), Nothing)
      case KeyNameX => ScanBareKey(data, t, c)
      case Colon => (if c == ':' then At(t, AfterColon) else t, Nothing)
      case AfterColon => ScanAfterColon(data, t, c)
      case AcComment => (if Newline(c) then At(t, AfterColon) else t, Nothing)
      case AcComment2 => (BlockComment(data, t, c), Nothing)
      case TypeX => ScanType(data, t, c, inArr)
      case Number1 => (r.(strStart := r.pos - 1, lab := NumberX), Nothing)
      case NumberX => ScanNumber(data, t, c, inArr)
      case AfterDot => ScanNumber(data, t, c, inArr)
      case String1 => ScanString1(t, c, inArr)
      case StringX => ScanStringX(data, t, c, inArr)
      case StrSlash1 => ScanStrSlash(data, t, c, inArr)
      case SlashHex1 => ScanHex(data, t, c, inArr, SlashHex2)
      case SlashHex2 => ScanHex(data, t, c, inArr, SlashHex3)
      case SlashHex3 => ScanHex(data, t, c, inArr, SlashHex4)
      case SlashHex4 => ScanStringX(data, t, c, inArr)
      case AfterVal => (At(r, InHash), Nothing)
  }

  // Both kinds of block comment lead to label Hash.
  function BlockComment(data: string, r: Registers, c: char): Registers {
    if c == '*' && r.pos + 1 < |data| && data[r.pos] == '/' then r.(pos := r.pos + 1, lab := InHash) else r
  }

  function Rank(lab: Label): nat {
    match lab
    case Exit | Done => 0
    case Number1 => 5
    case TypeX | NumberX | AfterDot => 4
    case AfterVal => 3
    case KeyName1 => 1
    case InHash | HashComment | HashComment2 | QQKeyName1 | QQKeyNameX | QKeyName1 | QKeyNameX | KeyNameX | Colon
      | AfterColon | AcComment | AcComment2 | String1 | StringX | StrSlash1 | SlashHex1 | SlashHex2 | SlashHex3
      | SlashHex4 => 2
  }

  // Positions beyond the end count as the end.
  function Measure(data: string, r: Registers): nat {
    8 * (if r.pos > |data| then 0 else |data| - r.pos) + Rank(r.lab)
  }

  predicate Onward(data: string, r: Registers, t: Registers) {
    Sane(data, t) && Measure(data, t) < Measure(data, r)
  }

  lemma OnwardInKeys(data: string, r: Registers, inArr: bool)
    requires Sane(data, r) && r.pos < |data|
    requires r.lab in {QQKeyName1, QQKeyNameX, QKeyName1, QKeyNameX, KeyName1, KeyNameX, Colon, InHash}
    ensures Onward(data, r, Scan(data, r, inArr).0)
  {
  }

  lemma OnwardInComments(data: string, r: Registers, inArr: bool)
    requires Sane(data, r) && r.pos < |data|
    requires r.lab in {HashComment, HashComment2, AcComment, AcComment2, AfterVal}
    ensures Onward(data, r, Scan(data, r, inArr).0)
  {
  }

  lemma OnwardAfterColon(data: string, r: Registers, inArr: bool)
    requires Sane(data, r) && r.pos < |data| && r.lab == AfterColon
    ensures Onward(data, r, Scan(data, r, inArr).0)
  {
  }

  lemma OnwardInNumbers(data: string, r: Registers, inArr: bool)
    requires Sane(data, r) && r.pos < |data| && r.lab in {TypeX, Number1, NumberX, AfterDot}
    ensures Onward(data, r, Scan(data, r, inArr).0)
  {
  }

  lemma OnwardInStrings(data: string, r: Registers, inArr: bool)
    requires Sane(data, r) && r.pos < |data|
    requires r.lab in {String1, StringX, StrSlash1, SlashHex1, SlashHex2, SlashHex3, SlashHex4}
    ensures Onward(data, r, Scan(data, r, inArr).0)
  {
    hide ScanStringX;
    if r.lab != String1 {
      OnwardStringX(data, r, inArr);
    }
  }

  lemma OnwardStringX(data: string, r: Registers, inArr: bool)
    requires Sane(data, r) && r.pos < |data|
    requires r.lab in {StringX, StrSlash1, SlashHex1, SlashHex2, SlashHex3, SlashHex4}
    ensures Onward(data, r, ScanStringX(data, r.(pos := r.pos + 1), data[r.pos], inArr).0)
  {
  }

  // The scanner never stands still.
  lemma ScanOnward(data: string, r: Registers, inArr: bool)
    requires Sane(data, r) && !Halted(r)
    ensures Onward(data, r, Scan(data, r, inArr).0)
  {
    hide Scan, Onward;
    if r.pos >= |data| {
      OnwardAtEnd(data, r, inArr);
    } else if r.lab in {QQKeyName1, QQKeyNameX, QKeyName1, QKeyNameX, KeyName1, KeyNameX, Colon, InHash} {
      OnwardInKeys(data, r, inArr);
    } else if r.lab in {HashComment, HashComment2, AcComment, AcComment2, AfterVal} {
      OnwardInComments(data, r, inArr);
    } else if r.lab == AfterColon {
      OnwardAfterColon(data, r, inArr);
    } else if r.lab in {TypeX, Number1, NumberX, AfterDot} {
      OnwardInNumbers(data, r, inArr);
    } else {
      OnwardInStrings(data, r, inArr);
    }
  }

  lemma OnwardAtEnd(data: string, r: Registers, inArr: bool)
    requires Sane(data, r) && !Halted(r) && r.pos >= |data|
    ensures Onward(data, r, Scan(data, r, inArr).0)
  {
  }

  // ----- the machine

  datatype State = State(regs: Registers, open: seq<Frame>)

  const START := State(BEGIN, [Frame(Hash(map[]), "")])

  predicate Ready(data: string, s: State) {
    Sane(data, s.regs) && s.open != []
  }

  // The containers after an action.
  function Perform(open: seq<Frame>, key: string, act: Action): (r: seq<Frame>)
    requires open != []
    ensures r != []
  {
    match act
    case Nothing => open
    case BeginHash => Push(open, key, Hash(map[]))
    case BeginArr => Push(open, key, Arr([]))
    case EndHash => PopHash(open)
    case EndArr => PopArr(open)
    case Scalar(v) => Put(open, key, v)
  }

  // Where it goes on when a container has been closed.
  function Resume(act: Action, before: seq<Frame>, after: seq<Frame>, r: Registers): Registers
    requires after != []
  {
    if act.EndArr? || (act.EndHash? && before != after) then At(r, if Top(after).Arr? then AfterColon else InHash)
    else r
  }

  function Step(data: string, s: State): (t: State)
    requires Ready(data, s) && !Halted(s.regs)
    ensures Ready(data, t)
  {
    var (r, act) := Scan(data, s.regs, Top(s.open).Arr?);
    ScanOnward(data, s.regs, Top(s.open).Arr?);
    var open := Perform(s.open, r.key, act);
    State(Resume(act, s.open, open, r), open)
  }

  lemma StepOnward(data: string, s: State)
    requires Ready(data, s) && !Halted(s.regs)
    ensures Measure(data, Step(data, s).regs) < Measure(data, s.regs)
  {
    hide Scan, Perform, Sane;
    ScanOnward(data, s.regs, Top(s.open).Arr?);
    ClosingLabel(data, s.regs, Top(s.open).Arr?);
  }

  lemma ClosingLabel(data: string, r: Registers, inArr: bool)
    requires Sane(data, r) && !Halted(r)
    ensures
      var (t, act) := Scan(data, r, inArr);
      act.EndArr? || act.EndHash? ==> t.lab == AfterColon || t.lab == InHash
  {
  }

  function Run(data: string, s: State): (t: State)
    requires Ready(data, s)
    ensures Ready(data, t) && Halted(t.regs)
    decreases Measure(data, s.regs)
  {
    if Halted(s.regs) then s else
      StepOnward(data, s);
      Run(data, Step(data, s))
  }

  // ----- inputs that the stack of ten serves

  const MAX_DEPTH := 10

  // No eleventh array is opened inside ten, and no array is closed that is not open.
  predicate Fits(data: string, s: State)
    requires Ready(data, s)
    decreases Measure(data, s.regs)
  {
    Halted(s.regs) ||
    (var act := Scan(data, s.regs, Top(s.open).Arr?).1;
     && (act.BeginArr? ==> Arrays(s.open) < MAX_DEPTH)
     && (act.EndArr? ==> Arrays(s.open) > 0)
     && (StepOnward(data, s); Fits(data, Step(data, s))))
  }

  // The tree below a stack of open containers.
  function Collapsed(open: seq<Frame>): Json
    requires open != []
    decreases |open|
  {
    if |open| == 1 then open[0].value else Collapsed(Pop(open))
  }
}
