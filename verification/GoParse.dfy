/**
  The parser of go/ujsonin.go as a machine over values: one state per label of
  ParseFull, one step per visit to a label.  The containers that are still open
  are a stack; a container joins the one below it when it closes.
*/
module GoParse {
  import opened Common

  // ----- trees

  datatype Kind = Str | Pos | Neg | True | False | Null | FloatPos | FloatNeg

  // A parsed tree.  The children of a hash are unordered.
  datatype Json =
    | Hash(fields: map<string, Json>)
    | Arr(items: seq<Json>)
    | Val(kind: Kind, str: string)

  // What Add does to a container; an array ignores the key.
  function Add(v: Json, key: string, child: Json): Json {
    match v
    case Hash(fields) => Hash(fields[key := child])
    case Arr(items) => Arr(items + [child])
    case Val(_, _) => v
  }

  // ----- states

  datatype Label =
    | UnknownRoot | RootHashComment | RootHashComment2
    | InHash | HashComment | HashComment2
    | QKeyName1 | QKeyNameX | KeyName1 | KeyNameX | Colon
    | AfterColon | AcComment | AcComment2 | TypeX
    | Number1 | NumberX | AfterDot
    | String1 | StringX | Escape
    | HashOrAfterColon
    | OverEnd | BadType | Done

  // An open container, and the key under which it will join the one below.
  datatype Frame = Frame(value: Json, key: string)

  datatype State = State(
    lab: Label,
    pos: nat,
    open: seq<Frame>,       // the last one is "cur"
    root: Option<Json>,     // the last root that was closed
    chunks: seq<Json>,      // what the callback has been given
    remainder: string,
    finalState: string,
    key: string,
    endc: char,
    str: string,
    typeWord: string,
    keyStart: nat,
    typeStart: nat,
    strStart: nat,
    substrStart: nat,
    neg: bool)

  const START := State(UnknownRoot, 0, [], None, [], "", "", "", '"', "", "", 0, 0, 0, 0, false)

  predicate Halted(s: State) {
    (s.lab.OverEnd? || s.lab.BadType? || s.lab.Done?)
  }

  predicate KeyLetter(c: char) { Lower(c) || Upper(c) || c == '_' }

  const WORDS: map<string, Kind> := map["true" := True, "false" := False, "null" := Null]

  predicate OutsideRoot(lab: Label) {
    (lab.UnknownRoot? || lab.RootHashComment? || lab.RootHashComment2? || lab.OverEnd? || lab.BadType? || lab.Done?)
  }

  // The registers a label reads back are inside the input.
  predicate Sane(data: string, s: State) {
    match s.lab
    case UnknownRoot | RootHashComment | RootHashComment2 => s.open == [] && s.pos <= |data|
    case InHash | HashComment | HashComment2 | Colon | AfterColon | AcComment | AcComment2
      | QKeyName1 | String1 | HashOrAfterColon => s.open != [] && s.pos <= |data|
    case QKeyNameX => s.open != [] && s.keyStart < s.pos <= |data| + 1
    case KeyName1 => s.open != [] && s.pos < |data|
    case KeyNameX => s.open != [] && s.keyStart < s.pos <= |data|
    case TypeX => s.open != [] && s.typeStart < s.pos <= |data|
    case Number1 => s.open != [] && 0 < s.pos <= |data| + 1
    case NumberX => s.open != [] && s.strStart < s.pos <= |data| + 1
    case AfterDot => s.open != [] && s.strStart < s.pos <= |data|
    case StringX => s.open != [] && s.substrStart <= s.pos <= |data|
    case Escape => s.open != [] && s.substrStart < s.pos <= |data|
    case OverEnd => s.pos <= |data| + 1
    case BadType | Done => s.pos <= |data|
  }

  // ----- operations on the open containers

  function Put(open: seq<Frame>, key: string, child: Json): seq<Frame>
    requires open != []
  {
    var top := open[|open| - 1];
    open[|open| - 1 := top.(value := Add(top.value, key, child))]
  }

  function Push(open: seq<Frame>, key: string, child: Json): seq<Frame> {
    open + [Frame(child, key)]
  }

  // Closes the topmost container and moves it into the one below.
  function Pop(open: seq<Frame>): seq<Frame>
    requires |open| > 1
  {
    var top := open[|open| - 1];
    Put(open[..|open| - 1], top.key, top.value)
  }

  // ----- one step

  // Every step moves forward, or moves down in this ranking of the labels.
  function Rank(lab: Label): nat {
    if lab.Number1? then 5
    else if (lab.TypeX? || lab.NumberX? || lab.AfterDot?) then 4
    else if lab.HashOrAfterColon? then 3
    else if lab.KeyName1? then 1
    else if (lab.OverEnd? || lab.BadType? || lab.Done?) then 0
    else 2
  }

  function Measure(data: string, s: State): nat
    requires s.pos <= |data| + 1
  {
    8 * (|data| + 1 - s.pos) + Rank(s.lab)
  }

  predicate Forward(data: string, s: State, t: State)
    requires Sane(data, s)
  {
    Sane(data, t) && Measure(data, t) < Measure(data, s)
  }

  function Over(s: State, where: string): State {
    s.(lab := OverEnd, finalState := where)
  }

  function Goto(s: State, lab: Label, pos: nat): State {
    s.(lab := lab, pos := pos)
  }

  // Behind a slash: a comment, or nothing special.
  function Slash(data: string, s: State, line: Label, block: Label): State {
    if s.pos >= |data| - 1 then s
    else if data[s.pos] == '/' then Goto(s, line, s.pos + 1)
    else if data[s.pos] == '*' then Goto(s, block, s.pos + 1)
    else s
  }

  function NewRoot(s: State, root: Json, lab: Label): State {
    s.(lab := lab, open := [Frame(root, "")])
  }

  // The first byte of a root; r is behind it.
  function RootLetter(data: string, r: State, c: char): State
    requires r.pos > 0
  {
    if c == '{' then NewRoot(r, Hash(map[]), InHash)
    else if c == '[' then NewRoot(r, Arr([]), AfterColon)
    else if c == '\'' || c == '"' then NewRoot(r.(endc := c), Hash(map[]), QKeyName1)
    else if KeyLetter(c) then NewRoot(r.(pos := r.pos - 1), Hash(map[]), KeyName1)
    else if c == '/' then Slash(data, r, RootHashComment, RootHashComment2)
    else r
  }

  function StepUnknownRoot(data: string, s: State): (t: State)
    requires Sane(data, s) && s.lab == UnknownRoot
    ensures Forward(data, s, t)
  {
    if s.pos >= |data| then Over(s, "UnknownRoot") else
      var c, r := data[s.pos], s.(pos := s.pos + 1);
      if r.pos >= |data| then r.(lab := Done) else RootLetter(data, r, c)
  }

  // Behind a closing brace.
  function LeaveHash(data: string, callback: bool, s: State): State
    requires s.open != [] && s.pos <= |data|
  {
    var root := s.open[0].value;
    if |s.open| > 1 then s.(lab := HashOrAfterColon, open := Pop(s.open))
    else if callback then s.(lab := UnknownRoot, open := [], root := Some(root), chunks := s.chunks + [root])
    else s.(lab := Done, open := [], root := Some(root), remainder := data[s.pos..])
  }

  function StepHash(data: string, callback: bool, s: State): (t: State)
    requires Sane(data, s) && s.lab == InHash
    ensures Forward(data, s, t)
  {
    if s.pos >= |data| then Over(s, "Hash") else
      var c, r := data[s.pos], s.(pos := s.pos + 1);
      if c == '\'' || c == '"' then r.(endc := c, lab := QKeyName1)
      else if KeyLetter(c) then s.(lab := KeyName1)
      else if c == '}' then LeaveHash(data, callback, r)
      else if c == '/' then Slash(data, r, HashComment, HashComment2)
      else r
  }

  // The two kinds of comment, each with its way back.
  function StepLineComment(data: string, s: State, here: string, back: Label): (t: State)
    requires Sane(data, s) && s.lab in {RootHashComment, HashComment, AcComment}
    requires back ==
      if s.lab == RootHashComment then UnknownRoot else if s.lab == HashComment then InHash else AfterColon
    ensures Forward(data, s, t)
  {
    if s.pos >= |data| then Over(s, here)
    else Goto(s, if Newline(data[s.pos]) then back else s.lab, s.pos + 1)
  }

  function StepBlockComment(data: string, s: State, here: string, back: Label): (t: State)
    requires Sane(data, s) && s.lab in {RootHashComment2, HashComment2, AcComment2}
    requires back == if s.lab == RootHashComment2 then UnknownRoot else InHash
    ensures Forward(data, s, t)
  {
    if s.pos >= |data| then Over(s, here) else
      var c, p := data[s.pos], s.pos + 1;
      if p >= |data| then Goto(s, OverEnd, p)
      else if c == '*' && p < |data| - 1 && data[p] == '/' then Goto(s, back, p + 1)
      else Goto(s, s.lab, p)
  }

  function StepQuotedKey(data: string, s: State): (t: State)
    requires Sane(data, s) && s.lab in {QKeyName1, QKeyNameX}
    ensures Forward(data, s, t)
  {
    if s.lab == QKeyName1 then s.(lab := QKeyNameX, keyStart := s.pos, pos := s.pos + 1)
    else if s.pos >= |data| then Over(s, "QKeyNameX")
    else if data[s.pos] == s.endc then s.(lab := Colon, key := data[s.keyStart..s.pos], pos := s.pos + 1)
    else Goto(s, QKeyNameX, s.pos + 1)
  }

  function StepBareKey(data: string, s: State): (t: State)
    requires Sane(data, s) && s.lab in {KeyName1, KeyNameX}
    ensures Forward(data, s, t)
  {
    if s.lab == KeyName1 then s.(lab := KeyNameX, keyStart := s.pos, pos := s.pos + 1)
    else if s.pos >= |data| then Over(s, "KeyNameX")
    else
      var c := data[s.pos];
      if c == ':' then s.(lab := AfterColon, key := data[s.keyStart..s.pos], pos := s.pos + 1)
      else if c == ' ' || c == '\t' then s.(lab := Colon, key := data[s.keyStart..s.pos], pos := s.pos + 1)
      else Goto(s, KeyNameX, s.pos + 1)
  }

  function StepColon(data: string, s: State): (t: State)
    requires Sane(data, s) && s.lab == Colon
    ensures Forward(data, s, t)
  {
    if s.pos >= |data| then Over(s, "Colon")
    else Goto(s, if data[s.pos] == ':' then AfterColon else Colon, s.pos + 1)
  }

  // Behind a closing bracket.
  function LeaveArr(data: string, s: State): State
    requires s.open != [] && s.pos <= |data|
  {
    if |s.open| > 1 then s.(lab := HashOrAfterColon, open := Pop(s.open))
    else s.(lab := Done, open := [], root := Some(s.open[0].value), remainder := data[s.pos..])
  }

  // Behind a bracket, or anything else that means nothing here.
  function Bracket(data: string, s: State, c: char): State
    requires s.open != [] && s.pos <= |data|
  {
    if c == '{' then s.(lab := InHash, open := Push(s.open, s.key, Hash(map[])))
    else if c == '[' then s.(open := Push(s.open, s.key, Arr([])))
    else if c == ']' then LeaveArr(data, s)
    else s
  }

  // Behind the first byte of a scalar.
  function ScalarStart(r: State, c: char): State
    requires r.pos > 0
  {
    if c == '"' || c == '\'' || c == '`' then r.(endc := c, lab := String1)
    else if Lower(c) then r.(typeStart := r.pos - 1, lab := TypeX)
    else if Digit(c) then r.(neg := false, lab := Number1)
    else r.(neg := true, lab := Number1, pos := r.pos + 1)
  }

  function StepAfterColon(data: string, s: State): State
    requires Sane(data, s) && s.lab == AfterColon
  {
    if s.pos >= |data| then Over(s, "AfterColon") else
      var c, r := data[s.pos], s.(pos := s.pos + 1);
      if c == '"' || c == '\'' || c == '`' || Lower(c) || Digit(c) || c == '-' then ScalarStart(r, c)
      else if c == '/' then Slash(data, r, AcComment, AcComment2)
      else Bracket(data, r, c)
  }

  lemma ForwardAfterColon(data: string, s: State)
    requires Sane(data, s) && s.lab == AfterColon
    ensures Forward(data, s, StepAfterColon(data, s))
  {
    hide Lower, Digit, Bracket;
    if s.pos < |data| {
      ForwardBracket(data, s.(pos := s.pos + 1), data[s.pos]);
    }
  }

  // A bracket has been read, so it may stay at the label.
  lemma ForwardBracket(data: string, r: State, c: char)
    requires Sane(data, r) && r.lab == AfterColon
    ensures
      var t := Bracket(data, r, c);
      Sane(data, t) && t.pos == r.pos && Rank(t.lab) < 8
  {
  }

  function StepType(data: string, s: State): (t: State)
    requires Sane(data, s) && s.lab == TypeX
    ensures Forward(data, s, t)
  {
    if s.pos >= |data| then Over(s, "TypeX")
    else if Digit(data[s.pos]) || Lower(data[s.pos]) then Goto(s, TypeX, s.pos + 1)
    else
      var word := data[s.typeStart..s.pos];
      if word !in WORDS then s.(lab := BadType, typeWord := word)
      else s.(lab := HashOrAfterColon, typeWord := word, open := Put(s.open, s.key, Val(WORDS[word], "")))
  }

  // A number ends before the first byte that is not a digit.
  function EndNumber(data: string, s: State, kind: Kind): State
    requires s.open != [] && s.strStart <= s.pos <= |data|
  {
    s.(lab := HashOrAfterColon, open := Put(s.open, s.key, Val(kind, data[s.strStart..s.pos])))
  }

  function StepNumber(data: string, s: State): (t: State)
    requires Sane(data, s) && s.lab in {Number1, NumberX}
    ensures Forward(data, s, t)
  {
    if s.lab == Number1 then s.(lab := NumberX, strStart := s.pos - 1)
    else if s.pos >= |data| then Over(s, "NumberX")
    else if data[s.pos] == '.' then Goto(s, AfterDot, s.pos + 1)
    else if !Digit(data[s.pos]) then EndNumber(data, s, if s.neg then Neg else Pos)
    else Goto(s, NumberX, s.pos + 1)
  }

  function StepAfterDot(data: string, s: State): (t: State)
    requires Sane(data, s) && s.lab == AfterDot
    ensures Forward(data, s, t)
  {
    if s.pos >= |data| then Over(s, "AfterDot")
    else if !Digit(data[s.pos]) then EndNumber(data, s, if s.neg then FloatNeg else FloatPos)
    else Goto(s, AfterDot, s.pos + 1)
  }

  function StepString1(data: string, s: State): (t: State)
    requires Sane(data, s) && s.lab == String1
    ensures Forward(data, s, t)
  {
    if s.pos >= |data| then Over(s, "String1") else
      var c, p := data[s.pos], s.pos + 1;
      var r := s.(str := "", substrStart := s.pos, pos := p);
      if c == s.endc then r.(lab := HashOrAfterColon, open := Put(s.open, s.key, Val(Str, "")))
      else if c == '\\' then r.(lab := Escape)
      else r.(lab := StringX, strStart := s.pos)
  }

  function StepStringX(data: string, s: State): (t: State)
    requires Sane(data, s) && s.lab == StringX
    ensures Forward(data, s, t)
  {
    if s.pos >= |data| then Over(s, "StringX") else
      var c, p := data[s.pos], s.pos + 1;
      if c == s.endc then
        var str := s.str + data[s.substrStart..s.pos];
        s.(lab := HashOrAfterColon, str := str, pos := p, open := Put(s.open, s.key, Val(Str, str)))
      else Goto(s, if c == '\\' then Escape else StringX, p)
  }

  // The backslash is at pos - 1: it goes when it protects the closing quote, and
  // stays in every other case.
  function StepEscape(data: string, s: State): (t: State)
    requires Sane(data, s) && s.lab == Escape
    ensures Forward(data, s, t)
  {
    if s.pos >= |data| then Over(s, "Escape") else
      var c, p := data[s.pos], s.pos + 1;
      if c == s.endc then
        s.(lab := StringX, str := s.str + data[s.substrStart..s.pos - 1] + [s.endc], pos := p, substrStart := p)
      else if c == '\\' then
        s.(lab := StringX, str := s.str + data[s.substrStart..s.pos] + "\\", pos := p, substrStart := p)
      else Goto(s, StringX, p)
  }

  predicate CurIsHash(s: State)
    requires s.open != []
  {
    s.open[|s.open| - 1].value.Hash?
  }

  function Step(data: string, callback: bool, s: State): (t: State)
    requires Sane(data, s) && !Halted(s)
    ensures Forward(data, s, t)
  {
    match s.lab
    case UnknownRoot => StepUnknownRoot(data, s)
    case RootHashComment => StepLineComment(data, s, "RootHashComment", UnknownRoot)
    case RootHashComment2 => StepBlockComment(data, s, "RootHashComment2", UnknownRoot)
    case InHash => StepHash(data, callback, s)
    case HashComment => StepLineComment(data, s, "HashComment", InHash)
    case HashComment2 => StepBlockComment(data, s, "HashComment2", InHash)
    case QKeyName1 => StepQuotedKey(data, s)
    case QKeyNameX => StepQuotedKey(data, s)
    case KeyName1 => StepBareKey(data, s)
    case KeyNameX => StepBareKey(data, s)
    case Colon => StepColon(data, s)
    case AfterColon => ForwardAfterColon(data, s); StepAfterColon(data, s)
    case AcComment => StepLineComment(data, s, "AC_Comment", AfterColon)
    case AcComment2 => StepBlockComment(data, s, "AC_Comment2", InHash)
    case TypeX => StepType(data, s)
    case Number1 => StepNumber(data, s)
    case NumberX => StepNumber(data, s)
    case AfterDot => StepAfterDot(data, s)
    case String1 => StepString1(data, s)
    case StringX => StepStringX(data, s)
    case Escape => StepEscape(data, s)
    case HashOrAfterColon => s.(lab := if CurIsHash(s) then InHash else AfterColon)
    case OverEnd => s
    case BadType => s
    case Done => s
  }

  function Run(data: string, callback: bool, s: State): (t: State)
    requires Sane(data, s)
    ensures Sane(data, t) && Halted(t)
    decreases Measure(data, s)
  {
    if Halted(s) then s else Run(data, callback, Step(data, callback, s))
  }

  lemma SaneOpen(data: string, s: State)
    requires Sane(data, s)
    ensures !OutsideRoot(s.lab) ==> s.open != []
    ensures s.lab == UnknownRoot ==> s.open == []
  {
  }

  lemma StepSane(data: string, callback: bool, s: State)
    requires Sane(data, s) && !Halted(s)
    ensures Sane(data, Step(data, callback, s))
  {
  }

  lemma StepParts(data: string, callback: bool, s: State)
    requires Sane(data, s) && !Halted(s)
    ensures s.lab == UnknownRoot ==> Step(data, callback, s) == StepUnknownRoot(data, s)
    ensures s.lab == InHash ==> Step(data, callback, s) == StepHash(data, callback, s)
    ensures s.lab == AfterColon ==> Step(data, callback, s) == StepAfterColon(data, s)
  {
  }

  lemma StepScalarParts(data: string, callback: bool, s: State)
    requires Sane(data, s) && !Halted(s)
    ensures s.lab == TypeX ==> Step(data, callback, s) == StepType(data, s)
    ensures s.lab == Number1 || s.lab == NumberX ==> Step(data, callback, s) == StepNumber(data, s)
    ensures s.lab == AfterDot ==> Step(data, callback, s) == StepAfterDot(data, s)
    ensures s.lab == String1 ==> Step(data, callback, s) == StepString1(data, s)
    ensures s.lab == StringX ==> Step(data, callback, s) == StepStringX(data, s)
    ensures s.lab == Escape ==> Step(data, callback, s) == StepEscape(data, s)
  {
  }

  lemma StepCommentParts(data: string, callback: bool, s: State)
    requires Sane(data, s) && !Halted(s)
    ensures s.lab == RootHashComment ==>
      Step(data, callback, s) == StepLineComment(data, s, "RootHashComment", UnknownRoot)
    ensures s.lab == HashComment ==> Step(data, callback, s) == StepLineComment(data, s, "HashComment", InHash)
    ensures s.lab == AcComment ==> Step(data, callback, s) == StepLineComment(data, s, "AC_Comment", AfterColon)
    ensures s.lab == RootHashComment2 ==>
      Step(data, callback, s) == StepBlockComment(data, s, "RootHashComment2", UnknownRoot)
    ensures s.lab == HashComment2 ==> Step(data, callback, s) == StepBlockComment(data, s, "HashComment2", InHash)
    ensures s.lab == AcComment2 ==> Step(data, callback, s) == StepBlockComment(data, s, "AC_Comment2", InHash)
  {
  }

  lemma StepKeyParts(data: string, callback: bool, s: State)
    requires Sane(data, s) && !Halted(s)
    ensures s.lab in {QKeyName1, QKeyNameX} ==> Step(data, callback, s) == StepQuotedKey(data, s)
    ensures s.lab in {KeyName1, KeyNameX} ==> Step(data, callback, s) == StepBareKey(data, s)
    ensures s.lab == Colon ==> Step(data, callback, s) == StepColon(data, s)
  {
  }
}
