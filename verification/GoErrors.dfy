/**
  How the parser of go/ujsonin.go fails: what it says of an input that is cut
  off, of a word that it does not know, and when it says nothing at all.
*/
module GoErrors {
  import opened Common
  import opened Gaps
  import opened GoParse
  import opened GoSource
  import opened GoParser
  import opened GoRoundTrip

  // ----- where it fails

  lemma {:induction false} LineCounts(data: string, pos: nat)
    requires pos <= |data|
    ensures Line(data, pos) == 1 + multiset(data[..pos])['\n']
  {
    if pos > 0 {
      LineCounts(data, pos - 1);
      assert data[..pos] == data[..pos - 1] + [data[pos - 1]];
    }
  }

  lemma {:induction false} ColumnBehind(data: string, pos: nat)
    requires pos <= |data|
    ensures
      var x := Column(data, pos);
      x <= pos && (forall i :: pos - x <= i < pos ==> data[i] != '\n') && (x < pos ==> data[pos - x - 1] == '\n')
  {
    if pos > 0 && data[pos - 1] != '\n' {
      ColumnBehind(data, pos - 1);
    }
  }

  // Which error a final state is reported as, and where.
  lemma ErrorGiven(data: string, t: State)
    requires Sane(data, t) && Halted(t)
    ensures t.lab == Done ==> ErrorOf(data, t) == None && !Panics(data, t)
    ensures t.lab == BadType ==> ErrorOf(data, t) == Some(UnknownType(t.typeWord)) && !Panics(data, t)
    ensures t.lab == OverEnd ==>
      match ErrorOf(data, t)
      case None => Panics(data, t) && t.pos == |data| + 1
      case Some(Incomplete(line, x, state)) =>
        && t.pos <= |data| && state == t.finalState && line == 1 + multiset(data[..t.pos])['\n']
        && x <= t.pos && (forall i :: t.pos - x <= i < t.pos ==> data[i] != '\n')
        && (x < t.pos ==> data[t.pos - x - 1] == '\n')
      case Some(UnknownType(_)) => false
  {
    if t.pos <= |data| {
      LineCounts(data, t.pos);
      ColumnBehind(data, t.pos);
    }
  }

  // Without an error every container is closed.
  lemma {:induction false} DoneIsClosed(data: string, callback: bool, s: State)
    requires Sane(data, s) && (s.lab == Done ==> s.open == [])
    ensures
      var t := Run(data, callback, s);
      t.open != [] ==> ErrorOf(data, t).Some? || Panics(data, t)
    decreases Measure(data, s)
  {
    hide Step, Line, Column;
    if !Halted(s) {
      ClosedStep(data, callback, s);
      DoneIsClosed(data, callback, Step(data, callback, s));
    }
  }

  lemma ClosedStep(data: string, callback: bool, s: State)
    requires Sane(data, s) && !Halted(s)
    ensures Step(data, callback, s).lab == Done ==> Step(data, callback, s).open == []
  {
    hide Step;
    if s.lab in {UnknownRoot, InHash, AfterColon} {
      ClosedBetween(data, callback, s);
    } else {
      ClosedElsewhere(data, callback, s);
    }
  }

  lemma ClosedBetween(data: string, callback: bool, s: State)
    requires Sane(data, s) && s.lab in {UnknownRoot, InHash, AfterColon}
    ensures Step(data, callback, s).lab == Done ==> Step(data, callback, s).open == []
  {
    hide Step, Pop, Push, Lower, Digit, KeyLetter;
    StepParts(data, callback, s);
  }

  lemma ClosedElsewhere(data: string, callback: bool, s: State)
    requires Sane(data, s) && !Halted(s) && s.lab !in {UnknownRoot, InHash, AfterColon}
    ensures Step(data, callback, s).lab != Done
  {
    hide Put, Lower, Digit, Newline, Forward;
  }

  // The name of a label.
  predicate Named(lab: Label, name: string) {
    match lab
    case UnknownRoot => name == "UnknownRoot"
    case RootHashComment => name == "RootHashComment"
    case RootHashComment2 => name == "RootHashComment2"
    case InHash => name == "Hash"
    case HashComment => name == "HashComment"
    case HashComment2 => name == "HashComment2"
    case QKeyNameX => name == "QKeyNameX"
    case KeyNameX => name == "KeyNameX"
    case Colon => name == "Colon"
    case AfterColon => name == "AfterColon"
    case AcComment => name == "AC_Comment"
    case AcComment2 => name == "AC_Comment2"
    case TypeX => name == "TypeX"
    case NumberX => name == "NumberX"
    case AfterDot => name == "AfterDot"
    case String1 => name == "String1"
    case StringX => name == "StringX"
    case Escape => name == "Escape"
    case _ => false
  }

  // The state that goes with an error is the label where the input ended.  In a
  // block comment the parser ends one byte early, and then says nothing.
  predicate Ending(data: string, s: State, t: State)
    requires Sane(data, s)
  {
    t.lab == OverEnd ==>
      if s.pos < |data| then
        s.lab in {RootHashComment2, HashComment2, AcComment2} && s.pos + 1 == |data| && t.finalState == s.finalState
      else Named(s.lab, t.finalState)
  }

  lemma EndingInComments(data: string, callback: bool, s: State)
    requires Sane(data, s)
    requires s.lab in {RootHashComment, HashComment, AcComment, RootHashComment2, HashComment2, AcComment2}
    ensures Ending(data, s, Step(data, callback, s))
  {
    hide Step;
    StepCommentParts(data, callback, s);
  }

  lemma EndingInKeys(data: string, callback: bool, s: State)
    requires Sane(data, s)
    requires s.lab in {QKeyName1, QKeyNameX, KeyName1, KeyNameX, Colon, HashOrAfterColon}
    ensures Ending(data, s, Step(data, callback, s))
  {
    hide Step;
    StepKeyParts(data, callback, s);
    if s.lab == HashOrAfterColon {
      NeverOver(data, callback, s);
    }
  }

  lemma NeverOver(data: string, callback: bool, s: State)
    requires Sane(data, s) && s.lab == HashOrAfterColon
    ensures Step(data, callback, s).lab in {InHash, AfterColon}
  {
  }

  lemma EndingInScalars(data: string, callback: bool, s: State)
    requires Sane(data, s) && s.lab in {TypeX, Number1, NumberX, AfterDot, String1, StringX, Escape}
    ensures Ending(data, s, Step(data, callback, s))
  {
    hide Step, Put, Lower;
    StepScalarParts(data, callback, s);
  }

  lemma EndingBetween(data: string, callback: bool, s: State)
    requires Sane(data, s) && s.lab in {UnknownRoot, InHash, AfterColon}
    ensures Ending(data, s, Step(data, callback, s))
  {
    hide Step, KeyLetter, Lower, Digit, Pop, Push;
    StepParts(data, callback, s);
  }

  lemma StateOfError(data: string, callback: bool, s: State)
    requires Sane(data, s) && !Halted(s)
    ensures Ending(data, s, Step(data, callback, s))
  {
    hide Step, Ending;
    if s.lab in {RootHashComment, HashComment, AcComment, RootHashComment2, HashComment2, AcComment2} {
      EndingInComments(data, callback, s);
    } else if s.lab in {QKeyName1, QKeyNameX, KeyName1, KeyNameX, Colon, HashOrAfterColon} {
      EndingInKeys(data, callback, s);
    } else if s.lab in {TypeX, Number1, NumberX, AfterDot, String1, StringX, Escape} {
      EndingInScalars(data, callback, s);
    } else {
      EndingBetween(data, callback, s);
    }
  }

  // ----- an input that is cut off

  // Near the end of the shorter input, where the longer one goes on with a comment.
  predicate Stuck(cut: string, u: State) {
    && u.open != [] && Sane(cut, u)
    && match u.lab
       case InHash | AfterColon => u.pos == |cut| || (u.pos == |cut| - 1 && cut[u.pos] in {'/', '*'})
       case HashComment2 | AcComment2 => u.pos == |cut| - 1
       case _ => false
  }

  // The shorter input is read like the longer one, or it is over, or the longer
  // one is through as well, or a comment is missed.
  predicate CutStep(data: string, n: nat, s: State)
    requires n <= |data| && Sane(data, s) && Sane(data[..n], s) && !Halted(s)
  {
    var t, u := Step(data, false, s), Step(data[..n], false, s);
    || (u == t && u.open != [] && !OutsideRoot(u.lab))
    || u.lab == OverEnd || t.lab == BadType || (t.lab == Done && t.pos <= n)
    || Stuck(data[..n], u)
  }

  lemma SameText(data: string, n: nat, i: nat, j: nat)
    requires i <= j <= n <= |data|
    ensures data[..n][i..j] == data[i..j]
  {
  }

  lemma CutInHash(data: string, n: nat, s: State)
    requires n <= |data| && Sane(data, s) && Sane(data[..n], s) && s.lab == InHash
    ensures CutStep(data, n, s)
  {
    hide Pop, KeyLetter, Step, Put;
    StepParts(data, false, s);
    StepParts(data[..n], false, s);
  }

  lemma CutAfterColon(data: string, n: nat, s: State)
    requires n <= |data| && Sane(data, s) && Sane(data[..n], s) && s.lab == AfterColon
    ensures CutStep(data, n, s)
  {
    hide Pop, Push, Lower, Digit, Step, Put;
    StepParts(data, false, s);
    StepParts(data[..n], false, s);
  }

  lemma CutInComments(data: string, n: nat, s: State)
    requires n <= |data| && Sane(data, s) && Sane(data[..n], s)
    requires s.lab in {HashComment, HashComment2, AcComment, AcComment2}
    ensures CutStep(data, n, s)
  {
    hide Step, Newline;
    StepCommentParts(data, false, s);
    StepCommentParts(data[..n], false, s);
  }

  lemma CutInKeys(data: string, n: nat, s: State)
    requires n <= |data| && Sane(data, s) && Sane(data[..n], s)
    requires s.lab in {QKeyName1, QKeyNameX, KeyName1, KeyNameX, Colon}
    ensures CutStep(data, n, s)
  {
    hide Step;
    StepKeyParts(data, false, s);
    StepKeyParts(data[..n], false, s);
    if s.lab in {QKeyNameX, KeyNameX} && s.pos < n {
      SameText(data, n, s.keyStart, s.pos);
    }
  }

  lemma CutInWords(data: string, n: nat, s: State)
    requires n <= |data| && Sane(data, s) && Sane(data[..n], s) && s.lab == TypeX
    ensures CutStep(data, n, s)
  {
    hide Step, Lower, Digit, Put;
    StepScalarParts(data, false, s);
    StepScalarParts(data[..n], false, s);
    if s.pos < n {
      SameText(data, n, s.typeStart, s.pos);
    }
  }

  lemma CutInNumbers(data: string, n: nat, s: State)
    requires n <= |data| && Sane(data, s) && Sane(data[..n], s) && s.lab in {Number1, NumberX, AfterDot}
    ensures CutStep(data, n, s)
  {
    hide Step, Digit;
    StepScalarParts(data, false, s);
    StepScalarParts(data[..n], false, s);
    if s.lab != Number1 && s.pos < n {
      SameText(data, n, s.strStart, s.pos);
    }
  }

  lemma CutInStrings(data: string, n: nat, s: State)
    requires n <= |data| && Sane(data, s) && Sane(data[..n], s) && s.lab in {String1, StringX}
    ensures CutStep(data, n, s)
  {
    hide Step;
    StepScalarParts(data, false, s);
    StepScalarParts(data[..n], false, s);
    if s.lab == StringX && s.pos < n {
      SameText(data, n, s.substrStart, s.pos);
    }
  }

  lemma CutInEscapes(data: string, n: nat, s: State)
    requires n <= |data| && Sane(data, s) && Sane(data[..n], s) && s.lab == Escape
    ensures CutStep(data, n, s)
  {
    hide Step;
    StepScalarParts(data, false, s);
    StepScalarParts(data[..n], false, s);
    if s.pos < n {
      SameText(data, n, s.substrStart, s.pos);
      SameText(data, n, s.substrStart, s.pos - 1);
    }
  }

  lemma CutBehindValue(data: string, n: nat, s: State)
    requires n <= |data| && Sane(data, s) && Sane(data[..n], s) && s.lab == HashOrAfterColon
    ensures CutStep(data, n, s)
  {
  }

  lemma AnyCutStep(data: string, n: nat, s: State)
    requires n <= |data| && Sane(data, s) && Sane(data[..n], s) && !Halted(s) && !OutsideRoot(s.lab)
    ensures CutStep(data, n, s)
  {
    hide CutStep;
    if s.lab == InHash {
      CutInHash(data, n, s);
    } else if s.lab == AfterColon {
      CutAfterColon(data, n, s);
    } else if s.lab in {HashComment, HashComment2, AcComment, AcComment2} {
      CutInComments(data, n, s);
    } else if s.lab in {QKeyName1, QKeyNameX, KeyName1, KeyNameX, Colon} {
      CutInKeys(data, n, s);
    } else if s.lab == TypeX {
      CutInWords(data, n, s);
    } else if s.lab in {Number1, NumberX, AfterDot} {
      CutInNumbers(data, n, s);
    } else if s.lab in {String1, StringX} {
      CutInStrings(data, n, s);
    } else if s.lab == Escape {
      CutInEscapes(data, n, s);
    } else {
      CutBehindValue(data, n, s);
    }
  }

  lemma StuckEnds(cut: string, u: State)
    requires Stuck(cut, u)
    ensures Run(cut, false, u).lab == OverEnd
  {
    hide Step, Run;
    StuckStep(cut, u);
    var t := Step(cut, false, u);
    OneStep(cut, false, u, t);
    if t.lab != OverEnd {
      StuckStep(cut, t);
      OneStep(cut, false, t, Step(cut, false, t));
      Halts(cut, false, Step(cut, false, t));
    } else {
      Halts(cut, false, t);
    }
  }

  lemma StuckStep(cut: string, u: State)
    requires Stuck(cut, u)
    ensures
      var t := Step(cut, false, u);
      t.lab == OverEnd || (Stuck(cut, t) && u.pos < t.pos == |cut|)
  {
    hide Step, Put, Pop, Push;
    StepParts(cut, false, u);
    StepCommentParts(cut, false, u);
  }

  // What is read up to a place in a container, cut off before that place, misses
  // something.
  lemma {:induction false} CutOff(data: string, n: nat, s: State)
    requires n <= |data| && Sane(data, s) && Sane(data[..n], s) && s.open != [] && !OutsideRoot(s.lab)
    requires Run(data, false, s).lab == Done && n < Run(data, false, s).pos
    ensures Run(data[..n], false, s).lab == OverEnd
    decreases Measure(data, s)
  {
    hide Step, Run, Sane, Stuck;
    var cut := data[..n];
    AnyCutStep(data, n, s);
    var t, u := Step(data, false, s), Step(cut, false, s);
    OneStep(data, false, s, t);
    OneStep(cut, false, s, u);
    if Halted(t) {
      Halts(data, false, t);
    }
    if u.lab == OverEnd {
      Halts(cut, false, u);
    } else if Stuck(cut, u) {
      StuckEnds(cut, u);
    } else {
      CutOff(data, n, u);
    }
  }

  lemma FirstByte(v: Source)
    requires v.SHash? || v.SArr?
    ensures Text(v) != "" && Text(v)[0] == if v.SHash? then '{' else '['
  {
    hide GapText, MembersText, ItemsText;
  }

  lemma LastByte(data: string, s: State)
    requires Sane(data, s) && s.lab == UnknownRoot && s.pos + 1 == |data|
    ensures Step(data, false, s) == s.(lab := Done, pos := |data|)
  {
  }

  // Into the container, in both inputs.
  lemma EnterBoth(data: string, n: nat, s: State) returns (t: State)
    requires s.lab == UnknownRoot && s.open == [] && s.pos + 1 < n <= |data| && data[s.pos] in {'{', '['}
    ensures Sane(data, s) && Leads(data, false, s, t) && Sane(data[..n], s) && Leads(data[..n], false, s, t)
    ensures t.open != [] && !OutsideRoot(t.lab)
  {
    hide Run, Step;
    var cut := data[..n];
    StepParts(data, false, s);
    StepParts(cut, false, s);
    t := Step(data, false, s);
    OneStep(data, false, s, t);
    OneStep(cut, false, s, t);
  }

  lemma ReadRoot(data: string, lead: Gap, v: Source) returns (t: State)
    requires GoodGap(lead, true) && Good(v) && (v.SHash? || v.SArr?) && data == GapText(lead) + Text(v)
    ensures Leads(data, false, START, t) && t.lab == Done && t.pos == |data|
  {
    hide Run, Step, GapText, Good, GoodGap, Value, Text;
    assert Reads(data, 0, data);
    if v.SHash? {
      t := ReadRootHash(data, false, START, lead, v);
    } else {
      t := ReadRootArr(data, false, START, lead, v);
    }
  }

  // A good source that is cut off is an error if and only if the cut is behind the
  // first byte of the container: cut off there, it is taken for nothing at all.
  lemma CutSource(lead: Gap, v: Source, n: nat)
    requires GoodGap(lead, true) && Good(v) && (v.SHash? || v.SArr?)
    requires |GapText(lead)| < n < |GapText(lead) + Text(v)|
    ensures
      var cut := (GapText(lead) + Text(v))[..n];
      var t := Run(cut, false, START);
      && (t.lab == OverEnd <==> n > |GapText(lead)| + 1)
      && (t.lab != OverEnd ==> t.lab == Done && t.root == None)
  {
    hide Run, Step, GapText, Good, GoodGap, Value, Text;
    var text := GapText(lead) + Text(v);
    var cut, p := text[..n], |GapText(lead)|;
    assert Reads(text, 0, text) && Reads(cut, 0, GapText(lead));
    SkipGap(cut, false, START, AtRoot, lead);
    var s := Goto(START, UnknownRoot, p);
    FirstByte(v);
    ReadsSplit(text, 0, GapText(lead), Text(v));
    ReadsAt(text, p, Text(v), 0);
    assert cut[p] == text[p];
    if n == p + 1 {
      OneStep(cut, false, s, Step(cut, false, s));
      LastByte(cut, s);
      Halts(cut, false, Step(cut, false, s));
    } else {
      var u := EnterBoth(text, n, s);
      SkipGap(text, false, START, AtRoot, lead);
      var t := ReadRoot(text, lead, v);
      Halts(text, false, t);
      CutOff(text, n, u);
    }
  }

  // ----- words

  // A small letter, and then small letters and digits.
  predicate WordText(word: string) {
    && word != "" && 'a' <= word[0] <= 'z'
    && forall i :: 0 <= i < |word| ==> 'a' <= word[i] <= 'z' || '0' <= word[i] <= '9'
  }

  lemma {:induction false} PassWord(data: string, s: State, n: nat)
    requires Sane(data, s) && s.lab == TypeX && s.pos + n <= |data|
    requires forall i :: s.pos <= i < s.pos + n ==> 'a' <= data[i] <= 'z' || '0' <= data[i] <= '9'
    ensures Leads(data, false, s, Goto(s, TypeX, s.pos + n))
    decreases n
  {
    hide Run, Sane;
    if n > 0 {
      OneStep(data, false, s, Goto(s, TypeX, s.pos + 1));
      PassWord(data, Goto(s, TypeX, s.pos + 1), n - 1);
    }
  }

  // From the first byte of a word to the end of it.
  lemma WordIsPassed(data: string, s: State, word: string) returns (t: State)
    requires Sane(data, s) && s.lab == AfterColon && WordText(word) && Reads(data, s.pos, word)
    ensures Leads(data, false, s, t) && s.open != []
    ensures Moved(s, t, TypeX, s.pos + |word|) && data[t.typeStart..t.pos] == word
  {
    hide Run, Step;
    ReadsEach(data, s.pos, word);
    StepParts(data, false, s);
    t := Goto(s.(typeStart := s.pos), TypeX, s.pos + 1);
    OneStep(data, false, s, t);
    PassWord(data, t, |word| - 1);
    t := Goto(t, TypeX, s.pos + |word|);
  }

  lemma WordEnds(data: string, s: State, word: string)
    requires Sane(data, s) && s.lab == TypeX && data[s.typeStart..s.pos] == word
    requires s.pos < |data| && !('a' <= data[s.pos] <= 'z') && !('0' <= data[s.pos] <= '9')
    ensures s.open != []
    ensures
      var t := Step(data, false, s);
      && t.pos == s.pos && t.root == s.root
      && (word == "true" ==> t.lab == HashOrAfterColon && t.open == Put(s.open, s.key, Val(True, "")))
      && (word == "false" ==> t.lab == HashOrAfterColon && t.open == Put(s.open, s.key, Val(False, "")))
      && (word == "null" ==> t.lab == HashOrAfterColon && t.open == Put(s.open, s.key, Val(Null, "")))
      && (word !in {"true", "false", "null"} ==> t.lab == BadType && t.typeWord == word && t.open == s.open)
  {
    hide Step, Put;
    StepScalarParts(data, false, s);
  }

  // A word in value position, up to the first byte that is not of it: one of
  // three is a value, and every other one is an error.
  lemma WordIsKnown(data: string, s: State, word: string) returns (t: State)
    requires Sane(data, s) && s.lab == AfterColon && WordText(word) && Reads(data, s.pos, word)
    requires
      var p := s.pos + |word|;
      p < |data| && !('a' <= data[p] <= 'z') && !('0' <= data[p] <= '9')
    ensures Leads(data, false, s, t) && s.open != []
    ensures t.pos == s.pos + |word| && t.root == s.root
    ensures word == "true" ==> t.lab == HashOrAfterColon && t.open == Put(s.open, s.key, Val(True, ""))
    ensures word == "false" ==> t.lab == HashOrAfterColon && t.open == Put(s.open, s.key, Val(False, ""))
    ensures word == "null" ==> t.lab == HashOrAfterColon && t.open == Put(s.open, s.key, Val(Null, ""))
    ensures word !in {"true", "false", "null"} ==> t.lab == BadType && t.typeWord == word && t.open == s.open
  {
    hide Run, Step, Put, Sane, WordText;
    t := WordIsPassed(data, s, word);
    WordEnds(data, t, word);
    OneStep(data, false, t, Step(data, false, t));
    t := Step(data, false, t);
  }

  // So any other word as a value is an error that names it.
  lemma UnknownWord(word: string, rest: string)
    requires WordText(word) && rest != "" && !('a' <= rest[0] <= 'z') && !('0' <= rest[0] <= '9')
    requires word !in {"true", "false", "null"}
    ensures
      var data := "{a:" + word + rest;
      var t := Run(data, false, START);
      ErrorOf(data, t) == Some(UnknownType(word)) && TreeOf(t) == Some(Hash(map[]))
  {
    hide Run, Step, WordText, Line, Column;
    var data := "{a:" + word + rest;
    var s := EnterRoot(data, false, START);
    assert data[1..3] == "a" + ("" + ":");
    s := ReadKey(data, false, s, Bare("a"), "");
    assert data[3..3 + |word|] == word && data[3 + |word|] == rest[0];
    s := WordIsKnown(data, s, word);
    Halts(data, false, s);
  }

  // ----- when nothing is returned

  // Beyond the end of the input only a quote or a minus sign leads, as its last byte.
  predicate Overrun(data: string, s: State) {
    && (s.lab == QKeyName1 ==> 0 < s.pos <= |data| && data[s.pos - 1] in {'"', '\''})
    && (s.pos > |data| ==> data != "" && data[|data| - 1] in {'"', '\'', '-'})
  }

  lemma OverrunBetween(data: string, callback: bool, s: State)
    requires Sane(data, s) && Overrun(data, s) && s.lab in {UnknownRoot, InHash, AfterColon}
    ensures Overrun(data, Step(data, callback, s))
  {
    hide Step, KeyLetter, Lower, Pop, Push;
    StepParts(data, callback, s);
  }

  lemma OverrunInKeys(data: string, callback: bool, s: State)
    requires Sane(data, s) && Overrun(data, s) && s.lab in {QKeyName1, QKeyNameX, KeyName1, KeyNameX, Colon}
    ensures Overrun(data, Step(data, callback, s))
  {
    hide Step;
    StepKeyParts(data, callback, s);
  }

  lemma OverrunInNumbers(data: string, callback: bool, s: State)
    requires Sane(data, s) && Overrun(data, s) && s.lab in {TypeX, Number1, NumberX, AfterDot}
    ensures Overrun(data, Step(data, callback, s))
  {
    hide Step, Put, Lower, Digit;
    StepScalarParts(data, callback, s);
  }

  lemma OverrunInStrings(data: string, callback: bool, s: State)
    requires Sane(data, s) && Overrun(data, s) && s.lab in {String1, StringX, Escape}
    ensures Overrun(data, Step(data, callback, s))
  {
    hide Step, Put;
    StepScalarParts(data, callback, s);
  }

  lemma OverrunInComments(data: string, callback: bool, s: State)
    requires Sane(data, s) && Overrun(data, s)
    requires s.lab in {RootHashComment, HashComment, AcComment, RootHashComment2, HashComment2, AcComment2}
    ensures Overrun(data, Step(data, callback, s))
  {
    hide Step, Newline;
    StepCommentParts(data, callback, s);
  }

  lemma OverrunBehindValue(data: string, callback: bool, s: State)
    requires Sane(data, s) && Overrun(data, s) && s.lab == HashOrAfterColon
    ensures Overrun(data, Step(data, callback, s))
  {
  }

  lemma StepOverrun(data: string, callback: bool, s: State)
    requires Sane(data, s) && !Halted(s) && Overrun(data, s)
    ensures Overrun(data, Step(data, callback, s))
  {
    hide Step, Overrun;
    if s.lab in {UnknownRoot, InHash, AfterColon} {
      OverrunBetween(data, callback, s);
    } else if s.lab in {QKeyName1, QKeyNameX, KeyName1, KeyNameX, Colon} {
      OverrunInKeys(data, callback, s);
    } else if s.lab in {TypeX, Number1, NumberX, AfterDot} {
      OverrunInNumbers(data, callback, s);
    } else if s.lab in {String1, StringX, Escape} {
      OverrunInStrings(data, callback, s);
    } else if s.lab == HashOrAfterColon {
      OverrunBehindValue(data, callback, s);
    } else {
      OverrunInComments(data, callback, s);
    }
  }

  lemma {:induction false} RunOverrun(data: string, callback: bool, s: State)
    requires Sane(data, s) && Overrun(data, s)
    ensures Overrun(data, Run(data, callback, s))
    decreases Measure(data, s)
  {
    hide Step, Overrun;
    if !Halted(s) {
      StepOverrun(data, callback, s);
      RunOverrun(data, callback, Step(data, callback, s));
    }
  }

  // ParseFull comes back with nothing only if the input ends with one of these.
  lemma PanicsOnly(data: string, callback: bool)
    requires Panics(data, Run(data, callback, START))
    ensures data != "" && data[|data| - 1] in {'"', '\'', '-'}
  {
    hide Run;
    RunOverrun(data, callback, START);
  }

  // And it does so when the byte begins a key or a number.
  lemma PanicsThere(data: string, callback: bool, s: State)
    requires Sane(data, s) && s.pos + 1 == |data|
    requires (s.lab == InHash && data[s.pos] in {'"', '\''}) || (s.lab == AfterColon && data[s.pos] == '-')
    ensures Panics(data, Run(data, callback, s))
  {
    hide Run, Step;
    StepParts(data, callback, s);
    var t := Step(data, callback, s);
    OneStep(data, callback, s, t);
    StepKeyParts(data, callback, t);
    StepScalarParts(data, callback, t);
    var u := Step(data, callback, t);
    OneStep(data, callback, t, u);
    StepKeyParts(data, callback, u);
    StepScalarParts(data, callback, u);
    OneStep(data, callback, u, Step(data, callback, u));
    Halts(data, callback, Step(data, callback, u));
  }
}
