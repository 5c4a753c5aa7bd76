/**
  sdssplitlen and sdsjoinsds of c/sds.c.
*/
module SdsSplit {
  import opened Sds

  // ----- what a split is

  predicate Occurs(s: string, sep: string, k: nat) {
    k + |sep| <= |s| && s[k..k + |sep|] == sep
  }

  predicate Contains(s: string, sep: string) {
    exists k: nat :: k + |sep| <= |s| && Occurs(s, sep, k)
  }

  // Tokens with the separator between them.
  function Joined(tokens: seq<string>, sep: string): string {
    if tokens == [] then ""
    else if |tokens| == 1 then tokens[0]
    else tokens[0] + sep + Joined(tokens[1..], sep)
  }

  // The separator is met first where the token ends.
  predicate FirstAtEnd(token: string, sep: string) {
    forall k: nat :: k < |token| ==> !Occurs(token + sep, sep, k)
  }

  // The tokens make up s, none contains the separator, and each was cut off at
  // the first separator there was.
  ghost predicate IsSplit(tokens: seq<string>, s: string, sep: string) {
    && tokens != [] && Joined(tokens, sep) == s
    && (forall i :: 0 <= i < |tokens| ==> !Contains(tokens[i], sep))
    && forall i :: 0 <= i < |tokens| - 1 ==> FirstAtEnd(tokens[i], sep)
  }

  lemma OccursInFront(a: string, b: string, sep: string, k: nat)
    requires k + |sep| <= |a|
    ensures Occurs(a + b, sep, k) <==> Occurs(a, sep, k)
  {
    assert (a + b)[k..k + |sep|] == a[k..k + |sep|];
  }

  // There is only one way to split a string.
  lemma {:induction false} OneSplit(a: seq<string>, b: seq<string>, s: string, sep: string)
    requires sep != "" && IsSplit(a, s, sep) && IsSplit(b, s, sep)
    ensures a == b
    decreases |s|
  {
    if |a| == 1 && |b| == 1 {
    } else if |a| == 1 {
      NotWhole(b, s, sep);
    } else if |b| == 1 {
      NotWhole(a, s, sep);
    } else {
      var x, y := Joined(a[1..], sep), Joined(b[1..], sep);
      assert s == a[0] + sep + x == b[0] + sep + y;
      SameFirst(a[0], x, b[0], y, s, sep);
      SameFirst(b[0], y, a[0], x, s, sep);
      assert a[0] == s[..|a[0]|] == s[..|b[0]|] == b[0];
      assert x == s[|a[0]| + |sep|..] == y;
      OneSplit(a[1..], b[1..], x, sep);
      assert a == [a[0]] + a[1..];
      assert b == [b[0]] + b[1..];
    }
  }

  lemma SameFirst(t: string, x: string, u: string, y: string, s: string, sep: string)
    requires s == t + sep + x == u + sep + y && FirstAtEnd(u, sep)
    ensures |t| >= |u|
  {
    if |t| < |u| {
      assert s[|t|..|t| + |sep|] == sep;
      OccursInFront(u + sep, y, sep, |t|);
    }
  }

  lemma NotWhole(b: seq<string>, s: string, sep: string)
    requires |b| > 1 && Joined(b, sep) == s
    ensures Contains(s, sep)
  {
    var y := Joined(b[1..], sep);
    assert s == b[0] + sep + y;
    assert Occurs(s, sep, |b[0]|);
  }

  // ----- joining

  lemma JoinedStep(tokens: seq<string>, sep: string)
    requires tokens != []
    ensures Joined(tokens, sep) == tokens[0] + (if |tokens| == 1 then "" else sep) + Joined(tokens[1..], sep)
  {
  }

  method SdsJoinSds(argv: seq<string>, sep: string) returns (join: Sds)
    requires NoOverflow(|Joined(argv, sep)|)
    ensures fresh(join) && join.Valid() && join.Content() == Joined(argv, sep)
  {
    hide Joined;
    join := new Sds.NewLen("");
    assert argv[0..] == argv;
    for j := 0 to |argv|
      invariant fresh(join) && join.Valid() && fresh(join.buf)
      invariant join.Content() + Joined(argv[j..], sep) == Joined(argv, sep)
    {
      ghost var rest := argv[j..];
      assert rest[0] == argv[j] && rest[1..] == argv[j + 1..];
      JoinedStep(rest, sep);
      ghost var before, separator := join.Content(), if |rest| == 1 then "" else sep;
      assert before + (rest[0] + separator + Joined(rest[1..], sep))
        == before + rest[0] + separator + Joined(rest[1..], sep);
      join.CatLen(argv[j]);
      if j != |argv| - 1 {
        join.CatLen(sep);
      }
      assert join.Content() == before + rest[0] + separator;
    }
    JoinedNothing(argv[|argv|..], sep);
  }

  lemma JoinedNothing(tokens: seq<string>, sep: string)
    requires tokens == []
    ensures Joined(tokens, sep) == ""
  {
  }

  // ----- splitting

  // Every token with a separator behind it.
  function Ended(tokens: seq<string>, sep: string): string {
    if tokens == [] then "" else Ended(tokens[..|tokens| - 1], sep) + tokens[|tokens| - 1] + sep
  }

  lemma {:induction false} EndedFirst(t: string, tokens: seq<string>, sep: string)
    ensures Ended([t] + tokens, sep) == t + sep + Ended(tokens, sep)
    decreases |tokens|
  {
    if tokens == [] {
      assert [t] + tokens == [t] && [t][..0] == [];
      assert Ended([t], sep) == Ended([], sep) + t + sep;
    } else {
      var n := |tokens| - 1;
      assert ([t] + tokens)[..n + 1] == [t] + tokens[..n];
      EndedFirst(t, tokens[..n], sep);
    }
  }

  lemma {:induction false} JoinedEnded(tokens: seq<string>, last: string, sep: string)
    ensures Joined(tokens + [last], sep) == Ended(tokens, sep) + last
    decreases |tokens|
  {
    if tokens == [] {
      assert tokens + [last] == [last];
    } else {
      var t, rest := tokens[0], tokens[1..];
      assert (tokens + [last])[1..] == rest + [last];
      assert tokens == [t] + rest;
      JoinedEnded(rest, last, sep);
      EndedFirst(t, rest, sep);
      assert t + sep + (Ended(rest, sep) + last) == t + sep + Ended(rest, sep) + last;
    }
  }

  // No separator begins in the stretch that has been searched.
  predicate Searched(s: string, sep: string, start: nat, j: nat) {
    forall k: nat :: start <= k < j ==> !Occurs(s, sep, k)
  }

  lemma OccursInSlice(s: string, sep: string, a: nat, b: nat, k: nat)
    requires a + k + |sep| <= b <= |s|
    ensures Occurs(s[a..b], sep, k) <==> Occurs(s, sep, a + k)
  {
    var t := s[a..b];
    var u, v := t[k..k + |sep|], s[a + k..a + k + |sep|];
    assert forall i :: 0 <= i < |sep| ==> u[i] == v[i];
  }

  // A token that is cut off at the first separator.
  lemma GoodToken(s: string, sep: string, start: nat, j: nat)
    requires sep != "" && start <= j && Occurs(s, sep, j) && Searched(s, sep, start, j)
    ensures !Contains(s[start..j], sep) && FirstAtEnd(s[start..j], sep)
  {
    var t := s[start..j];
    assert t + sep == s[start..j + |sep|];
    forall k: nat | k < |t|
      ensures !Occurs(t + sep, sep, k)
    {
      OccursInSlice(s, sep, start, j + |sep|, k);
    }
    forall k: nat | k + |sep| <= |t|
      ensures !Occurs(t, sep, k)
    {
      OccursInSlice(s, sep, start, j, k);
    }
  }

  lemma LastToken(s: string, sep: string, start: nat)
    requires sep != "" && start <= |s| && forall k: nat :: start <= k && k + |sep| <= |s| ==> !Occurs(s, sep, k)
    ensures !Contains(s[start..], sep)
  {
    var t := s[start..];
    forall k: nat | k + |sep| <= |t|
      ensures !Occurs(t, sep, k)
    {
      OccursInSlice(s, sep, start, |s|, k);
    }
  }

  // slots *= 2
  method MoreSlots(tokens: array<string>) returns (newtokens: array<string>)
    ensures fresh(newtokens) && newtokens.Length == tokens.Length * 2 && newtokens[..tokens.Length] == tokens[..]
  {
    newtokens := new string[tokens.Length * 2];
    forall i | 0 <= i < tokens.Length {
      newtokens[i] := tokens[i];
    }
  }

  // What holds when the search is at j and the current token began at start.
  ghost predicate SoFar(toks: seq<string>, s: string, sep: string, start: nat, j: nat) {
    && start <= |s| && start <= j && Ended(toks, sep) == s[..start] && Searched(s, sep, start, j)
    && forall i :: 0 <= i < |toks| ==> !Contains(toks[i], sep) && FirstAtEnd(toks[i], sep)
  }

  lemma CutToken(toks: seq<string>, s: string, sep: string, start: nat, j: nat)
    requires sep != "" && SoFar(toks, s, sep, start, j) && Occurs(s, sep, j)
    ensures SoFar(toks + [s[start..j]], s, sep, j + |sep|, j + |sep|)
  {
    GoodToken(s, sep, start, j);
    assert (toks + [s[start..j]])[..|toks|] == toks;
    assert s[..start] + s[start..j] + sep == s[..j + |sep|];
  }

  lemma AllTokens(toks: seq<string>, s: string, sep: string, start: nat, j: nat)
    requires sep != "" && SoFar(toks, s, sep, start, j) && j + |sep| > |s|
    ensures IsSplit(toks + [s[start..]], s, sep)
  {
    JoinedEnded(toks, s[start..], sep);
    LastToken(s, sep, start);
    assert s[..start] + s[start..] == s;
  }

  method SdsSplitLen(s: string, sep: string) returns (tokens: array?<string>, count: nat)
    ensures s == "" || sep == "" ==> tokens == null && count == 0
    ensures s != "" && sep != "" ==> tokens != null && count <= tokens.Length && IsSplit(tokens[..count], s, sep)
  {
    if |sep| < 1 || |s| <= 0 {
      return null, 0;
    }
    var elements, slots, start, j := 0, 5, 0, 0;
    var toks := new string[slots];
    while j < |s| - (|sep| - 1)
      invariant fresh(toks) && 0 <= elements < slots == toks.Length && 0 <= start && 0 <= j
      invariant SoFar(toks[..elements], s, sep, start, j)
      decreases |s| - j
    {
      if slots < elements + 2 {
        ghost var before := toks;
        toks := MoreSlots(toks);
        assert toks[..elements] == toks[..slots][..elements] == before[..elements];
        slots := slots * 2;
      }
      if s[j..j + |sep|] == sep {
        CutToken(toks[..elements], s, sep, start, j);
        ghost var before := toks[..elements];
        toks[elements] := s[start..j];
        elements := elements + 1;
        assert toks[..elements] == before + [s[start..j]];
        start := j + |sep|;
        j := j + |sep| - 1;
      }
      j := j + 1;
    }
    AllTokens(toks[..elements], s, sep, start, j);
    ghost var before := toks[..elements];
    toks[elements] := s[start..];
    elements := elements + 1;
    assert toks[..elements] == before + [s[start..]];
    tokens, count := toks, elements;
  }

  // Splitting and joining again gives the string back.
  method SplitAndJoin(s: string, sep: string) returns (join: Sds)
    requires s != "" && sep != "" && NoOverflow(|s|)
    ensures join.Valid() && join.Content() == s
  {
    var tokens, count := SdsSplitLen(s, sep);
    join := SdsJoinSds(tokens[..count], sep);
  }
}
