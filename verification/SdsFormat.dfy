/**
  sdscatfmt of c/sds.c: formatting straight into the growing string.
*/
module SdsFormat {
  import opened SdsDigits
  import opened Sds

  const INT_MIN := -2147483648
  const INT_MAX := 2147483647
  const UINT_MAX := 4294967295

  // What stands in the argument list for one format specifier.
  datatype Arg =
    | CStr(text: string)
    | SdsStr(text: string)
    | Counted(count: nat, text: string)
    | Signed(value: int)
    | Unsigned(value: int)

  predicate Takes(next: char) {
    next in {'p', 's', 'S', 'i', 'I', 'u', 'U'}
  }

  // The argument is of the type that the specifier reads.
  predicate Suits(next: char, arg: Arg) {
    if next == 'p' then arg.Counted? && arg.count <= |arg.text|
    else if next == 's' then arg.CStr? && '\0' !in arg.text
    else if next == 'S' then arg.SdsStr?
    else if next == 'i' then arg.Signed? && INT_MIN <= arg.value <= INT_MAX
    else if next == 'I' then arg.Signed? && LLONG_MIN <= arg.value <= LLONG_MAX
    else if next == 'u' then arg.Unsigned? && 0 <= arg.value <= UINT_MAX
    else next == 'U' && arg.Unsigned? && 0 <= arg.value <= ULLONG_MAX
  }

  predicate Conforms(fmt: string, args: seq<Arg>)
    decreases |fmt|
  {
    if fmt == "" then true
    else if fmt[0] != '%' then Conforms(fmt[1..], args)
    else if |fmt| == 1 then true
    else if Takes(fmt[1]) then args != [] && Suits(fmt[1], args[0]) && Conforms(fmt[2..], args[1..])
    else Conforms(fmt[2..], args)
  }

  // ----- the reference

  function Shown(arg: Arg): string {
    match arg
    case CStr(text) => text
    case SdsStr(text) => text
    case Counted(count, text) => if count <= |text| then text[..count] else text
    case Signed(value) => Decimal(value)
    case Unsigned(value) => Decimal(value)
  }

  // Arguments in the place of their specifiers; "%" with any other character
  // is that character, and a lone "%" at the end is nothing.
  function Render(fmt: string, args: seq<Arg>): string
    requires Conforms(fmt, args)
    decreases |fmt|
  {
    if fmt == "" then ""
    else if fmt[0] != '%' then [fmt[0]] + Render(fmt[1..], args)
    else if |fmt| == 1 then ""
    else if Takes(fmt[1]) then Shown(args[0]) + Render(fmt[2..], args[1..])
    else [fmt[1]] + Render(fmt[2..], args)
  }

  // ----- what a format stands for

  // Every percent sign twice.
  function Doubled(t: string): string {
    if t == "" then "" else (if t[0] == '%' then "%%" else [t[0]]) + Doubled(t[1..])
  }

  // A text written like that is appended as it is.
  lemma {:induction false} DoubledIsVerbatim(t: string)
    ensures Conforms(Doubled(t), []) && Render(Doubled(t), []) == t
    decreases |t|
  {
    if t != "" {
      DoubledIsVerbatim(t[1..]);
      var rest := Doubled(t[1..]);
      if t[0] == '%' {
        assert Doubled(t) == "%%" + rest && Doubled(t)[2..] == rest;
      } else {
        assert Doubled(t)[1..] == rest;
      }
    }
  }

  // The specifiers one by one, an unknown one, and none.
  lemma Specifiers(text: string, count: nat, value: int, c: char)
    ensures '\0' !in text ==> Conforms("%s", [CStr(text)]) && Render("%s", [CStr(text)]) == text
    ensures Conforms("%S", [SdsStr(text)]) && Render("%S", [SdsStr(text)]) == text
    ensures count <= |text| ==>
      Conforms("%p", [Counted(count, text)]) && Render("%p", [Counted(count, text)]) == text[..count]
    ensures -0x8000_0000 <= value < 0x8000_0000 ==>
      Conforms("%i", [Signed(value)]) && Render("%i", [Signed(value)]) == Decimal(value)
    ensures -0x8000_0000_0000_0000 <= value < 0x8000_0000_0000_0000 ==>
      Conforms("%I", [Signed(value)]) && Render("%I", [Signed(value)]) == Decimal(value)
    ensures 0 <= value < 0x1_0000_0000 ==>
      Conforms("%u", [Unsigned(value)]) && Render("%u", [Unsigned(value)]) == Decimal(value)
    ensures 0 <= value < 0x1_0000_0000_0000_0000 ==>
      Conforms("%U", [Unsigned(value)]) && Render("%U", [Unsigned(value)]) == Decimal(value)
    ensures c !in "psSiIuU" ==> Conforms(['%', c], []) && Render(['%', c], []) == [c]
    ensures c != '%' ==> Conforms([c], []) && Render([c], []) == [c]
    ensures Conforms("%", []) && Render("%", []) == ""
  {
    hide Decimal;
    forall arg: Arg, next: char | Takes(next) && Suits(next, arg)
      ensures Conforms(['%', next], [arg]) && Render(['%', next], [arg]) == Shown(arg)
    {
      OneSpecifier(next, arg);
    }
    assert "%s" == ['%', 's'] && "%S" == ['%', 'S'] && "%p" == ['%', 'p'] && "%i" == ['%', 'i'];
    assert "%I" == ['%', 'I'] && "%u" == ['%', 'u'] && "%U" == ['%', 'U'];
  }

  lemma OneSpecifier(next: char, arg: Arg)
    requires Takes(next) && Suits(next, arg)
    ensures Conforms(['%', next], [arg]) && Render(['%', next], [arg]) == Shown(arg)
  {
    assert ['%', next][2..] == "" && [arg][1..] == [];
  }

  // The format does not end inside a specifier.
  predicate Whole(fmt: string)
    decreases |fmt|
  {
    fmt == "" || (if fmt[0] != '%' then Whole(fmt[1..]) else |fmt| > 1 && Whole(fmt[2..]))
  }

  // How many arguments it reads.
  function Count(fmt: string): nat
    decreases |fmt|
  {
    if fmt == "" then 0
    else if fmt[0] != '%' then Count(fmt[1..])
    else if |fmt| == 1 then 0
    else (if fmt[1] in "psSiIuU" then 1 else 0) + Count(fmt[2..])
  }

  // Formats behind each other, each with its arguments.
  lemma {:induction false} RenderConcat(a: string, b: string, x: seq<Arg>, y: seq<Arg>)
    requires Whole(a) && |x| == Count(a) && Conforms(a, x) && Conforms(b, y)
    ensures Conforms(a + b, x + y) && Render(a + b, x + y) == Render(a, x) + Render(b, y)
    decreases |a|
  {
    hide Suits, Shown;
    if a == "" {
      assert a + b == b && x + y == y;
    } else if a[0] != '%' {
      RenderConcat(a[1..], b, x, y);
      assert (a + b)[1..] == a[1..] + b;
    } else {
      assert (a + b)[2..] == a[2..] + b;
      if Takes(a[1]) {
        RenderConcat(a[2..], b, x[1..], y);
        assert (x + y)[1..] == x[1..] + y;
      } else {
        RenderConcat(a[2..], b, x, y);
      }
    }
  }

  lemma NoOverflowBelow(smaller: nat, bigger: nat)
    requires NoOverflow(bigger) && smaller <= bigger
    ensures NoOverflow(smaller)
  {
  }

  // ----- the loop

  // Room is made when there is not enough, and then the bytes are copied.
  method Insert(s: Sds, t: string)
    requires s.Roomy() && NoOverflow(s.len + |t|)
    modifies s, s.buf
    ensures s.Roomy() && s.Content() == old(s.Content()) + t && s.len == old(s.len) + |t|
    ensures s.buf == old(s.buf) || fresh(s.buf)
  {
    if s.Avail() < |t| {
      s.MakeRoomFor(|t|);
    }
    s.Copy(t);
  }

  // One argument, as its specifier says.
  method InsertArg(s: Sds, next: char, arg: Arg)
    requires s.Roomy() && Takes(next) && Suits(next, arg) && NoOverflow(s.len + |Shown(arg)|)
    modifies s, s.buf
    ensures s.Roomy() && s.Content() == old(s.Content()) + Shown(arg) && s.len == old(s.len) + |Shown(arg)|
    ensures s.buf == old(s.buf) || fresh(s.buf)
  {
    match arg
    case Counted(count, text) => Insert(s, text[..count]);
    case CStr(text) => Insert(s, text);
    case SdsStr(text) => Insert(s, text);
    case Signed(value) =>
      var buf := new char[SDS_LLSTR_SIZE];
      var l := Sdsll2str(buf, value);
      Insert(s, buf[..l]);
    case Unsigned(value) =>
      var buf := new char[SDS_LLSTR_SIZE];
      var l := Sdsull2str(buf, value);
      Insert(s, buf[..l]);
  }

  // What one specifier, or one plain character, stands for, and what it uses up.
  function Piece(fmt: string, args: seq<Arg>): (piece: (string, nat, nat))
    requires fmt != "" && Conforms(fmt, args)
    ensures 0 < piece.1 <= |fmt| && piece.2 <= |args|
  {
    if fmt[0] != '%' then ([fmt[0]], 1, 0)
    else if |fmt| == 1 then ("", 1, 0)
    else if Takes(fmt[1]) then (Shown(args[0]), 2, 1)
    else ([fmt[1]], 2, 0)
  }

  lemma PieceByPiece(fmt: string, args: seq<Arg>)
    requires fmt != "" && Conforms(fmt, args)
    ensures
      var (text, f, a) := Piece(fmt, args);
      Conforms(fmt[f..], args[a..]) && Render(fmt, args) == text + Render(fmt[f..], args[a..])
  {
    assert args[0..] == args;
    if |fmt| == 1 {
      assert fmt[1..] == "";
    }
  }

  // One turn of the loop.
  method Turn(s: Sds, fmt: string, f0: nat, args: seq<Arg>, a0: nat) returns (f: nat, a: nat)
    requires s.Roomy() && f0 < |fmt| && a0 <= |args| && Conforms(fmt[f0..], args[a0..])
    requires NoOverflow(s.len + 1) && NoOverflow(s.len + |Piece(fmt[f0..], args[a0..]).0|)
    modifies s, s.buf
    ensures s.Roomy() && (s.buf == old(s.buf) || fresh(s.buf))
    ensures
      var (text, df, da) := Piece(fmt[f0..], args[a0..]);
      f == f0 + df && a == a0 + da && s.Content() == old(s.Content()) + text && s.len == old(s.len) + |text|
  {
    hide Suits;
    f, a := f0, a0;
    if s.Avail() == 0 {
      s.MakeRoomFor(1);
    }
    if fmt[f] == '%' {
      if f + 1 < |fmt| {
        f := f + 1;
        var next := fmt[f];
        if Takes(next) {
          InsertArg(s, next, args[a]);
          a := a + 1;
        } else {
          s.Copy([next]);
        }
      }
    } else {
      s.Copy([fmt[f]]);
    }
    f := f + 1;
  }

  // What holds when the format is read up to f and the arguments up to a.
  ghost predicate SoFar(s: string, before: string, fmt: string, args: seq<Arg>, f: nat, a: nat) {
    && f <= |fmt| && a <= |args| && Conforms(fmt, args) && Conforms(fmt[f..], args[a..])
    && s + Render(fmt[f..], args[a..]) == before + Render(fmt, args)
  }

  lemma NextPiece(s: string, before: string, fmt: string, args: seq<Arg>, f: nat, a: nat)
    requires SoFar(s, before, fmt, args, f, a) && f < |fmt|
    ensures
      var (text, df, da) := Piece(fmt[f..], args[a..]);
      && f + df <= |fmt| && a + da <= |args|
      && SoFar(s + text, before, fmt, args, f + df, a + da)
      && |s| + |text| <= |before| + |Render(fmt, args)|
  {
    hide Conforms, Render, Piece;
    PieceByPiece(fmt[f..], args[a..]);
    var (text, df, da) := Piece(fmt[f..], args[a..]);
    assert fmt[f..][df..] == fmt[f + df..] && args[a..][da..] == args[a + da..];
    var rest := Render(fmt[f + df..], args[a + da..]);
    assert s + (text + rest) == s + text + rest;
  }

  method CatFmt(s: Sds, fmt: string, args: seq<Arg>)
    requires s.Valid() && '\0' !in fmt && Conforms(fmt, args)
    requires NoOverflow(2 * s.len + 2 * |fmt| + |Render(fmt, args)|)
    modifies s, s.buf
    ensures s.Valid() && s.Content() == old(s.Content()) + Render(fmt, args)
    ensures s.buf == old(s.buf) || fresh(s.buf)
  {
    hide Conforms, Render, Piece, NoOverflow, SoFar;
    var initlen := s.len;
    ghost var before := s.Content();
    ghost var limit := 2 * initlen + 2 * |fmt| + |Render(fmt, args)|;
    NoOverflowBelow(initlen + (initlen + |fmt| * 2), limit);
    s.MakeRoomFor(initlen + |fmt| * 2);
    var f: nat, a: nat := 0, 0;
    Beginning(before, fmt, args);
    while f < |fmt|
      invariant s.Roomy() && (s.buf == old(s.buf) || fresh(s.buf))
      invariant f <= |fmt| && a <= |args| && SoFar(s.Content(), before, fmt, args, f, a)
    {
      NextPiece(s.Content(), before, fmt, args, f, a);
      Conforming(s.Content(), before, fmt, args, f, a);
      NoOverflowBelow(s.len + 1, limit);
      NoOverflowBelow(s.len + |Piece(fmt[f..], args[a..]).0|, limit);
      f, a := Turn(s, fmt, f, args, a);
    }
    AtTheEnd(s.Content(), before, fmt, args, a);
    s.Terminate();
  }

  lemma Beginning(before: string, fmt: string, args: seq<Arg>)
    requires Conforms(fmt, args)
    ensures SoFar(before, before, fmt, args, 0, 0)
  {
    assert fmt[0..] == fmt && args[0..] == args;
  }

  lemma Conforming(s: string, before: string, fmt: string, args: seq<Arg>, f: nat, a: nat)
    requires SoFar(s, before, fmt, args, f, a)
    ensures f <= |fmt| && a <= |args| && Conforms(fmt[f..], args[a..])
    ensures |s| <= |before| + |Render(fmt, args)|
  {
  }

  lemma AtTheEnd(s: string, before: string, fmt: string, args: seq<Arg>, a: nat)
    requires SoFar(s, before, fmt, args, |fmt|, a)
    ensures s == before + Render(fmt, args)
  {
    assert fmt[|fmt|..] == "";
    assert s + "" == s;
  }
}
