/**
  Numbers to text in c/sds.c: digits are written backwards into a buffer, which
  is then reversed in place.
*/
module SdsDigits {
  import opened Common

  const SDS_LLSTR_SIZE := 21
  const LLONG_MAX := 9223372036854775807
  const LLONG_MIN := -9223372036854775808
  const ULLONG_MAX := 18446744073709551615

  // ----- decimal notation

  function DigitChar(v: nat): char
    requires v < 10
  {
    '0' + v as char
  }

  function Digits(v: nat): (s: string)
    ensures s != ""
  {
    if v < 10 then [DigitChar(v)] else Digits(v / 10) + [DigitChar(v % 10)]
  }

  function Decimal(value: int): string {
    if value < 0 then "-" + Digits(-value) else Digits(value)
  }

  function Number(s: string): int {
    if s == "" then 0 else 10 * Number(s[..|s| - 1]) + (s[|s| - 1] as int - '0' as int)
  }

  // What a reader of the text makes of it.
  function Parsed(s: string): int
    requires s != ""
  {
    if s[0] == '-' then -Number(s[1..]) else Number(s)
  }

  lemma {:induction false} DigitsNumber(v: nat)
    ensures forall c :: c in Digits(v) ==> Digit(c)
    ensures Number(Digits(v)) == v
    ensures v > 0 ==> Digits(v)[0] != '0'
  {
    if v < 10 {
      assert [DigitChar(v)][..0] == "";
      assert Number("") == 0;
    } else {
      DigitsNumber(v / 10);
      var s := Digits(v);
      assert s[..|s| - 1] == Digits(v / 10);
    }
  }

  // The text means the value, and has no leading zero.
  lemma DecimalParsed(value: int)
    ensures
      var s := Decimal(value);
      && s != "" && (forall c :: c in (if s[0] == '-' then s[1..] else s) ==> Digit(c))
      && Parsed(s) == value
      && (value != 0 ==> (if value < 0 then s[1] else s[0]) != '0')
  {
    DigitsNumber(if value < 0 then -value else value);
    var s := Decimal(value);
    if value < 0 {
      assert s[1..] == Digits(-value);
    } else {
      assert s[0] in s;
    }
  }

  function Pow10(n: nat): nat {
    if n == 0 then 1 else 10 * Pow10(n - 1)
  }

  lemma {:induction false} DigitsShort(v: nat, n: nat)
    requires v < Pow10(n) && n > 0
    ensures |Digits(v)| <= n
  {
    if v >= 10 {
      DigitsShort(v / 10, n - 1);
    }
  }

  lemma FitsBuffer(value: int)
    requires LLONG_MIN <= value <= ULLONG_MAX
    ensures |Decimal(value)| < SDS_LLSTR_SIZE
  {
    assert Pow10(5) == 100000;
    assert Pow10(10) == 10000000000;
    assert Pow10(15) == 1000000000000000;
    assert Pow10(19) == 10000000000000000000;
    assert Pow10(20) == 100000000000000000000;
    if value < 0 {
      DigitsShort(-value, 19);
    } else {
      DigitsShort(value, 20);
    }
  }

  // ----- the loops

  function Reversed(s: string): (r: string)
    ensures |r| == |s|
    ensures forall i :: 0 <= i < |s| ==> r[i] == s[|s| - 1 - i]
  {
    if s == "" then "" else Reversed(s[1..]) + [s[0]]
  }

  lemma ReversedSnoc(s: string, c: char)
    ensures Reversed(s + [c]) == [c] + Reversed(s)
  {
  }

  // do { *p++ = '0' + (v % 10); v /= 10; } while( v )
  method WriteDigits(s: array<char>, value: nat) returns (p: nat)
    requires |Digits(value)| < s.Length
    modifies s
    ensures p == |Digits(value)| && Reversed(s[..p]) == Digits(value)
  {
    var v, more := value, true;
    p := 0;
    while more
      invariant p < s.Length
      invariant (if more then Digits(v) else "") + Reversed(s[..p]) == Digits(value)
      invariant more ==> p < |Digits(value)|
      invariant p <= |Digits(value)|
      decreases more, v
    {
      ghost var done := s[..p];
      s[p] := DigitChar(v % 10);
      ReversedSnoc(done, s[p]);
      assert s[..p + 1] == done + [s[p]];
      assert Digits(v) + Reversed(done) == (if v < 10 then "" else Digits(v / 10)) + ([s[p]] + Reversed(done));
      p := p + 1;
      v := v / 10;
      more := v != 0;
    }
  }

  // while( s < p ) { swap; s++; p--; }
  method ReverseInPlace(s: array<char>, l: nat)
    requires l <= s.Length
    modifies s
    ensures s[..l] == Reversed(old(s[..l])) && s[l..] == old(s[l..])
  {
    var i, p := 0, l - 1;
    while i < p
      invariant 0 <= i <= p + 2 && i + p == l - 1
      invariant forall k :: 0 <= k < i ==> s[k] == old(s[l - 1 - k]) && s[l - 1 - k] == old(s[k])
      invariant forall k :: i <= k <= p ==> s[k] == old(s[k])
      invariant forall k :: l <= k < s.Length ==> s[k] == old(s[k])
    {
      var aux := s[i];
      s[i] := s[p];
      s[p] := aux;
      i := i + 1;
      p := p - 1;
    }
  }

  // The magnitude of a signed value, without overflow at the lower end.
  method Magnitude(value: int) returns (v: nat)
    requires LLONG_MIN <= value <= LLONG_MAX
    ensures v == (if value < 0 then -value else value) && v <= LLONG_MAX + 1
  {
    if value < 0 {
      if value != LLONG_MIN {
        v := -value;
      } else {
        v := LLONG_MAX + 1;
      }
    } else {
      v := value;
    }
  }

  // The end of both conversions: terminate, then reverse.
  method Finish(s: array<char>, l: nat)
    requires l < s.Length
    modifies s
    ensures s[..l] == Reversed(old(s[..l])) && s[l] == '\0'
  {
    s[l] := '\0';
    ReverseInPlace(s, l);
    assert s[l] == s[l..][0];
  }

  method Sdsll2str(s: array<char>, value: int) returns (l: nat)
    requires s.Length >= SDS_LLSTR_SIZE && LLONG_MIN <= value <= LLONG_MAX
    modifies s
    ensures l < SDS_LLSTR_SIZE && s[..l] == Decimal(value) && s[l] == '\0'
  {
    hide Digits, Reversed;
    FitsBuffer(value);
    var v := Magnitude(value);
    l := WriteDigits(s, v);
    if value < 0 {
      ghost var digits := s[..l];
      s[l] := '-';
      ReversedSnoc(digits, '-');
      assert s[..l + 1] == digits + ['-'];
      l := l + 1;
    }
    Finish(s, l);
  }

  method Sdsull2str(s: array<char>, value: nat) returns (l: nat)
    requires s.Length >= SDS_LLSTR_SIZE && value <= ULLONG_MAX
    modifies s
    ensures l < SDS_LLSTR_SIZE && s[..l] == Decimal(value) && s[l] == '\0'
  {
    FitsBuffer(value);
    l := WriteDigits(s, value);
    Finish(s, l);
  }
}
