/**
  What several of the models need.
*/
module Common {
  datatype Option<T> = None | Some(value: T)

  // ----- bytes

  predicate Lower(c: char) { 'a' <= c <= 'z' }

  predicate Upper(c: char) { 'A' <= c <= 'Z' }

  predicate Digit(c: char) { '0' <= c <= '9' }

  predicate Newline(c: char) { c == '\r' || c == '\n' }

  predicate AllDigits(s: string) {
    forall i :: 0 <= i < |s| ==> '0' <= s[i] <= '9'
  }

  // ----- texts

  function Concat(texts: seq<string>): string {
    if texts == [] then "" else texts[0] + Concat(texts[1..])
  }

  // ----- texts inside the input

  predicate Reads(data: string, pos: nat, text: string) {
    pos + |text| <= |data| && data[pos..pos + |text|] == text
  }

  lemma ReadsSplit(data: string, pos: nat, a: string, b: string)
    requires Reads(data, pos, a + b)
    ensures Reads(data, pos, a) && Reads(data, pos + |a|, b)
  {
    var t := data[pos..pos + |a + b|];
    assert data[pos..pos + |a|] == t[..|a|] == a;
    assert data[pos + |a|..pos + |a| + |b|] == t[|a|..] == b;
  }

  lemma ReadsAt(data: string, pos: nat, text: string, i: nat)
    requires Reads(data, pos, text) && i < |text|
    ensures data[pos + i] == text[i]
  {
    assert data[pos..pos + |text|][i] == text[i];
  }

  lemma ReadsEach(data: string, pos: nat, text: string)
    requires Reads(data, pos, text)
    ensures forall i :: pos <= i < pos + |text| ==> data[i] == text[i - pos]
  {
    forall i | pos <= i < pos + |text|
      ensures data[i] == text[i - pos]
    {
      ReadsAt(data, pos, text, i - pos);
    }
  }

  // Six texts in a row, grouped in another way.
  lemma Grouped(a: string, b: string, c: string, d: string, e: string, f: string)
    ensures a + b + c + d + e + f == (a + (b + c)) + (d + (e + f))
  {
    var front, back := a + b + c, d + (e + f);
    assert front == a + (b + c);
    assert front + d + e + f == front + back;
  }

  // ----- powers of two

  function Pow2(n: nat): (p: nat)
    ensures p > 0
  {
    if n == 0 then 1 else 2 * Pow2(n - 1)
  }

  lemma {:induction false} Pow2Sum(a: nat, b: nat)
    ensures Pow2(a + b) == Pow2(a) * Pow2(b)
  {
    if a > 0 {
      Pow2Sum(a - 1, b);
      assert Pow2(a + b) == 2 * Pow2(a - 1 + b);
    }
  }

  lemma {:induction false} Pow2Monotone(a: nat, b: nat)
    requires a <= b
    ensures Pow2(a) <= Pow2(b)
  {
    if a < b {
      Pow2Monotone(a, b - 1);
    }
  }
}
