/**
  The hash of c/string-tree.c: the FNV-1a loop over 32-bit words, started from 0.
*/
module Fnv {
  import opened Common

  type Byte = x: int | 0 <= x < 256
  type Word = x: int | 0 <= x < 0x1_0000_0000

  type Bytes = seq<Byte>

  // ----- one step

  // Bitwise exclusive or of the lowest "width" bits.
  function Xor(width: nat, a: nat, b: nat): (r: nat)
    ensures r < Pow2(width)
  {
    if width == 0 then 0 else 2 * Xor(width - 1, a / 2, b / 2) + (a + b) % 2
  }

  lemma {:induction false} XorTwice(width: nat, a: nat, b: nat)
    requires a < Pow2(width)
    ensures Xor(width, Xor(width, a, b), b) == a
  {
    if width > 0 {
      var r := Xor(width, a, b);
      XorTwice(width - 1, a / 2, b / 2);
      Bits(Xor(width - 1, a / 2, b / 2), a, b);
    }
  }

  lemma Bits(x: nat, a: nat, b: nat)
    ensures
      var r := 2 * x + (a + b) % 2;
      r / 2 == x && (r + b) % 2 == a % 2
  {
  }

  lemma {:induction false} XorSymmetric(width: nat, a: nat, b: nat)
    ensures Xor(width, a, b) == Xor(width, b, a)
  {
    if width > 0 {
      XorSymmetric(width - 1, a / 2, b / 2);
    }
  }

  // hval *= 0x01000193, in 32 bits
  function Times(x: Word): Word {
    x * 0x01000193 % 0x1_0000_0000
  }

  // The multiplier is odd, so it can be divided out again.
  lemma TimesInjective(x: Word, y: Word)
    ensures Times(x) == Times(y) ==> x == y
  {
    if Times(x) == Times(y) {
      var p, q := x * 0x01000193 / 0x1_0000_0000, y * 0x01000193 / 0x1_0000_0000;
      assert x * 0x01000193 == p * 0x1_0000_0000 + Times(x);
      assert y * 0x01000193 == q * 0x1_0000_0000 + Times(y);
      var k := p - q;
      assert (x - y) * 0x01000193 == k * 0x1_0000_0000;
      assert (x - y) * (1 + 3513497 * 0x1_0000_0000) == k * 0x1_0000_0000 * 0x359c449b;
      var m := k * 0x359c449b - 3513497 * (x - y);
      assert x - y == m * 0x1_0000_0000;
    }
  }

  // And every word is a product: the multiplier has the inverse 0x359c449b.
  lemma TimesInverse(w: Word) returns (x: Word)
    ensures Times(x) == w
  {
    x := w * 0x359c449b % 0x1_0000_0000;
    var p := w * 0x359c449b / 0x1_0000_0000;
    assert w * 0x359c449b == p * 0x1_0000_0000 + x;
    assert x * 0x01000193 == w + (3513497 * w - p * 0x01000193) * 0x1_0000_0000;
    Remainder(x * 0x01000193, 3513497 * w - p * 0x01000193, w);
  }

  lemma Remainder(a: nat, m: int, w: Word)
    requires a == w + m * 0x1_0000_0000
    ensures a % 0x1_0000_0000 == w
  {
  }

  // hval ^= byte; hval *= prime
  function Mix(h: Word, b: Byte): Word {
    WordSize();
    Times(Xor(32, h, b))
  }

  lemma WordSize()
    ensures Pow2(32) == 0x1_0000_0000
  {
    assert Pow2(8) == 0x100;
    assert Pow2(16) == 0x1_0000;
    assert Pow2(24) == 0x100_0000;
  }

  // For every byte the step is a bijection of the state: no two states lead to
  // one, and every state is led to.
  lemma MixInjective(g: Word, h: Word, b: Byte)
    ensures Mix(g, b) == Mix(h, b) ==> g == h
  {
    hide Times;
    WordSize();
    TimesInjective(Xor(32, g, b), Xor(32, h, b));
    XorTwice(32, g, b);
    XorTwice(32, h, b);
  }

  lemma MixSurjective(w: Word, b: Byte) returns (h: Word)
    ensures Mix(h, b) == w
  {
    hide Times;
    WordSize();
    var x := TimesInverse(w);
    h := Xor(32, x, b);
    XorTwice(32, x, b);
  }

  // From every state, different bytes lead to different states.
  lemma MixSeparates(h: Word, a: Byte, b: Byte)
    ensures Mix(h, a) == Mix(h, b) ==> a == b
  {
    hide Times;
    WordSize();
    TimesInjective(Xor(32, h, a), Xor(32, h, b));
    XorSymmetric(32, h, a);
    XorSymmetric(32, h, b);
    XorTwice(32, a, h);
    XorTwice(32, b, h);
  }

  // ----- the hash

  function HashFrom(h: Word, s: Bytes): Word
    decreases |s|
  {
    if s == [] then h else HashFrom(Mix(h, s[0]), s[1..])
  }

  function Hash(s: Bytes): Word {
    HashFrom(0, s)
  }

  method Fnv1aLen(str: Bytes) returns (hval: Word)
    ensures hval == Hash(str)
  {
    hide Times, Xor;
    WordSize();
    hval := 0;
    for i := 0 to |str|
      invariant HashFrom(hval, str[i..]) == Hash(str)
    {
      assert str[i..][0] == str[i] && str[i..][1..] == str[i + 1..];
      hval := Times(Xor(32, hval, str[i]));
    }
  }

  lemma {:induction false} HashFromInjective(g: Word, h: Word, s: Bytes)
    ensures HashFrom(g, s) == HashFrom(h, s) ==> g == h
    decreases |s|
  {
    hide Mix;
    if s != [] {
      HashFromInjective(Mix(g, s[0]), Mix(h, s[0]), s[1..]);
      MixInjective(g, h, s[0]);
    }
  }

  lemma {:induction false} HashFromConcat(h: Word, s: Bytes, t: Bytes)
    ensures HashFrom(h, s + t) == HashFrom(HashFrom(h, s), t)
    decreases |s|
  {
    hide Mix;
    if s == [] {
      assert s + t == t;
    } else {
      assert (s + t)[0] == s[0] && (s + t)[1..] == s[1..] + t;
      HashFromConcat(Mix(h, s[0]), s[1..], t);
    }
  }

  // Strings that differ in exactly one byte never collide.
  lemma OneByteApart(before: Bytes, a: Byte, b: Byte, after: Bytes)
    ensures Hash(before + [a] + after) == Hash(before + [b] + after) <==> a == b
  {
    hide Mix, HashFrom;
    var h := HashFrom(0, before);
    HashFromConcat(0, before + [a], after);
    HashFromConcat(0, before + [b], after);
    HashFromConcat(0, before, [a]);
    HashFromConcat(0, before, [b]);
    OneMore(h, a);
    OneMore(h, b);
    HashFromInjective(Mix(h, a), Mix(h, b), after);
    MixSeparates(h, a, b);
  }

  lemma OneMore(h: Word, b: Byte)
    ensures HashFrom(h, [b]) == Mix(h, b)
  {
    hide Mix;
    assert [b][1..] == [];
  }

  // ----- the hash bit by bit

  function Bit(x: nat, i: nat): nat {
    if i == 0 then x % 2 else Bit(x / 2, i - 1)
  }

  lemma {:induction false} XorBit(width: nat, a: nat, b: nat, i: nat)
    requires i < width
    ensures Bit(Xor(width, a, b), i) == (Bit(a, i) + Bit(b, i)) % 2
    decreases i
  {
    Bits(Xor(width - 1, a / 2, b / 2), a, b);
    if i > 0 {
      XorBit(width - 1, a / 2, b / 2, i - 1);
    }
  }

  lemma {:induction false} BitsDetermine(width: nat, x: nat, y: nat)
    requires x < Pow2(width) && y < Pow2(width) && forall i :: 0 <= i < width ==> Bit(x, i) == Bit(y, i)
    ensures x == y
  {
    if width > 0 {
      assert Bit(x, 0) == Bit(y, 0);
      forall i | 0 <= i < width - 1
        ensures Bit(x / 2, i) == Bit(y / 2, i)
      {
        assert Bit(x, i + 1) == Bit(y, i + 1);
      }
      BitsDetermine(width - 1, x / 2, y / 2);
    }
  }

  // A byte more: x differs from the hash so far in the bits of the byte, and is
  // then multiplied by the prime.
  lemma OneByteMore(s: Bytes, b: Byte, x: Word)
    requires forall i :: 0 <= i < 32 ==> Bit(x, i) == (Bit(Hash(s), i) + Bit(b, i)) % 2
    ensures Hash(s + [b]) == x * 0x01000193 % 0x1_0000_0000
  {
    hide Bit, Xor, HashFrom;
    WordSize();
    var h := Hash(s);
    HashFromConcat(0, s, [b]);
    OneMore(h, b);
    forall i | 0 <= i < 32
      ensures Bit(Xor(32, h, b), i) == Bit(x, i)
    {
      XorBit(32, h, b, i);
    }
    BitsDetermine(32, Xor(32, h, b), x);
  }

  lemma {:induction false} XorFromZero(width: nat, b: nat)
    requires b < Pow2(width)
    ensures Xor(width, 0, b) == b
  {
    if width > 0 {
      XorFromZero(width - 1, b / 2);
    }
  }

  // The hashes of a string of one byte, and of "ab".
  lemma OneByte(b: Byte)
    ensures Hash([b]) == b * 0x01000193 % 0x1_0000_0000
  {
    hide Xor;
    WordSize();
    OneMore(0, b);
    XorFromZero(32, b);
  }

  lemma TwoBytes()
    ensures Hash([97, 98]) == 2230358275
  {
    hide HashFrom, Xor;
    WordSize();
    OneByte(97);
    HashFromConcat(0, [97], [98]);
    OneMore(1627429043, 98);
    assert [97] + [98] == [97, 98];
    XorThere();
    assert Mix(1627429043, 98) == Times(1627429073);
  }

  lemma XorStep(width: nat, a: nat, b: nat)
    requires width > 0
    ensures Xor(width, a, b) == 2 * Xor(width - 1, a / 2, b / 2) + (a + b) % 2
  {
  }

  lemma XorThere()
    ensures Xor(32, 1627429043, 98) == 1627429073
  {
    hide Xor, Pow2;
    XorEnd();
    XorStep(32, 1627429043, 98);
    XorStep(31, 813714521, 49);
    XorStep(30, 406857260, 24);
    XorStep(29, 203428630, 12);
    XorStep(28, 101714315, 6);
    XorStep(27, 50857157, 3);
    XorStep(26, 25428578, 1);
  }

  lemma XorEnd()
    ensures Xor(25, 12714289, 0) == 12714289
  {
    hide Xor;
    XorSymmetric(25, 12714289, 0);
    assert Pow2(24) == 0x100_0000 by { assert Pow2(8) == 0x100; assert Pow2(16) == 0x1_0000; }
    XorFromZero(25, 12714289);
  }

  // A zero byte in front, and no other one, is not seen: the start is 0.
  lemma LeadingZero(b: Byte, s: Bytes)
    ensures Hash([b] + s) == Hash(s) <==> b == 0
  {
    hide Mix, HashFrom;
    HashFromConcat(0, [b], s);
    OneMore(0, b);
    HashFromInjective(Mix(0, b), 0, s);
    ZeroStays();
    MixSeparates(0, b, 0);
  }

  lemma ZeroStays()
    ensures Mix(0, 0) == 0
  {
    XorZero(32);
  }

  lemma {:induction false} XorZero(width: nat)
    ensures Xor(width, 0, 0) == 0
  {
    if width > 0 {
      XorZero(width - 1);
    }
  }
}
