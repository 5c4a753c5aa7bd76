/**
  What appending to a string of c/sds.c costs: how far the allocation grows, and
  how many bytes are moved by that.
*/
module SdsGrowth {
  import opened Common

  const SDS_MAX_PREALLOC := 1024 * 1024

  // ----- growth

  // What sdsMakeRoomFor allocates when there is not enough room.
  function Grown(required: nat): nat {
    if required < SDS_MAX_PREALLOC then 2 * required else required + SDS_MAX_PREALLOC
  }

  function NewAlloc(len: nat, alloc: nat, addlen: nat): nat {
    if alloc >= len + addlen then alloc else Grown(len + addlen)
  }

  // The bytes moved on that occasion, terminator included.
  function Moved(len: nat, alloc: nat, addlen: nat): nat {
    if alloc >= len + addlen then 0 else len + 1
  }

  // ----- the cost of appending

  datatype Cost = Cost(len: nat, alloc: nat, moved: nat)

  function Append(c: Cost, addlen: nat): Cost {
    Cost(c.len + addlen, NewAlloc(c.len, c.alloc, addlen), c.moved + Moved(c.len, c.alloc, addlen))
  }

  function AppendAll(c: Cost, adds: seq<nat>): Cost {
    if adds == [] then c else Append(AppendAll(c, adds[..|adds| - 1]), adds[|adds| - 1])
  }

  function Total(adds: seq<nat>): nat {
    if adds == [] then 0 else Total(adds[..|adds| - 1]) + adds[|adds| - 1]
  }

  // As long as the string stays below a mebibyte, all regrowths together move
  // no more bytes than are allocated in the end: appending is amortised constant.
  lemma {:induction false} Amortised(c: Cost, adds: seq<nat>)
    requires c.len <= c.alloc && c.moved <= c.alloc && c.len + Total(adds) < 0x10_0000
    ensures
      var d := AppendAll(c, adds);
      d.len == c.len + Total(adds) <= d.alloc && d.moved <= d.alloc
    decreases |adds|
  {
    if adds != [] {
      Amortised(c, adds[..|adds| - 1]);
    }
  }

  // ----- how long a regrowth lasts

  lemma {:induction false} MovesAddUp(c: Cost, adds: seq<nat>)
    requires c.len <= c.alloc
    ensures
      var d := AppendAll(c, adds);
      && d.len == c.len + Total(adds) <= d.alloc && d.moved >= c.moved
      && (d.moved == c.moved <==> d.len <= c.alloc) && (d.moved == c.moved ==> d.alloc == c.alloc)
    decreases |adds|
  {
    if adds != [] {
      MovesAddUp(c, adds[..|adds| - 1]);
    }
  }

  // Behind a regrowth the string is as long again, or a mebibyte longer, before
  // there is another one: bytes are moved again if and only if it gets longer.
  lemma RoomLasts(c: Cost, addlen: nat, adds: seq<nat>)
    requires c.len <= c.alloc < c.len + addlen
    ensures
      var d := Append(c, addlen);
      var room := if d.len < 0x10_0000 then d.len else 0x10_0000;
      d.moved == c.moved + c.len + 1 && (AppendAll(d, adds).moved == d.moved <==> Total(adds) <= room)
  {
    MovesAddUp(Append(c, addlen), adds);
  }

  // ----- how far exactly that goes

  // A string can be this long and still have moved no more than is allocated.
  const LONGEST := SDS_MAX_PREALLOC + 26

  // Doubling writes the required sizes in binary with the digits 1 and 2.  A
  // digit 1 (growth by a single byte) puts the bytes moved one behind the bytes
  // allocated, a digit 2 puts them three behind, and a leading digit its value.
  function Digits(required: nat): nat {
    if required <= 2 then required
    else Digits((required - 1) / 2) + if required % 2 == 1 then 1 else 3
  }

  // How far behind the allocation they are at least.  An odd allocation is
  // that of a new string, which has moved nothing yet.
  function Lag(alloc: nat): nat {
    if alloc % 2 == 1 then alloc else Digits(alloc / 2)
  }

  lemma {:induction false} DigitsStep(q: nat)
    ensures Digits(q + 1) <= Digits(q) + 2
  {
    if q > 2 {
      DigitsStep((q - 1) / 2);
    }
  }

  lemma {:induction false} DigitsDouble(q: nat, d: nat)
    requires d > 0
    ensures Digits(2 * q + d) <= Digits(q) + 2 * d - 1
    decreases d
  {
    if d > 2 {
      DigitsDouble(q + 1, d - 2);
      DigitsStep(q);
    }
  }

  lemma {:induction false} DigitsSmall(r: nat)
    ensures Digits(r) <= r
  {
    if r > 2 {
      DigitsSmall((r - 1) / 2);
    }
  }

  // Growing from one allocation to the double of what is required.
  lemma LagGrows(alloc: nat, required: nat)
    requires alloc < required
    ensures Lag(2 * required) <= Lag(alloc) + 2 * (required - alloc) - 1
  {
    if alloc % 2 == 0 {
      DigitsDouble(alloc / 2, required - alloc);
    } else {
      DigitsSmall(required);
    }
  }

  lemma LastDigit(r: nat) returns (q: nat, d: nat)
    requires r > 2
    ensures 1 <= d <= 2 && r == 2 * q + d && Digits(r) == Digits(q) + 2 * d - 1
  {
    q := (r - 1) / 2;
    d := r - 2 * q;
  }

  lemma {:induction false} Ones(k: nat)
    ensures Digits(Pow2(k) - 1) == k
  {
    if k > 1 {
      Ones(k - 1);
    }
  }

  // Just behind a mebibyte, where the last four digits decide.
  lemma LagThere(alloc: nat)
    requires alloc < LONGEST
    ensures alloc <= SDS_MAX_PREALLOC + Lag(alloc)
  {
    hide Digits;
    if alloc > SDS_MAX_PREALLOC && alloc % 2 == 0 {
      var q1, d1 := LastDigit(alloc / 2);
      var q2, d2 := LastDigit(q1);
      var q3, d3 := LastDigit(q2);
      var q4, d4 := LastDigit(q3);
      Ones(15);
      assert Pow2(15) == 0x8000 by { assert Pow2(5) == 0x20; assert Pow2(10) == 0x400; }
      assert q4 == 0x7FFF;
    }
  }

  ghost predicate Kept(c: Cost) {
    c.len <= c.alloc && (c.moved + Lag(c.alloc) <= c.alloc || (c.moved <= c.alloc && c.alloc >= 2 * SDS_MAX_PREALLOC))
  }

  lemma Once(c: Cost, addlen: nat)
    requires Kept(c) && c.len + addlen <= LONGEST
    ensures Kept(Append(c, addlen))
  {
    var required := c.len + addlen;
    if c.alloc < required {
      LagGrows(c.alloc, required);
      LagThere(c.alloc);
    }
  }

  // Appends from a new string on.
  ghost predicate Bounded(longest: nat) {
    forall init: nat, adds: seq<nat> :: init + Total(adds) <= longest ==>
      var d := AppendAll(Cost(init, init, 0), adds);
      d.moved <= d.alloc
  }

  lemma {:induction false} KeptAll(c: Cost, adds: seq<nat>)
    requires Kept(c) && c.len + Total(adds) <= LONGEST
    ensures Kept(AppendAll(c, adds)) && AppendAll(c, adds).len == c.len + Total(adds)
    decreases |adds|
  {
    hide Kept;
    if adds != [] {
      KeptAll(c, adds[..|adds| - 1]);
      Once(AppendAll(c, adds[..|adds| - 1]), adds[|adds| - 1]);
    }
  }

  lemma NewIsKept(init: nat)
    ensures Kept(Cost(init, init, 0))
  {
    DigitsSmall(init / 2);
  }

  // The run that moves most: every regrowth finds the string full.
  function Fill(digits: seq<nat>): seq<nat> {
    if digits == [] then [] else
      var before := Fill(digits[..|digits| - 1]);
      before + [digits[|digits| - 1], Written(digits)]
  }

  // The number that has these digits.
  function Written(digits: seq<nat>): nat {
    if digits == [] then 0 else 2 * Written(digits[..|digits| - 1]) + digits[|digits| - 1]
  }

  // How far behind the allocation that leaves the bytes moved.
  function Behind(digits: seq<nat>): int {
    if digits == [] then 0 else Behind(digits[..|digits| - 1]) + 2 * digits[|digits| - 1] - 1
  }

  lemma AppendSnoc(c: Cost, adds: seq<nat>, n: nat)
    ensures AppendAll(c, adds + [n]) == Append(AppendAll(c, adds), n)
    ensures Total(adds + [n]) == Total(adds) + n
  {
    assert (adds + [n])[..|adds|] == adds;
  }

  lemma {:induction false} Filled(digits: seq<nat>)
    requires forall i :: 0 <= i < |digits| ==> digits[i] > 0
    requires Written(digits) < SDS_MAX_PREALLOC
    ensures
      var full := 2 * Written(digits);
      var c := AppendAll(Cost(0, 0, 0), Fill(digits));
      && Total(Fill(digits)) == full
      && c.len == c.alloc == full && c.moved == full - Behind(digits)
    decreases |digits|
  {
    if digits != [] {
      var front, d := digits[..|digits| - 1], digits[|digits| - 1];
      Filled(front);
      AppendSnoc(Cost(0, 0, 0), Fill(front), d);
      AppendSnoc(Cost(0, 0, 0), Fill(front) + [d], Written(digits));
      assert Fill(digits) == Fill(front) + [d] + [Written(digits)];
    }
  }

  // One byte more than the longest: nineteen regrowths below a mebibyte and one above.
  lemma OneTooMany()
    ensures !Bounded(LONGEST + 1)
  {
    hide Fill, Written, Behind, AppendAll, Total;
    var ones: seq<nat>, rest: seq<nat> := seq(15, _ => 1), [2, 2, 2, 1];
    var digits := ones + rest;
    AllOnes(15);
    assert Pow2(15) == 0x8000 by { assert Pow2(5) == 0x20; assert Pow2(10) == 0x400; }
    Snoc(ones, 2);
    Snoc(ones + [2], 2);
    Snoc(ones + [2, 2], 2);
    Snoc(ones + [2, 2, 2], 1);
    assert digits == ones + [2] + [2] + [2] + [1];
    assert ones + [2, 2] == ones + [2] + [2] && ones + [2, 2, 2] == ones + [2] + [2] + [2];
    assert Written(digits) == 0x8_000D && Behind(digits) == 25;
    Filled(digits);
    AppendSnoc(Cost(0, 0, 0), Fill(digits), 1);
    var adds := Fill(digits) + [1];
    assert 0 + Total(adds) <= LONGEST + 1;
    assert AppendAll(Cost(0, 0, 0), adds).moved > AppendAll(Cost(0, 0, 0), adds).alloc;
  }

  lemma Snoc(digits: seq<nat>, d: nat)
    ensures Written(digits + [d]) == 2 * Written(digits) + d && Behind(digits + [d]) == Behind(digits) + 2 * d - 1
  {
    assert (digits + [d])[..|digits|] == digits;
  }

  lemma {:induction false} AllOnes(n: nat)
    ensures Written(seq(n, _ => 1)) == Pow2(n) - 1 && Behind(seq(n, _ => 1)) == n
  {
    if n > 0 {
      var ones: seq<nat> := seq(n, _ => 1);
      var fewer: seq<nat> := seq(n - 1, _ => 1);
      assert ones == fewer + [1];
      Snoc(fewer, 1);
      AllOnes(n - 1);
    }
  }

  // From a new string on, all regrowths together move no more bytes than are
  // allocated, whatever is appended, exactly up to this length.
  lemma BoundedExactly(longest: nat)
    ensures Bounded(longest) <==> longest <= 0x10_001A
  {
    if longest <= LONGEST {
      forall init: nat, adds: seq<nat> | init + Total(adds) <= longest
        ensures AppendAll(Cost(init, init, 0), adds).moved <= AppendAll(Cost(init, init, 0), adds).alloc
      {
        NewIsKept(init);
        KeptAll(Cost(init, init, 0), adds);
      }
    } else {
      OneTooMany();
    }
  }
}
