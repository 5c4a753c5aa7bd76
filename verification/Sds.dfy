/**
  The growing strings of c/sds.c: a header of one of five sizes, a length, an
  allocation, and a buffer with room for one more byte.
*/
module Sds {
  import opened Common
  import opened SdsGrowth

  const SIZE_MAX := 0xFFFF_FFFF_FFFF_FFFF

  // ----- headers

  datatype Header = Type5 | Type8 | Type16 | Type32 | Type64

  function HdrSize(h: Header): nat {
    match h
    case Type5 => 1
    case Type8 => 3
    case Type16 => 5
    case Type32 => 9
    case Type64 => 17
  }

  function ReqType(size: nat): Header {
    if size < 0x20 then Type5
    else if size < 0x100 then Type8
    else if size < 0x1_0000 then Type16
    else if size < 0x1_0000_0000 then Type32
    else Type64
  }

  // The greatest length that the fields of a header hold.
  function Capacity(h: Header): nat {
    match h
    case Type5 => 0x1F
    case Type8 => 0xFF
    case Type16 => 0xFFFF
    case Type32 => 0xFFFF_FFFF
    case Type64 => SIZE_MAX
  }

  // Two fields of equal width and a byte of flags, of which type 5 has only the
  // byte, with five bits to spare.
  lemma HeaderFields(h: Header, width: nat)
    requires h == Type5 || width == (if h == Type8 then 1 else if h == Type16 then 2 else if h == Type32 then 4 else 8)
    ensures if h == Type5 then HdrSize(h) == 1 && Capacity(h) == Pow2(5) - 1
            else HdrSize(h) == 2 * width + 1 && Capacity(h) == Pow2(8 * width) - 1
  {
    hide Pow2;
    SmallPowers();
    Widths();
  }

  lemma SmallPowers()
    ensures Pow2(5) == 0x20 && Pow2(8) == 0x100
  {
  }

  lemma Widths()
    ensures Pow2(8) == 0x100 && Pow2(16) == 0x1_0000 && Pow2(32) == 0x1_0000_0000
    ensures Pow2(64) == 0x1_0000_0000_0000_0000
  {
    hide Pow2;
    SmallPowers();
    Pow2Sum(8, 8);
    Pow2Sum(16, 16);
    Pow2Sum(32, 32);
  }

  // The header that is asked for is the smallest one that holds the length.
  lemma SmallestHeader(size: nat, h: Header)
    requires size <= SIZE_MAX
    ensures size <= Capacity(ReqType(size)) && (size <= Capacity(h) ==> HdrSize(ReqType(size)) <= HdrSize(h))
  {
  }

  // The assertion in sdsMakeRoomFor: sizes do not overflow.
  predicate NoOverflow(required: nat) {
    Grown(required) + HdrSize(Type64) + 1 <= SIZE_MAX
  }

  class Sds {
    var header: Header
    var len: nat
    var alloc: nat          // of a header that has such a field
    var buf: array<char>
    ghost var moved: nat    // bytes moved by all regrowths so far

    // sdsalloc: type 5 does not know of room behind the string.
    function Alloc(): nat
      reads this
    {
      if header == Type5 then len else alloc
    }

    function Avail(): nat
      requires len <= Alloc()
      reads this
    {
      Alloc() - len
    }

    ghost predicate Valid()
      reads this, buf
    {
      && len <= Alloc() <= Capacity(header)
      && buf.Length == Alloc() + 1
      && buf[len] == '\0'
    }

    // As Valid, but the terminator may be missing.
    ghost predicate Roomy()
      reads this
    {
      len <= Alloc() <= Capacity(header) && buf.Length == Alloc() + 1
    }

    ghost function Content(): string
      requires Roomy()
      reads this, buf
    {
      buf[..len]
    }

    constructor NewLen(init: string)
      requires |init| + HdrSize(Type64) + 1 <= SIZE_MAX
      ensures Valid() && Content() == init && fresh(buf)
      ensures Spent() == Cost(|init|, |init|, 0) && Kept(Spent())
      ensures header == if init == "" then Type8 else ReqType(|init|)
    {
      var t := ReqType(|init|);
      if t == Type5 && |init| == 0 {
        t := Type8;
      }
      header := t;
      len, alloc := |init|, |init|;
      var b := new char[|init| + 1];
      buf := b;
      moved := 0;
      new;
      forall i | 0 <= i < |init| {
        buf[i] := init[i];
      }
      buf[|init|] := '\0';
      NewIsKept(|init|);
    }

    // Room for so many more bytes; the string stays the same.
    method MakeRoomFor(addlen: nat)
      requires Roomy() && NoOverflow(len + addlen)
      modifies this
      ensures Roomy() && len == old(len) && Content() == old(Content()) && Avail() >= addlen
      ensures buf == old(buf) || fresh(buf)
      ensures Alloc() == NewAlloc(len, old(Alloc()), addlen)
      ensures if old(Avail()) >= addlen then header == old(header) && buf == old(buf)
              else header == (if Alloc() <= 0xFF then Type8 else ReqType(Alloc())) && fresh(buf)
      ensures old(Avail()) < addlen ==>
        Avail() == addlen + if len + addlen < 0x10_0000 then len + addlen else 0x10_0000
      ensures moved == old(moved) + Moved(len, old(Alloc()), addlen)
    {
      if Avail() >= addlen {
        return;
      }
      var newlen := len + addlen;
      if newlen < SDS_MAX_PREALLOC {
        newlen := newlen * 2;
      } else {
        newlen := newlen + SDS_MAX_PREALLOC;
      }
      var t := ReqType(newlen);
      if t == Type5 {
        t := Type8;
      }
      var newbuf := new char[newlen + 1];
      forall i | 0 <= i <= len {
        newbuf[i] := buf[i];
      }
      buf := newbuf;
      header := t;
      alloc := newlen;
      moved := moved + len + 1;
    }

    ghost function Spent(): Cost
      reads this
    {
      Cost(len, Alloc(), moved)
    }

    // memcpy to the end of the string, which is not terminated after that
    method Copy(t: string)
      requires Roomy() && |t| <= Avail()
      modifies buf, `len
      ensures Roomy() && Content() == old(Content()) + t && len == old(len) + |t|
      ensures Alloc() == old(Alloc())
    {
      forall i | 0 <= i < |t| {
        buf[len + i] := t[i];
      }
      assert buf[..len + |t|] == old(buf[..len]) + t;
      len := len + |t|;
    }

    // s[len] = 0
    method Terminate()
      requires Roomy()
      modifies buf
      ensures Valid() && Content() == old(Content())
    {
      buf[len] := '\0';
    }

    // sdscatlen, and sdscatsds
    method CatLen(t: string)
      requires Valid() && NoOverflow(len + |t|)
      modifies this, buf
      ensures Valid() && Content() == old(Content()) + t
      ensures buf == old(buf) || fresh(buf)
      ensures Spent() == Append(old(Spent()), |t|)
    {
      MakeRoomFor(|t|);
      Copy(t);
      Terminate();
    }

    // A run of appends, for instance to a new string.
    method CatAll(ts: seq<string>)
      requires Valid() && Kept(Spent()) && len + TotalLength(ts) <= LONGEST
      modifies this, buf
      ensures Valid() && Content() == old(Content()) + Concat(ts) && Kept(Spent()) && moved <= Alloc()
      ensures buf == old(buf) || fresh(buf)
    {
      for i := 0 to |ts|
        invariant Valid() && Content() + Concat(ts[i..]) == old(Content()) + Concat(ts) && Kept(Spent())
        invariant len + TotalLength(ts[i..]) == old(len + TotalLength(ts))
        invariant buf == old(buf) || fresh(buf)
      {
        assert ts[i..][0] == ts[i] && ts[i..][1..] == ts[i + 1..];
        Once(Spent(), |ts[i]|);
        CatLen(ts[i]);
      }
    }
  }

  function TotalLength(ts: seq<string>): nat {
    if ts == [] then 0 else |ts[0]| + TotalLength(ts[1..])
  }
}
