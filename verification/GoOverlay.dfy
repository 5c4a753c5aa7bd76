/**
  Overlay and Get of go/ujsonin.go on values: laying one tree over another, and
  what a dotted path then finds.
*/
module GoOverlay {
  import opened Common
  import opened GoParse

  // ----- dotted paths

  // strings.Split( key, "." )
  function Split(key: string): (parts: seq<string>)
    ensures parts != []
  {
    if key == "" then [""]
    else
      var rest := Split(key[1..]);
      if key[0] == '.' then [""] + rest else [[key[0]] + rest[0]] + rest[1..]
  }

  function Join(parts: seq<string>): string
    requires parts != []
  {
    if |parts| == 1 then parts[0] else parts[0] + "." + Join(parts[1..])
  }

  predicate DotFree(key: string) {
    '.' !in key
  }

  lemma {:induction false} SplitIsDotFree(key: string)
    ensures forall i :: 0 <= i < |Split(key)| ==> DotFree(Split(key)[i])
    ensures DotFree(key) ==> Split(key) == [key]
    ensures Join(Split(key)) == key
  {
    if key != "" {
      assert key == [key[0]] + key[1..];
      SplitIsDotFree(key[1..]);
      var rest := Split(key[1..]);
      if key[0] == '.' {
        assert ([""] + rest)[1..] == rest;
        assert "" + "." + Join(rest) == key;
      } else {
        JoinFirst([key[0]], rest);
        assert DotFree([key[0]] + rest[0]);
      }
    }
  }

  lemma JoinFirst(c: string, rest: seq<string>)
    requires rest != []
    ensures Join([c + rest[0]] + rest[1..]) == c + Join(rest)
  {
    hide Split, Join;
    var first, tail := c + rest[0], rest[1..];
    if |rest| == 1 {
      JoinOne(rest);
      JoinOne([first] + tail);
    } else {
      JoinMore(rest);
      JoinTwo(first, tail);
      assert c + (rest[0] + "." + Join(tail)) == first + "." + Join(tail);
    }
  }

  lemma JoinOne(parts: seq<string>)
    requires |parts| == 1
    ensures Join(parts) == parts[0]
  {
  }

  lemma JoinTwo(first: string, tail: seq<string>)
    requires tail != []
    ensures Join([first] + tail) == first + "." + Join(tail)
  {
    hide Join;
    JoinMore([first] + tail);
    assert ([first] + tail)[1..] == tail;
  }

  lemma JoinMore(parts: seq<string>)
    requires |parts| > 1
    ensures Join(parts) == parts[0] + "." + Join(parts[1..])
  {
  }

  // One step of a path; only a hash has anything below a name.
  function Step1(v: Json, part: string): Option<Json> {
    if v.Hash? && part in v.fields then Some(v.fields[part]) else None
  }

  function Lookup(v: Json, path: seq<string>): Option<Json>
  {
    if path == [] then Some(v)
    else match Step1(v, path[0])
         case None => None
         case Some(w) => Lookup(w, path[1..])
  }

  // One path behind the other.
  lemma {:induction false} LookupConcat(v: Json, path: seq<string>, more: seq<string>)
    ensures Lookup(v, path + more)
      == match Lookup(v, path)
         case None => None
         case Some(w) => Lookup(w, more)
    decreases |path|
  {
    if path == [] {
      assert path + more == more;
    } else {
      assert (path + more)[1..] == path[1..] + more;
      if v.Hash? && path[0] in v.fields {
        LookupConcat(v.fields[path[0]], path[1..], more);
      }
    }
  }

  // ----- laying over

  // Hashes are merged; an array laid over an array leaves it alone; anything
  // else is replaced.
  function Overlaid(base: Json, top: Json): Json
    decreases top
  {
    if base.Hash? && top.Hash? then
      Hash(map k | k in base.fields.Keys + top.fields.Keys ::
        if k !in top.fields then base.fields[k]
        else if k !in base.fields then top.fields[k]
        else Overlaid(base.fields[k], top.fields[k]))
    else if base.Arr? && top.Arr? then base
    else top
  }

  // On the way to the end of the path, the tree has something that is not a hash.
  predicate Blocks(v: Json, path: seq<string>)
    decreases |path|
  {
    path != [] && (!v.Hash? || (path[0] in v.fields && Blocks(v.fields[path[0]], path[1..])))
  }

  // What a path finds, from what it finds in both trees.
  function Found(base: Option<Json>, top: Option<Json>, blocked: bool): Option<Json> {
    match (base, top)
    case (_, None) => if blocked then None else base
    case (None, Some(w)) => Some(w)
    case (Some(v), Some(w)) => Some(Overlaid(v, w))
  }

  // Every path: the overlay's value counts where it has one, otherwise the
  // base's, unless something above it was replaced.
  lemma {:induction false} OverlayLookup(base: Json, top: Json, path: seq<string>)
    requires base.Hash? && top.Hash?
    ensures Lookup(Overlaid(base, top), path) == Found(Lookup(base, path), Lookup(top, path), Blocks(top, path))
    decreases |path|
  {
    if path != [] {
      var k, rest := path[0], path[1..];
      if k in base.fields && k in top.fields {
        var b, t := base.fields[k], top.fields[k];
        assert Overlaid(base, top).fields[k] == Overlaid(b, t);
        if b.Hash? && t.Hash? {
          OverlayLookup(b, t, rest);
        }
      }
    }
  }

  // Every path again, in terms of what is at it in the two trees alone: nothing, a
  // scalar, an array, or a hash with certain names.
  lemma OverlayAt(base: Json, top: Json, path: seq<string>)
    requires base.Hash? && top.Hash?
    ensures
      var b, r := Lookup(base, path), Lookup(Overlaid(base, top), path);
      match Lookup(top, path)
      case None => r == if Blocks(top, path) then None else b
      case Some(Val(kind, str)) => r == Some(Val(kind, str))
      case Some(Arr(items)) => r == if b.Some? && b.value.Arr? then b else Some(Arr(items))
      case Some(Hash(fields)) =>
        && r.Some? && r.value.Hash?
        && r.value.fields.Keys == fields.Keys + if b.Some? && b.value.Hash? then b.value.fields.Keys else {}
  {
    OverlayLookup(base, top, path);
  }

  // Something on the way is in the way: a scalar or an array.
  lemma {:induction false} BlocksExactly(v: Json, path: seq<string>)
    ensures Blocks(v, path)
      <==> exists n :: 0 <= n < |path| && Lookup(v, path[..n]).Some? && !Lookup(v, path[..n]).value.Hash?
    decreases |path|
  {
    if path != [] {
      assert path[..0] == [];
      if v.Hash? && path[0] in v.fields {
        var w, rest := v.fields[path[0]], path[1..];
        BlocksExactly(w, rest);
        forall n | 0 <= n < |rest|
          ensures Lookup(v, path[..n + 1]) == Lookup(w, rest[..n])
        {
          assert path[..n + 1][1..] == rest[..n];
        }
        if n :| 0 <= n < |path| && Lookup(v, path[..n]).Some? && !Lookup(v, path[..n]).value.Hash? {
          assert n > 0 && Lookup(v, path[..(n - 1) + 1]) == Lookup(w, rest[..n - 1]);
        }
        if n :| 0 <= n < |rest| && Lookup(w, rest[..n]).Some? && !Lookup(w, rest[..n]).value.Hash? {
          assert Lookup(v, path[..n + 1]).Some? && !Lookup(v, path[..n + 1]).value.Hash?;
        }
      } else {
        assert v.Hash? ==> forall n :: 0 < n < |path| ==> path[..n][0] == path[0];
      }
    }
  }

  // Laying the same tree over a second time changes nothing.
  lemma {:induction false} OverlayTwice(base: Json, top: Json)
    ensures Overlaid(Overlaid(base, top), top) == Overlaid(base, top)
    decreases top
  {
    var once := Overlaid(base, top);
    if top.Hash? {
      if base.Hash? {
        forall k | k in once.fields && k in top.fields
          ensures Overlaid(once.fields[k], top.fields[k]) == once.fields[k]
        {
          if k in base.fields {
            OverlayTwice(base.fields[k], top.fields[k]);
          } else {
            OverlayItself(top.fields[k]);
          }
        }
        assert Overlaid(once, top).fields == once.fields;
      } else {
        OverlayItself(top);
      }
    }
  }

  lemma {:induction false} OverlayItself(v: Json)
    ensures Overlaid(v, v) == v
    decreases v
  {
    if v.Hash? {
      forall k | k in v.fields
        ensures Overlaid(v.fields[k], v.fields[k]) == v.fields[k]
      {
        OverlayItself(v.fields[k]);
      }
      assert Overlaid(v, v).fields == v.fields;
    }
  }

  // Both trees have an array at the path.
  predicate Clash(base: Json, top: Json, path: seq<string>) {
    && Lookup(base, path).Some? && Lookup(base, path).value.Arr?
    && Lookup(top, path).Some? && Lookup(top, path).value.Arr?
  }

  // The overlay's own scalars and arrays are found in the result, except exactly
  // where an array was laid over an array that differs.
  lemma TopWins(base: Json, top: Json, path: seq<string>)
    requires base.Hash? && top.Hash? && Lookup(top, path).Some? && !Lookup(top, path).value.Hash?
    ensures Lookup(Overlaid(base, top), path) == Lookup(top, path)
      <==> !(Clash(base, top, path) && Lookup(base, path) != Lookup(top, path))
  {
    OverlayLookup(base, top, path);
  }

  // Such an overlay: the base's array stays.
  lemma ArrayDoesNotWin()
    ensures
      var base, top := Hash(map["a" := Arr([Val(Pos, "1")])]), Hash(map["a" := Arr([Val(Pos, "2")])]);
      Lookup(Overlaid(base, top), ["a"]) == Some(Arr([Val(Pos, "1")])) != Lookup(top, ["a"])
  {
    var base, top := Hash(map["a" := Arr([Val(Pos, "1")])]), Hash(map["a" := Arr([Val(Pos, "2")])]);
    OneName(base, "a");
    OneName(top, "a");
    assert Clash(base, top, ["a"]);
    OverlayLookup(base, top, ["a"]);
  }

  lemma OneName(v: Json, name: string)
    ensures Lookup(v, [name]) == if v.Hash? && name in v.fields then Some(v.fields[name]) else None
  {
    assert [name][1..] == [];
  }

  lemma BaseShowsThrough(base: Json, top: Json, path: seq<string>)
    requires base.Hash? && top.Hash? && Lookup(top, path) == None && !Blocks(top, path)
    ensures Lookup(Overlaid(base, top), path) == Lookup(base, path)
  {
    OverlayLookup(base, top, path);
  }
}
