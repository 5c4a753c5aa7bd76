/**
  The growing array of keys of c/string-tree.c.
*/
module KeyArr {
  import opened Fnv

  const XJR_KEY_ARR_MAX := 5

  class KeyArr {
    var count: nat
    var max: nat
    var items: array<Bytes>
    var sizes: array<nat>

    // There is always room for one more.
    ghost predicate Valid()
      reads this
    {
      items.Length == max && sizes.Length == max && count < max
    }

    ghost function Keys(): seq<Bytes>
      requires Valid()
      reads this, items
    {
      items[..count]
    }

    ghost function Sizes(): seq<nat>
      requires Valid()
      reads this, sizes
    {
      sizes[..count]
    }

    constructor ()
      ensures Valid() && Keys() == [] && Sizes() == [] && fresh(items) && fresh(sizes)
    {
      items := new Bytes[XJR_KEY_ARR_MAX];
      sizes := new nat[XJR_KEY_ARR_MAX];
      count, max := 0, XJR_KEY_ARR_MAX;
    }

    // New arrays of twice the size, with the same beginning.
    method Double()
      requires items.Length == max && sizes.Length == max && 0 < count <= max
      modifies `items, `sizes, `max
      ensures Valid() && max == 2 * old(max) && fresh(items) && fresh(sizes)
      ensures items[..old(max)] == old(items[..]) && sizes[..old(max)] == old(sizes[..])
    {
      var olditems, oldsizes := items, sizes;
      var newMax := max * 2;
      items := new Bytes[newMax];
      sizes := new nat[newMax];
      forall i | 0 <= i < max {
        items[i] := olditems[i];
      }
      forall i | 0 <= i < max {
        sizes[i] := oldsizes[i];
      }
      assert items[..max] == olditems[..];
      assert sizes[..max] == oldsizes[..];
      max := newMax;
    }

    // string_tree__getkeys_rec
    method Add(str: Bytes, strlen: nat)
      requires Valid()
      modifies this, items, sizes
      ensures Valid() && Keys() == old(Keys()) + [str] && Sizes() == old(Sizes()) + [strlen]
      ensures items == old(items) || fresh(items)
      ensures sizes == old(sizes) || fresh(sizes)
    {
      sizes[count] := strlen;
      items[count] := str;
      count := count + 1;
      assert items[..count] == old(items[..count]) + [str];
      assert sizes[..count] == old(sizes[..count]) + [strlen];
      if count >= max {
        Double();
      }
    }
  }
}
