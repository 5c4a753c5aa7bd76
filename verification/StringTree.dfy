/**
  The string tree of c/string-tree.c: a red-black tree of hashes, each with a
  chain of the values stored under the key of that hash.
*/
module StringTree {
  import opened Common
  import opened Fnv
  import opened KeyArr
  import opened RedBlackTree
  import opened TreeShape

  // IntComp on uint32_t
  function IntComp(a: Word, b: Word): int {
    if a > b then 1 else if a < b then -1 else 0
  }

  class SNode<D> {
    const str: Bytes
    const strlen: nat
    const data: D
    const dataType: char
    var next: SNode?<D>

    constructor (str: Bytes, strlen: nat, data: D, dataType: char, next: SNode?<D>)
      ensures this.str == str && this.strlen == strlen && this.data == data && this.dataType == dataType
      ensures this.next == next
    {
      this.str, this.strlen, this.data, this.dataType, this.next := str, strlen, data, dataType, next;
    }
  }

  // !strncmp( a, b, n ): the comparison also ends where both have a zero byte.
  method SameText(a: Bytes, b: Bytes, n: nat) returns (same: bool)
    requires n <= |a| && n <= |b|
    ensures 0 !in a[..n] ==> (same <==> a[..n] == b[..n])
  {
    var i := 0;
    while i < n
      invariant i <= n && a[..i] == b[..i]
    {
      if a[i] != b[i] {
        return false;
      }
      if a[i] == 0 {
        assert a[..n][i] == 0;
        return true;
      }
      i := i + 1;
    }
    return true;
  }

  // The nodes of a chain are linked in order, and all have the same key.
  ghost predicate Chain<D>(h: Word, c: seq<SNode<D>>)
    reads c
  {
    && c != [] && c[0].str != [] && 0 !in c[0].str && Hash(c[0].str) == h
    && (forall i :: 0 <= i < |c| ==> c[i].str == c[0].str && c[i].strlen == |c[0].str|)
    && (forall i :: 0 <= i < |c| - 1 ==> c[i].next == c[i + 1])
    && c[|c| - 1].next == null
  }

  ghost function Values<D>(c: seq<SNode<D>>): seq<(D, char)> {
    seq(|c|, i requires 0 <= i < |c| => (c[i].data, c[i].dataType))
  }

  ghost function HashesOf<D>(s: seq<Node<Word, SNode?<D>>>): seq<Word> {
    seq(|s|, i requires 0 <= i < |s| => s[i].key)
  }

  // Each tree node leads to the chain of its hash, and no hash occurs twice.
  ghost predicate Indexed<D>(s: seq<Node<Word, SNode?<D>>>, chains: map<Word, seq<SNode<D>>>)
    reads s`info
  {
    && (forall i, j :: 0 <= i < j < |s| ==> s[i].key != s[j].key)
    && (forall i :: 0 <= i < |s| ==> s[i].key in chains && chains[s[i].key] != [] && s[i].info == chains[s[i].key][0])
    && (forall h :: h in chains ==> h in HashesOf(s))
  }

  ghost predicate Chained<D>(chains: map<Word, seq<SNode<D>>>, snodes: set<SNode<D>>)
    reads snodes
  {
    forall h :: h in chains ==> (forall n :: n in chains[h] ==> n in snodes) && Chain(h, chains[h])
  }

  // What is live is what the chains hold, key by key.
  ghost predicate Stored<D>(chains: map<Word, seq<SNode<D>>>, live: map<Bytes, seq<(D, char)>>) {
    && (forall h :: h in chains ==> chains[h] != [] && chains[h][0].str in live)
    && forall k :: k in live ==>
      Hash(k) in chains && chains[Hash(k)] != [] && chains[Hash(k)][0].str == k && live[k] == Values(chains[Hash(k)])
  }

  class StringTree<D> {
    const tree: RBTree<Word, SNode?<D>>
    ghost var chains: map<Word, seq<SNode<D>>>     // by hash
    ghost var snodes: set<SNode<D>>
    ghost var live: map<Bytes, seq<(D, char)>>     // what is stored, oldest first

    ghost predicate Sorted()
      reads tree, tree.nilx, tree.nodes
    {
      && tree.Valid() && tree.compare == IntComp
      && (forall i :: 0 <= i < |tree.Contents()| ==> tree.Contents()[i] in tree.nodes)
    }

    ghost predicate Valid()
      reads this, snodes, tree, tree.nilx, tree.nodes
    {
      && Sorted()
      && Indexed(tree.Contents(), chains) && Chained(chains, snodes) && Stored(chains, live)
    }

    constructor ()
      ensures Valid() && live == map[] && fresh(tree) && fresh(tree.nodes) && fresh(tree.nilx) && snodes == {}
    {
      var t := new RBTree<Word, SNode?<D>>(IntComp, 0, null);
      tree := t;
      chains, snodes, live := map[], {}, map[];
    }

    // The tree node of a hash.
    method Query(hash: Word) returns (rbnode: Node?<Word, SNode?<D>>)
      requires Valid()
      ensures rbnode == null <==> hash !in chains
      ensures rbnode != null ==>
        && rbnode in tree.Contents() && rbnode in tree.nodes && rbnode.key == hash
        && Chain(hash, chains[hash]) && rbnode.info == chains[hash][0]
    {
      hide Chain, Stored, RBTree.Valid, RBTree.Contents, Indexed, Chained;
      ghost var comparisons;
      rbnode, comparisons := tree.RBExactQuery(hash);
      ghost var s := tree.Contents();
      if rbnode == null {
        NotIndexed(s, chains, hash);
      } else {
        IsIndexed(s, chains, rbnode);
        ChainAt(chains, snodes, hash);
      }
    }

    // The oldest node with the key.
    method RawGet(key: Bytes) returns (node: SNode?<D>)
      requires Valid()
      ensures if key in live then node != null && node == chains[Hash(key)][0] else node == null
    {
      hide Chain;
      var hash := Fnv1aLen(key);
      var rbnode := Query(hash);
      if rbnode == null {
        return null;
      }
      node := Scan(rbnode.info, key, hash, chains[hash]);
    }

    // The oldest value and its type, if there is one.
    method Get(key: Bytes) returns (found: Option<(D, char)>)
      requires Valid()
      ensures found == if key in live then Some(live[key][0]) else None
    {
      var node := RawGet(key);
      if node == null {
        return None;
      }
      assert Chain(Hash(key), chains[Hash(key)]);
      return Some((node.data, node.dataType));
    }

    // The values stored under a key so far.
    ghost function ValuesOf(key: Bytes): seq<(D, char)>
      reads this`live
    {
      if key in live then live[key] else []
    }

    // No other live key has the hash.
    ghost predicate Alone(key: Bytes)
      reads this`live
    {
      forall k :: k in live && Hash(k) == Hash(key) ==> k == key
    }

    // The last node of the chain gets a successor.
    method Append(first: SNode<D>, key: Bytes, data: D, dataType: char)
      requires Valid() && key in live && first == chains[Hash(key)][0]
      modifies this`chains, this`snodes, this`live, snodes`next
      ensures Valid() && fresh(snodes - old(snodes))
      ensures live == old(live)[key := old(live[key]) + [(data, dataType)]]
    {
      hide Chain, RBTree.Valid, Chained, Hash;
      var newnode := Grow(first, key, data, dataType, Hash(key), chains, snodes);
      Longer(Hash(key), newnode, key);
    }

    ghost method Longer(h: Word, n: SNode<D>, key: Bytes)
      requires Sorted() && Indexed(tree.Contents(), chains) && Stored(chains, live) && key in live && h == Hash(key)
      requires h in chains && Chained(chains[h := chains[h] + [n]], snodes + {n})
      modifies this`chains, this`snodes, this`live
      ensures Valid() && snodes == old(snodes) + {n}
      ensures live == old(live)[key := old(live[key]) + [(n.data, n.dataType)]]
    {
      hide RBTree.Valid, Indexed, Chained, Stored, RBTree.Contents, Hash;
      var c := chains[h] + [n];
      StoredLonger(chains, live, h, n, key);
      SameHeads(tree.Contents(), chains, h, c);
      snodes, chains := snodes + {n}, chains[h := c];
      live := live[key := live[key] + [(n.data, n.dataType)]];
    }

    // The first value under a key.
    method InsertNew(key: Bytes, hash: Word, data: D, dataType: char)
      requires Valid() && hash == Hash(key) && key != [] && 0 !in key && key !in live && Alone(key)
      modifies this`chains, this`snodes, this`live
      modifies tree`tree, tree`nodes, tree.nodes`left, tree.nodes`right, tree.nodes`parent, tree.nodes`red
      ensures Valid() && fresh(snodes - old(snodes)) && fresh(tree.nodes - old(tree.nodes))
      ensures live == old(live)[key := [(data, dataType)]]
    {
      hide RBTree.Valid, Hash, Indexed, Chained, Stored, Chain;
      NewHash(key);
      var curnode := new SNode<D>(key, |key|, data, dataType, null);
      SingleChain(hash, curnode);
      AddNode(hash, curnode);
      Admit(key, curnode);
    }

    // A hash with the first node of its chain.
    method AddNode(hash: Word, first: SNode<D>)
      requires Sorted() && Indexed(tree.Contents(), chains) && hash !in chains
      modifies tree`tree, tree`nodes, tree.nodes`left, tree.nodes`right, tree.nodes`parent, tree.nodes`red
      ensures Sorted() && Indexed(tree.Contents(), chains[hash := [first]]) && fresh(tree.nodes - old(tree.nodes))
    {
      hide RBTree.Valid, Indexed;
      ghost var s, at := tree.Contents(), 0;
      var node;
      node, at := tree.RBTreeInsert(hash, first);
      assert Indexed(s, chains);
      IndexedInsert(s, at, node, chains, first);
    }

    ghost method Admit(key: Bytes, first: SNode<D>)
      requires Sorted() && Indexed(tree.Contents(), chains[Hash(key) := [first]])
      requires Chained(chains, snodes) && Stored(chains, live) && Hash(key) !in chains
      requires Chain(Hash(key), [first]) && first.str == key
      modifies this`chains, this`snodes, this`live
      ensures Valid() && snodes == old(snodes) + {first}
      ensures live == old(live)[key := [(first.data, first.dataType)]]
    {
      hide RBTree.Valid, Hash, Indexed, Chained, Stored, Chain, RBTree.Contents;
      ChainedMore(chains, snodes, Hash(key), first);
      StoredMore(chains, live, key, first);
      snodes, chains := snodes + {first}, chains[Hash(key) := [first]];
      live := live[key := [(first.data, first.dataType)]];
    }

    lemma NewHash(key: Bytes)
      requires Stored(chains, live) && Chained(chains, snodes) && key !in live && Alone(key)
      ensures Hash(key) !in chains
    {
      if Hash(key) in chains {
        KeyOf(Hash(key), chains[Hash(key)]);
      }
    }

    // A value is added behind those already there; no other key changes.
    method Store(key: Bytes, data: D, dataType: char)
      requires Valid() && key != [] && 0 !in key && Alone(key)
      modifies this`chains, this`snodes, this`live, snodes`next
      modifies tree`tree, tree`nodes, tree.nodes`left, tree.nodes`right, tree.nodes`parent, tree.nodes`red
      ensures Valid() && fresh(snodes - old(snodes)) && fresh(tree.nodes - old(tree.nodes))
      ensures live == old(live)[key := old(ValuesOf(key)) + [(data, dataType)]]
    {
      hide RBTree.Valid, Hash, Indexed, Chained, Stored, Chain;
      var hash := Fnv1aLen(key);
      var curnode := RawGet(key);
      assert [] + [(data, dataType)] == [(data, dataType)];
      if curnode != null {
        Append(curnode, key, data, dataType);
      } else {
        InsertNew(key, hash, data, dataType);
      }
    }

    // ----- deleting

    // The key's only value goes; no other key changes.
    method DelKey(key: Bytes)
      requires Valid() && |ValuesOf(key)| <= 1
      modifies this`chains, this`live, tree.nodes`info
      modifies tree`tree, tree`nodes, tree.nodes`left, tree.nodes`right, tree.nodes`parent, tree.nodes`red
      modifies tree.nilx`parent, tree.nilx`red
      ensures Valid() && tree.nodes <= old(tree.nodes)
      ensures live == old(live) - {key}
    {
      hide RBTree.Valid, Hash, Indexed, Chained, Stored, Chain;
      var hash := Fnv1aLen(key);
      var rbnode := Query(hash);
      LiveChain(key);
      if rbnode == null {
        assert live - {key} == live;
        return;
      }
      Unhook(rbnode, key, hash);
      if rbnode.info == null {
        DropNode(rbnode);
        Dismiss(key);
      } else {
        assert live - {key} == live;
      }
    }

    method Unhook(rbnode: Node<Word, SNode?<D>>, key: Bytes, hash: Word)
      requires Sorted() && Indexed(tree.Contents(), chains) && rbnode in tree.Contents() && rbnode in tree.nodes
      requires rbnode.key == hash && hash in chains && Chain(hash, chains[hash]) && rbnode.info == chains[hash][0]
      requires key == chains[hash][0].str ==> |chains[hash]| == 1
      modifies rbnode`info
      ensures Sorted() && IndexedBut(tree.Contents(), chains, rbnode)
      ensures if key == chains[hash][0].str then rbnode.info == null
              else rbnode.info != null && Indexed(tree.Contents(), chains)
    {
      hide RBTree.Valid, Chain, Indexed;
      ghost var s := tree.Contents();
      ButOne(s, chains, rbnode);
      KeyOf(hash, chains[hash]);
      Unchain(rbnode, key, hash, chains[hash]);
      tree.InfoOnly();
      assert IndexedBut(s, chains, rbnode);
      if rbnode.info != null {
        assert rbnode.info == old(rbnode.info);
        SameInfo(s, chains, rbnode, chains[hash][0]);
      }
    }

    // The node leaves the tree.
    method DropNode(rbnode: Node<Word, SNode?<D>>)
      requires Sorted() && rbnode in tree.Contents() && IndexedBut(tree.Contents(), chains, rbnode)
      modifies tree`tree, tree`nodes, tree.nodes`left, tree.nodes`right, tree.nodes`parent, tree.nodes`red
      modifies tree.nilx`parent, tree.nilx`red
      ensures Sorted() && Indexed(tree.Contents(), chains - {rbnode.key}) && tree.nodes <= old(tree.nodes)
    {
      hide RBTree.Valid, Indexed, IndexedBut;
      ghost var s := tree.Contents();
      ghost var at := tree.RBDelete(rbnode);
      assert IndexedBut(s, chains, rbnode);
      IndexedDelete(s, at, chains);
    }

    ghost method Dismiss(key: Bytes)
      requires Sorted() && Indexed(tree.Contents(), chains - {Hash(key)})
      requires Chained(chains, snodes) && Stored(chains, live) && key in live
      modifies this`chains, this`live
      ensures Valid() && live == old(live) - {key}
    {
      hide RBTree.Valid, Hash, Indexed, Chained, Stored, Chain, RBTree.Contents;
      ChainedLess(chains, snodes, Hash(key));
      StoredLess(chains, snodes, live, key);
      chains, live := chains - {Hash(key)}, live - {key};
    }

    lemma LiveChain(key: Bytes)
      requires Stored(chains, live)
      ensures Hash(key) in chains ==> chains[Hash(key)] != []
      ensures key in live <==> Hash(key) in chains && chains[Hash(key)][0].str == key
      ensures key in live ==> |live[key]| == |chains[Hash(key)]|
    {
    }

    lemma NeverEmpty(key: Bytes)
      requires Valid()
      ensures key in live ==> live[key] != []
    {
    }

    // ----- listing

    // Every live key once, by increasing hash.
    ghost predicate Lists(keys: seq<Bytes>)
      reads this`live
    {
      && (forall i, j :: 0 <= i < j < |keys| ==> Hash(keys[i]) < Hash(keys[j]))
      && (forall k :: k in keys <==> k in live)
    }

    // The heads of all chains, as the tree visits them.
    method Heads() returns (heads: seq<SNode?<D>>)
      requires Valid() && live != map[]
      ensures forall i :: 0 <= i < |heads| ==> heads[i] != null && heads[i].strlen == |heads[i].str|
      ensures Lists(seq(|heads|, i requires 0 <= i < |heads| => heads[i].str))
    {
      hide RBTree.Valid, Hash, Chain, Indexed, Chained, Stored, RBTree.Holds;
      ghost var s := tree.Contents();
      NotEmpty();
      heads := tree.TreeForEach1p(null, At(Top, tree.tree));
      HeadsAre(s, heads);
      SortedHashes();
      HeadsList(s, heads);
    }

    lemma NotEmpty()
      requires Valid() && live != map[]
      ensures tree.Valid() && tree.Holds(At(Top, tree.tree)) && tree.tree.Fork?
      ensures tree.Contents() == InOrder(At(Top, tree.tree).tree)
    {
      var k :| k in live;
      assert Hash(k) in HashesOf(tree.Contents());
    }

    lemma SortedHashes()
      requires Valid()
      ensures
        var s := tree.Contents();
        forall i, j :: 0 <= i < j < |s| ==> s[i].key < s[j].key
    {
    }

    lemma HeadsAre(s: seq<Node<Word, SNode?<D>>>, heads: seq<SNode?<D>>)
      requires Indexed(s, chains) && Chained(chains, snodes)
      requires |heads| == |s| && forall i :: 0 <= i < |s| ==> heads[i] == s[i].info
      ensures forall i :: 0 <= i < |s| ==>
        && s[i].key in chains && chains[s[i].key] != [] && heads[i] != null && heads[i] == chains[s[i].key][0]
        && heads[i].strlen == |heads[i].str| && Hash(heads[i].str) == s[i].key
    {
      forall i | 0 <= i < |s|
        ensures
          && s[i].key in chains && chains[s[i].key] != [] && heads[i] != null && heads[i] == chains[s[i].key][0]
          && heads[i].strlen == |heads[i].str| && Hash(heads[i].str) == s[i].key
      {
        assert Chain(s[i].key, chains[s[i].key]);
      }
    }

    lemma HeadsList(s: seq<Node<Word, SNode?<D>>>, heads: seq<SNode?<D>>)
      requires Stored(chains, live) && Indexed(s, chains)
      requires forall i, j :: 0 <= i < j < |s| ==> s[i].key < s[j].key
      requires |heads| == |s| && forall i :: 0 <= i < |s| ==>
        && s[i].key in chains && chains[s[i].key] != [] && heads[i] != null && heads[i] == chains[s[i].key][0]
        && Hash(heads[i].str) == s[i].key
      ensures Lists(seq(|heads|, i requires 0 <= i < |heads| => heads[i].str))
    {
      hide Hash;
      var keys := seq(|heads|, i requires 0 <= i < |heads| => heads[i].str);
      forall k | k in live
        ensures k in keys
      {
        var i :| 0 <= i < |s| && HashesOf(s)[i] == Hash(k);
        assert keys[i] == k;
      }
    }

    method GetKeys() returns (arr: KeyArr)
      requires Valid() && live != map[]
      ensures fresh(arr) && arr.Valid() && Lists(arr.Keys())
      ensures |arr.Sizes()| == |arr.Keys()| && forall i :: 0 <= i < |arr.Keys()| ==> arr.Sizes()[i] == |arr.Keys()[i]|
    {
      hide Valid, Lists;
      var heads := Heads();
      ghost var keys := seq(|heads|, i requires 0 <= i < |heads| => heads[i].str);
      arr := new KeyArr();
      for i := 0 to |heads|
        invariant fresh(arr) && arr.Valid() && fresh(arr.items) && fresh(arr.sizes)
        invariant arr.Keys() == keys[..i]
        invariant |arr.Sizes()| == i && forall j :: 0 <= j < i ==> arr.Sizes()[j] == |keys[j]|
      {
        arr.Add(heads[i].str, heads[i].strlen);
      }
      assert keys[..|keys|] == keys;
    }
  }

  lemma NotIndexed<D>(s: seq<Node<Word, SNode?<D>>>, chains: map<Word, seq<SNode<D>>>, hash: Word)
    requires Indexed(s, chains) && forall n :: n in s ==> IntComp(n.key, hash) != 0
    ensures hash !in chains
  {
    assert forall i :: 0 <= i < |s| ==> s[i] in s;
  }

  lemma IsIndexed<D>(s: seq<Node<Word, SNode?<D>>>, chains: map<Word, seq<SNode<D>>>, n: Node<Word, SNode?<D>>)
    requires Indexed(s, chains) && n in s
    ensures n.key in chains && chains[n.key] != [] && n.info == chains[n.key][0]
  {
  }

  lemma ChainAt<D>(chains: map<Word, seq<SNode<D>>>, snodes: set<SNode<D>>, h: Word)
    requires Chained(chains, snodes) && h in chains
    ensures Chain(h, chains[h])
  {
  }

  // As Indexed, but one node has lost its chain.
  ghost predicate IndexedBut<D>(s: seq<Node<Word, SNode?<D>>>, chains: map<Word, seq<SNode<D>>>,
                                n: Node<Word, SNode?<D>>)
    reads s`info
  {
    && (forall i, j :: 0 <= i < j < |s| ==> s[i].key != s[j].key)
    && (forall i :: 0 <= i < |s| ==> s[i].key in chains && (s[i] != n ==>
         chains[s[i].key] != [] && s[i].info == chains[s[i].key][0]))
    && (forall h :: h in chains ==> h in HashesOf(s))
  }

  lemma ButOne<D>(s: seq<Node<Word, SNode?<D>>>, chains: map<Word, seq<SNode<D>>>, n: Node<Word, SNode?<D>>)
    requires Indexed(s, chains)
    ensures IndexedBut(s, chains, n)
  {
  }

  lemma SameInfo<D>(s: seq<Node<Word, SNode?<D>>>, chains: map<Word, seq<SNode<D>>>,
                    n: Node<Word, SNode?<D>>, first: SNode<D>)
    requires IndexedBut(s, chains, n) && n in s && n.info == first
    requires n.key in chains && chains[n.key] != [] && chains[n.key][0] == first
    ensures Indexed(s, chains)
  {
  }

  lemma IndexedDelete<D>(s: seq<Node<Word, SNode?<D>>>, at: nat, chains: map<Word, seq<SNode<D>>>)
    requires at < |s| && IndexedBut(s, chains, s[at])
    ensures Indexed(Without(s, at), chains - {s[at].key})
  {
    var t := Without(s, at);
    forall h | h in chains && h != s[at].key
      ensures h in HashesOf(t)
    {
      var i :| 0 <= i < |s| && HashesOf(s)[i] == h;
      assert HashesOf(t)[if i < at then i else i - 1] == h;
    }
  }

  lemma ChainedLess<D>(chains: map<Word, seq<SNode<D>>>, snodes: set<SNode<D>>, h: Word)
    requires Chained(chains, snodes)
    ensures Chained(chains - {h}, snodes)
  {
  }

  lemma StoredLess<D>(chains: map<Word, seq<SNode<D>>>, snodes: set<SNode<D>>,
                      live: map<Bytes, seq<(D, char)>>, key: Bytes)
    requires Stored(chains, live) && Chained(chains, snodes) && key in live
    ensures Stored(chains - {Hash(key)}, live - {key})
  {
    hide Hash;
  }

  // Takes the node with the key out of a chain that holds it once.
  method Unchain<D>(rbnode: Node<Word, SNode?<D>>, key: Bytes, ghost h: Word, ghost c: seq<SNode<D>>)
    requires Chain(h, c) && rbnode.info == c[0] && (key == c[0].str ==> |c| == 1)
    modifies rbnode`info
    ensures rbnode.info == if key == c[0].str then null else c[0]
  {
    var node := rbnode.info;
    ghost var i := 0;
    while node != null
      invariant i <= |c| && node == (if i < |c| then c[i] else null)
      invariant i > 0 ==> key != c[0].str
      invariant rbnode.info == c[0]
      decreases |c| - i
    {
      var next := node.next;
      var delete := false;
      if |key| == node.strlen {
        delete := SameText(node.str, key, node.strlen);
        assert node.str[..node.strlen] == node.str && key[..node.strlen] == key;
      }
      if delete {
        rbnode.info := next;
        break;
      }
      node := next;
      i := i + 1;
    }
  }

  lemma SingleChain<D>(h: Word, n: SNode<D>)
    requires n.str != [] && 0 !in n.str && Hash(n.str) == h && n.strlen == |n.str| && n.next == null
    ensures Chain(h, [n])
  {
  }

  lemma ChainedMore<D>(chains: map<Word, seq<SNode<D>>>, snodes: set<SNode<D>>, h: Word, n: SNode<D>)
    requires Chained(chains, snodes) && h !in chains && Chain(h, [n])
    ensures Chained(chains[h := [n]], snodes + {n})
  {
    hide Chain;
  }

  lemma StoredMore<D>(chains: map<Word, seq<SNode<D>>>, live: map<Bytes, seq<(D, char)>>, key: Bytes, n: SNode<D>)
    requires Stored(chains, live) && Hash(key) !in chains && n.str == key
    ensures Stored(chains[Hash(key) := [n]], live[key := [(n.data, n.dataType)]])
  {
    hide Hash;
    assert Values([n]) == [(n.data, n.dataType)];
  }

  lemma IndexedInsert<D>(s: seq<Node<Word, SNode?<D>>>, at: nat, n: Node<Word, SNode?<D>>,
                         chains: map<Word, seq<SNode<D>>>, first: SNode<D>)
    requires Indexed(s, chains) && at <= |s| && n.key !in chains && n.info == first
    ensures Indexed(s[..at] + [n] + s[at..], chains[n.key := [first]])
  {
    var t := s[..at] + [n] + s[at..];
    assert HashesOf(t) == HashesOf(s)[..at] + [n.key] + HashesOf(s)[at..];
    forall h | h in chains
      ensures h in HashesOf(t)
    {
      var i :| 0 <= i < |s| && HashesOf(s)[i] == h;
      assert HashesOf(t)[if i < at then i else i + 1] == h;
    }
    assert HashesOf(t)[at] == n.key;
  }

  lemma ChainedLonger<D>(chains: map<Word, seq<SNode<D>>>, snodes: set<SNode<D>>,
                         h: Word, c: seq<SNode<D>>, n: SNode<D>)
    requires forall g :: g in chains && g != h ==> (forall n :: n in chains[g] ==> n in snodes) && Chain(g, chains[g])
    requires Chain(h, c) && forall m :: m in c ==> m in snodes || m == n
    ensures Chained(chains[h := c], snodes + {n})
  {
    hide Chain;
  }

  lemma SameHeads<D>(s: seq<Node<Word, SNode?<D>>>, chains: map<Word, seq<SNode<D>>>, h: Word, c: seq<SNode<D>>)
    requires Indexed(s, chains) && h in chains && chains[h] <= c
    ensures Indexed(s, chains[h := c])
  {
  }

  lemma StoredLonger<D>(chains: map<Word, seq<SNode<D>>>, live: map<Bytes, seq<(D, char)>>,
                        h: Word, n: SNode<D>, key: Bytes)
    requires Stored(chains, live) && key in live && h == Hash(key)
    ensures Stored(chains[h := chains[h] + [n]], live[key := live[key] + [(n.data, n.dataType)]])
  {
    hide Hash;
    assert Values(chains[h] + [n]) == Values(chains[h]) + [(n.data, n.dataType)];
  }

  // A new node at the end of one chain.
  method Grow<D>(first: SNode<D>, key: Bytes, data: D, dataType: char,
                 ghost h: Word, ghost chains: map<Word, seq<SNode<D>>>, ghost snodes: set<SNode<D>>)
    returns (newnode: SNode<D>)
    requires Chained(chains, snodes) && h in chains && first == chains[h][0] && key == chains[h][0].str
    modifies snodes`next
    ensures fresh(newnode) && newnode.data == data && newnode.dataType == dataType
    ensures Chained(chains[h := chains[h] + [newnode]], snodes + {newnode})
  {
    hide Chain;
    ghost var c := chains[h];
    var curnode := Last(first, h, c);
    newnode := new SNode<D>(key, |key|, data, dataType, null);
    forall g | g in chains && g != h
      ensures curnode !in chains[g]
    {
      Apart(h, c, g, chains[g], curnode);
    }
    Link(curnode, newnode, h, c);
    ChainedLonger(chains, snodes, h, c + [newnode], newnode);
  }

  lemma KeyOf<D>(h: Word, c: seq<SNode<D>>)
    requires Chain(h, c)
    ensures c != [] && Hash(c[0].str) == h && c[0].str != [] && 0 !in c[0].str
  {
  }

  // while( curnode->next ) curnode = curnode->next
  method Last<D>(first: SNode<D>, ghost h: Word, ghost c: seq<SNode<D>>) returns (curnode: SNode<D>)
    requires Chain(h, c) && first == c[0]
    ensures c != [] && curnode == c[|c| - 1]
  {
    curnode := first;
    ghost var i := 0;
    while curnode.next != null
      invariant i < |c| && curnode == c[i]
      invariant curnode.next == if i < |c| - 1 then c[i + 1] else null
      decreases |c| - i
    {
      curnode := curnode.next;
      i := i + 1;
    }
  }

  method Link<D>(curnode: SNode<D>, newnode: SNode<D>, ghost h: Word, ghost c: seq<SNode<D>>)
    requires Chain(h, c) && curnode == c[|c| - 1] && newnode !in c
    requires newnode.str == c[0].str && newnode.strlen == |newnode.str| && newnode.next == null
    modifies curnode`next
    ensures Chain(h, c + [newnode])
  {
    curnode.next := newnode;
  }

  lemma Apart<D>(h: Word, c: seq<SNode<D>>, g: Word, d: seq<SNode<D>>, n: SNode<D>)
    requires Chain(h, c) && Chain(g, d) && h != g && n in c
    ensures n !in d
  {
  }

  // Along a chain, all of one key: the first node, or none.
  method Scan<D>(head: SNode<D>, key: Bytes, ghost h: Word, ghost c: seq<SNode<D>>) returns (node: SNode?<D>)
    requires Chain(h, c) && head == c[0]
    ensures node == if key == c[0].str then c[0] else null
  {
    node := head;
    ghost var i := 0;
    while node != null
      invariant i <= |c| && node == (if i < |c| then c[i] else null)
      invariant i > 0 ==> key != c[0].str
      decreases |c| - i
    {
      var same := false;
      if |key| == node.strlen {
        same := SameText(node.str, key, node.strlen);
        assert node.str[..node.strlen] == node.str && key[..node.strlen] == key;
      }
      if same {
        return;
      }
      node := node.next;
      i := i + 1;
    }
  }

  // ----- whole runs

  datatype Operation<D> = Put(key: Bytes, data: D, dataType: char) | Lookup(key: Bytes) | Remove(key: Bytes)

  // The map from keys to lists of values that the string tree stands for.
  function After<D>(live: map<Bytes, seq<(D, char)>>, op: Operation<D>): map<Bytes, seq<(D, char)>> {
    match op
    case Put(key, data, dataType) => live[key := (if key in live then live[key] else []) + [(data, dataType)]]
    case Lookup(_) => live
    case Remove(key) => live - {key}
  }

  // Keys are stored under hashes of their own, and removed when stored once.
  predicate Allowed<D>(live: map<Bytes, seq<(D, char)>>, op: Operation<D>) {
    match op
    case Put(key, _, _) => key != [] && 0 !in key && forall k :: k in live && Hash(k) == Hash(key) ==> k == key
    case Lookup(_) => true
    case Remove(key) => key in live ==> |live[key]| <= 1
  }

  predicate AllAllowed<D>(live: map<Bytes, seq<(D, char)>>, ops: seq<Operation<D>>)
    decreases |ops|
  {
    ops != [] ==> Allowed(live, ops[0]) && AllAllowed(After(live, ops[0]), ops[1..])
  }

  function Answer<D>(live: map<Bytes, seq<(D, char)>>, op: Operation<D>): seq<Option<(D, char)>> {
    if !op.Lookup? then []
    else if op.key in live && live[op.key] != [] then [Some(live[op.key][0])]
    else [None]
  }

  function Answers<D>(live: map<Bytes, seq<(D, char)>>, ops: seq<Operation<D>>): seq<Option<(D, char)>>
    decreases |ops|
  {
    if ops == [] then [] else Answer(live, ops[0]) + Answers(After(live, ops[0]), ops[1..])
  }

  // One operation.
  method Perform<D>(t: StringTree<D>, op: Operation<D>) returns (answer: seq<Option<(D, char)>>)
    requires t.Valid() && Allowed(t.live, op)
    modifies t, t.snodes, t.tree, t.tree.nodes, t.tree.nilx
    ensures t.Valid() && fresh(t.snodes - old(t.snodes)) && fresh(t.tree.nodes - old(t.tree.nodes))
    ensures t.live == After(old(t.live), op) && answer == Answer(old(t.live), op)
  {
    hide Hash, StringTree.Valid;
    answer := [];
    match op
    case Put(key, data, dataType) => t.Store(key, data, dataType);
    case Lookup(key) =>
      var found := t.Get(key);
      t.NeverEmpty(key);
      answer := [found];
    case Remove(key) => t.DelKey(key);
  }

  // The lookups of any run are answered as the map answers them.
  method Replay<D>(ops: seq<Operation<D>>) returns (answers: seq<Option<(D, char)>>)
    requires AllAllowed(map[], ops)
    ensures answers == Answers(map[], ops)
  {
    hide Hash, StringTree.Valid, Allowed, After, Answer;
    var t := new StringTree<D>();
    answers := [];
    var i := 0;
    assert ops[0..] == ops;
    while i < |ops|
      invariant i <= |ops| && t.Valid() && AllAllowed(t.live, ops[i..])
      invariant fresh(t) && fresh(t.tree) && fresh(t.tree.nodes) && fresh(t.tree.nilx) && fresh(t.snodes)
      invariant answers + Answers(t.live, ops[i..]) == Answers(map[], ops)
      decreases |ops| - i
    {
      ghost var rest := ops[i..];
      assert rest[0] == ops[i] && rest[1..] == ops[i + 1..];
      var answer := Perform(t, ops[i]);
      answers := answers + answer;
      i := i + 1;
    }
    assert ops[|ops|..] == [];
  }
}
