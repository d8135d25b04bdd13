/**
  The hashes of a trie, computed from the map it stands for and not from its nodes.

  Under a prefix that some key continues, there is a node where all these keys still agree and
  then one of them ends or two of them part.  Its hash is made of the value there, of the bytes
  since the node above, and of the hashes of the nodes below, in the order of their first bytes.
 */
module TrieHash {
  import opened Octets
  import opened TrieModel

  // ----------------------------------------------------------- where nodes are

  /** Some key continues q, or is q. */
  ghost predicate Through(m: map<Bytes, Bytes>, q: Bytes) {
    exists k :: k in m && q <= k
  }

  /** Two keys part at c. */
  ghost predicate Parts(m: map<Bytes, Bytes>, c: Bytes) {
    exists x, y {:trigger PartAt(m, c, x, y)} :: PartAt(m, c, x, y)
  }

  ghost predicate PartAt(m: map<Bytes, Bytes>, c: Bytes, x: Bytes, y: Bytes) {
    x in m && y in m && c < x && c < y && x[|c|] != y[|c|]
  }

  /** A node is needed at c. */
  ghost predicate HasNode(m: map<Bytes, Bytes>, c: Bytes) {
    c == [] || c in m || Parts(m, c)
  }

  /** The keys from q on agree up to c, where one of them ends or two part. */
  ghost predicate Meets(m: map<Bytes, Bytes>, q: Bytes, c: Bytes) {
    q <= c && (c in m || Parts(m, c)) && forall k :: k in m && q <= k ==> c <= k
  }

  lemma KeyFrom(m: map<Bytes, Bytes>, q: Bytes, c: Bytes) returns (k: Bytes)
    requires Meets(m, q, c)
    ensures k in m && q <= k && c <= k
  {
    if c in m {
      k := c;
    } else {
      var x, y :| PartAt(m, c, x, y);
      k := x;
    }
  }

  lemma SameMeeting(m: map<Bytes, Bytes>, q: Bytes, c: Bytes, d: Bytes)
    requires Meets(m, q, c) && Meets(m, q, d)
    ensures c == d
  {
    var k := KeyFrom(m, q, c);
    NoLonger(m, q, c, d);
    NoLonger(m, q, d, c);
    assert c == k[..|c|] && d == k[..|d|];
  }

  lemma NoLonger(m: map<Bytes, Bytes>, q: Bytes, c: Bytes, d: Bytes)
    requires Meets(m, q, c) && Meets(m, q, d)
    ensures |c| <= |d|
  {
    if d !in m {
      var x, y :| PartAt(m, d, x, y);
      assert c <= x && c <= y;
    }
  }

  /** The node at or below q. */
  ghost function Meeting(m: map<Bytes, Bytes>, q: Bytes): (c: Bytes)
    requires Through(m, q)
    ensures Meets(m, q, c)
  {
    MeetingExists(m, q);
    var c :| Meets(m, q, c);
    c
  }

  lemma Longer(q: Bytes, k: Bytes)
    requires q <= k && q != k
    ensures q < k && |q| < |k|
  {
    assert k[..|q|] == q;
    assert k[..|k|] == k;
  }

  /** As long as all keys agree and none ends, go on. */
  lemma {:induction false} MeetingExists(m: map<Bytes, Bytes>, q: Bytes)
    requires Through(m, q)
    ensures exists c :: Meets(m, q, c)
    decreases Longest(m) - |q|
  {
    var k :| k in m && q <= k;
    LongestIs(m, k);
    if q in m || Parts(m, q) {
      assert Meets(m, q, q);
    } else {
      Longer(q, k);
      var next := q + [k[|q|]];
      forall x | x in m && q <= x ensures next <= x {
        Longer(q, x);
        assert !PartAt(m, q, x, k);
      }
      MeetingExists(m, next);
      var c :| Meets(m, next, c);
      assert Meets(m, q, c);
    }
  }

  /** No key is longer. */
  ghost function Longest(m: map<Bytes, Bytes>): nat {
    KeysAreBounded(m);
    var n: nat :| Bounds(m, n);
    n
  }

  ghost predicate Bounds(m: map<Bytes, Bytes>, n: nat) {
    forall k :: k in m ==> |k| <= n
  }

  lemma LongestIs(m: map<Bytes, Bytes>, k: Bytes)
    requires k in m
    ensures |k| <= Longest(m)
  {
  }

  lemma {:induction false} KeysAreBounded(m: map<Bytes, Bytes>)
    ensures exists n: nat :: Bounds(m, n)
    decreases |m|
  {
    if m == map[] {
      assert Bounds(m, 0);
    } else {
      var x :| x in m;
      var rest := m - {x};
      assert rest.Keys < m.Keys;
      KeysAreBounded(rest);
      var n: nat :| Bounds(rest, n);
      assert Bounds(m, if |x| <= n then n else |x|);
    }
  }

  // ------------------------------------------------------------------- hashes

  /** How much longer than p keys can be. */
  ghost function Room(m: map<Bytes, Bytes>, p: Bytes): nat {
    if |p| <= Longest(m) then Longest(m) - |p| else 0
  }

  lemma MeetingIsCloser(m: map<Bytes, Bytes>, p: Bytes, b: Byte)
    requires Through(m, p + [b])
    ensures Room(m, Meeting(m, p + [b])) < Room(m, p)
  {
    var c := Meeting(m, p + [b]);
    var k := KeyFrom(m, p + [b], c);
    LongestIs(m, k);
  }

  function Concat(parts: seq<Bytes>): Bytes {
    if parts == [] then [] else Concat(parts[..|parts| - 1]) + parts[|parts| - 1]
  }

  /** The hash of the node at p, whose parent is at the first `from` bytes of p; a root with nothing below has none. */
  ghost function HashAt(hasher: Hasher, m: map<Bytes, Bytes>, p: Bytes, from: nat): Bytes
    requires from <= |p|
    decreases Room(m, p), 2
  {
    if p == [] && forall k :: k in m ==> k == [] then []
    else hasher(Lookup(m, p) + p[from..] + Concat(HashesBelow(hasher, m, p)))
  }

  /** The hashes of the nodes below p, by their first bytes. */
  ghost function HashesBelow(hasher: Hasher, m: map<Bytes, Bytes>, p: Bytes): (hs: seq<Bytes>)
    ensures |hs| == 256 && forall b: Byte :: hs[b] == HashUnder(hasher, m, p, b)
    decreases Room(m, p), 1
  {
    seq(256, b requires 0 <= b < 256 => HashUnder(hasher, m, p, b))
  }

  /** Nothing if no key goes on with b. */
  ghost function HashUnder(hasher: Hasher, m: map<Bytes, Bytes>, p: Bytes, b: Byte): Bytes
    decreases Room(m, p), 0
  {
    if Through(m, p + [b]) then
      MeetingIsCloser(m, p, b);
      HashAt(hasher, m, Meeting(m, p + [b]), |p|)
    else []
  }

  /** The length of the longest prefix of key, of at most n bytes, where there is a node. */
  ghost function Stem(m: map<Bytes, Bytes>, key: Bytes, n: nat): (k: nat)
    requires n <= |key|
    ensures k <= n && HasNode(m, key[..k]) && forall i :: k < i <= n ==> !HasNode(m, key[..i])
  {
    if n == 0 || HasNode(m, key[..n]) then n else Stem(m, key, n - 1)
  }

  /** What get_node_hash answers for a trie that stands for m: nothing where there is no node. */
  ghost function HashIn(hasher: Hasher, m: map<Bytes, Bytes>, key: Bytes): Bytes {
    if key == [] then HashAt(hasher, m, key, 0)
    else if HasNode(m, key) then HashAt(hasher, m, key, Stem(m, key, |key| - 1))
    else []
  }

  // ---------------------------------------------------- the nodes of a trie

  /** A live node without a value is the root or stands where two keys part. */
  lemma StoredOrFork(nodes: seq<Node>, path: Paths, n: nat) returns (x: Bytes, y: Bytes)
    requires Shape(nodes, path) && Canonical(nodes, path) && n in path && n != 0 && nodes[n].value == []
    ensures x in Contents(nodes, path) && y in Contents(nodes, path) && path[n] <= x && path[n] <= y
    ensures |path[n]| < |x| && |path[n]| < |y| && x[|path[n]|] != y[|path[n]|]
  {
    assert Needed(nodes[n]);
    var a: Byte, b: Byte :| a != b && nodes[n].children[a] != 0 && nodes[n].children[b] != 0;
    x := KeyThrough(nodes, path, n, a);
    y := KeyThrough(nodes, path, n, b);
  }

  lemma KeyThrough(nodes: seq<Node>, path: Paths, n: nat, b: Byte) returns (k: Bytes)
    requires Shape(nodes, path) && Canonical(nodes, path) && n in path && nodes[n].children[b] != 0
    ensures k in Contents(nodes, path) && path[n] + [b] <= k
  {
    var bound := LengthBound(path);
    assert DownLink(nodes, path, n, b);
    var c := nodes[n].children[b];
    assert UpLink(nodes, path, c);
    var m := StoredBelow(nodes, path, c, bound);
    ContentsAt(nodes, path, m);
    assert path[n] + [b] <= path[c];
    k := path[m];
  }

  lemma NodeIsNeeded(hasher: Hasher, nodes: seq<Node>, path: Paths, m: map<Bytes, Bytes>, n: nat)
    requires Stands(hasher, nodes, path, m) && n in path
    ensures HasNode(m, path[n]) && (n != 0 ==> path[n] in m || Parts(m, path[n]))
  {
    ContentsAt(nodes, path, n);
    if n != 0 && nodes[n].value == [] {
      var x, y := StoredOrFork(nodes, path, n);
      assert PartAt(m, path[n], x, y);
    }
  }

  lemma NeededIsLive(hasher: Hasher, nodes: seq<Node>, path: Paths, m: map<Bytes, Bytes>, c: Bytes) returns (n: nat)
    requires Stands(hasher, nodes, path, m) && HasNode(m, c)
    ensures n in path && path[n] == c
  {
    if c == [] {
      n := 0;
    } else if c in m {
      n := NodeAt(path, c);
    } else {
      var x, y :| PartAt(m, c, x, y);
      n := ForkIsLive(nodes, path, 0, NodeAt(path, x), NodeAt(path, y), |c|);
    }
  }

  /** A child is where the keys through it meet, and is there if there are any. */
  lemma ChildIs(hasher: Hasher, nodes: seq<Node>, path: Paths, m: map<Bytes, Bytes>, n: nat, b: Byte)
    requires Stands(hasher, nodes, path, m) && n in path
    ensures nodes[n].children[b] != 0 <==> Through(m, path[n] + [b])
    ensures var c := nodes[n].children[b];
            c != 0 ==> c in path && path[c] == path[n] + nodes[c].prefix && path[c] == Meeting(m, path[n] + [b])
  {
    var c, q := nodes[n].children[b], path[n] + [b];
    if c != 0 {
      assert DownLink(nodes, path, n, b);
      assert UpLink(nodes, path, c);
      var k := KeyThrough(nodes, path, n, b);
      NodeIsNeeded(hasher, nodes, path, m, c);
      forall k | k in m && q <= k ensures path[c] <= k {
        KeyBelow(hasher, nodes, path, m, n, b, k);
      }
      assert Meets(m, q, path[c]);
      SameMeeting(m, q, path[c], Meeting(m, q));
    } else if Through(m, q) {
      var k :| k in m && q <= k;
      KeyBelow(hasher, nodes, path, m, n, b, k);
    }
  }

  lemma KeyBelow(hasher: Hasher, nodes: seq<Node>, path: Paths, m: map<Bytes, Bytes>, n: nat, b: Byte, k: Bytes)
    requires Stands(hasher, nodes, path, m) && n in path && k in m && path[n] + [b] <= k
    ensures var c := nodes[n].children[b]; c != 0 && c in path && path[c] <= k
  {
    assert k[|path[n]|] == (path[n] + [b])[|path[n]|] == b;
    assert path[n] == (path[n] + [b])[..|path[n]|] == k[..|path[n]|];
    Descend(nodes, path, n, NodeAt(path, k));
  }

  /** The hash kept in a node is the one that the map gives. */
  lemma {:induction false} HashIs(hasher: Hasher, nodes: seq<Node>, path: Paths, m: map<Bytes, Bytes>, n: nat)
    requires Stands(hasher, nodes, path, m) && n in path
    ensures |nodes[n].prefix| <= |path[n]|
    ensures nodes[n].hash == HashAt(hasher, m, path[n], |path[n]| - |nodes[n].prefix|)
    decreases Room(m, path[n])
  {
    PrefixIs(nodes, path, n);
    ContentsAt(nodes, path, n);
    forall b: Byte
      ensures HashOf(nodes, nodes[n].children[b]) == HashUnder(hasher, m, path[n], b)
    {
      ChildIs(hasher, nodes, path, m, n, b);
      if nodes[n].children[b] != 0 {
        MeetingIsCloser(m, path[n], b);
        HashIs(hasher, nodes, path, m, nodes[n].children[b]);
      }
    }
    var hs := HashesBelow(hasher, m, path[n]);
    HashesAre(nodes, nodes[n].children, hs, 256);
    assert hs[..256] == hs;
    BareRoot(hasher, nodes, path, m);
    assert HashOk(hasher, nodes, n);
  }

  lemma PrefixIs(nodes: seq<Node>, path: Paths, n: nat)
    requires Shape(nodes, path) && n in path
    ensures |nodes[n].prefix| <= |path[n]| && path[n][|path[n]| - |nodes[n].prefix|..] == nodes[n].prefix
    ensures path[n] == [] <==> n == 0
  {
    EmptyPath(nodes, path, n);
    if n != 0 {
      assert UpLink(nodes, path, n);
    }
  }

  lemma {:induction false} HashesAre(nodes: seq<Node>, kids: Slots, hs: seq<Bytes>, k: nat)
    requires k <= 256 == |hs| && forall b: Byte :: HashOf(nodes, kids[b]) == hs[b]
    ensures ChildHashes(nodes, kids, k) == Concat(hs[..k])
  {
    if k > 0 {
      HashesAre(nodes, kids, hs, k - 1);
      var b: Byte := k - 1;
      assert HashOf(nodes, kids[b]) == hs[b];
      assert hs[..k][..k - 1] == hs[..k - 1];
    }
  }

  lemma BareRoot(hasher: Hasher, nodes: seq<Node>, path: Paths, m: map<Bytes, Bytes>)
    requires Stands(hasher, nodes, path, m)
    ensures HasChildren(nodes[0]) <==> exists k :: k in m && k != []
  {
    if HasChildren(nodes[0]) {
      var b: Byte :| nodes[0].children[b] != 0;
      var k := KeyThrough(nodes, path, 0, b);
      assert k != [];
    }
    if k :| k in m && k != [] {
      assert [] + [k[0]] <= k;
      KeyBelow(hasher, nodes, path, m, 0, k[0], k);
    }
  }

  /** And the one that get_node_hash finds. */
  lemma HashInIs(hasher: Hasher, nodes: seq<Node>, path: Paths, m: map<Bytes, Bytes>, key: Bytes)
    requires Stands(hasher, nodes, path, m)
    ensures forall n :: n in path && path[n] == key ==> HashIn(hasher, m, key) == nodes[n].hash
    ensures (forall n :: n in path ==> path[n] != key) ==> HashIn(hasher, m, key) == []
  {
    forall n | n in path && path[n] == key ensures HashIn(hasher, m, key) == nodes[n].hash {
      NodeIsNeeded(hasher, nodes, path, m, n);
      HashIs(hasher, nodes, path, m, n);
      PrefixIs(nodes, path, n);
      if n != 0 {
        StemIs(hasher, nodes, path, m, n);
      }
    }
    if HasNode(m, key) {
      var n := NeededIsLive(hasher, nodes, path, m, key);
    }
  }

  lemma StemIs(hasher: Hasher, nodes: seq<Node>, path: Paths, m: map<Bytes, Bytes>, n: nat)
    requires Stands(hasher, nodes, path, m) && n in path && path[n] != []
    ensures Stem(m, path[n], |path[n]| - 1) == |path[n]| - |nodes[n].prefix|
  {
    EmptyPath(nodes, path, n);
    assert UpLink(nodes, path, n);
    var key, p := path[n], nodes[n].parent;
    var k := Stem(m, key, |key| - 1);
    NodeIsNeeded(hasher, nodes, path, m, p);
    assert key[..|path[p]|] == path[p];
    var x := NeededIsLive(hasher, nodes, path, m, key[..k]);
    AncestorOfParent(nodes, path, x, n);
  }

  /**
    History independence: the hash of the root, and of any node that can be asked for, is
    determined by the contents, whatever sequence of operations built the two tries.
   */
  lemma HashDeterminedByContents(hasher: Hasher, nodes: seq<Node>, path: Paths, nodes': seq<Node>, path': Paths,
                                 n: nat, n': nat)
    requires Shape(nodes, path) && Canonical(nodes, path) && Hashed(hasher, nodes, path) && n in path
    requires Shape(nodes', path') && Canonical(nodes', path') && Hashed(hasher, nodes', path') && n' in path'
    requires Contents(nodes, path) == Contents(nodes', path') && path[n] == path'[n']
    ensures nodes[n].hash == nodes'[n'].hash
  {
    var m := Contents(nodes, path);
    HashInIs(hasher, nodes, path, m, path[n]);
    HashInIs(hasher, nodes', path', m, path[n]);
  }

  // ------------------------------------------------- what a hash is made of

  lemma {:induction false} NoneFrom(hs: seq<Bytes>, j: nat)
    requires j <= |hs| && forall i :: j <= i < |hs| ==> hs[i] == []
    ensures Concat(hs) == Concat(hs[..j])
    decreases |hs|
  {
    if j == |hs| {
      assert hs[..j] == hs;
    } else {
      NoneFrom(hs[..|hs| - 1], j);
      assert hs[..|hs| - 1][..j] == hs[..j];
    }
  }

  lemma UpTo(hs: seq<Bytes>, i: nat)
    requires i < |hs|
    ensures Concat(hs[..i + 1]) == Concat(hs[..i]) + hs[i]
  {
    assert hs[..i + 1][..i] == hs[..i];
  }

  lemma OneOf(hs: seq<Bytes>, i: nat)
    requires i < |hs| && forall x :: 0 <= x < |hs| && x != i ==> hs[x] == []
    ensures Concat(hs) == hs[i]
  {
    NoneFrom(hs, i + 1);
    UpTo(hs, i);
    NoneFrom(hs[..i], 0);
    assert hs[..i][..0] == [];
  }

  lemma TwoOf(hs: seq<Bytes>, i: nat, j: nat)
    requires i < j < |hs| && forall x :: 0 <= x < |hs| && x != i && x != j ==> hs[x] == []
    ensures Concat(hs) == hs[i] + hs[j]
  {
    NoneFrom(hs, j + 1);
    UpTo(hs, j);
    OneOf(hs[..j], i);
  }

  /** A key with nothing below it. */
  lemma LeafHash(hasher: Hasher, m: map<Bytes, Bytes>, k: Bytes, from: nat)
    requires k in m && k != [] && from <= |k| && forall x :: x in m && k <= x ==> x == k
    ensures HashAt(hasher, m, k, from) == hasher(m[k] + k[from..])
  {
    forall b: Byte ensures !Through(m, k + [b]) {
      forall x | x in m ensures !(k + [b] <= x) {
        assert k + [b] <= x ==> k <= x && |x| > |k|;
      }
    }
    var hs := HashesBelow(hasher, m, k);
    NoneFrom(hs, 0);
    assert hs[..0] == [];
    assert m[k] + k[from..] + [] == m[k] + k[from..];
  }

  /** The keys through p and b are just this one. */
  lemma LoneKey(m: map<Bytes, Bytes>, p: Bytes, k: Bytes)
    requires k in m && p < k && forall x :: x in m && p + [k[|p|]] <= x ==> x == k
    ensures Through(m, p + [k[|p|]]) && Meeting(m, p + [k[|p|]]) == k
    ensures forall x :: x in m && k <= x ==> x == k
  {
    var q := p + [k[|p|]];
    assert q <= k;
    assert Meets(m, q, k);
    SameMeeting(m, q, k, Meeting(m, q));
    forall x | x in m && k <= x ensures x == k {
      assert q <= x;
    }
  }

  lemma UnderIsLeaf(hasher: Hasher, m: map<Bytes, Bytes>, p: Bytes, k: Bytes)
    requires k in m && p < k && forall x :: x in m && p + [k[|p|]] <= x ==> x == k
    ensures Through(m, p + [k[|p|]]) && HashUnder(hasher, m, p, k[|p|]) == hasher(m[k] + k[|p|..])
  {
    LoneKey(m, p, k);
    LeafHash(hasher, m, k, |p|);
  }

  /** All keys go through one child of the root. */
  lemma OnlyChild(hasher: Hasher, m: map<Bytes, Bytes>, c: Bytes)
    requires c != [] && (c in m || Parts(m, c)) && forall k :: k in m ==> c <= k
    ensures HashIn(hasher, m, []) == hasher(HashAt(hasher, m, c, 0))
  {
    var root: Bytes, b := [], c[0];
    var q := root + [b];
    var k := KeyFrom(m, c, c);
    assert q <= c && q <= k;
    assert Meets(m, q, c);
    SameMeeting(m, q, c, Meeting(m, q));
    forall x: Byte | x != b ensures !Through(m, root + [x]) {
    }
    OneOf(HashesBelow(hasher, m, root), b);
    assert k != [] && Lookup(m, root) == [] && root[0..] == [];
    assert root + root + HashUnder(hasher, m, root, b) == HashUnder(hasher, m, root, b);
  }

  /** One key: the hash of the root is the hash of the hash of value and key. */
  lemma OneKeyHash(hasher: Hasher, k: Bytes, v: Bytes)
    requires k != []
    ensures HashIn(hasher, map[k := v], []) == hasher(hasher(v + k))
  {
    var m := map[k := v];
    LeafHash(hasher, m, k, 0);
    OnlyChild(hasher, m, k);
    assert k[0..] == k;
  }

  /** Where two keys part, with nothing else below. */
  lemma ForkHash(hasher: Hasher, m: map<Bytes, Bytes>, c: Bytes, a: Bytes, b: Bytes, from: nat)
    requires m.Keys == {a, b} && c < a && c < b && a[|c|] < b[|c|] && from <= |c|
    ensures HashAt(hasher, m, c, from) == hasher(c[from..] + hasher(m[a] + a[|c|..]) + hasher(m[b] + b[|c|..]))
  {
    forall k | k in m ensures k == a || k == b {
      assert k in m.Keys;
    }
    assert a in m.Keys && b in m.Keys;
    Diverge(c, a, b);
    Diverge(c, b, a);
    UnderIsLeaf(hasher, m, c, a);
    UnderIsLeaf(hasher, m, c, b);
    forall x: Byte | x != a[|c|] && x != b[|c|] ensures !Through(m, c + [x]) {
      Diverge(c, c + [x], a);
      Diverge(c, c + [x], b);
    }
    TwoOf(HashesBelow(hasher, m, c), a[|c|], b[|c|]);
    var h, g := hasher(m[a] + a[|c|..]), hasher(m[b] + b[|c|..]);
    assert a != [] && Lookup(m, c) == [];
    assert [] + c[from..] + (h + g) == c[from..] + h + g;
  }

  lemma Diverge(c: Bytes, a: Bytes, b: Bytes)
    requires c < a && c < b && a[|c|] != b[|c|]
    ensures !(c + [a[|c|]] <= b)
  {
    assert (c + [a[|c|]])[|c|] == a[|c|];
  }

  /** Two keys that part after c, in the order of the bytes where they do. */
  lemma TwoKeysHash(hasher: Hasher, c: Bytes, a: Bytes, va: Bytes, b: Bytes, vb: Bytes)
    requires c < a && c < b && a[|c|] < b[|c|]
    ensures var fork := hasher(c + hasher(va + a[|c|..]) + hasher(vb + b[|c|..]));
            HashIn(hasher, map[a := va, b := vb], []) == if c == [] then fork else hasher(fork)
  {
    var m := map[a := va, b := vb];
    ForkHash(hasher, m, c, a, b, 0);
    assert c[0..] == c;
    if c != [] {
      assert PartAt(m, c, a, b);
      OnlyChild(hasher, m, c);
    }
  }

  /** Two keys, one of which continues the other. */
  lemma NestedKeysHash(hasher: Hasher, a: Bytes, va: Bytes, b: Bytes, vb: Bytes)
    requires [] < a < b
    ensures HashIn(hasher, map[a := va, b := vb], []) == hasher(hasher(va + a + hasher(vb + b[|a|..])))
  {
    var m := map[a := va, b := vb];
    UnderIsLeaf(hasher, m, a, b);
    forall x: Byte | x != b[|a|] ensures !Through(m, a + [x]) {
      Diverge(a, a + [x], b);
    }
    OneOf(HashesBelow(hasher, m, a), b[|a|]);
    assert a[0..] == a;
    OnlyChild(hasher, m, a);
  }

  // ---------------------------------------------------- what a hash tells

  ghost predicate Injective(hasher: Hasher) {
    forall x, y :: hasher(x) == hasher(y) ==> x == y
  }

  ghost predicate Fixed(hasher: Hasher, size: nat) {
    forall x :: |hasher(x)| == size
  }

  /** Where nodes are depends on the keys alone. */
  lemma SameNodes(m: map<Bytes, Bytes>, m': map<Bytes, Bytes>, q: Bytes)
    requires m.Keys == m'.Keys
    ensures Through(m, q) <==> Through(m', q)
    ensures Through(m, q) ==> Meeting(m, q) == Meeting(m', q)
  {
    forall k ensures k in m <==> k in m' {
      assert k in m.Keys <==> k in m'.Keys;
    }
    if Through(m, q) {
      MeetsToo(m', m, q, Meeting(m', q));
      SameMeeting(m, q, Meeting(m, q), Meeting(m', q));
    }
  }

  lemma MeetsToo(m: map<Bytes, Bytes>, m': map<Bytes, Bytes>, q: Bytes, c: Bytes)
    requires Meets(m, q, c) && forall k :: k in m <==> k in m'
    ensures Meets(m', q, c)
  {
    if c !in m {
      var x, y :| PartAt(m, c, x, y);
      assert PartAt(m', c, x, y);
    }
  }

  lemma UnderLength(hasher: Hasher, size: nat, m: map<Bytes, Bytes>, p: Bytes, b: Byte)
    requires Fixed(hasher, size)
    ensures |HashUnder(hasher, m, p, b)| == if Through(m, p + [b]) then size else 0
  {
  }

  lemma SameUnder(hasher: Hasher, size: nat, m: map<Bytes, Bytes>, m': map<Bytes, Bytes>, p: Bytes, b: Byte)
    requires Fixed(hasher, size) && m.Keys == m'.Keys
    ensures |HashUnder(hasher, m, p, b)| == |HashUnder(hasher, m', p, b)|
  {
    SameNodes(m, m', p + [b]);
    UnderLength(hasher, size, m, p, b);
    UnderLength(hasher, size, m', p, b);
  }

  lemma {:induction false} ConcatLength(hs: seq<Bytes>, hs': seq<Bytes>)
    requires |hs| == |hs'| && forall i :: 0 <= i < |hs| ==> |hs[i]| == |hs'[i]|
    ensures |Concat(hs)| == |Concat(hs')|
  {
    if hs != [] {
      ConcatLength(hs[..|hs| - 1], hs'[..|hs| - 1]);
    }
  }

  /** Equal hashes side by side are equal one by one. */
  lemma {:induction false} ConcatSplits(hs: seq<Bytes>, hs': seq<Bytes>)
    requires |hs| == |hs'| && (forall i :: 0 <= i < |hs| ==> |hs[i]| == |hs'[i]|) && Concat(hs) == Concat(hs')
    ensures hs == hs'
  {
    if hs != [] {
      var n := |hs| - 1;
      ConcatLength(hs[..n], hs'[..n]);
      Halves(Concat(hs[..n]), hs[n], Concat(hs'[..n]), hs'[n]);
      ConcatSplits(hs[..n], hs'[..n]);
      assert hs == hs[..n] + [hs[n]] && hs' == hs'[..n] + [hs'[n]];
    }
  }

  lemma BelowLengths(hasher: Hasher, size: nat, m: map<Bytes, Bytes>, m': map<Bytes, Bytes>, p: Bytes)
    requires Fixed(hasher, size) && m.Keys == m'.Keys
    ensures forall b: Byte :: |HashesBelow(hasher, m, p)[b]| == |HashesBelow(hasher, m', p)[b]|
  {
    forall b: Byte ensures |HashesBelow(hasher, m, p)[b]| == |HashesBelow(hasher, m', p)[b]| {
      SameUnder(hasher, size, m, m', p, b);
    }
  }

  lemma Halves(a: Bytes, b: Bytes, a': Bytes, b': Bytes)
    requires a + b == a' + b' && (|a| == |a'| || |b| == |b'|)
    ensures a == a' && b == b'
  {
    assert a == (a + b)[..|a|] && a' == (a' + b')[..|a'|];
    assert b == (a + b)[|a|..] && b' == (a' + b')[|a'|..];
  }

  /** Equal hashes of a node mean equal values there, and equal hashes below. */
  lemma NodeBinds(hasher: Hasher, size: nat, m: map<Bytes, Bytes>, m': map<Bytes, Bytes>, p: Bytes, from: nat, k: Bytes)
    requires Injective(hasher) && Fixed(hasher, size) && m.Keys == m'.Keys && k in m && k in m' && k != []
    requires from <= |p| && HashAt(hasher, m, p, from) == HashAt(hasher, m', p, from)
    ensures Lookup(m, p) == Lookup(m', p) && forall b: Byte :: HashUnder(hasher, m, p, b) == HashUnder(hasher, m', p, b)
  {
    var hs, hs' := HashesBelow(hasher, m, p), HashesBelow(hasher, m', p);
    BelowLengths(hasher, size, m, m', p);
    ConcatLength(hs, hs');
    Halves(Lookup(m, p) + p[from..], Concat(hs), Lookup(m', p) + p[from..], Concat(hs'));
    Halves(Lookup(m, p), p[from..], Lookup(m', p), p[from..]);
    ConcatSplits(hs, hs');
    forall b: Byte ensures HashUnder(hasher, m, p, b) == HashUnder(hasher, m', p, b) {
      assert hs[b] == hs'[b];
    }
  }

  /** ... and so equal values from there on. */
  lemma {:induction false} HashBinds(hasher: Hasher, size: nat, m: map<Bytes, Bytes>, m': map<Bytes, Bytes>, p: Bytes,
                                     from: nat, k: Bytes)
    requires Injective(hasher) && Fixed(hasher, size) && m.Keys == m'.Keys && k in m && k in m' && p <= k && k != []
    requires from <= |p| && HashAt(hasher, m, p, from) == HashAt(hasher, m', p, from)
    ensures Lookup(m, p) == Lookup(m', p) && m[k] == m'[k]
    decreases Room(m, p)
  {
    NodeBinds(hasher, size, m, m', p, from, k);
    if k != p {
      Longer(p, k);
      var b := k[|p|];
      assert p + [b] <= k;
      SameNodes(m, m', p + [b]);
      MeetingIsCloser(m, p, b);
      assert HashUnder(hasher, m, p, b) == HashUnder(hasher, m', p, b);
      HashBinds(hasher, size, m, m', Meeting(m, p + [b]), |p|, k);
    }
  }

  /**
    With an injective hash of fixed length, the root hash of tries with the same keys tells their
    contents apart, unless they hold nothing but a value for the empty key.
   */
  lemma RootTellsContents(hasher: Hasher, size: nat, nodes: seq<Node>, path: Paths, nodes': seq<Node>, path': Paths)
    requires Shape(nodes, path) && Canonical(nodes, path) && Hashed(hasher, nodes, path)
    requires Shape(nodes', path') && Canonical(nodes', path') && Hashed(hasher, nodes', path')
    requires Injective(hasher) && Fixed(hasher, size) && Contents(nodes, path).Keys == Contents(nodes', path').Keys
    ensures nodes[0].hash == nodes'[0].hash <==>
            Contents(nodes, path) == Contents(nodes', path') || forall k :: k in Contents(nodes, path) ==> k == []
  {
    var m, m' := Contents(nodes, path), Contents(nodes', path');
    HashInIs(hasher, nodes, path, m, []);
    HashInIs(hasher, nodes', path', m', []);
    forall k ensures k in m <==> k in m' {
      assert k in m.Keys <==> k in m'.Keys;
    }
    if nodes[0].hash == nodes'[0].hash {
      if k :| k in m && k != [] {
        RootBinds(hasher, size, m, m', k);
      }
    }
  }

  lemma RootBinds(hasher: Hasher, size: nat, m: map<Bytes, Bytes>, m': map<Bytes, Bytes>, k: Bytes)
    requires Injective(hasher) && Fixed(hasher, size) && m.Keys == m'.Keys && k in m && k != []
    requires HashIn(hasher, m, []) == HashIn(hasher, m', [])
    ensures m == m'
  {
    assert k in m'.Keys;
    HashBinds(hasher, size, m, m', [], 0, k);
    forall x | x in m ensures x in m' && m[x] == m'[x] {
      assert x in m'.Keys;
      if x != [] {
        HashBinds(hasher, size, m, m', [], 0, x);
      }
    }
  }

  /** A new value for one key, not the empty one, means a new root hash. */
  lemma OneValueChanged(hasher: Hasher, size: nat, m: map<Bytes, Bytes>, k: Bytes, v: Bytes)
    requires Injective(hasher) && Fixed(hasher, size) && k in m && k != [] && v != m[k]
    ensures HashIn(hasher, m[k := v], []) != HashIn(hasher, m, [])
  {
    if HashIn(hasher, m[k := v], []) == HashIn(hasher, m, []) {
      RootBinds(hasher, size, m[k := v], m, k);
    }
  }

  /** Tries with different keys need not be told apart: a hash does not show where a value ends. */
  lemma SameKeysNeeded(hasher: Hasher) returns (m: map<Bytes, Bytes>, m': map<Bytes, Bytes>)
    ensures m != m' && HashIn(hasher, m, []) == HashIn(hasher, m', [])
  {
    m, m' := map[[1, 2] := [3]], map[[2] := [3, 1]];
    OneKeyHash(hasher, [1, 2], [3]);
    OneKeyHash(hasher, [2], [3, 1]);
    assert [3] + [1, 2] == [3, 1] + [2];
    assert [1, 2] in m && [1, 2] !in m';
  }
}
