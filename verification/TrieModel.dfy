/**
  The node vector of the Merkle radix trie, seen as a value.

  A ghost map `path` names, for every live slot of the vector, the absolute key that leads to
  it.  With it every structural invariant is local: it speaks of one node and its neighbours.
 */
module TrieModel {
  import opened Octets

  /** The 256 child slots of a node; 0 means "no child", since the root is nobody's child. */
  type Slots = s: seq<nat> | |s| == 256 witness seq(256, _ => 0)

  function NoChildren(): (s: Slots)
    ensures forall b: Byte :: s[b] == 0
  {
    seq(256, _ => 0)
  }

  datatype Node = Node(parent: nat, prefix: Bytes, hash: Bytes, value: Bytes, children: Slots)

  function Blank(): Node {
    Node(0, [], [], [], NoChildren())
  }

  type Paths = map<nat, Bytes>
  type Backups = map<nat, Node>
  type Hasher = Bytes -> Bytes

  // ------------------------------------------------------------------ shape

  ghost predicate UpLink(nodes: seq<Node>, path: Paths, n: nat)
    requires n < |nodes| && n in path
  {
    var p := nodes[n].parent;
    && p < |nodes| && p in path
    && nodes[n].prefix != []
    && path[n] == path[p] + nodes[n].prefix
    && nodes[p].children[nodes[n].prefix[0]] == n
  }

  ghost predicate DownLink(nodes: seq<Node>, path: Paths, n: nat, b: Byte)
    requires n < |nodes|
  {
    var c := nodes[n].children[b];
    c != 0 ==>
      && c < |nodes| && c in path
      && nodes[c].parent == n
      && nodes[c].prefix != [] && nodes[c].prefix[0] == b
  }

  /** Parent and child links agree, and the live slots are exactly the domain of `path`. */
  ghost predicate Shape(nodes: seq<Node>, path: Paths)
  {
    && 0 in path && path[0] == []
    && (forall n :: n in path ==> n < |nodes|)
    && nodes[0].prefix == [] && nodes[0].parent == 0
    && (forall n {:trigger UpLink(nodes, path, n)} :: n in path && n != 0 ==> UpLink(nodes, path, n))
    && (forall n, b: Byte {:trigger DownLink(nodes, path, n, b)} :: n in path ==> DownLink(nodes, path, n, b))
  }

  /** The root is the only live slot with the empty path. */
  lemma EmptyPath(nodes: seq<Node>, path: Paths, n: nat)
    requires Shape(nodes, path) && n in path
    ensures path[n] == [] <==> n == 0
  {
    if n != 0 {
      assert UpLink(nodes, path, n);
    }
  }

  /**
    Live paths ordered by prefix are ancestors: from n, the slot selected by the next byte of
    the path of m leads to a node that is still on the way to m.
   */
  lemma {:induction false} Descend(nodes: seq<Node>, path: Paths, n: nat, m: nat)
    requires Shape(nodes, path) && n in path && m in path && path[n] <= path[m]
    ensures n == m || (|path[n]| < |path[m]| &&
                       var c := nodes[n].children[path[m][|path[n]|]];
                       c != 0 && c in path && path[c] <= path[m])
    decreases |path[n]| + |path[m]|
  {
    EmptyPath(nodes, path, n);
    EmptyPath(nodes, path, m);
    if m != 0 {
      assert UpLink(nodes, path, m);
      var p := nodes[m].parent;
      if |path[n]| <= |path[p]| {
        Descend(nodes, path, n, p);
      } else {
        Descend(nodes, path, p, n);
        if path[n] == path[m] {
          SamePath(nodes, path, n, m);
        }
      }
    }
  }

  /** A path names at most one live slot. */
  lemma {:induction false} SamePath(nodes: seq<Node>, path: Paths, n: nat, m: nat)
    requires Shape(nodes, path) && n in path && m in path && path[n] == path[m]
    ensures n == m
    decreases |path[n]| + |path[m]|, 0
  {
    EmptyPath(nodes, path, n);
    EmptyPath(nodes, path, m);
    if n != 0 {
      assert UpLink(nodes, path, n) && UpLink(nodes, path, m);
      var p, q := nodes[n].parent, nodes[m].parent;
      assert path[p] == path[n][..|path[p]|] && path[q] == path[n][..|path[q]|];
      if |path[p]| <= |path[q]| {
        Descend(nodes, path, p, q);
      } else {
        Descend(nodes, path, q, p);
      }
    }
  }

  /** Between a node and its parent there is no other live path. */
  lemma AncestorOfParent(nodes: seq<Node>, path: Paths, n: nat, m: nat)
    requires Shape(nodes, path) && n in path && m in path && path[n] <= path[m] && n != m
    ensures m != 0 && UpLink(nodes, path, m) && path[n] <= path[nodes[m].parent]
  {
    EmptyPath(nodes, path, m);
    EmptyPath(nodes, path, n);
    Descend(nodes, path, n, m);
    assert UpLink(nodes, path, m);
    var p := nodes[m].parent;
    if |path[p]| < |path[n]| {
      Descend(nodes, path, p, n);
    }
  }

  // --------------------------------------------------------------- contents

  ghost function NodeAt(path: Paths, k: Bytes): (n: nat)
    requires k in path.Values
    ensures n in path && path[n] == k
  {
    var n :| n in path && path[n] == k;
    n
  }

  /** The key-to-value map a trie stands for: live slots with a non-empty value. */
  ghost function Contents(nodes: seq<Node>, path: Paths): map<Bytes, Bytes>
    requires forall n :: n in path ==> n < |nodes|
  {
    map k | k in path.Values && nodes[NodeAt(path, k)].value != [] :: nodes[NodeAt(path, k)].value
  }

  ghost function Lookup(m: map<Bytes, Bytes>, k: Bytes): Bytes {
    if k in m then m[k] else []
  }

  /** Contents read off a node rather than off a key. */
  lemma ContentsAt(nodes: seq<Node>, path: Paths, n: nat)
    requires Shape(nodes, path) && n in path
    ensures Lookup(Contents(nodes, path), path[n]) == nodes[n].value
    ensures path[n] in Contents(nodes, path) <==> nodes[n].value != []
  {
    assert path[n] in path.Values;
    SamePath(nodes, path, n, NodeAt(path, path[n]));
  }

  /** A map that agrees with every live node, and has no key of its own, is the contents. */
  lemma ContentsAre(nodes: seq<Node>, path: Paths, m: map<Bytes, Bytes>)
    requires Shape(nodes, path)
    requires forall n :: n in path ==> Lookup(m, path[n]) == nodes[n].value
    requires forall k :: k in m ==> m[k] != [] && k in path.Values
    ensures Contents(nodes, path) == m
  {
    var c := Contents(nodes, path);
    forall k | k in c ensures k in m && c[k] == m[k] {
      ContentsAt(nodes, path, NodeAt(path, k));
    }
    forall k | k in m ensures k in c {
      ContentsAt(nodes, path, NodeAt(path, k));
    }
  }

  // -------------------------------------------------- canonical form, hashes

  predicate HasChildren(nd: Node) {
    exists b: Byte :: nd.children[b] != 0
  }

  predicate TwoChildren(nd: Node) {
    exists a: Byte, b: Byte :: a != b && nd.children[a] != 0 && nd.children[b] != 0
  }

  ghost predicate Needed(nd: Node) {
    nd.value != [] || TwoChildren(nd)
  }

  /** No slot but the root is there without a value or a fork to justify it. */
  ghost predicate Canonical(nodes: seq<Node>, path: Paths)
    requires forall n :: n in path ==> n < |nodes|
  {
    forall n {:trigger Needed(nodes[n])} :: n in path && n != 0 ==> Needed(nodes[n])
  }

  function HashOf(nodes: seq<Node>, c: nat): Bytes {
    if c == 0 || c >= |nodes| then [] else nodes[c].hash
  }

  /** The hashes of the children in the slots below k, in byte order. */
  function ChildHashes(nodes: seq<Node>, kids: Slots, k: nat): Bytes
    requires k <= 256
  {
    if k == 0 then [] else ChildHashes(nodes, kids, k - 1) + HashOf(nodes, kids[k - 1])
  }

  /** What a node's hash field should hold. */
  ghost function Digest(hasher: Hasher, nodes: seq<Node>, n: nat): Bytes
    requires n < |nodes|
  {
    var nd := nodes[n];
    if n == 0 && !HasChildren(nd) then []
    else hasher(nd.value + nd.prefix + ChildHashes(nodes, nd.children, 256))
  }

  ghost predicate HashOk(hasher: Hasher, nodes: seq<Node>, n: nat)
    requires n < |nodes|
  {
    nodes[n].hash == Digest(hasher, nodes, n)
  }

  ghost predicate Hashed(hasher: Hasher, nodes: seq<Node>, path: Paths)
    requires forall n :: n in path ==> n < |nodes|
  {
    forall n {:trigger HashOk(hasher, nodes, n)} :: n in path ==> HashOk(hasher, nodes, n)
  }

  /** A well-formed, canonical and correctly hashed trie for the map m. */
  ghost predicate Stands(hasher: Hasher, nodes: seq<Node>, path: Paths, m: map<Bytes, Bytes>) {
    && Shape(nodes, path) && Contents(nodes, path) == m
    && Canonical(nodes, path) && Hashed(hasher, nodes, path)
  }

  // ----------------------------------------------------- history independence

  lemma {:induction false} LengthBound(path: Paths) returns (bound: nat)
    ensures forall n :: n in path ==> |path[n]| <= bound
    decreases |path|
  {
    if path == map[] {
      bound := 0;
    } else {
      var n :| n in path;
      var rest := path - {n};
      assert rest.Keys < path.Keys;
      bound := LengthBound(rest);
      bound := if |path[n]| <= bound then bound else |path[n]|;
      assert forall m :: m in path && m != n ==> m in rest && rest[m] == path[m];
    }
  }

  /** Below every live slot but the root some key is stored. */
  lemma {:induction false} StoredBelow(nodes: seq<Node>, path: Paths, n: nat, bound: nat) returns (m: nat)
    requires Shape(nodes, path) && Canonical(nodes, path) && n in path && n != 0
    requires forall x :: x in path ==> |path[x]| <= bound
    ensures m in path && path[n] <= path[m] && nodes[m].value != []
    decreases bound - |path[n]|
  {
    m := n;
    if nodes[n].value == [] {
      assert Needed(nodes[n]);
      var b: Byte :| nodes[n].children[b] != 0;
      assert DownLink(nodes, path, n, b);
      var c := nodes[n].children[b];
      assert UpLink(nodes, path, c);
      m := StoredBelow(nodes, path, c, bound);
    }
  }

  /** Where two live paths part company there is a live slot. */
  lemma {:induction false} ForkIsLive(nodes: seq<Node>, path: Paths, n: nat, x: nat, y: nat, k: nat) returns (f: nat)
    requires Shape(nodes, path) && n in path && x in path && y in path
    requires k < |path[x]| && k < |path[y]| && path[x][..k] == path[y][..k] && path[x][k] != path[y][k]
    requires path[n] <= path[x][..k]
    ensures f in path && path[f] == path[x][..k]
    decreases k - |path[n]|
  {
    if |path[n]| == k {
      f := n;
    } else {
      var b := path[x][..k][|path[n]|];
      assert b == path[x][|path[n]|] == path[y][|path[n]|];
      assert path[n] <= path[y] by { assert path[n] <= path[y][..k]; }
      Descend(nodes, path, n, x);
      Descend(nodes, path, n, y);
      var c := nodes[n].children[b];
      assert UpLink(nodes, path, c) && DownLink(nodes, path, n, b);
      assert |path[c]| <= k;
      assert path[c] <= path[x][..k];
      f := ForkIsLive(nodes, path, c, x, y, k);
    }
  }

  /** Two canonical tries with equal contents have the same live paths. */
  lemma SameLivePaths(nodes: seq<Node>, path: Paths, nodes': seq<Node>, path': Paths, n: nat) returns (n': nat)
    requires Shape(nodes, path) && Canonical(nodes, path) && n in path
    requires Shape(nodes', path') && Canonical(nodes', path')
    requires Contents(nodes, path) == Contents(nodes', path')
    ensures n' in path' && path'[n'] == path[n]
  {
    if n == 0 {
      n' := 0;
    } else if nodes[n].value != [] {
      n' := SameStored(nodes, path, nodes', path', n);
    } else {
      assert Needed(nodes[n]);
      var a: Byte, b: Byte :| a != b && nodes[n].children[a] != 0 && nodes[n].children[b] != 0;
      var x' := StoredThrough(nodes, path, nodes', path', n, a);
      var y' := StoredThrough(nodes, path, nodes', path', n, b);
      assert path'[x'][..|path[n]|] == path[n] == path'[y'][..|path[n]|];
      n' := ForkIsLive(nodes', path', 0, x', y', |path[n]|);
    }
  }

  /** A key stored behind child b of n is a live path of any trie with the same contents. */
  lemma StoredThrough(nodes: seq<Node>, path: Paths, nodes': seq<Node>, path': Paths, n: nat, b: Byte) returns (x': nat)
    requires Shape(nodes, path) && Canonical(nodes, path) && n in path && nodes[n].children[b] != 0
    requires Shape(nodes', path') && Contents(nodes, path) == Contents(nodes', path')
    ensures x' in path' && path[n] + [b] <= path'[x']
  {
    var bound := LengthBound(path);
    assert DownLink(nodes, path, n, b);
    var c := nodes[n].children[b];
    assert UpLink(nodes, path, c);
    var x := StoredBelow(nodes, path, c, bound);
    x' := SameStored(nodes, path, nodes', path', x);
    assert path[n] + [b] <= path[c];
  }

  lemma SameStored(nodes: seq<Node>, path: Paths, nodes': seq<Node>, path': Paths, n: nat) returns (n': nat)
    requires Shape(nodes, path) && n in path && nodes[n].value != []
    requires Shape(nodes', path') && Contents(nodes, path) == Contents(nodes', path')
    ensures n' in path' && path'[n'] == path[n]
  {
    ContentsAt(nodes, path, n);
    assert path[n] in Contents(nodes', path');
    n' := NodeAt(path', path[n]);
  }

  lemma {:induction false} SameChildHashes(nodes: seq<Node>, kids: Slots, nodes': seq<Node>, kids': Slots, k: nat)
    requires k <= 256
    requires forall b: Byte :: b < k ==> HashOf(nodes, kids[b]) == HashOf(nodes', kids'[b])
    ensures ChildHashes(nodes, kids, k) == ChildHashes(nodes', kids', k)
  {
    if k != 0 {
      SameChildHashes(nodes, kids, nodes', kids', k - 1);
      var b: Byte := k - 1;
      assert HashOf(nodes, kids[b]) == HashOf(nodes', kids'[b]);
    }
  }
}
