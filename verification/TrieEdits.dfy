/**
  The edits that set, erase and delete_node_tree make to the node vector, each as a function of
  the old vector, with what it does to shape, contents, canonical form and hashes.
 */
module TrieEdits {
  import opened Octets
  import opened TrieModel

  /** All hashes are right except, possibly, those of nodes on the way to key `x`. */
  ghost predicate HashedOff(hasher: Hasher, nodes: seq<Node>, path: Paths, x: Bytes)
    requires forall n :: n in path ==> n < |nodes|
  {
    forall n {:trigger HashOk(hasher, nodes, n)} :: n in path && !(path[n] <= x) ==> HashOk(hasher, nodes, n)
  }

  /** Canonical, apart from node x. */
  ghost predicate CanonicalBut(nodes: seq<Node>, path: Paths, x: nat)
    requires forall n :: n in path ==> n < |nodes|
  {
    forall n {:trigger Needed(nodes[n])} :: n in path && n != 0 && n != x ==> Needed(nodes[n])
  }

  lemma HashFrame(hasher: Hasher, nodes: seq<Node>, nodes': seq<Node>, n: nat)
    requires n < |nodes| && n < |nodes'| && nodes[n] == nodes'[n]
    requires forall b: Byte :: HashOf(nodes, nodes[n].children[b]) == HashOf(nodes', nodes[n].children[b])
    ensures HashOk(hasher, nodes, n) <==> HashOk(hasher, nodes', n)
  {
    SameChildHashes(nodes, nodes[n].children, nodes', nodes[n].children, 256);
  }

  // ---------------------------------------------------------------- set value

  function WithValue(nodes: seq<Node>, n: nat, v: Bytes): (r: seq<Node>)
    requires n < |nodes|
  {
    nodes[n := nodes[n].(value := v)]
  }

  /** Storing the empty value is the same as removing the key. */
  ghost function Updated(m: map<Bytes, Bytes>, k: Bytes, v: Bytes): map<Bytes, Bytes> {
    if v == [] then m - {k} else m[k := v]
  }

  lemma SetValue(hasher: Hasher, nodes: seq<Node>, path: Paths, n: nat, v: Bytes)
    requires Shape(nodes, path) && n in path
    ensures var nodes' := WithValue(nodes, n, v);
            && Shape(nodes', path)
            && Contents(nodes', path) == Updated(Contents(nodes, path), path[n], v)
            && (HashedOff(hasher, nodes, path, path[n]) ==> HashedOff(hasher, nodes', path, path[n]))
            && (CanonicalBut(nodes, path, n) ==> CanonicalBut(nodes', path, n))
  {
    var nodes' := WithValue(nodes, n, v);
    SetValueShape(nodes, path, n, v);
    SetValueContents(nodes, path, n, v);
    forall x | x in path && !(path[x] <= path[n]) ensures HashOk(hasher, nodes, x) <==> HashOk(hasher, nodes', x) {
      HashFrame(hasher, nodes, nodes', x);
    }
  }

  lemma SetValueShape(nodes: seq<Node>, path: Paths, n: nat, v: Bytes)
    requires Shape(nodes, path) && n in path
    ensures Shape(WithValue(nodes, n, v), path)
  {
    var nodes' := WithValue(nodes, n, v);
    forall x | x in path && x != 0 ensures UpLink(nodes', path, x) {
      assert UpLink(nodes, path, x);
    }
    forall x, b: Byte | x in path ensures DownLink(nodes', path, x, b) {
      assert DownLink(nodes, path, x, b);
    }
  }

  lemma SetValueContents(nodes: seq<Node>, path: Paths, n: nat, v: Bytes)
    requires Shape(nodes, path) && n in path && Shape(WithValue(nodes, n, v), path)
    ensures Contents(WithValue(nodes, n, v), path) == Updated(Contents(nodes, path), path[n], v)
  {
    var nodes' := WithValue(nodes, n, v);
    var m := Updated(Contents(nodes, path), path[n], v);
    forall x | x in path ensures Lookup(m, path[x]) == nodes'[x].value {
      ContentsAt(nodes, path, x);
      if path[x] == path[n] {
        SamePath(nodes, path, x, n);
      }
    }
    ContentsAre(nodes', path, m);
  }

  // ------------------------------------------------------------------ add leaf

  /** add_node: a blank node in slot r, hung below `from` at byte `to`. */
  function WithLeaf(nodes: seq<Node>, from: nat, to: Byte, r: nat): (r': seq<Node>)
    requires from < |nodes| && r <= |nodes| && r != from
  {
    var leaf := Blank().(parent := from, prefix := [to]);
    var grown := if r == |nodes| then nodes + [leaf] else nodes[r := leaf];
    grown[from := grown[from].(children := grown[from].children[to := r])]
  }

  lemma AddLeaf(hasher: Hasher, nodes: seq<Node>, path: Paths, from: nat, to: Byte, r: nat)
    requires Shape(nodes, path) && from in path && nodes[from].children[to] == 0
    requires r !in path && r <= |nodes|
    ensures var nodes', path' := WithLeaf(nodes, from, to, r), path[r := path[from] + [to]];
            && Shape(nodes', path')
            && Contents(nodes', path') == Contents(nodes, path)
            && (HashedOff(hasher, nodes, path, path[from]) ==> HashedOff(hasher, nodes', path', path'[r]))
            && (CanonicalBut(nodes, path, from) && (from == 0 || nodes[from].value != [] || HasChildren(nodes[from]))
                ==> CanonicalBut(nodes', path', r))
  {
    var nodes', path' := WithLeaf(nodes, from, to, r), path[r := path[from] + [to]];
    AddLeafShape(nodes, path, from, to, r);
    AddLeafContents(nodes, path, from, to, r);
    if HashedOff(hasher, nodes, path, path[from]) {
      AddLeafHashes(hasher, nodes, path, from, to, r);
    }
    if CanonicalBut(nodes, path, from) && (from == 0 || nodes[from].value != [] || HasChildren(nodes[from])) {
      AddLeafCanonical(nodes, path, from, to, r);
    }
  }

  lemma AddLeafContents(nodes: seq<Node>, path: Paths, from: nat, to: Byte, r: nat)
    requires Shape(nodes, path) && from in path && nodes[from].children[to] == 0
    requires r !in path && r <= |nodes|
    requires Shape(WithLeaf(nodes, from, to, r), path[r := path[from] + [to]])
    ensures Contents(WithLeaf(nodes, from, to, r), path[r := path[from] + [to]]) == Contents(nodes, path)
  {
    var nodes', path' := WithLeaf(nodes, from, to, r), path[r := path[from] + [to]];
    var m := Contents(nodes, path);
    forall x | x in path' ensures Lookup(m, path'[x]) == nodes'[x].value {
      if x != r {
        ContentsAt(nodes, path, x);
      } else if path'[r] in m {
        NoSuchPath(nodes, path, from, path'[r], NodeAt(path, path'[r]));
      }
    }
    forall k | k in m ensures m[k] != [] && k in path'.Values {
      assert path'[NodeAt(path, k)] == k;
    }
    ContentsAre(nodes', path', m);
  }

  lemma AddLeafHashes(hasher: Hasher, nodes: seq<Node>, path: Paths, from: nat, to: Byte, r: nat)
    requires Shape(nodes, path) && from in path && r !in path && r <= |nodes|
    requires Shape(WithLeaf(nodes, from, to, r), path[r := path[from] + [to]])
    requires HashedOff(hasher, nodes, path, path[from])
    ensures HashedOff(hasher, WithLeaf(nodes, from, to, r), path[r := path[from] + [to]], path[from] + [to])
  {
    var nodes', path' := WithLeaf(nodes, from, to, r), path[r := path[from] + [to]];
    forall x | x in path' && !(path'[x] <= path'[r]) ensures HashOk(hasher, nodes', x) {
      assert !(path[x] <= path[from]) && HashOk(hasher, nodes, x);
      HashedOffFrame(hasher, nodes, path, nodes', x, path[from]);
    }
  }

  lemma AddLeafCanonical(nodes: seq<Node>, path: Paths, from: nat, to: Byte, r: nat)
    requires Shape(nodes, path) && from in path && nodes[from].children[to] == 0 && r !in path && r <= |nodes|
    requires Shape(WithLeaf(nodes, from, to, r), path[r := path[from] + [to]])
    requires CanonicalBut(nodes, path, from) && (from == 0 || nodes[from].value != [] || HasChildren(nodes[from]))
    ensures CanonicalBut(WithLeaf(nodes, from, to, r), path[r := path[from] + [to]], r)
  {
    var nodes', path' := WithLeaf(nodes, from, to, r), path[r := path[from] + [to]];
    forall x | x in path' && x != 0 && x != r ensures Needed(nodes'[x]) {
      if x != from {
        assert Needed(nodes[x]);
      } else if nodes[from].value == [] {
        var a: Byte :| nodes[from].children[a] != 0;
        assert a != to && nodes'[from].children[a] != 0 && nodes'[from].children[to] != 0;
      }
    }
  }

  /** No live slot lies behind an empty child slot. */
  lemma NoSuchPath(nodes: seq<Node>, path: Paths, from: nat, k: Bytes, y: nat)
    requires Shape(nodes, path) && from in path && y in path
    requires |path[from]| < |k| && path[from] <= k && nodes[from].children[k[|path[from]|]] == 0
    ensures !(k <= path[y])
  {
    if k <= path[y] {
      Descend(nodes, path, from, y);
    }
  }

  /** An untouched node whose children kept their hashes keeps a correct hash. */
  lemma HashedOffFrame(hasher: Hasher, nodes: seq<Node>, path: Paths, nodes': seq<Node>, n: nat, x: Bytes)
    requires Shape(nodes, path) && n in path && !(path[n] <= x) && HashOk(hasher, nodes, n)
    requires n < |nodes'| && nodes'[n] == nodes[n]
    requires forall c :: c in path && !(path[c] <= x) && c != 0 ==> c < |nodes'| && nodes'[c].hash == nodes[c].hash
    ensures HashOk(hasher, nodes', n)
  {
    forall b: Byte ensures HashOf(nodes, nodes[n].children[b]) == HashOf(nodes', nodes[n].children[b]) {
      assert DownLink(nodes, path, n, b);
      var c := nodes[n].children[b];
      if c != 0 {
        assert UpLink(nodes, path, c);
        assert path[n] <= path[c];
      }
    }
    HashFrame(hasher, nodes, nodes', n);
  }

  lemma AddLeafShape(nodes: seq<Node>, path: Paths, from: nat, to: Byte, r: nat)
    requires Shape(nodes, path) && from in path && nodes[from].children[to] == 0
    requires r !in path && r <= |nodes|
    ensures Shape(WithLeaf(nodes, from, to, r), path[r := path[from] + [to]])
  {
    var nodes', path' := WithLeaf(nodes, from, to, r), path[r := path[from] + [to]];
    forall x | x in path' && x != 0 ensures UpLink(nodes', path', x) {
      if x != r {
        assert UpLink(nodes, path, x);
      }
    }
    forall x, b: Byte | x in path' ensures DownLink(nodes', path', x, b) {
      if x != r {
        assert DownLink(nodes, path, x, b);
      }
    }
  }

  // ------------------------------------------------- extend the edge of a leaf

  function WithSuffix(nodes: seq<Node>, n: nat, suffix: Bytes): (r: seq<Node>)
    requires n < |nodes|
  {
    nodes[n := nodes[n].(prefix := nodes[n].prefix + suffix)]
  }

  lemma ExtendLeaf(hasher: Hasher, nodes: seq<Node>, path: Paths, n: nat, suffix: Bytes)
    requires Shape(nodes, path) && n in path && n != 0
    requires nodes[n].value == [] && !HasChildren(nodes[n])
    ensures var nodes', path' := WithSuffix(nodes, n, suffix), path[n := path[n] + suffix];
            && Shape(nodes', path')
            && Contents(nodes', path') == Contents(nodes, path)
            && (HashedOff(hasher, nodes, path, path[n]) ==> HashedOff(hasher, nodes', path', path'[n]))
            && (CanonicalBut(nodes, path, n) ==> CanonicalBut(nodes', path', n))
  {
    var nodes', path' := WithSuffix(nodes, n, suffix), path[n := path[n] + suffix];
    ExtendShape(nodes, path, n, suffix);
    ExtendContents(nodes, path, n, suffix);
    if HashedOff(hasher, nodes, path, path[n]) {
      forall x | x in path' && !(path'[x] <= path'[n]) ensures HashOk(hasher, nodes', x) {
        assert !(path[x] <= path[n]) && HashOk(hasher, nodes, x);
        HashedOffFrame(hasher, nodes, path, nodes', x, path[n]);
      }
    }
  }

  lemma ExtendShape(nodes: seq<Node>, path: Paths, n: nat, suffix: Bytes)
    requires Shape(nodes, path) && n in path && n != 0 && !HasChildren(nodes[n])
    ensures Shape(WithSuffix(nodes, n, suffix), path[n := path[n] + suffix])
  {
    var nodes', path' := WithSuffix(nodes, n, suffix), path[n := path[n] + suffix];
    forall x | x in path' && x != 0 ensures UpLink(nodes', path', x) {
      assert UpLink(nodes, path, x);
      assert nodes[n].children[nodes[x].prefix[0]] == 0;
    }
    forall x, b: Byte | x in path' ensures DownLink(nodes', path', x, b) {
      assert DownLink(nodes, path, x, b);
    }
  }

  lemma ExtendContents(nodes: seq<Node>, path: Paths, n: nat, suffix: Bytes)
    requires Shape(nodes, path) && n in path && n != 0
    requires nodes[n].value == [] && !HasChildren(nodes[n])
    requires Shape(WithSuffix(nodes, n, suffix), path[n := path[n] + suffix])
    ensures Contents(WithSuffix(nodes, n, suffix), path[n := path[n] + suffix]) == Contents(nodes, path)
  {
    var nodes', path' := WithSuffix(nodes, n, suffix), path[n := path[n] + suffix];
    var m := Contents(nodes, path);
    forall x | x in path' ensures Lookup(m, path'[x]) == nodes'[x].value {
      ContentsAt(nodes, path, x);
      if x == n && path'[n] in m {
        var y := NodeAt(path, path'[n]);
        Descend(nodes, path, n, y);
      }
    }
    forall k | k in m ensures m[k] != [] && k in path'.Values {
      var x := NodeAt(path, k);
      ContentsAt(nodes, path, x);
      assert path'[x] == k;
    }
    ContentsAre(nodes', path', m);
  }

  // ---------------------------------------------------------------- split edge

  /** Slot s takes over the first k bytes of the edge into n. */
  function WithSplit(nodes: seq<Node>, n: nat, k: nat, s: nat): (r: seq<Node>)
    requires n < |nodes| && nodes[n].parent < |nodes| && 0 < k < |nodes[n].prefix|
    requires s <= |nodes| && s != n && s != nodes[n].parent && n != nodes[n].parent
  {
    var prefix := nodes[n].prefix;
    var grown := WithLeaf(nodes, nodes[n].parent, prefix[0], s);
    var lower := grown[n := grown[n].(parent := s, prefix := prefix[k..])];
    lower[s := lower[s].(children := lower[s].children[prefix[k] := n], prefix := prefix[..k])]
  }

  ghost function SplitPath(nodes: seq<Node>, path: Paths, n: nat, k: nat): Bytes
    requires n < |nodes| && n in path && nodes[n].parent in path && k <= |nodes[n].prefix|
  {
    path[nodes[n].parent] + nodes[n].prefix[..k]
  }

  lemma SplitEdge(hasher: Hasher, nodes: seq<Node>, path: Paths, n: nat, k: nat, s: nat)
    requires Shape(nodes, path) && n in path && n != 0
    requires 0 < k < |nodes[n].prefix| && s !in path && s <= |nodes|
    ensures UpLink(nodes, path, n) && nodes[n].parent != n
    ensures var nodes', path' := WithSplit(nodes, n, k, s), path[s := SplitPath(nodes, path, n, k)];
            && Shape(nodes', path')
            && Contents(nodes', path') == Contents(nodes, path)
            && (Hashed(hasher, nodes, path) ==> HashedOff(hasher, nodes', path', path'[n]))
            && (Canonical(nodes, path) ==> CanonicalBut(nodes', path', s))
  {
    assert UpLink(nodes, path, n);
    SplitShape(nodes, path, n, k, s);
    SplitContents(nodes, path, n, k, s);
    if Hashed(hasher, nodes, path) {
      SplitHashes(hasher, nodes, path, n, k, s);
    }
    if Canonical(nodes, path) {
      var nodes', path' := WithSplit(nodes, n, k, s), path[s := SplitPath(nodes, path, n, k)];
      forall x | x in path' && x != 0 && x != s ensures Needed(nodes'[x]) {
        assert Needed(nodes[x]);
        SameSlotsNeeded(nodes[x], nodes'[x]);
      }
    }
  }

  lemma SplitContents(nodes: seq<Node>, path: Paths, n: nat, k: nat, s: nat)
    requires Shape(nodes, path) && n in path && n != 0 && UpLink(nodes, path, n) && nodes[n].parent != n
    requires 0 < k < |nodes[n].prefix| && s !in path && s <= |nodes|
    requires Shape(WithSplit(nodes, n, k, s), path[s := SplitPath(nodes, path, n, k)])
    ensures Contents(WithSplit(nodes, n, k, s), path[s := SplitPath(nodes, path, n, k)]) == Contents(nodes, path)
  {
    var nodes', path' := WithSplit(nodes, n, k, s), path[s := SplitPath(nodes, path, n, k)];
    var m := Contents(nodes, path);
    forall x | x in path' ensures Lookup(m, path'[x]) == nodes'[x].value {
      if x != s {
        ContentsAt(nodes, path, x);
      } else if path'[s] in m {
        var y := NodeAt(path, path'[s]);
        assert path[n] == path[y] + nodes[n].prefix[k..];
        AncestorOfParent(nodes, path, y, n);
      }
    }
    forall key | key in m ensures m[key] != [] && key in path'.Values {
      assert path'[NodeAt(path, key)] == key;
    }
    ContentsAre(nodes', path', m);
  }

  lemma SplitHashes(hasher: Hasher, nodes: seq<Node>, path: Paths, n: nat, k: nat, s: nat)
    requires Shape(nodes, path) && n in path && n != 0 && UpLink(nodes, path, n) && nodes[n].parent != n
    requires 0 < k < |nodes[n].prefix| && s !in path && s <= |nodes|
    requires Shape(WithSplit(nodes, n, k, s), path[s := SplitPath(nodes, path, n, k)])
    requires Hashed(hasher, nodes, path)
    ensures HashedOff(hasher, WithSplit(nodes, n, k, s), path[s := SplitPath(nodes, path, n, k)], path[n])
  {
    var nodes', path' := WithSplit(nodes, n, k, s), path[s := SplitPath(nodes, path, n, k)];
    assert path[n] == path'[s] + nodes[n].prefix[k..];
    forall x | x in path' && !(path'[x] <= path[n]) ensures HashOk(hasher, nodes', x) {
      assert HashOk(hasher, nodes, x);
      HashedOffFrame(hasher, nodes, path, nodes', x, path[n]);
    }
  }

  lemma SameSlotsNeeded(nd: Node, nd': Node)
    requires nd.value == nd'.value && forall b: Byte :: nd.children[b] != 0 ==> nd'.children[b] != 0
    requires Needed(nd)
    ensures Needed(nd')
  {
    if nd.value == [] {
      var a: Byte, b: Byte :| a != b && nd.children[a] != 0 && nd.children[b] != 0;
      assert nd'.children[a] != 0 && nd'.children[b] != 0;
    }
  }

  /** The split vector, slot by slot. */
  ghost predicate IsSplit(nodes: seq<Node>, n: nat, k: nat, s: nat, nodes': seq<Node>)
    requires n < |nodes| && nodes[n].parent < |nodes| && 0 < k < |nodes[n].prefix|
  {
    var p, prefix := nodes[n].parent, nodes[n].prefix;
    && |nodes| <= |nodes'| && n < |nodes'| && p < |nodes'| && s < |nodes'|
    && nodes'[n] == nodes[n].(parent := s, prefix := prefix[k..])
    && nodes'[p] == nodes[p].(children := nodes[p].children[prefix[0] := s])
    && nodes'[s] == Node(p, prefix[..k], [], [], NoChildren()[prefix[k] := n])
    && forall x :: 0 <= x < |nodes| && x != n && x != p && x != s ==> nodes'[x] == nodes[x]
  }

  lemma SplitSlots(nodes: seq<Node>, n: nat, k: nat, s: nat)
    requires n < |nodes| && nodes[n].parent < |nodes| && 0 < k < |nodes[n].prefix|
    requires s <= |nodes| && s != n && s != nodes[n].parent && n != nodes[n].parent
    ensures IsSplit(nodes, n, k, s, WithSplit(nodes, n, k, s))
  {
  }

  lemma SplitShape(nodes: seq<Node>, path: Paths, n: nat, k: nat, s: nat)
    requires Shape(nodes, path) && n in path && n != 0 && UpLink(nodes, path, n) && nodes[n].parent != n
    requires 0 < k < |nodes[n].prefix| && s !in path && s <= |nodes|
    ensures Shape(WithSplit(nodes, n, k, s), path[s := SplitPath(nodes, path, n, k)])
  {
    var nodes', path' := WithSplit(nodes, n, k, s), path[s := SplitPath(nodes, path, n, k)];
    SplitSlots(nodes, n, k, s);
    forall x | x in path' && x != 0 ensures UpLink(nodes', path', x) {
      SplitUp(nodes, path, n, k, s, nodes', x);
    }
    forall x, b: Byte | x in path' ensures DownLink(nodes', path', x, b) {
      SplitDown(nodes, path, n, k, s, nodes', x, b);
    }
  }

  lemma SplitUp(nodes: seq<Node>, path: Paths, n: nat, k: nat, s: nat, nodes': seq<Node>, x: nat)
    requires Shape(nodes, path) && n in path && n != 0 && UpLink(nodes, path, n) && nodes[n].parent != n
    requires 0 < k < |nodes[n].prefix| && s !in path && IsSplit(nodes, n, k, s, nodes')
    requires x != 0 && (x in path || x == s)
    ensures UpLink(nodes', path[s := SplitPath(nodes, path, n, k)], x)
  {
    var prefix, path' := nodes[n].prefix, path[s := SplitPath(nodes, path, n, k)];
    if x == n {
      assert prefix == prefix[..k] + prefix[k..];
      assert path'[n] == path'[s] + prefix[k..];
    } else if x != s {
      assert UpLink(nodes, path, x);
    }
  }

  lemma SplitDown(nodes: seq<Node>, path: Paths, n: nat, k: nat, s: nat, nodes': seq<Node>, x: nat, b: Byte)
    requires Shape(nodes, path) && n in path && n != 0 && UpLink(nodes, path, n) && nodes[n].parent != n
    requires 0 < k < |nodes[n].prefix| && s !in path && IsSplit(nodes, n, k, s, nodes')
    requires x in path || x == s
    ensures DownLink(nodes', path[s := SplitPath(nodes, path, n, k)], x, b)
  {
    if x != s {
      assert DownLink(nodes, path, x, b);
    }
  }

  // ------------------------------------------------- merge a node into a child

  /** Node n leaves the trie; its child c takes over its edge. */
  function WithMerge(nodes: seq<Node>, n: nat, c: nat): (r: seq<Node>)
    requires n < |nodes| && c < |nodes| && nodes[n].parent < |nodes| && nodes[n].prefix != []
  {
    var p, prefix := nodes[n].parent, nodes[n].prefix;
    var longer := nodes[c := nodes[c].(prefix := prefix + nodes[c].prefix)];
    var linked := longer[p := longer[p].(children := longer[p].children[prefix[0] := c])];
    linked[c := linked[c].(parent := p)]
  }

  ghost predicate OnlyChild(nd: Node, b: Byte) {
    nd.children[b] != 0 && forall a: Byte :: nd.children[a] != 0 ==> a == b
  }

  lemma MergeEdge(hasher: Hasher, nodes: seq<Node>, path: Paths, n: nat, b: Byte)
    requires Shape(nodes, path) && n in path && n != 0 && OnlyChild(nodes[n], b)
    ensures UpLink(nodes, path, n) && DownLink(nodes, path, n, b)
    ensures var c := nodes[n].children[b];
            var nodes', path' := WithMerge(nodes, n, c), path - {n};
            && c in path' && Shape(nodes', path')
            && Contents(nodes', path') == Contents(nodes, path) - {path[n]}
            && (HashedOff(hasher, nodes, path, path[n]) ==> HashedOff(hasher, nodes', path', path'[c]))
            && (CanonicalBut(nodes, path, n) ==> Canonical(nodes', path'))
  {
    assert UpLink(nodes, path, n) && DownLink(nodes, path, n, b);
    var c := nodes[n].children[b];
    assert UpLink(nodes, path, c);
    var nodes', path' := WithMerge(nodes, n, c), path - {n};
    MergeShape(nodes, path, n, b);
    MergeContents(nodes, path, n, b);
    if HashedOff(hasher, nodes, path, path[n]) {
      MergeHashes(hasher, nodes, path, n, b);
    }
    if CanonicalBut(nodes, path, n) {
      forall x | x in path' && x != 0 ensures Needed(nodes'[x]) {
        assert Needed(nodes[x]);
        SameSlotsNeeded(nodes[x], nodes'[x]);
      }
    }
  }

  lemma MergeContents(nodes: seq<Node>, path: Paths, n: nat, b: Byte)
    requires Shape(nodes, path) && n in path && n != 0 && OnlyChild(nodes[n], b)
    requires UpLink(nodes, path, n) && DownLink(nodes, path, n, b)
    requires Shape(WithMerge(nodes, n, nodes[n].children[b]), path - {n})
    ensures Contents(WithMerge(nodes, n, nodes[n].children[b]), path - {n}) == Contents(nodes, path) - {path[n]}
  {
    var nodes', path' := WithMerge(nodes, n, nodes[n].children[b]), path - {n};
    var m := Contents(nodes, path) - {path[n]};
    forall x | x in path' ensures Lookup(m, path'[x]) == nodes'[x].value {
      ContentsAt(nodes, path, x);
      if path[x] == path[n] {
        SamePath(nodes, path, x, n);
      }
    }
    forall k | k in m ensures m[k] != [] && k in path'.Values {
      assert path'[NodeAt(path, k)] == k;
    }
    ContentsAre(nodes', path', m);
  }

  lemma MergeHashes(hasher: Hasher, nodes: seq<Node>, path: Paths, n: nat, b: Byte)
    requires Shape(nodes, path) && n in path && n != 0 && OnlyChild(nodes[n], b)
    requires UpLink(nodes, path, n) && DownLink(nodes, path, n, b)
    requires Shape(WithMerge(nodes, n, nodes[n].children[b]), path - {n})
    requires HashedOff(hasher, nodes, path, path[n])
    ensures HashedOff(hasher, WithMerge(nodes, n, nodes[n].children[b]), path - {n}, path[nodes[n].children[b]])
  {
    var c := nodes[n].children[b];
    assert UpLink(nodes, path, c);
    var nodes', path' := WithMerge(nodes, n, c), path - {n};
    assert path[n] <= path[c];
    assert path[nodes[n].parent] <= path[n];
    forall x | x in path' && !(path'[x] <= path[c]) ensures HashOk(hasher, nodes', x) {
      assert !(path[x] <= path[n]) && HashOk(hasher, nodes, x);
      HashedOffFrame(hasher, nodes, path, nodes', x, path[n]);
    }
  }

  lemma MergeShape(nodes: seq<Node>, path: Paths, n: nat, b: Byte)
    requires Shape(nodes, path) && n in path && n != 0 && OnlyChild(nodes[n], b)
    requires UpLink(nodes, path, n) && DownLink(nodes, path, n, b)
    ensures Shape(WithMerge(nodes, n, nodes[n].children[b]), path - {n})
  {
    var c, p := nodes[n].children[b], nodes[n].parent;
    assert UpLink(nodes, path, c);
    var nodes', path' := WithMerge(nodes, n, c), path - {n};
    assert |path[p]| < |path[n]| < |path[c]|;
    forall x | x in path' && x != 0 ensures UpLink(nodes', path', x) {
      assert UpLink(nodes, path, x);
      if x == c {
        assert path'[c] == path'[p] + nodes'[c].prefix;
      }
    }
    forall x, a: Byte | x in path' ensures DownLink(nodes', path', x, a) {
      assert DownLink(nodes, path, x, a);
    }
  }

  // ------------------------------------------------------------ drop a subtrie

  function WithoutChild(nodes: seq<Node>, p: nat, b: Byte): (r: seq<Node>)
    requires p < |nodes|
  {
    nodes[p := nodes[p].(children := nodes[p].children[b := 0])]
  }

  /** The live slots at or below a path. */
  ghost function Below(path: Paths, x: Bytes): set<nat> {
    set n | n in path && x <= path[n]
  }

  ghost function Outside(m: map<Bytes, Bytes>, x: Bytes): map<Bytes, Bytes> {
    map k | k in m && !(x <= k) :: m[k]
  }

  lemma DropSubtrie(hasher: Hasher, nodes: seq<Node>, path: Paths, n: nat)
    requires Shape(nodes, path) && n in path && n != 0
    ensures UpLink(nodes, path, n)
    ensures var p, path' := nodes[n].parent, path - Below(path, path[n]);
            var nodes' := WithoutChild(nodes, p, nodes[n].prefix[0]);
            && p in path' && Shape(nodes', path')
            && Contents(nodes', path') == Outside(Contents(nodes, path), path[n])
            && (HashedOff(hasher, nodes, path, path[n]) ==> HashedOff(hasher, nodes', path', path'[p]))
            && (Canonical(nodes, path) ==> CanonicalBut(nodes', path', p))
  {
    assert UpLink(nodes, path, n);
    DropShape(nodes, path, n);
    DropContents(nodes, path, n);
    if HashedOff(hasher, nodes, path, path[n]) {
      DropHashes(hasher, nodes, path, n);
    }
    if Canonical(nodes, path) {
      var p, path' := nodes[n].parent, path - Below(path, path[n]);
      var nodes' := WithoutChild(nodes, p, nodes[n].prefix[0]);
      forall x | x in path' && x != 0 && x != p ensures Needed(nodes'[x]) {
        assert Needed(nodes[x]);
      }
    }
  }

  lemma DropContents(nodes: seq<Node>, path: Paths, n: nat)
    requires Shape(nodes, path) && n in path && n != 0 && UpLink(nodes, path, n)
    requires Shape(WithoutChild(nodes, nodes[n].parent, nodes[n].prefix[0]), path - Below(path, path[n]))
    ensures Contents(WithoutChild(nodes, nodes[n].parent, nodes[n].prefix[0]), path - Below(path, path[n]))
         == Outside(Contents(nodes, path), path[n])
  {
    var nodes' := WithoutChild(nodes, nodes[n].parent, nodes[n].prefix[0]);
    var path' := path - Below(path, path[n]);
    var m := Outside(Contents(nodes, path), path[n]);
    forall x | x in path' ensures Lookup(m, path'[x]) == nodes'[x].value {
      ContentsAt(nodes, path, x);
    }
    forall k | k in m ensures m[k] != [] && k in path'.Values {
      assert path'[NodeAt(path, k)] == k;
    }
    ContentsAre(nodes', path', m);
  }

  lemma DropHashes(hasher: Hasher, nodes: seq<Node>, path: Paths, n: nat)
    requires Shape(nodes, path) && n in path && n != 0 && UpLink(nodes, path, n)
    requires Shape(WithoutChild(nodes, nodes[n].parent, nodes[n].prefix[0]), path - Below(path, path[n]))
    requires HashedOff(hasher, nodes, path, path[n])
    ensures HashedOff(hasher, WithoutChild(nodes, nodes[n].parent, nodes[n].prefix[0]),
                      path - Below(path, path[n]), path[nodes[n].parent])
  {
    var p, path' := nodes[n].parent, path - Below(path, path[n]);
    var nodes' := WithoutChild(nodes, p, nodes[n].prefix[0]);
    forall x | x in path' && !(path'[x] <= path[p]) ensures HashOk(hasher, nodes', x) {
      if path[x] <= path[n] {
        AncestorOfParent(nodes, path, x, n);
        assert false;
      }
      assert HashOk(hasher, nodes, x);
      HashedOffFrame(hasher, nodes, path, nodes', x, path[n]);
    }
  }

  lemma DropShape(nodes: seq<Node>, path: Paths, n: nat)
    requires Shape(nodes, path) && n in path && n != 0 && UpLink(nodes, path, n)
    ensures Shape(WithoutChild(nodes, nodes[n].parent, nodes[n].prefix[0]), path - Below(path, path[n]))
    ensures nodes[n].parent !in Below(path, path[n])
  {
    var p, gone := nodes[n].parent, Below(path, path[n]);
    var nodes', path' := WithoutChild(nodes, p, nodes[n].prefix[0]), path - gone;
    forall x | x in path' && x != 0 ensures UpLink(nodes', path', x) {
      assert UpLink(nodes, path, x);
      assert path[nodes[x].parent] <= path[x];
      assert n in gone;
    }
    forall x, b: Byte | x in path' ensures DownLink(nodes', path', x, b) {
      assert DownLink(nodes, path, x, b);
      var c := nodes'[x].children[b];
      if c != 0 && path[n] <= path[c] {
        if c == n {
          assert false;
        }
        AncestorOfParent(nodes, path, n, c);
        assert false;
      }
    }
  }
}
