/**
  The transactional Merkle radix trie (state_impl): a growable vector of nodes linked by index,
  recycled slots, copy-on-first-write backups, commit and discard.
 */
module Trie {
  import opened Octets
  import opened TrieModel
  import TrieHash
  import opened TrieEdits
  import opened TrieCommit
  import opened TrieLayout

  /** Slot n may be written without losing the committed version of it. */
  predicate Dirty(backup: Backups, permanent: nat, n: nat) {
    n in backup || n >= permanent
  }

  /** Every committed slot is either untouched or saved as it was, together with its ancestors. */
  ghost predicate Tracked(nodes: seq<Node>, backup: Backups, permanent: nat, saved: seq<Node>) {
    && permanent == |saved| <= |nodes|
    && (forall i :: 0 <= i < permanent && i in backup ==> backup[i] == saved[i])
    && (forall i :: 0 <= i < permanent && i !in backup ==> nodes[i] == saved[i])
    && (forall i :: 0 < i < permanent && i in backup ==> saved[i].parent in backup)
  }

  ghost predicate DirtyUp(nodes: seq<Node>, path: Paths, backup: Backups, permanent: nat)
    requires forall n :: n in path ==> n < |nodes|
  {
    forall n {:trigger nodes[n].parent} :: n in path && n != 0 && Dirty(backup, permanent, n)
      ==> Dirty(backup, permanent, nodes[n].parent)
  }

  /** Every slot is either live or free, never both. */
  ghost predicate Partition(nodes: seq<Node>, path: Paths, free: set<nat>) {
    && (forall i :: i in path ==> i !in free)
    && (forall i: nat :: i < |nodes| <==> i in path || i in free)
  }

  ghost predicate SoundState(nodes: seq<Node>, path: Paths, free: set<nat>,
                             backup: Backups, permanent: nat, saved: seq<Node>)
  {
    && Shape(nodes, path) && Partition(nodes, path, free)
    && Tracked(nodes, backup, permanent, saved) && DirtyUp(nodes, path, backup, permanent)
  }

  ghost predicate Committed(hasher: Hasher, saved: seq<Node>, savedPath: Paths) {
    && Shape(saved, savedPath) && Canonical(saved, savedPath) && Hashed(hasher, saved, savedPath)
    && AllLive(saved, savedPath)
  }

  ghost predicate SameButHash(nodes: seq<Node>, nodes': seq<Node>) {
    && |nodes| == |nodes'|
    && forall i :: 0 <= i < |nodes| ==> nodes'[i] == nodes[i].(hash := nodes'[i].hash)
  }

  /** Parent links lead upwards; enough for the walk to the root to end. */
  ghost predicate Chain(nodes: seq<Node>, path: Paths) {
    && (forall n :: n in path ==> n < |nodes|)
    && (forall n {:trigger nodes[n].parent} :: n in path && n != 0
         ==> nodes[n].parent in path && |path[nodes[n].parent]| < |path[n]|)
    && (forall n, b: Byte :: n in path ==> nodes[n].children[b] < |nodes|)
  }

  lemma ShapeIsChain(nodes: seq<Node>, path: Paths)
    requires Shape(nodes, path)
    ensures Chain(nodes, path)
  {
    forall n | n in path && n != 0
      ensures nodes[n].parent in path && |path[nodes[n].parent]| < |path[n]|
    {
      assert UpLink(nodes, path, n);
    }
    forall n, b: Byte | n in path ensures nodes[n].children[b] < |nodes| {
      assert DownLink(nodes, path, n, b);
    }
  }

  lemma SameButHashKeeps(nodes: seq<Node>, nodes': seq<Node>, path: Paths)
    requires Shape(nodes, path) && SameButHash(nodes, nodes')
    ensures Shape(nodes', path) && Contents(nodes', path) == Contents(nodes, path)
    ensures Canonical(nodes, path) ==> Canonical(nodes', path)
    ensures forall x :: CanonicalBut(nodes, path, x) ==> CanonicalBut(nodes', path, x)
  {
    forall n | n in path && n != 0 ensures UpLink(nodes', path, n) {
      assert UpLink(nodes, path, n);
    }
    forall n, b: Byte | n in path ensures DownLink(nodes', path, n, b) {
      assert DownLink(nodes, path, n, b);
    }
    forall n | n in path && Needed(nodes[n]) ensures Needed(nodes'[n]) {
      SameSlotsNeeded(nodes[n], nodes'[n]);
    }
    forall n | n in path ensures Lookup(Contents(nodes, path), path[n]) == nodes'[n].value {
      ContentsAt(nodes, path, n);
    }
    ContentsAre(nodes', path, Contents(nodes, path));
  }

  lemma RehashChain(nodes: seq<Node>, nodes': seq<Node>, path: Paths, backup: Backups, permanent: nat)
    requires Chain(nodes, path) && SameButHash(nodes, nodes') && DirtyUp(nodes, path, backup, permanent)
    ensures Chain(nodes', path) && DirtyUp(nodes', path, backup, permanent)
  {
  }

  /** Rehashing one node moves the only possible mistake to its parent. */
  lemma RehashStep(hasher: Hasher, nodes: seq<Node>, path: Paths, n: nat)
    requires Shape(nodes, path) && n in path && HashedOff(hasher, nodes, path, path[n])
    ensures var nodes' := nodes[n := nodes[n].(hash := Digest(hasher, nodes, n))];
            && Shape(nodes', path)
            && (n == 0 ==> Hashed(hasher, nodes', path))
            && (n != 0 ==> UpLink(nodes, path, n) && HashedOff(hasher, nodes', path, path[nodes[n].parent]))
  {
    var nodes' := nodes[n := nodes[n].(hash := Digest(hasher, nodes, n))];
    SameButHashKeeps(nodes, nodes', path);
    forall b: Byte ensures HashOf(nodes, nodes[n].children[b]) == HashOf(nodes', nodes[n].children[b]) {
      assert DownLink(nodes, path, n, b);
      if nodes[n].children[b] != 0 {
        assert UpLink(nodes, path, nodes[n].children[b]);
      }
    }
    SameChildHashes(nodes, nodes[n].children, nodes', nodes[n].children, 256);
    assert HashOk(hasher, nodes', n);
    EmptyPath(nodes, path, n);
    assert n != 0 ==> UpLink(nodes, path, n);
    forall x | x in path && x != n && (n == 0 || !(path[x] <= path[nodes[n].parent]))
      ensures HashOk(hasher, nodes', x)
    {
      RehashOther(hasher, nodes, path, n, x);
    }
  }

  lemma RehashOther(hasher: Hasher, nodes: seq<Node>, path: Paths, n: nat, x: nat)
    requires Shape(nodes, path) && n in path && HashedOff(hasher, nodes, path, path[n])
    requires x in path && x != n && (n == 0 || (UpLink(nodes, path, n) && !(path[x] <= path[nodes[n].parent])))
    ensures HashOk(hasher, nodes[n := nodes[n].(hash := Digest(hasher, nodes, n))], x)
  {
    if path[x] <= path[n] {
      AncestorOfParent(nodes, path, x, n);
      assert false;
    }
    assert HashOk(hasher, nodes, x);
    var nodes' := nodes[n := nodes[n].(hash := Digest(hasher, nodes, n))];
    forall b: Byte ensures HashOf(nodes, nodes[x].children[b]) == HashOf(nodes', nodes[x].children[b]) {
      assert DownLink(nodes, path, x, b);
    }
    HashFrame(hasher, nodes, nodes', x);
  }

  lemma LeafSound(nodes: seq<Node>, path: Paths, free: set<nat>, backup: Backups, permanent: nat, saved: seq<Node>,
                  from: nat, to: Byte, r: nat, nodes': seq<Node>, backup': Backups)
    requires SoundState(nodes, path, free, backup, permanent, saved) && from in path
    requires r !in path && (r in free || r == |nodes|) && nodes' == WithLeaf(nodes, from, to, r)
    requires Shape(nodes', path[r := path[from] + [to]])
    requires Tracked(nodes', backup', permanent, saved) && DirtyUp(nodes', path, backup', permanent)
    requires Dirty(backup', permanent, from)
    ensures SoundState(nodes', path[r := path[from] + [to]], free - {r}, backup', permanent, saved)
  {
  }

  lemma SplitSound(nodes: seq<Node>, path: Paths, free: set<nat>, backup: Backups, permanent: nat, saved: seq<Node>,
                   n: nat, k: nat, s: nat, nodes': seq<Node>, backup': Backups)
    requires SoundState(nodes, path, free, backup, permanent, saved) && n in path && n != 0
    requires 0 < k < |nodes[n].prefix| && s !in path && (s in free || s == |nodes|)
    requires UpLink(nodes, path, n) && nodes[n].parent != n
    requires nodes' == WithSplit(nodes, n, k, s) && Shape(nodes', path[s := SplitPath(nodes, path, n, k)])
    requires var grown := WithLeaf(nodes, nodes[n].parent, nodes[n].prefix[0], s);
             Tracked(grown, backup', permanent, saved) && DirtyUp(grown, path, backup', permanent)
    requires Dirty(backup', permanent, n) && Dirty(backup', permanent, s)
    ensures SoundState(nodes', path[s := SplitPath(nodes, path, n, k)], free - {s}, backup', permanent, saved)
  {
    assert forall x :: x in path && x != n ==> nodes'[x].parent == nodes[x].parent;
  }

  lemma MergeSound(nodes: seq<Node>, path: Paths, free: set<nat>, backup: Backups, permanent: nat, saved: seq<Node>,
                   n: nat, b: Byte)
    requires SoundState(nodes, path, free, backup, permanent, saved) && n in path && n != 0
    requires UpLink(nodes, path, n) && DownLink(nodes, path, n, b) && nodes[n].children[b] != 0
    requires Shape(WithMerge(nodes, n, nodes[n].children[b]), path - {n})
    requires Dirty(backup, permanent, n) && Dirty(backup, permanent, nodes[n].children[b])
    ensures SoundState(WithMerge(nodes, n, nodes[n].children[b]), path - {n}, free + {n}, backup, permanent, saved)
  {
  }

  lemma DropSound(nodes: seq<Node>, path: Paths, free: set<nat>, backup: Backups, permanent: nat, saved: seq<Node>,
                  n: nat)
    requires SoundState(nodes, path, free, backup, permanent, saved) && n in path && n != 0
    requires UpLink(nodes, path, n) && Dirty(backup, permanent, nodes[n].parent)
    requires Shape(WithoutChild(nodes, nodes[n].parent, nodes[n].prefix[0]), path - Below(path, path[n]))
    ensures SoundState(WithoutChild(nodes, nodes[n].parent, nodes[n].prefix[0]), path - Below(path, path[n]),
                       free + Below(path, path[n]), backup, permanent, saved)
  {
  }

  lemma LeafBelow(nodes: seq<Node>, path: Paths, n: nat)
    requires Shape(nodes, path) && n in path && !HasChildren(nodes[n])
    ensures Below(path, path[n]) == {n}
    ensures Outside(Contents(nodes, path), path[n]) == Contents(nodes, path) - {path[n]}
  {
    forall x | x in path && path[n] <= path[x] ensures x == n {
      Descend(nodes, path, n, x);
    }
    forall k | k in Contents(nodes, path) && path[n] <= k ensures k == path[n] {
      assert path[NodeAt(path, k)] == k;
    }
  }

  lemma StillForked(nodes: seq<Node>, path: Paths, p: nat, b: Byte)
    requires Shape(nodes, path) && Canonical(nodes, path) && p in path
    ensures p != 0 && nodes[p].value == [] ==> HasChildren(WithoutChild(nodes, p, b)[p])
  {
    if p != 0 && nodes[p].value == [] {
      assert Needed(nodes[p]);
      var x: Byte, y: Byte :| x != y && nodes[p].children[x] != 0 && nodes[p].children[y] != 0;
      var z := if x == b then y else x;
      assert WithoutChild(nodes, p, b)[p].children[z] != 0;
    }
  }

  lemma PartitionTidy(nodes: seq<Node>, path: Paths, free: set<nat>)
    requires Partition(nodes, path, free)
    ensures Tidy(Layout(path, free, |nodes|))
  {
  }

  lemma TakenIs(nodes: seq<Node>, path: Paths, free: set<nat>, k: Bytes, r: nat, l: Layout)
    requires Partition(nodes, path, free) && (r in free || (free == {} && r == |nodes|))
    requires forall x :: x in free ==> r <= x
    requires l == Layout(path[r := k], free - {r}, if r == |nodes| then |nodes| + 1 else |nodes|)
    ensures Adds(Layout(path, free, |nodes|), k, r, l)
  {
    assert AddsFacts(Layout(path, free, |nodes|), k, r, l);
  }

  /** A new leaf, once its path is known: everything but its value is in order. */
  lemma Sprouted(hasher: Hasher, nodes: seq<Node>, path: Paths, free: set<nat>, backup: Backups, permanent: nat,
                 saved: seq<Node>, from: nat, to: Byte, r: nat, nodes': seq<Node>, backup': Backups, l: Layout)
    requires SoundState(nodes, path, free, backup, permanent, saved) && from in path && nodes[from].children[to] == 0
    requires CanonicalBut(nodes, path, from) && HashedOff(hasher, nodes, path, path[from])
    requires from == 0 || nodes[from].value != [] || HasChildren(nodes[from])
    requires r !in path && (r in free || (free == {} && r == |nodes|)) && forall x :: x in free ==> r <= x
    requires nodes' == WithLeaf(nodes, from, to, r)
    requires Tracked(nodes', backup', permanent, saved) && DirtyUp(nodes', path, backup', permanent)
    requires Dirty(backup', permanent, from) && l == Layout(path[r := path[from] + [to]], free - {r}, |nodes'|)
    ensures SoundState(nodes', l.path, l.free, backup', permanent, saved)
            && Contents(nodes', l.path) == Contents(nodes, path)
    ensures CanonicalBut(nodes', l.path, r) && HashedOff(hasher, nodes', l.path, l.path[r])
    ensures r != 0 && StateImpl.NewLeaf(nodes', r) && Adds(Layout(path, free, |nodes|), path[from] + [to], r, l)
  {
    AddLeaf(hasher, nodes, path, from, to, r);
    LeafSound(nodes, path, free, backup, permanent, saved, from, to, r, nodes', backup');
    TakenIs(nodes, path, free, path[from] + [to], r, l);
  }

  /** An edge cut in two, once the new path is known. */
  lemma Halved(hasher: Hasher, nodes: seq<Node>, path: Paths, free: set<nat>, n: nat, k: nat, split: nat,
               nodes': seq<Node>, l: Layout)
    requires Shape(nodes, path) && Canonical(nodes, path) && Hashed(hasher, nodes, path) && Partition(nodes, path, free)
    requires n in path && n != 0 && 0 < k < |nodes[n].prefix| && UpLink(nodes, path, n) && nodes[n].parent != n
    requires split !in path && (split in free || (free == {} && split == |nodes|))
    requires forall x :: x in free ==> split <= x
    requires nodes' == WithSplit(nodes, n, k, split)
    requires l == Layout(path[split := SplitPath(nodes, path, n, k)], free - {split}, |nodes'|)
    ensures Shape(nodes', l.path) && Contents(nodes', l.path) == Contents(nodes, path)
    ensures CanonicalBut(nodes', l.path, split) && HashedOff(hasher, nodes', l.path, l.path[n])
    ensures nodes'[split].prefix == nodes[n].prefix[..k] && OnlyChild(nodes'[split], nodes[n].prefix[k])
    ensures Adds(Layout(path, free, |nodes|), SplitPath(nodes, path, n, k), split, l)
  {
    SplitEdge(hasher, nodes, path, n, k, split);
    TakenIs(nodes, path, free, SplitPath(nodes, path, n, k), split, l);
  }

  /** What closing the gaps does, once the run is known. */
  lemma Compacted(hasher: Hasher, nodes: seq<Node>, path: Paths, free: set<nat>, slots: seq<nat>, run: seq<Frame>)
    returns (path': Paths)
    requires Shape(nodes, path) && Canonical(nodes, path) && Hashed(hasher, nodes, path)
    requires Listed(nodes, path, free, slots) && FullRun(nodes, slots, run)
    ensures var r := Finish(slots, run[|run| - 1]);
            if !Compactable(nodes, path, free) then Broken(r)
            else && Stands(hasher, r, path', Contents(nodes, path)) && AllLive(r, path')
                 && (|r| == |nodes| - |free| ==> Closes(Layout(path, free, |nodes|), Layout(path', {}, |r|)))
  {
    path' := CompactionOutcome(hasher, nodes, path, free, slots, run);
    assert Lists(slots, free);
  }

  lemma SameOnlyChild(nd: Node, nd': Node)
    requires nd.children == nd'.children
    ensures forall b: Byte :: OnlyChild(nd, b) ==> OnlyChild(nd', b)
  {
  }

  lemma SettledAt(nodes: seq<Node>, path: Paths, free: set<nat>, k: Bytes, l: Layout, cur: nat, backup: Backups)
    requires Partition(nodes, path, free) && cur in backup
    requires l == Layout(path, free, |nodes|) || Sites(Layout(path, free, |nodes|), k, l, cur)
    ensures Settles(Layout(path, free, |nodes|), k, l) && Topped(|nodes|, l.size, backup)
  {
    PartitionTidy(nodes, path, free);
    if l != Layout(path, free, |nodes|) {
      SiteLast(Layout(path, free, |nodes|), k, l, cur);
    }
  }

  lemma BoundedIn(nodes: seq<Node>, backup: Backups, nodes': seq<Node>, backup': Backups)
    requires Bounded(|nodes|, backup, |nodes'|, backup')
    ensures InBounds(nodes, backup) ==> InBounds(nodes', backup')
  {
    if InBounds(nodes, backup) {
      BoundedKeeps(nodes, backup, nodes', backup');
    }
  }

  lemma WalkedOut(nodes: seq<Node>, path: Paths, cur: nat, k: Bytes)
    requires Shape(nodes, path) && cur < |nodes| && StateImpl.Walked(nodes, path, cur, |nodes[cur].prefix|, k)
    ensures cur in path && path[cur] == k
  {
  }

  ghost function Linked(nodes: seq<Node>, from: nat, to: Byte, r: nat): seq<Node>
    requires from < |nodes| && r < |nodes|
  {
    nodes[r := nodes[r].(parent := from, prefix := [to])]
      [from := nodes[from].(children := nodes[from].children[to := r])]
  }

  lemma LinkedKept(nodes: seq<Node>, nodes': seq<Node>, path: Paths, backup: Backups, permanent: nat, saved: seq<Node>,
                   from: nat, to: Byte, r: nat)
    requires from < |nodes| && r < |nodes| && from in path && r !in path && forall n :: n in path ==> n < |nodes|
    requires nodes' == Linked(nodes, from, to, r)
    requires Tracked(nodes, backup, permanent, saved) && DirtyUp(nodes, path, backup, permanent)
    requires Dirty(backup, permanent, from) && Dirty(backup, permanent, r)
    ensures Tracked(nodes', backup, permanent, saved) && DirtyUp(nodes', path, backup, permanent)
  {
  }

  lemma NotBare(nodes: seq<Node>, path: Paths, n: nat)
    requires Shape(nodes, path) && Canonical(nodes, path) && n in path && n != 0
    ensures nodes[n].value != [] || HasChildren(nodes[n])
  {
    assert Needed(nodes[n]);
  }

  lemma KidCount(nd: Node, kids: seq<Byte>)
    requires forall b: Byte :: b in kids <==> nd.children[b] != 0
    requires forall i, j :: 0 <= i < j < |kids| ==> kids[i] < kids[j]
    ensures |kids| > 1 <==> TwoChildren(nd)
    ensures |kids| == 1 ==> OnlyChild(nd, kids[0])
    ensures |kids| == 0 <==> !HasChildren(nd)
  {
    if |kids| > 1 {
      assert kids[0] in kids && kids[1] in kids;
    } else if |kids| == 1 {
      assert kids[0] in kids;
    }
  }

  lemma SameFork(nd: Node, nd': Node)
    requires nd.children == nd'.children && TwoChildren(nd)
    ensures TwoChildren(nd')
  {
    var a: Byte, b: Byte :| a != b && nd.children[a] != 0 && nd.children[b] != 0;
    assert nd'.children[a] != 0 && nd'.children[b] != 0;
  }

  /** The live slots strictly below path x, through a byte smaller than k. */
  ghost function BelowKids(path: Paths, x: Bytes, k: nat): set<nat> {
    set n | n in path && x <= path[n] && |x| < |path[n]| && path[n][|x|] < k
  }

  lemma BelowKid(nodes: seq<Node>, path: Paths, n: nat, b: Byte)
    requires Shape(nodes, path) && n in path
    ensures var c := nodes[n].children[b];
            && (c == 0 ==> BelowKids(path, path[n], b + 1) == BelowKids(path, path[n], b))
            && (c != 0 ==> c in path && UpLink(nodes, path, c) && nodes[c].parent == n)
            && (c != 0 ==> BelowKids(path, path[n], b + 1) == BelowKids(path, path[n], b) + Below(path, path[c]))
  {
    var c := nodes[n].children[b];
    assert DownLink(nodes, path, n, b);
    if c != 0 {
      assert UpLink(nodes, path, c);
    }
    forall x | x in path && path[n] <= path[x] && |path[n]| < |path[x]| && path[x][|path[n]|] == b
      ensures c != 0 && path[c] <= path[x]
    {
      Descend(nodes, path, n, x);
    }
  }

  lemma AllBelow(nodes: seq<Node>, path: Paths, n: nat)
    requires Shape(nodes, path) && n in path
    ensures Below(path, path[n]) == {n} + BelowKids(path, path[n], 256)
  {
    forall x | x in path && path[x] == path[n] ensures x == n {
      SamePath(nodes, path, x, n);
    }
  }

  lemma FreshRoot(hasher: Hasher, nodes: seq<Node>, path: Paths)
    requires |nodes| == 1 && nodes[0].(hash := []) == Blank() && path == map[0 := []]
    requires nodes[0].hash == Digest(hasher, nodes, 0)
    ensures Shape(nodes, path) && Canonical(nodes, path) && Hashed(hasher, nodes, path)
    ensures AllLive(nodes, path) && Contents(nodes, path) == map[]
  {
    assert Contents(nodes, path) == map[] by {
      assert forall k :: k in path.Values ==> NodeAt(path, k) == 0;
    }
  }

  lemma FreshCommit(hasher: Hasher, nodes: seq<Node>, path: Paths)
    requires Shape(nodes, path) && Canonical(nodes, path) && Hashed(hasher, nodes, path) && AllLive(nodes, path)
    ensures SoundState(nodes, path, {}, map[], |nodes|, nodes) && Committed(hasher, nodes, path)
  {
  }

  class StateImpl {
    const hasher: Hasher
    var nodes: seq<Node>
    var backup: Backups
    var free: set<nat>
    var permanent: nat

    // The keys of the live slots now, and the vector and keys as of the last commit.
    ghost var path: Paths
    ghost var saved: seq<Node>
    ghost var savedPath: Paths

    ghost predicate Sound()
      reads this
    {
      SoundState(nodes, path, free, backup, permanent, saved) && Committed(hasher, saved, savedPath)
    }

    ghost predicate Valid()
      reads this
    {
      Sound() && Canonical(nodes, path) && Hashed(hasher, nodes, path)
    }

    /** In the middle of an operation: everything holds but for node x and hashes above it. */
    ghost predicate Midway(x: nat)
      reads this
    {
      && Sound() && x in path && Dirty(backup, permanent, x)
      && CanonicalBut(nodes, path, x) && HashedOff(hasher, nodes, path, path[x])
    }

    ghost function View(): map<Bytes, Bytes>
      reads this
      requires Shape(nodes, path)
    {
      Contents(nodes, path)
    }

    ghost function SavedView(): map<Bytes, Bytes>
      reads this
      requires Shape(saved, savedPath)
    {
      Contents(saved, savedPath)
    }

    ghost function Now(): Layout
      reads this
    {
      Layout(path, free, |nodes|)
    }

    constructor (hasher: Hasher)
      ensures Valid() && View() == map[] && saved == nodes && savedPath == path
      ensures this.hasher == hasher && backup == map[] && free == {} && |nodes| == 1
    {
      this.hasher := hasher;
      nodes, backup, free, permanent := [Blank()], map[], {}, 1;
      path := map[0 := []];
      new;
      var digest := HashNode(0);
      nodes := [nodes[0].(hash := digest)];
      saved, savedPath := nodes, path;
      FreshRoot(hasher, nodes, path);
    }

    method GetNodeIndex(key: Bytes) returns (r: int)
      requires Shape(nodes, path)
      ensures -1 <= r
      ensures r >= 0 ==> r in path && path[r] == key
      ensures r == -1 ==> forall n :: n in path ==> path[n] != key
    {
      var cur, i := 0, 0;
      var keyEndedAtEdge := false;
      while i < |key|
        invariant 0 <= i <= |key| && cur in path
        invariant cur == 0 <==> i == 0
        invariant cur != 0 ==> UpLink(nodes, path, cur)
        invariant cur != 0 ==> path[nodes[cur].parent] == key[..i - 1] && nodes[cur].prefix[0] == key[i - 1]
        invariant keyEndedAtEdge == (i > 0)
        invariant forall n :: n in path && path[n] == key ==> path[cur] <= key
      {
        keyEndedAtEdge := false;
        var pathElement := key[i];
        var len := |nodes[cur].prefix|;
        if len - 1 > 0 {
          if len - 1 < |key| - i {
            if nodes[cur].prefix != key[i - 1..i - 1 + len] {
              assert !(path[cur] <= key);
              return -1;
            }
            i := i + len - 1;
            pathElement := key[i];
            assert path[cur] == key[..i];
          } else if len - 1 == |key| - i {
            if nodes[cur].prefix == key[i - 1..] {
              assert path[cur] == key;
              return cur;
            }
            assert !(path[cur] <= key);
            return -1;
          } else {
            return -1;
          }
        }
        assert path[cur] == key[..i];
        if nodes[cur].children[pathElement] == 0 {
          forall n | n in path ensures path[n] != key {
            NoSuchPath(nodes, path, cur, key, n);
          }
          return -1;
        }
        assert DownLink(nodes, path, cur, pathElement);
        forall n | n in path && path[n] == key ensures path[nodes[cur].children[pathElement]] <= key {
          Descend(nodes, path, cur, n);
        }
        cur := nodes[cur].children[pathElement];
        assert UpLink(nodes, path, cur);
        keyEndedAtEdge := true;
        i := i + 1;
      }
      if keyEndedAtEdge && |nodes[cur].prefix| - 1 != 0 {
        return -1;
      }
      return cur;
    }

    method Get(key: Bytes) returns (v: Bytes)
      requires Shape(nodes, path)
      ensures v == Lookup(View(), key)
    {
      var n := GetNodeIndex(key);
      if n == -1 {
        v := [];
      } else {
        ContentsAt(nodes, path, n);
        v := nodes[n].value;
      }
    }

    /** The hash of the node at a path, empty if there is no such node. */
    method GetNodeHash(key: Bytes) returns (h: Bytes)
      requires Valid()
      ensures forall n :: n in path && path[n] == key ==> h == nodes[n].hash
      ensures h == TrieHash.HashIn(hasher, View(), key)
    {
      TrieHash.HashInIs(hasher, nodes, path, View(), key);
      var n := GetNodeIndex(key);
      if n == -1 {
        h := [];
      } else {
        h := nodes[n].hash;
      }
    }

    method NodeHasChildren(n: nat) returns (r: bool)
      requires n < |nodes|
      ensures r == HasChildren(nodes[n])
    {
      for i := 0 to 256
        invariant forall b: Byte :: b < i ==> nodes[n].children[b] == 0
      {
        if nodes[n].children[i] != 0 {
          var b: Byte := i;
          assert nodes[n].children[b] != 0;
          return true;
        }
      }
      return false;
    }

    /** The bytes that lead to a child, in increasing order. */
    method ListChildren(n: nat) returns (kids: seq<Byte>)
      requires n < |nodes|
      ensures forall b: Byte :: b in kids <==> nodes[n].children[b] != 0
      ensures forall i, j :: 0 <= i < j < |kids| ==> kids[i] < kids[j]
    {
      kids := [];
      for i := 0 to 256
        invariant forall j :: 0 <= j < |kids| ==> kids[j] < i && nodes[n].children[kids[j]] != 0
        invariant forall b: Byte :: b < i && nodes[n].children[b] != 0 ==> b in kids
        invariant forall i, j :: 0 <= i < j < |kids| ==> kids[i] < kids[j]
      {
        if nodes[n].children[i] != 0 {
          kids := kids + [i];
        }
      }
    }

    method BackupNodes(cur: nat)
      requires cur < |nodes|
      requires forall i :: 0 <= i < permanent && i !in backup ==> i < |nodes| && nodes[i].parent < |nodes|
      modifies this`backup
      ensures cur in backup
      ensures forall i :: i in old(backup) ==> i in backup && backup[i] == old(backup)[i]
      ensures forall i :: i in backup && i !in old(backup) ==> i < |nodes| && backup[i] == nodes[i]
      ensures forall i :: i in backup && i !in old(backup) && 0 < i < permanent ==> nodes[i].parent in backup
      decreases set i | 0 <= i < permanent && i !in backup
    {
      if cur !in backup {
        ghost var unsaved := set i | 0 <= i < permanent && i !in backup;
        backup := backup[cur := nodes[cur]];
        if cur != 0 && cur < permanent {
          assert cur in unsaved;
          BackupNodes(nodes[cur].parent);
        }
      }
    }

    /** backup_nodes at an operation's start: slot cur and its ancestors may now be written. */
    method Protect(cur: nat)
      requires Sound() && cur < |nodes|
      modifies this`backup
      ensures Sound() && cur in backup
      ensures forall n :: Dirty(old(backup), permanent, n) ==> Dirty(backup, permanent, n)
      ensures Bounded(|old(nodes)|, old(backup), |nodes|, backup)
    {
      forall i | 0 <= i < permanent && i !in backup ensures nodes[i].parent < |nodes| {
        if i != 0 {
          assert UpLink(saved, savedPath, i);
        }
      }
      BackupNodes(cur);
      assert BoundedFacts(|nodes|, old(backup), |nodes|, backup);
    }

    /** A blank node in the smallest free slot, or else at the end. */
    method TakeSlot() returns (r: nat)
      requires Sound()
      modifies this`nodes, this`backup, this`free
      ensures r !in path && r <= |old(nodes)|
      ensures nodes == if r == |old(nodes)| then old(nodes) + [Blank()] else old(nodes)[r := Blank()]
      ensures free == old(free) - {r} && forall x :: x in old(free) ==> r <= x
      ensures r in old(free) || (old(free) == {} && r == |old(nodes)|)
      ensures Tracked(nodes, backup, permanent, saved) && Dirty(backup, permanent, r)
      ensures DirtyUp(nodes, path, backup, permanent)
      ensures forall n :: Dirty(old(backup), permanent, n) ==> Dirty(backup, permanent, n)
      ensures Bounded(|old(nodes)|, old(backup), |nodes|, backup)
    {
      if free == {} {
        r := |nodes|;
        nodes := nodes + [Blank()];
        BoundedStill(|old(nodes)|, backup, |nodes|);
      } else {
        r := Smallest(free);
        Protect(r);
        nodes := nodes[r := Blank()];
        free := free - {r};
      }
    }

    /** A blank node below `from`, linked both ways. */
    method AddNode(from: nat, to: Byte) returns (r: nat)
      requires Sound() && from in path && Dirty(backup, permanent, from)
      modifies this`nodes, this`backup, this`free
      ensures r !in path && r <= |old(nodes)| && nodes == WithLeaf(old(nodes), from, to, r)
      ensures free == old(free) - {r} && forall x :: x in old(free) ==> r <= x
      ensures r in old(free) || (old(free) == {} && r == |old(nodes)|)
      ensures Tracked(nodes, backup, permanent, saved) && Dirty(backup, permanent, r)
      ensures DirtyUp(nodes, path, backup, permanent)
      ensures forall n :: Dirty(old(backup), permanent, n) ==> Dirty(backup, permanent, n)
      ensures Bounded(|old(nodes)|, old(backup), |nodes|, backup)
    {
      r := TakeSlot();
      ghost var taken := nodes;
      nodes := nodes[r := nodes[r].(parent := from, prefix := [to])];
      nodes := nodes[from := nodes[from].(children := nodes[from].children[to := r])];
      LinkedKept(taken, nodes, path, backup, permanent, saved, from, to, r);
      assert nodes == WithLeaf(old(nodes), from, to, r);
    }

    method CalculateHash(cur: nat)
      requires Chain(nodes, path) && cur in path
      requires Tracked(nodes, backup, permanent, saved) && DirtyUp(nodes, path, backup, permanent)
      requires Dirty(backup, permanent, cur)
      modifies this`nodes
      ensures SameButHash(old(nodes), nodes) && Tracked(nodes, backup, permanent, saved)
      ensures old(Shape(nodes, path) && HashedOff(hasher, nodes, path, path[cur])) ==> Hashed(hasher, nodes, path)
      decreases |path[cur]|
    {
      var digest := HashNode(cur);
      nodes := nodes[cur := nodes[cur].(hash := digest)];
      RehashChain(old(nodes), nodes, path, backup, permanent);
      if old(Shape(nodes, path) && HashedOff(hasher, nodes, path, path[cur])) {
        RehashStep(hasher, old(nodes), path, cur);
      }
      if cur != 0 {
        CalculateHash(nodes[cur].parent);
      }
    }

    /** The digest of value, prefix and child hashes; empty for a root without children. */
    method HashNode(cur: nat) returns (digest: Bytes)
      requires Chain(nodes, path) && cur in path
      ensures digest == Digest(hasher, nodes, cur)
    {
      var some := NodeHasChildren(cur);
      if cur == 0 && !some {
        return [];
      }
      var kids := nodes[cur].children;
      var updates := nodes[cur].value;
      updates := updates + nodes[cur].prefix;
      for i := 0 to 256
        invariant updates == nodes[cur].value + nodes[cur].prefix + ChildHashes(nodes, kids, i)
      {
        var b: Byte := i;
        assert nodes[cur].children[b] < |nodes|;
        if kids[i] != 0 {
          updates := updates + nodes[kids[i]].hash;
        }
      }
      return hasher(updates);
    }

    // -------------------------------------------------------------------- set

    method Set(key: Bytes, value: Bytes) returns (ok: bool)
      requires Valid()
      modifies this`nodes, this`backup, this`free, this`path
      ensures value != [] ==> ok && Valid() && View() == old(View())[key := value] && free <= old(free)
      ensures value != [] ==> exists n :: n in path && path[n] == key && n in backup
      ensures value == [] ==> ok == (key in old(View()))
      ensures !ok ==> nodes == old(nodes) && backup == old(backup) && free == old(free) && path == old(path)
      ensures value == [] && ok && old(EraseWorks(nodes, key)) ==> Valid() && View() == old(View()) - {key}
      ensures value == [] && ok && !old(EraseWorks(nodes, key)) ==>
                nodes != [] && 0 in free && nodes[0].value == old(nodes[0].value)
      ensures old(InBounds(nodes, backup)) ==> InBounds(nodes, backup)
      ensures value != [] ==> Settles(old(Now()), key, Now()) && Topped(|old(nodes)|, |nodes|, backup)
      ensures value == [] && old(EraseWorks(nodes, key)) ==> Shrinks(old(path), path) && |nodes| == |old(nodes)|
      ensures value != [] || old(EraseWorks(nodes, key)) ==> Bounded(|old(nodes)|, old(backup), |nodes|, backup)
    {
      if value == [] {
        ok := Erase(key);
        return;
      }
      ok := true;
      var cur := Update(key, value);
      SettledAt(old(nodes), old(path), old(free), key, Now(), cur, backup);
      BoundedIn(old(nodes), old(backup), nodes, backup);
    }

    /** set of a value that is not empty; the node for the key is returned. */
    method Update(key: Bytes, value: Bytes) returns (cur: nat)
      requires Valid() && value != []
      modifies this`nodes, this`backup, this`free, this`path
      ensures Valid() && View() == old(View())[key := value] && free <= old(free)
      ensures cur in path && path[cur] == key && cur in backup
      ensures Now() == old(Now()) || Sites(old(Now()), key, Now(), cur)
      ensures Bounded(|old(nodes)|, old(backup), |nodes|, backup)
    {
      cur := Locate(key);
      ghost var n, kept := |nodes|, backup;
      WriteValue(cur, value);
      BoundedThen(|old(nodes)|, old(backup), n, kept, |nodes|, backup);
    }

    /** The last part of set, at the node for the key. */
    method WriteValue(cur: nat, value: Bytes)
      requires Sound() && cur in path && value != []
      requires CanonicalBut(nodes, path, cur) && HashedOff(hasher, nodes, path, path[cur])
      modifies this`nodes, this`backup
      ensures Valid() && View() == old(View())[path[cur] := value] && |nodes| == |old(nodes)| && cur in backup
      ensures Bounded(|old(nodes)|, old(backup), |nodes|, backup)
    {
      Protect(cur);
      SetValue(hasher, nodes, path, cur, value);
      nodes := nodes[cur := nodes[cur].(value := value)];
      assert Needed(nodes[cur]);
      HashUp(cur);
    }

    /** The node for a key, made if need be by hanging a leaf or splitting an edge. */
    method Locate(key: Bytes) returns (cur: nat)
      requires Valid()
      modifies this`nodes, this`backup, this`free, this`path
      ensures Sound() && cur in path && path[cur] == key && View() == old(View())
      ensures CanonicalBut(nodes, path, cur) && HashedOff(hasher, nodes, path, key)
      ensures free <= old(free)
      ensures Bounded(|old(nodes)|, old(backup), |nodes|, backup)
      ensures Now() == old(Now()) || Sites(old(Now()), key, Now(), cur)
    {
      var prefixIndex, i := 0, 0;
      cur := 0;
      BoundedStill(|nodes|, backup, |nodes|);
      ghost var sprouted := false;
      while i < |key|
        invariant 0 <= i <= |key| && Locating(cur, prefixIndex, sprouted, key[..i])
        invariant View() == old(View())
        invariant free <= old(free)
        invariant Bounded(|old(nodes)|, old(backup), |nodes|, backup) && Grown(old(Now()), sprouted, key[..i], cur)
      {
        ghost var n, kept := |nodes|, backup;
        var done;
        cur, prefixIndex, done, sprouted := LocateStep(cur, prefixIndex, key, i, sprouted, old(Now()));
        BoundedThen(|old(nodes)|, old(backup), n, kept, |nodes|, backup);
        if done {
          return;
        }
        i := i + 1;
      }
      assert key[..i] == key;
      ghost var n, kept := |nodes|, backup;
      cur := StopAt(cur, prefixIndex, key, sprouted, old(Now()));
      BoundedThen(|old(nodes)|, old(backup), n, kept, |nodes|, backup);
    }

    /** The whole key is read: a node in the middle of an edge is made by splitting it. */
    method StopAt(cur: nat, prefixIndex: nat, key: Bytes, ghost sprouted: bool, ghost l0: Layout) returns (at: nat)
      requires Locating(cur, prefixIndex, sprouted, key) && Grown(l0, sprouted, key, cur)
      modifies this`nodes, this`backup, this`free, this`path
      ensures Sound() && at in path && path[at] == key && View() == old(View())
      ensures CanonicalBut(nodes, path, at) && HashedOff(hasher, nodes, path, key)
      ensures free <= old(free) && Bounded(|old(nodes)|, old(backup), |nodes|, backup)
      ensures Now() == l0 || Sites(l0, key, Now(), at)
    {
      at := cur;
      BoundedStill(|nodes|, backup, |nodes|);
      if |nodes[cur].prefix| != prefixIndex {
        at := SplitNode(cur, prefixIndex);
        SiteOne(l0, key, at, Now());
      }
    }

    /** Where the search for a key stands after reading k: on old ground or at a new leaf. */
    ghost predicate Locating(cur: nat, prefixIndex: nat, sprouted: bool, k: Bytes)
      reads this
    {
      if sprouted then Midway(cur) && cur != 0 && NewLeaf(nodes, cur) && prefixIndex == 1 && path[cur] == k
      else Valid() && Walked(nodes, path, cur, prefixIndex, k) && (cur != 0 ==> prefixIndex != 0)
    }

    /** What the search has done to the layout l0 it started from. */
    ghost predicate Grown(l0: Layout, sprouted: bool, k: Bytes, cur: nat)
      reads this
    {
      if sprouted then Sites(l0, k, Now(), cur) else Now() == l0
    }

    /** One round of the search: byte i of the key is read, unless the rest goes onto a new leaf. */
    method LocateStep(cur: nat, prefixIndex: nat, key: Bytes, i: nat, ghost sprouted: bool, ghost l0: Layout)
      returns (cur': nat, prefixIndex': nat, done: bool, ghost sprouted': bool)
      requires i < |key| && Locating(cur, prefixIndex, sprouted, key[..i]) && Grown(l0, sprouted, key[..i], cur)
      modifies this`nodes, this`backup, this`free, this`path
      ensures !done ==> Locating(cur', prefixIndex', sprouted', key[..i + 1])
      ensures done ==> Midway(cur') && path[cur'] == key
      ensures Shape(nodes, path) && View() == old(View())
      ensures free <= old(free)
      ensures Bounded(|old(nodes)|, old(backup), |nodes|, backup)
      ensures if done then Sites(l0, key, Now(), cur') else Grown(l0, sprouted', key[..i + 1], cur')
    {
      assert key[..i + 1] == key[..i] + [key[i]];
      if prefixIndex == |nodes[cur].prefix| {
        cur', done, sprouted' := LeaveNode(cur, key, i, sprouted, l0);
        prefixIndex' := 1;
      } else if key[i] != nodes[cur].prefix[prefixIndex] {
        cur' := Fork(cur, prefixIndex, key[i]);
        prefixIndex', done, sprouted' := 1, false, true;
      } else {
        BoundedStill(|nodes|, backup, |nodes|);
        WalkOn(nodes, path, cur, prefixIndex, key[..i]);
        cur', prefixIndex', done, sprouted' := cur, prefixIndex + 1, false, false;
      }
    }

    /** Byte i of the key when the edge into cur is used up. */
    method LeaveNode(cur: nat, key: Bytes, i: nat, ghost sprouted: bool, ghost l0: Layout)
      returns (cur': nat, done: bool, ghost sprouted': bool)
      requires i < |key| && cur < |nodes| && Locating(cur, |nodes[cur].prefix|, sprouted, key[..i])
      requires Grown(l0, sprouted, key[..i], cur)
      modifies this`nodes, this`backup, this`free, this`path
      ensures !done ==> Locating(cur', 1, sprouted', key[..i] + [key[i]])
      ensures done ==> Midway(cur') && path[cur'] == key
      ensures Shape(nodes, path) && View() == old(View())
      ensures free <= old(free)
      ensures Bounded(|old(nodes)|, old(backup), |nodes|, backup)
      ensures if done then Sites(l0, key, Now(), cur') else Grown(l0, sprouted', key[..i] + [key[i]], cur')
    {
      if nodes[cur].children[key[i]] != 0 {
        BoundedStill(|nodes|, backup, |nodes|);
        WalkDown(nodes, path, cur, key[i], key[..i]);
        cur', done, sprouted' := nodes[cur].children[key[i]], false, false;
      } else {
        cur', done := GrowFrom(cur, key, i, sprouted, l0);
        sprouted' := true;
      }
    }

    /** There is no edge for byte i: a new leaf, unless cur is one already and takes the rest of the key. */
    method GrowFrom(cur: nat, key: Bytes, i: nat, ghost sprouted: bool, ghost l0: Layout)
      returns (cur': nat, done: bool)
      requires i < |key| && cur < |nodes| && Locating(cur, |nodes[cur].prefix|, sprouted, key[..i])
      requires Grown(l0, sprouted, key[..i], cur)
      requires nodes[cur].children[key[i]] == 0
      modifies this`nodes, this`backup, this`free, this`path
      ensures !done ==> Locating(cur', 1, true, key[..i] + [key[i]])
      ensures done ==> Midway(cur') && path[cur'] == key
      ensures Shape(nodes, path) && View() == old(View())
      ensures free <= old(free)
      ensures Bounded(|old(nodes)|, old(backup), |nodes|, backup)
      ensures Sites(l0, if done then key else key[..i] + [key[i]], Now(), cur')
    {
      cur', done := cur, false;
      var some := NodeHasChildren(cur);
      if some || nodes[cur].value != [] || cur == 0 {
        assert !sprouted;
        WalkedOut(nodes, path, cur, key[..i]);
        cur' := Hang(cur, key[i]);
        SiteOne(l0, key[..i] + [key[i]], cur', Now());
      } else {
        if !sprouted {
          NotBare(nodes, path, cur);
        }
        assert sprouted;
        BoundedStill(|nodes|, backup, |nodes|);
        SiteStretched(l0, key[..i], Now(), cur, key);
        Stretch(cur, key[i..]);
        assert key == key[..i] + key[i..];
        done := true;
      }
    }

    /** The rest of the key goes onto the edge of the new leaf. */
    method Stretch(cur: nat, suffix: Bytes)
      requires Midway(cur) && cur != 0 && NewLeaf(nodes, cur)
      modifies this`nodes, this`path
      ensures Midway(cur) && View() == old(View()) && |nodes| == |old(nodes)|
      ensures path == old(path)[cur := old(path)[cur] + suffix]
      ensures free == old(free) && backup == old(backup)
    {
      ExtendLeaf(hasher, nodes, path, cur, suffix);
      nodes := nodes[cur := nodes[cur].(prefix := nodes[cur].prefix + suffix)];
      path := path[cur := path[cur] + suffix];
    }

    /** A new leaf below a node that has to stay. */
    method Hang(cur: nat, to: Byte) returns (r: nat)
      requires Valid() && cur in path && nodes[cur].children[to] == 0
      requires cur == 0 || nodes[cur].value != [] || HasChildren(nodes[cur])
      modifies this`nodes, this`backup, this`free, this`path
      ensures Locating(r, 1, true, old(path)[cur] + [to]) && Shape(nodes, path) && View() == old(View())
      ensures free <= old(free)
      ensures Bounded(|old(nodes)|, old(backup), |nodes|, backup)
      ensures Adds(old(Now()), old(path)[cur] + [to], r, Now())
    {
      Protect(cur);
      ghost var kept := backup;
      r := Sprout(cur, to);
      BoundedThen(|old(nodes)|, old(backup), |old(nodes)|, kept, |nodes|, backup);
    }

    /** The edge into cur is split after k bytes, where a new leaf branches off. */
    method Fork(cur: nat, k: nat, to: Byte) returns (r: nat)
      requires Valid() && cur in path && cur != 0 && 0 < k < |nodes[cur].prefix| && nodes[cur].prefix[k] != to
      modifies this`nodes, this`backup, this`free, this`path
      ensures Midway(r) && r != 0 && NewLeaf(nodes, r) && View() == old(View())
      ensures old(UpLink(nodes, path, cur))
      ensures path[r] == SplitPath(old(nodes), old(path), cur, k) + [to]
      ensures free <= old(free)
      ensures Bounded(|old(nodes)|, old(backup), |nodes|, backup)
      ensures Sites(old(Now()), SplitPath(old(nodes), old(path), cur, k) + [to], Now(), r)
    {
      var split := SplitNode(cur, k);
      ghost var n, kept, l1 := |nodes|, backup, Now();
      r := Sprout(split, to);
      SiteTwo(old(Now()), old(SplitPath(nodes, path, cur, k)), split, l1, old(SplitPath(nodes, path, cur, k)) + [to], r,
              Now());
      BoundedThen(|old(nodes)|, old(backup), n, kept, |nodes|, backup);
    }

    /** Slot cur was reached by reading exactly k, of which the last part is on its edge. */
    static ghost predicate Walked(nodes: seq<Node>, path: Paths, cur: nat, prefixIndex: nat, k: Bytes) {
      && cur in path && cur < |nodes|
      && (cur == 0 ==> prefixIndex == 0 && k == [])
      && (cur != 0 ==> UpLink(nodes, path, cur) && prefixIndex <= |nodes[cur].prefix|
                       && k == SplitPath(nodes, path, cur, prefixIndex))
    }

    static lemma WalkDown(nodes: seq<Node>, path: Paths, cur: nat, b: Byte, k: Bytes)
      requires Shape(nodes, path) && cur in path && Walked(nodes, path, cur, |nodes[cur].prefix|, k)
      requires nodes[cur].children[b] != 0
      ensures Walked(nodes, path, nodes[cur].children[b], 1, k + [b])
    {
      assert DownLink(nodes, path, cur, b);
      var c := nodes[cur].children[b];
      assert UpLink(nodes, path, c);
      assert cur != 0 ==> path[cur] == k;
      assert nodes[c].prefix[..1] == [b];
    }

    static lemma WalkOn(nodes: seq<Node>, path: Paths, cur: nat, prefixIndex: nat, k: Bytes)
      requires Shape(nodes, path) && Walked(nodes, path, cur, prefixIndex, k) && prefixIndex < |nodes[cur].prefix|
      ensures Walked(nodes, path, cur, prefixIndex + 1, k + [nodes[cur].prefix[prefixIndex]])
    {
      var prefix := nodes[cur].prefix;
      assert prefix[..prefixIndex + 1] == prefix[..prefixIndex] + [prefix[prefixIndex]];
    }

    static ghost predicate NewLeaf(nodes: seq<Node>, n: nat) {
      n < |nodes| && nodes[n].value == [] && !HasChildren(nodes[n]) && |nodes[n].prefix| == 1
    }

    /** add_node where the child slot is empty: a live leaf, still without a value. */
    method Sprout(from: nat, to: Byte) returns (r: nat)
      requires Midway(from) && nodes[from].children[to] == 0
      requires from == 0 || nodes[from].value != [] || HasChildren(nodes[from])
      modifies this`nodes, this`backup, this`free, this`path
      ensures Midway(r) && View() == old(View())
      ensures r != 0 && NewLeaf(nodes, r) && path == old(path)[r := old(path)[from] + [to]]
      ensures free <= old(free)
      ensures Bounded(|old(nodes)|, old(backup), |nodes|, backup)
      ensures Adds(old(Now()), old(path)[from] + [to], r, Now())
    {
      r := AddNode(from, to);
      path := path[r := path[from] + [to]];
      Sprouted(hasher, old(nodes), old(path), old(free), old(backup), permanent, saved, from, to, r, nodes, backup,
               Now());
    }

    /** The edge into cur is cut after k bytes; the new upper half is returned. */
    method CutEdge(cur: nat, k: nat) returns (split: nat)
      requires Sound() && cur in path && cur != 0 && 0 < k < |nodes[cur].prefix|
      requires UpLink(nodes, path, cur) && nodes[cur].parent != cur
      modifies this`nodes, this`backup, this`free
      ensures split !in path && split <= |old(nodes)| && nodes == WithSplit(old(nodes), cur, k, split)
      ensures SoundState(nodes, path[split := SplitPath(old(nodes), path, cur, k)], free, backup, permanent, saved)
      ensures Dirty(backup, permanent, cur) && Dirty(backup, permanent, split)
      ensures free <= old(free)
      ensures Bounded(|old(nodes)|, old(backup), |nodes|, backup)
      ensures split in old(free) || (old(free) == {} && split == |old(nodes)|)
      ensures (forall x :: x in old(free) ==> split <= x) && free == old(free) - {split}
    {
      var prefix := nodes[cur].prefix;
      Protect(cur);
      ghost var kept := backup;
      split := AddNode(nodes[cur].parent, prefix[0]);
      BoundedThen(|old(nodes)|, old(backup), |old(nodes)|, kept, |nodes|, backup);
      nodes := nodes[cur := nodes[cur].(parent := split, prefix := prefix[k..])];
      nodes := nodes[split := nodes[split].(children := nodes[split].children[prefix[k] := cur],
                                            prefix := prefix[..k])];
      SplitShape(old(nodes), path, cur, k, split);
      SplitSound(old(nodes), path, old(free), old(backup), permanent, saved, cur, k, split, nodes, backup);
    }

    /** Splits the edge and rehashes from the lower half up. */
    method SplitNode(cur: nat, k: nat) returns (split: nat)
      requires Valid() && cur in path && cur != 0 && 0 < k < |nodes[cur].prefix|
      modifies this`nodes, this`backup, this`free, this`path
      ensures Midway(split) && Hashed(hasher, nodes, path) && View() == old(View())
      ensures UpLink(old(nodes), old(path), cur)
      ensures path == old(path)[split := SplitPath(old(nodes), old(path), cur, k)]
      ensures nodes[split].prefix == old(nodes[cur].prefix)[..k]
      ensures OnlyChild(nodes[split], old(nodes[cur].prefix)[k])
      ensures free <= old(free)
      ensures Bounded(|old(nodes)|, old(backup), |nodes|, backup)
      ensures Adds(old(Now()), SplitPath(old(nodes), old(path), cur, k), split, Now())
    {
      split := Halve(cur, k);
      ghost var halved := nodes;
      HashUp(cur);
      SameOnlyChild(halved[split], nodes[split]);
    }

    method Halve(cur: nat, k: nat) returns (split: nat)
      requires Valid() && cur in path && cur != 0 && 0 < k < |nodes[cur].prefix|
      modifies this`nodes, this`backup, this`free, this`path
      ensures UpLink(old(nodes), old(path), cur)
      ensures Sound() && View() == old(View()) && split in path && cur in path
      ensures Dirty(backup, permanent, cur) && Dirty(backup, permanent, split)
      ensures CanonicalBut(nodes, path, split) && HashedOff(hasher, nodes, path, path[cur])
      ensures path == old(path)[split := SplitPath(old(nodes), old(path), cur, k)]
      ensures nodes[split].prefix == old(nodes[cur].prefix)[..k]
      ensures OnlyChild(nodes[split], old(nodes[cur].prefix)[k])
      ensures free <= old(free) && Bounded(|old(nodes)|, old(backup), |nodes|, backup)
      ensures Adds(old(Now()), SplitPath(old(nodes), old(path), cur, k), split, Now())
    {
      assert UpLink(nodes, path, cur);
      split := CutEdge(cur, k);
      path := path[split := SplitPath(old(nodes), old(path), cur, k)];
      Halved(hasher, old(nodes), old(path), old(free), cur, k, split, nodes, Now());
    }

    /** CalculateHash in a sound state: nothing but hashes change. */
    method HashUp(cur: nat)
      requires Sound() && cur in path && Dirty(backup, permanent, cur)
      modifies this`nodes
      ensures Sound() && View() == old(View()) && SameButHash(old(nodes), nodes)
      ensures old(HashedOff(hasher, nodes, path, path[cur])) ==> Hashed(hasher, nodes, path)
      ensures old(Canonical(nodes, path)) ==> Canonical(nodes, path)
      ensures forall x :: old(CanonicalBut(nodes, path, x)) ==> CanonicalBut(nodes, path, x)
    {
      ShapeIsChain(nodes, path);
      CalculateHash(cur);
      SameButHashKeeps(old(nodes), nodes, path);
    }

    // ------------------------------------------------------------------ erase

    /** Erasing the empty key goes wrong unless the root has no value or at least two children. */
    static ghost predicate EraseWorks(nodes: seq<Node>, key: Bytes)
      requires nodes != []
    {
      key != [] || nodes[0].value == [] || TwoChildren(nodes[0])
    }

    /**
      Removes a key.  Fails, changing nothing, when the key is not set.  When the key is the empty
      one and the root has fewer than two children, the root slot itself is marked free and keeps
      its value.
     */
    method Erase(key: Bytes) returns (ok: bool)
      requires Valid()
      modifies this`nodes, this`backup, this`free, this`path
      ensures ok == (key in old(View()))
      ensures !ok ==> nodes == old(nodes) && backup == old(backup) && free == old(free) && path == old(path)
      ensures ok && old(EraseWorks(nodes, key)) ==> Valid() && View() == old(View()) - {key}
      ensures ok && old(EraseWorks(nodes, key)) ==> Shrinks(old(path), path) && |nodes| == |old(nodes)|
      ensures ok && !old(EraseWorks(nodes, key)) ==>
                nodes != [] && 0 in free && nodes[0].value == old(nodes[0].value)
      ensures old(InBounds(nodes, backup)) ==> InBounds(nodes, backup)
      ensures old(EraseWorks(nodes, key)) ==> Bounded(|old(nodes)|, old(backup), |nodes|, backup)
    {
      var index := GetNodeIndex(key);
      if index != -1 {
        ContentsAt(nodes, path, index);
      }
      ok := index != -1 && nodes[index].value != [];
      BoundedStill(|nodes|, backup, |nodes|);
      ShrinksNot(path);
      if !ok {
        return;
      }
      EmptyPath(nodes, path, index);
      Protect(index);
      ghost var kept := backup;
      var kids := ListChildren(index);
      KidCount(nodes[index], kids);
      if index == 0 && |kids| <= 1 {
        EraseRoot(kids);
        BoundedThen(|old(nodes)|, old(backup), |old(nodes)|, kept, |nodes|, backup);
      } else {
        EraseAt(index, kids);
        BoundedThen(|old(nodes)|, old(backup), |old(nodes)|, kept, |nodes|, backup);
      }
      BoundedIn(old(nodes), old(backup), nodes, backup);
    }

    /** What happens to the node of an erased key depends on how many children it has. */
    method EraseAt(index: nat, kids: seq<Byte>)
      requires Valid() && index in path && Dirty(backup, permanent, index) && nodes[index].value != []
      requires if |kids| > 1 then TwoChildren(nodes[index])
               else index != 0 && if |kids| == 1 then OnlyChild(nodes[index], kids[0]) else !HasChildren(nodes[index])
      modifies this`nodes, this`backup, this`free, this`path
      ensures Valid() && View() == old(View()) - {old(path)[index]}
      ensures Shrinks(old(path), path) && |nodes| == |old(nodes)|
      ensures Bounded(|old(nodes)|, old(backup), |nodes|, backup)
    {
      var cur: nat;
      if |kids| > 1 {
        cur := index;
        ShrinksNot(path);
        BoundedStill(|nodes|, backup, |nodes|);
        SetValue(hasher, nodes, path, index, []);
        nodes := nodes[index := nodes[index].(value := [])];
        SameFork(old(nodes)[index], nodes[index]);
        assert Needed(nodes[index]);
      } else if |kids| == 1 {
        cur := MergeIntoChild(index, kids[0]);
      } else {
        cur := RemoveLeaf(index);
      }
      HashUp(cur);
    }

    /** The code of erase for the root with at most one child. */
    method EraseRoot(kids: seq<Byte>)
      requires Sound() && Dirty(backup, permanent, 0) && |kids| <= 1
      requires forall b: Byte :: b in kids <==> nodes[0].children[b] != 0
      modifies this`nodes, this`backup, this`free
      ensures nodes != [] && 0 in free && nodes[0].value == old(nodes[0].value)
      ensures Bounded(|old(nodes)|, old(backup), |nodes|, backup)
    {
      ShapeIsChain(nodes, path);
      var cur := 0;
      BoundedStill(|nodes|, backup, |nodes|);
      if |kids| == 1 {
        assert kids[0] in kids && DownLink(nodes, path, 0, kids[0]);
        var child := nodes[0].children[kids[0]];
        Protect(child);
        nodes := nodes[0 := nodes[0].(children := nodes[0].children[0 := child])];
        cur := child;
      } else {
        nodes := nodes[0 := nodes[0].(children := nodes[0].children[0 := 0])];
      }
      free := free + {0};
      CalculateHash(cur);
    }

    /** Node cur gives its edge to its only child and becomes free. */
    method MergeIntoChild(cur: nat, b: Byte) returns (child: nat)
      requires Sound() && cur in path && cur != 0 && Dirty(backup, permanent, cur) && OnlyChild(nodes[cur], b)
      requires CanonicalBut(nodes, path, cur) && HashedOff(hasher, nodes, path, path[cur])
      modifies this`nodes, this`backup, this`free, this`path
      ensures Sound() && child in path && Dirty(backup, permanent, child)
      ensures Canonical(nodes, path) && HashedOff(hasher, nodes, path, path[child])
      ensures View() == old(View()) - {old(path)[cur]}
      ensures Shrinks(old(path), path) && |nodes| == |old(nodes)|
      ensures Bounded(|old(nodes)|, old(backup), |nodes|, backup)
    {
      MergeEdge(hasher, nodes, path, cur, b);
      child := nodes[cur].children[b];
      Protect(child);
      MergeSound(nodes, path, free, backup, permanent, saved, cur, b);
      var parent, prefix := nodes[cur].parent, nodes[cur].prefix;
      nodes := nodes[child := nodes[child].(prefix := prefix + nodes[child].prefix)];
      nodes := nodes[parent := nodes[parent].(children := nodes[parent].children[prefix[0] := child])];
      nodes := nodes[child := nodes[child].(parent := parent)];
      free := free + {cur};
      ShrinksTo(path, {cur});
      path := path - {cur};
    }

    /** A childless node leaves; its parent may have to follow. */
    method RemoveLeaf(leaf: nat) returns (cur: nat)
      requires Valid() && leaf in path && leaf != 0 && Dirty(backup, permanent, leaf) && !HasChildren(nodes[leaf])
      modifies this`nodes, this`backup, this`free, this`path
      ensures Sound() && cur in path && Dirty(backup, permanent, cur)
      ensures Canonical(nodes, path) && HashedOff(hasher, nodes, path, path[cur])
      ensures View() == old(View()) - {old(path)[leaf]}
      ensures Shrinks(old(path), path) && |nodes| == |old(nodes)|
      ensures Bounded(|old(nodes)|, old(backup), |nodes|, backup)
    {
      LeafBelow(nodes, path, leaf);
      assert UpLink(nodes, path, leaf);
      var parent := Unhang(leaf, free);
      ghost var mid := path;
      cur := TidyParent(parent);
      ShrinksThen(old(path), mid, path);
    }

    /** The subtrie at n, whose other slots are free already, is cut off from its parent. */
    method Unhang(n: nat, ghost free0: set<nat>) returns (parent: nat)
      requires SoundState(nodes, path, free0, backup, permanent, saved) && Committed(hasher, saved, savedPath)
      requires n in path && n != 0 && free + {n} == free0 + Below(path, path[n])
      requires UpLink(nodes, path, n) && Dirty(backup, permanent, nodes[n].parent)
      requires Canonical(nodes, path) && Hashed(hasher, nodes, path)
      modifies this`nodes, this`free, this`path
      ensures Sound() && parent in path && Dirty(backup, permanent, parent) && |nodes| == |old(nodes)|
      ensures CanonicalBut(nodes, path, parent) && HashedOff(hasher, nodes, path, path[parent])
      ensures parent != 0 && nodes[parent].value == [] ==> HasChildren(nodes[parent])
      ensures View() == Outside(old(View()), old(path)[n])
      ensures Shrinks(old(path), path)
    {
      DropSubtrie(hasher, nodes, path, n);
      DropSound(nodes, path, free0, backup, permanent, saved, n);
      parent := nodes[n].parent;
      StillForked(nodes, path, parent, nodes[n].prefix[0]);
      nodes := nodes[parent := nodes[parent].(children := nodes[parent].children[nodes[n].prefix[0] := 0])];
      free := free + {n};
      ShrinksTo(path, Below(path, path[n]));
      path := path - Below(path, path[n]);
    }

    /** A parent left with one child, no value and an edge of its own is merged into that child. */
    method TidyParent(parent: nat) returns (cur: nat)
      requires Sound() && parent in path && Dirty(backup, permanent, parent)
      requires CanonicalBut(nodes, path, parent) && HashedOff(hasher, nodes, path, path[parent])
      requires parent != 0 && nodes[parent].value == [] ==> HasChildren(nodes[parent])
      modifies this`nodes, this`backup, this`free, this`path
      ensures Sound() && cur in path && Dirty(backup, permanent, cur)
      ensures Canonical(nodes, path) && HashedOff(hasher, nodes, path, path[cur])
      ensures View() == old(View())
      ensures Shrinks(old(path), path) && |nodes| == |old(nodes)|
      ensures Bounded(|old(nodes)|, old(backup), |nodes|, backup)
    {
      var kids := ListChildren(parent);
      KidCount(nodes[parent], kids);
      if nodes[parent].value == [] && |kids| == 1 && parent != 0 {
        ContentsAt(nodes, path, parent);
        cur := MergeIntoChild(parent, kids[0]);
      } else {
        cur := parent;
        ShrinksNot(path);
        BoundedStill(|nodes|, backup, |nodes|);
        assert parent != 0 ==> Needed(nodes[parent]);
      }
    }

    // -------------------------------------------------------- delete_node_tree

    /** Every slot at or below cur becomes free. */
    method SubtrieMarkFree(cur: nat, ghost bound: nat)
      requires Shape(nodes, path) && cur in path && forall n :: n in path ==> |path[n]| <= bound
      modifies this`free
      ensures free == old(free) + Below(path, path[cur])
      decreases bound - |path[cur]|
    {
      free := free + {cur};
      for i := 0 to 256
        invariant free == old(free) + {cur} + BelowKids(path, path[cur], i)
      {
        BelowKid(nodes, path, cur, i);
        if nodes[cur].children[i] != 0 {
          assert UpLink(nodes, path, nodes[cur].children[i]);
          SubtrieMarkFree(nodes[cur].children[i], bound);
        }
      }
      AllBelow(nodes, path, cur);
    }

    /**
      Removes a set key and every key that extends it.  On the empty key it marks the root free.
     */
    method DeleteNodeTree(key: Bytes) returns (ok: bool)
      requires Valid()
      modifies this`nodes, this`backup, this`free, this`path
      ensures ok == (key in old(View()))
      ensures !ok ==> nodes == old(nodes) && backup == old(backup) && free == old(free) && path == old(path)
      ensures ok && key != [] ==> Valid() && View() == Outside(old(View()), key)
      ensures ok && key == [] ==> 0 in free
      ensures old(InBounds(nodes, backup)) ==> InBounds(nodes, backup)
      ensures key != [] ==> Bounded(|old(nodes)|, old(backup), |nodes|, backup)
      ensures key != [] || !ok ==> Shrinks(old(path), path) && |nodes| == |old(nodes)|
    {
      var index := GetNodeIndex(key);
      if index != -1 {
        ContentsAt(nodes, path, index);
      }
      ok := index != -1 && nodes[index].value != [];
      BoundedStill(|nodes|, backup, |nodes|);
      ShrinksNot(path);
      if !ok {
        return;
      }
      EmptyPath(nodes, path, index);
      if index == 0 {
        DeleteRoot();
      } else {
        DeleteAt(index);
      }
      BoundedIn(old(nodes), old(backup), nodes, backup);
    }

    /** delete_node_tree on a node below the root. */
    method DeleteAt(index: nat)
      requires Valid() && index in path && index != 0
      modifies this`nodes, this`backup, this`free, this`path
      ensures Valid() && View() == Outside(old(View()), old(path)[index])
      ensures Bounded(|old(nodes)|, old(backup), |nodes|, backup)
      ensures Shrinks(old(path), path) && |nodes| == |old(nodes)|
    {
      assert UpLink(nodes, path, index);
      Protect(nodes[index].parent);
      ghost var kept := backup;
      DropTree(index);
      BoundedThen(|old(nodes)|, old(backup), |old(nodes)|, kept, |nodes|, backup);
    }

    method DropTree(index: nat)
      requires Valid() && index in path && index != 0
      requires UpLink(nodes, path, index) && Dirty(backup, permanent, nodes[index].parent)
      modifies this`nodes, this`backup, this`free, this`path
      ensures Valid() && View() == Outside(old(View()), old(path)[index])
      ensures Bounded(|old(nodes)|, old(backup), |nodes|, backup)
      ensures Shrinks(old(path), path) && |nodes| == |old(nodes)|
    {
      ghost var bound := LengthBound(path);
      ghost var free0 := free;
      SubtrieMarkFree(index, bound);
      var parent := Unhang(index, free0);
      ghost var mid := path;
      var cur := TidyParent(parent);
      ShrinksThen(old(path), mid, path);
      HashUp(cur);
    }

    /** The same code on the root. */
    method DeleteRoot()
      requires Valid()
      modifies this`nodes, this`backup, this`free
      ensures 0 in free
      ensures Bounded(|old(nodes)|, old(backup), |nodes|, backup)
    {
      Protect(nodes[0].parent);
      ghost var bound := LengthBound(path);
      SubtrieMarkFree(0, bound);
      ShapeIsChain(nodes, path);
      nodes := nodes[0 := nodes[0].(children := nodes[0].children[0 := 0])];
      free := free + {0};
      CalculateHash(0);
    }

    // ---------------------------------------------------------- commit, discard

    /**
      Makes the current contents permanent and closes the gaps left by free slots.  The trie
      survives exactly when it is Compactable; otherwise some link is left dangling.
     */
    method CommitChanges()
      requires Valid()
      modifies this
      ensures backup == map[] && free == {} && permanent == |nodes| == |old(nodes)| - |old(free)|
      ensures old(Compactable(nodes, path, free)) ==>
                Valid() && View() == old(View()) && saved == nodes && savedPath == path
      ensures !old(Compactable(nodes, path, free)) ==> Broken(nodes)
      ensures old(Compactable(nodes, path, free)) ==> Closes(old(Now()), Now())
    {
      ghost var good := Defragment();
      backup := map[];
      permanent := |nodes|;
      if good {
        saved, savedPath := nodes, path;
        FreshCommit(hasher, nodes, path);
      }
    }

    /** Free slots are closed up; what that does to the trie depends on Compactable. */
    method Defragment() returns (ghost good: bool)
      requires Valid()
      modifies this`nodes, this`free, this`path
      ensures free == {} && |nodes| == |old(nodes)| - |old(free)|
      ensures good == old(Compactable(nodes, path, free))
      ensures good ==> Stands(hasher, nodes, path, old(View())) && AllLive(nodes, path)
      ensures !good ==> Broken(nodes)
      ensures good ==> Closes(old(Now()), Now())
    {
      good := Compactable(nodes, path, free);
      if free != {} {
        var slots := SortedSlots(free);
        CursorsStart(nodes, path, free, slots);
        ghost var run;
        nodes, run := CloseGaps(nodes, slots);
        path := Compacted(hasher, old(nodes), path, free, slots, run);
        free := {};
      }
    }

    /**
      Back to the last commit.  Backups are kept, so after one discard they may name slots that
      the vector no longer has; writing those back is undefined, reported here by `ok`.
     */
    method DiscardChanges() returns (ok: bool)
      requires Valid()
      modifies this`nodes, this`free, this`path
      ensures ok == old(InBounds(nodes, backup))
      ensures ok ==> Valid() && nodes == saved && path == savedPath && free == {}
    {
      var keys := backup.Keys;
      while keys != {}
        invariant keys <= backup.Keys && |nodes| == |old(nodes)|
        invariant forall k :: k in backup && k !in keys ==> k < |nodes| && nodes[k] == backup[k]
        invariant forall i :: 0 <= i < |nodes| && i !in backup ==> nodes[i] == old(nodes)[i]
        decreases keys
      {
        var k := Smallest(keys);
        if k >= |nodes| {
          return false;
        }
        nodes := nodes[k := backup[k]];
        keys := keys - {k};
      }
      nodes := nodes[..permanent];
      assert nodes == saved;
      free := {};
      path := savedPath;
      return true;
    }
  }
}
