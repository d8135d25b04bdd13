/**
  Which slot of the vector holds which key, as far as the operations decide it: a new node takes the
  smallest free slot, removals leave the others where they are, and commits fill gaps from the end.
  With the same layout and the same contents, two tries have the same layout after the same operation.
 */
module TrieLayout {
  import opened Octets
  import opened TrieModel
  import opened TrieEdits
  import opened TrieCommit

  datatype Layout = Layout(path: Paths, free: set<nat>, size: nat)

  /** Every slot is either live or free, never both. */
  ghost predicate Tidy(l: Layout) {
    && (forall i {:trigger i in l.path} :: i in l.path ==> i !in l.free)
    && (forall i: nat {:trigger i in l.path} {:trigger i in l.free} :: i < l.size <==> i in l.path || i in l.free)
  }

  ghost predicate Injective(path: Paths) {
    forall n, m {:trigger path[n], path[m]} :: n in path && m in path && path[n] == path[m] ==> n == m
  }

  lemma ShapeIsInjective(nodes: seq<Node>, path: Paths)
    requires Shape(nodes, path)
    ensures Injective(path)
  {
    forall n, m | n in path && m in path && path[n] == path[m] ensures n == m {
      SamePath(nodes, path, n, m);
    }
  }

  /** Canonical tries with the same contents hold the same keys. */
  lemma SameKeys(nodes: seq<Node>, path: Paths, nodes': seq<Node>, path': Paths)
    requires Shape(nodes, path) && Canonical(nodes, path) && Shape(nodes', path') && Canonical(nodes', path')
    requires Contents(nodes, path) == Contents(nodes', path')
    ensures path.Values == path'.Values
  {
    forall k | k in path.Values ensures k in path'.Values {
      var n' := SameLivePaths(nodes, path, nodes', path', NodeAt(path, k));
    }
    forall k | k in path'.Values ensures k in path.Values {
      var n := SameLivePaths(nodes', path', nodes, path, NodeAt(path', k));
    }
  }

  lemma SameFree(l: Layout, l': Layout)
    requires Tidy(l) && Tidy(l') && l.path == l'.path && l.size == l'.size
    ensures l == l'
  {
    forall i: nat ensures i in l.free <==> i in l'.free {
      assert i < l.size <==> i in l.path || i in l.free;
      assert i < l'.size <==> i in l'.path || i in l'.free;
      assert i in l.path ==> i !in l.free && i !in l'.free;
    }
  }

  // ------------------------------------------------------------------ new nodes

  ghost predicate AddsFacts(l: Layout, k: Bytes, r: nat, l': Layout) {
    && (if l.free == {} then r == l.size else r in l.free && forall x :: x in l.free ==> r <= x)
    && l' == Layout(l.path[r := k], l.free - {r}, if r == l.size then l.size + 1 else l.size)
  }

  /** A new node for k takes slot r, the smallest free one or else one at the end; proofs look inside on demand. */
  ghost predicate Adds(l: Layout, k: Bytes, r: nat, l': Layout) {
    forall u: nat {:trigger AddsFacts(l, k, u, l')} :: u == r ==> AddsFacts(l, k, u, l')
  }

  lemma SameAdded(l: Layout, k: Bytes, r: nat, l': Layout, q: nat, l'': Layout)
    requires Adds(l, k, r, l') && Adds(l, k, q, l'')
    ensures r == q && l' == l''
  {
    assert AddsFacts(l, k, r, l') && AddsFacts(l, k, q, l'');
  }

  lemma AddedTidy(l: Layout, k: Bytes, r: nat, l': Layout)
    requires Tidy(l) && Adds(l, k, r, l')
    ensures Tidy(l') && r !in l.path && l'.path == l.path[r := k] && l'.path.Values == l.path.Values + {k}
    ensures l.size <= l'.size && r < l'.size && (l'.size > l.size ==> r == l'.size - 1 && l'.free == {})
    ensures l.free == {} ==> l'.size > l.size
  {
    assert AddsFacts(l, k, r, l');
    if l.free != {} {
      assert r in l.free;
    }
    assert r !in l.path;
    forall x | x in l.path.Values + {k} ensures x in l'.path.Values {
      if x in l.path.Values {
        var n :| n in l.path && l.path[n] == x;
        assert n in l'.path && l'.path[n] == x;
      } else {
        assert l'.path[r] == x;
      }
    }
  }

  /** First a fork, and then the node for k. */
  ghost predicate Forks(l0: Layout, fork: Bytes, split: nat, l1: Layout, k: Bytes, l: Layout, cur: nat) {
    Adds(l0, fork, split, l1) && Adds(l1, k, cur, l)
  }

  ghost predicate SitesFacts(l0: Layout, k: Bytes, l: Layout, cur: nat) {
    Adds(l0, k, cur, l) || exists fork, split, l1 :: Forks(l0, fork, split, l1, k, l, cur)
  }

  /** From l0 to l a node for k was made, at slot cur, and perhaps a fork before it; proofs look inside on demand. */
  ghost predicate Sites(l0: Layout, k: Bytes, l: Layout, cur: nat) {
    forall u: nat {:trigger SitesFacts(l0, k, l, u)} :: u == cur ==> SitesFacts(l0, k, l, u)
  }

  lemma SiteOne(l0: Layout, k: Bytes, cur: nat, l: Layout)
    requires Adds(l0, k, cur, l)
    ensures Sites(l0, k, l, cur)
  {
    assert SitesFacts(l0, k, l, cur);
  }

  lemma SiteTwo(l0: Layout, fork: Bytes, split: nat, l1: Layout, k: Bytes, cur: nat, l: Layout)
    requires Adds(l0, fork, split, l1) && Adds(l1, k, cur, l)
    ensures Sites(l0, k, l, cur)
  {
    assert Forks(l0, fork, split, l1, k, l, cur);
    assert SitesFacts(l0, k, l, cur);
  }

  /** The edge into a new node may grow before the node is done. */
  lemma SiteStretched(l0: Layout, k: Bytes, l: Layout, cur: nat, k': Bytes)
    requires Sites(l0, k, l, cur)
    ensures Sites(l0, k', l.(path := l.path[cur := k']), cur)
  {
    assert SitesFacts(l0, k, l, cur);
    var l' := l.(path := l.path[cur := k']);
    if Adds(l0, k, cur, l) {
      AddsStretched(l0, k, cur, l, k');
      SiteOne(l0, k', cur, l');
    } else {
      var fork, split, l1 :| Forks(l0, fork, split, l1, k, l, cur);
      AddsStretched(l1, k, cur, l, k');
      SiteTwo(l0, fork, split, l1, k', cur, l');
    }
  }

  lemma AddsStretched(l: Layout, k: Bytes, r: nat, l': Layout, k': Bytes)
    requires Adds(l, k, r, l')
    ensures Adds(l, k', r, l'.(path := l'.path[r := k']))
  {
    assert AddsFacts(l, k, r, l');
    assert AddsFacts(l, k', r, l'.(path := l'.path[r := k']));
  }

  /** If the vector grew, the node for the key stands at its end. */
  lemma SiteLast(l0: Layout, k: Bytes, l: Layout, cur: nat)
    requires Sites(l0, k, l, cur) && Tidy(l0)
    ensures l0.size <= l.size && (l.size > l0.size ==> cur == l.size - 1)
  {
    assert SitesFacts(l0, k, l, cur);
    if Adds(l0, k, cur, l) {
      AddedTidy(l0, k, cur, l);
    } else {
      var fork, split, l1 :| Forks(l0, fork, split, l1, k, l, cur);
      AddedTidy(l0, fork, split, l1);
      AddedTidy(l1, k, cur, l);
    }
  }

  /** What set does to the layout: nothing if there is a node for the key, and else makes one. */
  ghost predicate Settles(l0: Layout, k: Bytes, l: Layout) {
    l == l0 || exists cur :: Sites(l0, k, l, cur)
  }

  /** The keys that a new node, and perhaps a fork, bring. */
  lemma SiteKeys(l0: Layout, k: Bytes, l: Layout, cur: nat) returns (forks: set<Bytes>)
    requires Tidy(l0) && Sites(l0, k, l, cur) && Injective(l.path)
    ensures k !in l0.path.Values && k !in forks && forks !! l0.path.Values
    ensures l.path.Values == l0.path.Values + forks + {k} && Brings(l0, k, l, forks)
  {
    assert SitesFacts(l0, k, l, cur);
    if Adds(l0, k, cur, l) {
      forks := {};
      AddedTidy(l0, k, cur, l);
      NewKey(l0.path, l.path, cur, k);
    } else {
      var fork, split, l1 :| Forks(l0, fork, split, l1, k, l, cur);
      forks := {fork};
      AddedTidy(l0, fork, split, l1);
      AddedTidy(l1, k, cur, l);
      NewKey(l1.path, l.path, cur, k);
      NewKey(l0.path, l1.path, split, fork);
    }
  }

  ghost predicate Brings(l0: Layout, k: Bytes, l: Layout, forks: set<Bytes>) {
    if forks == {} then exists cur :: Adds(l0, k, cur, l)
    else exists fork, split, l1, cur :: forks == {fork} && Forks(l0, fork, split, l1, k, l, cur)
  }

  lemma NewKey(path: Paths, path': Paths, r: nat, k: Bytes)
    requires r !in path && path' == path[r := k] && Injective(path')
    ensures k !in path.Values && Injective(path)
  {
    forall n | n in path ensures path[n] != k {
      assert path'[n] == path[n] && path'[r] == k;
    }
    forall n, m | n in path && m in path && path[n] == path[m] ensures n == m {
      assert path'[n] == path'[m];
    }
  }

  /** From the same layout, and to the same keys, set leads to the same layout. */
  lemma SameSettled(l0: Layout, k: Bytes, l: Layout, l': Layout)
    requires Tidy(l0) && Settles(l0, k, l) && Settles(l0, k, l') && Injective(l.path) && Injective(l'.path)
    requires l.path.Values == l'.path.Values
    ensures l == l'
  {
    if l == l0 {
      if l' != l0 {
        var cur' :| Sites(l0, k, l', cur');
        var forks := SiteKeys(l0, k, l', cur');
      }
    } else {
      var cur :| Sites(l0, k, l, cur);
      var forks := SiteKeys(l0, k, l, cur);
      assert k in l.path.Values;
      var cur' :| Sites(l0, k, l', cur');
      var forks' := SiteKeys(l0, k, l', cur');
      assert forks == l.path.Values - l0.path.Values - {k} == forks';
      SameForks(l0, k, l, l', forks);
    }
  }

  lemma SameForks(l0: Layout, k: Bytes, l: Layout, l': Layout, forks: set<Bytes>)
    requires Brings(l0, k, l, forks) && Brings(l0, k, l', forks)
    ensures l == l'
  {
    if forks == {} {
      var x :| Adds(l0, k, x, l);
      var y :| Adds(l0, k, y, l');
      SameAdded(l0, k, x, l, y, l');
    } else {
      var f, r, l1, x :| forks == {f} && Forks(l0, f, r, l1, k, l, x);
      var g, q, l2, y :| forks == {g} && Forks(l0, g, q, l2, k, l', y);
      assert g in forks;
      SameAdded(l0, f, r, l1, q, l2);
      SameAdded(l1, k, x, l, y, l');
    }
  }

  // ------------------------------------------------------------------- removals

  ghost predicate ShrinksFacts(path: Paths, path': Paths) {
    forall n {:trigger n in path'} :: n in path' ==> n in path && path'[n] == path[n]
  }

  /** Slots may have been given up; the others keep their keys; proofs look inside on demand. */
  ghost predicate Shrinks(path: Paths, path': Paths) {
    forall u: Paths {:trigger ShrinksFacts(u, path')} :: u == path ==> ShrinksFacts(u, path')
  }

  lemma ShrinksTo(path: Paths, gone: set<nat>)
    ensures Shrinks(path, path - gone)
  {
    assert ShrinksFacts(path, path - gone);
  }

  lemma ShrinksNot(path: Paths)
    ensures Shrinks(path, path)
  {
    assert ShrinksFacts(path, path);
  }

  lemma ShrinksThen(path: Paths, path': Paths, path'': Paths)
    requires Shrinks(path, path') && Shrinks(path', path'')
    ensures Shrinks(path, path'')
  {
    assert ShrinksFacts(path, path') && ShrinksFacts(path', path'');
    assert ShrinksFacts(path, path'');
  }

  /** To the same keys, removals lead to the same slots. */
  lemma SameShrunk(path0: Paths, path: Paths, path': Paths)
    requires Injective(path0) && Shrinks(path0, path) && Shrinks(path0, path') && path.Values == path'.Values
    ensures path == path'
  {
    KeysStay(path0, path, path');
    KeysStay(path0, path', path);
  }

  lemma KeysStay(path0: Paths, path: Paths, path': Paths)
    requires Injective(path0) && Shrinks(path0, path) && Shrinks(path0, path') && path.Values <= path'.Values
    ensures forall n :: n in path ==> n in path' && path'[n] == path[n]
  {
    assert ShrinksFacts(path0, path) && ShrinksFacts(path0, path');
    forall n | n in path ensures n in path' && path'[n] == path[n] {
      assert path[n] in path.Values;
      var m :| m in path' && path'[m] == path[n];
      assert path0[m] == path0[n];
    }
  }

  // -------------------------------------------------------------------- commits

  /** The slots in increasing order. */
  ghost predicate Lists(slots: seq<nat>, free: set<nat>) {
    Ascending(slots) && forall x :: x in slots <==> x in free
  }

  lemma {:induction false} SameListing(a: seq<nat>, b: seq<nat>, free: set<nat>)
    requires Lists(a, free) && Lists(b, free)
    ensures a == b
    decreases |a|
  {
    NothingListed(a, free);
    NothingListed(b, free);
    if free != {} {
      var x, y := a[|a| - 1], b[|b| - 1];
      assert x in b && y in a;
      assert x == y;
      ListsLess(a, free);
      ListsLess(b, free);
      SameListing(a[..|a| - 1], b[..|b| - 1], free - {x});
      assert a == a[..|a| - 1] + [x] && b == b[..|b| - 1] + [y];
    }
  }

  lemma NothingListed(a: seq<nat>, free: set<nat>)
    requires Lists(a, free)
    ensures a == [] <==> free == {}
  {
    if free != {} {
      var x :| x in free;
      assert x in a;
    }
    if a != [] {
      assert a[0] in a;
      assert a[0] in free;
    }
  }

  lemma ListsLess(a: seq<nat>, free: set<nat>)
    requires Lists(a, free) && a != []
    ensures Lists(a[..|a| - 1], free - {a[|a| - 1]})
  {
    var x, rest := a[|a| - 1], a[..|a| - 1];
    forall y ensures y in rest <==> y in free - {x} {
      if y in free && y != x {
        assert y in a;
        var i :| 0 <= i < |a| && a[i] == y;
        assert rest[i] == y;
      }
    }
  }

  /** What a commit that keeps the trie does to the layout: gaps are closed from the end. */
  ghost predicate Closes(l0: Layout, l: Layout) {
    && l.free == {} && l.size == l0.size - |l0.free|
    && if l0.free == {} then l.path == l0.path
       else exists slots: seq<nat> :: Lists(slots, l0.free) && l.path == ClosedUp(l0.path, slots, l0.size)
  }

  lemma SameClosed(l0: Layout, l: Layout, l': Layout)
    requires Closes(l0, l) && Closes(l0, l')
    ensures l == l'
  {
    if l0.free != {} {
      var a: seq<nat> :| Lists(a, l0.free) && l.path == ClosedUp(l0.path, a, l0.size);
      var b: seq<nat> :| Lists(b, l0.free) && l'.path == ClosedUp(l0.path, b, l0.size);
      SameListing(a, b, l0.free);
    }
  }

  // -------------------------------------------------------------------- backups

  ghost predicate BoundedFacts(n: nat, backup: Backups, n': nat, backup': Backups) {
    n <= n' && backup.Keys <= backup'.Keys && forall k :: k in backup' && k !in backup ==> k < n'
  }

  /** Backups are only added, of slots below n', while the vector grows from n to n'; proofs look inside on demand. */
  ghost predicate Bounded(n: nat, backup: Backups, n': nat, backup': Backups) {
    forall u: nat {:trigger BoundedFacts(u, backup, n', backup')} :: u == n ==> BoundedFacts(u, backup, n', backup')
  }

  lemma BoundedStill(n: nat, backup: Backups, n': nat)
    requires n <= n'
    ensures Bounded(n, backup, n', backup)
  {
  }

  lemma BoundedThen(n: nat, backup: Backups, n': nat, backup': Backups, n'': nat, backup'': Backups)
    requires Bounded(n, backup, n', backup') && Bounded(n', backup', n'', backup'')
    ensures Bounded(n, backup, n'', backup'')
  {
    assert BoundedFacts(n, backup, n', backup') && BoundedFacts(n', backup', n'', backup'');
  }

  /** If the vector grew from n to n', its new last slot is backed up. */
  ghost predicate Topped(n: nat, n': nat, backup: Backups) {
    n' > n ==> n' - 1 in backup
  }

  ghost predicate InBounds(nodes: seq<Node>, backup: Backups) {
    forall k :: k in backup ==> k < |nodes|
  }

  lemma BoundedKeeps(nodes: seq<Node>, backup: Backups, nodes': seq<Node>, backup': Backups)
    requires Bounded(|nodes|, backup, |nodes'|, backup') && InBounds(nodes, backup)
    ensures InBounds(nodes', backup')
  {
    assert BoundedFacts(|nodes|, backup, |nodes'|, backup');
  }

  /** The longest the vector has been since the last commit, as far as backups remember it. */
  ghost predicate Peak(size: nat, backup: Backups, permanent: nat, peak: nat) {
    && permanent <= size <= peak && (forall k :: k in backup ==> k < peak)
    && (peak > permanent ==> peak - 1 in backup)
  }

  /** Backups are in bounds exactly when the vector is as long as it ever was. */
  lemma PeakInBounds(nodes: seq<Node>, backup: Backups, permanent: nat, peak: nat)
    requires Peak(|nodes|, backup, permanent, peak)
    ensures InBounds(nodes, backup) <==> |nodes| == peak
  {
  }

  lemma PeakGrows(n: nat, backup: Backups, n': nat, backup': Backups, permanent: nat, peak: nat)
    requires Peak(n, backup, permanent, peak) && Bounded(n, backup, n', backup') && Topped(n, n', backup')
    ensures Peak(n', backup', permanent, if peak < n' then n' else peak)
  {
    assert BoundedFacts(n, backup, n', backup');
  }

  // ---------------------------------------------------------- what nodes look like

  /** With the same keys in the same slots, the same child slots are in use. */
  lemma SameForked(nodes: seq<Node>, nodes': seq<Node>, path: Paths, n: nat)
    requires Shape(nodes, path) && Shape(nodes', path) && n in path
    ensures HasChildren(nodes[n]) ==> HasChildren(nodes'[n])
    ensures TwoChildren(nodes[n]) ==> TwoChildren(nodes'[n])
  {
    forall b: Byte | nodes[n].children[b] != 0 ensures nodes'[n].children[b] != 0 {
      assert DownLink(nodes, path, n, b);
      var c := nodes[n].children[b];
      assert UpLink(nodes, path, c);
      assert path[c][|path[n]|] == b;
      Descend(nodes', path, n, c);
    }
    if TwoChildren(nodes[n]) {
      var a: Byte, b: Byte :| a != b && nodes[n].children[a] != 0 && nodes[n].children[b] != 0;
      assert nodes'[n].children[a] != 0 && nodes'[n].children[b] != 0;
    }
  }
}
