/**
  Two tries whose nodes stand in the same slots: the same operations damage both or neither, and
  leave the nodes in the same slots again.
 */
module TrieTwins {
  import opened Octets
  import opened TrieModel
  import opened TrieCommit
  import opened TrieLayout
  import opened Trie
  import opened TrieRuns

  /** The vectors have been equally long since the last commit, as far as backups remember it. */
  ghost predicate Peaks(a: Snapshot, b: Snapshot, peak: nat) {
    Peak(a.now.size, a.backup, a.permanent, peak) && Peak(b.now.size, b.backup, b.permanent, peak)
  }

  ghost predicate Twins(a: Snapshot, b: Snapshot) {
    a.now == b.now && a.savedPath == b.savedPath && a.permanent == b.permanent && exists peak: nat :: Peaks(a, b, peak)
  }

  /** The slots of a sound trie, in which no key stands twice. */
  ghost predicate Orderly(a: Snapshot) {
    Tidy(a.now) && Injective(a.now.path)
  }

  lemma OrderlyState(nodes: seq<Node>, a: Snapshot)
    requires Shape(nodes, a.now.path) && Partition(nodes, a.now.path, a.now.free) && a.now.size == |nodes|
    ensures Orderly(a)
  {
    PartitionTidy(nodes, a.now.path, a.now.free);
    ShapeIsInjective(nodes, a.now.path);
  }

  lemma PeaksStay(a: Snapshot, b: Snapshot, a': Snapshot, b': Snapshot)
    requires Twins(a, b) && Pending(a, a') && Pending(b, b') && a'.now.size == b'.now.size
    ensures exists peak: nat :: Peaks(a', b', peak)
  {
    var peak: nat :| Peaks(a, b, peak);
    PeakGrows(a.now.size, a.backup, a'.now.size, a'.backup, a.permanent, peak);
    PeakGrows(b.now.size, b.backup, b'.now.size, b'.backup, b.permanent, peak);
    assert Peaks(a', b', if peak < a'.now.size then a'.now.size else peak);
  }

  /** An operation that keeps both tries, and leaves them the same keys, leaves the keys in the same slots. */
  lemma TwinsStay(op: Op, a: Snapshot, b: Snapshot, a': Snapshot, b': Snapshot)
    requires Twins(a, b) && Moved(op, a, a') && Moved(op, b, b') && Orderly(a) && Orderly(a') && Orderly(b')
    requires a'.now.path.Values == b'.now.path.Values
    ensures Twins(a', b')
  {
    if op.Commit? {
      SameClosed(a.now, a'.now, b'.now);
      assert Peaks(a', b', a'.now.size);
    } else if op.Discard? {
      var peak: nat :| Peaks(a, b, peak);
      assert Peaks(a', b', peak);
    } else if op.Put? && op.value != [] {
      SameSettled(a.now, op.key, a'.now, b'.now);
      PeaksStay(a, b, a', b');
    } else {
      SameShrunk(a.now.path, a'.now.path, b'.now.path);
      SameFree(a'.now, b'.now);
      PeaksStay(a, b, a', b');
    }
  }

  // ------------------------------------------------------------ the same damage

  /** Sound tries with the same contents, in the same slots. */
  ghost predicate Alike(nodes: seq<Node>, nodes': seq<Node>, path: Paths) {
    Shape(nodes, path) && Shape(nodes', path) && Contents(nodes, path) == Contents(nodes', path)
  }

  lemma SameEraseWorks(nodes: seq<Node>, nodes': seq<Node>, path: Paths, k: Bytes)
    requires Alike(nodes, nodes', path)
    ensures StateImpl.EraseWorks(nodes, k) == StateImpl.EraseWorks(nodes', k)
  {
    EmptyPath(nodes, path, 0);
    ContentsAt(nodes, path, 0);
    ContentsAt(nodes', path, 0);
    SameForked(nodes, nodes', path, 0);
    SameForked(nodes', nodes, path, 0);
  }

  lemma SameCompactable(nodes: seq<Node>, nodes': seq<Node>, path: Paths, free: set<nat>)
    requires Alike(nodes, nodes', path) && |nodes| == |nodes'|
    ensures Compactable(nodes, path, free) == Compactable(nodes', path, free)
  {
    forall n | n in path ensures HasChildren(nodes[n]) == HasChildren(nodes'[n]) {
      SameForked(nodes, nodes', path, n);
      SameForked(nodes', nodes, path, n);
    }
  }

  lemma SameInBounds(nodes: seq<Node>, nodes': seq<Node>, a: Snapshot, b: Snapshot)
    requires Twins(a, b) && a.now.size == |nodes| && b.now.size == |nodes'|
    ensures InBounds(nodes, a.backup) == InBounds(nodes', b.backup)
  {
    var peak: nat :| Peaks(a, b, peak);
    PeakInBounds(nodes, a.backup, a.permanent, peak);
    PeakInBounds(nodes', b.backup, b.permanent, peak);
  }
}
