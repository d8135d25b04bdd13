/**
  Nodes of the persistent trie as values: they hold ids of blobs in place of a parent, a prefix, a
  hash and a value.  What such nodes mean does not change when more blobs are stored.
 */
module PersistentNodes {
  import opened Octets
  import opened TrieModel
  import opened BlobStorage

  /** A node as stored; a new one has id 0 everywhere. */
  datatype Stored = Stored(parent: nat, prefix: nat, hash: nat, value: nat, children: Slots)

  function NewStored(): Stored {
    Stored(0, 0, 0, 0, NoChildren())
  }

  type Blobs = map<nat, Bytes>

  /**
    Id 0 is an empty blob, and so is the next one: then a new node reads as a blank one.  (Its parent
    is read from the word behind blob 0, which is the size of blob 1.)
   */
  ghost predicate Primed(blobs: Blobs) {
    0 in blobs && blobs[0] == [] && 1 in blobs && blobs[1] == []
  }

  ghost predicate StoredOk(n: Stored, blobs: Blobs) {
    && n.prefix in blobs && n.hash in blobs && n.value in blobs
    && n.parent in blobs && (n.parent != 0 ==> |blobs[n.parent]| == 4)
  }

  ghost function Meaning(n: Stored, blobs: Blobs): Node
    requires StoredOk(n, blobs)
  {
    Node(if n.parent == 0 then 0 else FromLittleEndian(blobs[n.parent]),
         blobs[n.prefix], blobs[n.hash], blobs[n.value], n.children)
  }

  ghost predicate Extends(blobs: Blobs, blobs': Blobs) {
    forall id {:trigger id in blobs} :: id in blobs ==> id in blobs' && blobs'[id] == blobs[id]
  }

  /** Blobs are never overwritten, so nothing that was stored changes its meaning. */
  lemma MeaningStays(n: Stored, blobs: Blobs, blobs': Blobs)
    requires StoredOk(n, blobs) && Extends(blobs, blobs')
    ensures StoredOk(n, blobs') && Meaning(n, blobs') == Meaning(n, blobs)
  {
  }

  lemma BlankMeaning(blobs: Blobs)
    requires Primed(blobs)
    ensures StoredOk(NewStored(), blobs) && Meaning(NewStored(), blobs) == Blank()
  {
  }

  // ------------------------------------------------------- a vector and its backups

  type StoredBackups = map<nat, Stored>

  ghost predicate Facts(stored: seq<Stored>, storedBackup: StoredBackups, blobs: Blobs,
                        nodes: seq<Node>, backup: Backups)
  {
    && Primed(blobs) && |stored| == |nodes| && storedBackup.Keys == backup.Keys
    && (forall i {:trigger stored[i]} {:trigger nodes[i]} :: 0 <= i < |stored| ==>
          StoredOk(stored[i], blobs) && Meaning(stored[i], blobs) == nodes[i])
    && (forall i {:trigger i in storedBackup} {:trigger i in backup} :: i in storedBackup ==>
          StoredOk(storedBackup[i], blobs) && Meaning(storedBackup[i], blobs) == backup[i])
  }

  /** The stored vector and backups mean these nodes and backups; proofs look inside on demand. */
  ghost predicate Means(stored: seq<Stored>, storedBackup: StoredBackups, blobs: Blobs,
                        nodes: seq<Node>, backup: Backups)
  {
    forall b: Blobs {:trigger Facts(stored, storedBackup, b, nodes, backup)} ::
      b == blobs ==> Facts(stored, storedBackup, b, nodes, backup)
  }

  lemma MeansAt(stored: seq<Stored>, storedBackup: StoredBackups, blobs: Blobs, nodes: seq<Node>, backup: Backups,
                i: nat)
    requires Means(stored, storedBackup, blobs, nodes, backup)
    ensures Primed(blobs) && |stored| == |nodes| && storedBackup.Keys == backup.Keys
    ensures i < |stored| ==> StoredOk(stored[i], blobs) && Meaning(stored[i], blobs) == nodes[i]
  {
    assert Facts(stored, storedBackup, blobs, nodes, backup);
  }

  lemma MeansStays(stored: seq<Stored>, storedBackup: StoredBackups, blobs: Blobs, blobs': Blobs,
                   nodes: seq<Node>, backup: Backups)
    requires Means(stored, storedBackup, blobs, nodes, backup) && Extends(blobs, blobs')
    ensures Means(stored, storedBackup, blobs', nodes, backup)
  {
    assert Facts(stored, storedBackup, blobs, nodes, backup);
    forall i | 0 <= i < |stored|
      ensures StoredOk(stored[i], blobs') && Meaning(stored[i], blobs') == nodes[i]
    {
      MeaningStays(stored[i], blobs, blobs');
    }
    forall i | i in storedBackup
      ensures StoredOk(storedBackup[i], blobs') && Meaning(storedBackup[i], blobs') == backup[i]
    {
      MeaningStays(storedBackup[i], blobs, blobs');
    }
    assert Facts(stored, storedBackup, blobs', nodes, backup);
  }

  lemma MeansUpdate(stored: seq<Stored>, storedBackup: StoredBackups, blobs: Blobs, nodes: seq<Node>, backup: Backups,
                    i: nat, n: Stored)
    requires Means(stored, storedBackup, blobs, nodes, backup) && i < |stored| && i < |nodes| && StoredOk(n, blobs)
    ensures Means(stored[i := n], storedBackup, blobs, nodes[i := Meaning(n, blobs)], backup)
  {
    assert Facts(stored, storedBackup, blobs, nodes, backup);
    assert Facts(stored[i := n], storedBackup, blobs, nodes[i := Meaning(n, blobs)], backup);
  }

  lemma MeansPush(stored: seq<Stored>, storedBackup: StoredBackups, blobs: Blobs, nodes: seq<Node>, backup: Backups)
    requires Means(stored, storedBackup, blobs, nodes, backup)
    ensures Means(stored + [NewStored()], storedBackup, blobs, nodes + [Blank()], backup)
  {
    assert Facts(stored, storedBackup, blobs, nodes, backup);
    BlankMeaning(blobs);
    assert Facts(stored + [NewStored()], storedBackup, blobs, nodes + [Blank()], backup);
  }

  lemma MeansCut(stored: seq<Stored>, storedBackup: StoredBackups, blobs: Blobs, nodes: seq<Node>, backup: Backups,
                 size: nat)
    requires Means(stored, storedBackup, blobs, nodes, backup) && size <= |stored| && size <= |nodes|
    ensures Means(stored[..size], storedBackup, blobs, nodes[..size], backup)
  {
    assert Facts(stored, storedBackup, blobs, nodes, backup);
    assert Facts(stored[..size], storedBackup, blobs, nodes[..size], backup);
  }

  lemma MeansSave(stored: seq<Stored>, storedBackup: StoredBackups, blobs: Blobs, nodes: seq<Node>, backup: Backups,
                  i: nat)
    requires Means(stored, storedBackup, blobs, nodes, backup) && i < |stored| && i < |nodes|
    ensures Means(stored, storedBackup[i := stored[i]], blobs, nodes, backup[i := nodes[i]])
  {
    assert Facts(stored, storedBackup, blobs, nodes, backup);
    assert Facts(stored, storedBackup[i := stored[i]], blobs, nodes, backup[i := nodes[i]]);
  }

  lemma MeansForget(stored: seq<Stored>, storedBackup: StoredBackups, blobs: Blobs, nodes: seq<Node>, backup: Backups)
    requires Means(stored, storedBackup, blobs, nodes, backup)
    ensures Means(stored, map[], blobs, nodes, map[])
  {
    assert Facts(stored, storedBackup, blobs, nodes, backup);
    assert Facts(stored, map[], blobs, nodes, map[]);
  }

  /** A backup put back: its ids still mean what they meant when it was made. */
  lemma MeansRestore(stored: seq<Stored>, storedBackup: StoredBackups, blobs: Blobs, nodes: seq<Node>, backup: Backups,
                     i: nat)
    requires Means(stored, storedBackup, blobs, nodes, backup) && i < |stored| && i < |nodes| && i in storedBackup
    ensures i in backup && Means(stored[i := storedBackup[i]], storedBackup, blobs, nodes[i := backup[i]], backup)
  {
    assert Facts(stored, storedBackup, blobs, nodes, backup);
    assert Facts(stored[i := storedBackup[i]], storedBackup, blobs, nodes[i := backup[i]], backup);
  }
}
