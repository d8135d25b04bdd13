/**
  The transactional trie over a blob store (state_persistent): the algorithms of state_impl on nodes
  whose fields are read and written through the store.  Its ghost fields `nodes` and `backup` are the
  vector and the backups that the stored ones mean; every operation does to them what state_impl does
  to its own.
 */
module PersistentTrie {
  import opened Octets
  import opened TrieModel
  import TrieHash
  import opened TrieEdits
  import opened TrieCommit
  import opened TrieLayout
  import opened Trie
  import opened BlobStorage
  import opened PersistentNodes

  /** Where the code would read or write outside its memory, or lose bits of an id. */
  datatype Status = Pass | NoRoom(size: nat) | LastWord | LongId {
    predicate IsFailure() { !Pass? }
    function PropagateFailure(): Status { this }
  }

  /** Where the free part starts, and the capacity, after a text of this size was stored. */
  ghost predicate Behind(next: nat, capacity: nat, size: nat, next': nat, capacity': nat) {
    && next' == next + Words(size) + 1
    && capacity' == if next + Words(size) < capacity then capacity else 2 * capacity
  }

  /** A store with something in it has a blob 0, and a blob 1 if blob 0 is empty and not the only one. */
  lemma Beginning(m: Bytes, next: nat, blobs: Blobs)
    requires Held(m, next, blobs)
    ensures next == 0 ==> blobs == map[]
    ensures next > 0 ==> 0 in blobs && (next > 1 && blobs[0] == [] ==> 1 in blobs)
    ensures next == 1 ==> blobs[0] == []
    ensures forall id :: id in blobs ==> id < next
  {
    assert HeldFacts(m, next, blobs);
    forall id | id in blobs ensures id < next && (next == 1 ==> blobs[id] == []) {
      HeldAt(m, next, blobs, id);
    }
    if next > 0 {
      assert Followed(next, blobs, 0);
    }
  }

  lemma FirstTwo(m: Bytes, next: nat, blobs: Blobs, blobs': Blobs)
    requires Held(m, next, blobs) && blobs' == blobs[next := []][next + 1 := []]
    ensures next <= 1 || Primed(blobs) <==> Primed(blobs')
    ensures !Primed(blobs') ==> 0 in blobs' && (blobs'[0] != [] || (1 in blobs' && blobs'[1] != []))
  {
    Beginning(m, next, blobs);
  }

  ghost function Inserted(nodes: seq<Node>, cur: nat, k: nat, split: nat, prefix: Bytes): seq<Node>
    requires cur < |nodes| && split < |nodes| && 0 < k < |prefix|
  {
    nodes[cur := nodes[cur].(parent := split, prefix := prefix[k..])]
      [split := nodes[split].(children := nodes[split].children[prefix[k] := cur], prefix := prefix[..k])]
  }

  lemma CutSound(nodes: seq<Node>, path: Paths, free: set<nat>, backup: Backups, permanent: nat, saved: seq<Node>,
                 n: nat, k: nat, s: nat, nodes': seq<Node>, backup': Backups)
    requires SoundState(nodes, path, free, backup, permanent, saved) && n in path && n != 0
    requires 0 < k < |nodes[n].prefix| && s !in path && (s in free || s == |nodes|)
    requires UpLink(nodes, path, n) && nodes[n].parent != n
    requires var grown := WithLeaf(nodes, nodes[n].parent, nodes[n].prefix[0], s);
             && Tracked(grown, backup', permanent, saved) && DirtyUp(grown, path, backup', permanent)
             && nodes' == Inserted(grown, n, k, s, nodes[n].prefix)
    requires Dirty(backup', permanent, n) && Dirty(backup', permanent, s)
    ensures nodes' == WithSplit(nodes, n, k, s)
    ensures SoundState(nodes', path[s := SplitPath(nodes, path, n, k)], free - {s}, backup', permanent, saved)
  {
    assert nodes' == WithSplit(nodes, n, k, s);
    SplitShape(nodes, path, n, k, s);
    SplitSound(nodes, path, free, backup, permanent, saved, n, k, s, nodes', backup');
  }

  lemma SuffixSound(nodes: seq<Node>, path: Paths, free: set<nat>, backup: Backups, permanent: nat, saved: seq<Node>,
                    n: nat, suffix: Bytes)
    requires SoundState(nodes, path, free, backup, permanent, saved) && n in path && Dirty(backup, permanent, n)
    requires Shape(WithSuffix(nodes, n, suffix), path[n := path[n] + suffix])
    ensures SoundState(WithSuffix(nodes, n, suffix), path[n := path[n] + suffix], free, backup, permanent, saved)
  {
  }

  lemma RehashedSound(nodes: seq<Node>, nodes': seq<Node>, path: Paths, free: set<nat>, backup: Backups,
                      permanent: nat, saved: seq<Node>)
    requires SoundState(nodes, path, free, backup, permanent, saved) && SameButHash(nodes, nodes')
    requires Tracked(nodes', backup, permanent, saved)
    ensures SoundState(nodes', path, free, backup, permanent, saved)
    ensures Contents(nodes', path) == Contents(nodes, path)
    ensures Canonical(nodes, path) ==> Canonical(nodes', path)
    ensures forall x :: CanonicalBut(nodes, path, x) ==> CanonicalBut(nodes', path, x)
  {
    SameButHashKeeps(nodes, nodes', path);
  }

  lemma RootChild(nodes: seq<Node>, path: Paths, backup: Backups, permanent: nat, saved: seq<Node>, c: nat)
    requires Chain(nodes, path) && 0 in path && c < |nodes| && Dirty(backup, permanent, 0)
    requires Tracked(nodes, backup, permanent, saved) && DirtyUp(nodes, path, backup, permanent)
    ensures var nodes' := nodes[0 := nodes[0].(children := nodes[0].children[0 := c])];
            && Chain(nodes', path) && Tracked(nodes', backup, permanent, saved)
            && DirtyUp(nodes', path, backup, permanent)
  {
  }

  /** With every backup put back, the committed part of the vector is as it was committed. */
  lemma Undone(nodes: seq<Node>, nodes': seq<Node>, backup: Backups, permanent: nat, saved: seq<Node>)
    requires Tracked(nodes, backup, permanent, saved) && PutBack(nodes, nodes', backup, {})
    ensures permanent <= |nodes'| && nodes'[..permanent] == saved
  {
  }

  /** All backups but those of `keys` are in the vector. */
  ghost predicate PutBack(nodes: seq<Node>, nodes': seq<Node>, backup: Backups, keys: set<nat>) {
    && |nodes'| == |nodes|
    && (forall k :: k in backup && k !in keys ==> k < |nodes'| && nodes'[k] == backup[k])
    && (forall i :: 0 <= i < |nodes'| && i !in backup ==> nodes'[i] == nodes[i])
  }

  ghost predicate MergeFacts(hasher: Hasher, nodes: seq<Node>, path: Paths, free: set<nat>, backup: Backups,
                             permanent: nat, saved: seq<Node>, child: nat, m: map<Bytes, Bytes>)
  {
    && SoundState(nodes, path, free, backup, permanent, saved) && Contents(nodes, path) == m
    && child in path && Canonical(nodes, path) && HashedOff(hasher, nodes, path, path[child])
  }

  /** The trie that a merge leaves, hashed off the path to `child`, with contents m; proofs look inside on demand. */
  ghost predicate Merges(hasher: Hasher, nodes: seq<Node>, path: Paths, free: set<nat>, backup: Backups, permanent: nat,
                         saved: seq<Node>, child: nat, m: map<Bytes, Bytes>)
  {
    forall u: nat {:trigger MergeFacts(hasher, nodes, path, free, backup, permanent, saved, u, m)} ::
      u == child ==> MergeFacts(hasher, nodes, path, free, backup, permanent, saved, u, m)
  }

  lemma MergesFacts(hasher: Hasher, nodes: seq<Node>, path: Paths, free: set<nat>, backup: Backups, permanent: nat,
                    saved: seq<Node>, child: nat, m: map<Bytes, Bytes>)
    requires Merges(hasher, nodes, path, free, backup, permanent, saved, child, m)
    ensures MergeFacts(hasher, nodes, path, free, backup, permanent, saved, child, m)
  {
  }

  /** How long keys and digests may be. */
  datatype Limits = Limits(key: nat, digest: nat)

  ghost predicate ShortFacts(hasher: Hasher, path: Paths, lim: Limits) {
    && lim.key <= MAX_BLOB && lim.digest <= MAX_BLOB
    && (forall n {:trigger n in path} :: n in path ==> |path[n]| <= lim.key)
    && (forall x: Bytes {:trigger hasher(x)} :: |hasher(x)| <= lim.digest)
  }

  /**
    No live key, and no digest, is longer than the limits, nor these than what always fits the store;
    proofs look inside on demand.
   */
  ghost predicate Short(hasher: Hasher, path: Paths, lim: Limits) {
    forall u: Paths {:trigger ShortFacts(hasher, u, lim)} :: u == path ==> ShortFacts(hasher, u, lim)
  }

  // ------------------------------------------------- how much of the store is used up

  /** The free part of the store, its capacity, and the slots of the vector. */
  datatype Use = Use(next: nat, capacity: nat, slots: nat)

  /** At most so many words, and so many slots, are used up; the store does not shrink. */
  ghost predicate Spends(u: Use, u': Use, words: nat, slots: nat) {
    u.next <= u'.next <= u.next + words && u.capacity <= u'.capacity && u'.slots <= u.slots + slots
  }

  /** So much may be used up, and ids and slots still fit 32 bits. */
  ghost predicate Countable(u: Use, words: nat, slots: nat) {
    u.next + words <= TWO_32 && u.slots + slots <= TWO_32
  }

  /** So much may be used up without any reason to stop. */
  ghost predicate Roomy(u: Use, words: nat, slots: nat) {
    u.next + words < u.capacity && Countable(u, words, slots)
  }

  ghost predicate Priced(w: nat, n: nat) {
    forall m: nat {:trigger Words(m)} :: m == n ==> w == Words(m) + 1
  }

  /**
    The words that a text of n bytes takes, with the one for its size.  Described rather than computed,
    so that proofs need not look inside; TextCostIs does.
   */
  ghost function TextCost(n: nat): nat {
    assert Priced(Words(n) + 1, n);
    var w: nat :| Priced(w, n);
    w
  }

  lemma TextCostIs(n: nat)
    ensures TextCost(n) == Words(n) + 1
  {
    assert Priced(TextCost(n), n);
  }

  lemma TextCostGrows(a: nat, b: nat)
    requires a <= b
    ensures TextCost(a) <= TextCost(b)
  {
    TextCostIs(a);
    TextCostIs(b);
    WordsGrow(a, b);
  }

  lemma SmallTexts()
    ensures TextCost(0) == 1 && TextCost(1) == 2 && TextCost(4) == 2
  {
    TextCostIs(0);
    TextCostIs(1);
    TextCostIs(4);
  }

  /** A text as long as a key, or the number of a parent. */
  ghost function EdgeCost(lim: Limits): nat {
    TextCost(lim.key) + 1
  }

  ghost function StepCost(lim: Limits): nat {
    TextCost(lim.digest)
  }

  /** New hashes from a node to the root. */
  ghost function ClimbCost(lim: Limits, depth: nat): nat {
    StepCost(lim) + if depth == 0 then 0 else ClimbCost(lim, depth - 1)
  }

  lemma {:induction false} ClimbIs(lim: Limits, depth: nat)
    ensures ClimbCost(lim, depth) == (depth + 1) * StepCost(lim)
  {
    if depth > 0 {
      ClimbIs(lim, depth - 1);
    }
  }

  lemma {:induction false} ClimbGrows(lim: Limits, a: nat, b: nat)
    requires a <= b
    ensures ClimbCost(lim, a) <= ClimbCost(lim, b)
    decreases b
  {
    if a < b {
      ClimbGrows(lim, a, b - 1);
    }
  }

  /** An edge cut in two, and a new leaf at the cut. */
  ghost function ForkCost(lim: Limits): nat {
    2 * EdgeCost(lim) + ClimbCost(lim, lim.key) + 8
  }

  /** One round of the search in set: at most a fork, unless there is a new leaf, and then at most its edge. */
  ghost function StrideCost(lim: Limits, sprouted: bool, sprouted': bool): nat {
    if sprouted then EdgeCost(lim) else if sprouted' then ForkCost(lim) else 0
  }

  ghost function StrideSlots(sprouted: bool, sprouted': bool): nat {
    if !sprouted && sprouted' then 2 else 0
  }

  /** All of it, while it goes on or to its end. */
  ghost function SearchCost(lim: Limits, sprouted: bool, going: bool): nat {
    (if sprouted then ForkCost(lim) else 0) + if going then 0 else if sprouted then EdgeCost(lim) else 0
  }

  /** set, of a value of this size. */
  ghost function SetCost(lim: Limits, size: nat): nat {
    ForkCost(lim) + EdgeCost(lim) + TextCost(size) + ClimbCost(lim, lim.key)
  }

  /** erase, and delete_node_tree. */
  ghost function RemoveCost(lim: Limits): nat {
    EdgeCost(lim) + 2 + ClimbCost(lim, lim.key)
  }

  lemma ShortDigest(hasher: Hasher, nodes: seq<Node>, path: Paths, lim: Limits, n: nat)
    requires n < |nodes|
    ensures Short(hasher, path, lim) ==>
              |Digest(hasher, nodes, n)| <= MAX_BLOB && TextCost(|Digest(hasher, nodes, n)|) <= StepCost(lim)
  {
    if Short(hasher, path, lim) {
      assert ShortFacts(hasher, path, lim);
      TextCostGrows(|Digest(hasher, nodes, n)|, lim.digest);
    }
  }

  lemma ShortClimb(hasher: Hasher, path: Paths, lim: Limits, n: nat)
    requires n in path
    ensures Short(hasher, path, lim) ==> ClimbCost(lim, |path[n]|) <= ClimbCost(lim, lim.key)
  {
    if Short(hasher, path, lim) {
      assert ShortFacts(hasher, path, lim);
      ClimbGrows(lim, |path[n]|, lim.key);
    }
  }

  /** An edge is no longer than the key it leads to, nor are two in a row. */
  lemma ShortEdge(hasher: Hasher, nodes: seq<Node>, path: Paths, lim: Limits, n: nat)
    requires Shape(nodes, path) && n in path && n != 0
    ensures UpLink(nodes, path, n) && |nodes[n].prefix| <= |path[n]|
    ensures |path[nodes[n].parent]| + |nodes[n].prefix| == |path[n]|
    ensures |nodes[nodes[n].parent].prefix| + |nodes[n].prefix| <= |path[n]|
    ensures Short(hasher, path, lim) ==> |path[n]| <= lim.key <= MAX_BLOB
  {
    assert UpLink(nodes, path, n);
    if nodes[n].parent != 0 {
      assert UpLink(nodes, path, nodes[n].parent);
    }
    if Short(hasher, path, lim) {
      assert ShortFacts(hasher, path, lim);
    }
  }

  lemma ShortWith(hasher: Hasher, path: Paths, lim: Limits, n: nat, k: Bytes)
    ensures Short(hasher, path, lim) && |k| <= lim.key ==> Short(hasher, path[n := k], lim)
  {
    if Short(hasher, path, lim) && |k| <= lim.key {
      assert ShortFacts(hasher, path, lim);
      assert ShortFacts(hasher, path[n := k], lim);
    }
  }

  lemma ShortSub(hasher: Hasher, path: Paths, path': Paths, lim: Limits)
    requires Shrinks(path, path')
    ensures Short(hasher, path, lim) ==> Short(hasher, path', lim)
  {
    if Short(hasher, path, lim) {
      assert ShortFacts(hasher, path, lim) && ShrinksFacts(path, path');
      assert ShortFacts(hasher, path', lim);
    }
  }

  /** Tries with the same contents have the same live keys, so both or neither are short. */
  lemma ShortSame(hasher: Hasher, nodes: seq<Node>, path: Paths, nodes': seq<Node>, path': Paths,
                  lim: Limits)
    requires Shape(nodes, path) && Canonical(nodes, path) && Shape(nodes', path') && Canonical(nodes', path')
    requires Contents(nodes, path) == Contents(nodes', path')
    ensures Short(hasher, path, lim) ==> Short(hasher, path', lim)
  {
    if Short(hasher, path, lim) {
      assert ShortFacts(hasher, path, lim);
      forall n | n in path' ensures |path'[n]| <= lim.key {
        var m := SameLivePaths(nodes', path', nodes, path, n);
      }
      assert ShortFacts(hasher, path', lim);
    }
  }

  class StatePersistent {
    const hasher: Hasher
    const bs: Blobstore
    var stored: seq<Stored>
    var storedBackup: StoredBackups
    var free: set<nat>
    var permanent: nat

    // What keys and digests are held against; any limits will do.
    ghost const lim: Limits

    // What the stored nodes and backups mean.
    ghost var nodes: seq<Node>
    ghost var backup: Backups

    // The keys of the live slots now, and the vector and keys as of the last commit.
    ghost var path: Paths
    ghost var saved: seq<Node>
    ghost var savedPath: Paths

    ghost predicate Loaded()
      reads this, bs, bs.mem
    {
      bs.Valid() && Means(stored, storedBackup, bs.blobs, nodes, backup)
    }

    /**
      The only reasons to stop: a text longer than what always fits, a read of an empty blob in the
      very last word of the store, or a parent id, or slot, that needs more than 32 bits.
     */
    ghost predicate Jammed(s: Status)
      reads this, bs
    {
      match s
      case Pass => false
      case NoRoom(size) => size > MAX_BLOB
      case LastWord => bs.capacity == bs.nextFree > 0 && bs.capacity - 1 in bs.blobs && bs.blobs[bs.capacity - 1] == []
      case LongId => bs.nextFree > TWO_32 || |stored| > TWO_32
    }

    ghost predicate Went(s: Status)
      reads this, bs, bs.mem
    {
      if s.Pass? then Loaded() else Jammed(s)
    }

    ghost predicate Sound()
      reads this
    {
      SoundState(nodes, path, free, backup, permanent, saved) && Committed(hasher, saved, savedPath)
    }

    ghost predicate Valid()
      reads this
    {
      Sound() && Canonical(nodes, path) && Hashed(hasher, nodes, path)
    }

    /** In the middle of an operation: everything holds but for node x and hashes above it. */
    ghost predicate Midway(x: nat)
      reads this
    {
      && Sound() && x in path && Dirty(backup, permanent, x)
      && CanonicalBut(nodes, path, x) && HashedOff(hasher, nodes, path, path[x])
    }

    ghost function Used(): Use
      reads this, bs
    {
      Use(bs.nextFree, bs.capacity, |stored|)
    }

    ghost function Now(): Layout
      reads this
    {
      Layout(path, free, |nodes|)
    }

    ghost function View(): map<Bytes, Bytes>
      reads this
      requires Shape(nodes, path)
    {
      Contents(nodes, path)
    }

    ghost function SavedView(): map<Bytes, Bytes>
      reads this
      requires Shape(saved, savedPath)
    {
      Contents(saved, savedPath)
    }

    /**
      An empty blob is stored first, and another one as the hash of the childless root.  The new root
      reads as a blank node if and only if these are the first two blobs, or blobs 0 and 1 are empty.
     */
    constructor (hasher: Hasher, bs: Blobstore, ghost lim: Limits)
      requires bs.Valid()
      modifies bs, bs.mem
      ensures this.hasher == hasher && this.bs == bs && this.lim == lim && (bs.mem == old(bs.mem) || fresh(bs.mem))
      ensures bs.Valid() && |stored| == 1 && stored[0].(hash := 0) == NewStored() && permanent == 1 && free == {}
      ensures backup == map[] && bs.nextFree == old(bs.nextFree) + 2
      ensures old(bs.nextFree) + 1 < old(bs.capacity) ==> bs.capacity == old(bs.capacity)
      ensures old(bs.nextFree <= 1 || Primed(bs.blobs)) <==> Primed(bs.blobs)
      ensures !Primed(bs.blobs) ==> 0 in bs.blobs && (bs.blobs[0] != [] || (1 in bs.blobs && bs.blobs[1] != []))
      ensures Primed(bs.blobs) ==> Loaded() && Valid() && View() == map[] && saved == nodes && savedPath == path
      ensures path == map[0 := []]
    {
      this.hasher, this.bs, this.lim := hasher, bs, lim;
      stored, storedBackup, free, permanent := [NewStored()], map[], {}, 1;
      nodes, backup, path := [Blank()], map[], map[0 := []];
      saved, savedPath := [Blank()], map[0 := []];
      new;
      ghost var m, next, blobs := bs.mem[..], bs.nextFree, bs.blobs;
      var ok, id := bs.Store([]);
      ok, id := bs.Store([]);
      stored := [NewStored().(hash := id)];
      FirstTwo(m, next, blobs, bs.blobs);
      if Primed(bs.blobs) {
        assert Facts(stored, storedBackup, bs.blobs, nodes, backup);
        FreshRoot(hasher, nodes, path);
      }
    }

    // ------------------------------------------------------------ getters and setters

    method Append(text: Bytes) returns (s: Status, id: nat)
      requires Loaded()
      modifies bs, bs.mem
      ensures bs.mem == old(bs.mem) || fresh(bs.mem)
      ensures Went(s) && s in {Pass, NoRoom(|text|)}
      ensures s.Pass? <==> |text| < TWO_32 && old(bs.nextFree) + Words(|text|) < 2 * old(bs.capacity)
      ensures s.Pass? ==> id == old(bs.nextFree) && id != 0 && id in bs.blobs && bs.blobs[id] == text
      ensures s.Pass? ==> Behind(old(bs.nextFree), old(bs.capacity), |text|, bs.nextFree, bs.capacity)
      ensures Spends(old(Used()), Used(), TextCost(|text|), 0)
    {
      if |text| >= TWO_32 {
        return NoRoom(|text|), 0;
      }
      ghost var blobs := bs.blobs;
      MeansAt(stored, storedBackup, blobs, nodes, backup, 0);
      var ok;
      ok, id := bs.Store(text);
      if !ok {
        return NoRoom(|text|), 0;
      }
      MeansStays(stored, storedBackup, blobs, bs.blobs, nodes, backup);
      TextCostIs(|text|);
      s := Pass;
    }

    /** Slot i is given a node whose blobs are stored. */
    method Replace(i: nat, n: Stored)
      requires Loaded() && i < |stored| && i < |nodes| && StoredOk(n, bs.blobs)
      modifies `stored, `nodes
      ensures Loaded() && nodes == old(nodes)[i := Meaning(n, bs.blobs)] && stored == old(stored)[i := n]
    {
      MeansUpdate(stored, storedBackup, bs.blobs, nodes, backup, i, n);
      nodes := nodes[i := Meaning(n, bs.blobs)];
      stored := stored[i := n];
    }

    method SetPrefix(i: nat, text: Bytes) returns (s: Status)
      requires Loaded() && i < |nodes|
      modifies `stored, `nodes, bs, bs.mem
      ensures bs.mem == old(bs.mem) || fresh(bs.mem)
      ensures Went(s) && s in {Pass, NoRoom(|text|)}
      ensures s.Pass? <==> |text| < TWO_32 && old(bs.nextFree) + Words(|text|) < 2 * old(bs.capacity)
      ensures s.Pass? ==> nodes == old(nodes)[i := old(nodes)[i].(prefix := text)]
      ensures Spends(old(Used()), Used(), TextCost(|text|), 0)
    {
      var id :- Append(text);
      MeansAt(stored, storedBackup, bs.blobs, nodes, backup, i);
      Replace(i, stored[i].(prefix := id));
      s := Pass;
    }

    method SetHash(i: nat, text: Bytes) returns (s: Status)
      requires Loaded() && i < |nodes|
      modifies `stored, `nodes, bs, bs.mem
      ensures bs.mem == old(bs.mem) || fresh(bs.mem)
      ensures Went(s) && s in {Pass, NoRoom(|text|)}
      ensures s.Pass? <==> |text| < TWO_32 && old(bs.nextFree) + Words(|text|) < 2 * old(bs.capacity)
      ensures s.Pass? ==> nodes == old(nodes)[i := old(nodes)[i].(hash := text)]
      ensures Spends(old(Used()), Used(), TextCost(|text|), 0)
    {
      var id :- Append(text);
      MeansAt(stored, storedBackup, bs.blobs, nodes, backup, i);
      Replace(i, stored[i].(hash := id));
      s := Pass;
    }

    method SetValue(i: nat, text: Bytes) returns (s: Status)
      requires Loaded() && i < |nodes|
      modifies `stored, `nodes, bs, bs.mem
      ensures bs.mem == old(bs.mem) || fresh(bs.mem)
      ensures Went(s) && s in {Pass, NoRoom(|text|)}
      ensures s.Pass? <==> |text| < TWO_32 && old(bs.nextFree) + Words(|text|) < 2 * old(bs.capacity)
      ensures s.Pass? ==> nodes == old(nodes)[i := old(nodes)[i].(value := text)]
      ensures s.Pass? ==> i < |old(stored)| && stored == old(stored)[i := old(stored)[i].(value := old(bs.nextFree))]
      ensures s.Pass? ==> Behind(old(bs.nextFree), old(bs.capacity), |text|, bs.nextFree, bs.capacity)
      ensures Spends(old(Used()), Used(), TextCost(|text|), 0)
    {
      var id :- Append(text);
      MeansAt(stored, storedBackup, bs.blobs, nodes, backup, i);
      Replace(i, stored[i].(value := id));
      s := Pass;
    }

    /** Only 32 bits of the id of the parent's blob are kept. */
    method SetParent(i: nat, parent: nat) returns (s: Status)
      requires Loaded() && i < |nodes| && parent < |nodes|
      modifies `stored, `nodes, bs, bs.mem
      ensures bs.mem == old(bs.mem) || fresh(bs.mem)
      ensures Went(s) && s in {Pass, LongId} && bs.Valid() && Primed(bs.blobs)
      ensures s.Pass? <==> old(bs.nextFree) < TWO_32 && parent < TWO_32
      ensures s.Pass? ==> nodes == old(nodes)[i := old(nodes)[i].(parent := parent)]
      ensures i < |old(stored)| && stored == old(stored)[i := old(stored)[i].(parent := old(bs.nextFree) % TWO_32)]
      ensures Spends(old(Used()), Used(), 2, 0)
    {
      SmallTexts();
      var id :- Append(LittleEndian(parent));
      MeansAt(stored, storedBackup, bs.blobs, nodes, backup, i);
      if id >= TWO_32 || parent >= TWO_32 {
        stored := stored[i := stored[i].(parent := id % TWO_32)];
        return LongId;
      }
      LittleEndianRoundTrip(parent);
      Replace(i, stored[i].(parent := id % TWO_32));
      s := Pass;
    }

    method SetChild(i: nat, slot: Byte, child: nat)
      requires Loaded() && i < |nodes|
      modifies `stored, `nodes
      ensures Loaded() && nodes == old(nodes)[i := old(nodes)[i].(children := old(nodes)[i].children[slot := child])]
      ensures |stored| == |old(stored)|
    {
      MeansAt(stored, storedBackup, bs.blobs, nodes, backup, i);
      Replace(i, stored[i].(children := stored[i].children[slot := child]));
    }

    /** The text under an id; refused by the range check exactly for the last word. */
    method ReadText(id: nat) returns (s: Status, text: Bytes)
      requires bs.Valid() && id in bs.blobs
      ensures s.Pass? ==> text == bs.blobs[id]
      ensures s in {Pass, LastWord} && (s.LastWord? ==> Jammed(s) && id + 1 == bs.capacity)
      ensures s.Pass? <==> id + 1 != bs.capacity
    {
      var r := bs.Get(id);
      if r.None? {
        return LastWord, [];
      }
      return Pass, r.value;
    }

    method GetPrefix(i: nat) returns (s: Status, text: Bytes)
      requires Loaded() && i < |nodes|
      ensures s.Pass? ==> text == nodes[i].prefix
      ensures i < |stored| && (s.Pass? <==> stored[i].prefix + 1 != bs.capacity)
      ensures s.LastWord? ==> nodes[i].prefix == []
      ensures s in {Pass, LastWord} && (s.LastWord? ==> Jammed(s))
    {
      MeansAt(stored, storedBackup, bs.blobs, nodes, backup, i);
      s, text := ReadText(stored[i].prefix);
    }

    method GetHash(i: nat) returns (s: Status, text: Bytes)
      requires Loaded() && i < |nodes|
      ensures s.Pass? ==> text == nodes[i].hash
      ensures i < |stored| && (s.Pass? <==> stored[i].hash + 1 != bs.capacity)
      ensures s.LastWord? ==> nodes[i].hash == []
      ensures s in {Pass, LastWord} && (s.LastWord? ==> Jammed(s))
    {
      MeansAt(stored, storedBackup, bs.blobs, nodes, backup, i);
      s, text := ReadText(stored[i].hash);
    }

    method GetValue(i: nat) returns (s: Status, text: Bytes)
      requires Loaded() && i < |nodes|
      ensures s.Pass? ==> text == nodes[i].value
      ensures i < |stored| && (s.Pass? <==> stored[i].value + 1 != bs.capacity)
      ensures s.LastWord? ==> nodes[i].value == []
      ensures s in {Pass, LastWord} && (s.LastWord? ==> Jammed(s))
    {
      MeansAt(stored, storedBackup, bs.blobs, nodes, backup, i);
      s, text := ReadText(stored[i].value);
    }

    /** Never refused: the blob of a parent is not empty, and of a new node it is blob 0, read as the word behind it. */
    method GetParent(i: nat) returns (parent: nat)
      requires Loaded() && i < |nodes|
      ensures parent == nodes[i].parent
    {
      MeansAt(stored, storedBackup, bs.blobs, nodes, backup, i);
      HeldAt(bs.mem[..], bs.nextFree, bs.blobs, stored[i].parent);
      var r := bs.GetWord(stored[i].parent);
      parent := r.value;
    }

    method GetChildren(i: nat) returns (kids: Slots)
      requires Loaded() && i < |nodes|
      ensures kids == nodes[i].children
    {
      MeansAt(stored, storedBackup, bs.blobs, nodes, backup, i);
      kids := stored[i].children;
    }

    method Size() returns (n: nat)
      requires Loaded()
      ensures n == |nodes|
    {
      MeansAt(stored, storedBackup, bs.blobs, nodes, backup, 0);
      n := |stored|;
    }

    // -------------------------------------------------------------------- look up

    method GetNodeIndex(key: Bytes) returns (s: Status, r: int)
      requires Loaded() && Shape(nodes, path)
      ensures Went(s)
      ensures s.Pass? ==> -1 <= r
      ensures s.Pass? && r >= 0 ==> r in path && path[r] == key
      ensures s.Pass? && r == -1 ==> forall n :: n in path ==> path[n] != key
      ensures s in {Pass, LastWord}
    {
      r := -1;
      var cur, i := 0, 0;
      var keyEndedAtEdge := false;
      while i < |key|
        invariant 0 <= i <= |key| && cur in path
        invariant cur == 0 <==> i == 0
        invariant cur != 0 ==> UpLink(nodes, path, cur)
        invariant cur != 0 ==> path[nodes[cur].parent] == key[..i - 1] && nodes[cur].prefix[0] == key[i - 1]
        invariant keyEndedAtEdge == (i > 0)
        invariant forall n :: n in path && path[n] == key ==> path[cur] <= key
      {
        keyEndedAtEdge := false;
        var pathElement := key[i];
        var prefix :- GetPrefix(cur);
        var len := |prefix|;
        if len - 1 > 0 {
          if len - 1 < |key| - i {
            if prefix != key[i - 1..i - 1 + len] {
              assert !(path[cur] <= key);
              return Pass, -1;
            }
            i := i + len - 1;
            pathElement := key[i];
            assert path[cur] == key[..i];
          } else if len - 1 == |key| - i {
            if prefix == key[i - 1..] {
              assert path[cur] == key;
              return Pass, cur;
            }
            assert !(path[cur] <= key);
            return Pass, -1;
          } else {
            return Pass, -1;
          }
        }
        assert path[cur] == key[..i];
        var kids := GetChildren(cur);
        if kids[pathElement] == 0 {
          forall n | n in path ensures path[n] != key {
            NoSuchPath(nodes, path, cur, key, n);
          }
          return Pass, -1;
        }
        assert DownLink(nodes, path, cur, pathElement);
        forall n | n in path && path[n] == key ensures path[nodes[cur].children[pathElement]] <= key {
          Descend(nodes, path, cur, n);
        }
        cur := kids[pathElement];
        assert UpLink(nodes, path, cur);
        keyEndedAtEdge := true;
        i := i + 1;
      }
      var prefix :- GetPrefix(cur);
      if keyEndedAtEdge && |prefix| - 1 != 0 {
        return Pass, -1;
      }
      return Pass, cur;
    }

    method Get(key: Bytes) returns (s: Status, v: Bytes)
      requires Loaded() && Shape(nodes, path)
      ensures Went(s) && (s.Pass? ==> v == Lookup(View(), key))
      ensures s in {Pass, LastWord}
      ensures Roomy(Used(), 0, 0) ==> s.Pass?
    {
      v := [];
      var n :- GetNodeIndex(key);
      if n == -1 {
        return Pass, [];
      }
      ContentsAt(nodes, path, n);
      s, v := GetValue(n);
    }

    /** The hash of the node at a path, empty if there is no such node. */
    method GetNodeHash(key: Bytes) returns (s: Status, h: Bytes)
      requires Loaded() && Valid()
      ensures Went(s)
      ensures s.Pass? ==> forall n :: n in path && path[n] == key ==> h == nodes[n].hash
      ensures s.Pass? ==> h == TrieHash.HashIn(hasher, View(), key)
      ensures s in {Pass, LastWord}
      ensures Roomy(Used(), 0, 0) ==> s.Pass?
    {
      h := [];
      TrieHash.HashInIs(hasher, nodes, path, View(), key);
      var n :- GetNodeIndex(key);
      if n == -1 {
        return Pass, [];
      }
      s, h := GetHash(n);
    }

    method NodeHasChildren(n: nat) returns (r: bool)
      requires Loaded() && n < |nodes|
      ensures r == HasChildren(nodes[n])
    {
      var kids := GetChildren(n);
      for i := 0 to 256
        invariant forall b: Byte :: b < i ==> nodes[n].children[b] == 0
      {
        if kids[i] != 0 {
          var b: Byte := i;
          assert nodes[n].children[b] != 0;
          return true;
        }
      }
      return false;
    }

    /** The bytes that lead to a child, in increasing order. */
    method ListChildren(n: nat) returns (kids: seq<Byte>)
      requires Loaded() && n < |nodes|
      ensures forall b: Byte :: b in kids <==> nodes[n].children[b] != 0
      ensures forall i, j :: 0 <= i < j < |kids| ==> kids[i] < kids[j]
    {
      var slots := GetChildren(n);
      kids := [];
      for i := 0 to 256
        invariant forall j :: 0 <= j < |kids| ==> kids[j] < i && nodes[n].children[kids[j]] != 0
        invariant forall b: Byte :: b < i && nodes[n].children[b] != 0 ==> b in kids
        invariant forall i, j :: 0 <= i < j < |kids| ==> kids[i] < kids[j]
      {
        if slots[i] != 0 {
          kids := kids + [i];
        }
      }
    }

    // ------------------------------------------------------- backups, slots, hashes

    method BackupNodes(cur: nat)
      requires Loaded() && cur < |nodes|
      requires forall i :: 0 <= i < permanent && i !in backup ==> i < |nodes| && nodes[i].parent < |nodes|
      modifies `storedBackup, `backup
      ensures Loaded() && cur in backup
      ensures forall i :: i in old(backup) ==> i in backup && backup[i] == old(backup)[i]
      ensures forall i :: i in backup && i !in old(backup) ==> i < |nodes| && backup[i] == nodes[i]
      ensures forall i :: i in backup && i !in old(backup) && 0 < i < permanent ==> nodes[i].parent in backup
      decreases set i | 0 <= i < permanent && i !in backup
    {
      MeansAt(stored, storedBackup, bs.blobs, nodes, backup, cur);
      if cur !in storedBackup {
        ghost var unsaved := set i | 0 <= i < permanent && i !in backup;
        MeansSave(stored, storedBackup, bs.blobs, nodes, backup, cur);
        storedBackup := storedBackup[cur := stored[cur]];
        backup := backup[cur := nodes[cur]];
        if cur != 0 && cur < permanent {
          assert cur in unsaved;
          var parent := GetParent(cur);
          BackupNodes(parent);
        }
      }
    }

    /** backup_nodes at an operation's start: slot cur and its ancestors may now be written. */
    method Protect(cur: nat)
      requires Loaded() && Sound() && cur < |nodes|
      modifies `storedBackup, `backup
      ensures Loaded() && Sound() && cur in backup
      ensures forall n :: Dirty(old(backup), permanent, n) ==> Dirty(backup, permanent, n)
      ensures Bounded(|nodes|, old(backup), |nodes|, backup)
    {
      forall i | 0 <= i < permanent && i !in backup ensures nodes[i].parent < |nodes| {
        if i != 0 {
          assert UpLink(saved, savedPath, i);
        }
      }
      BackupNodes(cur);
      assert BoundedFacts(|nodes|, old(backup), |nodes|, backup);
    }

    /** push_back of a new node. */
    method Push()
      requires Loaded()
      modifies `stored, `nodes
      ensures Loaded() && nodes == old(nodes) + [Blank()]
      ensures |stored| == |old(stored)| + 1
    {
      MeansPush(stored, storedBackup, bs.blobs, nodes, backup);
      stored, nodes := stored + [NewStored()], nodes + [Blank()];
    }

    /** A new node in the smallest free slot, or else at the end. */
    method TakeSlot() returns (r: nat)
      requires Loaded() && Sound()
      modifies `stored, `nodes, `storedBackup, `backup, `free
      ensures Loaded() && r !in path && r <= |old(nodes)|
      ensures nodes == if r == |old(nodes)| then old(nodes) + [Blank()] else old(nodes)[r := Blank()]
      ensures free == old(free) - {r} && (forall x :: x in old(free) ==> r <= x)
      ensures (r in old(free) || (old(free) == {} && r == |old(nodes)|))
      ensures Tracked(nodes, backup, permanent, saved) && Dirty(backup, permanent, r)
      ensures DirtyUp(nodes, path, backup, permanent)
      ensures forall n :: Dirty(old(backup), permanent, n) ==> Dirty(backup, permanent, n)
      ensures Bounded(|old(nodes)|, old(backup), |nodes|, backup)
      ensures |stored| <= |old(stored)| + 1
    {
      if free == {} {
        r := Size();
        Push();
        BoundedStill(|old(nodes)|, backup, |nodes|);
      } else {
        r := Smallest(free);
        Protect(r);
        MeansAt(stored, storedBackup, bs.blobs, nodes, backup, r);
        BlankMeaning(bs.blobs);
        Replace(r, NewStored());
        free := free - {r};
      }
    }

    /** A new node below `from`, linked both ways. */
    method AddNode(from: nat, to: Byte) returns (s: Status, r: nat)
      requires Loaded() && Sound() && from in path && Dirty(backup, permanent, from)
      modifies `stored, `nodes, `storedBackup, `backup, `free, bs, bs.mem
      ensures bs.mem == old(bs.mem) || fresh(bs.mem)
      ensures Went(s)
      ensures s.Pass? ==> r !in path && r <= |old(nodes)| && nodes == WithLeaf(old(nodes), from, to, r)
      ensures s.Pass? ==> free == old(free) - {r} && (r in old(free) || (old(free) == {} && r == |old(nodes)|))
      ensures s.Pass? ==> Tracked(nodes, backup, permanent, saved) && Dirty(backup, permanent, r)
      ensures s.Pass? ==> DirtyUp(nodes, path, backup, permanent)
      ensures s.Pass? ==> forall n :: Dirty(old(backup), permanent, n) ==> Dirty(backup, permanent, n)
      ensures s.Pass? ==> free <= old(free) && Bounded(|old(nodes)|, old(backup), |nodes|, backup)
      ensures !s.NoRoom?
      ensures s.Pass? ==> forall x :: x in old(free) ==> r <= x
      ensures Spends(old(Used()), Used(), 4, 1)
    {
      r := TakeSlot();
      ghost var taken := nodes;
      :- Link(from, to, r);
      LinkedKept(taken, nodes, path, backup, permanent, saved, from, to, r);
      assert nodes == WithLeaf(old(nodes), from, to, r);
      s := Pass;
    }

    method Link(from: nat, to: Byte, r: nat) returns (s: Status)
      requires Loaded() && from < |nodes| && r < |nodes| && from != r
      modifies `stored, `nodes, bs, bs.mem
      ensures bs.mem == old(bs.mem) || fresh(bs.mem)
      ensures Went(s) && (s.Pass? ==> nodes == Linked(old(nodes), from, to, r))
      ensures !s.NoRoom?
      ensures Spends(old(Used()), Used(), 4, 0)
    {
      SetChild(from, to, r);
      SmallTexts();
      :- SetParent(r, from);
      :- SetPrefix(r, [to]);
      s := Pass;
    }

    method CalculateHash(cur: nat) returns (s: Status)
      requires Loaded() && Chain(nodes, path) && cur in path
      requires Tracked(nodes, backup, permanent, saved) && DirtyUp(nodes, path, backup, permanent)
      requires Dirty(backup, permanent, cur)
      modifies `stored, `nodes, bs, bs.mem
      ensures bs.mem == old(bs.mem) || fresh(bs.mem)
      ensures Went(s)
      ensures s.Pass? ==> SameButHash(old(nodes), nodes) && Tracked(nodes, backup, permanent, saved)
      ensures s.Pass? && old(Shape(nodes, path) && HashedOff(hasher, nodes, path, path[cur])) ==>
                Hashed(hasher, nodes, path)
      ensures Short(hasher, path, lim) ==> !s.NoRoom?
      ensures Short(hasher, path, lim) ==> Spends(old(Used()), Used(), ClimbCost(lim, |path[cur]|), 0)
      decreases |path[cur]|
    {
      s := Pass;
      :- Rehash(cur);
      if cur != 0 {
        var parent := GetParent(cur);
        ClimbGrows(lim, |path[parent]|, |path[cur]| - 1);
        :- CalculateHash(parent);
      }
    }

    /** The hash of one node; what follows for the walk to the root. */
    method Rehash(cur: nat) returns (s: Status)
      requires Loaded() && Chain(nodes, path) && cur in path
      requires Tracked(nodes, backup, permanent, saved) && DirtyUp(nodes, path, backup, permanent)
      requires Dirty(backup, permanent, cur)
      modifies `stored, `nodes, bs, bs.mem
      ensures bs.mem == old(bs.mem) || fresh(bs.mem)
      ensures Went(s)
      ensures s.Pass? ==> SameButHash(old(nodes), nodes) && Tracked(nodes, backup, permanent, saved)
      ensures s.Pass? ==> Chain(nodes, path) && DirtyUp(nodes, path, backup, permanent)
      ensures s.Pass? && old(Shape(nodes, path) && HashedOff(hasher, nodes, path, path[cur])) ==>
                if cur == 0 then Hashed(hasher, nodes, path)
                else Shape(nodes, path) && HashedOff(hasher, nodes, path, path[nodes[cur].parent])
      ensures Short(hasher, path, lim) ==> !s.NoRoom?
      ensures Short(hasher, path, lim) ==> Spends(old(Used()), Used(), StepCost(lim), 0)
    {
      s := Pass;
      :- PutHash(cur);
      RehashChain(old(nodes), nodes, path, backup, permanent);
      if old(Shape(nodes, path) && HashedOff(hasher, nodes, path, path[cur])) {
        RehashStep(hasher, old(nodes), path, cur);
      }
      s := Pass;
    }

    method PutHash(cur: nat) returns (s: Status)
      requires Loaded() && Chain(nodes, path) && cur in path
      modifies `stored, `nodes, bs, bs.mem
      ensures bs.mem == old(bs.mem) || fresh(bs.mem)
      ensures Went(s)
      ensures s.Pass? ==> nodes == old(nodes)[cur := old(nodes)[cur].(hash := Digest(hasher, old(nodes), cur))]
      ensures Short(hasher, path, lim) ==> !s.NoRoom?
      ensures Short(hasher, path, lim) ==> Spends(old(Used()), Used(), StepCost(lim), 0)
    {
      var digest :- HashNode(cur);
      ShortDigest(hasher, nodes, path, lim, cur);
      s := SetHash(cur, digest);
    }

    /** The digest of value, prefix and child hashes; empty for a root without children. */
    method HashNode(cur: nat) returns (s: Status, digest: Bytes)
      requires Loaded() && Chain(nodes, path) && cur in path
      ensures Went(s) && (s.Pass? ==> digest == Digest(hasher, nodes, cur))
      ensures s in {Pass, LastWord}
    {
      digest := [];
      var some := NodeHasChildren(cur);
      if cur == 0 && !some {
        return Pass, [];
      }
      var kids := GetChildren(cur);
      var updates :- GetValue(cur);
      var prefix :- GetPrefix(cur);
      updates := updates + prefix;
      for i := 0 to 256
        invariant updates == nodes[cur].value + nodes[cur].prefix + ChildHashes(nodes, kids, i)
      {
        var b: Byte := i;
        assert nodes[cur].children[b] < |nodes|;
        if kids[i] != 0 {
          var hash :- GetHash(kids[i]);
          updates := updates + hash;
        }
      }
      return Pass, hasher(updates);
    }

    /** CalculateHash in a sound state: nothing but hashes change. */
    method HashUp(cur: nat) returns (s: Status)
      requires Loaded() && Sound() && cur in path && Dirty(backup, permanent, cur)
      modifies `stored, `nodes, bs, bs.mem
      ensures bs.mem == old(bs.mem) || fresh(bs.mem)
      ensures Went(s)
      ensures s.Pass? ==> Sound() && View() == old(View()) && SameButHash(old(nodes), nodes)
      ensures s.Pass? && old(HashedOff(hasher, nodes, path, path[cur])) ==> Hashed(hasher, nodes, path)
      ensures s.Pass? && old(Canonical(nodes, path)) ==> Canonical(nodes, path)
      ensures s.Pass? ==> forall x :: old(CanonicalBut(nodes, path, x)) ==> CanonicalBut(nodes, path, x)
      ensures Short(hasher, path, lim) ==> !s.NoRoom?
      ensures Short(hasher, path, lim) ==> Spends(old(Used()), Used(), ClimbCost(lim, lim.key), 0)
    {
      ShapeIsChain(nodes, path);
      ShortClimb(hasher, path, lim, cur);
      :- CalculateHash(cur);
      RehashedSound(old(nodes), nodes, path, free, backup, permanent, saved);
      s := Pass;
    }

    // -------------------------------------------------------------------- set

    /** An empty value changes nothing. */
    method Set(key: Bytes, value: Bytes) returns (s: Status)
      requires Loaded() && Valid()
      modifies `stored, `nodes, `storedBackup, `backup, `free, `path, bs, bs.mem
      ensures bs.mem == old(bs.mem) || fresh(bs.mem)
      ensures Went(s)
      ensures s.Pass? ==> Valid() && View() == if value == [] then old(View()) else old(View())[key := value]
      ensures s.Pass? ==> free <= old(free) && Bounded(|old(nodes)|, old(backup), |nodes|, backup)
      ensures old(Short(hasher, path, lim)) && |key| <= lim.key && |value| <= MAX_BLOB ==>
                !s.NoRoom? && (s.Pass? ==> Short(hasher, path, lim))
      ensures s.Pass? ==> Settles(old(Now()), key, Now()) && Topped(|old(nodes)|, |nodes|, backup)
      ensures old(Short(hasher, path, lim)) && |key| <= lim.key ==>
                Spends(old(Used()), Used(), SetCost(lim, |value|), 2)
      ensures old(Short(hasher, path, lim)) && |key| <= lim.key && |value| <= MAX_BLOB ==>
                (Roomy(old(Used()), SetCost(lim, |value|), 2) ==> s.Pass?) &&
                (Countable(old(Used()), SetCost(lim, |value|), 2) ==> !s.LongId?)
    {
      if value == [] {
        BoundedStill(|nodes|, backup, |nodes|);
        return Pass;
      }
      var cur :- Update(key, value);
      SettledAt(old(nodes), old(path), old(free), key, Now(), cur, backup);
      s := Pass;
    }

    /** set of a value that is not empty; the node for the key is returned. */
    method Update(key: Bytes, value: Bytes) returns (s: Status, cur: nat)
      requires Loaded() && Valid() && value != []
      modifies `stored, `nodes, `storedBackup, `backup, `free, `path, bs, bs.mem
      ensures bs.mem == old(bs.mem) || fresh(bs.mem)
      ensures Went(s)
      ensures s.Pass? ==> Valid() && View() == old(View())[key := value]
      ensures s.Pass? ==> free <= old(free) && Bounded(|old(nodes)|, old(backup), |nodes|, backup)
      ensures s.Pass? ==> cur in path && path[cur] == key && cur in backup
      ensures s.Pass? ==> Now() == old(Now()) || Sites(old(Now()), key, Now(), cur)
      ensures old(Short(hasher, path, lim)) && |key| <= lim.key && |value| <= MAX_BLOB ==>
                !s.NoRoom? && (s.Pass? ==> Short(hasher, path, lim))
      ensures old(Short(hasher, path, lim)) && |key| <= lim.key ==>
                Spends(old(Used()), Used(), SetCost(lim, |value|), 2)
    {
      cur :- Locate(key);
      ghost var n, kept := |nodes|, backup;
      :- WriteValue(cur, value);
      BoundedThen(|old(nodes)|, old(backup), n, kept, |nodes|, backup);
      s := Pass;
    }

    /** The last part of set, at the node for the key. */
    method WriteValue(cur: nat, value: Bytes) returns (s: Status)
      requires Loaded() && Sound() && cur in path && value != []
      requires CanonicalBut(nodes, path, cur) && HashedOff(hasher, nodes, path, path[cur])
      modifies `stored, `nodes, `storedBackup, `backup, bs, bs.mem
      ensures bs.mem == old(bs.mem) || fresh(bs.mem)
      ensures Went(s)
      ensures s.Pass? ==> Valid() && View() == old(View())[path[cur] := value]
      ensures s.Pass? ==> Bounded(|old(nodes)|, old(backup), |nodes|, backup)
      ensures Short(hasher, path, lim) && |value| <= MAX_BLOB ==> !s.NoRoom?
      ensures s.Pass? ==> |nodes| == |old(nodes)| && cur in backup
      ensures Short(hasher, path, lim) ==> Spends(old(Used()), Used(), TextCost(|value|) + ClimbCost(lim, lim.key), 0)
    {
      Protect(cur);
      :- PutValue(cur, value);
      assert Needed(nodes[cur]);
      s := HashUp(cur);
    }

    method PutValue(cur: nat, value: Bytes) returns (s: Status)
      requires Loaded() && Sound() && cur in path && Dirty(backup, permanent, cur)
      requires CanonicalBut(nodes, path, cur) && HashedOff(hasher, nodes, path, path[cur])
      modifies `stored, `nodes, bs, bs.mem
      ensures bs.mem == old(bs.mem) || fresh(bs.mem)
      ensures Went(s)
      ensures s.Pass? ==> Sound() && View() == Updated(old(View()), path[cur], value)
      ensures s.Pass? ==> nodes == old(nodes)[cur := old(nodes)[cur].(value := value)]
      ensures s.Pass? ==> CanonicalBut(nodes, path, cur) && HashedOff(hasher, nodes, path, path[cur])
      ensures Short(hasher, path, lim) && |value| <= MAX_BLOB ==> !s.NoRoom?
      ensures Spends(old(Used()), Used(), TextCost(|value|), 0)
    {
      TrieEdits.SetValue(hasher, nodes, path, cur, value);
      :- SetValue(cur, value);
      s := Pass;
    }

    /** The node for a key, made if need be by hanging a leaf or splitting an edge. */
    method Locate(key: Bytes) returns (s: Status, cur: nat)
      requires Loaded() && Valid()
      modifies `stored, `nodes, `storedBackup, `backup, `free, `path, bs, bs.mem
      ensures bs.mem == old(bs.mem) || fresh(bs.mem)
      ensures Went(s)
      ensures s.Pass? ==> Sound() && cur in path && path[cur] == key && View() == old(View())
      ensures s.Pass? ==> CanonicalBut(nodes, path, cur) && HashedOff(hasher, nodes, path, key)
      ensures s.Pass? ==> free <= old(free) && Bounded(|old(nodes)|, old(backup), |nodes|, backup)
      ensures old(Short(hasher, path, lim)) && |key| <= lim.key ==> !s.NoRoom? && (s.Pass? ==> Short(hasher, path, lim))
      ensures s.Pass? ==> Now() == old(Now()) || Sites(old(Now()), key, Now(), cur)
      ensures old(Short(hasher, path, lim)) && |key| <= lim.key ==>
                Spends(old(Used()), Used(), ForkCost(lim) + EdgeCost(lim), 2)
    {
      var prefixIndex, done;
      ghost var sprouted;
      s, cur, prefixIndex, done, sprouted := Search(key);
      if s.Pass? && !done {
        ghost var n, kept := |nodes|, backup;
        s, cur := StopAt(cur, prefixIndex, key, sprouted, old(Now()));
        if s.Pass? {
          BoundedThen(|old(nodes)|, old(backup), n, kept, |nodes|, backup);
        }
      }
    }

    /** The loop of the search, to the end of the key or to a leaf that took the rest of it. */
    method Search(key: Bytes) returns (s: Status, cur: nat, prefixIndex: nat, done: bool, ghost sprouted: bool)
      requires Loaded() && Valid()
      modifies `stored, `nodes, `storedBackup, `backup, `free, `path, bs, bs.mem
      ensures bs.mem == old(bs.mem) || fresh(bs.mem)
      ensures Went(s)
      ensures s.Pass? && !done ==> Arrived(cur, prefixIndex, sprouted, key) && Grown(old(Now()), sprouted, key, cur)
      ensures s.Pass? && done ==> Midway(cur) && path[cur] == key && Sites(old(Now()), key, Now(), cur)
      ensures s.Pass? ==> Shape(nodes, path) && View() == old(View())
      ensures s.Pass? ==> free <= old(free) && Bounded(|old(nodes)|, old(backup), |nodes|, backup)
      ensures old(Short(hasher, path, lim)) && |key| <= lim.key ==> !s.NoRoom? && (s.Pass? ==> Short(hasher, path, lim))
      ensures old(Short(hasher, path, lim)) && |key| <= lim.key ==>
                Searched(old(Used()), sprouted, s.Pass? && !done)
    {
      var i := 0;
      s, cur, prefixIndex, done, sprouted := Pass, 0, 0, false, false;
      BoundedStill(|nodes|, backup, |nodes|);
      assert Locating(cur, prefixIndex, sprouted, key[..0]);
      ghost var slim := Short(hasher, path, lim) && |key| <= lim.key;
      while i < |key|
        invariant bs.mem == old(bs.mem) || fresh(bs.mem)
        invariant 0 <= i <= |key| && s.Pass? && !done && Loaded() && Arrived(cur, prefixIndex, sprouted, key[..i])
        invariant Shape(nodes, path) && View() == old(View())
        invariant free <= old(free) && Bounded(|old(nodes)|, old(backup), |nodes|, backup)
        invariant Grown(old(Now()), sprouted, key[..i], cur)
        invariant slim ==> Short(hasher, path, lim) && Searched(old(Used()), sprouted, true)
      {
        s, cur, prefixIndex, done, sprouted :=
          SearchStep(cur, prefixIndex, key, i, sprouted, old(Now()), old(backup), old(Used()), slim);
        if s.IsFailure() || done {
          return;
        }
        i := i + 1;
      }
      assert key[..i] == key;
    }

    /** What the search has used up of the store, while it goes on or at its end. */
    ghost predicate Searched(u: Use, sprouted: bool, going: bool)
      reads this, bs
    {
      Spends(u, Used(), SearchCost(lim, sprouted, going), if sprouted then 2 else 0)
    }

    /** One round, seen from the start of the search. */
    method SearchStep(cur: nat, prefixIndex: nat, key: Bytes, i: nat, ghost sprouted: bool, ghost l0: Layout,
                      ghost kept: Backups, ghost u: Use, ghost slim: bool)
      returns (s: Status, cur': nat, prefixIndex': nat, done: bool, ghost sprouted': bool)
      requires Loaded() && i < |key| && Arrived(cur, prefixIndex, sprouted, key[..i]) && Shape(nodes, path)
      requires Grown(l0, sprouted, key[..i], cur) && free <= l0.free && Bounded(l0.size, kept, |nodes|, backup)
      requires slim ==> Short(hasher, path, lim) && |key| <= lim.key && Searched(u, sprouted, true)
      modifies `stored, `nodes, `storedBackup, `backup, `free, `path, bs, bs.mem
      ensures bs.mem == old(bs.mem) || fresh(bs.mem)
      ensures Went(s)
      ensures s.Pass? && !done ==> Arrived(cur', prefixIndex', sprouted', key[..i + 1])
      ensures s.Pass? && done ==> Midway(cur') && path[cur'] == key
      ensures s.Pass? ==> Shape(nodes, path) && View() == old(View())
      ensures s.Pass? ==> free <= l0.free && Bounded(l0.size, kept, |nodes|, backup)
      ensures slim ==> !s.NoRoom? && (s.Pass? ==> Short(hasher, path, lim))
      ensures slim ==> Searched(u, sprouted', s.Pass? && !done)
      ensures s.Pass? ==> if done then Sites(l0, key, Now(), cur') else Grown(l0, sprouted', key[..i + 1], cur')
    {
      assert Locating(cur, prefixIndex, sprouted, key[..i]);
      ghost var n, mid := |nodes|, backup;
      s, cur', prefixIndex', done, sprouted' := LocateStep(cur, prefixIndex, key, i, sprouted, l0);
      if s.Pass? {
        BoundedThen(l0.size, kept, n, mid, |nodes|, backup);
      }
    }

    /** The whole key is read: a node in the middle of an edge is made by splitting it. */
    method StopAt(cur: nat, prefixIndex: nat, key: Bytes, ghost sprouted: bool, ghost l0: Layout)
      returns (s: Status, at: nat)
      requires Loaded() && Arrived(cur, prefixIndex, sprouted, key) && Shape(nodes, path)
      requires Grown(l0, sprouted, key, cur)
      modifies `stored, `nodes, `storedBackup, `backup, `free, `path, bs, bs.mem
      ensures bs.mem == old(bs.mem) || fresh(bs.mem)
      ensures Went(s)
      ensures s.Pass? ==> Sound() && at in path && path[at] == key && View() == old(View())
      ensures s.Pass? ==> CanonicalBut(nodes, path, at) && HashedOff(hasher, nodes, path, key)
      ensures s.Pass? ==> free <= old(free) && Bounded(|old(nodes)|, old(backup), |nodes|, backup)
      ensures old(Short(hasher, path, lim)) ==> !s.NoRoom? && (s.Pass? ==> Short(hasher, path, lim))
      ensures s.Pass? ==> Now() == l0 || Sites(l0, key, Now(), at)
      ensures old(Short(hasher, path, lim)) ==>
                Spends(old(Used()), Used(), if sprouted then 0 else ForkCost(lim), if sprouted then 0 else 1)
    {
      assert Locating(cur, prefixIndex, sprouted, key);
      at := cur;
      BoundedStill(|nodes|, backup, |nodes|);
      var prefix :- GetPrefix(cur);
      if |prefix| != prefixIndex {
        at :- SplitNode(cur, prefixIndex);
        SiteOne(l0, key, at, Now());
      }
      s := Pass;
    }

    /** Where the search for a key stands after reading k: on old ground or at a new leaf. */
    ghost predicate Locating(cur: nat, prefixIndex: nat, sprouted: bool, k: Bytes)
      reads this
    {
      if sprouted then Midway(cur) && cur != 0 && StateImpl.NewLeaf(nodes, cur) && prefixIndex == 1 && path[cur] == k
      else Valid() && StateImpl.Walked(nodes, path, cur, prefixIndex, k) && (cur != 0 ==> prefixIndex != 0)
    }

    /** The same; proofs look inside on demand. */
    ghost predicate Arrived(cur: nat, prefixIndex: nat, sprouted: bool, k: Bytes)
      reads this
    {
      forall u: nat {:trigger Locating(u, prefixIndex, sprouted, k)} :: u == cur ==>
        Locating(u, prefixIndex, sprouted, k)
    }

    /** What the search has done to the layout l0 it started from. */
    ghost predicate Grown(l0: Layout, sprouted: bool, k: Bytes, cur: nat)
      reads this
    {
      if sprouted then Sites(l0, k, Now(), cur) else Now() == l0
    }

    /** One round of the search: byte i of the key is read, unless the rest goes onto a new leaf. */
    method LocateStep(cur: nat, prefixIndex: nat, key: Bytes, i: nat, ghost sprouted: bool, ghost l0: Layout)
      returns (s: Status, cur': nat, prefixIndex': nat, done: bool, ghost sprouted': bool)
      requires Loaded() && i < |key| && Locating(cur, prefixIndex, sprouted, key[..i])
      requires Grown(l0, sprouted, key[..i], cur)
      modifies `stored, `nodes, `storedBackup, `backup, `free, `path, bs, bs.mem
      ensures bs.mem == old(bs.mem) || fresh(bs.mem)
      ensures Went(s)
      ensures s.Pass? && !done ==> Locating(cur', prefixIndex', sprouted', key[..i + 1])
      ensures s.Pass? && done ==> Midway(cur') && path[cur'] == key
      ensures s.Pass? ==> Shape(nodes, path) && View() == old(View())
      ensures s.Pass? ==> free <= old(free) && Bounded(|old(nodes)|, old(backup), |nodes|, backup)
      ensures old(Short(hasher, path, lim)) && |key| <= lim.key ==> !s.NoRoom? && (s.Pass? ==> Short(hasher, path, lim))
      ensures s.Pass? ==> if done then Sites(l0, key, Now(), cur') else Grown(l0, sprouted', key[..i + 1], cur')
      ensures (s.Pass? && sprouted ==> done) && (sprouted ==> sprouted')
      ensures old(Short(hasher, path, lim)) && |key| <= lim.key ==>
                Spends(old(Used()), Used(), StrideCost(lim, sprouted, sprouted'), StrideSlots(sprouted, sprouted'))
    {
      assert key[..i + 1] == key[..i] + [key[i]];
      cur', prefixIndex', done, sprouted' := cur, prefixIndex, false, sprouted;
      var prefix :- GetPrefix(cur);
      if prefixIndex == |prefix| {
        s, cur', done, sprouted' := LeaveNode(cur, key, i, sprouted, l0);
        prefixIndex' := 1;
      } else if key[i] != prefix[prefixIndex] {
        s, cur' := Fork(cur, prefixIndex, key[i]);
        prefixIndex', sprouted' := 1, true;
      } else {
        StateImpl.WalkOn(nodes, path, cur, prefixIndex, key[..i]);
        BoundedStill(|nodes|, backup, |nodes|);
        s, prefixIndex' := Pass, prefixIndex + 1;
      }
    }

    /** Byte i of the key when the edge into cur is used up. */
    method LeaveNode(cur: nat, key: Bytes, i: nat, ghost sprouted: bool, ghost l0: Layout)
      returns (s: Status, cur': nat, done: bool, ghost sprouted': bool)
      requires Loaded() && i < |key| && cur < |nodes| && Locating(cur, |nodes[cur].prefix|, sprouted, key[..i])
      requires Grown(l0, sprouted, key[..i], cur)
      modifies `stored, `nodes, `storedBackup, `backup, `free, `path, bs, bs.mem
      ensures bs.mem == old(bs.mem) || fresh(bs.mem)
      ensures Went(s)
      ensures s.Pass? && !done ==> Locating(cur', 1, sprouted', key[..i] + [key[i]])
      ensures s.Pass? && done ==> Midway(cur') && path[cur'] == key
      ensures s.Pass? ==> Shape(nodes, path) && View() == old(View())
      ensures s.Pass? ==> free <= old(free) && Bounded(|old(nodes)|, old(backup), |nodes|, backup)
      ensures old(Short(hasher, path, lim)) && |key| <= lim.key ==> !s.NoRoom? && (s.Pass? ==> Short(hasher, path, lim))
      ensures s.Pass? ==> if done then Sites(l0, key, Now(), cur') else Grown(l0, sprouted', key[..i] + [key[i]], cur')
      ensures (s.Pass? && sprouted ==> done) && (sprouted ==> sprouted')
      ensures old(Short(hasher, path, lim)) && |key| <= lim.key ==>
                Spends(old(Used()), Used(), StrideCost(lim, sprouted, sprouted'), StrideSlots(sprouted, sprouted'))
    {
      var kids := GetChildren(cur);
      if kids[key[i]] != 0 {
        StateImpl.WalkDown(nodes, path, cur, key[i], key[..i]);
        BoundedStill(|nodes|, backup, |nodes|);
        s, cur', done, sprouted' := Pass, kids[key[i]], false, false;
      } else {
        s, cur', done := GrowFrom(cur, key, i, sprouted, l0);
        sprouted' := true;
      }
    }

    /** There is no edge for byte i: a new leaf, unless cur is one already and takes the rest of the key. */
    method GrowFrom(cur: nat, key: Bytes, i: nat, ghost sprouted: bool, ghost l0: Layout)
      returns (s: Status, cur': nat, done: bool)
      requires Loaded() && i < |key| && cur < |nodes| && Locating(cur, |nodes[cur].prefix|, sprouted, key[..i])
      requires Grown(l0, sprouted, key[..i], cur)
      requires nodes[cur].children[key[i]] == 0
      modifies `stored, `nodes, `storedBackup, `backup, `free, `path, bs, bs.mem
      ensures bs.mem == old(bs.mem) || fresh(bs.mem)
      ensures Went(s)
      ensures s.Pass? && !done ==> Locating(cur', 1, true, key[..i] + [key[i]])
      ensures s.Pass? && done ==> Midway(cur') && path[cur'] == key
      ensures s.Pass? ==> Shape(nodes, path) && View() == old(View())
      ensures s.Pass? ==> free <= old(free) && Bounded(|old(nodes)|, old(backup), |nodes|, backup)
      ensures old(Short(hasher, path, lim)) && |key| <= lim.key ==> !s.NoRoom? && (s.Pass? ==> Short(hasher, path, lim))
      ensures s.Pass? ==> Sites(l0, if done then key else key[..i] + [key[i]], Now(), cur')
      ensures s.Pass? && sprouted ==> done
      ensures old(Short(hasher, path, lim)) && |key| <= lim.key ==>
                Spends(old(Used()), Used(), StrideCost(lim, sprouted, true), StrideSlots(sprouted, true))
    {
      cur', done := cur, false;
      var some := NodeHasChildren(cur);
      var value :- GetValue(cur);
      if some || value != [] || cur == 0 {
        WalkedOut(nodes, path, cur, key[..i]);
        s, cur' := Hang(cur, key[i]);
        if s.Pass? {
          SiteOne(l0, key[..i] + [key[i]], cur', Now());
        }
      } else {
        if !sprouted {
          NotBare(nodes, path, cur);
        }
        assert sprouted;
        assert key == key[..i] + key[i..];
        SiteStretched(l0, key[..i], Now(), cur, key);
        s := Stretch(cur, key[i..]);
        BoundedStill(|old(nodes)|, backup, |old(nodes)|);
        done := true;
      }
    }

    /** The rest of the key goes onto the edge of the new leaf. */
    method Stretch(cur: nat, suffix: Bytes) returns (s: Status)
      requires Loaded() && Midway(cur) && cur != 0 && StateImpl.NewLeaf(nodes, cur)
      modifies `stored, `nodes, `path, bs, bs.mem
      ensures bs.mem == old(bs.mem) || fresh(bs.mem)
      ensures Went(s)
      ensures s.Pass? ==> Midway(cur) && View() == old(View()) && |nodes| == |old(nodes)|
      ensures s.Pass? ==> path == old(path)[cur := old(path)[cur] + suffix]
      ensures old(Short(hasher, path, lim)) && |old(path)[cur]| + |suffix| <= lim.key ==>
                !s.NoRoom? && (s.Pass? ==> Short(hasher, path, lim))
      ensures s.Pass? ==> free == old(free) && backup == old(backup)
      ensures old(Short(hasher, path, lim)) && |old(path)[cur]| + |suffix| <= lim.key ==>
                Spends(old(Used()), Used(), EdgeCost(lim), 0)
    {
      ShortEdge(hasher, nodes, path, lim, cur);
      ShortWith(hasher, path, lim, cur, path[cur] + suffix);
      ExtendLeaf(hasher, nodes, path, cur, suffix);
      SuffixSound(nodes, path, free, backup, permanent, saved, cur, suffix);
      var prefix :- GetPrefix(cur);
      if |prefix| + |suffix| <= lim.key {
        TextCostGrows(|prefix| + |suffix|, lim.key);
      }
      :- SetPrefix(cur, prefix + suffix);
      path := path[cur := path[cur] + suffix];
      s := Pass;
    }

    /** A new leaf below a node that has to stay. */
    method Hang(cur: nat, to: Byte) returns (s: Status, r: nat)
      requires Loaded() && Valid() && cur in path && nodes[cur].children[to] == 0
      requires cur == 0 || nodes[cur].value != [] || HasChildren(nodes[cur])
      modifies `stored, `nodes, `storedBackup, `backup, `free, `path, bs, bs.mem
      ensures bs.mem == old(bs.mem) || fresh(bs.mem)
      ensures Went(s)
      ensures s.Pass? ==> Locating(r, 1, true, old(path)[cur] + [to]) && Shape(nodes, path) && View() == old(View())
      ensures s.Pass? ==> free <= old(free) && Bounded(|old(nodes)|, old(backup), |nodes|, backup)
      ensures old(Short(hasher, path, lim)) && |old(path)[cur]| < lim.key ==>
                !s.NoRoom? && (s.Pass? ==> Short(hasher, path, lim))
      ensures s.Pass? ==> Adds(old(Now()), old(path)[cur] + [to], r, Now())
      ensures Spends(old(Used()), Used(), 4, 1)
    {
      Protect(cur);
      ghost var kept := backup;
      s, r := Sprout(cur, to);
      if s.Pass? {
        BoundedThen(|old(nodes)|, old(backup), |old(nodes)|, kept, |nodes|, backup);
      }
    }

    /** The edge into cur is split after k bytes, where a new leaf branches off. */
    method Fork(cur: nat, k: nat, to: Byte) returns (s: Status, r: nat)
      requires Loaded() && Valid() && cur in path && cur != 0
      requires 0 < k < |nodes[cur].prefix| && nodes[cur].prefix[k] != to
      modifies `stored, `nodes, `storedBackup, `backup, `free, `path, bs, bs.mem
      ensures bs.mem == old(bs.mem) || fresh(bs.mem)
      ensures Went(s) && old(UpLink(nodes, path, cur))
      ensures s.Pass? ==> Midway(r) && r != 0 && StateImpl.NewLeaf(nodes, r) && View() == old(View())
      ensures s.Pass? ==> path[r] == SplitPath(old(nodes), old(path), cur, k) + [to]
      ensures s.Pass? ==> free <= old(free) && Bounded(|old(nodes)|, old(backup), |nodes|, backup)
      ensures old(Short(hasher, path, lim)) && |SplitPath(old(nodes), old(path), cur, k)| < lim.key ==>
                !s.NoRoom? && (s.Pass? ==> Short(hasher, path, lim))
      ensures s.Pass? ==> Sites(old(Now()), SplitPath(old(nodes), old(path), cur, k) + [to], Now(), r)
      ensures old(Short(hasher, path, lim)) ==> Spends(old(Used()), Used(), ForkCost(lim), 2)
    {
      r := 0;
      assert UpLink(nodes, path, cur);
      var split :- SplitNode(cur, k);
      ghost var n, kept, l1 := |nodes|, backup, Now();
      s, r := Sprout(split, to);
      if s.Pass? {
        SiteTwo(old(Now()), old(SplitPath(nodes, path, cur, k)), split, l1, old(SplitPath(nodes, path, cur, k)) + [to],
                r, Now());
        BoundedThen(|old(nodes)|, old(backup), n, kept, |nodes|, backup);
      }
    }

    /** add_node where the child slot is empty: a live leaf, still without a value. */
    method Sprout(from: nat, to: Byte) returns (s: Status, r: nat)
      requires Loaded() && Midway(from) && nodes[from].children[to] == 0
      requires from == 0 || nodes[from].value != [] || HasChildren(nodes[from])
      modifies `stored, `nodes, `storedBackup, `backup, `free, `path, bs, bs.mem
      ensures bs.mem == old(bs.mem) || fresh(bs.mem)
      ensures Went(s)
      ensures s.Pass? ==> Midway(r) && View() == old(View())
      ensures s.Pass? ==> r != 0 && StateImpl.NewLeaf(nodes, r) && path == old(path)[r := old(path)[from] + [to]]
      ensures s.Pass? ==> free <= old(free) && Bounded(|old(nodes)|, old(backup), |nodes|, backup)
      ensures old(Short(hasher, path, lim)) && |old(path)[from]| < lim.key ==>
                !s.NoRoom? && (s.Pass? ==> Short(hasher, path, lim))
      ensures s.Pass? ==> Adds(old(Now()), old(path)[from] + [to], r, Now())
      ensures Spends(old(Used()), Used(), 4, 1)
    {
      s, r := AddNode(from, to);
      if s.Pass? {
        ShortWith(hasher, path, lim, r, path[from] + [to]);
        path := path[r := path[from] + [to]];
        Sprouted(hasher, old(nodes), old(path), old(free), old(backup), permanent, saved, from, to, r, nodes, backup,
                 Now());
      }
    }

    /** The edge into cur is cut after k bytes; the new upper half is returned. */
    method CutEdge(cur: nat, k: nat) returns (s: Status, split: nat)
      requires Loaded() && Sound() && cur in path && cur != 0 && 0 < k < |nodes[cur].prefix|
      requires UpLink(nodes, path, cur) && nodes[cur].parent != cur
      modifies `stored, `nodes, `storedBackup, `backup, `free, bs, bs.mem
      ensures bs.mem == old(bs.mem) || fresh(bs.mem)
      ensures Went(s)
      ensures s.Pass? ==> split !in path && split <= |old(nodes)| && nodes == WithSplit(old(nodes), cur, k, split)
      ensures s.Pass? ==>
        SoundState(nodes, path[split := SplitPath(old(nodes), path, cur, k)], free, backup, permanent, saved)
      ensures s.Pass? ==> Dirty(backup, permanent, cur) && Dirty(backup, permanent, split)
      ensures s.Pass? ==> free <= old(free) && Bounded(|old(nodes)|, old(backup), |nodes|, backup)
      ensures Short(hasher, path, lim) ==> !s.NoRoom?
      ensures s.Pass? ==> split in old(free) || (old(free) == {} && split == |old(nodes)|)
      ensures s.Pass? ==> (forall x :: x in old(free) ==> split <= x) && free == old(free) - {split}
      ensures Short(hasher, path, lim) ==> Spends(old(Used()), Used(), 2 * EdgeCost(lim) + 4, 1)
    {
      split := 0;
      ShortEdge(hasher, nodes, path, lim, cur);
      var prefix :- GetPrefix(cur);
      split :- AddBeside(cur, prefix[0]);
      :- InsertShort(cur, k, split, prefix);
      CutSound(old(nodes), path, old(free), old(backup), permanent, saved, cur, k, split, nodes, backup);
      s := Pass;
    }

    /** A new node below the parent of cur, in the place of cur. */
    method AddBeside(cur: nat, to: Byte) returns (s: Status, split: nat)
      requires Loaded() && Sound() && cur in path && UpLink(nodes, path, cur)
      modifies `stored, `nodes, `storedBackup, `backup, `free, bs, bs.mem
      ensures bs.mem == old(bs.mem) || fresh(bs.mem)
      ensures Went(s)
      ensures s.Pass? ==> split !in path && (split in old(free) || split == |old(nodes)|) && free == old(free) - {split}
      ensures s.Pass? ==> split <= |old(nodes)| && nodes == WithLeaf(old(nodes), old(nodes)[cur].parent, to, split)
      ensures s.Pass? ==> Tracked(nodes, backup, permanent, saved) && DirtyUp(nodes, path, backup, permanent)
      ensures s.Pass? ==> Dirty(backup, permanent, cur) && Dirty(backup, permanent, split)
      ensures s.Pass? ==> Bounded(|old(nodes)|, old(backup), |nodes|, backup)
      ensures !s.NoRoom?
      ensures s.Pass? ==> (split in old(free) || old(free) == {}) && forall x :: x in old(free) ==> split <= x
      ensures Spends(old(Used()), Used(), 4, 1)
    {
      Protect(cur);
      ghost var kept := backup;
      var parent := GetParent(cur);
      split :- AddNode(parent, to);
      BoundedThen(|old(nodes)|, old(backup), |old(nodes)|, kept, |nodes|, backup);
      s := Pass;
    }

    /** The new node is put between cur and its parent. */
    method Insert(cur: nat, k: nat, split: nat, prefix: Bytes) returns (s: Status)
      requires Loaded() && cur < |nodes| && split < |nodes| && cur != split && 0 < k < |prefix|
      modifies `stored, `nodes, bs, bs.mem
      ensures bs.mem == old(bs.mem) || fresh(bs.mem)
      ensures Went(s)
      ensures s.Pass? ==> nodes == Inserted(old(nodes), cur, k, split, prefix)
      ensures |prefix| <= MAX_BLOB ==> !s.NoRoom?
      ensures Spends(old(Used()), Used(), 2 * TextCost(|prefix|) + 2, 0)
    {
      s := Pass;
      TextCostGrows(k, |prefix|);
      TextCostGrows(|prefix| - k, |prefix|);
      :- SetParent(cur, split);
      SetChild(split, prefix[k], cur);
      :- SetPrefix(split, prefix[..k]);
      :- SetPrefix(cur, prefix[k..]);
    }

    method InsertShort(cur: nat, k: nat, split: nat, prefix: Bytes) returns (s: Status)
      requires Loaded() && cur < |nodes| && split < |nodes| && cur != split && 0 < k < |prefix|
      modifies `stored, `nodes, bs, bs.mem
      ensures bs.mem == old(bs.mem) || fresh(bs.mem)
      ensures Went(s)
      ensures s.Pass? ==> nodes == Inserted(old(nodes), cur, k, split, prefix)
      ensures |prefix| <= MAX_BLOB ==> !s.NoRoom?
      ensures |prefix| <= lim.key ==> Spends(old(Used()), Used(), 2 * EdgeCost(lim), 0)
    {
      if |prefix| <= lim.key {
        TextCostGrows(|prefix|, lim.key);
      }
      s := Insert(cur, k, split, prefix);
    }

    /** Splits the edge and rehashes from the lower half up. */
    method SplitNode(cur: nat, k: nat) returns (s: Status, split: nat)
      requires Loaded() && Valid() && cur in path && cur != 0 && 0 < k < |nodes[cur].prefix|
      modifies `stored, `nodes, `storedBackup, `backup, `free, `path, bs, bs.mem
      ensures bs.mem == old(bs.mem) || fresh(bs.mem)
      ensures Went(s) && UpLink(old(nodes), old(path), cur)
      ensures s.Pass? ==> Midway(split) && Hashed(hasher, nodes, path) && View() == old(View())
      ensures s.Pass? ==> path == old(path)[split := SplitPath(old(nodes), old(path), cur, k)]
      ensures s.Pass? ==> nodes[split].prefix == old(nodes[cur].prefix)[..k]
      ensures s.Pass? ==> OnlyChild(nodes[split], old(nodes[cur].prefix)[k])
      ensures s.Pass? ==> free <= old(free) && Bounded(|old(nodes)|, old(backup), |nodes|, backup)
      ensures old(Short(hasher, path, lim)) ==> !s.NoRoom? && (s.Pass? ==> Short(hasher, path, lim))
      ensures s.Pass? ==> Adds(old(Now()), SplitPath(old(nodes), old(path), cur, k), split, Now())
      ensures old(Short(hasher, path, lim)) ==>
                Spends(old(Used()), Used(), 2 * EdgeCost(lim) + 4 + ClimbCost(lim, lim.key), 1)
    {
      split :- Halve(cur, k);
      ghost var halved := nodes;
      :- HashUp(cur);
      SameOnlyChild(halved[split], nodes[split]);
      s := Pass;
    }

    method Halve(cur: nat, k: nat) returns (s: Status, split: nat)
      requires Loaded() && Valid() && cur in path && cur != 0 && 0 < k < |nodes[cur].prefix|
      modifies `stored, `nodes, `storedBackup, `backup, `free, `path, bs, bs.mem
      ensures bs.mem == old(bs.mem) || fresh(bs.mem)
      ensures Went(s) && UpLink(old(nodes), old(path), cur)
      ensures s.Pass? ==> Sound() && View() == old(View()) && split in path && cur in path
      ensures s.Pass? ==> Dirty(backup, permanent, cur) && Dirty(backup, permanent, split)
      ensures s.Pass? ==> CanonicalBut(nodes, path, split) && HashedOff(hasher, nodes, path, path[cur])
      ensures s.Pass? ==> path == old(path)[split := SplitPath(old(nodes), old(path), cur, k)]
      ensures s.Pass? ==> nodes[split].prefix == old(nodes[cur].prefix)[..k]
      ensures s.Pass? ==> OnlyChild(nodes[split], old(nodes[cur].prefix)[k])
      ensures s.Pass? ==> free <= old(free) && Bounded(|old(nodes)|, old(backup), |nodes|, backup)
      ensures old(Short(hasher, path, lim)) ==> !s.NoRoom? && (s.Pass? ==> Short(hasher, path, lim))
      ensures s.Pass? ==> Adds(old(Now()), SplitPath(old(nodes), old(path), cur, k), split, Now())
      ensures old(Short(hasher, path, lim)) ==> Spends(old(Used()), Used(), 2 * EdgeCost(lim) + 4, 1)
    {
      ShortEdge(hasher, nodes, path, lim, cur);
      split :- CutEdge(cur, k);
      ShortWith(hasher, path, lim, split, SplitPath(old(nodes), old(path), cur, k));
      path := path[split := SplitPath(old(nodes), old(path), cur, k)];
      Halved(hasher, old(nodes), old(path), old(free), cur, k, split, nodes, Now());
      s := Pass;
    }

    // ------------------------------------------------------------------ erase

    /**
      Removes a key.  Fails, changing nothing, when the key is not set.  When the key is the empty
      one and the root has fewer than two children, the root slot itself is marked free.
     */
    method Erase(key: Bytes) returns (s: Status, ok: bool)
      requires Loaded() && Valid()
      modifies `stored, `nodes, `storedBackup, `backup, `free, `path, bs, bs.mem
      ensures bs.mem == old(bs.mem) || fresh(bs.mem)
      ensures Went(s)
      ensures s.Pass? ==> ok == (key in old(View()))
      ensures s.Pass? && !ok ==> nodes == old(nodes) && backup == old(backup) && free == old(free) && path == old(path)
      ensures s.Pass? && ok && old(StateImpl.EraseWorks(nodes, key)) ==> Valid() && View() == old(View()) - {key}
      ensures s.Pass? && ok && !old(StateImpl.EraseWorks(nodes, key)) ==> 0 in free
      ensures s.Pass? && old(StateImpl.EraseWorks(nodes, key)) ==>
                Bounded(|old(nodes)|, old(backup), |nodes|, backup)
      ensures old(Short(hasher, path, lim)) ==> !s.NoRoom? && (s.Pass? ==> Short(hasher, path, lim))
      ensures s.Pass? && old(StateImpl.EraseWorks(nodes, key)) ==>
                Shrinks(old(path), path) && |nodes| == |old(nodes)|
      ensures old(Short(hasher, path, lim)) ==> Spends(old(Used()), Used(), RemoveCost(lim), 0)
      ensures old(Short(hasher, path, lim)) && Roomy(old(Used()), RemoveCost(lim), 0) ==> s.Pass?
      ensures old(Short(hasher, path, lim)) && Countable(old(Used()), RemoveCost(lim), 0) ==> !s.LongId?
    {
      ok := false;
      var index :- GetSetNode(key);
      if index == -1 {
        BoundedStill(|nodes|, backup, |nodes|);
        ShrinksNot(path);
        return Pass, false;
      }
      ok := true;
      s := EraseFound(index);
    }

    /** The key of this node is removed, or the root marked free. */
    method EraseFound(index: nat) returns (s: Status)
      requires Loaded() && Valid() && index in path && nodes[index].value != []
      modifies `stored, `nodes, `storedBackup, `backup, `free, `path, bs, bs.mem
      ensures bs.mem == old(bs.mem) || fresh(bs.mem)
      ensures Went(s)
      ensures s.Pass? && old(StateImpl.EraseWorks(nodes, path[index])) ==>
                Valid() && View() == old(View()) - {old(path)[index]}
      ensures s.Pass? && !old(StateImpl.EraseWorks(nodes, path[index])) ==> 0 in free
      ensures s.Pass? && old(StateImpl.EraseWorks(nodes, path[index])) ==>
                Bounded(|old(nodes)|, old(backup), |nodes|, backup)
      ensures old(Short(hasher, path, lim)) ==> !s.NoRoom? && (s.Pass? ==> Short(hasher, path, lim))
      ensures s.Pass? && old(StateImpl.EraseWorks(nodes, path[index])) ==>
                Shrinks(old(path), path) && |nodes| == |old(nodes)|
      ensures old(Short(hasher, path, lim)) ==> Spends(old(Used()), Used(), RemoveCost(lim), 0)
    {
      EmptyPath(nodes, path, index);
      Protect(index);
      ghost var kept := backup;
      var kids := ListChildren(index);
      KidCount(nodes[index], kids);
      if index == 0 && |kids| <= 1 {
        s := EraseRoot(kids);
      } else {
        s := EraseAt(index, kids);
        if s.Pass? {
          BoundedThen(|old(nodes)|, old(backup), |old(nodes)|, kept, |nodes|, backup);
        }
      }
    }

    /** The node of a key that is set, -1 if it is not. */
    method GetSetNode(key: Bytes) returns (s: Status, index: int)
      requires Loaded() && Valid()
      ensures Went(s)
      ensures s.Pass? ==> -1 <= index && (index == -1 <==> key !in View())
      ensures s.Pass? && index >= 0 ==> index in path && path[index] == key && nodes[index].value != []
      ensures s in {Pass, LastWord}
    {
      index :- GetNodeIndex(key);
      if index == -1 {
        return Pass, -1;
      }
      ContentsAt(nodes, path, index);
      var value :- GetValue(index);
      s := Pass;
      if value == [] {
        index := -1;
      }
    }

    /** What happens to the node of an erased key depends on how many children it has. */
    method EraseAt(index: nat, kids: seq<Byte>) returns (s: Status)
      requires Loaded() && Valid() && index in path && Dirty(backup, permanent, index) && nodes[index].value != []
      requires if |kids| > 1 then TwoChildren(nodes[index])
               else index != 0 && if |kids| == 1 then OnlyChild(nodes[index], kids[0]) else !HasChildren(nodes[index])
      modifies `stored, `nodes, `storedBackup, `backup, `free, `path, bs, bs.mem
      ensures bs.mem == old(bs.mem) || fresh(bs.mem)
      ensures Went(s)
      ensures s.Pass? ==> Valid() && View() == old(View()) - {old(path)[index]}
      ensures s.Pass? ==> Bounded(|old(nodes)|, old(backup), |nodes|, backup)
      ensures old(Short(hasher, path, lim)) ==> !s.NoRoom? && (s.Pass? ==> Short(hasher, path, lim))
      ensures s.Pass? ==> Shrinks(old(path), path) && |nodes| == |old(nodes)|
      ensures old(Short(hasher, path, lim)) ==> Spends(old(Used()), Used(), RemoveCost(lim), 0)
    {
      var cur :- RemoveKey(index, kids);
      s := HashUp(cur);
    }

    method RemoveKey(index: nat, kids: seq<Byte>) returns (s: Status, cur: nat)
      requires Loaded() && Valid() && index in path && Dirty(backup, permanent, index) && nodes[index].value != []
      requires if |kids| > 1 then TwoChildren(nodes[index])
               else index != 0 && if |kids| == 1 then OnlyChild(nodes[index], kids[0]) else !HasChildren(nodes[index])
      modifies `stored, `nodes, `storedBackup, `backup, `free, `path, bs, bs.mem
      ensures bs.mem == old(bs.mem) || fresh(bs.mem)
      ensures Went(s)
      ensures s.Pass? ==> Sound() && cur in path && Dirty(backup, permanent, cur)
      ensures s.Pass? ==> Canonical(nodes, path) && HashedOff(hasher, nodes, path, path[cur])
      ensures s.Pass? ==> View() == old(View()) - {old(path)[index]}
      ensures s.Pass? ==> Bounded(|old(nodes)|, old(backup), |nodes|, backup)
      ensures old(Short(hasher, path, lim)) ==> !s.NoRoom? && (s.Pass? ==> Short(hasher, path, lim))
      ensures s.Pass? ==> Shrinks(old(path), path) && |nodes| == |old(nodes)|
      ensures old(Short(hasher, path, lim)) ==> Spends(old(Used()), Used(), EdgeCost(lim) + 2, 0)
    {
      if |kids| > 1 {
        cur := index;
        s := ClearValue(index);
        ShrinksNot(path);
        BoundedStill(|old(nodes)|, backup, |old(nodes)|);
      } else if |kids| == 1 {
        s, cur := MergeIntoChild(index, kids[0]);
      } else {
        s, cur := RemoveLeaf(index);
      }
    }

    method ClearValue(index: nat) returns (s: Status)
      requires Loaded() && Valid() && index in path && Dirty(backup, permanent, index) && TwoChildren(nodes[index])
      modifies `stored, `nodes, bs, bs.mem
      ensures bs.mem == old(bs.mem) || fresh(bs.mem)
      ensures Went(s)
      ensures s.Pass? ==> Sound() && Canonical(nodes, path) && HashedOff(hasher, nodes, path, path[index])
      ensures s.Pass? ==> View() == old(View()) - {path[index]}
      ensures s.Pass? ==> |nodes| == |old(nodes)|
      ensures Short(hasher, path, lim) ==> !s.NoRoom?
      ensures Spends(old(Used()), Used(), 1, 0)
    {
      s := Pass;
      SmallTexts();
      :- PutValue(index, []);
      SameFork(old(nodes)[index], nodes[index]);
      assert Needed(nodes[index]);
    }

    /** The code of erase for the root with at most one child. */
    method EraseRoot(kids: seq<Byte>) returns (s: Status)
      requires Loaded() && Sound() && Dirty(backup, permanent, 0) && |kids| <= 1
      requires forall b: Byte :: b in kids <==> nodes[0].children[b] != 0
      modifies `stored, `nodes, `storedBackup, `backup, `free, bs, bs.mem
      ensures bs.mem == old(bs.mem) || fresh(bs.mem)
      ensures Went(s) && (s.Pass? ==> 0 in free)
      ensures Short(hasher, path, lim) ==> !s.NoRoom?
      ensures Short(hasher, path, lim) ==> Spends(old(Used()), Used(), ClimbCost(lim, lim.key), 0)
    {
      ShapeIsChain(nodes, path);
      var cur := 0;
      if |kids| == 1 {
        assert kids[0] in kids && DownLink(nodes, path, 0, kids[0]);
        var slots := GetChildren(0);
        cur := slots[kids[0]];
        Protect(cur);
      }
      RootChild(nodes, path, backup, permanent, saved, cur);
      ShortClimb(hasher, path, lim, cur);
      SetChild(0, 0, cur);
      free := free + {0};
      s := CalculateHash(cur);
    }

    /** Node cur gives its edge to its only child and becomes free. */
    method MergeIntoChild(cur: nat, b: Byte) returns (s: Status, child: nat)
      requires Loaded() && Sound() && cur in path && cur != 0 && Dirty(backup, permanent, cur)
      requires OnlyChild(nodes[cur], b)
      requires CanonicalBut(nodes, path, cur) && HashedOff(hasher, nodes, path, path[cur])
      modifies `stored, `nodes, `storedBackup, `backup, `free, `path, bs, bs.mem
      ensures bs.mem == old(bs.mem) || fresh(bs.mem)
      ensures Went(s)
      ensures s.Pass? ==> Sound() && child in path && Dirty(backup, permanent, child)
      ensures s.Pass? ==> Canonical(nodes, path) && HashedOff(hasher, nodes, path, path[child])
      ensures s.Pass? ==> View() == old(View()) - {old(path)[cur]}
      ensures s.Pass? ==> Bounded(|old(nodes)|, old(backup), |nodes|, backup)
      ensures old(Short(hasher, path, lim)) ==> !s.NoRoom? && (s.Pass? ==> Short(hasher, path, lim))
      ensures s.Pass? ==> Shrinks(old(path), path) && |nodes| == |old(nodes)|
      ensures old(Short(hasher, path, lim)) ==> Spends(old(Used()), Used(), EdgeCost(lim) + 2, 0)
    {
      child := ReadyToMerge(cur, b);
      ShrinksTo(path, {cur});
      ShortSub(hasher, path, path - {cur}, lim);
      s := FinishMerge(cur, child, View() - {path[cur]});
    }

    method FinishMerge(cur: nat, child: nat, ghost m: map<Bytes, Bytes>) returns (s: Status)
      requires Loaded() && Mergeable(cur, child) && Dirty(backup, permanent, child)
      requires Merges(hasher, WithMerge(nodes, cur, child), path - {cur}, free + {cur}, backup, permanent, saved, child,
                      m)
      modifies `stored, `nodes, `free, `path, bs, bs.mem
      ensures bs.mem == old(bs.mem) || fresh(bs.mem)
      ensures Went(s)
      ensures s.Pass? ==> SoundState(nodes, path, free, backup, permanent, saved) && child in path && View() == m
      ensures s.Pass? ==> Canonical(nodes, path) && HashedOff(hasher, nodes, path, path[child])
      ensures s.Pass? ==> |nodes| == |old(nodes)|
      ensures |old(nodes)[cur].prefix| + |old(nodes)[child].prefix| <= MAX_BLOB ==> !s.NoRoom?
      ensures s.Pass? ==> path == old(path) - {cur}
      ensures |old(nodes)[cur].prefix| + |old(nodes)[child].prefix| <= lim.key ==>
                Spends(old(Used()), Used(), EdgeCost(lim) + 2, 0)
    {
      s := Pass;
      :- Bypass(cur, child);
      free := free + {cur};
      path := path - {cur};
      MergesFacts(hasher, nodes, path, free, backup, permanent, saved, child, m);
    }

    ghost predicate Mergeable(cur: nat, child: nat)
      reads this
    {
      && cur < |nodes| && child < |nodes| && nodes[cur].parent < |nodes| && nodes[cur].prefix != []
      && cur != child && cur != nodes[cur].parent && child != nodes[cur].parent
    }

    /** The only child of cur may be written; what merging with it will lead to. */
    method ReadyToMerge(cur: nat, b: Byte) returns (child: nat)
      requires Loaded() && Sound() && cur in path && cur != 0 && Dirty(backup, permanent, cur)
      requires OnlyChild(nodes[cur], b)
      requires CanonicalBut(nodes, path, cur) && HashedOff(hasher, nodes, path, path[cur])
      modifies `storedBackup, `backup
      ensures Loaded() && child == nodes[cur].children[b] && child in path && Dirty(backup, permanent, child)
      ensures Mergeable(cur, child)
      ensures Merges(hasher, WithMerge(nodes, cur, child), path - {cur}, free + {cur}, backup, permanent, saved, child,
                     View() - {path[cur]})
      ensures Bounded(|nodes|, old(backup), |nodes|, backup)
      ensures Short(hasher, path, lim) ==> |nodes[cur].prefix| + |nodes[child].prefix| <= lim.key <= MAX_BLOB
    {
      MergeEdge(hasher, nodes, path, cur, b);
      var slots := GetChildren(cur);
      child := slots[b];
      assert UpLink(nodes, path, child);
      ShortEdge(hasher, nodes, path, lim, child);
      Protect(child);
      MergeSound(nodes, path, free, backup, permanent, saved, cur, b);
      assert MergeFacts(hasher, WithMerge(nodes, cur, child), path - {cur}, free + {cur}, backup, permanent, saved,
                        child, View() - {path[cur]});
    }

    /** The child is linked to the parent of cur. */
    method Bypass(cur: nat, child: nat) returns (s: Status)
      requires Loaded() && Mergeable(cur, child)
      modifies `stored, `nodes, bs, bs.mem
      ensures bs.mem == old(bs.mem) || fresh(bs.mem)
      ensures Went(s) && (s.Pass? ==> nodes == WithMerge(old(nodes), cur, child))
      ensures |old(nodes)[cur].prefix| + |old(nodes)[child].prefix| <= MAX_BLOB ==> !s.NoRoom?
      ensures |old(nodes)[cur].prefix| + |old(nodes)[child].prefix| <= lim.key ==>
                Spends(old(Used()), Used(), EdgeCost(lim) + 2, 0)
    {
      var parent := GetParent(cur);
      var edge :- GetPrefix(child);
      var prefix :- GetPrefix(cur);
      if |prefix| + |edge| <= lim.key {
        TextCostGrows(|prefix| + |edge|, lim.key);
      }
      :- SetPrefix(child, prefix + edge);
      SetChild(parent, prefix[0], child);
      :- SetParent(child, parent);
      s := Pass;
    }

    /** A childless node leaves; its parent may have to follow. */
    method RemoveLeaf(leaf: nat) returns (s: Status, cur: nat)
      requires Loaded() && Valid() && leaf in path && leaf != 0 && Dirty(backup, permanent, leaf)
      requires !HasChildren(nodes[leaf])
      modifies `stored, `nodes, `storedBackup, `backup, `free, `path, bs, bs.mem
      ensures bs.mem == old(bs.mem) || fresh(bs.mem)
      ensures Went(s)
      ensures s.Pass? ==> Sound() && cur in path && Dirty(backup, permanent, cur)
      ensures s.Pass? ==> Canonical(nodes, path) && HashedOff(hasher, nodes, path, path[cur])
      ensures s.Pass? ==> View() == old(View()) - {old(path)[leaf]}
      ensures s.Pass? ==> Bounded(|old(nodes)|, old(backup), |nodes|, backup)
      ensures old(Short(hasher, path, lim)) ==> !s.NoRoom? && (s.Pass? ==> Short(hasher, path, lim))
      ensures s.Pass? ==> Shrinks(old(path), path) && |nodes| == |old(nodes)|
      ensures old(Short(hasher, path, lim)) ==> Spends(old(Used()), Used(), EdgeCost(lim) + 2, 0)
    {
      cur := 0;
      LeafBelow(nodes, path, leaf);
      assert UpLink(nodes, path, leaf);
      var parent :- Unhang(leaf, free);
      ghost var mid := path;
      s, cur := TidyParent(parent);
      if s.Pass? {
        ShrinksThen(old(path), mid, path);
      }
    }

    /** The subtrie at n, whose other slots are free already, is cut off from its parent. */
    method Unhang(n: nat, ghost free0: set<nat>) returns (s: Status, parent: nat)
      requires Loaded() && SoundState(nodes, path, free0, backup, permanent, saved)
      requires Committed(hasher, saved, savedPath)
      requires n in path && n != 0 && free + {n} == free0 + Below(path, path[n])
      requires UpLink(nodes, path, n) && Dirty(backup, permanent, nodes[n].parent)
      requires Canonical(nodes, path) && Hashed(hasher, nodes, path)
      modifies `stored, `nodes, `free, `path
      ensures Went(s)
      ensures s.Pass? ==> Sound() && parent in path && Dirty(backup, permanent, parent)
      ensures s.Pass? ==> CanonicalBut(nodes, path, parent) && HashedOff(hasher, nodes, path, path[parent])
      ensures s.Pass? ==> (parent != 0 && nodes[parent].value == [] ==> HasChildren(nodes[parent]))
      ensures s.Pass? ==> View() == Outside(old(View()), old(path)[n])
      ensures s.Pass? ==> |nodes| == |old(nodes)|
      ensures s in {Pass, LastWord}
      ensures s.Pass? && old(Short(hasher, path, lim)) ==> Short(hasher, path, lim)
      ensures s.Pass? ==> Shrinks(old(path), path)
      ensures |stored| == |old(stored)|
    {
      DropSubtrie(hasher, nodes, path, n);
      DropSound(nodes, path, free0, backup, permanent, saved, n);
      parent := GetParent(n);
      var prefix :- GetPrefix(n);
      StillForked(nodes, path, parent, prefix[0]);
      SetChild(parent, prefix[0], 0);
      free := free + {n};
      ShrinksTo(path, Below(path, path[n]));
      ShortSub(hasher, path, path - Below(path, path[n]), lim);
      path := path - Below(path, path[n]);
      s := Pass;
    }

    /** A parent left with one child, no value and an edge of its own is merged into that child. */
    method TidyParent(parent: nat) returns (s: Status, cur: nat)
      requires Loaded() && Sound() && parent in path && Dirty(backup, permanent, parent)
      requires CanonicalBut(nodes, path, parent) && HashedOff(hasher, nodes, path, path[parent])
      requires parent != 0 && nodes[parent].value == [] ==> HasChildren(nodes[parent])
      modifies `stored, `nodes, `storedBackup, `backup, `free, `path, bs, bs.mem
      ensures bs.mem == old(bs.mem) || fresh(bs.mem)
      ensures Went(s)
      ensures s.Pass? ==> Sound() && cur in path && Dirty(backup, permanent, cur)
      ensures s.Pass? ==> Canonical(nodes, path) && HashedOff(hasher, nodes, path, path[cur])
      ensures s.Pass? ==> View() == old(View())
      ensures s.Pass? ==> Bounded(|old(nodes)|, old(backup), |nodes|, backup)
      ensures old(Short(hasher, path, lim)) ==> !s.NoRoom? && (s.Pass? ==> Short(hasher, path, lim))
      ensures s.Pass? ==> Shrinks(old(path), path) && |nodes| == |old(nodes)|
      ensures old(Short(hasher, path, lim)) ==> Spends(old(Used()), Used(), EdgeCost(lim) + 2, 0)
    {
      cur := parent;
      var kids := ListChildren(parent);
      KidCount(nodes[parent], kids);
      var value :- GetValue(parent);
      if value == [] && |kids| == 1 && parent != 0 {
        ContentsAt(nodes, path, parent);
        s, cur := MergeIntoChild(parent, kids[0]);
      } else {
        assert parent != 0 ==> Needed(nodes[parent]);
        ShrinksNot(path);
        BoundedStill(|nodes|, backup, |nodes|);
        s := Pass;
      }
    }

    // -------------------------------------------------------- delete_node_tree

    /** Every slot at or below cur becomes free. */
    method SubtrieMarkFree(cur: nat, ghost bound: nat)
      requires Loaded() && Shape(nodes, path) && cur in path && forall n :: n in path ==> |path[n]| <= bound
      modifies `free
      ensures Loaded() && free == old(free) + Below(path, path[cur])
      decreases bound - |path[cur]|
    {
      free := free + {cur};
      var kids := GetChildren(cur);
      for i := 0 to 256
        invariant Loaded() && free == old(free) + {cur} + BelowKids(path, path[cur], i)
      {
        BelowKid(nodes, path, cur, i);
        if kids[i] != 0 {
          assert UpLink(nodes, path, nodes[cur].children[i]);
          SubtrieMarkFree(kids[i], bound);
        }
      }
      AllBelow(nodes, path, cur);
    }

    /** Removes a set key and every key that extends it.  On the empty key it marks the root free. */
    method DeleteNodeTree(key: Bytes) returns (s: Status, ok: bool)
      requires Loaded() && Valid()
      modifies `stored, `nodes, `storedBackup, `backup, `free, `path, bs, bs.mem
      ensures bs.mem == old(bs.mem) || fresh(bs.mem)
      ensures Went(s)
      ensures s.Pass? ==> ok == (key in old(View()))
      ensures s.Pass? && !ok ==> nodes == old(nodes) && backup == old(backup) && free == old(free) && path == old(path)
      ensures s.Pass? && ok && key != [] ==> Valid() && View() == Outside(old(View()), key)
      ensures s.Pass? && ok && key == [] ==> 0 in free
      ensures s.Pass? && key != [] ==> Bounded(|old(nodes)|, old(backup), |nodes|, backup)
      ensures old(Short(hasher, path, lim)) ==> !s.NoRoom? && (s.Pass? ==> Short(hasher, path, lim))
      ensures s.Pass? && (key != [] || !ok) ==> Shrinks(old(path), path) && |nodes| == |old(nodes)|
      ensures old(Short(hasher, path, lim)) ==> Spends(old(Used()), Used(), RemoveCost(lim), 0)
      ensures old(Short(hasher, path, lim)) && Roomy(old(Used()), RemoveCost(lim), 0) ==> s.Pass?
      ensures old(Short(hasher, path, lim)) && Countable(old(Used()), RemoveCost(lim), 0) ==> !s.LongId?
    {
      ok := false;
      var index :- GetSetNode(key);
      if index == -1 {
        BoundedStill(|nodes|, backup, |nodes|);
        ShrinksNot(path);
        return Pass, false;
      }
      ok := true;
      EmptyPath(nodes, path, index);
      if index == 0 {
        s := DeleteRoot();
      } else {
        s := DeleteAt(index);
      }
    }

    /** delete_node_tree on a node below the root. */
    method DeleteAt(index: nat) returns (s: Status)
      requires Loaded() && Valid() && index in path && index != 0
      modifies `stored, `nodes, `storedBackup, `backup, `free, `path, bs, bs.mem
      ensures bs.mem == old(bs.mem) || fresh(bs.mem)
      ensures Went(s) && (s.Pass? ==> Valid() && View() == Outside(old(View()), old(path)[index]))
      ensures s.Pass? ==> Bounded(|old(nodes)|, old(backup), |nodes|, backup)
      ensures old(Short(hasher, path, lim)) ==> !s.NoRoom? && (s.Pass? ==> Short(hasher, path, lim))
      ensures s.Pass? ==> Shrinks(old(path), path) && |nodes| == |old(nodes)|
      ensures old(Short(hasher, path, lim)) ==> Spends(old(Used()), Used(), RemoveCost(lim), 0)
    {
      assert UpLink(nodes, path, index);
      var up := GetParent(index);
      Protect(up);
      ghost var kept := backup;
      :- DropTree(index);
      BoundedThen(|old(nodes)|, old(backup), |old(nodes)|, kept, |nodes|, backup);
      s := Pass;
    }

    method DropTree(index: nat) returns (s: Status)
      requires Loaded() && Valid() && index in path && index != 0
      requires UpLink(nodes, path, index) && Dirty(backup, permanent, nodes[index].parent)
      modifies `stored, `nodes, `storedBackup, `backup, `free, `path, bs, bs.mem
      ensures bs.mem == old(bs.mem) || fresh(bs.mem)
      ensures Went(s) && (s.Pass? ==> Valid() && View() == Outside(old(View()), old(path)[index]))
      ensures s.Pass? ==> Bounded(|old(nodes)|, old(backup), |nodes|, backup)
      ensures old(Short(hasher, path, lim)) ==> !s.NoRoom? && (s.Pass? ==> Short(hasher, path, lim))
      ensures s.Pass? ==> Shrinks(old(path), path) && |nodes| == |old(nodes)|
      ensures old(Short(hasher, path, lim)) ==> Spends(old(Used()), Used(), RemoveCost(lim), 0)
    {
      var parent :- Detach(index);
      ghost var mid := path;
      var cur :- TidyParent(parent);
      ShrinksThen(old(path), mid, path);
      s := HashUp(cur);
    }

    /** The subtrie at index is marked free and cut off. */
    method Detach(index: nat) returns (s: Status, parent: nat)
      requires Loaded() && Valid() && index in path && index != 0
      requires UpLink(nodes, path, index) && Dirty(backup, permanent, nodes[index].parent)
      modifies `stored, `nodes, `free, `path
      ensures Went(s) && s in {Pass, LastWord}
      ensures s.Pass? ==> Sound() && parent in path && Dirty(backup, permanent, parent)
      ensures s.Pass? ==> CanonicalBut(nodes, path, parent) && HashedOff(hasher, nodes, path, path[parent])
      ensures s.Pass? ==> (parent != 0 && nodes[parent].value == [] ==> HasChildren(nodes[parent]))
      ensures s.Pass? ==> View() == Outside(old(View()), old(path)[index])
      ensures s.Pass? ==> Shrinks(old(path), path) && |nodes| == |old(nodes)|
      ensures s.Pass? && old(Short(hasher, path, lim)) ==> Short(hasher, path, lim)
      ensures |stored| == |old(stored)|
    {
      ghost var bound := LengthBound(path);
      ghost var free0 := free;
      SubtrieMarkFree(index, bound);
      s, parent := Unhang(index, free0);
    }

    /** The same code on the root. */
    method DeleteRoot() returns (s: Status)
      requires Loaded() && Valid()
      modifies `stored, `nodes, `storedBackup, `backup, `free, bs, bs.mem
      ensures bs.mem == old(bs.mem) || fresh(bs.mem)
      ensures Went(s) && (s.Pass? ==> 0 in free)
      ensures Short(hasher, path, lim) ==> !s.NoRoom?
      ensures Short(hasher, path, lim) ==> Spends(old(Used()), Used(), ClimbCost(lim, lim.key), 0)
    {
      var up := GetParent(0);
      Protect(up);
      ghost var bound := LengthBound(path);
      SubtrieMarkFree(0, bound);
      ShapeIsChain(nodes, path);
      RootChild(nodes, path, backup, permanent, saved, 0);
      SetChild(0, 0, 0);
      free := free + {0};
      s := CalculateHash(0);
    }

    // ---------------------------------------------------------- commit, discard

    /**
      Makes the current contents permanent and closes the gaps left by free slots.  The trie
      survives exactly when it is Compactable; otherwise some link is left dangling.
     */
    method CommitChanges() returns (s: Status)
      requires Loaded() && Valid()
      modifies this
      ensures Went(s)
      ensures s.Pass? ==> backup == map[] && free == {} && permanent == |nodes| == |old(nodes)| - |old(free)|
      ensures s.Pass? && old(Compactable(nodes, path, free)) ==>
                Valid() && View() == old(View()) && saved == nodes && savedPath == path
      ensures s.Pass? && !old(Compactable(nodes, path, free)) ==> Broken(nodes)
      ensures s in {Pass, LastWord}
      ensures s.Pass? && old(Compactable(nodes, path, free)) && old(Short(hasher, path, lim)) ==>
                Short(hasher, path, lim)
      ensures s.Pass? && old(Compactable(nodes, path, free)) ==> Closes(old(Now()), Now())
      ensures Roomy(old(Used()), 0, 0) ==> s.Pass?
    {
      MeansForget(stored, storedBackup, bs.blobs, nodes, backup);
      storedBackup, backup := map[], map[];
      ghost var good :- Defragment();
      permanent := Size();
      if good {
        saved, savedPath := nodes, path;
        ShortSame(hasher, old(nodes), old(path), nodes, path, lim);
        FreshCommit(hasher, nodes, path);
      }
      s := Pass;
    }

    /** Free slots are closed up; what that does to the trie depends on Compactable. */
    method Defragment() returns (s: Status, ghost good: bool)
      requires Loaded() && Shape(nodes, path) && Canonical(nodes, path) && Hashed(hasher, nodes, path)
      requires Partition(nodes, path, free)
      modifies `stored, `nodes, `free, `path
      ensures Went(s) && good == old(Compactable(nodes, path, free))
      ensures s.Pass? ==> free == {} && |nodes| == |old(nodes)| - |old(free)|
      ensures s.Pass? && good ==> Stands(hasher, nodes, path, old(View())) && AllLive(nodes, path)
      ensures s.Pass? && !good ==> Broken(nodes)
      ensures s in {Pass, LastWord}
      ensures s.Pass? && good ==> Closes(old(Now()), Now())
    {
      good := Compactable(nodes, path, free);
      if free != {} {
        var slots := SortedSlots(free);
        CursorsStart(nodes, path, free, slots);
        ghost var run :- CloseGaps(slots);
        path := Compacted(hasher, old(nodes), path, free, slots, run);
        free := {};
      }
      s := Pass;
    }

    /** Free slots are filled from the end and the vector is cut to the number of live slots. */
    method CloseGaps(slots: seq<nat>) returns (s: Status, ghost run: seq<Frame>)
      requires Loaded() && 0 < |slots| <= |nodes| && Cursors(slots, Start(nodes, slots))
      modifies `stored, `nodes
      ensures Went(s)
      ensures s.Pass? ==> |nodes| == |old(nodes)| - |slots| && FullRun(old(nodes), slots, run)
      ensures s.Pass? ==> nodes == Finish(slots, run[|run| - 1])
      ensures s in {Pass, LastWord}
    {
      var size := Size();
      var lo: nat, hi: nat, last: nat := 0, |slots| - 1, size - 1;
      run := [Frame(nodes, lo, hi, last)];
      while slots[lo] != slots[hi]
        invariant Loaded()
        invariant IsRun(slots, run) && run[0] == Start(old(nodes), slots)
                  && run[|run| - 1] == Frame(nodes, lo, hi, last)
        invariant last - (hi - lo) == |old(nodes)| - |slots|
        decreases hi - lo
      {
        ghost var f := run[|run| - 1];
        if last == slots[hi] {
          hi := hi - 1;
        } else {
          :- MoveNode(last, slots[lo]);
          lo := lo + 1;
        }
        last := last - 1;
        ghost var g := Frame(nodes, lo, hi, last);
        assert Steps(slots, f, g);
        ExtendRun(slots, run, g);
        run := run + [g];
      }
      CopyNode(last, slots[lo]);
      Cut(last);
      s := Pass;
    }

    method CopyNode(from: nat, to: nat)
      requires Loaded() && from < |nodes| && to < |nodes|
      modifies `stored, `nodes
      ensures Loaded() && nodes == old(nodes)[to := old(nodes)[from]]
    {
      MeansAt(stored, storedBackup, bs.blobs, nodes, backup, from);
      Replace(to, stored[from]);
    }

    /** The node from the end is copied to a free slot, and its parent's child slot is redirected. */
    method MoveNode(from: nat, to: nat) returns (s: Status)
      requires Loaded() && from < |nodes| && to < |nodes| && from != to
      modifies `stored, `nodes
      ensures Went(s) && (s.Pass? ==> nodes == Relocate(old(nodes), from, to))
      ensures s in {Pass, LastWord}
    {
      CopyNode(from, to);
      var parent := GetParent(from);
      var prefix :- GetPrefix(from);
      var size := Size();
      if parent < size && prefix != [] {
        SetChild(parent, prefix[0], to);
      }
      s := Pass;
    }

    method Cut(size: nat)
      requires Loaded() && size <= |nodes|
      modifies `stored, `nodes
      ensures Loaded() && nodes == old(nodes)[..size]
    {
      MeansAt(stored, storedBackup, bs.blobs, nodes, backup, 0);
      MeansCut(stored, storedBackup, bs.blobs, nodes, backup, size);
      stored, nodes := stored[..size], nodes[..size];
    }

    /**
      Back to the last commit.  Backups are kept, so after one discard they may name slots that
      the vector no longer has; writing those back is undefined, reported here by `ok`.
     */
    method DiscardChanges() returns (ok: bool)
      requires Loaded() && Valid()
      modifies `stored, `nodes, `free, `path
      ensures ok == old(InBounds(nodes, backup))
      ensures ok ==> Loaded() && Valid() && nodes == saved && path == savedPath && free == {}
    {
      ok := RestoreNodes();
      if ok {
        Undone(old(nodes), nodes, backup, permanent, saved);
        Cut(permanent);
        free := {};
        path := savedPath;
      }
    }

    /** The loop over the backup: old ids still mean what they meant. */
    method RestoreNodes() returns (ok: bool)
      requires Loaded()
      modifies `stored, `nodes
      ensures ok == old(InBounds(nodes, backup))
      ensures ok ==> Loaded() && PutBack(old(nodes), nodes, backup, {})
    {
      MeansAt(stored, storedBackup, bs.blobs, nodes, backup, 0);
      var keys := storedBackup.Keys;
      while keys != {}
        invariant Loaded() && keys <= storedBackup.Keys == backup.Keys && |nodes| == |stored|
        invariant PutBack(old(nodes), nodes, backup, keys)
        decreases keys
      {
        var k := Smallest(keys);
        if k >= |stored| {
          return false;
        }
        MeansRestore(stored, storedBackup, bs.blobs, nodes, backup, k);
        stored, nodes := stored[k := storedBackup[k]], nodes[k := backup[k]];
        keys := keys - {k};
      }
      ok := true;
    }
  }
}
