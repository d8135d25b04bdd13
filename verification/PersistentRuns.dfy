/** Whole runs of the persistent trie: the two-map specification again, and the answers of the trie in memory. */
module PersistentRuns {
  import opened Octets
  import opened TrieModel
  import opened TrieHash
  import opened TrieEdits
  import opened TrieCommit
  import opened TrieLayout
  import opened Trie
  import opened TrieRuns
  import opened TrieTwins
  import opened BlobStorage
  import opened PersistentNodes
  import opened PersistentTrie

  /** As in memory, except that setting an empty value does nothing. */
  ghost function Step(s: Spec, op: Op): Spec {
    if op.Put? && op.value == [] then s else Apply(s, op)
  }

  ghost function StepAll(ops: seq<Op>): Spec {
    if ops == [] then Spec(map[], map[]) else Step(StepAll(ops[..|ops| - 1]), ops[|ops| - 1])
  }

  ghost predicate Realizes(p: StatePersistent, s: Spec)
    reads p, p.bs, p.bs.mem
  {
    p.Loaded() && p.Valid() && p.View() == s.current && p.SavedView() == s.committed
  }

  /** Whether the code carries this operation out, or damages the trie instead. */
  ghost predicate Safe(p: StatePersistent, op: Op)
    reads p
    requires p.Valid()
  {
    match op
    case Put(_, _) => true
    case Remove(k) => k !in p.View() || StateImpl.EraseWorks(p.nodes, k)
    case DeleteTree(k) => k != [] || k !in p.View()
    case Commit => Compactable(p.nodes, p.path, p.free)
    case Discard => InBounds(p.nodes, p.backup)
  }

  /** The key is within the limits, and the value is no longer than what always fits the store. */
  predicate Slim(op: Op, lim: Limits) {
    match op
    case Put(k, v) => |k| <= lim.key && |v| <= MAX_BLOB
    case _ => true
  }

  /** How many words of the store an operation takes at most; it takes no more slots. */
  ghost function OpCost(op: Op, lim: Limits): nat {
    match op
    case Put(_, v) => SetCost(lim, |v|)
    case Remove(_) => RemoveCost(lim)
    case DeleteTree(_) => RemoveCost(lim)
    case Commit => 0
    case Discard => 0
  }

  ghost function Cost(ops: seq<Op>, lim: Limits): nat {
    if ops == [] then 0 else Cost(ops[..|ops| - 1], lim) + OpCost(ops[|ops| - 1], lim)
  }

  /** Nor is any key of the trie, now or at the last commit, nor any digest. */
  ghost predicate AllShort(p: StatePersistent)
    reads p
  {
    Short(p.hasher, p.path, p.lim) && Short(p.hasher, p.savedPath, p.lim)
  }

  /** Setting an empty value is the one operation that the tries understand differently. */
  predicate Plain(op: Op) {
    op.Put? ==> op.value != []
  }

  ghost function SnapStored(p: StatePersistent): Snapshot
    reads p
  {
    Snapshot(p.Now(), p.savedPath, p.permanent, p.backup)
  }

  /** The operation takes no more than its cost, and succeeds where there is as much. */
  ghost predicate Takes(p: StatePersistent, u: Use, st: Status, op: Op)
    reads p, p.bs
  {
    && (st.Pass? ==> Spends(u, p.Used(), OpCost(op, p.lim), OpCost(op, p.lim)))
    && (Roomy(u, OpCost(op, p.lim), OpCost(op, p.lim)) ==> st.Pass?)
    && (Countable(u, OpCost(op, p.lim), OpCost(op, p.lim)) ==> !st.LongId?)
  }

  method PerformPut(p: StatePersistent, op: Op, ghost s: Spec) returns (st: Status)
    requires Realizes(p, s) && op.Put?
    modifies p, p.bs, p.bs.mem
    ensures p.bs.mem == old(p.bs.mem) || fresh(p.bs.mem)
    ensures st.IsFailure() ==> p.Jammed(st)
    ensures st.Pass? ==> Realizes(p, Step(s, op)) && p.free <= old(p.free)
    ensures st.Pass? ==> Bounded(|old(p.nodes)|, old(p.backup), |p.nodes|, p.backup)
    ensures st.Pass? && Plain(op) ==> Moved(op, old(SnapStored(p)), SnapStored(p))
    ensures p.savedPath == old(p.savedPath)
    ensures old(Short(p.hasher, p.path, p.lim)) && Slim(op, p.lim) ==>
              !st.NoRoom? && (st.Pass? ==> Short(p.hasher, p.path, p.lim))
    ensures old(Short(p.hasher, p.path, p.lim)) && Slim(op, p.lim) ==> Takes(p, old(p.Used()), st, op)
  {
    st := p.Set(op.key, op.value);
  }

  method PerformRemoval(p: StatePersistent, op: Op, ghost s: Spec) returns (st: Status)
    requires Realizes(p, s) && (op.Remove? || op.DeleteTree?)
    modifies p, p.bs, p.bs.mem
    ensures p.bs.mem == old(p.bs.mem) || fresh(p.bs.mem)
    ensures st.IsFailure() ==> p.Jammed(st)
    ensures st.Pass? ==> if old(Safe(p, op)) then Realizes(p, Step(s, op)) else !p.Valid()
    ensures st.Pass? && old(Safe(p, op)) ==> Bounded(|old(p.nodes)|, old(p.backup), |p.nodes|, p.backup)
    ensures st.Pass? && old(Safe(p, op)) ==> Moved(op, old(SnapStored(p)), SnapStored(p))
    ensures p.savedPath == old(p.savedPath)
    ensures old(Short(p.hasher, p.path, p.lim)) ==> !st.NoRoom? && (st.Pass? ==> Short(p.hasher, p.path, p.lim))
    ensures old(Short(p.hasher, p.path, p.lim)) ==> Takes(p, old(p.Used()), st, op)
  {
    Untouched(SnapStored(p));
    var ok;
    if op.Remove? {
      NothingToRemove(s.current, op.key);
      st, ok := p.Erase(op.key);
    } else {
      st, ok := p.DeleteNodeTree(op.key);
    }
  }

  /** The operations on keys. */
  method PerformUpdate(p: StatePersistent, op: Op, ghost s: Spec) returns (st: Status)
    requires Realizes(p, s) && !op.Commit? && !op.Discard?
    modifies p, p.bs, p.bs.mem
    ensures p.bs.mem == old(p.bs.mem) || fresh(p.bs.mem)
    ensures st.IsFailure() ==> p.Jammed(st)
    ensures st.Pass? ==> if old(Safe(p, op)) then Realizes(p, Step(s, op)) else !p.Valid()
    ensures st.Pass? && op.Put? ==> p.free <= old(p.free)
    ensures st.Pass? && old(Safe(p, op)) ==> Bounded(|old(p.nodes)|, old(p.backup), |p.nodes|, p.backup)
    ensures st.Pass? && old(Safe(p, op)) && Plain(op) ==> Moved(op, old(SnapStored(p)), SnapStored(p))
    ensures p.savedPath == old(p.savedPath)
    ensures old(Short(p.hasher, p.path, p.lim)) && Slim(op, p.lim) ==>
              !st.NoRoom? && (st.Pass? ==> Short(p.hasher, p.path, p.lim))
    ensures old(Short(p.hasher, p.path, p.lim)) && Slim(op, p.lim) ==> Takes(p, old(p.Used()), st, op)
  {
    if op.Put? {
      st := PerformPut(p, op, s);
    } else {
      st := PerformRemoval(p, op, s);
    }
  }

  /** The operations that end a transaction. */
  method PerformEnd(p: StatePersistent, op: Op, ghost s: Spec) returns (st: Status)
    requires Realizes(p, s) && (op.Commit? || op.Discard?)
    modifies p
    ensures st.IsFailure() ==> p.Jammed(st) && st == LastWord
    ensures st.Pass? && old(Safe(p, op)) ==> Realizes(p, Step(s, op))
    ensures st.Pass? && !old(Safe(p, op)) ==> !p.Valid() || op.Discard?
    ensures st.Pass? && old(Safe(p, op)) ==> p.free == {}
    ensures st.Pass? && old(Safe(p, op)) && op.Commit? ==> InBounds(p.nodes, p.backup)
    ensures st.Pass? && old(Safe(p, op)) && old(AllShort(p)) ==> AllShort(p)
    ensures old(Safe(p, op)) ==> Takes(p, old(p.Used()), st, op)
    ensures st.Pass? && old(Safe(p, op)) ==> Moved(op, old(SnapStored(p)), SnapStored(p))
  {
    MeansAt(p.stored, p.storedBackup, p.bs.blobs, p.nodes, p.backup, 0);
    st := Pass;
    if op.Commit? {
      st := p.CommitChanges();
    } else {
      var ok := p.DiscardChanges();
    }
    if st.Pass? && old(Safe(p, op)) {
      MeansAt(p.stored, p.storedBackup, p.bs.blobs, p.nodes, p.backup, 0);
    }
  }

  /** One operation realizes its specification exactly when it is safe, unless the store jams. */
  method Perform(p: StatePersistent, op: Op, ghost s: Spec) returns (st: Status)
    requires Realizes(p, s)
    modifies p, p.bs, p.bs.mem
    ensures p.bs.mem == old(p.bs.mem) || fresh(p.bs.mem)
    ensures st.IsFailure() ==> p.Jammed(st)
    ensures st.Pass? && old(Safe(p, op)) ==> Realizes(p, Step(s, op))
    ensures st.Pass? && !old(Safe(p, op)) ==> !p.Valid() || op.Discard?
    ensures st.Pass? && old(Safe(p, op)) ==>
              forall h :: old(Steady(p, h)) && Fine(h, op) ==> Steady(p, Next(h, op))
    ensures old(AllShort(p)) && Slim(op, p.lim) ==> !st.NoRoom? && (st.Pass? && old(Safe(p, op)) ==> AllShort(p))
    ensures old(AllShort(p)) && Slim(op, p.lim) && old(Safe(p, op)) ==> Takes(p, old(p.Used()), st, op)
    ensures st.Pass? && old(Safe(p, op)) && Plain(op) ==> Moved(op, old(SnapStored(p)), SnapStored(p))
  {
    if op.Commit? || op.Discard? {
      st := PerformEnd(p, op, s);
    } else {
      st := PerformUpdate(p, op, s);
      if st.Pass? && old(Safe(p, op)) {
        assert BoundedFacts(|old(p.nodes)|, old(p.backup), |p.nodes|, p.backup);
      }
    }
  }

  /** What a smooth run keeps. */
  ghost predicate Steady(p: StatePersistent, h: History)
    reads p
  {
    (!h.removed ==> p.free == {}) && (!h.discarded ==> InBounds(p.nodes, p.backup))
  }

  lemma FineIsSafe(p: StatePersistent, h: History, op: Op)
    requires p.Valid() && Steady(p, h) && Fine(h, op)
    ensures Safe(p, op)
  {
  }

  /** A caller can tell beforehand, from the fields of the class, whether an operation is safe. */
  method IsSafe(p: StatePersistent, op: Op) returns (st: Status, safe: bool)
    requires p.Loaded() && p.Valid()
    ensures p.Went(st) && (st.Pass? ==> safe == Safe(p, op))
    ensures st in {Pass, LastWord} && (Roomy(p.Used(), 0, 0) ==> st.Pass?)
  {
    st, safe := Pass, true;
    match op
    case Put(_, _) =>
    case Remove(k) =>
      var index :- p.GetSetNode(k);
      var kids := p.ListChildren(0);
      KidCount(p.nodes[0], kids);
      safe := index == -1 || k != [] || |kids| > 1;
      if index >= 0 {
        EmptyPath(p.nodes, p.path, index);
      }
    case DeleteTree(k) =>
      var index :- p.GetSetNode(k);
      safe := k != [] || index == -1;
    case Commit =>
      safe := IsCompactable(p);
    case Discard =>
      MeansAt(p.stored, p.storedBackup, p.bs.blobs, p.nodes, p.backup, 0);
      safe := forall k :: k in p.storedBackup ==> k < |p.stored|;
  }

  method IsCompactable(p: StatePersistent) returns (safe: bool)
    requires p.Loaded() && p.Valid()
    ensures safe == Compactable(p.nodes, p.path, p.free)
  {
    forall n | 0 <= n < |p.nodes| ensures |p.stored| == |p.nodes| && p.stored[n].children == p.nodes[n].children {
      MeansAt(p.stored, p.storedBackup, p.bs.blobs, p.nodes, p.backup, n);
    }
    safe := p.free == {} || (|p.stored| - |p.free| in p.free &&
      forall n :: |p.stored| - |p.free| <= n < |p.stored| && n !in p.free ==>
        forall b: Byte :: p.stored[n].children[b] == 0);
  }

  lemma OneStepMore(ops: seq<Op>, i: nat)
    requires i < |ops|
    ensures StepAll(ops[..i + 1]) == Step(StepAll(ops[..i]), ops[i])
  {
    assert ops[..i + 1][..i] == ops[..i];
  }

  /** Where a run stands after its first `done` operations. */
  ghost predicate Reached(p: StatePersistent, ops: seq<Op>, done: nat)
    reads p, p.bs, p.bs.mem
  {
    && done <= |ops| && Realizes(p, StepAll(ops[..done]))
    && (Smooth(ops) ==> Steady(p, Past(ops[..done])))
    && (AllSlim(p.hasher, ops, p.lim) ==> AllShort(p) && Thrifty(p.Used(), Cost(ops[..done], p.lim)))
  }

  /** Keys and digests are within the limits, and no text is longer than what always fits the store. */
  ghost predicate AllSlim(hasher: Hasher, ops: seq<Op>, lim: Limits) {
    && lim.key <= MAX_BLOB && lim.digest <= MAX_BLOB
    && (forall i {:trigger ops[i]} :: 0 <= i < |ops| ==> Slim(ops[i], lim))
    && (forall x: Bytes {:trigger hasher(x)} :: |hasher(x)| <= lim.digest)
  }

  /** A new store and trie, and no more than so many words and slots besides. */
  ghost predicate Thrifty(u: Use, cost: nat) {
    u.next <= 2 + cost && u.slots <= 1 + cost && FIRST_CAPACITY <= u.capacity
  }

  /** The whole run fits a new store: a condition on the operations alone. */
  ghost predicate Affordable(hasher: Hasher, ops: seq<Op>, lim: Limits) {
    AllSlim(hasher, ops, lim) && Cost(ops, lim) < FIRST_CAPACITY - 2
  }

  /** Ids of 32 bits are enough for the run. */
  ghost predicate Modest(hasher: Hasher, ops: seq<Op>, lim: Limits) {
    AllSlim(hasher, ops, lim) && Cost(ops, lim) <= TWO_32 - 2
  }

  lemma CostStep(ops: seq<Op>, i: nat, lim: Limits)
    requires i < |ops|
    ensures Cost(ops[..i + 1], lim) == Cost(ops[..i], lim) + OpCost(ops[i], lim) <= Cost(ops, lim)
  {
    assert ops[..i + 1][..i] == ops[..i];
    CostGrows(ops, i + 1, lim);
  }

  lemma {:induction false} CostGrows(ops: seq<Op>, i: nat, lim: Limits)
    requires i <= |ops|
    ensures Cost(ops[..i], lim) <= Cost(ops, lim)
    decreases |ops| - i
  {
    if i < |ops| {
      CostGrows(ops, i + 1, lim);
      assert ops[..i + 1][..i] == ops[..i];
    } else {
      assert ops[..i] == ops;
    }
  }

  /** With keys, values and digests of up to 32 bytes, a run of 400,000 operations fits. */
  lemma FourHundredThousand(hasher: Hasher, ops: seq<Op>, lim: Limits)
    requires AllSlim(hasher, ops, lim) && lim.key <= 32 && lim.digest <= 32 && |ops| <= 400_000
    requires forall i {:trigger ops[i]} :: 0 <= i < |ops| && ops[i].Put? ==> |ops[i].value| <= 32
    ensures Affordable(hasher, ops, lim)
  {
    SmallRun(ops, lim);
  }

  lemma {:induction false} SmallRun(ops: seq<Op>, lim: Limits)
    requires lim.key <= 32 && lim.digest <= 32
    requires forall i {:trigger ops[i]} :: 0 <= i < |ops| && ops[i].Put? ==> |ops[i].value| <= 32
    ensures Cost(ops, lim) <= 641 * |ops|
  {
    if ops != [] {
      SmallRun(ops[..|ops| - 1], lim);
      SmallCost(ops[|ops| - 1], lim);
    }
  }

  lemma SmallCost(op: Op, lim: Limits)
    requires lim.key <= 32 && lim.digest <= 32 && (op.Put? ==> |op.value| <= 32)
    ensures OpCost(op, lim) <= 641
  {
    TextCostGrows(lim.key, 32);
    TextCostGrows(lim.digest, 32);
    if op.Put? {
      TextCostGrows(|op.value|, 32);
    }
    TextCostIs(32);
    ClimbGrows(lim, lim.key, 32);
    ClimbIs(lim, 32);
  }

  /** One operation of a run that is safe. */
  method PerformSafe(p: StatePersistent, ops: seq<Op>, done: nat) returns (st: Status)
    requires done < |ops| && Reached(p, ops, done) && Safe(p, ops[done])
    modifies p, p.bs, p.bs.mem
    ensures p.bs.mem == old(p.bs.mem) || fresh(p.bs.mem)
    ensures st.IsFailure() ==> p.Jammed(st)
    ensures st.Pass? ==> Reached(p, ops, done + 1)
    ensures AllSlim(p.hasher, ops, p.lim) ==> !st.NoRoom?
    ensures (Affordable(p.hasher, ops, p.lim) ==> st.Pass?) && (Modest(p.hasher, ops, p.lim) ==> !st.LongId?)
    ensures st.Pass? && Plain(ops[done]) ==> Moved(ops[done], old(SnapStored(p)), SnapStored(p))
  {
    OneStepMore(ops, done);
    OneMore(ops, done);
    ghost var u, slim := p.Used(), AllSlim(p.hasher, ops, p.lim);
    if slim {
      NextFits(u, ops, done, p.lim);
    }
    st := Perform(p, ops[done], StepAll(ops[..done]));
    if slim && st.Pass? {
      StillThrifty(u, p.Used(), ops, done, p.lim);
    }
  }

  /** There is room for the next operation, if there is for all. */
  lemma NextFits(u: Use, ops: seq<Op>, done: nat, lim: Limits)
    requires done < |ops| && Thrifty(u, Cost(ops[..done], lim))
    ensures var c := OpCost(ops[done], lim);
            && (Cost(ops, lim) < FIRST_CAPACITY - 2 ==> Roomy(u, c, c))
            && (Cost(ops, lim) <= TWO_32 - 2 ==> Countable(u, c, c))
  {
    CostStep(ops, done, lim);
  }

  lemma StillThrifty(u: Use, u': Use, ops: seq<Op>, done: nat, lim: Limits)
    requires done < |ops| && Thrifty(u, Cost(ops[..done], lim))
    requires Spends(u, u', OpCost(ops[done], lim), OpCost(ops[done], lim))
    ensures Thrifty(u', Cost(ops[..done + 1], lim))
  {
    CostStep(ops, done, lim);
  }

  /** One operation of a run, if it is safe. */
  method PerformNext(p: StatePersistent, ops: seq<Op>, done: nat) returns (st: Status, safe: bool)
    requires done < |ops| && Reached(p, ops, done)
    modifies p, p.bs, p.bs.mem
    ensures p.bs.mem == old(p.bs.mem) || fresh(p.bs.mem)
    ensures st.IsFailure() ==> p.Jammed(st)
    ensures st.Pass? && safe ==> Reached(p, ops, done + 1)
    ensures st.Pass? && !safe ==> Reached(p, ops, done) && !Safe(p, ops[done]) && !Smooth(ops)
    ensures AllSlim(p.hasher, ops, p.lim) ==> !st.NoRoom?
    ensures (Affordable(p.hasher, ops, p.lim) ==> st.Pass?) && (Modest(p.hasher, ops, p.lim) ==> !st.LongId?)
    ensures st.Pass? ==> safe == old(Safe(p, ops[done]))
    ensures st.Pass? && safe && Plain(ops[done]) ==> Moved(ops[done], old(SnapStored(p)), SnapStored(p))
    ensures st.Pass? && !safe ==> SnapStored(p) == old(SnapStored(p))
  {
    CostStep(ops, done, p.lim);
    if Smooth(ops) {
      FineIsSafe(p, Past(ops[..done]), ops[done]);
    }
    safe :- IsSafe(p, ops[done]);
    st := Pass;
    if safe {
      st := PerformSafe(p, ops, done);
    }
  }

  method NewTrie(hasher: Hasher, ghost ops: seq<Op>, ghost lim: Limits) returns (p: StatePersistent)
    ensures fresh(p) && fresh(p.bs) && fresh(p.bs.mem) && p.hasher == hasher && p.lim == lim && Reached(p, ops, 0)
    ensures SnapStored(p) == Snapshot(Layout(map[0 := []], {}, 1), map[0 := []], 1, map[])
  {
    var bs := new Blobstore();
    p := new StatePersistent(hasher, bs, lim);
    if AllSlim(hasher, ops, lim) {
      assert ShortFacts(hasher, p.path, lim);
    }
  }

  lemma StillRoomy(p: StatePersistent, ops: seq<Op>, done: nat)
    requires Reached(p, ops, done)
    ensures Affordable(p.hasher, ops, p.lim) ==> Roomy(p.Used(), 0, 0)
  {
    CostGrows(ops, done, p.lim);
  }

  /**
    Every run on a new store realizes the two-map specification for as long as its operations are
    safe and the store does not jam.  The operations of a smooth run are all safe.
   */
  method RunStored(hasher: Hasher, ops: seq<Op>, ghost lim: Limits) returns (p: StatePersistent, done: nat, st: Status)
    ensures fresh(p) && p.hasher == hasher && p.lim == lim && done <= |ops|
    ensures st.IsFailure() ==> p.Jammed(st)
    ensures st.Pass? ==> Realizes(p, StepAll(ops[..done]))
    ensures st.Pass? && done < |ops| ==> !Safe(p, ops[done]) && !Smooth(ops)
    ensures AllSlim(hasher, ops, lim) ==> !st.NoRoom?
    ensures Affordable(hasher, ops, lim) ==> st.Pass? && Roomy(p.Used(), 0, 0)
    ensures Modest(hasher, ops, lim) ==> !st.LongId?
  {
    p := NewTrie(hasher, ops, lim);
    done, st := 0, Pass;
    var safe := true;
    while done < |ops| && safe
      invariant fresh(p) && fresh(p.bs) && fresh(p.bs.mem) && p.hasher == hasher && p.lim == lim
      invariant Reached(p, ops, done) && st.Pass?
      invariant !safe ==> done < |ops| && !Safe(p, ops[done]) && !Smooth(ops)
      decreases |ops| - done, safe
    {
      st, safe := PerformNext(p, ops, done);
      if st.IsFailure() {
        return;
      }
      if safe {
        done := done + 1;
      }
    }
    StillRoomy(p, ops, done);
  }

  method AskStored(p: StatePersistent, key: Bytes) returns (st: Status, v: Bytes, h: Bytes)
    requires p.Loaded() && p.Valid()
    ensures p.Went(st) && st in {Pass, LastWord} && (Roomy(p.Used(), 0, 0) ==> st.Pass?)
    ensures st.Pass? ==> v == Lookup(p.View(), key) && h == HashIn(p.hasher, p.View(), key)
  {
    v, h := [], [];
    v :- p.Get(key);
    st, h := p.GetNodeHash(key);
  }

  /** What get and get_node_hash answer after as much of a run as is safe. */
  method AnswersStored(hasher: Hasher, ops: seq<Op>, key: Bytes, ghost lim: Limits)
    returns (st: Status, p: StatePersistent, done: nat, v: Bytes, h: Bytes)
    ensures fresh(p) && done <= |ops| && (st.IsFailure() ==> p.Jammed(st))
    ensures st.Pass? ==> v == Lookup(StepAll(ops[..done]).current, key)
    ensures st.Pass? ==> h == HashIn(hasher, StepAll(ops[..done]).current, key)
    ensures st.Pass? && done < |ops| ==> p.Valid() && !Safe(p, ops[done]) && !Smooth(ops)
    ensures (AllSlim(hasher, ops, lim) ==> !st.NoRoom?) && (Affordable(hasher, ops, lim) ==> st.Pass?)
    ensures Modest(hasher, ops, lim) ==> !st.LongId?
  {
    v, h := [], [];
    p, done, st := RunStored(hasher, ops, lim);
    if st.Pass? {
      st, v, h := AskStored(p, key);
    }
  }

  // ------------------------------------------------- beside the trie in memory

  ghost predicate AllPlain(ops: seq<Op>) {
    forall i :: 0 <= i < |ops| ==> Plain(ops[i])
  }

  lemma {:induction false} SameSpec(ops: seq<Op>)
    requires AllPlain(ops)
    ensures StepAll(ops) == ApplyAll(ops)
  {
    if ops != [] {
      assert AllPlain(ops[..|ops| - 1]);
      SameSpec(ops[..|ops| - 1]);
    }
  }

  /** Both tries are sound, with the same contents in the same slots. */
  ghost predicate Paired(t: StateImpl, p: StatePersistent)
    reads t, p
  {
    t.Valid() && p.Valid() && t.View() == p.View() && Twins(Snap(t), SnapStored(p))
  }

  /** Then the same operations damage them. */
  lemma SameDamage(t: StateImpl, p: StatePersistent, op: Op)
    requires Paired(t, p) && Plain(op)
    ensures Sane(t, op) == Safe(p, op)
  {
    match op
    case Put(_, _) =>
    case Remove(k) => SameEraseWorks(t.nodes, p.nodes, t.path, k);
    case DeleteTree(_) =>
    case Commit => SameCompactable(t.nodes, p.nodes, t.path, t.free);
    case Discard => SameInBounds(t.nodes, p.nodes, Snap(t), SnapStored(p));
  }

  /** And an operation that damages neither leaves them paired. */
  lemma StillPaired(t: StateImpl, p: StatePersistent, op: Op, a: Snapshot, b: Snapshot)
    requires Twins(a, b) && Orderly(a) && Moved(op, a, Snap(t)) && Moved(op, b, SnapStored(p))
    requires t.Valid() && p.Valid() && t.View() == p.View()
    ensures Paired(t, p)
  {
    OrderlyState(t.nodes, Snap(t));
    OrderlyState(p.nodes, SnapStored(p));
    SameKeys(t.nodes, t.path, p.nodes, p.path);
    TwinsStay(op, a, b, Snap(t), SnapStored(p));
  }

  ghost predicate AbreastFacts(t: StateImpl, p: StatePersistent, ops: seq<Op>, done: nat)
    reads t, p, p.bs, p.bs.mem
  {
    AllPlain(ops) && Standing(t, ops, done) && Reached(p, ops, done) && Twins(Snap(t), SnapStored(p))
  }

  /** Where a run stands in both tries after its first `done` operations; proofs look inside on demand. */
  ghost predicate Abreast(t: StateImpl, p: StatePersistent, ops: seq<Op>, done: nat)
    reads t, p, p.bs, p.bs.mem
  {
    forall u: nat {:trigger AbreastFacts(t, p, ops, u)} :: u == done ==> AbreastFacts(t, p, ops, u)
  }

  /** The operation would damage both. */
  ghost predicate Stuck(t: StateImpl, p: StatePersistent, op: Op)
    reads t, p
  {
    t.Valid() && p.Valid() && !Sane(t, op) && !Safe(p, op)
  }

  ghost predicate HalfwayFacts(t: StateImpl, p: StatePersistent, ops: seq<Op>, done: nat, b: Snapshot)
    reads t, p, p.bs, p.bs.mem
  {
    && done < |ops| && AllPlain(ops) && Standing(t, ops, done) && Sane(t, ops[done]) && Reached(p, ops, done + 1)
    && Twins(Snap(t), b) && Moved(ops[done], b, SnapStored(p))
  }

  /** The persistent trie is one operation ahead. */
  ghost predicate Halfway(t: StateImpl, p: StatePersistent, ops: seq<Op>, done: nat, b: Snapshot)
    reads t, p, p.bs, p.bs.mem
  {
    forall u: nat {:trigger HalfwayFacts(t, p, ops, u, b)} :: u == done ==> HalfwayFacts(t, p, ops, u, b)
  }

  lemma NowAbreast(t: StateImpl, p: StatePersistent, ops: seq<Op>, done: nat)
    requires Abreast(t, p, ops, done)
    ensures Standing(t, ops, done) && Reached(p, ops, done) && Paired(t, p) && AllPlain(ops)
  {
    assert AbreastFacts(t, p, ops, done);
    SpecsAgree(ops, done);
  }

  lemma StillAbreast(t: StateImpl, p: StatePersistent, ops: seq<Op>, done: nat, a: Snapshot, b: Snapshot)
    requires done < |ops| && AllPlain(ops) && Standing(t, ops, done + 1) && Reached(p, ops, done + 1)
    requires Twins(a, b) && Orderly(a) && Moved(ops[done], a, Snap(t)) && Moved(ops[done], b, SnapStored(p))
    ensures Abreast(t, p, ops, done + 1)
  {
    SpecsAgree(ops, done + 1);
    StillPaired(t, p, ops[done], a, b);
    assert AbreastFacts(t, p, ops, done + 1);
  }

  lemma SpecsAgree(ops: seq<Op>, done: nat)
    requires AllPlain(ops) && done <= |ops|
    ensures StepAll(ops[..done]) == ApplyAll(ops[..done])
  {
    SameSpec(ops[..done]);
  }

  method StepStored(t: StateImpl, p: StatePersistent, ops: seq<Op>, done: nat) returns (st: Status, safe: bool)
    requires done < |ops| && Abreast(t, p, ops, done)
    modifies p, p.bs, p.bs.mem
    ensures p.bs.mem == old(p.bs.mem) || fresh(p.bs.mem)
    ensures st.IsFailure() ==> p.Jammed(st)
    ensures st.Pass? && safe ==> Halfway(t, p, ops, done, old(SnapStored(p)))
    ensures st.Pass? && !safe ==> Abreast(t, p, ops, done) && Stuck(t, p, ops[done]) && !Smooth(ops)
    ensures (AllSlim(p.hasher, ops, p.lim) ==> !st.NoRoom?) && (Affordable(p.hasher, ops, p.lim) ==> st.Pass?)
    ensures Modest(p.hasher, ops, p.lim) ==> !st.LongId?
  {
    NowAbreast(t, p, ops, done);
    SameDamage(t, p, ops[done]);
    st, safe := PerformNext(p, ops, done);
    if st.Pass? {
      if safe {
        assert HalfwayFacts(t, p, ops, done, old(SnapStored(p)));
      } else {
        assert AbreastFacts(t, p, ops, done);
      }
    }
  }

  method StepMemory(t: StateImpl, ghost p: StatePersistent, ops: seq<Op>, done: nat, ghost b: Snapshot)
    requires done < |ops| && Halfway(t, p, ops, done, b)
    modifies t
    ensures Abreast(t, p, ops, done + 1)
  {
    assert HalfwayFacts(t, p, ops, done, b);
    ghost var a := Snap(t);
    OrderlyState(t.nodes, a);
    var sane := RunStep(t, ops, done);
    StillAbreast(t, p, ops, done, a, b);
  }

  /** One operation on both, if it damages neither; else it would damage both. */
  method StepBoth(t: StateImpl, p: StatePersistent, ops: seq<Op>, done: nat) returns (st: Status, safe: bool)
    requires done < |ops| && Abreast(t, p, ops, done)
    modifies t, p, p.bs, p.bs.mem
    ensures p.bs.mem == old(p.bs.mem) || fresh(p.bs.mem)
    ensures st.IsFailure() ==> p.Jammed(st)
    ensures st.Pass? && safe ==> Abreast(t, p, ops, done + 1)
    ensures st.Pass? && !safe ==> Abreast(t, p, ops, done) && Stuck(t, p, ops[done]) && !Smooth(ops)
    ensures (AllSlim(p.hasher, ops, p.lim) ==> !st.NoRoom?) && (Affordable(p.hasher, ops, p.lim) ==> st.Pass?)
    ensures Modest(p.hasher, ops, p.lim) ==> !st.LongId?
  {
    ghost var b := SnapStored(p);
    st, safe := StepStored(t, p, ops, done);
    if st.Pass? && safe {
      StepMemory(t, p, ops, done, b);
    }
  }

  method NewInMemory(hasher: Hasher, ghost ops: seq<Op>) returns (t: StateImpl)
    ensures fresh(t) && t.hasher == hasher && Standing(t, ops, 0)
    ensures Snap(t) == Snapshot(Layout(map[0 := []], {}, 1), map[0 := []], 1, map[])
  {
    t := new StateImpl(hasher);
  }

  method NewPair(hasher: Hasher, ghost ops: seq<Op>, ghost lim: Limits)
    returns (t: StateImpl, p: StatePersistent)
    requires AllPlain(ops)
    ensures fresh(t) && fresh(p) && fresh(p.bs) && fresh(p.bs.mem) && t.hasher == p.hasher == hasher && p.lim == lim
    ensures Abreast(t, p, ops, 0)
  {
    t := NewInMemory(hasher, ops);
    p := NewTrie(hasher, ops, lim);
    assert Peaks(Snap(t), SnapStored(p), 1);
    assert AbreastFacts(t, p, ops, 0);
  }

  /** A run on both tries stops in both at the same operation, unless the store jams. */
  method RunBoth(hasher: Hasher, ops: seq<Op>, ghost lim: Limits)
    returns (t: StateImpl, p: StatePersistent, done: nat, st: Status)
    requires AllPlain(ops)
    ensures fresh(t) && fresh(p) && t.hasher == p.hasher == hasher && p.lim == lim && done <= |ops|
    ensures st.IsFailure() ==> p.Jammed(st)
    ensures st.Pass? ==> Abreast(t, p, ops, done) && (done < |ops| ==> Stuck(t, p, ops[done]) && !Smooth(ops))
    ensures (AllSlim(hasher, ops, lim) ==> !st.NoRoom?) && (Affordable(hasher, ops, lim) ==> st.Pass?)
    ensures Modest(hasher, ops, lim) ==> !st.LongId?
  {
    t, p := NewPair(hasher, ops, lim);
    done, st := 0, Pass;
    var safe := true;
    while done < |ops| && safe
      invariant fresh(t) && fresh(p) && fresh(p.bs) && fresh(p.bs.mem) && t.hasher == p.hasher == hasher && p.lim == lim
      invariant Abreast(t, p, ops, done) && st.Pass? && done <= |ops|
      invariant !safe ==> done < |ops| && Stuck(t, p, ops[done]) && !Smooth(ops)
      decreases |ops| - done, safe
    {
      st, safe := StepBoth(t, p, ops, done);
      if st.IsFailure() {
        return;
      }
      if safe {
        done := done + 1;
      }
    }
  }

  lemma SameViews(t: StateImpl, p: StatePersistent, ops: seq<Op>, done: nat)
    requires Abreast(t, p, ops, done)
    ensures t.Valid() && p.Loaded() && p.Valid() && done <= |ops|
    ensures t.View() == p.View() == ApplyAll(ops[..done]).current
    ensures Affordable(p.hasher, ops, p.lim) ==> Roomy(p.Used(), 0, 0)
  {
    NowAbreast(t, p, ops, done);
    StillRoomy(p, ops, done);
  }

  method AskMemory(t: StateImpl, key: Bytes) returns (v: Bytes, h: Bytes)
    requires t.Valid()
    ensures v == Lookup(t.View(), key) && h == HashIn(t.hasher, t.View(), key)
  {
    v := t.Get(key);
    h := t.GetNodeHash(key);
  }

  /**
    The persistent trie answers as the trie in memory does: after any run without empty values, both
    stop at the same operation, unless the store jams.  Neither stops in a smooth run.
   */
  method SameAnswers(hasher: Hasher, ops: seq<Op>, key: Bytes, ghost lim: Limits)
    returns (p: StatePersistent, t: StateImpl, done: nat, done': nat, st: Status, v: Bytes, v': Bytes, h: Bytes,
             h': Bytes)
    requires AllPlain(ops)
    ensures st.IsFailure() ==> p.Jammed(st)
    ensures st.Pass? ==> done == done' && v == v' && h == h'
    ensures st.Pass? && done < |ops| ==> p.Valid() && !Safe(p, ops[done]) && !Smooth(ops)
    ensures done' < |ops| ==> t.Valid() && !Sane(t, ops[done']) && !Smooth(ops)
    ensures done <= |ops| && done' <= |ops|
    ensures v' == Lookup(ApplyAll(ops[..done']).current, key)
    ensures h' == HashIn(hasher, ApplyAll(ops[..done']).current, key)
    ensures (AllSlim(hasher, ops, lim) ==> !st.NoRoom?) && (Affordable(hasher, ops, lim) ==> st.Pass?)
    ensures Modest(hasher, ops, lim) ==> !st.LongId?
  {
    v, h := [], [];
    t, p, done, st := RunBoth(hasher, ops, lim);
    done' := done;
    if st.Pass? {
      SameViews(t, p, ops, done);
      st, v, h := AskStored(p, key);
    } else {
      t, done' := Run(hasher, ops);
    }
    v', h' := AskMemory(t, key);
  }

  // ------------------------------------------------------------ where it breaks

  method FreshTrie(hasher: Hasher) returns (p: StatePersistent)
    ensures fresh(p) && fresh(p.bs) && fresh(p.bs.mem) && p.Loaded() && |p.nodes| == 1
    ensures p.bs.nextFree == 2 && p.bs.capacity == FIRST_CAPACITY
  {
    var bs := new Blobstore();
    p := new StatePersistent(hasher, bs, Limits(0, 0));
    MeansAt(p.stored, p.storedBackup, p.bs.blobs, p.nodes, p.backup, 0);
  }

  /** A blob of so many words is stored. */
  method Fill(p: StatePersistent, words: nat)
    requires p.Loaded() && words < FIRST_CAPACITY
    modifies p.bs, p.bs.mem
    ensures p.bs.mem == old(p.bs.mem) || fresh(p.bs.mem)
    ensures p.Loaded() && Behind(old(p.bs.nextFree), old(p.bs.capacity), 4 * words, p.bs.nextFree, p.bs.capacity)
  {
    var s, id := p.Append(seq(4 * words, _ => 0));
  }

  lemma WholeWords(n: nat)
    ensures Words(4 * n) == n
  {
  }

  /**
    With the first 2^28 - 1 words of a new store in use, an empty value goes to the last word, and
    the getter is refused.
   */
  method EmptyInLastWord(hasher: Hasher) returns (put: Status, got: Status)
    ensures put == Pass && got == LastWord
  {
    var p := FreshTrie(hasher);
    WholeWords(FIRST_CAPACITY - 4);
    Fill(p, FIRST_CAPACITY - 4);
    put := p.SetValue(0, []);
    var text;
    got, text := p.GetValue(0);
  }

  /** A trie of two nodes on a store of which exactly 2^32 words are in use. */
  method FullStore(hasher: Hasher) returns (p: StatePersistent)
    ensures fresh(p) && fresh(p.bs) && fresh(p.bs.mem) && p.Loaded() && |p.nodes| == 2 && p.bs.nextFree == TWO_32
  {
    p := FreshTrie(hasher);
    p.Push();
    WholeWords(FIRST_CAPACITY - 3);
    Fill(p, FIRST_CAPACITY - 3);
    WholeWords(FIRST_CAPACITY - 1);
    for i := 1 to 16
      invariant fresh(p) && fresh(p.bs) && fresh(p.bs.mem) && p.Loaded() && |p.nodes| == 2
      invariant p.bs.nextFree == i * FIRST_CAPACITY
    {
      Fill(p, FIRST_CAPACITY - 1);
    }
  }

  /** There, a node set to have parent 1 reads parent 0: id 2^32 is kept as 0, and the word behind blob 0 is 0. */
  method ParentLost(hasher: Hasher) returns (put: Status, parent: Option<nat>)
    ensures put == LongId && parent == Some(0)
  {
    var p := FullStore(hasher);
    put := p.SetParent(0, 1);
    parent := p.bs.GetWord(p.stored[0].parent);
  }
}
