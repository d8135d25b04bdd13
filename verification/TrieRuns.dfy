/**
  Whole runs of the transactional trie, against a specification with two maps: what was last
  committed and what is current.
 */
module TrieRuns {
  import opened Octets
  import opened TrieModel
  import opened TrieHash
  import opened TrieEdits
  import opened TrieCommit
  import opened TrieLayout
  import opened Trie
  import opened DummyState

  /** An empty value in Put is a removal. */
  datatype Op = Put(key: Bytes, value: Bytes) | Remove(key: Bytes) | DeleteTree(key: Bytes) | Commit | Discard

  datatype Spec = Spec(committed: map<Bytes, Bytes>, current: map<Bytes, Bytes>)

  ghost function Apply(s: Spec, op: Op): Spec {
    match op
    case Put(k, v) => s.(current := Updated(s.current, k, v))
    case Remove(k) => s.(current := s.current - {k})
    case DeleteTree(k) => s.(current := if k in s.current then Outside(s.current, k) else s.current)
    case Commit => s.(committed := s.current)
    case Discard => s.(current := s.committed)
  }

  ghost function ApplyAll(ops: seq<Op>): Spec {
    if ops == [] then Spec(map[], map[])
    else Apply(ApplyAll(ops[..|ops| - 1]), ops[|ops| - 1])
  }

  /** The state and the trie mean the same. */
  ghost predicate Refines(t: StateImpl, s: Spec)
    reads t
  {
    t.Valid() && t.View() == s.current && t.SavedView() == s.committed
  }

  /** Whether the code carries this operation out, or damages the trie instead. */
  ghost predicate Sane(t: StateImpl, op: Op)
    reads t
    requires t.Valid()
  {
    match op
    case Put(k, v) => v != [] || k !in t.View() || StateImpl.EraseWorks(t.nodes, k)
    case Remove(k) => k !in t.View() || StateImpl.EraseWorks(t.nodes, k)
    case DeleteTree(k) => k != [] || k !in t.View()
    case Commit => Compactable(t.nodes, t.path, t.free)
    case Discard => InBounds(t.nodes, t.backup)
  }

  /** What of a trie decides where nodes go and which backups a discard finds. */
  datatype Snapshot = Snapshot(now: Layout, savedPath: Paths, permanent: nat, backup: Backups)

  ghost function Snap(t: StateImpl): Snapshot
    reads t
  {
    Snapshot(t.Now(), t.savedPath, t.permanent, t.backup)
  }

  /** Backups are added, and what was committed stays. */
  ghost predicate Pending(a: Snapshot, b: Snapshot) {
    && Bounded(a.now.size, a.backup, b.now.size, b.backup) && Topped(a.now.size, b.now.size, b.backup)
    && b.savedPath == a.savedPath && b.permanent == a.permanent
  }

  ghost predicate Thinned(a: Layout, b: Layout) {
    Shrinks(a.path, b.path) && b.size == a.size
  }

  /** What an operation that keeps the trie does to its layout. */
  ghost predicate Moved(op: Op, a: Snapshot, b: Snapshot) {
    match op
    case Put(k, v) => Pending(a, b) && if v == [] then Thinned(a.now, b.now) else Settles(a.now, k, b.now)
    case Remove(_) => Pending(a, b) && Thinned(a.now, b.now)
    case DeleteTree(_) => Pending(a, b) && Thinned(a.now, b.now)
    case Commit => Closes(a.now, b.now) && b == Snapshot(b.now, b.now.path, b.now.size, map[])
    case Discard => b == a.(now := Layout(a.savedPath, {}, a.permanent))
  }

  lemma Untouched(a: Snapshot)
    ensures Pending(a, a) && Thinned(a.now, a.now)
  {
    BoundedStill(a.now.size, a.backup, a.now.size);
    ShrinksNot(a.now.path);
  }

  lemma NothingToRemove(m: map<Bytes, Bytes>, k: Bytes)
    ensures k !in m ==> m - {k} == m
  {
  }

  /** The operations on keys. */
  method ExecuteUpdate(t: StateImpl, op: Op, ghost s: Spec)
    requires Refines(t, s) && !op.Commit? && !op.Discard?
    modifies t
    ensures if old(Sane(t, op)) then Refines(t, Apply(s, op)) else !t.Valid()
    ensures old(Sane(t, op)) && op.Put? && op.value != [] ==> t.free <= old(t.free)
    ensures old(InBounds(t.nodes, t.backup)) ==> InBounds(t.nodes, t.backup)
    ensures old(Sane(t, op)) ==> Moved(op, old(Snap(t)), Snap(t))
  {
    Untouched(Snap(t));
    match op
    case Put(k, v) =>
      NothingToRemove(s.current, k);
      var ok := t.Set(k, v);
    case Remove(k) =>
      NothingToRemove(s.current, k);
      var ok := t.Erase(k);
    case DeleteTree(k) =>
      var ok := t.DeleteNodeTree(k);
  }

  /** One operation refines its specification exactly when it is sane. */
  method Execute(t: StateImpl, op: Op, ghost s: Spec) returns (ghost sane: bool)
    requires Refines(t, s)
    modifies t
    ensures sane == old(Sane(t, op))
    ensures sane ==> Refines(t, Apply(s, op))
    ensures !sane ==> !t.Valid() || op.Discard?
    ensures sane && op.Commit? ==> t.free == {} && InBounds(t.nodes, t.backup)
    ensures sane && op.Discard? ==> t.free == {}
    ensures sane && op.Put? && op.value != [] ==> t.free <= old(t.free)
    ensures sane && !op.Discard? && old(InBounds(t.nodes, t.backup)) ==> InBounds(t.nodes, t.backup)
    ensures sane ==> Moved(op, old(Snap(t)), Snap(t))
  {
    sane := Sane(t, op);
    if op.Commit? {
      t.CommitChanges();
    } else if op.Discard? {
      var ok := t.DiscardChanges();
    } else {
      ExecuteUpdate(t, op, s);
    }
  }

  /** A caller can tell beforehand, from the fields of the class, whether an operation is sane. */
  method IsSane(t: StateImpl, op: Op) returns (sane: bool)
    requires t.Valid()
    ensures sane == Sane(t, op)
  {
    match op
    case Put(k, v) =>
      sane := v != [];
      if !sane {
        sane := CanErase(t, k);
      }
    case Remove(k) =>
      sane := CanErase(t, k);
    case DeleteTree(k) =>
      var value := t.Get(k);
      ContentsNotEmpty(t.nodes, t.path, k);
      sane := k != [] || value == [];
    case Commit =>
      sane := CanCompact(t.nodes, t.path, t.free);
    case Discard =>
      sane := forall k :: k in t.backup ==> k < |t.nodes|;
  }

  method CanErase(t: StateImpl, k: Bytes) returns (sane: bool)
    requires t.Valid()
    ensures sane == (k !in t.View() || StateImpl.EraseWorks(t.nodes, k))
  {
    var value := t.Get(k);
    ContentsNotEmpty(t.nodes, t.path, k);
    sane := value == [] || k != [] || t.nodes[0].value == [] || TwoChildren(t.nodes[0]);
  }

  method CanCompact(nodes: seq<Node>, ghost path: Paths, free: set<nat>) returns (sane: bool)
    requires Partition(nodes, path, free)
    ensures sane == Compactable(nodes, path, free)
  {
    sane := free == {} || (|nodes| - |free| in free &&
      forall n :: |nodes| - |free| <= n < |nodes| && n !in free ==> !HasChildren(nodes[n]));
  }

  lemma ContentsNotEmpty(nodes: seq<Node>, path: Paths, k: Bytes)
    requires forall n :: n in path ==> n < |nodes|
    ensures k in Contents(nodes, path) <==> Lookup(Contents(nodes, path), k) != []
  {
  }

  // ---------------------------------------------------------------- whole runs

  lemma OneMore(ops: seq<Op>, i: nat)
    requires i < |ops|
    ensures ApplyAll(ops[..i + 1]) == Apply(ApplyAll(ops[..i]), ops[i])
    ensures Past(ops[..i + 1]) == Next(Past(ops[..i]), ops[i])
  {
    assert ops[..i + 1][..i] == ops[..i];
  }

  /** One operation, if it is sane; after a history on track, a fine one is, and stays on track. */
  method ExecuteSane(t: StateImpl, op: Op, ghost s: Spec, ghost h: History) returns (sane: bool)
    requires Refines(t, s)
    modifies t
    ensures sane == old(Sane(t, op))
    ensures if sane then Refines(t, Apply(s, op)) else Refines(t, s) && !Sane(t, op)
    ensures old(OnTrack(t, h)) && Fine(h, op) ==> sane && OnTrack(t, Next(h, op))
    ensures sane ==> Moved(op, old(Snap(t)), Snap(t))
  {
    sane := IsSane(t, op);
    if sane {
      ghost var was := Execute(t, op, s);
    }
  }

  /** Where a run stands after its first `done` operations. */
  ghost predicate Standing(t: StateImpl, ops: seq<Op>, done: nat)
    reads t
  {
    done <= |ops| && Refines(t, ApplyAll(ops[..done])) && (Smooth(ops) ==> OnTrack(t, Past(ops[..done])))
  }

  method RunStep(t: StateImpl, ops: seq<Op>, done: nat) returns (sane: bool)
    requires Standing(t, ops, done) && done < |ops|
    modifies t
    ensures if sane then Standing(t, ops, done + 1) else Standing(t, ops, done) && !Sane(t, ops[done]) && !Smooth(ops)
    ensures sane == old(Sane(t, ops[done])) && (sane ==> Moved(ops[done], old(Snap(t)), Snap(t)))
  {
    OneMore(ops, done);
    sane := ExecuteSane(t, ops[done], ApplyAll(ops[..done]), Past(ops[..done]));
  }

  /**
    Every run refines the two-map specification for as long as its operations are sane; the first
    one that is not is where it stops.  A smooth run never stops.
   */
  method Run(hasher: Hasher, ops: seq<Op>) returns (t: StateImpl, done: nat)
    ensures fresh(t) && t.hasher == hasher && done <= |ops| && Refines(t, ApplyAll(ops[..done]))
    ensures done < |ops| ==> !Sane(t, ops[done])
    ensures Smooth(ops) ==> done == |ops|
  {
    t := new StateImpl(hasher);
    done := 0;
    var sane := true;
    while done < |ops| && sane
      invariant fresh(t) && t.hasher == hasher && Standing(t, ops, done)
      invariant !sane ==> done < |ops| && !Sane(t, ops[done]) && !Smooth(ops)
      decreases |ops| - done, sane
    {
      sane := RunStep(t, ops, done);
      if sane {
        done := done + 1;
      }
    }
  }

  /** What get answers after as much of a run as is sane. */
  method GetAfter(hasher: Hasher, ops: seq<Op>, key: Bytes) returns (t: StateImpl, done: nat, v: Bytes)
    ensures done <= |ops| && v == Lookup(ApplyAll(ops[..done]).current, key)
    ensures t.Valid() && (done < |ops| ==> !Sane(t, ops[done]))
    ensures Smooth(ops) ==> done == |ops|
  {
    t, done := Run(hasher, ops);
    v := t.Get(key);
  }

  /** The same run on the two-map reference, which has no delete_node_tree to compare with. */
  method DummyAfter(ops: seq<Op>, key: Bytes) returns (v: Bytes)
    requires forall i :: 0 <= i < |ops| ==> !ops[i].DeleteTree?
    ensures v == Lookup(ApplyAll(ops).current, key)
  {
    var d := new DummyState();
    for i := 0 to |ops|
      invariant d.Valid() && d.View() == ApplyAll(ops[..i]).current && d.data == ApplyAll(ops[..i]).committed
    {
      OneMore(ops, i);
      match ops[i]
      case Put(k, value) => d.Set(k, value);
      case Remove(k) => d.Set(k, []);
      case Commit => d.CommitChanges();
      case Discard => d.DiscardChanges();
    }
    assert ops[..|ops|] == ops;
    v := d.Get(key);
  }

  // -------------------------------------------- runs whose operations alone say they are sane

  /** What matters of a run so far: removals since the last commit or discard, a discard since the last commit. */
  datatype History = History(removed: bool, discarded: bool)

  ghost function Next(h: History, op: Op): History {
    match op
    case Put(_, v) => h.(removed := h.removed || v == [])
    case Remove(_) => h.(removed := true)
    case DeleteTree(_) => h.(removed := true)
    case Commit => History(false, false)
    case Discard => History(false, true)
  }

  /** No removal of the empty key, no commit with removals pending, no second discard before a commit. */
  ghost predicate Fine(h: History, op: Op) {
    match op
    case Put(k, v) => k != [] || v != []
    case Remove(k) => k != []
    case DeleteTree(k) => k != []
    case Commit => !h.removed
    case Discard => !h.discarded
  }

  ghost function Past(ops: seq<Op>): History {
    if ops == [] then History(false, false) else Next(Past(ops[..|ops| - 1]), ops[|ops| - 1])
  }

  ghost predicate Smooth(ops: seq<Op>) {
    forall i :: 0 <= i < |ops| ==> Fine(Past(ops[..i]), ops[i])
  }

  ghost predicate OnTrack(t: StateImpl, h: History)
    reads t
  {
    (!h.removed ==> t.free == {}) && (!h.discarded ==> InBounds(t.nodes, t.backup))
  }

  // ------------------------------------------------------- history independence

  /** Node hashes, the root's included, depend on the run only through the contents it leaves. */
  method HashAfter(hasher: Hasher, ops: seq<Op>, key: Bytes) returns (t: StateImpl, done: nat, h: Bytes)
    ensures done <= |ops| && h == HashIn(hasher, ApplyAll(ops[..done]).current, key)
    ensures t.Valid() && (done < |ops| ==> !Sane(t, ops[done]))
    ensures Smooth(ops) ==> done == |ops|
  {
    t, done := Run(hasher, ops);
    h := t.GetNodeHash(key);
  }

  /** After one Put, get_node_hash answers for the root the hash of the hash of value and key. */
  method HashOfOne(hasher: Hasher, k: Bytes, v: Bytes) returns (h: Bytes)
    requires k != [] && v != []
    ensures h == hasher(hasher(v + k))
  {
    var ops := [Put(k, v)];
    OnePut(k, v);
    OneKeyHash(hasher, k, v);
    var t, done;
    t, done, h := HashAfter(hasher, ops, []);
    assert ops[..1] == ops;
  }

  lemma OnePut(k: Bytes, v: Bytes)
    requires k != [] && v != []
    ensures Smooth([Put(k, v)]) && ApplyAll([Put(k, v)]).current == map[k := v]
  {
    var ops := [Put(k, v)];
    assert ops[..0] == [];
  }

  /** After two, of keys that part after c, in either order, that of their fork. */
  method HashOfTwo(hasher: Hasher, c: Bytes, a: Bytes, va: Bytes, b: Bytes, vb: Bytes, swapped: bool)
    returns (h: Bytes)
    requires c < a && c < b && a[|c|] < b[|c|] && va != [] && vb != []
    ensures var fork := hasher(c + hasher(va + a[|c|..]) + hasher(vb + b[|c|..]));
            h == if c == [] then fork else hasher(fork)
  {
    var ops := if swapped then [Put(b, vb), Put(a, va)] else [Put(a, va), Put(b, vb)];
    if swapped {
      TwoPuts(b, vb, a, va);
      assert map[b := vb, a := va] == map[a := va, b := vb];
    } else {
      TwoPuts(a, va, b, vb);
    }
    TwoKeysHash(hasher, c, a, va, b, vb);
    var t, done;
    t, done, h := HashAfter(hasher, ops, []);
    assert ops[..2] == ops;
  }

  lemma TwoPuts(a: Bytes, va: Bytes, b: Bytes, vb: Bytes)
    requires a != [] && b != [] && a != b && va != [] && vb != []
    ensures Smooth([Put(a, va), Put(b, vb)]) && ApplyAll([Put(a, va), Put(b, vb)]).current == map[a := va, b := vb]
  {
    var ops := [Put(a, va), Put(b, vb)];
    OnePut(a, va);
    assert ops[..0] == [] && ops[..1] == [Put(a, va)];
  }

  // ------------------------------------------------------------ where it breaks

  /**
    On a new trie, setting any non-empty key and discarding twice writes beyond the end of the
    vector: the first discard removes the new node but keeps its backup.
   */
  method DiscardTwice(hasher: Hasher, key: Bytes, value: Bytes) returns (first: bool, second: bool)
    requires key != [] && value != []
    ensures first && !second
  {
    var t := new StateImpl(hasher);
    var ok := t.Set(key, value);
    ghost var n: nat :| n in t.path && t.path[n] == key && n in t.backup;
    assert n != 0 && n >= |t.saved|;
    first := t.DiscardChanges();
    second := t.DiscardChanges();
  }

  /** Keys that start differently. */
  ghost predicate Apart(m: map<Bytes, Bytes>) {
    forall x, y :: x in m && y in m && x != [] && y != [] && x[0] == y[0] ==> x == y
  }

  /** Between keys that start differently, no node is live but the root and theirs. */
  lemma OnlyKeysLive(nodes: seq<Node>, path: Paths, n: nat)
    requires Shape(nodes, path) && Canonical(nodes, path) && n in path && n != 0 && Apart(Contents(nodes, path))
    ensures path[n] in Contents(nodes, path) && path[n] != []
  {
    EmptyPath(nodes, path, n);
    ContentsAt(nodes, path, n);
    if nodes[n].value == [] {
      var x, y := StoredOrFork(nodes, path, n);
    }
  }

  lemma LiveAt(nodes: seq<Node>, path: Paths, k: Bytes) returns (n: nat)
    requires Shape(nodes, path) && k in Contents(nodes, path)
    ensures n in path && path[n] == k
  {
    n := NodeAt(path, k);
  }

  /** Two such keys make up a vector of three, if no slot is free. */
  lemma ThreeSlots(nodes: seq<Node>, path: Paths, a: Bytes, b: Bytes, v: Bytes)
    requires Shape(nodes, path) && Canonical(nodes, path) && AllLive(nodes, path)
    requires a != [] && b != [] && a[0] != b[0] && v != [] && Contents(nodes, path) == map[a := v, b := v]
    ensures |nodes| == 3 && ((path[1] == a && path[2] == b) || (path[1] == b && path[2] == a))
  {
    var x := LiveAt(nodes, path, a);
    var y := LiveAt(nodes, path, b);
    assert x != 0 && y != 0;
    forall n | n in path && n != 0 ensures n == x || n == y {
      OnlyKeysLive(nodes, path, n);
      SamePath(nodes, path, n, if path[n] == a then x else y);
    }
    assert |nodes| <= 3 by {
      assert |nodes| > 1 ==> 1 in path;
      assert |nodes| > 2 ==> 2 in path;
      assert |nodes| > 3 ==> 3 in path;
    }
  }

  /**
    Two keys with different first bytes are set on a new trie, and the one in slot 1 is erased.  A
    commit then cuts off the other one.
   */
  method CommitBreaks(hasher: Hasher, a: Bytes, b: Bytes, v: Bytes) returns (t: StateImpl, erased: Bytes)
    requires a != [] && b != [] && a[0] != b[0] && v != []
    ensures erased in {a, b} && Broken(t.nodes)
  {
    t := TwoKeys(hasher, a, b, v);
    erased := FirstKey(t, a, b);
    ghost var path0, left := t.path, t.path[2];
    Without(a, b, v, erased, left);
    var ok := t.Erase(erased);
    assert t.View() == map[left := v];
    OneLeft(t.nodes, path0, t.path, t.free, erased, left, v);
    t.CommitChanges();
  }

  /** Which of two keys is in slot 1. */
  method FirstKey(t: StateImpl, a: Bytes, b: Bytes) returns (k: Bytes)
    requires t.Valid() && 1 in t.path && 2 in t.path && a != b
    requires (t.path[1] == a && t.path[2] == b) || (t.path[1] == b && t.path[2] == a)
    ensures k == t.path[1]
  {
    var index := t.GetNodeIndex(a);
    if t.path[1] == a {
      SamePath(t.nodes, t.path, 1, index);
    }
    k := if index == 1 then a else b;
  }

  lemma Without(a: Bytes, b: Bytes, v: Bytes, gone: Bytes, left: Bytes)
    requires a != b && ((gone == a && left == b) || (gone == b && left == a))
    ensures map[a := v, b := v] - {gone} == map[left := v]
  {
  }

  method TwoKeys(hasher: Hasher, a: Bytes, b: Bytes, v: Bytes) returns (t: StateImpl)
    requires a != [] && b != [] && a[0] != b[0] && v != []
    ensures fresh(t) && t.Valid() && t.View() == map[a := v, b := v] && |t.nodes| == 3 && 1 in t.path && 2 in t.path
    ensures (t.path[1] == a && t.path[2] == b) || (t.path[1] == b && t.path[2] == a)
  {
    t := new StateImpl(hasher);
    var ok := t.Set(a, v);
    ok := t.Set(b, v);
    NoGaps(t.nodes, t.path, t.free);
    ThreeSlots(t.nodes, t.path, a, b, v);
  }

  lemma NoGaps(nodes: seq<Node>, path: Paths, free: set<nat>)
    requires Partition(nodes, path, free) && free == {}
    ensures AllLive(nodes, path)
  {
  }

  lemma OneLeft(nodes: seq<Node>, path0: Paths, path: Paths, free: set<nat>, gone: Bytes, left: Bytes, v: Bytes)
    requires Shape(nodes, path) && Canonical(nodes, path) && Partition(nodes, path, free) && |nodes| == 3
    requires Shrinks(path0, path) && 1 in path0 && 2 in path0 && path0[1] == gone && path0[2] == left && gone != left
    requires v != [] && Contents(nodes, path) == map[left := v] && left != []
    ensures !Compactable(nodes, path, free)
  {
    assert ShrinksFacts(path0, path);
    if 1 in path {
      OnlyKeysLive(nodes, path, 1);
    }
    var n := LiveAt(nodes, path, left);
    assert free == {1};
  }

  /** With only the empty key set on a new trie, erase frees the root slot and leaves the value in place. */
  method EraseBreaks(hasher: Hasher, v: Bytes) returns (t: StateImpl, ok: bool, after: Bytes)
    requires v != []
    ensures ok && 0 in t.free && !t.Valid() && t.nodes != [] && after == t.nodes[0].value == v
  {
    t := new StateImpl(hasher);
    ok := t.Set([], v);
    RootAlone(t.nodes, t.path, v);
    ok := t.Erase([]);
    after := t.nodes[0].value;
  }

  lemma RootAlone(nodes: seq<Node>, path: Paths, v: Bytes)
    requires Shape(nodes, path) && Canonical(nodes, path) && Contents(nodes, path) == map[[] := v] && v != []
    ensures nodes[0].value == v && !StateImpl.EraseWorks(nodes, [])
  {
    ContentsAt(nodes, path, 0);
    if TwoChildren(nodes[0]) {
      var b: Byte :| nodes[0].children[b] != 0;
      var k := KeyThrough(nodes, path, 0, b);
    }
  }

  /** delete_node_tree frees the root slot whenever the empty key is set, here with any other key beside it. */
  method DeleteTreeBreaks(hasher: Hasher, key: Bytes, v: Bytes) returns (t: StateImpl, ok: bool)
    requires v != []
    ensures ok && 0 in t.free && !t.Valid()
  {
    t := new StateImpl(hasher);
    ok := t.Set([], v);
    ok := t.Set(key, v);
    ok := t.DeleteNodeTree([]);
  }
}
