/**
  The compaction that commit_changes performs on the node vector: free slots are filled with
  nodes from the end, one child link is rewritten per move, and the vector is cut.

  The `parent` fields of a moved node's children are not rewritten, and the last move rewrites
  no link at all, so compaction keeps the trie in some cases only.  Which ones is settled here.
 */
module TrieCommit {
  import opened Octets
  import opened TrieModel
  import opened TrieEdits

  /** Node s is copied to slot d and its parent's child slot is redirected. */
  function Relocate(nodes: seq<Node>, s: nat, d: nat): (r: seq<Node>)
    requires s < |nodes| && d < |nodes|
    ensures |r| == |nodes|
  {
    var q, prefix := nodes[s].parent, nodes[s].prefix;
    var copied := nodes[d := nodes[s]];
    if q < |nodes| && prefix != [] then
      copied[q := copied[q].(children := copied[q].children[prefix[0] := d])]
    else copied
  }

  ghost predicate Ascending(slots: seq<nat>) {
    forall i, j :: 0 <= i < j < |slots| ==> slots[i] < slots[j]
  }

  /** Slot x is one of slots[lo..hi], both ends included. */
  ghost predicate Open(slots: seq<nat>, lo: nat, hi: nat, x: nat)
    requires hi < |slots|
  {
    exists j :: lo <= j <= hi && slots[j] == x
  }

  lemma OpenEnds(slots: seq<nat>, lo: nat, hi: nat)
    requires Ascending(slots) && lo < hi < |slots|
    ensures forall x :: Open(slots, lo, hi, x) <==> Open(slots, lo, hi - 1, x) || x == slots[hi]
    ensures forall x :: Open(slots, lo, hi, x) <==> Open(slots, lo + 1, hi, x) || x == slots[lo]
    ensures !Open(slots, lo, hi - 1, slots[hi]) && !Open(slots, lo + 1, hi, slots[lo])
    ensures Open(slots, lo, hi, slots[lo]) && Open(slots, lo, hi, slots[hi])
  {
    forall x | Open(slots, lo, hi, x)
      ensures (Open(slots, lo, hi - 1, x) || x == slots[hi]) && (Open(slots, lo + 1, hi, x) || x == slots[lo])
    {
      var j :| lo <= j <= hi && slots[j] == x;
    }
    forall x | Open(slots, lo, hi - 1, x) || x == slots[hi] || Open(slots, lo + 1, hi, x) || x == slots[lo]
      ensures Open(slots, lo, hi, x)
    {
    }
  }

  /** What a move leaves alone. */
  lemma RelocateFields(nodes: seq<Node>, s: nat, d: nat, i: nat)
    requires s < |nodes| && d < |nodes| && i < |nodes| && s != d
    ensures var m := if i == d then s else i;
            && Relocate(nodes, s, d)[i].parent == nodes[m].parent
            && Relocate(nodes, s, d)[i].prefix == nodes[m].prefix
            && forall b: Byte :: !(nodes[s].parent == i && nodes[s].prefix != [] && nodes[s].prefix[0] == b)
                 ==> Relocate(nodes, s, d)[i].children[b] == nodes[m].children[b]
  {
  }

  lemma {:induction false} Spread(slots: seq<nat>, lo: nat, hi: nat)
    requires Ascending(slots) && lo <= hi < |slots|
    ensures slots[hi] >= slots[lo] + (hi - lo)
    decreases hi - lo
  {
    if lo < hi {
      Spread(slots, lo, hi - 1);
    }
  }

  // ----------------------------------------------------------- the good case

  /** The live slots are those up to `last` that are not among the remaining free ones. */
  ghost predicate LiveAre(path: Paths, slots: seq<nat>, lo: nat, hi: nat, last: nat)
    requires lo <= hi < |slots|
  {
    forall i: nat :: i in path <==> i <= last && !Open(slots, lo, hi, i)
  }

  ghost predicate LeavesFrom(nodes: seq<Node>, path: Paths, t: nat)
    requires forall n :: n in path ==> n < |nodes|
  {
    forall n :: n in path && n >= t ==> !HasChildren(nodes[n])
  }

  ghost function Renamed(path: Paths, s: nat, d: nat): Paths
    requires s in path
  {
    (path - {s})[d := path[s]]
  }

  /** Moving a leaf to a free slot and redirecting one link is all it takes. */
  lemma MoveLeaf(hasher: Hasher, nodes: seq<Node>, path: Paths, m: map<Bytes, Bytes>, s: nat, d: nat)
    requires Stands(hasher, nodes, path, m) && s in path && s != 0 && !HasChildren(nodes[s])
    requires d !in path && d < |nodes|
    ensures Stands(hasher, Relocate(nodes, s, d), Renamed(path, s, d), m)
  {
    var nodes', path' := Relocate(nodes, s, d), Renamed(path, s, d);
    assert UpLink(nodes, path, s);
    MoveShape(nodes, path, s, d);
    MoveContents(nodes, path, s, d);
    forall n | n in path' && n != 0 ensures Needed(nodes'[n]) {
      var x := if n == d then s else n;
      assert Needed(nodes[x]);
      SameSlotsNeeded(nodes[x], nodes'[n]);
    }
    MoveHashes(hasher, nodes, path, s, d);
  }

  lemma MoveShape(nodes: seq<Node>, path: Paths, s: nat, d: nat)
    requires Shape(nodes, path) && s in path && s != 0 && !HasChildren(nodes[s])
    requires d !in path && d < |nodes| && UpLink(nodes, path, s)
    ensures Shape(Relocate(nodes, s, d), Renamed(path, s, d))
  {
    var nodes', path' := Relocate(nodes, s, d), Renamed(path, s, d);
    forall n | n in path' && n != 0 ensures UpLink(nodes', path', n) {
      var m := if n == d then s else n;
      assert UpLink(nodes, path, m);
      assert nodes[s].children[nodes[m].prefix[0]] == 0;
    }
    forall n, b: Byte | n in path' ensures DownLink(nodes', path', n, b) {
      if n == d {
        assert nodes[s].children[b] == 0;
      } else {
        assert DownLink(nodes, path, n, b);
      }
    }
  }

  lemma MoveContents(nodes: seq<Node>, path: Paths, s: nat, d: nat)
    requires Shape(nodes, path) && s in path && s != 0 && UpLink(nodes, path, s)
    requires d !in path && d < |nodes| && Shape(Relocate(nodes, s, d), Renamed(path, s, d))
    ensures Contents(Relocate(nodes, s, d), Renamed(path, s, d)) == Contents(nodes, path)
  {
    var nodes', path', m := Relocate(nodes, s, d), Renamed(path, s, d), Contents(nodes, path);
    forall n | n in path' ensures Lookup(m, path'[n]) == nodes'[n].value {
      ContentsAt(nodes, path, if n == d then s else n);
    }
    forall k | k in m ensures m[k] != [] && k in path'.Values {
      var n := NodeAt(path, k);
      assert path'[if n == s then d else n] == k;
    }
    ContentsAre(nodes', path', m);
  }

  lemma MoveHashes(hasher: Hasher, nodes: seq<Node>, path: Paths, s: nat, d: nat)
    requires Shape(nodes, path) && s in path && s != 0 && UpLink(nodes, path, s) && !HasChildren(nodes[s])
    requires d !in path && d < |nodes| && Shape(Relocate(nodes, s, d), Renamed(path, s, d))
    requires Hashed(hasher, nodes, path)
    ensures Hashed(hasher, Relocate(nodes, s, d), Renamed(path, s, d))
  {
    var nodes', path' := Relocate(nodes, s, d), Renamed(path, s, d);
    forall n | n in path' ensures HashOk(hasher, nodes', n) {
      var m := if n == d then s else n;
      assert HashOk(hasher, nodes, m);
      forall b: Byte
        ensures HashOf(nodes, nodes[m].children[b]) == HashOf(nodes', nodes'[n].children[b])
        ensures nodes[m].children[b] == 0 <==> nodes'[n].children[b] == 0
      {
        assert DownLink(nodes, path, m, b);
        if n != d && nodes[m].children[b] != 0 {
          assert UpLink(nodes, path, nodes[m].children[b]);
        }
      }
      SameChildHashes(nodes, nodes[m].children, nodes', nodes'[n].children, 256);
    }
  }

  /** Slots beyond the live ones can be cut off. */
  lemma Truncate(hasher: Hasher, nodes: seq<Node>, path: Paths, m: map<Bytes, Bytes>, t: nat)
    requires Stands(hasher, nodes, path, m) && t <= |nodes| && forall n :: n in path ==> n < t
    ensures Stands(hasher, nodes[..t], path, m)
  {
    var nodes' := nodes[..t];
    forall n | n in path && n != 0 ensures UpLink(nodes', path, n) && Needed(nodes'[n]) {
      assert UpLink(nodes, path, n) && Needed(nodes[n]);
    }
    forall n, b: Byte | n in path ensures DownLink(nodes', path, n, b) {
      assert DownLink(nodes, path, n, b);
    }
    forall n | n in path ensures Lookup(m, path[n]) == nodes'[n].value {
      ContentsAt(nodes, path, n);
    }
    ContentsAre(nodes', path, m);
    forall n | n in path ensures HashOk(hasher, nodes', n) {
      assert HashOk(hasher, nodes, n);
      forall b: Byte ensures HashOf(nodes, nodes[n].children[b]) == HashOf(nodes', nodes[n].children[b]) {
        assert DownLink(nodes, path, n, b);
      }
      HashFrame(hasher, nodes, nodes', n);
    }
  }

  lemma MoveKeepsLive(nodes: seq<Node>, path: Paths, slots: seq<nat>, lo: nat, hi: nat, last: nat)
    requires lo < hi < |slots| && hi - lo <= last < |nodes| && Ascending(slots)
    requires forall i :: 0 <= i < |slots| ==> 0 < slots[i] < |nodes|
    requires Shape(nodes, path) && LiveAre(path, slots, lo, hi, last) && last in path
    requires slots[hi] < last && LeavesFrom(nodes, path, last - (hi - lo)) && slots[lo] < last - (hi - lo)
    ensures LiveAre(Renamed(path, last, slots[lo]), slots, lo + 1, hi, last - 1)
    ensures forall n :: n in Renamed(path, last, slots[lo]) ==> n < |nodes|
    ensures LeavesFrom(Relocate(nodes, last, slots[lo]), Renamed(path, last, slots[lo]), last - (hi - lo))
  {
    var path' := Renamed(path, last, slots[lo]);
    OpenEnds(slots, lo, hi);
    var t, nodes' := last - (hi - lo), Relocate(nodes, last, slots[lo]);
    assert UpLink(nodes, path, last);
    forall n | n in path' && n >= t ensures !HasChildren(nodes'[n]) {
      assert n in path && !HasChildren(nodes[n]);
      assert nodes[nodes[last].parent].children[nodes[last].prefix[0]] != 0;
    }
  }

  // ----------------------------------------------------------- the bad cases

  /** Child b of `at` is the node that will be moved last; no node moved before it hangs there. */
  ghost predicate Unlinked(nodes: seq<Node>, slots: seq<nat>, lo: nat, hi: nat, last: nat, at: nat, b: Byte)
    requires lo <= hi < |slots| && hi - lo <= last < |nodes|
  {
    var t := last - (hi - lo);
    && at <= last && !Open(slots, lo, hi, at) && at != t && !Open(slots, lo, hi, t)
    && nodes[at].children[b] == t
    && (forall i :: t < i <= last && !Open(slots, lo, hi, i) ==>
          nodes[i].prefix != [] && !(nodes[i].parent == at && nodes[i].prefix[0] == b))
    && (forall i {:trigger nodes[i].parent} :: 0 <= i <= last && !Open(slots, lo, hi, i)
          ==> !Open(slots, lo, hi, nodes[i].parent))
  }

  lemma StaleChildStep(nodes: seq<Node>, slots: seq<nat>, lo: nat, hi: nat, last: nat, at: nat, b: Byte)
    returns (next: nat)
    requires lo < hi < |slots| && hi - lo <= last < |nodes| && Ascending(slots)
    requires forall i :: 0 <= i < |slots| ==> slots[i] < |nodes|
    requires slots[hi] < last && Unlinked(nodes, slots, lo, hi, last, at, b)
    ensures Unlinked(Relocate(nodes, last, slots[lo]), slots, lo + 1, hi, last - 1, next, b)
  {
    OpenEnds(slots, lo, hi);
    next := if at == last then slots[lo] else at;
    forall i | 0 <= i < last && !Open(slots, lo + 1, hi, i)
      ensures !Open(slots, lo + 1, hi, Relocate(nodes, last, slots[lo])[i].parent)
      ensures last - (hi - lo) < i ==>
                var nd := Relocate(nodes, last, slots[lo])[i];
                nd.prefix != [] && !(nd.parent == next && nd.prefix[0] == b)
    {
      StaleChildOther(nodes, slots, lo, hi, last, at, b, i);
    }
    LastNotOpen(slots, lo, hi, last);
    RelocateFields(nodes, last, slots[lo], next);
  }

  lemma LastNotOpen(slots: seq<nat>, lo: nat, hi: nat, last: nat)
    requires lo <= hi < |slots| && Ascending(slots) && slots[hi] < last
    ensures !Open(slots, lo, hi, last)
  {
  }

  lemma StaleChildOther(nodes: seq<Node>, slots: seq<nat>, lo: nat, hi: nat, last: nat, at: nat, b: Byte, i: nat)
    requires lo < hi < |slots| && hi - lo <= last < |nodes| && Ascending(slots)
    requires forall i :: 0 <= i < |slots| ==> slots[i] < |nodes|
    requires slots[hi] < last && Unlinked(nodes, slots, lo, hi, last, at, b)
    requires i < last && !Open(slots, lo + 1, hi, i)
    ensures var nd := Relocate(nodes, last, slots[lo])[i];
            && !Open(slots, lo + 1, hi, nd.parent)
            && (last - (hi - lo) < i ==>
                  nd.prefix != [] && !(nd.parent == (if at == last then slots[lo] else at) && nd.prefix[0] == b))
  {
    OpenEnds(slots, lo, hi);
    LastNotOpen(slots, lo, hi, last);
    RelocateFields(nodes, last, slots[lo], i);
    var m := if i == slots[lo] then last else i;
    assert !Open(slots, lo, hi, nodes[m].parent);
  }

  // ------------------------------------------------------- runs of the loop

  /** A state of the loop: slots[lo..hi] are still free, nodes beyond `last` are done with. */
  datatype Frame = Frame(nodes: seq<Node>, lo: nat, hi: nat, last: nat)

  ghost predicate Cursors(slots: seq<nat>, f: Frame) {
    && f.lo <= f.hi < |slots| && f.hi - f.lo <= f.last < |f.nodes| && Ascending(slots)
    && (forall i :: 0 <= i < |slots| ==> 0 < slots[i] < |f.nodes|) && slots[f.hi] <= f.last
  }

  /** The length the vector will be cut to. */
  ghost function Cut(slots: seq<nat>, f: Frame): nat
    requires Cursors(slots, f)
  {
    f.last - (f.hi - f.lo)
  }

  ghost predicate Steps(slots: seq<nat>, f: Frame, g: Frame)
    requires Cursors(slots, f)
  {
    f.lo < f.hi &&
    g == if f.last == slots[f.hi] then Frame(f.nodes, f.lo, f.hi - 1, f.last - 1)
         else Frame(Relocate(f.nodes, f.last, slots[f.lo]), f.lo + 1, f.hi, f.last - 1)
  }

  ghost predicate IsRun(slots: seq<nat>, run: seq<Frame>) {
    && |run| > 0 && (forall k :: 0 <= k < |run| ==> Cursors(slots, run[k]))
    && (forall k {:trigger run[k + 1]} :: 0 <= k < |run| - 1 ==> Steps(slots, run[k], run[k + 1]))
  }

  lemma StepKeepsCursors(slots: seq<nat>, f: Frame, g: Frame)
    requires Cursors(slots, f) && Steps(slots, f, g)
    ensures Cursors(slots, g) && Cut(slots, g) == Cut(slots, f) && |g.nodes| == |f.nodes|
  {
  }

  // ---- first case: the slot at the cut is free and only leaves are moved

  ghost predicate Kept(hasher: Hasher, m: map<Bytes, Bytes>, slots: seq<nat>, path: Paths, f: Frame)
    requires Cursors(slots, f)
  {
    && Stands(hasher, f.nodes, path, m) && LiveAre(path, slots, f.lo, f.hi, f.last)
    && Open(slots, f.lo, f.hi, Cut(slots, f)) && LeavesFrom(f.nodes, path, Cut(slots, f))
  }

  /** Where keys go when the slots of slots[lo..hi] are filled from `last` down. */
  ghost function Closed(path: Paths, slots: seq<nat>, lo: nat, hi: nat, last: nat): Paths
    requires hi < |slots|
    decreases hi - lo
  {
    if lo >= hi || last == 0 then path
    else if last == slots[hi] then Closed(path, slots, lo, hi - 1, last - 1)
    else Closed(if last in path then Renamed(path, last, slots[lo]) else path, slots, lo + 1, hi, last - 1)
  }

  /** ... starting from all of them and the end of the vector. */
  ghost function ClosedUp(path: Paths, slots: seq<nat>, size: nat): Paths {
    if slots == [] || size == 0 then path else Closed(path, slots, 0, |slots| - 1, size - 1)
  }

  lemma ClosedStep(path: Paths, slots: seq<nat>, f: Frame, g: Frame, path': Paths)
    requires Cursors(slots, f) && Steps(slots, f, g) && g.hi < |slots|
    requires f.last == slots[f.hi] ==> path' == path
    requires f.last != slots[f.hi] ==> f.last in path && path' == Renamed(path, f.last, slots[f.lo])
    ensures Closed(path, slots, f.lo, f.hi, f.last) == Closed(path', slots, g.lo, g.hi, g.last)
  {
  }

  lemma KeptStep(hasher: Hasher, m: map<Bytes, Bytes>, slots: seq<nat>, path: Paths, f: Frame, g: Frame)
    returns (path': Paths)
    requires Cursors(slots, f) && Steps(slots, f, g) && Kept(hasher, m, slots, path, f)
    ensures Cursors(slots, g) && Kept(hasher, m, slots, path', g)
    ensures f.last == slots[f.hi] ==> path' == path
    ensures f.last != slots[f.hi] ==> f.last in path && path' == Renamed(path, f.last, slots[f.lo])
  {
    StepKeepsCursors(slots, f, g);
    if f.last == slots[f.hi] {
      OpenEnds(slots, f.lo, f.hi);
      path' := path;
    } else {
      path' := KeptMove(hasher, m, slots, path, f);
    }
  }

  lemma KeptMove(hasher: Hasher, m: map<Bytes, Bytes>, slots: seq<nat>, path: Paths, f: Frame) returns (path': Paths)
    requires Cursors(slots, f) && f.lo < f.hi && f.last != slots[f.hi] && Kept(hasher, m, slots, path, f)
    ensures var g := Frame(Relocate(f.nodes, f.last, slots[f.lo]), f.lo + 1, f.hi, f.last - 1);
            Cursors(slots, g) && Kept(hasher, m, slots, path', g)
    ensures f.last in path && path' == Renamed(path, f.last, slots[f.lo])
  {
    OpenEnds(slots, f.lo, f.hi);
    LastNotOpen(slots, f.lo, f.hi, f.last);
    Spread(slots, f.lo, f.hi);
    assert f.last in path && slots[f.lo] !in path;
    MoveLeaf(hasher, f.nodes, path, m, f.last, slots[f.lo]);
    MoveKeepsLive(f.nodes, path, slots, f.lo, f.hi, f.last);
    path' := Renamed(path, f.last, slots[f.lo]);
  }

  lemma {:induction false} KeptRun(hasher: Hasher, m: map<Bytes, Bytes>, slots: seq<nat>, path: Paths, run: seq<Frame>,
                                   k: nat)
    returns (path': Paths)
    requires IsRun(slots, run) && k < |run| && Kept(hasher, m, slots, path, run[k])
    requires run[|run| - 1].lo == run[|run| - 1].hi
    ensures Kept(hasher, m, slots, path', run[|run| - 1])
    ensures path' == Closed(path, slots, run[k].lo, run[k].hi, run[k].last)
    decreases |run| - k
  {
    path' := path;
    if k < |run| - 1 {
      path' := KeptStep(hasher, m, slots, path, run[k], run[k + 1]);
      ClosedStep(path, slots, run[k], run[k + 1], path');
      path' := KeptRun(hasher, m, slots, path', run, k + 1);
    }
  }

  // ---- second case: the parent field of the node now at `at` names a slot beyond the cut

  ghost predicate Orphan(slots: seq<nat>, at: nat, f: Frame)
    requires Cursors(slots, f)
  {
    0 < at <= f.last && !Open(slots, f.lo, f.hi, at) && f.nodes[at].parent >= Cut(slots, f)
  }

  lemma {:induction false} OrphanRun(slots: seq<nat>, at: nat, run: seq<Frame>, k: nat) returns (at': nat)
    requires IsRun(slots, run) && k < |run| && Orphan(slots, at, run[k])
    ensures Orphan(slots, at', run[|run| - 1])
    decreases |run| - k
  {
    at' := at;
    if k < |run| - 1 {
      var f, g := run[k], run[k + 1];
      OpenEnds(slots, f.lo, f.hi);
      if f.last != slots[f.hi] {
        at' := if at == f.last then slots[f.lo] else at;
        RelocateFields(f.nodes, f.last, slots[f.lo], at');
      }
      at' := OrphanRun(slots, at', run, k + 1);
    }
  }

  // ---- third case: the child slot that leads to the node moved last is not rewritten

  lemma {:induction false} UnlinkedRun(slots: seq<nat>, at: nat, b: Byte, run: seq<Frame>, k: nat) returns (at': nat)
    requires IsRun(slots, run) && k < |run|
    requires Unlinked(run[k].nodes, slots, run[k].lo, run[k].hi, run[k].last, at, b)
    ensures var f := run[|run| - 1]; Unlinked(f.nodes, slots, f.lo, f.hi, f.last, at', b)
    decreases |run| - k
  {
    at' := at;
    if k < |run| - 1 {
      var f, g := run[k], run[k + 1];
      at' := UnlinkedStep(slots, at, b, f, g);
      at' := UnlinkedRun(slots, at', b, run, k + 1);
    }
  }

  lemma UnlinkedSkip(nodes: seq<Node>, slots: seq<nat>, lo: nat, hi: nat, last: nat, at: nat, b: Byte)
    requires lo < hi < |slots| && hi - lo <= last < |nodes| && Ascending(slots) && last == slots[hi]
    requires Unlinked(nodes, slots, lo, hi, last, at, b)
    ensures Unlinked(nodes, slots, lo, hi - 1, last - 1, at, b)
  {
    OpenEnds(slots, lo, hi);
  }

  lemma UnlinkedStep(slots: seq<nat>, at: nat, b: Byte, f: Frame, g: Frame) returns (at': nat)
    requires Cursors(slots, f) && Steps(slots, f, g) && Cursors(slots, g)
    requires Unlinked(f.nodes, slots, f.lo, f.hi, f.last, at, b)
    ensures Unlinked(g.nodes, slots, g.lo, g.hi, g.last, at', b)
  {
    if f.last == slots[f.hi] {
      UnlinkedSkip(f.nodes, slots, f.lo, f.hi, f.last, at, b);
      at' := at;
    } else {
      at' := StaleChildStep(f.nodes, slots, f.lo, f.hi, f.last, at, b);
    }
  }

  // ------------------------------------------------------------ the outcome

  /** Compaction of this vector, with these free slots, keeps the trie. */
  ghost predicate Compactable(nodes: seq<Node>, path: Paths, free: set<nat>)
    requires forall n :: n in path ==> n < |nodes|
  {
    free == {} || (|nodes| - |free| in free && forall n :: n in path && n >= |nodes| - |free| ==>
                   !HasChildren(nodes[n]))
  }

  /** `slots` lists the free slots, and the rest of the vector is live. */
  ghost predicate Listed(nodes: seq<Node>, path: Paths, free: set<nat>, slots: seq<nat>) {
    && free != {} && |slots| == |free| && Ascending(slots) && (forall x :: x in slots <==> x in free)
    && (forall i: nat :: i < |nodes| <==> i in path || i in free)
    && (forall i :: i in path ==> i !in free)
  }

  ghost function Start(nodes: seq<Node>, slots: seq<nat>): Frame
    requires 0 < |slots| <= |nodes|
  {
    Frame(nodes, 0, |slots| - 1, |nodes| - 1)
  }

  lemma CursorsStart(nodes: seq<Node>, path: Paths, free: set<nat>, slots: seq<nat>)
    requires Shape(nodes, path) && Listed(nodes, path, free, slots)
    ensures 0 < |slots| < |nodes| && Cursors(slots, Start(nodes, slots))
    ensures forall x: nat :: Open(slots, 0, |slots| - 1, x) <==> x in free
  {
    forall i | 0 <= i < |slots| ensures 0 < slots[i] < |nodes| {
      assert slots[i] in slots;
    }
    Spread(slots, 0, |slots| - 1);
  }

  lemma OnlyLinkTo(nodes: seq<Node>, path: Paths, t: nat, i: nat)
    requires Shape(nodes, path) && t in path && t != 0 && i in path
    ensures UpLink(nodes, path, t) && nodes[i].parent in path && nodes[t].parent != t
    ensures i > t ==> nodes[i].prefix != []
    ensures i > t ==> !(nodes[i].parent == nodes[t].parent && nodes[i].prefix[0] == nodes[t].prefix[0])
  {
    assert UpLink(nodes, path, t);
    if i != 0 {
      assert UpLink(nodes, path, i);
    }
  }

  lemma StartsUnlinked(nodes: seq<Node>, path: Paths, slots: seq<nat>, t: nat)
    requires Shape(nodes, path) && 0 < |slots| < |nodes| && t == |nodes| - |slots| && t in path && t != 0
    requires forall x: nat :: x < |nodes| ==> (Open(slots, 0, |slots| - 1, x) <==> x !in path)
    ensures UpLink(nodes, path, t)
    ensures Unlinked(nodes, slots, 0, |slots| - 1, |nodes| - 1, nodes[t].parent, nodes[t].prefix[0])
  {
    OnlyLinkTo(nodes, path, t, t);
    var at, b := nodes[t].parent, nodes[t].prefix[0];
    forall i | t < i < |nodes| && !Open(slots, 0, |slots| - 1, i)
      ensures nodes[i].prefix != [] && !(nodes[i].parent == at && nodes[i].prefix[0] == b)
    {
      OnlyLinkTo(nodes, path, t, i);
    }
    forall i | 0 <= i < |nodes| && !Open(slots, 0, |slots| - 1, i)
      ensures !Open(slots, 0, |slots| - 1, nodes[i].parent)
    {
      OnlyLinkTo(nodes, path, t, i);
    }
  }

  ghost predicate AllLive(nodes: seq<Node>, path: Paths) {
    forall i: nat :: i in path <==> i < |nodes|
  }

  ghost predicate Broken(nodes: seq<Node>) {
    forall p :: !(Shape(nodes, p) && AllLive(nodes, p))
  }

  /** The copy after the loop, and the cut. */
  function Finish(slots: seq<nat>, f: Frame): (r: seq<Node>)
    requires Cursors(slots, f)
  {
    f.nodes[slots[f.lo] := f.nodes[f.last]][..f.last]
  }

  lemma KeptEnd(hasher: Hasher, m: map<Bytes, Bytes>, slots: seq<nat>, path: Paths, f: Frame)
    requires Cursors(slots, f) && f.lo == f.hi && Kept(hasher, m, slots, path, f)
    ensures Stands(hasher, Finish(slots, f), path, m) && AllLive(Finish(slots, f), path)
  {
    assert Open(slots, f.lo, f.hi, slots[f.lo]);
    assert Finish(slots, f) == f.nodes[..f.last];
    Truncate(hasher, f.nodes, path, m, f.last);
  }

  lemma OrphanEnd(slots: seq<nat>, at: nat, f: Frame)
    requires Cursors(slots, f) && f.lo == f.hi && Orphan(slots, at, f)
    ensures Broken(Finish(slots, f))
  {
    var nodes := Finish(slots, f);
    assert Open(slots, f.lo, f.hi, slots[f.lo]);
    var at' := if at == f.last then slots[f.lo] else at;
    assert nodes[at'].parent >= |nodes|;
    forall p | Shape(nodes, p) ensures at' !in p {
      assert at' in p ==> UpLink(nodes, p, at');
    }
  }

  lemma UnlinkedEnd(slots: seq<nat>, at: nat, b: Byte, f: Frame)
    requires Cursors(slots, f) && f.lo == f.hi && Unlinked(f.nodes, slots, f.lo, f.hi, f.last, at, b)
    ensures Broken(Finish(slots, f))
  {
    var nodes := Finish(slots, f);
    assert Open(slots, f.lo, f.hi, slots[f.lo]);
    assert nodes[at].children[b] >= |nodes|;
    forall p | Shape(nodes, p) ensures at !in p {
      assert at in p ==> DownLink(nodes, p, at, b);
    }
  }

  ghost predicate FullRun(nodes: seq<Node>, slots: seq<nat>, run: seq<Frame>) {
    && IsRun(slots, run) && 0 < |slots| <= |nodes| && run[0] == Start(nodes, slots)
    && run[|run| - 1].lo == run[|run| - 1].hi
  }

  lemma KeptOutcome(hasher: Hasher, nodes: seq<Node>, path: Paths, free: set<nat>, slots: seq<nat>, run: seq<Frame>)
    returns (path': Paths)
    requires Shape(nodes, path) && Canonical(nodes, path) && Hashed(hasher, nodes, path)
             && Listed(nodes, path, free, slots)
    requires FullRun(nodes, slots, run) && Compactable(nodes, path, free)
    ensures var r := Finish(slots, run[|run| - 1]);
            Stands(hasher, r, path', Contents(nodes, path)) && AllLive(r, path')
    ensures Cursors(slots, run[0]) && path' == Closed(path, slots, run[0].lo, run[0].hi, run[0].last)
  {
    CursorsStart(nodes, path, free, slots);
    path' := KeptRun(hasher, Contents(nodes, path), slots, path, run, 0);
    KeptEnd(hasher, Contents(nodes, path), slots, path', run[|run| - 1]);
  }

  lemma ClosedFromStart(nodes: seq<Node>, path: Paths, slots: seq<nat>, f: Frame)
    requires 0 < |slots| <= |nodes| && f == Start(nodes, slots)
    ensures Closed(path, slots, f.lo, f.hi, f.last) == ClosedUp(path, slots, |nodes|)
  {
  }

  lemma OrphanOutcome(nodes: seq<Node>, path: Paths, free: set<nat>, slots: seq<nat>, run: seq<Frame>, s: nat)
    requires Shape(nodes, path) && Listed(nodes, path, free, slots) && FullRun(nodes, slots, run)
    requires s in path && s >= |nodes| - |free| && HasChildren(nodes[s])
    ensures Broken(Finish(slots, run[|run| - 1]))
  {
    CursorsStart(nodes, path, free, slots);
    var b: Byte :| nodes[s].children[b] != 0;
    assert DownLink(nodes, path, s, b);
    var at := OrphanRun(slots, nodes[s].children[b], run, 0);
    OrphanEnd(slots, at, run[|run| - 1]);
  }

  lemma UnlinkedOutcome(nodes: seq<Node>, path: Paths, free: set<nat>, slots: seq<nat>, run: seq<Frame>)
    requires Shape(nodes, path) && Listed(nodes, path, free, slots) && FullRun(nodes, slots, run)
    requires |nodes| - |free| !in free
    ensures Broken(Finish(slots, run[|run| - 1]))
  {
    CursorsStart(nodes, path, free, slots);
    var t := |nodes| - |slots|;
    StartsUnlinked(nodes, path, slots, t);
    var b := nodes[t].prefix[0];
    var at := UnlinkedRun(slots, nodes[t].parent, b, run, 0);
    UnlinkedEnd(slots, at, b, run[|run| - 1]);
  }

  /** A run that starts from a compactable trie keeps it; any other run breaks it. */
  lemma CompactionOutcome(hasher: Hasher, nodes: seq<Node>, path: Paths, free: set<nat>, slots: seq<nat>,
                          run: seq<Frame>)
    returns (path': Paths)
    requires Shape(nodes, path) && Canonical(nodes, path) && Hashed(hasher, nodes, path)
             && Listed(nodes, path, free, slots)
    requires FullRun(nodes, slots, run)
    ensures var r := Finish(slots, run[|run| - 1]);
            if Compactable(nodes, path, free) then Stands(hasher, r, path', Contents(nodes, path)) && AllLive(r, path')
            else Broken(r)
    ensures Compactable(nodes, path, free) ==> path' == ClosedUp(path, slots, |nodes|)
  {
    path' := path;
    if Compactable(nodes, path, free) {
      path' := KeptOutcome(hasher, nodes, path, free, slots, run);
      ClosedFromStart(nodes, path, slots, run[0]);
    } else if |nodes| - |free| in free {
      var s :| s in path && s >= |nodes| - |free| && HasChildren(nodes[s]);
      OrphanOutcome(nodes, path, free, slots, run, s);
    } else {
      UnlinkedOutcome(nodes, path, free, slots, run);
    }
  }

  lemma ExtendRun(slots: seq<nat>, run: seq<Frame>, g: Frame)
    requires IsRun(slots, run) && Steps(slots, run[|run| - 1], g)
    ensures IsRun(slots, run + [g]) && Cursors(slots, g) && |g.nodes| == |run[|run| - 1].nodes|
  {
    StepKeepsCursors(slots, run[|run| - 1], g);
  }

  /** Free slots are filled from the end and the vector is cut to the number of live slots. */
  method CloseGaps(nodes0: seq<Node>, slots: seq<nat>) returns (nodes: seq<Node>, ghost run: seq<Frame>)
    requires 0 < |slots| <= |nodes0| && Cursors(slots, Start(nodes0, slots))
    ensures |nodes| == |nodes0| - |slots| && FullRun(nodes0, slots, run) && nodes == Finish(slots, run[|run| - 1])
  {
    nodes := nodes0;
    var lo: nat, hi: nat, last: nat := 0, |slots| - 1, |nodes| - 1;
    run := [Frame(nodes, lo, hi, last)];
    while slots[lo] != slots[hi]
      invariant IsRun(slots, run) && run[0] == Start(nodes0, slots) && run[|run| - 1] == Frame(nodes, lo, hi, last)
      invariant last - (hi - lo) == |nodes0| - |slots|
      decreases hi - lo
    {
      ghost var f := run[|run| - 1];
      if last == slots[hi] {
        hi := hi - 1;
      } else {
        nodes := Relocate(nodes, last, slots[lo]);
        lo := lo + 1;
      }
      last := last - 1;
      ghost var g := Frame(nodes, lo, hi, last);
      assert Steps(slots, f, g);
      ExtendRun(slots, run, g);
      run := run + [g];
    }
    nodes := nodes[slots[lo] := nodes[last]];
    nodes := nodes[..last];
  }

  /** The elements of a set in increasing order. */
  method SortedSlots(s: set<nat>) returns (slots: seq<nat>)
    ensures |slots| == |s| && Ascending(slots) && forall x :: x in slots <==> x in s
  {
    slots := [];
    var rest := s;
    while rest != {}
      invariant rest <= s && |slots| + |rest| == |s| && Ascending(slots)
      invariant forall x :: x in slots <==> x in s && x !in rest
      invariant forall i, x :: 0 <= i < |slots| && x in rest ==> slots[i] < x
      decreases rest
    {
      var r := Smallest(rest);
      slots := slots + [r];
      rest := rest - {r};
    }
  }

  /** The first element of an ordered set of slots. */
  method Smallest(s: set<nat>) returns (r: nat)
    requires s != {}
    ensures r in s && forall x :: x in s ==> r <= x
  {
    r :| r in s;
    var rest := s - {r};
    while rest != {}
      invariant r in s && rest <= s && forall x :: x in s && x !in rest ==> r <= x
      decreases rest
    {
      var x :| x in rest;
      rest := rest - {x};
      if x < r {
        r := x;
      }
    }
  }
}
