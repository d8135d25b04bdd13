/** The append-only blob store: sizes and bytes one after the other in a growing array of 32-bit words. */
module BlobStorage {
  import opened Octets

  /** The capacity of a new store, in words; it only ever doubles. */
  const FIRST_CAPACITY: nat := 0x1000_0000

  /** The longest blob that a store always has room for. */
  const MAX_BLOB: nat := 4 * FIRST_CAPACITY - 4

  function LittleEndian(n: nat): (s: Bytes)
    ensures |s| == 4
  {
    [n % 256, n / 0x100 % 256, n / 0x10000 % 256, n / 0x1000000 % 256]
  }

  function FromLittleEndian(s: Bytes): nat
    requires |s| == 4
  {
    var a: int, b: int, c: int, d: int := s[0], s[1], s[2], s[3];
    a + b * 0x100 + c * 0x10000 + d * 0x1000000
  }

  lemma LittleEndianRoundTrip(n: nat)
    requires n < TWO_32
    ensures FromLittleEndian(LittleEndian(n)) == n
  {
    var n1, n2 := n / 0x100, n / 0x10000;
    assert n1 / 0x100 == n2 && n2 / 0x100 == n / 0x1000000;
    assert n == n1 * 0x100 + n % 256 && n1 == n2 * 0x100 + n1 % 256 && n2 == n2 / 0x100 * 0x100 + n2 % 256;
  }

  /** Words that a blob of n bytes takes. */
  function Words(n: nat): nat {
    if n % 4 != 0 then n / 4 + 1 else n / 4
  }

  lemma WordsHold(n: nat)
    ensures n <= 4 * Words(n)
  {
  }

  lemma WordsGrow(a: nat, b: nat)
    requires a <= b
    ensures Words(a) <= Words(b)
  {
  }

  /** In memory m, of which the first `next` words are in use, blob b stands under `id`. */
  ghost predicate Placed(m: Bytes, next: nat, id: nat, b: Bytes) {
    && |b| < TWO_32 && id + 1 + Words(|b|) <= next && 4 * next <= |m|
    && m[4 * id..4 * id + 4] == LittleEndian(|b|) && m[4 * id + 4..4 * id + 4 + |b|] == b
  }

  /** Writing behind the used part leaves blobs in place. */
  lemma StaysPlaced(m: Bytes, m': Bytes, next: nat, next': nat, id: nat, b: Bytes)
    requires Placed(m, next, id, b) && next <= next' && 4 * next' <= |m'| && m'[..4 * next] == m[..4 * next]
    ensures Placed(m', next', id, b)
  {
    assert m'[4 * id..4 * id + 4] == m'[..4 * next][4 * id..4 * id + 4];
    assert m[4 * id..4 * id + 4] == m[..4 * next][4 * id..4 * id + 4];
    assert m'[4 * id + 4..4 * id + 4 + |b|] == m'[..4 * next][4 * id + 4..4 * id + 4 + |b|];
    assert m[4 * id + 4..4 * id + 4 + |b|] == m[..4 * next][4 * id + 4..4 * id + 4 + |b|];
  }

  ghost predicate AllPlaced(m: Bytes, next: nat, blobs: map<nat, Bytes>) {
    forall id {:trigger id in blobs} :: id in blobs ==> Placed(m, next, id, blobs[id])
  }

  lemma AllStay(m: Bytes, m': Bytes, next: nat, next': nat, blobs: map<nat, Bytes>)
    requires AllPlaced(m, next, blobs) && next <= next' && 4 * next' <= |m'| && 4 * next <= |m|
             && m'[..4 * next] == m[..4 * next]
    ensures AllPlaced(m', next', blobs)
  {
    forall id | id in blobs ensures Placed(m', next', id, blobs[id]) {
      StaysPlaced(m, m', next, next', id, blobs[id]);
    }
  }

  /** Right behind the blob at `id` another one starts, or the free part. */
  ghost predicate Followed(next: nat, blobs: map<nat, Bytes>, id: nat)
    requires id in blobs
  {
    var end := id + 1 + Words(|blobs[id]|);
    end == next || end in blobs
  }

  /** Blobs stand one after the other, without gaps, from id 0 on. */
  ghost predicate Chained(next: nat, blobs: map<nat, Bytes>) {
    && (next == 0 || 0 in blobs)
    && (forall id {:trigger Followed(next, blobs, id)} :: id in blobs ==> Followed(next, blobs, id))
  }

  lemma ChainGrows(next: nat, blobs: map<nat, Bytes>, b: Bytes)
    requires Chained(next, blobs) && next !in blobs
    ensures Chained(next + Words(|b|) + 1, blobs[next := b])
  {
    forall id | id in blobs ensures Followed(next + Words(|b|) + 1, blobs[next := b], id) {
      assert Followed(next, blobs, id);
    }
  }

  ghost predicate HeldFacts(m: Bytes, next: nat, blobs: map<nat, Bytes>) {
    AllPlaced(m, next, blobs) && Chained(next, blobs)
  }

  /** Memory m holds exactly these blobs; proofs look inside on demand. */
  ghost predicate Held(m: Bytes, next: nat, blobs: map<nat, Bytes>) {
    forall u: Bytes {:trigger HeldFacts(u, next, blobs)} :: u == m ==> HeldFacts(u, next, blobs)
  }

  lemma HeldAt(m: Bytes, next: nat, blobs: map<nat, Bytes>, id: nat)
    requires Held(m, next, blobs) && id in blobs
    ensures Placed(m, next, id, blobs[id]) && Followed(next, blobs, id)
  {
    assert HeldFacts(m, next, blobs);
  }

  lemma HeldStays(m: Bytes, m': Bytes, next: nat, blobs: map<nat, Bytes>)
    requires Held(m, next, blobs) && 4 * next <= |m| && 4 * next <= |m'| && m'[..4 * next] == m[..4 * next]
    ensures Held(m', next, blobs)
  {
    assert HeldFacts(m, next, blobs);
    AllStay(m, m', next, next, blobs);
    assert HeldFacts(m', next, blobs);
  }

  /** Ids in use are below the next one. */
  lemma NewId(m: Bytes, next: nat, blobs: map<nat, Bytes>)
    requires Held(m, next, blobs)
    ensures next !in blobs
  {
    assert HeldFacts(m, next, blobs);
    assert next in blobs ==> Placed(m, next, next, blobs[next]);
  }

  lemma SamePrefix(m: Bytes, m': Bytes, n: nat)
    requires n <= |m| <= |m'| && m'[..|m|] == m
    ensures m'[..n] == m[..n]
  {
    assert m'[..n] == m'[..|m|][..n];
  }

  method CopyAt(mem: array<Byte>, at: nat, data: Bytes)
    requires at + |data| <= mem.Length
    modifies mem
    ensures mem[..] == old(mem[..])[..at] + data + old(mem[..])[at + |data|..]
  {
    forall i | 0 <= i < |data| {
      mem[at + i] := data[i];
    }
  }

  lemma Written(m: Bytes, m': Bytes, next: nat, b: Bytes)
    requires |b| < TWO_32 && 4 * next + 4 + 4 * Words(|b|) <= |m|
    requires m' == m[..4 * next] + (LittleEndian(|b|) + b) + m[4 * next + |LittleEndian(|b|) + b|..]
    ensures Placed(m', next + Words(|b|) + 1, next, b) && m'[..4 * next] == m[..4 * next]
  {
    assert m'[4 * next..4 * next + 4] == LittleEndian(|b|);
    assert m'[4 * next + 4..4 * next + 4 + |b|] == b;
  }

  method Enlarged(mem: array<Byte>, size: nat) returns (bigger: array<Byte>)
    requires size >= mem.Length
    ensures fresh(bigger) && bigger.Length == size && bigger[..][..mem.Length] == mem[..]
  {
    bigger := new Byte[size];
    forall i | 0 <= i < mem.Length {
      bigger[i] := mem[i];
    }
  }

  class Blobstore {
    var mem: array<Byte>
    var nextFree: nat
    var capacity: nat

    /** Everything stored, by id. */
    ghost var blobs: map<nat, Bytes>

    ghost predicate Valid()
      reads this, mem
    {
      && mem.Length == 4 * capacity && FIRST_CAPACITY <= capacity && nextFree <= capacity
      && Held(mem[..], nextFree, blobs)
    }

    constructor ()
      ensures Valid() && fresh(mem) && nextFree == 0 && capacity == FIRST_CAPACITY == 0x1000_0000 && blobs == map[]
    {
      mem := new Byte[4 * FIRST_CAPACITY];
      nextFree, capacity, blobs := 0, FIRST_CAPACITY, map[];
      new;
      assert HeldFacts(mem[..], 0, map[]);
    }

    /** The store doubles once when the blob does not fit; blobs stay where they are. */
    method Grow()
      requires Valid()
      modifies this
      ensures Valid() && fresh(mem) && capacity == 2 * old(capacity) && nextFree == old(nextFree) && blobs == old(blobs)
    {
      var bigger := Enlarged(mem, 8 * capacity);
      SamePrefix(mem[..], bigger[..], 4 * nextFree);
      HeldStays(mem[..], bigger[..], nextFree, blobs);
      mem, capacity := bigger, 2 * capacity;
    }

    /**
      create_blob and store: a new id; everything stored before stays.  False exactly when the blob
      does not fit even after doubling once, where the code would write outside its memory.
     */
    method Store(data: Bytes) returns (ok: bool, id: nat)
      requires Valid() && |data| < TWO_32
      modifies this, mem
      ensures Valid() && id == old(nextFree) && (mem == old(mem) || fresh(mem))
      ensures ok <==> old(nextFree) + Words(|data|) < 2 * old(capacity)
      ensures |data| <= MAX_BLOB ==> ok
      ensures capacity == if old(nextFree) + Words(|data|) < old(capacity) then old(capacity) else 2 * old(capacity)
      ensures ok ==> id !in old(blobs) && blobs == old(blobs)[id := data]
      ensures ok ==> nextFree == old(nextFree) + Words(|data|) + 1
      ensures !ok ==> blobs == old(blobs) && nextFree == old(nextFree)
    {
      var words := Words(|data|);
      id := nextFree;
      if nextFree + words >= capacity {
        Grow();
      }
      if nextFree + words >= capacity {
        return false, id;
      }
      NewId(mem[..], nextFree, blobs);
      Write(data);
      ok := true;
    }

    method Write(data: Bytes)
      requires Valid() && |data| < TWO_32 && nextFree + Words(|data|) < capacity && nextFree !in blobs
      modifies mem, `nextFree, `blobs
      ensures Valid() && blobs == old(blobs)[old(nextFree) := data] && nextFree == old(nextFree) + Words(|data|) + 1
    {
      ghost var m, blobs', next := mem[..], blobs[nextFree := data], nextFree;
      WordsHold(|data|);
      CopyAt(mem, 4 * nextFree, LittleEndian(|data|) + data);
      nextFree := nextFree + Words(|data|) + 1;
      HeldGrows(m, mem[..], next, blobs, data);
      blobs := blobs';
      assert Held(mem[..], nextFree, blobs);
    }

    /**
      get: what was stored under the id, unless that is an empty blob in the very last word, which
      the range check refuses.
     */
    method Get(id: nat) returns (r: Option<Bytes>)
      requires Valid()
      ensures id + 1 >= capacity ==> r == None
      ensures id in blobs ==> (r == Some(blobs[id]) <==> id + 1 < capacity)
      ensures id in blobs && id + 1 >= capacity ==> blobs[id] == [] && id + 1 == capacity == nextFree
    {
      if id in blobs {
        FoundAt(mem[..], nextFree, blobs, id);
      }
      if id + 1 >= capacity {
        return None;
      }
      var size := FromLittleEndian(mem[4 * id..4 * id + 4]);
      if 4 * id + 4 + size > mem.Length {
        return None;
      }
      r := Some(mem[4 * id + 4..4 * id + 4 + size]);
    }

    /** get, read as a number of four bytes whatever the size of the blob: of an empty one, what follows it. */
    method GetWord(id: nat) returns (r: Option<nat>)
      requires Valid()
      ensures r.None? <==> id + 1 >= capacity
      ensures r.Some? && id in blobs && |blobs[id]| == 4 ==> r.value == FromLittleEndian(blobs[id])
      ensures r.Some? && id in blobs && blobs[id] == [] && id + 1 in blobs ==> r.value == |blobs[id + 1]|
    {
      if id + 1 >= capacity {
        return None;
      }
      if id in blobs && |blobs[id]| == 4 {
        FoundAt(mem[..], nextFree, blobs, id);
      }
      if id + 1 in blobs {
        FoundAt(mem[..], nextFree, blobs, id + 1);
      }
      r := Some(FromLittleEndian(mem[4 * id + 4..4 * id + 8]));
    }
  }

  lemma HeldGrows(m: Bytes, m': Bytes, next: nat, blobs: map<nat, Bytes>, b: Bytes)
    requires |b| < TWO_32 && 4 * next + 4 + 4 * Words(|b|) <= |m| && Held(m, next, blobs) && next !in blobs
    requires m' == m[..4 * next] + (LittleEndian(|b|) + b) + m[4 * next + |LittleEndian(|b|) + b|..]
    ensures Held(m', next + Words(|b|) + 1, blobs[next := b])
  {
    assert HeldFacts(m, next, blobs);
    ChainGrows(next, blobs, b);
    Written(m, m', next, b);
    AllStay(m, m', next, next + Words(|b|) + 1, blobs);
    assert HeldFacts(m', next + Words(|b|) + 1, blobs[next := b]);
  }

  lemma FoundAt(m: Bytes, next: nat, blobs: map<nat, Bytes>, id: nat)
    requires Held(m, next, blobs) && id in blobs
    ensures id + 1 <= next && 4 * id + 4 + |blobs[id]| <= |m| && (next <= id + 1 ==> blobs[id] == [])
    ensures FromLittleEndian(m[4 * id..4 * id + 4]) == |blobs[id]|
    ensures m[4 * id + 4..4 * id + 4 + |blobs[id]|] == blobs[id]
  {
    HeldAt(m, next, blobs, id);
    LittleEndianRoundTrip(|blobs[id]|);
  }

  /**
    In memory: the size of a blob, least significant byte first, then its bytes, then the next blob at a
    whole word.
   */
  lemma InMemory(m: Bytes, next: nat, blobs: map<nat, Bytes>, id: nat)
    requires Held(m, next, blobs) && id in blobs && 4 * next <= |m|
    ensures 4 * id + 4 + |blobs[id]| <= 4 * next
    ensures var at: nat := 4 * id;
            var a: int, b: int, c: int, d: int := m[at], m[at + 1], m[at + 2], m[at + 3];
            a + 0x100 * b + 0x10000 * c + 0x1000000 * d == |blobs[id]|
    ensures forall i :: 0 <= i < |blobs[id]| ==> m[4 * id + 4 + i] == blobs[id][i]
    ensures var end := id + 1 + (|blobs[id]| + 3) / 4; end == next || end in blobs
  {
    FoundAt(m, next, blobs, id);
    HeldAt(m, next, blobs, id);
    var at := 4 * id;
    var word := m[at..at + 4];
    assert word[0] == m[at] && word[1] == m[at + 1] && word[2] == m[at + 2] && word[3] == m[at + 3];
    forall i | 0 <= i < |blobs[id]| ensures m[at + 4 + i] == blobs[id][i] {
      assert m[at + 4..at + 4 + |blobs[id]|][i] == m[at + 4 + i];
    }
  }
}
