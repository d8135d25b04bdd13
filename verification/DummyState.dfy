/**
  The two-map reference implementation of a transactional state (dummy_state): committed data
  and pending changes, where a pending empty value stands for a removal.
 */
module DummyState {
  import opened Octets
  import opened TrieModel
  import opened TrieEdits

  /** Committed data as seen through pending changes. */
  ghost function Overlay(data: map<Bytes, Bytes>, pending: map<Bytes, Bytes>): map<Bytes, Bytes> {
    map k | k in data.Keys + pending.Keys && Seen(data, pending, k) != [] :: Seen(data, pending, k)
  }

  ghost function Seen(data: map<Bytes, Bytes>, pending: map<Bytes, Bytes>, k: Bytes): Bytes {
    if k in pending then pending[k] else Lookup(data, k)
  }

  lemma OverlayIs(data: map<Bytes, Bytes>, pending: map<Bytes, Bytes>, m: map<Bytes, Bytes>)
    requires forall k :: k in m ==> m[k] != []
    requires forall k :: Lookup(m, k) == Seen(data, pending, k)
    ensures Overlay(data, pending) == m
  {
    var o := Overlay(data, pending);
    forall k ensures (k in o <==> k in m) && (k in o ==> o[k] == m[k]) {
      assert Lookup(m, k) == Seen(data, pending, k);
    }
  }

  class DummyState {
    var data: map<Bytes, Bytes>
    var pending: map<Bytes, Bytes>

    ghost predicate Valid()
      reads this
    {
      forall k :: k in data ==> data[k] != []
    }

    ghost function View(): map<Bytes, Bytes>
      reads this
    {
      Overlay(data, pending)
    }

    constructor ()
      ensures Valid() && data == map[] && View() == map[]
    {
      data, pending := map[], map[];
    }

    method Get(key: Bytes) returns (v: Bytes)
      ensures v == Lookup(View(), key)
    {
      if key in pending {
        v := pending[key];
      } else if key in data {
        v := data[key];
      } else {
        v := [];
      }
      assert v == Seen(data, pending, key);
    }

    method Set(key: Bytes, value: Bytes)
      modifies this`pending
      ensures View() == Updated(old(View()), key, value)
    {
      pending := pending - {key};
      pending := pending[key := value];
      forall k ensures Seen(data, pending, k) == if k == key then value else Seen(data, old(pending), k) {
      }
    }

    method CommitChanges()
      requires Valid()
      modifies this
      ensures Valid() && data == old(View()) && pending == map[] && View() == old(View())
    {
      var todo := pending.Keys;
      while todo != {}
        invariant todo <= pending.Keys && pending == old(pending) && Valid()
        invariant forall k :: Lookup(data, k) ==
                    if k in todo then Lookup(old(data), k) else Seen(old(data), pending, k)
        decreases todo
      {
        var key :| key in todo;
        data := data - {key};
        if pending[key] != [] {
          data := data[key := pending[key]];
        }
        todo := todo - {key};
      }
      OverlayIs(old(data), old(pending), data);
      pending := map[];
      OverlayIs(data, pending, data);
    }

    method DiscardChanges()
      requires Valid()
      modifies this`pending
      ensures pending == map[] && View() == data
    {
      pending := map[];
      OverlayIs(data, pending, data);
    }
  }
}
