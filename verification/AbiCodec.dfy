/** Encoding and decoding of whole parameter lists. */
module AbiCodec {
  import opened Octets
  import opened AbiTypes
  import opened AbiSpec
  import opened AbiLayout
  import opened AbiEncoder
  import opened AbiDecoder

  // ----------------------------------------------------------- parameter lists

  predicate AllSupported(ts: seq<Ty>) {
    forall i {:trigger Supported(ts[i])} :: 0 <= i < |ts| ==> Supported(ts[i])
  }

  ghost predicate WellTyped(ts: seq<Ty>, vs: seq<Value>) {
    |ts| == |vs| && forall i :: 0 <= i < |ts| ==> HasType(ts[i], vs[i])
  }

  ghost function Components(ts: seq<Ty>, vs: seq<Value>): (items: seq<Item>)
    requires WellTyped(ts, vs)
    ensures |items| == |ts| && forall i :: 0 <= i < |ts| ==> items[i] == Item(IsDynamic(ts[i]), Enc(ts[i], vs[i]))
  {
    seq(|ts|, i requires 0 <= i < |ts| => Item(IsDynamic(ts[i]), Enc(ts[i], vs[i])))
  }

  /** The encoding of the parameter list fits 64-bit positions. */
  ghost predicate Sized(ts: seq<Ty>, vs: seq<Value>) {
    WellTyped(ts, vs) && TupleSize(ts, vs) < TWO_64
  }

  lemma ComponentsSize(ts: seq<Ty>, vs: seq<Value>)
    requires WellTyped(ts, vs)
    ensures |Tuple(Components(ts, vs))| == TupleSize(ts, vs)
  {
    var items := Components(ts, vs);
    forall i | 0 <= i < |items| ensures Matches(ts[i], vs[i], items[i]) {
      SizeIs(ts[i], vs[i]);
    }
    TupleSizeIs(ts, vs, items);
  }

  /** The list stands at the start of the data exactly when its encoding does. */
  lemma ComponentsAre(data: seq<Byte>, ts: seq<Ty>, vs: seq<Value>)
    requires Sized(ts, vs) && AllSupported(ts)
    ensures TupleAt(data, 0, ts, vs) <==> Tuple(Components(ts, vs)) <= data
  {
    var items := Components(ts, vs);
    ComponentsSize(ts, vs);
    forall i | 0 <= i < |items| ensures Alike(data, ts[i], vs[i], items[i]) {
      PartsFit(items, i);
      ValueIs(data, ts[i], vs[i]);
    }
    TupleIs(data, 0, ts, vs, items);
    HeldIs(data, 0, Tuple(items));
  }

  /** And its heads fit the 32 bits that the code adds them up with. */
  ghost predicate InRange(ts: seq<Ty>, vs: seq<Value>) {
    Sized(ts, vs) && HeadSizes(ts) < TWO_32
  }

  ghost predicate AllStatic(ts: seq<Ty>) {
    forall i {:trigger ts[i]} :: 0 <= i < |ts| ==> !IsDynamic(ts[i])
  }

  /** `items` are the encoded components, each within bounds. */
  ghost predicate Ready(ts: seq<Ty>, vs: seq<Value>, items: seq<Item>) {
    |items| == |vs| == |ts| && forall i {:trigger items[i]} :: 0 <= i < |vs| ==>
      items[i].dynamic == IsDynamic(ts[i]) && Coded(ts[i], vs[i], items[i].enc)
  }

  lemma ComponentsReady(ts: seq<Ty>, vs: seq<Value>) returns (items: seq<Item>)
    requires Sized(ts, vs)
    ensures items == Components(ts, vs) && Ready(ts, vs, items) && |Tuple(items)| < TWO_64
    ensures HeadLength(items, |items|) == HeadSizes(ts)
    ensures forall i {:trigger items[i]} :: 0 <= i < |items| ==> HeadSize(items[i]) == TypeHeadSize(ts[i])
  {
    items := Components(ts, vs);
    ComponentsSize(ts, vs);
    forall i | 0 <= i < |items| ensures Coded(ts[i], vs[i], items[i].enc) {
      PartsFit(items, i);
    }
    forall i | 0 <= i < |items| ensures HeadSize(items[i]) == TypeHeadSize(ts[i]) {
      ItemHeadSize(ts[i], vs[i]);
    }
    HeadsAgree(ts, items, |ts|);
    assert ts[..|ts|] == ts;
  }

  lemma {:induction false} HeadsAgree(ts: seq<Ty>, items: seq<Item>, n: nat)
    requires n <= |ts| == |items| && forall i :: 0 <= i < |items| ==> HeadSize(items[i]) == TypeHeadSize(ts[i])
    ensures HeadLength(items, n) == HeadSizes(ts[..n])
  {
    if n > 0 {
      HeadsAgree(ts, items, n - 1);
      HeadSizesStep(ts, n - 1);
    }
  }

  // ------------------------------------------------------------------- encode

  /** Heads and tails of the first i components stand in the buffer. */
  ghost predicate Partway(b0: seq<Byte>, b: seq<Byte>, items: seq<Item>, i: nat, h: nat, p: nat, q: nat)
    requires i <= |items|
  {
    Laid(b0, b, 0, h, Heads(items, i, h), Tails(items, i)) && p == |Heads(items, i, h)| && q == h + |Tails(items, i)|
  }

  lemma NextStatic(b0: seq<Byte>, b1: seq<Byte>, b2: seq<Byte>, items: seq<Item>, i: nat, h: nat, p: nat, q: nat)
    requires i < |items| && !items[i].dynamic && h == HeadLength(items, |items|)
    requires Partway(b0, b1, items, i, h, p, q) && Wrote(b1, b2, p, items[i].enc)
    ensures Partway(b0, b2, items, i + 1, h, p + |items[i].enc|, q)
  {
    HeadsLength(items, i, h);
    LayoutGrows(items, i + 1, |items|);
    LaidHead(b0, b1, b2, 0, h, Heads(items, i, h), Tails(items, i), items[i].enc);
  }

  lemma NextDynamic(b0: seq<Byte>, b1: seq<Byte>, b2: seq<Byte>, b3: seq<Byte>, items: seq<Item>, i: nat, h: nat,
                    p: nat, q: nat)
    requires i < |items| && items[i].dynamic && h == HeadLength(items, |items|) && |Tuple(items)| < TWO_64
    requires Partway(b0, b1, items, i, h, p, q) && Wrote(b1, b2, p, U256(q)) && Wrote(b2, b3, q, items[i].enc)
    ensures Partway(b0, b3, items, i + 1, h, p + 32, q + |items[i].enc|)
  {
    OffsetFits(items, i, h);
    NextOffset(b0, b1, b2, b3, 0, items, i, h, p, q);
  }

  lemma Complete(b0: seq<Byte>, b: seq<Byte>, items: seq<Item>, h: nat, p: nat, q: nat)
    requires Partway(b0, b, items, |items|, h, p, q) && h == HeadLength(items, |items|)
    ensures q <= |b| && b[..q] == Tuple(items)
  {
    HeadsLength(items, |items|, h);
    LaidIsWrote(b0, b, 0, h, Heads(items, |items|, h), Tails(items, |items|));
    assert HoldsAt(b, 0, Tuple(items));
  }

  /**
    One parameter.  A dynamic one puts its offset among the heads and its value among the tails;
    b2 is the buffer in between, and the result is false when the offset would miss the buffer.
   */
  method EncodeOne(t: Info, v: Value, buf: OutBuffer, head: Cursor, tail: Cursor,
                   ghost ty: Ty, ghost enc: seq<Byte>, ghost good: bool) returns (ok: bool, ghost b2: seq<Byte>)
    requires Reads(t, ty) && Supported(ty) && head != tail && (good ==> Coded(ty, v, enc) && Narrow(ty, v))
    modifies buf, buf.data, head, tail
    ensures (buf.data == old(buf.data) || fresh(buf.data)) && old(buf.data.Length) <= buf.data.Length
    ensures !IsDynamic(ty) || old(head.pos) <= old(tail.pos) ==> ok
    ensures ok ==> head.pos <= old(head.pos) + TypeHeadSize(ty) && tail.pos == old(tail.pos) + Move(ty, v)
    ensures ok && good && !IsDynamic(ty) ==>
              Wrote(old(buf.View()), buf.View(), old(head.pos), enc) && head.pos == old(head.pos) + |enc|
    ensures ok && IsDynamic(ty) && old(tail.pos) < TWO_64 ==>
              Wrote(old(buf.View()), b2, old(head.pos), U256(old(tail.pos)))
    ensures ok && good && IsDynamic(ty) ==> Wrote(b2, buf.View(), old(tail.pos), enc) && Move(ty, v) == |enc|
    ensures ok && IsDynamic(ty) ==> head.pos == old(head.pos) + 32
  {
    ReadsFacts(t, ty);
    ok, b2 := true, [];
    if t.kind == DynamicSizeBytes || t.kind == Text || t.arrayKind == DynamicArray {
      ok := PutOffset(buf, head, tail.pos);
      b2 := buf.View();
      if !ok {
        return;
      }
      EncodeParam(t, v, buf, tail, tail, ty, enc, good);
    } else {
      EncodeParam(t, v, buf, head, tail, ty, enc, good);
    }
  }

  /** The offset at the head cursor, after making room at the tail. */
  method PutOffset(buf: OutBuffer, head: Cursor, offset: nat) returns (ok: bool)
    modifies buf, buf.data, head
    ensures (buf.data == old(buf.data) || fresh(buf.data)) && old(buf.data.Length) <= buf.data.Length
    ensures old(head.pos) <= offset ==> ok
    ensures ok ==> head.pos == old(head.pos) + 32
    ensures ok && offset < TWO_64 ==> Wrote(old(buf.View()), buf.View(), old(head.pos), U256(offset))
  {
    var word := U64ToU256(offset);
    buf.CheckAndResize(offset, 32);
    assert forall i :: 0 <= i < old(buf.data.Length) ==> buf.data[..old(buf.data.Length)][i] == old(buf.data[..])[i];
    ok := head.pos + 32 <= buf.data.Length;
    if ok {
      buf.CopyIn(head.pos, word);
      head.pos := head.pos + 32;
    }
  }

  /** The heads and tails so far are laid out. */
  ghost predicate Along(b0: seq<Byte>, b: seq<Byte>, items: seq<Item>, i: nat, h: nat, p: nat)
    requires i <= |items|
  {
    Partway(b0, b, items, i, h, p, h + |Tails(items, i)|)
  }

  lemma NextAlong(b0: seq<Byte>, b1: seq<Byte>, b2: seq<Byte>, b3: seq<Byte>, items: seq<Item>, i: nat, h: nat,
                  p: nat, q: nat, p': nat)
    requires i < |items| && h == HeadLength(items, |items|) && |Tuple(items)| < TWO_64
    requires Along(b0, b1, items, i, h, p) && (items[i].dynamic ==> q == h + |Tails(items, i)|)
    requires !items[i].dynamic ==> Wrote(b1, b3, p, items[i].enc) && p' == p + |items[i].enc|
    requires items[i].dynamic && q < TWO_64 ==> Wrote(b1, b2, p, U256(q))
    requires items[i].dynamic ==> Wrote(b2, b3, q, items[i].enc) && p' == p + 32
    ensures Along(b0, b3, items, i + 1, h, p')
  {
    if items[i].dynamic {
      OffsetFits(items, i, h);
      NextDynamic(b0, b1, b2, b3, items, i, h, p, q);
    } else {
      NextStatic(b0, b1, b3, items, i, h, p, h + |Tails(items, i)|);
    }
  }

  /** By how much a parameter moves the tail cursor. */
  function Move(t: Ty, v: Value): nat {
    if IsDynamic(t) then Advance(t, v) else 0
  }

  function Moves(ts: seq<Ty>, vs: seq<Value>, n: nat): nat
    requires n <= |ts| == |vs|
  {
    if n == 0 then 0 else Moves(ts, vs, n - 1) + Move(ts[n - 1], vs[n - 1])
  }

  ghost predicate NarrowAll(ts: seq<Ty>, vs: seq<Value>, n: nat)
    requires n <= |ts| == |vs|
  {
    forall i {:trigger vs[i]} :: 0 <= i < n ==> Narrow(ts[i], vs[i])
  }

  lemma {:induction false} MovesIsTails(ts: seq<Ty>, vs: seq<Value>, items: seq<Item>, n: nat)
    requires Ready(ts, vs, items) && n <= |ts|
    ensures Moves(ts, vs, n) <= |Tails(items, n)|
    ensures Moves(ts, vs, n) == |Tails(items, n)| <==> NarrowAll(ts, vs, n)
  {
    if n > 0 {
      MovesIsTails(ts, vs, items, n - 1);
      MoveIsLength(ts[n - 1], vs[n - 1], items[n - 1]);
      BothExact(Moves(ts, vs, n - 1), |Tails(items, n - 1)|, Move(ts[n - 1], vs[n - 1]),
                if items[n - 1].dynamic then |items[n - 1].enc| else 0);
    }
  }

  lemma MoveIsLength(t: Ty, v: Value, item: Item)
    requires Coded(t, v, item.enc) && item.dynamic == IsDynamic(t)
    ensures var m := if item.dynamic then |item.enc| else 0;
            Move(t, v) <= m && (Move(t, v) == m <==> Narrow(t, v))
  {
    if IsDynamic(t) {
      AdvanceIsLength(t, v, item.enc);
    }
  }

  /**
    One parameter after the other; false where the code would write outside its buffer.  The heads
    and tails are laid out if the tail cursor starts behind the heads, or is never used, and all values
    are narrow.
   */
  method EncodeAll(sigs: seq<string>, params: seq<Value>, buf: OutBuffer, head: Cursor, tail: Cursor,
                   ghost ts: seq<Ty>, ghost items: seq<Item>, ghost h: nat, ghost good: bool)
    returns (ok: bool)
    requires SpellsAll(sigs, ts) && AllSupported(ts) && |params| == |ts| && head != tail && head.pos == 0
    requires good ==> Ready(ts, params, items) && |Tuple(items)| < TWO_64 && h == HeadLength(items, |items|)
    requires good ==> NarrowAll(ts, params, |ts|) && (tail.pos == h || AllStatic(ts))
    modifies buf, buf.data, head, tail
    ensures (buf.data == old(buf.data) || fresh(buf.data)) && old(buf.data.Length) <= buf.data.Length
    ensures good || HeadSizes(ts) <= old(tail.pos) ==> ok
    ensures ok ==> tail.pos == old(tail.pos) + Moves(ts, params, |ts|)
    ensures good ==> Along(old(buf.View()), buf.View(), items, |items|, h, head.pos)
  {
    ghost var b0, start := buf.View(), tail.pos;
    for i := 0 to |sigs|
      invariant (buf.data == old(buf.data) || fresh(buf.data)) && old(buf.data.Length) <= buf.data.Length
      invariant tail.pos == start + Moves(ts, params, i) && head.pos <= HeadSizes(ts[..i])
      invariant good ==> Along(b0, buf.View(), items, i, h, head.pos)
    {
      HeadSizesStep(ts, i);
      var t := ReadType(sigs[i], ts[i]);
      ghost var b1, p, q := buf.View(), head.pos, tail.pos;
      ghost var b2;
      if good {
        Ahead(ts, params, items, h, b0, b1, i, p, start);
      }
      ok, b2 := EncodeOne(t, params[i], buf, head, tail, ts[i], if good then items[i].enc else [], good);
      if !ok {
        return;
      }
      if good {
        NextAlong(b0, b1, b2, buf.View(), items, i, h, p, q, head.pos);
      }
    }
    ok := true;
  }

  /** Where the cursors stand before a parameter. */
  lemma Ahead(ts: seq<Ty>, vs: seq<Value>, items: seq<Item>, h: nat, b0: seq<Byte>, b: seq<Byte>, i: nat, p: nat,
              start: nat)
    requires Ready(ts, vs, items) && h == HeadLength(items, |items|) && NarrowAll(ts, vs, |ts|) && i < |ts|
    requires (start == h || AllStatic(ts)) && Along(b0, b, items, i, h, p)
    ensures items[i].dynamic ==> start + Moves(ts, vs, i) == h + |Tails(items, i)| && p <= start + Moves(ts, vs, i)
  {
    MovesIsTails(ts, vs, items, i);
    HeadsLength(items, i, h);
    LayoutGrows(items, i, |items|);
  }

  /** What is returned when the tails start at h, reduced to 32 bits, rather than at h. */
  lemma CutOff(b: seq<Byte>, tuple: seq<Byte>, h: nat, tails: nat, moved: nat, flat: bool, r: Option<seq<Byte>>)
    requires |tuple| == h + tails && moved <= tails && (flat ==> tails == 0)
    requires r.Some? ==> |r.value| == h % TWO_32 + moved
    requires (h < TWO_32 || flat) && moved == tails ==>
               |tuple| <= |b| && b[..|tuple|] == tuple && r == Some(b[..h % TWO_32 + tails])
    ensures r == Some(tuple) <==> h < TWO_32 && moved == tails
    ensures flat ==> h % TWO_32 <= |tuple| && r == Some(tuple[..h % TWO_32])
  {
    if flat {
      assert b[..|tuple|][..h % TWO_32] == b[..h % TWO_32];
    }
  }

  /** The number of bytes that encode returns, for arguments of any kind. */
  ghost function ResultLength(ts: seq<Ty>, vs: seq<Value>): nat
    requires |ts| == |vs|
  {
    HeadSizes(ts) % TWO_32 + Moves(ts, vs, |ts|)
  }

  lemma Outcome(b: seq<Byte>, ts: seq<Ty>, vs: seq<Value>, items: seq<Item>, h: nat, ok: bool, r: Option<seq<Byte>>)
    requires Ready(ts, vs, items) && h == HeadLength(items, |items|) == HeadSizes(ts)
    requires r == if ok && ResultLength(ts, vs) <= |b| then Some(b[..ResultLength(ts, vs)]) else None
    requires NarrowAll(ts, vs, |ts|) && (h < TWO_32 || AllStatic(ts)) ==>
               ok && |Tuple(items)| <= |b| && b[..|Tuple(items)|] == Tuple(items)
    ensures r == Some(Tuple(items)) <==> h < TWO_32 && NarrowAll(ts, vs, |ts|)
    ensures AllStatic(ts) ==> h % TWO_32 <= |Tuple(items)| && r == Some(Tuple(items)[..h % TWO_32])
  {
    TupleLength(items);
    MovesIsTails(ts, vs, items, |ts|);
    if AllStatic(ts) {
      NoTails(items, |items|);
    }
    CutOff(b, Tuple(items), h, |Tails(items, |items|)|, Moves(ts, vs, |ts|), AllStatic(ts), r);
  }

  /** The buffer after all parameters, and what is returned of it. */
  method EncodeBuffer(sigs: seq<string>, params: seq<Value>, ghost ts: seq<Ty>, ghost items: seq<Item>,
                      ghost good: bool)
    returns (r: Option<seq<Byte>>, ghost b: seq<Byte>, ghost ok: bool)
    requires SpellsAll(sigs, ts) && AllSupported(ts) && |params| == |ts|
    requires good ==> Ready(ts, params, items) && |Tuple(items)| < TWO_64 && HeadLength(items, |items|) == HeadSizes(ts)
    requires good ==> NarrowAll(ts, params, |ts|) && (HeadSizes(ts) < TWO_32 || AllStatic(ts))
    ensures r == if ok && ResultLength(ts, params) <= |b| then Some(b[..ResultLength(ts, params)]) else None
    ensures BUFFER_SIZE <= |b| && (good || HeadSizes(ts) < TWO_32 ==> ok)
    ensures good ==> |Tuple(items)| <= |b| && b[..|Tuple(items)|] == Tuple(items)
  {
    var buf := new OutBuffer();
    var start := CalculateOffset(sigs, ts);
    var head := new Cursor(0);
    var tail := new Cursor(start);
    ghost var b0, h := buf.View(), HeadSizes(ts);
    var done := EncodeAll(sigs, params, buf, head, tail, ts, items, h, good);
    r := if done && tail.pos <= buf.data.Length then Some(buf.data[..tail.pos]) else None;
    b, ok := buf.View(), done;
    if good {
      TupleLength(items);
      Complete(b0, b, items, h, head.pos, h + |Tails(items, |items|)|);
    }
  }

  /** One string or byte array alone: 32, the length, the bytes, and zeros to the end of the last word. */
  ghost predicate Alone(data: seq<Byte>, s: seq<Byte>) {
    && |data| == 64 + RoundUp(|s|) && NumberAt(data, 0, 32) && NumberAt(data, 32, |s|)
    && data[64..64 + |s|] == s && forall i :: 64 + |s| <= i < |data| ==> data[i] == 0
  }

  lemma AloneIs(data: seq<Byte>, ts: seq<Ty>, vs: seq<Value>)
    requires |ts| == |vs| == 1 && ts[0].Blob? && vs[0].VBytes? && TupleAt(data, 0, ts, vs)
    requires |data| == TupleSize(ts, vs)
    ensures Alone(data, vs[0].s)
  {
    OneBlobSize(ts, vs);
    assert FirstAt(data, 0, ts, vs, 1);
    assert ts[..0] == [];
    assert PlacedAt(data, 0, 0, 32, ts[0], vs[0]);
    assert ValueAt(data, 32, ts[0], vs[0]);
  }

  lemma OneBlobSize(ts: seq<Ty>, vs: seq<Value>)
    requires |ts| == |vs| == 1 && ts[0].Blob? && vs[0].VBytes?
    ensures HeadSizes(ts) == 32 && TupleSize(ts, vs) == 64 + RoundUp(|vs[0].s|)
  {
    assert HeadSizes(ts[..0]) == 0;
    assert TailSizes(ts, vs, 1) == SizeOf(ts[0], vs[0]);
  }

  /**
    encode: the parameter list as a tuple, if its heads are below 2^32 bytes and its values narrow, and
    not otherwise.  A longer list of static values is cut off, to as many bytes as 32 bits count of
    it.  None where the code would use memory outside its buffer.
   */
  method Encode(sigs: seq<string>, params: seq<Value>, ghost ts: seq<Ty>) returns (r: Option<seq<Byte>>)
    requires SpellsAll(sigs, ts) && AllSupported(ts)
    ensures |params| != |ts| ==> r == Some([])
    ensures |params| == |ts| && r.Some? ==> |r.value| == ResultLength(ts, params)
    ensures |params| == |ts| && HeadSizes(ts) < TWO_32 && ResultLength(ts, params) <= BUFFER_SIZE ==> r.Some?
    ensures Sized(ts, params) ==>
              (r == Some(Tuple(Components(ts, params))) <==> HeadSizes(ts) < TWO_32 && NarrowAll(ts, params, |ts|))
    ensures Sized(ts, params) ==>
              (r.Some? && |r.value| == TupleSize(ts, params) && TupleAt(r.value, 0, ts, params) <==>
               HeadSizes(ts) < TWO_32 && NarrowAll(ts, params, |ts|))
    ensures |ts| == |params| == 1 && ts[0].Blob? && params[0].VBytes? && |params[0].s| < TWO_63 ==>
              r.Some? && Alone(r.value, params[0].s)
    ensures Sized(ts, params) && AllStatic(ts) ==>
              HeadSizes(ts) % TWO_32 <= |Tuple(Components(ts, params))| &&
              r == Some(Tuple(Components(ts, params))[..HeadSizes(ts) % TWO_32])
  {
    if |params| != |sigs| {
      return Some([]);
    }
    ghost var typed, items: seq<Item> := Sized(ts, params), [];
    if typed {
      items := ComponentsReady(ts, params);
    }
    ghost var good := typed && (HeadSizes(ts) < TWO_32 || AllStatic(ts)) && NarrowAll(ts, params, |ts|);
    ghost var b, ok;
    r, b, ok := EncodeBuffer(sigs, params, ts, items, good);
    if typed {
      Outcome(b, ts, params, items, HeadSizes(ts), ok, r);
      LaidOut(ts, params, r);
    }
    if |ts| == 1 && ts[0].Blob? && params[0].VBytes? && |params[0].s| < TWO_63 {
      OneBlobSize(ts, params);
      AloneIs(r.value, ts, params);
    }
  }

  lemma LaidOut(ts: seq<Ty>, vs: seq<Value>, r: Option<seq<Byte>>)
    requires Sized(ts, vs) && AllSupported(ts)
    ensures r == Some(Tuple(Components(ts, vs))) <==>
            r.Some? && |r.value| == TupleSize(ts, vs) && TupleAt(r.value, 0, ts, vs)
  {
    ComponentsSize(ts, vs);
    if r.Some? {
      ComponentsAre(r.value, ts, vs);
      Whole(Tuple(Components(ts, vs)), r.value);
    }
  }

  lemma Whole(s: seq<Byte>, data: seq<Byte>)
    ensures s <= data && |data| == |s| <==> data == s
  {
  }

  // ------------------------------------------------------------------- decode

  ghost predicate ReadableAll(ts: seq<Ty>, vs: seq<Value>, n: nat)
    requires n <= |ts| == |vs|
  {
    forall i {:trigger vs[i]} :: 0 <= i < n ==> Readable(ts[i], vs[i])
  }

  /** The value stands in the data where a head at `at` says. */
  ghost predicate Stands(data: seq<Byte>, ty: Ty, v: Value, at: nat, to: nat, enc: seq<Byte>) {
    && Coded(ty, v, enc) && Steady(ty, v) && to < TWO_64 && HoldsAt(data, to, enc)
    && if IsDynamic(ty) then HoldsAt(data, at, U256(to)) else to == at
  }

  ghost predicate Found(data: seq<Byte>, ty: Ty, v: Value, at: nat) {
    exists to, enc :: Stands(data, ty, v, at, to, enc)
  }

  /** Where the code looks for head n: sizes are counted on 32 bits, positions on 64. */
  function HeadAt(ts: seq<Ty>, n: nat): nat
    requires n <= |ts|
  {
    if n == 0 then 0 else (HeadAt(ts, n - 1) + TypeHeadSize(ts[n - 1]) % TWO_32) % TWO_64
  }

  /** Where the code looks for the values, these are the ones there. */
  ghost predicate AllFound(data: seq<Byte>, ts: seq<Ty>, vs: seq<Value>) {
    |ts| == |vs| && forall i {:trigger vs[i]} :: 0 <= i < |ts| ==> Found(data, ts[i], vs[i], HeadAt(ts, i))
  }

  /** One parameter, through its offset if it is dynamic. */
  method DecodeOne(t: Info, data: seq<Byte>, pos: nat, ghost ty: Ty, ghost v: Value, ghost good: bool)
    returns (x: Option<Value>)
    requires Reads(t, ty) && Supported(ty) && |data| < TWO_64 && (good ==> Found(data, ty, v, pos))
    ensures good ==> Gives(x, ty, v)
  {
    ReadsFacts(t, ty);
    ghost var to: nat, enc: seq<Byte> := 0, [];
    if good {
      to, enc :| Stands(data, ty, v, pos, to, enc);
    }
    x := None;
    if t.kind == DynamicSizeBytes || t.kind == Text || t.arrayKind == DynamicArray {
      var offset := ReadU64(data, pos, to);
      if offset.Some? {
        x := DecodeParam(t, data, offset.value, ty, v, enc, good);
      }
    } else {
      x := DecodeParam(t, data, pos, ty, v, enc, good);
    }
  }

  /** Where the head after this one starts. */
  method NextHead(t: Info, pos: nat, ghost ty: Ty) returns (next: nat)
    requires Reads(t, ty)
    ensures next == (pos + TypeHeadSize(ty) % TWO_32) % TWO_64
  {
    ReadsFacts(t, ty);
    var size := 32;
    if t.arrayKind == FixedArray {
      size := HeadBytes(t.str, ty);
    }
    next := (pos + size) % TWO_64;
    assert !ty.Array? && !IsDynamic(ty) ==> StaticSize(ty) == 32;
  }

  ghost predicate ReadUpTo(out: seq<Value>, ts: seq<Ty>, vs: seq<Value>, n: nat) {
    n <= |ts| == |vs| && out == vs[..n] && ReadableAll(ts, vs, n)
  }

  lemma ReadOne(out: seq<Value>, ts: seq<Ty>, vs: seq<Value>, n: nat, x: Option<Value>)
    requires n < |ts| && ReadUpTo(out, ts, vs, n) && Gives(x, ts[n], vs[n])
    ensures x.Some? ==> ReadUpTo(out + [x.value], ts, vs, n + 1)
    ensures x.None? ==> !ReadableAll(ts, vs, |ts|)
  {
  }

  method DecodeAll(sigs: seq<string>, data: seq<Byte>, ghost ts: seq<Ty>, ghost vs: seq<Value>, ghost good: bool)
    returns (r: Option<seq<Value>>)
    requires SpellsAll(sigs, ts) && AllSupported(ts) && |data| < TWO_64
    requires good ==> AllFound(data, ts, vs)
    ensures good ==> r == if ReadableAll(ts, vs, |ts|) then Some(vs) else None
  {
    var out: seq<Value>, pos: nat := [], 0;
    for i := 0 to |sigs|
      invariant pos == HeadAt(ts, i) && (good ==> ReadUpTo(out, ts, vs, i))
    {
      var t := ReadType(sigs[i], ts[i]);
      var x := DecodeOne(t, data, pos, ts[i], if good then vs[i] else VBool(false), good);
      if good {
        ReadOne(out, ts, vs, i, x);
      }
      if x.None? {
        return None;
      }
      out := out + [x.value];
      pos := NextHead(t, pos, ts[i]);
    }
    assert good ==> vs[..|ts|] == vs;
    r := Some(out);
  }

  // ---- where the values of a tuple are found

  /** Nothing is read behind a static value of 2^32 bytes or more. */
  ghost predicate SteadyAll(ts: seq<Ty>, vs: seq<Value>) {
    && |ts| == |vs| && (forall i {:trigger vs[i]} :: 0 <= i < |ts| ==> Steady(ts[i], vs[i]))
    && forall i {:trigger ts[i]} :: 0 <= i < |ts| - 1 ==> TypeHeadSize(ts[i]) < TWO_32
  }

  /** Component k: what its head holds, and where its value stands. */
  lemma ComponentAt(data: seq<Byte>, ts: seq<Ty>, vs: seq<Value>, items: seq<Item>, k: nat)
    requires Ready(ts, vs, items) && |Tuple(items)| < TWO_64 && HoldsAt(data, 0, Tuple(items)) && k < |ts|
    requires Steady(ts[k], vs[k])
    ensures Found(data, ts[k], vs[k], HeadLength(items, k))
  {
    HeadsInside(items, k);
    var to := HeadLength(items, k);
    if items[k].dynamic {
      to := PointedAt(data, 0, items, k, HeadLength(items, k));
    } else {
      StaticAt(data, 0, items, k);
      LayoutGrows(items, k, |items|);
    }
    assert Stands(data, ts[k], vs[k], HeadLength(items, k), to, items[k].enc);
  }

  lemma HeadsInside(items: seq<Item>, k: nat)
    requires k < |items|
    ensures HeadLength(items, k) <= HeadLength(items, k + 1) <= |Tuple(items)|
  {
    LayoutGrows(items, k + 1, |items|);
    TupleLength(items);
  }

  lemma {:induction false} HeadAtIs(ts: seq<Ty>, items: seq<Item>, n: nat)
    requires n <= |ts| == |items| && |Tuple(items)| < TWO_64
    requires forall i {:trigger items[i]} :: 0 <= i < |items| ==> HeadSize(items[i]) == TypeHeadSize(ts[i])
    requires forall i {:trigger ts[i]} :: 0 <= i < n ==> TypeHeadSize(ts[i]) < TWO_32
    ensures HeadAt(ts, n) == HeadLength(items, n)
  {
    if n > 0 {
      HeadAtIs(ts, items, n - 1);
      HeadsInside(items, n - 1);
      assert HeadSize(items[n - 1]) == TypeHeadSize(ts[n - 1]) < TWO_32;
      NothingWraps(HeadLength(items, n - 1), TypeHeadSize(ts[n - 1]));
    }
  }

  lemma NothingWraps(at: nat, size: nat)
    requires size < TWO_32 && at + size < TWO_64
    ensures (at + size % TWO_32) % TWO_64 == at + size
  {
  }

  lemma TupleIsFound(data: seq<Byte>, ts: seq<Ty>, vs: seq<Value>)
    requires Sized(ts, vs) && SteadyAll(ts, vs) && Tuple(Components(ts, vs)) <= data
    ensures AllFound(data, ts, vs)
  {
    var items := ComponentsReady(ts, vs);
    forall i | 0 <= i < |ts| ensures Found(data, ts[i], vs[i], HeadAt(ts, i)) {
      HeadAtIs(ts, items, i);
      ComponentAt(data, ts, vs, items, i);
    }
  }

  /**
    decode: the values that stand where the code looks for them, for any data; those are the values of
    any list that an encoder lays out at the start of the data with nothing behind a static value of
    2^32 bytes or more.  Arrays too long for 32-bit counters or, of dynamic elements, for 32-bit
    positions are not read.
   */
  method Decode(sigs: seq<string>, data: seq<Byte>, ghost ts: seq<Ty>, ghost vs: seq<Value>)
    returns (r: Option<seq<Value>>)
    requires SpellsAll(sigs, ts) && AllSupported(ts) && |data| < TWO_64
    ensures AllFound(data, ts, vs) ==> r == if ReadableAll(ts, vs, |ts|) then Some(vs) else None
    ensures Sized(ts, vs) && SteadyAll(ts, vs) && TupleAt(data, 0, ts, vs) ==>
              r == if ReadableAll(ts, vs, |ts|) then Some(vs) else None
  {
    if Sized(ts, vs) && SteadyAll(ts, vs) && TupleAt(data, 0, ts, vs) {
      ComponentsAre(data, ts, vs);
      TupleIsFound(data, ts, vs);
    }
    r := DecodeAll(sigs, data, ts, vs, AllFound(data, ts, vs));
  }

  lemma {:induction false} UniformTails(items: seq<Item>, n: nat, size: nat)
    requires n <= |items| && forall i :: 0 <= i < |items| ==> items[i].dynamic && |items[i].enc| == size
    ensures |Tails(items, n)| == n * size && HeadLength(items, n) == n * 32
  {
    if n > 0 {
      UniformTails(items, n - 1, size);
    }
  }

  lemma EmptyTexts(t: Ty, n: nat) returns (v: Value)
    requires t == Array(Blob(true), 0)
    ensures HasType(t, v) && |Enc(t, v)| == 32 + 64 * n && v.VArray? && |v.vs| == n
  {
    var vs := seq(n, _ => VBytes([]));
    v := VArray(vs);
    var items := Items(t.elem, vs);
    forall i | 0 <= i < |items| ensures |items[i].enc| == 32 {
      assert vs[i] == VBytes([]);
    }
    UniformTails(items, n, 32);
    TupleLength(items);
  }

  /** The bound on arrays of dynamic elements is real: some list in range cannot be read back. */
  lemma BeyondReach() returns (ts: seq<Ty>, vs: seq<Value>)
    ensures AllSupported(ts) && InRange(ts, vs) && !ReadableAll(ts, vs, |ts|)
  {
    var t := Array(Blob(true), 0);
    var v := EmptyTexts(t, MAX_OFFSETS + 1);
    ts, vs := [t], [v];
    OneInRange(t, v);
    assert !Readable(ts[0], vs[0]);
  }

  /** And so is the one on arrays of static elements: 2^31 numbers are encoded, and cannot be read back. */
  lemma BeyondCount() returns (ts: seq<Ty>, vs: seq<Value>)
    ensures AllSupported(ts) && InRange(ts, vs) && !ReadableAll(ts, vs, |ts|)
    ensures |ts| == 1 && ts[0] == Array(Word(UInt(256)), 0)
  {
    var t := Array(Word(UInt(256)), 0);
    var v := Numbers(t, TWO_31);
    ts, vs := [t], [v];
    OneInRange(t, v);
    assert !Readable(ts[0], vs[0]);
  }

  lemma Numbers(t: Ty, n: nat) returns (v: Value)
    requires t == Array(Word(UInt(256)), 0)
    ensures HasType(t, v) && |Enc(t, v)| == 32 + 32 * n && v.VArray? && |v.vs| == n
  {
    var vs := seq(n, _ => VInt(0));
    v := VArray(vs);
    forall i | 0 <= i < |vs| ensures HasType(t.elem, vs[i]) {
      assert vs[i] == VInt(0);
    }
    var items := Items(t.elem, vs);
    UniformHeads(items, n, 32);
    NoTails(items, n);
    TupleLength(items);
  }

  /** Two arrays of 2^26 numbers have heads of exactly 2^32 bytes. */
  lemma FullHeads(t: Ty, v: Value, ts: seq<Ty>, vs: seq<Value>)
    requires t == Array(Word(UInt(256)), 0x400_0000) && v.VArray? && |v.vs| == 0x400_0000
    requires (forall i :: 0 <= i < |v.vs| ==> v.vs[i] == VInt(0)) && ts == [t, t] && vs == [v, v]
    ensures AllSupported(ts) && AllStatic(ts) && Sized(ts, vs) && HeadSizes(ts) == TWO_32
  {
    forall i | 0 <= i < |v.vs| ensures HasType(t.elem, v.vs[i]) {
      assert v.vs[i] == VInt(0);
    }
    var items := Components(ts, vs);
    StaticLength(t, v);
    HeadSizesStep(ts, 0);
    HeadSizesStep(ts, 1);
    assert ts[..0] == [] && ts[..2] == ts;
    UniformHeads(items, 2, TWO_32 / 2);
    NoTails(items, 2);
    TupleLength(items);
    ComponentsSize(ts, vs);
  }

  /** The bound on heads is real: for such a list the tails start at 0, and encode returns the empty string. */
  method HeadsWrap(sig: string, v: Value, ghost t: Ty) returns (r: Option<seq<Byte>>)
    requires t == Array(Word(UInt(256)), 0x400_0000) && Spells(sig, t)
    requires v.VArray? && |v.vs| == 0x400_0000 && forall i :: 0 <= i < |v.vs| ==> v.vs[i] == VInt(0)
    ensures Sized([t, t], [v, v]) && r == Some([])
  {
    ghost var ts := [t, t];
    FullHeads(t, v, ts, [v, v]);
    r := Encode([sig, sig], [v, v], ts);
  }

  predicate AreZeros(v: Value, n: nat) {
    v.VArray? && |v.vs| == n && forall i :: 0 <= i < n ==> v.vs[i] == VInt(0)
  }

  /** An array of 2^27 numbers is a static value of exactly 2^32 bytes, and starts with its first number. */
  lemma WideArray(e: Ty, z: Value)
    requires e == Array(Word(UInt(256)), 0x800_0000) && AreZeros(z, 0x800_0000)
    ensures HasType(e, z) && |Enc(e, z)| == StaticSize(e) == TWO_32 && !IsDynamic(e) && Supported(e)
    ensures Readable(e, z) && Steady(e, z)
    ensures HasType(e.elem, VInt(0)) && HoldsAt(Enc(e, z), 0, Enc(e.elem, VInt(0)))
  {
    forall i | 0 <= i < |z.vs| ensures HasType(e.elem, z.vs[i]) {
      assert z.vs[i] == VInt(0);
    }
    StaticLength(e, z);
    var items := Items(e.elem, z.vs);
    assert HoldsAt(Enc(e, z), 0, Tuple(items));
    StaticAt(Enc(e, z), 0, items, 0);
  }

  /** One such array as the element of a dynamic array. */
  lemma WideElement(t: Ty, e: Ty, v: Value, z: Value)
    requires t == Array(e, 0) && v == VArray([z])
    requires e == Array(Word(UInt(256)), 0x800_0000) && AreZeros(z, 0x800_0000)
    ensures Sized([t], [v]) && AllSupported([t]) && HeadSizes([t]) == 32 && ResultLength([t], [v]) == 64
    ensures |Tuple(Components([t], [v]))| == TWO_32 + 64
  {
    WideArray(e, z);
    var items := Items(e, [z]);
    UniformHeads(items, 1, TWO_32);
    NoTails(items, 1);
    TupleLength(items);
    assert |Enc(t, v)| == 32 + TWO_32;
    OneInRange(t, v);
    assert Advance(t, v) == 32;
    assert Moves([t], [v], 1) == Moves([t], [v], 0) + Move(t, v);
    UniformTails(Components([t], [v]), 1, |Enc(t, v)|);
    TupleLength(Components([t], [v]));
  }

  /** The condition on elements is real: encode returns 64 of the 2^32 + 64 bytes of such a list. */
  method WideElements(sig: string, v: Value, ghost t: Ty) returns (r: Option<seq<Byte>>)
    requires t == Array(Array(Word(UInt(256)), 0x800_0000), 0) && Spells(sig, t)
    requires v.VArray? && |v.vs| == 1 && AreZeros(v.vs[0], 0x800_0000)
    ensures Sized([t], [v]) && HeadSizes([t]) == 32 && |Tuple(Components([t], [v]))| == TWO_32 + 64
    ensures r.Some? && |r.value| == 64
  {
    WideElement(t, t.elem, v, v.vs[0]);
    r := Encode([sig], [v], [t]);
  }

  /** And so is the one for decode: a number behind such an array is read from the start of the array. */
  method WideStep(sigs: seq<string>, data: seq<Byte>, z: Value, ghost e: Ty) returns (r: Option<seq<Value>>)
    requires e == Array(Word(UInt(256)), 0x800_0000) && AreZeros(z, 0x800_0000) && SpellsAll(sigs, [e, e.elem])
    requires Sized([e, e.elem], [z, VInt(1)]) && data == Tuple(Components([e, e.elem], [z, VInt(1)]))
    ensures r == Some([z, VInt(0)])
  {
    ghost var ts := [e, e.elem];
    FoundBefore(data, e, z);
    r := Decode(sigs, data, ts, [z, VInt(0)]);
  }

  lemma FoundBefore(data: seq<Byte>, e: Ty, z: Value)
    requires e == Array(Word(UInt(256)), 0x800_0000) && AreZeros(z, 0x800_0000)
    requires Sized([e, e.elem], [z, VInt(1)]) && data == Tuple(Components([e, e.elem], [z, VInt(1)]))
    ensures AllFound(data, [e, e.elem], [z, VInt(0)]) && ReadableAll([e, e.elem], [z, VInt(0)], 2)
    ensures AllSupported([e, e.elem]) && |data| < TWO_64
  {
    var ts, vs, us := [e, e.elem], [z, VInt(1)], [z, VInt(0)];
    WideArray(e, z);
    var items := ComponentsReady(ts, vs);
    ComponentAt(data, ts, vs, items, 0);
    StaticAt(data, 0, items, 0);
    FirstNumber(data, e, z);
    WrapsToStart(ts);
    assert Found(data, ts[0], us[0], 0) && Found(data, ts[1], us[1], 0);
  }

  lemma WrapsToStart(ts: seq<Ty>)
    requires |ts| == 2 && TypeHeadSize(ts[0]) == TWO_32
    ensures HeadAt(ts, 0) == HeadAt(ts, 1) == 0
  {
  }

  lemma FirstNumber(data: seq<Byte>, e: Ty, z: Value)
    requires e == Array(Word(UInt(256)), 0x800_0000) && AreZeros(z, 0x800_0000)
    requires HasType(e, z) && HoldsAt(data, 0, Enc(e, z))
    ensures Found(data, e.elem, VInt(0), 0)
  {
    WideArray(e, z);
    Within(data, Enc(e, z), Enc(e.elem, VInt(0)));
    assert Stands(data, e.elem, VInt(0), 0, 0, Enc(e.elem, VInt(0)));
  }

  lemma Within(data: seq<Byte>, big: seq<Byte>, small: seq<Byte>)
    requires HoldsAt(data, 0, big) && HoldsAt(big, 0, small)
    ensures HoldsAt(data, 0, small)
  {
    if small != [] {
      assert data[0..|big|][0..|small|] == data[0..|small|];
    }
  }

  /** A list of one dynamic value is in range if its encoding is below 2^64 - 32 bytes. */
  lemma OneInRange(t: Ty, v: Value)
    requires HasType(t, v) && IsDynamic(t) && |Enc(t, v)| + 32 < TWO_64
    ensures InRange([t], [v])
  {
    var ts, vs := [t], [v];
    var items := Components(ts, vs);
    assert HeadSizes(ts[..0]) == 0;
    HeadSizesStep(ts, 0);
    assert ts[..1] == ts;
    UniformTails(items, 1, |Enc(t, v)|);
    TupleLength(items);
    ComponentsSize(ts, vs);
  }

  lemma LaidOutIsSteady(ts: seq<Ty>, vs: seq<Value>)
    requires InRange(ts, vs) && NarrowAll(ts, vs, |ts|)
    ensures SteadyAll(ts, vs)
  {
    forall i | 0 <= i < |ts| ensures TypeHeadSize(ts[i]) < TWO_32 && Steady(ts[i], vs[i]) {
      HeadSizesStep(ts, i);
      NarrowIsSteady(ts[i], vs[i]);
    }
  }

  /** Decoding inverts encoding, on every list that encode lays out as a tuple and that can be stepped through. */
  method RoundTrip(sigs: seq<string>, params: seq<Value>, ghost ts: seq<Ty>) returns (r: Option<seq<Value>>)
    requires SpellsAll(sigs, ts) && AllSupported(ts)
    ensures InRange(ts, params) && NarrowAll(ts, params, |ts|) ==>
              r == if ReadableAll(ts, params, |ts|) then Some(params) else None
  {
    var data := Encode(sigs, params, ts);
    if data.None? || |data.value| >= TWO_64 {
      return None;
    }
    if InRange(ts, params) && NarrowAll(ts, params, |ts|) {
      LaidOutIsSteady(ts, params);
    }
    r := Decode(sigs, data.value, ts, params);
  }
}
