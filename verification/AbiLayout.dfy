/**
  Where everything stands in encoded data, byte by byte: a second account of the encoding, which
  builds nothing and says of given data what is in it.
 */
module AbiLayout {
  import opened Octets
  import opened AbiTypes
  import opened AbiSpec

  // ------------------------------------------------------------ single words

  /** The 32 bytes at p, most significant first. */
  ghost predicate NumberAt(data: seq<Byte>, p: nat, n: nat) {
    p + 32 <= |data| && FromBigEndian(data[p..p + 32]) == n
  }

  ghost predicate ZerosAt(data: seq<Byte>, from: nat, to: nat) {
    from <= to <= |data| && forall i :: from <= i < to ==> data[i] == 0
  }

  ghost predicate BytesAt(data: seq<Byte>, p: nat, s: seq<Byte>) {
    p + |s| <= |data| && data[p..p + |s|] == s
  }

  /** Two's complement: a negative number stands as its sum with the modulus. */
  ghost predicate SignedAt(data: seq<Byte>, p: nat, i: int, modulus: nat) {
    if i >= 0 then NumberAt(data, p, i) else modulus + i >= 0 && NumberAt(data, p, modulus + i)
  }

  /** Numbers in two's complement; bytesN and function at the start of their word, addresses at its end. */
  ghost predicate ScalarAt(data: seq<Byte>, p: nat, s: Scalar, v: Value) {
    match s
    case Bool => v.VBool? && NumberAt(data, p, if v.b then 1 else 0)
    case UInt(_) => v.VInt? && v.i >= 0 && NumberAt(data, p, v.i)
    case Int(_) => v.VInt? && SignedAt(data, p, v.i, Pow256(32))
    case Address => v.VBytes? && |v.s| == 20 && ZerosAt(data, p, p + 12) && BytesAt(data, p + 12, v.s)
    case _ => v.VBytes? && |v.s| <= 32 && BytesAt(data, p, v.s) && ZerosAt(data, p + |v.s|, p + 32)
  }

  /** The smallest multiple of 32 that is not below n. */
  function RoundUp(n: nat): nat {
    (n + 31) / 32 * 32
  }

  /** The length, the bytes, then only zeros to the end of the last word. */
  ghost predicate BlobAt(data: seq<Byte>, p: nat, s: seq<Byte>) {
    && NumberAt(data, p, |s|) && BytesAt(data, p + 32, s)
    && ZerosAt(data, p + 32 + |s|, p + 32 + RoundUp(|s|))
  }

  // ---------------------------------------------------------- tuples, arrays

  function Repeat(e: Ty, n: nat): (ts: seq<Ty>)
    ensures |ts| == n && forall i :: 0 <= i < n ==> ts[i] == e
  {
    seq(n, _ => e)
  }

  /** Bytes that a value takes: those of its type if it is static. */
  function SizeOf(t: Ty, v: Value): nat
    decreases v, 1
  {
    match t
    case Word(_) => 32
    case Blob(_) => if v.VBytes? then 32 + RoundUp(|v.s|) else 0
    case Array(e, k) =>
      if !IsDynamic(t) then StaticSize(t)
      else if v.VArray? then (if k == 0 then 32 else 0) + TupleSize(Repeat(e, |v.vs|), v.vs)
      else 0
  }

  function TupleSize(ts: seq<Ty>, vs: seq<Value>): nat
    requires |ts| == |vs|
    decreases vs, 1
  {
    HeadSizes(ts) + TailSizes(ts, vs, |ts|)
  }

  /** Bytes of the dynamic ones among the first n values. */
  function TailSizes(ts: seq<Ty>, vs: seq<Value>, n: nat): nat
    requires n <= |ts| == |vs|
    decreases vs, 0, n
  {
    if n == 0 then 0 else TailSizes(ts, vs, n - 1) + (if IsDynamic(ts[n - 1]) then SizeOf(ts[n - 1], vs[n - 1]) else 0)
  }

  ghost predicate ValueAt(data: seq<Byte>, p: nat, t: Ty, v: Value)
    decreases v, 1
  {
    match t
    case Word(s) => ScalarAt(data, p, s, v)
    case Blob(_) => v.VBytes? && BlobAt(data, p, v.s)
    case Array(e, k) =>
      && v.VArray? && (k == 0 ==> NumberAt(data, p, |v.vs|))
      && TupleAt(data, if k == 0 then p + 32 else p, Repeat(e, |v.vs|), v.vs)
  }

  /** The values of a tuple from p on. */
  ghost predicate TupleAt(data: seq<Byte>, p: nat, ts: seq<Ty>, vs: seq<Value>)
    decreases vs, 1
  {
    |ts| == |vs| && FirstAt(data, p, ts, vs, |ts|)
  }

  /** The first n of them: places among the heads are one after the other, and so are those behind them. */
  ghost predicate FirstAt(data: seq<Byte>, p: nat, ts: seq<Ty>, vs: seq<Value>, n: nat)
    requires n <= |ts| == |vs|
    decreases vs, 0, n
  {
    n > 0 ==>
      && FirstAt(data, p, ts, vs, n - 1)
      && PlacedAt(data, p, HeadSizes(ts[..n - 1]), HeadSizes(ts) + TailSizes(ts, vs, n - 1), ts[n - 1], vs[n - 1])
  }

  /**
    A static value stands at its place among the heads; for a dynamic one, there is the distance from p to
    its place behind the heads and the dynamic values before it.
   */
  ghost predicate PlacedAt(data: seq<Byte>, p: nat, at: nat, to: nat, t: Ty, v: Value)
    decreases v, 2
  {
    if IsDynamic(t) then NumberAt(data, p + at, to) && ValueAt(data, p + to, t, v) else ValueAt(data, p + at, t, v)
  }

  // ------------------------------------------------- the two accounts agree

  lemma NumberIs(data: seq<Byte>, p: nat, n: nat)
    requires n < Pow256(32)
    ensures NumberAt(data, p, n) <==> HoldsAt(data, p, BigEndian(n, 32))
  {
    BigEndianRoundTrip(n, 32);
    if NumberAt(data, p, n) {
      SameBytes(data[p..p + 32], BigEndian(n, 32));
    }
  }

  /** Lengths and offsets. */
  lemma LengthIs(data: seq<Byte>, p: nat, n: nat)
    requires n < TWO_64
    ensures NumberAt(data, p, n) <==> HoldsAt(data, p, U256(n))
  {
    U256Is(n);
    assert Pow256(8) == TWO_64;
    BytesAreBits(8);
    BytesAreBits(32);
    Pow2Grows(64, 256);
    NumberIs(data, p, n);
  }

  lemma ZerosAre(data: seq<Byte>, p: nat, k: nat)
    requires p <= |data|
    ensures HoldsAt(data, p, Zeros(k)) <==> ZerosAt(data, p, p + k)
  {
    if HoldsAt(data, p, Zeros(k)) {
      forall i | p <= i < p + k ensures data[i] == 0 {
        assert data[p..p + k][i - p] == Zeros(k)[i - p];
      }
    }
    if ZerosAt(data, p, p + k) {
      assert data[p..p + k] == Zeros(k);
    }
  }

  lemma IntWordIs(data: seq<Byte>, p: nat, i: int, m: nat)
    requires m == Pow256(32) && 0 - m <= i < m
    ensures SignedAt(data, p, i, m) <==> HoldsAt(data, p, IntWord(i))
  {
    Remainder(i, m, if i < 0 then -1 else 0, if i < 0 then m + i else i);
    NumberIs(data, p, if i < 0 then m + i else i);
  }

  lemma NumberRange(s: Scalar, v: Value) returns (m: nat)
    requires ScalarValue(s, v) && SupportedScalar(s) && (s.UInt? || s.Int?)
    ensures m == Pow256(32) && 0 - m <= v.i < m && (s.UInt? ==> v.i >= 0)
  {
    var k := 32;
    m := Pow256(k);
    BytesAreBits(k);
    Pow2Grows(if s.UInt? then s.bits else s.bits - 1, 8 * k);
  }

  lemma ScalarIs(data: seq<Byte>, p: nat, s: Scalar, v: Value)
    requires ScalarValue(s, v) && SupportedScalar(s)
    ensures ScalarAt(data, p, s, v) <==> HoldsAt(data, p, ScalarBytes(s, v))
  {
    match s
    case Bool =>
      NumberIs(data, p, if v.b then 1 else 0);
    case UInt(_) =>
      var m := NumberRange(s, v);
      IntWordIs(data, p, v.i, m);
    case Int(_) =>
      var m := NumberRange(s, v);
      IntWordIs(data, p, v.i, m);
    case Address =>
      HoldsConcat(data, p, Zeros(12), v.s);
      if p <= |data| {
        ZerosAre(data, p, 12);
      }
    case _ =>
      BytesThenZeros(data, p, v.s, 32 - |v.s|);
  }

  lemma BytesThenZeros(data: seq<Byte>, p: nat, s: seq<Byte>, k: nat)
    requires s != []
    ensures BytesAt(data, p, s) && ZerosAt(data, p + |s|, p + |s| + k) <==> HoldsAt(data, p, s + Zeros(k))
  {
    HoldsConcat(data, p, s, Zeros(k));
    if BytesAt(data, p, s) {
      ZerosAre(data, p + |s|, k);
    }
  }

  lemma PadIs(s: seq<Byte>)
    ensures Pad(s) == s + Zeros(RoundUp(|s|) - |s|)
  {
    var r := Pad(s);
    assert r == s + r[|s|..] && |r| == RoundUp(|s|);
    assert r[|s|..] == Zeros(RoundUp(|s|) - |s|);
  }

  lemma BlobIs(data: seq<Byte>, p: nat, s: seq<Byte>)
    requires |s| < TWO_64
    ensures BlobAt(data, p, s) <==> HoldsAt(data, p, U256(|s|) + Pad(s))
  {
    LengthIs(data, p, |s|);
    HoldsConcat(data, p, U256(|s|), Pad(s));
    if NumberAt(data, p, |s|) {
      PadIs(s);
      if s == [] {
        assert Pad(s) == [];
      } else {
        BytesThenZeros(data, p + 32, s, RoundUp(|s|) - |s|);
      }
    }
  }

  // ---- heads and tails

  /** HoldsAt, closed: HeldIs looks inside. */
  ghost predicate Held(data: seq<Byte>, p: nat, s: seq<Byte>) {
    forall d: seq<Byte> {:trigger HoldsAt(d, p, s)} :: d == data ==> HoldsAt(d, p, s)
  }

  lemma HeldIs(data: seq<Byte>, p: nat, s: seq<Byte>)
    ensures Held(data, p, s) <==> HoldsAt(data, p, s)
  {
  }

  lemma HeldConcat(data: seq<Byte>, p: nat, s1: seq<Byte>, s2: seq<Byte>, q: nat)
    requires q == p + |s1|
    ensures Held(data, p, s1) && Held(data, q, s2) <==> Held(data, p, s1 + s2)
  {
    HeldIs(data, p, s1);
    HeldIs(data, q, s2);
    HeldIs(data, p, s1 + s2);
    HoldsConcat(data, p, s1, s2);
  }

  /** The head and the tail of one component. */
  ghost predicate ItemHeld(data: seq<Byte>, p: nat, at: nat, to: nat, item: Item) {
    if item.dynamic then Held(data, p + at, U256(to)) && Held(data, p + to, item.enc)
    else Held(data, p + at, item.enc)
  }

  lemma LastIs(data: seq<Byte>, p: nat, items: seq<Item>, i: nat, h: nat)
    requires i < |items|
    ensures Held(data, p, Heads(items, i + 1, h)) && Held(data, p + h, Tails(items, i + 1)) <==>
            && Held(data, p, Heads(items, i, h)) && Held(data, p + h, Tails(items, i))
            && ItemHeld(data, p, HeadLength(items, i), h + |Tails(items, i)|, items[i])
  {
    var to := h + |Tails(items, i)|;
    HeadsLength(items, i, h);
    HeldConcat(data, p, Heads(items, i, h), if items[i].dynamic then U256(to) else items[i].enc,
               p + HeadLength(items, i));
    HeldConcat(data, p + h, Tails(items, i), if items[i].dynamic then items[i].enc else [], p + to);
    if !items[i].dynamic {
      HeldIs(data, p + to, []);
    }
  }

  /** The item has the size of the encoded value. */
  ghost predicate Matches(t: Ty, v: Value, item: Item) {
    item.dynamic == IsDynamic(t) && HeadSize(item) == TypeHeadSize(t) && |item.enc| == SizeOf(t, v)
  }

  ghost predicate AllMatch(ts: seq<Ty>, vs: seq<Value>, items: seq<Item>) {
    |ts| == |vs| == |items| && forall i {:trigger items[i]} :: 0 <= i < |ts| ==> Matches(ts[i], vs[i], items[i])
  }

  lemma {:induction false} SizesAre(ts: seq<Ty>, vs: seq<Value>, items: seq<Item>, n: nat)
    requires AllMatch(ts, vs, items) && n <= |ts|
    ensures HeadLength(items, n) == HeadSizes(ts[..n]) && |Tails(items, n)| == TailSizes(ts, vs, n)
  {
    if n > 0 {
      SizesAre(ts, vs, items, n - 1);
      HeadSizesStep(ts, n - 1);
      assert Matches(ts[n - 1], vs[n - 1], items[n - 1]);
    }
  }

  lemma TupleSizeIs(ts: seq<Ty>, vs: seq<Value>, items: seq<Item>)
    requires AllMatch(ts, vs, items)
    ensures |Tuple(items)| == TupleSize(ts, vs) && HeadLength(items, |items|) == HeadSizes(ts)
  {
    SizesAre(ts, vs, items, |items|);
    assert ts[..|items|] == ts;
    TupleLength(items);
  }

  lemma {:induction false} SizeIs(t: Ty, v: Value)
    requires HasType(t, v)
    ensures Matches(t, v, Item(IsDynamic(t), Enc(t, v)))
    decreases v
  {
    ItemHeadSize(t, v);
    match t
    case Word(_) =>
    case Blob(_) => PadIs(v.s);
    case Array(e, k) =>
      if IsDynamic(t) {
        var items, ts := Items(e, v.vs), Repeat(e, |v.vs|);
        forall i | 0 <= i < |items| ensures Matches(ts[i], v.vs[i], items[i]) {
          SizeIs(e, v.vs[i]);
        }
        TupleSizeIs(ts, v.vs, items);
      } else {
        StaticLength(t, v);
      }
  }

  /** The item is the encoding of the value, wherever it stands. */
  ghost predicate Alike(data: seq<Byte>, t: Ty, v: Value, item: Item) {
    && Matches(t, v, item)
    && forall q: nat {:trigger ValueAt(data, q, t, v)} :: ValueAt(data, q, t, v) <==> Held(data, q, item.enc)
  }

  ghost predicate AllAlike(data: seq<Byte>, ts: seq<Ty>, vs: seq<Value>, items: seq<Item>) {
    |ts| == |vs| == |items| && forall i {:trigger items[i]} :: 0 <= i < |ts| ==> Alike(data, ts[i], vs[i], items[i])
  }

  lemma AlikeMatch(data: seq<Byte>, ts: seq<Ty>, vs: seq<Value>, items: seq<Item>)
    requires AllAlike(data, ts, vs, items)
    ensures AllMatch(ts, vs, items)
  {
    forall i | 0 <= i < |ts| ensures Matches(ts[i], vs[i], items[i]) {
      assert Alike(data, ts[i], vs[i], items[i]);
    }
  }

  lemma PlacedIs(data: seq<Byte>, p: nat, at: nat, to: nat, t: Ty, v: Value, item: Item)
    requires Alike(data, t, v, item) && to < TWO_64
    ensures PlacedAt(data, p, at, to, t, v) <==> ItemHeld(data, p, at, to, item)
  {
    if IsDynamic(t) {
      LengthIs(data, p + at, to);
      HeldIs(data, p + at, U256(to));
    }
  }

  /** What the tuple says of one component. */
  lemma ComponentIs(data: seq<Byte>, p: nat, ts: seq<Ty>, vs: seq<Value>, items: seq<Item>, i: nat, h: nat)
    requires AllAlike(data, ts, vs, items) && i < |ts| && h == HeadSizes(ts) == HeadLength(items, |items|)
    requires |Tuple(items)| < TWO_64
    ensures PlacedAt(data, p, HeadSizes(ts[..i]), HeadSizes(ts) + TailSizes(ts, vs, i), ts[i], vs[i]) <==>
            ItemHeld(data, p, HeadLength(items, i), h + |Tails(items, i)|, items[i])
  {
    AlikeMatch(data, ts, vs, items);
    SizesAre(ts, vs, items, i);
    PartsFit(items, i);
    PlacedIs(data, p, HeadLength(items, i), h + |Tails(items, i)|, ts[i], vs[i], items[i]);
  }

  lemma {:induction false} FirstIs(data: seq<Byte>, p: nat, ts: seq<Ty>, vs: seq<Value>, items: seq<Item>, n: nat,
                                   h: nat)
    requires AllAlike(data, ts, vs, items) && n <= |ts| && h == HeadSizes(ts) == HeadLength(items, |items|)
    requires |Tuple(items)| < TWO_64
    ensures FirstAt(data, p, ts, vs, n) <==> Held(data, p, Heads(items, n, h)) && Held(data, p + h, Tails(items, n))
  {
    if n == 0 {
      HeldIs(data, p, []);
      HeldIs(data, p + h, []);
    } else {
      FirstIs(data, p, ts, vs, items, n - 1, h);
      ComponentIs(data, p, ts, vs, items, n - 1, h);
      LastIs(data, p, items, n - 1, h);
    }
  }

  lemma TupleIs(data: seq<Byte>, p: nat, ts: seq<Ty>, vs: seq<Value>, items: seq<Item>)
    requires AllAlike(data, ts, vs, items) && |Tuple(items)| < TWO_64
    ensures TupleAt(data, p, ts, vs) <==> Held(data, p, Tuple(items))
  {
    var n, h := |items|, HeadLength(items, |items|);
    AlikeMatch(data, ts, vs, items);
    TupleSizeIs(ts, vs, items);
    HeadsLength(items, n, h);
    HeldConcat(data, p, Heads(items, n, h), Tails(items, n), p + h);
    FirstIs(data, p, ts, vs, items, n, h);
  }

  /** The encoding of a value is what must stand where the value is, and nothing else is. */
  lemma {:induction false} ValueIs(data: seq<Byte>, t: Ty, v: Value)
    requires HasType(t, v) && Supported(t) && |Enc(t, v)| < TWO_64
    ensures Alike(data, t, v, Item(IsDynamic(t), Enc(t, v)))
    decreases v
  {
    SizeIs(t, v);
    match t
    case Word(s) =>
      ScalarWordIs(s, v);
      forall q: nat ensures ValueAt(data, q, t, v) <==> Held(data, q, Enc(t, v)) {
        HeldIs(data, q, Enc(t, v));
        ScalarIs(data, q, s, v);
      }
    case Blob(_) =>
      forall q: nat ensures ValueAt(data, q, t, v) <==> Held(data, q, Enc(t, v)) {
        HeldIs(data, q, Enc(t, v));
        BlobIs(data, q, v.s);
      }
    case Array(e, k) =>
      ArrayIs(data, t, v);
  }

  lemma ArrayIs(data: seq<Byte>, t: Ty, v: Value)
    requires t.Array? && HasType(t, v) && Supported(t) && |Enc(t, v)| < TWO_64
    ensures forall q: nat :: ValueAt(data, q, t, v) <==> Held(data, q, Enc(t, v))
    decreases v, 0
  {
    var items, ts := Items(t.elem, v.vs), Repeat(t.elem, |v.vs|);
    forall i | 0 <= i < |items| ensures Alike(data, ts[i], v.vs[i], items[i]) {
      PartsFit(items, i);
      ValueIs(data, t.elem, v.vs[i]);
    }
    if t.len == 0 {
      WordsTaken(t.elem);
      assert forall i :: 0 <= i < |items| ==> HeadSize(items[i]) == TypeHeadSize(ts[i]);
      CountFits(items, |items|);
      TupleLength(items);
    }
    forall q: nat ensures ValueAt(data, q, t, v) <==> Held(data, q, Enc(t, v)) {
      ElementsAre(data, q, t, v, items);
    }
  }

  lemma ElementsAre(data: seq<Byte>, q: nat, t: Ty, v: Value, items: seq<Item>)
    requires t.Array? && v.VArray? && AllAlike(data, Repeat(t.elem, |v.vs|), v.vs, items)
    requires |Tuple(items)| < TWO_64 && (t.len == 0 ==> |v.vs| < TWO_64)
    ensures ValueAt(data, q, t, v) <==> Held(data, q, (if t.len == 0 then U256(|v.vs|) else []) + Tuple(items))
  {
    TupleIs(data, if t.len == 0 then q + 32 else q, Repeat(t.elem, |v.vs|), v.vs, items);
    HeldConcat(data, q, if t.len == 0 then U256(|v.vs|) else [], Tuple(items), if t.len == 0 then q + 32 else q);
    if t.len == 0 {
      LengthIs(data, q, |v.vs|);
      HeldIs(data, q, U256(|v.vs|));
    } else {
      HeldIs(data, q, []);
    }
  }

  lemma {:induction false} CountFits(items: seq<Item>, n: nat)
    requires n <= |items| && forall i :: 0 <= i < |items| ==> HeadSize(items[i]) >= 32
    ensures n <= HeadLength(items, n)
  {
    if n > 0 {
      CountFits(items, n - 1);
    }
  }

  lemma {:induction false} WordsTaken(t: Ty)
    ensures !IsDynamic(t) ==> StaticSize(t) >= 32
  {
    if t.Array? && !IsDynamic(t) {
      WordsTaken(t.elem);
      Scaled(1, t.len, StaticSize(t.elem));
    }
  }
}
