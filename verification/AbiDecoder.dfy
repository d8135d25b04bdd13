/** The ABI decoder, reading back what the specification says an encoder writes. */
module AbiDecoder {
  import opened Octets
  import opened AbiTypes
  import opened AbiSpec
  import opened AbiLayout
  import opened AbiEncoder

  const TWO_63: nat := 0x8000_0000_0000_0000

  /** Most elements of dynamic type that 32-bit arithmetic on their positions allows. */
  const MAX_OFFSETS: nat := 0x400_0001

  /** The longest array of such elements that the decoder can step through with its 32-bit counter. */
  function MaxElements(e: Ty): nat {
    if IsDynamic(e) then MAX_OFFSETS else TWO_31 - 1
  }

  /** No array is longer than the decoder can step through. */
  predicate Readable(t: Ty, v: Value)
    decreases t
  {
    t.Array? && v.VArray? ==>
      |v.vs| <= MaxElements(t.elem) && forall i :: 0 <= i < |v.vs| ==> Readable(t.elem, v.vs[i])
  }

  // -------------------------------------------------------------- reading text

  function Least(a: nat, b: nat): nat {
    if a <= b then a else b
  }

  /** substr: cut off at the end of the data, None (an exception) beyond it. */
  function Substr(data: seq<Byte>, pos: nat, n: nat): (r: Option<seq<Byte>>)
    ensures r.Some? <==> pos <= |data|
    ensures r.Some? ==> r.value <= data[pos..] && |r.value| == if n <= |data| - pos then n else |data| - pos
    ensures forall s :: HoldsAt(data, pos, s) && 0 < |s| == n ==> r == Some(s)
  {
    if pos > |data| then None
    else Some(data[pos..if pos + n <= |data| then pos + n else |data|])
  }

  // ------------------------------------------------------------------- numbers

  lemma {:induction false} LeadingByte(s: seq<Byte>)
    requires s != []
    ensures s[0] * Pow256(|s| - 1) <= FromBigEndian(s) < (s[0] + 1) * Pow256(|s| - 1)
  {
    if |s| > 1 {
      LeadingByte(s[..|s| - 1]);
      NextByteBounds(s[0], Pow256(|s| - 2), FromBigEndian(s[..|s| - 1]), s[|s| - 1]);
    }
  }

  lemma NextByteBounds(b: nat, p: nat, m: nat, last: Byte)
    requires b * p <= m < (b + 1) * p
    ensures b * (256 * p) <= m * 256 + last < (b + 1) * (256 * p)
  {
    assert b * (256 * p) == 256 * (b * p) && (b + 1) * (256 * p) == 256 * ((b + 1) * p);
  }

  lemma HalfRange(k: nat)
    requires k > 0
    ensures 2 * Pow2(8 * k - 1) == Pow256(k) == Pow2(8 * k) && Pow2(8 * k - 1) == 128 * Pow256(k - 1)
  {
    BytesAreBits(k);
  }

  /** Two's complement when signed. */
  function FromBytes(signed: bool, s: seq<Byte>): int
    requires s != []
  {
    if signed && s[0] >= 128 then FromBigEndian(s) - Pow256(|s|) else FromBigEndian(s)
  }

  /** An n-bit number within k bytes reads back with its sign. */
  lemma FromBytesInverts(signed: bool, n: nat, i: int, k: nat)
    requires 0 < k && n <= 8 * k
    requires !signed ==> 0 <= i < Pow2(n)
    requires signed ==> n > 0 && 0 - Pow2(n - 1) <= i < Pow2(n - 1)
    ensures FromBytes(signed, BigEndian(i % Pow256(k), k)) == i
  {
    HalfRange(k);
    var w := BigEndian(i % Pow256(k), k);
    BigEndianRoundTrip(i % Pow256(k), k);
    LeadingByte(w);
    Pow2Grows(if signed then n - 1 else n, if signed then 8 * k - 1 else 8 * k);
    SignBit(w[0], Pow256(k - 1), FromBigEndian(w));
    SignedValue(signed, i, Pow2(8 * k - 1), FromBigEndian(w), w[0] >= 128);
  }

  /** Cutting a number to m bits changes its k-byte word exactly when it changes the number. */
  lemma CutWord(signed: bool, n: nat, i: int, m: nat, k: nat)
    requires 0 < k && n <= 8 * k && m < 8 * k
    requires if signed then n > 0 && 0 - Pow2(n - 1) <= i < Pow2(n - 1) else 0 <= i < Pow2(n)
    ensures BigEndian(i % Pow2(m) % Pow256(k), k) == BigEndian(i % Pow256(k), k) <==> 0 <= i < Pow2(m)
  {
    FromBytesInverts(signed, n, i, k);
    assert Pow2(m + 1 - 1) == Pow2(m);
    FromBytesInverts(signed, if signed then m + 1 else m, i % Pow2(m), k);
    if 0 <= i < Pow2(m) {
      Remainder(i, Pow2(m), 0, i);
    }
  }

  /** A JSON number passes through 64 unsigned bits, and is encoded as itself if and only if it fits them. */
  lemma NumberEncoded(s: Scalar, n: int)
    requires (s.UInt? || s.Int?) && SupportedScalar(s) && ScalarValue(s, VInt(n))
    ensures IntWord(n % TWO_64) == ScalarWord(s, VInt(n)) <==> 0 <= n < TWO_64
  {
    ScalarWordIs(s, VInt(n));
    var bits := SixtyFour();
    CutWord(s.Int?, s.bits, n, bits, 32);
  }

  lemma SixtyFour() returns (bits: nat)
    ensures bits < 256 && Pow2(bits) == TWO_64
  {
    bits := 64;
    BytesAreBits(8);
    assert Pow256(8) == TWO_64;
  }

  lemma SignedValue(signed: bool, i: int, half: nat, m: nat, high: bool)
    requires half > 0 && m == i % (2 * half) && (high <==> m >= half)
    requires if signed then 0 - half <= i < half else 0 <= i < 2 * half
    ensures i == if signed && high then m - 2 * half else m
  {
    Remainder(i, 2 * half, if i < 0 then -1 else 0, if i < 0 then i + 2 * half else i);
  }

  lemma SignBit(b: nat, p: nat, m: nat)
    requires b * p <= m < (b + 1) * p
    ensures b >= 128 <==> m >= 128 * p
  {
    if b >= 128 {
      Scaled(128, b, p);
    } else {
      Scaled(b + 1, 128, p);
    }
  }

  /** The last eight of 32 bytes; 0 with a warning for any other length. */
  method U256ToU64(s: seq<Byte>) returns (n: nat)
    ensures n < TWO_64
    ensures |s| == 32 ==> n == FromBigEndian(s[24..])
    ensures |s| != 32 ==> n == 0
  {
    n := 0;
    if |s| == 32 {
      var low := s[24..];
      for i := 0 to 8
        invariant n == FromBigEndian(low[..i]) * Pow256(8 - i)
      {
        ShiftIn(low, i, n);
        n := n + low[i] * Pow256(7 - i);
      }
      assert low[..8] == low;
      EightByteRange(low);
    }
  }

  lemma ShiftIn(low: seq<Byte>, i: nat, n: nat)
    requires i < 8 == |low| && n == FromBigEndian(low[..i]) * Pow256(8 - i)
    ensures n + low[i] * Pow256(7 - i) == FromBigEndian(low[..i + 1]) * Pow256(8 - (i + 1))
  {
    assert low[..i + 1][..i] == low[..i];
    var m, b, p := FromBigEndian(low[..i]), low[i], Pow256(7 - i);
    assert Pow256(8 - i) == 256 * p;
    assert m * (256 * p) + b * p == (m * 256 + b) * p;
  }

  lemma EightByteRange(low: seq<Byte>)
    requires |low| == 8
    ensures FromBigEndian(low) < TWO_64
  {
    LeadingByte(low);
    var b: nat, p := low[0], Pow256(7);
    assert (b + 1) * p <= 256 * p;
    assert Pow256(8) == TWO_64;
  }

  /** A length or offset reads back. */
  lemma LowBytes(w: seq<Byte>, n: nat)
    requires w == U256(n) && n < TWO_64
    ensures FromBigEndian(w[24..]) == n
  {
    U256Is(n);
    assert Pow256(2) == 0x10000 && Pow256(4) == 0x1_0000_0000 && Pow256(6) == 0x1_0000_0000_0000;
    assert Pow256(8) == TWO_64;
    LeadingZeros(n, 8, 24);
    assert w[24..] == BigEndian(n, 8);
    BigEndianRoundTrip(n, 8);
  }

  /** The number in the word at `pos`. */
  method ReadU64(data: seq<Byte>, pos: nat, ghost n: nat) returns (r: Option<nat>)
    ensures r.Some? ==> r.value < TWO_64
    ensures r.None? <==> pos > |data|
    ensures r.Some? ==> r.value == if pos + 32 <= |data| then FromBigEndian(data[pos + 24..pos + 32]) else 0
    ensures n < TWO_64 && HoldsAt(data, pos, U256(n)) ==> r == Some(n)
  {
    var word := Substr(data, pos, 32);
    if word.None? {
      return None;
    }
    var m := U256ToU64(word.value);
    if pos + 32 <= |data| {
      assert word.value[24..] == data[pos + 24..pos + 32];
    }
    if n < TWO_64 && HoldsAt(data, pos, U256(n)) {
      LowBytes(word.value, n);
    }
    r := Some(m);
  }

  // ------------------------------------------------------------ inside a tuple

  lemma {:induction false} HeadsHold(data: seq<Byte>, p: nat, items: seq<Item>, i: nat, n: nat, h: nat)
    requires i <= n <= |items| && HoldsAt(data, p, Heads(items, n, h))
    ensures HoldsAt(data, p, Heads(items, i, h))
    decreases n - i
  {
    if i < n {
      HoldsConcat(data, p, Heads(items, n - 1, h),
                  if items[n - 1].dynamic then U256(h + |Tails(items, n - 1)|) else items[n - 1].enc);
      HeadsHold(data, p, items, i, n - 1, h);
    }
  }

  lemma {:induction false} TailsHold(data: seq<Byte>, p: nat, items: seq<Item>, i: nat, n: nat)
    requires i <= n <= |items| && HoldsAt(data, p, Tails(items, n))
    ensures HoldsAt(data, p, Tails(items, i))
    decreases n - i
  {
    if i < n {
      HoldsConcat(data, p, Tails(items, n - 1), if items[n - 1].dynamic then items[n - 1].enc else []);
      TailsHold(data, p, items, i, n - 1);
    }
  }

  lemma TupleHolds(data: seq<Byte>, p: nat, items: seq<Item>)
    requires HoldsAt(data, p, Tuple(items))
    ensures HoldsAt(data, p, Heads(items, |items|, HeadLength(items, |items|)))
    ensures HoldsAt(data, p + HeadLength(items, |items|), Tails(items, |items|))
  {
    var h := HeadLength(items, |items|);
    HeadsLength(items, |items|, h);
    Apart(data, p, Heads(items, |items|, h), Tails(items, |items|), p + HeadLength(items, |items|));
  }

  lemma Apart(data: seq<Byte>, p: nat, s1: seq<Byte>, s2: seq<Byte>, q: nat)
    requires HoldsAt(data, p, s1 + s2) && q == p + |s1|
    ensures HoldsAt(data, p, s1) && HoldsAt(data, q, s2)
  {
    HoldsConcat(data, p, s1, s2);
  }

  /** Where a static component of a tuple stands. */
  lemma StaticAt(data: seq<Byte>, p: nat, items: seq<Item>, i: nat)
    requires i < |items| && HoldsAt(data, p, Tuple(items)) && !items[i].dynamic
    ensures HoldsAt(data, p + HeadLength(items, i), items[i].enc)
  {
    var h := HeadLength(items, |items|);
    TupleHolds(data, p, items);
    HeadsHold(data, p, items, i + 1, |items|, h);
    HeadsLength(items, i, h);
    Apart(data, p, Heads(items, i, h), items[i].enc, p + HeadLength(items, i));
  }

  /** Where the offset of a dynamic component stands. */
  lemma OffsetAt(data: seq<Byte>, p: nat, items: seq<Item>, i: nat, h: nat, at: nat)
    requires i < |items| && items[i].dynamic && HoldsAt(data, p, Heads(items, |items|, h))
             && at == p + HeadLength(items, i)
    ensures HoldsAt(data, at, U256(h + |Tails(items, i)|))
  {
    HeadsHold(data, p, items, i + 1, |items|, h);
    HeadsLength(items, i, h);
    Apart(data, p, Heads(items, i, h), U256(h + |Tails(items, i)|), at);
  }

  /** What that offset points to. */
  lemma DynamicAt(data: seq<Byte>, p: nat, items: seq<Item>, i: nat, at: nat)
    requires i < |items| && items[i].dynamic && HoldsAt(data, p, Tails(items, |items|)) && at == p + |Tails(items, i)|
    ensures HoldsAt(data, at, items[i].enc)
  {
    TailsHold(data, p, items, i + 1, |items|);
    Apart(data, p, Tails(items, i), items[i].enc, at);
  }

  /** Both: an offset, and the component it leads to. */
  lemma PointedAt(data: seq<Byte>, p: nat, items: seq<Item>, i: nat, at: nat) returns (offset: nat)
    requires i < |items| && items[i].dynamic && HoldsAt(data, p, Tuple(items)) && at == p + HeadLength(items, i)
    ensures HoldsAt(data, at, U256(offset)) && HoldsAt(data, p + offset, items[i].enc) && offset <= |Tuple(items)|
  {
    var h := HeadLength(items, |items|);
    offset := h + |Tails(items, i)|;
    TupleHolds(data, p, items);
    OffsetAt(data, p, items, i, h, at);
    DynamicAt(data, p + h, items, i, p + offset);
    PartsFit(items, i);
  }

  // ------------------------------------------------------------------- scalars

  /** Length of the text-level `bytes<N>`, 24 for a function, 32 otherwise. */
  function BytesSize(str: string): nat {
    if str == "function" then 24
    else if "bytes" <= str && |str| > 5 && forall i :: 5 <= i < |str| ==> '0' <= str[i] <= '9' then StoI(str[5..])
    else 32
  }

  lemma BytesSizeIs(n: nat)
    ensures BytesSize(ScalarName(FixedBytes(n))) == n
  {
    DecDigits(n);
    var str := ScalarName(FixedBytes(n));
    assert str[5..] == Dec(n);
    assert forall i :: 5 <= i < |str| ==> str[i] == Dec(n)[i - 5];
  }

  /**
    In a word that is cut off, a bit is false, and a number is read from outside the text; at the very
    end, a number is an empty text.
   */
  method DecodeNumber(t: Info, data: seq<Byte>, pos: nat, ghost s: Scalar, ghost v: Value) returns (r: Option<Value>)
    requires Reads(t, Word(s)) && (s.Bool? || s.UInt? || s.Int?) && SupportedScalar(s)
    ensures ScalarValue(s, v) && HoldsAt(data, pos, ScalarWord(s, v)) ==> r == Some(v)
    ensures pos + 32 <= |data| ==>
              r == Some(if s.Bool? then VBool(FromBigEndian(data[pos + 24..pos + 32]) > 0)
                        else VInt(FromBytes(s.Int?, data[pos..pos + 32])))
    ensures pos + 32 > |data| ==>
              r == if pos <= |data| && s.Bool? then Some(VBool(false))
                   else if pos == |data| then Some(VBytes([]))
                   else None
  {
    ReadsFacts(t, Word(s));
    assert t.str == Print(Word(s)) == ScalarName(s);
    ScalarNames(s);
    ghost var good := ScalarValue(s, v) && HoldsAt(data, pos, ScalarWord(s, v));
    if good {
      ScalarWordIs(s, v);
    }
    var word := Substr(data, pos, 32);
    if word.None? {
      return None;
    }
    if t.str == "bool" {
      var k := U256ToU64(word.value);
      if good {
        U256Is(if v.b then 1 else 0);
        LowBytes(word.value, if v.b then 1 else 0);
      }
      if pos + 32 <= |data| {
        assert word.value[24..] == data[pos + 24..pos + 32];
      }
      r := Some(VBool(k > 0));
    } else {
      var signed := t.str[0] != 'u';
      if |word.value| == 0 {
        return Some(VBytes([]));
      }
      if |word.value| != 32 {
        return None;
      }
      if good {
        FromBytesInverts(signed, s.bits, v.i, 32);
      }
      r := Some(VInt(FromBytes(signed, word.value)));
    }
  }

  method DecodeFixedBytes(t: Info, data: seq<Byte>, pos: nat, ghost s: Scalar, ghost v: Value)
    returns (r: Option<Value>)
    requires Reads(t, Word(s)) && !(s.Bool? || s.UInt? || s.Int?) && SupportedScalar(s)
    ensures ScalarValue(s, v) && HoldsAt(data, pos, ScalarWord(s, v)) ==> r == Some(v)
    ensures if s.Address? then AddressFrom(data, pos, r)
            else BytesFrom(data, pos, if s.FixedBytes? then s.size else 24, r)
  {
    ReadsFacts(t, Word(s));
    assert t.str == Print(Word(s)) == ScalarName(s);
    ScalarNames(s);
    if ScalarValue(s, v) {
      ScalarWordIs(s, v);
    }
    if t.str == "address" {
      r := DecodeAddress(data, pos, if ScalarValue(s, v) then v.s else Zeros(20));
    } else {
      if s.FixedBytes? {
        BytesSizeIs(s.size);
      }
      r := DecodeBytes(data, pos, BytesSize(t.str), if ScalarValue(s, v) then v.s else []);
    }
  }

  /** n bytes from pos on, or as many as there are. */
  ghost predicate BytesFrom(data: seq<Byte>, pos: nat, n: nat, r: Option<Value>) {
    if pos > |data| then r == None else r == Some(VBytes(data[pos..Least(pos + n, |data|)]))
  }

  /** The bytes after twelve. */
  ghost predicate AddressFrom(data: seq<Byte>, pos: nat, r: Option<Value>) {
    if pos + 12 > |data| then r == None else r == Some(VBytes(data[pos + 12..Least(pos + 32, |data|)]))
  }

  method DecodeAddress(data: seq<Byte>, pos: nat, ghost s: seq<Byte>) returns (r: Option<Value>)
    requires |s| == 20
    ensures AddressFrom(data, pos, r) && (HoldsAt(data, pos, Zeros(12) + s) ==> r == Some(VBytes(s)))
  {
    var word := Substr(data, pos, 32);
    if word.None? || |word.value| < 12 {
      return None;
    }
    assert word.value[12..] == data[pos + 12..Least(pos + 32, |data|)];
    r := Some(VBytes(word.value[12..]));
    if HoldsAt(data, pos, Zeros(12) + s) {
      assert (Zeros(12) + s)[12..] == s;
    }
  }

  method DecodeBytes(data: seq<Byte>, pos: nat, n: nat, ghost s: seq<Byte>) returns (r: Option<Value>)
    ensures BytesFrom(data, pos, n, r)
    ensures s != [] && n == |s| <= 32 && HoldsAt(data, pos, s + Zeros(32 - |s|)) ==> r == Some(VBytes(s))
  {
    if |s| <= 32 {
      HoldsConcat(data, pos, s, Zeros(32 - |s|));
    }
    var part := Substr(data, pos, n);
    r := if part.None? then None else Some(VBytes(part.value));
    if part.Some? {
      assert part.value == data[pos..Least(pos + n, |data|)];
    }
  }

  method DecodeBlob(data: seq<Byte>, pos: nat, ghost text: bool, ghost v: Value, ghost enc: seq<Byte>, ghost good: bool)
    returns (r: Option<Value>)
    requires good ==> Coded(Blob(text), v, enc) && HoldsAt(data, pos, enc)
    ensures good ==> r == Some(v)
    ensures pos + 32 > |data| ==> r == None
    ensures pos + 32 <= |data| ==>
              var n := FromBigEndian(data[pos + 24..pos + 32]);
              r == Some(VBytes(data[pos + 32..Least(pos + 32 + n, |data|)]))
  {
    ghost var n := 0;
    if good {
      Uncoded(Blob(text), v, enc);
      n := |v.s|;
      HoldsConcat(data, pos, U256(n), Pad(v.s));
      HoldsConcat(data, pos + 32, v.s, Pad(v.s)[n..]);
      assert Pad(v.s) == v.s + Pad(v.s)[n..];
    }
    var len := ReadU64(data, pos, n);
    if len.None? {
      return None;
    }
    var part := Substr(data, pos + 32, len.value);
    if part.None? {
      return None;
    }
    r := Some(VBytes(part.value));
  }

  // -------------------------------------------------------------------- arrays

  /** Nothing is read behind a static element of 2^32 bytes or more, whose size the code counts on 32 bits. */
  predicate Steady(t: Ty, v: Value)
    decreases t, 0
  {
    t.Array? && v.VArray? ==> SteadyElements(t.elem, v.vs)
  }

  predicate SteadyElements(e: Ty, vs: seq<Value>)
    decreases e, 1
  {
    && (forall i :: 0 <= i < |vs| ==> Steady(e, vs[i]))
    && (!IsDynamic(e) && StaticSize(e) >= TWO_32 ==> |vs| <= 1)
  }

  /** What the encoder handles, the decoder does, too. */
  lemma {:induction false} NarrowIsSteady(t: Ty, v: Value)
    requires HasType(t, v) && Narrow(t, v) && TypeHeadSize(t) < TWO_32
    ensures Steady(t, v)
    decreases t
  {
    if t.Array? {
      var e, vs := t.elem, v.vs;
      assert AllHaveType(e, vs);
      if vs != [] {
        NarrowStep(t, v);
        forall i | 0 <= i < |vs| ensures Steady(e, vs[i]) {
          assert HasType(e, vs[i]) && Narrow(e, vs[i]);
          NarrowIsSteady(e, vs[i]);
        }
      }
      assert SteadyElements(e, vs);
    }
  }

  lemma NarrowStep(t: Ty, v: Value)
    requires t.Array? && v.VArray? && v.vs != [] && Narrow(t, v) && TypeHeadSize(t) < TWO_32
    ensures TypeHeadSize(t.elem) < TWO_32 && forall i :: 0 <= i < |v.vs| ==> Narrow(t.elem, v.vs[i])
  {
    if !IsDynamic(t) {
      AtLeast(StaticSize(t.elem), 1, t.len);
    }
  }

  /** The values of an array encoded as a tuple at `pos`. */
  ghost predicate ArrayTupleAt(data: seq<Byte>, pos: nat, e: Ty, vs: seq<Value>, items: seq<Item>) {
    && Prepared(e, vs, items) && |Tuple(items)| < TWO_64 && HoldsAt(data, pos, Tuple(items))
    && SteadyElements(e, vs)
  }

  ghost predicate ReadableUpTo(e: Ty, vs: seq<Value>, n: nat)
    requires n <= |vs|
  {
    forall i {:trigger vs[i]} :: 0 <= i < n ==> Readable(e, vs[i])
  }

  method DecodeParam(t: Info, data: seq<Byte>, pos: nat, ghost ty: Ty, ghost v: Value, ghost enc: seq<Byte>,
                     ghost good: bool)
    returns (r: Option<Value>)
    requires Reads(t, ty) && Supported(ty) && |data| < TWO_64
    requires good ==> Coded(ty, v, enc) && HoldsAt(data, pos, enc) && Steady(ty, v)
    ensures good ==> r == if Readable(ty, v) then Some(v) else None
    decreases ty, 4
  {
    ReadsFacts(t, ty);
    if t.arrayKind != NoArray {
      r := DecodeArray(t, data, pos, ty, v, enc, good);
    } else if t.kind == DynamicSizeBytes || t.kind == Text {
      r := DecodeBlob(data, pos, ty.text, v, enc, good);
    } else {
      r := DecodeScalar(t, data, pos, ty.scalar, v, enc, good);
    }
  }

  method DecodeScalar(t: Info, data: seq<Byte>, pos: nat, ghost s: Scalar, ghost v: Value, ghost enc: seq<Byte>,
                      ghost good: bool)
    returns (r: Option<Value>)
    requires Reads(t, Word(s)) && SupportedScalar(s)
    requires good ==> Coded(Word(s), v, enc) && HoldsAt(data, pos, enc)
    ensures good ==> r == Some(v)
  {
    ReadsFacts(t, Word(s));
    if good {
      Uncoded(Word(s), v, enc);
    }
    if t.kind == Numerical {
      r := DecodeNumber(t, data, pos, s, v);
    } else {
      r := DecodeFixedBytes(t, data, pos, s, v);
    }
  }

  /** Both array branches: the length, from the type or the data, then the elements. */
  method DecodeArray(t: Info, data: seq<Byte>, pos: nat, ghost ty: Ty, ghost v: Value, ghost enc: seq<Byte>,
                     ghost good: bool)
    returns (r: Option<Value>)
    requires Reads(t, ty) && Supported(ty) && ty.Array? && |data| < TWO_64
    requires good ==> Coded(ty, v, enc) && HoldsAt(data, pos, enc) && Steady(ty, v)
    ensures good ==> r == if Readable(ty, v) then Some(v) else None
    decreases ty, 3
  {
    ReadsFacts(t, ty);
    ghost var items: seq<Item>, vs: seq<Value> := [], [];
    if good {
      items := ArrayParts(ty, v, enc);
      vs := v.vs;
      HoldsConcat(data, pos, if ty.len == 0 then U256(|vs|) else [], Tuple(items));
    }
    var len: int, at := t.arrayLen, pos;
    if t.arrayLen == 0 {
      var n := ReadU64(data, pos, |vs|);
      if n.None? {
        return None;
      }
      len := if n.value < TWO_63 then n.value else n.value - TWO_64;
      at := pos + 32;
      if len == 0 {
        return Some(VArray([]));
      }
    }
    var tp := ElementType(t, ty);
    var elems := DecodeElements(tp, data, at, len, ty.elem, vs, items, good);
    r := if elems.None? then None else Some(VArray(elems.value));
  }

  /** The three ways elements follow one another, by the type of the elements. */
  method DecodeElements(tp: Info, data: seq<Byte>, pos: nat, len: int,
                        ghost e: Ty, ghost vs: seq<Value>, ghost items: seq<Item>, ghost good: bool)
    returns (r: Option<seq<Value>>)
    requires Reads(tp, e) && Supported(e) && |data| < TWO_64
    requires good ==> ArrayTupleAt(data, pos, e, vs, items) && 0 < len == |vs|
    ensures good && ReadableUpTo(e, vs, |vs|) && len <= MaxElements(e) ==> r == Some(vs)
    ensures good && !(ReadableUpTo(e, vs, |vs|) && len <= MaxElements(e)) ==> r == None
    decreases e, 7
  {
    ReadsFacts(tp, e);
    if tp.arrayKind == NoArray && (tp.kind == Numerical || tp.kind == FixedSizeBytes) {
      r := DecodeStrided(tp, data, pos, len, 32, e, vs, items, good);
    } else if tp.arrayKind == FixedArray {
      var stride := HeadBytes(tp.str, e);
      r := DecodeStrided(tp, data, pos, len, stride, e, vs, items, good);
    } else {
      r := DecodeOffsets(tp, data, pos, len, e, vs, items, good);
    }
  }

  /** The element read next: its value if that is readable. */
  ghost predicate Gives(x: Option<Value>, e: Ty, v: Value) {
    x == if Readable(e, v) then Some(v) else None
  }

  /** Everything before element k has been read. */
  ghost predicate SoFar(out: seq<Value>, e: Ty, vs: seq<Value>, k: nat) {
    k <= |vs| && out == vs[..k] && ReadableUpTo(e, vs, k)
  }

  lemma OneFurther(out: seq<Value>, e: Ty, vs: seq<Value>, k: nat, x: Option<Value>)
    requires k < |vs| && SoFar(out, e, vs, k) && Gives(x, e, vs[k])
    ensures x.Some? ==> SoFar(out + [x.value], e, vs, k + 1)
    ensures x.Some? && k + 1 == |vs| ==> out + [x.value] == vs
    ensures x.None? ==> !ReadableUpTo(e, vs, |vs|)
  {
    assert k + 1 == |vs| ==> vs == vs[..k] + [vs[k]];
  }

  lemma NextStride(data: seq<Byte>, pos: nat, e: Ty, vs: seq<Value>, items: seq<Item>, k: nat)
    requires ArrayTupleAt(data, pos, e, vs, items) && k < |vs| && !IsDynamic(e) && |data| < TWO_64
    ensures HoldsAt(data, pos + HeadLength(items, k), items[k].enc)
    ensures HeadLength(items, k + 1) == HeadLength(items, k) + StaticSize(e)
    ensures pos + HeadLength(items, k + 1) < TWO_64
  {
    Uncoded(e, vs[k], items[k].enc);
    StaticLength(e, vs[k]);
    ElementsAreWords(e);
    StaticAt(data, pos, items, k);
  }

  method DecodeStatic(tp: Info, data: seq<Byte>, pos: nat, at: nat, ghost k: nat,
                      ghost e: Ty, ghost vs: seq<Value>, ghost items: seq<Item>, ghost good: bool)
    returns (x: Option<Value>)
    requires Reads(tp, e) && Supported(e) && !IsDynamic(e) && |data| < TWO_64
    requires good ==> ArrayTupleAt(data, pos, e, vs, items) && k < |vs| && at == pos + HeadLength(items, k)
    ensures good ==> Gives(x, e, vs[k]) && at + StaticSize(e) == pos + HeadLength(items, k + 1) < TWO_64
    decreases e, 5
  {
    if good {
      NextStride(data, pos, e, vs, items, k);
    }
    x := DecodeParam(tp, data, at, e, if good then vs[k] else VBool(false), if good then items[k].enc else [], good);
  }

  /** Static elements, each `stride` bytes after the one before. */
  method DecodeStrided(tp: Info, data: seq<Byte>, pos: nat, len: int, stride: nat,
                       ghost e: Ty, ghost vs: seq<Value>, ghost items: seq<Item>, ghost good: bool)
    returns (r: Option<seq<Value>>)
    requires Reads(tp, e) && Supported(e) && !IsDynamic(e) && |data| < TWO_64
    requires good ==> ArrayTupleAt(data, pos, e, vs, items) && 0 < len == |vs| && (stride == StaticSize(e) || len == 1)
    ensures good ==> r == if ReadableUpTo(e, vs, |vs|) && len < TWO_31 then Some(vs) else None
    decreases e, 6
  {
    var out: seq<Value>, at: nat, i := [], pos, 1;
    while i < len
      invariant 1 <= i < TWO_31
      invariant good ==> i <= len && SoFar(out, e, vs, i - 1) && at == pos + HeadLength(items, i - 1)
      decreases len - i
    {
      var x := DecodeStatic(tp, data, pos, at, i - 1, e, vs, items, good);
      if good {
        OneFurther(out, e, vs, i - 1, x);
      }
      if x.None? || i == TWO_31 - 1 {
        return None;
      }
      out, at, i := out + [x.value], (at + stride) % TWO_64, i + 1;
    }
    var x := DecodeStatic(tp, data, pos, at, i - 1, e, vs, items, good);
    if good {
      OneFurther(out, e, vs, i - 1, x);
    }
    r := if x.None? then None else Some(out + [x.value]);
  }

  /** Positions are counted modulo 2^64, which changes nothing inside the data. */
  lemma OffsetWordAt(data: seq<Byte>, pos: nat, at: nat, e: Ty, vs: seq<Value>, items: seq<Item>, k: nat)
    returns (offset: nat)
    requires ArrayTupleAt(data, pos, e, vs, items) && k < |vs| && IsDynamic(e) && |data| < TWO_64
    requires at == (pos + 32 * k) % TWO_64
    ensures offset < TWO_64 && HoldsAt(data, at, U256(offset))
    ensures (pos + offset) % TWO_64 == pos + offset && HoldsAt(data, pos + offset, items[k].enc)
  {
    UniformHeads(items, k, 32);
    offset := PointedAt(data, pos, items, k, pos + 32 * k);
    NonEmpty(e, vs[k], items[k].enc);
    assert pos + 32 * k < |data| && pos + offset < |data|;
  }

  /** The element that the offset at `at` points to. */
  method DecodePointed(tp: Info, data: seq<Byte>, pos: nat, at: nat, ghost k: nat,
                       ghost e: Ty, ghost vs: seq<Value>, ghost items: seq<Item>, ghost good: bool)
    returns (x: Option<Value>)
    requires Reads(tp, e) && Supported(e) && IsDynamic(e) && |data| < TWO_64
    requires good ==> ArrayTupleAt(data, pos, e, vs, items) && k < |vs| && at == (pos + 32 * k) % TWO_64
    ensures good ==> Gives(x, e, vs[k])
    decreases e, 5
  {
    ghost var to := 0;
    if good {
      to := OffsetWordAt(data, pos, at, e, vs, items, k);
    }
    var offset := ReadU64(data, at, to);
    if offset.None? {
      return None;
    }
    x := DecodeParam(tp, data, (pos + offset.value) % TWO_64, e,
                     if good then vs[k] else VBool(false), if good then items[k].enc else [], good);
  }

  lemma NonEmpty(t: Ty, v: Value, enc: seq<Byte>)
    requires Coded(t, v, enc) && IsDynamic(t)
    ensures enc != []
  {
    Uncoded(t, v, enc);
    if t.Array? {
      var items := Items(t.elem, v.vs);
      TupleLength(items);
      if t.len > 0 {
        UniformHeads(items, |items|, 32);
      }
    }
  }

  /** Dynamic elements, through offsets counted from `pos`. */
  method DecodeOffsets(tp: Info, data: seq<Byte>, pos: nat, len: int,
                       ghost e: Ty, ghost vs: seq<Value>, ghost items: seq<Item>, ghost good: bool)
    returns (r: Option<seq<Value>>)
    requires Reads(tp, e) && Supported(e) && IsDynamic(e) && |data| < TWO_64
    requires good ==> ArrayTupleAt(data, pos, e, vs, items) && 0 < len == |vs|
    ensures good ==> r == if ReadableUpTo(e, vs, |vs|) && len <= MAX_OFFSETS then Some(vs) else None
    decreases e, 6
  {
    var out: seq<Value>, i := [], 1;
    while i < len
      invariant i >= 1 && (i > 1 ==> 32 * (i - 2) < TWO_31)
      invariant good ==> i <= len && SoFar(out, e, vs, i - 1)
      decreases len - i
    {
      if 32 * (i - 1) >= TWO_31 {
        return None;
      }
      var x := DecodePointed(tp, data, pos, (pos + 32 * (i - 1)) % TWO_64, i - 1, e, vs, items, good);
      if good {
        OneFurther(out, e, vs, i - 1, x);
      }
      if x.None? || i == TWO_31 - 1 {
        return None;
      }
      out, i := out + [x.value], i + 1;
    }
    var last := 32 * (len - 1);
    if !(0 - TWO_63 <= last < TWO_63) {
      return None;
    }
    var x := DecodePointed(tp, data, pos, (pos + last) % TWO_64, if good then len - 1 else 0, e, vs, items, good);
    if good {
      OneFurther(out, e, vs, i - 1, x);
    }
    r := if x.None? then None else Some(out + [x.value]);
  }
}
