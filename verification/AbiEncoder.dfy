/**
  The in-place ABI encoder: a growing buffer, a cursor for heads and one for tails, which
  callers may pass as one and the same.
 */
module AbiEncoder {
  import opened Octets
  import opened AbiTypes
  import opened AbiSpec
  import opened AbiLayout

  const BUFFER_SIZE: nat := 2048

  class Cursor {
    var pos: nat

    constructor (pos: nat)
      ensures this.pos == pos
    {
      this.pos := pos;
    }
  }

  /** From b0 to b exactly s was written at p; the buffer may have grown. */
  ghost predicate Wrote(b0: seq<Byte>, b: seq<Byte>, p: nat, s: seq<Byte>) {
    && |b0| <= |b| && HoldsAt(b, p, s)
    && forall i :: 0 <= i < |b0| && !(p <= i < p + |s|) ==> b[i] == b0[i]
  }

  lemma WroteAppend(b0: seq<Byte>, b1: seq<Byte>, b2: seq<Byte>, p: nat, s1: seq<Byte>, s2: seq<Byte>)
    requires Wrote(b0, b1, p, s1) && Wrote(b1, b2, p + |s1|, s2)
    ensures Wrote(b0, b2, p, s1 + s2)
  {
    var s := s1 + s2;
    if s != [] {
      assert p + |s| <= |b2|;
      forall i | 0 <= i < |s| ensures b2[p + i] == s[i] {
        if i < |s1| {
          assert b1[p..p + |s1|][i] == s1[i];
        } else {
          assert b2[p + |s1|..p + |s1| + |s2|][i - |s1|] == s2[i - |s1|];
        }
      }
      assert b2[p..p + |s|] == s;
    }
  }

  class OutBuffer {
    var data: array<Byte>

    ghost function View(): seq<Byte>
      reads this, data
    {
      data[..]
    }

    /** New memory holds arbitrary bytes. */
    constructor ()
      ensures fresh(data) && data.Length == BUFFER_SIZE
    {
      data := new Byte[BUFFER_SIZE];
    }

    method CheckAndResize(pos: nat, size: nat)
      modifies this
      ensures data == old(data) || fresh(data)
      ensures pos + size <= data.Length && old(data.Length) <= data.Length
      ensures data[..old(data.Length)] == old(data[..])
    {
      var newSize := data.Length;
      while pos + size > newSize
        invariant newSize >= data.Length
      {
        newSize := newSize + BUFFER_SIZE;
      }
      if data.Length != newSize {
        var grown := new Byte[newSize];
        forall i | 0 <= i < data.Length {
          grown[i] := data[i];
        }
        data := grown;
      }
    }

    method CopyIn(pos: nat, s: seq<Byte>)
      requires pos + |s| <= data.Length
      modifies data
      ensures Wrote(old(View()), View(), pos, s)
    {
      forall i | 0 <= i < |s| {
        data[pos + i] := s[i];
      }
      assert data[pos..pos + |s|] == s;
    }

    method Put(pos: nat, s: seq<Byte>)
      modifies this, data
      ensures (data == old(data) || fresh(data)) && old(data.Length) <= data.Length
      ensures Wrote(old(View()), View(), pos, s)
    {
      CheckAndResize(pos, |s|);
      assert forall i :: 0 <= i < old(data.Length) ==> data[..old(data.Length)][i] == old(data[..])[i];
      CopyIn(pos, s);
    }
  }

  // -------------------------------------------------------------------- words

  method U64ToU256(n: nat) returns (w: seq<Byte>)
    ensures |w| == 32
    ensures n < TWO_64 ==> w == U256(n)
  {
    var bytes: seq<Byte> :=
      [n / 0x100000000000000 % 256, n / 0x1000000000000 % 256, n / 0x10000000000 % 256, n / 0x100000000 % 256,
       n / 0x1000000 % 256, n / 0x10000 % 256, n / 0x100 % 256, n % 256];
    w := Zeros(24) + bytes;
    if n < TWO_64 {
      assert Pow256(8) == TWO_64;
      LeadingZeros(n, 8, 24);
      EightBytes(n);
      U256Is(n);
    }
  }

  lemma EightBytes(n: nat)
    ensures BigEndian(n, 8) == [n / 0x100000000000000 % 256, n / 0x1000000000000 % 256, n / 0x10000000000 % 256,
                                n / 0x100000000 % 256, n / 0x1000000 % 256, n / 0x10000 % 256, n / 0x100 % 256, n % 256]
  {
    var n1 := n / 0x100;
    var n2 := n1 / 0x100;
    var n3 := n2 / 0x100;
    var n4 := n3 / 0x100;
    var n5 := n4 / 0x100;
    var n6 := n5 / 0x100;
    var n7 := n6 / 0x100;
    assert n2 == n / 0x10000 && n3 == n / 0x1000000 && n4 == n / 0x100000000;
    assert n5 == n / 0x10000000000 && n6 == n / 0x1000000000000 && n7 == n / 0x100000000000000;
    assert BigEndian(n6, 2) == [n7 % 256, n6 % 256];
    assert BigEndian(n4, 4) == [n7 % 256, n6 % 256, n5 % 256, n4 % 256];
    assert BigEndian(n2, 6) == [n7 % 256, n6 % 256, n5 % 256, n4 % 256, n3 % 256, n2 % 256];
  }

  // ------------------------------------------------------------ head sizes

  function ElementCount(t: Ty): nat {
    if t.Array? && !IsDynamic(t) then t.len * ElementCount(t.elem) else 1
  }

  lemma {:induction false} ElementsAreWords(t: Ty)
    requires !IsDynamic(t)
    ensures StaticSize(t) == 32 * ElementCount(t) && ElementCount(t) >= 1
  {
    if t.Array? {
      ElementsAreWords(t.elem);
      assert t.len * (32 * ElementCount(t.elem)) == 32 * (t.len * ElementCount(t.elem));
      assert t.len * ElementCount(t.elem) >= 1;
    }
  }

  ghost predicate SpellsAll(ss: seq<string>, ts: seq<Ty>) {
    |ss| == |ts| && forall i {:trigger Spells(ss[i], ts[i])} :: 0 <= i < |ts| ==> Spells(ss[i], ts[i])
  }

  /** Reducing a factor does not change a 32-bit product. */
  lemma ReduceFactor(c: nat, m: nat)
    ensures (c % TWO_32) * m % TWO_32 == c * m % TWO_32
  {
    var q, r := c / TWO_32, c % TWO_32;
    assert c * m == (q * TWO_32 + r) * m == (q * m) * TWO_32 + r * m;
    DropMultiple(r * m, q * m);
  }

  lemma DropMultiple(x: nat, k: nat)
    ensures (k * TWO_32 + x) % TWO_32 == x % TWO_32
  {
  }

  lemma ReduceTerms(x: nat, y: nat)
    ensures (x % TWO_32 + y % TWO_32) % TWO_32 == (x + y) % TWO_32
  {
    var k := x / TWO_32 + y / TWO_32;
    assert x + y == k * TWO_32 + (x % TWO_32 + y % TWO_32);
    DropMultiple(x % TWO_32 + y % TWO_32, k);
  }

  lemma ProductStep(count: nat, len: nat, more: nat)
    ensures (count * len % TWO_32) * more % TWO_32 == count * (len * more) % TWO_32
  {
    ReduceFactor(count * len, more);
    assert count * len * more == count * (len * more);
  }

  /** The number of elements of a static array, by stripping suffixes; a 32-bit product. */
  method CountElements(info: Info, ghost t: Ty) returns (count: nat)
    requires Reads(info, t) && !IsDynamic(t)
    ensures count == ElementCount(t) % TWO_32
  {
    var cur := info;
    ghost var rest := t;
    count := 1;
    ReadsFacts(cur, rest);
    while cur.arrayKind == FixedArray
      invariant Reads(cur, rest) && !IsDynamic(rest) && (cur.arrayKind == FixedArray <==> rest.Array?)
      invariant rest.Array? ==> cur.arrayLen == rest.len
      invariant count < TWO_32 && count * ElementCount(rest) % TWO_32 == ElementCount(t) % TWO_32
      decreases rest
    {
      ProductStep(count, rest.len, ElementCount(rest.elem));
      count := count * cur.arrayLen % TWO_32;
      cur := ElementType(cur, rest);
      rest := rest.elem;
      ReadsFacts(cur, rest);
    }
  }

  /** What one parameter adds to the head section, on 32 bits. */
  method HeadBytes(param: string, ghost t: Ty) returns (size: nat)
    requires Spells(param, t)
    ensures size == TypeHeadSize(t) % TWO_32
  {
    size := 32;
    var info := ReadType(param, t);
    ReadsFacts(info, t);
    if info.arrayKind == FixedArray {
      ElementsAreWords(t);
      var count := CountElements(info, t);
      ReduceFactor(ElementCount(t), 32);
      size := 32 * count % TWO_32;
    }
  }

  /** The total head size of a parameter list, on 32 bits. */
  method CalculateOffset(params: seq<string>, ghost ts: seq<Ty>) returns (offset: nat)
    requires SpellsAll(params, ts)
    ensures offset == HeadSizes(ts) % TWO_32
  {
    offset := 0;
    for i := 0 to |params|
      invariant offset == HeadSizes(ts[..i]) % TWO_32
    {
      HeadSizesStep(ts, i);
      var size := HeadBytes(params[i], ts[i]);
      ReduceTerms(HeadSizes(ts[..i]), TypeHeadSize(ts[i]));
      offset := (offset + size) % TWO_32;
    }
    assert ts[..|params|] == ts;
  }

  // ------------------------------------------------------------------ scalars

  predicate StandsAt(s: string, part: string, i: nat) {
    i + |part| <= |s| && s[i..i + |part|] == part
  }

  predicate Contains(s: string, part: string) {
    exists i :: 0 <= i <= |s| && StandsAt(s, part, i)
  }

  /** The names the code compares with tell scalar types apart. */
  lemma ScalarNames(s: Scalar)
    ensures ScalarName(s) == "bool" <==> s.Bool?
    ensures ScalarName(s) == "address" <==> s.Address?
    ensures s.UInt? || s.Int? ==> Contains(ScalarName(s), "int")
    ensures s.UInt? ==> ScalarName(s)[0] == 'u'
    ensures s.Int? ==> ScalarName(s)[0] == 'i'
  {
    match s
    case UInt(n) =>
      assert StandsAt(ScalarName(s), "int", 1);
      assert ScalarName(s)[0] == 'u';
    case Int(n) =>
      assert StandsAt(ScalarName(s), "int", 0);
      assert ScalarName(s)[0] == 'i';
    case FixedBytes(n) =>
      DecDigits(n);
      assert ScalarName(s)[0] == 'b' && ScalarName(s)[1] == 'y';
    case _ =>
  }

  /** The values that the code takes for a scalar, whether or not they are of its type. */
  predicate Takes(s: Scalar, v: Value) {
    match s
    case Bool => v.VBool?
    case Address => v.VBytes? && |v.s| == 20
    case FixedBytes(_) => v.VBytes? && |v.s| <= 32
    case Function => v.VBytes? && |v.s| <= 32
    case _ => v.VInt? || v.VNumber?
  }

  /** The word for a value outside any array; None where the code only warns. */
  method EncodeScalar(t: Info, v: Value, ghost s: Scalar) returns (r: Option<seq<Byte>>)
    requires Reads(t, Word(s))
    ensures r.Some? ==> |r.value| == 32
    ensures ScalarValue(s, v) ==> r == Some(ScalarWord(s, v))
    ensures (s.UInt? || s.Int?) && v.VNumber? ==> r == Some(IntWord(v.n % TWO_64))
    ensures ScalarValue(s, v) && SupportedScalar(s) ==> r.Some? && ScalarAt(r.value, 0, s, v)
    ensures r.Some? <==> Takes(s, v)
    ensures v.VBytes? && Takes(s, v) ==>
              r.value == if s.Address? then Zeros(12) + v.s else v.s + Zeros(32 - |v.s|)
    ensures v.VInt? && Takes(s, v) ==> r.value == IntWord(if s.UInt? && v.i < 0 then -v.i else v.i)
  {
    ReadsFacts(t, Word(s));
    assert t.str == Print(Word(s)) == ScalarName(s);
    ScalarNames(s);
    if ScalarValue(s, v) {
      ScalarWordIs(s, v);
    }
    r := None;
    if t.kind == FixedSizeBytes {
      if v.VBytes? && |v.s| <= 32 {
        if t.str != "address" {
          r := Some(v.s + Zeros(32 - |v.s|));
        } else if |v.s| == 20 {
          r := Some(Zeros(12) + v.s);
        }
      }
    } else if t.str == "bool" {
      if v.VBool? {
        var word := U64ToU256(if v.b then 1 else 0);
        U256Is(if v.b then 1 else 0);
        r := Some(word);
      }
    } else if Contains(t.str, "int") {
      if v.VInt? {
        var signed := t.str[0] != 'u';
        r := Some(IntWord(if signed || v.i >= 0 then v.i else -v.i));
      } else if v.VNumber? {
        r := Some(IntWord(v.n % TWO_64));
      }
    }
    if ScalarValue(s, v) && SupportedScalar(s) {
      ScalarIs(r.value, 0, s, v);
    }
  }

  // -------------------------------------------------------------- the encoder

  /** Two regions of a tuple under construction: heads from base on, tails h bytes further. */
  ghost predicate Laid(b0: seq<Byte>, b: seq<Byte>, base: nat, h: nat, heads: seq<Byte>, tails: seq<Byte>) {
    && |b0| <= |b| && |heads| <= h && HoldsAt(b, base, heads) && HoldsAt(b, base + h, tails)
    && forall i :: 0 <= i < |b0| && !(base <= i < base + h + |tails|) ==> b[i] == b0[i]
  }

  lemma LaidHead(b0: seq<Byte>, b1: seq<Byte>, b2: seq<Byte>, base: nat, h: nat, heads: seq<Byte>, tails: seq<Byte>,
                 w: seq<Byte>)
    requires Laid(b0, b1, base, h, heads, tails) && |heads| + |w| <= h && Wrote(b1, b2, base + |heads|, w)
    ensures Laid(b0, b2, base, h, heads + w, tails)
  {
    WroteKeeps(b1, b2, base + |heads|, w, base + h, tails);
    HoldsTwo(b1, b2, base, heads, w);
  }

  lemma LaidTail(b0: seq<Byte>, b1: seq<Byte>, b2: seq<Byte>, base: nat, h: nat, heads: seq<Byte>, tails: seq<Byte>,
                 x: seq<Byte>)
    requires Laid(b0, b1, base, h, heads, tails) && Wrote(b1, b2, base + h + |tails|, x)
    ensures Laid(b0, b2, base, h, heads, tails + x)
  {
    WroteKeeps(b1, b2, base + h + |tails|, x, base, heads);
    HoldsTwo(b1, b2, base + h, tails, x);
  }

  /** Bytes outside what was written stay. */
  lemma WroteKeeps(b1: seq<Byte>, b2: seq<Byte>, p: nat, s: seq<Byte>, q: nat, x: seq<Byte>)
    requires Wrote(b1, b2, p, s) && HoldsAt(b1, q, x) && (q + |x| <= p || p + |s| <= q)
    ensures HoldsAt(b2, q, x)
  {
    if x != [] {
      forall i | 0 <= i < |x| ensures b2[q + i] == x[i] {
        assert b1[q..q + |x|][i] == x[i];
      }
      assert b2[q..q + |x|] == x;
    }
  }

  lemma HoldsTwo(b1: seq<Byte>, b2: seq<Byte>, p: nat, s1: seq<Byte>, s2: seq<Byte>)
    requires HoldsAt(b1, p, s1) && Wrote(b1, b2, p + |s1|, s2)
    ensures HoldsAt(b2, p, s1 + s2)
  {
    WroteKeeps(b1, b2, p + |s1|, s2, p, s1);
    HoldsConcat(b2, p, s1, s2);
  }

  lemma LaidIsWrote(b0: seq<Byte>, b: seq<Byte>, base: nat, h: nat, heads: seq<Byte>, tails: seq<Byte>)
    requires Laid(b0, b, base, h, heads, tails) && |heads| == h
    ensures Wrote(b0, b, base, heads + tails)
  {
    HoldsConcat(b, base, heads, tails);
  }

  /** `enc` is the encoding of v, within 64-bit offsets; Uncoded looks inside. */
  ghost predicate Coded(t: Ty, v: Value, enc: seq<Byte>) {
    |enc| < TWO_64 && forall x: Ty {:trigger HasType(x, v)} :: x == t ==> HasType(x, v) && enc == Enc(x, v)
  }

  lemma Uncoded(t: Ty, v: Value, enc: seq<Byte>)
    requires Coded(t, v, enc)
    ensures HasType(t, v) && enc == Enc(t, v)
  {
    assert HasType(t, v);
  }

  /** `items` are the encoded values, each within bounds. */
  ghost predicate Prepared(e: Ty, vs: seq<Value>, items: seq<Item>) {
    |items| == |vs| && forall i {:trigger items[i]} :: 0 <= i < |vs| ==>
      items[i].dynamic == IsDynamic(e) && Coded(e, vs[i], items[i].enc)
  }

  // ---- pure steps

  lemma NextElement(b0: seq<Byte>, b1: seq<Byte>, b2: seq<Byte>, start: nat, items: seq<Item>, i: nat, p: nat)
    requires i < |items| && !items[i].dynamic && p == start + |Heads(items, i, 0)|
    requires Wrote(b0, b1, start, Heads(items, i, 0)) && Wrote(b1, b2, p, items[i].enc)
    ensures Wrote(b0, b2, start, Heads(items, i + 1, 0))
    ensures |Heads(items, i + 1, 0)| == |Heads(items, i, 0)| + |items[i].enc|
  {
    WroteAppend(b0, b1, b2, start, Heads(items, i, 0), items[i].enc);
  }

  /** The next offset word, written at p, and the value it points to, written at q. */
  lemma NextOffset(b0: seq<Byte>, b1: seq<Byte>, b2: seq<Byte>, b3: seq<Byte>, start: nat, items: seq<Item>, i: nat,
                   h: nat, p: nat, q: nat)
    requires i < |items| && items[i].dynamic && |Heads(items, i, h)| + 32 <= h
    requires Laid(b0, b1, start, h, Heads(items, i, h), Tails(items, i))
    requires p == start + |Heads(items, i, h)| && q == start + h + |Tails(items, i)|
    requires Wrote(b1, b2, p, U256(h + |Tails(items, i)|)) && Wrote(b2, b3, q, items[i].enc)
    ensures Laid(b0, b3, start, h, Heads(items, i + 1, h), Tails(items, i + 1))
    ensures |Heads(items, i + 1, h)| == |Heads(items, i, h)| + 32
    ensures |Tails(items, i + 1)| == |Tails(items, i)| + |items[i].enc|
  {
    LaidBoth(b0, b1, b2, b3, start, h, Heads(items, i, h), Tails(items, i), U256(h + |Tails(items, i)|), items[i].enc);
  }

  lemma LaidBoth(b0: seq<Byte>, b1: seq<Byte>, b2: seq<Byte>, b3: seq<Byte>, start: nat, h: nat,
                 heads: seq<Byte>, tails: seq<Byte>, word: seq<Byte>, x: seq<Byte>)
    requires Laid(b0, b1, start, h, heads, tails) && |heads| + |word| <= h
    requires Wrote(b1, b2, start + |heads|, word) && Wrote(b2, b3, start + h + |tails|, x)
    ensures Laid(b0, b3, start, h, heads + word, tails + x)
  {
    LaidHead(b0, b1, b2, start, h, heads, tails, word);
    LaidTail(b0, b2, b3, start, h, heads + word, tails, x);
  }

  lemma OffsetFits(items: seq<Item>, i: nat, h: nat)
    requires i < |items| && items[i].dynamic && h == HeadLength(items, |items|) && |Tuple(items)| < TWO_64
    ensures h + |Tails(items, i)| < TWO_64
    ensures HeadLength(items, i) + 32 <= h && |Heads(items, i, h)| == HeadLength(items, i)
  {
    PartsFit(items, i);
    HeadsLength(items, i, h);
    LayoutGrows(items, i + 1, |items|);
  }

  lemma {:induction false} StaticHeads(items: seq<Item>, n: nat, h: nat, h': nat)
    requires n <= |items| && forall i :: 0 <= i < |items| ==> !items[i].dynamic
    ensures Heads(items, n, h) == Heads(items, n, h')
  {
    if n > 0 {
      StaticHeads(items, n - 1, h, h');
    }
  }

  lemma StaticTuple(items: seq<Item>)
    requires forall i :: 0 <= i < |items| ==> !items[i].dynamic
    ensures Tuple(items) == Heads(items, |items|, 0)
  {
    NoTails(items, |items|);
    StaticHeads(items, |items|, 0, HeadLength(items, |items|));
  }

  lemma DynamicTuple(items: seq<Item>, h: nat)
    requires (forall i :: 0 <= i < |items| ==> items[i].dynamic) && h == 32 * |items|
    ensures HeadLength(items, |items|) == h && |Heads(items, |items|, h)| == h
    ensures Tuple(items) == Heads(items, |items|, h) + Tails(items, |items|)
  {
    UniformHeads(items, |items|, 32);
    HeadsLength(items, |items|, h);
  }

  lemma StaticTupleLength(e: Ty, vs: seq<Value>, items: seq<Item>)
    requires Prepared(e, vs, items) && !IsDynamic(e)
    ensures |Tuple(items)| == |vs| * StaticSize(e)
  {
    forall i | 0 <= i < |items| ensures HeadSize(items[i]) == StaticSize(e) {
      Uncoded(e, vs[i], items[i].enc);
      StaticLength(e, vs[i]);
    }
    UniformHeads(items, |items|, StaticSize(e));
    NoTails(items, |items|);
    TupleLength(items);
  }

  /** What a well-typed array value consists of. */
  lemma ArrayParts(t: Ty, v: Value, enc: seq<Byte>) returns (items: seq<Item>)
    requires t.Array? && Coded(t, v, enc)
    ensures v.VArray? && (t.len == 0 || |v.vs| == t.len) && 32 * |v.vs| <= |Tuple(items)|
    ensures Prepared(t.elem, v.vs, items) && |Tuple(items)| < TWO_64
    ensures enc == (if t.len == 0 then U256(|v.vs|) else []) + Tuple(items)
  {
    Uncoded(t, v, enc);
    items := Items(t.elem, v.vs);
    forall i | 0 <= i < |items| ensures Coded(t.elem, v.vs[i], items[i].enc) {
      PartsFit(items, i);
    }
    WordsAtLeast(t.elem, v.vs, items);
  }

  /** Every element takes at least a word, so that 64-bit lengths bound the number of elements. */
  lemma WordsAtLeast(e: Ty, vs: seq<Value>, items: seq<Item>)
    requires Prepared(e, vs, items)
    ensures 32 * |vs| <= |Tuple(items)|
  {
    var size := if IsDynamic(e) then 32 else StaticSize(e);
    forall i | 0 <= i < |items| ensures HeadSize(items[i]) == size {
      if !IsDynamic(e) {
        Uncoded(e, vs[i], items[i].enc);
        StaticLength(e, vs[i]);
      }
    }
    if !IsDynamic(e) {
      ElementsAreWords(e);
    }
    UniformHeads(items, |items|, size);
    TupleLength(items);
    AtLeast(|items|, 32, size);
  }

  lemma AtLeast(n: nat, m: nat, size: nat)
    requires m <= size
    ensures m * n <= n * size
  {
  }

  // ---- how far the tail cursor moves

  /**
    By how much the code moves the tail cursor for a dynamic value of any kind: a value of the wrong
    type is skipped, and the size of static elements is counted on 32 bits.
   */
  function Advance(t: Ty, v: Value): nat
    decreases t, 1
  {
    match t
    case Word(_) => 0
    case Blob(_) => if v.VBytes? then 32 + |Pad(v.s)| else 0
    case Array(e, k) =>
      if !IsDynamic(t) || !v.VArray? || (k != 0 && |v.vs| != k) then 0
      else (if k == 0 then 32 else 0) + AdvanceTuple(e, v.vs)
  }

  function AdvanceTuple(e: Ty, vs: seq<Value>): nat
    decreases e, 3
  {
    if IsDynamic(e) then 32 * |vs| + AdvanceAll(e, vs, |vs|) else |vs| * (StaticSize(e) % TWO_32)
  }

  function AdvanceAll(e: Ty, vs: seq<Value>, n: nat): nat
    requires n <= |vs|
    decreases e, 2, n
  {
    if n == 0 then 0 else AdvanceAll(e, vs, n - 1) + Advance(e, vs[n - 1])
  }

  /** No dynamic array that holds anything, at any depth, has static elements of 2^32 bytes or more. */
  predicate Narrow(t: Ty, v: Value)
    decreases t, 0
  {
    t.Array? && IsDynamic(t) && v.VArray? ==> NarrowElements(t.elem, v.vs)
  }

  predicate NarrowElements(e: Ty, vs: seq<Value>)
    decreases e, 1
  {
    if IsDynamic(e) then forall i :: 0 <= i < |vs| ==> Narrow(e, vs[i]) else vs == [] || StaticSize(e) < TWO_32
  }

  /** The cursor moves at most as far as the encoding is long, and exactly as far if and only if the value is narrow. */
  lemma {:induction false} AdvanceIsLength(t: Ty, v: Value, enc: seq<Byte>)
    requires Coded(t, v, enc) && IsDynamic(t)
    ensures Advance(t, v) <= |enc|
    ensures Advance(t, v) == |enc| <==> Narrow(t, v)
    decreases t, 1
  {
    if t.Array? {
      var items := ArrayParts(t, v, enc);
      AdvanceTupleIsLength(t.elem, v.vs, items);
    } else {
      Uncoded(t, v, enc);
    }
  }

  lemma {:induction false} AdvanceTupleIsLength(e: Ty, vs: seq<Value>, items: seq<Item>)
    requires Prepared(e, vs, items)
    ensures AdvanceTuple(e, vs) <= |Tuple(items)|
    ensures AdvanceTuple(e, vs) == |Tuple(items)| <==> NarrowElements(e, vs)
    decreases e, 3
  {
    if IsDynamic(e) {
      TupleLength(items);
      UniformHeads(items, |items|, 32);
      AdvanceAllIsLength(e, vs, items, |items|);
    } else {
      StaticTupleLength(e, vs, items);
      AdvanceStatic(|vs|, StaticSize(e));
    }
  }

  lemma AdvanceStatic(n: nat, size: nat)
    ensures n * (size % TWO_32) <= n * size
    ensures n * (size % TWO_32) == n * size <==> n == 0 || size < TWO_32
  {
    if size >= TWO_32 {
      Shorter(n, size % TWO_32, size);
    }
  }

  lemma Shorter(n: nat, x: nat, y: nat)
    requires x < y
    ensures n * x <= n * y && (n > 0 ==> n * x < n * y)
  {
    assert n * y == n * x + n * (y - x);
  }

  ghost predicate NarrowUpTo(e: Ty, vs: seq<Value>, n: nat)
    requires n <= |vs|
  {
    forall i :: 0 <= i < n ==> Narrow(e, vs[i])
  }

  lemma {:induction false} AdvanceAllIsLength(e: Ty, vs: seq<Value>, items: seq<Item>, n: nat)
    requires Prepared(e, vs, items) && IsDynamic(e) && n <= |vs|
    ensures AdvanceAll(e, vs, n) <= |Tails(items, n)|
    ensures AdvanceAll(e, vs, n) == |Tails(items, n)| <==> NarrowUpTo(e, vs, n)
    decreases e, 2, n
  {
    if n > 0 {
      var v, enc := vs[n - 1], items[n - 1].enc;
      AdvanceAllIsLength(e, vs, items, n - 1);
      AdvanceIsLength(e, v, enc);
      TailsNext(items, n, enc);
      NarrowNext(e, vs, n);
      BothExact(AdvanceAll(e, vs, n - 1), |Tails(items, n - 1)|, Advance(e, v), |enc|);
    }
  }

  lemma TailsNext(items: seq<Item>, n: nat, enc: seq<Byte>)
    requires 0 < n <= |items| && items[n - 1] == Item(true, enc)
    ensures |Tails(items, n)| == |Tails(items, n - 1)| + |enc|
  {
  }

  lemma BothExact(a: nat, b: nat, c: nat, d: nat)
    requires a <= b && c <= d
    ensures a + c <= b + d && (a + c == b + d <==> a == b && c == d)
  {
  }

  lemma NarrowNext(e: Ty, vs: seq<Value>, n: nat)
    requires 0 < n <= |vs|
    ensures NarrowUpTo(e, vs, n) <==> NarrowUpTo(e, vs, n - 1) && Narrow(e, vs[n - 1])
  {
  }

  // ---- the methods

  /**
    Encodes one value: a static one at the head cursor, a dynamic one at the tail cursor.  A value
    of the wrong type is skipped with a warning.  When `good`, `enc` is the encoding of v, and v is narrow.
   */
  method EncodeParam(t: Info, v: Value, buf: OutBuffer, head: Cursor, tail: Cursor,
                     ghost ty: Ty, ghost enc: seq<Byte>, ghost good: bool)
    requires Reads(t, ty) && Supported(ty) && (!IsDynamic(ty) ==> head != tail)
    requires good ==> Coded(ty, v, enc) && Narrow(ty, v)
    modifies buf, buf.data, head, tail
    ensures (buf.data == old(buf.data) || fresh(buf.data)) && old(buf.data.Length) <= buf.data.Length
    ensures !IsDynamic(ty) ==> old(head.pos) <= head.pos <= old(head.pos) + StaticSize(ty) && tail.pos == old(tail.pos)
    ensures IsDynamic(ty) ==> tail.pos == old(tail.pos) + Advance(ty, v) && (head != tail ==> head.pos == old(head.pos))
    ensures !IsDynamic(ty) && good ==>
              Wrote(old(buf.View()), buf.View(), old(head.pos), enc) && head.pos == old(head.pos) + |enc|
    ensures IsDynamic(ty) && good ==>
              Wrote(old(buf.View()), buf.View(), old(tail.pos), enc) && Advance(ty, v) == |enc|
    decreases ty, 2
  {
    ReadsFacts(t, ty);
    if t.arrayKind == FixedArray {
      EncodeFixedArray(t, v, buf, head, tail, ty, enc, good);
    } else if t.arrayKind == DynamicArray {
      EncodeDynamicArray(t, v, buf, tail, ty, enc, good);
    } else if t.kind == Text || t.kind == DynamicSizeBytes {
      EncodeBlob(v, buf, tail, ty, enc, good);
    } else {
      EncodeWord(t, v, buf, head, ty.scalar, enc, good);
    }
  }

  method EncodeWord(t: Info, v: Value, buf: OutBuffer, head: Cursor, ghost s: Scalar, ghost enc: seq<Byte>,
                    ghost good: bool)
    requires Reads(t, Word(s)) && (good ==> Coded(Word(s), v, enc))
    modifies buf, buf.data, head
    ensures (buf.data == old(buf.data) || fresh(buf.data)) && old(buf.data.Length) <= buf.data.Length
    ensures old(head.pos) <= head.pos <= old(head.pos) + 32
    ensures good ==> Wrote(old(buf.View()), buf.View(), old(head.pos), enc) && head.pos == old(head.pos) + |enc|
  {
    if good {
      Uncoded(Word(s), v, enc);
    }
    var word := EncodeScalar(t, v, s);
    if word.Some? {
      buf.Put(head.pos, word.value);
      head.pos := head.pos + 32;
    }
  }

  /** An array of fixed length and static elements, in the heads. */
  method EncodeFixedArray(t: Info, v: Value, buf: OutBuffer, head: Cursor, tail: Cursor,
                          ghost ty: Ty, ghost enc: seq<Byte>, ghost good: bool)
    requires Reads(t, ty) && Supported(ty) && ty.Array? && !IsDynamic(ty) && head != tail
             && (good ==> Coded(ty, v, enc))
    modifies buf, buf.data, head, tail
    ensures (buf.data == old(buf.data) || fresh(buf.data)) && old(buf.data.Length) <= buf.data.Length
    ensures old(head.pos) <= head.pos <= old(head.pos) + StaticSize(ty) && tail.pos == old(tail.pos)
    ensures good ==> Wrote(old(buf.View()), buf.View(), old(head.pos), enc) && head.pos == old(head.pos) + |enc|
    decreases ty, 1
  {
    ReadsFacts(t, ty);
    ghost var items: seq<Item> := [];
    if good {
      items := ArrayParts(ty, v, enc);
      assert enc == Tuple(items);
    }
    if !v.VArray? || |v.vs| != t.arrayLen {
      return;
    }
    var tp := ElementType(t, ty);
    EncodeElements(tp, v.vs, buf, head, tail, ty.elem, items, good);
  }

  /** Values of a static type, one head after the other. */
  method EncodeElements(tp: Info, vs: seq<Value>, buf: OutBuffer, head: Cursor, tail: Cursor,
                        ghost e: Ty, ghost items: seq<Item>, ghost good: bool)
    requires Reads(tp, e) && Supported(e) && !IsDynamic(e) && head != tail && (good ==> Prepared(e, vs, items))
    modifies buf, buf.data, head, tail
    ensures (buf.data == old(buf.data) || fresh(buf.data)) && old(buf.data.Length) <= buf.data.Length
    ensures old(head.pos) <= head.pos <= old(head.pos) + |vs| * StaticSize(e) && tail.pos == old(tail.pos)
    ensures good ==> Wrote(old(buf.View()), buf.View(), old(head.pos), Tuple(items))
    ensures good ==> head.pos == old(head.pos) + |Tuple(items)|
    decreases e, 3
  {
    ghost var b0, start, size := buf.View(), head.pos, StaticSize(e);
    for i := 0 to |vs|
      invariant (buf.data == old(buf.data) || fresh(buf.data)) && old(buf.data.Length) <= buf.data.Length
      invariant start <= head.pos <= start + i * size && tail.pos == old(tail.pos)
      invariant good ==> Wrote(b0, buf.View(), start, Heads(items, i, 0)) && head.pos == start + |Heads(items, i, 0)|
    {
      ghost var b1, p := buf.View(), head.pos;
      EncodeParam(tp, vs[i], buf, head, tail, e, if good then items[i].enc else [], good);
      assert (i + 1) * size == i * size + size;
      if good {
        NextElement(b0, b1, buf.View(), start, items, i, p);
      }
    }
    if good {
      StaticTuple(items);
    }
  }

  /** Values of a dynamic type: offsets in the heads, counted from `start`, and the values in the tails. */
  method EncodeWithOffsets(tp: Info, vs: seq<Value>, buf: OutBuffer, head: Cursor, tail: Cursor, start: nat,
                           ghost e: Ty, ghost items: seq<Item>, ghost good: bool)
    requires Reads(tp, e) && Supported(e) && IsDynamic(e) && head != tail
    requires head.pos == start && tail.pos == start + 32 * |vs|
    requires good ==> Prepared(e, vs, items) && |Tuple(items)| < TWO_64 && NarrowElements(e, vs)
    modifies buf, buf.data, head, tail
    ensures (buf.data == old(buf.data) || fresh(buf.data)) && old(buf.data.Length) <= buf.data.Length
    ensures tail.pos == start + AdvanceTuple(e, vs)
    ensures good ==> Wrote(old(buf.View()), buf.View(), start, Tuple(items))
    ensures good ==> tail.pos == start + |Tuple(items)|
    decreases e, 4
  {
    ghost var h, b0 := 32 * |vs|, buf.View();
    if good {
      DynamicTuple(items, h);
    }
    for i := 0 to |vs|
      invariant (buf.data == old(buf.data) || fresh(buf.data)) && old(buf.data.Length) <= buf.data.Length
      invariant tail.pos == start + h + AdvanceAll(e, vs, i) && head.pos == start + 32 * i
      invariant good ==> |Heads(items, i, h)| == 32 * i && tail.pos == start + h + |Tails(items, i)|
      invariant good ==> Laid(b0, buf.View(), start, h, Heads(items, i, h), Tails(items, i))
    {
      ghost var b1, p, q := buf.View(), head.pos, tail.pos;
      ghost var offset := if good then h + |Tails(items, i)| else q - start;
      ghost var b2 := EncodeOffset(tp, vs[i], buf, head, tail, start, e, offset, if good then items[i].enc else [],
                                   good);
      if good {
        OffsetFits(items, i, h);
        NextOffset(b0, b1, b2, buf.View(), start, items, i, h, p, q);
      }
    }
    if good {
      LaidIsWrote(b0, buf.View(), start, h, Heads(items, |items|, h), Tails(items, |items|));
    }
  }

  /** One offset and the value behind it; b2 is the buffer in between. */
  method EncodeOffset(tp: Info, v: Value, buf: OutBuffer, head: Cursor, tail: Cursor, start: nat,
                      ghost e: Ty, ghost offset: nat, ghost enc: seq<Byte>, ghost good: bool)
    returns (ghost b2: seq<Byte>)
    requires Reads(tp, e) && Supported(e) && IsDynamic(e) && head != tail && tail.pos == start + offset
    requires good ==> Coded(e, v, enc) && Narrow(e, v)
    modifies buf, buf.data, head, tail
    ensures (buf.data == old(buf.data) || fresh(buf.data)) && old(buf.data.Length) <= buf.data.Length
    ensures tail.pos == old(tail.pos) + Advance(e, v) && head.pos == old(head.pos) + 32
    ensures offset < TWO_64 ==> Wrote(old(buf.View()), b2, old(head.pos), U256(offset))
    ensures good ==> Wrote(b2, buf.View(), old(tail.pos), enc)
    ensures good ==> tail.pos == old(tail.pos) + |enc|
    decreases e, 3
  {
    var word := U64ToU256(tail.pos - start);
    buf.Put(head.pos, word);
    head.pos := head.pos + 32;
    b2 := buf.View();
    EncodeParam(tp, v, buf, tail, tail, e, enc, good);
  }

  /** An array with a dynamic encoding: its length if that is open, then its elements as a tuple. */
  method EncodeDynamicArray(t: Info, v: Value, buf: OutBuffer, tail: Cursor,
                            ghost ty: Ty, ghost enc: seq<Byte>, ghost good: bool)
    requires Reads(t, ty) && Supported(ty) && ty.Array? && IsDynamic(ty)
    requires good ==> Coded(ty, v, enc) && Narrow(ty, v)
    modifies buf, buf.data, tail
    ensures (buf.data == old(buf.data) || fresh(buf.data)) && old(buf.data.Length) <= buf.data.Length
    ensures tail.pos == old(tail.pos) + Advance(ty, v)
    ensures good ==> Wrote(old(buf.View()), buf.View(), old(tail.pos), enc)
    ensures good ==> tail.pos == old(tail.pos) + |enc|
    decreases ty, 1
  {
    ReadsFacts(t, ty);
    ghost var items: seq<Item>, len: seq<Byte>, b0, start := [], [], buf.View(), tail.pos;
    if good {
      items := ArrayParts(ty, v, enc);
    }
    if !v.VArray? || (t.arrayLen != 0 && |v.vs| != t.arrayLen) {
      return;
    }
    if t.arrayLen == 0 {
      var word := U64ToU256(|v.vs|);
      buf.Put(tail.pos, word);
      tail.pos := tail.pos + 32;
      len := word;
    }
    ghost var b1 := buf.View();
    var tp := ElementType(t, ty);
    EncodeTuple(tp, v.vs, buf, tail, ty.elem, items, good);
    if good {
      WroteAppend(b0, b1, buf.View(), start, len, Tuple(items));
    }
  }

  /** The elements of an array, as a tuple at the tail cursor. */
  method EncodeTuple(tp: Info, vs: seq<Value>, buf: OutBuffer, tail: Cursor,
                     ghost e: Ty, ghost items: seq<Item>, ghost good: bool)
    requires Reads(tp, e) && Supported(e)
    requires good ==> Prepared(e, vs, items) && |Tuple(items)| < TWO_64 && NarrowElements(e, vs)
    modifies buf, buf.data, tail
    ensures (buf.data == old(buf.data) || fresh(buf.data)) && old(buf.data.Length) <= buf.data.Length
    ensures tail.pos == old(tail.pos) + AdvanceTuple(e, vs)
    ensures good ==> Wrote(old(buf.View()), buf.View(), old(tail.pos), Tuple(items))
    ensures good ==> tail.pos == old(tail.pos) + |Tuple(items)|
    decreases e, 5
  {
    ReadsFacts(tp, e);
    if good && !IsDynamic(e) {
      StaticTupleLength(e, vs, items);
      AdvanceStatic(|vs|, StaticSize(e));
    }
    var head' := new Cursor(tail.pos);
    var tail' := new Cursor(tail.pos);
    if tp.arrayKind == FixedArray {
      var size := HeadBytes(tp.str, e);
      tail'.pos := tail'.pos + |vs| * size;
      EncodeElements(tp, vs, buf, head', tail', e, items, good);
    } else if tp.kind == DynamicSizeBytes || tp.kind == Text || tp.arrayKind == DynamicArray {
      tail'.pos := tail'.pos + 32 * |vs|;
      EncodeWithOffsets(tp, vs, buf, head', tail', tail.pos, e, items, good);
    } else {
      tail'.pos := tail'.pos + 32 * |vs|;
      EncodeElements(tp, vs, buf, head', tail', e, items, good);
    }
    tail.pos := tail'.pos;
  }

  method EncodeBlob(v: Value, buf: OutBuffer, tail: Cursor, ghost ty: Ty, ghost enc: seq<Byte>, ghost good: bool)
    requires ty.Blob? && (good ==> Coded(ty, v, enc))
    modifies buf, buf.data, tail
    ensures (buf.data == old(buf.data) || fresh(buf.data)) && old(buf.data.Length) <= buf.data.Length
    ensures tail.pos == old(tail.pos) + Advance(ty, v)
    ensures good ==> Wrote(old(buf.View()), buf.View(), old(tail.pos), enc)
    ensures good ==> tail.pos == old(tail.pos) + |enc|
    ensures v.VBytes? && |v.s| < TWO_64 ==>
              BlobAt(buf.View(), old(tail.pos), v.s) && tail.pos == old(tail.pos) + 32 + RoundUp(|v.s|)
  {
    if good {
      Uncoded(ty, v, enc);
    }
    if !v.VBytes? {
      return;
    }
    ghost var b0, start := buf.View(), tail.pos;
    var len := U64ToU256(|v.s|);
    buf.Put(tail.pos, len);
    tail.pos := tail.pos + 32;
    ghost var b1 := buf.View();
    var padded := Pad(v.s);
    buf.Put(tail.pos, padded);
    tail.pos := tail.pos + |padded|;
    WroteAppend(b0, b1, buf.View(), start, len, padded);
    if |v.s| < TWO_64 {
      BlobIs(buf.View(), start, v.s);
      PadIs(v.s);
    }
  }
}
