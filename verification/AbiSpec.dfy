/**
  The encoding of the Contract ABI Specification, section "Formal Specification of the
  Encoding": heads first, then tails, each offset counted from the start of its tuple.
 */
module AbiSpec {
  import opened Octets
  import opened AbiTypes

  // -------------------------------------------------------- big-endian numbers

  function Pow256(k: nat): (p: nat)
    ensures p > 0
  {
    if k == 0 then 1 else 256 * Pow256(k - 1)
  }

  const TWO_64: nat := 0x1_0000_0000_0000_0000

  /** The last k bytes of n, most significant first. */
  function BigEndian(n: nat, k: nat): (s: seq<Byte>)
    ensures |s| == k
    decreases k
  {
    if k == 0 then [] else BigEndian(n / 256, k - 1) + [n % 256]
  }

  function FromBigEndian(s: seq<Byte>): nat {
    if s == [] then 0 else FromBigEndian(s[..|s| - 1]) * 256 + s[|s| - 1]
  }

  lemma {:induction false} BigEndianRoundTrip(n: nat, k: nat)
    requires n < Pow256(k)
    ensures FromBigEndian(BigEndian(n, k)) == n
    decreases k
  {
    if k > 0 {
      assert BigEndian(n, k)[..k - 1] == BigEndian(n / 256, k - 1);
      BigEndianRoundTrip(n / 256, k - 1);
    }
  }

  /** Length and value determine the bytes. */
  lemma {:induction false} SameBytes(p: seq<Byte>, q: seq<Byte>)
    requires |p| == |q| && FromBigEndian(p) == FromBigEndian(q)
    ensures p == q
  {
    if p != [] {
      SameBytes(p[..|p| - 1], q[..|q| - 1]);
      assert p == p[..|p| - 1] + [p[|p| - 1]] && q == q[..|q| - 1] + [q[|q| - 1]];
    }
  }

  function Zeros(k: nat): (s: seq<Byte>)
    ensures |s| == k
  {
    seq(k, _ => 0)
  }

  lemma {:induction false} LeadingZeros(n: nat, k: nat, j: nat)
    requires n < Pow256(k)
    ensures BigEndian(n, j + k) == Zeros(j) + BigEndian(n, k)
    decreases k, j
  {
    if k > 0 {
      LeadingZeros(n / 256, k - 1, j);
      assert j + k - 1 == j + (k - 1);
      assert Zeros(j) + BigEndian(n / 256, k - 1) + [n % 256] == Zeros(j) + (BigEndian(n / 256, k - 1) + [n % 256]);
    } else if j > 0 {
      LeadingZeros(0, 0, j - 1);
      assert Zeros(j - 1) + [0] == Zeros(j);
    }
  }

  /**
    A length or offset as a 256-bit word.  Described rather than computed, so that proofs about
    layout need not look inside; U256Is does.
   */
  ghost function U256(n: nat): (w: seq<Byte>)
    ensures |w| == 32
  {
    assert Described(BigEndian(n, 32), n);
    var w: seq<Byte> :| Described(w, n);
    w
  }

  ghost predicate Described(w: seq<Byte>, n: nat) {
    |w| == 32 && forall m: nat {:trigger BigEndian(m, 32)} :: m == n ==> w == BigEndian(m, 32)
  }

  lemma U256Is(n: nat)
    ensures U256(n) == BigEndian(n, 32)
  {
    assert Described(U256(n), n);
  }

  // ------------------------------------------------------------ bytes in place

  /** Bytes s stand in b at position p. */
  ghost predicate HoldsAt(b: seq<Byte>, p: nat, s: seq<Byte>) {
    s == [] || (p + |s| <= |b| && b[p..p + |s|] == s)
  }

  lemma HoldsConcat(b: seq<Byte>, p: nat, s1: seq<Byte>, s2: seq<Byte>)
    ensures HoldsAt(b, p, s1) && HoldsAt(b, p + |s1|, s2) <==> HoldsAt(b, p, s1 + s2)
  {
    var s := s1 + s2;
    if s != [] && p + |s| <= |b| {
      assert b[p..p + |s|][..|s1|] == b[p..p + |s1|];
      assert b[p..p + |s|][|s1|..] == b[p + |s1|..p + |s|];
      assert s[..|s1|] == s1 && s[|s1|..] == s2;
      assert b[p..p + |s|] == b[p..p + |s1|] + b[p + |s1|..p + |s|];
    }
    if s1 == [] {
      assert s == s2;
    } else if s2 == [] {
      assert s == s1;
    }
  }

  // ----------------------------------------------------------- types and values

  /** Bytes taken in the head section by a type that is not dynamic. */
  function StaticSize(t: Ty): nat {
    if t.Array? then t.len * StaticSize(t.elem) else 32
  }

  function TypeHeadSize(t: Ty): nat {
    if IsDynamic(t) then 32 else StaticSize(t)
  }

  function HeadSizes(ts: seq<Ty>): nat {
    if ts == [] then 0 else HeadSizes(ts[..|ts| - 1]) + TypeHeadSize(ts[|ts| - 1])
  }

  lemma HeadSizesStep(ts: seq<Ty>, i: nat)
    requires i < |ts|
    ensures HeadSizes(ts[..i + 1]) == HeadSizes(ts[..i]) + TypeHeadSize(ts[i]) <= HeadSizes(ts)
  {
    assert ts[..i + 1][..i] == ts[..i];
    HeadSizesGrow(ts, i + 1);
  }

  lemma {:induction false} HeadSizesGrow(ts: seq<Ty>, i: nat)
    requires i <= |ts|
    ensures HeadSizes(ts[..i]) <= HeadSizes(ts)
    decreases |ts| - i
  {
    if i < |ts| {
      HeadSizesGrow(ts, i + 1);
      assert ts[..i + 1][..i] == ts[..i];
    } else {
      assert ts[..i] == ts;
    }
  }

  /** JSON arguments; integers come as decimal strings (VInt) or as numbers (VNumber). */
  datatype Value = VBool(b: bool) | VInt(i: int) | VBytes(s: seq<Byte>) | VArray(vs: seq<Value>) | VNumber(n: int)

  function Pow2(k: nat): (p: nat)
    ensures p > 0
  {
    if k == 0 then 1 else 2 * Pow2(k - 1)
  }

  lemma {:induction false} BytesAreBits(k: nat)
    ensures Pow256(k) == Pow2(8 * k)
  {
    if k > 0 {
      BytesAreBits(k - 1);
      var b := 8 * (k - 1);
      assert Pow2(b + 2) == 4 * Pow2(b);
      assert Pow2(b + 4) == 4 * Pow2(b + 2);
      assert Pow2(b + 6) == 4 * Pow2(b + 4);
      assert Pow2(b + 8) == 4 * Pow2(b + 6);
    }
  }

  lemma {:induction false} Pow2Grows(i: nat, j: nat)
    requires i <= j
    ensures Pow2(i) <= Pow2(j)
    decreases j - i
  {
    if i < j {
      Pow2Grows(i, j - 1);
    }
  }

  lemma Remainder(i: int, n: nat, q: int, r: nat)
    requires i == q * n + r && r < n
    ensures i % n == r
  {
    var q', r' := i / n, i % n;
    assert (q' - q) * n == r - r';
    if q' > q {
      Scaled(1, q' - q, n);
    } else if q' < q {
      Scaled(1, q - q', n);
    }
  }

  lemma Scaled(a: int, b: int, n: nat)
    requires a <= b
    ensures a * n <= b * n
  {
  }

  predicate SupportedScalar(s: Scalar) {
    match s
    case UInt(n) => n <= 256
    case Int(n) => 0 < n <= 256
    case FixedBytes(n) => 0 < n <= 32
    case _ => true
  }

  /** Types of the specification, with array lengths that the code can read into an int. */
  predicate Supported(t: Ty) {
    match t
    case Word(s) => SupportedScalar(s)
    case Blob(_) => true
    case Array(e, k) => Supported(e) && k < TWO_31
  }

  predicate ScalarValue(s: Scalar, v: Value) {
    match s
    case Bool => v.VBool?
    case UInt(n) => v.VInt? && 0 <= v.i < Pow2(n)
    case Int(n) => v.VInt? && n > 0 && 0 - Pow2(n - 1) <= v.i < Pow2(n - 1)
    case FixedBytes(n) => v.VBytes? && |v.s| == n <= 32
    case Function => v.VBytes? && |v.s| == 24
    case Address => v.VBytes? && |v.s| == 20
  }

  predicate HasType(t: Ty, v: Value)
    decreases t, 1
  {
    match t
    case Word(s) => ScalarValue(s, v)
    case Blob(_) => v.VBytes?
    case Array(e, k) => v.VArray? && (k == 0 || |v.vs| == k) && AllHaveType(e, v.vs)
  }

  predicate AllHaveType(e: Ty, vs: seq<Value>)
    decreases e, 2, |vs|
  {
    forall i :: 0 <= i < |vs| ==> HasType(e, vs[i])
  }

  // ------------------------------------------------------------ heads and tails

  /** One component of a tuple, already encoded. */
  datatype Item = Item(dynamic: bool, enc: seq<Byte>)

  function HeadSize(it: Item): nat {
    if it.dynamic then 32 else |it.enc|
  }

  /** Length of the heads of the first n components. */
  function HeadLength(items: seq<Item>, n: nat): nat
    requires n <= |items|
  {
    if n == 0 then 0 else HeadLength(items, n - 1) + HeadSize(items[n - 1])
  }

  /** Tails of the first n components. */
  function Tails(items: seq<Item>, n: nat): seq<Byte>
    requires n <= |items|
  {
    if n == 0 then [] else Tails(items, n - 1) + (if items[n - 1].dynamic then items[n - 1].enc else [])
  }

  /** Heads of the first n components, when the whole head section is h bytes long. */
  ghost function Heads(items: seq<Item>, n: nat, h: nat): (s: seq<Byte>)
    requires n <= |items|
  {
    if n == 0 then []
    else Heads(items, n - 1, h)
         + (if items[n - 1].dynamic then U256(h + |Tails(items, n - 1)|) else items[n - 1].enc)
  }

  ghost function Tuple(items: seq<Item>): seq<Byte> {
    Heads(items, |items|, HeadLength(items, |items|)) + Tails(items, |items|)
  }

  lemma {:induction false} HeadsLength(items: seq<Item>, n: nat, h: nat)
    requires n <= |items|
    ensures |Heads(items, n, h)| == HeadLength(items, n)
  {
    if n > 0 {
      HeadsLength(items, n - 1, h);
    }
  }

  // ------------------------------------------------------------------ encoding

  /** Padded with zeros to a whole number of words. */
  function Pad(s: seq<Byte>): (r: seq<Byte>)
    ensures |r| % 32 == 0 && |s| <= |r| < |s| + 32
    ensures s <= r && forall i :: |s| <= i < |r| ==> r[i] == 0
  {
    if |s| % 32 == 0 then s else s + Zeros(32 - |s| % 32)
  }

  /** Two's complement on 256 bits. */
  function IntWord(i: int): (w: seq<Byte>)
    ensures |w| == 32
  {
    BigEndian(i % Pow256(32), 32)
  }

  function ScalarBytes(s: Scalar, v: Value): (w: seq<Byte>)
    requires ScalarValue(s, v)
    ensures |w| == 32
  {
    match s
    case Bool => BigEndian(if v.b then 1 else 0, 32)
    case UInt(_) => IntWord(v.i)
    case Int(_) => IntWord(v.i)
    case FixedBytes(n) => v.s + Zeros(32 - n)
    case Function => v.s + Zeros(8)
    case Address => Zeros(12) + v.s
  }

  ghost predicate DescribedScalar(w: seq<Byte>, s: Scalar, v: Value) {
    |w| == 32 && forall x: Scalar {:trigger ScalarBytes(x, v)} :: x == s && ScalarValue(x, v) ==> w == ScalarBytes(x, v)
  }

  /** The word of a scalar; ScalarWordIs looks inside. */
  ghost function ScalarWord(s: Scalar, v: Value): (w: seq<Byte>)
    requires ScalarValue(s, v)
    ensures |w| == 32
  {
    assert DescribedScalar(ScalarBytes(s, v), s, v);
    var w: seq<Byte> :| DescribedScalar(w, s, v);
    w
  }

  lemma ScalarWordIs(s: Scalar, v: Value)
    requires ScalarValue(s, v)
    ensures ScalarWord(s, v) == ScalarBytes(s, v)
  {
    assert DescribedScalar(ScalarWord(s, v), s, v);
  }

  ghost function Enc(t: Ty, v: Value): seq<Byte>
    requires HasType(t, v)
    decreases t, 0
  {
    match t
    case Word(s) => ScalarWord(s, v)
    case Blob(_) => U256(|v.s|) + Pad(v.s)
    case Array(e, k) => (if k == 0 then U256(|v.vs|) else []) + Tuple(Items(e, v.vs))
  }

  ghost function Items(e: Ty, vs: seq<Value>): (items: seq<Item>)
    requires AllHaveType(e, vs)
    ensures |items| == |vs|
    ensures forall i :: 0 <= i < |vs| ==> items[i] == Item(IsDynamic(e), Enc(e, vs[i]))
    decreases e, 1
  {
    seq(|vs|, i requires 0 <= i < |vs| => Item(IsDynamic(e), Enc(e, vs[i])))
  }

  lemma {:induction false} UniformHeads(items: seq<Item>, n: nat, size: nat)
    requires n <= |items| && forall i :: 0 <= i < |items| ==> HeadSize(items[i]) == size
    ensures HeadLength(items, n) == n * size
  {
    if n > 0 {
      UniformHeads(items, n - 1, size);
    }
  }

  lemma {:induction false} NoTails(items: seq<Item>, n: nat)
    requires n <= |items| && forall i :: 0 <= i < |items| ==> !items[i].dynamic
    ensures Tails(items, n) == []
  {
    if n > 0 {
      NoTails(items, n - 1);
    }
  }

  lemma TupleLength(items: seq<Item>)
    ensures |Tuple(items)| == HeadLength(items, |items|) + |Tails(items, |items|)|
  {
    HeadsLength(items, |items|, HeadLength(items, |items|));
  }

  /** The size of a static encoding depends on the type alone. */
  lemma {:induction false} StaticLength(t: Ty, v: Value)
    requires HasType(t, v) && !IsDynamic(t)
    ensures |Enc(t, v)| == StaticSize(t)
  {
    if t.Array? {
      var items := Items(t.elem, v.vs);
      forall i | 0 <= i < |items| ensures HeadSize(items[i]) == StaticSize(t.elem) {
        StaticLength(t.elem, v.vs[i]);
      }
      UniformHeads(items, |items|, StaticSize(t.elem));
      NoTails(items, |items|);
      TupleLength(items);
    }
  }

  lemma ItemHeadSize(t: Ty, v: Value)
    requires HasType(t, v)
    ensures HeadSize(Item(IsDynamic(t), Enc(t, v))) == TypeHeadSize(t)
  {
    if !IsDynamic(t) {
      StaticLength(t, v);
    }
  }

  lemma {:induction false} LayoutGrows(items: seq<Item>, i: nat, n: nat)
    requires i <= n <= |items|
    ensures |Tails(items, i)| <= |Tails(items, n)| && HeadLength(items, i) <= HeadLength(items, n)
    decreases n - i
  {
    if i < n {
      LayoutGrows(items, i, n - 1);
    }
  }

  /** Each component, and each offset, is no larger than the tuple. */
  lemma PartsFit(items: seq<Item>, i: nat)
    requires i < |items|
    ensures |items[i].enc| <= |Tuple(items)|
    ensures HeadLength(items, |items|) + |Tails(items, i)| <= |Tuple(items)|
  {
    TupleLength(items);
    LayoutGrows(items, i, |items|);
    LayoutGrows(items, i + 1, |items|);
  }
}
