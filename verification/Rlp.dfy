/**
  Recursive length prefix encoding, as Appendix B of the Ethereum Yellow Paper defines it, done
  on hexadecimal text; a text is modelled by the values of its digits.
 */
module Rlp {
  import opened Octets
  import AbiSpec

  type Nibble = x: int | 0 <= x < 16
  type Hex = seq<Nibble>

  // ----------------------------------------------------------------- hexadecimal

  /** An odd number of digits gets a leading zero. */
  function Even(h: Hex): (r: Hex)
    ensures |r| % 2 == 0
  {
    if |h| % 2 == 1 then [0] + h else h
  }

  /** A byte from two digits. */
  function Pair(high: Nibble, low: Nibble): Byte {
    var h: int, l: int := high, low;
    h * 16 + l
  }

  /** hex2dec of the first two digits. */
  function FirstByte(h: Hex): Byte {
    if |h| >= 2 then Pair(h[0], h[1]) else 0
  }

  /** hex2bin, for an even number of digits. */
  function Bin(h: Hex): (b: Bytes)
    requires |h| % 2 == 0
    ensures |b| == |h| / 2
  {
    if h == [] then [] else [Pair(h[0], h[1])] + Bin(h[2..])
  }

  lemma {:induction false} BinAppend(x: Hex, y: Hex)
    requires |x| % 2 == 0 && |y| % 2 == 0
    ensures Bin(x + y) == Bin(x) + Bin(y)
  {
    if x == [] {
      assert x + y == y;
    } else {
      assert (x + y)[2..] == x[2..] + y;
      BinAppend(x[2..], y);
    }
  }

  /** bin2hex. */
  function Unbin(b: Bytes): (h: Hex)
    ensures |h| == 2 * |b|
  {
    if b == [] then [] else [b[0] / 16, b[0] % 16] + Unbin(b[1..])
  }

  lemma {:induction false} BinUnbin(b: Bytes)
    ensures Bin(Unbin(b)) == b
  {
    if b != [] {
      assert Unbin(b)[2..] == Unbin(b[1..]);
      BinUnbin(b[1..]);
    }
  }

  function Digits(n: nat): (h: Hex)
    ensures h != []
  {
    if n < 16 then [n] else Digits(n / 16) + [n % 16]
  }

  function HexValue(h: Hex): nat {
    if h == [] then 0 else HexValue(h[..|h| - 1]) * 16 + h[|h| - 1]
  }

  /** dec2hex. */
  function DecToHex(n: nat): (h: Hex)
    ensures |h| % 2 == 0 && h != []
  {
    Even(Digits(n))
  }

  lemma {:induction false} DigitsValue(n: nat)
    ensures HexValue(Digits(n)) == n
  {
    if n >= 16 {
      assert Digits(n)[..|Digits(n)| - 1] == Digits(n / 16);
      DigitsValue(n / 16);
    }
  }

  lemma {:induction false} LeadingZero(h: Hex)
    ensures HexValue([0] + h) == HexValue(h)
  {
    if h == [] {
      assert [0] + h == [0];
    } else {
      assert ([0] + h)[..|h|] == [0] + h[..|h| - 1];
      LeadingZero(h[..|h| - 1]);
    }
  }

  /** The bytes of a number in hexadecimal are its big-endian bytes. */
  lemma {:induction false} BinValue(h: Hex)
    requires |h| % 2 == 0
    ensures AbiSpec.FromBigEndian(Bin(h)) == HexValue(h)
  {
    if h != [] {
      var front := h[..|h| - 2];
      BinValue(front);
      assert h == front + h[|h| - 2..];
      BinAppend(front, h[|h| - 2..]);
      assert Bin(h[|h| - 2..]) == [Pair(h[|h| - 2], h[|h| - 1])];
      assert Bin(h)[..|h| / 2 - 1] == Bin(front);
      assert h[..|h| - 1][..|h| - 2] == front;
    }
  }

  /** The bytes of a text: half as many as digits, rounded up, with the same value. */
  ghost predicate Carries(p: Bytes, text: Hex) {
    |p| == (|text| + 1) / 2 && AbiSpec.FromBigEndian(p) == HexValue(text)
  }

  lemma EvenValue(h: Hex)
    ensures HexValue(Even(h)) == HexValue(h) && |Even(h)| == |h| + |h| % 2
    ensures Carries(Bin(Even(h)), h)
  {
    LeadingZero(h);
    BinValue(Even(h));
  }

  lemma DecToHexValue(n: nat)
    ensures AbiSpec.FromBigEndian(Bin(DecToHex(n))) == n
  {
    DigitsValue(n);
    EvenValue(Digits(n));
  }

  lemma {:induction false} DigitsLength(n: nat, k: nat)
    requires 0 < k && n < Pow16(k)
    ensures |Digits(n)| <= k
  {
    if n >= 16 {
      DigitsLength(n / 16, k - 1);
    }
  }

  function Pow16(k: nat): (p: nat)
    ensures p > 0
  {
    if k == 0 then 1 else 16 * Pow16(k - 1)
  }

  /** One byte takes two digits. */
  lemma OneByte(n: nat)
    requires 16 <= n < 256
    ensures |DecToHex(n)| == 2 && Bin(DecToHex(n)) == [n]
  {
    assert Digits(n) == [n / 16] + [n % 16];
    assert Bin([n / 16, n % 16]) == [n];
  }

  /** A 32-bit number takes at most four bytes. */
  lemma FourBytes(n: nat)
    requires n < TWO_32
    ensures |DecToHex(n)| <= 8
  {
    assert Pow16(2) == 0x100 && Pow16(4) == 0x10000 && Pow16(6) == 0x1000000;
    DigitsLength(n, 8);
  }

  // -------------------------------------------------------------------- encoding

  /** Whole bytes one after the other. */
  function Join(x: Hex, y: Hex): (r: Hex)
    requires |x| % 2 == 0 && |y| % 2 == 0
    ensures r == x + y && |r| % 2 == 0
  {
    x + y
  }

  /** The text s of whole bytes behind a head, counted from `near` or `far`, that announces `length` of them. */
  function WithHead(s: Hex, length: nat, near: nat, far: nat): (r: Hex)
    requires |s| % 2 == 0
    ensures |r| % 2 == 0
  {
    if length == 0 then [8, 0]
    else if length == 1 && FirstByte(s) < 128 then s
    else if length < 56 then Join(DecToHex(near + length), s)
    else
      var size := DecToHex(length);
      Join(Join(DecToHex(far + |size| / 2), size), s)
  }

  /** rlp_encode: one element, or the payload of a list; the number of digits is taken in 32 bits. */
  function Encode(text: Hex, isList: bool): (r: Hex)
    ensures |r| % 2 == 0
  {
    var s := Even(text);
    WithHead(s, |s| % TWO_32 / 2, if isList then 192 else 128, if isList then 247 else 183)
  }

  lemma NotEmpty(text: Hex, isList: bool)
    ensures Encode(text, isList) != []
  {
  }

  // --------------------------------------------------------- a reference decoder

  datatype Item = Item(list: bool, payload: Bytes)

  function Take(list: bool, b: Bytes, at: nat, n: nat): Option<(Item, Bytes)> {
    if at + n <= |b| then Some((Item(list, b[at..at + n]), b[at + n..])) else None
  }

  /** The length itself takes k bytes. */
  function TakeLong(list: bool, b: Bytes, k: nat): Option<(Item, Bytes)> {
    if 1 + k <= |b| then Take(list, b, 1 + k, AbiSpec.FromBigEndian(b[1..1 + k])) else None
  }

  /** The first item of b, and the bytes after it. */
  function Decode(b: Bytes): Option<(Item, Bytes)> {
    if b == [] then None
    else if b[0] < 128 then Some((Item(false, [b[0]]), b[1..]))
    else if b[0] < 184 then Take(false, b, 1, b[0] - 128)
    else if b[0] < 192 then TakeLong(false, b, b[0] - 183)
    else if b[0] < 248 then Take(true, b, 1, b[0] - 192)
    else TakeLong(true, b, b[0] - 247)
  }

  /** All items of b, one after the other. */
  function DecodeAll(b: Bytes): Option<seq<Item>>
    decreases |b|
  {
    if b == [] then Some([])
    else match Decode(b)
      case None => None
      case Some(first) =>
        if |first.1| >= |b| then None
        else match DecodeAll(first.1)
          case None => None
          case Some(more) => Some([first.0] + more)
  }

  // ------------------------------------------------------------------ round trip

  lemma ShortHead(isList: bool, n: nat, rest: Bytes)
    requires n < 56 && n <= |rest|
    ensures Decode([(if isList then 192 else 128) + n] + rest) == Some((Item(isList, rest[..n]), rest[n..]))
  {
    var b := [(if isList then 192 else 128) + n] + rest;
    assert b[1..1 + n] == rest[..n] && b[1 + n..] == rest[n..];
  }

  lemma LongHead(isList: bool, size: Bytes, n: nat, rest: Bytes)
    requires 1 <= |size| <= 8 && AbiSpec.FromBigEndian(size) == n <= |rest|
    ensures Decode([(if isList then 247 else 183) + |size|] + size + rest) == Some((Item(isList, rest[..n]), rest[n..]))
  {
    var b := [(if isList then 247 else 183) + |size|] + size + rest;
    assert b[1..1 + |size|] == size;
    TakeRest(isList, b, 1 + |size|, n, rest);
  }

  lemma TakeRest(isList: bool, b: Bytes, at: nat, n: nat, rest: Bytes)
    requires at <= |b| && b[at..] == rest && n <= |rest|
    ensures Take(isList, b, at, n) == Some((Item(isList, rest[..n]), rest[n..]))
  {
    assert b[at..at + n] == rest[..n] && b[at + n..] == rest[n..];
  }

  /** e is a head followed by p; the head announces n bytes, and is left out for a small byte. */
  ghost predicate Headed(e: Bytes, n: nat, p: Bytes, isList: bool) {
    if n == 0 then e == [128]
    else if n == 1 && |p| > 0 && p[0] < 128 then e == p
    else if n < 56 then e == [(if isList then 192 else 128) + n] + p
    else exists size: Bytes :: LongForm(e, size, n, p, isList)
  }

  /** The head holds the length in `size`. */
  predicate LongForm(e: Bytes, size: Bytes, n: nat, p: Bytes, isList: bool) {
    1 <= |size| <= 4 && AbiSpec.FromBigEndian(size) == n && e == [(if isList then 247 else 183) + |size|] + size + p
  }

  /** rlp_encode computes with 32-bit lengths, so the head announces the number of bytes modulo 2^31. */
  lemma EncodeHead(text: Hex, isList: bool, p: Bytes)
    requires Carries(p, text)
    ensures Headed(Bin(Encode(text, isList)), |p| % TWO_31, p, isList)
  {
    EvenValue(text);
    AbiSpec.SameBytes(p, Bin(Even(text)));
    var s := Even(text);
    var n := |s| % TWO_32 / 2;
    Halved(|s|);
    HeadedBy(s, n, isList, if isList then 192 else 128, if isList then 247 else 183);
  }

  lemma HeadedBy(s: Hex, n: nat, isList: bool, near: nat, far: nat)
    requires |s| % 2 == 0 && 2 * n <= |s| && n < TWO_32
    requires if isList then near == 192 && far == 247 else near == 128 && far == 183
    ensures Headed(Bin(WithHead(s, n, near, far)), n, Bin(s), isList)
  {
    if n == 0 {
      assert Bin([8, 0]) == [128];
    } else if n == 1 && FirstByte(s) < 128 {
    } else if n < 56 {
      ShortHeaded(s, n, isList, near, far);
    } else {
      LongBytes(s, n, isList, far);
      LongHeaded(s, n, isList, near, far);
    }
  }

  lemma ShortHeaded(s: Hex, n: nat, isList: bool, near: nat, far: nat)
    requires |s| % 2 == 0 && 2 * n <= |s| && 0 < n < 56 && !(n == 1 && FirstByte(s) < 128)
    requires near == if isList then 192 else 128
    ensures Headed(Bin(WithHead(s, n, near, far)), n, Bin(s), isList)
  {
    OneByte(near + n);
    BinAppend(DecToHex(near + n), s);
  }

  lemma LongHeaded(s: Hex, n: nat, isList: bool, near: nat, far: nat)
    requires |s| % 2 == 0 && n >= 56
    requires LongForm(Bin(Join(Join(DecToHex(far + |DecToHex(n)| / 2), DecToHex(n)), s)), Bin(DecToHex(n)), n, Bin(s),
                      isList)
    ensures Headed(Bin(WithHead(s, n, near, far)), n, Bin(s), isList)
  {
  }

  lemma LongBytes(s: Hex, n: nat, isList: bool, far: nat)
    requires |s| % 2 == 0 && n < TWO_32 && far == if isList then 247 else 183
    ensures LongForm(Bin(Join(Join(DecToHex(far + |DecToHex(n)| / 2), DecToHex(n)), s)), Bin(DecToHex(n)), n, Bin(s),
                     isList)
  {
    var size := DecToHex(n);
    FourBytes(n);
    DecToHexValue(n);
    OneByte(far + |size| / 2);
    ThreeParts(DecToHex(far + |size| / 2), size, s);
  }

  lemma ThreeParts(x: Hex, y: Hex, z: Hex)
    requires |x| % 2 == 0 && |y| % 2 == 0 && |z| % 2 == 0
    ensures Bin(x + y + z) == Bin(x) + Bin(y) + Bin(z)
  {
    BinAppend(x, y);
    BinAppend(x + y, z);
  }

  lemma Halved(m: nat)
    requires m % 2 == 0
    ensures m % TWO_32 / 2 == m / 2 % TWO_31 && 2 * (m % TWO_32 / 2) <= m
  {
  }

  /** An encoding starts with the item its head announces. */
  lemma Announced(e: Bytes, n: nat, p: Bytes, isList: bool, suffix: Bytes)
    requires Headed(e, n, p, isList) && n <= |p|
    ensures Decode(e + suffix) ==
              if n == 0 then Some((Item(false, []), suffix))
              else if n == 1 && p[0] < 128 then Some((Item(false, p[..1]), p[1..] + suffix))
              else Some((Item(isList, p[..n]), p[n..] + suffix))
  {
    var rest := p + suffix;
    assert rest[..n] == p[..n] && rest[n..] == p[n..] + suffix;
    if n == 0 {
      ShortHead(false, 0, suffix);
    } else if n == 1 && p[0] < 128 {
      assert rest[..1] == [rest[0]];
    } else if n < 56 {
      var head: Byte := (if isList then 192 else 128) + n;
      assert [head] + p + suffix == [head] + rest;
      ShortHead(isList, n, rest);
    } else {
      var size: Bytes :| LongForm(e, size, n, p, isList);
      var head: Byte := (if isList then 247 else 183) + |size|;
      assert [head] + size + p + suffix == [head] + size + rest;
      LongHead(isList, size, n, rest);
    }
  }

  /** When the code does what the standard asks: lists below two bytes, and 2^31 bytes or more, are beyond it. */
  predicate Encodable(p: Bytes, isList: bool) {
    |p| < TWO_31 && (isList ==> |p| >= 2 || (|p| == 1 && p[0] >= 128))
  }

  /**
    An encoded text, with anything after it, decodes to the bytes of the text and what follows, exactly
    when these are encodable.
   */
  lemma RoundTrip(text: Hex, isList: bool, suffix: Bytes) returns (p: Bytes)
    ensures Carries(p, text)
    ensures Encodable(p, isList) <==> Decode(Bin(Encode(text, isList)) + suffix) == Some((Item(isList, p), suffix))
  {
    p := Bin(Even(text));
    EvenValue(text);
    EncodeHead(text, isList, p);
    Exactly(Bin(Encode(text, isList)), p, isList, suffix);
  }

  lemma Exactly(e: Bytes, p: Bytes, isList: bool, suffix: Bytes)
    requires Headed(e, |p| % TWO_31, p, isList)
    ensures Encodable(p, isList) <==> Decode(e + suffix) == Some((Item(isList, p), suffix))
  {
    var n := |p| % TWO_31;
    Announced(e, n, p, isList, suffix);
    assert p[..|p|] == p && p[|p|..] + suffix == suffix;
    assert n < |p| ==> p[..n] != p;
  }
}
